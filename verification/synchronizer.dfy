/** The secret synchronizer: publishes a VCI's kubeconfig as a secret in one
    namespace, writing only when the stored content has drifted, and removes
    everything derived from a VCI once the VCI is gone. */
module Synchronizer {
  import opened Text
  import opened Wrappers
  import opened Cluster
  import opened Config
  import opened Naming
  import Base64

  /** The labels every kubeconfig secret of `vci` carries. */
  function DesiredLabels(vci: Ref): Labels {
    map[ManagedByKey := ManagedByValue, FluxKubeconfigKey := TrueValue,
        VciNameKey := vci.name, VciNamespaceKey := vci.namespace]
  }

  /** The labels garbage collection selects on. */
  function GcSelector(vciNamespace: Bytes, vciName: Bytes): Labels {
    map[ManagedByKey := ManagedByValue, VciNameKey := vciName, VciNamespaceKey := vciNamespace]
  }

  function KubeconfigRef(opts: Options, vci: Ref, ns: Bytes): Ref {
    Ref(ns, SecretNameFor(opts.secretPrefix, vci.name))
  }

  /** The stored secret already holds exactly these bytes and this checksum. */
  predicate IsCurrent(sec: Secret, key: Bytes, kcfg: Bytes, sumHex: Bytes) {
    DataValue(sec, key) == kcfg && Lookup(sec.annotations, ChecksumKey) == sumHex
  }

  /** The drift test as written: the stored and desired bytes are compared
      through their standard base64 text, and the checksum annotation
      directly. */
  function Changed(existing: Secret, key: Bytes, kcfg: Bytes, sumHex: Bytes): (changed: bool)
    ensures changed <==> !IsCurrent(existing, key, kcfg, sumHex)
  {
    Base64.EncodeInjective(Base64.Standard, true, DataValue(existing, key), kcfg);
    Base64.StdEncode(DataValue(existing, key)) != Base64.StdEncode(kcfg)
    || Lookup(existing.annotations, ChecksumKey) != sumHex
  }

  /** Some call the upsert in `ns` may make on its secret is failing. */
  predicate UpsertCallFails(opts: Options, s: Store, vci: Ref, ns: Bytes) {
    var ref := KubeconfigRef(opts, vci, ns);
    Call(Get, SecretKind, ref) in s.failing || Call(Create, SecretKind, ref) in s.failing
    || Call(Update, SecretKind, ref) in s.failing
  }

  /** `upsertFluxSecretInNS`. */
  function Upsert(opts: Options, s: Store, vci: Ref, ns: Bytes, kcfg: Bytes, sumHex: Bytes): (r: Step<(), ApiError>)
    // it succeeds exactly when the read goes through and so does the write it needs
    ensures r.result.Ok? <==>
      var ref := KubeconfigRef(opts, vci, ns);
      && Call(Get, SecretKind, ref) !in s.failing
      && (ref !in s.secrets ==> Call(Create, SecretKind, ref) !in s.failing)
      && (ref in s.secrets && !IsCurrent(s.secrets[ref], opts.secretKey, kcfg, sumHex) ==>
            Call(Update, SecretKind, ref) !in s.failing)
    ensures r.result.Err? ==> UpsertCallFails(opts, s, vci, ns)
    // reads and errors leave the store as it was
    ensures r.result.Err? ==> r.store == s
    ensures GetSecret(s, KubeconfigRef(opts, vci, ns)).Err? && GetSecret(s, KubeconfigRef(opts, vci, ns)).error != NotFound
      ==> r == Step(Err(GetSecret(s, KubeconfigRef(opts, vci, ns)).error), s)
    // on success the secret holds the bytes and their checksum
    ensures r.result.Ok? ==>
      var ref := KubeconfigRef(opts, vci, ns);
      ref in r.store.secrets && IsCurrent(r.store.secrets[ref], opts.secretKey, kcfg, sumHex)
    // no write exactly when the content was already current (or the call failed)
    ensures r.store.writes == s.writes <==>
      (r.result.Err? || (KubeconfigRef(opts, vci, ns) in s.secrets
                         && IsCurrent(s.secrets[KubeconfigRef(opts, vci, ns)], opts.secretKey, kcfg, sumHex)))
    ensures r.store.writes == s.writes ==> r.store == s
    // a write stores exactly the desired data, all identifying labels and the
    // checksum, keeping unrelated labels and annotations already there
    ensures r.store.writes == s.writes + 1 ==>
      var ref := KubeconfigRef(opts, vci, ns);
      var sec := r.store.secrets[ref];
      && ref in r.store.secrets
      && sec.data == Some(map[opts.secretKey := kcfg])
      && Selects(DesiredLabels(vci), sec.labels)
      && ChecksumKey in sec.annotations && sec.annotations[ChecksumKey] == sumHex
      && (ref !in s.secrets ==> sec.labels == DesiredLabels(vci) && sec.annotations == map[ChecksumKey := sumHex]
                                && sec.secretType == OpaqueType)
      && (ref in s.secrets ==>
            && (forall k :: k in s.secrets[ref].labels && k !in DesiredLabels(vci) ==>
                  k in sec.labels && sec.labels[k] == s.secrets[ref].labels[k])
            && (forall k :: k in s.secrets[ref].annotations && k != ChecksumKey ==>
                  k in sec.annotations && sec.annotations[k] == s.secrets[ref].annotations[k]))
    // nothing else changes
    ensures r.store.writes <= s.writes + 1
    ensures r.store == s.(secrets := r.store.secrets, writes := r.store.writes)
    ensures SecretsKept(s, r.store, {KubeconfigRef(opts, vci, ns)})
  {
    var ref := KubeconfigRef(opts, vci, ns);
    match GetSecret(s, ref)
    case Err(NotFound) =>
      CreateSecret(s, ref, Secret(DesiredLabels(vci), map[ChecksumKey := sumHex], OpaqueType,
                                  Some(map[opts.secretKey := kcfg])))
    case Err(e) => Step(Err(e), s)
    case Ok(existing) =>
      if Changed(existing, opts.secretKey, kcfg, sumHex) then
        UpdateSecret(s, ref, existing.(data := Some(map[opts.secretKey := kcfg]),
                                       annotations := existing.annotations[ChecksumKey := sumHex],
                                       labels := existing.labels + DesiredLabels(vci)))
      else
        Step(Ok(()), s)
  }

  /** Upserting the same content a second time performs no write. */
  lemma UpsertIdempotent(opts: Options, s: Store, vci: Ref, ns: Bytes, kcfg: Bytes, sumHex: Bytes)
    requires Upsert(opts, s, vci, ns, kcfg, sumHex).result.Ok?
    ensures var s1 := Upsert(opts, s, vci, ns, kcfg, sumHex).store;
            Upsert(opts, s1, vci, ns, kcfg, sumHex) == Step(Ok(()), s1)
  {
  }

  /** Every label GC selects on is written by upsert with the same value. */
  lemma GcSelectorWithinDesiredLabels(vci: Ref)
    ensures Selects(GcSelector(vci.namespace, vci.name), DesiredLabels(vci))
  {
    assert ManagedByKey != FluxKubeconfigKey && VciNameKey != FluxKubeconfigKey;
    assert VciNamespaceKey != FluxKubeconfigKey && VciNameKey != VciNamespaceKey;
  }

  /** Upsert re-labels only when it writes: a secret that already holds the
      current bytes and checksum but lacks the identifying labels is left
      unlabelled, so garbage collection will not find it. */
  lemma CurrentSecretIsNotRelabelled(opts: Options, vci: Ref, ns: Bytes, kcfg: Bytes, sumHex: Bytes)
    ensures var ref := KubeconfigRef(opts, vci, ns);
            var sec := Secret(map[], map[ChecksumKey := sumHex], OpaqueType, Some(map[opts.secretKey := kcfg]));
            var s := Store(map[], map[ref := sec], map[], [], {}, 0);
            && Upsert(opts, s, vci, ns, kcfg, sumHex) == Step(Ok(()), s)
            && !Selects(GcSelector(vci.namespace, vci.name), s.secrets[ref].labels)
  {
    var ref := KubeconfigRef(opts, vci, ns);
    var sec := Secret(map[], map[ChecksumKey := sumHex], OpaqueType, Some(map[opts.secretKey := kcfg]));
    var s := Store(map[], map[ref := sec], map[], [], {}, 0);
    assert IsCurrent(sec, opts.secretKey, kcfg, sumHex);
    assert !Changed(sec, opts.secretKey, kcfg, sumHex);
    assert ManagedByKey in GcSelector(vci.namespace, vci.name);
  }

  // ---- garbage collection ----

  /** The secrets GC deletes: every secret carrying the selector labels whose
      delete call goes through. */
  function Doomed(s: Store, selector: Labels): set<Ref> {
    set ref | ref in s.secrets && Selects(selector, s.secrets[ref].labels)
                && Call(Delete, SecretKind, ref) !in s.failing
  }

  /** `gcAllFluxSecretsForVCI`: list the selected secrets in all namespaces
      and delete each, ignoring individual delete errors. */
  function GcSecrets(s: Store, vciNamespace: Bytes, vciName: Bytes): (r: Step<(), ApiError>)
    ensures Call(List, SecretKind, AllObjects) in s.failing ==> r == Step(Err(Failed), s)
    ensures Call(List, SecretKind, AllObjects) !in s.failing ==> r.result.Ok?
    ensures forall ref :: ref in r.store.secrets <==>
      ref in s.secrets
      && (r.result.Err? || !Selects(GcSelector(vciNamespace, vciName), s.secrets[ref].labels)
          || Call(Delete, SecretKind, ref) in s.failing)
    ensures forall ref :: ref in r.store.secrets ==> r.store.secrets[ref] == s.secrets[ref]
    ensures r.store.writes == s.writes + |s.secrets.Keys - r.store.secrets.Keys|
    ensures r.store == s.(secrets := r.store.secrets, writes := r.store.writes)
  {
    if Call(List, SecretKind, AllObjects) in s.failing then Step(Err(Failed), s)
    else
      var doomed := Doomed(s, GcSelector(vciNamespace, vciName));
      var kept := s.secrets - doomed;
      assert s.secrets.Keys - kept.Keys == doomed;
      Step(Ok(()), s.(secrets := kept, writes := s.writes + |doomed|))
  }

  /** A second GC finds nothing more to delete. */
  lemma GcIdempotent(s: Store, vciNamespace: Bytes, vciName: Bytes)
    ensures var s1 := GcSecrets(s, vciNamespace, vciName).store;
            GcSecrets(s1, vciNamespace, vciName).store == s1
  {
    var s1 := GcSecrets(s, vciNamespace, vciName).store;
    if Call(List, SecretKind, AllObjects) !in s.failing {
      GcFixpoint(s1, vciNamespace, vciName);
    }
  }

  /** GC changes nothing once every selected secret is one it cannot delete. */
  lemma GcFixpoint(s: Store, vciNamespace: Bytes, vciName: Bytes)
    requires forall ref :: ref in s.secrets && Selects(GcSelector(vciNamespace, vciName), s.secrets[ref].labels)
                        ==> Call(Delete, SecretKind, ref) in s.failing
    ensures GcSecrets(s, vciNamespace, vciName).store == s
  {
    assert Doomed(s, GcSelector(vciNamespace, vciName)) == {};
  }

  /** GC rediscovers every secret an upsert wrote: once upsert has written
      the kubeconfig secret of `vci` in `ns`, a GC for `vci` whose list and
      delete calls go through removes it. */
  lemma GcRemovesUpserted(opts: Options, s: Store, vci: Ref, ns: Bytes, kcfg: Bytes, sumHex: Bytes)
    requires Upsert(opts, s, vci, ns, kcfg, sumHex).store.writes == s.writes + 1
    requires Call(List, SecretKind, AllObjects) !in s.failing
    requires Call(Delete, SecretKind, KubeconfigRef(opts, vci, ns)) !in s.failing
    ensures var s1 := Upsert(opts, s, vci, ns, kcfg, sumHex).store;
            KubeconfigRef(opts, vci, ns) !in GcSecrets(s1, vci.namespace, vci.name).store.secrets
  {
    var s1 := Upsert(opts, s, vci, ns, kcfg, sumHex).store;
    var ref := KubeconfigRef(opts, vci, ns);
    GcSelectorWithinDesiredLabels(vci);
    assert Selects(DesiredLabels(vci), s1.secrets[ref].labels);
  }

  // ---- AccessKey and token secret ----

  function TokenSecretRef(opts: Options, vciName: Bytes): Ref {
    Ref(opts.controllerNamespace, TokenSecretName(opts.secretPrefix, vciName))
  }

  /** `deleteAccessKey`: deleting an absent AccessKey succeeds. */
  function DeleteAccessKeyOf(s: Store, vciName: Bytes): (r: Step<(), ApiError>)
    ensures r.result.Ok? <==> Call(Delete, AccessKeyKind, Ref([], AccessKeyName(vciName))) !in s.failing
    ensures r.result.Ok? ==> AccessKeyName(vciName) !in r.store.accessKeys
    ensures r.result.Err? ==> r.store == s
    ensures r.store == s.(accessKeys := r.store.accessKeys, writes := r.store.writes)
    ensures AccessKeysKept(s, r.store, {AccessKeyName(vciName)})
  {
    var d := DeleteAccessKey(s, AccessKeyName(vciName));
    Step(IgnoreNotFound(d.result), d.store)
  }

  /** `deleteTokenSecret`: deleting an absent token secret succeeds. */
  function DeleteTokenSecret(opts: Options, s: Store, vciName: Bytes): (r: Step<(), ApiError>)
    ensures r.result.Ok? <==> Call(Delete, SecretKind, TokenSecretRef(opts, vciName)) !in s.failing
    ensures r.result.Ok? ==> TokenSecretRef(opts, vciName) !in r.store.secrets
    ensures r.result.Err? ==> r.store == s
    ensures r.store == s.(secrets := r.store.secrets, writes := r.store.writes)
    ensures SecretsKept(s, r.store, {TokenSecretRef(opts, vciName)})
  {
    var d := DeleteSecret(s, TokenSecretRef(opts, vciName));
    Step(IgnoreNotFound(d.result), d.store)
  }

  /** Repeating either delete is a successful no-op. */
  lemma DeletesIdempotent(opts: Options, s: Store, vciName: Bytes)
    requires DeleteAccessKeyOf(s, vciName).result.Ok?
    requires DeleteTokenSecret(opts, s, vciName).result.Ok?
    ensures var s1 := DeleteAccessKeyOf(s, vciName).store;
            DeleteAccessKeyOf(s1, vciName) == Step(Ok(()), s1)
    ensures var s1 := DeleteTokenSecret(opts, s, vciName).store;
            DeleteTokenSecret(opts, s1, vciName) == Step(Ok(()), s1)
  {
  }
}
