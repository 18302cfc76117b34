/** The reconcile state machine (`Reconcile`): a deleted VCI is garbage
    collected, a VCI that is not Ready is left alone, and a Ready VCI gets
    its token, its kubeconfig and one kubeconfig secret per resolved Flux
    namespace. The store is threaded through every step; the random bytes
    and SHA-256 come from outside. */
module Reconciler {
  import opened Text
  import opened Wrappers
  import opened Cluster
  import opened Config
  import opened Naming
  import opened Synchronizer
  import opened Tokens
  import ServerTemplate
  import Kubeconfig
  import NamespaceResolver
  import Hex

  datatype ReconcileError =
    | GetVciFailed(getError: ApiError)
    | EnsureFailed(tokenError: TokenError)
    | RenderFailed(templateError: ServerTemplate.TemplateError)
    | ResolveFailed(listError: ApiError)
    | UpsertFailed(namespace: Bytes, upsertError: ApiError)

  /** The template variables for `vci`. */
  function ServerVars(opts: Options, vci: Ref): ServerTemplate.Vars {
    ServerTemplate.Vars(opts.loftDomain, ProjectFromNamespace(vci.namespace), vci.namespace, vci.name)
  }

  function CaRef(opts: Options): Ref {
    Ref(opts.caSecretNamespace, opts.caSecretName)
  }

  /** The CA bundle, best effort: read only when both coordinates are set,
      and empty when the read fails or the key is missing. */
  function CaBundle(opts: Options, s: Store): (ca: Bytes)
    ensures (opts.caSecretNamespace == [] || opts.caSecretName == []) ==> ca == []
    ensures GetSecret(s, CaRef(opts)).Err? ==> ca == []
    ensures opts.caSecretNamespace != [] && opts.caSecretName != [] && CaRef(opts) in s.secrets
            && Call(Get, SecretKind, CaRef(opts)) !in s.failing
            ==> ca == DataValue(s.secrets[CaRef(opts)], opts.caSecretKey)
  {
    if opts.caSecretNamespace != [] && opts.caSecretName != [] then
      match GetSecret(s, CaRef(opts))
      case Ok(sec) => DataValue(sec, opts.caSecretKey)
      case Err(_) => []
    else []
  }

  /** A kubeconfig secret of `vci` in `ns` that holds `kcfg` and its checksum. */
  predicate Published(opts: Options, s: Store, vci: Ref, ns: Bytes, kcfg: Bytes, sumHex: Bytes) {
    KubeconfigRef(opts, vci, ns) in s.secrets
    && IsCurrent(s.secrets[KubeconfigRef(opts, vci, ns)], opts.secretKey, kcfg, sumHex)
  }

  /** The kubeconfig secrets of `vci` in the namespaces `nss`. */
  function Targets(opts: Options, vci: Ref, nss: seq<Bytes>): set<Ref> {
    set i | 0 <= i < |nss| :: KubeconfigRef(opts, vci, nss[i])
  }

  lemma KeptTrans(s0: Store, s1: Store, s2: Store, t1: set<Ref>, t2: set<Ref>, t: set<Ref>)
    requires SecretsKept(s0, s1, t1) && SecretsKept(s1, s2, t2) && t1 + t2 <= t
    ensures SecretsKept(s0, s2, t)
  {
  }

  lemma TargetsCons(opts: Options, vci: Ref, nss: seq<Bytes>, k: nat)
    requires 0 <= k < |nss|
    ensures Targets(opts, vci, nss[..k + 1]) == {KubeconfigRef(opts, vci, nss[0])} + Targets(opts, vci, nss[1..][..k])
    ensures Targets(opts, vci, nss) == {KubeconfigRef(opts, vci, nss[0])} + Targets(opts, vci, nss[1..])
    ensures Targets(opts, vci, nss[..k]) <= Targets(opts, vci, nss)
  {
    var head := KubeconfigRef(opts, vci, nss[0]);
    assert forall i :: 0 <= i < k ==> nss[1..][..k][i] == nss[..k + 1][i + 1];
    assert forall i :: 0 < i < |nss| ==> nss[i] == nss[1..][i - 1];
    assert forall i :: 0 <= i < k ==> nss[..k][i] == nss[i];
  }

  /** The upsert loop: namespaces in order, stopping at the first failure.
      On success every namespace is published; on failure the error names
      the first namespace that failed, every namespace before it is
      published, and no secret of a later namespace was touched. */
  function UpsertAll(opts: Options, s: Store, vci: Ref, nss: seq<Bytes>, kcfg: Bytes, sumHex: Bytes)
    : (r: Step<(), ReconcileError>)
    ensures r.result.Ok? ==> forall i :: 0 <= i < |nss| ==> Published(opts, r.store, vci, nss[i], kcfg, sumHex)
    ensures r.result.Err? ==>
      exists k :: 0 <= k < |nss| && r.result.error.UpsertFailed? && r.result.error.namespace == nss[k]
        && (forall i :: 0 <= i < k ==> Published(opts, r.store, vci, nss[i], kcfg, sumHex))
        && SecretsKept(s, r.store, Targets(opts, vci, nss[..k]))
    // the loop fails only on a namespace where some call of its upsert is
    // failing, and when no such call is failing it succeeds
    ensures r.result.Err? ==> r.result.error.UpsertFailed? && UpsertCallFails(opts, s, vci, r.result.error.namespace)
    ensures (forall i :: 0 <= i < |nss| ==> !UpsertCallFails(opts, s, vci, nss[i])) ==> r.result.Ok?
    ensures SecretsKept(s, r.store, Targets(opts, vci, nss))
    ensures r.store == s.(secrets := r.store.secrets, writes := r.store.writes)
    ensures r.store.writes <= s.writes + |nss|
    decreases |nss|
  {
    if |nss| == 0 then Step(Ok(()), s)
    else
      var u := Upsert(opts, s, vci, nss[0], kcfg, sumHex);
      if u.result.Err? then
        assert nss[..0] == [];
        assert Targets(opts, vci, nss[..0]) == {};
        TargetsCons(opts, vci, nss, 0);
        Step(Err(UpsertFailed(nss[0], u.result.error)), u.store)
      else
        var r := UpsertAll(opts, u.store, vci, nss[1..], kcfg, sumHex);
        UpsertAllStep(opts, s, u.store, r, vci, nss, kcfg, sumHex);
        assert u.store.failing == s.failing;
        assert forall i :: 0 <= i < |nss[1..]| ==> nss[1..][i] == nss[i + 1];
        r
  }

  /** The loop's promise for the rest of the namespaces, after a successful
      upsert of the first, is its promise for all of them. */
  lemma UpsertAllStep(opts: Options, s: Store, s1: Store, r: Step<(), ReconcileError>, vci: Ref, nss: seq<Bytes>,
                      kcfg: Bytes, sumHex: Bytes)
    requires |nss| > 0
    requires Published(opts, s1, vci, nss[0], kcfg, sumHex)
    requires SecretsKept(s, s1, {KubeconfigRef(opts, vci, nss[0])})
    requires r.result.Ok? ==> forall i :: 0 <= i < |nss[1..]| ==> Published(opts, r.store, vci, nss[1..][i], kcfg, sumHex)
    requires r.result.Err? ==>
      exists k :: 0 <= k < |nss[1..]| && r.result.error.UpsertFailed? && r.result.error.namespace == nss[1..][k]
        && (forall i :: 0 <= i < k ==> Published(opts, r.store, vci, nss[1..][i], kcfg, sumHex))
        && SecretsKept(s1, r.store, Targets(opts, vci, nss[1..][..k]))
    requires SecretsKept(s1, r.store, Targets(opts, vci, nss[1..]))
    ensures r.result.Ok? ==> forall i :: 0 <= i < |nss| ==> Published(opts, r.store, vci, nss[i], kcfg, sumHex)
    ensures r.result.Err? ==>
      exists k :: 0 <= k < |nss| && r.result.error.UpsertFailed? && r.result.error.namespace == nss[k]
        && (forall i :: 0 <= i < k ==> Published(opts, r.store, vci, nss[i], kcfg, sumHex))
        && SecretsKept(s, r.store, Targets(opts, vci, nss[..k]))
    ensures SecretsKept(s, r.store, Targets(opts, vci, nss))
  {
    TargetsCons(opts, vci, nss, 0);
    KeptTrans(s, s1, r.store, {KubeconfigRef(opts, vci, nss[0])}, Targets(opts, vci, nss[1..]),
              Targets(opts, vci, nss));
    if r.result.Err? {
      var k :| 0 <= k < |nss[1..]| && r.result.error.UpsertFailed? && r.result.error.namespace == nss[1..][k]
               && (forall i :: 0 <= i < k ==> Published(opts, r.store, vci, nss[1..][i], kcfg, sumHex))
               && SecretsKept(s1, r.store, Targets(opts, vci, nss[1..][..k]));
      PrefixStep(opts, s, s1, r.store, vci, nss, kcfg, sumHex, k);
      assert nss[k + 1] == nss[1..][k];
    } else {
      var k := |nss| - 1;
      assert nss[1..][..k] == nss[1..];
      assert Targets(opts, vci, nss[1..][..k]) == Targets(opts, vci, nss[1..]);
      PrefixStep(opts, s, s1, r.store, vci, nss, kcfg, sumHex, k);
      assert nss[..|nss|] == nss;
    }
  }

  /** One upsert followed by a loop over the rest: what holds for a prefix
      of the rest holds for that prefix with the first namespace in front. */
  lemma PrefixStep(opts: Options, s: Store, s1: Store, s2: Store, vci: Ref, nss: seq<Bytes>, kcfg: Bytes, sumHex: Bytes,
                   k: nat)
    requires 0 <= k < |nss|
    requires Published(opts, s1, vci, nss[0], kcfg, sumHex)
    requires SecretsKept(s, s1, {KubeconfigRef(opts, vci, nss[0])})
    requires forall i :: 0 <= i < k ==> Published(opts, s2, vci, nss[1..][i], kcfg, sumHex)
    requires SecretsKept(s1, s2, Targets(opts, vci, nss[1..][..k]))
    ensures forall i :: 0 <= i < k + 1 ==> Published(opts, s2, vci, nss[i], kcfg, sumHex)
    ensures SecretsKept(s, s2, Targets(opts, vci, nss[..k + 1]))
  {
    TargetsCons(opts, vci, nss, k);
    KeptTrans(s, s1, s2, {KubeconfigRef(opts, vci, nss[0])}, Targets(opts, vci, nss[1..][..k]),
              Targets(opts, vci, nss[..k + 1]));
    if nss[0] !in nss[1..][..k] {
      PublishedKept(opts, s1, s2, vci, nss[1..][..k], nss[0], kcfg, sumHex);
    }
    assert forall i :: 1 <= i < k + 1 ==> nss[i] == nss[1..][i - 1];
  }

  /** A published secret stays published through a later loop: outside its
      targets nothing changes, and inside them the loop publishes again. */
  lemma PublishedKept(opts: Options, s: Store, s': Store, vci: Ref, nss: seq<Bytes>, ns: Bytes, kcfg: Bytes, sumHex: Bytes)
    requires Published(opts, s, vci, ns, kcfg, sumHex)
    requires SecretsKept(s, s', Targets(opts, vci, nss))
    requires ns in nss ==> Published(opts, s', vci, ns, kcfg, sumHex)
    ensures Published(opts, s', vci, ns, kcfg, sumHex)
  {
    if ns !in nss {
      assert KubeconfigRef(opts, vci, ns) !in Targets(opts, vci, nss);
    }
  }

  /** A loop that succeeded could read every kubeconfig secret it visited:
      a failing read ends the loop with an error. */
  lemma {:induction false} UpsertAllRead(opts: Options, s: Store, vci: Ref, nss: seq<Bytes>, kcfg: Bytes, sumHex: Bytes)
    requires UpsertAll(opts, s, vci, nss, kcfg, sumHex).result.Ok?
    ensures forall i :: 0 <= i < |nss| ==> Call(Get, SecretKind, KubeconfigRef(opts, vci, nss[i])) !in s.failing
    decreases |nss|
  {
    if |nss| > 0 {
      var u := Upsert(opts, s, vci, nss[0], kcfg, sumHex);
      assert u.result.Ok? && UpsertAll(opts, u.store, vci, nss[1..], kcfg, sumHex).result.Ok?;
      UpsertRead(opts, s, vci, nss[0], kcfg, sumHex);
      UpsertAllRead(opts, u.store, vci, nss[1..], kcfg, sumHex);
      assert forall i :: 1 <= i < |nss| ==> nss[i] == nss[1..][i - 1];
    }
  }

  /** A successful upsert read its secret, and it reads nothing else, so
      the failing calls are the same afterwards. */
  lemma UpsertRead(opts: Options, s: Store, vci: Ref, ns: Bytes, kcfg: Bytes, sumHex: Bytes)
    requires Upsert(opts, s, vci, ns, kcfg, sumHex).result.Ok?
    ensures Call(Get, SecretKind, KubeconfigRef(opts, vci, ns)) !in s.failing
    ensures Upsert(opts, s, vci, ns, kcfg, sumHex).store.failing == s.failing
  {
  }

  /** When every secret is readable and already published, the loop
      succeeds without writing anything. */
  lemma {:induction false} UpsertAllNoop(opts: Options, s: Store, vci: Ref, nss: seq<Bytes>, kcfg: Bytes, sumHex: Bytes)
    requires forall i :: 0 <= i < |nss| ==>
      Published(opts, s, vci, nss[i], kcfg, sumHex) && Call(Get, SecretKind, KubeconfigRef(opts, vci, nss[i])) !in s.failing
    ensures UpsertAll(opts, s, vci, nss, kcfg, sumHex) == Step(Ok(()), s)
    decreases |nss|
  {
    if |nss| > 0 {
      assert Published(opts, s, vci, nss[0], kcfg, sumHex);
      assert Upsert(opts, s, vci, nss[0], kcfg, sumHex) == Step(Ok(()), s);
      assert forall i :: 0 <= i < |nss[1..]| ==> nss[1..][i] == nss[i + 1];
      UpsertAllNoop(opts, s, vci, nss[1..], kcfg, sumHex);
    }
  }

  /** Every secret that differs between `s` and `s'` carries the
      identifying labels of `vci` in `s'`. */
  ghost predicate Labelled(vci: Ref, s: Store, s': Store) {
    forall ref :: ref in s'.secrets && (ref !in s.secrets || s'.secrets[ref] != s.secrets[ref]) ==>
      Selects(DesiredLabels(vci), s'.secrets[ref].labels)
  }

  lemma LabelledTrans(vci: Ref, s0: Store, s1: Store, s2: Store)
    requires Labelled(vci, s0, s1) && Labelled(vci, s1, s2)
    ensures Labelled(vci, s0, s2)
  {
  }

  /** A single upsert writes only a labelled secret. */
  lemma UpsertLabelled(opts: Options, s: Store, vci: Ref, ns: Bytes, kcfg: Bytes, sumHex: Bytes)
    ensures Labelled(vci, s, Upsert(opts, s, vci, ns, kcfg, sumHex).store)
  {
    var u := Upsert(opts, s, vci, ns, kcfg, sumHex);
    if u.store.writes == s.writes {
      assert u.store == s;
    }
  }

  /** Every kubeconfig secret the loop wrote carries the identifying labels,
      so garbage collection finds it later. */
  lemma {:induction false} UpsertAllLabels(opts: Options, s: Store, vci: Ref, nss: seq<Bytes>, kcfg: Bytes, sumHex: Bytes)
    ensures Labelled(vci, s, UpsertAll(opts, s, vci, nss, kcfg, sumHex).store)
    decreases |nss|
  {
    if |nss| > 0 {
      var u := Upsert(opts, s, vci, nss[0], kcfg, sumHex);
      if u.result.Ok? {
        UpsertLabelled(opts, s, vci, nss[0], kcfg, sumHex);
        UpsertAllLabels(opts, u.store, vci, nss[1..], kcfg, sumHex);
        LabelledTrans(vci, s, u.store, UpsertAll(opts, u.store, vci, nss[1..], kcfg, sumHex).store);
      }
    }
  }

  /** `Reconcile` for the request `req`. `entropy` stands for the bytes the
      random source would give (`None` when it fails), `sha256` for the hash. */
  function Reconcile(opts: Options, s: Store, req: Ref, entropy: Option<Bytes>, sha256: Bytes -> Kubeconfig.Digest)
    : (r: Step<(), ReconcileError>)
    requires entropy.Some? ==> |entropy.value| == TokenEntropy
    // a read error other than not-found is returned and nothing is written
    ensures GetVci(s, req).Err? && GetVci(s, req).error != NotFound ==>
      r == Step(Err(GetVciFailed(GetVci(s, req).error)), s)
    // a deleted VCI is cleaned up and the pass succeeds whatever GC met
    ensures GetVci(s, req) == Err(NotFound) ==> r.result.Ok?
    // a VCI that is not Ready is left alone
    ensures GetVci(s, req).Ok? && GetVci(s, req).value.phase != Some(ReadyPhase) ==> r == Step(Ok(()), s)
    // VCIs, namespaces and injected failures are never changed
    ensures r.store == s.(secrets := r.store.secrets, accessKeys := r.store.accessKeys, writes := r.store.writes)
  {
    match GetVci(s, req)
    case Err(NotFound) => CleanUp(opts, s, req)
    case Err(e) => Step(Err(GetVciFailed(e)), s)
    case Ok(vci) =>
      if vci.phase != Some(ReadyPhase) then Step(Ok(()), s)
      else Publish(opts, s, req, entropy, sha256)
  }

  /** The deleted-VCI branch: GC, then both deletes, every error swallowed. */
  function CleanUp(opts: Options, s: Store, req: Ref): (r: Step<(), ReconcileError>)
    ensures r.result.Ok?
    // no selected secret survives whose list and delete calls go through
    ensures Call(List, SecretKind, AllObjects) !in s.failing ==>
      forall ref :: ref in r.store.secrets && Selects(GcSelector(req.namespace, req.name), r.store.secrets[ref].labels)
        ==> Call(Delete, SecretKind, ref) in s.failing
    ensures Call(Delete, AccessKeyKind, Ref([], AccessKeyName(req.name))) !in s.failing ==>
      AccessKeyName(req.name) !in r.store.accessKeys
    ensures Call(Delete, SecretKind, TokenSecretRef(opts, req.name)) !in s.failing ==>
      TokenSecretRef(opts, req.name) !in r.store.secrets
    // secrets that survive are unchanged, and nothing is created
    ensures forall ref :: ref in r.store.secrets ==> ref in s.secrets && r.store.secrets[ref] == s.secrets[ref]
    // only the selected secrets, the token secret and the VCI's AccessKey can go
    ensures forall ref ::
      (ref in s.secrets && !Selects(GcSelector(req.namespace, req.name), s.secrets[ref].labels)
       && ref != TokenSecretRef(opts, req.name)) ==> ref in r.store.secrets
    ensures AccessKeysKept(s, r.store, {AccessKeyName(req.name)})
    ensures r.store == s.(secrets := r.store.secrets, accessKeys := r.store.accessKeys, writes := r.store.writes)
  {
    var g := GcSecrets(s, req.namespace, req.name);
    var a := DeleteAccessKeyOf(g.store, req.name);
    var t := DeleteTokenSecret(opts, a.store, req.name);
    CleanUpKeeps(opts, s, req);
    Step(Ok(()), t.store)
  }

  /** The three steps of the clean-up touch nothing outside the selected
      secrets, the token secret and the VCI's AccessKey. */
  lemma CleanUpKeeps(opts: Options, s: Store, req: Ref)
    ensures var g := GcSecrets(s, req.namespace, req.name);
            var a := DeleteAccessKeyOf(g.store, req.name);
            var t := DeleteTokenSecret(opts, a.store, req.name);
            && (forall ref ::
                  (ref in s.secrets && !Selects(GcSelector(req.namespace, req.name), s.secrets[ref].labels)
                   && ref != TokenSecretRef(opts, req.name)) ==> ref in t.store.secrets)
            && AccessKeysKept(s, t.store, {AccessKeyName(req.name)})
  {
    var g := GcSecrets(s, req.namespace, req.name);
    var a := DeleteAccessKeyOf(g.store, req.name);
    var t := DeleteTokenSecret(opts, a.store, req.name);
    assert a.store.secrets == g.store.secrets;
    assert g.store.accessKeys == s.accessKeys && t.store.accessKeys == a.store.accessKeys;
  }

  /** The Ready branch: the token, then the delivery of the kubeconfig. */
  function Publish(opts: Options, s: Store, req: Ref, entropy: Option<Bytes>, sha256: Bytes -> Kubeconfig.Digest)
    : (r: Step<(), ReconcileError>)
    requires entropy.Some? ==> |entropy.value| == TokenEntropy
    ensures r.store == s.(secrets := r.store.secrets, accessKeys := r.store.accessKeys, writes := r.store.writes)
    // only the VCI's kubeconfig secrets, its token secret and its AccessKey can change
    ensures forall ref: Ref :: ref.name != SecretNameFor(opts.secretPrefix, req.name) && ref != TokenSecretRef(opts, req.name) ==>
      (ref in r.store.secrets <==> ref in s.secrets) && (ref in s.secrets ==> r.store.secrets[ref] == s.secrets[ref])
    ensures AccessKeysKept(s, r.store, {AccessKeyName(req.name)})
    // a token failure ends the pass with only the token step's writes
    ensures var e := EnsureAccessKeyAndToken(opts, s, req, entropy);
            e.result.Err? ==> r == Step(Err(EnsureFailed(e.result.error)), e.store)
    // a template or listing failure ends the pass before any kubeconfig is written
    ensures var e := EnsureAccessKeyAndToken(opts, s, req, entropy);
            var url := ServerTemplate.RenderServerUrl(opts.serverTemplate, ServerVars(opts, req));
            e.result.Ok? && url.Err? ==> r == Step(Err(RenderFailed(url.error)), e.store)
    ensures var e := EnsureAccessKeyAndToken(opts, s, req, entropy);
            var url := ServerTemplate.RenderServerUrl(opts.serverTemplate, ServerVars(opts, req));
            var nss := NamespaceResolver.Resolve(opts.fluxNamespacePatterns, ListNamespaces(e.store));
            e.result.Ok? && url.Ok? && nss.Err? ==> r == Step(Err(ResolveFailed(nss.error)), e.store)
    ensures r.result.Err? ==> !r.result.error.GetVciFailed?
  {
    var ensured := EnsureAccessKeyAndToken(opts, s, req, entropy);
    PublishKeeps(opts, s, req, entropy, sha256);
    PublishKeepsAccessKeys(opts, s, req, entropy, sha256);
    if ensured.result.Err? then Step(Err(EnsureFailed(ensured.result.error)), ensured.store)
    else Deliver(opts, ensured.store, req, ensured.result.value, sha256)
  }

  /** The token step and the delivery together touch no secret other than the
      VCI's kubeconfig secrets and token secret. */
  lemma PublishKeeps(opts: Options, s: Store, req: Ref, entropy: Option<Bytes>, sha256: Bytes -> Kubeconfig.Digest)
    requires entropy.Some? ==> |entropy.value| == TokenEntropy
    ensures var e := EnsureAccessKeyAndToken(opts, s, req, entropy);
            var r := if e.result.Err? then e.store else Deliver(opts, e.store, req, e.result.value, sha256).store;
            forall ref: Ref :: ref.name != SecretNameFor(opts.secretPrefix, req.name) && ref != TokenSecretRef(opts, req.name) ==>
              (ref in r.secrets <==> ref in s.secrets) && (ref in s.secrets ==> r.secrets[ref] == s.secrets[ref])
  {
    var e := EnsureAccessKeyAndToken(opts, s, req, entropy);
    if e.result.Ok? {
      var d := Deliver(opts, e.store, req, e.result.value, sha256);
      KeptThenOnly(opts, s, e.store, d.store, req);
    }
  }

  /** A step that keeps every secret but the token secret, followed by one
      that keeps every secret not named like the VCI's kubeconfig secrets,
      keeps every secret outside both. */
  lemma KeptThenOnly(opts: Options, s0: Store, s1: Store, s2: Store, req: Ref)
    requires SecretsKept(s0, s1, {TokenSecretRef(opts, req.name)})
    requires OnlyKubeconfigsOf(opts, s1, s2, req)
    ensures forall ref: Ref :: ref.name != SecretNameFor(opts.secretPrefix, req.name) && ref != TokenSecretRef(opts, req.name) ==>
      (ref in s2.secrets <==> ref in s0.secrets) && (ref in s0.secrets ==> s2.secrets[ref] == s0.secrets[ref])
  {
  }

  /** Neither the token step nor the delivery touches another VCI's AccessKey. */
  lemma PublishKeepsAccessKeys(opts: Options, s: Store, req: Ref, entropy: Option<Bytes>, sha256: Bytes -> Kubeconfig.Digest)
    requires entropy.Some? ==> |entropy.value| == TokenEntropy
    ensures var e := EnsureAccessKeyAndToken(opts, s, req, entropy);
            var r := if e.result.Err? then e.store else Deliver(opts, e.store, req, e.result.value, sha256).store;
            AccessKeysKept(s, r, {AccessKeyName(req.name)})
  {
    var e := EnsureAccessKeyAndToken(opts, s, req, entropy);
    if e.result.Ok? {
      assert Deliver(opts, e.store, req, e.result.value, sha256).store.accessKeys == e.store.accessKeys;
    }
  }

  /** Every secret that is not a kubeconfig secret of `vci` is as it was. */
  ghost predicate OnlyKubeconfigsOf(opts: Options, s: Store, s': Store, vci: Ref) {
    forall ref: Ref :: ref.name != SecretNameFor(opts.secretPrefix, vci.name) ==>
      (ref in s'.secrets <==> ref in s.secrets) && (ref in s.secrets ==> s'.secrets[ref] == s.secrets[ref])
  }

  /** Steps 2 and 3 of the Ready branch once the token is known: render the
      server URL, read the CA bundle, build the document, resolve the Flux
      namespaces and upsert the secret in each. Only kubeconfig secrets of
      the VCI are written. */
  function Deliver(opts: Options, s: Store, req: Ref, token: Bytes, sha256: Bytes -> Kubeconfig.Digest)
    : (r: Step<(), ReconcileError>)
    ensures r.store == s.(secrets := r.store.secrets, writes := r.store.writes)
    ensures OnlyKubeconfigsOf(opts, s, r.store, req)
    // a template or listing failure ends the pass with that error and no write
    ensures var url := ServerTemplate.RenderServerUrl(opts.serverTemplate, ServerVars(opts, req));
            url.Err? ==> r == Step(Err(RenderFailed(url.error)), s)
    ensures var url := ServerTemplate.RenderServerUrl(opts.serverTemplate, ServerVars(opts, req));
            var nss := NamespaceResolver.Resolve(opts.fluxNamespacePatterns, ListNamespaces(s));
            url.Ok? && nss.Err? ==> r == Step(Err(ResolveFailed(nss.error)), s)
    // the only other way to fail is an upsert into one of the resolved
    // namespaces, on a call that is failing
    ensures var url := ServerTemplate.RenderServerUrl(opts.serverTemplate, ServerVars(opts, req));
            var nss := NamespaceResolver.Resolve(opts.fluxNamespacePatterns, ListNamespaces(s));
            r.result.Err? && url.Ok? && nss.Ok? ==>
              && r.result.error.UpsertFailed? && r.result.error.namespace in nss.value
              && UpsertCallFails(opts, s, req, r.result.error.namespace)
  {
    match ServerTemplate.RenderServerUrl(opts.serverTemplate, ServerVars(opts, req))
    case Err(e) => Step(Err(RenderFailed(e)), s)
    case Ok(server) =>
      var doc := Kubeconfig.BuildKubeconfigBytes(server, req.name, token, CaBundle(opts, s), sha256);
      match NamespaceResolver.Resolve(opts.fluxNamespacePatterns, ListNamespaces(s))
      case Err(e) => Step(Err(ResolveFailed(e)), s)
      case Ok(nss) =>
        var u := UpsertAll(opts, s, req, nss, doc.0, doc.1);
        assert forall ref :: ref in Targets(opts, req, nss) ==> ref.name == SecretNameFor(opts.secretPrefix, req.name);
        u
  }

  // ---- properties of whole passes ----

  /** What a client reading the kubeconfig secret `ref` connects with. */
  function ClientView(opts: Options, s: Store, ref: Ref): Option<Kubeconfig.Connection> {
    if ref !in s.secrets then None
    else
      match Kubeconfig.Read(DataValue(s.secrets[ref], opts.secretKey))
      case None => None
      case Some(cfg) => Kubeconfig.Connect(cfg)
  }

  /** A secret holding the built document serves its server, CA bundle and
      token, and carries the checksum of its own bytes. */
  lemma PublishedServes(opts: Options, s: Store, vci: Ref, ns: Bytes, server: Bytes, token: Bytes, ca: Bytes,
                        sha256: Bytes -> Kubeconfig.Digest)
    requires var doc := Kubeconfig.BuildKubeconfigBytes(server, vci.name, token, ca, sha256);
             Published(opts, s, vci, ns, doc.0, doc.1)
    ensures var ref := KubeconfigRef(opts, vci, ns);
            && ClientView(opts, s, ref) == Some(Kubeconfig.Connection(server, ca, token))
            && Lookup(s.secrets[ref].annotations, ChecksumKey) == Hex.Encode(sha256(DataValue(s.secrets[ref], opts.secretKey)))
  {
  }

  /** A successful delivery leaves, in every resolved Flux namespace, a
      kubeconfig secret that connects to the rendered server with the CA
      bundle and the given token, with the checksum of its own bytes. */
  lemma DeliverPublishes(opts: Options, s: Store, req: Ref, token: Bytes, sha256: Bytes -> Kubeconfig.Digest)
    requires Deliver(opts, s, req, token, sha256).result.Ok?
    ensures var r := Deliver(opts, s, req, token, sha256).store;
            var server := ServerTemplate.RenderServerUrl(opts.serverTemplate, ServerVars(opts, req));
            var nss := NamespaceResolver.Resolve(opts.fluxNamespacePatterns, ListNamespaces(s));
            && server.Ok? && nss.Ok?
            && forall ns :: ns in nss.value ==>
                 var ref := KubeconfigRef(opts, req, ns);
                 && ClientView(opts, r, ref) == Some(Kubeconfig.Connection(server.value, CaBundle(opts, s), token))
                 && Lookup(r.secrets[ref].annotations, ChecksumKey) == Hex.Encode(sha256(DataValue(r.secrets[ref], opts.secretKey)))
  {
    var server := ServerTemplate.RenderServerUrl(opts.serverTemplate, ServerVars(opts, req)).value;
    var ca := CaBundle(opts, s);
    var doc := Kubeconfig.BuildKubeconfigBytes(server, req.name, token, ca, sha256);
    var nss := NamespaceResolver.Resolve(opts.fluxNamespacePatterns, ListNamespaces(s)).value;
    var u := UpsertAll(opts, s, req, nss, doc.0, doc.1);
    assert Deliver(opts, s, req, token, sha256) == u;
    forall ns | ns in nss
      ensures var ref := KubeconfigRef(opts, req, ns);
              && ClientView(opts, u.store, ref) == Some(Kubeconfig.Connection(server, ca, token))
              && Lookup(u.store.secrets[ref].annotations, ChecksumKey)
                 == Hex.Encode(sha256(DataValue(u.store.secrets[ref], opts.secretKey)))
    {
      var i :| 0 <= i < |nss| && nss[i] == ns;
      PublishedServes(opts, u.store, req, ns, server, token, ca, sha256);
    }
  }

  /** A successful pass over a Ready VCI leaves, in every resolved Flux
      namespace, a kubeconfig secret that connects to the rendered server with
      the CA bundle and the token of this pass, with the checksum of its own
      bytes; a freshly minted token is also the key of the VCI's AccessKey. */
  lemma ReconcilePublishes(opts: Options, s: Store, req: Ref, entropy: Option<Bytes>, sha256: Bytes -> Kubeconfig.Digest)
    requires entropy.Some? ==> |entropy.value| == TokenEntropy
    requires GetVci(s, req).Ok? && GetVci(s, req).value.phase == Some(ReadyPhase)
    requires Reconcile(opts, s, req, entropy, sha256).result.Ok?
    requires CaRef(opts) != TokenSecretRef(opts, req.name)
    ensures var r := Reconcile(opts, s, req, entropy, sha256).store;
            var e := EnsureAccessKeyAndToken(opts, s, req, entropy);
            var server := ServerTemplate.RenderServerUrl(opts.serverTemplate, ServerVars(opts, req));
            var nss := NamespaceResolver.Resolve(opts.fluxNamespacePatterns, ListNamespaces(s));
            && e.result.Ok? && server.Ok? && nss.Ok?
            && (StoredToken(opts, s, req.name).Some? ==> e.result.value == StoredToken(opts, s, req.name).value)
            && (StoredToken(opts, s, req.name).None? ==>
                  AccessKeyName(req.name) in r.accessKeys
                  && r.accessKeys[AccessKeyName(req.name)].spec.Some?
                  && r.accessKeys[AccessKeyName(req.name)].spec.value.key == e.result.value)
            && forall ns :: ns in nss.value ==>
                 var ref := KubeconfigRef(opts, req, ns);
                 && ClientView(opts, r, ref) == Some(Kubeconfig.Connection(server.value, CaBundle(opts, s), e.result.value))
                 && Lookup(r.secrets[ref].annotations, ChecksumKey) == Hex.Encode(sha256(DataValue(r.secrets[ref], opts.secretKey)))
  {
    var e := EnsureAccessKeyAndToken(opts, s, req, entropy);
    assert Reconcile(opts, s, req, entropy, sha256) == Deliver(opts, e.store, req, e.result.value, sha256);
    EnsureKeepsDeliveryInputs(opts, s, req, entropy);
    DeliverPublishes(opts, e.store, req, e.result.value, sha256);
  }

  /** Minting the token touches neither the CA secret (when it is not the
      token secret) nor the namespace list, so delivery sees the same inputs. */
  lemma EnsureKeepsDeliveryInputs(opts: Options, s: Store, req: Ref, entropy: Option<Bytes>)
    requires entropy.Some? ==> |entropy.value| == TokenEntropy
    requires CaRef(opts) != TokenSecretRef(opts, req.name)
    ensures var e := EnsureAccessKeyAndToken(opts, s, req, entropy).store;
            CaBundle(opts, e) == CaBundle(opts, s) && ListNamespaces(e) == ListNamespaces(s)
  {
    var e := EnsureAccessKeyAndToken(opts, s, req, entropy).store;
    assert GetSecret(e, CaRef(opts)) == GetSecret(s, CaRef(opts));
  }

  /** A second pass right after a successful one writes nothing, whatever
      random bytes it gets: the token is reused, the document is rebuilt byte
      for byte, and every secret is already current; a deleted VCI has
      nothing left to clean up. This needs the token secret to be readable
      (otherwise every pass mints a new token) and the CA secret to be none
      of the secrets the pass writes. */
  lemma ReconcileIdempotent(opts: Options, s: Store, req: Ref, e1: Option<Bytes>, e2: Option<Bytes>,
                            sha256: Bytes -> Kubeconfig.Digest)
    requires e1.Some? ==> |e1.value| == TokenEntropy
    requires e2.Some? ==> |e2.value| == TokenEntropy
    requires Reconcile(opts, s, req, e1, sha256).result.Ok?
    requires Call(Get, SecretKind, TokenSecretRef(opts, req.name)) !in s.failing
    requires opts.caSecretName != SecretNameFor(opts.secretPrefix, req.name)
    ensures var s1 := Reconcile(opts, s, req, e1, sha256).store;
            Reconcile(opts, s1, req, e2, sha256) == Step(Ok(()), s1)
  {
    var s1 := Reconcile(opts, s, req, e1, sha256).store;
    ReconcileKeepsVci(opts, s, req, e1, sha256);
    match GetVci(s, req)
    case Err(NotFound) =>
      assert Reconcile(opts, s1, req, e2, sha256) == CleanUp(opts, s1, req);
      CleanUpIdempotent(opts, s, req);
    case Err(_) =>
    case Ok(vci) =>
      if vci.phase == Some(ReadyPhase) {
        assert s1 == Publish(opts, s, req, e1, sha256).store;
        assert Reconcile(opts, s1, req, e2, sha256) == Publish(opts, s1, req, e2, sha256);
        PublishIdempotent(opts, s, req, e1, e2, sha256);
      }
  }

  /** With no failing call and a template that renders, delivery succeeds. */
  lemma DeliverSucceeds(opts: Options, s: Store, req: Ref, token: Bytes, sha256: Bytes -> Kubeconfig.Digest)
    requires s.failing == {}
    requires ServerTemplate.RenderServerUrl(opts.serverTemplate, ServerVars(opts, req)).Ok?
    ensures Deliver(opts, s, req, token, sha256).result.Ok?
  {
    assert ListNamespaces(s).Ok?;
  }

  /** Every pass succeeds when no call fails, fresh random bytes are at hand,
      the token secret is absent or has a data map, and the server template
      renders: whatever the VCI's state, the pass ends without error. */
  lemma ReconcileSucceeds(opts: Options, s: Store, req: Ref, entropy: Option<Bytes>, sha256: Bytes -> Kubeconfig.Digest)
    requires s.failing == {}
    requires entropy.Some? && |entropy.value| == TokenEntropy
    requires TokenSecretRef(opts, req.name) in s.secrets ==> s.secrets[TokenSecretRef(opts, req.name)].data.Some?
    requires ServerTemplate.RenderServerUrl(opts.serverTemplate, ServerVars(opts, req)).Ok?
    ensures Reconcile(opts, s, req, entropy, sha256).result.Ok?
  {
    if GetVci(s, req).Ok? && GetVci(s, req).value.phase == Some(ReadyPhase) {
      var e := EnsureAccessKeyAndToken(opts, s, req, entropy);
      EnsureSucceeds(opts, s, req, entropy);
      DeliverSucceeds(opts, e.store, req, e.result.value, sha256);
      assert Reconcile(opts, s, req, entropy, sha256) == Deliver(opts, e.store, req, e.result.value, sha256);
    }
  }

  /** A pass never changes what it reads the VCI from. */
  lemma ReconcileKeepsVci(opts: Options, s: Store, req: Ref, entropy: Option<Bytes>, sha256: Bytes -> Kubeconfig.Digest)
    requires entropy.Some? ==> |entropy.value| == TokenEntropy
    ensures GetVci(Reconcile(opts, s, req, entropy, sha256).store, req) == GetVci(s, req)
  {
    var s1 := Reconcile(opts, s, req, entropy, sha256).store;
    assert s1.vcis == s.vcis && s1.failing == s.failing;
  }

  lemma CleanUpIdempotent(opts: Options, s: Store, req: Ref)
    ensures var s1 := CleanUp(opts, s, req).store;
            CleanUp(opts, s1, req) == Step(Ok(()), s1)
  {
    var s1 := CleanUp(opts, s, req).store;
    var tok := TokenSecretRef(opts, req.name);
    if Call(List, SecretKind, AllObjects) !in s.failing {
      assert Call(Delete, SecretKind, tok) !in s.failing ==> tok !in s1.secrets;
      GcFixpoint(s1, req.namespace, req.name);
    }
    assert GcSecrets(s1, req.namespace, req.name).store == s1;
    assert Call(Delete, AccessKeyKind, Ref([], AccessKeyName(req.name))) !in s.failing ==> AccessKeyName(req.name) !in s1.accessKeys;
    assert DeleteAccessKeyOf(s1, req.name).store == s1;
    assert DeleteTokenSecret(opts, s1, req.name).store == s1;
  }

  /** Delivering the same token again right after a successful delivery
      writes nothing, provided the CA secret is not a kubeconfig secret. */
  lemma DeliverIdempotent(opts: Options, s: Store, req: Ref, token: Bytes, sha256: Bytes -> Kubeconfig.Digest)
    requires Deliver(opts, s, req, token, sha256).result.Ok?
    requires opts.caSecretName != SecretNameFor(opts.secretPrefix, req.name)
    ensures var s1 := Deliver(opts, s, req, token, sha256).store;
            Deliver(opts, s1, req, token, sha256) == Step(Ok(()), s1)
  {
    var server := ServerTemplate.RenderServerUrl(opts.serverTemplate, ServerVars(opts, req)).value;
    var doc := Kubeconfig.BuildKubeconfigBytes(server, req.name, token, CaBundle(opts, s), sha256);
    var nss := NamespaceResolver.Resolve(opts.fluxNamespacePatterns, ListNamespaces(s)).value;
    var u := UpsertAll(opts, s, req, nss, doc.0, doc.1);
    var s1 := u.store;
    assert Deliver(opts, s, req, token, sha256) == u;
    assert GetSecret(s1, CaRef(opts)) == GetSecret(s, CaRef(opts));
    assert CaBundle(opts, s1) == CaBundle(opts, s);
    assert ListNamespaces(s1) == ListNamespaces(s);
    UpsertAllRead(opts, s, req, nss, doc.0, doc.1);
    UpsertAllNoop(opts, s1, req, nss, doc.0, doc.1);
  }

  lemma PublishIdempotent(opts: Options, s: Store, req: Ref, e1: Option<Bytes>, e2: Option<Bytes>,
                          sha256: Bytes -> Kubeconfig.Digest)
    requires e1.Some? ==> |e1.value| == TokenEntropy
    requires e2.Some? ==> |e2.value| == TokenEntropy
    requires Publish(opts, s, req, e1, sha256).result.Ok?
    requires Call(Get, SecretKind, TokenSecretRef(opts, req.name)) !in s.failing
    requires opts.caSecretName != SecretNameFor(opts.secretPrefix, req.name)
    ensures var s1 := Publish(opts, s, req, e1, sha256).store;
            Publish(opts, s1, req, e2, sha256) == Step(Ok(()), s1)
  {
    var e := EnsureAccessKeyAndToken(opts, s, req, e1);
    var t := e.result.value;
    var d := Deliver(opts, e.store, req, t, sha256);
    assert Publish(opts, s, req, e1, sha256) == d;
    Naming.KubeconfigNameIsNotTokenName(opts.secretPrefix, req.name, req.name);
    assert GetSecret(d.store, TokenSecretRef(opts, req.name)) == GetSecret(e.store, TokenSecretRef(opts, req.name));
    assert StoredToken(opts, d.store, req.name) == Some(t);
    assert EnsureAccessKeyAndToken(opts, d.store, req, e2) == Step(Ok(t), d.store);
    DeliverIdempotent(opts, e.store, req, t, sha256);
  }

  /** Every kubeconfig secret a successful delivery wrote carries the VCI's
      identifying labels. */
  lemma DeliverLabels(opts: Options, s: Store, req: Ref, token: Bytes, sha256: Bytes -> Kubeconfig.Digest)
    ensures Labelled(req, s, Deliver(opts, s, req, token, sha256).store)
  {
    match ServerTemplate.RenderServerUrl(opts.serverTemplate, ServerVars(opts, req))
    case Err(_) =>
    case Ok(server) =>
      var doc := Kubeconfig.BuildKubeconfigBytes(server, req.name, token, CaBundle(opts, s), sha256);
      match NamespaceResolver.Resolve(opts.fluxNamespacePatterns, ListNamespaces(s))
      case Err(_) =>
      case Ok(nss) => UpsertAllLabels(opts, s, req, nss, doc.0, doc.1);
  }

  /** After a successful pass over a Ready VCI, deleting the VCI and running
      a pass whose list and delete calls go through removes every
      kubeconfig secret the first pass wrote, the AccessKey and the token
      secret. */
  lemma DeletionCollects(opts: Options, s: Store, req: Ref, entropy: Option<Bytes>, sha256: Bytes -> Kubeconfig.Digest,
                         ns: Bytes)
    requires entropy.Some? ==> |entropy.value| == TokenEntropy
    requires GetVci(s, req).Ok? && GetVci(s, req).value.phase == Some(ReadyPhase)
    requires Reconcile(opts, s, req, entropy, sha256).result.Ok?
    requires Call(Get, VciKind, req) !in s.failing && Call(List, SecretKind, AllObjects) !in s.failing
    requires forall ref :: Call(Delete, SecretKind, ref) !in s.failing
    requires Call(Delete, AccessKeyKind, Ref([], AccessKeyName(req.name))) !in s.failing
    ensures var s1 := Reconcile(opts, s, req, entropy, sha256).store;
            var ref := KubeconfigRef(opts, req, ns);
            var s2 := Reconcile(opts, s1.(vcis := s1.vcis - {req}), req, entropy, sha256).store;
            && (ref in s1.secrets && (ref !in s.secrets || s1.secrets[ref] != s.secrets[ref]) ==> ref !in s2.secrets)
            && AccessKeyName(req.name) !in s2.accessKeys
            && TokenSecretRef(opts, req.name) !in s2.secrets
  {
    var s1 := Reconcile(opts, s, req, entropy, sha256).store;
    var d := s1.(vcis := s1.vcis - {req});
    assert GetVci(d, req) == Err(NotFound);
    assert Reconcile(opts, d, req, entropy, sha256) == CleanUp(opts, d, req);
    ChangedKubeconfigSelected(opts, s, req, entropy, sha256, ns);
  }

  /** Every kubeconfig secret a Ready pass writes carries the labels the
      garbage collector selects on. */
  lemma ChangedKubeconfigSelected(opts: Options, s: Store, req: Ref, entropy: Option<Bytes>,
                                  sha256: Bytes -> Kubeconfig.Digest, ns: Bytes)
    requires entropy.Some? ==> |entropy.value| == TokenEntropy
    requires GetVci(s, req).Ok? && GetVci(s, req).value.phase == Some(ReadyPhase)
    ensures var s1 := Reconcile(opts, s, req, entropy, sha256).store;
            var ref := KubeconfigRef(opts, req, ns);
            ref in s1.secrets && (ref !in s.secrets || s1.secrets[ref] != s.secrets[ref]) ==>
              Selects(GcSelector(req.namespace, req.name), s1.secrets[ref].labels)
  {
    var e := EnsureAccessKeyAndToken(opts, s, req, entropy);
    var ref := KubeconfigRef(opts, req, ns);
    Naming.KubeconfigNameIsNotTokenName(opts.secretPrefix, req.name, req.name);
    assert ref in e.store.secrets ==> e.store.secrets[ref] == s.secrets[ref];
    if e.result.Ok? {
      assert Reconcile(opts, s, req, entropy, sha256) == Deliver(opts, e.store, req, e.result.value, sha256);
      DeliverLabels(opts, e.store, req, e.result.value, sha256);
      GcSelectorWithinDesiredLabels(req);
    } else {
      assert Reconcile(opts, s, req, entropy, sha256).store == e.store;
    }
  }
}
