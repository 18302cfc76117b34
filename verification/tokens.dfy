/** The token/AccessKey manager (`ensureAccessKeyAndToken`): reuses the token
    stored in the VCI's token secret, or mints one, writes it into the
    VCI's AccessKey and persists it in the token secret. */
module Tokens {
  import opened Text
  import opened Wrappers
  import opened Cluster
  import opened Config
  import opened Naming
  import opened Synchronizer
  import Base64

  datatype TokenError =
    | Api(error: ApiError)
      /** the random source failed */
    | NoEntropy
      /** the token secret was re-read with a nil data map; Go panics on the
          assignment into it, which the controller runtime reports as an error */
    | NilTokenData

  /** Bytes of entropy in a minted token. */
  const TokenEntropy: nat := 48

  /** `randomToken(48)`: the random bytes come from outside (`None` when the
      random source fails) and are encoded as unpadded URL-safe base64. */
  function MintToken(entropy: Option<Bytes>): (r: Result<Bytes, TokenError>)
    requires entropy.Some? ==> |entropy.value| == TokenEntropy
    ensures entropy.None? <==> r == Err(NoEntropy)
    ensures r.Ok? ==> |r.value| == 64 && Base64.Decode(Base64.UrlSafe, false, r.value) == entropy
  {
    match entropy
    case None => Err(NoEntropy)
    case Some(b) =>
      Base64.DecodeEncode(Base64.UrlSafe, false, b);
      Ok(Base64.RawUrlEncode(b))
  }

  /** The token a reconcile reuses: the non-empty `token` entry of a token
      secret that could be read. Any read error, not only not-found, counts
      as "no token". */
  function StoredToken(opts: Options, s: Store, vciName: Bytes): (t: Option<Bytes>)
    ensures t.Some? ==> t.value != []
    ensures forall x :: t == Some(x) <==>
      (var g := GetSecret(s, TokenSecretRef(opts, vciName));
       g.Ok? && g.value.data.Some? && TokenKey in g.value.data.value && g.value.data.value[TokenKey] == x && x != [])
  {
    match GetSecret(s, TokenSecretRef(opts, vciName))
    case Ok(sec) =>
      if sec.data.Some? && TokenKey in sec.data.value && |sec.data.value[TokenKey]| > 0
      then Some(sec.data.value[TokenKey]) else None
    case Err(_) => None
  }

  const AccessKeyTypeOther: Bytes := Lit("Other")
  const VclusterRole: Bytes := Lit("vcluster")
  const SystemVclustersGroup: Bytes := Lit("loft:system:vclusters")
  const VclusterGroupPrefix: Bytes := Lit("loft:vcluster:")

  /** The AccessKey spec for `vci`: the token, a `vcluster` role scoped to the
      VCI's project and virtual cluster, and the two groups. */
  function DesiredSpec(vci: Ref, token: Bytes): AccessKeySpec {
    AccessKeySpec(
      token,
      AccessKeyTypeOther,
      [VclusterRole],
      [VcScope(ProjectFromNamespace(vci.namespace), vci.name)],
      [VclusterGroupPrefix + vci.namespace + Lit(":") + vci.name, SystemVclustersGroup])
  }

  function AccessKeyLabels(vci: Ref): Labels {
    map[AkVclusterKey := TrueValue, AkInstanceNameKey := vci.name, AkInstanceNamespaceKey := vci.namespace]
  }

  /** Create the AccessKey, or overwrite the spec of the existing one and
      merge in the identifying labels. */
  function UpsertAccessKey(s: Store, vci: Ref, token: Bytes): (r: Step<(), ApiError>)
    // it succeeds exactly when the read goes through and so does the write it needs
    ensures r.result.Ok? <==>
      var name := AccessKeyName(vci.name);
      && Call(Get, AccessKeyKind, Ref([], name)) !in s.failing
      && (name !in s.accessKeys ==> Call(Create, AccessKeyKind, Ref([], name)) !in s.failing)
      && (name in s.accessKeys ==> Call(Update, AccessKeyKind, Ref([], name)) !in s.failing)
    ensures r.result.Err? ==> r.store == s
    ensures r.result.Ok? ==>
      var name := AccessKeyName(vci.name);
      && name in r.store.accessKeys
      && r.store.accessKeys[name].spec == Some(DesiredSpec(vci, token))
      && Selects(AccessKeyLabels(vci), r.store.accessKeys[name].labels)
      && (name in s.accessKeys ==>
            forall k :: k in s.accessKeys[name].labels && k !in AccessKeyLabels(vci) ==>
              k in r.store.accessKeys[name].labels && r.store.accessKeys[name].labels[k] == s.accessKeys[name].labels[k])
    ensures r.result.Ok? ==> r.store.writes == s.writes + 1
    ensures r.store == s.(accessKeys := r.store.accessKeys, writes := r.store.writes)
    ensures AccessKeysKept(s, r.store, {AccessKeyName(vci.name)})
  {
    var name := AccessKeyName(vci.name);
    match GetAccessKey(s, name)
    case Err(NotFound) => CreateAccessKey(s, name, AccessKey(AccessKeyLabels(vci), Some(DesiredSpec(vci, token))))
    case Err(e) => Step(Err(e), s)
    case Ok(ak) => UpdateAccessKey(s, name, AccessKey(ak.labels + AccessKeyLabels(vci), Some(DesiredSpec(vci, token))))
  }

  /** The `<namespace>/<name>` annotation value naming the VCI. */
  function VciRefValue(vci: Ref): Bytes {
    vci.namespace + Lit("/") + vci.name
  }

  /** Persist the token. When the secret already exists it is re-read and
      its token and annotation overwritten; if that re-read fails, nothing
      is written and the step still succeeds. */
  function PersistToken(opts: Options, s: Store, vci: Ref, token: Bytes): (r: Step<(), TokenError>)
    // it succeeds exactly when the create goes through, or the secret exists
    // and either the re-read fails or it has a data map and the update goes through
    ensures var ref := TokenSecretRef(opts, vci.name);
      r.result.Ok? <==>
        && Call(Create, SecretKind, ref) !in s.failing
        && (ref in s.secrets && Call(Get, SecretKind, ref) !in s.failing ==>
              s.secrets[ref].data.Some? && Call(Update, SecretKind, ref) !in s.failing)
    // an existing secret with a nil data map is an error, and nothing is written
    ensures var ref := TokenSecretRef(opts, vci.name);
      (Call(Create, SecretKind, ref) !in s.failing && ref in s.secrets && Call(Get, SecretKind, ref) !in s.failing
       && s.secrets[ref].data.None?) ==> r == Step(Err(NilTokenData), s)
    // a failed re-read of an existing secret is ignored: success with no write
    ensures var ref := TokenSecretRef(opts, vci.name);
      Call(Create, SecretKind, ref) !in s.failing && ref in s.secrets && Call(Get, SecretKind, ref) in s.failing
      ==> r == Step(Ok(()), s)
    ensures r.result.Err? ==> r.store == s
    ensures r.result.Ok? && Call(Get, SecretKind, TokenSecretRef(opts, vci.name)) !in s.failing ==>
      var ref := TokenSecretRef(opts, vci.name);
      ref in r.store.secrets && DataValue(r.store.secrets[ref], TokenKey) == token
    ensures r.store == s.(secrets := r.store.secrets, writes := r.store.writes)
    ensures r.store.writes <= s.writes + 1
    ensures SecretsKept(s, r.store, {TokenSecretRef(opts, vci.name)})
  {
    var ref := TokenSecretRef(opts, vci.name);
    var save := Secret(map[ManagedByKey := ManagedByValue], map[VciRefKey := VciRefValue(vci)], OpaqueType,
                       Some(map[TokenKey := token]));
    var c := CreateSecret(s, ref, save);
    match c.result
    case Ok(_) => Step(Ok(()), c.store)
    case Err(AlreadyExists) =>
      (match GetSecret(s, ref)
       case Ok(tokSec) =>
         if tokSec.data.None? then Step(Err(NilTokenData), s)
         else
           var u := UpdateSecret(s, ref, tokSec.(data := Some(tokSec.data.value[TokenKey := token]),
                                                 annotations := tokSec.annotations[VciRefKey := VciRefValue(vci)]));
           if u.result.Err? then Step(Err(Api(u.result.error)), s) else Step(Ok(()), u.store)
       case Err(_) => Step(Ok(()), s))
    case Err(e) => Step(Err(Api(e)), s)
  }

  /** `ensureAccessKeyAndToken`. */
  function EnsureAccessKeyAndToken(opts: Options, s: Store, vci: Ref, entropy: Option<Bytes>): (r: Step<Bytes, TokenError>)
    requires entropy.Some? ==> |entropy.value| == TokenEntropy
    // a stored token is returned unchanged, with no write at all
    ensures StoredToken(opts, s, vci.name).Some? ==> r == Step(Ok(StoredToken(opts, s, vci.name).value), s)
    // otherwise the token is freshly minted and lands in the AccessKey and,
    // unless reading the token secret fails, in the token secret
    ensures StoredToken(opts, s, vci.name).None? && r.result.Ok? ==>
      && Ok(r.result.value) == MintToken(entropy)
      && AccessKeyName(vci.name) in r.store.accessKeys
      && r.store.accessKeys[AccessKeyName(vci.name)].spec == Some(DesiredSpec(vci, r.result.value))
      && r.store.accessKeys[AccessKeyName(vci.name)].spec.value.key == r.result.value
      && Selects(AccessKeyLabels(vci), r.store.accessKeys[AccessKeyName(vci.name)].labels)
      && (Call(Get, SecretKind, TokenSecretRef(opts, vci.name)) !in s.failing ==>
            TokenSecretRef(opts, vci.name) in r.store.secrets
            && DataValue(r.store.secrets[TokenSecretRef(opts, vci.name)], TokenKey) == r.result.value)
    ensures StoredToken(opts, s, vci.name).None? && entropy.None? ==> r == Step(Err(NoEntropy), s)
    ensures r.result.Ok? ==> r.result.value != []
    // the token returned is the one the token secret now holds, when it can be read
    ensures r.result.Ok? && Call(Get, SecretKind, TokenSecretRef(opts, vci.name)) !in s.failing ==>
      StoredToken(opts, r.store, vci.name) == Some(r.result.value)
    // only the AccessKey and the token secret may change
    ensures r.store == s.(secrets := r.store.secrets, accessKeys := r.store.accessKeys, writes := r.store.writes)
    ensures SecretsKept(s, r.store, {TokenSecretRef(opts, vci.name)})
    ensures AccessKeysKept(s, r.store, {AccessKeyName(vci.name)})
  {
    match StoredToken(opts, s, vci.name)
    case Some(t) => Step(Ok(t), s)
    case None =>
      match MintToken(entropy)
      case Err(e) => Step(Err(e), s)
      case Ok(token) => InstallToken(opts, s, vci, token)
  }

  /** The minting branch after the token is drawn: the AccessKey first, then
      the token secret; the token is returned only when both steps succeed. */
  function InstallToken(opts: Options, s: Store, vci: Ref, token: Bytes): (r: Step<Bytes, TokenError>)
    requires token != []
    ensures r.result.Ok? ==>
      && r.result.value == token
      && AccessKeyName(vci.name) in r.store.accessKeys
      && r.store.accessKeys[AccessKeyName(vci.name)].spec == Some(DesiredSpec(vci, token))
      && Selects(AccessKeyLabels(vci), r.store.accessKeys[AccessKeyName(vci.name)].labels)
    ensures r.result.Ok? && Call(Get, SecretKind, TokenSecretRef(opts, vci.name)) !in s.failing ==>
      && TokenSecretRef(opts, vci.name) in r.store.secrets
      && DataValue(r.store.secrets[TokenSecretRef(opts, vci.name)], TokenKey) == token
      && StoredToken(opts, r.store, vci.name) == Some(token)
    ensures r.store == s.(secrets := r.store.secrets, accessKeys := r.store.accessKeys, writes := r.store.writes)
    ensures SecretsKept(s, r.store, {TokenSecretRef(opts, vci.name)})
    ensures AccessKeysKept(s, r.store, {AccessKeyName(vci.name)})
  {
    var ak := UpsertAccessKey(s, vci, token);
    if ak.result.Err? then Step(Err(Api(ak.result.error)), ak.store)
    else
      var p := PersistToken(opts, ak.store, vci, token);
      if p.result.Err? then Step(Err(p.result.error), p.store) else Step(Ok(token), p.store)
  }

  /** With no failing call, fresh random bytes and a token secret that is
      either absent or has a data map, the token step succeeds. */
  lemma EnsureSucceeds(opts: Options, s: Store, vci: Ref, entropy: Option<Bytes>)
    requires s.failing == {}
    requires entropy.Some? && |entropy.value| == TokenEntropy
    requires TokenSecretRef(opts, vci.name) in s.secrets ==> s.secrets[TokenSecretRef(opts, vci.name)].data.Some?
    ensures var e := EnsureAccessKeyAndToken(opts, s, vci, entropy);
            e.result.Ok? && e.store.failing == {}
  {
    if StoredToken(opts, s, vci.name).None? {
      var token := MintToken(entropy).value;
      var ak := UpsertAccessKey(s, vci, token);
      assert ak.result.Ok?;
      assert ak.store.secrets == s.secrets && ak.store.failing == {};
      assert PersistToken(opts, ak.store, vci, token).result.Ok?;
    }
  }

  /** Token stability: once a call has produced a token and the token secret
      can be read, every later call returns that same token with no write,
      whatever entropy it is given. */
  lemma TokenStable(opts: Options, s: Store, vci: Ref, e1: Option<Bytes>, e2: Option<Bytes>)
    requires e1.Some? ==> |e1.value| == TokenEntropy
    requires e2.Some? ==> |e2.value| == TokenEntropy
    requires EnsureAccessKeyAndToken(opts, s, vci, e1).result.Ok?
    requires Call(Get, SecretKind, TokenSecretRef(opts, vci.name)) !in s.failing
    ensures var r1 := EnsureAccessKeyAndToken(opts, s, vci, e1);
            EnsureAccessKeyAndToken(opts, r1.store, vci, e2) == Step(Ok(r1.result.value), r1.store)
  {
    var r1 := EnsureAccessKeyAndToken(opts, s, vci, e1);
    var ref := TokenSecretRef(opts, vci.name);
    if StoredToken(opts, s, vci.name).None? {
      assert ref in r1.store.secrets && DataValue(r1.store.secrets[ref], TokenKey) == r1.result.value;
      assert StoredToken(opts, r1.store, vci.name) == Some(r1.result.value);
    }
  }

  /** Every name is built from the VCI's name alone, so two VCIs with the same
      name in different namespaces share the AccessKey and the token secret:
      once the first has a readable token, the second is handed that token
      with no write, and an AccessKey minted for the first stays scoped to
      the first VCI's project and virtual cluster. */
  lemma SameNameSharesToken(opts: Options, s: Store, a: Ref, b: Ref, e1: Option<Bytes>, e2: Option<Bytes>)
    requires a.name == b.name && a.namespace != b.namespace
    requires e1.Some? ==> |e1.value| == TokenEntropy
    requires e2.Some? ==> |e2.value| == TokenEntropy
    requires EnsureAccessKeyAndToken(opts, s, a, e1).result.Ok?
    requires Call(Get, SecretKind, TokenSecretRef(opts, a.name)) !in s.failing
    ensures var r1 := EnsureAccessKeyAndToken(opts, s, a, e1);
            && EnsureAccessKeyAndToken(opts, r1.store, b, e2) == Step(Ok(r1.result.value), r1.store)
            && (StoredToken(opts, s, a.name).None? ==>
                  r1.store.accessKeys[AccessKeyName(b.name)].spec == Some(DesiredSpec(a, r1.result.value)))
  {
    TokenStable(opts, s, a, e1, e2);
    var r1 := EnsureAccessKeyAndToken(opts, s, a, e1);
    assert StoredToken(opts, r1.store, b.name) == Some(r1.result.value);
  }

  /** As written, a failed re-read after the create reported already-exists
      is ignored: the freshly minted token is returned although the token
      secret still holds what it held before (here: no token). */
  lemma UnpersistedTokenAfterFailedReread(opts: Options, vci: Ref, bytes: Bytes)
    requires |bytes| == TokenEntropy
    ensures var ref := TokenSecretRef(opts, vci.name);
            var before := Secret(map[], map[], OpaqueType, None);
            var s := Store(map[], map[ref := before], map[], [], {Call(Get, SecretKind, ref)}, 0);
            var r := EnsureAccessKeyAndToken(opts, s, vci, Some(bytes));
            && r.result == Ok(Base64.RawUrlEncode(bytes))
            && r.store.secrets[ref] == before
            && StoredToken(opts, r.store, vci.name).None?
  {
  }

  /** As written, a token secret that exists with a nil data map cannot be
      repaired: the re-read copy is written into through a nil map, which
      ends the call with an error after the AccessKey was already written. */
  lemma NilDataMapFails(opts: Options, vci: Ref, bytes: Bytes)
    requires |bytes| == TokenEntropy
    ensures var ref := TokenSecretRef(opts, vci.name);
            var s := Store(map[], map[ref := Secret(map[], map[], OpaqueType, None)], map[], [], {}, 0);
            var r := EnsureAccessKeyAndToken(opts, s, vci, Some(bytes));
            && r.result == Err(NilTokenData)
            && AccessKeyName(vci.name) in r.store.accessKeys
  {
  }

  /** As written, any failure to read the token secret counts as "no token":
      while that read keeps failing, every pass mints a different token and
      rewrites the AccessKey with it, so kubeconfigs handed out earlier stop
      matching the AccessKey. */
  lemma FailingTokenReadRemints(opts: Options, s: Store, vci: Ref, e1: Bytes, e2: Bytes)
    requires |e1| == TokenEntropy && |e2| == TokenEntropy && e1 != e2
    requires Call(Get, SecretKind, TokenSecretRef(opts, vci.name)) in s.failing
    requires EnsureAccessKeyAndToken(opts, s, vci, Some(e1)).result.Ok?
    ensures var r1 := EnsureAccessKeyAndToken(opts, s, vci, Some(e1));
            var r2 := EnsureAccessKeyAndToken(opts, r1.store, vci, Some(e2));
            r2.result.Ok? ==>
              && r2.result.value != r1.result.value
              && r2.store.accessKeys[AccessKeyName(vci.name)].spec.value.key == r2.result.value
  {
    var r1 := EnsureAccessKeyAndToken(opts, s, vci, Some(e1));
    assert StoredToken(opts, r1.store, vci.name).None?;
    var r2 := EnsureAccessKeyAndToken(opts, r1.store, vci, Some(e2));
    if r2.result.Ok? {
      assert Ok(r1.result.value) == MintToken(Some(e1));
      assert Ok(r2.result.value) == MintToken(Some(e2));
    }
  }
}
