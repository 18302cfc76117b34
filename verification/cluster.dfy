/** The Kubernetes API server as seen by the controller: an object store
    with get, list, create, update and delete. Every call answers ok,
    not-found, already-exists or another error. Not-found and
    already-exists follow from what is stored; any other error (network,
    permission, conflict) is injected by naming the call in `failing`.
    Every successful write bumps `writes`. */
module Cluster {
  import opened Text
  import opened Wrappers

  type Labels = map<Bytes, Bytes>

  /** A namespaced object name; cluster-scoped objects use the empty namespace. */
  datatype Ref = Ref(namespace: Bytes, name: Bytes)

  datatype Kind = VciKind | SecretKind | AccessKeyKind | NamespaceKind
  datatype Verb = Get | List | Create | Update | Delete
  datatype Call = Call(verb: Verb, kind: Kind, ref: Ref)

  /** The reference used for list calls, which name no object. */
  const AllObjects: Ref := Ref([], [])

  datatype ApiError = NotFound | AlreadyExists | Failed

  /** A VirtualClusterInstance; `phase` is `status.phase` when it is a string. */
  datatype Vci = Vci(labels: Labels, phase: Option<Bytes>)

  /** A core Secret; `data == None` is a nil data map. */
  datatype Secret = Secret(labels: Labels, annotations: Labels, secretType: Bytes, data: Option<map<Bytes, Bytes>>)

  datatype VcScope = VcScope(project: Bytes, virtualCluster: Bytes)

  datatype AccessKeySpec = AccessKeySpec(
    key: Bytes,
    keyType: Bytes,
    roles: seq<Bytes>,
    virtualClusters: seq<VcScope>,
    groups: seq<Bytes>)

  /** A storage.loft.sh AccessKey (cluster scoped). */
  datatype AccessKey = AccessKey(labels: Labels, spec: Option<AccessKeySpec>)

  datatype Store = Store(
    vcis: map<Ref, Vci>,
    secrets: map<Ref, Secret>,
    accessKeys: map<Bytes, AccessKey>,
    namespaces: seq<Bytes>,
    failing: set<Call>,
    writes: nat)

  /** The outcome of an operation together with the store it leaves behind. */
  datatype Step<+T, +E> = Step(result: Result<T, E>, store: Store)

  /** `secret.Data[key]`, which is empty when the map is nil or lacks the key. */
  function DataValue(sec: Secret, key: Bytes): Bytes {
    if sec.data.Some? && key in sec.data.value then sec.data.value[key] else []
  }

  /** `m[key]` for a Go string map: empty when absent. */
  function Lookup(m: Labels, key: Bytes): Bytes {
    if key in m then m[key] else []
  }

  /** Equality-based label selection (`labels.SelectorFromSet`). */
  predicate Selects(selector: Labels, labels: Labels) {
    forall k :: k in selector ==> k in labels && labels[k] == selector[k]
  }

  /** Every secret outside `touched` is as it was in `s`. */
  ghost predicate SecretsKept(s: Store, s': Store, touched: set<Ref>) {
    forall ref :: ref !in touched ==>
      (ref in s'.secrets <==> ref in s.secrets) && (ref in s.secrets ==> s'.secrets[ref] == s.secrets[ref])
  }

  /** Every AccessKey outside `touched` is as it was in `s`. */
  ghost predicate AccessKeysKept(s: Store, s': Store, touched: set<Bytes>) {
    forall n :: n !in touched ==>
      (n in s'.accessKeys <==> n in s.accessKeys) && (n in s.accessKeys ==> s'.accessKeys[n] == s.accessKeys[n])
  }

  // ---- reads ----

  function GetVci(s: Store, ref: Ref): Result<Vci, ApiError> {
    if Call(Get, VciKind, ref) in s.failing then Err(Failed)
    else if ref in s.vcis then Ok(s.vcis[ref])
    else Err(NotFound)
  }

  function GetSecret(s: Store, ref: Ref): Result<Secret, ApiError> {
    if Call(Get, SecretKind, ref) in s.failing then Err(Failed)
    else if ref in s.secrets then Ok(s.secrets[ref])
    else Err(NotFound)
  }

  function GetAccessKey(s: Store, name: Bytes): Result<AccessKey, ApiError> {
    if Call(Get, AccessKeyKind, Ref([], name)) in s.failing then Err(Failed)
    else if name in s.accessKeys then Ok(s.accessKeys[name])
    else Err(NotFound)
  }

  function ListNamespaces(s: Store): Result<seq<Bytes>, ApiError> {
    if Call(List, NamespaceKind, AllObjects) in s.failing then Err(Failed) else Ok(s.namespaces)
  }

  // ---- writes ----

  function CreateSecret(s: Store, ref: Ref, sec: Secret): Step<(), ApiError> {
    if Call(Create, SecretKind, ref) in s.failing then Step(Err(Failed), s)
    else if ref in s.secrets then Step(Err(AlreadyExists), s)
    else Step(Ok(()), s.(secrets := s.secrets[ref := sec], writes := s.writes + 1))
  }

  function UpdateSecret(s: Store, ref: Ref, sec: Secret): Step<(), ApiError> {
    if Call(Update, SecretKind, ref) in s.failing then Step(Err(Failed), s)
    else if ref !in s.secrets then Step(Err(NotFound), s)
    else Step(Ok(()), s.(secrets := s.secrets[ref := sec], writes := s.writes + 1))
  }

  function DeleteSecret(s: Store, ref: Ref): Step<(), ApiError> {
    if Call(Delete, SecretKind, ref) in s.failing then Step(Err(Failed), s)
    else if ref !in s.secrets then Step(Err(NotFound), s)
    else Step(Ok(()), s.(secrets := s.secrets - {ref}, writes := s.writes + 1))
  }

  function CreateAccessKey(s: Store, name: Bytes, ak: AccessKey): Step<(), ApiError> {
    if Call(Create, AccessKeyKind, Ref([], name)) in s.failing then Step(Err(Failed), s)
    else if name in s.accessKeys then Step(Err(AlreadyExists), s)
    else Step(Ok(()), s.(accessKeys := s.accessKeys[name := ak], writes := s.writes + 1))
  }

  function UpdateAccessKey(s: Store, name: Bytes, ak: AccessKey): Step<(), ApiError> {
    if Call(Update, AccessKeyKind, Ref([], name)) in s.failing then Step(Err(Failed), s)
    else if name !in s.accessKeys then Step(Err(NotFound), s)
    else Step(Ok(()), s.(accessKeys := s.accessKeys[name := ak], writes := s.writes + 1))
  }

  function DeleteAccessKey(s: Store, name: Bytes): Step<(), ApiError> {
    if Call(Delete, AccessKeyKind, Ref([], name)) in s.failing then Step(Err(Failed), s)
    else if name !in s.accessKeys then Step(Err(NotFound), s)
    else Step(Ok(()), s.(accessKeys := s.accessKeys - {name}, writes := s.writes + 1))
  }

  /** `client.IgnoreNotFound`. */
  function IgnoreNotFound(r: Result<(), ApiError>): Result<(), ApiError> {
    if r.Err? && r.error == NotFound then Ok(()) else r
  }
}
