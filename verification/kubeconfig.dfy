/** The kubeconfig document the controller publishes (`buildKubeconfigBytes`):
    one cluster, one context and one user, all named after the VCI, written
    as JSON and fingerprinted with SHA-256. */
module Kubeconfig {
  import opened Text
  import opened Wrappers
  import Base64
  import Hex
  import Json

  datatype ClusterInfo = ClusterInfo(server: Bytes, certificateAuthorityData: Bytes, insecureSkipTlsVerify: bool)
  datatype NamedCluster = NamedCluster(name: Bytes, cluster: ClusterInfo)
  datatype ContextInfo = ContextInfo(cluster: Bytes, user: Bytes)
  datatype NamedContext = NamedContext(name: Bytes, context: ContextInfo)
  datatype NamedUser = NamedUser(name: Bytes, token: Bytes)

  /** The `Kubeconfig` struct. */
  datatype Config = Config(
    apiVersion: Bytes,
    kind: Bytes,
    clusters: seq<NamedCluster>,
    contexts: seq<NamedContext>,
    currentContext: Bytes,
    users: seq<NamedUser>)

  /** A SHA-256 digest. */
  type Digest = b: Bytes | |b| == 32 witness seq(32, i => 0)

  // JSON member names, from the struct tags
  const ApiVersionKey: Bytes := Lit("apiVersion")
  const KindKey: Bytes := Lit("kind")
  const ClustersKey: Bytes := Lit("clusters")
  const ContextsKey: Bytes := Lit("contexts")
  const CurrentContextKey: Bytes := Lit("current-context")
  const UsersKey: Bytes := Lit("users")
  const NameKey: Bytes := Lit("name")
  const ClusterKey: Bytes := Lit("cluster")
  const ServerKey: Bytes := Lit("server")
  const CaDataKey: Bytes := Lit("certificate-authority-data")
  const InsecureKey: Bytes := Lit("insecure-skip-tls-verify")
  const ContextKey: Bytes := Lit("context")
  const UserKey: Bytes := Lit("user")
  const TokenKey: Bytes := Lit("token")

  const ApiVersionV1: Bytes := Lit("v1")
  const ConfigKind: Bytes := Lit("Config")

  lemma OptionalKeysDiffer()
    ensures CaDataKey != InsecureKey
  {
    assert CaDataKey[0] != InsecureKey[0];
  }

  /** The configuration `buildKubeconfigBytes` assembles: the CA bundle, when
      there is one, travels base64-encoded; TLS verification is never
      switched off. */
  function Build(server: Bytes, name: Bytes, token: Bytes, caPem: Bytes): Config {
    var ca := if |caPem| > 0 then Base64.StdEncode(caPem) else [];
    Config(ApiVersionV1, ConfigKind,
           [NamedCluster(name, ClusterInfo(server, ca, false))],
           [NamedContext(name, ContextInfo(name, name))],
           name,
           [NamedUser(name, token)])
  }

  // ---- to and from JSON values, `omitempty` applied ----

  function ClusterInfoToJson(c: ClusterInfo): Json.Value {
    Json.JObject(
      [Json.Member(ServerKey, Json.JString(c.server))]
      + (if c.certificateAuthorityData == [] then []
         else [Json.Member(CaDataKey, Json.JString(c.certificateAuthorityData))])
      + (if !c.insecureSkipTlsVerify then [] else [Json.Member(InsecureKey, Json.JBool(true))]))
  }

  function NamedClusterToJson(c: NamedCluster): Json.Value {
    Json.JObject([Json.Member(NameKey, Json.JString(c.name)),
                  Json.Member(ClusterKey, ClusterInfoToJson(c.cluster))])
  }

  function NamedContextToJson(c: NamedContext): Json.Value {
    Json.JObject([Json.Member(NameKey, Json.JString(c.name)),
                  Json.Member(ContextKey, Json.JObject([Json.Member(ClusterKey, Json.JString(c.context.cluster)),
                                                        Json.Member(UserKey, Json.JString(c.context.user))]))])
  }

  function NamedUserToJson(u: NamedUser): Json.Value {
    Json.JObject([Json.Member(NameKey, Json.JString(u.name)),
                  Json.Member(UserKey, Json.JObject([Json.Member(TokenKey, Json.JString(u.token))]))])
  }

  function Map<T, U>(xs: seq<T>, f: T -> U): (ys: seq<U>)
    ensures |ys| == |xs| && forall i :: 0 <= i < |xs| ==> ys[i] == f(xs[i])
  {
    seq(|xs|, i requires 0 <= i < |xs| => f(xs[i]))
  }

  /** The JSON value `json.Marshal` writes for a configuration: members in
      struct-field order. */
  function ToJson(cfg: Config): Json.Value {
    Json.JObject([
      Json.Member(ApiVersionKey, Json.JString(cfg.apiVersion)),
      Json.Member(KindKey, Json.JString(cfg.kind)),
      Json.Member(ClustersKey, Json.JArray(Map(cfg.clusters, NamedClusterToJson))),
      Json.Member(ContextsKey, Json.JArray(Map(cfg.contexts, NamedContextToJson))),
      Json.Member(CurrentContextKey, Json.JString(cfg.currentContext)),
      Json.Member(UsersKey, Json.JArray(Map(cfg.users, NamedUserToJson)))])
  }

  /** The string member `key` at the head of `ms`. */
  function StringAt(ms: seq<Json.Member>, i: nat, key: Bytes): Option<Bytes> {
    if i < |ms| && ms[i].key == key && ms[i].value.JString? then Some(ms[i].value.str) else None
  }

  function ClusterInfoFromJson(v: Json.Value): Option<ClusterInfo> {
    if !v.JObject? then None
    else
      var ms := v.members;
      var server :- StringAt(ms, 0, ServerKey);
      var hasCa := StringAt(ms, 1, CaDataKey).Some?;
      var ca := StringAt(ms, 1, CaDataKey).GetOr([]);
      var next := if hasCa then 2 else 1;
      var insecure := next < |ms| && ms[next].key == InsecureKey && ms[next].value.JBool?;
      var end := if insecure then next + 1 else next;
      if end == |ms| then Some(ClusterInfo(server, ca, insecure && ms[next].value.b)) else None
  }

  function NamedClusterFromJson(v: Json.Value): Option<NamedCluster> {
    if !v.JObject? || |v.members| != 2 || v.members[1].key != ClusterKey then None
    else
      var name :- StringAt(v.members, 0, NameKey);
      var cluster :- ClusterInfoFromJson(v.members[1].value);
      Some(NamedCluster(name, cluster))
  }

  function NamedContextFromJson(v: Json.Value): Option<NamedContext> {
    if !v.JObject? || |v.members| != 2 || v.members[1].key != ContextKey || !v.members[1].value.JObject? then None
    else
      var name :- StringAt(v.members, 0, NameKey);
      var inner := v.members[1].value.members;
      if |inner| != 2 then None
      else
        var cluster :- StringAt(inner, 0, ClusterKey);
        var user :- StringAt(inner, 1, UserKey);
        Some(NamedContext(name, ContextInfo(cluster, user)))
  }

  function NamedUserFromJson(v: Json.Value): Option<NamedUser> {
    if !v.JObject? || |v.members| != 2 || v.members[1].key != UserKey || !v.members[1].value.JObject? then None
    else
      var name :- StringAt(v.members, 0, NameKey);
      var inner := v.members[1].value.members;
      if |inner| != 1 then None
      else
        var token :- StringAt(inner, 0, TokenKey);
        Some(NamedUser(name, token))
  }

  /** Every element of an array, decoded; `None` if one does not decode. */
  function ListFromJson<T>(items: seq<Json.Value>, decode: Json.Value -> Option<T>): Option<seq<T>> {
    if |items| == 0 then Some([])
    else
      var head :- decode(items[0]);
      var tail :- ListFromJson(items[1..], decode);
      Some([head] + tail)
  }

  function ArrayAt<T>(ms: seq<Json.Member>, i: nat, key: Bytes, decode: Json.Value -> Option<T>): Option<seq<T>> {
    if i < |ms| && ms[i].key == key && ms[i].value.JArray? then ListFromJson(ms[i].value.items, decode) else None
  }

  /** How a reader of the document recovers the configuration. */
  function FromJson(v: Json.Value): Option<Config> {
    if !v.JObject? || |v.members| != 6 then None
    else
      var ms := v.members;
      var apiVersion :- StringAt(ms, 0, ApiVersionKey);
      var kind :- StringAt(ms, 1, KindKey);
      var clusters :- ArrayAt(ms, 2, ClustersKey, NamedClusterFromJson);
      var contexts :- ArrayAt(ms, 3, ContextsKey, NamedContextFromJson);
      var currentContext :- StringAt(ms, 4, CurrentContextKey);
      var users :- ArrayAt(ms, 5, UsersKey, NamedUserFromJson);
      Some(Config(apiVersion, kind, clusters, contexts, currentContext, users))
  }

  /** The configuration a kubeconfig file holds, if it is one. */
  function Read(bytes: Bytes): Option<Config> {
    var v :- Json.Decode(bytes);
    FromJson(v)
  }

  // ---- what a client connects with ----

  function FindCluster(cs: seq<NamedCluster>, name: Bytes): Option<ClusterInfo> {
    if |cs| == 0 then None else if cs[0].name == name then Some(cs[0].cluster) else FindCluster(cs[1..], name)
  }

  function FindContext(cs: seq<NamedContext>, name: Bytes): Option<ContextInfo> {
    if |cs| == 0 then None else if cs[0].name == name then Some(cs[0].context) else FindContext(cs[1..], name)
  }

  function FindUser(us: seq<NamedUser>, name: Bytes): Option<Bytes> {
    if |us| == 0 then None else if us[0].name == name then Some(us[0].token) else FindUser(us[1..], name)
  }

  datatype Connection = Connection(server: Bytes, caPem: Bytes, token: Bytes)

  /** The server, CA bundle and bearer token a client uses: the current
      context names a cluster and a user, looked up by name. */
  function Connect(cfg: Config): Option<Connection> {
    var ctx :- FindContext(cfg.contexts, cfg.currentContext);
    var cluster :- FindCluster(cfg.clusters, ctx.cluster);
    var token :- FindUser(cfg.users, ctx.user);
    var ca :- if cluster.certificateAuthorityData == [] then Some([])
              else Base64.Decode(Base64.Standard, true, cluster.certificateAuthorityData);
    Some(Connection(cluster.server, ca, token))
  }

  /** `buildKubeconfigBytes`: the document and the lowercase hex SHA-256 of
      exactly those bytes. The error branch of `json.Marshal` cannot be taken
      for this struct, so there is none. */
  function BuildKubeconfigBytes(server: Bytes, name: Bytes, token: Bytes, caPem: Bytes, sha256: Bytes -> Digest)
    : (r: (Bytes, Bytes))
    ensures Read(r.0) == Some(Build(server, name, token, caPem))
    ensures Connect(Build(server, name, token, caPem)) == Some(Connection(server, caPem, token))
    ensures r.1 == Hex.Encode(sha256(r.0)) && |r.1| == 64
    ensures forall i :: 0 <= i < |r.1| ==> Hex.IsLowerHexDigit(r.1[i])
  {
    ReadBuilt(server, name, token, caPem);
    ConnectBuilt(server, name, token, caPem);
    var bytes := Json.Encode(ToJson(Build(server, name, token, caPem)));
    (bytes, Hex.Encode(sha256(bytes)))
  }

  // ---- proofs ----

  lemma ClusterInfoRoundTrip(c: ClusterInfo)
    ensures ClusterInfoFromJson(ClusterInfoToJson(c)) == Some(c)
  {
    OptionalKeysDiffer();
    var ms := ClusterInfoToJson(c).members;
    if c.certificateAuthorityData == [] {
      assert StringAt(ms, 1, CaDataKey).None?;
    }
  }

  lemma {:induction false} ListRoundTrip<T>(xs: seq<T>, encode: T -> Json.Value, decode: Json.Value -> Option<T>)
    requires forall x :: decode(encode(x)) == Some(x)
    ensures ListFromJson(Map(xs, encode), decode) == Some(xs)
    decreases |xs|
  {
    if |xs| > 0 {
      assert Map(xs, encode)[1..] == Map(xs[1..], encode);
      ListRoundTrip(xs[1..], encode, decode);
      assert [xs[0]] + xs[1..] == xs;
    }
  }

  /** Reading the JSON value of a configuration gives the configuration back. */
  lemma FromToJson(cfg: Config)
    ensures FromJson(ToJson(cfg)) == Some(cfg)
  {
    ClustersRoundTrip(cfg.clusters);
    ListRoundTrip(cfg.contexts, NamedContextToJson, NamedContextFromJson);
    ListRoundTrip(cfg.users, NamedUserToJson, NamedUserFromJson);
  }

  lemma ClustersRoundTrip(cs: seq<NamedCluster>)
    ensures ListFromJson(Map(cs, NamedClusterToJson), NamedClusterFromJson) == Some(cs)
  {
    forall c: NamedCluster ensures NamedClusterFromJson(NamedClusterToJson(c)) == Some(c) {
      ClusterInfoRoundTrip(c.cluster);
    }
    ListRoundTrip(cs, NamedClusterToJson, NamedClusterFromJson);
  }

  /** Reading the written document gives the configuration back. */
  lemma ReadWritten(cfg: Config)
    ensures Read(Json.Encode(ToJson(cfg))) == Some(cfg)
  {
    Json.DecodeEncode(ToJson(cfg));
    FromToJson(cfg);
  }

  lemma ReadBuilt(server: Bytes, name: Bytes, token: Bytes, caPem: Bytes)
    ensures Read(Json.Encode(ToJson(Build(server, name, token, caPem)))) == Some(Build(server, name, token, caPem))
  {
    ReadWritten(Build(server, name, token, caPem));
  }

  /** A client of the built configuration talks to `server`, trusts `caPem`
      and presents `token`. */
  lemma ConnectBuilt(server: Bytes, name: Bytes, token: Bytes, caPem: Bytes)
    ensures Connect(Build(server, name, token, caPem)) == Some(Connection(server, caPem, token))
  {
    if |caPem| > 0 {
      Base64.DecodeEncode(Base64.Standard, true, caPem);
      assert Base64.StdEncode(caPem) != [] by {
        assert |Base64.StdEncode(caPem)| == |Base64.Encode(Base64.Standard, true, caPem)|;
      }
    }
  }

  /** Different inputs give different documents, so the checksum annotation
      moves only when the bytes do. */
  lemma DocumentDeterminesInputs(server: Bytes, name: Bytes, token: Bytes, caPem: Bytes,
                                 server': Bytes, name': Bytes, token': Bytes, caPem': Bytes,
                                 sha256: Bytes -> Digest)
    requires BuildKubeconfigBytes(server, name, token, caPem, sha256).0
          == BuildKubeconfigBytes(server', name', token', caPem', sha256).0
    ensures server == server' && name == name' && token == token' && caPem == caPem'
  {
    var c := Build(server, name, token, caPem);
    var c' := Build(server', name', token', caPem');
    assert Some(c) == Some(c');
    ConnectBuilt(server, name, token, caPem);
    ConnectBuilt(server', name', token', caPem');
  }

  /** The shape of the written cluster entry: the CA member is present exactly
      when a CA bundle was found, and `insecure-skip-tls-verify` never is. */
  lemma ClusterEntryShape(server: Bytes, name: Bytes, token: Bytes, caPem: Bytes)
    ensures var cluster := ClusterInfoToJson(Build(server, name, token, caPem).clusters[0].cluster);
      && (|caPem| > 0 <==> exists i :: 0 <= i < |cluster.members| && cluster.members[i].key == CaDataKey)
      && (|caPem| > 0 ==> cluster.members[1] == Json.Member(CaDataKey, Json.JString(Base64.StdEncode(caPem))))
      && forall i :: 0 <= i < |cluster.members| ==> cluster.members[i].key != InsecureKey
  {
    OptionalKeysDiffer();
    var cluster := ClusterInfoToJson(Build(server, name, token, caPem).clusters[0].cluster);
    assert ServerKey[0] != CaDataKey[0] && ServerKey[0] != InsecureKey[0];
    if |caPem| > 0 {
      assert |Base64.StdEncode(caPem)| == |Base64.Encode(Base64.Standard, true, caPem)|;
      assert cluster.members[1].key == CaDataKey;
    }
  }
}
