/** Naming and labelling conventions: the names of the derived objects, the
    labels and annotations the controller writes, and the project a
    namespace belongs to. */
module Naming {
  import opened Text

  const KubeconfigSuffix: Bytes := Lit("-kubeconfig")
  const TokenSuffix: Bytes := Lit("-ak")
  const AccessKeyPrefix: Bytes := Lit("loft-vcluster-")

  /** Name of the kubeconfig secret of a VCI in each target namespace. */
  function SecretNameFor(prefix: Bytes, vciName: Bytes): (n: Bytes)
    ensures |n| == |prefix| + |vciName| + |KubeconfigSuffix|
  {
    prefix + vciName + KubeconfigSuffix
  }

  /** Name of the secret holding a VCI's token in the controller namespace. */
  function TokenSecretName(prefix: Bytes, vciName: Bytes): (n: Bytes)
    ensures |n| == |prefix| + |vciName| + |TokenSuffix|
  {
    prefix + vciName + TokenSuffix
  }

  /** Name of the (cluster-scoped) AccessKey of a VCI. */
  function AccessKeyName(vciName: Bytes): (n: Bytes)
    ensures |n| == |AccessKeyPrefix| + |vciName|
  {
    AccessKeyPrefix + vciName
  }

  /** Recovers the middle part of `prefix + x + suffix`. */
  lemma Unwrap(prefix: Bytes, x: Bytes, suffix: Bytes)
    ensures (prefix + x + suffix)[|prefix|..|prefix| + |x|] == x
  {
  }

  /** For a fixed prefix, distinct VCI names give distinct kubeconfig secret names. */
  lemma SecretNameInjective(prefix: Bytes, a: Bytes, b: Bytes)
    ensures SecretNameFor(prefix, a) == SecretNameFor(prefix, b) <==> a == b
  {
    if SecretNameFor(prefix, a) == SecretNameFor(prefix, b) {
      Unwrap(prefix, a, KubeconfigSuffix);
      Unwrap(prefix, b, KubeconfigSuffix);
    }
  }

  /** For a fixed prefix, distinct VCI names give distinct token secret names. */
  lemma TokenSecretNameInjective(prefix: Bytes, a: Bytes, b: Bytes)
    ensures TokenSecretName(prefix, a) == TokenSecretName(prefix, b) <==> a == b
  {
    if TokenSecretName(prefix, a) == TokenSecretName(prefix, b) {
      Unwrap(prefix, a, TokenSuffix);
      Unwrap(prefix, b, TokenSuffix);
    }
  }

  /** Distinct VCI names give distinct AccessKey names. */
  lemma AccessKeyNameInjective(a: Bytes, b: Bytes)
    ensures AccessKeyName(a) == AccessKeyName(b) <==> a == b
  {
    if AccessKeyName(a) == AccessKeyName(b) {
      Unwrap(AccessKeyPrefix, a, []);
      Unwrap(AccessKeyPrefix, b, []);
    }
  }

  /** A kubeconfig secret never has the name of a token secret (they end in
      `g` and `k` respectively), so publishing a kubeconfig into the
      controller namespace cannot overwrite any VCI's token. */
  lemma KubeconfigNameIsNotTokenName(prefix: Bytes, a: Bytes, b: Bytes)
    ensures SecretNameFor(prefix, a) != TokenSecretName(prefix, b)
  {
    var k := SecretNameFor(prefix, a);
    var t := TokenSecretName(prefix, b);
    assert k[|k| - 1] == KubeconfigSuffix[|KubeconfigSuffix| - 1];
    assert t[|t| - 1] == TokenSuffix[|TokenSuffix| - 1];
  }

  // ---- projects ----

  const ProjectNamespacePrefix: Bytes := Lit("p-")
  const DefaultProject: Bytes := Lit("default")

  /** The project of a VCI namespace: `p-<project>` names project
      `<project>`; any other namespace, and `p-` itself, belongs to
      `default`. */
  function ProjectFromNamespace(ns: Bytes): (p: Bytes)
    ensures p != []
    ensures |ns| > |ProjectNamespacePrefix| && ns[..2] == ProjectNamespacePrefix ==> ns == ProjectNamespacePrefix + p
    ensures !(|ns| > |ProjectNamespacePrefix| && ns[..2] == ProjectNamespacePrefix) ==> p == DefaultProject
  {
    if |ns| > 2 && ns[..2] == ProjectNamespacePrefix then ns[2..] else DefaultProject
  }

  /** The namespace of a project, by the same convention. */
  function ProjectNamespace(project: Bytes): Bytes {
    ProjectNamespacePrefix + project
  }

  /** Every non-empty project name is recovered from its namespace. */
  lemma ProjectRoundTrip(project: Bytes)
    requires project != []
    ensures ProjectFromNamespace(ProjectNamespace(project)) == project
  {
    assert ProjectNamespace(project)[..2] == ProjectNamespacePrefix;
  }

  /** The bare prefix `p-` is not a project namespace. */
  lemma BarePrefixIsDefault()
    ensures ProjectFromNamespace(ProjectNamespacePrefix) == DefaultProject
  {
  }

  // ---- labels and annotations ----

  const ManagedByKey: Bytes := Lit("app.kubernetes.io/managed-by")
  const ManagedByValue: Bytes := Lit("vcluster-platform-flux-secret-controller")
  const FluxKubeconfigKey: Bytes := Lit("fluxcd.io/kubeconfig")
  const TrueValue: Bytes := Lit("true")
  const VciNameKey: Bytes := Lit("vci.flux.loft.sh/name")
  const VciNamespaceKey: Bytes := Lit("vci.flux.loft.sh/namespace")
  const ChecksumKey: Bytes := Lit("vci.flux.loft.sh/kcfg-sha256")
  const VciRefKey: Bytes := Lit("vci.flux.loft.sh/vci")

  const AkVclusterKey: Bytes := Lit("loft.sh/vcluster")
  const AkInstanceNameKey: Bytes := Lit("loft.sh/vcluster-instance-name")
  const AkInstanceNamespaceKey: Bytes := Lit("loft.sh/vcluster-instance-namespace")

  /** The data key of the token in the token secret. */
  const TokenKey: Bytes := Lit("token")
  const OpaqueType: Bytes := Lit("Opaque")
  const ReadyPhase: Bytes := Lit("Ready")
}
