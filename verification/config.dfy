/** The controller's configuration (`Options`), fixed at start-up. */
module Config {
  import opened Text

  datatype Options = Options(
    labelSelector: Bytes,
    secretKey: Bytes,
    secretPrefix: Bytes,
    loftDomain: Bytes,
    serverTemplate: Bytes,
    caSecretNamespace: Bytes,
    caSecretName: Bytes,
    caSecretKey: Bytes,
    fluxNamespacePatterns: seq<Bytes>,
    controllerNamespace: Bytes)
}
