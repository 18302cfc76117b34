# vcluster-platform flux-secret controller — a Dafny model

The controller watches vCluster Platform `VirtualClusterInstance` objects
(VCIs). For each Ready VCI it does the following:

- it makes sure an `AccessKey` exists and holds a bearer token;
- it keeps that token in a token secret in the controller's namespace;
- it renders the VCI's API server URL from a template;
- it builds a JSON kubeconfig for the server URL, token and optional CA bundle;
- it writes the kubeconfig, together with its SHA-256 checksum, into a secret
  in every Flux namespace that the configured exact names and globs resolve to.

When a VCI is deleted, the controller garbage-collects those secrets, the
AccessKey and the token secret.

The model is functional. The API server is a `Cluster.Store`:

- one map per object kind;
- the namespace listing;
- a static set of API calls that fail with an error other than not-found or
  already-exists;
- a counter of successful writes.

Every operation takes a store and returns a `Step`, which holds a result and
the store the operation leaves behind. Three things come from outside the
model:

- the SHA-256 function, passed as `sha256`;
- the 48 random token bytes, passed as `entropy` (`None` when the random
  source fails);
- the label-selector parser, passed as `parse`.

Go strings and byte slices are both `seq<uint8>`.

Modules, following the source:

- `Naming`: the derived names, the project of a namespace, and the label and
  annotation keys.
- `Glob` and `NamespaceResolver`: `resolveFluxNamespaces`.
- `ServerTemplate`: `renderServerURL`, for literal text and `{{ .Field }}`
  actions.
- `Kubeconfig`: the document, `buildKubeconfigBytes`, and the client's view of
  a document.
- `Json`, `Base64`, `Hex`: the encoders the document relies on, each with its
  decoder.
- `Synchronizer`: `upsertFluxSecretInNS`, `gcAllFluxSecretsForVCI`,
  `deleteAccessKey`, `deleteTokenSecret`.
- `Tokens`: `randomToken` and `ensureAccessKeyAndToken`.
- `Reconciler`: `Reconcile`.
- `EventFilter`: the selector predicate given to the controller builder.

## Model

| member | source | states |
|---|---|---|
| Naming.SecretNameInjective | internal/controller/reconciler.go:349-351 | for a fixed prefix, two VCI names give the same kubeconfig secret name exactly when they are equal |
| Naming.TokenSecretNameInjective | internal/controller/reconciler.go:353-355 | for a fixed prefix, the token secret name determines the VCI name and is determined by it |
| Naming.AccessKeyNameInjective | internal/controller/reconciler.go:357-359 | the AccessKey name determines the VCI name and is determined by it |
| Naming.KubeconfigNameIsNotTokenName | internal/controller/reconciler.go:349-355 | no kubeconfig secret name equals a token secret name under the same prefix, so a kubeconfig upsert never overwrites a token secret |
| Naming.ProjectFromNamespace | internal/controller/reconciler.go:362-368 | a namespace longer than two bytes that starts with `p-` is `p-` followed by its project; any other namespace belongs to `default`; the project is never empty |
| Naming.ProjectRoundTrip | internal/controller/reconciler.go:362-368 | every non-empty project is recovered from the namespace `p-<project>` |
| Naming.BarePrefixIsDefault | internal/controller/reconciler.go:364 | the namespace `p-` itself belongs to `default` |
| EventFilter.NilNeverAdmitted | internal/controller/reconciler.go:67-69 | a nil object is never admitted, whatever the selector |
| EventFilter.EmptySelectorAdmits | internal/controller/reconciler.go:70-72 | an empty selector admits every object, without consulting the parser |
| EventFilter.FailOpen | internal/controller/reconciler.go:72-75 | a selector that does not parse lets every non-nil object through |
| EventFilter.ParsedSelectorDecides | internal/controller/reconciler.go:69-77 | with a non-empty selector that parses, admission is exactly label matching |
| EventFilter.EqualitySelector | internal/controller/reconciler.go:210-215 | a selector built from a label map with one equality requirement per entry matches exactly the label sets that contain the map |
| NamespaceResolver.EffectivePatterns | internal/controller/ns_match.go:13-16 | with no patterns configured, the only pattern is `flux-system`; otherwise the configured list is used |
| NamespaceResolver.SeenIsFirstOccurrences | internal/controller/ns_match.go:17-35 | the pattern loop keeps exactly the first occurrence of every trimmed, non-empty pattern: the kept patterns are distinct and none is lost |
| NamespaceResolver.Exacts | internal/controller/ns_match.go:30-34 | the exact list holds exactly the kept patterns that are not globs, without repetitions |
| NamespaceResolver.Matched | internal/controller/ns_match.go:44-54 | the matched list holds exactly the listed names that some kept pattern matches |
| NamespaceResolver.Resolve | internal/controller/ns_match.go:12-63 | the result has no duplicates; without a glob it is the exact list; with a glob a listing error is returned, and otherwise a name is a target exactly when it is an exact pattern or a listed name matched by a pattern |
| NamespaceResolver.NoGlobNoListing | internal/controller/ns_match.go:36-38 | without a glob the listing is never consulted: the result is the same for any listing and never an error |
| NamespaceResolver.ExactsPassThrough | internal/controller/ns_match.go:55-57 | every exact pattern is a target, whether or not such a namespace exists |
| NamespaceResolver.GlobMatchesAreListed | internal/controller/ns_match.go:45-54 | a target that is not an exact pattern was listed and is matched by a pattern |
| NamespaceResolver.DefaultTarget | internal/controller/ns_match.go:14-16 | with no patterns configured the only target is `flux-system` |
| Seqs.Dedup | internal/controller/ns_match.go:58-61 | de-duplication keeps every element, repeats none and never grows the sequence |
| Glob.LiteralMatch | internal/controller/ns_match.go:48 | a pattern without `*` or `?` matches exactly the name equal to it |
| Glob.StarMatch | internal/controller/ns_match.go:48 | a lone `*` matches exactly the names without a `/` |
| Glob.QuestionMatch | internal/controller/ns_match.go:48 | a lone `?` matches exactly the one-byte names other than `/`, which on the ASCII names namespaces may have is one character |
| ServerTemplate.RenderPrinted | internal/controller/kubeconfig.go:46-56 | a template of literal text and `{{ .Domain }}`, `{{ .Project }}`, `{{ .Namespace }}`, `{{ .Name }}` actions renders to the text with each variable replaced by its value |
| ServerTemplate.NoActionRendersItself | internal/controller/kubeconfig.go:46-56 | a template without `{{` renders to itself |
| ServerTemplate.UnclosedIsError | internal/controller/kubeconfig.go:47-50 | a template with a `{{` that is never closed gives an error and no URL |
| Base64.DecodeEncode | internal/controller/kubeconfig.go:80 | decoding the RFC 4648 encoding, standard padded or URL-safe unpadded, gives the data back |
| Base64.EncodeInjective | internal/controller/reconciler.go:189 | two byte strings have the same base64 text exactly when they are equal, so the drift test compares the bytes themselves |
| Base64.Encode | internal/controller/reconciler.go:341-347 | padded output is 4·⌈n/3⌉ bytes and unpadded output is ⌈4n/3⌉ bytes, so 48 random bytes give a 64-byte token |
| Hex.DecodeEncode | internal/controller/kubeconfig.go:119-120 | the lowercase hex text of a byte string decodes back to it |
| Hex.EncodeInjective | internal/controller/kubeconfig.go:119-120 | two digests have the same hex text exactly when they are equal |
| Json.EscapeByte | internal/controller/kubeconfig.go:115 | a byte is copied unescaped exactly when it is at least 0x20 and not one of `"`, `\`, `<`, `>`, `&` (so DEL and every byte from 0x80 up are copied) |
| Json.StringRoundTrip | internal/controller/kubeconfig.go:115 | unescaping the escaped form of any byte string gives it back |
| Json.ValueRoundTrip | internal/controller/kubeconfig.go:115 | decoding the encoding of any JSON value, followed by any suffix, gives the value and the untouched suffix |
| Json.DecodeEncode | internal/controller/kubeconfig.go:115 | decoding the encoding of any JSON value gives the value back |
| Json.EncodeInjective | internal/controller/kubeconfig.go:115 | two JSON values have the same encoding exactly when they are equal |
| Kubeconfig.FromToJson | internal/controller/kubeconfig.go:19-44 | reading a configuration back from its JSON value, with empty optional fields omitted, gives the configuration |
| Kubeconfig.ReadWritten | internal/controller/kubeconfig.go:19-44 | reading the bytes written for any configuration gives that configuration |
| Kubeconfig.ConnectBuilt | internal/controller/kubeconfig.go:58-112 | a client of the built configuration follows the current context to a server equal to the URL, the given CA bundle and the given token |
| Kubeconfig.BuildKubeconfigBytes | internal/controller/kubeconfig.go:58-121 | the document reads back as the single-cluster, single-context, single-user configuration; a client of it gets the server, CA bundle and token; the checksum is the 64 lowercase hex digits of SHA-256 over exactly those bytes |
| Kubeconfig.DocumentDeterminesInputs | internal/controller/kubeconfig.go:58-121 | different server, name, token or CA bundle give different documents |
| Kubeconfig.ClusterEntryShape | internal/controller/kubeconfig.go:26-27 | the cluster entry carries `certificate-authority-data` exactly when the CA bundle is non-empty, with its standard base64 text, and never carries `insecure-skip-tls-verify` |
| Synchronizer.Changed | internal/controller/reconciler.go:189-190 | the drift test fires exactly when the stored bytes under the key or the stored checksum differ from the desired ones |
| Synchronizer.Upsert | internal/controller/reconciler.go:156-206 | it succeeds exactly when the read goes through and, for an absent secret, the create, and for a drifted one, the update; a failure implies one of its calls on the secret is failing; a read error other than not-found is returned with no write; success leaves the bytes and checksum current; a write happens exactly when they were not current; a write stores exactly the desired data, all identifying labels and the checksum, keeping unrelated labels and annotations; no other secret changes |
| Synchronizer.UpsertIdempotent | internal/controller/reconciler.go:189-205 | a second upsert with the same inputs writes nothing |
| Synchronizer.GcSelectorWithinDesiredLabels | internal/controller/reconciler.go:161-166 | the labels GC selects on are among the labels upsert writes |
| Synchronizer.CurrentSecretIsNotRelabelled | internal/controller/reconciler.go:189-205 | a secret that already holds the current bytes and checksum keeps its labels, even when the identifying labels are missing |
| Synchronizer.GcSecrets | internal/controller/reconciler.go:208-222 | a failing list is returned with no write; otherwise a secret survives exactly when it is not selected or cannot be deleted; survivors are unchanged and each deletion counts one write |
| Synchronizer.GcIdempotent | internal/controller/reconciler.go:208-222 | a second GC deletes nothing |
| Synchronizer.GcFixpoint | internal/controller/reconciler.go:208-222 | GC leaves the store unchanged once every secret it selects is one whose delete fails |
| Synchronizer.GcRemovesUpserted | internal/controller/reconciler.go:161-222 | a secret written by upsert is removed by the GC of the same VCI when the list and the delete go through |
| Synchronizer.DeleteAccessKeyOf | internal/controller/reconciler.go:224-229 | the delete succeeds exactly when the call does not fail, not-found included, and the AccessKey is then gone; nothing else changes |
| Synchronizer.DeleteTokenSecret | internal/controller/reconciler.go:231-238 | the delete succeeds exactly when the call does not fail, not-found included, and the token secret is then gone; nothing else changes |
| Synchronizer.DeletesIdempotent | internal/controller/reconciler.go:224-238 | repeating either delete succeeds and changes nothing |
| Tokens.MintToken | internal/controller/reconciler.go:341-347 | a failing random source is an error; otherwise the token is 64 bytes whose unpadded URL-safe base64 decoding is the random bytes |
| Tokens.StoredToken | internal/controller/reconciler.go:242-248 | the reused token is `x` exactly when the token secret can be read, has a data map whose `token` entry is `x`, and `x` is non-empty; any read error gives no token |
| Tokens.UpsertAccessKey | internal/controller/reconciler.go:256-304 | it succeeds exactly when the read goes through and so does the create (absent key) or the update (existing key); on success the AccessKey holds the desired spec and carries the three identifying labels, keeping other labels; an error leaves the store as it was; no other AccessKey changes |
| Tokens.PersistToken | internal/controller/reconciler.go:306-336 | it succeeds exactly when the create goes through and, for an existing secret that can be re-read, the secret has a data map and the update goes through; an existing secret with a nil data map gives NilTokenData with no write; a failed re-read of an existing secret gives success with no write; on success with a readable token secret, the secret's `token` entry is the token; an error leaves the store as it was; no other secret changes |
| Tokens.EnsureSucceeds | internal/controller/reconciler.go:240-339 | with no failing call, fresh random bytes and a token secret that is absent or has a data map, the token step succeeds and leaves no call failing |
| Tokens.EnsureAccessKeyAndToken | internal/controller/reconciler.go:240-339 | a stored non-empty token is returned with no write; otherwise the token is freshly minted and is the AccessKey's `spec.key` and, when the token secret can be read, the token secret's `token`; only the AccessKey and the token secret change |
| Tokens.InstallToken | internal/controller/reconciler.go:252-338 | a minted token is returned only when both the AccessKey and the token secret steps succeed; it is then the AccessKey's `spec.key` and, when the token secret can be read, the token a later call reuses; only the AccessKey and the token secret change |
| Tokens.SameNameSharesToken | internal/controller/reconciler.go:240-262 | two VCIs with the same name in different namespaces share the token: once the first has a readable token, the second gets it with no write, and an AccessKey minted for the first stays scoped to the first VCI's project |
| Tokens.TokenStable | internal/controller/reconciler.go:244-248 | once a call has produced a token and the token secret is readable, every later call returns the same token with no write, whatever random bytes it gets |
| Tokens.UnpersistedTokenAfterFailedReread | internal/controller/reconciler.go:321-336 | when the create reports already-exists and the re-read fails, the new token is returned although the token secret does not hold it |
| Tokens.NilDataMapFails | internal/controller/reconciler.go:323-324 | a token secret with a nil data map cannot be repaired: the call ends in an error after the AccessKey was already written |
| Tokens.FailingTokenReadRemints | internal/controller/reconciler.go:243-251 | while reading the token secret fails, each call mints a different token and rewrites the AccessKey with it |
| Reconciler.CaBundle | internal/controller/reconciler.go:126-132 | the CA bundle is empty unless both coordinates are set and the read succeeds; then it is the value under the configured key |
| Reconciler.UpsertAll | internal/controller/reconciler.go:144-148 | namespaces are upserted in order until the first failure; on success all are published; on failure the error names a namespace where a call of its upsert is failing, earlier ones are published and later ones untouched; when no call of any target's upsert is failing the loop succeeds; no other secret changes |
| Reconciler.UpsertAllRead | internal/controller/reconciler.go:144-148 | a loop that succeeded read every secret it visited without error |
| Reconciler.UpsertAllNoop | internal/controller/reconciler.go:144-148 | when every secret is readable and already current, the loop succeeds with no write |
| Reconciler.UpsertAllLabels | internal/controller/reconciler.go:144-148 | every secret the loop wrote carries the identifying labels |
| Reconciler.DeliverSucceeds | internal/controller/reconciler.go:113-148 | with no failing call and a template that renders, delivery succeeds |
| Reconciler.ReconcileSucceeds | internal/controller/reconciler.go:85-152 | with no failing call, fresh random bytes, a token secret that is absent or has a data map, and a template that renders, every pass succeeds |
| Reconciler.Reconcile | internal/controller/reconciler.go:85-152 | a read error other than not-found is returned with no write; a deleted VCI ends in success; a VCI that is not Ready is left alone with no write; VCIs and namespaces are never written |
| Reconciler.CleanUp | internal/controller/reconciler.go:91-98 | GC, AccessKey deletion and token-secret deletion run in turn and every error is swallowed; what each could delete is gone, the survivors are unchanged, and every secret the GC selector does not pick other than the token secret survives, as does every other VCI's AccessKey |
| Reconciler.ReconcilePublishes | internal/controller/reconciler.go:108-152 | after a successful pass over a Ready VCI, every resolved namespace holds a kubeconfig that connects to the rendered server with the CA bundle and this pass's token, and whose checksum is that of its own bytes; the token is the stored one when there was one, and otherwise the AccessKey's key |
| Reconciler.Deliver | internal/controller/reconciler.go:113-148 | rendering, the CA read, the build, the namespace resolution and the upsert loop write only kubeconfig secrets of the VCI: every secret with another name is unchanged, and VCIs, AccessKeys and namespaces are untouched; a template failure ends the pass with RenderFailed and a namespace-listing failure with ResolveFailed, both with no write; any other failure is an upsert failure in one of the resolved namespaces, on a call that is failing |
| Reconciler.Publish | internal/controller/reconciler.go:108-148 | a token failure ends the pass with EnsureFailed and only the token step's writes; after a token is obtained, a template or namespace-listing failure ends the pass with RenderFailed or ResolveFailed and no kubeconfig written; only the VCI's kubeconfig secrets, its token secret and its AccessKey can change; VCIs and namespaces are never written |
| Reconciler.DeliverPublishes | internal/controller/reconciler.go:113-148 | after a successful delivery every resolved namespace holds a kubeconfig that connects to the rendered server with the CA bundle and the given token, and whose checksum is that of its own bytes |
| Reconciler.DeliverIdempotent | internal/controller/reconciler.go:113-148 | delivering the same token again right after a successful delivery writes nothing, provided the CA secret does not have the kubeconfig secret's name |
| Reconciler.PublishIdempotent | internal/controller/reconciler.go:108-148 | a second Ready pass right after a successful one writes nothing, whatever random bytes it gets, provided the token secret can be read and the CA secret does not have the kubeconfig secret's name |
| Reconciler.ReconcileIdempotent | internal/controller/reconciler.go:85-152 | a second pass right after a successful one writes nothing, whatever random bytes it gets, provided the token secret can be read and the CA secret does not have the kubeconfig secret's name |
| Reconciler.CleanUpIdempotent | internal/controller/reconciler.go:91-98 | cleaning up a deleted VCI a second time writes nothing |
| Reconciler.DeliverLabels | internal/controller/reconciler.go:113-148 | every secret that rendering, building and the upsert loop create or change carries the identifying labels of the VCI |
| Reconciler.ChangedKubeconfigSelected | internal/controller/reconciler.go:108-148 | every kubeconfig secret a Ready pass creates or changes is selected by the GC of the same VCI |
| Reconciler.DeletionCollects | internal/controller/reconciler.go:91-98 | after a successful Ready pass, deleting the VCI and running a pass whose list and deletes go through removes every kubeconfig secret the first pass wrote, the AccessKey and the token secret |

## Left out

- Logging, metrics, context cancellation, manager wiring and the controller
  registration beyond the event filter are outside the reconcile logic.
  Concurrency between reconciles is also out, as is optimistic-concurrency
  conflict detection: every API call answers ok, not-found, already-exists or
  another error, and the model decides which from the store.
- Two simplifications of the store:
  - The store does not check that a secret's namespace exists. Creating a
    kubeconfig secret in an exact-named namespace that does not exist
    succeeds here (`NamespaceResolver.ExactsPassThrough` lets such names
    through). The API server answers not-found, and the pass then aborts at
    reconciler.go:146. The model shows that outcome only when the failure
    is injected for that call.
  - Failures are keyed by call target and persist for the whole step. A
    token-secret read that fails at reconciler.go:244 also fails at the
    re-read at reconciler.go:323. A transient failure that clears between
    the two reads cannot be represented.
- `cmd/manager/main.go` and `internal/util/unstr.go` are not part of this
  model. The first is flag parsing and start-up. The second is a one-line
  wrapper for reading `status.phase`, which appears here as `Vci.phase`.
- `labels.Parse` is a parameter. The label-selector syntax is not modelled.
  Only the fail-open decision and matching of parsed requirements are modelled.
  `EventFilter.Operator` has no `GreaterThan` or `LessThan`. `labels.Parse`
  accepts these (`replicas>2`), so a selector using them cannot be
  represented by the `parse` parameter.
- SHA-256 is a parameter.
- `crypto/rand` is a parameter: the 48 bytes it gives, or its failure.
- Go's `text/template` is modelled only for literal text and actions that
  reference a single field. Every other action is an error here:
  - comments;
  - pipelines;
  - `{{-` trim markers;
  - other delimiters.
- `ServerTemplate.RenderServerUrl`: its own contract only relates it to the
  parser and executor. What rendering means is stated by `RenderPrinted`,
  `NoActionRendersItself` and `UnclosedIsError`.
- `Glob.QuestionMatch`: `?` consumes one byte here. Go's `filepath.Match`
  consumes one UTF-8 character, so `?` matches `é` (two bytes) in Go but not
  here. Kubernetes namespace names are ASCII DNS labels, so the listed names
  never show the difference.
- `filepath.Match` is modelled for `*`, `?` and literal bytes:
  - `[`, `]` and `\` are taken literally. Go reads them as character classes
    and escapes, and reports a malformed class as a non-match.
  - Patterns using classes or escapes therefore match differently here.
  - An escaped pattern such as `team\-*` matches `team-a` in Go but matches
    nothing here. `filepath.Match` is applied to every seen pattern once some
    pattern is a glob, so with a glob configured the exact pattern
    `flux\-system` also matches the listed `flux-system` in Go; here it
    does not.
- `NamespaceResolver.SeenIsFirstOccurrences` trims ASCII white space only
  (tab, newline, vertical tab, form feed, carriage return, space).
  `strings.TrimSpace` also strips Unicode white space such as U+0085, U+00A0,
  U+2000 to U+200A and U+3000. A pattern `"\xc2\xa0flux-system"` resolves to
  `flux-system` in Go. Here it stays an untrimmed exact name, so the model
  targets a namespace whose name starts with those two bytes, where Go
  targets `flux-system`.
- `ServerTemplate.Parse` trims template actions with the same ASCII set.
  Go's template lexer accepts only space, tab, carriage return and newline
  inside an action. It rejects a vertical tab or form feed as an
  unrecognised character, but the model trims them away.
- `Tokens.SameNameSharesToken`: like the code, the model identifies a VCI's
  AccessKey, token secret and kubeconfig secrets by the VCI's name alone
  (reconciler.go:243, 259, 157). VCIs with the same name in different
  namespaces, such as `p-a/app` and `p-b/app`, therefore share one AccessKey
  and one token. The model does not keep such VCIs apart; the lemma states
  the sharing.
- Go returns the globbed namespaces in map-iteration order, which is random.
  The model returns the matched names in listing order, followed by the
  exact names not already included. The contracts speak only of membership
  and absence of duplicates.
- JSON: the decoder reads only the compact form that `json.Marshal` writes.
  - Bytes from 0x80 upwards are copied unchanged, so Go's replacement of
    invalid UTF-8 is not modelled.
  - The escapes Go writes for U+2028 and U+2029 are not modelled either.
  - A `\u` escape above 0x7F is not decoded.
  - Nil slices, which marshal as `null`, never occur in a built document.
  - `Json.EscapeByte` writes backspace and form feed as `\b` and `\f`, as
    Go 1.22 and later do. Earlier releases write `\u0008` and `\u000c`. The
    repository pins no Go toolchain, so this is an assumption about the
    compiler version.
- The error branch of `json.Marshal` cannot be taken for the kubeconfig
  struct, so `BuildKubeconfigBytes` returns no error.
- Writing through a nil map in Go panics. Here it is the error `NilTokenData`,
  which ends the call the same way from the caller's point of view.
- `Reconciler.ReconcileIdempotent` assumes two things:
  - The token secret is readable. Otherwise every pass mints a new token;
    `Tokens.FailingTokenReadRemints` shows this.
  - The CA secret does not have the name of the VCI's kubeconfig secret.
    Otherwise the pass may overwrite the CA secret in the CA namespace, and
    the CA bundle read in the second pass differs from the first.
- `Reconciler.PublishIdempotent` assumes the same two things, for the same
  reasons.
- `Reconciler.DeliverIdempotent` assumes the second of them: the token is
  given, so only the CA secret can change under it.
- `Reconciler.ReconcilePublishes` assumes the CA secret is not the token
  secret. Otherwise the CA bundle read after the token step would be the
  freshly written token secret.
- Four behaviours of the code a reader might not expect, all modelled as
  written:
  - When a stored token is reused, `ensureAccessKeyAndToken` returns before
    touching the AccessKey (reconciler.go:244-247). The AccessKey is not
    re-applied on every pass.
  - An upsert that finds the content current does not restore missing
    identifying labels (reconciler.go:189-205).
    `Synchronizer.CurrentSecretIsNotRelabelled` states this.
  - A token-secret read that fails with any error, not only not-found, leads
    to minting (reconciler.go:244).
  - A failed re-read after already-exists is ignored (reconciler.go:323).
