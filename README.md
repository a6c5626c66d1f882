# Artifact verification of the p2 node agent, modelled in Dafny

Before the p2 agent unpacks and launches a downloaded artifact ("hoist
artifact"), an `ArtifactVerifier` decides whether the artifact comes from a
trusted build. `pkg/auth/artifact_verifier.go` provides four strategies
behind that one interface:

- **nopVerifier** accepts everything.
- **BuildManifestVerifier** works in two hops. It downloads `<artifact>.manifest`
  and `<artifact>.manifest.sig` into a scratch directory. It checks the detached
  signature over the manifest bytes. Then it checks that the lowercase hex SHA-256
  of the local copy equals the manifest's `artifact_sha`.
- **BuildVerifier** works in one hop. It downloads `<artifact>.sig` and checks the
  detached signature over the local copy's bytes.
- **CompositeVerifier** tries the manifest strategy. On failure it seeks the local
  copy back to offset 0 and returns the build strategy's verdict.

The model has these parts:

| file | module | contents |
|---|---|---|
| `types.dfy` | `Types` | `Option`, bytes |
| `hex.dfy` | `Hex` | lowercase hex encoding (`hex.EncodeToString`) and its decoder |
| `urls.dfy` | `Urls` | `url.URL` as a value and as a mutable record; the scheme gate; companion locations |
| `io.dfy` | `LocalIo` | the local copy (bytes, read cursor, operation log), scratch directories, the fetcher (download log) |
| `errors.dfy` | `Errors` | one error constructor per error return |
| `signing.dfy` | `Signing` | `verifySigned`; the digest comparison of `checkMatchingDigest` |
| `protocol.dfy` | `Protocol` | each strategy's run as a function of its starting state |
| `verifiers.dfy` | `Verifiers` | the four strategies as classes; each entry point is proved equal to its run |
| `properties.dfy` | `Properties` | lemmas that relate steps and strategies |

The libraries the code calls are fields of the `Signing.Primitives` value:
OpenPGP detached-signature checking, ASCII-armor decoding, SHA-256 and YAML
decoding of the manifest. Their behaviour is left open. Failures of the
environment are fixed by the state a run starts from, so every run is a
function of that state:

- a location the fetcher cannot download is one missing from its `remote` map;
- `Disk.tempDirFails` says whether the scratch directory can be created;
- `Disk.unreadable` names downloaded files that cannot be read back;
- `LocalFile.readFails` and `LocalFile.seekFails` say whether the local copy can be read or rewound.

A Go `error` is an `Option<Error>`, and `None` stands for `nil`.

Behaviour of the code a reader may not expect:

- With an unrecognized scheme, `CompositeVerifier` still seeks the local copy
  before it asks the build strategy. A failed seek is then reported instead of
  the scheme error (`Properties.UnrecognizedSchemeTouchesNothing`).
- Nothing checks that `artifact_sha` is present or non-empty. A missing field
  decodes to `""`, which never equals a 64-digit digest
  (`Signing.IllFormedDeclaredDigestRejected`).
- A failed manifest download names the artifact's location. A failed download
  of `<artifact>.sig` names the `.sig` location.
- `checkMatchingDigest` reads the local copy before it decodes the manifest.
  An unparsable manifest therefore still consumes the stream.

## Model

| member | source | states |
|---|---|---|
| `Hex.Encode` | pkg/auth/artifact_verifier.go:186-187 | the hex rendering has two characters per byte |
| `Hex.EncodeIsLowerHex` | pkg/auth/artifact_verifier.go:187 | every character of the rendering is one of `0-9a-f` |
| `Hex.DecodeEncode` | pkg/auth/artifact_verifier.go:187 | decoding the rendering gives back the bytes (round trip) |
| `Hex.EncodeInjective` | pkg/auth/artifact_verifier.go:186-187 | different digests render to different strings |
| `Urls.Url.Copy` | pkg/auth/artifact_verifier.go:129-130 | `*u = *artifactLocation` copies every field into a fresh record |
| `Urls.WithPathSuffix` | pkg/auth/artifact_verifier.go:131 | appending to the path changes the path only, by exactly the suffix |
| `Urls.CompanionLocations` | pkg/auth/artifact_verifier.go:129-140 | `.manifest.sig` is `.manifest` then `.sig`; all three companions keep every non-path field; the artifact and its three companions are pairwise distinct |
| `Urls.ManifestLocation` | pkg/auth/artifact_verifier.go:129-131 | the manifest location is the artifact's path plus `.manifest`, with every other field unchanged |
| `Urls.ManifestSignatureLocation` | pkg/auth/artifact_verifier.go:139-140 | the manifest-signature location is the artifact's path plus `.manifest.sig`, with every other field unchanged |
| `Urls.SignatureLocation` | pkg/auth/artifact_verifier.go:241-243 | the detached-signature location is the artifact's path plus `.sig`, with every other field unchanged |
| `Urls.WithPathSuffixInjective` | pkg/auth/artifact_verifier.go:241-243 | distinct artifacts have distinct companion locations |
| `LocalIo.LocalFile.ReadAll` | pkg/auth/artifact_verifier.go:182 | yields the bytes from the cursor to the end and moves the cursor to the end; a failed read returns nothing; every attempt is logged with its offset |
| `LocalIo.LocalFile.SeekStart` | pkg/auth/artifact_verifier.go:68 | succeeds unless the file cannot seek, and then the cursor is 0 |
| `LocalIo.Disk.TempDir` | pkg/auth/artifact_verifier.go:123-126 | creates an empty directory under a name never used before, or fails |
| `LocalIo.Disk.ReadFile` | pkg/auth/artifact_verifier.go:147-154 | returns what was stored under that name unless the file is unreadable |
| `LocalIo.Disk.RemoveAll` | pkg/auth/artifact_verifier.go:127 | the directory and its files are gone; nothing else changes |
| `LocalIo.Fetcher.CopyLocal` | pkg/auth/artifact_verifier.go:135 | logs the requested location; succeeds iff it is downloadable, and then writes the object into the named file |
| `Signing.VerifySigned` | pkg/auth/artifact_verifier.go:164-179 | success iff the signature check passes. The signature checked is the armored body when the signature is armored and the raw bytes otherwise. An armored block with an unreadable body is its own error |
| `Signing.ArmorIsTransparent` | pkg/auth/artifact_verifier.go:165-172 | an armored signature and the raw signature it wraps give the same verdict |
| `Signing.ArtifactDigest` | pkg/auth/artifact_verifier.go:186-187 | the artifact digest is 64 lowercase hex characters |
| `Signing.MatchDigest` | pkg/auth/artifact_verifier.go:189-200 | success iff the manifest decodes and its `artifact_sha` equals the digest exactly; a decode failure is a parse error, any other difference a digest mismatch |
| `Signing.IllFormedDeclaredDigestRejected` | pkg/auth/artifact_verifier.go:197-199 | an empty, missing, uppercase or wrong-length `artifact_sha` is a mismatch |
| `Signing.MatchPinsSha256` | pkg/auth/artifact_verifier.go:186-200 | a match means the declared hex decodes to exactly the artifact's SHA-256 |
| `Signing.AlteredArtifactRejected` | pkg/auth/artifact_verifier.go:186-199 | bytes with a different SHA-256 than the manifest declares are rejected with a digest mismatch |
| `Protocol.DigestVerdict` | pkg/auth/artifact_verifier.go:181-200 | success iff the local copy is readable and its digest from the cursor on matches the manifest; an unreadable copy is its own error |
| `Protocol.ManifestChain` | pkg/auth/artifact_verifier.go:129-160 | the manifest is always requested and its signature only after the manifest arrived; the local copy is read at most once, from its cursor, and only after the signature over the manifest was accepted; success iff the signature and the digest both check |
| `Protocol.ManifestRun` | pkg/auth/artifact_verifier.go:118-162 | scheme gate before anything; fetches are a prefix of [`.manifest`, `.manifest.sig`]; the local copy is read at most once, only after both downloads and an accepted signature; one scratch dir iff past the gate; success iff the signature and the digest both check |
| `Protocol.BuildChain` | pkg/auth/artifact_verifier.go:241-261 | exactly one download, of `.sig`; the local copy is read once, from its cursor, iff the signature was downloaded and read back; success iff the signature over those bytes checks |
| `Protocol.BuildRun` | pkg/auth/artifact_verifier.go:230-263 | scheme gate before anything; only `.sig` is ever fetched; the local copy is read at most once, from its cursor; success iff the signature over the bytes from the cursor checks |
| `Protocol.CompositeRun` | pkg/auth/artifact_verifier.go:65-75 | on manifest success it returns the manifest run and `.sig` is never fetched. On failure the next file operation is a rewind. A failed rewind is the verdict, and nothing further is fetched, read or moved. Otherwise the build verdict on the file from offset 0 is the verdict |
| `Verifiers.NopVerifier.VerifyHoistArtifact` | pkg/auth/artifact_verifier.go:34-36 | always succeeds, and its empty frame means nothing is fetched, read or created |
| `Verifiers.BuildManifestVerifier.New` | pkg/auth/artifact_verifier.go:104-114 | a keyring load failure is an error and no verifier; otherwise a fresh verifier holding that keyring |
| `Verifiers.BuildManifestVerifier.VerifyHoistArtifact` | pkg/auth/artifact_verifier.go:118-162 | verdict, download log, file operations and cursor are exactly `ManifestRun`'s; the caller's URL is untouched; the scratch directories are as before on every exit |
| `Verifiers.BuildManifestVerifier.FetchAndCheck` | pkg/auth/artifact_verifier.go:129-160 | the steps inside the scratch directory behave as the manifest chain and touch no other directory |
| `Verifiers.BuildManifestVerifier.DownloadManifest` | pkg/auth/artifact_verifier.go:129-154 | manifest fetched before its signature, and the signature is fetched only if the manifest arrived; the bytes read back are the downloaded objects |
| `Verifiers.BuildManifestVerifier.CheckMatchingDigest` | pkg/auth/artifact_verifier.go:181-200 | reads once from the cursor and returns `DigestVerdict` |
| `Verifiers.BuildVerifier.New` | pkg/auth/artifact_verifier.go:218-228 | a keyring load failure is an error and no verifier; otherwise a fresh verifier holding that keyring |
| `Verifiers.BuildVerifier.VerifyHoistArtifact` | pkg/auth/artifact_verifier.go:230-263 | verdict, download log, file operations and cursor are exactly `BuildRun`'s; the caller's URL is untouched; scratch directories as before on every exit |
| `Verifiers.BuildVerifier.FetchAndVerify` | pkg/auth/artifact_verifier.go:241-261 | the steps inside the scratch directory behave as the build chain and touch no other directory |
| `Verifiers.CompositeVerifier.New` | pkg/auth/artifact_verifier.go:49-62 | the first keyring load failure is returned; otherwise both strategies share the fetcher and the disk |
| `Verifiers.CompositeVerifier.VerifyHoistArtifact` | pkg/auth/artifact_verifier.go:65-75 | verdict, download log, file operations and cursor are exactly `CompositeRun`'s; scratch directories as before |
| `Properties.UnrecognizedSchemeTouchesNothing` | pkg/auth/artifact_verifier.go:119-122 | both signing strategies refuse an unknown scheme with no fetch, no read and no scratch dir; the composite only rewinds |
| `Properties.ManifestDownloadFailureStops` | pkg/auth/artifact_verifier.go:135-137 | a missing manifest stops the run: one fetch, no signature fetch, no local read |
| `Properties.SignatureCheckedBeforeDigest` | pkg/auth/artifact_verifier.go:156-160 | a refused manifest signature is the verdict, and the local copy is not read |
| `Properties.ManifestSuccessCertifiesArtifact` | pkg/auth/artifact_verifier.go:147-160 | manifest success means a signed manifest whose `artifact_sha` decodes to the SHA-256 of the bytes read |
| `Properties.AlteredArtifactFailsManifest` | pkg/auth/artifact_verifier.go:156-160 | a validly signed manifest for other bytes gives a digest mismatch |
| `Properties.BuildRunIgnoresDigestPrimitives` | pkg/auth/artifact_verifier.go:241-261 | the build strategy's run does not depend on SHA-256 or YAML, so there is no digest step |
| `Properties.CompositeVerdict` | pkg/auth/artifact_verifier.go:65-75 | composite success iff manifest success, or a rewind followed by build success on the whole file |
| `Properties.FallbackRereadsFromStart` | pkg/auth/artifact_verifier.go:67-72 | after a manifest failure, the rewind comes first and the only later read starts at offset 0; the cursor ends where the build run leaves it |

## Left out

- OpenPGP detached-signature checking (RFC 4880 section 5.2) and ASCII-armor decoding (RFC 4880 section 6.2) are library code. They are the fields `checkDetachedSignature` and `armorDecode` of `Primitives`, and their behaviour is left open.
- SHA-256 (FIPS 180-4) is the field `sha256`, any function into 32-byte strings. The hex rendering is modelled.
- YAML decoding of the manifest is the field `unmarshalManifest`. It gives `None` on a decode error and the `artifact_sha` value otherwise, `""` when the field is absent.
- `LoadKeyring` is not part of this model. The `New` methods receive what it produced for `keyringPath`, and `CompositeVerifier.New` receives the results of its two separate loads.
- The `uri.Fetcher` transports are a map from location to object. Transport errors, timeouts and cancellation show up only as a location that cannot be downloaded.
- Temporary-directory names are consecutive numbers. What makes `ioutil.TempDir` names unique under concurrent calls is not modelled, and neither is concurrent invocation.
- Error messages are typed `Error` values, not formatted strings, and logging is left out. The message at pkg/auth/artifact_verifier.go:198 lists the computed digest first and the declared one second. `DigestMismatch(computed, declared)` keeps that information under explicit names.
- `url.URL` rendering (`String()`) is not modelled. `RawPath` is copied unchanged when the path is extended, as the struct copy does.
- Environment failures are fixed for a whole call, not drawn per operation. A failed `ioutil.TempDir` (pkg/auth/artifact_verifier.go:123, 235) or a failed read of the local copy (:182, :256) in the manifest attempt therefore also fails the build attempt of the same composite call. In Go, a one-off failure of that kind could be followed by a successful fallback at :72. The model does not capture that.
- `LocalIo.Disk.RemoveAll` always succeeds. The deferred `os.RemoveAll` at pkg/auth/artifact_verifier.go:127 and :239 discards its error. The guarantee that the scratch directories are as before on every exit therefore holds only on the assumption that removal does not fail.
- `LocalIo.LocalFile.ReadAll`: a failed read leaves the cursor where it was. A partial read before an I/O error is not modelled.
- The strategy-name constants `VerifyNone`, `VerifyManifest`, `VerifyBuild` and `VerifyEither` (pkg/auth/artifact_verifier.go:21-24) are only used by callers to pick a strategy. They are not modelled.
- bin/p2-schedule/main.go is command-line and intent-store plumbing with no verification logic. It is not part of this model.
