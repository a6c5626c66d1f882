/**
 * Properties of the verification protocol that relate several steps or
 * several strategies: the scheme gate, the order of the checks, what a
 * manifest success guarantees about the artifact's bytes, and the composite
 * strategy's fallback.
 */
module Properties {
  import opened Types
  import opened Hex
  import opened Urls
  import opened LocalIo
  import opened Errors
  import opened Signing
  import opened Protocol

  /**
   * An unrecognized scheme stops both signing strategies before they create a
   * scratch directory, fetch anything or read the local copy. The composite
   * strategy then rewinds the local copy and reports the build strategy's
   * identical refusal, or the rewind failure.
   */
  lemma UnrecognizedSchemeTouchesNothing(mp: Primitives, mk: Keyring, bp: Primitives, bk: Keyring,
                                         w: World, loc: UrlParts, f: FileState)
    requires f.Valid() && !SchemeRecognized(loc.scheme)
    ensures ManifestRun(mp, mk, w, loc, f) == Run(Some(UnrecognizedScheme(loc)), [], [], f.cursor, 0)
    ensures BuildRun(bp, bk, w, loc, f) == Run(Some(UnrecognizedScheme(loc)), [], [], f.cursor, 0)
    ensures var r := CompositeRun(mp, mk, bp, bk, w, loc, f);
      r.fetched == [] && r.fileOps == [Rewind] && r.tempDirs == 0 &&
      r.err == if f.seekFails then Some(RewindFailed(f.name)) else Some(UnrecognizedScheme(loc))
  {
  }

  /** A manifest that cannot be downloaded ends the manifest strategy: no signature fetch, no local read. */
  lemma ManifestDownloadFailureStops(p: Primitives, k: Keyring, w: World, loc: UrlParts, f: FileState)
    requires f.Valid() && SchemeRecognized(loc.scheme) && !w.tempDirFails
    requires ManifestLocation(loc) !in w.remote
    ensures ManifestRun(p, k, w, loc, f) == Run(Some(ManifestDownloadFailed(loc)), [ManifestLocation(loc)], [], f.cursor, 1)
  {
  }

  /**
   * The signature over the manifest is checked before the digest: when it is
   * refused, that refusal is the verdict and the local copy is not read.
   */
  lemma SignatureCheckedBeforeDigest(p: Primitives, k: Keyring, w: World, loc: UrlParts, f: FileState)
    requires f.Valid() && SchemeRecognized(loc.scheme) && !w.tempDirFails
    requires ManifestLocation(loc) in w.remote && ManifestSignatureLocation(loc) in w.remote
    requires "manifest" !in w.unreadable && "signature" !in w.unreadable
    requires VerifySigned(p, k, w.remote[ManifestLocation(loc)], w.remote[ManifestSignatureLocation(loc)]) != None
    ensures var r := ManifestRun(p, k, w, loc, f);
      r.err == VerifySigned(p, k, w.remote[ManifestLocation(loc)], w.remote[ManifestSignatureLocation(loc)]) &&
      r.fileOps == [] && r.cursor == f.cursor
  {
  }

  /**
   * What a manifest success certifies: the manifest at `<artifact>.manifest`
   * carries an accepted signature from `<artifact>.manifest.sig`, and its
   * `artifact_sha` spells exactly the SHA-256 of the bytes read from the
   * local copy.
   */
  lemma {:induction false} ManifestSuccessCertifiesArtifact(p: Primitives, k: Keyring, w: World, loc: UrlParts, f: FileState)
    requires f.Valid() && ManifestRun(p, k, w, loc, f).err == None
    ensures ManifestLocation(loc) in w.remote && ManifestSignatureLocation(loc) in w.remote
    ensures VerifySigned(p, k, w.remote[ManifestLocation(loc)], w.remote[ManifestSignatureLocation(loc)]) == None
    ensures p.unmarshalManifest(w.remote[ManifestLocation(loc)]).Some?
    ensures Decode(p.unmarshalManifest(w.remote[ManifestLocation(loc)]).value) == Some(p.sha256(f.Rest()))
  {
    MatchPinsSha256(p, f.Rest(), w.remote[ManifestLocation(loc)]);
  }

  /**
   * A correctly signed manifest for some build does not vouch for a local copy
   * whose SHA-256 differs: the verdict is a digest mismatch.
   */
  lemma {:induction false} AlteredArtifactFailsManifest(p: Primitives, k: Keyring, w: World, loc: UrlParts,
                                                        f: FileState, original: Bytes)
    requires f.Valid() && !f.readFails && SchemeRecognized(loc.scheme) && !w.tempDirFails
    requires ManifestLocation(loc) in w.remote && ManifestSignatureLocation(loc) in w.remote
    requires "manifest" !in w.unreadable && "signature" !in w.unreadable
    requires VerifySigned(p, k, w.remote[ManifestLocation(loc)], w.remote[ManifestSignatureLocation(loc)]) == None
    requires p.unmarshalManifest(w.remote[ManifestLocation(loc)]) == Some(ArtifactDigest(p, original))
    requires p.sha256(f.Rest()) != p.sha256(original)
    ensures ManifestRun(p, k, w, loc, f).err == Some(DigestMismatch(ArtifactDigest(p, f.Rest()), ArtifactDigest(p, original)))
  {
    AlteredArtifactRejected(p, original, f.Rest(), w.remote[ManifestLocation(loc)]);
  }

  /** The build strategy's verdict does not depend on SHA-256 or on YAML: it has no digest step. */
  lemma BuildRunIgnoresDigestPrimitives(p: Primitives, k: Keyring, w: World, loc: UrlParts, f: FileState,
                                        sha256: Bytes -> Digest, unmarshal: Bytes -> Option<string>)
    requires f.Valid()
    ensures BuildRun(p, k, w, loc, f) == BuildRun(p.(sha256 := sha256, unmarshalManifest := unmarshal), k, w, loc, f)
  {
  }

  /**
   * The composite strategy succeeds exactly when the manifest strategy does,
   * or when the local copy can be rewound and the build strategy then
   * succeeds on the whole file.
   */
  lemma CompositeVerdict(mp: Primitives, mk: Keyring, bp: Primitives, bk: Keyring,
                         w: World, loc: UrlParts, f: FileState)
    requires f.Valid()
    ensures CompositeRun(mp, mk, bp, bk, w, loc, f).err == None <==>
      ManifestRun(mp, mk, w, loc, f).err == None ||
      (!f.seekFails && BuildRun(bp, bk, w, loc, f.(cursor := 0)).err == None)
  {
  }

  /**
   * After a manifest failure, every read of the local copy that follows the
   * rewind starts at offset 0 (the build strategy reads at most once), and the
   * cursor ends where the build strategy, started at offset 0, leaves it.
   */
  lemma {:induction false} FallbackRereadsFromStart(mp: Primitives, mk: Keyring, bp: Primitives, bk: Keyring,
                                                    w: World, loc: UrlParts, f: FileState)
    requires f.Valid() && ManifestRun(mp, mk, w, loc, f).err != None && !f.seekFails
    ensures var m, r := ManifestRun(mp, mk, w, loc, f), CompositeRun(mp, mk, bp, bk, w, loc, f);
      r.fileOps == m.fileOps + [Rewind] || r.fileOps == m.fileOps + [Rewind, ReadFrom(0)]
    ensures var r := CompositeRun(mp, mk, bp, bk, w, loc, f);
      r.cursor == BuildRun(bp, bk, w, loc, f.(cursor := 0)).cursor
  {
  }
}
