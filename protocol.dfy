/**
 * What one call of each verification strategy does, as a function of the
 * state it starts from: the verdict, the locations fetched (in order), what
 * happened to the local copy, where its cursor ends, and how many scratch
 * directories were created (each of which is removed again before the call
 * returns). The verifier classes are proved to behave exactly like this.
 */
module Protocol {
  import opened Types
  import opened Urls
  import opened LocalIo
  import opened Errors
  import opened Signing

  /** The parts of the environment a verification depends on. */
  datatype World = World(
    remote: map<UrlParts, Bytes>,   // what the fetcher can download
    tempDirFails: bool,             // the scratch directory cannot be created
    unreadable: set<string>)        // downloaded files that cannot be read back, by name

  datatype Run = Run(
    err: Option<Error>,
    fetched: seq<UrlParts>,
    fileOps: seq<FileOp>,
    cursor: nat,
    tempDirs: nat)

  /** The cursor after a read from `f`'s cursor to its end. */
  function CursorAfterRead(f: FileState): nat {
    if f.readFails then f.cursor else |f.content|
  }

  /**
   * checkMatchingDigest: reads the local copy from its cursor to the end, then
   * decodes the manifest and compares digests.
   */
  function DigestVerdict(p: Primitives, f: FileState, manifest: Bytes): (r: Option<Error>)
    requires f.Valid()
    ensures r == None <==> !f.readFails && p.unmarshalManifest(manifest) == Some(ArtifactDigest(p, f.Rest()))
    ensures f.readFails ==> r == Some(LocalCopyUnreadable)
  {
    if f.readFails then Some(LocalCopyUnreadable) else MatchDigest(p, f.Rest(), manifest)
  }

  /** The manifest strategy once its scratch directory exists: fetch, fetch, authenticate, compare. */
  function ManifestChain(p: Primitives, keyring: Keyring, w: World, loc: UrlParts, f: FileState): (r: Run)
    requires f.Valid()
    // the manifest is always requested; its signature only once the manifest arrived
    ensures r.fetched == if ManifestLocation(loc) in w.remote
                         then [ManifestLocation(loc), ManifestSignatureLocation(loc)]
                         else [ManifestLocation(loc)]
    ensures r.tempDirs == 0
    // the local copy is read once, from its cursor, and only after the manifest's signature was accepted
    ensures r.fileOps == [] || r.fileOps == [ReadFrom(f.cursor)]
    ensures r.fileOps != [] ==>
      var m, s := ManifestLocation(loc), ManifestSignatureLocation(loc);
      m in w.remote && s in w.remote && "manifest" !in w.unreadable && "signature" !in w.unreadable &&
      VerifySigned(p, keyring, w.remote[m], w.remote[s]) == None
    ensures r.cursor == if r.fileOps == [] then f.cursor else CursorAfterRead(f)
    ensures r.err == None <==>
      var m, s := ManifestLocation(loc), ManifestSignatureLocation(loc);
      m in w.remote && s in w.remote && "manifest" !in w.unreadable && "signature" !in w.unreadable &&
      VerifySigned(p, keyring, w.remote[m], w.remote[s]) == None &&
      !f.readFails && p.unmarshalManifest(w.remote[m]) == Some(ArtifactDigest(p, f.Rest()))
  {
    var m, s := ManifestLocation(loc), ManifestSignatureLocation(loc);
    if m !in w.remote then Run(Some(ManifestDownloadFailed(loc)), [m], [], f.cursor, 0)
    else if s !in w.remote then Run(Some(ManifestSignatureDownloadFailed(loc)), [m, s], [], f.cursor, 0)
    else if "manifest" in w.unreadable then Run(Some(DownloadUnreadable("manifest")), [m, s], [], f.cursor, 0)
    else if "signature" in w.unreadable then Run(Some(DownloadUnreadable("signature")), [m, s], [], f.cursor, 0)
    else
      var signatureErr := VerifySigned(p, keyring, w.remote[m], w.remote[s]);
      if signatureErr.Some? then Run(signatureErr, [m, s], [], f.cursor, 0)
      else Run(DigestVerdict(p, f, w.remote[m]), [m, s], [ReadFrom(f.cursor)], CursorAfterRead(f), 0)
  }

  /** BuildManifestVerifier.VerifyHoistArtifact */
  function ManifestRun(p: Primitives, keyring: Keyring, w: World, loc: UrlParts, f: FileState): (r: Run)
    requires f.Valid()
    // the scheme gate comes before anything else
    ensures !SchemeRecognized(loc.scheme) ==> r == Run(Some(UnrecognizedScheme(loc)), [], [], f.cursor, 0)
    // the manifest is fetched first, then its signature, and nothing else
    ensures r.fetched <= [ManifestLocation(loc), ManifestSignatureLocation(loc)]
    ensures r.tempDirs == if SchemeRecognized(loc.scheme) && !w.tempDirFails then 1 else 0
    // the local copy is read at most once, from its cursor, and only after both
    // downloads arrived and the manifest's signature was accepted
    ensures r.fileOps == [] || r.fileOps == [ReadFrom(f.cursor)]
    ensures r.fileOps != [] ==>
      var m, s := ManifestLocation(loc), ManifestSignatureLocation(loc);
      r.fetched == [m, s] && m in w.remote && s in w.remote &&
      VerifySigned(p, keyring, w.remote[m], w.remote[s]) == None
    ensures r.cursor == if r.fileOps == [] then f.cursor else CursorAfterRead(f)
    // success needs both the signature over the manifest and the digest match
    ensures r.err == None <==>
      var m, s := ManifestLocation(loc), ManifestSignatureLocation(loc);
      SchemeRecognized(loc.scheme) && !w.tempDirFails && m in w.remote && s in w.remote &&
      "manifest" !in w.unreadable && "signature" !in w.unreadable &&
      VerifySigned(p, keyring, w.remote[m], w.remote[s]) == None &&
      !f.readFails && p.unmarshalManifest(w.remote[m]) == Some(ArtifactDigest(p, f.Rest()))
  {
    if !SchemeRecognized(loc.scheme) then Run(Some(UnrecognizedScheme(loc)), [], [], f.cursor, 0)
    else if w.tempDirFails then Run(Some(TempDirFailed), [], [], f.cursor, 0)
    else ManifestChain(p, keyring, w, loc, f).(tempDirs := 1)
  }

  /** The build strategy once its scratch directory exists: fetch the signature, read, authenticate. */
  function BuildChain(p: Primitives, keyring: Keyring, w: World, loc: UrlParts, f: FileState): (r: Run)
    requires f.Valid()
    // exactly one download, of `<artifact>.sig`
    ensures r.fetched == [SignatureLocation(loc)] && r.tempDirs == 0
    // the local copy is read once, from its cursor, only after the signature was downloaded and read back
    ensures r.fileOps == [] || r.fileOps == [ReadFrom(f.cursor)]
    ensures r.fileOps != [] <==> SignatureLocation(loc) in w.remote && "sig" !in w.unreadable
    ensures r.cursor == if r.fileOps == [] then f.cursor else CursorAfterRead(f)
    ensures r.err == None <==>
      var s := SignatureLocation(loc);
      s in w.remote && "sig" !in w.unreadable && !f.readFails &&
      VerifySigned(p, keyring, f.Rest(), w.remote[s]) == None
  {
    var s := SignatureLocation(loc);
    if s !in w.remote then Run(Some(SignatureDownloadFailed(s)), [s], [], f.cursor, 0)
    else if "sig" in w.unreadable then Run(Some(DownloadUnreadable("sig")), [s], [], f.cursor, 0)
    else if f.readFails then Run(Some(LocalCopyUnreadable), [s], [ReadFrom(f.cursor)], f.cursor, 0)
    else Run(VerifySigned(p, keyring, f.Rest(), w.remote[s]), [s], [ReadFrom(f.cursor)], |f.content|, 0)
  }

  /** BuildVerifier.VerifyHoistArtifact */
  function BuildRun(p: Primitives, keyring: Keyring, w: World, loc: UrlParts, f: FileState): (r: Run)
    requires f.Valid()
    ensures !SchemeRecognized(loc.scheme) ==> r == Run(Some(UnrecognizedScheme(loc)), [], [], f.cursor, 0)
    // only `<artifact>.sig` is ever fetched
    ensures r.fetched <= [SignatureLocation(loc)]
    ensures r.tempDirs == if SchemeRecognized(loc.scheme) && !w.tempDirFails then 1 else 0
    ensures r.fileOps == [] || (r.fileOps == [ReadFrom(f.cursor)] && r.fetched == [SignatureLocation(loc)])
    ensures r.cursor == if r.fileOps == [] then f.cursor else CursorAfterRead(f)
    // success is the signature check over the artifact's bytes; there is no digest step
    ensures r.err == None <==>
      var s := SignatureLocation(loc);
      SchemeRecognized(loc.scheme) && !w.tempDirFails && s in w.remote && "sig" !in w.unreadable &&
      !f.readFails && VerifySigned(p, keyring, f.Rest(), w.remote[s]) == None
  {
    if !SchemeRecognized(loc.scheme) then Run(Some(UnrecognizedScheme(loc)), [], [], f.cursor, 0)
    else if w.tempDirFails then Run(Some(TempDirFailed), [], [], f.cursor, 0)
    else BuildChain(p, keyring, w, loc, f).(tempDirs := 1)
  }

  /** CompositeVerifier.VerifyHoistArtifact */
  function CompositeRun(manifestPrims: Primitives, manifestKeyring: Keyring,
                        buildPrims: Primitives, buildKeyring: Keyring,
                        w: World, loc: UrlParts, f: FileState): (r: Run)
    requires f.Valid()
    // a manifest success is final: the build strategy is not attempted, so `.sig` is never fetched
    ensures ManifestRun(manifestPrims, manifestKeyring, w, loc, f).err == None ==>
      r == ManifestRun(manifestPrims, manifestKeyring, w, loc, f) && SignatureLocation(loc) !in r.fetched
    // after a manifest failure the local copy is rewound before anything else happens to it
    ensures var m := ManifestRun(manifestPrims, manifestKeyring, w, loc, f);
      m.err != None ==> |m.fileOps| < |r.fileOps| && r.fileOps[..|m.fileOps| + 1] == m.fileOps + [Rewind]
    ensures var m := ManifestRun(manifestPrims, manifestKeyring, w, loc, f);
      m.err != None && f.seekFails ==>
        r.err == Some(RewindFailed(f.name)) && r.fetched == m.fetched &&
        r.fileOps == m.fileOps + [Rewind] && r.cursor == m.cursor && r.tempDirs == m.tempDirs
    // otherwise the build strategy's verdict, on the whole file, is the answer
    ensures var m := ManifestRun(manifestPrims, manifestKeyring, w, loc, f);
      var b := BuildRun(buildPrims, buildKeyring, w, loc, f.(cursor := 0));
      m.err != None && !f.seekFails ==>
        r.err == b.err && r.fetched == m.fetched + b.fetched && r.fileOps[|m.fileOps| + 1..] == b.fileOps
  {
    var m := ManifestRun(manifestPrims, manifestKeyring, w, loc, f);
    if m.err == None then
      CompanionLocations(loc);
      m
    else if f.seekFails then
      Run(Some(RewindFailed(f.name)), m.fetched, m.fileOps + [Rewind], m.cursor, m.tempDirs)
    else
      var b := BuildRun(buildPrims, buildKeyring, w, loc, f.(cursor := 0));
      Run(b.err, m.fetched + b.fetched, m.fileOps + [Rewind] + b.fileOps, b.cursor, m.tempDirs + b.tempDirs)
  }
}
