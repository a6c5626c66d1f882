/**
 * The four strategies behind the `ArtifactVerifier` interface, each with the
 * same entry point `VerifyHoistArtifact(localCopy, artifactLocation)`
 * returning nil (None) or an error. Each signing strategy holds its keyring,
 * the fetcher, the disk it downloads to and the library primitives; every
 * entry point is proved to do exactly what the matching run of `Protocol`
 * describes, and to leave the scratch directories as it found them.
 */
module Verifiers {
  import opened Types
  import opened Urls
  import opened LocalIo
  import opened Errors
  import opened Signing
  import opened Protocol

  /** The environment a fetcher and a disk present to a verification. */
  function WorldOf(fetcher: Fetcher, disk: Disk): World {
    World(fetcher.remote, disk.tempDirFails, disk.unreadable)
  }

  /** Verification switched off: every artifact is accepted. */
  class NopVerifier {
    constructor () {}

    /** Succeeds on every input and, having an empty frame, fetches and reads nothing. */
    method VerifyHoistArtifact(localCopy: LocalFile, artifactLocation: Url) returns (err: Option<Error>)
      ensures err == None
    {
      err := None;
    }
  }

  /** Two hops of trust: a signed manifest, and the artifact's digest declared in it. */
  class BuildManifestVerifier {
    const keyring: Keyring
    const fetcher: Fetcher
    const disk: Disk
    const prims: Primitives

    constructor (keyring: Keyring, fetcher: Fetcher, disk: Disk, prims: Primitives)
      ensures this.keyring == keyring && this.fetcher == fetcher && this.disk == disk && this.prims == prims
    {
      this.keyring, this.fetcher, this.disk, this.prims := keyring, fetcher, disk, prims;
    }

    /** NewBuildManifestVerifier, given what loading the keyring at `keyringPath` produced. */
    static method New(keyringPath: string, loaded: Option<Keyring>, fetcher: Fetcher, disk: Disk, prims: Primitives)
      returns (v: BuildManifestVerifier?, err: Option<Error>)
      ensures loaded == None ==> v == null && err == Some(KeyringUnloadable(keyringPath))
      ensures loaded != None ==>
        err == None && v != null && fresh(v) && v.keyring == loaded.value &&
        v.fetcher == fetcher && v.disk == disk && v.prims == prims
    {
      if loaded == None {
        return null, Some(KeyringUnloadable(keyringPath));
      }
      v := new BuildManifestVerifier(loaded.value, fetcher, disk, prims);
      err := None;
    }

    method VerifyHoistArtifact(localCopy: LocalFile, artifactLocation: Url) returns (err: Option<Error>)
      requires localCopy.Valid() && disk.Valid()
      modifies localCopy, fetcher, disk
      ensures localCopy.Valid() && disk.Valid()
      ensures unchanged(artifactLocation)
      ensures var r := ManifestRun(prims, keyring, WorldOf(fetcher, disk), artifactLocation.Value(), old(localCopy.State()));
        err == r.err && fetcher.log == old(fetcher.log) + r.fetched &&
        localCopy.ops == old(localCopy.ops) + r.fileOps && localCopy.cursor == r.cursor &&
        disk.next == old(disk.next) + r.tempDirs
      // a scratch directory, once created, is gone again on every way out
      ensures disk.dirs == old(disk.dirs)
    {
      if !SchemeRecognized(artifactLocation.scheme) {
        return Some(UnrecognizedScheme(artifactLocation.Value()));
      }
      var dir := disk.TempDir();
      if dir.None? {
        return Some(TempDirFailed);
      }
      err := FetchAndCheck(localCopy, artifactLocation, dir.value);
      disk.RemoveAll(dir.value);  // the deferred os.RemoveAll
    }

    /** The steps between creating the scratch directory and the deferred removal. */
    method FetchAndCheck(localCopy: LocalFile, artifactLocation: Url, dir: nat) returns (err: Option<Error>)
      requires localCopy.Valid() && disk.Valid() && dir in disk.dirs
      modifies localCopy`cursor, localCopy`ops, fetcher, disk`dirs
      ensures localCopy.Valid() && disk.Valid() && dir in disk.dirs
      ensures disk.dirs - {dir} == old(disk.dirs) - {dir}
      ensures var r := ManifestChain(prims, keyring, WorldOf(fetcher, disk), artifactLocation.Value(), old(localCopy.State()));
        err == r.err && fetcher.log == old(fetcher.log) + r.fetched &&
        localCopy.ops == old(localCopy.ops) + r.fileOps && localCopy.cursor == r.cursor
    {
      var manifestBytes, signatureBytes;
      err, manifestBytes, signatureBytes := DownloadManifest(artifactLocation, dir);
      if err.Some? {
        return;
      }
      err := VerifySigned(prims, keyring, manifestBytes, signatureBytes);
      if err.Some? {
        return;
      }
      err := CheckMatchingDigest(localCopy, manifestBytes);
    }

    /** Downloads the manifest, then its signature, and reads both back. */
    method DownloadManifest(artifactLocation: Url, dir: nat)
      returns (err: Option<Error>, manifestBytes: Bytes, signatureBytes: Bytes)
      requires disk.Valid() && dir in disk.dirs
      modifies fetcher, disk`dirs
      ensures disk.Valid() && dir in disk.dirs
      ensures disk.dirs - {dir} == old(disk.dirs) - {dir}
      ensures var loc := artifactLocation.Value();
        var m, s := ManifestLocation(loc), ManifestSignatureLocation(loc);
        && fetcher.log == old(fetcher.log) + (if m in fetcher.remote then [m, s] else [m])
        && err == (if m !in fetcher.remote then Some(ManifestDownloadFailed(loc))
                   else if s !in fetcher.remote then Some(ManifestSignatureDownloadFailed(loc))
                   else if "manifest" in disk.unreadable then Some(DownloadUnreadable("manifest"))
                   else if "signature" in disk.unreadable then Some(DownloadUnreadable("signature"))
                   else None)
        && (err == None ==> manifestBytes == fetcher.remote[m] && signatureBytes == fetcher.remote[s])
    {
      manifestBytes, signatureBytes := [], [];
      var manifestSrc := new Url.Copy(artifactLocation);
      manifestSrc.path := manifestSrc.path + ".manifest";
      var ok := fetcher.CopyLocal(manifestSrc, disk, dir, "manifest");
      if !ok {
        return Some(ManifestDownloadFailed(artifactLocation.Value())), [], [];
      }
      // the signature location is the manifest location itself, extended in place
      var signatureSrc := manifestSrc;
      signatureSrc.path := signatureSrc.path + ".sig";
      ok := fetcher.CopyLocal(signatureSrc, disk, dir, "signature");
      if !ok {
        return Some(ManifestSignatureDownloadFailed(artifactLocation.Value())), [], [];
      }
      var manifestRead := disk.ReadFile(dir, "manifest");
      if manifestRead.None? {
        return Some(DownloadUnreadable("manifest")), [], [];
      }
      var signatureRead := disk.ReadFile(dir, "signature");
      if signatureRead.None? {
        return Some(DownloadUnreadable("signature")), [], [];
      }
      return None, manifestRead.value, signatureRead.value;
    }

    /** Reads the local copy from its cursor to the end, then compares its digest with the manifest's. */
    method CheckMatchingDigest(localCopy: LocalFile, manifestBytes: Bytes) returns (err: Option<Error>)
      requires localCopy.Valid()
      modifies localCopy`cursor, localCopy`ops
      ensures localCopy.Valid()
      ensures err == DigestVerdict(prims, old(localCopy.State()), manifestBytes)
      ensures localCopy.ops == old(localCopy.ops) + [ReadFrom(old(localCopy.cursor))]
      ensures localCopy.cursor == CursorAfterRead(old(localCopy.State()))
    {
      var realTarBytes := localCopy.ReadAll();
      if realTarBytes.None? {
        return Some(LocalCopyUnreadable);
      }
      var realDigest := ArtifactDigest(prims, realTarBytes.value);
      var manifest := prims.unmarshalManifest(manifestBytes);
      if manifest.None? {
        return Some(ManifestUnparsable);
      }
      if realDigest != manifest.value {
        return Some(DigestMismatch(realDigest, manifest.value));
      }
      return None;
    }
  }

  /** One hop of trust: a detached signature over the artifact's own bytes. */
  class BuildVerifier {
    const keyring: Keyring
    const fetcher: Fetcher
    const disk: Disk
    const prims: Primitives

    constructor (keyring: Keyring, fetcher: Fetcher, disk: Disk, prims: Primitives)
      ensures this.keyring == keyring && this.fetcher == fetcher && this.disk == disk && this.prims == prims
    {
      this.keyring, this.fetcher, this.disk, this.prims := keyring, fetcher, disk, prims;
    }

    /** NewBuildVerifier, given what loading the keyring at `keyringPath` produced. */
    static method New(keyringPath: string, loaded: Option<Keyring>, fetcher: Fetcher, disk: Disk, prims: Primitives)
      returns (v: BuildVerifier?, err: Option<Error>)
      ensures loaded == None ==> v == null && err == Some(KeyringUnloadable(keyringPath))
      ensures loaded != None ==>
        err == None && v != null && fresh(v) && v.keyring == loaded.value &&
        v.fetcher == fetcher && v.disk == disk && v.prims == prims
    {
      if loaded == None {
        return null, Some(KeyringUnloadable(keyringPath));
      }
      v := new BuildVerifier(loaded.value, fetcher, disk, prims);
      err := None;
    }

    method VerifyHoistArtifact(localCopy: LocalFile, artifactLocation: Url) returns (err: Option<Error>)
      requires localCopy.Valid() && disk.Valid()
      modifies localCopy, fetcher, disk
      ensures localCopy.Valid() && disk.Valid()
      ensures unchanged(artifactLocation)
      ensures var r := BuildRun(prims, keyring, WorldOf(fetcher, disk), artifactLocation.Value(), old(localCopy.State()));
        err == r.err && fetcher.log == old(fetcher.log) + r.fetched &&
        localCopy.ops == old(localCopy.ops) + r.fileOps && localCopy.cursor == r.cursor &&
        disk.next == old(disk.next) + r.tempDirs
      ensures disk.dirs == old(disk.dirs)
    {
      if !SchemeRecognized(artifactLocation.scheme) {
        return Some(UnrecognizedScheme(artifactLocation.Value()));
      }
      var dir := disk.TempDir();
      if dir.None? {
        return Some(TempDirFailed);
      }
      err := FetchAndVerify(localCopy, artifactLocation, dir.value);
      disk.RemoveAll(dir.value);  // the deferred os.RemoveAll
    }

    /** The steps between creating the scratch directory and the deferred removal. */
    method FetchAndVerify(localCopy: LocalFile, artifactLocation: Url, dir: nat) returns (err: Option<Error>)
      requires localCopy.Valid() && disk.Valid() && dir in disk.dirs
      modifies localCopy, fetcher, disk`dirs
      ensures localCopy.Valid() && disk.Valid() && dir in disk.dirs
      ensures disk.dirs - {dir} == old(disk.dirs) - {dir}
      ensures var r := BuildChain(prims, keyring, WorldOf(fetcher, disk), artifactLocation.Value(), old(localCopy.State()));
        err == r.err && fetcher.log == old(fetcher.log) + r.fetched &&
        localCopy.ops == old(localCopy.ops) + r.fileOps && localCopy.cursor == r.cursor
    {
      var sigUri := new Url.Copy(artifactLocation);
      sigUri.path := sigUri.path + ".sig";
      var ok := fetcher.CopyLocal(sigUri, disk, dir, "sig");
      if !ok {
        return Some(SignatureDownloadFailed(sigUri.Value()));
      }
      var sigData := disk.ReadFile(dir, "sig");
      if sigData.None? {
        return Some(DownloadUnreadable("sig"));
      }
      var signedBytes := localCopy.ReadAll();
      if signedBytes.None? {
        return Some(LocalCopyUnreadable);
      }
      err := VerifySigned(prims, keyring, signedBytes.value, sigData.value);
    }
  }

  /** The manifest strategy, falling back to the build strategy when it fails. */
  class CompositeVerifier {
    const manVerifier: BuildManifestVerifier
    const buildVerifier: BuildVerifier

    /** Both strategies download through the same fetcher onto the same disk. */
    predicate Valid() {
      manVerifier.fetcher == buildVerifier.fetcher &&
      manVerifier.disk == buildVerifier.disk
    }

    constructor (manVerifier: BuildManifestVerifier, buildVerifier: BuildVerifier)
      requires manVerifier.fetcher == buildVerifier.fetcher && manVerifier.disk == buildVerifier.disk
      ensures Valid()
      ensures this.manVerifier == manVerifier && this.buildVerifier == buildVerifier
    {
      this.manVerifier, this.buildVerifier := manVerifier, buildVerifier;
    }

    /**
     * NewCompositeVerifier: builds the manifest strategy, then the build
     * strategy, each loading the keyring at `keyringPath` on its own; the
     * first failure is returned.
     */
    static method New(keyringPath: string, manifestLoaded: Option<Keyring>, buildLoaded: Option<Keyring>,
                      fetcher: Fetcher, disk: Disk, prims: Primitives)
      returns (v: CompositeVerifier?, err: Option<Error>)
      ensures manifestLoaded == None || buildLoaded == None ==>
        v == null && err == Some(KeyringUnloadable(keyringPath))
      ensures manifestLoaded != None && buildLoaded != None ==>
        err == None && v != null && fresh(v) && v.Valid() &&
        v.manVerifier.keyring == manifestLoaded.value && v.buildVerifier.keyring == buildLoaded.value &&
        v.manVerifier.fetcher == fetcher && v.manVerifier.disk == disk
    {
      var manV, e := BuildManifestVerifier.New(keyringPath, manifestLoaded, fetcher, disk, prims);
      if e != None {
        return null, e;
      }
      var buildV, e' := BuildVerifier.New(keyringPath, buildLoaded, fetcher, disk, prims);
      if e' != None {
        return null, e';
      }
      v := new CompositeVerifier(manV, buildV);
      err := None;
    }

    method VerifyHoistArtifact(localCopy: LocalFile, artifactLocation: Url) returns (err: Option<Error>)
      requires Valid() && localCopy.Valid() && manVerifier.disk.Valid()
      modifies localCopy, manVerifier.fetcher, manVerifier.disk
      ensures localCopy.Valid() && manVerifier.disk.Valid()
      ensures unchanged(artifactLocation)
      ensures var r := CompositeRun(manVerifier.prims, manVerifier.keyring, buildVerifier.prims, buildVerifier.keyring,
                                    WorldOf(manVerifier.fetcher, manVerifier.disk),
                                    artifactLocation.Value(), old(localCopy.State()));
        err == r.err && manVerifier.fetcher.log == old(manVerifier.fetcher.log) + r.fetched &&
        localCopy.ops == old(localCopy.ops) + r.fileOps && localCopy.cursor == r.cursor &&
        manVerifier.disk.next == old(manVerifier.disk.next) + r.tempDirs
      ensures manVerifier.disk.dirs == old(manVerifier.disk.dirs)
    {
      err := manVerifier.VerifyHoistArtifact(localCopy, artifactLocation);
      if err != None {
        var ok := localCopy.SeekStart();
        if !ok {
          return Some(RewindFailed(localCopy.name));
        }
        err := buildVerifier.VerifyHoistArtifact(localCopy, artifactLocation);
      }
    }
  }
}
