/**
 * The two checks that decide trust: a detached signature over a payload
 * (armored or raw), and the match between an artifact's SHA-256 and the
 * digest its manifest declares. The cryptographic, armor and YAML libraries
 * they call are the fields of `Primitives`.
 */
module Signing {
  import opened Types
  import opened Hex
  import opened Errors

  /** A set of trusted public keys, loaded once and never changed. */
  datatype Keyring = Keyring(keys: set<Bytes>)

  /** What armor decoding makes of a signature file. */
  datatype Armor =
    | NotArmored                  // not an armored block: use the bytes as they are
    | ArmoredBody(body: Bytes)    // an armored block and its decoded body
    | ArmoredBodyUnreadable       // an armored block whose body cannot be read

  /** A SHA-256 sum. */
  type Digest = d: Bytes | |d| == 32 witness seq(32, _ => 0)

  /**
   * The library calls the checks depend on:
   *  - checkDetachedSignature(keyring, signed, signature): the OpenPGP detached-signature check;
   *  - armorDecode(bytes): ASCII-armor decoding;
   *  - sha256(bytes): the SHA-256 sum;
   *  - unmarshalManifest(bytes): YAML decoding of the manifest into its `artifact_sha`
   *    field; None when the bytes are not YAML, Some("") when the field is absent.
   */
  datatype Primitives = Primitives(
    checkDetachedSignature: (Keyring, Bytes, Bytes) -> bool,
    armorDecode: Bytes -> Armor,
    sha256: Bytes -> Digest,
    unmarshalManifest: Bytes -> Option<string>)

  /**
   * verifySigned: the signature, unwrapped from its armor when it has one, must
   * be accepted by the detached-signature check for `signed` under `keyring`.
   */
  function VerifySigned(p: Primitives, keyring: Keyring, signed: Bytes, signature: Bytes): (r: Option<Error>)
    ensures r == None <==>
      (p.armorDecode(signature).NotArmored? && p.checkDetachedSignature(keyring, signed, signature)) ||
      (p.armorDecode(signature).ArmoredBody? && p.checkDetachedSignature(keyring, signed, p.armorDecode(signature).body))
    ensures r == Some(ArmorBodyUnreadable) <==> p.armorDecode(signature).ArmoredBodyUnreadable?
    ensures r == None || r == Some(ArmorBodyUnreadable) || r == Some(SignatureMismatch)
  {
    var effective :=
      match p.armorDecode(signature)
      case NotArmored => Some(signature)
      case ArmoredBody(body) => Some(body)
      case ArmoredBodyUnreadable => None;
    if effective.None? then Some(ArmorBodyUnreadable)
    else if p.checkDetachedSignature(keyring, signed, effective.value) then None
    else Some(SignatureMismatch)
  }

  /**
   * An armored signature and the raw signature it wraps give the same verdict
   * on every payload.
   */
  lemma ArmorIsTransparent(p: Primitives, keyring: Keyring, signed: Bytes, armored: Bytes, raw: Bytes)
    requires p.armorDecode(armored) == ArmoredBody(raw)
    requires p.armorDecode(raw) == NotArmored
    ensures VerifySigned(p, keyring, signed, armored) == VerifySigned(p, keyring, signed, raw)
  {
  }

  /** The artifact's digest as the manifest verifier renders it: lowercase hex of its SHA-256. */
  function ArtifactDigest(p: Primitives, artifact: Bytes): (s: string)
    ensures |s| == 64 && IsLowerHex(s)
  {
    EncodeIsLowerHex(p.sha256(artifact));
    Encode(p.sha256(artifact))
  }

  /**
   * The comparison half of checkMatchingDigest: the manifest must decode, and
   * its `artifact_sha` must equal the artifact's digest character for character.
   */
  function MatchDigest(p: Primitives, artifact: Bytes, manifest: Bytes): (r: Option<Error>)
    ensures r == None <==> p.unmarshalManifest(manifest) == Some(ArtifactDigest(p, artifact))
    ensures r == Some(ManifestUnparsable) <==> p.unmarshalManifest(manifest).None?
    ensures r != None && p.unmarshalManifest(manifest).Some? ==>
      r == Some(DigestMismatch(ArtifactDigest(p, artifact), p.unmarshalManifest(manifest).value))
  {
    match p.unmarshalManifest(manifest)
    case None => Some(ManifestUnparsable)
    case Some(declared) =>
      var computed := ArtifactDigest(p, artifact);
      if computed != declared then Some(DigestMismatch(computed, declared)) else None
  }

  /**
   * A declared digest that is not 64 lowercase hex digits never matches: an
   * empty `artifact_sha`, a missing one, or one written in uppercase is a mismatch.
   */
  lemma IllFormedDeclaredDigestRejected(p: Primitives, artifact: Bytes, manifest: Bytes)
    requires p.unmarshalManifest(manifest).Some?
    requires var d := p.unmarshalManifest(manifest).value; |d| != 64 || !IsLowerHex(d)
    ensures MatchDigest(p, artifact, manifest).Some? && MatchDigest(p, artifact, manifest).value.DigestMismatch?
  {
  }

  /** A match pins the artifact's SHA-256: it is exactly the sum the declared hex string spells. */
  lemma {:induction false} MatchPinsSha256(p: Primitives, artifact: Bytes, manifest: Bytes)
    requires MatchDigest(p, artifact, manifest) == None
    ensures p.unmarshalManifest(manifest).Some?
    ensures Decode(p.unmarshalManifest(manifest).value) == Some(p.sha256(artifact))
  {
    DecodeEncode(p.sha256(artifact));
  }

  /**
   * A manifest that declares the digest of some bytes accepts a local copy only
   * when the copy has the same SHA-256 sum.
   */
  lemma {:induction false} AlteredArtifactRejected(p: Primitives, original: Bytes, local: Bytes, manifest: Bytes)
    requires p.unmarshalManifest(manifest) == Some(ArtifactDigest(p, original))
    requires p.sha256(local) != p.sha256(original)
    ensures MatchDigest(p, local, manifest) == Some(DigestMismatch(ArtifactDigest(p, local), ArtifactDigest(p, original)))
  {
    if ArtifactDigest(p, local) == ArtifactDigest(p, original) {
      EncodeInjective(p.sha256(local), p.sha256(original));
    }
  }
}
