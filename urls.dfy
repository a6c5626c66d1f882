/**
 * Artifact locations: the fields of a Go `url.URL`, the scheme gate both
 * signing strategies apply, and the naming convention for the companion
 * objects (manifest, manifest signature, detached signature) stored next to
 * an artifact.
 */
module Urls {
  import opened Types

  datatype UserInfo = UserInfo(username: string, password: Option<string>)

  /** The value of a `url.URL`, field by field. */
  datatype UrlParts = UrlParts(
    scheme: string,
    schemeSpecific: string,   // Go's Opaque field
    user: Option<UserInfo>,
    host: string,
    path: string,
    rawPath: string,
    forceQuery: bool,
    rawQuery: string,
    fragment: string)

  /** A `*url.URL`: a record whose fields the verifiers overwrite in place. */
  class Url {
    var scheme: string
    var schemeSpecific: string
    var user: Option<UserInfo>
    var host: string
    var path: string
    var rawPath: string
    var forceQuery: bool
    var rawQuery: string
    var fragment: string

    function Value(): UrlParts
      reads this
    {
      UrlParts(scheme, schemeSpecific, user, host, path, rawPath, forceQuery, rawQuery, fragment)
    }

    /** `u := &url.URL{}; *u = *other`: a fresh record holding a copy of every field. */
    constructor Copy(other: Url)
      ensures Value() == other.Value()
    {
      scheme, schemeSpecific, user, host := other.scheme, other.schemeSpecific, other.user, other.host;
      path, rawPath, forceQuery := other.path, other.rawPath, other.forceQuery;
      rawQuery, fragment := other.rawQuery, other.fragment;
    }
  }

  /** The schemes the signing strategies accept; Go's switch compares exactly. */
  predicate SchemeRecognized(scheme: string) {
    scheme == "file" || scheme == "gs" || scheme == "http" || scheme == "https"
  }

  /** The same location with `suffix` appended to the path and nothing else touched. */
  function WithPathSuffix(u: UrlParts, suffix: string): (v: UrlParts)
    ensures v.path == u.path + suffix
    ensures v.(path := u.path) == u
  {
    u.(path := u.path + suffix)
  }

  /** `<artifact>.manifest` */
  function ManifestLocation(u: UrlParts): (v: UrlParts)
    ensures v.path == u.path + ".manifest" && v.(path := u.path) == u
  {
    WithPathSuffix(u, ".manifest")
  }

  /** `<artifact>.manifest.sig`: the manifest location with `.sig` appended. */
  function ManifestSignatureLocation(u: UrlParts): (v: UrlParts)
    ensures v.path == u.path + ".manifest.sig" && v.(path := u.path) == u
  {
    WithPathSuffix(ManifestLocation(u), ".sig")
  }

  /** `<artifact>.sig` */
  function SignatureLocation(u: UrlParts): (v: UrlParts)
    ensures v.path == u.path + ".sig" && v.(path := u.path) == u
  {
    WithPathSuffix(u, ".sig")
  }

  /**
   * The three companions differ only in their path, which is the artifact's
   * path plus a fixed suffix; they are distinct from each other and from the
   * artifact itself.
   */
  lemma CompanionLocations(u: UrlParts)
    ensures ManifestSignatureLocation(u) == WithPathSuffix(u, ".manifest.sig")
    ensures ManifestLocation(u).(path := u.path) == u
    ensures ManifestSignatureLocation(u).(path := u.path) == u
    ensures SignatureLocation(u).(path := u.path) == u
    ensures |{u, ManifestLocation(u), ManifestSignatureLocation(u), SignatureLocation(u)}| == 4
  {
  }

  /** Appending the same suffix to two different locations keeps them different. */
  lemma {:induction false} WithPathSuffixInjective(u: UrlParts, v: UrlParts, suffix: string)
    requires WithPathSuffix(u, suffix) == WithPathSuffix(v, suffix)
    ensures u == v
  {
    var pu, pv := u.path + suffix, v.path + suffix;
    assert |u.path| == |v.path|;
    assert u.path == pu[..|u.path|] == pv[..|v.path|] == v.path;
  }
}
