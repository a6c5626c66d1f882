/** The failures a verification can end in, one per error return of the verifiers. */
module Errors {
  import opened Urls

  datatype Error =
    | UnrecognizedScheme(location: UrlParts)          // the scheme gate
    | TempDirFailed                                     // no scratch directory
    | ManifestDownloadFailed(artifact: UrlParts)        // names the artifact, not the manifest
    | ManifestSignatureDownloadFailed(artifact: UrlParts)
    | SignatureDownloadFailed(signature: UrlParts)      // names the `.sig` location itself
    | DownloadUnreadable(file: string)                  // a downloaded file could not be read back
    | ArmorBodyUnreadable                               // armored signature whose body is corrupt
    | SignatureMismatch                                 // the detached-signature check failed
    | LocalCopyUnreadable                               // the local artifact could not be read
    | ManifestUnparsable                                // the manifest is not YAML
    | DigestMismatch(computed: string, declared: string)
    | RewindFailed(file: string)                        // the local copy could not seek to 0
    | KeyringUnloadable(keyringPath: string)
}
