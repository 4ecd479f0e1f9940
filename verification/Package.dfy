/** What a verified package tells the rest of the platform about itself. */
module Package {
  import opened Bytes
  import opened Text
  import opened Paths

  type Sha256Digest = s: seq<byte> | |s| == 32 witness Zeros(32)

  datatype File = File(path: seq<byte>, mode: u16, size: u64, sha256: Sha256Digest, offset: u64)

  datatype Manifest = Manifest(
    appId: seq<byte>, keyId: seq<byte>, releaseCounter: u64, securityEpoch: u32,
    sdkAbi: seq<byte>, minimumPlatform: seq<byte>,
    profiles: seq<seq<byte>>, machines: seq<seq<byte>>, capabilities: seq<seq<byte>>,
    files: seq<File>)

  datatype Verification = Verification(
    verified: bool, development: bool, signatureVerified: bool,
    payloadStart: nat, manifest: Manifest)

  /** A package signed by an official key, as opposed to a development build. */
  predicate Authenticated(v: Verification) {
    v.verified && !v.development && v.signatureVerified
  }

  /** What verification guarantees of a manifest's identity. */
  predicate WellFormed(m: Manifest) {
    AppId(m.appId) && LowerHex(m.keyId, 32) && m.releaseCounter != 0
  }

  /** The range check made before a file is written, and before an installed file is compared. */
  predicate RangeOk(f: File, package: seq<byte>, payloadStart: nat)
    requires payloadStart <= |package|
  {
    f.offset <= |package| - payloadStart && f.size <= |package| - payloadStart - f.offset
  }

  function Content(f: File, package: seq<byte>, payloadStart: nat): seq<byte>
    requires payloadStart <= |package| && RangeOk(f, package, payloadStart)
  {
    package[payloadStart + f.offset..payloadStart + f.offset + f.size]
  }

  /** Every file lies within the package and has its own path. */
  predicate Stageable(v: Verification, package: seq<byte>) {
    var files := v.manifest.files;
    && v.payloadStart <= |package|
    && (forall i :: 0 <= i < |files| ==> RangeOk(files[i], package, v.payloadStart))
    && forall i, j :: 0 <= i < j < |files| ==> files[i].path != files[j].path
  }

  predicate ValidPaths(files: seq<File>) { forall i :: 0 <= i < |files| ==> ValidPath(files[i].path) }
}
