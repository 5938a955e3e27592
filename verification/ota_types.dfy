/** OTA value types and the pure version and size policy. */
module OtaTypes {

  type U16 = x: nat | x < 0x1_0000

  datatype FwVersion = FwVersion(major: U16, minor: U16, patch: U16) {
    predicate IsNewerThan(o: FwVersion) {
      if major != o.major then major > o.major
      else if minor != o.minor then minor > o.minor
      else patch > o.patch
    }
  }

  datatype OtaManifest = OtaManifest(url: string, version: FwVersion, sig: string, hwFamily: string,
                                     hwChannels: nat, sizeBytes: nat, allowDowngrade: bool, valid: bool)

  const SLOT_BYTES: nat := 0xA6000

  predicate VersionAccepted(incoming: FwVersion, current: FwVersion, allowDowngrade: bool) {
    allowDowngrade || incoming.IsNewerThan(current)
  }

  predicate SizeFits(bytes: nat) { 0 < bytes <= SLOT_BYTES }

  /** "Newer" is a strict total order: the one of the 48-bit number major.minor.patch. */
  function Rank(v: FwVersion): nat { (v.major * 0x1_0000 + v.minor) * 0x1_0000 + v.patch }

  lemma NewerIsRank(a: FwVersion, b: FwVersion)
    ensures a.IsNewerThan(b) <==> Rank(a) > Rank(b)
    ensures Rank(a) == Rank(b) <==> a == b
  {
  }

  /** Major before minor before patch. */
  lemma NewerExamples()
    ensures FwVersion(2, 0, 0).IsNewerThan(FwVersion(1, 9, 9)) && FwVersion(1, 2, 0).IsNewerThan(FwVersion(1, 1, 9))
    ensures FwVersion(1, 1, 2).IsNewerThan(FwVersion(1, 1, 1)) && !FwVersion(1, 1, 1).IsNewerThan(FwVersion(1, 1, 1))
  {
  }
}
