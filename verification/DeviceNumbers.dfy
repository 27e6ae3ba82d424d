/** metric/system/cgroup/cgv2/io_helper_linux.go: Linux device numbers and the search under /dev. */
module DeviceNumbers {
  import opened Wrappers

  function Major(devID: bv64): bv64 {
    ((devID & 0xfffff00000000000) >> 32) | ((devID & 0x00000000000fff00) >> 8)
  }

  function Minor(devID: bv64): bv64 {
    ((devID & 0x00000000000000ff) >> 0) | ((devID & 0x00000ffffff00000) >> 12)
  }

  /** gnu_dev_makedev of glibc's bits/sysmacros.h. */
  function Makedev(major: bv64, minor: bv64): bv64 {
    ((major & 0x00000fff) << 8) | ((major & 0xfffff000) << 32)
    | ((minor & 0x000000ff) << 0) | ((minor & 0xffffff00) << 12)
  }

  const LOW_32: bv64 := 0xffffffff

  predicate Is32Bit(n: bv64) {
    n & LOW_32 == n
  }

  /** Decoding then encoding gives every 64-bit id back, and decoding yields 32-bit numbers. */
  lemma DecodeEncode(devID: bv64)
    ensures Makedev(Major(devID), Minor(devID)) == devID
    ensures Is32Bit(Major(devID)) && Is32Bit(Minor(devID))
  {
  }

  /** Encoding then decoding gives every pair of 32-bit numbers back. */
  lemma EncodeDecode(major: bv64, minor: bv64)
    requires Is32Bit(major) && Is32Bit(minor)
    ensures Major(Makedev(major, minor)) == major
    ensures Minor(Makedev(major, minor)) == minor
  {
  }

  /** An id decodes to a pair exactly when it is that pair's number. */
  lemma DecodesExactly(devID: bv64, major: bv64, minor: bv64)
    ensures Major(devID) == major && Minor(devID) == minor <==>
      Is32Bit(major) && Is32Bit(minor) && devID == Makedev(major, minor)
  {
    DecodeEncode(devID);
    if Is32Bit(major) && Is32Bit(minor) {
      EncodeDecode(major, minor);
    }
  }

  /** An entry of /dev: rdev is None when the file information cannot be had. */
  datatype Entry =
    | Directory(name: string)
    | BlockDevice(name: string, rdev: Option<bv64>)
    | OtherFile(name: string)

  /** The entry is a block device carrying exactly the number of the given pair. */
  predicate HasNumber(e: Entry, major: bv64, minor: bv64) {
    e.BlockDevice? && Is32Bit(major) && Is32Bit(minor) && e.rdev == Some(Makedev(major, minor))
  }

  ghost predicate IsLastMatch(entries: seq<Entry>, i: int, major: bv64, minor: bv64) {
    && 0 <= i < |entries| && HasNumber(entries[i], major, minor)
    && (forall j :: i < j < |entries| ==> !HasNumber(entries[j], major, minor))
  }

  /** The walk over the entries of /dev in order; subdirectories are skipped whole. A name is
      found exactly when some block device has the pair's number, and it is the last one's. */
  method FetchDeviceName(entries: seq<Entry>, major: bv64, minor: bv64) returns (found: bool, devName: string)
    ensures found <==> exists e :: e in entries && HasNumber(e, major, minor)
    ensures found ==> exists i :: IsLastMatch(entries, i, major, minor) && devName == entries[i].name
    ensures !found ==> devName == ""
  {
    found, devName := false, "";
    for k := 0 to |entries|
      invariant !found ==> devName == "" && forall j :: 0 <= j < k ==> !HasNumber(entries[j], major, minor)
      invariant found ==> exists i :: IsLastMatch(entries[..k], i, major, minor) && devName == entries[i].name
    {
      var e := entries[k];
      forall i | IsLastMatch(entries[..k], i, major, minor) && !HasNumber(e, major, minor)
        ensures IsLastMatch(entries[..k + 1], i, major, minor)
      {
      }
      if e.BlockDevice? && e.rdev.Some? {
        var curMajor, curMinor := Major(e.rdev.value), Minor(e.rdev.value);
        DecodesExactly(e.rdev.value, major, minor);
        if curMajor == major && curMinor == minor {
          found := true;
          devName := e.name;
          assert IsLastMatch(entries[..k + 1], k, major, minor);
        }
      }
    }
    assert entries[..|entries|] == entries;
  }
}
