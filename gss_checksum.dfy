/** The authenticator checksum of the Kerberos GSS-API mechanism, as Samba
    builds it for a delegated ticket (section 1.1.1 of RFC 1964, and
    section 4.1.1 of RFC 4121): Lgth (4 bytes, the value 16), Bnd (16 zero
    bytes for "no channel bindings"), Flags (4 bytes), then, only when a
    KRB_CRED is delegated, DlgOpt (2 bytes, the value 1), Dlgth (2 bytes)
    and Deleg. All integers are little-endian. */
module GssChecksum {

  import opened Wrappers
  import opened Bytes

  const GSSAPI_BNDLENGTH: nat := 16
  const GSSAPI_CHECKSUM_SIZE: nat := 4 + GSSAPI_BNDLENGTH + 4

  /** Linux's EINVAL and ENOMEM. */
  const EINVAL: int := 22
  const ENOMEM: int := 12

  function Zeros(n: nat): (z: seq<uint8>)
    ensures |z| == n && forall i :: 0 <= i < n ==> z[i] == 0
  {
    seq(n, i => 0)
  }

  /** The checksum field for the given delegation data and flags. */
  function ChecksumBytes(deleg: seq<uint8>, gssFlags: uint32): (b: seq<uint8>)
    ensures |deleg| == 0 ==> |b| == GSSAPI_CHECKSUM_SIZE
    ensures |deleg| > 0 ==> |b| == GSSAPI_CHECKSUM_SIZE + 4 + |deleg|
  {
    Le32(GSSAPI_BNDLENGTH) + Zeros(GSSAPI_BNDLENGTH) + Le32(gssFlags) +
    (if |deleg| > 0 then Le16(1) + Le16(|deleg| % TWO_TO_THE_16) + deleg else [])
  }

  /** Reads a checksum field back: the flags and the delegated bytes, or
      None when the field is malformed or Dlgth disagrees with the rest. */
  function ParseChecksum(b: seq<uint8>): Option<(uint32, seq<uint8>)>
  {
    if |b| < GSSAPI_CHECKSUM_SIZE || ReadLe32(b) != GSSAPI_BNDLENGTH || b[4..20] != Zeros(16) then None
    else
      var flags := ReadLe32(b[20..]);
      if |b| == GSSAPI_CHECKSUM_SIZE then Some((flags, []))
      else if |b| >= 28 && ReadLe16(b[24..]) == 1 && ReadLe16(b[26..]) == |b| - 28 && |b| > 28 then
        Some((flags, b[28..]))
      else None
  }

  /** The fixed 24 bytes read back as Lgth 16, the zero Bnd and the flags,
      whatever follows them. */
  lemma HeaderReadsBack(gssFlags: uint32, rest: seq<uint8>)
    ensures var b := Le32(GSSAPI_BNDLENGTH) + Zeros(GSSAPI_BNDLENGTH) + Le32(gssFlags) + rest;
            |b| == GSSAPI_CHECKSUM_SIZE + |rest| && ReadLe32(b) == GSSAPI_BNDLENGTH &&
            b[4..20] == Zeros(16) && ReadLe32(b[20..]) == gssFlags && b[24..] == rest
  {
    var head := Le32(GSSAPI_BNDLENGTH) + Zeros(GSSAPI_BNDLENGTH) + Le32(gssFlags);
    var b := head + rest;
    assert b[..4] == Le32(GSSAPI_BNDLENGTH);
    Le32RoundTrip(GSSAPI_BNDLENGTH);
    assert b[4..20] == Zeros(16);
    assert b[20..][..4] == Le32(gssFlags);
    Le32RoundTrip(gssFlags);
    assert b[24..] == rest;
  }

  /** The delegation part reads back as DlgOpt 1, Dlgth and the data. */
  lemma DelegationReadsBack(deleg: seq<uint8>)
    requires |deleg| < TWO_TO_THE_16
    ensures var t := Le16(1) + Le16(|deleg| % TWO_TO_THE_16) + deleg;
            |t| == 4 + |deleg| && ReadLe16(t) == 1 && ReadLe16(t[2..]) == |deleg| && t[4..] == deleg
  {
    var t := Le16(1) + Le16(|deleg| % TWO_TO_THE_16) + deleg;
    assert t[..2] == Le16(1);
    assert t[2..][..2] == Le16(|deleg|);
    Le16RoundTrip(1);
    Le16RoundTrip(|deleg|);
  }

  /** A field whose delegation data fits the 16-bit Dlgth reads back as the
      flags and data it was built from. */
  lemma ParseChecksumRoundTrip(deleg: seq<uint8>, gssFlags: uint32)
    requires |deleg| < TWO_TO_THE_16
    ensures ParseChecksum(ChecksumBytes(deleg, gssFlags)) == Some((gssFlags, deleg))
  {
    var rest := if |deleg| > 0 then Le16(1) + Le16(|deleg| % TWO_TO_THE_16) + deleg else [];
    var b := ChecksumBytes(deleg, gssFlags);
    assert b == Le32(GSSAPI_BNDLENGTH) + Zeros(GSSAPI_BNDLENGTH) + Le32(gssFlags) + rest;
    HeaderReadsBack(gssFlags, rest);
    if |deleg| > 0 {
      DelegationReadsBack(deleg);
      assert b[24..][..2] == rest[..2] && b[26..][..2] == rest[2..][..2];
      assert b[28..] == rest[4..];
    }
  }

  /** Two delegations or flag words that differ give different fields, as
      long as Dlgth does not truncate. */
  lemma ChecksumBytesInjective(d1: seq<uint8>, f1: uint32, d2: seq<uint8>, f2: uint32)
    requires |d1| < TWO_TO_THE_16 && |d2| < TWO_TO_THE_16
    requires ChecksumBytes(d1, f1) == ChecksumBytes(d2, f2)
    ensures d1 == d2 && f1 == f2
  {
    ParseChecksumRoundTrip(d1, f1);
    ParseChecksumRoundTrip(d2, f2);
  }

  /** A krb5_data: a length and the bytes its data pointer refers to. */
  class Krb5Data {
    var length: uint32
    var data: seq<uint8>

    predicate Valid()
      reads this
    {
      |data| == length
    }

    constructor (bytes: seq<uint8>)
      requires |bytes| < TWO_TO_THE_32
      ensures Valid() && data == bytes
    {
      data := bytes;
      length := |bytes|;
    }
  }

  /** SIVAL(buf, off, x). */
  method PutLe32(buf: array<uint8>, off: nat, x: uint32)
    requires off + 4 <= buf.Length
    modifies buf
    ensures buf[..] == old(buf[..])[..off] + Le32(x) + old(buf[..])[off + 4..]
  {
    var b := Le32(x);
    buf[off], buf[off + 1], buf[off + 2], buf[off + 3] := b[0], b[1], b[2], b[3];
  }

  /** SSVAL(buf, off, x): the low 16 bits of x. */
  method PutLe16(buf: array<uint8>, off: nat, x: int)
    requires off + 2 <= buf.Length
    modifies buf
    ensures buf[..] == old(buf[..])[..off] + Le16(x % TWO_TO_THE_16) + old(buf[..])[off + 2..]
  {
    var b := Le16(x % TWO_TO_THE_16);
    buf[off], buf[off + 1] := b[0], b[1];
  }

  /** The fixed part of the field: Lgth, the zero Bnd and the flags, written
      from offset 0 of a zero-filled buffer. */
  method PutHeader(cksum: array<uint8>, gssFlags: uint32)
    requires cksum.Length >= GSSAPI_CHECKSUM_SIZE
    modifies cksum
    ensures cksum[..GSSAPI_CHECKSUM_SIZE] == Le32(GSSAPI_BNDLENGTH) + Zeros(GSSAPI_BNDLENGTH) + Le32(gssFlags)
    ensures cksum[GSSAPI_CHECKSUM_SIZE..] == old(cksum[GSSAPI_CHECKSUM_SIZE..])
  {
    PutLe32(cksum, 0, GSSAPI_BNDLENGTH);
    ghost var lgth := cksum[..];
    forall i | 4 <= i < 4 + GSSAPI_BNDLENGTH {
      cksum[i] := 0;
    }
    ghost var bnd := cksum[..];
    assert bnd[..4] == lgth[..4] == Le32(GSSAPI_BNDLENGTH);
    assert bnd[4..20] == Zeros(GSSAPI_BNDLENGTH);
    PutLe32(cksum, 20, gssFlags);
    assert cksum[..20] == bnd[..20];
    assert cksum[..4] == bnd[..4];
    assert cksum[4..20] == bnd[4..20];
    assert cksum[20..24] == Le32(gssFlags);
    assert cksum[..24] == cksum[..4] + cksum[4..20] + cksum[20..24];
  }

  /** The delegation part: DlgOpt 1, Dlgth and the delegated bytes, written
      from offset 24. */
  method PutDelegation(cksum: array<uint8>, orig: seq<uint8>)
    requires cksum.Length == GSSAPI_CHECKSUM_SIZE + 4 + |orig|
    modifies cksum
    ensures cksum[..GSSAPI_CHECKSUM_SIZE] == old(cksum[..GSSAPI_CHECKSUM_SIZE])
    ensures cksum[GSSAPI_CHECKSUM_SIZE..] == Le16(1) + Le16(|orig| % TWO_TO_THE_16) + orig
  {
    PutLe16(cksum, 24, 1);
    PutLe16(cksum, 26, |orig|);
    ghost var opts := cksum[..];
    assert opts[24..26] == Le16(1);
    assert opts[26..28] == Le16(|orig| % TWO_TO_THE_16);
    forall i | 0 <= i < |orig| {
      cksum[28 + i] := orig[i];
    }
    assert cksum[..28] == opts[..28];
    assert cksum[24..26] == opts[24..26];
    assert cksum[26..28] == opts[26..28];
    assert cksum[28..] == orig;
    assert cksum[24..] == cksum[24..26] + cksum[26..28] + cksum[28..];
  }

  /** The malloc'd and filled checksum buffer. */
  method FillChecksum(orig: seq<uint8>, gssFlags: uint32, total: nat) returns (cksum: array<uint8>)
    requires total == |ChecksumBytes(orig, gssFlags)|
    ensures fresh(cksum)
    ensures cksum[..] == ChecksumBytes(orig, gssFlags)
  {
    cksum := new uint8[total](i => 0);
    PutHeader(cksum, gssFlags);
    if |orig| != 0 {
      PutDelegation(cksum, orig);
    }
    assert cksum[..] == cksum[..GSSAPI_CHECKSUM_SIZE] + cksum[GSSAPI_CHECKSUM_SIZE..];
  }

  /** create_gss_checksum: replaces inData by the checksum field carrying
      it as the delegated ticket. `mallocOk` is the allocator's answer. */
  method CreateGssChecksum(inData: Krb5Data, gssFlags: uint32, mallocOk: bool) returns (ret: int)
    requires inData.Valid()
    modifies inData
    ensures inData.Valid()
    // the total size does not fit an unsigned int
    ensures old(inData.length) > 0 && GSSAPI_CHECKSUM_SIZE + 4 + old(inData.length) >= TWO_TO_THE_32 ==>
              ret == EINVAL && inData.data == old(inData.data)
    ensures ret == EINVAL ==> old(inData.length) > 0 && GSSAPI_CHECKSUM_SIZE + 4 + old(inData.length) >= TWO_TO_THE_32
    // the allocation failed
    ensures ret == ENOMEM ==> !mallocOk && inData.data == old(inData.data)
    ensures ret != EINVAL && ret != ENOMEM ==> ret == 0
    ensures ret == 0 ==> inData.data == ChecksumBytes(old(inData.data), gssFlags)
    ensures !mallocOk ==> ret != 0
    ensures mallocOk && ret != EINVAL ==> ret == 0
  {
    var origLength := inData.length;
    var baseCksumSize := GSSAPI_CHECKSUM_SIZE;
    if origLength != 0 {
      baseCksumSize := baseCksumSize + 4;
    }
    if Add32(baseCksumSize, origLength) < baseCksumSize {
      return EINVAL;
    }
    if !mallocOk {
      return ENOMEM;
    }
    var total := baseCksumSize + origLength;
    var cksum := FillChecksum(inData.data, gssFlags, total);
    if origLength != 0 {
      inData.data := [];
      inData.length := 0;
    }
    inData.data := cksum[..];
    inData.length := total;
    return 0;
  }
}
