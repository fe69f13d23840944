/** The sparse file-expansion hook of the 3G-file test, which grows a tdb1
    file by truncating it to the new size and falls back to writing one
    trailing zero byte, and the test's traversal callback. */
module Tdb1Expand {

  import opened Wrappers
  import opened Bytes
  import opened Strings
  import opened Logging

  /** Linux's ENOSPC. */
  const ENOSPC: int := 28

  /** What ftruncate did: succeeded, or failed with the given errno. */
  datatype TruncateReply = Truncated | TruncateFailed(errno: int)

  /** What a one-byte pwrite did: returned 1, returned 0, or returned -1
      with the given errno. */
  datatype WriteReply = Wrote | WroteNothing | WriteFailed(errno: int)

  /** The file operations the hook issues, in order. */
  datatype FileOp = Truncate(length: nat) | WriteZero(offset: nat)

  /** The written result the code ends up with: the second write's only
      when the first wrote nothing. */
  function FinalWrite(first: WriteReply, second: WriteReply): (w: WriteReply)
    ensures first.WroteNothing? ==> w == second
    ensures !first.WroteNothing? ==> w == first
  {
    if first.WroteNothing? then second else first
  }

  /** The diagnostic "expand_file to %u failed (%s)" with the target size
      printed as the unsigned number it is. */
  function ExpandMessage(target: uint32, reason: string): (m: string)
    ensures |m| > 15 && m[..15] == EXPAND_LEAD
    ensures ReadNat(m[15..], 10) == Some((target, " failed (" + reason + ")"))
  {
    var tail := " failed (" + reason + ")";
    ReadNatDigits(target, tail, 10);
    AfterLead(NatDigits(target, 10), tail);
    EXPAND_LEAD + NatDigits(target, 10) + tail
  }

  /** The text of the diagnostic before the size. */
  const EXPAND_LEAD: string := "expand_file to "

  /** What follows the lead is the rest of the message. */
  lemma AfterLead(d: string, tail: string)
    ensures |EXPAND_LEAD + d + tail| == 15 + |d| + |tail|
    ensures (EXPAND_LEAD + d + tail)[..15] == EXPAND_LEAD
    ensures (EXPAND_LEAD + d + tail)[15..] == d + tail
  {
    assert |EXPAND_LEAD| == 15;
    assert (EXPAND_LEAD + d + tail) == EXPAND_LEAD + (d + tail);
  }

  /** The same diagnostic as the source writes it, with `%d`: the unsigned
      size is read back as a signed int. Below 2 GiB it is the corrected
      message. */
  function ExpandMessageAsWritten(target: uint32, reason: string): (m: string)
    ensures target < 0x8000_0000 ==> m == ExpandMessage(target, reason)
  {
    var signed := if target < 0x8000_0000 then target else target - TWO_TO_THE_32;
    EXPAND_LEAD + IntDigits(signed, 10) + " failed (" + reason + ")"
  }

  /** For every target of 2 GiB or more, such as the 3 GiB file the test
      grows, the diagnostic as written names a negative size, while the
      size itself starts with a digit. */
  lemma AsWrittenMessageShowsNegativeSize(target: uint32, reason: string)
    requires target >= 0x8000_0000
    ensures ExpandMessageAsWritten(target, reason)[15] == '-'
    ensures ExpandMessage(target, reason)[15] != '-'
  {
    var lead := EXPAND_LEAD;
    var tail := " failed (" + reason + ")";
    var d := NatDigits(target, 10);
    assert |lead| == 15;
    assert ExpandMessage(target, reason) == lead + d + tail;
    assert (lead + d + tail)[15] == d[0];
    assert IsDigit(d[0], 10);
    var n := NatDigits(TWO_TO_THE_32 - target, 10);
    assert ExpandMessageAsWritten(target, reason) == lead + ("-" + n) + tail;
    assert (lead + ("-" + n) + tail)[15] == '-';
  }

  /** The fields of struct tdb_context the hook touches, the errno it sets,
      and the file it grows (its length and the operations issued). */
  class TdbContext {
    var readOnly: bool
    var traverseRead: int
    var lastError: TdbError
    var errno: int
    var fileLength: nat
    var ops: seq<FileOp>

    constructor (readOnly: bool, fileLength: nat)
      ensures this.readOnly == readOnly && this.fileLength == fileLength
      ensures traverseRead == 0 && lastError == Success && errno == 0 && ops == []
    {
      this.readOnly := readOnly;
      this.fileLength := fileLength;
      traverseRead := 0;
      lastError := Success;
      errno := 0;
      ops := [];
    }

    /** One pwrite of a zero byte at `offset`, answered by `reply`. */
    method WriteZeroByte(offset: nat, reply: WriteReply) returns (written: int)
      modifies this
      ensures written == (if reply.Wrote? then 1 else if reply.WroteNothing? then 0 else -1)
      ensures ops == old(ops) + [WriteZero(offset)]
      ensures fileLength == (if reply.Wrote? && offset + 1 > old(fileLength) then offset + 1 else old(fileLength))
      ensures errno == (if reply.WriteFailed? then reply.errno else old(errno))
      ensures readOnly == old(readOnly) && traverseRead == old(traverseRead) && lastError == old(lastError)
    {
      ops := ops + [WriteZero(offset)];
      match reply {
        case Wrote =>
          if offset + 1 > fileLength {
            fileLength := offset + 1;
          }
          written := 1;
        case WroteNothing =>
          written := 0;
        case WriteFailed(e) =>
          errno := e;
          written := -1;
      }
    }

    /** tdb1_expand_file_sparse. The OS's answers to ftruncate and to the
        (at most two) pwrite calls are parameters, as are strerror and the
        log sink's strdup; the IO error is logged through the test's log
        sink. */
    method ExpandFileSparse(size: uint32, addition: uint32, truncate: TruncateReply,
                            first: WriteReply, second: WriteReply,
                            strerror: int -> string, strdupOk: bool, sink: TapLog)
      returns (r: int)
      modifies this, sink
      ensures readOnly == old(readOnly) && traverseRead == old(traverseRead)
      ensures r == 0 || r == -1
      // a read-only handle or a read traversal: refused, nothing touched
      ensures old(readOnly) || old(traverseRead) != 0 ==>
                r == -1 && lastError == ErrRdonly && ops == old(ops) &&
                fileLength == old(fileLength) && errno == old(errno) && sink.State() == old(sink.State())
      // truncated: done, no write
      ensures !old(readOnly) && old(traverseRead) == 0 && truncate.Truncated? ==>
                var target := Add32(size, addition);
                r == 0 && ops == old(ops) + [Truncate(target)] && fileLength == target &&
                lastError == old(lastError) && errno == old(errno) && sink.State() == old(sink.State())
      // truncation failed: one zero byte at target - 1, written again only after a zero-length write
      ensures !old(readOnly) && old(traverseRead) == 0 && truncate.TruncateFailed? ==>
                var target := Add32(size, addition);
                var offset := Sub32(target, 1);
                var final := FinalWrite(first, second);
                && ops == old(ops) + [Truncate(target), WriteZero(offset)] +
                          (if first.WroteNothing? then [WriteZero(offset)] else [])
                && (r == 0 <==> final.Wrote?)
                && errno == (if final.WriteFailed? then final.errno
                             else if final.WroteNothing? then ENOSPC
                             else truncate.errno)
                && (final.Wrote? ==>
                      fileLength == (if offset + 1 > old(fileLength) then offset + 1 else old(fileLength)) &&
                      lastError == old(lastError) && sink.State() == old(sink.State()))
                && (!final.Wrote? ==>
                      fileLength == old(fileLength) && lastError == ErrIo &&
                      sink.State() == Step(old(sink.State()), LogCall(ExpandMessage(target, strerror(errno)), strdupOk)))
      // on success the file reaches the requested size; on failure it is as it was
      ensures r == 0 ==> fileLength >= Add32(size, addition)
      ensures r != 0 ==> fileLength == old(fileLength)
    {
      if readOnly || traverseRead != 0 {
        lastError := ErrRdonly;
        return -1;
      }
      var target := Add32(size, addition);
      ops := ops + [Truncate(target)];
      match truncate {
        case Truncated =>
          fileLength := target;
          return 0;
        case TruncateFailed(e) =>
          errno := e;
      }
      var offset := Sub32(target, 1);
      var written := WriteZeroByte(offset, first);
      if written == 0 {
        written := WriteZeroByte(offset, second);
      }
      if written == 0 {
        errno := ENOSPC;
      }
      if written != 1 {
        sink.Log(LogError, ErrIo, ExpandMessage(target, strerror(errno)), strdupOk);
        lastError := ErrIo;
        return -1;
      }
      return 0;
    }
  }

  /** "hi" as bytes. */
  const HI: seq<bv8> := [0x68, 0x69]

  /** memcmp(a, b, n) == 0, where reading past either buffer counts as a
      mismatch. */
  predicate MemEq(a: seq<bv8>, b: seq<bv8>, n: nat)
  {
    n <= |a| && n <= |b| && a[..n] == b[..n]
  }

  /** The four ok1 checks of test_traverse, in order. */
  function TestTraverse(key: seq<bv8>, data: seq<bv8>, wanted: seq<bv8>): (checks: seq<bool>)
    ensures |checks| == 4
    ensures (forall i :: 0 <= i < 4 ==> checks[i]) <==> key == HI && data == wanted
    ensures checks[0] <==> |key| == 2
    ensures checks[2] <==> |data| == |wanted|
  {
    var c := [|key| == |HI|, MemEq(key, HI, |HI|), |data| == |wanted|, MemEq(data, wanted, |data|)];
    assert key == HI ==> key[..2] == HI[..2];
    assert data == wanted ==> data[..|data|] == wanted[..|data|];
    assert c[0] && c[1] ==> key == key[..2];
    assert c[2] && c[3] ==> data == data[..|data|] && wanted == wanted[..|data|];
    c
  }
}
