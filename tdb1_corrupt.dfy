/** The single-bit corruption test of the tdb1 integrity checker: its
    key/value validator, the bit flipper, the keys it stores, the count of
    verifiable bytes it expects, and the flip-check-restore loop. */
module Tdb1Corrupt {

  import opened Bytes

  /** "hello" and "world" as bytes. */
  const HELLO: seq<bv8> := [0x68, 0x65, 0x6c, 0x6c, 0x6f]
  const WORLD: seq<bv8> := [0x77, 0x6f, 0x72, 0x6c, 0x64]

  const CHAR_BIT: nat := 8

  /** The key half of `check`: no longer than "hello" and equal to its
      first |key| bytes. */
  function KeyAccepted(key: seq<bv8>): (r: bool)
    ensures r <==> exists rest :: key + rest == HELLO
  {
    if |key| > |HELLO| then false
    else
      assert key + HELLO[|key|..] == HELLO <==> key == HELLO[..|key|];
      key == HELLO[..|key|]
  }

  /** The keys the validator accepts are exactly the six prefixes of
      "hello", the empty key included. */
  lemma AcceptedKeys(key: seq<bv8>)
    ensures KeyAccepted(key) <==> key in {HELLO[..0], HELLO[..1], HELLO[..2], HELLO[..3], HELLO[..4], HELLO}
  {
    if KeyAccepted(key) {
      assert key == HELLO[..|key|];
      assert HELLO[..5] == HELLO;
    }
  }

  /** A record tdb_check hands to the validator. */
  datatype Record = Record(key: seq<bv8>, data: seq<bv8>)

  /** check accepts a record: its key is a prefix of "hello" and its data
      is "world". */
  predicate Accepted(rec: Record)
  {
    KeyAccepted(rec.key) && rec.data == WORLD
  }

  /** The accumulated key and data sizes, unsigned ints that wrap. */
  datatype Sizes = Sizes(keys: uint32, data: uint32)

  /** What one accepted record adds to the sizes. */
  function Accumulate(s: Sizes, key: seq<bv8>, data: seq<bv8>): Sizes
  {
    Sizes(Add32(s.keys, |key|), Add32(s.data, |data|))
  }

  /** check: the validator tdb_check calls on every live record. It accepts
      (returns 0) iff the key is a prefix of "hello" and the data is
      "world", and then adds the record's sizes to sizes[0] and sizes[1];
      a rejected record (-1) leaves sizes alone. */
  method Check(key: seq<bv8>, data: seq<bv8>, sizes: array<uint32>) returns (r: int)
    requires sizes.Length >= 2
    modifies sizes
    ensures r == 0 || r == -1
    ensures r == 0 <==> KeyAccepted(key) && data == WORLD
    ensures r == 0 ==> Sizes(sizes[0], sizes[1]) == Accumulate(Sizes(old(sizes[0]), old(sizes[1])), key, data)
    ensures forall i :: 0 <= i < sizes.Length && i >= 2 ==> sizes[i] == old(sizes[i])
    ensures r != 0 ==> sizes[..] == old(sizes[..])
    ensures Sizes(sizes[0], sizes[1]) == CheckAll(Sizes(old(sizes[0]), old(sizes[1])), [Record(key, data)])
  {
    if |key| > |HELLO| {
      return -1;
    }
    if key != HELLO[..|key|] {
      return -1;
    }
    if |data| != |WORLD| {
      return -1;
    }
    if data != WORLD {
      return -1;
    }
    sizes[0] := Add32(sizes[0], |key|);
    sizes[1] := Add32(sizes[1], |data|);
    return 0;
  }

  /** The mask tdb1_flip_bit XORs in: 1 << (bit % CHAR_BIT). */
  function Mask(bit: nat): (m: bv8)
    ensures m != 0
  {
    (1 as bv8) << (bit % CHAR_BIT)
  }

  /** The buffer with bit `bit` flipped: byte bit / CHAR_BIT XORed with the
      mask. */
  function Flipped(s: seq<bv8>, bit: nat): (r: seq<bv8>)
    requires bit / CHAR_BIT < |s|
    ensures |r| == |s|
  {
    s[bit / CHAR_BIT := s[bit / CHAR_BIT] ^ Mask(bit)]
  }

  /** tdb1_flip_bit on the mapped file (the pread/pwrite fallback does the
      same to the file's bytes). */
  method FlipBit(map_: array<bv8>, bit: nat)
    requires bit / CHAR_BIT < map_.Length
    modifies map_
    ensures map_[..] == Flipped(old(map_[..]), bit)
  {
    var off := bit / CHAR_BIT;
    map_[off] := map_[off] ^ Mask(bit);
  }

  /** A flip changes exactly one byte, and that byte really changes. */
  lemma FlipChangesOneByte(s: seq<bv8>, bit: nat)
    requires bit / CHAR_BIT < |s|
    ensures forall j :: 0 <= j < |s| && j != bit / CHAR_BIT ==> Flipped(s, bit)[j] == s[j]
    ensures Flipped(s, bit)[bit / CHAR_BIT] != s[bit / CHAR_BIT]
  {
    var b, m := s[bit / CHAR_BIT], Mask(bit);
    assert (b ^ m) ^ m == b;
  }

  /** Flipping the same bit twice restores the buffer: the test loop relies
      on it to start every trial from the uncorrupted file. */
  lemma FlipTwiceRestores(s: seq<bv8>, bit: nat)
    requires bit / CHAR_BIT < |s|
    ensures Flipped(Flipped(s, bit), bit) == s
  {
    var b, m := s[bit / CHAR_BIT], Mask(bit);
    assert (b ^ m) ^ m == b;
  }

  /** Distinct bits give distinct corruptions. */
  lemma FlipsAreDistinct(s: seq<bv8>, b1: nat, b2: nat)
    requires b1 / CHAR_BIT < |s| && b2 / CHAR_BIT < |s| && b1 != b2
    ensures Flipped(s, b1) != Flipped(s, b2)
  {
    var o1, o2 := b1 / CHAR_BIT, b2 / CHAR_BIT;
    if o1 == o2 {
      assert b1 % CHAR_BIT != b2 % CHAR_BIT;
      MasksDiffer(b1 % CHAR_BIT, b2 % CHAR_BIT);
      var x := s[o1];
      assert Mask(b1) != Mask(b2);
      assert (x ^ Mask(b1)) ^ x == Mask(b1);
      assert (x ^ Mask(b2)) ^ x == Mask(b2);
      assert Flipped(s, b1)[o1] != Flipped(s, b2)[o1];
    } else {
      FlipChangesOneByte(s, b1);
      FlipChangesOneByte(s, b2);
      assert Flipped(s, b1)[o1] != Flipped(s, b2)[o1];
    }
  }

  lemma MasksDiffer(k1: nat, k2: nat)
    requires k1 < CHAR_BIT && k2 < CHAR_BIT && k1 != k2
    ensures (1 as bv8) << k1 != (1 as bv8) << k2
  {
  }

  /** The first loop of check_test: the keys "h", "he", ..., "hello" are
      stored with data "world" while their sizes are summed. */
  method InsertKeys() returns (ksize: uint32, dsize: uint32, stored: seq<Record>)
    ensures |stored| == 5
    ensures forall k :: 0 <= k < 5 ==> stored[k] == Record(HELLO[..k + 1], WORLD)
    ensures ksize == 1 + 2 + 3 + 4 + 5 == 15
    ensures dsize == 5 * |WORLD| == 25
  {
    ksize, dsize := 0, 0;
    stored := [];
    var len := 1;
    while len <= 5
      invariant 1 <= len <= 6
      invariant |stored| == len - 1
      invariant forall k :: 0 <= k < len - 1 ==> stored[k] == Record(HELLO[..k + 1], WORLD)
      invariant ksize == (len - 1) * len / 2
      invariant dsize == (len - 1) * |WORLD|
    {
      ksize := ksize + len;
      dsize := dsize + |WORLD|;
      stored := stored + [Record(HELLO[..len], WORLD)];
      len := len + 1;
    }
  }

  /** The validator over a whole traversal: each record is checked in turn
      and the accepted ones accumulate. */
  function CheckAll(s: Sizes, records: seq<Record>): (r: Sizes)
    // a traversal in which check refuses every record leaves the sizes alone
    ensures (forall i :: 0 <= i < |records| ==> !Accepted(records[i])) ==> r == s
    decreases |records|
  {
    if records == [] then s
    else
      var next := if Accepted(records[0]) then Accumulate(s, records[0].key, records[0].data) else s;
      CheckAll(next, records[1..])
  }

  /** A traversal that visits one more record ends where one more call of
      check, started from the sizes so far, ends. */
  lemma {:induction false} CheckAllAppend(s: Sizes, records: seq<Record>, rec: Record)
    ensures CheckAll(s, records + [rec]) == CheckAll(CheckAll(s, records), [rec])
    decreases |records|
  {
    if records == [] {
      assert [] + [rec] == [rec];
    } else {
      assert (records + [rec])[0] == records[0];
      assert (records + [rec])[1..] == records[1..] + [rec];
      var next := if Accepted(records[0]) then Accumulate(s, records[0].key, records[0].data) else s;
      CheckAllAppend(next, records[1..], rec);
    }
  }

  /** A refused record is skipped: the traversal goes on as if it were not
      there, wherever it sits. */
  lemma {:induction false} CheckAllSkipsRefused(s: Sizes, front: seq<Record>, rec: Record, back: seq<Record>)
    requires !Accepted(rec)
    ensures CheckAll(s, front + [rec] + back) == CheckAll(s, front + back)
    decreases |front|
  {
    if front == [] {
      assert front + [rec] + back == [rec] + back;
      assert ([rec] + back)[1..] == back;
      assert front + back == back;
    } else {
      assert (front + [rec] + back)[0] == front[0] && (front + back)[0] == front[0];
      assert (front + [rec] + back)[1..] == front[1..] + [rec] + back;
      assert (front + back)[1..] == front[1..] + back;
      var next := if Accepted(front[0]) then Accumulate(s, front[0].key, front[0].data) else s;
      CheckAllSkipsRefused(next, front[1..], rec, back);
    }
  }

  /** On the uncorrupted database every stored record passes the validator
      and the sizes add up to exactly (ksize, dsize), so a trial counts only
      when the flip is noticed. */
  lemma CleanDatabaseMatchesExpectedSizes(stored: seq<Record>)
    requires |stored| == 5 && forall k :: 0 <= k < 5 ==> stored[k] == Record(HELLO[..k + 1], WORLD)
    ensures CheckAll(Sizes(0, 0), stored) == Sizes(15, 25)
  {
    var r1, r2, r3, r4 := stored[1..], stored[2..], stored[3..], stored[4..];
    assert r1[1..] == r2 && r2[1..] == r3 && r3[1..] == r4 && r4[1..] == [];
    StoredRecordAccepted(stored, 0);
    StoredRecordAccepted(stored, 1);
    StoredRecordAccepted(stored, 2);
    StoredRecordAccepted(stored, 3);
    StoredRecordAccepted(stored, 4);
    CheckAllStep(Sizes(0, 0), stored, 1);
    CheckAllStep(Sizes(1, 5), r1, 2);
    CheckAllStep(Sizes(3, 10), r2, 3);
    CheckAllStep(Sizes(6, 15), r3, 4);
    CheckAllStep(Sizes(10, 20), r4, 5);
  }

  /** The k-th stored record, "hello"[..k+1] with "world", passes check. */
  lemma StoredRecordAccepted(stored: seq<Record>, k: nat)
    requires k < 5 && k < |stored| && stored[k] == Record(HELLO[..k + 1], WORLD)
    ensures Accepted(stored[k]) && |stored[k].key| == k + 1
  {
    assert stored[k].key + HELLO[k + 1..] == HELLO;
  }

  /** One accepted record with a key of length n: the traversal goes on with
      its sizes added. */
  lemma CheckAllStep(s: Sizes, records: seq<Record>, n: nat)
    requires records != [] && Accepted(records[0]) && |records[0].key| == n
    requires s.keys + n < TWO_TO_THE_32 && s.data + |WORLD| < TWO_TO_THE_32
    ensures CheckAll(s, records) == CheckAll(Sizes(s.keys + n, s.data + |WORLD|), records[1..])
  {
    var rec := records[0];
    assert Accumulate(s, rec.key, rec.data) == Sizes(s.keys + n, s.data + |WORLD|) by {
      assert |rec.data| == |WORLD|;
    }
  }

  /** The sizes of the tdb1 file layout the expected count is built from:
      strlen(TDB_MAGIC_FOOD), sizeof(uint32_t), sizeof(tdb1_off_t) and
      sizeof(struct tdb1_record). */
  datatype Layout = Layout(magicLen: nat, u32: nat, off: nat, record: nat)

  /** The number of bytes whose corruption the checker must notice: the
      header (magic with its terminator, two u32 fields, two offsets, two
      more u32 fields), the free-list head and two hash-chain heads, the five
      record headers with their tailers, the free block except its stale
      key length, data length and hash, and the keys and data the validator
      compares. */
  function Verifiable(l: Layout, ksize: nat, dsize: nat): (v: nat)
    requires l.record >= 3 * l.u32
    ensures v >= ksize + dsize + 5 * (l.record + l.u32)
  {
    (l.magicLen + 1 + 2 * l.u32 + 2 * l.off + 2 * l.u32)
    + 3 * l.off
    + 5 * (l.record + l.u32)
    + (l.record - 3 * l.u32 + l.u32)
    + (ksize + dsize)
  }

  /** tdb1's layout: TDB_MAGIC_FOOD is "TDB file\n", offsets are 32-bit and
      a record header holds six 32-bit fields. */
  const TDB1_LAYOUT: Layout := Layout(9, 4, 4, 24)

  /** For the five stored records the test expects 242 verifiable bytes,
      hence 1936 corrupting bit flips. */
  lemma Tdb1ExpectedCount()
    ensures Verifiable(TDB1_LAYOUT, 15, 25) == 242
    ensures Verifiable(TDB1_LAYOUT, 15, 25) * CHAR_BIT == 1936
  {
  }

  /** What tdb_check reports for one corrupted image: whether it returned
      TDB_ERR_CORRUPT, and the sizes the validator accumulated. */
  datatype Probe = Probe(corruptError: bool, sizes: Sizes)

  /** A trial counts as detected when tdb_check reports corruption or the
      validator saw different keys or data than were stored. */
  predicate Detected(p: Probe, ksize: uint32, dsize: uint32)
  {
    p.corruptError || p.sizes.keys != ksize || p.sizes.data != dsize
  }

  /** The number of detected trials among the first n bits. */
  function CountDetected(s: seq<bv8>, check: seq<bv8> -> Probe, ksize: uint32, dsize: uint32, n: nat): nat
    requires n <= |s| * CHAR_BIT
  {
    if n == 0 then 0
    else CountDetected(s, check, ksize, dsize, n - 1) +
         (if Detected(check(Flipped(s, n - 1)), ksize, dsize) then 1 else 0)
  }

  /** The second loop of check_test: flip each bit of the file in turn, run
      the checker on the corrupted image, count the detections, and flip the
      bit back. `check` stands for tdb_check with the validator. */
  method FlipAndCheckAll(map_: array<bv8>, check: seq<bv8> -> Probe, ksize: uint32, dsize: uint32)
    returns (corrupt: nat)
    modifies map_
    ensures map_[..] == old(map_[..])
    ensures corrupt == CountDetected(old(map_[..]), check, ksize, dsize, map_.Length * CHAR_BIT)
  {
    var i := 0;
    corrupt := 0;
    while i < map_.Length * CHAR_BIT
      invariant 0 <= i <= map_.Length * CHAR_BIT
      invariant map_[..] == old(map_[..])
      invariant corrupt == CountDetected(old(map_[..]), check, ksize, dsize, i)
    {
      var original := map_[..];
      FlipBit(map_, i);
      var p := check(map_[..]);
      if p.corruptError {
        corrupt := corrupt + 1;
      } else if p.sizes.keys != ksize || p.sizes.data != dsize {
        corrupt := corrupt + 1;
      }
      FlipBit(map_, i);
      FlipTwiceRestores(original, i);
      i := i + 1;
    }
  }

  /** How many of the bytes 0 .. n-1 are in the set. */
  function CountIn(bytes: set<nat>, n: nat): nat
  {
    if n == 0 then 0 else CountIn(bytes, n - 1) + (if n - 1 in bytes then 1 else 0)
  }

  /** The checker notices a flip exactly when it lands in a verifiable
      byte. */
  predicate DetectsExactly(s: seq<bv8>, check: seq<bv8> -> Probe, ksize: uint32, dsize: uint32, verifiable: set<nat>)
  {
    forall i :: 0 <= i < |s| * CHAR_BIT ==>
      (Detected(check(Flipped(s, i)), ksize, dsize) <==> i / CHAR_BIT in verifiable)
  }

  /** When every bit of [base, base + k) is detected exactly when inV
      holds, those bits add k detections if inV holds and none otherwise. */
  lemma {:induction false} RunContributes(s: seq<bv8>, check: seq<bv8> -> Probe, ksize: uint32, dsize: uint32,
                                          base: nat, k: nat, inV: bool)
    requires base + k <= |s| * CHAR_BIT
    requires forall j :: base <= j < base + k ==> (Detected(check(Flipped(s, j)), ksize, dsize) <==> inV)
    ensures CountDetected(s, check, ksize, dsize, base + k) ==
            CountDetected(s, check, ksize, dsize, base) + (if inV then k else 0)
  {
    if k > 0 {
      RunContributes(s, check, ksize, dsize, base, k - 1, inV);
      CountStep(s, check, ksize, dsize, base + (k - 1));
    }
  }

  /** If the checker notices a flip exactly when it lands in a verifiable
      byte, the count of detected trials is CHAR_BIT times the number of
      verifiable bytes: the literal equality the test asserts. */
  lemma {:induction false} DetectionCountIsEightPerByte(
    s: seq<bv8>, check: seq<bv8> -> Probe, ksize: uint32, dsize: uint32, verifiable: set<nat>, m: nat)
    requires m <= |s|
    requires DetectsExactly(s, check, ksize, dsize, verifiable)
    ensures CountDetected(s, check, ksize, dsize, m * CHAR_BIT) == CHAR_BIT * CountIn(verifiable, m)
  {
    if m > 0 {
      DetectionCountIsEightPerByte(s, check, ksize, dsize, verifiable, m - 1);
      var base := (m - 1) * CHAR_BIT;
      var inV := m - 1 in verifiable;
      assert m * CHAR_BIT == base + CHAR_BIT;
      forall j | base <= j < base + CHAR_BIT
        ensures Detected(check(Flipped(s, j)), ksize, dsize) <==> inV
      {
        BitInByte(m - 1, base, j - base);
      }
      RunContributes(s, check, ksize, dsize, base, CHAR_BIT, inV);
    }
  }

  /** One more bit adds one exactly when its trial is detected. */
  lemma CountStep(s: seq<bv8>, check: seq<bv8> -> Probe, ksize: uint32, dsize: uint32, i: nat)
    requires i < |s| * CHAR_BIT
    ensures CountDetected(s, check, ksize, dsize, i + 1) ==
            CountDetected(s, check, ksize, dsize, i) + (if Detected(check(Flipped(s, i)), ksize, dsize) then 1 else 0)
  {
  }

  /** Bit k of byte n is bit number n * CHAR_BIT + k. */
  lemma BitInByte(n: nat, base: nat, k: nat)
    requires base == n * CHAR_BIT && k < CHAR_BIT
    ensures (base + k) / CHAR_BIT == n
  {
  }

  /** check_test's final assertion: the count equals verifiable * CHAR_BIT. */
  predicate CheckTestPasses(corrupt: nat, verifiable: nat)
  {
    corrupt == verifiable * CHAR_BIT
  }

  /** A checker that catches a flip exactly in the verifiable bytes passes
      the test, whatever the file's size. */
  lemma PerfectCheckerPasses(
    s: seq<bv8>, check: seq<bv8> -> Probe, ksize: uint32, dsize: uint32, verifiable: set<nat>)
    requires DetectsExactly(s, check, ksize, dsize, verifiable)
    ensures CheckTestPasses(CountDetected(s, check, ksize, dsize, |s| * CHAR_BIT), CountIn(verifiable, |s|))
  {
    DetectionCountIsEightPerByte(s, check, ksize, dsize, verifiable, |s|);
  }
}
