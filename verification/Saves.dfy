/** Battery saves in two alternating files (main/gb_saves.c).

    The file system keeps whatever prefix of a write reached it; how much that is, and which calls
    report failure, reads included, is an argument of each operation. */
module Saves {
  import opened Bytes
  import opened Crc32

  type Hash = h: seq<byte> | |h| == 32 witness seq(32, _ => 0)

  type Rtc = r: seq<byte> | |r| == 10 witness seq(10, _ => 0)

  /** Cartridge RAM; its size and the trailing clock fit a uint32_t. */
  type Sram = s: seq<byte> | |s| < 0xFFFF_FF00 witness []

  // ----- The file format.

  const MAGIC: seq<byte> := [0x46, 0x47, 0x42, 0x53]

  const HEADER := 52

  function Le32(x: u32): (r: seq<byte>)
    ensures |r| == 4
  {
    [x % 256, x / 256 % 256, x / 65536 % 256, x / 16777216]
  }

  function FromLe32(b: seq<byte>): u32
    requires |b| == 4
  {
    b[0] as int + 256 * (b[1] as int) + 65536 * (b[2] as int) + 16777216 * (b[3] as int)
  }

  lemma Le32RoundTrip(x: u32)
    ensures FromLe32(Le32(x)) == x
  {
    var y, z := x / 256, x / 65536;
    assert y / 256 == z && z / 256 == x / 16777216;
    assert x == x % 256 + 256 * y && y == y % 256 + 256 * z && z == z % 256 + 256 * (z / 256);
  }

  function BitsValue(bits: seq<bool>): (v: nat)
    ensures v < Pow2(|bits|)
  {
    if bits == [] then 0 else (if bits[0] then 1 else 0) + 2 * BitsValue(bits[1..])
  }

  lemma {:induction false} BitsValueInjective(a: seq<bool>, b: seq<bool>)
    requires |a| == |b| && BitsValue(a) == BitsValue(b)
    ensures a == b
  {
    if a != [] {
      BitsValueInjective(a[1..], b[1..]);
    }
  }

  function InvertedBits(r: Register, from: nat): (b: seq<bool>)
    requires from + 8 <= 32
    ensures |b| == 8 && forall i | 0 <= i < 8 :: b[i] == !r[from..][i]
  {
    seq(8, i requires 0 <= i < 8 => !r[from + i])
  }

  function InvertedOctet(r: Register, from: nat): byte
    requires from + 8 <= 32
  {
    EightBits();
    BitsValue(InvertedBits(r, from))
  }

  /** The stored form of a finished CRC: inverted, little endian. */
  function Sealed(r: Register): (b: seq<byte>)
    ensures |b| == 4
  {
    [InvertedOctet(r, 0), InvertedOctet(r, 8), InvertedOctet(r, 16), InvertedOctet(r, 24)]
  }

  lemma SealedInjective(r: Register, s: Register)
    requires Sealed(r) == Sealed(s)
    ensures r == s
  {
    SameEight(r, s, 0);
    SameEight(r, s, 8);
    SameEight(r, s, 16);
    SameEight(r, s, 24);
    assert r == r[0..8] + r[8..16] + r[16..24] + r[24..32];
    assert s == s[0..8] + s[8..16] + s[16..24] + s[24..32];
  }

  lemma SameEight(r: Register, s: Register, from: nat)
    requires from + 8 <= 32 && InvertedOctet(r, from) == InvertedOctet(s, from)
    ensures r[from..from + 8] == s[from..from + 8]
  {
    BitsValueInjective(InvertedBits(r, from), InvertedBits(s, from));
    forall i | 0 <= i < 8 ensures r[from..][i] == s[from..][i] {
      assert InvertedBits(r, from)[i] == InvertedBits(s, from)[i];
    }
    assert r[from..from + 8] == r[from..][..8] && s[from..from + 8] == s[from..][..8];
  }

  /** The 48 header bytes in front of the CRC. */
  function Preamble(sequence: u32, size: u32, hash: Hash): (p: seq<byte>)
    ensures |p| == 48
  {
    MAGIC + [1, 0] + [0, 0] + Le32(sequence) + Le32(size) + hash
  }

  function Image(sequence: u32, hash: Hash, sram: Sram, rtc: Rtc): (d: seq<byte>)
    ensures |d| == HEADER + |sram| + 10
  {
    var p := Preamble(sequence, |sram|, hash);
    p + Sealed(Crc(INITIAL, p + (sram + rtc))) + (sram + rtc)
  }

  predicate HeaderFits(d: seq<byte>, hash: Hash, size: u32)
    requires |d| >= HEADER
  {
    d[..4] == MAGIC && d[4..6] == [1, 0] && d[6..8] == [0, 0] && FromLe32(d[12..16]) == size && d[16..48] == hash
  }

  /** check_copy: the sequence number of an acceptable file. */
  function Checked(file: Option<seq<byte>>, hash: Hash, size: u32): Option<u32> {
    if file.None? then None
    else
      var d := file.value;
      if |d| == HEADER + size + 10 && HeaderFits(d, hash, size)
        && Sealed(Crc(INITIAL, d[..48] + d[HEADER..])) == d[48..HEADER]
      then Some(FromLe32(d[8..12])) else None
  }

  /** What loading an accepted file restores. */
  datatype Contents = Contents(sram: Sram, rtc: Rtc)

  function ContentsOf(d: seq<byte>, size: u32): Contents
    requires |d| == HEADER + size + 10 && size < 0xFFFF_FF00
  {
    Contents(d[HEADER..HEADER + size], d[HEADER + size..])
  }

  /** Write, then check and load: everything comes back. */
  lemma ImageRoundTrip(sequence: u32, hash: Hash, sram: Sram, rtc: Rtc)
    ensures var d := Image(sequence, hash, sram, rtc);
      Checked(Some(d), hash, |sram|) == Some(sequence) && ContentsOf(d, |sram|) == Contents(sram, rtc)
  {
    var p := Preamble(sequence, |sram|, hash);
    var d := Image(sequence, hash, sram, rtc);
    assert d[..48] == p && d[HEADER..] == sram + rtc && d[48..HEADER] == Sealed(Crc(INITIAL, p + (sram + rtc)));
    assert p[..4] == MAGIC && p[4..6] == [1, 0] && p[6..8] == [0, 0];
    assert p[8..12] == Le32(sequence) && p[12..16] == Le32(|sram|) && p[16..48] == hash;
    assert d[..4] == p[..4] && d[4..6] == p[4..6] && d[6..8] == p[6..8] && d[8..12] == p[8..12] && d[12..16] == p[12..16] && d[16..48] == p[16..48];
    Le32RoundTrip(sequence);
    Le32RoundTrip(|sram|);
  }

  /** A write that was cut short is never accepted. */
  lemma TornRejected(sequence: u32, hash: Hash, sram: Sram, rtc: Rtc, landed: nat)
    requires landed < |Image(sequence, hash, sram, rtc)|
    ensures Checked(Some(Image(sequence, hash, sram, rtc)[..landed]), hash, |sram|) == None
  {
  }

  /** d and e agree outside [from, from + count). */
  predicate DifferWithin(d: seq<byte>, e: seq<byte>, from: nat, count: nat)
    requires |d| == |e| && from + count <= |d|
  {
    d[..from] == e[..from] && d[from + count..] == e[from + count..]
  }

  /** The bytes under the CRC of two files that differ within a window on one side of the CRC field. */
  lemma CoveredSplit(d: seq<byte>, e: seq<byte>, from: nat, count: nat) returns (front: seq<byte>, rest: seq<byte>)
    requires |d| == |e| >= HEADER && from + count <= |d| && DifferWithin(d, e, from, count)
    requires from + count <= 48 || HEADER <= from
    ensures d[..48] + d[HEADER..] == front + d[from..from + count] + rest
    ensures e[..48] + e[HEADER..] == front + e[from..from + count] + rest
    ensures d[48..HEADER] == e[48..HEADER]
  {
    var cut := from + count;
    assert forall i | 0 <= i < from :: d[i] == e[i] by {
      assert forall i | 0 <= i < from :: d[..from][i] == d[i] && e[..from][i] == e[i];
    }
    forall i | cut <= i < |d| ensures d[i] == e[i] {
      assert d[cut..][i - cut] == e[cut..][i - cut];
    }
    if cut <= 48 {
      front, rest := d[..from], d[cut..48] + d[HEADER..];
    } else {
      front, rest := d[..48] + d[HEADER..from], d[cut..];
    }
  }

  /** Changing any one byte of an accepted file makes it unacceptable. */
  lemma OneByteRejected(d: seq<byte>, e: seq<byte>, hash: Hash, size: u32, at: nat)
    requires Checked(Some(d), hash, size).Some? && |e| == |d| && at < |d|
    requires DifferWithin(d, e, at, 1) && d[at] != e[at]
    ensures Checked(Some(e), hash, size) == None
  {
    hide Crc, Sealed;
    if 48 <= at < HEADER {
      assert d[..48] == e[..48] && d[HEADER..] == e[HEADER..] by { OutsideField(d, e, at, 1); }
      assert d[48..HEADER][at - 48] != e[48..HEADER][at - 48];
    } else {
      var front, rest := CoveredSplit(d, e, at, 1);
      assert d[at..at + 1] == [d[at]] && e[at..at + 1] == [e[at]];
      OctetDetected(INITIAL, front, d[at], e[at], rest);
      var x, y := Crc(INITIAL, d[..48] + d[HEADER..]), Crc(INITIAL, e[..48] + e[HEADER..]);
      if Sealed(x) == Sealed(y) {
        SealedInjective(x, y);
      }
    }
  }

  lemma OutsideField(d: seq<byte>, e: seq<byte>, from: nat, count: nat)
    requires |d| == |e| >= HEADER && 48 <= from && from + count <= HEADER && DifferWithin(d, e, from, count)
    ensures d[..48] == e[..48] && d[HEADER..] == e[HEADER..]
  {
    var cut := from + count;
    assert d[..48] == d[..from][..48] && e[..48] == e[..from][..48];
    assert d[HEADER..] == d[cut..][HEADER - cut..] && e[HEADER..] == e[cut..][HEADER - cut..];
  }

  /** Changing any four adjacent bytes, on one side of the end of the header, makes it unacceptable. */
  lemma BurstRejected(d: seq<byte>, e: seq<byte>, hash: Hash, size: u32, at: nat)
    requires Checked(Some(d), hash, size).Some? && |e| == |d| && at + 4 <= |d|
    requires DifferWithin(d, e, at, 4) && d != e
    requires at + 4 <= HEADER || HEADER <= at
    ensures Checked(Some(e), hash, size) == None
  {
    hide Crc, Sealed;
    assert d == d[..at] + d[at..at + 4] + d[at + 4..];
    assert e == e[..at] + e[at..at + 4] + e[at + 4..];
    if at + 4 <= 48 || HEADER <= at {
      var front, rest := CoveredSplit(d, e, at, 4);
      BurstDetected(INITIAL, front, d[at..at + 4], e[at..at + 4], rest);
      var x, y := Crc(INITIAL, d[..48] + d[HEADER..]), Crc(INITIAL, e[..48] + e[HEADER..]);
      if Sealed(x) == Sealed(y) {
        SealedInjective(x, y);
      }
    } else if d[16..48] == e[16..48] {
      assert d[..48] == e[..48] by {
        assert d[..48] == d[..at] + d[16..48][at - 16..] && e[..48] == e[..at] + e[16..48][at - 16..];
      }
      assert d[HEADER..] == e[HEADER..] by {
        assert d[HEADER..] == d[at + 4..][HEADER - at - 4..] && e[HEADER..] == e[at + 4..][HEADER - at - 4..];
      }
      assert d == d[..48] + d[48..HEADER] + d[HEADER..] && e == e[..48] + e[48..HEADER] + e[HEADER..];
    }
  }

  // ----- Two copies.

  type File = Option<seq<byte>>

  /** The two files of one ROM. */
  datatype Pair = Pair(a: File, b: File)

  /** Which of two check results wins: a only if newer, in wrapping sequence order. */
  predicate PrefersA(va: Option<u32>, vb: Option<u32>) {
    va.Some? && (vb.None? || Newer(va.value, vb.value))
  }

  datatype LoadResult = Empty | Loaded(contents: Contents) | Error

  /** gb_saves_load on a cartridge with a battery. */
  function LoadSpec(p: Pair, hash: Hash, size: u32): LoadResult
    requires size < 0xFFFF_FF00
  {
    var va, vb := Checked(p.a, hash, size), Checked(p.b, hash, size);
    if va.None? && vb.None? then if p.a.Some? || p.b.Some? then Error else Empty
    else if PrefersA(va, vb) then Loaded(ContentsOf(p.a.value, size))
    else Loaded(ContentsOf(p.b.value, size))
  }

  /** The same save, or none in both cases: an Empty may turn into an Error. */
  predicate AsBefore(r: LoadResult, s: LoadResult) {
    r == s || (!r.Loaded? && !s.Loaded?)
  }

  /** Which reads of the two files work: the check of each copy, the two calls that ask whether the
      files exist, and a third that asks for a again. A check that cannot read its file fails. */
  datatype Reads = Reads(a: bool, b: bool, seesA: bool, seesB: bool, seesAgain: bool)

  const ALL_READ := Reads(true, true, true, true, true)

  /** What happens to one write: the reads before it, whether the file opens, how many bytes reach it,
      which later calls report success, and whether the new file can be read back. A power cut is a
      write of which only `landed` bytes arrived. */
  datatype WriteFate = WriteFate(checks: Reads, opens: bool, landed: nat, synced: bool, closed: bool, readback: bool)

  datatype Attempt = Attempt(contents: Contents, fate: WriteFate)

  datatype Checks = Checks(a: Option<u32>, b: Option<u32>)

  /** What the two checks find. */
  function Seen(p: Pair, hash: Hash, size: u32, r: Reads): Checks {
    Checks(if r.a then Checked(p.a, hash, size) else None, if r.b then Checked(p.b, hash, size) else None)
  }

  predicate Unseen(c: Checks) {
    c.a.None? && c.b.None?
  }

  predicate Wedged(p: Pair, hash: Hash, size: u32) {
    p.a.Some? && p.b.Some? && Checked(p.a, hash, size).None? && Checked(p.b, hash, size).None?
  }

  /** The writer gives up: it sees two files and neither passes its check. */
  predicate Refuses(p: Pair, hash: Hash, size: u32, r: Reads) {
    Unseen(Seen(p, hash, size, r)) && p.a.Some? && r.seesA && p.b.Some? && r.seesB
  }

  predicate TargetsA(p: Pair, hash: Hash, size: u32, r: Reads) {
    var c := Seen(p, hash, size, r);
    if Unseen(c) then !(p.a.Some? && r.seesAgain)
    else c.a.None? || (c.b.Some? && !Newer(c.a.value, c.b.value))
  }

  function NextSequence(c: Checks): u32 {
    Wrap((if PrefersA(c.a, c.b) then c.a.value else if c.b.Some? then c.b.value else 0) + 1)
  }

  datatype WriteOutcome = WriteOutcome(pair: Pair, ok: bool)

  function Cut(d: seq<byte>, landed: nat): seq<byte> {
    if landed < |d| then d[..landed] else d
  }

  /** A file is opened for writing. */
  predicate Opens(p: Pair, hash: Hash, x: Attempt) {
    !Refuses(p, hash, |x.contents.sram|, x.fate.checks) && x.fate.opens
  }

  /** gb_saves_write of a session that needs saving. */
  function WriteSpec(p: Pair, hash: Hash, x: Attempt): WriteOutcome {
    var size, r := |x.contents.sram|, x.fate.checks;
    if !Opens(p, hash, x) then WriteOutcome(p, false)
    else
      var d := Image(NextSequence(Seen(p, hash, size, r)), hash, x.contents.sram, x.contents.rtc);
      var file := Some(Cut(d, x.fate.landed));
      WriteOutcome(if TargetsA(p, hash, size, r) then p.(a := file) else p.(b := file),
                   x.fate.landed >= |d| && x.fate.synced && x.fate.closed && x.fate.readback)
  }

  /** Two valid copies hold consecutive sequence numbers. */
  predicate InStep(p: Pair, hash: Hash, size: u32) {
    var va, vb := Checked(p.a, hash, size), Checked(p.b, hash, size);
    va.Some? && vb.Some? ==> va.value == Wrap(vb.value + 1) || vb.value == Wrap(va.value + 1)
  }

  /** The copy that a load chooses when everything can be read. */
  predicate ChoosesA(p: Pair, hash: Hash, size: u32) {
    PrefersA(Checked(p.a, hash, size), Checked(p.b, hash, size))
  }

  predicate ReadsChosen(p: Pair, hash: Hash, size: u32, r: Reads) {
    if ChoosesA(p, hash, size) then r.a else r.b
  }

  datatype Copy = CopyA | CopyB

  /** The copy that a load restores from when only these reads work. */
  function Restores(p: Pair, hash: Hash, size: u32, r: Reads): Option<Copy> {
    var c := Seen(p, hash, size, r);
    if Unseen(c) then None else if PrefersA(c.a, c.b) then Some(CopyA) else Some(CopyB)
  }

  /** A load with failing reads restores the right copy exactly when it could check that one; whatever
      it restores is a valid copy. */
  lemma LoadRightExactlyWhen(p: Pair, hash: Hash, size: u32, r: Reads)
    requires size < 0xFFFF_FF00 && LoadSpec(p, hash, size).Loaded?
    ensures Restores(p, hash, size, r) == Some(if ChoosesA(p, hash, size) then CopyA else CopyB) <==> ReadsChosen(p, hash, size, r)
    ensures Restores(p, hash, size, r) == Some(CopyA) ==> Checked(p.a, hash, size).Some?
    ensures Restores(p, hash, size, r) == Some(CopyB) ==> Checked(p.b, hash, size).Some?
  {
    hide Checked, ContentsOf;
  }

  /** The attempt opens the copy that a load would choose. */
  predicate OverwritesChosen(p: Pair, hash: Hash, x: Attempt) {
    var size := |x.contents.sram|;
    Opens(p, hash, x) && TargetsA(p, hash, size, x.fate.checks) == ChoosesA(p, hash, size)
  }

  /** The writer spares the copy that load would choose exactly when it could read that copy, or opened
      nothing, or could check neither copy and took the other one all the same. */
  lemma ChosenSparedExactlyWhen(p: Pair, hash: Hash, x: Attempt)
    requires LoadSpec(p, hash, |x.contents.sram|).Loaded?
    ensures var size, r := |x.contents.sram|, x.fate.checks;
      && (!OverwritesChosen(p, hash, x) <==>
            || ReadsChosen(p, hash, size, r)
            || !Opens(p, hash, x)
            || (Unseen(Seen(p, hash, size, r)) && (ChoosesA(p, hash, size) <==> (p.a.Some? && r.seesAgain))))
      && (!OverwritesChosen(p, hash, x) ==>
            var after := WriteSpec(p, hash, x).pair; if ChoosesA(p, hash, size) then after.a == p.a else after.b == p.b)
  {
    hide Checked, Image, Cut, ContentsOf;
  }

  /** When the newest copy cannot be read, an interrupted write destroys it: the save before it is what
      remains. */
  lemma UnreadNewestIsLost(p: Pair, hash: Hash, x: Attempt, n: u32)
    requires Checked(p.a, hash, |x.contents.sram|) == Some(Wrap(n + 1)) && Checked(p.b, hash, |x.contents.sram|) == Some(n)
    requires !x.fate.checks.a && x.fate.checks.b && x.fate.opens && x.fate.landed < HEADER + |x.contents.sram| + 10
    ensures LoadSpec(p, hash, |x.contents.sram|) == Loaded(ContentsOf(p.a.value, |x.contents.sram|))
    ensures LoadSpec(WriteSpec(p, hash, x).pair, hash, |x.contents.sram|) == Loaded(ContentsOf(p.b.value, |x.contents.sram|))
  {
    hide Checked, Image, Cut, ContentsOf;
    var size, r := |x.contents.sram|, x.fate.checks;
    NewFileChecks(NextSequence(Seen(p, hash, size, r)), hash, x);
    assert TargetsA(p, hash, size, r);
    hide TargetsA, NextSequence, Seen;
    assert Checked(WriteSpec(p, hash, x).pair.a, hash, size) == None && WriteSpec(p, hash, x).pair.b == p.b;
    hide WriteSpec;
  }

  /** When no copy can be read the numbering starts over: a confirmed save may lose to the older one. */
  lemma UnreadNumberStartsOver(p: Pair, hash: Hash, x: Attempt, n: u32)
    requires Checked(p.a, hash, |x.contents.sram|) == Some(n) && Newer(n, 1) && p.b.None?
    requires x.fate == WriteFate(ALL_READ.(a := false), true, HEADER + |x.contents.sram| + 10, true, true, true)
    ensures WriteSpec(p, hash, x).ok
    ensures LoadSpec(WriteSpec(p, hash, x).pair, hash, |x.contents.sram|) == Loaded(ContentsOf(p.a.value, |x.contents.sram|))
  {
    hide Checked, Image, Cut, ContentsOf;
    var size, r := |x.contents.sram|, x.fate.checks;
    NewFileChecks(1, hash, x);
    assert !TargetsA(p, hash, size, r) && NextSequence(Seen(p, hash, size, r)) == 1 by { NothingThere(hash, size); }
    hide TargetsA, NextSequence, Seen;
    assert Checked(WriteSpec(p, hash, x).pair.b, hash, size) == Some(1) && WriteSpec(p, hash, x).pair.a == p.a;
    hide WriteSpec;
  }

  lemma NothingThere(hash: Hash, size: u32)
    ensures Checked(None, hash, size) == None
  {
  }

  /** The copy that load would choose is read before anything is written. */
  predicate Careful(p: Pair, hash: Hash, x: Attempt) {
    var size := |x.contents.sram|;
    LoadSpec(p, hash, size).Loaded? ==> ReadsChosen(p, hash, size, x.fate.checks) || !Opens(p, hash, x)
  }

  /** One careful write: afterwards load gives the old save or the attempted one, and after a reported
      success the attempted one. */
  lemma WriteIsSafe(p: Pair, hash: Hash, x: Attempt)
    requires InStep(p, hash, |x.contents.sram|) && Careful(p, hash, x)
    ensures var size := |x.contents.sram|;
      var out := WriteSpec(p, hash, x);
      var before, after := LoadSpec(p, hash, size), LoadSpec(out.pair, hash, size);
      && InStep(out.pair, hash, size)
      && (out.ok ==> after == Loaded(x.contents))
      && (before.Loaded? ==> after == before || after == Loaded(x.contents))
      && (!before.Loaded? ==> !after.Loaded? || after == Loaded(x.contents))
      && (out.pair == p || (out.pair.a == p.a && out.pair.b.Some?) || (out.pair.b == p.b && out.pair.a.Some?))
  {
    var size, r := |x.contents.sram|, x.fate.checks;
    var q := NextSequence(Seen(p, hash, size, r));
    var d := Image(q, hash, x.contents.sram, x.contents.rtc);
    NewFileChecks(q, hash, x);
    var file := Cut(d, x.fate.landed);
    if Opens(p, hash, x) {
      var out := WriteSpec(p, hash, x);
      assert out.pair == if TargetsA(p, hash, size, r) then p.(a := Some(file)) else p.(b := Some(file));
      hide Image, Checked, ContentsOf, Cut, WriteSpec;
      if TargetsA(p, hash, size, r) {
        WroteA(p, file, hash, size, r, x.contents);
      } else {
        WroteB(p, file, hash, size, r, x.contents);
      }
    }
  }

  /** However the rest of one write goes, load then gives the old save or the attempted one, and after
      a reported success the attempted one. */
  ghost predicate SafeHowever(p: Pair, hash: Hash, size: u32, r: Reads)
    requires size < 0xFFFF_FF00
  {
    forall x: Attempt | |x.contents.sram| == size && x.fate.checks == r :: OneWriteSafe(p, hash, x)
  }

  predicate OneWriteSafe(p: Pair, hash: Hash, x: Attempt) {
    var size, out := |x.contents.sram|, WriteSpec(p, hash, x);
    var before, after := LoadSpec(p, hash, size), LoadSpec(out.pair, hash, size);
    (out.ok ==> after == Loaded(x.contents)) && (after == before || after == Loaded(x.contents))
  }

  /** Losing the chosen copy would show: the other one, if valid, holds another save. */
  predicate OtherDiffers(p: Pair, hash: Hash, size: u32)
    requires size < 0xFFFF_FF00
  {
    Checked(p.a, hash, size).Some? && Checked(p.b, hash, size).Some? ==> ContentsOf(p.a.value, size) != ContentsOf(p.b.value, size)
  }

  /** A save with number 1 would be chosen over the one that is chosen now. */
  predicate FirstNumberWins(p: Pair, hash: Hash, size: u32) {
    var va, vb := Checked(p.a, hash, size), Checked(p.b, hash, size);
    if ChoosesA(p, hash, size) then !Newer(va.value, 1) else vb.Some? && Newer(1, vb.value)
  }

  /** Of the reads before a write, safety depends exactly on this: the chosen copy was read, or the
      write was refused, or no copy could be checked, the other one was taken, and number 1 wins. */
  lemma WriteSafeExactlyWhen(p: Pair, hash: Hash, size: u32, r: Reads)
    requires size < 0xFFFF_FF00 && InStep(p, hash, size) && LoadSpec(p, hash, size).Loaded? && OtherDiffers(p, hash, size)
    ensures SafeHowever(p, hash, size, r) <==>
      || ReadsChosen(p, hash, size, r)
      || Refuses(p, hash, size, r)
      || (TargetsA(p, hash, size, r) != ChoosesA(p, hash, size) && FirstNumberWins(p, hash, size))
  {
    hide OneWriteSafe, LoadSpec, InStep, OtherDiffers, ReadsChosen, Refuses, TargetsA, ChoosesA, FirstNumberWins;
    if ReadsChosen(p, hash, size, r) || Refuses(p, hash, size, r) {
      forall x: Attempt | |x.contents.sram| == size && x.fate.checks == r ensures OneWriteSafe(p, hash, x) {
        CarefulIsSafe(p, hash, x);
      }
    } else if TargetsA(p, hash, size, r) == ChoosesA(p, hash, size) {
      var x := TornOnChosen(p, hash, size, r);
    } else {
      OtherTargetMeans(p, hash, size, r);
      if FirstNumberWins(p, hash, size) {
        forall x: Attempt | |x.contents.sram| == size && x.fate.checks == r ensures OneWriteSafe(p, hash, x) {
          FirstNumberIsSafe(p, hash, x);
        }
      } else {
        var x := FirstNumberLoses(p, hash, size, r);
      }
    }
  }

  lemma CarefulIsSafe(p: Pair, hash: Hash, x: Attempt)
    requires var size, r := |x.contents.sram|, x.fate.checks;
      InStep(p, hash, size) && LoadSpec(p, hash, size).Loaded? && (ReadsChosen(p, hash, size, r) || Refuses(p, hash, size, r))
    ensures OneWriteSafe(p, hash, x)
  {
    WriteIsSafe(p, hash, x);
    hide InStep, LoadSpec, ReadsChosen, WriteSpec;
  }

  /** An interrupted write on the chosen copy: neither that save nor the attempted one is found. */
  lemma TornOnChosen(p: Pair, hash: Hash, size: u32, r: Reads) returns (x: Attempt)
    requires size < 0xFFFF_FF00 && LoadSpec(p, hash, size).Loaded? && OtherDiffers(p, hash, size)
    requires !Refuses(p, hash, size, r) && TargetsA(p, hash, size, r) == ChoosesA(p, hash, size)
    ensures |x.contents.sram| == size && x.fate.checks == r && !OneWriteSafe(p, hash, x)
  {
    hide Checked, Image, ContentsOf, Seen, NextSequence;
    x := Attempt(LoadSpec(p, hash, size).contents, WriteFate(r, true, 0, true, true, true));
    assert |x.contents.sram| == size by { LoadedSize(p, hash, size); }
    NewFileChecks(NextSequence(Seen(p, hash, size, r)), hash, x);
    hide TargetsA, Refuses;
  }

  lemma LoadedSize(p: Pair, hash: Hash, size: u32)
    requires size < 0xFFFF_FF00 && LoadSpec(p, hash, size).Loaded?
    ensures |LoadSpec(p, hash, size).contents.sram| == size
  {
  }

  lemma OtherTargetMeans(p: Pair, hash: Hash, size: u32, r: Reads)
    requires size < 0xFFFF_FF00 && LoadSpec(p, hash, size).Loaded? && !ReadsChosen(p, hash, size, r)
    requires !Refuses(p, hash, size, r) && TargetsA(p, hash, size, r) != ChoosesA(p, hash, size)
    ensures Unseen(Seen(p, hash, size, r))
  {
    hide Checked, ContentsOf;
  }

  /** A complete write beside the chosen copy, under a number that does not win. */
  lemma FirstNumberLoses(p: Pair, hash: Hash, size: u32, r: Reads) returns (x: Attempt)
    requires size < 0xFFFF_FF00 && LoadSpec(p, hash, size).Loaded? && !Refuses(p, hash, size, r)
    requires Unseen(Seen(p, hash, size, r)) && TargetsA(p, hash, size, r) != ChoosesA(p, hash, size) && !FirstNumberWins(p, hash, size)
    ensures |x.contents.sram| == size && x.fate.checks == r && !OneWriteSafe(p, hash, x)
  {
    hide Checked, Image, ContentsOf, Seen, TargetsA, Refuses;
    var old' := LoadSpec(p, hash, size).contents;
    var rtc: Rtc := old'.rtc[0 := (old'.rtc[0] as int + 1) % 256];
    assert rtc[0] != old'.rtc[0];
    x := Attempt(Contents(old'.sram, rtc), WriteFate(r, true, HEADER + size + 10, true, true, true));
    assert |x.contents.sram| == size by { LoadedSize(p, hash, size); }
    NewFileChecks(1, hash, x);
  }

  lemma FirstNumberIsSafe(p: Pair, hash: Hash, x: Attempt)
    requires var size, r := |x.contents.sram|, x.fate.checks;
      && LoadSpec(p, hash, size).Loaded? && !Refuses(p, hash, size, r) && Unseen(Seen(p, hash, size, r))
      && TargetsA(p, hash, size, r) != ChoosesA(p, hash, size) && FirstNumberWins(p, hash, size)
    ensures OneWriteSafe(p, hash, x)
  {
    hide Checked, Image, ContentsOf, Seen, TargetsA, Refuses;
    NewFileChecks(1, hash, x);
  }

  /** What load finds once a new file, whole or torn, has replaced copy a. */
  lemma WroteA(p: Pair, file: seq<byte>, hash: Hash, size: u32, r: Reads, contents: Contents)
    requires size < 0xFFFF_FF00 && InStep(p, hash, size) && TargetsA(p, hash, size, r)
    requires LoadSpec(p, hash, size).Loaded? ==> ReadsChosen(p, hash, size, r)
    requires Checked(Some(file), hash, size).Some? ==> |file| == HEADER + size + 10 && ContentsOf(file, size) == contents
    requires Checked(Some(file), hash, size).Some? ==> Checked(Some(file), hash, size).value == NextSequence(Seen(p, hash, size, r))
    ensures var p' := p.(a := Some(file));
      && InStep(p', hash, size)
      && (Checked(Some(file), hash, size).Some? ==> LoadSpec(p', hash, size) == Loaded(contents))
      && (Checked(Some(file), hash, size).None? ==> AsBefore(LoadSpec(p', hash, size), LoadSpec(p, hash, size)))
  {
    hide Checked, ContentsOf;
  }

  lemma WroteB(p: Pair, file: seq<byte>, hash: Hash, size: u32, r: Reads, contents: Contents)
    requires size < 0xFFFF_FF00 && InStep(p, hash, size) && !TargetsA(p, hash, size, r)
    requires LoadSpec(p, hash, size).Loaded? ==> ReadsChosen(p, hash, size, r)
    requires Checked(Some(file), hash, size).Some? ==> |file| == HEADER + size + 10 && ContentsOf(file, size) == contents
    requires Checked(Some(file), hash, size).Some? ==> Checked(Some(file), hash, size).value == NextSequence(Seen(p, hash, size, r))
    ensures var p' := p.(b := Some(file));
      && InStep(p', hash, size)
      && (Checked(Some(file), hash, size).Some? ==> LoadSpec(p', hash, size) == Loaded(contents))
      && (Checked(Some(file), hash, size).None? ==> AsBefore(LoadSpec(p', hash, size), LoadSpec(p, hash, size)))
  {
    hide Checked, ContentsOf;
  }

  lemma NewFileChecks(q: u32, hash: Hash, x: Attempt)
    ensures var d := Image(q, hash, x.contents.sram, x.contents.rtc);
      var file := Cut(d, x.fate.landed);
      && Checked(Some(file), hash, |x.contents.sram|) == (if x.fate.landed < |d| then None else Some(q))
      && (x.fate.landed >= |d| ==> |file| == |d| && ContentsOf(file, |x.contents.sram|) == x.contents)
  {
    var d := Image(q, hash, x.contents.sram, x.contents.rtc);
    if x.fate.landed < |d| {
      TornRejected(q, hash, x.contents.sram, x.contents.rtc, x.fate.landed);
    } else {
      ImageRoundTrip(q, hash, x.contents.sram, x.contents.rtc);
    }
  }

  // ----- Runs.

  function Written(p: Pair, hash: Hash, xs: seq<Attempt>): Pair {
    if xs == [] then p else WriteSpec(Written(p, hash, xs[..|xs| - 1]), hash, xs[|xs| - 1]).pair
  }

  predicate Confirmed(p: Pair, hash: Hash, xs: seq<Attempt>)
    requires xs != []
  {
    WriteSpec(Written(p, hash, xs[..|xs| - 1]), hash, xs[|xs| - 1]).ok
  }

  /** r is the save of the last confirmed attempt, or of a later one; with no confirmed attempt it may
      also be what load gave at the start. A load that found nothing may report Error instead of Empty. */
  predicate Recent(p: Pair, hash: Hash, size: u32, xs: seq<Attempt>, r: LoadResult)
    requires size < 0xFFFF_FF00
  {
    if xs == [] then AsBefore(r, LoadSpec(p, hash, size))
    else
      || r == Loaded(xs[|xs| - 1].contents)
      || (!Confirmed(p, hash, xs) && Recent(p, hash, size, xs[..|xs| - 1], r))
  }

  predicate CarefulRun(p: Pair, hash: Hash, xs: seq<Attempt>) {
    xs == [] || (CarefulRun(p, hash, xs[..|xs| - 1]) && Careful(Written(p, hash, xs[..|xs| - 1]), hash, xs[|xs| - 1]))
  }

  /** Crash safety over every run of careful writes, failures and power cuts. */
  lemma {:induction false} RunIsSafe(p: Pair, hash: Hash, size: u32, xs: seq<Attempt>)
    requires size < 0xFFFF_FF00 && InStep(p, hash, size) && CarefulRun(p, hash, xs)
    requires forall i | 0 <= i < |xs| :: |xs[i].contents.sram| == size
    ensures var later := Written(p, hash, xs);
      && InStep(later, hash, size)
      && Recent(p, hash, size, xs, LoadSpec(later, hash, size))
      && (LoadSpec(p, hash, size).Loaded? ==> LoadSpec(later, hash, size).Loaded?)
  {
    if xs != [] {
      var front, x := xs[..|xs| - 1], xs[|xs| - 1];
      RunIsSafe(p, hash, size, front);
      var mid := Written(p, hash, front);
      WriteIsSafe(mid, hash, x);
      hide WriteSpec, LoadSpec, InStep, Careful;
      if LoadSpec(Written(p, hash, xs), hash, size) != Loaded(x.contents) {
        RecentWithoutSave(p, hash, size, front, LoadSpec(mid, hash, size), LoadSpec(Written(p, hash, xs), hash, size));
      }
    }
  }

  /** Finding nothing in one way is as recent as finding nothing in the other. */
  lemma {:induction false} RecentWithoutSave(p: Pair, hash: Hash, size: u32, xs: seq<Attempt>, r: LoadResult, s: LoadResult)
    requires size < 0xFFFF_FF00 && Recent(p, hash, size, xs, r)
    requires AsBefore(r, s)
    ensures Recent(p, hash, size, xs, s)
  {
    if xs != [] && r != Loaded(xs[|xs| - 1].contents) {
      RecentWithoutSave(p, hash, size, xs[..|xs| - 1], r, s);
    }
  }

  /** With no valid copy, load reports Error exactly when some file exists: a torn first save is not Empty. */
  lemma TornFirstSaveIsAnError(hash: Hash, x: Attempt)
    requires x.fate.opens && x.fate.landed < HEADER + |x.contents.sram| + 10
    ensures LoadSpec(Pair(None, None), hash, |x.contents.sram|) == Empty
    ensures LoadSpec(WriteSpec(Pair(None, None), hash, x).pair, hash, |x.contents.sram|) == Error
  {
    TornWrite(Pair(None, None), hash, x);
  }

  /** With both files there and neither valid, every further attempt that sees them is refused... */
  lemma {:induction false} WedgedForever(p: Pair, hash: Hash, size: u32, xs: seq<Attempt>)
    requires size < 0xFFFF_FF00 && Wedged(p, hash, size)
    requires forall i | 0 <= i < |xs| :: |xs[i].contents.sram| == size && xs[i].fate.checks.seesA && xs[i].fate.checks.seesB
    ensures Written(p, hash, xs) == p && (xs != [] ==> !Confirmed(p, hash, xs)) && LoadSpec(p, hash, size) == Error
  {
    if xs != [] {
      WedgedForever(p, hash, size, xs[..|xs| - 1]);
    }
  }

  /** ...and otherwise an undisturbed attempt is confirmed. */
  lemma UnwedgedSaves(p: Pair, hash: Hash, contents: Contents)
    requires InStep(p, hash, |contents.sram|)
    ensures var x := Attempt(contents, WriteFate(ALL_READ, true, HEADER + |contents.sram| + 10, true, true, true));
      WriteSpec(p, hash, x).ok <==> !Wedged(p, hash, |contents.sram|)
  {
  }

  /** Two interrupted first saves are enough to get there. */
  lemma TwoTornFirstSavesWedge(hash: Hash, x: Attempt, y: Attempt)
    requires |x.contents.sram| == |y.contents.sram| && x.fate.opens && y.fate.opens
    requires x.fate.landed < HEADER + |x.contents.sram| + 10 && y.fate.landed < HEADER + |y.contents.sram| + 10
    requires y.fate.checks.seesAgain
    ensures Wedged(Written(Pair(None, None), hash, [x, y]), hash, |x.contents.sram|)
  {
    var p0 := Pair(None, None);
    TwoWrites(p0, hash, x, y);
    var p1 := WriteSpec(p0, hash, x).pair;
    TornWrite(p0, hash, x);
    TornWrite(p1, hash, y);
    hide Checked, Written, WriteSpec;
  }

  /** A write that is cut short leaves a damaged file in the chosen place. */
  lemma TornWrite(p: Pair, hash: Hash, x: Attempt)
    requires x.fate.opens && x.fate.landed < HEADER + |x.contents.sram| + 10 && Opens(p, hash, x)
    ensures var size := |x.contents.sram|;
      var q := WriteSpec(p, hash, x).pair;
      if TargetsA(p, hash, size, x.fate.checks) then q.b == p.b && q.a.Some? && Checked(q.a, hash, size) == None
      else q.a == p.a && q.b.Some? && Checked(q.b, hash, size) == None
  {
    TornRejected(NextSequence(Seen(p, hash, |x.contents.sram|, x.fate.checks)), hash, x.contents.sram, x.contents.rtc, x.fate.landed);
    hide Checked, Image;
  }

  lemma TwoWrites(p: Pair, hash: Hash, x: Attempt, y: Attempt)
    ensures Written(p, hash, [x, y]) == WriteSpec(WriteSpec(p, hash, x).pair, hash, y).pair
  {
    hide WriteSpec;
    assert [x, y][..1] == [x] && [x][..0] == [];
    assert Written(p, hash, [x]) == WriteSpec(p, hash, x).pair;
  }
}
