/** Placement of ROMs in the partition: catalogue entries, the gap search and the
    free-space figure (main/gb_storage.c). */
module RomLayout {
  import opened Bytes
  import opened Names

  const SECTOR: int := 4096
  const BANK: int := 16384
  const SMALLEST: int := 32768
  const MAX_ROMS: int := 16

  /** SHA-256 is idealised: a digest is as good as the bytes it was computed from. */
  datatype Digest = Sha256(preimage: seq<byte>)

  datatype RomEntry = RomEntry(name: CString, offset: u32, size: u32, digest: Digest) {
    function End(): int { offset + size }

    predicate Overlaps(from: int, to: int) { from < End() && offset < to }

    predicate Contains(at: int) { offset <= at < End() }
  }

  predicate EntryShape(e: RomEntry, end: int) {
    && NameValid(e.name)
    && e.offset % SECTOR == 0 && e.offset >= SECTOR
    && e.size >= SMALLEST && e.size % BANK == 0
    && e.End() <= end
  }

  predicate Compatible(e: RomEntry, other: RomEntry) {
    e.name != other.name && !(e.offset < other.End() && other.offset < e.End())
  }

  /** A catalogue the device accepts: well-shaped entries, names and extents pairwise distinct. */
  predicate EntriesValid(es: seq<RomEntry>, end: int) {
    && |es| <= MAX_ROMS
    && (forall i | 0 <= i < |es| :: EntryShape(es[i], end))
    && (forall i, j | 0 <= j < i < |es| :: Compatible(es[i], es[j]))
  }

  /** entries_valid. */
  method CheckEntries(es: seq<RomEntry>, end: int) returns (ok: bool)
    ensures ok <==> EntriesValid(es, end)
  {
    if |es| > MAX_ROMS {
      return false;
    }
    for i := 0 to |es|
      invariant EntriesValid(es[..i], end)
    {
      var e := es[i];
      var named := GbNameValid(e.name);
      if !named || e.offset % SECTOR != 0 || e.offset < SECTOR || e.size < SMALLEST || e.size % BANK != 0
        || !(e.offset <= end && e.size <= end - e.offset)
      {
        assert !EntryShape(es[i], end);
        return false;
      }
      for j := 0 to i
        invariant forall k | 0 <= k < j :: Compatible(e, es[k])
      {
        var other := es[j];
        if e.name == other.name || (e.offset < other.offset + other.size && other.offset < e.offset + e.size) {
          assert !Compatible(es[i], es[j]);
          return false;
        }
      }
    }
    assert es[..|es|] == es;
    ok := true;
  }

  // ----- The gap search.

  /** [at, at + bytes) lies in the data area and meets no catalogued ROM. */
  predicate Feasible(es: seq<RomEntry>, end: int, at: int, bytes: int) {
    SECTOR <= at && at + bytes <= end && forall i | 0 <= i < |es| :: !es[i].Overlaps(at, at + bytes)
  }

  /** The naive search: try every address in turn. */
  function FirstFit(es: seq<RomEntry>, end: int, bytes: nat, from: int := SECTOR): (r: int)
    requires from >= SECTOR
    decreases end - from
  {
    if from + bytes > end then 0
    else if Feasible(es, end, from, bytes) then from
    else FirstFit(es, end, bytes, from + 1)
  }

  lemma {:induction false} FirstFitIsLowest(es: seq<RomEntry>, end: int, bytes: nat, from: int)
    requires from >= SECTOR
    ensures var r := FirstFit(es, end, bytes, from);
      && (r == 0 || (from <= r && Feasible(es, end, r, bytes)))
      && (forall c | from <= c && Feasible(es, end, c, bytes) :: 0 < r <= c)
    decreases end - from
  {
    if from + bytes <= end && !Feasible(es, end, from, bytes) {
      FirstFitIsLowest(es, end, bytes, from + 1);
    }
  }

  /** The lowest feasible address is the first data sector or the end of a ROM, hence sector-aligned. */
  lemma FirstFitAligned(es: seq<RomEntry>, end: int, bytes: nat)
    requires forall i | 0 <= i < |es| :: EntryShape(es[i], end)
    ensures FirstFit(es, end, bytes) % SECTOR == 0
  {
    FirstFitIsLowest(es, end, bytes, SECTOR);
    var r := FirstFit(es, end, bytes);
    if r > SECTOR {
      assert !Feasible(es, end, r - 1, bytes);
      var i :| 0 <= i < |es| && es[i].Overlaps(r - 1, r - 1 + bytes);
      assert !es[i].Overlaps(r, r + bytes);
      assert EntryShape(es[i], end);
    }
  }

  /** find_gap: jump over the blocking ROMs instead of trying every address. */
  method FindGap(es: seq<RomEntry>, end: int, bytes: nat) returns (r: int)
    requires bytes > 0
    ensures r == FirstFit(es, end, bytes)
  {
    var candidate := SECTOR;
    FirstFitIsLowest(es, end, bytes, SECTOR);
    while candidate + bytes <= end
      invariant candidate >= SECTOR
      invariant forall c | SECTOR <= c < candidate :: !Feasible(es, end, c, bytes)
      decreases end - candidate
    {
      var occupied := false;
      var next := candidate;
      ghost var blocker := 0;
      for i := 0 to |es|
        invariant !occupied ==> next == candidate && forall k | 0 <= k < i :: !es[k].Overlaps(candidate, candidate + bytes)
        invariant occupied ==> 0 <= blocker < i && es[blocker].Overlaps(candidate, candidate + bytes)
        invariant occupied ==> es[blocker].End() == next > candidate
      {
        if candidate < es[i].offset + es[i].size && es[i].offset < candidate + bytes {
          occupied := true;
          if es[i].offset + es[i].size > next {
            next := es[i].offset + es[i].size;
            blocker := i;
          }
        }
      }
      if !occupied {
        assert Feasible(es, end, candidate, bytes);
        return candidate;
      }
      forall c | candidate <= c < next ensures !Feasible(es, end, c, bytes) {
        assert es[blocker].Overlaps(c, c + bytes);
      }
      candidate := next;
    }
    r := 0;
  }

  // ----- Capacity.

  function SectorsLimit(partition: int): int {
    if partition <= 3 * SECTOR then 0 else (partition - 3 * SECTOR) / BANK * BANK
  }

  function Used(es: seq<RomEntry>): nat {
    if es == [] then 0 else Used(es[..|es| - 1]) + es[|es| - 1].size
  }

  /** gb_storage_used. */
  method StorageUsed(es: seq<RomEntry>) returns (used: nat)
    ensures used == Used(es)
  {
    used := 0;
    for i := 0 to |es|
      invariant used == Used(es[..i])
    {
      used := used + es[i].size;
      assert es[..i + 1][..i] == es[..i];
    }
    assert es[..|es|] == es;
  }

  predicate Within(x: int, lo: int, hi: int) {
    lo <= x < hi
  }

  function Span(lo: int, hi: int): set<int> {
    set x | lo <= x < hi && Within(x, lo, hi)
  }

  /** The addresses held by ROMs. */
  function Cells(es: seq<RomEntry>): set<int> {
    if es == [] then {} else Cells(es[..|es| - 1]) + Span(es[|es| - 1].offset, es[|es| - 1].End())
  }

  lemma {:induction false} CellIsHeld(es: seq<RomEntry>, x: int)
    requires x in Cells(es)
    ensures exists i :: 0 <= i < |es| && es[i].Contains(x)
  {
    var n := |es| - 1;
    if es[n].Contains(x) {
    } else {
      CellIsHeld(es[..n], x);
      var i :| 0 <= i < n && es[..n][i].Contains(x);
      assert es[i].Contains(x);
    }
  }

  lemma {:induction false} SpanSize(lo: int, hi: int)
    requires lo <= hi
    ensures |Span(lo, hi)| == hi - lo
    decreases hi - lo
  {
    if lo < hi {
      SpanSize(lo + 1, hi);
      assert Span(lo, hi) == Span(lo + 1, hi) + {lo} by {
        assert forall x :: Within(x, lo, hi) <==> Within(x, lo + 1, hi) || x == lo;
      }
    } else {
      assert Span(lo, hi) == {};
    }
  }

  lemma PartsFit(a: set<int>, b: set<int>, whole: set<int>)
    requires a !! b && a + b <= whole
    ensures |a| + |b| <= |whole|
  {
    assert whole == a + b + (whole - (a + b));
  }

  /** Distinct extents never share an address, so the sizes add up to the number of addresses held. */
  lemma {:induction false} UsedCountsCells(es: seq<RomEntry>)
    requires forall i, j | 0 <= j < i < |es| :: Compatible(es[i], es[j])
    ensures |Cells(es)| == Used(es)
  {
    if es != [] {
      var n := |es| - 1;
      var held, span := Cells(es[..n]), Span(es[n].offset, es[n].End());
      UsedCountsCells(es[..n]);
      assert |span| == es[n].size by { SpanSize(es[n].offset, es[n].End()); }
      forall x | x in held ensures x !in span {
        CellIsHeld(es[..n], x);
        var j :| 0 <= j < n && es[..n][j].Contains(x);
        assert Compatible(es[n], es[j]);
      }
      PartsAdd(held, span);
    }
  }

  lemma PartsAdd(a: set<int>, b: set<int>)
    requires a !! b
    ensures |a + b| == |a| + |b|
  {
  }

  lemma {:induction false} UsedInBanks(es: seq<RomEntry>, end: int)
    requires forall i | 0 <= i < |es| :: EntryShape(es[i], end)
    ensures Used(es) % BANK == 0
  {
    if es != [] {
      UsedInBanks(es[..|es| - 1], end);
      assert EntryShape(es[|es| - 1], end);
    }
  }

  /** The addresses held by ROMs and the addresses of a gap are disjoint parts of the data area. */
  lemma GapBesideRoms(es: seq<RomEntry>, end: int, at: int, bytes: nat)
    requires forall i | 0 <= i < |es| :: EntryShape(es[i], end)
    requires Feasible(es, end, at, bytes)
    ensures Cells(es) !! Span(at, at + bytes) && Cells(es) + Span(at, at + bytes) <= Span(SECTOR, end)
  {
    forall x | x in Cells(es) ensures x in Span(SECTOR, end) && x !in Span(at, at + bytes) {
      CellIsHeld(es, x);
      var i :| 0 <= i < |es| && es[i].Contains(x);
      assert EntryShape(es[i], end) && !es[i].Overlaps(at, at + bytes);
    }
    forall x | x in Span(at, at + bytes) ensures x in Span(SECTOR, end) {
      assert Within(x, SECTOR, end);
    }
  }

  /** Whatever fits in a gap also fits in the remaining quota. */
  lemma QuotaCoversEveryGap(es: seq<RomEntry>, partition: int, at: int, bytes: nat)
    requires partition > 3 * SECTOR && EntriesValid(es, partition - 2 * SECTOR)
    requires Feasible(es, partition - 2 * SECTOR, at, bytes) && bytes % BANK == 0
    ensures Used(es) + bytes <= SectorsLimit(partition)
  {
    var end := partition - 2 * SECTOR;
    GapCounts(es, end, at, bytes);
    UsedInBanks(es, end);
    BanksAddUp(Used(es), bytes, end - SECTOR);
  }

  lemma GapCounts(es: seq<RomEntry>, end: int, at: int, bytes: nat)
    requires EntriesValid(es, end) && Feasible(es, end, at, bytes)
    ensures Used(es) + bytes <= end - SECTOR
  {
    var held, gap, whole := Cells(es), Span(at, at + bytes), Span(SECTOR, end);
    assert |held| == Used(es) by { UsedCountsCells(es); }
    assert |gap| == bytes by { SpanSize(at, at + bytes); }
    assert |whole| == end - SECTOR by { SpanSize(SECTOR, end); }
    assert held !! gap && held + gap <= whole by { GapBesideRoms(es, end, at, bytes); }
    PartsFit(held, gap, whole);
  }

  lemma BanksAddUp(used: nat, bytes: nat, have: nat)
    requires used % BANK == 0 && bytes % BANK == 0 && used + bytes <= have
    ensures used + bytes <= have / BANK * BANK
  {
  }

  lemma BanksRoundDown(need: nat, have: nat)
    requires need <= have && need % BANK == 0
    ensures need <= have / BANK * BANK
  {
  }

  // ----- The free-space figure.

  /** No catalogued ROM holds an address of [from, to). */
  predicate Free(es: seq<RomEntry>, from: int, to: int) {
    forall i | 0 <= i < |es| :: !(es[i].offset < to && from < es[i].End())
  }

  /** best is the length of the longest free stretch of the data area that starts before `upTo`. */
  ghost predicate LongestFree(es: seq<RomEntry>, end: int, upTo: int, best: int) {
    && (forall x, y | SECTOR <= x < upTo && x <= y <= end && Free(es, x, y) :: y - x <= best)
    && (best == 0 || exists x, y :: SECTOR <= x && y == x + best <= end && Free(es, x, y))
  }

  /** The inner scan of gb_storage_available from one address: either skip the ROM that holds it,
      or find where the free stretch ends. */
  method ScanFrom(es: seq<RomEntry>, end: int, from: int) returns (skip: bool, next: int)
    requires from < end && forall i | 0 <= i < |es| :: EntryShape(es[i], end)
    ensures skip ==> exists i | 0 <= i < |es| :: es[i].Contains(from) && next == es[i].End()
    ensures !skip ==> from < next <= end && (next == end || exists k | 0 <= k < |es| :: es[k].offset == next)
    ensures !skip ==> forall k | 0 <= k < |es| :: !es[k].Contains(from) && !(from < es[k].offset < next)
  {
    var stop := end;
    for i := 0 to |es|
      invariant from < stop <= end
      invariant forall k | 0 <= k < i :: !es[k].Contains(from) && !(from < es[k].offset < stop)
      invariant stop == end || exists k | 0 <= k < |es| :: es[k].offset == stop
    {
      if from >= es[i].offset && from < es[i].offset + es[i].size {
        assert es[i].Contains(from);
        return true, es[i].offset + es[i].size;
      }
      if es[i].offset > from && es[i].offset < stop {
        stop := es[i].offset;
      }
    }
    return false, stop;
  }

  /** What the figure must be: zero or a bank multiple a ROM can have, and for every ROM size
      at most the figure exactly when the gap search succeeds. */
  ghost predicate AgreesWithSearch(es: seq<RomEntry>, end: int, available: int) {
    && (available == 0 || available >= SMALLEST) && available % BANK == 0
    && forall bytes: nat | bytes >= SMALLEST && bytes % BANK == 0 ::
         bytes <= available <==> FirstFit(es, end, bytes) != 0
  }

  /** gb_storage_available. */
  method Available(es: seq<RomEntry>, partition: u32) returns (available: nat)
    requires partition > 3 * SECTOR && EntriesValid(es, partition - 2 * SECTOR)
    ensures AgreesWithSearch(es, partition - 2 * SECTOR, available)
  {
    var end := partition - 2 * SECTOR;
    var used := StorageUsed(es);
    var limit := SectorsLimit(partition);
    if used >= limit {
      NothingFitsAtLimit(es, partition);
      return 0;
    }
    var best := 0;
    var from := SECTOR;
    while from < end
      invariant SECTOR <= from <= end && best >= 0
      invariant LongestFree(es, end, from, best)
      decreases end - from
    {
      var skip, stop := ScanFrom(es, end, from);
      if skip {
        ghost var i :| 0 <= i < |es| && es[i].Contains(from) && stop == es[i].End();
        SkipRom(es, end, i, from, best);
      } else {
        HoleMeasured(es, end, from, stop, best);
        if stop - from > best {
          best := stop - from;
        }
      }
      from := stop;
    }
    var quotaLeft := limit - used;
    available := if best < quotaLeft then best else quotaLeft;
    available := available / BANK * BANK;
    available := if available >= SMALLEST then available else 0;
    RoundedHoleAgrees(es, partition, best);
  }

  lemma NothingFitsAtLimit(es: seq<RomEntry>, partition: int)
    requires partition > 3 * SECTOR && EntriesValid(es, partition - 2 * SECTOR)
    requires Used(es) >= SectorsLimit(partition)
    ensures AgreesWithSearch(es, partition - 2 * SECTOR, 0)
  {
    var end := partition - 2 * SECTOR;
    forall bytes: nat | bytes >= SMALLEST && bytes % BANK == 0 ensures FirstFit(es, end, bytes) == 0 {
      FirstFitIsLowest(es, end, bytes, SECTOR);
      var r := FirstFit(es, end, bytes);
      if Feasible(es, end, r, bytes) {
        QuotaCoversEveryGap(es, partition, r, bytes);
      }
    }
  }

  /** The longest free stretch, cut to the quota and to whole banks, is the right figure. */
  lemma RoundedHoleAgrees(es: seq<RomEntry>, partition: int, best: nat)
    requires partition > 3 * SECTOR && EntriesValid(es, partition - 2 * SECTOR)
    requires Used(es) < SectorsLimit(partition)
    requires LongestFree(es, partition - 2 * SECTOR, partition - 2 * SECTOR, best)
    ensures var quotaLeft := SectorsLimit(partition) - Used(es);
      var rounded := (if best < quotaLeft then best else quotaLeft) / BANK * BANK;
      AgreesWithSearch(es, partition - 2 * SECTOR, if rounded >= SMALLEST then rounded else 0)
  {
    var end := partition - 2 * SECTOR;
    var quotaLeft := SectorsLimit(partition) - Used(es);
    forall bytes: nat | bytes >= SMALLEST && bytes % BANK == 0
      ensures bytes <= (if best < quotaLeft then best else quotaLeft) / BANK * BANK <==> FirstFit(es, end, bytes) != 0
    {
      FitsExactlyWhenLongEnough(es, end, best, bytes);
      if bytes <= best {
        QuotaCoversEveryGap(es, partition, FirstFit(es, end, bytes), bytes);
        BanksRoundDown(bytes, if best < quotaLeft then best else quotaLeft);
      }
    }
  }

  /** Stretches that start inside a ROM are empty. */
  lemma SkipRom(es: seq<RomEntry>, end: int, i: nat, from: int, best: int)
    requires i < |es| && es[i].Contains(from) && es[i].End() <= end && best >= 0
    requires LongestFree(es, end, from, best)
    ensures LongestFree(es, end, es[i].End(), best)
  {
    forall x, y | SECTOR <= x < es[i].End() && x <= y <= end && Free(es, x, y) ensures y - x <= best {
      ghost var rom := es[i];
      assert !(rom.offset < y && x < rom.End());
    }
  }

  /** The stretch found by the inner scan is free and nothing that starts in it is longer. */
  lemma HoleMeasured(es: seq<RomEntry>, end: int, from: int, to: int, best: int)
    requires forall i | 0 <= i < |es| :: EntryShape(es[i], end)
    requires SECTOR <= from < to <= end && best >= 0 && LongestFree(es, end, from, best)
    requires forall k | 0 <= k < |es| :: !es[k].Contains(from) && !(from < es[k].offset < to)
    requires to == end || exists k | 0 <= k < |es| :: es[k].offset == to
    ensures LongestFree(es, end, to, if to - from > best then to - from else best)
  {
    assert Free(es, from, to);
    forall x, y | SECTOR <= x < to && x <= y <= end && Free(es, x, y)
      ensures y - x <= (if to - from > best then to - from else best)
    {
      if to < end {
        var k :| 0 <= k < |es| && es[k].offset == to;
        var rom := es[k];
        assert EntryShape(rom, end) && !(rom.offset < y && x < rom.End());
      }
    }
  }

  lemma FitsExactlyWhenLongEnough(es: seq<RomEntry>, end: int, best: int, bytes: nat)
    requires bytes > 0 && end >= SECTOR && LongestFree(es, end, end, best)
    ensures bytes <= best <==> FirstFit(es, end, bytes) != 0
    ensures FirstFit(es, end, bytes) != 0 ==> Feasible(es, end, FirstFit(es, end, bytes), bytes)
  {
    FirstFitIsLowest(es, end, bytes, SECTOR);
    var r := FirstFit(es, end, bytes);
    if r != 0 {
      assert Free(es, r, r + bytes) by {
        assert forall i | 0 <= i < |es| :: !es[i].Overlaps(r, r + bytes);
      }
    }
    if bytes <= best {
      var x, y :| SECTOR <= x && y == x + best <= end && Free(es, x, y);
      assert Feasible(es, end, x, bytes);
    }
  }
}
