/** What a game session and its save files do to each other (main/gb_saves.c:167-247,
    components/gb_core/gb_port.cpp:178-248): the cartridge RAM, its dirty mark and the clock, over whole
    runs of playing, saving and loading. */
module SaveSessions {
  import opened Bytes
  import opened Saves

  /** The part of the emulator session that saving touches. */
  datatype Play = Play(battery: bool, clock: bool, contents: Contents, dirty: bool)

  /** gb_port_needs_save */
  predicate NeedsSave(s: Play) {
    s.battery && (s.clock || s.dirty)
  }

  /** gb_port_write_sram, and what the game itself writes to its RAM. */
  function Poked(s: Play, offset: nat, data: seq<byte>): Play
    requires offset + |data| <= |s.contents.sram|
  {
    var sram := s.contents.sram;
    if sram[offset..offset + |data|] == data then s
    else s.(contents := s.contents.(sram := sram[..offset] + data + sram[offset + |data|..]), dirty := true)
  }

  datatype Saved = Saved(play: Play, pair: Pair, ok: bool)

  /** gb_saves_write */
  function SaveSpec(s: Play, p: Pair, hash: Hash, x: WriteFate): Saved {
    if !NeedsSave(s) then Saved(s, p, true)
    else
      var out := WriteSpec(p, hash, Attempt(s.contents, x));
      Saved(if out.ok then s.(dirty := false) else s, out.pair, out.ok)
  }

  // ----- Loading.

  /** The reads of a load: the checks, the existence questions, the opening of the chosen file, how many
      reads of its payload work, and its closing. */
  datatype LoadFate = LoadFate(checks: Reads, opens: bool, reach: nat, closes: bool)

  datatype Verdict = GbSaveEmpty | GbSaveLoaded | GbSaveError

  /** How much of the cartridge RAM is restored by that many reads of 512 bytes. */
  function RestoredBytes(size: nat, reach: nat): nat {
    if reach * 512 < size then reach * 512 else size
  }

  /** The reads that a full restore takes: the RAM in pieces of 512 bytes, and the clock. */
  function RestoreReads(size: nat): nat {
    (size + 511) / 512 + 1
  }

  /** What a restore from this file leaves in the session. */
  function RestoreSpec(before: Contents, d: seq<byte>, reach: nat): (c: Contents)
    requires |d| == HEADER + |before.sram| + 10
    ensures |c.sram| == |before.sram|
  {
    var size, payload := |before.sram|, d[HEADER..];
    var n := RestoredBytes(size, reach);
    Contents(payload[..n] + before.sram[n..], if reach >= RestoreReads(size) then payload[size..] else before.rtc)
  }

  /** Enough reads restore everything. */
  lemma RestoreCompletes(before: Contents, d: seq<byte>, reach: nat)
    requires |d| == HEADER + |before.sram| + 10 && reach >= RestoreReads(|before.sram|)
    ensures RestoreSpec(before, d, reach) == ContentsOf(d, |before.sram|)
  {
  }

  lemma AcceptedSize(file: Option<seq<byte>>, hash: Hash, size: u32)
    ensures Checked(file, hash, size).Some? ==> file.Some? && |file.value| == HEADER + size + 10
  {
  }

  datatype LoadOutcome = LoadOutcome(play: Play, verdict: Verdict)

  /** The part of gb_saves_load after the choice of file. */
  function CopyLoaded(s: Play, d: seq<byte>, x: LoadFate): LoadOutcome
    requires |d| == HEADER + |s.contents.sram| + 10
  {
    if !x.opens then LoadOutcome(s, GbSaveError)
    else
      var c := RestoreSpec(s.contents, d, x.reach);
      var okay := x.closes && x.reach >= RestoreReads(|s.contents.sram|);
      LoadOutcome(s.(contents := c, dirty := !okay && (s.dirty || c.sram != s.contents.sram)), if okay then GbSaveLoaded else GbSaveError)
  }

  /** gb_saves_load */
  function LoadedInto(s: Play, p: Pair, hash: Hash, x: LoadFate): LoadOutcome {
    var size := |s.contents.sram|;
    AcceptedSize(p.a, hash, size);
    AcceptedSize(p.b, hash, size);
    if !s.battery then LoadOutcome(s, GbSaveEmpty)
    else
      match Restores(p, hash, size, x.checks)
      case None =>
        LoadOutcome(s, if (p.a.Some? && x.checks.seesA) || (p.b.Some? && x.checks.seesB) then GbSaveError else GbSaveEmpty)
      case Some(copy) => CopyLoaded(s, if copy == CopyA then p.a.value else p.b.value, x)
  }

  /** A restore that stops early has taken over whole pieces of 512 bytes from the front of the file, and the clock
      only with all of the RAM. */
  lemma PartlyRestored(before: Contents, d: seq<byte>, reach: nat, i: nat)
    requires |d| == 62 + |before.sram| && i < |before.sram|
    ensures RestoreSpec(before, d, reach).sram[i] == if i < 512 * reach then d[52 + i] else before.sram[i]
    ensures RestoreSpec(before, d, reach).rtc ==
            if reach > 0 && 512 * (reach - 1) >= |before.sram| then d[52 + |before.sram|..] else before.rtc
  {
    assert d[HEADER..][|before.sram|..] == d[52 + |before.sram|..];
  }

  // ----- Runs.

  /** The game writes to its RAM, the clock goes on, the save is written, the save is loaded. */
  datatype Deed = Poke(offset: nat, data: seq<byte>) | Clock(rtc: Rtc) | Save(fate: WriteFate) | Load(load: LoadFate)

  datatype Game = Game(play: Play, pair: Pair)

  /** A write outside the RAM is no write. */
  function Next(g: Game, hash: Hash, d: Deed): Game {
    match d
    case Poke(offset, data) =>
      if offset + |data| <= |g.play.contents.sram| then g.(play := Poked(g.play, offset, data)) else g
    case Clock(rtc) => g.(play := g.play.(contents := g.play.contents.(rtc := rtc)))
    case Save(x) => var r := SaveSpec(g.play, g.pair, hash, x); Game(r.play, r.pair)
    case Load(x) => g.(play := LoadedInto(g.play, g.pair, hash, x).play)
  }

  function Played(g: Game, hash: Hash, deeds: seq<Deed>): Game {
    if deeds == [] then g else Next(Played(g, hash, deeds[..|deeds| - 1]), hash, deeds[|deeds| - 1])
  }

  /** What a load gives of which no read fails. */
  function CleanLoad(g: Game, hash: Hash): LoadResult {
    LoadSpec(g.pair, hash, |g.play.contents.sram|)
  }

  /** Writes and loads read the newest copy. */
  predicate CarefulDeed(g: Game, hash: Hash, d: Deed) {
    match d
    case Save(x) => Careful(g.pair, hash, Attempt(g.play.contents, x))
    case Load(x) => CleanLoad(g, hash).Loaded? ==> ReadsChosen(g.pair, hash, |g.play.contents.sram|, x.checks)
    case _ => true
  }

  predicate CarefulGame(g: Game, hash: Hash, deeds: seq<Deed>) {
    deeds == []
    || (CarefulGame(g, hash, deeds[..|deeds| - 1]) && CarefulDeed(Played(g, hash, deeds[..|deeds| - 1]), hash, deeds[|deeds| - 1]))
  }

  /** A clean load gives the present RAM; or nothing was ever stored, and the RAM is as it was at first. */
  predicate Holds(g: Game, hash: Hash, first: Sram) {
    match CleanLoad(g, hash)
    case Loaded(c) => c.sram == g.play.contents.sram
    case _ => g.play.contents.sram == first
  }

  predicate Inv(g: Game, hash: Hash, first: Sram) {
    && g.play.battery && |g.play.contents.sram| == |first| && InStep(g.pair, hash, |first|)
    && (!g.play.dirty ==> Holds(g, hash, first))
  }

  lemma PokeKeepsInv(g: Game, hash: Hash, first: Sram, offset: nat, data: seq<byte>)
    requires Inv(g, hash, first) && offset + |data| <= |first|
    ensures Inv(g.(play := Poked(g.play, offset, data)), hash, first)
  {
    hide InStep, LoadSpec;
  }

  lemma SaveKeepsInv(g: Game, hash: Hash, first: Sram, x: WriteFate)
    requires Inv(g, hash, first) && CarefulDeed(g, hash, Save(x))
    ensures Inv(Next(g, hash, Save(x)), hash, first)
    ensures CleanLoad(g, hash).Loaded? ==> CleanLoad(Next(g, hash, Save(x)), hash).Loaded?
    ensures var r := SaveSpec(g.play, g.pair, hash, x);
      r.ok && (g.play.clock || g.play.dirty) ==> LoadSpec(r.pair, hash, |first|) == Loaded(g.play.contents)
  {
    hide InStep, LoadSpec, WriteSpec, Careful;
    if NeedsSave(g.play) {
      WriteIsSafe(g.pair, hash, Attempt(g.play.contents, x));
    }
  }

  lemma LoadKeepsInv(g: Game, hash: Hash, first: Sram, x: LoadFate)
    requires Inv(g, hash, first) && CarefulDeed(g, hash, Load(x))
    ensures Inv(Next(g, hash, Load(x)), hash, first)
  {
    hide InStep, Checked, RestoreSpec, RestoreReads, ContentsOf, LoadSpec, Restores;
    var size := |g.play.contents.sram|;
    if CleanLoad(g, hash).Loaded? {
      var d := ChosenFile(g, hash, x.checks);
      if x.reach >= RestoreReads(size) {
        RestoreCompletes(g.play.contents, d, x.reach);
      }
    } else {
      NothingToRestore(g.pair, hash, size, x.checks);
    }
  }

  /** The file that a careful load restores. */
  lemma ChosenFile(g: Game, hash: Hash, r: Reads) returns (d: seq<byte>)
    requires CleanLoad(g, hash).Loaded? && ReadsChosen(g.pair, hash, |g.play.contents.sram|, r)
    ensures |d| == HEADER + |g.play.contents.sram| + 10 && CleanLoad(g, hash) == Loaded(ContentsOf(d, |g.play.contents.sram|))
    ensures var copy := Restores(g.pair, hash, |g.play.contents.sram|, r);
      copy.Some? && (if copy.value == CopyA then g.pair.a == Some(d) else g.pair.b == Some(d))
  {
    hide Checked;
    var size := |g.play.contents.sram|;
    AcceptedSize(g.pair.a, hash, size);
    AcceptedSize(g.pair.b, hash, size);
    LoadRightExactlyWhen(g.pair, hash, size, r);
    d := if ChoosesA(g.pair, hash, size) then g.pair.a.value else g.pair.b.value;
  }

  lemma NothingToRestore(p: Pair, hash: Hash, size: u32, r: Reads)
    requires size < 0xFFFF_FF00 && !LoadSpec(p, hash, size).Loaded?
    ensures Restores(p, hash, size, r) == None
  {
    hide Checked;
  }

  lemma {:induction false} RunKeepsInv(g: Game, hash: Hash, first: Sram, deeds: seq<Deed>)
    requires Inv(g, hash, first) && CarefulGame(g, hash, deeds)
    ensures Inv(Played(g, hash, deeds), hash, first)
    ensures CleanLoad(g, hash).Loaded? ==> CleanLoad(Played(g, hash, deeds), hash).Loaded?
  {
    hide InStep, LoadSpec, WriteSpec, Careful, SaveSpec, LoadedInto, Poked;
    if deeds != [] {
      var front, d := deeds[..|deeds| - 1], deeds[|deeds| - 1];
      RunKeepsInv(g, hash, first, front);
      var h := Played(g, hash, front);
      match d
      case Poke(offset, data) => if offset + |data| <= |first| { PokeKeepsInv(h, hash, first, offset, data); }
      case Clock(_) =>
      case Save(x) => SaveKeepsInv(h, hash, first, x);
      case Load(x) => LoadKeepsInv(h, hash, first, x);
    }
  }

  /** Over every run of a game that was loaded, or of one without a save: whenever a save is reported as done,
      a load of which no read fails gives exactly the present RAM, and the present clock if there is one. Only
      where nothing was ever stored and the RAM is as it was at first is there nothing to load. */
  lemma SavedMeansStored(g: Game, hash: Hash, deeds: seq<Deed>, x: WriteFate)
    requires Inv(g, hash, g.play.contents.sram) && CarefulGame(g, hash, deeds) && CarefulDeed(Played(g, hash, deeds), hash, Save(x))
    ensures var h := Played(g, hash, deeds);
      var r := SaveSpec(h.play, h.pair, hash, x);
      r.ok ==> (match LoadSpec(r.pair, hash, |h.play.contents.sram|)
                case Loaded(c) => c.sram == h.play.contents.sram && (h.play.clock ==> c.rtc == h.play.contents.rtc)
                case _ => !h.play.clock && h.play.contents.sram == g.play.contents.sram && !CleanLoad(g, hash).Loaded?)
  {
    hide InStep, LoadSpec, WriteSpec, Careful, CarefulGame, CarefulDeed, Played;
    RunKeepsInv(g, hash, g.play.contents.sram, deeds);
    SaveKeepsInv(Played(g, hash, deeds), hash, g.play.contents.sram, x);
  }

  /** Such games begin with a load that was reported as done, or that found nothing. */
  lemma LoadBegins(g: Game, hash: Hash, x: LoadFate)
    requires g.play.battery && !g.play.dirty && InStep(g.pair, hash, |g.play.contents.sram|) && CarefulDeed(g, hash, Load(x))
    ensures var r := LoadedInto(g.play, g.pair, hash, x);
      var h := Game(r.play, g.pair);
      && (r.verdict == GbSaveLoaded ==> Inv(h, hash, h.play.contents.sram) && CleanLoad(g, hash) == Loaded(h.play.contents))
      && (r.verdict == GbSaveEmpty ==> Inv(h, hash, h.play.contents.sram) && !CleanLoad(g, hash).Loaded?)
  {
    hide InStep, Checked, RestoreSpec, RestoreReads, ContentsOf, LoadSpec, Restores;
    var size := |g.play.contents.sram|;
    if CleanLoad(g, hash).Loaded? {
      var d := ChosenFile(g, hash, x.checks);
      if x.reach >= RestoreReads(size) {
        RestoreCompletes(g.play.contents, d, x.reach);
      }
    } else {
      NothingToRestore(g.pair, hash, size, x.checks);
    }
  }

  /** Every call of a load works. */
  function WholeLoad(size: nat): LoadFate {
    LoadFate(ALL_READ, true, RestoreReads(size), true)
  }

  function WholeSave(size: nat): WriteFate {
    WriteFate(ALL_READ, true, HEADER + size + 10, true, true, true)
  }

  /** Undisturbed, a load says what it found: nothing only if there is no file, an error if there are files and
      none is whole, and otherwise the newest whole one, which is then all that the session holds. */
  lemma LoadSaysWhatItFound(s: Play, p: Pair, hash: Hash)
    requires s.battery
    ensures var r := LoadedInto(s, p, hash, WholeLoad(|s.contents.sram|));
      match LoadSpec(p, hash, |s.contents.sram|)
      case Empty => p == Pair(None, None) && r == LoadOutcome(s, GbSaveEmpty)
      case Error => p != Pair(None, None) && r == LoadOutcome(s, GbSaveError)
      case Loaded(c) => r == LoadOutcome(s.(contents := c, dirty := false), GbSaveLoaded)
  {
    hide Checked, RestoreSpec, RestoreReads, ContentsOf;
    var size := |s.contents.sram|;
    AcceptedSize(p.a, hash, size);
    AcceptedSize(p.b, hash, size);
    match Restores(p, hash, size, ALL_READ)
    case None =>
    case Some(copy) => RestoreCompletes(s.contents, if copy == CopyA then p.a.value else p.b.value, RestoreReads(size));
  }

  /** And undisturbed, the round trip works: after every run of a game with a save, it can be saved, and the
      next session of the cartridge loads exactly its RAM, and its clock if it has one. */
  lemma ProgressSurvives(g: Game, hash: Hash, deeds: seq<Deed>, next: Play)
    requires Inv(g, hash, g.play.contents.sram) && CleanLoad(g, hash).Loaded? && CarefulGame(g, hash, deeds)
    requires next.battery && |next.contents.sram| == |g.play.contents.sram|
    ensures var h, size := Played(g, hash, deeds), |g.play.contents.sram|;
      var saved := SaveSpec(h.play, h.pair, hash, WholeSave(size));
      var r := LoadedInto(next, saved.pair, hash, WholeLoad(size));
      && saved.ok && r.verdict == GbSaveLoaded && !r.play.dirty && r.play.contents.sram == h.play.contents.sram
      && (h.play.clock ==> r.play.contents.rtc == h.play.contents.rtc)
  {
    hide InStep, LoadSpec, WriteSpec, CarefulGame, Played, Checked, RestoreSpec, RestoreReads, ContentsOf, Restores;
    var size := |g.play.contents.sram|;
    RunKeepsInv(g, hash, g.play.contents.sram, deeds);
    var h := Played(g, hash, deeds);
    AllReadIsCareful(h, hash);
    UnwedgedSaves(h.pair, hash, h.play.contents);
    LoadedIsUnwedged(h.pair, hash, size);
    SaveKeepsInv(h, hash, g.play.contents.sram, WholeSave(size));
    var s := Next(h, hash, Save(WholeSave(size)));
    AllReadIsCareful(s, hash);
    var n := Game(next, s.pair);
    var d := ChosenFile(n, hash, ALL_READ);
    RestoreCompletes(next.contents, d, RestoreReads(size));
  }

  lemma AllReadIsCareful(g: Game, hash: Hash)
    ensures ReadsChosen(g.pair, hash, |g.play.contents.sram|, ALL_READ)
    ensures CarefulDeed(g, hash, Save(WholeSave(|g.play.contents.sram|)))
  {
    hide Checked;
  }

  lemma LoadedIsUnwedged(p: Pair, hash: Hash, size: u32)
    requires size < 0xFFFF_FF00 && LoadSpec(p, hash, size).Loaded?
    ensures !Wedged(p, hash, size)
  {
    hide Checked;
  }

  /** What has been saved is not written again: without a clock, a second save is done at once. */
  lemma SavedTwice(s: Play, p: Pair, hash: Hash, x: WriteFate, y: WriteFate)
    requires !s.clock && SaveSpec(s, p, hash, x).ok
    ensures var r := SaveSpec(s, p, hash, x); SaveSpec(r.play, r.pair, hash, y) == r
  {
    hide WriteSpec;
  }
}
