/** The ROM catalogue on raw flash (main/gb_storage.c): two directory slots with wrapping
    generations, the factory table as fallback, and a fail-closed flag for commits whose
    outcome is unknown.

    Whatever the flash, the heap or the reader may do is an argument of the operation (a "fate"),
    so every statement below holds for every behaviour of the environment. Losing power in the
    middle of an operation is the same operation with the fate that stops there, followed by Boot. */
module Storage {
  import opened Bytes
  import opened Names
  import opened RomLayout

  const DIRECTORY_MAGIC: seq<byte> := [0x46, 0x47, 0x42, 0x32]
  const TABLE_MAGIC: seq<byte> := [0x46, 0x47, 0x42, 0x52]

  // ----- The medium.

  /** The idealised SHA-256 of the fields of a directory that precede its digest. */
  datatype Fingerprint = Fingerprint(magic: seq<byte>, generation: u32, entries: seq<RomEntry>)

  datatype Directory = Directory(magic: seq<byte>, generation: u32, entries: seq<RomEntry>, digest: Fingerprint)

  /** A directory sector: a complete record, or bytes that are none (erased, torn, foreign). */
  datatype DirectorySector = Noise | Record(directory: Directory)

  /** Sector 0 as the factory image leaves it; the table always has room for MAX_ROMS rows. */
  datatype FactoryTable = FactoryTable(magic: seq<byte>, version: nat, count: nat, rows: seq<RomEntry>)

  type Table = t: FactoryTable | |t.rows| == MAX_ROMS
    witness FactoryTable([], 0, 0, seq(MAX_ROMS, _ => RomEntry([], 0, 0, Sha256([]))))

  datatype Medium = Medium(slot0: DirectorySector, slot1: DirectorySector, table: Table, bytes: seq<byte>) {
    function Slot(i: int): DirectorySector { if i == 0 then slot0 else slot1 }

    function With(i: int, sector: DirectorySector): Medium {
      if i == 0 then this.(slot0 := sector) else this.(slot1 := sector)
    }

    /** First address of the two directory sectors. */
    function End(): int { |bytes| - 2 * SECTOR }
  }

  type Flash = f: Medium | 3 * SECTOR < |f.bytes| < 0x8000_0000
    witness Medium(Noise, Noise, FactoryTable([], 0, 0, seq(MAX_ROMS, _ => RomEntry([], 0, 0, Sha256([])))), seq(4 * SECTOR, _ => 0))

  function DirectoryOf(generation: u32, entries: seq<RomEntry>): Directory {
    Directory(DIRECTORY_MAGIC, generation, entries, Fingerprint(DIRECTORY_MAGIC, generation, entries))
  }

  /** read_directory on a readable slot. */
  function Stored(f: Flash, slot: int): Option<Directory> {
    match f.Slot(slot)
    case Noise => None
    case Record(d) =>
      if d.magic == DIRECTORY_MAGIC && EntriesValid(d.entries, f.End())
        && d.digest == Fingerprint(d.magic, d.generation, d.entries)
      then Some(d) else None
  }

  // ----- What a load finds.

  datatype Pick = Pick(entries: seq<RomEntry>, generation: u32, slot: int)

  /** The slot scan of gb_storage_init over the slots that could be read and hashed: slot 1 wins only if newer. */
  function ScanSlots(f: Flash, checks0: bool, checks1: bool): Pick {
    var first := if checks0 then Stored(f, 0) else None;
    var second := if checks1 then Stored(f, 1) else None;
    if second.Some? && (first.None? || Newer(second.value.generation, first.value.generation)) then
      Pick(second.value.entries, second.value.generation, 1)
    else if first.Some? then Pick(first.value.entries, first.value.generation, 0)
    else Pick([], 0, -1)
  }

  predicate HasTable(t: Table) {
    t.magic == TABLE_MAGIC && t.version == 1 && 0 < t.count <= MAX_ROMS
  }

  datatype Selection = Unloadable | Loaded(entries: seq<RomEntry>, generation: u32, slot: int, trusted: bool)

  /** The catalogue a load selects when everything can be read. */
  function Selected(f: Flash): Selection {
    var pick := ScanSlots(f, true, true);
    if pick.slot >= 0 then Loaded(pick.entries, pick.generation, pick.slot, true)
    else if !HasTable(f.table) then Loaded([], 0, -1, false)
    else if EntriesValid(f.table.rows[..f.table.count], f.End()) then Loaded(f.table.rows[..f.table.count], 0, -1, true)
    else Unloadable
  }

  // ----- State and operations as functions.

  datatype Ram = Ram(mounted: bool, entries: seq<RomEntry>, generation: u32, slot: int, trusted: bool, needsReload: bool)

  datatype State = State(flash: Flash, ram: Ram)

  datatype Outcome = Outcome(state: State, ok: bool)

  /** The statics after a reset. */
  const COLD := Ram(false, [], 0, -1, false, false)

  /** What becomes of reading and hashing one directory slot. Only a failed read is remembered as one. */
  datatype ReadFate = ReadOk | ReadFailed | HashFailed

  datatype InitFate = InitFate(found: bool, alloc: bool, slot0: ReadFate, slot1: ReadFate, headerReads: bool, rowsRead: bool)

  function InitSpec(s: State, x: InitFate): Outcome {
    var closed := Ram(x.found, [], 0, -1, false, true);
    var pick := ScanSlots(s.flash, x.slot0.ReadOk?, x.slot1.ReadOk?);
    var t := s.flash.table;
    if !x.found || !x.alloc then Outcome(s.(ram := closed), false)
    else if x.slot0.ReadFailed? || x.slot1.ReadFailed? then
      Outcome(s.(ram := closed.(generation := pick.generation, slot := pick.slot)), false)
    else if pick.slot >= 0 then
      Outcome(s.(ram := Ram(true, pick.entries, pick.generation, pick.slot, true, false)), true)
    else if !x.headerReads then Outcome(s.(ram := closed), false)
    else if !HasTable(t) then Outcome(s.(ram := closed.(needsReload := false)), true)
    else if !x.rowsRead || !EntriesValid(t.rows[..t.count], s.flash.End()) then Outcome(s.(ram := closed), false)
    else Outcome(s.(ram := Ram(true, t.rows[..t.count], 0, -1, true, false)), true)
  }

  /** An erase that reports failure leaves the sector as it was or as noise. */
  datatype EraseFate = Erased | EraseKept | EraseSpoiled

  /** A write that reports failure leaves a torn sector, or had in fact arrived. */
  datatype WriteFate = Written | WriteTorn | WriteArrived

  datatype PublishFate = PublishFate(alloc: bool, hash: bool, erase: EraseFate, write: WriteFate, readback: ReadFate)

  function PublishSpec(s: State, updated: seq<RomEntry>, x: PublishFate): Outcome {
    var d := DirectoryOf(Wrap(s.ram.generation + 1), updated);
    var target := if s.ram.slot == 0 then 1 else 0;
    if !x.alloc || !x.hash || x.erase == EraseKept then Outcome(s, false)
    else if x.erase == EraseSpoiled then Outcome(s.(flash := s.flash.With(target, Noise)), false)
    else
      var flash := s.flash.With(target, if x.write == WriteTorn then Noise else Record(d));
      if x.write == Written && x.readback.ReadOk? && Stored(flash, target) == Some(d) then
        Outcome(State(flash, s.ram.(entries := updated, generation := d.generation, slot := target, trusted := true, needsReload := false)), true)
      else
        Outcome(State(flash, s.ram.(trusted := false, needsReload := true)), false)
  }

  predicate Usable(r: Ram) {
    r.mounted && !r.needsReload
  }

  predicate NameFree(es: seq<RomEntry>, name: CString, except: int) {
    NameValid(name) && forall i | 0 <= i < |es| && i != except :: es[i].name != name
  }

  function Removed(es: seq<RomEntry>, index: nat): seq<RomEntry>
    requires index < |es|
  {
    es[..index] + es[index + 1..]
  }

  function DeleteSpec(s: State, index: nat, x: PublishFate): Outcome {
    if !Usable(s.ram) || index >= |s.ram.entries| then Outcome(s, false)
    else PublishSpec(s, Removed(s.ram.entries, index), x)
  }

  function RenameSpec(s: State, index: nat, name: CString, x: PublishFate): Outcome {
    var es := s.ram.entries;
    if !Usable(s.ram) || index >= |es| || !NameFree(es, name, index) then Outcome(s, false)
    else if es[index].name == name then Outcome(s, true)
    else PublishSpec(s, es[index := es[index].(name := name)], x)
  }

  /** How the transfer of a ROM ended: every byte streamed and programmed, or the target region
      left with arbitrary contents. */
  datatype DataPhase = Streamed(image: seq<byte>) | Spoiled(residue: seq<byte>) {
    function Region(): seq<byte> { if Streamed? then image else residue }
  }

  function DeclaredRomSize(code: byte): int {
    if code == 0 then 32768 else if code == 1 then 65536 else if code == 2 then 131072
    else if code == 3 then 262144 else if code == 4 then 524288 else if code == 5 then 1048576
    else if code == 6 then 2097152 else if code == 7 then 4194304
    else if code == 0x52 then 72 * 16384 else if code == 0x53 then 80 * 16384
    else if code == 0x54 then 96 * 16384 else 0
  }

  predicate SupportedType(t: byte) {
    t in {0x00, 0x01, 0x02, 0x03, 0x05, 0x06, 0x0F, 0x10, 0x11, 0x12, 0x13, 0x19, 0x1A, 0x1B, 0x1C, 0x1D, 0x1E}
  }

  predicate HeaderAccepted(image: seq<byte>)
    requires |image| >= 0x150
  {
    image[0x143] != 0xC0 && SupportedType(image[0x147]) && DeclaredRomSize(image[0x148]) == |image|
  }

  function Replace(bytes: seq<byte>, at: nat, data: seq<byte>): (r: seq<byte>)
    requires at + |data| <= |bytes|
    ensures |r| == |bytes|
  {
    bytes[..at] + data + bytes[at + |data|..]
  }

  function Rewritten(f: Flash, at: nat, data: seq<byte>): Flash
    requires at + |data| <= |f.bytes|
  {
    f.(bytes := Replace(f.bytes, at, data))
  }

  predicate UploadAdmitted(s: State, name: CString, bytes: nat) {
    && Usable(s.ram) && NameFree(s.ram.entries, name, -1) && |s.ram.entries| < MAX_ROMS
    && SMALLEST <= bytes <= SectorsLimit(|s.flash.bytes|) && bytes % BANK == 0
    && FirstFit(s.ram.entries, s.flash.End(), bytes) != 0
  }

  function UploadSpec(s: State, name: CString, bytes: nat, data: DataPhase, x: PublishFate): Outcome
    requires |data.Region()| == bytes
  {
    if !UploadAdmitted(s, name, bytes) then Outcome(s, false)
    else
      var es := s.ram.entries;
      var offset := FirstFit(es, s.flash.End(), bytes);
      FirstFitIsLowest(es, s.flash.End(), bytes, SECTOR);
      var after := s.(flash := Rewritten(s.flash, offset, data.Region()));
      if data.Spoiled? || !HeaderAccepted(data.image) then Outcome(after, false)
      else PublishSpec(after, es + [RomEntry(name, offset, bytes, Sha256(data.image))], x)
  }

  // ----- Runs.

  datatype Event =
    | Boot
    | Init(init: InitFate)
    | Delete(index: nat, fate: PublishFate)
    | Rename(index: nat, name: CString, fate: PublishFate)
    | Upload(name: CString, data: DataPhase, fate: PublishFate)

  function Step(s: State, e: Event): Outcome {
    match e
    case Boot => Outcome(s.(ram := COLD), true)
    case Init(x) => InitSpec(s, x)
    case Delete(index, x) => DeleteSpec(s, index, x)
    case Rename(index, name, x) => RenameSpec(s, index, name, x)
    case Upload(name, data, x) => UploadSpec(s, name, |data.Region()|, data, x)
  }

  function Run(s: State, events: seq<Event>): State
    decreases |events|
  {
    if events == [] then s else Run(Step(s, events[0]).state, events[1..])
  }

  // ----- Invariant.

  /** Two valid slots hold consecutive generations. */
  predicate SlotsAdjacent(f: Flash) {
    var first, second := Stored(f, 0), Stored(f, 1);
    first.Some? && second.Some? ==>
      first.value.generation == Wrap(second.value.generation + 1) || second.value.generation == Wrap(first.value.generation + 1)
  }

  /** Unless a reload is due, RAM holds exactly what a load would select when nothing fails. */
  predicate Coherent(s: State) {
    var r := s.ram;
    && (Usable(r) ==> Selected(s.flash) == Loaded(r.entries, r.generation, r.slot, r.trusted))
    && (!Usable(r) ==> !r.trusted)
    && (!r.mounted ==> r.entries == [])
  }

  predicate Inv(s: State) {
    SlotsAdjacent(s.flash) && Coherent(s)
  }

  /** The catalogue an event asks for. */
  function Requested(s: State, e: Event): seq<RomEntry> {
    var es := s.ram.entries;
    match e
    case Delete(index, _) => if index < |es| then Removed(es, index) else es
    case Rename(index, name, _) => if index < |es| then es[index := es[index].(name := name)] else es
    case Upload(name, data, _) =>
      var offset := FirstFit(es, s.flash.End(), |data.Region()|);
      if data.Streamed? && 0 <= offset < |s.flash.bytes| && |data.image| < |s.flash.bytes|
      then es + [RomEntry(name, offset, |data.image|, Sha256(data.image))] else es
    case _ => es
  }

  predicate SameSlots(f: Flash, g: Flash) {
    f.slot0 == g.slot0 && f.slot1 == g.slot1 && f.table == g.table && |f.bytes| == |g.bytes|
  }

  lemma SameSlotsSameSelection(f: Flash, g: Flash)
    requires SameSlots(f, g)
    ensures Selected(f) == Selected(g) && SlotsAdjacent(f) == SlotsAdjacent(g)
    ensures forall i | i == 0 || i == 1 :: Stored(f, i) == Stored(g, i)
  {
  }

  /** One commit: whatever happens, a later load finds the old catalogue or exactly the new one;
      success means the new one, an open failure the old one, and doubt closes the catalogue. */
  lemma PublishIsAtomic(s: State, updated: seq<RomEntry>, x: PublishFate)
    requires Inv(s) && Usable(s.ram) && EntriesValid(updated, s.flash.End())
    ensures var after := PublishSpec(s, updated, x);
      var target := if s.ram.slot == 0 then 1 else 0;
      var committed := Loaded(updated, Wrap(s.ram.generation + 1), target, true);
      && Inv(after.state)
      && (Selected(after.state.flash) == Selected(s.flash) || Selected(after.state.flash) == committed)
      && (after.ok ==> Selected(after.state.flash) == committed && Usable(after.state.ram))
      && (!after.ok && !after.state.ram.needsReload ==> after.state.ram == s.ram && Selected(after.state.flash) == Selected(s.flash))
      && after.state.flash.bytes == s.flash.bytes && after.state.flash.table == s.flash.table
  {
    hide EntriesValid;
    var f := s.flash;
    var target := if s.ram.slot == 0 then 1 else 0;
    var d := DirectoryOf(Wrap(s.ram.generation + 1), updated);
    var torn, full := f.With(target, Noise), f.With(target, Record(d));
    assert Stored(torn, target) == None && Stored(full, target) == Some(d);
    assert Stored(torn, 1 - target) == Stored(f, 1 - target) == Stored(full, 1 - target);
    assert s.ram.slot >= 0 ==> Stored(f, s.ram.slot).Some? && s.ram.slot == 1 - target;
    assert Selected(torn) == Selected(f);
    assert Selected(full) == Loaded(updated, d.generation, target, true);
  }

  lemma RemovedValid(es: seq<RomEntry>, end: int, index: nat)
    requires EntriesValid(es, end) && index < |es|
    ensures EntriesValid(Removed(es, index), end)
  {
    var r := Removed(es, index);
    forall i | 0 <= i < |r| ensures EntryShape(r[i], end) {
      assert EntryShape(es[if i < index then i else i + 1], end);
    }
    forall i, j | 0 <= j < i < |r| ensures Compatible(r[i], r[j]) {
      assert Compatible(es[if i < index then i else i + 1], es[if j < index then j else j + 1]);
    }
  }

  lemma RenamedValid(es: seq<RomEntry>, end: int, index: nat, name: CString)
    requires EntriesValid(es, end) && index < |es| && NameFree(es, name, index)
    ensures EntriesValid(es[index := es[index].(name := name)], end)
  {
    var r := es[index := es[index].(name := name)];
    forall i | 0 <= i < |r| ensures EntryShape(r[i], end) {
      assert EntryShape(es[i], end);
    }
    forall i, j | 0 <= j < i < |r| ensures Compatible(r[i], r[j]) {
      assert Compatible(es[i], es[j]);
    }
  }

  lemma AppendedValid(es: seq<RomEntry>, end: int, e: RomEntry)
    requires EntriesValid(es, end) && |es| < MAX_ROMS && EntryShape(e, end) && NameFree(es, e.name, -1)
    requires Feasible(es, end, e.offset, e.size)
    ensures EntriesValid(es + [e], end)
  {
    forall j | 0 <= j < |es| ensures Compatible(e, es[j]) {
      assert !es[j].Overlaps(e.offset, e.offset + e.size);
    }
  }

  /** An admitted upload goes to sector-aligned data space that no catalogued ROM touches. */
  lemma UploadTarget(s: State, name: CString, bytes: nat)
    requires Inv(s) && UploadAdmitted(s, name, bytes)
    ensures var at := FirstFit(s.ram.entries, s.flash.End(), bytes);
      && Feasible(s.ram.entries, s.flash.End(), at, bytes) && at % SECTOR == 0
      && forall d | EntryShape(RomEntry(name, at, bytes, d), s.flash.End())
           :: EntriesValid(s.ram.entries + [RomEntry(name, at, bytes, d)], s.flash.End())
  {
    var es, end := s.ram.entries, s.flash.End();
    FirstFitIsLowest(es, end, bytes, SECTOR);
    SelectedValid(s.flash);
    FirstFitAligned(es, end, bytes);
    var at := FirstFit(es, end, bytes);
    forall d | EntryShape(RomEntry(name, at, bytes, d), end)
      ensures EntriesValid(es + [RomEntry(name, at, bytes, d)], end)
    {
      AppendedValid(es, end, RomEntry(name, at, bytes, d));
    }
  }

  lemma SelectedValid(f: Flash)
    ensures Selected(f).Loaded? ==> EntriesValid(Selected(f).entries, f.End())
  {
  }

  // ----- Receiving a ROM.

  function Blank(n: nat): seq<byte> {
    seq(n, _ => 0xFF)
  }

  /** The reader, what the medium does to each transfer, and which calls of the running hash work. */
  datatype Transfer = Transfer(chunks: seq<seq<byte>>, eraseOk: bool, writeOk: nat -> bool, noise: int -> byte,
                               hashStarts: bool, hashUpdates: nat -> bool, hashFinishes: bool)

  function Joined(chunks: seq<seq<byte>>): seq<byte> {
    if chunks == [] then [] else Joined(chunks[..|chunks| - 1]) + chunks[|chunks| - 1]
  }

  function Debris(t: Transfer, n: nat): (s: seq<byte>)
    ensures |s| == n
  {
    if n == 0 then [] else Debris(t, n - 1) + [t.noise(n - 1)]
  }

  /** How many bytes the reader is asked for when this many are left. */
  function Wanted(left: nat): nat {
    if left > 1024 then 1024 else left
  }

  /** The transfer loop from call number `call` on, with what has arrived so far. */
  function Arriving(t: Transfer, bytes: nat, call: nat, done: seq<byte>): (d: DataPhase)
    requires |done| <= bytes
    ensures |d.Region()| == bytes
    decreases bytes - |done|
  {
    var left := bytes - |done|;
    if left == 0 then if t.hashFinishes then Streamed(done) else Spoiled(done)
    else
      var got := if call < |t.chunks| then t.chunks[call] else [];
      if got == [] || |got| > Wanted(left) then Spoiled(done + Blank(left))
      else if !t.writeOk(call) then Spoiled(done + Debris(t, |got|) + Blank(left - |got|))
      else if !t.hashUpdates(call) then Spoiled(done + got + Blank(left - |got|))
      else Arriving(t, bytes, call + 1, done + got)
  }

  /** What an upload of so many bytes receives, or leaves behind in the target region. */
  function Received(t: Transfer, bytes: nat): (d: DataPhase)
    ensures |d.Region()| == bytes
  {
    if !t.eraseOk then Spoiled(Debris(t, bytes))
    else if !t.hashStarts then Spoiled(Blank(bytes))
    else Arriving(t, bytes, 0, [])
  }

  /** The first n chunks are handed over in sizes that the loop accepts, and each is written and hashed. */
  predicate Delivers(t: Transfer, bytes: nat, n: nat) {
    && n <= |t.chunks|
    && forall k | 0 <= k < n ::
         && 0 < |t.chunks[k]| <= 1024 && |Joined(t.chunks[..k])| + |t.chunks[k]| <= bytes
         && t.writeOk(k) && t.hashUpdates(k)
  }

  /** The whole ROM came: in so many chunks, and no call failed. */
  predicate Arrives(t: Transfer, bytes: nat, n: nat) {
    n <= |t.chunks| && t.eraseOk && t.hashStarts && t.hashFinishes && Delivers(t, bytes, n) && |Joined(t.chunks[..n])| == bytes
  }

  lemma OneMoreChunk(t: Transfer, bytes: nat, call: nat, done: seq<byte>)
    requires |done| < bytes
    ensures var left := bytes - |done|;
      var got := if call < |t.chunks| then t.chunks[call] else [];
      Arriving(t, bytes, call, done) ==
        if got == [] || |got| > Wanted(left) then Spoiled(done + Blank(left))
        else if !t.writeOk(call) then Spoiled(done + Debris(t, |got|) + Blank(left - |got|))
        else if !t.hashUpdates(call) then Spoiled(done + got + Blank(left - |got|))
        else Arriving(t, bytes, call + 1, done + got)
  {
  }

  lemma AllArrived(t: Transfer, bytes: nat, call: nat, done: seq<byte>)
    requires |done| == bytes
    ensures Arriving(t, bytes, call, done) == if t.hashFinishes then Streamed(done) else Spoiled(done)
  {
  }

  lemma JoinedMore(chunks: seq<seq<byte>>, k: nat)
    requires k < |chunks|
    ensures Joined(chunks[..k + 1]) == Joined(chunks[..k]) + chunks[k]
  {
    assert chunks[..k + 1][..k] == chunks[..k];
  }

  /** Nothing but a whole ROM is taken for one... */
  lemma {:induction false} ArrivedWhole(t: Transfer, bytes: nat, call: nat) returns (n: nat)
    requires Delivers(t, bytes, call) && |Joined(t.chunks[..call])| <= bytes
    requires Arriving(t, bytes, call, Joined(t.chunks[..call])).Streamed?
    ensures n <= |t.chunks| && Delivers(t, bytes, n) && |Joined(t.chunks[..n])| == bytes && t.hashFinishes
    ensures Arriving(t, bytes, call, Joined(t.chunks[..call])) == Streamed(Joined(t.chunks[..n]))
    decreases bytes - |Joined(t.chunks[..call])|
  {
    hide Joined;
    n := call;
    if |Joined(t.chunks[..call])| < bytes {
      JoinedMore(t.chunks, call);
      n := ArrivedWhole(t, bytes, call + 1);
    }
  }

  /** ...and every whole ROM is. */
  lemma {:induction false} WholeArrives(t: Transfer, bytes: nat, call: nat, n: nat)
    requires call <= n && Delivers(t, bytes, n) && |Joined(t.chunks[..n])| == bytes && t.hashFinishes
    requires |Joined(t.chunks[..call])| <= bytes
    ensures Arriving(t, bytes, call, Joined(t.chunks[..call])) == Streamed(Joined(t.chunks[..n]))
    decreases n - call
  {
    hide Joined;
    if call < n {
      JoinedMore(t.chunks, call);
      WholeArrives(t, bytes, call + 1, n);
    }
  }

  /** An upload receives an image exactly when the erase works, the chunks handed over are never empty and
      never larger than asked for, each is written and hashed, and together they are that image. */
  lemma ReceivedExactlyWhen(t: Transfer, bytes: nat, image: seq<byte>)
    ensures Received(t, bytes) == Streamed(image) <==> exists n: nat :: Arrives(t, bytes, n) && image == Joined(t.chunks[..n])
  {
    hide Joined, Arriving, Delivers;
    NothingJoined(t, bytes);
    if Received(t, bytes).Streamed? {
      var n := ArrivedWhole(t, bytes, 0);
      assert Arrives(t, bytes, n);
    }
    forall n: nat | Arrives(t, bytes, n) ensures Received(t, bytes) == Streamed(Joined(t.chunks[..n])) {
      WholeArrives(t, bytes, 0, n);
    }
  }

  lemma {:induction false} JoinedGrows(chunks: seq<seq<byte>>, k: nat, n: nat)
    requires k <= n <= |chunks|
    ensures |Joined(chunks[..k])| <= |Joined(chunks[..n])|
    decreases n
  {
    hide Joined;
    if k < n {
      JoinedMore(chunks, n - 1);
      JoinedGrows(chunks, k, n - 1);
    }
  }

  /** However a reader cuts a ROM into pieces of one to 1024 bytes, if no call fails then that ROM is received. */
  lemma UndisturbedIsReceived(t: Transfer)
    requires t.eraseOk && t.hashStarts && t.hashFinishes
    requires forall k | 0 <= k < |t.chunks| :: 0 < |t.chunks[k]| <= 1024 && t.writeOk(k) && t.hashUpdates(k)
    ensures Received(t, |Joined(t.chunks)|) == Streamed(Joined(t.chunks))
  {
    hide Joined, Received;
    var bytes, n := |Joined(t.chunks)|, |t.chunks|;
    assert t.chunks[..n] == t.chunks;
    forall k | 0 <= k < n ensures |Joined(t.chunks[..k])| + |t.chunks[k]| <= bytes {
      JoinedMore(t.chunks, k);
      JoinedGrows(t.chunks, k + 1, n);
    }
    assert Arrives(t, bytes, n);
    ReceivedExactlyWhen(t, bytes, Joined(t.chunks));
  }

  lemma NothingJoined(t: Transfer, bytes: nat)
    ensures Joined(t.chunks[..0]) == [] && Delivers(t, bytes, 0)
  {
  }

  const CLEAN_PUBLISH := PublishFate(true, true, Erased, Written, ReadOk)

  /** An undisturbed commit succeeds. */
  lemma CleanPublish(s: State, updated: seq<RomEntry>)
    requires EntriesValid(updated, s.flash.End())
    ensures PublishSpec(s, updated, CLEAN_PUBLISH).ok
  {
  }

  /** Undisturbed, the operations are refused for the documented reasons and no other. */
  lemma RefusedOnlyFor(s: State, index: nat, name: CString, bytes: nat, t: Transfer)
    requires Inv(s)
    ensures var es := s.ram.entries;
      && (DeleteSpec(s, index, CLEAN_PUBLISH).ok <==> Usable(s.ram) && index < |es|)
      && (RenameSpec(s, index, name, CLEAN_PUBLISH).ok <==> Usable(s.ram) && index < |es| && NameFree(es, name, index))
      && (UploadSpec(s, name, bytes, Received(t, bytes), CLEAN_PUBLISH).ok <==>
            UploadAdmitted(s, name, bytes) && exists n: nat :: Arrives(t, bytes, n) && HeaderAccepted(Joined(t.chunks[..n])))
  {
    hide PublishSpec, Received, Arrives, HeaderAccepted, Joined;
    DeleteRefusedOnlyFor(s, index);
    SelectedValid(s.flash);
    var es, end := s.ram.entries, s.flash.End();
    if Usable(s.ram) && index < |es| && NameFree(es, name, index) {
      RenamedValid(es, end, index, name);
      CleanPublish(s, es[index := es[index].(name := name)]);
    }
    if UploadAdmitted(s, name, bytes) {
      UploadRefusedOnlyFor(s, name, bytes, t);
    }
  }

  lemma DeleteRefusedOnlyFor(s: State, index: nat)
    requires Inv(s)
    ensures DeleteSpec(s, index, CLEAN_PUBLISH).ok <==> Usable(s.ram) && index < |s.ram.entries|
  {
    hide PublishSpec;
    SelectedValid(s.flash);
    if Usable(s.ram) && index < |s.ram.entries| {
      RemovedValid(s.ram.entries, s.flash.End(), index);
      CleanPublish(s, Removed(s.ram.entries, index));
    }
  }

  lemma UploadRefusedOnlyFor(s: State, name: CString, bytes: nat, t: Transfer)
    requires Inv(s) && UploadAdmitted(s, name, bytes)
    ensures forall n: nat | Arrives(t, bytes, n) :: |Joined(t.chunks[..n])| >= 0x150
    ensures UploadSpec(s, name, bytes, Received(t, bytes), CLEAN_PUBLISH).ok <==>
      exists n: nat :: Arrives(t, bytes, n) && HeaderAccepted(Joined(t.chunks[..n]))
  {
    hide PublishSpec, HeaderAccepted, Joined;
    var es, end, data := s.ram.entries, s.flash.End(), Received(t, bytes);
    UploadTarget(s, name, bytes);
    var at := FirstFit(es, end, bytes);
    hide Received, Delivers, Stored;
    if data.Streamed? {
      ReceivedExactlyWhen(t, bytes, data.image);
      var entry := RomEntry(name, at, bytes, Sha256(data.image));
      assert EntryShape(entry, end);
      CleanPublish(s.(flash := Rewritten(s.flash, at, data.image)), es + [entry]);
    }
    forall n: nat | Arrives(t, bytes, n) ensures data == Streamed(Joined(t.chunks[..n])) {
      ReceivedExactlyWhen(t, bytes, Joined(t.chunks[..n]));
    }
  }

  /** What one event may do to the catalogue a later load finds. */
  predicate Atomic(s: State, e: Event) {
    var after := Step(s, e);
    var old', new' := Selected(s.flash), Selected(after.state.flash);
    && (new' == old'
        || (Usable(s.ram) && new'.Loaded? && new'.entries == Requested(s, e)
            && new'.generation == Wrap(s.ram.generation + 1) && new'.slot >= 0 && new'.trusted))
    && (Usable(s.ram) && !after.ok && !after.state.ram.needsReload ==> new' == old')
    && ((e.Delete? || e.Rename? || e.Upload?) && after.ok ==>
         Usable(after.state.ram) && after.state.ram.entries == Requested(s, e))
    && ((e.Delete? || e.Rename? || e.Upload?) && !Usable(s.ram) ==> after == Outcome(s, false))
  }

  lemma CommitStep(s: State, e: Event, before: State, updated: seq<RomEntry>, x: PublishFate)
    requires Inv(s) && Usable(s.ram) && before.ram == s.ram && SameSlots(before.flash, s.flash)
    requires EntriesValid(updated, s.flash.End()) && updated == Requested(s, e)
    requires Step(s, e) == PublishSpec(before, updated, x)
    ensures Inv(Step(s, e).state) && Atomic(s, e)
  {
    SameSlotsSameSelection(before.flash, s.flash);
    PublishIsAtomic(before, updated, x);
  }

  /** The slot that the load should select, if any, is hashed. */
  predicate Hashed(f: Flash, x: InitFate) {
    && (Selected(f).Loaded? && Selected(f).slot == 0 ==> !x.slot0.HashFailed?)
    && (Selected(f).Loaded? && Selected(f).slot == 1 ==> !x.slot1.HashFailed?)
  }

  /** A slot whose hash cannot be computed passes for an empty one: a load that is accepted agrees with
      the flash exactly when the slot to be selected was hashed; a refused load closes the catalogue. */
  lemma LoadCoherentExactlyWhen(s: State, x: InitFate)
    ensures var after := InitSpec(s, x); Coherent(after.state) <==> (after.ok ==> Hashed(s.flash, x))
  {
  }

  /** A hash failure on the newer slot brings back the catalogue before the last commit... */
  lemma LostHashLoadsOlder(f: Flash, before: seq<RomEntry>, after: seq<RomEntry>, n: u32)
    requires EntriesValid(before, f.End()) && EntriesValid(after, f.End())
    ensures var g := f.(slot0 := Record(DirectoryOf(n, before)), slot1 := Record(DirectoryOf(Wrap(n + 1), after)));
      var out := InitSpec(State(g, COLD), CLEAN_INIT.(slot1 := HashFailed));
      && out.ok && Usable(out.state.ram) && out.state.ram.trusted && out.state.ram.entries == before
      && Selected(g) == Loaded(after, Wrap(n + 1), 1, true) && !Inv(out.state)
  {
    hide EntriesValid;
  }

  /** ...and on the only valid slot it brings back the factory table, after a commit. */
  lemma LostHashLoadsFactoryTable(f: Flash, after: seq<RomEntry>, n: u32)
    requires EntriesValid(after, f.End()) && HasTable(f.table) && EntriesValid(f.table.rows[..f.table.count], f.End())
    ensures var g := f.(slot0 := Record(DirectoryOf(n, after)), slot1 := Noise);
      var out := InitSpec(State(g, COLD), CLEAN_INIT.(slot0 := HashFailed));
      && out.ok && out.state.ram == Ram(true, f.table.rows[..f.table.count], 0, -1, true, false)
      && Selected(g) == Loaded(after, n, 0, true) && !Inv(out.state)
  {
    hide EntriesValid;
  }

  /** With such a catalogue the next commit overwrites the newest directory: an interrupted one then
      leaves the table as all there is. */
  lemma FactoryTableReturns(f: Flash, after: seq<RomEntry>, n: u32)
    requires EntriesValid(after, f.End()) && HasTable(f.table) && EntriesValid(f.table.rows[..f.table.count], f.End())
    ensures var g := f.(slot0 := Record(DirectoryOf(n, after)), slot1 := Noise);
      var stale := InitSpec(State(g, COLD), CLEAN_INIT.(slot0 := HashFailed)).state;
      var cut := DeleteSpec(stale, 0, CLEAN_PUBLISH.(write := WriteTorn)).state;
      Selected(g).slot == 0 && Selected(cut.flash) == Loaded(f.table.rows[..f.table.count], 0, -1, true)
  {
    hide EntriesValid;
  }

  /** An event other than an accepted load that lost the slot to be selected. */
  predicate Sound(s: State, e: Event) {
    e.Init? && Step(s, e).ok ==> Hashed(s.flash, e.init)
  }

  /** Catalogue atomicity for every event and every fate; and fail-closed coherence, for exactly the
      sound ones. */
  lemma StepIsAtomic(s: State, e: Event)
    requires Inv(s)
    ensures Atomic(s, e)
    ensures Inv(Step(s, e).state) <==> Sound(s, e)
  {
    SelectedValid(s.flash);
    var es, end := s.ram.entries, s.flash.End();
    match e
    case Boot =>
    case Init(x) => LoadCoherentExactlyWhen(s, x);
    case Delete(index, x) =>
      if Usable(s.ram) && index < |es| {
        RemovedValid(es, end, index);
        CommitStep(s, e, s, Removed(es, index), x);
      }
    case Rename(index, name, x) =>
      if Usable(s.ram) && index < |es| && NameFree(es, name, index) {
        if es[index].name == name {
          assert es[index := es[index].(name := name)] == es;
        } else {
          RenamedValid(es, end, index, name);
          CommitStep(s, e, s, es[index := es[index].(name := name)], x);
        }
      }
    case Upload(name, data, x) =>
      if UploadAdmitted(s, name, |data.Region()|) {
        UploadIsAtomic(s, name, data, x);
      }
  }

  /** After a deletion that reports success, under any fault, a load finds every other row as it was and in its
      order, and no row of that name... */
  lemma DeletedIsGone(s: State, index: nat, x: PublishFate)
    requires Inv(s) && DeleteSpec(s, index, x).ok
    ensures var es, found := s.ram.entries, Selected(DeleteSpec(s, index, x).state.flash);
      && Selected(s.flash).Loaded? && Selected(s.flash).entries == es && index < |es|
      && found.Loaded? && |found.entries| == |es| - 1
      && (forall i | 0 <= i < index :: found.entries[i] == es[i])
      && (forall i | index <= i < |es| - 1 :: found.entries[i] == es[i + 1])
      && (forall i | 0 <= i < |es| - 1 :: found.entries[i].name != es[index].name)
  {
    StepIsAtomic(s, Delete(index, x));
    SelectedValid(s.flash);
    hide PublishSpec, Selected, EntryShape;
    var es := s.ram.entries;
    forall k | 0 <= k < |es| && k != index ensures es[k].name != es[index].name {
      if k < index {
        assert Compatible(es[index], es[k]);
      } else {
        assert Compatible(es[k], es[index]);
      }
    }
  }

  /** ...and after a renaming that does, the row has the new name and is otherwise as it was, and so are the
      others. */
  lemma RenamedIsFound(s: State, index: nat, name: CString, x: PublishFate)
    requires Inv(s) && RenameSpec(s, index, name, x).ok
    ensures var es, found := s.ram.entries, Selected(RenameSpec(s, index, name, x).state.flash);
      && Selected(s.flash).Loaded? && Selected(s.flash).entries == es && index < |es|
      && found.Loaded? && |found.entries| == |es|
      && (forall i | 0 <= i < |es| && i != index :: found.entries[i] == es[i] && es[i].name != name)
      && found.entries[index].name == name
      && (found.entries[index].offset, found.entries[index].size, found.entries[index].digest) == (es[index].offset, es[index].size, es[index].digest)
  {
    StepIsAtomic(s, Rename(index, name, x));
    hide PublishSpec, Selected, EntriesValid, NameValid;
  }


  lemma UploadIsAtomic(s: State, name: CString, data: DataPhase, x: PublishFate)
    requires Inv(s) && UploadAdmitted(s, name, |data.Region()|)
    ensures var e := Upload(name, data, x); Inv(Step(s, e).state) && Atomic(s, e)
  {
    var es, end, bytes := s.ram.entries, s.flash.End(), |data.Region()|;
    var e := Upload(name, data, x);
    UploadTarget(s, name, bytes);
    var at := FirstFit(es, end, bytes);
    var before := s.(flash := Rewritten(s.flash, at, data.Region()));
    SameSlotsSameSelection(before.flash, s.flash);
    if data.Streamed? && HeaderAccepted(data.image) {
      var entry := RomEntry(name, at, bytes, Sha256(data.image));
      assert EntryShape(entry, end);
      CommitStep(s, e, before, es + [entry], x);
    }
  }

  /** Every load of the run that is accepted hashed the slot to be selected. */
  predicate SoundRun(s: State, events: seq<Event>)
    decreases |events|
  {
    events == [] || (Sound(s, events[0]) && SoundRun(Step(s, events[0]).state, events[1..]))
  }

  predicate AlwaysInv(s: State, events: seq<Event>)
    decreases |events|
  {
    Inv(s) && (events == [] || AlwaysInv(Step(s, events[0]).state, events[1..]))
  }

  /** From any good state RAM stays coherent with flash throughout a run exactly when the run is sound. */
  lemma {:induction false} RunKeepsInv(s: State, events: seq<Event>)
    requires Inv(s)
    ensures AlwaysInv(s, events) <==> SoundRun(s, events)
    ensures SoundRun(s, events) ==> Inv(Run(s, events))
    decreases |events|
  {
    if events != [] {
      StepIsAtomic(s, events[0]);
      hide Step, Inv, Sound;
      if Sound(s, events[0]) {
        RunKeepsInv(Step(s, events[0]).state, events[1..]);
      } else {
        assert !Inv(Step(s, events[0]).state);
      }
    }
  }

  const CLEAN_INIT := InitFate(true, true, ReadOk, ReadOk, true, true)

  /** A clean reload loads what Selected says, and fails only on a malformed factory table. */
  lemma ReloadLoadsSelected(s: State)
    ensures var after := InitSpec(s, CLEAN_INIT);
      && after.state.flash == s.flash
      && (after.ok <==> Selected(s.flash).Loaded?)
      && (after.ok <==> Usable(after.state.ram))
      && (after.ok ==> var r := after.state.ram;
            Selected(s.flash) == Loaded(r.entries, r.generation, r.slot, r.trusted))
  {
  }

  /** The catalogue seen after an interrupted operation, a power cycle and a reload is the one
      before the operation or the one it asked for. */
  lemma PowerLossIsAtomic(s: State, e: Event)
    requires Inv(s) && Usable(s.ram)
    ensures var reloaded := Run(s, [e, Boot, Init(CLEAN_INIT)]);
      && Usable(reloaded.ram)
      && (reloaded.ram.entries == s.ram.entries || reloaded.ram.entries == Requested(s, e))
  {
    StepIsAtomic(s, e);
    var s1 := Step(s, e).state;
    var s2 := Step(s1, Boot).state;
    ReloadLoadsSelected(s2);
    assert [e, Boot, Init(CLEAN_INIT)][1..] == [Boot, Init(CLEAN_INIT)];
    assert [Boot, Init(CLEAN_INIT)][1..] == [Init(CLEAN_INIT)];
    assert Run(s, [e, Boot, Init(CLEAN_INIT)]) == Run(s2, [Init(CLEAN_INIT)]);
    assert [Init(CLEAN_INIT)][1..] == [];
    assert Run(s2, [Init(CLEAN_INIT)]) == InitSpec(s2, CLEAN_INIT).state;
  }

  /** Once a directory has been committed, no sound run loads or selects the factory table again. */
  lemma {:induction false} FactoryTableRetired(s: State, events: seq<Event>)
    requires Inv(s) && SoundRun(s, events) && Selected(s.flash).Loaded? && Selected(s.flash).slot >= 0
    ensures var later := Run(s, events);
      && Selected(later.flash).Loaded? && Selected(later.flash).slot >= 0
      && (Usable(later.ram) ==> later.ram.slot >= 0)
    decreases |events|
  {
    if events != [] {
      StepIsAtomic(s, events[0]);
      FactoryTableRetired(Step(s, events[0]).state, events[1..]);
    }
  }

  // ----- ROM contents.

  predicate RomIntact(f: Flash, e: RomEntry) {
    e.End() <= |f.bytes| && Sha256(f.bytes[e.offset..e.End()]) == e.digest
  }

  predicate RomsIntact(f: Flash) {
    Selected(f).Loaded? && forall i | 0 <= i < |Selected(f).entries| :: RomIntact(f, Selected(f).entries[i])
  }

  lemma ReplaceSpares(bytes: seq<byte>, at: nat, data: seq<byte>, lo: nat, hi: nat)
    requires at + |data| <= |bytes| && lo <= hi <= |bytes| && (hi <= at || at + |data| <= lo)
    ensures Replace(bytes, at, data)[lo..hi] == bytes[lo..hi]
  {
  }

  /** The bytes an event changes are data-area bytes outside every catalogued ROM. */
  predicate Spares(s: State, g: Flash) {
    && g.table == s.flash.table && |g.bytes| == |s.flash.bytes|
    && g.bytes[..SECTOR] == s.flash.bytes[..SECTOR]
    && g.bytes[g.End()..] == s.flash.bytes[g.End()..]
    && (Selected(s.flash).Loaded? ==> forall i | 0 <= i < |Selected(s.flash).entries| ::
          SameRom(s.flash, g, Selected(s.flash).entries[i]))
  }

  predicate SameRom(f: Flash, g: Flash, rom: RomEntry) {
    rom.End() <= |f.bytes| && rom.End() <= |g.bytes| && g.bytes[rom.offset..rom.End()] == f.bytes[rom.offset..rom.End()]
  }

  lemma StepSparesRoms(s: State, e: Event)
    requires Inv(s)
    ensures Spares(s, Step(s, e).state.flash)
  {
    hide Spares, Step, Inv, UploadAdmitted, Rewritten;
    var f, g := s.flash, Step(s, e).state.flash;
    if e.Upload? && UploadAdmitted(s, e.name, |e.data.Region()|) {
      RewriteSparesRoms(s, e.name, e.data.Region());
      UploadKeepsRest(s, e);
      SameBytesSpare(s, Rewritten(f, FirstFit(s.ram.entries, f.End(), |e.data.Region()|), e.data.Region()), g);
    } else {
      OthersKeepBytes(s, e);
      SpareThemselves(s);
      SameBytesSpare(s, f, g);
    }
  }

  lemma SameBytesSpare(s: State, f: Flash, g: Flash)
    requires Spares(s, f) && g.bytes == f.bytes && g.table == f.table
    ensures Spares(s, g)
  {
    hide Selected;
  }

  lemma SpareThemselves(s: State)
    ensures Spares(s, s.flash)
  {
    SelectedValid(s.flash);
    hide Selected;
    if Selected(s.flash).Loaded? {
      forall i | 0 <= i < |Selected(s.flash).entries| ensures SameRom(s.flash, s.flash, Selected(s.flash).entries[i]) {
        assert EntryShape(Selected(s.flash).entries[i], s.flash.End());
      }
    }
  }

  lemma UploadKeepsRest(s: State, e: Event)
    requires Inv(s) && e.Upload? && UploadAdmitted(s, e.name, |e.data.Region()|)
    ensures var at, g := FirstFit(s.ram.entries, s.flash.End(), |e.data.Region()|), Step(s, e).state.flash;
      && at >= 0 && at + |e.data.Region()| <= |s.flash.bytes|
      && g.bytes == Rewritten(s.flash, at, e.data.Region()).bytes && g.table == s.flash.table
  {
    UploadTarget(s, e.name, |e.data.Region()|);
    hide Stored, Selected, EntriesValid, NameFree, Replace;
  }

  lemma OthersKeepBytes(s: State, e: Event)
    requires !(e.Upload? && UploadAdmitted(s, e.name, |e.data.Region()|))
    ensures Step(s, e).state.flash.bytes == s.flash.bytes && Step(s, e).state.flash.table == s.flash.table
  {
  }

  lemma RewriteSparesRoms(s: State, name: CString, region: seq<byte>)
    requires Inv(s) && UploadAdmitted(s, name, |region|)
    ensures var at := FirstFit(s.ram.entries, s.flash.End(), |region|);
      at >= 0 && at + |region| <= |s.flash.bytes| && Spares(s, Rewritten(s.flash, at, region))
  {
    var at := FirstFit(s.ram.entries, s.flash.End(), |region|);
    var es, end := s.ram.entries, s.flash.End();
    assert Feasible(es, end, at, |region|) by { UploadTarget(s, name, |region|); }
    assert EntriesValid(es, end) by { SelectedValid(s.flash); }
    RewriteSpares(s.flash, es, at, region);
    assert Selected(s.flash).Loaded? && Selected(s.flash).entries == es;
  }

  lemma RewriteSpares(f: Flash, es: seq<RomEntry>, at: nat, region: seq<byte>)
    requires EntriesValid(es, f.End()) && Feasible(es, f.End(), at, |region|)
    ensures var g := Rewritten(f, at, region);
      && g.bytes[..SECTOR] == f.bytes[..SECTOR] && g.bytes[g.End()..] == f.bytes[g.End()..]
      && forall i | 0 <= i < |es| :: SameRom(f, g, es[i])
  {
    var g := Rewritten(f, at, region);
    ReplaceSpares(f.bytes, at, region, 0, SECTOR);
    ReplaceSpares(f.bytes, at, region, f.End(), |f.bytes|);
    forall i | 0 <= i < |es| ensures SameRom(f, g, es[i]) {
      var rom := es[i];
      assert EntryShape(rom, f.End()) && !rom.Overlaps(at, at + |region|);
      ReplaceSpares(f.bytes, at, region, rom.offset, rom.End());
    }
  }

  /** ROM integrity: every ROM of the selected catalogue keeps hashing to its recorded digest. */
  lemma StepKeepsRomsIntact(s: State, e: Event)
    requires Inv(s) && RomsIntact(s.flash)
    ensures RomsIntact(Step(s, e).state.flash)
  {
    StepIsAtomic(s, e);
    StepSparesRoms(s, e);
    var f, g := s.flash, Step(s, e).state.flash;
    assert forall i | 0 <= i < |Selected(f).entries| ::
        SameRom(f, g, Selected(f).entries[i]) && RomIntact(f, Selected(f).entries[i]) ==> RomIntact(g, Selected(f).entries[i]);
    if Selected(g) != Selected(f) {
      RequestedIntact(s, e);
    }
  }

  lemma RequestedIntact(s: State, e: Event)
    requires Inv(s) && Usable(s.ram) && Selected(Step(s, e).state.flash) != Selected(s.flash)
    requires forall i | 0 <= i < |s.ram.entries| :: RomIntact(Step(s, e).state.flash, s.ram.entries[i])
    ensures forall i | 0 <= i < |Requested(s, e)| :: RomIntact(Step(s, e).state.flash, Requested(s, e)[i])
  {
    var es := s.ram.entries;
    var g := Step(s, e).state.flash;
    StepIsAtomic(s, e);
    match e
    case Delete(index, _) =>
      if index < |es| {
        forall i | 0 <= i < |Removed(es, index)| ensures RomIntact(g, Removed(es, index)[i]) {
          assert RomIntact(g, es[if i < index then i else i + 1]);
        }
      }
    case Rename(index, name, _) =>
      if index < |es| {
        assert RomIntact(g, es[index]);
      }
    case Upload(name, data, x) => UploadedIntact(s, name, data, x);
    case _ =>
  }

  lemma UploadedIntact(s: State, name: CString, data: DataPhase, x: PublishFate)
    requires Inv(s) && Usable(s.ram)
    requires var g := Step(s, Upload(name, data, x)).state.flash;
      Selected(g) != Selected(s.flash) && forall i | 0 <= i < |s.ram.entries| :: RomIntact(g, s.ram.entries[i])
    ensures var e := Upload(name, data, x);
      forall i | 0 <= i < |Requested(s, e)| :: RomIntact(Step(s, e).state.flash, Requested(s, e)[i])
  {
    var at := FirstFit(s.ram.entries, s.flash.End(), |data.Region()|);
    var g := Step(s, Upload(name, data, x)).state.flash;
    assert UploadAdmitted(s, name, |data.Region()|);
    UploadTarget(s, name, |data.Region()|);
    SameSlotsSameSelection(Rewritten(s.flash, at, data.Region()), s.flash);
    assert g.bytes == Replace(s.flash.bytes, at, data.Region());
    assert g.bytes[at..at + |data.Region()|] == data.Region();
  }

  lemma {:induction false} RunKeepsRomsIntact(s: State, events: seq<Event>)
    requires Inv(s) && SoundRun(s, events) && RomsIntact(s.flash)
    ensures RomsIntact(Run(s, events).flash)
    decreases |events|
  {
    if events != [] {
      StepIsAtomic(s, events[0]);
      StepKeepsRomsIntact(s, events[0]);
      RunKeepsRomsIntact(Step(s, events[0]).state, events[1..]);
    }
  }

  // ----- Tokens.

  /** The idealised SHA-256 of generation, row and complete entry that the web page hands out. */
  datatype Token = Token(generation: u32, row: nat, entry: RomEntry)

  function TokenSpec(r: Ram, index: nat): Option<Token> {
    if r.needsReload || index >= |r.entries| then None
    else Some(Token(r.generation, index, r.entries[index]))
  }

  /** The row a token names, if it is current; rows whose own token cannot be hashed are passed over. */
  function Resolved(r: Ram, t: Token, unhashed: set<nat>): Option<nat> {
    if TokenSpec(r, t.row) == Some(t) && t.row !in unhashed then Some(t.row) else None
  }

  /** How many commits of a run reach the flash. */
  function Commits(s: State, events: seq<Event>): nat
    decreases |events|
  {
    if events == [] then 0
    else
      var next := Step(s, events[0]).state;
      (if Selected(next.flash) != Selected(s.flash) then 1 else 0) + Commits(next, events[1..])
  }

  predicate Counted(before: Selection, after: Selection, commits: nat) {
    before.Loaded? ==>
      && after.Loaded? && after.generation == Wrap(before.generation + commits)
      && (commits == 0 ==> after == before)
  }

  lemma CountedAddsUp(a: Selection, b: Selection, c: Selection, n: nat)
    requires b == a || Counted(a, b, 1)
    requires Counted(b, c, n)
    ensures Counted(a, c, if b == a then n else 1 + n)
  {
    if a.Loaded? {
      WrapAdds(a.generation + 1, n);
    }
  }

  lemma StartsCounted(a: Selection)
    ensures Counted(a, a, 0)
  {
  }

  lemma StepCounted(s: State, e: Event)
    requires Inv(s) && Sound(s, e)
    ensures var next := Step(s, e).state;
      Inv(next) && (Selected(next.flash) == Selected(s.flash) || Counted(Selected(s.flash), Selected(next.flash), 1))
  {
    StepIsAtomic(s, e);
  }

  /** The selected generation counts commits, and nothing but a commit changes the selection. */
  lemma {:induction false} GenerationCountsCommits(s: State, events: seq<Event>)
    requires Inv(s) && SoundRun(s, events)
    ensures Counted(Selected(s.flash), Selected(Run(s, events).flash), Commits(s, events))
    decreases |events|
  {
    hide Step, Selected, Inv, Counted, Sound;
    if events == [] {
      StartsCounted(Selected(s.flash));
    } else {
      var next := Step(s, events[0]).state;
      StepCounted(s, events[0]);
      GenerationCountsCommits(next, events[1..]);
      CountedAddsUp(Selected(s.flash), Selected(next.flash), Selected(Run(next, events[1..]).flash), Commits(next, events[1..]));
    }
  }

  /** A token keeps naming its row exactly as long as no commit reached the flash (for runs short of
      2^32 commits); otherwise, or while a reload is due, it names nothing. */
  lemma StaleTokensNeverAct(s: State, events: seq<Event>, index: nat, unhashed: set<nat>)
    requires Inv(s) && SoundRun(s, events) && Usable(s.ram) && index < |s.ram.entries|
    requires Commits(s, events) < 0x1_0000_0000
    ensures var later := Run(s, events).ram;
      Resolved(later, TokenSpec(s.ram, index).value, unhashed)
        == if Usable(later) && Commits(s, events) == 0 && index !in unhashed then Some(index) else None
  {
    var n := Commits(s, events);
    var later := Run(s, events);
    hide Step, Run, Commits;
    assert Coherent(later) by { RunKeepsInv(s, events); }
    GenerationCountsCommits(s, events);
    hide Selected;
    if n > 0 {
      WrapMoves(s.ram.generation, n);
    }
  }

  // ----- The implementation, on its static variables.

  /** What a cell holds after programming: a bit stays set only if it was set and is asked for. */
  function Programmed(cell: nat, data: nat, bits: nat): (r: nat)
    ensures r < Pow2(bits)
  {
    if bits == 0 then 0
    else (if cell % 2 == 1 && data % 2 == 1 then 1 else 0) + 2 * Programmed(cell / 2, data / 2, bits - 1)
  }

  /** Only erased cells take any value. */
  lemma {:induction false} ErasedTakesAll(data: nat, bits: nat)
    requires data < Pow2(bits)
    ensures Programmed(Pow2(bits) - 1, data, bits) == data
  {
    if bits > 0 {
      ErasedTakesAll(data / 2, bits - 1);
      assert (Pow2(bits) - 1) / 2 == Pow2(bits - 1) - 1;
    }
  }

  function ProgramCell(cell: byte, data: byte): (r: byte)
    ensures cell == 0xFF ==> r == data
  {
    EightBits();
    ErasedTakesAll(data, 8);
    Programmed(cell, data, 8)
  }

  function ProgramAll(cells: seq<byte>, data: seq<byte>): (r: seq<byte>)
    requires |cells| == |data|
    ensures |r| == |data|
    ensures (forall i | 0 <= i < |cells| :: cells[i] == 0xFF) ==> r == data
  {
    if data == [] then [] else [ProgramCell(cells[0], data[0])] + ProgramAll(cells[1..], data[1..])
  }

  /** Programming the next chunk of a partly filled region extends the filled part. */
  lemma FillExtends(bytes: seq<byte>, at: nat, done: seq<byte>, left: nat, chunk: seq<byte>)
    requires at + |done| + left <= |bytes| && |chunk| <= left
    ensures var before := Replace(bytes, at, done + Blank(left));
      && before[at + |done|..at + |done| + |chunk|] == Blank(|chunk|)
      && Replace(before, at + |done|, chunk) == Replace(bytes, at, done + chunk + Blank(left - |chunk|))
  {
  }

  lemma RegionHolds(bytes: seq<byte>, at: nat, region: seq<byte>)
    requires at + |region| <= |bytes|
    ensures Replace(bytes, at, region)[at..at + |region|] == region
  {
  }

  /** The calls of the running hash and of the flash while a ROM is opened. */
  datatype OpenFate = OpenFate(starts: bool, readable: nat -> bool, updates: nat -> bool, finishes: bool) {
    ghost predicate Undisturbed() {
      starts && finishes && forall k :: readable(k) && updates(k)
    }
  }

  /** The header buffer holds the start of what has been received. */
  predicate HeaderFollows(header: seq<byte>, done: seq<byte>)
    requires |header| == 0x150
  {
    forall i | 0 <= i < |done| && i < 0x150 :: header[i] == done[i]
  }

  class GbStorage {
    var flash: Flash
    var mounted: bool
    var entries: seq<RomEntry>
    var generation: u32
    var slot: int
    var trusted: bool
    var needsReload: bool
    var readError: bool

    function Current(): State
      reads this
    {
      State(flash, Ram(mounted, entries, generation, slot, trusted, needsReload))
    }

    constructor (flash: Flash)
      ensures Current() == State(flash, COLD)
    {
      this.flash := flash;
      mounted, entries, generation, slot := false, [], 0, -1;
      trusted, needsReload, readError := false, false, false;
    }

    /** read_directory. */
    method ReadDirectory(i: int, x: ReadFate) returns (d: Option<Directory>)
      requires i == 0 || i == 1
      modifies this`readError
      ensures d == if x.ReadOk? then Stored(flash, i) else None
      ensures readError == (old(readError) || x.ReadFailed?)
    {
      if x.ReadFailed? {
        readError := true;
        return None;
      }
      var sector := flash.Slot(i);
      if sector.Noise? || sector.directory.magic != DIRECTORY_MAGIC {
        return None;
      }
      var dir := sector.directory;
      var valid := CheckEntries(dir.entries, flash.End());
      if !valid || x.HashFailed? || dir.digest != Fingerprint(dir.magic, dir.generation, dir.entries) {
        return None;
      }
      d := Some(dir);
    }

    /** gb_storage_init. */
    method Init(x: InitFate) returns (ok: bool)
      modifies this
      ensures Outcome(Current(), ok) == InitSpec(old(Current()), x)
    {
      entries, trusted, needsReload, readError, slot, generation := [], false, true, false, -1, 0;
      mounted := x.found;
      if !x.found || !x.alloc {
        return false;
      }
      var i := 0;
      while i < 2
        invariant 0 <= i <= 2 && flash == old(flash) && mounted && !trusted && needsReload
        invariant readError == ((i > 0 && x.slot0.ReadFailed?) || (i > 1 && x.slot1.ReadFailed?))
        invariant Pick(entries, generation, slot) == ScanSlots(flash, i > 0 && x.slot0.ReadOk?, i > 1 && x.slot1.ReadOk?)
      {
        var dir := ReadDirectory(i, if i == 0 then x.slot0 else x.slot1);
        if dir.Some? && (slot < 0 || Newer(dir.value.generation, generation)) {
          slot, generation, entries := i, dir.value.generation, dir.value.entries;
        }
        i := i + 1;
      }
      if readError {
        entries := [];
        return false;
      }
      if slot >= 0 {
        trusted, needsReload := true, false;
        return true;
      }
      if !x.headerReads {
        return false;
      }
      var t := flash.table;
      if t.magic != TABLE_MAGIC || t.version != 1 || t.count == 0 || t.count > MAX_ROMS {
        needsReload := false;
        return true;
      }
      if !x.rowsRead {
        return false;
      }
      var valid := CheckEntries(t.rows[..t.count], flash.End());
      if !valid {
        return false;
      }
      entries, trusted, needsReload := t.rows[..t.count], true, false;
      ok := true;
    }

    /** publish_directory. */
    method PublishDirectory(updated: seq<RomEntry>, x: PublishFate) returns (ok: bool)
      modifies this
      ensures Outcome(Current(), ok) == PublishSpec(old(Current()), updated, x)
    {
      if !x.alloc {
        return false;
      }
      var dir := DirectoryOf(Wrap(generation + 1), updated);
      ok := x.hash;
      var target := if slot == 0 then 1 else 0;
      if ok {
        ok := x.erase == Erased;
        if x.erase != EraseKept {
          flash := flash.With(target, Noise);
        }
      }
      if ok {
        needsReload := true;
        trusted := false;
        ok := x.write == Written;
        if x.write != WriteTorn {
          flash := flash.With(target, Record(dir));
        }
      }
      if ok {
        var verify := ReadDirectory(target, x.readback);
        ok := verify == Some(dir);
      }
      if ok {
        entries := updated;
        generation := dir.generation;
        slot := target;
        trusted := true;
        needsReload := false;
      }
    }

    method ValidName(name: CString, except: int) returns (ok: bool)
      ensures ok <==> NameFree(entries, name, except)
    {
      ok := GbNameValid(name);
      if !ok {
        return;
      }
      for i := 0 to |entries|
        invariant forall k | 0 <= k < i && k != except :: entries[k].name != name
      {
        if i != except && name == entries[i].name {
          return false;
        }
      }
    }

    method Delete(index: nat, x: PublishFate) returns (ok: bool)
      modifies this
      ensures Outcome(Current(), ok) == DeleteSpec(old(Current()), index, x)
    {
      if !mounted || needsReload || index >= |entries| {
        return false;
      }
      var updated := entries[..index] + entries[index + 1..];
      ok := PublishDirectory(updated, x);
    }

    method Rename(index: nat, name: CString, x: PublishFate) returns (ok: bool)
      modifies this
      ensures Outcome(Current(), ok) == RenameSpec(old(Current()), index, name, x)
    {
      if !mounted || needsReload || index >= |entries| {
        return false;
      }
      var free := ValidName(name, index);
      if !free {
        return false;
      }
      if entries[index].name == name {
        return true;
      }
      var updated := entries[index := entries[index].(name := name)];
      ok := PublishDirectory(updated, x);
    }

    /** One esp_partition_write into the partly filled region. */
    method ProgramChunk(offset: nat, written: nat, got: seq<byte>, call: nat, t: Transfer,
                        ghost start: seq<byte>, ghost done: seq<byte>, ghost left: nat)
      requires written == |done| && |got| <= left && offset + written + left <= |start|
      requires |flash.bytes| == |start| && flash.bytes == Replace(start, offset, done + Blank(left))
      modifies this`flash
      ensures flash == old(flash).(bytes := flash.bytes)
      ensures flash.bytes == Replace(start, offset, done + (if t.writeOk(call) then got else Debris(t, |got|)) + Blank(left - |got|))
    {
      hide ProgramAll;
      FillExtends(start, offset, done, left, got);
      var at := offset + written;
      var data := if t.writeOk(call) then ProgramAll(flash.bytes[at..at + |got|], got) else Debris(t, |got|);
      FillExtends(start, offset, done, left, data);
      flash := Rewritten(flash, at, data);
    }

    static method CollectHeader(header: seq<byte>, written: nat, got: seq<byte>, ghost done: seq<byte>)
      returns (r: seq<byte>)
      requires |header| == 0x150 && written == |done| && HeaderFollows(header, done)
      ensures |r| == 0x150 && HeaderFollows(r, done + got)
    {
      r := header;
      if written < 0x150 {
        var copy := if 0x150 - written > |got| then |got| else 0x150 - written;
        r := header[..written] + got[..copy] + header[written + copy..];
      }
    }

    /** The erase and the transfer loop of gb_storage_upload: only the target region changes, and it
        ends up holding exactly the bytes read, whatever sizes the reader hands over. */
    method ReceiveRom(offset: nat, bytes: nat, t: Transfer) returns (image: Option<seq<byte>>, header: seq<byte>)
      requires SECTOR <= offset && offset + bytes <= flash.End() && bytes >= SMALLEST
      modifies this`flash
      ensures offset + bytes <= |flash.bytes|
        && flash == Rewritten(old(flash), offset, Received(t, bytes).Region())
      ensures flash.bytes[offset..offset + bytes] == Received(t, bytes).Region()
      ensures image == match Received(t, bytes) case Streamed(i) => Some(i) case Spoiled(_) => None
      ensures image.Some? ==> header == image.value[..0x150]
    {
      hide Replace, Arriving, Joined, ProgramAll;
      header := seq(0x150, _ => 0);
      ghost var start := flash.bytes;
      if !t.eraseOk {
        var residue := Debris(t, bytes);
        flash := Rewritten(flash, offset, residue);
        RegionHolds(start, offset, residue);
        return None, header;
      }
      flash := Rewritten(flash, offset, Blank(bytes));
      var written, call := 0, 0;
      ghost var done: seq<byte> := [];
      assert done + Blank(bytes) == Blank(bytes);
      RegionHolds(start, offset, done + Blank(bytes));
      if !t.hashStarts {
        return None, header;
      }
      while written < bytes
        invariant written == |done| <= bytes && Arriving(t, bytes, call, done) == Received(t, bytes)
        invariant flash == Rewritten(old(flash), offset, done + Blank(bytes - written))
        invariant |header| == 0x150 && HeaderFollows(header, done)
        decreases bytes - written
      {
        var want := if bytes - written > 1024 then 1024 else bytes - written;
        var got: seq<byte> := if call < |t.chunks| then t.chunks[call] else [];
        OneMoreChunk(t, bytes, call, done);
        if got == [] || |got| > want {
          RegionHolds(start, offset, done + Blank(bytes - written));
          return None, header;
        }
        header := CollectHeader(header, written, got, done);
        ProgramChunk(offset, written, got, call, t, start, done, bytes - written);
        RegionHolds(start, offset, done + (if t.writeOk(call) then got else Debris(t, |got|)) + Blank(bytes - written - |got|));
        if !t.writeOk(call) || !t.hashUpdates(call) {
          return None, header;
        }
        done := done + got;
        written := written + |got|;
        call := call + 1;
      }
      assert done + Blank(0) == done;
      RegionHolds(start, offset, done);
      AllArrived(t, bytes, call, done);
      if !t.hashFinishes {
        return None, header;
      }
      image := Some(flash.bytes[offset..offset + bytes]);
    }

    /** gb_storage_upload. */
    method Upload(name: CString, bytes: nat, t: Transfer, x: PublishFate) returns (ok: bool)
      requires Inv(Current())
      modifies this
      ensures Outcome(Current(), ok) == UploadSpec(old(Current()), name, bytes, Received(t, bytes), x)
    {
      hide Stored, Selected, EntriesValid, NameFree, PublishSpec, Received;
      if !mounted || needsReload {
        return false;
      }
      var free := ValidName(name, -1);
      if !free || |entries| >= MAX_ROMS || bytes < SMALLEST || bytes > SectorsLimit(|flash.bytes|) || bytes % BANK != 0 {
        return false;
      }
      SelectedValid(flash);
      var available := Available(entries, |flash.bytes|);
      if bytes > available {
        return false;
      }
      var offset := FindGap(entries, flash.End(), bytes);
      if offset == 0 {
        return false;
      }
      UploadTarget(Current(), name, bytes);
      var image, header := ReceiveRom(offset, bytes, t);
      if image.None? || header[0x143] == 0xC0 || !SupportedType(header[0x147]) || DeclaredRomSize(header[0x148]) != bytes {
        return false;
      }
      var updated := entries + [RomEntry(name, offset, bytes, Sha256(image.value))];
      ok := PublishDirectory(updated, x);
    }

    /** gb_storage_open up to the mapping: the whole ROM is hashed before it is offered. */
    method Open(index: nat, x: OpenFate) returns (ok: bool)
      requires EntriesValid(entries, flash.End())
      ensures ok ==> !needsReload && index < |entries| && RomIntact(flash, entries[index])
      ensures !needsReload && index < |entries| && RomIntact(flash, entries[index]) && x.Undisturbed() ==> ok
    {
      if needsReload || index >= |entries| {
        return false;
      }
      var e := entries[index];
      assert EntryShape(e, flash.End());
      if !x.starts {
        return false;
      }
      var hashed: seq<byte> := [];
      while |hashed| < e.size
        invariant |hashed| <= e.size && hashed == flash.bytes[e.offset..e.offset + |hashed|]
        decreases e.size - |hashed|
      {
        var n := if e.size - |hashed| > 1024 then 1024 else e.size - |hashed|;
        if !x.readable(|hashed|) || !x.updates(|hashed|) {
          return false;
        }
        var at := e.offset + |hashed|;
        assert flash.bytes[e.offset..at] + flash.bytes[at..at + n] == flash.bytes[e.offset..at + n];
        hashed := hashed + flash.bytes[at..at + n];
      }
      ok := x.finishes && Sha256(hashed) == e.digest;
    }

    /** gb_storage_token. */
    method TokenFor(index: nat, hashed: bool) returns (t: Option<Token>)
      ensures t == if hashed then TokenSpec(Current().ram, index) else None
    {
      if needsReload || index >= |entries| || !hashed {
        return None;
      }
      t := Some(Token(generation, index, entries[index]));
    }

    /** gb_storage_resolve_token. */
    method ResolveToken(t: Token, unhashed: set<nat>) returns (index: Option<nat>)
      ensures index == Resolved(Current().ram, t, unhashed)
    {
      if needsReload {
        return None;
      }
      for i := 0 to |entries|
        invariant forall k | 0 <= k < i && k !in unhashed :: TokenSpec(Current().ram, k) != Some(t)
      {
        var expected := TokenFor(i, i !in unhashed);
        if expected == Some(t) {
          return Some(i);
        }
      }
      index := None;
    }
  }
}
