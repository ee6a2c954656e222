/** The save partition as the firmware uses it (main/gb_saves.c): loading, writing, deleting and
    pruning files, on the file map of the saves file system. */
module SaveFiles {
  import opened Bytes
  import opened Crc32
  import opened Saves
  import opened SaveSessions

  const HEX: string := "0123456789abcdef"

  function HexOf(bytes: seq<byte>): (s: string)
    ensures |s| == 2 * |bytes|
    ensures forall i | 0 <= i < |s| :: s[i] in HEX
  {
    if bytes == [] then "" else [HEX[bytes[0] / 16], HEX[bytes[0] % 16]] + HexOf(bytes[1..])
  }

  /** The part of a file name that identifies the ROM: its first eight hash bytes. */
  function Stem(hash: Hash): (s: string)
    ensures |s| == 16
  {
    HexOf(hash[..8])
  }

  /** save_path, without the directory. */
  function SavePath(hash: Hash, copy: char): string {
    Stem(hash) + ['.', copy]
  }

  predicate SaveName(name: string) {
    |name| == 18 && name[16] == '.' && (name[17] == 'a' || name[17] == 'b')
    && forall i | 0 <= i < 16 :: '0' <= name[i] <= '9' || 'a' <= name[i] <= 'f'
  }

  lemma PathsAreSaveNames(hash: Hash)
    ensures SaveName(SavePath(hash, 'a')) && SaveName(SavePath(hash, 'b')) && SavePath(hash, 'a') != SavePath(hash, 'b')
  {
    assert forall c | c in HEX :: '0' <= c <= '9' || 'a' <= c <= 'f';
    assert SavePath(hash, 'a')[17] == 'a' && SavePath(hash, 'b')[17] == 'b';
    assert forall i | 0 <= i < 16 :: SavePath(hash, 'a')[i] in HEX && SavePath(hash, 'b')[i] in HEX;
  }

  /** A digit of a file name. */
  predicate IsHex(c: char, d: nat) {
    if d < 10 then c as int == 48 + d else c as int == 87 + d
  }

  /** The file names of a ROM spell its first eight hash bytes in lower-case hexadecimal. */
  lemma PathSpells(hash: Hash, copy: char, i: nat)
    requires i < 8
    ensures var p := SavePath(hash, copy);
      |p| == 18 && IsHex(p[2 * i], hash[i] / 16) && IsHex(p[2 * i + 1], hash[i] % 16) && p[16] == '.' && p[17] == copy
  {
    StemDigits(hash, i);
    OneDigit(hash[i] / 16);
    OneDigit(hash[i] % 16);
    hide HexOf, IsHex, Stem;
  }

  lemma OneDigit(d: nat)
    requires d < 16
    ensures IsHex(HEX[d], d)
  {
  }

  /** A file name belongs to one of the listed ROMs. */
  predicate Owned(name: string, roms: seq<Hash>) {
    |name| >= 16 && exists i | 0 <= i < |roms| :: name[..16] == Stem(roms[i])
  }

  type Files = map<string, seq<byte>>

  function Lookup(files: Files, name: string): File {
    if name in files then Some(files[name]) else None
  }

  function PairOf(files: Files, hash: Hash): Pair {
    Pair(Lookup(files, SavePath(hash, 'a')), Lookup(files, SavePath(hash, 'b')))
  }

  /** The CRC does not depend on how the payload is cut into chunks. */
  lemma CrcExtends(front: seq<byte>, payload: seq<byte>, done: nat, n: nat)
    requires done + n <= |payload|
    ensures Crc(Crc(INITIAL, front + payload[..done]), payload[done..done + n]) == Crc(INITIAL, front + payload[..done + n])
  {
    hide Crc;
    CrcConcat(INITIAL, front + payload[..done], payload[done..done + n]);
    assert front + payload[..done] + payload[done..done + n] == front + payload[..done + n];
  }

  /** Appending to a file on a medium that stops after `landed` bytes. */
  lemma CutExtends(sent: seq<byte>, data: seq<byte>, landed: nat)
    ensures var room := if landed < |sent| then 0 else landed - |sent|;
      Cut(sent + data, landed) == Cut(sent, landed) + if |data| <= room then data else data[..room]
  {
  }

  /** What follows the cut does not matter. */
  lemma CutSooner(front: seq<byte>, payload: seq<byte>, done: nat, landed: nat)
    requires done <= |payload| && landed < |front| + done
    ensures Cut(front + payload[..done], landed) == Cut(front + payload, landed)
  {
    assert (front + payload)[..|front| + done] == front + payload[..done];
  }

  /** Two file systems that agree on every name outside the given ones. */
  predicate SameBut(f: Files, g: Files, names: set<string>) {
    f - names == g - names
  }

  /** Which of the two removals the file system carries out. */
  datatype Removal = Removal(a: bool, b: bool)

  function RemovedCopies(files: Files, hash: Hash, x: Removal): Files {
    files - (if x.a then {SavePath(hash, 'a')} else {}) - (if x.b then {SavePath(hash, 'b')} else {})
  }

  predicate Orphan(name: string, roms: seq<Hash>) {
    SaveName(name) && !Owned(name, roms)
  }

  /** A pruning pass: the order in which a listing of the current names arrives, and which calls work. */
  datatype Sweep = Sweep(opens: bool, order: set<string> -> seq<string>, readable: nat -> bool, removes: nat -> bool, closes: bool) {
    ghost predicate ListsEverything() {
      forall names: set<string> :: Lists(order(names), names)
    }

    ghost predicate Flawless() {
      opens && closes && forall k :: readable(k) && removes(k)
    }
  }

  predicate Lists(listing: seq<string>, names: set<string>) {
    (forall n | n in listing :: n in names) && forall n | n in names :: n in listing
  }

  lemma {:induction false} HexDigits(bytes: seq<byte>, k: nat)
    requires k < |bytes|
    ensures HexOf(bytes)[2 * k] == HEX[bytes[k] / 16] && HexOf(bytes)[2 * k + 1] == HEX[bytes[k] % 16]
  {
    if k > 0 {
      HexDigits(bytes[1..], k - 1);
    }
  }

  lemma StemDigits(hash: Hash, k: nat)
    requires k < 8
    ensures Stem(hash)[2 * k] == HEX[hash[k] / 16] && Stem(hash)[2 * k + 1] == HEX[hash[k] % 16]
  {
    HexDigits(hash[..8], k);
  }

  function DigitValue(c: char): (d: nat)
    requires '0' <= c <= '9' || 'a' <= c <= 'f'
    ensures d < 16 && IsHex(c, d)
  {
    if c <= '9' then c as int - 48 else c as int - 87
  }

  /** A hash whose files have this name. */
  function HashOfName(name: string): (h: Hash)
    requires SaveName(name)
    ensures forall i | 0 <= i < 8 :: h[i] == 16 * DigitValue(name[2 * i]) + DigitValue(name[2 * i + 1])
  {
    hide *;
    SaveNameDigits(name);
    seq<byte>(8, i requires 0 <= i < 8 && (forall k | 0 <= k < 16 :: '0' <= name[k] <= '9' || 'a' <= name[k] <= 'f') && |name| == 18 =>
      16 * DigitValue(name[2 * i]) + DigitValue(name[2 * i + 1])) + Zeros(24)
  }

  lemma SaveNameDigits(name: string)
    requires SaveName(name)
    ensures |name| == 18 && forall k | 0 <= k < 16 :: '0' <= name[k] <= '9' || 'a' <= name[k] <= 'f'
  {
  }

  /** The names that a sweep looks at are exactly those that some ROM's saves have. */
  lemma SaveNameExactlyWhen(name: string)
    ensures SaveName(name) <==> exists h: Hash :: name == SavePath(h, 'a') || name == SavePath(h, 'b')
  {
    forall h: Hash ensures SaveName(SavePath(h, 'a')) && SaveName(SavePath(h, 'b')) {
      PathsAreSaveNames(h);
    }
    if SaveName(name) {
      var h := HashOfName(name);
      var p := SavePath(h, name[17]);
      forall i | 0 <= i < 8 ensures p[2 * i] == name[2 * i] && p[2 * i + 1] == name[2 * i + 1] {
        PathSpells(h, name[17], i);
        OneSpelling(p[2 * i], name[2 * i], h[i] / 16);
        OneSpelling(p[2 * i + 1], name[2 * i + 1], h[i] % 16);
      }
      PathSpells(h, name[17], 0);
      forall k | 0 <= k < 18 ensures p[k] == name[k] {
        assert k < 16 ==> k == 2 * (k / 2) || k == 2 * (k / 2) + 1;
      }
      assert p == name;
    }
  }

  lemma OneSpelling(c: char, e: char, d: nat)
    requires IsHex(c, d) && IsHex(e, d)
    ensures c == e
  {
  }

  /** Two ROMs share their save files exactly when they share the first eight hash bytes. */
  lemma SameStem(g: Hash, h: Hash)
    ensures Stem(g) == Stem(h) <==> g[..8] == h[..8]
  {
    if Stem(g) == Stem(h) {
      forall k | 0 <= k < 8 ensures g[..8][k] == h[..8][k] {
        StemDigits(g, k);
        StemDigits(h, k);
        HexInjective(g[k], h[k]);
      }
    }
  }

  lemma HexInjective(x: byte, y: byte)
    requires HEX[x / 16] == HEX[y / 16] && HEX[x % 16] == HEX[y % 16]
    ensures x == y
  {
    assert forall i, j | 0 <= i < j < 16 :: HEX[i] != HEX[j];
  }

  /** The part of the emulator session that saving touches. */
  class Session {
    const battery: bool
    const clock: bool
    var sram: Sram
    var rtc: Rtc
    var dirty: bool

    constructor (battery: bool, clock: bool, sram: Sram, rtc: Rtc)
      ensures this.battery == battery && this.clock == clock && this.sram == sram && this.rtc == rtc && !dirty
    {
      this.battery, this.clock, this.sram, this.rtc, dirty := battery, clock, sram, rtc, false;
    }

    function Now(): Play
      reads this
    {
      Play(battery, clock, Contents(sram, rtc), dirty)
    }

    method WriteSram(offset: nat, data: seq<byte>)
      requires offset + |data| <= |sram|
      modifies this`sram, this`dirty
      ensures Now() == Poked(old(Now()), offset, data)
    {
      if sram[offset..offset + |data|] != data {
        sram := sram[..offset] + data + sram[offset + |data|..];
        dirty := true;
      } else {
        assert sram == sram[..offset] + sram[offset..offset + |data|] + sram[offset + |data|..];
      }
    }
  }

  lemma OneMoreChunk(before: seq<byte>, payload: seq<byte>, offset: nat, n: nat)
    requires offset + n <= |before| && offset + n <= |payload|
    ensures var now := payload[..offset] + before[offset..];
      && now[offset..offset + n] == before[offset..offset + n]
      && now[..offset] + payload[offset..offset + n] + now[offset + n..] == payload[..offset + n] + before[offset + n..]
      && (payload[offset..offset + n] == before[offset..offset + n] ==> now == payload[..offset + n] + before[offset + n..])
    ensures payload[..offset + n] == before[..offset + n]
      <==> payload[..offset] == before[..offset] && payload[offset..offset + n] == before[offset..offset + n]
  {
    assert payload[..offset + n] == payload[..offset] + payload[offset..offset + n];
    assert before[..offset + n] == before[..offset] + before[offset..offset + n];
  }

  /** The session when so much of the RAM has been restored. */
  function RestoredTo(s: Play, payload: seq<byte>, offset: nat): (r: Play)
    requires offset <= |s.contents.sram| && offset <= |payload|
    ensures |r.contents.sram| == |s.contents.sram| && r.contents.rtc == s.contents.rtc
  {
    var sram := s.contents.sram;
    s.(contents := Contents(payload[..offset] + sram[offset..], s.contents.rtc), dirty := s.dirty || payload[..offset] != sram[..offset])
  }

  lemma ChunkRestored(s: Play, payload: seq<byte>, offset: nat, n: nat)
    requires offset + n <= |s.contents.sram| && offset + n <= |payload|
    ensures Poked(RestoredTo(s, payload, offset), offset, payload[offset..offset + n]) == RestoredTo(s, payload, offset + n)
  {
    OneMoreChunk(s.contents.sram, payload, offset, n);
  }

  lemma NothingRestored(s: Play, payload: seq<byte>)
    ensures RestoredTo(s, payload, 0) == s
  {
    assert payload[..0] + s.contents.sram[0..] == s.contents.sram;
  }

  lemma AllRestored(s: Play, d: seq<byte>, reach: nat, offset: nat)
    requires |d| == HEADER + |s.contents.sram| + 10 && offset == RestoredBytes(|s.contents.sram|, reach)
    ensures var payload, size, c := d[HEADER..], |s.contents.sram|, RestoreSpec(s.contents, d, reach);
      && c == Contents(RestoredTo(s, payload, offset).contents.sram, if reach >= RestoreReads(size) then payload[size..] else s.contents.rtc)
      && RestoredTo(s, payload, offset).dirty == (s.dirty || c.sram != s.contents.sram)
  {
    var payload, sram := d[HEADER..], s.contents.sram;
    assert sram == sram[..offset] + sram[offset..];
    if payload[..offset] + sram[offset..] == sram {
      assert (payload[..offset] + sram[offset..])[..offset] == payload[..offset];
    }
  }

  class SaveStore {
    var mounted: bool
    var files: Files

    constructor (mounted: bool, files: Files)
      ensures this.mounted == mounted && this.files == files
    {
      this.mounted, this.files := mounted, files;
    }

    /** What fopen for reading can reach. */
    function View(): Files
      reads this
    {
      if mounted then files else map[]
    }

    /** exists: a file that cannot be opened counts as missing. */
    predicate Exists(path: string, opens: bool)
      reads this
    {
      mounted && path in files && opens
    }

    /** check_copy, reading the payload in pieces of 512 bytes; any call that fails makes it fail. */
    method CheckCopy(path: string, hash: Hash, size: u32, readable: bool) returns (sequence: Option<u32>)
      requires size < 0xFFFF_FF00
      ensures sequence == if readable then Checked(Lookup(View(), path), hash, size) else None
    {
      hide Crc, Sealed, HeaderFits;
      if !Exists(path, readable) {
        return None;
      }
      var d := files[path];
      if |d| < HEADER || !HeaderFits(d, hash, size) {
        return None;
      }
      var payload := d[HEADER..];
      var crc := CrcUpdate(INITIAL, d[..48]);
      var done, total := 0, size + 10;
      assert d[..48] + payload[..0] == d[..48];
      while done < total
        invariant 0 <= done <= total && done <= |payload|
        invariant crc == Crc(INITIAL, d[..48] + payload[..done])
      {
        var n := if total - done < 512 then total - done else 512;
        if |payload| < done + n {
          return None;
        }
        CrcExtends(d[..48], payload, done, n);
        crc := CrcUpdate(crc, payload[done..done + n]);
        done := done + n;
      }
      if |payload| != total {
        return None;
      }
      assert payload[..done] == payload;
      sequence := if Sealed(crc) == d[48..HEADER] then Some(FromLe32(d[8..12])) else None;
    }

    /** The payload of a file goes back into the session in pieces of 512 bytes, as far as it can be read. */
    method Restore(session: Session, d: seq<byte>, reach: nat) returns (okay: bool)
      requires |d| == HEADER + |session.sram| + 10
      modifies session`sram, session`rtc, session`dirty
      ensures var before, c := old(session.Now()), RestoreSpec(old(session.Now()).contents, d, reach);
        session.Now() == before.(contents := c, dirty := before.dirty || c.sram != before.contents.sram)
      ensures okay <==> reach >= RestoreReads(|old(session.sram)|)
    {
      hide RestoreSpec, RestoredTo, Poked;
      var size := |session.sram|;
      ghost var start := session.Now();
      var payload := d[HEADER..];
      var offset, calls := 0, 0;
      NothingRestored(start, payload);
      while offset < size && calls < reach
        invariant 0 <= offset <= size && calls <= reach
        invariant offset == RestoredBytes(size, calls) && calls == (offset + 511) / 512
        invariant session.Now() == RestoredTo(start, payload, offset)
      {
        var n := if size - offset > 512 then 512 else size - offset;
        ChunkRestored(start, payload, offset, n);
        session.WriteSram(offset, payload[offset..offset + n]);
        offset := offset + n;
        calls := calls + 1;
      }
      okay := offset == size && calls < reach;
      AllRestored(start, d, reach, offset);
      if okay {
        session.rtc := payload[size..];
      }
    }

    /** The part of gb_saves_load after the choice of file. */
    method LoadCopy(session: Session, path: string, x: LoadFate) returns (r: Verdict)
      requires mounted && path in files && |files[path]| == HEADER + |session.sram| + 10
      modifies session
      ensures LoadOutcome(session.Now(), r) == CopyLoaded(old(session.Now()), files[path], x)
    {
      hide RestoreSpec, RestoreReads;
      if !Exists(path, x.opens) {
        return GbSaveError;
      }
      var okay := Restore(session, files[path], x.reach);
      okay := x.closes && okay;
      if okay {
        session.dirty := false;
      }
      r := if okay then GbSaveLoaded else GbSaveError;
    }

    /** gb_saves_load. */
    method Load(session: Session, hash: Hash, x: LoadFate) returns (r: Verdict)
      modifies session
      ensures LoadOutcome(session.Now(), r) == LoadedInto(old(session.Now()), PairOf(View(), hash), hash, x)
    {
      hide Checked, SavePath, RestoreSpec, RestoreReads, CopyLoaded;
      if !session.battery {
        return GbSaveEmpty;
      }
      var size := |session.sram|;
      AcceptedSize(PairOf(View(), hash).a, hash, size);
      AcceptedSize(PairOf(View(), hash).b, hash, size);
      var a, b := SavePath(hash, 'a'), SavePath(hash, 'b');
      var va := CheckCopy(a, hash, size, x.checks.a);
      var vb := CheckCopy(b, hash, size, x.checks.b);
      if va.None? && vb.None? {
        return if Exists(a, x.checks.seesA) || Exists(b, x.checks.seesB) then GbSaveError else GbSaveEmpty;
      }
      var path := if va.Some? && (vb.None? || Newer(va.value, vb.value)) then a else b;
      r := LoadCopy(session, path, x);
    }

    /** The CRC over a header, the RAM in pieces of 512 bytes and the clock. */
    static method ImageCrc(preamble: seq<byte>, sram: Sram, rtc: Rtc) returns (crc: Register)
      ensures crc == Crc(INITIAL, preamble + (sram + rtc))
    {
      hide Crc;
      var payload := sram + rtc;
      crc := CrcUpdate(INITIAL, preamble);
      assert preamble + payload[..0] == preamble;
      var offset := 0;
      while offset < |sram|
        invariant 0 <= offset <= |sram| && crc == Crc(INITIAL, preamble + payload[..offset])
      {
        var n := if |sram| - offset > 512 then 512 else |sram| - offset;
        CrcExtends(preamble, payload, offset, n);
        assert sram[offset..offset + n] == payload[offset..offset + n];
        crc := CrcUpdate(crc, sram[offset..offset + n]);
        offset := offset + n;
      }
      CrcExtends(preamble, payload, offset, 10);
      assert payload[offset..offset + 10] == rtc && payload[..offset + 10] == payload;
      crc := CrcUpdate(crc, rtc);
    }

    lemma CutNothing(landed: nat)
      ensures Cut([], landed) == []
    {
    }

    /** fwrite on a medium that stops after `landed` bytes of the file. */
    method Append(path: string, data: seq<byte>, landed: nat, ghost sent: seq<byte>) returns (okay: bool)
      requires path in files && files[path] == Cut(sent, landed)
      modifies this`files
      ensures files == old(files)[path := Cut(sent + data, landed)]
      ensures |sent| <= landed ==> (okay <==> |sent + data| <= landed)
    {
      var content := files[path];
      var room := if landed < |content| then 0 else landed - |content|;
      var part := if |data| <= room then data else data[..room];
      CutExtends(sent, data, landed);
      files := files[path := content + part];
      okay := |part| == |data|;
    }

    /** The writes of one file: header, RAM in pieces of 512 bytes, clock, stopping at the first short one. */
    method WriteImage(session: Session, path: string, header: seq<byte>, landed: nat) returns (okay: bool)
      requires path in files && files[path] == []
      modifies this`files
      ensures files == old(files)[path := Cut(header + (session.sram + session.rtc), landed)]
      ensures okay <==> |header + (session.sram + session.rtc)| <= landed
    {
      hide Cut;
      var size := |session.sram|;
      ghost var payload := session.sram + session.rtc;
      var offset := 0;
      CutNothing(landed);
      okay := Append(path, header, landed, []);
      assert [] + header == header && header + payload[..0] == header;
      while okay && offset < size
        invariant 0 <= offset <= size
        invariant files == old(files)[path := Cut(header + payload[..offset], landed)]
        invariant okay <==> |header| + offset <= landed
        decreases size - offset, okay
      {
        var n := if size - offset > 512 then 512 else size - offset;
        okay := Append(path, session.sram[offset..offset + n], landed, header + payload[..offset]);
        assert header + payload[..offset] + session.sram[offset..offset + n] == header + payload[..offset + n];
        offset := offset + n;
      }
      if okay {
        okay := Append(path, session.rtc, landed, header + payload[..offset]);
        assert header + payload[..offset] + session.rtc == header + payload;
      } else {
        CutSooner(header, payload, offset, landed);
      }
    }

    /** The choice of file and sequence number at the start of a write; none when two files are seen and
        neither passes its check. */
    method Plan(hash: Hash, size: u32, x: Reads) returns (target: string, sequence: u32, refused: bool)
      requires size < 0xFFFF_FF00
      ensures var p := PairOf(View(), hash);
        && (refused <==> Refuses(p, hash, size, x))
        && (!refused ==> target == SavePath(hash, if TargetsA(p, hash, size, x) then 'a' else 'b'))
        && (!refused ==> sequence == NextSequence(Seen(p, hash, size, x)))
    {
      hide SavePath, Checked;
      var a, b := SavePath(hash, 'a'), SavePath(hash, 'b');
      var va := CheckCopy(a, hash, size, x.a);
      var vb := CheckCopy(b, hash, size, x.b);
      refused := va.None? && vb.None? && Exists(a, x.seesA) && Exists(b, x.seesB);
      var latest: u32 := if va.Some? && (vb.None? || Newer(va.value, vb.value)) then va.value
                    else if vb.Some? then vb.value else 0;
      target := if va.None? && vb.None? then (if Exists(a, x.seesAgain) then b else a)
                else if va.None? then a else if vb.None? then b
                else if Newer(va.value, vb.value) then b else a;
      sequence := Wrap(latest + 1);
    }

    /** gb_saves_write once the file is chosen: write it, flush it, read it back. */
    method WriteTarget(session: Session, target: string, sequence: u32, hash: Hash, fate: WriteFate) returns (ok: bool)
      modifies this`files
      ensures var d := Image(sequence, hash, session.sram, session.rtc);
        && files == (if fate.opens && mounted then old(files)[target := Cut(d, fate.landed)] else old(files))
        && (ok <==> fate.opens && mounted && fate.landed >= |d| && fate.synced && fate.closed && fate.readback)
    {
      hide Checked, Preamble, Sealed, Crc, Cut;
      var size := |session.sram|;
      var preamble := Preamble(sequence, size, hash);
      var crc := ImageCrc(preamble, session.sram, session.rtc);
      if !fate.opens || !mounted {
        return false;
      }
      files := files[target := []];
      ok := WriteImage(session, target, preamble + Sealed(crc), fate.landed);
      ok := fate.synced && ok;
      ok := fate.closed && ok;
      NewFileChecks(sequence, hash, Attempt(session.Now().contents, fate));
      if ok {
        var check := CheckCopy(target, hash, size, fate.readback);
        ok := check.Some?;
      }
    }

    /** gb_saves_write. */
    method Write(session: Session, hash: Hash, fate: WriteFate) returns (ok: bool)
      modifies this`files, session`dirty
      ensures Saved(session.Now(), PairOf(View(), hash), ok)
           == SaveSpec(old(session.Now()), PairOf(old(View()), hash), hash, fate.(opens := fate.opens && mounted))
      ensures SameBut(old(files), files, {SavePath(hash, 'a'), SavePath(hash, 'b')})
    {
      hide SavePath, SaveName, Checked, Cut, TargetsA, NextSequence, Refuses, Seen, Image;
      PathsAreSaveNames(hash);
      if !session.battery {
        return true;
      }
      if !(session.clock || session.dirty) {
        return true;
      }
      var target, sequence, refused := Plan(hash, |session.sram|, fate.checks);
      if refused {
        return false;
      }
      ok := WriteTarget(session, target, sequence, hash, fate);
      if ok {
        session.dirty := false;
      }
    }

    /** remove_copy: a file that is already gone counts as removed. */
    method RemoveCopy(path: string, works: bool) returns (ok: bool)
      modifies this`files
      ensures files == (if works then old(files) - {path} else old(files))
      ensures ok <==> path !in files
    {
      if path !in files {
        return true;
      }
      if works {
        files := files - {path};
      }
      ok := works;
    }

    /** gb_saves_delete: both removals are tried even if the first fails. */
    method Delete(hash: Hash, x: Removal) returns (ok: bool)
      modifies this`files
      ensures files == if mounted then RemovedCopies(old(files), hash, x) else old(files)
      ensures ok <==> mounted && PairOf(files, hash) == Pair(None, None)
    {
      if !mounted {
        return false;
      }
      PathsAreSaveNames(hash);
      hide SavePath, SaveName;
      var first := RemoveCopy(SavePath(hash, 'a'), x.a);
      var second := RemoveCopy(SavePath(hash, 'b'), x.b);
      ok := first && second;
    }

    /** The comparison of live_save_name with one ROM. */
    static method HasStem(name: string, hash: Hash) returns (live: bool)
      requires SaveName(name)
      ensures live <==> name[..16] == Stem(hash)
    {
      hide Stem;
      for octet := 0 to 8
        invariant name[..2 * octet] == Stem(hash)[..2 * octet]
      {
        StemDigits(hash, octet);
        if name[octet * 2] != HEX[hash[octet] / 16] || name[octet * 2 + 1] != HEX[hash[octet] % 16] {
          assert name[..16][2 * octet] != Stem(hash)[2 * octet] || name[..16][2 * octet + 1] != Stem(hash)[2 * octet + 1];
          return false;
        }
      }
      live := true;
    }

    /** live_save_name. */
    static method LiveSaveName(name: string, roms: seq<Hash>) returns (live: bool)
      requires SaveName(name)
      ensures live <==> Owned(name, roms)
    {
      for i := 0 to |roms|
        invariant forall k | 0 <= k < i :: name[..16] != Stem(roms[k])
      {
        var hit := HasStem(name, roms[i]);
        if hit {
          return true;
        }
      }
      live := false;
    }

    /** gb_saves_prune_orphans. Removing a file invalidates the directory stream, so every removal
        starts a new listing. */
    method PruneOrphans(trusted: bool, roms: seq<Hash>, x: Sweep) returns (ok: bool)
      requires x.ListsEverything()
      modifies this`files
      ensures forall n | n in files :: n in old(files) && files[n] == old(files)[n]
      ensures forall n | n in old(files) && n !in files :: mounted && trusted && Orphan(n, roms)
      ensures ok ==> mounted && trusted && forall n | n in files :: !Orphan(n, roms)
      ensures mounted && trusted && x.Flawless() ==> ok
    {
      if !mounted || !trusted || !x.opens {
        return false;
      }
      ok := true;
      var calls := 0;
      var listing := x.order(files.Keys);
      while true
        invariant forall n | n in files :: n in old(files) && files[n] == old(files)[n]
        invariant forall n | n in old(files) && n !in files :: Orphan(n, roms)
        invariant ok ==> forall n | n in files :: n in listing || !Orphan(n, roms)
        invariant forall n | n in listing :: n in files
        invariant x.Flawless() ==> ok
        decreases |files|, |listing|
      {
        calls := calls + 1;
        if !x.readable(calls) {
          ok := false;
          break;
        }
        if listing == [] {
          break;
        }
        var name := listing[0];
        listing := listing[1..];
        if !SaveName(name) {
          continue;
        }
        var live := LiveSaveName(name, roms);
        if live {
          continue;
        }
        var removed := RemoveCopy(name, x.removes(calls));
        if !removed {
          ok := false;
        } else {
          listing := x.order(files.Keys);
        }
      }
      if !x.closes {
        ok := false;
      }
    }
  }
}
