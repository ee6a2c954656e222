/** The image builder for the ROM partition (tools/pack_roms.py), its inspection, and the firmware's way of
    loading what was built (main/gb_storage.c).

    The hash is a parameter: any function from bytes to thirty-two bytes. */
module PackRoms {
  import opened Bytes
  import opened Names
  import opened RomLayout
  import opened Storage
  import Saves
  import RomUploads

  const MAX_IMAGE := 0x400000
  const ROW := 72

  type Sum = h: seq<byte> | |h| == 32 witness seq(32, _ => 0)

  /** A ROM file with the name it is to have on the device, as code points. */
  datatype Source = Source(name: seq<nat>, data: seq<byte>)

  predicate AcceptableRom(data: seq<byte>) {
    SMALLEST <= |data| <= MAX_IMAGE && |data| % BANK == 0 && HeaderAccepted(data)
  }

  /** Exactly the ROM images of up to 4 MiB. */
  lemma AcceptableRomExactlyWhen(data: seq<byte>)
    ensures AcceptableRom(data) <==> RomUploads.RomImage(data) && |data| <= 0x400000
  {
    if |data| >= 0x150 {
      RomUploads.HeaderAcceptedExactlyWhen(data);
      if RomUploads.RomImage(data) {
        RomUploads.RomImageSize(data);
      }
    }
    hide HeaderAccepted;
  }

  /** encode_name, where it does not raise. */
  function Encoded(name: seq<nat>): (n: CString)
    requires EncodeName(name).Some?
    ensures EncodeName(name) == Some(n) && NameValid(n) && 1 <= |n| <= 31
  {
    var n := EncodeName(name).value;
    ValidExactlyWhenEncodable(n);
    n
  }

  function Total(items: seq<Source>): (t: nat) {
    if items == [] then 0 else |items[0].data| + Total(items[1..])
  }

  /** What pack accepts: one to sixteen supported ROMs with valid, different names that fit the partition. */
  predicate Acceptable(items: seq<Source>) {
    && 1 <= |items| <= MAX_ROMS
    && Suitable(items)
    && (forall i, j | 0 <= j < i < |items| :: EncodeName(items[i].name) != EncodeName(items[j].name))
    && SECTOR + Total(items) <= MAX_IMAGE
  }

  predicate Suitable(items: seq<Source>) {
    forall i | 0 <= i < |items| :: AcceptableRom(items[i].data) && EncodeName(items[i].name).Some?
  }

  // ----- The image.

  datatype Row = Row(name: CString, offset: nat, size: nat, digest: Sum) {
    predicate Fits() {
      1 <= |name| <= 31 && offset < 0x1_0000_0000 && size < 0x1_0000_0000
    }
  }

  function Filler(n: nat): (z: seq<byte>)
    ensures |z| == n
  {
    seq(n, _ => 0xFF)
  }

  function RowBytes(r: Row): (b: seq<byte>)
    requires r.Fits()
    ensures |b| == ROW
  {
    r.name + Zeros(32 - |r.name|) + Saves.Le32(r.offset) + Saves.Le32(r.size) + r.digest
  }

  predicate AllFit(rows: seq<Row>) {
    forall i | 0 <= i < |rows| :: rows[i].Fits()
  }

  function AllRowBytes(rows: seq<Row>): (b: seq<byte>)
    requires AllFit(rows)
    ensures |b| == ROW * |rows|
  {
    if rows == [] then [] else AllRowBytes(rows[..|rows| - 1]) + RowBytes(rows[|rows| - 1])
  }

  function HeaderBytes(count: nat): (b: seq<byte>)
    requires count <= MAX_ROMS
    ensures |b| == 8
  {
    TABLE_MAGIC + [1, 0] + [count, 0]
  }

  function RowFor(item: Source, at: nat, sha: seq<byte> -> Sum): Row
    requires EncodeName(item.name).Some?
  {
    Row(Encoded(item.name), at, |item.data|, sha(item.data))
  }

  function RowAt(items: seq<Source>, i: nat, sha: seq<byte> -> Sum): Row
    requires i < |items| && EncodeName(items[i].name).Some?
  {
    RowFor(items[i], SECTOR + Total(items[..i]), sha)
  }

  /** The ROMs follow each other from the second sector on. */
  function RowsFor(items: seq<Source>, sha: seq<byte> -> Sum): (rows: seq<Row>)
    requires Suitable(items)
    ensures |rows| == |items| && forall i | 0 <= i < |items| :: rows[i] == RowAt(items, i, sha)
  {
    seq(|items|, i requires 0 <= i < |items| && Suitable(items) => RowAt(items, i, sha))
  }

  function JoinedData(items: seq<Source>): (b: seq<byte>)
  {
    if items == [] then [] else JoinedData(items[..|items| - 1]) + items[|items| - 1].data
  }

  lemma {:induction false} TotalFromBack(items: seq<Source>)
    requires items != []
    ensures Total(items) == Total(items[..|items| - 1]) + |items[|items| - 1].data|
  {
    if |items| > 1 {
      TotalFromBack(items[1..]);
      assert items[1..][..|items| - 2] == items[..|items| - 1][1..];
    }
  }

  lemma {:induction false} JoinedLength(items: seq<Source>)
    ensures |JoinedData(items)| == Total(items)
  {
    if items != [] {
      JoinedLength(items[..|items| - 1]);
      TotalFromBack(items);
    }
  }

  lemma {:induction false} TotalGrows(items: seq<Source>, k: nat)
    requires k <= |items|
    ensures Total(items[..k]) <= Total(items)
    decreases |items|
  {
    if k == |items| {
      assert items[..k] == items;
    } else {
      TotalFromBack(items);
      TotalGrows(items[..|items| - 1], k);
      assert items[..|items| - 1][..k] == items[..k];
    }
  }

  lemma {:induction false} TotalAligned(items: seq<Source>)
    requires Suitable(items)
    ensures Total(items) % BANK == 0
  {
    if items != [] {
      assert AcceptableRom(items[0].data);
      assert Suitable(items[1..]) by {
        assert forall i | 0 <= i < |items| - 1 :: items[1..][i] == items[i + 1];
      }
      TotalAligned(items[1..]);
    }
  }

  lemma SuitablePrefix(items: seq<Source>, k: nat)
    requires Suitable(items) && k <= |items|
    ensures Suitable(items[..k])
  {
    assert forall i | 0 <= i < k :: items[..k][i] == items[i];
  }

  lemma RowsFit(items: seq<Source>, sha: seq<byte> -> Sum)
    requires Acceptable(items)
    ensures AllFit(RowsFor(items, sha))
  {
    forall i | 0 <= i < |items| ensures RowsFor(items, sha)[i].Fits() {
      TotalGrows(items, i);
      assert AcceptableRom(items[i].data);
    }
    hide EncodeName, HeaderAccepted;
  }

  /** The image that pack builds. */
  function ImageFor(items: seq<Source>, sha: seq<byte> -> Sum): (image: seq<byte>)
    requires Acceptable(items)
    ensures |image| == SECTOR + Total(items)
  {
    RowsFit(items, sha);
    JoinedLength(items);
    var directory := HeaderBytes(|items|) + AllRowBytes(RowsFor(items, sha));
    directory + Filler(SECTOR - |directory|) + JoinedData(items)
  }

  // ----- Reading the bytes back.

  function NameField(image: seq<byte>, i: nat): (b: seq<byte>)
    requires |image| >= SECTOR && i < MAX_ROMS
    ensures |b| == 32
  {
    image[8 + ROW * i..8 + ROW * i + 32]
  }

  function OffsetField(image: seq<byte>, i: nat): nat
    requires |image| >= SECTOR && i < MAX_ROMS
  {
    Saves.FromLe32(image[8 + ROW * i + 32..8 + ROW * i + 36])
  }

  function SizeField(image: seq<byte>, i: nat): nat
    requires |image| >= SECTOR && i < MAX_ROMS
  {
    Saves.FromLe32(image[8 + ROW * i + 36..8 + ROW * i + 40])
  }

  function DigestField(image: seq<byte>, i: nat): (b: seq<byte>)
    requires |image| >= SECTOR && i < MAX_ROMS
    ensures |b| == 32
  {
    image[8 + ROW * i + 40..8 + ROW * i + 72]
  }

  lemma {:induction false} RowBytesAt(rows: seq<Row>, i: nat)
    requires AllFit(rows) && i < |rows|
    ensures AllRowBytes(rows)[ROW * i..ROW * i + ROW] == RowBytes(rows[i])
    decreases |rows|
  {
    var front := rows[..|rows| - 1];
    hide RowBytes;
    if i < |front| {
      assert AllFit(front) && front[i] == rows[i];
      RowBytesAt(front, i);
      assert AllRowBytes(rows)[ROW * i..ROW * i + ROW] == AllRowBytes(front)[ROW * i..ROW * i + ROW];
    }
  }

  /** The fields of a row that stands at its place in an image. */
  lemma FieldsOf(image: seq<byte>, i: nat, r: Row)
    requires |image| >= SECTOR && i < MAX_ROMS && r.Fits()
    requires image[8 + ROW * i..8 + ROW * i + ROW] == RowBytes(r)
    ensures NameField(image, i) == r.name + Zeros(32 - |r.name|)
    ensures OffsetField(image, i) == r.offset && SizeField(image, i) == r.size && DigestField(image, i) == r.digest
  {
    var b := RowBytes(r);
    var at := 8 + ROW * i;
    assert b[..32] == r.name + Zeros(32 - |r.name|) && b[32..36] == Saves.Le32(r.offset)
      && b[36..40] == Saves.Le32(r.size) && b[40..72] == r.digest;
    SliceOfSlice(image, at, 0, 32);
    SliceOfSlice(image, at, 32, 36);
    SliceOfSlice(image, at, 36, 40);
    SliceOfSlice(image, at, 40, 72);
    Saves.Le32RoundTrip(r.offset);
    Saves.Le32RoundTrip(r.size);
    hide Saves.Le32, Saves.FromLe32, RowBytes, Zeros;
  }

  lemma SliceOfSlice(image: seq<byte>, at: nat, lo: nat, hi: nat)
    requires at + ROW <= |image| && lo <= hi <= ROW
    ensures image[at..at + ROW][lo..hi] == image[at + lo..at + hi]
  {
    var x, y := image[at..at + ROW][lo..hi], image[at + lo..at + hi];
    assert |x| == |y|;
    forall k | 0 <= k < |x| ensures x[k] == y[k] {
    }
  }

  /** Every row of a packed image reads back as it was written. */
  lemma PackedRow(items: seq<Source>, sha: seq<byte> -> Sum, i: nat)
    requires Acceptable(items) && i < |items|
    ensures var image, r := ImageFor(items, sha), RowFor(items[i], SECTOR + Total(items[..i]), sha);
      && r.Fits() && NameField(image, i) == r.name + Zeros(32 - |r.name|)
      && OffsetField(image, i) == r.offset && SizeField(image, i) == r.size && DigestField(image, i) == r.digest
  {
    hide RowsFor, AllRowBytes, RowBytes, ImageFor, Acceptable, Total, HeaderAccepted, EncodeName;
    AcceptableParts(items);
    RowsFit(items, sha);
    var rows := RowsFor(items, sha);
    RowBytesAt(rows, i);
    RowPlace(items, sha, i);
    assert rows[i] == RowFor(items[i], SECTOR + Total(items[..i]), sha);
    FieldsOf(ImageFor(items, sha), i, rows[i]);
  }

  lemma {:induction false} AcceptableParts(items: seq<Source>)
    requires Acceptable(items)
    ensures 1 <= |items| <= MAX_ROMS && Suitable(items) && SECTOR + Total(items) <= MAX_IMAGE
  {
  }

  lemma RowPlace(items: seq<Source>, sha: seq<byte> -> Sum, i: nat)
    requires Acceptable(items) && i < |items| && AllFit(RowsFor(items, sha))
    ensures ImageFor(items, sha)[8 + ROW * i..8 + ROW * i + ROW] == AllRowBytes(RowsFor(items, sha))[ROW * i..ROW * i + ROW]
  {
    var rows := AllRowBytes(RowsFor(items, sha));
    var header := HeaderBytes(|items|);
    var rest := Filler(SECTOR - 8 - |rows|) + JoinedData(items);
    assert ImageFor(items, sha) == header + rows + rest;
    hide AllRowBytes, RowsFor, HeaderBytes, JoinedData, ImageFor, Acceptable;
    Middle(header, rows, rest, ROW * i, ROW * i + ROW);
  }

  lemma Middle(a: seq<byte>, b: seq<byte>, c: seq<byte>, lo: nat, hi: nat)
    requires lo <= hi <= |b|
    ensures (a + b + c)[|a| + lo..|a| + hi] == b[lo..hi]
  {
  }

  lemma {:induction false} DataPlace(items: seq<Source>, i: nat)
    requires i < |items|
    ensures var at := Total(items[..i]);
      at + |items[i].data| <= |JoinedData(items)| && JoinedData(items)[at..at + |items[i].data|] == items[i].data
    decreases |items|
  {
    var front := items[..|items| - 1];
    JoinedLength(front);
    if i < |front| {
      DataPlace(front, i);
      assert front[..i] == items[..i] && front[i] == items[i];
    }
  }

  /** Every ROM stands where its row says. */
  lemma PackedData(items: seq<Source>, sha: seq<byte> -> Sum, i: nat)
    requires Acceptable(items) && i < |items|
    ensures var at := SECTOR + Total(items[..i]);
      at + |items[i].data| <= |ImageFor(items, sha)| && ImageFor(items, sha)[at..at + |items[i].data|] == items[i].data
  {
    hide Acceptable, Suitable, Total, JoinedData, ImageFor;
    DataAfter(items, sha);
    DataPlace(items, i);
    DataWithin(ImageFor(items, sha), JoinedData(items), Total(items[..i]), |items[i].data|);
  }

  lemma DataWithin(image: seq<byte>, data: seq<byte>, at: nat, n: nat)
    requires |image| == SECTOR + |data| && image[SECTOR..] == data && at + n <= |data|
    ensures image[SECTOR + at..SECTOR + at + n] == data[at..at + n]
  {
  }

  /** An image is a sector and then the ROMs. */
  lemma DataAfter(items: seq<Source>, sha: seq<byte> -> Sum)
    requires Acceptable(items)
    ensures |ImageFor(items, sha)| == SECTOR + |JoinedData(items)| && ImageFor(items, sha)[SECTOR..] == JoinedData(items)
  {
    AcceptableParts(items);
    RowsFit(items, sha);
    hide AllRowBytes, RowsFor, HeaderBytes, JoinedData, Acceptable, Total;
    var directory := HeaderBytes(|items|) + AllRowBytes(RowsFor(items, sha));
    assert |directory + Filler(SECTOR - |directory|)| == SECTOR;
    JoinedLength(items);
  }

  // ----- Decoding UTF-8.

  /** The code points that text can hold: all but the surrogates. */
  predicate Scalar(cp: nat) {
    cp < 0xD800 || 0xE000 <= cp < 0x11_0000
  }

  /** The code point that s begins with. */
  function FirstScalar(s: seq<byte>): Option<nat>
    requires s != []
  {
    if s[0] < 0x80 then Some(s[0])
    else match Announced(s[0])
      case None => None
      case Some(k) =>
        if 1 + k > |s| then None
        else
          var cp := Accumulate(LeadBits(s[0]), s[1..1 + k]);
          if Scalar(cp) && Utf8(cp) == s[..1 + k] then Some(cp) else None
  }

  /** bytes.decode("utf-8"): None stands for the exception. */
  function Text(s: seq<byte>): Option<seq<nat>>
    decreases |s|
  {
    if s == [] then Some([])
    else match FirstScalar(s)
      case None => None
      case Some(cp) =>
        if |Utf8(cp)| > |s| then None
        else match Text(s[|Utf8(cp)|..])
          case None => None
          case Some(cps) => Some([cp] + cps)
  }

  lemma AccumulateThree(lead: nat, a: byte, b: byte, c: byte)
    ensures Accumulate(lead, [a, b, c]) == ((lead * 64 + a % 64) * 64 + b % 64) * 64 + c % 64
  {
    AccumulateTwo(lead, a, b);
    assert [a, b, c][..2] == [a, b];
  }

  lemma FourDigits(cp: nat)
    ensures ((cp / 262144 * 64 + cp / 4096 % 64) * 64 + cp / 64 % 64) * 64 + cp % 64 == cp
  {
    assert cp / 64 / 64 == cp / 4096 && cp / 4096 / 64 == cp / 262144;
  }

  lemma DecodesFour(cp: nat)
    requires 0x1_0000 <= cp < 0x11_0000
    ensures var s := Utf8(cp); |s| == 4 && Announced(s[0]) == Some(3) && Accumulate(LeadBits(s[0]), s[1..]) == cp
  {
    hide Accumulate;
    var s := Utf8(cp);
    LeadOfFour(cp);
    assert s == [0xF0 + cp / 262144, Tail(cp / 4096), Tail(cp / 64), Tail(cp)];
    FourDigits(cp);
    AccumulateThree(LeadBits(s[0]), s[1], s[2], s[3]);
    assert s[1..] == [s[1], s[2], s[3]];
    TailDigit(cp / 4096);
    TailDigit(cp / 64);
    TailDigit(cp);
    hide Tail, LeadBits;
  }

  lemma LeadOfFour(cp: nat)
    requires 0x1_0000 <= cp < 0x11_0000
    ensures cp / 262144 % 8 == cp / 262144 <= 4 && Announced(0xF0 + cp / 262144) == Some(3) && LeadBits(0xF0 + cp / 262144) == cp / 262144
  {
  }

  lemma TailDigit(n: nat)
    ensures Tail(n) % 64 == n % 64
  {
  }

  lemma ReadsScalar(cp: nat, rest: seq<byte>)
    requires Scalar(cp)
    ensures Utf8(cp) + rest != [] && FirstScalar(Utf8(cp) + rest) == Some(cp)
  {
    var e := Utf8(cp);
    var s := e + rest;
    assert s[..|e|] == e && s[1..|e|] == e[1..];
    if 0x80 <= cp < 0x800 {
      DecodesTwo(cp);
      AccumulateOne(LeadBits(e[0]), e[1]);
      assert e[1..] == [e[1]];
    } else if 0x800 <= cp < 0x1_0000 {
      DecodesThree(cp);
      AccumulateTwo(LeadBits(e[0]), e[1], e[2]);
      assert e[1..] == [e[1], e[2]];
    } else if 0x1_0000 <= cp {
      DecodesFour(cp);
    }
  }

  lemma {:induction false} DecodedIsText(s: seq<byte>)
    requires Text(s).Some?
    ensures Utf8All(Text(s).value) == s && forall i | 0 <= i < |Text(s).value| :: Scalar(Text(s).value[i])
    decreases |s|
  {
    hide FirstScalar, Scalar, Utf8;
    if s != [] {
      FirstIsEncoded(s);
      var rest := s[|Utf8(FirstScalar(s).value)|..];
      DecodedIsText(rest);
      assert Text(s).value[1..] == Text(rest).value;
      assert s == Utf8(FirstScalar(s).value) + rest;
    }
  }

  lemma {:induction false} TextIsDecoded(cps: seq<nat>)
    requires forall i | 0 <= i < |cps| :: Scalar(cps[i])
    ensures Text(Utf8All(cps)) == Some(cps)
  {
    hide FirstScalar, Scalar, Utf8;
    if cps != [] {
      var rest := Utf8All(cps[1..]);
      ReadsScalar(cps[0], rest);
      TextIsDecoded(cps[1..]);
      assert (Utf8(cps[0]) + rest)[|Utf8(cps[0])|..] == rest;
      assert [cps[0]] + cps[1..] == cps;
    }
  }

  /** Decoding succeeds exactly on the encodings of text, and gives that text back. */
  lemma DecodesExactlyText(s: seq<byte>, cps: seq<nat>)
    ensures Text(s) == Some(cps) <==> Utf8All(cps) == s && forall i | 0 <= i < |cps| :: Scalar(cps[i])
  {
    hide Text, Scalar, Utf8All;
    if Text(s) == Some(cps) {
      DecodedIsText(s);
    } else if Utf8All(cps) == s && forall i | 0 <= i < |cps| :: Scalar(cps[i]) {
      TextIsDecoded(cps);
    }
  }

  lemma FirstIsEncoded(s: seq<byte>)
    requires s != [] && FirstScalar(s).Some?
    ensures var e := Utf8(FirstScalar(s).value); 0 < |e| <= |s| && s[..|e|] == e && Scalar(FirstScalar(s).value)
  {
  }

  // ----- inspect_image.

  function RangeStart(image: seq<byte>, i: nat): nat
    requires |image| >= SECTOR && i < MAX_ROMS
  {
    OffsetField(image, i)
  }

  function RangeEnd(image: seq<byte>, i: nat): nat
    requires |image| >= SECTOR && i < MAX_ROMS
  {
    OffsetField(image, i) + SizeField(image, i)
  }

  predicate Apart(image: seq<byte>, i: nat, j: nat)
    requires |image| >= SECTOR && i < MAX_ROMS && j < MAX_ROMS
  {
    !(RangeStart(image, i) < RangeEnd(image, j) && RangeStart(image, j) < RangeEnd(image, i))
  }

  /** One directory row and the ROM it points to are in order, the rows before it considered. */
  predicate RowPasses(image: seq<byte>, i: nat, sha: seq<byte> -> Sum)
    requires |image| >= SECTOR && i < MAX_ROMS
  {
    var name, offset, size := NameField(image, i), OffsetField(image, i), SizeField(image, i);
    && 0 in name && name[0] != 0 && offset % SECTOR == 0
    && offset >= SECTOR && size >= SMALLEST && size % BANK == 0 && offset + size <= |image|
    && (forall j | 0 <= j < i :: Apart(image, i, j))
    && sha(image[offset..offset + size]) == DigestField(image, i)
    && HeaderAccepted(image[offset..offset + size])
  }

  predicate Passes(image: seq<byte>, sha: seq<byte> -> Sum) {
    && SECTOR <= |image| <= MAX_IMAGE && image[..4] == TABLE_MAGIC
    && image[4] + 256 * (image[5] as int) == 1 && 1 <= CountField(image) <= MAX_ROMS
    && forall i | 0 <= i < CountField(image) :: RowPasses(image, i, sha)
  }

  function CountField(image: seq<byte>): nat
    requires |image| >= SECTOR
  {
    image[6] + 256 * (image[7] as int)
  }

  /** The checks of one row, against the ranges of the rows before it. */
  method CheckRow(image: seq<byte>, i: nat, ranges: seq<(nat, nat)>, sha: seq<byte> -> Sum) returns (ok: bool)
    requires |image| >= SECTOR && i < MAX_ROMS && |ranges| == i
    requires forall k | 0 <= k < i :: ranges[k] == (RangeStart(image, k), RangeEnd(image, k))
    ensures ok <==> RowPasses(image, i, sha)
  {
    hide HeaderAccepted, NameField, OffsetField, SizeField, DigestField;
    var rawName, offset, size := NameField(image, i), OffsetField(image, i), SizeField(image, i);
    if 0 !in rawName || rawName[0] == 0 || offset % SECTOR != 0 {
      return false;
    }
    var end := offset + size;
    if offset < SECTOR || size < SMALLEST || size % BANK != 0 || end > |image| {
      return false;
    }
    for k := 0 to i
      invariant forall j | 0 <= j < k :: Apart(image, i, j)
    {
      if offset < ranges[k].1 && ranges[k].0 < end {
        assert !Apart(image, i, k);
        return false;
      }
    }
    var rom := image[offset..end];
    ok := sha(rom) == DigestField(image, i) && HeaderAccepted(rom);
  }

  /** The name of a row as text. */
  function TextName(image: seq<byte>, i: nat): Option<seq<nat>>
    requires |image| >= SECTOR && i < MAX_ROMS
  {
    Text(UpToNul(NameField(image, i)))
  }

  /** inspect_image: the names of a well-formed image, as text. */
  method Inspect(image: seq<byte>, sha: seq<byte> -> Sum) returns (names: Option<seq<seq<nat>>>)
    ensures names.Some? <==> Passes(image, sha) && forall i | 0 <= i < CountField(image) :: TextName(image, i).Some?
    ensures names.Some? ==> |names.value| == CountField(image)
    ensures names.Some? ==> forall i | 0 <= i < |names.value| :: TextName(image, i) == Some(names.value[i])
  {
    hide NameField, OffsetField, SizeField, DigestField, RowPasses, UpToNul, HeaderAccepted, Apart, TextName;
    if |image| > MAX_IMAGE || |image| < SECTOR || image[..4] != TABLE_MAGIC {
      return None;
    }
    var version, count := image[4] + 256 * (image[5] as int), CountField(image);
    if version != 1 || count < 1 || count > MAX_ROMS {
      return None;
    }
    hide CountField;
    var found: seq<seq<nat>> := [];
    var ranges: seq<(nat, nat)> := [];
    for i := 0 to count
      invariant |found| == i == |ranges|
      invariant forall k | 0 <= k < i :: TextName(image, k) == Some(found[k])
      invariant forall k | 0 <= k < i :: ranges[k] == (RangeStart(image, k), RangeEnd(image, k))
      invariant forall k | 0 <= k < i :: RowPasses(image, k, sha)
    {
      var ok := CheckRow(image, i, ranges, sha);
      var name := TextName(image, i);
      if !ok || name.None? {
        return None;
      }
      found := found + [name.value];
      ranges := ranges + [(OffsetField(image, i), OffsetField(image, i) + SizeField(image, i))];
    }
    names := Some(found);
  }

  // ----- pack.

  /** aligned */
  function Aligned(value: nat): (r: nat)
    ensures value <= r && r % SECTOR == 0 && (value % SECTOR == 0 ==> r == value)
  {
    (value + SECTOR - 1) / SECTOR * SECTOR
  }

  function NamesOf(items: seq<Source>): set<CString>
    requires Suitable(items)
  {
    set k | 0 <= k < |items| :: Encoded(items[k].name)
  }

  /** What holds of the first ROMs once they have been taken in. */
  predicate Taken(items: seq<Source>, i: nat, names: set<CString>, image: seq<byte>, entries: seq<byte>, sha: seq<byte> -> Sum)
    requires i <= |items|
  {
    && Suitable(items[..i]) && AllFit(RowsFor(items[..i], sha))
    && image == Filler(SECTOR) + JoinedData(items[..i]) && |image| == SECTOR + Total(items[..i]) <= MAX_IMAGE
    && entries == AllRowBytes(RowsFor(items[..i], sha))
    && names == NamesOf(items[..i])
    && forall j, k | 0 <= j < k < i :: EncodeName(items[j].name) != EncodeName(items[k].name)
  }

  /** pack: exactly the acceptable inputs give an image, and it is the one above. */
  method Pack(items: seq<Source>, sha: seq<byte> -> Sum) returns (image: Option<seq<byte>>)
    ensures image.Some? <==> Acceptable(items)
    ensures image.Some? ==> image.value == ImageFor(items, sha)
  {
    if |items| < 1 || |items| > MAX_ROMS {
      return None;
    }
    var built := Filler(SECTOR);
    var entries: seq<byte> := [];
    var names: set<CString> := {};
    NothingTaken(items, sha);
    for i := 0 to |items|
      invariant Taken(items, i, names, built, entries, sha)
    {
      var data, name := items[i].data, EncodeName(items[i].name);
      Refusals(items, i, names, built, entries, sha);
      if !AcceptableRom(data) || name.None? {
        return None;
      }
      var encoded := Encoded(items[i].name);
      if encoded in names {
        return None;
      }
      var offset := Aligned(|built|);
      if offset + |data| > MAX_IMAGE {
        return None;
      }
      TakeOne(items, i, names, built, entries, sha);
      names := names + {encoded};
      built := built + Filler(offset - |built|) + data;
      entries := entries + RowBytes(Row(encoded, offset, |data|, sha(data)));
    }
    AllTaken(items, names, built, entries, sha);
    var directory := HeaderBytes(|items|) + entries;
    image := Some(directory + built[|directory|..]);
  }

  lemma NothingTaken(items: seq<Source>, sha: seq<byte> -> Sum)
    ensures Taken(items, 0, {}, Filler(SECTOR), [], sha)
  {
  }

  /** Each refusal is for a reason that makes the whole input unacceptable. */
  lemma Refusals(items: seq<Source>, i: nat, names: set<CString>, image: seq<byte>, entries: seq<byte>, sha: seq<byte> -> Sum)
    requires i < |items| && Taken(items, i, names, image, entries, sha)
    ensures !AcceptableRom(items[i].data) || EncodeName(items[i].name).None? ==> !Acceptable(items)
    ensures EncodeName(items[i].name).Some? && Encoded(items[i].name) in names ==> !Acceptable(items)
    ensures |image| <= MAX_IMAGE
    ensures AcceptableRom(items[i].data) && EncodeName(items[i].name).Some? && Aligned(|image|) + |items[i].data| > MAX_IMAGE ==> !Acceptable(items)
  {
    hide AcceptableRom, EncodeName, RowsFor, AllRowBytes;
    if Acceptable(items) {
      TotalGrows(items, i + 1);
      TotalFromBack(items[..i + 1]);
      assert items[..i + 1][..i] == items[..i];
      TotalAligned(items[..i]);
    }
  }

  lemma TakeOne(items: seq<Source>, i: nat, names: set<CString>, image: seq<byte>, entries: seq<byte>, sha: seq<byte> -> Sum)
    requires i < |items| && Taken(items, i, names, image, entries, sha)
    requires AcceptableRom(items[i].data) && EncodeName(items[i].name).Some? && Encoded(items[i].name) !in names
    requires Aligned(|image|) + |items[i].data| <= MAX_IMAGE
    ensures var offset := Aligned(|image|);
      var row := Row(Encoded(items[i].name), offset, |items[i].data|, sha(items[i].data));
      && offset == |image| && row.Fits()
      && Taken(items, i + 1, names + {row.name}, image + Filler(offset - |image|) + items[i].data, entries + RowBytes(row), sha)
  {
    hide AcceptableRom, EncodeName, RowBytes, RowsFor, AllRowBytes, JoinedData;
    var more, offset := items[..i + 1], Aligned(|image|);
    assert more[..|more| - 1] == items[..i] && more[i] == items[i];
    OneMoreRow(items[..i], items[i], entries, sha);
    OneMoreName(items[..i], items[i]);
    OneMoreRom(items[..i], items[i], image);
    assert items[..i] + [items[i]] == more;
    TotalFromBack(more);
    assert forall j, k | 0 <= j < k < i + 1 :: EncodeName(items[j].name) != EncodeName(items[k].name) by {
      assert forall k | 0 <= k < i :: items[..i][k] == items[k];
    }
  }

  lemma {:induction false} JoinedMore(front: seq<Source>, item: Source)
    ensures JoinedData(front + [item]) == JoinedData(front) + item.data
  {
    assert (front + [item])[..|front|] == front;
  }

  lemma {:induction false} OneMoreRom(front: seq<Source>, item: Source, image: seq<byte>)
    requires Suitable(front) && image == Filler(SECTOR) + JoinedData(front) && |image| == SECTOR + Total(front)
    ensures Aligned(|image|) == |image|
    ensures image + Filler(0) + item.data == Filler(SECTOR) + JoinedData(front + [item])
  {
    hide Suitable, Total, JoinedData;
    TotalAligned(front);
    BankIsSectors(SECTOR + Total(front));
    JoinedMore(front, item);
    Append(Filler(SECTOR), JoinedData(front), item.data);
  }

  lemma Append(a: seq<byte>, b: seq<byte>, c: seq<byte>)
    ensures (a + b) + Filler(0) + c == a + (b + c)
  {
    assert Filler(0) == [];
  }

  lemma OneMoreName(front: seq<Source>, item: Source)
    requires Suitable(front) && EncodeName(item.name).Some? && Suitable(front + [item])
    ensures NamesOf(front + [item]) == NamesOf(front) + {Encoded(item.name)}
  {
    hide AcceptableRom, EncodeName;
    var more := front + [item];
    assert forall k | 0 <= k < |front| :: more[k] == front[k];
    assert more[|front|] == item;
  }

  lemma {:induction false} OneMoreRow(front: seq<Source>, item: Source, entries: seq<byte>, sha: seq<byte> -> Sum)
    requires Suitable(front) && AcceptableRom(item.data) && EncodeName(item.name).Some?
    requires AllFit(RowsFor(front, sha)) && entries == AllRowBytes(RowsFor(front, sha))
    requires SECTOR + Total(front) + |item.data| <= MAX_IMAGE
    ensures var more, row := front + [item], RowFor(item, SECTOR + Total(front), sha);
      && Suitable(more) && row.Fits() && AllFit(RowsFor(more, sha))
      && entries + RowBytes(row) == AllRowBytes(RowsFor(more, sha))
  {
    hide RowsFor, Suitable, AcceptableRom, EncodeName, RowBytes, AllRowBytes, AllFit, RowFor;
    SuitableMore(front, item);
    RowsMore(front, item, sha);
    RowFits(item, SECTOR + Total(front), sha);
    AllRowsMore(RowsFor(front, sha), RowFor(item, SECTOR + Total(front), sha));
  }

  lemma RowFits(item: Source, at: nat, sha: seq<byte> -> Sum)
    requires EncodeName(item.name).Some? && at + |item.data| <= MAX_IMAGE
    ensures RowFor(item, at, sha).Fits()
  {
  }

  lemma SuitableMore(front: seq<Source>, item: Source)
    requires Suitable(front) && AcceptableRom(item.data) && EncodeName(item.name).Some?
    ensures Suitable(front + [item])
  {
    hide AcceptableRom, EncodeName;
    var more := front + [item];
    assert forall k | 0 <= k < |front| :: more[k] == front[k];
  }

  lemma {:induction false} RowsMore(front: seq<Source>, item: Source, sha: seq<byte> -> Sum)
    requires Suitable(front) && EncodeName(item.name).Some? && Suitable(front + [item])
    ensures RowsFor(front + [item], sha) == RowsFor(front, sha) + [RowFor(item, SECTOR + Total(front), sha)]
  {
    hide AcceptableRom, EncodeName, Total, RowFor;
    var more := front + [item];
    assert more[..|front|] == front && more[|front|] == item;
    forall k | 0 <= k < |front| ensures RowsFor(more, sha)[k] == RowsFor(front, sha)[k] {
      assert more[..k] == front[..k] && more[k] == front[k];
    }
  }

  lemma {:induction false} AllRowsMore(rows: seq<Row>, row: Row)
    requires AllFit(rows) && row.Fits()
    ensures AllFit(rows + [row]) && AllRowBytes(rows + [row]) == AllRowBytes(rows) + RowBytes(row)
  {
    hide RowBytes;
    var more := rows + [row];
    assert more[..|rows|] == rows && more[|rows|] == row;
    assert forall k | 0 <= k < |rows| :: more[k] == rows[k];
  }

  lemma AllTaken(items: seq<Source>, names: set<CString>, image: seq<byte>, entries: seq<byte>, sha: seq<byte> -> Sum)
    requires 1 <= |items| <= MAX_ROMS && Taken(items, |items|, names, image, entries, sha)
    ensures Acceptable(items) && |entries| == ROW * |items| && |image| >= SECTOR
    ensures var directory := HeaderBytes(|items|) + entries;
      |directory| <= |image| && directory + image[|directory|..] == ImageFor(items, sha)
  {
    hide AcceptableRom, EncodeName, RowsFor, AllRowBytes, JoinedData, HeaderBytes, NamesOf, Total;
    assert items[..|items|] == items;
    var directory := HeaderBytes(|items|) + entries;
    Behind(Filler(SECTOR), JoinedData(items), |directory|);
    assert Filler(SECTOR)[|directory|..] == Filler(SECTOR - |directory|);
  }

  lemma Behind(a: seq<byte>, b: seq<byte>, n: nat)
    requires n <= |a|
    ensures (a + b)[n..] == a[n..] + b
  {
  }

  // ----- What becomes of a packed image.

  lemma {:induction false} PaddedName(name: CString, n: nat)
    requires n > 0
    ensures UpToNul(name + Zeros(n)) == name && 0 in name + Zeros(n)
    decreases |name|
  {
    if name == [] {
      assert (name + Zeros(n))[0] == 0;
    } else {
      PaddedName(name[1..], n);
      assert (name + Zeros(n))[1..] == name[1..] + Zeros(n);
    }
  }

  /** ROM i ends where, or before, a later one starts. */
  lemma InSequence(items: seq<Source>, j: nat, i: nat)
    requires j < i < |items|
    ensures Total(items[..j]) + |items[j].data| <= Total(items[..i])
  {
    TotalGrows(items[..i], j + 1);
    assert items[..i][..j + 1] == items[..j + 1];
    TotalFromBack(items[..j + 1]);
    assert items[..j + 1][..j] == items[..j];
  }

  lemma PackedHeader(items: seq<Source>, sha: seq<byte> -> Sum)
    requires Acceptable(items)
    ensures var image := ImageFor(items, sha);
      SECTOR <= |image| <= MAX_IMAGE && image[..4] == TABLE_MAGIC && image[4] == 1 && image[5] == 0 && CountField(image) == |items|
  {
    AcceptableParts(items);
    var rest := HeaderFirst(items, sha);
    hide ImageFor, Acceptable, Suitable, Total;
    HeaderReads(|items|, rest);
  }

  lemma HeaderFirst(items: seq<Source>, sha: seq<byte> -> Sum) returns (rest: seq<byte>)
    requires Acceptable(items)
    ensures ImageFor(items, sha) == HeaderBytes(|items|) + rest
  {
    AcceptableParts(items);
    RowsFit(items, sha);
    hide AllRowBytes, RowsFor, JoinedData, HeaderBytes, Acceptable, Suitable, Total;
    var h, rows, data := HeaderBytes(|items|), AllRowBytes(RowsFor(items, sha)), JoinedData(items);
    rest := rows + Filler(SECTOR - |h + rows|) + data;
    Regroup(h, rows, Filler(SECTOR - |h + rows|), data);
  }

  lemma Regroup(a: seq<byte>, b: seq<byte>, c: seq<byte>, d: seq<byte>)
    ensures a + b + c + d == a + (b + c + d)
  {
  }

  lemma HeaderReads(count: nat, rest: seq<byte>)
    requires count <= MAX_ROMS && |rest| >= SECTOR - 8
    ensures var image := HeaderBytes(count) + rest;
      image[..4] == TABLE_MAGIC && image[4] == 1 && image[5] == 0 && CountField(image) == count
  {
    assert (HeaderBytes(count) + rest)[..4] == HeaderBytes(count)[..4];
  }

  /** The row of ROM i, and the ROM where the row says it is. */
  predicate Placed(image: seq<byte>, item: Source, i: nat, at: nat, sha: seq<byte> -> Sum)
    requires |image| >= SECTOR && i < MAX_ROMS && EncodeName(item.name).Some?
  {
    var name := Encoded(item.name);
    && UpToNul(NameField(image, i)) == name && 0 in NameField(image, i) && NameField(image, i)[0] != 0
    && OffsetField(image, i) == at && SizeField(image, i) == |item.data| && DigestField(image, i) == sha(item.data)
    && at % SECTOR == 0 && SECTOR <= at && at + |item.data| <= |image| && image[at..at + |item.data|] == item.data
  }

  lemma PackedPlaced(items: seq<Source>, sha: seq<byte> -> Sum, i: nat)
    requires Acceptable(items) && i < |items|
    ensures Suitable(items) && Placed(ImageFor(items, sha), items[i], i, SECTOR + Total(items[..i]), sha)
  {
    hide ImageFor, Acceptable, Suitable, Encoded, EncodeName, NameField, OffsetField, SizeField, DigestField, UpToNul, Placed, Apart, RowPasses, HeaderAccepted, AcceptableRom, RowFor, Zeros;
    AcceptableParts(items);
    PackedRow(items, sha, i);
    PackedData(items, sha, i);
    SuitablePrefix(items, i);
    TotalAligned(items[..i]);
    NameOpens(items, i);
    PlacedWhen(ImageFor(items, sha), items[i], i, SECTOR + Total(items[..i]), sha);
  }

  lemma NameOpens(items: seq<Source>, i: nat)
    requires Suitable(items) && i < |items|
    ensures EncodeName(items[i].name).Some?
    ensures var name := Encoded(items[i].name);
      var field := name + Zeros(32 - |name|);
      1 <= |name| <= 31 && UpToNul(field) == name && 0 in field && field[0] != 0
  {
    var name := Encoded(items[i].name);
    PaddedName(name, 32 - |name|);
    assert name[0] in name;
  }

  lemma PlacedWhen(image: seq<byte>, item: Source, i: nat, at: nat, sha: seq<byte> -> Sum)
    requires |image| >= SECTOR && i < MAX_ROMS && EncodeName(item.name).Some?
    requires var r := RowFor(item, at, sha);
      && r.Fits() && NameField(image, i) == r.name + Zeros(32 - |r.name|)
      && OffsetField(image, i) == r.offset && SizeField(image, i) == r.size && DigestField(image, i) == r.digest
    requires var name := Encoded(item.name);
      var field := name + Zeros(32 - |name|);
      UpToNul(field) == name && 0 in field && field[0] != 0
    requires at >= SECTOR && (at - SECTOR) % BANK == 0 && at + |item.data| <= |image| && image[at..at + |item.data|] == item.data
    ensures Placed(image, item, i, at, sha)
  {
    assert at % SECTOR == 0 by {
      BankIsSectors(at);
    }
    hide NameField, OffsetField, SizeField, DigestField, Encoded, EncodeName, UpToNul, Zeros;
  }

  lemma BankIsSectors(at: nat)
    requires at >= SECTOR && (at - SECTOR) % BANK == 0
    ensures at % SECTOR == 0
  {
    assert BANK == 4 * SECTOR;
    MultipleOfMultiple(at - SECTOR);
  }

  lemma MultipleOfMultiple(n: nat)
    requires n % 16384 == 0
    ensures (4096 + n) % 4096 == 0
  {
  }

  lemma PackedRowPasses(items: seq<Source>, sha: seq<byte> -> Sum, i: nat)
    requires Acceptable(items) && i < |items|
    ensures |ImageFor(items, sha)| >= SECTOR && i < MAX_ROMS && RowPasses(ImageFor(items, sha), i, sha)
  {
    hide ImageFor, Acceptable, Suitable, Encoded, EncodeName, NameField, OffsetField, SizeField, DigestField, UpToNul, Placed, Apart, RowPasses, HeaderAccepted, AcceptableRom, RowFor, Zeros;
    AcceptableParts(items);
    PackedPlaced(items, sha, i);
    var image := ImageFor(items, sha);
    forall j | 0 <= j < i ensures Apart(image, i, j) {
      PackedPlaced(items, sha, j);
      InSequence(items, j, i);
      NameOpens(items, j);
      ApartWhen(image, items[i], i, SECTOR + Total(items[..i]), items[j], j, SECTOR + Total(items[..j]), sha);
    }
    NameOpens(items, i);
    SuitableRom(items, i);
    RowPassesWhen(image, items[i], i, SECTOR + Total(items[..i]), sha);
  }

  lemma SuitableRom(items: seq<Source>, i: nat)
    requires Suitable(items) && i < |items|
    ensures AcceptableRom(items[i].data)
  {
  }

  lemma ApartWhen(image: seq<byte>, x: Source, i: nat, at: nat, y: Source, j: nat, before: nat, sha: seq<byte> -> Sum)
    requires |image| >= SECTOR && i < MAX_ROMS && j < MAX_ROMS && EncodeName(x.name).Some? && EncodeName(y.name).Some?
    requires Placed(image, x, i, at, sha) && Placed(image, y, j, before, sha) && before + |y.data| <= at
    ensures Apart(image, i, j)
  {
    hide NameField, OffsetField, SizeField, DigestField, Encoded, EncodeName, UpToNul;
  }

  lemma RowPassesWhen(image: seq<byte>, x: Source, i: nat, at: nat, sha: seq<byte> -> Sum)
    requires |image| >= SECTOR && i < MAX_ROMS && EncodeName(x.name).Some? && AcceptableRom(x.data)
    requires Placed(image, x, i, at, sha) && forall j | 0 <= j < i :: Apart(image, i, j)
    ensures RowPasses(image, i, sha)
  {
    hide NameField, OffsetField, SizeField, DigestField, Encoded, EncodeName, UpToNul, Apart, HeaderAccepted;
  }

  /** Whatever pack builds passes inspect_image, which finds the packed names. */
  lemma PackedPassesInspection(items: seq<Source>, sha: seq<byte> -> Sum)
    requires Acceptable(items)
    ensures var image := ImageFor(items, sha);
      && Passes(image, sha) && CountField(image) == |items|
      && forall i | 0 <= i < |items| :: TextName(image, i) == Some(items[i].name)
  {
    var image := ImageFor(items, sha);
    PackedHeader(items, sha);
    AcceptableParts(items);
    forall i | 0 <= i < |items| ensures i < MAX_ROMS && RowPasses(image, i, sha) {
      PackedRowPasses(items, sha, i);
    }
    PassesWhen(image, sha);
    forall i | 0 <= i < |items| ensures TextName(image, i) == Some(items[i].name) {
      NameFound(items, sha, i);
      NameIsText(items[i].name);
    }
  }

  lemma NameIsText(cps: seq<nat>)
    requires EncodeName(cps).Some?
    ensures Text(Encoded(cps)) == Some(cps)
  {
    DecodesExactlyText(Utf8All(cps), cps);
  }

  lemma NameFound(items: seq<Source>, sha: seq<byte> -> Sum, i: nat)
    requires Acceptable(items) && i < |items|
    ensures |ImageFor(items, sha)| >= SECTOR && i < MAX_ROMS && EncodeName(items[i].name).Some?
    ensures UpToNul(NameField(ImageFor(items, sha), i)) == Encoded(items[i].name)
  {
    hide ImageFor, Acceptable, Suitable, Encoded, EncodeName, NameField, OffsetField, SizeField, DigestField, UpToNul, Placed, Apart, RowPasses, HeaderAccepted, AcceptableRom, RowFor, Zeros;
    AcceptableParts(items);
    PackedPlaced(items, sha, i);
    NameOpens(items, i);
    PlacedName(ImageFor(items, sha), items[i], i, SECTOR + Total(items[..i]), sha);
  }

  lemma PlacedName(image: seq<byte>, x: Source, i: nat, at: nat, sha: seq<byte> -> Sum)
    requires |image| >= SECTOR && i < MAX_ROMS && EncodeName(x.name).Some? && Placed(image, x, i, at, sha)
    ensures UpToNul(NameField(image, i)) == Encoded(x.name)
  {
    hide NameField, OffsetField, SizeField, DigestField, Encoded, EncodeName, UpToNul;
  }

  lemma PassesWhen(image: seq<byte>, sha: seq<byte> -> Sum)
    requires SECTOR <= |image| <= MAX_IMAGE && image[..4] == TABLE_MAGIC && image[4] == 1 && image[5] == 0
    requires 1 <= CountField(image) <= MAX_ROMS && forall i | 0 <= i < CountField(image) :: RowPasses(image, i, sha)
    ensures Passes(image, sha)
  {
    hide RowPasses, CountField;
  }

  function EntryFor(item: Source, at: nat): RomEntry
    requires EncodeName(item.name).Some? && at < 0x1_0000_0000 && |item.data| < 0x1_0000_0000
  {
    RomEntry(Encoded(item.name), at, |item.data|, Sha256(item.data))
  }

  lemma {:induction false} Bounded(items: seq<Source>, i: nat)
    requires i < |items|
    ensures Total(items[..i]) + |items[i].data| <= Total(items)
  {
    TotalGrows(items, i + 1);
    TotalFromBack(items[..i + 1]);
    assert items[..i + 1][..i] == items[..i];
  }

  function EntryAt(items: seq<Source>, i: nat): (e: RomEntry)
    requires Suitable(items) && SECTOR + Total(items) <= MAX_IMAGE && i < |items|
  {
    Bounded(items, i);
    EntryFor(items[i], SECTOR + Total(items[..i]))
  }

  /** The catalogue that an image describes. */
  function EntriesFor(items: seq<Source>): (es: seq<RomEntry>)
    requires Suitable(items) && SECTOR + Total(items) <= MAX_IMAGE
    ensures |es| == |items| && forall i | 0 <= i < |items| :: es[i] == EntryAt(items, i)
  {
    seq(|items|, i requires 0 <= i < |items| && Suitable(items) && SECTOR + Total(items) <= MAX_IMAGE => EntryAt(items, i))
  }

  /** These are the bytes of this factory table: the same names, places, sizes, and digests of the
      contents that the idealised digests stand for. */
  predicate Describes(image: seq<byte>, t: Table, sha: seq<byte> -> Sum)
    requires |image| >= SECTOR
  {
    && image[..4] == t.magic && image[4] + 256 * (image[5] as int) == t.version && CountField(image) == t.count <= MAX_ROMS
    && forall i | 0 <= i < t.count :: RowDescribes(image, i, t.rows[i], sha)
  }

  predicate RowDescribes(image: seq<byte>, i: nat, e: RomEntry, sha: seq<byte> -> Sum)
    requires |image| >= SECTOR && i < MAX_ROMS
  {
    && UpToNul(NameField(image, i)) == e.name && OffsetField(image, i) == e.offset && SizeField(image, i) == e.size
    && DigestField(image, i) == sha(e.digest.preimage)
  }

  function TableFor(items: seq<Source>): Table
    requires Acceptable(items)
  {
    FactoryTable(TABLE_MAGIC, 1, |items|, EntriesFor(items) + Padding(MAX_ROMS - |items|))
  }

  function Padding(n: nat): (r: seq<RomEntry>)
    ensures |r| == n
  {
    seq(n, _ => RomEntry([], 0, 0, Sha256([])))
  }

  lemma PackedDescribesTable(items: seq<Source>, sha: seq<byte> -> Sum)
    requires Acceptable(items)
    ensures |ImageFor(items, sha)| >= SECTOR && Describes(ImageFor(items, sha), TableFor(items), sha)
  {
    PackedHeader(items, sha);
    AcceptableParts(items);
    var image, t := ImageFor(items, sha), TableFor(items);
    hide ImageFor, Acceptable, Total, Suitable, CountField, RowDescribes, EntryAt;
    forall i | 0 <= i < |items| ensures RowDescribes(image, i, t.rows[i], sha) {
      assert t.rows[i] == EntriesFor(items)[i] == EntryAt(items, i);
      EntryDescribed(items, sha, i);
    }
  }

  lemma {:induction false} EntryDescribed(items: seq<Source>, sha: seq<byte> -> Sum, i: nat)
    requires Acceptable(items) && i < |items| && Suitable(items) && SECTOR + Total(items) <= MAX_IMAGE
    ensures |ImageFor(items, sha)| >= SECTOR && i < MAX_ROMS && RowDescribes(ImageFor(items, sha), i, EntryAt(items, i), sha)
  {
    AcceptableParts(items);
    PackedPlaced(items, sha, i);
    Bounded(items, i);
    SuitableItem(items, i);
    hide ImageFor, Acceptable, Suitable, Total, EncodeName, Placed, RowDescribes, EntryFor;
    DescribedWhen(ImageFor(items, sha), items[i], i, SECTOR + Total(items[..i]), sha);
  }

  lemma DescribedWhen(image: seq<byte>, x: Source, i: nat, at: nat, sha: seq<byte> -> Sum)
    requires |image| >= SECTOR && i < MAX_ROMS && EncodeName(x.name).Some? && Placed(image, x, i, at, sha)
    requires at < 0x1_0000_0000 && |x.data| < 0x1_0000_0000
    ensures RowDescribes(image, i, EntryFor(x, at), sha)
  {
    hide NameField, OffsetField, SizeField, DigestField, Encoded, EncodeName, UpToNul;
  }

  lemma {:induction false} EntryFits(items: seq<Source>, end: int, i: nat)
    requires Acceptable(items) && i < |items| && SECTOR + Total(items) <= end
    ensures EntryShape(EntriesFor(items)[i], end)
  {
    AcceptableParts(items);
    SuitableItem(items, i);
    SuitablePrefix(items, i);
    hide Acceptable, Suitable, Total, EncodeName, NameValid, HeaderAccepted;
    TotalAligned(items[..i]);
    Bounded(items, i);
  }

  lemma SuitableItem(items: seq<Source>, i: nat)
    requires Suitable(items) && i < |items|
    ensures AcceptableRom(items[i].data) && EncodeName(items[i].name).Some?
  {
  }

  lemma EntriesApart(items: seq<Source>, j: nat, i: nat)
    requires Acceptable(items) && j < i < |items|
    ensures Compatible(EntriesFor(items)[i], EntriesFor(items)[j])
  {
    AcceptableParts(items);
    InSequence(items, j, i);
    assert EncodeName(items[i].name) != EncodeName(items[j].name);
    hide Acceptable, Suitable, Total, EncodeName, NameValid, HeaderAccepted;
  }

  lemma {:induction false} EntriesAccepted(items: seq<Source>, end: int)
    requires Acceptable(items) && SECTOR + Total(items) <= end
    ensures EntriesValid(EntriesFor(items), end)
  {
    AcceptableParts(items);
    var es := EntriesFor(items);
    forall i | 0 <= i < |es| ensures EntryShape(es[i], end) {
      EntryFits(items, end, i);
    }
    forall i, j | 0 <= j < i < |es| ensures Compatible(es[i], es[j]) {
      EntriesApart(items, j, i);
    }
    ValidWhen(es, end);
  }

  lemma ValidWhen(es: seq<RomEntry>, end: int)
    requires |es| <= MAX_ROMS && (forall i | 0 <= i < |es| :: EntryShape(es[i], end))
    requires forall i, j | 0 <= j < i < |es| :: Compatible(es[i], es[j])
    ensures EntriesValid(es, end)
  {
  }

  /** A packed image that ends below the directory sectors, with those sectors blank, is loaded by the
      firmware: the same names, places and digests, and every ROM intact. */
  lemma {:induction false} PackedImageLoads(items: seq<Source>, sha: seq<byte> -> Sum, s: State)
    requires Acceptable(items)
    requires var f, image := s.flash, ImageFor(items, sha);
      && f.slot0 == Noise && f.slot1 == Noise && f.table == TableFor(items)
      && |image| <= f.End() && f.bytes[..|image|] == image
    ensures var out := InitSpec(s, CLEAN_INIT);
      && out.ok && out.state.flash == s.flash && Suitable(items) && SECTOR + Total(items) <= MAX_IMAGE
      && out.state.ram == Ram(true, EntriesFor(items), 0, -1, true, false)
      && RomsIntact(s.flash)
  {
    AcceptableParts(items);
    var f, es := s.flash, EntriesFor(items);
    assert |ImageFor(items, sha)| == SECTOR + Total(items);
    EntriesAccepted(items, f.End());
    assert f.table.rows[..f.table.count] == es;
    hide ImageFor, EntriesFor, Acceptable, Suitable, Total, EntriesValid;
    assert Selected(f) == Loaded(es, 0, -1, true);
    forall i | 0 <= i < |es| ensures RomIntact(f, es[i]) {
      PackedIntact(items, sha, f, i);
    }
  }

  lemma {:induction false} PackedIntact(items: seq<Source>, sha: seq<byte> -> Sum, f: Flash, i: nat)
    requires Acceptable(items) && i < |items| && Suitable(items) && SECTOR + Total(items) <= MAX_IMAGE
    requires |ImageFor(items, sha)| <= f.End() && f.bytes[..|ImageFor(items, sha)|] == ImageFor(items, sha)
    ensures RomIntact(f, EntriesFor(items)[i])
  {
    hide ImageFor, Acceptable, Suitable, EncodeName, RomIntact, EntryFor;
    PackedData(items, sha, i);
    Bounded(items, i);
    SuitableName(items, i);
    var at, n := SECTOR + Total(items[..i]), |ImageFor(items, sha)|;
    PrefixSlice(f.bytes, n, at, at + |items[i].data|);
    IntactWhen(f, items[i], at);
  }

  lemma SuitableName(items: seq<Source>, i: nat)
    requires Suitable(items) && i < |items|
    ensures EncodeName(items[i].name).Some?
  {
  }

  lemma IntactWhen(f: Flash, x: Source, at: nat)
    requires EncodeName(x.name).Some? && at + |x.data| <= |f.bytes| && f.bytes[at..at + |x.data|] == x.data
    requires at < 0x1_0000_0000 && |x.data| < 0x1_0000_0000
    ensures RomIntact(f, EntryFor(x, at))
  {
  }

  lemma PrefixSlice(bytes: seq<byte>, n: nat, lo: nat, hi: nat)
    requires lo <= hi <= n <= |bytes|
    ensures bytes[..n][lo..hi] == bytes[lo..hi]
  {
  }
}
