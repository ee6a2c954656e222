/** Bluetooth LE advertisements: the parser of advertising data and the cache of recent peers
    (components/bluepad32/bt/uni_bt_le_advertisement.c; Bluetooth Core, Volume 3, Part C, section 11). */
module Advertisement {
  import opened Bytes
  import opened Names

  const CACHE_SIZE := 16
  const TTL := 5000
  const NAME_SIZE := 64

  const HID_UUID: seq<byte> := [0xFB, 0x34, 0x9B, 0x5F, 0x80, 0x00, 0x00, 0x80, 0x00, 0x10, 0x00, 0x00, 0x12, 0x18, 0x00, 0x00]
  const IINE_UUID: seq<byte> := [0xB5, 0xDA, 0x8B, 0x14, 0xC4, 0x19, 0xC3, 0x96, 0xE9, 0x46, 0x0D, 0x66, 0xE0, 0x10, 0xF0, 0xD7]

  // ----- Advertising data as a list of structures.

  datatype Ad = Ad(kind: byte, value: seq<byte>)

  /** The structures up to the first truncated one or an early end mark, and whether none was truncated. */
  datatype Split = Split(ads: seq<Ad>, whole: bool)

  function Structures(data: seq<byte>): Split
    decreases |data|
  {
    if data == [] || data[0] == 0 then Split([], true)
    else if data[0] > |data| - 1 then Split([], false)
    else
      var rest := Structures(data[1 + data[0]..]);
      Split([Ad(data[1], data[2..1 + data[0]])] + rest.ads, rest.whole)
  }

  predicate WellFormed(ad: Ad) {
    && (ad.kind == 0x02 || ad.kind == 0x03 ==> |ad.value| % 2 == 0)
    && (ad.kind == 0x04 || ad.kind == 0x05 ==> |ad.value| % 4 == 0)
    && (ad.kind == 0x16 ==> |ad.value| >= 2)
    && (ad.kind == 0x06 || ad.kind == 0x07 ==> |ad.value| % 16 == 0)
    && (ad.kind == 0x19 ==> |ad.value| == 2)
  }

  /** A list of UUIDs contains this one. */
  predicate Lists(value: seq<byte>, uuid: seq<byte>)
    requires |uuid| > 0
    decreases |value|
  {
    |value| >= |uuid| && (value[..|uuid|] == uuid || Lists(value[|uuid|..], uuid))
  }

  predicate OffersHid(ad: Ad) {
    || ((ad.kind == 0x02 || ad.kind == 0x03) && Lists(ad.value, [0x12, 0x18]))
    || ((ad.kind == 0x04 || ad.kind == 0x05) && Lists(ad.value, [0x12, 0x18, 0, 0]))
    || (ad.kind == 0x16 && ad.value[..if |ad.value| < 2 then 0 else 2] == [0x12, 0x18])
    || ((ad.kind == 0x06 || ad.kind == 0x07) && Lists(ad.value, HID_UUID))
  }

  predicate OffersIine(ad: Ad) {
    (ad.kind == 0x06 || ad.kind == 0x07) && Lists(ad.value, IINE_UUID)
  }

  /** Octets as a number, the least significant first. */
  function Number(octets: seq<byte>): nat {
    if octets == [] then 0 else octets[0] + 256 * Number(octets[1..])
  }

  lemma {:induction false} NumberIdentifies(a: seq<byte>, b: seq<byte>)
    requires |a| == |b| && Number(a) == Number(b)
    ensures a == b
    decreases |a|
  {
    if a != [] {
      NumberIdentifies(a[1..], b[1..]);
      assert a == [a[0]] + a[1..] && b == [b[0]] + b[1..];
    }
  }

  /** A list of UUIDs of this size, as numbers. */
  function Uuids(value: seq<byte>, size: nat): seq<nat>
    requires size > 0
    decreases |value|
  {
    if |value| < size then [] else [Number(value[..size])] + Uuids(value[size..], size)
  }

  lemma {:induction false} ListsExactly(value: seq<byte>, uuid: seq<byte>)
    requires |uuid| > 0
    ensures Lists(value, uuid) <==> Number(uuid) in Uuids(value, |uuid|)
    decreases |value|
  {
    if |value| >= |uuid| {
      ListsExactly(value[|uuid|..], uuid);
      if Number(value[..|uuid|]) == Number(uuid) {
        NumberIdentifies(value[..|uuid|], uuid);
      }
    }
  }

  /** The size of the UUIDs that a list structure holds. */
  function UuidSize(kind: byte): nat {
    if kind == 0x02 || kind == 0x03 then 2
    else if kind == 0x04 || kind == 0x05 then 4
    else if kind == 0x06 || kind == 0x07 then 16
    else 0
  }

  const HID_SERVICE: nat := 0x1812
  const HID_SERVICE_128: nat := 0x0000_1812_0000_1000_8000_0080_5F9B_34FB
  const IINE_SERVICE_128: nat := 0xD7F0_10E0_660D_46E9_96C3_19C4_148B_DAB5

  /** A structure offers the HID service exactly when it lists service 0x1812 in any of the three sizes, the longest
      on the Bluetooth base UUID, or begins service data with it; and the service of the pad exactly when a list
      of the longest UUIDs holds it. */
  lemma OffersExactlyWhen(ad: Ad)
    ensures OffersHid(ad) <==>
      match UuidSize(ad.kind)
      case 0 => ad.kind == 0x16 && |ad.value| >= 2 && Number(ad.value[..2]) == HID_SERVICE
      case 16 => HID_SERVICE_128 in Uuids(ad.value, 16)
      case size => HID_SERVICE in Uuids(ad.value, size)
    ensures OffersIine(ad) <==> UuidSize(ad.kind) == 16 && IINE_SERVICE_128 in Uuids(ad.value, 16)
  {
    hide Lists, Uuids, Number;
    Services16();
    HidServiceIs();
    IineServiceIs();
    ListsExactly(ad.value, [0x12, 0x18]);
    ListsExactly(ad.value, [0x12, 0x18, 0, 0]);
    ListsExactly(ad.value, HID_UUID);
    ListsExactly(ad.value, IINE_UUID);
    NamesHid(ad.value);
  }

  lemma NamesHid(value: seq<byte>)
    ensures value[..if |value| < 2 then 0 else 2] == [0x12, 0x18] <==> |value| >= 2 && Number(value[..2]) == HID_SERVICE
  {
    Services16();
    if |value| >= 2 && Number(value[..2]) == HID_SERVICE {
      NumberIdentifies(value[..2], [0x12, 0x18]);
    }
    hide Number;
  }

  lemma Services16()
    ensures Number([0x12, 0x18]) == Number([0x12, 0x18, 0, 0]) == HID_SERVICE
  {
  }

  lemma NumberFour(s: seq<byte>, rest: seq<byte>)
    requires |s| >= 4 && rest == s[4..]
    ensures Number(s) == s[0] + 256 * (s[1] as int) + 65536 * (s[2] as int) + 16777216 * (s[3] as int) + 0x1_0000_0000 * Number(rest)
  {
    assert s[1..][1..] == s[2..] && s[2..][1..] == s[3..] && s[3..][1..] == s[4..];
    assert Number(s) == s[0] + 256 * Number(s[1..]) && Number(s[1..]) == s[1] + 256 * Number(s[2..]);
    assert Number(s[2..]) == s[2] + 256 * Number(s[3..]) && Number(s[3..]) == s[3] + 256 * Number(s[4..]);
  }

  lemma HidServiceIs()
    ensures Number(HID_UUID) == HID_SERVICE_128
  {
    hide Number;
    assert HID_UUID[16..] == [];
    NumberNothing();
    NumberFour(HID_UUID[12..], HID_UUID[16..]);
    assert Number(HID_UUID[12..]) == 0x1812;
    NumberFour(HID_UUID[8..], HID_UUID[12..]);
    assert Number(HID_UUID[8..]) == 0x181200001000;
    NumberFour(HID_UUID[4..], HID_UUID[8..]);
    assert Number(HID_UUID[4..]) == 0x18120000100080000080;
    NumberFour(HID_UUID[0..], HID_UUID[4..]);
    assert Number(HID_UUID[0..]) == 0x181200001000800000805F9B34FB;
    assert HID_UUID[0..] == HID_UUID;
  }

  lemma IineServiceIs()
    ensures Number(IINE_UUID) == IINE_SERVICE_128
  {
    hide Number;
    assert IINE_UUID[16..] == [];
    NumberNothing();
    NumberFour(IINE_UUID[12..], IINE_UUID[16..]);
    assert Number(IINE_UUID[12..]) == 0xD7F010E0;
    NumberFour(IINE_UUID[8..], IINE_UUID[12..]);
    assert Number(IINE_UUID[8..]) == 0xD7F010E0660D46E9;
    NumberFour(IINE_UUID[4..], IINE_UUID[8..]);
    assert Number(IINE_UUID[4..]) == 0xD7F010E0660D46E996C319C4;
    NumberFour(IINE_UUID[0..], IINE_UUID[4..]);
    assert Number(IINE_UUID[0..]) == 0xD7F010E0660D46E996C319C4148BDAB5;
    assert IINE_UUID[0..] == IINE_UUID;
  }

  lemma NumberNothing()
    ensures Number([]) == 0
  {
  }

  /** A structure is well formed exactly when a list holds whole UUIDs, service data names a service, and an
      appearance has two octets. */
  lemma WellFormedExactlyWhen(ad: Ad)
    ensures WellFormed(ad) <==>
      match UuidSize(ad.kind)
      case 0 => (ad.kind == 0x16 ==> |ad.value| >= 2) && (ad.kind == 0x19 ==> |ad.value| == 2)
      case size => |ad.value| % size == 0
  {
  }

  predicate GivesAppearance(ad: Ad) {
    ad.kind == 0x19
  }

  predicate GivesCompleteName(ad: Ad) {
    ad.kind == 0x09 && ad.value != []
  }

  predicate GivesShortName(ad: Ad) {
    ad.kind == 0x08 && ad.value != []
  }

  /** The place of the last element that satisfies p. */
  function Last<T>(s: seq<T>, p: T -> bool): (r: Option<nat>)
    ensures r.Some? ==> r.value < |s| && p(s[r.value]) && forall i | r.value < i < |s| :: !p(s[i])
    ensures r.None? ==> forall i | 0 <= i < |s| :: !p(s[i])
  {
    if |s| == 0 then None
    else if p(s[|s| - 1]) then Some(|s| - 1)
    else Last(s[..|s| - 1], p)
  }

  // ----- Names that fit the display buffer.

  function BackOff(v: seq<byte>, n: nat): (r: nat)
    requires n < |v|
    ensures r <= n
    ensures r == 0 || !Continues(v[r])
    ensures forall i | r < i <= n :: Continues(v[i])
  {
    if n == 0 || !Continues(v[n]) then n else BackOff(v, n - 1)
  }

  function CutPoint(v: seq<byte>): (n: nat)
    ensures n <= |v| && n < NAME_SIZE
  {
    if |v| >= NAME_SIZE then BackOff(v, NAME_SIZE - 1) else |v|
  }

  /** The C string in the name buffer after copying a name field. */
  function Shown(v: seq<byte>): CString {
    UpToNul(v[..CutPoint(v)])
  }

  /** Where a byte of UTF-8 text does not continue a code point, one begins. */
  lemma {:induction false} Boundary(cps: seq<nat>, n: nat) returns (m: nat)
    requires n < |Utf8All(cps)| && (n == 0 || !Continues(Utf8All(cps)[n]))
    ensures m <= |cps| && Utf8All(cps)[..n] == Utf8All(cps[..m])
  {
    if n == 0 {
      m := 0;
    } else {
      var first := Utf8(cps[0]);
      var all, rest := Utf8All(cps), Utf8All(cps[1..]);
      TailsContinue(cps[0]);
      assert all == first + rest;
      assert forall i | 1 <= i < |first| :: all[i] == first[i];
      var k := Boundary(cps[1..], n - |first|);
      m := k + 1;
      assert cps[..m][1..] == cps[1..][..k];
      assert all[..n] == first + rest[..n - |first|];
    }
  }

  lemma TailsContinue(cp: nat)
    ensures |Utf8(cp)| >= 1 && forall i | 1 <= i < |Utf8(cp)| :: Continues(Utf8(cp)[i])
  {
  }

  /** A name that does not fit is cut between code points. */
  lemma CutKeepsCodepoints(cps: seq<nat>) returns (m: nat)
    ensures m <= |cps| && Utf8All(cps)[..CutPoint(Utf8All(cps))] == Utf8All(cps[..m])
  {
    var v := Utf8All(cps);
    if |v| >= NAME_SIZE {
      m := Boundary(cps, CutPoint(v));
    } else {
      m := |cps|;
      assert cps[..m] == cps && v[..|v|] == v;
    }
  }

  /** In UTF-8 text a code point begins at least at every fourth octet. */
  lemma {:induction false} TailsAreShort(cps: seq<nat>, n: nat)
    requires n < |Utf8All(cps)| && forall i | 0 <= i < |cps| :: cps[i] <= 0x10_FFFF
    ensures exists j :: n - 3 <= j <= n && 0 <= j && !Continues(Utf8All(cps)[j])
    decreases |cps|
  {
    var first, rest := Utf8(cps[0]), Utf8All(cps[1..]);
    assert Utf8All(cps) == first + rest;
    if n < |first| {
      LeadLeads(cps[0]);
      assert !Continues(Utf8All(cps)[0]);
    } else {
      TailsAreShort(cps[1..], n - |first|);
      var j :| n - |first| - 3 <= j <= n - |first| && 0 <= j && !Continues(rest[j]);
      assert !Continues(Utf8All(cps)[j + |first|]);
    }
  }

  lemma LeadLeads(cp: nat)
    ensures 1 <= |Utf8(cp)| <= 4 && (cp <= 0x10_FFFF ==> !Continues(Utf8(cp)[0]))
  {
  }

  /** A name of up to 63 octets is shown whole, and of a longer one at least 60 octets are. */
  lemma CutKeepsMost(cps: seq<nat>)
    requires forall i | 0 <= i < |cps| :: cps[i] <= 0x10_FFFF
    ensures var v := Utf8All(cps); if |v| <= 63 then CutPoint(v) == |v| else 60 <= CutPoint(v) <= 63
  {
    var v := Utf8All(cps);
    if |v| > 63 {
      TailsAreShort(cps, 63);
    }
  }

  // ----- What a packet says.

  /** The last appearance, the last complete name or else the last short one, and any service mention. */
  datatype Fields = Fields(hid: bool, iine: bool, appearance: Option<nat>, name: CString, complete: bool)

  function AppearanceOf(ads: seq<Ad>): Option<nat> {
    match Last(ads, GivesAppearance)
    case None => None
    case Some(k) => if |ads[k].value| == 2 then Some(ads[k].value[0] + 256 * (ads[k].value[1] as int)) else None
  }

  function NameOf(ads: seq<Ad>): (CString, bool) {
    match Last(ads, GivesCompleteName)
    case Some(k) => (Shown(ads[k].value), true)
    case None =>
      match Last(ads, GivesShortName)
      case Some(k) => (Shown(ads[k].value), false)
      case None => ([], false)
  }

  function Summary(ads: seq<Ad>): Fields {
    Fields(exists i | 0 <= i < |ads| :: OffersHid(ads[i]), exists i | 0 <= i < |ads| :: OffersIine(ads[i]),
           AppearanceOf(ads), NameOf(ads).0, NameOf(ads).1)
  }

  /** What is understood of a packet: nothing, unless every structure in it is well formed. */
  function Understood(data: seq<byte>): Option<Fields> {
    var s := Structures(data);
    if s.whole && forall i | 0 <= i < |s.ads| :: WellFormed(s.ads[i]) then Some(Summary(s.ads)) else None
  }

  /** A structure as it is sent: its length, its kind, its value. */
  function Written(ad: Ad): (d: seq<byte>)
    requires |ad.value| <= 254
    ensures |d| == 2 + |ad.value| && d[0] == 1 + |ad.value| && d[1] == ad.kind && d[2..] == ad.value
  {
    var head: seq<byte> := [1 + |ad.value|, ad.kind];
    head + ad.value
  }

  lemma OneStructure(ad: Ad)
    requires |ad.value| <= 254
    ensures Structures(Written(ad)) == Split([ad], true)
  {
    var d := Written(ad);
    HeadOf(d);
    assert d[2..1 + d[0]] == ad.value && d[1 + d[0]..] == [];
    NoStructure();
    hide Structures, Written;
    var rest := Structures(d).ads[1..];
    assert Structures(d).ads == [Structures(d).ads[0]] + rest;
  }

  lemma NoStructure()
    ensures Structures([]) == Split([], true)
  {
  }

  /** What one structure says: 9 is a complete name, 8 a short one, and 0x19 an appearance, low octet first
      (Assigned Numbers, section 2.3). */
  lemma OneStructureSays(ad: Ad)
    requires 0 < |ad.value| <= 63 && 0 !in ad.value
    ensures ad.kind == 9 ==> Understood(Written(ad)) == Some(Fields(false, false, None, ad.value, true))
    ensures ad.kind == 8 ==> Understood(Written(ad)) == Some(Fields(false, false, None, ad.value, false))
    ensures ad.kind == 0x19 ==>
      Understood(Written(ad)) == if |ad.value| == 2 then Some(Fields(false, false, Some(ad.value[0] + 256 * (ad.value[1] as int)), [], false)) else None
  {
    OneStructure(ad);
    NothingToCut(ad.value);
    hide Structures, Lists, UpToNul, Written, Shown;
    var ads := [ad];
    assert Last(ads, GivesCompleteName) == if ad.kind == 9 then Some(0) else None;
    assert Last(ads, GivesShortName) == if ad.kind == 8 then Some(0) else None;
    assert Last(ads, GivesAppearance) == if ad.kind == 0x19 then Some(0) else None;
  }

  lemma NothingToCut(value: seq<byte>)
    requires |value| <= 63 && 0 !in value
    ensures Shown(value) == value
  {
    assert value[..|value|] == value;
    NoNul(value);
  }

  lemma {:induction false} NoNul(s: seq<byte>)
    requires 0 !in s
    ensures UpToNul(s) == s
    decreases |s|
  {
    if s != [] {
      NoNul(s[1..]);
      assert s == [s[0]] + s[1..];
    }
  }

  // ----- The parser.

  /** The structures from i on are those of the data from pos on. */
  predicate Ahead(data: seq<byte>, pos: nat, i: nat) {
    var all := Structures(data);
    pos <= |data| && i <= |all.ads| && Structures(data[pos..]) == Split(all.ads[i..], all.whole)
  }

  lemma HeadOf(rest: seq<byte>)
    requires rest != [] && rest[0] != 0
    ensures rest[0] > |rest| - 1 ==> !Structures(rest).whole
    ensures rest[0] <= |rest| - 1 ==>
      var n, s := rest[0], Structures(rest);
      && s.ads != [] && s.ads[0] == Ad(rest[1], rest[2..1 + n])
      && Structures(rest[1 + n..]) == Split(s.ads[1..], s.whole)
  {
  }

  lemma SameRest<T>(s: seq<T>, pos: nat, n: nat)
    requires pos + 1 + n <= |s|
    ensures s[pos..][0] == s[pos] && s[pos..][1 + n..] == s[pos + 1 + n..]
    ensures n > 0 ==> s[pos..][1] == s[pos + 1] && s[pos..][2..1 + n] == s[pos + 2..pos + 1 + n]
  {
  }

  lemma LastAd(data: seq<byte>, pos: nat, i: nat)
    requires Ahead(data, pos, i) && (pos == |data| || data[pos] == 0)
    ensures Structures(data).whole && i == |Structures(data).ads|
  {
    assert Structures(data[pos..]) == Split([], true);
  }

  lemma NextAd(data: seq<byte>, pos: nat, i: nat)
    requires Ahead(data, pos, i) && pos < |data| && data[pos] != 0
    ensures data[pos] > |data| - (pos + 1) ==> !Structures(data).whole
    ensures data[pos] <= |data| - (pos + 1) ==>
      var all, end := Structures(data).ads, pos + 1 + data[pos];
      i < |all| && all[i] == Ad(data[pos + 1], data[pos + 2..end]) && Ahead(data, end, i + 1)
  {
    hide Structures;
    HeadOf(data[pos..]);
    SameRest(data, pos, 0);
    if data[pos] <= |data| - (pos + 1) {
      SameRest(data, pos, data[pos]);
      SameRest(Structures(data).ads, i, 0);
    }
  }

  /** The next structure; done at the end or an end mark, not ok if it is truncated. */
  method TakeAd(data: seq<byte>, pos: nat, ghost i: nat) returns (done: bool, ok: bool, ad: Ad, pos': nat)
    requires Ahead(data, pos, i)
    ensures done ==> Structures(data).whole && i == |Structures(data).ads|
    ensures !done && !ok ==> !Structures(data).whole
    ensures !done && ok ==>
      pos < pos' <= |data| && i < |Structures(data).ads| && ad == Structures(data).ads[i] && Ahead(data, pos', i + 1)
  {
    assert pos <= |data|;
    hide Structures, Ahead;
    done, ok, ad, pos' := true, true, Ad(0, []), pos;
    if pos == |data| || data[pos] == 0 {
      LastAd(data, pos, i);
      return;
    }
    NextAd(data, pos, i);
    done := false;
    var fieldLength := data[pos];
    pos' := pos + 1;
    if fieldLength > |data| - pos' {
      ok := false;
      return;
    }
    ad := Ad(data[pos'], data[pos' + 1..pos' + fieldLength]);
    pos' := pos' + fieldLength;
  }

  method ListsUuid(value: seq<byte>, uuid: seq<byte>) returns (found: bool)
    requires |uuid| > 0 && |value| % |uuid| == 0
    ensures found <==> Lists(value, uuid)
  {
    found := false;
    var rest := value;
    while |rest| >= |uuid|
      invariant Lists(value, uuid) <==> found || Lists(rest, uuid)
    {
      if rest[..|uuid|] == uuid {
        found := true;
      }
      rest := rest[|uuid|..];
    }
  }

  /** The copy into the name buffer, which does not cut a UTF-8 code point at its end. */
  method CopyName(value: seq<byte>) returns (name: CString)
    ensures name == Shown(value)
  {
    var n := |value|;
    if n >= NAME_SIZE {
      n := NAME_SIZE - 1;
      while n > 0 && value[n] / 64 == 2
        invariant 0 <= n < NAME_SIZE && BackOff(value, n) == BackOff(value, NAME_SIZE - 1)
      {
        n := n - 1;
      }
    }
    name := UpToNul(value[..n]);
  }

  lemma SummaryNext(ads: seq<Ad>, ad: Ad)
    ensures var f, g := Summary(ads), Summary(ads + [ad]);
      && g.hid == (f.hid || OffersHid(ad)) && g.iine == (f.iine || OffersIine(ad))
      && g.appearance == (if !GivesAppearance(ad) then f.appearance
                          else if |ad.value| == 2 then Some(ad.value[0] + 256 * (ad.value[1] as int)) else None)
      && (g.name, g.complete) ==
           (if GivesCompleteName(ad) then (Shown(ad.value), true)
            else if GivesShortName(ad) && !f.complete then (Shown(ad.value), false)
            else (f.name, f.complete))
  {
    hide OffersHid, OffersIine, Shown;
    var more := ads + [ad];
    assert more[..|more| - 1] == ads && more[|more| - 1] == ad;
    assert forall i | 0 <= i < |ads| :: more[i] == ads[i];
    if Summary(ads).hid {
      var i :| 0 <= i < |ads| && OffersHid(ads[i]);
      assert OffersHid(more[i]);
    }
    if Summary(ads).iine {
      var i :| 0 <= i < |ads| && OffersIine(ads[i]);
      assert OffersIine(more[i]);
    }
  }

  /** The services that one structure offers, as the chain of tests in uni_bt_le_adv_observe finds them. */
  method Services(ad: Ad) returns (ok: bool, hid: bool, iine: bool)
    ensures ok <==> WellFormed(ad)
    ensures ok ==> hid == OffersHid(ad) && iine == OffersIine(ad)
  {
    hide Lists;
    ok, hid, iine := true, false, false;
    var value := ad.value;
    if ad.kind == 0x02 || ad.kind == 0x03 {
      if |value| % 2 != 0 {
        return false, false, false;
      }
      hid := ListsUuid(value, [0x12, 0x18]);
    } else if ad.kind == 0x04 || ad.kind == 0x05 {
      if |value| % 4 != 0 {
        return false, false, false;
      }
      hid := ListsUuid(value, [0x12, 0x18, 0, 0]);
    } else if ad.kind == 0x16 {
      if |value| < 2 {
        return false, false, false;
      }
      hid := value[0] == 0x12 && value[1] == 0x18;
      assert value[..2] == [value[0], value[1]];
    } else if ad.kind == 0x06 || ad.kind == 0x07 {
      if |value| % 16 != 0 {
        return false, false, false;
      }
      hid := ListsUuid(value, HID_UUID);
      iine := ListsUuid(value, IINE_UUID);
    } else if ad.kind == 0x19 && |value| != 2 {
      ok := false;
    }
  }

  /** The parsing half of uni_bt_le_adv_observe. */
  method ReadFields(data: seq<byte>) returns (r: Option<Fields>)
    ensures r == Understood(data)
  {
    ghost var all := Structures(data);
    hide Structures, Summary, OffersHid, OffersIine, Ahead, Shown, Last, Lists, Understood, NameOf, AppearanceOf, UpToNul;
    var f := Fields(false, false, None, [], false);
    var pos := 0;
    ghost var i := 0;
    BeginAds(data);
    assert all.ads[..0] == [];
    while true
      invariant i <= |all.ads| && Ahead(data, pos, i) && f == Summary(all.ads[..i])
      invariant forall k | 0 <= k < i :: WellFormed(all.ads[k])
      decreases |data| - pos
    {
      var done, whole, ad, next := TakeAd(data, pos, i);
      if done {
        EndAds(data, i);
        return Some(f);
      }
      if !whole {
        RejectAds(data, i);
        return None;
      }
      var ok, hid, iine := Services(ad);
      if !ok {
        RejectAds(data, i);
        return None;
      }
      SummaryNext(all.ads[..i], ad);
      assert all.ads[..i + 1] == all.ads[..i] + [ad];
      f := f.(hid := f.hid || hid, iine := f.iine || iine);
      if ad.kind == 0x19 {
        f := f.(appearance := Some(ad.value[0] + 256 * (ad.value[1] as int)));
      } else if (ad.kind == 0x09 || ad.kind == 0x08) && ad.value != [] && (ad.kind == 0x09 || !f.complete) {
        var name := CopyName(ad.value);
        f := f.(name := name, complete := ad.kind == 0x09);
      }
      pos := next;
      i := i + 1;
    }
  }

  lemma BeginAds(data: seq<byte>)
    ensures Ahead(data, 0, 0) && Summary([]) == Fields(false, false, None, [], false)
  {
    assert data[0..] == data;
  }

  lemma EndAds(data: seq<byte>, i: nat)
    requires Structures(data).whole && i == |Structures(data).ads|
    requires forall k | 0 <= k < i :: WellFormed(Structures(data).ads[k])
    ensures Understood(data) == Some(Summary(Structures(data).ads[..i]))
  {
    assert Structures(data).ads[..i] == Structures(data).ads;
  }

  lemma RejectAds(data: seq<byte>, i: nat)
    requires !Structures(data).whole || (i < |Structures(data).ads| && !WellFormed(Structures(data).ads[i]))
    ensures Understood(data) == None
  {
  }

  // ----- The cache as a function.

  datatype Key = Key(address: seq<byte>, kind: byte)

  datatype Entry = Entry(key: Key, appearance: nat, hid: bool, iine: bool, name: CString, complete: bool, lastSeen: u32)

  type Slots = seq<Option<Entry>>

  datatype Observation = Observation(key: Key, data: seq<byte>, now: u32)

  function Age(e: Entry, now: u32): u32 {
    Wrap(now - e.lastSeen)
  }

  predicate Live(e: Option<Entry>, now: u32) {
    e.Some? && Age(e.value, now) < TTL
  }

  function Fresh(key: Key, now: u32): Entry {
    Entry(key, 0, false, false, [], false, now)
  }

  /** A later packet adds to what is known of a peer; a short name never replaces a complete one. */
  function Merged(e: Entry, f: Fields, now: u32): Entry {
    var named := f.name != [] && (f.complete || !e.complete);
    Entry(e.key, if f.appearance.Some? then f.appearance.value else e.appearance, e.hid || f.hid, e.iine || f.iine,
          if named then f.name else e.name, if named then f.complete else e.complete, now)
  }

  /** Entries that have not been heard for the time to live are dropped. */
  function Swept(s: Slots, now: u32): (r: Slots)
    ensures |r| == |s| && forall i | 0 <= i < |s| :: r[i] == if Live(s[i], now) then s[i] else None
  {
    seq(|s|, i requires 0 <= i < |s| => if Live(s[i], now) then s[i] else None)
  }

  function Find(s: Slots, key: Key): (r: Option<nat>)
    ensures r.Some? ==> r.value < |s| && s[r.value].Some? && s[r.value].value.key == key
    ensures r.None? ==> forall i | 0 <= i < |s| && s[i].Some? :: s[i].value.key != key
  {
    if s == [] then None
    else if s[|s| - 1].Some? && s[|s| - 1].value.key == key then Some(|s| - 1)
    else Find(s[..|s| - 1], key)
  }

  function FirstFree(s: Slots): (r: Option<nat>)
    ensures r.Some? ==> r.value < |s| && s[r.value].None? && forall i | 0 <= i < r.value :: s[i].Some?
    ensures r.None? ==> forall i | 0 <= i < |s| :: s[i].Some?
  {
    if s == [] then None
    else match FirstFree(s[..|s| - 1])
      case Some(k) => Some(k)
      case None => if s[|s| - 1].None? then Some(|s| - 1) else None
  }

  /** The entry heard longest ago, in wrapping time; the first of them. */
  function Oldest(s: Slots, now: u32): (r: Option<nat>)
    ensures r.None? ==> forall i | 0 <= i < |s| :: s[i].None?
    ensures r.Some? ==> r.value < |s| && s[r.value].Some?
    ensures r.Some? ==> forall i | 0 <= i < |s| && s[i].Some? :: Age(s[i].value, now) <= Age(s[r.value].value, now)
    ensures r.Some? ==> forall i | 0 <= i < r.value && s[i].Some? :: Age(s[i].value, now) < Age(s[r.value].value, now)
  {
    if s == [] then None
    else
      var last := s[|s| - 1];
      match Oldest(s[..|s| - 1], now)
      case None => if last.Some? then Some(|s| - 1) else None
      case Some(k) =>
        if last.Some? && Age(last.value, now) > Age(s[k].value, now) then Some(|s| - 1) else Some(k)
  }

  /** Where an observation of this peer goes: its own slot, the first free one, or the oldest. */
  function Target(s: Slots, key: Key, now: u32): (i: nat)
    requires |s| == CACHE_SIZE
    ensures i < |s|
  {
    match Find(s, key)
    case Some(i) => i
    case None =>
      match FirstFree(s)
      case Some(i) => i
      case None => match Oldest(s, now) case Some(i) => i case None => 0
  }

  function Observed(s: Slots, o: Observation): (r: Slots)
    requires |s| == CACHE_SIZE
    ensures |r| == CACHE_SIZE
  {
    match Understood(o.data)
    case None => s
    case Some(f) =>
      var t := Swept(s, o.now);
      var i := Target(t, o.key, o.now);
      var e := if t[i].Some? && t[i].value.key == o.key then t[i].value else Fresh(o.key, o.now);
      t[i := Some(Merged(e, f, o.now))]
  }

  /** No peer has two slots. */
  predicate Unique(s: Slots) {
    forall i, j | 0 <= i < j < |s| && s[i].Some? && s[j].Some? :: s[i].value.key != s[j].value.key
  }

  /** The cache as a map from peers to what is known of them. */
  function Lookup(s: Slots, key: Key): Option<Entry> {
    match Find(s, key) case None => None case Some(i) => s[i]
  }

  lemma LookupIs(s: Slots, key: Key, i: nat)
    requires Unique(s) && i < |s| && s[i].Some? && s[i].value.key == key
    ensures Lookup(s, key) == s[i]
  {
  }

  /** The one peer, if any, that an observation pushes out: only with all slots taken by live peers,
      none of them the observed one, and then the one heard longest ago. */
  predicate Evicts(s: Slots, o: Observation, victim: Key)
    requires |s| == CACHE_SIZE
  {
    var t := Swept(s, o.now);
    && (forall i | 0 <= i < |t| :: t[i].Some?) && Find(t, o.key).None?
    && Lookup(t, victim).Some?
    && forall i | 0 <= i < |t| :: Age(t[i].value, o.now) <= Age(Lookup(t, victim).value, o.now)
  }

  function LiveLookup(s: Slots, key: Key, now: u32): Option<Entry> {
    if Live(Lookup(s, key), now) then Lookup(s, key) else None
  }

  lemma SweptLookup(s: Slots, key: Key, now: u32)
    requires Unique(s)
    ensures Unique(Swept(s, now)) && Lookup(Swept(s, now), key) == LiveLookup(s, key, now)
  {
    var t := Swept(s, now);
    if Find(t, key).Some? {
      LookupIs(s, key, Find(t, key).value);
    }
    if Live(Lookup(s, key), now) {
      LookupIs(t, key, Find(s, key).value);
    }
  }

  /** Writing one slot, seen as a map. */
  lemma SetSlot(t: Slots, i: nat, e: Entry)
    requires Unique(t) && i < |t| && (Find(t, e.key) == None || Find(t, e.key) == Some(i))
    ensures var u := t[i := Some(e)];
      Unique(u) && forall k ::
        Lookup(u, k) == (if k == e.key then Some(e) else if t[i].Some? && t[i].value.key == k then None else Lookup(t, k))
  {
    var u := t[i := Some(e)];
    forall a, b | 0 <= a < b < |u| && u[a].Some? && u[b].Some? ensures u[a].value.key != u[b].value.key {
      assert a != i ==> u[a] == t[a];
      assert b != i ==> u[b] == t[b];
    }
    forall k ensures Lookup(u, k) ==
        if k == e.key then Some(e) else if t[i].Some? && t[i].value.key == k then None else Lookup(t, k)
    {
      if k == e.key {
        LookupIs(u, k, i);
      } else {
        if Find(u, k).Some? {
          LookupIs(t, k, Find(u, k).value);
        }
        if Find(t, k).Some? && Find(t, k).value != i {
          LookupIs(u, k, Find(t, k).value);
        }
      }
    }
  }

  /** Seen as a map, a well-formed observation drops the expired peers and at most one victim, adds the
      packet to the observed peer, and changes nothing else; a malformed one changes nothing at all. */
  lemma ObservedRefinesMap(s: Slots, o: Observation) returns (victim: Option<Key>)
    requires |s| == CACHE_SIZE && Unique(s)
    ensures Unique(Observed(s, o))
    ensures Understood(o.data).None? ==> Observed(s, o) == s
    ensures victim.Some? ==> Evicts(s, o, victim.value) && victim.value != o.key
    ensures Understood(o.data).Some? ==>
      var before := LiveLookup(s, o.key, o.now);
      var e := if before.Some? then before.value else Fresh(o.key, o.now);
      forall k :: Lookup(Observed(s, o), k) ==
        if k == o.key then Some(Merged(e, Understood(o.data).value, o.now))
        else if victim == Some(k) then None
        else LiveLookup(s, k, o.now)
  {
    victim := None;
    if Understood(o.data).Some? {
      var f := Understood(o.data).value;
      var t := Swept(s, o.now);
      var i := Target(t, o.key, o.now);
      SweptAll(s, o.now);
      SlotOf(t, o.key, o.now);
      var e := if t[i].Some? && t[i].value.key == o.key then t[i].value else Fresh(o.key, o.now);
      assert Merged(e, f, o.now).key == o.key && Observed(s, o) == t[i := Some(Merged(e, f, o.now))];
      SetSlot(t, i, Merged(e, f, o.now));
      victim := if t[i].Some? && t[i].value.key != o.key then Some(t[i].value.key) else None;
      if victim.Some? {
        TakenSlot(s, o);
      }
      hide *;
    }
  }

  lemma SweptAll(s: Slots, now: u32)
    requires Unique(s)
    ensures Unique(Swept(s, now)) && forall k :: Lookup(Swept(s, now), k) == LiveLookup(s, k, now)
  {
    hide *;
    SweptLookup(s, Key([], 0), now);
    forall k ensures Lookup(Swept(s, now), k) == LiveLookup(s, k, now) {
      SweptLookup(s, k, now);
    }
  }

  lemma SlotOf(t: Slots, key: Key, now: u32)
    requires |t| == CACHE_SIZE && Unique(t)
    ensures var i := Target(t, key, now);
      && (Find(t, key) == None || Find(t, key) == Some(i))
      && Lookup(t, key) == (if t[i].Some? && t[i].value.key == key then t[i] else None)
  {
  }

  lemma TakenSlot(s: Slots, o: Observation)
    requires |s| == CACHE_SIZE && Unique(s)
    requires var t := Swept(s, o.now);
      var i := Target(t, o.key, o.now);
      t[i].Some? && t[i].value.key != o.key
    ensures Evicts(s, o, Swept(s, o.now)[Target(Swept(s, o.now), o.key, o.now)].value.key)
  {
    var t := Swept(s, o.now);
    var i := Target(t, o.key, o.now);
    SweptAll(s, o.now);
    LookupIs(t, t[i].value.key, i);
    hide Swept, Lookup, Unique;
  }

  // ----- Runs.

  function Empty(): (s: Slots)
    ensures |s| == CACHE_SIZE
  {
    seq(CACHE_SIZE, _ => None)
  }

  function After(run: seq<Observation>, n: nat): (s: Slots)
    requires n <= |run|
    ensures |s| == CACHE_SIZE
  {
    if n == 0 then Empty() else Observed(After(run, n - 1), run[n - 1])
  }

  /** The well-formed packets of a peer since its slot was last created, expired or taken. */
  function History(run: seq<Observation>, n: nat, key: Key): seq<Fields>
    requires n <= |run|
  {
    if n == 0 || Lookup(After(run, n), key).None? then []
    else
      var o := run[n - 1];
      if o.key == key && Understood(o.data).Some? then
        (if LiveLookup(After(run, n - 1), key, o.now).Some? then History(run, n - 1, key) else []) + [Understood(o.data).value]
      else History(run, n - 1, key)
  }

  predicate HasAppearance(f: Fields) { f.appearance.Some? }
  predicate HasCompleteName(f: Fields) { f.name != [] && f.complete }
  predicate HasName(f: Fields) { f.name != [] }

  /** What a list of packets says of the peer that sent them. */
  predicate Describes(e: Entry, h: seq<Fields>) {
    && (e.hid <==> exists i | 0 <= i < |h| :: h[i].hid)
    && (e.iine <==> exists i | 0 <= i < |h| :: h[i].iine)
    && e.appearance == (match Last(h, HasAppearance) case Some(i) => h[i].appearance.value case None => 0)
    && match Last(h, HasCompleteName)
       case Some(i) => e.complete && e.name == h[i].name
       case None => !e.complete && e.name == (match Last(h, HasName) case Some(j) => h[j].name case None => [])
  }

  lemma FreshDescribes(key: Key, now: u32)
    ensures Describes(Fresh(key, now), [])
  {
  }

  lemma MergedDescribes(e: Entry, h: seq<Fields>, f: Fields, now: u32)
    requires Describes(e, h)
    ensures Describes(Merged(e, f, now), h + [f])
  {
    var more := h + [f];
    assert more[..|more| - 1] == h && more[|more| - 1] == f;
    assert forall i | 0 <= i < |h| :: more[i] == h[i];
  }

  lemma {:induction false} RunUnique(run: seq<Observation>, n: nat)
    requires n <= |run|
    ensures Unique(After(run, n))
  {
    if n > 0 {
      RunUnique(run, n - 1);
      var _ := ObservedRefinesMap(After(run, n - 1), run[n - 1]);
    }
  }

  lemma HistoryNext(run: seq<Observation>, n: nat, key: Key)
    requires 0 < n <= |run| && Unique(After(run, n - 1))
    requires Lookup(After(run, n - 1), key).Some? ==> Describes(Lookup(After(run, n - 1), key).value, History(run, n - 1, key))
    ensures Lookup(After(run, n), key).Some? ==> Describes(Lookup(After(run, n), key).value, History(run, n, key))
  {
    hide Understood, Observed, Lookup, Describes, Merged, Fresh, Swept, Find;
    var o, s := run[n - 1], After(run, n - 1);
    var victim := ObservedRefinesMap(s, o);
    assert After(run, n) == Observed(s, o);
    hide After;
    if Lookup(After(run, n), key).Some? && Understood(o.data).Some? && o.key == key {
      var before := LiveLookup(s, key, o.now);
      if before.Some? {
        MergedDescribes(before.value, History(run, n - 1, key), Understood(o.data).value, o.now);
      } else {
        FreshDescribes(key, o.now);
        MergedDescribes(Fresh(key, o.now), [], Understood(o.data).value, o.now);
      }
    }
  }

  /** In every run each slot holds exactly what the packets of its peer have said since the slot was
      created: any mention of a service, the last appearance, the last complete name or else the last. */
  lemma {:induction false} SlotsTellTheirHistory(run: seq<Observation>, n: nat, key: Key)
    requires n <= |run|
    ensures Lookup(After(run, n), key).Some? ==> Describes(Lookup(After(run, n), key).value, History(run, n, key))
  {
    hide Describes, History, Lookup;
    if n == 0 {
      EmptyCache(key);
    } else {
      RunUnique(run, n - 1);
      SlotsTellTheirHistory(run, n - 1, key);
      HistoryNext(run, n, key);
    }
  }

  lemma EmptyCache(key: Key)
    ensures Lookup(Empty(), key).None?
  {
  }

  /** After a well-formed observation no peer is left that has been silent for the time to live. */
  lemma OnlyRecentPeers(s: Slots, o: Observation, key: Key)
    requires |s| == CACHE_SIZE && Unique(s) && Understood(o.data).Some?
    ensures Lookup(Observed(s, o), key).Some? ==> Live(Lookup(Observed(s, o), key), o.now)
    ensures Lookup(Observed(s, o), o.key).Some?
  {
    var _ := ObservedRefinesMap(s, o);
    hide Understood, Observed, Lookup;
  }

  lemma NobodyIsPushedOut(s: Slots, o: Observation, victim: Key)
    requires |s| == 16 && Unique(s)
    requires Live(Lookup(s, o.key), o.now) || !forall i | 0 <= i < 16 :: Live(s[i], o.now)
    ensures !Evicts(s, o, victim)
  {
    SweptLookup(s, o.key, o.now);
    hide Lookup, Unique, Find;
    FoundIsFound(Swept(s, o.now), o.key);
  }

  lemma FoundIsFound(s: Slots, key: Key)
    ensures Find(s, key).None? ==> Lookup(s, key).None?
  {
  }

  /** A peer that falls silent is known for five seconds more, exactly as it was, unless it is the one pushed out
      of sixteen live ones; after that the next packet of anyone removes it. */
  lemma SilentPeerStays(s: Slots, o: Observation, key: Key, heard: int, t: int)
    requires |s| == 16 && Unique(s) && Understood(o.data).Some? && o.key != key && o.now == Wrap(t)
    requires Lookup(s, key).Some? && Lookup(s, key).value.lastSeen == Wrap(heard) && heard <= t < heard + 0x1_0000_0000
    ensures t - heard >= 5000 ==> Lookup(Observed(s, o), key).None?
    ensures t - heard < 5000 && (Live(Lookup(s, o.key), o.now) || !forall i | 0 <= i < 16 :: Live(s[i], o.now)) ==>
      Lookup(Observed(s, o), key) == Lookup(s, key)
  {
    hide Understood, Observed, Unique, Lookup, Evicts, Merged;
    var victim := ObservedRefinesMap(s, o);
    assert Age(Lookup(s, key).value, o.now) == t - heard;
    if victim.Some? && (Live(Lookup(s, o.key), o.now) || !forall i | 0 <= i < 16 :: Live(s[i], o.now)) {
      NobodyIsPushedOut(s, o, victim.value);
    }
  }

  lemma SweptAt(s: Slots, now: u32, i: nat)
    requires i < |s|
    ensures var t := Swept(s, now);
      && t[..i + 1][..i] == t[..i] && t[..i + 1][i] == t[i]
      && t[i] == (if s[i].Some? && Age(s[i].value, now) >= TTL then None else s[i])
  {
  }

  lemma SweepBegins(key: Key, now: u32)
    ensures Find([], key).None? && FirstFree([]).None? && Oldest([], now).None?
  {
  }

  /** What one more slot changes. */
  lemma SweepGoesOn(t: Slots, i: nat, key: Key, now: u32)
    requires i < |t|
    ensures Find(t[..i + 1], key) == if t[i].Some? && t[i].value.key == key then Some(i) else Find(t[..i], key)
    ensures FirstFree(t[..i + 1]) == if FirstFree(t[..i]).None? && t[i].None? then Some(i) else FirstFree(t[..i])
    ensures var was := Oldest(t[..i], now);
      && (was.Some? ==> was.value < i && t[was.value].Some?)
      && Oldest(t[..i + 1], now) ==
        if t[i].Some? && (was.None? || Age(t[i].value, now) > Age(t[was.value].value, now)) then Some(i) else was
  {
    hide Age;
    var more := t[..i + 1];
    assert more[..|more| - 1] == t[..i] && more[|more| - 1] == t[i];
  }

  lemma ObservedIs(s: Slots, o: Observation)
    requires |s| == CACHE_SIZE && Unique(s) && Understood(o.data).Some?
    ensures var t := Swept(s, o.now);
      var i := if Find(t, o.key).Some? then Find(t, o.key).value
               else if FirstFree(t).Some? then FirstFree(t).value
               else if Oldest(t, o.now).Some? then Oldest(t, o.now).value else 0;
      var e := if Find(t, o.key).Some? then t[i].value else Fresh(o.key, o.now);
      var r := Some(Merged(e, Understood(o.data).value, o.now));
      && (Find(t, o.key).None? && FirstFree(t).None? ==> Oldest(t, o.now).Some?)
      && i < |t| && Observed(s, o) == t[i := r] && Lookup(Observed(s, o), o.key) == r
  {
    hide Understood, Merged, Fresh;
    var _ := ObservedRefinesMap(s, o);
  }

  // ----- The cache.

  class AdvCache {
    const entries: array<Option<Entry>>

    constructor ()
      ensures fresh(entries) && entries.Length == CACHE_SIZE && entries[..] == Empty()
    {
      entries := new Option<Entry>[CACHE_SIZE](_ => None);
    }

    /** The pass of uni_bt_le_adv_observe that expires entries and looks for a slot. */
    method Sweep(key: Key, now: u32) returns (found: Option<nat>, spare: Option<nat>, oldest: Option<nat>)
      requires entries.Length == CACHE_SIZE
      modifies entries
      ensures entries[..] == Swept(old(entries[..]), now)
      ensures found == Find(entries[..], key) && spare == FirstFree(entries[..]) && oldest == Oldest(entries[..], now)
    {
      hide Swept, Live, Find, FirstFree, Oldest, Age;
      SweepBegins(key, now);
      ghost var s := entries[..];
      ghost var t := Swept(s, now);
      found, spare, oldest := None, None, None;
      for i := 0 to CACHE_SIZE
        invariant forall k | 0 <= k < i :: entries[k] == t[k]
        invariant forall k | i <= k < CACHE_SIZE :: entries[k] == s[k]
        invariant found == Find(t[..i], key) && spare == FirstFree(t[..i]) && oldest == Oldest(t[..i], now)
      {
        SweptAt(s, now, i);
        SweepGoesOn(t, i, key, now);
        if entries[i].Some? && Age(entries[i].value, now) >= TTL {
          entries[i] := None;
        }
        if entries[i].None? {
          if spare.None? {
            spare := Some(i);
          }
          continue;
        }
        var item := entries[i].value;
        if item.key == key {
          found := Some(i);
        }
        if oldest.None? || Age(item, now) > Age(entries[oldest.value].value, now) {
          oldest := Some(i);
        }
      }
      assert t[..CACHE_SIZE] == t && entries[..] == t;
    }

    /** uni_bt_le_adv_observe: the packet is parsed before the cache is touched. */
    method Observe(o: Observation) returns (entry: Option<Entry>)
      requires entries.Length == CACHE_SIZE && Unique(entries[..])
      modifies entries
      ensures entries[..] == Observed(old(entries[..]), o)
      ensures entry == if Understood(o.data).Some? then Lookup(entries[..], o.key) else None
    {
      var fields := ReadFields(o.data);
      if fields.None? {
        return None;
      }
      ObservedIs(entries[..], o);
      var found, spare, oldest := Sweep(o.key, o.now);
      hide *;
      ghost var t := entries[..];
      var at := if found.Some? then found.value else if spare.Some? then spare.value else oldest.value;
      if found.None? {
        entries[at] := Some(Fresh(o.key, o.now));
      }
      entries[at] := Some(Merged(entries[at].value, fields.value, o.now));
      entry := entries[at];
      assert entries[..] == t[at := entry];
    }
  }
}
