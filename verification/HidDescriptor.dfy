/** Classifying a Bluetooth HID peripheral by its report descriptor
    (components/bluepad32/bt/uni_bt_le_hid.c; USB HID 1.11 section 6.2.2).

    The classifier reads the bytes once. Its specification splits them into items first, and then asks
    of the item list: does it balance, which usage opens the top-level collection around each data
    Input, and do those agree. */
module HidDescriptor {
  import opened Bytes

  // ----- Items.

  /** A short item: type (0 Main, 1 Global, 2 Local, 3 reserved), tag, data size and little-endian data. */
  datatype Item = Item(kind: nat, tag: nat, size: nat, value: u32) {
    predicate Push() { kind == 1 && tag == 10 }
    predicate Pop() { kind == 1 && tag == 11 }
    predicate UsagePage() { kind == 1 && tag == 0 }
    predicate Main() { kind == 0 }
    predicate Open() { kind == 0 && tag == 10 }
    predicate Close() { kind == 0 && tag == 12 }
    predicate Input() { kind == 0 && tag == 8 }
    predicate Usage() { kind == 2 && (tag == 0 || tag == 1) }
  }

  function SizeOf(prefix: byte): (n: nat)
    ensures n in {0, 1, 2, 4}
  {
    if prefix % 4 == 3 then 4 else prefix % 4
  }

  function Pow256(n: nat): nat {
    if n == 0 then 1 else 256 * Pow256(n - 1)
  }

  function LittleEndian(b: seq<byte>): (v: nat)
    ensures v < Pow256(|b|)
  {
    if b == [] then 0 else b[0] + 256 * LittleEndian(b[1..])
  }

  lemma FourOctets(n: nat)
    requires n <= 4
    ensures Pow256(n) <= 0x1_0000_0000
    ensures n <= 2 ==> Pow256(n) <= 65536
  {
    assert Pow256(1) == 256 && Pow256(2) == 65536 && Pow256(3) == 16777216 && Pow256(4) == 0x1_0000_0000;
  }

  function ItemAt(prefix: byte, data: seq<byte>): Item
    requires |data| <= 4
  {
    FourOctets(|data|);
    Item(prefix / 4 % 4, prefix / 16, |data|, LittleEndian(data))
  }

  /** The items up to the first malformed one, and whether they are all of the descriptor. */
  datatype Scan = Scan(items: seq<Item>, whole: bool)

  function Tokens(d: seq<byte>): Scan
    decreases |d|
  {
    if d == [] then Scan([], true)
    else if d[0] == 0xFE || SizeOf(d[0]) > |d| - 1 then Scan([], false)
    else
      var rest := Tokens(d[1 + SizeOf(d[0])..]);
      Scan([ItemAt(d[0], d[1..1 + SizeOf(d[0])])] + rest.items, rest.whole)
  }

  // ----- Writing items back.

  function Octets(v: nat, n: nat): (b: seq<byte>)
    ensures |b| == n
  {
    if n == 0 then [] else [v % 256] + Octets(v / 256, n - 1)
  }

  lemma {:induction false} OctetsInvert(b: seq<byte>)
    ensures Octets(LittleEndian(b), |b|) == b
  {
    if b != [] {
      OctetsInvert(b[1..]);
      assert LittleEndian(b) % 256 == b[0] && LittleEndian(b) / 256 == LittleEndian(b[1..]);
    }
  }

  function Encoded(i: Item): seq<int> {
    [16 * i.tag + 4 * i.kind + (if i.size == 4 then 3 else i.size)] + Octets(i.value, i.size)
  }

  function AllEncoded(items: seq<Item>): seq<int> {
    if items == [] then [] else Encoded(items[0]) + AllEncoded(items[1..])
  }

  lemma ItemEncodes(prefix: byte, data: seq<byte>)
    requires |data| == SizeOf(prefix)
    ensures Encoded(ItemAt(prefix, data)) == [prefix] + data
  {
    OctetsInvert(data);
    hide LittleEndian, Octets;
  }

  /** A descriptor that tokenises is exactly the concatenation of its items. */
  lemma {:induction false} TokensSplit(d: seq<byte>)
    requires Tokens(d).whole
    ensures AllEncoded(Tokens(d).items) == d
    decreases |d|
  {
    hide Encoded, ItemAt;
    if d != [] {
      var n := SizeOf(d[0]);
      var rest := d[1 + n..];
      TokensSplit(rest);
      ItemEncodes(d[0], d[1..1 + n]);
      assert Tokens(d).items[1..] == Tokens(rest).items;
      assert d == [d[0]] + d[1..1 + n] + rest;
    }
  }

  /** An item that can stand in a descriptor. */
  predicate Writable(x: Item) {
    x.kind < 4 && x.tag < 16 && x.size in {0, 1, 2, 4} && x.value < Pow256(x.size) && !(x.tag == 15 && x.kind == 3 && x.size == 2)
  }

  lemma {:induction false} ValueReadBack(v: nat, n: nat)
    requires v < Pow256(n)
    ensures forall i | 0 <= i < n :: 0 <= Octets(v, n)[i] < 256
    ensures LittleEndian(Octets(v, n)) == v
  {
    if n > 0 {
      ValueReadBack(v / 256, n - 1);
      assert Octets(v, n)[1..] == Octets(v / 256, n - 1);
    }
  }

  lemma {:induction false} TokensInvert(items: seq<Item>)
    requires forall i | 0 <= i < |items| :: Writable(items[i])
    ensures forall i | 0 <= i < |AllEncoded(items)| :: 0 <= AllEncoded(items)[i] < 256
    ensures Tokens(AllEncoded(items)) == Scan(items, true)
  {
    hide Tokens, Octets, LittleEndian, Pow256;
    if items == [] {
      NoTokens();
    } else {
      var x, rest := items[0], AllEncoded(items[1..]);
      TokensInvert(items[1..]);
      ValueReadBack(x.value, x.size);
      OneToken(x, rest);
      assert [x] + items[1..] == items;
    }
  }

  lemma NoTokens()
    ensures Tokens([]) == Scan([], true)
  {
  }

  lemma OneToken(x: Item, rest: seq<byte>)
    requires Writable(x) && forall i | 0 <= i < x.size :: 0 <= Octets(x.value, x.size)[i] < 256
    requires LittleEndian(Octets(x.value, x.size)) == x.value
    ensures var d: seq<byte> := Encoded(x) + rest; Tokens(d) == Scan([x] + Tokens(rest).items, Tokens(rest).whole)
  {
    hide Octets, LittleEndian, Pow256;
    var d: seq<byte> := Encoded(x) + rest;
    assert SizeOf(d[0]) == x.size && d[0] / 4 % 4 == x.kind && d[0] / 16 == x.tag && d[0] != 0xFE;
    assert d[1..1 + x.size] == Octets(x.value, x.size) && d[1 + x.size..] == rest;
  }

  // ----- Structure of an item list.

  /** Collections open before item i. */
  function Depth(items: seq<Item>, i: nat): int
    requires i <= |items|
  {
    if i == 0 then 0
    else Depth(items, i - 1) + (if items[i - 1].Open() then 1 else if items[i - 1].Close() then -1 else 0)
  }

  /** Globals saved before item i. */
  function Saved(items: seq<Item>, i: nat): int
    requires i <= |items|
  {
    if i == 0 then 0
    else Saved(items, i - 1) + (if items[i - 1].Push() then 1 else if items[i - 1].Pop() then -1 else 0)
  }

  /** The last Push before item i that saved at this level. */
  function LastPush(items: seq<Item>, i: nat, level: int): (j: nat)
    requires i <= |items|
    ensures i > 0 ==> j < i
  {
    if i <= 1 then 0
    else if items[i - 1].Push() && Saved(items, i - 1) == level then i - 1
    else LastPush(items, i - 1, level)
  }

  /** The Usage Page in force before item i; a Pop returns to the one in force at the matching Push. */
  function PageAt(items: seq<Item>, i: nat): u32
    requires i <= |items|
    decreases i
  {
    if i == 0 then 0
    else if items[i - 1].UsagePage() then items[i - 1].value
    else if items[i - 1].Pop() then PageAt(items, LastPush(items, i, Saved(items, i - 1) - 1))
    else PageAt(items, i - 1)
  }

  /** A usage is extended by the page in force, unless it is given in full. */
  function FullUsage(items: seq<Item>, i: nat): u32
    requires i < |items|
  {
    if items[i].size == 4 then items[i].value else PageAt(items, i) % 65536 * 65536 + items[i].value % 65536
  }

  /** The first usage since the last Main item before item i. */
  function UsageAt(items: seq<Item>, i: nat): Option<u32>
    requires i <= |items|
  {
    if i == 0 || items[i - 1].Main() then None
    else if UsageAt(items, i - 1).Some? then UsageAt(items, i - 1)
    else if items[i - 1].Usage() then Some(FullUsage(items, i - 1))
    else None
  }

  /** What a top-level collection stands for: a joystick, gamepad or keyboard application on the
      Generic Desktop page, some other Generic Desktop application, or nothing of interest. */
  const OTHER := 0xFFFF

  function KindOf(opener: Item, usage: Option<u32>): nat {
    if opener.value != 1 || usage.None? then 0
    else if usage.value == 0x10004 then 0x0504
    else if usage.value == 0x10005 then 0x0508
    else if usage.value == 0x10006 then 0x0540
    else if usage.value / 65536 == 1 then OTHER
    else 0
  }

  /** The last collection opened at top level before item i. */
  function TopOpen(items: seq<Item>, i: nat): (j: nat)
    requires i <= |items|
    ensures i > 0 ==> j < i
  {
    if i <= 1 then 0
    else if items[i - 1].Open() && Depth(items, i - 1) == 0 then i - 1
    else TopOpen(items, i - 1)
  }

  /** The kind of application that item i belongs to. */
  function KindAt(items: seq<Item>, i: nat): nat
    requires i <= |items|
  {
    if i == 0 || Depth(items, i) <= 0 then 0
    else KindOf(items[TopOpen(items, i)], UsageAt(items, TopOpen(items, i)))
  }

  predicate LegalItem(items: seq<Item>, i: nat)
    requires i < |items|
  {
    var x := items[i];
    && x.kind < 3
    && (x.Push() ==> x.size == 0 && Saved(items, i) < 8)
    && (x.Pop() ==> x.size == 0 && Saved(items, i) > 0)
    && !(x.kind == 2 && x.tag == 10)
    && (x.Open() ==> x.size == 1 && Depth(items, i) < 32)
    && (x.Close() ==> x.size == 0 && Depth(items, i) > 0)
    && (x.Input() ==> x.size > 0 && Depth(items, i) > 0)
  }

  /** Collections and saved globals balance. */
  predicate Legal(items: seq<Item>) {
    (forall i | 0 <= i < |items| :: LegalItem(items, i)) && Depth(items, |items|) == 0 && Saved(items, |items|) == 0
  }

  /** Item i is a data (not constant) Input of some Generic Desktop application. */
  predicate Counts(items: seq<Item>, i: nat)
    requires i < |items|
  {
    items[i].Input() && items[i].value % 2 == 0 && KindAt(items, i) != 0
  }

  /** The descriptor is well formed, has a data Input in a Generic Desktop application, and all of
      those Inputs are of applications of kind k. */
  predicate Identifies(d: seq<byte>, k: nat) {
    var items := Tokens(d).items;
    && Tokens(d).whole && Legal(items) && k != OTHER
    && (exists i | 0 <= i < |items| :: Counts(items, i))
    && (forall i | 0 <= i < |items| && Counts(items, i) :: KindAt(items, i) == k)
  }

  // ----- The single pass.

  /** The registers of the classifier between two items. */
  datatype Registers = Registers(page: u32, stack: seq<u32>, usage: Option<u32>, depth: nat, application: nat, result: nat)

  /** One item; none where the classifier gives up. */
  function Next(m: Registers, x: Item): Option<Registers> {
    match x.kind
    case 0 =>
      var n := m.(usage := None);
      if x.Open() then
        if x.size != 1 || m.depth == 32 then None
        else Some(n.(depth := m.depth + 1, application := if m.depth == 0 then KindOf(x, m.usage) else m.application))
      else if x.Close() then
        if x.size != 0 || m.depth == 0 then None
        else Some(n.(depth := m.depth - 1, application := if m.depth == 1 then 0 else m.application))
      else if x.Input() then
        if x.size == 0 || m.depth == 0 then None
        else if x.value % 2 != 0 || m.application == 0 then Some(n)
        else if m.application == OTHER || (m.result != 0 && m.result != m.application) then None
        else Some(n.(result := m.application))
      else Some(n)
    case 1 =>
      if x.UsagePage() then Some(m.(page := x.value))
      else if x.Push() then if x.size != 0 || |m.stack| == 8 then None else Some(m.(stack := m.stack + [m.page]))
      else if x.Pop() then
        if x.size != 0 || m.stack == [] then None
        else Some(m.(page := m.stack[|m.stack| - 1], stack := m.stack[..|m.stack| - 1]))
      else Some(m)
    case 2 =>
      if x.tag == 10 then None
      else if x.Usage() && m.usage.None? then
        Some(m.(usage := Some(if x.size == 4 then x.value else m.page % 65536 * 65536 + x.value % 65536)))
      else Some(m)
    case _ => None
  }

  /** The registers say what the items before i say. */
  predicate PageTracked(items: seq<Item>, i: nat, m: Registers)
    requires i <= |items|
  {
    && |m.stack| == Saved(items, i) && |m.stack| <= 8 && m.page == PageAt(items, i)
    && forall v | 0 <= v < |m.stack| :: m.stack[v] == PageAt(items, LastPush(items, i, v))
  }

  predicate NestingTracked(items: seq<Item>, i: nat, m: Registers)
    requires i <= |items|
  {
    m.depth == Depth(items, i) && m.depth <= 32 && m.usage == UsageAt(items, i) && m.application == KindAt(items, i)
  }

  predicate ResultTracked(items: seq<Item>, i: nat, m: Registers)
    requires i <= |items|
  {
    && m.result != OTHER
    && (forall j | 0 <= j < i && Counts(items, j) :: KindAt(items, j) == m.result)
    && (m.result != 0 ==> exists j | 0 <= j < i :: Counts(items, j))
  }

  predicate Tracked(items: seq<Item>, i: nat, m: Registers)
    requires i <= |items|
  {
    && PageTracked(items, i, m) && NestingTracked(items, i, m) && ResultTracked(items, i, m)
    && forall j | 0 <= j < i :: LegalItem(items, j)
  }

  lemma PageNext(items: seq<Item>, i: nat, m: Registers)
    requires i < |items| && PageTracked(items, i, m) && Next(m, items[i]).Some?
    ensures PageTracked(items, i + 1, Next(m, items[i]).value)
  {
    hide KindOf;
    var n := Next(m, items[i]).value;
    forall v | 0 <= v < |n.stack| ensures n.stack[v] == PageAt(items, LastPush(items, i + 1, v)) {
      if items[i].Push() && v == |m.stack| {
        assert LastPush(items, i + 1, v) == i;
      } else {
        assert n.stack[v] == m.stack[v];
      }
    }
  }

  lemma KindNext(items: seq<Item>, i: nat)
    requires i < |items|
    ensures KindAt(items, i + 1)
         == if items[i].Open() && Depth(items, i) == 0 then KindOf(items[i], UsageAt(items, i))
            else if Depth(items, i + 1) <= 0 then 0
            else KindAt(items, i)
    ensures Depth(items, i) <= 0 ==> KindAt(items, i) == 0
  {
    hide KindOf, UsageAt;
  }

  lemma UsageNext(items: seq<Item>, i: nat, m: Registers)
    requires i < |items| && m.usage == UsageAt(items, i) && m.page == PageAt(items, i) && Next(m, items[i]).Some?
    ensures Next(m, items[i]).value.usage == UsageAt(items, i + 1)
  {
    hide KindOf, PageAt;
  }

  lemma NestingNext(items: seq<Item>, i: nat, m: Registers)
    requires i < |items| && NestingTracked(items, i, m) && m.page == PageAt(items, i) && Next(m, items[i]).Some?
    ensures NestingTracked(items, i + 1, Next(m, items[i]).value)
  {
    hide KindOf, KindAt, UsageAt, TopOpen, PageAt;
    KindNext(items, i);
    UsageNext(items, i, m);
  }

  lemma ResultNext(items: seq<Item>, i: nat, m: Registers)
    requires i < |items| && NestingTracked(items, i, m) && ResultTracked(items, i, m) && Next(m, items[i]).Some?
    ensures ResultTracked(items, i + 1, Next(m, items[i]).value)
  {
    hide KindOf, KindAt, UsageAt, Depth;
    if Counts(items, i) {
      assert Next(m, items[i]).value.result == m.application;
    }
  }

  lemma LegalNext(items: seq<Item>, i: nat, m: Registers)
    requires i < |items| && Tracked(items, i, m)
    ensures Next(m, items[i]).Some? ==> LegalItem(items, i)
    ensures Next(m, items[i]).None? ==> !LegalItem(items, i) || Disagrees(items, i)
  {
    hide KindOf, KindAt, UsageAt, Depth, Saved, PageAt, LastPush;
    if Next(m, items[i]).None? && LegalItem(items, i) {
      assert Counts(items, i);
    }
  }

  /** Some Input before or at item i is of no supported kind, or of another kind than an earlier one. */
  predicate Disagrees(items: seq<Item>, i: nat)
    requires i < |items|
  {
    Counts(items, i) && (KindAt(items, i) == OTHER || exists j | 0 <= j < i :: Counts(items, j) && KindAt(items, j) != KindAt(items, i))
  }

  lemma TrackedNext(items: seq<Item>, i: nat, m: Registers)
    requires i < |items| && Tracked(items, i, m)
    ensures Next(m, items[i]).Some? ==> Tracked(items, i + 1, Next(m, items[i]).value)
    ensures Next(m, items[i]).None? ==> !LegalItem(items, i) || Disagrees(items, i)
  {
    LegalNext(items, i, m);
    if Next(m, items[i]).Some? {
      PageNext(items, i, m);
      NestingNext(items, i, m);
      ResultNext(items, i, m);
    }
    hide Next, PageTracked, NestingTracked, ResultTracked, LegalItem;
  }

  lemma HeadOf(rest: seq<byte>, ys: seq<Item>, whole: bool)
    requires rest != [] && Tokens(rest) == Scan(ys, whole)
    ensures rest[0] == 0xFE || SizeOf(rest[0]) > |rest| - 1 ==> !whole
    ensures !(rest[0] == 0xFE || SizeOf(rest[0]) > |rest| - 1) ==>
      var n := SizeOf(rest[0]);
      && ys != [] && ys[0] == ItemAt(rest[0], rest[1..1 + n])
      && Tokens(rest[1 + n..]) == Scan(ys[1..], whole)
  {
    hide ItemAt, SizeOf;
  }

  lemma SameRest<T>(s: seq<T>, rest: seq<T>, pos: nat, n: nat)
    requires pos + 1 + n <= |s| && rest == s[pos..]
    ensures rest[0] == s[pos] && rest[1..1 + n] == s[pos + 1..pos + 1 + n] && rest[1 + n..] == s[pos + 1 + n..]
  {
  }

  /** Giving up is right. */
  lemma Rejected(d: seq<byte>, i: nat)
    requires !Tokens(d).whole || (i < |Tokens(d).items| && (!LegalItem(Tokens(d).items, i) || Disagrees(Tokens(d).items, i)))
    ensures forall k: nat | k != 0 :: !Identifies(d, k)
  {
    hide LegalItem, Counts, KindAt, Tokens;
  }

  lemma Accepted(d: seq<byte>, m: Registers)
    requires Tokens(d).whole && Tracked(Tokens(d).items, |Tokens(d).items|, m)
    ensures forall k: nat | k != 0 :: (m.depth == 0 && m.stack == [] && m.result == k) <==> Identifies(d, k)
  {
    hide LegalItem, Counts, KindAt, Tokens, UsageAt, PageAt;
  }

  // ----- What the answer means.

  /** Item i is a data Input inside a top-level Application collection that was opened under usage u of the
      Generic Desktop page. */
  predicate DesktopInput(items: seq<Item>, i: nat, u: nat)
    requires i < |items|
  {
    && items[i].Input() && items[i].value % 2 == 0 && Depth(items, i) > 0 && u < 65536
    && var opener := TopOpen(items, i);
       items[opener].value == 1 && UsageAt(items, opener) == Some(0x1_0000 + u)
  }

  /** Joystick, gamepad and keyboard have the usages 4, 5 and 6 (HID Usage Tables, section 4). */
  function DeviceClass(u: nat): nat
    requires 4 <= u <= 6
  {
    if u == 4 then 0x0504 else if u == 5 then 0x0508 else 0x0540
  }

  lemma KindMeans(items: seq<Item>, i: nat)
    requires i < |items| && items[i].Input() && items[i].value % 2 == 0
    ensures Counts(items, i) <==> exists u :: DesktopInput(items, i, u)
    ensures forall u | DesktopInput(items, i, u) :: KindAt(items, i) == if 4 <= u <= 6 then DeviceClass(u) else OTHER
    ensures forall u, v | DesktopInput(items, i, u) && DesktopInput(items, i, v) :: u == v
  {
    if Counts(items, i) {
      var opener := TopOpen(items, i);
      assert DesktopInput(items, i, UsageAt(items, opener).value - 0x1_0000);
    }
    hide Depth, UsageAt;
  }

  /** The classifier names a device exactly if the items are whole and balanced, some data Input belongs to a
      Generic Desktop application, and all that do belong to applications of one usage, which is joystick,
      gamepad or keyboard. */
  lemma AnswerExactlyWhen(d: seq<byte>, k: nat)
    requires k != 0
    ensures var items := Tokens(d).items;
      Identifies(d, k) <==>
        && Tokens(d).whole && Legal(items)
        && exists u :: 4 <= u <= 6 && k == DeviceClass(u) && (exists i | 0 <= i < |items| :: DesktopInput(items, i, u))
             && forall i, v | 0 <= i < |items| && DesktopInput(items, i, v) :: v == u
  {
    var items := Tokens(d).items;
    forall i | 0 <= i < |items| && items[i].Input() && items[i].value % 2 == 0
      ensures Counts(items, i) <==> exists u :: DesktopInput(items, i, u)
      ensures forall u | DesktopInput(items, i, u) :: KindAt(items, i) == if 4 <= u <= 6 then DeviceClass(u) else OTHER
      ensures forall u, v | DesktopInput(items, i, u) && DesktopInput(items, i, v) :: u == v
    {
      KindMeans(items, i);
    }
    hide Legal, Tokens, KindAt;
    if Identifies(d, k) {
      var i :| 0 <= i < |items| && Counts(items, i);
      var u :| DesktopInput(items, i, u);
      assert k == DeviceClass(u);
      forall j, v | 0 <= j < |items| && DesktopInput(items, j, v) ensures v == u {
        assert Counts(items, j);
      }
    }
  }

  /** The shortest descriptors of a Generic Desktop application: Usage Page, Usage, Collection (Application),
      Input, End Collection. */
  function Plain(usage: byte, flags: byte): seq<byte> {
    [0x05, 0x01, 0x09, usage, 0xA1, 0x01, 0x81, flags, 0xC0]
  }

  /** They are joystick, gamepad and keyboard for 4, 5 and 6 as long as the Input is data, and nothing else. */
  lemma PlainDescriptors(usage: byte, flags: byte, k: nat)
    requires k != 0
    ensures Identifies(Plain(usage, flags), k) <==> flags % 2 == 0 && 4 <= usage <= 6 && k == DeviceClass(usage)
  {
    hide Tracked, Identifies, Tokens, Disagrees, LegalItem;
    var d := Plain(usage, flags);
    var items := [Item(1, 0, 1, 1), Item(2, 0, 1, usage), Item(0, 10, 1, 1), Item(0, 8, 1, flags), Item(0, 12, 0, 0)];
    PlainTokens(usage, flags);
    var m0 := Registers(0, [], None, 0, 0, 0);
    FirstItem(d);
    TrackedNext(items, 0, m0);
    var m1 := m0.(page := 1);
    TrackedNext(items, 1, m1);
    var m2 := m1.(usage := Some(0x1_0000 + usage));
    TrackedNext(items, 2, m2);
    var m3 := m1.(depth := 1, application := if 4 <= usage <= 6 then DeviceClass(usage) else OTHER);
    TrackedNext(items, 3, m3);
    if flags % 2 == 0 && !(4 <= usage <= 6) {
      Rejected(d, 3);
    } else {
      var m4 := m3.(result := if flags % 2 == 0 then m3.application else 0);
      TrackedNext(items, 4, m4);
      Accepted(d, m4.(depth := 0, application := 0));
    }
  }

  lemma PlainTokens(usage: byte, flags: byte)
    ensures Tokens(Plain(usage, flags))
         == Scan([Item(1, 0, 1, 1), Item(2, 0, 1, usage), Item(0, 10, 1, 1), Item(0, 8, 1, flags), Item(0, 12, 0, 0)], true)
  {
    hide Tokens, Octets, AllEncoded, Encoded;
    var items := [Item(1, 0, 1, 1), Item(2, 0, 1, usage), Item(0, 10, 1, 1), Item(0, 8, 1, flags), Item(0, 12, 0, 0)];
    TokensInvert(items);
    OneOctetItem(1, 0, 1);
    OneOctetItem(2, 0, usage);
    OneOctetItem(0, 10, 1);
    OneOctetItem(0, 8, flags);
    BareItem(0, 12);
    EncodedMore(items[4], []);
    EncodedMore(items[3], [items[4]]);
    EncodedMore(items[2], [items[3], items[4]]);
    EncodedMore(items[1], [items[2], items[3], items[4]]);
    EncodedMore(items[0], [items[1], items[2], items[3], items[4]]);
    assert [items[4]] + [] == [items[4]] && [items[3]] + [items[4]] == [items[3], items[4]];
    assert [items[2]] + [items[3], items[4]] == [items[2], items[3], items[4]];
    assert [items[1]] + [items[2], items[3], items[4]] == [items[1], items[2], items[3], items[4]];
    assert [items[0]] + [items[1], items[2], items[3], items[4]] == items;
    assert AllEncoded([items[4]]) == [0xC0];
    assert AllEncoded([items[3], items[4]]) == [0x81, flags, 0xC0];
    assert AllEncoded([items[2], items[3], items[4]]) == [0xA1, 0x01, 0x81, flags, 0xC0];
    assert AllEncoded([items[1], items[2], items[3], items[4]]) == [0x09, usage, 0xA1, 0x01, 0x81, flags, 0xC0];
    assert AllEncoded(items) == Plain(usage, flags);
  }

  lemma EncodedMore(x: Item, rest: seq<Item>)
    ensures AllEncoded([x] + rest) == Encoded(x) + AllEncoded(rest) && AllEncoded([]) == []
  {
    assert ([x] + rest)[1..] == rest;
    hide Encoded;
  }

  lemma OneOctetItem(kind: nat, tag: nat, v: byte)
    ensures Encoded(Item(kind, tag, 1, v)) == [16 * tag + 4 * kind + 1, v]
  {
    FewOctets(v);
    hide Octets;
  }

  lemma BareItem(kind: nat, tag: nat)
    ensures Encoded(Item(kind, tag, 0, 0)) == [16 * tag + 4 * kind]
  {
    FewOctets(0);
    hide Octets;
  }

  lemma FewOctets(v: byte)
    ensures Octets(v, 0) == [] && Octets(v, 1) == [v]
  {
    assert Octets(v / 256, 0) == [];
    assert v % 256 == v;
  }

  /** The Global items of the loop. */
  method GlobalItem(tag: nat, size: nat, value: u32, page: u32, pages: array<u32>, saved: nat, ghost m: Registers)
    returns (ok: bool, page': u32, saved': nat)
    requires pages.Length == 8 && saved <= 8 && m.page == page && m.stack == pages[..saved]
    modifies pages
    ensures saved' <= 8
    ensures Next(m, Item(1, tag, size, value)) == if ok then Some(m.(page := page', stack := pages[..saved'])) else None
  {
    ok, page', saved' := true, page, saved;
    if tag == 0 {
      page' := value;
    } else if tag == 10 {
      if size != 0 || saved == 8 {
        ok := false;
        return;
      }
      pages[saved] := page;
      saved' := saved + 1;
      assert pages[..saved'] == m.stack + [page];
    } else if tag == 11 {
      if size != 0 || saved == 0 {
        ok := false;
        return;
      }
      saved' := saved - 1;
      page' := pages[saved'];
      assert pages[..saved'] == m.stack[..|m.stack| - 1];
    }
  }

  /** The Local items of the loop; the first usage before a collection is retained. */
  method LocalItem(tag: nat, size: nat, value: u32, page: u32, haveUsage: bool, usage: u32, ghost m: Registers)
    returns (ok: bool, haveUsage': bool, usage': u32)
    requires m.usage == (if haveUsage then Some(usage) else None) && m.page == page && (size != 4 ==> value < 65536)
    ensures Next(m, Item(2, tag, size, value))
         == if ok then Some(m.(usage := if haveUsage' then Some(usage') else None)) else None
  {
    ok, haveUsage', usage' := true, haveUsage, usage;
    if (tag == 0 || tag == 1) && !haveUsage {
      usage' := if size == 4 then value else page % 65536 * 65536 + value;
      haveUsage' := true;
    }
    if tag == 10 {
      ok := false;
    }
  }

  /** The Main items of the loop. */
  method MainItem(tag: nat, size: nat, value: u32, haveUsage: bool, usage: u32,
                  depth: nat, application: nat, result: nat, ghost m: Registers)
    returns (ok: bool, depth': nat, application': nat, result': nat)
    requires m.usage == (if haveUsage then Some(usage) else None)
    requires m.depth == depth && m.application == application && m.result == result
    ensures Next(m, Item(0, tag, size, value))
         == if ok then Some(m.(usage := None, depth := depth', application := application', result := result')) else None
  {
    ok, depth', application', result' := true, depth, application, result;
    if tag == 10 {
      if size != 1 || depth == 32 {
        ok := false;
        return;
      }
      if depth == 0 {
        application' := 0;
        if value == 1 && haveUsage {
          if usage == 0x10004 {
            application' := 0x0504;
          } else if usage == 0x10005 {
            application' := 0x0508;
          } else if usage == 0x10006 {
            application' := 0x0540;
          } else if usage / 65536 == 1 {
            application' := OTHER;
          }
        }
      }
      depth' := depth + 1;
    } else if tag == 12 {
      if size != 0 || depth == 0 {
        ok := false;
        return;
      }
      depth' := depth - 1;
      if depth' == 0 {
        application' := 0;
      }
    } else if tag == 8 {
      if depth == 0 || size == 0 {
        ok := false;
        return;
      }
      if value % 2 == 0 && application != 0 {
        if application == OTHER || (result != 0 && result != application) {
          ok := false;
          return;
        }
        result' := application;
      }
    }
  }

  /** The items from i on are those of the bytes from pos on. */
  predicate Ahead(d: seq<byte>, pos: nat, i: nat) {
    var all := Tokens(d);
    pos <= |d| && i <= |all.items| && Tokens(d[pos..]) == Scan(all.items[i..], all.whole)
  }

  /** The prefix and data of one item; false at the first malformed one. */
  method TakeItem(d: seq<byte>, pos: nat, ghost i: nat) returns (ok: bool, x: Item, pos': nat)
    requires Ahead(d, pos, i) && pos < |d|
    ensures !ok ==> !Tokens(d).whole
    ensures ok ==> pos < pos' <= |d| && i < |Tokens(d).items| && x == Tokens(d).items[i] && Ahead(d, pos', i + 1)
    ensures x.size != 4 ==> x.value < 65536
  {
    hide Tokens, LittleEndian, SizeOf, Pow256;
    ghost var all := Tokens(d).items;
    HeadOf(d[pos..], all[i..], Tokens(d).whole);
    SameRest(d, d[pos..], pos, 0);
    var prefix := d[pos];
    var size := SizeOf(prefix);
    x, pos' := Item(0, 0, 0, 0), pos + 1;
    if prefix == 0xFE || size > |d| - pos' {
      return false, x, pos';
    }
    SameRest(d, d[pos..], pos, size);
    SameRest(all, all[i..], i, 0);
    var value := ReadValue(d[pos'..pos' + size]);
    ok, x, pos' := true, Item(prefix / 4 % 4, prefix / 16, size, value), pos' + size;
  }

  /** uni_bt_le_hid_cod: for every byte string the one-pass answer is the kind that the item list
      identifies, or zero. */
  method Classify(d: seq<byte>) returns (r: nat)
    ensures forall k: nat | k != 0 :: r == k <==> Identifies(d, k)
  {
    hide *;
    var page: u32, usage: u32, saved: nat, depth: nat := 0, 0, 0, 0;
    var pages := new u32[8];
    var application: nat, result: nat := 0, 0;
    var haveUsage := false;
    var pos := 0;
    ghost var i := 0;
    ghost var m := Registers(0, [], None, 0, 0, 0);
    FirstItem(d);
    while pos < |d|
      invariant saved <= 8 && Ahead(d, pos, i) && i <= |Tokens(d).items|
      invariant m == Registers(page, pages[..saved], if haveUsage then Some(usage) else None, depth, application, result)
      invariant Tracked(Tokens(d).items, i, m)
      decreases |d| - pos
    {
      var ok, x, next := TakeItem(d, pos, i);
      if !ok {
        Rejected(d, 0);
        return 0;
      }
      pos := next;
      TrackedNext(Tokens(d).items, i, m);
      if x.kind == 1 {
        ok, page, saved := GlobalItem(x.tag, x.size, x.value, page, pages, saved, m);
      } else if x.kind == 2 {
        ok, haveUsage, usage := LocalItem(x.tag, x.size, x.value, page, haveUsage, usage, m);
      } else if x.kind == 0 {
        ok, depth, application, result := MainItem(x.tag, x.size, x.value, haveUsage, usage, depth, application, result, m);
        haveUsage := false;
      } else {
        ok := false;
        ReservedItem(m, x);
      }
      if !ok {
        Rejected(d, i);
        return 0;
      }
      m := Registers(page, pages[..saved], if haveUsage then Some(usage) else None, depth, application, result);
      i := i + 1;
    }
    NothingLeft(d, pos, i);
    Accepted(d, m);
    r := if depth != 0 || saved != 0 then 0 else result;
  }

  lemma FirstItem(d: seq<byte>)
    ensures Ahead(d, 0, 0) && Tracked(Tokens(d).items, 0, Registers(0, [], None, 0, 0, 0))
  {
    assert d[0..] == d;
  }

  lemma ReservedItem(m: Registers, x: Item)
    requires x.kind > 2
    ensures Next(m, x) == None
  {
  }

  lemma NothingLeft(d: seq<byte>, pos: nat, i: nat)
    requires Ahead(d, pos, i) && pos >= |d|
    ensures i == |Tokens(d).items| && Tokens(d).whole
  {
    assert d[pos..] == [];
  }

  /** The data octets of an item, least significant first. */
  method ReadValue(b: seq<byte>) returns (value: u32)
    requires |b| <= 4
    ensures value == LittleEndian(b)
    ensures |b| <= 2 ==> value < 65536
  {
    value := 0;
    for i := 0 to |b|
      invariant value == LittleEndian(b[..i]) < Pow256(i)
    {
      FourOctets(i + 1);
      AppendOctet(b[..i], b[i]);
      assert b[..i + 1] == b[..i] + [b[i]];
      value := value + Pow256(i) * b[i];
    }
    assert b[..|b|] == b;
    FourOctets(|b|);
  }

  lemma {:induction false} AppendOctet(b: seq<byte>, x: byte)
    ensures LittleEndian(b + [x]) == LittleEndian(b) + Pow256(|b|) * x
  {
    if b != [] {
      AppendOctet(b[1..], x);
      assert (b + [x])[1..] == b[1..] + [x];
      var p := Pow256(|b| - 1);
      assert LittleEndian(b + [x]) == b[0] + 256 * (LittleEndian(b[1..]) + p * x);
      assert 256 * (p * x) == (256 * p) * x;
    }
  }
}
