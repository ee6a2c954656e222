/** How deep the descriptors of HID peripherals may nest before the classifier gives up
    (components/bluepad32/bt/uni_bt_le_hid.c), shown on a family of them. */
module HidNesting {
  import opened Bytes
  import opened HidDescriptor

  // ----- The pass as a fold.

  function Fold(m: Registers, items: seq<Item>): Option<Registers>
    decreases |items|
  {
    if items == [] then Some(m)
    else match Next(m, items[0]) case None => None case Some(n) => Fold(n, items[1..])
  }

  lemma {:induction false} FoldConcat(m: Registers, xs: seq<Item>, ys: seq<Item>)
    ensures Fold(m, xs + ys) == (match Fold(m, xs) case None => None case Some(n) => Fold(n, ys))
    decreases |xs|
  {
    hide Next;
    if xs == [] {
      assert xs + ys == ys;
    } else {
      assert (xs + ys)[1..] == xs[1..] + ys;
      match Next(m, xs[0])
      case None =>
      case Some(n) => FoldConcat(n, xs[1..], ys);
    }
  }

  /** What the fold ends with is the answer. */
  lemma {:induction false} FoldAnswers(d: seq<byte>, i: nat, m: Registers)
    requires Tokens(d).whole && i <= |Tokens(d).items| && Tracked(Tokens(d).items, i, m)
    ensures forall k: nat | k != 0 ::
      Identifies(d, k) <==> var r := Fold(m, Tokens(d).items[i..]); r.Some? && r.value.depth == 0 && r.value.stack == [] && r.value.result == k
    decreases |Tokens(d).items| - i
  {
    hide Tokens, Tracked, Identifies, Next, LegalItem, Disagrees;
    var items := Tokens(d).items;
    if i == |items| {
      Accepted(d, m);
    } else {
      TrackedNext(items, i, m);
      assert items[i..][0] == items[i] && items[i..][1..] == items[i + 1..];
      match Next(m, items[i])
      case None => Rejected(d, i);
      case Some(n) => FoldAnswers(d, i + 1, n);
    }
  }

  const START := Registers(0, [], None, 0, 0, 0)

  // ----- The family.

  function Many<T>(x: T, n: nat): (s: seq<T>)
    ensures |s| == n
  {
    seq(n, _ => x)
  }

  const DESKTOP_PAGE := Item(1, 0, 1, 1)
  const KEYBOARD_PAGE := Item(1, 0, 1, 7)
  const PUSH := Item(1, 10, 0, 0)
  const POP := Item(1, 11, 0, 0)
  const OPEN := Item(0, 10, 1, 1)
  const DATA := Item(0, 8, 1, 2)
  const CLOSE := Item(0, 12, 0, 0)

  /** The Generic Desktop page, saved so many times; another page; so many returns; a usage, and an Input so many
      collections deep. */
  function NestedItems(usage: byte, pushes: nat, pops: nat, depth: nat): seq<Item> {
    [DESKTOP_PAGE] + Many(PUSH, pushes) + [KEYBOARD_PAGE] + Many(POP, pops) + [Item(2, 0, 1, usage)]
    + Many(OPEN, depth) + [DATA] + Many(CLOSE, depth)
  }

  function Nested(usage: byte, pushes: nat, pops: nat, depth: nat): seq<byte> {
    [0x05, 0x01] + Ones(0xA4, pushes) + [0x05, 0x07] + Ones(0xB4, pops) + [0x09, usage]
    + Pairs(0xA1, 0x01, depth) + [0x81, 0x02] + Ones(0xC0, depth)
  }

  function Ones(x: byte, n: nat): seq<byte> {
    if n == 0 then [] else [x] + Ones(x, n - 1)
  }

  function Pairs(x: byte, y: byte, n: nat): seq<byte> {
    if n == 0 then [] else [x, y] + Pairs(x, y, n - 1)
  }

  lemma {:induction false} EncodedConcat(xs: seq<Item>, ys: seq<Item>)
    ensures AllEncoded(xs + ys) == AllEncoded(xs) + AllEncoded(ys)
    decreases |xs|
  {
    hide Encoded;
    if xs == [] {
      assert xs + ys == ys;
    } else {
      assert (xs + ys)[1..] == xs[1..] + ys;
      EncodedConcat(xs[1..], ys);
    }
  }

  lemma {:induction false} EncodedMany(x: Item, n: nat)
    ensures forall a: byte | Encoded(x) == [a] :: AllEncoded(Many(x, n)) == Ones(a, n)
    ensures forall a: byte, b: byte | Encoded(x) == [a, b] :: AllEncoded(Many(x, n)) == Pairs(a, b, n)
    decreases n
  {
    hide Encoded;
    if n > 0 {
      assert Many(x, n)[1..] == Many(x, n - 1);
      EncodedMany(x, n - 1);
    }
  }

  lemma EncodedOne(x: Item)
    ensures AllEncoded([x]) == Encoded(x)
  {
    EncodedMore(x, []);
    assert [x] + [] == [x];
    hide Encoded;
  }

  lemma EncodedItems(usage: byte)
    ensures Encoded(DESKTOP_PAGE) == [0x05, 0x01] && Encoded(KEYBOARD_PAGE) == [0x05, 0x07] && Encoded(Item(2, 0, 1, usage)) == [0x09, usage]
    ensures Encoded(PUSH) == [0xA4] && Encoded(POP) == [0xB4] && Encoded(OPEN) == [0xA1, 0x01] && Encoded(DATA) == [0x81, 0x02]
    ensures Encoded(CLOSE) == [0xC0]
  {
    OneOctetItem(1, 0, 1);
    OneOctetItem(1, 0, 7);
    OneOctetItem(2, 0, usage);
    OneOctetItem(0, 10, 1);
    OneOctetItem(0, 8, 2);
    BareItem(1, 10);
    BareItem(1, 11);
    BareItem(0, 12);
    hide Octets;
  }

  lemma NestedTokens(usage: byte, pushes: nat, pops: nat, depth: nat)
    ensures Tokens(Nested(usage, pushes, pops, depth)) == Scan(NestedItems(usage, pushes, pops, depth), true)
  {
    hide Tokens, Encoded, AllEncoded, Many, Pairs, Ones;
    EncodedItems(usage);
    EncodedMany(PUSH, pushes);
    EncodedMany(POP, pops);
    EncodedMany(OPEN, depth);
    EncodedMany(CLOSE, depth);
    EncodedOne(DESKTOP_PAGE);
    EncodedOne(KEYBOARD_PAGE);
    EncodedOne(Item(2, 0, 1, usage));
    EncodedOne(DATA);
    var a := [DESKTOP_PAGE] + Many(PUSH, pushes);
    var b := a + [KEYBOARD_PAGE];
    var c := b + Many(POP, pops);
    var e := c + [Item(2, 0, 1, usage)];
    var f := e + Many(OPEN, depth);
    var g := f + [DATA];
    EncodedConcat([DESKTOP_PAGE], Many(PUSH, pushes));
    EncodedConcat(a, [KEYBOARD_PAGE]);
    EncodedConcat(b, Many(POP, pops));
    EncodedConcat(c, [Item(2, 0, 1, usage)]);
    EncodedConcat(e, Many(OPEN, depth));
    EncodedConcat(f, [DATA]);
    EncodedConcat(g, Many(CLOSE, depth));
    WritableItems(usage, pushes, pops, depth);
    TokensInvert(NestedItems(usage, pushes, pops, depth));
    assert AllEncoded(NestedItems(usage, pushes, pops, depth)) == Nested(usage, pushes, pops, depth);
  }

  lemma WritableItems(usage: byte, pushes: nat, pops: nat, depth: nat)
    ensures forall i | 0 <= i < |NestedItems(usage, pushes, pops, depth)| :: Writable(NestedItems(usage, pushes, pops, depth)[i])
  {
    assert Pow256(0) == 1 && Pow256(1) == 256;
    forall x | x in NestedItems(usage, pushes, pops, depth) ensures Writable(x) {
    }
  }

  // ----- The fold over the family.

  lemma {:induction false} FoldPushes(m: Registers, n: nat)
    requires |m.stack| <= 8
    ensures Fold(m, Many(PUSH, n)) ==
            if n == 0 || |m.stack| + n <= 8 then Some(m.(stack := m.stack + Many(m.page, n))) else None
    decreases n
  {
    if n == 0 {
      assert m.stack + Many(m.page, 0) == m.stack;
    } else {
      assert Many(PUSH, n)[0] == PUSH && Many(PUSH, n)[1..] == Many(PUSH, n - 1);
      if |m.stack| != 8 {
        FoldPushes(m.(stack := m.stack + [m.page]), n - 1);
        assert m.stack + [m.page] + Many(m.page, n - 1) == m.stack + Many(m.page, n);
      }
    }
  }

  lemma {:induction false} FoldPops(m: Registers, n: nat)
    requires |m.stack| <= 8
    ensures Fold(m, Many(POP, n)) ==
            if n == 0 then Some(m)
            else if n <= |m.stack| then Some(m.(page := m.stack[|m.stack| - n], stack := m.stack[..|m.stack| - n]))
            else None
    decreases n
  {
    if n > 0 {
      assert Many(POP, n)[0] == POP && Many(POP, n)[1..] == Many(POP, n - 1);
      if m.stack != [] {
        var rest := m.stack[..|m.stack| - 1];
        FoldPops(m.(page := m.stack[|m.stack| - 1], stack := rest), n - 1);
        assert n <= |m.stack| ==> rest[..|rest| - (n - 1)] == m.stack[..|m.stack| - n];
      }
    }
  }

  lemma {:induction false} FoldOpens(m: Registers, n: nat)
    requires m.depth <= 32
    ensures Fold(m, Many(OPEN, n)) ==
            if n == 0 then Some(m)
            else if m.depth + n <= 32
            then Some(m.(usage := None, depth := m.depth + n, application := if m.depth == 0 then KindOf(OPEN, m.usage) else m.application))
            else None
    decreases n
  {
    hide KindOf;
    if n > 0 {
      assert Many(OPEN, n)[0] == OPEN && Many(OPEN, n)[1..] == Many(OPEN, n - 1);
      if m.depth != 32 {
        FoldOpens(Next(m, OPEN).value, n - 1);
      }
    }
  }

  lemma {:induction false} FoldCloses(m: Registers, n: nat)
    requires n <= m.depth
    ensures Fold(m, Many(CLOSE, n)) ==
            if n == 0 then Some(m)
            else Some(m.(usage := None, depth := m.depth - n, application := if m.depth == n then 0 else m.application))
    decreases n
  {
    if n > 0 {
      assert Many(CLOSE, n)[0] == CLOSE && Many(CLOSE, n)[1..] == Many(CLOSE, n - 1);
      FoldCloses(Next(m, CLOSE).value, n - 1);
    }
  }

  lemma FoldOne(m: Registers, x: Item)
    ensures Fold(m, [x]) == Next(m, x)
  {
    hide Next;
    if Next(m, x).Some? {
      assert [x][1..] == [];
    }
  }

  /** The registers after the pages of the family: one of Generic Desktop only if one was saved and all were
      taken back. */
  lemma FoldPages(pushes: nat, pops: nat)
    ensures Fold(START, [DESKTOP_PAGE] + Many(PUSH, pushes) + [KEYBOARD_PAGE] + Many(POP, pops)) ==
            if pushes > 8 || pops > pushes then None
            else Some(START.(page := if pops == 0 then 7 else 1, stack := Many<u32>(1, pushes - pops)))
  {
    hide Fold, Next;
    var a, b, c, e := [DESKTOP_PAGE], Many(PUSH, pushes), [KEYBOARD_PAGE], Many(POP, pops);
    FoldConcat(START, a + b + c, e);
    FoldConcat(START, a + b, c);
    FoldConcat(START, a, b);
    FoldOne(START, DESKTOP_PAGE);
    PageItems();
    var m := START.(page := 1);
    assert Fold(START, a) == Some(m);
    FoldPushes(m, pushes);
    if pushes <= 8 {
      assert m.stack + Many<u32>(1, pushes) == Many<u32>(1, pushes);
      var n := m.(stack := Many<u32>(1, pushes));
      assert Fold(START, a + b) == Some(n);
      FoldOne(n, KEYBOARD_PAGE);
      PageTurns(n);
      assert Fold(START, a + b + c) == Some(n.(page := 7));
      FoldPops(n.(page := 7), pops);
      assert pops <= pushes ==> Many<u32>(1, pushes)[..pushes - pops] == Many<u32>(1, pushes - pops);
    }
  }

  lemma PageItems()
    ensures Next(START, DESKTOP_PAGE) == Some(START.(page := 1))
  {
  }

  lemma PageTurns(m: Registers)
    ensures Next(m, KEYBOARD_PAGE) == Some(m.(page := 7))
  {
  }

  /** The registers after the rest: the Input counts where some collection is open, and stands for what the page
      and the usage say. */
  lemma FoldApplication(m: Registers, usage: byte, depth: nat)
    requires m.depth == 0 && m.usage == None && m.application == 0 && m.result == 0
    ensures var r := Fold(m, [Item(2, 0, 1, usage)] + Many(OPEN, depth) + [DATA] + Many(CLOSE, depth));
      var kind := KindOf(OPEN, Some(m.page % 65536 * 65536 + usage));
      r == if depth == 0 || depth > 32 || kind == OTHER then None else Some(m.(result := kind))
  {
    hide Fold, Next, KindOf;
    var a, b, c, e := [Item(2, 0, 1, usage)], Many(OPEN, depth), [DATA], Many(CLOSE, depth);
    FoldConcat(m, a + b + c, e);
    FoldConcat(m, a + b, c);
    FoldConcat(m, a, b);
    var u := Some(m.page % 65536 * 65536 + usage);
    FoldOne(m, Item(2, 0, 1, usage));
    UsageTurns(m, usage);
    var n := m.(usage := u);
    assert Fold(m, a) == Some(n);
    FoldOpens(n, depth);
    if depth == 0 {
      FoldOne(n, DATA);
      InputTurns(n);
    } else if depth <= 32 {
      var o := n.(usage := None, depth := depth, application := KindOf(OPEN, u));
      assert Fold(m, a + b) == Some(o);
      FoldOne(o, DATA);
      InputTurns(o);
      if o.application != OTHER {
        FoldCloses(o.(result := o.application), depth);
      }
    }
  }

  lemma UsageTurns(m: Registers, usage: byte)
    requires m.usage == None
    ensures Next(m, Item(2, 0, 1, usage)) == Some(m.(usage := Some(m.page % 65536 * 65536 + usage)))
  {
  }

  lemma InputTurns(m: Registers)
    requires m.result == 0
    ensures Next(m, DATA) == if m.depth == 0 || m.application == OTHER then None else Some(m.(usage := None, result := m.application))
  {
  }

  /** A descriptor of this family is named exactly when its usage is joystick, gamepad or keyboard, its page was
      saved one to eight times and taken back as often, and its Input stands in one to 32 collections. */
  lemma NestedIsNamedExactlyWhen(usage: byte, pushes: nat, pops: nat, depth: nat, k: nat)
    requires k != 0
    ensures Identifies(Nested(usage, pushes, pops, depth), k) <==>
      4 <= usage <= 6 && k == [0x0504, 0x0508, 0x0540][usage - 4] && 1 <= pushes == pops <= 8 && 1 <= depth <= 32
  {
    hide Fold, Next, Tokens, Identifies, Tracked, Many;
    var d, items := Nested(usage, pushes, pops, depth), NestedItems(usage, pushes, pops, depth);
    NestedTokens(usage, pushes, pops, depth);
    FirstItem(d);
    FoldAnswers(d, 0, START);
    assert items[0..] == items;
    var pages := [DESKTOP_PAGE] + Many(PUSH, pushes) + [KEYBOARD_PAGE] + Many(POP, pops);
    var rest := [Item(2, 0, 1, usage)] + Many(OPEN, depth) + [DATA] + Many(CLOSE, depth);
    assert items == pages + rest;
    FoldConcat(START, pages, rest);
    FoldPages(pushes, pops);
    if pops <= pushes <= 8 {
      var page: u32 := if pops == 0 then 7 else 1;
      FoldApplication(START.(page := page, stack := Many<u32>(1, pushes - pops)), usage, depth);
      KindsOfFamily(page, usage);
    }
  }

  lemma KindsOfFamily(page: u32, usage: byte)
    requires page == 1 || page == 7
    ensures KindOf(OPEN, Some(page % 65536 * 65536 + usage)) ==
            if page == 7 then 0 else if 4 <= usage <= 6 then [0x0504, 0x0508, 0x0540][usage - 4] else OTHER
  {
  }
}
