/** Where on the panel each pixel of the Game Boy is, and in which colour (main/gb_pixels.c, main/gb_display.c). */
module PanelPicture {
  import opened Bytes
  import opened Pixels
  import opened LcdLink
  import opened Display

  /** The four greens, as the panel receives their two octets. */
  const GREENS: seq<nat> := [0xC29D, 0x428D, 0x0633, 0xC209]

  /** The two bits of a Game Boy pixel. */
  function Bits(f: Frame, u: nat, v: nat): (s: nat)
    requires u < 160 && v < 144
    ensures s < 4
  {
    f[40 * v + u / 4] / [1, 4, 16, 64][u % 4] % 4
  }

  lemma ShadeIsBits(f: Frame, u: nat, v: nat)
    requires u < 160 && v < 144
    ensures Shade(f, u, v) == Bits(f, u, v) && Wire(Bits(f, u, v)) == GREENS[Bits(f, u, v)]
  {
  }

  /** Of two neighbouring pixels the first is doubled, so that two become three. */
  predicate Stretched(u: nat, x: nat) {
    x == 3 * (u / 2) + 2 * (u % 2) || (u % 2 == 0 && x == 3 * (u / 2) + 1)
  }

  lemma StretchedFrom(u: nat, x: nat)
    ensures Stretched(u, x) <==> u == 2 * x / 3
  {
  }

  function Green(f: Frame, u: nat, v: nat): nat
    requires u < 160 && v < 144
  {
    GREENS[Bits(f, u, v)]
  }

  /** The frame in the middle of the panel, pixel for pixel. */
  predicate SeenPlain(screen: Screen, f: Frame) {
    forall u: nat, v: nat | u < 160 && v < 144 :: screen(40 + u, 88 + v) == Green(f, u, v)
  }

  /** The frame over the whole width, two pixels made three in both directions. */
  ghost predicate SeenEnlarged(screen: Screen, f: Frame) {
    forall u: nat, v: nat, x: nat, y: nat | u < 160 && v < 144 && Stretched(u, x) && Stretched(v, y) ::
      screen(x, 52 + y) == Green(f, u, v)
  }

  lemma WindowPixel(f: Frame, x: nat, y: nat)
    ensures x < 160 && y < 144 ==> PixelOf(f, false, x, y) == Green(f, x, y)
    ensures x < 240 && y < 216 ==>
      2 * x / 3 < 160 && 2 * y / 3 < 144 && PixelOf(f, true, x, y) == Green(f, 2 * x / 3, 2 * y / 3)
  {
    hide Bits, Wire, Shade, GREENS;
    if x < 160 && y < 144 {
      ShadeIsBits(f, x, y);
    }
    if x < 240 && y < 216 {
      ShadeIsBits(f, 2 * x / 3, 2 * y / 3);
    }
  }

  /** A panel shows a game frame exactly if every pixel of the Game Boy has its green where it belongs. */
  lemma GamePictureIs(screen: Screen, f: Frame)
    ensures Shows(screen, f, false) <==> SeenPlain(screen, f)
    ensures Shows(screen, f, true) <==> SeenEnlarged(screen, f)
  {
    hide Green, PixelOf;
    assert Left(false) == 40 && Top(false) == 88 && Left(true) == 0 && Top(true) == 52;
    forall x: nat, y: nat
      ensures x < 160 && y < 144 ==> PixelOf(f, false, x, y) == Green(f, x, y)
    {
      WindowPixel(f, x, y);
    }
    EnlargedPictureIs(screen, f);
  }

  lemma EnlargedPictureIs(screen: Screen, f: Frame)
    ensures Shows(screen, f, true) <==> SeenEnlarged(screen, f)
  {
    hide Green, PixelOf, Stretched;
    assert Left(true) == 0 && Top(true) == 52;
    if Shows(screen, f, true) {
      forall u: nat, v: nat, x: nat, y: nat | u < 160 && v < 144 && Stretched(u, x) && Stretched(v, y)
        ensures screen(x, 52 + y) == Green(f, u, v)
      {
        StretchedFrom(u, x);
        StretchedFrom(v, y);
        WindowPixel(f, x, y);
      }
    }
    if SeenEnlarged(screen, f) {
      forall x: nat, y: nat | x < 240 && y < 216
        ensures screen(x, 52 + y) == PixelOf(f, true, x, y)
      {
        StretchedFrom(2 * x / 3, x);
        StretchedFrom(2 * y / 3, y);
        WindowPixel(f, x, y);
      }
    }
  }

  /** A start-up frame has the lightest and the darkest green only, stretched in the same way over rows 52 to 267
      of the panel. */
  lemma StartPictureIs(f: Frame, u: nat, v: nat, x: nat, y: nat)
    requires u < 160 && v < 144 && Stretched(u, x) && Stretched(v, y)
    ensures Boot(f).Covers(x, 52 + y) && Boot(f).Pixel(x, y) == if Bits(f, u, v) == 0 then 0xC29D else 0xC209
  {
    hide Bits, Shade, Wire, Stretched;
    StretchedFrom(u, x);
    StretchedFrom(v, y);
    ShadeIsBits(f, u, v);
    TwoGreens();
    assert x < 240 && y < 216 && SourceX(x, true) == u && SourceY(y, true) == v;
  }

  lemma TwoGreens()
    ensures Wire(0) == 0xC29D && Wire(3) == 0xC209
  {
  }

  /** The part of the panel that a drawing is for. */
  predicate Meant(e: Drawing, x: int, y: int) {
    match e
    case Frame(_, enlarged) => if enlarged then 0 <= x < 240 && 52 <= y < 268 else 40 <= x < 200 && 88 <= y < 232
    case Boot(_) => 0 <= x < 240 && 52 <= y < 268
    case Paint(_, first, end, _) => 0 <= x < 240 && first <= y < end
  }

  lemma MeantIsCovered(e: Drawing, x: int, y: int)
    ensures Meant(e, x, y) <==> e.Covers(x, y)
  {
  }

  /** Over a clean link a drawing, finished or not, leaves the rest of the panel alone; and rows of another
      picture that are reported as drawn are on the panel. */
  lemma RestIsSpared(s: Lcd, e: Drawing, fates: nat -> StripFate, x: int, y: int)
    requires Clean(s.link)
    ensures var r := Drawn(s, e, fates);
      && (!Meant(e, x, y) ==> r.lcd.link.screen(x, y) == s.link.screen(x, y))
      && (r.sent == Ok && e.Paint? && Meant(e, x, y) ==> r.lcd.link.screen(x, y) == e.paint(x, y))
  {
    hide Treated, Meant;
    CleanStrips(s.link, s.memory, e, e.Slots(), fates);
    MeantIsCovered(e, x, y);
    if e.Paint? && Meant(e, x, y) {
      StripOf(y - e.first, e.end - e.first);
    }
  }

  lemma StripOf(row: nat, height: nat)
    requires row < height
    ensures row / 20 < (height + 19) / 20
  {
  }

  // ----- What is sent again.

  lemma OctetsDiffer(a: byte, b: byte)
    ensures a == b <==> a % 4 == b % 4 && a / 4 % 4 == b / 4 % 4 && a / 16 % 4 == b / 16 % 4 && a / 64 % 4 == b / 64 % 4
  {
    Fourths(a);
    Fourths(b);
  }

  lemma Fourths(a: byte)
    ensures a == a % 4 + 4 * (a / 4 % 4) + 16 * (a / 16 % 4) + 64 * (a / 64 % 4)
  {
    assert a / 4 / 4 == a / 16 && a / 16 / 4 == a / 64;
  }

  /** Two frames differ in a row of the Game Boy. */
  predicate RowChanged(f: Frame, g: Frame, v: nat)
    requires v < 144
  {
    exists u: nat | u < 160 :: Bits(f, u, v) != Bits(g, u, v)
  }

  lemma RowsAreBits(f: Frame, g: Frame, v: nat)
    requires v < 144
    ensures RowOf(f, v) != RowOf(g, v) <==> RowChanged(f, g, v)
  {
    if RowOf(f, v) != RowOf(g, v) {
      var i :| 0 <= i < 40 && RowOf(f, v)[i] != RowOf(g, v)[i];
      OctetsDiffer(f[40 * v + i], g[40 * v + i]);
      BitsInOctet(f, i, v);
      BitsInOctet(g, i, v);
      assert Bits(f, 4 * i, v) != Bits(g, 4 * i, v) || Bits(f, 4 * i + 1, v) != Bits(g, 4 * i + 1, v)
        || Bits(f, 4 * i + 2, v) != Bits(g, 4 * i + 2, v) || Bits(f, 4 * i + 3, v) != Bits(g, 4 * i + 3, v);
    }
    if RowChanged(f, g, v) {
      var u: nat :| u < 160 && Bits(f, u, v) != Bits(g, u, v);
      assert RowOf(f, v)[u / 4] != RowOf(g, v)[u / 4];
    }
  }

  lemma BitsInOctet(f: Frame, i: nat, v: nat)
    requires i < 40 && v < 144
    ensures var o := f[40 * v + i];
      && Bits(f, 4 * i, v) == o % 4 && Bits(f, 4 * i + 1, v) == o / 4 % 4
      && Bits(f, 4 * i + 2, v) == o / 16 % 4 && Bits(f, 4 * i + 3, v) == o / 64 % 4
  {
  }

  /** The Game Boy row behind this row of the window has changed. */
  predicate ChangedBehind(f: Frame, g: Frame, enlarged: bool, y: nat) {
    y < (if enlarged then 216 else 144) && RowChanged(f, g, if enlarged then 2 * y / 3 else y)
  }

  /** After a frame of the same size that the panel is known to show, a strip is sent exactly if a pixel of the
      Game Boy has changed in one of its rows. */
  lemma SentExactlyWhenChanged(m: Memory, f: Frame, enlarged: bool, k: nat)
    requires m.valid && m.enlarged == enlarged && k < Frame(f, enlarged).Slots()
    ensures Wanted(m, Frame(f, enlarged), k) <==> exists y: nat | 20 * k <= y < 20 * k + 20 :: ChangedBehind(f, m.frame, enlarged, y)
  {
    hide RowChanged, RowOf;
    forall y: nat | y < (if enlarged then 216 else 144)
      ensures DiffersAt(f, m.frame, y, enlarged) <==> ChangedBehind(f, m.frame, enlarged, y)
    {
      RowsAreBits(f, m.frame, if enlarged then 2 * y / 3 else y);
    }
    hide DiffersAt;
    if y: nat :| 20 * k <= y < 20 * k + 20 && ChangedBehind(f, m.frame, enlarged, y) {
      assert DiffersAt(f, m.frame, y, enlarged);
    }
    if Wanted(m, Frame(f, enlarged), k) {
      var y :| 20 * k <= y < 20 * k + Frame(f, enlarged).Rows(k) && DiffersAt(f, m.frame, y, enlarged);
      assert ChangedBehind(f, m.frame, enlarged, y);
    }
  }

  /** A frame that is reported as drawn is remembered, one that is not is not; and drawing it once more sends
      nothing, so that it cannot fail. */
  lemma DrawnIsRemembered(s: Lcd, f: Frame, enlarged: bool, x: nat -> StripFate, y: nat -> StripFate)
    ensures var r := Drawn(s, Frame(f, enlarged), x);
      if r.sent == Ok then r.lcd.memory == Memory(true, f, enlarged) && Drawn(r.lcd, Frame(f, enlarged), y) == Result(r.lcd, Ok)
      else !r.lcd.memory.valid
  {
    var r := Drawn(s, Frame(f, enlarged), x);
    hide Treated;
    if r.sent == Ok {
      NothingIsSent(r.lcd.link, r.lcd.memory, f, enlarged, Frame(f, enlarged).Slots(), y);
    }
  }

  lemma {:induction false} NothingIsSent(l: Link, m: Memory, f: Frame, enlarged: bool, k: nat, y: nat -> StripFate)
    requires m == Memory(true, f, enlarged) && k <= Frame(f, enlarged).Slots()
    ensures Treated(l, m, Frame(f, enlarged), k, y) == After(l, Ok)
    decreases k
  {
    if k > 0 {
      NothingIsSent(l, m, f, enlarged, k - 1, y);
    }
  }
}
