/** Game Boy pixels: the packed frame, the palette, scaling, and the start-up picture
    (main/gb_pixels.c, main/gb_boot.c). */
module Pixels {
  import opened Bytes

  const WIDTH := 160
  const HEIGHT := 144

  /** Two bits a pixel, leftmost pixel in the low bits. */
  type Frame = f: seq<byte> | |f| == 5760 witness seq(5760, _ => 0)

  type Row = r: seq<byte> | |r| == 40 witness seq(40, _ => 0)

  /** The two bits of pixel k of an octet. */
  function Field(b: byte, k: nat): (s: nat)
    requires k < 4
    ensures s < 4
  {
    if k == 0 then b % 4 else if k == 1 then b / 4 % 4 else if k == 2 then b / 16 % 4 else b / 64
  }

  function RowOf(f: Frame, y: nat): Row
    requires y < HEIGHT
  {
    f[y * 40..y * 40 + 40]
  }

  function RowShade(r: Row, x: nat): (s: nat)
    requires x < WIDTH
    ensures s < 4
  {
    Field(r[x / 4], x % 4)
  }

  /** gb_pixel_shade */
  function Shade(f: Frame, x: nat, y: nat): (s: nat)
    requires x < WIDTH && y < HEIGHT
    ensures s < 4
  {
    Field(f[y * 40 + x / 4], x % 4)
  }

  lemma ShadeOfRow(f: Frame, x: nat, y: nat)
    requires x < WIDTH && y < HEIGHT
    ensures RowShade(RowOf(f, y), x) == Shade(f, x, y)
  {
    assert RowOf(f, y)[x / 4] == f[y * 40 + x / 4];
  }

  const LIGHT := 0x9DC2
  const DARK := 0x09C2

  /** gb_pixel_rgb565, in the byte order of the panel. */
  function Wire(shade: nat): nat {
    Swapped(if shade == 0 then LIGHT else if shade == 1 then 0x8D42 else if shade == 2 then 0x3306 else DARK)
  }

  function Swapped(color: nat): nat {
    color % 256 * 256 + color / 256
  }

  function SourceX(x: nat, enlarged: bool): nat {
    if enlarged then x * 160 / 240 else x
  }

  function SourceY(y: nat, enlarged: bool): nat {
    if enlarged then y * 144 / 216 else y
  }

  function WindowWidth(enlarged: bool): nat {
    if enlarged then 240 else 160
  }

  function WindowHeight(enlarged: bool): nat {
    if enlarged then 216 else 144
  }

  lemma SourceInside(x: nat, y: nat, enlarged: bool)
    requires x < WindowWidth(enlarged) && y < WindowHeight(enlarged)
    ensures SourceX(x, enlarged) < WIDTH && SourceY(y, enlarged) < HEIGHT
  {
  }

  /** The naive picture: pixel (x, y) of the window, scaled point by point. */
  function PixelOf(f: Frame, enlarged: bool, x: nat, y: nat): nat
    requires x < WindowWidth(enlarged) && y < WindowHeight(enlarged)
  {
    SourceInside(x, y, enlarged);
    Wire(Shade(f, SourceX(x, enlarged), SourceY(y, enlarged)))
  }

  // ----- The fast row.

  /** Which pixels of a group of six come from which of four, and their shades. */
  lemma SixFromFour(packed: Row, i: nat)
    requires i < 40
    ensures SourceX(6 * i, true) == 4 * i && SourceX(6 * i + 1, true) == 4 * i && SourceX(6 * i + 2, true) == 4 * i + 1
    ensures SourceX(6 * i + 3, true) == 4 * i + 2 && SourceX(6 * i + 4, true) == 4 * i + 2 && SourceX(6 * i + 5, true) == 4 * i + 3
    ensures RowShade(packed, 4 * i) == packed[i] % 4 && RowShade(packed, 4 * i + 1) == packed[i] / 4 % 4
    ensures RowShade(packed, 4 * i + 2) == packed[i] / 16 % 4 && RowShade(packed, 4 * i + 3) == packed[i] / 64
  {
  }

  /** gb_pixels_expand_row_3_2: four pixels to six at a time gives the naively scaled row. */
  method ExpandRow(packed: Row, wire: array<nat>, base: nat)
    requires base + 240 <= wire.Length
    modifies wire
    ensures forall x | 0 <= x < 240 :: SourceX(x, true) < WIDTH && wire[base + x] == Wire(RowShade(packed, SourceX(x, true)))
    ensures forall k | 0 <= k < wire.Length && !(base <= k < base + 240) :: wire[k] == old(wire[k])
  {
    hide Wire, SourceX, RowShade;
    for i := 0 to 40
      invariant forall x | 0 <= x < 6 * i :: SourceX(x, true) < WIDTH && wire[base + x] == Wire(RowShade(packed, SourceX(x, true)))
      invariant forall k | 0 <= k < wire.Length && !(base <= k < base + 240) :: wire[k] == old(wire[k])
    {
      var pixels := packed[i];
      var at := base + i * 6;
      SixFromFour(packed, i);
      wire[at] := Wire(pixels % 4);
      wire[at + 1] := Wire(pixels % 4);
      wire[at + 2] := Wire(pixels / 4 % 4);
      wire[at + 3] := Wire(pixels / 16 % 4);
      wire[at + 4] := Wire(pixels / 16 % 4);
      wire[at + 5] := Wire(pixels / 64);
    }
  }

  // ----- Changes.

  /** Some source row of these window rows differs. */
  predicate RowsDiffer(f: Frame, g: Frame, first: nat, rows: nat, enlarged: bool)
    requires rows > 0 && first + rows <= WindowHeight(enlarged)
  {
    exists y | first <= y < first + rows :: DiffersAt(f, g, y, enlarged)
  }

  predicate DiffersAt(f: Frame, g: Frame, y: nat, enlarged: bool)
    requires y < WindowHeight(enlarged)
  {
    SourceInside(0, y, enlarged);
    RowOf(f, SourceY(y, enlarged)) != RowOf(g, SourceY(y, enlarged))
  }

  /** Every source row between the first and the last is the source of some window row. */
  lemma SourceRowsCovered(first: nat, rows: nat, enlarged: bool, sy: nat) returns (y: nat)
    requires rows > 0 && first + rows <= WindowHeight(enlarged)
    requires SourceY(first, enlarged) <= sy <= SourceY(first + rows - 1, enlarged)
    ensures first <= y < first + rows && SourceY(y, enlarged) == sy
  {
    y := first;
    while SourceY(y, enlarged) < sy
      invariant first <= y < first + rows && SourceY(y, enlarged) <= sy
      decreases first + rows - y
    {
      y := y + 1;
    }
  }

  /** gb_pixels_strip_changed */
  method StripChanged(f: Frame, g: Frame, first: nat, rows: nat, enlarged: bool) returns (changed: bool)
    requires rows > 0 && first + rows <= WindowHeight(enlarged)
    ensures changed <==> RowsDiffer(f, g, first, rows, enlarged)
  {
    var start, last := SourceY(first, enlarged), SourceY(first + rows - 1, enlarged);
    SourceInside(0, first + rows - 1, enlarged);
    assert start <= last;
    var sy := start;
    while sy <= last
      invariant start <= sy <= last + 1
      invariant forall k | start <= k < sy :: RowOf(f, k) == RowOf(g, k)
    {
      if f[sy * 40..sy * 40 + 40] != g[sy * 40..sy * 40 + 40] {
        var y := SourceRowsCovered(first, rows, enlarged, sy);
        assert DiffersAt(f, g, y, enlarged);
        return true;
      }
      sy := sy + 1;
    }
    assert forall y | first <= y < first + rows :: start <= SourceY(y, enlarged) <= last;
    changed := false;
  }

  // ----- The start-up picture.

  /** Every pixel has the lightest or the darkest shade. */
  predicate TwoTone(f: Frame) {
    forall x, y | 0 <= x < WIDTH && 0 <= y < HEIGHT :: Shade(f, x, y) == 0 || Shade(f, x, y) == 3
  }

  function Octet(a: nat, b: nat, c: nat, d: nat): byte
    requires a < 4 && b < 4 && c < 4 && d < 4
  {
    a + 4 * b + 16 * c + 64 * d
  }

  lemma OctetFields(a: nat, b: nat, c: nat, d: nat)
    requires a < 4 && b < 4 && c < 4 && d < 4
    ensures var o := Octet(a, b, c, d);
      Field(o, 0) == a && Field(o, 1) == b && Field(o, 2) == c && Field(o, 3) == d
  {
    var o: int := Octet(a, b, c, d);
    assert o == a + 4 * (b + 4 * (c + 4 * d));
    assert o / 4 == b + 4 * (c + 4 * d) && o / 16 == c + 4 * d;
  }

  /** An octet with both bits of pixel k set. */
  function Marked(b: byte, k: nat): (r: byte)
    requires k < 4
    ensures Field(r, k) == 3
    ensures forall j | 0 <= j < 4 && j != k :: Field(r, j) == Field(b, j)
  {
    var f0, f1, f2, f3 := Field(b, 0), Field(b, 1), Field(b, 2), Field(b, 3);
    OctetFields(if k == 0 then 3 else f0, if k == 1 then 3 else f1, if k == 2 then 3 else f2, if k == 3 then 3 else f3);
    hide Field;
    Octet(if k == 0 then 3 else f0, if k == 1 then 3 else f1, if k == 2 then 3 else f2, if k == 3 then 3 else f3)
  }

  /** dot: pixels outside the frame are ignored. */
  function Dotted(f: Frame, x: int, y: int): Frame {
    if 0 <= x < WIDTH && 0 <= y < HEIGHT then
      f[y * 40 + x / 4 := Marked(f[y * 40 + x / 4], x % 4)]
    else f
  }

  /** A dot changes its own pixel and no other. */
  lemma DotShades(f: Frame, x: int, y: int, px: nat, py: nat)
    requires px < WIDTH && py < HEIGHT
    ensures Shade(Dotted(f, x, y), px, py) == if px == x && py == y then 3 else Shade(f, px, py)
  {
    hide Field;
  }

  const LOGO: seq<byte> := [
    0xCE, 0xED, 0x66, 0x66, 0xCC, 0x0D, 0x00, 0x0B, 0x03, 0x73, 0x00, 0x83,
    0x00, 0x0C, 0x00, 0x0D, 0x00, 0x08, 0x11, 0x1F, 0x88, 0x89, 0x00, 0x0E,
    0xDC, 0xCC, 0x6E, 0xE6, 0xDD, 0xDD, 0xD9, 0x99, 0xBB, 0xBB, 0x67, 0x63,
    0x6E, 0x0E, 0xEC, 0xCC, 0xDD, 0xDC, 0x99, 0x9F, 0xBB, 0xB9, 0x33, 0x3E
  ]

  const REGISTERED: seq<byte> := [0x3C, 0x42, 0xB9, 0xA5, 0xB9, 0xA5, 0x42, 0x3C]

  /** Bit i of an octet, counted from the top. */
  function TopBit(b: byte, i: nat): bool
    requires i < 8
  {
    if i == 7 then b % 2 == 1 else if i == 6 then b / 2 % 2 == 1 else if i == 5 then b / 4 % 2 == 1 else if i == 4 then b / 8 % 2 == 1
    else if i == 3 then b / 16 % 2 == 1 else if i == 2 then b / 32 % 2 == 1 else if i == 1 then b / 64 % 2 == 1 else b / 128 == 1
  }

  function LogoOctet(i: nat): byte
    requires i < 48
  {
    LOGO[i]
  }

  function BlankFrame(): Frame {
    seq(5760, _ => 0)
  }

  /** Which bit of the logo table covers this pixel, counted over the whole table; -1 outside the logo. Each
      bit is two pixels wide and high, each octet two rows of four, and the octets run down in pairs. */
  function LogoBit(top: int, px: int, py: int): int {
    if 32 <= px < 128 && top <= py < top + 16 then
      var u, v := px - 32, py - top;
      8 * (v / 8 * 24 + u / 8 * 2 + v % 8 / 4) + v % 4 / 2 * 4 + u % 8 / 2
    else -1
  }

  /** The registered mark, eight by eight, to the right of it. */
  function MarkBit(top: int, px: int, py: int): int {
    if 128 <= px < 136 && top <= py < top + 8 then 8 * (py - top) + (px - 128) else -1
  }

  predicate Inked(top: int, px: int, py: int, logoUpTo: nat, markUpTo: nat)
    requires logoUpTo <= 384 && markUpTo <= 64
  {
    var l, m := LogoBit(top, px, py), MarkBit(top, px, py);
    (0 <= l < logoUpTo && TopBit(LogoOctet(l / 8), l % 8)) || (0 <= m < markUpTo && TopBit(REGISTERED[m / 8], m % 8))
  }

  /** The frame shows the picture as far as it is drawn, in the lightest and the darkest shade. */
  predicate PictureSoFar(f: Frame, top: int, logoUpTo: nat, markUpTo: nat)
    requires logoUpTo <= 384 && markUpTo <= 64
  {
    forall px, py | 0 <= px < WIDTH && 0 <= py < HEIGHT ::
      Shade(f, px, py) == if Inked(top, px, py, logoUpTo, markUpTo) then 3 else 0
  }

  /** The digits of a position in the logo determine it. */
  lemma SameDigits(a: nat, b: nat, c: nat, d: nat, e: nat, a': nat, b': nat, c': nat, d': nat, e': nat)
    requires a < 2 && b < 12 && c < 2 && d < 2 && e < 4 && a' < 2 && b' < 12 && c' < 2 && d' < 2 && e' < 4
    ensures 8 * (24 * a + 2 * b + c) + 4 * d + e == 8 * (24 * a' + 2 * b' + c') + 4 * d' + e'
      <==> a == a' && b == b' && c == c' && d == d' && e == e'
  {
  }

  lemma ColumnDigits(b: nat, e: nat, r: nat, b': nat, e': nat)
    requires e < 4 && r < 2 && e' < 4
    ensures 8 * b + 2 * e + r == 8 * b' + 2 * e' || 8 * b + 2 * e + r == 8 * b' + 2 * e' + 1 <==> b == b' && e == e'
  {
  }

  lemma RowDigits(a: nat, c: nat, d: nat, s: nat, a': nat, c': nat, d': nat)
    requires c < 2 && d < 2 && s < 2 && c' < 2 && d' < 2
    ensures 8 * a + 4 * c + 2 * d + s == 8 * a' + 4 * c' + 2 * d' || 8 * a + 4 * c + 2 * d + s == 8 * a' + 4 * c' + 2 * d' + 1
      <==> a == a' && c == c' && d == d'
  {
  }

  lemma SplitColumn(u: nat)
    requires u < 96
    ensures u / 8 < 12 && u % 8 / 2 < 4 && u % 8 % 2 < 2 && u == 8 * (u / 8) + 2 * (u % 8 / 2) + u % 8 % 2
  {
  }

  lemma SplitRow(v: nat)
    requires v < 16
    ensures v / 8 < 2 && v % 8 / 4 < 2 && v % 4 / 2 < 2 && v % 2 < 2
    ensures v == 8 * (v / 8) + 4 * (v % 8 / 4) + 2 * (v % 4 / 2) + v % 2
  {
  }

  lemma SplitIndex(i: nat, bit: nat)
    requires i < 48 && bit < 8
    ensures i / 24 < 2 && i / 2 % 12 < 12 && i % 2 < 2 && i == 24 * (i / 24) + 2 * (i / 2 % 12) + i % 2
    ensures bit / 4 < 2 && bit % 4 < 4 && bit == 4 * (bit / 4) + bit % 4
  {
  }

  /** The four pixels of one logo bit. */
  lemma LogoBitIs(top: int, i: nat, bit: nat, px: int, py: int)
    requires i < 48 && bit < 8
    ensures var x, y := 32 + i / 2 % 12 * 8 + bit % 4 * 2, top + i / 24 * 8 + i % 2 * 4 + bit / 4 * 2;
      LogoBit(top, px, py) == 8 * i + bit <==> (px == x || px == x + 1) && (py == y || py == y + 1)
  {
    if 32 <= px < 128 && top <= py < top + 16 {
      InsideLogo(px - 32, py - top, i, bit);
    } else {
      SplitIndex(i, bit);
    }
  }

  lemma InsideLogo(u: nat, v: nat, i: nat, bit: nat)
    requires u < 96 && v < 16 && i < 48 && bit < 8
    ensures 8 * (v / 8 * 24 + u / 8 * 2 + v % 8 / 4) + v % 4 / 2 * 4 + u % 8 / 2 == 8 * i + bit <==>
      (u == i / 2 % 12 * 8 + bit % 4 * 2 || u == i / 2 % 12 * 8 + bit % 4 * 2 + 1)
      && (v == i / 24 * 8 + i % 2 * 4 + bit / 4 * 2 || v == i / 24 * 8 + i % 2 * 4 + bit / 4 * 2 + 1)
  {
    SplitColumn(u);
    SplitRow(v);
    SplitIndex(i, bit);
    PlaceIs(u, v, v / 8, u / 8, v % 8 / 4, v % 4 / 2, u % 8 / 2, u % 8 % 2, v % 2,
            i, bit, i / 24, i / 2 % 12, i % 2, bit / 4, bit % 4);
  }

  lemma PlaceIs(u: nat, v: nat, a: nat, b: nat, c: nat, d: nat, e: nat, r: nat, s: nat,
                i: nat, bit: nat, a': nat, b': nat, c': nat, d': nat, e': nat)
    requires a < 2 && b < 12 && c < 2 && d < 2 && e < 4 && a' < 2 && b' < 12 && c' < 2 && d' < 2 && e' < 4 && r < 2 && s < 2
    requires u == 8 * b + 2 * e + r && v == 8 * a + 4 * c + 2 * d + s && i == 24 * a' + 2 * b' + c' && bit == 4 * d' + e'
    ensures 8 * (a * 24 + b * 2 + c) + d * 4 + e == 8 * i + bit <==>
      (u == b' * 8 + e' * 2 || u == b' * 8 + e' * 2 + 1)
      && (v == a' * 8 + c' * 4 + d' * 2 || v == a' * 8 + c' * 4 + d' * 2 + 1)
  {
    SameDigits(a, b, c, d, e, a', b', c', d', e');
    ColumnDigits(b, e, r, b', e');
    RowDigits(a, c, d, s, a', c', d');
  }

  lemma MarkBitIs(top: int, x: nat, y: nat, px: int, py: int)
    requires x < 8 && y < 8
    ensures MarkBit(top, px, py) == 8 * y + x <==> px == 128 + x && py == top + y
  {
  }

  lemma BlankPicture(top: int)
    ensures PictureSoFar(BlankFrame(), top, 0, 0)
  {
  }

  lemma LogoStep(f: Frame, g: Frame, top: int, i: nat, bit: nat)
    requires i < 48 && bit < 8 && PictureSoFar(f, top, 8 * i + bit, 0)
    requires var x, y := 32 + i / 2 % 12 * 8 + bit % 4 * 2, top + i / 24 * 8 + i % 2 * 4 + bit / 4 * 2;
      g == if TopBit(LogoOctet(i), bit) then Dotted(Dotted(Dotted(Dotted(f, x, y), x + 1, y), x, y + 1), x + 1, y + 1) else f
    ensures PictureSoFar(g, top, 8 * i + bit + 1, 0)
  {
    hide Dotted, TopBit, LogoOctet, LogoBit, MarkBit, Shade;
    var x, y := 32 + i / 2 % 12 * 8 + bit % 4 * 2, top + i / 24 * 8 + i % 2 * 4 + bit / 4 * 2;
    forall px, py | 0 <= px < WIDTH && 0 <= py < HEIGHT
      ensures Shade(g, px, py) == if Inked(top, px, py, 8 * i + bit + 1, 0) then 3 else 0
    {
      LogoBitIs(top, i, bit, px, py);
      DotShades(f, x, y, px, py);
      DotShades(Dotted(f, x, y), x + 1, y, px, py);
      DotShades(Dotted(Dotted(f, x, y), x + 1, y), x, y + 1, px, py);
      DotShades(Dotted(Dotted(Dotted(f, x, y), x + 1, y), x, y + 1), x + 1, y + 1, px, py);
      assert Shade(f, px, py) == if Inked(top, px, py, 8 * i + bit, 0) then 3 else 0;
      if LogoBit(top, px, py) == 8 * i + bit {
        OctetAndBit(i, bit);
      }
    }
  }

  lemma OctetAndBit(i: nat, bit: nat)
    requires bit < 8
    ensures (8 * i + bit) / 8 == i && (8 * i + bit) % 8 == bit
  {
  }

  lemma MarkStep(f: Frame, g: Frame, top: int, x: nat, y: nat)
    requires x < 8 && y < 8 && PictureSoFar(f, top, 384, 8 * y + x)
    requires g == if TopBit(REGISTERED[y], x) then Dotted(f, 128 + x, top + y) else f
    ensures PictureSoFar(g, top, 384, 8 * y + x + 1)
  {
    hide Dotted, TopBit, LogoOctet, LogoBit, MarkBit, Shade;
    forall px, py | 0 <= px < WIDTH && 0 <= py < HEIGHT
      ensures Shade(g, px, py) == if Inked(top, px, py, 384, 8 * y + x + 1) then 3 else 0
    {
      MarkBitIs(top, x, y, px, py);
      DotShades(f, 128 + x, top + y, px, py);
      assert Shade(f, px, py) == if Inked(top, px, py, 384, 8 * y + x) then 3 else 0;
      if MarkBit(top, px, py) == 8 * y + x {
        OctetAndBit(y, x);
      }
    }
  }

  lemma PictureIsTwoTone(f: Frame, top: int)
    requires PictureSoFar(f, top, 384, 64)
    ensures TwoTone(f)
  {
    hide Shade, Inked;
  }

  /** gb_boot_frame: the logo and the registered mark at this height, clipped to the frame, and nothing else. */
  method BootPicture(top: int) returns (f: Frame)
    ensures PictureSoFar(f, top, 384, 64) && TwoTone(f)
  {
    hide Dotted, TopBit, LogoOctet, PictureSoFar;
    f := BlankFrame();
    BlankPicture(top);
    for i := 0 to 48
      invariant PictureSoFar(f, top, 8 * i, 0)
    {
      var x, y := 32 + i / 2 % 12 * 8, top + i / 24 * 8 + i % 2 * 4;
      for bit := 0 to 8
        invariant PictureSoFar(f, top, 8 * i + bit, 0)
      {
        ghost var before := f;
        if TopBit(LogoOctet(i), bit) {
          var dx, dy := bit % 4 * 2, bit / 4 * 2;
          f := Dotted(f, x + dx, y + dy);
          f := Dotted(f, x + dx + 1, y + dy);
          f := Dotted(f, x + dx, y + dy + 1);
          f := Dotted(f, x + dx + 1, y + dy + 1);
        }
        LogoStep(before, f, top, i, bit);
      }
    }
    for y := 0 to 8
      invariant PictureSoFar(f, top, 384, 8 * y)
    {
      for x := 0 to 8
        invariant PictureSoFar(f, top, 384, 8 * y + x)
      {
        ghost var before := f;
        if TopBit(REGISTERED[y], x) {
          f := Dotted(f, 128 + x, top + y);
        }
        MarkStep(before, f, top, x, y);
      }
    }
    PictureIsTwoTone(f, top);
  }
}
