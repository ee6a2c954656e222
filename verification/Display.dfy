/** The LCD path (main/gb_display.c): frames are sent in strips, strips that did not change are skipped,
    and the overlays below the picture are drawn beside it.

    The panel is a function from coordinates to colours. How the transfers of the strips go is an
    argument of each drawing. */
module Display {
  import opened Bytes
  import opened Pixels
  import opened LcdLink

  // ----- The picture and its window.

  function Left(enlarged: bool): nat {
    (LCD_W - WindowWidth(enlarged)) / 2
  }

  function Top(enlarged: bool): nat {
    (LCD_H - WindowHeight(enlarged)) / 2
  }

  /** The game window of the panel is the naive picture of this frame. */
  predicate Shows(screen: Screen, f: Frame, enlarged: bool) {
    forall x, y | 0 <= x < WindowWidth(enlarged) && 0 <= y < WindowHeight(enlarged) ::
      screen(Left(enlarged) + x, Top(enlarged) + y) == PixelOf(f, enlarged, x, y)
  }

  // ----- What the driver remembers.

  /** The frame last drawn, if the panel is known to show it. */
  datatype Memory = Memory(valid: bool, frame: Frame, enlarged: bool)

  /** Whenever the previous frame is marked valid, the panel shows it. */
  predicate Truthful(screen: Screen, m: Memory) {
    m.valid ==> Shows(screen, m.frame, m.enlarged)
  }

  // ----- What is drawn.

  /** A game frame, a start-up frame, or rows of some other picture: overlays below the game, and screens
      that make the driver forget the frame first. */
  datatype Drawing =
    | Frame(frame: Frame, enlarged: bool)
    | Boot(frame: Frame)
    | Paint(forgets: bool, first: nat, end: nat, paint: Screen)
  {
    function X0(): nat { if Frame? then Left(enlarged) else 0 }
    function Y0(): nat { if Frame? then Top(enlarged) else if Boot? then 52 else first }
    function Width(): nat { if Frame? then WindowWidth(enlarged) else LCD_W }
    function Height(): nat { if Frame? then WindowHeight(enlarged) else if Boot? then 216 else if first <= end then end - first else 0 }

    /** Drawings are cut into strips of twenty rows. */
    function Slots(): nat { (Height() + 19) / 20 }

    predicate Covers(x: int, y: int) { X0() <= x < X0() + Width() && Y0() <= y < Y0() + Height() }

    /** The colour that belongs at a point of the picture. */
    function Pixel(x: int, y: int): nat {
      match this
      case Frame(f, enlarged) => if 0 <= x < WindowWidth(enlarged) && 0 <= y < WindowHeight(enlarged) then PixelOf(f, enlarged, x, y) else 0
      case Boot(f) => if 0 <= x < 240 && 0 <= y < 216 then BootPixel(f, x, y) else 0
      case Paint(_, first, _, paint) => paint(x, first + y)
    }

    function Rows(k: nat): nat
      requires k < Slots()
    {
      StripCount(20 * k, Height())
    }

    function SlotStrip(k: nat): (s: Strip)
      requires k < Slots()
      ensures |s.cells| == Width() * Rows(k) <= LCD_W * STRIP_ROWS
    {
      Strip(Rect(X0(), Y0() + 20 * k, Width(), Rows(k)),
            seq(Width() * Rows(k), i requires 0 <= i => Pixel(i % Width(), 20 * k + i / Width())))
    }
  }

  function StripCount(row: nat, height: nat): (n: nat)
    requires row < height
    ensures 0 < n <= STRIP_ROWS && row + n <= height
  {
    if height - row > STRIP_ROWS then STRIP_ROWS else height - row
  }

  /** A start-up frame has dark and light pixels only, and is always enlarged. */
  function BootPixel(f: Frame, x: nat, y: nat): nat
    requires x < 240 && y < 216
  {
    SourceInside(x, y, true);
    Wire(if Shade(f, SourceX(x, true), SourceY(y, true)) != 0 then 3 else 0)
  }

  /** A strip is sent unless the previous frame is known and agrees on its rows; the size of the previous
      frame is asked about for game frames, and not for start-up frames. */
  predicate Wanted(m: Memory, e: Drawing, k: nat)
    requires k < e.Slots()
  {
    match e
    case Frame(f, enlarged) => !(m.valid && m.enlarged == enlarged && !RowsDiffer(f, m.frame, 20 * k, e.Rows(k), enlarged))
    case Boot(f) => !(m.valid && !RowsDiffer(f, m.frame, 20 * k, e.Rows(k), true))
    case Paint(_, _, _, _) => true
  }

  /** The colour of a panel pixel when the first k strips have been drawn or skipped. */
  function DrawnColor(before: nat, m: Memory, e: Drawing, k: nat, x: int, y: int): nat {
    if e.Covers(x, y) && (y - e.Y0()) / 20 < k && Wanted(m, e, (y - e.Y0()) / 20) then e.Pixel(x - e.X0(), y - e.Y0()) else before
  }

  function Picture(screen: Screen, m: Memory, e: Drawing): Screen {
    (x: int, y: int) => DrawnColor(screen(x, y), m, e, e.Slots(), x, y)
  }

  lemma SameSourceRow(f: Frame, g: Frame, enlarged: bool, x: nat, y: nat)
    requires x < WindowWidth(enlarged) && y < WindowHeight(enlarged) && !DiffersAt(f, g, y, enlarged)
    ensures PixelOf(f, enlarged, x, y) == PixelOf(g, enlarged, x, y)
  {
    SourceInside(x, y, enlarged);
    ShadeOfRow(f, SourceX(x, enlarged), SourceY(y, enlarged));
    ShadeOfRow(g, SourceX(x, enlarged), SourceY(y, enlarged));
    hide SourceX, SourceY, Wire, Shade, RowShade, RowOf;
  }

  /** A strip without changes already shows the new frame. */
  lemma SkippedShows(screen: Screen, old': Frame, f: Frame, enlarged: bool, x: nat, y: nat)
    requires Shows(screen, old', enlarged) && x < WindowWidth(enlarged) && y < WindowHeight(enlarged)
    requires !RowsDiffer(f, old', y / 20 * 20, StripCount(y / 20 * 20, WindowHeight(enlarged)), enlarged)
    ensures screen(Left(enlarged) + x, Top(enlarged) + y) == PixelOf(f, enlarged, x, y)
  {
    hide PixelOf, DiffersAt, Left, Top;
    assert !DiffersAt(f, old', y, enlarged);
    SameSourceRow(f, old', enlarged, x, y);
  }

  /** Sending only the strips that changed gives the same window as drawing every pixel. */
  lemma IncrementalIsFull(screen: Screen, m: Memory, f: Frame, enlarged: bool)
    requires Truthful(screen, m)
    ensures Shows(Picture(screen, m, Frame(f, enlarged)), f, enlarged)
  {
    hide PixelOf, RowsDiffer, StripCount;
    var e := Frame(f, enlarged);
    var after := Picture(screen, m, e);
    forall x, y | 0 <= x < WindowWidth(enlarged) && 0 <= y < WindowHeight(enlarged)
      ensures after(Left(enlarged) + x, Top(enlarged) + y) == PixelOf(f, enlarged, x, y)
    {
      var sx, sy := Left(enlarged) + x, Top(enlarged) + y;
      assert e.Covers(sx, sy) && sy - e.Y0() == y && sx - e.X0() == x;
      assert after(sx, sy) == DrawnColor(screen(sx, sy), m, e, e.Slots(), sx, sy);
      if !Wanted(m, e, y / 20) {
        SkippedShows(screen, m.frame, f, enlarged, x, y);
      }
    }
  }

  // ----- Start-up frames.

  lemma BootPixelIsNaive(f: Frame, x: nat, y: nat)
    requires TwoTone(f) && x < 240 && y < 216
    ensures BootPixel(f, x, y) == PixelOf(f, true, x, y)
  {
    SourceInside(x, y, true);
    assert Shade(f, SourceX(x, true), SourceY(y, true)) == 0 || Shade(f, SourceX(x, true), SourceY(y, true)) == 3;
    hide Shade, SourceX, SourceY, Wire;
  }

  /** Every strip of a start-up frame is sent. */
  predicate AllBootStripsSent(m: Memory, f: Frame) {
    forall k | 0 <= k < Boot(f).Slots() :: Wanted(m, Boot(f), k)
  }

  /** A condition on the state before the call. */
  predicate BootSafe(m: Memory, f: Frame) {
    !m.valid || m.enlarged || AllBootStripsSent(m, f)
  }

  lemma BootSafeShows(screen: Screen, m: Memory, f: Frame)
    requires Truthful(screen, m) && TwoTone(f) && BootSafe(m, f)
    ensures Shows(Picture(screen, m, Boot(f)), f, true)
  {
    hide PixelOf, BootPixel, RowsDiffer, StripCount;
    var e := Boot(f);
    var after := Picture(screen, m, e);
    forall x, y | 0 <= x < 240 && 0 <= y < 216 ensures after(Left(true) + x, Top(true) + y) == PixelOf(f, true, x, y) {
      var sx, sy := Left(true) + x, Top(true) + y;
      BootPixelIsNaive(f, x, y);
      assert e.Covers(sx, sy) && sy - 52 == y && sx == x;
      assert after(sx, sy) == DrawnColor(screen(sx, sy), m, e, e.Slots(), sx, sy);
      if !Wanted(m, e, y / 20) {
        SkippedShows(screen, m.frame, f, true, x, y);
      }
    }
  }

  /** A panel that shows a frame unenlarged, and one fixed colour elsewhere. */
  function SmallPicture(f: Frame, border: nat): Screen {
    (x: int, y: int) => if Frame(f, false).Covers(x, y) then PixelOf(f, false, x - Left(false), y - Top(false)) else border
  }

  /** gb_display_boot_frame can be relied on exactly when no frame is remembered, or it was an enlarged
      one, or every strip has changed: otherwise some panel that is correctly remembered ends up wrong. */
  lemma BootFrameReliableExactlyWhen(m: Memory, f: Frame)
    requires TwoTone(f)
    ensures (forall screen: Screen | Truthful(screen, m) :: Shows(Picture(screen, m, Boot(f)), f, true)) <==> BootSafe(m, f)
  {
    hide PixelOf, BootPixel, RowsDiffer, TwoTone;
    if BootSafe(m, f) {
      forall screen: Screen | Truthful(screen, m) ensures Shows(Picture(screen, m, Boot(f)), f, true) {
        BootSafeShows(screen, m, f);
      }
    } else {
      var k :| 0 <= k < Boot(f).Slots() && !Wanted(m, Boot(f), k);
      var y := 20 * k;
      var border := PixelOf(f, true, 0, y) + 1;
      var screen := SmallPicture(m.frame, border);
      SmallIsShown(m.frame, border);
      var after := Picture(screen, m, Boot(f));
      assert after(Left(true) + 0, Top(true) + y) == screen(0, 52 + y) == border;
      assert !Shows(after, f, true);
    }
  }

  lemma SmallIsShown(f: Frame, border: nat)
    ensures Shows(SmallPicture(f, border), f, false)
  {
    hide PixelOf;
  }

  // ----- One drawing.

  /** The first k strips, one after another, until one is not sent. */
  function Treated(l: Link, m: Memory, e: Drawing, k: nat, x: nat -> StripFate): After
    requires k <= e.Slots()
  {
    if k == 0 then After(l, Ok)
    else
      var a := Treated(l, m, e, k - 1, x);
      if a.sent != Ok || !Wanted(m, e, k - 1) then a else StripSpec(a.link, e.SlotStrip(k - 1), x(k - 1))
  }

  datatype Lcd = Lcd(link: Link, memory: Memory)

  datatype Result = Result(lcd: Lcd, sent: Sent)

  /** What is remembered while a drawing is under way, and after it. */
  function MemoryDuring(m: Memory, e: Drawing): Memory {
    if e.Paint? && e.forgets then m.(valid := false) else m
  }

  function MemoryAfter(m: Memory, e: Drawing, sent: Sent): Memory {
    match e
    case Frame(f, enlarged) => if sent == Ok then Memory(true, f, enlarged) else m.(valid := false)
    case Boot(f) => if sent == Ok then Memory(true, f, true) else m.(valid := false)
    case Paint(_, _, _, _) => MemoryDuring(m, e)
  }

  function Drawn(s: Lcd, e: Drawing, x: nat -> StripFate): Result {
    var a := Treated(s.link, s.memory, e, e.Slots(), x);
    Result(Lcd(a.link, MemoryAfter(s.memory, e, a.sent)), a.sent)
  }

  lemma {:induction false} Stopped(l: Link, m: Memory, e: Drawing, k: nat, n: nat, x: nat -> StripFate)
    requires k <= n <= e.Slots() && Treated(l, m, e, k, x).sent != Ok
    ensures Treated(l, m, e, n, x) == Treated(l, m, e, k, x)
    decreases n
  {
    hide Wanted, StripSpec;
    if k < n {
      Stopped(l, m, e, k, n - 1, x);
    }
  }

  // ----- One drawing over a clean link.

  lemma Divides(w: nat, dx: nat, dy: nat)
    requires (w == 160 || w == 240) && dx < w
    ensures (dy * w + dx) % w == dx && (dy * w + dx) / w == dy
  {
    if w == 160 {
      assert (dy * 160 + dx) / 160 == dy;
    } else {
      assert (dy * 240 + dx) / 240 == dy;
    }
  }

  lemma CellIs(e: Drawing, k: nat, dx: nat, dy: nat)
    requires k < e.Slots() && dx < e.Width() && dy < e.Rows(k)
    ensures var cells, at := e.SlotStrip(k).cells, dy * e.Width() + dx;
      at < |cells| && cells[at] == e.Pixel(dx, 20 * k + dy)
  {
    Divides(e.Width(), dx, dy);
    InsideStrip(e.Width(), e.Rows(k), dx, dy);
  }

  lemma InsideStrip(w: nat, rows: nat, dx: nat, dy: nat)
    requires dx < w && dy < rows
    ensures dy * w + dx < w * rows
  {
    assert (dy + 1) * w <= rows * w;
  }

  /** A strip that was sent is one more strip of the picture... */
  lemma StripDrawn(strip: seq<nat>, before: nat, m: Memory, e: Drawing, k: nat, x: int, y: int)
    requires k < e.Slots() && Wanted(m, e, k)
    ensures var s := e.SlotStrip(k);
      ReadColor(Filled(strip, s.cells), s.rect, 0, s.rect.rows, DrawnColor(before, m, e, k, x, y), x, y) == DrawnColor(before, m, e, k + 1, x, y)
  {
    var s := e.SlotStrip(k);
    if s.rect.Contains(x, y) {
      var dx, dy := x - s.rect.x0, y - s.rect.y0;
      CellIs(e, k, dx, dy);
      SlotOf(20 * k + dy, k);
    } else if e.Covers(x, y) && (y - e.Y0()) / 20 == k {
      assert false;
    }
  }

  lemma SlotOf(y: nat, k: nat)
    requires 20 * k <= y < 20 * k + 20
    ensures y / 20 == k
  {
  }

  /** ...and so is a strip that was skipped. */
  lemma StripSkipped(before: nat, m: Memory, e: Drawing, k: nat, x: int, y: int)
    requires k < e.Slots() && !Wanted(m, e, k)
    ensures DrawnColor(before, m, e, k, x, y) == DrawnColor(before, m, e, k + 1, x, y)
  {
    hide Wanted;
  }

  /** All the strips that were to be sent among the first k ended in time. */
  predicate AllInTime(m: Memory, e: Drawing, k: nat, x: nat -> StripFate)
    requires k <= e.Slots()
  {
    forall i | 0 <= i < k && Wanted(m, e, i) :: InTime(e.SlotStrip(i), x(i))
  }

  /** Over a clean link the strips arrive as they were filled, as long as they are sent, which they are exactly
      as long as their transfers end in time; a refusal leaves the link clean, a wait given up does not. */
  lemma {:induction false} CleanStrips(l: Link, m: Memory, e: Drawing, k: nat, x: nat -> StripFate)
    requires Clean(l) && k <= e.Slots()
    ensures var a := Treated(l, m, e, k, x);
      && (a.sent == Ok <==> AllInTime(m, e, k, x))
      && (Clean(a.link) <==> a.sent != TimedOut)
      && (a.sent == Ok ==> forall i, j :: a.link.screen(i, j) == DrawnColor(l.screen(i, j), m, e, k, i, j))
      && (forall i, j | !e.Covers(i, j) :: a.link.screen(i, j) == l.screen(i, j))
    decreases k
  {
    hide Wanted, InTime, DrawnColor, StripSpec;
    if k == 0 {
      NothingDrawn(l, m, e);
    } else {
      CleanStrips(l, m, e, k - 1, x);
      var a := Treated(l, m, e, k - 1, x);
      if a.sent == Ok {
        CleanSlot(l, a.link, m, e, k - 1, x(k - 1));
      }
    }
  }

  lemma NothingDrawn(l: Link, m: Memory, e: Drawing)
    ensures forall i, j :: l.screen(i, j) == DrawnColor(l.screen(i, j), m, e, 0, i, j)
  {
    hide Wanted;
  }

  lemma CleanSlot(start: Link, l: Link, m: Memory, e: Drawing, k: nat, x: StripFate)
    requires Clean(l) && k < e.Slots() && forall i, j :: l.screen(i, j) == DrawnColor(start.screen(i, j), m, e, k, i, j)
    ensures Wanted(m, e, k) ==>
      var s := e.SlotStrip(k);
      var a := StripSpec(l, s, x);
      && (a.sent == Ok <==> InTime(s, x)) && (Clean(a.link) <==> a.sent != TimedOut)
      && (a.sent == Ok ==> forall i, j :: a.link.screen(i, j) == DrawnColor(start.screen(i, j), m, e, k + 1, i, j))
      && (forall i, j | !e.Covers(i, j) :: a.link.screen(i, j) == l.screen(i, j))
    ensures !Wanted(m, e, k) ==> forall i, j :: l.screen(i, j) == DrawnColor(start.screen(i, j), m, e, k + 1, i, j)
  {
    hide Wanted, InTime, DrawnColor, StripSpec, ReadColor;
    if Wanted(m, e, k) {
      var s := e.SlotStrip(k);
      CleanStrip(l, s, x);
      var a := StripSpec(l, s, x);
      if a.sent == Ok {
        forall i, j ensures a.link.screen(i, j) == DrawnColor(start.screen(i, j), m, e, k + 1, i, j) {
          StripDrawn(l.strip, start.screen(i, j), m, e, k, i, j);
        }
      }
    } else {
      forall i, j ensures l.screen(i, j) == DrawnColor(start.screen(i, j), m, e, k + 1, i, j) {
        StripSkipped(start.screen(i, j), m, e, k, i, j);
      }
    }
  }

  lemma SamePicture(a: Screen, b: Screen, f: Frame, enlarged: bool)
    requires Shows(a, f, enlarged) && forall x, y :: b(x, y) == a(x, y)
    ensures Shows(b, f, enlarged)
  {
    hide PixelOf;
  }

  /** Overlays stay below the game window; start-up frames have two tones and can be drawn over what is remembered. */
  predicate Fit(m: Memory, e: Drawing) {
    && (e.Paint? && !e.forgets ==> e.first >= 268)
    && (e.Boot? ==> TwoTone(e.frame) && BootSafe(m, e.frame))
  }

  /** A fit drawing over a clean link keeps what is remembered true, however its transfers go; and if all are
      sent, a frame is on the panel at every pixel. */
  lemma DrawnIsShown(s: Lcd, e: Drawing, x: nat -> StripFate)
    requires Clean(s.link) && Truthful(s.link.screen, s.memory) && Fit(s.memory, e)
    ensures var r := Drawn(s, e, x);
      && Truthful(r.lcd.link.screen, r.lcd.memory) && (Clean(r.lcd.link) <==> r.sent != TimedOut)
      && (r.sent == Ok <==> AllInTime(s.memory, e, e.Slots(), x))
      && (r.sent == Ok && e.Frame? ==> Shows(r.lcd.link.screen, e.frame, e.enlarged))
      && (r.sent == Ok && e.Boot? ==> Shows(r.lcd.link.screen, e.frame, true))
  {
    hide Treated, Shows, DrawnColor, AllInTime, BootSafe, TwoTone;
    CleanStrips(s.link, s.memory, e, e.Slots(), x);
    var a := Treated(s.link, s.memory, e, e.Slots(), x);
    match e
    case Frame(f, enlarged) =>
      if a.sent == Ok {
        IncrementalIsFull(s.link.screen, s.memory, f, enlarged);
        SamePicture(Picture(s.link.screen, s.memory, e), a.link.screen, f, enlarged);
      }
    case Boot(f) =>
      if a.sent == Ok {
        BootSafeShows(s.link.screen, s.memory, f);
        SamePicture(Picture(s.link.screen, s.memory, e), a.link.screen, f, true);
      }
    case Paint(_, first, _, _) =>
      if !e.forgets {
        OverlayKeepsTruth(s.link.screen, a.link.screen, s.memory, e);
      }
  }

  lemma OverlayKeepsTruth(start: Screen, screen: Screen, m: Memory, e: Drawing)
    requires e.Paint? && e.first >= 268 && forall x, y | !e.Covers(x, y) :: screen(x, y) == start(x, y)
    ensures Truthful(start, m) ==> Truthful(screen, m)
  {
    hide PixelOf;
  }

  // ----- A link that has lost count.

  /** Whatever the transfers of the next frame do, if it is reported as drawn then the panel shows it. */
  ghost predicate Reliable(s: Lcd) {
    forall f: Frame, enlarged: bool, x: nat -> StripFate :: ShownIfReported(s, f, enlarged, x)
  }

  predicate ShownIfReported(s: Lcd, f: Frame, enlarged: bool, x: nat -> StripFate) {
    var r := Drawn(s, Frame(f, enlarged), x);
    r.sent == Ok ==> Shows(r.lcd.link.screen, f, enlarged)
  }

  /** Light in the first source row, dark below. */
  function LightOverDark(): Frame {
    seq(5760, i => if i < 40 then 0 else 255)
  }

  lemma LightThenDark(enlarged: bool)
    ensures PixelOf(LightOverDark(), enlarged, 0, 0) == Wire(0) && PixelOf(LightOverDark(), enlarged, 0, 20) == Wire(3)
    ensures Wire(0) != Wire(3)
  {
    assert SourceY(20, enlarged) >= 13;
  }

  /** Each transfer ends only while the next strip is already being filled. */
  function Lagging(rows: nat): nat -> StripFate {
    (k: nat) => if k == 0 then StripFate(rows, Queued(0)) else StripFate(0, Queued(STRIP_ROWS))
  }

  /** Over a link that has lost count, strip k is read from the buffer that holds strip k + 1: all sends are
      reported as done, and the first pixel of the panel window has the colour of the second strip. */
  lemma {:induction false} LagRepeats(l: Link, m: Memory, f: Frame, enlarged: bool, k: nat)
    requires !Clean(l) && m.enlarged != enlarged && 0 < k <= Frame(f, enlarged).Slots()
    ensures var e := Frame(f, enlarged);
      var a := Treated(l, m, e, k, Lagging(Unread(l.pending)));
      && a.sent == Ok && !a.link.token && a.link.pending == [Transfer(e.SlotStrip(k - 1).rect, 0)]
      && (k > 1 ==> a.link.screen(Left(enlarged), Top(enlarged)) == PixelOf(f, enlarged, 0, 20))
  {
    hide PixelOf, ReadColor, StripSpec, RowsDiffer;
    var e, x := Frame(f, enlarged), Lagging(Unread(l.pending));
    if k == 1 {
      assert Treated(l, m, e, 0, x) == After(l, Ok);
      StrayToken(l, e.SlotStrip(0));
    } else {
      LagRepeats(l, m, f, enlarged, k - 1);
      var a := Treated(l, m, e, k - 1, x);
      LaggingStrip(a.link, e.SlotStrip(k - 2).rect, e.SlotStrip(k - 1));
      SecondOverFirst(a.link.strip, f, enlarged, k, a.link.screen(Left(enlarged), Top(enlarged)));
    }
  }

  lemma SecondOverFirst(strip: seq<nat>, f: Frame, enlarged: bool, k: nat, before: nat)
    requires 1 < k <= Frame(f, enlarged).Slots() && (k > 2 ==> before == PixelOf(f, enlarged, 0, 20))
    ensures var e := Frame(f, enlarged);
      ReadColor(Filled(strip, e.SlotStrip(k - 1).cells), e.SlotStrip(k - 2).rect, 0, e.Rows(k - 2), before, Left(enlarged), Top(enlarged))
        == PixelOf(f, enlarged, 0, 20)
  {
    hide PixelOf;
    CellIs(Frame(f, enlarged), k - 1, 0, 0);
  }

  /** So a frame is reported as drawn and remembered that the panel does not show. */
  lemma LateTransferDeceives(s: Lcd)
    requires !Clean(s.link)
    ensures var f, enlarged := LightOverDark(), !s.memory.enlarged;
      var r := Drawn(s, Frame(f, enlarged), Lagging(Unread(s.link.pending)));
      r.sent == Ok && r.lcd.memory == Memory(true, f, enlarged) && !Shows(r.lcd.link.screen, f, enlarged)
  {
    var f, enlarged := LightOverDark(), !s.memory.enlarged;
    hide PixelOf, Treated, LightOverDark, Wire;
    LagRepeats(s.link, s.memory, f, enlarged, Frame(f, enlarged).Slots());
    LightThenDark(enlarged);
    var screen := Drawn(s, Frame(f, enlarged), Lagging(Unread(s.link.pending))).lcd.link.screen;
    assert screen(Left(enlarged) + 0, Top(enlarged) + 0) != PixelOf(f, enlarged, 0, 0);
  }

  lemma Remembered(l: Link, m: Memory, k: nat, x: nat -> StripFate)
    requires m.valid && k <= Frame(m.frame, m.enlarged).Slots()
    ensures Treated(l, m, Frame(m.frame, m.enlarged), k, x) == After(l, Ok)
  {
    hide StripSpec;
  }

  const PROMPT: nat -> StripFate := (k: nat) => StripFate(0, Queued(STRIP_ROWS))

  /** The driver can be relied on exactly when no transfer is unaccounted for and what it remembers is true. */
  lemma ReliableExactlyWhen(s: Lcd)
    ensures Reliable(s) <==> Clean(s.link) && Truthful(s.link.screen, s.memory)
  {
    hide Drawn, Shows;
    if Clean(s.link) && Truthful(s.link.screen, s.memory) {
      forall f: Frame, enlarged: bool, x: nat -> StripFate ensures ShownIfReported(s, f, enlarged, x) {
        DrawnIsShown(s, Frame(f, enlarged), x);
      }
    } else if !Clean(s.link) {
      LateTransferDeceives(s);
      assert !ShownIfReported(s, LightOverDark(), !s.memory.enlarged, Lagging(Unread(s.link.pending)));
    } else {
      SameFrameAgain(s);
      assert !ShownIfReported(s, s.memory.frame, s.memory.enlarged, PROMPT);
    }
  }

  lemma SameFrameAgain(s: Lcd)
    requires s.memory.valid
    ensures var e := Frame(s.memory.frame, s.memory.enlarged); Drawn(s, e, PROMPT).sent == Ok && Drawn(s, e, PROMPT).lcd.link == s.link
  {
    hide Treated;
    Remembered(s.link, s.memory, Frame(s.memory.frame, s.memory.enlarged).Slots(), PROMPT);
  }

  // ----- Runs of drawing.

  datatype Act = Act(drawing: Drawing, fates: nat -> StripFate)

  function DrawnAll(s: Lcd, run: seq<Act>): Lcd {
    if run == [] then s else Drawn(DrawnAll(s, run[..|run| - 1]), run[|run| - 1].drawing, run[|run| - 1].fates).lcd
  }

  /** How the last drawing of a run went. */
  function LastSent(s: Lcd, run: seq<Act>): Sent
    requires run != []
  {
    Drawn(DrawnAll(s, run[..|run| - 1]), run[|run| - 1].drawing, run[|run| - 1].fates).sent
  }

  predicate FitRun(s: Lcd, run: seq<Act>) {
    run == [] || (FitRun(s, run[..|run| - 1]) && Fit(DrawnAll(s, run[..|run| - 1]).memory, run[|run| - 1].drawing))
  }

  /** No wait for a transfer is given up. Sends may be refused anywhere. */
  predicate NeverTimesOut(s: Lcd, run: seq<Act>) {
    run == [] || (NeverTimesOut(s, run[..|run| - 1]) && LastSent(s, run) != TimedOut)
  }

  /** In every such run, whenever a frame is remembered the panel shows it, pixel for pixel. */
  lemma {:induction false} RememberedIsShown(s: Lcd, run: seq<Act>)
    requires Clean(s.link) && Truthful(s.link.screen, s.memory) && FitRun(s, run) && NeverTimesOut(s, run)
    ensures var t := DrawnAll(s, run); Truthful(t.link.screen, t.memory) && Clean(t.link)
  {
    hide Truthful, Fit, Drawn, Clean;
    if run != [] {
      var front := run[..|run| - 1];
      RememberedIsShown(s, front);
      DrawnIsShown(DrawnAll(s, front), run[|run| - 1].drawing, run[|run| - 1].fates);
    }
  }

  ghost predicate AlwaysReliable(s: Lcd, run: seq<Act>) {
    Reliable(DrawnAll(s, run)) && (run == [] || AlwaysReliable(s, run[..|run| - 1]))
  }

  /** The driver stays reliable over a run exactly as long as no wait is given up. */
  lemma {:induction false} ReliableRunExactlyWhen(s: Lcd, run: seq<Act>)
    requires Clean(s.link) && Truthful(s.link.screen, s.memory) && FitRun(s, run)
    ensures AlwaysReliable(s, run) <==> NeverTimesOut(s, run)
  {
    hide Truthful, Fit, Drawn, Clean, Reliable;
    ReliableExactlyWhen(DrawnAll(s, run));
    if run != [] {
      var front := run[..|run| - 1];
      ReliableRunExactlyWhen(s, front);
      if NeverTimesOut(s, front) {
        RememberedIsShown(s, front);
        DrawnIsShown(DrawnAll(s, front), run[|run| - 1].drawing, run[|run| - 1].fates);
      }
    }
  }

  // ----- How long it lasts.

  function StripsUnseen(l: Link, m: Memory, e: Drawing, k: nat, x: nat -> StripFate): nat
    requires k <= e.Slots()
  {
    if k == 0 then 0
    else
      var a := Treated(l, m, e, k - 1, x);
      StripsUnseen(l, m, e, k - 1, x)
        + if a.sent != Ok || !Wanted(m, e, k - 1) then 0 else StripUnseen(a.link, e.SlotStrip(k - 1), x(k - 1))
  }

  /** Waits given up in a run, and ends of transfers that found the semaphore given already. */
  function TimeOuts(s: Lcd, run: seq<Act>): nat {
    if run == [] then 0 else TimeOuts(s, run[..|run| - 1]) + if LastSent(s, run) == TimedOut then 1 else 0
  }

  function UnseenEnds(s: Lcd, run: seq<Act>): nat {
    if run == [] then 0
    else
      var t, a := DrawnAll(s, run[..|run| - 1]), run[|run| - 1];
      UnseenEnds(s, run[..|run| - 1]) + StripsUnseen(t.link, t.memory, a.drawing, a.drawing.Slots(), a.fates)
  }

  lemma {:induction false} StripsConserve(l: Link, m: Memory, e: Drawing, k: nat, x: nat -> StripFate)
    requires k <= e.Slots()
    ensures var a := Treated(l, m, e, k, x);
      Debt(a.link) + StripsUnseen(l, m, e, k, x) == Debt(l) + if a.sent == TimedOut then 1 else 0
  {
    hide Wanted, StripSpec, StripUnseen, Debt;
    if k > 0 {
      StripsConserve(l, m, e, k - 1, x);
      StripConserves(Treated(l, m, e, k - 1, x).link, e.SlotStrip(k - 1), x(k - 1));
    }
  }

  /** Over every run, the ends of transfers that are out of step are those at the start and one for every wait
      given up, less the ones that found the semaphore given already: nothing else brings it back. */
  lemma {:induction false} CountIsConserved(s: Lcd, run: seq<Act>)
    ensures Debt(DrawnAll(s, run).link) + UnseenEnds(s, run) == Debt(s.link) + TimeOuts(s, run)
  {
    hide Treated, StripsUnseen, Debt;
    if run != [] {
      var front, a := run[..|run| - 1], run[|run| - 1];
      CountIsConserved(s, front);
      var t := DrawnAll(s, front);
      StripsConserve(t.link, t.memory, a.drawing, a.drawing.Slots(), a.fates);
    }
  }

  /** From a clean link, the link is clean again exactly when as many ends went unseen as waits were given up. */
  lemma CleanAgainExactlyWhen(s: Lcd, run: seq<Act>)
    requires Clean(s.link)
    ensures Clean(DrawnAll(s, run).link) <==> UnseenEnds(s, run) == TimeOuts(s, run)
    ensures UnseenEnds(s, run) <= TimeOuts(s, run)
  {
    CountIsConserved(s, run);
    hide DrawnAll, UnseenEnds, TimeOuts;
  }

  /** The order of game_main.c: the start-up animation clears the panel before its first frame, and games
      are drawn enlarged, so no frame of another size is ever remembered and start-up frames can be relied on. */
  predicate Shipped(run: seq<Act>) {
    forall i | 0 <= i < |run| :: ShippedDrawing(run[i].drawing)
  }

  predicate ShippedDrawing(e: Drawing) {
    && (e.Frame? ==> e.enlarged)
    && (e.Boot? ==> TwoTone(e.frame))
    && (e.Paint? && !e.forgets ==> e.first >= 268)
  }

  lemma {:induction false} ShippedIsFit(s: Lcd, run: seq<Act>)
    requires !s.memory.valid && Shipped(run)
    ensures FitRun(s, run)
    ensures var m := DrawnAll(s, run).memory; m.valid ==> m.enlarged
  {
    hide TwoTone, AllBootStripsSent, Treated;
    if run != [] {
      var front := run[..|run| - 1];
      assert Shipped(front);
      ShippedIsFit(s, front);
      assert ShippedDrawing(run[|run| - 1].drawing);
      hide Shipped;
    }
  }

  /** One wait given up is enough. */
  lemma OneTimeOutIsEnough(s: Lcd, paint: Screen)
    requires Clean(s.link)
    ensures var r := Drawn(s, Paint(true, 0, LCD_H, paint), (k: nat) => StripFate(0, Queued(0)));
      r.sent == TimedOut && !Reliable(r.lcd)
  {
    hide Treated, Reliable, Truthful;
    var e, x := Paint(true, 0, LCD_H, paint), (k: nat) => StripFate(0, Queued(0));
    FirstTimesOut(s.link, s.memory, paint, x);
    Stopped(s.link, s.memory, e, 1, e.Slots(), x);
    CleanStrips(s.link, s.memory, e, e.Slots(), x);
    ReliableExactlyWhen(Drawn(s, e, x).lcd);
  }

  lemma FirstTimesOut(l: Link, m: Memory, paint: Screen, x: nat -> StripFate)
    requires Clean(l) && x(0) == StripFate(0, Queued(0))
    ensures Treated(l, m, Paint(true, 0, LCD_H, paint), 1, x).sent == TimedOut
  {
    assert Treated(l, m, Paint(true, 0, LCD_H, paint), 0, x) == After(l, Ok);
    CleanStrip(l, Paint(true, 0, LCD_H, paint).SlotStrip(0), x(0));
    hide StripSpec;
  }

  // ----- The driver.

  lemma RowPixel(f: Frame, enlarged: bool, x: nat, y: nat)
    requires x < WindowWidth(enlarged) && y < WindowHeight(enlarged)
    ensures SourceX(x, enlarged) < WIDTH && SourceY(y, enlarged) < HEIGHT
    ensures PixelOf(f, enlarged, x, y) == Wire(RowShade(RowOf(f, SourceY(y, enlarged)), SourceX(x, enlarged)))
  {
    SourceInside(x, y, enlarged);
    ShadeOfRow(f, SourceX(x, enlarged), SourceY(y, enlarged));
    hide SourceX, SourceY, Wire, Shade, RowShade, RowOf;
  }

  /** Row d of strip k stands in the buffer. */
  predicate RowAt(strip: seq<nat>, e: Drawing, k: nat, d: nat) {
    var base := d * e.Width();
    base + e.Width() <= |strip| && forall i | base <= i < base + e.Width() :: strip[i] == e.Pixel(i - base, 20 * k + d)
  }

  /** All rows of strip k, and the rest of the buffer as it was. */
  predicate Holds(strip: seq<nat>, before: seq<nat>, e: Drawing, k: nat)
    requires k < e.Slots()
  {
    && |strip| == |before|
    && (forall d | 0 <= d < e.Rows(k) :: RowAt(strip, e, k, d))
    && (forall i | e.Width() * e.Rows(k) <= i < |strip| :: strip[i] == before[i])
  }

  lemma HeldIsFilled(strip: seq<nat>, before: seq<nat>, e: Drawing, k: nat)
    requires k < e.Slots() && |before| == LCD_W * STRIP_ROWS && Holds(strip, before, e, k)
    ensures strip == Filled(before, e.SlotStrip(k).cells)
  {
    var cells := e.SlotStrip(k).cells;
    forall i | 0 <= i < |cells| ensures strip[i] == cells[i] {
      HeldCell(strip, before, e, k, i);
    }
    hide Holds;
  }

  lemma HeldCell(strip: seq<nat>, before: seq<nat>, e: Drawing, k: nat, i: nat)
    requires k < e.Slots() && |before| == LCD_W * STRIP_ROWS && Holds(strip, before, e, k) && i < |e.SlotStrip(k).cells|
    ensures strip[i] == e.SlotStrip(k).cells[i]
  {
    hide Drawing.Pixel;
    var d := i / e.Width();
    RowOfCell(e.Width(), e.Rows(k), i);
    assert RowAt(strip, e, k, d);
  }

  lemma RowOfCell(w: nat, rows: nat, i: nat)
    requires (w == 160 || w == 240) && i < w * rows
    ensures i / w < rows && i / w * w <= i < i / w * w + w && i % w == i - i / w * w
  {
    if w == 160 {
      assert i < 160 * rows;
    } else {
      assert i < 240 * rows;
    }
  }

  class Panel {
    var screen: Screen
    const strip: array<nat>
    var pending: seq<Transfer>
    /** s_done can be taken. */
    var token: bool
    var previousFrame: Frame
    var previousValid: bool
    var previousEnlarged: bool

    function Remembered(): Memory
      reads this
    {
      Memory(previousValid, previousFrame, previousEnlarged)
    }

    function OnTheWire(): Link
      reads this, strip
    {
      Link(screen, strip[..], pending, token)
    }

    function Now(): Lcd
      reads this, strip
    {
      Lcd(OnTheWire(), Remembered())
    }

    constructor (screen: Screen)
      ensures this.screen == screen && strip.Length == LCD_W * STRIP_ROWS && fresh(strip)
      ensures !previousValid && Clean(OnTheWire())
    {
      this.screen := screen;
      strip := new nat[LCD_W * STRIP_ROWS](_ => 0);
      previousFrame, previousValid, previousEnlarged, pending, token := seq(5760, _ => 0), false, false, [], false;
    }

    /** The transfers under way read this many rows; transfer_done gives the semaphore at the end of each. */
    method Dma(rows: nat)
      modifies this`screen, this`pending, this`token
      ensures OnTheWire() == Advance(old(OnTheWire()), rows)
    {
      for n := 0 to rows
        invariant Advance(OnTheWire(), rows - n) == Advance(old(OnTheWire()), rows)
      {
        if pending != [] {
          var t, cells, before := pending[0], strip[..], screen;
          ghost var l := OnTheWire();
          screen := ReadRow(OnTheWire()).screen;
          if t.read + 1 >= t.rect.rows {
            pending, token := pending[1..], true;
          } else {
            pending := [t.(read := t.read + 1)] + pending[1..];
          }
          assert OnTheWire() == ReadRow(l);
        }
      }
    }

    /** send_strip: the transfer is queued, and the wait takes whatever token there is. */
    method SendStrip(r: Rect, x: SendFate) returns (sent: Sent)
      modifies this`screen, this`pending, this`token
      ensures After(OnTheWire(), sent) == SendSpec(old(OnTheWire()), r, x)
    {
      match x
      case Refused(noise) =>
        screen := Spoilt(screen, r, noise);
        return Refusal;
      case Queued(rows) =>
        pending := pending + [Transfer(r, 0)];
        Dma(rows);
        if !token {
          return TimedOut;
        }
        token := false;
        sent := Ok;
    }

    method RepeatRow(frame: Frame, k: nat, dy: nat)
      requires strip.Length == LCD_W * STRIP_ROWS && 0 < dy < STRIP_ROWS && 20 * k + dy < 216
      requires SourceY(20 * k + dy, true) == SourceY(20 * k + dy - 1, true) && RowAt(strip[..], Frame(frame, true), k, dy - 1)
      modifies strip
      ensures RowAt(strip[..], Frame(frame, true), k, dy)
      ensures forall i | 0 <= i < strip.Length && !(dy * 240 <= i < dy * 240 + 240) :: strip[i] == old(strip[i])
    {
      hide PixelOf, SourceX, SourceY, Wire, RowShade, RowOf;
      var base := dy * 240;
      ghost var before := strip[..];
      forall i | base <= i < base + 240 {
        strip[i] := strip[i - 240];
      }
      forall i | base <= i < base + 240 ensures strip[..][i] == Frame(frame, true).Pixel(i - base, 20 * k + dy) {
        RowPixel(frame, true, i - base, 20 * k + dy);
        RowPixel(frame, true, i - base, 20 * k + dy - 1);
        assert before[i - 240] == Frame(frame, true).Pixel(i - base, 20 * k + dy - 1);
      }
    }

    method EnlargeRow(frame: Frame, k: nat, dy: nat)
      requires strip.Length == LCD_W * STRIP_ROWS && dy < STRIP_ROWS && 20 * k + dy < 216
      modifies strip
      ensures RowAt(strip[..], Frame(frame, true), k, dy)
      ensures forall i | 0 <= i < strip.Length && !(dy * 240 <= i < dy * 240 + 240) :: strip[i] == old(strip[i])
    {
      var base := dy * 240;
      var sy := SourceY(20 * k + dy, true);
      SourceInside(0, 20 * k + dy, true);
      ExpandRow(frame[sy * 40..sy * 40 + 40], strip, base);
      assert frame[sy * 40..sy * 40 + 40] == RowOf(frame, sy);
      hide PixelOf, SourceX, SourceY, Wire, RowShade, RowOf;
      forall i | base <= i < base + 240 ensures strip[..][i] == Frame(frame, true).Pixel(i - base, 20 * k + dy) {
        RowPixel(frame, true, i - base, 20 * k + dy);
        assert strip[base + (i - base)] == Wire(RowShade(RowOf(frame, sy), SourceX(i - base, true)));
      }
    }

    /** The enlarged rows of a strip: each source row is expanded once and copied to its repeats. */
    method FillEnlarged(frame: Frame, k: nat)
      requires strip.Length == LCD_W * STRIP_ROWS && k < Frame(frame, true).Slots()
      modifies strip
      ensures strip[..] == Filled(old(strip[..]), Frame(frame, true).SlotStrip(k).cells)
    {
      hide PixelOf, SourceY, RowAt;
      ghost var start := strip[..];
      var count := Frame(frame, true).Rows(k);
      var previousSy: int := -1;
      for dy := 0 to count
        invariant forall d | 0 <= d < dy :: RowAt(strip[..], Frame(frame, true), k, d)
        invariant previousSy == if dy == 0 then -1 else SourceY(20 * k + dy - 1, true)
        invariant forall i | 240 * dy <= i < strip.Length :: strip[i] == start[i]
      {
        var sy := SourceY(20 * k + dy, true);
        ghost var before := strip[..];
        if sy == previousSy {
          assert RowAt(before, Frame(frame, true), k, dy - 1);
          RepeatRow(frame, k, dy);
        } else {
          EnlargeRow(frame, k, dy);
        }
        RowsStay(before, strip[..], Frame(frame, true), k, dy);
        previousSy := sy;
      }
      HeldIsFilled(strip[..], start, Frame(frame, true), k);
    }

    /** The rows of a strip at the original size, pixel by pixel. */
    method FillSmall(frame: Frame, k: nat)
      requires strip.Length == LCD_W * STRIP_ROWS && k < Frame(frame, false).Slots()
      modifies strip
      ensures strip[..] == Filled(old(strip[..]), Frame(frame, false).SlotStrip(k).cells)
    {
      hide RowAt;
      ghost var start := strip[..];
      var count := Frame(frame, false).Rows(k);
      for dy := 0 to count
        invariant forall d | 0 <= d < dy :: RowAt(strip[..], Frame(frame, false), k, d)
        invariant forall i | 160 * dy <= i < strip.Length :: strip[i] == start[i]
      {
        ghost var before := strip[..];
        SmallRow(frame, k, dy);
        RowsStay(before, strip[..], Frame(frame, false), k, dy);
      }
      HeldIsFilled(strip[..], start, Frame(frame, false), k);
    }

    method SmallRow(frame: Frame, k: nat, dy: nat)
      requires strip.Length == LCD_W * STRIP_ROWS && dy < STRIP_ROWS && 20 * k + dy < 144
      modifies strip
      ensures RowAt(strip[..], Frame(frame, false), k, dy)
      ensures forall i | 0 <= i < strip.Length && !(dy * 160 <= i < dy * 160 + 160) :: strip[i] == old(strip[i])
    {
      var base := dy * 160;
      for dx := 0 to 160
        invariant forall i | base <= i < base + dx :: strip[i] == Frame(frame, false).Pixel(i - base, 20 * k + dy)
        invariant forall i | 0 <= i < strip.Length && !(base <= i < base + 160) :: strip[i] == old(strip[i])
      {
        strip[base + dx] := Wire(Shade(frame, dx, 20 * k + dy));
      }
    }

    /** The rows of a start-up strip, in two colours. */
    method FillBoot(frame: Frame, k: nat)
      requires strip.Length == LCD_W * STRIP_ROWS && k < Boot(frame).Slots()
      modifies strip
      ensures strip[..] == Filled(old(strip[..]), Boot(frame).SlotStrip(k).cells)
    {
      hide RowAt;
      ghost var start := strip[..];
      var count := Boot(frame).Rows(k);
      for y := 0 to count
        invariant forall d | 0 <= d < y :: RowAt(strip[..], Boot(frame), k, d)
        invariant forall i | 240 * y <= i < strip.Length :: strip[i] == start[i]
      {
        ghost var before := strip[..];
        BootRow(frame, k, y);
        RowsStay(before, strip[..], Boot(frame), k, y);
      }
      HeldIsFilled(strip[..], start, Boot(frame), k);
    }

    method BootRow(frame: Frame, k: nat, y: nat)
      requires strip.Length == LCD_W * STRIP_ROWS && y < STRIP_ROWS && 20 * k + y < 216
      modifies strip
      ensures RowAt(strip[..], Boot(frame), k, y)
      ensures forall i | 0 <= i < strip.Length && !(y * 240 <= i < y * 240 + 240) :: strip[i] == old(strip[i])
    {
      var base := y * 240;
      for x := 0 to 240
        invariant forall i | base <= i < base + x :: strip[i] == Boot(frame).Pixel(i - base, 20 * k + y)
        invariant forall i | 0 <= i < strip.Length && !(base <= i < base + 240) :: strip[i] == old(strip[i])
      {
        SourceInside(x, 20 * k + y, true);
        var dark := Shade(frame, SourceX(x, true), SourceY(20 * k + y, true)) != 0;
        strip[base + x] := Wire(if dark then 3 else 0);
      }
    }

    /** A strip of some other picture. */
    method FillPainted(e: Drawing, k: nat)
      requires strip.Length == LCD_W * STRIP_ROWS && e.Paint? && k < e.Slots()
      modifies strip
      ensures strip[..] == Filled(old(strip[..]), e.SlotStrip(k).cells)
    {
      ghost var start := strip[..];
      forall i | 0 <= i < LCD_W * e.Rows(k) {
        strip[i] := e.paint(i % LCD_W, e.first + 20 * k + i / LCD_W);
      }
      ghost var cells := e.SlotStrip(k).cells;
      assert forall i | 0 <= i < |cells| :: strip[..][i] == cells[i];
      assert strip[..] == Filled(start, cells);
    }

    /** gb_display_frame: strip by changed strip; a strip that is not sent makes the driver forget what the
        panel shows. */
    method DrawFrame(frame: Frame, enlarged: bool, x: nat -> StripFate) returns (sent: Sent)
      requires strip.Length == LCD_W * STRIP_ROWS
      modifies this, strip
      ensures Result(Now(), sent) == Drawn(old(Now()), Frame(frame, enlarged), x)
    {
      hide StripSpec, RowsDiffer;
      var height := WindowHeight(enlarged);
      var e := Frame(frame, enlarged);
      ghost var l, m := OnTheWire(), Remembered();
      var k := 0;
      while 20 * k < height
        invariant 0 <= k <= e.Slots() && Remembered() == m
        invariant After(OnTheWire(), Ok) == Treated(l, m, e, k, x)
      {
        var row := 20 * k;
        var count := StripCount(row, height);
        var changed := true;
        if previousValid && previousEnlarged == enlarged {
          changed := StripChanged(frame, previousFrame, row, count, enlarged);
        }
        if changed {
          sent := DrawStrip(e, k, x(k));
          if sent != Ok {
            Stopped(l, m, e, k + 1, e.Slots(), x);
            previousValid := false;
            return sent;
          }
        }
        k := k + 1;
      }
      previousFrame, previousEnlarged, previousValid := frame, enlarged, true;
      sent := Ok;
    }

    /** One strip is filled, while earlier transfers go on, and sent. */
    method DrawStrip(e: Drawing, k: nat, x: StripFate) returns (sent: Sent)
      requires strip.Length == LCD_W * STRIP_ROWS && k < e.Slots()
      modifies this`screen, this`pending, this`token, strip
      ensures After(OnTheWire(), sent) == StripSpec(old(OnTheWire()), e.SlotStrip(k), x)
    {
      Dma(x.idle);
      ghost var l := OnTheWire();
      match e {
        case Frame(frame, enlarged) =>
          if enlarged {
            FillEnlarged(frame, k);
          } else {
            FillSmall(frame, k);
          }
        case Boot(frame) => FillBoot(frame, k);
        case Paint(_, _, _, _) => FillPainted(e, k);
      }
      assert OnTheWire() == l.(strip := Filled(l.strip, e.SlotStrip(k).cells));
      sent := SendStrip(Rect(e.X0(), e.Y0() + 20 * k, e.Width(), e.Rows(k)), x.send);
    }

    /** gb_display_boot_frame */
    method DrawBootFrame(frame: Frame, x: nat -> StripFate) returns (sent: Sent)
      requires strip.Length == LCD_W * STRIP_ROWS
      modifies this, strip
      ensures Result(Now(), sent) == Drawn(old(Now()), Boot(frame), x)
    {
      hide StripSpec, RowsDiffer;
      var e := Boot(frame);
      ghost var l, m := OnTheWire(), Remembered();
      var k := 0;
      while 20 * k < 216
        invariant 0 <= k <= e.Slots() && Remembered() == m
        invariant After(OnTheWire(), Ok) == Treated(l, m, e, k, x)
      {
        var row := 20 * k;
        var count := StripCount(row, 216);
        var changed := true;
        if previousValid {
          changed := StripChanged(frame, previousFrame, row, count, true);
        }
        if changed {
          sent := DrawStrip(e, k, x(k));
          if sent != Ok {
            Stopped(l, m, e, k + 1, e.Slots(), x);
            previousValid := false;
            return sent;
          }
        }
        k := k + 1;
      }
      previousFrame, previousEnlarged, previousValid := frame, true, true;
      sent := Ok;
    }

    /** The loop of every other screen: rows of some picture, twenty at a time. */
    method DrawRows(e: Drawing, ghost m: Memory, x: nat -> StripFate) returns (sent: Sent)
      requires strip.Length == LCD_W * STRIP_ROWS && e.Paint?
      modifies this`screen, this`pending, this`token, strip
      ensures After(OnTheWire(), sent) == Treated(old(OnTheWire()), m, e, e.Slots(), x)
    {
      hide StripSpec;
      ghost var l := OnTheWire();
      var k := 0;
      while e.first + 20 * k < e.end
        invariant 0 <= k <= e.Slots()
        invariant After(OnTheWire(), Ok) == Treated(l, m, e, k, x)
        decreases e.end - 20 * k
      {
        sent := DrawStrip(e, k, x(k));
        if sent != Ok {
          Stopped(l, m, e, k + 1, e.Slots(), x);
          return sent;
        }
        k := k + 1;
      }
      sent := Ok;
    }

    /** Drawing rows beside the game: the footer starts at 289, the hint at 272. */
    method DrawBelow(first: nat, paint: Screen, x: nat -> StripFate) returns (sent: Sent)
      requires strip.Length == LCD_W * STRIP_ROWS
      modifies this`screen, this`pending, this`token, strip
      ensures Result(Now(), sent) == Drawn(old(Now()), Paint(false, first, LCD_H, paint), x)
    {
      hide Treated;
      sent := DrawRows(Paint(false, first, LCD_H, paint), Remembered(), x);
    }

    /** Clearing, menus, the gamepad test (all rows) and colour frames (rows 52 to 268) forget the frame first. */
    method Repaint(first: nat, end: nat, paint: Screen, x: nat -> StripFate) returns (sent: Sent)
      requires strip.Length == LCD_W * STRIP_ROWS
      modifies this, strip
      ensures Result(Now(), sent) == Drawn(old(Now()), Paint(true, first, end, paint), x)
    {
      hide Treated;
      ghost var m := Remembered();
      previousValid := false;
      sent := DrawRows(Paint(true, first, end, paint), m, x);
    }
  }

  lemma RowsStay(before: seq<nat>, after: seq<nat>, e: Drawing, k: nat, dy: nat)
    requires |before| == |after| && forall i | 0 <= i < |after| && !(dy * e.Width() <= i < dy * e.Width() + e.Width()) :: after[i] == before[i]
    ensures forall d | 0 <= d < dy && RowAt(before, e, k, d) :: RowAt(after, e, k, d)
  {
    hide Drawing.Pixel;
    forall d | 0 <= d < dy && RowAt(before, e, k, d) ensures RowAt(after, e, k, d) {
      RowBefore(d, dy, e.Width());
    }
  }

  lemma RowBefore(d: nat, dy: nat, w: nat)
    requires d < dy && (w == 160 || w == 240)
    ensures d * w + w <= dy * w
  {
    if w == 160 {
      assert d * 160 + 160 <= dy * 160;
    } else {
      assert d * 240 + 240 <= dy * 240;
    }
  }
}
