/** The way of a strip to the panel (main/gb_display.c:51-66): the strip buffer, the transfers that read it,
    and the binary semaphore that each of them gives at its end.

    A transfer reads the buffer row by row and in its own time; the processor only waits for the
    semaphore. How far the transfers get between two steps of the processor is an argument. */
module LcdLink {
  import opened Bytes

  const LCD_W := 240
  const LCD_H := 320
  const STRIP_ROWS := 20

  type Screen = (int, int) -> nat

  datatype Rect = Rect(x0: nat, y0: nat, width: nat, rows: nat) {
    predicate Contains(x: int, y: int) { x0 <= x < x0 + width && y0 <= y < y0 + rows }
  }

  /** A transfer under way, and how many of its rows have been read. */
  datatype Transfer = Transfer(rect: Rect, read: nat)

  /** The panel, the strip buffer, the transfers under way in order, and whether s_done can be taken. */
  datatype Link = Link(screen: Screen, strip: seq<nat>, pending: seq<Transfer>, token: bool)

  /** No transfer is under way that nobody waits for, and no token waits that nobody is owed. */
  predicate Clean(l: Link) {
    l.pending == [] && !l.token
  }

  function Cell(strip: seq<nat>, at: int): nat {
    if 0 <= at < |strip| then strip[at] else 0
  }

  /** The colour of a panel pixel after the rows [from, to) of a transfer have been read. */
  function ReadColor(strip: seq<nat>, r: Rect, from: nat, to: nat, before: nat, x: int, y: int): nat {
    if r.x0 <= x < r.x0 + r.width && r.y0 + from <= y < r.y0 + to then Cell(strip, (y - r.y0) * r.width + (x - r.x0)) else before
  }

  /** The next row of the oldest transfer; its last row ends it. A token that is already there stays one. */
  function ReadRow(l: Link): Link {
    if l.pending == [] then l
    else
      var t := l.pending[0];
      var screen := (x: int, y: int) => ReadColor(l.strip, t.rect, t.read, t.read + 1, l.screen(x, y), x, y);
      if t.read + 1 >= t.rect.rows then Link(screen, l.strip, l.pending[1..], true)
      else Link(screen, l.strip, [t.(read := t.read + 1)] + l.pending[1..], l.token)
  }

  function Advance(l: Link, n: nat): (m: Link)
    ensures m.strip == l.strip
    decreases n
  {
    if n == 0 then l else Advance(ReadRow(l), n - 1)
  }

  /** What becomes of a send: the panel driver refuses it, with some of its pixels perhaps sent, or it is
      queued and this many more rows are read before the wait ends. */
  datatype SendFate = Refused(noise: Screen) | Queued(rows: nat)

  datatype Sent = Ok | Refusal | TimedOut

  datatype After = After(link: Link, sent: Sent)

  function Spoilt(screen: Screen, r: Rect, noise: Screen): Screen {
    (x: int, y: int) => if r.Contains(x, y) then noise(x, y) else screen(x, y)
  }

  /** send_strip */
  function SendSpec(l: Link, r: Rect, x: SendFate): After {
    match x
    case Refused(noise) => After(l.(screen := Spoilt(l.screen, r, noise)), Refusal)
    case Queued(rows) =>
      var m := Advance(l.(pending := l.pending + [Transfer(r, 0)]), rows);
      if m.token then After(m.(token := false), Ok) else After(m, TimedOut)
  }

  /** A strip of a picture: where it goes, and the cells of the buffer that are filled for it. */
  datatype Strip = Strip(rect: Rect, cells: seq<nat>)

  function Filled(strip: seq<nat>, cells: seq<nat>): (s: seq<nat>)
    ensures |cells| <= |strip| ==> |s| == |strip|
  {
    if |cells| <= |strip| then cells + strip[|cells|..] else cells
  }

  /** How many rows are read before the buffer is filled, and what becomes of the send. */
  datatype StripFate = StripFate(idle: nat, send: SendFate)

  /** One strip: the buffer is filled while transfers may still be reading it, and sent. */
  function StripSpec(l: Link, s: Strip, x: StripFate): After {
    var m := Advance(l, x.idle);
    SendSpec(m.(strip := Filled(m.strip, s.cells)), s.rect, x.send)
  }

  /** The transfer was queued and read to its end while the processor waited for it. */
  predicate InTime(s: Strip, x: StripFate) {
    x.send.Queued? && x.send.rows >= s.rect.rows
  }

  // ----- A clean link.

  /** Within the oldest transfer. */
  lemma {:induction false} AdvanceWithin(l: Link, n: nat)
    requires l.pending != [] && l.pending[0].read + n < l.pending[0].rect.rows
    ensures var t, m := l.pending[0], Advance(l, n);
      && m.pending == [t.(read := t.read + n)] + l.pending[1..] && m.token == l.token
      && forall x, y :: m.screen(x, y) == ReadColor(l.strip, t.rect, t.read, t.read + n, l.screen(x, y), x, y)
    decreases n
  {
    hide Cell;
    if n > 0 {
      AdvanceWithin(ReadRow(l), n - 1);
    }
  }

  /** Through the oldest transfer. */
  lemma {:induction false} AdvanceThrough(l: Link, n: nat)
    requires l.pending != [] && n > 0 && l.pending[0].read + n == l.pending[0].rect.rows
    ensures var t, m := l.pending[0], Advance(l, n);
      && m.pending == l.pending[1..] && m.token
      && forall x, y :: m.screen(x, y) == ReadColor(l.strip, t.rect, t.read, t.read + n, l.screen(x, y), x, y)
    decreases n
  {
    hide Cell;
    if n > 1 {
      AdvanceThrough(ReadRow(l), n - 1);
    } else {
      assert Advance(ReadRow(l), 0) == ReadRow(l);
    }
  }

  lemma {:induction false} AdvanceAdds(l: Link, m: nat, n: nat)
    ensures Advance(l, m + n) == Advance(Advance(l, m), n)
    decreases m
  {
    hide ReadRow;
    if m > 0 {
      AdvanceAdds(ReadRow(l), m - 1, n);
    }
  }

  lemma {:induction false} NothingToRead(l: Link, n: nat)
    requires l.pending == []
    ensures Advance(l, n) == l
    decreases n
  {
    if n > 0 {
      NothingToRead(l, n - 1);
    }
  }

  /** From a clean link a strip arrives as it was filled exactly when its transfer ends in time; a refused
      one leaves the link clean, and only a wait that is given up does not. */
  lemma CleanStrip(l: Link, s: Strip, x: StripFate)
    requires Clean(l) && s.rect.rows > 0
    ensures var a := StripSpec(l, s, x);
      && (a.sent == Ok <==> InTime(s, x)) && (a.sent == Refusal <==> x.send.Refused?)
      && (Clean(a.link) <==> a.sent != TimedOut)
      && (a.sent == Ok ==> forall i, j ::
            a.link.screen(i, j) == ReadColor(Filled(l.strip, s.cells), s.rect, 0, s.rect.rows, l.screen(i, j), i, j))
      && (forall i, j | !s.rect.Contains(i, j) :: a.link.screen(i, j) == l.screen(i, j))
  {
    hide Cell;
    NothingToRead(l, x.idle);
    var q := l.(strip := Filled(l.strip, s.cells), pending := [Transfer(s.rect, 0)]);
    assert l.pending + [Transfer(s.rect, 0)] == q.pending;
    if x.send.Queued? {
      var n := x.send.rows;
      if n < s.rect.rows {
        AdvanceWithin(q, n);
      } else {
        AdvanceThrough(q, s.rect.rows);
        AdvanceAdds(q, s.rect.rows, n - s.rect.rows);
        NothingToRead(Advance(q, s.rect.rows), n - s.rect.rows);
      }
    }
  }

  // ----- A link that has lost count.

  /** Ends of transfers that nobody has waited for yet: those to come, and the one the semaphore holds. */
  function Debt(l: Link): nat {
    |l.pending| + if l.token then 1 else 0
  }

  /** Ends of transfers that find the semaphore given already, and so go unseen. */
  function Unseen(l: Link, n: nat): nat
    decreases n
  {
    if n == 0 then 0
    else (if l.pending != [] && l.token && l.pending[0].read + 1 >= l.pending[0].rect.rows then 1 else 0) + Unseen(ReadRow(l), n - 1)
  }

  lemma {:induction false} AdvanceConserves(l: Link, n: nat)
    ensures Debt(Advance(l, n)) + Unseen(l, n) == Debt(l)
    decreases n
  {
    if n > 0 {
      AdvanceConserves(ReadRow(l), n - 1);
    }
  }

  function StripUnseen(l: Link, s: Strip, x: StripFate): nat {
    var m := Advance(l, x.idle).(strip := Filled(l.strip, s.cells));
    Unseen(l, x.idle) + if x.send.Queued? then Unseen(m.(pending := m.pending + [Transfer(s.rect, 0)]), x.send.rows) else 0
  }

  /** A wait that is given up puts the count out by one, an unseen end brings it back by one, and nothing
      else changes it. */
  lemma StripConserves(l: Link, s: Strip, x: StripFate)
    ensures var a := StripSpec(l, s, x);
      Debt(a.link) + StripUnseen(l, s, x) == Debt(l) + if a.sent == TimedOut then 1 else 0
  {
    hide Advance, Unseen;
    AdvanceConserves(l, x.idle);
    if x.send.Queued? {
      var m := Advance(l, x.idle).(strip := Filled(l.strip, s.cells));
      AdvanceConserves(m.(pending := m.pending + [Transfer(s.rect, 0)]), x.send.rows);
    }
  }

  /** Rows that are still to be read. */
  function Unread(ts: seq<Transfer>): nat {
    if ts == [] then 0
    else (if ts[0].read + 1 >= ts[0].rect.rows then 1 else ts[0].rect.rows - ts[0].read) + Unread(ts[1..])
  }

  /** Left alone for long enough, such a link ends with a token that nobody is owed. */
  lemma {:induction false} Settles(l: Link)
    requires !Clean(l)
    ensures var m := Advance(l, Unread(l.pending)); m.pending == [] && m.token
    decreases Unread(l.pending)
  {
    if l.pending != [] {
      assert Unread(ReadRow(l).pending) + 1 == Unread(l.pending);
      Settles(ReadRow(l));
    }
  }

  /** While one transfer lags behind, each wait is ended by the strip before: it takes its pixels from the
      buffer that has been filled again. */
  lemma LaggingStrip(l: Link, r: Rect, s: Strip)
    requires l.pending == [Transfer(r, 0)] && !l.token && r.rows > 0
    ensures var a := StripSpec(l, s, StripFate(0, Queued(r.rows)));
      && a.sent == Ok && a.link.pending == [Transfer(s.rect, 0)] && !a.link.token
      && forall i, j :: a.link.screen(i, j) == ReadColor(Filled(l.strip, s.cells), r, 0, r.rows, l.screen(i, j), i, j)
  {
    hide Cell;
    assert Advance(l, 0) == l;
    AdvanceThrough(l.(strip := Filled(l.strip, s.cells), pending := l.pending + [Transfer(s.rect, 0)]), r.rows);
  }

  /** The first strip over a stray token is not waited for at all. */
  lemma StrayToken(l: Link, s: Strip)
    requires !Clean(l)
    ensures var a := StripSpec(l, s, StripFate(Unread(l.pending), Queued(0)));
      a.sent == Ok && a.link.pending == [Transfer(s.rect, 0)] && !a.link.token
  {
    Settles(l);
    var m := Advance(l, Unread(l.pending));
    assert m.pending + [Transfer(s.rect, 0)] == [Transfer(s.rect, 0)];
  }
}
