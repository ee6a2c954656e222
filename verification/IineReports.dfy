/** What the input reports of an IINE L1241 pad say (components/bluepad32/parser/uni_iine_protocol.c), and what a
    running link hands on of them (components/bluepad32/bt/uni_bt_le_iine.c). */
module IineReports {
  import opened Bytes
  import opened IinePacket
  import opened IineLink

  // ----- The language of reports.

  /** One record: a button with the depth of an analogue trigger, a direction, or a stick. The last octets of
      triggers and sticks are raw readings that nobody uses. */
  datatype Word =
    | Button(button: nat, held: bool, depth: byte, raw: byte)
    | Arrow(direction: nat, held: bool)
    | Stick(right: bool, flag: bool, x: byte, y: byte, rawX: byte, rawY: byte)

  /** A, B, X, Y, the shoulders, the triggers, select, start and the two sticks pressed. */
  const BUTTON_CODES: seq<byte> := [1, 2, 3, 4, 5, 6, 7, 8, 0x5D, 0x5E, 0x0B, 0x0C]

  /** Up, down, right and left. */
  const ARROW_CODES: seq<byte> := [0x0E, 0x0D, 0x0F, 0x10]

  predicate Known(w: Word) {
    (w.Button? ==> w.button < 12 && (w.button != 6 && w.button != 7 ==> w.depth == 0 && w.raw == 0))
    && (w.Arrow? ==> w.direction < 4)
  }

  function Spelled(w: Word): (octets: seq<byte>)
    requires Known(w)
    ensures |octets| >= 2
  {
    match w
    case Button(button, held, depth, raw) =>
      [if held then 1 else 0, BUTTON_CODES[button]] + (if button == 6 || button == 7 then [depth, raw] else [])
    case Arrow(direction, held) => [if held then 1 else 0, ARROW_CODES[direction]]
    case Stick(right, flag, x, y, rawX, rawY) => [if flag then 1 else 0, if right then 0x13 else 0x12, x, y, rawX, rawY]
  }

  predicate AllKnown(ws: seq<Word>) {
    forall w | w in ws :: Known(w)
  }

  function Spelling(ws: seq<Word>): (octets: seq<byte>)
    requires AllKnown(ws)
    ensures ws != [] ==> |octets| >= 2
  {
    if ws == [] then [] else Spelled(ws[0]) + Spelling(ws[1..])
  }

  /** What can be asked of a pad: is this button held, is this direction held, where is this axis. */
  datatype Field = ButtonField(button: nat) | ArrowField(direction: nat) | AxisField(axis: nat)

  function Reading(s: Pad, f: Field): int {
    match f
    case ButtonField(b) => if b in s.buttons then 1 else 0
    case ArrowField(d) => if d in s.dpad then 1 else 0
    case AxisField(a) => if a < 6 then s.axes[a] else 0
  }

  /** What one record says about it, if anything. */
  function Says(w: Word, f: Field): Option<int> {
    match w
    case Button(button, held, depth, _) =>
      if f == ButtonField(button) then Some(if held then 1 else 0)
      else if (f == AxisField(2) && button == 6) || (f == AxisField(5) && button == 7) then Some(depth)
      else None
    case Arrow(direction, held) => if f == ArrowField(direction) then Some(if held then 1 else 0) else None
    case Stick(right, _, x, y, _, _) =>
      if f == AxisField(if right then 3 else 0) then Some(x) else if f == AxisField(if right then 4 else 1) then Some(y) else None
  }

  /** The last word on it. */
  function LastWord(ws: seq<Word>, f: Field): Option<int> {
    if ws == [] then None
    else if Says(ws[|ws| - 1], f).Some? then Says(ws[|ws| - 1], f)
    else LastWord(ws[..|ws| - 1], f)
  }

  lemma {:induction false} LastWordOf(w: Word, ws: seq<Word>, f: Field)
    ensures LastWord([w] + ws, f) == if LastWord(ws, f).Some? then LastWord(ws, f) else Says(w, f)
    decreases |ws|
  {
    hide Says;
    if ws == [] {
      assert [w] + ws == [w];
    } else {
      assert ([w] + ws)[..|ws|] == [w] + ws[..|ws| - 1];
      LastWordOf(w, ws[..|ws| - 1], f);
    }
  }

  /** After these words the pad t holds what they last said, and otherwise what s held; the axes they spoke of
      are present. */
  ghost predicate Tells(ws: seq<Word>, s: Pad, t: Pad) {
    && (forall f :: Reading(t, f) == if LastWord(ws, f).Some? then LastWord(ws, f).value else Reading(s, f))
    && (forall a :: a in t.present <==> a in s.present || LastWord(ws, AxisField(a)).Some?)
  }

  /** The effect of one record. */
  lemma OneWord(w: Word, rest: seq<byte>, s: Pad)
    requires Known(w)
    ensures var x := Spelled(w) + rest;
      && Starts(x) && RecordSize(x[1]) == |Spelled(w)| && x[|Spelled(w)|..] == rest
      && (forall f :: Reading(Applied(x, s), f) == if Says(w, f).Some? then Says(w, f).value else Reading(s, f))
      && (forall a :: a in Applied(x, s).present <==> a in s.present || Says(w, AxisField(a)).Some?)
  {
  }

  /** A report that spells these words is decoded, and leaves the pad with the last word on everything. */
  lemma {:induction false} SpellingTells(ws: seq<Word>, s: Pad)
    requires AllKnown(ws)
    ensures Decoded(Spelling(ws), s).Some? && Tells(ws, s, Decoded(Spelling(ws), s).value)
    decreases |ws|
  {
    hide Says, Reading, Applied, Starts, RecordSize, Spelled;
    if ws != [] {
      var x := Spelling(ws);
      OneWord(ws[0], Spelling(ws[1..]), s);
      var t := Applied(x, s);
      SpellingTells(ws[1..], t);
      assert ws == [ws[0]] + ws[1..];
      forall f
        ensures LastWord(ws, f) == if LastWord(ws[1..], f).Some? then LastWord(ws[1..], f) else Says(ws[0], f)
      {
        LastWordOf(ws[0], ws[1..], f);
      }
    }
  }

  /** The words of a decodable report. */
  function WordAt(x: seq<byte>): (w: Word)
    requires Starts(x)
    ensures Known(w) && Spelled(w) == x[..RecordSize(x[1])]
  {
    var held := x[0] == 1;
    if x[1] == 0x12 || x[1] == 0x13 then Stick(x[1] == 0x13, held, x[2], x[3], x[4], x[5])
    else if 0x0D <= x[1] <= 0x10 then
      Arrow(if x[1] == 0x0E then 0 else if x[1] == 0x0D then 1 else if x[1] == 0x0F then 2 else 3, held)
    else if x[1] == 7 || x[1] == 8 then Button(x[1] - 1, held, x[2], x[3])
    else Button(if x[1] == 0x5D then 8 else if x[1] == 0x5E then 9 else x[1] - 1, held, 0, 0)
  }

  function Words(x: seq<byte>): (ws: seq<Word>)
    ensures AllKnown(ws)
    decreases |x|
  {
    if x == [] || !Starts(x) then [] else [WordAt(x)] + Words(x[RecordSize(x[1])..])
  }

  /** A report is well formed exactly when it spells words. */
  lemma {:induction false} WellFormedIsSpelled(x: seq<byte>, s: Pad)
    ensures Decoded(x, s).Some? <==> x == Spelling(Words(x))
    decreases |x|
  {
    hide WordAt, Applied, RecordSize;
    if x != [] && Starts(x) {
      SpelledFirst(x);
      WellFormedIsSpelled(x[RecordSize(x[1])..], Applied(x, s));
    }
  }

  lemma SpelledFirst(x: seq<byte>)
    requires Starts(x)
    ensures var n := RecordSize(x[1]);
      0 < n <= |x| && (x == Spelling(Words(x)) <==> x[n..] == Spelling(Words(x[n..])))
  {
    hide WordAt, Spelled;
    var n := RecordSize(x[1]);
    var ws := Words(x[n..]);
    assert Words(x) == [WordAt(x)] + ws;
    assert Words(x)[1..] == ws;
    assert x == x[..n] + x[n..];
    assert Spelling(Words(x)) == x[..n] + Spelling(ws);
    assert Spelling(Words(x))[n..] == Spelling(ws);
  }

  lemma {:induction false} LastWordAdds(xs: seq<Word>, ys: seq<Word>, f: Field)
    ensures LastWord(xs + ys, f) == if LastWord(ys, f).Some? then LastWord(ys, f) else LastWord(xs, f)
    decreases |ys|
  {
    hide Says;
    if ys == [] {
      assert xs + ys == xs;
    } else {
      assert (xs + ys)[..|xs + ys| - 1] == xs + ys[..|ys| - 1];
      LastWordAdds(xs, ys[..|ys| - 1], f);
    }
  }

  lemma TellsMore(xs: seq<Word>, ys: seq<Word>, s: Pad, t: Pad, u: Pad)
    requires Tells(xs, s, t) && Tells(ys, t, u)
    ensures Tells(xs + ys, s, u)
  {
    hide Says, Reading, LastWord;
    forall f
      ensures LastWord(xs + ys, f) == if LastWord(ys, f).Some? then LastWord(ys, f) else LastWord(xs, f)
    {
      LastWordAdds(xs, ys, f);
    }
  }

  /** What words tell, they tell completely. */
  lemma TellsOnce(ws: seq<Word>, s: Pad, t: Pad, u: Pad)
    requires Tells(ws, s, t) && Tells(ws, s, u)
    ensures t == u
  {
    hide LastWord;
    SameReadings(t, u);
  }

  lemma SameReadings(t: Pad, u: Pad)
    requires (forall f :: Reading(t, f) == Reading(u, f)) && (forall a :: a in t.present <==> a in u.present)
    ensures t == u
  {
    forall b ensures b in t.buttons <==> b in u.buttons {
      assert Reading(t, ButtonField(b)) == Reading(u, ButtonField(b));
    }
    forall d ensures d in t.dpad <==> d in u.dpad {
      assert Reading(t, ArrowField(d)) == Reading(u, ArrowField(d));
    }
    forall a | 0 <= a < 6 ensures t.axes[a] == u.axes[a] {
      assert Reading(t, AxisField(a)) == Reading(u, AxisField(a));
    }
  }

  // ----- What a link hands on.

  /** A report frame: the number of octets that follow, and the words. */
  predicate Reports(l: Link, e: Event) {
    && e.Notified? && e.size >= 12 && e.characteristic == l.notify && |e.data| == e.size - 12
    && l.stage in {Mode, Delay, Test, Running}
    && Parse(e.data).Some? && Parse(e.data).value.opcode == 0x1F && Worded(Parse(e.data).value.payload)
  }

  predicate Worded(payload: seq<byte>) {
    3 <= |payload| <= 15 && payload[0] == |payload| - 1 && payload[1..] == Spelling(Words(payload[1..]))
  }

  function Told(e: Event): (ws: seq<Word>)
    ensures AllKnown(ws)
  {
    if e.Notified? && Parse(e.data).Some? && |Parse(e.data).value.payload| > 0 then Words(Parse(e.data).value.payload[1..]) else []
  }

  lemma PayloadTells(payload: seq<byte>, s: Pad)
    ensures InputDecoded(payload, s).Some? <==> Worded(payload)
    ensures Worded(payload) ==> Tells(Words(payload[1..]), s, InputDecoded(payload, s).value)
  {
    hide Tells, Decoded, Words, Spelling;
    if |payload| > 0 {
      WellFormedIsSpelled(payload[1..], s);
      SpellingTells(Words(payload[1..]), s);
    }
  }

  /** A report is believed as soon as the mode has been asked for, and once the controller is ready what it
      tells is handed on; nothing else that is notified is. */
  lemma ReportIsHandedOn(l: Link, e: Event, now: u32)
    requires e.Notified?
    ensures var o := Step(Active(l), e, now);
      && o.slot.Active? && o.request.None?
      && o.slot.link.ready == l.ready && o.slot.link.stage == l.stage
      && (Reports(l, e) ==> Tells(Told(e), l.input, o.slot.link.input))
      && (!Reports(l, e) ==> o.slot.link.input == l.input)
      && o.published == (if l.ready && Reports(l, e) then Some(o.slot.link.input) else None)
  {
    hide Parse, InputDecoded, Worded, Tells, Words;
    if Parse(e.data).Some? {
      var payload := Parse(e.data).value.payload;
      PayloadTells(payload, l.input);
      WordedIsLong(payload);
    }
  }

  lemma WordedIsLong(payload: seq<byte>)
    ensures Worded(payload) ==> |payload| >= 3
  {
  }

  /** The words of the reports believed on the present connection. */
  function Heard(run: seq<Timed>, k: nat): (ws: seq<Word>)
    requires k <= |run|
    ensures AllKnown(ws)
    decreases k
  {
    if k == 0 || At(run, k).Idle? then []
    else
      Heard(run, k - 1)
      + (if At(run, k - 1).Active? && Reports(At(run, k - 1).link, run[k - 1].event) then Told(run[k - 1].event) else [])
  }

  lemma OnlyReportsMove(s: Slot, e: Event, now: u32)
    requires Step(s, e, now).slot.Active?
    ensures var m := Step(s, e, now).slot.link;
      && (s.Idle? ==> m.input == REST && !m.ready)
      && (s.Active? && !e.Notified? ==> m.input == s.link.input)
  {
    hide RequestAllowed, SerialFrom, Due, Verified, Matches, OnNotified;
  }

  lemma TellsNothing(s: Pad)
    ensures Tells([], s, s)
  {
    assert forall f :: LastWord([], f) == None;
  }

  /** In every run, the input of a connection is what the reports believed on it last said of each button,
      direction and axis, and what they never spoke of is at rest. */
  lemma {:induction false} InputIsLastSaid(run: seq<Timed>, k: nat)
    requires k <= |run| && At(run, k).Active?
    ensures Tells(Heard(run, k), REST, At(run, k).link.input)
    decreases k
  {
    hide Step, Tells, Reports, Told, Wrap;
    TellsNothing(REST);
    var e, now := run[k - 1].event, Wrap(run[k - 1].at);
    var before := At(run, k - 1);
    OnlyReportsMove(before, e, now);
    if before.Active? {
      InputIsLastSaid(run, k - 1);
      var input := At(run, k).link.input;
      if e.Notified? {
        ReportIsHandedOn(before.link, e, now);
        if Reports(before.link, e) {
          TellsMore(Heard(run, k - 1), Told(e), REST, before.link.input, input);
        }
      } else {
        NotifiedReports(before.link, e);
      }
      assert Heard(run, k - 1) + [] == Heard(run, k - 1);
    }
  }

  lemma NotifiedReports(l: Link, e: Event)
    ensures Reports(l, e) ==> e.Notified?
  {
  }

  /** While the controller is ready, every report is handed on at once, and what is handed on is the last word
      on everything. */
  lemma EveryReportArrives(run: seq<Timed>, k: nat)
    requires k < |run| && At(run, k).Active? && At(run, k).link.ready && Reports(At(run, k).link, run[k].event)
    ensures OutAt(run, k).published.Some? && Tells(Heard(run, k) + Told(run[k].event), REST, OutAt(run, k).published.value)
  {
    hide Step, Tells, Reports, Told, Wrap;
    InputIsLastSaid(run, k);
    NotifiedReports(At(run, k).link, run[k].event);
    ReportIsHandedOn(At(run, k).link, run[k].event, Wrap(run[k].at));
    TellsMore(Heard(run, k), Told(run[k].event), REST, At(run, k).link.input, OutAt(run, k).published.value);
  }

  // ----- What the host is given.

  /** The buttons of the host's gamepad, by bit, as its applications name them. */
  datatype Controller = Controller(
    dpad: set<nat>, buttons: set<nat>, misc: set<nat>,
    x: int, y: int, rx: int, ry: int, brake: int, throttle: int)

  const SELECT := 1
  const START := 2

  function Deflection(axis: byte): int {
    (axis as int - 128) * 4
  }

  function Depth(axis: byte): int {
    axis as int * 1023 / 255
  }

  /** publish_input */
  function Handed(s: Pad): Controller {
    Controller(
      s.dpad,
      (set b | b in s.buttons && b < 8) + (set b | b in s.buttons && 10 <= b < 12 :: b - 2),
      (if 8 in s.buttons then {SELECT} else {}) + (if 9 in s.buttons then {START} else {}),
      Deflection(s.axes[0]), Deflection(s.axes[1]), Deflection(s.axes[3]), Deflection(s.axes[4]), Depth(s.axes[2]), Depth(s.axes[5]))
  }

  /** A stick at rest is at zero, and each of its 255 steps moves the host by four; a trigger spreads over the
      whole range of the host, from 0 to 1023, and never the other way. */
  lemma AxesSpread(a: byte, b: byte)
    ensures Deflection(128) == 0 && Deflection(a) - Deflection(b) == 4 * (a as int - b as int)
    ensures Depth(0) == 0 && Depth(255) == 1023 && (a < b ==> Depth(a) < Depth(b))
  {
  }

  /** What pressing button n of the pad means to the host. */
  const HOST_BUTTONS: seq<set<nat>> := [{0}, {1}, {2}, {3}, {4}, {5}, {6}, {7}, {}, {}, {8}, {9}]
  const HOST_MISC: seq<set<nat>> := [{}, {}, {}, {}, {}, {}, {}, {}, {1}, {2}, {}, {}]

  lemma HostNames(s: Pad, n: nat)
    requires n < 12 && s.buttons == {n}
    ensures Handed(s).buttons == HOST_BUTTONS[n] && Handed(s).misc == HOST_MISC[n]
  {
  }

  // ----- A session with reports and silence.

  function ReportFrame(serial: byte, nonce: byte, ws: seq<Word>): Event
    requires AllKnown(ws) && 2 <= |Spelling(ws)| <= 14
  {
    var wire := Sealed(Clear(Packet(0x1F, serial, [|Spelling(ws)|] + Spelling(ws)), nonce));
    Notified(|wire| + 12, 3, wire)
  }

  /** However a pad numbers and scrambles a report, its words arrive. */
  lemma FrameReports(l: Link, serial: byte, nonce: byte, ws: seq<Word>)
    requires AllKnown(ws) && 2 <= |Spelling(ws)| <= 14 && l.notify == 3 && l.stage in {Mode, Delay, Test, Running}
    ensures Reports(l, ReportFrame(serial, nonce, ws)) && Spelling(Told(ReportFrame(serial, nonce, ws))) == Spelling(ws)
  {
    hide Parse, Sealed, Clear, Words, Spelling;
    var octets := Spelling(ws);
    var payload := [|octets|] + octets;
    ParseInvertsBuild(Packet(0x1F, serial, payload), nonce);
    assert payload[1..] == octets;
    SpellingTells(ws, REST);
    WellFormedIsSpelled(octets, REST);
  }

  /** What a report frame makes of a ready link. */
  lemma FrameIsHandedOn(l: Link, serial: byte, nonce: byte, ws: seq<Word>, now: u32)
    requires AllKnown(ws) && 2 <= |Spelling(ws)| <= 14 && l.notify == 3 && l.stage == Running && l.ready
    ensures var o := Step(Active(l), ReportFrame(serial, nonce, ws), now);
      && o.slot.Active? && o.slot == Active(l.(input := o.slot.link.input))
      && o.published == Some(o.slot.link.input) && Tells(ws, l.input, o.slot.link.input)
  {
    hide Spelling, Tells, Reports, ReportFrame, Parse, InputDecoded;
    var e := ReportFrame(serial, nonce, ws);
    FrameReports(l, serial, nonce, ws);
    NotifiedReports(l, e);
    ReportIsHandedOn(l, e, now);
    SpellingTells(ws, l.input);
    SpellingTells(Told(e), l.input);
    TellsOnce(Told(e), l.input, Decoded(Spelling(ws), l.input).value, Step(Active(l), e, now).slot.link.input);
  }

  lemma {:induction false} BeginsAlike(run: seq<Timed>, more: seq<Timed>, k: nat)
    requires k <= |run|
    ensures At(run + more, k) == At(run, k)
    ensures k < |run| ==> OutAt(run + more, k) == OutAt(run, k)
    decreases k
  {
    hide Step, Wrap;
    if k > 0 {
      BeginsAlike(run, more, k - 1);
    }
    assert k < |run| ==> (run + more)[k] == run[k];
  }

  /** A button of the pad, pressed or released, with the depth of a trigger. */
  function ButtonWord(n: nat, held: bool, depth: byte): (w: Word)
    requires n < 12
    ensures Known(w) && 2 <= |Spelling([w])| <= 4
  {
    var w := if n == 6 || n == 7 then Button(n, held, depth, 0) else Button(n, held, 0, 0);
    assert Spelling([w]) == Spelled(w) + Spelling([]);
    w
  }

  lemma ButtonTells(n: nat, held: bool, depth: byte, s: Pad, t: Pad)
    requires n < 12 && Tells([ButtonWord(n, held, depth)], s, t)
    ensures t.buttons == if held then s.buttons + {n} else s.buttons - {n}
  {
    var ws := [ButtonWord(n, held, depth)];
    forall b: nat
      ensures b in t.buttons <==> if b == n then held else b in s.buttons
    {
      assert LastWord(ws[..0], ButtonField(b)) == None;
      assert Reading(t, ButtonField(b)) == if LastWord(ws, ButtonField(b)).Some? then LastWord(ws, ButtonField(b)).value else Reading(s, ButtonField(b));
    }
  }

  /** The session of a cooperating pad goes on with a press and a release of any button: the host is given the
      button, under its own name, and then no button. */
  lemma PressAndReleaseArrive(t: nat, tail: seq<byte>, n: nat, depth: byte, serial: byte, nonce: byte)
    requires |tail| == 4 && n < 12
    ensures var run := Session(t, tail)
        + [Timed(t + 600, ReportFrame(serial, nonce, [ButtonWord(n, true, depth)])),
           Timed(t + 700, ReportFrame(serial, nonce, [ButtonWord(n, false, 0)]))];
      && |run| == 23
      && OutAt(run, 21).published.Some? && Handed(OutAt(run, 21).published.value).buttons == HOST_BUTTONS[n]
      && Handed(OutAt(run, 21).published.value).misc == HOST_MISC[n]
      && OutAt(run, 22).published.Some? && Handed(OutAt(run, 22).published.value).buttons == {}
      && Handed(OutAt(run, 22).published.value).misc == {}
  {
    hide At, OutAt, Session, ReportFrame, Step, ButtonWord, Tells, Wrap, Handed;
    var press, release := [ButtonWord(n, true, depth)], [ButtonWord(n, false, 0)];
    var more := [Timed(t + 600, ReportFrame(serial, nonce, press)), Timed(t + 700, ReportFrame(serial, nonce, release))];
    var run := Session(t, tail) + more;
    SessionInquires(t, tail);
    CooperatingPadRuns(t, tail);
    BeginsAlike(Session(t, tail), more, 21);
    var l := At(run, 21).link;
    Follows(run, 21, l);
    FrameIsHandedOn(l, serial, nonce, press, Wrap(t + 600));
    var m := OutAt(run, 21).slot.link;
    Follows(run, 22, m);
    FrameIsHandedOn(m, serial, nonce, release, Wrap(t + 700));
    ButtonTells(n, true, depth, l.input, m.input);
    ButtonTells(n, false, 0, m.input, OutAt(run, 22).slot.link.input);
    HostNames(m.input, n);
    HostNothing(OutAt(run, 22).slot.link.input);
  }

  lemma HostNothing(s: Pad)
    requires s.buttons == {}
    ensures Handed(s).buttons == {} && Handed(s).misc == {}
  {
  }

  // ----- The keepalive.

  /** Between keepalives nothing is written; once one is due the next tick writes the test page request, and
      the one after it is due a second later. */
  lemma KeepaliveWhenDue(l: Link, now: u32, answer: ReadyAnswer)
    requires l.stage == Running && l.ready && !l.busy
    ensures var o := Step(Active(l), Tick(true, true, answer), now);
      if !Due(now, l.nextKeepalive) then o == Keep(l)
      else
        && o.request.Some? && o.request.value.WriteValue?
        && (o.request.value.characteristic, o.request.value.opcode, o.request.value.payload) == (l.write, 0x1D, [5, 0xDF, 0xAB, 0, 6, 5])
        && o.published.None? && o.slot.Active? && o.slot.link.busy
        && o.slot.link == l.(busy := true, replied := false, nextKeepalive := Wrap(now + 1000), deadline := Wrap(now + 4500),
                             serialCounter := o.slot.link.serialCounter, serial := o.slot.link.serial)
  {
    hide SerialFrom, Due;
  }

  /** Silence but for the clock: every second a tick, and the completion of what it wrote. */
  function Silence(t: nat, n: nat): (run: seq<Timed>)
    ensures |run| == 2 * n
    decreases n
  {
    if n == 0 then []
    else
      Silence(t, n - 1)
      + [Timed(t + 500 + 1000 * n, Tick(true, true, Accepted)), Timed(t + 500 + 1000 * n, Completed(9, 0, true))]
  }

  /** A link between two keepalives, the next one due at this time. */
  predicate Waits(s: Slot, due: int) {
    s.Active? && s.link.stage == Running && s.link.ready && !s.link.busy && s.link.write == 2 && s.link.notify == 3
    && s.link.input == REST && s.link.nextKeepalive == Wrap(due)
  }

  lemma Beat(run: seq<Timed>, k: nat, due: nat)
    requires k + 2 <= |run| && Waits(At(run, k), due)
    requires run[k] == Timed(due, Tick(true, true, Accepted)) && run[k + 1] == Timed(due, Completed(9, 0, true))
    ensures Waits(At(run, k + 2), due + 1000)
    ensures WritesTestPage(OutAt(run, k))
  {
    hide At, OutAt, Step, Due, Wrap;
    var l := At(run, k).link;
    Follows(run, k, l);
    DueIsReal(due, due);
    KeepaliveWhenDue(l, Wrap(due), Accepted);
    Follows(run, k + 1, OutAt(run, k).slot.link);
    Completes(OutAt(run, k).slot.link, Wrap(due));
    WrapAdds(due, 1000);
  }

  predicate WritesTestPage(o: Out) {
    && o.request.Some? && o.request.value.WriteValue?
    && (o.request.value.characteristic, o.request.value.opcode, o.request.value.payload) == (2, 0x1D, [5, 0xDF, 0xAB, 0, 6, 5])
  }

  /** A session left alone is kept alive: every second the test page is written once more, and the controller
      stays ready with its input untouched, for however long. */
  lemma {:induction false} SilenceKeepsAlive(t: nat, tail: seq<byte>, n: nat)
    requires |tail| == 4
    ensures var run := Session(t, tail) + Silence(t, n);
      && |run| == 21 + 2 * n && Waits(At(run, |run|), t + 1500 + 1000 * n)
      && forall j | 0 <= j < n :: WritesTestPage(OutAt(run, 21 + 2 * j))
    decreases n
  {
    hide At, OutAt, Session, Step, Waits, WritesTestPage;
    SessionInquires(t, tail);
    if n == 0 {
      CooperatingPadRuns(t, tail);
      assert Session(t, tail) + Silence(t, 0) == Session(t, tail);
      WaitsFirst(At(Session(t, tail), 21), t);
    } else {
      SilenceKeepsAlive(t, tail, n - 1);
      var before := Session(t, tail) + Silence(t, n - 1);
      var beat := [Timed(t + 500 + 1000 * n, Tick(true, true, Accepted)), Timed(t + 500 + 1000 * n, Completed(9, 0, true))];
      var run := Session(t, tail) + Silence(t, n);
      assert run == before + beat;
      BeginsAlike(before, beat, |before|);
      Beat(run, |before|, t + 500 + 1000 * n);
      forall j | 0 <= j < n
        ensures WritesTestPage(OutAt(run, 21 + 2 * j))
      {
        if j < n - 1 {
          BeginsAlike(before, beat, 21 + 2 * j);
        }
      }
    }
  }

  lemma WaitsFirst(s: Slot, t: nat)
    requires s.Active? && s.link.stage == Running && s.link.ready && !s.link.busy && s.link.write == 2 && s.link.notify == 3
    requires s.link.input == REST && s.link.nextKeepalive == Wrap(t + 1500)
    ensures Waits(s, t + 1500)
  {
  }
}
