/** The gameplay input queue (main/gb_input.c): a ring of complete pad states between the Bluetooth
    thread and the emulator. */
module InputBuffer {
  import opened Bytes

  const CAPACITY := 16
  const MAX_AGE := 100000

  /** The eight buttons that the Game Boy knows. */
  datatype Buttons = Buttons(right: bool, left: bool, up: bool, down: bool, a: bool, b: bool, view: bool, menu: bool)

  const NOTHING := Buttons(false, false, false, false, false, false, false, false)

  /** A pad state; anyButton covers all reported buttons, mapped or not. */
  datatype Sample = Sample(connected: bool, buttons: Buttons, anyButton: bool)

  function Binary(on: bool, rest: nat): nat {
    (if on then 1 else 0) + 2 * rest
  }

  /** sample_bits: right is bit 0, menu bit 7. */
  function SampleBits(p: Sample): nat {
    var b := p.buttons;
    Binary(b.right, Binary(b.left, Binary(b.up, Binary(b.down, Binary(b.a, Binary(b.b, Binary(b.view, Binary(b.menu, 0))))))))
  }

  lemma SameBinary(x: bool, a: nat, y: bool, b: nat)
    requires Binary(x, a) == Binary(y, b)
    ensures x == y && a == b
  {
  }

  /** Comparing the bits compares the buttons. */
  lemma BitsIdentify(p: Sample, q: Sample)
    ensures SampleBits(p) == SampleBits(q) <==> p.buttons == q.buttons
  {
    if SampleBits(p) == SampleBits(q) {
      hide Binary;
      forall x, a, y, b | Binary(x, a) == Binary(y, b) ensures x == y && a == b {
        SameBinary(x, a, y, b);
      }
    }
  }

  lemma NoBits(p: Sample)
    ensures SampleBits(p) == 0 <==> p.buttons == NOTHING
  {
  }

  predicate Released(p: Sample) {
    p.connected && !p.anyButton && p.buttons == NOTHING
  }

  datatype Queued = Queued(sample: Sample, at: int)

  /** The queue as a list; the oldest state comes first. */
  datatype Buffer = Buffer(latest: Sample, queue: seq<Queued>, enabled: bool, armed: bool, dropped: u32)

  function ResetSpec(s: Buffer, p: Sample, enabled: bool): Buffer {
    Buffer(p, [], enabled, enabled && Released(p), s.dropped)
  }

  function PushSpec(s: Buffer, p: Sample, now: int): Buffer {
    var t := s.(latest := p);
    if !p.connected || !s.enabled then t.(queue := [], armed := false)
    else if !s.armed then t.(armed := Released(p))
    else if p.buttons == s.latest.buttons then t
    else if |s.queue| >= CAPACITY then t.(queue := [Queued(p, now)], dropped := Wrap(s.dropped + |s.queue|))
    else t.(queue := s.queue + [Queued(p, now)])
  }

  datatype Taken = Taken(state: Buffer, sample: Sample)

  predicate Stale(s: Buffer, now: int) {
    s.queue != [] && now - s.queue[0].at > MAX_AGE
  }

  function TakeSpec(s: Buffer, now: int): Taken {
    if !s.enabled || !s.armed then Taken(s, Sample(s.latest.connected, NOTHING, false))
    else if Stale(s, now) then Taken(s.(queue := [], dropped := Wrap(s.dropped + |s.queue|)), s.latest)
    else if s.queue == [] then Taken(s, s.latest)
    else Taken(s.(queue := s.queue[1..]), s.queue[0].sample)
  }

  // ----- Runs.

  datatype Event = Reset(sample: Sample, enabled: bool) | Push(sample: Sample) | Take

  datatype Timed = Timed(event: Event, at: int)

  function Step(s: Buffer, x: Timed): Buffer {
    match x.event
    case Reset(p, enabled) => ResetSpec(s, p, enabled)
    case Push(p) => PushSpec(s, p, x.at)
    case Take => TakeSpec(s, x.at).state
  }

  const UNPLUGGED := Sample(false, NOTHING, false)
  const INITIAL := Buffer(UNPLUGGED, [], false, false, 0)

  function At(run: seq<Timed>, n: nat): Buffer
    requires n <= |run|
  {
    if n == 0 then INITIAL else Step(At(run, n - 1), run[n - 1])
  }

  /** Event n adds a state to the queue. */
  predicate Accepts(run: seq<Timed>, n: nat)
    requires n < |run|
  {
    var s, e := At(run, n), run[n].event;
    e.Push? && e.sample.connected && s.enabled && s.armed && e.sample.buttons != s.latest.buttons
  }

  /** Event n takes a state from the queue. */
  predicate Delivers(run: seq<Timed>, n: nat)
    requires n < |run|
  {
    var s := At(run, n);
    run[n].event.Take? && s.enabled && s.armed && s.queue != [] && !Stale(s, run[n].at)
  }

  /** Every state ever queued, in order. */
  function Accepted(run: seq<Timed>, n: nat): seq<Queued>
    requires n <= |run|
  {
    if n == 0 then []
    else Accepted(run, n - 1) + (if Accepts(run, n - 1) then [Queued(run[n - 1].event.sample, run[n - 1].at)] else [])
  }

  /** How the states that left the queue left it. */
  datatype Tally = Tally(delivered: nat, dropped: nat, cleared: nat)

  function Count(run: seq<Timed>, n: nat): Tally
    requires n <= |run|
  {
    if n == 0 then Tally(0, 0, 0)
    else
      var c, s, x := Count(run, n - 1), At(run, n - 1), run[n - 1];
      match x.event
      case Reset(_, _) => c.(cleared := c.cleared + |s.queue|)
      case Push(p) =>
        if !p.connected || !s.enabled then c.(cleared := c.cleared + |s.queue|)
        else if Accepts(run, n - 1) && |s.queue| >= CAPACITY then c.(dropped := c.dropped + |s.queue|)
        else c
      case Take =>
        if Delivers(run, n - 1) then c.(delivered := c.delivered + 1)
        else if s.enabled && s.armed && Stale(s, x.at) then c.(dropped := c.dropped + |s.queue|)
        else c
  }

  /** The queue is the newest part of what was accepted; what is gone was delivered, dropped or cleared,
      and the reported number of drops is right modulo 2^32. */
  predicate Accounted(s: Buffer, all: seq<Queued>, c: Tally) {
    && |s.queue| <= CAPACITY && |all| == c.delivered + c.dropped + c.cleared + |s.queue|
    && s.queue == all[|all| - |s.queue|..]
    && s.dropped == Wrap(c.dropped)
  }

  lemma AcceptAccounted(run: seq<Timed>, n: nat)
    requires n < |run| && Accounted(At(run, n), Accepted(run, n), Count(run, n)) && Accepts(run, n)
    ensures Accounted(At(run, n + 1), Accepted(run, n + 1), Count(run, n + 1))
  {
    var s, all := At(run, n), Accepted(run, n);
    var q := Queued(run[n].event.sample, run[n].at);
    WrapAdds(Count(run, n).dropped, |s.queue|);
    hide Wrap, Released;
    assert Accepted(run, n + 1) == all + [q];
    assert (all + [q])[|all| - |s.queue|..] == all[|all| - |s.queue|..] + [q];
    assert (all + [q])[|all|..] == [q];
  }

  lemma OtherAccounted(run: seq<Timed>, n: nat)
    requires n < |run| && Accounted(At(run, n), Accepted(run, n), Count(run, n)) && !Accepts(run, n)
    ensures Accounted(At(run, n + 1), Accepted(run, n + 1), Count(run, n + 1))
  {
    hide Wrap, At, Accepted, Count, Accepts;
    var s, all := At(run, n), Accepted(run, n);
    WrapAdds(Count(run, n).dropped, |s.queue|);
    OtherEvent(run, n);
    assert all[|all|..] == [];
    if s.queue != [] {
      assert s.queue[1..] == all[|all| - |s.queue| + 1..];
    }
  }

  /** An event that queues nothing leaves the queue alone, empties it, or takes its oldest state. */
  lemma OtherEvent(run: seq<Timed>, n: nat)
    requires n < |run| && !Accepts(run, n)
    ensures Accepted(run, n + 1) == Accepted(run, n)
    ensures var s, t, c, d := At(run, n), At(run, n + 1), Count(run, n), Count(run, n + 1);
      || (t.queue == s.queue && t.dropped == s.dropped && d == c)
      || (t.queue == [] && t.dropped == s.dropped && d == c.(cleared := c.cleared + |s.queue|))
      || (t.queue == [] && t.dropped == Wrap(s.dropped + |s.queue|) && d == c.(dropped := c.dropped + |s.queue|))
      || (s.queue != [] && t.queue == s.queue[1..] && t.dropped == s.dropped && d == c.(delivered := c.delivered + 1))
  {
    hide Wrap, Released;
  }

  lemma NothingYet(run: seq<Timed>)
    ensures Accounted(At(run, 0), Accepted(run, 0), Count(run, 0))
  {
  }

  lemma {:induction false} NothingGoesMissing(run: seq<Timed>, n: nat)
    requires n <= |run|
    ensures Accounted(At(run, n), Accepted(run, n), Count(run, n))
  {
    hide Accounted, At, Accepted, Count, Accepts;
    if n == 0 {
      NothingYet(run);
    } else {
      NothingGoesMissing(run, n - 1);
      if Accepts(run, n - 1) {
        AcceptAccounted(run, n - 1);
      } else {
        OtherAccounted(run, n - 1);
      }
    }
  }

  /** First in, first out: the state delivered is the oldest accepted one not yet gone, unchanged, and
      at most 100 ms old. */
  lemma DeliveredInOrder(run: seq<Timed>, n: nat)
    requires n < |run| && Delivers(run, n)
    ensures var all, c := Accepted(run, n), Count(run, n);
      var k := c.delivered + c.dropped + c.cleared;
      && k < |all| && TakeSpec(At(run, n), run[n].at).sample == all[k].sample
      && run[n].at - all[k].at <= MAX_AGE
  {
    NothingGoesMissing(run, n);
  }

  /** Neighbours differ, the last queued state has the live buttons, and only an armed buffer holds any. */
  predicate Faithful(s: Buffer) {
    && (forall i | 0 < i < |s.queue| :: s.queue[i].sample.buttons != s.queue[i - 1].sample.buttons)
    && (s.queue != [] ==> s.queue[|s.queue| - 1].sample.buttons == s.latest.buttons)
    && (s.queue != [] ==> s.armed)
    && (s.armed ==> s.enabled && s.latest.connected)
    && (forall i | 0 <= i < |s.queue| :: s.queue[i].sample.connected)
  }

  lemma {:induction false} AlwaysFaithful(run: seq<Timed>, n: nat)
    requires n <= |run|
    ensures Faithful(At(run, n))
  {
    if n > 0 {
      AlwaysFaithful(run, n - 1);
      NextFaithful(At(run, n - 1), run[n - 1]);
      hide Faithful, Step;
    }
  }

  lemma NextFaithful(s: Buffer, x: Timed)
    requires Faithful(s)
    ensures Faithful(Step(s, x))
  {
    hide Wrap;
    var t := Step(s, x);
    match x.event
    case Take =>
      var gone := |s.queue| - |t.queue|;
      assert forall i | 0 <= i < |t.queue| :: t.queue[i] == s.queue[i + gone];
    case _ =>
  }

  /** Taking k times in a row at one moment. */
  function Drained(s: Buffer, k: nat, now: int): Taken
    decreases k
  {
    if k == 0 then TakeSpec(s, now) else Drained(TakeSpec(s, now).state, k - 1, now)
  }

  /** Draining ends on the live state: with n states queued, the n-th take after the first gives the
      latest pad state itself, and every state taken is the live one or was queued. */
  lemma {:induction false} DrainingYieldsLive(s: Buffer, now: int)
    requires Faithful(s) && s.armed
    ensures Drained(s, |s.queue|, now).sample == s.latest
    ensures Drained(s, |s.queue|, now).state.queue == []
    ensures s.queue != [] ==> Drained(s, |s.queue| - 1, now).sample.buttons == s.latest.buttons
    decreases |s.queue|
  {
    if s.queue != [] {
      var t := TakeSpec(s, now).state;
      if Stale(s, now) {
        AlreadyEmpty(t, |s.queue| - 1, now);
        if |s.queue| > 1 {
          AlreadyEmpty(t, |s.queue| - 2, now);
        }
      } else {
        assert Faithful(t) by {
          assert forall i | 0 <= i < |t.queue| :: t.queue[i] == s.queue[i + 1];
        }
        DrainingYieldsLive(t, now);
      }
    }
  }

  lemma {:induction false} AlreadyEmpty(s: Buffer, k: nat, now: int)
    requires s.queue == [] && s.enabled && s.armed
    ensures Drained(s, k, now) == Taken(s, s.latest)
  {
    if k > 0 {
      AlreadyEmpty(s, k - 1, now);
    }
  }

  /** The buffer begins to listen as soon as the pad is seen with nothing pressed, and goes on until it is reset or
      the pad is lost. */
  lemma ReleaseArms(s: Buffer, p: Sample, now: int)
    requires s.enabled && p.connected
    ensures PushSpec(s, p, now).armed <==> s.armed || (!p.anyButton && p.buttons == NOTHING)
    ensures ResetSpec(s, p, true).enabled && (ResetSpec(s, p, true).armed <==> !p.anyButton && p.buttons == NOTHING)
    ensures !PushSpec(s, p.(connected := false), now).armed && !ResetSpec(s, p, false).armed
    ensures TakeSpec(s, now).state.armed == s.armed && TakeSpec(s, now).state.enabled
  {
    hide Wrap;
  }

  /** The buffer after these states have been pushed. */
  function Pushed(s: Buffer, qs: seq<Queued>): Buffer {
    if qs == [] then s else PushSpec(Pushed(s, qs[..|qs| - 1]), qs[|qs| - 1].sample, qs[|qs| - 1].at)
  }

  /** Each state presses or releases something. */
  predicate Moving(last: Sample, qs: seq<Queued>) {
    && (forall i | 0 <= i < |qs| :: qs[i].sample.connected)
    && (qs != [] ==> qs[0].sample.buttons != last.buttons)
    && forall i | 0 < i < |qs| :: qs[i].sample.buttons != qs[i - 1].sample.buttons
  }

  lemma {:induction false} BurstIsQueued(s: Buffer, qs: seq<Queued>)
    requires s.enabled && s.armed && s.queue == [] && |qs| <= 16 && Moving(s.latest, qs)
    ensures Pushed(s, qs) == s.(queue := qs, latest := if qs == [] then s.latest else qs[|qs| - 1].sample)
    decreases |qs|
  {
    if qs != [] {
      BurstIsQueued(s, qs[..|qs| - 1]);
      assert qs == qs[..|qs| - 1] + [qs[|qs| - 1]];
    }
  }

  /** Nothing that happens between two looks at the pad is missed: up to sixteen presses and releases come out
      in the order in which they went in, one at each take, if the takes come within a tenth of a second. */
  lemma {:induction false} BurstIsDelivered(s: Buffer, qs: seq<Queued>, now: int, k: nat)
    requires s.enabled && s.armed && s.queue == [] && |qs| <= 16 && Moving(s.latest, qs) && k < |qs|
    requires forall i | 0 <= i < |qs| :: now - qs[i].at <= 100000
    ensures Drained(Pushed(s, qs), k, now) == Taken(Pushed(s, qs).(queue := qs[k + 1..]), qs[k].sample)
  {
    BurstIsQueued(s, qs);
    DrainedInTurn(Pushed(s, qs), k, now);
  }

  lemma {:induction false} DrainedInTurn(s: Buffer, k: nat, now: int)
    requires s.enabled && s.armed && k < |s.queue| && forall i | 0 <= i < |s.queue| :: now - s.queue[i].at <= 100000
    ensures Drained(s, k, now) == Taken(s.(queue := s.queue[k + 1..]), s.queue[k].sample)
    decreases k
  {
    if k > 0 {
      DrainedInTurn(TakeSpec(s, now).state, k - 1, now);
    }
  }

  /** One state more, and the sixteen before it are given up; the live state is what comes next. */
  lemma BurstOverflows(s: Buffer, qs: seq<Queued>, now: int)
    requires s.enabled && s.armed && s.queue == [] && |qs| == 17 && Moving(s.latest, qs)
    requires now - qs[16].at <= 100000
    ensures Pushed(s, qs).dropped == Wrap(s.dropped + 16)
    ensures TakeSpec(Pushed(s, qs), now).sample == qs[16].sample && TakeSpec(Pushed(s, qs), now).state.queue == []
  {
    BurstIsQueued(s, qs[..16]);
  }

  /** A queued state is delivered exactly while it is no older than a tenth of a second; later the whole queue
      is given up for the live state. */
  lemma DeliveredExactlyWhenFresh(run: seq<Timed>, n: nat)
    requires n < |run| && run[n].event.Take? && At(run, n).enabled && At(run, n).armed && At(run, n).queue != []
    ensures var s := At(run, n);
      var t := TakeSpec(s, run[n].at);
      if run[n].at - s.queue[0].at <= 100000 then t == Taken(s.(queue := s.queue[1..]), s.queue[0].sample)
      else t.sample == s.latest && t.state.queue == [] && t.state.dropped == Wrap(s.dropped + |s.queue|)
  {
    hide At, Wrap;
  }

  /** Since event r, at which everything was released, the buffer has neither been reset nor lost the pad. */
  predicate ReleasedSince(run: seq<Timed>, r: nat, n: nat)
    requires r < n <= |run|
  {
    && !run[r].event.Take? && Released(run[r].event.sample)
    && forall j | r < j < n :: !run[j].event.Reset? && (run[j].event.Push? ==> run[j].event.sample.connected)
  }

  /** The sample came with an event between r and n. */
  predicate CameSince(run: seq<Timed>, r: nat, n: nat, p: Sample)
    requires n <= |run|
  {
    exists i | r <= i < n :: !run[i].event.Take? && run[i].event.sample == p
  }

  /** All that the buffer holds came at or after the release r. */
  predicate HoldsSince(run: seq<Timed>, r: nat, n: nat)
    requires r < n <= |run|
  {
    && ReleasedSince(run, r, n) && CameSince(run, r, n, At(run, n).latest)
    && forall i | 0 <= i < |At(run, n).queue| :: CameSince(run, r, n, At(run, n).queue[i].sample)
  }

  lemma SinceGrows(run: seq<Timed>, r: nat, n: nat)
    requires r < n < |run| && HoldsSince(run, r, n) && !run[n].event.Reset?
    requires run[n].event.Push? ==> run[n].event.sample.connected
    ensures HoldsSince(run, r, n + 1)
  {
    var s, t := At(run, n), At(run, n + 1);
    forall p | CameSince(run, r, n, p) ensures CameSince(run, r, n + 1, p) {
      var i :| r <= i < n && !run[i].event.Take? && run[i].event.sample == p;
    }
    if run[n].event.Push? {
      assert CameSince(run, r, n + 1, run[n].event.sample);
    }
    forall i | 0 <= i < |t.queue| ensures CameSince(run, r, n + 1, t.queue[i].sample) {
      if run[n].event.Take? {
        assert t.queue[i] == s.queue[i + |s.queue| - |t.queue|];
      } else if i < |t.queue| - 1 {
        assert t.queue[i] == s.queue[i];
      }
    }
    hide CameSince;
  }

  lemma {:induction false} ArmedByRelease(run: seq<Timed>, n: nat)
    requires n <= |run| && At(run, n).armed
    ensures At(run, n).enabled && exists r | 0 <= r < n :: HoldsSince(run, r, n)
  {
    hide HoldsSince, CameSince, ReleasedSince;
    var e := run[n - 1].event;
    AlwaysFaithful(run, n - 1);
    if At(run, n - 1).armed && !e.Reset? {
      ArmedByRelease(run, n - 1);
      var r :| 0 <= r < n - 1 && HoldsSince(run, r, n - 1);
      SinceGrows(run, r, n - 1);
    } else {
      ReleasedNow(run, n);
    }
  }

  lemma ReleasedNow(run: seq<Timed>, n: nat)
    requires 0 < n <= |run| && At(run, n).armed && !(At(run, n - 1).armed && !run[n - 1].event.Reset?)
    requires At(run, n - 1).queue != [] ==> At(run, n - 1).armed
    ensures HoldsSince(run, n - 1, n) && At(run, n).enabled
  {
    assert CameSince(run, n - 1, n, run[n - 1].event.sample);
  }

  /** Nothing held at a reset or reconnect gets through: whatever buttons a take hands on came with a
      later push than some moment at which the pad was fully released, with no reset or loss of the
      pad since. */
  lemma HeldButtonsWaitForRelease(run: seq<Timed>, n: nat)
    requires n < |run| && run[n].event.Take?
    requires var p := TakeSpec(At(run, n), run[n].at).sample; p.buttons != NOTHING || p.anyButton
    ensures exists r | 0 <= r < n :: ReleasedSince(run, r, n) && CameSince(run, r + 1, n, TakeSpec(At(run, n), run[n].at).sample)
  {
    var p := TakeSpec(At(run, n), run[n].at).sample;
    ArmedByRelease(run, n);
    var r :| 0 <= r < n && HoldsSince(run, r, n);
    assert CameSince(run, r, n, p);
    var i :| r <= i < n && !run[i].event.Take? && run[i].event.sample == p;
    assert i != r;
  }

  // ----- The ring.

  function Slot(head: nat, i: nat): (k: nat)
    ensures k < CAPACITY
  {
    (head + i) % CAPACITY
  }

  /** The states in a ring, oldest first. */
  function Ring(events: seq<Queued>, head: nat, count: nat): (q: seq<Queued>)
    requires |events| == CAPACITY
    ensures |q| == count
  {
    seq(count, i requires 0 <= i < count => events[Slot(head, i)])
  }

  lemma RingPush(events: seq<Queued>, head: nat, count: nat, x: Queued)
    requires |events| == CAPACITY && count < CAPACITY
    ensures Ring(events[Slot(head, count) := x], head, count + 1) == Ring(events, head, count) + [x]
  {
    forall i | 0 <= i < count ensures Slot(head, i) != Slot(head, count) {
    }
  }

  lemma RingPop(events: seq<Queued>, head: nat, count: nat)
    requires |events| == CAPACITY && 0 < count && head < CAPACITY
    ensures Ring(events, head, count)[0] == events[head]
    ensures Ring(events, Slot(head, 1), count - 1) == Ring(events, head, count)[1..]
  {
    assert Slot(head, 0) == head;
    forall i | 0 <= i < count - 1 ensures Slot(Slot(head, 1), i) == Slot(head, i + 1) {
    }
  }

  class InputRing {
    var latest: Sample
    const events: array<Queued>
    var head: nat
    var count: nat
    var enabled: bool
    var armed: bool
    var dropped: u32

    ghost predicate Valid()
      reads this
    {
      events.Length == CAPACITY && head < CAPACITY && count <= CAPACITY
    }

    function View(): Buffer
      reads this, events
      requires Valid()
    {
      Buffer(latest, Ring(events[..], head, count), enabled, armed, dropped)
    }

    constructor ()
      ensures Valid() && fresh(events) && View() == INITIAL
    {
      latest, head, count, enabled, armed, dropped := UNPLUGGED, 0, 0, false, false, 0;
      events := new Queued[CAPACITY](_ => Queued(UNPLUGGED, 0));
    }

    /** gb_input_buffer_reset */
    method ResetBuffer(p: Sample, enable: bool)
      requires Valid()
      modifies this
      ensures Valid() && View() == ResetSpec(old(View()), p, enable)
    {
      NoBits(p);
      latest := p;
      head, count := 0, 0;
      enabled := enable;
      armed := enable && p.connected && !p.anyButton && SampleBits(p) == 0;
    }

    /** gb_input_buffer_push */
    method PushSample(p: Sample, now: int)
      requires Valid()
      modifies this, events
      ensures Valid() && View() == PushSpec(old(View()), p, now)
    {
      BitsIdentify(p, latest);
      NoBits(p);
      hide SampleBits, Wrap;
      var previous := SampleBits(latest);
      latest := p;
      if !p.connected || !enabled {
        head, count := 0, 0;
        armed := false;
        return;
      }
      if !armed {
        armed := p.connected && !p.anyButton && SampleBits(p) == 0;
        return;
      }
      if SampleBits(p) == previous {
        return;
      }
      if count == CAPACITY {
        dropped := Wrap(dropped + count);
        head, count := 0, 0;
      }
      RingPush(events[..], head, count, Queued(p, now));
      hide Ring;
      var tail := (head + count) % CAPACITY;
      ghost var before := events[..];
      events[tail] := Queued(p, now);
      assert events[..] == before[Slot(head, count) := Queued(p, now)];
      count := count + 1;
    }

    /** gb_input_buffer_take */
    method TakeSample(now: int) returns (p: Sample)
      requires Valid()
      modifies this
      ensures Valid() && Taken(View(), p) == TakeSpec(old(View()), now)
    {
      if !enabled || !armed {
        return Sample(latest.connected, NOTHING, false);
      }
      if count != 0 {
        RingPop(events[..], head, count);
      }
      if count != 0 && now - events[head].at > MAX_AGE {
        dropped := Wrap(dropped + count);
        head, count := 0, 0;
      }
      if count == 0 {
        return latest;
      }
      hide Ring;
      p := events[head].sample;
      head := (head + 1) % CAPACITY;
      count := count - 1;
    }
  }
}
