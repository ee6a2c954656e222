/** The handshake with an IINE L1241 pad (components/bluepad32/bt/uni_bt_le_iine.c): one link record,
    driven by a periodic tick, GATT events, notifications, the user and resets.

    Whether the Bluetooth stack accepts a request and whether the platform accepts the finished
    controller are arguments of the events. Time is a wrapping millisecond counter. */
module IineLink {
  import opened Bytes
  import opened IinePacket

  const REQUEST_TIMEOUT := 4500
  const CONFIRM_TIME := 60000
  const IDENTITY: seq<byte> := [7, 0x10, 2, 0x20]

  datatype Stage = Service | Characteristics | Subscribe | Info | Confirm | Caps | Mode | Delay | Test | Running {
    function Rank(): nat {
      match this
      case Service => 0 case Characteristics => 1 case Subscribe => 2 case Info => 3 case Confirm => 4
      case Caps => 5 case Mode => 6 case Delay => 7 case Test => 8 case Running => 9
    }
  }

  datatype Link = Link(
    stage: Stage, busy: bool, listening: bool, replied: bool, ready: bool,
    serialCounter: byte, serial: byte, attempts: nat, firmware: nat,
    deadline: u32, nextKeepalive: u32,
    service: nat, write: nat, notify: nat, reply: Packet, input: Pad)

  /** A link record, or none: the record is cleared on failure, reset and disconnection. */
  datatype Slot = Idle | Active(link: Link)

  datatype Request =
    | FindService
    | FindCharacteristics(service: nat)
    | EnableNotifications(characteristic: nat)
    | WriteValue(characteristic: nat, opcode: byte, serial: byte, payload: seq<byte>)

  /** The new record, the request the stack accepted, and the controller state handed on. */
  datatype Out = Out(slot: Slot, request: Option<Request>, published: Option<Pad>)

  datatype Uuid = WriteUuid | NotifyUuid | OtherUuid

  /** What the host makes of a ready controller: it takes it, declines it and drops the connection, or has taken
      it before. */
  datatype ReadyAnswer = Accepted | Declined | AlreadyReady

  datatype Event =
    | Start(accepts: bool)
    | Tick(accepts: bool, asks: bool, answer: ReadyAnswer)
    | ServiceFound(size: nat, group: nat)
    | CharacteristicFound(size: nat, uuid: Uuid, writable: bool, notifies: bool, value: nat)
    | Completed(size: nat, status: byte, accepts: bool)
    | Notified(size: nat, characteristic: nat, data: seq<byte>)
    | UserConfirmed
    | Reset

  const NO_PACKET := Packet(0, 0, [])
  const REST: Pad := Input({}, {}, [128, 128, 0, 128, 128, 0], {})
  const ZEROED: Pad := Input({}, {}, [0, 0, 0, 0, 0, 0], {})
  const FRESH := Link(Service, false, false, false, false, 0, 0, 0, 0, 0, 0, 0, 0, 0, NO_PACKET, REST)

  const FAILED := Out(Idle, None, None)

  function Keep(l: Link): Out {
    Out(Active(l), None, None)
  }

  function Advanced(l: Link, stage: Stage, now: u32): Link {
    l.(stage := stage, attempts := 0, replied := false, deadline := now)
  }

  /** check_start: a request the stack refuses ends the connection. */
  function Started(l: Link, request: Request, now: u32, accepts: bool): Out {
    if accepts then Out(Active(l.(busy := true, deadline := Wrap(now + REQUEST_TIMEOUT))), Some(request), None)
    else FAILED
  }

  function SerialFrom(counter: byte): byte {
    counter % 128 + (if counter % 2 == 1 then 0 else 128)
  }

  /** send_request */
  function Sent(l: Link, opcode: byte, payload: seq<byte>, now: u32, accepts: bool): (o: Out)
    ensures o.request.Some? ==> o.slot.Active?
  {
    if l.busy || !RequestAllowed(opcode, payload) then Keep(l)
    else
      var counter: byte := (l.serialCounter as int + 1) % 256;
      Started(l.(serialCounter := counter, serial := SerialFrom(counter), replied := false),
              WriteValue(l.write, opcode, SerialFrom(counter), payload), now, accepts)
  }

  function OnStart(s: Slot, now: u32, accepts: bool): Out {
    if s.Active? then Keep(s.link) else Started(FRESH, FindService, now, accepts)
  }

  /** The identity of the supported pad. */
  predicate Matches(p: Packet) {
    |p.payload| == 8 && p.payload[..4] == IDENTITY
  }

  predicate Verified(reply: Packet) {
    |reply.payload| == 8 && reply.payload[4..6] == [0x27, 2]
  }

  function OnIdentity(l: Link, now: u32, asks: bool): Out {
    if !Matches(l.reply) then FAILED
    else if Verified(l.reply) then Keep(Advanced(l.(firmware := 0x2702), Caps, now))
    else if asks then
      Keep(Advanced(l.(firmware := l.reply.payload[4] as int * 256 + l.reply.payload[5]), Confirm, now)
            .(deadline := Wrap(now + CONFIRM_TIME)))
    else FAILED
  }

  /** The identity and capability requests: a matching reply, another attempt, or giving up. */
  function OnInquiry(l: Link, now: u32, accepts: bool, asks: bool): Out {
    if l.replied then
      if l.stage == Info then OnIdentity(l, now, asks) else Keep(Advanced(l, Mode, now))
    else if !Due(now, l.deadline) then Keep(l)
    else if l.attempts >= 2 then
      if l.stage == Info then FAILED else Keep(Advanced(l, Mode, now))
    else
      var retry := l.(attempts := l.attempts + 1);
      if l.stage == Info then Sent(retry, 0x91, [], now, accepts) else Sent(retry, 0xB0, CAPS_PAYLOAD, now, accepts)
  }

  function OnTick(l: Link, now: u32, accepts: bool, asks: bool, answer: ReadyAnswer): Out {
    if l.busy then if Due(now, l.deadline) then FAILED else Keep(l)
    else
      match l.stage
      case Info => OnInquiry(l, now, accepts, asks)
      case Caps => OnInquiry(l, now, accepts, asks)
      case Confirm => if Due(now, l.deadline) then FAILED else Keep(l)
      case Mode =>
        var o := Sent(l, 0x1D, MODE_PAYLOAD, now, accepts);
        if o.request.None? then o else o.(slot := Active(o.slot.link.(stage := Delay, nextKeepalive := Wrap(now + 500))))
      case Delay =>
        if !Due(now, l.nextKeepalive) then Keep(l)
        else
          var o := Sent(l, 0x1D, TEST_PAYLOAD, now, accepts);
          if o.request.None? then o else o.(slot := Active(o.slot.link.(stage := Test)))
      case Test =>
        if answer.Accepted? then Out(Active(l.(stage := Running, ready := true, nextKeepalive := Wrap(now + 1000))), None, Some(l.input))
        else if answer.AlreadyReady? then Keep(l.(stage := Running))
        else FAILED
      case Running =>
        // Without an accepted controller no timer runs any more.
        if !l.ready || !Due(now, l.nextKeepalive) then Keep(l)
        else
          var o := Sent(l, 0x1D, TEST_PAYLOAD, now, accepts);
          if o.slot.Idle? then o else o.(slot := Active(o.slot.link.(nextKeepalive := Wrap(now + 1000))))
      case _ => Keep(l)
  }

  function OnService(l: Link, size: nat, group: nat): Out {
    if l.stage != Service || size < 28 then Keep(l)
    else if l.service != 0 then FAILED
    else Keep(l.(service := group))
  }

  function OnCharacteristic(l: Link, e: Event): Out
    requires e.CharacteristicFound?
  {
    if l.stage != Characteristics || e.size < 32 then Keep(l)
    else if e.uuid == WriteUuid && e.writable then
      if l.write != 0 then FAILED else Keep(l.(write := e.value))
    else if e.uuid == NotifyUuid && e.notifies then
      if l.notify != 0 then FAILED else Keep(l.(notify := e.value))
    else Keep(l)
  }

  function OnCompleted(l: Link, size: nat, status: byte, now: u32, accepts: bool): Out {
    if size < 9 || !l.busy then Keep(l)
    else if status != 0 then FAILED
    else
      var m := l.(busy := false);
      match l.stage
      case Service =>
        if m.service == 0 then FAILED else Started(m.(stage := Characteristics), FindCharacteristics(m.service), now, accepts)
      case Characteristics =>
        if m.write == 0 || m.notify == 0 then FAILED
        else Started(m.(stage := Subscribe, listening := true), EnableNotifications(m.notify), now, accepts)
      case Subscribe => Keep(Advanced(m, Info, now))
      case _ => Keep(m)
  }

  /** Replies count while one is awaited, under the serial of the latest request; input reports count
      once the mode has been requested, and are handed on once the controller is ready. */
  function OnNotified(l: Link, size: nat, characteristic: nat, data: seq<byte>): Out {
    if size < 12 || characteristic != l.notify || |data| != size - 12 then Keep(l)
    else
      match Parse(data)
      case None => Keep(l)
      case Some(p) =>
        if (l.stage == Info || l.stage == Caps) && l.attempts > 0 && !l.replied && p.opcode == 0x19 && p.serial == l.serial
        then Keep(l.(reply := p, replied := true))
        else if l.stage.Rank() >= Mode.Rank() && p.opcode == 0x1F then
          match InputDecoded(p.payload, l.input)
          case None => Keep(l)
          case Some(state) =>
            Out(Active(l.(input := state)), None, if l.ready then Some(state) else None)
        else Keep(l)
  }

  function OnConfirmed(l: Link, now: u32): Out {
    if l.stage != Confirm then Keep(l) else if Due(now, l.deadline) then FAILED else Keep(Advanced(l, Caps, now))
  }

  function Step(s: Slot, e: Event, now: u32): Out {
    if e.Start? then OnStart(s, now, e.accepts)
    else if s.Idle? then Out(Idle, None, None)
    else
      match e
      case Tick(accepts, asks, answer) => OnTick(s.link, now, accepts, asks, answer)
      case ServiceFound(size, group) => OnService(s.link, size, group)
      case CharacteristicFound(_, _, _, _, _) => OnCharacteristic(s.link, e)
      case Completed(size, status, accepts) => OnCompleted(s.link, size, status, now, accepts)
      case Notified(size, characteristic, data) => OnNotified(s.link, size, characteristic, data)
      case UserConfirmed => OnConfirmed(s.link, now)
      case Reset => FAILED
  }

  // ----- Runs.

  datatype Timed = Timed(at: nat, event: Event)

  /** The record before event k of a run. */
  function At(run: seq<Timed>, k: nat): Slot
    requires k <= |run|
    decreases k, 0
  {
    if k == 0 then Idle else OutAt(run, k - 1).slot
  }

  function OutAt(run: seq<Timed>, k: nat): Out
    requires k < |run|
    decreases k, 1
  {
    Step(At(run, k), run[k].event, Wrap(run[k].at))
  }

  predicate In(run: seq<Timed>, k: nat, stage: Stage)
    requires k <= |run|
  {
    At(run, k).Active? && At(run, k).link.stage == stage
  }

  predicate Busy(run: seq<Timed>, k: nat)
    requires k <= |run|
  {
    At(run, k).Active? && At(run, k).link.busy
  }

  /** The event that began the connection in place at k. */
  function StartOf(run: seq<Timed>, k: nat): nat
    requires k <= |run|
  {
    if k == 0 then 0 else if At(run, k - 1).Idle? then k - 1 else StartOf(run, k - 1)
  }

  // ----- At most one request.

  /** Requests the stack has accepted and not completed on the present connection. */
  function Outstanding(run: seq<Timed>, k: nat): nat
    requires k <= |run|
  {
    if k == 0 || At(run, k).Idle? then 0
    else
      var before := Outstanding(run, k - 1);
      var e := run[k - 1].event;
      (if e.Completed? && e.size >= 9 && before > 0 then before - 1 else before)
      + (if OutAt(run, k - 1).request.Some? then 1 else 0)
  }

  /** The step of a link, where it concerns requests. */
  predicate RequestMoves(l: Link, e: Event, o: Out) {
    o.slot.Active? ==>
      var m := o.slot.link;
      && (o.request.Some? ==> m.busy && (!l.busy || (e.Completed? && e.size >= 9)))
      && (o.request.None? ==> m.busy == (l.busy && !(e.Completed? && e.size >= 9)))
      && (o.request.Some? && o.request.value.WriteValue? ==>
            var w := o.request.value;
            && RequestAllowed(w.opcode, w.payload) && w.characteristic == l.write && w.serial == m.serial && !m.replied
            && m.serialCounter == (l.serialCounter as int + 1) % 256 && m.serial == SerialFrom(m.serialCounter))
      && (!(o.request.Some? && o.request.value.WriteValue?) ==> m.serialCounter == l.serialCounter && m.serial == l.serial)
  }

  lemma StepRequests(l: Link, e: Event, now: u32)
    ensures RequestMoves(l, e, Step(Active(l), e, now))
  {
    hide Parse, InputDecoded, RequestAllowed, SerialFrom, Due, Verified;
    if e.Tick? {
      TickRequests(l, e, now);
    }
  }

  lemma TickRequests(l: Link, e: Event, now: u32)
    requires e.Tick?
    ensures RequestMoves(l, e, OnTick(l, now, e.accepts, e.asks, e.answer))
  {
    hide RequestAllowed, SerialFrom, Due, OnInquiry;
    InquiryRequests(l, e, now);
  }

  lemma InquiryRequests(l: Link, e: Event, now: u32)
    requires e.Tick?
    ensures RequestMoves(l, e, OnInquiry(l, now, e.accepts, e.asks))
  {
    hide RequestAllowed, SerialFrom, Due, Verified, Matches;
  }

  /** At most one request is ever outstanding... */
  lemma {:induction false} OneRequestAtATime(run: seq<Timed>, k: nat)
    requires k <= |run|
    ensures Outstanding(run, k) == if Busy(run, k) then 1 else 0
  {
    if k > 0 {
      OneRequestAtATime(run, k - 1);
      if At(run, k - 1).Active? {
        StepRequests(At(run, k - 1).link, run[k - 1].event, Wrap(run[k - 1].at));
        hide Step;
      }
    }
  }

  lemma {:induction false} SerialFollowsCounter(run: seq<Timed>, k: nat)
    requires k <= |run|
    ensures At(run, k).Active? ==>
      var l := At(run, k).link;
      l.serial == SerialFrom(l.serialCounter) || (l.serial == 0 && l.serialCounter == 0)
  {
    hide SerialFrom;
    if k > 0 {
      SerialFollowsCounter(run, k - 1);
      if At(run, k - 1).Active? {
        StepRequests(At(run, k - 1).link, run[k - 1].event, Wrap(run[k - 1].at));
        hide Step;
      }
    }
  }

  /** ...and every value written is an allowed request, on the discovered characteristic, under a
      serial other than that of the request before it; earlier replies no longer count. */
  lemma WritesAreAllowed(run: seq<Timed>, k: nat)
    requires k < |run| && OutAt(run, k).request.Some? && OutAt(run, k).request.value.WriteValue?
    ensures var w := OutAt(run, k).request.value;
      && At(run, k).Active? && At(run, k + 1).Active?
      && RequestAllowed(w.opcode, w.payload)
      && w.characteristic == At(run, k).link.write
      && w.serial == At(run, k + 1).link.serial != At(run, k).link.serial
      && !At(run, k + 1).link.replied
  {
    hide RequestAllowed, Step, SerialFrom;
    SerialFollowsCounter(run, k);
    WriteMeansActive(At(run, k), run[k].event, Wrap(run[k].at));
    RequestMeansActive(At(run, k), run[k].event, Wrap(run[k].at));
    StepRequests(At(run, k).link, run[k].event, Wrap(run[k].at));
    SerialMoves(At(run, k).link.serialCounter);
  }

  lemma SerialMoves(counter: byte)
    ensures SerialFrom((counter + 1) % 256) != 0 && SerialFrom((counter + 1) % 256) != SerialFrom(counter)
  {
  }

  lemma WriteMeansActive(s: Slot, e: Event, now: u32)
    ensures var r := Step(s, e, now).request; r.Some? && r.value.WriteValue? ==> s.Active?
  {
    hide OnTick, OnCompleted;
  }

  lemma RequestMeansActive(s: Slot, e: Event, now: u32)
    ensures Step(s, e, now).request.Some? ==> Step(s, e, now).slot.Active?
  {
    hide Parse, InputDecoded, RequestAllowed, SerialFrom, Due, Verified;
  }

  // ----- Consent.

  function ReplyOf(run: seq<Timed>, i: nat): Option<Packet>
    requires i < |run|
  {
    if run[i].event.Notified? then Parse(run[i].event.data) else None
  }

  /** Event i is a reply awaited in this stage, under the serial of the latest request. */
  predicate Replied(run: seq<Timed>, i: nat, stage: Stage)
    requires i < |run|
  {
    && In(run, i, stage) && At(run, i).link.attempts > 0
    && ReplyOf(run, i).Some? && ReplyOf(run, i).value.opcode == 0x19 && ReplyOf(run, i).value.serial == At(run, i).link.serial
  }

  /** Event i is a reply to the identity request: eight octets that start with the identity of the
      supported pad. */
  predicate Identified(run: seq<Timed>, i: nat)
    requires i < |run|
  {
    Replied(run, i, Info) && Matches(ReplyOf(run, i).value)
  }

  /** The user was asked at event a, and confirmed at event c in time and on the same connection. */
  predicate Approved(run: seq<Timed>, a: nat, c: nat)
    requires a < c < |run|
  {
    && Asked(run, a, c)
    && run[c].event.UserConfirmed? && In(run, c + 1, Caps)
    && !Due(Wrap(run[c].at), Wrap(run[a].at + CONFIRM_TIME))
  }

  predicate Asked(run: seq<Timed>, a: nat, k: nat)
    requires a < k <= |run|
  {
    run[a].event.Tick? && In(run, a, Info) && forall j | a < j <= k :: In(run, j, Confirm)
  }

  /** The request with this payload was accepted at event i, and its completion arrived at event d. */
  predicate Issued(run: seq<Timed>, i: nat, k: nat, payload: seq<byte>)
    requires i < k <= |run|
  {
    var o := OutAt(run, i);
    && o.request.Some? && o.request.value.WriteValue? && o.request.value.opcode == 0x1D && o.request.value.payload == payload
    && forall j | i < j <= k :: Busy(run, j)
  }

  predicate Wrote(run: seq<Timed>, i: nat, d: nat, payload: seq<byte>)
    requires i < d < |run|
  {
    Issued(run, i, d, payload) && run[d].event.Completed? && run[d].event.size >= 9 && run[d].event.status == 0
  }

  /** The pad is the supported one, and its firmware is 27.02 or the user accepted it. */
  predicate HasConsent(run: seq<Timed>, s: nat, k: nat)
    requires k <= |run|
  {
    exists i | s < i < k :: Identified(run, i) && (Verified(ReplyOf(run, i).value) || HasApproval(run, i, k))
  }

  predicate HasApproval(run: seq<Timed>, i: nat, k: nat)
    requires k <= |run|
  {
    exists a, c | i < a < c < k :: Approved(run, a, c)
  }

  predicate HasWritten(run: seq<Timed>, s: nat, k: nat, payload: seq<byte>)
    requires k <= |run|
  {
    exists i, d | s < i < d < k :: Wrote(run, i, d, payload)
  }

  predicate HasIssued(run: seq<Timed>, s: nat, k: nat, payload: seq<byte>)
    requires k <= |run|
  {
    exists i | s < i < k :: Issued(run, i, k, payload)
  }

  /** A reply that waits to be looked at came in answer to the latest request. */
  predicate Answered(run: seq<Timed>, s: nat, k: nat, p: Packet)
    requires k <= |run|
  {
    exists i | s < i < k :: Replied(run, i, Info) && ReplyOf(run, i) == Some(p)
  }

  predicate AwaitingUser(run: seq<Timed>, s: nat, k: nat, deadline: u32)
    requires k <= |run|
  {
    exists i, a | s < i < a < k :: Identified(run, i) && Asked(run, a, k) && deadline == Wrap(run[a].at + CONFIRM_TIME)
  }

  /** What has happened on the present connection, given how far it has come. */
  predicate Explained(run: seq<Timed>, k: nat)
    requires k <= |run|
  {
    At(run, k).Active? ==>
      var l, s := At(run, k).link, StartOf(run, k);
      && s < k && run[s].event.Start? && At(run, s).Idle? && (forall j | s < j <= k :: At(run, j).Active?)
      && (l.replied && l.stage == Info ==> Answered(run, s, k, l.reply))
      && (l.stage == Confirm ==> AwaitingUser(run, s, k, l.deadline) && !l.busy)
      && (l.stage.Rank() >= Caps.Rank() ==> HasConsent(run, s, k))
      && (l.stage == Delay && l.busy ==> HasIssued(run, s, k, MODE_PAYLOAD))
      && ((l.stage == Delay && !l.busy) || l.stage.Rank() > Delay.Rank() ==> HasWritten(run, s, k, MODE_PAYLOAD))
      && (l.stage == Test && l.busy ==> HasIssued(run, s, k, TEST_PAYLOAD))
      && ((l.stage == Test && !l.busy) || l.stage == Running ==> HasWritten(run, s, k, TEST_PAYLOAD))
      && (l.ready ==> l.stage == Running)
  }

  /** What is on record stays on record. */
  lemma RecordGrows(run: seq<Timed>, s: nat, k: nat)
    requires k < |run|
    ensures HasConsent(run, s, k) ==> HasConsent(run, s, k + 1)
    ensures forall p :: Answered(run, s, k, p) ==> Answered(run, s, k + 1, p)
    ensures forall payload :: HasWritten(run, s, k, payload) ==> HasWritten(run, s, k + 1, payload)
  {
    hide Approved, Wrote, In, At;
    forall payload | HasWritten(run, s, k, payload) ensures HasWritten(run, s, k + 1, payload) {
      var i, d :| s < i < d < k && Wrote(run, i, d, payload);
      assert Wrote(run, i, d, payload);
    }
    forall p | Answered(run, s, k, p) ensures Answered(run, s, k + 1, p) {
      var i :| s < i < k && Replied(run, i, Info) && ReplyOf(run, i) == Some(p);
      assert Replied(run, i, Info);
    }
    if HasConsent(run, s, k) {
      var i :| s < i < k && Identified(run, i) && (Verified(ReplyOf(run, i).value) || HasApproval(run, i, k));
      if HasApproval(run, i, k) {
        var a, c :| i < a < c < k && Approved(run, a, c);
        assert HasApproval(run, i, k + 1);
      }
    }
  }

  /** The step of a link, where it concerns the record: which stage changes are possible, and why. */
  predicate StageMoves(l: Link, e: Event, now: u32, o: Out) {
    o.slot.Active? ==>
      var m := o.slot.link;
      && (m.stage == l.stage || m.stage.Rank() > l.stage.Rank())
      && (m.stage == Info && m.replied ==>
            l.stage == Info && ((l.replied && m.reply == l.reply) || (l.attempts > 0 && IsReply(l, e, m.reply))))
      && (m.stage == Confirm && l.stage != Confirm ==>
            e.Tick? && l.stage == Info && l.replied && Matches(l.reply) && m.deadline == Wrap(now + CONFIRM_TIME) && !m.busy)
      && (m.stage == Confirm && l.stage == Confirm && !l.busy ==> m.deadline == l.deadline && !m.busy)
      && (m.stage.Rank() >= Caps.Rank() && l.stage.Rank() < Caps.Rank() ==>
            m.stage == Caps
            && ((l.stage == Info && l.replied && Matches(l.reply) && Verified(l.reply))
                || (l.stage == Confirm && e.UserConfirmed? && !Due(now, l.deadline))))
      && (m.stage.Rank() >= Delay.Rank() && l.stage.Rank() < Delay.Rank() ==>
            m.stage == Delay && m.busy && WritesOf(o, MODE_PAYLOAD))
      && (l.stage == Delay && m.stage == Delay && m.busy ==> l.busy)
      && (l.stage == Delay && l.busy && !(m.stage == Delay && m.busy) ==>
            m.stage == Delay && e.Completed? && e.size >= 9 && e.status == 0)
      && (m.stage.Rank() >= Test.Rank() && l.stage.Rank() < Test.Rank() ==>
            m.stage == Test && m.busy && l.stage == Delay && !l.busy && WritesOf(o, TEST_PAYLOAD))
      && (l.stage == Test && m.stage == Test && m.busy ==> l.busy)
      && (l.stage == Test && l.busy && !(m.stage == Test && m.busy) ==>
            m.stage == Test && e.Completed? && e.size >= 9 && e.status == 0)
      && (m.stage == Running && l.stage != Running ==> l.stage == Test && !l.busy)
      && (m.ready ==> l.ready || m.stage == Running)
  }

  predicate IsReply(l: Link, e: Event, p: Packet) {
    e.Notified? && Parse(e.data) == Some(p) && p.opcode == 0x19 && p.serial == l.serial
  }

  predicate WritesOf(o: Out, payload: seq<byte>) {
    o.request.Some? && o.request.value.WriteValue? && o.request.value.opcode == 0x1D && o.request.value.payload == payload
  }

  lemma StepMoves(l: Link, e: Event, now: u32)
    ensures StageMoves(l, e, now, Step(Active(l), e, now))
  {
    hide StageMoves, OnTick, OnCompleted, OnNotified, OnService, OnCharacteristic, OnStart, OnConfirmed;
    if e.Tick? {
      TickMoves(l, e, now);
    } else if e.Completed? {
      CompletionMoves(l, e, now);
    } else {
      OtherMoves(l, e, now);
    }
  }

  lemma OtherMoves(l: Link, e: Event, now: u32)
    requires !e.Tick? && !e.Completed?
    ensures StageMoves(l, e, now, Step(Active(l), e, now))
  {
    hide Parse, InputDecoded, RequestAllowed, SerialFrom, Due, Verified;
  }

  lemma CompletionMoves(l: Link, e: Event, now: u32)
    requires e.Completed?
    ensures StageMoves(l, e, now, OnCompleted(l, e.size, e.status, now, e.accepts))
  {
    hide RequestAllowed, SerialFrom, Due, Verified;
  }

  lemma TickMoves(l: Link, e: Event, now: u32)
    requires e.Tick?
    ensures StageMoves(l, e, now, OnTick(l, now, e.accepts, e.asks, e.answer))
  {
    hide RequestAllowed, SerialFrom, Due, OnInquiry, Matches, Verified;
    if !l.busy && (l.stage == Info || l.stage == Caps) {
      InquiryMoves(l, e, now);
    }
  }

  lemma InquiryMoves(l: Link, e: Event, now: u32)
    requires e.Tick? && !l.busy && (l.stage == Info || l.stage == Caps)
    ensures StageMoves(l, e, now, OnInquiry(l, now, e.accepts, e.asks))
  {
    hide RequestAllowed, SerialFrom, Due, Verified, Matches;
  }

  /** The link before event k, its event and the time it came. */
  lemma Moves(run: seq<Timed>, k: nat)
    requires k < |run| && At(run, k).Active?
    ensures StageMoves(At(run, k).link, run[k].event, Wrap(run[k].at), OutAt(run, k))
  {
    StepMoves(At(run, k).link, run[k].event, Wrap(run[k].at));
    hide Step;
  }

  lemma NextIsOut(run: seq<Timed>, k: nat)
    requires k < |run|
    ensures At(run, k + 1) == OutAt(run, k).slot
  {
  }

  predicate Steady(run: seq<Timed>, k: nat)
    requires k < |run|
  {
    Explained(run, k) && At(run, k).Active? && At(run, k + 1).Active?
  }

  lemma NextAnswer(run: seq<Timed>, k: nat)
    requires k < |run| && Steady(run, k)
    ensures var m, s := At(run, k + 1).link, StartOf(run, k + 1);
      m.replied && m.stage == Info ==> Answered(run, s, k + 1, m.reply)
  {
    Moves(run, k);
    RecordGrows(run, StartOf(run, k), k);
    hide Step, HasConsent, HasWritten, AwaitingUser, HasIssued;
    var l, m := At(run, k).link, At(run, k + 1).link;
    if m.replied && m.stage == Info && !(l.replied && m.reply == l.reply) {
      assert Replied(run, k, Info);
    }
  }

  /** What the moves of a link mean for the question to the user. */
  lemma ConfirmMoves(l: Link, e: Event, now: u32, o: Out)
    requires StageMoves(l, e, now, o) && o.slot.Active? && o.slot.link.stage == Confirm
    ensures l.stage != Confirm ==>
      e.Tick? && l.stage == Info && l.replied && Matches(l.reply) && o.slot.link.deadline == Wrap(now + CONFIRM_TIME) && !o.slot.link.busy
    ensures l.stage == Confirm && !l.busy ==> o.slot.link.deadline == l.deadline && !o.slot.link.busy
  {
    hide Matches, Wrap;
  }

  lemma NextConfirm(run: seq<Timed>, k: nat)
    requires k < |run| && Steady(run, k)
    ensures var m, s := At(run, k + 1).link, StartOf(run, k + 1);
      m.stage == Confirm ==> AwaitingUser(run, s, k + 1, m.deadline) && !m.busy
  {
    hide StageMoves, Wrap, Step, At, OutAt, HasConsent, HasWritten, HasIssued, Parse, AwaitingUser, Answered, IsReply, Matches, Verified;
    var l, m, s := At(run, k).link, At(run, k + 1).link, StartOf(run, k);
    NextIsOut(run, k);
    if m.stage == Confirm {
      Moves(run, k);
      ConfirmMoves(l, run[k].event, Wrap(run[k].at), OutAt(run, k));
      if l.stage == Confirm {
        StillAsking(run, s, k, l.deadline);
      } else {
        WrapAdds(run[k].at, CONFIRM_TIME);
        StartsAsking(run, s, k, l.reply);
      }
    }
  }

  lemma StillAsking(run: seq<Timed>, s: nat, k: nat, deadline: u32)
    requires k < |run| && AwaitingUser(run, s, k, deadline) && In(run, k + 1, Confirm)
    ensures AwaitingUser(run, s, k + 1, deadline)
  {
    hide Identified, In, Wrap;
    var i, a :| s < i < a < k && Identified(run, i) && Asked(run, a, k) && deadline == Wrap(run[a].at + CONFIRM_TIME);
    assert Asked(run, a, k + 1);
  }

  lemma StartsAsking(run: seq<Timed>, s: nat, k: nat, reply: Packet)
    requires k < |run| && Answered(run, s, k, reply) && Matches(reply)
    requires run[k].event.Tick? && In(run, k, Info) && In(run, k + 1, Confirm)
    ensures AwaitingUser(run, s, k + 1, Wrap(run[k].at + CONFIRM_TIME))
  {
    hide In, Matches, Wrap, At, OutAt, ReplyOf;
    var i :| s < i < k && Replied(run, i, Info) && ReplyOf(run, i) == Some(reply);
    assert Identified(run, i);
    hide Identified;
    assert Asked(run, k, k + 1);
    hide Asked;
  }

  lemma NextConsent(run: seq<Timed>, k: nat)
    requires k < |run| && Steady(run, k)
    ensures var m, s := At(run, k + 1).link, StartOf(run, k + 1);
      m.stage.Rank() >= Caps.Rank() ==> HasConsent(run, s, k + 1)
  {
    Moves(run, k);
    RecordGrows(run, StartOf(run, k), k);
    hide Step, HasWritten, HasIssued, Parse;
    var l, m, s := At(run, k).link, At(run, k + 1).link, StartOf(run, k);
    if m.stage.Rank() >= Caps.Rank() && l.stage.Rank() < Caps.Rank() {
      if l.stage == Confirm {
        var i, a :| s < i < a < k && Identified(run, i) && Asked(run, a, k) && l.deadline == Wrap(run[a].at + CONFIRM_TIME);
        assert Approved(run, a, k);
        assert HasApproval(run, i, k + 1);
      } else {
        var i :| s < i < k && Replied(run, i, Info) && ReplyOf(run, i) == Some(l.reply);
        assert Identified(run, i);
      }
    }
  }

  /** The bookkeeping of one write: issued while busy, written once completed. */
  lemma NextWrite(run: seq<Timed>, k: nat, s: nat, payload: seq<byte>)
    requires k < |run| && s < k && At(run, k + 1).Active?
    ensures WritesOf(OutAt(run, k), payload) && Busy(run, k + 1) ==> HasIssued(run, s, k + 1, payload)
    ensures HasIssued(run, s, k, payload) && Busy(run, k + 1) ==> HasIssued(run, s, k + 1, payload)
    ensures HasIssued(run, s, k, payload) && run[k].event.Completed? && run[k].event.size >= 9 && run[k].event.status == 0
      ==> HasWritten(run, s, k + 1, payload)
  {
    hide Step;
    if HasIssued(run, s, k, payload) {
      var i :| s < i < k && Issued(run, i, k, payload);
      if Busy(run, k + 1) {
        assert Issued(run, i, k + 1, payload);
      }
      if run[k].event.Completed? && run[k].event.size >= 9 && run[k].event.status == 0 {
        assert Wrote(run, i, k, payload);
      }
    }
    if WritesOf(OutAt(run, k), payload) && Busy(run, k + 1) {
      assert Issued(run, k, k + 1, payload);
    }
  }

  lemma NextWrites(run: seq<Timed>, k: nat)
    requires k < |run| && Steady(run, k)
    ensures var m, s := At(run, k + 1).link, StartOf(run, k + 1);
      && (m.stage == Delay && m.busy ==> HasIssued(run, s, k + 1, MODE_PAYLOAD))
      && ((m.stage == Delay && !m.busy) || m.stage.Rank() > Delay.Rank() ==> HasWritten(run, s, k + 1, MODE_PAYLOAD))
      && (m.stage == Test && m.busy ==> HasIssued(run, s, k + 1, TEST_PAYLOAD))
      && ((m.stage == Test && !m.busy) || m.stage == Running ==> HasWritten(run, s, k + 1, TEST_PAYLOAD))
      && (m.ready ==> m.stage == Running)
  {
    hide At, Step, HasWritten, HasIssued, HasConsent, Answered, AwaitingUser, Matches, IsReply, Verified, WritesOf;
    assert StartOf(run, k + 1) == StartOf(run, k);
    assert At(run, k + 1) == OutAt(run, k).slot by { NextIsOut(run, k); }
    hide OutAt, StartOf;
    Moves(run, k);
    RecordGrows(run, StartOf(run, k), k);
    NextWrite(run, k, StartOf(run, k), MODE_PAYLOAD);
    NextWrite(run, k, StartOf(run, k), TEST_PAYLOAD);
  }

  lemma Begins(run: seq<Timed>, k: nat)
    requires k < |run| && At(run, k).Idle? && At(run, k + 1).Active?
    ensures run[k].event.Start? && At(run, k + 1).link == FRESH.(busy := true, deadline := Wrap(Wrap(run[k].at) + REQUEST_TIMEOUT))
  {
    assert At(run, k + 1) == OutAt(run, k).slot;
    hide Wrap;
  }

  lemma ExplainedFirst(run: seq<Timed>, k: nat)
    requires k < |run| && At(run, k).Idle?
    ensures Explained(run, k + 1)
  {
    if At(run, k + 1).Active? {
      Begins(run, k);
    }
    hide At, OutAt, HasWritten, HasIssued, HasConsent, Answered, AwaitingUser;
  }

  lemma ExplainedNext(run: seq<Timed>, k: nat)
    requires k < |run| && Steady(run, k)
    ensures Explained(run, k + 1)
  {
    hide At, OutAt, HasWritten, HasIssued, HasConsent, Answered, AwaitingUser;
    NextAnswer(run, k);
    NextConfirm(run, k);
    NextConsent(run, k);
    NextWrites(run, k);
    assert StartOf(run, k + 1) == StartOf(run, k);
  }

  lemma ExplainedIdle(run: seq<Timed>, k: nat)
    requires k <= |run| && (k == 0 || At(run, k).Idle?)
    ensures Explained(run, k)
  {
  }

  lemma {:induction false} EveryStateExplained(run: seq<Timed>, k: nat)
    requires k <= |run|
    ensures Explained(run, k)
  {
    hide Explained, At;
    if k == 0 || At(run, k).Idle? {
      ExplainedIdle(run, k);
    } else if At(run, k - 1).Idle? {
      ExplainedFirst(run, k - 1);
    } else {
      EveryStateExplained(run, k - 1);
      ExplainedNext(run, k - 1);
    }
  }

  /** Input reaches the rest of the system only with consent, and after both the mode and the test
      page request were written, all on the connection that is still up. */
  lemma PublishNeedsConsent(run: seq<Timed>, k: nat)
    requires k < |run| && OutAt(run, k).published.Some?
    ensures var s := StartOf(run, k);
      && s < k && run[s].event.Start? && (forall j | s < j <= k :: At(run, j).Active?)
      && HasConsent(run, s, k) && HasWritten(run, s, k, MODE_PAYLOAD) && HasWritten(run, s, k, TEST_PAYLOAD)
  {
    EveryStateExplained(run, k);
    PublishStage(At(run, k), run[k].event, Wrap(run[k].at));
    hide Step, HasWritten, HasIssued, HasConsent, Answered, AwaitingUser;
  }

  lemma PublishStage(s: Slot, e: Event, now: u32)
    requires Step(s, e, now).published.Some?
    ensures s.Active? && (s.link.ready || (s.link.stage == Test && !s.link.busy))
  {
    hide Parse, InputDecoded, RequestAllowed, SerialFrom, Due, Verified;
  }

  /** The user's time is real time as long as less than 2^31 ms pass: a confirmation that counts came
      within a minute of the question. */
  lemma ApprovalInTime(run: seq<Timed>, a: nat, c: nat)
    requires a < c < |run| && Approved(run, a, c)
    requires run[a].at <= run[c].at < run[a].at + 0x8000_0000
    ensures run[c].at < run[a].at + CONFIRM_TIME
  {
    hide Asked, At;
  }

  // ----- A controller the host has taken before.

  /** The handshake is over, the controller was not handed on, and no timer runs. */
  predicate Mute(s: Slot) {
    s.Active? && s.link.stage == Running && !s.link.ready && !s.link.busy
  }

  lemma StaysMute(s: Slot, e: Event, now: u32)
    requires Mute(s) && !e.Reset?
    ensures var o := Step(s, e, now); Mute(o.slot) && o.request.None? && o.published.None?
  {
    hide Parse, InputDecoded, RequestAllowed, SerialFrom, Due, Verified, Matches, OnInquiry, OnIdentity, Sent;
  }

  /** If the host has taken the controller before, the link keeps its record and asks for and hands on nothing
      any more, until it is reset. */
  lemma {:induction false} MuteUntilReset(run: seq<Timed>, k: nat, n: nat)
    requires k <= n <= |run| && Mute(At(run, k)) && forall i | k <= i < n :: !run[i].event.Reset?
    ensures Mute(At(run, n)) && forall i | k <= i < n :: OutAt(run, i).request.None? && OutAt(run, i).published.None?
    decreases n
  {
    hide Step, Mute;
    if k < n {
      MuteUntilReset(run, k, n - 1);
      StaysMute(At(run, n - 1), run[n - 1].event, Wrap(run[n - 1].at));
    }
  }

  lemma TakenBeforeIsMute(l: Link, now: u32, accepts: bool, asks: bool)
    requires l.stage == Test && !l.busy && !l.ready
    ensures Mute(Step(Active(l), Tick(accepts, asks, AlreadyReady), now).slot)
  {
  }

  // ----- Termination.

  /** The last tick before event k, or the start. */
  function LastTick(run: seq<Timed>, s: nat, k: nat): (i: nat)
    requires s < k <= |run|
    ensures s <= i < k
  {
    if k == s + 1 || run[k - 1].event.Tick? then k - 1 else LastTick(run, s, k - 1)
  }

  /** From event s on time does not go back, and the next tick is never more than gap ms away. */
  predicate Ticking(run: seq<Timed>, s: nat, gap: nat) {
    forall k | s < k < |run| ::
      run[k - 1].at <= run[k].at && run[k].at <= run[LastTick(run, s, k)].at + gap
  }

  predicate Finished(s: Slot) {
    s.Idle? || s.link.stage == Running
  }

  /** How much longer, after the present wait, the handshake can take. */
  function Budget(stage: Stage, attempts: nat, gap: nat): nat {
    var turn := REQUEST_TIMEOUT + gap;
    var left := if attempts >= 2 then 0 else 2 - attempts;
    match stage
    case Running => 0
    case Test => 0
    case Delay => turn
    case Mode => 2 * turn
    case Caps => left * turn + gap + 2 * turn
    case Confirm => 4 * turn + gap
    case Info => left * turn + CONFIRM_TIME + gap + 4 * turn + gap
    case Subscribe => gap + 2 * turn + CONFIRM_TIME + gap + 4 * turn + gap
    case Characteristics => 7 * turn + 3 * gap + CONFIRM_TIME
    case Service => 8 * turn + 3 * gap + CONFIRM_TIME
  }

  /** From start to finish, in milliseconds. */
  function Bound(gap: nat): nat {
    9 * REQUEST_TIMEOUT + CONFIRM_TIME + 12 * gap
  }

  /** The link waits for the moment `due`, which no tick has passed, and what follows fits the limit. */
  predicate Pending(l: Link, due: int, lastTick: int, limit: int, gap: nat) {
    && l.stage != Running && Wrap(due) == l.deadline
    && lastTick <= due && due + gap + Budget(l.stage, l.attempts, gap) <= limit
    && (l.stage == Delay ==> Wrap(due - 4000) == l.nextKeepalive)
    && (l.stage.Rank() <= Subscribe.Rank() ==> l.busy)
    && (l.stage == Confirm ==> !l.busy)
  }

  /** Within 2^31 ms the wrapping comparison is the real one. */
  lemma DueIsReal(t: int, due: int)
    requires -0x8000_0000 <= t - due < 0x8000_0000
    ensures Due(Wrap(t), Wrap(due)) <==> t >= due
  {
  }

  /** A request sent by a tick restarts the wait. */
  lemma SentPends(l: Link, opcode: byte, payload: seq<byte>, t: int, accepts: bool)
    requires !l.busy && RequestAllowed(opcode, payload)
    ensures var o := Sent(l, opcode, payload, Wrap(t), accepts);
      o.slot.Idle? || (o.request.Some? && o.slot.link.busy && o.slot.link.stage == l.stage && o.slot.link.attempts == l.attempts
                       && o.slot.link.deadline == Wrap(t + REQUEST_TIMEOUT))
  {
    WrapAdds(t, REQUEST_TIMEOUT);
    hide RequestAllowed, Wrap, SerialFrom;
  }

  lemma InquiryPends(l: Link, t: int, e: Event, due: int, lastTick: int, limit: int, gap: nat) returns (next: int)
    requires e.Tick? && Pending(l, due, lastTick, limit, gap) && !l.busy && (l.stage == Info || l.stage == Caps)
    requires lastTick <= t <= lastTick + gap && (Due(Wrap(t), l.deadline) <==> t >= due)
    ensures var o := OnInquiry(l, Wrap(t), e.accepts, e.asks); Finished(o.slot) || Pending(o.slot.link, next, t, limit, gap)
  {
    hide Due, RequestAllowed, Wrap, Sent, OnIdentity;
    if l.replied {
      next := t;
      if l.stage == Info {
        next := IdentityPends(l, t, e.asks, due, lastTick, limit, gap);
      }
    } else if t < due {
      next := due;
    } else if l.attempts >= 2 {
      next := t;
    } else {
      next := t + REQUEST_TIMEOUT;
      assert RequestAllowed(0x91, []) && RequestAllowed(0xB0, CAPS_PAYLOAD) by { InquiriesAllowed(); }
      var retry := l.(attempts := l.attempts + 1);
      SentPends(retry, 0x91, [], t, e.accepts);
      SentPends(retry, 0xB0, CAPS_PAYLOAD, t, e.accepts);
    }
  }

  lemma InquiriesAllowed()
    ensures RequestAllowed(0x91, []) && RequestAllowed(0xB0, CAPS_PAYLOAD)
  {
  }

  lemma IdentityPends(l: Link, t: int, asks: bool, due: int, lastTick: int, limit: int, gap: nat) returns (next: int)
    requires Pending(l, due, lastTick, limit, gap) && !l.busy && l.stage == Info
    requires lastTick <= t <= lastTick + gap
    ensures var o := OnIdentity(l, Wrap(t), asks); Finished(o.slot) || Pending(o.slot.link, next, t, limit, gap)
  {
    WrapAdds(t, CONFIRM_TIME);
    hide Matches, Verified, Wrap;
    next := if Verified(l.reply) then t else t + CONFIRM_TIME;
  }

  /** A tick either finishes, keeps waiting before the due moment, or moves on within the budget. */
  lemma TickPends(l: Link, t: int, e: Event, due: int, lastTick: int, limit: int, gap: nat) returns (next: int)
    requires e.Tick? && Pending(l, due, lastTick, limit, gap)
    requires lastTick <= t <= lastTick + gap && limit - t < 0x8000_0000 && gap < 0x7000_0000
    ensures var o := Step(Active(l), e, Wrap(t)); Finished(o.slot) || Pending(o.slot.link, next, t, limit, gap)
  {
    DueIsReal(t, due);
    DueIsReal(t, due - 4000);
    hide Due, OnInquiry;
    next := due;
    if !l.busy {
      if l.stage == Info || l.stage == Caps {
        next := InquiryPends(l, t, e, due, lastTick, limit, gap);
      } else if l.stage == Mode || (l.stage == Delay && t >= due - 4000) {
        WritePends(l, t, e, due, lastTick, limit, gap);
        next := t + REQUEST_TIMEOUT;
      } else {
        hide Sent, Wrap;
      }
    }
  }

  lemma WritePends(l: Link, t: int, e: Event, due: int, lastTick: int, limit: int, gap: nat)
    requires e.Tick? && Pending(l, due, lastTick, limit, gap) && !l.busy
    requires l.stage == Mode || (l.stage == Delay && Due(Wrap(t), l.nextKeepalive))
    requires lastTick <= t <= lastTick + gap
    ensures var o := OnTick(l, Wrap(t), e.accepts, e.asks, e.answer);
      o.slot.Idle? || Pending(o.slot.link, t + REQUEST_TIMEOUT, t, limit, gap)
  {
    SentPends(l, 0x1D, MODE_PAYLOAD, t, e.accepts);
    SentPends(l, 0x1D, TEST_PAYLOAD, t, e.accepts);
    WrapAdds(t, 500);
    hide Sent, Wrap, Due, RequestAllowed;
  }

  /** Whatever else happens cannot delay the end either. */
  lemma EventPends(l: Link, t: int, e: Event, due: int, lastTick: int, limit: int, gap: nat) returns (next: int)
    requires !e.Tick? && Pending(l, due, lastTick, limit, gap)
    requires lastTick <= t <= lastTick + gap && limit - t < 0x8000_0000 && gap < 0x7000_0000
    ensures var o := Step(Active(l), e, Wrap(t)); Finished(o.slot) || Pending(o.slot.link, next, lastTick, limit, gap)
  {
    hide Due, Wrap, Parse, InputDecoded, OnTick;
    DueIsReal(t, due);
    WrapAdds(t, REQUEST_TIMEOUT);
    next := due;
    if e.UserConfirmed? && l.stage == Confirm {
      next := t;
    } else if e.Completed? && l.busy && e.size >= 9 {
      if l.stage == Service || l.stage == Characteristics {
        next := t + REQUEST_TIMEOUT;
      } else if l.stage == Subscribe {
        next := t;
      }
    }
  }

  lemma EventOnce(l: Link, t: int, e: Event, due: int, lastTick: int, limit: int, gap: nat) returns (next: int)
    requires Pending(l, due, lastTick, limit, gap)
    requires lastTick <= t <= lastTick + gap && limit - t < 0x8000_0000 && gap < 0x7000_0000
    ensures var o := Step(Active(l), e, Wrap(t));
      Finished(o.slot) || Pending(o.slot.link, next, if e.Tick? then t else lastTick, limit, gap)
  {
    hide Step, Pending;
    if e.Tick? {
      next := TickPends(l, t, e, due, lastTick, limit, gap);
    } else {
      next := EventPends(l, t, e, due, lastTick, limit, gap);
    }
  }

  predicate EndsBy(run: seq<Timed>, s: nat, n: nat)
    requires n <= |run|
  {
    exists j | s < j <= n :: Finished(At(run, j))
  }

  /** Up to event n the handshake has finished or is still within its budget. */
  lemma {:induction false} PendingUntil(run: seq<Timed>, s: nat, n: nat, gap: nat) returns (due: int)
    requires s < n <= |run| && At(run, s).Idle? && run[s].event.Start? && Ticking(run, s, gap)
    requires Bound(gap) < 0x7000_0000
    ensures EndsBy(run, s, n)
      || (At(run, n).Active? && Pending(At(run, n).link, due, run[LastTick(run, s, n)].at, run[s].at + Bound(gap), gap))
    ensures run[s].at <= run[LastTick(run, s, n)].at
    decreases n
  {
    hide Step, Pending, Wrap;
    if n == s + 1 {
      due := run[s].at + REQUEST_TIMEOUT;
      FirstPends(run, s, gap);
    } else {
      due := PendingUntil(run, s, n - 1, gap);
      var k := n - 1;
      var last := LastTick(run, s, k);
      assert run[k - 1].at <= run[k].at <= run[last].at + gap;
      InOrder(run, s, gap, last, k);
      if EndsBy(run, s, k) {
        var j :| s < j <= k && Finished(At(run, j));
      } else {
        due := EventOnce(At(run, k).link, run[k].at, run[k].event, due, run[last].at, run[s].at + Bound(gap), gap);
        NextIsOut(run, k);
        assert OutAt(run, k) == Step(Active(At(run, k).link), run[k].event, Wrap(run[k].at));
      }
    }
  }

  lemma {:induction false} InOrder(run: seq<Timed>, s: nat, gap: nat, i: nat, k: nat)
    requires Ticking(run, s, gap) && s <= i <= k < |run|
    ensures run[s].at <= run[i].at <= run[k].at
    decreases k - s
  {
    if i < k {
      InOrder(run, s, gap, i, k - 1);
    } else if s < k {
      InOrder(run, s, gap, k - 1, k - 1);
    }
  }

  lemma FirstPends(run: seq<Timed>, s: nat, gap: nat)
    requires s < |run| && At(run, s).Idle? && run[s].event.Start?
    ensures At(run, s + 1).Idle? || Pending(At(run, s + 1).link, run[s].at + REQUEST_TIMEOUT, run[s].at, run[s].at + Bound(gap), gap)
  {
    WrapAdds(run[s].at, REQUEST_TIMEOUT);
    NextIsOut(run, s);
    hide Wrap;
  }

  /** While ticks keep arriving, every connection is up and running, or gone, within a computable
      bound, whatever other events arrive: at any later event it was over before. */
  lemma HandshakeEnds(run: seq<Timed>, s: nat, n: nat, gap: nat)
    requires s < n < |run| && At(run, s).Idle? && run[s].event.Start? && Ticking(run, s, gap)
    requires Bound(gap) < 0x7000_0000
    requires run[n].at > run[s].at + Bound(gap)
    ensures EndsBy(run, s, n)
  {
    var due := PendingUntil(run, s, n, gap);
    assert run[n].at <= run[LastTick(run, s, n)].at + gap;
    hide At, EndsBy;
  }

  // ----- A pad that cooperates is used.

  function ReplyFrame(serial: byte, payload: seq<byte>): Event
    requires |payload| <= PAYLOAD_MAX
  {
    var wire := Sealed(Clear(Packet(0x19, serial, payload), 0));
    Notified(|wire| + 12, 3, wire)
  }

  /** A session with a pad that answers at once, of any firmware; the user confirms. */
  function Session(t: nat, tail: seq<byte>): (run: seq<Timed>)
    requires |tail| == 4
  {
    var done, tick := Completed(9, 0, true), Tick(true, true, Accepted);
    [Timed(t, Start(true)), Timed(t, ServiceFound(28, 1)), Timed(t, done),
     Timed(t, CharacteristicFound(32, WriteUuid, true, false, 2)),
     Timed(t, CharacteristicFound(32, NotifyUuid, false, true, 3)), Timed(t, done), Timed(t, done),
     Timed(t, tick), Timed(t, done), Timed(t, ReplyFrame(1, IDENTITY + tail)), Timed(t, tick), Timed(t, UserConfirmed),
     Timed(t, tick), Timed(t, done), Timed(t, ReplyFrame(130, [])), Timed(t, tick),
     Timed(t, tick), Timed(t, done), Timed(t + 500, tick), Timed(t + 500, done), Timed(t + 500, tick)]
  }

  /** A reply under the serial of the latest request is taken. */
  lemma ReplyTaken(l: Link, payload: seq<byte>, now: u32)
    requires |payload| <= PAYLOAD_MAX && l.notify == 3
    requires (l.stage == Info || l.stage == Caps) && l.attempts > 0 && !l.replied
    ensures Step(Active(l), ReplyFrame(l.serial, payload), now)
      == Keep(l.(reply := Packet(0x19, l.serial, payload), replied := true))
  {
    hide Parse, Sealed, Clear, InputDecoded, OnTick, OnCompleted, OnCharacteristic, OnService, OnConfirmed;
    ParseInvertsBuild(Packet(0x19, l.serial, payload), 0);
  }

  lemma SessionDiscovers(t: nat, tail: seq<byte>)
    requires |tail| == 4
    ensures At(Session(t, tail), 7)
      == Active(FRESH.(stage := Info, listening := true, deadline := Wrap(t), service := 1, write := 2, notify := 3))
  {
    hide Wrap, OnTick, OnNotified, ReplyFrame, At, OutAt;
    var run := Session(t, tail);
    SessionFinds(t, tail);
    var l := FRESH.(busy := true, deadline := Wrap(Wrap(t) + REQUEST_TIMEOUT), service := 1, stage := Characteristics, write := 2);
    Follows(run, 4, l);
    Follows(run, 5, l.(notify := 3));
    Follows(run, 6, l.(stage := Subscribe, listening := true, notify := 3));
  }

  lemma SessionFinds(t: nat, tail: seq<byte>)
    requires |tail| == 4
    ensures At(Session(t, tail), 4)
      == Active(FRESH.(busy := true, deadline := Wrap(Wrap(t) + REQUEST_TIMEOUT), service := 1, stage := Characteristics, write := 2))
  {
    hide Wrap, OnTick, OnNotified, ReplyFrame;
    var run := Session(t, tail);
    var l := FRESH.(busy := true, deadline := Wrap(Wrap(t) + REQUEST_TIMEOUT));
    NextIsOut(run, 0);
    assert At(run, 1) == Active(l);
    hide At, OutAt;
    Follows(run, 1, l);
    Follows(run, 2, l.(service := 1));
    Follows(run, 3, l.(service := 1, stage := Characteristics));
  }

  lemma Follows(run: seq<Timed>, k: nat, l: Link)
    requires k < |run| && At(run, k) == Active(l)
    ensures OutAt(run, k) == Step(Active(l), run[k].event, Wrap(run[k].at))
    ensures At(run, k + 1) == OutAt(run, k).slot
  {
    hide Step, Wrap;
  }

  function AskedOnce(l: Link, now: u32): Link {
    var counter: byte := (l.serialCounter as int + 1) % 256;
    l.(attempts := 1, replied := false, serialCounter := counter, serial := SerialFrom(counter), busy := true,
       deadline := Wrap(now + REQUEST_TIMEOUT))
  }

  /** The first request of an inquiry goes out at once. */
  lemma FirstInquiry(l: Link, now: u32)
    requires (l.stage == Info || l.stage == Caps) && !l.busy && !l.replied && l.attempts == 0 && l.deadline == now
    ensures Step(Active(l), Tick(true, true, Accepted), now).slot == Active(AskedOnce(l, now))
  {
    InquiriesAllowed();
    DueIsReal(now, now);
    hide RequestAllowed, SerialFrom, Due, Wrap;
  }

  /** Asked, written and answered. */
  lemma InquiryAnswered(run: seq<Timed>, k: nat, l: Link, payload: seq<byte>) returns (m: Link)
    requires k + 3 <= |run| && At(run, k) == Active(l) && |payload| <= PAYLOAD_MAX && l.notify == 3
    requires (l.stage == Info || l.stage == Caps) && !l.busy && !l.replied && l.attempts == 0 && l.deadline == Wrap(run[k].at)
    requires run[k].event == Tick(true, true, Accepted) && run[k + 1].event == Completed(9, 0, true)
    requires run[k + 2].event == ReplyFrame(AskedOnce(l, Wrap(run[k].at)).serial, payload)
    ensures At(run, k + 3) == Active(m) && m.replied && m.reply.payload == payload
    ensures m == AskedOnce(l, Wrap(run[k].at)).(busy := false, replied := true, reply := m.reply)
  {
    hide Step, ReplyFrame, OutAt, At, Wrap, SerialFrom;
    var asked := AskedOnce(l, Wrap(run[k].at));
    Follows(run, k, l);
    FirstInquiry(l, Wrap(run[k].at));
    Follows(run, k + 1, asked);
    Completes(asked, Wrap(run[k + 1].at));
    var done := asked.(busy := false);
    Follows(run, k + 2, done);
    ReplyTaken(done, payload, Wrap(run[k + 2].at));
    m := At(run, k + 3).link;
  }

  /** The identity leads to the capability request, directly for firmware 27.02 and through the user's
      confirmation for any other. */
  lemma IdentityAccepted(l: Link, now: u32, tail: seq<byte>)
    requires |tail| == 4 && l.stage == Info && !l.busy && l.replied && l.reply.payload == IDENTITY + tail
    ensures var o := OnTick(l, now, true, true, Accepted); o.slot.Active? && o.slot.link.stage in {Caps, Confirm}
    ensures var o := OnConfirmed(OnTick(l, now, true, true, Accepted).slot.link, now); o.slot == Active(Advanced(l.(firmware := o.slot.link.firmware), Caps, now))
  {
    assert l.reply.payload[..4] == IDENTITY;
    DueIsReal(now, now + CONFIRM_TIME);
  }

  lemma SessionInquires(t: nat, tail: seq<byte>)
    requires |tail| == 4
    ensures var run, tick, done := Session(t, tail), Tick(true, true, Accepted), Completed(9, 0, true);
      && |run| == 21 && (forall k | 7 <= k < 18 :: run[k].at == t)
      && run[7].event == run[10].event == run[12].event == run[15].event == run[16].event == tick
      && run[8].event == run[13].event == run[17].event == done
      && run[9].event == ReplyFrame(1, IDENTITY + tail) && run[11].event == UserConfirmed && run[14].event == ReplyFrame(130, [])
      && run[18] == Timed(t + 500, tick) && run[19] == Timed(t + 500, done) && run[20] == Timed(t + 500, tick)
  {
    hide ReplyFrame;
  }

  lemma SessionIdentifies(t: nat, tail: seq<byte>) returns (l: Link)
    requires |tail| == 4
    ensures At(Session(t, tail), 12) == Active(l) && l.stage == Caps && !l.busy && !l.ready && !l.replied && l.attempts == 0
    ensures l.serialCounter == 1 && l.deadline == Wrap(t) && l.write == 2 && l.notify == 3 && l.input == REST
  {
    hide At, OutAt, Step, Wrap, ReplyFrame, Session, OnTick, OnConfirmed;
    var run := Session(t, tail);
    SessionDiscovers(t, tail);
    SessionInquires(t, tail);
    var m := InquiryAnswered(run, 7, At(run, 7).link, IDENTITY + tail);
    IdentityAccepted(m, Wrap(t), tail);
    Follows(run, 10, m);
    TickIs(m, Wrap(t));
    var o := OnTick(m, Wrap(t), true, true, Accepted);
    Follows(run, 11, o.slot.link);
    ConfirmIs(o.slot.link, Wrap(t));
    l := At(run, 12).link;
    assert l == Advanced(m.(firmware := l.firmware), Caps, Wrap(t));
  }

  lemma TickIs(l: Link, now: u32)
    ensures Step(Active(l), Tick(true, true, Accepted), now) == OnTick(l, now, true, true, Accepted)
  {
    hide OnTick;
  }

  lemma ConfirmIs(l: Link, now: u32)
    ensures Step(Active(l), UserConfirmed, now) == OnConfirmed(l, now)
  {
    hide OnConfirmed;
  }

  lemma SessionAsksCapabilities(t: nat, tail: seq<byte>) returns (l: Link)
    requires |tail| == 4
    ensures At(Session(t, tail), 16) == Active(l) && l.stage == Mode && !l.busy && !l.ready && l.input == REST
    ensures l.write == 2 && l.notify == 3 && l.serialCounter == 2
  {
    hide At, OutAt, Step, Wrap, ReplyFrame, Session;
    var run := Session(t, tail);
    var s := SessionIdentifies(t, tail);
    SessionInquires(t, tail);
    var m := InquiryAnswered(run, 12, s, []);
    Follows(run, 15, m);
    TickIs(m, Wrap(t));
    l := At(run, 16).link;
  }

  lemma SessionAsksMode(t: nat, tail: seq<byte>) returns (l: Link)
    requires |tail| == 4
    ensures At(Session(t, tail), 18) == Active(l) && l.stage == Delay && !l.busy && !l.ready && l.input == REST
    ensures l.write == 2 && l.notify == 3 && l.serialCounter == 3 && l.nextKeepalive == Wrap(t + 500)
  {
    WrapAdds(t, 500);
    hide At, OutAt, Step, Wrap, ReplyFrame, Session;
    var run := Session(t, tail);
    var s := SessionAsksCapabilities(t, tail);
    SessionInquires(t, tail);
    Follows(run, 16, s);
    var m := PageWritten(s, Wrap(t));
    Follows(run, 17, m);
    Completes(m, Wrap(t));
    l := m.(busy := false);
  }

  /** For every start time and every firmware of the supported pad there is a session that ends with
      the pad running and its input handed on; the guarantees above are not kept by refusing. */
  lemma CooperatingPadRuns(t: nat, tail: seq<byte>)
    requires |tail| == 4
    ensures var run := Session(t, tail);
      In(run, |run|, Running) && At(run, |run|).link.ready && OutAt(run, |run| - 1).published == Some(REST)
    ensures var l := At(Session(t, tail), 21).link;
      !l.busy && l.write == 2 && l.notify == 3 && l.serialCounter == 4 && l.input == REST && l.nextKeepalive == Wrap(t + 1500)
  {
    WrapAdds(t + 500, 1000);
    hide At, OutAt, Step, Wrap, ReplyFrame, Session;
    var run := Session(t, tail);
    var m := SessionAsksMode(t, tail);
    SessionInquires(t, tail);
    Follows(run, 18, m);
    var n := PageWritten(m, Wrap(t + 500));
    Follows(run, 19, n);
    Completes(n, Wrap(t + 500));
    Follows(run, 20, n.(busy := false));
    TickIs(n.(busy := false), Wrap(t + 500));
  }

  /** An inquiry that may go out, and a page that is due, as written. */
  lemma RequestWritten(l: Link, now: u32)
    requires !l.busy && l.stage in {Info, Caps, Mode, Delay}
    requires l.stage == Info || l.stage == Caps ==> !l.replied && l.attempts == 0 && l.deadline == now
    requires l.stage == Delay ==> l.nextKeepalive == now
    ensures Step(Active(l), Tick(true, true, Accepted), now).request
      == Some(WriteValue(l.write,
                         match l.stage case Info => 0x91 case Caps => 0xB0 case _ => 0x1D,
                         SerialFrom((l.serialCounter as int + 1) % 256),
                         match l.stage
                         case Info => []
                         case Caps => [0, 1]
                         case Mode => [2, 0xDF, 0xAB]
                         case _ => [5, 0xDF, 0xAB, 0, 6, 5]))
  {
    DueIsReal(now, now);
    hide SerialFrom, Due, Wrap;
  }

  /** What the pad receives of such a session: the identity and the capability request, the mode, and half a
      second later the test page, each under a serial of its own. */
  lemma SessionWrites(t: nat, tail: seq<byte>)
    requires |tail| == 4
    ensures var run := Session(t, tail);
      && (run[7].at, run[12].at, run[16].at, run[18].at) == (t, t, t, t + 500)
      && OutAt(run, 7).request == Some(WriteValue(2, 0x91, 1, []))
      && OutAt(run, 12).request == Some(WriteValue(2, 0xB0, 130, [0, 1]))
      && OutAt(run, 16).request == Some(WriteValue(2, 0x1D, 3, [2, 0xDF, 0xAB]))
      && OutAt(run, 18).request == Some(WriteValue(2, 0x1D, 132, [5, 0xDF, 0xAB, 0, 6, 5]))
  {
    hide At, OutAt, Step, Wrap, ReplyFrame, Session;
    var run := Session(t, tail);
    SessionInquires(t, tail);
    SessionDiscovers(t, tail);
    var a := At(run, 7).link;
    Follows(run, 7, a);
    RequestWritten(a, Wrap(t));
    var b := SessionIdentifies(t, tail);
    Follows(run, 12, b);
    RequestWritten(b, Wrap(t));
    var c := SessionAsksCapabilities(t, tail);
    Follows(run, 16, c);
    RequestWritten(c, Wrap(t));
    var d := SessionAsksMode(t, tail);
    Follows(run, 18, d);
    RequestWritten(d, Wrap(t + 500));
  }

  /** A request made at one time is given up by the first tick 4.5 seconds later, and not before. */
  lemma RequestTimesOut(l: Link, request: Request, asked: int, t: int, asks: bool, answer: ReadyAnswer)
    requires asked <= t < asked + 0x8000_0000
    ensures var o := Started(l, request, Wrap(asked), true);
      && o.request == Some(request)
      && Step(o.slot, Tick(true, asks, answer), Wrap(t)) == if t >= asked + 4500 then Out(Idle, None, None) else Keep(o.slot.link)
  {
    WrapAdds(asked, 4500);
    DueIsReal(t, asked + 4500);
  }

  /** A pad that does not answer is asked twice, each time once the wait before is over; after that the identity
      is given up on, and the capabilities are done without. */
  lemma SilentPadIsAskedTwice(l: Link, now: u32)
    requires l.stage in {Info, Caps} && !l.busy && !l.replied
    ensures var o := Step(Active(l), Tick(true, true, Accepted), now);
      if !Due(now, l.deadline) then o == Keep(l)
      else if l.attempts < 2 then
        && o.request.Some? && o.request.value.WriteValue? && o.slot.Active? && o.slot.link.busy
        && o.slot.link.attempts == l.attempts + 1 && o.slot.link.stage == l.stage
        && (o.request.value.opcode, o.request.value.payload) == (if l.stage == Info then (0x91, []) else (0xB0, [0, 1]))
      else if l.stage == Info then o == Out(Idle, None, None)
      else o == Keep(l.(stage := Mode, attempts := 0, deadline := now))
  {
    hide SerialFrom, Due, Wrap;
  }

  /** Firmware 27.02 needs no confirmation. */
  lemma KnownFirmwareIsTaken(l: Link, now: u32, asks: bool)
    requires l.stage == Info && !l.busy && l.replied
    requires |l.reply.payload| == 8 && l.reply.payload[..6] == [7, 0x10, 2, 0x20, 0x27, 2]
    ensures Step(Active(l), Tick(true, asks, Accepted), now)
      == Keep(l.(stage := Caps, firmware := 0x2702, attempts := 0, replied := false, deadline := now))
  {
    assert l.reply.payload[..4] == l.reply.payload[..6][..4] && l.reply.payload[4..6] == l.reply.payload[..6][4..6];
    hide Due, Wrap;
  }

  /** The user of a pad with another firmware has a minute to confirm. */
  lemma UserHasAMinute(l: Link, asked: int, t: int)
    requires l.stage == Info && !l.busy && l.replied && asked <= t < asked + 0x8000_0000
    requires |l.reply.payload| == 8 && l.reply.payload[..4] == [7, 0x10, 2, 0x20] && l.reply.payload[4..6] != [0x27, 2]
    ensures var o := Step(Active(l), Tick(true, true, Accepted), Wrap(asked));
      && o.slot.Active? && o.slot.link.stage == Confirm && o.request.None?
      && o.slot.link.firmware == 256 * (l.reply.payload[4] as int) + l.reply.payload[5]
      && var p := Step(o.slot, UserConfirmed, Wrap(t));
         if t >= asked + 60000 then p == Out(Idle, None, None)
         else p.slot.Active? && p.slot.link.stage == Caps && p.slot.link.input == l.input
  {
    WrapAdds(asked, 60000);
    DueIsReal(t, asked + 60000);
    hide Due, Wrap;
  }

  /** The tick that writes the mode or the test page request. */
  lemma PageWritten(l: Link, now: u32) returns (m: Link)
    requires !l.busy && (l.stage == Mode || (l.stage == Delay && l.nextKeepalive == now))
    ensures Step(Active(l), Tick(true, true, Accepted), now).slot == Active(m)
    ensures m.stage == (if l.stage == Mode then Delay else Test) && m.busy && m.input == l.input && m.ready == l.ready
    ensures m.write == l.write && m.notify == l.notify && m.serialCounter == (l.serialCounter as int + 1) % 256
    ensures l.stage == Mode ==> m.nextKeepalive == Wrap(now + 500)
  {
    PagesAllowed();
    DueIsReal(now, now);
    hide RequestAllowed, SerialFrom, Due, Wrap;
    m := Step(Active(l), Tick(true, true, Accepted), now).slot.link;
  }

  lemma Completes(l: Link, now: u32)
    requires l.busy && l.stage.Rank() > Subscribe.Rank()
    ensures Step(Active(l), Completed(9, 0, true), now).slot == Active(l.(busy := false))
  {
  }

  lemma PagesAllowed()
    ensures RequestAllowed(0x1D, MODE_PAYLOAD) && RequestAllowed(0x1D, TEST_PAYLOAD)
  {
  }

  // ----- The link record.

  class LinkRecord {
    var device: bool
    var stage: Stage
    var busy: bool
    var listening: bool
    var replied: bool
    var ready: bool
    var serialCounter: byte
    var serial: byte
    var attempts: nat
    var firmware: nat
    var deadline: u32
    var nextKeepalive: u32
    var service: nat
    var write: nat
    var notify: nat
    var reply: Packet
    var input: Pad

    function Record(): Link
      reads this
    {
      Link(stage, busy, listening, replied, ready, serialCounter, serial, attempts, firmware, deadline, nextKeepalive,
           service, write, notify, reply, input)
    }

    function View(): Slot
      reads this
    {
      if device then Active(Record()) else Idle
    }

    constructor ()
      ensures View() == Idle
    {
      device := false;
      stage, busy, listening, replied, ready := Service, false, false, false, false;
      serialCounter, serial, attempts, firmware, deadline, nextKeepalive := 0, 0, 0, 0, 0, 0;
      service, write, notify, reply, input := 0, 0, 0, NO_PACKET, REST;
    }

    method ClearCounters()
      modifies `serialCounter, `serial, `attempts, `firmware, `deadline, `nextKeepalive
      ensures serialCounter == serial == attempts == firmware == deadline == nextKeepalive == 0
    {
      serialCounter, serial, attempts, firmware, deadline, nextKeepalive := 0, 0, 0, 0, 0, 0;
    }

    method ClearFlags()
      modifies `device, `stage, `busy, `listening, `replied, `ready
      ensures !device && stage == Service && !busy && !listening && !replied && !ready
    {
      device, stage, busy, listening, replied, ready := false, Service, false, false, false, false;
    }

    /** The memset of uni_bt_le_iine_reset. */
    method Clear()
      modifies this
      ensures !device && stage == Service && !busy && !listening && !replied && !ready
      ensures serialCounter == serial == attempts == firmware == deadline == nextKeepalive == service == write == notify == 0
      ensures reply == NO_PACKET && input == ZEROED
    {
      ClearFlags();
      ClearCounters();
      service, write, notify, reply, input := 0, 0, 0, NO_PACKET, ZEROED;
    }

    method Advance(next: Stage, now: u32)
      modifies this
      ensures device == old(device) && Record() == Advanced(old(Record()), next, now)
    {
      stage := next;
      attempts := 0;
      replied := false;
      deadline := now;
    }

    /** check_start */
    method CheckStart(r: Request, now: u32, accepts: bool) returns (request: Option<Request>)
      requires device
      modifies this
      ensures Out(View(), request, None) == Started(old(Record()), r, now, accepts)
    {
      if !accepts {
        Clear();
        return None;
      }
      busy := true;
      deadline := Wrap(now + REQUEST_TIMEOUT);
      request := Some(r);
    }

    method SendRequest(opcode: byte, payload: seq<byte>, now: u32, accepts: bool) returns (request: Option<Request>)
      requires device
      modifies this
      ensures Out(View(), request, None) == Sent(old(Record()), opcode, payload, now, accepts)
    {
      if busy || !RequestAllowed(opcode, payload) {
        return None;
      }
      serialCounter := (serialCounter as int + 1) % 256;
      serial := SerialFrom(serialCounter);
      replied := false;
      request := CheckStart(WriteValue(write, opcode, serial, payload), now, accepts);
    }

    /** uni_bt_le_iine_start; a second start of a link in use changes nothing. */
    method StartLink(now: u32, accepts: bool) returns (request: Option<Request>)
      modifies this
      ensures Out(View(), request, None) == OnStart(old(View()), now, accepts)
    {
      if device {
        return None;
      }
      Clear();
      device := true;
      stage := Service;
      input := REST;
      request := CheckStart(FindService, now, accepts);
    }

    /** The part of tick that waits for a reply. */
    method Inquire(now: u32, accepts: bool, asks: bool) returns (request: Option<Request>)
      requires device && !busy && (stage == Info || stage == Caps)
      modifies this
      ensures Out(View(), request, None) == OnInquiry(old(Record()), now, accepts, asks)
    {
      request := None;
      if replied {
        if stage == Info {
          if |reply.payload| != 8 || reply.payload[..4] != IDENTITY {
            Clear();
          } else if reply.payload[4..6] == [0x27, 2] {
            firmware := 0x2702;
            Advance(Caps, now);
          } else if asks {
            firmware := reply.payload[4] as int * 256 + reply.payload[5];
            Advance(Confirm, now);
            deadline := Wrap(now + CONFIRM_TIME);
          } else {
            Clear();
          }
        } else {
          Advance(Mode, now);
        }
      } else if Due(now, deadline) {
        if attempts >= 2 {
          if stage == Info {
            Clear();
          } else {
            Advance(Mode, now);
          }
        } else {
          attempts := attempts + 1;
          request := SendRequest(if stage == Info then 0x91 else 0xB0, if stage == Caps then CAPS_PAYLOAD else [], now, accepts);
        }
      }
    }

    /** The part of tick that writes the mode and test page requests. */
    method WriteInTurn(now: u32, accepts: bool) returns (request: Option<Request>)
      requires device && !busy && (stage == Mode || stage == Delay || stage == Running)
      modifies this
      ensures Out(View(), request, None) == OnTick(old(Record()), now, accepts, false, Declined)
    {
      hide Sent, Due, ZEROED, REST;
      request := None;
      if stage == Mode {
        request := SendRequest(0x1D, MODE_PAYLOAD, now, accepts);
        if request.Some? {
          stage := Delay;
          nextKeepalive := Wrap(now + 500);
        }
      } else if stage == Delay && Due(now, nextKeepalive) {
        request := SendRequest(0x1D, TEST_PAYLOAD, now, accepts);
        if request.Some? {
          stage := Test;
        }
      } else if stage == Running && ready && Due(now, nextKeepalive) {
        // Unless the controller was handed on, no timer calls this any more.
        request := SendRequest(0x1D, TEST_PAYLOAD, now, accepts);
        // After a refused request this writes to a record that is already cleared.
        nextKeepalive := Wrap(now + 1000);
      }
    }

    /** The part of tick that hands the controller on. */
    method HandOn(now: u32, answer: ReadyAnswer) returns (published: Option<Pad>)
      requires device && !busy && stage == Test
      modifies this
      ensures Out(View(), None, published) == OnTick(old(Record()), now, false, false, answer)
    {
      hide Sent, OnInquiry, Due;
      stage := Running;
      if answer.Declined? {
        Clear();
        return None;
      }
      if answer.AlreadyReady? {
        return None;
      }
      ready := true;
      nextKeepalive := Wrap(now + 1000);
      published := Some(input);
    }

    /** tick */
    method OnTimer(now: u32, accepts: bool, asks: bool, answer: ReadyAnswer) returns (request: Option<Request>, published: Option<Pad>)
      modifies this
      ensures Out(View(), request, published) == Step(old(View()), Tick(accepts, asks, answer), now)
    {
      hide Sent, OnInquiry, Due, ZEROED, REST;
      request, published := None, None;
      if !device {
        return;
      }
      if busy {
        if Due(now, deadline) {
          Clear();
        }
      } else if stage == Info || stage == Caps {
        request := Inquire(now, accepts, asks);
      } else if stage == Confirm {
        if Due(now, deadline) {
          Clear();
        }
      } else if stage == Test {
        published := HandOn(now, answer);
      } else if stage == Mode || stage == Delay || stage == Running {
        request := WriteInTurn(now, accepts);
      }
    }

    /** packet_handler, GATT_EVENT_SERVICE_QUERY_RESULT and GATT_EVENT_CHARACTERISTIC_QUERY_RESULT */
    method OnDiscovery(e: Event)
      requires e.ServiceFound? || e.CharacteristicFound?
      modifies this
      ensures Out(View(), None, None) == Step(old(View()), e, 0)
    {
      if !device {
        return;
      }
      match e
      case ServiceFound(size, group) =>
        if stage == Service && size >= 28 {
          if service != 0 {
            Clear();
          } else {
            service := group;
          }
        }
      case CharacteristicFound(size, uuid, writable, notifies, value) =>
        if stage != Characteristics || size < 32 {
          return;
        }
        if uuid == WriteUuid && writable {
          if write != 0 {
            Clear();
            return;
          }
          write := value;
        }
        if uuid == NotifyUuid && notifies {
          if notify != 0 {
            Clear();
            return;
          }
          notify := value;
        }
      case _ =>
    }

    /** packet_handler, GATT_EVENT_QUERY_COMPLETE */
    method OnQueryComplete(size: nat, status: byte, now: u32, accepts: bool) returns (request: Option<Request>)
      modifies this
      ensures Out(View(), request, None) == Step(old(View()), Completed(size, status, accepts), now)
    {
      request := None;
      if !device || size < 9 || !busy {
        return;
      }
      busy := false;
      if status != 0 {
        Clear();
        return;
      }
      if stage == Service {
        if service == 0 {
          Clear();
          return;
        }
        stage := Characteristics;
        request := CheckStart(FindCharacteristics(service), now, accepts);
      } else if stage == Characteristics {
        if write == 0 || notify == 0 {
          Clear();
          return;
        }
        stage := Subscribe;
        listening := true;
        request := CheckStart(EnableNotifications(notify), now, accepts);
      } else if stage == Subscribe {
        Advance(Info, now);
      }
    }

    /** packet_handler, GATT_EVENT_NOTIFICATION */
    method OnNotification(size: nat, characteristic: nat, data: seq<byte>) returns (published: Option<Pad>)
      modifies this
      ensures Out(View(), None, published) == Step(old(View()), Notified(size, characteristic, data), 0)
    {
      hide Parse, InputDecoded, ZEROED, REST;
      published := None;
      if !device || size < 12 || characteristic != notify || |data| != size - 12 {
        return;
      }
      var decoded := ParsePacket(data);
      if decoded.None? {
        return;
      }
      var p := decoded.value;
      if (stage == Info || stage == Caps) && attempts > 0 && !replied && p.opcode == 0x19 && p.serial == serial {
        reply := p;
        replied := true;
      } else if stage.Rank() >= Mode.Rank() && p.opcode == 0x1F {
        var state := InputDecode(p.payload, input);
        if state.Some? {
          input := state.value;
          if ready {
            published := Some(input);
          }
        }
      }
    }

    /** uni_bt_le_iine_confirm */
    method Accept(now: u32)
      modifies this
      ensures Out(View(), None, None) == Step(old(View()), UserConfirmed, now)
    {
      if !device || stage != Confirm {
        return;
      }
      if Due(now, deadline) {
        Clear();
        return;
      }
      Advance(Caps, now);
    }

    /** uni_bt_le_iine_reset */
    method ResetLink()
      modifies this
      ensures Out(View(), None, None) == Step(old(View()), Reset, 0)
    {
      if device {
        Clear();
      }
    }
  }
}
