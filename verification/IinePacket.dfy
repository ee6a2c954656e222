/** The packet codec of the IINE L1241 pad (components/bluepad32/parser/uni_iine_protocol.c):
    scrambling, checksum, the allow-list of requests and the delta-coded input reports. */
module IinePacket {
  import opened Bytes

  const PACKET_MAX := 20
  const PAYLOAD_MAX := 15

  datatype Packet = Packet(opcode: byte, serial: byte, payload: seq<byte>)

  // ----- Exclusive or on octets.

  lemma {:induction false} XorBitsTwice(a: nat, b: nat, n: nat)
    requires a < Pow2(n)
    ensures XorBits(XorBits(a, b, n), b, n) == a
  {
    if n > 0 {
      XorBitsTwice(a / 2, b / 2, n - 1);
      assert XorBits(a, b, n) / 2 == XorBits(a / 2, b / 2, n - 1);
    }
  }

  lemma XorTwice(a: byte, b: byte)
    ensures XorByte(XorByte(a, b), b) == a
  {
    EightBits();
    XorBitsTwice(a, b, 8);
  }

  lemma XorInjective(a: byte, b: byte, m: byte)
    requires XorByte(a, m) == XorByte(b, m)
    ensures a == b
  {
    XorTwice(a, m);
    XorTwice(b, m);
  }

  /** C arithmetic on uint8_t. */
  function Low8(x: int): byte {
    x % 256
  }

  // ----- The checksum.

  function ShiftStep(v: byte): byte {
    if v % 2 == 1 then XorByte(v / 2, 0xEB) else v / 2
  }

  function ShiftSteps(v: byte, n: nat): byte {
    if n == 0 then v else ShiftStep(ShiftSteps(v, n - 1))
  }

  function Sum(value: byte, bytes: seq<byte>): byte
    decreases |bytes|
  {
    if bytes == [] then value else Sum(ShiftSteps(XorByte(value, bytes[0]), 8), bytes[1..])
  }

  method Checksum(bytes: seq<byte>) returns (value: byte)
    ensures value == Sum(0, bytes)
  {
    value := 0;
    for i := 0 to |bytes|
      invariant Sum(value, bytes[i..]) == Sum(0, bytes)
    {
      ghost var start := XorByte(value, bytes[i]);
      ghost var rest := bytes[i..];
      value := XorByte(value, bytes[i]);
      for bit := 0 to 8
        invariant value == ShiftSteps(start, bit)
      {
        value := if value % 2 == 1 then XorByte(value / 2, 0xEB) else value / 2;
      }
      assert rest[0] == bytes[i] && rest[1..] == bytes[i + 1..];
    }
  }

  lemma {:induction false} HighBitFlips(a: nat, b: nat, n: nat)
    requires n > 0 && a < Pow2(n - 1) && Pow2(n - 1) <= b < Pow2(n)
    ensures XorBits(a, b, n) >= Pow2(n - 1)
  {
    if n > 1 {
      HighBitFlips(a / 2, b / 2, n - 1);
    }
  }

  /** The feedback constant has its top bit set, so a step can be undone. */
  lemma ShiftStepInjective(v: byte, w: byte)
    requires ShiftStep(v) == ShiftStep(w)
    ensures v == w
  {
    EightBits();
    assert Pow2(7) == 128;
    HighBitFlips(v / 2, 0xEB, 8);
    HighBitFlips(w / 2, 0xEB, 8);
    if v % 2 == 1 && w % 2 == 1 {
      XorInjective(v / 2, w / 2, 0xEB);
    }
    hide XorBits;
  }

  lemma {:induction false} ShiftStepsInjective(v: byte, w: byte, n: nat)
    requires ShiftSteps(v, n) == ShiftSteps(w, n)
    ensures v == w
  {
    hide ShiftStep;
    if n > 0 {
      ShiftStepInjective(ShiftSteps(v, n - 1), ShiftSteps(w, n - 1));
      ShiftStepsInjective(v, w, n - 1);
    }
  }

  lemma {:induction false} SumInjective(v: byte, w: byte, bytes: seq<byte>)
    requires Sum(v, bytes) == Sum(w, bytes)
    ensures v == w
    decreases |bytes|
  {
    hide ShiftSteps, XorByte;
    if bytes != [] {
      SumInjective(ShiftSteps(XorByte(v, bytes[0]), 8), ShiftSteps(XorByte(w, bytes[0]), 8), bytes[1..]);
      ShiftStepsInjective(XorByte(v, bytes[0]), XorByte(w, bytes[0]), 8);
      XorInjective(v, w, bytes[0]);
    }
  }

  /** Changing any one octet changes the checksum. */
  lemma {:induction false} SumDetects(value: byte, x: seq<byte>, y: seq<byte>, at: nat)
    requires |x| == |y| && at < |x| && x[at] != y[at]
    requires forall i | 0 <= i < |x| && i != at :: x[i] == y[i]
    ensures Sum(value, x) != Sum(value, y)
    decreases |x|
  {
    hide ShiftSteps, XorByte;
    if at == 0 {
      assert x[1..] == y[1..];
      if Sum(value, x) == Sum(value, y) {
        SumInjective(ShiftSteps(XorByte(value, x[0]), 8), ShiftSteps(XorByte(value, y[0]), 8), x[1..]);
        ShiftStepsInjective(XorByte(value, x[0]), XorByte(value, y[0]), 8);
        XorCommutes(value, x[0]);
        XorCommutes(value, y[0]);
        XorInjective(x[0], y[0], value);
      }
    } else {
      SumDetects(ShiftSteps(XorByte(value, x[0]), 8), x[1..], y[1..], at - 1);
    }
  }

  lemma {:induction false} XorBitsCommute(a: nat, b: nat, n: nat)
    ensures XorBits(a, b, n) == XorBits(b, a, n)
  {
    if n > 0 {
      XorBitsCommute(a / 2, b / 2, n - 1);
    }
  }

  lemma XorCommutes(a: byte, b: byte)
    ensures XorByte(a, b) == XorByte(b, a)
  {
    XorBitsCommute(a, b, 8);
  }

  // ----- Building and parsing.

  const MASK: seq<byte> := [
    161, 82, 213, 163, 245, 137, 246, 143, 240, 157, 72, 147, 234, 52, 49, 186, 195, 77, 198, 235,
    73, 96, 216, 163, 218, 42, 83, 141, 244, 97, 24, 191, 174, 215, 111, 81, 228, 160, 217, 146
  ]

  const PAYLOAD_MASK: seq<byte> := [51, 99, 157, 121, 242, 219, 162, 26, 170, 33, 139, 232, 116, 211, 88]

  function Mask(i: nat): byte
    requires i < 40
  {
    MASK[i]
  }

  function PayloadMask(i: nat): byte
    requires i < PAYLOAD_MAX
  {
    PAYLOAD_MASK[i]
  }

  /** Where the mask starts; the choice is carried by bit 1 of octet 3. */
  function Offset(octet3: byte): (o: nat)
    ensures o == 0 || o == 20
  {
    if octet3 / 2 % 2 == 1 then 20 else 0
  }

  /** What octet i of a frame with this serial and nonce is combined with. */
  function Veil(serial: byte, nonce: byte, i: nat): byte
    requires i < 19 && i != 2 && i != 3
  {
    var sum := Low8(serial as int + nonce);
    if i == 0 then Low8(sum as int - 154) else if i == 1 then Low8(sum as int + 155) else Low8(sum as int - PayloadMask(i - 4))
  }

  function FrameOctet(clear: seq<byte>, i: nat): byte
    requires 4 <= |clear| <= 19 && i <= |clear|
  {
    var serial, nonce := clear[2], clear[3];
    if i == |clear| then Sum(0, clear)
    else if i == 2 then XorByte(Low8(serial as int - 173), nonce)
    else if i == 3 then XorByte(Low8(nonce as int + 191), 219)
    else XorByte(clear[i], Veil(serial, nonce, i))
  }

  function SealedOctet(clear: seq<byte>, i: nat): byte
    requires 4 <= |clear| <= 19 && i <= |clear|
  {
    XorByte(FrameOctet(clear, i), Mask(Offset(FrameOctet(clear, 3)) + i))
  }

  /** The octets sent for the clear octets opcode, length, serial, nonce, payload. */
  function Sealed(clear: seq<byte>): (wire: seq<byte>)
    requires 4 <= |clear| <= 19
    ensures |wire| == |clear| + 1 && forall i | 0 <= i < |wire| :: wire[i] == SealedOctet(clear, i)
  {
    seq(|clear| + 1, i requires 0 <= i < |clear| + 1 && 4 <= |clear| <= 19 => SealedOctet(clear, i))
  }

  function Clear(p: Packet, nonce: byte): (c: seq<byte>)
    requires |p.payload| <= PAYLOAD_MAX
    ensures |c| == 4 + |p.payload|
  {
    [p.opcode, |p.payload| + 5, p.serial, nonce] + p.payload
  }

  function UnmaskedOctet(wire: seq<byte>, i: nat): byte
    requires 5 <= |wire| <= PACKET_MAX && i < |wire|
  {
    XorByte(wire[i], Mask(Offset(XorByte(wire[3], Mask(3))) + i))
  }

  function Unmasked(wire: seq<byte>): (frame: seq<byte>)
    requires 5 <= |wire| <= PACKET_MAX
    ensures |frame| == |wire| && forall i | 0 <= i < |wire| :: frame[i] == UnmaskedOctet(wire, i)
  {
    seq(|wire|, i requires 0 <= i < |wire| && 5 <= |wire| <= PACKET_MAX => UnmaskedOctet(wire, i))
  }

  /** The clear octets of a received frame, without the checksum. */
  function Opened(wire: seq<byte>): (clear: seq<byte>)
    requires 5 <= |wire| <= PACKET_MAX
    ensures |clear| == |wire| - 1
    ensures forall i | 0 <= i < |clear| :: clear[i] == OpenedOctet(Unmasked(wire), i)
  {
    var frame := Unmasked(wire);
    seq(|wire| - 1, i requires 0 <= i < |wire| - 1 => OpenedOctet(frame, i))
  }

  function NonceOf(frame: seq<byte>): byte
    requires |frame| >= 5
  {
    Low8(XorByte(frame[3], 219) as int - 191)
  }

  function SerialOf(frame: seq<byte>): byte
    requires |frame| >= 5
  {
    Low8(XorByte(frame[2], NonceOf(frame)) as int + 173)
  }

  function OpenedOctet(frame: seq<byte>, i: nat): byte
    requires 5 <= |frame| <= PACKET_MAX && i < |frame| - 1
  {
    if i == 2 then SerialOf(frame) else if i == 3 then NonceOf(frame)
    else XorByte(frame[i], Veil(SerialOf(frame), NonceOf(frame), i))
  }

  /** iine_packet_parse. */
  function Parse(wire: seq<byte>): (p: Option<Packet>)
    ensures p.Some? ==> |p.value.payload| == |wire| - 5 <= PAYLOAD_MAX
  {
    if !(5 <= |wire| <= PACKET_MAX) then None
    else
      var clear := Opened(wire);
      if clear[1] % 32 == |wire| && Sum(0, clear) == Unmasked(wire)[|wire| - 1]
      then Some(Packet(clear[0], clear[2], clear[4..])) else None
  }

  /** Both halves of the mask agree where the choice of half is read. */
  lemma ChoiceSurvives(octet3: byte)
    ensures Offset(XorByte(XorByte(octet3, Mask(Offset(octet3) + 3)), Mask(3))) == Offset(octet3)
  {
    assert Mask(3) == 163 && Mask(23) == 163;
    hide XorByte, Mask;
    XorTwice(octet3, 163);
  }

  lemma UnmaskedSealed(clear: seq<byte>)
    requires 4 <= |clear| <= 19
    ensures forall i | 0 <= i <= |clear| :: Unmasked(Sealed(clear))[i] == FrameOctet(clear, i)
  {
    hide XorByte, FrameOctet, Mask, Sealed, Unmasked;
    var wire := Sealed(clear);
    var o := Offset(FrameOctet(clear, 3));
    ChoiceSurvives(FrameOctet(clear, 3));
    assert wire[3] == XorByte(FrameOctet(clear, 3), Mask(o + 3));
    forall i | 0 <= i <= |clear| ensures Unmasked(wire)[i] == FrameOctet(clear, i) {
      assert wire[i] == XorByte(FrameOctet(clear, i), Mask(o + i));
      XorTwice(FrameOctet(clear, i), Mask(o + i));
    }
  }

  /** Serial and nonce come back first... */
  lemma KeysReturn(clear: seq<byte>, frame: seq<byte>)
    requires 4 <= |clear| <= 19 && |frame| == |clear| + 1
    requires frame[2] == FrameOctet(clear, 2) && frame[3] == FrameOctet(clear, 3)
    ensures NonceOf(frame) == clear[3] && SerialOf(frame) == clear[2]
  {
    hide XorByte, Sum, Veil;
    XorTwice(Low8(clear[3] as int + 191), 219);
    XorTwice(Low8(clear[2] as int - 173), clear[3]);
  }

  /** ...and with them every other octet. */
  lemma OctetReturns(clear: seq<byte>, frame: seq<byte>, i: nat)
    requires 4 <= |clear| <= 19 && |frame| == |clear| + 1 && i < |clear|
    requires NonceOf(frame) == clear[3] && SerialOf(frame) == clear[2] && frame[i] == FrameOctet(clear, i)
    ensures OpenedOctet(frame, i) == clear[i]
  {
    hide XorByte, Sum, Veil, NonceOf, SerialOf;
    if i != 2 && i != 3 {
      XorTwice(clear[i], Veil(clear[2], clear[3], i));
    }
  }

  lemma OpenedSealed(clear: seq<byte>)
    requires 4 <= |clear| <= 19
    ensures Opened(Sealed(clear)) == clear
  {
    hide XorByte, FrameOctet, OpenedOctet, NonceOf, SerialOf, Sealed, Unmasked, Opened, Offset, Mask;
    var frame := Unmasked(Sealed(clear));
    UnmaskedSealed(clear);
    assert frame[2] == FrameOctet(clear, 2) && frame[3] == FrameOctet(clear, 3);
    KeysReturn(clear, frame);
    forall i | 0 <= i < |clear| ensures Opened(Sealed(clear))[i] == clear[i] {
      OctetReturns(clear, frame, i);
    }
  }

  /** Whatever the serial and nonce, parsing what was built gives the packet back. */
  lemma ParseInvertsBuild(p: Packet, nonce: byte)
    requires |p.payload| <= PAYLOAD_MAX
    ensures Parse(Sealed(Clear(p, nonce))) == Some(p)
  {
    hide Sum, Unmasked, Sealed, Opened, XorByte, OpenedOctet, FrameOctet, Offset, Mask;
    var clear := Clear(p, nonce);
    OpenedSealed(clear);
    UnmaskedSealed(clear);
    LastOctet(clear);
    assert clear[4..] == p.payload;
  }

  lemma LastOctet(clear: seq<byte>)
    requires 4 <= |clear| <= 19
    ensures FrameOctet(clear, |clear|) == Sum(0, clear)
  {
  }

  lemma AcceptedSums(wire: seq<byte>)
    requires 5 <= |wire| <= PACKET_MAX
    ensures Parse(wire).Some? ==> Sum(0, Opened(wire)) == Unmasked(wire)[|wire| - 1]
  {
  }

  /** Changing one octet of an accepted frame, other than those of serial and nonce, is noticed. */
  lemma OneOctetRejected(wire: seq<byte>, other: seq<byte>, at: nat)
    requires Parse(wire).Some? && |other| == |wire| && at < |wire| && at != 2 && at != 3
    requires other[at] != wire[at] && forall i | 0 <= i < |wire| && i != at :: other[i] == wire[i]
    ensures Parse(other) == None
  {
    hide Parse, Opened, Unmasked, Sum, XorByte, OpenedOctet, Offset, Mask, NonceOf, SerialOf, Veil;
    AcceptedSums(wire);
    AcceptedSums(other);
    var f, g := Unmasked(wire), Unmasked(other);
    var c, d := Opened(wire), Opened(other);
    UnmaskedApart(wire, other, at);
    if at < |c| {
      OpenedApart(f, g, at);
      SumDetects(0, c, d, at);
    } else {
      OpenedSame(f, g);
      assert c == d;
    }
  }

  lemma UnmaskedApart(wire: seq<byte>, other: seq<byte>, at: nat)
    requires 5 <= |wire| <= PACKET_MAX && |other| == |wire| && at < |wire| && at != 3
    requires other[at] != wire[at] && forall i | 0 <= i < |wire| && i != at :: other[i] == wire[i]
    ensures var f, g := Unmasked(wire), Unmasked(other);
      g[at] != f[at] && forall i | 0 <= i < |wire| && i != at :: g[i] == f[i]
  {
    var o := Offset(XorByte(wire[3], Mask(3)));
    hide Mask, XorByte;
    if XorByte(wire[at], Mask(o + at)) == XorByte(other[at], Mask(o + at)) {
      XorInjective(wire[at], other[at], Mask(o + at));
    }
  }

  lemma OpenedSame(f: seq<byte>, g: seq<byte>)
    requires 5 <= |f| <= PACKET_MAX && |g| == |f|
    requires forall i | 0 <= i < |f| - 1 :: g[i] == f[i]
    ensures forall i | 0 <= i < |f| - 1 :: OpenedOctet(g, i) == OpenedOctet(f, i)
  {
    hide XorByte, Veil;
    assert g[3] == f[3] && g[2] == f[2];
    assert SerialOf(f) == SerialOf(g) && NonceOf(f) == NonceOf(g);
  }

  lemma OpenedApart(f: seq<byte>, g: seq<byte>, at: nat)
    requires 5 <= |f| <= PACKET_MAX && |g| == |f| && at < |f| - 1 && at != 2 && at != 3
    requires g[at] != f[at] && forall i | 0 <= i < |f| && i != at :: g[i] == f[i]
    ensures OpenedOctet(g, at) != OpenedOctet(f, at)
    ensures forall i | 0 <= i < |f| - 1 && i != at :: OpenedOctet(g, i) == OpenedOctet(f, i)
  {
    hide XorByte, Veil;
    assert g[3] == f[3] && g[2] == f[2];
    assert SerialOf(f) == SerialOf(g) && NonceOf(f) == NonceOf(g);
    if OpenedOctet(g, at) == OpenedOctet(f, at) {
      XorInjective(f[at], g[at], Veil(SerialOf(f), NonceOf(f), at));
    }
  }

  /** iine_packet_build; nothing is sent for an oversized payload or a short buffer. */
  method Build(capacity: nat, opcode: byte, serial: byte, nonce: byte, payload: seq<byte>) returns (wire: Option<seq<byte>>)
    ensures wire.Some? <==> |payload| <= PAYLOAD_MAX && |payload| + 5 <= capacity
    ensures wire.Some? ==> wire.value == Sealed(Clear(Packet(opcode, serial, payload), nonce))
  {
    hide FrameOctet, XorByte, Mask;
    var n := |payload|;
    if n > PAYLOAD_MAX || capacity < n + 5 {
      return None;
    }
    var clear := [opcode, n + 5, serial, nonce] + payload;
    var frame := Scramble(clear);
    var sent := Masked(frame, if frame[3] / 2 % 2 == 1 then 20 else 0);
    assert sent == Sealed(clear);
    wire := Some(sent);
  }

  method Masked(octets: seq<byte>, offset: nat) returns (r: seq<byte>)
    requires |octets| <= PACKET_MAX && offset <= 20
    ensures |r| == |octets| && forall k | 0 <= k < |r| :: r[k] == XorByte(octets[k], Mask(offset + k))
  {
    hide XorByte, Mask;
    r := [];
    for i := 0 to |octets|
      invariant |r| == i && forall k | 0 <= k < i :: r[k] == XorByte(octets[k], Mask(offset + k))
    {
      r := r + [XorByte(octets[i], Mask(offset + i))];
    }
  }

  method Scramble(clear: seq<byte>) returns (frame: seq<byte>)
    requires 4 <= |clear| <= 19
    ensures |frame| == |clear| + 1 && forall k | 0 <= k <= |clear| :: frame[k] == FrameOctet(clear, k)
  {
    hide XorByte, Sum, Veil, PayloadMask;
    var serial, nonce := clear[2], clear[3];
    var check := Checksum(clear);
    frame := clear + [check];
    var sum := Low8(serial as int + nonce);
    VeilAt(serial, nonce, 0);
    VeilAt(serial, nonce, 1);
    frame := frame[0 := XorByte(frame[0], Low8(sum as int - 154))];
    frame := frame[1 := XorByte(frame[1], Low8(sum as int + 155))];
    frame := frame[2 := XorByte(Low8(serial as int - 173), nonce)];
    frame := frame[3 := XorByte(Low8(nonce as int + 191), 219)];
    for i := 4 to |clear|
      invariant |frame| == |clear| + 1 && frame[|clear|] == check
      invariant forall k | 0 <= k < i :: frame[k] == FrameOctet(clear, k)
      invariant forall k | i <= k < |clear| :: frame[k] == clear[k]
    {
      VeilAt(serial, nonce, i);
      frame := frame[i := XorByte(frame[i], Low8(sum as int - PayloadMask(i - 4)))];
    }
  }

  lemma VeilAt(serial: byte, nonce: byte, i: nat)
    requires i < 19 && i != 2 && i != 3
    ensures var sum := Low8(serial as int + nonce);
      Veil(serial, nonce, i) == if i == 0 then Low8(sum as int - 154) else if i == 1 then Low8(sum as int + 155) else Low8(sum as int - PayloadMask(i - 4))
  {
  }

  method Unscramble(raw: seq<byte>) returns (frame: seq<byte>)
    requires 5 <= |raw| <= PACKET_MAX
    ensures |frame| == |raw| && frame[|raw| - 1] == raw[|raw| - 1]
    ensures forall k | 0 <= k < |raw| - 1 :: frame[k] == OpenedOctet(raw, k)
  {
    hide PayloadMask, XorByte, Veil;
    var n := |raw|;
    frame := raw[3 := Low8(XorByte(raw[3], 219) as int - 191)];
    frame := frame[2 := Low8(XorByte(frame[2], frame[3]) as int + 173)];
    assert frame[2] == SerialOf(raw) && frame[3] == NonceOf(raw);
    hide SerialOf, NonceOf;
    var sum := Low8(frame[2] as int + frame[3]);
    VeilAt(frame[2], frame[3], 0);
    VeilAt(frame[2], frame[3], 1);
    frame := frame[0 := XorByte(frame[0], Low8(sum as int - 154))];
    frame := frame[1 := XorByte(frame[1], Low8(sum as int + 155))];
    for i := 4 to n - 1
      invariant |frame| == n && frame[2] == SerialOf(raw) && frame[3] == NonceOf(raw)
      invariant forall k | 0 <= k < i :: frame[k] == OpenedOctet(raw, k)
      invariant forall k | i <= k < n :: frame[k] == raw[k]
    {
      VeilAt(frame[2], frame[3], i);
      frame := frame[i := XorByte(frame[i], Low8(sum as int - PayloadMask(i - 4)))];
    }
  }

  /** iine_packet_parse, undoing the steps of the build in turn. */
  method ParsePacket(wire: seq<byte>) returns (p: Option<Packet>)
    ensures p == Parse(wire)
  {
    hide Sum, Opened, Unmasked, OpenedOctet, XorByte, Mask;
    var n := |wire|;
    if n < 5 || n > PACKET_MAX {
      return None;
    }
    var raw := Masked(wire, if XorByte(wire[3], Mask(3)) / 2 % 2 == 1 then 20 else 0);
    assert raw == Unmasked(wire);
    var frame := Unscramble(raw);
    ghost var clear := Opened(wire);
    assert frame[..n - 1] == clear;
    var check := Checksum(frame[..n - 1]);
    if frame[1] % 32 != n || check != frame[n - 1] {
      return None;
    }
    assert frame[4..n - 1] == clear[4..];
    p := Some(Packet(frame[0], frame[2], frame[4..n - 1]));
  }

  // ----- Requests.

  const MODE_PAYLOAD: seq<byte> := [2, 0xDF, 0xAB]
  const TEST_PAYLOAD: seq<byte> := [5, 0xDF, 0xAB, 0, 6, 5]
  const CAPS_PAYLOAD: seq<byte> := [0, 1]

  /** iine_request_allowed: the documented, non-persistent requests. */
  predicate RequestAllowed(opcode: byte, payload: seq<byte>) {
    if opcode == 0x90 || opcode == 0x91 then payload == []
    else if opcode == 0xB0 then payload == CAPS_PAYLOAD
    else if (opcode == 0x1D || opcode == 0x1E) && |payload| == 3 then payload == MODE_PAYLOAD
    else opcode == 0x1D && payload == TEST_PAYLOAD
  }

  /** Nothing but these six requests: the two that ask who the pad is, the one that asks what it can do, the mode
      under either of its opcodes, and the test page. Updates and resets are not among them. */
  lemma AllowedExactly(opcode: byte, payload: seq<byte>)
    ensures RequestAllowed(opcode, payload) <==>
      (opcode, payload) == (0x90, []) || (opcode, payload) == (0x91, []) || (opcode, payload) == (0xB0, [0, 1])
      || (opcode, payload) == (0x1D, [2, 0xDF, 0xAB]) || (opcode, payload) == (0x1E, [2, 0xDF, 0xAB])
      || (opcode, payload) == (0x1D, [5, 0xDF, 0xAB, 0, 6, 5])
  {
  }

  // ----- Input reports.

  /** The buttons and directions held, by bit number, and the six axes. */
  datatype Input = Input(buttons: set<nat>, dpad: set<nat>, axes: seq<byte>, present: set<nat>)

  type Pad = s: Input | |s.axes| == 6 witness Input({}, {}, [0, 0, 0, 0, 0, 0], {})

  function RecordSize(code: byte): nat {
    if code == 0x12 || code == 0x13 then 6 else if code == 7 || code == 8 then 4 else 2
  }

  function ButtonOf(code: byte): Option<nat> {
    if 1 <= code <= 8 then Some(code as int - 1)
    else if code == 0x5D then Some(8) else if code == 0x5E then Some(9)
    else if code == 0x0B || code == 0x0C then Some(code as int - 1)
    else None
  }

  /** down, up, right, left */
  function DirectionOf(code: byte): nat
    requires 0x0D <= code <= 0x10
  {
    if code == 0x0D then 1 else if code == 0x0E then 0 else if code == 0x0F then 2 else 3
  }

  function Toggle(held: set<nat>, bit: nat, active: bool): set<nat> {
    if active then held + {bit} else held - {bit}
  }

  predicate Starts(rest: seq<byte>) {
    && |rest| >= 2 && rest[0] <= 1 && |rest| >= RecordSize(rest[1])
    && (rest[1] == 0x12 || rest[1] == 0x13 || 0x0D <= rest[1] <= 0x10 || ButtonOf(rest[1]).Some?)
  }

  /** The effect of the record at the front. */
  function Applied(rest: seq<byte>, s: Pad): Pad
    requires Starts(rest)
  {
    var active, code := rest[0] == 1, rest[1];
    if code == 0x12 || code == 0x13 then
      var axis := if code == 0x12 then 0 else 3;
      s.(axes := s.axes[axis := rest[2]][axis + 1 := rest[3]], present := s.present + {axis, axis + 1})
    else if 0x0D <= code <= 0x10 then s.(dpad := Toggle(s.dpad, DirectionOf(code), active))
    else
      var t := s.(buttons := Toggle(s.buttons, ButtonOf(code).value, active));
      if code == 7 || code == 8 then
        var axis := if code == 7 then 2 else 5;
        t.(axes := t.axes[axis := rest[2]], present := t.present + {axis})
      else t
  }

  /** The records of a report, one after the other. */
  function Decoded(rest: seq<byte>, s: Pad): Option<Pad>
    decreases |rest|
  {
    if rest == [] then Some(s)
    else if !Starts(rest) then None
    else Decoded(rest[RecordSize(rest[1])..], Applied(rest, s))
  }

  /** iine_input_decode: the state afterwards, or none for a malformed report. */
  function InputDecoded(payload: seq<byte>, s: Pad): Option<Pad> {
    if |payload| < 3 || |payload| > PAYLOAD_MAX || payload[0] != |payload| - 1 then None
    else Decoded(payload[1..], s)
  }

  /** Reports are deltas: two runs of records in one report act like two reports, and whether a report
      is well formed does not depend on what is held. */
  lemma {:induction false} DecodedConcat(x: seq<byte>, y: seq<byte>, s: Pad)
    requires Decoded(x, s).Some?
    ensures Decoded(x + y, s) == Decoded(y, Decoded(x, s).value)
    decreases |x|
  {
    if x == [] {
      assert x + y == y;
    } else {
      var n := RecordSize(x[1]);
      assert Starts(x + y) && Applied(x + y, s) == Applied(x, s);
      assert (x + y)[n..] == x[n..] + y;
      DecodedConcat(x[n..], y, Applied(x, s));
    }
  }

  lemma {:induction false} ShapeOnly(x: seq<byte>, s: Pad, t: Pad)
    ensures Decoded(x, s).Some? <==> Decoded(x, t).Some?
    decreases |x|
  {
    if x != [] && Starts(x) {
      ShapeOnly(x[RecordSize(x[1])..], Applied(x, s), Applied(x, t));
    }
  }

  /** A report that does not name a button leaves it as it was: quiet never releases. */
  lemma {:induction false} UnnamedStays(x: seq<byte>, s: Pad, bit: nat)
    requires Decoded(x, s).Some? && !Names(x, bit)
    ensures bit in Decoded(x, s).value.buttons <==> bit in s.buttons
    decreases |x|
  {
    if x != [] {
      UnnamedStays(x[RecordSize(x[1])..], Applied(x, s), bit);
    }
  }

  predicate Names(x: seq<byte>, bit: nat)
    decreases |x|
  {
    x != [] && Starts(x) && (ButtonOf(x[1]) == Some(bit) || Names(x[RecordSize(x[1])..], bit))
  }

  /** iine_input_decode. */
  method InputDecode(payload: seq<byte>, state: Pad) returns (r: Option<Pad>)
    ensures r == InputDecoded(payload, state)
  {
    if |payload| < 3 || |payload| > PAYLOAD_MAX || payload[0] != |payload| - 1 {
      return None;
    }
    var next: Pad := state;
    var cursor := 1;
    while cursor < |payload|
      invariant 1 <= cursor <= |payload|
      invariant Decoded(payload[cursor..], next) == Decoded(payload[1..], state)
      decreases |payload| - cursor
    {
      var rest := payload[cursor..];
      if |rest| < 2 || rest[0] > 1 || |rest| < RecordSize(rest[1]) {
        return None;
      }
      var active, code := rest[0] == 1, rest[1];
      ghost var before: Pad := next;
      if code == 0x12 || code == 0x13 {
        var axis := if code == 0x12 then 0 else 3;
        next := next.(axes := next.axes[axis := rest[2]]);
        next := next.(axes := next.axes[axis + 1 := rest[3]]);
        next := next.(present := next.present + {axis, axis + 1});
      } else if 0x0D <= code <= 0x10 {
        next := next.(dpad := Toggle(next.dpad, DirectionOf(code), active));
      } else {
        var button := ButtonOf(code);
        if button.None? {
          return None;
        }
        next := next.(buttons := Toggle(next.buttons, button.value, active));
        if code == 7 || code == 8 {
          var axis := if code == 7 then 2 else 5;
          next := next.(axes := next.axes[axis := rest[2]], present := next.present + {axis});
        }
      }
      assert next == Applied(rest, before);
      assert rest[RecordSize(code)..] == payload[cursor + RecordSize(code)..];
      cursor := cursor + RecordSize(code);
    }
    r := Some(next);
  }
}
