/** What a change of the serial or the nonce of a frame does. Both key all the other octets, and the checksum
    is taken after decoding, so such a change can go unnoticed
    (components/bluepad32/parser/uni_iine_protocol.c:44-61). */
module IineKeys {
  import opened Bytes
  import opened IinePacket

  // ----- Exclusive or.

  lemma {:induction false} XorBitsAssociates(a: nat, b: nat, c: nat, n: nat)
    ensures XorBits(a, b, n) == XorBits(b, a, n)
    ensures XorBits(XorBits(a, b, n), c, n) == XorBits(a, XorBits(b, c, n), n)
  {
    if n > 0 {
      XorBitsAssociates(a / 2, b / 2, c / 2, n - 1);
      FirstBit(a, b, n);
      FirstBit(b, a, n);
      FirstBit(b, c, n);
      FirstBit(XorBits(a, b, n), c, n);
      FirstBit(a, XorBits(b, c, n), n);
      hide XorBits;
    }
  }

  lemma FirstBit(a: nat, b: nat, n: nat)
    requires n > 0
    ensures var x := XorBits(a, b, n);
      x == (if a % 2 == b % 2 then 0 else 1) + 2 * XorBits(a / 2, b / 2, n - 1)
      && x % 2 == (if a % 2 == b % 2 then 0 else 1) && x / 2 == XorBits(a / 2, b / 2, n - 1)
  {
  }

  lemma {:induction false} XorBitsOnly(a: nat, b: nat, n: nat)
    requires a < Pow2(n) && b < Pow2(n)
    ensures XorBits(a, b, n + 1) == XorBits(a, b, n) && XorBits(a, 0, n) == a && XorBits(a, a, n) == 0
  {
    if n > 0 {
      XorBitsOnly(a / 2, b / 2, n - 1);
    }
  }

  lemma XorAssociates(a: byte, b: byte, c: byte)
    ensures XorByte(a, b) == XorByte(b, a) && XorByte(XorByte(a, b), c) == XorByte(a, XorByte(b, c))
  {
    XorBitsAssociates(a, b, c, 8);
  }

  lemma XorNothing(a: byte)
    ensures XorByte(a, 0) == a && XorByte(0, a) == a && XorByte(a, a) == 0
  {
    EightBits();
    XorBitsOnly(a, a, 8);
    XorAssociates(a, 0, 0);
  }

  /** (a + b) + (c + d) == (a + c) + (b + d) */
  lemma XorSwaps(a: byte, b: byte, c: byte, d: byte)
    ensures XorByte(XorByte(a, b), XorByte(c, d)) == XorByte(XorByte(a, c), XorByte(b, d))
  {
    hide XorByte;
    XorAssociates(a, b, XorByte(c, d));
    XorAssociates(b, c, d);
    XorAssociates(c, b, d);
    XorAssociates(a, c, XorByte(b, d));
  }

  // ----- The checksum is linear.

  lemma XorHalves(a: byte, b: byte)
    ensures XorByte(a, b) % 2 == (if a % 2 == b % 2 then 0 else 1) && XorByte(a, b) / 2 == XorByte(a / 2, b / 2)
  {
    hide XorBits, Pow2;
    SevenBits();
    FirstBit(a, b, 8);
    XorBitsOnly(a / 2, b / 2, 7);
  }

  lemma SevenBits()
    ensures Pow2(7) == 128
  {
    assert Pow2(4) == 16;
  }

  lemma ShiftLinear(a: byte, b: byte)
    ensures ShiftStep(XorByte(a, b)) == XorByte(ShiftStep(a), ShiftStep(b))
  {
    XorHalves(a, b);
    hide XorByte;
    var x, y, p: byte := a / 2, b / 2, 0xEB;
    XorAssociates(x, p, y);
    XorAssociates(x, y, p);
    XorAssociates(p, y, 0);
    XorSwaps(x, p, y, p);
    XorNothing(p);
    XorNothing(XorByte(x, y));
  }

  lemma {:induction false} ShiftsLinear(a: byte, b: byte, n: nat)
    ensures ShiftSteps(XorByte(a, b), n) == XorByte(ShiftSteps(a, n), ShiftSteps(b, n))
  {
    hide XorByte, ShiftStep;
    if n > 0 {
      ShiftsLinear(a, b, n - 1);
      ShiftLinear(ShiftSteps(a, n - 1), ShiftSteps(b, n - 1));
    }
  }

  /** The checksums of two byte strings differ by the checksum of their difference. */
  lemma {:induction false} SumLinear(v: byte, w: byte, x: seq<byte>, y: seq<byte>)
    requires |x| == |y|
    ensures Sum(XorByte(v, w), Difference(x, y)) == XorByte(Sum(v, x), Sum(w, y))
    decreases |x|
  {
    hide XorByte, ShiftSteps;
    if x != [] {
      var d := Difference(x, y);
      assert d[1..] == Difference(x[1..], y[1..]);
      XorSwaps(v, w, x[0], y[0]);
      ShiftsLinear(XorByte(v, x[0]), XorByte(w, y[0]), 8);
      SumLinear(ShiftSteps(XorByte(v, x[0]), 8), ShiftSteps(XorByte(w, y[0]), 8), x[1..], y[1..]);
    }
  }

  // ----- The keys of a frame.

  /** What octets 2 and 3 of a frame say: where the mask starts, the serial, the nonce. */
  datatype Keys = Keys(offset: nat, serial: byte, nonce: byte)

  function KeysOf(octet2: byte, octet3: byte): (k: Keys)
    ensures k.offset == 0 || k.offset == 20
  {
    var o := Offset(XorByte(octet3, Mask(3)));
    var nonce := Low8(XorByte(XorByte(octet3, Mask(o + 3)), 219) as int - 191);
    Keys(o, Low8(XorByte(XorByte(octet2, Mask(o + 2)), nonce) as int + 173), nonce)
  }

  /** What octet i of a frame is combined with, other than those two; the last one is not veiled. */
  function Pad(k: Keys, i: nat, last: bool): byte
    requires (k.offset == 0 || k.offset == 20) && i < 20 && i != 2 && i != 3 && (!last ==> i < 19)
  {
    if last then Mask(k.offset + i) else XorByte(Mask(k.offset + i), Veil(k.serial, k.nonce, i))
  }

  /** How the clear octets of a frame of this length change with its keys, whatever they are. */
  function Rekeyed(k: Keys, m: Keys, size: nat): (d: seq<byte>)
    requires (k.offset == 0 || k.offset == 20) && (m.offset == 0 || m.offset == 20) && 5 <= size <= PACKET_MAX
    ensures |d| == size - 1
  {
    seq(size - 1, i requires 0 <= i < size - 1 && size <= 20 && (k.offset == 0 || k.offset == 20) && (m.offset == 0 || m.offset == 20) =>
      if i == 2 then XorByte(k.serial, m.serial) else if i == 3 then XorByte(k.nonce, m.nonce)
      else XorByte(Pad(k, i, false), Pad(m, i, false)))
  }

  /** The change leaves the length octet right, and the checksum moves as the octet that holds it. */
  predicate Slips(k: Keys, m: Keys, size: nat)
    requires (k.offset == 0 || k.offset == 20) && (m.offset == 0 || m.offset == 20) && 5 <= size <= PACKET_MAX
  {
    var d := Rekeyed(k, m, size);
    d[1] % 32 == 0 && Sum(0, d) == XorByte(Pad(k, size - 1, true), Pad(m, size - 1, true))
  }

  lemma OpenedPad(wire: seq<byte>, i: nat)
    requires 5 <= |wire| <= PACKET_MAX && i < |wire|
    ensures var k := KeysOf(wire[2], wire[3]);
      && (i == |wire| - 1 ==> Unmasked(wire)[i] == XorByte(wire[i], Pad(k, i, true)))
      && (i < |wire| - 1 && i != 2 && i != 3 ==> Opened(wire)[i] == XorByte(wire[i], Pad(k, i, false)))
      && Opened(wire)[2] == k.serial && Opened(wire)[3] == k.nonce
  {
    hide Mask, Veil, XorByte, Offset;
    var f := Unmasked(wire);
    var k := KeysOf(wire[2], wire[3]);
    assert f[2] == XorByte(wire[2], Mask(k.offset + 2)) && f[3] == XorByte(wire[3], Mask(k.offset + 3));
    assert NonceOf(f) == k.nonce && SerialOf(f) == k.serial;
    if i < |wire| - 1 && i != 2 && i != 3 {
      XorAssociates(wire[i], Mask(k.offset + i), Veil(k.serial, k.nonce, i));
    }
  }

  /** Two frames that agree but for octets 2 and 3 open to octets that differ by the change of keys. */
  lemma OpenedDiffers(wire: seq<byte>, other: seq<byte>)
    requires 5 <= |wire| <= PACKET_MAX && |other| == |wire|
    requires forall i | 0 <= i < |wire| && i != 2 && i != 3 :: other[i] == wire[i]
    ensures var k, m := KeysOf(wire[2], wire[3]), KeysOf(other[2], other[3]);
      && Difference(Opened(wire), Opened(other)) == Rekeyed(k, m, |wire|)
      && XorByte(Unmasked(wire)[|wire| - 1], Unmasked(other)[|wire| - 1]) == XorByte(Pad(k, |wire| - 1, true), Pad(m, |wire| - 1, true))
  {
    hide XorByte, Opened, Unmasked, KeysOf, Pad;
    var k, m := KeysOf(wire[2], wire[3]), KeysOf(other[2], other[3]);
    var d := Difference(Opened(wire), Opened(other));
    var last := |wire| - 1;
    OpenedPad(wire, last);
    OpenedPad(other, last);
    SamePlain(wire[last], Pad(k, last, true), Pad(m, last, true));
    forall i | 0 <= i < last ensures d[i] == Rekeyed(k, m, |wire|)[i] {
      OpenedPad(wire, i);
      OpenedPad(other, i);
      if i != 2 && i != 3 {
        SamePlain(wire[i], Pad(k, i, false), Pad(m, i, false));
      }
    }
  }

  lemma SamePlain(a: byte, p: byte, q: byte)
    ensures XorByte(XorByte(a, p), XorByte(a, q)) == XorByte(p, q)
  {
    hide XorByte;
    XorSwaps(a, p, a, q);
    XorNothing(a);
    XorNothing(XorByte(p, q));
  }

  /** Changing the octets of serial and nonce of an accepted frame goes unnoticed exactly when the change of
      keys slips: the old and new keys and the length decide, whatever the frame says. */
  lemma KeyChangeSlipsExactlyWhen(wire: seq<byte>, other: seq<byte>)
    requires Parse(wire).Some? && |other| == |wire|
    requires forall i | 0 <= i < |wire| && i != 2 && i != 3 :: other[i] == wire[i]
    ensures Parse(other).Some? <==> Slips(KeysOf(wire[2], wire[3]), KeysOf(other[2], other[3]), |wire|)
  {
    hide XorByte, Opened, Unmasked, KeysOf, Pad, Sum, Rekeyed;
    var c, d := Opened(wire), Opened(other);
    var e, last := Difference(c, d), |wire| - 1;
    OpenedDiffers(wire, other);
    SumLinear(0, 0, c, d);
    XorNothing(0);
    LengthSurvives(c[1], d[1]);
    Balanced(Sum(0, c), Sum(0, d), Unmasked(wire)[last], Unmasked(other)[last]);
  }

  lemma LengthSurvives(a: byte, b: byte)
    ensures a % 32 == b % 32 <==> XorByte(a, b) % 32 == 0
  {
    hide XorByte;
    hide XorByte;
    hide XorByte;
    hide XorByte;
    hide XorByte;
    var d := XorByte(a, b);
    XorHalves(a, b);
    XorHalves(a / 2, b / 2);
    XorHalves(a / 4, b / 4);
    XorHalves(a / 8, b / 8);
    XorHalves(a / 16, b / 16);
    FiveBits(a);
    FiveBits(b);
    FiveBits(d);
  }

  lemma FiveBits(x: byte)
    ensures x % 32 == x % 2 + 2 * (x / 2 % 2) + 4 * (x / 2 / 2 % 2) + 8 * (x / 2 / 2 / 2 % 2) + 16 * (x / 2 / 2 / 2 / 2 % 2)
    ensures x / 4 == x / 2 / 2 && x / 8 == x / 4 / 2 && x / 16 == x / 8 / 2
  {
  }

  lemma Balanced(s: byte, t: byte, f: byte, g: byte)
    requires s == f
    ensures t == g <==> XorByte(s, t) == XorByte(f, g)
  {
    if XorByte(s, t) == XorByte(f, g) {
      XorAssociates(t, s, 0);
      XorAssociates(g, s, 0);
      XorInjective(t, g, s);
    }
  }

  // ----- Changes that slip.

  function Num(v: bv8): nat {
    v as nat
  }

  function Mix(v: bv8, w: bv8): bv8 {
    v ^ w
  }

  function Half(v: bv8): bv8 {
    v >> 1
  }

  lemma HalfWord(v: bv8)
    ensures Num(Half(v)) == Num(v) / 2 && (v & 1) as nat == Num(v) % 2
  {
  }

  lemma WordParts(v: bv8, w: bv8)
    ensures Num(Mix(v, w)) == (if Num(v) % 2 == Num(w) % 2 then 0 else 1) + 2 * Num(Mix(Half(v), Half(w)))
  {
    HalfWord(v);
    HalfWord(w);
    HalfWord(Mix(v, w));
    MixParts(v, w);
    hide Num;
  }

  lemma MixParts(v: bv8, w: bv8)
    ensures Half(Mix(v, w)) == Mix(Half(v), Half(w))
    ensures (Mix(v, w) & 1) as nat == if (v & 1) as nat == (w & 1) as nat then 0 else 1
  {
  }

  lemma NoBits(v: bv8, w: bv8)
    requires Num(v) == 0 && Num(w) == 0
    ensures Num(Mix(v, w)) == 0
  {
  }

  lemma {:induction false} XorBitsWord(v: bv8, w: bv8, n: nat)
    requires Num(v) < Pow2(n) && Num(w) < Pow2(n)
    ensures XorBits(Num(v), Num(w), n) == Num(Mix(v, w))
    decreases n
  {
    hide Num, Mix, Half;
    if n == 0 {
      NoBits(v, w);
    } else {
      HalfWord(v);
      HalfWord(w);
      XorBitsWord(Half(v), Half(w), n - 1);
      WordParts(v, w);
    }
  }

  /** An exclusive or, in machine words. */
  lemma XorWord(v: bv8, w: bv8)
    ensures XorByte(v as nat, w as nat) == (v ^ w) as nat
  {
    EightBits();
    XorBitsWord(v, w, 8);
  }

  function StepWord(v: bv8): bv8 {
    if v & 1 == 1 then (v >> 1) ^ 0xEB else v >> 1
  }

  function OctetWord(v: bv8): bv8 {
    StepWord(StepWord(StepWord(StepWord(StepWord(StepWord(StepWord(StepWord(v))))))))
  }

  lemma StepIsWord(v: bv8)
    ensures ShiftStep(v as nat) == StepWord(v) as nat
  {
    HalfWord(v);
    XorWord(v >> 1, 0xEB);
    hide XorByte;
  }

  lemma OctetIsWord(v: bv8)
    ensures ShiftSteps(v as nat, 8) == OctetWord(v) as nat
  {
    hide ShiftStep, StepWord;
    var v1 := StepWord(v);
    var v2 := StepWord(v1);
    var v3 := StepWord(v2);
    var v4 := StepWord(v3);
    var v5 := StepWord(v4);
    var v6 := StepWord(v5);
    StepIsWord(v);
    StepIsWord(v1);
    StepIsWord(v2);
    StepIsWord(v3);
    StepIsWord(v4);
    StepIsWord(v5);
    StepIsWord(v6);
    StepIsWord(StepWord(v6));
    assert ShiftSteps(v as nat, 1) == v1 as nat && ShiftSteps(v as nat, 2) == v2 as nat && ShiftSteps(v as nat, 3) == v3 as nat;
    assert ShiftSteps(v as nat, 4) == v4 as nat && ShiftSteps(v as nat, 5) == v5 as nat && ShiftSteps(v as nat, 6) == v6 as nat;
  }

  lemma SumMore(value: bv8, b: bv8, rest: seq<byte>)
    ensures Sum(value as nat, [b as nat] + rest) == Sum(OctetWord(value ^ b) as nat, rest)
  {
    XorWord(value, b);
    OctetIsWord(value ^ b);
    hide XorByte, ShiftSteps, OctetWord;
    assert ([b as nat] + rest)[1..] == rest;
  }

  lemma NothingSums(value: byte)
    ensures Sum(value, []) == value
  {
  }

  lemma NonceSum()
    ensures Sum(0, [0, 0, 241, 143]) == 0
  {
    NonceSumSteps();
    hide Sum, OctetWord;
    assert [0] + [0, 241, 143] == [0, 0, 241, 143];
    SumMore(0, 0, [0, 241, 143]);
    assert [0] + [241, 143] == [0, 241, 143];
    SumMore(0, 0, [241, 143]);
    assert [241] + [143] == [241, 143];
    SumMore(0, 241, [143]);
    assert [143] + [] == [143];
    SumMore(143, 143, []);
    NothingSums(0);
  }

  lemma NonceSumSteps()
    ensures OctetWord(0) == 0 && OctetWord(241) == 143
  {
  }

  lemma SerialSum()
    ensures Sum(0, [160, 224, 96, 0, 96, 224, 96]) == 0
  {
    SerialSumSteps();
    hide Sum, OctetWord;
    assert [160] + [224, 96, 0, 96, 224, 96] == [160, 224, 96, 0, 96, 224, 96];
    SumMore(0, 160, [224, 96, 0, 96, 224, 96]);
    assert [224] + [96, 0, 96, 224, 96] == [224, 96, 0, 96, 224, 96];
    SumMore(164, 224, [96, 0, 96, 224, 96]);
    assert [96] + [0, 96, 224, 96] == [96, 0, 96, 224, 96];
    SumMore(173, 96, [0, 96, 224, 96]);
    assert [0] + [96, 224, 96] == [0, 96, 224, 96];
    SumMore(89, 0, [96, 224, 96]);
    assert [96] + [224, 96] == [96, 224, 96];
    SumMore(77, 96, [224, 96]);
    assert [224] + [96] == [224, 96];
    SumMore(99, 224, [96]);
    assert [96] + [] == [96];
    SumMore(96, 96, []);
    NothingSums(0);
  }

  lemma SerialSumSteps()
    ensures OctetWord(160) == 164 && OctetWord(68) == 173 && OctetWord(205) == 89 && OctetWord(89) == 77 && OctetWord(45) == 99 && OctetWord(131) == 96 && OctetWord(0) == 0
  {
  }

  lemma NonceSlips(offset: nat)
    requires offset == 0 || offset == 20
    ensures Slips(Keys(offset, 204, 192), Keys(offset, 61, 79), 5)
  {
    hide XorByte, Sum, Rekeyed, Mask;
    NonceSlipsChange(offset);
    NonceSum();
    XorNothing(Mask(offset + 4));
  }

  lemma NonceSlipsChange(offset: nat)
    requires offset == 0 || offset == 20
    ensures Rekeyed(Keys(offset, 204, 192), Keys(offset, 61, 79), 5) == [0, 0, 241, 143]
  {
    hide XorByte, Mask, Veil;
    NonceSlipsVeils();
    var d := Rekeyed(Keys(offset, 204, 192), Keys(offset, 61, 79), 5);
    SamePlain(Mask(offset + 0), 242, 242);
    XorWord(242, 242);
    SamePlain(Mask(offset + 1), 39, 39);
    XorWord(39, 39);
    XorWord(204, 61);
    XorWord(192, 79);
    assert d[0] == 0;
    assert d[1] == 0;
    assert d[2] == 241;
    assert d[3] == 143;
  }

  lemma NonceSlipsVeils()
    ensures Veil(204, 192, 0) == 242 && Veil(61, 79, 0) == 242
    ensures Veil(204, 192, 1) == 39 && Veil(61, 79, 1) == 39
  {
  }

  lemma SerialSlips(offset: nat)
    requires offset == 0 || offset == 20
    ensures Slips(Keys(offset, 251, 159), Keys(offset, 155, 159), 8)
  {
    hide XorByte, Sum, Rekeyed, Mask;
    SerialSlipsChange(offset);
    SerialSum();
    XorNothing(Mask(offset + 7));
  }

  lemma SerialSlipsChange(offset: nat)
    requires offset == 0 || offset == 20
    ensures Rekeyed(Keys(offset, 251, 159), Keys(offset, 155, 159), 8) == [160, 224, 96, 0, 96, 224, 96]
  {
    hide XorByte, Mask, Veil;
    SerialSlipsVeils();
    var d := Rekeyed(Keys(offset, 251, 159), Keys(offset, 155, 159), 8);
    SamePlain(Mask(offset + 0), 0, 160);
    XorWord(0, 160);
    SamePlain(Mask(offset + 1), 53, 213);
    XorWord(53, 213);
    XorWord(251, 155);
    XorWord(159, 159);
    SamePlain(Mask(offset + 4), 103, 7);
    XorWord(103, 7);
    SamePlain(Mask(offset + 5), 55, 215);
    XorWord(55, 215);
    SamePlain(Mask(offset + 6), 253, 157);
    XorWord(253, 157);
    assert d[0] == 160;
    assert d[1] == 224;
    assert d[2] == 96;
    assert d[3] == 0;
    assert d[4] == 96;
    assert d[5] == 224;
    assert d[6] == 96;
  }

  lemma SerialSlipsVeils()
    ensures Veil(251, 159, 0) == 0 && Veil(155, 159, 0) == 160
    ensures Veil(251, 159, 1) == 53 && Veil(155, 159, 1) == 213
    ensures Veil(251, 159, 4) == 103 && Veil(155, 159, 4) == 7
    ensures Veil(251, 159, 5) == 55 && Veil(155, 159, 5) == 215
    ensures Veil(251, 159, 6) == 253 && Veil(155, 159, 6) == 157
  {
  }

  /** The keys of a frame that was built are those it was built with. */
  lemma KeysOfSealed(clear: seq<byte>)
    requires 4 <= |clear| <= 19
    ensures var w := Sealed(clear); KeysOf(w[2], w[3]) == Keys(KeysOf(w[2], w[3]).offset, clear[2], clear[3])
  {
    hide XorByte, Sealed, Opened, KeysOf;
    OpenedSealed(clear);
    OpenedPad(Sealed(clear), 0);
  }

  lemma SealedKeyOctets(clear: seq<byte>)
    requires 4 <= |clear| <= 19
    ensures var o := Offset(XorByte(Low8(clear[3] as int + 191), 219));
      && Sealed(clear)[3] == XorByte(XorByte(Low8(clear[3] as int + 191), 219), Mask(o + 3))
      && Sealed(clear)[2] == XorByte(XorByte(Low8(clear[2] as int - 173), clear[3]), Mask(o + 2))
  {
    hide XorByte;
  }

  /** Whatever the request, a frame without payload under serial 204 and nonce 192, and the same frame with 118
      instead of 7 in the octet of the nonce: both are accepted. */
  lemma NonceChangeSlips(opcode: byte)
    ensures var wire := Sealed(Clear(Packet(opcode, 204, []), 192));
      && Parse(wire) == Some(Packet(opcode, 204, [])) && wire[3] == 7 && Parse(wire[3 := 118]).Some?
  {
    hide XorByte, Sealed, Parse, Slips, KeysOf;
    var c, d := Clear(Packet(opcode, 204, []), 192), Clear(Packet(opcode, 61, []), 79);
    ParseInvertsBuild(Packet(opcode, 204, []), 192);
    NonceChangeSlipsOctets(c, d);
    KeysOfSealed(c);
    KeysOfSealed(d);
    NonceSlips(0);
    KeyChangeSlipsExactlyWhen(Sealed(c), Sealed(c)[3 := 118]);
  }

  lemma NonceChangeSlipsOctets(c: seq<byte>, d: seq<byte>)
    requires |c| == |d| == 4 && c[2] == 204 && c[3] == 192 && d[2] == 61 && d[3] == 79
    ensures Sealed(c)[2] == 10 && Sealed(c)[3] == 7 && Sealed(d)[2] == 10 && Sealed(d)[3] == 118
    ensures KeysOf(10, 7).offset == 0 && KeysOf(10, 118).offset == 0
  {
    hide XorByte, Sealed;
    SealedKeyOctets(c);
    SealedKeyOctets(d);
    XorWord(127, 219);
    XorWord(164, 163);
    XorWord(31, 192);
    XorWord(223, 213);
    XorWord(14, 219);
    XorWord(213, 163);
    XorWord(144, 79);
    XorWord(7, 163);
    XorWord(118, 163);
  }

  /** Whatever the request and its three octets of payload, a frame under serial 251 and nonce 159, and the same
      frame with 164 instead of 4 in the octet of the serial: both are accepted. */
  lemma SerialChangeSlips(opcode: byte, payload: seq<byte>)
    requires |payload| == 3
    ensures var wire := Sealed(Clear(Packet(opcode, 251, payload), 159));
      && Parse(wire) == Some(Packet(opcode, 251, payload)) && wire[2] == 4 && Parse(wire[2 := 164]).Some?
  {
    hide XorByte, Sealed, Parse, Slips, KeysOf;
    var c, d := Clear(Packet(opcode, 251, payload), 159), Clear(Packet(opcode, 155, payload), 159);
    ParseInvertsBuild(Packet(opcode, 251, payload), 159);
    SerialChangeSlipsOctets(c, d);
    KeysOfSealed(c);
    KeysOfSealed(d);
    SerialSlips(0);
    KeyChangeSlipsExactlyWhen(Sealed(c), Sealed(c)[2 := 164]);
  }

  lemma SerialChangeSlipsOctets(c: seq<byte>, d: seq<byte>)
    requires |c| == |d| == 7 && c[2] == 251 && c[3] == 159 && d[2] == 155 && d[3] == 159
    ensures Sealed(c)[2] == 4 && Sealed(c)[3] == 38 && Sealed(d)[2] == 164 && Sealed(d)[3] == 38
    ensures KeysOf(4, 38).offset == 0 && KeysOf(164, 38).offset == 0
  {
    hide XorByte, Sealed;
    SealedKeyOctets(c);
    SealedKeyOctets(d);
    XorWord(94, 219);
    XorWord(133, 163);
    XorWord(78, 159);
    XorWord(209, 213);
    XorWord(238, 159);
    XorWord(113, 213);
    XorWord(38, 163);
  }
}
