/** The CRC-32 of IEEE 802.3 (section 3.2.9), as the save files use it (main/gb_saves.c).
    A uint32_t is modelled by its 32 bits, least significant first. */
module Crc32 {
  import opened Bytes

  type Register = r: seq<bool> | |r| == 32 witness seq(32, _ => false)

  function Constant(bit: bool): Register {
    seq(32, _ => bit)
  }

  const INITIAL: Register := Constant(true)

  const ZERO: Register := Constant(false)

  /** Bit i of the reflected polynomial 0xEDB88320. */
  predicate Polynomial(i: int) {
    i in {5, 8, 9, 15, 19, 20, 21, 23, 24, 26, 27, 29, 30, 31}
  }

  /** One shift: (crc >> 1) ^ (0xEDB88320 & -(crc & 1)). */
  function BitStep(r: Register): Register {
    seq(32, i requires 0 <= i < 32 => (i < 31 && r[i + 1]) != (r[0] && Polynomial(i)))
  }

  function BitSteps(r: Register, n: nat): Register
    decreases n
  {
    if n == 0 then r else BitSteps(BitStep(r), n - 1)
  }

  function Xor(a: Register, b: Register): Register {
    seq(32, i requires 0 <= i < 32 => a[i] != b[i])
  }

  function Bit(b: nat, i: nat): bool {
    if i == 0 then b % 2 == 1 else Bit(b / 2, i - 1)
  }

  /** An octet in the low end of a register. */
  function Octet(b: byte): Register {
    seq(32, i requires 0 <= i < 32 => i < 8 && Bit(b, i))
  }

  function ByteStep(r: Register, b: byte): Register {
    BitSteps(Xor(r, Octet(b)), 8)
  }

  function Crc(r: Register, data: seq<byte>): Register {
    if data == [] then r else ByteStep(Crc(r, data[..|data| - 1]), data[|data| - 1])
  }

  /** crc_update. */
  method CrcUpdate(start: Register, data: seq<byte>) returns (crc: Register)
    ensures crc == Crc(start, data)
  {
    hide BitStep, Xor, Octet;
    crc := start;
    for i := 0 to |data|
      invariant crc == Crc(start, data[..i])
    {
      ghost var goal := ByteStep(crc, data[i]);
      crc := Xor(crc, Octet(data[i]));
      for bit := 0 to 8
        invariant goal == BitSteps(crc, 8 - bit)
      {
        crc := BitStep(crc);
      }
      assert data[..i + 1][..i] == data[..i];
    }
    assert data[..|data|] == data;
  }

  /** The register after a concatenation does not depend on where it was cut. */
  lemma {:induction false} CrcConcat(start: Register, x: seq<byte>, y: seq<byte>)
    ensures Crc(start, x + y) == Crc(Crc(start, x), y)
    decreases |y|
  {
    hide ByteStep;
    if y == [] {
      assert x + y == x;
    } else {
      var n := |y| - 1;
      CrcConcat(start, x, y[..n]);
      assert (x + y)[..|x| + n] == x + y[..n];
    }
  }

  // ----- Exclusive or.

  lemma XorCancels(a: Register, x: Register, y: Register)
    requires Xor(a, x) == Xor(a, y)
    ensures x == y
  {
    forall i | 0 <= i < 32 ensures x[i] == y[i] {
      assert Xor(a, x)[i] == Xor(a, y)[i];
    }
  }

  lemma XorCommutes(a: Register, x: Register)
    ensures Xor(a, x) == Xor(x, a)
  {
  }

  lemma XorTwice(a: Register, x: Register)
    ensures Xor(a, Xor(a, x)) == x
  {
  }

  lemma XorZero(a: Register)
    ensures Xor(a, a) == ZERO && Xor(a, ZERO) == a
  {
  }

  lemma XorIsZero(a: Register, x: Register)
    requires Xor(a, x) == ZERO
    ensures a == x
  {
    forall i | 0 <= i < 32 ensures a[i] == x[i] {
      assert Xor(a, x)[i] == ZERO[i];
    }
  }

  lemma DifferenceMoves(a: Register, x: Register, c: Register, y: Register, d: Register)
    requires Xor(c, y) == Xor(Xor(a, x), d)
    ensures Xor(a, c) == Xor(Xor(x, y), d)
  {
    forall i | 0 <= i < 32 ensures Xor(a, c)[i] == Xor(Xor(x, y), d)[i] {
      assert Xor(c, y)[i] == Xor(Xor(a, x), d)[i];
    }
  }

  // ----- Every step is a bijection of the register.

  lemma BitStepInjective(a: Register, b: Register)
    requires BitStep(a) == BitStep(b)
    ensures a == b
  {
    assert BitStep(a)[31] == BitStep(b)[31];
    forall i | 0 < i < 32 ensures a[i] == b[i] {
      assert BitStep(a)[i - 1] == BitStep(b)[i - 1];
    }
  }

  lemma {:induction false} BitStepsInjective(a: Register, b: Register, n: nat)
    requires BitSteps(a, n) == BitSteps(b, n)
    ensures a == b
    decreases n
  {
    hide BitStep;
    if n > 0 {
      BitStepsInjective(BitStep(a), BitStep(b), n - 1);
      BitStepInjective(a, b);
    }
  }

  /** Two registers that differ still differ after the same data. */
  lemma {:induction false} CrcInjective(a: Register, b: Register, data: seq<byte>)
    requires Crc(a, data) == Crc(b, data)
    ensures a == b
  {
    hide BitSteps, Xor, Octet;
    if data != [] {
      var front, last := data[..|data| - 1], Octet(data[|data| - 1]);
      BitStepsInjective(Xor(Crc(a, front), last), Xor(Crc(b, front), last), 8);
      XorCommutes(Crc(a, front), last);
      XorCommutes(Crc(b, front), last);
      XorCancels(last, Crc(a, front), Crc(b, front));
      CrcInjective(a, b, front);
    }
  }

  lemma {:induction false} SameBits(x: nat, y: nat, n: nat)
    requires forall i | 0 <= i < n :: Bit(x, i) == Bit(y, i)
    requires x < Pow2(n) && y < Pow2(n)
    ensures x == y
  {
    if n > 0 {
      assert Bit(x, 0) == Bit(y, 0);
      forall i | 0 <= i < n - 1 ensures Bit(x / 2, i) == Bit(y / 2, i) {
        assert Bit(x, i + 1) == Bit(y, i + 1);
      }
      SameBits(x / 2, y / 2, n - 1);
    }
  }

  lemma SameOctet(x: byte, y: byte)
    requires Octet(x) == Octet(y)
    ensures x == y
  {
    assert Pow2(4) == 16;
    assert Pow2(8) == 256;
    forall i | 0 <= i < 8 ensures Bit(x, i) == Bit(y, i) {
      assert Octet(x)[i] == Octet(y)[i];
    }
    SameBits(x, y, 8);
  }

  // ----- A burst of up to four octets enters the register bijectively as well.

  /** h << n. */
  function Lift(h: Register, n: nat): Register {
    seq(32, i requires 0 <= i < 32 => i >= n && h[i - n])
  }

  /** h < 2^bits. */
  predicate Below(h: Register, bits: int) {
    forall i | 0 <= i < 32 && i >= bits :: !h[i]
  }

  lemma BitStepAbsorbs(r: Register, h: Register, n: nat)
    requires Below(h, 24) && n < 8
    ensures BitStep(Xor(r, Lift(h, n + 1))) == Xor(BitStep(r), Lift(h, n))
  {
  }

  lemma {:induction false} Absorb(r: Register, h: Register, n: nat)
    requires Below(h, 24) && n <= 8
    ensures BitSteps(Xor(r, Lift(h, n)), n) == Xor(BitSteps(r, n), h)
    decreases n
  {
    if n == 0 {
      assert Lift(h, 0) == h;
    } else {
      BitStepAbsorbs(r, h, n - 1);
      hide Xor, BitStep, Lift;
      Absorb(BitStep(r), h, n - 1);
    }
  }

  /** Eight shifts bring bits 8 and up down unchanged: registers that end up differing by h < 2^24
      differed by h << 8 and by the octets folded in. */
  lemma PeelOctet(a: Register, x: byte, c: Register, y: byte, h: Register)
    requires ByteStep(c, y) == Xor(ByteStep(a, x), h) && Below(h, 24)
    ensures Xor(a, c) == Xor(Xor(Octet(x), Octet(y)), Lift(h, 8))
  {
    hide Xor, BitStep, BitSteps, Octet, Below, Lift;
    var u, v := Xor(a, Octet(x)), Xor(c, Octet(y));
    Absorb(u, h, 8);
    BitStepsInjective(Xor(u, Lift(h, 8)), v, 8);
    DifferenceMoves(a, Octet(x), c, Octet(y), Lift(h, 8));
  }

  lemma DifferenceBelow(x: byte, y: byte, h: Register)
    ensures var d := Xor(Octet(x), Octet(y));
      && Below(d, 8) && Xor(d, Lift(ZERO, 8)) == d && Below(ZERO, 24)
      && (Below(h, 8) ==> Below(h, 24) && Below(Xor(d, Lift(h, 8)), 16))
      && (Below(h, 16) ==> Below(h, 24) && Below(Xor(d, Lift(h, 8)), 24))
  {
  }

  /** The differences of the register before each octet, from the last octet back to the first. */
  lemma Unwind(b0: Register, b1: Register, b2: Register, b3: Register, d1: Register, d2: Register)
    requires Below(b0, 8) && Below(b1, 8) && Below(b2, 8) && Below(b3, 8) && Below(d1, 24)
    requires d2 == Xor(b2, Lift(b3, 8)) && d1 == Xor(b1, Lift(d2, 8)) && ZERO == Xor(b0, Lift(d1, 8))
    ensures b0 == ZERO && b1 == ZERO && b2 == ZERO && b3 == ZERO
  {
    LiftEndsChain(b0, d1);
    assert Below(d2, 16);
    LiftEndsChain(b1, d2);
    assert Below(b3, 24);
    LiftEndsChain(b2, b3);
  }

  lemma LiftEndsChain(low: Register, high: Register)
    requires Below(low, 8) && Below(high, 24) && ZERO == Xor(low, Lift(high, 8))
    ensures low == ZERO && high == ZERO
  {
    forall i | 0 <= i < 32 ensures !low[i] {
      assert Xor(low, Lift(high, 8))[i] == ZERO[i];
    }
    forall i | 0 <= i < 24 ensures !high[i] {
      assert Xor(low, Lift(high, 8))[i + 8] == ZERO[i + 8];
    }
  }

  /** From one register, two different four-octet bursts never lead to the same register. */
  lemma BurstInjective(start: Register, x: seq<byte>, y: seq<byte>)
    requires |x| == |y| == 4
    requires ByteStep(ByteStep(ByteStep(ByteStep(start, x[0]), x[1]), x[2]), x[3])
          == ByteStep(ByteStep(ByteStep(ByteStep(start, y[0]), y[1]), y[2]), y[3])
    ensures x == y
  {
    hide ByteStep, Xor, Octet, Below, Lift;
    var s1, t1 := ByteStep(start, x[0]), ByteStep(start, y[0]);
    var s2, t2 := ByteStep(s1, x[1]), ByteStep(t1, y[1]);
    var s3, t3 := ByteStep(s2, x[2]), ByteStep(t2, y[2]);
    DifferenceBelow(x[3], y[3], ZERO);
    XorZero(ByteStep(s3, x[3]));
    PeelOctet(s3, x[3], t3, y[3], ZERO);
    XorTwice(s3, t3);
    DifferenceBelow(x[2], y[2], Xor(s3, t3));
    PeelOctet(s2, x[2], t2, y[2], Xor(s3, t3));
    XorTwice(s2, t2);
    DifferenceBelow(x[1], y[1], Xor(s2, t2));
    PeelOctet(s1, x[1], t1, y[1], Xor(s2, t2));
    XorTwice(s1, t1);
    DifferenceBelow(x[0], y[0], ZERO);
    PeelOctet(start, x[0], start, y[0], Xor(s1, t1));
    XorZero(start);
    Unwind(Xor(Octet(x[0]), Octet(y[0])), Xor(Octet(x[1]), Octet(y[1])), Xor(Octet(x[2]), Octet(y[2])),
           Xor(Octet(x[3]), Octet(y[3])), Xor(s1, t1), Xor(s2, t2));
    EqualOctets(x[0], y[0]);
    EqualOctets(x[1], y[1]);
    EqualOctets(x[2], y[2]);
    EqualOctets(x[3], y[3]);
  }

  lemma EqualOctets(x: byte, y: byte)
    requires Xor(Octet(x), Octet(y)) == ZERO
    ensures x == y
  {
    hide Xor, Octet;
    XorIsZero(Octet(x), Octet(y));
    SameOctet(x, y);
  }

  lemma CrcOfFour(start: Register, x: seq<byte>)
    requires |x| == 4
    ensures Crc(start, x) == ByteStep(ByteStep(ByteStep(ByteStep(start, x[0]), x[1]), x[2]), x[3])
  {
    hide ByteStep;
    assert x[..1][..0] == [];
    assert x[..2][..1] == x[..1];
    assert x[..3][..2] == x[..2];
    assert Crc(start, x[..1]) == ByteStep(start, x[0]);
    assert Crc(start, x[..2]) == ByteStep(ByteStep(start, x[0]), x[1]);
  }

  /** Any change confined to four adjacent octets changes the CRC. */
  lemma BurstDetected(start: Register, front: seq<byte>, x: seq<byte>, y: seq<byte>, rest: seq<byte>)
    requires |x| == |y| == 4 && x != y
    ensures Crc(start, front + x + rest) != Crc(start, front + y + rest)
  {
    CrcConcat(start, front + x, rest);
    CrcConcat(start, front + y, rest);
    CrcConcat(start, front, x);
    CrcConcat(start, front, y);
    hide ByteStep, Crc;
    if Crc(start, front + x + rest) == Crc(start, front + y + rest) {
      CrcInjective(Crc(start, front + x), Crc(start, front + y), rest);
      CrcOfFour(Crc(start, front), x);
      CrcOfFour(Crc(start, front), y);
      BurstInjective(Crc(start, front), x, y);
    }
  }

  /** Any change of one octet changes the CRC. */
  lemma OctetDetected(start: Register, front: seq<byte>, x: byte, y: byte, rest: seq<byte>)
    requires x != y
    ensures Crc(start, front + [x] + rest) != Crc(start, front + [y] + rest)
  {
    hide BitSteps, Octet, Xor;
    CrcConcat(start, front + [x], rest);
    CrcConcat(start, front + [y], rest);
    var a := Crc(start, front);
    assert Crc(start, front + [x]) == ByteStep(a, x) by { assert (front + [x])[..|front|] == front; }
    assert Crc(start, front + [y]) == ByteStep(a, y) by { assert (front + [y])[..|front|] == front; }
    if Crc(start, front + [x] + rest) == Crc(start, front + [y] + rest) {
      CrcInjective(ByteStep(a, x), ByteStep(a, y), rest);
      BitStepsInjective(Xor(a, Octet(x)), Xor(a, Octet(y)), 8);
      XorCancels(a, Octet(x), Octet(y));
      SameOctet(x, y);
    }
  }
}
