/** The CRC in machine words: shifting in zero octets is multiplication by a power of x, which a few
    squarings compute for the lengths of real save files (main/gb_saves.c). */
module CrcWords {
  import opened Bytes
  import opened Crc32

  // ----- The CRC is linear.

  lemma BitStepLinear(a: Register, b: Register)
    ensures BitStep(Xor(a, b)) == Xor(BitStep(a), BitStep(b))
  {
  }

  lemma {:induction false} BitStepsLinear(a: Register, b: Register, n: nat)
    ensures BitSteps(Xor(a, b), n) == Xor(BitSteps(a, n), BitSteps(b, n))
    decreases n
  {
    hide BitStep, Xor;
    if n > 0 {
      BitStepLinear(a, b);
      BitStepsLinear(BitStep(a), BitStep(b), n - 1);
    }
  }

  lemma ZeroOctet()
    ensures Octet(0) == ZERO
  {
    assert Bit(0, 0) == Bit(0, 1) == Bit(0, 2) == Bit(0, 3) == Bit(0, 4) == Bit(0, 5) == Bit(0, 6) == Bit(0, 7) == false;
    forall i | 0 <= i < 32 ensures Octet(0)[i] == ZERO[i] {
      assert i < 8 ==> i == 0 || i == 1 || i == 2 || i == 3 || i == 4 || i == 5 || i == 6 || i == 7;
    }
  }

  lemma Regroup(a: Register, d: Register, o: Register)
    ensures Xor(Xor(a, d), o) == Xor(Xor(a, ZERO), Xor(d, o))
  {
  }

  lemma ByteStepLinear(a: Register, d: Register, y: byte)
    ensures ByteStep(Xor(a, d), y) == Xor(ByteStep(a, 0), ByteStep(d, y))
  {
    ZeroOctet();
    Regroup(a, d, Octet(y));
    BitStepsLinear(Xor(a, ZERO), Xor(d, Octet(y)), 8);
    hide BitSteps, Xor, Octet;
  }

  /** The CRC of any bytes, from that of as many zeros. */
  lemma {:induction false} CrcLinear(a: Register, data: seq<byte>)
    ensures Crc(a, data) == Xor(Crc(a, Zeros(|data|)), Crc(ZERO, data))
  {
    hide ByteStep, Xor;
    var z := Zeros(|data|);
    if data == [] {
      XorZero(a);
    } else {
      var n := |data| - 1;
      CrcLinear(a, data[..n]);
      assert z[..n] == Zeros(n);
      ByteStepLinear(Crc(a, z[..n]), Crc(ZERO, data[..n]), data[n]);
    }
  }

  // ----- Words.

  const POLYNOMIAL: bv32 := 0xEDB88320

  function Shifted(m: bv32): bv32 {
    m << 1
  }

  function XorWord(a: bv32, b: bv32): bv32 {
    a ^ b
  }

  predicate Meets(v: bv32, m: bv32) {
    v & m != 0
  }

  predicate OneBit(m: bv32) {
    m & (m - 1) == 0
  }

  function Mask(i: nat): bv32 {
    if i == 0 then 1 else Shifted(Mask(i - 1))
  }

  predicate BitOf(v: bv32, i: nat) {
    Meets(v, Mask(i))
  }

  function OfWord(v: bv32): Register {
    seq(32, i requires 0 <= i < 32 => BitOf(v, i))
  }

  function StepWord(v: bv32): bv32 {
    if v & 1 == 1 then (v >> 1) ^ POLYNOMIAL else v >> 1
  }

  lemma ShiftKeepsOneBit(m: bv32)
    requires OneBit(m)
    ensures OneBit(Shifted(m))
  {
  }

  lemma {:induction false} MaskIsOneBit(i: nat)
    ensures OneBit(Mask(i))
  {
    if i > 0 {
      MaskIsOneBit(i - 1);
      ShiftKeepsOneBit(Mask(i - 1));
      hide OneBit, Shifted;
    }
  }

  lemma XorAtMask(a: bv32, b: bv32, m: bv32)
    requires m & (m - 1) == 0
    ensures ((a ^ b) & m != 0) == ((a & m != 0) != (b & m != 0))
  {
  }

  lemma XorMeets(a: bv32, b: bv32, m: bv32)
    requires OneBit(m)
    ensures Meets(XorWord(a, b), m) == (Meets(a, m) != Meets(b, m))
  {
    XorAtMask(a, b, m);
  }

  lemma ShiftMeets(v: bv32, m: bv32)
    ensures Meets(v >> 1, m) == Meets(v, Shifted(m))
  {
  }

  lemma StepMeets(v: bv32, m: bv32)
    requires OneBit(m)
    ensures Meets(StepWord(v), m) == (Meets(v, Shifted(m)) != (Meets(v, 1) && Meets(POLYNOMIAL, m)))
  {
    hide Meets, OneBit, Shifted;
    ShiftMeets(v, m);
    OddMeets(v);
    if v & 1 == 1 {
      XorMeets(v >> 1, POLYNOMIAL, m);
      assert StepWord(v) == XorWord(v >> 1, POLYNOMIAL);
    }
  }

  lemma OddMeets(v: bv32)
    ensures Meets(v, 1) <==> v & 1 == 1
  {
  }

  lemma Masks()
    ensures Mask(0) == 0x1 && Mask(1) == 0x2 && Mask(2) == 0x4 && Mask(3) == 0x8 && Mask(4) == 0x10 && Mask(5) == 0x20
    ensures Mask(6) == 0x40 && Mask(7) == 0x80 && Mask(8) == 0x100 && Mask(9) == 0x200 && Mask(10) == 0x400 && Mask(11) == 0x800
    ensures Mask(12) == 0x1000 && Mask(13) == 0x2000 && Mask(14) == 0x4000 && Mask(15) == 0x8000 && Mask(16) == 0x10000
    ensures Mask(17) == 0x20000 && Mask(18) == 0x40000 && Mask(19) == 0x80000 && Mask(20) == 0x100000 && Mask(21) == 0x200000
    ensures Mask(22) == 0x400000 && Mask(23) == 0x800000 && Mask(24) == 0x1000000 && Mask(25) == 0x2000000
    ensures Mask(26) == 0x4000000 && Mask(27) == 0x8000000 && Mask(28) == 0x10000000 && Mask(29) == 0x20000000
    ensures Mask(30) == 0x40000000 && Mask(31) == 0x80000000
  {
  }

  lemma PolynomialWord(i: nat)
    requires i < 32
    ensures BitOf(POLYNOMIAL, i) == Polynomial(i)
  {
    Masks();
    hide Mask;
    assert i == 0 || i == 1 || i == 2 || i == 3 || i == 4 || i == 5 || i == 6 || i == 7 || i == 8 || i == 9 || i == 10
      || i == 11 || i == 12 || i == 13 || i == 14 || i == 15 || i == 16 || i == 17 || i == 18 || i == 19 || i == 20
      || i == 21 || i == 22 || i == 23 || i == 24 || i == 25 || i == 26 || i == 27 || i == 28 || i == 29 || i == 30 || i == 31;
  }

  /** A word stands for a register. */
  lemma WordStep(v: bv32)
    ensures BitStep(OfWord(v)) == OfWord(StepWord(v))
  {
    forall i | 0 <= i < 32 ensures BitStep(OfWord(v))[i] == OfWord(StepWord(v))[i] {
      WordStepBit(v, i);
    }
  }

  lemma AboveTop(v: bv32)
    ensures !Meets(v, Mask(32))
  {
    Masks();
    assert Mask(32) == Shifted(Mask(31));
    hide Mask;
  }

  lemma WordStepBit(v: bv32, i: nat)
    requires i < 32
    ensures BitOf(StepWord(v), i) == ((i < 31 && BitOf(v, i + 1)) != (BitOf(v, 0) && Polynomial(i)))
  {
    hide Polynomial, StepWord, Meets, OneBit, Shifted;
    PolynomialWord(i);
    MaskIsOneBit(i);
    StepMeets(v, Mask(i));
    AboveTop(v);
    assert Mask(0) == 1 && Mask(i + 1) == Shifted(Mask(i));
  }

  function StepOctet(v: bv32): bv32 {
    StepWord(StepWord(StepWord(StepWord(StepWord(StepWord(StepWord(StepWord(v))))))))
  }

  lemma WordOctet(v: bv32)
    ensures BitSteps(OfWord(v), 8) == OfWord(StepOctet(v))
  {
    var v1 := StepWord(v);
    var v2 := StepWord(v1);
    var v3 := StepWord(v2);
    var v4 := StepWord(v3);
    var v5 := StepWord(v4);
    var v6 := StepWord(v5);
    var v7 := StepWord(v6);
    hide StepWord, OfWord, BitStep;
    WordStep(v);
    WordStep(v1);
    WordStep(v2);
    WordStep(v3);
    WordStep(v4);
    WordStep(v5);
    WordStep(v6);
    WordStep(v7);
    assert BitSteps(OfWord(v), 8) == BitSteps(OfWord(v1), 7) == BitSteps(OfWord(v2), 6) == BitSteps(OfWord(v3), 5);
    assert BitSteps(OfWord(v3), 5) == BitSteps(OfWord(v4), 4) == BitSteps(OfWord(v5), 3) == BitSteps(OfWord(v6), 2);
    assert BitSteps(OfWord(v6), 2) == BitSteps(OfWord(v7), 1) == BitSteps(OfWord(StepWord(v7)), 0);
  }

  /** The word whose bits are those of an octet. */
  predicate Spells(b: byte, w: bv32) {
    OctetWord(w) && forall i | 0 <= i < 8 :: Bit(b, i) == BitOf(w, i)
  }

  /** One more byte of a CRC, in words. */
  lemma CrcStep(data: seq<byte>, v: bv32, b: byte, w: bv32)
    requires Crc(ZERO, data) == OfWord(v) && Spells(b, w)
    ensures Crc(ZERO, data + [b]) == OfWord(StepOctet(XorWord(v, w)))
  {
    WordXor(v, b, w);
    WordOctet(XorWord(v, w));
    hide OfWord, StepOctet, BitSteps, Octet, Xor;
    assert (data + [b])[..|data|] == data;
  }

  lemma WordXor(v: bv32, b: byte, w: bv32)
    requires Spells(b, w)
    ensures Xor(OfWord(v), Octet(b)) == OfWord(XorWord(v, w))
  {
    forall i | 0 <= i < 32 ensures Xor(OfWord(v), Octet(b))[i] == OfWord(XorWord(v, w))[i] {
      WordXorBit(v, b, w, i);
    }
  }

  lemma WordXorBit(v: bv32, b: byte, w: bv32, i: nat)
    requires Spells(b, w) && i < 32
    ensures BitOf(XorWord(v, w), i) == (BitOf(v, i) != (i < 8 && Bit(b, i)))
  {
    hide Mask, Bit, Meets, OneBit, XorWord;
    MaskIsOneBit(i);
    XorMeets(v, w, Mask(i));
    if i >= 8 {
      HighMask(i);
      ClearAbove(w, Mask(i));
    }
  }

  lemma {:induction false} HighMask(i: nat)
    requires i >= 8
    ensures !Meets(0xFF, Mask(i))
  {
    hide Meets, Shifted;
    if i == 8 {
      EighthMask();
    } else {
      HighMask(i - 1);
      ShiftClearsLow(Mask(i - 1));
    }
  }

  lemma EighthMask()
    ensures !Meets(0xFF, Mask(8))
  {
    Masks();
    hide Mask;
  }

  lemma ShiftClearsLow(m: bv32)
    requires !Meets(0xFF, m)
    ensures !Meets(0xFF, Shifted(m))
  {
  }

  lemma ClearAbove(w: bv32, m: bv32)
    requires OctetWord(w) && !Meets(0xFF, m)
    ensures !Meets(w, m)
  {
  }

  predicate OctetWord(w: bv32) {
    w & 0xFFFFFF00 == 0
  }

  lemma OctetBits(b: byte, w: bv32)
    requires OctetWord(w)
    requires (b % 2 == 1) == (w & 0x1 != 0) && (b / 2 % 2 == 1) == (w & 0x2 != 0)
    requires (b / 4 % 2 == 1) == (w & 0x4 != 0) && (b / 8 % 2 == 1) == (w & 0x8 != 0)
    requires (b / 16 % 2 == 1) == (w & 0x10 != 0) && (b / 32 % 2 == 1) == (w & 0x20 != 0)
    requires (b / 64 % 2 == 1) == (w & 0x40 != 0) && (b / 128 % 2 == 1) == (w & 0x80 != 0)
    ensures Spells(b, w)
  {
    Masks();
    BitsOfOctet(b);
    hide Mask, Bit;
    forall i | 0 <= i < 8 ensures Bit(b, i) == BitOf(w, i) {
      assert i == 0 || i == 1 || i == 2 || i == 3 || i == 4 || i == 5 || i == 6 || i == 7;
    }
  }

  lemma BitsOfOctet(b: byte)
    ensures Bit(b, 0) == (b % 2 == 1) && Bit(b, 1) == (b / 2 % 2 == 1) && Bit(b, 2) == (b / 4 % 2 == 1) && Bit(b, 3) == (b / 8 % 2 == 1)
    ensures Bit(b, 4) == (b / 16 % 2 == 1) && Bit(b, 5) == (b / 32 % 2 == 1) && Bit(b, 6) == (b / 64 % 2 == 1) && Bit(b, 7) == (b / 128 % 2 == 1)
  {
    forall i | 0 <= i < 8 ensures Bit(b, i) == (b / Pow2(i) % 2 == 1) {
      BitIsQuotient(b, i);
    }
    hide Bit;
    assert Pow2(0) == 1 && Pow2(1) == 2 && Pow2(2) == 4 && Pow2(3) == 8 && Pow2(4) == 16 && Pow2(5) == 32 && Pow2(6) == 64 && Pow2(7) == 128;
  }

  lemma {:induction false} BitIsQuotient(b: nat, i: nat)
    ensures Bit(b, i) == (b / Pow2(i) % 2 == 1)
  {
    if i > 0 {
      BitIsQuotient(b / 2, i - 1);
      HalfThenRest(b, Pow2(i - 1));
    }
  }

  lemma HalfThenRest(b: nat, p: nat)
    requires p > 0
    ensures b / 2 / p == b / (2 * p)
  {
    var q, r := b / 2 / p, b / 2 % p;
    assert b / 2 == q * p + r;
    assert b == (2 * p) * q + (2 * r + b % 2) && 0 <= 2 * r + b % 2 < 2 * p;
    QuotientIs(b, 2 * p, q, 2 * r + b % 2);
  }

  lemma QuotientIs(b: nat, d: nat, q: nat, r: nat)
    requires d > 0 && b == d * q + r && r < d
    ensures b / d == q
  {
    assert b == d * (b / d) + b % d;
    NextMultiple(d, b / d, q);
    NextMultiple(d, q, b / d);
  }

  lemma NextMultiple(d: nat, x: nat, y: nat)
    ensures x < y ==> d * x + d <= d * y
  {
    if x < y {
      KeepsOrder(d, x + 1, y);
    }
    assert d * (x + 1) == d * x + d;
  }

  lemma KeepsOrder(d: nat, x: nat, y: nat)
    requires x <= y
    ensures d * x <= d * y
  {
  }

  /** The register after n zero octets. */
  function ZeroRun(v: bv32, n: nat): bv32
    decreases n
  {
    if n == 0 then v else ZeroRun(StepOctet(v), n - 1)
  }

  lemma ZeroSame()
    ensures Spells(0, 0)
  {
    OctetBits(0, 0);
  }

  lemma {:induction false} ZerosRun(data: seq<byte>, v: bv32, n: nat)
    requires Crc(ZERO, data) == OfWord(v)
    ensures Crc(ZERO, data + Zeros(n)) == OfWord(ZeroRun(v, n))
    decreases n
  {
    hide StepOctet, OfWord, Crc;
    if n == 0 {
      assert data + Zeros(0) == data;
    } else {
      ZeroSame();
      CrcStep(data, v, 0, 0);
      XorNothing(v);
      ZerosRun(data + [0], StepOctet(v), n - 1);
      assert data + [0] + Zeros(n - 1) == data + Zeros(n);
    }
  }

  lemma XorNothing(v: bv32)
    ensures XorWord(v, 0) == v
  {
  }

  lemma NoOctets()
    ensures Crc(ZERO, []) == OfWord(0)
  {
    forall i | 0 <= i < 32 ensures ZERO[i] == OfWord(0)[i] {
      assert 0 & Mask(i) == 0;
    }
  }

  // ----- Multiplication.

  function Half(v: bv32): bv32 {
    v >> 1
  }

  predicate Odd(v: bv32) {
    v & 1 == 1
  }

  lemma StepIs(v: bv32)
    ensures StepWord(v) == if Odd(v) then XorWord(Half(v), POLYNOMIAL) else Half(v)
  {
  }

  lemma HalfXor(x: bv32, y: bv32)
    ensures Half(XorWord(x, y)) == XorWord(Half(x), Half(y)) && Odd(XorWord(x, y)) == (Odd(x) != Odd(y))
  {
  }

  lemma RegroupWords(a: bv32, b: bv32, p: bv32)
    ensures XorWord(XorWord(a, p), b) == XorWord(XorWord(a, b), p)
    ensures XorWord(a, XorWord(b, p)) == XorWord(XorWord(a, b), p)
    ensures XorWord(XorWord(a, p), XorWord(b, p)) == XorWord(a, b)
  {
  }

  lemma StepLinear(x: bv32, y: bv32, sum: bv32)
    requires sum == XorWord(x, y)
    ensures StepWord(sum) == XorWord(StepWord(x), StepWord(y))
  {
    hide StepWord, XorWord, Half, Odd;
    StepIs(x);
    StepIs(y);
    StepIs(sum);
    HalfXor(x, y);
    RegroupWords(Half(x), Half(y), POLYNOMIAL);
  }

  lemma StepZero()
    ensures StepWord(0) == 0 && StepOctet(0) == 0
  {
  }

  lemma StepOctetLinear(x: bv32, y: bv32)
    ensures StepOctet(XorWord(x, y)) == XorWord(StepOctet(x), StepOctet(y))
  {
    hide StepWord, XorWord;
    var x1, y1 := StepWord(x), StepWord(y);
    var x2, y2 := StepWord(x1), StepWord(y1);
    var x3, y3 := StepWord(x2), StepWord(y2);
    var x4, y4 := StepWord(x3), StepWord(y3);
    var x5, y5 := StepWord(x4), StepWord(y4);
    var x6, y6 := StepWord(x5), StepWord(y5);
    StepLinear(x, y, XorWord(x, y));
    StepLinear(x1, y1, XorWord(x1, y1));
    StepLinear(x2, y2, XorWord(x2, y2));
    StepLinear(x3, y3, XorWord(x3, y3));
    StepLinear(x4, y4, XorWord(x4, y4));
    StepLinear(x5, y5, XorWord(x5, y5));
    StepLinear(x6, y6, XorWord(x6, y6));
    StepLinear(StepWord(x6), StepWord(y6), XorWord(StepWord(x6), StepWord(y6)));
  }

  lemma StepInjective(x: bv32, y: bv32)
    requires StepWord(x) == StepWord(y)
    ensures x == y
  {
  }

  lemma StepOctetInjective(x: bv32, y: bv32)
    requires StepOctet(x) == StepOctet(y)
    ensures x == y
  {
    hide StepWord;
    var x1, y1 := StepWord(x), StepWord(y);
    var x2, y2 := StepWord(x1), StepWord(y1);
    var x3, y3 := StepWord(x2), StepWord(y2);
    var x4, y4 := StepWord(x3), StepWord(y3);
    var x5, y5 := StepWord(x4), StepWord(y4);
    var x6, y6 := StepWord(x5), StepWord(y5);
    StepInjective(StepWord(x6), StepWord(y6));
    StepInjective(x6, y6);
    StepInjective(x5, y5);
    StepInjective(x4, y4);
    StepInjective(x3, y3);
    StepInjective(x2, y2);
    StepInjective(x1, y1);
    StepInjective(x, y);
  }

  lemma {:induction false} ZeroRunInjective(x: bv32, y: bv32, n: nat)
    requires ZeroRun(x, n) == ZeroRun(y, n)
    ensures x == y
    decreases n
  {
    hide StepOctet;
    if n > 0 {
      ZeroRunInjective(StepOctet(x), StepOctet(y), n - 1);
      StepOctetInjective(x, y);
    }
  }

  lemma {:induction false} ZeroRunLinear(x: bv32, y: bv32, n: nat)
    ensures ZeroRun(XorWord(x, y), n) == XorWord(ZeroRun(x, n), ZeroRun(y, n))
    ensures ZeroRun(0, n) == 0
    decreases n
  {
    hide StepOctet, XorWord;
    if n > 0 {
      StepOctetLinear(x, y);
      StepZero();
      ZeroRunLinear(StepOctet(x), StepOctet(y), n - 1);
    }
  }

  lemma {:induction false} ZeroRunAdds(v: bv32, m: nat, n: nat)
    ensures ZeroRun(ZeroRun(v, m), n) == ZeroRun(v, m + n)
    decreases m
  {
    hide StepOctet;
    if m > 0 {
      ZeroRunAdds(StepOctet(v), m - 1, n);
    }
  }

  lemma {:induction false} ZeroRunLast(v: bv32, n: nat)
    ensures ZeroRun(v, n + 1) == StepOctet(ZeroRun(v, n))
    decreases n
  {
    hide StepOctet;
    if n > 0 {
      ZeroRunLast(StepOctet(v), n - 1);
    }
  }

  /** b, if the top bit of a is set. */
  function Part(a: bv32, b: bv32): bv32 {
    if a & 0x80000000 == 0 then 0 else b
  }

  /** The product of two polynomials modulo the CRC polynomial, over the n top bits of a; bit 31 stands
      for the constant term. */
  function Times(a: bv32, b: bv32, n: nat): bv32
    decreases n
  {
    if n == 0 then 0 else XorWord(Part(a, b), Times(Shifted(a), StepWord(b), n - 1))
  }

  const ONE: bv32 := 0x80000000

  lemma PartStep(a: bv32, b: bv32)
    ensures Part(a, StepWord(b)) == StepWord(Part(a, b))
  {
  }

  lemma {:induction false} TimesStep(a: bv32, b: bv32, n: nat)
    ensures Times(a, StepWord(b), n) == StepWord(Times(a, b, n))
    decreases n
  {
    hide StepWord, Part, XorWord, Shifted;
    if n == 0 {
      StepZero();
    } else {
      TimesStep(Shifted(a), StepWord(b), n - 1);
      PartStep(a, b);
      StepLinear(Part(a, b), Times(Shifted(a), StepWord(b), n - 1), Times(a, b, n));
    }
  }

  lemma TimesStepOctet(a: bv32, b: bv32, n: nat)
    ensures Times(a, StepOctet(b), n) == StepOctet(Times(a, b, n))
  {
    hide StepWord, Times;
    var b1 := StepWord(b);
    var b2 := StepWord(b1);
    var b3 := StepWord(b2);
    var b4 := StepWord(b3);
    var b5 := StepWord(b4);
    var b6 := StepWord(b5);
    TimesStep(a, b, n);
    TimesStep(a, b1, n);
    TimesStep(a, b2, n);
    TimesStep(a, b3, n);
    TimesStep(a, b4, n);
    TimesStep(a, b5, n);
    TimesStep(a, b6, n);
    TimesStep(a, StepWord(b6), n);
  }

  lemma {:induction false} TimesRun(a: bv32, b: bv32, n: nat)
    ensures Times(a, ZeroRun(b, n), 32) == ZeroRun(Times(a, b, 32), n)
    decreases n
  {
    hide StepOctet, Times;
    if n > 0 {
      TimesRun(a, StepOctet(b), n - 1);
      TimesStepOctet(a, b, 32);
    }
  }

  function TopBits(n: nat): bv32 {
    if n == 0 then 0 else WithTop(TopBits(n - 1))
  }

  function WithTop(t: bv32): bv32 {
    0x80000000 | (t >> 1)
  }

  function Masked(a: bv32, mask: bv32): bv32 {
    a & mask
  }

  lemma TopBitsEven(n: nat)
    requires n < 32
    ensures !Odd(TopBits(n)) && TopBits(32) == 0xFFFFFFFF
  {
    assert TopBits(1) == 0x80000000 && TopBits(2) == 0xC0000000 && TopBits(3) == 0xE0000000 && TopBits(4) == 0xF0000000;
    assert TopBits(5) == 0xF8000000 && TopBits(6) == 0xFC000000 && TopBits(7) == 0xFE000000 && TopBits(8) == 0xFF000000;
    assert TopBits(9) == 0xFF800000 && TopBits(10) == 0xFFC00000 && TopBits(11) == 0xFFE00000 && TopBits(12) == 0xFFF00000;
    assert TopBits(13) == 0xFFF80000 && TopBits(14) == 0xFFFC0000 && TopBits(15) == 0xFFFE0000 && TopBits(16) == 0xFFFF0000;
    assert TopBits(17) == 0xFFFF8000 && TopBits(18) == 0xFFFFC000 && TopBits(19) == 0xFFFFE000 && TopBits(20) == 0xFFFFF000;
    assert TopBits(21) == 0xFFFFF800 && TopBits(22) == 0xFFFFFC00 && TopBits(23) == 0xFFFFFE00 && TopBits(24) == 0xFFFFFF00;
    assert TopBits(25) == 0xFFFFFF80 && TopBits(26) == 0xFFFFFFC0 && TopBits(27) == 0xFFFFFFE0 && TopBits(28) == 0xFFFFFFF0;
    assert TopBits(29) == 0xFFFFFFF8 && TopBits(30) == 0xFFFFFFFC && TopBits(31) == 0xFFFFFFFE;
    assert n == 0 || n == 1 || n == 2 || n == 3 || n == 4 || n == 5 || n == 6 || n == 7 || n == 8 || n == 9 || n == 10 || n == 11
      || n == 12 || n == 13 || n == 14 || n == 15 || n == 16 || n == 17 || n == 18 || n == 19 || n == 20 || n == 21 || n == 22
      || n == 23 || n == 24 || n == 25 || n == 26 || n == 27 || n == 28 || n == 29 || n == 30 || n == 31;
  }

  lemma ShiftedIn(a: bv32, t: bv32)
    requires t & 1 == 0
    ensures (a << 1) & t & 1 == 0 && ((a << 1) & t) >> 1 == a & (t >> 1)
  {
  }

  lemma DisjointXor(x: bv32, y: bv32)
    requires x & y == 0
    ensures x ^ y == x | y
  {
  }

  lemma AndOverOr(a: bv32, x: bv32, y: bv32)
    ensures a & (x | y) == (a & x) | (a & y)
  {
  }

  lemma TopPart(a: bv32)
    ensures Part(a, ONE) == a & 0x80000000
  {
  }

  lemma Apart(a: bv32, u: bv32)
    requires u & 0x80000000 == 0
    ensures (a & 0x80000000) & (a & u) == 0
  {
  }

  lemma HalfHasNoTop(t: bv32)
    ensures (t >> 1) & 0x80000000 == 0
  {
  }

  lemma TopBitIn(a: bv32, t: bv32)
    requires !Odd(t)
    ensures XorWord(Part(a, ONE), StepWord(Masked(Shifted(a), t))) == Masked(a, WithTop(t))
  {
    hide Part, StepWord;
    ShiftedIn(a, t);
    assert StepWord(Masked(Shifted(a), t)) == Half(Masked(Shifted(a), t)) by { StepIs(Masked(Shifted(a), t)); }
    HalfHasNoTop(t);
    TopPart(a);
    Apart(a, t >> 1);
    DisjointXor(a & 0x80000000, a & (t >> 1));
    AndOverOr(a, 0x80000000, t >> 1);
  }

  lemma {:induction false} TimesOne(a: bv32, n: nat)
    requires n <= 32
    ensures Times(a, ONE, n) == Masked(a, TopBits(n))
    decreases n
  {
    hide XorWord, Part, StepWord, Shifted, WithTop, Odd;
    if n > 0 {
      hide Masked;
      TimesStep(Shifted(a), ONE, n - 1);
      TimesOne(Shifted(a), n - 1);
      TopBitsEven(n - 1);
      TopBitIn(a, TopBits(n - 1));
    }
  }

  lemma ProductOne(a: bv32)
    ensures Times(a, ONE, 32) == a
  {
    TimesOne(a, 32);
    TopBitsEven(0);
    hide TopBits, Times;
  }

  // ----- Products written out.

  /** Four terms, and the rest. */
  function FourTerms(a: bv32, b: bv32, rest: bv32): bv32 {
    var a1, b1 := Shifted(a), StepWord(b);
    var a2, b2 := Shifted(a1), StepWord(b1);
    XorWord(Part(a, b), XorWord(Part(a1, b1), XorWord(Part(a2, b2), XorWord(Part(Shifted(a2), StepWord(b2)), rest))))
  }

  function Shifted4(a: bv32): bv32 {
    a << 4
  }

  function StepFour(b: bv32): bv32 {
    StepWord(StepWord(StepWord(StepWord(b))))
  }

  lemma FourShifts(a: bv32)
    ensures Shifted(Shifted(Shifted(Shifted(a)))) == Shifted4(a)
  {
  }

  lemma TimesFour(a: bv32, b: bv32, n: nat)
    ensures Times(a, b, n + 4) == FourTerms(a, b, Times(Shifted4(a), StepFour(b), n))
  {
    hide Shifted, StepWord, XorWord, Part, Shifted4;
    FourShifts(a);
    var a1, b1 := Shifted(a), StepWord(b);
    var a2, b2 := Shifted(a1), StepWord(b1);
    var a3, b3 := Shifted(a2), StepWord(b2);
    assert Times(a3, b3, n + 1) == XorWord(Part(a3, b3), Times(Shifted4(a), StepFour(b), n));
    assert Times(a1, b1, n + 3) == XorWord(Part(a1, b1), XorWord(Part(a2, b2), Times(a3, b3, n + 1)));
  }

  function EightTerms(a: bv32, b: bv32, rest: bv32): bv32 {
    FourTerms(a, b, FourTerms(Shifted4(a), StepFour(b), rest))
  }

  function ShiftedOctet(a: bv32): bv32 {
    a << 8
  }

  lemma EightShifts(a: bv32)
    ensures Shifted4(Shifted4(a)) == ShiftedOctet(a)
  {
  }

  lemma TimesEight(a: bv32, b: bv32, n: nat)
    ensures Times(a, b, n + 8) == EightTerms(a, b, Times(ShiftedOctet(a), StepOctet(b), n))
  {
    hide Shifted4, ShiftedOctet, FourTerms, Times, StepWord;
    EightShifts(a);
    TimesFour(a, b, n + 4);
    TimesFour(Shifted4(a), StepFour(b), n);
  }

  function SixteenTerms(a: bv32, b: bv32, rest: bv32): bv32 {
    EightTerms(a, b, EightTerms(ShiftedOctet(a), StepOctet(b), rest))
  }

  function Product(a: bv32, b: bv32): bv32 {
    SixteenTerms(a, b, SixteenTerms(ShiftedOctet(ShiftedOctet(a)), StepOctet(StepOctet(b)), 0))
  }

  lemma TimesSixteen(a: bv32, b: bv32, n: nat)
    ensures Times(a, b, n + 16) == SixteenTerms(a, b, Times(ShiftedOctet(ShiftedOctet(a)), StepOctet(StepOctet(b)), n))
  {
    hide StepOctet, EightTerms, ShiftedOctet, Times;
    TimesEight(a, b, n + 8);
    TimesEight(ShiftedOctet(a), StepOctet(b), n);
  }

  lemma TimesNothing(a: bv32, b: bv32)
    ensures Times(a, b, 0) == 0
  {
  }

  lemma ProductIs(a: bv32, b: bv32)
    ensures Product(a, b) == Times(a, b, 32)
  {
    hide StepOctet, SixteenTerms, ShiftedOctet, Times;
    var a2, b2 := ShiftedOctet(ShiftedOctet(a)), StepOctet(StepOctet(b));
    TimesSixteen(a, b, 16);
    TimesSixteen(a2, b2, 0);
    TimesNothing(ShiftedOctet(ShiftedOctet(a2)), StepOctet(StepOctet(b2)));
  }

  /** Shifting in n zero octets is multiplication by what it makes of one. */
  lemma RunIsProduct(a: bv32, n: nat)
    ensures ZeroRun(a, n) == Product(a, ZeroRun(ONE, n))
  {
    hide Times, Product, StepOctet;
    ProductOne(a);
    TimesRun(a, ONE, n);
    ProductIs(a, ZeroRun(ONE, n));
  }

  /** Powers multiply. */
  lemma PowersMultiply(m: nat, n: nat, a: bv32, b: bv32)
    requires ZeroRun(ONE, m) == a && ZeroRun(ONE, n) == b
    ensures ZeroRun(ONE, m + n) == Product(a, b)
  {
    hide Product, StepOctet;
    ZeroRunAdds(ONE, m, n);
    RunIsProduct(a, n);
  }

  /** A word is recovered from what n zero octets make of it, given an inverse of the power. */
  lemma RunUndone(w: bv32, n: nat, power: bv32, inverse: bv32)
    requires ZeroRun(ONE, n) == power && Product(inverse, power) == ONE
    ensures w == Product(ZeroRun(w, n), inverse)
  {
    hide Product, StepOctet, Times;
    var r := ZeroRun(w, n);
    RunIsProduct(inverse, n);
    TimesRun(r, inverse, n);
    ProductIs(r, inverse);
    ProductOne(r);
    ZeroRunInjective(w, Product(r, inverse), n);
  }

  // ----- The powers for the sizes of real saves.

  /** A product, an octet of the first factor at a time, from the last octet on. */
  lemma FromOctets(a: bv32, b: bv32, b1: bv32, b2: bv32, b3: bv32, r3: bv32, r2: bv32, r1: bv32)
    requires StepOctet(b) == b1 && StepOctet(b1) == b2 && StepOctet(b2) == b3
    requires EightTerms(a << 24, b3, 0) == r3 && EightTerms(a << 16, b2, r3) == r2 && EightTerms(a << 8, b1, r2) == r1
    ensures Product(a, b) == EightTerms(a, b, r1)
  {
    OctetShifts(a);
    hide StepOctet, EightTerms, ShiftedOctet;
  }

  lemma OctetShifts(a: bv32)
    ensures ShiftedOctet(a) == a << 8 && ShiftedOctet(ShiftedOctet(a)) == a << 16
    ensures ShiftedOctet(ShiftedOctet(ShiftedOctet(a))) == a << 24
  {
  }

  lemma SquareOf(n: nat, a: bv32, b: bv32)
    requires ZeroRun(ONE, n) == a && Product(a, a) == b
    ensures ZeroRun(ONE, 2 * n) == b
  {
    hide Product;
    PowersMultiply(n, n, a, a);
  }

  lemma FirstPower()
    ensures ZeroRun(ONE, 1) == 0x00800000
  {
  }

  lemma Square2()
    ensures Product(0x00800000, 0x00800000) == 0x00008000
  {
    hide Product;
    FromOctets(0x00800000, 0x00800000, 0x00008000, 0x00000080, 0xEDB88320, 0x00000000, 0x00000000, 0x00008000);
  }

  lemma Square4()
    ensures Product(0x00008000, 0x00008000) == 0xEDB88320
  {
    hide Product;
    FromOctets(0x00008000, 0x00008000, 0x00000080, 0xEDB88320, 0x3B83984B, 0x00000000, 0xEDB88320, 0xEDB88320);
  }

  lemma Square8()
    ensures Product(0xEDB88320, 0xEDB88320) == 0xB1E6B092
  {
    hide Product;
    FromOctets(0xEDB88320, 0xEDB88320, 0x3B83984B, 0xE1351B80, 0xED59B63B, 0xA032AF3E, 0x43410AE7, 0x6F5D2E57);
  }

  lemma Square16()
    ensures Product(0xB1E6B092, 0xB1E6B092) == 0xA06A2517
  {
    hide Product;
    FromOctets(0xB1E6B092, 0xB1E6B092, 0x1EB014D8, 0x8816EAF2, 0x533B85DA, 0x6DA5B38C, 0x4DD0FC2C, 0x8DCD04B3);
  }

  lemma Square32()
    ensures Product(0xA06A2517, 0xA06A2517) == 0xED627DAE
  {
    hide Product;
    FromOctets(0xA06A2517, 0xA06A2517, 0x8373EFE2, 0x4E87F0BB, 0x5CFDEDF4, 0x1BDEC6EB, 0xA09C46FE, 0xFE76134C);
  }

  lemma Square64()
    ensures Product(0xED627DAE, 0xED627DAE) == 0x88D14467
  {
    hide Product;
    FromOctets(0xED627DAE, 0xED627DAE, 0x3183EC92, 0x1E307184, 0xEACB7748, 0x7A2289F1, 0xDE8F2D5F, 0x5F576502);
  }

  lemma Square128()
    ensures Product(0x88D14467, 0x88D14467) == 0xD7BBFE6A
  {
    hide Product;
    FromOctets(0x88D14467, 0x88D14467, 0xD35E25BF, 0x5B0DF038, 0x2859B56E, 0xE8EBF8A5, 0x5CD1AD88, 0x07E2DF77);
  }

  lemma Square256()
    ensures Product(0xD7BBFE6A, 0xD7BBFE6A) == 0xEC447F11
  {
    hide Product;
    FromOctets(0xD7BBFE6A, 0xD7BBFE6A, 0xADB033B8, 0xC5178B8D, 0x93CCE816, 0xA3DC8891, 0x8D76E1D1, 0x0A9D6B06);
  }

  lemma Square512()
    ensures Product(0xEC447F11, 0xEC447F11) == 0x8E7EA170
  {
    hide Product;
    FromOctets(0xEC447F11, 0xEC447F11, 0x6A5C648D, 0x9363A3F9, 0xC4F2291B, 0x9B1F55B0, 0xDBB2F8CA, 0x431F43E2);
  }

  lemma Square1024()
    ensures Product(0x8E7EA170, 0x8E7EA170) == 0x6427800E
  {
    hide Product;
    FromOctets(0x8E7EA170, 0x8E7EA170, 0x508B0F9D, 0x8EEE64F6, 0x5450B94D, 0x78040484, 0x904808F5, 0x92288577);
  }

  lemma Square2048()
    ensures Product(0x6427800E, 0x6427800E) == 0x4D47BAE0
  {
    hide Product;
    FromOctets(0x6427800E, 0x6427800E, 0xE7DC0A87, 0x733BCA89, 0x9417004E, 0xD7BCBFDD, 0xA4877554, 0xD8C154F8);
  }

  lemma Square4096()
    ensures Product(0x4D47BAE0, 0x4D47BAE0) == 0x09FE548F
  {
    hide Product;
    FromOctets(0x4D47BAE0, 0x4D47BAE0, 0xA047A5C2, 0x75CAE439, 0x5F7042EC, 0x67147321, 0x1D44233F, 0xB21D8243);
  }

  lemma Square8192()
    ensures Product(0x09FE548F, 0x09FE548F) == 0x83852D0F
  {
    hide Product;
    FromOctets(0x09FE548F, 0x09FE548F, 0x7D0E60E5, 0xD01D1897, 0x6EBB1BFF, 0x8A9701D9, 0x76129CA2, 0xC4BBFB91);
  }

  lemma Square16384()
    ensures Product(0x83852D0F, 0x83852D0F) == 0x30362F1A
  {
    hide Product;
    FromOctets(0x83852D0F, 0x83852D0F, 0x903C98BC, 0xC247C33F, 0xB6A46AFE, 0x17B268FB, 0x0E934321, 0x65DA5D1F);
  }

  lemma Square32768()
    ensures Product(0x30362F1A, 0x30362F1A) == 0x7B5A9CC3
  {
    hide Product;
    FromOctets(0x30362F1A, 0x30362F1A, 0xFD52CF55, 0x1BFCF7B4, 0xCC178B62, 0xB8A2BDBD, 0xDAD57B61, 0xEA351056);
  }

  lemma Squares()
    ensures ZeroRun(ONE, 2) == 0x00008000 && ZeroRun(ONE, 8) == 0xB1E6B092 && ZeroRun(ONE, 512) == 0x8E7EA170
    ensures ZeroRun(ONE, 2048) == 0x4D47BAE0 && ZeroRun(ONE, 8192) == 0x83852D0F && ZeroRun(ONE, 32768) == 0x7B5A9CC3
  {
    FirstPower();
    hide StepOctet, Product;
    Square2();
    SquareOf(1, 0x00800000, 0x00008000);
    Square4();
    SquareOf(2, 0x00008000, 0xEDB88320);
    Square8();
    SquareOf(4, 0xEDB88320, 0xB1E6B092);
    Square16();
    SquareOf(8, 0xB1E6B092, 0xA06A2517);
    Square32();
    SquareOf(16, 0xA06A2517, 0xED627DAE);
    Square64();
    SquareOf(32, 0xED627DAE, 0x88D14467);
    Square128();
    SquareOf(64, 0x88D14467, 0xD7BBFE6A);
    Square256();
    SquareOf(128, 0xD7BBFE6A, 0xEC447F11);
    Square512();
    SquareOf(256, 0xEC447F11, 0x8E7EA170);
    Square1024();
    SquareOf(512, 0x8E7EA170, 0x6427800E);
    Square2048();
    SquareOf(1024, 0x6427800E, 0x4D47BAE0);
    Square4096();
    SquareOf(2048, 0x4D47BAE0, 0x09FE548F);
    Square8192();
    SquareOf(4096, 0x09FE548F, 0x83852D0F);
    Square16384();
    SquareOf(8192, 0x83852D0F, 0x30362F1A);
    Square32768();
    SquareOf(16384, 0x30362F1A, 0x7B5A9CC3);
  }

  lemma SumOf(m: nat, n: nat, a: bv32, b: bv32, c: bv32)
    requires ZeroRun(ONE, m) == a && ZeroRun(ONE, n) == b && Product(a, b) == c
    ensures ZeroRun(ONE, m + n) == c
  {
    hide Product;
    PowersMultiply(m, n, a, b);
  }

  /** The power for a payload of this many bytes of cartridge RAM, and the clock. */
  lemma PayloadPowers()
    ensures ZeroRun(ONE, 10) == 0x8816EAF2 && ZeroRun(ONE, 522) == 0x6465013A && ZeroRun(ONE, 2058) == 0xEC2C983F
    ensures ZeroRun(ONE, 8202) == 0x209045A8 && ZeroRun(ONE, 32778) == 0x95A06F57
  {
    hide StepOctet, Product;
    Squares();
    Product10();
    SumOf(8, 2, 0xB1E6B092, 0x00008000, 0x8816EAF2);
    Product522();
    SumOf(512, 10, 0x8E7EA170, 0x8816EAF2, 0x6465013A);
    Product2058();
    SumOf(2048, 10, 0x4D47BAE0, 0x8816EAF2, 0xEC2C983F);
    Product8202();
    SumOf(8192, 10, 0x83852D0F, 0x8816EAF2, 0x209045A8);
    Product32778();
    SumOf(32768, 10, 0x7B5A9CC3, 0x8816EAF2, 0x95A06F57);
  }

  lemma Product10()
    ensures Product(0xB1E6B092, 0x00008000) == 0x8816EAF2
  {
    hide Product;
    FromOctets(0xB1E6B092, 0x00008000, 0x00000080, 0xEDB88320, 0x3B83984B, 0x4377E898, 0x88165B14, 0x88165BF2);
  }

  lemma Product522()
    ensures Product(0x8E7EA170, 0x8816EAF2) == 0x6465013A
  {
    hide Product;
    FromOctets(0x8E7EA170, 0x8816EAF2, 0x533B85DA, 0x6655004F, 0xE6050901, 0xF6498598, 0x05961337, 0xBC4C9095);
  }

  lemma Product2058()
    ensures Product(0x4D47BAE0, 0x8816EAF2) == 0xEC2C983F
  {
    hide Product;
    FromOctets(0x4D47BAE0, 0x8816EAF2, 0x533B85DA, 0x6655004F, 0xE6050901, 0x37E20D71, 0xEAA84772, 0xC9F08C86);
  }

  lemma Product8202()
    ensures Product(0x83852D0F, 0x8816EAF2) == 0x209045A8
  {
    hide Product;
    FromOctets(0x83852D0F, 0x8816EAF2, 0x533B85DA, 0x6655004F, 0xE6050901, 0xF10B5B8D, 0x82B53E79, 0x996EB5C7);
  }

  lemma Product32778()
    ensures Product(0x7B5A9CC3, 0x8816EAF2) == 0x95A06F57
  {
    hide Product;
    FromOctets(0x7B5A9CC3, 0x8816EAF2, 0x533B85DA, 0x6655004F, 0xE6050901, 0x9388B5A2, 0xBF290488, 0x7BCFEB86);
  }

  // ----- Which short words cancel.

  /** c, where w meets m. */
  function On(w: bv32, m: bv32, c: bv32): bv32 {
    if w & m == 0 then 0 else c
  }

  function Plus(s: bv32, w: bv32, m: bv32, c: bv32): bv32 {
    if w & m == 0 then s else s ^ c
  }

  lemma PlusIs(s: bv32, w: bv32, m: bv32, c: bv32)
    ensures Plus(s, w, m, c) == XorWord(s, On(w, m, c))
  {
  }

  /** The sum over eight bits of w, where c is what becomes of the first. */
  function Columns(s: bv32, w: bv32, m: bv32, c: bv32, low: bv32): bv32 {
    var c1 := StepWord(c);
    var c2 := StepWord(c1);
    var c3 := StepWord(c2);
    var c4 := StepWord(c3);
    var c5 := StepWord(c4);
    var c6 := StepWord(c5);
    var s1 := Plus(s, w, m, Masked(c, low));
    var s2 := Plus(s1, w, m >> 1, Masked(c1, low));
    var s3 := Plus(s2, w, m >> 2, Masked(c2, low));
    var s4 := Plus(s3, w, m >> 3, Masked(c3, low));
    var s5 := Plus(s4, w, m >> 4, Masked(c4, low));
    var s6 := Plus(s5, w, m >> 5, Masked(c5, low));
    var s7 := Plus(s6, w, m >> 6, Masked(c6, low));
    Plus(s7, w, m >> 7, Masked(StepWord(c6), low))
  }

  function LowRun(w: bv32, n: nat, low: bv32): bv32 {
    Masked(ZeroRun(w, n), low)
  }

  lemma MaskedXor(x: bv32, y: bv32, low: bv32)
    ensures Masked(XorWord(x, y), low) == XorWord(Masked(x, low), Masked(y, low))
  {
  }

  lemma MaskedZero(low: bv32)
    ensures Masked(0, low) == 0
  {
  }

  lemma LowRunLinear(x: bv32, y: bv32, n: nat, low: bv32)
    ensures LowRun(XorWord(x, y), n, low) == XorWord(LowRun(x, n, low), LowRun(y, n, low))
    ensures LowRun(0, n, low) == 0
  {
    hide ZeroRun, XorWord, Masked;
    ZeroRunLinear(x, y, n);
    MaskedXor(ZeroRun(x, n), ZeroRun(y, n), low);
    MaskedZero(low);
  }

  lemma JoinBit(w: bv32, s: bv32, m: bv32)
    requires s & m == 0 && OneBit(m)
    ensures Masked(w, s | m) == XorWord(Masked(w, s), On(w, m, m))
  {
    AndOneBit(w, m);
    MaskedOr(w, s, m);
    hide Masked, XorWord, On;
  }

  lemma MaskedOr(w: bv32, s: bv32, m: bv32)
    requires s & m == 0
    ensures Masked(w, s | m) == XorWord(Masked(w, s), Masked(w, m))
  {
  }

  lemma AndOneBit(w: bv32, m: bv32)
    requires OneBit(m)
    ensures Masked(w, m) == On(w, m, m)
  {
  }

  /** One more bit of w, from what has become of the bit above it. */
  lemma OneMoreBit(w: bv32, s: bv32, m: bv32, n: nat, low: bv32, c: bv32)
    requires s & m == 0 && OneBit(m) && ZeroRun(m, n) == c
    ensures LowRun(Masked(w, s | m), n, low) == Plus(LowRun(Masked(w, s), n, low), w, m, Masked(c, low))
    ensures ZeroRun(StepWord(m), n) == StepWord(c)
  {
    JoinBit(w, s, m);
    PlusIs(LowRun(Masked(w, s), n, low), w, m, LowRun(m, n, low));
    RunStep(m, n);
    assert LowRun(m, n, low) == Masked(c, low);
    hide LowRun, Masked, XorWord, Plus;
    LowRunLinear(Masked(w, s), On(w, m, m), n, low);
  }

  lemma {:induction false} RunStep(v: bv32, n: nat)
    ensures ZeroRun(StepWord(v), n) == StepWord(ZeroRun(v, n))
    decreases n
  {
    hide StepWord;
    if n > 0 {
      RunStep(StepOctet(v), n - 1);
    }
  }

  lemma Halves()
    ensures StepWord(0x8000) == 0x4000 && StepWord(0x4000) == 0x2000 && StepWord(0x2000) == 0x1000 && StepWord(0x1000) == 0x800
    ensures StepWord(0x800) == 0x400 && StepWord(0x400) == 0x200 && StepWord(0x200) == 0x100 && StepWord(0x100) == 0x80
    ensures StepWord(0x80) == 0x40 && StepWord(0x40) == 0x20 && StepWord(0x20) == 0x10 && StepWord(0x10) == 0x8
    ensures StepWord(0x8) == 0x4 && StepWord(0x4) == 0x2 && StepWord(0x2) == 0x1
  {
  }

  lemma NoBits(w: bv32, n: nat, low: bv32)
    ensures LowRun(Masked(w, 0), n, low) == 0
  {
    assert w & 0 == 0;
    LowRunLinear(0, 0, n, low);
    hide LowRun;
  }

  /** What becomes of the eight or sixteen low bits of w is the sum of their columns. */
  lemma EightRun(w: bv32, n: nat, low: bv32, c: bv32)
    requires ZeroRun(0x80, n) == c
    ensures LowRun(Masked(w, 0xFF), n, low) == Columns(0, w, 0x80, c, low)
  {
    Halves();
    NoBits(w, n, low);
    hide LowRun, Masked, Plus, ZeroRun, StepWord;
    var c1 := StepWord(c);
    var c2 := StepWord(c1);
    var c3 := StepWord(c2);
    var c4 := StepWord(c3);
    var c5 := StepWord(c4);
    var c6 := StepWord(c5);
    var c7 := StepWord(c6);
    OneMoreBit(w, 0x0, 0x80, n, low, c);
    OneMoreBit(w, 0x80, 0x40, n, low, c1);
    OneMoreBit(w, 0xC0, 0x20, n, low, c2);
    OneMoreBit(w, 0xE0, 0x10, n, low, c3);
    OneMoreBit(w, 0xF0, 0x8, n, low, c4);
    OneMoreBit(w, 0xF8, 0x4, n, low, c5);
    OneMoreBit(w, 0xFC, 0x2, n, low, c6);
    OneMoreBit(w, 0xFE, 0x1, n, low, c7);
  }

  lemma HighRun(w: bv32, n: nat, low: bv32, c: bv32)
    requires ZeroRun(0x8000, n) == c
    ensures LowRun(Masked(w, 0xFF00), n, low) == Columns(0, w, 0x8000, c, low)
  {
    Halves();
    NoBits(w, n, low);
    hide LowRun, Masked, Plus, ZeroRun, StepWord;
    var c1 := StepWord(c);
    var c2 := StepWord(c1);
    var c3 := StepWord(c2);
    var c4 := StepWord(c3);
    var c5 := StepWord(c4);
    var c6 := StepWord(c5);
    var c7 := StepWord(c6);
    OneMoreBit(w, 0x0, 0x8000, n, low, c);
    OneMoreBit(w, 0x8000, 0x4000, n, low, c1);
    OneMoreBit(w, 0xC000, 0x2000, n, low, c2);
    OneMoreBit(w, 0xE000, 0x1000, n, low, c3);
    OneMoreBit(w, 0xF000, 0x800, n, low, c4);
    OneMoreBit(w, 0xF800, 0x400, n, low, c5);
    OneMoreBit(w, 0xFC00, 0x200, n, low, c6);
    OneMoreBit(w, 0xFE00, 0x100, n, low, c7);
  }

  lemma LowRunAfter(w: bv32, n: nat, low: bv32, c: bv32)
    requires ZeroRun(0x80, n) == c
    ensures LowRun(Masked(w, 0xFFFF), n, low) == Columns(LowRun(Masked(w, 0xFF00), n, low), w, 0x80, c, low)
  {
    Halves();
    hide LowRun, Masked, Plus, ZeroRun, StepWord;
    var c1 := StepWord(c);
    var c2 := StepWord(c1);
    var c3 := StepWord(c2);
    var c4 := StepWord(c3);
    var c5 := StepWord(c4);
    var c6 := StepWord(c5);
    var c7 := StepWord(c6);
    OneMoreBit(w, 0xFF00, 0x80, n, low, c);
    OneMoreBit(w, 0xFF80, 0x40, n, low, c1);
    OneMoreBit(w, 0xFFC0, 0x20, n, low, c2);
    OneMoreBit(w, 0xFFE0, 0x10, n, low, c3);
    OneMoreBit(w, 0xFFF0, 0x8, n, low, c4);
    OneMoreBit(w, 0xFFF8, 0x4, n, low, c5);
    OneMoreBit(w, 0xFFFC, 0x2, n, low, c6);
    OneMoreBit(w, 0xFFFE, 0x1, n, low, c7);
  }

  /** Octets of zeros more. */
  lemma MoreZeros(n: nat, power: bv32)
    requires ZeroRun(ONE, n) == power
    ensures ZeroRun(0x800000, n) == StepOctet(power)
    ensures ZeroRun(0x8000, n) == StepOctet(StepOctet(power))
    ensures ZeroRun(0x80, n) == StepOctet(StepOctet(StepOctet(power)))
  {
    hide StepOctet, ZeroRun;
    OctetsOfOne();
    RunOctet(ONE, n);
    RunOctet(0x800000, n);
    RunOctet(0x8000, n);
  }

  lemma RunOctet(v: bv32, n: nat)
    ensures ZeroRun(StepOctet(v), n) == StepOctet(ZeroRun(v, n))
  {
    hide StepOctet;
    ZeroRunLast(v, n);
  }

  lemma OctetsOfOne()
    ensures StepOctet(ONE) == 0x800000 && StepOctet(0x800000) == 0x8000 && StepOctet(0x8000) == 0x80
  {
  }

  lemma Eight0(w: bv32)
    requires Columns(0, w, 0x80, 0xE6050901, 0xFF) == 0
    ensures w & 0xFF == 0
  {
  }

  lemma Eight512(w: bv32)
    requires Columns(0, w, 0x80, 0x0D3FC4B4, 0xFF) == 0
    ensures w & 0xFF == 0
  {
  }

  lemma Eight2048(w: bv32)
    requires Columns(0, w, 0x80, 0xA477CEB0, 0xFF) == 0
    ensures w & 0xFF == 0
  {
  }

  lemma Eight8192(w: bv32)
    requires Columns(0, w, 0x80, 0xAA6A24FC, 0xFF) == 0
    ensures w & 0xFF == 0
  {
  }

  lemma Eight32768(w: bv32)
    requires Columns(0, w, 0x80, 0x5D40EC20, 0xFF) == 0
    ensures w & 0xFF == 0
  {
  }

  lemma Sixteen0(w: bv32)
    requires Columns(Columns(0, w, 0x8000, 0x6655004F, 0xFFFF), w, 0x80, 0xE6050901, 0xFFFF) == 0
    ensures w & 0xFFFF == 0
  {
  }

  lemma Sixteen512(w: bv32)
    requires Columns(Columns(0, w, 0x8000, 0x52AE8A8A, 0xFFFF), w, 0x80, 0x0D3FC4B4, 0xFFFF) == 0
    ensures w & 0xFFFF == 0
  {
  }

  lemma Sixteen2048(w: bv32)
    requires Columns(Columns(0, w, 0x8000, 0xA60ADD66, 0xFFFF), w, 0x80, 0xA477CEB0, 0xFFFF) == 0
    ensures w & 0xFFFF == 0
  {
  }

  lemma Sixteen32768(w: bv32)
    requires Columns(Columns(0, w, 0x8000, 0x28F722FA, 0xFFFF), w, 0x80, 0x5D40EC20, 0xFFFF) == 0
    ensures w & 0xFFFF == 0
  {
  }

  lemma OctetsMore()
    ensures StepOctet(StepOctet(0x8816EAF2)) == 0x6655004F && StepOctet(0x6655004F) == 0xE6050901
    ensures StepOctet(StepOctet(0x6465013A)) == 0x52AE8A8A && StepOctet(0x52AE8A8A) == 0x0D3FC4B4
    ensures StepOctet(StepOctet(0xEC2C983F)) == 0xA60ADD66 && StepOctet(0xA60ADD66) == 0xA477CEB0
    ensures StepOctet(StepOctet(0x209045A8)) == 0x6068A36E && StepOctet(0x6068A36E) == 0xAA6A24FC
    ensures StepOctet(StepOctet(0x95A06F57)) == 0x28F722FA && StepOctet(0x28F722FA) == 0x5D40EC20
  {
  }

  lemma MaskedIs(w: bv32, low: bv32)
    ensures Masked(w, low) == w & low
  {
  }

  /** For the sizes of real saves, no nonzero octet is cleared from the low octet of the CRC... */
  lemma NoOctetCancels(size: nat, w: bv32)
    requires size in {0, 512, 2048, 8192, 32768}
    requires Masked(w, 0xFF) == w && LowRun(w, size + 10, 0xFF) == 0
    ensures w == 0
  {
    hide ZeroRun, Columns, Masked, StepOctet;
    PayloadPowers();
    OctetsMore();
    MaskedIs(w, 0xFF);
    MoreZeros(size + 10, ZeroRun(ONE, size + 10));
    EightRun(w, size + 10, 0xFF, ZeroRun(0x80, size + 10));
    if size == 0 { Eight0(w); }
    if size == 512 { Eight512(w); }
    if size == 2048 { Eight2048(w); }
    if size == 8192 { Eight8192(w); }
    if size == 32768 { Eight32768(w); }
  }

  /** ...except for 8192 bytes no nonzero pair of octets from the low pair... */
  lemma NoPairCancels(size: nat, w: bv32)
    requires size in {0, 512, 2048, 32768}
    requires Masked(w, 0xFFFF) == w && LowRun(w, size + 10, 0xFFFF) == 0
    ensures w == 0
  {
    hide ZeroRun, Columns, Masked, StepOctet;
    PayloadPowers();
    OctetsMore();
    MaskedIs(w, 0xFFFF);
    MoreZeros(size + 10, ZeroRun(ONE, size + 10));
    HighRun(w, size + 10, 0xFFFF, ZeroRun(0x8000, size + 10));
    LowRunAfter(w, size + 10, 0xFFFF, ZeroRun(0x80, size + 10));
    if size == 0 { Sixteen0(w); }
    if size == 512 { Sixteen512(w); }
    if size == 2048 { Sixteen2048(w); }
    if size == 32768 { Sixteen32768(w); }
  }

  lemma Inverse0()
    ensures Product(0xD6F6FA3C, 0x8816EAF2) == 0x80000000
  {
    hide Product;
    FromOctets(0xD6F6FA3C, 0x8816EAF2, 0x533B85DA, 0x6655004F, 0xE6050901, 0x72CF62B6, 0x71172BB2, 0x4813367F);
  }

  lemma TopOctet0(r: bv32)
    requires Masked(r, 0xFFFFFF) == 0 && Masked(Product(r, 0xD6F6FA3C), 0xFFFFFF) == Product(r, 0xD6F6FA3C)
    ensures r == 0
  {
  }

  lemma Inverse32768()
    ensures Product(0xD03ACF38, 0x95A06F57) == 0x80000000
  {
    hide Product;
    FromOctets(0xD03ACF38, 0x95A06F57, 0xF59A6438, 0x28F722FA, 0x5D40EC20, 0x192C284E, 0x629E4F4C, 0x0076344E);
  }

  lemma TopOctet32768(r: bv32)
    requires Masked(r, 0xFFFFFF) == 0 && Masked(Product(r, 0xD03ACF38), 0xFFFFFF) == Product(r, 0xD03ACF38)
    ensures r == 0
  {
  }

  /** ...and without cartridge RAM or with 32768 bytes of it no nonzero triple from the low triple. */
  lemma NoTripleCancels(size: nat, w: bv32)
    requires size == 0 || size == 32768
    requires Masked(w, 0xFFFFFF) == w && LowRun(w, size + 10, 0xFFFFFF) == 0
    ensures w == 0
  {
    hide ZeroRun, Product, Masked;
    PayloadPowers();
    if size == 0 {
      Inverse0();
      RunUndone(w, 10, 0x8816EAF2, 0xD6F6FA3C);
      TopOctet0(ZeroRun(w, 10));
    } else {
      Inverse32768();
      RunUndone(w, 32778, 0x95A06F57, 0xD03ACF38);
      TopOctet32768(ZeroRun(w, 32778));
    }
    ZeroRunLinear(0, 0, size + 10);
    ZeroRunInjective(w, 0, size + 10);
  }

  /** The pair and the triples that do cancel. */
  lemma Cancelling()
    ensures ZeroRun(0xCAA1, 8202) == 0x00A90000
    ensures ZeroRun(0xCAA100, 8202) == 0xA9000000
    ensures ZeroRun(0x44B05, 522) == 0xB9000000
    ensures ZeroRun(0xFBA374, 2058) == 0x13000000
  {
    hide ZeroRun, Product;
    PayloadPowers();
    Cancelling0();
    Cancelling1();
    Cancelling2();
    Cancelling3();
    RunIsProduct(0xCAA1, 8202);
    RunIsProduct(0xCAA100, 8202);
    RunIsProduct(0x44B05, 522);
    RunIsProduct(0xFBA374, 2058);
  }

  lemma Cancelling0()
    ensures Product(0xCAA1, 0x209045A8) == 0x00A90000
  {
    hide Product;
    FromOctets(0x0000CAA1, 0x209045A8, 0xD82DBB9F, 0x6068A36E, 0xAA6A24FC, 0x32C203A4, 0x00A90000, 0x00A90000);
  }

  lemma Cancelling1()
    ensures Product(0xCAA100, 0x209045A8) == 0xA9000000
  {
    hide Product;
    FromOctets(0x00CAA100, 0x209045A8, 0xD82DBB9F, 0x6068A36E, 0xAA6A24FC, 0x00000000, 0x1A6F472C, 0xA9000000);
  }

  lemma Cancelling2()
    ensures Product(0x44B05, 0x6465013A) == 0xB9000000
  {
    hide Product;
    FromOctets(0x00044B05, 0x6465013A, 0xC668BCB3, 0x52AE8A8A, 0x0D3FC4B4, 0x95CCCB2E, 0x41E75E93, 0xB9000000);
  }

  lemma Cancelling3()
    ensures Product(0xFBA374, 0xEC2C983F) == 0x13000000
  {
    hide Product;
    FromOctets(0x00FBA374, 0xEC2C983F, 0xB68A01A5, 0xA60ADD66, 0xA477CEB0, 0x8733D077, 0x8AD1924A, 0x13000000);
  }
}
