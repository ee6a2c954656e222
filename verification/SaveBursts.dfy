/** Where in a save file any change of four adjacent bytes is noticed (main/gb_saves.c).

    The CRC covers what lies before and behind the field that holds it. A window that reaches from the
    field into the payload can change both in step. Whether some change does so unnoticed depends on the
    position and on the size of the payload; this is decided for every size of cartridge RAM in use. */
module SaveBursts {
  import opened Bytes
  import opened Crc32
  import opened CrcWords
  import opened Saves

  // ----- The difference of two files.

  lemma {:induction false} BitOfXor(a: nat, b: nat, n: nat, i: nat)
    requires i < n
    ensures Bit(XorBits(a, b, n), i) == (Bit(a, i) != Bit(b, i))
  {
    assert XorBits(a, b, n) / 2 == XorBits(a / 2, b / 2, n - 1);
    if i > 0 {
      BitOfXor(a / 2, b / 2, n - 1, i - 1);
    }
  }

  lemma OctetOfXor(a: byte, b: byte)
    ensures Octet(XorByte(a, b)) == Xor(Octet(a), Octet(b))
  {
    forall i | 0 <= i < 8 ensures Bit(XorByte(a, b), i) == (Bit(a, i) != Bit(b, i)) {
      BitOfXor(a, b, 8, i);
    }
  }

  lemma Exchange(a: Register, b: Register, c: Register, d: Register)
    ensures Xor(Xor(a, c), Xor(b, d)) == Xor(Xor(a, b), Xor(c, d))
  {
  }

  lemma ByteStepDifference(a: Register, b: Register, x: byte, y: byte)
    ensures Xor(ByteStep(a, x), ByteStep(b, y)) == ByteStep(Xor(a, b), XorByte(x, y))
  {
    OctetOfXor(x, y);
    BitStepsLinear(Xor(a, Octet(x)), Xor(b, Octet(y)), 8);
    Exchange(a, b, Octet(x), Octet(y));
    hide BitSteps, Octet, Xor;
  }

  /** The CRCs of two byte strings differ by the CRC of their difference. */
  lemma {:induction false} CrcDifference(a: Register, b: Register, x: seq<byte>, y: seq<byte>)
    requires |x| == |y|
    ensures Xor(Crc(a, x), Crc(b, y)) == Crc(Xor(a, b), Difference(x, y))
  {
    hide ByteStep, Xor, XorByte;
    if x != [] {
      var n := |x| - 1;
      CrcDifference(a, b, x[..n], y[..n]);
      assert Difference(x, y)[..n] == Difference(x[..n], y[..n]);
      ByteStepDifference(Crc(a, x[..n]), Crc(b, y[..n]), x[n], y[n]);
    }
  }

  /** With the same bytes in front, only the difference behind them counts. */
  lemma CrcBehind(p: seq<byte>, x: seq<byte>, y: seq<byte>)
    requires |x| == |y|
    ensures Xor(Crc(INITIAL, p + x), Crc(INITIAL, p + y)) == Crc(ZERO, Difference(x, y))
  {
    hide Crc, Xor;
    CrcConcat(INITIAL, p, x);
    CrcConcat(INITIAL, p, y);
    CrcDifference(Crc(INITIAL, p), Crc(INITIAL, p), x, y);
    XorZero(Crc(INITIAL, p));
  }

  lemma XorByteZero(a: byte, b: byte)
    ensures XorByte(a, a) == 0 && XorByte(0, b) == b
    ensures XorByte(a, b) == 0 <==> a == b
  {
    hide Octet, Xor, XorByte;
    ZeroOctet();
    OctetOfXor(a, a);
    OctetOfXor(0, b);
    OctetOfXor(a, b);
    XorZero(Octet(a));
    XorZero(Octet(b));
    XorCommutes(ZERO, Octet(b));
    SameOctet(XorByte(a, a), 0);
    SameOctet(XorByte(0, b), b);
    if XorByte(a, b) == 0 {
      EqualOctets(a, b);
    }
  }

  // ----- What the stored CRC shows of a difference.

  predicate LowClear(r: Register, bits: nat) {
    forall i | 0 <= i < 32 && i < bits :: !r[i]
  }

  lemma InvertedAlike(c: Register, d: Register, from: nat)
    requires from + 8 <= 32 && c[from..from + 8] == d[from..from + 8]
    ensures InvertedOctet(c, from) == InvertedOctet(d, from)
  {
    forall i | from <= i < from + 8 ensures c[i] == d[i] {
      assert c[from..from + 8][i - from] == d[from..from + 8][i - from];
    }
    assert InvertedBits(c, from) == InvertedBits(d, from);
  }

  /** The first octets of two stored CRCs agree exactly when the registers agree in their low bits. */
  lemma SealedAlike(c: Register, d: Register, k: nat)
    requires k <= 4
    ensures Sealed(c)[..k] == Sealed(d)[..k] <==> LowClear(Xor(c, d), 8 * k)
  {
    hide InvertedOctet;
    if Sealed(c)[..k] == Sealed(d)[..k] {
      forall i | 0 <= i < 32 && i < 8 * k ensures !Xor(c, d)[i] {
        var j := i / 8;
        assert Sealed(c)[..k][j] == Sealed(d)[..k][j];
        SameEight(c, d, 8 * j);
        assert c[8 * j..8 * j + 8][i - 8 * j] == c[i] && d[8 * j..8 * j + 8][i - 8 * j] == d[i];
      }
    }
    if LowClear(Xor(c, d), 8 * k) {
      forall j | 0 <= j < k ensures Sealed(c)[j] == Sealed(d)[j] {
        forall i | 8 * j <= i < 8 * j + 8 ensures c[i] == d[i] {
          assert !Xor(c, d)[i];
        }
        InvertedAlike(c, d, 8 * j);
      }
    }
  }

  // ----- Where a change goes unnoticed.

  /** Changing four adjacent bytes from position `at` of an accepted file makes it unacceptable. */
  predicate BurstNoticed(d: seq<byte>, e: seq<byte>, hash: Hash, size: u32, at: nat) {
    (Checked(Some(d), hash, size).Some? && |e| == |d| && at + 4 <= |d| && d != e && DifferWithin(d, e, at, 4))
    ==> Checked(Some(e), hash, size) == None
  }

  ghost predicate AlwaysNoticed(at: nat, size: u32) {
    forall d, e, hash :: BurstNoticed(d, e, hash, size, at)
  }

  /** A change of the first payload bytes that leaves alone as many octets of the CRC. */
  predicate Cancels(delta: seq<byte>, size: nat)
    requires |delta| <= size + 10
  {
    delta != Zeros(|delta|) && LowClear(Crc(ZERO, Payload(delta, size)), 8 * |delta|)
  }

  function Payload(delta: seq<byte>, size: nat): (b: seq<byte>)
    requires |delta| <= size + 10
    ensures |b| == size + 10
  {
    delta + Zeros(size + 10 - |delta|)
  }

  /** The file of an all-zero save, and the same with its first payload bytes replaced and the CRC adjusted. */
  function FileWith(hash: Hash, delta: seq<byte>, size: u32): (d: seq<byte>)
    requires |delta| <= size + 10 && size < 0xFFFF_FF00
    ensures |d| == HEADER + size + 10
  {
    var b := Payload(delta, size);
    Image(0, hash, b[..size], b[size..])
  }

  lemma FileParts(hash: Hash, delta: seq<byte>, size: u32)
    requires |delta| <= size + 10 && size < 0xFFFF_FF00
    ensures var p, b := Preamble(0, size, hash), Payload(delta, size);
      FileWith(hash, delta, size) == p + Sealed(Crc(INITIAL, p + b)) + b && Checked(Some(FileWith(hash, delta, size)), hash, size) == Some(0)
  {
    var b := Payload(delta, size);
    assert b[..size] + b[size..] == b;
    ImageRoundTrip(0, hash, b[..size], b[size..]);
    hide Crc, Sealed, Preamble, Checked, Payload;
  }

  lemma FilesAlike(p: seq<byte>, s: seq<byte>, t: seq<byte>, z: seq<byte>, b: seq<byte>, k: nat)
    requires |p| == 48 && |s| == |t| == 4 && |z| == |b| && k <= 3 && k <= |z| && s[..k] == t[..k] && z[k..] == b[k..]
    requires z != b
    ensures DifferWithin(p + s + z, p + t + b, 48 + k, 4) && p + s + z != p + t + b
  {
    var d, e := p + s + z, p + t + b;
    assert d[52..] == z && e[52..] == b;
    assert d[..48 + k] == p + s[..k] && e[..48 + k] == p + t[..k];
    assert d[52 + k..] == z[k..] && e[52 + k..] == b[k..];
  }

  lemma FromZeros(delta: seq<byte>, size: nat)
    requires |delta| <= size + 10
    ensures var z, b := Payload([], size), Payload(delta, size);
      Difference(z, b) == b && z[|delta|..] == b[|delta|..] && (delta != Zeros(|delta|) ==> z != b)
  {
    var z, b := Payload([], size), Payload(delta, size);
    hide XorByte;
    forall i | 0 <= i < |b| ensures Difference(z, b)[i] == b[i] {
      XorByteZero(b[i], b[i]);
    }
    assert b[..|delta|] == delta && z[..|delta|] == Zeros(|delta|);
  }

  /** A change that cancels gives two files, four adjacent bytes apart, that both pass. */
  lemma CancelledPasses(hash: Hash, delta: seq<byte>, size: u32)
    requires 1 <= |delta| <= 3 && size < 0xFFFF_FF00 && Cancels(delta, size)
    ensures !BurstNoticed(FileWith(hash, [], size), FileWith(hash, delta, size), hash, size, 48 + |delta|)
  {
    hide LowClear, Crc, Sealed, Payload, Preamble, FileWith, Checked, DifferWithin;
    var k := |delta|;
    var z, b, p := Payload([], size), Payload(delta, size), Preamble(0, size, hash);
    FileParts(hash, [], size);
    FileParts(hash, delta, size);
    FromZeros(delta, size);
    CrcBehind(p, z, b);
    SealedAlike(Crc(INITIAL, p + z), Crc(INITIAL, p + b), k);
    FilesAlike(p, Sealed(Crc(INITIAL, p + z)), Sealed(Crc(INITIAL, p + b)), z, b, k);
  }

  lemma FileSplits(d: seq<byte>, hash: Hash, size: u32)
    requires Checked(Some(d), hash, size).Some?
    ensures |d| == HEADER + size + 10 && d == d[..48] + d[48..HEADER] + d[HEADER..]
    ensures Sealed(Crc(INITIAL, d[..48] + d[HEADER..])) == d[48..HEADER]
  {
    hide Crc, Sealed, HeaderFits;
  }

  lemma WindowParts(d: seq<byte>, e: seq<byte>, k: nat)
    requires |d| == |e| >= HEADER + 3 && 1 <= k <= 3 && DifferWithin(d, e, 48 + k, 4)
    ensures d[..48] == e[..48] && d[48..HEADER][..k] == e[48..HEADER][..k] && d[HEADER..][k..] == e[HEADER..][k..]
  {
    assert d[..48] == d[..48 + k][..48] && e[..48] == e[..48 + k][..48];
    assert d[48..HEADER][..k] == d[..48 + k][48..] && e[48..HEADER][..k] == e[..48 + k][48..];
    assert d[HEADER..][k..] == d[48 + k + 4..] && e[HEADER..][k..] == e[48 + k + 4..];
  }

  lemma DifferenceEnds(x: seq<byte>, y: seq<byte>, k: nat)
    requires |x| == |y| >= 10 && k <= 3 && x[k..] == y[k..]
    ensures Difference(x, y) == Payload(Difference(x[..k], y[..k]), |x| - 10)
    ensures Difference(x[..k], y[..k]) == Zeros(k) ==> x == y
  {
    hide XorByte;
    var delta := Difference(x[..k], y[..k]);
    forall i | 0 <= i < |x| ensures Difference(x, y)[i] == Payload(delta, |x| - 10)[i] && (delta == Zeros(k) ==> x[i] == y[i]) {
      XorByteZero(x[i], y[i]);
      if i >= k {
        assert x[k..][i - k] == y[k..][i - k];
      } else {
        assert delta[i] == XorByte(x[i], y[i]);
      }
    }
  }

  /** And every pair of files that both pass comes from such a change. */
  lemma PassedCancels(d: seq<byte>, e: seq<byte>, hash: Hash, size: u32, at: nat) returns (delta: seq<byte>)
    requires 49 <= at <= 51 && size < 0xFFFF_FF00 && !BurstNoticed(d, e, hash, size, at)
    ensures |delta| == at - 48 && Cancels(delta, size)
  {
    hide Checked, Crc, Sealed, DifferWithin, Difference, Payload, LowClear;
    var k := at - 48;
    var x, y, p := d[HEADER..], e[HEADER..], d[..48];
    FileSplits(d, hash, size);
    FileSplits(e, hash, size);
    WindowParts(d, e, k);
    delta := Difference(x[..k], y[..k]);
    DifferenceEnds(x, y, k);
    CrcBehind(p, x, y);
    SealedAlike(Crc(INITIAL, p + x), Crc(INITIAL, p + y), k);
  }

  lemma NoticedAway(d: seq<byte>, e: seq<byte>, hash: Hash, size: u32, at: nat)
    requires at + 4 <= HEADER || HEADER <= at
    ensures BurstNoticed(d, e, hash, size, at)
  {
    hide Checked, DifferWithin;
    if Checked(Some(d), hash, size).Some? && |e| == |d| && at + 4 <= |d| && d != e && DifferWithin(d, e, at, 4) {
      BurstRejected(d, e, hash, size, at);
    }
  }

  ghost predicate SomeCancels(count: nat, size: nat)
    requires count <= 10
  {
    exists delta: seq<byte> | |delta| == count :: Cancels(delta, size)
  }

  /** Every change of four adjacent bytes is noticed, whatever the contents, exactly where the four do not
      reach from the stored CRC into the payload, or no change of the payload bytes among them cancels. */
  lemma BurstsNoticedExactlyWhere(at: nat, size: u32)
    requires size < 0xFFFF_FF00
    ensures AlwaysNoticed(at, size) <==> (49 <= at <= 51 ==> !SomeCancels(at - 48, size))
  {
    hide BurstNoticed, Cancels, FileWith;
    if at + 4 <= HEADER || HEADER <= at {
      forall d, e, hash ensures BurstNoticed(d, e, hash, size, at) {
        NoticedAway(d, e, hash, size, at);
      }
    } else if SomeCancels(at - 48, size) {
      var delta: seq<byte> :| |delta| == at - 48 && Cancels(delta, size);
      CancelledPasses(Zeros(32), delta, size);
    } else {
      forall d, e, hash ensures BurstNoticed(d, e, hash, size, at) {
        if !BurstNoticed(d, e, hash, size, at) {
          var delta := PassedCancels(d, e, hash, size, at);
        }
      }
    }
  }

  // ----- Short changes as words.

  function WordOf(b: byte): bv32 {
    (if b % 2 == 1 then 0x1 else 0) | (if b / 2 % 2 == 1 then 0x2 else 0)
    | (if b / 4 % 2 == 1 then 0x4 else 0) | (if b / 8 % 2 == 1 then 0x8 else 0)
    | (if b / 16 % 2 == 1 then 0x10 else 0) | (if b / 32 % 2 == 1 then 0x20 else 0)
    | (if b / 64 % 2 == 1 then 0x40 else 0) | (if b / 128 % 2 == 1 then 0x80 else 0)
  }

  lemma WordSpells(b: byte)
    ensures Spells(b, WordOf(b))
  {
    OctetBits(b, WordOf(b));
  }

  /** The octets of a short change, first in the low end. */
  function Packed(delta: seq<byte>): bv32 {
    if delta == [] then 0 else XorWord(WordOf(delta[0]), ShiftedOctet(Packed(delta[1..])))
  }

  lemma WordOfSmall(b: byte)
    ensures OctetWord(WordOf(b)) && (WordOf(b) == 0 ==> b == 0)
  {
    WordSpells(b);
    if WordOf(b) == 0 {
      ZeroSame();
      hide BitOf, WordOf;
      forall i | 0 <= i < 32 ensures Octet(b)[i] == Octet(0)[i] {
        assert i < 8 ==> Bit(b, i) == BitOf(0, i) == Bit(0, i);
      }
      Crc32.SameOctet(b, 0);
    }
  }

  function LowMask(k: nat): bv32 {
    if k == 0 then 0 else if k == 1 then 0xFF else if k == 2 then 0xFFFF else 0xFFFFFF
  }

  lemma Packs(w: bv32, h: bv32, k: nat)
    requires OctetWord(w) && k <= 2 && Masked(h, LowMask(k)) == h
    ensures Masked(XorWord(w, ShiftedOctet(h)), LowMask(k + 1)) == XorWord(w, ShiftedOctet(h))
    ensures XorWord(w, ShiftedOctet(h)) == 0 ==> w == 0 && h == 0
    ensures StepOctet(ShiftedOctet(h)) == h
  {
    if k == 0 {
      PacksOne(w, h);
    } else if k == 1 {
      PacksTwo(w, h);
    } else {
      PacksThree(w, h);
    }
    hide OctetWord, Masked, XorWord, ShiftedOctet, StepOctet;
    ShiftsBack(h);
    PacksZero(w, h);
  }

  lemma PacksOne(w: bv32, h: bv32)
    requires OctetWord(w) && Masked(h, 0) == h
    ensures Masked(XorWord(w, ShiftedOctet(h)), 0xFF) == XorWord(w, ShiftedOctet(h)) && Masked(h, 0xFFFFFF) == h
  {
  }

  lemma PacksTwo(w: bv32, h: bv32)
    requires OctetWord(w) && Masked(h, 0xFF) == h
    ensures Masked(XorWord(w, ShiftedOctet(h)), 0xFFFF) == XorWord(w, ShiftedOctet(h)) && Masked(h, 0xFFFFFF) == h
  {
  }

  lemma PacksThree(w: bv32, h: bv32)
    requires OctetWord(w) && Masked(h, 0xFFFF) == h
    ensures Masked(XorWord(w, ShiftedOctet(h)), 0xFFFFFF) == XorWord(w, ShiftedOctet(h)) && Masked(h, 0xFFFFFF) == h
  {
  }

  lemma PacksZero(w: bv32, h: bv32)
    requires OctetWord(w) && Masked(h, 0xFFFFFF) == h
    ensures XorWord(w, ShiftedOctet(h)) == 0 ==> w == 0 && h == 0
  {
  }

  lemma StepHalves(x: bv32)
    requires !Meets(x, 0x80000000)
    ensures StepWord(Shifted(x)) == x
  {
  }

  lemma TopsClear(h: bv32)
    requires Masked(h, 0xFFFFFF) == h
    ensures !Meets(h, 0x80000000) && !Meets(Shifted(h), 0x80000000) && !Meets(Shifted(Shifted(h)), 0x80000000)
    ensures !Meets(Shifted(Shifted(Shifted(h))), 0x80000000) && Masked(Shifted4(h), 0xFFFFFFF) == Shifted4(h)
  {
  }

  lemma MoreTopsClear(g: bv32)
    requires Masked(g, 0xFFFFFFF) == g
    ensures !Meets(g, 0x80000000) && !Meets(Shifted(g), 0x80000000) && !Meets(Shifted(Shifted(g)), 0x80000000)
    ensures !Meets(Shifted(Shifted(Shifted(g))), 0x80000000)
  {
  }

  lemma ShiftsBack(h: bv32)
    requires Masked(h, 0xFFFFFF) == h
    ensures StepOctet(ShiftedOctet(h)) == h
  {
    hide StepWord, Shifted, Shifted4, ShiftedOctet, Masked, Meets;
    var g := Shifted4(h);
    EightShifts(h);
    FourShifts(g);
    FourShifts(h);
    TopsClear(h);
    MoreTopsClear(g);
    StepHalves(Shifted(Shifted(Shifted(g))));
    StepHalves(Shifted(Shifted(g)));
    StepHalves(Shifted(g));
    StepHalves(g);
    StepHalves(Shifted(Shifted(Shifted(h))));
    StepHalves(Shifted(Shifted(h)));
    StepHalves(Shifted(h));
    StepHalves(h);
  }

  lemma {:induction false} PackedFits(delta: seq<byte>)
    requires |delta| <= 3
    ensures Masked(Packed(delta), LowMask(|delta|)) == Packed(delta)
    ensures Packed(delta) == 0 ==> delta == Zeros(|delta|)
  {
    hide WordOf, OctetWord, XorWord, ShiftedOctet;
    if delta == [] {
      NothingMasked();
    } else {
      PackedFits(delta[1..]);
      WordOfSmall(delta[0]);
      Packs(WordOf(delta[0]), Packed(delta[1..]), |delta| - 1);
      if Packed(delta) == 0 {
        assert delta == [delta[0]] + delta[1..];
      }
    }
  }

  lemma NothingMasked()
    ensures Masked(0, LowMask(0)) == 0
  {
  }

  lemma OneOctet(v: bv32, b: byte)
    ensures Crc(OfWord(v), [b]) == OfWord(StepOctet(XorWord(v, WordOf(b))))
  {
    WordSpells(b);
    WordXor(v, b, WordOf(b));
    WordOctet(XorWord(v, WordOf(b)));
    hide OfWord, StepOctet, BitSteps, Octet, Xor, WordOf, Spells;
    assert [b][..0] == [];
  }

  lemma Regrouped(v: bv32, w: bv32, h: bv32, before: bv32)
    requires StepOctet(before) == h
    ensures XorWord(StepOctet(XorWord(v, w)), h) == StepOctet(XorWord(v, XorWord(w, before)))
  {
    hide StepOctet, XorWord;
    StepOctetLinear(XorWord(v, w), before);
    XorAssociates(v, w, before);
  }

  lemma XorAssociates(a: bv32, b: bv32, c: bv32)
    ensures XorWord(XorWord(a, b), c) == XorWord(a, XorWord(b, c)) && XorWord(a, 0) == a && XorWord(0, a) == a
  {
  }

  /** Feeding a short change is shifting its word out. */
  lemma {:induction false} PackedRun(v: bv32, delta: seq<byte>)
    requires |delta| <= 3
    ensures Crc(OfWord(v), delta) == OfWord(ZeroRun(XorWord(v, Packed(delta)), |delta|))
    decreases |delta|
  {
    hide Crc, OfWord, StepOctet, XorWord, ShiftedOctet, WordOf, Masked;
    if delta == [] {
      XorAssociates(v, 0, 0);
      NothingFed(OfWord(v));
    } else {
      var b, rest := delta[0], delta[1..];
      var h, w := Packed(rest), WordOf(b);
      CrcConcat(OfWord(v), [b], rest);
      assert [b] + rest == delta;
      OneOctet(v, b);
      PackedRun(StepOctet(XorWord(v, w)), rest);
      PackedFits(rest);
      WordOfSmall(b);
      Packs(w, h, |rest|);
      Regrouped(v, w, h, ShiftedOctet(h));
    }
  }

  lemma NothingFed(r: Register)
    ensures Crc(r, []) == r
  {
  }

  lemma PayloadRun(delta: seq<byte>, size: nat)
    requires |delta| <= 3
    ensures Crc(ZERO, Payload(delta, size)) == OfWord(ZeroRun(Packed(delta), size + 10))
  {
    hide Crc, OfWord, StepOctet, XorWord, Packed;
    NoOctets();
    NothingFed(ZERO);
    PackedRun(0, delta);
    XorAssociates(Packed(delta), 0, 0);
    var n := size + 10 - |delta|;
    ZerosRun(delta, ZeroRun(Packed(delta), |delta|), n);
    ZeroRunAdds(Packed(delta), |delta|, n);
  }

  lemma OctetBitsClear(v: bv32, i: nat, octet: bv32)
    requires (i == 0 && octet == 0xFF) || (i == 8 && octet == 0xFF00) || (i == 16 && octet == 0xFF0000)
    ensures Masked(v, octet) == 0 <==>
      !BitOf(v, i) && !BitOf(v, i + 1) && !BitOf(v, i + 2) && !BitOf(v, i + 3)
      && !BitOf(v, i + 4) && !BitOf(v, i + 5) && !BitOf(v, i + 6) && !BitOf(v, i + 7)
  {
    Masks();
    hide Mask;
  }

  lemma MaskParts(v: bv32)
    ensures Masked(v, 0xFFFF) == 0 <==> Masked(v, 0xFF) == 0 && Masked(v, 0xFF00) == 0
    ensures Masked(v, 0xFFFFFF) == 0 <==> Masked(v, 0xFF) == 0 && Masked(v, 0xFF00) == 0 && Masked(v, 0xFF0000) == 0
  {
  }

  lemma LowBits(v: bv32, k: nat)
    requires 1 <= k <= 3
    ensures LowClear(OfWord(v), 8 * k) <==> Masked(v, LowMask(k)) == 0
  {
    hide BitOf, Masked;
    MaskParts(v);
    OctetBitsClear(v, 0, 0xFF);
    OctetBitsClear(v, 8, 0xFF00);
    OctetBitsClear(v, 16, 0xFF0000);
    if LowClear(OfWord(v), 8 * k) {
      assert forall i | 0 <= i < 8 * k :: OfWord(v)[i] == BitOf(v, i);
    }
    if Masked(v, LowMask(k)) == 0 {
      forall i | 0 <= i < 8 * k ensures !OfWord(v)[i] {
        assert i == 0 || i == 1 || i == 2 || i == 3 || i == 4 || i == 5 || i == 6 || i == 7 || i == 8 || i == 9 || i == 10
          || i == 11 || i == 12 || i == 13 || i == 14 || i == 15 || i == 16 || i == 17 || i == 18 || i == 19 || i == 20
          || i == 21 || i == 22 || i == 23;
      }
    }
  }

  /** A short change cancels exactly when its word is not zero and what shifting makes of it is, in the
      low octets. */
  lemma CancelsAsWord(delta: seq<byte>, size: nat)
    requires 1 <= |delta| <= 3
    ensures Cancels(delta, size) <==> delta != Zeros(|delta|) && LowRun(Packed(delta), size + 10, LowMask(|delta|)) == 0
  {
    hide Crc, OfWord, ZeroRun, Packed, Masked, LowMask, LowClear, Payload;
    PayloadRun(delta, size);
    LowBits(ZeroRun(Packed(delta), size + 10), |delta|);
  }

  // ----- The sizes in use.

  /** The cartridge RAM sizes that a session can have. */
  const SIZES: set<u32> := {0, 512, 2048, 8192, 32768}

  predicate Slips(at: nat, size: u32) {
    (at == 50 && size == 8192) || (at == 51 && size in {512, 2048, 8192})
  }

  lemma NoneCancels(delta: seq<byte>, size: u32)
    requires size in SIZES && 1 <= |delta| <= 3 && !Slips(48 + |delta|, size)
    ensures !Cancels(delta, size)
  {
    hide Cancels, Packed, LowRun, Masked;
    CancelsAsWord(delta, size);
    PackedFits(delta);
    if LowRun(Packed(delta), size + 10, LowMask(|delta|)) == 0 {
      if |delta| == 1 {
        NoOctetCancels(size, Packed(delta));
      } else if |delta| == 2 {
        NoPairCancels(size, Packed(delta));
      } else {
        NoTripleCancels(size, Packed(delta));
      }
    }
  }

  function Slip(at: nat, size: u32): (delta: seq<byte>)
    requires Slips(at, size)
    ensures |delta| == at - 48
  {
    if at == 50 then [0xA1, 0xCA] else if size == 512 then [0x05, 0x4B, 0x04] else if size == 2048 then [0x74, 0xA3, 0xFB]
    else [0x00, 0xA1, 0xCA]
  }

  lemma SlipWords()
    ensures Packed([0xA1, 0xCA]) == 0xCAA1 && Packed([0x05, 0x4B, 0x04]) == 0x44B05
    ensures Packed([0x74, 0xA3, 0xFB]) == 0xFBA374 && Packed([0x00, 0xA1, 0xCA]) == 0xCAA100
  {
    Octets();
    MoreOctets();
    hide WordOf;
    assert [0xA1, 0xCA][1..] == [0xCA] && [0x05, 0x4B, 0x04][1..] == [0x4B, 0x04] && [0x4B, 0x04][1..] == [0x04];
    assert [0x74, 0xA3, 0xFB][1..] == [0xA3, 0xFB] && [0xA3, 0xFB][1..] == [0xFB] && [0x00, 0xA1, 0xCA][1..] == [0xA1, 0xCA];
    assert Packed([0xCA]) == 0xCA && Packed([0x04]) == 0x04 && Packed([0xFB]) == 0xFB;
    assert Packed([0x4B, 0x04]) == 0x44B && Packed([0xA3, 0xFB]) == 0xFBA3;
  }

  lemma Octets()
    ensures WordOf(0xA1) == 0xA1 && WordOf(0xCA) == 0xCA && WordOf(0x05) == 0x05
    ensures WordOf(0x4B) == 0x4B && WordOf(0x04) == 0x04 && WordOf(0x00) == 0x00
  {
  }

  lemma MoreOctets()
    ensures WordOf(0x74) == 0x74 && WordOf(0xA3) == 0xA3 && WordOf(0xFB) == 0xFB
  {
  }

  lemma SlipCancels(at: nat, size: u32)
    requires Slips(at, size)
    ensures Cancels(Slip(at, size), size)
  {
    hide Cancels, Packed, ZeroRun;
    CancelsAsWord(Slip(at, size), size);
    SlipWords();
    Cancelling();
    assert Slip(at, size)[at - 50] != 0;
  }

  /** For every size of cartridge RAM that a session can have: a change of four adjacent bytes always is
      noticed, except two bytes into the stored CRC for 8192 bytes, and three bytes into it for 512, 2048
      and 8192 bytes; there some save can be changed unnoticed. */
  lemma RealSavesNoticedExactlyWhere(at: nat, size: u32)
    requires size in SIZES
    ensures AlwaysNoticed(at, size) <==> !Slips(at, size)
  {
    hide AlwaysNoticed, Cancels, Slip;
    BurstsNoticedExactlyWhere(at, size);
    if Slips(at, size) {
      SlipCancels(at, size);
    } else if 49 <= at <= 51 {
      forall delta: seq<byte> | |delta| == at - 48 ensures !Cancels(delta, size) {
        NoneCancels(delta, size);
      }
    }
  }
}
