/** The bytes of a save file, one by one (main/gb_saves.c), and the published check value of its CRC. */
module SaveLayout {
  import opened Bytes
  import opened Crc32
  import opened CrcWords
  import opened Saves

  // ----- The CRC is the one that everyone else computes.

  lemma AllOnes()
    ensures INITIAL == OfWord(0xFFFFFFFF)
  {
    hide Mask;
    forall i | 0 <= i < 32 ensures INITIAL[i] == OfWord(0xFFFFFFFF)[i] {
      MaskIsOneBit(i);
      Masks();
    }
  }

  lemma CrcNext(start: Register, data: seq<byte>, v: bv32, b: byte, w: bv32)
    requires Crc(start, data) == OfWord(v) && Spells(b, w)
    ensures Crc(start, data + [b]) == OfWord(StepOctet(XorWord(v, w)))
  {
    WordXor(v, b, w);
    WordOctet(XorWord(v, w));
    hide OfWord, StepOctet, BitSteps, Octet, Xor;
    assert (data + [b])[..|data|] == data;
  }

  /** The digits 1 to 9. */
  const DIGITS: seq<byte> := [0x31, 0x32, 0x33, 0x34, 0x35, 0x36, 0x37, 0x38, 0x39]

  lemma Step0()
    ensures StepOctet(XorWord(0xFFFFFFFF, 0x31)) == 0x7C231048
  {
  }

  lemma Step1()
    ensures StepOctet(XorWord(0x7C231048, 0x32)) == 0xB0ACBB32
  {
  }

  lemma Step2()
    ensures StepOctet(XorWord(0xB0ACBB32, 0x33)) == 0x77B79C2D
  {
  }

  lemma Step3()
    ensures StepOctet(XorWord(0x77B79C2D, 0x34)) == 0x641C1F5C
  {
  }

  lemma Step4()
    ensures StepOctet(XorWord(0x641C1F5C, 0x35)) == 0x340AC5E3
  {
  }

  lemma Step5()
    ensures StepOctet(XorWord(0x340AC5E3, 0x36)) == 0xF68D2C9E
  {
  }

  lemma Step6()
    ensures StepOctet(XorWord(0xF68D2C9E, 0x37)) == 0xAFFC9660
  {
  }

  lemma Step7()
    ensures StepOctet(XorWord(0xAFFC9660, 0x38)) == 0x651F2550
  {
  }

  lemma Step8()
    ensures StepOctet(XorWord(0x651F2550, 0x39)) == 0x340BC6D9
  {
  }

  lemma CrcOfDigits()
    ensures Crc(INITIAL, DIGITS) == OfWord(0x340BC6D9)
  {
    hide Crc, OfWord, StepOctet, XorWord, Spells;
    AllOnes();
    assert DIGITS[..0] == [];
    NothingYet();
    OctetBits(0x31, 0x31);
    Step0();
    CrcNext(INITIAL, DIGITS[..0], 0xFFFFFFFF, 0x31, 0x31);
    assert DIGITS[..0] + [0x31] == DIGITS[..1];
    OctetBits(0x32, 0x32);
    Step1();
    CrcNext(INITIAL, DIGITS[..1], 0x7C231048, 0x32, 0x32);
    assert DIGITS[..1] + [0x32] == DIGITS[..2];
    OctetBits(0x33, 0x33);
    Step2();
    CrcNext(INITIAL, DIGITS[..2], 0xB0ACBB32, 0x33, 0x33);
    assert DIGITS[..2] + [0x33] == DIGITS[..3];
    OctetBits(0x34, 0x34);
    Step3();
    CrcNext(INITIAL, DIGITS[..3], 0x77B79C2D, 0x34, 0x34);
    assert DIGITS[..3] + [0x34] == DIGITS[..4];
    OctetBits(0x35, 0x35);
    Step4();
    CrcNext(INITIAL, DIGITS[..4], 0x641C1F5C, 0x35, 0x35);
    assert DIGITS[..4] + [0x35] == DIGITS[..5];
    OctetBits(0x36, 0x36);
    Step5();
    CrcNext(INITIAL, DIGITS[..5], 0x340AC5E3, 0x36, 0x36);
    assert DIGITS[..5] + [0x36] == DIGITS[..6];
    OctetBits(0x37, 0x37);
    Step6();
    CrcNext(INITIAL, DIGITS[..6], 0xF68D2C9E, 0x37, 0x37);
    assert DIGITS[..6] + [0x37] == DIGITS[..7];
    OctetBits(0x38, 0x38);
    Step7();
    CrcNext(INITIAL, DIGITS[..7], 0xAFFC9660, 0x38, 0x38);
    assert DIGITS[..7] + [0x38] == DIGITS[..8];
    OctetBits(0x39, 0x39);
    Step8();
    CrcNext(INITIAL, DIGITS[..8], 0x651F2550, 0x39, 0x39);
    assert DIGITS[..8] + [0x39] == DIGITS[..9];
    assert DIGITS[..9] == DIGITS;
  }

  lemma NothingYet()
    ensures Crc(INITIAL, []) == INITIAL
  {
  }

  lemma Octet0()
    ensures InvertedOctet(OfWord(0x340BC6D9), 0) == 0x26
  {
    hide Mask;
    Masks();
    assert InvertedBits(OfWord(0x340BC6D9), 0) == [false, true, true, false, false, true, false, false];
  }

  lemma Octet1()
    ensures InvertedOctet(OfWord(0x340BC6D9), 8) == 0x39
  {
    hide Mask;
    Masks();
    assert InvertedBits(OfWord(0x340BC6D9), 8) == [true, false, false, true, true, true, false, false];
  }

  lemma Octet2()
    ensures InvertedOctet(OfWord(0x340BC6D9), 16) == 0xF4
  {
    hide Mask;
    Masks();
    assert InvertedBits(OfWord(0x340BC6D9), 16) == [false, false, true, false, true, true, true, true];
  }

  lemma Octet3()
    ensures InvertedOctet(OfWord(0x340BC6D9), 24) == 0xCB
  {
    hide Mask;
    Masks();
    assert InvertedBits(OfWord(0x340BC6D9), 24) == [true, true, false, true, false, false, true, true];
  }

  /** The check value of CRC-32, in the byte order of a save file. */
  lemma CheckValue()
    ensures Sealed(Crc(INITIAL, DIGITS)) == [0x26, 0x39, 0xF4, 0xCB]
  {
    hide Crc, OfWord;
    CrcOfDigits();
    Octet0();
    Octet1();
    Octet2();
    Octet3();
  }

  // ----- The layout.

  /** A save file octet by octet: FGBS, version 1, no flags, the sequence number and the size in four octets each, the
      hash of the game, the CRC of everything but itself, the cartridge RAM and the clock. */
  lemma LayoutIs(sequence: u32, hash: Hash, sram: Sram, rtc: Rtc)
    ensures var d := Image(sequence, hash, sram, rtc);
      && |d| == 62 + |sram|
      && d[..8] == [0x46, 0x47, 0x42, 0x53, 1, 0, 0, 0]
      && d[8] as int + 256 * (d[9] as int) + 65536 * (d[10] as int) + 16777216 * (d[11] as int) == sequence
      && d[12] as int + 256 * (d[13] as int) + 65536 * (d[14] as int) + 16777216 * (d[15] as int) == |sram|
      && d[16..48] == hash && d[48..52] == Sealed(Crc(INITIAL, d[..48] + d[52..])) && d[52..] == sram + rtc
  {
    hide Crc, Sealed;
    var p := Preamble(sequence, |sram|, hash);
    var d := Image(sequence, hash, sram, rtc);
    assert d[..48] == p && d[52..] == sram + rtc;
    assert d[48..52] == Sealed(Crc(INITIAL, p + (sram + rtc)));
    assert p[8..12] == Le32(sequence) && p[12..16] == Le32(|sram|);
    Le32RoundTrip(sequence);
    Le32RoundTrip(|sram|);
    PreambleIs(sequence, |sram|, hash);
    hide Preamble, Le32;
    assert d[..8] == p[..8] && d[16..48] == p[16..48];
    assert d[8..12] == p[8..12] && d[12..16] == p[12..16];
    assert d[8] == d[8..12][0] && d[9] == d[8..12][1] && d[10] == d[8..12][2] && d[11] == d[8..12][3];
    assert d[12] == d[12..16][0] && d[13] == d[12..16][1] && d[14] == d[12..16][2] && d[15] == d[12..16][3];
  }

  lemma PreambleIs(sequence: u32, size: u32, hash: Hash)
    ensures Preamble(sequence, size, hash)[..8] == [0x46, 0x47, 0x42, 0x53, 1, 0, 0, 0] && Preamble(sequence, size, hash)[16..48] == hash
  {
  }
}
