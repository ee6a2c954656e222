/** Frames of the IINE L1241 pad as they go over the air (components/bluepad32/parser/uni_iine_protocol.c): an exchange
    captured from another client (tests/test_iine_protocol.c), and one full frame for each half of the mask. */
module IineFrames {
  import opened Bytes
  import opened IinePacket
  import opened IineKeys

  function Numbers(s: seq<bv8>): (r: seq<byte>)
    ensures |r| == |s| && forall i | 0 <= i < |s| :: r[i] == s[i] as nat
  {
    seq(|s|, i requires 0 <= i < |s| => s[i] as nat)
  }

  /** The running values of a checksum. */
  predicate Runs(values: seq<bv8>, octets: seq<bv8>) {
    |values| == |octets| + 1 && forall i | 0 <= i < |octets| :: OctetWord(values[i] ^ octets[i]) == values[i + 1]
  }

  lemma {:induction false} SumRuns(values: seq<bv8>, octets: seq<bv8>, rest: seq<byte>)
    requires Runs(values, octets)
    ensures Sum(values[0] as nat, Numbers(octets) + rest) == Sum(values[|octets|] as nat, rest)
    decreases |octets|
  {
    hide Sum, OctetWord;
    if octets == [] {
      assert Numbers(octets) + rest == rest;
    } else {
      assert Numbers(octets) + rest == [octets[0] as nat] + (Numbers(octets[1..]) + rest);
      SumMore(values[0], octets[0], Numbers(octets[1..]) + rest);
      SumRuns(values[1..], octets[1..], rest);
    }
  }

  /** One octet of a frame: what is sent, its veil and its mask. */
  lemma OctetIs(clear: seq<byte>, i: nat, c: bv8, veil: bv8, m: bv8)
    requires 4 <= |clear| <= 19 && i < |clear| && i != 2 && i != 3 && clear[i] == c as nat
    requires Veil(clear[2], clear[3], i) == veil as nat && Mask(Offset(FrameOctet(clear, 3)) + i) == m as nat
    ensures SealedOctet(clear, i) == (c ^ veil ^ m) as nat
  {
    XorWord(c, veil);
    XorWord(c ^ veil, m);
    hide XorByte, Sum;
  }

  lemma SerialIs(clear: seq<byte>, shifted: bv8, nonce: bv8, m: bv8)
    requires 4 <= |clear| <= 19 && Low8(clear[2] as int - 173) == shifted as nat && clear[3] == nonce as nat
    requires Mask(Offset(FrameOctet(clear, 3)) + 2) == m as nat
    ensures SealedOctet(clear, 2) == (shifted ^ nonce ^ m) as nat
  {
    XorWord(shifted, nonce);
    XorWord(shifted ^ nonce, m);
    hide XorByte, Sum;
  }

  lemma NonceIs(clear: seq<byte>, shifted: bv8, m: bv8)
    requires 4 <= |clear| <= 19 && Low8(clear[3] as int + 191) == shifted as nat
    requires Mask(Offset((shifted ^ 219) as nat) + 3) == m as nat
    ensures FrameOctet(clear, 3) == (shifted ^ 219) as nat && SealedOctet(clear, 3) == (shifted ^ 219 ^ m) as nat
  {
    XorWord(shifted, 219);
    XorWord(shifted ^ 219, m);
    hide XorByte, Sum;
  }

  lemma CheckIs(clear: seq<byte>, sum: bv8, m: bv8)
    requires 4 <= |clear| <= 19 && Sum(0, clear) == sum as nat && Mask(Offset(FrameOctet(clear, 3)) + |clear|) == m as nat
    ensures SealedOctet(clear, |clear|) == (sum ^ m) as nat
  {
    XorWord(sum, m);
    hide XorByte, Sum;
  }

  lemma RequestRuns0()
    ensures Runs([0, 94, 191, 207, 190], [145, 5, 1, 67])
  {
  }

  function RequestClear(): (clear: seq<byte>)
    ensures |clear| == 4
  {
    [145, 5, 1, 67]
  }

  lemma RequestSum()
    ensures Sum(0, RequestClear()) == 190
  {
    hide Sum, OctetWord, Runs;
    RequestRuns0();
    SumRuns([0, 94, 191, 207, 190], [145, 5, 1, 67], []);
    assert Numbers([145, 5, 1, 67]) + [] == [145, 5, 1, 67];
    NothingSums(190);
  }

  lemma RequestKeys()
    ensures var clear := RequestClear();
      && Offset(FrameOctet(clear, 3)) == 0
      && SealedOctet(clear, 2) == 0xC2 && SealedOctet(clear, 3) == 0x7A && SealedOctet(clear, 4) == 0x4B
  {
    hide XorByte, Sum, FrameOctet, SealedOctet;
    var clear := RequestClear();
    RequestSum();
    NonceIs(clear, 2, 163);
    SerialIs(clear, 84, 67, 213);
    CheckIs(clear, 190, 245);
  }

  lemma RequestOctets0()
    requires Offset(FrameOctet(RequestClear(), 3)) == 0
    ensures var clear := RequestClear();
      SealedOctet(clear, 0) == 0x9A && SealedOctet(clear, 1) == 0x88
  {
    hide XorByte, Sum, FrameOctet, SealedOctet;
    var clear := RequestClear();
    OctetIs(clear, 0, 145, 170, 161);
    OctetIs(clear, 1, 5, 223, 82);
  }

  /** On the air: the identity request that was captured. */
  lemma RequestOnAir()
    ensures Sealed(Clear(Packet(145, 1, []), 67)) == [0x9A, 0x88, 0xC2, 0x7A, 0x4B]
    ensures Parse([0x9A, 0x88, 0xC2, 0x7A, 0x4B]) == Some(Packet(145, 1, []))
  {
    hide SealedOctet, Parse, FrameOctet;
    RequestKeys();
    RequestOctets0();
    assert Clear(Packet(145, 1, []), 67) == RequestClear();
    ParseInvertsBuild(Packet(145, 1, []), 67);
  }

  lemma ResponseRuns0()
    ensures Runs([0, 211, 30, 18, 5], [25, 13, 1, 55])
  {
  }

  lemma ResponseRuns1()
    ensures Runs([5, 242, 200, 84, 46], [7, 16, 19, 32])
  {
  }

  lemma ResponseRuns2()
    ensures Runs([46, 247, 55, 255, 136], [9, 1, 35, 82])
  {
  }

  function ResponseClear(): (clear: seq<byte>)
    ensures |clear| == 12
  {
    [25, 13, 1, 55, 7, 16, 19, 32, 9, 1, 35, 82]
  }

  lemma ResponseSum()
    ensures Sum(0, ResponseClear()) == 136
  {
    hide Sum, OctetWord, Runs;
    ResponseRuns0();
    SumRuns([0, 211, 30, 18, 5], [25, 13, 1, 55], [7, 16, 19, 32, 9, 1, 35, 82]);
    assert Numbers([25, 13, 1, 55]) + [7, 16, 19, 32, 9, 1, 35, 82] == [25, 13, 1, 55, 7, 16, 19, 32, 9, 1, 35, 82];
    ResponseRuns1();
    SumRuns([5, 242, 200, 84, 46], [7, 16, 19, 32], [9, 1, 35, 82]);
    assert Numbers([7, 16, 19, 32]) + [9, 1, 35, 82] == [7, 16, 19, 32, 9, 1, 35, 82];
    ResponseRuns2();
    SumRuns([46, 247, 55, 255, 136], [9, 1, 35, 82], []);
    assert Numbers([9, 1, 35, 82]) + [] == [9, 1, 35, 82];
    NothingSums(136);
  }

  lemma ResponseKeys()
    ensures var clear := ResponseClear();
      && Offset(FrameOctet(clear, 3)) == 0
      && SealedOctet(clear, 2) == 0xB6 && SealedOctet(clear, 3) == 0x8E && SealedOctet(clear, 12) == 0x62
  {
    hide XorByte, Sum, FrameOctet, SealedOctet;
    var clear := ResponseClear();
    ResponseSum();
    NonceIs(clear, 246, 163);
    SerialIs(clear, 84, 55, 213);
    CheckIs(clear, 136, 234);
  }

  lemma ResponseOctets0()
    requires Offset(FrameOctet(ResponseClear(), 3)) == 0
    ensures var clear := ResponseClear();
      SealedOctet(clear, 0) == 0x26 && SealedOctet(clear, 1) == 0x8C && SealedOctet(clear, 4) == 0xF7
  {
    hide XorByte, Sum, FrameOctet, SealedOctet;
    var clear := ResponseClear();
    OctetIs(clear, 0, 25, 158, 161);
    OctetIs(clear, 1, 13, 211, 82);
    OctetIs(clear, 4, 7, 5, 245);
  }

  lemma ResponseOctets1()
    requires Offset(FrameOctet(ResponseClear(), 3)) == 0
    ensures var clear := ResponseClear();
      SealedOctet(clear, 5) == 0x4C && SealedOctet(clear, 6) == 0x7E && SealedOctet(clear, 7) == 0x10
  {
    hide XorByte, Sum, FrameOctet, SealedOctet;
    var clear := ResponseClear();
    OctetIs(clear, 5, 16, 213, 137);
    OctetIs(clear, 6, 19, 155, 246);
    OctetIs(clear, 7, 32, 191, 143);
  }

  lemma ResponseOctets2()
    requires Offset(FrameOctet(ResponseClear(), 3)) == 0
    ensures var clear := ResponseClear();
      SealedOctet(clear, 8) == 0xBF && SealedOctet(clear, 9) == 0xC1 && SealedOctet(clear, 10) == 0xFD
  {
    hide XorByte, Sum, FrameOctet, SealedOctet;
    var clear := ResponseClear();
    OctetIs(clear, 8, 9, 70, 240);
    OctetIs(clear, 9, 1, 93, 157);
    OctetIs(clear, 10, 35, 150, 72);
  }

  lemma ResponseOctets3()
    requires Offset(FrameOctet(ResponseClear(), 3)) == 0
    ensures var clear := ResponseClear();
      SealedOctet(clear, 11) == 0xDF
  {
    hide XorByte, Sum, FrameOctet, SealedOctet;
    var clear := ResponseClear();
    OctetIs(clear, 11, 82, 30, 147);
  }

  /** On the air: the answer that was captured with it. */
  lemma ResponseOnAir()
    ensures Sealed(Clear(Packet(25, 1, [7, 16, 19, 32, 9, 1, 35, 82]), 55)) == [0x26, 0x8C, 0xB6, 0x8E, 0xF7, 0x4C, 0x7E, 0x10, 0xBF, 0xC1, 0xFD, 0xDF, 0x62]
    ensures Parse([0x26, 0x8C, 0xB6, 0x8E, 0xF7, 0x4C, 0x7E, 0x10, 0xBF, 0xC1, 0xFD, 0xDF, 0x62]) == Some(Packet(25, 1, [7, 16, 19, 32, 9, 1, 35, 82]))
  {
    hide SealedOctet, Parse, FrameOctet;
    ResponseKeys();
    ResponseOctets0();
    ResponseOctets1();
    ResponseOctets2();
    ResponseOctets3();
    assert Clear(Packet(25, 1, [7, 16, 19, 32, 9, 1, 35, 82]), 55) == ResponseClear();
    ParseInvertsBuild(Packet(25, 1, [7, 16, 19, 32, 9, 1, 35, 82]), 55);
  }

  lemma LowRuns0()
    ensures Runs([0, 18, 193, 12, 64], [31, 20, 0, 67])
  {
  }

  lemma LowRuns1()
    ensures Runs([64, 158, 128, 235, 215], [0, 0, 0, 0])
  {
  }

  lemma LowRuns2()
    ensures Runs([215, 1, 121, 2, 242], [0, 0, 0, 0])
  {
  }

  lemma LowRuns3()
    ensures Runs([242, 4, 51, 8, 102], [0, 0, 0, 0])
  {
  }

  lemma LowRuns4()
    ensures Runs([102, 16, 204, 32], [0, 0, 0])
  {
  }

  function LowClear(): (clear: seq<byte>)
    ensures |clear| == 19
  {
    [31, 20, 0, 67, 0, 0, 0, 0, 0, 0, 0, 0, 0, 0, 0, 0, 0, 0, 0]
  }

  lemma LowSum()
    ensures Sum(0, LowClear()) == 32
  {
    hide Sum, OctetWord, Runs;
    LowRuns0();
    SumRuns([0, 18, 193, 12, 64], [31, 20, 0, 67], [0, 0, 0, 0, 0, 0, 0, 0, 0, 0, 0, 0, 0, 0, 0]);
    assert Numbers([31, 20, 0, 67]) + [0, 0, 0, 0, 0, 0, 0, 0, 0, 0, 0, 0, 0, 0, 0] == [31, 20, 0, 67, 0, 0, 0, 0, 0, 0, 0, 0, 0, 0, 0, 0, 0, 0, 0];
    LowRuns1();
    SumRuns([64, 158, 128, 235, 215], [0, 0, 0, 0], [0, 0, 0, 0, 0, 0, 0, 0, 0, 0, 0]);
    assert Numbers([0, 0, 0, 0]) + [0, 0, 0, 0, 0, 0, 0, 0, 0, 0, 0] == [0, 0, 0, 0, 0, 0, 0, 0, 0, 0, 0, 0, 0, 0, 0];
    LowRuns2();
    SumRuns([215, 1, 121, 2, 242], [0, 0, 0, 0], [0, 0, 0, 0, 0, 0, 0]);
    assert Numbers([0, 0, 0, 0]) + [0, 0, 0, 0, 0, 0, 0] == [0, 0, 0, 0, 0, 0, 0, 0, 0, 0, 0];
    LowRuns3();
    SumRuns([242, 4, 51, 8, 102], [0, 0, 0, 0], [0, 0, 0]);
    assert Numbers([0, 0, 0, 0]) + [0, 0, 0] == [0, 0, 0, 0, 0, 0, 0];
    LowRuns4();
    SumRuns([102, 16, 204, 32], [0, 0, 0], []);
    assert Numbers([0, 0, 0]) + [] == [0, 0, 0];
    NothingSums(32);
  }

  lemma LowKeys()
    ensures var clear := LowClear();
      && Offset(FrameOctet(clear, 3)) == 0
      && SealedOctet(clear, 2) == 0xC5 && SealedOctet(clear, 3) == 0x7A && SealedOctet(clear, 19) == 0xCB
  {
    hide XorByte, Sum, FrameOctet, SealedOctet;
    var clear := LowClear();
    LowSum();
    NonceIs(clear, 2, 163);
    SerialIs(clear, 83, 67, 213);
    CheckIs(clear, 32, 235);
  }

  lemma LowOctets0()
    requires Offset(FrameOctet(LowClear(), 3)) == 0
    ensures var clear := LowClear();
      SealedOctet(clear, 0) == 0x17 && SealedOctet(clear, 1) == 0x98 && SealedOctet(clear, 4) == 0xE5
  {
    hide XorByte, Sum, FrameOctet, SealedOctet;
    var clear := LowClear();
    OctetIs(clear, 0, 31, 169, 161);
    OctetIs(clear, 1, 20, 222, 82);
    OctetIs(clear, 4, 0, 16, 245);
  }

  lemma LowOctets1()
    requires Offset(FrameOctet(LowClear(), 3)) == 0
    ensures var clear := LowClear();
      SealedOctet(clear, 5) == 0x69 && SealedOctet(clear, 6) == 0x50 && SealedOctet(clear, 7) == 0x45
  {
    hide XorByte, Sum, FrameOctet, SealedOctet;
    var clear := LowClear();
    OctetIs(clear, 5, 0, 224, 137);
    OctetIs(clear, 6, 0, 166, 246);
    OctetIs(clear, 7, 0, 202, 143);
  }

  lemma LowOctets2()
    requires Offset(FrameOctet(LowClear(), 3)) == 0
    ensures var clear := LowClear();
      SealedOctet(clear, 8) == 0xA1 && SealedOctet(clear, 9) == 0xF5 && SealedOctet(clear, 10) == 0xE9
  {
    hide XorByte, Sum, FrameOctet, SealedOctet;
    var clear := LowClear();
    OctetIs(clear, 8, 0, 81, 240);
    OctetIs(clear, 9, 0, 104, 157);
    OctetIs(clear, 10, 0, 161, 72);
  }

  lemma LowOctets3()
    requires Offset(FrameOctet(LowClear(), 3)) == 0
    ensures var clear := LowClear();
      SealedOctet(clear, 11) == 0xBA && SealedOctet(clear, 12) == 0x73 && SealedOctet(clear, 13) == 0x16
  {
    hide XorByte, Sum, FrameOctet, SealedOctet;
    var clear := LowClear();
    OctetIs(clear, 11, 0, 41, 147);
    OctetIs(clear, 12, 0, 153, 234);
    OctetIs(clear, 13, 0, 34, 52);
  }

  lemma LowOctets4()
    requires Offset(FrameOctet(LowClear(), 3)) == 0
    ensures var clear := LowClear();
      SealedOctet(clear, 14) == 0x89 && SealedOctet(clear, 15) == 0xE1 && SealedOctet(clear, 16) == 0x0C
  {
    hide XorByte, Sum, FrameOctet, SealedOctet;
    var clear := LowClear();
    OctetIs(clear, 14, 0, 184, 49);
    OctetIs(clear, 15, 0, 91, 186);
    OctetIs(clear, 16, 0, 207, 195);
  }

  lemma LowOctets5()
    requires Offset(FrameOctet(LowClear(), 3)) == 0
    ensures var clear := LowClear();
      SealedOctet(clear, 17) == 0x3D && SealedOctet(clear, 18) == 0x2D
  {
    hide XorByte, Sum, FrameOctet, SealedOctet;
    var clear := LowClear();
    OctetIs(clear, 17, 0, 112, 77);
    OctetIs(clear, 18, 0, 235, 198);
  }

  /** On the air: the longest report, all of it zero, under the first half of the mask. */
  lemma LowOnAir()
    ensures Sealed(Clear(Packet(31, 0, [0, 0, 0, 0, 0, 0, 0, 0, 0, 0, 0, 0, 0, 0, 0]), 67)) == [0x17, 0x98, 0xC5, 0x7A, 0xE5, 0x69, 0x50, 0x45, 0xA1, 0xF5, 0xE9, 0xBA, 0x73, 0x16, 0x89, 0xE1, 0x0C, 0x3D, 0x2D, 0xCB]
    ensures Parse([0x17, 0x98, 0xC5, 0x7A, 0xE5, 0x69, 0x50, 0x45, 0xA1, 0xF5, 0xE9, 0xBA, 0x73, 0x16, 0x89, 0xE1, 0x0C, 0x3D, 0x2D, 0xCB]) == Some(Packet(31, 0, [0, 0, 0, 0, 0, 0, 0, 0, 0, 0, 0, 0, 0, 0, 0]))
  {
    hide SealedOctet, Parse, FrameOctet;
    LowKeys();
    LowOctets0();
    LowOctets1();
    LowOctets2();
    LowOctets3();
    LowOctets4();
    LowOctets5();
    assert Clear(Packet(31, 0, [0, 0, 0, 0, 0, 0, 0, 0, 0, 0, 0, 0, 0, 0, 0]), 67) == LowClear();
    ParseInvertsBuild(Packet(31, 0, [0, 0, 0, 0, 0, 0, 0, 0, 0, 0, 0, 0, 0, 0, 0]), 67);
  }

  lemma HighRuns0()
    ensures Runs([0, 18, 193, 12, 129], [31, 20, 0, 69])
  {
  }

  lemma HighRuns1()
    ensures Runs([129, 146, 213, 243, 125], [0, 0, 0, 0])
  {
  }

  lemma HighRuns2()
    ensures Runs([125, 49, 250, 98, 35], [0, 0, 0, 0])
  {
  }

  lemma HighRuns3()
    ensures Runs([35, 196, 70, 95, 140], [0, 0, 0, 0])
  {
  }

  lemma HighRuns4()
    ensures Runs([140, 190, 207, 171], [0, 0, 0])
  {
  }

  function HighClear(): (clear: seq<byte>)
    ensures |clear| == 19
  {
    [31, 20, 0, 69, 0, 0, 0, 0, 0, 0, 0, 0, 0, 0, 0, 0, 0, 0, 0]
  }

  lemma HighSum()
    ensures Sum(0, HighClear()) == 171
  {
    hide Sum, OctetWord, Runs;
    HighRuns0();
    SumRuns([0, 18, 193, 12, 129], [31, 20, 0, 69], [0, 0, 0, 0, 0, 0, 0, 0, 0, 0, 0, 0, 0, 0, 0]);
    assert Numbers([31, 20, 0, 69]) + [0, 0, 0, 0, 0, 0, 0, 0, 0, 0, 0, 0, 0, 0, 0] == [31, 20, 0, 69, 0, 0, 0, 0, 0, 0, 0, 0, 0, 0, 0, 0, 0, 0, 0];
    HighRuns1();
    SumRuns([129, 146, 213, 243, 125], [0, 0, 0, 0], [0, 0, 0, 0, 0, 0, 0, 0, 0, 0, 0]);
    assert Numbers([0, 0, 0, 0]) + [0, 0, 0, 0, 0, 0, 0, 0, 0, 0, 0] == [0, 0, 0, 0, 0, 0, 0, 0, 0, 0, 0, 0, 0, 0, 0];
    HighRuns2();
    SumRuns([125, 49, 250, 98, 35], [0, 0, 0, 0], [0, 0, 0, 0, 0, 0, 0]);
    assert Numbers([0, 0, 0, 0]) + [0, 0, 0, 0, 0, 0, 0] == [0, 0, 0, 0, 0, 0, 0, 0, 0, 0, 0];
    HighRuns3();
    SumRuns([35, 196, 70, 95, 140], [0, 0, 0, 0], [0, 0, 0]);
    assert Numbers([0, 0, 0, 0]) + [0, 0, 0] == [0, 0, 0, 0, 0, 0, 0];
    HighRuns4();
    SumRuns([140, 190, 207, 171], [0, 0, 0], []);
    assert Numbers([0, 0, 0]) + [] == [0, 0, 0];
    NothingSums(171);
  }

  lemma HighKeys()
    ensures var clear := HighClear();
      && Offset(FrameOctet(clear, 3)) == 20
      && SealedOctet(clear, 2) == 0xCE && SealedOctet(clear, 3) == 0x7C && SealedOctet(clear, 19) == 0x39
  {
    hide XorByte, Sum, FrameOctet, SealedOctet;
    var clear := HighClear();
    HighSum();
    NonceIs(clear, 4, 163);
    SerialIs(clear, 83, 69, 216);
    CheckIs(clear, 171, 146);
  }

  lemma HighOctets0()
    requires Offset(FrameOctet(HighClear(), 3)) == 20
    ensures var clear := HighClear();
      SealedOctet(clear, 0) == 0xFD && SealedOctet(clear, 1) == 0x94 && SealedOctet(clear, 4) == 0xC8
  {
    hide XorByte, Sum, FrameOctet, SealedOctet;
    var clear := HighClear();
    OctetIs(clear, 0, 31, 171, 73);
    OctetIs(clear, 1, 20, 224, 96);
    OctetIs(clear, 4, 0, 18, 218);
  }

  lemma HighOctets1()
    requires Offset(FrameOctet(HighClear(), 3)) == 20
    ensures var clear := HighClear();
      SealedOctet(clear, 5) == 0xC8 && SealedOctet(clear, 6) == 0xFB && SealedOctet(clear, 7) == 0x41
  {
    hide XorByte, Sum, FrameOctet, SealedOctet;
    var clear := HighClear();
    OctetIs(clear, 5, 0, 226, 42);
    OctetIs(clear, 6, 0, 168, 83);
    OctetIs(clear, 7, 0, 204, 141);
  }

  lemma HighOctets2()
    requires Offset(FrameOctet(HighClear(), 3)) == 20
    ensures var clear := HighClear();
      SealedOctet(clear, 8) == 0xA7 && SealedOctet(clear, 9) == 0x0B && SealedOctet(clear, 10) == 0xBB
  {
    hide XorByte, Sum, FrameOctet, SealedOctet;
    var clear := HighClear();
    OctetIs(clear, 8, 0, 83, 244);
    OctetIs(clear, 9, 0, 106, 97);
    OctetIs(clear, 10, 0, 163, 24);
  }

  lemma HighOctets3()
    requires Offset(FrameOctet(HighClear(), 3)) == 20
    ensures var clear := HighClear();
      SealedOctet(clear, 11) == 0x94 && SealedOctet(clear, 12) == 0x35 && SealedOctet(clear, 13) == 0xF3
  {
    hide XorByte, Sum, FrameOctet, SealedOctet;
    var clear := HighClear();
    OctetIs(clear, 11, 0, 43, 191);
    OctetIs(clear, 12, 0, 155, 174);
    OctetIs(clear, 13, 0, 36, 215);
  }

  lemma HighOctets4()
    requires Offset(FrameOctet(HighClear(), 3)) == 20
    ensures var clear := HighClear();
      SealedOctet(clear, 14) == 0xD5 && SealedOctet(clear, 15) == 0x0C && SealedOctet(clear, 16) == 0x35
  {
    hide XorByte, Sum, FrameOctet, SealedOctet;
    var clear := HighClear();
    OctetIs(clear, 14, 0, 186, 111);
    OctetIs(clear, 15, 0, 93, 81);
    OctetIs(clear, 16, 0, 209, 228);
  }

  lemma HighOctets5()
    requires Offset(FrameOctet(HighClear(), 3)) == 20
    ensures var clear := HighClear();
      SealedOctet(clear, 17) == 0xD2 && SealedOctet(clear, 18) == 0x34
  {
    hide XorByte, Sum, FrameOctet, SealedOctet;
    var clear := HighClear();
    OctetIs(clear, 17, 0, 114, 160);
    OctetIs(clear, 18, 0, 237, 217);
  }

  /** On the air: the same under the other half. */
  lemma HighOnAir()
    ensures Sealed(Clear(Packet(31, 0, [0, 0, 0, 0, 0, 0, 0, 0, 0, 0, 0, 0, 0, 0, 0]), 69)) == [0xFD, 0x94, 0xCE, 0x7C, 0xC8, 0xC8, 0xFB, 0x41, 0xA7, 0x0B, 0xBB, 0x94, 0x35, 0xF3, 0xD5, 0x0C, 0x35, 0xD2, 0x34, 0x39]
    ensures Parse([0xFD, 0x94, 0xCE, 0x7C, 0xC8, 0xC8, 0xFB, 0x41, 0xA7, 0x0B, 0xBB, 0x94, 0x35, 0xF3, 0xD5, 0x0C, 0x35, 0xD2, 0x34, 0x39]) == Some(Packet(31, 0, [0, 0, 0, 0, 0, 0, 0, 0, 0, 0, 0, 0, 0, 0, 0]))
  {
    hide SealedOctet, Parse, FrameOctet;
    HighKeys();
    HighOctets0();
    HighOctets1();
    HighOctets2();
    HighOctets3();
    HighOctets4();
    HighOctets5();
    assert Clear(Packet(31, 0, [0, 0, 0, 0, 0, 0, 0, 0, 0, 0, 0, 0, 0, 0, 0]), 69) == HighClear();
    ParseInvertsBuild(Packet(31, 0, [0, 0, 0, 0, 0, 0, 0, 0, 0, 0, 0, 0, 0, 0, 0]), 69);
  }
}
