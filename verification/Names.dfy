/** Game names: the UTF-8 filter, its packer counterpart and the query-string decoder
    (main/gb_name.c, tools/pack_roms.py). */
module Names {
  import opened Bytes

  // ----- The packer's view: which code points a name may hold, and how they are encoded.

  predicate AllowedCodepoint(cp: nat) {
    && !(cp < 0x20) && !(0x7F <= cp < 0xA0)
    && cp != 0x2F && cp != 0x5C
    && cp <= 0xFFFF && !(0xD800 <= cp <= 0xDFFF)
    && !(0x2000 <= cp <= 0x200F)
    && cp != 0x2028 && cp != 0x2029 && cp != 0xFEFF
  }

  /** The characters a name may hold, by intervals of code points: no controls, no slash or backslash, no
      invisible spaces and marks, no line separators, no surrogates, no byte order mark, nothing beyond the first
      plane. */
  lemma AllowedIntervals(cp: nat)
    ensures AllowedCodepoint(cp) <==>
      || 0x20 <= cp <= 0x2E || 0x30 <= cp <= 0x5B || 0x5D <= cp <= 0x7E || 0xA0 <= cp <= 0x1FFF || 0x2010 <= cp <= 0x2027
      || 0x202A <= cp <= 0xD7FF || 0xE000 <= cp <= 0xFEFE || 0xFF00 <= cp <= 0xFFFF
  {
  }

  /** RFC 3629, section 3. */
  function Utf8(cp: nat): seq<byte> {
    if cp < 0x80 then [cp]
    else if cp < 0x800 then [0xC0 + cp / 64, Tail(cp)]
    else if cp < 0x1_0000 then [0xE0 + cp / 4096, Tail(cp / 64), Tail(cp)]
    else [0xF0 + cp / 262144 % 8, Tail(cp / 4096), Tail(cp / 64), Tail(cp)]
  }

  function Tail(cp: nat): byte {
    0x80 + cp % 64
  }

  function Utf8All(cps: seq<nat>): seq<byte> {
    if cps == [] then [] else Utf8(cps[0]) + Utf8All(cps[1..])
  }

  /** The packer's encode_name: None stands for the ValueError. */
  function EncodeName(cps: seq<nat>): Option<seq<byte>> {
    var encoded := Utf8All(cps);
    if encoded == [] || |encoded| > 31 || exists i | 0 <= i < |cps| :: !AllowedCodepoint(cps[i])
    then None else Some(encoded)
  }

  // ----- The device's view: a byte scanner.

  /** How many continuation bytes the lead byte announces; None for a byte that cannot lead. */
  function Announced(first: byte): Option<nat> {
    if 0xC2 <= first <= 0xDF then Some(1)
    else if 0xE0 <= first <= 0xEF then Some(2)
    else if 0xF0 <= first <= 0xF4 then Some(3)
    else None
  }

  function LeadBits(first: byte): nat {
    if first <= 0xDF then first % 32
    else if first <= 0xEF then first % 16
    else first % 8
  }

  predicate Continues(b: byte) {
    b / 64 == 2
  }

  function Accumulate(acc: nat, tail: seq<byte>): nat
    decreases |tail|
  {
    if tail == [] then acc
    else Accumulate(acc, tail[..|tail| - 1]) * 64 + tail[|tail| - 1] % 64
  }

  predicate AcceptedMultibyte(remaining: nat, cp: nat) {
    !(|| (remaining == 1 && cp < 0x80) || (remaining == 2 && cp < 0x800) || (remaining == 3 && cp < 0x1_0000)
      || 0xD800 <= cp <= 0xDFFF || cp > 0xFFFF || cp == 0x2028 || cp == 0x2029 || cp == 0xFEFF
      || cp < 0xA0 || 0x2000 <= cp <= 0x200F)
  }

  /** Length of the accepted character that starts s, or 0. */
  function Accepted(s: seq<byte>): (n: nat)
    requires s != []
    ensures n <= |s|
  {
    if s[0] < 0x80 then
      if s[0] < 0x20 || s[0] == 0x7F || s[0] == 0x2F || s[0] == 0x5C then 0 else 1
    else match Announced(s[0])
      case None => 0
      case Some(k) =>
        if 1 + k > |s| || exists j | 1 <= j <= k :: !Continues(s[j]) then 0
        else if AcceptedMultibyte(k, Accumulate(LeadBits(s[0]), s[1..1 + k])) then 1 + k else 0
  }

  predicate Scans(s: seq<byte>) {
    s == [] || (Accepted(s) > 0 && Scans(s[Accepted(s)..]))
  }

  lemma ScansStep(s: seq<byte>)
    ensures s == [] ==> Scans(s)
    ensures s != [] ==> Scans(s) == (Accepted(s) > 0 && Scans(s[Accepted(s)..]))
  {
  }

  predicate NameValid(name: seq<byte>) {
    1 <= |name| < 32 && Scans(name)
  }

  /** The inner loop of gb_name_valid: fold `remaining` continuation bytes into the lead bits. */
  method ReadTail(name: CString, from: nat, remaining: nat, lead: nat) returns (r: Option<nat>)
    requires from + remaining <= |name|
    ensures r.Some? <==> forall k | from <= k < from + remaining :: Continues(name[k])
    ensures r.Some? ==> r.value == Accumulate(lead, name[from..from + remaining])
  {
    var codepoint: nat := lead;
    for j := 0 to remaining
      invariant forall k | from <= k < from + j :: Continues(name[k])
      invariant codepoint == Accumulate(lead, name[from..from + j])
    {
      var next := name[from + j];
      if next / 64 != 2 {
        return None;
      }
      assert name[from..from + j + 1][..j] == name[from..from + j];
      codepoint := codepoint * 64 + next % 64;
    }
    r := Some(codepoint);
  }

  lemma RestOf(name: seq<byte>, start: nat, n: nat)
    requires start + 1 + n <= |name|
    ensures name[start..][1..1 + n] == name[start + 1..start + 1 + n]
    ensures name[start..][1 + n..] == name[start + 1 + n..]
    ensures forall j | 0 <= j <= n :: name[start..][j] == name[start + j]
  {
  }

  /** gb_name_valid. */
  method GbNameValid(name: CString) returns (ok: bool)
    ensures ok <==> NameValid(name)
  {
    hide Scans;
    var length := 0;
    while length < 32 && length < |name|
      invariant 0 <= length <= 32 && length <= |name|
    {
      length := length + 1;
    }
    if length == 0 || length >= 32 {
      return false;
    }
    var i := 0;
    while i < length
      invariant 0 <= i <= length == |name|
      invariant Scans(name) == Scans(name[i..])
    {
      ScansStep(name[i..]);
      var start := i;
      var first := name[i];
      i := i + 1;
      if first < 0x80 {
        if first < 0x20 || first == 0x7F || first == 0x2F || first == 0x5C {
          return false;
        }
        RestOf(name, start, 0);
        continue;
      }
      var codepoint: nat, remaining: nat;
      if first >= 0xC2 && first <= 0xDF {
        codepoint, remaining := first % 32, 1;
      } else if first >= 0xE0 && first <= 0xEF {
        codepoint, remaining := first % 16, 2;
      } else if first >= 0xF0 && first <= 0xF4 {
        codepoint, remaining := first % 8, 3;
      } else {
        return false;
      }
      if i + remaining > length {
        return false;
      }
      var tail := ReadTail(name, i, remaining, codepoint);
      ghost var rest := name[start..];
      RestOf(name, start, remaining);
      if tail.None? {
        var k :| i <= k < i + remaining && !Continues(name[k]);
        assert !Continues(rest[k - start]);
        return false;
      }
      if !AcceptedMultibyte(remaining, tail.value) {
        return false;
      }
      AcceptsMultibyte(rest, remaining);
      i := i + remaining;
    }
    ScansStep(name[i..]);
    ok := true;
  }

  // ----- Agreement of the two views.

  lemma AccumulateOne(acc: nat, b: byte)
    ensures Accumulate(acc, [b]) == acc * 64 + b % 64
  {
    assert [b][..0] == [];
  }

  lemma AccumulateTwo(acc: nat, b: byte, c: byte)
    ensures Accumulate(acc, [b, c]) == (acc * 64 + b % 64) * 64 + c % 64
  {
    AccumulateOne(acc, b);
    assert [b, c][..1] == [b];
  }

  lemma DecodesTwo(cp: nat)
    requires 0x80 <= cp < 0x800
    ensures Announced(0xC0 + cp / 64) == Some(1) && Continues(Tail(cp))
    ensures LeadBits(0xC0 + cp / 64) * 64 + Tail(cp) % 64 == cp
  {
  }

  lemma DecodesThree(cp: nat)
    requires 0x800 <= cp < 0x1_0000
    ensures Announced(0xE0 + cp / 4096) == Some(2) && Continues(Tail(cp / 64)) && Continues(Tail(cp))
    ensures (LeadBits(0xE0 + cp / 4096) * 64 + Tail(cp / 64) % 64) * 64 + Tail(cp) % 64 == cp
  {
  }

  lemma EncodesTwo(a: byte, b: byte)
    requires Announced(a) == Some(1) && Continues(b)
    ensures Utf8(LeadBits(a) * 64 + b % 64) == [a, b]
  {
  }

  lemma EncodesThree(a: byte, b: byte, c: byte)
    requires Announced(a) == Some(2) && Continues(b) && Continues(c)
    requires (LeadBits(a) * 64 + b % 64) * 64 + c % 64 >= 0x800
    ensures Utf8((LeadBits(a) * 64 + b % 64) * 64 + c % 64) == [a, b, c]
  {
    var cp := (LeadBits(a) * 64 + b % 64) * 64 + c % 64;
    assert cp / 64 == LeadBits(a) * 64 + b % 64;
    assert cp / 4096 == LeadBits(a);
  }

  lemma AcceptsMultibyte(s: seq<byte>, k: nat)
    requires s != [] && s[0] >= 0x80 && Announced(s[0]) == Some(k) && 1 + k <= |s|
    requires forall j | 1 <= j <= k :: Continues(s[j])
    requires AcceptedMultibyte(k, Accumulate(LeadBits(s[0]), s[1..1 + k]))
    ensures Accepted(s) == 1 + k
  {
  }

  /** An allowed code point is accepted whatever follows its encoding. */
  lemma EncodedIsAccepted(cp: nat, rest: seq<byte>)
    requires AllowedCodepoint(cp)
    ensures var s := Utf8(cp) + rest;
      s != [] && Accepted(s) == |Utf8(cp)| && s[Accepted(s)..] == rest && 0 !in Utf8(cp)
  {
    var e := Utf8(cp);
    var s := e + rest;
    if cp < 0x80 {
    } else if cp < 0x800 {
      DecodesTwo(cp);
      AccumulateOne(LeadBits(e[0]), e[1]);
      assert s[1..2] == [e[1]];
      AcceptsMultibyte(s, 1);
    } else {
      DecodesThree(cp);
      AccumulateTwo(LeadBits(e[0]), e[1], e[2]);
      assert s[1..3] == [e[1], e[2]];
      AcceptsMultibyte(s, 2);
    }
  }

  lemma {:induction false} EncodedScans(cps: seq<nat>)
    requires forall i | 0 <= i < |cps| :: AllowedCodepoint(cps[i])
    ensures Scans(Utf8All(cps)) && 0 !in Utf8All(cps)
  {
    hide Accepted, Utf8, AllowedCodepoint;
    if cps != [] {
      EncodedIsAccepted(cps[0], Utf8All(cps[1..]));
      EncodedScans(cps[1..]);
    }
  }

  /** The code point a scanned character stands for. */
  function Decoded(s: seq<byte>): nat
    requires s != [] && Accepted(s) > 0
  {
    if s[0] < 0x80 then s[0]
    else Accumulate(LeadBits(s[0]), s[1..1 + Announced(s[0]).value])
  }

  lemma AcceptedIsEncoded(s: seq<byte>)
    requires s != [] && Accepted(s) > 0
    ensures AllowedCodepoint(Decoded(s)) && Utf8(Decoded(s)) == s[..Accepted(s)]
  {
    if s[0] >= 0x80 {
      assert Continues(s[1]);
      if Announced(s[0]) == Some(1) {
        assert s[1..2] == [s[1]];
        AccumulateOne(LeadBits(s[0]), s[1]);
        EncodesTwo(s[0], s[1]);
      } else if Announced(s[0]) == Some(2) {
        assert s[1..3] == [s[1], s[2]];
        AccumulateTwo(LeadBits(s[0]), s[1], s[2]);
        assert Continues(s[2]);
        EncodesThree(s[0], s[1], s[2]);
      }
    }
  }

  function DecodeAll(s: seq<byte>): seq<nat>
    requires Scans(s)
  {
    if s == [] then [] else [Decoded(s)] + DecodeAll(s[Accepted(s)..])
  }

  lemma {:induction false} ScannedIsEncoded(s: seq<byte>)
    requires Scans(s)
    ensures Utf8All(DecodeAll(s)) == s
    ensures forall i | 0 <= i < |DecodeAll(s)| :: AllowedCodepoint(DecodeAll(s)[i])
  {
    hide Accepted, Decoded, Utf8, AllowedCodepoint;
    if s != [] {
      AcceptedIsEncoded(s);
      var rest := s[Accepted(s)..];
      ScannedIsEncoded(rest);
      assert DecodeAll(s)[1..] == DecodeAll(rest);
      assert s == s[..Accepted(s)] + rest;
    }
  }

  /** The device accepts exactly the byte strings the packer can produce. */
  lemma ValidExactlyWhenEncodable(name: seq<byte>)
    ensures NameValid(name) <==> exists cps :: EncodeName(cps) == Some(name)
    ensures NameValid(name) ==> 0 !in name
  {
    if NameValid(name) {
      ScannedIsEncoded(name);
      EncodedScans(DecodeAll(name));
      assert EncodeName(DecodeAll(name)) == Some(name);
    }
    if cps :| EncodeName(cps) == Some(name) {
      EncodedScans(cps);
    }
  }

  // ----- Query strings.

  function HexDigit(c: byte): (d: Option<byte>)
    ensures d.Some? ==> d.value < 16
  {
    if 0x30 <= c <= 0x39 then Some(c - 0x30)
    else if 0x41 <= c <= 0x46 then Some(c - 0x41 + 10)
    else if 0x61 <= c <= 0x66 then Some(c - 0x61 + 10)
    else None
  }

  const PERCENT: byte := 0x25
  const PLUS: byte := 0x2B
  const SPACE: byte := 0x20

  /** RFC 3986, section 2.1, with the form convention '+' for a space: e spells exactly the octets of n. */
  ghost predicate Spells(e: seq<byte>, n: seq<byte>)
    decreases |n|
  {
    if n == [] then e == []
    else
      || (e != [] && e[0] == n[0] && e[0] != PERCENT && e[0] != PLUS && Spells(e[1..], n[1..]))
      || (e != [] && e[0] == PLUS && n[0] == SPACE && Spells(e[1..], n[1..]))
      || (|e| >= 3 && e[0] == PERCENT && HexDigit(e[1]).Some? && HexDigit(e[2]).Some?
          && n[0] == HexDigit(e[1]).value * 16 + HexDigit(e[2]).value && Spells(e[3..], n[1..]))
  }

  const UPPER_DIGITS: string := "0123456789ABCDEF"
  const LOWER_DIGITS: string := "0123456789abcdef"

  function DigitOf(d: nat, lower: bool): (c: byte)
    requires d < 16
    ensures 0x30 <= c <= 0x66
  {
    (if lower then LOWER_DIGITS else UPPER_DIGITS)[d] as int
  }

  lemma DigitsAreRead(c: byte, d: nat)
    requires d < 16
    ensures HexDigit(c) == Some(d) <==> c == DigitOf(d, false) || c == DigitOf(d, true)
  {
  }

  /** What a browser sends for these octets: letters and digits as they are, a space as a plus if it likes, and the
      rest in hexadecimal of either case. */
  function Escaped(n: seq<byte>, lower: bool, plus: bool): (e: CString) {
    if n == [] then []
    else
      var rest := Escaped(n[1..], lower, plus);
      if 0x30 <= n[0] <= 0x39 || 0x41 <= n[0] <= 0x5A || 0x61 <= n[0] <= 0x7A then [n[0]] + rest
      else if n[0] == 0x20 && plus then [0x2B] + rest
      else [0x25, DigitOf(n[0] / 16, lower), DigitOf(n[0] % 16, lower)] + rest
  }

  /** The octets arrive, whatever they are and however they were escaped. */
  lemma {:induction false} EscapedSpells(n: seq<byte>, lower: bool, plus: bool)
    ensures Spells(Escaped(n, lower, plus), n)
    decreases |n|
  {
    if n != [] {
      EscapedSpells(n[1..], lower, plus);
      DigitsAreRead(DigitOf(n[0] / 16, lower), n[0] / 16);
      DigitsAreRead(DigitOf(n[0] % 16, lower), n[0] % 16);
      hide HexDigit, DigitOf;
      var e, rest := Escaped(n, lower, plus), Escaped(n[1..], lower, plus);
      assert e[0] == 0x25 ==> e[3..] == rest;
      assert e[0] != 0x25 ==> e[1..] == rest;
    }
  }

  lemma {:induction false} SpellsExtends(e: seq<byte>, n: seq<byte>, e': seq<byte>, n': seq<byte>)
    requires Spells(e, n)
    ensures Spells(e + e', n + n') <==> Spells(e', n')
    decreases |n|
  {
    if n == [] {
      assert e + e' == e' && n + n' == n';
    } else {
      var k := if e[0] == PERCENT then 3 else 1;
      SpellsExtends(e[k..], n[1..], e', n');
      assert (e + e')[k..] == e[k..] + e';
      assert (n + n')[1..] == n[1..] + n';
    }
  }

  lemma SpellsNothing()
    ensures Spells([], [])
  {
  }

  lemma SpellsOne(e: seq<byte>, value: byte)
    requires |e| == 1 ==> e[0] != PERCENT && value == if e[0] == PLUS then SPACE else e[0]
    requires |e| == 3 ==> e[0] == PERCENT && HexDigit(e[1]).Some? && HexDigit(e[2]).Some?
                          && value == HexDigit(e[1]).value * 16 + HexDigit(e[2]).value
    requires |e| == 1 || |e| == 3
    ensures Spells(e, [value])
  {
    assert e[|e|..] == [];
  }

  /** A string spells at most one octet sequence. */
  lemma {:induction false} SpellsUnique(e: seq<byte>, n: seq<byte>, n': seq<byte>)
    requires Spells(e, n) && Spells(e, n')
    ensures n == n'
    decreases |n|
  {
    if n != [] && n' != [] {
      var k := if e[0] == PERCENT then 3 else 1;
      SpellsUnique(e[k..], n[1..], n'[1..]);
    }
  }

  /** gb_name_url_decode: it returns the octets spelt by the input, exactly when they form a valid
      name that fits the output buffer with its terminator. */
  method GbNameUrlDecode(encoded: CString, outputSize: nat) returns (r: Option<seq<byte>>)
    ensures forall n :: r == Some(n) <==>
      outputSize >= 2 && Spells(encoded, n) && NameValid(n) && |n| < outputSize
  {
    hide Spells, HexDigit, NameValid;
    if outputSize < 2 {
      return None;
    }
    var output: seq<byte> := [];
    SpellsNothing();
    var i := 0;
    while i < |encoded|
      invariant 0 <= i <= |encoded| && |output| < outputSize
      invariant Spells(encoded[..i], output) && 0 !in output
    {
      var start := i;
      ghost var left := encoded[start..];
      assert encoded == encoded[..start] + left;
      var value := encoded[i];
      if value == PERCENT {
        i := i + 1;
        if i >= |encoded| || HexDigit(encoded[i]).None? || i + 1 >= |encoded| {
          NoSpelling(encoded, start, output);
          return None;
        }
        var high := HexDigit(encoded[i]).value;
        i := i + 1;
        if HexDigit(encoded[i]).None? {
          NoSpelling(encoded, start, output);
          return None;
        }
        value := high * 16 + HexDigit(encoded[i]).value;
        SpellsOne(left[..3], value);
      } else if value == PLUS {
        value := SPACE;
        SpellsOne(left[..1], SPACE);
      } else {
        SpellsOne(left[..1], value);
      }
      i := i + 1;
      SpellsExtends(encoded[..start], output, encoded[start..i], [value]);
      assert encoded[..start] + encoded[start..i] == encoded[..i];
      assert encoded[start..i] == left[..i - start];
      if value == 0 || |output| + 1 >= outputSize {
        PrefixBounds(encoded, i, output + [value]);
        return None;
      }
      output := output + [value];
    }
    assert encoded[..i] == encoded;
    var ok := GbNameValid(output);
    r := if ok then Some(output) else None;
    forall n | Spells(encoded, n) ensures n == output {
      SpellsUnique(encoded, n, output);
    }
  }

  /** A spelling splits at any point where one of its prefixes has been spelt. */
  lemma {:induction false} SpellsSplits(e: seq<byte>, m: seq<byte>, e': seq<byte>, n: seq<byte>)
    requires Spells(e, m) && Spells(e + e', n)
    ensures |m| <= |n| && n[..|m|] == m && Spells(e', n[|m|..])
    decreases |m|
  {
    if m == [] {
      assert e + e' == e' && n[0..] == n;
    } else {
      var k := if e[0] == PERCENT then 3 else 1;
      assert (e + e')[k..] == e[k..] + e';
      SpellsSplits(e[k..], m[1..], e', n[1..]);
      assert n[1..][|m| - 1..] == n[|m|..];
      assert n == [n[0]] + n[1..];
    }
  }

  /** A malformed escape after a well-spelt prefix leaves nothing spelt. */
  lemma NoSpelling(e: CString, at: nat, output: seq<byte>)
    requires at < |e| && Spells(e[..at], output) && e[at] == PERCENT
    requires at + 2 >= |e| || HexDigit(e[at + 1]).None? || HexDigit(e[at + 2]).None?
    ensures forall n :: !Spells(e, n)
  {
    forall n ensures !Spells(e, n) {
      if Spells(e, n) {
        assert e == e[..at] + e[at..];
        SpellsSplits(e[..at], output, e[at..], n);
      }
    }
  }

  /** Whatever a string spells starts with what its prefix spells. */
  lemma PrefixBounds(e: CString, at: nat, output: seq<byte>)
    requires at <= |e| && Spells(e[..at], output)
    ensures forall n :: Spells(e, n) ==> |output| <= |n| && n[..|output|] == output
    ensures 0 in output ==> forall n :: Spells(e, n) ==> !NameValid(n)
  {
    forall n | Spells(e, n)
      ensures |output| <= |n| && n[..|output|] == output
      ensures 0 in output ==> !NameValid(n)
    {
      assert e == e[..at] + e[at..];
      SpellsSplits(e[..at], output, e[at..], n);
      ValidExactlyWhenEncodable(n);
      assert 0 in output ==> 0 in n[..|output|];
    }
  }
}
