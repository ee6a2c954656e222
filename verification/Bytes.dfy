/** Vocabulary shared by every component: octets, C strings, wrapping 32-bit counters. */
module Bytes {
  /** An octet as a number; the C masks and shifts on it become division and remainder by powers of two. */
  type byte = x: int | 0 <= x < 256

  /** The characters of a NUL-terminated C string, without the terminator. */
  type CString = s: seq<byte> | 0 !in s

  /** The C string in a buffer. */
  function UpToNul(s: seq<byte>): (r: CString) {
    if s == [] || s[0] == 0 then [] else [s[0]] + UpToNul(s[1..])
  }

  function Zeros(n: nat): (z: seq<byte>)
    ensures |z| == n && forall i | 0 <= i < n :: z[i] == 0
  {
    seq(n, _ => 0)
  }

  type u32 = x: int | 0 <= x < 0x1_0000_0000

  datatype Option<+T> = None | Some(value: T)

  /** Assignment to a uint32_t keeps the value modulo 2^32. */
  function Wrap(x: int): u32 {
    x % 0x1_0000_0000
  }

  /** The C test `(int32_t)(a - b) > 0` on two uint32_t values. */
  predicate Newer(a: u32, b: u32) {
    0 < Wrap(a - b) < 0x8000_0000
  }

  /** The C test `(int32_t)(now - deadline) >= 0` on two uint32_t values. */
  predicate Due(now: u32, deadline: u32) {
    Wrap(now - deadline) < 0x8000_0000
  }

  function Pow2(bits: nat): (r: nat)
    ensures r >= 1
  {
    if bits == 0 then 1 else 2 * Pow2(bits - 1)
  }

  lemma EightBits()
    ensures Pow2(8) == 256
  {
    assert Pow2(4) == 16;
  }

  /** The exclusive or of the n low bits. */
  function XorBits(a: nat, b: nat, n: nat): (r: nat)
    ensures r < Pow2(n)
  {
    if n == 0 then 0 else (if a % 2 == b % 2 then 0 else 1) + 2 * XorBits(a / 2, b / 2, n - 1)
  }

  function XorByte(a: byte, b: byte): byte {
    EightBits();
    XorBits(a, b, 8)
  }

  function Difference(x: seq<byte>, y: seq<byte>): (d: seq<byte>)
    requires |x| == |y|
    ensures |d| == |x|
  {
    seq(|x|, i requires 0 <= i < |x| => XorByte(x[i], y[i]))
  }

  lemma WrapAdds(a: int, b: int)
    ensures Wrap(Wrap(a) + b) == Wrap(a + b)
  {
  }

  /** A wrapping counter comes back to a value only after 2^32 steps. */
  lemma WrapMoves(a: u32, k: int)
    requires 0 < k < 0x1_0000_0000
    ensures Wrap(a + k) != a
  {
  }
}
