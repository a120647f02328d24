/** Byte strings, little-endian integers and UTF-8, as the kernel codec sees them. */
module Bytes {

  newtype byte = x: int | 0 <= x < 256

  type Bytes = seq<byte>

  type U8 = x: nat | x < 0x100
  type U16 = x: nat | x < 0x1_0000
  type U32 = x: nat | x < 0x1_0000_0000
  type U64 = x: nat | x < 0x1_0000_0000_0000_0000

  function Pow256(n: nat): (p: nat)
    ensures p > 0
  {
    if n == 0 then 1 else 256 * Pow256(n - 1)
  }

  /** The n low-order bytes of v, least significant first: Rust's `to_le_bytes` after an `as uN` cast. */
  function Le(v: nat, n: nat): (s: Bytes)
    ensures |s| == n
  {
    if n == 0 then [] else [(v % 256) as byte] + Le(v / 256, n - 1)
  }

  /** Rust's `from_le_bytes`. */
  function FromLe(s: Bytes): (v: nat)
    ensures v < Pow256(|s|)
  {
    if s == [] then 0 else s[0] as nat + 256 * FromLe(s[1..])
  }

  lemma {:induction false} FromLeOfLe(v: nat, n: nat)
    requires v < Pow256(n)
    ensures FromLe(Le(v, n)) == v
  {
    if n == 0 {
    } else {
      assert Le(v, n)[1..] == Le(v / 256, n - 1);
      FromLeOfLe(v / 256, n - 1);
    }
  }

  lemma {:induction false} LeOfFromLe(s: Bytes)
    ensures Le(FromLe(s), |s|) == s
  {
    if s == [] {
    } else {
      var low, high := s[0] as nat, FromLe(s[1..]);
      LowAndHigh(low, high);
      LeOfFromLe(s[1..]);
      hide Pow256;
      assert Le(low + 256 * high, |s|) == [s[0]] + Le(high, |s| - 1);
    }
  }

  lemma LowAndHigh(low: nat, high: nat)
    requires low < 256
    ensures (low + 256 * high) % 256 == low && (low + 256 * high) / 256 == high
  {
  }

  /** Well-formed UTF-8 (Table 3-7 of the Unicode standard), what `core::str::from_utf8` accepts. */
  predicate Utf8(s: Bytes)
    decreases |s|
  {
    if s == [] then true
    else if s[0] < 0x80 then Utf8(s[1..])
    else if 0xC2 <= s[0] <= 0xDF then |s| >= 2 && Tail(s[1]) && Utf8(s[2..])
    else if 0xE0 <= s[0] <= 0xEF then
      |s| >= 3 && Tail(s[1]) && Tail(s[2])
      && (s[0] == 0xE0 ==> s[1] >= 0xA0) && (s[0] == 0xED ==> s[1] <= 0x9F)
      && Utf8(s[3..])
    else if 0xF0 <= s[0] <= 0xF4 then
      |s| >= 4 && Tail(s[1]) && Tail(s[2]) && Tail(s[3])
      && (s[0] == 0xF0 ==> s[1] >= 0x90) && (s[0] == 0xF4 ==> s[1] <= 0x8F)
      && Utf8(s[4..])
    else false
  }

  predicate Tail(b: byte) {
    0x80 <= b <= 0xBF
  }

  /** s stands in b at position off. */
  predicate At(b: Bytes, off: nat, s: Bytes) {
    off + |s| <= |b| && b[off..off + |s|] == s
  }

  lemma AtConcat(b: Bytes, off: nat, x: Bytes, y: Bytes)
    ensures At(b, off, x + y) <==> At(b, off, x) && At(b, off + |x|, y)
    ensures At(b, off, x) ==> off + |x| <= |b|
  {
    if off + |x| + |y| <= |b| {
      assert b[off..off + |x + y|] == b[off..off + |x|] + b[off + |x|..off + |x| + |y|];
      assert b[off..off + |x + y|][..|x|] == b[off..off + |x|];
      assert b[off..off + |x + y|][|x|..] == b[off + |x|..off + |x| + |y|];
      assert (x + y)[..|x|] == x && (x + y)[|x|..] == y;
    }
  }

  /** A little-endian integer of n bytes stands at off exactly when those bytes decode to it. */
  lemma LeAt(b: Bytes, off: nat, n: nat, v: nat)
    requires v < Pow256(n)
    ensures At(b, off, Le(v, n)) <==> off + n <= |b| && FromLe(b[off..off + n]) == v
  {
    if off + n <= |b| {
      LeOfFromLe(b[off..off + n]);
      FromLeOfLe(v, n);
    }
  }
}
