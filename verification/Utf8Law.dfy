/** The UTF-8 check against the definition of the encoding form (section 3 of RFC 3629). */
module Utf8Law {
  import opened Bytes

  /** A code point that is no surrogate. */
  predicate Scalar(c: nat) {
    c < 0xD800 || 0xE000 <= c <= 0x10FFFF
  }

  function Encoded(c: nat): Bytes
    requires Scalar(c)
  {
    if c < 0x80 then [c as byte]
    else if c < 0x800 then [(0xC0 + c / 64) as byte, (0x80 + c % 64) as byte]
    else if c < 0x1_0000 then
      [(0xE0 + c / 4096) as byte, (0x80 + c / 64 % 64) as byte, (0x80 + c % 64) as byte]
    else
      [(0xF0 + c / 262144) as byte, (0x80 + c / 4096 % 64) as byte, (0x80 + c / 64 % 64) as byte,
       (0x80 + c % 64) as byte]
  }

  predicate AllScalar(cs: seq<nat>) {
    forall c <- cs :: Scalar(c)
  }

  function AllEncoded(cs: seq<nat>): Bytes
    requires AllScalar(cs)
  {
    if cs == [] then [] else Encoded(cs[0]) + AllEncoded(cs[1..])
  }

  /** What follows an encoded code point is well formed if and only if the whole is. */
  lemma EncodedFirst(c: nat, rest: Bytes)
    requires Scalar(c)
    ensures Utf8(Encoded(c) + rest) <==> Utf8(rest)
  {
    var s := Encoded(c) + rest;
    assert s[|Encoded(c)|..] == rest;
    if c < 0x80 {
    } else if c < 0x800 {
      assert 0xC2 <= s[0] <= 0xDF;
    } else if c < 0x1_0000 {
      ThreeBytes(c);
      assert 0xE0 <= s[0] <= 0xEF;
    } else {
      FourBytes(c);
      assert 0xF0 <= s[0] <= 0xF4;
    }
  }

  lemma ThreeBytes(c: nat)
    requires 0x800 <= c < 0x1_0000 && Scalar(c)
    ensures c / 4096 <= 15 && (c / 4096 == 0 ==> c / 64 % 64 >= 0x20) && (c / 4096 == 13 ==> c / 64 % 64 <= 0x1F)
  {
    assert c / 64 == 64 * (c / 4096) + c / 64 % 64;
  }

  lemma FourBytes(c: nat)
    requires 0x1_0000 <= c <= 0x10FFFF
    ensures c / 262144 <= 4
    ensures (c / 262144 == 0 ==> c / 4096 % 64 >= 0x10) && (c / 262144 == 4 ==> c / 4096 % 64 <= 0x0F)
  {
    assert c / 4096 == 64 * (c / 262144) + c / 4096 % 64;
  }

  lemma {:induction false} EncodedIsUtf8(cs: seq<nat>)
    requires AllScalar(cs)
    ensures Utf8(AllEncoded(cs))
  {
    if cs != [] {
      EncodedIsUtf8(cs[1..]);
      EncodedFirst(cs[0], AllEncoded(cs[1..]));
    }
  }

  /** The code point well-formed bytes begin with. */
  lemma FirstCode(s: Bytes) returns (c: nat)
    requires Utf8(s) && s != []
    ensures Scalar(c) && Encoded(c) <= s
  {
    var b := s[0] as nat;
    if b < 0x80 {
      c := b;
    } else if b <= 0xDF {
      c := (b - 0xC0) * 64 + (s[1] as nat - 0x80);
      TwoBack(b - 0xC0, s[1] as nat - 0x80);
    } else if b <= 0xEF {
      c := FromThree(b - 0xE0, s[1] as nat - 0x80, s[2] as nat - 0x80);
      assert Encoded(c) == s[..3];
    } else {
      c := FromFour(b - 0xF0, s[1] as nat - 0x80, s[2] as nat - 0x80, s[3] as nat - 0x80);
      assert Encoded(c) == s[..4];
    }
  }

  lemma FromThree(x: nat, y: nat, z: nat) returns (c: nat)
    requires x < 16 && y < 64 && z < 64 && (x == 0 ==> y >= 0x20) && (x == 13 ==> y <= 0x1F)
    ensures 0x800 <= c < 0x1_0000 && Scalar(c)
    ensures c / 4096 == x && c / 64 % 64 == y && c % 64 == z
  {
    c := (x * 64 + y) * 64 + z;
    TwoBack(x, y);
    TwoBack(x * 64 + y, z);
    assert c / 4096 == c / 64 / 64;
  }

  lemma FromFour(w: nat, x: nat, y: nat, z: nat) returns (c: nat)
    requires w < 5 && x < 64 && y < 64 && z < 64 && (w == 0 ==> x >= 0x10) && (w == 4 ==> x <= 0x0F)
    ensures 0x1_0000 <= c <= 0x10FFFF
    ensures c / 262144 == w && c / 4096 % 64 == x && c / 64 % 64 == y && c % 64 == z
  {
    c := ((w * 64 + x) * 64 + y) * 64 + z;
    TwoBack(w, x);
    TwoBack(w * 64 + x, y);
    TwoBack((w * 64 + x) * 64 + y, z);
    assert c / 4096 == c / 64 / 64 && c / 262144 == c / 64 / 64 / 64;
  }

  lemma TwoBack(high: nat, low: nat)
    requires low < 64
    ensures (high * 64 + low) / 64 == high && (high * 64 + low) % 64 == low
  {
  }

  lemma {:induction false} Utf8IsEncoded(s: Bytes) returns (cs: seq<nat>)
    requires Utf8(s)
    ensures AllScalar(cs) && AllEncoded(cs) == s
    decreases |s|
  {
    if s == [] {
      cs := [];
    } else {
      var c := FirstCode(s);
      var rest := s[|Encoded(c)|..];
      assert s == Encoded(c) + rest;
      EncodedFirst(c, rest);
      var more := Utf8IsEncoded(rest);
      cs := [c] + more;
      assert cs[1..] == more;
    }
  }

  /** Bytes pass the check if and only if they are the encoding of some code points. */
  lemma Utf8Iff(s: Bytes)
    ensures Utf8(s) <==> exists cs :: AllScalar(cs) && AllEncoded(cs) == s
  {
    if Utf8(s) {
      var cs := Utf8IsEncoded(s);
    }
    if cs :| AllScalar(cs) && AllEncoded(cs) == s { EncodedIsUtf8(cs); }
  }
}
