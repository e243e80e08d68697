/** Byte strings and the fixed-width integers that the formats store in them. */
module Bytes {

  type byte = x: int | 0 <= x < 0x100
  type u16 = x: int | 0 <= x < 0x1_0000
  type u32 = x: int | 0 <= x < 0x1_0000_0000

  const TWO16 := 0x1_0000
  const TWO32 := 0x1_0000_0000

  // Numbers in base 256, most significant digit first.

  function Digits(v: nat, n: nat): (s: seq<byte>)
    ensures |s| == n
  {
    if n == 0 then [] else Digits(v / 0x100, n - 1) + [v % 0x100]
  }

  function Value(s: seq<byte>): (v: nat)
    ensures v < Pow256(|s|)
  {
    if s == [] then 0 else 0x100 * Value(s[..|s| - 1]) + s[|s| - 1]
  }

  function Pow256(n: nat): nat {
    if n == 0 then 1 else 0x100 * Pow256(n - 1)
  }

  /** Reading what was written. */
  lemma {:induction false} ValueOfDigits(v: nat, n: nat)
    requires v < Pow256(n)
    ensures Value(Digits(v, n)) == v
  {
    if n > 0 {
      ValueOfDigits(v / 0x100, n - 1);
      assert Digits(v, n)[..n - 1] == Digits(v / 0x100, n - 1);
    }
  }

  /** Writing back what was read. */
  lemma {:induction false} DigitsOfValue(s: seq<byte>)
    ensures Digits(Value(s), |s|) == s
  {
    if s != [] {
      DigitsOfValue(s[..|s| - 1]);
    }
  }

  // Python's `struct` codes: ">H", ">I" and "<I".

  function Be16(v: u16): (s: seq<byte>)
    ensures |s| == 2
  {
    Digits(v, 2)
  }

  function Be32(v: u32): (s: seq<byte>)
    ensures |s| == 4
  {
    Digits(v, 4)
  }

  function Le32(v: u32): (s: seq<byte>)
    ensures |s| == 4
  {
    Swapped(Digits(v, 4))
  }

  function Swapped(s: seq<byte>): (r: seq<byte>)
    requires |s| == 4
    ensures |r| == 4
  {
    [s[3], s[2], s[1], s[0]]
  }

  function U16At(s: seq<byte>, i: nat): u16
    requires i + 2 <= |s|
  {
    assert Pow256(2) == TWO16;
    Value(s[i..i + 2])
  }

  function U32At(s: seq<byte>, i: nat): u32
    requires i + 4 <= |s|
  {
    assert Pow256(4) == TWO32;
    Value(s[i..i + 4])
  }

  function LeU32At(s: seq<byte>, i: nat): u32
    requires i + 4 <= |s|
  {
    assert Pow256(4) == TWO32;
    Value(Swapped(s[i..i + 4]))
  }

  lemma WordRoundTrip(v: u32)
    ensures Value(Be32(v)) == v && Value(Swapped(Le32(v))) == v
  {
    assert Pow256(4) == TWO32;
    ValueOfDigits(v, 4);
    assert Swapped(Le32(v)) == Be32(v);
  }

  lemma HalfWordRoundTrip(v: u16)
    ensures Value(Be16(v)) == v
  {
    assert Pow256(2) == TWO16;
    ValueOfDigits(v, 2);
  }

  lemma WordRewrite(s: seq<byte>, i: nat)
    requires i + 4 <= |s|
    ensures Be32(U32At(s, i)) == s[i..i + 4]
  {
    DigitsOfValue(s[i..i + 4]);
  }

  lemma HalfWordRewrite(s: seq<byte>, i: nat)
    requires i + 2 <= |s|
    ensures Be16(U16At(s, i)) == s[i..i + 2]
  {
    DigitsOfValue(s[i..i + 2]);
  }

  /** The sum of the bytes; Python's `sum`. */
  function Sum(s: seq<byte>): nat {
    if s == [] then 0 else s[0] + Sum(s[1..])
  }

  lemma {:induction false} SumAppend(a: seq<byte>, b: seq<byte>)
    ensures Sum(a + b) == Sum(a) + Sum(b)
  {
    if a == [] {
      assert a + b == b;
    } else {
      SumAppend(a[1..], b);
      assert (a + b)[1..] == a[1..] + b;
    }
  }

  /** `s` with the bytes at `at` replaced by `patch`. */
  function Splice(s: seq<byte>, at: nat, patch: seq<byte>): (r: seq<byte>)
    requires at + |patch| <= |s|
    ensures |r| == |s|
  {
    s[..at] + patch + s[at + |patch|..]
  }

  lemma SpliceAt(s: seq<byte>, at: nat, patch: seq<byte>)
    requires at + |patch| <= |s|
    ensures Splice(s, at, patch)[at..at + |patch|] == patch
    ensures forall i :: 0 <= i < at || at + |patch| <= i < |s| ==> Splice(s, at, patch)[i] == s[i]
  {
  }

  function Zeros(n: nat): (z: seq<byte>)
    ensures |z| == n && forall i :: 0 <= i < n ==> z[i] == 0
  {
    seq(n, i => 0)
  }

  /** The bytes before the first zero, or all. */
  function BeforeZero(s: seq<byte>): (r: seq<byte>)
    ensures r <= s && (forall i :: 0 <= i < |r| ==> r[i] != 0) && (|r| < |s| ==> s[|r|] == 0)
  {
    if s == [] || s[0] == 0 then [] else [s[0]] + BeforeZero(s[1..])
  }

  /** Equal bytes on the window [lo, hi). */
  ghost predicate Agree(s: seq<byte>, t: seq<byte>, lo: int, hi: int) {
    |s| == |t| && forall i :: lo <= i < hi && 0 <= i < |s| ==> s[i] == t[i]
  }

  // Bitwise exclusive or, by bits, so that it works on numbers of any width.

  function Xor(a: nat, b: nat): nat {
    if a == 0 && b == 0 then 0
    else 2 * Xor(a / 2, b / 2) + (if a % 2 == b % 2 then 0 else 1)
  }

  lemma {:induction false} XorBound(a: nat, b: nat, n: nat)
    requires a < Pow2(n) && b < Pow2(n)
    ensures Xor(a, b) < Pow2(n)
  {
    if !(a == 0 && b == 0) {
      XorBound(a / 2, b / 2, n - 1);
    }
  }

  function Pow2(n: nat): (p: nat)
    ensures p >= 1
  {
    if n == 0 then 1 else 2 * Pow2(n - 1)
  }

  lemma {:induction false} XorLaws(a: nat, b: nat)
    ensures Xor(a, 0) == a && Xor(a, a) == 0
    ensures Xor(a, b) == Xor(b, a)
    decreases a + b
  {
    if a + b != 0 {
      XorLaws(a / 2, b / 2);
    }
  }

  lemma {:induction false} XorAssociative(a: nat, b: nat, c: nat)
    ensures Xor(Xor(a, b), c) == Xor(a, Xor(b, c))
    decreases a + b + c
  {
    if a + b + c != 0 {
      XorAssociative(a / 2, b / 2, c / 2);
      XorHalves(a, b);
      XorHalves(b, c);
      XorHalves(Xor(a, b), c);
      XorHalves(a, Xor(b, c));
    }
  }

  lemma XorHalves(a: nat, b: nat)
    ensures Xor(a, b) / 2 == Xor(a / 2, b / 2)
    ensures Xor(a, b) % 2 == if a % 2 == b % 2 then 0 else 1
  {
  }

  function XorByte(a: byte, b: byte): (r: byte)
    ensures r == Xor(a, b)
  {
    assert Xor(a, b) < 0x100 by {
      assert Pow2(8) == 0x100;
      XorBound(a, b, 8);
    }
    Xor(a, b)
  }

  function XorWord(a: u32, b: u32): (r: u32)
    ensures r == Xor(a, b)
  {
    assert Xor(a, b) < TWO32 by {
      Pow32();
      XorBound(a, b, 32);
    }
    Xor(a, b)
  }

  lemma Pow32()
    ensures Pow2(32) == TWO32
  {
    assert Pow2(8) == 0x100;
    assert Pow2(16) == 0x1_0000;
    assert Pow2(24) == 0x100_0000;
  }

  /** XOR-ing twice by the same value cancels. */
  lemma XorCancels(a: nat, b: nat)
    ensures Xor(Xor(a, b), b) == a
  {
    XorAssociative(a, b, b);
    XorLaws(b, b);
    XorLaws(a, 0);
  }
}
