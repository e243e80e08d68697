/** The profile checksums: firmware/cfgfmt.py. */
module CfgChecksum {
  import opened Bytes

  const ONES := 0xFFFF

  /** The sum of the big-endian pairs; an odd tail adds a low byte. */
  function PairSum(data: seq<byte>): nat {
    if data == [] then 0
    else if |data| == 1 then data[0]
    else data[0] * 0x100 + data[1] + PairSum(data[2..])
  }

  /** The end-around fold of a sum: its remainder modulo 65535, with 65535 for the nonzero multiples. */
  function Folded(n: nat): (f: u16)
    ensures f % ONES == n % ONES
    ensures f == 0 <==> n == 0
  {
    if n == 0 then 0 else (n - 1) % ONES + 1
  }

  function InternetChecksum(data: seq<byte>): u16 {
    ONES - Folded(PairSum(data))
  }

  /** `while s >> 16: s = (s >> 16) + (s & 0xFFFF)`. */
  method Fold(sum: nat) returns (s: u16)
    ensures s == Folded(sum)
  {
    var n: nat := sum;
    while n / TWO16 != 0
      invariant Folded(n) == Folded(sum)
      decreases n
    {
      FoldStep(n);
      n := n / TWO16 + n % TWO16;
    }
    s := n;
  }

  /** One turn of the fold loses a multiple of 65535 and does not reach 0. */
  lemma FoldStep(n: nat)
    requires n >= TWO16
    ensures n / TWO16 + n % TWO16 < n && Folded(n / TWO16 + n % TWO16) == Folded(n)
  {
    var q := n / TWO16;
    var m := q + n % TWO16;
    assert n == m + q * ONES;
    MultipleApart(m - 1, n - 1, q);
  }

  lemma MultipleApart(a: nat, b: nat, q: nat)
    requires b == a + q * ONES
    ensures a % ONES == b % ONES
  {
    assert b == (a / ONES + q) * ONES + a % ONES;
    Remainder(b, a / ONES + q, a % ONES);
  }

  lemma Remainder(n: nat, q: nat, r: nat)
    requires n == q * ONES + r && r < ONES
    ensures n % ONES == r
  {
  }

  /** `checksum_internet`: the pair loop, the odd tail, the fold and the complement. */
  method ChecksumInternet(data: seq<byte>) returns (c: u16)
    ensures c == InternetChecksum(data)
  {
    var s: nat, i: nat := 0, 0;
    while i + 1 < |data|
      invariant 0 <= i <= |data|
      invariant s + PairSum(data[i..]) == PairSum(data)
    {
      assert data[i..][2..] == data[i + 2..];
      s := s + (data[i] as int * 0x100 + data[i + 1]);
      i := i + 2;
    }
    if i < |data| {
      s := s + data[i];
    }
    var folded := Fold(s);
    c := ONES - folded;
  }

  lemma {:induction false} PairSumEven(a: seq<byte>, b: seq<byte>)
    requires |a| % 2 == 0
    ensures PairSum(a + b) == PairSum(a) + PairSum(b)
  {
    if a == [] {
      assert a + b == b;
    } else {
      PairSumEven(a[2..], b);
      assert (a + b)[2..] == a[2..] + b;
    }
  }

  lemma CheckBytes(c: u16)
    ensures Be16(c) == [c / 0x100, c % 0x100]
  {
    assert Digits(c / 0x100, 1) == [c / 0x100];
    assert Digits(c, 2) == Digits(c / 0x100, 1) + [c % 0x100];
  }

  /** Data of even length followed by its own checksum sums to nothing (section 1 of RFC 1071). */
  lemma SelfChecksum(data: seq<byte>)
    requires |data| % 2 == 0
    ensures InternetChecksum(data + Be16(InternetChecksum(data))) == 0
  {
    var c := InternetChecksum(data);
    CheckBytes(c);
    PairSumEven(data, Be16(c));
    var sum := PairSum(data);
    assert PairSum(Be16(c)) == c;
    WholeFold(sum, c);
  }

  /** A sum and the complement of its fold add up to a nonzero multiple of 65535. */
  lemma WholeFold(sum: nat, c: u16)
    requires c == ONES - Folded(sum)
    ensures Folded(sum + c) == ONES
  {
    assert (sum + c) % ONES == 0 by {
      var q := sum / ONES;
      var f := Folded(sum);
      if f == ONES {
        assert sum % ONES == 0;
      } else {
        assert f == sum % ONES;
        Remainder(sum + c, q + 1, 0);
      }
    }
  }

  /**
   With data of odd length the law of the even case fails in general: the tail and the first check
   byte trade places. It holds exactly when they are the same byte.
   */
  lemma OddSelfChecksumIff(data: seq<byte>)
    requires |data| % 2 == 1
    ensures var c := InternetChecksum(data);
      InternetChecksum(data + Be16(c)) == 0 <==> data[|data| - 1] == c / 0x100
  {
    var c := InternetChecksum(data);
    var front, tail := data[..|data| - 1], data[|data| - 1];
    CheckBytes(c);
    var high, low := c / 0x100, c % 0x100;
    assert data == front + [tail] && data + Be16(c) == front + [tail, high, low];
    PairSumEven(front, [tail]);
    PairSumEven(front, [tail, high, low]);
    assert [tail, high, low][2..] == [low];
    var sum := PairSum(data);
    var total := PairSum(data + Be16(c));
    assert total == sum + 255 * tail + high + low;
    assert total == (sum + c) + 255 * (tail - high);
    WholeFold(sum, c);
    var k := (sum + c) / ONES;
    assert sum + c == k * ONES;
    if tail == high {
      assert total == sum + c;
    } else {
      TailApart(total, k, tail, high);
    }
  }

  lemma TailApart(total: nat, k: nat, tail: byte, high: byte)
    requires total == k * ONES + 255 * (tail - high) && tail != high
    ensures total % ONES != 0
  {
    if tail > high {
      Remainder(total, k, 255 * (tail - high));
    } else {
      Remainder(total, k - 1, ONES + 255 * (tail - high));
    }
  }
}
