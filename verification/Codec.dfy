/**
 The compression library, seen from outside: raw DEFLATE both ways and a CRC-32.
 Nothing is assumed of the compressor beyond the laws in `Lawful`.
 */
module Codec {
  import opened Bytes

  /** The outcome of inflating a string that may continue past its stream. */
  datatype Inflation = Stream(output: seq<byte>, consumed: nat) | Broken

  datatype Codec = Codec(
    deflate: seq<byte> -> seq<byte>,
    inflate: seq<byte> -> Inflation,
    crc: seq<byte> -> u32)

  ghost predicate Lawful(c: Codec) {
    && RoundTrip(c)
    && PrefixOnly(c)
    && forall d :: c.deflate(d) != []
  }

  /** Inflating what was deflated returns the data and leaves the rest. */
  ghost predicate RoundTrip(c: Codec) {
    forall d, rest :: c.inflate(c.deflate(d) + rest) == Stream(d, |c.deflate(d)|)
  }

  /** What a stream inflates to is decided by the bytes it consumes. */
  ghost predicate PrefixOnly(c: Codec) {
    && (forall s :: c.inflate(s).Stream? ==> c.inflate(s).consumed <= |s|)
    && (forall s, t {:trigger c.inflate(s), c.inflate(t)} ::
      c.inflate(s).Stream? && c.inflate(s).consumed <= |s| && s[..c.inflate(s).consumed] <= t
      ==> c.inflate(t) == c.inflate(s))
  }

  // The laws are consistent: a codec that marks every byte obeys them. It reads over padding that it never writes.

  function Marked(d: seq<byte>): seq<byte> {
    if d == [] then [0] else [1, d[0]] + Marked(d[1..])
  }

  function Unmarked(s: seq<byte>): Inflation {
    if s == [] then Broken
    else if s[0] == 0 then Stream([], 1)
    else if s[0] == 2 then
      match Unmarked(s[1..])
      case Stream(out, n) => Stream(out, n + 1)
      case Broken => Broken
    else if s[0] != 1 || |s| < 2 then Broken
    else match Unmarked(s[2..])
      case Stream(out, n) => Stream([s[1]] + out, n + 2)
      case Broken => Broken
  }

  lemma {:induction false} MarkedRoundTrip(d: seq<byte>, rest: seq<byte>)
    ensures Unmarked(Marked(d) + rest) == Stream(d, |Marked(d)|)
  {
    hide Unmarked;
    if d == [] {
      EndMark(rest);
    } else {
      MarkedRoundTrip(d[1..], rest);
      assert Marked(d) + rest == [1, d[0]] + (Marked(d[1..]) + rest);
      OneByte(d[0], Marked(d[1..]) + rest);
      assert d == [d[0]] + d[1..];
    }
  }

  lemma EndMark(rest: seq<byte>)
    ensures Unmarked([0] + rest) == Stream([], 1)
  {
  }

  lemma OneByte(b: byte, s: seq<byte>)
    requires Unmarked(s).Stream?
    ensures Unmarked([1, b] + s) == Stream([b] + Unmarked(s).output, Unmarked(s).consumed + 2)
  {
    assert ([1, b] + s)[2..] == s;
  }

  lemma {:induction false} UnmarkedPrefix(s: seq<byte>, t: seq<byte>)
    requires Unmarked(s).Stream?
    ensures Unmarked(s).consumed <= |s|
    ensures s[..Unmarked(s).consumed] <= t ==> Unmarked(t) == Unmarked(s)
  {
    var step := if s[0] == 0 then 0 else if s[0] == 2 then 1 else 2;
    var n := Unmarked(s).consumed;
    if step > 0 {
      UnmarkedPrefix(s[step..], if |t| >= step then t[step..] else []);
    }
    if s[..n] <= t {
      assert |t| >= n && forall i :: 0 <= i < n ==> t[i] == s[..n][i] == s[i];
      if step > 0 {
        TailPrefix(s, t, step, n);
      }
    }
  }

  lemma TailPrefix(s: seq<byte>, t: seq<byte>, k: nat, n: nat)
    requires k <= n <= |s| && s[..n] <= t
    ensures s[k..][..n - k] <= t[k..]
  {
    assert s[k..][..n - k] == s[..n][k..] == t[..n][k..] == t[k..][..n - k];
  }

  const MARKING: Codec := Codec(Marked, Unmarked, (d: seq<byte>) => 0)

  lemma MarkingIsLawful()
    ensures Lawful(MARKING)
  {
    assert RoundTrip(MARKING) by {
      forall d, rest
        ensures MARKING.inflate(MARKING.deflate(d) + rest) == Stream(d, |MARKING.deflate(d)|)
      {
        MarkedRoundTrip(d, rest);
      }
    }
    forall s | Unmarked(s).Stream?
      ensures Unmarked(s).consumed <= |s|
    {
      UnmarkedPrefix(s, []);
    }
    forall s, t | Unmarked(s).Stream? && s[..Unmarked(s).consumed] <= t
      ensures Unmarked(t) == Unmarked(s)
    {
      UnmarkedPrefix(s, t);
    }
  }
}
