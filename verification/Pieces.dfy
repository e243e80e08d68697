/** Strings laid out one after the other: offsets, concatenation and slicing. */
module Pieces {

  /** Where piece `i` starts when pieces of the given sizes follow each other. */
  function Offset(sizes: seq<nat>, i: nat): nat
    requires i <= |sizes|
  {
    if i == 0 then 0 else Offset(sizes, i - 1) + sizes[i - 1]
  }

  function Lengths<T>(parts: seq<seq<T>>): (sizes: seq<nat>)
    ensures |sizes| == |parts|
    ensures forall i :: 0 <= i < |parts| ==> sizes[i] == |parts[i]|
  {
    seq(|parts|, i requires 0 <= i < |parts| => |parts[i]|)
  }

  /** Python's `b"".join(parts)`. */
  function Flat<T>(parts: seq<seq<T>>): seq<T> {
    if parts == [] then [] else Flat(parts[..|parts| - 1]) + parts[|parts| - 1]
  }

  lemma {:induction false} OffsetPrefix(sizes: seq<nat>, more: seq<nat>, i: nat)
    requires i <= |sizes| <= |more| && sizes[..i] == more[..i]
    ensures Offset(sizes, i) == Offset(more, i)
  {
    if i > 0 {
      assert sizes[..i][..i - 1] == sizes[..i - 1] && more[..i][..i - 1] == more[..i - 1];
      assert sizes[i - 1] == sizes[..i][i - 1] == more[..i][i - 1];
      OffsetPrefix(sizes, more, i - 1);
    }
  }

  lemma {:induction false} OffsetMonotone(sizes: seq<nat>, i: nat, j: nat)
    requires i <= j <= |sizes|
    ensures Offset(sizes, i) <= Offset(sizes, j)
    ensures i < j ==> Offset(sizes, i) + sizes[i] <= Offset(sizes, j)
    decreases j
  {
    if i < j {
      OffsetMonotone(sizes, i, j - 1);
    }
  }

  lemma {:induction false} OffsetUniform(sizes: seq<nat>, k: nat, i: nat)
    requires i <= |sizes| && forall j :: 0 <= j < |sizes| ==> sizes[j] == k
    ensures Offset(sizes, i) == k * i
  {
    if i > 0 {
      OffsetUniform(sizes, k, i - 1);
    }
  }

  /** Piece `i` of a concatenation is found at its offset. */
  lemma {:induction false} FlatSlice<T>(parts: seq<seq<T>>, i: nat)
    requires i < |parts|
    ensures |Flat(parts)| == Offset(Lengths(parts), |parts|)
    ensures Offset(Lengths(parts), i) + |parts[i]| <= |Flat(parts)|
    ensures Flat(parts)[Offset(Lengths(parts), i)..Offset(Lengths(parts), i) + |parts[i]|] == parts[i]
  {
    FlatLength(parts);
    var n := |parts| - 1;
    OffsetMonotone(Lengths(parts), i, |parts|);
    if i < n {
      FlatSlice(parts[..n], i);
      OffsetPrefix(Lengths(parts[..n]), Lengths(parts), i);
    } else {
      FlatLength(parts[..n]);
      OffsetPrefix(Lengths(parts[..n]), Lengths(parts), n);
    }
  }

  lemma {:induction false} FlatLength<T>(parts: seq<seq<T>>)
    ensures |Flat(parts)| == Offset(Lengths(parts), |parts|)
  {
    if parts != [] {
      var n := |parts| - 1;
      FlatLength(parts[..n]);
      OffsetPrefix(Lengths(parts[..n]), Lengths(parts), n);
    }
  }

  /** The piece of `whole` at index `i` when it is cut from `base` on. */
  function Cut<T>(whole: seq<T>, base: nat, sizes: seq<nat>, i: nat): (piece: seq<T>)
    requires i < |sizes| && base + Offset(sizes, |sizes|) <= |whole|
    ensures |piece| == sizes[i]
  {
    OffsetMonotone(sizes, i, |sizes|);
    whole[base + Offset(sizes, i)..base + Offset(sizes, i) + sizes[i]]
  }

  /** Consecutive pieces of `whole` from `base` on. */
  function Cuts<T>(whole: seq<T>, base: nat, sizes: seq<nat>): (pieces: seq<seq<T>>)
    requires base + Offset(sizes, |sizes|) <= |whole|
    ensures |pieces| == |sizes|
  {
    if sizes == [] then []
    else
      var n := |sizes| - 1;
      OffsetPrefix(sizes[..n], sizes, n);
      Cuts(whole, base, sizes[..n]) + [Cut(whole, base, sizes, n)]
  }

  lemma {:induction false} CutsAt<T>(whole: seq<T>, base: nat, sizes: seq<nat>, i: nat)
    requires i < |sizes| && base + Offset(sizes, |sizes|) <= |whole|
    ensures base + Offset(sizes, i) + sizes[i] <= |whole|
    ensures Cuts(whole, base, sizes)[i] == whole[base + Offset(sizes, i)..base + Offset(sizes, i) + sizes[i]]
  {
    OffsetMonotone(sizes, i, |sizes|);
    var n := |sizes| - 1;
    if i < n {
      OffsetPrefix(sizes[..n], sizes, n);
      OffsetPrefix(sizes[..n], sizes, i);
      CutsAt(whole, base, sizes[..n], i);
    }
  }

  /** Cutting a string into consecutive pieces and joining them gives it back. */
  lemma {:induction false} FlatCover<T>(whole: seq<T>, base: nat, sizes: seq<nat>)
    requires base + Offset(sizes, |sizes|) <= |whole|
    ensures Flat(Cuts(whole, base, sizes)) == whole[base..base + Offset(sizes, |sizes|)]
  {
    if sizes != [] {
      var n := |sizes| - 1;
      OffsetPrefix(sizes[..n], sizes, n);
      FlatCover(whole, base, sizes[..n]);
      assert Cuts(whole, base, sizes)[..n] == Cuts(whole, base, sizes[..n]);
    }
  }

  lemma {:induction false} FlatAppend<T>(a: seq<seq<T>>, b: seq<seq<T>>)
    ensures Flat(a + b) == Flat(a) + Flat(b)
  {
    if b == [] {
      assert a + b == a;
    } else {
      var n := |b| - 1;
      FlatAppend(a, b[..n]);
      assert (a + b)[..|a + b| - 1] == a + b[..n];
    }
  }

  lemma FlatCons<T>(parts: seq<seq<T>>)
    requires parts != []
    ensures Flat(parts) == parts[0] + Flat(parts[1..])
  {
    assert parts == [parts[0]] + parts[1..];
    assert [parts[0]][..0] == [];
    FlatAppend([parts[0]], parts[1..]);
  }

  /** A slice of a slice is a slice. */
  lemma SubSlice<T>(s: seq<T>, base: nat, t: seq<T>, lo: nat, hi: nat)
    requires base + |t| <= |s| && s[base..base + |t|] == t && lo <= hi <= |t|
    ensures s[base + lo..base + hi] == t[lo..hi]
  {
    forall i | lo <= i < hi
      ensures s[base + i] == t[i]
    {
      assert s[base..base + |t|][i] == t[i];
    }
  }

  /** Cutting where the pieces of a concatenation end gives the pieces back. */
  lemma CutsOfFlat<T>(whole: seq<T>, base: nat, parts: seq<seq<T>>)
    requires base + |Flat(parts)| <= |whole| && whole[base..base + |Flat(parts)|] == Flat(parts)
    ensures Offset(Lengths(parts), |parts|) == |Flat(parts)|
    ensures Cuts(whole, base, Lengths(parts)) == parts
  {
    FlatLength(parts);
    forall i | 0 <= i < |parts|
      ensures Cuts(whole, base, Lengths(parts))[i] == parts[i]
    {
      CutsAt(whole, base, Lengths(parts), i);
      FlatSlice(parts, i);
      var at := Offset(Lengths(parts), i);
      SubSlice(whole, base, Flat(parts), at, at + |parts[i]|);
    }
  }
}
