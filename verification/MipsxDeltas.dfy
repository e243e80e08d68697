/**
 Ranking the distances between two images' call anchors by the targets that the images then have in
 common: firmware/mipsx_dasm.py. The program counts pairs of displacements; the reference definition
 counts the displacements of one image that meet one of the other.
 */
module MipsxDeltas {
  import opened Wrappers
  import opened MipsxWords
  import opened MipsxInference
  import Sorting

  const MAX_SHARED_DISPLACEMENTS := 512

  datatype SharedDelta = SharedDelta(delta: int, sharedTargets: nat, weightedReferences: nat)

  // ----- The reference definition -----

  /** The displacements of the first image whose targets, at this distance, are targets of the second. */
  function Common(first: seq<int>, second: seq<int>, delta: int): set<int> {
    set d | d in first && d - delta in second
  }

  /** Over the first image's distinct displacements, the fewer of the references that meet at the distance. */
  function SharedWeight(first: seq<Tally>, second: seq<int>, delta: int): nat {
    if first == [] then 0
    else
      var t := first[|first| - 1];
      SharedWeight(first[..|first| - 1], second, delta) + Fewer(t.count, Hits(second, Exactly(t.key - delta)))
  }

  function Fewer(a: nat, b: nat): nat {
    if a < b then a else b
  }

  function Deltas(first: seq<int>, second: seq<int>): set<int> {
    set d, e | d in first && e in second :: d - e
  }

  function Reference(first: seq<int>, second: seq<int>, delta: int): SharedDelta {
    SharedDelta(delta, |Common(first, second, delta)|, SharedWeight(Tallied(first), second, delta))
  }

  function References(first: seq<int>, second: seq<int>): set<SharedDelta> {
    set delta | delta in Deltas(first, second) :: Reference(first, second, delta)
  }

  predicate Outranks(a: SharedDelta, b: SharedDelta) {
    if a.sharedTargets != b.sharedTargets then a.sharedTargets > b.sharedTargets
    else if a.weightedReferences != b.weightedReferences then a.weightedReferences > b.weightedReferences
    else if Abs(a.delta) != Abs(b.delta) then Abs(a.delta) < Abs(b.delta)
    else a.delta <= b.delta
  }

  function Abs(x: int): nat {
    if x < 0 then -x else x
  }

  lemma OutranksIsTotal()
    ensures Sorting.TotalOrder(Outranks)
  {
  }

  // ----- Pairs -----

  /** One step of the double loop over displacements. */
  datatype Meeting = Meeting(delta: int, weight: nat)

  function Row(t: Tally, second: seq<Tally>): (row: seq<Meeting>)
    ensures |row| == |second|
  {
    seq(|second|, j requires 0 <= j < |second| => Meeting(t.key - second[j].key, Fewer(t.count, second[j].count)))
  }

  function Meetings(first: seq<Tally>, second: seq<Tally>): seq<Meeting> {
    if first == [] then []
    else Meetings(first[..|first| - 1], second) + Row(first[|first| - 1], second)
  }

  function TargetCounts(ms: seq<Meeting>): seq<Tally> {
    if ms == [] then [] else Bump(TargetCounts(ms[..|ms| - 1]), ms[|ms| - 1].delta, 1)
  }

  function WeightedCounts(ms: seq<Meeting>): seq<Tally> {
    if ms == [] then [] else Bump(WeightedCounts(ms[..|ms| - 1]), ms[|ms| - 1].delta, ms[|ms| - 1].weight)
  }

  function CountAt(ms: seq<Meeting>, delta: int): nat {
    if ms == [] then 0 else CountAt(ms[..|ms| - 1], delta) + if ms[|ms| - 1].delta == delta then 1 else 0
  }

  function WeightAt(ms: seq<Meeting>, delta: int): nat {
    if ms == [] then 0
    else WeightAt(ms[..|ms| - 1], delta) + if ms[|ms| - 1].delta == delta then ms[|ms| - 1].weight else 0
  }

  function DeltasOf(ms: seq<Meeting>): set<int> {
    set m | m in ms :: m.delta
  }

  /** Both counters have the same keys, and hold the count and the weight of each. */
  lemma {:induction false} CountersHold(ms: seq<Meeting>, delta: int)
    ensures Unique(TargetCounts(ms)) && Unique(WeightedCounts(ms))
    ensures Keys(TargetCounts(ms)) == Keys(WeightedCounts(ms)) == DeltasOf(ms)
    ensures Weight(TargetCounts(ms), Exactly(delta)) == CountAt(ms, delta)
    ensures Weight(WeightedCounts(ms), Exactly(delta)) == WeightAt(ms, delta)
  {
    hide Weight, Keys, Unique, Bump;
    if ms == [] {
      Nothing(delta);
    } else {
      var n := |ms| - 1;
      CountersHold(ms[..n], delta);
      BumpKeys(TargetCounts(ms[..n]), ms[n].delta, 1);
      BumpWeight(TargetCounts(ms[..n]), ms[n].delta, 1, Exactly(delta));
      BumpKeys(WeightedCounts(ms[..n]), ms[n].delta, ms[n].weight);
      BumpWeight(WeightedCounts(ms[..n]), ms[n].delta, ms[n].weight, Exactly(delta));
      assert ms == ms[..n] + [ms[n]];
      assert DeltasOf(ms) == DeltasOf(ms[..n]) + {ms[n].delta};
    }
  }

  lemma Nothing(delta: int)
    ensures Unique([]) && Keys([]) == {} && Weight([], Exactly(delta)) == 0
  {
  }

  lemma {:induction false} AtAppend(a: seq<Meeting>, b: seq<Meeting>, delta: int)
    ensures CountAt(a + b, delta) == CountAt(a, delta) + CountAt(b, delta)
    ensures WeightAt(a + b, delta) == WeightAt(a, delta) + WeightAt(b, delta)
  {
    if b == [] {
      assert a + b == a;
    } else {
      var n := |b| - 1;
      assert (a + b)[..|a| + n] == a + b[..n];
      AtAppend(a, b[..n], delta);
    }
  }

  /** In one row, at most one entry meets at a distance: the one for the displacement at that distance. */
  lemma {:induction false} RowMeets(t: Tally, second: seq<Tally>, delta: int)
    requires Unique(second)
    ensures CountAt(Row(t, second), delta) == if t.key - delta in Keys(second) then 1 else 0
    ensures WeightAt(Row(t, second), delta) == Fewer(t.count, Weight(second, Exactly(t.key - delta)))
  {
    if second != [] {
      var one := [Meeting(t.key - second[0].key, Fewer(t.count, second[0].count))];
      assert Row(t, second) == one + Row(t, second[1..]);
      AtAppend(one, Row(t, second[1..]), delta);
      RowMeets(t, second[1..], delta);
      assert one[..0] == [];
      if second[0].key == t.key - delta {
        NoWeight(second[1..], t.key - delta);
      }
    }
  }

  /** The keys of the first entries whose partner at a distance is a key of the second. */
  function Partners(first: seq<Tally>, second: seq<Tally>, delta: int): set<int> {
    set t | t in first && t.key - delta in Keys(second) :: t.key
  }

  /** Counting pairs by distance is counting partners, and summing the fewer references. */
  lemma {:induction false} MeetingsCount(first: seq<Tally>, calls: seq<int>, delta: int)
    requires forall i, j :: 0 <= i < j < |first| ==> first[i].key != first[j].key
    ensures CountAt(Meetings(first, Tallied(calls)), delta) == |Partners(first, Tallied(calls), delta)|
    ensures WeightAt(Meetings(first, Tallied(calls)), delta) == SharedWeight(first, calls, delta)
  {
    hide Tallied, Weight, Row, Keys, Hits;
    var second := Tallied(calls);
    TalliedKeys(calls);
    if first == [] {
      assert Partners(first, second, delta) == {};
    } else {
      var n := |first| - 1;
      MeetingsCount(first[..n], calls, delta);
      AtAppend(Meetings(first[..n], second), Row(first[n], second), delta);
      RowMeets(first[n], second, delta);
      TalliedWeight(calls, Exactly(first[n].key - delta));
      PartnersSnoc(first, second, delta);
    }
  }

  lemma PartnersSnoc(first: seq<Tally>, second: seq<Tally>, delta: int)
    requires first != [] && forall i, j :: 0 <= i < j < |first| ==> first[i].key != first[j].key
    ensures var n := |first| - 1;
      && first[n].key !in Partners(first[..n], second, delta)
      && Partners(first, second, delta) == Partners(first[..n], second, delta)
        + if first[n].key - delta in Keys(second) then {first[n].key} else {}
  {
    hide Keys;
    var n := |first| - 1;
    assert first == first[..n] + [first[n]];
    forall t | t in first[..n]
      ensures t.key != first[n].key
    {
      var i :| 0 <= i < n && first[..n][i] == t;
      assert first[i].key != first[n].key;
    }
  }

  lemma {:induction false} KeysDiffer(c: seq<Tally>)
    requires Unique(c)
    ensures forall i, j :: 0 <= i < j < |c| ==> c[i].key != c[j].key
  {
    forall i, j | 0 <= i < j < |c|
      ensures c[i].key != c[j].key
    {
      UniqueAt(c, i, j);
    }
  }

  lemma PartnersAre(first: seq<int>, second: seq<int>, delta: int)
    ensures Partners(Tallied(first), Tallied(second), delta) == Common(first, second, delta)
  {
    hide Tallied, Keys;
    var a := Tallied(first);
    TalliedKeys(first);
    TalliedKeys(second);
    forall t | t in a
      ensures t.key in first
    {
      var i :| 0 <= i < |a| && a[i] == t;
      KeysAre(a, i);
    }
    forall d | d in first && d - delta in second
      ensures d in Partners(a, Tallied(second), delta)
    {
      var i := KeyAt(a, d);
      assert a[i] in a;
    }
  }

  lemma {:induction false} MeetingsDeltas(first: seq<Tally>, second: seq<Tally>, delta: int)
    ensures delta in DeltasOf(Meetings(first, second)) <==>
      exists s, t :: s in first && t in second && s.key - t.key == delta
  {
    hide Fewer;
    if first != [] {
      var n := |first| - 1;
      var before, row := Meetings(first[..n], second), Row(first[n], second);
      MeetingsDeltas(first[..n], second, delta);
      assert first == first[..n] + [first[n]];
      assert DeltasOf(before + row) == DeltasOf(before) + DeltasOf(row);
      if t :| t in second && first[n].key - t.key == delta {
        var j :| 0 <= j < |second| && second[j] == t;
        assert row[j] in row;
      }
    }
  }

  lemma DeltasAre(first: seq<int>, second: seq<int>)
    ensures DeltasOf(Meetings(Tallied(first), Tallied(second))) == Deltas(first, second)
  {
    hide Tallied, Keys, Meetings, DeltasOf;
    var a, b := Tallied(first), Tallied(second);
    forall delta
      ensures delta in DeltasOf(Meetings(a, b)) <==> delta in Deltas(first, second)
    {
      MeetingsDeltas(a, b, delta);
      if s, t :| s in a && t in b && s.key - t.key == delta {
        InTallied(first, s);
        InTallied(second, t);
      }
      if d, e :| d in first && e in second && d - e == delta {
        var i := TalliedAt(first, d);
        var j := TalliedAt(second, e);
        assert a[i] in a && b[j] in b;
      }
    }
  }

  lemma InTallied(xs: seq<int>, t: Tally)
    requires t in Tallied(xs)
    ensures t.key in xs
  {
    hide Tallied;
    TalliedKeys(xs);
    var i :| 0 <= i < |Tallied(xs)| && Tallied(xs)[i] == t;
    KeysAre(Tallied(xs), i);
  }

  lemma TalliedAt(xs: seq<int>, x: int) returns (i: nat)
    requires x in xs
    ensures i < |Tallied(xs)| && Tallied(xs)[i].key == x
  {
    hide Tallied;
    TalliedKeys(xs);
    i := KeyAt(Tallied(xs), x);
  }

  // ----- The program -----

  /** `collect_call_displacements`. */
  method CollectDisplacements(words: seq<Located>, register: nat) returns (displacements: seq<Tally>)
    ensures displacements == Tallied(Calls(words, register))
  {
    displacements := [];
    for i := 0 to |words|
      invariant displacements == Tallied(Calls(words[..i], register))
    {
      ScanStep(words, register, i);
      if IsCall(words[i].word, register) {
        TalliedSnoc(Calls(words[..i], register), Signed17(words[i].word) * 4);
        displacements := Bump(displacements, Signed17(words[i].word) * 4, 1);
      }
    }
    assert words[..|words|] == words;
  }

  lemma CountersSnoc(ms: seq<Meeting>, m: Meeting)
    ensures TargetCounts(ms + [m]) == Bump(TargetCounts(ms), m.delta, 1)
    ensures WeightedCounts(ms + [m]) == Bump(WeightedCounts(ms), m.delta, m.weight)
  {
    assert (ms + [m])[..|ms|] == ms;
  }

  /** The inner loop, over the second image's displacements. */
  method MeetRow(t: Tally, second: seq<Tally>, counts0: seq<Tally>, weights0: seq<Tally>, ghost before: seq<Meeting>)
    returns (counts: seq<Tally>, weights: seq<Tally>)
    requires counts0 == TargetCounts(before) && weights0 == WeightedCounts(before)
    ensures counts == TargetCounts(before + Row(t, second)) && weights == WeightedCounts(before + Row(t, second))
  {
    hide Bump, Fewer, TargetCounts, WeightedCounts;
    counts, weights := counts0, weights0;
    ghost var row := Row(t, second);
    assert before + row[..0] == before;
    for j := 0 to |second|
      invariant counts == TargetCounts(before + row[..j]) && weights == WeightedCounts(before + row[..j])
    {
      var delta := t.key - second[j].key;
      assert before + row[..j + 1] == (before + row[..j]) + [row[j]];
      CountersSnoc(before + row[..j], row[j]);
      counts := Bump(counts, delta, 1);
      weights := Bump(weights, delta, Fewer(t.count, second[j].count));
    }
    assert row[..|second|] == row;
  }

  /** The double loop over the displacements of both images. */
  method MeetAll(first: seq<Tally>, second: seq<Tally>) returns (counts: seq<Tally>, weights: seq<Tally>)
    ensures counts == TargetCounts(Meetings(first, second)) && weights == WeightedCounts(Meetings(first, second))
  {
    hide Bump, Row;
    counts, weights := [], [];
    for i := 0 to |first|
      invariant counts == TargetCounts(Meetings(first[..i], second))
      invariant weights == WeightedCounts(Meetings(first[..i], second))
    {
      assert first[..i + 1][..i] == first[..i];
      counts, weights := MeetRow(first[i], second, counts, weights, Meetings(first[..i], second));
    }
    assert first[..|first|] == first;
  }

  /** `counter[key]`, with 0 for a key that is not there. */
  function CountOf(c: seq<Tally>, key: int): nat {
    if c == [] then 0 else if c[0].key == key then c[0].count else CountOf(c[1..], key)
  }

  lemma {:induction false} CountOfIs(c: seq<Tally>, key: int)
    requires Unique(c)
    ensures CountOf(c, key) == Weight(c, Exactly(key))
  {
    if c != [] {
      if c[0].key == key {
        NoWeight(c[1..], key);
      } else {
        CountOfIs(c[1..], key);
      }
    }
  }

  /** The counters hold the reference definition at every key. */
  lemma CountedReference(first: seq<int>, second: seq<int>, i: nat)
    requires i < |TargetCounts(Meetings(Tallied(first), Tallied(second)))|
    ensures var ms := Meetings(Tallied(first), Tallied(second));
      var t := TargetCounts(ms)[i];
      && t.key in Deltas(first, second)
      && SharedDelta(t.key, t.count, CountOf(WeightedCounts(ms), t.key)) == Reference(first, second, t.key)
  {
    hide Tallied, Meetings, TargetCounts, WeightedCounts, Weight, Keys, Unique, CountOf, DeltasOf, Deltas;
    var ms := Meetings(Tallied(first), Tallied(second));
    var t := TargetCounts(ms)[i];
    CountersHold(ms, t.key);
    KeysAre(TargetCounts(ms), i);
    EntryWeight(TargetCounts(ms), i);
    DeltasAre(first, second);
    TalliedKeys(first);
    KeysDiffer(Tallied(first));
    CountOfIs(WeightedCounts(ms), t.key);
    MeetingsCount(Tallied(first), second, t.key);
    PartnersAre(first, second, t.key);
  }

  datatype SharedResult = SharedResult(
    firstCalls: nat, firstDisplacements: nat, secondCalls: nat, secondDisplacements: nat, candidates: seq<SharedDelta>)

  /** `infer_shared_base_deltas`, on the words of two images. */
  method InferSharedDeltas(firstWords: seq<Located>, secondWords: seq<Located>, register: nat, limit: nat)
    returns (r: Result<SharedResult, InferenceFault>)
    ensures var first, second := Calls(firstWords, register), Calls(secondWords, register);
      && (r.Ok? <==> |Members(first)| <= MAX_SHARED_DISPLACEMENTS && |Members(second)| <= MAX_SHARED_DISPLACEMENTS)
      && (r.Ok? ==>
        && r.value.firstCalls == |first| && r.value.firstDisplacements == |Members(first)|
        && r.value.secondCalls == |second| && r.value.secondDisplacements == |Members(second)|
        && Sorting.Best(r.value.candidates, References(first, second), limit, Outranks))
  {
    hide Tallied, Calls, TargetCounts, WeightedCounts, Meetings, Unique, Keys, Reference, References, Sorting.Best,
      Sorting.Sort, Outranks, TotalCount, Deltas, CountOf;
    var first := CollectDisplacements(firstWords, register);
    var second := CollectDisplacements(secondWords, register);
    ghost var firstCalls, secondCalls := Calls(firstWords, register), Calls(secondWords, register);
    TalliedKeys(firstCalls);
    TalliedKeys(secondCalls);
    if |first| > MAX_SHARED_DISPLACEMENTS || |second| > MAX_SHARED_DISPLACEMENTS {
      return Err(WorkLimits);
    }
    var counts, weights := MeetAll(first, second);
    var candidates: seq<SharedDelta> := [];
    for i := 0 to |counts|
      invariant |candidates| == i
      invariant forall k :: 0 <= k < i ==>
        counts[k].key in Deltas(firstCalls, secondCalls)
        && candidates[k] == Reference(firstCalls, secondCalls, counts[k].key)
    {
      CountedReference(firstCalls, secondCalls, i);
      candidates := candidates + [SharedDelta(counts[i].key, counts[i].count, CountOf(weights, counts[i].key))];
    }
    ReferencesListed(firstCalls, secondCalls, counts, candidates);
    OutranksIsTotal();
    Sorting.SortedCut(candidates, References(firstCalls, secondCalls), limit, Outranks);
    TalliedTotal(firstCalls);
    TalliedTotal(secondCalls);
    return Ok(SharedResult(TotalCount(first), |first|, TotalCount(second), |second|,
      Sorting.Cut(Sorting.Sort(candidates, Outranks), limit)));
  }

  lemma ReferencesListed(first: seq<int>, second: seq<int>, counts: seq<Tally>, candidates: seq<SharedDelta>)
    requires counts == TargetCounts(Meetings(Tallied(first), Tallied(second))) && |candidates| == |counts|
    requires forall k :: 0 <= k < |counts| ==>
      counts[k].key in Deltas(first, second) && candidates[k] == Reference(first, second, counts[k].key)
    ensures Sorting.Distinct(candidates)
    ensures forall x :: x in candidates <==> x in References(first, second)
  {
    hide Tallied, Meetings, TargetCounts, WeightedCounts, Keys, Unique, Deltas, Common, SharedWeight, DeltasOf;
    CountersHold(Meetings(Tallied(first), Tallied(second)), 0);
    DeltasAre(first, second);
    KeysDiffer(counts);
    forall delta | delta in Deltas(first, second)
      ensures Reference(first, second, delta) in candidates
    {
      var k := KeyAt(counts, delta);
      assert candidates[k] in candidates;
    }
  }

  // ----- What a distance means -----

  /**
   At a distance, the shared targets are the addresses that calls of both images reach when the second
   image's anchor is that far above the first's, wherever the first's is.
   */
  lemma SharedAddresses(first: seq<int>, second: seq<int>, delta: int, base: int)
    ensures Reference(first, second, delta).sharedTargets
      == |(set d | d in first :: base + d) * (set e | e in second :: base + delta + e)|
  {
    var common := Common(first, second, delta);
    var reached := set d | d in common :: base + d;
    assert reached == (set d | d in first :: base + d) * (set e | e in second :: base + delta + e) by {
      forall x | x in (set d | d in first :: base + d) && x in (set e | e in second :: base + delta + e)
        ensures x in reached
      {
        assert x - base in common;
      }
    }
    ImageCount(common, base);
  }

  lemma {:induction false} ImageCount(s: set<int>, base: int)
    ensures |(set d | d in s :: base + d)| == |s|
  {
    if s == {} {
      assert (set d | d in s :: base + d) == {};
    } else {
      var x := Sorting.Pick(s);
      var all, rest := set d | d in s :: base + d, set d | d in s - {x} :: base + d;
      ImageCount(s - {x}, base);
      forall y: int
        ensures y in all <==> y in rest + {base + x}
      {
        assert y in all <==> y - base in s;
        assert y in rest <==> y - base in s - {x};
      }
      assert all == rest + {base + x};
    }
  }

  /** The ranking is the order of these four numbers, compared one after the other. */
  function Key(d: SharedDelta): (k: seq<int>)
    ensures |k| == 4
  {
    [d.sharedTargets, d.weightedReferences, -(Abs(d.delta) as int), -d.delta]
  }

  lemma OutranksByKey(a: SharedDelta, b: SharedDelta)
    ensures Outranks(a, b) <==>
      forall i :: 0 <= i < 4 && (forall j :: 0 <= j < i ==> Key(a)[j] == Key(b)[j]) ==> Key(a)[i] >= Key(b)[i]
  {
    var x, y := Key(a), Key(b);
    var i := if x[0] != y[0] then 0 else if x[1] != y[1] then 1 else if x[2] != y[2] then 2 else 3;
    assert forall j :: 0 <= j < i ==> x[j] == y[j];
    assert Outranks(a, b) <==> x[i] >= y[i];
    if x[i] >= y[i] {
      forall m | 0 <= m < 4 && forall j :: 0 <= j < m ==> x[j] == y[j]
        ensures x[m] >= y[m]
      {
      }
    }
  }
}
