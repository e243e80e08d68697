/**
 Ranking call anchors by the stack prologues that they make calls reach: firmware/mipsx_dasm.py.
 The program scores by counting pairs; the reference definition counts calls.
 */
module MipsxInference {
  import opened Bytes
  import opened Wrappers
  import opened MipsxWords
  import Sorting

  const MAX_INFERENCE_DISPLACEMENTS := 1024
  const MAX_INFERENCE_PROLOGUES := 5000
  const MAX_INFERENCE_PAIRS := 500000
  const MAX_CANDIDATE_SCORING_PAIRS := 50000000

  // ----- What the words say -----

  predicate IsCall(word: u32, register: nat) {
    Kind(word) == 3 && Operation(word) == 0 && Source1(word) == register && Source2(word) != 0
  }

  predicate IsAddi(word: u32, register: nat) {
    Kind(word) == 3 && Operation(word) == 4 && Source1(word) == register
  }

  predicate IsStackPrologue(word: u32) {
    Kind(word) == 3 && Operation(word) == 4 && Source1(word) == 29 && Source2(word) == 29 && Signed17(word) < 0
  }

  /** The stack prologues by number: `addi r29,-n,r29` for every n from 1 to 0x10000. */
  lemma PrologueWords(word: u32)
    ensures IsStackPrologue(word) <==> 0xE77B_0000 <= word <= 0xE77B_FFFF
    ensures IsStackPrologue(word) ==> Signed17(word) == word - 0xE77C_0000
  {
  }

  /** The calls through a register by number: `jspci` of the register with any link but r0. */
  lemma CallWords(word: u32, register: nat)
    requires register < 32
    ensures IsCall(word, register) <==>
      0xC002_0000 + 0x40_0000 * register <= word < 0xC040_0000 + 0x40_0000 * register
  {
  }

  /** The `addi` words of a register by number. */
  lemma AddiWords(word: u32, register: nat)
    requires register < 32
    ensures IsAddi(word, register) <==>
      0xE000_0000 + 0x40_0000 * register <= word < 0xE040_0000 + 0x40_0000 * register
  {
  }

  /** The byte displacement of every call through `register`, in order. */
  function Calls(words: seq<Located>, register: nat): seq<int> {
    if words == [] then []
    else
      var before, last := Calls(words[..|words| - 1], register), words[|words| - 1].word;
      if IsCall(last, register) then before + [Signed17(last) * 4] else before
  }

  /** The immediate of every `addi` on `register`, in order. */
  function Immediates(words: seq<Located>, register: nat): seq<int> {
    if words == [] then []
    else
      var before, last := Immediates(words[..|words| - 1], register), words[|words| - 1].word;
      if IsAddi(last, register) then before + [Signed17(last)] else before
  }

  /** The address of every stack prologue, in order. */
  function Prologues(words: seq<Located>): seq<int> {
    if words == [] then []
    else
      var before, last := Prologues(words[..|words| - 1]), words[|words| - 1];
      if IsStackPrologue(last.word) then before + [last.address as int] else before
  }

  function Members(xs: seq<int>): (s: set<int>)
    ensures forall x :: x in s <==> x in xs
  {
    set x | x in xs
  }

  // ----- Questions about a displacement -----

  /** What is asked of a call displacement or of an immediate under one base. */
  datatype Probe =
    | Exactly(key: int)
    | Landing(base: u32, target: int)
    | OnPrologue(base: u32, prologues: set<int>)
    | InRange(base: u32, regions: seq<Region>)
    | AddiOnPrologue(base: u32, prologues: set<int>)
  {
    /** The address that the number leads to. */
    function Target(x: int): int {
      match this
      case Exactly(_) => x
      case Landing(base, _) => (base + x) % TWO32
      case OnPrologue(base, _) => (base + x) % TWO32
      case InRange(base, _) => (base + x) % TWO32
      case AddiOnPrologue(base, _) => (base / 4 + x) % TWO32 * 4 % TWO32
    }

    predicate Hit(x: int) {
      match this
      case Exactly(key) => Target(x) == key
      case Landing(_, target) => Target(x) == target
      case OnPrologue(_, prologues) => Target(x) in prologues
      case InRange(_, regions) => InRegions(Target(x), regions)
      case AddiOnPrologue(base, prologues) => base % 4 == 0 && Target(x) in prologues
    }
  }

  /** How many of the numbers hit. */
  function Hits(xs: seq<int>, q: Probe): nat {
    if xs == [] then 0 else Hits(xs[..|xs| - 1], q) + if q.Hit(xs[|xs| - 1]) then 1 else 0
  }

  /** The distinct addresses that the hits lead to. */
  function Targets(xs: seq<int>, q: Probe): set<int> {
    set x | x in xs && q.Hit(x) :: q.Target(x)
  }

  // ----- Counters -----

  /** One entry of a `Counter`, which keeps the order of insertion. */
  datatype Tally = Tally(key: int, count: nat)

  /** `counter[key] += n`. */
  function Bump(c: seq<Tally>, key: int, n: nat): seq<Tally> {
    if c == [] then [Tally(key, n)]
    else if c[0].key == key then [Tally(key, c[0].count + n)] + c[1..]
    else [c[0]] + Bump(c[1..], key, n)
  }

  function Tallied(xs: seq<int>): seq<Tally> {
    if xs == [] then [] else Bump(Tallied(xs[..|xs| - 1]), xs[|xs| - 1], 1)
  }

  function Weight(c: seq<Tally>, q: Probe): nat {
    if c == [] then 0 else (if q.Hit(c[0].key) then c[0].count else 0) + Weight(c[1..], q)
  }

  function Keys(c: seq<Tally>): set<int> {
    if c == [] then {} else {c[0].key} + Keys(c[1..])
  }

  lemma {:induction false} BumpWeight(c: seq<Tally>, key: int, n: nat, q: Probe)
    ensures Weight(Bump(c, key, n), q) == Weight(c, q) + if q.Hit(key) then n else 0
  {
    if c != [] && c[0].key != key {
      BumpWeight(c[1..], key, n, q);
      assert Bump(c, key, n)[1..] == Bump(c[1..], key, n);
    }
  }

  predicate Unique(c: seq<Tally>) {
    c == [] || (c[0].key !in Keys(c[1..]) && Unique(c[1..]))
  }

  lemma {:induction false} BumpKeys(c: seq<Tally>, key: int, n: nat)
    requires Unique(c)
    ensures Unique(Bump(c, key, n)) && Keys(Bump(c, key, n)) == Keys(c) + {key}
  {
    if c != [] {
      assert c[0].key == key ==> Bump(c, key, n)[1..] == c[1..];
      assert c[0].key != key ==> Bump(c, key, n)[1..] == Bump(c[1..], key, n);
      BumpKeys(c[1..], key, n);
    }
  }

  lemma {:induction false} KeysAre(c: seq<Tally>, i: nat)
    requires i < |c|
    ensures c[i].key in Keys(c)
  {
    if i > 0 {
      KeysAre(c[1..], i - 1);
    }
  }

  lemma {:induction false} KeyAt(c: seq<Tally>, key: int) returns (i: nat)
    requires key in Keys(c)
    ensures i < |c| && c[i].key == key
  {
    if c[0].key == key {
      i := 0;
    } else {
      i := KeyAt(c[1..], key);
      i := i + 1;
    }
  }

  lemma {:induction false} KeysCount(c: seq<Tally>)
    requires Unique(c)
    ensures |Keys(c)| == |c|
  {
    if c != [] {
      KeysCount(c[1..]);
    }
  }

  /** A counter of a list has each number once, and weighs what the list hits. */
  lemma {:induction false} TalliedKeys(xs: seq<int>)
    ensures Unique(Tallied(xs)) && Keys(Tallied(xs)) == Members(xs) && |Tallied(xs)| == |Members(xs)|
  {
    if xs != [] {
      var n := |xs| - 1;
      TalliedKeys(xs[..n]);
      BumpKeys(Tallied(xs[..n]), xs[n], 1);
      assert xs == xs[..n] + [xs[n]];
      assert Members(xs) == Members(xs[..n]) + {xs[n]};
    }
    KeysCount(Tallied(xs));
  }

  lemma {:induction false} TalliedWeight(xs: seq<int>, q: Probe)
    ensures Weight(Tallied(xs), q) == Hits(xs, q)
  {
    if xs != [] {
      TalliedWeight(xs[..|xs| - 1], q);
      BumpWeight(Tallied(xs[..|xs| - 1]), xs[|xs| - 1], 1, q);
    }
  }

  /** An entry's count is the weight of its key. */
  lemma {:induction false} EntryWeight(c: seq<Tally>, i: nat)
    requires Unique(c) && i < |c|
    ensures Weight(c, Exactly(c[i].key)) == c[i].count
  {
    if i == 0 {
      NoWeight(c[1..], c[0].key);
    } else {
      KeysAre(c[1..], i - 1);
      EntryWeight(c[1..], i - 1);
      assert c[1..][i - 1] == c[i];
    }
  }

  lemma {:induction false} NoWeight(c: seq<Tally>, key: int)
    requires key !in Keys(c)
    ensures Weight(c, Exactly(key)) == 0
  {
    if c != [] {
      NoWeight(c[1..], key);
    }
  }

  // ----- Pair counting -----

  /** The base under which the displacement reaches the target. */
  function Anchor(target: int, displacement: int): u32 {
    (target - displacement) % TWO32
  }

  /** One step of the double loop over prologues and displacements. */
  datatype Pair = Pair(target: int, displacement: int, references: nat)
  {
    function Base(): u32 {
      Anchor(target, displacement)
    }
  }

  function Row(target: int, displacements: seq<Tally>): seq<Pair> {
    if displacements == [] then []
    else
      var last := displacements[|displacements| - 1];
      Row(target, displacements[..|displacements| - 1]) + [Pair(target, last.key, last.count)]
  }

  function Cross(prologues: seq<int>, displacements: seq<Tally>): seq<Pair> {
    if prologues == [] then []
    else Cross(prologues[..|prologues| - 1], displacements) + Row(prologues[|prologues| - 1], displacements)
  }

  /** `prologue_scores` after the pairs. */
  function Scores(pairs: seq<Pair>): seq<Tally> {
    if pairs == [] then []
    else
      var last := pairs[|pairs| - 1];
      Bump(Scores(pairs[..|pairs| - 1]), last.Base(), last.references)
  }

  function Get(m: map<int, set<int>>, key: int): set<int> {
    if key in m then m[key] else {}
  }

  /** `prologue_targets` after the pairs. */
  function ScoreTargets(pairs: seq<Pair>): map<int, set<int>> {
    if pairs == [] then map[]
    else
      var last := pairs[|pairs| - 1];
      var before := ScoreTargets(pairs[..|pairs| - 1]);
      before[last.Base() as int := Get(before, last.Base()) + {last.target}]
  }

  function PairWeight(pairs: seq<Pair>, base: u32): nat {
    if pairs == [] then 0
    else
      var last := pairs[|pairs| - 1];
      PairWeight(pairs[..|pairs| - 1], base) + if last.Base() == base then last.references else 0
  }

  lemma {:induction false} ScoresWeight(pairs: seq<Pair>, base: u32)
    ensures Unique(Scores(pairs)) && Weight(Scores(pairs), Exactly(base)) == PairWeight(pairs, base)
  {
    if pairs != [] {
      var n := |pairs| - 1;
      ScoresWeight(pairs[..n], base);
      BumpWeight(Scores(pairs[..n]), pairs[n].Base(), pairs[n].references, Exactly(base));
      BumpKeys(Scores(pairs[..n]), pairs[n].Base(), pairs[n].references);
    }
  }

  lemma {:induction false} PairWeightAppend(a: seq<Pair>, b: seq<Pair>, base: u32)
    ensures PairWeight(a + b, base) == PairWeight(a, base) + PairWeight(b, base)
  {
    if b == [] {
      assert a + b == a;
    } else {
      var n := |b| - 1;
      assert (a + b)[..|a| + n] == a + b[..n];
      PairWeightAppend(a, b[..n], base);
    }
  }

  /** A base reaches a target by a displacement exactly when the displacement takes the target back to the base. */
  lemma BackAndForth(base: u32, target: int, displacement: int)
    requires 0 <= target < TWO32
    ensures Anchor(target, displacement) == base <==> (base + displacement) % TWO32 == target
  {
    var k := (target - displacement) / TWO32;
    var l := (base + displacement) / TWO32;
    if (target - displacement) % TWO32 == base {
      assert base + displacement == target - k * TWO32;
      ModUnique(base + displacement, target, -k);
    }
    if (base + displacement) % TWO32 == target {
      assert target - displacement == base - l * TWO32;
      ModUnique(target - displacement, base, -l);
    }
  }

  lemma ModUnique(x: int, r: int, q: int)
    requires 0 <= r < TWO32 && x == r + q * TWO32
    ensures x % TWO32 == r
  {
  }

  lemma {:induction false} WeightSnoc(c: seq<Tally>, last: Tally, q: Probe)
    ensures Weight(c + [last], q) == Weight(c, q) + if q.Hit(last.key) then last.count else 0
  {
    if c == [] {
      assert c + [last] == [last];
    } else {
      WeightSnoc(c[1..], last, q);
      assert (c + [last])[1..] == c[1..] + [last];
    }
  }

  lemma {:induction false} RowWeight(target: int, displacements: seq<Tally>, base: u32)
    requires 0 <= target < TWO32
    ensures PairWeight(Row(target, displacements), base) == Weight(displacements, Landing(base, target))
  {
    if displacements != [] {
      var n := |displacements| - 1;
      RowWeight(target, displacements[..n], base);
      BackAndForth(base, target, displacements[n].key);
      assert displacements == displacements[..n] + [displacements[n]];
      WeightSnoc(displacements[..n], displacements[n], Landing(base, target));
    }
  }

  /** One more prologue adds exactly the references that land on it. */
  lemma {:induction false} WeightSplits(c: seq<Tally>, base: u32, prologues: set<int>, target: int)
    requires target !in prologues
    ensures Weight(c, OnPrologue(base, prologues + {target}))
      == Weight(c, OnPrologue(base, prologues)) + Weight(c, Landing(base, target))
  {
    if c != [] {
      WeightSplits(c[1..], base, prologues, target);
    }
  }

  lemma {:induction false} NoPrologues(c: seq<Tally>, base: u32)
    ensures Weight(c, OnPrologue(base, {})) == 0
  {
    if c != [] {
      NoPrologues(c[1..], base);
    }
  }

  ghost predicate Addresses(prologues: seq<int>) {
    && (forall i :: 0 <= i < |prologues| ==> 0 <= prologues[i] < TWO32)
    && (forall i, j :: 0 <= i < j < |prologues| ==> prologues[i] < prologues[j])
  }

  /** Counting pairs by base is summing, over the displacements, the references that land on a prologue. */
  lemma {:induction false} PairCounting(prologues: seq<int>, displacements: seq<Tally>, base: u32)
    requires Addresses(prologues)
    ensures PairWeight(Cross(prologues, displacements), base)
      == Weight(displacements, OnPrologue(base, Members(prologues)))
  {
    hide Weight;
    if prologues == [] {
      NoPrologues(displacements, base);
      assert Members([]) == {};
    } else {
      var n := |prologues| - 1;
      PairCounting(prologues[..n], displacements, base);
      PairWeightAppend(Cross(prologues[..n], displacements), Row(prologues[n], displacements), base);
      RowWeight(prologues[n], displacements, base);
      WeightSplits(displacements, base, Members(prologues[..n]), prologues[n]);
      assert prologues == prologues[..n] + [prologues[n]];
      assert Members(prologues) == Members(prologues[..n]) + {prologues[n]};
    }
  }

  function BasesOf(pairs: seq<Pair>): set<int> {
    set p | p in pairs :: p.Base() as int
  }

  /** The bases under which some call reaches some prologue. */
  function Bases(calls: seq<int>, prologues: set<int>): (bases: set<int>)
    ensures forall b :: b in bases ==> 0 <= b < TWO32
  {
    set p, d | p in prologues && d in calls :: Anchor(p, d) as int
  }

  lemma {:induction false} ScoresKeys(pairs: seq<Pair>)
    ensures Keys(Scores(pairs)) == BasesOf(pairs) && Unique(Scores(pairs))
  {
    if pairs != [] {
      var n := |pairs| - 1;
      ScoresKeys(pairs[..n]);
      BumpKeys(Scores(pairs[..n]), pairs[n].Base(), pairs[n].references);
      assert pairs == pairs[..n] + [pairs[n]];
      assert BasesOf(pairs) == BasesOf(pairs[..n]) + {pairs[n].Base() as int};
    }
  }

  function TargetsOf(pairs: seq<Pair>, base: int): set<int> {
    set p | p in pairs && p.Base() == base :: p.target
  }

  lemma {:induction false} ScoreTargetsAre(pairs: seq<Pair>, base: int)
    ensures Get(ScoreTargets(pairs), base) == TargetsOf(pairs, base)
  {
    if pairs != [] {
      var n := |pairs| - 1;
      ScoreTargetsAre(pairs[..n], base);
      assert pairs == pairs[..n] + [pairs[n]];
      assert TargetsOf(pairs, base)
        == TargetsOf(pairs[..n], base) + if pairs[n].Base() == base then {pairs[n].target} else {};
    }
  }

  lemma {:induction false} RowMembers(target: int, displacements: seq<Tally>, pair: Pair)
    ensures pair in Row(target, displacements) <==>
      pair.target == target && Tally(pair.displacement, pair.references) in displacements
  {
    if displacements != [] {
      var n := |displacements| - 1;
      RowMembers(target, displacements[..n], pair);
      assert displacements == displacements[..n] + [displacements[n]];
    }
  }

  lemma {:induction false} CrossMembers(prologues: seq<int>, displacements: seq<Tally>, pair: Pair)
    ensures pair in Cross(prologues, displacements) <==>
      pair.target in prologues && Tally(pair.displacement, pair.references) in displacements
  {
    if prologues != [] {
      var n := |prologues| - 1;
      CrossMembers(prologues[..n], displacements, pair);
      RowMembers(prologues[n], displacements, pair);
      assert prologues == prologues[..n] + [prologues[n]];
    }
  }

  /** Every prologue and every call displacement meet in a pair. */
  lemma PairFor(prologues: seq<int>, calls: seq<int>, target: int, displacement: int) returns (pair: Pair)
    requires target in prologues && displacement in calls
    ensures pair in Cross(prologues, Tallied(calls)) && pair.target == target && pair.displacement == displacement
  {
    TalliedKeys(calls);
    var i := KeyAt(Tallied(calls), displacement);
    pair := Pair(target, displacement, Tallied(calls)[i].count);
    CrossMembers(prologues, Tallied(calls), pair);
  }

  lemma PairFrom(prologues: seq<int>, calls: seq<int>, pair: Pair)
    requires pair in Cross(prologues, Tallied(calls))
    ensures pair.target in prologues && pair.displacement in calls
  {
    CrossMembers(prologues, Tallied(calls), pair);
    TalliedKeys(calls);
    var i :| 0 <= i < |Tallied(calls)| && Tallied(calls)[i] == Tally(pair.displacement, pair.references);
    KeysAre(Tallied(calls), i);
  }

  lemma BasesAre(prologues: seq<int>, calls: seq<int>)
    ensures BasesOf(Cross(prologues, Tallied(calls))) == Bases(calls, Members(prologues))
  {
    hide Cross, Tallied, Anchor;
    var pairs := Cross(prologues, Tallied(calls));
    forall p, d | p in prologues && d in calls
      ensures Anchor(p, d) as int in BasesOf(pairs)
    {
      var pair := PairFor(prologues, calls, p, d);
      assert pair.Base() as int in BasesOf(pairs);
    }
    forall pair | pair in pairs
      ensures pair.Base() as int in Bases(calls, Members(prologues))
    {
      PairFrom(prologues, calls, pair);
    }
  }

  lemma TargetsAre(prologues: seq<int>, calls: seq<int>, base: u32)
    requires Addresses(prologues)
    ensures TargetsOf(Cross(prologues, Tallied(calls)), base) == Targets(calls, OnPrologue(base, Members(prologues)))
  {
    hide Cross, Tallied;
    var pairs := Cross(prologues, Tallied(calls));
    var q := OnPrologue(base, Members(prologues));
    forall pair | pair in pairs && pair.Base() == base
      ensures pair.target in Targets(calls, q)
    {
      PairFrom(prologues, calls, pair);
      BackAndForth(base, pair.target, pair.displacement);
      assert q.Hit(pair.displacement);
    }
    forall d | d in calls && q.Hit(d)
      ensures q.Target(d) in TargetsOf(pairs, base)
    {
      var pair := PairFor(prologues, calls, q.Target(d), d);
      BackAndForth(base, pair.target, d);
    }
  }

  // ----- Candidates -----

  datatype BaseCandidate = BaseCandidate(
    base: int, prologueReferences: nat, prologueTargets: nat, inRangeReferences: nat, inRangeTargets: nat,
    addiPrologueReferences: nat, addiPrologueTargets: nat)

  /**
   The reference definition of a base's scores: how many calls reach a prologue and how many
   prologues they reach, the same for any region, and for `addi` immediates.
   */
  ghost function Candidate(base: u32, calls: seq<int>, immediates: seq<int>, prologues: set<int>, regions: seq<Region>):
    BaseCandidate
  {
    var onPrologue, inRange, addi :=
      OnPrologue(base, prologues), InRange(base, regions), AddiOnPrologue(base, prologues);
    BaseCandidate(base,
      Hits(calls, onPrologue), |Targets(calls, onPrologue)|,
      Hits(calls, inRange), |Targets(calls, inRange)|,
      Hits(immediates, addi), |Targets(immediates, addi)|)
  }

  /** The ranking key, as compared by Python; bases break ties, smallest first. */
  predicate Outranks(a: BaseCandidate, b: BaseCandidate) {
    if a.prologueReferences != b.prologueReferences then a.prologueReferences > b.prologueReferences
    else if a.prologueTargets != b.prologueTargets then a.prologueTargets > b.prologueTargets
    else if a.addiPrologueReferences != b.addiPrologueReferences then
      a.addiPrologueReferences > b.addiPrologueReferences
    else if a.addiPrologueTargets != b.addiPrologueTargets then a.addiPrologueTargets > b.addiPrologueTargets
    else if a.inRangeReferences != b.inRangeReferences then a.inRangeReferences > b.inRangeReferences
    else if a.inRangeTargets != b.inRangeTargets then a.inRangeTargets > b.inRangeTargets
    else a.base <= b.base
  }

  lemma OutranksIsTotal()
    ensures Sorting.TotalOrder(Outranks)
  {
  }

  /** The work limits, by the numbers of distinct displacements, prologues, immediates and bases. */
  ghost predicate WithinLimits(calls: seq<int>, immediates: seq<int>, prologues: seq<int>) {
    var d := |Members(calls)|;
    && d <= MAX_INFERENCE_DISPLACEMENTS
    && |prologues| <= MAX_INFERENCE_PROLOGUES
    && d * |prologues| <= MAX_INFERENCE_PAIRS
    && |Bases(calls, Members(prologues))| * (d + |Members(immediates)|) <= MAX_CANDIDATE_SCORING_PAIRS
  }

  /** Every base's scores. */
  ghost function Candidates(calls: seq<int>, immediates: seq<int>, prologues: set<int>, regions: seq<Region>):
    set<BaseCandidate>
  {
    set base | base in Bases(calls, prologues) :: Candidate(base, calls, immediates, prologues, regions)
  }

  datatype Inference = Inference(calls: nat, displacements: nat, candidates: seq<BaseCandidate>)

  datatype InferenceFault = WorkLimits

  // ----- The program -----

  /** The scan over the words. */
  method Scan(words: seq<Located>, register: nat)
    returns (ok: bool, displacements: seq<Tally>, immediates: seq<Tally>, prologues: seq<int>)
    ensures ok <==>
      |Members(Calls(words, register))| <= MAX_INFERENCE_DISPLACEMENTS && |Prologues(words)| <= MAX_INFERENCE_PROLOGUES
    ensures ok ==> displacements == Tallied(Calls(words, register))
    ensures ok ==> immediates == Tallied(Immediates(words, register)) && prologues == Prologues(words)
  {
    displacements, immediates, prologues := [], [], [];
    for i := 0 to |words|
      invariant displacements == Tallied(Calls(words[..i], register))
      invariant immediates == Tallied(Immediates(words[..i], register))
      invariant prologues == Prologues(words[..i])
      invariant |displacements| <= MAX_INFERENCE_DISPLACEMENTS && |prologues| <= MAX_INFERENCE_PROLOGUES
    {
      var word := words[i].word;
      ScanStep(words, register, i);
      if IsCall(word, register) {
        displacements := Bump(displacements, Signed17(word) * 4, 1);
        TalliedSnoc(Calls(words[..i], register), Signed17(word) * 4);
        if |displacements| > MAX_INFERENCE_DISPLACEMENTS {
          CallsGrow(words, register, i + 1);
          return false, displacements, immediates, prologues;
        }
      }
      if IsAddi(word, register) {
        immediates := Bump(immediates, Signed17(word), 1);
        TalliedSnoc(Immediates(words[..i], register), Signed17(word));
      }
      if IsStackPrologue(word) {
        prologues := prologues + [words[i].address];
        if |prologues| > MAX_INFERENCE_PROLOGUES {
          ProloguesGrow(words, i + 1);
          return false, displacements, immediates, prologues;
        }
      }
    }
    assert words[..|words|] == words;
    TalliedKeys(Calls(words, register));
    ok := true;
  }

  lemma ScanStep(words: seq<Located>, register: nat, i: nat)
    requires i < |words|
    ensures var before, word := Calls(words[..i], register), words[i].word;
      Calls(words[..i + 1], register) == if IsCall(word, register) then before + [Signed17(word) * 4] else before
    ensures var before, word := Immediates(words[..i], register), words[i].word;
      Immediates(words[..i + 1], register) == if IsAddi(word, register) then before + [Signed17(word)] else before
    ensures var before := Prologues(words[..i]);
      Prologues(words[..i + 1]) == if IsStackPrologue(words[i].word) then before + [words[i].address as int] else before
  {
    assert words[..i + 1][..i] == words[..i];
  }

  lemma TalliedSnoc(xs: seq<int>, x: int)
    ensures Tallied(xs + [x]) == Bump(Tallied(xs), x, 1)
  {
    assert (xs + [x])[..|xs|] == xs;
  }

  lemma {:induction false} CallsGrow(words: seq<Located>, register: nat, i: nat)
    requires i <= |words| && |Tallied(Calls(words[..i], register))| > MAX_INFERENCE_DISPLACEMENTS
    ensures |Members(Calls(words, register))| > MAX_INFERENCE_DISPLACEMENTS
    decreases |words| - i
  {
    TalliedKeys(Calls(words[..i], register));
    if i == |words| {
      assert words[..i] == words;
    } else {
      ScanStep(words, register, i);
      TalliedKeys(Calls(words[..i + 1], register));
      Sorting.SubsetCount(Members(Calls(words[..i], register)), Members(Calls(words[..i + 1], register)));
      CallsGrow(words, register, i + 1);
    }
  }

  lemma {:induction false} ProloguesGrow(words: seq<Located>, i: nat)
    requires i <= |words| && |Prologues(words[..i])| > MAX_INFERENCE_PROLOGUES
    ensures |Prologues(words)| > MAX_INFERENCE_PROLOGUES
    decreases |words| - i
  {
    if i == |words| {
      assert words[..i] == words;
    } else {
      ScanStep(words, 0, i);
      ProloguesGrow(words, i + 1);
    }
  }

  lemma NoScores()
    ensures Scores([]) == [] && ScoreTargets([]) == map[]
  {
  }

  lemma ScoresSnoc(pairs: seq<Pair>, last: Pair)
    ensures var base := Anchor(last.target, last.displacement);
      && Scores(pairs + [last]) == Bump(Scores(pairs), base, last.references)
      && ScoreTargets(pairs + [last])
        == ScoreTargets(pairs)[base as int := Get(ScoreTargets(pairs), base) + {last.target}]
  {
    hide Bump, Get;
    assert (pairs + [last])[..|pairs|] == pairs;
  }

  /** The double loop over prologues and displacements. */
  method ScorePairs(prologues: seq<int>, displacements: seq<Tally>)
    returns (scores: seq<Tally>, targets: map<int, set<int>>)
    ensures scores == Scores(Cross(prologues, displacements))
    ensures targets == ScoreTargets(Cross(prologues, displacements))
  {
    hide Bump, Scores, ScoreTargets, Anchor, Get;
    scores, targets := [], map[];
    ghost var pairs: seq<Pair> := [];
    NoScores();
    for i := 0 to |prologues|
      invariant pairs == Cross(prologues[..i], displacements)
      invariant scores == Scores(pairs) && targets == ScoreTargets(pairs)
    {
      var target := prologues[i];
      ghost var before := pairs;
      for j := 0 to |displacements|
        invariant pairs == before + Row(target, displacements[..j])
        invariant scores == Scores(pairs) && targets == ScoreTargets(pairs)
      {
        var base := Anchor(target, displacements[j].key);
        assert displacements[..j + 1][..j] == displacements[..j];
        ScoresSnoc(pairs, Pair(target, displacements[j].key, displacements[j].count));
        pairs := pairs + [Pair(target, displacements[j].key, displacements[j].count)];
        scores := Bump(scores, base, displacements[j].count);
        targets := targets[base as int := Get(targets, base) + {target}];
      }
      assert displacements[..|displacements|] == displacements && prologues[..i + 1][..i] == prologues[..i];
    }
    assert prologues[..|prologues|] == prologues;
  }

  /** The distinct addresses that a counter's hits lead to. */
  function KeyTargets(c: seq<Tally>, q: Probe): set<int> {
    set t | t in c && q.Hit(t.key) :: q.Target(t.key)
  }

  lemma KeyTargetsAre(xs: seq<int>, q: Probe)
    ensures KeyTargets(Tallied(xs), q) == Targets(xs, q)
  {
    hide Tallied;
    var c := Tallied(xs);
    TalliedKeys(xs);
    forall t | t in c
      ensures t.key in xs
    {
      var i :| 0 <= i < |c| && c[i] == t;
      KeysAre(c, i);
    }
    forall x | x in xs && q.Hit(x)
      ensures q.Target(x) in KeyTargets(c, q)
    {
      var i := KeyAt(c, x);
      assert c[i] in c;
    }
  }

  lemma KeyTargetsSnoc(c: seq<Tally>, last: Tally, q: Probe)
    ensures KeyTargets(c + [last], q) == KeyTargets(c, q) + if q.Hit(last.key) then {q.Target(last.key)} else {}
  {
  }

  /** One base's score over the displacements that stay in a region. */
  method ScoreInRange(base: u32, displacements: seq<Tally>, regions: seq<Region>)
    returns (references: nat, targets: set<int>)
    requires forall i, j :: 0 <= i < j < |regions| ==> regions[i].end <= regions[j].start
    requires forall i :: 0 <= i < |regions| ==> regions[i].start < regions[i].end
    ensures references == Weight(displacements, InRange(base, regions))
    ensures targets == KeyTargets(displacements, InRange(base, regions))
  {
    hide InRegions;
    ghost var q := InRange(base, regions);
    references, targets := 0, {};
    for j := 0 to |displacements|
      invariant references == Weight(displacements[..j], q) && targets == KeyTargets(displacements[..j], q)
    {
      assert displacements[..j + 1] == displacements[..j] + [displacements[j]];
      WeightSnoc(displacements[..j], displacements[j], q);
      KeyTargetsSnoc(displacements[..j], displacements[j], q);
      var target := (base + displacements[j].key) % TWO32;
      var inside := AddressInRegions(target, regions);
      if inside {
        references := references + displacements[j].count;
        targets := targets + {target};
      }
    }
    assert displacements[..|displacements|] == displacements;
  }

  /** One base's score over the `addi` immediates that reach a prologue. */
  method ScoreAddi(base: u32, immediates: seq<Tally>, prologues: set<int>) returns (references: nat, targets: set<int>)
    ensures references == Weight(immediates, AddiOnPrologue(base, prologues))
    ensures targets == KeyTargets(immediates, AddiOnPrologue(base, prologues))
  {
    ghost var q := AddiOnPrologue(base, prologues);
    references, targets := 0, {};
    if base % 4 != 0 {
      NoAddi(immediates, base, prologues);
      return;
    }
    var rawBase := base / 4;
    for j := 0 to |immediates|
      invariant references == Weight(immediates[..j], q) && targets == KeyTargets(immediates[..j], q)
    {
      assert immediates[..j + 1] == immediates[..j] + [immediates[j]];
      WeightSnoc(immediates[..j], immediates[j], q);
      KeyTargetsSnoc(immediates[..j], immediates[j], q);
      var target := (rawBase + immediates[j].key) % TWO32 * 4 % TWO32;
      if target in prologues {
        references := references + immediates[j].count;
        targets := targets + {target};
      }
    }
    assert immediates[..|immediates|] == immediates;
  }

  lemma {:induction false} NoAddi(c: seq<Tally>, base: u32, prologues: set<int>)
    requires base % 4 != 0
    ensures Weight(c, AddiOnPrologue(base, prologues)) == 0 && KeyTargets(c, AddiOnPrologue(base, prologues)) == {}
  {
    if c != [] {
      NoAddi(c[1..], base, prologues);
    }
  }

  /** A scored base's entry is what the reference definition counts. */
  lemma ScoredBase(scores: seq<Tally>, prologues: seq<int>, calls: seq<int>, i: nat)
    requires Addresses(prologues) && scores == Scores(Cross(prologues, Tallied(calls))) && i < |scores|
    ensures scores[i].key in Bases(calls, Members(prologues)) && 0 <= scores[i].key < TWO32
    ensures scores[i].count == Hits(calls, OnPrologue(scores[i].key, Members(prologues)))
  {
    hide Cross, Tallied, Weight, Hits, Scores;
    var pairs := Cross(prologues, Tallied(calls));
    ScoresKeys(pairs);
    KeysAre(scores, i);
    BasesAre(prologues, calls);
    var base: u32 := scores[i].key;
    ScoresWeight(pairs, base);
    EntryWeight(scores, i);
    PairCounting(prologues, Tallied(calls), base);
    TalliedWeight(calls, OnPrologue(base, Members(prologues)));
  }

  /** What the two inner loops and the target table hold for one base. */
  lemma CandidateIs(base: u32, calls: seq<int>, addis: seq<int>, prologues: seq<int>, regions: seq<Region>)
    requires Addresses(prologues)
    ensures var set0, d, a := Members(prologues), Tallied(calls), Tallied(addis);
      Candidate(base, calls, addis, set0, regions) == BaseCandidate(base,
        Hits(calls, OnPrologue(base, set0)), |Get(ScoreTargets(Cross(prologues, d)), base)|,
        Weight(d, InRange(base, regions)), |KeyTargets(d, InRange(base, regions))|,
        Weight(a, AddiOnPrologue(base, set0)), |KeyTargets(a, AddiOnPrologue(base, set0))|)
  {
    hide Cross, Tallied, Weight, Hits, ScoreTargets, KeyTargets, Targets;
    ScoreTargetsAre(Cross(prologues, Tallied(calls)), base);
    TargetsAre(prologues, calls, base);
    TalliedWeight(calls, InRange(base, regions));
    KeyTargetsAre(calls, InRange(base, regions));
    TalliedWeight(addis, AddiOnPrologue(base, Members(prologues)));
    KeyTargetsAre(addis, AddiOnPrologue(base, Members(prologues)));
  }

  /** The loop over the scored bases builds each one's reference scores. */
  method ScoreBases(scores: seq<Tally>, targets: map<int, set<int>>, displacements: seq<Tally>, immediates: seq<Tally>,
    prologues: seq<int>, regions: seq<Region>, ghost calls: seq<int>, ghost addis: seq<int>)
    returns (candidates: seq<BaseCandidate>)
    requires forall i, j :: 0 <= i < j < |regions| ==> regions[i].end <= regions[j].start
    requires forall i :: 0 <= i < |regions| ==> regions[i].start < regions[i].end
    requires Addresses(prologues) && displacements == Tallied(calls) && immediates == Tallied(addis)
    requires scores == Scores(Cross(prologues, displacements))
    requires targets == ScoreTargets(Cross(prologues, displacements))
    ensures |candidates| == |scores|
    ensures forall i :: 0 <= i < |scores| ==>
      scores[i].key in Bases(calls, Members(prologues))
      && candidates[i] == Candidate(scores[i].key, calls, addis, Members(prologues), regions)
  {
    hide Scores, Cross, ScoreTargets, Tallied, Candidate, Bases;
    var prologueSet := Members(prologues);
    candidates := [];
    for i := 0 to |scores|
      invariant |candidates| == i
      invariant forall k :: 0 <= k < i ==>
        scores[k].key in Bases(calls, prologueSet)
        && candidates[k] == Candidate(scores[k].key, calls, addis, prologueSet, regions)
    {
      ScoredBase(scores, prologues, calls, i);
      var base: u32 := scores[i].key;
      var inRange, inRangeTargets := ScoreInRange(base, displacements, regions);
      var addi, addiTargets := ScoreAddi(base, immediates, prologueSet);
      var reached := Get(targets, base);
      CandidateIs(base, calls, addis, prologues, regions);
      candidates := candidates
        + [BaseCandidate(base, scores[i].count, |reached|, inRange, |inRangeTargets|, addi, |addiTargets|)];
    }
  }

  /** The candidates of the scored bases are every base's, each once. */
  lemma CandidatesListed(all: seq<BaseCandidate>, scores: seq<Tally>, calls: seq<int>, immediates: seq<int>,
    prologues: set<int>, regions: seq<Region>)
    requires |all| == |scores| && Unique(scores) && Keys(scores) == Bases(calls, prologues)
    requires forall i :: 0 <= i < |scores| ==>
      scores[i].key in Bases(calls, prologues)
      && all[i] == Candidate(scores[i].key, calls, immediates, prologues, regions)
    ensures Sorting.Distinct(all)
    ensures forall x :: x in all <==> x in Candidates(calls, immediates, prologues, regions)
  {
    hide Hits, Targets, Bases, Unique, Keys;
    forall i, j | 0 <= i < j < |all|
      ensures all[i] != all[j]
    {
      UniqueAt(scores, i, j);
    }
    forall base | base in Bases(calls, prologues)
      ensures Candidate(base, calls, immediates, prologues, regions) in all
    {
      var k := KeyAt(scores, base);
      assert all[k] in all;
    }
  }

  lemma {:induction false} UniqueAt(c: seq<Tally>, i: nat, j: nat)
    requires Unique(c) && i < j < |c|
    ensures c[i].key != c[j].key
  {
    if i == 0 {
      KeysAre(c[1..], j - 1);
    } else {
      UniqueAt(c[1..], i - 1, j - 1);
    }
  }

  /** The addresses of the prologues of an image rise below its end, and each is in a region. */
  lemma {:induction false} PrologueAddresses(words: seq<Located>, regions: seq<Region>, bound: nat)
    requires InOrder(words, regions, bound) && bound <= TWO32
    ensures Addresses(Prologues(words))
    ensures forall p :: p in Prologues(words) ==> InRegions(p, regions)
    ensures forall p :: p in Prologues(words) ==> words != [] && p <= words[|words| - 1].address
  {
    hide InRegions, IsStackPrologue;
    if words != [] {
      var n := |words| - 1;
      PrologueAddresses(words[..n], regions, bound);
      var before := Prologues(words[..n]);
      forall i | 0 <= i < |before|
        ensures before[i] < words[n].address
      {
        assert before[i] in before;
        assert words[n - 1].address < words[n].address;
      }
    }
  }

  /** `infer_base_candidates`. */
  method InferBaseCandidates(data: seq<byte>, regions: seq<Region>, register: nat, big: bool, limit: nat)
    returns (r: Result<Inference, InferenceFault>)
    requires ValidRegions(regions, |data|) && |data| <= MAX_IMAGE_BYTES
    ensures var words := Words(data, regions, big);
      var calls, immediates, prologues := Calls(words, register), Immediates(words, register), Prologues(words);
      && (r.Ok? <==> WithinLimits(calls, immediates, prologues))
      && (r.Ok? ==>
        && r.value.calls == |calls| && r.value.displacements == |Members(calls)|
        && Sorting.Best(r.value.candidates,
          Candidates(calls, immediates, Members(prologues), regions), limit, Outranks))
  {
    hide Sorting.Best, Sorting.Sort, Candidates, Outranks, Bases, Candidate, Scores, Cross, ScoreTargets, Tallied,
      Words, Calls, Immediates, Prologues, Unique, Keys, InOrder, Addresses;
    var words := IterWords(data, regions, big);
    ghost var calls, addis := Calls(words, register), Immediates(words, register);
    var ok, displacements, immediates, prologues := Scan(words, register);
    if !ok {
      return Err(WorkLimits);
    }
    TalliedKeys(calls);
    TalliedKeys(addis);
    WordsInOrder(data, regions, big);
    PrologueAddresses(words, regions, |data|);
    if |displacements| * |prologues| > MAX_INFERENCE_PAIRS {
      return Err(WorkLimits);
    }
    var scores, targets := ScorePairs(prologues, displacements);
    ScoresKeys(Cross(prologues, displacements));
    BasesAre(prologues, calls);
    KeysCount(scores);
    if |scores| * (|displacements| + |immediates|) > MAX_CANDIDATE_SCORING_PAIRS {
      return Err(WorkLimits);
    }
    var candidates := ScoreBases(scores, targets, displacements, immediates, prologues, regions, calls, addis);
    CandidatesListed(candidates, scores, calls, addis, Members(prologues), regions);
    OutranksIsTotal();
    Sorting.SortedCut(candidates, Candidates(calls, addis, Members(prologues), regions), limit, Outranks);
    candidates := Sorting.Sort(candidates, Outranks);
    var total := TotalCount(displacements);
    TalliedTotal(calls);
    return Ok(Inference(total, |displacements|, Sorting.Cut(candidates, limit)));
  }

  /** `sum(displacements.values())`. */
  function TotalCount(c: seq<Tally>): nat {
    if c == [] then 0 else c[0].count + TotalCount(c[1..])
  }

  lemma {:induction false} BumpTotal(c: seq<Tally>, key: int, n: nat)
    ensures TotalCount(Bump(c, key, n)) == TotalCount(c) + n
  {
    if c != [] && c[0].key != key {
      BumpTotal(c[1..], key, n);
      assert Bump(c, key, n)[1..] == Bump(c[1..], key, n);
    }
  }

  lemma {:induction false} TalliedTotal(xs: seq<int>)
    ensures TotalCount(Tallied(xs)) == |xs|
  {
    if xs != [] {
      TalliedTotal(xs[..|xs| - 1]);
      BumpTotal(Tallied(xs[..|xs| - 1]), xs[|xs| - 1], 1);
    }
  }

  /** Every base's scores are ordered: calls on prologues, calls in range, calls. */
  lemma {:induction false} ReferencesOrdered(calls: seq<int>, base: u32, prologues: set<int>, regions: seq<Region>)
    requires forall p :: p in prologues ==> InRegions(p, regions)
    ensures Hits(calls, OnPrologue(base, prologues)) <= Hits(calls, InRange(base, regions)) <= |calls|
    ensures Targets(calls, OnPrologue(base, prologues)) <= Targets(calls, InRange(base, regions))
  {
    hide InRegions;
    if calls != [] {
      ReferencesOrdered(calls[..|calls| - 1], base, prologues, regions);
    }
    forall x | x in calls && OnPrologue(base, prologues).Hit(x)
      ensures OnPrologue(base, prologues).Target(x) in Targets(calls, InRange(base, regions))
    {
      assert InRange(base, regions).Hit(x);
    }
  }

  /** What every inferred candidate satisfies. */
  lemma InferredOrdered(data: seq<byte>, regions: seq<Region>, register: nat, big: bool, base: u32)
    requires ValidRegions(regions, |data|) && |data| <= MAX_IMAGE_BYTES
    ensures var words := Words(data, regions, big);
      var calls := Calls(words, register);
      var c := Candidate(base, calls, Immediates(words, register), Members(Prologues(words)), regions);
      && c.prologueReferences <= c.inRangeReferences <= |calls|
      && c.prologueTargets <= c.inRangeTargets
      && (base in Bases(calls, Members(Prologues(words))) <==> c.prologueReferences > 0)
  {
    hide Words, Calls, Immediates, Prologues, InOrder, InRegions, Hits, Targets, Addresses;
    var words := Words(data, regions, big);
    var calls, prologues := Calls(words, register), Members(Prologues(words));
    WordsInOrder(data, regions, big);
    PrologueAddresses(words, regions, |data|);
    AddressRange(Prologues(words));
    ReferencesOrdered(calls, base, prologues, regions);
    Sorting.SubsetCount(Targets(calls, OnPrologue(base, prologues)), Targets(calls, InRange(base, regions)));
    SomeHit(calls, OnPrologue(base, prologues));
    if base in Bases(calls, prologues) {
      var p, d :| p in prologues && d in calls && Anchor(p, d) == base;
      BackAndForth(base, p, d);
      assert OnPrologue(base, prologues).Hit(d);
    }
    if d :| d in calls && OnPrologue(base, prologues).Hit(d) {
      BackAndForth(base, OnPrologue(base, prologues).Target(d), d);
      assert Anchor(OnPrologue(base, prologues).Target(d), d) == base;
    }
  }

  lemma AddressRange(prologues: seq<int>)
    requires Addresses(prologues)
    ensures forall p :: p in prologues ==> 0 <= p < TWO32
  {
  }

  lemma {:induction false} SomeHit(xs: seq<int>, q: Probe)
    ensures Hits(xs, q) > 0 <==> exists x :: x in xs && q.Hit(x)
  {
    if xs != [] {
      SomeHit(xs[..|xs| - 1], q);
      assert xs == xs[..|xs| - 1] + [xs[|xs| - 1]];
    }
  }

  // ----- The scores, by the words of the image -----

  /** Word `i` is a call through `register`. */
  predicate CallAt(words: seq<Located>, register: nat, i: int) {
    0 <= i < |words| && 0xC002_0000 + 0x40_0000 * register <= words[i].word < 0xC040_0000 + 0x40_0000 * register
  }

  /** Word `i` is an `addi` of `register`. */
  predicate AddiAt(words: seq<Located>, register: nat, i: int) {
    0 <= i < |words| && 0xE000_0000 + 0x40_0000 * register <= words[i].word < 0xE040_0000 + 0x40_0000 * register
  }

  /** A stack prologue stands at address `x`. */
  ghost predicate PrologueAt(words: seq<Located>, x: int) {
    exists j :: 0 <= j < |words| && words[j].address == x && 0xE77B_0000 <= words[j].word <= 0xE77B_FFFF
  }

  /** Where call `i` leads from a base. */
  function CallTarget(words: seq<Located>, base: u32, i: nat): int
    requires i < |words|
  {
    (base + 4 * Signed17(words[i].word)) % TWO32
  }

  /** Where the immediate of word `i` leads from a base. */
  function AddiTarget(words: seq<Located>, base: u32, i: nat): int
    requires i < |words|
  {
    4 * (base / 4 + Signed17(words[i].word)) % TWO32
  }

  lemma {:induction false} PrologueMembers(words: seq<Located>, x: int)
    ensures x in Prologues(words) <==> PrologueAt(words, x)
  {
    hide IsStackPrologue;
    if words != [] {
      var n := |words| - 1;
      PrologueMembers(words[..n], x);
      PrologueWords(words[n].word);
      if PrologueAt(words[..n], x) {
        var j :| 0 <= j < n && words[..n][j].address == x && 0xE77B_0000 <= words[..n][j].word <= 0xE77B_FFFF;
        assert words[j] == words[..n][j];
      }
      if PrologueAt(words, x) {
        var j :| 0 <= j < |words| && words[j].address == x && 0xE77B_0000 <= words[j].word <= 0xE77B_FFFF;
        assert j < n ==> words[..n][j] == words[j];
      }
    }
  }

  ghost function CallHits(words: seq<Located>, register: nat, q: Probe): (hits: set<nat>)
    ensures forall i :: i in hits ==> i < |words|
  {
    set i: nat | i < |words| && CallAt(words, register, i) && q.Hit(Signed17(words[i].word) * 4)
  }

  ghost function AddiHits(words: seq<Located>, register: nat, q: Probe): (hits: set<nat>)
    ensures forall i :: i in hits ==> i < |words|
  {
    set i: nat | i < |words| && AddiAt(words, register, i) && q.Hit(Signed17(words[i].word))
  }

  lemma CallHitsStep(words: seq<Located>, register: nat, q: Probe)
    requires words != [] && register < 32
    ensures var n := |words| - 1;
      CallHits(words, register, q) == CallHits(words[..n], register, q)
        + if IsCall(words[n].word, register) && q.Hit(Signed17(words[n].word) * 4) then {n as nat} else {}
  {
    hide IsCall, Signed17;
    CallWords(words[|words| - 1].word, register);
  }

  /** The addresses that the words at some indices lead to. */
  ghost function CallsImage(words: seq<Located>, q: Probe, s: set<nat>): set<int>
    requires forall i :: i in s ==> i < |words|
  {
    set i | i in s :: q.Target(Signed17(words[i].word) * 4)
  }

  lemma {:induction false} CallsByWord(words: seq<Located>, register: nat, q: Probe)
    requires register < 32
    ensures Hits(Calls(words, register), q) == |CallHits(words, register, q)|
    ensures Targets(Calls(words, register), q) == CallsImage(words, q, CallHits(words, register, q))
  {
    hide IsCall, Signed17, Hits, Targets, CallHits, CallsImage, Probe.Hit, Probe.Target;
    if words == [] {
      NothingCalls(words, register, q);
    } else {
      var n := |words| - 1;
      CallsByWord(words[..n], register, q);
      CallHitsStep(words, register, q);
      CallsImageGrows(words, q, CallHits(words[..n], register, q));
      if IsCall(words[n].word, register) {
        HitsSnoc(Calls(words[..n], register), Signed17(words[n].word) * 4, q);
      }
    }
  }

  lemma CallsImageGrows(words: seq<Located>, q: Probe, before: set<nat>)
    requires words != [] && forall i :: i in before ==> i < |words| - 1
    ensures var n := |words| - 1;
      && CallsImage(words, q, before) == CallsImage(words[..n], q, before)
      && CallsImage(words, q, before + {n}) == CallsImage(words, q, before) + {q.Target(Signed17(words[n].word) * 4)}
  {
    hide Signed17, Probe.Target;
    assert forall i :: i in before ==> words[..|words| - 1][i] == words[i];
  }

  lemma NothingCalls(words: seq<Located>, register: nat, q: Probe)
    requires words == []
    ensures Hits(Calls(words, register), q) == |CallHits(words, register, q)|
    ensures Targets(Calls(words, register), q) == CallsImage(words, q, CallHits(words, register, q))
  {
    assert CallHits(words, register, q) == {};
  }

  lemma AddiHitsStep(words: seq<Located>, register: nat, q: Probe)
    requires words != [] && register < 32
    ensures var n := |words| - 1;
      AddiHits(words, register, q) == AddiHits(words[..n], register, q)
        + if IsAddi(words[n].word, register) && q.Hit(Signed17(words[n].word)) then {n as nat} else {}
  {
    hide IsAddi, Signed17;
    AddiWords(words[|words| - 1].word, register);
  }

  /** The addresses that the words at some indices lead to. */
  ghost function AddisImage(words: seq<Located>, q: Probe, s: set<nat>): set<int>
    requires forall i :: i in s ==> i < |words|
  {
    set i | i in s :: q.Target(Signed17(words[i].word))
  }

  lemma {:induction false} AddisByWord(words: seq<Located>, register: nat, q: Probe)
    requires register < 32
    ensures Hits(Immediates(words, register), q) == |AddiHits(words, register, q)|
    ensures Targets(Immediates(words, register), q) == AddisImage(words, q, AddiHits(words, register, q))
  {
    hide IsAddi, Signed17, Hits, Targets, AddiHits, AddisImage, Probe.Hit, Probe.Target;
    if words == [] {
      NothingAddis(words, register, q);
    } else {
      var n := |words| - 1;
      AddisByWord(words[..n], register, q);
      AddiHitsStep(words, register, q);
      AddisImageGrows(words, q, AddiHits(words[..n], register, q));
      if IsAddi(words[n].word, register) {
        HitsSnoc(Immediates(words[..n], register), Signed17(words[n].word), q);
      }
    }
  }

  lemma AddisImageGrows(words: seq<Located>, q: Probe, before: set<nat>)
    requires words != [] && forall i :: i in before ==> i < |words| - 1
    ensures var n := |words| - 1;
      && AddisImage(words, q, before) == AddisImage(words[..n], q, before)
      && AddisImage(words, q, before + {n}) == AddisImage(words, q, before) + {q.Target(Signed17(words[n].word))}
  {
    hide Signed17, Probe.Target;
    assert forall i :: i in before ==> words[..|words| - 1][i] == words[i];
  }

  lemma NothingAddis(words: seq<Located>, register: nat, q: Probe)
    requires words == []
    ensures Hits(Immediates(words, register), q) == |AddiHits(words, register, q)|
    ensures Targets(Immediates(words, register), q) == AddisImage(words, q, AddiHits(words, register, q))
  {
    assert AddiHits(words, register, q) == {};
  }

  lemma HitsSnoc(xs: seq<int>, x: int, q: Probe)
    ensures Hits(xs + [x], q) == Hits(xs, q) + if q.Hit(x) then 1 else 0
    ensures Targets(xs + [x], q) == Targets(xs, q) + if q.Hit(x) then {q.Target(x)} else {}
  {
    assert (xs + [x])[..|xs|] == xs;
  }

  /** The calls that lead to a stack prologue. */
  ghost function ReachingCalls(words: seq<Located>, register: nat, base: u32): (s: set<nat>)
    ensures forall i :: i in s ==> i < |words|
  {
    set i: nat | i < |words| && CallAt(words, register, i) && PrologueAt(words, CallTarget(words, base, i))
  }

  /** The calls that lead into a region. */
  ghost function InsideCalls(words: seq<Located>, register: nat, base: u32, regions: seq<Region>): (s: set<nat>)
    ensures forall i :: i in s ==> i < |words|
  {
    set i: nat | i < |words| && CallAt(words, register, i) && InRegions(CallTarget(words, base, i), regions)
  }

  /** The `addi` words that lead to a stack prologue, under a word-aligned base. */
  ghost function ReachingAddis(words: seq<Located>, register: nat, base: u32): (s: set<nat>)
    ensures forall i :: i in s ==> i < |words|
  {
    set i: nat | i < |words| && base % 4 == 0 && AddiAt(words, register, i)
      && PrologueAt(words, AddiTarget(words, base, i))
  }

  lemma ReachingByWord(words: seq<Located>, register: nat, base: u32)
    requires register < 32
    ensures var q, reaching := OnPrologue(base, Members(Prologues(words))), ReachingCalls(words, register, base);
      && Hits(Calls(words, register), q) == |reaching|
      && Targets(Calls(words, register), q) == set i | i in reaching :: CallTarget(words, base, i)
  {
    hide Calls, Prologues, Hits, Targets, Signed17, PrologueAt, CallAt;
    var prologues := Members(Prologues(words));
    forall x: int
      ensures x in prologues <==> PrologueAt(words, x)
    {
      PrologueMembers(words, x);
    }
    CallsByWord(words, register, OnPrologue(base, prologues));
    assert ReachingCalls(words, register, base) == CallHits(words, register, OnPrologue(base, prologues));
  }

  lemma InsideByWord(words: seq<Located>, register: nat, base: u32, regions: seq<Region>)
    requires register < 32
    ensures var q, inside := InRange(base, regions), InsideCalls(words, register, base, regions);
      && Hits(Calls(words, register), q) == |inside|
      && Targets(Calls(words, register), q) == set i | i in inside :: CallTarget(words, base, i)
  {
    hide Calls, Hits, Targets, Signed17, InRegions, CallAt;
    CallsByWord(words, register, InRange(base, regions));
    assert InsideCalls(words, register, base, regions) == CallHits(words, register, InRange(base, regions));
  }

  lemma AddiReachingByWord(words: seq<Located>, register: nat, base: u32)
    requires register < 32
    ensures var q, reaching := AddiOnPrologue(base, Members(Prologues(words))), ReachingAddis(words, register, base);
      && Hits(Immediates(words, register), q) == |reaching|
      && Targets(Immediates(words, register), q) == set i | i in reaching :: AddiTarget(words, base, i)
  {
    hide Immediates, Prologues, Hits, Targets, Signed17, PrologueAt, AddiAt;
    var prologues := Members(Prologues(words));
    forall x: int
      ensures x in prologues <==> PrologueAt(words, x)
    {
      PrologueMembers(words, x);
    }
    forall i: nat | i < |words|
      ensures AddiTarget(words, base, i) == AddiOnPrologue(base, prologues).Target(Signed17(words[i].word))
    {
      FourTimes(base / 4 + Signed17(words[i].word));
    }
    AddisByWord(words, register, AddiOnPrologue(base, prologues));
    assert ReachingAddis(words, register, base) == AddiHits(words, register, AddiOnPrologue(base, prologues));
  }

  /**
   The six scores of a base, said of the words themselves: how many calls through the register lead to
   a stack prologue and to how many, how many lead into a region and to how many addresses, and the
   same for the `addi` words, which only count under a word-aligned base.
   */
  lemma ScoresByWord(words: seq<Located>, register: nat, base: u32, regions: seq<Region>)
    requires register < 32
    ensures
      var reaching, inside, addis := ReachingCalls(words, register, base),
        InsideCalls(words, register, base, regions), ReachingAddis(words, register, base);
      Candidate(base, Calls(words, register), Immediates(words, register), Members(Prologues(words)), regions)
        == BaseCandidate(base,
          |reaching|, |set i | i in reaching :: CallTarget(words, base, i)|,
          |inside|, |set i | i in inside :: CallTarget(words, base, i)|,
          |addis|, |set i | i in addis :: AddiTarget(words, base, i)|)
  {
    hide Calls, Immediates, Prologues, Hits, Targets, Signed17, InRegions, ReachingCalls, InsideCalls, ReachingAddis,
      CallTarget, AddiTarget;
    ReachingByWord(words, register, base);
    InsideByWord(words, register, base, regions);
    AddiReachingByWord(words, register, base);
  }

  lemma FourTimes(x: int)
    ensures 4 * x % TWO32 == x % TWO32 * 4 % TWO32
  {
    SameModulo(4 * x, x % TWO32 * 4, 4 * (x / TWO32));
  }

  // ----- The ranking -----

  /** The numbers that candidates are compared by, one after the other. */
  function Key(c: BaseCandidate): (k: seq<int>)
    ensures |k| == 7
  {
    [c.prologueReferences, c.prologueTargets, c.addiPrologueReferences, c.addiPrologueTargets, c.inRangeReferences,
      c.inRangeTargets, -c.base]
  }

  lemma OutranksByKey(a: BaseCandidate, b: BaseCandidate)
    ensures Outranks(a, b) <==>
      forall i :: 0 <= i < 7 && (forall j :: 0 <= j < i ==> Key(a)[j] == Key(b)[j]) ==> Key(a)[i] >= Key(b)[i]
  {
    var x, y := Key(a), Key(b);
    var i := if x[0] != y[0] then 0 else if x[1] != y[1] then 1 else if x[2] != y[2] then 2
      else if x[3] != y[3] then 3 else if x[4] != y[4] then 4 else if x[5] != y[5] then 5 else 6;
    assert forall j :: 0 <= j < i ==> x[j] == y[j];
    assert Outranks(a, b) <==> x[i] >= y[i];
    if x[i] >= y[i] {
      forall m | 0 <= m < 7 && forall j :: 0 <= j < m ==> x[j] == y[j]
        ensures x[m] >= y[m]
      {
      }
    }
  }
}
