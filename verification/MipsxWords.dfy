/** Instruction words of an image and the code regions they are read from: firmware/mipsx_dasm.py. */
module MipsxWords {
  import opened Bytes
  import opened Wrappers
  import Sorting

  const MAX_IMAGE_BYTES := 0x100_0000
  const MAX_REGIONS := 64

  // ----- Fields of a word -----

  function Kind(word: u32): (k: nat)
    ensures k < 4
  {
    word / 0x4000_0000
  }

  function Operation(word: u32): (f: nat)
    ensures f < 8
  {
    word / 0x0800_0000 % 8
  }

  function Source1(word: u32): (f: nat)
    ensures f < 32
  {
    word / 0x40_0000 % 32
  }

  function Source2(word: u32): (f: nat)
    ensures f < 32
  {
    word / 0x2_0000 % 32
  }

  function Signed17(word: u32): int {
    var v := word % 0x2_0000;
    if v >= 0x1_0000 then v - 0x2_0000 else v
  }

  function Signed16(word: u32): int {
    var v := word % 0x1_0000;
    if v >= 0x8000 then v - 0x1_0000 else v
  }

  /** The 17-bit displacement is the number of its width in two's complement. */
  lemma SignedField17(word: u32, v: int)
    ensures Signed17(word) == v <==> -0x1_0000 <= v < 0x1_0000 && (word - v) % 0x2_0000 == 0
  {
    var p, q := word / 0x2_0000, (word - v) / 0x2_0000;
    assert word == 0x2_0000 * p + word % 0x2_0000;
    assert word - v == 0x2_0000 * q + (word - v) % 0x2_0000;
  }

  /** So is the 16-bit one. */
  lemma SignedField16(word: u32, v: int)
    ensures Signed16(word) == v <==> -0x8000 <= v < 0x8000 && (word - v) % 0x1_0000 == 0
  {
    var p, q := word / 0x1_0000, (word - v) / 0x1_0000;
    assert word == 0x1_0000 * p + word % 0x1_0000;
    assert word - v == 0x1_0000 * q + (word - v) % 0x1_0000;
  }

  /** A word is its kind, operation, two register fields and low 17 bits. */
  lemma WordIsFields(word: u32)
    ensures word == 0x4000_0000 * Kind(word) + 0x0800_0000 * Operation(word) + 0x40_0000 * Source1(word)
      + 0x2_0000 * Source2(word) + word % 0x2_0000
  {
    var x1, x2, x3 := word / 0x2_0000, word / 0x40_0000, word / 0x0800_0000;
    assert x1 == 32 * x2 + x1 % 32;
    assert x2 == 32 * x3 + x2 % 32;
    assert x3 == 8 * Kind(word) + x3 % 8;
    assert word == 0x2_0000 * x1 + word % 0x2_0000;
  }

  /** No other fields give the word. */
  lemma WordFields(word: u32, kind: nat, operation: nat, source1: nat, source2: nat, low: nat)
    requires kind < 4 && operation < 8 && source1 < 32 && source2 < 32 && low < 0x2_0000
    requires
      word == 0x4000_0000 * kind + 0x0800_0000 * operation + 0x40_0000 * source1 + 0x2_0000 * source2 + low
    ensures Kind(word) == kind && Operation(word) == operation && Source1(word) == source1 && Source2(word) == source2
    ensures word % 0x2_0000 == low
  {
    hide Kind, Operation, Source1, Source2;
    WordIsFields(word);
    assert word % 0x2_0000 == low by {
      var p := word / 0x2_0000;
      assert word == 0x2_0000 * p + word % 0x2_0000;
    }
  }

  lemma SameModulo(a: int, b: int, q: int)
    requires a == b + q * TWO32
    ensures a % TWO32 == b % TWO32
  {
    assert b == (b / TWO32) * TWO32 + b % TWO32;
    assert a == (b / TWO32 + q) * TWO32 + b % TWO32;
    UniqueRemainder(a, b / TWO32 + q, b % TWO32);
  }

  lemma UniqueRemainder(a: int, q: int, r: int)
    requires a == q * TWO32 + r && 0 <= r < TWO32
    ensures a % TWO32 == r
  {
  }

  // ----- Regions -----

  datatype Region = Region(start: nat, end: nat)

  datatype RegionFault = TooManyRegions | EmptyRegion | Unaligned | BeyondImage | RegionsOverlap | NoRegion

  predicate Before(a: Region, b: Region) {
    a.start < b.start || (a.start == b.start && a.end <= b.end)
  }

  predicate InRegion(r: Region, address: int) {
    r.start <= address < r.end
  }

  /** Some region contains the address. */
  predicate InRegions(address: int, regions: seq<Region>) {
    exists i :: 0 <= i < |regions| && InRegion(regions[i], address)
  }

  /** Aligned, nonempty regions of an image, in order and apart. */
  ghost predicate ValidRegions(regions: seq<Region>, size: nat) {
    && 0 < |regions| <= MAX_REGIONS
    && (forall i :: 0 <= i < |regions| ==>
      regions[i].start < regions[i].end <= size && regions[i].start % 4 == 0 && regions[i].end % 4 == 0)
    && (forall i, j :: 0 <= i < j < |regions| ==> regions[i].end <= regions[j].start)
  }

  lemma SortedRegions(regions: seq<Region>)
    ensures Sorting.Ordered(Sorting.Sort(regions, Before), Before)
    ensures multiset(Sorting.Sort(regions, Before)) == multiset(regions)
  {
    Sorting.SortOrdered(regions, Before);
  }

  /** `validate_regions`: success leaves the sorted regions, which are valid; a valid arrangement is never refused. */
  method ValidateRegions(regions: seq<Region>, imageSize: nat) returns (r: Result<seq<Region>, RegionFault>)
    ensures r.Ok? <==> ValidRegions(Sorting.Sort(regions, Before), imageSize)
    ensures r.Ok? ==> r.value == Sorting.Sort(regions, Before) && multiset(r.value) == multiset(regions)
  {
    hide Sorting.Sort;
    var sorted := Sorting.Sort(regions, Before);
    SortedRegions(regions);
    hide Before;
    if |sorted| > MAX_REGIONS {
      return Err(TooManyRegions);
    }
    var previousEnd: int := -1;
    for i := 0 to |sorted|
      invariant i == 0 ==> previousEnd == -1
      invariant i > 0 ==> previousEnd == sorted[i - 1].end
      invariant forall k :: 0 <= k < i ==>
        sorted[k].start < sorted[k].end <= imageSize && sorted[k].start % 4 == 0 && sorted[k].end % 4 == 0
      invariant forall j, k :: 0 <= j < k < i ==> sorted[j].end <= sorted[k].start
    {
      if sorted[i].start >= sorted[i].end {
        return Err(EmptyRegion);
      }
      if sorted[i].start % 4 != 0 || sorted[i].end % 4 != 0 {
        return Err(Unaligned);
      }
      if sorted[i].end > imageSize {
        return Err(BeyondImage);
      }
      if sorted[i].start < previousEnd {
        return Err(RegionsOverlap);
      }
      previousEnd := sorted[i].end;
    }
    if sorted == [] {
      return Err(NoRegion);
    }
    return Ok(sorted);
  }

  /** `address_in_regions`: the binary search over the region starts decides membership in any region. */
  method AddressInRegions(address: int, regions: seq<Region>) returns (found: bool)
    requires forall i, j :: 0 <= i < j < |regions| ==> regions[i].end <= regions[j].start
    requires forall i :: 0 <= i < |regions| ==> regions[i].start < regions[i].end
    ensures found <==> InRegions(address, regions)
  {
    var low, high := 0, |regions|;
    while low < high
      invariant 0 <= low <= high <= |regions|
      invariant forall i :: 0 <= i < low ==> regions[i].start <= address
      invariant forall i :: high <= i < |regions| ==> address < regions[i].start
    {
      var middle := (low + high) / 2;
      if regions[middle].start <= address {
        low := middle + 1;
      } else {
        high := middle;
      }
    }
    found := low > 0 && address < regions[low - 1].end;
    if found {
      assert InRegion(regions[low - 1], address);
    }
  }

  // ----- Words in order -----

  datatype Located = Located(address: nat, word: u32)

  function WordAt(data: seq<byte>, address: nat, big: bool): u32
    requires address + 4 <= |data|
  {
    if big then U32At(data, address) else LeU32At(data, address)
  }

  function RegionWords(data: seq<byte>, start: nat, end: nat, big: bool): (words: seq<Located>)
    requires start % 4 == 0 && end % 4 == 0 && end <= |data|
  {
    if end <= start then [] else RegionWords(data, start, end - 4, big) + [Located(end - 4, WordAt(data, end - 4, big))]
  }

  /** `iter_words`: every word of every region. */
  function Words(data: seq<byte>, regions: seq<Region>, big: bool): seq<Located>
    requires forall i :: 0 <= i < |regions| ==>
      regions[i].start % 4 == 0 && regions[i].end % 4 == 0 && regions[i].end <= |data|
  {
    if regions == [] then []
    else
      var n := |regions| - 1;
      Words(data, regions[..n], big) + RegionWords(data, regions[n].start, regions[n].end, big)
  }

  method IterWords(data: seq<byte>, regions: seq<Region>, big: bool) returns (words: seq<Located>)
    requires ValidRegions(regions, |data|)
    ensures words == Words(data, regions, big)
  {
    hide WordAt;
    words := [];
    for i := 0 to |regions|
      invariant words == Words(data, regions[..i], big)
    {
      ghost var before := words;
      assert regions[..i + 1][..i] == regions[..i];
      var address := regions[i].start;
      while address < regions[i].end
        invariant regions[i].start <= address <= regions[i].end && address % 4 == 0
        invariant words == before + RegionWords(data, regions[i].start, address, big)
      {
        words := words + [Located(address, WordAt(data, address, big))];
        address := address + 4;
      }
    }
    assert regions[..|regions|] == regions;
  }

  /** Addresses rise strictly, below `bound`, and each lies in a region. */
  ghost predicate InOrder(words: seq<Located>, regions: seq<Region>, bound: int) {
    && (forall i, j :: 0 <= i < j < |words| ==> words[i].address < words[j].address)
    && (forall i :: 0 <= i < |words| ==> words[i].address < bound && InRegions(words[i].address, regions))
  }

  ghost predicate Rising(words: seq<Located>, low: int, high: int) {
    && (forall i, j :: 0 <= i < j < |words| ==> words[i].address < words[j].address)
    && (forall i :: 0 <= i < |words| ==> low <= words[i].address < high)
  }

  lemma {:induction false} RegionWordsRise(data: seq<byte>, start: nat, end: nat, big: bool)
    requires start % 4 == 0 && end % 4 == 0 && end <= |data|
    ensures Rising(RegionWords(data, start, end, big), start, end)
  {
    hide WordAt;
    if start < end {
      RegionWordsRise(data, start, end - 4, big);
      RisingSnoc(RegionWords(data, start, end - 4, big), start, end - 4, Located(end - 4, WordAt(data, end - 4, big)));
    }
  }

  lemma RisingSnoc(words: seq<Located>, low: int, high: int, last: Located)
    requires Rising(words, low, high) && low <= high == last.address
    ensures Rising(words + [last], low, high + 4)
  {
  }

  lemma {:induction false} WordsInOrder(data: seq<byte>, regions: seq<Region>, big: bool)
    requires forall i :: 0 <= i < |regions| ==>
      regions[i].start % 4 == 0 && regions[i].end % 4 == 0 && regions[i].start < regions[i].end <= |data|
    requires forall i, j :: 0 <= i < j < |regions| ==> regions[i].end <= regions[j].start
    ensures InOrder(Words(data, regions, big), regions, |data|)
  {
    hide RegionWords;
    if regions != [] {
      var n := |regions| - 1;
      WordsInOrder(data, regions[..n], big);
      RegionWordsRise(data, regions[n].start, regions[n].end, big);
      InOrderAppend(Words(data, regions[..n], big), RegionWords(data, regions[n].start, regions[n].end, big), regions,
        |data|);
    }
  }

  lemma InOrderAppend(before: seq<Located>, more: seq<Located>, regions: seq<Region>, bound: int)
    requires regions != [] && regions[|regions| - 1].end <= bound
    requires forall i :: 0 <= i < |regions| - 1 ==> regions[i].end <= regions[|regions| - 1].start
    requires InOrder(before, regions[..|regions| - 1], bound)
    requires Rising(more, regions[|regions| - 1].start, regions[|regions| - 1].end)
    ensures InOrder(before + more, regions, bound)
  {
    var n := |regions| - 1;
    forall i | 0 <= i < |before|
      ensures before[i].address < regions[n].start && InRegions(before[i].address, regions)
    {
      var k :| 0 <= k < n && InRegion(regions[..n][k], before[i].address);
      assert InRegion(regions[k], before[i].address) && regions[k].end <= regions[n].start;
    }
    forall i | 0 <= i < |more|
      ensures InRegions(more[i].address, regions)
    {
      assert InRegion(regions[n], more[i].address);
    }
  }
}
