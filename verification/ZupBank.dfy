/** firmware/zup_bank.py: a `+kxz` package and the bank it reconstructs to. */
module ZupBank {
  import opened Bytes
  import opened Wrappers
  import opened Pieces
  import opened Codec
  import Sorting

  const OUTER_BYTES := 24
  const INNER_HEADER_BYTES := 16
  const HEADERS := OUTER_BYTES + INNER_HEADER_BYTES
  const BANK_BYTES := 0x80000
  const MAX_PACKAGE_BYTES := 1024 * 1024
  const MAX_REGIONS := 256
  const MAP_VERSION := 2

  const KUP1: seq<byte> := [0x6B, 0x75, 0x70, 0x31]
  const KXZ: seq<byte> := [0x2B, 0x6B, 0x78, 0x7A]
  const ATA4: seq<byte> := [0x41, 0x54, 0x41, 0x34]

  /** Why a package is refused. */
  datatype Fault =
    | PackageSize | OuterMagic | InnerMagic | InnerLength | InnerChecksum
    | TableOffset | TooManyRegions | TableEnd | MapVersion
    | RawOverrun | CompressedOverrun | BadGap
    | DestinationOverlap | DestinationBounds
    | BadStream | TrailerMissing | TrailerMismatch

  datatype RawSpec = RawSpec(destination: u32, size: u32)
  datatype CompressedSpec = CompressedSpec(destination: u32, outputSize: u32, storedSize: u32)

  datatype RawRegion = RawRegion(source: nat, destination: nat, size: nat)
  datatype CompressedRegion =
    CompressedRegion(source: nat, destination: nat, outputSize: nat, storedSize: nat, crc: u32)

  datatype BankResult = BankResult(
    data: seq<byte>, tableOffset: nat, formatVersion: nat,
    rawRegions: seq<RawRegion>, compressedRegions: seq<CompressedRegion>)

  // ----- Destinations -----

  datatype Interval = Interval(start: nat, end: nat)

  /** The order of Python tuples. */
  predicate Before(a: Interval, b: Interval) {
    a.start < b.start || (a.start == b.start && a.end <= b.end)
  }

  function SortedIntervals(regions: seq<Interval>): seq<Interval> {
    Sorting.Sort(regions, Before)
  }

  /** The check of each interval of a sorted list against the end of the one before. */
  function AdjacencyFault(sorted: seq<Interval>, previousEnd: nat): Option<Fault> {
    if sorted == [] then None
    else if sorted[0].start < previousEnd then Some(DestinationOverlap)
    else if sorted[0].start >= sorted[0].end || sorted[0].end > BANK_BYTES then Some(DestinationBounds)
    else AdjacencyFault(sorted[1..], sorted[0].end)
  }

  /** `_validate_destinations`. */
  method ValidateDestinations(regions: seq<Interval>) returns (fault: Option<Fault>)
    ensures fault == AdjacencyFault(SortedIntervals(regions), 0)
    ensures fault == None <==> ValidDestinations(regions)
  {
    AdjacencyIsDisjointness(regions);
    var sorted := SortedIntervals(regions);
    var previousEnd := 0;
    var i := 0;
    while i < |sorted|
      invariant 0 <= i <= |sorted|
      invariant AdjacencyFault(sorted, 0) == AdjacencyFault(sorted[i..], previousEnd)
    {
      if sorted[i].start < previousEnd {
        return Some(DestinationOverlap);
      }
      if sorted[i].start >= sorted[i].end || sorted[i].end > BANK_BYTES {
        return Some(DestinationBounds);
      }
      previousEnd := sorted[i].end;
      i := i + 1;
    }
    return None;
  }

  predicate InBank(r: Interval) {
    r.start < r.end <= BANK_BYTES
  }

  predicate Apart(a: Interval, b: Interval) {
    a.end <= b.start || b.end <= a.start
  }

  /** What the check is for: nonempty intervals of the bank, pairwise disjoint. */
  ghost predicate ValidDestinations(regions: seq<Interval>) {
    && (forall i :: 0 <= i < |regions| ==> InBank(regions[i]))
    && (forall i, j :: 0 <= i < j < |regions| ==> Apart(regions[i], regions[j]))
  }

  /** The adjacency check on the sorted list decides pairwise disjointness. */
  lemma {:induction false} AdjacencyIsDisjointness(regions: seq<Interval>)
    ensures AdjacencyFault(SortedIntervals(regions), 0) == None <==> ValidDestinations(regions)
  {
    if regions != [] {
      var rest := regions[1..];
      var sorted := SortedIntervals(rest);
      AdjacencyIsDisjointness(rest);
      Sorting.SortOrdered(rest, Before);
      AdjacencyOfInsert(regions[0], sorted, 0);
      ValidCons(regions[0], rest);
      assert regions == [regions[0]] + rest;
      assert forall r :: r in rest <==> r in multiset(sorted);
    }
  }

  lemma ValidCons(x: Interval, rest: seq<Interval>)
    ensures ValidDestinations([x] + rest) <==>
      ValidDestinations(rest) && InBank(x) && forall r :: r in rest ==> Apart(x, r)
  {
    var all := [x] + rest;
    if ValidDestinations(all) {
      forall i | 0 <= i < |rest|
        ensures InBank(rest[i]) && Apart(x, rest[i])
      {
        assert rest[i] == all[i + 1] && x == all[0];
      }
      forall i, j | 0 <= i < j < |rest|
        ensures Apart(rest[i], rest[j])
      {
        assert rest[i] == all[i + 1] && rest[j] == all[j + 1];
      }
    }
    if ValidDestinations(rest) && InBank(x) && forall r :: r in rest ==> Apart(x, r) {
      forall j | 0 < j < |all|
        ensures InBank(all[j]) && Apart(all[0], all[j])
      {
        assert all[j] == rest[j - 1] && rest[j - 1] in rest;
      }
      forall i, j | 0 < i < j < |all|
        ensures Apart(all[i], all[j])
      {
        assert all[i] == rest[i - 1] && all[j] == rest[j - 1];
      }
    }
  }

  lemma {:induction false} AdjacencyOfInsert(x: Interval, sorted: seq<Interval>, previousEnd: nat)
    requires Sorting.Ordered(sorted, Before)
    ensures AdjacencyFault(Sorting.Insert(x, sorted, Before), previousEnd) == None <==>
      AdjacencyFault(sorted, previousEnd) == None && InBank(x) && previousEnd <= x.start
      && forall r :: r in sorted ==> Apart(x, r)
  {
    if sorted == [] {
    } else if Before(x, sorted[0]) {
      assert ([x] + sorted)[1..] == sorted;
      AdjacencyStart(sorted, previousEnd, x.end);
      if AdjacencyFault(sorted, x.end) == None {
        AdjacencyLeast(sorted, x.end);
      }
      assert sorted[0] in sorted;
    } else {
      var inserted := Sorting.Insert(x, sorted[1..], Before);
      assert ([sorted[0]] + inserted)[1..] == inserted;
      AdjacencyOfInsert(x, sorted[1..], sorted[0].end);
      assert sorted == [sorted[0]] + sorted[1..];
      assert (forall r :: r in sorted ==> Apart(x, r)) <==>
        Apart(x, sorted[0]) && forall r :: r in sorted[1..] ==> Apart(x, r);
    }
  }

  /** Only the first interval meets the starting bound. */
  lemma AdjacencyStart(sorted: seq<Interval>, a: nat, b: nat)
    ensures AdjacencyFault(sorted, b) == None && (sorted == [] || a <= sorted[0].start)
      ==> AdjacencyFault(sorted, a) == None
    ensures AdjacencyFault(sorted, a) == None && (sorted == [] || b <= sorted[0].start)
      ==> AdjacencyFault(sorted, b) == None
    ensures AdjacencyFault(sorted, b) == None && sorted != [] ==> b <= sorted[0].start
  {
  }

  lemma {:induction false} AdjacencyLeast(sorted: seq<Interval>, previousEnd: nat)
    requires AdjacencyFault(sorted, previousEnd) == None
    ensures forall r :: r in sorted ==> InBank(r) && previousEnd <= r.start
    ensures forall r :: r in sorted ==> sorted[0].start <= r.start
  {
    if sorted != [] {
      AdjacencyLeast(sorted[1..], sorted[0].end);
      assert sorted == [sorted[0]] + sorted[1..];
    }
  }

  // ----- The map table -----

  function RawSpecAt(p: seq<byte>, at: nat): RawSpec
    requires at + 8 <= |p|
  {
    RawSpec(U32At(p, at), U32At(p, at + 4))
  }

  function CompressedSpecAt(p: seq<byte>, at: nat): CompressedSpec
    requires at + 12 <= |p|
  {
    CompressedSpec(U32At(p, at), U32At(p, at + 4), U32At(p, at + 8))
  }

  function RawSpecsAt(p: seq<byte>, at: nat, n: nat): (specs: seq<RawSpec>)
    requires at + 8 * n <= |p|
    ensures |specs| == n
  {
    seq(n, i requires 0 <= i < n => RawSpecAt(p, at + 8 * i))
  }

  function CompressedSpecsAt(p: seq<byte>, at: nat, n: nat): (specs: seq<CompressedSpec>)
    requires at + 12 * n <= |p|
    ensures |specs| == n
  {
    seq(n, i requires 0 <= i < n => CompressedSpecAt(p, at + 12 * i))
  }

  /** The map of a package: where its table is, and what the table says. */
  datatype Map = Map(tableOffset: nat, raws: seq<RawSpec>, compressed: seq<CompressedSpec>)
  {
    function RawSizes(): (sizes: seq<nat>)
      ensures |sizes| == |raws|
    {
      seq(|raws|, i requires 0 <= i < |raws| => raws[i].size)
    }

    function StoredSizes(): (sizes: seq<nat>)
      ensures |sizes| == |compressed|
    {
      seq(|compressed|, i requires 0 <= i < |compressed| => compressed[i].storedSize)
    }

    function RawEnd(): nat {
      HEADERS + Offset(RawSizes(), |raws|)
    }

    function SourceEnd(): nat {
      RawEnd() + Offset(StoredSizes(), |compressed|)
    }

    function RawInterval(i: nat): Interval
      requires i < |raws|
    {
      Interval(raws[i].destination, raws[i].destination + raws[i].size)
    }

    function CompressedInterval(i: nat): Interval
      requires i < |compressed|
    {
      Interval(compressed[i].destination, compressed[i].destination + compressed[i].outputSize)
    }

    function Intervals(): (r: seq<Interval>)
      ensures |r| == |raws| + |compressed|
    {
      seq(|raws|, i requires 0 <= i < |raws| => RawInterval(i))
      + seq(|compressed|, i requires 0 <= i < |compressed| => CompressedInterval(i))
    }

    function RawRegions(): seq<RawRegion> {
      seq(|raws|, i requires 0 <= i < |raws| =>
        RawRegion(HEADERS + Offset(RawSizes(), i), raws[i].destination, raws[i].size))
    }
  }

  /** The header checks, up to where the map table starts. */
  function TableStart(package: seq<byte>): (r: Result<nat, Fault>)
    ensures r.Ok? ==> HEADERS <= r.value <= |package| - 8
  {
    if |package| < HEADERS || |package| > MAX_PACKAGE_BYTES then Err(PackageSize)
    else if package[..4] != KUP1 then Err(OuterMagic)
    else
      var inner := package[OUTER_BYTES..];
      if inner[..4] != KXZ then Err(InnerMagic)
      else if U32At(inner, 8) != |inner| then Err(InnerLength)
      else if U32At(inner, 4) != Sum(inner[12..]) % TWO32 then Err(InnerChecksum)
      else
        var table := OUTER_BYTES + U32At(inner, 12);
        if !(HEADERS <= table <= |package| - 8) then Err(TableOffset) else Ok(table)
  }

  /** The table checks, up to its version word. */
  function TableMap(package: seq<byte>, table: nat): (r: Result<Map, Fault>)
    requires table + 8 <= |package|
    ensures r.Ok? ==> r.value.tableOffset == table
  {
    var n, m := U16At(package, table), U16At(package, table + 2);
    if n + m > MAX_REGIONS then Err(TooManyRegions)
    else if table + (4 + n * 8 + m * 12 + 4) != |package| then Err(TableEnd)
    else if U32At(package, table + 4 + 8 * n + 12 * m) != MAP_VERSION then Err(Fault.MapVersion)
    else Ok(Map(table,
      RawSpecsAt(package, table + 4, n), CompressedSpecsAt(package, table + 4 + 8 * n, m)))
  }

  function ReadMap(package: seq<byte>): (r: Result<Map, Fault>)
    ensures r.Ok? ==> HEADERS <= r.value.tableOffset <= |package| - 8
  {
    var table :- TableStart(package);
    TableMap(package, table)
  }

  /** The checks of a map against the package that holds it. */
  function LayoutFault(package: seq<byte>, m: Map): Option<Fault>
    requires m.tableOffset <= |package|
  {
    if m.RawEnd() > m.tableOffset then Some(RawOverrun)
    else if (exists i :: 0 <= i < |m.compressed| && m.compressed[i].outputSize > BANK_BYTES)
            || m.SourceEnd() > m.tableOffset then Some(CompressedOverrun)
    else if m.SourceEnd() != m.tableOffset && package[m.SourceEnd()..m.tableOffset] != ATA4 then Some(BadGap)
    else AdjacencyFault(SortedIntervals(m.Intervals()), 0)
  }

  // ----- Reconstruction -----

  /** `_inflate_region`: one stream followed by its CRC and size, and nothing else. */
  function InflateRegion(c: Codec, stored: seq<byte>, expectedSize: nat): (r: Result<(seq<byte>, u32), Fault>)
    ensures r.Ok? ==> |r.value.0| == expectedSize
  {
    match c.inflate(stored)
    case Broken => Err(BadStream)
    case Stream(output, consumed) =>
      if |output| != expectedSize || consumed > |stored| then Err(BadStream)
      else
        var unused := stored[consumed..];
        if |unused| != 8 then Err(TrailerMissing)
        else if LeU32At(unused, 4) != expectedSize || c.crc(output) != LeU32At(unused, 0) then Err(TrailerMismatch)
        else Ok((output, LeU32At(unused, 0)))
  }

  /** The stored bytes of each compressed region. */
  function Stored(package: seq<byte>, m: Map): (stored: seq<seq<byte>>)
    requires m.SourceEnd() <= |package|
    ensures |stored| == |m.compressed|
  {
    Cuts(package, m.RawEnd(), m.StoredSizes())
  }

  /** Every region inflated, in order; the first failure wins. */
  function InflateAll(c: Codec, stored: seq<seq<byte>>, specs: seq<CompressedSpec>):
    (r: Result<seq<(seq<byte>, u32)>, Fault>)
    requires |stored| == |specs|
    ensures r.Ok? ==> |r.value| == |specs|
  {
    if specs == [] then Ok([])
    else
      var n := |specs| - 1;
      var front :- InflateAll(c, stored[..n], specs[..n]);
      var last :- InflateRegion(c, stored[n], specs[n].outputSize);
      Ok(front + [last])
  }

  lemma {:induction false} InflateAllAt(c: Codec, stored: seq<seq<byte>>, specs: seq<CompressedSpec>)
    requires |stored| == |specs|
    ensures InflateAll(c, stored, specs).Ok? <==>
      forall i :: 0 <= i < |specs| ==> InflateRegion(c, stored[i], specs[i].outputSize).Ok?
    ensures InflateAll(c, stored, specs).Ok? ==> forall i :: 0 <= i < |specs| ==>
      InflateRegion(c, stored[i], specs[i].outputSize) == Ok(InflateAll(c, stored, specs).value[i])
  {
    if specs != [] {
      var n := |specs| - 1;
      InflateAllAt(c, stored[..n], specs[..n]);
    }
  }

  datatype Write = Write(at: nat, data: seq<byte>)

  ghost predicate Fits(writes: seq<Write>, size: nat) {
    forall i :: 0 <= i < |writes| ==> writes[i].at + |writes[i].data| <= size
  }

  /** `canvas` after the writes, in order. */
  ghost function Paint(canvas: seq<byte>, writes: seq<Write>): (r: seq<byte>)
    requires Fits(writes, |canvas|)
    ensures |r| == |canvas|
  {
    if writes == [] then canvas
    else
      var last := writes[|writes| - 1];
      Splice(Paint(canvas, writes[..|writes| - 1]), last.at, last.data)
  }

  function Blank(): (bank: seq<byte>)
    ensures |bank| == BANK_BYTES && forall i :: 0 <= i < BANK_BYTES ==> bank[i] == 0xFF
  {
    seq(BANK_BYTES, i => 0xFF)
  }

  /** The bytes of each raw region. */
  ghost function RawData(package: seq<byte>, m: Map): (data: seq<seq<byte>>)
    requires m.RawEnd() <= |package|
    ensures |data| == |m.raws|
  {
    Cuts(package, HEADERS, m.RawSizes())
  }

  ghost function RawWrites(raws: seq<RawSpec>, data: seq<seq<byte>>): (w: seq<Write>)
    requires |data| == |raws|
    ensures |w| == |raws| && forall i :: 0 <= i < |raws| ==> w[i] == Write(raws[i].destination, data[i])
  {
    seq(|raws|, i requires 0 <= i < |raws| => Write(raws[i].destination, data[i]))
  }

  ghost function CompressedWrites(specs: seq<CompressedSpec>, outputs: seq<(seq<byte>, u32)>): (w: seq<Write>)
    requires |outputs| == |specs|
    ensures |w| == |specs| && forall i :: 0 <= i < |specs| ==> w[i] == Write(specs[i].destination, outputs[i].0)
  {
    seq(|specs|, i requires 0 <= i < |specs| => Write(specs[i].destination, outputs[i].0))
  }

  /** The data of every region has the size its specification says. */
  ghost predicate Sized(m: Map, data: seq<seq<byte>>, outputs: seq<(seq<byte>, u32)>) {
    && |data| == |m.raws| && |outputs| == |m.compressed|
    && (forall i :: 0 <= i < |data| ==> |data[i]| == m.raws[i].size)
    && (forall i :: 0 <= i < |outputs| ==> |outputs[i].0| == m.compressed[i].outputSize)
  }

  /** All the writes that fill the bank, raw regions first. */
  ghost function Writes(m: Map, data: seq<seq<byte>>, outputs: seq<(seq<byte>, u32)>): (w: seq<Write>)
    requires Sized(m, data, outputs)
    ensures |w| == |m.raws| + |m.compressed|
  {
    RawWrites(m.raws, data) + CompressedWrites(m.compressed, outputs)
  }

  lemma RawDataSized(package: seq<byte>, m: Map)
    requires m.RawEnd() <= |package|
    ensures forall i :: 0 <= i < |m.raws| ==> |RawData(package, m)[i]| == m.raws[i].size
  {
    RawDataAt(package, m.RawSizes());
  }

  lemma RawDataAt(package: seq<byte>, sizes: seq<nat>)
    requires HEADERS + Offset(sizes, |sizes|) <= |package|
    ensures forall i :: 0 <= i < |sizes| ==> HEADERS + Offset(sizes, i) + sizes[i] <= |package|
    ensures forall i :: 0 <= i < |sizes| ==>
      Cuts(package, HEADERS, sizes)[i] == package[HEADERS + Offset(sizes, i)..HEADERS + Offset(sizes, i) + sizes[i]]
  {
    forall i | 0 <= i < |sizes|
      ensures HEADERS + Offset(sizes, i) + sizes[i] <= |package|
      ensures Cuts(package, HEADERS, sizes)[i]
        == package[HEADERS + Offset(sizes, i)..HEADERS + Offset(sizes, i) + sizes[i]]
    {
      CutsAt(package, HEADERS, sizes, i);
    }
  }

  function CompressedRegions(m: Map, outputs: seq<(seq<byte>, u32)>): seq<CompressedRegion>
    requires |outputs| == |m.compressed|
  {
    seq(|outputs|, i requires 0 <= i < |outputs| =>
      CompressedRegion(m.RawEnd() + Offset(m.StoredSizes(), i), m.compressed[i].destination,
        m.compressed[i].outputSize, m.compressed[i].storedSize, outputs[i].1))
  }

  /** Every destination of the map ends inside the bank. */
  ghost predicate MapFits(m: Map) {
    && (forall i :: 0 <= i < |m.raws| ==> m.raws[i].destination + m.raws[i].size <= BANK_BYTES)
    && (forall i :: 0 <= i < |m.compressed| ==>
      m.compressed[i].destination + m.compressed[i].outputSize <= BANK_BYTES)
  }

  lemma DestinationsFit(m: Map)
    requires ValidDestinations(m.Intervals())
    ensures MapFits(m)
  {
    forall i | 0 <= i < |m.raws|
      ensures m.raws[i].destination + m.raws[i].size <= BANK_BYTES
    {
      assert m.Intervals()[i] == m.RawInterval(i);
    }
    forall i | 0 <= i < |m.compressed|
      ensures m.compressed[i].destination + m.compressed[i].outputSize <= BANK_BYTES
    {
      assert m.Intervals()[|m.raws| + i] == m.CompressedInterval(i);
    }
  }

  lemma WritesFit(m: Map, data: seq<seq<byte>>, outputs: seq<(seq<byte>, u32)>)
    requires Sized(m, data, outputs) && MapFits(m)
    ensures Fits(Writes(m, data, outputs), BANK_BYTES)
  {
  }

  /** What a package reconstructs to. */
  ghost function Reconstruction(c: Codec, package: seq<byte>): Result<BankResult, Fault> {
    var m :- ReadMap(package);
    match LayoutFault(package, m)
    case Some(fault) => Err(fault)
    case None =>
      var outputs :- InflateAll(c, Stored(package, m), m.compressed);
      InflateAllAt(c, Stored(package, m), m.compressed);
      RawDataSized(package, m);
      AdjacencyIsDisjointness(m.Intervals());
      DestinationsFit(m);
      WritesFit(m, RawData(package, m), outputs);
      Ok(BankResult(
        Paint(Blank(), Writes(m, RawData(package, m), outputs)),
        m.tableOffset, MAP_VERSION, m.RawRegions(), CompressedRegions(m, outputs)))
  }

  // ----- build_bank, loop by loop -----

  /** The header checks, then the cursor loops over the two halves of the table. */
  method ParseMap(package: seq<byte>) returns (r: Result<Map, Fault>)
    ensures r == ReadMap(package)
  {
    var table :- TableStart(package);
    var n, m := U16At(package, table), U16At(package, table + 2);
    if n + m > MAX_REGIONS {
      return Err(TooManyRegions);
    }
    if table + (4 + n * 8 + m * 12 + 4) != |package| {
      return Err(TableEnd);
    }
    var cursor := table + 4;
    var raws: seq<RawSpec> := [];
    for i := 0 to n
      invariant cursor == table + 4 + 8 * i
      invariant raws == RawSpecsAt(package, table + 4, i)
    {
      raws := raws + [RawSpecAt(package, cursor)];
      cursor := cursor + 8;
    }
    var compressed: seq<CompressedSpec> := [];
    for i := 0 to m
      invariant cursor == table + 4 + 8 * n + 12 * i
      invariant compressed == CompressedSpecsAt(package, table + 4 + 8 * n, i)
    {
      compressed := compressed + [CompressedSpecAt(package, cursor)];
      cursor := cursor + 12;
    }
    if U32At(package, cursor) != MAP_VERSION {
      return Err(Fault.MapVersion);
    }
    return Ok(Map(table, raws, compressed));
  }

  /** The source cursor over the raw regions. */
  method PlaceRaw(m: Map) returns (regions: Result<seq<RawRegion>, Fault>)
    requires HEADERS <= m.tableOffset
    ensures regions == if m.RawEnd() > m.tableOffset then Err(RawOverrun) else Ok(m.RawRegions())
  {
    var sizes := m.RawSizes();
    var source := HEADERS;
    var placed: seq<RawRegion> := [];
    for i := 0 to |m.raws|
      invariant source == HEADERS + Offset(sizes, i) <= m.tableOffset
      invariant placed == m.RawRegions()[..i]
    {
      OffsetMonotone(sizes, i + 1, |sizes|);
      if source + m.raws[i].size > m.tableOffset {
        return Err(RawOverrun);
      }
      placed := placed + [RawRegion(source, m.raws[i].destination, m.raws[i].size)];
      source := source + m.raws[i].size;
    }
    assert placed == m.RawRegions();
    return Ok(placed);
  }

  /** The source cursor over the compressed regions, the gap and the destinations. */
  method PlaceCompressed(package: seq<byte>, m: Map) returns (fault: Option<Fault>)
    requires HEADERS <= m.RawEnd() <= m.tableOffset <= |package|
    ensures fault == LayoutFault(package, m)
  {
    var sizes := m.StoredSizes();
    var planned := seq(|m.raws|, i requires 0 <= i < |m.raws| => m.RawInterval(i));
    var plannedSource := m.RawEnd();
    for i := 0 to |m.compressed|
      invariant plannedSource == m.RawEnd() + Offset(sizes, i) <= m.tableOffset
      invariant planned == m.Intervals()[..|m.raws| + i]
      invariant forall j :: 0 <= j < i ==> m.compressed[j].outputSize <= BANK_BYTES
    {
      OffsetMonotone(sizes, i + 1, |sizes|);
      if m.compressed[i].outputSize > BANK_BYTES || plannedSource + m.compressed[i].storedSize > m.tableOffset {
        return Some(CompressedOverrun);
      }
      planned := planned + [m.CompressedInterval(i)];
      plannedSource := plannedSource + m.compressed[i].storedSize;
    }
    assert planned == m.Intervals();
    if plannedSource == m.tableOffset {
    } else if plannedSource == m.tableOffset - 4 && package[plannedSource..m.tableOffset] == ATA4 {
    } else {
      return Some(BadGap);
    }
    fault := ValidateDestinations(planned);
  }

  /** `bank[at:at + len(data)] = data`. */
  method Put(bank: array<byte>, at: nat, data: seq<byte>)
    requires at + |data| <= bank.Length
    modifies bank
    ensures bank[..] == Splice(old(bank[..]), at, data)
  {
    forall i | 0 <= i < |data| {
      bank[at + i] := data[i];
    }
  }

  lemma PaintStep(canvas: seq<byte>, writes: seq<Write>, i: nat)
    requires i < |writes| && Fits(writes, |canvas|)
    ensures Paint(canvas, writes[..i + 1]) ==
      Splice(Paint(canvas, writes[..i]), writes[i].at, writes[i].data)
  {
    assert writes[..i + 1][..i] == writes[..i];
  }

  /** What one more region does to a run of successes. */
  lemma InflateStep(c: Codec, stored: seq<seq<byte>>, specs: seq<CompressedSpec>, i: nat)
    requires |stored| == |specs| && i < |specs| && InflateAll(c, stored[..i], specs[..i]).Ok?
    ensures var one := InflateRegion(c, stored[i], specs[i].outputSize);
      && (one.Err? ==> InflateAll(c, stored, specs) == Err(one.fault))
      && (one.Ok? ==>
        InflateAll(c, stored[..i + 1], specs[..i + 1])
          == Ok(InflateAll(c, stored[..i], specs[..i]).value + [one.value]))
  {
    assert stored[..i + 1][..i] == stored[..i] && specs[..i + 1][..i] == specs[..i];
    if InflateRegion(c, stored[i], specs[i].outputSize).Err? {
      FirstFault(c, stored, specs, i + 1);
    }
  }

  lemma {:induction false} FirstFault(c: Codec, stored: seq<seq<byte>>, specs: seq<CompressedSpec>, i: nat)
    requires |stored| == |specs| && i <= |specs| && InflateAll(c, stored[..i], specs[..i]).Err?
    ensures InflateAll(c, stored, specs) == InflateAll(c, stored[..i], specs[..i])
  {
    if i == |specs| {
      assert stored[..i] == stored && specs[..i] == specs;
    } else {
      var n := |specs| - 1;
      assert stored[..n][..i] == stored[..i] && specs[..n][..i] == specs[..i];
      FirstFault(c, stored[..n], specs[..n], i);
    }
  }

  /** The loop that inflates each region from the source cursor on. */
  method InflateRegions(c: Codec, package: seq<byte>, start: nat, specs: seq<CompressedSpec>, ghost sizes: seq<nat>)
    returns (r: Result<seq<(seq<byte>, u32)>, Fault>)
    requires |sizes| == |specs| && forall i :: 0 <= i < |specs| ==> sizes[i] == specs[i].storedSize
    requires start + Offset(sizes, |sizes|) <= |package|
    ensures r == InflateAll(c, Cuts(package, start, sizes), specs)
  {
    hide InflateRegion, Cuts;
    ghost var stored := Cuts(package, start, sizes);
    var source := start;
    var inflated: seq<(seq<byte>, u32)> := [];
    for i := 0 to |specs|
      invariant source == start + Offset(sizes, i)
      invariant InflateAll(c, stored[..i], specs[..i]) == Ok(inflated)
    {
      CutsAt(package, start, sizes, i);
      InflateStep(c, stored, specs, i);
      assert sizes[i] == specs[i].storedSize;
      var one := InflateRegion(c, package[source..source + specs[i].storedSize], specs[i].outputSize);
      if one.Err? {
        return Err(one.fault);
      }
      inflated := inflated + [one.value];
      source := source + specs[i].storedSize;
    }
    assert stored[..|specs|] == stored && specs[..|specs|] == specs;
    return Ok(inflated);
  }

  /** The loop that copies the raw regions into the bank. */
  method FillRaw(bank: array<byte>, package: seq<byte>, rawRegions: seq<RawRegion>, ghost writes: seq<Write>)
    requires |writes| == |rawRegions| && Fits(writes, bank.Length)
    requires forall i :: 0 <= i < |rawRegions| ==> RawWrite(package, rawRegions[i], writes[i])
    modifies bank
    ensures bank[..] == Paint(old(bank[..]), writes)
  {
    ghost var canvas := bank[..];
    for i := 0 to |rawRegions|
      invariant bank[..] == Paint(canvas, writes[..i])
    {
      PaintStep(canvas, writes, i);
      var item := rawRegions[i];
      assert RawWrite(package, item, writes[i]);
      Put(bank, item.destination, package[item.source..item.source + item.size]);
    }
    assert writes[..|rawRegions|] == writes;
  }

  ghost predicate RawWrite(package: seq<byte>, item: RawRegion, write: Write) {
    item.source + item.size <= |package|
    && write == Write(item.destination, package[item.source..item.source + item.size])
  }

  /** The loop that copies the inflated regions into the bank. */
  method FillCompressed(bank: array<byte>, specs: seq<CompressedSpec>, inflated: seq<(seq<byte>, u32)>,
    ghost writes: seq<Write>)
    requires |specs| == |inflated| == |writes| && Fits(writes, bank.Length)
    requires forall i :: 0 <= i < |inflated| ==> writes[i] == Write(specs[i].destination, inflated[i].0)
    modifies bank
    ensures bank[..] == Paint(old(bank[..]), writes)
  {
    ghost var canvas := bank[..];
    for i := 0 to |inflated|
      invariant bank[..] == Paint(canvas, writes[..i])
    {
      PaintStep(canvas, writes, i);
      assert writes[i] == Write(specs[i].destination, inflated[i].0);
      Put(bank, specs[i].destination, inflated[i].0);
    }
    assert writes[..|inflated|] == writes;
  }

  lemma {:induction false} PaintAppend(canvas: seq<byte>, a: seq<Write>, b: seq<Write>)
    requires Fits(a + b, |canvas|)
    ensures Fits(a, |canvas|) && Fits(b, |canvas|)
    ensures Paint(canvas, a + b) == Paint(Paint(canvas, a), b)
  {
    assert forall i :: 0 <= i < |a| ==> a[i] == (a + b)[i];
    assert forall i :: 0 <= i < |b| ==> b[i] == (a + b)[|a| + i];
    if b == [] {
      assert a + b == a;
    } else {
      var n := |b| - 1;
      assert (a + b)[..|a| + n] == a + b[..n];
      PaintAppend(canvas, a, b[..n]);
    }
  }

  lemma RawWritesMatch(package: seq<byte>, m: Map)
    requires m.RawEnd() <= |package|
    ensures forall i :: 0 <= i < |m.raws| ==>
      RawWrite(package, m.RawRegions()[i], RawWrites(m.raws, RawData(package, m))[i])
  {
    forall i | 0 <= i < |m.raws|
      ensures RawWrite(package, m.RawRegions()[i], RawWrites(m.raws, RawData(package, m))[i])
    {
      RegionMatches(package, m.RawSizes(), i, m.RawRegions()[i], RawWrites(m.raws, RawData(package, m))[i]);
    }
  }

  lemma RegionMatches(package: seq<byte>, sizes: seq<nat>, i: nat, item: RawRegion, write: Write)
    requires i < |sizes| && HEADERS + Offset(sizes, |sizes|) <= |package|
    requires item.source == HEADERS + Offset(sizes, i) && item.size == sizes[i]
    requires write == Write(item.destination, Cuts(package, HEADERS, sizes)[i])
    ensures RawWrite(package, item, write)
  {
    CutsAt(package, HEADERS, sizes, i);
  }

  /** The bank, blank at first, after both copying loops. */
  method FillBank(package: seq<byte>, m: Map, inflated: seq<(seq<byte>, u32)>) returns (data: seq<byte>)
    requires m.RawEnd() <= |package| && Sized(m, RawData(package, m), inflated)
    requires Fits(Writes(m, RawData(package, m), inflated), BANK_BYTES)
    ensures data == Paint(Blank(), Writes(m, RawData(package, m), inflated))
  {
    ghost var first, second := RawWrites(m.raws, RawData(package, m)), CompressedWrites(m.compressed, inflated);
    PaintAppend(Blank(), first, second);
    RawWritesMatch(package, m);
    var bank := new byte[BANK_BYTES](_ => 0xFF);
    assert bank[..] == Blank();
    FillRaw(bank, package, m.RawRegions(), first);
    FillCompressed(bank, m.compressed, inflated, second);
    data := bank[..];
  }

  /** `build_bank`. */
  method BuildBank(c: Codec, package: seq<byte>) returns (r: Result<BankResult, Fault>)
    ensures r == Reconstruction(c, package)
  {
    var m :- ParseMap(package);
    var rawRegions :- PlaceRaw(m);
    var fault := PlaceCompressed(package, m);
    if fault.Some? {
      return Err(fault.value);
    }
    var inflated :- InflateRegions(c, package, m.RawEnd(), m.compressed, m.StoredSizes());
    InflateAllAt(c, Stored(package, m), m.compressed);
    RawDataSized(package, m);
    AdjacencyIsDisjointness(m.Intervals());
    DestinationsFit(m);
    WritesFit(m, RawData(package, m), inflated);
    var data := FillBank(package, m, inflated);
    return Ok(BankResult(data, m.tableOffset, MAP_VERSION, rawRegions, CompressedRegions(m, inflated)));
  }

  // ----- What a painted bank holds -----

  /** Offset `i` lies in one of the writes. */
  ghost predicate Covered(writes: seq<Write>, i: int) {
    exists k :: 0 <= k < |writes| && writes[k].at <= i < writes[k].at + |writes[k].data|
  }

  /** No write after write `k` reaches into it. */
  ghost predicate Uppermost(writes: seq<Write>, k: nat)
    requires k < |writes|
  {
    forall j :: k < j < |writes| ==>
      writes[j].at + |writes[j].data| <= writes[k].at || writes[k].at + |writes[k].data| <= writes[j].at
  }

  /** A write that no later one reaches into survives. */
  lemma {:induction false} PaintKeeps(canvas: seq<byte>, writes: seq<Write>, k: nat)
    requires k < |writes| && Fits(writes, |canvas|) && Uppermost(writes, k)
    ensures writes[k].at + |writes[k].data| <= |canvas|
    ensures Paint(canvas, writes)[writes[k].at..writes[k].at + |writes[k].data|] == writes[k].data
  {
    hide Splice;
    var n := |writes| - 1;
    var before := Paint(canvas, writes[..n]);
    SpliceAt(before, writes[n].at, writes[n].data);
    if k < n {
      PaintKeeps(canvas, writes[..n], k);
      assert writes[..n][k] == writes[k];
      var lo, hi := writes[k].at, writes[k].at + |writes[k].data|;
      forall i | lo <= i < hi
        ensures Paint(canvas, writes)[i] == before[i]
      {
      }
      assert Paint(canvas, writes)[lo..hi] == before[lo..hi];
    }
  }

  /** An offset that every write reaching it leaves as it is keeps what the canvas had. */
  lemma {:induction false} PaintSame(canvas: seq<byte>, writes: seq<Write>, i: nat)
    requires Fits(writes, |canvas|) && i < |canvas|
    requires forall k :: 0 <= k < |writes| && writes[k].at <= i < writes[k].at + |writes[k].data| ==>
      writes[k].data[i - writes[k].at] == canvas[i]
    ensures Paint(canvas, writes)[i] == canvas[i]
  {
    hide Splice;
    if writes != [] {
      var n := |writes| - 1;
      forall k | 0 <= k < n && writes[..n][k].at <= i < writes[..n][k].at + |writes[..n][k].data|
        ensures writes[..n][k].data[i - writes[..n][k].at] == canvas[i]
      {
        assert writes[..n][k] == writes[k];
      }
      PaintSame(canvas, writes[..n], i);
      SpliceAt(Paint(canvas, writes[..n]), writes[n].at, writes[n].data);
    }
  }

  /** Offsets outside all writes keep what the canvas had. */
  lemma PaintOutside(canvas: seq<byte>, writes: seq<Write>, i: nat)
    requires Fits(writes, |canvas|) && i < |canvas| && !Covered(writes, i)
    ensures Paint(canvas, writes)[i] == canvas[i]
  {
    hide Paint;
    forall k | 0 <= k < |writes|
      ensures !(writes[k].at <= i < writes[k].at + |writes[k].data|)
    {
    }
    PaintSame(canvas, writes, i);
  }

  /** Writes that all copy from one source give that source where they reach. */
  lemma {:induction false} PaintCopies(canvas: seq<byte>, writes: seq<Write>, source: seq<byte>, i: nat)
    requires Fits(writes, |canvas|) && |source| == |canvas| && i < |canvas|
    requires forall k :: 0 <= k < |writes| ==>
      writes[k].at + |writes[k].data| <= |source| &&
      writes[k].data == source[writes[k].at..writes[k].at + |writes[k].data|]
    ensures Paint(canvas, writes)[i] == if Covered(writes, i) then source[i] else canvas[i]
  {
    hide Splice;
    if writes != [] {
      var n := |writes| - 1;
      PaintCopies(canvas, writes[..n], source, i);
      SpliceAt(Paint(canvas, writes[..n]), writes[n].at, writes[n].data);
      assert Covered(writes, i) <==> Covered(writes[..n], i) || writes[n].at <= i < writes[n].at + |writes[n].data| by {
        if Covered(writes, i) && !(writes[n].at <= i < writes[n].at + |writes[n].data|) {
          var k :| 0 <= k < |writes| && writes[k].at <= i < writes[k].at + |writes[k].data|;
          assert writes[..n][k] == writes[k];
        }
        if Covered(writes[..n], i) {
          var k :| 0 <= k < n && writes[..n][k].at <= i < writes[..n][k].at + |writes[..n][k].data|;
          assert writes[..n][k] == writes[k];
        }
      }
    }
  }

  /** The writes go where the map's intervals are. */
  lemma WritesAreIntervals(m: Map, data: seq<seq<byte>>, outputs: seq<(seq<byte>, u32)>)
    requires Sized(m, data, outputs)
    ensures WritesFill(m.Intervals(), Writes(m, data, outputs))
  {
    var w := Writes(m, data, outputs);
    forall k | 0 <= k < |w|
      ensures w[k].at == m.Intervals()[k].start && w[k].at + |w[k].data| == m.Intervals()[k].end
    {
      if k < |m.raws| {
        assert m.Intervals()[k] == m.RawInterval(k);
      } else {
        assert m.Intervals()[k] == m.CompressedInterval(k - |m.raws|);
      }
    }
  }

  /** The writes fill exactly these intervals. */
  ghost predicate WritesFill(intervals: seq<Interval>, w: seq<Write>) {
    |w| == |intervals| && forall k :: 0 <= k < |w| ==>
      w[k].at == intervals[k].start && w[k].at + |w[k].data| == intervals[k].end
  }
}
