/** firmware/zup_rebuild.py: a bank printed back as a package under a template's map. */
module ZupRebuild {
  import opened Bytes
  import opened Wrappers
  import opened Pieces
  import opened Codec
  import opened ZupBank

  datatype RebuildFault =
    | BankSize
    | TemplateRefused(fault: Fault)
    | OuterName
    | PackRange
    | TooLarge
    | RebuiltRefused(fault: Fault)
    | OutsideMap
    | NotIdentical

  datatype RebuildResult = RebuildResult(
    data: seq<byte>, changedRawRegions: nat, recompressedRegions: nat, preservedCompressedRegions: nat)

  // ----- What is printed -----

  /** `_deflate_region`: a stream and its CRC/size trailer. */
  function DeflateRegion(c: Codec, data: seq<byte>): seq<byte>
    requires |data| < TWO32
  {
    c.deflate(data) + Le32(c.crc(data)) + Le32(|data|)
  }

  /** `_validate_outer_header`. */
  predicate OuterNameValid(template: seq<byte>) {
    |template| >= OUTER_BYTES
    && var name := BeforeZero(template[4..12]);
      name != [] && forall i :: 0 <= i < |name| ==> 0x20 <= name[i] <= 0x7E
  }

  function RawBytes(s: RawSpec): (b: seq<byte>)
    ensures |b| == 8
  {
    Be32(s.destination) + Be32(s.size)
  }

  function CompressedBytes(s: CompressedSpec): (b: seq<byte>)
    ensures |b| == 12
  {
    Be32(s.destination) + Be32(s.outputSize) + Be32(s.storedSize)
  }

  function RawTable(raws: seq<RawSpec>): (parts: seq<seq<byte>>)
    ensures |parts| == |raws|
  {
    seq(|raws|, i requires 0 <= i < |raws| => RawBytes(raws[i]))
  }

  function CompressedTable(compressed: seq<CompressedSpec>): (parts: seq<seq<byte>>)
    ensures |parts| == |compressed|
  {
    seq(|compressed|, i requires 0 <= i < |compressed| => CompressedBytes(compressed[i]))
  }

  /** The map table: two counts, the specifications and the version. */
  function Table(raws: seq<RawSpec>, compressed: seq<CompressedSpec>): seq<byte>
    requires |raws| + |compressed| <= MAX_REGIONS
  {
    Be16(|raws|) + Be16(|compressed|) + Flat(RawTable(raws)) + Flat(CompressedTable(compressed)) + Be32(MAP_VERSION)
  }

  /** The inner package around `body`, with its length and byte sum. */
  function Inner(tableOffset: u32, body: seq<byte>): seq<byte>
    requires INNER_HEADER_BYTES + |body| < TWO32
  {
    KXZ + Be32(Sum(Be32(tableOffset) + body) % TWO32) + Be32(INNER_HEADER_BYTES + |body|) + Be32(tableOffset) + body
  }

  // ----- Reading back what was printed -----

  lemma {:induction false} UniformSlice(parts: seq<seq<byte>>, k: nat, i: nat)
    requires i < |parts| && forall j :: 0 <= j < |parts| ==> |parts[j]| == k
    ensures |Flat(parts)| == k * |parts| && k * i + k <= k * |parts|
    ensures Flat(parts)[k * i..k * i + k] == parts[i]
  {
    FlatSlice(parts, i);
    OffsetUniform(Lengths(parts), k, i);
    OffsetUniform(Lengths(parts), k, |parts|);
  }

  lemma UniformLength(parts: seq<seq<byte>>, k: nat)
    requires forall j :: 0 <= j < |parts| ==> |parts[j]| == k
    ensures |Flat(parts)| == k * |parts|
  {
    FlatLength(parts);
    OffsetUniform(Lengths(parts), k, |parts|);
  }

  lemma TableLength(raws: seq<RawSpec>, compressed: seq<CompressedSpec>)
    requires |raws| + |compressed| <= MAX_REGIONS
    ensures |Flat(RawTable(raws))| == 8 * |raws| && |Flat(CompressedTable(compressed))| == 12 * |compressed|
    ensures |Table(raws, compressed)| == 4 + 8 * |raws| + 12 * |compressed| + 4
  {
    UniformLength(RawTable(raws), 8);
    UniformLength(CompressedTable(compressed), 12);
  }

  /** A word written between two strings is read back where it is. */
  lemma FieldReadBack(p: seq<byte>, at: nat, before: seq<byte>, v: u32, after: seq<byte>)
    requires at + |before| + 4 + |after| <= |p|
    requires p[at..at + |before| + 4 + |after|] == before + Be32(v) + after
    ensures U32At(p, at + |before|) == v
  {
    var n := |before|;
    SubSlice(p, at, before + Be32(v) + after, n, n + 4);
    WordRoundTrip(v);
  }

  lemma RawSpecReadBack(p: seq<byte>, at: nat, s: RawSpec)
    requires at + 8 <= |p| && p[at..at + 8] == RawBytes(s)
    ensures RawSpecAt(p, at) == s
  {
    assert RawBytes(s) == [] + Be32(s.destination) + Be32(s.size);
    assert RawBytes(s) == Be32(s.destination) + Be32(s.size) + [];
    FieldReadBack(p, at, [], s.destination, Be32(s.size));
    FieldReadBack(p, at, Be32(s.destination), s.size, []);
  }

  lemma CompressedSpecReadBack(p: seq<byte>, at: nat, s: CompressedSpec)
    requires at + 12 <= |p| && p[at..at + 12] == CompressedBytes(s)
    ensures CompressedSpecAt(p, at) == s
  {
    var d, o, t := Be32(s.destination), Be32(s.outputSize), Be32(s.storedSize);
    assert CompressedBytes(s) == [] + d + (o + t) == d + o + t == (d + o) + t + [];
    FieldReadBack(p, at, [], s.destination, o + t);
    FieldReadBack(p, at, d, s.outputSize, t);
    FieldReadBack(p, at, d + o, s.storedSize, []);
  }

  lemma RawSpecsReadBack(p: seq<byte>, at: nat, raws: seq<RawSpec>)
    requires at + 8 * |raws| <= |p| && p[at..at + 8 * |raws|] == Flat(RawTable(raws))
    ensures RawSpecsAt(p, at, |raws|) == raws
  {
    forall i | 0 <= i < |raws|
      ensures RawSpecAt(p, at + 8 * i) == raws[i]
    {
      UniformSlice(RawTable(raws), 8, i);
      SubSlice(p, at, Flat(RawTable(raws)), 8 * i, 8 * i + 8);
      RawSpecReadBack(p, at + 8 * i, raws[i]);
    }
  }

  lemma CompressedSpecsReadBack(p: seq<byte>, at: nat, compressed: seq<CompressedSpec>)
    requires at + 12 * |compressed| <= |p| && p[at..at + 12 * |compressed|] == Flat(CompressedTable(compressed))
    ensures CompressedSpecsAt(p, at, |compressed|) == compressed
  {
    forall i | 0 <= i < |compressed|
      ensures CompressedSpecAt(p, at + 12 * i) == compressed[i]
    {
      UniformSlice(CompressedTable(compressed), 12, i);
      SubSlice(p, at, Flat(CompressedTable(compressed)), 12 * i, 12 * i + 12);
      CompressedSpecReadBack(p, at + 12 * i, compressed[i]);
    }
  }

  lemma InnerFields(tableOffset: u32, body: seq<byte>)
    requires INNER_HEADER_BYTES + |body| < TWO32
    ensures var inner := Inner(tableOffset, body);
      && |inner| == INNER_HEADER_BYTES + |body| && inner[..4] == KXZ && inner[16..] == body
      && U32At(inner, 8) == |inner| && U32At(inner, 12) == tableOffset
      && U32At(inner, 4) == Sum(inner[12..]) % TWO32
  {
    var inner := Inner(tableOffset, body);
    var check: u32 := Sum(Be32(tableOffset) + body) % TWO32;
    var size, offset := Be32(INNER_HEADER_BYTES + |body|), Be32(tableOffset);
    assert inner[0..|inner|] == inner;
    assert inner == KXZ + Be32(check) + (size + offset + body);
    assert inner == (KXZ + Be32(check)) + size + (offset + body);
    assert inner == (KXZ + Be32(check) + size) + offset + body;
    FieldReadBack(inner, 0, KXZ, check, size + offset + body);
    FieldReadBack(inner, 0, KXZ + Be32(check), INNER_HEADER_BYTES + |body|, offset + body);
    FieldReadBack(inner, 0, KXZ + Be32(check) + size, tableOffset, body);
    assert inner[12..] == offset + body;
  }

  lemma HeaderAccepted(outer: seq<byte>, inner: seq<byte>, tableOffset: u32)
    requires |outer| == OUTER_BYTES && outer[..4] == KUP1
    requires INNER_HEADER_BYTES <= |inner| <= MAX_PACKAGE_BYTES - OUTER_BYTES
    requires inner[..4] == KXZ && U32At(inner, 8) == |inner| && U32At(inner, 12) == tableOffset
    requires U32At(inner, 4) == Sum(inner[12..]) % TWO32
    requires INNER_HEADER_BYTES <= tableOffset <= |inner| - 8
    ensures TableStart(outer + inner) == Ok(OUTER_BYTES + tableOffset)
  {
    var p := outer + inner;
    assert p[..4] == outer[..4];
    assert p[OUTER_BYTES..] == inner;
  }

  /** The map of a printed package is the one it was printed from. */
  lemma PrintedMap(outer: seq<byte>, content: seq<byte>, raws: seq<RawSpec>, compressed: seq<CompressedSpec>)
    requires |outer| == OUTER_BYTES && outer[..4] == KUP1
    requires |raws| + |compressed| <= MAX_REGIONS
    requires HEADERS + |content| + |Table(raws, compressed)| <= MAX_PACKAGE_BYTES
    ensures ReadMap(outer + Inner(INNER_HEADER_BYTES + |content|, content + Table(raws, compressed)))
      == Ok(Map(HEADERS + |content|, raws, compressed))
  {
    TableLength(raws, compressed);
    var table := Table(raws, compressed);
    var tableOffset := INNER_HEADER_BYTES + |content|;
    var inner := Inner(tableOffset, content + table);
    InnerFields(tableOffset, content + table);
    HeaderAccepted(outer, inner, tableOffset);
    PrintedTail(outer, inner, content, table);
    MapOfTable(outer + inner, HEADERS + |content|, raws, compressed);
  }

  lemma PrintedTail(outer: seq<byte>, inner: seq<byte>, content: seq<byte>, table: seq<byte>)
    requires |outer| == OUTER_BYTES && |inner| >= 16 && inner[16..] == content + table
    ensures (outer + inner)[HEADERS + |content|..] == table
    ensures (outer + inner)[HEADERS..HEADERS + |content|] == content
  {
    var p := outer + inner;
    assert p[HEADERS..] == inner[16..];
    assert p[HEADERS..][|content|..] == p[HEADERS + |content|..];
  }

  lemma MapOfTable(p: seq<byte>, at: nat, raws: seq<RawSpec>, compressed: seq<CompressedSpec>)
    requires |raws| + |compressed| <= MAX_REGIONS && at <= |p| && p[at..] == Table(raws, compressed)
    ensures |p| >= at + 8 && TableMap(p, at) == Ok(Map(at, raws, compressed))
  {
    TableSlices(p, at, raws, compressed);
    MapFromSlices(p, at, raws, compressed);
  }

  lemma MapFromSlices(p: seq<byte>, at: nat, raws: seq<RawSpec>, compressed: seq<CompressedSpec>)
    requires |raws| + |compressed| <= MAX_REGIONS && |p| == at + 4 + 8 * |raws| + 12 * |compressed| + 4
    requires p[at..at + 4] == Be16(|raws|) + Be16(|compressed|)
    requires p[at + 4..at + 4 + 8 * |raws|] == Flat(RawTable(raws))
    requires var from := at + 4 + 8 * |raws|; p[from..from + 12 * |compressed|] == Flat(CompressedTable(compressed))
    requires var from := at + 4 + 8 * |raws| + 12 * |compressed|; p[from..from + 4] == [] + Be32(MAP_VERSION) + []
    ensures TableMap(p, at) == Ok(Map(at, raws, compressed))
  {
    hide Be16, Be32, U16At, U32At, RawSpecsAt, CompressedSpecsAt, RawTable, CompressedTable;
    var n, m := |raws|, |compressed|;
    assert U16At(p, at) == n && U16At(p, at + 2) == m by {
      CountsReadBack(p, at, n, m);
    }
    assert RawSpecsAt(p, at + 4, n) == raws by {
      RawSpecsReadBack(p, at + 4, raws);
    }
    assert CompressedSpecsAt(p, at + 4 + 8 * n, m) == compressed by {
      CompressedSpecsReadBack(p, at + 4 + 8 * n, compressed);
    }
    assert U32At(p, at + 4 + 8 * n + 12 * m) == MAP_VERSION by {
      FieldReadBack(p, at + 4 + 8 * n + 12 * m, [], MAP_VERSION, []);
    }
    MapFromFields(p, at, raws, compressed);
  }

  lemma MapFromFields(p: seq<byte>, at: nat, raws: seq<RawSpec>, compressed: seq<CompressedSpec>)
    requires |raws| + |compressed| <= MAX_REGIONS && |p| == at + 4 + 8 * |raws| + 12 * |compressed| + 4
    requires U16At(p, at) == |raws| && U16At(p, at + 2) == |compressed|
    requires RawSpecsAt(p, at + 4, |raws|) == raws
    requires CompressedSpecsAt(p, at + 4 + 8 * |raws|, |compressed|) == compressed
    requires U32At(p, at + 4 + 8 * |raws| + 12 * |compressed|) == MAP_VERSION
    ensures TableMap(p, at) == Ok(Map(at, raws, compressed))
  {
  }

  lemma TableSlices(p: seq<byte>, at: nat, raws: seq<RawSpec>, compressed: seq<CompressedSpec>)
    requires |raws| + |compressed| <= MAX_REGIONS && at <= |p| && p[at..] == Table(raws, compressed)
    ensures var n, m := |raws|, |compressed|;
      && |p| == at + 4 + 8 * n + 12 * m + 4
      && p[at..at + 4] == Be16(n) + Be16(m)
      && p[at + 4..at + 4 + 8 * n] == Flat(RawTable(raws))
      && p[at + 4 + 8 * n..at + 4 + 8 * n + 12 * m] == Flat(CompressedTable(compressed))
      && p[at + 4 + 8 * n + 12 * m..at + 4 + 8 * n + 12 * m + 4] == [] + Be32(MAP_VERSION) + []
  {
    TableLength(raws, compressed);
    var a, b, c, d :=
      Be16(|raws|) + Be16(|compressed|), Flat(RawTable(raws)), Flat(CompressedTable(compressed)), Be32(MAP_VERSION);
    assert p[at..] == a + b + c + d;
    TableParts(p, at, a, b, c, d);
  }

  lemma TableParts(p: seq<byte>, at: nat, a: seq<byte>, b: seq<byte>, c: seq<byte>, d: seq<byte>)
    requires at <= |p| && p[at..] == a + b + c + d
    ensures |p| == at + |a| + |b| + |c| + |d|
    ensures p[at..at + |a|] == a
    ensures p[at + |a|..at + |a| + |b|] == b
    ensures p[at + |a| + |b|..at + |a| + |b| + |c|] == c
    ensures p[at + |a| + |b| + |c|..at + |a| + |b| + |c| + |d|] == [] + d + []
  {
    var t := a + b + c + d;
    assert p[at..at + |t|] == t;
    SubSlice(p, at, t, 0, |a|);
    SubSlice(p, at, t, |a|, |a| + |b|);
    SubSlice(p, at, t, |a| + |b|, |a| + |b| + |c|);
    SubSlice(p, at, t, |a| + |b| + |c|, |t|);
  }

  lemma CountsReadBack(p: seq<byte>, at: nat, n: u16, m: u16)
    requires at + 4 <= |p| && p[at..at + 4] == Be16(n) + Be16(m)
    ensures U16At(p, at) == n && U16At(p, at + 2) == m
  {
    var t := Be16(n) + Be16(m);
    SubSlice(p, at, t, 0, 2);
    SubSlice(p, at, t, 2, 4);
    HalfWordRoundTrip(n);
    HalfWordRoundTrip(m);
  }

  // ----- The rebuilt package -----

  ghost function RawSlice(bank: seq<byte>, s: RawSpec): (r: seq<byte>)
    requires s.destination + s.size <= |bank|
    ensures |r| == s.size
  {
    bank[s.destination..s.destination + s.size]
  }

  ghost function CompressedSlice(bank: seq<byte>, s: CompressedSpec): (r: seq<byte>)
    requires s.destination + s.outputSize <= |bank|
    ensures |r| == s.outputSize
  {
    bank[s.destination..s.destination + s.outputSize]
  }

  ghost function RawStreams(bank: seq<byte>, m: Map): (r: seq<seq<byte>>)
    requires MapFits(m) && |bank| == BANK_BYTES
    ensures |r| == |m.raws| && forall i :: 0 <= i < |r| ==> r[i] == RawSlice(bank, m.raws[i])
  {
    seq(|m.raws|, i requires 0 <= i < |m.raws| => RawSlice(bank, m.raws[i]))
  }

  /** What is stored for compressed region `i`: its old bytes if they may stay, else a new stream. */
  ghost function NewStream(c: Codec, kept: seq<byte>, data: seq<byte>, bank: seq<byte>, s: CompressedSpec,
    preserve: bool): seq<byte>
    requires |data| == |bank| == BANK_BYTES && s.destination + s.outputSize <= BANK_BYTES
  {
    if preserve && CompressedSlice(bank, s) == CompressedSlice(data, s) then kept
    else DeflateRegion(c, CompressedSlice(bank, s))
  }

  ghost function NewStreams(c: Codec, template: seq<byte>, data: seq<byte>, bank: seq<byte>, m: Map, preserve: bool):
    (r: seq<seq<byte>>)
    requires MapFits(m) && |data| == |bank| == BANK_BYTES && m.SourceEnd() <= |template|
    ensures |r| == |m.compressed|
  {
    seq(|m.compressed|, i requires 0 <= i < |m.compressed| =>
      NewStream(c, Stored(template, m)[i], data, bank, m.compressed[i], preserve))
  }

  ghost predicate Packable(stored: seq<seq<byte>>) {
    forall i :: 0 <= i < |stored| ==> |stored[i]| < TWO32
  }

  ghost function Resized(specs: seq<CompressedSpec>, stored: seq<seq<byte>>): (r: seq<CompressedSpec>)
    requires |specs| == |stored| && Packable(stored)
    ensures |r| == |specs|
    ensures forall i :: 0 <= i < |r| ==>
      r[i] == CompressedSpec(specs[i].destination, specs[i].outputSize, |stored[i]|)
  {
    seq(|specs|, i requires 0 <= i < |specs| =>
      CompressedSpec(specs[i].destination, specs[i].outputSize, |stored[i]|))
  }

  /** The streams and the gap between the headers and the table. */
  ghost function Content(rawStreams: seq<seq<byte>>, stored: seq<seq<byte>>, gap: seq<byte>): seq<byte> {
    Flat(rawStreams + stored) + gap
  }

  ghost function Printed(outer: seq<byte>, content: seq<byte>, raws: seq<RawSpec>, specs: seq<CompressedSpec>):
    seq<byte>
    requires |raws| + |specs| <= MAX_REGIONS
    requires INNER_HEADER_BYTES + |content| + |Table(raws, specs)| < TWO32
  {
    outer + Inner(INNER_HEADER_BYTES + |content|, content + Table(raws, specs))
  }

  /** Facts about a template that reconstructs. */
  ghost predicate Accepted(c: Codec, template: seq<byte>, m: Map) {
    && ReadMap(template) == Ok(m)
    && LayoutFault(template, m) == None
    && InflateAll(c, Stored(template, m), m.compressed).Ok?
  }

  lemma AcceptedIff(c: Codec, template: seq<byte>)
    ensures Reconstruction(c, template).Ok? <==> ReadMap(template).Ok? && Accepted(c, template, ReadMap(template).value)
  {
  }

  lemma AcceptedFacts(c: Codec, template: seq<byte>, m: Map)
    requires Accepted(c, template, m)
    ensures |m.raws| + |m.compressed| <= MAX_REGIONS
    ensures |template| >= HEADERS && template[..4] == KUP1
    ensures m.SourceEnd() <= m.tableOffset <= |template|
    ensures template[m.SourceEnd()..m.tableOffset] == [] || template[m.SourceEnd()..m.tableOffset] == ATA4
    ensures ValidDestinations(m.Intervals()) && MapFits(m)
    ensures forall i :: 0 <= i < |m.compressed| ==> m.compressed[i].outputSize <= BANK_BYTES
  {
    hide AdjacencyFault, ValidDestinations, MapFits, InflateRegion, Stored, SortedIntervals, Value, RawSpecsAt,
      CompressedSpecsAt;
    AdjacencyIsDisjointness(m.Intervals());
    DestinationsFit(m);
    OutputsFit(m);
  }

  lemma OutputsFit(m: Map)
    requires ValidDestinations(m.Intervals())
    ensures forall i :: 0 <= i < |m.compressed| ==> m.compressed[i].outputSize <= BANK_BYTES
  {
    forall i | 0 <= i < |m.compressed|
      ensures m.compressed[i].outputSize <= BANK_BYTES
    {
      assert InBank(m.Intervals()[|m.raws| + i]);
    }
  }

  /** The printed package has the map it was printed from, around the same content. */
  lemma PrintedLayout(outer: seq<byte>, content: seq<byte>, raws: seq<RawSpec>, specs: seq<CompressedSpec>)
    requires |outer| == OUTER_BYTES && outer[..4] == KUP1 && |raws| + |specs| <= MAX_REGIONS
    requires HEADERS + |content| + |Table(raws, specs)| <= MAX_PACKAGE_BYTES
    ensures var p := Printed(outer, content, raws, specs);
      && |p| == HEADERS + |content| + |Table(raws, specs)|
      && ReadMap(p) == Ok(Map(HEADERS + |content|, raws, specs))
      && p[HEADERS..HEADERS + |content|] == content
      && p[..OUTER_BYTES] == outer
  {
    PrintedMap(outer, content, raws, specs);
    InnerFields(INNER_HEADER_BYTES + |content|, content + Table(raws, specs));
    PrintedTail(outer, Inner(INNER_HEADER_BYTES + |content|, content + Table(raws, specs)), content,
      Table(raws, specs));
  }

  /** The streams of a package are where its map puts them. */
  lemma PrintedStreams(p: seq<byte>, m: Map, rawStreams: seq<seq<byte>>, stored: seq<seq<byte>>, gap: seq<byte>)
    requires |rawStreams| == |m.raws| && |stored| == |m.compressed|
    requires forall i :: 0 <= i < |m.raws| ==> |rawStreams[i]| == m.raws[i].size
    requires forall i :: 0 <= i < |m.compressed| ==> |stored[i]| == m.compressed[i].storedSize
    requires m.tableOffset == HEADERS + |Content(rawStreams, stored, gap)| <= |p|
    requires p[HEADERS..m.tableOffset] == Content(rawStreams, stored, gap)
    ensures m.SourceEnd() <= m.tableOffset && p[m.SourceEnd()..m.tableOffset] == gap
    ensures RawData(p, m) == rawStreams
    ensures Stored(p, m) == stored
  {
    FlatAppend(rawStreams, stored);
    assert Lengths(rawStreams) == m.RawSizes() && Lengths(stored) == m.StoredSizes();
    StreamsInPlace(p, HEADERS, rawStreams, stored, gap);
  }

  lemma StreamsInPlace(p: seq<byte>, base: nat, first: seq<seq<byte>>, second: seq<seq<byte>>, gap: seq<byte>)
    requires base + |Flat(first)| + |Flat(second)| + |gap| <= |p|
    requires p[base..base + |Flat(first)| + |Flat(second)| + |gap|] == Flat(first) + Flat(second) + gap
    ensures Offset(Lengths(first), |first|) == |Flat(first)| && Offset(Lengths(second), |second|) == |Flat(second)|
    ensures Cuts(p, base, Lengths(first)) == first
    ensures Cuts(p, base + |Flat(first)|, Lengths(second)) == second
    ensures var end := base + |Flat(first)| + |Flat(second)|; p[end..end + |gap|] == gap
  {
    hide *;
    var a, b := Flat(first), Flat(second);
    SubSlice(p, base, a + b + gap, 0, |a|);
    SubSlice(p, base, a + b + gap, |a|, |a| + |b|);
    SubSlice(p, base, a + b + gap, |a| + |b|, |a| + |b| + |gap|);
    CutsOfFlat(p, base, first);
    CutsOfFlat(p, base + |a|, second);
  }

  // ----- What the rebuilt package reconstructs to -----

  /** A region printed for `bank` inflates to the bank's bytes, kept or not. */
  lemma NewStreamInflates(c: Codec, kept: seq<byte>, data: seq<byte>, bank: seq<byte>, s: CompressedSpec,
    preserve: bool)
    requires Lawful(c)
    requires |data| == |bank| == BANK_BYTES && s.destination + s.outputSize <= BANK_BYTES
    requires InflateRegion(c, kept, s.outputSize).Ok?
    requires InflateRegion(c, kept, s.outputSize).value.0 == CompressedSlice(data, s)
    ensures InflateRegion(c, NewStream(c, kept, data, bank, s, preserve), s.outputSize).Ok?
    ensures InflateRegion(c, NewStream(c, kept, data, bank, s, preserve), s.outputSize).value.0
      == CompressedSlice(bank, s)
  {
    var d := CompressedSlice(bank, s);
    if !(preserve && d == CompressedSlice(data, s)) {
      DeflatedInflates(c, d);
    }
  }

  lemma DeflatedInflates(c: Codec, d: seq<byte>)
    requires Lawful(c) && |d| < TWO32
    ensures InflateRegion(c, DeflateRegion(c, d), |d|) == Ok((d, c.crc(d)))
  {
    var crc, size := Le32(c.crc(d)), Le32(|d|);
    var stored := DeflateRegion(c, d);
    assert stored == c.deflate(d) + (crc + size);
    assert c.inflate(c.deflate(d) + (crc + size)) == Stream(d, |c.deflate(d)|);
    assert stored[|c.deflate(d)|..] == crc + size;
    TrailerReadBack(c.crc(d), |d|);
  }

  lemma TrailerReadBack(a: u32, b: u32)
    ensures LeU32At(Le32(a) + Le32(b), 0) == a && LeU32At(Le32(a) + Le32(b), 4) == b
  {
    var t := Le32(a) + Le32(b);
    assert t[0..4] == Le32(a) && t[4..8] == Le32(b);
    WordRoundTrip(a);
    WordRoundTrip(b);
  }

  ghost function Outputs(c: Codec, p: seq<byte>, m: Map): (r: seq<(seq<byte>, u32)>)
    requires Accepted(c, p, m)
    ensures |r| == |m.compressed|
    ensures forall i :: 0 <= i < |r| ==> InflateRegion(c, Stored(p, m)[i], m.compressed[i].outputSize) == Ok(r[i])
    ensures forall i :: 0 <= i < |r| ==> |r[i].0| == m.compressed[i].outputSize
  {
    InflateAllAt(c, Stored(p, m), m.compressed);
    InflateAll(c, Stored(p, m), m.compressed).value
  }

  lemma FilledSlices(intervals: seq<Interval>, w: seq<Write>)
    requires WritesFill(intervals, w) && ValidDestinations(intervals) && Fits(w, BANK_BYTES)
    ensures forall k :: 0 <= k < |w| ==> Paint(Blank(), w)[w[k].at..w[k].at + |w[k].data|] == w[k].data
  {
    forall j, k | 0 <= j < k < |w|
      ensures w[j].at + |w[j].data| <= w[k].at || w[k].at + |w[k].data| <= w[j].at
    {
      assert Apart(intervals[j], intervals[k]);
    }
    forall k | 0 <= k < |w|
      ensures Paint(Blank(), w)[w[k].at..w[k].at + |w[k].data|] == w[k].data
    {
      PaintKeeps(Blank(), w, k);
    }
  }

  lemma FilledFrom(m: Map, w: seq<Write>, bank: seq<byte>)
    requires WritesFill(m.Intervals(), w) && Fits(w, BANK_BYTES) && |bank| == BANK_BYTES
    requires forall k :: 0 <= k < |w| ==> w[k].data == bank[w[k].at..w[k].at + |w[k].data|]
    ensures Paint(Blank(), w) == OnMap(m, bank)
  {
    var intervals := m.Intervals();
    forall i | 0 <= i < BANK_BYTES
      ensures Paint(Blank(), w)[i] == OnMap(m, bank)[i]
    {
      PaintCopies(Blank(), w, bank, i);
      if Mapped(m, i) {
        var k :| 0 <= k < |intervals| && intervals[k].start <= i < intervals[k].end;
        assert w[k].at <= i < w[k].at + |w[k].data|;
      }
      if Covered(w, i) {
        var k :| 0 <= k < |w| && w[k].at <= i < w[k].at + |w[k].data|;
        assert intervals[k].start <= i < intervals[k].end;
      }
    }
  }

  /** Each mapped destination of a filled bank holds its own region's data. */
  lemma SlicesOfWrites(m: Map, data: seq<seq<byte>>, outputs: seq<(seq<byte>, u32)>)
    requires Sized(m, data, outputs) && MapFits(m) && ValidDestinations(m.Intervals())
    requires Fits(Writes(m, data, outputs), BANK_BYTES)
    ensures var bank := Paint(Blank(), Writes(m, data, outputs));
      && RawStreams(bank, m) == data
      && forall i :: 0 <= i < |m.compressed| ==> CompressedSlice(bank, m.compressed[i]) == outputs[i].0
  {
    var w := Writes(m, data, outputs);
    var bank := Paint(Blank(), w);
    WritesAreIntervals(m, data, outputs);
    FilledSlices(m.Intervals(), w);
    forall i | 0 <= i < |m.raws|
      ensures RawStreams(bank, m)[i] == data[i]
    {
      assert w[i] == Write(m.raws[i].destination, data[i]);
    }
    forall i | 0 <= i < |m.compressed|
      ensures CompressedSlice(bank, m.compressed[i]) == outputs[i].0
    {
      assert w[|m.raws| + i] == Write(m.compressed[i].destination, outputs[i].0);
    }
  }

  /** Filling from slices of `bank` gives `bank` on the map. */
  lemma WritesFromSlices(m: Map, outputs: seq<(seq<byte>, u32)>, bank: seq<byte>)
    requires MapFits(m) && |bank| == BANK_BYTES && Sized(m, RawStreams(bank, m), outputs)
    requires Fits(Writes(m, RawStreams(bank, m), outputs), BANK_BYTES)
    requires forall k :: 0 <= k < |m.compressed| ==> outputs[k].0 == CompressedSlice(bank, m.compressed[k])
    ensures Paint(Blank(), Writes(m, RawStreams(bank, m), outputs)) == OnMap(m, bank)
  {
    var w := Writes(m, RawStreams(bank, m), outputs);
    WritesAreIntervals(m, RawStreams(bank, m), outputs);
    forall k | 0 <= k < |w|
      ensures w[k].data == bank[w[k].at..w[k].at + |w[k].data|]
    {
      if k < |m.raws| {
        assert w[k] == Write(m.raws[k].destination, RawSlice(bank, m.raws[k]));
      } else {
        var j := k - |m.raws|;
        assert w[k] == Write(m.compressed[j].destination, CompressedSlice(bank, m.compressed[j]));
      }
    }
    FilledFrom(m, w, bank);
  }

  /** Offset `i` is inside a mapped destination. */
  ghost predicate Mapped(m: Map, i: int) {
    exists k :: 0 <= k < |m.Intervals()| && m.Intervals()[k].start <= i < m.Intervals()[k].end
  }

  /** `bank` where the map reaches, blank elsewhere. */
  ghost function OnMap(m: Map, bank: seq<byte>): (r: seq<byte>)
    requires |bank| == BANK_BYTES
    ensures |r| == BANK_BYTES && forall i :: 0 <= i < BANK_BYTES ==> r[i] == if Mapped(m, i) then bank[i] else 0xFF
  {
    seq(BANK_BYTES, i requires 0 <= i < BANK_BYTES => if Mapped(m, i) then bank[i] else 0xFF)
  }

  /** A package accepted with these streams, all of them slices of `bank`, gives `bank` on its map. */
  lemma BankFromStreams(c: Codec, p: seq<byte>, m: Map, bank: seq<byte>)
    requires Accepted(c, p, m) && MapFits(m) && |bank| == BANK_BYTES && m.SourceEnd() <= |p|
    requires RawData(p, m) == RawStreams(bank, m)
    requires forall k :: 0 <= k < |m.compressed| ==> Outputs(c, p, m)[k].0 == CompressedSlice(bank, m.compressed[k])
    ensures Reconstruction(c, p).Ok? && Reconstruction(c, p).value.data == OnMap(m, bank)
  {
    var outputs := Outputs(c, p, m);
    WritesFit(m, RawStreams(bank, m), outputs);
    WritesFromSlices(m, outputs, bank);
  }

  /** The streams of an accepted package are slices of its bank. */
  lemma StreamsFromBank(c: Codec, p: seq<byte>, m: Map)
    requires Accepted(c, p, m)
    ensures MapFits(m) && m.SourceEnd() <= |p| && Reconstruction(c, p).Ok?
    ensures |Reconstruction(c, p).value.data| == BANK_BYTES
    ensures RawStreams(Reconstruction(c, p).value.data, m) == RawData(p, m)
    ensures forall i :: 0 <= i < |m.compressed| ==>
      CompressedSlice(Reconstruction(c, p).value.data, m.compressed[i]) == Outputs(c, p, m)[i].0
  {
    AcceptedFacts(c, p, m);
    RawDataSized(p, m);
    var outputs := Outputs(c, p, m);
    WritesFit(m, RawData(p, m), outputs);
    SlicesOfWrites(m, RawData(p, m), outputs);
  }

  // ----- rebuild_package -----

  function Tally(flags: seq<bool>): nat {
    if flags == [] then 0 else Tally(flags[..|flags| - 1]) + if flags[|flags| - 1] then 1 else 0
  }

  ghost function Gap(template: seq<byte>, m: Map): seq<byte>
    requires m.SourceEnd() <= m.tableOffset <= |template|
  {
    template[m.SourceEnd()..m.tableOffset]
  }

  function TableSize(m: Map): nat {
    4 + 8 * |m.raws| + 12 * |m.compressed| + 4
  }

  ghost predicate Applicable(template: seq<byte>, m: Map) {
    |m.raws| + |m.compressed| <= MAX_REGIONS && MapFits(m) && m.SourceEnd() <= m.tableOffset <= |template|
    && |template| >= HEADERS
  }

  ghost function NewContent(c: Codec, template: seq<byte>, m: Map, data: seq<byte>, bank: seq<byte>, preserve: bool):
    seq<byte>
    requires Applicable(template, m) && |data| == |bank| == BANK_BYTES
  {
    Content(RawStreams(bank, m), NewStreams(c, template, data, bank, m, preserve), Gap(template, m))
  }

  ghost function NewPackage(c: Codec, template: seq<byte>, m: Map, data: seq<byte>, bank: seq<byte>, preserve: bool):
    seq<byte>
    requires Applicable(template, m) && |data| == |bank| == BANK_BYTES
    requires INNER_HEADER_BYTES + |NewContent(c, template, m, data, bank, preserve)| + TableSize(m) < TWO32
  {
    var stored := NewStreams(c, template, data, bank, m, preserve);
    ContentBounds(RawStreams(bank, m), stored, Gap(template, m));
    TableLength(m.raws, Resized(m.compressed, stored));
    Printed(template[..OUTER_BYTES], NewContent(c, template, m, data, bank, preserve), m.raws,
      Resized(m.compressed, stored))
  }

  lemma ContentBounds(first: seq<seq<byte>>, second: seq<seq<byte>>, gap: seq<byte>)
    ensures forall i :: 0 <= i < |second| ==> |second[i]| <= |Content(first, second, gap)|
  {
    FlatAppend(first, second);
    forall i | 0 <= i < |second|
      ensures |second[i]| <= |Flat(second)|
    {
      FlatSlice(second, i);
    }
  }

  /** The map of the new package. */
  ghost function NewMap(c: Codec, template: seq<byte>, m: Map, data: seq<byte>, bank: seq<byte>, preserve: bool):
    (r: Map)
    requires Applicable(template, m) && |data| == |bank| == BANK_BYTES
    requires INNER_HEADER_BYTES + |NewContent(c, template, m, data, bank, preserve)| + TableSize(m) < TWO32
  {
    var stored := NewStreams(c, template, data, bank, m, preserve);
    ContentBounds(RawStreams(bank, m), stored, Gap(template, m));
    Map(HEADERS + |NewContent(c, template, m, data, bank, preserve)|, m.raws, Resized(m.compressed, stored))
  }

  lemma NewMapShape(c: Codec, template: seq<byte>, m: Map, data: seq<byte>, bank: seq<byte>, preserve: bool)
    requires Applicable(template, m) && |data| == |bank| == BANK_BYTES
    requires INNER_HEADER_BYTES + |NewContent(c, template, m, data, bank, preserve)| + TableSize(m) < TWO32
    ensures var m' := NewMap(c, template, m, data, bank, preserve);
      && m'.raws == m.raws && SameTargets(m.compressed, m'.compressed)
      && StoredSized(m'.compressed, NewStreams(c, template, data, bank, m, preserve))
  {
  }

  lemma NewPackageLayout(c: Codec, template: seq<byte>, m: Map, data: seq<byte>, bank: seq<byte>, preserve: bool)
    requires Applicable(template, m) && |data| == |bank| == BANK_BYTES && template[..4] == KUP1
    requires HEADERS + |NewContent(c, template, m, data, bank, preserve)| + TableSize(m) <= MAX_PACKAGE_BYTES
    ensures var p, m', content := NewPackage(c, template, m, data, bank, preserve),
        NewMap(c, template, m, data, bank, preserve), NewContent(c, template, m, data, bank, preserve);
      && |p| == HEADERS + |content| + TableSize(m) && m'.tableOffset <= |p|
      && ReadMap(p) == Ok(m') && p[HEADERS..m'.tableOffset] == content
  {
    hide NewStreams, RawStreams, Printed, Table, Content, ReadMap, MapFits;
    var content := NewContent(c, template, m, data, bank, preserve);
    var stored := NewStreams(c, template, data, bank, m, preserve);
    ContentBounds(RawStreams(bank, m), stored, Gap(template, m));
    TableLength(m.raws, Resized(m.compressed, stored));
    PrintedLayout(template[..OUTER_BYTES], content, m.raws, Resized(m.compressed, stored));
  }

  lemma NewPackageSize(c: Codec, template: seq<byte>, m: Map, data: seq<byte>, bank: seq<byte>, preserve: bool)
    requires Applicable(template, m) && |data| == |bank| == BANK_BYTES
    requires INNER_HEADER_BYTES + |NewContent(c, template, m, data, bank, preserve)| + TableSize(m) < TWO32
    ensures |NewPackage(c, template, m, data, bank, preserve)|
      == HEADERS + |NewContent(c, template, m, data, bank, preserve)| + TableSize(m)
  {
    var stored := NewStreams(c, template, data, bank, m, preserve);
    ContentBounds(RawStreams(bank, m), stored, Gap(template, m));
    TableLength(m.raws, Resized(m.compressed, stored));
  }

  /** Everything after the template and its name have been accepted. */
  ghost function Print(c: Codec, template: seq<byte>, m: Map, data: seq<byte>, bank: seq<byte>, preserve: bool):
    Result<RebuildResult, RebuildFault>
    requires Applicable(template, m) && |data| == |bank| == BANK_BYTES
  {
    if INNER_HEADER_BYTES + |NewContent(c, template, m, data, bank, preserve)| + TableSize(m) >= TWO32
    then Err(PackRange)
    else
      Finish(c, template, data, bank, preserve, RebuildResult(
        NewPackage(c, template, m, data, bank, preserve), ChangedRaw(m, data, bank),
        |m.compressed| - Preserved(m, data, bank, preserve), Preserved(m, data, bank, preserve)))
  }

  /** The guards on the printed package. */
  ghost function Finish(c: Codec, template: seq<byte>, data: seq<byte>, bank: seq<byte>, preserve: bool,
    result: RebuildResult): Result<RebuildResult, RebuildFault>
  {
    if |result.data| > MAX_PACKAGE_BYTES then Err(TooLarge)
    else match Reconstruction(c, result.data)
      case Err(fault) => Err(RebuiltRefused(fault))
      case Ok(checked) =>
        if checked.data != bank then Err(OutsideMap)
        else if preserve && bank == data && result.data != template then Err(NotIdentical)
        else Ok(result)
  }

  ghost function ChangedRaw(m: Map, data: seq<byte>, bank: seq<byte>): nat
    requires MapFits(m) && |data| == |bank| == BANK_BYTES
  {
    Tally(seq(|m.raws|, i requires 0 <= i < |m.raws| => RawSlice(bank, m.raws[i]) != RawSlice(data, m.raws[i])))
  }

  ghost function Preserved(m: Map, data: seq<byte>, bank: seq<byte>, preserve: bool): (k: int)
    requires MapFits(m) && |data| == |bank| == BANK_BYTES
    ensures 0 <= k <= |m.compressed|
  {
    var flags := seq(|m.compressed|, i requires 0 <= i < |m.compressed| =>
      preserve && CompressedSlice(bank, m.compressed[i]) == CompressedSlice(data, m.compressed[i]));
    TallyBound(flags);
    Tally(flags)
  }

  lemma {:induction false} TallyBound(flags: seq<bool>)
    ensures Tally(flags) <= |flags|
    ensures (forall i :: 0 <= i < |flags| ==> flags[i]) ==> Tally(flags) == |flags|
    ensures (forall i :: 0 <= i < |flags| ==> !flags[i]) ==> Tally(flags) == 0
  {
    if flags != [] {
      TallyBound(flags[..|flags| - 1]);
    }
  }

  lemma AcceptedApplicable(c: Codec, template: seq<byte>)
    requires Reconstruction(c, template).Ok?
    ensures ReadMap(template).Ok? && Accepted(c, template, ReadMap(template).value)
    ensures Applicable(template, ReadMap(template).value)
  {
    AcceptedIff(c, template);
    AcceptedFacts(c, template, ReadMap(template).value);
  }

  /** `rebuild_package`. */
  ghost function Rebuild(c: Codec, template: seq<byte>, bank: seq<byte>, preserve: bool):
    Result<RebuildResult, RebuildFault>
  {
    if |bank| != BANK_BYTES then Err(BankSize)
    else match Reconstruction(c, template)
      case Err(fault) => Err(TemplateRefused(fault))
      case Ok(layout) =>
        if !OuterNameValid(template) then Err(OuterName)
        else
          AcceptedApplicable(c, template);
          Print(c, template, ReadMap(template).value, layout.data, bank, preserve)
  }

  // ----- Main results -----

  /** The rebuilt package is accepted, whatever the bank, and gives the bank back on the map. */
  lemma PrintReconstructs(c: Codec, template: seq<byte>, m: Map, data: seq<byte>, bank: seq<byte>, preserve: bool)
    requires Lawful(c) && Accepted(c, template, m) && Applicable(template, m)
    requires Reconstruction(c, template).Ok? && data == Reconstruction(c, template).value.data
    requires |data| == |bank| == BANK_BYTES
    requires INNER_HEADER_BYTES + |NewContent(c, template, m, data, bank, preserve)| + TableSize(m) < TWO32
    requires |NewPackage(c, template, m, data, bank, preserve)| <= MAX_PACKAGE_BYTES
    ensures Reconstruction(c, NewPackage(c, template, m, data, bank, preserve)).Ok?
    ensures Reconstruction(c, NewPackage(c, template, m, data, bank, preserve)).value.data == OnMap(m, bank)
  {
    AcceptedFacts(c, template, m);
    NewPackageSize(c, template, m, data, bank, preserve);
    NewPackageLayout(c, template, m, data, bank, preserve);
    NewMapShape(c, template, m, data, bank, preserve);
    var m' := NewMap(c, template, m, data, bank, preserve);
    NewOutputs(c, template, m, data, bank, preserve, m'.compressed);
    SameDestinations(m, m', bank);
    RelaidReconstructs(c, NewPackage(c, template, m, data, bank, preserve), m', bank,
      NewStreams(c, template, data, bank, m, preserve), Gap(template, m));
  }

  /** A package with a valid map whose streams inflate to slices of `bank`. */
  lemma RelaidReconstructs(c: Codec, p: seq<byte>, m: Map, bank: seq<byte>, stored: seq<seq<byte>>, gap: seq<byte>)
    requires ReadMap(p) == Ok(m) && MapFits(m) && |bank| == BANK_BYTES && |stored| == |m.compressed|
    requires ValidDestinations(m.Intervals()) && (gap == [] || gap == ATA4)
    requires StoredSized(m.compressed, stored)
    requires forall i :: 0 <= i < |m.compressed| ==> m.compressed[i].outputSize <= BANK_BYTES
    requires m.tableOffset == HEADERS + |Content(RawStreams(bank, m), stored, gap)| <= |p|
    requires p[HEADERS..m.tableOffset] == Content(RawStreams(bank, m), stored, gap)
    requires InflateTo(c, stored, m.compressed, bank)
    ensures Reconstruction(c, p).Ok? && Reconstruction(c, p).value.data == OnMap(m, bank)
  {
    hide Content, RawStreams, InflateAll, Reconstruction, ReadMap, OnMap, Stored, RawData;
    PrintedStreams(p, m, RawStreams(bank, m), stored, gap);
    assert LayoutFault(p, m) == None by {
      AdjacencyIsDisjointness(m.Intervals());
    }
    BankFromStreams(c, p, m, bank);
  }

  ghost predicate StoredSized(specs: seq<CompressedSpec>, stored: seq<seq<byte>>) {
    |stored| == |specs| && forall i :: 0 <= i < |specs| ==> |stored[i]| == specs[i].storedSize
  }

  /** The stored streams inflate to the slices of `bank` at their destinations. */
  ghost predicate InflateTo(c: Codec, stored: seq<seq<byte>>, specs: seq<CompressedSpec>, bank: seq<byte>) {
    |stored| == |specs| && InflateAll(c, stored, specs).Ok? && forall i :: 0 <= i < |specs| ==>
      specs[i].destination + specs[i].outputSize <= |bank|
      && InflateAll(c, stored, specs).value[i].0 == CompressedSlice(bank, specs[i])
  }

  /** The specifications differ at most in their stored sizes. */
  ghost predicate SameTargets(a: seq<CompressedSpec>, b: seq<CompressedSpec>) {
    |a| == |b| && forall i :: 0 <= i < |a| ==>
      b[i].destination == a[i].destination && b[i].outputSize == a[i].outputSize
  }

  lemma SameDestinations(m: Map, m': Map, bank: seq<byte>)
    requires m'.raws == m.raws && SameTargets(m.compressed, m'.compressed)
    ensures m'.Intervals() == m.Intervals()
    ensures MapFits(m) ==> MapFits(m')
    ensures |bank| == BANK_BYTES ==> OnMap(m', bank) == OnMap(m, bank)
    ensures |bank| == BANK_BYTES && MapFits(m) ==> RawStreams(bank, m') == RawStreams(bank, m)
  {
  }

  lemma NewOutputs(c: Codec, template: seq<byte>, m: Map, data: seq<byte>, bank: seq<byte>, preserve: bool,
    specs: seq<CompressedSpec>)
    requires Lawful(c) && Accepted(c, template, m) && Applicable(template, m) && |data| == |bank| == BANK_BYTES
    requires Reconstruction(c, template).Ok? && data == Reconstruction(c, template).value.data
    requires SameTargets(m.compressed, specs)
    ensures InflateTo(c, NewStreams(c, template, data, bank, m, preserve), specs, bank)
  {
    StreamsFromBank(c, template, m);
    var outputs := Outputs(c, template, m);
    forall i | 0 <= i < |specs|
      ensures NewRegion(c, NewStreams(c, template, data, bank, m, preserve)[i], specs[i], bank)
    {
      NewOutput(c, Stored(template, m)[i], data, bank, m.compressed[i], specs[i], preserve, outputs[i]);
    }
    InflateToFrom(c, NewStreams(c, template, data, bank, m, preserve), specs, bank);
  }

  ghost predicate NewRegion(c: Codec, stored: seq<byte>, s: CompressedSpec, bank: seq<byte>) {
    s.destination + s.outputSize <= |bank| && InflateRegion(c, stored, s.outputSize).Ok?
    && InflateRegion(c, stored, s.outputSize).value.0 == CompressedSlice(bank, s)
  }

  lemma NewOutput(c: Codec, kept: seq<byte>, data: seq<byte>, bank: seq<byte>, s: CompressedSpec, t: CompressedSpec,
    preserve: bool, output: (seq<byte>, u32))
    requires Lawful(c) && |data| == |bank| == BANK_BYTES && s.destination + s.outputSize <= BANK_BYTES
    requires t.destination == s.destination && t.outputSize == s.outputSize
    requires InflateRegion(c, kept, s.outputSize) == Ok(output) && CompressedSlice(data, s) == output.0
    ensures NewRegion(c, NewStream(c, kept, data, bank, s, preserve), t, bank)
  {
    hide InflateRegion, NewStream, DeflateRegion;
    NewStreamInflates(c, kept, data, bank, s, preserve);
    assert CompressedSlice(bank, t) == CompressedSlice(bank, s);
  }

  lemma InflateToFrom(c: Codec, stored: seq<seq<byte>>, specs: seq<CompressedSpec>, bank: seq<byte>)
    requires |stored| == |specs| && forall i :: 0 <= i < |specs| ==> NewRegion(c, stored[i], specs[i], bank)
    ensures InflateTo(c, stored, specs, bank)
  {
    InflateAllAt(c, stored, specs);
  }

  // ----- An unchanged bank gives the template back -----

  /** Parts that match a string piece by piece join to it. */
  lemma PiecesJoin(p: seq<byte>, at: nat, sizes: seq<nat>, parts: seq<seq<byte>>)
    requires |sizes| == |parts| && at + Offset(sizes, |sizes|) <= |p|
    requires forall i :: 0 <= i < |parts| ==> parts[i] == Cut(p, at, sizes, i)
    ensures Flat(parts) == p[at..at + Offset(sizes, |sizes|)]
  {
    forall i | 0 <= i < |parts|
      ensures Cuts(p, at, sizes)[i] == parts[i]
    {
      CutsAt(p, at, sizes, i);
    }
    assert Cuts(p, at, sizes) == parts;
    FlatCover(p, at, sizes);
  }

  lemma RawTableRewrite(p: seq<byte>, at: nat, n: nat)
    requires at + 8 * n <= |p|
    ensures Flat(RawTable(RawSpecsAt(p, at, n))) == p[at..at + 8 * n]
  {
    hide RawBytes, RawSpecAt, Offset, Flat;
    var parts := RawTable(RawSpecsAt(p, at, n));
    var sizes := Lengths(parts);
    OffsetUniform(sizes, 8, n);
    forall i | 0 <= i < n
      ensures parts[i] == Cut(p, at, sizes, i)
    {
      OffsetUniform(sizes, 8, i);
      RawBytesRewrite(p, at + 8 * i);
    }
    PiecesJoin(p, at, sizes, parts);
  }

  lemma RawBytesRewrite(p: seq<byte>, at: nat)
    requires at + 8 <= |p|
    ensures RawBytes(RawSpecAt(p, at)) == p[at..at + 8]
  {
    WordRewrite(p, at);
    WordRewrite(p, at + 4);
    assert p[at..at + 8] == p[at..at + 4] + p[at + 4..at + 8];
  }

  lemma CompressedTableRewrite(p: seq<byte>, at: nat, n: nat)
    requires at + 12 * n <= |p|
    ensures Flat(CompressedTable(CompressedSpecsAt(p, at, n))) == p[at..at + 12 * n]
  {
    hide CompressedBytes, CompressedSpecAt, Offset, Flat;
    var parts := CompressedTable(CompressedSpecsAt(p, at, n));
    var sizes := Lengths(parts);
    OffsetUniform(sizes, 12, n);
    forall i | 0 <= i < n
      ensures parts[i] == Cut(p, at, sizes, i)
    {
      OffsetUniform(sizes, 12, i);
      CompressedBytesRewrite(p, at + 12 * i);
    }
    PiecesJoin(p, at, sizes, parts);
  }

  lemma CompressedBytesRewrite(p: seq<byte>, at: nat)
    requires at + 12 <= |p|
    ensures CompressedBytes(CompressedSpecAt(p, at)) == p[at..at + 12]
  {
    WordRewrite(p, at);
    WordRewrite(p, at + 4);
    WordRewrite(p, at + 8);
    assert p[at..at + 12] == p[at..at + 4] + p[at + 4..at + 8] + p[at + 8..at + 12];
  }

  lemma TableRewrite(p: seq<byte>, at: nat, m: Map)
    requires at + 8 <= |p| && TableMap(p, at) == Ok(m)
    ensures |m.raws| + |m.compressed| <= MAX_REGIONS && Table(m.raws, m.compressed) == p[at..]
  {
    hide Flat, RawTable, CompressedTable, Be16, Be32;
    var n, k := |m.raws|, |m.compressed|;
    var b, d, e := at + 2, at + 4 + 8 * n, at + 4 + 8 * n + 12 * k;
    assert Be16(n) == p[at..at + 2] && Be16(k) == p[at + 2..at + 4] by {
      HalfWordRewrite(p, at);
      HalfWordRewrite(p, at + 2);
    }
    assert Flat(RawTable(m.raws)) == p[at + 4..d] by {
      RawTableRewrite(p, at + 4, n);
    }
    assert Flat(CompressedTable(m.compressed)) == p[d..e] by {
      CompressedTableRewrite(p, d, k);
    }
    assert Be32(MAP_VERSION) == p[e..] by {
      WordRewrite(p, e);
    }
    FiveParts(p, at, b, b + 2, d, e);
  }

  lemma FiveParts(p: seq<byte>, a: nat, b: nat, c: nat, d: nat, e: nat)
    requires a <= b <= c <= d <= e <= |p|
    ensures p[a..] == p[a..b] + p[b..c] + p[c..d] + p[d..e] + p[e..]
  {
  }

  lemma InnerRewrite(inner: seq<byte>, tableOffset: u32)
    requires INNER_HEADER_BYTES <= |inner| < TWO32
    requires inner[..4] == KXZ && U32At(inner, 8) == |inner| && U32At(inner, 12) == tableOffset
    requires U32At(inner, 4) == Sum(inner[12..]) % TWO32
    ensures Inner(tableOffset, inner[16..]) == inner
  {
    WordRewrite(inner, 4);
    WordRewrite(inner, 8);
    WordRewrite(inner, 12);
    assert inner[12..] == inner[12..16] + inner[16..];
    FiveParts(inner, 0, 4, 8, 12, 16);
  }

  /** Between the headers and the table a template holds its own streams and gap. */
  lemma TemplateContent(template: seq<byte>, m: Map)
    requires Applicable(template, m)
    ensures Content(RawData(template, m), Stored(template, m), Gap(template, m)) == template[HEADERS..m.tableOffset]
  {
    FlatAppend(RawData(template, m), Stored(template, m));
    FlatCover(template, HEADERS, m.RawSizes());
    FlatCover(template, m.RawEnd(), m.StoredSizes());
    FourParts(template, HEADERS, m.RawEnd(), m.SourceEnd(), m.tableOffset);
  }

  lemma FourParts(p: seq<byte>, a: nat, b: nat, c: nat, d: nat)
    requires a <= b <= c <= d <= |p|
    ensures p[a..b] + p[b..c] + p[c..d] == p[a..d]
  {
  }

  lemma StoredSizedBy(template: seq<byte>, start: nat, sizes: seq<nat>)
    requires start + Offset(sizes, |sizes|) <= |template|
    ensures Lengths(Cuts(template, start, sizes)) == sizes
  {
    forall i | 0 <= i < |sizes|
      ensures |Cuts(template, start, sizes)[i]| == sizes[i]
    {
      CutsAt(template, start, sizes, i);
    }
  }

  lemma TemplateResized(template: seq<byte>, m: Map)
    requires Applicable(template, m)
    ensures Packable(Stored(template, m)) && Resized(m.compressed, Stored(template, m)) == m.compressed
  {
    StoredSizedBy(template, m.RawEnd(), m.StoredSizes());
    assert Lengths(Stored(template, m)) == m.StoredSizes();
    forall i | 0 <= i < |m.compressed|
      ensures |Stored(template, m)[i]| == m.compressed[i].storedSize
    {
      assert m.StoredSizes()[i] == m.compressed[i].storedSize;
    }
  }

  lemma HeaderFields(p: seq<byte>, table: nat)
    requires TableStart(p) == Ok(table)
    ensures var inner := p[OUTER_BYTES..];
      && HEADERS <= table <= |p| <= MAX_PACKAGE_BYTES
      && inner[..4] == KXZ && U32At(inner, 8) == |inner| && U32At(inner, 12) == table - OUTER_BYTES
      && U32At(inner, 4) == Sum(inner[12..]) % TWO32
  {
  }

  /** A package with an accepted map is its outer header and an inner package printed from the map. */
  lemma TemplatePrinted(template: seq<byte>, m: Map)
    requires ReadMap(template) == Ok(m) && |m.raws| + |m.compressed| <= MAX_REGIONS
    ensures HEADERS <= m.tableOffset <= |template| <= MAX_PACKAGE_BYTES
    ensures |template| == m.tableOffset + TableSize(m) && |Table(m.raws, m.compressed)| == TableSize(m)
    ensures Printed(template[..OUTER_BYTES], template[HEADERS..m.tableOffset], m.raws, m.compressed) == template
  {
    HeaderFields(template, m.tableOffset);
    TableLength(m.raws, m.compressed);
    TableRewrite(template, m.tableOffset, m);
    Reprint(template, m.tableOffset, Table(m.raws, m.compressed));
  }

  lemma Reprint(p: seq<byte>, at: nat, table: seq<byte>)
    requires TableStart(p) == Ok(at) && p[at..] == table
    ensures p[..OUTER_BYTES] + Inner(at - OUTER_BYTES, p[HEADERS..at] + table) == p
  {
    HeaderFields(p, at);
    var inner := p[OUTER_BYTES..];
    InnerRewrite(inner, at - OUTER_BYTES);
    assert inner[16..] == p[HEADERS..at] + table;
    assert p[..OUTER_BYTES] + inner == p;
  }

  /** With nothing changed and old streams kept, printing gives the template back, byte for byte. */
  lemma UnchangedPrintsTemplate(c: Codec, template: seq<byte>, m: Map, data: seq<byte>)
    requires Accepted(c, template, m) && Applicable(template, m)
    requires Reconstruction(c, template).Ok? && data == Reconstruction(c, template).value.data && |data| == BANK_BYTES
    ensures HEADERS + |NewContent(c, template, m, data, data, true)| + TableSize(m) == |template| <= MAX_PACKAGE_BYTES
    ensures NewPackage(c, template, m, data, data, true) == template
  {
    hide Reconstruction, Applicable, Outputs, Cuts, Table, Inner, Content, TableMap, ReadMap, NewStreams, Stored,
      Printed, Resized, RawStreams, TableSize, NewContent, NewPackage;
    StreamsFromBank(c, template, m);
    KeptStreams(c, template, m, data);
    UnchangedPrints(c, template, m, data);
  }

  /** Nothing is deflated anew when nothing changed. */
  lemma KeptStreams(c: Codec, template: seq<byte>, m: Map, data: seq<byte>)
    requires MapFits(m) && |data| == BANK_BYTES && m.SourceEnd() <= |template|
    ensures NewStreams(c, template, data, data, m, true) == Stored(template, m)
  {
    hide Stored, CompressedSlice;
    assert |Stored(template, m)| == |m.compressed|;
  }

  /** Printing the template's own streams gives the template. */
  lemma UnchangedPrints(c: Codec, template: seq<byte>, m: Map, data: seq<byte>)
    requires ReadMap(template) == Ok(m) && Applicable(template, m) && |data| == BANK_BYTES
    requires RawStreams(data, m) == RawData(template, m)
    requires NewStreams(c, template, data, data, m, true) == Stored(template, m)
    ensures HEADERS + |NewContent(c, template, m, data, data, true)| + TableSize(m) == |template| <= MAX_PACKAGE_BYTES
    ensures NewPackage(c, template, m, data, data, true) == template
  {
    hide Applicable, Table, Content, ReadMap, NewStreams, Stored, Printed, Resized, RawStreams, RawData, TableSize;
    ApplicableCount(template, m);
    TemplateContent(template, m);
    TemplateResized(template, m);
    TemplatePrinted(template, m);
  }

  lemma ApplicableCount(template: seq<byte>, m: Map)
    requires Applicable(template, m)
    ensures |m.raws| + |m.compressed| <= MAX_REGIONS
  {
  }

  /**
   Rebuilding succeeds exactly when the bank is full-sized, the template reconstructs and is
   named, the new package is small enough, and the bank is blank wherever the map does not reach.
   The package then reconstructs to the bank. So neither of the last guards but the one for
   unmapped changes can fire: the rebuilt package is never refused, and an unchanged one never differs.
   */
  lemma RebuildIff(c: Codec, template: seq<byte>, bank: seq<byte>, preserve: bool)
    requires Lawful(c)
    ensures Rebuild(c, template, bank, preserve).Ok? <==>
      && |bank| == BANK_BYTES && Reconstruction(c, template).Ok? && OuterNameValid(template)
      && NewSize(c, template, bank, preserve) <= MAX_PACKAGE_BYTES
      && forall i :: 0 <= i < BANK_BYTES && !Mapped(ReadMap(template).value, i) ==> bank[i] == 0xFF
    ensures Rebuild(c, template, bank, preserve).Ok? ==>
      var package := Rebuild(c, template, bank, preserve).value.data;
      Reconstruction(c, package).Ok? && Reconstruction(c, package).value.data == bank
    ensures Rebuild(c, template, bank, preserve).Err? ==>
      Rebuild(c, template, bank, preserve).fault != NotIdentical
      && !Rebuild(c, template, bank, preserve).fault.RebuiltRefused?
  {
    if |bank| == BANK_BYTES && Reconstruction(c, template).Ok? && OuterNameValid(template) {
      AcceptedApplicable(c, template);
      var m := ReadMap(template).value;
      var data := Reconstruction(c, template).value.data;
      PrintIff(c, template, m, data, bank, preserve);
    }
  }

  /** How long the rebuilt package is. */
  ghost function NewSize(c: Codec, template: seq<byte>, bank: seq<byte>, preserve: bool): nat
    requires |bank| == BANK_BYTES && Reconstruction(c, template).Ok?
  {
    AcceptedApplicable(c, template);
    var m := ReadMap(template).value;
    HEADERS + |NewContent(c, template, m, Reconstruction(c, template).value.data, bank, preserve)| + TableSize(m)
  }

  lemma PrintIff(c: Codec, template: seq<byte>, m: Map, data: seq<byte>, bank: seq<byte>, preserve: bool)
    requires Lawful(c) && Accepted(c, template, m) && Applicable(template, m) && |data| == |bank| == BANK_BYTES
    requires Reconstruction(c, template).Ok? && data == Reconstruction(c, template).value.data
    ensures Settled(c, m, bank, HEADERS + |NewContent(c, template, m, data, bank, preserve)| + TableSize(m),
      Print(c, template, m, data, bank, preserve))
  {
    hide Reconstruction, Accepted, NewPackage, NewContent, NewStreams, RawStreams, Finish, ChangedRaw, Preserved,
      Mapped, OnMap;
    if INNER_HEADER_BYTES + |NewContent(c, template, m, data, bank, preserve)| + TableSize(m) < TWO32 {
      NewPackageSize(c, template, m, data, bank, preserve);
      var p := NewPackage(c, template, m, data, bank, preserve);
      if |p| <= MAX_PACKAGE_BYTES {
        PrintReconstructs(c, template, m, data, bank, preserve);
        if preserve && bank == data {
          UnchangedPrintsTemplate(c, template, m, data);
        }
        assert preserve && bank == data ==> p == template;
      }
      FinishIff(c, template, m, data, bank, preserve, RebuildResult(
        p, ChangedRaw(m, data, bank),
        |m.compressed| - Preserved(m, data, bank, preserve), Preserved(m, data, bank, preserve)));
    }
  }

  /** How a rebuild ends, given the size of what it prints. */
  ghost predicate Settled(c: Codec, m: Map, bank: seq<byte>, size: nat, r: Result<RebuildResult, RebuildFault>) {
    && |bank| == BANK_BYTES
    && (r.Ok? <==> (size <= MAX_PACKAGE_BYTES && forall i :: 0 <= i < BANK_BYTES && !Mapped(m, i) ==> bank[i] == 0xFF))
    && (r.Ok? ==> Reconstruction(c, r.value.data).Ok? && Reconstruction(c, r.value.data).value.data == bank)
    && (r.Err? ==> r.fault != NotIdentical && !r.fault.RebuiltRefused?)
  }

  lemma FinishIff(c: Codec, template: seq<byte>, m: Map, data: seq<byte>, bank: seq<byte>, preserve: bool,
    result: RebuildResult)
    requires |bank| == BANK_BYTES
    requires |result.data| <= MAX_PACKAGE_BYTES ==>
      && Reconstruction(c, result.data).Ok? && Reconstruction(c, result.data).value.data == OnMap(m, bank)
      && (preserve && bank == data ==> result.data == template)
    ensures Settled(c, m, bank, |result.data|, Finish(c, template, data, bank, preserve, result))
  {
    OnMapIdentity(m, bank);
  }

  lemma OnMapIdentity(m: Map, bank: seq<byte>)
    requires |bank| == BANK_BYTES
    ensures OnMap(m, bank) == bank <==> forall i :: 0 <= i < BANK_BYTES && !Mapped(m, i) ==> bank[i] == 0xFF
  {
    if OnMap(m, bank) == bank {
      forall i | 0 <= i < BANK_BYTES && !Mapped(m, i)
        ensures bank[i] == 0xFF
      {
        assert OnMap(m, bank)[i] == 0xFF;
      }
    }
  }

  /** A template's own bank, with old streams kept, rebuilds to the template itself. */
  lemma UnchangedRebuild(c: Codec, template: seq<byte>)
    requires Lawful(c) && Reconstruction(c, template).Ok? && OuterNameValid(template)
    ensures var data := Reconstruction(c, template).value.data;
      Rebuild(c, template, data, true)
        == Ok(RebuildResult(template, 0, 0, |Reconstruction(c, template).value.compressedRegions|))
  {
    AcceptedApplicable(c, template);
    var m := ReadMap(template).value;
    var data := Reconstruction(c, template).value.data;
    StreamsFromBank(c, template, m);
    UnchangedPrintsTemplate(c, template, m, data);
    UnchangedCounts(m, data);
    assert Print(c, template, m, data, data, true)
      == Finish(c, template, data, data, true, RebuildResult(template, 0, 0, |m.compressed|));
  }

  lemma UnchangedCounts(m: Map, data: seq<byte>)
    requires MapFits(m) && |data| == BANK_BYTES
    ensures ChangedRaw(m, data, data) == 0 && Preserved(m, data, data, true) == |m.compressed|
  {
    var changed := seq(|m.raws|, i requires 0 <= i < |m.raws| =>
      RawSlice(data, m.raws[i]) != RawSlice(data, m.raws[i]));
    var kept := seq(|m.compressed|, i requires 0 <= i < |m.compressed| =>
      true && CompressedSlice(data, m.compressed[i]) == CompressedSlice(data, m.compressed[i]));
    TallyBound(changed);
    TallyBound(kept);
  }

  // ----- rebuild_package, loop by loop -----

  ghost function RawFlags(m: Map, data: seq<byte>, bank: seq<byte>): (flags: seq<bool>)
    requires MapFits(m) && |data| == |bank| == BANK_BYTES
    ensures |flags| == |m.raws|
  {
    seq(|m.raws|, i requires 0 <= i < |m.raws| => RawSlice(bank, m.raws[i]) != RawSlice(data, m.raws[i]))
  }

  lemma TallyStep(flags: seq<bool>, i: nat)
    requires i < |flags|
    ensures Tally(flags[..i + 1]) == Tally(flags[..i]) + if flags[i] then 1 else 0
  {
    assert flags[..i + 1][..i] == flags[..i];
  }

  /** What the loop over the raw regions does with one of them. */
  ghost predicate RawStep(data: seq<byte>, bank: seq<byte>, region: RawRegion, stream: seq<byte>, changed: bool) {
    region.destination + region.size <= |bank| == |data|
    && stream == bank[region.destination..region.destination + region.size]
    && changed == (stream != data[region.destination..region.destination + region.size])
  }

  /** The loop over the raw regions. */
  method CollectRaw(data: seq<byte>, bank: seq<byte>, regions: seq<RawRegion>,
    ghost wanted: seq<seq<byte>>, ghost flags: seq<bool>)
    returns (streams: seq<seq<byte>>, changed: nat)
    requires |wanted| == |flags| == |regions|
    requires forall i :: 0 <= i < |regions| ==> RawStep(data, bank, regions[i], wanted[i], flags[i])
    ensures streams == wanted && changed == Tally(flags)
  {
    streams, changed := [], 0;
    for i := 0 to |regions|
      invariant streams == wanted[..i] && changed == Tally(flags[..i])
    {
      var region := regions[i];
      assert RawStep(data, bank, region, wanted[i], flags[i]);
      TallyStep(flags, i);
      var replacement := bank[region.destination..region.destination + region.size];
      var original := data[region.destination..region.destination + region.size];
      if replacement != original {
        changed := changed + 1;
      }
      streams := streams + [replacement];
    }
    assert flags[..|regions|] == flags;
  }

  /** The loops that move `source_end` to the end of the last region. */
  method LastSourceEnd(raws: seq<RawRegion>, compressed: seq<CompressedRegion>) returns (end: nat)
    ensures end ==
      if compressed != [] then compressed[|compressed| - 1].source + compressed[|compressed| - 1].storedSize
      else if raws != [] then raws[|raws| - 1].source + raws[|raws| - 1].size
      else HEADERS
  {
    end := HEADERS;
    for i := 0 to |raws|
      invariant end == if i == 0 then HEADERS else raws[i - 1].source + raws[i - 1].size
    {
      end := raws[i].source + raws[i].size;
    }
    for i := 0 to |compressed|
      invariant i > 0 ==> end == compressed[i - 1].source + compressed[i - 1].storedSize
      invariant i == 0 ==> end == if raws == [] then HEADERS else raws[|raws| - 1].source + raws[|raws| - 1].size
    {
      end := compressed[i].source + compressed[i].storedSize;
    }
  }

  ghost function KeptFlags(m: Map, data: seq<byte>, bank: seq<byte>, preserve: bool): (flags: seq<bool>)
    requires MapFits(m) && |data| == |bank| == BANK_BYTES
    ensures |flags| == |m.compressed|
  {
    seq(|m.compressed|, i requires 0 <= i < |m.compressed| =>
      preserve && CompressedSlice(bank, m.compressed[i]) == CompressedSlice(data, m.compressed[i]))
  }

  /** What the layout's region `i` says, in terms of the map. */
  ghost predicate RegionOf(m: Map, i: nat, region: CompressedRegion)
    requires i < |m.compressed|
  {
    region.source == m.RawEnd() + Offset(m.StoredSizes(), i) && region.storedSize == m.compressed[i].storedSize
    && region.destination == m.compressed[i].destination && region.outputSize == m.compressed[i].outputSize
  }

  /** What the loop over the compressed regions does with one of them. */
  ghost predicate CompressedStep(c: Codec, template: seq<byte>, data: seq<byte>, bank: seq<byte>, preserve: bool,
    region: CompressedRegion, stream: seq<byte>, kept: bool)
  {
    && region.destination + region.outputSize <= |bank| == |data| < TWO32
    && region.source + region.storedSize <= |template|
    && var replacement := bank[region.destination..region.destination + region.outputSize];
      kept == (preserve && replacement == data[region.destination..region.destination + region.outputSize])
      && stream ==
        if kept then template[region.source..region.source + region.storedSize] else DeflateRegion(c, replacement)
  }

  /** The loop over the compressed regions. */
  method CollectCompressed(c: Codec, template: seq<byte>, data: seq<byte>, bank: seq<byte>, preserve: bool,
    regions: seq<CompressedRegion>, ghost wanted: seq<seq<byte>>, ghost flags: seq<bool>)
    returns (streams: seq<seq<byte>>, recompressed: nat, preserved: nat)
    requires |wanted| == |flags| == |regions|
    requires forall i :: 0 <= i < |regions| ==>
      CompressedStep(c, template, data, bank, preserve, regions[i], wanted[i], flags[i])
    ensures streams == wanted && preserved == Tally(flags) && recompressed == |regions| - preserved
  {
    hide DeflateRegion;
    streams, recompressed, preserved := [], 0, 0;
    for i := 0 to |regions|
      invariant streams == wanted[..i] && preserved == Tally(flags[..i]) && preserved + recompressed == i
    {
      assert CompressedStep(c, template, data, bank, preserve, regions[i], wanted[i], flags[i]);
      TallyStep(flags, i);
      var kept, stored := StoreRegion(c, template, data, bank, preserve, regions[i]);
      if kept {
        preserved := preserved + 1;
      } else {
        recompressed := recompressed + 1;
      }
      streams := streams + [stored];
    }
    assert flags[..|regions|] == flags;
  }

  /** One round of that loop. */
  method StoreRegion(c: Codec, template: seq<byte>, data: seq<byte>, bank: seq<byte>, preserve: bool,
    region: CompressedRegion)
    returns (kept: bool, stored: seq<byte>)
    requires region.destination + region.outputSize <= |bank| == |data| < TWO32
    requires region.source + region.storedSize <= |template|
    ensures CompressedStep(c, template, data, bank, preserve, region, stored, kept)
  {
    var replacement := bank[region.destination..region.destination + region.outputSize];
    var original := data[region.destination..region.destination + region.outputSize];
    kept := preserve && replacement == original;
    if kept {
      stored := template[region.source..region.source + region.storedSize];
    } else {
      stored := DeflateRegion(c, replacement);
    }
  }

  lemma StoredSlice(template: seq<byte>, m: Map, i: nat)
    requires m.SourceEnd() <= |template| && i < |m.compressed|
    ensures var source := m.RawEnd() + Offset(m.StoredSizes(), i);
      && source + m.compressed[i].storedSize <= |template|
      && Stored(template, m)[i] == template[source..source + m.compressed[i].storedSize]
  {
    hide Cuts, Offset;
    var sizes := m.StoredSizes();
    assert sizes[i] == m.compressed[i].storedSize;
    CutsAt(template, m.RawEnd(), sizes, i);
  }

  lemma RawSteps(data: seq<byte>, bank: seq<byte>, m: Map)
    requires MapFits(m) && |data| == |bank| == BANK_BYTES
    ensures forall i :: 0 <= i < |m.raws| ==>
      RawStep(data, bank, m.RawRegions()[i], RawStreams(bank, m)[i], RawFlags(m, data, bank)[i])
  {
  }

  lemma CompressedSteps(c: Codec, template: seq<byte>, data: seq<byte>, bank: seq<byte>, preserve: bool, m: Map,
    regions: seq<CompressedRegion>)
    requires Applicable(template, m) && |data| == |bank| == BANK_BYTES && |regions| == |m.compressed|
    requires forall i :: 0 <= i < |m.compressed| ==> RegionOf(m, i, regions[i])
    ensures forall i :: 0 <= i < |regions| ==>
      CompressedStep(c, template, data, bank, preserve, regions[i],
        NewStreams(c, template, data, bank, m, preserve)[i], KeptFlags(m, data, bank, preserve)[i])
  {
    hide DeflateRegion, Stored;
    forall i | 0 <= i < |regions|
      ensures CompressedStep(c, template, data, bank, preserve, regions[i],
        NewStreams(c, template, data, bank, m, preserve)[i], KeptFlags(m, data, bank, preserve)[i])
    {
      assert RegionOf(m, i, regions[i]);
      StoredSlice(template, m, i);
    }
  }

  lemma LastEnds(m: Map, compressed: seq<CompressedRegion>)
    requires |compressed| == |m.compressed|
    requires forall i :: 0 <= i < |m.compressed| ==> RegionOf(m, i, compressed[i])
    ensures m.raws != [] ==> m.RawEnd() == m.RawRegions()[|m.raws| - 1].source + m.RawRegions()[|m.raws| - 1].size
    ensures m.raws == [] ==> m.RawEnd() == HEADERS
    ensures compressed != [] ==>
      m.SourceEnd() == compressed[|compressed| - 1].source + compressed[|compressed| - 1].storedSize
    ensures compressed == [] ==> m.SourceEnd() == m.RawEnd()
  {
    if compressed != [] {
      assert RegionOf(m, |compressed| - 1, compressed[|compressed| - 1]);
    }
  }

  lemma LayoutRegions(c: Codec, template: seq<byte>)
    requires Reconstruction(c, template).Ok?
    ensures LayoutOf(ReadMap(template).value, Reconstruction(c, template).value)
    ensures |Reconstruction(c, template).value.data| == BANK_BYTES
  {
  }

  /** `rebuild_package`. */
  method RebuildPackage(c: Codec, template: seq<byte>, bank: seq<byte>, preserve: bool)
    returns (r: Result<RebuildResult, RebuildFault>)
    ensures r == Rebuild(c, template, bank, preserve)
  {
    if |bank| != BANK_BYTES {
      return Err(BankSize);
    }
    var built := BuildBank(c, template);
    if built.Err? {
      return Err(TemplateRefused(built.fault));
    }
    if !OuterNameValid(template) {
      return Err(OuterName);
    }
    AcceptedApplicable(c, template);
    LayoutRegions(c, template);
    r := PrintPackage(c, template, built.value, bank, preserve, ReadMap(template).value);
  }

  method PrintPackage(c: Codec, template: seq<byte>, layout: BankResult, bank: seq<byte>, preserve: bool, ghost m: Map)
    returns (r: Result<RebuildResult, RebuildFault>)
    requires Applicable(template, m) && |layout.data| == |bank| == BANK_BYTES && LayoutOf(m, layout)
    ensures r == Print(c, template, m, layout.data, bank, preserve)
  {
    hide LayoutOf, Finish, Printed, Resized, RawStreams, NewStreams, Gap, Content, ChangedRaw, Preserved, MapFits,
      Table;
    var rawStreams, changed, stored, recompressed, preserved, gap :=
      CollectStreams(c, template, layout, bank, preserve, m);
    var printed := PackPackage(template, layout, rawStreams, stored, gap, m);
    if printed.Err? {
      return Err(printed.fault);
    }
    r := CheckPackage(c, template, layout.data, bank, preserve,
      RebuildResult(printed.value, changed, recompressed, preserved));
  }

  /** The loops that collect the streams and counters, and the template's gap. */
  method CollectStreams(c: Codec, template: seq<byte>, layout: BankResult, bank: seq<byte>, preserve: bool,
    ghost m: Map)
    returns (rawStreams: seq<seq<byte>>, changed: nat, stored: seq<seq<byte>>, recompressed: nat, preserved: nat,
      gap: seq<byte>)
    requires Applicable(template, m) && |layout.data| == |bank| == BANK_BYTES && LayoutOf(m, layout)
    ensures rawStreams == RawStreams(bank, m) && changed == ChangedRaw(m, layout.data, bank)
    ensures stored == NewStreams(c, template, layout.data, bank, m, preserve)
    ensures preserved == Preserved(m, layout.data, bank, preserve) && recompressed == |m.compressed| - preserved
    ensures gap == Gap(template, m)
  {
    hide RegionOf, CompressedStep, RawStep, NewStreams;
    ghost var data := layout.data;
    RawSteps(data, bank, m);
    rawStreams, changed := CollectRaw(layout.data, bank, layout.rawRegions,
      RawStreams(bank, m), RawFlags(m, data, bank));
    CompressedSteps(c, template, data, bank, preserve, m, layout.compressedRegions);
    stored, recompressed, preserved :=
      CollectCompressed(c, template, layout.data, bank, preserve, layout.compressedRegions,
        NewStreams(c, template, data, bank, m, preserve), KeptFlags(m, data, bank, preserve));
    LastEnds(m, layout.compressedRegions);
    var sourceEnd := LastSourceEnd(layout.rawRegions, layout.compressedRegions);
    gap := template[sourceEnd..layout.tableOffset];
  }

  /** The layout that a template's map describes. */
  ghost predicate LayoutOf(m: Map, layout: BankResult) {
    && layout.rawRegions == m.RawRegions() && layout.tableOffset == m.tableOffset
    && |layout.compressedRegions| == |m.compressed|
    && forall i :: 0 <= i < |m.compressed| ==> RegionOf(m, i, layout.compressedRegions[i])
  }

  /** The joins and `struct.pack` calls that make the package. */
  method PackPackage(template: seq<byte>, layout: BankResult, rawStreams: seq<seq<byte>>, stored: seq<seq<byte>>,
    gap: seq<byte>, ghost m: Map)
    returns (r: Result<seq<byte>, RebuildFault>)
    requires |template| >= HEADERS && |stored| == |m.compressed| && |m.raws| + |m.compressed| <= MAX_REGIONS
    requires LayoutOf(m, layout)
    ensures r.Err? <==> INNER_HEADER_BYTES + |Content(rawStreams, stored, gap)| + TableSize(m) >= TWO32
    ensures r.Err? ==> r.fault == PackRange
    ensures r.Ok? ==>
      && Packable(stored) && |Table(m.raws, Resized(m.compressed, stored))| == TableSize(m)
      && r.value
        == Printed(template[..OUTER_BYTES], Content(rawStreams, stored, gap), m.raws, Resized(m.compressed, stored))
  {
    var content := Flat(rawStreams + stored) + gap;
    var innerSize := INNER_HEADER_BYTES + |content| + (4 + 8 * |layout.rawRegions| + 12 * |stored| + 4);
    if innerSize >= TWO32 {
      return Err(PackRange);
    }
    ContentBounds(rawStreams, stored, gap);
    var rawSpecs := PackRaw(layout.rawRegions, m);
    var specs := PackSpecs(layout.compressedRegions, stored, m);
    TableLength(rawSpecs, specs);
    var inner := Inner(INNER_HEADER_BYTES + |content|, content + Table(rawSpecs, specs));
    return Ok(template[..OUTER_BYTES] + inner);
  }

  /** The raw half of the table. */
  method PackRaw(regions: seq<RawRegion>, ghost m: Map) returns (specs: seq<RawSpec>)
    requires regions == m.RawRegions()
    ensures specs == m.raws
  {
    specs := [];
    for i := 0 to |regions|
      invariant specs == m.raws[..i]
    {
      specs := specs + [RawSpec(regions[i].destination, regions[i].size)];
    }
  }

  /** The compressed half of the table. */
  method PackSpecs(regions: seq<CompressedRegion>, stored: seq<seq<byte>>, ghost m: Map)
    returns (specs: seq<CompressedSpec>)
    requires |regions| == |m.compressed| == |stored| && Packable(stored)
    requires forall i :: 0 <= i < |m.compressed| ==> RegionOf(m, i, regions[i])
    ensures specs == Resized(m.compressed, stored)
  {
    specs := [];
    for i := 0 to |regions|
      invariant specs == Resized(m.compressed, stored)[..i]
    {
      assert RegionOf(m, i, regions[i]);
      specs := specs + [CompressedSpec(regions[i].destination, regions[i].outputSize, |stored[i]|)];
    }
  }

  /** The guards on what was printed. */
  method CheckPackage(c: Codec, template: seq<byte>, data: seq<byte>, bank: seq<byte>, preserve: bool,
    result: RebuildResult)
    returns (r: Result<RebuildResult, RebuildFault>)
    ensures r == Finish(c, template, data, bank, preserve, result)
  {
    if |result.data| > MAX_PACKAGE_BYTES {
      return Err(TooLarge);
    }
    var checked := BuildBank(c, result.data);
    if checked.Err? {
      return Err(RebuiltRefused(checked.fault));
    }
    if checked.value.data != bank {
      return Err(OutsideMap);
    }
    if preserve && bank == data && result.data != template {
      return Err(NotIdentical);
    }
    return Ok(result);
  }
}
