/** What a package rebuilt by firmware/zup_rebuild.py contains, piece by piece, and what its counters count. */
module ZupRebuilt {
  import opened Bytes
  import opened Wrappers
  import opened Pieces
  import opened Codec
  import opened ZupBank
  import opened ZupRebuild

  /** The bytes of the bank that raw region `i` of the map holds. */
  ghost function RawPiece(m: Map, bank: seq<byte>, i: nat): seq<byte>
    requires i < |m.raws| && m.raws[i].destination + m.raws[i].size <= |bank|
  {
    bank[m.raws[i].destination..m.raws[i].destination + m.raws[i].size]
  }

  /** The bytes of the bank that compressed region `i` of the map expands to. */
  ghost function OpenPiece(m: Map, bank: seq<byte>, i: nat): seq<byte>
    requires i < |m.compressed| && m.compressed[i].destination + m.compressed[i].outputSize <= |bank|
  {
    bank[m.compressed[i].destination..m.compressed[i].destination + m.compressed[i].outputSize]
  }

  /** The raw regions whose bytes differ between the two banks. */
  ghost function ChangedRaws(m: Map, data: seq<byte>, bank: seq<byte>): set<nat>
    requires MapFits(m) && |data| == |bank| == BANK_BYTES
  {
    set i: nat | i < |m.raws| && RawPiece(m, bank, i) != RawPiece(m, data, i)
  }

  /** The compressed regions whose bytes agree. */
  ghost function SameRegions(m: Map, data: seq<byte>, bank: seq<byte>): (s: set<nat>)
    requires MapFits(m) && |data| == |bank| == BANK_BYTES
    ensures forall i: nat :: i in s <==> i < |m.compressed| && OpenPiece(m, bank, i) == OpenPiece(m, data, i)
  {
    set i: nat | i < |m.compressed| && OpenPiece(m, bank, i) == OpenPiece(m, data, i)
  }

  ghost function Flagged(flags: seq<bool>): (s: set<nat>)
    ensures forall i: nat :: i in s <==> i < |flags| && flags[i]
  {
    set i: nat | i < |flags| && flags[i]
  }

  /** Counting flags is counting the set indices. */
  lemma {:induction false} TallyCounts(flags: seq<bool>)
    ensures Tally(flags) == |Flagged(flags)|
  {
    if flags == [] {
      assert Flagged(flags) == {};
    } else {
      var n: nat := |flags| - 1;
      TallyCounts(flags[..n]);
      assert Flagged(flags) == Flagged(flags[..n]) + if flags[n] then {n} else {};
    }
  }

  lemma ChangedRawCounts(m: Map, data: seq<byte>, bank: seq<byte>)
    requires MapFits(m) && |data| == |bank| == BANK_BYTES
    ensures ChangedRaw(m, data, bank) == |ChangedRaws(m, data, bank)|
  {
    var flags := seq(|m.raws|, i requires 0 <= i < |m.raws| =>
      RawSlice(bank, m.raws[i]) != RawSlice(data, m.raws[i]));
    TallyCounts(flags);
    assert Flagged(flags) == ChangedRaws(m, data, bank);
  }

  lemma PreservedCounts(m: Map, data: seq<byte>, bank: seq<byte>, preserve: bool)
    requires MapFits(m) && |data| == |bank| == BANK_BYTES
    ensures Preserved(m, data, bank, preserve) == if preserve then |SameRegions(m, data, bank)| else 0
  {
    var flags := seq(|m.compressed|, i requires 0 <= i < |m.compressed| =>
      preserve && CompressedSlice(bank, m.compressed[i]) == CompressedSlice(data, m.compressed[i]));
    TallyCounts(flags);
    assert Flagged(flags) == if preserve then SameRegions(m, data, bank) else {};
  }

  /** Map `n` of a package has the regions of `m`, but for their stored sizes, and the template's gap. */
  ghost predicate SameRegionsAndGap(template: seq<byte>, m: Map, package: seq<byte>, n: Map)
    requires m.SourceEnd() <= m.tableOffset <= |template|
  {
    && n.raws == m.raws && |n.compressed| == |m.compressed|
    && (forall i :: 0 <= i < |m.compressed| ==>
      n.compressed[i].destination == m.compressed[i].destination
      && n.compressed[i].outputSize == m.compressed[i].outputSize)
    && n.SourceEnd() <= n.tableOffset <= |package| && Gap(package, n) == Gap(template, m)
  }

  /** What is stored for compressed region `i`. */
  ghost predicate StreamIs(c: Codec, kept: seq<byte>, now: seq<byte>, before: seq<byte>, piece: seq<byte>,
    preserve: bool)
  {
    && |piece| < TWO32
    && now == if preserve && piece == before then kept else c.deflate(piece) + Le32(c.crc(piece)) + Le32(|piece|)
  }

  /** The pieces of the new package: its outer header, map, raw data, streams and gap. */
  ghost predicate Holds(c: Codec, template: seq<byte>, m: Map, data: seq<byte>, bank: seq<byte>, preserve: bool,
    package: seq<byte>)
    requires Applicable(template, m) && |data| == |bank| == BANK_BYTES
  {
    && |package| >= HEADERS && package[..OUTER_BYTES] == template[..OUTER_BYTES]
    && ReadMap(package).Ok?
    && var n := ReadMap(package).value;
      && SameRegionsAndGap(template, m, package, n)
      && (forall i :: 0 <= i < |m.raws| ==> RawData(package, n)[i] == RawPiece(m, bank, i))
      && forall i :: 0 <= i < |m.compressed| ==>
        StreamIs(c, Stored(template, m)[i], Stored(package, n)[i], OpenPiece(m, data, i), OpenPiece(m, bank, i),
          preserve)
  }

  lemma StreamsAre(c: Codec, template: seq<byte>, m: Map, data: seq<byte>, bank: seq<byte>, preserve: bool, i: nat)
    requires Applicable(template, m) && |data| == |bank| == BANK_BYTES && i < |m.compressed|
    ensures var piece := OpenPiece(m, bank, i);
      StreamIs(c, Stored(template, m)[i], NewStreams(c, template, data, bank, m, preserve)[i], OpenPiece(m, data, i),
        piece, preserve)
  {
    hide Stored, Le32;
  }

  lemma NewHolds(c: Codec, template: seq<byte>, m: Map, data: seq<byte>, bank: seq<byte>, preserve: bool)
    requires Applicable(template, m) && |data| == |bank| == BANK_BYTES && template[..4] == KUP1
    requires HEADERS + |NewContent(c, template, m, data, bank, preserve)| + TableSize(m) <= MAX_PACKAGE_BYTES
    ensures Holds(c, template, m, data, bank, preserve, NewPackage(c, template, m, data, bank, preserve))
  {
    hide Applicable, ReadMap, RawData, Stored, NewStreams, Content, MapFits, NewContent, NewPackage, NewMap, Gap,
      RawStreams, OpenPiece, RawPiece, StoredSized, TableSize, SameTargets, StreamIs;
    var p, n := NewPackage(c, template, m, data, bank, preserve), NewMap(c, template, m, data, bank, preserve);
    ApplicableFits(template, m);
    NewPackageLayout(c, template, m, data, bank, preserve);
    NewMapShape(c, template, m, data, bank, preserve);
    OuterKept(c, template, m, data, bank, preserve);
    NewPieces(c, template, m, data, bank, preserve, p, n);
    TargetsKept(m.compressed, n.compressed);
    forall i | 0 <= i < |m.compressed|
      ensures StreamIs(c, Stored(template, m)[i], Stored(p, n)[i], OpenPiece(m, data, i), OpenPiece(m, bank, i),
        preserve)
    {
      StreamsAre(c, template, m, data, bank, preserve, i);
    }
    forall i | 0 <= i < |m.raws|
      ensures RawData(p, n)[i] == RawPiece(m, bank, i)
    {
      RawsAre(m, bank, i);
    }
  }

  lemma RawsAre(m: Map, bank: seq<byte>, i: nat)
    requires MapFits(m) && |bank| == BANK_BYTES && i < |m.raws|
    ensures RawStreams(bank, m)[i] == RawPiece(m, bank, i)
  {
  }

  lemma TargetsKept(a: seq<CompressedSpec>, b: seq<CompressedSpec>)
    requires SameTargets(a, b)
    ensures |a| == |b|
    ensures forall i :: 0 <= i < |a| ==> a[i].destination == b[i].destination && a[i].outputSize == b[i].outputSize
  {
  }

  /** The printed content cuts back into its pieces. */
  lemma NewPieces(c: Codec, template: seq<byte>, m: Map, data: seq<byte>, bank: seq<byte>, preserve: bool,
    p: seq<byte>, n: Map)
    requires Applicable(template, m) && |data| == |bank| == BANK_BYTES && n.raws == m.raws
    requires INNER_HEADER_BYTES + |NewContent(c, template, m, data, bank, preserve)| + TableSize(m) < TWO32
    requires n == NewMap(c, template, m, data, bank, preserve) && n.tableOffset <= |p|
    requires p[HEADERS..n.tableOffset] == NewContent(c, template, m, data, bank, preserve)
    requires StoredSized(n.compressed, NewStreams(c, template, data, bank, m, preserve))
    ensures n.SourceEnd() <= n.tableOffset && Gap(p, n) == Gap(template, m)
    ensures RawData(p, n) == RawStreams(bank, m)
    ensures Stored(p, n) == NewStreams(c, template, data, bank, m, preserve)
  {
    hide RawData, Stored, NewStreams, Content, RawStreams, MapFits, Resized;
    SizesMatch(m, n, bank, NewStreams(c, template, data, bank, m, preserve));
    PrintedStreams(p, n, RawStreams(bank, m), NewStreams(c, template, data, bank, m, preserve), Gap(template, m));
  }

  lemma SizesMatch(m: Map, n: Map, bank: seq<byte>, stored: seq<seq<byte>>)
    requires MapFits(m) && |bank| == BANK_BYTES && n.raws == m.raws && StoredSized(n.compressed, stored)
    ensures forall i :: 0 <= i < |n.raws| ==> |RawStreams(bank, m)[i]| == n.raws[i].size
    ensures forall i :: 0 <= i < |n.compressed| ==> |stored[i]| == n.compressed[i].storedSize
  {
  }

  lemma OuterKept(c: Codec, template: seq<byte>, m: Map, data: seq<byte>, bank: seq<byte>, preserve: bool)
    requires Applicable(template, m) && |data| == |bank| == BANK_BYTES
    requires INNER_HEADER_BYTES + |NewContent(c, template, m, data, bank, preserve)| + TableSize(m) < TWO32
    ensures var p := NewPackage(c, template, m, data, bank, preserve);
      |p| >= OUTER_BYTES && p[..OUTER_BYTES] == template[..OUTER_BYTES]
  {
    hide NewStreams, Table, NewContent, RawStreams, Inner;
  }

  /**
   What every successful rebuild returns: a package with the template's outer header, map and gap, the
   bank's bytes in the raw regions, the template's own stream for each compressed region that is to be
   preserved and has not changed, and a new stream with the checksum and size of the bank's bytes for
   each other; and counters that count the changed raw regions, the new streams and the kept ones.
   */
  lemma RebuildReturns(c: Codec, template: seq<byte>, bank: seq<byte>, preserve: bool)
    requires Rebuild(c, template, bank, preserve).Ok?
    ensures |bank| == BANK_BYTES && Reconstruction(c, template).Ok? && ReadMap(template).Ok?
    ensures var r, m := Rebuild(c, template, bank, preserve).value, ReadMap(template).value;
      var data := Reconstruction(c, template).value.data;
      && |data| == BANK_BYTES && Applicable(template, m)
      && Holds(c, template, m, data, bank, preserve, r.data)
      && var kept := if preserve then SameRegions(m, data, bank) else {};
        && r.changedRawRegions == |ChangedRaws(m, data, bank)|
        && r.preservedCompressedRegions == |kept|
        && r.recompressedRegions == |(set i: nat | i < |m.compressed| && i !in kept)|
  {
    hide Reconstruction, ReadMap, Applicable, NewPackage, NewContent, TableSize, Holds, ChangedRaw, Preserved,
      ChangedRaws, SameRegions, OuterNameValid, MapFits;
    AcceptedApplicable(c, template);
    var m, data := ReadMap(template).value, Reconstruction(c, template).value.data;
    ApplicableFits(template, m);
    BankSized(c, template);
    NewPackageSize(c, template, m, data, bank, preserve);
    TemplateStart(template);
    NewHolds(c, template, m, data, bank, preserve);
    ChangedRawCounts(m, data, bank);
    PreservedCounts(m, data, bank, preserve);
    RestCounts(|m.compressed|, if preserve then SameRegions(m, data, bank) else {});
  }

  lemma ApplicableFits(template: seq<byte>, m: Map)
    requires Applicable(template, m)
    ensures MapFits(m) && m.SourceEnd() <= m.tableOffset <= |template|
  {
  }

  lemma BankSized(c: Codec, template: seq<byte>)
    requires Reconstruction(c, template).Ok?
    ensures |Reconstruction(c, template).value.data| == BANK_BYTES
  {
  }

  lemma TemplateStart(template: seq<byte>)
    requires ReadMap(template).Ok?
    ensures |template| >= 4 && template[..4] == KUP1
  {
  }

  lemma RestCounts(n: nat, kept: set<nat>)
    requires forall i :: i in kept ==> i < n
    ensures |(set i: nat | i < n && i !in kept)| == n - |kept|
  {
    var rest := set i: nat | i < n && i !in kept;
    assert Below(n) == kept + rest && kept !! rest;
  }

  ghost function Below(n: nat): (s: set<nat>)
    ensures |s| == n && forall i: nat :: i in s <==> i < n
  {
    if n == 0 then {} else Below(n - 1) + {n - 1}
  }
}
