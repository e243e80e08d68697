/**
 When firmware/zup_extract.py's composition of an edited manifest succeeds, and with which bank: said of
 the manifest, the source's bank and the packed replacements alone.
 */
module ZupOutcome {
  import opened Bytes
  import opened Wrappers
  import opened Codec
  import opened ZupBank
  import opened ZupSection
  import opened ZupLaunch
  import opened ZupPayloads
  import opened ZupCompose
  import opened ZupComposed
  import Sorting

  // ----- What may be replaced -----

  /** The packed replacement of a payload: a nested one whole, a type-8 one behind its old eight bytes. */
  function Packed(c: Codec, bank: seq<byte>, entry: Payload, data: seq<byte>): (p: seq<byte>)
    requires |data| <= MAX_OUTPUT && entry.offset + TYPE8_HEADER_BYTES <= |bank|
    requires entry.Nested? ==> |NestedStored(c, data)| < TWO32
    ensures |p| == PackedSize(c, entry, data)
  {
    if entry.Nested? then RepackNested(c, data)
    else bank[entry.offset..entry.offset + TYPE8_HEADER_BYTES] + RepackType8(c, data)
  }

  /** The packed replacement fits the payload's span and its size field, and the span is clear of protected ones. */
  ghost predicate Fitting(c: Codec, entry: Payload, data: seq<byte>, spans: seq<Interval>) {
    && |data| <= MAX_OUTPUT
    && PackedSize(c, entry, data) <= entry.Span() && (entry.Nested? ==> |NestedStored(c, data)| < TWO32)
    && forall g :: 0 <= g < |spans| ==> entry.End() <= spans[g].start || spans[g].end <= entry.offset
  }

  /** A replacement is of legal size and, if it differs from the payload's data, fits. */
  ghost predicate Replaceable(c: Codec, entry: Payload, data: seq<byte>, spans: seq<Interval>) {
    1 <= |data| <= MAX_OUTPUT && (data != entry.data ==> Fitting(c, entry, data, spans))
  }

  /** What replacing an entry writes. */
  ghost function Replacement(c: Codec, bank: seq<byte>, entry: Payload, data: seq<byte>): Write {
    if |data| <= MAX_OUTPUT && entry.offset + TYPE8_HEADER_BYTES <= |bank| && data != entry.data
      && PackedSize(c, entry, data) <= entry.Span() && (entry.Nested? ==> |NestedStored(c, data)| < TWO32)
    then Write(entry.offset, Packed(c, bank, entry, data) + Pad(entry.Span() - PackedSize(c, entry, data)))
    else Write(0, [])
  }

  ghost function Replacements(c: Codec, bank: seq<byte>, entries: seq<Payload>, data: seq<seq<byte>>): (w: seq<Write>)
    requires |data| == |entries|
    ensures |w| == |entries|
  {
    seq(|entries|, i requires 0 <= i < |entries| => Replacement(c, bank, entries[i], data[i]))
  }

  // ----- The payload loop -----

  /** Nonempty spans that do not overlap are apart. */
  lemma ClearSpan(entry: Payload, spans: seq<Interval>)
    requires forall g :: 0 <= g < |spans| ==> spans[g].start < spans[g].end
    ensures !OverlapsAny(Interval(entry.offset, entry.End()), spans) <==>
      forall g :: 0 <= g < |spans| ==> entry.End() <= spans[g].start || spans[g].end <= entry.offset
  {
    if !OverlapsAny(Interval(entry.offset, entry.End()), spans) {
      forall g | 0 <= g < |spans|
        ensures entry.End() <= spans[g].start || spans[g].end <= entry.offset
      {
        assert !Overlap(Interval(entry.offset, entry.End()), spans[g]);
      }
    }
  }

  /** The patch of a payload is its packed replacement with padding. */
  lemma PatchIs(c: Codec, bank: seq<byte>, entry: Payload, data: seq<byte>)
    requires Found(c, bank, entry) && |bank| == BANK_BYTES && |data| <= MAX_OUTPUT
    requires Patch(c, bank, entry, data).Ok?
    ensures entry.offset + TYPE8_HEADER_BYTES <= |bank|
    ensures PackedSize(c, entry, data) <= entry.Span() && (entry.Nested? ==> |NestedStored(c, data)| < TWO32)
    ensures Patch(c, bank, entry, data).value
      == Packed(c, bank, entry, data) + Pad(entry.Span() - PackedSize(c, entry, data))
  {
    hide ParseType8, ParseNested, RepackType8, NestedStored, RepackNested;
    PatchIff(c, bank, entry, data);
    FoundFits(c, bank, entry);
    if entry.Nested? {
      RepackedSize(c, data);
    }
  }

  lemma WriteIs(c: Codec, bank: seq<byte>, entry: Payload, data: seq<byte>, spans: seq<Interval>)
    requires Found(c, bank, entry) && |bank| == BANK_BYTES && Patched(c, bank, entry, data, spans)
    ensures WriteOf(c, bank, entry, data) == Replacement(c, bank, entry, data)
  {
    hide Patch, Found, OverlapsAny, Packed, NestedStored, PackedSize;
    if Edited(entry, data) {
      PatchIs(c, bank, entry, data);
    }
  }

  /** An accepted edit was replaceable. */
  lemma PatchedReplaceable(c: Codec, bank: seq<byte>, entry: Payload, data: seq<byte>, spans: seq<Interval>)
    requires Found(c, bank, entry) && |bank| == BANK_BYTES && Patched(c, bank, entry, data, spans)
    requires forall g :: 0 <= g < |spans| ==> spans[g].start < spans[g].end
    requires 1 <= |data| <= MAX_OUTPUT
    ensures Replaceable(c, entry, data, spans)
  {
    hide Patch, Found, OverlapsAny, NestedStored, PackedSize;
    if Edited(entry, data) {
      PatchIff(c, bank, entry, data);
      ClearSpan(entry, spans);
    }
  }

  /** The loop accepts a replaceable entry after any accepted ones. */
  lemma OneAccepted(c: Codec, bank: seq<byte>, out: seq<byte>, entries: seq<Payload>, data: seq<seq<byte>>,
    spans: seq<Interval>, n: nat)
    requires Lawful(c) && |bank| == |out| == BANK_BYTES && |data| == |entries| && n < |entries|
    requires Found(c, bank, entries[n]) && PayloadsApart(entries, data) && Replaceable(c, entries[n], data[n], spans)
    requires forall i :: 0 <= i < BANK_BYTES && !InSpans(spans, i) ==> out[i] == bank[i]
    requires forall g :: 0 <= g < |spans| ==> spans[g].start < spans[g].end
    requires forall i :: 0 <= i < n ==> Patched(c, bank, entries[i], data[i], spans)
    requires Fits(PayloadWrites(c, bank, entries, data)[..n], BANK_BYTES)
    ensures ApplyOne(c, Paint(out, PayloadWrites(c, bank, entries, data)[..n]), entries[n], data[n], spans).Ok?
  {
    hide Found, Patch, Lawful, Splice, OverlapsAny, Paint, InSpans, PayloadsApart, Patched, PayloadWrites, PackedSize,
      NestedStored, Agree, ApplyOne;
    var now := Paint(out, PayloadWrites(c, bank, entries, data)[..n]);
    if Edited(entries[n], data[n]) {
      ClearSpan(entries[n], spans);
      StillThere(c, bank, out, entries, data, spans, n);
      AcceptedThere(c, bank, now, entries[n], data[n], spans);
    } else {
      KeptAsIs(c, now, entries[n], data[n], spans);
    }
  }

  lemma AcceptedThere(c: Codec, bank: seq<byte>, now: seq<byte>, entry: Payload, data: seq<byte>, spans: seq<Interval>)
    requires Lawful(c) && |bank| == |now| == BANK_BYTES && Found(c, bank, entry)
    requires Agree(bank, now, entry.offset, entry.End())
    requires 1 <= |data| <= MAX_OUTPUT && Fitting(c, entry, data, spans)
    requires !OverlapsAny(Interval(entry.offset, entry.End()), spans)
    ensures ApplyOne(c, now, entry, data, spans).Ok?
  {
    hide Found, Patch, Lawful, Splice, OverlapsAny, PackedSize, NestedStored, Agree;
    PatchIff(c, bank, entry, data);
    PatchLocal(c, bank, now, entry, data);
  }

  lemma KeptAsIs(c: Codec, now: seq<byte>, entry: Payload, data: seq<byte>, spans: seq<Interval>)
    requires |now| == BANK_BYTES && 1 <= |data| <= MAX_OUTPUT && data == entry.data
    ensures ApplyOne(c, now, entry, data, spans) == Ok(now)
  {
  }

  /** A payload clear of the protected spans is there as in the source when its turn comes. */
  lemma StillThere(c: Codec, bank: seq<byte>, out: seq<byte>, entries: seq<Payload>, data: seq<seq<byte>>,
    spans: seq<Interval>, n: nat)
    requires |bank| == |out| == BANK_BYTES && |data| == |entries| && n < |entries|
    requires Edited(entries[n], data[n]) && PayloadsApart(entries, data)
    requires !OverlapsAny(Interval(entries[n].offset, entries[n].End()), spans)
    requires forall i :: 0 <= i < BANK_BYTES && !InSpans(spans, i) ==> out[i] == bank[i]
    requires forall i :: 0 <= i < n ==> Patched(c, bank, entries[i], data[i], spans)
    requires Fits(PayloadWrites(c, bank, entries, data)[..n], BANK_BYTES)
    ensures Agree(bank, Paint(out, PayloadWrites(c, bank, entries, data)[..n]), entries[n].offset, entries[n].End())
  {
    hide OverlapsAny, Paint, InSpans, PayloadsApart, Patched, PayloadWrites, Edited;
    var entry, now := entries[n], Paint(out, PayloadWrites(c, bank, entries, data)[..n]);
    forall i | entry.offset <= i < entry.End() && 0 <= i < |bank|
      ensures bank[i] == now[i]
    {
      UntouchedSoFar(c, bank, out, entries, data, spans, n, i);
      NotInSpans(entry.offset, entry.End(), spans, i);
    }
  }

  /** The loop accepts the first `k` entries exactly when each is replaceable. */
  lemma {:induction false} LoopIff(c: Codec, bank: seq<byte>, out: seq<byte>, entries: seq<Payload>,
    data: seq<seq<byte>>, spans: seq<Interval>, k: nat)
    requires Lawful(c) && |bank| == |out| == BANK_BYTES && |data| == |entries| && k <= |entries|
    requires forall i :: 0 <= i < |entries| ==> Found(c, bank, entries[i])
    requires forall i :: 0 <= i < BANK_BYTES && !InSpans(spans, i) ==> out[i] == bank[i]
    requires forall g :: 0 <= g < |spans| ==> spans[g].start < spans[g].end
    requires PayloadsApart(entries, data)
    ensures ApplyPayloads(c, out, entries, data, spans, k).Ok?
      <==> forall i :: 0 <= i < k ==> Replaceable(c, entries[i], data[i], spans)
  {
    hide Found, Patch, Lawful, OverlapsAny, Paint, InSpans, PayloadsApart, Patched, PayloadWrites, Replaceable,
      ApplyOne;
    if k > 0 {
      var n := k - 1;
      LoopIff(c, bank, out, entries, data, spans, n);
      if ApplyPayloads(c, out, entries, data, spans, n).Ok? {
        PayloadStage(c, bank, out, entries, data, spans, n);
        if Replaceable(c, entries[n], data[n], spans) {
          OneAccepted(c, bank, out, entries, data, spans, n);
        }
      }
      if ApplyPayloads(c, out, entries, data, spans, k).Ok? {
        PayloadStage(c, bank, out, entries, data, spans, k);
        LegalSize(c, ApplyPayloads(c, out, entries, data, spans, n).value, entries[n], data[n], spans);
        PatchedReplaceable(c, bank, entries[n], data[n], spans);
      }
    }
  }

  lemma LegalSize(c: Codec, out: seq<byte>, entry: Payload, data: seq<byte>, spans: seq<Interval>)
    requires |out| == BANK_BYTES && ApplyOne(c, out, entry, data, spans).Ok?
    ensures 1 <= |data| <= MAX_OUTPUT
  {
    hide Patch, OverlapsAny;
  }

  // ----- The composition -----

  /** No proposal meets a launch header or the section's header, and every replacement is legal and fits. */
  ghost predicate Editable(c: Codec, bank: seq<byte>, proposals: seq<Proposal>, entries: seq<Payload>,
    data: seq<seq<byte>>)
    requires |data| == |entries|
  {
    && (forall p, g :: p in proposals && 0 <= g < |ProtectedSpans(HeadersOf(bank))| ==>
      var span := ProtectedSpans(HeadersOf(bank))[g]; p.End() <= span.start || span.end <= p.at)
    && forall i :: 0 <= i < |entries| ==> Replaceable(c, entries[i], data[i], Spans(bank, proposals))
  }

  /** The source's bank with every proposal and then every replacement written over it. */
  ghost function EditedBank(c: Codec, bank: seq<byte>, proposals: seq<Proposal>, entries: seq<Payload>,
    data: seq<seq<byte>>): (r: seq<byte>)
    requires |bank| == BANK_BYTES && |data| == |entries|
    ensures |r| == BANK_BYTES
  {
    var all := TableWrites(proposals) + Replacements(c, bank, entries, data);
    if Fits(all, BANK_BYTES) then Paint(bank, all) else bank
  }

  lemma TablesClear(bank: seq<byte>, proposals: seq<Proposal>)
    requires forall p :: p in proposals ==> p.records != []
    ensures (exists i :: 0 <= i < |proposals| && OverlapsAny(TableSpans(proposals)[i], ProtectedSpans(HeadersOf(bank))))
      <==> !forall p, g :: p in proposals && 0 <= g < |ProtectedSpans(HeadersOf(bank))| ==>
        var span := ProtectedSpans(HeadersOf(bank))[g]; p.End() <= span.start || span.end <= p.at
  {
    hide HeadersOf, ProtectedSpans;
    var spans := ProtectedSpans(HeadersOf(bank));
    forall i | 0 <= i < |proposals| && OverlapsAny(TableSpans(proposals)[i], spans)
      ensures exists p, g :: p in proposals && 0 <= g < |spans| && p.at < spans[g].end && spans[g].start < p.End()
    {
      var g :| 0 <= g < |spans| && Overlap(TableSpans(proposals)[i], spans[g]);
      assert proposals[i] in proposals;
    }
    forall p, g | p in proposals && 0 <= g < |spans| && p.at < spans[g].end && spans[g].start < p.End()
      ensures exists i :: 0 <= i < |proposals| && OverlapsAny(TableSpans(proposals)[i], spans)
    {
      var i :| 0 <= i < |proposals| && proposals[i] == p;
      assert Overlap(TableSpans(proposals)[i], spans[g]);
    }
  }

  lemma SpansNonempty(bank: seq<byte>, proposals: seq<Proposal>)
    requires forall p :: p in proposals ==> p.records != []
    ensures forall g :: 0 <= g < |Spans(bank, proposals)| ==>
      Spans(bank, proposals)[g].start < Spans(bank, proposals)[g].end
  {
    hide HeadersOf;
    var first, tables := ProtectedSpans(HeadersOf(bank)), TableSpans(proposals);
    forall k | 0 <= k < |tables|
      ensures tables[k].start < tables[k].end
    {
      assert proposals[k] in proposals;
    }
    assert forall g :: 0 <= g < |first| ==> first[g].start < first[g].end;
  }

  /** Both stages together succeed exactly on editable input, with the edited bank. */
  lemma StageIs(c: Codec, bank: seq<byte>, proposals: seq<Proposal>, entries: seq<Payload>, data: seq<seq<byte>>)
    requires Lawful(c) && Validated(c, bank, proposals, entries) && |data| == |entries| && PayloadsApart(entries, data)
    requires forall p :: p in proposals ==> p.records != []
    ensures Stage(c, bank, proposals, entries, data).Ok? <==> Editable(c, bank, proposals, entries, data)
    ensures Stage(c, bank, proposals, entries, data).Ok? ==>
      Stage(c, bank, proposals, entries, data).value == EditedBank(c, bank, proposals, entries, data)
  {
    hide Found, Lawful, OverlapsAny, Paint, HeadersOf, ApplyPayloads, ProtectedSpans, InSpans, PayloadsApart, Tabled,
      Replaceable, EditedBank, TableSpans, Patched;
    TablesClear(bank, proposals);
    SpansNonempty(bank, proposals);
    forall i | 0 <= i < BANK_BYTES && !InSpans(Spans(bank, proposals), i)
      ensures Tabled(bank, proposals)[i] == bank[i]
    {
      TabledInside(bank, proposals, i);
    }
    LoopIff(c, bank, Tabled(bank, proposals), entries, data, Spans(bank, proposals), |entries|);
    if Stage(c, bank, proposals, entries, data).Ok? {
      StagePaints(c, bank, proposals, entries, data);
      SameWrites(c, bank, proposals, entries, data);
    }
  }

  lemma SameWrites(c: Codec, bank: seq<byte>, proposals: seq<Proposal>, entries: seq<Payload>, data: seq<seq<byte>>)
    requires Validated(c, bank, proposals, entries) && |data| == |entries|
    requires Fits(AllWrites(c, bank, proposals, entries, data), BANK_BYTES)
    requires forall i :: 0 <= i < |entries| ==> Patched(c, bank, entries[i], data[i], Spans(bank, proposals))
    ensures EditedBank(c, bank, proposals, entries, data) == Paint(bank, AllWrites(c, bank, proposals, entries, data))
  {
    hide Found, Patched, WriteOf, Replacement, Paint, Spans, TableWrites;
    forall i | 0 <= i < |entries|
      ensures PayloadWrites(c, bank, entries, data)[i] == Replacements(c, bank, entries, data)[i]
    {
      WriteIs(c, bank, entries[i], data[i], Spans(bank, proposals));
    }
    assert PayloadWrites(c, bank, entries, data) == Replacements(c, bank, entries, data);
  }

  /**
   What a validated manifest composes to, whatever it edits, if the payloads that it edits are apart:
   it is refused for a bad section, for an edit that is not allowed, or for a sum that cannot be
   repaired; otherwise the result is the edited bank with, if there is a section, its own sum stored.
   */
  lemma ComposeIs(c: Codec, m: Manifest, bank: seq<byte>, data: seq<seq<byte>>)
    requires Lawful(c) && |bank| == BANK_BYTES && |data| == |m.payloads| && PayloadsApart(m.payloads, data)
    requires Validate(c, m, bank).Ok?
    ensures var proposals := Validate(c, m, bank).value;
      var edited := EditedBank(c, bank, proposals, m.payloads, data);
      match Section(bank)
      case Err(_) => Compose(c, m, bank, data) == Err(BadSection)
      case Ok(section) =>
        if !Editable(c, bank, proposals, m.payloads, data) then Compose(c, m, bank, data).Err?
        else match section
          case None => Compose(c, m, bank, data) == Ok(edited)
          case Some(info) =>
            && |info.descriptors| == 4 && (forall i :: 0 <= i < 4 ==> ValidDescriptor(info.descriptors[i]))
            && var sum := Calculated(edited, info.descriptors, 4);
              Compose(c, m, bank, data) ==
                if Coverage(info.descriptors, 4) % 2 == 0 || info.stored == sum then Ok(Repaired(edited, sum))
                else Err(RepairFailed)
  {
    hide Validate, Stage, Section, Repaired, Coverage, Compose, Editable, EditedBank, Found, PayloadsApart, Lawful,
      Calculated, ValidDescriptor;
    ComposeEnds(c, m, bank, data);
    ProposalsFit(c, m, bank);
    ProposalsAligned(c, m, bank);
    EntriesFound(c, m, bank);
    StageIs(c, bank, Validate(c, m, bank).value, m.payloads, data);
    if Edits(c, m, bank, data).Ok? {
      EditsKeepSection(c, m, bank, data);
      SectionStays(bank, Edits(c, m, bank, data).value);
    }
    SectionStays(bank, bank);
  }

  // ----- Which manifests validate -----

  /** The header describes a source table and proposes as many valid records, at their offsets. */
  ghost predicate GoodHeader(h: HeaderEntry, tables: seq<LaunchTable>) {
    && (exists t :: t in tables && Describes(h, t))
    && |h.records| == h.recordCount && RecordsValid(Records(h))
    && forall i :: 0 <= i < |h.records| ==> h.records[i].offset == h.tableOffset + RECORD_BYTES * i
  }

  /** Good headers at different offsets; two that share a table propose the same records. */
  ghost predicate GoodHeaders(headers: seq<HeaderEntry>, tables: seq<LaunchTable>) {
    && (forall k :: 0 <= k < |headers| ==> GoodHeader(headers[k], tables))
    && (forall j, k :: 0 <= j < k < |headers| ==> headers[j].headerOffset != headers[k].headerOffset)
    && forall j, k :: 0 <= j < k < |headers| && headers[j].tableOffset == headers[k].tableOffset ==>
      Records(headers[j]) == Records(headers[k])
  }

  lemma FaultIff(h: HeaderEntry, before: seq<HeaderEntry>, tables: seq<LaunchTable>)
    ensures HeaderFault(h, before, tables) == None && h.tableOffset >= 0 <==>
      GoodHeader(h, tables) && forall j :: 0 <= j < |before| ==> before[j].headerOffset != h.headerOffset
  {
    hide RecordsValid;
    assert (exists b :: b in before && b.headerOffset == h.headerOffset)
      <==> exists j :: 0 <= j < |before| && before[j].headerOffset == h.headerOffset;
  }

  /** The header loop accepts exactly good headers, and proposes for exactly their tables, once each. */
  lemma {:induction false} ProposalsIff(headers: seq<HeaderEntry>, tables: seq<LaunchTable>)
    ensures Proposals(headers, tables).Ok? <==> GoodHeaders(headers, tables)
    ensures Proposals(headers, tables).Ok? ==>
      forall p :: p in Proposals(headers, tables).value <==>
        exists k :: 0 <= k < |headers| && p.at == headers[k].tableOffset && p.records == Records(headers[k])
    ensures Proposals(headers, tables).Ok? ==>
      forall i, j :: 0 <= i < j < |Proposals(headers, tables).value| ==>
        Proposals(headers, tables).value[i].at != Proposals(headers, tables).value[j].at
  {
    hide HeaderFault, GoodHeader, GoodHeaders, Records, Proposals;
    if headers == [] {
      NoProposals(headers, tables);
    } else {
      var n := |headers| - 1;
      ProposalsIff(headers[..n], tables);
      GoodSnoc(headers, tables);
      ProposalsStep(headers, tables);
      if Proposals(headers[..n], tables).Ok? {
        var before := Proposals(headers[..n], tables).value;
        GoodOffsets(headers[..n], tables);
        assert forall k :: 0 <= k < n ==> headers[..n][k] == headers[k];
        SharedTables(headers, before, n);
        if Proposals(headers, tables).Ok? {
          GrownProposals(headers, before, Proposals(headers, tables).value, n);
        }
      }
    }
  }

  lemma NoProposals(headers: seq<HeaderEntry>, tables: seq<LaunchTable>)
    requires headers == []
    ensures Proposals(headers, tables) == Ok([]) && GoodHeaders(headers, tables)
  {
  }

  lemma GoodOffsets(headers: seq<HeaderEntry>, tables: seq<LaunchTable>)
    requires GoodHeaders(headers, tables)
    ensures forall k :: 0 <= k < |headers| ==> headers[k].tableOffset >= 0
  {
    forall k | 0 <= k < |headers|
      ensures headers[k].tableOffset >= 0
    {
      assert GoodHeader(headers[k], tables);
    }
  }

  /** What the last header adds, if the ones before it are accepted. */
  lemma ProposalsStep(headers: seq<HeaderEntry>, tables: seq<LaunchTable>)
    requires headers != []
    ensures Proposals(headers[..|headers| - 1], tables).Err? ==> Proposals(headers, tables).Err?
    ensures Proposals(headers[..|headers| - 1], tables).Ok? ==>
      var n, before := |headers| - 1, Proposals(headers[..|headers| - 1], tables).value;
      var h := headers[n];
      && (Proposals(headers, tables).Ok? <==>
        && GoodHeader(h, tables) && (forall j :: 0 <= j < n ==> headers[..n][j].headerOffset != h.headerOffset)
        && !exists q :: q in before && q.at == h.tableOffset && q.records != Records(h))
      && (Proposals(headers, tables).Ok? ==>
        && h.tableOffset >= 0
        && var p := Proposal(h.tableOffset, Records(h));
          Proposals(headers, tables).value == if p in before then before else before + [p])
  {
    hide HeaderFault, GoodHeader, Records;
    FaultIff(headers[|headers| - 1], headers[..|headers| - 1], tables);
  }

  lemma GrownProposals(headers: seq<HeaderEntry>, before: seq<Proposal>, after: seq<Proposal>, n: nat)
    requires n == |headers| - 1 && headers[n].tableOffset >= 0
    requires var p := Proposal(headers[n].tableOffset, Records(headers[n]));
      after == if p in before then before else before + [p]
    requires forall p :: p in before <==>
      exists k ::
        0 <= k < |headers[..n]| && p.at == headers[..n][k].tableOffset && p.records == Records(headers[..n][k])
    requires !exists q :: q in before && q.at == headers[n].tableOffset && q.records != Records(headers[n])
    requires forall i, j :: 0 <= i < j < |before| ==> before[i].at != before[j].at
    ensures forall p :: p in after <==>
      exists k :: 0 <= k < |headers| && p.at == headers[k].tableOffset && p.records == Records(headers[k])
    ensures forall i, j :: 0 <= i < j < |after| ==> after[i].at != after[j].at
  {
    hide Records;
    forall p: Proposal
      ensures p in after <==>
        exists k :: 0 <= k < |headers| && p.at == headers[k].tableOffset && p.records == Records(headers[k])
    {
      if k :| 0 <= k < |headers| && p.at == headers[k].tableOffset && p.records == Records(headers[k]) {
        if k < n {
          assert headers[..n][k] == headers[k];
          assert p in before;
        } else {
          assert p == Proposal(headers[n].tableOffset, Records(headers[n]));
        }
      }
      if p in before {
        var k :| 0 <= k < |headers[..n]| && p.at == headers[..n][k].tableOffset
          && p.records == Records(headers[..n][k]);
        assert headers[..n][k] == headers[k];
      }
    }
    forall i, j | 0 <= i < j < |after|
      ensures after[i].at != after[j].at
    {
      assert i < |before| ==> before[i] in before;
    }
  }

  lemma GoodSnoc(headers: seq<HeaderEntry>, tables: seq<LaunchTable>)
    requires headers != []
    ensures var n := |headers| - 1;
      GoodHeaders(headers, tables) <==>
        && GoodHeaders(headers[..n], tables) && GoodHeader(headers[n], tables)
        && (forall j :: 0 <= j < n ==> headers[..n][j].headerOffset != headers[n].headerOffset)
        && forall j :: 0 <= j < n && headers[j].tableOffset == headers[n].tableOffset ==>
          Records(headers[j]) == Records(headers[n])
  {
    hide GoodHeader, Records;
    var n := |headers| - 1;
    assert forall j :: 0 <= j < n ==> headers[..n][j] == headers[j];
  }

  /** A disagreeing proposal comes from a disagreeing header. */
  lemma SharedTables(headers: seq<HeaderEntry>, before: seq<Proposal>, n: nat)
    requires n < |headers|
    requires forall p :: p in before <==>
      exists k ::
        0 <= k < |headers[..n]| && p.at == headers[..n][k].tableOffset && p.records == Records(headers[..n][k])
    requires forall k :: 0 <= k < n ==> headers[k].tableOffset >= 0
    ensures (exists q :: q in before && q.at == headers[n].tableOffset && q.records != Records(headers[n]))
      <==> exists j ::
        0 <= j < n && headers[j].tableOffset == headers[n].tableOffset && Records(headers[j]) != Records(headers[n])
  {
    hide Records;
    forall j
      | 0 <= j < n && headers[j].tableOffset == headers[n].tableOffset && Records(headers[j]) != Records(headers[n])
      ensures exists q :: q in before && q.at == headers[n].tableOffset && q.records != Records(headers[n])
    {
      assert headers[..n][j] == headers[j];
      assert Proposal(headers[j].tableOffset, Records(headers[j])) in before;
    }
    forall q | q in before && q.at == headers[n].tableOffset && q.records != Records(headers[n])
      ensures exists j ::
        0 <= j < n && headers[j].tableOffset == headers[n].tableOffset && Records(headers[j]) != Records(headers[n])
    {
      var k :| 0 <= k < |headers[..n]| && q.at == headers[..n][k].tableOffset && q.records == Records(headers[..n][k]);
      assert headers[..n][k] == headers[k];
    }
  }

  /** The proposals of a validated manifest are those of its headers, by strictly rising table offset. */
  ghost predicate ProposedBy(headers: seq<HeaderEntry>, proposals: seq<Proposal>) {
    && (forall p :: p in proposals <==>
      exists k :: 0 <= k < |headers| && p.at == headers[k].tableOffset && p.records == Records(headers[k]))
    && forall i, j :: 0 <= i < j < |proposals| ==> proposals[i].at < proposals[j].at
  }

  /**
   Exactly which manifests validate: those of this bank with one good header for each launch table it
   has, within the counts, whose payloads are the inventory in any order; and what they propose.
   */
  lemma ValidateIff(c: Codec, m: Manifest, bank: seq<byte>)
    ensures Validate(c, m, bank).Ok? <==>
      && m.bank == bank && |m.headers| <= MAX_LAUNCH_HEADERS && |m.payloads| <= MAX_PAYLOAD_FILES
      && |m.headers| == |HeadersOf(bank)| && GoodHeaders(m.headers, HeadersOf(bank))
      && Inventory(c, bank, HeadersOf(bank)).Ok?
      && multiset(m.payloads) == multiset(Inventory(c, bank, HeadersOf(bank)).value)
    ensures Validate(c, m, bank).Ok? ==> ProposedBy(m.headers, Validate(c, m, bank).value)
  {
    hide HeadersOf, Inventory, GoodHeaders, Proposals, PayloadsMatch, Records, ProposedBy;
    var tables := HeadersOf(bank);
    ProposalsIff(m.headers, tables);
    if Inventory(c, bank, tables).Ok? {
      InventoryMatches(c, bank, tables);
      MatchIff(m.payloads, Inventory(c, bank, tables).value);
    }
    if Validate(c, m, bank).Ok? {
      var proposals := Proposals(m.headers, tables).value;
      RisingProposals(proposals);
      SortedBy(m.headers, proposals, Validate(c, m, bank).value);
    }
  }

  lemma SortedBy(headers: seq<HeaderEntry>, proposals: seq<Proposal>, sorted: seq<Proposal>)
    requires forall p :: p in proposals <==>
      exists k :: 0 <= k < |headers| && p.at == headers[k].tableOffset && p.records == Records(headers[k])
    requires (forall p :: p in sorted <==> p in proposals)
    requires forall i, j :: 0 <= i < j < |sorted| ==> sorted[i].at < sorted[j].at
    ensures ProposedBy(headers, sorted)
  {
    hide Records;
    forall p: Proposal
      ensures p in sorted <==>
        exists k :: 0 <= k < |headers| && p.at == headers[k].tableOffset && p.records == Records(headers[k])
    {
      assert p in sorted <==> p in proposals;
    }
  }

  lemma RisingProposals(proposals: seq<Proposal>)
    requires forall i, j :: 0 <= i < j < |proposals| ==> proposals[i].at != proposals[j].at
    ensures var sorted := Sorting.Sort(proposals, ProposalBefore);
      && (forall p :: p in sorted <==> p in proposals)
      && forall i, j :: 0 <= i < j < |sorted| ==> sorted[i].at < sorted[j].at
  {
    hide Sorting.Sort;
    Sorting.SortOrdered(proposals, ProposalBefore);
    Sorting.SortKeeps(proposals, ProposalBefore);
    var sorted := Sorting.Sort(proposals, ProposalBefore);
    forall i, j | 0 <= i < j < |sorted|
      ensures sorted[i].at < sorted[j].at
    {
      assert sorted[i] in sorted && sorted[j] in sorted;
    }
  }

  /** Matching an inventory without repetition is having the same payloads, in some order. */
  lemma MatchIff(payloads: seq<Payload>, inventory: seq<Payload>)
    requires PayloadsMatch(inventory, inventory)
    ensures PayloadsMatch(payloads, inventory) <==> multiset(payloads) == multiset(inventory)
  {
    NoRepeats(payloads);
    NoRepeats(inventory);
    Sorting.DistinctCounts(payloads);
    Sorting.DistinctCounts(inventory);
    assert forall p :: p in payloads <==> p in multiset(payloads);
    assert forall p :: p in inventory <==> p in multiset(inventory);
    if PayloadsMatch(payloads, inventory) {
      forall p: Payload
        ensures multiset(payloads)[p] == multiset(inventory)[p]
      {
        assert p in payloads <==> p in inventory;
      }
    }
  }

  lemma NoRepeats(payloads: seq<Payload>)
    ensures Sorting.Distinct(payloads) <==> forall i :: 0 <= i < |payloads| ==> payloads[i] !in payloads[..i]
  {
    if forall i :: 0 <= i < |payloads| ==> payloads[i] !in payloads[..i] {
      forall i, j | 0 <= i < j < |payloads|
        ensures payloads[i] != payloads[j]
      {
        assert payloads[..j][i] == payloads[i];
      }
    }
  }
}
