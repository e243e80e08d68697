/**
 What firmware/zup_extract.py's composition guarantees: every edit is read back, nothing else
 changes, its section guards are dead, and an unedited manifest changes only the checksum word.
 */
module ZupComposed {
  import opened Bytes
  import opened Wrappers
  import opened Codec
  import opened ZupBank
  import opened ZupSection
  import opened ZupLaunch
  import opened ZupPayloads
  import opened ZupCompose
  import Pieces
  import Sorting

  // ----- What the edits write -----

  predicate Edited(entry: Payload, data: seq<byte>) {
    data != entry.data
  }

  /** A payload's patch is decided by its own bytes, and fills its span. */
  lemma PatchLocal(c: Codec, a: seq<byte>, b: seq<byte>, p: Payload, data: seq<byte>)
    requires Lawful(c) && Found(c, a, p) && Agree(a, b, p.offset, p.End()) && |data| <= MAX_OUTPUT
    ensures Patch(c, b, p, data) == Patch(c, a, p, data)
    ensures Patch(c, a, p, data).Ok? ==> |Patch(c, a, p, data).value| == p.Span()
  {
    hide ParseType8, ParseNested, RepackType8, RepackNested, NestedStored, Lawful;
    FoundFits(c, a, p);
    FoundLocal(c, a, b, p);
    if p.Type8? {
      SameWindow(a, b, p.offset, p.End(), p.offset, p.offset + 8);
    }
  }

  /** What the payload loop writes for one entry, computed on the source bank; nothing if it is not edited. */
  ghost function WriteOf(c: Codec, bank: seq<byte>, entry: Payload, data: seq<byte>): Write
    requires |bank| == BANK_BYTES
  {
    if Edited(entry, data) && |data| <= MAX_OUTPUT && Patch(c, bank, entry, data).Ok?
    then Write(entry.offset, Patch(c, bank, entry, data).value)
    else Write(0, [])
  }

  ghost function PayloadWrites(c: Codec, bank: seq<byte>, entries: seq<Payload>, data: seq<seq<byte>>): (w: seq<Write>)
    requires |bank| == BANK_BYTES && |data| == |entries|
    ensures |w| == |entries| && forall i :: 0 <= i < |entries| ==> w[i] == WriteOf(c, bank, entries[i], data[i])
  {
    seq(|entries|, i requires 0 <= i < |entries| => WriteOf(c, bank, entries[i], data[i]))
  }

  /** The spans of the edited payloads do not overlap each other. */
  ghost predicate PayloadsApart(entries: seq<Payload>, data: seq<seq<byte>>)
    requires |data| == |entries|
  {
    forall i, j :: 0 <= i < j < |entries| && Edited(entries[i], data[i]) && Edited(entries[j], data[j]) ==>
      entries[i].End() <= entries[j].offset || entries[j].End() <= entries[i].offset
  }

  ghost predicate InSpans(spans: seq<Interval>, i: int) {
    exists g :: 0 <= g < |spans| && spans[g].start <= i < spans[g].end
  }

  /** An edited entry's patch was accepted: it fills the entry's span, which overlaps no protected span. */
  ghost predicate Patched(c: Codec, bank: seq<byte>, entry: Payload, data: seq<byte>, spans: seq<Interval>)
    requires |bank| == BANK_BYTES
  {
    Edited(entry, data) ==>
      && 0 < |data| <= MAX_OUTPUT && Patch(c, bank, entry, data).Ok?
      && |Patch(c, bank, entry, data).value| == entry.Span() && entry.End() <= BANK_BYTES
      && !OverlapsAny(Interval(entry.offset, entry.End()), spans)
  }

  /**
   A patch accepted on a canvas that is the source's bank wherever both the payload and the patch
   reach is the source's own patch: the canvas holds the very payload that the source holds.
   */
  lemma PatchOnCanvas(c: Codec, bank: seq<byte>, canvas: seq<byte>, p: Payload, data: seq<byte>)
    requires Lawful(c) && Found(c, bank, p) && |canvas| == BANK_BYTES && |data| <= MAX_OUTPUT
    requires Patch(c, canvas, p, data).Ok?
    requires forall i :: p.offset <= i < p.End() && i < p.offset + |Patch(c, canvas, p, data).value| && i < |bank| ==>
      i < |canvas| && canvas[i] == bank[i]
    ensures |bank| == BANK_BYTES && Patch(c, bank, p, data) == Patch(c, canvas, p, data)
    ensures |Patch(c, canvas, p, data).value| == p.Span()
  {
    hide Patch, Lawful, ParseType8, ParseNested;
    FoundFits(c, bank, p);
    var now := PatchedPayload(c, canvas, p, data);
    if now.End() <= p.End() {
      FoundLocal(c, canvas, bank, now);
    } else {
      FoundLocal(c, bank, canvas, p);
    }
    assert now == p;
    PatchLocal(c, bank, canvas, p, data);
  }

  /** The payload that an accepted patch was cut for. */
  lemma PatchedPayload(c: Codec, canvas: seq<byte>, p: Payload, data: seq<byte>) returns (now: Payload)
    requires |canvas| == BANK_BYTES && |data| <= MAX_OUTPUT && Patch(c, canvas, p, data).Ok?
    ensures Found(c, canvas, now) && now.offset == p.offset && now.Type8? == p.Type8?
    ensures |Patch(c, canvas, p, data).value| == now.Span()
  {
    hide ParseType8, ParseNested, RepackType8, RepackNested, NestedStored;
    if p.Type8? {
      now := ParseType8(c, canvas, p.offset, MAX_OUTPUT).value;
      Type8Kind(c, canvas, p.offset);
    } else {
      now := ParseNested(c, canvas, p.offset, MAX_OUTPUT).value;
      NestedKind(c, canvas, p.offset);
    }
  }

  lemma Type8Kind(c: Codec, bank: seq<byte>, offset: int)
    requires ParseType8(c, bank, offset, MAX_OUTPUT).Ok?
    ensures var p := ParseType8(c, bank, offset, MAX_OUTPUT).value; p.Type8? && p.offset == offset
  {
    hide Expand;
  }

  lemma NestedKind(c: Codec, bank: seq<byte>, offset: int)
    requires ParseNested(c, bank, offset, MAX_OUTPUT).Ok?
    ensures var p := ParseNested(c, bank, offset, MAX_OUTPUT).value; p.Nested? && p.offset == offset
  {
    hide InflateRegion, Sum;
  }

  /** The payload loop paints its writes, each as if the source had not been touched. */
  lemma {:induction false} PayloadStage(c: Codec, bank: seq<byte>, out: seq<byte>, entries: seq<Payload>,
    data: seq<seq<byte>>, spans: seq<Interval>, k: nat)
    requires Lawful(c) && |bank| == |out| == BANK_BYTES && |data| == |entries| && k <= |entries|
    requires forall i :: 0 <= i < |entries| ==> Found(c, bank, entries[i])
    requires forall i :: 0 <= i < BANK_BYTES && !InSpans(spans, i) ==> out[i] == bank[i]
    requires PayloadsApart(entries, data) && ApplyPayloads(c, out, entries, data, spans, k).Ok?
    ensures var w := PayloadWrites(c, bank, entries, data)[..k];
      && (forall i :: 0 <= i < k ==> Patched(c, bank, entries[i], data[i], spans))
      && Fits(w, BANK_BYTES) && ApplyPayloads(c, out, entries, data, spans, k).value == Paint(out, w)
  {
    hide Found, Patch, Lawful, Splice, OverlapsAny, Paint, InSpans, PayloadsApart;
    var w := PayloadWrites(c, bank, entries, data);
    if k == 0 {
      PaintNone(out, w[..0]);
    } else {
      var n := k - 1;
      PayloadStage(c, bank, out, entries, data, spans, n);
      if Edited(entries[n], data[n]) {
        OneMorePatch(c, bank, out, entries, data, spans, n);
      }
      assert w[..k] == w[..n] + [w[n]];
      PaintOneMore(out, w[..n], w[n]);
    }
  }

  /** The patch that the loop accepts for entry `n` is the source's own. */
  lemma OneMorePatch(c: Codec, bank: seq<byte>, out: seq<byte>, entries: seq<Payload>, data: seq<seq<byte>>,
    spans: seq<Interval>, n: nat)
    requires Lawful(c) && |bank| == |out| == BANK_BYTES && |data| == |entries| && n < |entries|
    requires Found(c, bank, entries[n]) && Edited(entries[n], data[n]) && PayloadsApart(entries, data)
    requires forall i :: 0 <= i < BANK_BYTES && !InSpans(spans, i) ==> out[i] == bank[i]
    requires forall i :: 0 <= i < n ==> Patched(c, bank, entries[i], data[i], spans)
    requires Fits(PayloadWrites(c, bank, entries, data)[..n], BANK_BYTES)
    requires var now := Paint(out, PayloadWrites(c, bank, entries, data)[..n]);
      ApplyOne(c, now, entries[n], data[n], spans).Ok?
    ensures Patched(c, bank, entries[n], data[n], spans)
    ensures var now := Paint(out, PayloadWrites(c, bank, entries, data)[..n]);
      ApplyOne(c, now, entries[n], data[n], spans)
        == Ok(Splice(now, entries[n].offset, Patch(c, bank, entries[n], data[n]).value))
  {
    hide Found, Patch, Lawful, Splice, OverlapsAny, Paint, InSpans, PayloadsApart, Patched, PayloadWrites;
    var now := Paint(out, PayloadWrites(c, bank, entries, data)[..n]);
    var patch := Patch(c, now, entries[n], data[n]).value;
    var hi := entries[n].offset + |patch|;
    forall i | entries[n].offset <= i < entries[n].End() && i < hi && i < |bank|
      ensures now[i] == bank[i]
    {
      UntouchedSoFar(c, bank, out, entries, data, spans, n, i);
      NotInSpans(entries[n].offset, hi, spans, i);
    }
    PatchOnCanvas(c, bank, now, entries[n], data[n]);
    FoundFits(c, bank, entries[n]);
    assert Patched(c, bank, entries[n], data[n], spans) by {
      PatchedNow(c, bank, entries[n], data[n], spans);
    }
  }

  lemma PatchedNow(c: Codec, bank: seq<byte>, entry: Payload, data: seq<byte>, spans: seq<Interval>)
    requires |bank| == BANK_BYTES && 0 < |data| <= MAX_OUTPUT && Patch(c, bank, entry, data).Ok?
    requires |Patch(c, bank, entry, data).value| == entry.Span() && entry.End() <= BANK_BYTES
    requires !OverlapsAny(Interval(entry.offset, entry.offset + |Patch(c, bank, entry, data).value|), spans)
    ensures Patched(c, bank, entry, data, spans)
  {
    hide Patch, OverlapsAny;
  }

  lemma NotInSpans(lo: nat, hi: nat, spans: seq<Interval>, i: nat)
    requires lo <= i < hi && !OverlapsAny(Interval(lo, hi), spans)
    ensures !InSpans(spans, i)
  {
    if InSpans(spans, i) {
      var g :| 0 <= g < |spans| && spans[g].start <= i < spans[g].end;
      assert Overlap(Interval(lo, hi), spans[g]);
    }
  }

  lemma PaintNone(out: seq<byte>, w: seq<Write>)
    requires w == []
    ensures Fits(w, |out|) && Paint(out, w) == out
  {
  }

  lemma PaintOneMore(out: seq<byte>, w: seq<Write>, write: Write)
    requires Fits(w, |out|)
    ensures write.at + |write.data| <= |out| ==>
      Fits(w + [write], |out|) && Paint(out, w + [write]) == Splice(Paint(out, w), write.at, write.data)
    ensures write == Write(0, []) ==> Fits(w + [write], |out|) && Paint(out, w + [write]) == Paint(out, w)
  {
    hide Splice;
    if write.at + |write.data| <= |out| {
      assert (w + [write])[..|w|] == w;
      if write == Write(0, []) {
        SpliceNothing(Paint(out, w));
      }
    }
  }

  lemma SpliceNothing(s: seq<byte>)
    ensures Splice(s, 0, []) == s
  {
  }

  lemma UntouchedSoFar(c: Codec, bank: seq<byte>, out: seq<byte>, entries: seq<Payload>,
    data: seq<seq<byte>>, spans: seq<Interval>, n: nat, i: nat)
    requires |bank| == |out| == BANK_BYTES && |data| == |entries| && n < |entries|
    requires PayloadsApart(entries, data) && Edited(entries[n], data[n])
    requires entries[n].offset <= i < entries[n].End() && i < BANK_BYTES
    requires forall k :: 0 <= k < n ==> Patched(c, bank, entries[k], data[k], spans)
    requires Fits(PayloadWrites(c, bank, entries, data)[..n], BANK_BYTES)
    ensures Paint(out, PayloadWrites(c, bank, entries, data)[..n])[i] == out[i]
  {
    hide Patch, OverlapsAny, Paint;
    var w := PayloadWrites(c, bank, entries, data)[..n];
    forall k | 0 <= k < |w|
      ensures !(w[k].at <= i < w[k].at + |w[k].data|)
    {
      assert Patched(c, bank, entries[k], data[k], spans);
      assert w[k] == WriteOf(c, bank, entries[k], data[k]);
    }
    PaintOutside(out, w, i);
  }

  // ----- Records written and read -----

  lemma RecordReadBack(s: seq<byte>, at: nat, r: Record)
    requires at + RECORD_BYTES <= |s| && s[at..at + RECORD_BYTES] == RecordBytes(r)
    ensures RecordAt(s, at) == r
  {
    hide Value, Digits;
    var b := RecordBytes(r);
    forall i, j | 0 <= i <= j <= RECORD_BYTES
      ensures s[at + i..at + j] == b[i..j]
    {
      Pieces.SubSlice(s, at, b, i, j);
    }
    assert s[at..at + 4] == b[0..4] == Be32(r.kind) && s[at + 4..at + 8] == b[4..8] == Be32(r.field1);
    assert s[at + 8..at + 12] == b[8..12] == Be32(r.field2) && s[at + 12..at + 16] == b[12..16] == Be32(r.field3);
    WordRoundTrip(r.kind);
    WordRoundTrip(r.field1);
    WordRoundTrip(r.field2);
    WordRoundTrip(r.field3);
  }

  lemma {:induction false} RecordsReadBack(s: seq<byte>, at: nat, records: seq<Record>)
    requires at + RECORD_BYTES * |records| <= |s|
    requires s[at..at + RECORD_BYTES * |records|] == RecordsBytes(records)
    ensures RecordsAt(s, at, |records|) == records
  {
    hide RecordBytes, RecordAt;
    if records != [] {
      var n := |records| - 1;
      var all := RecordsBytes(records);
      Pieces.SubSlice(s, at, all, 0, RECORD_BYTES * n);
      Pieces.SubSlice(s, at, all, RECORD_BYTES * n, RECORD_BYTES * n + RECORD_BYTES);
      assert all[0..RECORD_BYTES * n] == RecordsBytes(records[..n]);
      RecordsReadBack(s, at, records[..n]);
      RecordReadBack(s, at + RECORD_BYTES * n, records[n]);
    }
  }

  // ----- What a staged bank holds -----

  /** Offset `i` is in a launch header or in the section's header. */
  ghost predicate Guarded(bank: seq<byte>, i: int) {
    InSpans(ProtectedSpans(HeadersOf(bank)), i)
  }

  ghost predicate InTable(proposals: seq<Proposal>, i: int) {
    exists p :: p in proposals && p.at <= i < p.End()
  }

  ghost predicate InEdited(entries: seq<Payload>, data: seq<seq<byte>>, i: int)
    requires |data| == |entries|
  {
    exists j :: 0 <= j < |entries| && Edited(entries[j], data[j]) && entries[j].offset <= i < entries[j].End()
  }

  ghost function AllWrites(c: Codec, bank: seq<byte>, proposals: seq<Proposal>, entries: seq<Payload>,
    data: seq<seq<byte>>):
    (w: seq<Write>)
    requires |bank| == BANK_BYTES && |data| == |entries|
    ensures |w| == |proposals| + |entries|
  {
    TableWrites(proposals) + PayloadWrites(c, bank, entries, data)
  }

  /** The spans that no payload patch may overlap. */
  function Spans(bank: seq<byte>, proposals: seq<Proposal>): seq<Interval> {
    ProtectedSpans(HeadersOf(bank)) + TableSpans(proposals)
  }

  /** The proposals and the entries of a validated manifest. */
  ghost predicate Validated(c: Codec, bank: seq<byte>, proposals: seq<Proposal>, entries: seq<Payload>) {
    && |bank| == BANK_BYTES
    && (forall i :: 0 <= i < |entries| ==> Found(c, bank, entries[i]))
    && (forall k :: 0 <= k < |proposals| ==> proposals[k].End() <= BANK_BYTES)
  }

  lemma TableStage(bank: seq<byte>, proposals: seq<Proposal>, i: nat)
    requires |bank| == BANK_BYTES && i < BANK_BYTES
    requires forall k :: 0 <= k < |proposals| ==> proposals[k].End() <= BANK_BYTES
    ensures Fits(TableWrites(proposals), BANK_BYTES)
    ensures !InTable(proposals, i) ==> Paint(bank, TableWrites(proposals))[i] == bank[i]
  {
    if !InTable(proposals, i) {
      forall k | 0 <= k < |proposals|
        ensures !(proposals[k].at <= i < proposals[k].End())
      {
        assert proposals[k] in proposals;
      }
      PaintOutside(bank, TableWrites(proposals), i);
    }
  }

  lemma TabledInside(bank: seq<byte>, proposals: seq<Proposal>, i: nat)
    requires |bank| == BANK_BYTES && i < BANK_BYTES && !InSpans(Spans(bank, proposals), i)
    requires forall k :: 0 <= k < |proposals| ==> proposals[k].End() <= BANK_BYTES
    ensures Tabled(bank, proposals)[i] == bank[i]
  {
    hide HeadersOf, ProtectedSpans;
    var n := |ProtectedSpans(HeadersOf(bank))|;
    forall k | 0 <= k < |proposals|
      ensures !(proposals[k].at <= i < proposals[k].End())
    {
      assert Spans(bank, proposals)[n + k] == TableSpans(proposals)[k];
    }
    TableStage(bank, proposals, i);
  }

  lemma AllFit(c: Codec, bank: seq<byte>, proposals: seq<Proposal>, entries: seq<Payload>, data: seq<seq<byte>>,
    spans: seq<Interval>)
    requires |bank| == BANK_BYTES && |data| == |entries|
    requires forall k :: 0 <= k < |proposals| ==> proposals[k].End() <= BANK_BYTES
    requires forall i :: 0 <= i < |entries| ==> Patched(c, bank, entries[i], data[i], spans)
    ensures Fits(AllWrites(c, bank, proposals, entries, data), BANK_BYTES)
  {
    hide Patched, WriteOf, PayloadWrites, RecordsBytes, FillsSpan;
    var n := |proposals|;
    var all := AllWrites(c, bank, proposals, entries, data);
    forall k | 0 <= k < |all|
      ensures all[k].at + |all[k].data| <= BANK_BYTES
    {
      if k >= n {
        WriteFills(c, bank, entries[k - n], data[k - n], spans);
      }
    }
  }

  function Reach(w: Write): nat {
    w.at + |w.data|
  }

  /** A payload write covers its entry's span, or there is nothing to write. */
  predicate FillsSpan(w: Write, entry: Payload, data: seq<byte>) {
    w == Write(0, []) || (Edited(entry, data) && w.at == entry.offset && Reach(w) == entry.End())
  }

  lemma WriteFills(c: Codec, bank: seq<byte>, entry: Payload, data: seq<byte>, spans: seq<Interval>)
    requires |bank| == BANK_BYTES && Patched(c, bank, entry, data, spans)
    ensures FillsSpan(WriteOf(c, bank, entry, data), entry, data) && Reach(WriteOf(c, bank, entry, data)) <= BANK_BYTES
  {
    hide Patch, OverlapsAny;
  }

  /** The stages paint the tables and then the payloads' own patches, which keep off every protected span. */
  lemma StagePaints(c: Codec, bank: seq<byte>, proposals: seq<Proposal>, entries: seq<Payload>, data: seq<seq<byte>>)
    requires Lawful(c) && Validated(c, bank, proposals, entries) && |data| == |entries|
    requires PayloadsApart(entries, data) && Stage(c, bank, proposals, entries, data).Ok?
    ensures var all := AllWrites(c, bank, proposals, entries, data);
      Fits(all, BANK_BYTES) && Stage(c, bank, proposals, entries, data).value == Paint(bank, all)
    ensures forall i :: 0 <= i < |entries| ==> Patched(c, bank, entries[i], data[i], Spans(bank, proposals))
  {
    hide Found, Patch, Lawful, OverlapsAny, Paint, RecordsBytes, HeadersOf, ApplyPayloads, ProtectedSpans, WriteOf,
      Patched, InSpans, PayloadsApart;
    var tabled := Tabled(bank, proposals);
    forall i | 0 <= i < BANK_BYTES && !InSpans(Spans(bank, proposals), i)
      ensures tabled[i] == bank[i]
    {
      TabledInside(bank, proposals, i);
    }
    PayloadStage(c, bank, tabled, entries, data, Spans(bank, proposals), |entries|);
    var payloads := PayloadWrites(c, bank, entries, data);
    assert payloads[..|entries|] == payloads;
    AllFit(c, bank, proposals, entries, data, Spans(bank, proposals));
    PaintAppend(bank, TableWrites(proposals), payloads);
  }

  lemma PatchedWrite(c: Codec, bank: seq<byte>, entry: Payload, data: seq<byte>, spans: seq<Interval>)
    requires |bank| == BANK_BYTES && Patched(c, bank, entry, data, spans) && Edited(entry, data)
    ensures 0 < |data| <= MAX_OUTPUT && entry.End() <= BANK_BYTES
    ensures WriteOf(c, bank, entry, data).at == entry.offset && |WriteOf(c, bank, entry, data).data| == entry.Span()
    ensures Patch(c, bank, entry, data) == Ok(WriteOf(c, bank, entry, data).data)
  {
    hide Patch, OverlapsAny;
  }

  /** Each edited payload's patch is written out whole, and is what the untouched source bank calls for. */
  lemma PatchHolds(c: Codec, bank: seq<byte>, proposals: seq<Proposal>, entries: seq<Payload>, data: seq<seq<byte>>,
    i: nat)
    requires Lawful(c) && Validated(c, bank, proposals, entries) && |data| == |entries|
    requires PayloadsApart(entries, data) && Stage(c, bank, proposals, entries, data).Ok?
    requires i < |entries| && Edited(entries[i], data[i])
    ensures 0 < |data[i]| <= MAX_OUTPUT && entries[i].End() <= BANK_BYTES
    ensures Patch(c, bank, entries[i], data[i]) ==
      Ok(Stage(c, bank, proposals, entries, data).value[entries[i].offset..entries[i].End()])
  {
    hide Validated, PayloadsApart, Stage, Paint, Patch, Fits, WriteOf, Patched, PayloadWrites, TableWrites,
      Spans, Lawful, Uppermost;
    StagePaints(c, bank, proposals, entries, data);
    PatchedWrite(c, bank, entries[i], data[i], Spans(bank, proposals));
    var all := AllWrites(c, bank, proposals, entries, data);
    assert all[|proposals| + i] == WriteOf(c, bank, entries[i], data[i]);
    PayloadUppermost(c, bank, proposals, entries, data, i);
    PaintKeeps(bank, all, |proposals| + i);
  }

  lemma PayloadUppermost(c: Codec, bank: seq<byte>, proposals: seq<Proposal>, entries: seq<Payload>,
    data: seq<seq<byte>>, i: nat)
    requires |bank| == BANK_BYTES && |data| == |entries| && PayloadsApart(entries, data)
    requires forall j :: 0 <= j < |entries| ==> Patched(c, bank, entries[j], data[j], Spans(bank, proposals))
    requires i < |entries| && Edited(entries[i], data[i])
    ensures Uppermost(AllWrites(c, bank, proposals, entries, data), |proposals| + i)
  {
    hide Patched, WriteOf, PayloadWrites, TableWrites, Spans;
    var n, all := |proposals|, AllWrites(c, bank, proposals, entries, data);
    forall j | n + i <= j < |all|
      ensures FillsSpan(all[j], entries[j - n], data[j - n])
    {
      WriteFills(c, bank, entries[j - n], data[j - n], Spans(bank, proposals));
      assert all[j] == WriteOf(c, bank, entries[j - n], data[j - n]);
    }
  }

  /** A byte of a record whose proposal differs from the source. */
  ghost predicate InEditedRecord(bank: seq<byte>, proposals: seq<Proposal>, i: int) {
    exists p, k :: p in proposals && 0 <= k < |p.records| && p.End() <= |bank|
      && p.at + RECORD_BYTES * k <= i < p.at + RECORD_BYTES * k + RECORD_BYTES
      && p.records[k] != RecordAt(bank, p.at + RECORD_BYTES * k)
  }

  /** A byte that no edited record and no edited payload contains is the source's. */
  lemma StageFrame(c: Codec, bank: seq<byte>, proposals: seq<Proposal>, entries: seq<Payload>, data: seq<seq<byte>>,
    i: nat)
    requires Lawful(c) && Validated(c, bank, proposals, entries) && |data| == |entries|
    requires PayloadsApart(entries, data) && Stage(c, bank, proposals, entries, data).Ok?
    requires i < BANK_BYTES && !InEditedRecord(bank, proposals, i) && !InEdited(entries, data, i)
    ensures Stage(c, bank, proposals, entries, data).value[i] == bank[i]
  {
    hide PayloadsApart, Stage, Paint, InEditedRecord, InEdited, Patched, Found, WriteOf, RecordsBytes, Spans, Lawful;
    StagePaints(c, bank, proposals, entries, data);
    var n, all := |proposals|, AllWrites(c, bank, proposals, entries, data);
    forall k | 0 <= k < |all| && all[k].at <= i < all[k].at + |all[k].data|
      ensures all[k].data[i - all[k].at] == bank[i]
    {
      if k < n {
        UneditedRecord(bank, proposals, proposals[k], i);
      } else {
        WriteFills(c, bank, entries[k - n], data[k - n], Spans(bank, proposals));
        SpanEdited(entries, data, k - n, all[k], i);
      }
    }
    PaintSame(bank, all, i);
  }

  lemma SpanEdited(entries: seq<Payload>, data: seq<seq<byte>>, j: nat, w: Write, i: int)
    requires |data| == |entries| && j < |entries| && FillsSpan(w, entries[j], data[j]) && w.at <= i < Reach(w)
    ensures InEdited(entries, data, i)
  {
  }

  /** A record that is written as it was keeps its bytes. */
  lemma UneditedRecord(bank: seq<byte>, proposals: seq<Proposal>, p: Proposal, i: nat)
    requires p in proposals && p.End() <= |bank| && p.at <= i < p.End() && !InEditedRecord(bank, proposals, i)
    ensures RecordsBytes(p.records)[i - p.at] == bank[i]
  {
    hide RecordAt, RecordsBytes, RecordBytes;
    var k := (i - p.at) / RECORD_BYTES;
    var at := p.at + RECORD_BYTES * k;
    RecordsBytesAt(p.records, k);
    assert p.records[k] == RecordAt(bank, at);
    RecordRewritten(bank, at);
    assert RecordsBytes(p.records)[i - p.at] == RecordBytes(p.records[k])[i - at];
    assert bank[i] == bank[at..at + RECORD_BYTES][i - at];
  }

  lemma {:induction false} RecordsBytesAt(records: seq<Record>, k: nat)
    requires k < |records|
    ensures RecordsBytes(records)[RECORD_BYTES * k..RECORD_BYTES * k + RECORD_BYTES] == RecordBytes(records[k])
  {
    hide RecordBytes;
    var n := |records| - 1;
    if k < n {
      RecordsBytesAt(records[..n], k);
      Pieces.SubSlice(RecordsBytes(records), 0, RecordsBytes(records[..n]), RECORD_BYTES * k,
        RECORD_BYTES * k + RECORD_BYTES);
    }
  }

  // ----- The protected spans, whatever else the source's spans do -----

  lemma OneKept(c: Codec, out: seq<byte>, entry: Payload, data: seq<byte>, spans: seq<Interval>, g: nat, i: nat)
    requires |out| == BANK_BYTES && ApplyOne(c, out, entry, data, spans).Ok?
    requires g < |spans| && spans[g].start <= i < spans[g].end && i < BANK_BYTES
    ensures ApplyOne(c, out, entry, data, spans).value[i] == out[i]
  {
    hide Patch, Splice;
    if Edited(entry, data) {
      var patch := Patch(c, out, entry, data).value;
      SpliceAt(out, entry.offset, patch);
      assert !Overlap(Interval(entry.offset, entry.offset + |patch|), spans[g]);
    }
  }

  /** No payload changes a byte of a protected span. */
  lemma {:induction false} SpansKept(c: Codec, out: seq<byte>, entries: seq<Payload>, data: seq<seq<byte>>,
    spans: seq<Interval>, k: nat, g: nat, i: nat)
    requires |out| == BANK_BYTES && |data| == |entries| && k <= |entries|
    requires ApplyPayloads(c, out, entries, data, spans, k).Ok?
    requires g < |spans| && spans[g].start <= i < spans[g].end && i < BANK_BYTES
    ensures ApplyPayloads(c, out, entries, data, spans, k).value[i] == out[i]
  {
    hide ApplyOne;
    if k > 0 {
      SpansKept(c, out, entries, data, spans, k - 1, g, i);
      OneKept(c, ApplyPayloads(c, out, entries, data, spans, k - 1).value, entries[k - 1], data[k - 1], spans, g, i);
    }
  }

  /** The launch headers and the section's header survive every stage. */
  lemma GuardedKept(c: Codec, bank: seq<byte>, proposals: seq<Proposal>, entries: seq<Payload>, data: seq<seq<byte>>,
    i: nat)
    requires |bank| == BANK_BYTES && |data| == |entries| && i < BANK_BYTES && Guarded(bank, i)
    requires forall k :: 0 <= k < |proposals| ==> proposals[k].End() <= BANK_BYTES
    requires Stage(c, bank, proposals, entries, data).Ok?
    ensures Stage(c, bank, proposals, entries, data).value[i] == bank[i]
  {
    hide ApplyPayloads, Tabled, HeadersOf, ProtectedSpans;
    var spans := ProtectedSpans(HeadersOf(bank));
    var g :| 0 <= g < |spans| && spans[g].start <= i < spans[g].end;
    forall p | p in proposals
      ensures !(p.at <= i < p.End())
    {
      var k :| 0 <= k < |proposals| && proposals[k] == p;
      assert !Overlap(TableSpans(proposals)[k], spans[g]);
    }
    TabledOutside(bank, proposals, i);
    SpansKept(c, Tabled(bank, proposals), entries, data, spans + TableSpans(proposals), |entries|, g, i);
  }

  lemma TabledOutside(bank: seq<byte>, proposals: seq<Proposal>, i: nat)
    requires |bank| == BANK_BYTES && i < BANK_BYTES && !InTable(proposals, i)
    requires forall k :: 0 <= k < |proposals| ==> proposals[k].End() <= BANK_BYTES
    ensures Tabled(bank, proposals)[i] == bank[i]
  {
    TableStage(bank, proposals, i);
  }

  lemma SectionGuarded(bank: seq<byte>, i: nat)
    requires SECTION_OFFSET <= i < SECTION_OFFSET + SECTION_BYTES
    ensures Guarded(bank, i)
  {
    hide HeadersOf;
    var spans := ProtectedSpans(HeadersOf(bank));
    assert spans[|spans| - 1] == Interval(SECTION_OFFSET, SECTION_OFFSET + SECTION_BYTES);
    assert spans[|spans| - 1].start <= i < spans[|spans| - 1].end;
  }

  lemma HeaderGuarded(bank: seq<byte>, t: LaunchTable, i: nat)
    requires t in HeadersOf(bank) && t.headerOffset <= i < t.headerOffset + RECORD_BYTES
    ensures Guarded(bank, i)
  {
    hide HeadersOf;
    var k :| 0 <= k < |HeadersOf(bank)| && HeadersOf(bank)[k] == t;
    assert ProtectedSpans(HeadersOf(bank))[k] == Interval(t.headerOffset, t.headerOffset + RECORD_BYTES);
    assert ProtectedSpans(HeadersOf(bank))[k].start <= i < ProtectedSpans(HeadersOf(bank))[k].end;
  }

  /** A section's header decides everything but the sum. */
  lemma SectionStays(bank: seq<byte>, out: seq<byte>)
    requires |bank| == |out| == BANK_BYTES && Agree(bank, out, SECTION_OFFSET, SECTION_OFFSET + SECTION_BYTES)
    ensures Section(bank).Err? <==> Section(out).Err?
    ensures Section(bank) == Ok(None) ==> Section(out) == Ok(None)
    ensures Section(bank).Ok? && Section(bank).value.Some? ==>
      var d := Section(bank).value.value.descriptors;
      |d| == 4 && (forall i :: 0 <= i < 4 ==> ValidDescriptor(d[i]))
      && Section(out) == Ok(Some(SectionInfo(Section(bank).value.value.stored, Calculated(out, d, 4), d)))
  {
    hide Value, Fold, Calculated, ValidDescriptor;
    forall k | 0 <= k < 6
      ensures U32At(out, SECTION_OFFSET + 4 * k) == U32At(bank, SECTION_OFFSET + 4 * k)
    {
      SameWindow(bank, out, SECTION_OFFSET, SECTION_OFFSET + SECTION_BYTES,
        SECTION_OFFSET + 4 * k, SECTION_OFFSET + 4 * k + 4);
    }
    assert U32At(out, SECTION_OFFSET) == U32At(bank, SECTION_OFFSET + 4 * 0);
    assert U32At(out, CHECK_WORD) == U32At(bank, SECTION_OFFSET + 4 * 1);
    assert Descriptors(out) == Descriptors(bank) by {
      forall i | 0 <= i < 4
        ensures Descriptors(out)[i] == Descriptors(bank)[i]
      {
        assert U32At(out, SECTION_OFFSET + 4 * (i + 2)) == U32At(bank, SECTION_OFFSET + 4 * (i + 2));
      }
    }
  }

  /** The tables and payloads of a whole composition, before its section is looked at again. */
  ghost function Edits(c: Codec, m: Manifest, bank: seq<byte>, data: seq<seq<byte>>):
    (r: Result<seq<byte>, ComposeFault>)
    requires |data| == |m.payloads|
    ensures r.Ok? ==> |r.value| == |bank| == BANK_BYTES && Validate(c, m, bank).Ok?
  {
    if |bank| != BANK_BYTES then Err(ComposeBankSize)
    else
      var proposals :- Validate(c, m, bank);
      ProposalsFit(c, m, bank);
      Stage(c, bank, proposals, m.payloads, data)
  }

  lemma EditsKeepSection(c: Codec, m: Manifest, bank: seq<byte>, data: seq<seq<byte>>)
    requires |data| == |m.payloads| && Edits(c, m, bank, data).Ok?
    ensures Agree(bank, Edits(c, m, bank, data).value, SECTION_OFFSET, SECTION_OFFSET + SECTION_BYTES)
  {
    hide Validate, Stage, Guarded;
    ProposalsFit(c, m, bank);
    forall i | SECTION_OFFSET <= i < SECTION_OFFSET + SECTION_BYTES
      ensures Edits(c, m, bank, data).value[i] == bank[i]
    {
      SectionGuarded(bank, i);
      GuardedKept(c, bank, Validate(c, m, bank).value, m.payloads, data, i);
    }
  }

  /**
   The end of every composition, with no hypothesis. The two "section metadata changed" guards and
   the late descriptor check never fire: a bank without a section is returned as edited, and one
   with a section is repaired unless its stored word is covered an odd number of times by the four
   ranges and is not already the sum of the edited bank.
   */
  lemma ComposeEnds(c: Codec, m: Manifest, bank: seq<byte>, data: seq<seq<byte>>)
    requires |data| == |m.payloads|
    ensures Compose(c, m, bank, data) != Err(SectionChanged)
    ensures Compose(c, m, bank, data) == Err(BadSection) <==>
      |bank| == BANK_BYTES && Validate(c, m, bank).Ok? && Section(bank).Err?
    ensures Section(bank).Ok? && Edits(c, m, bank, data).Err? ==> Compose(c, m, bank, data) == Edits(c, m, bank, data)
    ensures Section(bank) == Ok(None) ==> Compose(c, m, bank, data) == Edits(c, m, bank, data)
    ensures Section(bank).Ok? && Section(bank).value.Some? && Edits(c, m, bank, data).Ok? ==>
      var info, edited := Section(bank).value.value, Edits(c, m, bank, data).value;
      && Section(edited).Ok? && Section(edited).value.Some?
      && Compose(c, m, bank, data) ==
        if Coverage(info.descriptors, 4) % 2 == 0 || info.stored == Section(edited).value.value.calculated
        then Ok(Repaired(edited, Section(edited).value.value.calculated))
        else Err(RepairFailed)
  {
    hide Validate, Stage, Section, Repaired, Coverage;
    if Edits(c, m, bank, data).Ok? {
      var edited := Edits(c, m, bank, data).value;
      EditsKeepSection(c, m, bank, data);
      SectionStays(bank, edited);
      if Section(edited).Ok? && Section(edited).value.Some? {
        RepairIff(edited);
      }
    }
    EditsFaults(c, m, bank, data);
  }

  predicate NotOfSection(fault: ComposeFault) {
    fault != SectionChanged && fault != BadSection && fault != RepairFailed
  }

  lemma {:induction false} ProposalsFault(headers: seq<HeaderEntry>, sources: seq<LaunchTable>)
    ensures Proposals(headers, sources).Err? ==> NotOfSection(Proposals(headers, sources).fault)
  {
    if headers != [] {
      ProposalsFault(headers[..|headers| - 1], sources);
    }
  }

  lemma {:induction false} InventoryFaults(c: Codec, bank: seq<byte>, offsets: seq<int>, budget: int)
    ensures ParseEachType8(c, bank, offsets, budget).Err? ==>
      NotOfSection(ParseEachType8(c, bank, offsets, budget).fault)
    ensures ParseEachNested(c, bank, offsets, budget).Err? ==>
      NotOfSection(ParseEachNested(c, bank, offsets, budget).fault)
    decreases |offsets|
  {
    hide ParseType8, ParseNested;
    if offsets != [] {
      if ParseType8(c, bank, offsets[0], budget).Ok? {
        InventoryFaults(c, bank, offsets[1..], budget - |ParseType8(c, bank, offsets[0], budget).value.data|);
      }
      if ParseNested(c, bank, offsets[0], budget).Ok? {
        InventoryFaults(c, bank, offsets[1..], budget - |ParseNested(c, bank, offsets[0], budget).value.data|);
      }
    }
  }

  lemma {:induction false} ScanFaults(c: Codec, bank: seq<byte>, from: nat, found: nat)
    ensures ScanNested(c, bank, from, found).Err? ==> NotOfSection(ScanNested(c, bank, from, found).fault)
    decreases |bank| - from
  {
    hide ParseNested;
    if from + NESTED_HEADER_BYTES <= |bank| {
      ScanFaults(c, bank, from + 4, found);
      ScanFaults(c, bank, from + 4, found + 1);
    }
  }

  lemma ValidateFaults(c: Codec, m: Manifest, bank: seq<byte>)
    ensures Validate(c, m, bank).Err? ==> NotOfSection(Validate(c, m, bank).fault)
  {
    hide Proposals, ParseEachType8, ParseEachNested, ScanNested, HeadersOf, PayloadsMatch;
    var tables := HeadersOf(bank);
    ProposalsFault(m.headers, tables);
    InventoryFaults(c, bank, Sorting.Ascending(Type8Offsets(tables)), MAX_OUTPUT);
    ScanFaults(c, bank, 0, 0);
    if ScanNested(c, bank, 0, 0).Ok? {
      InventoryFaults(c, bank, ScanNested(c, bank, 0, 0).value, MAX_OUTPUT);
    }
  }

  lemma {:induction false} ApplyFaults(c: Codec, out: seq<byte>, entries: seq<Payload>, data: seq<seq<byte>>,
    spans: seq<Interval>, k: nat)
    requires |out| == BANK_BYTES && |data| == |entries| && k <= |entries|
    ensures ApplyPayloads(c, out, entries, data, spans, k).Err? ==>
      NotOfSection(ApplyPayloads(c, out, entries, data, spans, k).fault)
  {
    hide ApplyOne;
    if k > 0 {
      ApplyFaults(c, out, entries, data, spans, k - 1);
      if ApplyPayloads(c, out, entries, data, spans, k - 1).Ok? {
        OneFault(c, ApplyPayloads(c, out, entries, data, spans, k - 1).value, entries[k - 1], data[k - 1], spans);
      }
    }
  }

  lemma OneFault(c: Codec, out: seq<byte>, entry: Payload, data: seq<byte>, spans: seq<Interval>)
    requires |out| == BANK_BYTES
    ensures ApplyOne(c, out, entry, data, spans).Err? ==> NotOfSection(ApplyOne(c, out, entry, data, spans).fault)
  {
    hide ParseType8, ParseNested, OverlapsAny;
  }

  /** Neither validation nor an edit reports a fault of the section. */
  lemma EditsFaults(c: Codec, m: Manifest, bank: seq<byte>, data: seq<seq<byte>>)
    requires |data| == |m.payloads|
    ensures Edits(c, m, bank, data).Err? ==> NotOfSection(Edits(c, m, bank, data).fault)
    ensures Validate(c, m, bank).Err? ==> NotOfSection(Validate(c, m, bank).fault)
  {
    hide Validate, ApplyPayloads, HeadersOf, Tabled;
    ValidateFaults(c, m, bank);
    if |bank| == BANK_BYTES && Validate(c, m, bank).Ok? {
      ProposalsFit(c, m, bank);
      var proposals := Validate(c, m, bank).value;
      ApplyFaults(c, Tabled(bank, proposals), m.payloads, data, Spans(bank, proposals), |m.payloads|);
    }
  }

  /** A bank composed from one with a section has a section whose sum agrees. */
  lemma ComposedSection(c: Codec, m: Manifest, bank: seq<byte>, data: seq<seq<byte>>)
    requires |data| == |m.payloads| && Compose(c, m, bank, data).Ok?
    ensures Section(bank).Ok?
    ensures Section(bank).value.Some? ==>
      var after := Section(Compose(c, m, bank, data).value);
      && after.Ok? && after.value.Some?
      && after.value.value.descriptors == Section(bank).value.value.descriptors
      && after.value.value.stored == after.value.value.calculated
  {
    hide Validate, Stage, Section, Repaired, Coverage;
    ComposeEnds(c, m, bank, data);
    EditsKeepSection(c, m, bank, data);
    var edited := Edits(c, m, bank, data).value;
    SectionStays(bank, edited);
    if Section(edited).Ok? && Section(edited).value.Some? {
      RepairIff(edited);
    }
  }

  // ----- The composed bank -----

  /** The repair of the edited bank writes a new sum over the stored one. */
  ghost predicate SumChanges(bank: seq<byte>, edited: seq<byte>) {
    && Section(bank).Ok? && Section(bank).value.Some? && Section(edited).Ok? && Section(edited).value.Some?
    && Section(bank).value.value.stored != Section(edited).value.value.calculated
  }

  /** The composed bank is the edited one, with the new sum if it changes. */
  lemma ComposedBytes(c: Codec, m: Manifest, bank: seq<byte>, data: seq<seq<byte>>)
    requires |data| == |m.payloads| && Compose(c, m, bank, data).Ok?
    ensures Edits(c, m, bank, data).Ok? && Section(bank).Ok?
    ensures var edited := Edits(c, m, bank, data).value;
      Compose(c, m, bank, data).value ==
        if SumChanges(bank, edited) then Repaired(edited, Section(edited).value.value.calculated) else edited
  {
    hide Validate, Stage, Section, Coverage, Repaired;
    ComposeEnds(c, m, bank, data);
    var edited := Edits(c, m, bank, data).value;
    EditsKeepSection(c, m, bank, data);
    SectionStays(bank, edited);
    if Section(bank).Ok? && Section(bank).value.Some? {
      StoredWord(edited);
      RepairedSame(edited);
    }
  }

  lemma StoredWord(bank: seq<byte>)
    requires Section(bank).Ok? && Section(bank).value.Some?
    ensures |bank| == BANK_BYTES && Section(bank).value.value.stored == U32At(bank, CHECK_WORD)
  {
  }

  /** Writing the stored word again changes nothing. */
  lemma RepairedSame(bank: seq<byte>)
    requires |bank| == BANK_BYTES
    ensures Repaired(bank, U32At(bank, CHECK_WORD)) == bank
  {
    hide Value, Digits;
    WordRewrite(bank, CHECK_WORD);
    SpliceAt(bank, CHECK_WORD, Be32(U32At(bank, CHECK_WORD)));
  }

  /** Outside the check word the composed bank is the edited one, and the word differs when the sum changes. */
  lemma CheckWordOnly(c: Codec, m: Manifest, bank: seq<byte>, data: seq<seq<byte>>)
    requires |data| == |m.payloads| && Compose(c, m, bank, data).Ok?
    ensures Edits(c, m, bank, data).Ok? && |Compose(c, m, bank, data).value| == |bank| == BANK_BYTES
    ensures forall i :: 0 <= i < BANK_BYTES && !(CHECK_WORD <= i < CHECK_WORD + 4) ==>
      Compose(c, m, bank, data).value[i] == Edits(c, m, bank, data).value[i]
    ensures U32At(Compose(c, m, bank, data).value, CHECK_WORD) != U32At(bank, CHECK_WORD)
      <==> SumChanges(bank, Edits(c, m, bank, data).value)
  {
    hide Compose, Edits, Section, U32At, Repaired, Agree;
    ComposedBytes(c, m, bank, data);
    var edited := Edits(c, m, bank, data).value;
    EditsKeepSection(c, m, bank, data);
    SameCheckWord(bank, edited);
    if SumChanges(bank, edited) {
      StoredWord(bank);
      RepairedBytes(edited, Section(edited).value.value.calculated);
    }
  }

  lemma RepairedBytes(bank: seq<byte>, sum: u32)
    requires |bank| == BANK_BYTES
    ensures forall i :: 0 <= i < BANK_BYTES && !(CHECK_WORD <= i < CHECK_WORD + 4) ==> Repaired(bank, sum)[i] == bank[i]
    ensures U32At(Repaired(bank, sum), CHECK_WORD) == sum
  {
    hide U32At, Splice;
    SpliceAt(bank, CHECK_WORD, Be32(sum));
    RepairedWords(bank, sum, CHECK_WORD);
  }

  lemma SameCheckWord(a: seq<byte>, b: seq<byte>)
    requires |a| == BANK_BYTES && Agree(a, b, SECTION_OFFSET, SECTION_OFFSET + SECTION_BYTES)
    ensures U32At(a, CHECK_WORD) == U32At(b, CHECK_WORD)
  {
    hide Value;
    SameWindow(a, b, SECTION_OFFSET, SECTION_OFFSET + SECTION_BYTES, CHECK_WORD, CHECK_WORD + 4);
  }

  /** The manifest composes, and the payloads it edits do not overlap each other. */
  ghost predicate Composed(c: Codec, m: Manifest, bank: seq<byte>, data: seq<seq<byte>>) {
    && Lawful(c) && |data| == |m.payloads| && Compose(c, m, bank, data).Ok?
    && PayloadsApart(m.payloads, data)
  }

  lemma ComposedStages(c: Codec, m: Manifest, bank: seq<byte>, data: seq<seq<byte>>)
    requires |data| == |m.payloads| && Compose(c, m, bank, data).Ok?
    ensures Edits(c, m, bank, data).Ok? && Validated(c, bank, Validate(c, m, bank).value, m.payloads)
    ensures Stage(c, bank, Validate(c, m, bank).value, m.payloads, data) == Edits(c, m, bank, data)
  {
    hide Validate, Stage, Section, Found, FinishSection;
    ProposalsFit(c, m, bank);
    EntriesFound(c, m, bank);
  }

  predicate AwayFromSection(lo: nat, hi: nat) {
    lo <= hi <= BANK_BYTES && (hi <= SECTION_OFFSET || SECTION_OFFSET + SECTION_BYTES <= lo)
  }

  /** Away from the section's header, the composed bank is as staged. */
  lemma ComposedWindow(c: Codec, m: Manifest, bank: seq<byte>, data: seq<seq<byte>>, lo: nat, hi: nat)
    requires |data| == |m.payloads| && Compose(c, m, bank, data).Ok? && AwayFromSection(lo, hi)
    ensures Edits(c, m, bank, data).Ok? && |Compose(c, m, bank, data).value| == BANK_BYTES
    ensures Compose(c, m, bank, data).value[lo..hi] == Edits(c, m, bank, data).value[lo..hi]
  {
    hide Compose, Edits, Section, Agree;
    CheckWordOnly(c, m, bank, data);
    SliceAway(Edits(c, m, bank, data).value, Compose(c, m, bank, data).value, lo, hi);
  }

  lemma SliceAway(a: seq<byte>, b: seq<byte>, lo: nat, hi: nat)
    requires |a| == |b| == BANK_BYTES && AwayFromSection(lo, hi)
    requires forall i :: 0 <= i < BANK_BYTES && !(CHECK_WORD <= i < CHECK_WORD + 4) ==> a[i] == b[i]
    ensures a[lo..hi] == b[lo..hi]
  {
  }

  /** An edited payload of the source keeps off every launch table, every launch header and the section's header. */
  lemma EditedClear(c: Codec, m: Manifest, bank: seq<byte>, data: seq<seq<byte>>, i: nat)
    requires Composed(c, m, bank, data) && i < |m.payloads| && Edited(m.payloads[i], data[i])
    ensures Validate(c, m, bank).Ok? && m.payloads[i].End() <= BANK_BYTES
    ensures !OverlapsAny(Interval(m.payloads[i].offset, m.payloads[i].End()), Spans(bank, Validate(c, m, bank).value))
  {
    hide Validate, Compose, Stage, Spans, OverlapsAny, Lawful, PayloadsApart, Patch, Found, Paint;
    ComposedStages(c, m, bank, data);
    StagePaints(c, bank, Validate(c, m, bank).value, m.payloads, data);
    assert Patched(c, bank, m.payloads[i], data[i], Spans(bank, Validate(c, m, bank).value));
  }

  /**
   The frame of a composition: outside the edited records, the spans of the edited payloads and the
   stored sum, if that changes, no byte changes.
   */
  lemma ComposeFrame(c: Codec, m: Manifest, bank: seq<byte>, data: seq<seq<byte>>, i: nat)
    requires Composed(c, m, bank, data) && i < BANK_BYTES
    ensures |Compose(c, m, bank, data).value| == |bank| == BANK_BYTES && Validate(c, m, bank).Ok?
    ensures Edits(c, m, bank, data).Ok?
    ensures
      || InEditedRecord(bank, Validate(c, m, bank).value, i)
      || InEdited(m.payloads, data, i)
      || (SumChanges(bank, Edits(c, m, bank, data).value) && CHECK_WORD <= i < CHECK_WORD + 4)
      || Compose(c, m, bank, data).value[i] == bank[i]
  {
    hide Validate, Validated, PayloadsApart, Compose, Stage, Section, InEdited, InEditedRecord, Lawful, SumChanges,
      Repaired, Edits;
    ComposedStages(c, m, bank, data);
    ComposedBytes(c, m, bank, data);
    CheckWordOnly(c, m, bank, data);
    var proposals := Validate(c, m, bank).value;
    if !InEdited(m.payloads, data, i) && !InEditedRecord(bank, proposals, i) {
      StageFrame(c, bank, proposals, m.payloads, data, i);
    }
  }

  /**
   A payload that the manifest leaves alone is still found, unless an edited record, an edited payload
   or a changed sum reaches into its span; only the edited payloads are kept off other spans.
   */
  lemma UneditedFound(c: Codec, m: Manifest, bank: seq<byte>, data: seq<seq<byte>>, i: nat)
    requires Composed(c, m, bank, data) && i < |m.payloads| && Validate(c, m, bank).Ok? && Edits(c, m, bank, data).Ok?
    requires forall o :: m.payloads[i].offset <= o < m.payloads[i].End() ==>
      && !InEditedRecord(bank, Validate(c, m, bank).value, o) && !InEdited(m.payloads, data, o)
      && !(SumChanges(bank, Edits(c, m, bank, data).value) && CHECK_WORD <= o < CHECK_WORD + 4)
    ensures Found(c, Compose(c, m, bank, data).value, m.payloads[i])
  {
    hide Validate, PayloadsApart, Compose, Stage, Section, InEdited, InEditedRecord, Lawful, SumChanges, Edits, Found;
    EntriesFound(c, m, bank);
    var p, out := m.payloads[i], Compose(c, m, bank, data).value;
    FoundFits(c, bank, p);
    ComposeFrame(c, m, bank, data, 0);
    forall o | p.offset <= o < p.End() && 0 <= o < BANK_BYTES
      ensures bank[o] == out[o]
    {
      ComposeFrame(c, m, bank, data, o);
    }
    FoundLocal(c, bank, out, p);
  }

  // ----- Tables that overlap -----

  /** A record of the proposal lies at offset `o`. */
  predicate Covers(p: Proposal, o: int) {
    p.at <= o < p.End() && (o - p.at) % RECORD_BYTES == 0
  }

  function RecordFor(p: Proposal, o: int): Record
    requires Covers(p, o)
  {
    p.records[(o - p.at) / RECORD_BYTES]
  }

  /** Proposal `j` is the last that has a record at `o`; the proposals come by rising offset. */
  predicate LastCover(proposals: seq<Proposal>, j: int, o: int) {
    && 0 <= j < |proposals| && Covers(proposals[j], o)
    && forall l :: j < l < |proposals| ==> !Covers(proposals[l], o)
  }

  /** No record of `p` is overwritten with another one: the last proposal that has a record there agrees. */
  predicate Kept(proposals: seq<Proposal>, p: Proposal) {
    forall k, j :: 0 <= k < |p.records| && 0 <= j < |proposals| && LastCover(proposals, j, p.at + RECORD_BYTES * k) ==>
      RecordFor(proposals[j], p.at + RECORD_BYTES * k) == p.records[k]
  }

  /** The proposals agree on the records that they share. */
  ghost predicate Agreeing(proposals: seq<Proposal>) {
    forall p, q, o :: p in proposals && q in proposals && Covers(p, o) && Covers(q, o) ==>
      RecordFor(p, o) == RecordFor(q, o)
  }

  predicate AllAligned(proposals: seq<Proposal>) {
    forall i :: 0 <= i < |proposals| ==> proposals[i].at % RECORD_BYTES == 0 && proposals[i].End() <= BANK_BYTES
  }

  lemma {:induction false} SomeLastCover(proposals: seq<Proposal>, i: nat, o: int) returns (j: nat)
    requires i < |proposals| && Covers(proposals[i], o)
    ensures i <= j && LastCover(proposals, j, o)
    decreases |proposals| - i
  {
    if l :| i < l < |proposals| && Covers(proposals[l], o) {
      j := SomeLastCover(proposals, l, o);
    } else {
      j := i;
    }
  }

  lemma SplitRecord(records: seq<Record>, s: seq<byte>, at: nat, k: nat)
    requires k < |records| && at + RECORD_BYTES * |records| <= |s|
    requires s[at..at + RECORD_BYTES * |records|] == RecordsBytes(records)
    ensures s[at + RECORD_BYTES * k..at + RECORD_BYTES * k + RECORD_BYTES] == RecordBytes(records[k])
  {
    hide RecordsBytes, RecordBytes;
    RecordsBytesAt(records, k);
    Pieces.SubSlice(s, at, RecordsBytes(records), RECORD_BYTES * k, RECORD_BYTES * k + RECORD_BYTES);
  }

  lemma TabledStep(canvas: seq<byte>, proposals: seq<Proposal>)
    requires |canvas| == BANK_BYTES && AllAligned(proposals) && proposals != []
    ensures var n := |proposals| - 1;
      AllAligned(proposals[..n]) && Tabled(canvas, proposals)
        == Splice(Tabled(canvas, proposals[..n]), proposals[n].at, RecordsBytes(proposals[n].records))
  {
    hide RecordsBytes, Splice;
    var n := |proposals| - 1;
    assert TableWrites(proposals)[..n] == TableWrites(proposals[..n]);
  }

  /** The record at `o` is the one of the last proposal that has a record there. */
  lemma {:induction false} RecordPainted(canvas: seq<byte>, proposals: seq<Proposal>, j: nat, o: nat)
    requires |canvas| == BANK_BYTES && AllAligned(proposals) && LastCover(proposals, j, o)
    ensures Tabled(canvas, proposals)[o..o + RECORD_BYTES] == RecordBytes(RecordFor(proposals[j], o))
  {
    hide RecordBytes, RecordsBytes, Splice, Tabled, Covers, RecordFor;
    var n := |proposals| - 1;
    AlignedCover(proposals[j], o);
    TabledStep(canvas, proposals);
    SplicedRecord(Tabled(canvas, proposals[..n]), proposals[n], o);
    if j < n {
      assert LastCover(proposals[..n], j, o);
      RecordPainted(canvas, proposals[..n], j, o);
    }
  }

  lemma AlignedCover(p: Proposal, o: nat)
    requires Covers(p, o) && p.at % RECORD_BYTES == 0 && p.End() <= BANK_BYTES
    ensures o % RECORD_BYTES == 0 && o + RECORD_BYTES <= BANK_BYTES
  {
  }

  /** A table written over a bank puts its record at `o` if it has one there and leaves the record if not. */
  lemma SplicedRecord(before: seq<byte>, p: Proposal, o: nat)
    requires |before| == BANK_BYTES && p.at % RECORD_BYTES == 0 && p.End() <= BANK_BYTES
    requires o % RECORD_BYTES == 0 && o + RECORD_BYTES <= BANK_BYTES
    ensures Splice(before, p.at, RecordsBytes(p.records))[o..o + RECORD_BYTES]
      == if Covers(p, o) then RecordBytes(RecordFor(p, o)) else before[o..o + RECORD_BYTES]
  {
    hide RecordBytes, RecordsBytes, Splice;
    var after := Splice(before, p.at, RecordsBytes(p.records));
    SpliceAt(before, p.at, RecordsBytes(p.records));
    if Covers(p, o) {
      assert after[p.at..p.End()] == RecordsBytes(p.records);
      SplitRecord(p.records, after, p.at, (o - p.at) / RECORD_BYTES);
    } else {
      AlignedApart(p, o);
      assert after[o..o + RECORD_BYTES] == before[o..o + RECORD_BYTES];
    }
  }

  lemma AlignedApart(p: Proposal, o: nat)
    requires p.at % RECORD_BYTES == 0 && o % RECORD_BYTES == 0 && !Covers(p, o)
    ensures o + RECORD_BYTES <= p.at || p.End() <= o
  {
  }

  /** Record `k` of a table is its proposal's exactly when the last proposal that has a record there agrees. */
  lemma RecordIff(bank: seq<byte>, proposals: seq<Proposal>, p: Proposal, k: nat)
    requires |bank| == BANK_BYTES && AllAligned(proposals) && p in proposals && k < |p.records|
    ensures p.End() <= BANK_BYTES
    ensures RecordAt(Tabled(bank, proposals), p.at + RECORD_BYTES * k) == p.records[k] <==>
      forall j :: 0 <= j < |proposals| && LastCover(proposals, j, p.at + RECORD_BYTES * k) ==>
        RecordFor(proposals[j], p.at + RECORD_BYTES * k) == p.records[k]
  {
    hide Tabled, RecordAt, RecordBytes, Covers, RecordFor;
    OwnRecord(p, k);
    var i :| 0 <= i < |proposals| && proposals[i] == p;
    var o := p.at + RECORD_BYTES * k;
    var last := SomeLastCover(proposals, i, o);
    RecordPainted(bank, proposals, last, o);
    RecordReadBack(Tabled(bank, proposals), o, RecordFor(proposals[last], o));
    OneLastCover(proposals);
  }

  /** A table holds its proposal exactly when no later one overwrites a record with another. */
  lemma TabledIff(bank: seq<byte>, proposals: seq<Proposal>, p: Proposal)
    requires |bank| == BANK_BYTES && AllAligned(proposals) && p in proposals
    ensures p.End() <= BANK_BYTES
    ensures RecordsAt(Tabled(bank, proposals), p.at, |p.records|) == p.records <==> Kept(proposals, p)
  {
    hide Tabled, RecordAt, Covers, RecordFor;
    var found := RecordsAt(Tabled(bank, proposals), p.at, |p.records|);
    forall k | 0 <= k < |p.records|
      ensures found[k] == p.records[k] <==>
        forall j :: 0 <= j < |proposals| && LastCover(proposals, j, p.at + RECORD_BYTES * k) ==>
          RecordFor(proposals[j], p.at + RECORD_BYTES * k) == p.records[k]
    {
      RecordIff(bank, proposals, p, k);
    }
  }

  lemma OneLastCover(proposals: seq<Proposal>)
    ensures forall i, j, o :: LastCover(proposals, i, o) && LastCover(proposals, j, o) ==> i == j
  {
  }

  /** All tables hold their proposals exactly when the proposals agree on the records that they share. */
  lemma AllKeptIff(proposals: seq<Proposal>)
    requires AllAligned(proposals)
    ensures (forall p :: p in proposals ==> Kept(proposals, p)) <==> Agreeing(proposals)
  {
    hide Kept, LastCover, Covers, RecordFor, AllAligned;
    if forall p :: p in proposals ==> Kept(proposals, p) {
      forall p, q, o | p in proposals && q in proposals && Covers(p, o) && Covers(q, o)
        ensures RecordFor(p, o) == RecordFor(q, o)
      {
        var i :| 0 <= i < |proposals| && proposals[i] == p;
        var j := SomeLastCover(proposals, i, o);
        KeptAt(proposals, p, j, o);
        KeptAt(proposals, q, j, o);
      }
    }
    if Agreeing(proposals) {
      forall p | p in proposals
        ensures Kept(proposals, p)
      {
        AgreeingKeeps(proposals, p);
      }
    }
  }

  lemma AgreeingKeeps(proposals: seq<Proposal>, p: Proposal)
    requires Agreeing(proposals) && p in proposals
    ensures Kept(proposals, p)
  {
    hide LastCover, Covers, RecordFor;
    forall k, j | 0 <= k < |p.records| && 0 <= j < |proposals| && LastCover(proposals, j, p.at + RECORD_BYTES * k)
      ensures Covers(proposals[j], p.at + RECORD_BYTES * k)
        && RecordFor(proposals[j], p.at + RECORD_BYTES * k) == p.records[k]
    {
      LastCoverBounds(proposals, j, p.at + RECORD_BYTES * k);
      OwnRecord(p, k);
    }
  }

  lemma OwnRecord(p: Proposal, k: nat)
    requires k < |p.records|
    ensures Covers(p, p.at + RECORD_BYTES * k) && RecordFor(p, p.at + RECORD_BYTES * k) == p.records[k]
  {
  }

  lemma KeptAt(proposals: seq<Proposal>, p: Proposal, j: int, o: int)
    requires Kept(proposals, p) && Covers(p, o) && LastCover(proposals, j, o)
    ensures RecordFor(p, o) == RecordFor(proposals[j], o)
  {
    hide LastCover, Covers;
    var k := (o - p.at) / RECORD_BYTES;
    CoversAt(p, o);
    assert LastCover(proposals, j, p.at + RECORD_BYTES * k) && 0 <= j < |proposals| by {
      LastCoverBounds(proposals, j, o);
    }
  }

  lemma LastCoverBounds(proposals: seq<Proposal>, j: int, o: int)
    requires LastCover(proposals, j, o)
    ensures 0 <= j < |proposals| && Covers(proposals[j], o)
  {
  }

  lemma CoversAt(p: Proposal, o: int)
    requires Covers(p, o)
    ensures o == p.at + RECORD_BYTES * ((o - p.at) / RECORD_BYTES) && 0 <= (o - p.at) / RECORD_BYTES < |p.records|
  {
  }

  // ----- The tables of a composed bank -----

  /** The proposals of a validated manifest lie on record boundaries in the bank. */
  lemma ProposalsAligned(c: Codec, m: Manifest, bank: seq<byte>)
    requires Validate(c, m, bank).Ok?
    ensures AllAligned(Validate(c, m, bank).value)
    ensures forall p :: p in Validate(c, m, bank).value ==> p.records != []
  {
    hide Validate, HeadersOf, RecordValid, RecordAt;
    ProposalsFit(c, m, bank);
    var proposals := Validate(c, m, bank).value;
    forall i | 0 <= i < |proposals|
      ensures proposals[i].at % RECORD_BYTES == 0
    {
      assert ForSource(proposals[i], HeadersOf(bank));
      var t :| t in HeadersOf(bank) && t.tableOffset == proposals[i].at;
      assert ParseLaunchTable(bank, t.headerOffset, RUNTIME_BANK_BASE) == Ok(t);
    }
    forall p | p in proposals
      ensures p.records != []
    {
      var i :| 0 <= i < |proposals| && proposals[i] == p;
      assert RecordsValid(proposals[i].records);
    }
  }

  /** The composed bank is as the proposals left it in every table. */
  lemma TableBytes(c: Codec, m: Manifest, bank: seq<byte>, data: seq<seq<byte>>, p: Proposal)
    requires |data| == |m.payloads| && Compose(c, m, bank, data).Ok? && p in Validate(c, m, bank).value
    ensures |Compose(c, m, bank, data).value| == |bank| == BANK_BYTES && p.End() <= BANK_BYTES
    ensures Validate(c, m, bank).Ok? && AllAligned(Validate(c, m, bank).value)
    ensures Compose(c, m, bank, data).value[p.at..p.End()] == Tabled(bank, Validate(c, m, bank).value)[p.at..p.End()]
  {
    hide Validate, Compose, Edits, Validated, Stage, Tabled, Spans, HeadersOf;
    ComposedStages(c, m, bank, data);
    ProposalsAligned(c, m, bank);
    CheckWordOnly(c, m, bank, data);
    var proposals := Validate(c, m, bank).value;
    TableStaged(c, bank, proposals, m.payloads, data, p);
    ComposedWindow(c, m, bank, data, p.at, p.End());
  }

  /** Past the table stage no byte of a table changes. */
  lemma TableStaged(c: Codec, bank: seq<byte>, proposals: seq<Proposal>, entries: seq<Payload>, data: seq<seq<byte>>,
    p: Proposal)
    requires |bank| == BANK_BYTES && |data| == |entries| && AllAligned(proposals) && p in proposals && p.records != []
    requires Stage(c, bank, proposals, entries, data).Ok?
    ensures p.End() <= BANK_BYTES && AwayFromSection(p.at, p.End())
    ensures Stage(c, bank, proposals, entries, data).value[p.at..p.End()] == Tabled(bank, proposals)[p.at..p.End()]
  {
    hide ApplyPayloads, Tabled, HeadersOf, ProtectedSpans, OverlapsAny;
    var k :| 0 <= k < |proposals| && proposals[k] == p;
    var n := |ProtectedSpans(HeadersOf(bank))|;
    assert Spans(bank, proposals)[n + k] == TableSpans(proposals)[k] == Interval(p.at, p.End());
    forall i | p.at <= i < p.End()
      ensures Stage(c, bank, proposals, entries, data).value[i] == Tabled(bank, proposals)[i]
    {
      SpansKept(c, Tabled(bank, proposals), entries, data, Spans(bank, proposals), |entries|, n + k, i);
    }
    SectionClear(HeadersOf(bank), p);
  }

  lemma SectionClear(sources: seq<LaunchTable>, p: Proposal)
    requires p.records != [] && p.End() <= BANK_BYTES && !OverlapsAny(Interval(p.at, p.End()), ProtectedSpans(sources))
    ensures AwayFromSection(p.at, p.End())
  {
    var spans := ProtectedSpans(sources);
    assert spans[|spans| - 1] == Interval(SECTION_OFFSET, SECTION_OFFSET + SECTION_BYTES);
    assert !Overlap(Interval(p.at, p.End()), spans[|spans| - 1]);
  }

  /** A composed bank holds a proposal exactly when no later proposal overwrites a record of it with another. */
  lemma ProposalHeld(c: Codec, m: Manifest, bank: seq<byte>, data: seq<seq<byte>>, p: Proposal)
    requires |data| == |m.payloads| && Compose(c, m, bank, data).Ok? && p in Validate(c, m, bank).value
    ensures p.End() <= |Compose(c, m, bank, data).value|
    ensures RecordsAt(Compose(c, m, bank, data).value, p.at, |p.records|) == p.records
      <==> Kept(Validate(c, m, bank).value, p)
  {
    hide Validate, Compose, Tabled, RecordsAt, Kept;
    TableBytes(c, m, bank, data, p);
    var proposals := Validate(c, m, bank).value;
    TabledIff(bank, proposals, p);
    SameRecords(Compose(c, m, bank, data).value, Tabled(bank, proposals), p.at, |p.records|);
  }

  lemma SameRecords(a: seq<byte>, b: seq<byte>, at: nat, n: nat)
    requires at + RECORD_BYTES * n <= |a| && at + RECORD_BYTES * n <= |b|
    requires a[at..at + RECORD_BYTES * n] == b[at..at + RECORD_BYTES * n]
    ensures RecordsAt(a, at, n) == RecordsAt(b, at, n)
  {
    hide Value;
    forall i | at <= i < at + RECORD_BYTES * n
      ensures a[i] == b[i]
    {
      assert a[at..at + RECORD_BYTES * n][i - at] == b[at..at + RECORD_BYTES * n][i - at];
    }
    forall k | 0 <= k < n
      ensures RecordsAt(a, at, n)[k] == RecordsAt(b, at, n)[k]
    {
      var o := at + RECORD_BYTES * k;
      assert a[o..o + 4] == b[o..o + 4] && a[o + 4..o + 8] == b[o + 4..o + 8];
      assert a[o + 8..o + 12] == b[o + 8..o + 12] && a[o + 12..o + 16] == b[o + 12..o + 16];
    }
  }

  /** Every proposal is held exactly when the proposals agree on the records that they share. */
  lemma AllHeld(c: Codec, m: Manifest, bank: seq<byte>, data: seq<seq<byte>>)
    requires |data| == |m.payloads| && Compose(c, m, bank, data).Ok? && Validate(c, m, bank).Ok?
    ensures var out, proposals := Compose(c, m, bank, data).value, Validate(c, m, bank).value;
      (forall p :: p in proposals ==> p.End() <= |out| && RecordsAt(out, p.at, |p.records|) == p.records)
      <==> Agreeing(proposals)
  {
    hide Validate, Compose, RecordsAt, Kept, Agreeing, AllAligned;
    var out, proposals := Compose(c, m, bank, data).value, Validate(c, m, bank).value;
    ProposalsAligned(c, m, bank);
    AllKeptIff(proposals);
    forall p | p in proposals
      ensures p.End() <= |out| && (RecordsAt(out, p.at, |p.records|) == p.records <==> Kept(proposals, p))
    {
      ProposalHeld(c, m, bank, data, p);
    }
  }

  /** A validated header's proposal is among the proposals. */
  lemma HeaderProposal(c: Codec, m: Manifest, bank: seq<byte>, h: HeaderEntry)
    requires Validate(c, m, bank).Ok? && h in m.headers
    ensures Accepted(h, HeadersOf(bank))
    ensures Proposal(h.tableOffset, Records(h)) in Validate(c, m, bank).value
  {
    hide HeadersOf, Inventory, PayloadsMatch, Accepted, Proposals, Records;
    ProposalsFacts(m.headers, HeadersOf(bank));
    SortedMembers(Proposals(m.headers, HeadersOf(bank)).value);
  }

  /** A header describes the same table, with the records it finds, unless it holds the check word and that changed. */
  lemma HeaderReads(bank: seq<byte>, out: seq<byte>, t: LaunchTable, records: seq<Record>)
    requires ParseLaunchTable(bank, t.headerOffset, RUNTIME_BANK_BASE) == Ok(t)
    requires |out| == |bank| && |records| == |t.records|
    requires forall i :: t.headerOffset <= i < t.headerOffset + RECORD_BYTES && !(CHECK_WORD <= i < CHECK_WORD + 4) ==>
      out[i] == bank[i]
    ensures t.tableOffset + RECORD_BYTES * |records| <= |out|
    ensures ParseLaunchTable(out, t.headerOffset, RUNTIME_BANK_BASE) == Ok(t.(records := records)) <==>
      RecordsAt(out, t.tableOffset, |records|) == records
      && !(t.headerOffset == SECTION_OFFSET && U32At(out, CHECK_WORD) != U32At(bank, CHECK_WORD))
  {
    hide Value, RecordsAt;
    var o := t.headerOffset;
    forall k | 0 <= k < 4 && !(o == SECTION_OFFSET && k == 1)
      ensures U32At(out, o + 4 * k) == U32At(bank, o + 4 * k)
    {
      assert Agree(bank, out, o + 4 * k, o + 4 * k + 4);
      SameWindow(bank, out, o + 4 * k, o + 4 * k + 4, o + 4 * k, o + 4 * k + 4);
    }
    assert U32At(out, o) == U32At(bank, o + 4 * 0);
    assert !(o == SECTION_OFFSET) ==> U32At(out, o + 4) == U32At(bank, o + 4 * 1);
    assert U32At(out, o + 8) == U32At(bank, o + 4 * 2);
    assert U32At(out, o + 12) == U32At(bank, o + 4 * 3);
  }

  /**
   A launch table of a composed bank holds its proposed records exactly when no table at a higher
   offset overwrites one of them with another; its header parses to them exactly when, besides, it
   is not the one at the section's own offset with a sum that the repair changes.
   */
  lemma ComposeTables(c: Codec, m: Manifest, bank: seq<byte>, data: seq<seq<byte>>, h: HeaderEntry, t: LaunchTable)
    requires |data| == |m.payloads| && Compose(c, m, bank, data).Ok?
    requires h in m.headers && t in HeadersOf(bank) && Describes(h, t)
    ensures |Compose(c, m, bank, data).value| == |bank| == BANK_BYTES && Edits(c, m, bank, data).Ok?
    ensures |h.records| == |t.records| && t.tableOffset + RECORD_BYTES * |h.records| <= BANK_BYTES
    ensures var out := Compose(c, m, bank, data).value;
      var kept := Kept(Validate(c, m, bank).value, Proposal(t.tableOffset, Records(h)));
      && (RecordsAt(out, t.tableOffset, |h.records|) == Records(h) <==> kept)
      && (ParseLaunchTable(out, t.headerOffset, RUNTIME_BANK_BASE) == Ok(t.(records := Records(h))) <==>
        kept && !(t.headerOffset == SECTION_OFFSET && SumChanges(bank, Edits(c, m, bank, data).value)))
  {
    hide Validate, Stage, Compose, Found, HeadersOf, RecordsBytes, ForSource, RecordsAt, ParseLaunchTable, U32At,
      Records, Guarded, Edits, Kept, SumChanges;
    ComposedStages(c, m, bank, data);
    HeaderProposal(c, m, bank, h);
    CheckWordOnly(c, m, bank, data);
    HeadersParse(bank, t);
    var p, out := Proposal(t.tableOffset, Records(h)), Compose(c, m, bank, data).value;
    ProposalHeld(c, m, bank, data, p);
    forall i | t.headerOffset <= i < t.headerOffset + RECORD_BYTES && !(CHECK_WORD <= i < CHECK_WORD + 4)
      ensures out[i] == bank[i]
    {
      HeaderGuarded(bank, t, i);
      GuardedKept(c, bank, Validate(c, m, bank).value, m.payloads, data, i);
    }
    HeaderReads(bank, out, t, p.records);
  }

  lemma HeadersParse(bank: seq<byte>, t: LaunchTable)
    requires t in HeadersOf(bank)
    ensures ParseLaunchTable(bank, t.headerOffset, RUNTIME_BANK_BASE) == Ok(t)
    ensures t.headerOffset + RECORD_BYTES <= |bank| == BANK_BYTES && 0 < |t.records|
  {
  }

  // ----- The payloads of a composed bank -----

  /** How long a payload's replacement is before it is padded. */
  function PackedSize(c: Codec, entry: Payload, data: seq<byte>): nat
    requires |data| < TWO32
  {
    if entry.Nested? then NESTED_HEADER_BYTES + |NestedStored(c, data)| else TYPE8_HEADER_BYTES + |RepackType8(c, data)|
  }

  /** A payload can be replaced exactly when the packed replacement fits its span and its size field. */
  lemma PatchIff(c: Codec, bank: seq<byte>, entry: Payload, data: seq<byte>)
    requires Found(c, bank, entry) && |bank| == BANK_BYTES && |data| <= MAX_OUTPUT
    ensures Patch(c, bank, entry, data).Ok? <==>
      PackedSize(c, entry, data) <= entry.Span() && (entry.Nested? ==> |NestedStored(c, data)| < TWO32)
  {
    hide ParseType8, ParseNested, RepackType8, NestedStored, Sum, Digits;
    FoundFits(c, bank, entry);
  }

  /** A patch in place is a payload again. */
  lemma PatchReads(c: Codec, bank: seq<byte>, out: seq<byte>, entry: Payload, data: seq<byte>)
    requires Lawful(c) && Found(c, bank, entry) && |out| == BANK_BYTES && entry.End() <= BANK_BYTES
    requires 0 < |data| <= MAX_OUTPUT && Patch(c, bank, entry, data) == Ok(out[entry.offset..entry.End()])
    ensures entry.Nested? ==>
      |NestedStored(c, data)| < TWO32
      && ParseNested(c, out, entry.offset, MAX_OUTPUT)
        == Ok(Nested(entry.offset, |NestedStored(c, data)|, c.crc(data), data))
    ensures entry.Type8? ==>
      && (ParseType8(c, out, entry.offset, MAX_OUTPUT).Ok? <==> Expandable(entry.mode, entry.field, |data|))
      && (Expandable(entry.mode, entry.field, |data|) ==>
        ParseType8(c, out, entry.offset, MAX_OUTPUT)
          == Ok(Type8(entry.offset, entry.mode, entry.field, |c.deflate(data)|, c.crc(data), data)))
    ensures forall i :: entry.offset + PackedSize(c, entry, data) <= i < entry.End() ==> out[i] == 0xFF
  {
    hide Lawful, Found, Patch, ParseNested, ParseType8, PackedSize, NestedStored;
    if entry.Nested? {
      NestedPatchReads(c, bank, out, entry, data);
    } else {
      Type8PatchReads(c, bank, out, entry, data);
    }
  }

  lemma NestedPatchReads(c: Codec, bank: seq<byte>, out: seq<byte>, entry: Payload, data: seq<byte>)
    requires Lawful(c) && entry.Nested? && Found(c, bank, entry) && |out| == BANK_BYTES && entry.End() <= BANK_BYTES
    requires 0 < |data| <= MAX_OUTPUT && Patch(c, bank, entry, data) == Ok(out[entry.offset..entry.End()])
    ensures |NestedStored(c, data)| < TWO32
    ensures ParseNested(c, out, entry.offset, MAX_OUTPUT)
      == Ok(Nested(entry.offset, |NestedStored(c, data)|, c.crc(data), data))
    ensures forall i :: entry.offset + PackedSize(c, entry, data) <= i < entry.End() ==> out[i] == 0xFF
  {
    hide Lawful, InflateRegion, NestedStored, RepackNested, Value, ParseNested;
    FoundFits(c, bank, entry);
    var o, all := entry.offset, RepackNested(c, data);
    RepackedSize(c, data);
    PaddedReads(out, o, entry.End(), all);
    NestedRepacked(c, out, o, data);
  }

  lemma RepackedSize(c: Codec, data: seq<byte>)
    requires |data| < TWO32 && |NestedStored(c, data)| < TWO32
    ensures |RepackNested(c, data)| == NESTED_HEADER_BYTES + |NestedStored(c, data)|
  {
    hide NestedStored, Sum;
  }

  /** A padded string and its padding, where they were written. */
  lemma PaddedReads(out: seq<byte>, lo: nat, hi: nat, all: seq<byte>)
    requires lo <= hi <= |out| && |all| <= hi - lo && out[lo..hi] == all + Pad(hi - lo - |all|)
    ensures out[lo..lo + |all|] == all && forall i :: lo + |all| <= i < hi ==> out[i] == 0xFF
  {
    Pieces.SubSlice(out, lo, all + Pad(hi - lo - |all|), 0, |all|);
    forall i | lo + |all| <= i < hi
      ensures out[i] == 0xFF
    {
      assert out[i] == out[lo..hi][i - lo];
    }
  }

  lemma Type8PatchReads(c: Codec, bank: seq<byte>, out: seq<byte>, entry: Payload, data: seq<byte>)
    requires Lawful(c) && entry.Type8? && Found(c, bank, entry) && |out| == BANK_BYTES && entry.End() <= BANK_BYTES
    requires 0 < |data| <= MAX_OUTPUT && Patch(c, bank, entry, data) == Ok(out[entry.offset..entry.End()])
    ensures ParseType8(c, out, entry.offset, MAX_OUTPUT).Ok? <==> Expandable(entry.mode, entry.field, |data|)
    ensures Expandable(entry.mode, entry.field, |data|) ==>
      ParseType8(c, out, entry.offset, MAX_OUTPUT)
        == Ok(Type8(entry.offset, entry.mode, entry.field, |c.deflate(data)|, c.crc(data), data))
    ensures forall i :: entry.offset + PackedSize(c, entry, data) <= i < entry.End() ==> out[i] == 0xFF
  {
    hide Lawful, Expand, RepackType8, Value;
    FoundFits(c, bank, entry);
    var o, stream := entry.offset, RepackType8(c, data);
    PaddedReads(out, o, entry.End(), bank[o..o + 8] + stream);
    Pieces.SubSlice(out, o, bank[o..o + 8] + stream, 0, 8);
    Pieces.SubSlice(out, o, bank[o..o + 8] + stream, 8, 8 + |stream|);
    Type8HeaderRead(bank, out, o);
    Type8Repacked(c, out, o, entry.mode, entry.field, data);
  }

  lemma Type8HeaderRead(bank: seq<byte>, out: seq<byte>, o: nat)
    requires o + 8 <= |bank| && o + 8 <= |out| && out[o..o + 8] == bank[o..o + 8]
    ensures U32At(out, o) == U32At(bank, o) && U32At(out, o + 4) == U32At(bank, o + 4)
  {
    hide Value;
    assert out[o..o + 4] == out[o..o + 8][..4] && bank[o..o + 4] == bank[o..o + 8][..4];
    assert out[o + 4..o + 8] == out[o..o + 8][4..] && bank[o + 4..o + 8] == bank[o..o + 8][4..];
  }

  lemma EditedAway(bank: seq<byte>, proposals: seq<Proposal>, entry: Payload)
    requires entry.End() <= BANK_BYTES && !OverlapsAny(Interval(entry.offset, entry.End()), Spans(bank, proposals))
    ensures AwayFromSection(entry.offset, entry.End())
  {
    hide HeadersOf;
    var n := |ProtectedSpans(HeadersOf(bank))| - 1;
    assert Spans(bank, proposals)[n] == Interval(SECTION_OFFSET, SECTION_OFFSET + SECTION_BYTES);
    assert !Overlap(Interval(entry.offset, entry.End()), Spans(bank, proposals)[n]);
  }

  /**
   Every edited payload of a composed bank parses to its replacement; a type-8 one exactly when the
   replacement may be expanded, which composition does not check.
   */
  lemma ComposePayloads(c: Codec, m: Manifest, bank: seq<byte>, data: seq<seq<byte>>, i: nat)
    requires Composed(c, m, bank, data) && i < |m.payloads| && Edited(m.payloads[i], data[i])
    ensures 0 < |data[i]| <= MAX_OUTPUT
    ensures var out, entry, size := Compose(c, m, bank, data).value, m.payloads[i], |data[i]|;
      && (entry.Nested? ==>
        |NestedStored(c, data[i])| < TWO32
        && ParseNested(c, out, entry.offset, MAX_OUTPUT)
          == Ok(Nested(entry.offset, |NestedStored(c, data[i])|, c.crc(data[i]), data[i])))
      && (entry.Type8? ==>
        && (ParseType8(c, out, entry.offset, MAX_OUTPUT).Ok? <==> Expandable(entry.mode, entry.field, size))
        && (Expandable(entry.mode, entry.field, size) ==>
          ParseType8(c, out, entry.offset, MAX_OUTPUT)
            == Ok(Type8(entry.offset, entry.mode, entry.field, |c.deflate(data[i])|, c.crc(data[i]), data[i]))))
      && forall o :: entry.offset + PackedSize(c, entry, data[i]) <= o < entry.End() ==> o < |out| && out[o] == 0xFF
  {
    hide Validate, Stage, Compose, PayloadsApart, Found, Patch, Lawful, ParseNested, ParseType8, Edits, NestedStored,
      OverlapsAny, Spans;
    ComposedStages(c, m, bank, data);
    PatchHolds(c, bank, Validate(c, m, bank).value, m.payloads, data, i);
    EditedClear(c, m, bank, data, i);
    EditedAway(bank, Validate(c, m, bank).value, m.payloads[i]);
    ComposedWindow(c, m, bank, data, m.payloads[i].offset, m.payloads[i].End());
    PatchReads(c, bank, Compose(c, m, bank, data).value, m.payloads[i], data[i]);
  }

  // ----- Unedited manifests -----

  /** The manifest proposes the source's own records, and every replacement is the payload's own data. */
  ghost predicate Unedited(m: Manifest, bank: seq<byte>, data: seq<seq<byte>>) {
    && |data| == |m.payloads|
    && (forall i :: 0 <= i < |data| ==> data[i] == m.payloads[i].data)
    && (forall h, t :: h in m.headers && t in HeadersOf(bank) && Describes(h, t) ==> Records(h) == t.records)
  }

  lemma SourceRecords(c: Codec, m: Manifest, bank: seq<byte>, data: seq<seq<byte>>, p: Proposal)
    requires Unedited(m, bank, data) && Validate(c, m, bank).Ok? && p in Validate(c, m, bank).value
    ensures p.End() <= |bank| && p.records == RecordsAt(bank, p.at, |p.records|)
  {
    hide HeadersOf, Inventory, PayloadsMatch, Proposals, Records, RecordsAt, ForSource;
    SortedMembers(Proposals(m.headers, HeadersOf(bank)).value);
    var h := ProposalHeader(m.headers, HeadersOf(bank), p);
    ProposalsFacts(m.headers, HeadersOf(bank));
    var t :| t in HeadersOf(bank) && Describes(h, t);
    assert Records(h) == t.records;
    TableRecords(bank, t);
  }

  /** The table's records are those in the bank. */
  ghost predicate TableIn(bank: seq<byte>, t: LaunchTable) {
    t.tableOffset + RECORD_BYTES * |t.records| <= |bank| && t.records == RecordsAt(bank, t.tableOffset, |t.records|)
  }

  lemma TableRecords(bank: seq<byte>, t: LaunchTable)
    requires t in HeadersOf(bank)
    ensures TableIn(bank, t)
  {
  }

  /** Every proposal comes from a header. */
  lemma {:induction false} ProposalHeader(headers: seq<HeaderEntry>, sources: seq<LaunchTable>, p: Proposal)
    returns (h: HeaderEntry)
    requires Proposals(headers, sources).Ok? && p in Proposals(headers, sources).value
    ensures h in headers && h.tableOffset == p.at && Records(h) == p.records
  {
    hide HeaderFault, Records;
    var n := |headers| - 1;
    if p in Proposals(headers[..n], sources).value {
      h := ProposalHeader(headers[..n], sources, p);
    } else {
      h := headers[n];
    }
  }

  lemma {:induction false} RecordsRewritten(s: seq<byte>, at: nat, n: nat)
    requires at + RECORD_BYTES * n <= |s|
    ensures RecordsBytes(RecordsAt(s, at, n)) == s[at..at + RECORD_BYTES * n]
  {
    hide RecordBytes, RecordAt;
    if n > 0 {
      RecordsRewritten(s, at, n - 1);
      var records := RecordsAt(s, at, n);
      assert records[..n - 1] == RecordsAt(s, at, n - 1);
      RecordRewritten(s, at + RECORD_BYTES * (n - 1));
    }
  }

  lemma RecordRewritten(s: seq<byte>, at: nat)
    requires at + RECORD_BYTES <= |s|
    ensures RecordBytes(RecordAt(s, at)) == s[at..at + RECORD_BYTES]
  {
    hide Value, Digits;
    WordRewrite(s, at);
    WordRewrite(s, at + 4);
    WordRewrite(s, at + 8);
    WordRewrite(s, at + 12);
    assert s[at..at + 16] == s[at..at + 4] + s[at + 4..at + 8] + s[at + 8..at + 12] + s[at + 12..at + 16];
  }

  /** Writing the source's own records changes nothing. */
  lemma TabledUnedited(bank: seq<byte>, proposals: seq<Proposal>)
    requires |bank| == BANK_BYTES
    requires forall k :: 0 <= k < |proposals| ==>
      proposals[k].End() <= BANK_BYTES
        && proposals[k].records == RecordsAt(bank, proposals[k].at, |proposals[k].records|)
    ensures Tabled(bank, proposals) == bank
  {
    hide RecordsAt, RecordsBytes, Paint;
    TablesFit(proposals, BANK_BYTES);
    var w := TableWrites(proposals);
    forall k | 0 <= k < |w|
      ensures w[k].data == bank[w[k].at..w[k].at + |w[k].data|]
    {
      RecordsRewritten(bank, proposals[k].at, |proposals[k].records|);
    }
    forall i | 0 <= i < BANK_BYTES
      ensures Paint(bank, w)[i] == bank[i]
    {
      PaintCopies(bank, w, bank, i);
    }
  }

  lemma {:induction false} ApplyUnedited(c: Codec, out: seq<byte>, entries: seq<Payload>, data: seq<seq<byte>>,
    spans: seq<Interval>, k: nat)
    requires |out| == BANK_BYTES && |data| == |entries| && k <= |entries|
    requires forall i :: 0 <= i < |entries| ==> data[i] == entries[i].data && 0 < |data[i]| <= MAX_OUTPUT
    ensures ApplyPayloads(c, out, entries, data, spans, k) == Ok(out)
  {
    hide Patch, OverlapsAny;
    if k > 0 {
      ApplyUnedited(c, out, entries, data, spans, k - 1);
    }
  }

  /**
   What an unedited manifest composes to: the source bank with, if it has a section, its sum
   repaired. It is refused only if a table overlaps a header or the section's header, or if the sum
   does not agree and its word is covered an odd number of times.
   */
  lemma UneditedCompose(c: Codec, m: Manifest, bank: seq<byte>, data: seq<seq<byte>>)
    requires |bank| == BANK_BYTES && Unedited(m, bank, data) && Validate(c, m, bank).Ok? && Section(bank).Ok?
    ensures var proposals := Validate(c, m, bank).value;
      if exists i :: 0 <= i < |proposals| && OverlapsAny(TableSpans(proposals)[i], ProtectedSpans(HeadersOf(bank)))
      then Compose(c, m, bank, data) == Err(TableProtected)
      else match Section(bank).value
        case None => Compose(c, m, bank, data) == Ok(bank)
        case Some(info) =>
          Compose(c, m, bank, data) ==
            if Coverage(info.descriptors, 4) % 2 == 0 || info.stored == info.calculated
            then Ok(Repaired(bank, info.calculated)) else Err(RepairFailed)
  {
    hide Validate, Section, Repaired, Coverage, OverlapsAny, HeadersOf, Found, ApplyPayloads, Tabled, RecordsAt,
      Compose, ProtectedSpans, Unedited;
    UneditedSizes(c, m, bank, data);
    ComposeEnds(c, m, bank, data);
    UneditedTables(c, m, bank, data);
    var proposals := Validate(c, m, bank).value;
    ApplyUnedited(c, bank, m.payloads, data, Spans(bank, proposals), |m.payloads|);
  }

  lemma UneditedTables(c: Codec, m: Manifest, bank: seq<byte>, data: seq<seq<byte>>)
    requires |bank| == BANK_BYTES && Unedited(m, bank, data) && Validate(c, m, bank).Ok?
    ensures var proposals := Validate(c, m, bank).value;
      (forall k :: 0 <= k < |proposals| ==> proposals[k].End() <= BANK_BYTES) && Tabled(bank, proposals) == bank
  {
    hide Validate, HeadersOf, Tabled, RecordsAt, Unedited;
    ProposalsFit(c, m, bank);
    var proposals := Validate(c, m, bank).value;
    forall k | 0 <= k < |proposals|
      ensures proposals[k].End() <= BANK_BYTES
        && proposals[k].records == RecordsAt(bank, proposals[k].at, |proposals[k].records|)
    {
      SourceRecords(c, m, bank, data, proposals[k]);
    }
    TabledUnedited(bank, proposals);
  }

  lemma UneditedSizes(c: Codec, m: Manifest, bank: seq<byte>, data: seq<seq<byte>>)
    requires Unedited(m, bank, data) && Validate(c, m, bank).Ok?
    ensures |data| == |m.payloads|
    ensures forall i :: 0 <= i < |data| ==> data[i] == m.payloads[i].data && 0 < |data[i]| <= MAX_OUTPUT
  {
    hide Validate, HeadersOf, Found;
    EntriesFound(c, m, bank);
    forall i | 0 <= i < |data|
      ensures 0 < |data[i]| <= MAX_OUTPUT
    {
      FoundFits(c, bank, m.payloads[i]);
    }
  }

  // ----- Extracted manifests -----

  /** Strictly rising numbers. */
  ghost predicate Rising(s: seq<int>) {
    forall i, j :: 0 <= i < j < |s| ==> s[i] < s[j]
  }

  function HeaderOffsets(tables: seq<LaunchTable>): (r: seq<int>)
    ensures |r| == |tables|
  {
    seq(|tables|, i requires 0 <= i < |tables| => tables[i].headerOffset)
  }

  lemma {:induction false} HeadersRise(bank: seq<byte>, candidates: seq<int>)
    requires Rising(candidates)
    ensures Rising(HeaderOffsets(SourceHeaders(bank, candidates)))
    ensures forall t :: t in SourceHeaders(bank, candidates) ==> t.headerOffset in candidates
  {
    hide ParseLaunchTable;
    if candidates != [] {
      var n := |candidates| - 1;
      HeadersRise(bank, candidates[..n]);
      var before := SourceHeaders(bank, candidates[..n]);
      forall t | t in before
        ensures t.headerOffset in candidates && t.headerOffset < candidates[n]
      {
        var k :| 0 <= k < n && candidates[..n][k] == t.headerOffset;
        assert candidates[k] < candidates[n];
      }
      if ParseLaunchTable(bank, candidates[n], RUNTIME_BANK_BASE).Ok? {
        HeaderOfParse(bank, candidates[n]);
      }
      var all := HeaderOffsets(SourceHeaders(bank, candidates));
      forall i, j | 0 <= i < j < |all|
        ensures all[i] < all[j]
      {
        assert i < |before| && before[i] in before && all[i] == before[i].headerOffset;
        if j < |before| {
          assert HeaderOffsets(before)[i] < HeaderOffsets(before)[j];
        }
      }
    }
  }

  lemma HeaderOfParse(bank: seq<byte>, header: int)
    requires ParseLaunchTable(bank, header, RUNTIME_BANK_BASE).Ok?
    ensures ParseLaunchTable(bank, header, RUNTIME_BANK_BASE).value.headerOffset == header
  {
  }

  function Offsets(payloads: seq<Payload>): (r: seq<int>)
    ensures |r| == |payloads|
  {
    seq(|payloads|, i requires 0 <= i < |payloads| => payloads[i].offset)
  }

  lemma {:induction false} ParsedInOrder(c: Codec, bank: seq<byte>, offsets: seq<int>, budget: int)
    ensures var r := ParseEachType8(c, bank, offsets, budget);
      r.Ok? ==> Offsets(r.value) == offsets && forall p :: p in r.value ==> p.Type8?
    ensures var r := ParseEachNested(c, bank, offsets, budget);
      r.Ok? ==> Offsets(r.value) == offsets && forall p :: p in r.value ==> p.Nested?
    decreases |offsets|
  {
    hide Expand, InflateRegion, Sum, U32At;
    if offsets != [] {
      if ParseType8(c, bank, offsets[0], budget).Ok? {
        ParsedInOrder(c, bank, offsets[1..], budget - |ParseType8(c, bank, offsets[0], budget).value.data|);
      }
      if ParseNested(c, bank, offsets[0], budget).Ok? {
        ParsedInOrder(c, bank, offsets[1..], budget - |ParseNested(c, bank, offsets[0], budget).value.data|);
      }
    }
  }

  lemma {:induction false} ScanRises(c: Codec, bank: seq<byte>, from: nat, found: nat)
    requires ScanNested(c, bank, from, found).Ok?
    ensures Rising(ScanNested(c, bank, from, found).value)
    ensures forall o :: o in ScanNested(c, bank, from, found).value ==> from <= o
    decreases |bank| - from
  {
    hide ParseNested;
    if from + NESTED_HEADER_BYTES <= |bank| {
      if ParseNested(c, bank, from, MAX_OUTPUT).Err? {
        ScanRises(c, bank, from + 4, found);
      } else {
        ScanRises(c, bank, from + 4, found + 1);
        var more := ScanNested(c, bank, from + 4, found + 1).value;
        assert forall j :: 0 <= j < |more| ==> more[j] in more;
      }
    }
  }

  /** An inventory matches itself: no payload is in it twice. */
  lemma InventoryMatches(c: Codec, bank: seq<byte>, tables: seq<LaunchTable>)
    requires Inventory(c, bank, tables).Ok?
    ensures PayloadsMatch(Inventory(c, bank, tables).value, Inventory(c, bank, tables).value)
  {
    hide ParseEachType8, ParseEachNested, ScanNested, Type8Offsets;
    var offsets := Sorting.Ascending(Type8Offsets(tables));
    var type8 := ParseEachType8(c, bank, offsets, MAX_OUTPUT).value;
    ParsedInOrder(c, bank, offsets, MAX_OUTPUT);
    var scanned := ScanNested(c, bank, 0, 0).value;
    ScanRises(c, bank, 0, 0);
    ParsedInOrder(c, bank, scanned, MAX_OUTPUT);
    Distinct(type8, ParseEachNested(c, bank, scanned, MAX_OUTPUT).value);
  }

  lemma Distinct(type8: seq<Payload>, nested: seq<Payload>)
    requires (forall p :: p in type8 ==> p.Type8?) && (forall p :: p in nested ==> p.Nested?)
    requires Rising(Offsets(type8)) && Rising(Offsets(nested))
    ensures PayloadsMatch(type8 + nested, type8 + nested)
  {
    var all := type8 + nested;
    forall i, j | 0 <= j < i < |all|
      ensures all[j] != all[i]
    {
      if i < |type8| {
        assert Offsets(type8)[j] < Offsets(type8)[i];
      } else if j >= |type8| {
        assert Offsets(nested)[j - |type8|] < Offsets(nested)[i - |type8|];
      } else {
        assert all[j] in type8 && all[i] in nested;
      }
    }
  }

  function DescribedAll(tables: seq<LaunchTable>): (headers: seq<HeaderEntry>)
    ensures |headers| == |tables|
  {
    seq(|tables|, i requires 0 <= i < |tables| => Described(tables[i]))
  }

  lemma DescribedFaultless(tables: seq<LaunchTable>, k: nat)
    requires k < |tables| && Rising(HeaderOffsets(tables)) && RecordsValid(tables[k].records)
    ensures HeaderFault(Described(tables[k]), DescribedAll(tables)[..k], tables) == None
    ensures Records(Described(tables[k])) == tables[k].records
  {
    hide RecordsValid;
    var h, before := Described(tables[k]), DescribedAll(tables)[..k];
    assert Records(h) == tables[k].records;
    assert Describes(h, tables[k]) && tables[k] in tables;
    forall b | b in before
      ensures b.headerOffset != h.headerOffset
    {
      var j :| 0 <= j < k && before[j] == b;
      assert HeaderOffsets(tables)[j] < HeaderOffsets(tables)[k];
    }
  }

  /** Two tables at one offset whose only terminals are last have equally many records. */
  lemma SameTable(bank: seq<byte>, at: nat, m: nat, n: nat)
    requires at + RECORD_BYTES * m <= |bank| && at + RECORD_BYTES * n <= |bank|
    requires OnlyTerminalLast(RecordsAt(bank, at, m)) && OnlyTerminalLast(RecordsAt(bank, at, n))
    ensures m == n
  {
    hide RecordAt;
    var a, b := RecordsAt(bank, at, m), RecordsAt(bank, at, n);
    var last := (if m < n then m else n) - 1;
    assert a[last] == b[last];
  }

  /** The source's own records are accepted exactly when every table's are valid. */
  lemma {:induction false} ProposalsOfSource(bank: seq<byte>, tables: seq<LaunchTable>, k: nat)
    requires k <= |tables| && Rising(HeaderOffsets(tables))
    requires forall t :: t in tables ==> TableIn(bank, t) && RecordsValid(t.records)
    ensures Proposals(DescribedAll(tables)[..k], tables).Ok?
    ensures forall p :: p in Proposals(DescribedAll(tables)[..k], tables).value ==>
      exists t :: t in tables && p == Proposal(t.tableOffset, t.records)
  {
    hide HeaderFault, RecordAt, RecordsAt, RecordValid, Records, Rising;
    if k > 0 {
      var n := k - 1;
      ProposalsOfSource(bank, tables, n);
      DescribedFaultless(tables, n);
      assert DescribedAll(tables)[..k][..n] == DescribedAll(tables)[..n];
      assert DescribedAll(tables)[..k][n] == Described(tables[n]);
      var before := Proposals(DescribedAll(tables)[..n], tables).value;
      var p := Proposal(tables[n].tableOffset, tables[n].records);
      forall q | q in before && q.at == p.at
        ensures q.records == p.records
      {
        var t :| t in tables && q == Proposal(t.tableOffset, t.records);
        assert tables[n] in tables;
        SameTable(bank, p.at, |t.records|, |tables[n].records|);
      }
    }
  }

  /**
   The manifest of an extraction is unedited, and it validates against its bank exactly when every
   launch table of the bank holds known records with the only terminal last.
   */
  lemma ExtractedValidates(c: Codec, bank: seq<byte>, m: Manifest, data: seq<seq<byte>>)
    requires Extract(c, bank) == Ok(m) && |data| == |m.payloads|
    requires forall i :: 0 <= i < |data| ==> data[i] == m.payloads[i].data
    ensures Unedited(m, bank, data)
    ensures Validate(c, m, bank).Ok? <==> forall t :: t in HeadersOf(bank) ==> RecordsValid(t.records)
  {
    hide Inventory, RecordsValid, ParseLaunchTable, PayloadsMatch, Section, Proposals, Describes, RecordsAt, Rising,
      Records, HeadersOf;
    var tables := HeadersOf(bank);
    ExtractedTables(bank);
    ExtractedUnedited(bank, m);
    InventoryMatches(c, bank, tables);
    assert m.headers == DescribedAll(tables);
    if forall t :: t in tables ==> RecordsValid(t.records) {
      ProposalsOfSource(bank, tables, |tables|);
      assert DescribedAll(tables)[..|tables|] == m.headers;
    }
    if Proposals(m.headers, tables).Ok? {
      forall t | t in tables
        ensures RecordsValid(t.records)
      {
        var k :| 0 <= k < |tables| && tables[k] == t;
        ProposalsFacts(m.headers, tables);
        assert m.headers[k] in m.headers;
        DescribedRecords(t);
      }
    }
  }

  lemma DescribedRecords(t: LaunchTable)
    ensures Records(Described(t)) == t.records && Describes(Described(t), t)
  {
  }

  lemma ExtractedTables(bank: seq<byte>)
    ensures Rising(HeaderOffsets(HeadersOf(bank))) && |HeadersOf(bank)| <= 4
    ensures forall t :: t in HeadersOf(bank) ==> TableIn(bank, t)
  {
    HeadersRise(bank, HEADER_CANDIDATES);
    HeadersCount(bank, HEADER_CANDIDATES);
  }

  lemma {:induction false} HeadersCount(bank: seq<byte>, candidates: seq<int>)
    ensures |SourceHeaders(bank, candidates)| <= |candidates|
  {
    hide ParseLaunchTable;
    if candidates != [] {
      HeadersCount(bank, candidates[..|candidates| - 1]);
    }
  }

  lemma ExtractedUnedited(bank: seq<byte>, m: Manifest)
    requires m.headers == DescribedAll(HeadersOf(bank))
    ensures forall h, t :: h in m.headers && t in HeadersOf(bank) && Describes(h, t) ==> Records(h) == t.records
  {
    hide Records, ParseLaunchTable, HeadersOf;
    var tables := HeadersOf(bank);
    forall h, t | h in m.headers && t in tables && Describes(h, t)
      ensures Records(h) == t.records
    {
      var k :| 0 <= k < |tables| && m.headers[k] == h;
      assert tables[k] in tables && tables[k].headerOffset == t.headerOffset;
      DescribedRecords(tables[k]);
    }
  }

  // ----- The inventory is complete -----

  /** The scan finds exactly the aligned offsets at which a nested payload parses. */
  lemma {:induction false} ScanFinds(c: Codec, bank: seq<byte>, from: nat, found: nat, o: int)
    requires from % 4 == 0 && ScanNested(c, bank, from, found).Ok?
    ensures o in ScanNested(c, bank, from, found).value <==> from <= o && ParseNested(c, bank, o, MAX_OUTPUT).Ok?
    decreases |bank| - from
  {
    hide InflateRegion, Sum, U32At;
    if from + NESTED_HEADER_BYTES <= |bank| {
      if ParseNested(c, bank, from, MAX_OUTPUT).Err? {
        ScanFinds(c, bank, from + 4, found, o);
      } else {
        ScanFinds(c, bank, from + 4, found + 1, o);
      }
    }
  }

  /**
   The inventory holds a payload exactly when the bank holds it at its offset and, for a type-8 one, a
   mapped record names that offset.
   */
  lemma InventoryIff(c: Codec, bank: seq<byte>, tables: seq<LaunchTable>, p: Payload)
    requires Inventory(c, bank, tables).Ok?
    ensures p in Inventory(c, bank, tables).value <==>
      Found(c, bank, p) && (p.Type8? ==> p.offset in Type8Offsets(tables))
  {
    hide ParseEachType8, ParseEachNested, ScanNested, Type8Offsets, ParseType8, ParseNested;
    var offsets := Sorting.Ascending(Type8Offsets(tables));
    var type8 := ParseEachType8(c, bank, offsets, MAX_OUTPUT).value;
    var scanned := ScanNested(c, bank, 0, 0).value;
    var nested := ParseEachNested(c, bank, scanned, MAX_OUTPUT).value;
    ParsedInOrder(c, bank, offsets, MAX_OUTPUT);
    ParsedInOrder(c, bank, scanned, MAX_OUTPUT);
    Type8sFound(c, bank, offsets, MAX_OUTPUT);
    NestedsFound(c, bank, scanned, MAX_OUTPUT);
    ScanFinds(c, bank, 0, 0, p.offset);
    if p.Type8? {
      ListedIff(c, bank, type8, offsets, p);
    } else {
      ListedIff(c, bank, nested, scanned, p);
    }
    assert Inventory(c, bank, tables).value == type8 + nested;
  }

  /** In a list of found payloads of one kind, a payload is listed exactly when it is found at a listed offset. */
  lemma ListedIff(c: Codec, bank: seq<byte>, list: seq<Payload>, offsets: seq<int>, p: Payload)
    requires Offsets(list) == offsets && forall q :: q in list ==> Found(c, bank, q) && q.Type8? == p.Type8?
    ensures p in list <==> Found(c, bank, p) && p.offset as int in offsets
  {
    hide ParseType8, ParseNested;
    if p in list {
      var k :| 0 <= k < |list| && list[k] == p;
      assert offsets[k] == p.offset;
    }
    if Found(c, bank, p) && p.offset as int in offsets {
      var k :| 0 <= k < |offsets| && offsets[k] == p.offset;
      assert list[k] in list && list[k].offset == p.offset;
    }
  }
}
