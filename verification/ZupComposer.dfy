/** firmware/zup_extract.py's `compose_bank` as it runs: one buffer, patched in place by loops. */
module ZupComposer {
  import opened Bytes
  import opened Wrappers
  import opened Codec
  import opened ZupBank
  import opened ZupSection
  import opened ZupLaunch
  import opened ZupPayloads
  import opened ZupCompose
  import ZupComposed
  import Sorting

  // ----- Validation -----

  lemma {:induction false} FirstProposalFault(headers: seq<HeaderEntry>, sources: seq<LaunchTable>, i: nat)
    requires i <= |headers| && Proposals(headers[..i], sources).Err?
    ensures Proposals(headers, sources) == Proposals(headers[..i], sources)
  {
    hide HeaderFault;
    if i == |headers| {
      assert headers[..i] == headers;
    } else {
      var n := |headers| - 1;
      assert headers[..n][..i] == headers[..i];
      FirstProposalFault(headers[..n], sources, i);
    }
  }

  /** The header loop of `_validate_source_manifest`, which keeps one proposal for each table. */
  method CollectProposals(headers: seq<HeaderEntry>, sources: seq<LaunchTable>)
    returns (r: Result<seq<Proposal>, ComposeFault>)
    ensures r == Proposals(headers, sources)
  {
    hide HeaderFault, Records;
    var proposals: seq<Proposal> := [];
    for i := 0 to |headers|
      invariant Proposals(headers[..i], sources) == Ok(proposals)
    {
      var h := headers[i];
      assert headers[..i + 1][..i] == headers[..i];
      var fault := HeaderFault(h, headers[..i], sources);
      if fault.Some? || h.tableOffset < 0 {
        FirstProposalFault(headers, sources, i + 1);
        return Err(if fault.Some? then fault.value else HeaderInventory);
      }
      var p := Proposal(h.tableOffset, Records(h));
      if exists q :: q in proposals && q.at == p.at && q.records != p.records {
        FirstProposalFault(headers, sources, i + 1);
        return Err(HeadersDisagree);
      }
      if p !in proposals {
        proposals := proposals + [p];
      }
    }
    assert headers[..|headers|] == headers;
    return Ok(proposals);
  }

  /** `_validate_source_manifest`. */
  method ValidateManifest(c: Codec, m: Manifest, bank: seq<byte>) returns (r: Result<seq<Proposal>, ComposeFault>)
    ensures r == Validate(c, m, bank)
  {
    hide Proposals, Inventory, PayloadsMatch, HeadersOf;
    if m.bank != bank {
      return Err(BankMismatch);
    }
    if |m.headers| > MAX_LAUNCH_HEADERS || |m.payloads| > MAX_PAYLOAD_FILES {
      return Err(ManifestStructure);
    }
    var sources := HeadersOf(bank);
    if |m.headers| != |sources| {
      return Err(HeaderInventory);
    }
    var proposals :- CollectProposals(m.headers, sources);
    var inventory :- Inventory(c, bank, sources);
    if !PayloadsMatch(m.payloads, inventory) {
      return Err(PayloadInventory);
    }
    return Ok(Sorting.Sort(proposals, ProposalBefore));
  }

  // ----- Tables -----

  lemma SpliceSame(s: seq<byte>, at: nat, patch: seq<byte>)
    requires at + |patch| <= |s| && s[at..at + |patch|] == patch
    ensures Splice(s, at, patch) == s
  {
  }

  lemma SpliceTwice(s: seq<byte>, at: nat, a: seq<byte>, b: seq<byte>)
    requires at + |a| + |b| <= |s|
    ensures Splice(Splice(s, at, a), at + |a|, b) == Splice(s, at, a + b)
  {
  }

  /** A record is packed only where it differs from what is there. */
  method WriteRecord(out: array<byte>, at: nat, r: Record)
    requires at + RECORD_BYTES <= out.Length
    modifies out
    ensures out[..] == Splice(old(out[..]), at, RecordBytes(r))
  {
    hide RecordBytes, Splice;
    var current := RecordAt(out[..], at);
    if current != r {
      Put(out, at, RecordBytes(r));
    } else {
      ZupComposed.RecordRewritten(out[..], at);
      SpliceSame(out[..], at, RecordBytes(r));
    }
  }

  method WriteTable(out: array<byte>, p: Proposal)
    requires p.End() <= out.Length
    modifies out
    ensures out[..] == Splice(old(out[..]), p.at, RecordsBytes(p.records))
  {
    hide RecordBytes, Splice;
    ghost var canvas := out[..];
    SpliceSame(canvas, p.at, RecordsBytes([]));
    assert p.records[..0] == [];
    for i := 0 to |p.records|
      invariant out[..] == Splice(canvas, p.at, RecordsBytes(p.records[..i]))
    {
      WriteRecord(out, p.at + i * RECORD_BYTES, p.records[i]);
      assert p.records[..i + 1][..i] == p.records[..i];
      SpliceTwice(canvas, p.at, RecordsBytes(p.records[..i]), RecordBytes(p.records[i]));
    }
    assert p.records[..|p.records|] == p.records;
  }

  /** The table loop of `compose_bank`. */
  method WriteTables(out: array<byte>, proposals: seq<Proposal>) returns (spans: seq<Interval>)
    requires forall k :: 0 <= k < |proposals| ==> proposals[k].End() <= out.Length
    modifies out
    ensures Fits(TableWrites(proposals), out.Length)
    ensures out[..] == Paint(old(out[..]), TableWrites(proposals)) && spans == TableSpans(proposals)
  {
    hide RecordsBytes, Splice, Paint;
    ghost var canvas := out[..];
    ghost var writes := TableWrites(proposals);
    TablesFit(proposals, out.Length);
    ZupComposed.PaintNone(canvas, writes[..0]);
    spans := [];
    for i := 0 to |proposals|
      invariant out[..] == Paint(canvas, writes[..i])
      invariant spans == TableSpans(proposals)[..i]
    {
      PaintStep(canvas, writes, i);
      spans := spans + [Interval(proposals[i].at, proposals[i].End())];
      WriteTable(out, proposals[i]);
    }
    assert writes[..|writes|] == writes;
  }

  /** The check of every table against the protected spans. */
  method AnyProtected(tables: seq<Interval>, spans: seq<Interval>) returns (hit: bool)
    ensures hit <==> exists i :: 0 <= i < |tables| && OverlapsAny(tables[i], spans)
  {
    for i := 0 to |tables|
      invariant forall j :: 0 <= j < i ==> !OverlapsAny(tables[j], spans)
    {
      for g := 0 to |spans|
        invariant forall k :: 0 <= k < g ==> !Overlap(tables[i], spans[k])
      {
        if Overlap(tables[i], spans[g]) {
          assert OverlapsAny(tables[i], spans);
          return true;
        }
      }
      assert !OverlapsAny(tables[i], spans);
    }
    return false;
  }

  // ----- Payloads -----

  lemma {:induction false} FirstApplyFault(c: Codec, out: seq<byte>, entries: seq<Payload>, data: seq<seq<byte>>,
    spans: seq<Interval>, k: nat, n: nat)
    requires |out| == BANK_BYTES && |data| == |entries| && k <= n <= |entries|
    requires ApplyPayloads(c, out, entries, data, spans, k).Err?
    ensures ApplyPayloads(c, out, entries, data, spans, n) == ApplyPayloads(c, out, entries, data, spans, k)
  {
    hide ApplyOne;
    if n > k {
      FirstApplyFault(c, out, entries, data, spans, k, n - 1);
    }
  }

  /** The payload loop of `compose_bank`; the buffer is left as far as it got when it stops early. */
  method ApplyEntries(c: Codec, out: array<byte>, entries: seq<Payload>, data: seq<seq<byte>>, spans: seq<Interval>)
    returns (fault: Option<ComposeFault>)
    requires out.Length == BANK_BYTES && |data| == |entries|
    modifies out
    ensures match ApplyPayloads(c, old(out[..]), entries, data, spans, |entries|)
      case Err(f) => fault == Some(f)
      case Ok(edited) => fault == None && out[..] == edited
  {
    hide Patch, Splice, OverlapsAny;
    ghost var canvas := out[..];
    for k := 0 to |entries|
      invariant ApplyPayloads(c, canvas, entries, data, spans, k) == Ok(out[..])
    {
      if ApplyOne(c, out[..], entries[k], data[k], spans).Err? {
        FirstApplyFault(c, canvas, entries, data, spans, k + 1, |entries|);
      }
      if data[k] == [] || |data[k]| > MAX_OUTPUT {
        return Some(ReplacementSize);
      }
      if data[k] != entries[k].data {
        var patch := Patch(c, out[..], entries[k], data[k]);
        if patch.Err? {
          return Some(patch.fault);
        }
        if OverlapsAny(Interval(entries[k].offset, entries[k].offset + |patch.value|), spans) {
          return Some(SpanProtected);
        }
        Put(out, entries[k].offset, patch.value);
      }
    }
    return None;
  }

  // ----- The whole composition -----

  /** The end of `compose_bank`, on the buffer. */
  method RepairSection(source: Option<SectionInfo>, out: array<byte>) returns (r: Result<seq<byte>, ComposeFault>)
    requires out.Length == BANK_BYTES
    modifies out
    ensures r == FinishSection(source, old(out[..]))
  {
    hide Section;
    var read := ReadSection(out[..]);
    if read.Err? {
      return Err(BadSection);
    }
    var now := read.value;
    if source == None {
      return if now == None then Ok(out[..]) else Err(SectionChanged);
    }
    if now == None || now.value.descriptors != source.value.descriptors {
      return Err(SectionChanged);
    }
    Put(out, CHECK_WORD, Be32(now.value.calculated));
    var checked := ReadSection(out[..]);
    if checked.Err? {
      return Err(BadSection);
    }
    if checked.value == None || checked.value.value.stored != checked.value.value.calculated {
      return Err(RepairFailed);
    }
    return Ok(out[..]);
  }

  /** `compose_bank`. */
  method ComposeBank(c: Codec, m: Manifest, bank: seq<byte>, data: seq<seq<byte>>)
    returns (r: Result<seq<byte>, ComposeFault>)
    requires |data| == |m.payloads|
    ensures r == Compose(c, m, bank, data)
  {
    hide Validate, HeadersOf, Section, ApplyPayloads, FinishSection, Paint, OverlapsAny, TableWrites, TableSpans,
      ProtectedSpans;
    if |bank| != BANK_BYTES {
      return Err(ComposeBankSize);
    }
    var proposals :- ValidateManifest(c, m, bank);
    ProposalsFit(c, m, bank);
    var source := ReadSection(bank);
    if source.Err? {
      return Err(BadSection);
    }
    var out := new byte[BANK_BYTES](i requires 0 <= i < BANK_BYTES => bank[i]);
    assert out[..] == bank;
    var tables := WriteTables(out, proposals);
    var spans := ProtectedSpans(HeadersOf(bank));
    var hit := AnyProtected(tables, spans);
    if hit {
      return Err(TableProtected);
    }
    var fault := ApplyEntries(c, out, m.payloads, data, spans + tables);
    if fault.Some? {
      return Err(fault.value);
    }
    r := RepairSection(source.value, out);
  }
}
