/** firmware/zup_extract.py: record and payload edits applied to a bank, in place. */
module ZupCompose {
  import opened Bytes
  import opened Wrappers
  import opened Codec
  import opened ZupBank
  import opened ZupSection
  import opened ZupLaunch
  import opened ZupPayloads
  import Sorting

  const HEADER_CANDIDATES: seq<int> := [0x0, 0x40000, 0x40100, 0x70000]
  const MAX_LAUNCH_HEADERS := 16
  const MAX_PAYLOAD_FILES := 32
  const MAX_TYPE8_PAYLOADS := 16
  const MAX_NESTED_PAYLOADS := 16

  datatype RecordEntry = RecordEntry(offset: int, record: Record)

  /** What a manifest says of one launch header. */
  datatype HeaderEntry = HeaderEntry(
    headerOffset: int, field0: int, tableAddress: int, tableOffset: int, recordCount: int, field3: int,
    records: seq<RecordEntry>)

  /** The bank it was extracted from, its headers with proposed records, and its payload inventory. */
  datatype Manifest = Manifest(bank: seq<byte>, headers: seq<HeaderEntry>, payloads: seq<Payload>)

  /** The records proposed for the table at `at`. */
  datatype Proposal = Proposal(at: nat, records: seq<Record>)
  {
    function End(): nat {
      at + RECORD_BYTES * |records|
    }
  }

  datatype ComposeFault =
    | ComposeBankSize | BankMismatch | ManifestStructure
    | HeaderInventory | BadRecords | RecordInventory | HeadersDisagree
    | TooManyPayloads | PayloadOutside | BadInventory(fault: PayloadFault) | PayloadInventory
    | BadSection | TableProtected
    | ReplacementSize | PayloadUnparsed(fault: PayloadFault) | PackRange | TooLong | SpanProtected
    | SectionChanged | RepairFailed

  // ----- The source's inventory -----

  /** `_source_headers`: the candidates that parse. */
  function SourceHeaders(bank: seq<byte>, candidates: seq<int>): (tables: seq<LaunchTable>)
    ensures forall t :: t in tables ==> ParseLaunchTable(bank, t.headerOffset, RUNTIME_BANK_BASE) == Ok(t)
  {
    if candidates == [] then []
    else
      var n := |candidates| - 1;
      SourceHeaders(bank, candidates[..n])
      + match ParseLaunchTable(bank, candidates[n], RUNTIME_BANK_BASE) case Ok(t) => [t] case Err(_) => []
  }

  function HeadersOf(bank: seq<byte>): (tables: seq<LaunchTable>)
    ensures forall t :: t in tables ==> ParseLaunchTable(bank, t.headerOffset, RUNTIME_BANK_BASE) == Ok(t)
  {
    SourceHeaders(bank, HEADER_CANDIDATES)
  }

  predicate Mapped(address: u32) {
    RUNTIME_BANK_BASE <= address < RUNTIME_BANK_BASE + BANK_BYTES
  }

  /** The bank offsets that mapped type-8 records name. */
  function Type8Offsets(tables: seq<LaunchTable>): set<int> {
    set t, r | t in tables && r in t.records && r.kind == 8 && Mapped(r.field1) :: r.field1 - RUNTIME_BANK_BASE
  }

  function ParseEachType8(c: Codec, bank: seq<byte>, offsets: seq<int>, budget: int): Result<seq<Payload>, ComposeFault>
    decreases |offsets|
  {
    if offsets == [] then Ok([])
    else match ParseType8(c, bank, offsets[0], budget)
      case Err(fault) => Err(BadInventory(fault))
      case Ok(p) =>
        var more :- ParseEachType8(c, bank, offsets[1..], budget - |p.data|);
        Ok([p] + more)
  }

  function ParseEachNested(c: Codec, bank: seq<byte>, offsets: seq<int>, budget: int):
    Result<seq<Payload>, ComposeFault>
    decreases |offsets|
  {
    if offsets == [] then Ok([])
    else match ParseNested(c, bank, offsets[0], budget)
      case Err(fault) => Err(BadInventory(fault))
      case Ok(p) =>
        var more :- ParseEachNested(c, bank, offsets[1..], budget - |p.data|);
        Ok([p] + more)
  }

  /** `_scan_nested` from `from` on, with `found` offsets already. */
  function ScanNested(c: Codec, bank: seq<byte>, from: nat, found: nat): Result<seq<int>, ComposeFault>
    decreases |bank| - from
  {
    if from + NESTED_HEADER_BYTES > |bank| then Ok([])
    else if ParseNested(c, bank, from, MAX_OUTPUT).Err? then ScanNested(c, bank, from + 4, found)
    else if found + 1 > MAX_NESTED_PAYLOADS then Err(TooManyPayloads)
    else
      var more :- ScanNested(c, bank, from + 4, found + 1);
      Ok([from as int] + more)
  }

  /** `_source_payloads`: type-8 payloads by offset, then nested ones by offset. */
  function Inventory(c: Codec, bank: seq<byte>, tables: seq<LaunchTable>): Result<seq<Payload>, ComposeFault> {
    var type8 :- ParseEachType8(c, bank, Sorting.Ascending(Type8Offsets(tables)), MAX_OUTPUT);
    var offsets :- ScanNested(c, bank, 0, 0);
    var nested :- ParseEachNested(c, bank, offsets, MAX_OUTPUT);
    Ok(type8 + nested)
  }

  /** The inventory part of `extract_package`, which refuses unmapped type-8 records and counts the payloads. */
  function Extract(c: Codec, bank: seq<byte>): Result<Manifest, ComposeFault> {
    var section := Section(bank);
    if section.Err? then Err(BadSection)
    else
      var tables := HeadersOf(bank);
      if exists t, r :: t in tables && r in t.records && r.kind == 8 && !Mapped(r.field1) then Err(PayloadOutside)
      else if |Type8Offsets(tables)| > MAX_TYPE8_PAYLOADS then Err(TooManyPayloads)
      else
        var payloads :- Inventory(c, bank, tables);
        if |payloads| > MAX_PAYLOAD_FILES then Err(TooManyPayloads)
        else Ok(Manifest(bank, seq(|tables|, i requires 0 <= i < |tables| => Described(tables[i])), payloads))
  }

  function Described(t: LaunchTable): HeaderEntry {
    HeaderEntry(t.headerOffset, t.field0, t.tableAddress, t.tableOffset, |t.records|, t.field3,
      seq(|t.records|, i requires 0 <= i < |t.records| => RecordEntry(t.tableOffset + RECORD_BYTES * i, t.records[i])))
  }

  // ----- Validating a manifest against its bank -----

  function Records(h: HeaderEntry): (r: seq<Record>)
    ensures |r| == |h.records|
  {
    seq(|h.records|, i requires 0 <= i < |h.records| => h.records[i].record)
  }

  /** The header's immutable fields are the table's. */
  predicate Describes(h: HeaderEntry, t: LaunchTable) {
    h.headerOffset == t.headerOffset && h.field0 == t.field0 && h.tableAddress == t.tableAddress
    && h.tableOffset == t.tableOffset && h.recordCount == |t.records| && h.field3 == t.field3
  }

  /** Why header `h` is refused after the headers before it, if it is. */
  function HeaderFault(h: HeaderEntry, before: seq<HeaderEntry>, sources: seq<LaunchTable>): Option<ComposeFault> {
    if exists b :: b in before && b.headerOffset == h.headerOffset then Some(HeaderInventory)
    else if !exists t :: t in sources && Describes(h, t) then Some(HeaderInventory)
    else if !(|h.records| == h.recordCount && RecordsValid(Records(h))) then Some(BadRecords)
    else if exists i :: 0 <= i < |h.records| && h.records[i].offset != h.tableOffset + RECORD_BYTES * i
      then Some(RecordInventory)
    else None
  }

  /** The proposals of the headers, one for each table, in the order they come. */
  function Proposals(headers: seq<HeaderEntry>, sources: seq<LaunchTable>): Result<seq<Proposal>, ComposeFault>
  {
    if headers == [] then Ok([])
    else
      var n := |headers| - 1;
      var before :- Proposals(headers[..n], sources);
      var h := headers[n];
      if HeaderFault(h, headers[..n], sources).Some? then Err(HeaderFault(h, headers[..n], sources).value)
      else if h.tableOffset < 0 then Err(HeaderInventory)
      else
        var p := Proposal(h.tableOffset, Records(h));
        if exists q :: q in before && q.at == p.at && q.records != p.records then Err(HeadersDisagree)
        else if p in before then Ok(before)
        else Ok(before + [p])
  }

  predicate PayloadsMatch(payloads: seq<Payload>, inventory: seq<Payload>) {
    && (forall i :: 0 <= i < |payloads| ==> payloads[i] in inventory && payloads[i] !in payloads[..i])
    && (forall p :: p in inventory ==> p in payloads)
  }

  predicate ProposalBefore(a: Proposal, b: Proposal) {
    a.at <= b.at
  }

  /** `_validate_source_manifest`: the proposals by table offset. The payload entries are the manifest's. */
  function Validate(c: Codec, m: Manifest, bank: seq<byte>): Result<seq<Proposal>, ComposeFault> {
    if m.bank != bank then Err(BankMismatch)
    else if |m.headers| > MAX_LAUNCH_HEADERS || |m.payloads| > MAX_PAYLOAD_FILES then Err(ManifestStructure)
    else
      var sources := HeadersOf(bank);
      if |m.headers| != |sources| then Err(HeaderInventory)
      else
        var proposals :- Proposals(m.headers, sources);
        var inventory :- Inventory(c, bank, sources);
        if !PayloadsMatch(m.payloads, inventory) then Err(PayloadInventory)
        else Ok(Sorting.Sort(proposals, ProposalBefore))
  }

  // ----- Editing -----

  function RecordBytes(r: Record): (b: seq<byte>)
    ensures |b| == RECORD_BYTES
  {
    Be32(r.kind) + Be32(r.field1) + Be32(r.field2) + Be32(r.field3)
  }

  function RecordsBytes(records: seq<Record>): (b: seq<byte>)
    ensures |b| == RECORD_BYTES * |records|
  {
    if records == [] then []
    else RecordsBytes(records[..|records| - 1]) + RecordBytes(records[|records| - 1])
  }

  ghost function TableWrites(proposals: seq<Proposal>): (w: seq<Write>)
    ensures |w| == |proposals|
  {
    seq(|proposals|, i requires 0 <= i < |proposals| => Write(proposals[i].at, RecordsBytes(proposals[i].records)))
  }

  predicate Overlap(a: Interval, b: Interval) {
    a.start < b.end && b.start < a.end
  }

  predicate OverlapsAny(a: Interval, spans: seq<Interval>) {
    exists i :: 0 <= i < |spans| && Overlap(a, spans[i])
  }

  function TableSpans(proposals: seq<Proposal>): (spans: seq<Interval>)
    ensures |spans| == |proposals|
  {
    seq(|proposals|, i requires 0 <= i < |proposals| => Interval(proposals[i].at, proposals[i].End()))
  }

  /** The launch headers and the section's header. */
  function ProtectedSpans(sources: seq<LaunchTable>): (spans: seq<Interval>) {
    seq(|sources|, i requires 0 <= i < |sources| =>
      Interval(sources[i].headerOffset, sources[i].headerOffset + RECORD_BYTES))
    + [Interval(SECTION_OFFSET, SECTION_OFFSET + SECTION_BYTES)]
  }

  function Pad(n: nat): (p: seq<byte>)
    ensures |p| == n
  {
    seq(n, i => 0xFF)
  }

  /** What is written at a payload's offset: the replacement, padded to the payload's span in `out`. */
  function Patch(c: Codec, out: seq<byte>, entry: Payload, data: seq<byte>): (r: Result<seq<byte>, ComposeFault>)
    requires |out| == BANK_BYTES && |data| <= MAX_OUTPUT
    ensures r.Ok? ==> entry.offset + |r.value| <= |out|
  {
    match entry
    case Type8(offset, _, _, _, _, _) =>
      (match ParseType8(c, out, offset, MAX_OUTPUT)
       case Err(fault) => Err(PayloadUnparsed(fault))
       case Ok(now) =>
         FoundFits(c, out, now);
         var replacement := out[offset..offset + 8] + RepackType8(c, data);
         if |replacement| > now.Span() then Err(TooLong) else Ok(replacement + Pad(now.Span() - |replacement|)))
    case Nested(offset, _, _, _) =>
      (match ParseNested(c, out, offset, MAX_OUTPUT)
       case Err(fault) => Err(PayloadUnparsed(fault))
       case Ok(now) =>
         FoundFits(c, out, now);
         if |NestedStored(c, data)| >= TWO32 then Err(PackRange)
         else
           var replacement := RepackNested(c, data);
           if |replacement| > now.Span() then Err(TooLong) else Ok(replacement + Pad(now.Span() - |replacement|)))
  }

  /** The payload loop over the first `k` entries and their replacement data. */
  function ApplyPayloads(c: Codec, out: seq<byte>, entries: seq<Payload>, data: seq<seq<byte>>, spans: seq<Interval>,
    k: nat):
    (r: Result<seq<byte>, ComposeFault>)
    requires |out| == BANK_BYTES && |data| == |entries| && k <= |entries|
    ensures r.Ok? ==> |r.value| == |out|
  {
    if k == 0 then Ok(out)
    else
      var before :- ApplyPayloads(c, out, entries, data, spans, k - 1);
      ApplyOne(c, before, entries[k - 1], data[k - 1], spans)
  }

  function ApplyOne(c: Codec, out: seq<byte>, entry: Payload, data: seq<byte>, spans: seq<Interval>):
    (r: Result<seq<byte>, ComposeFault>)
    requires |out| == BANK_BYTES
    ensures r.Ok? ==> |r.value| == |out|
  {
    if data == [] || |data| > MAX_OUTPUT then Err(ReplacementSize)
    else if data == entry.data then Ok(out)
    else
      var patch :- Patch(c, out, entry, data);
      if OverlapsAny(Interval(entry.offset, entry.offset + |patch|), spans) then Err(SpanProtected)
      else Ok(Splice(out, entry.offset, patch))
  }

  /** The end of `compose_bank`: the section is still the source's, and its sum is repaired. */
  function FinishSection(source: Option<SectionInfo>, out: seq<byte>): (r: Result<seq<byte>, ComposeFault>)
    requires |out| == BANK_BYTES
  {
    match Section(out)
    case Err(_) => Err(BadSection)
    case Ok(now) =>
      if source == None then
        if now == None then Ok(out) else Err(SectionChanged)
      else if now == None || now.value.descriptors != source.value.descriptors then Err(SectionChanged)
      else
        var repaired := Repaired(out, now.value.calculated);
        match Section(repaired)
        case Err(_) => Err(BadSection)
        case Ok(checked) =>
          if checked == None || checked.value.stored != checked.value.calculated then Err(RepairFailed)
          else Ok(repaired)
  }

  lemma TablesFit(proposals: seq<Proposal>, size: nat)
    requires forall i :: 0 <= i < |proposals| ==> proposals[i].End() <= size
    ensures Fits(TableWrites(proposals), size)
  {
  }

  /** The proposals written over the bank. */
  ghost function Tabled(bank: seq<byte>, proposals: seq<Proposal>): (r: seq<byte>)
    requires |bank| == BANK_BYTES
    requires forall i :: 0 <= i < |proposals| ==> proposals[i].End() <= BANK_BYTES
    ensures |r| == |bank|
  {
    TablesFit(proposals, BANK_BYTES);
    Paint(bank, TableWrites(proposals))
  }

  /** The tables and then the payloads. */
  ghost function Stage(c: Codec, bank: seq<byte>, proposals: seq<Proposal>, entries: seq<Payload>,
    data: seq<seq<byte>>):
    (r: Result<seq<byte>, ComposeFault>)
    requires |bank| == BANK_BYTES && |data| == |entries|
    requires forall i :: 0 <= i < |proposals| ==> proposals[i].End() <= BANK_BYTES
    ensures r.Ok? ==> |r.value| == BANK_BYTES
  {
    var spans := ProtectedSpans(HeadersOf(bank));
    if exists i :: 0 <= i < |proposals| && OverlapsAny(TableSpans(proposals)[i], spans) then Err(TableProtected)
    else ApplyPayloads(c, Tabled(bank, proposals), entries, data, spans + TableSpans(proposals), |entries|)
  }

  /** After validation: the tables, the payloads, the section. */
  ghost function Edit(c: Codec, bank: seq<byte>, proposals: seq<Proposal>, entries: seq<Payload>, data: seq<seq<byte>>):
    Result<seq<byte>, ComposeFault>
    requires |bank| == BANK_BYTES && |data| == |entries|
    requires forall i :: 0 <= i < |proposals| ==> proposals[i].End() <= BANK_BYTES
  {
    match Section(bank)
    case Err(_) => Err(BadSection)
    case Ok(source) =>
      var edited :- Stage(c, bank, proposals, entries, data);
      FinishSection(source, edited)
  }

  /** `compose_bank`; `data[i]` is what is read for payload entry `i`. */
  ghost function Compose(c: Codec, m: Manifest, bank: seq<byte>, data: seq<seq<byte>>): Result<seq<byte>, ComposeFault>
    requires |data| == |m.payloads|
  {
    if |bank| != BANK_BYTES then Err(ComposeBankSize)
    else
      var proposals :- Validate(c, m, bank);
      ProposalsFit(c, m, bank);
      Edit(c, bank, proposals, m.payloads, data)
  }

  // ----- What validation established -----

  /** Each proposal is for some source table and has as many records. */
  ghost predicate ForSource(p: Proposal, sources: seq<LaunchTable>) {
    RecordsValid(p.records) &&
    exists t :: t in sources && t.tableOffset == p.at && |t.records| == |p.records|
  }

  /** What an accepted header establishes. */
  ghost predicate Accepted(h: HeaderEntry, sources: seq<LaunchTable>) {
    && (exists t :: t in sources && Describes(h, t))
    && |h.records| == h.recordCount
    && h.tableOffset >= 0 && ForSource(Proposal(h.tableOffset, Records(h)), sources)
  }

  lemma FaultlessAccepted(h: HeaderEntry, before: seq<HeaderEntry>, sources: seq<LaunchTable>)
    requires HeaderFault(h, before, sources) == None && h.tableOffset >= 0
    ensures Accepted(h, sources)
  {
    hide RecordsValid;
  }

  lemma {:induction false} ProposalsFacts(headers: seq<HeaderEntry>, sources: seq<LaunchTable>)
    requires Proposals(headers, sources).Ok?
    ensures forall p :: p in Proposals(headers, sources).value ==> ForSource(p, sources)
    ensures forall h :: h in headers ==>
      Accepted(h, sources) && Proposal(h.tableOffset, Records(h)) in Proposals(headers, sources).value
  {
    hide HeaderFault, ForSource, RecordsValid, Describes, Records;
    if headers != [] {
      var n := |headers| - 1;
      ProposalsFacts(headers[..n], sources);
      FaultlessAccepted(headers[n], headers[..n], sources);
      assert headers == headers[..n] + [headers[n]];
    }
  }

  lemma SortedMembers(proposals: seq<Proposal>)
    ensures forall p :: p in Sorting.Sort(proposals, ProposalBefore) <==> p in proposals
  {
    Sorting.SortOrdered(proposals, ProposalBefore);
    var sorted := Sorting.Sort(proposals, ProposalBefore);
    forall p
      ensures p in sorted <==> p in proposals
    {
      assert p in sorted <==> p in multiset(sorted);
      assert p in proposals <==> p in multiset(proposals);
    }
  }

  lemma ProposalsFit(c: Codec, m: Manifest, bank: seq<byte>)
    requires Validate(c, m, bank).Ok?
    ensures forall i :: 0 <= i < |Validate(c, m, bank).value| ==>
      Validate(c, m, bank).value[i].End() <= BANK_BYTES && ForSource(Validate(c, m, bank).value[i], HeadersOf(bank))
  {
    hide HeadersOf, Inventory, PayloadsMatch, RecordsValid, Proposals, ParseLaunchTable;
    var sources := HeadersOf(bank);
    ProposalsFacts(m.headers, sources);
    SortedMembers(Proposals(m.headers, sources).value);
    var sorted := Validate(c, m, bank).value;
    forall i | 0 <= i < |sorted|
      ensures sorted[i].End() <= BANK_BYTES && ForSource(sorted[i], sources)
    {
      assert sorted[i] in sorted;
    }
  }

  lemma {:induction false} Type8sFound(c: Codec, bank: seq<byte>, offsets: seq<int>, budget: int)
    requires budget <= MAX_OUTPUT && ParseEachType8(c, bank, offsets, budget).Ok?
    ensures forall p :: p in ParseEachType8(c, bank, offsets, budget).value ==> Found(c, bank, p)
    decreases |offsets|
  {
    if offsets != [] {
      var p := ParseType8(c, bank, offsets[0], budget).value;
      Type8sFound(c, bank, offsets[1..], budget - |p.data|);
    }
  }

  lemma {:induction false} NestedsFound(c: Codec, bank: seq<byte>, offsets: seq<int>, budget: int)
    requires budget <= MAX_OUTPUT && ParseEachNested(c, bank, offsets, budget).Ok?
    ensures forall p :: p in ParseEachNested(c, bank, offsets, budget).value ==> Found(c, bank, p)
    decreases |offsets|
  {
    hide InflateRegion, Sum;
    if offsets != [] {
      var p := ParseNested(c, bank, offsets[0], budget).value;
      NestedsFound(c, bank, offsets[1..], budget - |p.data|);
    }
  }

  lemma InventoryFound(c: Codec, bank: seq<byte>, tables: seq<LaunchTable>)
    requires Inventory(c, bank, tables).Ok?
    ensures forall p :: p in Inventory(c, bank, tables).value ==> Found(c, bank, p)
  {
    hide Found, ParseEachType8, ParseEachNested, ScanNested, Type8Offsets;
    Type8sFound(c, bank, Sorting.Ascending(Type8Offsets(tables)), MAX_OUTPUT);
    NestedsFound(c, bank, ScanNested(c, bank, 0, 0).value, MAX_OUTPUT);
  }

  /** Every entry of a validated manifest is what its bank holds at its offset. */
  lemma EntriesFound(c: Codec, m: Manifest, bank: seq<byte>)
    requires Validate(c, m, bank).Ok?
    ensures forall i :: 0 <= i < |m.payloads| ==> Found(c, bank, m.payloads[i])
  {
    hide Found, Inventory, Proposals, HeadersOf;
    InventoryFound(c, bank, HeadersOf(bank));
  }
}
