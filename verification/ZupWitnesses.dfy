/**
 Banks on which firmware/zup_extract.py's composition does something surprising: a launch header
 lost to the repaired sum, a sum that cannot be repaired, an edited record overwritten by another
 table, and a replacement that is accepted but not found again.
 */
module ZupWitnesses {
  import opened Bytes
  import opened Wrappers
  import opened Codec
  import opened ZupBank
  import opened ZupSection
  import opened ZupLaunch
  import opened ZupPayloads
  import opened ZupCompose
  import opened ZupComposed
  import Sorting

  // ----- Banks given by their words -----

  type Words = map<nat, u32>

  function Word(words: Words, at: nat): u32 {
    if at in words then words[at] else 0
  }

  /** The bank that is zero but for some words at offsets that are multiples of four. */
  function BankOf(words: Words): (bank: seq<byte>)
    ensures |bank| == BANK_BYTES
  {
    seq(BANK_BYTES, i requires 0 <= i < BANK_BYTES => Be32(Word(words, i / 4 * 4))[i % 4])
  }

  lemma BankSlice(words: Words, at: nat)
    requires at % 4 == 0 && at + 4 <= BANK_BYTES
    ensures BankOf(words)[at..at + 4] == Be32(Word(words, at))
  {
    hide Digits;
    forall i | 0 <= i < 4
      ensures BankOf(words)[at..at + 4][i] == Be32(Word(words, at))[i]
    {
      assert (at + i) / 4 * 4 == at && (at + i) % 4 == i;
    }
  }

  lemma BankWord(words: Words, at: nat)
    requires at % 4 == 0 && at + 4 <= BANK_BYTES
    ensures U32At(BankOf(words), at) == Word(words, at)
  {
    hide Value, Digits;
    BankSlice(words, at);
    WordRoundTrip(Word(words, at));
  }

  function WordsRecord(words: Words, at: nat): Record {
    Record(Word(words, at), Word(words, at + 4), Word(words, at + 8), Word(words, at + 12))
  }

  lemma BankRecord(words: Words, at: nat)
    requires at % RECORD_BYTES == 0 && at + RECORD_BYTES <= BANK_BYTES
    ensures RecordAt(BankOf(words), at) == WordsRecord(words, at)
  {
    hide Value, BankOf, U32At;
    WordAligned(at);
    BankWord(words, at);
    BankWord(words, at + 4);
    BankWord(words, at + 8);
    BankWord(words, at + 12);
  }

  lemma WordAligned(at: nat)
    requires at % RECORD_BYTES == 0
    ensures at % 4 == (at + 4) % 4 == (at + 8) % 4 == (at + 12) % 4 == 0
  {
    assert at == 16 * (at / 16);
  }

  function OneHeader(bank: seq<byte>, header: int): seq<LaunchTable> {
    match ParseLaunchTable(bank, header, RUNTIME_BANK_BASE) case Ok(t) => [t] case Err(_) => []
  }

  lemma FourHeaders(bank: seq<byte>)
    ensures HeadersOf(bank)
      == OneHeader(bank, 0) + OneHeader(bank, 0x40000) + OneHeader(bank, 0x40100) + OneHeader(bank, 0x70000)
  {
    hide ParseLaunchTable;
    var all := HEADER_CANDIDATES;
    assert all[..3][..2] == all[..2] && all[..2][..1] == all[..1] && all[..1][..0] == [];
    assert SourceHeaders(bank, all[..1]) == OneHeader(bank, 0);
    assert SourceHeaders(bank, all[..2]) == OneHeader(bank, 0) + OneHeader(bank, 0x40000);
    assert SourceHeaders(bank, all[..3]) == SourceHeaders(bank, all[..2]) + OneHeader(bank, 0x40100);
  }

  /** The bank holds table `t` if its words are the header's and its records are there. */
  lemma HeaderPresent(words: Words, t: LaunchTable)
    requires t.headerOffset % RECORD_BYTES == 0 && t.headerOffset + RECORD_BYTES <= BANK_BYTES
    requires Word(words, t.headerOffset) == t.field0 && Word(words, t.headerOffset + 4) == t.tableAddress
    requires Word(words, t.headerOffset + 8) == |t.records| && Word(words, t.headerOffset + 12) == t.field3
    requires t.tableAddress == RUNTIME_BANK_BASE + t.tableOffset && t.tableOffset % RECORD_BYTES == 0
    requires 0 < |t.records| <= MAX_LAUNCH_RECORDS && t.tableOffset + RECORD_BYTES * |t.records| <= BANK_BYTES
    requires forall i :: 0 <= i < |t.records| ==> t.records[i] == WordsRecord(words, t.tableOffset + RECORD_BYTES * i)
    ensures OneHeader(BankOf(words), t.headerOffset) == [t]
  {
    hide BankOf, RecordAt, RecordsAt, ParseLaunchTable, WordsRecord, OneHeader;
    RecordWords(words, t.headerOffset);
    OneParsed(BankOf(words), t);
    BankRecord(words, t.headerOffset);
    RecordsPresent(words, t.tableOffset, t.records);
    ParsesTo(BankOf(words), t);
  }

  lemma RecordWords(words: Words, at: nat)
    ensures WordsRecord(words, at)
      == Record(Word(words, at), Word(words, at + 4), Word(words, at + 8), Word(words, at + 12))
  {
  }

  lemma OneParsed(bank: seq<byte>, t: LaunchTable)
    ensures ParseLaunchTable(bank, t.headerOffset, RUNTIME_BANK_BASE) == Ok(t) ==>
      OneHeader(bank, t.headerOffset) == [t]
  {
    hide ParseLaunchTable;
  }

  lemma ParsesTo(bank: seq<byte>, t: LaunchTable)
    requires |bank| == BANK_BYTES && t.headerOffset % RECORD_BYTES == 0 && t.headerOffset + RECORD_BYTES <= BANK_BYTES
    requires t.tableAddress == RUNTIME_BANK_BASE + t.tableOffset && t.tableOffset % RECORD_BYTES == 0
    requires 0 < |t.records| <= MAX_LAUNCH_RECORDS && t.tableOffset + RECORD_BYTES * |t.records| <= BANK_BYTES
    requires RecordAt(bank, t.headerOffset) == Record(t.field0, t.tableAddress, |t.records|, t.field3)
    requires RecordsAt(bank, t.tableOffset, |t.records|) == t.records
    ensures ParseLaunchTable(bank, t.headerOffset, RUNTIME_BANK_BASE) == Ok(t)
  {
    hide RecordAt, RecordsAt;
  }

  lemma RecordsPresent(words: Words, at: nat, records: seq<Record>)
    requires at % RECORD_BYTES == 0 && at + RECORD_BYTES * |records| <= BANK_BYTES
    requires forall i :: 0 <= i < |records| ==> records[i] == WordsRecord(words, at + RECORD_BYTES * i)
    ensures RecordsAt(BankOf(words), at, |records|) == records
  {
    hide BankOf, RecordAt, WordsRecord;
    forall i | 0 <= i < |records|
      ensures RecordsAt(BankOf(words), at, |records|)[i] == records[i]
    {
      RecordAligned(at, i);
      BankRecord(words, at + RECORD_BYTES * i);
    }
  }

  lemma RecordAligned(at: nat, i: nat)
    requires at % RECORD_BYTES == 0
    ensures (at + RECORD_BYTES * i) % RECORD_BYTES == 0
  {
    assert at + 16 * i == 16 * (at / 16 + i);
  }

  /** There is no header where the record count is out of range. */
  lemma HeaderAbsent(words: Words, header: nat)
    requires header % RECORD_BYTES == 0 && header + RECORD_BYTES <= BANK_BYTES
    requires !(0 < Word(words, header + 8) <= MAX_LAUNCH_RECORDS)
    ensures OneHeader(BankOf(words), header) == []
  {
    hide BankOf, RecordAt, Word, RecordsAt;
    BankRecord(words, header);
    assert RecordAt(BankOf(words), header).field2 == Word(words, header + 8);
  }

  /** A scan of a bank without the start of a nested header finds nothing. */
  lemma {:induction false} ScanNothing(c: Codec, bank: seq<byte>, from: nat, found: nat)
    requires from % 4 == 0
    requires forall o :: 0 <= o && o % 4 == 0 && o + 8 <= |bank| ==> bank[o..o + 4] != KBZ || U32At(bank, o + 4) != 2
    ensures ScanNested(c, bank, from, found) == Ok([])
    decreases |bank| - from
  {
    hide InflateRegion, Sum, U32At;
    if from + NESTED_HEADER_BYTES <= |bank| {
      ScanNothing(c, bank, from + 4, found);
    }
  }

  /** No nested header starts at a word. */
  ghost predicate NoMagic(words: Words) {
    forall at :: at in words && words[at] == KBZ_WORD ==> Word(words, at + 4) != 2
  }

  const KBZ_WORD: u32 := 0x2B6B627A

  lemma MagicWord()
    ensures Be32(KBZ_WORD) == KBZ && Value(KBZ) == KBZ_WORD
  {
    assert Digits(0x2B, 1) == [0x2B];
    assert Digits(0x2B6B, 2) == [0x2B, 0x6B];
    assert Digits(0x2B6B62, 3) == [0x2B, 0x6B, 0x62];
    WordRoundTrip(KBZ_WORD);
  }

  lemma NothingNested(c: Codec, words: Words)
    requires NoMagic(words)
    ensures ScanNested(c, BankOf(words), 0, 0) == Ok([])
  {
    hide BankOf, ScanNested, U32At;
    forall o | 0 <= o && o % 4 == 0 && o + 8 <= BANK_BYTES
      ensures BankOf(words)[o..o + 4] != KBZ || U32At(BankOf(words), o + 4) != 2
    {
      BankSlice(words, o);
      BankWord(words, o + 4);
      WordRoundTrip(Word(words, o));
      MagicWord();
    }
    ScanNothing(c, BankOf(words), 0, 0);
  }

  /** Without type-8 records and nested headers there is no payload. */
  lemma NoPayloads(c: Codec, words: Words, tables: seq<LaunchTable>)
    requires NoMagic(words)
    requires forall t, r :: t in tables && r in t.records ==> r.kind != 8
    ensures Inventory(c, BankOf(words), tables) == Ok([]) && Type8Offsets(tables) == {}
  {
    hide BankOf, ScanNested;
    NothingNested(c, words);
    assert Type8Offsets(tables) == {};
    EmptyInventory(c, BankOf(words), tables);
  }

  lemma EmptyInventory(c: Codec, bank: seq<byte>, tables: seq<LaunchTable>)
    requires ScanNested(c, bank, 0, 0) == Ok([]) && Type8Offsets(tables) == {}
    ensures Inventory(c, bank, tables) == Ok([])
  {
    hide ScanNested, Type8Offsets;
    var none: seq<int> := [];
    assert Sorting.Ascending(Type8Offsets(tables)) == none;
    assert ParseEachType8(c, bank, none, MAX_OUTPUT) == Ok([]);
    assert ParseEachNested(c, bank, none, MAX_OUTPUT) == Ok([]);
    var nothing: seq<Payload> := [];
    assert nothing + nothing == nothing;
  }

  /** Words of zeros fold to nothing. */
  lemma {:induction false} FoldZeros(bank: seq<byte>, start: nat, m: nat, n: nat, acc: u32)
    requires m <= n && start + 4 * n <= |bank|
    requires forall k :: m <= k < n ==> U32At(bank, start + 4 * k) == 0
    ensures Fold(bank, start, n, acc) == Fold(bank, start, m, acc)
  {
    hide U32At, Xor;
    if m < n {
      FoldZeros(bank, start, m, n - 1, acc);
      XorLaws(Fold(bank, start, n - 1, acc), 0);
    }
  }

  // ----- A launch header lost to the repaired sum -----

  const SHARED_HEADER: Words := map[
    0x40000 := 0x12340004, 0x40004 := 0x0CF8_1000, 0x40008 := 1, 0x4000C := 1, 0x40010 := 1, 0x40014 := 1,
    0x1000 := 3]

  /** The magic word, the stored sum and the first two descriptors are also a launch header. */
  const SHARED_TABLE := LaunchTable(0x40000, 0x12340004, 0x0CF8_1000, 0x1000, 1, [Record(3, 0, 0, 0)])

  lemma SharedTable()
    ensures HeadersOf(BankOf(SHARED_HEADER)) == [SHARED_TABLE]
  {
    hide BankOf, OneHeader, HeadersOf;
    FourHeaders(BankOf(SHARED_HEADER));
    HeaderAbsent(SHARED_HEADER, 0);
    HeaderPresent(SHARED_HEADER, SHARED_TABLE);
    HeaderAbsent(SHARED_HEADER, 0x40100);
    HeaderAbsent(SHARED_HEADER, 0x70000);
  }

  /** Its four equal ranges of zeros leave the seed of the sum. */
  lemma SharedSection()
    ensures Section(BankOf(SHARED_HEADER)) == Ok(Some(SectionInfo(0x0CF8_1000, CHECKSUM_SEED, [1, 1, 1, 1])))
  {
    hide BankOf, U32At, Fold;
    var bank := BankOf(SHARED_HEADER);
    SectionOf(SHARED_HEADER);
    forall acc: u32
      ensures Fold(bank, 0, 64, acc) == acc
    {
      ZeroRange(SHARED_HEADER, acc);
    }
    assert Calculated(bank, [1, 1, 1, 1], 0) == CHECKSUM_SEED;
    assert Calculated(bank, [1, 1, 1, 1], 1) == CHECKSUM_SEED;
    assert Calculated(bank, [1, 1, 1, 1], 2) == CHECKSUM_SEED;
    assert Calculated(bank, [1, 1, 1, 1], 3) == CHECKSUM_SEED;
  }

  lemma ZeroRange(words: Words, acc: u32)
    requires forall at :: 0 <= at < 0x100 ==> at !in words
    ensures Fold(BankOf(words), 0, 64, acc) == acc
  {
    hide BankOf, U32At;
    forall k | 0 <= k < 64
      ensures U32At(BankOf(words), 0 + 4 * k) == 0
    {
      BankWord(words, 4 * k);
    }
    FoldZeros(BankOf(words), 0, 0, 64, acc);
  }

  /** The words of a section's header. */
  lemma SectionOf(words: Words)
    ensures var bank := BankOf(words);
      && U32At(bank, SECTION_OFFSET) == Word(words, 0x40000) && U32At(bank, CHECK_WORD) == Word(words, 0x40004)
      && Descriptors(bank)
        == [Word(words, 0x40008), Word(words, 0x4000C), Word(words, 0x40010), Word(words, 0x40014)]
  {
    hide BankOf, U32At;
    BankWord(words, 0x40000);
    BankWord(words, 0x40004);
    BankWord(words, 0x40008);
    BankWord(words, 0x4000C);
    BankWord(words, 0x40010);
    BankWord(words, 0x40014);
  }

  /** An extraction without payloads whose tables are valid is unedited and validates. */
  lemma ExtractsPlain(c: Codec, bank: seq<byte>) returns (m: Manifest)
    requires |bank| == BANK_BYTES && Section(bank).Ok? && Inventory(c, bank, HeadersOf(bank)) == Ok([])
    requires Type8Offsets(HeadersOf(bank)) == {}
    requires forall t, r :: t in HeadersOf(bank) && r in t.records ==> r.kind != 8
    requires forall t :: t in HeadersOf(bank) ==> RecordsValid(t.records)
    ensures Extract(c, bank) == Ok(m) && m.payloads == [] && Unedited(m, bank, []) && Validate(c, m, bank).Ok?
  {
    hide Section, HeadersOf, Inventory, Type8Offsets, Unedited, Validate, RecordsValid;
    m := Extract(c, bank).value;
    ExtractedValidates(c, bank, m, []);
  }

  /**
   A bank whose unedited extraction composes to one without the launch header that it had: the
   repair writes the seed of the sum over the header's table address.
   */
  lemma HeaderLost(c: Codec) returns (bank: seq<byte>, m: Manifest)
    ensures ParseLaunchTable(bank, SECTION_OFFSET, RUNTIME_BANK_BASE).Ok?
    ensures Extract(c, bank) == Ok(m) && m.payloads == []
    ensures Compose(c, m, bank, []).Ok?
    ensures ParseLaunchTable(Compose(c, m, bank, []).value, SECTION_OFFSET, RUNTIME_BANK_BASE).Err?
  {
    hide BankOf, U32At, Section, Repaired, Validate, Compose, Inventory, Type8Offsets, Extract, Unedited, HeadersOf;
    bank := BankOf(SHARED_HEADER);
    SharedTable();
    SharedSection();
    assert SHARED_TABLE in HeadersOf(bank);
    NoPayloads(c, SHARED_HEADER, [SHARED_TABLE]);
    m := ExtractsPlain(c, bank);
    UneditedCompose(c, m, bank, []);
    SharedUnprotected(c, m, bank);
    RepairedWords(bank, CHECKSUM_SEED, CHECK_WORD);
    assert Coverage([1, 1, 1, 1], 4) == 0;
  }

  lemma SharedUnprotected(c: Codec, m: Manifest, bank: seq<byte>)
    requires Validate(c, m, bank).Ok? && HeadersOf(bank) == [SHARED_TABLE]
    ensures var proposals := Validate(c, m, bank).value;
      forall i :: 0 <= i < |proposals| ==> !OverlapsAny(TableSpans(proposals)[i], ProtectedSpans(HeadersOf(bank)))
  {
    hide Validate, HeadersOf, RecordsValid;
    ProposalsFit(c, m, bank);
  }

  // ----- A sum that cannot be repaired -----

  /** The first range covers the stored word, the other three are equal. */
  function OddlyCovered(stored: u32): Words {
    map[0x40000 := SECTION_MAGIC, 0x40004 := stored, 0x40008 := 0x0400_0001, 0x4000C := 1, 0x40010 := 1, 0x40014 := 1]
  }

  lemma NoTable(stored: u32)
    ensures HeadersOf(BankOf(OddlyCovered(stored))) == []
  {
    hide BankOf, OneHeader, HeadersOf;
    var words := OddlyCovered(stored);
    FourHeaders(BankOf(words));
    HeaderAbsent(words, 0);
    HeaderAbsent(words, 0x40000);
    HeaderAbsent(words, 0x40100);
    HeaderAbsent(words, 0x70000);
  }

  /** The sum is odd exactly when the stored word is even. */
  lemma OddSection(stored: u32)
    ensures var bank := BankOf(OddlyCovered(stored));
      && Section(bank).Ok? && Section(bank).value.Some?
      && Section(bank).value.value.descriptors == [0x0400_0001, 1, 1, 1]
      && Section(bank).value.value.stored == stored
      && Section(bank).value.value.calculated % 2 != stored % 2
  {
    hide BankOf, U32At, Fold;
    var words := OddlyCovered(stored);
    var bank, d := BankOf(words), [0x0400_0001, 1, 1, 1];
    SectionOf(words);
    forall acc: u32
      ensures Fold(bank, 0, 64, acc) == acc
    {
      ZeroRange(words, acc);
    }
    var first := Fold(bank, 0x40000, 64, CHECKSUM_SEED);
    HeaderRange(stored);
    assert Calculated(bank, d, 0) == CHECKSUM_SEED;
    assert Calculated(bank, d, 1) == first;
    assert Calculated(bank, d, 2) == first;
    assert Calculated(bank, d, 3) == first;
  }

  lemma HeaderRange(stored: u32)
    ensures Fold(BankOf(OddlyCovered(stored)), 0x40000, 64, CHECKSUM_SEED) % 2 != stored % 2
  {
    hide BankOf, U32At, Xor;
    var words := OddlyCovered(stored);
    var bank := BankOf(words);
    forall k | 6 <= k < 64
      ensures U32At(bank, 0x40000 + 4 * k) == 0
    {
      BankWord(words, 0x40000 + 4 * k);
    }
    FoldZeros(bank, 0x40000, 6, 64, CHECKSUM_SEED);
    BankWord(words, 0x40000);
    BankWord(words, 0x40004);
    BankWord(words, 0x40008);
    BankWord(words, 0x4000C);
    BankWord(words, 0x40010);
    BankWord(words, 0x40014);
    assert Fold(bank, 0x40000, 0, CHECKSUM_SEED) == CHECKSUM_SEED;
    FoldParity(bank, 0x40000, 1, CHECKSUM_SEED);
    FoldParity(bank, 0x40000, 2, CHECKSUM_SEED);
    FoldParity(bank, 0x40000, 3, CHECKSUM_SEED);
    FoldParity(bank, 0x40000, 4, CHECKSUM_SEED);
    FoldParity(bank, 0x40000, 5, CHECKSUM_SEED);
    FoldParity(bank, 0x40000, 6, CHECKSUM_SEED);
  }

  lemma FoldParity(bank: seq<byte>, start: nat, n: nat, acc: u32)
    requires n > 0 && start + 4 * n <= |bank|
    ensures Fold(bank, start, n, acc) % 2
      == if Fold(bank, start, n - 1, acc) % 2 == U32At(bank, start + 4 * (n - 1)) % 2 then 0 else 1
  {
    hide U32At;
    XorHalves(Fold(bank, start, n - 1, acc), U32At(bank, start + 4 * (n - 1)));
  }

  /** Banks, one for every stored word, whose own extraction cannot be composed. */
  lemma RepairFails(c: Codec, stored: u32) returns (bank: seq<byte>, m: Manifest)
    ensures |bank| == BANK_BYTES && U32At(bank, CHECK_WORD) == stored
    ensures Extract(c, bank) == Ok(m) && m.payloads == []
    ensures Compose(c, m, bank, []) == Err(RepairFailed)
  {
    hide BankOf, U32At, Section, Repaired, Validate, Compose, Inventory, Type8Offsets, Extract, Unedited, HeadersOf;
    bank := BankOf(OddlyCovered(stored));
    NoTable(stored);
    OddSection(stored);
    SectionOf(OddlyCovered(stored));
    NoPayloads(c, OddlyCovered(stored), []);
    m := ExtractsPlain(c, bank);
    UneditedCompose(c, m, bank, []);
    ProposalsFit(c, m, bank);
    assert Coverage([0x0400_0001, 1, 1, 1], 4) == 1;
  }

  // ----- An edited record overwritten by another table -----

  /** Headers at 0 and 0x70000; the second table is the last record of the first. */
  const SHARED_RECORD: Words := map[
    0x4 := 0x0CF8_1000, 0x8 := 2, 0x70004 := 0x0CF8_1010, 0x70008 := 1, 0x1000 := 4, 0x1010 := 3]

  const TERMINAL := Record(3, 0, 0, 0)
  const OUTER_TABLE := LaunchTable(0, 0, 0x0CF8_1000, 0x1000, 0, [Record(4, 0, 0, 0), TERMINAL])
  const INNER_TABLE := LaunchTable(0x70000, 0, 0x0CF8_1010, 0x1010, 0, [TERMINAL])

  /** The outer table's terminal is edited, the inner table is left alone. */
  const EDITED_RECORDS := [Record(4, 0, 0, 0), Record(3, 9, 9, 9)]

  lemma SharedRecord()
    ensures HeadersOf(BankOf(SHARED_RECORD)) == [OUTER_TABLE, INNER_TABLE]
    ensures Section(BankOf(SHARED_RECORD)) == Ok(None)
  {
    hide BankOf, OneHeader, HeadersOf, Section;
    FourHeaders(BankOf(SHARED_RECORD));
    OuterPresent();
    HeaderAbsent(SHARED_RECORD, 0x40000);
    HeaderAbsent(SHARED_RECORD, 0x40100);
    InnerPresent();
    NoSection(SHARED_RECORD);
  }

  lemma OuterPresent()
    ensures OneHeader(BankOf(SHARED_RECORD), 0) == [OUTER_TABLE]
  {
    hide BankOf, OneHeader;
    HeaderPresent(SHARED_RECORD, OUTER_TABLE);
  }

  lemma InnerPresent()
    ensures OneHeader(BankOf(SHARED_RECORD), 0x70000) == [INNER_TABLE]
  {
    hide BankOf, OneHeader;
    HeaderPresent(SHARED_RECORD, INNER_TABLE);
  }

  function OverlapManifest(bank: seq<byte>): Manifest {
    Manifest(bank, [Described(OUTER_TABLE.(records := EDITED_RECORDS)), Described(INNER_TABLE)], [])
  }

  const OVERLAPPING := [Proposal(0x1000, EDITED_RECORDS), Proposal(0x1010, [TERMINAL])]

  lemma OneMoreProposal(headers: seq<HeaderEntry>, h: HeaderEntry, sources: seq<LaunchTable>, before: seq<Proposal>)
    requires Proposals(headers, sources) == Ok(before) && HeaderFault(h, headers, sources) == None && h.tableOffset >= 0
    requires forall q :: q in before ==> q.at != h.tableOffset
    ensures Proposals(headers + [h], sources) == Ok(before + [Proposal(h.tableOffset, Records(h))])
  {
    hide HeaderFault, Records;
    assert (headers + [h])[..|headers|] == headers;
  }

  lemma OverlapProposals(outer: HeaderEntry, inner: HeaderEntry)
    requires outer == Described(OUTER_TABLE.(records := EDITED_RECORDS)) && inner == Described(INNER_TABLE)
    ensures Proposals([outer, inner], [OUTER_TABLE, INNER_TABLE]) == Ok(OVERLAPPING)
  {
    hide HeaderFault;
    var sources := [OUTER_TABLE, INNER_TABLE];
    OverlapFaultless(outer, inner);
    assert Records(outer) == EDITED_RECORDS && Records(inner) == [TERMINAL];
    OneMoreProposal([], outer, sources, []);
    assert [] + [outer] == [outer] && [] + [OVERLAPPING[0]] == [OVERLAPPING[0]];
    OneMoreProposal([outer], inner, sources, [OVERLAPPING[0]]);
    assert [outer] + [inner] == [outer, inner] && [OVERLAPPING[0]] + [OVERLAPPING[1]] == OVERLAPPING;
  }

  lemma OverlapFaultless(outer: HeaderEntry, inner: HeaderEntry)
    requires outer == Described(OUTER_TABLE.(records := EDITED_RECORDS)) && inner == Described(INNER_TABLE)
    ensures HeaderFault(outer, [], [OUTER_TABLE, INNER_TABLE]) == None
    ensures HeaderFault(inner, [outer], [OUTER_TABLE, INNER_TABLE]) == None
  {
    var sources := [OUTER_TABLE, INNER_TABLE];
    assert Records(outer) == EDITED_RECORDS && Records(inner) == [TERMINAL];
    assert Describes(outer, sources[0]) && Describes(inner, sources[1]);
  }

  lemma OverlapSorted()
    ensures Sorting.Sort(OVERLAPPING, ProposalBefore) == OVERLAPPING
  {
    var first, second := OVERLAPPING[0], OVERLAPPING[1];
    assert OVERLAPPING[1..] == [second] && [second][1..] == [];
    assert Sorting.Sort([second], ProposalBefore) == [second];
  }

  lemma OverlapValidates(c: Codec)
    ensures var bank := BankOf(SHARED_RECORD);
      Validate(c, OverlapManifest(bank), bank) == Ok(OVERLAPPING)
  {
    hide BankOf, HeadersOf, Inventory, Described, Proposals, Type8Offsets;
    var bank := BankOf(SHARED_RECORD);
    SharedRecord();
    NoPayloads(c, SHARED_RECORD, [OUTER_TABLE, INNER_TABLE]);
    OverlapProposals(OverlapManifest(bank).headers[0], OverlapManifest(bank).headers[1]);
    OverlapSorted();
  }

  lemma OverlapStages(c: Codec, bank: seq<byte>)
    requires |bank| == BANK_BYTES && HeadersOf(bank) == [OUTER_TABLE, INNER_TABLE]
    requires forall k :: 0 <= k < |OVERLAPPING| ==> OVERLAPPING[k].End() <= BANK_BYTES
    ensures Stage(c, bank, OVERLAPPING, [], []).Ok?
  {
    hide HeadersOf, Tabled;
  }

  lemma OverlapKept()
    ensures !Kept(OVERLAPPING, OVERLAPPING[0]) && Kept(OVERLAPPING, OVERLAPPING[1])
  {
    var outer, inner := OVERLAPPING[0], OVERLAPPING[1];
    var o := outer.at + RECORD_BYTES * 1;
    assert LastCover(OVERLAPPING, 1, o) && RecordFor(inner, o) == TERMINAL && outer.records[1] != TERMINAL;
    OneLastCover(OVERLAPPING);
    forall k, j | 0 <= k < |inner.records| && 0 <= j < 2 && LastCover(OVERLAPPING, j, inner.at + RECORD_BYTES * k)
      ensures RecordFor(OVERLAPPING[j], inner.at + RECORD_BYTES * k) == inner.records[k]
    {
      assert inner.at + RECORD_BYTES * k == o;
    }
  }

  /** An edited record that composition accepts and loses: the composed bank still holds the source's. */
  lemma EditLost(c: Codec) returns (bank: seq<byte>, m: Manifest)
    ensures HeadersOf(bank) == [OUTER_TABLE, INNER_TABLE] && m.payloads == []
    ensures |m.headers| == 2 && Describes(m.headers[0], OUTER_TABLE) && Records(m.headers[0]) == EDITED_RECORDS
    ensures Compose(c, m, bank, []).Ok?
    ensures ParseLaunchTable(Compose(c, m, bank, []).value, 0, RUNTIME_BANK_BASE)
      != Ok(OUTER_TABLE.(records := EDITED_RECORDS))
    ensures |Compose(c, m, bank, []).value| == BANK_BYTES && RecordAt(Compose(c, m, bank, []).value, 0x1010) == TERMINAL
  {
    hide BankOf, U32At, Section, Validate, HeadersOf, RecordAt, Compose, Stage, Kept;
    bank := BankOf(SHARED_RECORD);
    m := OverlapManifest(bank);
    SharedRecord();
    OverlapValidates(c);
    ComposeEnds(c, m, bank, []);
    ProposalsFit(c, m, bank);
    OverlapStages(c, bank);
    OverlapKept();
    assert Records(m.headers[0]) == EDITED_RECORDS;
    ComposeTables(c, m, bank, [], m.headers[0], OUTER_TABLE);
    ProposalHeld(c, m, bank, [], OVERLAPPING[1]);
    assert RecordsAt(Compose(c, m, bank, []).value, 0x1010, 1)[0] == TERMINAL;
  }

  // ----- A replacement that is accepted but not found again -----

  /** A padded stream of one byte whose destination is the last byte of the bank. */
  const LAST_BYTE: Words := map[
    0x4 := 0x0CF8_1000, 0x8 := 2, 0x1000 := 8, 0x1004 := 0x0CF8_2000, 0x1010 := 3,
    0x2000 := 1, 0x2004 := 0x7FFFF, 0x2008 := 0x0202_0107]

  const LOADING_TABLE := LaunchTable(0, 0, 0x0CF8_1000, 0x1000, 0, [Record(8, 0x0CF8_2000, 0, 0), TERMINAL])
  const LOADED := Type8(0x2000, 1, 0x7FFFF, 5, 0, [7])

  lemma LoadingTable()
    ensures HeadersOf(BankOf(LAST_BYTE)) == [LOADING_TABLE] && Section(BankOf(LAST_BYTE)) == Ok(None)
  {
    hide BankOf, OneHeader, HeadersOf, Section;
    FourHeaders(BankOf(LAST_BYTE));
    LoadingPresent();
    HeaderAbsent(LAST_BYTE, 0x40000);
    HeaderAbsent(LAST_BYTE, 0x40100);
    HeaderAbsent(LAST_BYTE, 0x70000);
    NoSection(LAST_BYTE);
  }

  lemma LoadingPresent()
    ensures OneHeader(BankOf(LAST_BYTE), 0) == [LOADING_TABLE]
  {
    hide BankOf, OneHeader;
    HeaderPresent(LAST_BYTE, LOADING_TABLE);
  }

  lemma NoSection(words: Words)
    requires Word(words, SECTION_OFFSET) != SECTION_MAGIC
    ensures Section(BankOf(words)) == Ok(None)
  {
    hide BankOf, U32At;
    BankWord(words, SECTION_OFFSET);
  }

  lemma LoadingOffsets()
    ensures Type8Offsets([LOADING_TABLE]) == {0x2000}
  {
    assert LOADING_TABLE.records[0] in LOADING_TABLE.records;
    assert 0x2000 in Type8Offsets([LOADING_TABLE]);
  }

  lemma LoadedStream()
    ensures BankOf(LAST_BYTE)[0x2008..][..9] == [2, 2, 1, 7, 0, 0, 0, 0, 0]
  {
    hide BankOf, Digits;
    BankSlice(LAST_BYTE, 0x2008);
    BankSlice(LAST_BYTE, 0x200C);
    BankSlice(LAST_BYTE, 0x2010);
    PaddedWord();
    var rest := BankOf(LAST_BYTE)[0x2008..];
    assert rest[..4] == BankOf(LAST_BYTE)[0x2008..0x200C] && rest[4..8] == BankOf(LAST_BYTE)[0x200C..0x2010];
    assert rest[8] == BankOf(LAST_BYTE)[0x2010..0x2014][0];
    assert rest[..9] == rest[..4] + rest[4..8] + [rest[8]];
  }

  lemma PaddedWord()
    ensures Be32(0x0202_0107) == [2, 2, 1, 7] && Be32(0) == [0, 0, 0, 0]
  {
    assert Digits(2, 1) == [2];
    assert Digits(0x202, 2) == [2, 2];
    assert Digits(0x20201, 3) == [2, 2, 1];
    assert Digits(0, 1) == [0];
    assert Digits(0, 2) == [0, 0];
    assert Digits(0, 3) == [0, 0, 0];
  }

  lemma LoadedExpands(stored: seq<byte>)
    requires |stored| >= 9 && stored[..9] == [2, 2, 1, 7, 0, 0, 0, 0, 0]
    ensures Expand(MARKING, stored, 1) == Ok(Expansion([7], 5, 0))
  {
    hide Value, Unmarked;
    var front: seq<byte> := [2, 2, 1, 7, 0];
    PaddedStream();
    assert front[..5] == stored[..9][..5] == stored[..5];
    UnmarkedPrefix(front, stored);
    assert stored[5..9] == stored[..9][5..9] == [0, 0, 0, 0];
    assert Swapped(stored[5..9]) == Be32(0) by {
      PaddedWord();
    }
    WordRoundTrip(0);
  }

  lemma PaddedStream()
    ensures Unmarked([2, 2, 1, 7, 0]) == Stream([7], 5)
  {
    assert Unmarked([0]) == Stream([], 1);
    assert [1, 7, 0][2..] == [0] && Unmarked([1, 7, 0]) == Stream([7], 3);
    assert [2, 1, 7, 0][1..] == [1, 7, 0] && Unmarked([2, 1, 7, 0]) == Stream([7], 4);
    assert [2, 2, 1, 7, 0][1..] == [2, 1, 7, 0];
  }

  lemma LoadedParses()
    ensures ParseType8(MARKING, BankOf(LAST_BYTE), 0x2000, MAX_OUTPUT) == Ok(LOADED)
  {
    hide BankOf, U32At, Expand;
    var bank := BankOf(LAST_BYTE);
    BankWord(LAST_BYTE, 0x2000);
    BankWord(LAST_BYTE, 0x2004);
    LoadedStream();
    LoadedExpands(bank[0x2008..]);
  }

  lemma LoadedInventory()
    ensures Inventory(MARKING, BankOf(LAST_BYTE), [LOADING_TABLE]) == Ok([LOADED])
  {
    hide BankOf, ParseType8, ScanNested, Type8Offsets;
    var bank := BankOf(LAST_BYTE);
    LoadingOffsets();
    LoadedParses();
    NothingNested(MARKING, LAST_BYTE);
    OneAscending(0x2000);
    var one, none: seq<int> := [0x2000], [];
    assert one[1..] == none;
    assert ParseEachType8(MARKING, bank, none, MAX_OUTPUT - 1) == Ok([]);
    var nothing: seq<Payload> := [];
    assert [LOADED] + nothing == [LOADED];
    assert ParseEachType8(MARKING, bank, one, MAX_OUTPUT) == Ok([LOADED] + nothing);
    assert ParseEachNested(MARKING, bank, none, MAX_OUTPUT) == Ok([]);
  }

  lemma OneAscending(x: int)
    ensures Sorting.Ascending({x}) == [x]
  {
    assert {x} - {x} == {};
    assert Sorting.Minimum({x}) in {x};
    assert Sorting.Ascending({x} - {x}) == [];
  }

  /**
   A codec with padding, a manifest and a replacement of two bytes for one: composition accepts it, its
   hypotheses hold together, and the payload is not found again.
   */
  lemma ReplacementLost() returns (bank: seq<byte>, m: Manifest)
    ensures Extract(MARKING, bank) == Ok(m) && m.payloads == [LOADED]
    ensures Composed(MARKING, m, bank, [[1, 2]])
    ensures ParseType8(MARKING, Compose(MARKING, m, bank, [[1, 2]]).value, LOADED.offset, MAX_OUTPUT).Err?
  {
    hide BankOf, Section, Validate, HeadersOf, Inventory, Type8Offsets, Compose, Edits, Stage, ParseType8, Extract,
      Lawful;
    bank := BankOf(LAST_BYTE);
    var c, data := MARKING, [[1, 2]];
    LoadingTable();
    LoadingOffsets();
    LoadedInventory();
    m := ExtractsLoaded(bank);
    LoadedStages(bank, m, Validate(c, m, bank).value);
    ComposeEnds(c, m, bank, data);
    MarkingIsLawful();
    ComposePayloads(c, m, bank, data, 0);
  }

  lemma ExtractsLoaded(bank: seq<byte>) returns (m: Manifest)
    requires |bank| == BANK_BYTES && Section(bank).Ok? && HeadersOf(bank) == [LOADING_TABLE]
    requires Inventory(MARKING, bank, [LOADING_TABLE]) == Ok([LOADED]) && Type8Offsets([LOADING_TABLE]) == {0x2000}
    ensures Extract(MARKING, bank) == Ok(m) && m.payloads == [LOADED]
    ensures Unedited(m, bank, [[7]]) && Validate(MARKING, m, bank).Ok?
  {
    hide Section, HeadersOf, Inventory, Type8Offsets, Unedited, Validate;
    m := Extract(MARKING, bank).value;
    ExtractedValidates(MARKING, bank, m, [[7]]);
  }

  lemma LoadedStages(bank: seq<byte>, m: Manifest, proposals: seq<Proposal>)
    requires |bank| == BANK_BYTES && HeadersOf(bank) == [LOADING_TABLE] && m.payloads == [LOADED]
    requires Unedited(m, bank, [[7]]) && Validate(MARKING, m, bank) == Ok(proposals)
    ensures Edits(MARKING, m, bank, [[1, 2]]).Ok?
  {
    hide HeadersOf, Tabled, Unedited, Validate, ApplyOne, ProtectedSpans, TableSpans, OverlapsAny;
    var c, data := MARKING, [[1, 2]];
    ProposalsFit(c, m, bank);
    UneditedTables(c, m, bank, [[7]]);
    EntriesFound(c, m, bank);
    assert m.payloads[0] == LOADED;
    LoadedClear(proposals);
    var spans := ProtectedSpans([LOADING_TABLE]) + TableSpans(proposals);
    LoadedApplies(bank, spans);
    assert ApplyPayloads(c, bank, m.payloads, data, spans, 0) == Ok(bank);
    assert ApplyPayloads(c, bank, m.payloads, data, spans, 1).Ok?;
  }

  lemma LoadedClear(proposals: seq<Proposal>)
    requires forall k :: 0 <= k < |proposals| ==> ForSource(proposals[k], [LOADING_TABLE])
    ensures forall k :: 0 <= k < |proposals| ==> !OverlapsAny(TableSpans(proposals)[k], ProtectedSpans([LOADING_TABLE]))
    ensures !OverlapsAny(Interval(0x2000, 0x2011), ProtectedSpans([LOADING_TABLE]) + TableSpans(proposals))
  {
    hide RecordsValid;
  }

  /** Padding and all, the two bytes take the span of the one. */
  lemma LoadedApplies(bank: seq<byte>, spans: seq<Interval>)
    requires Found(MARKING, bank, LOADED) && |bank| == BANK_BYTES && !OverlapsAny(Interval(0x2000, 0x2011), spans)
    ensures ApplyOne(MARKING, bank, LOADED, [1, 2], spans).Ok?
  {
    hide ParseType8, Patch, OverlapsAny, Lawful;
    var c, data := MARKING, [1, 2];
    PatchIff(c, bank, LOADED, data);
    assert data[1..] == [2] && [2][1..] == [];
    assert |Marked([])| == 1 && |Marked([2])| == 3 && |Marked(data)| == 5;
    assert PackedSize(c, LOADED, data) == 17;
    MarkingIsLawful();
    PatchLocal(c, bank, bank, LOADED, data);
  }
}
