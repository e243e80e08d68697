/**
 Launch headers and records of a bank: firmware/zup_bank.py parses them, firmware/zup_extract.py
 validates proposed records, firmware/zup_launch_trace.c checks and traces them.
 */
module ZupLaunch {
  import opened Bytes
  import opened Wrappers
  import opened ZupBank
  import opened ZupSection

  const RECORD_BYTES := 16
  const MAX_LAUNCH_RECORDS := 256
  const RUNTIME_BANK_BASE := 0x0CF8_0000
  const MAX_WORDS := 0x3FFF_FFFF

  datatype Record = Record(kind: u32, field1: u32, field2: u32, field3: u32)

  datatype LaunchFault = LaunchBankSize | HeaderOffset | RuntimeBase | RecordCount | TableAddress | RecordTable

  /** A parsed launch table; record `i` is at `tableOffset + 16 * i`. */
  datatype LaunchTable = LaunchTable(
    headerOffset: nat, field0: u32, tableAddress: u32, tableOffset: nat, field3: u32, records: seq<Record>)

  function RecordAt(bank: seq<byte>, at: nat): Record
    requires at + RECORD_BYTES <= |bank|
  {
    Record(U32At(bank, at), U32At(bank, at + 4), U32At(bank, at + 8), U32At(bank, at + 12))
  }

  function RecordsAt(bank: seq<byte>, at: nat, n: nat): (records: seq<Record>)
    requires at + RECORD_BYTES * n <= |bank|
    ensures |records| == n
  {
    seq(n, i requires 0 <= i < n => RecordAt(bank, at + RECORD_BYTES * i))
  }

  /** `parse_launch_table`. */
  function ParseLaunchTable(bank: seq<byte>, header: int, base: int): (r: Result<LaunchTable, LaunchFault>)
    ensures r.Ok? ==> 0 <= header && header + RECORD_BYTES <= |bank| == BANK_BYTES
    ensures r.Ok? ==> r.value.tableOffset + RECORD_BYTES * |r.value.records| <= |bank|
    ensures r.Ok? ==> r.value.tableOffset % RECORD_BYTES == 0 && 0 < |r.value.records| <= MAX_LAUNCH_RECORDS
  {
    if |bank| != BANK_BYTES then Err(LaunchBankSize)
    else if header < 0 || header % RECORD_BYTES != 0 || header + RECORD_BYTES > |bank| then Err(HeaderOffset)
    else if base < 0 || base > 0xFFFF_FFFF - |bank| then Err(RuntimeBase)
    else
      var h := RecordAt(bank, header);
      var address, count := h.field1, h.field2;
      if !(0 < count <= MAX_LAUNCH_RECORDS) then Err(RecordCount)
      else if !(base <= address < base + |bank|) then Err(TableAddress)
      else
        var table := address - base;
        if table % RECORD_BYTES != 0 || table + count * RECORD_BYTES > |bank| then Err(RecordTable)
        else Ok(LaunchTable(header, h.kind, address, table, h.field3, RecordsAt(bank, table, count)))
  }

  // ----- Validating records -----

  predicate KnownType(t: u32) {
    1 <= t <= 0xD
  }

  /** The record at the front of `_validate_records`'s loop body, without the terminal's position. */
  predicate RecordValid(r: Record) {
    KnownType(r.kind)
    && (r.kind == 1 ==> r.field3 <= MAX_WORDS)
    && (r.kind == 2 ==> r.field2 <= MAX_WORDS)
  }

  predicate OnlyTerminalLast(records: seq<Record>) {
    records != [] && forall i :: 0 <= i < |records| ==> (records[i].kind == 3 <==> i == |records| - 1)
  }

  predicate RecordsValid(records: seq<Record>) {
    (forall i :: 0 <= i < |records| ==> RecordValid(records[i])) && OnlyTerminalLast(records)
  }

  /** `_validate_records`: the loop over a proposal for a table of `count` records. */
  method ValidateRecords(count: nat, records: seq<Record>) returns (ok: bool)
    requires count > 0
    ensures ok <==> |records| == count && RecordsValid(records)
  {
    if |records| != count {
      return false;
    }
    var terminals: seq<int> := [];
    for i := 0 to |records|
      invariant forall j :: 0 <= j < i ==> RecordValid(records[j])
      invariant forall j :: 0 <= j < i ==> (records[j].kind == 3 <==> j in terminals)
      invariant forall a :: 0 <= a < |terminals| ==> 0 <= terminals[a] < i
      invariant |terminals| > 1 ==> terminals[0] < terminals[|terminals| - 1]
    {
      var r := records[i];
      if !KnownType(r.kind) {
        return false;
      }
      if r.kind == 3 {
        terminals := terminals + [i];
      } else if r.kind == 1 && r.field3 > MAX_WORDS {
        return false;
      } else if r.kind == 2 && r.field2 > MAX_WORDS {
        return false;
      }
    }
    if OnlyTerminalLast(records) {
      assert count - 1 in terminals;
      forall a | 0 <= a < |terminals|
        ensures terminals[a] == count - 1
      {
        assert terminals[a] in terminals && records[terminals[a]].kind == 3;
      }
    }
    ok := terminals == [count - 1];
    if ok {
      assert forall j :: j in terminals <==> j == count - 1;
    }
  }

  // ----- The header and the preflight in C -----

  /** `zlt_parse_header`: 64-bit sums of 32-bit numbers, so nothing wraps. */
  function ZltParseHeader(bank: seq<byte>, header: u32, base: u32): Result<LaunchTable, Status> {
    if |bank| != BANK_BYTES then Err(ErrBankSize)
    else if header % RECORD_BYTES != 0 || header + RECORD_BYTES > |bank| then Err(ErrHeaderOffset)
    else
      var h := RecordAt(bank, header);
      var address, count := h.field1, h.field2;
      if count == 0 || count > MAX_LAUNCH_RECORDS then Err(ErrCount)
      else if base + BANK_BYTES > TWO32 then Err(ErrInput)
      else if address < base || address >= base + BANK_BYTES then Err(ErrTableAddress)
      else
        var table := address - base;
        if table % RECORD_BYTES != 0 || table + count * RECORD_BYTES > |bank| then Err(ErrTableAddress)
        else Ok(LaunchTable(header, h.kind, address, table, h.field3, RecordsAt(bank, table, count)))
  }

  /**
   The two header parsers agree on every bank, header and base but one: the last base whose bank
   still ends at the top of the 32-bit space is accepted in C and refused in Python.
   */
  lemma HeaderParsersAgree(bank: seq<byte>, header: u32, base: u32)
    ensures base != TWO32 - BANK_BYTES ==>
      (ZltParseHeader(bank, header, base).Ok? <==> ParseLaunchTable(bank, header, base).Ok?)
    ensures base == TWO32 - BANK_BYTES ==> ParseLaunchTable(bank, header, base).Err?
    ensures ParseLaunchTable(bank, header, base).Ok? ==>
      ZltParseHeader(bank, header, base) == Ok(ParseLaunchTable(bank, header, base).value)
  {
  }

  /** The last base does separate the parsers. */
  lemma HeaderParsersDiffer() returns (bank: seq<byte>)
    ensures ZltParseHeader(bank, 0, TWO32 - BANK_BYTES).Ok?
    ensures ParseLaunchTable(bank, 0, TWO32 - BANK_BYTES).Err?
  {
    var header := Be32(0) + Be32(TWO32 - BANK_BYTES) + Be32(1) + Be32(0);
    bank := header + seq(BANK_BYTES - 16, i => 0);
    assert bank[4..8] == Be32(TWO32 - BANK_BYTES) && bank[8..12] == Be32(1);
    WordRoundTrip(TWO32 - BANK_BYTES);
    WordRoundTrip(1);
  }

  function Address(b: u32, l: u32, k: nat, i: nat): nat {
    b + k * l + 16 * i
  }

  /** The 64-bit arithmetic of the preflight on one record; `None` when it goes on to the next. */
  function ZltRecordFault(r: Record): Option<Status> {
    if !KnownType(r.kind) then Some(ErrUnknownType)
    else if r.kind == 3 then None
    else if r.kind == 1 then
      if r.field3 > MAX_WORDS then Some(ErrOverflow)
      else if r.field2 + r.field3 * 4 > 0xFFFF_FFFF then Some(ErrOverflow)
      else None
    else if r.kind == 2 then
      if r.field2 > MAX_WORDS then Some(ErrOverflow)
      else if r.field1 + r.field2 * 4 > 0xFFFF_FFFF then Some(ErrOverflow)
      else None
    else if r.kind == 0xD then
      var blocks, b, l := r.field2 / 16, r.field1, r.field2;
      if blocks == 0 then None
      else if l > 0xFFFF_FFFF then Some(ErrOverflow)
      else
        var last := b + 3 * l + 16 * (blocks - 1);
        if last > 0xFFFF_FFFF then Some(ErrOverflow)
        else if b + l > 0xFFFF_FFFF then Some(ErrOverflow)
        else None
    else None
  }

  /**
   The record makes the boot code reach address `a`: a copy and a clear write the bytes of their
   words, type 0xD visits the four families `B + k*L + 16*i` with `i < L / 16`.
   */
  ghost predicate Reaches(r: Record, a: nat) {
    || (r.kind == 1 && r.field2 <= a < r.field2 + 4 * r.field3)
    || (r.kind == 2 && r.field1 <= a < r.field1 + 4 * r.field2)
    || (r.kind == 0xD && exists k: nat, i: nat :: k <= 3 && i < r.field2 / 16 && a == Address(r.field1, r.field2, k, i))
  }

  /** Where a copy or a clear ends: one past its last byte. */
  function WriteEnd(r: Record): nat {
    if r.kind == 1 then r.field2 + 4 * r.field3 else if r.kind == 2 then r.field1 + 4 * r.field2 else 0
  }

  /**
   What the preflight accepts of one record: known, every address that it reaches fits in 32 bits,
   and no write ends at the very top of the 32-bit space.
   */
  ghost predicate Reachable(r: Record) {
    KnownType(r.kind) && (forall a: nat :: Reaches(r, a) ==> a < TWO32) && WriteEnd(r) != TWO32
  }

  lemma RecordFaultIff(r: Record)
    ensures ZltRecordFault(r) == None <==> Reachable(r)
  {
    if r.kind == 1 || r.kind == 2 {
      WriteFaultIff(r);
    } else if r.kind == 0xD {
      FamiliesFaultIff(r);
    }
  }

  lemma WriteFaultIff(r: Record)
    requires r.kind == 1 || r.kind == 2
    ensures ZltRecordFault(r) == None <==> Reachable(r)
  {
    if WriteEnd(r) > TWO32 {
      assert Reaches(r, WriteEnd(r) - 1);
    }
  }

  lemma FamiliesFaultIff(r: Record)
    requires r.kind == 0xD
    ensures ZltRecordFault(r) == None <==> Reachable(r)
  {
    var b, l, blocks := r.field1, r.field2, r.field2 / 16;
    if blocks > 0 {
      assert Reaches(r, Address(b, l, 3, blocks - 1));
      assert Address(b, l, 3, blocks - 1) == b + 3 * l + 16 * (blocks - 1);
    }
    if ZltRecordFault(r) == None {
      forall a: nat | Reaches(r, a)
        ensures a < TWO32
      {
        var k: nat, i: nat :| k <= 3 && i < blocks && a == Address(b, l, k, i);
        assert k * l <= 3 * l;
      }
    }
  }

  /** A copy whose bytes all fit in 32 bits and that is refused: it ends with the last byte of the space. */
  lemma TopOfSpaceRefused()
    ensures var r := Record(1, 0, 0xFFFF_FFFC, 1);
      && (forall a: nat :: Reaches(r, a) <==> 0xFFFF_FFFC <= a < TWO32)
      && ZltRecordFault(r) == Some(ErrOverflow)
  {
  }

  /** `zlt_preflight` over the table at `table`. */
  method Preflight(bank: seq<byte>, table: u32, count: u32) returns (status: Status)
    requires 0 < count <= MAX_LAUNCH_RECORDS && table + RECORD_BYTES * count <= BANK_BYTES
    ensures |bank| != BANK_BYTES ==> status == ErrBankSize
    ensures |bank| == BANK_BYTES ==> status == PreflightStatus(RecordsAt(bank, table, count))
  {
    hide U32At, ZltRecordFault;
    var typeSeen, typePos := 0, 0;
    if |bank| != BANK_BYTES {
      return ErrBankSize;
    }
    ghost var records := RecordsAt(bank, table, count);
    assert records[..0] == [];
    for i := 0 to count
      invariant typeSeen == Terminals(records[..i])
      invariant typeSeen > 0 ==> 0 <= typePos < i && records[typePos].kind == 3
      invariant typeSeen > 0 ==> forall j :: typePos < j < i ==> records[j].kind != 3
      invariant FirstFault(records) == FirstFault(records[i..])
    {
      var off := table + i * RECORD_BYTES;
      var r := RecordAt(bank, off);
      assert records[i] == r && records[i..][1..] == records[i + 1..];
      TerminalsStep(records, i);
      var fault := ZltRecordFault(r);
      if fault.Some? {
        return fault.value;
      }
      if r.kind == 3 {
        typeSeen := typeSeen + 1;
        typePos := i;
      }
    }
    assert records[..count] == records && records[count..] == [];
    TerminalsPlace(records);
    if typeSeen == 0 {
      return ErrMissingTerminal;
    }
    if typeSeen != 1 || typePos != count - 1 {
      return ErrNonterminalType3;
    }
    return ZltOk;
  }

  function FirstFault(records: seq<Record>): Option<Status> {
    if records == [] then None
    else if ZltRecordFault(records[0]).Some? then ZltRecordFault(records[0])
    else FirstFault(records[1..])
  }

  function Terminals(records: seq<Record>): nat {
    if records == [] then 0
    else Terminals(records[..|records| - 1]) + if records[|records| - 1].kind == 3 then 1 else 0
  }

  /** The status of a whole table: its first faulty record, else where its terminals are. */
  function PreflightStatus(records: seq<Record>): Status {
    if FirstFault(records).Some? then FirstFault(records).value
    else if Terminals(records) == 0 then ErrMissingTerminal
    else if !OnlyTerminalLast(records) then ErrNonterminalType3
    else ZltOk
  }

  lemma TerminalsStep(records: seq<Record>, i: nat)
    requires i < |records|
    ensures Terminals(records[..i + 1]) == Terminals(records[..i]) + if records[i].kind == 3 then 1 else 0
  {
    assert records[..i + 1][..i] == records[..i];
  }

  /** One terminal, at the end, is what counting and remembering the last position finds. */
  lemma {:induction false} TerminalsPlace(records: seq<Record>)
    ensures Terminals(records) == 0 <==> forall i :: 0 <= i < |records| ==> records[i].kind != 3
    ensures OnlyTerminalLast(records) <==>
      Terminals(records) == 1 && records != [] && records[|records| - 1].kind == 3
  {
    if records != [] {
      var n := |records| - 1;
      TerminalsPlace(records[..n]);
      assert forall i :: 0 <= i < n ==> records[..n][i] == records[i];
      if OnlyTerminalLast(records) {
        assert forall i :: 0 <= i < n ==> records[..n][i].kind != 3;
      }
    }
  }

  /** The preflight accepts exactly the tables of reachable records with their only terminal last. */
  lemma PreflightIff(records: seq<Record>)
    ensures PreflightStatus(records) == ZltOk <==>
      (forall i :: 0 <= i < |records| ==> Reachable(records[i])) && OnlyTerminalLast(records)
  {
    FirstFaultIff(records);
    TerminalsPlace(records);
  }

  lemma {:induction false} FirstFaultIff(records: seq<Record>)
    ensures FirstFault(records) == None <==> forall i :: 0 <= i < |records| ==> Reachable(records[i])
    ensures FirstFault(records) != Some(ZltOk)
  {
    if records != [] {
      RecordFaultIff(records[0]);
      FirstFaultIff(records[1..]);
      assert forall i :: 0 <= i < |records| ==> records[i] == if i == 0 then records[0] else records[1..][i - 1];
    }
  }

  /** Whatever the preflight accepts, `_validate_records` accepts. */
  lemma PreflightImpliesValid(records: seq<Record>)
    ensures PreflightStatus(records) == ZltOk ==> RecordsValid(records)
  {
    hide Reachable;
    PreflightIff(records);
    if PreflightStatus(records) == ZltOk {
      forall i | 0 <= i < |records|
        ensures RecordValid(records[i])
      {
        RecordFaultIff(records[i]);
      }
    }
  }
}
