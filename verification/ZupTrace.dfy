/** firmware/zup_launch_trace.c: the trace of a bank's launch table, event by event. */
module ZupTrace {
  import opened Bytes
  import opened Wrappers
  import opened ZupBank
  import opened ZupSection
  import opened ZupLaunch
  import Codec
  import ZupCompose
  import ZupComposed

  const MAIN_HEADER_OFFSET := 0x40100
  const MAIN_TABLE_ADDRESS := 0x0CFC_0110
  const MAIN_HEADER_ADDRESS := 0x0CFC_0100
  const MAIN_COUNT := 27
  const AUX_HEADER_OFFSET := 0x70000
  const AUX_TABLE_ADDRESS := 0x0CFF_6EE0
  const AUX_HEADER_ADDRESS := 0x0CFF_0000
  const AUX_COUNT := 18

  datatype Event =
    | Validator(isMain: bool, stored: u32, calculated: u32, header: nat)
    | Header(headerOffset: nat, table: LaunchTable)
    | Copy(index: nat, record: Record, byteCount: nat, source: Option<nat>)
    | Zero(index: nat, record: Record, byteCount: nat)
    | Terminal(index: nat, record: Record)
    | Call(index: nat, record: Record)
    | TypeD(index: nat, record: Record, blocks: nat)
    | Register(index: nat, record: Record, register: nat)

  /** The callback: whether it accepts the last event, given all that it has been shown. */
  type Callback = seq<Event> -> bool

  function RegisterFor(t: u32): nat {
    match t
    case 5 => 24
    case 6 => 25
    case 7 => 23
    case 8 => 4
    case 9 => 5
    case 0xA => 28
    case 0xB => 29
    case 0xC => 19
    case _ => 0
  }

  /** The event of record `i`. */
  function RecordEvent(i: nat, r: Record, base: u32): Event {
    if r.kind == 1 then
      Copy(i, r, 4 * r.field3, if base <= r.field1 < base + BANK_BYTES then Some(r.field1 - base) else None)
    else if r.kind == 2 then Zero(i, r, 4 * r.field2)
    else if r.kind == 3 then Terminal(i, r)
    else if r.kind == 4 then Call(i, r)
    else if r.kind == 0xD then TypeD(i, r, r.field2 / 16)
    else Register(i, r, RegisterFor(r.kind))
  }

  /** The checks before the first event: the header to use, its table, and the validator's event. */
  function Select(bank: seq<byte>, header: u32, base: u32, useValidator: bool):
    Result<(LaunchTable, seq<Event>), Status>
  {
    if |bank| != BANK_BYTES then Err(ErrBankSize)
    else if useValidator then
      match Section(bank)
      case Err(_) => Err(ErrDescriptor)
      case Ok(None) => Err(ErrMarker)
      case Ok(Some(info)) =>
        var isMain := info.calculated == info.stored;
        var offset := if isMain then MAIN_HEADER_OFFSET else AUX_HEADER_OFFSET;
        match ZltParseHeader(bank, offset, base)
        case Err(st) => Err(st)
        case Ok(t) =>
          if isMain && ((base + offset) % TWO32 != MAIN_HEADER_ADDRESS || t.tableAddress != MAIN_TABLE_ADDRESS
                        || |t.records| != MAIN_COUNT) then Err(ErrTableAddress)
          else if !isMain && ((base + offset) % TWO32 != AUX_HEADER_ADDRESS || t.tableAddress != AUX_TABLE_ADDRESS
                              || |t.records| != AUX_COUNT) then Err(ErrTableAddress)
          else if PreflightStatus(t.records) != ZltOk then Err(PreflightStatus(t.records))
          else Ok((t, [Validator(isMain, info.stored, info.calculated, offset)]))
    else
      match ZltParseHeader(bank, header, base)
      case Err(st) => Err(st)
      case Ok(t) =>
        if PreflightStatus(t.records) != ZltOk then Err(PreflightStatus(t.records)) else Ok((t, []))
  }

  /** `log` and then each event in turn, until the callback refuses one. */
  function Emit(log: seq<Event>, events: seq<Event>, cb: Callback): (Status, seq<Event>)
    decreases |events|
  {
    if events == [] then (ZltOk, log)
    else
      var shown := log + [events[0]];
      if !cb(shown) then (ErrCallback, shown) else Emit(shown, events[1..], cb)
  }

  function RecordEvents(records: seq<Record>, base: u32): (events: seq<Event>)
    ensures |events| == |records|
    ensures forall i :: 0 <= i < |records| ==> events[i] == RecordEvent(i, records[i], base)
  {
    seq(|records|, i requires 0 <= i < |records| => RecordEvent(i, records[i], base))
  }

  /** Everything an accepted bank has to show. */
  function Script(t: LaunchTable, first: seq<Event>, base: u32): seq<Event> {
    first + [Header(t.headerOffset, t)] + RecordEvents(t.records, base)
  }

  /** `zlt_trace_bank`. */
  function Trace(bank: seq<byte>, header: u32, base: u32, useValidator: bool, cb: Callback): (Status, seq<Event>) {
    match Select(bank, header, base, useValidator)
    case Err(st) => (st, [])
    case Ok((t, first)) => Emit([], Script(t, first, base), cb)
  }

  /** The checks, with the validator and the preflight run as loops. */
  method SelectHeader(bank: seq<byte>, header: u32, base: u32, useValidator: bool)
    returns (r: Result<(LaunchTable, seq<Event>), Status>)
    ensures r == Select(bank, header, base, useValidator)
  {
    hide PreflightStatus, RecordsAt, Value, Calculated, Descriptors;
    if |bank| != BANK_BYTES {
      return Err(ErrBankSize);
    }
    var offset: u32, first: seq<Event> := header, [];
    if useValidator {
      var status, stored, calculated := ValidateSection(bank);
      if status != ZltOk {
        return Err(status);
      }
      var isMain := calculated == stored;
      offset := if isMain then MAIN_HEADER_OFFSET else AUX_HEADER_OFFSET;
      first := [Validator(isMain, stored, calculated, offset)];
    }
    var parsed := ZltParseHeader(bank, offset, base);
    if parsed.Err? {
      return Err(parsed.fault);
    }
    var t := parsed.value;
    if useValidator {
      if first[0].isMain {
        if (base + offset) % TWO32 != MAIN_HEADER_ADDRESS || t.tableAddress != MAIN_TABLE_ADDRESS
           || |t.records| != MAIN_COUNT {
          return Err(ErrTableAddress);
        }
      } else {
        if (base + offset) % TWO32 != AUX_HEADER_ADDRESS || t.tableAddress != AUX_TABLE_ADDRESS
           || |t.records| != AUX_COUNT {
          return Err(ErrTableAddress);
        }
      }
    }
    var status := Preflight(bank, t.tableOffset, |t.records|);
    if status != ZltOk {
      return Err(status);
    }
    return Ok((t, first));
  }

  method TraceBank(bank: seq<byte>, header: u32, base: u32, useValidator: bool, cb: Callback)
    returns (status: Status, log: seq<Event>)
    ensures (status, log) == Trace(bank, header, base, useValidator, cb)
  {
    log := [];
    var selected := SelectHeader(bank, header, base, useValidator);
    if selected.Err? {
      return selected.fault, log;
    }
    SelectAccepts(bank, header, base, useValidator);
    status, log := ShowScript(selected.value.0, selected.value.1, base, cb);
  }

  /** The callback calls of `zlt_trace_bank`. */
  method ShowScript(t: LaunchTable, first: seq<Event>, base: u32, cb: Callback)
    returns (status: Status, log: seq<Event>)
    requires |first| <= 1
    ensures (status, log) == Emit([], Script(t, first, base), cb)
  {
    hide RecordEvent, Emit;
    log := [];
    var lead := [Header(t.headerOffset, t)];
    ghost var records := RecordEvents(t.records, base);
    ghost var whole := Emit([], Script(t, first, base), cb);
    assert Script(t, first, base) == first + (lead + records);
    EmitOne([], first, lead + records, cb);
    EmitOne(first, lead, records, cb);
    assert [] + first == first;
    if first != [] {
      log := first;
      if !cb(log) {
        return ErrCallback, log;
      }
    }
    log := log + lead;
    if !cb(log) {
      return ErrCallback, log;
    }
    for i := 0 to |t.records|
      invariant whole == Emit(log, records[i..], cb)
    {
      var event := [RecordEvent(i, t.records[i], base)];
      assert records[i..] == event + records[i + 1..];
      EmitOne(log, event, records[i + 1..], cb);
      log := log + event;
      if !cb(log) {
        return ErrCallback, log;
      }
    }
    EmitNone(log, records[|t.records|..], cb);
    return ZltOk, log;
  }

  /** At most one event shown before the others. */
  lemma EmitOne(log: seq<Event>, first: seq<Event>, rest: seq<Event>, cb: Callback)
    requires |first| <= 1
    ensures first == [] ==> Emit(log, first + rest, cb) == Emit(log + first, rest, cb)
    ensures |first| == 1 ==>
      Emit(log, first + rest, cb) == if cb(log + first) then Emit(log + first, rest, cb) else (ErrCallback, log + first)
  {
    if first == [] {
      assert first + rest == rest && log + first == log;
    } else {
      assert log + [first[0]] == log + first && (first + rest)[1..] == rest;
    }
  }

  lemma EmitNone(log: seq<Event>, events: seq<Event>, cb: Callback)
    requires events == []
    ensures Emit(log, events, cb) == (ZltOk, log)
  {
  }

  // ----- All or nothing -----

  /** What was shown is a front of the script; all of it, if the callback never refused. */
  lemma {:induction false} EmitShows(log: seq<Event>, events: seq<Event>, cb: Callback)
    ensures var (st, shown) := Emit(log, events, cb);
      && log <= shown && shown <= log + events
      && (st == ZltOk || st == ErrCallback)
      && (st == ZltOk <==> forall k :: |log| < k <= |log| + |events| ==> cb((log + events)[..k]))
      && (st == ZltOk ==> shown == log + events)
      && (st == ErrCallback ==> !cb(shown))
    decreases |events|
  {
    var all := log + events;
    assert all[..|all|] == all;
    if events != [] {
      var shown := log + [events[0]];
      assert shown + events[1..] == all;
      assert all[..|shown|] == shown;
      if cb(shown) {
        EmitShows(shown, events[1..], cb);
      }
    }
  }

  /**
   Nothing is shown unless the whole table passed the preflight. Then what is shown is a front of
   one fixed script: the validator's verdict if asked for, the header, one event for each record
   in order, and the only terminal last; and all of it if the callback accepts every event.
   */
  lemma AllOrNothing(bank: seq<byte>, header: u32, base: u32, useValidator: bool, cb: Callback)
    ensures var (st, log) := Trace(bank, header, base, useValidator, cb);
      var selected := Select(bank, header, base, useValidator);
      && (selected.Err? ==> st == selected.fault && st != ZltOk && log == [])
      && (selected.Ok? ==>
        var (t, first) := selected.value;
        && (forall i :: 0 <= i < |t.records| ==> Reachable(t.records[i])) && RecordsValid(t.records)
        && |first| == (if useValidator then 1 else 0)
        && ShowsScript(Script(t, first, base), |first| + 1 + |t.records|, st, log, cb))
  {
    var selected := Select(bank, header, base, useValidator);
    if selected.Err? {
      SelectFaults(bank, header, base, useValidator);
    } else {
      var (t, first) := selected.value;
      SelectAccepts(bank, header, base, useValidator);
      hide Select, Reachable, RecordValid, Emit, RecordEvent;
      PreflightIff(t.records);
      PreflightImpliesValid(t.records);
      ScriptEnds(t, first, base);
      EmitShows([], Script(t, first, base), cb);
      assert [] + Script(t, first, base) == Script(t, first, base);
    }
  }

  /** A script of `size` events, its only terminal last, shown up to the first refusal. */
  ghost predicate ShowsScript(script: seq<Event>, size: nat, st: Status, log: seq<Event>, cb: Callback) {
    && |script| == size && (forall i :: 0 <= i < size ==> (script[i].Terminal? <==> i == size - 1))
    && log <= script && (st == ZltOk || st == ErrCallback)
    && (st == ZltOk <==> forall k :: 0 < k <= size ==> cb(script[..k]))
    && (st == ZltOk ==> log == script)
    && (st == ErrCallback ==> !cb(log))
  }

  lemma SelectFaults(bank: seq<byte>, header: u32, base: u32, useValidator: bool)
    requires Select(bank, header, base, useValidator).Err?
    ensures Select(bank, header, base, useValidator).fault != ZltOk
  {
  }

  lemma SelectAccepts(bank: seq<byte>, header: u32, base: u32, useValidator: bool)
    requires Select(bank, header, base, useValidator).Ok?
    ensures var (t, first) := Select(bank, header, base, useValidator).value;
      && PreflightStatus(t.records) == ZltOk && |first| == (if useValidator then 1 else 0)
      && forall i :: 0 <= i < |first| ==> first[i].Validator?
  {
  }

  lemma ScriptEnds(t: LaunchTable, first: seq<Event>, base: u32)
    requires OnlyTerminalLast(t.records) && forall i :: 0 <= i < |first| ==> first[i].Validator?
    ensures var script := Script(t, first, base);
      forall i :: 0 <= i < |script| ==> (script[i].Terminal? <==> i == |script| - 1)
  {
    var script := Script(t, first, base);
    var lead := |first| + 1;
    forall i | 0 <= i < |script|
      ensures script[i].Terminal? <==> i == |script| - 1
    {
      if i >= lead {
        assert script[i] == RecordEvent(i - lead, t.records[i - lead], base);
      }
    }
  }

  // ----- What the events say -----

  /** The registers that types 5 to 0xC load. */
  const REGISTERS: seq<nat> := [24, 25, 23, 4, 5, 28, 29, 19]

  /**
   Event `e` tells what record `i` makes the boot code do: a copy or a clear names as many bytes as it
   writes, a copy its source in the bank if it lies there, type 0xD as many blocks as it visits in each
   family, the others their register, the terminal and the call nothing more.
   */
  ghost predicate Tells(e: Event, i: nat, r: Record, base: u32) {
    && !e.Validator? && !e.Header? && e.index == i && e.record == r
    && (e.Copy? <==> r.kind == 1) && (e.Zero? <==> r.kind == 2) && (e.Terminal? <==> r.kind == 3)
    && (e.Call? <==> r.kind == 4) && (e.TypeD? <==> r.kind == 0xD) && (e.Register? <==> 5 <= r.kind <= 0xC)
    && (e.Copy? ==>
      && (forall a: nat :: Reaches(r, a) <==> r.field2 <= a < r.field2 + e.byteCount)
      && (e.source.Some? <==> 0 <= r.field1 - base < BANK_BYTES)
      && (e.source.Some? ==> base + e.source.value == r.field1))
    && (e.Zero? ==> forall a: nat :: Reaches(r, a) <==> r.field1 <= a < r.field1 + e.byteCount)
    && (e.TypeD? ==> forall a: nat ::
      Reaches(r, a) <==> exists k: nat, b: nat :: k <= 3 && b < e.blocks && a == Address(r.field1, r.field2, k, b))
    && (e.Register? ==> e.register == REGISTERS[r.kind - 5])
  }

  lemma RecordTells(i: nat, r: Record, base: u32)
    requires KnownType(r.kind)
    ensures Tells(RecordEvent(i, r, base), i, r, base)
  {
  }

  /** No two of these types load one register. */
  lemma RegistersDiffer(s: u32, t: u32)
    requires 5 <= s < t <= 0xC
    ensures RegisterFor(s) != RegisterFor(t) && RegisterFor(s) != 0
  {
  }

  /**
   In every trace, what is shown after the header is, in order, what the records of the selected table
   do, one event for each, and the header event shows that table.
   */
  lemma TraceTells(bank: seq<byte>, header: u32, base: u32, useValidator: bool, cb: Callback)
    ensures var (st, log) := Trace(bank, header, base, useValidator, cb);
      var selected := Select(bank, header, base, useValidator);
      && (selected.Err? ==> log == [])
      && (selected.Ok? ==>
        var t, lead := selected.value.0, (if useValidator then 1 else 0);
        && |log| <= lead + 1 + |t.records|
        && (|log| > lead ==> log[lead] == Header(t.headerOffset, t))
        && forall i :: 0 <= i < |t.records| && lead + 1 + i < |log| ==> Tells(log[lead + 1 + i], i, t.records[i], base))
  {
    AllOrNothing(bank, header, base, useValidator, cb);
    hide Select, Trace, Reachable, RecordEvent, Tells;
    var selected := Select(bank, header, base, useValidator);
    if selected.Ok? {
      var (t, first) := selected.value;
      var log := Trace(bank, header, base, useValidator, cb).1;
      assert log <= Script(t, first, base);
      forall i | 0 <= i < |t.records| && |first| + 1 + i < |log|
        ensures Tells(log[|first| + 1 + i], i, t.records[i], base)
      {
        assert log[|first| + 1 + i] == RecordEvent(i, t.records[i], base);
        RecordTells(i, t.records[i], base);
      }
    }
  }

  // ----- Traces of composed banks -----

  /** Equal sums select the main header, and the checks on it decide. */
  lemma RepairedIsMain(bank: seq<byte>, header: u32, base: u32)
    requires Section(bank).Ok? && Section(bank).value.Some?
    requires Section(bank).value.value.stored == Section(bank).value.value.calculated
    ensures Select(bank, header, base, true).Ok? <==> base == RUNTIME_BANK_BASE && MainPasses(bank)
    ensures Select(bank, header, base, true).Ok? ==>
      var (t, first) := Select(bank, header, base, true).value;
      && Ok(t) == ParseLaunchTable(bank, MAIN_HEADER_OFFSET, base) && t.headerOffset == MAIN_HEADER_OFFSET
      && |first| == 1 && first[0].Validator? && first[0].isMain && first[0].header == MAIN_HEADER_OFFSET
  {
    hide PreflightStatus, Calculated, U32At, RecordAt, RecordsAt;
    HeaderParsersAgree(bank, MAIN_HEADER_OFFSET, base);
  }

  /** Unequal sums select the auxiliary header, and the checks on it decide. */
  lemma StaleIsAuxiliary(bank: seq<byte>, header: u32, base: u32)
    requires Section(bank).Ok? && Section(bank).value.Some?
    requires Section(bank).value.value.stored != Section(bank).value.value.calculated
    ensures Select(bank, header, base, true).Ok?
      <==> base == RUNTIME_BANK_BASE && Passes(bank, AUX_HEADER_OFFSET, AUX_TABLE_ADDRESS, AUX_COUNT)
    ensures Select(bank, header, base, true).Ok? ==>
      var (t, first) := Select(bank, header, base, true).value;
      && Ok(t) == ParseLaunchTable(bank, AUX_HEADER_OFFSET, base) && t.headerOffset == AUX_HEADER_OFFSET
      && |first| == 1 && first[0].Validator? && !first[0].isMain && first[0].header == AUX_HEADER_OFFSET
  {
    hide PreflightStatus, Calculated, U32At, RecordAt, RecordsAt;
    HeaderParsersAgree(bank, AUX_HEADER_OFFSET, base);
  }

  /** The header at an offset parses, names the pinned table of the pinned size, and its records pass the preflight. */
  predicate Passes(bank: seq<byte>, offset: int, address: int, count: int) {
    match ParseLaunchTable(bank, offset, RUNTIME_BANK_BASE)
    case Err(_) => false
    case Ok(t) => t.tableAddress == address && |t.records| == count && PreflightStatus(t.records) == ZltOk
  }

  predicate MainPasses(bank: seq<byte>) {
    Passes(bank, MAIN_HEADER_OFFSET, MAIN_TABLE_ADDRESS, MAIN_COUNT)
  }

  /** A bank composed from one with a section is traced from its main header or not at all. */
  lemma ComposedIsMain(c: Codec.Codec, m: ZupCompose.Manifest, bank: seq<byte>, data: seq<seq<byte>>, header: u32,
    base: u32)
    requires |data| == |m.payloads| && ZupCompose.Compose(c, m, bank, data).Ok?
    requires Section(bank).Ok? && Section(bank).value.Some?
    ensures var selected := Select(ZupCompose.Compose(c, m, bank, data).value, header, base, true);
      && (selected.Ok? <==> base == RUNTIME_BANK_BASE && MainPasses(ZupCompose.Compose(c, m, bank, data).value))
      && (selected.Ok? ==>
        var (t, first) := selected.value;
        t.headerOffset == MAIN_HEADER_OFFSET && |first| == 1 && first[0].Validator? && first[0].isMain)
  {
    hide ZupCompose.Compose, Section, Select, MainPasses;
    ZupComposed.ComposedSection(c, m, bank, data);
    RepairedIsMain(ZupCompose.Compose(c, m, bank, data).value, header, base);
  }

  /**
   If the source has the pinned main header and no other table overwrites its records, the composed
   bank is traced with the proposed records exactly when these pass the preflight.
   */
  lemma ComposedTraces(c: Codec.Codec, m: ZupCompose.Manifest, bank: seq<byte>, data: seq<seq<byte>>,
    h: ZupCompose.HeaderEntry, t: LaunchTable, header: u32)
    requires |data| == |m.payloads| && ZupCompose.Compose(c, m, bank, data).Ok?
    requires Section(bank).Ok? && Section(bank).value.Some?
    requires h in m.headers && t in ZupCompose.HeadersOf(bank) && ZupCompose.Describes(h, t)
    requires t.headerOffset == MAIN_HEADER_OFFSET && t.tableAddress == MAIN_TABLE_ADDRESS && |t.records| == MAIN_COUNT
    requires ZupCompose.Validate(c, m, bank).Ok?
    requires ZupComposed.Kept(ZupCompose.Validate(c, m, bank).value,
      ZupCompose.Proposal(t.tableOffset, ZupCompose.Records(h)))
    ensures var selected := Select(ZupCompose.Compose(c, m, bank, data).value, header, RUNTIME_BANK_BASE, true);
      && (selected.Ok? <==> PreflightStatus(ZupCompose.Records(h)) == ZltOk)
      && (selected.Ok? ==> selected.value.0 == t.(records := ZupCompose.Records(h)))
  {
    hide ZupCompose.Compose, ZupCompose.Validate, ZupCompose.HeadersOf, ZupComposed.Kept, ZupComposed.SumChanges,
      ZupComposed.Edits, ZupCompose.Records, Section, Select, PreflightStatus, ParseLaunchTable;
    var out := ZupCompose.Compose(c, m, bank, data).value;
    ZupComposed.ComposedSection(c, m, bank, data);
    ZupComposed.ComposeTables(c, m, bank, data, h, t);
    RepairedIsMain(out, header, RUNTIME_BANK_BASE);
  }
}
