/**
 Control transfers of MIPS-X code, statically as firmware/mipsx_dasm.py summarises them and
 dynamically as firmware/mipsx_boot_trace.py executes them with two delay slots.
 */
module MipsxFlow {
  import opened Bytes
  import opened Wrappers
  import opened MipsxWords
  import Sorting

  const PC_TAG := 0x4000_0000
  const MAX_RESULT_LIMIT := 1000
  const MAX_CFG_LOCAL_TARGETS := 65536

  // ----- The static summary -----

  datatype FlowKind = Branch | BranchAlways | Tail | Call | Halt | Jpc | Jpcrs | Trap

  datatype SlotPolicy = Always | TakenOnly | NoSlots

  datatype Flow = Flow(
    source: nat, kind: FlowKind, target: Option<u32>, continuation: Option<nat>, slots: seq<nat>, policy: SlotPolicy)

  predicate KnownBranch(operation: nat) {
    operation in {1, 2, 3, 5, 6, 7}
  }

  predicate Unconditional(word: u32) {
    Operation(word) == 1 && Source1(word) == 0 && Source2(word) == 0
  }

  /** `decode`'s branch target. */
  function BranchTarget(word: u32, address: nat): u32 {
    (address + 8 + Signed16(word) * 4) % TWO32
  }

  /** `decode`'s jump target from byte anchors. */
  function JumpTarget(word: u32, anchors: map<nat, u32>): Option<u32> {
    if Source1(word) in anchors then Some((anchors[Source1(word)] + Signed17(word) * 4) % TWO32) else None
  }

  /** What `decode` and the loop body of `collect_control_flow` make of one word. */
  function FlowOf(word: u32, address: nat, anchors: map<nat, u32>): Option<Flow> {
    var slots := [address + 4, address + 8];
    if Kind(word) == 0 then
      if !KnownBranch(Operation(word)) then None
      else
        var target := Some(BranchTarget(word, address));
        if Unconditional(word) then Some(Flow(address, BranchAlways, target, None, slots, Always))
        else
          var policy := if word / 0x1_0000 % 2 == 1 then TakenOnly else Always;
          Some(Flow(address, Branch, target, Some(address + 12), slots, policy))
    else if Kind(word) != 3 then None
    else if Operation(word) == 0 then
      var target := JumpTarget(word, anchors);
      if Source2(word) == 0 then Some(Flow(address, Tail, target, None, slots, Always))
      else Some(Flow(address, Call, target, Some(address + 12), slots, Always))
    else if Operation(word) == 1 then
      if word % 0x0800_0000 == 0x07C0_0000 then Some(Flow(address, Halt, None, None, [], NoSlots)) else None
    else if Operation(word) == 5 || Operation(word) == 7 then
      if word % 0x1000 == 3 && Source1(word) == 0 && Source2(word) == 0
      then Some(Flow(address, if Operation(word) == 5 then Jpc else Jpcrs, None, None, slots, Always)) else None
    else if Operation(word) == 6 then
      if word % 8 == 3 && word % 0x0800_0000 / 0x800 == 0 then Some(Flow(address, Trap, None, None, [], NoSlots))
      else None
    else None
  }

  /** Every transfer of the words, in order. */
  function Flows(words: seq<Located>, anchors: map<nat, u32>): seq<Flow> {
    if words == [] then []
    else
      var n := |words| - 1;
      var before, last := Flows(words[..n], anchors), FlowOf(words[n].word, words[n].address, anchors);
      if last.Some? then before + [last.value] else before
  }

  /** The targets of the calls that stay in the regions. */
  function LocalTargets(flows: seq<Flow>, regions: seq<Region>): set<int> {
    set f | f in flows && IsLocalCall(f, regions) :: f.target.value as int
  }

  datatype FlowFault = BadLimit | TooManyTargets

  /** The summary: the first `limit` transfers with the number of their slots in a region, and how many there were. */
  datatype Summary = Summary(transfers: seq<(Flow, nat)>, count: nat, localTargets: map<int, nat>)

  function SlotsInside(slots: seq<nat>, regions: seq<Region>): nat {
    if slots == [] then 0
    else SlotsInside(slots[..|slots| - 1], regions) + if InRegions(slots[|slots| - 1], regions) then 1 else 0
  }

  function Kept(flows: seq<Flow>, regions: seq<Region>, limit: nat): (kept: seq<(Flow, nat)>)
    ensures |kept| == if |flows| < limit then |flows| else limit
  {
    seq(if |flows| < limit then |flows| else limit, i requires 0 <= i < |flows| =>
      (flows[i], SlotsInside(flows[i].slots, regions)))
  }

  function LocalCalls(flows: seq<Flow>, regions: seq<Region>, target: int): nat {
    if flows == [] then 0
    else
      var last := flows[|flows| - 1];
      LocalCalls(flows[..|flows| - 1], regions, target)
      + if IsLocalCall(last, regions) && last.target.value == target then 1 else 0
  }

  predicate IsLocalCall(f: Flow, regions: seq<Region>) {
    f.kind == Call && f.target.Some? && InRegions(f.target.value, regions)
  }

  /** The slot count of one transfer, by binary searches. */
  method CountSlots(slots: seq<nat>, regions: seq<Region>) returns (n: nat)
    requires forall i, j :: 0 <= i < j < |regions| ==> regions[i].end <= regions[j].start
    requires forall i :: 0 <= i < |regions| ==> regions[i].start < regions[i].end
    ensures n == SlotsInside(slots, regions)
  {
    hide InRegions;
    n := 0;
    for i := 0 to |slots|
      invariant n == SlotsInside(slots[..i], regions)
    {
      assert slots[..i + 1][..i] == slots[..i];
      var inside := AddressInRegions(slots[i], regions);
      if inside {
        n := n + 1;
      }
    }
    assert slots[..|slots|] == slots;
  }

  lemma LocalTargetsSnoc(flows: seq<Flow>, last: Flow, regions: seq<Region>)
    ensures LocalTargets(flows + [last], regions) ==
      LocalTargets(flows, regions) + if IsLocalCall(last, regions) then {last.target.value as int} else {}
  {
    hide InRegions;
  }

  lemma FlowsStep(words: seq<Located>, anchors: map<nat, u32>, i: nat)
    requires i < |words|
    ensures var before, last := Flows(words[..i], anchors), FlowOf(words[i].word, words[i].address, anchors);
      Flows(words[..i + 1], anchors) == if last.Some? then before + [last.value] else before
  {
    assert words[..i + 1][..i] == words[..i];
  }

  /** Later transfers only add local targets. */
  lemma {:induction false} LocalTargetsGrow(words: seq<Located>, anchors: map<nat, u32>, regions: seq<Region>, i: nat)
    requires i <= |words|
    ensures LocalTargets(Flows(words[..i], anchors), regions) <= LocalTargets(Flows(words, anchors), regions)
    decreases |words| - i
  {
    hide LocalTargets, Flows, FlowOf;
    if i == |words| {
      assert words[..i] == words;
    } else {
      FlowsStep(words, anchors, i);
      var last := FlowOf(words[i].word, words[i].address, anchors);
      if last.Some? {
        LocalTargetsSnoc(Flows(words[..i], anchors), last.value, regions);
      }
      LocalTargetsGrow(words, anchors, regions, i + 1);
    }
  }

  /** The counter of local call targets after some transfers. */
  ghost predicate CountsLocal(counter: map<int, nat>, flows: seq<Flow>, regions: seq<Region>) {
    && counter.Keys == LocalTargets(flows, regions)
    && forall t :: (if t in counter then counter[t] else 0) == LocalCalls(flows, regions, t)
  }

  /** `local_call_targets[target] += 1`. */
  method CountLocal(counter: map<int, nat>, f: Flow, regions: seq<Region>, ghost flows: seq<Flow>)
    returns (ok: bool, after: map<int, nat>)
    requires forall i, j :: 0 <= i < j < |regions| ==> regions[i].end <= regions[j].start
    requires forall i :: 0 <= i < |regions| ==> regions[i].start < regions[i].end
    requires CountsLocal(counter, flows, regions) && |counter| <= MAX_CFG_LOCAL_TARGETS
    ensures ok <==> |LocalTargets(flows + [f], regions)| <= MAX_CFG_LOCAL_TARGETS
    ensures ok ==> CountsLocal(after, flows + [f], regions) && |after| <= MAX_CFG_LOCAL_TARGETS
  {
    hide InRegions, LocalTargets;
    LocalTargetsSnoc(flows, f, regions);
    assert (flows + [f])[..|flows|] == flows;
    ok, after := true, counter;
    assert |counter| == |counter.Keys|;
    if f.kind == Call && f.target.Some? {
      var inside := AddressInRegions(f.target.value, regions);
      if inside {
        var target := f.target.value as int;
        if target !in counter && |counter| >= MAX_CFG_LOCAL_TARGETS {
          return false, counter;
        }
        after := counter[target := (if target in counter then counter[target] else 0) + 1];
        assert after.Keys == counter.Keys + {target};
        assert |after| == |after.Keys|;
      }
    }
  }

  /** `collect_control_flow`. */
  method CollectControlFlow(words: seq<Located>, regions: seq<Region>, anchors: map<nat, u32>, limit: nat)
    returns (r: Result<Summary, FlowFault>)
    requires forall i, j :: 0 <= i < j < |regions| ==> regions[i].end <= regions[j].start
    requires forall i :: 0 <= i < |regions| ==> regions[i].start < regions[i].end
    ensures !(1 <= limit <= MAX_RESULT_LIMIT) ==> r == Err(BadLimit)
    ensures 1 <= limit <= MAX_RESULT_LIMIT && |LocalTargets(Flows(words, anchors), regions)| > MAX_CFG_LOCAL_TARGETS ==>
      r == Err(TooManyTargets)
    ensures
      1 <= limit <= MAX_RESULT_LIMIT
      && |LocalTargets(Flows(words, anchors), regions)| <= MAX_CFG_LOCAL_TARGETS ==>
      && r.Ok? && r.value.transfers == Kept(Flows(words, anchors), regions, limit)
      && r.value.count == |Flows(words, anchors)| && CountsLocal(r.value.localTargets, Flows(words, anchors), regions)
  {
    hide InRegions, LocalTargets, FlowOf, CountsLocal, Flows;
    if !(1 <= limit <= MAX_RESULT_LIMIT) {
      return Err(BadLimit);
    }
    ghost var flows: seq<Flow> := [];
    var transfers: seq<(Flow, nat)> := [];
    var count := 0;
    var localTargets: map<int, nat> := map[];
    NoFlows(words, anchors, regions);
    for i := 0 to |words|
      invariant flows == Flows(words[..i], anchors) && count == |flows|
      invariant transfers == Kept(flows, regions, limit)
      invariant CountsLocal(localTargets, flows, regions) && |localTargets| <= MAX_CFG_LOCAL_TARGETS
    {
      FlowsStep(words, anchors, i);
      var flow := FlowOf(words[i].word, words[i].address, anchors);
      if flow.Some? {
        var f := flow.value;
        count := count + 1;
        if |transfers| < limit {
          var selected := CountSlots(f.slots, regions);
          transfers := transfers + [(f, selected)];
        }
        var ok;
        ok, localTargets := CountLocal(localTargets, f, regions, flows);
        if !ok {
          LocalTargetsGrow(words, anchors, regions, i + 1);
          Sorting.SubsetCount(LocalTargets(flows + [f], regions), LocalTargets(Flows(words, anchors), regions));
          return Err(TooManyTargets);
        }
        flows := flows + [f];
      }
    }
    assert words[..|words|] == words;
    CountedTargets(localTargets, flows, regions);
    return Ok(Summary(transfers, count, localTargets));
  }

  lemma NoFlows(words: seq<Located>, anchors: map<nat, u32>, regions: seq<Region>)
    ensures Flows(words[..0], anchors) == [] && CountsLocal(map[], [], regions)
  {
  }

  lemma CountedTargets(counter: map<int, nat>, flows: seq<Flow>, regions: seq<Region>)
    requires CountsLocal(counter, flows, regions)
    ensures |LocalTargets(flows, regions)| == |counter|
  {
    hide LocalTargets;
    assert |counter| == |counter.Keys|;
  }

  // ----- The interpreter -----

  datatype Stop = Running | Hsc | Unimplemented | MemoryError

  datatype CallSite = CallSite(pc: nat, register: nat, target: nat)

  /**
   What the interpreter needs of the world: folded memory, whose accesses may raise, and the
   arithmetic words, which may write their destination register.
   */
  datatype Machine<!M> = Machine(
    load: (M, u32) -> Option<u32>, store: (M, u32, u32) -> Option<M>, compute: (u32, seq<int>) -> Option<int>)

  datatype State<M> = State(
    mem: M, regs: seq<int>, pc: nat, pending: bool, slotsLeft: int, target: nat, stop: Stop,
    calls: seq<CallSite>, uniqueTargets: map<nat, nat>)
  {
    predicate Valid() {
      |regs| == 32
    }
  }

  function Fetch<M>(k: Machine<M>, s: State<M>): Option<u32> {
    k.load(s.mem, s.pc % TWO32)
  }

  function Destination(word: u32): (f: nat)
    ensures f < 32
  {
    word / 0x1000 % 32
  }

  /** A register read as a signed 32-bit number, the way the interpreter does. */
  function AsSigned(a: int): int {
    if a / 0x8000_0000 % 2 == 1 then a - TWO32 else a
  }

  predicate BranchTaken(operation: nat, a: int, b: int) {
    match operation
    case 1 => a == b
    case 5 => a != b
    case 2 => a >= b
    case 3 => AsSigned(a) < AsSigned(b)
    case 6 => a < b
    case 7 => AsSigned(a) >= AsSigned(b)
    case _ => false
  }

  /** `jspci`: the word address with its tag stripped, in bytes. */
  function JumpDestination(register: int, displacement: int): nat {
    var word := (register + displacement) % TWO32;
    (if word / PC_TAG % 2 == 1 then word - PC_TAG else word) * 4
  }

  /** Where the step at `s` begins to transfer, if it does. */
  function Taken<M>(k: Machine<M>, s: State<M>): Option<nat>
    requires s.Valid()
  {
    match Fetch(k, s)
    case None => None
    case Some(w) =>
      if Kind(w) == 0 then
        if BranchTaken(Operation(w), s.regs[Source1(w)], s.regs[Source2(w)])
        then Some((s.pc + 8 + Signed16(w) * 4) % TWO32) else None
      else if Kind(w) == 3 && Operation(w) == 0 then Some(JumpDestination(s.regs[Source1(w)], Signed17(w)))
      else None
  }

  function Advance<M>(s: State<M>): State<M> {
    s.(pc := s.pc + 4)
  }

  /** `_begin_transfer`. */
  function Begin<M>(s: State<M>, target: nat): State<M> {
    s.(target := target - target % 4, pending := true, slotsLeft := 3, pc := s.pc + 4)
  }

  /** The effect of one jump word before the transfer: the link and the call log. */
  function Linked<M>(s: State<M>, w: u32, target: nat): State<M>
    requires s.Valid()
  {
    var linked := if Source2(w) != 0 then s.(regs := s.regs[Source2(w) := (s.pc + 12) / 4 % TWO32]) else s;
    if Source1(w) != 31 || Signed17(w) != 0 then
      var seen := if target in linked.uniqueTargets then linked.uniqueTargets[target] else 0;
      linked.(calls := linked.calls + [CallSite(s.pc, Source1(w), target)],
        uniqueTargets := linked.uniqueTargets[target := seen + 1])
    else linked
  }

  /** A memory word: loads, stores and the words that do neither. */
  function MemoryStep<M>(k: Machine<M>, s: State<M>, w: u32): State<M>
    requires s.Valid()
  {
    var at := (s.regs[Source1(w)] + Signed17(w)) % TWO32;
    if Operation(w) in {0, 1, 4} then
      match k.load(s.mem, at)
      case None => s.(stop := MemoryError)
      case Some(v) => Advance(s.(regs := s.regs[Source2(w) := v]))
    else if Operation(w) in {2, 3, 6} then
      match k.store(s.mem, at, s.regs[Source2(w)] % TWO32)
      case None => s.(stop := MemoryError)
      case Some(m) => Advance(s.(mem := m))
    else Advance(s)
  }

  /** A word of kind 1: arithmetic, or nothing the interpreter knows. */
  function ComputeStep<M>(k: Machine<M>, s: State<M>, w: u32): State<M>
    requires s.Valid()
  {
    if Operation(w) == 0 then Advance(s)
    else if Operation(w) == 1 || Operation(w) == 4 then
      match k.compute(w, s.regs)
      case None => Advance(s)
      case Some(v) => Advance(s.(regs := s.regs[Destination(w) := v]))
    else s.(stop := Unimplemented)
  }

  /** `CPU.step`. */
  function StepOf<M>(k: Machine<M>, s: State<M>): (r: State<M>)
    requires s.Valid()
    ensures r.Valid()
  {
    match Fetch(k, s)
    case None => s.(stop := MemoryError)
    case Some(w) =>
      if Kind(w) == 0 then
        if Taken(k, s).Some? then Begin(s, Taken(k, s).value) else Advance(s)
      else if Kind(w) == 2 then MemoryStep(k, s, w)
      else if Kind(w) == 1 then ComputeStep(k, s, w)
      else if Operation(w) == 0 then
        var target := JumpDestination(s.regs[Source1(w)], Signed17(w));
        Begin(Linked(s, w, target), target)
      else if Operation(w) == 1 then s.(stop := Hsc)
      else if Operation(w) == 2 || Operation(w) == 3 then Advance(s)
      else if Operation(w) == 4 then
        Advance(s.(regs := s.regs[Source2(w) := (s.regs[Source1(w)] + Signed17(w)) % TWO32]))
      else s.(stop := Unimplemented)
  }

  /** One turn of the loop in `CPU.run`: a step, and one delay slot consumed; a raised error ends it at once. */
  function Turn<M>(k: Machine<M>, s: State<M>): (r: State<M>)
    requires s.Valid()
    ensures r.Valid()
  {
    var t := StepOf(k, s);
    if t.stop == MemoryError || !t.pending then t
    else if t.slotsLeft - 1 <= 0 then t.(slotsLeft := t.slotsLeft - 1, pc := t.target, pending := false)
    else t.(slotsLeft := t.slotsLeft - 1)
  }

  /** The state after at most `n` turns. */
  function RunOf<M>(k: Machine<M>, s: State<M>, n: nat): (r: State<M>)
    requires s.Valid()
    ensures r.Valid()
    decreases n
  {
    if n == 0 || s.stop != Running then s else RunOf(k, Turn(k, s), n - 1)
  }

  /** The interpreter as it runs: its fields are updated in place. */
  class Cpu<M> {
    const machine: Machine<M>
    var mem: M
    var r: seq<int>
    var pc: nat
    var pending: bool
    var slotsLeft: int
    var target: nat
    var stop: Stop
    var calls: seq<CallSite>
    var uniqueTargets: map<nat, nat>

    ghost function Now(): State<M>
      reads this
    {
      State(mem, r, pc, pending, slotsLeft, target, stop, calls, uniqueTargets)
    }

    constructor (machine: Machine<M>, mem: M, pcByte: nat)
      ensures Now() == Reset(mem, pcByte) && this.machine == machine
    {
      this.machine, this.mem := machine, mem;
      r := seq(32, _ => 0);
      pc := pcByte - pcByte % 4;
      pending, slotsLeft, target, stop, calls, uniqueTargets := false, 0, 0, Running, [], map[];
    }

    method BeginTransfer(to: nat)
      modifies this
      ensures Now() == Begin(old(Now()), to)
    {
      target := to - to % 4;
      pending := true;
      slotsLeft := 3;
      pc := pc + 4;
    }

    /** A memory word. */
    method MemoryWord(w: u32)
      requires Now().Valid()
      modifies this
      ensures Now() == MemoryStep(machine, old(Now()), w)
    {
      var at := (r[Source1(w)] + Signed17(w)) % TWO32;
      if Operation(w) in {0, 1, 4} {
        var v := machine.load(mem, at);
        if v == None {
          stop := MemoryError;
          return;
        }
        r := r[Source2(w) := v.value];
      } else if Operation(w) in {2, 3, 6} {
        match machine.store(mem, at, r[Source2(w)] % TWO32)
        case None =>
          stop := MemoryError;
          return;
        case Some(m) =>
          mem := m;
      }
      pc := pc + 4;
    }

    /** An arithmetic word. */
    method ComputeWord(w: u32)
      requires Now().Valid()
      modifies this
      ensures Now() == ComputeStep(machine, old(Now()), w)
    {
      if Operation(w) == 0 {
        pc := pc + 4;
      } else if Operation(w) == 1 || Operation(w) == 4 {
        var v := machine.compute(w, r);
        if v.Some? {
          r := r[Destination(w) := v.value];
        }
        pc := pc + 4;
      } else {
        stop := Unimplemented;
      }
    }

    /** `jspci`: the link, the call log and the transfer. */
    method JumpWord(w: u32)
      requires Now().Valid()
      modifies this
      ensures var to := JumpDestination(old(r)[Source1(w)], Signed17(w));
        Now() == Begin(Linked(old(Now()), w, to), to)
    {
      var to := JumpDestination(r[Source1(w)], Signed17(w));
      if Source2(w) != 0 {
        r := r[Source2(w) := (pc + 12) / 4 % TWO32];
      }
      if Source1(w) != 31 || Signed17(w) != 0 {
        calls := calls + [CallSite(pc, Source1(w), to)];
        uniqueTargets := uniqueTargets[to := (if to in uniqueTargets then uniqueTargets[to] else 0) + 1];
      }
      BeginTransfer(to);
    }

    method Step()
      requires Now().Valid()
      modifies this
      ensures Now() == StepOf(machine, old(Now()))
    {
      hide MemoryStep, ComputeStep, Linked, Begin, JumpDestination, Kind, Operation, Source1, Source2, Signed16,
        Signed17, BranchTaken;
      var fetched := machine.load(mem, pc % TWO32);
      if fetched == None {
        stop := MemoryError;
        return;
      }
      var w := fetched.value;
      var operation, s1, s2 := Operation(w), Source1(w), Source2(w);
      if Kind(w) == 0 {
        var takenTarget := (pc + 8 + Signed16(w) * 4) % TWO32;
        if BranchTaken(operation, r[s1], r[s2]) {
          BeginTransfer(takenTarget);
        } else {
          pc := pc + 4;
        }
      } else if Kind(w) == 2 {
        MemoryWord(w);
      } else if Kind(w) == 1 {
        ComputeWord(w);
      } else if operation == 0 {
        JumpWord(w);
      } else if operation == 1 {
        stop := Hsc;
      } else if operation == 2 || operation == 3 {
        pc := pc + 4;
      } else if operation == 4 {
        r := r[s2 := (r[s1] + Signed17(w)) % TWO32];
        pc := pc + 4;
      } else {
        stop := Unimplemented;
      }
    }

    method Run(limit: nat) returns (steps: nat)
      requires Now().Valid()
      modifies this
      ensures Now() == RunOf(machine, old(Now()), limit) && steps <= limit
      ensures stop == Running ==> steps == limit
    {
      hide StepOf;
      steps := 0;
      while stop == Running && steps < limit
        invariant Now().Valid() && steps <= limit
        invariant RunOf(machine, Now(), limit - steps) == RunOf(machine, old(Now()), limit)
      {
        ghost var before := Now();
        Step();
        if stop != MemoryError && pending {
          slotsLeft := slotsLeft - 1;
          if slotsLeft <= 0 {
            pc := target;
            pending := false;
          }
        }
        assert Now() == Turn(machine, before);
        steps := steps + 1;
      }
    }
  }

  function Reset<M>(mem: M, pcByte: nat): State<M> {
    State(mem, seq(32, _ => 0), pcByte - pcByte % 4, false, 0, 0, Running, [], map[])
  }

  // ----- Every run -----

  predicate Aligned<M>(s: State<M>) {
    s.Valid() && s.pc % 4 == 0 && s.target % 4 == 0
  }

  lemma TurnAligned<M>(k: Machine<M>, s: State<M>)
    requires Aligned(s)
    ensures Aligned(Turn(k, s))
  {
    hide StepOf;
    StepKeepsAligned(k, s);
  }

  lemma StepKeepsAligned<M>(k: Machine<M>, s: State<M>)
    requires Aligned(s)
    ensures Aligned(StepOf(k, s))
  {
    hide Kind, Operation, Source1, Source2, Signed16, Signed17, BranchTaken, JumpDestination, Linked, MemoryStep,
      ComputeStep,
      Begin, Aligned, Advance;
    AdvanceAligned(s);
    StopAligned(s);
    if Fetch(k, s).Some? {
      var w := Fetch(k, s).value;
      var to := JumpDestination(s.regs[Source1(w)], Signed17(w));
      StepAligned(k, s, w, to);
      BeginAligned(Linked(s, w, to), to);
      AdvanceAligned(s.(regs := s.regs[Source2(w) := (s.regs[Source1(w)] + Signed17(w)) % TWO32]));
      if Taken(k, s).Some? {
        BeginAligned(s, Taken(k, s).value);
      }
    }
  }

  lemma StopAligned<M>(s: State<M>)
    ensures forall stop: Stop :: Aligned(s) ==> Aligned(s.(stop := stop))
  {
  }

  lemma AdvanceAligned<M>(s: State<M>)
    ensures s.Valid() && s.pc % 4 == 0 && s.target % 4 == 0 ==> Aligned(Advance(s))
    ensures Aligned(s) ==> s.Valid() && s.pc % 4 == 0 && s.target % 4 == 0
  {
  }

  lemma BeginAligned<M>(s: State<M>, to: nat)
    requires s.Valid() && s.pc % 4 == 0
    ensures Aligned(Begin(s, to))
  {
  }

  lemma StepAligned<M>(k: Machine<M>, s: State<M>, w: u32, to: nat)
    requires Aligned(s)
    ensures Aligned(MemoryStep(k, s, w)) && Aligned(ComputeStep(k, s, w))
    ensures Linked(s, w, to).pc == s.pc && Linked(s, w, to).Valid()
  {
    hide Kind, Operation, Signed17;
  }

  /** The program counter is word aligned in every reachable state. */
  lemma {:induction false} RunsAligned<M>(k: Machine<M>, s: State<M>, n: nat)
    requires Aligned(s)
    ensures Aligned(RunOf(k, s, n))
    decreases n
  {
    if n > 0 && s.stop == Running {
      TurnAligned(k, s);
      RunsAligned(k, Turn(k, s), n - 1);
    }
  }

  /** A step that neither transfers nor stops goes on to the next word, and leaves the pending transfer as it was. */
  lemma PlainStep<M>(k: Machine<M>, s: State<M>)
    requires s.Valid() && Taken(k, s) == None && StepOf(k, s).stop == Running
    ensures var t := StepOf(k, s);
      t.pc == s.pc + 4 && t.pending == s.pending && t.slotsLeft == s.slotsLeft && t.target == s.target
  {
    hide Kind, Operation, Source1, Source2, Signed16, Signed17, BranchTaken, JumpDestination;
  }

  lemma TakenStep<M>(k: Machine<M>, s: State<M>)
    requires s.Valid() && Taken(k, s).Some?
    ensures var t, to := StepOf(k, s), Taken(k, s).value;
      t.pc == s.pc + 4 && t.pending && t.slotsLeft == 3 && t.target == to - to % 4 && t.stop == s.stop
  {
    hide Kind, Operation, Source1, Source2, Signed16, Signed17, BranchTaken, JumpDestination;
  }

  /** The two words after a transfer run as plain slots. */
  ghost predicate PlainSlots<M>(k: Machine<M>, s: State<M>)
    requires s.Valid()
  {
    var first := Turn(k, s);
    var second := Turn(k, first);
    && Taken(k, first) == None && second.stop == Running
    && Taken(k, second) == None && Turn(k, second).stop == Running
  }

  /**
   A taken transfer, even one in another's slot, executes the next two words and lands on its target,
   provided neither of them transfers or stops.
   */
  lemma TransferLands<M>(k: Machine<M>, s: State<M>)
    requires s.Valid() && s.stop == Running && Taken(k, s).Some? && PlainSlots(k, s)
    ensures RunOf(k, s, 1).pc == s.pc + 4 && RunOf(k, s, 1).stop == Running
    ensures RunOf(k, s, 2).pc == s.pc + 8 && RunOf(k, s, 2).stop == Running
    ensures var after, to := RunOf(k, s, 3), Taken(k, s).value;
      after.pc == to - to % 4 && !after.pending && after.stop == Running
  {
    hide StepOf, Taken;
    TakenStep(k, s);
    var first := Turn(k, s);
    PlainStep(k, first);
    var second := Turn(k, first);
    PlainStep(k, second);
    assert RunOf(k, s, 1) == first;
    assert RunOf(k, s, 2) == RunOf(k, first, 1) == second;
    assert RunOf(k, s, 3) == RunOf(k, first, 2) == RunOf(k, second, 1) == Turn(k, second);
  }

  /** A transfer in the first or the second slot replaces the one that is pending: the first never lands. */
  lemma SlotTransferReplaces<M>(k: Machine<M>, s: State<M>)
    requires s.Valid() && s.stop == Running && Taken(k, s).Some? && Taken(k, Turn(k, s)).Some?
    ensures var second, to := RunOf(k, s, 2), Taken(k, Turn(k, s)).value;
      second.pc == s.pc + 8 && second.pending && second.slotsLeft == 2 && second.target == to - to % 4
  {
    hide StepOf, Taken;
    TakenStep(k, s);
    TakenStep(k, Turn(k, s));
    assert RunOf(k, s, 2) == RunOf(k, Turn(k, s), 1) == Turn(k, Turn(k, s));
  }

  // ----- Static and dynamic agree -----

  /** The anchors are four times the registers that they stand for. */
  ghost predicate Anchored<M>(anchors: map<nat, u32>, s: State<M>)
    requires s.Valid()
  {
    forall r :: r in anchors ==> r < 32 && anchors[r] == 4 * s.regs[r] % TWO32
  }

  lemma JumpAgrees(register: int, displacement: int)
    ensures JumpDestination(register, displacement) % 4 == 0
    ensures JumpDestination(register, displacement) % TWO32 == (4 * register % TWO32 + displacement * 4) % TWO32
  {
    var sum := register + displacement;
    var word := sum % TWO32;
    var q := sum / TWO32;
    assert 4 * word % TWO32 == 4 * sum % TWO32 by {
      SameModulo(4 * sum, 4 * word, 4 * q);
    }
    var p := 4 * register / TWO32;
    SameModulo(4 * sum, 4 * register % TWO32 + displacement * 4, p);
    if word / PC_TAG % 2 == 1 {
      SameModulo(4 * word, (word - PC_TAG) * 4, 1);
    }
  }

  /** The summary of the word at `s` and its execution agree. */
  ghost predicate Agrees<M>(k: Machine<M>, s: State<M>, w: u32, anchors: map<nat, u32>)
    requires s.Valid()
  {
    var flow, taken := FlowOf(w, s.pc, anchors), Taken(k, s);
    && (taken.Some? ==>
      && flow.Some? && flow.value.slots == [s.pc + 4, s.pc + 8]
      && flow.value.kind in {Branch, BranchAlways, Tail, Call}
      && (flow.value.target.Some? ==> (taken.value - taken.value % 4) % TWO32 == flow.value.target.value))
    && (flow.Some? && taken == None ==> flow.value.kind == Branch || StepOf(k, s).stop != Running)
    && (flow.Some? && flow.value.kind == BranchAlways ==> taken.Some?)
  }

  lemma BranchAgrees<M>(k: Machine<M>, s: State<M>, w: u32, anchors: map<nat, u32>)
    requires Aligned(s) && Fetch(k, s) == Some(w) && Kind(w) == 0
    ensures Agrees(k, s, w, anchors)
  {
    hide Signed16, StepOf, JumpDestination, BranchTaken, Operation, Source1, Source2, BranchTarget;
    KnownTaken(w, s.regs);
    TargetAligned(w, s.pc);
  }

  /** Only known branches are taken, and an unconditional one is. */
  lemma KnownTaken(w: u32, regs: seq<int>)
    requires |regs| == 32
    ensures var taken := BranchTaken(Operation(w), regs[Source1(w)], regs[Source2(w)]);
      (taken ==> KnownBranch(Operation(w))) && (Unconditional(w) ==> taken)
  {
    hide Operation, Source1, Source2;
  }

  lemma TargetAligned(w: u32, address: nat)
    requires address % 4 == 0
    ensures BranchTarget(w, address) == (address + 8 + Signed16(w) * 4) % TWO32
    ensures BranchTarget(w, address) % 4 == 0
  {
    hide Signed16;
    var x := address + 8 + Signed16(w) * 4;
    assert x == (x / TWO32) * TWO32 + x % TWO32;
  }

  lemma JumpWordAgrees<M>(k: Machine<M>, s: State<M>, w: u32, anchors: map<nat, u32>)
    requires Aligned(s) && Fetch(k, s) == Some(w) && Kind(w) == 3 && Operation(w) == 0 && Anchored(anchors, s)
    ensures Agrees(k, s, w, anchors)
  {
    hide Signed17, StepOf, JumpDestination, Anchored;
    JumpAgrees(s.regs[Source1(w)], Signed17(w));
    AnchorOf(s, anchors, Source1(w));
  }

  /**
   The summary of a word and its execution agree: a taken transfer is summarised, with its two
   slots, and its target, where the anchors give one, is where it goes, modulo 2^32; a summarised
   word that is not taken is a conditional branch or stops the run; `branch_always` is always taken.
   */
  lemma StaticAgrees<M>(k: Machine<M>, s: State<M>, anchors: map<nat, u32>)
    requires Aligned(s) && s.stop == Running && Anchored(anchors, s) && Fetch(k, s).Some?
    ensures Agrees(k, s, Fetch(k, s).value, anchors)
  {
    hide Signed16, Signed17, Begin, Advance, Linked, MemoryStep, ComputeStep, JumpDestination, Anchored, BranchTaken;
    var w := Fetch(k, s).value;
    if Kind(w) == 0 {
      BranchAgrees(k, s, w, anchors);
    } else if Kind(w) == 3 && Operation(w) == 0 {
      JumpWordAgrees(k, s, w, anchors);
    }
  }

  lemma AnchorOf<M>(s: State<M>, anchors: map<nat, u32>, r: nat)
    requires s.Valid() && Anchored(anchors, s) && r < 32
    ensures r in anchors ==> anchors[r] == 4 * s.regs[r] % TWO32
  {
  }

  /**
   A call links the word address of the summary's continuation exactly while that is below the 34-bit
   end of the word space; the register keeps 32 bits of it.
   */
  lemma CallLinks<M>(k: Machine<M>, s: State<M>, anchors: map<nat, u32>)
    requires Aligned(s) && Fetch(k, s).Some?
    requires var flow := FlowOf(Fetch(k, s).value, s.pc, anchors); flow.Some? && flow.value.kind == Call
    ensures var w := Fetch(k, s).value;
      var link, continuation := StepOf(k, s).regs[Source2(w)], FlowOf(w, s.pc, anchors).value.continuation;
      && continuation == Some(s.pc + 12) && 0 <= link < TWO32 && link == continuation.value / 4 % TWO32
      && (link * 4 == continuation.value <==> s.pc + 12 < 4 * TWO32)
  {
    hide Signed16, Signed17, JumpDestination;
  }

  /** A reset machine with any registers is aligned, as the entry mode's start is. */
  lemma StartsAligned<M>(mem: M, pcByte: nat, regs: seq<int>)
    requires |regs| == 32
    ensures Aligned(Reset(mem, pcByte).(regs := regs))
  {
  }

  /**
   In every run from an aligned state: a transfer that is taken after `n` turns, with two plain slots,
   puts the program counter on the two slots of its summary in turn and then on the summary's target
   modulo 2^32.
   */
  lemma TransfersInRuns<M>(k: Machine<M>, start: State<M>, n: nat, anchors: map<nat, u32>)
    requires Aligned(start)
    requires var s := RunOf(k, start, n);
      s.stop == Running && Taken(k, s).Some? && PlainSlots(k, s) && Anchored(anchors, s)
    ensures var s := RunOf(k, start, n);
      Fetch(k, s).Some? &&
      var flow := FlowOf(Fetch(k, s).value, s.pc, anchors);
      && flow.Some?
      && [RunOf(k, start, n + 1).pc, RunOf(k, start, n + 2).pc] == flow.value.slots
      && (flow.value.target.Some? ==> RunOf(k, start, n + 3).pc % TWO32 == flow.value.target.value)
  {
    hide Taken, PlainSlots, Turn, FlowOf, Anchored;
    var s := RunOf(k, start, n);
    RunsAligned(k, start, n);
    RunsCompose(k, start, n, 1);
    RunsCompose(k, start, n, 2);
    RunsCompose(k, start, n, 3);
    TransferLands(k, s);
    TakenFetches(k, s);
    StaticAgrees(k, s, anchors);
  }

  lemma TakenFetches<M>(k: Machine<M>, s: State<M>)
    requires s.Valid() && Taken(k, s).Some?
    ensures Fetch(k, s).Some?
  {
  }

  lemma {:induction false} RunsCompose<M>(k: Machine<M>, s: State<M>, m: nat, n: nat)
    requires s.Valid()
    ensures RunOf(k, s, m + n) == RunOf(k, RunOf(k, s, m), n)
    decreases m
  {
    hide Turn;
    if m > 0 && s.stop == Running {
      RunsCompose(k, Turn(k, s), m - 1, n);
    }
  }

  /** A conditional branch that is not taken, with no transfer pending, goes on past its slots to the continuation. */
  lemma BranchContinues<M>(k: Machine<M>, s: State<M>, anchors: map<nat, u32>)
    requires s.Valid() && s.stop == Running && !s.pending && Taken(k, s) == None && StepOf(k, s).stop == Running
    requires Fetch(k, s).Some? && FlowOf(Fetch(k, s).value, s.pc, anchors).Some? && PlainSlots(k, s)
    ensures var flow := FlowOf(Fetch(k, s).value, s.pc, anchors).value;
      flow.kind == Branch && flow.continuation == Some(RunOf(k, s, 3).pc)
  {
    hide Taken, Signed16, Signed17, MemoryStep, ComputeStep, Linked, Begin;
    PlainStep(k, s);
    var first := Turn(k, s);
    PlainStep(k, first);
    var second := Turn(k, first);
    PlainStep(k, second);
    assert RunOf(k, s, 3) == RunOf(k, first, 2) == RunOf(k, second, 1) == Turn(k, second);
    UntakenFlow(k, s, anchors);
  }

  lemma UntakenFlow<M>(k: Machine<M>, s: State<M>, anchors: map<nat, u32>)
    requires s.Valid() && Taken(k, s) == None && StepOf(k, s).stop == Running
    requires Fetch(k, s).Some? && FlowOf(Fetch(k, s).value, s.pc, anchors).Some?
    ensures var flow := FlowOf(Fetch(k, s).value, s.pc, anchors).value;
      flow.kind == Branch && flow.continuation == Some(s.pc + 12)
  {
    hide Signed16, Signed17, MemoryStep, ComputeStep, Linked, Begin;
  }

  // ----- The call log -----

  function CallsTo(calls: seq<CallSite>, target: nat): nat {
    if calls == [] then 0
    else CallsTo(calls[..|calls| - 1], target) + if calls[|calls| - 1].target == target then 1 else 0
  }

  /** The counter of targets counts the logged calls. */
  ghost predicate Logged<M>(s: State<M>) {
    forall t: nat :: (if t in s.uniqueTargets then s.uniqueTargets[t] else 0) == CallsTo(s.calls, t)
  }

  lemma LinkLogs<M>(s: State<M>, w: u32, target: nat)
    requires s.Valid() && Logged(s)
    ensures Logged(Linked(s, w, target))
  {
    hide Source1, Source2, Signed17;
    var r := Linked(s, w, target);
    if r.calls != s.calls {
      assert r.calls[..|s.calls|] == s.calls;
    }
  }

  lemma TurnLogs<M>(k: Machine<M>, s: State<M>)
    requires s.Valid() && Logged(s)
    ensures Logged(Turn(k, s))
  {
    hide Kind, Operation, Source1, Source2, Signed16, Signed17, BranchTaken, JumpDestination, Linked, Logged;
    if Fetch(k, s).Some? {
      var w := Fetch(k, s).value;
      var target := JumpDestination(s.regs[Source1(w)], Signed17(w));
      LinkLogs(s, w, target);
    }
    SameLog(s, Turn(k, s));
    if Fetch(k, s).Some? {
      var w := Fetch(k, s).value;
      SameLog(Linked(s, w, JumpDestination(s.regs[Source1(w)], Signed17(w))), Turn(k, s));
    }
  }

  lemma SameLog<M>(a: State<M>, b: State<M>)
    requires Logged(a)
    ensures a.calls == b.calls && a.uniqueTargets == b.uniqueTargets ==> Logged(b)
  {
  }

  /** In every run from reset, each target's count is the number of logged calls to it. */
  lemma {:induction false} CallLogCounts<M>(k: Machine<M>, s: State<M>, n: nat)
    requires s.Valid() && Logged(s)
    ensures Logged(RunOf(k, s, n))
    decreases n
  {
    hide Turn, Logged;
    if n > 0 && s.stop == Running {
      TurnLogs(k, s);
      CallLogCounts(k, Turn(k, s), n - 1);
    }
  }
}
