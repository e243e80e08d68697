/**
 What short MIPS-X programs do when firmware/mipsx_boot_trace.py runs them, with the words given by
 number: branches with their two slots, stores and loads, immediates, and the call log.
 */
module MipsxPrograms {
  import opened Bytes
  import opened Wrappers
  import opened MipsxWords
  import opened MipsxFlow

  // ----- Branches -----

  /** A word by number that can neither transfer nor stop, but for a memory access that raises. */
  predicate Straight(w: u32) {
    || w < 0x0800_0000 || 0x2000_0000 <= w < 0x2800_0000
    || 0x4000_0000 <= w < 0x5000_0000 || 0x6000_0000 <= w < 0x6800_0000
    || 0x8000_0000 <= w < 0xC000_0000 || 0xD000_0000 <= w < 0xE800_0000
  }

  /** The two words after the one at `s` are straight, and no access of theirs raises. */
  ghost predicate StraightSlots<M>(k: Machine<M>, s: State<M>)
    requires s.Valid()
  {
    && (forall j :: 1 <= j <= 2 ==> Fetch(k, RunOf(k, s, j)).Some? && Straight(Fetch(k, RunOf(k, s, j)).value))
    && RunOf(k, s, 3).stop == Running
  }

  lemma StraightWord(w: u32)
    requires Straight(w)
    ensures Kind(w) == 0 ==> Operation(w) == 0 || Operation(w) == 4
    ensures Kind(w) == 1 ==> Operation(w) == 0 || Operation(w) == 1 || Operation(w) == 4
    ensures Kind(w) == 3 ==> Operation(w) == 2 || Operation(w) == 3 || Operation(w) == 4
  {
  }

  /** A straight word goes on to the next one, unless its access raises. */
  lemma StraightStep<M>(k: Machine<M>, s: State<M>)
    requires s.Valid() && Fetch(k, s).Some? && Straight(Fetch(k, s).value)
    ensures Taken(k, s) == None
  {
    hide Kind, Operation, Signed16, Signed17, JumpDestination, Straight;
    StraightWord(Fetch(k, s).value);
  }

  lemma StraightSlotsArePlain<M>(k: Machine<M>, s: State<M>)
    requires s.Valid() && s.stop == Running && StraightSlots(k, s)
    ensures PlainSlots(k, s)
  {
    hide Turn, Fetch, Straight, Taken;
    var first := Turn(k, s);
    assert RunOf(k, s, 1) == RunOf(k, first, 0) == first;
    RunsCompose(k, s, 1, 1);
    RunsCompose(k, s, 1, 2);
    RunsCompose(k, s, 2, 1);
    Stopped(k, first, 2);
    Stopped(k, RunOf(k, s, 2), 1);
    var second := Turn(k, first);
    assert RunOf(k, s, 2) == second;
    assert RunOf(k, s, 3) == Turn(k, second);
    StraightStep(k, RunOf(k, s, 1));
    StraightStep(k, RunOf(k, s, 2));
  }

  /** A run that has stopped stays where it is. */
  lemma Stopped<M>(k: Machine<M>, s: State<M>, n: nat)
    requires s.Valid()
    ensures s.stop != Running ==> RunOf(k, s, n) == s
    ensures s.stop == Running ==> RunOf(k, s, 1) == Turn(k, s)
  {
    hide Turn;
    if s.stop == Running {
      assert RunOf(k, Turn(k, s), 0) == Turn(k, s);
    }
  }

  /** `v` is the 32-bit number `a` in two's complement. */
  predicate TwosComplement(a: int, v: int) {
    0 <= a < TWO32 && -0x8000_0000 <= v < 0x8000_0000 && (a - v) % TWO32 == 0
  }

  lemma AsSignedIs(a: int, v: int)
    requires TwosComplement(a, v)
    ensures AsSigned(a) == v
  {
    var q := (a - v) / TWO32;
    assert a - v == q * TWO32;
  }

  /** Where a branch word leads. */
  function BranchTo<M>(s: State<M>, w: u32): nat {
    (s.pc + 8 + 4 * Signed16(w)) % TWO32
  }

  /** The word at `s` is the branch `w`, with nothing pending and two straight slots. */
  ghost predicate BranchAt<M>(k: Machine<M>, s: State<M>, w: u32)
    requires s.Valid()
  {
    Aligned(s) && s.stop == Running && !s.pending && Fetch(k, s) == Some(w) && w < 0x4000_0000 && StraightSlots(k, s)
  }

  /** After a branch and its slots, the program is at the target if the condition held and behind the slots if not. */
  lemma BranchLands<M>(k: Machine<M>, s: State<M>, w: u32)
    requires s.Valid() && BranchAt(k, s, w)
    ensures RunOf(k, s, 3).pc ==
      if BranchTaken(Operation(w), s.regs[Source1(w)], s.regs[Source2(w)]) then BranchTo(s, w) else s.pc + 12
    ensures !RunOf(k, s, 3).pending
  {
    hide Source1, Source2, Operation, Signed16, StraightSlots, BranchTaken, Turn, StepOf, RunOf, PlainSlots, Taken,
      Kind, BranchTo, Fetch;
    StraightSlotsArePlain(k, s);
    BranchTakes(k, s, w);
    if BranchTaken(Operation(w), s.regs[Source1(w)], s.regs[Source2(w)]) {
      TransferLands(k, s);
      BranchToWhole(s, w);
    } else {
      Untaken(k, s, w);
    }
  }

  lemma BranchTakes<M>(k: Machine<M>, s: State<M>, w: u32)
    requires s.Valid() && Fetch(k, s) == Some(w) && w < 0x4000_0000
    ensures Kind(w) == 0
    ensures Taken(k, s) ==
      if BranchTaken(Operation(w), s.regs[Source1(w)], s.regs[Source2(w)]) then Some(BranchTo(s, w)) else None
  {
    hide Source1, Source2, Operation, Signed16, BranchTaken;
  }

  lemma BranchToWhole<M>(s: State<M>, w: u32)
    requires s.pc % 4 == 0
    ensures BranchTo(s, w) % 4 == 0
  {
    hide Signed16;
    var x := s.pc + 8 + 4 * Signed16(w);
    assert x == (x / TWO32) * TWO32 + x % TWO32;
  }

  lemma Untaken<M>(k: Machine<M>, s: State<M>, w: u32)
    requires s.Valid() && s.stop == Running && !s.pending && Fetch(k, s) == Some(w) && Kind(w) == 0
    requires Taken(k, s) == None && PlainSlots(k, s)
    ensures RunOf(k, s, 3).pc == s.pc + 12 && !RunOf(k, s, 3).pending
  {
    hide Taken, Signed16, Signed17, MemoryStep, ComputeStep, Linked, Begin;
    PlainStep(k, s);
    var first := Turn(k, s);
    PlainStep(k, first);
    var second := Turn(k, first);
    PlainStep(k, second);
    assert RunOf(k, s, 3) == RunOf(k, first, 2) == RunOf(k, second, 1) == Turn(k, second);
  }

  /**
   What every branch does, by the values of its two registers: `beq`, `bhs`, `blt`, `bne`, `blo` and
   `bge`, the signed ones on the two's complement of 32-bit registers; operations 0 and 4 never branch.
   */
  lemma BranchOutcomes<M>(k: Machine<M>, s: State<M>, w: u32, va: int, vb: int)
    requires s.Valid() && BranchAt(k, s, w)
    ensures var a, b, op, landed := s.regs[Source1(w)], s.regs[Source2(w)], w / 0x0800_0000, RunOf(k, s, 3).pc;
      && (op == 1 ==> landed == if a == b then BranchTo(s, w) else s.pc + 12)
      && (op == 5 ==> landed == if a != b then BranchTo(s, w) else s.pc + 12)
      && (op == 2 ==> landed == if a >= b then BranchTo(s, w) else s.pc + 12)
      && (op == 6 ==> landed == if a < b then BranchTo(s, w) else s.pc + 12)
      && (op == 3 && TwosComplement(a, va) && TwosComplement(b, vb) ==>
        landed == if va < vb then BranchTo(s, w) else s.pc + 12)
      && (op == 7 && TwosComplement(a, va) && TwosComplement(b, vb) ==>
        landed == if va >= vb then BranchTo(s, w) else s.pc + 12)
      && (op == 0 || op == 4 ==> landed == s.pc + 12)
      && op < 8
  {
    hide Source1, Source2, Signed16, StraightSlots, RunOf, TwosComplement, AsSigned, BranchAt;
    BranchLands(k, s, w);
    BranchOperation(k, s, w);
    var a, b := s.regs[Source1(w)], s.regs[Source2(w)];
    if TwosComplement(a, va) && TwosComplement(b, vb) {
      AsSignedIs(a, va);
      AsSignedIs(b, vb);
    }
  }

  lemma BranchOperation<M>(k: Machine<M>, s: State<M>, w: u32)
    requires s.Valid() && BranchAt(k, s, w)
    ensures Operation(w) == w / 0x0800_0000 < 8
  {
    hide StraightSlots, Fetch, Operation;
    SmallOperation(w);
  }

  lemma SmallOperation(w: u32)
    requires w < 0x4000_0000
    ensures Operation(w) == w / 0x0800_0000 < 8
  {
  }

  // ----- Memory and immediates -----

  /** What was stored is loaded. */
  ghost predicate Remembers<M(!new)>(k: Machine<M>) {
    forall m, at: u32, v: u32 :: k.store(m, at, v).Some? ==> k.load(k.store(m, at, v).value, at) == Some(v)
  }

  /** A store of register `x` at `d[y]`. */
  predicate StoreWord(w: u32, x: nat, y: nat, d: int) {
    (0x9000_0000 <= w < 0xA000_0000 || 0xB000_0000 <= w < 0xB800_0000)
    && Source2(w) == x && Source1(w) == y && Signed17(w) == d
  }

  /** A load of register `z` from `d[y]`. */
  predicate LoadWord(w: u32, z: nat, y: nat, d: int) {
    (0x8000_0000 <= w < 0x9000_0000 || 0xA000_0000 <= w < 0xA800_0000)
    && Source2(w) == z && Source1(w) == y && Signed17(w) == d
  }

  /** A store and then a load from the same place move the low 32 bits of one register into another, and only that. */
  lemma StoreThenLoad<M(!new)>(k: Machine<M>, s: State<M>, x: nat, y: nat, z: nat, d: int)
    requires s.Valid() && Remembers(k) && !s.pending && s.stop == Running && x < 32 && y < 32 && z < 32
    requires Fetch(k, s).Some? && StoreWord(Fetch(k, s).value, x, y, d) && RunOf(k, s, 1).stop == Running
    requires var t := RunOf(k, s, 1); Fetch(k, t).Some? && LoadWord(Fetch(k, t).value, z, y, d)
    ensures var r := RunOf(k, s, 2);
      r.stop == Running && r.regs == s.regs[z := s.regs[x] % TWO32] && r.mem == RunOf(k, s, 1).mem && r.pc == s.pc + 8
  {
    hide Source1, Source2, Signed17, StoreWord, LoadWord, StepOf, Turn, Remembers;
    var at := (s.regs[y] + d) % TWO32;
    var t := RunOf(k, s, 1);
    Stopped(k, s, 1);
    StoreTurn(k, s, x, y, d);
    RunsCompose(k, s, 1, 1);
    Stopped(k, t, 1);
    LoadTurn(k, t, z, y, d);
    assert k.load(t.mem, at) == Some(s.regs[x] % TWO32) by {
      Recalled(k, s.mem, at, s.regs[x] % TWO32);
    }
  }

  lemma Recalled<M(!new)>(k: Machine<M>, m: M, at: u32, v: u32)
    requires Remembers(k) && k.store(m, at, v).Some?
    ensures k.load(k.store(m, at, v).value, at) == Some(v)
  {
  }

  lemma StoreTurn<M>(k: Machine<M>, s: State<M>, x: nat, y: nat, d: int)
    requires s.Valid() && !s.pending && x < 32 && y < 32 && s.stop == Running && Turn(k, s).stop == Running
    requires Fetch(k, s).Some? && StoreWord(Fetch(k, s).value, x, y, d)
    ensures var at := (s.regs[y] + d) % TWO32;
      && k.store(s.mem, at, s.regs[x] % TWO32).Some?
      && Turn(k, s) == s.(mem := k.store(s.mem, at, s.regs[x] % TWO32).value, pc := s.pc + 4)
  {
    hide Source1, Source2, Signed17;
  }

  lemma LoadTurn<M>(k: Machine<M>, s: State<M>, z: nat, y: nat, d: int)
    requires s.Valid() && !s.pending && z < 32 && y < 32 && s.stop == Running
    requires Fetch(k, s).Some? && LoadWord(Fetch(k, s).value, z, y, d)
    ensures var v := k.load(s.mem, (s.regs[y] + d) % TWO32);
      v.Some? ==> Turn(k, s) == s.(regs := s.regs[z := v.value], pc := s.pc + 4)
  {
    hide Source1, Source2, Signed17;
  }

  /** A straight memory word of the other numbers does nothing. */
  lemma OtherMemoryWords<M>(k: Machine<M>, s: State<M>)
    requires s.Valid() && Fetch(k, s).Some? && (0xA800_0000 <= Fetch(k, s).value < 0xB000_0000
      || 0xB800_0000 <= Fetch(k, s).value < 0xC000_0000)
    ensures StepOf(k, s) == s.(pc := s.pc + 4)
  {
  }

  /** `addi` of register `y` with `d` into register `x`. */
  predicate AddiWord(w: u32, x: nat, y: nat, d: int) {
    0xE000_0000 <= w < 0xE800_0000 && Source2(w) == x && Source1(w) == y && Signed17(w) == d
  }

  /** Adding an immediate to a register and taking it off again restores the register modulo 2^32 and nothing else. */
  lemma AddiUndoes<M>(k: Machine<M>, s: State<M>, x: nat, d: int)
    requires s.Valid() && !s.pending && s.stop == Running && x < 32
    requires Fetch(k, s).Some? && AddiWord(Fetch(k, s).value, x, x, d)
    requires var t := RunOf(k, s, 1); Fetch(k, t).Some? && AddiWord(Fetch(k, t).value, x, x, -d)
    ensures RunOf(k, s, 1).regs == s.regs[x := (s.regs[x] + d) % TWO32]
    ensures RunOf(k, s, 2) == s.(regs := s.regs[x := s.regs[x] % TWO32], pc := s.pc + 8)
  {
    hide Source1, Source2, Signed17;
    var t := RunOf(k, s, 1);
    assert t == RunOf(k, Turn(k, s), 0) == Turn(k, s);
    RunsCompose(k, s, 1, 1);
    assert RunOf(k, t, 1) == RunOf(k, Turn(k, t), 0) == Turn(k, t);
    SameModulo((s.regs[x] + d) % TWO32 - d, s.regs[x], -((s.regs[x] + d) / TWO32));
  }

  // ----- The call log -----

  /** A jump through register `r` by number. */
  predicate JumpWordOf(w: u32, r: nat) {
    0xC000_0000 + 0x40_0000 * r <= w < 0xC040_0000 + 0x40_0000 * r
  }

  /**
   Every jump but `jspci r31,0`, the return, is logged with its address, its register and its
   destination; a return leaves the log alone.
   */
  lemma JumpsLogged<M>(k: Machine<M>, s: State<M>, r: nat)
    requires s.Valid() && r < 32 && Fetch(k, s).Some? && JumpWordOf(Fetch(k, s).value, r)
    ensures var w, t := Fetch(k, s).value, StepOf(k, s);
      && t.pending && t.stop == s.stop
      && (r == 31 && w % 0x2_0000 == 0 ==> t.calls == s.calls && t.uniqueTargets == s.uniqueTargets)
      && (r != 31 || w % 0x2_0000 != 0 ==>
        |t.calls| == |s.calls| + 1 && t.calls[..|s.calls|] == s.calls
        && t.calls[|s.calls|].pc == s.pc && t.calls[|s.calls|].register == r
        && t.calls[|s.calls|].target == t.target)
      && (w % 0x40_0000 < 0x2_0000 ==> t.regs == s.regs)
  {
    hide Signed17, JumpDestination;
    var w := Fetch(k, s).value;
    SignedField17(w, 0);
    JumpFields(w, r);
    JumpAgrees(s.regs[Source1(w)], Signed17(w));
  }

  lemma JumpFields(w: u32, r: nat)
    requires r < 32 && JumpWordOf(w, r)
    ensures Kind(w) == 3 && Operation(w) == 0 && Source1(w) == r && (Source2(w) == 0 <==> w % 0x40_0000 < 0x2_0000)
  {
    assert w % 0x40_0000 == w - 0xC000_0000 - 0x40_0000 * r;
  }

  // ----- Summarised words -----

  /** What kind of transfer a word is summarised as, if any. */
  function KindOf(w: u32, address: nat, anchors: map<nat, u32>): Option<FlowKind> {
    var flow := FlowOf(w, address, anchors);
    if flow == None then None else Some(flow.value.kind)
  }

  /**
   The branches that the static summary lists, by number; `branch_always` is `beq r0,r0`, and only a
   conditional branch with the squash bit has its slots taken only with it.
   */
  lemma BranchesByWord(w: u32, address: nat, anchors: map<nat, u32>)
    ensures var flow, kind := FlowOf(w, address, anchors), KindOf(w, address, anchors);
      && (kind == Some(BranchAlways) <==> 0x0800_0000 <= w < 0x0802_0000)
      && (kind == Some(Branch) <==> 0x0802_0000 <= w < 0x2000_0000 || 0x2800_0000 <= w < 0x4000_0000)
      && (flow.Some? && flow.value.policy == TakenOnly <==> kind == Some(Branch) && w % 0x2_0000 >= 0x1_0000)
  {
    hide Signed16, Signed17, Kind, Operation, Source1, Source2;
    WordIsFields(w);
    var bit := w / 0x1_0000 % 2;
    assert w % 0x2_0000 == 0x1_0000 * bit + w % 0x1_0000;
  }

  /** The jumps, by number: a tail jump has no link. */
  lemma JumpsByWord(w: u32, address: nat, anchors: map<nat, u32>)
    ensures var kind := KindOf(w, address, anchors);
      && (kind == Some(Tail) <==> 0xC000_0000 <= w < 0xC800_0000 && w % 0x40_0000 < 0x2_0000)
      && (kind == Some(Call) <==> 0xC000_0000 <= w < 0xC800_0000 && w % 0x40_0000 >= 0x2_0000)
  {
    hide Signed16, Signed17, Kind, Operation, Source1, Source2;
    WordIsFields(w);
  }

  /** The other transfers, by number: `hsc` is one word, `jpc` and `jpcrs` are 32 words each and `trap` is 256. */
  lemma ControlsByWord(w: u32, address: nat, anchors: map<nat, u32>)
    ensures var flow, kind := FlowOf(w, address, anchors), KindOf(w, address, anchors);
      && (kind == Some(Halt) <==> w == 0xCFC0_0000)
      && (kind == Some(Jpc) <==> 0xE800_0000 <= w < 0xE802_0000 && w % 0x1000 == 3)
      && (kind == Some(Jpcrs) <==> 0xF800_0000 <= w < 0xF802_0000 && w % 0x1000 == 3)
      && (kind == Some(Trap) <==> 0xF000_0000 <= w < 0xF000_0800 && w % 8 == 3)
      && (flow.Some? && flow.value.policy == NoSlots <==> kind == Some(Halt) || kind == Some(Trap))
  {
    hide Signed16, Signed17, Kind, Operation, Source1, Source2;
    WordIsFields(w);
  }
}
