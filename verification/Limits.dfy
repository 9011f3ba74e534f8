/** Inputs on which the optimizer's code falls short of preserving meaning, and where exactly the line runs. */
module Limits {
  import opened Rtl
  import opened Semantics
  import opened Flow
  import opened BlockEdges
  import opened Invariant
  import opened AliasLiveness
  import opened AliasFlow
  import opened DeadStores
  import opened ThreadBranches
  import opened DeadBlocks
  import opened Liveness
  import opened Kill
  import opened Unit
  import opened Layout
  import opened Paths
  import opened LiveRanges
  import opened Builder
  import opened FoldConstants
  import opened FoldPass
  import opened FoldScan
  import opened FoldLoads
  import ReadonlyMap
  import Arith
  import Folding

  /** A run has at most one outcome. */
  lemma OneOutcome(env: Env, c: Code, x: Config, m: nat, n: nat)
    requires !Run(env, c, m, x).At? && !Run(env, c, n, x).At?
    ensures Run(env, c, m, x) == Run(env, c, n, x)
  {
    if m <= n {
      RunAdd(env, c, m, n - m, x);
      RunHalted(env, c, n - m, Run(env, c, m, x));
    } else {
      RunAdd(env, c, n, m - n, x);
      RunHalted(env, c, m - n, Run(env, c, n, x));
    }
  }

  /** Codes that end differently on some machine are not correct replacements for each other. */
  lemma EndDifferently(env: Env, c: Code, d: Code, als: map<int, Value>, mem: Memory, m: nat, n: nat)
    requires Run(env, c, m, Init(c, als, mem)).Done? && Run(env, d, n, Init(d, als, mem)).Done?
    requires Run(env, c, m, Init(c, als, mem)) != Run(env, d, n, Init(d, als, mem))
    ensures !Refines(c, d)
  {
    var x, y := Init(c, als, mem), Init(d, als, mem);
    if Refines(c, d) {
      assert Agree(env, c, x, d, y);
      assert Ends(env, c, x, Run(env, c, m, x).o);
      if GetsStuck(env, c, x) {
        var k: nat :| Run(env, c, k, x) == Stuck;
        OneOutcome(env, c, x, k, m);
      } else {
        var k: nat :| Run(env, d, k, y) == Done(Run(env, c, m, x).o);
        OneOutcome(env, d, y, k, n);
      }
    }
  }

  /** A machine whose stores and atomic operations mark memory, and whose calls mark it if they find 7 in alias 1. */
  const Witness: Env := Env(
    x => 0, (m, t, n, i) => Num(0), (m, n, i, v) => m[0 := 1],
    (op, m, xs) => (0, m[0 := 1]),
    (m, bound, xs) => (0, if 1 in bound && bound[1] == Num(7) then m[0 := 1] else m),
    (t, v, w, i) => Num(0))

  function Imm(dest: nat, value: int): Insn { Insn(LOAD_IMM, dest, 0, 0, value) }

  // ---- Dead-store elimination and atomic operations ----

  /** r1 = 5; r2 = atomic increment of [r1]; r3 = r2; return. */
  function AtomicUnit(): Code {
    Code(Decl([INT64, INT64, INT64, INT64], [0]),
         [Imm(1, 5), Insn(ATOMIC_INC, 2, 1, 0, 0), Insn(MOVE, 3, 2, 0, 0), Insn(RETURN, 0, 0, 0, 0)],
         [Span(0, 3, -1, -1)], [-1])
  }

  /** What the sweep makes of it. */
  function WithoutAtomic(): Code {
    AtomicUnit().(insns := [NopInsn, NopInsn, NopInsn, Insn(RETURN, 0, 0, 0, 0)])
  }

  const AtomicRegs: seq<Reg> :=
    [UndefinedReg, Reg(CONSTANT, 5, true, 0, 1), Reg(RESULT_NOFOLD, 0, true, 1, 2), Reg(RESULT, 0, true, 2, 2)]

  lemma AtomicStream()
    ensures SpanOK(AtomicUnit(), 0) && LastInsn(AtomicUnit(), 0).op.RETURN? && StreamOK(AtomicUnit(), [0], 0)
  {
    assert After([0], 0) == -1 && Before([0], 0) == -1;
  }

  lemma AtomicFlows()
    ensures FlowOK(AtomicUnit(), [0], 0)
  {
    hide StreamOK, SpanOK, LastInsn;
    AtomicStream();
    assert PlacedIn(AtomicUnit(), 0);
  }

  lemma AtomicClean()
    ensures Clean(AtomicUnit().decl, AtomicUnit().insns)
  {}

  lemma AtomicLives()
    ensures LiveOK(AtomicUnit().decl, AtomicUnit().insns, AtomicRegs, {})
  {
    var c := AtomicUnit();
    assert Names(c.decl, c.insns[1], 1) && Names(c.decl, c.insns[2], 2);
  }

  /** A lone block without edges. */
  lemma AtomicWired()
    ensures EdgesOK([NoEdges], [0])
  {
    assert IsReal([0], 0) && SlotsOK([0], 0, NoEdges);
    NoOccurrence(0);
    assert EntryCount([NoEdges], 0, 0) == 0;
  }

  lemma AtomicLeaves()
    ensures ExitSet(NoEdges) == {} && Successors(AtomicUnit(), 0) == {}
  {}

  lemma AtomicConstants()
    ensures ConstOK(AtomicUnit().decl, AtomicUnit().insns, AtomicRegs)
  {
    Arith.Pow2Values();
    Folding.USmall(64, 5);
    assert ConstReg(AtomicUnit().decl, AtomicUnit().insns, AtomicRegs, 1);
  }

  /** The unit is one the pass accepts. */
  lemma AtomicWellFormed()
    ensures WellFormed(AtomicUnit(), AtomicRegs, [NoEdges], [0], [0], 0, {})
  {
    hide FlowOK, LiveOK, Clean, ConstOK, EdgesOK, Successors, ExitSet;
    AtomicFlows();
    AtomicLives();
    AtomicClean();
    AtomicConstants();
    AtomicWired();
    AtomicLeaves();
    assert IsReal([0], 0) && SpanOK(AtomicUnit(), 0);
  }

  lemma FourSteps(env: Env, c: Code, x0: Config, x1: Config, x2: Config, x3: Config, x4: Config)
    requires Step(env, c, x0) == x1 && Step(env, c, x1) == x2 && Step(env, c, x2) == x3 && Step(env, c, x3) == x4
    ensures Run(env, c, 4, x0) == x4
  {
    assert Run(env, c, 4, x0) == Run(env, c, 3, x1) == Run(env, c, 2, x2) == Run(env, c, 1, x3) == Run(env, c, 0, x4);
  }

  // The states after each instruction; r1 holds the truncated immediate.
  function AtomicLoaded(): State { State(map[1 := Truncated(INT64, 5)], map[], map[]) }

  function Counted(): State { State(AtomicLoaded().regs[2 := Truncated(INT64, 0)], map[], map[0 := 1]) }

  function Copied(): State { Counted().(regs := Counted().regs[3 := Canonical(INT64, Counted().regs[2])]) }

  lemma AtomicSteps()
    ensures var c := AtomicUnit();
      && Step(Witness, c, Init(c, map[], map[])) == At(0, 1, AtomicLoaded())
      && Step(Witness, c, At(0, 3, Copied())) == Done(Outcome(None, map[0 := 1], map[]))
  {
    hide Truncated, Canonical;
  }

  lemma AtomicCounts()
    ensures Step(Witness, AtomicUnit(), At(0, 1, AtomicLoaded())) == At(0, 2, Counted())
  {
    hide Truncated, Canonical, PureResult;
    var insn := AtomicUnit().insns[1];
    assert forall r: nat :: Reads(AtomicUnit().decl, insn, r) ==> r == 1;
    assert OperandsDefined(AtomicUnit().decl, insn, AtomicLoaded());
  }

  lemma AtomicCopies()
    ensures Step(Witness, AtomicUnit(), At(0, 2, Counted())) == At(0, 3, Copied())
  {
    hide Truncated, Canonical, Result;
    var insn := AtomicUnit().insns[2];
    assert forall r: nat :: Reads(AtomicUnit().decl, insn, r) ==> r == 2;
    assert OperandsDefined(AtomicUnit().decl, insn, Counted());
  }

  lemma AtomicRuns()
    ensures Run(Witness, AtomicUnit(), 4, Init(AtomicUnit(), map[], map[])) == Done(Outcome(None, map[0 := 1], map[]))
  {
    hide Step, AtomicLoaded, Counted, Copied;
    AtomicSteps();
    AtomicCounts();
    AtomicCopies();
    FourSteps(Witness, AtomicUnit(), Init(AtomicUnit(), map[], map[]), At(0, 1, AtomicLoaded()), At(0, 2, Counted()),
              At(0, 3, Copied()), Done(Outcome(None, map[0 := 1], map[])));
  }

  lemma QuietSteps()
    ensures var c, s := WithoutAtomic(), State(map[], map[], map[]);
      && Step(Witness, c, Init(c, map[], map[])) == At(0, 1, s) && Step(Witness, c, At(0, 1, s)) == At(0, 2, s)
      && Step(Witness, c, At(0, 2, s)) == At(0, 3, s)
      && Step(Witness, c, At(0, 3, s)) == Done(Outcome(None, map[], map[]))
  {
    hide Exec;
    NopExec(Witness, WithoutAtomic().decl, State(map[], map[], map[]));
  }

  lemma WithoutAtomicRuns()
    ensures Run(Witness, WithoutAtomic(), 4, Init(WithoutAtomic(), map[], map[])) == Done(Outcome(None, map[], map[]))
  {
    hide Step;
    var s := State(map[], map[], map[]);
    QuietSteps();
    FourSteps(Witness, WithoutAtomic(), Init(WithoutAtomic(), map[], map[]), At(0, 1, s), At(0, 2, s), At(0, 3, s),
              Done(Outcome(None, map[], map[])));
  }

  lemma MarkedDiffers()
    ensures Outcome(None, map[0 := 1], map[]) != Outcome(None, map[], map[])
    ensures Done(Outcome(None, map[0 := 1], map[])) != Done(Outcome(None, map[], map[]))
  {
    var marked: Memory := map[0 := 1];
    assert 0 in marked;
  }

  /** Everything but the RETURN is removable: a chain whose only purpose is the dead MOVE at its end. */
  lemma AtomicRemovable(i: int)
    ensures Removable(AtomicUnit().decl, AtomicUnit().insns, true, i) <==> 0 <= i <= 2
  {
    var c := AtomicUnit();
    assert Reads(c.decl, c.insns[2], 2);
    assert Removable(c.decl, c.insns, true, 2);
    assert Removable(c.decl, c.insns, true, 1);
    assert Removable(c.decl, c.insns, true, 0);
  }

  /** The only code that differs from the unit in its removable instructions being gone. */
  lemma AtomicSwept(insns: seq<Insn>)
    requires OnlyNops(AtomicUnit().insns, insns)
    requires forall i :: Killed(AtomicUnit().insns, insns, i) <==>
               Removable(AtomicUnit().decl, AtomicUnit().insns, true, i)
    ensures insns == WithoutAtomic().insns
  {
    hide Removable;
    forall i | 0 <= i < 4 ensures insns[i] == WithoutAtomic().insns[i] {
      AtomicRemovable(i);
      assert Killed(AtomicUnit().insns, insns, i) <==> i <= 2;
    }
  }

  /** The sweep removes an atomic increment whose result only a dead MOVE reads, and memory changes: the input is well
      formed, and its removable instructions being gone, which is what the sweep does, makes it another program. */
  lemma AtomicLost(insns: seq<Insn>)
    requires OnlyNops(AtomicUnit().insns, insns)
    requires forall i :: Killed(AtomicUnit().insns, insns, i) <==>
               Removable(AtomicUnit().decl, AtomicUnit().insns, true, i)
    ensures WellFormed(AtomicUnit(), AtomicRegs, [NoEdges], [0], [0], 0, {})
    ensures !EffectsNeeded(AtomicUnit(), [0], true) && !Refines(AtomicUnit(), AtomicUnit().(insns := insns))
  {
    hide Refines, Run, Removable, WellFormed;
    var c := AtomicUnit();
    AtomicWellFormed();
    AtomicSwept(insns);
    AtomicRemovable(1);
    assert SpanOK(c, 0) && c.spans[0].first <= 1 <= c.spans[0].last && c.insns[1].op.ATOMIC_INC?;
    AtomicRuns();
    WithoutAtomicRuns();
    MarkedDiffers();
    EndDifferently(Witness, c, WithoutAtomic(), map[], map[], 4, 4);
  }

  /** The sweep itself, applied to that unit. */
  method SweepAtomic() returns (unit: RtlUnit)
    ensures fresh(unit) && UnitOK(unit) && unit.Snap() == WithoutAtomic() && !Refines(AtomicUnit(), unit.Snap())
  {
    hide WellFormed, Refines, Removable, EffectsNeeded;
    unit := new RtlUnit();
    unit.decl, unit.insns, unit.spans, unit.labels := AtomicUnit().decl, AtomicUnit().insns, AtomicUnit().spans,
        AtomicUnit().labels;
    unit.regs, unit.edges, unit.lastBlock, unit.order, unit.owner := AtomicRegs, [NoEdges], 0, [0], [0];
    AtomicWellFormed();
    DropDeadStores(unit, true);
    AtomicSwept(unit.insns);
    AtomicLost(unit.insns);
  }

  // ---- Alias data flow and calls ----

  /** r1 = 7; alias 1 (bound, base r1) = r1; goto L1; L1: call r1; alias 1 = r1; return. */
  function CallUnit(): Code {
    Code(Decl([INT64, ADDRESS], [0, 1]),
         [Imm(1, 7), Insn(SET_ALIAS, 0, 1, 0, 1), Insn(GOTO, 0, 0, 0, 1),
          Insn(LABEL, 0, 0, 0, 1), Insn(CALL, 0, 1, 0, 0), Insn(SET_ALIAS, 0, 1, 0, 1), Insn(RETURN, 0, 0, 0, 0)],
         [Span(0, 2, 1, -1), Span(3, 6, -1, 0)], [-1, 1])
  }

  const CallRegs: seq<Reg> := [UndefinedReg, Reg(CONSTANT, 7, true, 0, 5)]

  function CallEdges(): seq<Edges> { [NoEdges.(exits := [1, -1]), NoEdges.(entries := [0, -1, -1, -1, -1, -1, -1])] }

  lemma CallStream()
    ensures SpanOK(CallUnit(), 0) && SpanOK(CallUnit(), 1) && StreamOK(CallUnit(), [0, 1], 1)
    ensures LastInsn(CallUnit(), 0) == Insn(GOTO, 0, 0, 0, 1) && LastInsn(CallUnit(), 1).op.RETURN?
    ensures Successors(CallUnit(), 0) == {1} && Successors(CallUnit(), 1) == {}
  {
    assert After([0, 1], 0) == 1 && Before([0, 1], 0) == -1 && After([0, 1], 1) == -1 && Before([0, 1], 1) == 0;
  }

  lemma CallFlows()
    ensures FlowOK(CallUnit(), [0, 1], 1)
  {
    hide StreamOK, SpanOK, LastInsn, Successors;
    CallStream();
    CallPlaced();
    hide PlacedIn;
    assert LabelBlock(CallUnit(), 1) == 1 && !StartsWithLabel(CallUnit(), 0) && StartsWithLabel(CallUnit(), 1);
  }

  lemma CallPlaced()
    ensures SpanOK(CallUnit(), 0) && SpanOK(CallUnit(), 1) && PlacedIn(CallUnit(), 0) && PlacedIn(CallUnit(), 1)
  {}

  lemma CallLives()
    ensures LiveOK(CallUnit().decl, CallUnit().insns, CallRegs, {})
  {
    var c := CallUnit();
    assert Names(c.decl, c.insns[5], 1);
  }

  lemma CallClean()
    ensures Clean(CallUnit().decl, CallUnit().insns)
  {}

  lemma CallConstants()
    ensures ConstOK(CallUnit().decl, CallUnit().insns, CallRegs)
  {
    hide Arith.U;
    var c := CallUnit();
    Arith.Pow2Values();
    Folding.USmall(64, 7);
    assert ConstReg(c.decl, c.insns, CallRegs, 1);
  }

  lemma CallSlots()
    ensures SlotsOK([0, 1], 0, CallEdges()[0]) && SlotsOK([0, 1], 1, CallEdges()[1])
    ensures ExitSet(CallEdges()[0]) == {1} && ExitSet(CallEdges()[1]) == {}
  {
    assert IsReal([0, 1], 0) && IsReal([0, 1], 1);
  }

  lemma CallCounts(t: int, f: int)
    requires 0 <= t <= 1 && 0 <= f <= 1
    ensures EntryCount(CallEdges(), t, f) == if t == 1 && f == 0 then 1 else 0
  {
    assert multiset(CallEdges()[1].entries) == multiset{0, -1, -1, -1, -1, -1, -1};
  }

  lemma CallWired()
    ensures EdgesOK(CallEdges(), [0, 1])
  {
    hide SlotsOK, EntryCount, ExitSet;
    CallSlots();
    forall f, t | IsReal([0, 1], f) && IsReal([0, 1], t)
      ensures EntryCount(CallEdges(), t, f) == if t in ExitSet(CallEdges()[f]) then 1 else 0
    {
      CallCounts(t, f);
    }
  }

  /** The unit is one the pass accepts. */
  lemma CallWellFormed()
    ensures WellFormed(CallUnit(), CallRegs, CallEdges(), [0, 1], [0, 1], 1, {})
  {
    hide FlowOK, LiveOK, Clean, ConstOK, EdgesOK, Successors, ExitSet, LastInsn;
    CallStream();
    CallFlows();
    CallLives();
    CallClean();
    CallConstants();
    CallSlots();
    CallWired();
    assert IsReal([0, 1], 0) && IsReal([0, 1], 1);
  }

  lemma CallSeesStore()
    ensures CallVisible(CallUnit(), 0, 1)
  {
    var c := CallUnit();
    CallStream();
    assert !SetIn(c, c.spans[1].first, 4, 1) && IsBound(c.decl, 1) && c.insns[4].op.CALL?
        && c.spans[1].first <= 4 <= c.spans[1].last;
    assert HasCall(c, 1, 1);
    assert ReachesCall(c, 0, 1, [0, 1]);
  }

  lemma StoreDead()
    ensures SpanOK(CallUnit(), 0) && DeadAtEnd(CallUnit(), 0, 1, 1) && DeadStore(CallUnit(), 0, 1)
  {
    var c := CallUnit();
    assert SetsAlias(c.insns[5], 1) && SetIn(c, 3, 7, 1) && HasSet(c, 1, 1);
    assert !HasGet(c, 1, 1);
    assert Successors(c, 0) == {1};
    forall path ensures !ArrivesFrom(c, 0, 1, path) {}
  }

  lemma SecondStays()
    ensures SpanOK(CallUnit(), 1) && !DeadStore(CallUnit(), 1, 5)
  {
    var c := CallUnit();
    CallStream();
    assert ArrivesFrom(c, 1, 1, [1]);
  }

  /** The analysis finds the first store dead, and only that: the second block sets the alias and has no GET_ALIAS
      before that. */
  lemma StoreLooksDead(k: int)
    ensures StoreRemoved(CallUnit(), [0, 1], k) <==> k == 1
    ensures !NoCallSees(CallUnit(), [0, 1])
  {
    var c := CallUnit();
    StoreDead();
    SecondStays();
    CallSeesStore();
    hide Overwritten, DeadAtEnd, CallVisible;
    assert DeadIn(c, [0, 1], 0, 1) && StoreOf(c, 0, 1);
    if StoreRemoved(c, [0, 1], k) {
      var b :| DeadIn(c, [0, 1], b, k);
      assert c.insns[k].op.SET_ALIAS?;
    }
  }

  /** The unit with or without its first store, and the states it goes through. */
  function CallCode(kept: bool): Code { if kept then CallUnit() else WithoutStores(CallUnit(), {1}) }

  const Seven: State := State(map[1 := Num(7)], map[], map[])

  function StoredState(kept: bool): State { if kept then Seven.(als := map[1 := Num(7)]) else Seven }

  function Called(kept: bool): State { StoredState(kept).(mem := if kept then map[0 := 1] else map[]) }

  function CallOutcome(kept: bool): Config {
    Done(Outcome(None, Called(kept).mem, BoundValues(CallUnit().decl, map[1 := Num(7)])))
  }

  const SetOne: Insn := Insn(SET_ALIAS, 0, 1, 0, 1)
  const CallOne: Insn := Insn(CALL, 0, 1, 0, 0)

  lemma CallShape(kept: bool)
    ensures var c := CallCode(kept);
      && c.decl == CallUnit().decl && c.spans == [Span(0, 2, 1, -1), Span(3, 6, -1, 0)] && c.labels == [-1, 1]
      && |c.insns| == 7 && c.insns[0] == Imm(1, 7) && c.insns[1] == (if kept then SetOne else NopInsn)
      && c.insns[2] == Insn(GOTO, 0, 0, 0, 1) && c.insns[3] == Insn(LABEL, 0, 0, 0, 1) && c.insns[4] == CallOne
      && c.insns[5] == SetOne && c.insns[6] == Insn(RETURN, 0, 0, 0, 0)
  {}

  lemma LoadsSeven(kept: bool)
    ensures Step(Witness, CallCode(kept), Init(CallCode(kept), map[], map[])) == At(0, 1, Seven)
  {
    hide CallCode, PureResult;
    CallShape(kept);
    TruncatedSeven();
    assert OperandsDefined(CallUnit().decl, Imm(1, 7), State(map[], map[], map[]));
  }

  lemma OnlyReadsOne(insn: Insn, s: State)
    requires insn.src1 <= 1 && insn.src2 == 0 && 0 <= insn.other <= 1 && (HasSrc3(insn.op) ==> insn.other == 0)
    requires 1 in s.regs
    ensures OperandsDefined(CallUnit().decl, insn, s)
  {}

  lemma SetsOne(s: State)
    requires 1 in s.regs && s.regs[1] == Num(7) && (s.als == map[] || s.als == map[1 := Num(7)])
    ensures Exec(Witness, CallUnit().decl, SetOne, s) == Some(s.(als := map[1 := Num(7)]))
  {
    hide PureResult, OperandsDefined;
    OnlyReadsOne(SetOne, s);
    assert s.als[1 := Num(7)] == map[1 := Num(7)];
  }

  lemma CallsOne(kept: bool)
    ensures Exec(Witness, CallUnit().decl, CallOne, StoredState(kept)) == Some(Called(kept))
  {
    hide PureResult, OperandsDefined;
    OnlyReadsOne(CallOne, StoredState(kept));
    assert IsBound(CallUnit().decl, 1);
  }

  lemma StoresAndJumps(kept: bool)
    ensures Step(Witness, CallCode(kept), At(0, 1, Seven)) == At(0, 2, StoredState(kept))
    ensures Step(Witness, CallCode(kept), At(0, 2, StoredState(kept))) == At(1, 3, StoredState(kept))
    ensures Step(Witness, CallCode(kept), At(1, 3, StoredState(kept))) == At(1, 4, StoredState(kept))
  {
    hide CallCode, Exec;
    CallShape(kept);
    SetsOne(Seven);
    NopExec(Witness, CallUnit().decl, Seven);
    LabelExec(StoredState(kept));
  }

  lemma LabelExec(s: State)
    requires 1 in s.regs
    ensures Exec(Witness, CallUnit().decl, Insn(LABEL, 0, 0, 0, 1), s) == Some(s)
  {
    hide PureResult, OperandsDefined;
    OnlyReadsOne(Insn(LABEL, 0, 0, 0, 1), s);
  }

  lemma CallsAndReturns(kept: bool)
    ensures Step(Witness, CallCode(kept), At(1, 4, StoredState(kept))) == At(1, 5, Called(kept))
    ensures Step(Witness, CallCode(kept), At(1, 5, Called(kept))) == At(1, 6, Called(kept).(als := map[1 := Num(7)]))
    ensures Step(Witness, CallCode(kept), At(1, 6, Called(kept).(als := map[1 := Num(7)]))) == CallOutcome(kept)
  {
    hide CallCode, Exec;
    CallShape(kept);
    CallsOne(kept);
    SetsOne(Called(kept));
  }

  lemma TruncatedSeven()
    ensures PureResult(Witness, CallUnit().decl, Imm(1, 7), State(map[], map[], map[])) == Some(Num(7))
  {
    Arith.Pow2Values();
    Folding.USmall(64, 7);
  }

  lemma CallRuns(kept: bool)
    ensures Run(Witness, CallCode(kept), 8, Init(CallCode(kept), map[], map[])) == CallOutcome(kept)
  {
    hide CallCode, StoredState, Called, CallOutcome, StepInsn;
    var c, x := CallCode(kept), Init(CallCode(kept), map[], map[]);
    LoadsSeven(kept);
    StoresAndJumps(kept);
    CallsAndReturns(kept);
    FourSteps(Witness, c, x, At(0, 1, Seven), At(0, 2, StoredState(kept)), At(1, 3, StoredState(kept)),
              At(1, 4, StoredState(kept)));
    assert CallOutcome(kept).Done? by { OutcomeIsDone(kept); }
    FourSteps(Witness, c, At(1, 4, StoredState(kept)), At(1, 5, Called(kept)),
              At(1, 6, Called(kept).(als := map[1 := Num(7)])),
              CallOutcome(kept), CallOutcome(kept));
    RunAdd(Witness, c, 4, 4, x);
  }

  lemma OutcomeIsDone(kept: bool)
    ensures CallOutcome(kept).Done?
  {}

  lemma CallOutcomesDiffer()
    ensures CallOutcome(true) != CallOutcome(false)
  {
    MarkedDiffers();
    assert Called(true).mem != Called(false).mem;
  }

  lemma OnlyFirstGone(insns: seq<Insn>)
    requires |insns| == |CallUnit().insns|
    requires forall k :: 0 <= k < |insns| ==>
               insns[k] == if StoreRemoved(CallUnit(), [0, 1], k) then NopInsn else CallUnit().insns[k]
    ensures insns == WithoutStores(CallUnit(), {1}).insns
  {
    hide StoreRemoved, NoCallSees;
    forall k | 0 <= k < |insns| ensures insns[k] == WithoutStores(CallUnit(), {1}).insns[k] { StoreLooksDead(k); }
  }

  /** Removing the stores the analysis finds dead changes what the call sees, and so the final memory: the pass is
      not correct where a bound alias is stored in one block and a call follows in another. */
  lemma CallLost(insns: seq<Insn>)
    requires |insns| == |CallUnit().insns|
    requires forall k :: 0 <= k < |insns| ==>
               insns[k] == if StoreRemoved(CallUnit(), [0, 1], k) then NopInsn else CallUnit().insns[k]
    ensures WellFormed(CallUnit(), CallRegs, CallEdges(), [0, 1], [0, 1], 1, {})
    ensures !NoCallSees(CallUnit(), [0, 1]) && !Refines(CallUnit(), CallUnit().(insns := insns))
  {
    hide Refines, Run, StoreRemoved, NoCallSees, CallOutcome, WellFormed;
    CallWellFormed();
    StoreLooksDead(1);
    OnlyFirstGone(insns);
    CallRuns(true);
    CallRuns(false);
    CallOutcomesDiffer();
    OutcomeIsDone(true);
    OutcomeIsDone(false);
    EndDifferently(Witness, CallCode(true), CallCode(false), map[], map[], 8, 8);
  }

  /** The alias pass itself, applied to that unit. */
  method FlowPastCall() returns (unit: RtlUnit)
    ensures fresh(unit) && UnitOK(unit) && unit.Snap() == WithoutStores(CallUnit(), {1})
    ensures !Refines(CallUnit(), unit.Snap())
  {
    hide WellFormed, Refines, StoreRemoved, NoCallSees;
    unit := new RtlUnit();
    unit.decl, unit.insns, unit.spans, unit.labels := CallUnit().decl, CallUnit().insns, CallUnit().spans,
        CallUnit().labels;
    unit.regs, unit.edges, unit.lastBlock, unit.order, unit.owner := CallRegs, CallEdges(), 1, [0, 1], [0, 1];
    unit.blockSeen := [false, false];
    CallWellFormed();
    AliasDataFlow(unit);
    OnlyFirstGone(unit.insns);
    CallLost(unit.insns);
  }

  // ---- Branch threading and a branch to the next block ----

  /** Taking the old target out of a block's exits and putting the new one in (what thread_branch does to the graph)
      gives the exits of the rewritten branch exactly when the branch did not target the block it falls through to, or
      the new target is that block. */
  lemma ThreadedExits(c: Code, b: int, newLabel: int)
    requires SpanOK(c, b) && EndsInBranch(c, b) && newLabel != 0
    requires LabelBlock(c, LastInsn(c, b).other) >= 0 && (IsConditional(LastInsn(c, b).op) ==> c.spans[b].next >= 0)
    ensures var target, target' := LabelBlock(c, LastInsn(c, b).other), LabelBlock(c, newLabel);
      SpanOK(Redirected(c, b, newLabel), b) &&
      (Successors(c, b) - {target} + {target'} == Successors(Redirected(c, b, newLabel), b)
       <==> TwoWay(c, b) || target' == c.spans[b].next)
  {
    var c', next := Redirected(c, b, newLabel), c.spans[b].next;
    var target, target' := LabelBlock(c, LastInsn(c, b).other), LabelBlock(c, newLabel);
    assert LastInsn(c', b) == LastInsn(c, b).(other := newLabel) && Falls(c', b) == Falls(c, b);
    if !TwoWay(c, b) && target' != next {
      assert next in Successors(c', b) && next !in Successors(c, b) - {target} + {target'};
    }
  }

  /** r1 = argument 0; if r1 != 0 goto L1; L1: goto L2; L3: return; L2: store; goto L3. */
  function NextUnit(): Code {
    Code(Decl([INT64, INT64], [0]),
         [Insn(LOAD_ARG, 1, 0, 0, 0), Insn(GOTO_IF_NZ, 0, 1, 0, 1), Insn(LABEL, 0, 0, 0, 1), Insn(GOTO, 0, 0, 0, 2),
          Insn(LABEL, 0, 0, 0, 3), Insn(RETURN, 0, 0, 0, 0),
          Insn(LABEL, 0, 0, 0, 2), StoreOne, Insn(GOTO, 0, 0, 0, 3)],
         [Span(0, 1, 1, -1), Span(2, 3, 2, 0), Span(4, 5, 3, 1), Span(6, 8, -1, 2)], [-1, 1, 3, 2])
  }

  const StoreOne: Insn := Insn(STORE, 0, 1, 1, 0)

  /** The threaded unit once block 1, to which no edge is left, has been taken out of the stream and killed. */
  predicate IsNextDropped(c: Code) {
    && c.decl == NextUnit().decl && c.labels == [-1, -1, 3, 2] && |c.spans| == 4
    && c.spans[0] == Span(0, 1, 2, -1) && c.spans[2] == Span(4, 5, 3, 0)
    && c.insns == NextUnit().insns[1 := Insn(GOTO_IF_NZ, 0, 1, 0, 2)][2 := NopInsn][3 := NopInsn]
  }

  const Zero: State := State(map[1 := Num(0)], map[], map[])

  lemma ReadsOne(c: Code, insn: Insn)
    requires c.decl == NextUnit().decl && insn.src1 <= 1 && insn.src2 <= 1 && (HasSrc3(insn.op) ==> insn.other == 0)
    requires !HasAlias(insn.op)
    ensures OperandsDefined(c.decl, insn, Zero)
  {}

  lemma ArgumentLoads(c: Code, s: State)
    requires c.decl == NextUnit().decl && s == State(map[], map[], map[])
    ensures Exec(Witness, c.decl, Insn(LOAD_ARG, 1, 0, 0, 0), s) == Some(Zero)
  {
    Arith.Pow2Values();
    Folding.USmall(64, 0);
  }

  lemma LabelPasses(c: Code, l: int)
    requires c.decl == NextUnit().decl
    ensures Exec(Witness, c.decl, Insn(LABEL, 0, 0, 0, l), Zero) == Some(Zero)
    ensures Exec(Witness, c.decl, Insn(LABEL, 0, 0, 0, l), Zero.(mem := map[0 := 1])) == Some(Zero.(mem := map[0 := 1]))
  {
    hide PureResult;
    ReadsOne(c, Insn(LABEL, 0, 0, 0, l));
  }

  lemma StoreMarks(c: Code)
    requires c.decl == NextUnit().decl
    ensures Exec(Witness, c.decl, StoreOne, Zero) == Some(Zero.(mem := map[0 := 1]))
  {
    hide PureResult;
    ReadsOne(c, StoreOne);
    var start: Memory := map[];
    assert start[0 := 1] == map[0 := 1];
  }

  lemma NextSteps()
    ensures var c := NextUnit();
      && Step(Witness, c, Init(c, map[], map[])) == At(0, 1, Zero) && Step(Witness, c, At(0, 1, Zero)) == At(0, 2, Zero)
  {
    hide Exec;
    ArgumentLoads(NextUnit(), State(map[], map[], map[]));
  }

  lemma HopSteps()
    ensures var c := NextUnit();
      && Step(Witness, c, At(0, 2, Zero)) == At(1, 2, Zero) && Step(Witness, c, At(1, 2, Zero)) == At(1, 3, Zero)
      && Step(Witness, c, At(1, 3, Zero)) == At(3, 6, Zero)
  {
    hide Exec;
    LabelPasses(NextUnit(), 1);
  }

  lemma MoreSteps(t: State)
    requires t == Zero.(mem := map[0 := 1])
    ensures var c := NextUnit();
      && Step(Witness, c, At(3, 6, Zero)) == At(3, 7, Zero) && Step(Witness, c, At(3, 7, Zero)) == At(3, 8, t)
      && Step(Witness, c, At(3, 8, t)) == At(2, 4, t) && Step(Witness, c, At(2, 4, t)) == At(2, 5, t)
      && Step(Witness, c, At(2, 5, t)) == Done(Outcome(None, t.mem, map[]))
  {
    hide Exec;
    LabelPasses(NextUnit(), 2);
    LabelPasses(NextUnit(), 3);
    StoreMarks(NextUnit());
  }

  lemma NextRuns()
    ensures Run(Witness, NextUnit(), 12, Init(NextUnit(), map[], map[])) == Done(Outcome(None, map[0 := 1], map[]))
  {
    hide Step, NextUnit;
    var c, t := NextUnit(), Zero.(mem := map[0 := 1]);
    var x := Init(c, map[], map[]);
    var end := Done(Outcome(None, t.mem, map[]));
    NextSteps();
    HopSteps();
    MoreSteps(t);
    FourSteps(Witness, c, x, At(0, 1, Zero), At(0, 2, Zero), At(1, 2, Zero), At(1, 3, Zero));
    FourSteps(Witness, c, At(1, 3, Zero), At(3, 6, Zero), At(3, 7, Zero), At(3, 8, t), At(2, 4, t));
    DoneStays(c, end);
    FourSteps(Witness, c, At(2, 4, t), At(2, 5, t), end, end, end);
    RunAdd(Witness, c, 4, 4, x);
    RunAdd(Witness, c, 8, 4, x);
  }

  lemma DoneStays(c: Code, x: Config)
    requires x.Done?
    ensures Step(Witness, c, x) == x
  {}

  lemma DroppedSteps(c: Code)
    requires IsNextDropped(c)
    ensures Step(Witness, c, Init(c, map[], map[])) == At(0, 1, Zero)
    ensures Step(Witness, c, At(0, 1, Zero)) == At(0, 2, Zero)
    ensures Step(Witness, c, At(0, 2, Zero)) == At(2, 4, Zero) && Step(Witness, c, At(2, 4, Zero)) == At(2, 5, Zero)
    ensures Step(Witness, c, At(2, 5, Zero)) == Done(Outcome(None, map[], map[]))
  {
    hide Exec;
    ArgumentLoads(c, State(map[], map[], map[]));
    LabelPasses(c, 3);
  }

  lemma DroppedRuns(c: Code)
    requires IsNextDropped(c)
    ensures Run(Witness, c, 8, Init(c, map[], map[])) == Done(Outcome(None, map[], map[]))
  {
    hide Step, IsNextDropped;
    var x, end := Init(c, map[], map[]), Done(Outcome(None, map[], map[]));
    DroppedSteps(c);
    DoneStays(c, end);
    FourSteps(Witness, c, x, At(0, 1, Zero), At(0, 2, Zero), At(2, 4, Zero), At(2, 5, Zero));
    FourSteps(Witness, c, At(2, 5, Zero), end, end, end, end);
    RunAdd(Witness, c, 4, 4, x);
  }

  const NextRegs: seq<Reg> := [UndefinedReg, Reg(FUNC_ARG, 0, true, 0, 7)]

  function Listing(f: int): seq<int> { [f, -1, -1, -1, -1, -1, -1] }

  function NextEdges(): seq<Edges> {
    [Edges(Listing(-1), -1, [1, -1]), Edges(Listing(0), -1, [3, -1]), Edges(Listing(3), -1, [-1, -1]),
     Edges(Listing(1), -1, [2, -1])]
  }

  const FourBlocks: seq<int> := [0, 1, 2, 3]

  lemma NextStream()
    ensures StreamOK(NextUnit(), FourBlocks, 3) && Tiled(NextUnit(), FourBlocks)
    ensures forall b <- FourBlocks :: SpanOK(NextUnit(), b)
  {
    FourLinks();
    hide After, Before;
  }

  lemma FourLinks()
    ensures forall k :: 0 <= k < 4 ==>
              After(FourBlocks, k) == (if k < 3 then k + 1 else -1) && Before(FourBlocks, k) == k - 1
  {}

  lemma NextLasts()
    ensures forall b <- FourBlocks :: SpanOK(NextUnit(), b)
    ensures LastInsn(NextUnit(), 0) == Insn(GOTO_IF_NZ, 0, 1, 0, 1) && LastInsn(NextUnit(), 1) == Insn(GOTO, 0, 0, 0, 2)
    ensures LastInsn(NextUnit(), 2).op.RETURN? && LastInsn(NextUnit(), 3) == Insn(GOTO, 0, 0, 0, 3)
    ensures Successors(NextUnit(), 0) == {1} && Successors(NextUnit(), 1) == {3}
    ensures Successors(NextUnit(), 2) == {} && Successors(NextUnit(), 3) == {2}
  {}

  lemma NextPlaced()
    ensures forall b <- FourBlocks :: SpanOK(NextUnit(), b) && PlacedIn(NextUnit(), b)
  {}

  lemma NextLabels()
    ensures forall b <- FourBlocks :: SpanOK(NextUnit(), b)
    ensures LabelsOK(NextUnit(), FourBlocks)
  {
    hide SpanOK;
    NextStream();
    var c := NextUnit();
    assert !StartsWithLabel(c, 0) && StartsWithLabel(c, 1) && StartsWithLabel(c, 2) && StartsWithLabel(c, 3);
  }

  lemma NextFlows()
    ensures FlowOK(NextUnit(), FourBlocks, 3)
  {
    hide StreamOK, SpanOK, LastInsn, Successors, LabelsOK, PlacedIn;
    NextStream();
    NextLasts();
    NextPlaced();
    NextLabels();
  }

  lemma NextLives(l: int)
    ensures var insns := NextUnit().insns[1 := Insn(GOTO_IF_NZ, 0, 1, 0, l)];
      LiveOK(NextUnit().decl, insns, NextRegs, {}) && Clean(NextUnit().decl, insns)
          && ConstOK(NextUnit().decl, insns, NextRegs)
  {
    var c := NextUnit();
    assert Names(c.decl, c.insns[7], 1);
  }

  lemma NextSlots(b: int)
    requires 0 <= b <= 3
    ensures IsReal(FourBlocks, b) && SlotsOK(FourBlocks, b, NextEdges()[b])
    ensures b in FourBlocks && SpanOK(NextUnit(), b) && ExitSet(NextEdges()[b]) == Successors(NextUnit(), b)
  {
    hide LastInsn, Successors, SpanOK;
    NextLasts();
    FirstExits();
    hide ExitSet, NextUnit;
    assert b == 0 || b == 1 || b == 2 || b == 3;
  }

  lemma ListedOnce(g: int, f: int)
    requires f >= 0
    ensures multiset(Listing(g))[f] == if f == g then 1 else 0
  {
    assert multiset(Listing(g)) == multiset{g, -1, -1, -1, -1, -1, -1};
  }

  lemma NextWired()
    ensures EdgesOK(NextEdges(), FourBlocks) && Wired(NextUnit(), NextEdges(), FourBlocks, FourBlocks)
  {
    hide SlotsOK, ExitSet, Successors, Listing, SpanOK;
    NextLasts();
    forall b | 0 <= b <= 3
      ensures IsReal(FourBlocks, b) && SlotsOK(FourBlocks, b, NextEdges()[b])
      ensures ExitSet(NextEdges()[b]) == Successors(NextUnit(), b)
    {
      NextSlots(b);
    }
    forall f, t | IsReal(FourBlocks, f) && IsReal(FourBlocks, t)
      ensures EntryCount(NextEdges(), t, f) == if t in ExitSet(NextEdges()[f]) then 1 else 0
    {
      ListedOnce(if t == 0 then -1 else if t == 1 then 0 else if t == 2 then 3 else 1, f);
    }
  }

  /** But for the branch to the next block, the unit is one the pass accepts. */
  lemma NextWellFormed()
    ensures WellFormed(NextUnit(), NextRegs, NextEdges(), FourBlocks, FourBlocks, 3, {})
  {
    hide FlowOK, LiveOK, Clean, ConstOK, Wired;
    NextFlows();
    NextLives(1);
    assert NextUnit().insns[1 := Insn(GOTO_IF_NZ, 0, 1, 0, 1)] == NextUnit().insns;
    NextWired();
    NextLasts();
  }

  /** Threading a conditional branch to the next block drops its only edge: the graph then says block 0 leads to block 3
      alone, and without block 1, which looks unreachable, the fall-through runs into block 2. */
  lemma NextBlockLost(c: Code)
    requires IsNextDropped(c)
    ensures SpanOK(NextUnit(), 0) && !TwoWay(NextUnit(), 0) && !Refines(NextUnit(), c)
  {
    hide Refines, Run, IsNextDropped;
    assert SpanOK(NextUnit(), 0) && !TwoWay(NextUnit(), 0);
    NextRuns();
    DroppedRuns(c);
    MarkedDiffers();
    EndDifferently(Witness, NextUnit(), c, map[], map[], 12, 8);
  }

  /** What the graph of the threaded unit describes: the code in which block 0 ends in an unconditional branch. */
  function NextGraph(): Code { NextUnit().(insns := NextUnit().insns[1 := Insn(GOTO, 0, 1, 0, 2)]) }

  lemma NextGraphFits(edges: seq<Edges>, owner: seq<int>)
    requires EdgesOK(edges, owner) && |edges| >= 4 && (forall b <- FourBlocks :: IsReal(owner, b))
    requires ExitSet(edges[0]) == {3} && ExitSet(edges[1]) == {3} && ExitSet(edges[2]) == {} && ExitSet(edges[3]) == {2}
    ensures GraphOK(NextGraph(), edges, FourBlocks)
  {
    hide EdgesOK, ExitSet;
    var c := NextGraph();
    forall b | b in FourBlocks
      ensures SpanOK(c, b) && |edges[b].exits| == 2 && Packed(edges[b].exits) { EdgeShape(edges, owner, b); }
    assert Successors(c, 0) == {3} && Successors(c, 1) == {3} && Successors(c, 2) == {} && Successors(c, 3) == {2};
  }

  lemma AvoidsOne(path: seq<int>, b: int)
    requires CfgPath(NextGraph(), 0, b, path)
    ensures b != 1
  {
    var c := NextGraph();
    forall b | SpanOK(c, b) ensures 1 !in Successors(c, b) {}
    if |path| > 1 { assert path[|path| - 2 + 1] in Successors(c, path[|path| - 2]); }
  }

  function NextThreaded(): Code { NextUnit().(insns := NextUnit().insns[1 := Insn(GOTO_IF_NZ, 0, 1, 0, 2)]) }

  lemma ThreadedStream()
    ensures StreamOK(NextThreaded(), FourBlocks, 3) && SpanOK(NextThreaded(), 1)
    ensures NextThreaded().spans[1] == Span(2, 3, 2, 0)
  {
    NextStream();
    assert forall b <- FourBlocks :: SpanOK(NextThreaded(), b);
  }

  /** The stream without block 1. */
  lemma UnlinkedSpans(c: Code, lastBlock: int)
    requires SameExtents(NextThreaded(), c) && StreamOK(c, Without(FourBlocks, 1), lastBlock)
    ensures c.spans[0] == Span(0, 1, 2, -1) && c.spans[2] == Span(4, 5, 3, 0) && c.spans[1].first == 2
    ensures c.spans[1].last == 3
    ensures SpanOK(c, 1) && c.insns == NextThreaded().insns && c.labels == NextUnit().labels
  {
    var order := Without(FourBlocks, 1);
    assert order == [0, 2, 3];
    assert After(order, 0) == 2 && Before(order, 0) == -1 && After(order, 1) == 3 && Before(order, 1) == 0;
  }

  /** Block 1 killed: neither of its instructions sets a register. */
  lemma SecondKilled(c: Code, c': Code, regs: seq<Reg>, regs': seq<Reg>, lastBlock: int)
    requires SameExtents(NextThreaded(), c) && StreamOK(c, Without(FourBlocks, 1), lastBlock)
    requires KilledRange(c, c', regs, regs', 2, 4)
    ensures IsNextDropped(c')
  {
    UnlinkedSpans(c, lastBlock);
    hide SameExtents, StreamOK;
    assert c.insns[2] == Insn(LABEL, 0, 0, 0, 1) && c.insns[3] == Insn(GOTO, 0, 0, 0, 2);
    assert GoneOrRead(c'.insns, regs', 2) && GoneOrRead(c'.insns, regs', 3);
    forall l | l == 2 || l == 3 ensures !PlacesLabel(c, 2, 4, l) {}
    assert c'.labels == [-1, -1, 3, 2];
    assert c'.insns == NextUnit().insns[1 := Insn(GOTO_IF_NZ, 0, 1, 0, 2)][2 := NopInsn][3 := NopInsn];
  }

  /** thread_branch on the branch to the next block, then what rtl_opt_drop_dead_blocks does with block 1. */
  method ThreadIntoNext() returns (unit: RtlUnit)
    ensures fresh(unit) && IsNextDropped(unit.Snap()) && !Refines(NextUnit(), unit.Snap())
    ensures WellFormed(NextUnit(), NextRegs, NextEdges(), FourBlocks, FourBlocks, 3, {})
  {
    hide WellFormed, Refines, EdgesOK, GraphOK, IsNextDropped, NextUnit, NextEdges, NextThreaded, NextGraph, Reaches;
    unit := new RtlUnit();
    unit.decl, unit.insns, unit.spans, unit.labels := NextUnit().decl, NextUnit().insns, NextUnit().spans,
        NextUnit().labels;
    unit.regs, unit.edges, unit.lastBlock, unit.order, unit.owner := NextRegs, NextEdges(), 3, FourBlocks, FourBlocks;
    unit.blockSeen := seq(8, _ => false);
    ThreadFirst(unit);
    VisitAll(unit, NextGraph());
    assert !Reaches(NextGraph(), 0, 1) by { NeverOne(); }
    assert !unit.blockSeen[1];
    DropSecond(unit);
    NextBlockLost(unit.Snap());
    NextWellFormed();
  }

  lemma NeverOne()
    ensures !Reaches(NextGraph(), 0, 1)
  {
    if path :| CfgPath(NextGraph(), 0, 1, path) { AvoidsOne(path, 1); }
  }

  method DropSecond(unit: RtlUnit)
    requires unit.Snap() == NextThreaded() && unit.regs == NextRegs && unit.order == FourBlocks && unit.lastBlock == 3
    requires EdgesOK(unit.edges, unit.owner) && IsReal(unit.owner, 1)
    modifies unit`insns, unit`regs, unit`labels, unit`spans, unit`lastBlock, unit`order, unit`edges
    ensures IsNextDropped(unit.Snap())
  {
    hide EdgesOK, IsNextDropped, StreamOK, SameExtents, KilledRange, LiveOK, Clean;
    ThreadedStream();
    NextLives(2);
    Unlink(unit, 1, 1);
    ghost var c, regs := unit.Snap(), unit.regs;
    UnlinkedSpans(c, unit.lastBlock);
    RemoveExits(unit, 1);
    assert SameExtents(NextThreaded(), c) && c.decl == NextUnit().decl by { ExtentsDecl(c); }
    KillBlock(unit, 1);
    SecondKilled(c, unit.Snap(), regs, unit.regs, unit.lastBlock);
  }

  lemma ExtentsDecl(c: Code)
    requires SameExtents(NextThreaded(), c)
    ensures c.decl == NextUnit().decl
  {}

  method ThreadFirst(unit: RtlUnit)
    requires unit.Snap() == NextUnit() && unit.regs == NextRegs && unit.edges == NextEdges()
    requires unit.order == unit.owner == FourBlocks && unit.lastBlock == 3 && |unit.blockSeen| == 8
    modifies unit`insns, unit`edges, unit`spans, unit`owner, unit`blockSeen
    ensures unit.Snap() == NextThreaded() && |unit.blockSeen| == 8
    ensures EdgesOK(unit.edges, unit.owner) && IsReal(unit.owner, 1) && |unit.edges| == 4
    ensures GraphOK(NextGraph(), unit.edges, FourBlocks)
  {
    hide FlowOK, EdgesOK, ExitSet, GraphOK, Threaded, Tiled, StreamOK, SlotsOK, NextEdges;
    NextWired();
    NextFlows();
    NextStream();
    var newLabel, newTarget;
    ghost var labels;
    newLabel, newTarget, labels := FindDestination(unit, 0, 1);
    FoundTwo(newLabel, labels);
    MoveEdge(unit, newTarget);
    unit.insns := unit.insns[1 := unit.insns[1].(other := newLabel)];
    NextGraphFits(unit.edges, unit.owner);
  }

  /** The edge from block 0 to block 1 is replaced by one to block 3. */
  method MoveEdge(unit: RtlUnit, newTarget: int)
    requires unit.edges == NextEdges() && unit.owner == FourBlocks && |unit.spans| == 4 && newTarget == 3
    modifies unit`edges, unit`spans, unit`owner
    ensures EdgesOK(unit.edges, unit.owner) && |unit.edges| == 4 && unit.spans == old(unit.spans)
    ensures forall b <- FourBlocks :: IsReal(unit.owner, b)
    ensures ExitSet(unit.edges[0]) == {3} && ExitSet(unit.edges[1]) == {3} && ExitSet(unit.edges[2]) == {}
    ensures ExitSet(unit.edges[3]) == {2}
  {
    hide EdgesOK, ExitSet, SlotsOK, NextEdges;
    NextWired();
    FirstExits();
    RemoveEdge(unit, 0, 0);
    ShortList(unit.edges, unit.owner);
    var ok := AddEdge(unit, 0, newTarget);
    forall b | 1 <= b < 4
      ensures ExitSet(unit.edges[b]) == ExitSet(NextEdges()[b]) { SameExitSet(unit.edges[b], NextEdges()[b]); }
  }

  lemma NextHops()
    ensures forall b <- FourBlocks :: SpanOK(NextUnit(), b)
    ensures Hop(NextUnit(), 1, 1) == Some(2) && Hop(NextUnit(), 1, 3) == None
    ensures LabelBlock(NextUnit(), 1) == 1 && LabelBlock(NextUnit(), 2) == 3 && NextUnit().insns[1].other == 1
  {}

  lemma ChainHops(c: Code, order: seq<int>, k: int, labels: seq<int>, j: int)
    requires Chain(c, order, k, labels) && 0 <= j < |labels| - 1
    ensures SpanOK(c, LabelBlock(c, labels[j])) && Hop(c, k, LabelBlock(c, labels[j])) == Some(labels[j + 1])
  {}

  lemma FoundTwo(newLabel: int, labels: seq<int>)
    requires Threaded(NextUnit(), FourBlocks, 0, 1, newLabel, labels)
    ensures newLabel == 2
  {
    var c := NextUnit();
    hide Hop, NextUnit, LabelBlock, SpanOK;
    NextHops();
    if |labels| > 1 { ChainHops(c, FourBlocks, 1, labels, 0); }
    if |labels| > 2 { ChainHops(c, FourBlocks, 1, labels, 1); }
  }

  lemma FirstExits()
    ensures |NextEdges()| == 4 && |NextEdges()[0].exits| == 2 && NextEdges()[0].exits[0] == 1
    ensures ExitSet(NextEdges()[0]) == {1} && ExitSet(NextEdges()[1]) == {3}
    ensures ExitSet(NextEdges()[2]) == {} && ExitSet(NextEdges()[3]) == {2}
    ensures forall b <- FourBlocks :: IsReal(FourBlocks, b)
  {}

  lemma SameExitSet(e: Edges, e': Edges)
    requires e.exits == e'.exits
    ensures ExitSet(e) == ExitSet(e')
  {}

  /** Block 3, with one predecessor, has room in its entry list. */
  lemma ShortList(edges: seq<Edges>, owner: seq<int>)
    requires EdgesOK(edges, owner) && owner == FourBlocks && |edges| == 4
    requires ExitSet(edges[0]) == {} && forall b :: 1 <= b < 4 ==> edges[b].exits == NextEdges()[b].exits
    ensures |edges[3].entries| == ENTRY_SLOTS && edges[3].entries[ENTRY_SLOTS - 1] < 0
  {
    hide ExitSet, Occurrences;
    FirstExits();
    forall b | 1 <= b < 4
      ensures ExitSet(edges[b]) == ExitSet(NextEdges()[b]) { SameExitSet(edges[b], NextEdges()[b]); }
    assert SlotsOK(owner, 3, edges[3]);
    var entries := edges[3].entries;
    forall f | IsReal(owner, f) ensures Occurrences(edges[3], f) <= if f == 1 then 1 else 0 {
      assert EntryCount(edges, 3, f) == if 3 in ExitSet(edges[f]) then 1 else 0;
    }
    if entries[ENTRY_SLOTS - 1] >= 0 {
      assert entries[0] in entries && entries[1] in entries;
      OccursTwice(edges[3], entries[0], entries[1]);
    }
  }

  lemma OccursTwice(e: Edges, f: int, g: int)
    requires |e.entries| >= 2 && e.entries[0] == f && e.entries[1] == g
    ensures Occurrences(e, f) >= 1 && Occurrences(e, g) >= 1 && (f == g ==> Occurrences(e, f) >= 2)
  {
    assert e.entries == [f, g] + e.entries[2..];
    assert multiset(e.entries) == multiset{f, g} + multiset(e.entries[2..]);
  }

  // ---- Live ranges and the first register defined ----

  /** r2 = argument 0; r1 = argument 1; L1: store r1 at r1; if r2 != 0 goto L1; return. */
  function LoopUnit(): Code {
    Code(Decl([INT64, INT64, INT64], [0]),
         [Insn(LOAD_ARG, 2, 0, 0, 0), Insn(LOAD_ARG, 1, 0, 0, 1),
          Insn(LABEL, 0, 0, 0, 1), StoreOne, Insn(GOTO_IF_NZ, 0, 2, 0, 1), Insn(RETURN, 0, 0, 0, 0)],
         [Span(0, 1, 1, -1), Span(2, 4, 2, 0), Span(5, 5, -1, 1)], [-1, 1])
  }

  const LoopRegs: seq<Reg> := [UndefinedReg, Reg(FUNC_ARG, 0, true, 1, 3), Reg(FUNC_ARG, 0, true, 0, 4)]

  function LoopEdges(): seq<Edges> {
    [Edges(Listing(-1), -1, [1, -1]), Edges([0, 1, -1, -1, -1, -1, -1], -1, [2, 1]), Edges(Listing(1), -1, [-1, -1])]
  }

  const ThreeBlocks: seq<int> := [0, 1, 2]

  /** The highest register in use so far, at the start of each block. */
  const LoopMax: seq<int> := [0, 2, 2]

  lemma LoopStream()
    ensures StreamOK(LoopUnit(), ThreeBlocks, 2) && forall b <- ThreeBlocks :: SpanOK(LoopUnit(), b)
  {
    assert forall k :: 0 <= k < 3 ==>
        After(ThreeBlocks, k) == (if k < 2 then k + 1 else -1) && Before(ThreeBlocks, k) == k - 1;
  }

  lemma LoopLasts()
    ensures forall b <- ThreeBlocks :: SpanOK(LoopUnit(), b)
    ensures LastInsn(LoopUnit(), 0) == Insn(LOAD_ARG, 1, 0, 0, 1)
    ensures LastInsn(LoopUnit(), 1) == Insn(GOTO_IF_NZ, 0, 2, 0, 1)
    ensures LastInsn(LoopUnit(), 2).op.RETURN?
    ensures Successors(LoopUnit(), 0) == {1} && Successors(LoopUnit(), 1) == {2, 1} && Successors(LoopUnit(), 2) == {}
  {}

  lemma LoopPlaced()
    ensures forall b <- ThreeBlocks :: SpanOK(LoopUnit(), b) && PlacedIn(LoopUnit(), b)
  {}

  lemma LoopFlows()
    ensures FlowOK(LoopUnit(), ThreeBlocks, 2)
  {
    hide StreamOK, SpanOK, LastInsn, Successors, PlacedIn;
    LoopStream();
    LoopLasts();
    LoopPlaced();
    assert !StartsWithLabel(LoopUnit(), 0) && StartsWithLabel(LoopUnit(), 1) && !StartsWithLabel(LoopUnit(), 2);
  }

  lemma LoopLives()
    ensures LiveOK(LoopUnit().decl, LoopUnit().insns, LoopRegs, {})
    ensures ConstOK(LoopUnit().decl, LoopUnit().insns, LoopRegs)
  {
    var c := LoopUnit();
    assert Names(c.decl, c.insns[3], 1) && Names(c.decl, c.insns[4], 2);
  }

  lemma LoopClean()
    ensures Clean(LoopUnit().decl, LoopUnit().insns)
  {}

  lemma LoopHints()
    ensures HintsOK(LoopUnit().spans, LoopRegs, LoopMax)
  {}

  lemma LoopExits()
    ensures ExitSet(LoopEdges()[0]) == {1} && ExitSet(LoopEdges()[1]) == {2, 1} && ExitSet(LoopEdges()[2]) == {}
    ensures forall b <- ThreeBlocks :: IsReal(ThreeBlocks, b)
  {}

  lemma LoopSlots(b: int)
    requires 0 <= b <= 2
    ensures IsReal(ThreeBlocks, b) && SlotsOK(ThreeBlocks, b, LoopEdges()[b])
  {
    LoopExits();
    var e := LoopEdges()[b];
    assert Packed(e.entries) && Packed(e.exits);
    assert forall f <- e.entries :: f == -1 || f in ThreeBlocks;
    assert forall x <- e.exits :: x == -1 || x in ThreeBlocks;
  }

  lemma LoopCounts(t: int, f: int)
    requires 0 <= t <= 2 && 0 <= f <= 2
    ensures EntryCount(LoopEdges(), t, f) == if (t == 1 && f <= 1) || (t == 2 && f == 1) then 1 else 0
  {
    hide Listing;
    ListedOnce(-1, f);
    ListedOnce(1, f);
    ListedTwice(f);
    assert LoopEdges()[t].overflow < 0;
  }

  lemma ListedTwice(f: int)
    requires f >= 0
    ensures multiset([0, 1, -1, -1, -1, -1, -1])[f] == if f <= 1 then 1 else 0
  {
    assert multiset([0, 1, -1, -1, -1, -1, -1]) == multiset{0, 1, -1, -1, -1, -1, -1};
  }

  lemma LoopWired()
    ensures EdgesOK(LoopEdges(), ThreeBlocks) && Wired(LoopUnit(), LoopEdges(), ThreeBlocks, ThreeBlocks)
  {
    hide SlotsOK, EntryCount, ExitSet, Successors, SpanOK;
    LoopLasts();
    LoopExits();
    forall b | 0 <= b <= 2 ensures IsReal(ThreeBlocks, b) && SlotsOK(ThreeBlocks, b, LoopEdges()[b]) { LoopSlots(b); }
    forall f, t | IsReal(ThreeBlocks, f) && IsReal(ThreeBlocks, t)
      ensures EntryCount(LoopEdges(), t, f) == if t in ExitSet(LoopEdges()[f]) then 1 else 0
    {
      LoopCounts(t, f);
    }
  }

  /** A finalized unit, with the numbers the builder records. */
  lemma LoopWellFormed()
    ensures WellFormed(LoopUnit(), LoopRegs, LoopEdges(), ThreeBlocks, ThreeBlocks, 2, {})
    ensures HintsOK(LoopUnit().spans, LoopRegs, LoopMax)
  {
    hide FlowOK, LiveOK, Clean, ConstOK, Wired, HintsOK;
    LoopFlows();
    LoopLives();
    LoopClean();
    LoopHints();
    LoopWired();
    LoopLasts();
  }

  /** The way from the end of the loop body back to the store. */
  const LoopWalk: seq<Point> := [Point(1, 4), Point(1, 2), Point(1, 3)]

  lemma WalksBack()
    ensures IsWalk(LoopUnit(), ThreeBlocks, LoopWalk) && Reads(LoopUnit().decl, LoopUnit().insns[3], 1)
  {
    var c := LoopUnit();
    LoopStream();
    assert EntryPoint(c, 1) == Point(1, 2);
    assert Edge(c, LoopWalk[0], LoopWalk[1]) && Edge(c, LoopWalk[1], LoopWalk[2]);
  }

  /** The loop keeps reading register 1, but its range ends in the middle of the loop. */
  lemma LoopUncovered(u: Frame, regs: seq<Reg>)
    requires u == Frame(LoopUnit(), LoopEdges(), ThreeBlocks, ThreeBlocks, 2, LoopMax) && Widened(LoopRegs, regs, 2)
    ensures |regs| == 3 && regs[1] == LoopRegs[1] && !LoopLived(u, regs, 1, 1)
  {
    LoopExits();
    assert WidenedReg(LoopRegs, regs, 2, 1);
    assert IsPred(u.edges, u.owner, 1, 1);
  }

  lemma LoopWidenable(unit: RtlUnit)
    requires unit.Snap() == LoopUnit() && unit.regs == LoopRegs && unit.edges == LoopEdges()
    requires unit.owner == unit.order == ThreeBlocks
    requires unit.lastBlock == 2 && unit.firstLiveReg == 2 && unit.maxLive == LoopMax && |unit.minDeath| == 3
    ensures Widenable(unit)
  {
    hide EdgesOK, StreamOK;
    LoopStream();
    LoopWired();
    LoopExits();
  }

  /** rtl_update_live_ranges on that unit: the first register defined is register 2, so that register 1 is never
      looked at. On the way around the loop to its next read, instruction 4 lies outside its range. */
  method WidenFromTwo() returns (unit: RtlUnit)
    ensures fresh(unit) && unit.Snap() == LoopUnit() && |unit.regs| == 3 && !LoopLived(FrameOf(unit), unit.regs, 1, 1)
    ensures IsWalk(LoopUnit(), ThreeBlocks, LoopWalk) && Reads(unit.decl, unit.insns[Last(LoopWalk).i], 1)
    ensures unit.regs[1].death == 3 < LoopWalk[0].i
    ensures WellFormed(LoopUnit(), LoopRegs, LoopEdges(), ThreeBlocks, ThreeBlocks, 2, {})
    ensures HintsOK(LoopUnit().spans, LoopRegs, LoopMax)
  {
    hide WellFormed, HintsOK, Widened, LoopLived, Least, LoopsCovered, Widenable, LoopUnit, LoopEdges, DeathsRecorded,
      IsWalk, Reads;
    unit := new RtlUnit();
    unit.decl, unit.insns, unit.spans, unit.labels := LoopUnit().decl, LoopUnit().insns, LoopUnit().spans,
        LoopUnit().labels;
    unit.regs, unit.edges, unit.lastBlock, unit.order, unit.owner := LoopRegs, LoopEdges(), 2, ThreeBlocks, ThreeBlocks;
    unit.firstLiveReg, unit.maxLive, unit.minDeath := 2, LoopMax, [0, 0, 0];
    LoopWidenable(unit);
    UpdateLiveRanges(unit);
    LoopUncovered(FrameOf(unit), unit.regs);
    WalksBack();
    LoopWellFormed();
  }

  // ---- Loads that leave read-only memory ----

  /** r1 = argument 0 (the guest memory base); r2 = 32 bits at r1; return r2. */
  function StraddleUnit(): Code {
    Code(Decl([INT64, ADDRESS, INT32], [0]),
         [Insn(LOAD_ARG, 1, 0, 0, 0), Insn(LOAD, 2, 1, 0, 0), Insn(RETURN, 0, 2, 0, 0)], [Span(0, 2, -1, -1)], [-1])
  }

  function StraddleFolded(): Code { StraddleUnit().(insns := StraddleUnit().insns[1 := Imm(2, 0)]) }

  const StraddleRegs: seq<Reg> := [UndefinedReg, Reg(FUNC_ARG, 0, true, 0, 1), Reg(MEMORY, 0, true, 1, 2)]

  /** Only the byte at address 0 is read-only, and it is 0. */
  ghost function OneByte(): Guest { Guest(0, ReadonlyMap.Region(0, 1), ZeroImage) }

  function ZeroImage(a: int): nat { 0 }

  /** A machine on which the next byte happens to be 1. */
  const Straddler: Env := Witness.(load := (m, t, n, i) => Num(256))

  lemma OneByteHonest()
    ensures Honest(Straddler, OneByte())
  {
    hide Word;
    forall m, t, n: nat, off {:trigger Straddler.load(m, t, n, off)} | IsScalar(t)
      ensures !AllReadonly(OneByte(), Arith.U(64, n + off - GuestBase(Straddler, OneByte())), LoadSize(t))
    {
      NotInside(Arith.U(64, n + off - GuestBase(Straddler, OneByte())), LoadSize(t));
    }
  }

  lemma NotInside(a: int, n: nat)
    requires n >= 4
    ensures !AllReadonly(OneByte(), a, n)
  {
    assert a >= 0 ==> a + 1 !in OneByte().readonly;
  }

  lemma StraddleFlows()
    ensures FlowOK(StraddleUnit(), [0], 0) && SpanOK(StraddleUnit(), 0) && Successors(StraddleUnit(), 0) == {}
  {
    var c := StraddleUnit();
    assert After([0], 0) == -1 && Before([0], 0) == -1;
    assert SpanOK(c, 0) && LastInsn(c, 0).op.RETURN? && PlacedIn(c, 0);
  }

  lemma StraddleLives()
    ensures LiveOK(StraddleUnit().decl, StraddleUnit().insns, StraddleRegs, {})
    ensures ConstOK(StraddleUnit().decl, StraddleUnit().insns, StraddleRegs)
  {
    var c := StraddleUnit();
    assert Names(c.decl, c.insns[1], 1) && Names(c.decl, c.insns[2], 2);
  }

  lemma StraddleTyped()
    ensures Clean(StraddleUnit().decl, StraddleUnit().insns)
    ensures TypedOK(StraddleUnit().decl, StraddleUnit().insns, StraddleRegs)
  {}

  lemma StraddleFoldable()
    ensures FoldState(StraddleUnit(), StraddleRegs, [NoEdges], [0], [0], 0, {}, 1)
  {
    hide FlowOK, LiveOK, Clean, ConstOK, EdgesOK, Successors, TypedOK;
    StraddleFlows();
    StraddleLives();
    StraddleTyped();
    AtomicWired();
    AtomicLeaves();
    assert IsReal([0], 0);
  }

  const Based: State := State(map[1 := Num(0)], map[], map[])

  lemma StraddleShape(c: Code)
    requires c == StraddleUnit() || c == StraddleFolded()
    ensures |c.insns| == 3 && c.insns[0] == Insn(LOAD_ARG, 1, 0, 0, 0) && c.insns[2] == Insn(RETURN, 0, 2, 0, 0)
    ensures c.insns[1] == if c == StraddleUnit() then Insn(LOAD, 2, 1, 0, 0) else Imm(2, 0)
    ensures c.spans == [Span(0, 2, -1, -1)] && c.decl == Decl([INT64, ADDRESS, INT32], [0])
    ensures Init(c, map[], map[]) == At(0, 0, State(map[], map[], map[]))
  {}

  const StraddleDecl: Decl := Decl([INT64, ADDRESS, INT32], [0])

  lemma StraddleSteps(c: Code, v: nat)
    requires c == StraddleUnit() || c == StraddleFolded()
    requires v == if c == StraddleUnit() then 256 else 0
    ensures Step(Straddler, c, Init(c, map[], map[])) == At(0, 1, Based)
    ensures Step(Straddler, c, At(0, 1, Based)) == At(0, 2, Fetched(v))
    ensures Step(Straddler, c, At(0, 2, Fetched(v))) == Done(Outcome(Some(Num(v)), map[], map[]))
  {
    hide Exec, StraddleUnit, StraddleFolded, Init;
    StraddleShape(c);
    ArgumentBase();
    ByteFetched();
    ZeroFetched();
    assert BoundValues(c.decl, Fetched(v).als) == map[];
  }

  function Fetched(v: nat): State { Based.(regs := map[1 := Num(0), 2 := Num(v)]) }

  lemma ArgumentBase()
    ensures Exec(Straddler, StraddleDecl, Insn(LOAD_ARG, 1, 0, 0, 0), State(map[], map[], map[])) == Some(Based)
  {
    hide Arith.U, Result, Arith.Pow2;
    SmallValues();
    assert State(map[], map[], map[]).regs[1 := Num(0)] == Based.regs;
  }

  lemma ByteFetched()
    ensures Exec(Straddler, StraddleDecl, Insn(LOAD, 2, 1, 0, 0), Based) == Some(Fetched(256))
  {
    hide Arith.U, Result, Arith.Pow2;
    SmallValues();
    assert Based.regs[2 := Num(256)] == Fetched(256).regs;
  }

  lemma ZeroFetched()
    ensures Exec(Straddler, StraddleDecl, Imm(2, 0), Based) == Some(Fetched(0))
  {
    hide Arith.U, Result, Arith.Pow2;
    SmallValues();
    assert Based.regs[2 := Num(0)] == Fetched(0).regs;
  }

  lemma SmallValues()
    ensures Arith.U(64, 0) == 0 && Arith.U(32, 0) == 0 && Arith.U(32, 256) == 256
  {
    Arith.Pow2Values();
    Folding.USmall(64, 0);
    Folding.USmall(32, 0);
    Folding.USmall(32, 256);
  }

  lemma StraddleRuns(c: Code)
    requires c == StraddleUnit() || c == StraddleFolded()
    ensures Run(Straddler, c, 4, Init(c, map[], map[])) ==
            Done(Outcome(Some(Num(if c == StraddleUnit() then 256 else 0)), map[], map[]))
  {
    hide Step, StraddleUnit, StraddleFolded, Init, Fetched;
    var v := if c == StraddleUnit() then 256 else 0;
    var end := Done(Outcome(Some(Num(v)), map[], map[]));
    StraddleSteps(c, v);
    assert Step(Straddler, c, end) == end by { HaltStays(c, end); }
    FourSteps(Straddler, c, Init(c, map[], map[]), At(0, 1, Based), At(0, 2, Fetched(v)), end, end);
  }

  lemma HaltStays(c: Code, x: Config)
    requires x.Done?
    ensures Step(Straddler, c, x) == x
  {}

  /** Replacing that load by what read-only memory holds changes the result, although the machine is honest. */
  lemma StraddlingLoadLost()
    ensures !RefinesOn(OneByte(), StraddleUnit(), StraddleFolded())
  {
    hide Run, Honest, StraddleUnit;
    var c, d := StraddleUnit(), StraddleFolded();
    OneByteHonest();
    StraddleRuns(c);
    StraddleRuns(d);
    assert c.insns[1].op.LOAD? && d.insns[1].op.LOAD_IMM? by { StraddleShapes(); }
    var x, y := Init(c, map[], map[]), Init(d, map[], map[]);
    if RefinesOn(OneByte(), c, d) {
      assert Agree(Straddler, c, x, d, y);
      OutcomesOf(Straddler, c, d, x, y, 4, 4);
    }
  }

  lemma StraddleShapes()
    ensures |StraddleUnit().insns| == |StraddleFolded().insns| == 3
    ensures StraddleUnit().insns[1].op.LOAD? && StraddleFolded().insns[1].op.LOAD_IMM?
  {}

  /** Runs that agree do not end differently. */
  lemma OutcomesOf(env: Env, c: Code, d: Code, x: Config, y: Config, m: nat, n: nat)
    requires Agree(env, c, x, d, y) && Run(env, c, m, x).Done? && Run(env, d, n, y).Done?
    ensures Run(env, c, m, x) == Run(env, d, n, y)
  {
    assert Ends(env, c, x, Run(env, c, m, x).o);
    if GetsStuck(env, c, x) {
      var k: nat :| Run(env, c, k, x) == Stuck;
      OneOutcome(env, c, x, k, m);
    } else {
      var k: nat :| Run(env, d, k, y) == Done(Run(env, c, m, x).o);
      OneOutcome(env, d, y, k, n);
    }
  }

  method OneByteHandle() returns (handle: ReadonlyMap.Handle)
    ensures fresh(handle) && handle.Valid() && handle.contents == OneByte().readonly
  {
    hide ReadonlyMap.TablesOK, ReadonlyMap.Records, ReadonlyMap.EntryAdded, ReadonlyMap.SortedPages;
    handle := new ReadonlyMap.Handle(false);
    var added, _ := handle.AddRegion(0, 1);
    assert ReadonlyMap.Marked(0, 1) == OneByte().readonly;
  }

  method StraddleSetup() returns (unit: RtlUnit)
    ensures fresh(unit) && FoldOK(unit, {}, 1) && unit.membaseReg == 1 && unit.Snap() == StraddleUnit()
    ensures unit.regs == StraddleRegs
  {
    hide FoldState, StraddleUnit;
    unit := new RtlUnit();
    unit.decl, unit.insns, unit.spans, unit.labels :=
      StraddleUnit().decl, StraddleUnit().insns, StraddleUnit().spans, StraddleUnit().labels;
    unit.regs, unit.edges, unit.lastBlock, unit.order, unit.owner := StraddleRegs, [NoEdges], 0, [0], [0];
    unit.membaseReg := 1;
    StraddleFoldable();
  }

  lemma StraddleReadonly()
    ensures LoadsReadonly(StraddleUnit(), StraddleRegs, 1, OneByte().readonly, 1)
    ensures LoadedInsn(StraddleUnit(), StraddleRegs, 1, ZeroImage, 1) == Imm(2, 0)
    ensures StraddleUnit().insns[1].op.LOAD? && StraddleUnit().insns[1].dest == 2
    ensures |StraddleUnit().insns| == 3
    ensures StraddleFolded() == StraddleUnit().(insns := StraddleUnit().insns[1 := Imm(2, 0)])
  {
    ZeroWord(4, 0);
    Arith.Pow2Values();
  }

  lemma {:induction false} ZeroWord(n: nat, a: int)
    ensures Word(ZeroImage, n, a) == 0
  {
    if n > 0 { ZeroWord(n - 1, a + 1); }
  }

  /** fold_readonly_load on that unit: the address of the first byte is looked up, and the other three are not. */
  method FoldStraddling() returns (unit: RtlUnit)
    ensures fresh(unit) && unit.Snap() == StraddleFolded() && !RefinesOn(OneByte(), StraddleUnit(), unit.Snap())
  {
    hide FoldState, RefinesOn, LoadInside, ReadsKnown, LoadsReadonly, LoadedInsn, StraddleUnit, StraddleFolded,
      ReadonlyMap.TablesOK, ReadonlyMap.Records;
    unit := StraddleSetup();
    var handle := OneByteHandle();
    StraddleReadonly();
    FoldLoad(unit, 1, handle, ZeroImage, OneByte());
    StraddlingLoadLost();
  }
}
