/** Branches are threaded before branches to the next block are dropped.  What is dropped then can take definitions
    with it, and leave a branch leading to another jump after all. */
module LateJumps {
  import opened Rtl
  import opened Liveness
  import opened Semantics
  import opened Flow
  import opened BlockEdges
  import opened Unit
  import opened Kill
  import opened Invariant
  import opened AliasFlow
  import opened ThreadBranches
  import opened DeadBranches

  /** r1 = argument 0; if r1 == 0 goto L1; return; L1: r2 = ~r1; if r1 == 0 goto L2; if r2 == 0 goto L2; L2: return. */
  function EarlyUnit(): Code {
    Code(Decl([INT64, INT64, INT64], [0]),
         [Insn(LOAD_ARG, 1, 0, 0, 0), Insn(GOTO_IF_Z, 0, 1, 0, 1), Insn(RETURN, 0, 0, 0, 0),
          Insn(LABEL, 0, 0, 0, 1), Insn(ALU1(NOT), 2, 1, 0, 0), Insn(GOTO_IF_Z, 0, 1, 0, 2),
          Insn(GOTO_IF_Z, 0, 2, 0, 2), Insn(LABEL, 0, 0, 0, 2), Insn(RETURN, 0, 0, 0, 0)],
         [Span(0, 1, 1, -1), Span(2, 2, 2, 0), Span(3, 5, 3, 1), Span(6, 6, 4, 2), Span(7, 8, -1, 3)], [-1, 2, 4])
  }

  const EarlyRegs: seq<Reg> := [UndefinedReg, Reg(FUNC_ARG, 0, true, 0, 5), Reg(RESULT, 0, true, 4, 6)]

  const FiveBlocks: seq<int> := [0, 1, 2, 3, 4]

  function Listing(e: int, f: int): seq<int> { [e, f, -1, -1, -1, -1, -1] }

  function EarlyEdges(): seq<Edges> {
    [Edges(Listing(-1, -1), -1, [1, 2]), Edges(Listing(0, -1), -1, [-1, -1]), Edges(Listing(0, -1), -1, [3, 4]),
     Edges(Listing(2, -1), -1, [4, -1]), Edges(Listing(2, 3), -1, [-1, -1])]
  }

  lemma EarlyLinks()
    ensures forall k :: 0 <= k < 5 ==>
              After(FiveBlocks, k) == (if k < 4 then k + 1 else -1) && Before(FiveBlocks, k) == k - 1
  {}

  lemma EarlyStream()
    ensures StreamOK(EarlyUnit(), FiveBlocks, 4) && forall b <- FiveBlocks :: SpanOK(EarlyUnit(), b)
  {
    EarlyLinks();
    hide After, Before;
  }

  lemma EarlyLasts()
    ensures forall b <- FiveBlocks :: SpanOK(EarlyUnit(), b)
    ensures LastInsn(EarlyUnit(), 0) == Insn(GOTO_IF_Z, 0, 1, 0, 1) && LastInsn(EarlyUnit(), 1).op.RETURN?
    ensures LastInsn(EarlyUnit(), 2) == Insn(GOTO_IF_Z, 0, 1, 0, 2) && LastInsn(EarlyUnit(), 4).op.RETURN?
    ensures LastInsn(EarlyUnit(), 3) == Insn(GOTO_IF_Z, 0, 2, 0, 2)
    ensures Successors(EarlyUnit(), 0) == {1, 2} && Successors(EarlyUnit(), 1) == {}
    ensures Successors(EarlyUnit(), 2) == {3, 4} && Successors(EarlyUnit(), 3) == {4}
    ensures Successors(EarlyUnit(), 4) == {}
  {}

  lemma EarlyPlaced()
    ensures forall b <- FiveBlocks :: SpanOK(EarlyUnit(), b) && PlacedIn(EarlyUnit(), b)
  {}

  lemma EarlyLabels()
    ensures forall b <- FiveBlocks :: SpanOK(EarlyUnit(), b)
    ensures LabelsOK(EarlyUnit(), FiveBlocks)
  {
    hide SpanOK;
    EarlyStream();
    var c := EarlyUnit();
    assert !StartsWithLabel(c, 0) && !StartsWithLabel(c, 1) && StartsWithLabel(c, 2);
    assert !StartsWithLabel(c, 3) && StartsWithLabel(c, 4);
  }

  lemma EarlyFlows()
    ensures FlowOK(EarlyUnit(), FiveBlocks, 4)
  {
    hide StreamOK, SpanOK, LastInsn, Successors, LabelsOK, PlacedIn;
    EarlyStream();
    EarlyLasts();
    EarlyPlaced();
    EarlyLabels();
  }

  lemma EarlyCovers()
    ensures Covers(EarlyUnit().decl, EarlyUnit().insns, EarlyRegs)
  {}

  lemma EarlyClean()
    ensures Clean(EarlyUnit().decl, EarlyUnit().insns) && SsaOK(EarlyUnit().insns, EarlyRegs)
  {}

  lemma EarlyLives()
    ensures LiveOK(EarlyUnit().decl, EarlyUnit().insns, EarlyRegs, {})
    ensures Clean(EarlyUnit().decl, EarlyUnit().insns) && ConstOK(EarlyUnit().decl, EarlyUnit().insns, EarlyRegs)
  {
    hide Covers, Clean, SsaOK;
    EarlyCovers();
    EarlyClean();
    assert Names(EarlyUnit().decl, EarlyUnit().insns[5], 1) && Names(EarlyUnit().decl, EarlyUnit().insns[6], 2);
  }

  lemma EarlyExits()
    ensures ExitSet(EarlyEdges()[0]) == {1, 2} && ExitSet(EarlyEdges()[1]) == {} && ExitSet(EarlyEdges()[2]) == {3, 4}
    ensures ExitSet(EarlyEdges()[3]) == {4} && ExitSet(EarlyEdges()[4]) == {}
  {}

  lemma EarlySlots(b: int)
    requires 0 <= b <= 4
    ensures IsReal(FiveBlocks, b) && SlotsOK(FiveBlocks, b, EarlyEdges()[b])
    ensures b in FiveBlocks && SpanOK(EarlyUnit(), b) && ExitSet(EarlyEdges()[b]) == Successors(EarlyUnit(), b)
  {
    hide LastInsn, Successors, SpanOK;
    EarlyLasts();
    EarlyExits();
    hide ExitSet, EarlyUnit;
    assert b == 0 || b == 1 || b == 2 || b == 3 || b == 4;
  }

  lemma ListedOnce(e: int, g: int, f: int)
    requires f >= 0 && (e != g || e < 0)
    ensures multiset(Listing(e, g))[f] == if f == e || f == g then 1 else 0
  {
    assert multiset(Listing(e, g)) == multiset{e, g, -1, -1, -1, -1, -1};
  }

  lemma EarlyCounts(f: int, t: int)
    requires 0 <= f <= 4 && 0 <= t <= 4
    ensures EntryCount(EarlyEdges(), t, f) == if t in ExitSet(EarlyEdges()[f]) then 1 else 0
  {
    EarlyExits();
    hide ExitSet, Listing;
    ListedOnce(if t == 0 then -1 else if t <= 2 then 0 else 2, if t == 4 then 3 else -1, f);
  }

  lemma EarlyWired()
    ensures EdgesOK(EarlyEdges(), FiveBlocks) && Wired(EarlyUnit(), EarlyEdges(), FiveBlocks, FiveBlocks)
  {
    hide SlotsOK, ExitSet, Successors, Listing, SpanOK, EntryCount;
    EarlyLasts();
    forall b | 0 <= b <= 4
      ensures IsReal(FiveBlocks, b) && SlotsOK(FiveBlocks, b, EarlyEdges()[b])
      ensures ExitSet(EarlyEdges()[b]) == Successors(EarlyUnit(), b)
    {
      EarlySlots(b);
    }
    forall f, t | IsReal(FiveBlocks, f) && IsReal(FiveBlocks, t)
      ensures EntryCount(EarlyEdges(), t, f) == if t in ExitSet(EarlyEdges()[f]) then 1 else 0
    {
      EarlyCounts(f, t);
    }
  }

  lemma EarlyWellFormed()
    ensures WellFormed(EarlyUnit(), EarlyRegs, EarlyEdges(), FiveBlocks, FiveBlocks, 4, {})
  {
    hide FlowOK, LiveOK, Clean, ConstOK, Wired;
    EarlyFlows();
    EarlyLives();
    EarlyWired();
  }

  /** Before, every branch goes straight to where control stays. */
  lemma EarlyDirect(b: int)
    requires b in FiveBlocks
    ensures Direct(EarlyUnit(), b)
  {
    hide ComesRound;
    var c := EarlyUnit();
    assert c.insns[4].op == ALU1(NOT) && c.insns[3].op == LABEL;
    forall j ensures !JumpsAt(c, c.insns[1], 2, j) {}
    forall br, j ensures !JumpsAt(c, br, 4, j) {}
    assert b == 0 || b == 1 || b == 2 || b == 3 || b == 4;
  }

  /** What rtl_opt_drop_dead_branches leaves: the branch to the next block and the definition it tested are gone. */
  predicate IsLate(c: Code) {
    && c == EarlyUnit().(insns := c.insns, labels := c.labels) && OnlyNops(EarlyUnit().insns, c.insns)
    && c.insns[1] == EarlyUnit().insns[1] && c.insns[4] == NopInsn && c.insns[5] == EarlyUnit().insns[5]
    && c.insns[6] == NopInsn && LabelBlock(c, 1) == 2 && LabelBlock(c, 2) == 4
  }

  lemma FatesAre(c: Code)
    requires c == EarlyUnit().(insns := c.insns, labels := c.labels) && OnlyNops(EarlyUnit().insns, c.insns)
    requires BranchFate(EarlyUnit(), c, 0) && BranchFate(EarlyUnit(), c, 2) && BranchFate(EarlyUnit(), c, 3)
    ensures c.insns[1] == EarlyUnit().insns[1] && c.insns[5] == EarlyUnit().insns[5] && c.insns[6] == NopInsn
    ensures LabelBlock(c, 1) == 2 && LabelBlock(c, 2) == 4
  {
    hide Successors;
    EarlyLasts();
  }

  lemma ConditionDies(c: Code)
    requires c == EarlyUnit().(insns := c.insns, labels := c.labels) && OnlyNops(EarlyUnit().insns, c.insns)
    requires c.insns[6] == NopInsn
    requires Killed(EarlyUnit().insns, c.insns, 4) <==> DefinitionDies(EarlyUnit(), c, false, true, 4)
    ensures c.insns[4] == NopInsn
  {
    var c0 := EarlyUnit();
    assert Reads(c0.decl, c0.insns[6], 2);
    forall j | 0 <= j < 9 ensures !Reads(c.decl, c.insns[j], 2) {
      assert c.insns[j] == NopInsn || c.insns[j] == c0.insns[j];
    }
    assert c0.insns[4].dest == 2 && !HasReader(c.decl, c.insns, 2);
  }

  /** Afterwards the branch that ends block 0 leads to a jump, without lying on a circle. */
  lemma LeadsToJump(c: Code)
    requires IsLate(c)
    ensures !Direct(c, 0)
  {
    var br := c.insns[1];
    assert c.insns[3].op == LABEL || c.insns[3].op == NOP;
    assert JumpsAt(c, br, 2, 5);
    forall ts: set<int> | JumpsWithin(c, br, 0, ts) ensures 2 !in ts {
      assert 2 in ts ==> JumpsInto(c, br, 2, ts + {0});
      assert 4 in ts ==> JumpsInto(c, br, 4, ts + {0});
      StaysAtEnd(c, br);
      OnlyJump(c, br);
    }
  }

  lemma StaysAtEnd(c: Code, br: Insn)
    requires IsLate(c)
    ensures Stays(c, br, 4)
  {
    assert c.insns[8].op == RETURN || c.insns[8].op == NOP;
    forall j ensures !JumpsAt(c, br, 4, j) {}
  }

  lemma OnlyJump(c: Code, br: Insn)
    requires IsLate(c)
    ensures forall j :: JumpsAt(c, br, 2, j) ==> j == 5
  {
    forall j | JumpsAt(c, br, 2, j) ensures j == 5 {
      if j > 5 { assert c.insns[5].op == GOTO_IF_Z; }
    }
  }

  /** Every branch of the unit goes straight to where control stays; rtl_opt_drop_dead_branches drops the last one, and
      with dse the definition it tested, and then the first one no longer does. */
  method JumpLeftBehind() returns (unit: RtlUnit)
    ensures fresh(unit) && WellFormed(EarlyUnit(), EarlyRegs, EarlyEdges(), FiveBlocks, FiveBlocks, 4, {})
    ensures forall b <- FiveBlocks :: Direct(EarlyUnit(), b)
    ensures unit.order == FiveBlocks && IsLate(unit.Snap()) && !Direct(unit.Snap(), 0)
  {
    hide WellFormed, Direct, IsLate, BranchFate, DefinitionDies, EarlyUnit, EarlyEdges, NoneToNext, Targeted, Refines,
      BranchOrRead;
    unit := new RtlUnit();
    unit.decl, unit.insns, unit.spans, unit.labels := EarlyUnit().decl, EarlyUnit().insns, EarlyUnit().spans,
        EarlyUnit().labels;
    unit.regs, unit.edges, unit.lastBlock, unit.order, unit.owner := EarlyRegs, EarlyEdges(), 4, FiveBlocks, FiveBlocks;
    EarlyWellFormed();
    assert unit.Snap() == EarlyUnit();
    DropDeadBranches(unit, false, true);
    Dropped(unit.Snap());
    LeadsToJump(unit.Snap());
    forall b | b in FiveBlocks ensures Direct(EarlyUnit(), b) { EarlyDirect(b); }
  }

  lemma Dropped(c: Code)
    requires c == EarlyUnit().(insns := c.insns, labels := c.labels) && OnlyNops(EarlyUnit().insns, c.insns)
    requires forall b <- FiveBlocks :: BranchFate(EarlyUnit(), c, b)
    requires forall i :: 0 <= i < |c.insns| && EarlyUnit().insns[i].dest > 1 ==>
               (Killed(EarlyUnit().insns, c.insns, i) <==> DefinitionDies(EarlyUnit(), c, false, true, i))
    ensures IsLate(c)
  {
    hide BranchFate, DefinitionDies;
    FatesAre(c);
    ConditionDies(c);
  }
}
