/** rtl_optimize_unit: the passes in order, and what the whole of them preserves. */
module Optimize {
  import opened Rtl
  import opened Liveness
  import opened Semantics
  import opened Flow
  import opened BlockEdges
  import opened Unit
  import opened Kill
  import opened Invariant
  import opened Removal
  import opened Paths
  import opened FoldConstants
  import opened FoldScan
  import opened FoldLoads
  import opened Decondition
  import opened AliasLiveness
  import opened AliasFlow
  import opened DeadStores
  import opened ThreadBranches
  import opened DeadBlocks
  import opened DeadBranches
  import opened Effects
  import opened Control
  import opened Traces
  import opened Safety
  import ReadonlyMap

  // ---- What one stage leaves for the next ----

  /** There are no new or changed conditional branches. */
  predicate KeepsConditionals(c: Code, c': Code) {
    c' == c.(insns := c'.insns) && |c'.insns| == |c.insns| && forall i :: 0 <= i < |c.insns| ==>
      (IsConditional(c'.insns[i].op) ==> c'.insns[i] == c.insns[i])
  }

  lemma StaysTwoWay(c: Code, c': Code, order: seq<int>)
    requires AllTwoWay(c, order) && KeepsConditionals(c, c')
    ensures AllTwoWay(c', order)
  {
    forall b | b in order ensures SpanOK(c', b) && TwoWay(c', b) { assert SpanOK(c, b) && TwoWay(c, b); }
  }

  lemma FewerPathsTwice(a: Code, b: Code, c: Code, order: seq<int>)
    requires FewerPaths(a, b, order) && FewerPaths(b, c, order)
    ensures FewerPaths(a, c, order)
  {
    forall i | 0 <= i < |a.insns| &&
      (a.insns[i].op.CALL? || c.insns[i].op.CALL? || HasAlias(a.insns[i].op) || HasAlias(c.insns[i].op))
      ensures c.insns[i] == a.insns[i]
    {}
  }

  lemma NopsKeepAnchors(c: Code, c': Code, order: seq<int>)
    requires c' == c.(insns := c'.insns) && OnlyNops(c.insns, c'.insns)
    requires forall i :: Killed(c.insns, c'.insns, i) ==> !IsAnchor(c.insns[i])
    requires forall i :: Killed(c.insns, c'.insns, i) && HasSideEffect(c.insns[i].op) ==>
               HasReader(c.decl, c.insns, c.insns[i].dest)
    ensures AnchorsKept(c, c', order, order) && DefsUnchanged(c, c')
  {
    forall i | 0 <= i < |c'.insns| ensures StaysInBlock(c, c', i) {
      assert c'.insns[i] != c.insns[i] ==> Killed(c.insns, c'.insns, i);
    }
    forall r | HasReader(c'.decl, c'.insns, r) ensures HasReader(c.decl, c.insns, r) {
      var j :| 0 <= j < |c'.insns| && Reads(c'.decl, c'.insns[j], r);
      assert Reads(c.decl, c.insns[j], r);
    }
  }

  lemma PureKeepsAnchors(c: Code, c': Code, order: seq<int>)
    requires c' == c.(insns := c'.insns) && OnlyPure(c, c')
    requires forall i :: 0 <= i < |c.insns| && i < |c'.insns| ==> c'.insns[i].dest == c.insns[i].dest
    ensures AnchorsKept(c, c', order, order) && EffectsStay(c, c', order) && KeepsAliases(c, c')
    ensures KeepsConditionals(c, c')
  {
    forall i | 0 <= i < |c'.insns| ensures StaysInBlock(c, c', i) {}
  }

  lemma BranchesKeepAnchors(c: Code, c': Code, order: seq<int>)
    requires c' == c.(insns := c'.insns) && OnlyBranches(c, c') && Clean(c.decl, c.insns)
    ensures AnchorsKept(c, c', order, order) && EffectsStay(c, c', order)
    ensures KeepsAliases(c, c') && KeepsConditionals(c, c') && DefsUnchanged(c, c')
  {
    forall i | 0 <= i < |c.insns|
      ensures InsnKept(c.insns[i], c'.insns[i]) && StaysInBlock(c, c', i)
      ensures IsConditional(c'.insns[i].op) || c'.insns[i].dest != 0 ==> c'.insns[i] == c.insns[i]
      ensures c.insns[i].op.CALL? || c'.insns[i].op.CALL? || HasAlias(c.insns[i].op) || HasAlias(c'.insns[i].op) ==>
                c'.insns[i] == c.insns[i]
    {
      assert Unbranched(c.insns[i], c'.insns[i]) && CleanInsn(c.decl, c.insns[i]);
    }
    forall r | HasReader(c'.decl, c'.insns, r) ensures HasReader(c.decl, c.insns, r) {
      var j :| 0 <= j < |c'.insns| && Reads(c'.decl, c'.insns[j], r);
      assert Unbranched(c.insns[j], c'.insns[j]) && Reads(c.decl, c.insns[j], r);
    }
  }

  /** The unit between the passes that come before branch threading.  "fine" says that nothing harmful has been done but
      perhaps the removal of calls or atomic operations. */
  ghost predicate Stage(unit: RtlUnit, g: Guest, c0: Code, flags: Flags, fine: bool)
    reads unit
  {
    && UnitOK(unit) && Tiled(unit.Snap(), unit.order) && (flags.basic ==> AllTwoWay(unit.Snap(), unit.order))
    && |unit.decl.base| > 0 && |unit.blockSeen| >= |unit.spans| + |unit.order|
    && (fine && EffectsStay(c0, unit.Snap(), unit.order) ==> RefinesOn(g, c0, unit.Snap()))
    && AnchorsKept(c0, unit.Snap(), unit.order, unit.order) && Retained(c0, unit.Snap())
    && (!flags.dse ==> EffectsStay(c0, unit.Snap(), unit.order))
  }

  /** Closing a stage whose code is c and whose successor's code is that of the unit. */
  lemma NextStage(unit: RtlUnit, g: Guest, c0: Code, flags: Flags, fine: bool, c: Code, order: seq<int>)
    requires UnitOK(unit) && unit.order == order && |unit.decl.base| > 0
    requires |unit.blockSeen| >= |unit.spans| + |unit.order|
    requires Tiled(c, order) && (flags.basic ==> AllTwoWay(c, order))
    requires KeepsConditionals(c, unit.Snap()) && AnchorsKept(c, unit.Snap(), order, order)
    requires fine && EffectsStay(c0, c, order) ==> RefinesOn(g, c0, c)
    requires fine && EffectsStay(c, unit.Snap(), order) ==> RefinesOn(g, c, unit.Snap())
    requires AnchorsKept(c0, c, order, order) && Retained(c0, unit.Snap())
    requires !flags.dse ==> EffectsStay(c0, c, order) && EffectsStay(c, unit.Snap(), order)
    ensures Stage(unit, g, c0, flags, fine)
  {
    hide UnitOK, Tiled, AllTwoWay, EffectsStay, Refines, RefinesOn, KeepsConditionals, AnchorsKept, Retained;
    StillTiled(c, unit.Snap(), order);
    if flags.basic { StaysTwoWay(c, unit.Snap(), order); }
    AnchorsKeptTwice(c0, c, unit.Snap(), order, order, order);
    StreamSpans(unit);
    if !flags.dse { EffectsStayTwice(c0, c, unit.Snap(), order, order, order); }
    if fine && EffectsStay(c0, unit.Snap(), order) {
      StayedBetween(c0, c, unit.Snap(), order, order, order);
      RefinesOnTransitive(g, c0, c, unit.Snap());
    }
  }

  lemma StreamSpans(unit: RtlUnit)
    requires UnitOK(unit)
    ensures forall b <- unit.order :: SpanOK(unit.Snap(), b)
  {
    hide FlowOK, Wired, ConstOK, LiveOK, Clean;
    PartsOf(unit.Snap(), unit.regs, unit.edges, unit.owner, unit.order, unit.lastBlock, {});
  }

  lemma StillTiled(c: Code, c': Code, order: seq<int>)
    requires Tiled(c, order) && KeepsConditionals(c, c')
    ensures Tiled(c', order)
  {
    forall k | 0 <= k < |order| ensures SpanOK(c', k) { assert SpanOK(c, k); }
  }

  lemma StageOpen(unit: RtlUnit, g: Guest, c0: Code, flags: Flags, fine: bool)
    requires Stage(unit, g, c0, flags, fine)
    ensures UnitOK(unit) && Tiled(unit.Snap(), unit.order) && |unit.decl.base| > 0
    ensures flags.basic ==> AllTwoWay(unit.Snap(), unit.order)
    ensures |unit.blockSeen| >= |unit.spans| + |unit.order| && |unit.edges| == |unit.spans|
    ensures fine && EffectsStay(c0, unit.Snap(), unit.order) ==> RefinesOn(g, c0, unit.Snap())
    ensures AnchorsKept(c0, unit.Snap(), unit.order, unit.order) && Retained(c0, unit.Snap())
    ensures !flags.dse ==> EffectsStay(c0, unit.Snap(), unit.order)
    ensures Covers(unit.decl, unit.insns, unit.regs) && SsaOK(unit.insns, unit.regs) && Clean(unit.decl, unit.insns)
    ensures FlowOK(unit.Snap(), unit.order, unit.lastBlock) && forall b <- unit.order :: SpanOK(unit.Snap(), b)
  {
    hide AnchorsKept, FlowOK, EdgesOK, LiveOK, ConstOK, Clean, Tiled, AllTwoWay, EffectsStay, Refines, RefinesOn,
      Retained;
    PartsOf(unit.Snap(), unit.regs, unit.edges, unit.owner, unit.order, unit.lastBlock, {});
  }

  /** A unit as the optimizer receives it: finalized, with the operand types its builder enforced, and no conditional
      branch to the block it would fall through to if branches are to be threaded. */
  ghost predicate Finalized(unit: RtlUnit, basic: bool)
    reads unit
  {
    && UnitOK(unit) && Tiled(unit.Snap(), unit.order) && (basic ==> AllTwoWay(unit.Snap(), unit.order))
    && TypedOK(unit.decl, unit.insns, unit.regs) && |unit.decl.base| > 0
  }

  lemma OrderSize(c: Code, regs: seq<Reg>, edges: seq<Edges>, owner: seq<int>, order: seq<int>, lastBlock: int)
    requires WellFormed(c, regs, edges, owner, order, lastBlock, {}) && Tiled(c, order)
    ensures |order| <= |c.spans| == |edges|
  {
    hide FlowOK, EdgesOK, LiveOK, ConstOK, Clean;
    SpansOfFlow(c, order, lastBlock);
    if |order| > 0 { assert SpanOK(c, |order| - 1); }
  }

  method FoldStage(
    unit: RtlUnit, flags: Flags, undefined: int, handle: ReadonlyMap.Handle, image: int -> nat, ghost g: Guest)
    requires Finalized(unit, flags.basic) && handle.Valid() && g.image == image && g.readonly == handle.contents
    modifies unit`insns, unit`regs, unit`blockSeen
    ensures |unit.regs| == |old(unit.regs)|
    ensures Stage(unit, g, old(unit.Snap()), flags,
                  FoldingApplies(g, unit.membaseReg, old(unit.Snap()), unit.Snap(), flags.foldVectors))
    ensures FewerPaths(old(unit.Snap()), unit.Snap(), unit.order)
    ensures FoldTraced(g, unit.membaseReg, old(unit.Snap()), old(unit.regs), unit.Snap(), unit.regs, flags)
  {
    hide WellFormed, Tiled, AllTwoWay, TypedOK, EffectsStay, RefinesOn, FoldingApplies, Stage, Retained, FewerPaths,
      FoldTraced, AnchorsKept, KeepsConditionals, Refines;
    ghost var c := unit.Snap();
    OrderSize(c, unit.regs, unit.edges, unit.owner, unit.order, unit.lastBlock);
    RefinesSelf(c);
    RefinesAnywhere(g, c, c);
    unit.blockSeen := seq(3 * |unit.spans|, _ => false);
    FoldUnit(unit, flags, undefined, handle, image, g);
    AnchorsOfSame(c, unit.order);
    NextStage(unit, g, c, flags, FoldingApplies(g, unit.membaseReg, c, unit.Snap(), flags.foldVectors), c, unit.order);
  }

  /** Folding, if it is asked for. */
  method FoldUnit(
    unit: RtlUnit, flags: Flags, undefined: int, handle: ReadonlyMap.Handle, image: int -> nat, ghost g: Guest)
    requires UnitOK(unit) && TypedOK(unit.decl, unit.insns, unit.regs)
    requires handle.Valid() && g.image == image && g.readonly == handle.contents
    modifies unit`insns, unit`regs
    ensures UnitOK(unit) && |unit.regs| == |old(unit.regs)|
    ensures KeepsConditionals(old(unit.Snap()), unit.Snap())
    ensures AnchorsKept(old(unit.Snap()), unit.Snap(), unit.order, unit.order)
    ensures Retained(old(unit.Snap()), unit.Snap()) && FewerPaths(old(unit.Snap()), unit.Snap(), unit.order)
    ensures EffectsStay(old(unit.Snap()), unit.Snap(), unit.order)
    ensures FoldTraced(g, unit.membaseReg, old(unit.Snap()), old(unit.regs), unit.Snap(), unit.regs, flags)
    ensures FoldingApplies(g, unit.membaseReg, old(unit.Snap()), unit.Snap(), flags.foldVectors) ==>
              RefinesOn(g, old(unit.Snap()), unit.Snap())
  {
    hide WellFormed, TypedOK, Scanned, EffectsStay, Refines, RefinesOn, FoldingApplies, OnlyPure, Retained, Retains,
      FewerPaths, NoneLoaded, FoldsAs, LoadsExplained, FoldTraced, StandsWith, AnchorsKept, KeepsConditionals,
      RipeLate, LoadsDone;
    ghost var c, regs := unit.Snap(), unit.regs;
    RefinesSelf(c);
    RefinesAnywhere(g, c, c);
    AnchorsOfSame(c, unit.order);
    Stands(c, regs, unit.edges, unit.owner, unit.order, unit.lastBlock, {});
    if flags.foldConstants || flags.foldVectors {
      FoldRegisters(unit, flags.foldConstants, flags.foldVectors, undefined, handle, image, g);
      Stands(unit.Snap(), unit.regs, unit.edges, unit.owner, unit.order, unit.lastBlock, {});
      PureOf(c, regs, unit.Snap(), flags, unit.regs, unit.order, unit.lastBlock);
      FoldingTraced(g, unit.membaseReg, c, regs, unit.Snap(), unit.regs, flags);
    } else {
      SameStage(g, unit.membaseReg, c, regs, unit.order, flags);
    }
  }

  lemma Stands(
    c: Code, regs: seq<Reg>, edges: seq<Edges>, owner: seq<int>, order: seq<int>, lastBlock: int, loose: set<int>)
    requires WellFormed(c, regs, edges, owner, order, lastBlock, loose)
    ensures StandsWith(c, regs) && ConstOK(c.decl, c.insns, regs) && FlowOK(c, order, lastBlock)
    ensures |c.spans| == |edges| && forall b <- order :: SpanOK(c, b)
  {
    hide FlowOK, EdgesOK, ConstOK, Covers, Tight, SsaOK, Clean;
    PartsOf(c, regs, edges, owner, order, lastBlock, loose);
  }

  lemma FoldingTraced(g: Guest, membase: nat, c0: Code, regs0: seq<Reg>, c: Code, regs: seq<Reg>, flags: Flags)
    requires flags.foldConstants || flags.foldVectors
    requires StandsWith(c0, regs0) && StandsWith(c, regs) && ConstOK(c.decl, c.insns, regs)
    requires Scanned(c0, regs0, c, regs, |c.insns|, flags.foldConstants, flags.foldVectors)
    requires Retains(c0, c) && FoldsAs(c0, c, regs) && LoadsExplained(g.readonly, membase, c0, c)
    requires !flags.foldConstants ==> NoneLoaded(c0, c)
    requires RipeLate(c0, regs0, c, regs, |c.insns|, flags.foldConstants, flags.foldVectors)
    requires flags.foldConstants ==> LoadsDone(c, regs, membase, g.readonly, |c.insns|)
    ensures FoldTraced(g, membase, c0, regs0, c, regs, flags)
  {
    hide StandsWith, ConstOK, OnlyPure, Retains, FoldsAs, LoadsExplained, NoneLoaded, Finished, SameRegister, RipeLate,
      LoadsDone;
    assert FoldRun(g, membase, c0, regs0, c, regs, flags);
  }

  lemma AnchorsOfSame(c: Code, order: seq<int>)
    ensures AnchorsKept(c, c, order, order) && EffectsStay(c, c, order)
  {}

  lemma PureOf(c: Code, regs: seq<Reg>, c': Code, flags: Flags, regs': seq<Reg>, order: seq<int>, lastBlock: int)
    requires Scanned(c, regs, c', regs', |c'.insns|, flags.foldConstants, flags.foldVectors)
    requires Retains(c, c') && StandsWith(c', regs') && (forall b <- order :: SpanOK(c, b))
    ensures KeepsConditionals(c, c') && AnchorsKept(c, c', order, order) && Retained(c, c') && FewerPaths(c, c', order)
    ensures EffectsStay(c, c', order)
  {
    hide Finished, SameRegister, Retains, SsaOK, Clean, Covers, Retained, EffectsStay;
    assert c' == c.(insns := c'.insns) && OnlyPure(c, c');
    FoldRetains(c, c', regs');
    hide Scanned;
    PureKeepsAnchors(c, c', order);
    forall b | b in order ensures Successors(c', b) <= Successors(c, b) { PureSuccessors(c, c', b); }
  }

  lemma PureSuccessors(c: Code, c': Code, b: int)
    requires c' == c.(insns := c'.insns) && OnlyPure(c, c') && SpanOK(c, b)
    ensures Successors(c', b) == Successors(c, b)
  {}

  lemma SameStage(g: Guest, membase: nat, c: Code, regs: seq<Reg>, order: seq<int>, flags: Flags)
    requires !flags.foldConstants && !flags.foldVectors && StandsWith(c, regs) && forall b <- order :: SpanOK(c, b)
    ensures KeepsConditionals(c, c) && Retained(c, c) && FewerPaths(c, c, order)
    ensures FoldTraced(g, membase, c, regs, c, regs, flags)
  {
    hide StandsWith;
  }

  method DeconditionStage(unit: RtlUnit, flags: Flags, ghost g: Guest, ghost c0: Code, ghost fine: bool)
    requires Stage(unit, g, c0, flags, fine) && flags.decondition
    modifies unit`insns, unit`regs, unit`edges
    ensures |unit.regs| == |old(unit.regs)|
    ensures Stage(unit, g, c0, flags, fine) && FewerPaths(old(unit.Snap()), unit.Snap(), unit.order)
    ensures BranchesTraced(old(unit.Snap()), old(unit.regs), unit.order, unit.Snap(), flags)
  {
    hide WellFormed, Tiled, AllTwoWay, Progress, EffectsStay, Refines, RefinesOn, Stage, Retained, FewerPaths,
      AnchorsKept;
    ghost var c, regs, edges, lastBlock := unit.Snap(), unit.regs, unit.edges, unit.lastBlock;
    StageOpen(unit, g, c0, flags, fine);
    DeconditionPass(unit);
    assert DeconditionRun(c, regs, edges, unit.owner, unit.order, lastBlock, unit.Snap(), unit.regs, unit.edges);
    BranchesOf(c, unit.Snap(), unit.order);
    RetainedNext(c0, c, unit.Snap());
    if Refines(c, unit.Snap()) { RefinesAnywhere(g, c, unit.Snap()); }
    NextStage(unit, g, c0, flags, fine, c, unit.order);
  }

  lemma BranchesOf(c: Code, c': Code, order: seq<int>)
    requires exists regs0, edges0, regs, edges, k :: Progress(c, regs0, edges0, c', regs, edges, order, k)
    requires Clean(c.decl, c.insns) && forall b <- order :: SpanOK(c, b)
    ensures KeepsConditionals(c, c') && AnchorsKept(c, c', order, order) && DefsUnchanged(c, c')
    ensures FewerPaths(c, c', order)
    ensures EffectsStay(c, c', order)
  {
    hide BlockProgress, Clean, EffectsStay;
    assert c' == c.(insns := c'.insns) && OnlyBranches(c, c');
    BranchesKeepAnchors(c, c', order);
    forall b | b in order ensures Successors(c', b) <= Successors(c, b) { BranchSuccessors(c, c', b); }
  }

  lemma BranchSuccessors(c: Code, c': Code, b: int)
    requires c' == c.(insns := c'.insns) && OnlyBranches(c, c') && SpanOK(c, b)
    ensures Successors(c', b) <= Successors(c, b)
  {
    if !IsEmpty(c, b) { assert Unbranched(LastInsn(c, b), LastInsn(c', b)); }
  }

  method AliasStage(unit: RtlUnit, flags: Flags, ghost g: Guest, ghost c0: Code, ghost fine: bool)
    requires Stage(unit, g, c0, flags, fine) && flags.deepDataFlow
    modifies unit`insns, unit`regs, unit`labels, unit`blockSeen
    ensures |unit.regs| == |old(unit.regs)|
    ensures Stage(unit, g, c0, flags, fine && NoCallSees(old(unit.Snap()), unit.order))
    ensures StoresTraced(old(unit.Snap()), unit.order, unit.Snap(), flags)
  {
    hide UnitOK, Tiled, AllTwoWay, NoCallSees, EffectsStay, Refines, RefinesOn, Stage, StoreRemoved, Retained,
      AnchorsKept;
    ghost var c := unit.Snap();
    StageOpen(unit, g, c0, flags, fine);
    AliasDataFlow(unit);
    StoresOf(c, unit.Snap(), unit.order);
    RetainedNext(c0, c, unit.Snap());
    if Refines(c, unit.Snap()) { RefinesAnywhere(g, c, unit.Snap()); }
    NextStage(unit, g, c0, flags, fine && NoCallSees(c, unit.order), c, unit.order);
  }

  lemma StoresOf(c: Code, c': Code, order: seq<int>)
    requires c' == c.(insns := c'.insns) && |c'.insns| == |c.insns|
    requires forall k :: 0 <= k < |c.insns| ==> c'.insns[k] == if StoreRemoved(c, order, k) then NopInsn else c.insns[k]
    ensures KeepsConditionals(c, c') && AnchorsKept(c, c', order, order) && DefsUnchanged(c, c')
    ensures EffectsStay(c, c', order)
  {
    forall i | Killed(c.insns, c'.insns, i) ensures c.insns[i].op.SET_ALIAS? {
      var b :| DeadIn(c, order, b, i);
    }
    NopsKeepAnchors(c, c', order);
  }

  method StoreStage(unit: RtlUnit, flags: Flags, ghost g: Guest, ghost c0: Code, ghost fine: bool)
    requires Stage(unit, g, c0, flags, fine) && flags.dse
    modifies unit`insns, unit`regs, unit`labels
    ensures |unit.regs| == |old(unit.regs)|
    ensures Stage(unit, g, c0, flags, fine)
    ensures SweepTraced(old(unit.Snap()), unit.Snap(), flags)
  {
    hide UnitOK, Tiled, AllTwoWay, EffectsStay, Refines, RefinesOn, Stage, Removable, EffectsNeeded, Retained,
      AnchorsKept;
    ghost var c := unit.Snap();
    StageOpen(unit, g, c0, flags, fine);
    DropDeadStores(unit, flags.dseFp);
    KillsOf(c, unit.Snap(), unit.order, flags.dseFp);
    RetainedNext(c0, c, unit.Snap());
    if Refines(c, unit.Snap()) { RefinesAnywhere(g, c, unit.Snap()); }
    NextStage(unit, g, c0, flags, fine, c, unit.order);
  }

  lemma KillsOf(c: Code, c': Code, order: seq<int>, ignoreFexc: bool)
    requires c' == c.(insns := c'.insns) && OnlyNops(c.insns, c'.insns) && Clean(c.decl, c.insns)
    requires forall i :: Killed(c.insns, c'.insns, i) <==> Removable(c.decl, c.insns, ignoreFexc, i)
    ensures KeepsConditionals(c, c') && AnchorsKept(c, c', order, order) && DefsUnchanged(c, c')
    ensures EffectsStay(c, c', order) ==> EffectsNeeded(c, order, ignoreFexc)
  {
    forall i | Killed(c.insns, c'.insns, i)
      ensures !IsAnchor(c.insns[i]) && (HasSideEffect(c.insns[i].op) ==> HasReader(c.decl, c.insns, c.insns[i].dest))
    {
      assert Removable(c.decl, c.insns, ignoreFexc, i) && CleanInsn(c.decl, c.insns[i]);
    }
    forall i | 0 <= i < |c.insns| && IsConditional(c'.insns[i].op) ensures c'.insns[i] == c.insns[i] {}
    NopsKeepAnchors(c, c', order);
    if EffectsStay(c, c', order) {
      forall b, i | b in order && SpanOK(c, b) && c.spans[b].first <= i <= c.spans[b].last
        && HasSideEffect(c.insns[i].op)
        ensures !Removable(c.decl, c.insns, ignoreFexc, i)
      {
        assert SpanOK(c', b) && c'.insns[i] == c.insns[i];
      }
    }
  }

  // ---- The control-flow passes ----

  lemma StepRelabels(c: Code, order: seq<int>, b: int, c': Code)
    requires ThreadStep(c, order, b, c')
    ensures Relabelled(c, c')
  {
    hide Threaded;
  }

  lemma RelabelledTwice(a: Code, b: Code, c: Code)
    requires Relabelled(a, b) && Relabelled(b, c)
    ensures Relabelled(a, c)
  {}

  lemma {:induction false} HistoryRelabels(order: seq<int>, history: seq<Code>, m: int)
    requires History(order, history, |order|) && 0 <= m <= |order|
    ensures Relabelled(history[0], history[m])
  {
    hide ThreadStep;
    if m > 0 {
      HistoryRelabels(order, history, m - 1);
      assert ThreadStep(history[m - 1], order, order[m - 1], history[m - 1 + 1]);
      StepRelabels(history[m - 1], order, order[m - 1], history[m]);
      RelabelledTwice(history[0], history[m - 1], history[m]);
    }
  }

  lemma RelabelsKeepAnchors(c: Code, c': Code, order: seq<int>)
    requires Relabelled(c, c') && Clean(c.decl, c.insns) && forall b <- order :: SpanOK(c, b)
    ensures AnchorsKept(c, c', order, order) && DefsUnchanged(c, c') && EffectsStay(c, c', order)
  {
    forall i | 0 <= i < |c.insns|
      ensures InsnKept(c.insns[i], c'.insns[i]) && StaysInBlock(c, c', i)
      ensures c'.insns[i].dest != 0 ==> c'.insns[i] == c.insns[i]
    {
      assert CleanInsn(c.decl, c.insns[i]);
    }
    forall r | HasReader(c'.decl, c'.insns, r) ensures HasReader(c.decl, c.insns, r) {
      var j :| 0 <= j < |c'.insns| && Reads(c'.decl, c'.insns[j], r);
      assert Reads(c.decl, c.insns[j], r);
    }
  }

  lemma DroppingKeepsAnchors(
    c0: Code, regs0: seq<Reg>, edges0: seq<Edges>, owner: seq<int>, order: seq<int>, lastBlock: int, seen: seq<bool>,
    c: Code, regs: seq<Reg>, edges: seq<Edges>, order': seq<int>, lastBlock': int)
    requires FlowOK(c0, order, lastBlock)
    requires AllDropped(c0, regs0, edges0, owner, order, seen, c, regs, edges, order', lastBlock')
    ensures AnchorsKept(c0, c, order, order') && DefsUnchanged(c0, c) && |regs| == |regs0| && EffectsStay(c0, c, order')
  {
    hide FlowOK, DropEdges, LiveOK, Clean, StreamOK, Kept;
    SpansOfFlow(c0, order, lastBlock);
    DropShrinks(c0, order, seen, c, regs);
    forall b | b in order'
      ensures b in order && SpanOK(c, b) && SpanOK(c0, b) && c.spans[b].first == c0.spans[b].first
      ensures c.spans[b].last == c0.spans[b].last
      ensures forall i :: c0.spans[b].first <= i <= c0.spans[b].last ==> c.insns[i] == c0.insns[i]
    {
      KeptIsIn(order, seen, order', b);
      var k :| 0 <= k < |order| && order[k] == b;
      ExtentsKept(c0, order, seen, c, regs, k);
    }
  }

  lemma DropShrinks(c0: Code, order: seq<int>, seen: seq<bool>, c: Code, regs: seq<Reg>)
    requires DropCode(c0, order, seen, c, regs, -1)
    ensures c.decl == c0.decl && OnlyNops(c0.insns, c.insns)
    ensures forall r {:trigger HasReader(c.decl, c.insns, r)} :: HasReader(c.decl, c.insns, r) ==>
              HasReader(c0.decl, c0.insns, r)
  {
    forall r | HasReader(c.decl, c.insns, r) ensures HasReader(c0.decl, c0.insns, r) {
      var j :| 0 <= j < |c.insns| && Reads(c.decl, c.insns[j], r);
      assert Reads(c0.decl, c0.insns[j], r);
    }
  }

  /** The result of rtl_optimize_unit: live ranges still bound every read (exactly but for the register whose number
      the LABEL flags borrow), and every operand is still initialized; calls, atomic operations and what hangs on them
      stay as described in Effects. */
  ghost predicate Optimized(unit: RtlUnit, c0: Code, order0: seq<int>, flags: Flags)
    reads unit
  {
    && WellFormed(unit.Snap(), unit.regs, unit.edges, unit.owner, unit.order, unit.lastBlock,
                  if flags.basic then {1} else {})
    && VerifyOK(unit.insns, unit.regs)
    && AnchorsKept(c0, unit.Snap(), order0, unit.order) && Retained(c0, unit.Snap())
  }

  lemma Verified(
    c: Code, regs: seq<Reg>, edges: seq<Edges>, owner: seq<int>, order: seq<int>, lastBlock: int, loose: set<int>)
    requires WellFormed(c, regs, edges, owner, order, lastBlock, loose)
    ensures VerifyOK(c.insns, regs)
  {
    hide StreamOK, Placed, TargetsOK, Wired, ConstOK, Covers, Tight, SsaOK, Clean, VerifyOK;
    LiveImpliesVerified(c.decl, c.insns, regs, loose);
  }

  lemma PartsOf(
    c: Code, regs: seq<Reg>, edges: seq<Edges>, owner: seq<int>, order: seq<int>, lastBlock: int, loose: set<int>)
    requires WellFormed(c, regs, edges, owner, order, lastBlock, loose)
    ensures FlowOK(c, order, lastBlock) && |c.spans| == |edges| && (forall b <- order :: SpanOK(c, b))
    ensures Covers(c.decl, c.insns, regs) && SsaOK(c.insns, regs) && Clean(c.decl, c.insns)
  {
    hide FlowOK, EdgesOK, ConstOK, Covers, Tight, SsaOK, Clean;
    SpansOfFlow(c, order, lastBlock);
  }

  /** Dropping dead branches and unused labels. */
  lemma BranchesGone(c: Code, c': Code, order: seq<int>, dse: bool)
    requires c' == c.(insns := c'.insns, labels := c'.labels) && OnlyNops(c.insns, c'.insns) && Clean(c.decl, c.insns)
    requires forall i :: Killed(c.insns, c'.insns, i) ==> BranchOrRead(c, i, dse) || c.insns[i].op.LABEL?
    ensures AnchorsKept(c, c', order, order) && DefsUnchanged(c, c')
    ensures EffectsStay(c, c', order) ==> EffectsKept(c, c', order)
    ensures !dse ==> EffectsStay(c, c', order)
  {
    forall i | 0 <= i < |c.insns| ensures StaysInBlock(c, c', i) {
      assert CleanInsn(c.decl, c.insns[i]);
      assert c'.insns[i] != c.insns[i] ==> Killed(c.insns, c'.insns, i);
    }
    forall r | HasReader(c'.decl, c'.insns, r) ensures HasReader(c.decl, c.insns, r) {
      var j :| 0 <= j < |c'.insns| && Reads(c'.decl, c'.insns[j], r);
      assert Reads(c.decl, c.insns[j], r);
    }
    if EffectsStay(c, c', order) {
      forall b, i | b in order && SpanOK(c, b) && c.spans[b].first <= i <= c.spans[b].last
        && Killed(c.insns, c'.insns, i)
        ensures !HasSideEffect(c.insns[i].op)
      {
        assert SpanOK(c', b) && c'.insns[i] == NopInsn;
      }
    }
  }

  /** The blocks that leave the stream leave the graph. */
  lemma StrayGone(
    c0: Code, regs0: seq<Reg>, edges0: seq<Edges>, owner: seq<int>, order: seq<int>, seen: seq<bool>,
    c: Code, regs: seq<Reg>, edges: seq<Edges>, order': seq<int>, lastBlock': int)
    requires AllDropped(c0, regs0, edges0, owner, order, seen, c, regs, edges, order', lastBlock')
    requires AllInStream(owner, order) && EdgesOK(edges, owner)
    ensures NoStrayEdges(edges, owner, order')
  {
    hide EdgesOK, LiveOK, Clean, RegsShrink, StreamOK, Kept, DropCode;
    AreSized(edges, owner);
    forall b | IsReal(owner, b) && b !in order' ensures ExitSet(edges[b]) == {} {
      var k :| 0 <= k < |order| && order[k] == b;
      KeptIsIn(order, seen, order', b);
      assert IsDead(order, seen, k, -1);
    }
  }

  /** The passes of BINREC_OPT_BASIC. */
  method BranchStage(unit: RtlUnit, flags: Flags, ghost g: Guest, ghost c0: Code, ghost fine: bool)
    returns (ghost threaded: Code, ghost dropped: Code)
    requires Stage(unit, g, c0, flags, fine) && flags.basic
    modifies unit`insns, unit`regs, unit`labels, unit`spans, unit`edges, unit`owner, unit`order, unit`lastBlock,
      unit`blockSeen
    ensures |unit.regs| == |old(unit.regs)|
    ensures Optimized(unit, c0, old(unit.order), flags)
    ensures AnchorsKept(old(unit.Snap()), unit.Snap(), old(unit.order), unit.order)
    ensures DefsUnchanged(old(unit.Snap()), unit.Snap())
    ensures !flags.dse ==> EffectsStay(c0, unit.Snap(), unit.order)
    ensures fine && EffectsStay(c0, old(unit.Snap()), old(unit.order)) && EffectsStay(c0, unit.Snap(), unit.order) ==>
              RefinesOn(g, c0, unit.Snap())
    ensures AllInStream(old(unit.owner), old(unit.order)) ==> NoStrayEdges(unit.edges, unit.owner, unit.order)
    ensures NoneToNext(unit.Snap(), unit.order, |unit.order|)
    ensures forall l :: 0 < l < |unit.labels| ==>
              (unit.labels[l] >= 0 <==> Targeted(unit.Snap(), unit.order, |unit.order|, l))
    ensures ThreadTraced(old(unit.Snap()), old(unit.order), threaded)
    ensures BlocksTraced(threaded, old(unit.order), dropped, unit.order)
    ensures BranchesDropped(dropped, unit.Snap(), unit.order, flags.dseFp, flags.dse)
  {
    hide WellFormed, Tiled, AllTwoWay, EffectsStay, Refines, RefinesOn, Stage, Direct, History, ThreadStep, AllDropped,
      Retained, DefsUnchanged, SeenIsReachable, Reaches, NoneToNext, Targeted, BranchOrRead, EffectsKept, AnchorsKept,
      FlowOK, Covers, SsaOK, Clean, AllInStream, NoStrayEdges, RealKept, Survives, BlockGone, BranchFate,
      DefinitionDies, ThreadTraced, BlocksTraced, BranchesDropped;
    StageOpen(unit, g, c0, flags, fine);
    ghost var c, order, owner := unit.Snap(), unit.order, unit.owner;
    ghost var history := ThreadAll(unit);
    if AllInStream(owner, order) { StaysInStream(owner, unit.owner, order); }
    ghost var c1, regs1, edges1, lastBlock1 := unit.Snap(), unit.regs, unit.edges, unit.lastBlock;
    HistoryRelabels(order, history, |order|);
    RelabelsKeepAnchors(c, c1, order);
    PartsOf(c1, unit.regs, unit.edges, unit.owner, unit.order, unit.lastBlock, {});
    DropDeadBlocks(unit);
    ghost var c2 := unit.Snap();
    DroppingKeepsAnchors(c1, regs1, edges1, unit.owner, order, lastBlock1, unit.blockSeen,
                         c2, unit.regs, unit.edges, unit.order, unit.lastBlock);
    EdgesOf(c2, unit.regs, unit.edges, unit.owner, unit.order, unit.lastBlock, {});
    if AllInStream(unit.owner, order) {
      StrayGone(c1, regs1, edges1, unit.owner, order, unit.blockSeen, c2, unit.regs, unit.edges, unit.order,
                unit.lastBlock);
    }
    PartsOf(c2, unit.regs, unit.edges, unit.owner, unit.order, unit.lastBlock, {});
    DropDeadBranches(unit, flags.dseFp, flags.dse);
    PartsOf(unit.Snap(), unit.regs, unit.edges, unit.owner, unit.order, unit.lastBlock, {1});
    Verified(unit.Snap(), unit.regs, unit.edges, unit.owner, unit.order, unit.lastBlock, {1});
    BranchesGone(c2, unit.Snap(), unit.order, flags.dse);
    BranchStages(g, c0, c, c1, c2, unit.Snap(), order, unit.order, fine, flags.dse);
    ControlDone(c, history, order, lastBlock1, c1, c2, unit.order, unit.lastBlock, unit.Snap(), flags.dseFp, flags.dse);
    threaded, dropped := c1, c2;
  }

  /** What the three control-flow passes, taken together, keep. */
  lemma BranchStages(
    g: Guest, c0: Code, c: Code, c1: Code, c2: Code, c3: Code, order: seq<int>, order': seq<int>, fine: bool, dse: bool)
    requires AnchorsKept(c0, c, order, order) && AnchorsKept(c, c1, order, order)
    requires AnchorsKept(c1, c2, order, order') && AnchorsKept(c2, c3, order', order')
    requires Retained(c0, c) && DefsUnchanged(c, c1) && DefsUnchanged(c1, c2) && DefsUnchanged(c2, c3)
    requires (forall b <- order :: SpanOK(c1, b)) && (forall b <- order' :: SpanOK(c2, b))
    requires forall b <- order' :: SpanOK(c3, b)
    requires Refines(c, c1) && Refines(c1, c2)
    requires fine && EffectsStay(c0, c, order) ==> RefinesOn(g, c0, c)
    requires EffectsStay(c2, c3, order') ==> Refines(c2, c3)
    requires EffectsStay(c, c1, order) && EffectsStay(c1, c2, order')
    requires !dse ==> EffectsStay(c0, c, order) && EffectsStay(c2, c3, order')
    ensures AnchorsKept(c0, c3, order, order') && AnchorsKept(c, c3, order, order') && Retained(c0, c3)
    ensures DefsUnchanged(c, c3)
    ensures !dse ==> EffectsStay(c0, c3, order')
    ensures fine && EffectsStay(c0, c, order) && EffectsStay(c0, c3, order') ==> RefinesOn(g, c0, c3)
  {
    hide AnchorsKept, Retained, DefsUnchanged, EffectsStay, Refines, RefinesOn;
    AnchorsKeptTwice(c, c1, c2, order, order, order');
    AnchorsKeptTwice(c, c2, c3, order, order', order');
    AnchorsKeptTwice(c0, c, c3, order, order, order');
    AnchorsKeptTwice(c0, c, c2, order, order, order');
    UnchangedTwice(c, c1, c2);
    UnchangedTwice(c, c2, c3);
    RetainedNext(c0, c, c1);
    RetainedNext(c0, c1, c2);
    RetainedNext(c0, c2, c3);
    if !dse {
      EffectsStayTwice(c, c1, c2, order, order, order');
      EffectsStayTwice(c, c2, c3, order, order', order');
      EffectsStayTwice(c0, c, c3, order, order, order');
    }
    if fine && EffectsStay(c0, c, order) && EffectsStay(c0, c3, order') {
      StayedBetween(c0, c2, c3, order, order', order');
      RefinesTransitive(c, c1, c2);
      RefinesTransitive(c, c2, c3);
      RefinesAnywhere(g, c, c3);
      RefinesOnTransitive(g, c0, c, c3);
    }
  }

  lemma UnchangedTwice(a: Code, b: Code, c: Code)
    requires DefsUnchanged(a, b) && DefsUnchanged(b, c)
    ensures DefsUnchanged(a, c)
  {}

  lemma UnchangedSame(c: Code)
    ensures DefsUnchanged(c, c)
  {}

  lemma StaysInStream(owner: seq<int>, owner': seq<int>, order: seq<int>)
    requires AllInStream(owner, order) && RealKept(owner, owner')
    ensures AllInStream(owner', order)
  {
    forall b | IsReal(owner', b) ensures b in order { assert IsReal(owner, b); }
  }

  lemma EdgesOf(
    c: Code, regs: seq<Reg>, edges: seq<Edges>, owner: seq<int>, order: seq<int>, lastBlock: int, loose: set<int>)
    requires WellFormed(c, regs, edges, owner, order, lastBlock, loose)
    ensures EdgesOK(edges, owner) && |edges| == |owner|
  {
    hide FlowOK, LiveOK, ConstOK, Clean;
  }

  /** Where control goes once the control-flow passes are through: every block of the stream is reachable, every block
      that was reachable once branches were threaded is still there, every branch of the threaded code goes straight to
      where control stays, circles apart, and does so in the end unless something on the way was removed since. */
  ghost predicate ControlSettled(t: Trace, order0: seq<int>, c: Code, order: seq<int>) {
    && (forall b <- order :: Reaches(c, 0, b))
    && (forall b :: b in order <==> b in order0 && Reaches(t.threaded, 0, b))
    && (forall j, k :: 0 <= j < k < |order| ==> order[j] < order[k])
    && (forall b <- order0 :: Direct(t.threaded, b))
    && (forall b <- order :: StillDirect(t.dropped, c, b))
  }

  lemma TracedSettles(t: Trace, order0: seq<int>, c: Code, order: seq<int>, flags: Flags)
    requires ControlTraced(t, order0, c, order, flags) && flags.basic
    ensures ControlSettled(t, order0, c, order)
  {
    hide Reaches, StillDirect, Direct, History, BranchFate, Survives, BlockGone, DefinitionDies, DirectHere;
  }

  /** rtl_optimize_unit.  The trace is that of the run; if nothing harmful was done on the way, which is certain for a
      safe unit, the result is a correct replacement for the unit. */
  method OptimizeUnit(
    unit: RtlUnit, flags: Flags, undefined: int, handle: ReadonlyMap.Handle, image: int -> nat, ghost g: Guest)
    returns (ghost trace: Trace)
    requires Finalized(unit, flags.basic) && handle.Valid() && g.image == image && g.readonly == handle.contents
    modifies unit`insns, unit`regs, unit`labels, unit`spans, unit`edges, unit`owner, unit`order, unit`lastBlock,
      unit`blockSeen
    ensures |unit.regs| == |old(unit.regs)|
    ensures Optimized(unit, old(unit.Snap()), old(unit.order), flags)
    ensures Traced(g, unit.membaseReg, old(unit.Snap()), old(unit.regs), old(unit.order), trace, unit.Snap(),
                   unit.order, flags)
    ensures Harmless(g, unit.membaseReg, old(unit.Snap()), old(unit.order), trace, unit.Snap(), unit.order, flags) ==>
              RefinesOn(g, old(unit.Snap()), unit.Snap())
    ensures SafeUnit(g, unit.membaseReg, old(unit.Snap()), old(unit.order), unit.Snap(), unit.order, flags) ==>
              Harmless(g, unit.membaseReg, old(unit.Snap()), old(unit.order), trace, unit.Snap(), unit.order, flags)
    ensures AllInStream(old(unit.owner), old(unit.order)) ==> NoStrayEdges(unit.edges, unit.owner, unit.order)
    ensures flags.basic ==> ControlSettled(trace, old(unit.order), unit.Snap(), unit.order)
    ensures flags.basic ==> NoneToNext(unit.Snap(), unit.order, |unit.order|)
    ensures flags.basic ==> forall l :: 0 < l < |unit.labels| ==>
              (unit.labels[l] >= 0 <==> Targeted(unit.Snap(), unit.order, |unit.order|, l))
  {
    hide Finalized, Stage, Optimized, NoneToNext, Targeted, AllInStream, NoStrayEdges, FewerPaths, FoldingApplies,
      NoCallSees, EffectsStay, Refines, RefinesOn, SafeUnit, Retained, AnchorsKept, FlowOK, Traced, StandsWith,
      FoldTraced, FlowTraced, Standing, ThreadTraced, BlocksTraced, BranchesDropped, ControlSettled;
    ghost var c0, order0, regs0 := unit.Snap(), unit.order, unit.regs;
    FinalizedStands(unit, flags.basic);
    FoldStage(unit, flags, undefined, handle, image, g);
    ghost var fine := FoldingApplies(g, unit.membaseReg, c0, unit.Snap(), flags.foldVectors);
    trace := FlowStages(unit, flags, g, c0, fine, unit.Snap());
    fine := fine && (flags.deepDataFlow ==> NoCallSees(trace.flowing, order0));
    StageStands(unit, g, c0, flags, fine);
    AnchorsOfSame(trace.swept, order0);
    UnchangedSame(trace.swept);
    ghost var threaded, dropped := trace.swept, trace.swept;
    if flags.basic {
      threaded, dropped := BranchStage(unit, flags, g, c0, fine);
    } else {
      StageOptimized(unit, g, c0, flags, fine);
    }
    ghost var before := trace;
    trace := trace.(threaded := threaded, dropped := dropped);
    SameFlow(c0, order0, before, trace, flags);
    if flags.basic { TracedSettles(trace, order0, unit.Snap(), unit.order, flags); }
    OptimizedStands(unit, c0, order0, flags);
    RunTraced(g, unit.membaseReg, c0, regs0, order0, trace, unit.Snap(), unit.order, flags);
    if SafeUnit(g, unit.membaseReg, c0, order0, unit.Snap(), unit.order, flags) {
      SafeIsHarmless(g, unit.membaseReg, c0, regs0, order0, trace, unit.Snap(), unit.order, flags);
    }
  }

  /** The passes between constant folding and the control-flow passes. */
  ghost predicate FlowTraced(c0: Code, order: seq<int>, t: Trace, flags: Flags) {
    && BranchesTraced(t.folded, t.regs, order, t.flowing, flags) && StoresTraced(t.flowing, order, t.flowed, flags)
    && SweepTraced(t.flowed, t.swept, flags)
    && FewerPaths(c0, t.flowing, order) && exists lastBlock :: FlowOK(t.flowing, order, lastBlock)
  }

  lemma SameFlow(c0: Code, order: seq<int>, t: Trace, t': Trace, flags: Flags)
    requires FlowTraced(c0, order, t, flags) && t' == t.(threaded := t'.threaded, dropped := t'.dropped)
    ensures FlowTraced(c0, order, t', flags)
  {
    hide BranchesTraced, StoresTraced, SweepTraced, FewerPaths, FlowOK;
  }

  method FlowStages(unit: RtlUnit, flags: Flags, ghost g: Guest, ghost c0: Code, ghost fine: bool, ghost folded: Code)
    returns (ghost t: Trace)
    requires Stage(unit, g, c0, flags, fine) && unit.Snap() == folded && FewerPaths(c0, folded, unit.order)
    modifies unit`insns, unit`regs, unit`labels, unit`edges, unit`blockSeen
    ensures |unit.regs| == |old(unit.regs)|
    ensures Stage(unit, g, c0, flags, fine && (flags.deepDataFlow ==> NoCallSees(t.flowing, unit.order)))
    ensures t.folded == folded && t.regs == old(unit.regs) && t.swept == unit.Snap()
    ensures FlowTraced(c0, unit.order, t, flags)
  {
    hide Stage, FewerPaths, NoCallSees, FlowOK, DeconditionRun, StoreRemoved, Removable, BranchesTraced, StoresTraced,
      SweepTraced;
    if flags.decondition {
      DeconditionStage(unit, flags, g, c0, fine);
      FewerPathsTwice(c0, folded, unit.Snap(), unit.order);
    }
    ghost var flowing := unit.Snap();
    StageFlows(unit, g, c0, flags, fine);
    if flags.deepDataFlow {
      AliasStage(unit, flags, g, c0, fine);
    }
    ghost var flowed := unit.Snap();
    if flags.dse {
      StoreStage(unit, flags, g, c0, fine && (flags.deepDataFlow ==> NoCallSees(flowing, unit.order)));
    }
    t := Trace(folded, old(unit.regs), flowing, flowed, unit.Snap(), unit.Snap(), unit.Snap());
    NothingTraced(folded, t.regs, unit.order, flowing, flowed, flags);
  }

  /** A pass that is not asked for does nothing. */
  lemma NothingTraced(c: Code, regs: seq<Reg>, order: seq<int>, flowing: Code, flowed: Code, flags: Flags)
    ensures !flags.decondition ==> BranchesTraced(c, regs, order, c, flags)
    ensures !flags.deepDataFlow ==> StoresTraced(flowing, order, flowing, flags)
    ensures !flags.dse ==> SweepTraced(flowed, flowed, flags)
  {}

  /** The run leaves this trace. */
  lemma RunTraced(
    g: Guest, membase: nat, c0: Code, regs0: seq<Reg>, order0: seq<int>, t: Trace, c: Code, order: seq<int>,
    flags: Flags)
    requires StandsWith(c0, regs0) && FoldTraced(g, membase, c0, regs0, t.folded, t.regs, flags)
    requires FlowTraced(c0, order0, t, flags)
    requires Standing(c0, order0, t.swept, order0) && Standing(c0, order0, c, order)
    requires DefsUnchanged(t.swept, c)
    requires AnchorsKept(t.swept, c, order0, order)
    requires !flags.dse ==> EffectsStay(c0, t.swept, order0) && EffectsStay(c0, c, order)
    requires ControlTraced(t, order0, c, order, flags)
    ensures Traced(g, membase, c0, regs0, order0, t, c, order, flags)
  {
    hide StandsWith, FoldTraced, BranchesTraced, StoresTraced, SweepTraced, FewerPaths, FlowOK, Standing, AnchorsKept,
      EffectsStay;
  }

  lemma FinalizedStands(unit: RtlUnit, basic: bool)
    requires Finalized(unit, basic)
    ensures StandsWith(unit.Snap(), unit.regs)
  {
    hide FlowOK, Wired, ConstOK, Covers, Tight, SsaOK, Clean, Tiled, AllTwoWay, TypedOK;
  }

  lemma StageFlows(unit: RtlUnit, g: Guest, c0: Code, flags: Flags, fine: bool)
    requires Stage(unit, g, c0, flags, fine)
    ensures FlowOK(unit.Snap(), unit.order, unit.lastBlock)
  {
    hide Stage, FlowOK, AnchorsKept, Retained, SsaOK, Covers, EffectsStay, Refines, RefinesOn;
    StageOpen(unit, g, c0, flags, fine);
  }

  lemma StageStands(unit: RtlUnit, g: Guest, c0: Code, flags: Flags, fine: bool)
    requires Stage(unit, g, c0, flags, fine)
    ensures Standing(c0, unit.order, unit.Snap(), unit.order)
    ensures !flags.dse ==> EffectsStay(c0, unit.Snap(), unit.order)
    ensures fine && EffectsStay(c0, unit.Snap(), unit.order) ==> RefinesOn(g, c0, unit.Snap())
  {
    hide Stage, FlowOK, AnchorsKept, Retained, SsaOK, Covers, EffectsStay, Refines, RefinesOn, Clean;
    StageOpen(unit, g, c0, flags, fine);
    assert StandsWith(unit.Snap(), unit.regs);
  }

  lemma OptimizedStands(unit: RtlUnit, c0: Code, order0: seq<int>, flags: Flags)
    requires Optimized(unit, c0, order0, flags)
    ensures Standing(c0, order0, unit.Snap(), unit.order)
  {
    hide AnchorsKept, Retained, WellFormed, VerifyOK;
    Stands(unit.Snap(), unit.regs, unit.edges, unit.owner, unit.order, unit.lastBlock, if flags.basic then {1} else {});
  }

  lemma StageOptimized(unit: RtlUnit, g: Guest, c0: Code, flags: Flags, fine: bool)
    requires Stage(unit, g, c0, flags, fine) && !flags.basic
    ensures Optimized(unit, c0, unit.order, flags)
    ensures AllInStream(unit.owner, unit.order) ==> NoStrayEdges(unit.edges, unit.owner, unit.order)
  {
    hide AnchorsKept, Stage, WellFormed, Refines, RefinesOn, Tiled, AllTwoWay, Retained, EffectsStay;
    StageOpen(unit, g, c0, flags, fine);
    Verified(unit.Snap(), unit.regs, unit.edges, unit.owner, unit.order, unit.lastBlock, {});
    EdgesOf(unit.Snap(), unit.regs, unit.edges, unit.owner, unit.order, unit.lastBlock, {});
  }
}
