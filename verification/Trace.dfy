/** What rtl_optimize_unit makes of a unit between its passes, pass by pass, and what it takes for all of that to
    preserve meaning. */
module Traces {
  import opened Rtl
  import opened Liveness
  import opened Semantics
  import opened Flow
  import opened Kill
  import opened Invariant
  import opened FoldScan
  import opened FoldLoads
  import opened Decondition
  import opened AliasLiveness
  import opened AliasFlow
  import opened DeadStores
  import opened Effects
  import opened Control

  /** Optimization flags (BINREC_OPT_*). */
  datatype Flags = Flags(
    foldConstants: bool, foldVectors: bool, decondition: bool, deepDataFlow: bool, dse: bool, dseFp: bool, basic: bool)

  /** The code and the registers after constant folding, and the code after the rewriting of constant branches, after
      the removal of alias stores, after the removal of unused definitions, where the control-flow passes start, after
      the threading of branches, and after the removal of unreachable blocks. */
  datatype Trace = Trace(
    folded: Code, regs: seq<Reg>, flowing: Code, flowed: Code, swept: Code, threaded: Code, dropped: Code)

  /** Nothing was optimized that the passes get wrong: constants were folded exactly, loads only where all of their
      bytes are read-only, and vectors forwarded in strict SSA form only; no call could see a store to an alias that
      was removed; and no call or atomic operation was removed from the stream. */
  ghost predicate Harmless(
    g: Guest, membase: nat, c0: Code, order0: seq<int>, t: Trace, c: Code, order: seq<int>, flags: Flags)
  {
    && FoldingApplies(g, membase, c0, t.folded, flags.foldVectors)
    && (flags.deepDataFlow ==> NoCallSees(t.flowing, order0))
    && EffectsStay(c0, t.swept, order0) && EffectsStay(c0, c, order)
  }

  // ---- The passes before the control-flow passes ----

  /** One scan of rtl_opt_fold_registers. */
  ghost predicate FoldRun(g: Guest, membase: nat, c0: Code, regs0: seq<Reg>, c: Code, regs: seq<Reg>, flags: Flags) {
    && StandsWith(c0, regs0) && StandsWith(c, regs) && ConstOK(c.decl, c.insns, regs)
    && Scanned(c0, regs0, c, regs, |c0.insns|, flags.foldConstants, flags.foldVectors)
    && FoldsAs(c0, c, regs) && LoadsExplained(g.readonly, membase, c0, c)
    && RipeLate(c0, regs0, c, regs, |c0.insns|, flags.foldConstants, flags.foldVectors)
    && (!flags.foldConstants ==> NoneLoaded(c0, c))
    && (flags.foldConstants ==> LoadsDone(c, regs, membase, g.readonly, |c.insns|))
  }

  /** Registers are set once, and before they are read. */
  ghost predicate StandsWith(c: Code, regs: seq<Reg>) {
    SsaOK(c.insns, regs) && Covers(c.decl, c.insns, regs) && Clean(c.decl, c.insns)
  }

  ghost predicate FoldTraced(
    g: Guest, membase: nat, c0: Code, regs0: seq<Reg>, c: Code, regs: seq<Reg>, flags: Flags)
  {
    && c == c0.(insns := c.insns) && OnlyPure(c0, c) && Retains(c0, c) && SameDests(c0, c) && StandsWith(c, regs)
    && if flags.foldConstants || flags.foldVectors then FoldRun(g, membase, c0, regs0, c, regs, flags)
       else c == c0 && regs == regs0
  }

  predicate SameDests(c0: Code, c: Code) {
    |c.insns| == |c0.insns| && forall i :: 0 <= i < |c.insns| ==> c.insns[i].dest == c0.insns[i].dest
  }

  /** One run of rtl_opt_decondition. */
  ghost predicate DeconditionRun(
    c0: Code, regs0: seq<Reg>, edges0: seq<Edges>, owner: seq<int>, order: seq<int>, lastBlock: int,
    c: Code, regs: seq<Reg>, edges: seq<Edges>)
  {
    && WellFormed(c0, regs0, edges0, owner, order, lastBlock, {})
    && Progress(c0, regs0, edges0, c, regs, edges, order, |order|)
  }

  ghost predicate BranchesTraced(c0: Code, regs0: seq<Reg>, order: seq<int>, c: Code, flags: Flags) {
    if flags.decondition then
      exists edges0, owner, lastBlock, regs, edges ::
        DeconditionRun(c0, regs0, edges0, owner, order, lastBlock, c, regs, edges)
    else c == c0
  }

  /** What rtl_opt_alias_data_flow does. */
  ghost predicate StoresTraced(c0: Code, order: seq<int>, c: Code, flags: Flags) {
    && c == c0.(insns := c.insns) && |c.insns| == |c0.insns|
    && forall k :: 0 <= k < |c.insns| ==>
         c.insns[k] == if flags.deepDataFlow && StoreRemoved(c0, order, k) then NopInsn else c0.insns[k]
  }

  /** What rtl_opt_drop_dead_stores does. */
  ghost predicate SweepTraced(c0: Code, c: Code, flags: Flags) {
    && c == c0.(insns := c.insns) && OnlyNops(c0.insns, c.insns)
    && forall i :: Killed(c0.insns, c.insns, i) <==> flags.dse && Removable(c0.decl, c0.insns, flags.dseFp, i)
  }

  /** What the control-flow passes do. */
  ghost predicate ControlTraced(t: Trace, order0: seq<int>, c: Code, order: seq<int>, flags: Flags) {
    if flags.basic then
      && ThreadTraced(t.swept, order0, t.threaded) && BlocksTraced(t.threaded, order0, t.dropped, order)
      && BranchesDropped(t.dropped, c, order, flags.dseFp, flags.dse)
    else t.threaded == t.swept && t.dropped == t.swept && c == t.swept && order == order0
  }

  // ---- The run as a whole ----

  /** Calls, and accesses to aliases, are as before. */
  predicate KeepsAliases(c: Code, c': Code) {
    c' == c.(insns := c'.insns) && |c'.insns| == |c.insns| && forall i :: 0 <= i < |c.insns| ==>
      (c.insns[i].op.CALL? || c'.insns[i].op.CALL? || HasAlias(c.insns[i].op) || HasAlias(c'.insns[i].op) ==>
         c'.insns[i] == c.insns[i])
  }

  /** A block no longer has successors it did not have. */
  ghost predicate FewerPaths(c: Code, c': Code, order: seq<int>) {
    KeepsAliases(c, c') && forall b <- order :: SpanOK(c, b) && Successors(c', b) <= Successors(c, b)
  }

  /** What c0 has become keeps its anchors and its data flow, and every register is still set before it is read. */
  ghost predicate Standing(c0: Code, order0: seq<int>, c: Code, order: seq<int>) {
    && AnchorsKept(c0, c, order0, order) && Retained(c0, c) && (exists regs :: StandsWith(c, regs))
    && forall b <- order :: SpanOK(c, b)
  }

  /** The trace is that of a run that leads from c0, with registers regs0, to c. */
  ghost predicate Traced(
    g: Guest, membase: nat, c0: Code, regs0: seq<Reg>, order0: seq<int>, t: Trace, c: Code, order: seq<int>,
    flags: Flags)
  {
    && StandsWith(c0, regs0)
    && FoldTraced(g, membase, c0, regs0, t.folded, t.regs, flags)
    && BranchesTraced(t.folded, t.regs, order0, t.flowing, flags)
    && StoresTraced(t.flowing, order0, t.flowed, flags)
    && SweepTraced(t.flowed, t.swept, flags)
    && FewerPaths(c0, t.flowing, order0) && (exists lastBlock :: FlowOK(t.flowing, order0, lastBlock))
    && Standing(c0, order0, t.swept, order0) && Standing(c0, order0, c, order)
    && AnchorsKept(t.swept, c, order0, order) && DefsUnchanged(t.swept, c)
    && (!flags.dse ==> EffectsStay(c0, t.swept, order0) && EffectsStay(c0, c, order))
    && ControlTraced(t, order0, c, order, flags)
  }
}
