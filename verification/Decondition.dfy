/** rtl_opt_decondition: conditional branches on constants become unconditional, or disappear. */
module Decondition {
  import opened Rtl
  import opened Liveness
  import opened Semantics
  import opened Rewrite
  import opened Flow
  import opened BlockEdges
  import opened Unit
  import opened Kill
  import opened Invariant

  /** Is a conditional branch whose condition register holds "value" taken? */
  predicate AlwaysTaken(op: Opcode, value: int) {
    (op.GOTO_IF_Z? && value == 0) || (op.GOTO_IF_NZ? && value != 0)
  }

  function Deconditioned(insn: Insn, value: int): Insn {
    if AlwaysTaken(insn.op, value) then insn.(op := GOTO, src1 := 0) else insn.(op := NOP, src1 := 0, other := 0)
  }

  lemma DeconditionStep(env: Env, c: Code, regs: seq<Reg>, k: nat, x: Config)
    requires ConstOK(c.decl, c.insns, regs) && Clean(c.decl, c.insns) && k < |c.insns| && ImmHolds(c, x)
    requires AtInsn(c, k, x)
    requires IsConditional(c.insns[k].op) && 0 < c.insns[k].src1 < |regs|
    requires regs[c.insns[k].src1].live && regs[c.insns[k].src1].source.CONSTANT?
    ensures Joins(env, c, c.(insns := c.insns[k := Deconditioned(c.insns[k], regs[c.insns[k].src1].value)]), x)
  {
    var insn := c.insns[k];
    assert CleanInsn(c.decl, insn);
    ConstValue(c, regs, insn.src1, x);
    var c' := c.(insns := c.insns[k := Deconditioned(insn, regs[insn.src1].value)]);
    assert !AlwaysTaken(insn.op, regs[insn.src1].value) ==> c'.insns[k] == NopInsn;
    JoinInOneStep(env, c, c', x);
  }

  lemma DeconditionRefines(c: Code, regs: seq<Reg>, k: nat)
    requires SsaOK(c.insns, regs) && ConstOK(c.decl, c.insns, regs) && Clean(c.decl, c.insns) && k < |c.insns|
    requires IsConditional(c.insns[k].op) && 0 < c.insns[k].src1 < |regs|
    requires regs[c.insns[k].src1].live && regs[c.insns[k].src1].source.CONSTANT?
    ensures Refines(c, c.(insns := c.insns[k := Deconditioned(c.insns[k], regs[c.insns[k].src1].value)]))
  {
    var insn' := Deconditioned(c.insns[k], regs[c.insns[k].src1].value);
    var c' := c.(insns := c.insns[k := insn']);
    forall env, als, mem ensures Agree(env, c, Init(c, als, mem), c', Init(c', als, mem)) {
      var inv := x => ImmHolds(c, x);
      ImmPreserved(env, c, regs);
      forall x | inv(x) && AtInsn(c, k, x) ensures Joins(env, c, c', x) { DeconditionStep(env, c, regs, k, x); }
      ReplaceInsn(env, c, k, insn', inv, Init(c, als, mem));
    }
  }

  /** A block with two exits ends in a conditional branch, and its exits are that branch's two targets. */
  lemma TwoExits(c: Code, edges: seq<Edges>, owner: seq<int>, order: seq<int>, b: int)
    requires (forall b <- order :: SpanOK(c, b)) && Wired(c, edges, owner, order) && b in order
    requires |edges[b].exits| == 2 && edges[b].exits[1] >= 0
    ensures IsConditional(LastInsn(c, b).op) && c.spans[b].next >= 0
    ensures LabelBlock(c, LastInsn(c, b).other) != c.spans[b].next
    ensures forall x :: 0 <= x < 2 ==>
              edges[b].exits[x] == c.spans[b].next || edges[b].exits[x] == LabelBlock(c, LastInsn(c, b).other)
    ensures edges[b].exits[0] != edges[b].exits[1]
  {
    assert SlotsOK(owner, b, edges[b]);
    assert edges[b].exits[0] in edges[b].exits && edges[b].exits[1] in edges[b].exits;
    assert edges[b].exits[0] in ExitSet(edges[b]) && edges[b].exits[1] in ExitSet(edges[b]);
  }

  /** The flow and live-range state after the branch was rewritten and one edge removed. */
  lemma DeconditionKeepsFlow(
    c: Code, edges: seq<Edges>, edges': seq<Edges>, owner: seq<int>, order: seq<int>, lastBlock: int,
    b: int, x: int, insn': Insn)
    requires FlowOK(c, order, lastBlock) && Wired(c, edges, owner, order) && b in order
    requires |edges[b].exits| == 2 && edges[b].exits[1] >= 0 && 0 <= x < 2 && !IsEmpty(c, b)
    requires || (insn' == LastInsn(c, b).(op := GOTO, src1 := 0) && edges[b].exits[x] == c.spans[b].next)
             || (insn'.op.NOP? && edges[b].exits[x] == LabelBlock(c, LastInsn(c, b).other))
    requires EdgesOK(edges', owner) && |edges'| == |edges|
    requires ExitSet(edges'[b]) == ExitSet(edges[b]) - {edges[b].exits[x]}
    requires forall a :: 0 <= a < |edges| && a != b ==> edges'[a].exits == edges[a].exits
    ensures FlowOK(c.(insns := c.insns[c.spans[b].last := insn']), order, lastBlock)
    ensures Wired(c.(insns := c.insns[c.spans[b].last := insn']), edges', owner, order)
  {
    hide StreamOK, Placed, LabelsOK, EdgesOK, ExitSet;
    SpansOfStream(c, order, lastBlock);
    TwoExits(c, edges, owner, order, b);
    RewriteLast(c, order, lastBlock, b, insn');
    SpansOfStream(c.(insns := c.insns[c.spans[b].last := insn']), order, lastBlock);
    SameExits(edges, edges', b);
  }

  lemma SameExits(edges: seq<Edges>, edges': seq<Edges>, b: int)
    requires |edges'| == |edges| && forall a :: 0 <= a < |edges| && a != b ==> edges'[a].exits == edges[a].exits
    ensures forall a :: 0 <= a < |edges| && a != b ==> ExitSet(edges'[a]) == ExitSet(edges[a])
  {}

  lemma DropCondition(d: Decl, insns: seq<Insn>, regs: seq<Reg>, k: int, insn': Insn)
    requires LiveOK(d, insns, regs, {}) && Clean(d, insns) && ConstOK(d, insns, regs) && 0 <= k < |insns|
    requires IsConditional(insns[k].op) && CleanInsn(d, insn') && insn'.dest == 0 && forall r :: !Reads(d, insn', r)
    ensures 0 < insns[k].src1 < |regs| && regs[insns[k].src1].live
    ensures 0 <= regs[insns[k].src1].birth < k <= regs[insns[k].src1].death < |insns|
    ensures Clean(d, insns[k := insn']) && ConstOK(d, insns[k := insn'], regs)
    ensures LiveOK(d, insns[k := insn'], regs, if regs[insns[k].src1].death == k then {insns[k].src1 as int} else {})
  {
    assert CleanInsn(d, insns[k]);
    assert Reads(d, insns[k], insns[k].src1);
    DropOperands(d, insns, regs, k, insn');
    assert Dropped(d, regs, k, insns[k], insn') == if regs[insns[k].src1].death == k then {insns[k].src1 as int}
        else {};
    forall r | 0 < r < |regs| && regs[r].live && regs[r].source.CONSTANT?
      ensures ConstReg(d, insns[k := insn'], regs, r) {
      assert ConstReg(d, insns, regs, r);
    }
  }

  predicate ConditionIsConstant(c: Code, regs: seq<Reg>, b: int)
    requires SpanOK(c, b)
  {
    var r := LastInsn(c, b).src1;
    IsConditional(LastInsn(c, b).op) && r < |regs| && regs[r].source.CONSTANT?
  }

  lemma NextInTiled(c: Code, order: seq<int>, lastBlock: int, b: int)
    requires StreamOK(c, order, lastBlock) && Tiled(c, order) && b in order
    ensures c.spans[b].next == b + 1 || c.spans[b].next == -1
  {
    var k :| 0 <= k < |order| && order[k] == b;
    assert After(order, k) == if k + 1 < |order| then k + 1 else -1;
  }

  /** What the pass relies on when it looks at block b. */
  lemma BlockFacts(
    c: Code, regs: seq<Reg>, edges: seq<Edges>, owner: seq<int>, order: seq<int>, lastBlock: int, b: int)
    requires WellFormed(c, regs, edges, owner, order, lastBlock, {}) && Tiled(c, order) && b in order
    ensures SpanOK(c, b) && |edges| == |c.spans| && EdgesOK(edges, owner) && IsReal(owner, b)
    ensures |edges[b].exits| == 2 && (|ExitSet(edges[b])| == 2 <==> edges[b].exits[1] >= 0)
    ensures edges[b].exits[1] >= 0 ==>
              var insn := LastInsn(c, b);
              && !IsEmpty(c, b) && IsConditional(insn.op) && edges[b].exits[0] >= 0
              && 0 < insn.src1 < |regs| && regs[insn.src1].live
              && 0 <= regs[insn.src1].birth < regs[insn.src1].death < |c.insns|
              && regs[insn.src1].death >= c.spans[b].last
              && (edges[b].exits[if edges[b].exits[0] == b + 1 then 0 else 1] == c.spans[b].next)
              && (edges[b].exits[if edges[b].exits[0] == b + 1 then 1 else 0] == LabelBlock(c, insn.other))
  {
    hide StreamOK, Placed, TargetsOK, LabelsOK, EdgesOK, ExitSet, SsaOK, Covers, Tight, Tiled;
    SpansOfStream(c, order, lastBlock);
    EdgeShape(edges, owner, b);
    ExitSetSize(edges[b], owner, b, 0);
    if edges[b].exits[1] >= 0 {
      TwoExits(c, edges, owner, order, b);
      NextInTiled(c, order, lastBlock, b);
      DropCondition(c.decl, c.insns, regs, c.spans[b].last, NopInsn);
    }
  }

  lemma DeconditionDone(
    c: Code, regs: seq<Reg>, edges: seq<Edges>, owner: seq<int>, order: seq<int>, lastBlock: int, b: int, x: int,
    regs': seq<Reg>, edges': seq<Edges>)
    requires WellFormed(c, regs, edges, owner, order, lastBlock, {}) && b in order
    requires SpanOK(c, b) && IsConditional(LastInsn(c, b).op) && 0 < LastInsn(c, b).src1 < |regs|
    requires |edges[b].exits| == 2 && edges[b].exits[1] >= 0 && 0 <= x < 2
    requires regs[LastInsn(c, b).src1].live && regs[LastInsn(c, b).src1].source.CONSTANT?
    requires var insn := LastInsn(c, b);
      if AlwaysTaken(insn.op, regs[insn.src1].value) then edges[b].exits[x] == c.spans[b].next
      else edges[b].exits[x] == LabelBlock(c, insn.other)
    requires EdgesOK(edges', owner) && |edges'| == |edges|
    requires ExitSet(edges'[b]) == ExitSet(edges[b]) - {edges[b].exits[x]}
    requires forall a :: 0 <= a < |edges| && a != b ==> edges'[a].exits == edges[a].exits
    requires var insn := LastInsn(c, b);
      var c' := c.(insns := c.insns[c.spans[b].last := Deconditioned(insn, regs[insn.src1].value)]);
      if regs[insn.src1].death == c.spans[b].last then RolledBack(c', regs, regs', insn.src1) else regs' == regs
    ensures var insn := LastInsn(c, b);
      var c' := c.(insns := c.insns[c.spans[b].last := Deconditioned(insn, regs[insn.src1].value)]);
      WellFormed(c', regs', edges', owner, order, lastBlock, {}) && Refines(c, c')
  {
    hide Tight, SsaOK, EdgesOK, Refines, FlowOK, Covers, ExitSet, Successors;
    var insn, k := LastInsn(c, b), c.spans[b].last;
    var insn' := Deconditioned(insn, regs[insn.src1].value);
    assert CleanInsn(c.decl, insn);
    assert insn'.op.NOP? ==> insn' == NopInsn;
    DropCondition(c.decl, c.insns, regs, k, insn');
    DeconditionRefines(c, regs, k);
    DeconditionKeepsFlow(c, edges, edges', owner, order, lastBlock, b, x, insn');
    hide FlowOK, Covers, Tight, EdgesOK, SsaOK;
    if regs[insn.src1].death == k {
      RollbackKeepsLive(c.decl, c.insns[k := insn'], regs, regs', {insn.src1 as int}, insn.src1);
      assert {insn.src1 as int} - {insn.src1 as int} == {};
    }
  }

  /** What the pass makes of block b's last instruction. */
  function Expected(c: Code, regs: seq<Reg>, edges: seq<Edges>, b: int): Insn
    requires SpanOK(c, b) && b < |edges|
  {
    if |ExitSet(edges[b])| == 2 && ConditionIsConstant(c, regs, b) then
      Deconditioned(LastInsn(c, b), regs[LastInsn(c, b).src1].value)
    else LastInsn(c, b)
  }

  /** How the pass changes the unit at block b. */
  ghost predicate BlockDone(
    c: Code, regs: seq<Reg>, edges: seq<Edges>, c': Code, regs': seq<Reg>, edges': seq<Edges>, b: int)
    requires SpanOK(c, b) && b < |edges| == |edges'|
  {
    && |regs'| == |regs| && (forall r :: 0 <= r < |regs'| ==> SameButDeath(regs'[r], regs[r]))
    && c' == c.(insns := if IsEmpty(c, b) then c.insns else c.insns[c.spans[b].last := Expected(c, regs, edges, b)])
    && (forall a :: 0 <= a < |edges'| && a != b ==> edges'[a].exits == edges[a].exits)
    && (|ExitSet(edges'[b])| == 2 ==> c'.insns == c.insns && !ConditionIsConstant(c, regs, b))
  }

  lemma BranchDone(
    c: Code, regs: seq<Reg>, edges: seq<Edges>, owner: seq<int>, b: int, x: int,
    c': Code, regs': seq<Reg>, edges': seq<Edges>)
    requires SpanOK(c, b) && b < |edges| == |edges'| && 0 <= x < 2 && |edges[b].exits| == 2
    requires ConditionIsConstant(c, regs, b) && EdgesOK(edges, owner) && IsReal(owner, b) && edges[b].exits[1] >= 0
    requires ExitSet(edges'[b]) == ExitSet(edges[b]) - {edges[b].exits[x]}
    requires forall a :: 0 <= a < |edges'| && a != b ==> edges'[a].exits == edges[a].exits
    requires |regs'| == |regs| && forall r :: 0 <= r < |regs'| ==> SameButDeath(regs'[r], regs[r])
    requires var insn := LastInsn(c, b);
      c' == c.(insns := c.insns[c.spans[b].last := Deconditioned(insn, regs[insn.src1].value)])
    ensures BlockDone(c, regs, edges, c', regs', edges', b)
  {
    EdgeShape(edges, owner, b);
    ExitSetSize(edges[b], owner, b, edges[b].exits[x]);
  }

  lemma NothingDone(c: Code, regs: seq<Reg>, edges: seq<Edges>, b: int)
    requires SpanOK(c, b) && b < |edges| && (|ExitSet(edges[b])| == 2 ==> !ConditionIsConstant(c, regs, b))
    ensures BlockDone(c, regs, edges, c, regs, edges, b)
  {}

  predicate SameButDeath(r: Reg, r0: Reg) { r == r0.(death := r.death) }

  /** One block of rtl_opt_decondition. */
  method DeconditionBlock(unit: RtlUnit, b: int)
    requires UnitOK(unit) && Tiled(unit.Snap(), unit.order) && b in unit.order
    modifies unit`insns, unit`regs, unit`edges
    ensures UnitOK(unit) && Refines(old(unit.Snap()), unit.Snap())
    ensures SpanOK(old(unit.Snap()), b) && |unit.edges| == |old(unit.edges)| > b
    ensures BlockDone(old(unit.Snap()), old(unit.regs), old(unit.edges), unit.Snap(), unit.regs, unit.edges, b)
  {
    hide WellFormed, Tiled, EdgesOK, ExitSet, Refines, BlockDone;
    ghost var c, regs, edges := unit.Snap(), unit.regs, unit.edges;
    RefinesSelf(c);
    BlockFacts(c, regs, edges, unit.owner, unit.order, unit.lastBlock, b);
    if unit.edges[b].exits[1] >= 0 {
      var k := unit.spans[b].last;
      var insn := unit.insns[k];
      var r := insn.src1;
      if unit.regs[r].source.CONSTANT? {
        var fallthrough := if unit.edges[b].exits[0] == b + 1 then 0 else 1;
        ghost var x;
        if AlwaysTaken(insn.op, unit.regs[r].value) {
          unit.insns := unit.insns[k := insn.(op := GOTO, src1 := 0)];
          x := fallthrough;
          RemoveEdge(unit, b, fallthrough);
        } else {
          unit.insns := unit.insns[k := insn.(op := NOP, src1 := 0, other := 0)];
          x := 1 - fallthrough;
          RemoveEdge(unit, b, 1 - fallthrough);
        }
        if unit.regs[r].death == k {
          var _ := RollbackRegDeath(unit, r);
        }
        DeconditionDone(c, regs, edges, unit.owner, unit.order, unit.lastBlock, b, x, unit.regs, unit.edges);
        BranchDone(c, regs, edges, unit.owner, b, x, unit.Snap(), unit.regs, unit.edges);
        return;
      }
    }
    NothingDone(c, regs, edges, b);
  }

  /** A conditional branch may have become a GOTO or NOP; other instructions stay. */
  predicate Unbranched(insn0: Insn, insn: Insn) {
    || insn == insn0
    || (IsConditional(insn0.op) && (insn.op.GOTO? || insn.op.NOP?) && insn.src1 == 0 && insn.src2 == insn0.src2
         && insn.dest == insn0.dest
        && (insn.op.GOTO? ==> insn.other == insn0.other))
  }

  ghost predicate OnlyBranches(c0: Code, c: Code) {
    |c.insns| == |c0.insns| && forall i :: 0 <= i < |c.insns| ==> Unbranched(c0.insns[i], c.insns[i])
  }

  lemma OnlyBranchesStep(
    c0: Code, c: Code, regs: seq<Reg>, edges: seq<Edges>, c': Code, regs': seq<Reg>, edges': seq<Edges>, b: int)
    requires OnlyBranches(c0, c) && SpanOK(c, b) && b < |edges| == |edges'|
    requires BlockDone(c, regs, edges, c', regs', edges', b)
    ensures OnlyBranches(c0, c')
  {
    hide ExitSet;
    forall i | 0 <= i < |c'.insns| ensures Unbranched(c0.insns[i], c'.insns[i]) {
      assert Unbranched(c0.insns[i], c.insns[i]);
    }
  }

  /** The first k blocks of the stream have been processed. */
  ghost predicate Progress(
    c0: Code, regs0: seq<Reg>, edges0: seq<Edges>, c: Code, regs: seq<Reg>, edges: seq<Edges>, order: seq<int>, k: int)
  {
    && c == c0.(insns := c.insns) && |edges| == |edges0| && OnlyBranches(c0, c)
    && |regs| == |regs0| && (forall r :: 0 <= r < |regs| ==> SameButDeath(regs[r], regs0[r]))
    && (forall j :: 0 <= j < |order| ==> SpanOK(c0, order[j]) && SpanOK(c, order[j]) && order[j] < |edges|)
    && (forall j :: 0 <= j < |order| ==> BlockProgress(c0, regs0, edges0, c, edges, order[j], j < k))
  }

  ghost predicate BlockProgress(
    c0: Code, regs0: seq<Reg>, edges0: seq<Edges>, c: Code, edges: seq<Edges>, b: int, done: bool)
    requires SpanOK(c0, b) && SpanOK(c, b) && b < |edges| == |edges0|
  {
    if done then
      && LastInsn(c, b) == Expected(c0, regs0, edges0, b)
      && (|ExitSet(edges[b])| == 2 ==> LastInsn(c, b) == LastInsn(c0, b) && !ConditionIsConstant(c0, regs0, b))
    else LastInsn(c, b) == LastInsn(c0, b) && edges[b].exits == edges0[b].exits
  }

  lemma ProgressStep(
    c0: Code, regs0: seq<Reg>, edges0: seq<Edges>, c: Code, regs: seq<Reg>, edges: seq<Edges>,
    c': Code, regs': seq<Reg>, edges': seq<Edges>, order: seq<int>, lastBlock: int, k: int)
    requires Progress(c0, regs0, edges0, c, regs, edges, order, k) && 0 <= k < |order|
    requires StreamOK(c, order, lastBlock) && Placed(c, order)
    requires |edges'| == |edges| && BlockDone(c, regs, edges, c', regs', edges', order[k])
    ensures Progress(c0, regs0, edges0, c', regs', edges', order, k + 1)
  {
    var b := order[k];
    OnlyBranchesStep(c0, c, regs, edges, c', regs', edges', b);
    hide OnlyBranches;
    var e := Expected(c, regs, edges, b);
    assert ExitSet(edges[b]) == ExitSet(edges0[b]);
    forall j | 0 <= j < |order|
      ensures SpanOK(c', order[j]) && BlockProgress(c0, regs0, edges0, c', edges', order[j], j < k + 1)
    {
      var a := order[j];
      assert BlockProgress(c0, regs0, edges0, c, edges, a, j < k);
      if j != k {
        assert a != b;
        if !IsEmpty(c, b) {
          BlocksDisjoint(c, order, lastBlock, a, b, c.spans[b].last);
        }
      }
    }
  }

  /** A conditional branch that ends block b, goes to another block than the next one, and tests a constant has become a
      GOTO if it was always taken and a NOP if it never was; any other instruction at the end of b is as before. */
  ghost predicate BranchSettled(c0: Code, regs0: seq<Reg>, c: Code, b: int) {
    0 <= b < |c0.spans| && 0 <= c0.spans[b].first <= c0.spans[b].last < |c0.insns| ==>
      var k := c0.spans[b].last;
      var insn := c0.insns[k];
      && k < |c.insns|
      && c.insns[k] ==
         if (insn.op == GOTO_IF_Z || insn.op == GOTO_IF_NZ) && LabelBlock(c0, insn.other) != c0.spans[b].next
            && insn.src1 < |regs0| && regs0[insn.src1].source == CONSTANT
         then if (insn.op == GOTO_IF_Z) == (regs0[insn.src1].value == 0) then Insn(GOTO, 0, 0, 0, insn.other)
              else Insn(NOP, 0, 0, 0, 0)
         else insn
  }

  lemma TwoWaysOut(c: Code, edges: seq<Edges>, b: int)
    requires SpanOK(c, b) && b < |edges| && ExitSet(edges[b]) == Successors(c, b) && IsConditional(LastInsn(c, b).op)
    requires c.spans[b].next >= 0
    ensures |ExitSet(edges[b])| == 2 <==> LabelBlock(c, LastInsn(c, b).other) != c.spans[b].next
  {
    hide ExitSet;
    var t, next := LabelBlock(c, LastInsn(c, b).other), c.spans[b].next;
    assert Successors(c, b) == {next} + {t};
    if t == next { assert {next} + {t} == {next}; } else { assert |{next} + {t}| == 2; }
  }

  lemma BlockSettled(
    c0: Code, regs0: seq<Reg>, edges0: seq<Edges>, owner: seq<int>, order: seq<int>, lastBlock: int, c: Code,
    regs: seq<Reg>, edges: seq<Edges>, j: int)
    requires WellFormed(c0, regs0, edges0, owner, order, lastBlock, {}) && 0 <= j < |order|
    requires Progress(c0, regs0, edges0, c, regs, edges, order, |order|)
    ensures BranchSettled(c0, regs0, c, order[j])
  {
    hide StreamOK, Placed, LabelsOK, EdgesOK, ExitSet, Successors, LiveOK, ConstOK, OnlyBranches;
    var b := order[j];
    assert b in order && SpanOK(c0, b) && SpanOK(c, b);
    assert BlockProgress(c0, regs0, edges0, c, edges, b, true);
    if !IsEmpty(c0, b) {
      assert CleanInsn(c0.decl, LastInsn(c0, b));
      if IsConditional(LastInsn(c0, b).op) { TwoWaysOut(c0, edges0, b); }
    }
  }

  /** rtl_opt_decondition: every two-way branch on a constant becomes a GOTO or a NOP, the other block ends
      stay as they are. */
  method DeconditionPass(unit: RtlUnit)
    requires UnitOK(unit) && Tiled(unit.Snap(), unit.order)
    modifies unit`insns, unit`regs, unit`edges
    ensures UnitOK(unit) && Tiled(unit.Snap(), unit.order) && Refines(old(unit.Snap()), unit.Snap())
    ensures |unit.regs| == |old(unit.regs)|
    ensures Progress(old(unit.Snap()), old(unit.regs), old(unit.edges), unit.Snap(), unit.regs, unit.edges,
                     unit.order, |unit.order|)
    ensures forall b <- unit.order :: BranchSettled(old(unit.Snap()), old(unit.regs), unit.Snap(), b)
  {
    hide WellFormed, Refines, Progress, BlockProgress, Tiled, Expected, ConditionIsConstant, SpanOK, BranchSettled;
    ghost var c0, regs0, edges0 := unit.Snap(), unit.regs, unit.edges;
    RefinesSelf(c0);
    ProgressStart(c0, regs0, edges0, unit.owner, unit.order, unit.lastBlock);
    var b := 0;
    ghost var k := 0;
    StreamFacts(c0, regs0, edges0, unit.owner, unit.order, unit.lastBlock, {}, 0);
    while b >= 0
      invariant 0 <= k <= |unit.order| && UnitOK(unit) && Tiled(unit.Snap(), unit.order)
      invariant b == if k < |unit.order| then unit.order[k] else -1
      invariant Refines(c0, unit.Snap()) && |unit.regs| == |regs0|
      invariant Progress(c0, regs0, edges0, unit.Snap(), unit.regs, unit.edges, unit.order, k)
      decreases |unit.order| - k
    {
      ghost var c, regs, edges := unit.Snap(), unit.regs, unit.edges;
      StreamFacts(c, regs, edges, unit.owner, unit.order, unit.lastBlock, {}, k);
      DeconditionBlock(unit, b);
      ProgressStep(c0, regs0, edges0, c, regs, edges, unit.Snap(), unit.regs, unit.edges, unit.order, unit.lastBlock,
                   k);
      RefinesTransitive(c0, c, unit.Snap());
      TiledKept(c, unit.Snap(), unit.order);
      b := unit.spans[b].next;
      k := k + 1;
    }
    forall x | x in unit.order ensures BranchSettled(c0, regs0, unit.Snap(), x) {
      var j :| 0 <= j < |unit.order| && unit.order[j] == x;
      BlockSettled(c0, regs0, edges0, unit.owner, unit.order, unit.lastBlock, unit.Snap(), unit.regs, unit.edges, j);
    }
  }

  lemma ProgressStart(
    c: Code, regs: seq<Reg>, edges: seq<Edges>, owner: seq<int>, order: seq<int>, lastBlock: int)
    requires WellFormed(c, regs, edges, owner, order, lastBlock, {})
    ensures Progress(c, regs, edges, c, regs, edges, order, 0)
  {}

  lemma TiledKept(c: Code, c': Code, order: seq<int>)
    requires Tiled(c, order) && c' == c.(insns := c'.insns) && |c'.insns| == |c.insns|
    ensures Tiled(c', order)
  {
    forall k | 0 <= k < |order| ensures SpanOK(c', k) { assert SpanOK(c, k); }
  }
}
