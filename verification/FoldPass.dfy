/** The body of rtl_opt_fold_registers: folding constants and forwarding vector elements at one instruction. */
module FoldPass {
  import opened Rtl
  import Arith
  import Folding
  import Meaning
  import opened Liveness
  import opened Semantics
  import opened Flow
  import opened BlockEdges
  import opened Unit
  import opened Kill
  import opened Invariant
  import opened Paths
  import opened FoldConstants
  import opened FoldVectors

  // ---- Rewriting one instruction ----

  /** The registers in "loose" were last read by instruction k, which no longer reads them. */
  ghost predicate Unread(c: Code, regs: seq<Reg>, loose: set<int>, k: int) {
    forall r <- loose ::
      && 0 < r < |regs| && regs[r].live && 0 <= regs[r].birth < regs[r].death == k < |c.insns|
      && !Reads(c.decl, c.insns[k], r)
  }

  ghost predicate FoldState(
    c: Code, regs: seq<Reg>, edges: seq<Edges>, owner: seq<int>, order: seq<int>, lastBlock: int, loose: set<int>,
    k: int)
  {
    && WellFormed(c, regs, edges, owner, order, lastBlock, loose)
    && TypedOK(c.decl, c.insns, regs)
    && Unread(c, regs, loose, k)
  }

  ghost predicate FoldOK(unit: RtlUnit, loose: set<int>, k: int)
    reads unit
  {
    FoldState(unit.Snap(), unit.regs, unit.edges, unit.owner, unit.order, unit.lastBlock, loose, k)
  }

  /** regs' is regs with a new source and value for "dest", and the range of "fwd" (if not 0) extended to k. */
  predicate Retouched(regs: seq<Reg>, regs': seq<Reg>, dest: int, fwd: int, k: int) {
    |regs'| == |regs| && forall r :: 0 <= r < |regs| ==>
      regs'[r] == if r == dest then regs[r].(source := regs'[r].source, value := regs'[r].value)
                  else if r == fwd && r != 0 && regs[r].death < k then regs[r].(death := k)
                  else regs[r]
  }

  /** What the scan replaces: operations on registers, and loads. */
  predicate Replaceable(op: Opcode) { ResultOp(op) || op.LOAD? }

  /** insn' can stand in for instruction k: same destination, and no operands but the old ones and fwd. */
  ghost predicate CanStandIn(c: Code, regs: seq<Reg>, k: int, insn': Insn, fwd: int) {
    && 0 <= k < |c.insns| && c.insns[k].dest != 0 && Replaceable(c.insns[k].op) && IsPure(insn'.op)
    && insn'.dest == c.insns[k].dest && CleanInsn(c.decl, insn') && TypedInsn(c.decl, insn')
    && (forall r :: Reads(c.decl, insn', r) ==> Reads(c.decl, c.insns[k], r) || r == fwd)
    && (fwd != 0 ==> Reads(c.decl, insn', fwd) && fwd < |regs| && regs[fwd].live && regs[fwd].birth < k)
  }

  lemma RewriteCovers(c: Code, regs: seq<Reg>, regs': seq<Reg>, k: int, insn': Insn, fwd: int)
    requires LiveOK(c.decl, c.insns, regs, {}) && CanStandIn(c, regs, k, insn', fwd)
    requires Retouched(regs, regs', insn'.dest, fwd, k)
    ensures SsaOK(c.insns[k := insn'], regs') && Covers(c.decl, c.insns[k := insn'], regs')
  {
    var d, insns' := c.decl, c.insns[k := insn'];
    forall i, r | 0 <= i < |insns'| && Reads(d, insns'[i], r)
      ensures r < |regs'| && regs'[r].live && regs'[r].birth < i <= regs'[r].death
    {
      if i != k || r != fwd { assert Reads(d, c.insns[i], r); }
    }
  }

  lemma RewriteTight(c: Code, regs: seq<Reg>, regs': seq<Reg>, k: int, insn': Insn, fwd: int, r: int)
    requires LiveOK(c.decl, c.insns, regs, {}) && CanStandIn(c, regs, k, insn', fwd)
    requires Retouched(regs, regs', insn'.dest, fwd, k) && 0 < r < |regs|
    requires r !in Dropped(c.decl, regs, k, c.insns[k], insn')
    ensures Tight(c.decl, c.insns[k := insn'], regs', r)
  {
    hide SsaOK, Covers, CleanInsn;
    assert Tight(c.decl, c.insns, regs, r);
    assert fwd != 0 ==> Names(c.decl, insn', fwd);
  }

  lemma RewriteLive(c: Code, regs: seq<Reg>, regs': seq<Reg>, k: int, insn': Insn, fwd: int)
    requires LiveOK(c.decl, c.insns, regs, {}) && CanStandIn(c, regs, k, insn', fwd)
    requires Retouched(regs, regs', insn'.dest, fwd, k)
    ensures LiveOK(c.decl, c.insns[k := insn'], regs', Dropped(c.decl, regs, k, c.insns[k], insn'))
    ensures Unread(c.(insns := c.insns[k := insn']), regs', Dropped(c.decl, regs, k, c.insns[k], insn'), k)
  {
    hide Tight, TypedInsn, CleanInsn, Names;
    var dropped := Dropped(c.decl, regs, k, c.insns[k], insn');
    RewriteCovers(c, regs, regs', k, insn', fwd);
    forall r | 0 < r < |regs'| && r !in dropped ensures Tight(c.decl, c.insns[k := insn'], regs', r) {
      RewriteTight(c, regs, regs', k, insn', fwd, r);
    }
    forall r | r in dropped
      ensures regs'[r].live && 0 <= regs'[r].birth < regs'[r].death == k && !Reads(c.decl, insn', r)
    {
      assert Reads(c.decl, c.insns[k], r);
    }
  }

  lemma RewriteInsn(
    c: Code, regs: seq<Reg>, regs': seq<Reg>, edges: seq<Edges>, owner: seq<int>, order: seq<int>, lastBlock: int,
    k: int, insn': Insn, fwd: int)
    requires FoldState(c, regs, edges, owner, order, lastBlock, {}, k) && CanStandIn(c, regs, k, insn', fwd)
    requires Retouched(regs, regs', insn'.dest, fwd, k)
    requires insn'.dest < |regs|
    requires regs'[insn'.dest].source.CONSTANT? ==> ConstReg(c.decl, c.insns[k := insn'], regs', insn'.dest)
    requires ResultReg(c.insns[k := insn'], regs', insn'.dest)
    ensures FoldState(c.(insns := c.insns[k := insn']), regs', edges, owner, order, lastBlock,
                      Dropped(c.decl, regs, k, c.insns[k], insn'), k)
  {
    hide StreamOK, Placed, TargetsOK, LabelsOK, EdgesOK, Tight, Successors;
    RewriteLive(c, regs, regs', k, insn', fwd);
    RewritePlain(c, c.(insns := c.insns[k := insn']), order, lastBlock);
    var insns' := c.insns[k := insn'];
    forall r | 0 < r < |regs'| && r != insn'.dest
      ensures regs'[r].live && regs'[r].source.CONSTANT? ==> ConstReg(c.decl, insns', regs', r)
      ensures ResultReg(insns', regs', r)
    {
      assert ResultReg(c.insns, regs, r);
      if regs[r].live {
        assert regs[r].birth != k;
        if regs[r].source.CONSTANT? { assert ConstReg(c.decl, c.insns, regs, r); }
      }
    }
    assert Clean(c.decl, insns');
  }

  // ---- Rolling back what died ----

  lemma RollbackKeeps(
    c: Code, regs: seq<Reg>, regs': seq<Reg>, edges: seq<Edges>, owner: seq<int>, order: seq<int>, lastBlock: int,
    loose: set<int>, k: int, r: int)
    requires FoldState(c, regs, edges, owner, order, lastBlock, loose, k) && r in loose
    requires RolledBack(c, regs, regs', r)
    ensures FoldState(c, regs', edges, owner, order, lastBlock, loose - {r}, k)
  {
    RollbackKeepsLive(c.decl, c.insns, regs, regs', loose, r);
    forall q | 0 < q < |regs'|
      ensures regs'[q].live && regs'[q].source.CONSTANT? ==> ConstReg(c.decl, c.insns, regs', q)
      ensures ResultReg(c.insns, regs', q)
    {
      assert ResultReg(c.insns, regs, q);
      if regs[q].live && regs[q].source.CONSTANT? { assert ConstReg(c.decl, c.insns, regs, q); }
    }
  }

  predicate OnlyDeaths(regs: seq<Reg>, regs': seq<Reg>) {
    |regs'| == |regs| && forall r :: 0 <= r < |regs| ==> regs'[r] == regs[r].(death := regs'[r].death)
  }

  /** The step repeated all over folding: roll r's death back if it was instruction k. */
  method RollbackIfDying(unit: RtlUnit, r: int, k: int, ghost loose: set<int>)
    requires FoldOK(unit, loose, k) && 0 < r < |unit.regs|
    requires unit.regs[r].death == k ==> r in loose
    modifies unit`regs
    ensures FoldOK(unit, loose - {r}, k) && OnlyDeaths(old(unit.regs), unit.regs) && unit.regs[r].death != k
    ensures forall q :: 0 <= q < |unit.regs| && q != r ==> unit.regs[q] == old(unit.regs)[q]
  {
    assert r in loose ==> unit.regs[r].live && 0 <= unit.regs[r].birth < unit.regs[r].death == k < |unit.insns|;
    hide WellFormed, TypedOK;
    ghost var regs := unit.regs;
    if unit.regs[r].death == k {
      var _ := RollbackRegDeath(unit, r);
      RollbackKeeps(unit.Snap(), regs, unit.regs, unit.edges, unit.owner, unit.order, unit.lastBlock, loose, k, r);
    } else {
      assert loose - {r} == loose;
    }
  }

  lemma OperandFacts(
    c: Code, regs: seq<Reg>, edges: seq<Edges>, owner: seq<int>, order: seq<int>, lastBlock: int, k: int)
    requires FoldState(c, regs, edges, owner, order, lastBlock, {}, k) && 0 <= k < |c.insns|
    ensures forall r :: Reads(c.decl, c.insns[k], r) ==>
              0 < r < |regs| && regs[r].live && 0 <= regs[r].birth < k <= regs[r].death < |c.insns|
    ensures CleanInsn(c.decl, c.insns[k]) && TypedInsn(c.decl, c.insns[k])
    ensures c.insns[k].dest != 0 ==>
              c.insns[k].dest < |regs| && regs[c.insns[k].dest].live && regs[c.insns[k].dest].birth == k
    ensures forall r :: IsConst(regs, r) ==> ConstOperand(c.decl, regs, r)
    ensures ConstOK(c.decl, c.insns, regs) && SsaOK(c.insns, regs)
  {
    forall r: nat | IsConst(regs, r) ensures ConstOperand(c.decl, regs, r) { ConstOperands(c.decl, c.insns, regs, r); }
  }

  // ---- Folding one register ----

  /** Only instruction k, its register's source and value, and the ends of live ranges may have changed. */
  predicate OnlyAt(c: Code, regs: seq<Reg>, c': Code, regs': seq<Reg>, k: int) {
    && 0 <= k < |c.insns| == |c'.insns| && c' == c.(insns := c.insns[k := c'.insns[k]])
    && c'.insns[k].dest == c.insns[k].dest && |regs'| == |regs|
    && forall r :: 0 <= r < |regs| ==>
         regs'[r].live == regs[r].live && regs'[r].birth == regs[r].birth
         && (r != c.insns[k].dest ==> regs'[r].source == regs[r].source && regs'[r].value == regs[r].value)
  }

  /** Instruction k defines a register of source RESULT (already marked RESULT_NOFOLD by the scan). */
  ghost predicate AtResult(unit: RtlUnit, k: int)
    reads unit
  {
    && FoldOK(unit, {}, k) && 0 <= k < |unit.insns| && 0 < unit.insns[k].dest < |unit.regs|
    && unit.regs[unit.insns[k].dest].source.RESULT_NOFOLD?
    && ResultOp(unit.insns[k].op)
  }

  /** insn' stands for a pure instruction k, and reads nothing that was not read before. */
  ghost predicate ReadsKnown(c: Code, k: int, insn': Insn) {
    && 0 <= k < |c.insns| && Replaceable(c.insns[k].op) && IsPure(insn'.op)
    && forall r :: Reads(c.decl, insn', r) ==> HasReader(c.decl, c.insns, r)
  }

  lemma NarrowsKnown(c: Code, k: int, insn1: Insn, insn2: Insn)
    requires ReadsKnown(c, k, insn1) && Narrows(c.decl, insn1, insn2)
    ensures ReadsKnown(c, k, insn2) && (!insn1.op.LOAD_ARG? ==> !insn2.op.LOAD_ARG?)
  {}

  lemma OwnReadsKnown(c: Code, k: int)
    requires 0 <= k < |c.insns| && ResultOp(c.insns[k].op)
    ensures ReadsKnown(c, k, c.insns[k])
  {}

  /** Constant folding adds no operands. */
  ghost predicate Narrows(d: Decl, insn: Insn, insn': Insn) {
    && IsPure(insn.op) && IsPure(insn'.op)
    && (forall r :: Reads(d, insn', r) ==> Reads(d, insn, r))
    && (insn'.op.VEXTRACT? || insn'.op.LOAD_ARG? ==> insn' == insn)
  }

  /** An operation that folding leaves alone or lets read all its operands but the constants. */
  predicate Sturdy(op: Opcode) {
    !op.SELECT? && !op.VEXTRACT? && !op.VINSERT? && !op.LOAD_IMM? && !op.LOAD? && !op.NOP? && !op.LABEL?
  }

  ghost predicate KeepsReads(d: Decl, regs: seq<Reg>, insn: Insn, insn': Insn) {
    Sturdy(insn.op) ==> forall r :: Reads(d, insn, r) && !IsConst(regs, r) ==> Reads(d, insn', r)
  }

  /** Only constants of the right kind were folded: folding at k was exact, or did not produce a constant. */
  predicate FoldedRight(d: Decl, regs: seq<Reg>, insn: Insn, insn': Insn) {
    insn'.op.LOAD_IMM? ==> ExactFold(d, regs, insn)
  }

  // ---- What folding makes of an instruction ----

  /** All operands are constant, and the instruction has become the value they give. */
  predicate FoldedWhole(d: Decl, regs: seq<Reg>, insn: Insn, insn': Insn) {
    && IsConst(regs, insn.src1) && insn.src2 < |regs| && (insn.src2 != 0 ==> IsConst(regs, insn.src2))
    && insn'.other >= 0 && insn' == FoldConstants.Folded(insn, insn'.other)
    && (FoldConstant(d, regs, insn).Some? ==>
          insn'.other == StoredConstant(TypeOf(d, insn.dest), FoldConstant(d, regs, insn).value))
  }

  /** One operand is constant, and the instruction has its register-immediate form. */
  predicate FoldedHalf(d: Decl, regs: seq<Reg>, insn: Insn, insn': Insn, constantIsSrc2: bool) {
    && insn.op.ALU2? && insn.src1 < |regs| && insn.src2 < |regs|
    && IsConst(regs, if constantIsSrc2 then insn.src2 else insn.src1) && Conversion(d, regs, insn, constantIsSrc2).Some?
    && insn' == Converted(insn, Conversion(d, regs, insn, constantIsSrc2).value,
                          if constantIsSrc2 then insn.src1 else insn.src2)
  }

  /** The opcodes that SELECT and the vector operations can end up with. */
  predicate Reduced(op: Opcode, op': Opcode) {
    op' == op || op'.MOVE? || op'.LOAD_IMM? || (op.VINSERT? && op'.VBUILD2?)
  }

  /** What the scan can make of an operation on registers, given the constants it knows. */
  predicate FoldedAs(d: Decl, regs: seq<Reg>, insn: Insn, insn': Insn) {
    || insn' == insn
    || (Foldable(insn.op)
        && (FoldedWhole(d, regs, insn, insn') || FoldedHalf(d, regs, insn, insn', true)
             || FoldedHalf(d, regs, insn, insn', false)))
    || (!Sturdy(insn.op) && Reduced(insn.op, insn'.op))
  }

  /** That depends on the operands' constants alone. */
  predicate SameConstant(regs: seq<Reg>, regs': seq<Reg>, r: nat) {
    && |regs'| == |regs|
    && (r < |regs| ==>
          regs'[r].source == regs[r].source && regs'[r].live == regs[r].live && regs'[r].value == regs[r].value)
  }

  lemma SameFolding(d: Decl, regs: seq<Reg>, regs': seq<Reg>, insn: Insn, insn': Insn)
    requires SameConstant(regs, regs', insn.src1) && SameConstant(regs, regs', insn.src2)
    requires FoldedAs(d, regs, insn, insn')
    ensures FoldedAs(d, regs', insn, insn')
  {
    hide FoldValues, StoredConstant, Folding.ConvertToRegImm;
  }

  lemma NotFolded(d: Decl, regs: seq<Reg>, insn: Insn)
    ensures FoldedAs(d, regs, insn, insn)
  {}

  lemma ReducedAs(d: Decl, regs: seq<Reg>, insn: Insn, insn': Insn)
    requires !Sturdy(insn.op) && Reduced(insn.op, insn'.op)
    ensures FoldedAs(d, regs, insn, insn')
  {}

  /** What becomes of these does not depend on the constants. */
  lemma SameReduction(d: Decl, regs: seq<Reg>, regs': seq<Reg>, insn: Insn, insn': Insn)
    requires !Sturdy(insn.op) && FoldedAs(d, regs, insn, insn')
    ensures FoldedAs(d, regs', insn, insn')
  {
    hide FoldConstant, Conversion;
  }

  lemma WholeFolded(d: Decl, regs: seq<Reg>, insn: Insn, undefined: int)
    requires Foldable(insn.op) && IsConst(regs, insn.src1) && insn.src2 < |regs|
    requires insn.src2 != 0 ==> IsConst(regs, insn.src2)
    ensures FoldedAs(d, regs, insn, FoldConstants.Folded(insn, FoldedValue(d, regs, insn, undefined)))
  {
    hide FoldConstant, StoredConstant;
  }

  lemma HalfFolded(d: Decl, regs: seq<Reg>, insn: Insn, constantIsSrc2: bool)
    requires insn.op.ALU2? && insn.src1 < |regs| && insn.src2 < |regs|
    requires Conversion(d, regs, insn, constantIsSrc2).Some?
    requires IsConst(regs, if constantIsSrc2 then insn.src2 else insn.src1)
    ensures var src := if constantIsSrc2 then insn.src1 else insn.src2;
      FoldedAs(d, regs, insn, Converted(insn, Conversion(d, regs, insn, constantIsSrc2).value, src))
  {
    hide FoldConstant, Conversion;
  }

  lemma ReducedTwice(d: Decl, regs: seq<Reg>, insn: Insn, insn1: Insn, insn2: Insn)
    requires !Sturdy(insn.op) && Reduced(insn.op, insn1.op) && FoldedAs(d, regs, insn1, insn2)
    ensures FoldedAs(d, regs, insn, insn2)
  {
    hide FoldConstant, Conversion;
  }

  /** A SELECT has lost one of its sources and its condition. */
  method RollbackSelect(unit: RtlUnit, insn: Insn, gone: nat, k: int, ghost loose: set<int>)
    requires FoldOK(unit, loose, k) && 0 < gone < |unit.regs| && 0 < insn.other < |unit.regs|
    requires gone == insn.src1 || gone == insn.src2
    requires loose
               == set r | r in {insn.src1, insn.src2, insn.other} && (r == gone || (r != insn.src1 && r != insn.src2))
                              && 0 < r < |unit.regs| && unit.regs[r].death == k :: r as int
    modifies unit`regs
    ensures FoldOK(unit, {}, k) && OnlyDeaths(old(unit.regs), unit.regs)
    ensures forall q :: 0 <= q < |unit.regs| && q != gone && (q == insn.src1 || q == insn.src2) ==>
              unit.regs[q] == old(unit.regs)[q]
  {
    hide FoldState;
    ghost var left := loose;
    RollbackIfDying(unit, gone, k, left);
    left := left - {gone};
    if insn.other != insn.src1 && insn.other != insn.src2 {
      RollbackIfDying(unit, insn.other, k, left);
      left := left - {insn.other};
    }
    assert left == {};
  }

  // ---- Copies of constants ----

  /** Register r is a constant, last used by instruction k. */
  predicate DiesConstant(regs: seq<Reg>, r: int, k: int) {
    0 < r < |regs| && regs[r].source == CONSTANT && regs[r].death == k
  }

  /** A copy of src at instruction k is folded if and only if src is a constant that dies there. */
  predicate CopyFolded(regs: seq<Reg>, copy: Insn, insn: Insn, k: int) {
    if DiesConstant(regs, copy.src1, k) then insn.op == LOAD_IMM else insn == copy
  }

  /** SELECT has come down to the MOVE of the value it yields. */
  predicate SelectedCopy(regs: seq<Reg>, insn: Insn, copy: Insn) {
    || (insn.src1 == insn.src2 && copy == Insn(MOVE, insn.dest, insn.src1, 0, 0))
    || (insn.src1 != insn.src2 && 0 < insn.other < |regs| && regs[insn.other].source == CONSTANT
        && copy == Insn(MOVE, insn.dest, if regs[insn.other].value != 0 then insn.src1 else insn.src2, 0, 0))
  }

  /** What becomes of a MOVE, and of a SELECT that comes down to one. */
  ghost predicate CopiesRight(regs: seq<Reg>, insn: Insn, insn': Insn, k: int) {
    && (insn.op == MOVE ==> CopyFolded(regs, insn, insn', k))
    && (insn.op == SELECT ==>
          insn' == insn || exists copy :: SelectedCopy(regs, insn, copy) && CopyFolded(regs, copy, insn', k))
  }

  /** The first half of fold_one_reg_constant: a SELECT whose outcome is known becomes a MOVE. */
  method ReduceSelect(unit: RtlUnit, k: int) returns (reduced: bool)
    requires AtResult(unit, k) && unit.insns[k].op.SELECT?
    modifies unit`insns, unit`regs
    ensures AtResult(unit, k) && OnlyAt(old(unit.Snap()), old(unit.regs), unit.Snap(), unit.regs, k)
    ensures Refines(old(unit.Snap()), unit.Snap())
    ensures Narrows(unit.decl, old(unit.insns)[k], unit.insns[k])
    ensures reduced ==> unit.insns[k].op.MOVE? && SelectedCopy(old(unit.regs), old(unit.insns)[k], unit.insns[k])
    ensures reduced ==>
              && unit.insns[k].src1 < |unit.regs|
              && unit.regs[unit.insns[k].src1] == old(unit.regs)[unit.insns[k].src1]
    ensures !reduced ==> unit.insns[k].op.SELECT? && Settled(unit.decl, unit.insns, unit.regs, k)
    ensures !reduced ==> unit.insns == old(unit.insns) && unit.regs == old(unit.regs)
  {
    hide FoldState, Refines, Reads, Narrows, Settled, TypedInsn, CleanInsn;
    ghost var c, regs := unit.Snap(), unit.regs;
    OperandFacts(c, regs, unit.edges, unit.owner, unit.order, unit.lastBlock, k);
    var insn := unit.insns[k];
    SelectReads(c.decl, insn);
    if insn.src1 == insn.src2 {
      unit.insns := unit.insns[k := insn.(op := MOVE, src2 := 0, other := 0)];
      ghost var loose := SelectReduced(c, regs, unit.edges, unit.owner, unit.order, unit.lastBlock, k, insn.src1);
      if insn.other != insn.src1 { RollbackIfDying(unit, insn.other, k, loose); loose := loose - {insn.other}; }
      assert loose == {};
    } else if unit.regs[insn.other].source.CONSTANT? {
      var condition := unit.regs[insn.other].value != 0;
      var src := if condition then insn.src1 else insn.src2;
      unit.insns := unit.insns[k := insn.(op := MOVE, src1 := src, src2 := 0, other := 0)];
      ghost var loose := SelectReduced(c, regs, unit.edges, unit.owner, unit.order, unit.lastBlock, k, src);
      RollbackSelect(unit, insn, if condition then insn.src2 else insn.src1, k, loose);
    } else {
      RefinesSelf(c);
      NotReduced(unit.decl, unit.insns, unit.regs, k);
      return false;
    }
    return true;
  }

  lemma NotReduced(d: Decl, insns: seq<Insn>, regs: seq<Reg>, k: int)
    requires 0 <= k < |insns| && insns[k].op.SELECT? && insns[k].src1 < |regs| && insns[k].src2 < |regs|
    requires insns[k].src1 != insns[k].src2 && !IsConst(regs, insns[k].other)
    ensures Narrows(d, insns[k], insns[k]) && Settled(d, insns, regs, k)
  {
    hide Conversion;
  }

  lemma SelectReads(d: Decl, insn: Insn)
    requires insn.op.SELECT? && TypedInsn(d, insn)
    ensures insn.src1 != 0 && insn.src2 != 0 && insn.other > 0
    ensures Reads(d, insn, insn.src1) && Reads(d, insn, insn.src2) && Reads(d, insn, insn.other)
    ensures forall r :: Reads(d, insn, r) <==> r == insn.src1 || r == insn.src2 || r == insn.other
  {}

  lemma MoveReads(d: Decl, insn: Insn, src: nat)
    requires insn.op.SELECT? && TypedInsn(d, insn) && insn.dest != 0 && (src == insn.src1 || src == insn.src2)
    ensures var insn' := insn.(op := MOVE, src1 := src, src2 := 0, other := 0);
      CleanInsn(d, insn') && TypedInsn(d, insn') && forall r :: Reads(d, insn', r) <==> r == src
  {}

  lemma SelectReduced(
    c: Code, regs: seq<Reg>, edges: seq<Edges>, owner: seq<int>, order: seq<int>, lastBlock: int, k: int, src: nat)
    returns (loose: set<int>)
    requires FoldState(c, regs, edges, owner, order, lastBlock, {}, k) && 0 <= k < |c.insns|
    requires var insn := c.insns[k];
      && insn.op.SELECT? && TypedInsn(c.decl, insn) && 0 < insn.dest < |regs| && regs[insn.dest].source.RESULT_NOFOLD?
      && 0 < insn.other < |regs|
      && (|| (insn.src1 == insn.src2 && src == insn.src1)
          || (regs[insn.other].source.CONSTANT? && src == if regs[insn.other].value != 0 then insn.src1 else insn.src2))
    ensures var insn := c.insns[k];
      var c' := c.(insns := c.insns[k := insn.(op := MOVE, src1 := src, src2 := 0, other := 0)]);
      && FoldState(c', regs, edges, owner, order, lastBlock, loose, k) && Refines(c, c')
      && Narrows(c.decl, insn, c'.insns[k])
      && loose == set r | r in {insn.src1, insn.src2, insn.other} && r != src && 0 < r < |regs| && regs[r].death == k ::
           r as int
  {
    hide WellFormed, Refines;
    var insn := c.insns[k];
    var insn' := insn.(op := MOVE, src1 := src, src2 := 0, other := 0);
    OperandFacts(c, regs, edges, owner, order, lastBlock, k);
    SelectReads(c.decl, insn);
    MoveReads(c.decl, insn, src);
    SelectToMove(c.decl, regs, insn, src);
    ReplacePure(c, regs, k, insn');
    RewriteInsn(c, regs, regs, edges, owner, order, lastBlock, k, insn', 0);
    loose := Dropped(c.decl, regs, k, insn, insn');
  }

  /** Nothing is left to fold at instruction k. */
  predicate Settled(d: Decl, insns: seq<Insn>, regs: seq<Reg>, k: int)
    requires 0 <= k < |insns|
  {
    insns[k].src1 < |regs| && insns[k].src2 < |regs| &&
    var insn := insns[k];
    var const1, const2 := IsConst(regs, insn.src1), IsConst(regs, insn.src2);
    match insn.op
    case SELECT => insn.src1 != insn.src2 && !IsConst(regs, insn.other)
    case ALU1(_) => !const1
    case ALUI(_) => !const1
    case BFEXT => !const1
    case BFINS => !(const1 && const2)
    case ALU2(_) =>
      && !(const1 && const2)
      && (const1 ==> Conversion(d, regs, insn, false).None?) && (const2 ==> Conversion(d, regs, insn, true).None?)
    case _ => true
  }

  /** should_fold_constant: a MOVE is folded only if its source dies with it. */
  predicate ShouldFold(regs: seq<Reg>, insn: Insn, k: int)
    requires insn.src1 < |regs|
  {
    if insn.op.MOVE? then regs[insn.src1].death == k else Foldable(insn.op)
  }

  /** The value stored for a folded register; "undefined" stands for what an undefined C shift yields. */
  function FoldedValue(d: Decl, regs: seq<Reg>, insn: Insn, undefined: int): nat
    requires insn.src1 < |regs| && insn.src2 < |regs|
  {
    StoredConstant(TypeOf(d, insn.dest), match FoldConstant(d, regs, insn) case Some(v) => v case None => undefined)
  }

  /** A folded value fits its register, so that recording it as the register's constant is truthful. */
  lemma FoldedFits(d: Decl, regs: seq<Reg>, insn: Insn, undefined: int)
    requires Foldable(insn.op) && TypedInsn(d, insn) && ConstOperand(d, regs, insn.src1) && insn.src2 < |regs|
    ensures Truncated(TypeOf(d, insn.dest), FoldedValue(d, regs, insn, undefined))
              == Num(FoldedValue(d, regs, insn, undefined))
  {
    hide Folding.Fold1, Folding.Fold2, Folding.FoldImm, Folding.FoldExtract, Folding.FoldInsert, Truncated,
      StoredConstant, Folding.Fits;
    var t := TypeOf(d, insn.dest);
    if insn.op.MOVE? {
      FitsStored(t, regs[insn.src1].value);
    } else {
      StoredTruncates(t, match FoldConstant(d, regs, insn) case Some(v) => v case None => undefined);
    }
  }

  lemma FitsStored(t: Type, x: int)
    requires Folding.Fits(StoredWidth(t), x)
    ensures Truncated(t, StoredConstant(t, x)) == Num(StoredConstant(t, x))
  {
    Arith.Pow2Values();
    Folding.USmall(StoredWidth(t), x);
    Folding.USmall(64, x);
    if t.INT32? { Folding.USmall(32, x); }
  }

  function MarkedConstant(regs: seq<Reg>, r: nat, v: int): seq<Reg>
    requires r < |regs|
  {
    regs[r := regs[r].(source := CONSTANT, value := v)]
  }

  lemma FoldToConstant(
    c: Code, regs: seq<Reg>, edges: seq<Edges>, owner: seq<int>, order: seq<int>, lastBlock: int, k: int,
    undefined: int)
    returns (loose: set<int>)
    requires FoldState(c, regs, edges, owner, order, lastBlock, {}, k) && 0 <= k < |c.insns|
    requires var insn := c.insns[k];
      && Foldable(insn.op) && TypedInsn(c.decl, insn) && 0 < insn.dest < |regs|
      && IsConst(regs, insn.src1) && insn.src2 < |regs| && (insn.src2 != 0 ==> IsConst(regs, insn.src2))
    ensures var insn := c.insns[k];
      var v := FoldedValue(c.decl, regs, insn, undefined);
      var c' := c.(insns := c.insns[k := FoldConstants.Folded(insn, v)]);
      && FoldState(c', MarkedConstant(regs, insn.dest, v), edges, owner, order, lastBlock, loose, k)
      && (ExactFold(c.decl, regs, insn) ==> Refines(c, c')) && Narrows(c.decl, insn, c'.insns[k])
      && KeepsReads(c.decl, regs, insn, c'.insns[k])
      && loose == set r | r in {insn.src1, insn.src2} && 0 < r < |regs| && regs[r].death == k :: r as int
  {
    hide WellFormed, Refines, ExactFold, FoldConstant;
    var insn := c.insns[k];
    var v := FoldedValue(c.decl, regs, insn, undefined);
    var insn' := FoldConstants.Folded(insn, v);
    OperandFacts(c, regs, edges, owner, order, lastBlock, k);
    FoldedFits(c.decl, regs, insn, undefined);
    FoldedShape(c.decl, insn, v);
    if ExactFold(c.decl, regs, insn) {
      FoldToImm(c.decl, regs, insn, match FoldConstant(c.decl, regs, insn) case Some(x) => x case None => undefined);
      ReplacePure(c, regs, k, insn');
    }
    RewriteInsn(c, regs, MarkedConstant(regs, insn.dest, v), edges, owner, order, lastBlock, k, insn', 0);
    loose := Dropped(c.decl, regs, k, insn, insn');
  }

  lemma FoldedShape(d: Decl, insn: Insn, v: nat)
    requires Foldable(insn.op) && TypedInsn(d, insn) && insn.dest != 0
    requires insn.op.MOVE? ==> IsScalar(TypeOf(d, insn.src1))
    ensures var insn' := FoldConstants.Folded(insn, v);
      CleanInsn(d, insn') && TypedInsn(d, insn') && forall r :: !Reads(d, insn', r)
    ensures forall r :: Reads(d, insn, r) <==> r > 0 && (r == insn.src1 || r == insn.src2)
  {}

  lemma ConvertToImmediate(
    c: Code, regs: seq<Reg>, edges: seq<Edges>, owner: seq<int>, order: seq<int>, lastBlock: int, k: int,
    constantIsSrc2: bool)
    returns (loose: set<int>)
    requires FoldState(c, regs, edges, owner, order, lastBlock, {}, k) && 0 <= k < |c.insns|
    requires var insn := c.insns[k];
      && insn.op.ALU2? && TypedInsn(c.decl, insn) && 0 < insn.dest < |regs| && regs[insn.dest].source.RESULT_NOFOLD?
      && insn.src1 < |regs| && insn.src2 < |regs|
      && IsConst(regs, if constantIsSrc2 then insn.src2 else insn.src1)
      && !IsConst(regs, if constantIsSrc2 then insn.src1 else insn.src2)
      && Conversion(c.decl, regs, insn, constantIsSrc2).Some?
    ensures var insn := c.insns[k];
      var src := if constantIsSrc2 then insn.src1 else insn.src2;
      var constant := if constantIsSrc2 then insn.src2 else insn.src1;
      var c' := c.(insns := c.insns[k := Converted(insn, Conversion(c.decl, regs, insn, constantIsSrc2).value, src)]);
      && FoldState(c', regs, edges, owner, order, lastBlock, loose, k) && Refines(c, c') && src != 0
      && Narrows(c.decl, insn, c'.insns[k]) && KeepsReads(c.decl, regs, insn, c'.insns[k])
      && loose == if regs[constant].death == k then {constant as int} else {}
  {
    hide WellFormed, Refines, Conversion;
    var insn := c.insns[k];
    var src := if constantIsSrc2 then insn.src1 else insn.src2;
    var insn' := Converted(insn, Conversion(c.decl, regs, insn, constantIsSrc2).value, src);
    OperandFacts(c, regs, edges, owner, order, lastBlock, k);
    ConvertToImm(c.decl, regs, insn, constantIsSrc2);
    ConvertedShape(c.decl, regs, insn, constantIsSrc2);
    ReplacePure(c, regs, k, insn');
    RewriteInsn(c, regs, regs, edges, owner, order, lastBlock, k, insn', 0);
    loose := Dropped(c.decl, regs, k, insn, insn');
  }

  lemma ConversionShape(d: Decl, regs: seq<Reg>, insn: Insn, constantIsSrc2: bool)
    requires insn.op.ALU2? && insn.src1 < |regs| && insn.src2 < |regs|
    requires Conversion(d, regs, insn, constantIsSrc2).Some?
    ensures var r := Conversion(d, regs, insn, constantIsSrc2).value;
      && Folding.IsImmediate(r.imm) && (Folding.IsShift(insn.op.f2) ==> constantIsSrc2)
      && (Folding.IsCompare(insn.op.f2) <==> Folding.IsCompare(Meaning.RegisterForm(r.fi)))
  {
    Arith.Pow2Values();
    Folding.FormFacts(insn.op.f2, constantIsSrc2);
  }

  lemma ConvertedShape(d: Decl, regs: seq<Reg>, insn: Insn, constantIsSrc2: bool)
    requires insn.op.ALU2? && TypedInsn(d, insn) && insn.dest != 0 && insn.src1 < |regs| && insn.src2 < |regs|
    requires Conversion(d, regs, insn, constantIsSrc2).Some?
    ensures var src := if constantIsSrc2 then insn.src1 else insn.src2;
      var insn' := Converted(insn, Conversion(d, regs, insn, constantIsSrc2).value, src);
      && CleanInsn(d, insn') && TypedInsn(d, insn') && src != 0 && forall r :: Reads(d, insn', r) <==> r == src
    ensures forall r :: Reads(d, insn, r) <==> r == insn.src1 || r == insn.src2
  {
    ConversionShape(d, regs, insn, constantIsSrc2);
    hide Conversion, Folding.IsImmediate, Meaning.RegisterForm, Folding.IsCompare;
    ImmediateShape(
      d, insn, Conversion(d, regs, insn, constantIsSrc2).value, if constantIsSrc2 then insn.src1 else insn.src2);
    ImmediateTyped(d, insn, Conversion(d, regs, insn, constantIsSrc2).value, constantIsSrc2);
  }

  lemma ImmediateShape(d: Decl, insn: Insn, r: Folding.RegImm, src: nat)
    requires insn.op.ALU2? && TypedInsn(d, insn) && insn.dest != 0 && (src == insn.src1 || src == insn.src2)
    ensures CleanInsn(d, Converted(insn, r, src)) && src != 0
    ensures forall q :: Reads(d, Converted(insn, r, src), q) <==> q == src
    ensures forall q :: Reads(d, insn, q) <==> q == insn.src1 || q == insn.src2
  {
    hide Folding.IsImmediate, Meaning.RegisterForm, Folding.IsCompare, Folding.IsShift;
  }

  lemma ImmediateTyped(d: Decl, insn: Insn, r: Folding.RegImm, constantIsSrc2: bool)
    requires insn.op.ALU2? && TypedInsn(d, insn) && Folding.IsImmediate(r.imm)
    requires Folding.IsShift(insn.op.f2) ==> constantIsSrc2
    requires Folding.IsCompare(insn.op.f2) <==> Folding.IsCompare(Meaning.RegisterForm(r.fi))
    ensures TypedInsn(d, Converted(insn, r, if constantIsSrc2 then insn.src1 else insn.src2))
  {
    hide Folding.IsImmediate, Meaning.RegisterForm, Folding.IsCompare, Folding.IsShift;
  }

  /** The end of fold_one_reg_constant: the constant operands that died at k. */
  method RollbackFolded(unit: RtlUnit, src1: int, const1: bool, src2: int, const2: bool, k: int, ghost loose: set<int>)
    requires FoldOK(unit, loose, k) && 0 < src1 < |unit.regs| && (const2 ==> 0 < src2 < |unit.regs|)
    requires loose <= (if const1 then {src1} else {}) + (if const2 then {src2} else {})
    requires const1 && unit.regs[src1].death == k ==> src1 in loose
    requires const2 && unit.regs[src2].death == k ==> src2 in loose
    modifies unit`regs
    ensures FoldOK(unit, {}, k) && OnlyDeaths(old(unit.regs), unit.regs)
  {
    hide FoldState;
    ghost var left := loose;
    if const1 { RollbackIfDying(unit, src1, k, left); left := left - {src1}; }
    if const2 { RollbackIfDying(unit, src2, k, left); left := left - {src2}; }
    assert left == {};
  }

  /** The opcodes constant folding ends with. */
  predicate IsFoldedOp(op: Opcode) { op.LOAD_IMM? || op.MOVE? || op.ALUI? }

  /** All operands are constant: the instruction becomes the value. */
  method FoldWhole(unit: RtlUnit, k: int, undefined: int)
    requires AtResult(unit, k) && Foldable(unit.insns[k].op) && IsConst(unit.regs, unit.insns[k].src1)
    requires unit.insns[k].src2 < |unit.regs| && (unit.insns[k].src2 != 0 ==> IsConst(unit.regs, unit.insns[k].src2))
    modifies unit`insns, unit`regs
    ensures FoldOK(unit, {}, k) && OnlyAt(old(unit.Snap()), old(unit.regs), unit.Snap(), unit.regs, k)
    ensures FoldedRight(unit.decl, old(unit.regs), old(unit.insns)[k], unit.insns[k]) ==>
              Refines(old(unit.Snap()), unit.Snap())
    ensures Narrows(unit.decl, old(unit.insns)[k], unit.insns[k])
    ensures KeepsReads(unit.decl, old(unit.regs), old(unit.insns)[k], unit.insns[k])
    ensures FoldedAs(unit.decl, old(unit.regs), old(unit.insns)[k], unit.insns[k])
    ensures unit.insns[k].op.LOAD_IMM? && unit.insns[k].src1 == 0 && unit.insns[k].src2 < |unit.regs|
    ensures unit.regs[unit.insns[k].dest].source.CONSTANT?
  {
    hide FoldState, Refines, ExactFold, FoldedValue, KeepsReads, FoldedAs, CleanInsn, Narrows, TypedInsn, Reads;
    ghost var c, regs := unit.Snap(), unit.regs;
    OperandFacts(c, regs, unit.edges, unit.owner, unit.order, unit.lastBlock, k);
    var insn := unit.insns[k];
    OperandsOf(c.decl, insn);
    var v := FoldedValue(unit.decl, unit.regs, insn, undefined);
    WholeFolded(c.decl, regs, insn, undefined);
    ghost var loose := FoldToConstant(c, regs, unit.edges, unit.owner, unit.order, unit.lastBlock, k, undefined);
    unit.regs := unit.regs[insn.dest := unit.regs[insn.dest].(source := CONSTANT, value := v)];
    unit.insns := unit.insns[k := FoldConstants.Folded(insn, v)];
    RollbackFolded(unit, insn.src1, true, insn.src2, insn.src2 != 0, k, loose);
  }

  /** One of two operands is constant: the instruction takes its register-immediate form. */
  method FoldHalf(unit: RtlUnit, k: int, constantIsSrc2: bool)
    requires AtResult(unit, k) && unit.insns[k].op.ALU2?
    requires unit.insns[k].src1 < |unit.regs| && unit.insns[k].src2 < |unit.regs|
    requires IsConst(unit.regs, if constantIsSrc2 then unit.insns[k].src2 else unit.insns[k].src1)
    requires !IsConst(unit.regs, if constantIsSrc2 then unit.insns[k].src1 else unit.insns[k].src2)
    requires Conversion(unit.decl, unit.regs, unit.insns[k], constantIsSrc2).Some?
    modifies unit`insns, unit`regs
    ensures FoldOK(unit, {}, k) && OnlyAt(old(unit.Snap()), old(unit.regs), unit.Snap(), unit.regs, k)
    ensures Refines(old(unit.Snap()), unit.Snap())
    ensures Narrows(unit.decl, old(unit.insns)[k], unit.insns[k])
    ensures KeepsReads(unit.decl, old(unit.regs), old(unit.insns)[k], unit.insns[k])
    ensures FoldedAs(unit.decl, old(unit.regs), old(unit.insns)[k], unit.insns[k])
    ensures unit.insns[k].op.ALUI? && unit.insns[k].src2 < |unit.regs|
    ensures unit.insns[k].src1 == if constantIsSrc2 then old(unit.insns)[k].src1 else old(unit.insns)[k].src2
    ensures unit.insns[k].src1 < |unit.regs| && !IsConst(unit.regs, unit.insns[k].src1)
    ensures unit.regs[unit.insns[k].dest].source.RESULT_NOFOLD?
  {
    hide FoldState, Refines, Conversion, KeepsReads, FoldedAs, CleanInsn, Narrows, TypedInsn, Reads;
    ghost var c, regs := unit.Snap(), unit.regs;
    OperandFacts(c, regs, unit.edges, unit.owner, unit.order, unit.lastBlock, k);
    var insn := unit.insns[k];
    OperandsOf(c.decl, insn);
    var constant := if constantIsSrc2 then insn.src2 else insn.src1;
    var r := Conversion(unit.decl, unit.regs, insn, constantIsSrc2).value;
    HalfFolded(c.decl, regs, insn, constantIsSrc2);
    ghost var loose :=
      ConvertToImmediate(c, regs, unit.edges, unit.owner, unit.order, unit.lastBlock, k, constantIsSrc2);
    unit.insns := unit.insns[k := Converted(insn, r, if constantIsSrc2 then insn.src1 else insn.src2)];
    RollbackFolded(unit, insn.src1, !constantIsSrc2, insn.src2, constantIsSrc2, k, loose);
  }

  /** The second half of fold_one_reg_constant: all operands constant, or exactly one. */
  method FoldOrConvert(unit: RtlUnit, k: int, undefined: int)
    requires AtResult(unit, k) && !unit.insns[k].op.SELECT?
    modifies unit`insns, unit`regs
    ensures FoldOK(unit, {}, k) && OnlyAt(old(unit.Snap()), old(unit.regs), unit.Snap(), unit.regs, k)
    ensures FoldedRight(unit.decl, old(unit.regs), old(unit.insns)[k], unit.insns[k]) ==>
              Refines(old(unit.Snap()), unit.Snap())
    ensures Settled(unit.decl, unit.insns, unit.regs, k)
    ensures Narrows(unit.decl, old(unit.insns)[k], unit.insns[k])
    ensures KeepsReads(unit.decl, old(unit.regs), old(unit.insns)[k], unit.insns[k])
    ensures FoldedAs(unit.decl, old(unit.regs), old(unit.insns)[k], unit.insns[k])
    ensures var source := unit.regs[unit.insns[k].dest].source; source.CONSTANT? || source.RESULT_NOFOLD?
    ensures old(unit.insns)[k].op == MOVE ==> CopyFolded(old(unit.regs), old(unit.insns)[k], unit.insns[k], k)
    ensures unit.insns[k] == old(unit.insns)[k] ==> unit.insns == old(unit.insns) && unit.regs == old(unit.regs)
    ensures unit.insns[k].op == MOVE ==> unit.insns[k] == old(unit.insns)[k]
    ensures unit.insns[k] == old(unit.insns)[k] || IsFoldedOp(unit.insns[k].op)
  {
    hide FoldState, Refines, ExactFold, Conversion, KeepsReads, FoldedAs, CleanInsn, Narrows, TypedInsn;
    ghost var c, regs := unit.Snap(), unit.regs;
    OperandFacts(c, regs, unit.edges, unit.owner, unit.order, unit.lastBlock, k);
    RefinesSelf(c);
    var insn := unit.insns[k];
    KeepsOwnReads(c.decl, regs, insn);
    OwnNarrows(c.decl, insn);
    NotFolded(c.decl, regs, insn);
    OperandsOf(c.decl, insn);
    var src1, src2 := insn.src1, insn.src2;
    assert Reads(c.decl, insn, src1) && (src2 != 0 ==> Reads(c.decl, insn, src2));
    hide Reads;
    var const1, const2 := unit.regs[src1].source.CONSTANT?, src2 != 0 && unit.regs[src2].source.CONSTANT?;
    if const1 && (src2 == 0 || const2) {
      if ShouldFold(unit.regs, insn, k) {
        FoldWhole(unit, k, undefined);
      }
    } else if const1 || const2 {
      if insn.op.ALU2? {
        var r := Conversion(unit.decl, unit.regs, insn, !const1);
        if r.Some? {
          FoldHalf(unit, k, !const1);
        }
      }
    }
  }

  lemma OperandsOf(d: Decl, insn: Insn)
    requires ResultOp(insn.op) && TypedInsn(d, insn)
    ensures insn.src1 != 0 && (insn.op.MOVE? ==> insn.src2 == 0)
    ensures Reads(d, insn, insn.src1) && (insn.src2 != 0 ==> Reads(d, insn, insn.src2))
  {}

  lemma OwnNarrows(d: Decl, insn: Insn)
    requires IsPure(insn.op)
    ensures Narrows(d, insn, insn)
  {}

  lemma KeepsOwnReads(d: Decl, regs: seq<Reg>, insn: Insn)
    ensures KeepsReads(d, regs, insn, insn)
  {}

  /** fold_one_reg_constant. */
  method FoldOneConstant(unit: RtlUnit, k: int, undefined: int)
    requires AtResult(unit, k)
    modifies unit`insns, unit`regs
    ensures FoldOK(unit, {}, k) && OnlyAt(old(unit.Snap()), old(unit.regs), unit.Snap(), unit.regs, k)
    ensures FoldedRight(unit.decl, old(unit.regs), old(unit.insns)[k], unit.insns[k]) ==>
              Refines(old(unit.Snap()), unit.Snap())
    ensures Settled(unit.decl, unit.insns, unit.regs, k)
    ensures Narrows(unit.decl, old(unit.insns)[k], unit.insns[k])
    ensures KeepsReads(unit.decl, old(unit.regs), old(unit.insns)[k], unit.insns[k])
    ensures FoldedAs(unit.decl, old(unit.regs), old(unit.insns)[k], unit.insns[k])
    ensures var source := unit.regs[unit.insns[k].dest].source; source.CONSTANT? || source.RESULT_NOFOLD?
    ensures CopiesRight(old(unit.regs), old(unit.insns)[k], unit.insns[k], k)
    ensures unit.insns[k].op == MOVE ==> !DiesConstant(unit.regs, unit.insns[k].src1, k)
    ensures unit.insns[k] == old(unit.insns)[k] || IsFoldedOp(unit.insns[k].op)
    ensures unit.insns[k] == old(unit.insns)[k] ==> unit.insns == old(unit.insns) && unit.regs == old(unit.regs)
  {
    hide FoldState, Refines, FoldedAs;
    ghost var c, regs := unit.Snap(), unit.regs;
    if unit.insns[k].op.SELECT? {
      var reduced := ReduceSelect(unit, k);
      ReducedAs(c.decl, regs, c.insns[k], unit.insns[k]);
      if !reduced { return; }
      ghost var c1, regs1 := unit.Snap(), unit.regs;
      FoldOrConvert(unit, k, undefined);
      ReducedTwice(c.decl, regs1, c.insns[k], c1.insns[k], unit.insns[k]);
      SameReduction(c.decl, regs1, regs, c.insns[k], unit.insns[k]);
      RefinesTransitive(c, c1, unit.Snap());
    } else {
      FoldOrConvert(unit, k, undefined);
    }
  }

  // ---- Forwarding ----

  function Extended(regs: seq<Reg>, r: nat, k: int): seq<Reg>
    requires r < |regs|
  {
    if regs[r].death < k then regs[r := regs[r].(death := k)] else regs
  }

  lemma FlowAndRanges(
    c: Code, regs: seq<Reg>, edges: seq<Edges>, owner: seq<int>, order: seq<int>, lastBlock: int, k: int)
    requires FoldState(c, regs, edges, owner, order, lastBlock, {}, k)
    ensures FlowOK(c, order, lastBlock) && Covers(c.decl, c.insns, regs)
  {
    hide FlowOK, Covers;
  }

  lemma NothingLoose(
    c: Code, regs: seq<Reg>, edges: seq<Edges>, owner: seq<int>, order: seq<int>, lastBlock: int, k: int, m: int)
    requires FoldState(c, regs, edges, owner, order, lastBlock, {}, k)
    ensures FoldState(c, regs, edges, owner, order, lastBlock, {}, m)
  {
    hide WellFormed, TypedOK;
  }

  lemma ForwardUse(
    c: Code, regs: seq<Reg>, edges: seq<Edges>, owner: seq<int>, order: seq<int>, lastBlock: int, k: int)
    returns (loose: set<int>)
    requires FoldState(c, regs, edges, owner, order, lastBlock, {}, k) && 0 <= k < |c.insns|
    requires var insn := c.insns[k];
      && ResultOp(insn.op) && 0 < insn.dest < |regs| && regs[insn.dest].source.RESULT_NOFOLD?
      && 0 < insn.src1 < |regs| && IsVector(TypeOf(c.decl, insn.src1)) && 0 <= regs[insn.src1].birth < |c.insns|
      && Forward(insn, c.insns[regs[insn.src1].birth]).Some?
    ensures var insn := c.insns[k];
      var f := Forward(insn, c.insns[regs[insn.src1].birth]).value;
      var c' := c.(insns := c.insns[k := f.insn]);
      && f.reg < |regs| && FoldState(c', Extended(regs, f.reg, k), edges, owner, order, lastBlock, loose, k)
      && (Strict(c) ==> Refines(c, c') && Strict(c'))
      && f.insn.dest == insn.dest && f.insn.src1 != 0 && ResultOp(f.insn.op) && f.reg != insn.src1
      && ReadsKnown(c, k, f.insn)
      && loose == if regs[insn.src1].death == k then {insn.src1 as int} else {}
  {
    hide FoldState, FlowOK, Covers, Refines, Forward, Strict, TypedInsn;
    var insn := c.insns[k];
    var v := insn.src1;
    var b := regs[v].birth;
    var def := c.insns[b];
    var f := Forward(insn, def).value;
    OperandFacts(c, regs, edges, owner, order, lastBlock, k);
    assert Reads(c.decl, insn, v);
    assert def.dest == v;
    NothingLoose(c, regs, edges, owner, order, lastBlock, k, b);
    OperandFacts(c, regs, edges, owner, order, lastBlock, b);
    VectorDef(c.decl, insn, def);
    ForwardShape(c.decl, insn, def);
    if Strict(c) {
      forall env, s ensures SameWhenFresh(env, c, b, insn, f.insn, s) { ForwardSame(env, c, b, insn, s); }
      assert FlowOK(c, order, lastBlock)
          && Covers(c.decl, c.insns, regs) by { FlowAndRanges(c, regs, edges, owner, order, lastBlock, k); }
      ReplaceFresh(c, regs, order, lastBlock, b, k, f.insn);
      StrictKept(c, regs, k, f.insn, b);
    }
    RewriteInsn(c, regs, Extended(regs, f.reg, k), edges, owner, order, lastBlock, k, f.insn, f.reg);
    loose := Dropped(c.decl, regs, k, insn, f.insn);
  }

  lemma VectorDef(d: Decl, insn: Insn, def: Insn)
    requires Forward(insn, def).Some? && TypedInsn(d, insn) && TypedInsn(d, def) && insn.src1 == def.dest
    ensures ResultOp(def.op) && def.src1 != 0 && (insn.op.VEXTRACT? || insn.op.VINSERT?)
    ensures forall r :: Reads(d, Forward(insn, def).value.insn, r) ==>
              r == Forward(insn, def).value.reg || (r == insn.src2 && r != insn.src1)
    ensures forall r :: Reads(d, insn, r) ==>
              r == insn.src1 || (r == insn.src2 && Reads(d, Forward(insn, def).value.insn, r))
  {}

  /** No element extraction is left that could take its scalar directly. */
  predicate Forwarded(insns: seq<Insn>, regs: seq<Reg>, k: int)
    requires 0 <= k < |insns|
  {
    var v := insns[k].src1;
    insns[k].op.VEXTRACT? && v < |regs| && regs[v].source.RESULT_NOFOLD? && 0 <= regs[v].birth < |insns| ==>
      Forward(insns[k], insns[regs[v].birth]).None?
  }

  /** No instruction between the definition of v and k names v. */
  ghost predicate UnusedBetween(d: Decl, insns: seq<Insn>, v: int, b: int, k: int)
    requires k <= |insns|
  {
    forall m :: 0 <= b < m < k ==> !Names(d, insns[m], v)
  }

  /** Instruction k takes an element out of a vector whose definition has that element at hand, or puts one into a
      vector that is built by VBUILD2, VBROADCAST or VINSERT and used nowhere else. */
  ghost predicate Forwardable(d: Decl, insns: seq<Insn>, regs: seq<Reg>, k: int)
    requires 0 <= k < |insns|
  {
    var v := insns[k].src1;
    && 0 < v < |regs| && regs[v].source == RESULT_NOFOLD && 0 <= regs[v].birth < |insns|
    && var def := insns[regs[v].birth];
       || (insns[k].op == VEXTRACT
           && (def.op == VBUILD2 || def.op == VBROADCAST || (def.op == VINSERT && def.other == insns[k].other)))
       || (insns[k].op == VINSERT && (def.op == VBUILD2 || def.op == VBROADCAST || def.op == VINSERT)
           && regs[v].death == k && UnusedBetween(d, insns, v, regs[v].birth, k))
  }

  /** fold_one_reg_vector. */
  method FoldOneVector(unit: RtlUnit, k: int)
    requires AtResult(unit, k)
    modifies unit`insns, unit`regs
    ensures AtResult(unit, k) && OnlyAt(old(unit.Snap()), old(unit.regs), unit.Snap(), unit.regs, k)
    ensures Strict(old(unit.Snap())) ==> Refines(old(unit.Snap()), unit.Snap()) && Strict(unit.Snap())
    ensures unit.insns[k] == old(unit.insns)[k] || (AlwaysExact(unit.insns[k].op) && !Sturdy(old(unit.insns)[k].op))
    ensures Reduced(old(unit.insns)[k].op, unit.insns[k].op)
    ensures !unit.insns[k].op.LOAD_IMM? && !unit.insns[k].op.LOAD_ARG?
    ensures Forwarded(unit.insns, unit.regs, k)
    ensures ReadsKnown(old(unit.Snap()), k, unit.insns[k])
    ensures unit.insns[k] != old(unit.insns)[k] <==> Forwardable(unit.decl, old(unit.insns), old(unit.regs), k)
    ensures !Forwardable(unit.decl, unit.insns, unit.regs, k)
    ensures unit.insns[k] == old(unit.insns)[k] ==> unit.insns == old(unit.insns) && unit.regs == old(unit.regs)
  {
    hide FoldState, Refines, Strict, Forward, ReadsKnown, CleanInsn, TypedInsn, Forwardable;
    ghost var c, regs := unit.Snap(), unit.regs;
    OperandFacts(c, regs, unit.edges, unit.owner, unit.order, unit.lastBlock, k);
    RefinesSelf(c);
    OwnReadsKnown(c, k);
    var insn := unit.insns[k];
    var v := insn.src1;
    assert Reads(c.decl, insn, v);
    NothingToForward(c.decl, c.insns, regs, k);
    if !IsVector(TypeOf(unit.decl, v)) { NotVector(unit.decl, insn); return; }
    if !unit.regs[v].source.RESULT_NOFOLD? { return; }
    if insn.op.VINSERT? {
      if unit.regs[v].death != k { return; }
      var use := PrevRegUse(unit, v, k);
      UsedBetween(c.decl, c.insns, regs, k, use);
      if use != unit.regs[v].birth { return; }
    }
    var f := Forward(insn, unit.insns[unit.regs[v].birth]);
    if f.None? { return; }
    ForwardExact(c.decl, insn, c.insns[regs[v].birth]);
    MayForward(c.decl, c.insns, regs, k);
    TakeForward(unit, k, f.value);
    ForwardDone(c, regs, unit.edges, unit.owner, unit.order, unit.lastBlock, k, f.value, unit.regs);
  }

  /** What stops the forwarding at k. */
  lemma NothingToForward(d: Decl, insns: seq<Insn>, regs: seq<Reg>, k: int)
    requires 0 <= k < |insns| && TypedInsn(d, insns[k]) && insns[k].src1 < |regs|
    ensures !IsVector(TypeOf(d, insns[k].src1)) ==> !Forwardable(d, insns, regs, k)
    ensures !regs[insns[k].src1].source.RESULT_NOFOLD? ==> !Forwardable(d, insns, regs, k)
    ensures insns[k].op.VINSERT? && regs[insns[k].src1].death != k ==> !Forwardable(d, insns, regs, k)
    ensures 0 <= regs[insns[k].src1].birth < |insns| && Forward(insns[k], insns[regs[insns[k].src1].birth]).None? ==>
              !Forwardable(d, insns, regs, k)
  {}

  lemma UsedBetween(d: Decl, insns: seq<Insn>, regs: seq<Reg>, k: int, use: int)
    requires 0 <= k < |insns| && insns[k].op.VINSERT? && 0 < insns[k].src1 < |regs|
    requires 0 <= regs[insns[k].src1].birth <= use < k
    requires use > regs[insns[k].src1].birth ==> Names(d, insns[use], insns[k].src1)
    requires forall i :: use < i < k ==> !Names(d, insns[i], insns[k].src1)
    ensures use != regs[insns[k].src1].birth ==> !Forwardable(d, insns, regs, k)
    ensures use == regs[insns[k].src1].birth ==> UnusedBetween(d, insns, insns[k].src1, use, k)
  {}

  lemma MayForward(d: Decl, insns: seq<Insn>, regs: seq<Reg>, k: int)
    requires 0 <= k < |insns| && 0 < insns[k].src1 < |regs| && regs[insns[k].src1].source.RESULT_NOFOLD?
    requires 0 <= regs[insns[k].src1].birth < |insns|
    requires Forward(insns[k], insns[regs[insns[k].src1].birth]).Some?
    requires insns[k].op.VINSERT? ==>
               && regs[insns[k].src1].death == k
               && UnusedBetween(d, insns, insns[k].src1, regs[insns[k].src1].birth, k)
    ensures Forwardable(d, insns, regs, k)
  {}

  /** Forwarding changes the instruction, and leaves nothing to forward at it. */
  lemma ForwardDone(
    c: Code, regs: seq<Reg>, edges: seq<Edges>, owner: seq<int>, order: seq<int>, lastBlock: int, k: int,
    f: Forwarding, regs': seq<Reg>)
    requires FoldState(c, regs, edges, owner, order, lastBlock, {}, k) && 0 <= k < |c.insns|
    requires 0 < c.insns[k].src1 < |regs| && 0 <= regs[c.insns[k].src1].birth < k && |regs'| == |regs|
    requires regs[c.insns[k].src1].live
    requires Forward(c.insns[k], c.insns[regs[c.insns[k].src1].birth]) == Some(f)
    requires forall r :: 0 <= r < |regs| ==> regs'[r].birth == regs[r].birth
    ensures f.insn != c.insns[k] && !Forwardable(c.decl, c.insns[k := f.insn], regs', k)
  {
    hide FoldState, TypedInsn, CleanInsn;
    var b := regs[c.insns[k].src1].birth;
    NothingLoose(c, regs, edges, owner, order, lastBlock, k, b);
    OperandFacts(c, regs, edges, owner, order, lastBlock, b);
    if f.insn.op.VINSERT? {
      assert c.insns[b].op.VINSERT? && f.insn.src1 == c.insns[b].src1;
      TypedVinsert(c.decl, c.insns[b]);
      assert Reads(c.decl, c.insns[b], c.insns[b].src1);
      assert c.insns[k := f.insn][b] == c.insns[b] && Names(c.decl, c.insns[b], f.insn.src1);
      assert c.insns[b].dest == c.insns[k].src1;
    }
  }

  lemma TypedVinsert(d: Decl, insn: Insn)
    requires TypedInsn(d, insn) && insn.op.VINSERT?
    ensures insn.src1 != 0
  {}

  /** The use at k takes the operand of the definition instead. */
  method TakeForward(unit: RtlUnit, k: int, f: Forwarding)
    requires AtResult(unit, k) && 0 < unit.insns[k].src1 < |unit.regs|
    requires IsVector(TypeOf(unit.decl, unit.insns[k].src1))
    requires 0 <= unit.regs[unit.insns[k].src1].birth < |unit.insns|
    requires Forward(unit.insns[k], unit.insns[unit.regs[unit.insns[k].src1].birth]) == Some(f)
    modifies unit`insns, unit`regs
    ensures AtResult(unit, k) && OnlyAt(old(unit.Snap()), old(unit.regs), unit.Snap(), unit.regs, k)
    ensures unit.insns[k] == f.insn
    ensures Strict(old(unit.Snap())) ==> Refines(old(unit.Snap()), unit.Snap()) && Strict(unit.Snap())
    ensures ReadsKnown(old(unit.Snap()), k, unit.insns[k])
  {
    hide FoldState, Refines, Strict, Forward, ReadsKnown;
    ghost var c, regs := unit.Snap(), unit.regs;
    var v := unit.insns[k].src1;
    ghost var loose := ForwardUse(c, regs, unit.edges, unit.owner, unit.order, unit.lastBlock, k);
    unit.insns := unit.insns[k := f.insn];
    if unit.regs[f.reg].death < k {
      unit.regs := unit.regs[f.reg := unit.regs[f.reg].(death := k)];
    }
    RollbackIfDying(unit, v, k, loose);
    assert loose - {v} == {};
  }

  lemma NotVector(d: Decl, insn: Insn)
    requires TypedInsn(d, insn) && !IsVector(TypeOf(d, insn.src1))
    ensures !insn.op.VEXTRACT? && !insn.op.VINSERT?
  {}

  lemma ForwardExact(d: Decl, insn: Insn, def: Insn)
    requires Forward(insn, def).Some?
    ensures AlwaysExact(Forward(insn, def).value.insn.op) && !Sturdy(insn.op)
    ensures !Forward(insn, def).value.insn.op.VEXTRACT?
    ensures Reduced(insn.op, Forward(insn, def).value.insn.op)
    ensures !Forward(insn, def).value.insn.op.LOAD_IMM? && !Forward(insn, def).value.insn.op.LOAD_ARG?
  {}

  predicate AlwaysExact(op: Opcode) { !op.BFEXT? && !op.BFINS? && op != ALU2(MULHU) }
}
