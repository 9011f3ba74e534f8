/** rtl-insn.c: the operand checks of the encoding functions, the instruction they store, and the register metadata
    they record. */
module Encoding {
  import opened Rtl
  import opened Arith
  import opened Folding
  import opened Meaning
  import opened Liveness
  import opened Semantics
  import opened Invariant
  import opened FoldConstants

  /** The arguments of rtl_add_insn; "other" is a 64-bit word. */
  datatype Request = Request(op: Opcode, dest: nat, src1: nat, src2: nat, other: nat)

  /** What the encoding functions look at: declarations, alias types, registers and the label map. */
  datatype Context = Context(d: Decl, aliasTypes: seq<Type>, regs: seq<Reg>, labels: seq<int>)

  /** Operand ranges the encoding functions take for granted. */
  predicate InRange(x: Context, q: Request) {
    && |x.d.types| == |x.regs| > 0 && |x.d.base| == |x.aliasTypes| > 0
    && q.dest < |x.regs| && q.src1 < |x.regs| && q.src2 < |x.regs| && q.other < Pow2(64)
    && (HasSrc3(q.op) ==> q.other < |x.regs|) && (HasAlias(q.op) ==> q.other < |x.d.base|)
    && (IsBranch(q.op) || q.op.LABEL? ==> q.other < |x.labels|)
  }

  /** A NOP carrying operands, and a BFEXT given a second source it does not use, are not modelled. */
  predicate Regular(q: Request) {
    && (q.op.NOP? ==> q == Request(NOP, 0, 0, 0, 0))
    && (q.op.BFEXT? ==> q.src2 == 0)
  }

  predicate Unset(x: Context, r: nat)
    requires r < |x.regs|
  {
    r != 0 && x.regs[r].source.UNDEFINED?
  }

  predicate Defined(x: Context, r: nat)
    requires r < |x.regs|
  {
    r != 0 && !x.regs[r].source.UNDEFINED?
  }

  predicate IntReg(x: Context, r: nat) { IsInt(TypeOf(x.d, r)) }

  predicate SameType(x: Context, r: nat, s: nat) { TypeOf(x.d, r) == TypeOf(x.d, s) }

  /** other + 0x80000000 < 0x100000000 on 64-bit words: a sign-extended 32-bit immediate. */
  predicate FitsImmediate(other: nat) { U64(other + 0x8000_0000) < 0x1_0000_0000 }

  /** A sign-extended 16-bit offset. */
  predicate FitsOffset(other: nat) { other <= 0x7FFF || other >= 0xFFFF_FFFF_FFFF_8000 }

  /** The operand checks of two-operand instructions. */
  predicate AcceptsAlu2(x: Context, f: Alu2, q: Request)
    requires InRange(x, q)
  {
    && Unset(x, q.dest) && Defined(x, q.src1) && Defined(x, q.src2) && IntReg(x, q.dest)
    && (if IsCompare(f) then SameType(x, q.src2, q.src1)
        else SameType(x, q.src1, q.dest) && if IsShift(f) then IntReg(x, q.src2) else SameType(x, q.src2, q.dest))
  }

  predicate AcceptsImm(x: Context, f: AluImm, q: Request)
    requires InRange(x, q)
  {
    && Unset(x, q.dest) && Defined(x, q.src1) && IntReg(x, q.dest)
    && (TypeOf(x.d, q.dest).INT32? || FitsImmediate(q.other))
    && (if IsCompare(RegisterForm(f)) then IntReg(x, q.src1) else SameType(x, q.src1, q.dest))
  }

  predicate AcceptsVector(x: Context, q: Request)
    requires InRange(x, q)
  {
    var t, t1, t2 := TypeOf(x.d, q.dest), TypeOf(x.d, q.src1), TypeOf(x.d, q.src2);
    Unset(x, q.dest) && Defined(x, q.src1) &&
    match q.op
    case VBUILD2 => Defined(x, q.src2) && IsVector(t) && t1 == ElementType(t) && t2 == t1
    case VBROADCAST => IsVector(t) && t1 == ElementType(t)
    case VEXTRACT => IsVector(t1) && t == ElementType(t1) && q.other < 2
    case VINSERT => Defined(x, q.src2) && IsVector(t) && t1 == t && t2 == ElementType(t) && q.other < 2
    case _ => false
  }

  predicate AcceptsMemory(x: Context, q: Request)
    requires InRange(x, q)
  {
    Defined(x, q.src1) && TypeOf(x.d, q.src1).ADDRESS? &&
    match q.op
    case LOAD => Unset(x, q.dest) && FitsOffset(q.other)
    case STORE => Defined(x, q.src2) && FitsOffset(q.other)
    case ATOMIC_INC => Unset(x, q.dest) && IntReg(x, q.dest)
    case CMPXCHG =>
      && Unset(x, q.dest) && IntReg(x, q.dest) && Defined(x, q.src2) && SameType(x, q.src2, q.dest)
      && Defined(x, q.other) && SameType(x, q.other, q.dest)
    case CALL =>
      && (q.dest != 0 ==> Unset(x, q.dest) && IntReg(x, q.dest))
      && !(q.src2 == 0 && q.other != 0)
      && (q.src2 != 0 ==> Defined(x, q.src2) && IntReg(x, q.src2))
      && (q.other != 0 ==> Defined(x, q.other) && IntReg(x, q.other))
    case _ => false
  }

  /** Do the operand checks of the encoding function pass? */
  predicate Accepts(x: Context, q: Request)
    requires InRange(x, q)
  {
    var t := TypeOf(x.d, q.dest);
    match q.op
    case NOP => true
    case SET_ALIAS => Defined(x, q.src1) && q.other != 0 && TypeOf(x.d, q.src1) == x.aliasTypes[q.other]
    case GET_ALIAS => Unset(x, q.dest) && q.other != 0 && t == x.aliasTypes[q.other]
    case MOVE => Unset(x, q.dest) && Defined(x, q.src1) && SameType(x, q.src1, q.dest)
    case SELECT =>
      && Unset(x, q.dest) && Defined(x, q.src1) && Defined(x, q.src2) && Defined(x, q.other)
      && SameType(x, q.src1, q.dest) && SameType(x, q.src2, q.dest) && IntReg(x, q.other)
    case ALU1(f) =>
      && Unset(x, q.dest) && Defined(x, q.src1) && IntReg(x, q.dest) && IntReg(x, q.src1)
      && (f.NEG? || f.NOT? || f.BSWAP? ==> SameType(x, q.src1, q.dest))
    case ALU2(f) => AcceptsAlu2(x, f, q)
    case ALUI(f) => AcceptsImm(x, f, q)
    case BFEXT => Unset(x, q.dest) && Defined(x, q.src1) && IntReg(x, q.dest) && SameType(x, q.src1, q.dest)
    case BFINS =>
      && Unset(x, q.dest) && Defined(x, q.src1) && IntReg(x, q.dest) && SameType(x, q.src1, q.dest)
      && Defined(x, q.src2) && SameType(x, q.src2, q.dest)
    case FPU =>
      && Unset(x, q.dest) && Defined(x, q.src1) && Defined(x, q.src2) && !IsInt(t)
      && SameType(x, q.src1, q.dest) && SameType(x, q.src2, q.dest)
    case VBUILD2 => AcceptsVector(x, q)
    case VBROADCAST => AcceptsVector(x, q)
    case VEXTRACT => AcceptsVector(x, q)
    case VINSERT => AcceptsVector(x, q)
    case LOAD_IMM =>
      && Unset(x, q.dest) && IsScalar(t)
      && (t.INT64? || t.ADDRESS? || t.FLOAT64? || (t.INT32? && q.other >= 0xFFFF_FFFF_8000_0000)
           || q.other <= 0xFFFF_FFFF)
    case LOAD_ARG => Unset(x, q.dest) && IsInt(t)
    case LOAD => AcceptsMemory(x, q)
    case STORE => AcceptsMemory(x, q)
    case ATOMIC_INC => AcceptsMemory(x, q)
    case CMPXCHG => AcceptsMemory(x, q)
    case CALL => AcceptsMemory(x, q)
    case LABEL => q.other != 0 && x.labels[q.other] < 0
    case GOTO => q.other != 0
    case GOTO_IF_Z => Defined(x, q.src1) && q.other != 0 && IntReg(x, q.src1)
    case GOTO_IF_NZ => Defined(x, q.src1) && q.other != 0 && IntReg(x, q.src1)
    case RETURN => q.src1 != 0 ==> Defined(x, q.src1) && IntReg(x, q.src1)
  }

  // ---- The stored instruction ----

  predicate UsesDest(op: Opcode) {
    !op.NOP? && !op.SET_ALIAS? && !op.STORE? && !op.LABEL? && !EndsBlock(op)
  }

  predicate UsesSrc1(op: Opcode) {
    !op.NOP? && !op.GET_ALIAS? && !op.LOAD_IMM? && !op.LOAD_ARG? && !op.LABEL? && !op.GOTO?
  }

  predicate UsesSrc2(op: Opcode) {
    op.SELECT? || op.ALU2? || op.BFEXT? || op.BFINS? || op.FPU? || op.VBUILD2? || op.VINSERT? || op.STORE?
        || op.CMPXCHG?
    || op.CALL?
  }

  /** Scalar types whose constants are stored in 32 bits. */
  predicate Narrow(t: Type) { t.INT32? || t.FLOAT32? }

  /** The word kept in the union of the instruction. */
  function Extra(x: Context, q: Request): int
    requires InRange(x, q)
  {
    match q.op
    case ALUI(_) => I32(q.other)
    case BFEXT => q.other % 0x1_0000
    case BFINS => q.other % 0x1_0000
    case LOAD_IMM => if Narrow(TypeOf(x.d, q.dest)) then U32(q.other) else q.other
    case LOAD_ARG => q.other % 0x100
    case LOAD => S(16, q.other)
    case STORE => S(16, q.other)
    case ATOMIC_INC => S(16, q.other)
    case VEXTRACT => q.other
    case VINSERT => q.other
    case _ => if HasSrc3(q.op) || HasAlias(q.op) || IsBranch(q.op) || q.op.LABEL? then q.other else 0
  }

  function Encode(x: Context, q: Request): Insn
    requires InRange(x, q)
  {
    Insn(q.op, if UsesDest(q.op) then q.dest else 0, if UsesSrc1(q.op) then q.src1 else 0,
         if UsesSrc2(q.op) then q.src2 else 0, Extra(x, q))
  }

  /** How the destination register is said to be set. */
  function SourceOf(op: Opcode): Source {
    match op
    case LOAD_IMM => CONSTANT
    case LOAD_ARG => FUNC_ARG
    case LOAD => MEMORY
    case GET_ALIAS => ALIAS
    case ATOMIC_INC => RESULT_NOFOLD
    case CMPXCHG => RESULT_NOFOLD
    case CALL => RESULT_NOFOLD
    case _ => RESULT
  }

  /** regs' is regs after the encoding functions have recorded instruction k: its destination is born, the registers
      it names live to k, and no other register is touched. */
  ghost predicate Marked(d: Decl, regs: seq<Reg>, regs': seq<Reg>, insn: Insn, k: int) {
    |regs'| == |regs| && forall r :: 0 <= r < |regs| ==> MarkedReg(d, regs, regs', insn, k, r)
  }

  predicate MarkedReg(d: Decl, regs: seq<Reg>, regs': seq<Reg>, insn: Insn, k: int, r: int)
    requires 0 <= r < |regs| == |regs'|
  {
    if r != 0 && r == insn.dest then
      && regs'[r].live && regs'[r].birth == k && regs'[r].death == k && regs'[r].source == SourceOf(insn.op)
      && (insn.op.LOAD_IMM? ==> regs'[r].value == insn.other)
    else if Reads(d, insn, r) then regs'[r] == regs[r].(death := k)
    else regs'[r] == regs[r]
  }

  // ---- What the checks guarantee ----

  /** Registers are live exactly when they have a source, register 0 never is, and bound aliases have live bases. */
  ghost predicate Ready(x: Context) {
    && |x.d.types| == |x.regs| > 0 && |x.d.base| == |x.aliasTypes| > 0 && x.d.base[0] == 0
    && x.regs[0].source.UNDEFINED? && |x.labels| > 0 && x.labels[0] == -1
    && (forall r :: 0 <= r < |x.regs| ==> (x.regs[r].live <==> !x.regs[r].source.UNDEFINED?))
    && (forall a :: 0 <= a < |x.d.base| && x.d.base[a] != 0 ==> x.d.base[a] < |x.regs| && x.regs[x.d.base[a]].live)
  }

  lemma EncodedReads(x: Context, q: Request, r: int)
    requires Ready(x) && InRange(x, q) && Regular(q) && Accepts(x, q) && Reads(x.d, Encode(x, q), r)
    ensures r < |x.regs| && x.regs[r].live
  {
    hide TypeOf, IntReg, SameType, S, U, FitsOffset, FitsImmediate;
  }

  lemma EncodedDest(x: Context, q: Request)
    requires Ready(x) && InRange(x, q) && Regular(q) && Accepts(x, q)
    ensures var insn := Encode(x, q);
      && insn.dest < |x.regs| && (insn.dest != 0 ==> !x.regs[insn.dest].live)
      && (insn.dest == 0 ==>
           q.op.NOP? || q.op.LABEL? || EndsBlock(q.op) || q.op.STORE? || q.op.SET_ALIAS? || q.op.CALL?)
  {
    hide TypeOf, IntReg, SameType, S, U, FitsOffset, FitsImmediate, Extra;
  }

  lemma EncodedClean(x: Context, q: Request)
    requires Ready(x) && InRange(x, q) && Regular(q) && Accepts(x, q)
    ensures CleanInsn(x.d, Encode(x, q)) && (q.op.LABEL? ==> Encode(x, q).src1 == 0)
  {
    hide TypeOf, IntReg, SameType, S, U, FitsOffset, FitsImmediate;
    EncodedDest(x, q);
  }

  lemma EncodedTyped(x: Context, q: Request)
    requires InRange(x, q) && Regular(q) && Accepts(x, q)
    ensures TypedInsn(x.d, Encode(x, q))
  {
    hide TypeOf, Pow2, U, FitsOffset, FitsImmediate;
    Pow2Values();
  }

  // ---- Live ranges, constants and types after an instruction is appended ----

  lemma AppendCovers(x: Context, insns: seq<Insn>, regs': seq<Reg>, q: Request)
    requires Ready(x) && InRange(x, q) && Regular(q) && Accepts(x, q) && LiveOK(x.d, insns, x.regs, {})
    requires Marked(x.d, x.regs, regs', Encode(x, q), |insns|)
    ensures Covers(x.d, insns + [Encode(x, q)], regs')
  {
    hide Encode, Accepts, Regular;
    var insn, k := Encode(x, q), |insns|;
    var insns' := insns + [insn];
    EncodedDest(x, q);
    forall i, r {:trigger Reads(x.d, insns'[i], r)} | 0 <= i <= k && Reads(x.d, insns'[i], r)
      ensures r < |regs'| && regs'[r].live && regs'[r].birth < i <= regs'[r].death
    {
      if i == k { EncodedReads(x, q, r); } else { assert Reads(x.d, insns[i], r); }
      assert r < |x.regs| && x.regs[r].live && r != insn.dest && x.regs[r].birth < |insns|;
      assert MarkedReg(x.d, x.regs, regs', insn, k, r);
    }
  }

  lemma AppendSsa(x: Context, insns: seq<Insn>, regs': seq<Reg>, q: Request)
    requires Ready(x) && InRange(x, q) && Regular(q) && Accepts(x, q) && SsaOK(insns, x.regs)
    requires Marked(x.d, x.regs, regs', Encode(x, q), |insns|)
    ensures SsaOK(insns + [Encode(x, q)], regs')
  {
    hide Encode, Accepts, Regular;
    var insn, k := Encode(x, q), |insns|;
    var insns' := insns + [insn];
    EncodedDest(x, q);
    forall i | 0 <= i <= k && insns'[i].dest != 0
      ensures insns'[i].dest < |regs'| && regs'[insns'[i].dest].live && regs'[insns'[i].dest].birth == i
    {
      assert MarkedReg(x.d, x.regs, regs', insn, k, insns'[i].dest);
    }
    forall r | 0 < r < |regs'| && regs'[r].live
      ensures 0 <= regs'[r].birth <= k && insns'[regs'[r].birth].dest == r && regs'[r].birth <= regs'[r].death <= k
    {
      assert MarkedReg(x.d, x.regs, regs', insn, k, r);
      if Reads(x.d, insn, r) { EncodedReads(x, q, r); }
    }
  }

  lemma AppendLive(x: Context, insns: seq<Insn>, regs': seq<Reg>, q: Request)
    requires Ready(x) && InRange(x, q) && Regular(q) && Accepts(x, q) && LiveOK(x.d, insns, x.regs, {})
    requires Marked(x.d, x.regs, regs', Encode(x, q), |insns|)
    ensures LiveOK(x.d, insns + [Encode(x, q)], regs', {})
  {
    hide Encode, Accepts, Regular, Covers, SsaOK;
    var insn, k := Encode(x, q), |insns|;
    AppendCovers(x, insns, regs', q);
    AppendSsa(x, insns, regs', q);
    forall r | 0 < r < |regs'| ensures Tight(x.d, insns + [insn], regs', r) {
      assert MarkedReg(x.d, x.regs, regs', insn, k, r) && Tight(x.d, insns, x.regs, r);
    }
  }

  lemma EncodedConstant(x: Context, q: Request)
    requires InRange(x, q) && q.op.LOAD_IMM?
    ensures var insn := Encode(x, q);
      insn.other >= 0 && Truncated(TypeOf(x.d, insn.dest), insn.other) == Num(insn.other)
  {
    hide Pow2;
    if Narrow(TypeOf(x.d, q.dest)) { UIdem(32, q.other); } else { USmall(64, q.other); }
  }

  lemma AppendConstants(x: Context, insns: seq<Insn>, regs': seq<Reg>, q: Request)
    requires Ready(x) && InRange(x, q) && Regular(q) && Accepts(x, q) && SsaOK(insns, x.regs)
    requires ConstOK(x.d, insns, x.regs) && Marked(x.d, x.regs, regs', Encode(x, q), |insns|)
    ensures ConstOK(x.d, insns + [Encode(x, q)], regs')
  {
    hide Encode, Accepts, Regular, Truncated;
    var insn, k := Encode(x, q), |insns|;
    forall r | 0 < r < |regs'| && regs'[r].live && regs'[r].source.CONSTANT?
      ensures ConstReg(x.d, insns + [insn], regs', r)
    {
      assert MarkedReg(x.d, x.regs, regs', insn, k, r);
      if r == insn.dest { EncodedOp(x, q); EncodedConstant(x, q); } else { assert ConstReg(x.d, insns, x.regs, r); }
    }
  }

  lemma EncodedOp(x: Context, q: Request)
    requires InRange(x, q)
    ensures Encode(x, q).op == q.op
    ensures SourceOf(q.op).CONSTANT? <==> q.op.LOAD_IMM?
    ensures SourceOf(q.op).RESULT_NOFOLD? <==> HasSideEffect(q.op)
    ensures Encode(x, q).dest != 0 && SourceOf(q.op).RESULT? ==> ResultOp(q.op)
  {}

  lemma AppendTyped(x: Context, insns: seq<Insn>, regs': seq<Reg>, q: Request)
    requires Ready(x) && InRange(x, q) && Regular(q) && Accepts(x, q) && SsaOK(insns, x.regs)
    requires TypedOK(x.d, insns, x.regs) && Marked(x.d, x.regs, regs', Encode(x, q), |insns|)
    ensures TypedOK(x.d, insns + [Encode(x, q)], regs')
  {
    hide Encode, Accepts, Regular, TypedInsn;
    var insn, k := Encode(x, q), |insns|;
    EncodedTyped(x, q);
    EncodedOp(x, q);
    EncodedDest(x, q);
    forall r | 0 < r < |regs'| ensures ResultReg(insns + [insn], regs', r) {
      assert MarkedReg(x.d, x.regs, regs', insn, k, r) && ResultReg(insns, x.regs, r);
    }
  }

  lemma AppendReady(x: Context, regs': seq<Reg>, q: Request, k: int)
    requires Ready(x) && InRange(x, q) && Regular(q) && Accepts(x, q)
    requires Marked(x.d, x.regs, regs', Encode(x, q), k)
    ensures Ready(x.(regs := regs'))
  {
    hide Encode, Accepts, Regular;
    var insn := Encode(x, q);
    assert MarkedReg(x.d, x.regs, regs', insn, k, 0);
    forall r | 0 <= r < |x.regs|
      ensures regs'[r].live <==> !regs'[r].source.UNDEFINED?
      ensures x.regs[r].live ==> regs'[r].live
    {
      assert MarkedReg(x.d, x.regs, regs', insn, k, r);
    }
  }
}
