/** fold_one_reg_constant: constant folding, SELECT reduction and conversion to register-immediate form. */
module FoldConstants {
  import opened Rtl
  import opened Arith
  import opened Meaning
  import opened Folding
  import opened Liveness
  import opened Semantics
  import opened Rewrite
  import opened Invariant

  /** The opcodes a register of source RESULT can have. */
  predicate ResultOp(op: Opcode) { IsPure(op) && !op.LOAD_IMM? && !op.LOAD_ARG? }

  /** The operand types the encoders in rtl-insn.c enforce. */
  predicate TypedInsn(d: Decl, insn: Insn) {
    var t, t1, t2 := TypeOf(d, insn.dest), TypeOf(d, insn.src1), TypeOf(d, insn.src2);
    (ResultOp(insn.op) ==> insn.src1 != 0) &&
    match insn.op
    case MOVE => t1 == t && insn.src2 == 0
    case SELECT => t1 == t && t2 == t && insn.other > 0 && IsInt(TypeOf(d, insn.other)) && insn.src2 != 0
    case ALU1(f) => IsInt(t) && IsInt(t1) && (f.NEG? || f.NOT? || f.BSWAP? ==> t1 == t) && insn.src2 == 0
    case ALU2(f) =>
      && IsInt(t) && insn.src2 != 0
      && (if IsCompare(f) then t2 == t1 else if IsShift(f) then t1 == t && IsInt(t2) else t1 == t && t2 == t)
    case ALUI(f) =>
      && IsInt(t) && (!IsCompare(RegisterForm(f)) ==> t1 == t)
      && IsImmediate(insn.other) && insn.src2 == 0
    case BFEXT => IsInt(t) && t1 == t && insn.src2 == 0
    case BFINS => IsInt(t) && t1 == t && t2 == t && insn.src2 != 0
    case VBUILD2 => IsVector(t) && t1 == ElementType(t) && t2 == t1 && insn.src2 != 0
    case VBROADCAST => IsVector(t) && t1 == ElementType(t) && insn.src2 == 0
    case VEXTRACT => IsVector(t1) && t == ElementType(t1) && (insn.other == 0 || insn.other == 1) && insn.src2 == 0
    case VINSERT => IsVector(t) && t1 == t && t2 == ElementType(t) && insn.src2 != 0
        && (insn.other == 0 || insn.other == 1)
    case LOAD_IMM => IsScalar(t)
    case _ => true
  }

  /** Registers of source RESULT (foldable or not) that a call or atomic operation does not set come from an
      operation on other registers, those of source MEMORY from a load. */
  predicate ResultReg(insns: seq<Insn>, regs: seq<Reg>, r: int)
    requires 0 <= r < |regs|
  {
    regs[r].live && 0 <= regs[r].birth < |insns| ==>
      && (regs[r].source.RESULT? ==> ResultOp(insns[regs[r].birth].op))
      && (regs[r].source.MEMORY? ==> insns[regs[r].birth].op.LOAD?)
      && (regs[r].source.RESULT_NOFOLD? ==>
            ResultOp(insns[regs[r].birth].op) || HasSideEffect(insns[regs[r].birth].op))
  }

  ghost predicate TypedOK(d: Decl, insns: seq<Insn>, regs: seq<Reg>) {
    && (forall i :: 0 <= i < |insns| ==> TypedInsn(d, insns[i]))
    && (forall r :: 0 < r < |regs| ==> ResultReg(insns, regs, r))
  }

  /** A bit field narrower than the operand and inside it: C defines the shifts fold_constant evaluates. */
  predicate NarrowField(d: Decl, insn: Insn) {
    var w := Width(TypeOf(d, insn.src1));
    insn.op.BFEXT? || insn.op.BFINS? ==>
      FieldCount(insn.other) < w && FieldStart(insn.other) < w && FieldStart(insn.other) + FieldCount(insn.other) <= w
  }

  /** A multiplication for which fold_constant relies on mulh64 with unsigned operands. */
  predicate WideMulhu(d: Decl, insn: Insn) { insn.op == ALU2(MULHU) && Width(TypeOf(d, insn.src1)) == 64 }

  /** fold_constant is exact on these operands: mulh64 loses no carry, and no shift is by the full width. */
  predicate ExactFold(d: Decl, regs: seq<Reg>, insn: Insn) {
    && NarrowField(d, insn)
    && (WideMulhu(d, insn) && IsConst(regs, insn.src1) && IsConst(regs, insn.src2) ==>
          regs[insn.src1].value >= 0 && regs[insn.src2].value >= 0
          && MidSum(regs[insn.src1].value, regs[insn.src2].value) < Pow2(64))
  }

  /** What is known about the registers at run time: constants hold their recorded values. */
  ghost predicate ConstState(regs: seq<Reg>, s: State) {
    forall r :: 0 < r < |regs| && regs[r].live && regs[r].source.CONSTANT? && r in s.regs ==>
      regs[r].value >= 0 && s.regs[r] == Num(regs[r].value)
  }

  predicate IsConst(regs: seq<Reg>, r: int) { 0 < r < |regs| && regs[r].live && regs[r].source.CONSTANT? }

  /** insn' computes what insn computes, in every state where the constants hold their values. */
  ghost predicate SameValue(env: Env, d: Decl, regs: seq<Reg>, insn: Insn, insn': Insn, s: State)
    requires IsPure(insn.op) && IsPure(insn'.op)
  {
    ConstState(regs, s) && OperandsDefined(d, insn, s) && PureResult(env, d, insn, s).Some? ==>
      OperandsDefined(d, insn', s) && PureResult(env, d, insn', s) == PureResult(env, d, insn, s)
  }

  lemma ReplacePure(c: Code, regs: seq<Reg>, k: nat, insn': Insn)
    requires SsaOK(c.insns, regs) && ConstOK(c.decl, c.insns, regs) && k < |c.insns|
    requires IsPure(c.insns[k].op) && IsPure(insn'.op) && insn'.dest == c.insns[k].dest
    requires forall env, s :: SameValue(env, c.decl, regs, c.insns[k], insn', s)
    ensures Refines(c, c.(insns := c.insns[k := insn']))
  {
    var c' := c.(insns := c.insns[k := insn']);
    forall env, als, mem ensures Agree(env, c, Init(c, als, mem), c', Init(c', als, mem)) {
      var inv := x => ImmHolds(c, x);
      ImmPreserved(env, c, regs);
      forall x | inv(x) && AtInsn(c, k, x) ensures Joins(env, c, c', x) {
        forall r | 0 < r < |regs| && regs[r].live && regs[r].source.CONSTANT? && r in x.s.regs
          ensures regs[r].value >= 0 && x.s.regs[r] == Num(regs[r].value)
        {
          ConstValue(c, regs, r, x);
        }
        assert ConstState(regs, x.s) && SameValue(env, c.decl, regs, c.insns[k], insn', x.s);
        hide PureResult, ConstState;
        JoinInOneStep(env, c, c', x);
      }
      ReplaceInsn(env, c, k, insn', inv, Init(c, als, mem));
    }
  }

  // ---- SELECT ----

  lemma SelectToMove(d: Decl, regs: seq<Reg>, insn: Insn, src: nat)
    requires insn.op.SELECT? && TypedInsn(d, insn)
    requires || (insn.src1 == insn.src2 && src == insn.src1)
             || (IsConst(regs, insn.other) && regs[insn.other].value >= 0
                 && src == if regs[insn.other].value != 0 then insn.src1 else insn.src2)
    ensures forall env, s :: SameValue(env, d, regs, insn, insn.(op := MOVE, src1 := src, src2 := 0, other := 0), s)
  {
    var insn' := insn.(op := MOVE, src1 := src, src2 := 0, other := 0);
    forall env, s ensures SameValue(env, d, regs, insn, insn', s) {
      if ConstState(regs, s) && OperandsDefined(d, insn, s) {
        assert Reads(d, insn, insn.other) && Reads(d, insn, insn.src1) && Reads(d, insn, insn.src2);
      }
    }
  }

  // ---- Folding to LOAD_IMM ----

  /** fold_constant: the value of a foldable instruction with these operands; None where the C code evaluates an
      undefined shift. */
  function FoldValues(d: Decl, insn: Insn, x: nat, y: nat): Option<int> {
    var narrow := Width(TypeOf(d, insn.src1)) == 32;
    match insn.op
    case MOVE => Some(x)
    case ALU1(f) => Some(Fold1(f, narrow, x))
    case ALU2(f) => Fold2(f, narrow, x, y)
    case ALUI(f) => FoldImm(f, narrow, x, insn.other)
    case BFEXT => FoldExtract(narrow, x, insn.other)
    case BFINS => FoldInsert(narrow, x, y, insn.other)
    case _ => None
  }

  /** The same where the operands are constant registers. */
  function FoldConstant(d: Decl, regs: seq<Reg>, insn: Insn): Option<int>
    requires insn.src1 < |regs| && insn.src2 < |regs|
  {
    var x, y := if regs[insn.src1].value >= 0 then regs[insn.src1].value else 0,
                if insn.src2 != 0 && regs[insn.src2].value >= 0 then regs[insn.src2].value else 0;
    FoldValues(d, insn, x, y)
  }

  predicate Foldable(op: Opcode) { op.MOVE? || op.ALU1? || op.ALU2? || op.ALUI? || op.BFEXT? || op.BFINS? }

  /** The constant stored for a folded register: INT32 values are truncated. */
  function StoredConstant(t: Type, v: int): nat { if t.INT32? then U32(v) else U64(v) }

  ghost predicate ConstOperand(d: Decl, regs: seq<Reg>, r: nat) {
    && IsConst(regs, r) && regs[r].value >= 0 && Fits(StoredWidth(TypeOf(d, r)), regs[r].value)
  }

  lemma FieldsFold(narrow: bool, x: nat, y: nat, other: int)
    requires FieldStart(other) < if narrow then 32 else 64
    requires FieldCount(other) < if narrow then 32 else 64
    ensures FoldExtract(narrow, x, other).Some? && FoldInsert(narrow, x, y, other).Some?
  {}

  /** The run-time result agrees with the folded value on all bits the destination register keeps. */
  lemma FoldedResult(env: Env, d: Decl, regs: seq<Reg>, insn: Insn, s: State, v: int)
    requires Foldable(insn.op) && TypedInsn(d, insn) && ExactFold(d, regs, insn)
    requires ConstOperand(d, regs, insn.src1) && (insn.src2 != 0 ==> ConstOperand(d, regs, insn.src2))
    requires FoldConstant(d, regs, insn).Some? ==> v == FoldConstant(d, regs, insn).value
    requires Get(s, insn.src1) == Num(regs[insn.src1].value)
    requires insn.src2 != 0 ==> Get(s, insn.src2) == Num(regs[insn.src2].value)
    requires PureResult(env, d, insn, s).Some?
    ensures PureResult(env, d, insn, s) == Some(Truncated(TypeOf(d, insn.dest), v))
  {
    if insn.op.BFEXT? {
      FoldedExtract(env, d, regs, insn, s, v);
    } else if insn.op.BFINS? {
      FoldedInsert(env, d, regs, insn, s, v);
    } else {
      FoldedNumber(env, d, regs, insn, s, v);
    }
  }

  lemma FoldedExtract(env: Env, d: Decl, regs: seq<Reg>, insn: Insn, s: State, v: int)
    requires insn.op.BFEXT? && TypedInsn(d, insn) && ExactFold(d, regs, insn)
    requires ConstOperand(d, regs, insn.src1) && (insn.src2 != 0 ==> ConstOperand(d, regs, insn.src2))
    requires FoldConstant(d, regs, insn).Some? ==> v == FoldConstant(d, regs, insn).value
    requires Get(s, insn.src1) == Num(regs[insn.src1].value)
    requires insn.src2 != 0 ==> Get(s, insn.src2) == Num(regs[insn.src2].value)
    requires PureResult(env, d, insn, s).Some?
    ensures PureResult(env, d, insn, s) == Some(Truncated(TypeOf(d, insn.dest), v))
  {
    hide U, S, Bits, EvalExtract, FoldExtract, FieldStart, FieldCount;
    Pow2Values();
    var narrow, x := Width(TypeOf(d, insn.src1)) == 32, regs[insn.src1].value;
    FieldsFold(narrow, x, 0, insn.other);
    FoldExtractCorrect(narrow, x, insn.other);
  }

  lemma FoldedInsert(env: Env, d: Decl, regs: seq<Reg>, insn: Insn, s: State, v: int)
    requires insn.op.BFINS? && TypedInsn(d, insn) && ExactFold(d, regs, insn)
    requires ConstOperand(d, regs, insn.src1) && (insn.src2 != 0 ==> ConstOperand(d, regs, insn.src2))
    requires FoldConstant(d, regs, insn).Some? ==> v == FoldConstant(d, regs, insn).value
    requires Get(s, insn.src1) == Num(regs[insn.src1].value)
    requires insn.src2 != 0 ==> Get(s, insn.src2) == Num(regs[insn.src2].value)
    requires PureResult(env, d, insn, s).Some?
    ensures PureResult(env, d, insn, s) == Some(Truncated(TypeOf(d, insn.dest), v))
  {
    hide U, S, Bits, EvalInsert, FoldInsert, FieldStart, FieldCount;
    Pow2Values();
    var narrow, x, y := Width(TypeOf(d, insn.src1)) == 32, regs[insn.src1].value, regs[insn.src2].value;
    FieldsFold(narrow, x, y, insn.other);
    FoldInsertCorrect(narrow, x, y, insn.other);
  }

  lemma FoldedNumber(env: Env, d: Decl, regs: seq<Reg>, insn: Insn, s: State, v: int)
    requires Foldable(insn.op) && !insn.op.BFEXT? && !insn.op.BFINS? && TypedInsn(d, insn) && ExactFold(d, regs, insn)
    requires ConstOperand(d, regs, insn.src1) && (insn.src2 != 0 ==> ConstOperand(d, regs, insn.src2))
    requires FoldConstant(d, regs, insn).Some? ==> v == FoldConstant(d, regs, insn).value
    requires Get(s, insn.src1) == Num(regs[insn.src1].value)
    requires insn.src2 != 0 ==> Get(s, insn.src2) == Num(regs[insn.src2].value)
    requires PureResult(env, d, insn, s).Some?
    ensures PureResult(env, d, insn, s) == Some(Truncated(TypeOf(d, insn.dest), v))
  {
    hide Fold1, Fold2, FoldImm, FoldExtract, FoldInsert, Eval1, Eval2, EvalImm, EvalExtract, EvalInsert, U, S;
    Pow2Values();
    var narrow, x, sw := Width(TypeOf(d, insn.src1)) == 32, regs[insn.src1].value, StoredWidth(TypeOf(d, insn.dest));
    match insn.op {
      case MOVE =>
      case ALU1(f) => Fold1Correct(f, narrow, x, sw);
      case ALU2(f) => Fold2Correct(f, narrow, x, regs[insn.src2].value, sw);
      case ALUI(f) => FoldImmCorrect(f, narrow, x, insn.other, sw);
    }
  }

  lemma ConstOperands(d: Decl, insns: seq<Insn>, regs: seq<Reg>, r: nat)
    requires ConstOK(d, insns, regs) && IsConst(regs, r)
    ensures ConstOperand(d, regs, r)
  {
    assert ConstReg(d, insns, regs, r);
  }

  lemma StoredTruncates(t: Type, v: int)
    ensures Truncated(t, StoredConstant(t, v)) == Truncated(t, v)
    ensures t.INT32? || t.INT64? || t.ADDRESS? ==> Truncated(t, StoredConstant(t, v)) == Num(StoredConstant(t, v))
  {
    UIdem(32, v);
    UIdem(64, v);
    UNarrow(v);
  }

  function Folded(insn: Insn, value: nat): Insn { insn.(op := LOAD_IMM, src1 := 0, src2 := 0, other := value) }

  lemma FoldToImm(d: Decl, regs: seq<Reg>, insn: Insn, v: int)
    requires Foldable(insn.op) && TypedInsn(d, insn) && ExactFold(d, regs, insn)
    requires ConstOperand(d, regs, insn.src1) && (insn.src2 != 0 ==> ConstOperand(d, regs, insn.src2))
    requires FoldConstant(d, regs, insn).Some? ==> v == FoldConstant(d, regs, insn).value
    ensures forall env, s :: SameValue(env, d, regs, insn, Folded(insn, StoredConstant(TypeOf(d, insn.dest), v)), s)
  {
    hide ExactFold, FoldConstant, TypedInsn, PureResult, StoredConstant;
    var insn' := Folded(insn, StoredConstant(TypeOf(d, insn.dest), v));
    FoldedReads(d, insn, StoredConstant(TypeOf(d, insn.dest), v));
    forall env, s ensures SameValue(env, d, regs, insn, insn', s) {
      if ConstState(regs, s) && OperandsDefined(d, insn, s) && PureResult(env, d, insn, s).Some? {
        FoldedResult(env, d, regs, insn, s, v);
        ImmResult(env, d, insn, s, v);
      }
    }
  }

  lemma FoldedReads(d: Decl, insn: Insn, v: nat)
    requires Foldable(insn.op) && TypedInsn(d, insn)
    ensures Reads(d, insn, insn.src1) && (insn.src2 != 0 ==> Reads(d, insn, insn.src2))
    ensures forall r :: !Reads(d, Folded(insn, v), r)
  {}

  lemma ImmResult(env: Env, d: Decl, insn: Insn, s: State, v: int)
    ensures PureResult(env, d, Folded(insn, StoredConstant(TypeOf(d, insn.dest), v)), s)
              == Some(Truncated(TypeOf(d, insn.dest), v))
  {
    StoredTruncates(TypeOf(d, insn.dest), v);
  }

  // ---- Register-immediate form ----

  function Converted(insn: Insn, r: RegImm, src: nat): Insn {
    insn.(op := ALUI(r.fi), src1 := src, src2 := 0, other := r.imm)
  }

  /** convert_to_regimm applied to an instruction with exactly one constant operand. */
  function Conversion(d: Decl, regs: seq<Reg>, insn: Insn, constantIsSrc2: bool): Option<RegImm>
    requires insn.op.ALU2? && insn.src1 < |regs| && insn.src2 < |regs|
  {
    var r := if constantIsSrc2 then insn.src2 else insn.src1;
    if regs[r].value < 0 then None
    else ConvertToRegImm(insn.op.f2, TypeOf(d, r).INT32?, TypeOf(d, insn.dest).INT32?, regs[r].value, constantIsSrc2)
  }

  lemma ConvertedResult(env: Env, d: Decl, regs: seq<Reg>, insn: Insn, constantIsSrc2: bool, s: State)
    requires insn.op.ALU2? && TypedInsn(d, insn) && insn.src1 < |regs| && insn.src2 < |regs|
    requires ConstOperand(d, regs, if constantIsSrc2 then insn.src2 else insn.src1)
    requires Conversion(d, regs, insn, constantIsSrc2).Some?
    requires var r := if constantIsSrc2 then insn.src2 else insn.src1; Get(s, r) == Num(regs[r].value)
    requires PureResult(env, d, insn, s).Some?
    ensures var src := if constantIsSrc2 then insn.src1 else insn.src2;
      PureResult(env, d, Converted(insn, Conversion(d, regs, insn, constantIsSrc2).value, src), s)
          == PureResult(env, d, insn, s)
  {
    hide Eval2, EvalImm, U, S, Pow2;
    Pow2Values();
    var f, w := insn.op.f2, Width(TypeOf(d, insn.src1));
    var r, src := if constantIsSrc2 then insn.src2 else insn.src1, if constantIsSrc2 then insn.src1 else insn.src2;
    var x := NumOf(Get(s, src));
    ConvertCorrect(f, w, TypeOf(d, r).INT32?, TypeOf(d, insn.dest).INT32?, regs[r].value, constantIsSrc2, x);
    assert Width(TypeOf(d, src)) == w;
  }

  lemma ConvertToImm(d: Decl, regs: seq<Reg>, insn: Insn, constantIsSrc2: bool)
    requires insn.op.ALU2? && TypedInsn(d, insn) && insn.src1 < |regs| && insn.src2 < |regs|
    requires ConstOperand(d, regs, if constantIsSrc2 then insn.src2 else insn.src1)
    requires Conversion(d, regs, insn, constantIsSrc2).Some?
    ensures var src := if constantIsSrc2 then insn.src1 else insn.src2;
      var insn' := Converted(insn, Conversion(d, regs, insn, constantIsSrc2).value, src);
      forall env, s :: SameValue(env, d, regs, insn, insn', s)
  {
    var src := if constantIsSrc2 then insn.src1 else insn.src2;
    var insn' := Converted(insn, Conversion(d, regs, insn, constantIsSrc2).value, src);
    forall env, s ensures SameValue(env, d, regs, insn, insn', s) {
      if ConstState(regs, s) && OperandsDefined(d, insn, s) && PureResult(env, d, insn, s).Some? {
        assert Reads(d, insn, insn.src1) && Reads(d, insn, insn.src2);
        ConvertedResult(env, d, regs, insn, constantIsSrc2, s);
        assert forall r :: Reads(d, insn', r) ==> Reads(d, insn, r);
      }
    }
  }
}
