/** What a request to rtl_add_insn asks for, opcode by opcode as rtl.h documents it, and that the instruction the
    encoding functions store does just that. */
module Requests {
  import opened Rtl
  import opened Arith
  import opened Folding
  import opened Meaning
  import opened Semantics
  import opened Encoding

  // ---- What a request means ----

  /** The registers whose values the request works on, besides the base of an alias. */
  predicate TakesValue(q: Request, r: int) {
    r > 0 &&
    match q.op
    case NOP => false
    case LABEL => false
    case GOTO => false
    case LOAD_IMM => false
    case LOAD_ARG => false
    case GET_ALIAS => false
    case SET_ALIAS => r == q.src1
    case MOVE => r == q.src1
    case ALU1(_) => r == q.src1
    case ALUI(_) => r == q.src1
    case BFEXT => r == q.src1
    case VBROADCAST => r == q.src1
    case VEXTRACT => r == q.src1
    case LOAD => r == q.src1
    case ATOMIC_INC => r == q.src1
    case GOTO_IF_Z => r == q.src1
    case GOTO_IF_NZ => r == q.src1
    case RETURN => r == q.src1
    case ALU2(_) => r == q.src1 || r == q.src2
    case BFINS => r == q.src1 || r == q.src2
    case FPU => r == q.src1 || r == q.src2
    case VBUILD2 => r == q.src1 || r == q.src2
    case VINSERT => r == q.src1 || r == q.src2
    case STORE => r == q.src1 || r == q.src2
    case SELECT => r == q.src1 || r == q.src2 || r == q.other
    case CMPXCHG => r == q.src1 || r == q.src2 || r == q.other
    case CALL => r == q.src1 || r == q.src2 || r == q.other
  }

  /** The registers that must hold a value: those, and the register an accessed alias is stored relative to. */
  predicate Takes(d: Decl, q: Request, r: int) {
    || TakesValue(q, r)
    || ((q.op == SET_ALIAS || q.op == GET_ALIAS) && r > 0 && q.other < |d.base| && r == d.base[q.other])
  }

  ghost predicate Available(d: Decl, q: Request, s: State) { forall r: nat :: Takes(d, q, r) ==> r in s.regs }

  /** The low 32 bits of the immediate, sign-extended to 64. */
  function Extended32(other: nat): nat {
    var low := other % 0x1_0000_0000;
    if low < 0x8000_0000 then low else low + 0xFFFF_FFFF_0000_0000
  }

  /** The low 16 bits of an offset as a signed number. */
  function Offset16(other: nat): int {
    var low := other % 0x1_0000;
    if low < 0x8000 then low else low - 0x1_0000
  }

  /** The value a request for a register operation asks for; None if it is undefined. */
  ghost function ValueAsked(env: Env, d: Decl, q: Request, s: State): Option<Value> {
    var t, w := TypeOf(d, q.dest), Width(TypeOf(d, q.src1));
    var a, b := Get(s, q.src1), Get(s, q.src2);
    match q.op
    case MOVE => Some(Canonical(t, a))
    case SELECT =>
      var condition := Get(s, q.other);
      if condition.Num? then Some(Canonical(t, if condition.n != 0 then a else b)) else None
    case ALU1(f) => if a.Num? then Some(Truncated(t, Eval1(f, w, a.n))) else None
    case ALU2(f) =>
      if a.Num? && b.Num? then match Eval2(f, w, a.n, b.n) case None => None case Some(v) => Some(Truncated(t, v))
      else None
    case ALUI(f) =>
      if a.Num? then
        match Eval2(RegisterForm(f), w, a.n,
                    Extended32(q.other)) case None => None case Some(v) => Some(Truncated(t, v))
      else None
    case BFEXT =>
      if a.Num? then Some(Truncated(t, U(w, a.n) / Pow2(q.other % 256) % Pow2(q.other / 256 % 256))) else None
    case BFINS =>
      if a.Num? && b.Num? then
        var start, count := q.other % 256, q.other / 256 % 256;
        Some(Truncated(t, U(w, a.n) / Pow2(start + count) * Pow2(start + count)
                          + b.n % Pow2(count) * Pow2(start) + U(w, a.n) % Pow2(start)))
      else None
    case FPU => Some(Canonical(t, env.fpu(t, a, b, 0)))
    case VBUILD2 => if a.Num? && b.Num? then Some(Vec(a.n, b.n)) else None
    case VBROADCAST => if a.Num? then Some(Vec(a.n, a.n)) else None
    case VEXTRACT => if a.Vec? then Some(Canonical(t, Num(if q.other == 0 then a.lo else a.hi))) else None
    case VINSERT =>
      if a.Vec? && b.Num? then Some(if q.other == 0 then Vec(b.n, a.hi) else Vec(a.lo, b.n)) else None
    case LOAD_IMM => Some(Num(if t.INT32? || t.FLOAT32? then q.other % 0x1_0000_0000 else q.other))
    case LOAD_ARG => Some(Truncated(t, env.arg(q.other % 256)))
    case LOAD => Some(Canonical(t, env.load(s.mem, t, NumOf(a), Offset16(q.other))))
    case GET_ALIAS => if q.other in s.als then Some(Canonical(t, s.als[q.other])) else None
    case _ => None
  }

  /** What running the request does to the state; None if that is undefined. */
  ghost function StateAsked(env: Env, d: Decl, q: Request, s: State): Option<State> {
    var t := TypeOf(d, q.dest);
    var a, b, e := Get(s, q.src1), Get(s, q.src2), Get(s, q.other);
    if !Available(d, q, s) then None
    else
      match q.op
      case NOP => Some(s)
      case LABEL => Some(s)
      case SET_ALIAS => Some(s.(als := s.als[q.other := a]))
      case STORE => Some(s.(mem := env.store(s.mem, NumOf(a), Offset16(q.other), b)))
      case CALL =>
        var (n, m) := env.call(s.mem, BoundValues(d, s.als), [NumOf(a), NumOf(b), NumOf(e)]);
        Some(State(if q.dest == 0 then s.regs else s.regs[q.dest := Truncated(t, n)], s.als, m))
      case ATOMIC_INC =>
        var (n, m) := env.atomic(ATOMIC_INC, s.mem, [NumOf(a)]);
        Some(State(s.regs[q.dest := Truncated(t, n)], s.als, m))
      case CMPXCHG =>
        var (n, m) := env.atomic(CMPXCHG, s.mem, [NumOf(a), NumOf(b), NumOf(e)]);
        Some(State(s.regs[q.dest := Truncated(t, n)], s.als, m))
      case _ =>
        match ValueAsked(env, d, q, s)
        case None => None
        case Some(v) => Some(s.(regs := s.regs[q.dest := v]))
  }

  /** Where control is after the request has been carried out as instruction i of block b. */
  ghost function StepAsked(env: Env, c: Code, q: Request, b: int, i: int, s: State): Config {
    match q.op
    case GOTO => Enter(c, LabelBlock(c, q.other), s)
    case GOTO_IF_Z =>
      if q.src1 !in s.regs || !s.regs[q.src1].Num? then Stuck
      else if s.regs[q.src1].n == 0 then Enter(c, LabelBlock(c, q.other), s) else At(b, i + 1, s)
    case GOTO_IF_NZ =>
      if q.src1 !in s.regs || !s.regs[q.src1].Num? then Stuck
      else if s.regs[q.src1].n != 0 then Enter(c, LabelBlock(c, q.other), s) else At(b, i + 1, s)
    case RETURN =>
      if q.src1 == 0 then Done(Outcome(None, s.mem, BoundValues(c.decl, s.als)))
      else if q.src1 in s.regs then Done(Outcome(Some(s.regs[q.src1]), s.mem, BoundValues(c.decl, s.als)))
      else Stuck
    case _ =>
      match StateAsked(env, c.decl, q, s)
      case None => Stuck
      case Some(s') => At(b, i + 1, s')
  }

  /** In every state of every machine, running insn does what was asked for. */
  ghost predicate Fulfils(d: Decl, q: Request, insn: Insn) {
    forall env, c: Code, b, i, s :: c.decl == d ==> StepInsn(env, c, insn, b, i, s) == StepAsked(env, c, q, b, i, s)
  }

  // ---- The stored instruction does that ----

  lemma EncodedTakes(x: Context, q: Request, r: int)
    requires InRange(x, q) && Regular(q) && Accepts(x, q)
    ensures Reads(x.d, Encode(x, q), r) <==> Takes(x.d, q, r)
  {
    hide TypeOf, IntReg, SameType, S, U, FitsOffset, FitsImmediate;
  }

  lemma ImmediateStored(other: nat)
    ensures U(64, I32(other)) == Extended32(other) && IsImmediate(I32(other))
  {
    Pow2Values();
    hide Pow2;
  }

  lemma OffsetStored(other: nat)
    ensures S(16, other) == Offset16(other)
  {
    Pow2Values();
    assert Pow2(15) == 0x8000;
    hide Pow2;
  }

  lemma FieldStored(other: nat)
    ensures FieldStart(other % 0x1_0000) == other % 256 && FieldCount(other % 0x1_0000) == other / 256 % 256
  {
    var q, m, l := other / 0x1_0000, other % 0x1_0000 / 256, other % 0x1_0000 % 256;
    assert other == (q * 256 + m) * 256 + l && 0 <= m < 256;
    ModUnique(other, 256, q * 256 + m, l);
    ModUnique(other / 256, 256, q, m);
    ModUnique(m, 256, 0, m);
  }

  lemma LowWord(w: nat, x: nat)
    requires w == 32 || w == 64
    ensures U(w, U(w, x)) == U(w, x) && U(32, x) == x % 0x1_0000_0000
  {
    Pow2Values();
    hide Pow2;
  }

  lemma ImmLoaded(x: Context, q: Request)
    requires InRange(x, q) && q.op.LOAD_IMM?
    ensures var t := TypeOf(x.d, q.dest);
      Truncated(t, Extra(x, q)) == Num(if t.INT32? || t.FLOAT32? then q.other % 0x1_0000_0000 else q.other)
  {
    LowWord(32, q.other);
    USmall(64, q.other);
  }

  /** Integer operations. */
  lemma EncodedResult(env: Env, x: Context, q: Request, s: State)
    requires InRange(x, q) && Regular(q)
    requires q.op.ALU1? || q.op.ALU2? || q.op.ALUI? || q.op.BFEXT? || q.op.BFINS?
    ensures Result(env, x.d, Encode(x, q), s) == ValueAsked(env, x.d, q, s)
  {
    hide TypeOf, Truncated, Eval1, Eval2, Pow2, S, U, InRange;
    if q.op.ALUI? { ImmediateStored(q.other); }
    if q.op.BFEXT? || q.op.BFINS? { FieldStored(q.other); }
    if q.op.ALU1? || q.op.ALUI? { NoSecond(s); }
    if q.op.BFEXT? { NoSecond(s); }
  }

  lemma NoSecond(s: State)
    ensures Get(s, 0) == Num(0)
  {}

  /** Pure operations. */
  lemma EncodedValue(env: Env, x: Context, q: Request, s: State)
    requires InRange(x, q) && Regular(q) && IsPure(q.op)
    ensures PureResult(env, x.d, Encode(x, q), s) == ValueAsked(env, x.d, q, s)
  {
    hide TypeOf, Truncated, Canonical, InRange, Result;
    if q.op.ALU1? || q.op.ALU2? || q.op.ALUI? || q.op.BFEXT? || q.op.BFINS? { EncodedResult(env, x, q, s); }
    if q.op.LOAD_IMM? { ImmLoaded(x, q); }
  }

  lemma EncodedAvailable(x: Context, q: Request, s: State)
    requires InRange(x, q) && Regular(q) && Accepts(x, q)
    ensures OperandsDefined(x.d, Encode(x, q), s) <==> Available(x.d, q, s)
  {
    hide Encode, Accepts, InRange, Regular, Reads, Takes;
    forall r ensures Reads(x.d, Encode(x, q), r) <==> Takes(x.d, q, r) { EncodedTakes(x, q, r); }
  }

  /** All that is not control flow. */
  lemma EncodedState(env: Env, x: Context, q: Request, s: State)
    requires InRange(x, q) && Regular(q) && Accepts(x, q) && !EndsBlock(q.op)
    ensures Exec(env, x.d, Encode(x, q), s) == StateAsked(env, x.d, q, s)
  {
    hide TypeOf, Truncated, Canonical, InRange, OperandsDefined, Available, Accepts, PureResult, ValueAsked;
    EncodedAvailable(x, q, s);
    OffsetStored(q.other);
    if IsPure(q.op) { EncodedValue(env, x, q, s); }
    ReadValues(env, x, q, s);
  }

  /** What LOAD and GET_ALIAS put into their register. */
  lemma ReadValues(env: Env, x: Context, q: Request, s: State)
    requires InRange(x, q)
    ensures q.op.LOAD? ==> ValueAsked(env, x.d, q, s)
                           == Some(Canonical(TypeOf(x.d, q.dest), env.load(s.mem, TypeOf(x.d, q.dest),
                                                                           NumOf(Get(s, q.src1)), Offset16(q.other))))
    ensures q.op.GET_ALIAS? ==>
              ValueAsked(env, x.d, q, s)
              == if q.other in s.als then Some(Canonical(TypeOf(x.d, q.dest), s.als[q.other])) else None
  {}

  /** An accepted request is stored as an instruction that does what was asked for. */
  lemma EncodedFulfils(x: Context, q: Request)
    requires InRange(x, q) && Regular(q) && Accepts(x, q)
    ensures Fulfils(x.d, q, Encode(x, q))
  {
    hide Exec, StateAsked, InRange, Regular;
    forall env, c: Code, b, i, s | c.decl == x.d
      ensures StepInsn(env, c, Encode(x, q), b, i, s) == StepAsked(env, c, q, b, i, s)
    {
      if !EndsBlock(q.op) { EncodedState(env, x, q, s); }
      EncodedSource(x, q);
      hide Accepts, Encode;
    }
  }

  lemma EncodedSource(x: Context, q: Request)
    requires InRange(x, q) && Accepts(x, q)
    ensures Encode(x, q).op == q.op && (IsBranch(q.op) ==> Encode(x, q).other == q.other)
    ensures IsConditional(q.op) || q.op.RETURN? ==> Encode(x, q).src1 == q.src1
    ensures IsConditional(q.op) ==> q.src1 != 0
  {}

  // ---- Which requests are accepted ----

  /** The destination is a register that has not been set; a CALL can do without one. */
  predicate DestFree(x: Context, q: Request)
    requires q.dest < |x.regs|
  {
    match q.op
    case NOP => true
    case SET_ALIAS => true
    case STORE => true
    case LABEL => true
    case GOTO => true
    case GOTO_IF_Z => true
    case GOTO_IF_NZ => true
    case RETURN => true
    case CALL => q.dest == 0 || x.regs[q.dest].source == UNDEFINED
    case _ => q.dest != 0 && x.regs[q.dest].source == UNDEFINED
  }

  /** How many source operands there must be; RETURN can do without its one, CALL without its second and third. */
  function SourceCount(op: Opcode): nat {
    match op
    case NOP => 0
    case LABEL => 0
    case GOTO => 0
    case LOAD_IMM => 0
    case LOAD_ARG => 0
    case GET_ALIAS => 0
    case RETURN => 0
    case ALU2(_) => 2
    case BFINS => 2
    case FPU => 2
    case VBUILD2 => 2
    case VINSERT => 2
    case STORE => 2
    case SELECT => 3
    case CMPXCHG => 3
    case _ => 1
  }

  /** No operand is missing, and all of them have been set. */
  ghost predicate OperandsSet(x: Context, q: Request) {
    && (forall r {:trigger TakesValue(q, r)} :: TakesValue(q, r) ==> r < |x.regs| && x.regs[r].source != UNDEFINED)
    && (SourceCount(q.op) >= 1 ==> q.src1 != 0) && (SourceCount(q.op) >= 2 ==> q.src2 != 0)
    && (SourceCount(q.op) >= 3 ==> q.other != 0) && (q.op == CALL && q.other != 0 ==> q.src2 != 0)
  }

  predicate Compares(op: Opcode) {
    || op == ALU2(SEQ) || op == ALU2(SLTU) || op == ALU2(SLTS) || op == ALU2(SGTU) || op == ALU2(SGTS)
    || op == ALUI(SEQI) || op == ALUI(SLTUI) || op == ALUI(SLTSI) || op == ALUI(SGTUI) || op == ALUI(SGTSI)
  }

  predicate Shifts(op: Opcode) {
    op == ALU2(SLL) || op == ALU2(SRL) || op == ALU2(SRA) || op == ALU2(ROL) || op == ALU2(ROR)
  }

  /** The result has the type of the first operand. */
  predicate KeepsType(op: Opcode) {
    || op == MOVE || op == SELECT || op == FPU || op == BFEXT || op == BFINS || op == VINSERT
    || op == ALU1(NEG) || op == ALU1(NOT) || op == ALU1(BSWAP) || ((op.ALU2? || op.ALUI?) && !Compares(op))
  }

  predicate GivesInt(op: Opcode) {
    || op.ALU1? || op.ALU2? || op.ALUI? || op == BFEXT || op == BFINS || op == LOAD_ARG || op == ATOMIC_INC
    || op == CMPXCHG
  }

  /** What the types of the operands have to do with each other and with the type of the result. */
  predicate TypesFit(x: Context, q: Request)
    requires HasAlias(q.op) ==> q.other < |x.aliasTypes|
  {
    var op := q.op;
    var t, t1, t2, t3 := TypeOf(x.d, q.dest), TypeOf(x.d, q.src1), TypeOf(x.d, q.src2), TypeOf(x.d, q.other);
    && (KeepsType(op) ==> t1 == t)
    && (op == SELECT || op == BFINS || op == FPU || op == CMPXCHG || (op.ALU2? && !Compares(op) && !Shifts(op)) ==>
          t2 == t)
    && (op == VBUILD2 || (op.ALU2? && Compares(op)) ==> t2 == t1)
    && (op == CMPXCHG ==> t3 == t)
    && (GivesInt(op) || (op == CALL && q.dest != 0) ==> IsInt(t))
    && (op == FPU ==> !IsInt(t)) && (op == LOAD_IMM ==> IsScalar(t))
    && (op.ALU1? || (op.ALUI? && Compares(op)) ==> IsInt(t1))
    && (op == GOTO_IF_Z || op == GOTO_IF_NZ || (op == RETURN && q.src1 != 0) ==> IsInt(t1))
    && (Shifts(op) || (op == CALL && q.src2 != 0) ==> IsInt(t2))
    && (op == SELECT || (op == CALL && q.other != 0) ==> IsInt(t3))
    && (op == LOAD || op == STORE || op == ATOMIC_INC || op == CMPXCHG || op == CALL ==> t1 == ADDRESS)
    && (op == VBUILD2 || op == VBROADCAST ==> IsVector(t) && t1 == ElementType(t))
    && (op == VEXTRACT ==> IsVector(t1) && t == ElementType(t1))
    && (op == VINSERT ==> IsVector(t) && t2 == ElementType(t))
    && (op == SET_ALIAS ==> t1 == x.aliasTypes[q.other]) && (op == GET_ALIAS ==> t == x.aliasTypes[q.other])
  }

  /** The ranges of labels, aliases, elements, offsets and immediates. */
  predicate WordFits(x: Context, q: Request)
    requires q.op.LABEL? ==> q.other < |x.labels|
  {
    var op, t := q.op, TypeOf(x.d, q.dest);
    && (op == SET_ALIAS || op == GET_ALIAS || op == LABEL || op == GOTO || op == GOTO_IF_Z || op == GOTO_IF_NZ ==>
          q.other != 0)
    && (op == LABEL ==> x.labels[q.other] < 0)
    && (op == VEXTRACT || op == VINSERT ==> q.other < 2)
    && (op == LOAD || op == STORE ==> q.other < 0x8000 || q.other >= 0xFFFF_FFFF_FFFF_8000)
    && (op.ALUI? ==> t == INT32 || q.other < 0x8000_0000 || q.other >= 0xFFFF_FFFF_8000_0000)
    && (op == LOAD_IMM ==>
          || t == INT64 || t == ADDRESS || t == FLOAT64 || q.other < 0x1_0000_0000
          || (t == INT32 && q.other >= 0xFFFF_FFFF_8000_0000))
  }

  ghost predicate Permitted(x: Context, q: Request)
    requires InRange(x, q)
  {
    DestFree(x, q) && OperandsSet(x, q) && TypesFit(x, q) && WordFits(x, q)
  }

  lemma ImmediateFits(other: nat)
    requires other < Pow2(64)
    ensures FitsImmediate(other) <==> other < 0x8000_0000 || other >= 0xFFFF_FFFF_8000_0000
  {
    Pow2Values();
    hide Pow2;
  }

  lemma AcceptedAlu(x: Context, q: Request)
    requires InRange(x, q) && Regular(q) && (q.op.ALU1? || q.op.ALU2?)
    ensures Accepts(x, q) <==> Permitted(x, q)
  {
    hide TypeOf, FitsImmediate, FitsOffset, Pow2, AcceptsMemory, AcceptsVector, AcceptsImm;
    OperandRules(x, q);
    hide OperandsSet;
  }

  lemma AcceptedImm(x: Context, q: Request)
    requires InRange(x, q) && Regular(q) && q.op.ALUI?
    ensures Accepts(x, q) <==> Permitted(x, q)
  {
    hide TypeOf, FitsImmediate, FitsOffset, Pow2, AcceptsMemory, AcceptsVector, AcceptsAlu2, Shifts;
    ImmediateFits(q.other);
    OperandRules(x, q);
    assert !Shifts(q.op) by { NoShift(q.op); }
    hide OperandsSet;
  }

  lemma NoShift(op: Opcode)
    requires op.ALUI?
    ensures !Shifts(op)
  {}

  lemma AcceptedMemory(x: Context, q: Request)
    requires InRange(x, q) && (q.op.LOAD? || q.op.STORE? || q.op.ATOMIC_INC? || q.op.CMPXCHG? || q.op.CALL?)
    ensures Accepts(x, q) <==> Permitted(x, q)
  {
    hide TypeOf, FitsImmediate, Pow2;
    assert !Compares(q.op) && !Shifts(q.op) && !KeepsType(q.op);
    hide Compares, Shifts, KeepsType;
    OperandRules(x, q);
    hide OperandsSet, AcceptsVector, AcceptsAlu2, AcceptsImm;
  }

  lemma AcceptedVector(x: Context, q: Request)
    requires InRange(x, q) && (q.op.VBUILD2? || q.op.VBROADCAST? || q.op.VEXTRACT? || q.op.VINSERT?)
    ensures Accepts(x, q) <==> Permitted(x, q)
  {
    hide TypeOf, FitsImmediate, FitsOffset, Pow2;
    assert !Compares(q.op) && !Shifts(q.op) && (KeepsType(q.op) <==> q.op.VINSERT?);
    hide Compares, Shifts, KeepsType;
    OperandRules(x, q);
    hide OperandsSet, AcceptsMemory, AcceptsAlu2, AcceptsImm;
  }

  /** The operand checks of the encoding functions let through exactly the requests whose destination is free, whose
      operands have been set, whose types fit together and whose numbers are in range. */
  lemma AcceptedIff(x: Context, q: Request)
    requires InRange(x, q) && Regular(q)
    ensures Accepts(x, q) <==> Permitted(x, q)
  {
    if q.op.ALU1? || q.op.ALU2? {
      AcceptedAlu(x, q);
    } else if q.op.ALUI? {
      AcceptedImm(x, q);
    } else if q.op.LOAD? || q.op.STORE? || q.op.ATOMIC_INC? || q.op.CMPXCHG? || q.op.CALL? {
      AcceptedMemory(x, q);
    } else if q.op.VBUILD2? || q.op.VBROADCAST? || q.op.VEXTRACT? || q.op.VINSERT? {
      AcceptedVector(x, q);
    } else if q.op.RETURN? {
      AcceptedReturn(x, q);
    } else if HasAlias(q.op) || IsBranch(q.op) || q.op.LABEL? || q.op.NOP? {
      AcceptedOther(x, q);
    } else {
      AcceptedPure(x, q);
    }
  }

  lemma AcceptedPure(x: Context, q: Request)
    requires InRange(x, q) && Regular(q)
    requires q.op.MOVE? || q.op.SELECT? || q.op.BFEXT? || q.op.BFINS? || q.op.FPU? || q.op.LOAD_IMM? || q.op.LOAD_ARG?
    ensures Accepts(x, q) <==> Permitted(x, q)
  {
    hide TypeOf, FitsImmediate, FitsOffset, Pow2, AcceptsVector, AcceptsMemory, AcceptsAlu2, AcceptsImm;
    assert !Compares(q.op) && !Shifts(q.op) && (KeepsType(q.op) <==> !q.op.LOAD_IMM? && !q.op.LOAD_ARG?);
    hide Compares, Shifts, KeepsType;
    OperandRules(x, q);
    hide OperandsSet;
  }

  lemma AcceptedOther(x: Context, q: Request)
    requires InRange(x, q) && Regular(q) && (HasAlias(q.op) || IsBranch(q.op) || q.op.LABEL? || q.op.NOP?)
    ensures Accepts(x, q) <==> Permitted(x, q)
  {
    hide TypeOf, FitsImmediate, FitsOffset, Pow2, AcceptsVector, AcceptsMemory, AcceptsAlu2, AcceptsImm;
    assert !Compares(q.op) && !Shifts(q.op) && !KeepsType(q.op) && !GivesInt(q.op);
    hide Compares, Shifts, KeepsType, GivesInt;
    OperandRules(x, q);
    hide OperandsSet;
  }

  lemma ReturnTypes(x: Context, q: Request)
    requires InRange(x, q) && q.op.RETURN?
    ensures TypesFit(x, q) <==> (q.src1 != 0 ==> IsInt(TypeOf(x.d, q.src1)))
  {
    hide TypeOf, IsInt, Pow2, InRange;
  }

  lemma AcceptedReturn(x: Context, q: Request)
    requires InRange(x, q) && Regular(q) && q.op.RETURN?
    ensures Accepts(x, q) <==> Permitted(x, q)
  {
    hide TypeOf, IsInt, TypesFit, Pow2;
    ReturnTypes(x, q);
    OperandRules(x, q);
    hide OperandsSet;
  }

  /** The operands, one by one. */
  lemma OperandRules(x: Context, q: Request)
    requires InRange(x, q) && Regular(q)
    ensures OperandsSet(x, q) <==>
              && (SourceCount(q.op) >= 1 ==> Defined(x, q.src1)) && (SourceCount(q.op) >= 2 ==> Defined(x, q.src2))
              && (SourceCount(q.op) >= 3 ==> Defined(x, q.other))
              && (q.op == RETURN && q.src1 != 0 ==> Defined(x, q.src1))
              && (q.op == CALL && q.src2 != 0 ==> Defined(x, q.src2))
              && (q.op == CALL && q.other != 0 ==> q.src2 != 0 && Defined(x, q.other))
  {
    assert q.src1 != 0 && SourceCount(q.op) >= 1 ==> TakesValue(q, q.src1);
    assert q.src2 != 0 && SourceCount(q.op) >= 2 ==> TakesValue(q, q.src2);
    assert q.other != 0 && SourceCount(q.op) >= 3 ==> TakesValue(q, q.other);
    assert q.src1 != 0 && q.op == RETURN ==> TakesValue(q, q.src1);
    assert q.src2 != 0 && q.op == CALL ==> TakesValue(q, q.src2);
    assert q.other != 0 && q.op == CALL ==> TakesValue(q, q.other);
  }

  // ---- What is recorded about the registers ----

  /** How the register that op sets is said to have been set. */
  predicate SourceAsked(op: Opcode, source: Source) {
    && (source == CONSTANT <==> op == LOAD_IMM) && (source == FUNC_ARG <==> op == LOAD_ARG)
    && (source == MEMORY <==> op == LOAD) && (source == ALIAS <==> op == GET_ALIAS)
    && (source == RESULT_NOFOLD <==> op == ATOMIC_INC || op == CMPXCHG || op == CALL)
    && source != UNDEFINED && source != CONSTANT_NOFOLD
  }

  predicate SetsRegister(q: Request) {
    && q.dest != 0 && q.op != NOP && q.op != SET_ALIAS && q.op != STORE && q.op != LABEL && q.op != GOTO
    && q.op != GOTO_IF_Z && q.op != GOTO_IF_NZ && q.op != RETURN
  }

  /** The request, carried out as instruction k, sets its destination there; what it takes lives on to k; and nothing
      else changes. */
  ghost predicate RecordedAs(d: Decl, regs: seq<Reg>, regs': seq<Reg>, q: Request, k: int) {
    && |regs'| == |regs|
    && forall r :: 0 <= r < |regs| ==> RecordedReg(d, regs, regs', q, k, r)
  }

  predicate RecordedReg(d: Decl, regs: seq<Reg>, regs': seq<Reg>, q: Request, k: int, r: int)
    requires 0 <= r < |regs| == |regs'|
  {
    if SetsRegister(q) && r == q.dest then
      && regs'[r].live && regs'[r].birth == k && regs'[r].death == k && SourceAsked(q.op, regs'[r].source)
      && (q.op == LOAD_IMM ==>
            var t := TypeOf(d, q.dest);
            regs'[r].value == if t == INT32 || t == FLOAT32 then q.other % 0x1_0000_0000 else q.other)
    else regs'[r] == if Takes(d, q, r) then regs[r].(death := k) else regs[r]
  }

  lemma MarkedAsAsked(x: Context, q: Request, regs': seq<Reg>, k: int)
    requires InRange(x, q) && Regular(q) && Accepts(x, q) && Marked(x.d, x.regs, regs', Encode(x, q), k)
    ensures RecordedAs(x.d, x.regs, regs', q, k)
  {
    hide TypeOf, Takes, Reads;
    forall r | 0 <= r < |x.regs|
      ensures MarkedReg(x.d, x.regs, regs', Encode(x, q), k, r) && (Reads(x.d, Encode(x, q), r) <==> Takes(x.d, q, r))
    {
      EncodedTakes(x, q, r);
    }
    LowWord(32, q.other);
    DestAsked(x, q);
    hide Accepts, Marked, Regular, Encode;
    forall r | 0 <= r < |x.regs| ensures RecordedReg(x.d, x.regs, regs', q, k, r) {
      OneRecorded(x, q, regs', k, r);
    }
  }

  lemma OneRecorded(x: Context, q: Request, regs': seq<Reg>, k: int, r: int)
    requires InRange(x, q) && |regs'| == |x.regs| && 0 <= r < |regs'|
    requires MarkedReg(x.d, x.regs, regs', Encode(x, q), k, r) && (Reads(x.d, Encode(x, q), r) <==> Takes(x.d, q, r))
    requires Encode(x, q).op == q.op && Encode(x, q).dest == if SetsRegister(q) then q.dest else 0
    requires q.op.LOAD_IMM? ==>
               Encode(x, q).other
               == if Narrow(TypeOf(x.d, q.dest)) then q.other % 0x1_0000_0000 else q.other
    ensures RecordedReg(x.d, x.regs, regs', q, k, r)
  {
    hide TypeOf, Takes, Reads, Encode, InRange;
  }

  lemma DestAsked(x: Context, q: Request)
    requires InRange(x, q) && Accepts(x, q)
    ensures Encode(x, q).op == q.op && Encode(x, q).dest == if SetsRegister(q) then q.dest else 0
    ensures q.op.LOAD_IMM? ==>
              Encode(x, q).other
              == if Narrow(TypeOf(x.d, q.dest)) then U32(q.other) else q.other
  {
    hide TypeOf;
  }

  // ---- Immediates, offsets, elements and aliases ----

  /** The immediate is kept modulo 2^32 and the offset modulo 2^16, both as signed numbers; offsets, elements and
      constants that were accepted are kept whole. */
  lemma WordKept(x: Context, q: Request)
    requires InRange(x, q) && Accepts(x, q)
    ensures var other := Encode(x, q).other;
      && (q.op.ALUI? ==>
            -0x8000_0000 <= other < 0x8000_0000 && (other - q.other) % 0x1_0000_0000 == 0
            && (FitsImmediate(q.other) ==> other == q.other || other == q.other - 0x1_0000_0000_0000_0000))
      && (q.op.LOAD? || q.op.STORE? ==>
            -0x8000 <= other < 0x8000 && (other - q.other) % 0x1_0000 == 0
            && (other == q.other || other == q.other - 0x1_0000_0000_0000_0000))
      && (q.op.VEXTRACT? || q.op.VINSERT? ==> other == q.other && (other == 0 || other == 1))
  {
    hide TypeOf, Accepts, Pow2, S, U, FitsImmediate;
    WordRules(x, q);
    if q.op.ALUI? { ImmediateWord(q.other); }
    if q.op.LOAD? || q.op.STORE? { OffsetWord(q.other); }
    hide InRange;
  }

  lemma ImmediateWord(other: nat)
    requires other < Pow2(64)
    ensures -0x8000_0000 <= I32(other) < 0x8000_0000 && (I32(other) - other) % 0x1_0000_0000 == 0
    ensures FitsImmediate(other) ==> I32(other) == other || I32(other) == other - 0x1_0000_0000_0000_0000
  {
    ImmediateFits(other);
    Pow2Values();
    hide Pow2, FitsImmediate;
  }

  lemma OffsetWord(other: nat)
    requires other < Pow2(64) && (other < 0x8000 || other >= 0xFFFF_FFFF_FFFF_8000)
    ensures -0x8000 <= S(16, other) < 0x8000 && (S(16, other) - other) % 0x1_0000 == 0
    ensures S(16, other) == other || S(16, other) == other - 0x1_0000_0000_0000_0000
  {
    Pow2Values();
    assert Pow2(15) == 0x8000;
    hide Pow2;
  }

  lemma WordRules(x: Context, q: Request)
    requires InRange(x, q) && Accepts(x, q)
    ensures q.op.LOAD? || q.op.STORE? ==> q.other < 0x8000 || q.other >= 0xFFFF_FFFF_FFFF_8000
    ensures q.op.VEXTRACT? || q.op.VINSERT? ==> q.other < 2
    ensures q.op.ALUI? && !IsCompare(RegisterForm(q.op.fi)) && !FitsImmediate(q.other) ==> TypeOf(x.d, q.src1).INT32?
  {
    hide TypeOf, FitsImmediate, Pow2;
  }

  /** An accepted immediate operation works on the immediate as it was given, whatever the other operand holds, if and
      only if that is 32 bits wide or the immediate is in the range of a sign-extended 32-bit value.  A comparison of a
      64-bit register is also accepted otherwise, if its result goes to a 32-bit register. */
  lemma ImmediateMeant(x: Context, q: Request)
    requires InRange(x, q) && Accepts(x, q) && q.op.ALUI? && !IsShift(RegisterForm(q.op.fi))
    ensures var f, w := RegisterForm(q.op.fi), Width(TypeOf(x.d, q.src1));
      (forall v: nat :: Eval2(f, w, v, Extended32(q.other)) == Eval2(f, w, v, q.other))
      <==> w == 32 || FitsImmediate(q.other)
  {
    hide TypeOf, Accepts, RegisterForm, Eval2;
    var f, w := RegisterForm(q.op.fi), Width(TypeOf(x.d, q.src1));
    WordRules(x, q);
    if w == 32 || FitsImmediate(q.other) {
      SameOperand(w, q.other);
      forall v: nat ensures Eval2(f, w, v, Extended32(q.other)) == Eval2(f, w, v, q.other) {
        DependsOnViews(f, w, v, Extended32(q.other), q.other);
      }
    } else {
      ExtendedDiffers(q.other);
      TellApart(f, Extended32(q.other), q.other);
    }
  }

  lemma SameOperand(w: nat, other: nat)
    requires other < Pow2(64) && (w == 32 || (w == 64 && FitsImmediate(other)))
    ensures U(w, Extended32(other)) == U(w, other) && S(w, Extended32(other)) == S(w, other)
  {
    ImmediateFits(other);
    Pow2Values();
    hide Pow2;
  }

  lemma DependsOnViews(f: Alu2, w: nat, v: nat, y: nat, z: nat)
    requires (w == 32 || w == 64) && !IsShift(f) && U(w, y) == U(w, z) && S(w, y) == S(w, z)
    ensures Eval2(f, w, v, y) == Eval2(f, w, v, z)
  {
    hide U, S, Pow2, TruncDiv, TruncMod, And, Or, Xor;
  }

  lemma ExtendedDiffers(other: nat)
    requires other < Pow2(64) && !FitsImmediate(other)
    ensures Extended32(other) != other && Extended32(other) < Pow2(64)
  {
    ImmediateFits(other);
    Pow2Values();
    hide Pow2;
  }

  /** Comparing with two different numbers gives different answers for one of them. */
  lemma TellApart(f: Alu2, y: nat, z: nat)
    requires IsCompare(f) && y < Pow2(64) && z < Pow2(64) && y != z
    ensures Eval2(f, 64, y, y) != Eval2(f, 64, y, z) || Eval2(f, 64, z, y) != Eval2(f, 64, z, z)
  {
    USmall(64, y);
    USmall(64, z);
    hide Pow2;
  }

  /** r1 is a 64-bit argument, r2 a 32-bit register that has not been set. */
  function WideContext(): Context {
    Context(Decl([INT64, INT64, INT32], [0]), [INT64],
            [UndefinedReg, Reg(FUNC_ARG, 0, true, 0, 0), UndefinedReg], [-1])
  }

  /** r2 = r1 == 0x1_0000_0000 is accepted, and stored as r2 = r1 == 0. */
  lemma ImmediateLost()
    ensures var x, q := WideContext(), Request(ALUI(SEQI), 2, 1, 0, 0x1_0000_0000);
      && InRange(x, q) && Regular(q) && Accepts(x, q) && Encode(x, q) == Insn(ALUI(SEQI), 2, 1, 0, 0)
      && Eval2(SEQ, 64, 0, Extended32(q.other)) == Some(1) && Eval2(SEQ, 64, 0, q.other) == Some(0)
  {
    Pow2Values();
    hide Pow2;
  }

  /** What is put into an alias comes out again. */
  lemma AliasRoundTrip(env: Env, x: Context, set1: Request, get1: Request, s: State)
    requires InRange(x, set1) && InRange(x, get1) && Accepts(x, set1) && Accepts(x, get1)
    requires set1.op.SET_ALIAS? && get1.op.GET_ALIAS? && get1.other == set1.other
    requires Available(x.d, set1, s) && Available(x.d, get1, s)
    requires set1.src1 in s.regs && Canonical(TypeOf(x.d, set1.src1), s.regs[set1.src1]) == s.regs[set1.src1]
    ensures var s1 := StateAsked(env, x.d, set1, s);
      s1.Some? && var s2 := StateAsked(env, x.d, get1, s1.value);
      s2 == Some(State(s.regs[get1.dest := s.regs[set1.src1]], s1.value.als, s.mem))
  {
    hide Canonical, Pow2;
    assert TypeOf(x.d, set1.src1) == TypeOf(x.d, get1.dest);
    var s1 := s.(als := s.als[set1.other := s.regs[set1.src1]]);
    assert Get(s, set1.src1) == s.regs[set1.src1];
    forall r: nat | Takes(x.d, get1, r) ensures r in s1.regs {}
  }
}
