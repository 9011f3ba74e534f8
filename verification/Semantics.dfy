/** Running a unit: a small-step semantics over the block stream, and what it means for one piece of code
    to be a correct replacement for another. */
module Semantics {
  import opened Rtl
  import Meaning
  import Arith

  datatype Value = Num(n: nat) | Vec(lo: nat, hi: nat)

  type Memory = map<int, int>

  /** The parts of the machine the optimizer treats as opaque: arguments, memory accesses, atomic
      operations, calls (which see the storage of bound aliases) and floating-point arithmetic. */
  datatype Env = Env(
    arg: int -> nat,
    load: (Memory, Type, nat, int) -> Value,
    store: (Memory, nat, int, Value) -> Memory,
    atomic: (Opcode, Memory, seq<nat>) -> (nat, Memory),
    call: (Memory, map<int, Value>, seq<nat>) -> (nat, Memory),
    fpu: (Type, Value, Value, int) -> Value)

  datatype State = State(regs: map<nat, Value>, als: map<int, Value>, mem: Memory)

  /** What the caller of the unit can observe: return value, memory, and bound alias storage. */
  datatype Outcome = Outcome(ret: Option<Value>, mem: Memory, bound: map<int, Value>)

  datatype Config = At(b: int, i: int, s: State) | Done(o: Outcome) | Stuck

  function BoundValues(d: Decl, als: map<int, Value>): map<int, Value> {
    map a | a in als && IsBound(d, a) :: als[a]
  }

  /** Writing a scalar register keeps only the bits its type has. */
  function Canonical(t: Type, v: Value): Value {
    if v.Num? then Num(Arith.U(StoredWidth(t), v.n)) else v
  }

  function StoredWidth(t: Type): nat { if t.INT32? || t.FLOAT32? then 32 else 64 }

  function Truncated(t: Type, n: int): Value { Num(Arith.U(StoredWidth(t), n)) }

  ghost predicate OperandsDefined(d: Decl, insn: Insn, s: State) {
    forall r: nat :: Reads(d, insn, r) ==> r in s.regs
  }

  function Get(s: State, r: int): Value {
    if r > 0 && r in s.regs then s.regs[r] else Num(0)
  }

  function NumOf(v: Value): nat { if v.Num? then v.n else 0 }

  /** The value a register-writing instruction without memory effects computes; None if undefined. */
  function Result(env: Env, d: Decl, insn: Insn, s: State): Option<Value>
    requires insn.op.ALU1? || insn.op.ALU2? || insn.op.ALUI? || insn.op.BFEXT? || insn.op.BFINS?
  {
    var t, w := TypeOf(d, insn.dest), Width(TypeOf(d, insn.src1));
    var v1, v2 := Get(s, insn.src1), Get(s, insn.src2);
    if !v1.Num? || !v2.Num? then None
    else
      match insn.op
      case ALU1(f) => Some(Truncated(t, Meaning.Eval1(f, w, v1.n)))
      case ALU2(f) =>
        (match Meaning.Eval2(f, w, v1.n, v2.n) case None => None case Some(n) => Some(Truncated(t, n)))
      case ALUI(f) =>
        (match Meaning.EvalImm(f, w, v1.n, insn.other) case None => None case Some(n) => Some(Truncated(t, n)))
      case BFEXT => Some(Truncated(t, Meaning.EvalExtract(w, v1.n, insn.other)))
      case BFINS => Some(Truncated(t, Meaning.EvalInsert(w, v1.n, v2.n, insn.other)))
  }

  function Element(v: Value, e: int): Option<Value> {
    if v.Vec? then Some(Num(if e == 0 then v.lo else v.hi)) else None
  }

  /** The value of a pure instruction: it depends on the registers alone. */
  predicate IsPure(op: Opcode) {
    op.MOVE? || op.SELECT? || op.ALU1? || op.ALU2? || op.ALUI? || op.BFEXT? || op.BFINS? || op.FPU?
    || op.VBUILD2? || op.VBROADCAST? || op.VEXTRACT? || op.VINSERT? || op.LOAD_IMM? || op.LOAD_ARG?
  }

  function PureResult(env: Env, d: Decl, insn: Insn, s: State): Option<Value>
    requires IsPure(insn.op)
  {
    var t := TypeOf(d, insn.dest);
    var v1, v2 := Get(s, insn.src1), Get(s, insn.src2);
    match insn.op
    case MOVE => Some(Canonical(t, v1))
    case SELECT =>
      var v3 := Get(s, insn.other);
      if v3.Num? then Some(Canonical(t, if v3.n != 0 then v1 else v2)) else None
    case FPU => Some(Canonical(t, env.fpu(t, v1, v2, insn.other)))
    case VBUILD2 => if v1.Num? && v2.Num? then Some(Vec(v1.n, v2.n)) else None
    case VBROADCAST => if v1.Num? then Some(Vec(v1.n, v1.n)) else None
    case VEXTRACT => (match Element(v1, insn.other) case None => None case Some(v) => Some(Canonical(t, v)))
    case VINSERT =>
      if v1.Vec? && v2.Num? then Some(if insn.other == 0 then Vec(v2.n, v1.hi) else Vec(v1.lo, v2.n)) else None
    case LOAD_IMM => Some(Truncated(t, insn.other))
    case LOAD_ARG => Some(Truncated(t, env.arg(insn.other)))
    case _ => Result(env, d, insn, s)
  }

  /** One non-control instruction; None if its behaviour is undefined. */
  ghost function Exec(env: Env, d: Decl, insn: Insn, s: State): Option<State>
    requires !EndsBlock(insn.op)
  {
    var t := TypeOf(d, insn.dest);
    var v1, v2, v3 := Get(s, insn.src1), Get(s, insn.src2), Get(s, insn.other);
    if !OperandsDefined(d, insn, s) then None
    else if IsPure(insn.op) then
      match PureResult(env, d, insn, s)
      case None => None
      case Some(v) => Some(s.(regs := s.regs[insn.dest := v]))
    else
      match insn.op
      case SET_ALIAS => Some(s.(als := s.als[insn.other := v1]))
      case GET_ALIAS =>
        if insn.other in s.als then Some(s.(regs := s.regs[insn.dest := Canonical(t, s.als[insn.other])])) else None
      case LOAD =>
        Some(s.(regs := s.regs[insn.dest := Canonical(t, env.load(s.mem, t, NumOf(v1), insn.other))]))
      case STORE => Some(s.(mem := env.store(s.mem, NumOf(v1), insn.other, v2)))
      case CALL =>
        var (n, m) := env.call(s.mem, BoundValues(d, s.als), [NumOf(v1), NumOf(v2), NumOf(v3)]);
        Some(State(if insn.dest == 0 then s.regs else s.regs[insn.dest := Truncated(t, n)], s.als, m))
      case ATOMIC_INC =>
        var (n, m) := env.atomic(insn.op, s.mem, [NumOf(v1)]);
        Some(State(s.regs[insn.dest := Truncated(t, n)], s.als, m))
      case CMPXCHG =>
        var (n, m) := env.atomic(insn.op, s.mem, [NumOf(v1), NumOf(v2), NumOf(v3)]);
        Some(State(s.regs[insn.dest := Truncated(t, n)], s.als, m))
      case _ => Some(s)
  }

  /** Is the branch taken?  None if its condition is undefined. */
  function Taken(insn: Insn, s: State): Option<bool>
    requires IsBranch(insn.op)
  {
    if insn.op.GOTO? then Some(true)
    else if insn.src1 !in s.regs || !s.regs[insn.src1].Num? then None
    else Some((s.regs[insn.src1].n == 0) == insn.op.GOTO_IF_Z?)
  }

  function Enter(c: Code, b: int, s: State): Config {
    if 0 <= b < |c.spans| then At(b, c.spans[b].first, s) else Stuck
  }

  function LabelBlock(c: Code, l: int): int {
    if 0 <= l < |c.labels| then c.labels[l] else -1
  }

  /** The end of a block falls through to the next block of the stream, or out of the unit. */
  function FallOut(c: Code, b: int, s: State): Config
    requires 0 <= b < |c.spans|
  {
    if c.spans[b].next < 0 then Done(Outcome(None, s.mem, BoundValues(c.decl, s.als)))
    else Enter(c, c.spans[b].next, s)
  }

  ghost function StepInsn(env: Env, c: Code, insn: Insn, b: int, i: int, s: State): Config {
    if IsBranch(insn.op) then
      match Taken(insn, s)
      case None => Stuck
      case Some(taken) => if taken then Enter(c, LabelBlock(c, insn.other), s) else At(b, i + 1, s)
    else if insn.op.RETURN? then
      if insn.src1 == 0 then Done(Outcome(None, s.mem, BoundValues(c.decl, s.als)))
      else if insn.src1 in s.regs then
        Done(Outcome(Some(s.regs[insn.src1]), s.mem, BoundValues(c.decl, s.als)))
      else Stuck
    else
      match Exec(env, c.decl, insn, s)
      case None => Stuck
      case Some(s') => At(b, i + 1, s')
  }

  ghost function Step(env: Env, c: Code, x: Config): Config {
    match x
    case At(b, i, s) =>
      if !(0 <= b < |c.spans|) then Stuck
      else if i > c.spans[b].last then FallOut(c, b, s)
      else if !(0 <= i < |c.insns|) then Stuck
      else StepInsn(env, c, c.insns[i], b, i, s)
    case _ => x
  }

  ghost function Run(env: Env, c: Code, n: nat, x: Config): Config {
    if n == 0 then x else Run(env, c, n - 1, Step(env, c, x))
  }

  function Init(c: Code, als: map<int, Value>, mem: Memory): Config {
    Enter(c, 0, State(map[], als, mem))
  }

  ghost predicate Ends(env: Env, c: Code, x: Config, o: Outcome) {
    exists n: nat :: Run(env, c, n, x) == Done(o)
  }

  ghost predicate GetsStuck(env: Env, c: Code, x: Config) {
    exists n: nat :: Run(env, c, n, x) == Stuck
  }

  /** From x in c and y in d: unless c's run is undefined, d's run is defined too, ends if and only if
      c's run ends, and then with the same outcome. */
  ghost predicate Agree(env: Env, c: Code, x: Config, d: Code, y: Config) {
    GetsStuck(env, c, x) ||
    (!GetsStuck(env, d, y) && forall o :: Ends(env, c, x, o) <==> Ends(env, d, y, o))
  }

  /** d is a correct replacement for c: for every machine, every initial alias storage and memory. */
  ghost predicate Refines(c: Code, d: Code) {
    forall env, als, mem ::
      Agree(env, c, Init(c, als, mem), d, Init(d, als, mem))
  }

  lemma RefinesTransitive(a: Code, b: Code, c: Code)
    requires Refines(a, b) && Refines(b, c)
    ensures Refines(a, c)
  {
    forall env, als, mem ensures Agree(env, a, Init(a, als, mem), c, Init(c, als, mem)) {
      assert Agree(env, a, Init(a, als, mem), b, Init(b, als, mem));
      assert Agree(env, b, Init(b, als, mem), c, Init(c, als, mem));
    }
  }

  lemma RefinesSelf(c: Code)
    ensures Refines(c, c)
  {
    forall env, als, mem ensures Agree(env, c, Init(c, als, mem), c, Init(c, als, mem)) {
      if !GetsStuck(env, c, Init(c, als, mem)) {}
    }
  }

  lemma {:induction false} RunAdd(env: Env, c: Code, m: nat, n: nat, x: Config)
    ensures Run(env, c, m + n, x) == Run(env, c, n, Run(env, c, m, x))
  {
    if m > 0 { RunAdd(env, c, m - 1, n, Step(env, c, x)); }
  }

  lemma {:induction false} RunHalted(env: Env, c: Code, n: nat, x: Config)
    requires !x.At?
    ensures Run(env, c, n, x) == x
  {
    if n > 0 { RunHalted(env, c, n - 1, x); }
  }

  // ---- Simulation ----

  /** Related configurations advance, each by at least one step, to related configurations. */
  ghost predicate Matches(env: Env, c: Code, d: Code, rel: (Config, Config) -> bool, x: Config, y: Config) {
    exists i: nat, j: nat :: MatchesIn(env, c, d, rel, x, y, i, j)
  }

  ghost predicate MatchesIn(
    env: Env, c: Code, d: Code, rel: (Config, Config) -> bool, x: Config, y: Config, i: nat, j: nat)
  {
    i > 0 && j > 0 && (Run(env, c, i, x).Stuck? || rel(Run(env, c, i, x), Run(env, d, j, y)))
  }

  ghost predicate Simulates(env: Env, c: Code, d: Code, rel: (Config, Config) -> bool) {
    && (forall x, y :: rel(x, y) && x.At? ==> y.At? && Matches(env, c, d, rel, x, y))
    && (forall x, y :: rel(x, y) && x.Done? ==> y == x)
  }

  lemma MatchInOneStep(env: Env, c: Code, d: Code, rel: (Config, Config) -> bool, x: Config, y: Config)
    requires Step(env, c, x).Stuck? || rel(Step(env, c, x), Step(env, d, y))
    ensures Matches(env, c, d, rel, x, y)
  {
    assert Run(env, c, 1, x) == Run(env, c, 0, Step(env, c, x)) == Step(env, c, x);
    assert Run(env, d, 1, y) == Run(env, d, 0, Step(env, d, y)) == Step(env, d, y);
    assert MatchesIn(env, c, d, rel, x, y, 1, 1);
  }

  lemma {:induction false} SimulationForward(
    env: Env, c: Code, d: Code, rel: (Config, Config) -> bool, x: Config, y: Config, n: nat)
    requires Simulates(env, c, d, rel) && rel(x, y) && Run(env, c, n, x).Done?
    ensures Ends(env, d, y, Run(env, c, n, x).o)
    decreases n
  {
    if x.Done? {
      RunHalted(env, c, n, x);
      assert Run(env, d, 0, y) == y;
    } else if x.Stuck? {
      RunHalted(env, c, n, x);
    } else {
      var i: nat, j: nat :| MatchesIn(env, c, d, rel, x, y, i, j);
      var x', y' := Run(env, c, i, x), Run(env, d, j, y);
      if i <= n {
        RunAdd(env, c, i, n - i, x);
        if x'.Stuck? { RunHalted(env, c, n - i, x'); }
        SimulationForward(env, c, d, rel, x', y', n - i);
        var m: nat :| Run(env, d, m, y') == Done(Run(env, c, n, x).o);
        RunAdd(env, d, j, m, y);
      } else {
        RunAdd(env, c, n, i - n, x);
        RunHalted(env, c, i - n, Run(env, c, n, x));
      }
    }
  }

  lemma {:induction false} SimulationBackward(
    env: Env, c: Code, d: Code, rel: (Config, Config) -> bool, x: Config, y: Config, n: nat)
    requires Simulates(env, c, d, rel) && rel(x, y) && !Run(env, d, n, y).At?
    requires !GetsStuck(env, c, x)
    ensures Run(env, d, n, y).Done? && Ends(env, c, x, Run(env, d, n, y).o)
    decreases n
  {
    assert Run(env, c, 0, x) == x;
    if x.Done? {
      RunHalted(env, d, n, y);
    } else {
      var i: nat, j: nat :| MatchesIn(env, c, d, rel, x, y, i, j);
      var x', y' := Run(env, c, i, x), Run(env, d, j, y);
      if j <= n {
        RunAdd(env, d, j, n - j, y);
        forall m: nat ensures Run(env, c, m, x') != Stuck { RunAdd(env, c, i, m, x); }
        SimulationBackward(env, c, d, rel, x', y', n - j);
        var m: nat :| Run(env, c, m, x') == Done(Run(env, d, n, y).o);
        RunAdd(env, c, i, m, x);
      } else {
        RunAdd(env, d, n, j - n, y);
        RunHalted(env, d, j - n, Run(env, d, n, y));
        assert Run(env, c, i, x) == x';
      }
    }
  }

  lemma Simulation(env: Env, c: Code, d: Code, rel: (Config, Config) -> bool, x: Config, y: Config)
    requires Simulates(env, c, d, rel) && rel(x, y)
    ensures Agree(env, c, x, d, y)
  {
    if !GetsStuck(env, c, x) {
      forall n: nat ensures Run(env, d, n, y) != Stuck {
        if !Run(env, d, n, y).At? { SimulationBackward(env, c, d, rel, x, y, n); }
      }
      forall o ensures Ends(env, c, x, o) <==> Ends(env, d, y, o) {
        if Ends(env, c, x, o) {
          var n: nat :| Run(env, c, n, x) == Done(o);
          SimulationForward(env, c, d, rel, x, y, n);
        }
        if Ends(env, d, y, o) {
          var n: nat :| Run(env, d, n, y) == Done(o);
          SimulationBackward(env, c, d, rel, x, y, n);
        }
      }
    }
  }
}
