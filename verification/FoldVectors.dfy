/** fold_one_reg_vector: forwarding scalars through vector constructions, in strict SSA form. */
module FoldVectors {
  import opened Rtl
  import opened Liveness
  import opened Semantics
  import opened Rewrite
  import opened Flow
  import opened Paths
  import opened Invariant
  import opened FoldConstants

  // ---- What holds at run time ----

  /** Wherever the last execution of a pure instruction k is still fresh, its register holds the value the
      instruction would compute now. */
  ghost predicate FreshHolds(env: Env, c: Code, x: Config) {
    x.At? ==>
      && Reachable(c, Point(x.b, x.i))
      && forall k {:trigger Fresh(c, k, Point(x.b, x.i))} :: PureDef(c, k) && Fresh(c, k, Point(x.b, x.i)) ==>
           Holds(env, c, k, x.s)
  }

  ghost predicate Reachable(c: Code, p: Point) {
    exists path :: IsPath(c, path) && Last(path) == p
  }

  predicate PureDef(c: Code, k: int) {
    0 <= k < |c.insns| && IsPure(c.insns[k].op) && c.insns[k].dest != 0
  }

  ghost predicate Holds(env: Env, c: Code, k: int, s: State)
    requires PureDef(c, k)
  {
    && c.insns[k].dest in s.regs && OperandsDefined(c.decl, c.insns[k], s)
    && PureResult(env, c.decl, c.insns[k], s) == Some(s.regs[c.insns[k].dest])
  }

  /** A step moves along an edge. */
  lemma StepIsEdge(env: Env, c: Code, x: Config)
    requires x.At? && Step(env, c, x).At?
    ensures Edge(c, Point(x.b, x.i), Point(Step(env, c, x).b, Step(env, c, x).i))
  {
    hide Exec;
  }

  lemma ExtendPath(c: Code, path: seq<Point>, q: Point)
    requires IsPath(c, path) && Edge(c, Last(path), q)
    ensures IsPath(c, path + [q]) && Last(path + [q]) == q
  {
    var p := path + [q];
    forall j | 0 <= j < |p| - 1 ensures Edge(c, p[j], p[j + 1]) {
      if j < |path| - 1 { assert Edge(c, path[j], path[j + 1]); }
    }
  }

  /** If k is fresh after a step that did not execute k, it was fresh before and the step spared its operands. */
  lemma FreshBefore(c: Code, k: int, p: Point, q: Point)
    requires 0 <= k < |c.insns| && Edge(c, p, q) && Reachable(c, p) && Fresh(c, k, q) && !Executes(c, p, k)
    ensures Fresh(c, k, p) && !SetsOperand(c, p, k)
  {
    forall path | IsPath(c, path) && Last(path) == p ensures FreshOn(c, k, path) && !SetsOperand(c, p, k) {
      ExtendPath(c, path, q);
      var longer := path + [q];
      var j :| FreshFrom(c, k, longer, j);
      assert longer[|path| - 1] == p && j != |path| - 1;
      assert FreshFrom(c, k, path, j) by {
        forall m | j < m < |path| - 1 ensures !SetsOperand(c, path[m], k) { assert longer[m] == path[m]; }
      }
    }
  }

  /** A pure result depends on the operand registers alone. */
  lemma PureFrame(env: Env, d: Decl, insn: Insn, s: State, t: State)
    requires IsPure(insn.op) && OperandsDefined(d, insn, s)
    requires forall r: nat :: Reads(d, insn, r) ==> r in t.regs && (r in s.regs ==> t.regs[r] == s.regs[r])
    ensures OperandsDefined(d, insn, t) && PureResult(env, d, insn, t) == PureResult(env, d, insn, s)
  {
    hide Result;
    assert insn.src1 != 0 ==> Reads(d, insn, insn.src1);
    assert insn.src2 != 0 ==> Reads(d, insn, insn.src2);
    assert HasSrc3(insn.op) && insn.other > 0 ==> Reads(d, insn, insn.other);
    ResultFrame(env, d, insn, s, t);
  }

  lemma ResultFrame(env: Env, d: Decl, insn: Insn, s: State, t: State)
    requires insn.op.ALU1? || insn.op.ALU2? || insn.op.ALUI? || insn.op.BFEXT? || insn.op.BFINS? ==>
      Get(s, insn.src1) == Get(t, insn.src1) && Get(s, insn.src2) == Get(t, insn.src2)
    ensures insn.op.ALU1? || insn.op.ALU2? || insn.op.ALUI? || insn.op.BFEXT? || insn.op.BFINS? ==>
      Result(env, d, insn, s) == Result(env, d, insn, t)
  {
    hide Meaning.Eval1, Meaning.Eval2, Meaning.EvalImm, Meaning.EvalExtract, Meaning.EvalInsert;
  }

  lemma FreshStepExec(env: Env, c: Code, regs: seq<Reg>, x: Config, k: int)
    requires SsaOK(c.insns, regs) && Covers(c.decl, c.insns, regs) && FreshHolds(env, c, x) && x.At?
    requires Step(env, c, x).At? && PureDef(c, k)
    requires Fresh(c, k, Point(Step(env, c, x).b, Step(env, c, x).i))
    requires 0 <= x.b < |c.spans| && c.spans[x.b].first <= x.i <= c.spans[x.b].last && 0 <= x.i < |c.insns|
    requires !EndsBlock(c.insns[x.i].op)
    ensures Holds(env, c, k, Step(env, c, x).s)
  {
    hide PureResult;
    var y, insn, p := Step(env, c, x), c.insns[x.i], Point(x.b, x.i);
    StepIsEdge(env, c, x);
    ExecOnlyWritesDest(env, c.decl, insn, x.s);
    var r := c.insns[k].dest;
    assert forall q: nat :: Reads(c.decl, c.insns[k], q) ==> regs[q].birth < k;
    if x.i == k {
      assert !Reads(c.decl, insn, r);
      PureFrame(env, c.decl, insn, x.s, y.s);
    } else {
      FreshBefore(c, k, p, Point(y.b, y.i));
      assert Holds(env, c, k, x.s);
      assert insn.dest != r;
      assert Executes(c, p, x.i);
      PureFrame(env, c.decl, c.insns[k], x.s, y.s);
    }
  }

  lemma FreshStep(env: Env, c: Code, regs: seq<Reg>, order: seq<int>, lastBlock: int, x: Config)
    requires SsaOK(c.insns, regs) && Covers(c.decl, c.insns, regs) && FlowOK(c, order, lastBlock)
    requires FreshHolds(env, c, x)
    ensures FreshHolds(env, c, Step(env, c, x))
  {
    hide Exec, PureResult, SsaOK, Covers, FlowOK, Fresh, Holds, Edge;
    var y := Step(env, c, x);
    if x.At? && y.At? {
      StepIsEdge(env, c, x);
      var p, q := Point(x.b, x.i), Point(y.b, y.i);
      var path :| IsPath(c, path) && Last(path) == p;
      ExtendPath(c, path, q);
      PathInStream(c, order, lastBlock, path, |path| - 1);
      forall k | PureDef(c, k) && Fresh(c, k, q) ensures Holds(env, c, k, y.s) {
        if x.i <= c.spans[x.b].last && !EndsBlock(c.insns[x.i].op) {
          FreshStepExec(env, c, regs, x, k);
        } else {
          FreshBefore(c, k, p, q);
        }
      }
    }
  }

  lemma NothingFreshAtEntry(c: Code, k: int)
    requires 0 <= k < |c.insns| && |c.spans| > 0
    ensures !Fresh(c, k, EntryPoint(c, 0))
  {
    var entry := [EntryPoint(c, 0)];
    assert IsPath(c, entry) && Last(entry) == EntryPoint(c, 0);
    assert !FreshOn(c, k, entry);
  }

  lemma FreshInit(env: Env, c: Code, als: map<int, Value>, mem: Memory)
    ensures FreshHolds(env, c, Init(c, als, mem))
  {
    var x := Init(c, als, mem);
    if x.At? {
      var entry := [EntryPoint(c, 0)];
      assert IsPath(c, entry) && Last(entry) == Point(x.b, x.i);
      forall k | 0 <= k < |c.insns| ensures !Fresh(c, k, Point(x.b, x.i)) { NothingFreshAtEntry(c, k); }
    }
  }

  /** Under freshness of definition k, insn' computes what insn computes. */
  ghost predicate SameWhenFresh(env: Env, c: Code, k: int, insn: Insn, insn': Insn, s: State)
    requires PureDef(c, k) && IsPure(insn.op) && IsPure(insn'.op)
  {
    Holds(env, c, k, s) && OperandsDefined(c.decl, insn, s) && PureResult(env, c.decl, insn, s).Some? ==>
      OperandsDefined(c.decl, insn', s) && PureResult(env, c.decl, insn', s) == PureResult(env, c.decl, insn, s)
  }

  /** Replacing a use of the definition k by an instruction that agrees with it while k is fresh. */
  lemma ReplaceFresh(
    c: Code, regs: seq<Reg>, order: seq<int>, lastBlock: int, k: int, i: nat, insn': Insn)
    requires SsaOK(c.insns, regs) && Covers(c.decl, c.insns, regs) && FlowOK(c, order, lastBlock) && Strict(c)
    requires i < |c.insns| && PureDef(c, k) && IsPure(c.insns[i].op) && IsPure(insn'.op)
    requires insn'.dest == c.insns[i].dest
    requires Reads(c.decl, c.insns[i], c.insns[k].dest)
    requires forall env, s :: SameWhenFresh(env, c, k, c.insns[i], insn', s)
    ensures Refines(c, c.(insns := c.insns[i := insn']))
  {
    var c' := c.(insns := c.insns[i := insn']);
    forall env, als, mem ensures Agree(env, c, Init(c, als, mem), c', Init(c', als, mem)) {
      var inv := x => FreshHolds(env, c, x);
      forall x | inv(x) ensures inv(Step(env, c, x)) { FreshStep(env, c, regs, order, lastBlock, x); }
      forall x | inv(x) && AtInsn(c, i, x) ensures Joins(env, c, c', x) {
        ReplaceFreshStep(env, c, regs, order, lastBlock, k, i, insn', x);
      }
      FreshInit(env, c, als, mem);
      ReplaceInsn(env, c, i, insn', inv, Init(c, als, mem));
    }
  }

  lemma ReplaceFreshStep(
    env: Env, c: Code, regs: seq<Reg>, order: seq<int>, lastBlock: int, k: int, i: nat, insn': Insn, x: Config)
    requires SsaOK(c.insns, regs) && FlowOK(c, order, lastBlock) && Strict(c)
    requires i < |c.insns| && PureDef(c, k) && IsPure(c.insns[i].op) && IsPure(insn'.op)
    requires insn'.dest == c.insns[i].dest
    requires Reads(c.decl, c.insns[i], c.insns[k].dest)
    requires forall env, s :: SameWhenFresh(env, c, k, c.insns[i], insn', s)
    requires FreshHolds(env, c, x) && AtInsn(c, i, x)
    ensures Joins(env, c, c.(insns := c.insns[i := insn']), x)
  {
    FreshAt(env, c, regs, order, lastBlock, k, i, x);
    assert SameWhenFresh(env, c, k, c.insns[i], insn', x.s);
    JoinPure(env, c, k, i, insn', x);
  }

  /** At a use of k's register the definition k is fresh. */
  lemma FreshAt(
    env: Env, c: Code, regs: seq<Reg>, order: seq<int>, lastBlock: int, k: int, i: nat, x: Config)
    requires SsaOK(c.insns, regs) && FlowOK(c, order, lastBlock) && Strict(c) && i < |c.insns| && PureDef(c, k)
    requires Reads(c.decl, c.insns[i], c.insns[k].dest) && FreshHolds(env, c, x) && AtInsn(c, i, x)
    ensures Holds(env, c, k, x.s)
  {
    hide Strict, SsaOK, FlowOK, Fresh, Holds, Reads;
    var p := Point(x.b, x.i);
    var path :| IsPath(c, path) && Last(path) == p;
    PathInStream(c, order, lastBlock, path, |path| - 1);
    DefinitionFresh(c, regs, order, lastBlock, k, p);
  }

  lemma JoinPure(env: Env, c: Code, k: int, i: nat, insn': Insn, x: Config)
    requires i < |c.insns| && PureDef(c, k) && IsPure(c.insns[i].op) && IsPure(insn'.op)
    requires insn'.dest == c.insns[i].dest
    requires x.At? && Holds(env, c, k, x.s) && SameWhenFresh(env, c, k, c.insns[i], insn', x.s) && AtInsn(c, i, x)
    ensures Joins(env, c, c.(insns := c.insns[i := insn']), x)
  {
    hide PureResult, Holds;
    JoinInOneStep(env, c, c.(insns := c.insns[i := insn']), x);
  }

  // ---- The rewrites ----

  /** A use of a vector definition rewritten to take "reg" directly from that definition's operands. */
  datatype Forwarding = Forwarding(insn: Insn, reg: nat)

  /** fold_one_reg_vector's case analysis: "insn" uses, as its first operand, the vector that "def" sets. */
  function Forward(insn: Insn, def: Insn): Option<Forwarding> {
    if insn.op.VEXTRACT? then
      if def.op.VBUILD2? then Some(Extract(insn, if insn.other == 0 then def.src1 else def.src2))
      else if def.op.VBROADCAST? then Some(Extract(insn, def.src1))
      else if def.op.VINSERT? && def.other == insn.other then Some(Extract(insn, def.src2))
      else None
    else if insn.op.VINSERT? then
      if def.op.VBUILD2? then Some(Build(insn, if insn.other == 0 then def.src2 else def.src1))
      else if def.op.VBROADCAST? then Some(Build(insn, def.src1))
      else if def.op.VINSERT? then
        if def.other == insn.other then Some(Forwarding(insn.(src1 := def.src1), def.src1))
        else Some(Build(insn, def.src2))
      else None
    else None
  }

  function Extract(insn: Insn, reg: nat): Forwarding {
    Forwarding(insn.(op := MOVE, src1 := reg, other := 0), reg)
  }

  /** A new vector from the scalar that "insn" inserts and "reg" in the other position. */
  function Build(insn: Insn, reg: nat): Forwarding {
    var (lo, hi) := if insn.other == 0 then (insn.src2, reg) else (reg, insn.src2);
    Forwarding(insn.(op := VBUILD2, src1 := lo, src2 := hi, other := 0), reg)
  }

  /** The rewritten instruction is well-typed, and reads what the original or the definition read. */
  lemma ForwardShape(d: Decl, insn: Insn, def: Insn)
    requires Forward(insn, def).Some? && TypedInsn(d, insn) && TypedInsn(d, def)
    requires insn.src1 == def.dest != 0 && insn.dest != 0 && def.src1 != 0
    ensures var f := Forward(insn, def).value;
      && TypedInsn(d, f.insn) && CleanInsn(d, f.insn) && ResultOp(f.insn.op) && f.insn.src1 != 0
      && f.insn.dest == insn.dest && f.reg != 0 && Reads(d, def, f.reg) && Reads(d, f.insn, f.reg)
      && forall r :: Reads(d, f.insn, r) ==> Reads(d, insn, r) || r == f.reg
  {}

  lemma ForwardSame(env: Env, c: Code, k: int, insn: Insn, s: State)
    requires PureDef(c, k) && Forward(insn, c.insns[k]).Some? && IsPure(insn.op)
    requires TypedInsn(c.decl, insn) && TypedInsn(c.decl, c.insns[k])
    requires insn.src1 == c.insns[k].dest && insn.dest != 0 && c.insns[k].src1 != 0
    ensures SameWhenFresh(env, c, k, insn, Forward(insn, c.insns[k]).value.insn, s)
  {
    var def := c.insns[k];
    var f := Forward(insn, def).value;
    ForwardShape(c.decl, insn, def);
    if Holds(env, c, k, s) && OperandsDefined(c.decl, insn, s) && PureResult(env, c.decl, insn, s).Some? {
      assert Get(s, insn.src1) == s.regs[def.dest];
      assert OperandsDefined(c.decl, def, s) && Reads(c.decl, def, f.reg);
    }
  }

  // ---- Strictness survives ----

  /** Only operands that were read anyway, or that the definition k of an operand reads. */
  ghost predicate ReadsNoMore(c: Code, i: int, insn': Insn, k: int)
    requires 0 <= i < |c.insns| && 0 <= k < |c.insns|
  {
    && !EndsBlock(c.insns[i].op) && !EndsBlock(insn'.op) && insn'.dest == c.insns[i].dest
    && forall r :: Reads(c.decl, insn', r) ==>
         || Reads(c.decl, c.insns[i], r)
         || (Reads(c.decl, c.insns[k], r) && Reads(c.decl, c.insns[i], c.insns[k].dest))
  }

  /** Such operands are still set before their use. */
  lemma StrictKept(c: Code, regs: seq<Reg>, i: int, insn': Insn, k: int)
    requires Strict(c) && SsaOK(c.insns, regs) && 0 <= i < |c.insns| && 0 <= k < |c.insns|
    requires ReadsNoMore(c, i, insn', k)
    ensures Strict(c.(insns := c.insns[i := insn']))
  {
    var c' := c.(insns := c.insns[i := insn']);
    forall path, r {:trigger IsPath(c', path), SetBefore(c', path, r)}
      | IsPath(c', path) && Executes(c', Last(path), Last(path).i) && Reads(c'.decl, c'.insns[Last(path).i], r)
      ensures SetBefore(c', path, r)
    {
      SamePaths(c, i, insn', path);
      var p := Last(path);
      if Reads(c.decl, c.insns[p.i], r) {
        StrictAt(c, path, r);
      } else {
        assert p.i == i && Reads(c.decl, c.insns[k], r);
        StrictAt(c, path, c.insns[k].dest);
        var j :| 0 <= j < |path| - 1 && Sets(c, path[j], c.insns[k].dest);
        PrefixIsPath(c, path, j + 1);
        StrictAt(c, path[..j + 1], r);
        var m :| 0 <= m < j && Sets(c, path[..j + 1][m], r);
        assert Sets(c, path[m], r);
      }
      var n :| 0 <= n < |path| - 1 && Sets(c, path[n], r);
      SameSets(c, i, insn', path[n], r);
    }
  }

  lemma SameSets(c: Code, i: int, insn': Insn, p: Point, r: int)
    requires 0 <= i < |c.insns| && insn'.dest == c.insns[i].dest && Sets(c, p, r)
    ensures Sets(c.(insns := c.insns[i := insn']), p, r)
  {}

  lemma SamePaths(c: Code, i: int, insn': Insn, path: seq<Point>)
    requires 0 <= i < |c.insns| && !EndsBlock(c.insns[i].op) && !EndsBlock(insn'.op)
    requires IsPath(c.(insns := c.insns[i := insn']), path)
    ensures IsPath(c, path)
  {
    forall j | 0 <= j < |path| - 1 ensures Edge(c, path[j], path[j + 1]) {
      assert Edge(c.(insns := c.insns[i := insn']), path[j], path[j + 1]);
    }
  }
}
