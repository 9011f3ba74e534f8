/** The elementary rewrites the optimizer is made of, each proved to be a refinement by simulation. */
module Rewrite {
  import opened Rtl
  import opened Semantics
  import opened Flow

  // ---- Removing dead definitions ----

  /** States that agree but for the registers in "dead". */
  ghost predicate SameBut(dead: set<nat>, s: State, t: State) {
    s.als == t.als && s.mem == t.mem && s.regs - dead == t.regs - dead
  }

  lemma SameGet(dead: set<nat>, s: State, t: State, r: int)
    requires SameBut(dead, s, t) && (r >= 0 ==> r !in dead)
    ensures Get(s, r) == Get(t, r)
    ensures r >= 0 ==> (r in s.regs <==> r in t.regs) && (r in s.regs ==> s.regs[r] == t.regs[r])
  {
    if r >= 0 {
      var n: nat := r;
      assert n in s.regs <==> n in s.regs - dead;
      assert n in t.regs <==> n in t.regs - dead;
      if n in s.regs { assert (s.regs - dead)[n] == (t.regs - dead)[n]; }
    }
  }

  lemma SameWrite(dead: set<nat>, s: State, t: State, r: nat, v: Value)
    requires SameBut(dead, s, t)
    ensures SameBut(dead, s.(regs := s.regs[r := v]), t.(regs := t.regs[r := v]))
  {
    var s', t' := s.regs[r := v], t.regs[r := v];
    forall q | q in s' - dead ensures q in t' - dead && (s' - dead)[q] == (t' - dead)[q] { SameGet(dead, s, t, q); }
    forall q | q in t' - dead ensures q in s' - dead { SameGet(dead, s, t, q); }
    assert s' - dead == t' - dead;
  }

  /** The instruction reads no dead register. */
  ghost predicate Spares(d: Decl, insn: Insn, dead: set<nat>) {
    forall r: nat :: Reads(d, insn, r) ==> r !in dead
  }

  /** Executing an instruction that spares the dead registers in states equal off them. */
  lemma ExecFrame(env: Env, decl: Decl, insn: Insn, dead: set<nat>, s: State, t: State)
    requires SameBut(dead, s, t) && 0 !in dead && Spares(decl, insn, dead) && !EndsBlock(insn.op)
    ensures Exec(env, decl, insn, s).None? <==> Exec(env, decl, insn, t).None?
    ensures Exec(env, decl, insn, s).Some? ==>
              SameBut(dead, Exec(env, decl, insn, s).value, Exec(env, decl, insn, t).value)
  {
    hide SameBut, Exec;
    forall r: nat | Reads(decl, insn, r) ensures r in s.regs <==> r in t.regs { SameGet(dead, s, t, r); }
    if insn.op.LABEL? || insn.op.NOP? {
      IdleExec(env, decl, insn, s, t);
    } else {
      SparedOperands(decl, insn, dead);
      SameGet(dead, s, t, insn.src1);
      SameGet(dead, s, t, insn.src2);
      if HasSrc3(insn.op) { SameGet(dead, s, t, insn.other); }
      ExecFrameCases(env, decl, insn, dead, s, t);
    }
  }

  lemma SparedOperands(d: Decl, insn: Insn, dead: set<nat>)
    requires Spares(d, insn, dead) && 0 !in dead && !insn.op.LABEL?
    ensures insn.src1 !in dead && insn.src2 !in dead && (HasSrc3(insn.op) && insn.other >= 0 ==> insn.other !in dead)
  {
    assert insn.src1 != 0 ==> Reads(d, insn, insn.src1);
    assert insn.src2 != 0 ==> Reads(d, insn, insn.src2);
    assert HasSrc3(insn.op) && insn.other > 0 ==> Reads(d, insn, insn.other);
  }

  lemma IdleExec(env: Env, decl: Decl, insn: Insn, s: State, t: State)
    requires insn.op.LABEL? || insn.op.NOP?
    requires OperandsDefined(decl, insn, s) <==> OperandsDefined(decl, insn, t)
    ensures Exec(env, decl, insn, s).None? <==> Exec(env, decl, insn, t).None?
    ensures Exec(env, decl, insn, s).Some? ==>
              Exec(env, decl, insn, s) == Some(s) && Exec(env, decl, insn, t) == Some(t)
  {}

  lemma ExecFrameCases(env: Env, decl: Decl, insn: Insn, dead: set<nat>, s: State, t: State)
    requires SameBut(dead, s, t) && !EndsBlock(insn.op)
    requires OperandsDefined(decl, insn, s) <==> OperandsDefined(decl, insn, t)
    requires Get(s, insn.src1) == Get(t, insn.src1) && Get(s, insn.src2) == Get(t, insn.src2)
    requires HasSrc3(insn.op) ==> Get(s, insn.other) == Get(t, insn.other)
    ensures Exec(env, decl, insn, s).None? <==> Exec(env, decl, insn, t).None?
    ensures Exec(env, decl, insn, s).Some? ==>
              SameBut(dead, Exec(env, decl, insn, s).value, Exec(env, decl, insn, t).value)
  {
    hide Meaning.Eval1, Meaning.Eval2, Meaning.EvalImm, Meaning.EvalExtract, Meaning.EvalInsert;
    if IsPure(insn.op) {
      assert PureResult(env, decl, insn, s) == PureResult(env, decl, insn, t);
    }
    if Exec(env, decl, insn, s).Some? && insn.dest in Exec(env, decl, insn, s).value.regs {
      SameWrite(dead, s, t, insn.dest, Exec(env, decl, insn, s).value.regs[insn.dest]);
    }
  }

  /** An instruction that does nothing but set a register. */
  predicate OnlyDefines(insn: Insn) {
    insn.dest != 0 && !EndsBlock(insn.op) && !HasSideEffect(insn.op) && !insn.op.SET_ALIAS? && !insn.op.STORE?
  }

  lemma ExecWrites(env: Env, decl: Decl, insn: Insn, dead: set<nat>, s: State, t: State)
    requires OnlyDefines(insn) && insn.dest in dead && SameBut(dead, s, t)
    ensures Exec(env, decl, insn, s).Some? ==> SameBut(dead, Exec(env, decl, insn, s).value, t)
  {
    hide PureResult;
    var o := Exec(env, decl, insn, s);
    if o.Some? { assert o.value.regs - dead == s.regs - dead; }
  }

  /** In the blocks of the stream, d lacks some definitions of dead registers, which nothing left there reads. */
  ghost predicate DefsRemoved(c: Code, d: Code, order: seq<int>, dead: set<nat>) {
    && d == c.(insns := d.insns) && |d.insns| == |c.insns| && 0 !in dead
    && forall b, i :: b in order && SpanOK(c, b) && c.spans[b].first <= i <= c.spans[b].last ==>
         DefRemoved(c, d, dead, i)
  }

  ghost predicate DefRemoved(c: Code, d: Code, dead: set<nat>, i: int)
    requires |d.insns| == |c.insns|
  {
    0 <= i < |c.insns| &&
    (|| (d.insns[i] == c.insns[i] && Spares(c.decl, c.insns[i], dead))
     || (d.insns[i] == NopInsn && OnlyDefines(c.insns[i]) && c.insns[i].dest in dead))
  }

  ghost predicate OffDead(dead: set<nat>, x: Config, y: Config) {
    match x
    case At(b, i, s) => y.At? && y.b == b && y.i == i && SameBut(dead, s, y.s)
    case Done(_) => y == x
    case Stuck => true
  }

  lemma OffDeadStep(env: Env, c: Code, d: Code, order: seq<int>, dead: set<nat>, x: Config, y: Config)
    requires DefsRemoved(c, d, order, dead) && InStream(c, order, x) && OffDead(dead, x, y) && x.At?
    ensures OffDead(dead, Step(env, c, x), Step(env, d, y))
  {
    hide Exec, SameBut;
    SameAliases(dead, x.s, y.s);
    if x.i <= c.spans[x.b].last {
      assert DefRemoved(c, d, dead, x.i);
      var insn := c.insns[x.i];
      if d.insns[x.i] != insn {
        LabelDoesNothing(env, c.decl, NopInsn, y.s);
        ExecWrites(env, c.decl, insn, dead, x.s, y.s);
      } else if EndsBlock(insn.op) {
        SparedOperands(c.decl, insn, dead);
        SameGet(dead, x.s, y.s, insn.src1);
      } else {
        ExecFrame(env, c.decl, insn, dead, x.s, y.s);
      }
    }
  }

  lemma SameAliases(dead: set<nat>, s: State, t: State)
    requires SameBut(dead, s, t)
    ensures s.als == t.als && s.mem == t.mem
  {}

  lemma RemoveDefs(c: Code, d: Code, order: seq<int>, lastBlock: int, dead: set<nat>)
    requires FlowOK(c, order, lastBlock) && DefsRemoved(c, d, order, dead)
    ensures Refines(c, d)
  {
    hide FlowOK, DefsRemoved, Agree;
    RemovedSpans(c, d, order, dead);
    forall env, als, mem ensures Agree(env, c, Init(c, als, mem), d, Init(d, als, mem)) {
      var rel := (x, y) => OffDead(dead, x, y) && InStream(c, order, x);
      forall x, y | rel(x, y) && x.At? ensures Matches(env, c, d, rel, x, y) {
        OffDeadStep(env, c, d, order, dead, x, y);
        InStreamStep(env, c, order, lastBlock, x);
        MatchInOneStep(env, c, d, rel, x, y);
      }
      InitInStream(c, order, lastBlock, als, mem);
      Simulation(env, c, d, rel, Init(c, als, mem), Init(d, als, mem));
    }
  }

  lemma RemovedSpans(c: Code, d: Code, order: seq<int>, dead: set<nat>)
    requires DefsRemoved(c, d, order, dead)
    ensures d.spans == c.spans && d.decl == c.decl
  {}

  // ---- Replacing one instruction under an invariant ----

  ghost predicate Preserved(env: Env, c: Code, inv: Config -> bool) {
    forall x :: inv(x) ==> inv(Step(env, c, x))
  }

  /** Both codes reach the same configuration from x, each in at least one step (or c gets stuck). */
  ghost predicate Joins(env: Env, c: Code, d: Code, x: Config) {
    exists i: nat, j: nat :: JoinsIn(env, c, d, x, i, j)
  }

  ghost predicate JoinsIn(env: Env, c: Code, d: Code, x: Config, i: nat, j: nat) {
    i > 0 && j > 0 && (Run(env, c, i, x).Stuck? || Run(env, c, i, x) == Run(env, d, j, x))
  }

  /** x is about to execute instruction k. */
  predicate AtInsn(c: Code, k: int, x: Config) {
    x.At? && x.i == k && 0 <= x.b < |c.spans| && k <= c.spans[x.b].last
  }

  lemma {:induction false} PreservedByRun(env: Env, c: Code, inv: Config -> bool, n: nat, x: Config)
    requires Preserved(env, c, inv) && inv(x)
    ensures inv(Run(env, c, n, x))
  {
    if n > 0 { PreservedByRun(env, c, inv, n - 1, Step(env, c, x)); }
  }

  /** If, under an invariant of c's runs, the replacement of instruction k always rejoins c's run, the
      run of the rewritten code agrees with c's. */
  lemma ReplaceInsn(env: Env, c: Code, k: nat, insn': Insn, inv: Config -> bool, x0: Config)
    requires k < |c.insns| && Preserved(env, c, inv) && inv(x0)
    requires forall x :: inv(x) && AtInsn(c, k, x) ==> Joins(env, c, c.(insns := c.insns[k := insn']), x)
    ensures Agree(env, c, x0, c.(insns := c.insns[k := insn']), x0)
  {
    var c' := c.(insns := c.insns[k := insn']);
    var rel := (x: Config, y: Config) => x == y && inv(x);
    forall x, y | rel(x, y) && x.At? ensures Matches(env, c, c', rel, x, y) {
      if AtInsn(c, k, x) {
        var i: nat, j: nat :| JoinsIn(env, c, c', x, i, j);
        PreservedByRun(env, c, inv, i, x);
        assert MatchesIn(env, c, c', rel, x, y, i, j);
      } else {
        assert Step(env, c, x) == Step(env, c', x);
        MatchInOneStep(env, c, c', rel, x, y);
      }
    }
    Simulation(env, c, c', rel, x0, x0);
  }

  lemma JoinInOneStep(env: Env, c: Code, d: Code, x: Config)
    requires Step(env, c, x).Stuck? || Step(env, c, x) == Step(env, d, x)
    ensures Joins(env, c, d, x)
  {
    assert Run(env, c, 1, x) == Run(env, c, 0, Step(env, c, x)) == Step(env, c, x);
    assert Run(env, d, 1, x) == Run(env, d, 0, Step(env, d, x)) == Step(env, d, x);
    assert JoinsIn(env, c, d, x, 1, 1);
  }

  // ---- Codes that coincide on the blocks a run can reach ----

  /** d treats instruction i as c does: it is unchanged, or a LABEL that became a NOP. */
  predicate SameInsn(c: Code, d: Code, i: int) {
    0 <= i < |c.insns| && i < |d.insns| &&
    (c.insns[i] == d.insns[i] || (c.insns[i].op.LABEL? && (d.insns[i].op.LABEL? || d.insns[i] == NopInsn)))
  }

  /** c and d have the same block b, and control leaves it only for blocks in "keep". */
  ghost predicate CoincideBlock(c: Code, d: Code, keep: set<int>, b: int) {
    && SpanOK(c, b) && b < |d.spans|
    && c.spans[b].first == d.spans[b].first && c.spans[b].last == d.spans[b].last
    && (forall i :: c.spans[b].first <= i <= c.spans[b].last ==>
          && SameInsn(c, d, i)
          && (EndsBlock(c.insns[i].op) ==> i == c.spans[b].last)
          && (IsBranch(c.insns[i].op) ==>
                LabelBlock(c, c.insns[i].other) in keep
                && LabelBlock(c, c.insns[i].other) == LabelBlock(d, c.insns[i].other)))
    && (Falls(c, b) ==>
          || (c.spans[b].next < 0 && d.spans[b].next < 0)
          || (c.spans[b].next in keep && c.spans[b].next == d.spans[b].next))
  }

  /** "keep" contains block 0, is closed under control flow, and c and d coincide on it. */
  ghost predicate CoincideOn(c: Code, d: Code, keep: set<int>) {
    c.decl == d.decl && 0 in keep && forall b <- keep :: CoincideBlock(c, d, keep, b)
  }

  ghost predicate Inside(c: Code, keep: set<int>, x: Config)
  {
    x.At? ==> x.b in keep && SpanOK(c, x.b) && c.spans[x.b].first <= x.i <= c.spans[x.b].last + 1
              && (x.i > c.spans[x.b].last ==> Falls(c, x.b))
  }

  lemma CoincideStep(env: Env, c: Code, d: Code, keep: set<int>, x: Config)
    requires CoincideOn(c, d, keep) && x.At? && Inside(c, keep, x)
    ensures Step(env, c, x) == Step(env, d, x) && Inside(c, keep, Step(env, c, x))
  {
    hide Exec;
    assert CoincideBlock(c, d, keep, x.b);
    assert forall b <- keep :: SpanOK(c, b) && CoincideBlock(c, d, keep, b);
    if x.i <= c.spans[x.b].last {
      assert SameInsn(c, d, x.i);
      if c.insns[x.i].op.LABEL? {
        LabelDoesNothing(env, c.decl, c.insns[x.i], x.s); LabelDoesNothing(env, c.decl, d.insns[x.i], x.s);
      }
    }
  }

  lemma LabelDoesNothing(env: Env, decl: Decl, insn: Insn, s: State)
    requires insn.op.LABEL? || insn == NopInsn
    ensures Exec(env, decl, insn, s) == Some(s)
  {}

  lemma CoincideRefines(c: Code, d: Code, keep: set<int>)
    requires CoincideOn(c, d, keep)
    ensures Refines(c, d)
  {
    forall env, als, mem ensures Agree(env, c, Init(c, als, mem), d, Init(d, als, mem)) {
      var rel := (x: Config, y: Config) => x == y && Inside(c, keep, x);
      forall x, y | rel(x, y) && x.At? ensures Matches(env, c, d, rel, x, y) {
        CoincideStep(env, c, d, keep, x);
        MatchInOneStep(env, c, d, rel, x, y);
      }
      assert Inside(c, keep, Init(c, als, mem));
      Simulation(env, c, d, rel, Init(c, als, mem), Init(d, als, mem));
    }
  }
}
