/** The invariant every optimization pass preserves, and the lemmas shared by the passes. */
module Invariant {
  import opened Rtl
  import opened Liveness
  import opened Semantics
  import opened Rewrite
  import opened Flow
  import opened BlockEdges
  import opened Unit

  /** A register recorded as constant is set by a LOAD_IMM of its recorded value. */
  ghost predicate ConstOK(d: Decl, insns: seq<Insn>, regs: seq<Reg>) {
    forall r :: 0 < r < |regs| && regs[r].live && regs[r].source.CONSTANT? ==> ConstReg(d, insns, regs, r)
  }

  predicate ConstReg(d: Decl, insns: seq<Insn>, regs: seq<Reg>, r: int)
    requires 0 < r < |regs|
  {
    && 0 <= regs[r].birth < |insns|
    && insns[regs[r].birth].op.LOAD_IMM?
    && insns[regs[r].birth].dest == r
    && regs[r].value >= 0
    && Truncated(TypeOf(d, r), insns[regs[r].birth].other) == Num(regs[r].value)
  }

  /** The edge lists agree with the control flow of the code. */
  ghost predicate Wired(c: Code, edges: seq<Edges>, owner: seq<int>, order: seq<int>)
    requires forall b <- order :: SpanOK(c, b)
  {
    && |c.spans| == |edges| && EdgesOK(edges, owner)
    && forall b <- order :: IsReal(owner, b) && ExitSet(edges[b]) == Successors(c, b)
  }

  /** A finalized unit: well-formed stream, matching edges, exact live ranges (except for the registers in
      "loose", where they are only bounds), truthful constants. */
  ghost predicate WellFormed(
    c: Code, regs: seq<Reg>, edges: seq<Edges>, owner: seq<int>, order: seq<int>, lastBlock: int, loose: set<int>)
  {
    && FlowOK(c, order, lastBlock)
    && Wired(c, edges, owner, order)
    && LiveOK(c.decl, c.insns, regs, loose) && Clean(c.decl, c.insns)
    && ConstOK(c.decl, c.insns, regs)
  }

  ghost predicate UnitOK(unit: RtlUnit)
    reads unit
  {
    WellFormed(unit.Snap(), unit.regs, unit.edges, unit.owner, unit.order, unit.lastBlock, {})
  }

  /** Walking the stream: the k-th block of the order, and the link to the next one. */
  lemma StreamFacts(
    c: Code, regs: seq<Reg>, edges: seq<Edges>, owner: seq<int>, order: seq<int>, lastBlock: int, loose: set<int>,
    k: int)
    requires WellFormed(c, regs, edges, owner, order, lastBlock, loose) && 0 <= k
    ensures |order| > 0 && order[0] == 0
    ensures StreamOK(c, order, lastBlock) && Placed(c, order) && EdgesOK(edges, owner) && |edges| == |c.spans|
    ensures k < |order| ==>
              && SpanOK(c, order[k]) && order[k] in order && IsReal(owner, order[k])
              && c.spans[order[k]].next == (if k + 1 < |order| then order[k + 1] else -1)
    ensures k + 1 < |order| ==> order[k + 1] > 0
  {
    if k < |order| { assert order[k] in order && c.spans[order[k]].next == After(order, k); }
  }

  // ---- Constants at run time ----

  /** Every register that a LOAD_IMM sets holds that immediate once it is set. */
  ghost predicate ImmHolds(c: Code, x: Config) {
    x.At? ==> forall i :: 0 <= i < |c.insns| && c.insns[i].op.LOAD_IMM? && c.insns[i].dest != 0 ==> ImmSet(c, i, x.s)
  }

  predicate ImmSet(c: Code, i: int, s: State)
    requires 0 <= i < |c.insns|
  {
    c.insns[i].dest in s.regs ==>
      s.regs[c.insns[i].dest] == Truncated(TypeOf(c.decl, c.insns[i].dest), c.insns[i].other)
  }

  lemma ExecOnlyWritesDest(env: Env, d: Decl, insn: Insn, s: State)
    requires !EndsBlock(insn.op)
    ensures Exec(env, d, insn, s).Some? ==>
              forall r :: r != insn.dest ==>
                (r in Exec(env, d, insn, s).value.regs <==> r in s.regs)
                && (r in s.regs ==> Exec(env, d, insn, s).value.regs[r] == s.regs[r])
  {
    hide Result;
  }

  lemma ImmStep(env: Env, c: Code, regs: seq<Reg>, x: Config)
    requires SsaOK(c.insns, regs) && ImmHolds(c, x)
    ensures ImmHolds(c, Step(env, c, x))
  {
    hide Result;
    var y := Step(env, c, x);
    if x.At? && y.At? && y.s != x.s {
      var insn := c.insns[x.i];
      assert Exec(env, c.decl, insn, x.s) == Some(y.s);
      ExecOnlyWritesDest(env, c.decl, insn, x.s);
      forall i | 0 <= i < |c.insns| && c.insns[i].op.LOAD_IMM? && c.insns[i].dest != 0 ensures ImmSet(c, i, y.s) {
        assert ImmSet(c, i, x.s);
        if c.insns[i].dest == insn.dest { assert i == x.i; }
      }
    }
  }

  lemma ImmPreserved(env: Env, c: Code, regs: seq<Reg>)
    requires SsaOK(c.insns, regs)
    ensures Preserved(env, c, x => ImmHolds(c, x))
  {
    forall x | ImmHolds(c, x) ensures ImmHolds(c, Step(env, c, x)) { ImmStep(env, c, regs, x); }
  }

  /** A constant register, when defined, holds its recorded value. */
  lemma ConstValue(c: Code, regs: seq<Reg>, r: int, x: Config)
    requires ConstOK(c.decl, c.insns, regs) && 0 < r < |regs| && regs[r].live && regs[r].source.CONSTANT?
    requires x.At? && ImmHolds(c, x)
    ensures regs[r].value >= 0 && (r in x.s.regs ==> x.s.regs[r] == Num(regs[r].value))
  {
    assert ConstReg(c.decl, c.insns, regs, r);
    assert ImmSet(c, regs[r].birth, x.s);
  }

  // ---- Live ranges when an instruction loses operands ----

  /** Registers whose last read was instruction k and which its replacement no longer reads. */
  ghost function Dropped(d: Decl, regs: seq<Reg>, k: int, insn: Insn, insn': Insn): set<int> {
    set r | 0 < r < |regs| && regs[r].death == k && Reads(d, insn, r) && !Reads(d, insn', r)
  }

  lemma DropOperands(d: Decl, insns: seq<Insn>, regs: seq<Reg>, k: int, insn': Insn)
    requires LiveOK(d, insns, regs, {}) && 0 <= k < |insns| && CleanInsn(d, insns[k]) && CleanInsn(d, insn')
    requires insn'.dest == insns[k].dest && !insns[k].op.LABEL?
    requires forall r :: Reads(d, insn', r) ==> Reads(d, insns[k], r)
    ensures LiveOK(d, insns[k := insn'], regs, Dropped(d, regs, k, insns[k], insn'))
    ensures forall r <- Dropped(d, regs, k, insns[k], insn') :: regs[r].live && regs[r].birth < k
  {
    var insns' := insns[k := insn'];
    forall i, r | 0 <= i < |insns'| && Reads(d, insns'[i], r)
      ensures r < |regs| && regs[r].live && regs[r].birth < i <= regs[r].death
    {
      assert Reads(d, insns[i], r);
    }
    forall r | 0 < r < |regs| && r !in Dropped(d, regs, k, insns[k], insn') ensures Tight(d, insns', regs, r) {
      assert Tight(d, insns, regs, r);
    }
  }
}
