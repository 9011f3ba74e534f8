/** What every pass that replaces instructions by NOP keeps. */
module Removal {
  import opened Rtl
  import opened Liveness
  import opened Semantics
  import opened Rewrite
  import opened Flow
  import opened BlockEdges
  import opened Kill
  import opened Invariant

  /** Registers keep their identity while live; only deaths and liveness change. */
  predicate RegsShrink(regs: seq<Reg>, regs': seq<Reg>) {
    |regs'| == |regs| && forall r :: 0 < r < |regs| ==>
      && regs'[r].source == regs[r].source && regs'[r].value == regs[r].value && regs'[r].birth == regs[r].birth
      && (regs'[r].live ==> regs[r].live)
  }

  lemma NopsArePlain(c: Code, c': Code)
    requires c' == c.(insns := c'.insns) && OnlyNops(c.insns, c'.insns)
    requires forall i :: Killed(c.insns, c'.insns, i) ==> IsPlain(c.insns[i].op)
    ensures PlainChange(c, c')
  {
    forall i | 0 <= i < |c.insns|
      ensures c'.insns[i] == c.insns[i] || (IsPlain(c.insns[i].op) && IsPlain(c'.insns[i].op))
    {
      assert c'.insns[i] != c.insns[i] ==> Killed(c.insns, c'.insns, i);
    }
  }

  lemma NopsKeepWellFormed(
    c: Code, regs: seq<Reg>, edges: seq<Edges>, owner: seq<int>, order: seq<int>, lastBlock: int, c': Code,
    regs': seq<Reg>)
    requires WellFormed(c, regs, edges, owner, order, lastBlock, {})
    requires c' == c.(insns := c'.insns) && OnlyNops(c.insns, c'.insns) && RegsShrink(regs, regs')
    requires forall i :: Killed(c.insns, c'.insns, i) ==> IsPlain(c.insns[i].op)
    requires LiveOK(c'.decl, c'.insns, regs', {}) && Clean(c'.decl, c'.insns)
    ensures WellFormed(c', regs', edges, owner, order, lastBlock, {})
  {
    hide Covers, Tight, CleanInsn, StreamOK, Placed, TargetsOK, LabelsOK, EdgesOK;
    NopsArePlain(c, c');
    RewritePlain(c, c', order, lastBlock);
    SpansOfStream(c, order, lastBlock);
    SpansOfStream(c', order, lastBlock);
    forall r | 0 < r < |regs'| && regs'[r].live && regs'[r].source.CONSTANT?
      ensures ConstReg(c'.decl, c'.insns, regs', r) {
      assert ConstReg(c.decl, c.insns, regs, r);
    }
  }

  /** No call or atomic operation of the stream was killed. */
  ghost predicate EffectsKept(c: Code, c': Code, order: seq<int>) {
    forall b, i :: b in order && SpanOK(c, b) && c.spans[b].first <= i <= c.spans[b].last && Killed(c.insns, c'.insns,
      i) ==>
      !HasSideEffect(c.insns[i].op)
  }

  /** The registers whose definitions were killed. */
  function KilledDests(a: seq<Insn>, b: seq<Insn>): set<nat> {
    set i | 0 <= i < |a| && Killed(a, b, i) :: a[i].dest
  }

  /** Killing definitions of registers that are no longer live afterwards preserves the unit's meaning, provided the
      killed instructions of the stream do nothing else. */
  lemma KillsRefine(c: Code, c': Code, regs': seq<Reg>, order: seq<int>, lastBlock: int)
    requires FlowOK(c, order, lastBlock) && Clean(c.decl, c.insns) && c' == c.(insns := c'.insns)
    requires OnlyNops(c.insns, c'.insns) && Covers(c'.decl, c'.insns, regs') && EffectsKept(c, c', order)
    requires forall i :: Killed(c.insns, c'.insns, i) ==> 0 < c.insns[i].dest < |regs'| && !regs'[c.insns[i].dest].live
    ensures Refines(c, c')
  {
    hide FlowOK, Refines;
    var dead := KilledDests(c.insns, c'.insns);
    forall b, i | b in order && SpanOK(c, b) && c.spans[b].first <= i <= c.spans[b].last
      ensures DefRemoved(c, c', dead, i) {
      assert CleanInsn(c.decl, c.insns[i]);
      if Killed(c.insns, c'.insns, i) {
        assert c.insns[i].dest in dead;
      } else {
        forall r: nat | Reads(c.decl, c'.insns[i], r) ensures r !in dead {}
      }
    }
    RemoveDefs(c, c', order, lastBlock, dead);
  }
}
