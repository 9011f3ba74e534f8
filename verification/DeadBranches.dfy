/** rtl_opt_drop_dead_branches: branches to the next block and labels without branches disappear. */
module DeadBranches {
  import opened Rtl
  import opened Liveness
  import opened Semantics
  import opened Rewrite
  import opened Flow
  import opened BlockEdges
  import opened Unit
  import opened Kill
  import opened Invariant
  import opened Removal
  import opened AliasFlow
  import opened DeadBlocks

  // ---- The code without the flags borrowed from its LABELs ----

  function WithoutFlag(insn: Insn): Insn { if insn.op.LABEL? then insn.(src1 := 0) else insn }

  function WithoutFlags(insns: seq<Insn>): (r: seq<Insn>)
    ensures |r| == |insns| && forall i :: 0 <= i < |insns| ==> r[i] == WithoutFlag(insns[i])
  {
    seq(|insns|, i requires 0 <= i < |insns| => WithoutFlag(insns[i]))
  }

  function Unmarked(c: Code): Code { c.(insns := WithoutFlags(c.insns)) }

  lemma UnmarkedSame(c: Code)
    requires Unflagged(c.insns)
    ensures Unmarked(c) == c
  {
    assert WithoutFlags(c.insns) == c.insns;
  }

  // ---- Removing a branch to the next block ----

  predicate BranchesToNext(c: Code, b: int)
    requires SpanOK(c, b)
  {
    EndsInBranch(c, b) && LabelBlock(c, LastInsn(c, b).other) == c.spans[b].next
  }

  lemma ToNextJoins(env: Env, c: Code, order: seq<int>, lastBlock: int, b: int, x: Config)
    requires StreamOK(c, order, lastBlock) && b in order && SpanOK(c, b) && BranchesToNext(c, b)
    requires SpanOK(c, c.spans[b].next)
    requires AtInsn(c, c.spans[b].last, x) && x.b == b
    ensures Joins(env, c, c.(insns := c.insns[c.spans[b].last := NopInsn]), x)
  {
    var k, next := c.spans[b].last, c.spans[b].next;
    var d := c.(insns := c.insns[k := NopInsn]);
    var y := At(b, k + 1, x.s);
    LabelDoesNothing(env, c.decl, NopInsn, x.s);
    assert Step(env, d, x) == y;
    assert Step(env, d, y) == Enter(d, next, x.s) == Enter(c, next, x.s);
    assert Step(env, c, y) == Enter(c, next, x.s);
    TwoSteps(env, d, x);
    if Taken(c.insns[k], x.s) == Some(true) {
      assert Step(env, c, x) == Enter(c, next, x.s);
      assert Run(env, c, 1, x) == Run(env, c, 0, Step(env, c, x));
      assert JoinsIn(env, c, d, x, 1, 2);
    } else {
      JoinInOneStep(env, c, d, x);
    }
  }

  lemma TwoSteps(env: Env, c: Code, x: Config)
    ensures Run(env, c, 2, x) == Step(env, c, Step(env, c, x))
  {
    assert Run(env, c, 2, x) == Run(env, c, 1, Step(env, c, x)) == Run(env, c, 0, Step(env, c, Step(env, c, x)));
  }

  lemma DropBranchRefines(c: Code, order: seq<int>, lastBlock: int, b: int)
    requires FlowOK(c, order, lastBlock) && b in order && SpanOK(c, b) && BranchesToNext(c, b)
    ensures Refines(c, c.(insns := c.insns[c.spans[b].last := NopInsn]))
  {
    hide FlowOK, StreamOK, Joins, BranchesToNext;
    var k := c.spans[b].last;
    FlowGives(c, order, lastBlock);
    NextInStream(c, order, lastBlock, b);
    var c' := c.(insns := c.insns[k := NopInsn]);
    forall env, als, mem ensures Agree(env, c, Init(c, als, mem), c', Init(c', als, mem)) {
      var inv := x => InStream(c, order, x);
      forall x | inv(x) ensures inv(Step(env, c, x)) { InStreamStep(env, c, order, lastBlock, x); }
      forall x | inv(x) && AtInsn(c, k, x) ensures Joins(env, c, c', x) {
        SameBlock(c, order, lastBlock, x.b, b, k);
        ToNextJoins(env, c, order, lastBlock, b, x);
      }
      InitInStream(c, order, lastBlock, als, mem);
      ReplaceInsn(env, c, k, NopInsn, inv, Init(c, als, mem));
    }
  }

  lemma NextInStream(c: Code, order: seq<int>, lastBlock: int, b: int)
    requires FlowOK(c, order, lastBlock) && b in order && SpanOK(c, b) && BranchesToNext(c, b)
    ensures SpanOK(c, c.spans[b].next) && c.spans[b].next in order && 0 <= c.spans[b].last < |c.insns| && !IsEmpty(c, b)
  {
    hide StreamOK, Placed, LabelsOK;
    SpansOfStream(c, order, lastBlock);
  }

  lemma SameBlock(c: Code, order: seq<int>, lastBlock: int, a: int, b: int, k: int)
    requires StreamOK(c, order, lastBlock) && a in order && b in order && SpanOK(c, a) && SpanOK(c, b)
    requires c.spans[a].first <= k <= c.spans[a].last && c.spans[b].first <= k <= c.spans[b].last
    ensures a == b
  {
    if a != b { BlocksDisjoint(c, order, lastBlock, a, b, k); }
  }

  // ---- The first loop ----

  /** One of the first m blocks ends in a branch to label l. */
  ghost predicate Targeted(c: Code, order: seq<int>, m: int, l: int) {
    exists j :: 0 <= j < m && j < |order| && SpanOK(c, order[j]) && EndsInBranch(c, order[j]) && LastInsn(c,
        order[j]).other == l
  }

  predicate IsFlagged(insn: Insn) { insn.op.LABEL? && insn.src1 != 0 }

  /** A LABEL carries the flag iff one of the first m blocks branches to it. */
  ghost predicate FlagsOK(c: Code, order: seq<int>, m: int) {
    && (forall i :: 0 <= i < |c.insns| && IsFlagged(c.insns[i]) ==>
          exists b :: b in order && SpanOK(c, b) && StartsWithLabel(c, b) && c.spans[b].first == i)
    && (forall b <- order :: SpanOK(c, b) && StartsWithLabel(c, b) ==>
          (IsFlagged(c.insns[c.spans[b].first]) <==> Targeted(c, order, m, c.insns[c.spans[b].first].other)))
  }

  ghost predicate NoneToNext(c: Code, order: seq<int>, m: int) {
    forall j :: 0 <= j < m && j < |order| ==> SpanOK(c, order[j]) && !BranchesToNext(c, order[j])
  }

  /** The code with its flags, live ranges and edges: well-formed but for the flags. */
  ghost predicate FlaggedOK(
    c: Code, regs: seq<Reg>, edges: seq<Edges>, owner: seq<int>, order: seq<int>, lastBlock: int)
  {
    && FlowOK(Unmarked(c), order, lastBlock) && Wired(Unmarked(c), edges, owner, order)
    && LiveOK(c.decl, c.insns, regs, {}) && Clean(c.decl, c.insns) && ConstOK(c.decl, c.insns, regs)
  }

  /** How far the code has moved from the original. */
  ghost predicate Shrunk(c0: Code, c: Code, order: seq<int>, dse: bool) {
    && c == c0.(insns := c.insns) && OnlyNops(c0.insns, WithoutFlags(c.insns))
    && (forall i :: Killed(c0.insns, WithoutFlags(c.insns), i) ==> BranchOrRead(c0, i, dse))
    && (EffectsKept(c0, Unmarked(c), order) ==> Refines(c0, Unmarked(c)))
  }

  /** Instruction i is a branch, or (with dse) defines a register that something reads. */
  ghost predicate BranchOrRead(c: Code, i: int, dse: bool) {
    && 0 <= i < |c.insns|
    && (IsBranch(c.insns[i].op) || (dse && c.insns[i].dest != 0 && HasReader(c.decl, c.insns, c.insns[i].dest)))
  }

  ghost predicate BranchState(unit: RtlUnit, c0: Code, regs0: seq<Reg>, m: int, dse: bool)
    reads unit
  {
    && FlaggedOK(unit.Snap(), unit.regs, unit.edges, unit.owner, unit.order, unit.lastBlock)
    && 0 <= m <= |unit.order| && FlagsOK(unit.Snap(), unit.order, m) && NoneToNext(unit.Snap(), unit.order, m)
    && Shrunk(c0, unit.Snap(), unit.order, dse) && RegsShrink(regs0, unit.regs)
  }

  lemma SameSpans(c: Code, b: int)
    ensures SpanOK(Unmarked(c), b) == SpanOK(c, b)
    ensures SpanOK(c, b) ==>
              LastInsn(Unmarked(c), b) == WithoutFlag(LastInsn(c, b))
                  && EndsInBranch(Unmarked(c), b) == EndsInBranch(c, b)
    ensures SpanOK(c, b) ==>
              Successors(Unmarked(c), b) == Successors(c, b) && StartsWithLabel(Unmarked(c), b) == StartsWithLabel(c, b)
    ensures SpanOK(c, b) && EndsInBranch(c, b) ==> LastInsn(Unmarked(c), b) == LastInsn(c, b)
  {}

  // Raising a flag.

  function Flagged(c: Code, k: int): Code
    requires 0 <= k < |c.insns|
  {
    c.(insns := c.insns[k := c.insns[k].(src1 := 1)])
  }

  lemma FlagLive(d: Decl, insns: seq<Insn>, regs: seq<Reg>, k: int)
    requires LiveOK(d, insns, regs, {}) && Clean(d, insns) && ConstOK(d, insns, regs) && 0 <= k < |insns|
    requires insns[k].op.LABEL?
    ensures var insns' := insns[k := insns[k].(src1 := 1)];
      LiveOK(d, insns', regs, {}) && Clean(d, insns') && ConstOK(d, insns', regs)
  {
    var insns' := insns[k := insns[k].(src1 := 1)];
    assert CleanInsn(d, insns[k]);
    forall i, r | 0 <= i < |insns'| && Reads(d, insns'[i], r)
      ensures r < |regs| && regs[r].live && regs[r].birth < i <= regs[r].death
    {
      assert Reads(d, insns[i], r);
    }
    forall r | 0 < r < |regs| ensures Tight(d, insns', regs, r) { assert Tight(d, insns, regs, r); }
    forall r | 0 < r < |regs| && regs[r].live && regs[r].source.CONSTANT? ensures ConstReg(d, insns', regs, r) {
      assert ConstReg(d, insns, regs, r);
    }
  }

  lemma FlagView(c: Code, k: int)
    requires 0 <= k < |c.insns| && c.insns[k].op.LABEL?
    ensures Unmarked(Flagged(c, k)) == Unmarked(c)
  {
    assert WithoutFlags(Flagged(c, k).insns) == WithoutFlags(c.insns);
  }

  lemma FlaggedSpans(c: Code, k: int, b: int)
    requires 0 <= k < |c.insns| && c.insns[k].op.LABEL? && SpanOK(c, b)
    ensures SpanOK(Flagged(c, k), b)
    ensures EndsInBranch(Flagged(c, k), b) == EndsInBranch(c, b)
    ensures EndsInBranch(c, b) ==> LastInsn(Flagged(c, k), b) == LastInsn(c, b)
    ensures StartsWithLabel(Flagged(c, k), b) == StartsWithLabel(c, b)
    ensures BranchesToNext(Flagged(c, k), b) == BranchesToNext(c, b)
  {}

  lemma TargetedSame(c: Code, d: Code, order: seq<int>, m: int, l: int)
    requires forall b <- order :: SpanOK(c, b) && SpanOK(d, b)
    requires forall b <- order :: EndsInBranch(d, b) == EndsInBranch(c, b)
    requires forall b <- order :: EndsInBranch(c, b) ==> LastInsn(d, b).other == LastInsn(c, b).other
    ensures Targeted(d, order, m, l) <==> Targeted(c, order, m, l)
  {
    if Targeted(c, order, m, l) {
      var j :| 0 <= j < m && j < |order| && EndsInBranch(c, order[j]) && LastInsn(c, order[j]).other == l;
      assert order[j] in order;
    }
    if Targeted(d, order, m, l) {
      var j :| 0 <= j < m && j < |order| && EndsInBranch(d, order[j]) && LastInsn(d, order[j]).other == l;
      assert order[j] in order;
    }
  }

  lemma TargetedNext(c: Code, order: seq<int>, m: int, l: int)
    requires 0 <= m < |order| && SpanOK(c, order[m])
    ensures Targeted(c, order, m + 1, l) <==>
              Targeted(c, order, m, l) || (EndsInBranch(c, order[m]) && LastInsn(c, order[m]).other == l)
  {
    var next := m + 1;
    if Targeted(c, order, m, l) {
      var j :| 0 <= j < m && j < |order| && SpanOK(c, order[j]) && EndsInBranch(c, order[j])
        && LastInsn(c, order[j]).other == l;
      assert 0 <= j < next;
    }
  }

  lemma FlagsRaised(c: Code, order: seq<int>, lastBlock: int, m: int, t: int, l: int)
    requires FlowOK(Unmarked(c), order, lastBlock) && FlagsOK(c, order, m) && 0 <= m < |order| && SpanOK(c, order[m])
    requires EndsInBranch(c, order[m]) && LastInsn(c, order[m]).other == l && t == LabelBlock(c, l)
    ensures t in order && SpanOK(c, t) && StartsWithLabel(c, t)
    ensures FlagsOK(Flagged(c, c.spans[t].first), order, m + 1)
  {
    hide FlowOK, LastInsn, EndsInBranch;
    BranchLabel(c, order, lastBlock, order[m]);
    var k := c.spans[t].first;
    var d := Flagged(c, k);
    forall b | b in order ensures SpanOK(c, b) && SpanOK(d, b) {
      SpansOfFlow(Unmarked(c), order, lastBlock);
      SameSpans(c, b);
      FlaggedSpans(c, k, b);
    }
    forall b | b in order
      ensures EndsInBranch(d, b) == EndsInBranch(c, b) && StartsWithLabel(d, b) == StartsWithLabel(c, b)
      ensures EndsInBranch(c, b) ==> LastInsn(d, b) == LastInsn(c, b)
    {
      FlaggedSpans(c, k, b);
    }
    forall b | b in order && StartsWithLabel(d, b)
      ensures IsFlagged(d.insns[d.spans[b].first]) <==> Targeted(d, order, m + 1, d.insns[d.spans[b].first].other)
    {
      var l' := c.insns[c.spans[b].first].other;
      TargetedSame(c, d, order, m + 1, l');
      TargetedNext(c, order, m, l');
      LabelOf(c, order, lastBlock, b);
    }
    forall i | 0 <= i < |d.insns| && IsFlagged(d.insns[i])
      ensures exists b :: b in order && SpanOK(d, b) && StartsWithLabel(d, b) && d.spans[b].first == i
    {
      if i == k {
        assert SpanOK(d, t) && StartsWithLabel(d, t);
      } else {
        var b :| b in order && SpanOK(c, b) && StartsWithLabel(c, b) && c.spans[b].first == i;
        assert SpanOK(d, b) && StartsWithLabel(d, b);
      }
    }
  }

  /** The label a branch of the stream names. */
  lemma BranchLabel(c: Code, order: seq<int>, lastBlock: int, b: int)
    requires FlowOK(Unmarked(c), order, lastBlock) && b in order && SpanOK(c, b) && EndsInBranch(c, b)
    ensures var l := LastInsn(c, b).other; var t := LabelBlock(c, l);
      && 0 < l < |c.labels| && t in order && SpanOK(c, t) && StartsWithLabel(c, t)
      && c.insns[c.spans[t].first].other == l
    ensures !IsEmpty(c, b) && (IsConditional(LastInsn(c, b).op) ==> c.spans[b].next >= 0)
  {
    hide StreamOK, Placed;
    SpansOfStream(Unmarked(c), order, lastBlock);
    SameSpans(c, b);
    var l := LastInsn(c, b).other;
    assert LabelBlock(Unmarked(c), LastInsn(Unmarked(c), b).other) in order;
    SameSpans(c, LabelBlock(c, l));
  }

  /** Labels and blocks of the stream correspond. */
  lemma LabelOf(c: Code, order: seq<int>, lastBlock: int, b: int)
    requires FlowOK(Unmarked(c), order, lastBlock) && b in order && SpanOK(c, b) && StartsWithLabel(c, b)
    ensures var l := c.insns[c.spans[b].first].other; 0 < l < |c.labels| && c.labels[l] == b
  {
    hide StreamOK, Placed, TargetsOK;
    SpansOfStream(Unmarked(c), order, lastBlock);
    SameSpans(c, b);
  }

  // Killing a branch.

  /** c' is c without the branch k and without some definitions. */
  ghost predicate OnlyDefsDie(c: Code, c': Code, k: int) {
    && c' == c.(insns := c'.insns) && |c'.insns| == |c.insns| && 0 <= k < |c.insns| && c'.insns[k] == NopInsn
    && IsBranch(c.insns[k].op)
    && forall i :: 0 <= i < |c.insns| ==>
         c'.insns[i] == c.insns[i] || (c'.insns[i] == NopInsn && (i == k || IsPlain(c.insns[i].op)))
  }

  lemma DefsDieBlock(c: Code, c': Code, order: seq<int>, lastBlock: int, k: int, b: int, a: int)
    requires OnlyDefsDie(c, c', k) && StreamOK(c, order, lastBlock) && a in order && b in order && a != b
    requires SpanOK(c, b) && k == c.spans[b].last && !IsEmpty(c, b)
    ensures SpanOK(c, a) && SpanOK(c', a) && EndsInBranch(c', a) == EndsInBranch(c, a)
    ensures EndsInBranch(c, a) ==> LastInsn(c', a) == LastInsn(c, a)
    ensures BranchesToNext(c', a) == BranchesToNext(c, a)
  {
    if !IsEmpty(c, b) { BlocksDisjoint(c, order, lastBlock, a, b, k); }
  }

  lemma DefsDieLabels(c: Code, c': Code, k: int, b: int)
    requires OnlyDefsDie(c, c', k) && SpanOK(c, b)
    ensures SpanOK(c', b) && StartsWithLabel(c', b) == StartsWithLabel(c, b)
    ensures StartsWithLabel(c, b) ==> c'.insns[c'.spans[b].first] == c.insns[c.spans[b].first]
    ensures forall i :: 0 <= i < |c.insns| && IsFlagged(c'.insns[i]) ==> IsFlagged(c.insns[i])
    ensures k == c.spans[b].last && !IsEmpty(c, b) ==> !EndsInBranch(c', b) && !BranchesToNext(c', b)
  {}

  lemma StreamOfView(c: Code, order: seq<int>, lastBlock: int)
    requires FlowOK(Unmarked(c), order, lastBlock)
    ensures StreamOK(c, order, lastBlock) && forall b <- order :: SpanOK(c, b)
  {
    hide StreamOK;
    FlowGives(Unmarked(c), order, lastBlock);
    SameSpansStream(Unmarked(c), c, order, lastBlock);
    SpansOfStream(c, order, lastBlock);
  }

  lemma FlagsAfterKill(c: Code, c': Code, order: seq<int>, lastBlock: int, m: int)
    requires FlowOK(Unmarked(c), order, lastBlock) && FlagsOK(c, order, m) && NoneToNext(c, order, m)
    requires 0 <= m < |order| && SpanOK(c, order[m]) && EndsInBranch(c, order[m])
    requires OnlyDefsDie(c, c', c.spans[order[m]].last)
    ensures FlagsOK(c', order, m + 1) && NoneToNext(c', order, m + 1)
  {
    hide FlowOK, StreamOK, LastInsn, EndsInBranch, BranchesToNext, OnlyDefsDie;
    var b, k := order[m], c.spans[order[m]].last;
    StreamOfView(c, order, lastBlock);
    BranchLabel(c, order, lastBlock, b);
    DefsDieLabels(c, c', k, b);
    forall a | a in order
      ensures SpanOK(c, a) && SpanOK(c', a) && StartsWithLabel(c', a) == StartsWithLabel(c, a)
      ensures a != b ==> EndsInBranch(c', a) == EndsInBranch(c, a) && BranchesToNext(c', a) == BranchesToNext(c, a)
      ensures a != b && EndsInBranch(c, a) ==> LastInsn(c', a) == LastInsn(c, a)
    {
      DefsDieLabels(c, c', k, a);
      if a != b { DefsDieBlock(c, c', order, lastBlock, k, b, a); }
    }
    forall j | 0 <= j < m ensures order[j] != b && order[j] in order { DistinctInOrder(c, order, lastBlock, j, m); }
    forall a | a in order && StartsWithLabel(c', a)
      ensures IsFlagged(c'.insns[c'.spans[a].first]) <==> Targeted(c', order, m + 1, c'.insns[c'.spans[a].first].other)
    {
      DefsDieLabels(c, c', k, a);
      TargetedKilled(c, c', order, m, c.insns[c.spans[a].first].other);
    }
    forall i | 0 <= i < |c'.insns| && IsFlagged(c'.insns[i])
      ensures exists a :: a in order && SpanOK(c', a) && StartsWithLabel(c', a) && c'.spans[a].first == i
    {
      SameCodeSpans(c, c', k);
      var a :| a in order && SpanOK(c, a) && StartsWithLabel(c, a) && c.spans[a].first == i;
      assert SpanOK(c', a) && StartsWithLabel(c', a);
    }
  }

  lemma SameCodeSpans(c: Code, c': Code, k: int)
    requires OnlyDefsDie(c, c', k)
    ensures c'.spans == c.spans && |c'.insns| == |c.insns|
  {}

  lemma TargetedKilled(c: Code, c': Code, order: seq<int>, m: int, l: int)
    requires 0 <= m < |order| && SpanOK(c', order[m]) && !EndsInBranch(c', order[m])
    requires forall j :: 0 <= j < m ==>
               SpanOK(c, order[j]) && SpanOK(c', order[j]) && EndsInBranch(c', order[j]) == EndsInBranch(c, order[j])
    requires forall j :: 0 <= j < m && EndsInBranch(c, order[j]) ==> LastInsn(c', order[j]) == LastInsn(c, order[j])
    ensures Targeted(c', order, m + 1, l) <==> Targeted(c, order, m, l)
  {
    hide LastInsn, EndsInBranch;
    TargetedNext(c', order, m, l);
    if Targeted(c, order, m, l) {
      var j :| 0 <= j < m && j < |order| && SpanOK(c, order[j]) && EndsInBranch(c, order[j])
        && LastInsn(c, order[j]).other == l;
      assert EndsInBranch(c', order[j]);
    }
    if Targeted(c', order, m, l) {
      var j :| 0 <= j < m && j < |order| && SpanOK(c', order[j]) && EndsInBranch(c', order[j])
        && LastInsn(c', order[j]).other == l;
      assert EndsInBranch(c, order[j]);
    }
  }

  lemma KilledFlow(c: Code, c': Code, edges: seq<Edges>, owner: seq<int>, order: seq<int>, lastBlock: int, b: int)
    requires FlowOK(Unmarked(c), order, lastBlock) && (forall b <- order :: SpanOK(Unmarked(c), b))
    requires Wired(Unmarked(c), edges, owner, order)
    requires b in order && SpanOK(c, b) && BranchesToNext(c, b) && OnlyDefsDie(c, c', c.spans[b].last)
    ensures FlowOK(Unmarked(c'), order, lastBlock) && (forall b <- order :: SpanOK(Unmarked(c'), b))
    ensures Wired(Unmarked(c'), edges, owner, order)
  {
    hide FlowOK, EdgesOK, ExitSet, LastInsn;
    BranchLabel(c, order, lastBlock, b);
    var v := Unmarked(c);
    SameSpans(c, b);
    var k := c.spans[b].last;
    var mid := v.(insns := v.insns[k := NopInsn]);
    RewriteLast(v, order, lastBlock, b, NopInsn);
    DefsDieView(c, c', k);
    RewritePlain(mid, Unmarked(c'), order, lastBlock);
    SpansOfFlow(Unmarked(c'), order, lastBlock);
    SpansOfFlow(mid, order, lastBlock);
    ToNextSuccessors(v, order, lastBlock, b);
  }

  lemma DefsDieView(c: Code, c': Code, k: int)
    requires OnlyDefsDie(c, c', k)
    ensures PlainChange(Unmarked(c).(insns := Unmarked(c).insns[k := NopInsn]), Unmarked(c'))
  {}

  lemma ToNextSuccessors(c: Code, order: seq<int>, lastBlock: int, b: int)
    requires FlowOK(c, order, lastBlock) && b in order && SpanOK(c, b) && BranchesToNext(c, b)
    ensures SpanOK(c.(insns := c.insns[c.spans[b].last := NopInsn]), b)
    ensures Successors(c.(insns := c.insns[c.spans[b].last := NopInsn]), b) == Successors(c, b)
  {
    hide FlowOK;
    NextInStream(c, order, lastBlock, b);
  }

  lemma KilledCode(c: Code, c': Code, regs: seq<Reg>, regs': seq<Reg>, k: int, ignoreFexc: bool, dse: bool)
    requires 0 <= k < |c.insns| && IsBranch(c.insns[k].op) && Clean(c.decl, c.insns)
    requires Released(WithoutInsn(c, k), c', WithoutDest(regs, c.insns[k]), regs', k, ignoreFexc, dse,
                      Operands(c.decl, c.insns[k]))
    ensures OnlyDefsDie(c, c', k) && RegsShrink(regs, regs') && OnlyNops(WithoutInsn(c, k).insns, c'.insns)
    ensures forall i :: Killed(WithoutInsn(c, k).insns, c'.insns, i) ==> DiesWith(c, regs', i, dse)
  {
    hide Operands, CleanInsn, HasReader;
    assert CleanInsn(c.decl, c.insns[k]);
    BranchHasNoDest(c.decl, c.insns[k]);
    var c1 := WithoutInsn(c, k);
    forall i | 0 <= i < |c.insns|
      ensures c'.insns[i] == c.insns[i] || (c'.insns[i] == NopInsn && (i == k || IsPlain(c.insns[i].op)))
      ensures Killed(c1.insns, c'.insns, i) ==> DiesWith(c, regs', i, dse)
    {
      if Killed(c1.insns, c'.insns, i) { KilledReader(c, c', k, i); }
    }
  }

  lemma BranchHasNoDest(d: Decl, insn: Insn)
    requires CleanInsn(d, insn) && IsBranch(insn.op)
    ensures insn.dest == 0
  {}

  /** A definition killed along with branch k was read, by the branch or by another killed definition. */
  lemma KilledReader(c: Code, c': Code, k: int, i: int)
    requires 0 <= k < |c.insns| && IsBranch(c.insns[k].op) && Clean(c.decl, c.insns)
    requires 0 <= i < |c.insns| && Killed(WithoutInsn(c, k).insns, c'.insns, i) && c.insns[i].dest != 0
    requires var r := c.insns[i].dest;
      r in Operands(c.decl, c.insns[k]) || ReadByKilled(c.decl, WithoutInsn(c, k).insns, c'.insns, r)
    ensures HasReader(c.decl, c.insns, c.insns[i].dest) && IsPlain(c.insns[i].op) && i != k
  {
    var c1, r := WithoutInsn(c, k), c.insns[i].dest;
    assert CleanInsn(c.decl, c.insns[k]) && CleanInsn(c.decl, c.insns[i]);
    OperandsAreReads(c.decl, c.insns[k], r);
    if ReadByKilled(c.decl, c1.insns, c'.insns, r) {
      var j :| Killed(c1.insns, c'.insns, j) && Reads(c.decl, c1.insns[j], r);
      assert Reads(c.decl, c.insns[j], r);
    }
  }

  /** Instruction i defines a register that was read and, by regs', is no longer live. */
  ghost predicate DiesWith(c: Code, regs': seq<Reg>, i: int, dse: bool) {
    && 0 <= i < |c.insns| && 0 < c.insns[i].dest < |regs'| && !regs'[c.insns[i].dest].live
    && dse && HasReader(c.decl, c.insns, c.insns[i].dest)
  }

  /** The code after the branch, before the definitions that die with it. */
  function MidView(c: Code, k: int): Code
    requires 0 <= k < |c.insns|
  {
    Unmarked(c).(insns := Unmarked(c).insns[k := NopInsn])
  }

  lemma MidFlow(c: Code, order: seq<int>, lastBlock: int, b: int)
    requires FlowOK(Unmarked(c), order, lastBlock) && b in order && SpanOK(c, b) && BranchesToNext(c, b)
    ensures 0 <= c.spans[b].last < |c.insns| && FlowOK(MidView(c, c.spans[b].last), order, lastBlock)
    ensures Refines(Unmarked(c), MidView(c, c.spans[b].last))
  {
    hide FlowOK, LastInsn, Refines;
    SameSpans(c, b);
    BranchLabel(c, order, lastBlock, b);
    RewriteLast(Unmarked(c), order, lastBlock, b, NopInsn);
    DropBranchRefines(Unmarked(c), order, lastBlock, b);
  }

  lemma MidKills(c: Code, c': Code, regs': seq<Reg>, order: seq<int>, lastBlock: int, k: int, dse: bool)
    requires 0 <= k < |c.insns| && FlowOK(MidView(c, k), order, lastBlock) && Clean(c.decl, c.insns)
    requires OnlyDefsDie(c, c', k)
    requires Covers(c'.decl, c'.insns, regs') && EffectsKept(MidView(c, k), Unmarked(c'), order)
    requires forall i :: Killed(WithoutInsn(c, k).insns, c'.insns, i) ==> DiesWith(c, regs', i, dse)
    ensures Refines(MidView(c, k), Unmarked(c'))
  {
    hide FlowOK, Refines;
    var mid, v := MidView(c, k), Unmarked(c');
    forall i | 0 <= i < |mid.insns|
      ensures CleanInsn(mid.decl, mid.insns[i]) && (v.insns[i] == mid.insns[i] || v.insns[i] == NopInsn)
    {
      assert CleanInsn(c.decl, c.insns[i]);
    }
    forall i, r | 0 <= i < |v.insns| && Reads(v.decl, v.insns[i], r)
      ensures r < |regs'| && regs'[r].live && regs'[r].birth < i <= regs'[r].death
    {
      assert Reads(c'.decl, c'.insns[i], r);
    }
    forall i | Killed(mid.insns, v.insns, i) ensures 0 < mid.insns[i].dest < |regs'| && !regs'[mid.insns[i].dest].live {
      assert c'.insns[i] == NopInsn && Killed(WithoutInsn(c, k).insns, c'.insns, i);
    }
    KillsRefine(mid, v, regs', order, lastBlock);
  }

  lemma KilledRefines(c0: Code, c: Code, c': Code, regs': seq<Reg>, order: seq<int>, lastBlock: int, b: int, dse: bool)
    requires FlowOK(Unmarked(c), order, lastBlock) && b in order && SpanOK(c, b) && BranchesToNext(c, b)
    requires Clean(c.decl, c.insns)
    requires Shrunk(c0, c, order, dse) && 0 <= c.spans[b].last < |c.insns| && OnlyDefsDie(c, c', c.spans[b].last)
    requires Covers(c'.decl, c'.insns, regs')
    requires forall i :: Killed(WithoutInsn(c, c.spans[b].last).insns, c'.insns, i) ==> DiesWith(c, regs', i, dse)
    ensures Shrunk(c0, c', order, dse)
  {
    hide Refines, FlowOK, LastInsn, Covers, CleanInsn;
    var k := c.spans[b].last;
    MidFlow(c, order, lastBlock, b);
    KilledKinds(c0, c, c', regs', order, k, dse);
    if EffectsKept(c0, Unmarked(c'), order) {
      MidEffects(c0, c, c', order, k, dse);
      MidKills(c, c', regs', order, lastBlock, k, dse);
      RefinesTransitive(c0, Unmarked(c), MidView(c, k));
      RefinesTransitive(c0, MidView(c, k), Unmarked(c'));
    }
  }

  lemma KilledKinds(c0: Code, c: Code, c': Code, regs': seq<Reg>, order: seq<int>, k: int, dse: bool)
    requires Shrunk(c0, c, order, dse) && OnlyDefsDie(c, c', k)
    requires forall i :: Killed(WithoutInsn(c, k).insns, c'.insns, i) ==> DiesWith(c, regs', i, dse)
    ensures c' == c0.(insns := c'.insns) && OnlyNops(c0.insns, WithoutFlags(c'.insns))
    ensures forall i :: Killed(c0.insns, WithoutFlags(c'.insns), i) ==> BranchOrRead(c0, i, dse)
  {
    hide Refines;
    forall i | Killed(c0.insns, WithoutFlags(c'.insns), i) ensures BranchOrRead(c0, i, dse) {
      if !Killed(c0.insns, WithoutFlags(c.insns), i) && i != k {
        assert WithoutFlag(c.insns[i]) == c0.insns[i] && c'.insns[i] == NopInsn;
        assert Killed(WithoutInsn(c, k).insns, c'.insns, i);
        var j :| 0 <= j < |c.insns| && Reads(c.decl, c.insns[j], c.insns[i].dest);
        assert c0.insns[j] == WithoutFlags(c.insns)[j];
      }
    }
  }

  lemma MidEffects(c0: Code, c: Code, c': Code, order: seq<int>, k: int, dse: bool)
    requires Shrunk(c0, c, order, dse) && OnlyDefsDie(c, c', k) && EffectsKept(c0, Unmarked(c'), order)
    ensures EffectsKept(c0, Unmarked(c), order) && EffectsKept(MidView(c, k), Unmarked(c'), order)
  {
    hide Refines;
    forall b, i | b in order && SpanOK(c0, b) && c0.spans[b].first <= i <= c0.spans[b].last
      && Killed(c0.insns, Unmarked(c).insns, i)
      ensures !HasSideEffect(c0.insns[i].op)
    {
      assert Killed(c0.insns, Unmarked(c').insns, i);
    }
    forall b, i | b in order && SpanOK(MidView(c, k), b)
      && MidView(c, k).spans[b].first <= i <= MidView(c, k).spans[b].last
                  && Killed(MidView(c, k).insns, Unmarked(c').insns, i)
      ensures !HasSideEffect(MidView(c, k).insns[i].op)
    {
      assert c0.insns[i] == Unmarked(c).insns[i];
      assert SpanOK(c0, b) && Killed(c0.insns, Unmarked(c').insns, i);
    }
  }

  lemma KilledConst(c: Code, c': Code, regs: seq<Reg>, regs': seq<Reg>, k: int)
    requires ConstOK(c.decl, c.insns, regs) && OnlyDefsDie(c, c', k) && RegsShrink(regs, regs')
    requires SsaOK(c'.insns, regs')
    ensures ConstOK(c'.decl, c'.insns, regs')
  {
    forall r | 0 < r < |regs'| && regs'[r].live && regs'[r].source.CONSTANT?
      ensures ConstReg(c'.decl, c'.insns, regs', r) {
      assert ConstReg(c.decl, c.insns, regs, r);
    }
  }

  lemma RegsShrinkTwice(a: seq<Reg>, b: seq<Reg>, c: seq<Reg>)
    requires RegsShrink(a, b) && RegsShrink(b, c)
    ensures RegsShrink(a, c)
  {}

  lemma BranchOpen(unit: RtlUnit, c0: Code, regs0: seq<Reg>, m: int, b: int, dse: bool)
    requires BranchState(unit, c0, regs0, m, dse) && m < |unit.order| && b == unit.order[m]
    ensures b in unit.order && SpanOK(unit.Snap(), b) && FlowOK(Unmarked(unit.Snap()), unit.order, unit.lastBlock)
    ensures LiveOK(unit.decl, unit.insns, unit.regs, {}) && Clean(unit.decl, unit.insns)
    ensures unit.spans[b].next == After(unit.order, m)
    ensures EndsInBranch(unit.Snap(), b) ==>
              var insn := unit.insns[unit.spans[b].last];
              && 0 <= insn.other < |unit.labels| && LabelBlock(unit.Snap(), insn.other) == unit.labels[insn.other]
              && 0 <= unit.labels[insn.other] < |unit.spans| && IsBranch(insn.op) && insn.dest == 0
              && 0 <= unit.spans[unit.labels[insn.other]].first < |unit.insns|
              && unit.insns[unit.spans[unit.labels[insn.other]].first].op.LABEL?
  {
    hide FlowOK, LiveOK, ConstOK, Wired, FlagsOK, NoneToNext, Shrunk;
    StreamOfView(unit.Snap(), unit.order, unit.lastBlock);
    LinksOf(unit.Snap(), unit.order, unit.lastBlock, m);
    if EndsInBranch(unit.Snap(), b) {
      BranchLabel(unit.Snap(), unit.order, unit.lastBlock, b);
      assert CleanInsn(unit.decl, unit.insns[unit.spans[b].last]);
    }
  }

  lemma FlagClose(
    unit: RtlUnit, c: Code, regs: seq<Reg>, edges: seq<Edges>, owner: seq<int>, order: seq<int>, lastBlock: int,
    c0: Code, regs0: seq<Reg>, m: int, k: int, dse: bool)
    requires FlaggedOK(c, regs, edges, owner, order, lastBlock) && 0 <= m < |order| && FlagsOK(c, order, m)
    requires NoneToNext(c, order, m) && Shrunk(c0, c, order, dse) && RegsShrink(regs0, regs)
    requires SpanOK(c, order[m]) && order[m] in order && EndsInBranch(c, order[m]) && !BranchesToNext(c, order[m])
    requires var t := LabelBlock(c, LastInsn(c, order[m]).other); 0 <= t < |c.spans| && k == c.spans[t].first
    requires 0 <= k < |c.insns| && c.insns[k].op.LABEL?
    requires unit.Snap() == Flagged(c, k) && unit.regs == regs && unit.edges == edges && unit.owner == owner
    requires unit.order == order && unit.lastBlock == lastBlock
    ensures BranchState(unit, c0, regs0, m + 1, dse)
  {
    hide FlowOK, Wired, LiveOK, Clean, ConstOK, FlagsOK, Refines, BranchesToNext;
    FlagLive(c.decl, c.insns, regs, k);
    FlagView(c, k);
    var l := LastInsn(c, order[m]).other;
    FlagsRaised(c, order, lastBlock, m, LabelBlock(c, l), l);
    StreamOfView(c, order, lastBlock);
    forall j | 0 <= j < m + 1 ensures SpanOK(Flagged(c, k), order[j]) && !BranchesToNext(Flagged(c, k), order[j]) {
      FlaggedSpans(c, k, order[j]);
    }
  }

  lemma KillClose(
    unit: RtlUnit, c: Code, regs: seq<Reg>, edges: seq<Edges>, owner: seq<int>, order: seq<int>, lastBlock: int,
    c0: Code, regs0: seq<Reg>, m: int, k: int, ignoreFexc: bool, dse: bool)
    requires FlaggedOK(c, regs, edges, owner, order, lastBlock) && 0 <= m < |order| && FlagsOK(c, order, m)
    requires NoneToNext(c, order, m) && Shrunk(c0, c, order, dse) && RegsShrink(regs0, regs)
    requires SpanOK(c, order[m]) && order[m] in order && BranchesToNext(c, order[m]) && k == c.spans[order[m]].last
    requires 0 <= k < |c.insns| && IsBranch(c.insns[k].op)
    requires Released(WithoutInsn(c, k), unit.Snap(), WithoutDest(regs, c.insns[k]), unit.regs, k, ignoreFexc, dse,
                      Operands(c.decl, c.insns[k]))
    requires LiveOK(unit.decl, unit.insns, unit.regs, {}) && Clean(unit.decl, unit.insns)
    requires unit.edges == edges && unit.owner == owner && unit.order == order && unit.lastBlock == lastBlock
    ensures BranchState(unit, c0, regs0, m + 1, dse)
  {
    hide FlowOK, Wired, Covers, Tight, Clean, ConstOK, FlagsOK, NoneToNext, Released, SsaOK, OnlyDefsDie, Shrunk,
      EndsInBranch;
    var c' := unit.Snap();
    KilledCode(c, c', regs, unit.regs, k, ignoreFexc, dse);
    SpansOfFlow(Unmarked(c), order, lastBlock);
    KilledFlow(c, c', edges, owner, order, lastBlock, order[m]);
    KilledRefines(c0, c, c', unit.regs, order, lastBlock, order[m], dse);
    KilledConst(c, c', regs, unit.regs, k);
    FlagsAfterKill(c, c', order, lastBlock, m);
    RegsShrinkTwice(regs0, regs, unit.regs);
    SameCodeSpans(c, c', k);
  }

  lemma SkipClose(unit: RtlUnit, c0: Code, regs0: seq<Reg>, m: int, dse: bool)
    requires BranchState(unit, c0, regs0, m, dse) && m < |unit.order|
    requires SpanOK(unit.Snap(), unit.order[m]) && !EndsInBranch(unit.Snap(), unit.order[m])
    ensures BranchState(unit, c0, regs0, m + 1, dse)
  {
    hide FlaggedOK, Shrunk, RegsShrink, EndsInBranch, LastInsn;
    var c := unit.Snap();
    forall b | b in unit.order && SpanOK(c, b) && StartsWithLabel(c, b)
      ensures IsFlagged(c.insns[c.spans[b].first]) <==> Targeted(c, unit.order, m + 1, c.insns[c.spans[b].first].other)
    {
      TargetedNext(c, unit.order, m, c.insns[c.spans[b].first].other);
    }
  }

  lemma BranchParts(unit: RtlUnit, c0: Code, regs0: seq<Reg>, m: int, dse: bool)
    requires BranchState(unit, c0, regs0, m, dse)
    ensures FlaggedOK(unit.Snap(), unit.regs, unit.edges, unit.owner, unit.order, unit.lastBlock)
    ensures 0 <= m <= |unit.order| && FlagsOK(unit.Snap(), unit.order, m) && NoneToNext(unit.Snap(), unit.order, m)
    ensures Shrunk(c0, unit.Snap(), unit.order, dse) && RegsShrink(regs0, unit.regs)
  {}

  // ---- What dies with the branches ----

  /** So far every floating-point operation that may raise an exception has stayed, and (with dse) no register has come
      to be set in vain but by such an operation. */
  ghost predicate Tidy(
    insns0: seq<Insn>, regs0: seq<Reg>, insns: seq<Insn>, regs: seq<Reg>, ignoreFexc: bool, dse: bool)
  {
    && |insns| == |insns0| && |regs| == |regs0|
    && (forall i :: 0 <= i < |insns| && insns0[i].op == FPU && !ignoreFexc ==> insns[i] == insns0[i])
    && (dse ==>
          forall r :: 0 < r < |regs| && regs[r].live && regs[r].death == regs[r].birth ==>
            || (regs0[r].live && regs0[r].death == regs0[r].birth)
            || (0 <= regs[r].birth < |insns| && insns[regs[r].birth].op == FPU && !ignoreFexc))
  }

  lemma TidyLabels(
    insns0: seq<Insn>, regs0: seq<Reg>, insns: seq<Insn>, insns': seq<Insn>, regs: seq<Reg>, ignoreFexc: bool,
    dse: bool)
    requires Tidy(insns0, regs0, insns, regs, ignoreFexc, dse) && |insns'| == |insns|
    requires forall i :: 0 <= i < |insns| ==> insns[i].op.LABEL? || insns'[i] == insns[i]
    requires forall i :: 0 <= i < |insns| && insns[i].op.LABEL? ==> !insns0[i].op.FPU?
    ensures Tidy(insns0, regs0, insns', regs, ignoreFexc, dse)
  {}

  lemma TidyKill(
    insns0: seq<Insn>, regs0: seq<Reg>, c: Code, regs: seq<Reg>, c': Code, regs': seq<Reg>, k: int, ignoreFexc: bool,
    dse: bool, seeds: set<int>)
    requires Tidy(insns0, regs0, c.insns, regs, ignoreFexc, dse) && 0 <= k < |c.insns| && IsBranch(c.insns[k].op)
    requires c.insns[k].dest == 0 && SsaOK(c'.insns, regs')
    requires Released(WithoutInsn(c, k), c', WithoutDest(regs, c.insns[k]), regs', k, ignoreFexc, dse, seeds)
    ensures Tidy(insns0, regs0, c'.insns, regs', ignoreFexc, dse)
  {
    var c1 := WithoutInsn(c, k);
    forall i | 0 <= i < |c'.insns| && insns0[i].op == FPU && !ignoreFexc ensures c'.insns[i] == insns0[i] {
      assert c1.insns[i] == c.insns[i];
      if c'.insns[i] == NopInsn { assert Killed(c1.insns, c'.insns, i); }
    }
    if dse {
      forall r | 0 < r < |regs'| && regs'[r].live && regs'[r].death == regs'[r].birth
        ensures || (regs0[r].live && regs0[r].death == regs0[r].birth)
                || (0 <= regs'[r].birth < |c'.insns| && c'.insns[regs'[r].birth].op == FPU && !ignoreFexc)
      {
        assert c'.insns[regs'[r].birth].dest == r;
        assert c'.insns[regs'[r].birth] == c.insns[regs'[r].birth];
      }
    }
  }

  /** A definition that is still read has stayed. */
  lemma ReadStays(c0: Code, regs0: seq<Reg>, c: Code, regs: seq<Reg>, i: int)
    requires SsaOK(c0.insns, regs0) && SsaOK(c.insns, regs) && Covers(c.decl, c.insns, regs)
    requires OnlyNops(c0.insns, c.insns) && 0 <= i < |c0.insns| && c0.insns[i].dest != 0
    ensures HasReader(c.decl, c.insns, c0.insns[i].dest) ==> c.insns[i] == c0.insns[i]
  {
    var r := c0.insns[i].dest;
    if HasReader(c.decl, c.insns, r) {
      var j :| 0 <= j < |c.insns| && Reads(c.decl, c.insns[j], r);
      assert c.insns[regs[r].birth].dest == r;
      assert c0.insns[regs[r].birth].dest == r;
    }
  }

  /** A live register that was read and no longer is, is set by an operation that may raise an exception. */
  lemma LeftLive(c0: Code, regs0: seq<Reg>, c: Code, regs: seq<Reg>, ignoreFexc: bool, r: int)
    requires Covers(c0.decl, c0.insns, regs0) && Tidy(c0.insns, regs0, c.insns, regs, ignoreFexc, true)
    requires LiveOK(c.decl, c.insns, regs, {1}) && Clean(c.decl, c.insns) && Unflagged(c.insns)
    requires 1 < r < |regs| && regs[r].live && HasReader(c0.decl, c0.insns, r) && !HasReader(c.decl, c.insns, r)
    ensures 0 <= regs[r].birth < |c.insns| && c.insns[regs[r].birth].op == FPU && !ignoreFexc
  {
    var j :| 0 <= j < |c0.insns| && Reads(c0.decl, c0.insns[j], r);
    assert regs0[r].birth < j <= regs0[r].death;
    assert Tight(c.decl, c.insns, regs, r) && CleanInsn(c.decl, c.insns[regs[r].death]);
    assert !Reads(c.decl, c.insns[regs[r].death], r);
    assert regs[r].death == regs[r].birth;
  }

  /** With dse, exactly the definitions that lost all their readers are gone, except those that may raise an exception;
      register 1 is apart. */
  lemma DeadDefinitions(
    c0: Code, regs0: seq<Reg>, c: Code, regs: seq<Reg>, ignoreFexc: bool, dse: bool, i: int)
    requires LiveOK(c0.decl, c0.insns, regs0, {}) && Tidy(c0.insns, regs0, c.insns, regs, ignoreFexc, dse)
    requires LiveOK(c.decl, c.insns, regs, {1}) && Clean(c.decl, c.insns) && Unflagged(c.insns)
    requires OnlyNops(c0.insns, c.insns) && 0 <= i < |c0.insns| && c0.insns[i].dest > 1
    requires Killed(c0.insns, c.insns, i) ==> dse && HasReader(c0.decl, c0.insns, c0.insns[i].dest)
    ensures Killed(c0.insns, c.insns, i) <==> DefinitionDies(c0, c, ignoreFexc, dse, i)
  {
    hide Covers, Tight, Clean, HasReader;
    ReadStays(c0, regs0, c, regs, i);
    if DefinitionDies(c0, c, ignoreFexc, dse, i) && regs[c0.insns[i].dest].live {
      LeftLive(c0, regs0, c, regs, ignoreFexc, c0.insns[i].dest);
    }
  }

  /** With dse: instruction i set a register that something read and nothing reads any more, and could not raise an
      exception that matters. */
  ghost predicate DefinitionDies(c0: Code, c: Code, ignoreFexc: bool, dse: bool, i: int) {
    && dse && 0 <= i < |c0.insns| && !(c0.insns[i].op == FPU && !ignoreFexc)
    && HasReader(c0.decl, c0.insns, c0.insns[i].dest) && !HasReader(c.decl, c.insns, c0.insns[i].dest)
  }

  lemma TidyKilled(
    c0: Code, regs0: seq<Reg>, c: Code, regs: seq<Reg>, c': Code, regs': seq<Reg>, k: int, ignoreFexc: bool, dse: bool)
    requires Tidy(c0.insns, regs0, c.insns, regs, ignoreFexc, dse) && 0 <= k < |c.insns| && IsBranch(c.insns[k].op)
    requires c.insns[k].dest == 0 && LiveOK(c'.decl, c'.insns, regs', {})
    requires Released(WithoutInsn(c, k), c', WithoutDest(regs, c.insns[k]), regs', k, ignoreFexc, dse,
                      Operands(c.decl, c.insns[k]))
    ensures Tidy(c0.insns, regs0, c'.insns, regs', ignoreFexc, dse)
  {
    hide Tidy, Released, Covers, Tight, SsaOK, Operands;
    TidyKill(c0.insns, regs0, c, regs, c', regs', k, ignoreFexc, dse, Operands(c.decl, c.insns[k]));
  }

  lemma TidyMarked(
    c0: Code, regs0: seq<Reg>, c: Code, regs: seq<Reg>, insns': seq<Insn>, k: int, order: seq<int>, ignoreFexc: bool,
    dse: bool)
    requires Tidy(c0.insns, regs0, c.insns, regs, ignoreFexc, dse) && Shrunk(c0, c, order, dse)
    requires 0 <= k < |c.insns| && c.insns[k].op.LABEL? && insns' == c.insns[k := c.insns[k].(src1 := 1)]
    ensures Tidy(c0.insns, regs0, insns', regs, ignoreFexc, dse)
  {
    hide Refines, BranchOrRead, Tidy;
    forall i | 0 <= i < |c.insns| && c.insns[i].op.LABEL? ensures !c0.insns[i].op.FPU? {
      assert WithoutFlags(c.insns)[i] == WithoutFlag(c.insns[i]);
    }
    TidyLabels(c0.insns, regs0, c.insns, insns', regs, ignoreFexc, dse);
  }

  /** The body of the first loop. */
  method DropBranch(
    unit: RtlUnit, b: int, ignoreFexc: bool, dse: bool, ghost c0: Code, ghost regs0: seq<Reg>, ghost m: int)
    requires BranchState(unit, c0, regs0, m, dse) && m < |unit.order| && b == unit.order[m]
    requires Tidy(c0.insns, regs0, unit.insns, unit.regs, ignoreFexc, dse)
    modifies unit`insns, unit`regs, unit`labels
    ensures BranchState(unit, c0, regs0, m + 1, dse)
    ensures Tidy(c0.insns, regs0, unit.insns, unit.regs, ignoreFexc, dse)
  {
    hide BranchState, FlaggedOK, FlagsOK, NoneToNext, Shrunk, LiveOK, Clean, FlowOK, RegsShrink, Released, Operands,
      Tidy;
    BranchOpen(unit, c0, regs0, m, b, dse);
    BranchParts(unit, c0, regs0, m, dse);
    ghost var c, regs := unit.Snap(), unit.regs;
    if unit.spans[b].last >= unit.spans[b].first && IsBranch(unit.insns[unit.spans[b].last].op) {
      var k := unit.spans[b].last;
      var target := unit.labels[unit.insns[k].other];
      if target == unit.spans[b].next {
        KillInsn(unit, k, ignoreFexc, dse, {});
        KillClose(unit, c, regs, unit.edges, unit.owner, unit.order, unit.lastBlock, c0, regs0, m, k, ignoreFexc, dse);
        TidyKilled(c0, regs0, c, regs, unit.Snap(), unit.regs, k, ignoreFexc, dse);
      } else {
        var first := unit.spans[target].first;
        unit.insns := unit.insns[first := unit.insns[first].(src1 := 1)];
        FlagClose(unit, c, regs, unit.edges, unit.owner, unit.order, unit.lastBlock, c0, regs0, m, first, dse);
        TidyMarked(c0, regs0, c, regs, unit.insns, first, unit.order, ignoreFexc, dse);
      }
    } else {
      SkipClose(unit, c0, regs0, m, dse);
    }
  }

  lemma BranchStart(unit: RtlUnit, dse: bool)
    requires UnitOK(unit)
    ensures BranchState(unit, unit.Snap(), unit.regs, 0, dse) && |unit.order| > 0 && unit.order[0] == 0
  {
    hide StreamOK, Placed, TargetsOK, EdgesOK, ConstOK, Covers, Tight, Clean, Refines;
    var c := unit.Snap();
    SpansOfOrder(c, unit.order, unit.lastBlock);
    UnmarkedSame(c);
    RefinesSelf(c);
  }

  /** The first loop of rtl_opt_drop_dead_branches. */
  method DropBranches(unit: RtlUnit, ignoreFexc: bool, dse: bool)
    requires UnitOK(unit)
    modifies unit`insns, unit`regs, unit`labels
    ensures BranchState(unit, old(unit.Snap()), old(unit.regs), |unit.order|, dse)
    ensures Tidy(old(unit.insns), old(unit.regs), unit.insns, unit.regs, ignoreFexc, dse)
  {
    hide BranchState, WellFormed;
    ghost var c0, regs0 := unit.Snap(), unit.regs;
    BranchStart(unit, dse);
    var b := 0;
    ghost var m := 0;
    while b >= 0
      invariant 0 <= m <= |unit.order| && b == (if m < |unit.order| then unit.order[m] else -1)
      invariant BranchState(unit, c0, regs0, m, dse)
      invariant Tidy(c0.insns, regs0, unit.insns, unit.regs, ignoreFexc, dse)
      decreases |unit.order| - m
    {
      BranchPosition(unit, c0, regs0, m, dse);
      DropBranch(unit, b, ignoreFexc, dse, c0, regs0, m);
      BranchNext(unit, c0, regs0, m, dse);
      b := unit.spans[b].next;
      m := m + 1;
    }
    BranchPosition(unit, c0, regs0, m, dse);
  }

  lemma BranchPosition(unit: RtlUnit, c0: Code, regs0: seq<Reg>, m: int, dse: bool)
    requires BranchState(unit, c0, regs0, m, dse)
    ensures m < |unit.order| ==> unit.order[m] >= 0
  {
    hide FlowOK, LiveOK, ConstOK, Wired, FlagsOK, NoneToNext, Shrunk;
    SpansOfFlow(Unmarked(unit.Snap()), unit.order, unit.lastBlock);
    assert m < |unit.order| ==> unit.order[m] in unit.order;
  }

  lemma BranchNext(unit: RtlUnit, c0: Code, regs0: seq<Reg>, m: int, dse: bool)
    requires BranchState(unit, c0, regs0, m + 1, dse) && 0 <= m < |unit.order|
    ensures 0 <= unit.order[m] < |unit.spans| && unit.spans[unit.order[m]].next == After(unit.order, m)
    ensures m + 1 < |unit.order| ==> unit.order[m + 1] >= 0
  {
    hide FlowOK, LiveOK, ConstOK, Wired, FlagsOK, NoneToNext, Shrunk;
    StreamOfView(unit.Snap(), unit.order, unit.lastBlock);
    LinksOf(unit.Snap(), unit.order, unit.lastBlock, m);
    assert m + 1 < |unit.order| ==> unit.order[m + 1] in unit.order;
  }

  // ---- The second loop ----

  /** Label l is mapped to a block whose LABEL carries no flag. */
  predicate Unused(c: Code, l: int) {
    && 0 < l < |c.labels| && 0 <= c.labels[l] < |c.spans|
    && 0 <= c.spans[c.labels[l]].first < |c.insns| && !IsFlagged(c.insns[c.spans[c.labels[l]].first])
  }

  /** The code once the labels below n have been treated: their flags are cleared, the unused ones are gone. */
  ghost predicate LabelsDone(c1: Code, c: Code, n: int) {
    && c == c1.(insns := c.insns, labels := c.labels) && |c.insns| == |c1.insns| && |c.labels| == |c1.labels|
    && (forall l :: 0 <= l < |c.labels| ==> c.labels[l] == if l < n && Unused(c1, l) then -1 else c1.labels[l])
    && (forall i :: 0 <= i < |c.insns| ==>
          c.insns[i] == if PlacedBelow(c1, i,
                                       n) then (if IsFlagged(c1.insns[i]) then WithoutFlag(c1.insns[i]) else NopInsn)
                        else c1.insns[i])
  }

  /** Instruction i is the LABEL of a mapped label below n. */
  predicate PlacedBelow(c: Code, i: int, n: int)
    requires 0 <= i < |c.insns|
  {
    var l := c.insns[i].other;
    && c.insns[i].op.LABEL? && 0 < l < n && l < |c.labels|
    && 0 <= c.labels[l] < |c.spans| && c.spans[c.labels[l]].first == i
  }

  /** Mapped labels stand first in their blocks. */
  predicate MappedToLabels(c: Code) {
    forall l :: 0 < l < |c.labels| && c.labels[l] >= 0 ==>
      && c.labels[l] < |c.spans| && 0 <= c.spans[c.labels[l]].first < |c.insns|
      && c.insns[c.spans[c.labels[l]].first].op.LABEL? && c.insns[c.spans[c.labels[l]].first].other == l
      && CleanInsn(c.decl, c.insns[c.spans[c.labels[l]].first])
  }

  lemma LabelStep(c1: Code, c: Code, n: int, c': Code)
    requires MappedToLabels(c1) && LabelsDone(c1, c, n) && 0 < n < |c1.labels|
    requires c1.labels[n] < 0 ==> c' == c
    requires c1.labels[n] >= 0 ==>
               var k := c1.spans[c1.labels[n]].first;
               c' == if IsFlagged(c1.insns[k]) then c.(insns := c.insns[k := WithoutFlag(c1.insns[k])])
                     else c.(insns := c.insns[k := NopInsn], labels := c.labels[n := -1])
    ensures LabelsDone(c1, c', n + 1)
  {
    forall i | 0 <= i < |c'.insns|
      ensures c'.insns[i]
                == if PlacedBelow(c1, i,
                                  n + 1) then (if IsFlagged(c1.insns[i]) then WithoutFlag(c1.insns[i]) else NopInsn)
                             else c1.insns[i]
    {
      assert PlacedBelow(c1, i, n + 1) <==>
          PlacedBelow(c1, i, n) || (c1.labels[n] >= 0 && i == c1.spans[c1.labels[n]].first);
    }
  }

  lemma LabelAtWork(c1: Code, c: Code, n: int)
    requires MappedToLabels(c1) && LabelsDone(c1, c, n) && 0 < n < |c1.labels|
    ensures |c.labels| == |c1.labels| && c.labels[n] == c1.labels[n] && c.spans == c1.spans && |c.insns| == |c1.insns|
    ensures c1.labels[n] >= 0 ==>
              var k := c1.spans[c1.labels[n]].first;
              && c1.labels[n] < |c.spans| && 0 <= k < |c.insns| && c.insns[k] == c1.insns[k] && c.insns[k].op.LABEL?
              && (c.insns[k].src1 == 0 ==> c.insns[k].(op := NOP, other := 0) == NopInsn)
  {
    if c1.labels[n] >= 0 { assert !PlacedBelow(c1, c1.spans[c1.labels[n]].first, n); }
  }

  /** The second loop of rtl_opt_drop_dead_branches. */
  method DropLabels(unit: RtlUnit)
    requires MappedToLabels(unit.Snap())
    modifies unit`insns, unit`labels
    ensures LabelsDone(old(unit.Snap()), unit.Snap(), |unit.labels|)
  {
    hide LabelsDone, MappedToLabels;
    ghost var c1 := unit.Snap();
    NoLabelsDone(c1);
    var i := 1;
    while i < |unit.labels|
      invariant 1 <= i && |unit.labels| == |c1.labels| && (i <= |unit.labels| || |unit.labels| <= 1)
      invariant LabelsDone(c1, unit.Snap(), i)
    {
      ghost var c := unit.Snap();
      LabelAtWork(c1, c, i);
      var block := unit.labels[i];
      if block >= 0 {
        var k := unit.spans[block].first;
        if unit.insns[k].src1 != 0 {
          unit.insns := unit.insns[k := unit.insns[k].(src1 := 0)];
        } else {
          unit.insns := unit.insns[k := unit.insns[k].(op := NOP, other := 0)];
          unit.labels := unit.labels[i := -1];
        }
      }
      LabelStep(c1, c, i, unit.Snap());
      i := i + 1;
    }
    AllLabelsDone(c1, unit.Snap(), i);
  }

  lemma NoLabelsDone(c: Code)
    ensures LabelsDone(c, c, 1)
  {}

  lemma AllLabelsDone(c1: Code, c: Code, n: int)
    requires LabelsDone(c1, c, n) && n >= |c1.labels|
    ensures LabelsDone(c1, c, |c1.labels|)
  {
    assert forall i :: 0 <= i < |c1.insns| ==> PlacedBelow(c1, i, n) == PlacedBelow(c1, i, |c1.labels|);
  }

  // ---- The result ----

  /** What the two loops leave of one instruction. */
  lemma DoneInsn(c1: Code, c: Code, i: int)
    requires LabelsDone(c1, c, |c1.labels|) && 0 <= i < |c1.insns| && CleanInsn(c1.decl, c1.insns[i])
    ensures |c.insns| == |c1.insns| && |c.labels| == |c1.labels| && c.spans == c1.spans && c.decl == c1.decl
    ensures c1.insns[i].op.LABEL? || c.insns[i] == c1.insns[i]
    ensures c1.insns[i].op.LABEL? ==>
              && (c.insns[i] == c1.insns[i] || c.insns[i] == WithoutFlag(c1.insns[i]) || c.insns[i] == NopInsn)
              && (IsFlagged(c1.insns[i]) ==> c.insns[i].op.LABEL? && c.insns[i].other == c1.insns[i].other)
              && (PlacedBelow(c1, i, |c1.labels|) && !IsFlagged(c1.insns[i]) ==> c.insns[i] == NopInsn)
              && (PlacedBelow(c1, i, |c1.labels|) && IsFlagged(c1.insns[i]) ==> c.insns[i].src1 == 0)
    ensures CleanInsn(c.decl, c.insns[i])
  {}

  lemma DoneBlock(c1: Code, c: Code, b: int)
    requires LabelsDone(c1, c, |c1.labels|) && SpanOK(c1, b) && Clean(c1.decl, c1.insns)
    ensures SpanOK(c, b) && EndsInBranch(c, b) == EndsInBranch(c1, b)
    ensures Falls(c, b) == Falls(Unmarked(c1), b) && SpanOK(Unmarked(c1), b)
    ensures EndsInBranch(c1, b) ==> LastInsn(c, b) == LastInsn(c1, b)
    ensures PlacedIn(Unmarked(c1), b) ==> PlacedIn(c, b)
    ensures StartsWithLabel(c, b) ==>
              StartsWithLabel(c1, b) && c.insns[c.spans[b].first].other == c1.insns[c.spans[b].first].other
    ensures StartsWithLabel(c1, b) && IsFlagged(c1.insns[c1.spans[b].first]) ==> StartsWithLabel(c, b)
  {
    hide LabelsDone;
    DoneSpans(c1, c);
    forall i | 0 <= i < |c1.insns|
      ensures c1.insns[i].op.LABEL? || c.insns[i] == c1.insns[i]
      ensures c1.insns[i].op.LABEL? ==>
                && (c.insns[i] == c1.insns[i] || c.insns[i] == WithoutFlag(c1.insns[i]) || c.insns[i] == NopInsn)
                && (IsFlagged(c1.insns[i]) ==> c.insns[i].op.LABEL? && c.insns[i].other == c1.insns[i].other)
    {
      assert CleanInsn(c1.decl, c1.insns[i]);
      DoneInsn(c1, c, i);
    }
  }

  lemma DoneSpans(c1: Code, c: Code)
    requires LabelsDone(c1, c, |c1.labels|)
    ensures |c.insns| == |c1.insns| && c.spans == c1.spans && c.decl == c1.decl && |c.labels| == |c1.labels|
    ensures forall l :: 0 <= l < |c.labels| ==> c.labels[l] == if Unused(c1, l) then -1 else c1.labels[l]
  {}

  ghost predicate LoopsDone(c1: Code, c: Code, order: seq<int>, lastBlock: int) {
    && FlowOK(Unmarked(c1), order, lastBlock) && Clean(c1.decl, c1.insns)
    && FlagsOK(c1, order, |order|) && LabelsDone(c1, c, |c1.labels|)
  }

  lemma LoopsOpen(c1: Code, c: Code, order: seq<int>, lastBlock: int)
    requires LoopsDone(c1, c, order, lastBlock)
    ensures FlowOK(Unmarked(c1), order, lastBlock) && Clean(c1.decl, c1.insns) && LabelsDone(c1, c, |c1.labels|)
    ensures StreamOK(c1, order, lastBlock) && (forall b <- order :: SpanOK(c1, b)) && FlagsOK(c1, order, |order|)
    ensures |c.insns| == |c1.insns| && c.spans == c1.spans && c.decl == c1.decl && |c.labels| == |c1.labels|
  {
    hide FlowOK, StreamOK, Clean, FlagsOK;
    StreamOfView(c1, order, lastBlock);
    DoneSpans(c1, c);
  }

  /** The label of a surviving branch is still mapped. */
  lemma BranchMapped(c1: Code, c: Code, order: seq<int>, lastBlock: int, b: int)
    requires LoopsDone(c1, c, order, lastBlock) && b in order && SpanOK(c1, b) && EndsInBranch(c1, b)
    ensures LabelBlock(c, LastInsn(c1, b).other) == LabelBlock(c1, LastInsn(c1, b).other)
    ensures LabelBlock(c, LastInsn(c1, b).other) in order
  {
    hide LoopsDone, FlowOK, StreamOK, Clean, LabelsDone, LastInsn, EndsInBranch;
    LoopsOpen(c1, c, order, lastBlock);
    BranchLabel(c1, order, lastBlock, b);
    DoneSpans(c1, c);
    var l := LastInsn(c1, b).other;
    var j :| 0 <= j < |order| && order[j] == b;
    assert Targeted(c1, order, |order|, l);
  }

  /** A label still mapped belongs to a flagged LABEL of the stream. */
  lemma MappedFlagged(c1: Code, c: Code, order: seq<int>, lastBlock: int, l: int)
    requires LoopsDone(c1, c, order, lastBlock) && 0 < l < |c.labels| && c.labels[l] >= 0
    ensures var t := c.labels[l];
      && t == c1.labels[l] && t in order && SpanOK(c1, t) && StartsWithLabel(c1, t)
      && c1.insns[c1.spans[t].first].other == l
      && IsFlagged(c1.insns[c1.spans[t].first]) && Targeted(c1, order, |order|, l)
  {
    hide LoopsDone, FlowOK, StreamOK, Clean, LabelsDone;
    LoopsOpen(c1, c, order, lastBlock);
    DoneSpans(c1, c);
    LabelFacts(Unmarked(c1), order, lastBlock, l, 0);
    SameSpans(c1, c.labels[l]);
  }

  lemma DoneUnflagged(c1: Code, c: Code, order: seq<int>, lastBlock: int)
    requires LoopsDone(c1, c, order, lastBlock)
    ensures Unflagged(c.insns)
  {
    hide LoopsDone, FlowOK, StreamOK, LabelsDone;
    LoopsOpen(c1, c, order, lastBlock);
    forall i | 0 <= i < |c.insns| && c.insns[i].op.LABEL? ensures c.insns[i].src1 == 0 {
      assert CleanInsn(c1.decl, c1.insns[i]);
      DoneInsn(c1, c, i);
      if IsFlagged(c1.insns[i]) {
        var b :| b in order && SpanOK(c1, b) && StartsWithLabel(c1, b) && c1.spans[b].first == i;
        LabelOf(c1, order, lastBlock, b);
        assert PlacedBelow(c1, i, |c1.labels|);
      }
    }
  }

  lemma DoneLabels(c1: Code, c: Code, order: seq<int>, lastBlock: int)
    requires LoopsDone(c1, c, order, lastBlock)
    ensures (forall b <- order :: SpanOK(c, b)) && LabelsOK(c, order)
  {
    hide LoopsDone, FlowOK, StreamOK, LabelsDone;
    LoopsOpen(c1, c, order, lastBlock);
    DoneUnflagged(c1, c, order, lastBlock);
    DoneSpans(c1, c);
    LabelFacts(Unmarked(c1), order, lastBlock, 0, 0);
    forall b | b in order ensures LabelAt(c, b) {
      DoneBlock(c1, c, b);
      if StartsWithLabel(c, b) {
        LabelOf(c1, order, lastBlock, b);
        var k := c1.spans[b].first;
        assert CleanInsn(c1.decl, c1.insns[k]);
        DoneInsn(c1, c, k);
        assert PlacedBelow(c1, k, |c1.labels|);
        assert c.labels[c1.insns[k].other] == b;
      }
    }
    forall l | 0 < l < |c.labels| && c.labels[l] >= 0 ensures LabelEntry(c, order, l) {
      MappedFlagged(c1, c, order, lastBlock, l);
      DoneBlock(c1, c, c.labels[l]);
    }
  }

  lemma DoneFlow(c1: Code, c: Code, order: seq<int>, lastBlock: int)
    requires LoopsDone(c1, c, order, lastBlock)
    ensures FlowOK(c, order, lastBlock)
    ensures forall b <- order ::
              SpanOK(c, b) && SpanOK(Unmarked(c1), b) && Successors(c, b) == Successors(Unmarked(c1), b)
  {
    hide LoopsDone, FlowOK, StreamOK, LabelsDone, LastInsn, EndsInBranch, PlacedIn, StartsWithLabel, Falls, LabelsOK;
    LoopsOpen(c1, c, order, lastBlock);
    DoneLabels(c1, c, order, lastBlock);
    SameSpansStream(c1, c, order, lastBlock);
    forall b | b in order
      ensures SpanOK(c, b) && PlacedIn(c, b)
      ensures EndsInBranch(c, b) ==> LabelBlock(c, LastInsn(c, b).other) in order
      ensures IsConditional(LastInsn(c, b).op) ==> c.spans[b].next >= 0
      ensures SpanOK(Unmarked(c1), b) && Successors(c, b) == Successors(Unmarked(c1), b)
    {
      DoneBlock(c1, c, b);
      PlacedOf(Unmarked(c1), order, lastBlock, b);
      DoneSuccessors(c1, c, order, lastBlock, b);
    }
    FlowIntro(c, order, lastBlock);
  }

  lemma PlacedOf(c: Code, order: seq<int>, lastBlock: int, b: int)
    requires FlowOK(c, order, lastBlock) && b in order
    ensures SpanOK(c, b) && PlacedIn(c, b)
  {
    hide TargetsOK, LabelsOK;
    SpansOfStream(c, order, lastBlock);
  }

  lemma FlowIntro(c: Code, order: seq<int>, lastBlock: int)
    requires StreamOK(c, order, lastBlock) && (forall b <- order :: SpanOK(c, b)) && LabelsOK(c, order)
    requires forall b <- order :: PlacedIn(c, b)
    requires forall b <- order :: EndsInBranch(c, b) ==> LabelBlock(c, LastInsn(c, b).other) in order
    requires forall b <- order :: IsConditional(LastInsn(c, b).op) ==> c.spans[b].next >= 0
    ensures FlowOK(c, order, lastBlock)
  {
    hide StreamOK, LabelsOK, LastInsn, PlacedIn;
  }

  lemma DoneSuccessors(c1: Code, c: Code, order: seq<int>, lastBlock: int, b: int)
    requires LoopsDone(c1, c, order, lastBlock) && b in order && SpanOK(c1, b) && SpanOK(c, b)
    requires SpanOK(Unmarked(c1), b)
    requires EndsInBranch(c, b) == EndsInBranch(c1, b) && Falls(c, b) == Falls(Unmarked(c1), b)
    requires EndsInBranch(c1, b) ==> LastInsn(c, b) == LastInsn(c1, b)
    ensures Successors(c, b) == Successors(Unmarked(c1), b)
    ensures EndsInBranch(c, b) ==> LabelBlock(c, LastInsn(c, b).other) in order
    ensures IsConditional(LastInsn(c, b).op) ==> c.spans[b].next >= 0
  {
    hide LoopsDone, FlowOK, StreamOK, LabelsDone, LastInsn, Falls;
    LoopsOpen(c1, c, order, lastBlock);
    SameSpans(c1, b);
    if EndsInBranch(c1, b) {
      BranchMapped(c1, c, order, lastBlock, b);
      BranchLabel(c1, order, lastBlock, b);
    }
  }

  lemma DoneRefines(c1: Code, c: Code, order: seq<int>, lastBlock: int)
    requires LoopsDone(c1, c, order, lastBlock)
    ensures Refines(Unmarked(c1), c)
  {
    hide Refines, FlowOK, BlockCloses, CoincideBlock, LoopsDone, StreamOK, LabelsDone;
    var keep := set b | b in order;
    LoopsOpen(c1, c, order, lastBlock);
    StreamCloses(Unmarked(c1), order, lastBlock);
    forall b | b in keep
      ensures CoincideBlock(Unmarked(c1), c, keep, b) { DoneCoincides(c1, c, order, lastBlock, keep, b); }
    CoincideRefines(Unmarked(c1), c, keep);
  }

  lemma DoneCoincides(c1: Code, c: Code, order: seq<int>, lastBlock: int, keep: set<int>, b: int)
    requires LoopsDone(c1, c, order, lastBlock) && b in order && (forall x :: x in keep <==> x in order)
    requires BlockCloses(Unmarked(c1), order, b)
    ensures CoincideBlock(Unmarked(c1), c, keep, b)
  {
    hide LoopsDone, FlowOK, StreamOK, LabelsDone, StartsWithLabel, PlacedIn;
    LoopsOpen(c1, c, order, lastBlock);
    SameSpans(c1, b);
    DoneBlock(c1, c, b);
    forall i | c1.spans[b].first <= i <= c1.spans[b].last ensures SameInsn(Unmarked(c1), c, i) {
      assert CleanInsn(c1.decl, c1.insns[i]);
      DoneInsn(c1, c, i);
    }
    forall i | c1.spans[b].first <= i <= c1.spans[b].last && IsBranch(Unmarked(c1).insns[i].op)
      ensures LabelBlock(c, Unmarked(c1).insns[i].other) == LabelBlock(Unmarked(c1), Unmarked(c1).insns[i].other)
    {
      assert LastInsn(c1, b) == c1.insns[i];
      BranchMapped(c1, c, order, lastBlock, b);
    }
  }

  lemma DoneLive(c1: Code, c: Code, regs: seq<Reg>)
    requires LabelsDone(c1, c, |c1.labels|) && Clean(c1.decl, c1.insns)
    requires LiveOK(c1.decl, c1.insns, regs, {}) && ConstOK(c1.decl, c1.insns, regs)
    ensures LiveOK(c.decl, c.insns, regs, {1}) && Clean(c.decl, c.insns) && ConstOK(c.decl, c.insns, regs)
  {
    hide LabelsDone;
    DoneSpans(c1, c);
    forall i | 0 <= i < |c1.insns|
      ensures c1.insns[i].op.LABEL? || c.insns[i] == c1.insns[i]
      ensures c1.insns[i].op.LABEL? ==> c.insns[i].op.LABEL? || c.insns[i] == NopInsn
      ensures CleanInsn(c.decl, c.insns[i]) && CleanInsn(c1.decl, c1.insns[i])
    {
      assert CleanInsn(c1.decl, c1.insns[i]);
      DoneInsn(c1, c, i);
    }
    forall i, r | 0 <= i < |c.insns| && Reads(c.decl, c.insns[i], r)
      ensures r < |regs| && regs[r].live && regs[r].birth < i <= regs[r].death
    {
      assert Reads(c1.decl, c1.insns[i], r);
    }
    forall r | 0 < r < |regs| && r !in {1}
      ensures Tight(c.decl, c.insns, regs, r) { assert Tight(c1.decl, c1.insns, regs, r); }
    forall r | 0 < r < |regs| && regs[r].live && regs[r].source.CONSTANT? ensures ConstReg(c.decl, c.insns, regs, r) {
      assert ConstReg(c1.decl, c1.insns, regs, r);
    }
  }

  lemma FlaggedLive(c: Code, regs: seq<Reg>, edges: seq<Edges>, owner: seq<int>, order: seq<int>, lastBlock: int)
    requires FlaggedOK(c, regs, edges, owner, order, lastBlock)
    ensures LiveOK(c.decl, c.insns, regs, {})
  {
    hide FlowOK, Wired, Covers, Tight, Clean, ConstOK, SsaOK;
  }

  /** The range of register 1 is exact unless it ends at a LABEL, whose flag was taken for a use of the register. */
  lemma DoneTight(c1: Code, c: Code, regs: seq<Reg>)
    requires LabelsDone(c1, c, |c1.labels|) && Clean(c1.decl, c1.insns) && LiveOK(c1.decl, c1.insns, regs, {})
    requires Unflagged(c.insns) && |regs| > 1 && regs[1].live
    ensures 0 <= regs[1].death < |c.insns| && (Tight(c.decl, c.insns, regs, 1) <==> !c.insns[regs[1].death].op.LABEL?)
  {
    hide LabelsDone;
    DoneSpans(c1, c);
    var i := regs[1].death;
    assert Tight(c1.decl, c1.insns, regs, 1) && CleanInsn(c1.decl, c1.insns[i]);
    DoneInsn(c1, c, i);
    assert c.insns[i].op.LABEL? ==> c.insns[i].src1 == 0 && c.insns[i].src2 == 0;
  }

  lemma DoneShrunk(c0: Code, c1: Code, c: Code, order: seq<int>, lastBlock: int, dse: bool)
    requires Shrunk(c0, c1, order, dse) && LoopsDone(c1, c, order, lastBlock)
    ensures OnlyNops(c0.insns, c.insns)
    ensures forall i :: Killed(c0.insns, c.insns, i) ==> BranchOrRead(c0, i, dse) || c0.insns[i].op.LABEL?
    ensures EffectsKept(c0, c, order) ==> Refines(c0, c)
  {
    hide LoopsDone, Refines, FlowOK, StreamOK, LabelsDone, FlagsOK, BranchOrRead;
    LoopsOpen(c1, c, order, lastBlock);
    DoneUnflagged(c1, c, order, lastBlock);
    forall i | 0 <= i < |c.insns|
      ensures c.insns[i] == WithoutFlags(c1.insns)[i] || (c.insns[i] == NopInsn && c1.insns[i].op.LABEL?)
    {
      assert CleanInsn(c1.decl, c1.insns[i]);
      DoneInsn(c1, c, i);
    }
    forall i | Killed(c0.insns, c.insns, i) ensures BranchOrRead(c0, i, dse) || c0.insns[i].op.LABEL? {
      assert Killed(c0.insns, WithoutFlags(c1.insns), i) || c0.insns[i].op.LABEL?;
    }
    if EffectsKept(c0, c, order) {
      forall b, i | b in order && SpanOK(c0, b) && c0.spans[b].first <= i <= c0.spans[b].last
        && Killed(c0.insns, Unmarked(c1).insns, i)
        ensures !HasSideEffect(c0.insns[i].op)
      {
        assert Killed(c0.insns, c.insns, i);
      }
      DoneRefines(c1, c, order, lastBlock);
      RefinesTransitive(c0, Unmarked(c1), c);
    }
  }

  lemma DoneTargets(c1: Code, c: Code, order: seq<int>, lastBlock: int)
    requires LoopsDone(c1, c, order, lastBlock) && NoneToNext(c1, order, |order|)
    ensures NoneToNext(c, order, |order|)
    ensures forall l :: 0 < l < |c.labels| ==> (c.labels[l] >= 0 <==> Targeted(c, order, |order|, l))
  {
    hide LoopsDone, FlowOK, StreamOK, LabelsDone, FlagsOK, LastInsn, EndsInBranch, StartsWithLabel, PlacedIn, Falls;
    LoopsOpen(c1, c, order, lastBlock);
    forall b | b in order
      ensures SpanOK(c1, b) && SpanOK(c, b) && EndsInBranch(c, b) == EndsInBranch(c1, b)
      ensures EndsInBranch(c1, b) ==>
                LastInsn(c, b) == LastInsn(c1, b)
                    && LabelBlock(c, LastInsn(c1, b).other) == LabelBlock(c1, LastInsn(c1, b).other)
    {
      DoneBlock(c1, c, b);
      if EndsInBranch(c1, b) { BranchMapped(c1, c, order, lastBlock, b); }
    }
    forall j | 0 <= j < |order| ensures SpanOK(c, order[j]) && !BranchesToNext(c, order[j]) {
      assert order[j] in order && !BranchesToNext(c1, order[j]);
    }
    forall l | 0 < l < |c.labels| ensures c.labels[l] >= 0 <==> Targeted(c, order, |order|, l) {
      TargetedSame(c1, c, order, |order|, l);
      if c.labels[l] >= 0 { MappedFlagged(c1, c, order, lastBlock, l); }
      if Targeted(c1, order, |order|, l) { TargetedMapped(c1, c, order, lastBlock, l); }
    }
  }

  lemma TargetedMapped(c1: Code, c: Code, order: seq<int>, lastBlock: int, l: int)
    requires LoopsDone(c1, c, order, lastBlock) && Targeted(c1, order, |order|, l)
    ensures 0 <= l < |c.labels| && c.labels[l] >= 0
  {
    hide LoopsDone, FlowOK, StreamOK, LabelsDone, FlagsOK, LastInsn, EndsInBranch;
    LoopsOpen(c1, c, order, lastBlock);
    var j :| 0 <= j < |order| && SpanOK(c1, order[j]) && EndsInBranch(c1, order[j])
      && LastInsn(c1, order[j]).other == l;
    BranchMapped(c1, c, order, lastBlock, order[j]);
    assert SpanOK(c1, LabelBlock(c, l));
  }

  lemma DoneWellFormed(
    c1: Code, regs: seq<Reg>, edges: seq<Edges>, owner: seq<int>, order: seq<int>, lastBlock: int, c: Code)
    requires FlaggedOK(c1, regs, edges, owner, order, lastBlock) && LoopsDone(c1, c, order, lastBlock)
    ensures WellFormed(c, regs, edges, owner, order, lastBlock, {1})
  {
    hide FlowOK, EdgesOK, Successors, ExitSet, LabelsDone, LiveOK, Clean, ConstOK, FlagsOK;
    DoneFlow(c1, c, order, lastBlock);
    DoneLive(c1, c, regs);
    DoneSpans(c1, c);
  }

  lemma BranchesEnd(unit: RtlUnit, c0: Code, regs0: seq<Reg>, dse: bool)
    requires BranchState(unit, c0, regs0, |unit.order|, dse)
    ensures MappedToLabels(unit.Snap())
    ensures FlaggedOK(unit.Snap(), unit.regs, unit.edges, unit.owner, unit.order, unit.lastBlock)
    ensures FlowOK(Unmarked(unit.Snap()), unit.order, unit.lastBlock) && Clean(unit.decl, unit.insns)
    ensures FlagsOK(unit.Snap(), unit.order, |unit.order|) && NoneToNext(unit.Snap(), unit.order, |unit.order|)
    ensures Shrunk(c0, unit.Snap(), unit.order, dse) && RegsShrink(regs0, unit.regs)
  {
    hide LiveOK, ConstOK, Wired, FlagsOK, NoneToNext, Shrunk, FlowOK;
    var c := unit.Snap();
    forall l | 0 < l < |c.labels| && c.labels[l] >= 0
      ensures c.labels[l] < |c.spans| && 0 <= c.spans[c.labels[l]].first < |c.insns|
      ensures c.insns[c.spans[c.labels[l]].first].op.LABEL? && c.insns[c.spans[c.labels[l]].first].other == l
      ensures CleanInsn(c.decl, c.insns[c.spans[c.labels[l]].first])
    {
      LabelFacts(Unmarked(c), unit.order, unit.lastBlock, l, 0);
      SameSpans(c, c.labels[l]);
    }
  }

  /** A label that a branch of the stream still names is mapped as before. */
  lemma LabelSame(c0: Code, c: Code, order: seq<int>, lastBlock: int, l: int)
    requires FlowOK(c0, order, lastBlock) && FlowOK(c, order, lastBlock) && OnlyNops(c0.insns, c.insns)
    requires c == c0.(insns := c.insns, labels := c.labels) && LabelBlock(c, l) in order
    ensures LabelBlock(c0, l) == LabelBlock(c, l)
  {
    hide StreamOK, Placed, TargetsOK;
    SpansOfFlow(c, order, lastBlock);
    SpansOfFlow(c0, order, lastBlock);
    var b := LabelBlock(c, l);
    assert SpanOK(c, b) && SpanOK(c0, b) && l > 0;
    assert StartsWithLabel(c, b) && c.insns[c.spans[b].first].other == l;
    assert StartsWithLabel(c0, b);
  }

  /** Exactly the branches to the next block are gone. */
  ghost predicate BranchFate(c0: Code, c: Code, b: int) {
    && SpanOK(c0, b) && SpanOK(c, b) && Successors(c, b) == Successors(c0, b)
    && (EndsInBranch(c0, b) ==>
          LastInsn(c, b) == if LabelBlock(c0, LastInsn(c0, b).other) == c0.spans[b].next then NopInsn
                            else LastInsn(c0, b))
    && (EndsInBranch(c, b) ==> LabelBlock(c, LastInsn(c, b).other) == LabelBlock(c0, LastInsn(c, b).other))
  }

  lemma BranchesFate(
    c0: Code, c: Code, edges: seq<Edges>, owner: seq<int>, order: seq<int>, lastBlock: int, b: int)
    requires FlowOK(c0, order, lastBlock) && FlowOK(c, order, lastBlock) && b in order && OnlyNops(c0.insns, c.insns)
    requires (forall x <- order :: SpanOK(c0, x) && SpanOK(c, x))
    requires Wired(c0, edges, owner, order) && Wired(c, edges, owner, order)
    requires c == c0.(insns := c.insns, labels := c.labels) && !BranchesToNext(c, b)
    ensures BranchFate(c0, c, b)
  {
    hide FlowOK, EdgesOK, ExitSet;
    if EndsInBranch(c, b) {
      TargetThere(c, order, lastBlock, b);
      LabelSame(c0, c, order, lastBlock, LastInsn(c, b).other);
    } else if EndsInBranch(c0, b) {
      var t := LabelBlock(c0, LastInsn(c0, b).other);
      assert LastInsn(c, b) == NopInsn && t in Successors(c, b);
    }
  }

  lemma TargetThere(c: Code, order: seq<int>, lastBlock: int, b: int)
    requires FlowOK(c, order, lastBlock) && b in order && SpanOK(c, b) && EndsInBranch(c, b)
    ensures LabelBlock(c, LastInsn(c, b).other) in order
  {
    hide StreamOK, Placed, LabelsOK;
    SpansOfFlow(c, order, lastBlock);
  }

  /** Everything that is gone, and why. */
  lemma DropsExactly(
    c0: Code, regs0: seq<Reg>, c: Code, regs: seq<Reg>, edges: seq<Edges>, owner: seq<int>, order: seq<int>,
    lastBlock: int, ignoreFexc: bool, dse: bool)
    requires WellFormed(c0, regs0, edges, owner, order, lastBlock, {})
    requires WellFormed(c, regs, edges, owner, order, lastBlock, {1})
    requires c == c0.(insns := c.insns, labels := c.labels) && OnlyNops(c0.insns, c.insns) && Unflagged(c.insns)
    requires NoneToNext(c, order, |order|) && Tidy(c0.insns, regs0, c.insns, regs, ignoreFexc, dse)
    requires forall i :: Killed(c0.insns, c.insns, i) ==> BranchOrRead(c0, i, dse) || c0.insns[i].op.LABEL?
    ensures forall b <- order :: BranchFate(c0, c, b)
    ensures forall i :: 0 <= i < |c0.insns| && c0.insns[i].dest > 1 ==>
              (Killed(c0.insns, c.insns, i) <==> DefinitionDies(c0, c, ignoreFexc, dse, i))
  {
    hide FlowOK, LiveOK, ConstOK, Wired, BranchFate, DefinitionDies, NoneToNext, HasReader, Killed, Tidy, Clean;
    SpansOfFlow(c0, order, lastBlock);
    SpansOfFlow(c, order, lastBlock);
    forall b | b in order ensures BranchFate(c0, c, b) {
      NotToNext(c, order, b);
      BranchesFate(c0, c, edges, owner, order, lastBlock, b);
    }
    forall i | 0 <= i < |c0.insns| && c0.insns[i].dest > 1
      ensures Killed(c0.insns, c.insns, i) <==> DefinitionDies(c0, c, ignoreFexc, dse, i)
    {
      NoBranchSets(c0.decl, c0.insns, i);
      DeadDefinitions(c0, regs0, c, regs, ignoreFexc, dse, i);
    }
  }

  lemma NotToNext(c: Code, order: seq<int>, b: int)
    requires NoneToNext(c, order, |order|) && b in order
    ensures SpanOK(c, b) && !BranchesToNext(c, b)
  {
    var j :| 0 <= j < |order| && order[j] == b;
  }

  lemma NoBranchSets(d: Decl, insns: seq<Insn>, i: int)
    requires Clean(d, insns) && 0 <= i < |insns| && insns[i].dest != 0
    ensures !IsBranch(insns[i].op) && !insns[i].op.LABEL?
  {
    assert CleanInsn(d, insns[i]);
  }

  /** rtl_opt_drop_dead_branches: afterwards no block of the stream branches to the next one, a label is mapped iff
      some branch of the stream names it, and no LABEL carries a flag.  Live ranges stay exact except that of
      register 1, whose number the flags use: it may end late. */
  method DropDeadBranches(unit: RtlUnit, ignoreFexc: bool, dse: bool)
    requires UnitOK(unit)
    modifies unit`insns, unit`regs, unit`labels
    ensures WellFormed(unit.Snap(), unit.regs, unit.edges, unit.owner, unit.order, unit.lastBlock, {1})
    ensures NoneToNext(unit.Snap(), unit.order, |unit.order|)
    ensures forall l :: 0 < l < |unit.labels| ==>
              (unit.labels[l] >= 0 <==> Targeted(unit.Snap(), unit.order, |unit.order|, l))
    ensures Unflagged(unit.insns) && OnlyNops(old(unit.insns), unit.insns) && RegsShrink(old(unit.regs), unit.regs)
    ensures forall i :: Killed(old(unit.insns), unit.insns, i) ==>
              BranchOrRead(old(unit.Snap()), i, dse) || old(unit.insns)[i].op.LABEL?
    ensures forall b <- unit.order :: BranchFate(old(unit.Snap()), unit.Snap(), b)
    ensures forall i :: 0 <= i < |unit.insns| && old(unit.insns)[i].dest > 1 ==>
              (Killed(old(unit.insns), unit.insns, i)
               <==> DefinitionDies(old(unit.Snap()), unit.Snap(), ignoreFexc, dse, i))
    ensures forall i :: 0 <= i < |unit.insns| && old(unit.insns)[i].op == FPU && !ignoreFexc ==>
              unit.insns[i] == old(unit.insns)[i]
    ensures EffectsKept(old(unit.Snap()), unit.Snap(), unit.order) ==> Refines(old(unit.Snap()), unit.Snap())
    ensures |unit.regs| > 1 && unit.regs[1].live ==>
              0 <= unit.regs[1].death < |unit.insns|
              && (Tight(unit.decl, unit.insns, unit.regs, 1) <==> !unit.insns[unit.regs[1].death].op.LABEL?)
  {
    hide WellFormed, BranchState, FlaggedOK, NoneToNext, Targeted, Refines, LoopsDone, Shrunk, FlowOK, Clean, FlagsOK,
      LabelsDone, MappedToLabels, BranchFate, DefinitionDies, Tidy, BranchOrRead;
    ghost var c0, regs0 := unit.Snap(), unit.regs;
    DropBranches(unit, ignoreFexc, dse);
    ghost var c1 := unit.Snap();
    BranchesEnd(unit, c0, regs0, dse);
    DropLabels(unit);
    ghost var c := unit.Snap();
    LoopsIntro(c1, c, unit.order, unit.lastBlock);
    DoneWellFormed(c1, unit.regs, unit.edges, unit.owner, unit.order, unit.lastBlock, c);
    DoneTargets(c1, c, unit.order, unit.lastBlock);
    DoneUnflagged(c1, c, unit.order, unit.lastBlock);
    if |unit.regs| > 1 && unit.regs[1].live {
      FlaggedLive(c1, unit.regs, unit.edges, unit.owner, unit.order, unit.lastBlock);
      LoopsOpen(c1, c, unit.order, unit.lastBlock);
      DoneTight(c1, c, unit.regs);
    }
    DoneShrunk(c0, c1, c, unit.order, unit.lastBlock, dse);
    DoneTidy(c0, regs0, c1, c, unit.regs, unit.order, unit.lastBlock, ignoreFexc, dse);
    DropsExactly(c0, regs0, c, unit.regs, unit.edges, unit.owner, unit.order, unit.lastBlock, ignoreFexc, dse);
    TidyOpen(c0.insns, regs0, c.insns, unit.regs, ignoreFexc, dse);
  }

  lemma TidyOpen(
    insns0: seq<Insn>, regs0: seq<Reg>, insns: seq<Insn>, regs: seq<Reg>, ignoreFexc: bool, dse: bool)
    requires Tidy(insns0, regs0, insns, regs, ignoreFexc, dse)
    ensures |insns| == |insns0|
    ensures forall i :: 0 <= i < |insns| && insns0[i].op == FPU && !ignoreFexc ==> insns[i] == insns0[i]
  {}

  lemma DoneTidy(
    c0: Code, regs0: seq<Reg>, c1: Code, c: Code, regs: seq<Reg>, order: seq<int>, lastBlock: int, ignoreFexc: bool,
    dse: bool)
    requires Tidy(c0.insns, regs0, c1.insns, regs, ignoreFexc, dse) && Shrunk(c0, c1, order, dse)
    requires LoopsDone(c1, c, order, lastBlock)
    ensures Tidy(c0.insns, regs0, c.insns, regs, ignoreFexc, dse) && c == c0.(insns := c.insns, labels := c.labels)
  {
    hide LoopsDone, Refines, FlowOK, LabelsDone, FlagsOK, BranchOrRead, Tidy;
    LoopsOpen(c1, c, order, lastBlock);
    forall i | 0 <= i < |c1.insns|
      ensures (c1.insns[i].op.LABEL? || c.insns[i] == c1.insns[i])
              && (c1.insns[i].op.LABEL? ==> !c0.insns[i].op.FPU?)
    {
      assert CleanInsn(c1.decl, c1.insns[i]) && WithoutFlags(c1.insns)[i] == WithoutFlag(c1.insns[i]);
      DoneInsn(c1, c, i);
    }
    TidyLabels(c0.insns, regs0, c1.insns, c.insns, regs, ignoreFexc, dse);
    DoneFrame(c1, c);
  }

  lemma DoneFrame(c1: Code, c: Code)
    requires LabelsDone(c1, c, |c1.labels|)
    ensures c == c1.(insns := c.insns, labels := c.labels)
  {}

  lemma LoopsIntro(c1: Code, c: Code, order: seq<int>, lastBlock: int)
    requires FlowOK(Unmarked(c1), order, lastBlock) && Clean(c1.decl, c1.insns)
    requires FlagsOK(c1, order, |order|) && LabelsDone(c1, c, |c.labels|)
    ensures LoopsDone(c1, c, order, lastBlock)
  {
    hide FlowOK, Clean, FlagsOK;
  }
}
