/** The three control-flow passes of rtl_optimize_unit taken together: what becomes of the graph, and where its
    branches lead in the end. */
module Control {
  import opened Rtl
  import opened Semantics
  import opened Flow
  import opened Kill
  import opened AliasFlow
  import opened ThreadBranches
  import opened DeadBlocks
  import opened DeadBranches

  // ---- What the passes do ----

  /** rtl_opt_thread_branches: block by block, until every branch goes straight to where control stays. */
  ghost predicate ThreadTraced(c0: Code, order: seq<int>, c: Code) {
    && (exists history :: History(order, history, |order|) && history[0] == c0 && history[|order|] == c)
    && forall b <- order :: Direct(c, b)
  }

  /** rtl_opt_drop_dead_blocks: the reachable blocks stay as they are, in their order; of the others nothing is left but
      what sets registers that are still read. */
  ghost predicate BlocksTraced(c0: Code, order0: seq<int>, c: Code, order: seq<int>) {
    && (forall b :: b in order <==> b in order0 && Reaches(c0, 0, b))
    && (forall j, k :: 0 <= j < k < |order| ==> order[j] < order[k])
    && (forall b <- order :: Survives(c0, c, order, b) && Direct(c, b))
    && forall b <- order0 :: b !in order ==> BlockGone(c0, c, b)
  }

  /** rtl_opt_drop_dead_branches: branches to the next block are gone, and with dse the definitions that lost all
      their readers; the graph is as before. */
  ghost predicate BranchesDropped(c0: Code, c: Code, order: seq<int>, ignoreFexc: bool, dse: bool) {
    && c == c0.(insns := c.insns, labels := c.labels) && OnlyNops(c0.insns, c.insns)
    && (forall b <- order :: BranchFate(c0, c, b) && Reaches(c, 0, b) && StillDirect(c0, c, b))
    && (forall i :: 0 <= i < |c.insns| && c0.insns[i].dest > 1 ==>
          (Killed(c0.insns, c.insns, i) <==> DefinitionDies(c0, c, ignoreFexc, dse, i)))
    && (!dse ==> forall b <- order :: DirectHere(c0, c, b))
  }

  /** Some instruction of c0 from block t on, before instruction j, that was neither a NOP nor a LABEL is gone. */
  ghost predicate Emptied(c0: Code, c: Code, t: int, j: int) {
    && 0 <= t < |c0.spans| && 0 <= j <= |c0.insns| <= |c.insns|
    && exists m :: 0 <= c0.spans[t].first <= m < j
                   && c0.insns[m].op != NOP && c0.insns[m].op != LABEL && c.insns[m].op == NOP
  }

  /** The branch that ends block b in c, if there is one, goes straight to where control stays, or lies on a circle
      of c0, or led past something that is no longer there. */
  ghost predicate StillDirect(c0: Code, c: Code, b: int) {
    0 <= b < |c.spans| && 0 <= c.spans[b].first <= c.spans[b].last < |c.insns| ==>
      var br := c.insns[c.spans[b].last];
      br.op == GOTO || br.op == GOTO_IF_Z || br.op == GOTO_IF_NZ ==>
        var t := LabelBlock(c, br.other);
        forall j :: JumpsAt(c, br, t, j) ==> ComesRound(c0, br, b, t) || Emptied(c0, c, t, j)
  }

  /** Inside the block it leads to, the branch that ends block b in c does not meet another jump at once, unless it
      lies on a circle of c0. */
  ghost predicate DirectHere(c0: Code, c: Code, b: int) {
    0 <= b < |c.spans| && 0 <= c.spans[b].first <= c.spans[b].last < |c.insns| ==>
      var br := c.insns[c.spans[b].last];
      br.op == GOTO || br.op == GOTO_IF_Z || br.op == GOTO_IF_NZ ==>
        var t := LabelBlock(c, br.other);
        0 <= t < |c.spans| ==>
          forall j :: JumpsAt(c, br, t, j) && j <= c.spans[t].last ==> ComesRound(c0, br, b, t)
  }

  // ---- Dropping blocks ----

  /** A block that falls through falls into the next one. */
  lemma FallsOn(c0: Code, order0: seq<int>, lastBlock: int, c: Code, order: seq<int>, u: int)
    requires StreamOK(c0, order0, lastBlock) && Tiled(c0, order0) && u in order0
    ensures order0[u] == u && SpanOK(c0, u)
    ensures Survives(c0, c, order, u) && Falls(c0, u) && c0.spans[u].last + 1 < |c0.insns| ==>
              && u + 1 < |order0| && SpanOK(c0, u + 1) && c0.spans[u + 1].first == c0.spans[u].last + 1
              && u + 1 in order
  {
    assert c0.spans[order0[u]].next == After(order0, u);
    assert SpanOK(c0, |order0| - 1);
  }

  /** From a kept block, idle instructions lead through kept blocks only. */
  lemma {:induction false} StaysKeptAt(
    c0: Code, order0: seq<int>, lastBlock: int, c: Code, order: seq<int>, u: int, i: int, j: int) returns (v: int)
    requires StreamOK(c0, order0, lastBlock) && Tiled(c0, order0) && (forall b <- order :: b in order0)
    requires forall b <- order :: Survives(c0, c, order, b)
    requires u in order && c0.spans[u].first <= i <= c0.spans[u].last + 1 && i <= j < |c0.insns| == |c.insns|
    requires forall m :: i <= m < j ==> IsIdle(c0.insns[m].op) || IsIdle(c.insns[m].op)
    requires i > c0.spans[u].last ==> Falls(c0, u)
    ensures v in order && SpanOK(c0, v) && c0.spans[v].first <= j <= c0.spans[v].last
    ensures forall m :: i <= m <= j ==> c.insns[m] == c0.insns[m]
    decreases j - i, |order0| - u
  {
    hide StreamOK, Tiled;
    FallsOn(c0, order0, lastBlock, c, order, u);
    assert Survives(c0, c, order, u);
    if i > c0.spans[u].last {
      v := StaysKeptAt(c0, order0, lastBlock, c, order, u + 1, i, j);
    } else if i == j {
      v := u;
    } else {
      v := StaysKeptAt(c0, order0, lastBlock, c, order, u, i + 1, j);
    }
  }

  /** Jumping on from a kept block is as before, and leads to a kept block. */
  lemma JumpSurvives(
    c0: Code, order0: seq<int>, lastBlock: int, c: Code, order: seq<int>, br: Insn, t: int, j: int)
    requires FlowOK(c0, order0, lastBlock) && Tiled(c0, order0) && (forall b <- order :: b in order0) && t in order
    requires (forall b <- order :: Survives(c0, c, order, b)) && |c.insns| == |c0.insns|
    ensures JumpsAt(c0, br, t, j) <==> JumpsAt(c, br, t, j)
    ensures JumpsAt(c, br, t, j) ==>
              && 0 <= j < |c.insns| && LabelBlock(c, c.insns[j].other) == LabelBlock(c0, c0.insns[j].other)
              && LabelBlock(c, c.insns[j].other) in order
  {
    hide FlowOK, StreamOK, PlacedIn, Survives, Tiled, Falls;
    FlowGives(c0, order0, lastBlock);
    SurvivesOpen(c0, c, order, t);
    if JumpsAt(c0, br, t, j) || JumpsAt(c, br, t, j) {
      var v := StaysKeptAt(c0, order0, lastBlock, c, order, t, c0.spans[t].first, j);
      PlacedThere(c0, order0, lastBlock, v);
      SurvivesOpen(c0, c, order, v);
      JumpEnds(c0, v, j);
    }
  }

  lemma JumpEnds(c: Code, v: int, j: int)
    requires SpanOK(c, v) && PlacedIn(c, v) && c.spans[v].first <= j <= c.spans[v].last
    ensures IsBranch(c.insns[j].op) ==> j == c.spans[v].last && LastInsn(c, v) == c.insns[j]
  {}

  lemma PlacedThere(c: Code, order: seq<int>, lastBlock: int, b: int)
    requires FlowOK(c, order, lastBlock) && b in order
    ensures SpanOK(c, b) && PlacedIn(c, b)
  {
    hide StreamOK, TargetsOK, LabelsOK;
    SpansOfFlow(c, order, lastBlock);
  }

  lemma SurvivesOpen(c0: Code, c: Code, order: seq<int>, b: int)
    requires Survives(c0, c, order, b)
    ensures SpanOK(c0, b) && SpanOK(c, b) && c.spans[b].first == c0.spans[b].first
    ensures c.spans[b].last == c0.spans[b].last
    ensures forall i :: c0.spans[b].first <= i <= c0.spans[b].last ==> c.insns[i] == c0.insns[i]
    ensures IsEmpty(c0, b) ==> Falls(c0, b)
    ensures EndsInBranch(c0, b) ==>
              && LabelBlock(c, LastInsn(c0, b).other) == LabelBlock(c0, LastInsn(c0, b).other)
              && LabelBlock(c0, LastInsn(c0, b).other) in order
  {}

  /** The branch of a kept block is as direct as it was. */
  lemma DirectSurvives(c0: Code, order0: seq<int>, lastBlock: int, c: Code, order: seq<int>, b: int)
    requires FlowOK(c0, order0, lastBlock) && Tiled(c0, order0) && (forall x <- order :: x in order0) && b in order
    requires (forall x <- order :: Survives(c0, c, order, x)) && |c.insns| == |c0.insns| && Direct(c0, b)
    ensures Direct(c, b)
  {
    hide FlowOK, Tiled, Survives, Stays, ComesRound;
    SurvivesOpen(c0, c, order, b);
    if EndsInBranch(c, b) {
      var br := LastInsn(c, b);
      var t := LabelBlock(c, br.other);
      if Stays(c0, br, t) {
        StaysSurvives(c0, order0, lastBlock, c, order, br, t);
      } else {
        CircleSurvives(c0, order0, lastBlock, c, order, br, b, t);
      }
    }
  }

  lemma StaysSurvives(
    c0: Code, order0: seq<int>, lastBlock: int, c: Code, order: seq<int>, br: Insn, t: int)
    requires FlowOK(c0, order0, lastBlock) && Tiled(c0, order0) && (forall x <- order :: x in order0) && t in order
    requires (forall x <- order :: Survives(c0, c, order, x)) && |c.insns| == |c0.insns| && Stays(c0, br, t)
    ensures Stays(c, br, t)
  {
    hide FlowOK, Tiled, Survives, JumpsAt;
    forall j ensures !JumpsAt(c, br, t, j) { JumpSurvives(c0, order0, lastBlock, c, order, br, t, j); }
  }

  lemma CircleSurvives(
    c0: Code, order0: seq<int>, lastBlock: int, c: Code, order: seq<int>, br: Insn, b: int, t: int)
    requires FlowOK(c0, order0, lastBlock) && Tiled(c0, order0) && (forall x <- order :: x in order0) && t in order
    requires (forall x <- order :: Survives(c0, c, order, x)) && |c.insns| == |c0.insns| && ComesRound(c0, br, b, t)
    ensures ComesRound(c, br, b, t)
  {
    hide FlowOK, Tiled, Survives, JumpsAt, JumpsWithin;
    var ts: set<int> :| t in ts && JumpsWithin(c0, br, b, ts);
    var kept := set x | x in ts && x in order;
    forall x | x in kept ensures JumpsInto(c, br, x, kept + {b}) {
      var j := JumpInto(c0, br, b, ts, x);
      JumpSurvives(c0, order0, lastBlock, c, order, br, x, j);
    }
    WithinClose(c, br, b, kept);
  }

  // ---- Reachability ----

  /** A path through blocks with the same successors. */
  lemma PathSame(c0: Code, c: Code, order: seq<int>, path: seq<int>, a: int, b: int)
    requires CfgPath(c0, a, b, path) && (forall x <- path :: x in order)
    requires forall x <- order :: SpanOK(c, x) && SpanOK(c0, x) && Successors(c, x) == Successors(c0, x)
    ensures CfgPath(c, a, b, path)
  {
    hide Successors;
    forall j | 0 <= j < |path| - 1 ensures SpanOK(c, path[j]) && path[j + 1] in Successors(c, path[j]) {
      assert path[j] in path;
    }
  }

  /** Every block on a path from the start of the unit is reachable and in the stream. */
  lemma {:induction false} OnPath(c: Code, order: seq<int>, lastBlock: int, path: seq<int>, b: int, j: int)
    requires FlowOK(c, order, lastBlock) && CfgPath(c, 0, b, path) && 0 <= j < |path|
    ensures path[j] in order && Reaches(c, 0, path[j])
    decreases j
  {
    hide FlowOK, Successors;
    if j > 0 {
      OnPath(c, order, lastBlock, path, b, j - 1);
      SuccessorsInStream(c, order, lastBlock, path[j - 1]);
      assert path[j - 1 + 1] in Successors(c, path[j - 1]);
    } else {
      StartsAtZero(c, order, lastBlock);
    }
    assert CfgPath(c, 0, path[j], path[..j + 1]);
  }

  /** The blocks kept because they were reachable are reachable in any code with the same graph. */
  lemma StillReached(c0: Code, order0: seq<int>, lastBlock: int, c: Code, order: seq<int>, b: int)
    requires FlowOK(c0, order0, lastBlock) && b in order
    requires forall x :: x in order <==> x in order0 && Reaches(c0, 0, x)
    requires forall x <- order :: SpanOK(c, x) && SpanOK(c0, x) && Successors(c, x) == Successors(c0, x)
    ensures Reaches(c, 0, b)
  {
    hide FlowOK, Successors;
    var path :| CfgPath(c0, 0, b, path);
    forall x | x in path ensures x in order {
      var j :| 0 <= j < |path| && path[j] == x;
      OnPath(c0, order0, lastBlock, path, b, j);
    }
    PathSame(c0, c, order, path, 0, b);
  }

  // ---- Dropping branches ----

  lemma DirectStill(c0: Code, c: Code, order: seq<int>, b: int)
    requires BranchFate(c0, c, b) && Direct(c0, b) && OnlyNops(c0.insns, c.insns)
    requires c == c0.(insns := c.insns, labels := c.labels)
    ensures StillDirect(c0, c, b)
  {
    hide ComesRound, Successors;
    if EndsInBranch(c, b) {
      var br := LastInsn(c, b);
      var t := LabelBlock(c, br.other);
      assert br == LastInsn(c0, b);
      forall j | JumpsAt(c, br, t, j) ensures ComesRound(c0, br, b, t) || Emptied(c0, c, t, j) {
        if !Emptied(c0, c, t, j) { NotEmptied(c0, c, br, t, j); }
      }
    }
  }

  lemma NotEmptied(c0: Code, c: Code, br: Insn, t: int, j: int)
    requires JumpsAt(c, br, t, j) && !Emptied(c0, c, t, j) && OnlyNops(c0.insns, c.insns)
    requires c == c0.(insns := c.insns, labels := c.labels)
    ensures JumpsAt(c0, br, t, j)
  {
    assert c.insns[j] == c0.insns[j];
    forall m | c0.spans[t].first <= m < j ensures c0.insns[m].op == NOP || c0.insns[m].op == LABEL {
      assert c.insns[m].op == NOP || c.insns[m] == c0.insns[m];
    }
  }

  /** Everything from block t on, up to the jump j, was idle or has been removed, and something has been removed. */
  ghost predicate Opened(c0: Code, c: Code, br: Insn, t: int, j: int) {
    && 0 <= t < |c0.spans| && 0 <= c0.spans[t].first <= j < |c0.insns| == |c.insns|
    && c.insns[j] == c0.insns[j]
    && (|| c0.insns[j].op == GOTO
        || ((br.op == GOTO_IF_Z || br.op == GOTO_IF_NZ) && c0.insns[j].op == br.op && c0.insns[j].src1 == br.src1))
    && (forall m :: c0.spans[t].first <= m < j ==>
          c0.insns[m].op == NOP || c0.insns[m].op == LABEL || Killed(c0.insns, c.insns, m))
    && Emptied(c0, c, t, j)
  }

  /** A branch that went straight to where control stays leads to another jump in the end if and only if all that stood
      before that jump has been removed. */
  lemma LeadsOnIff(c0: Code, c: Code, br: Insn, t: int)
    requires OnlyNops(c0.insns, c.insns) && c == c0.(insns := c.insns, labels := c.labels) && Stays(c0, br, t)
    ensures (exists j :: JumpsAt(c, br, t, j)) <==> (exists j :: Opened(c0, c, br, t, j))
  {
    if j :| JumpsAt(c, br, t, j) {
      if !Emptied(c0, c, t, j) { NotEmptied(c0, c, br, t, j); }
      hide Emptied;
      forall m | c0.spans[t].first <= m < j
        ensures c0.insns[m].op == NOP || c0.insns[m].op == LABEL || Killed(c0.insns, c.insns, m)
      {
        assert c.insns[m] == c0.insns[m] || c.insns[m] == NopInsn;
      }
      assert Opened(c0, c, br, t, j);
    }
    if j :| Opened(c0, c, br, t, j) {
      hide Emptied;
      assert JumpsAt(c, br, t, j);
    }
  }

  /** Without dse only branches and labels go, and a branch ends its block. */
  lemma DirectWithin(c0: Code, c: Code, b: int, t: int)
    requires StillDirect(c0, c, b) && OnlyNops(c0.insns, c.insns) && c == c0.(insns := c.insns, labels := c.labels)
    requires SpanOK(c, b) && EndsInBranch(c, b) && t == LabelBlock(c, LastInsn(c, b).other)
    requires SpanOK(c0, t) && PlacedIn(c0, t)
    requires forall i :: Killed(c0.insns, c.insns, i) ==> BranchOrRead(c0, i, false) || c0.insns[i].op.LABEL?
    ensures DirectHere(c0, c, b)
  {
    hide ComesRound, Emptied;
    var br := LastInsn(c, b);
    forall j | JumpsAt(c, br, t, j) && j <= c.spans[t].last ensures ComesRound(c0, br, b, t) {
      NotEmptiedHere(c0, c, t, j);
    }
  }

  lemma NotEmptiedHere(c0: Code, c: Code, t: int, j: int)
    requires OnlyNops(c0.insns, c.insns) && SpanOK(c0, t) && PlacedIn(c0, t) && j <= c0.spans[t].last
    requires forall i :: Killed(c0.insns, c.insns, i) ==> BranchOrRead(c0, i, false) || c0.insns[i].op.LABEL?
    ensures !Emptied(c0, c, t, j)
  {
    forall m | c0.spans[t].first <= m < j && c.insns[m].op == NOP
      ensures c0.insns[m].op == NOP || c0.insns[m].op == LABEL
    {
      assert c.insns[m] == c0.insns[m] || c0.insns[m] == NopInsn || Killed(c0.insns, c.insns, m);
    }
  }

  // ---- The passes together ----

  lemma ControlDone(
    c0: Code, history: seq<Code>, order0: seq<int>, lastBlock0: int, c1: Code, c2: Code, order: seq<int>,
    lastBlock: int, c: Code, ignoreFexc: bool, dse: bool)
    requires FlowOK(c1, order0, lastBlock0) && Tiled(c1, order0)
    requires History(order0, history, |order0|) && history[0] == c0 && history[|order0|] == c1
    requires forall j :: 0 <= j < |order0| ==> Direct(c1, order0[j])
    requires FlowOK(c2, order, lastBlock) && |c2.insns| == |c1.insns|
    requires forall b :: b in order <==> b in order0 && Reaches(c1, 0, b)
    requires forall b <- order :: Survives(c1, c2, order, b)
    requires forall b <- order0 :: b !in order ==> BlockGone(c1, c2, b)
    requires c == c2.(insns := c.insns, labels := c.labels) && OnlyNops(c2.insns, c.insns)
    requires forall b <- order :: BranchFate(c2, c, b)
    requires forall i :: 0 <= i < |c.insns| && c2.insns[i].dest > 1 ==>
               (Killed(c2.insns, c.insns, i) <==> DefinitionDies(c2, c, ignoreFexc, dse, i))
    requires forall i :: Killed(c2.insns, c.insns, i) ==> BranchOrRead(c2, i, dse) || c2.insns[i].op.LABEL?
    ensures ThreadTraced(c0, order0, c1) && BlocksTraced(c1, order0, c2, order)
    ensures BranchesDropped(c2, c, order, ignoreFexc, dse)
  {
    hide FlowOK, Tiled, History, Direct, Reaches, Survives, BranchFate, DefinitionDies, BranchOrRead, StillDirect,
      DirectHere, BlockGone;
    Ascending(c2, order, lastBlock);
    forall b | b in order ensures Direct(c2, b) { DirectSurvives(c1, order0, lastBlock0, c2, order, b); }
    forall b | b in order ensures SpanOK(c, b) && SpanOK(c1, b) && Successors(c, b) == Successors(c1, b) {
      SameGraph(c1, c2, c, order, b);
    }
    forall b | b in order
      ensures Reaches(c, 0, b) && StillDirect(c2, c, b) && (!dse ==> DirectHere(c2, c, b))
    {
      StillReached(c1, order0, lastBlock0, c, order, b);
      DirectStill(c2, c, order, b);
      if !dse { DirectInside(c2, order, lastBlock, c, b); }
    }
  }

  lemma Ascending(c: Code, order: seq<int>, lastBlock: int)
    requires FlowOK(c, order, lastBlock)
    ensures forall j, k :: 0 <= j < k < |order| ==> order[j] < order[k]
  {
    hide Placed, TargetsOK, LabelsOK;
  }

  lemma SameGraph(c1: Code, c2: Code, c: Code, order: seq<int>, b: int)
    requires Survives(c1, c2, order, b) && BranchFate(c2, c, b)
    ensures SpanOK(c, b) && SpanOK(c1, b) && Successors(c, b) == Successors(c1, b)
  {
    hide Survives, Successors;
    SurvivorFlow(c1, c2, order, b);
    SurvivesOpen(c1, c2, order, b);
  }

  lemma DirectInside(c0: Code, order: seq<int>, lastBlock: int, c: Code, b: int)
    requires FlowOK(c0, order, lastBlock) && b in order && BranchFate(c0, c, b) && StillDirect(c0, c, b)
    requires c == c0.(insns := c.insns, labels := c.labels) && OnlyNops(c0.insns, c.insns)
    requires forall i :: Killed(c0.insns, c.insns, i) ==> BranchOrRead(c0, i, false) || c0.insns[i].op.LABEL?
    ensures DirectHere(c0, c, b)
  {
    hide FlowOK, StillDirect, BranchOrRead, Successors, ComesRound, PlacedIn;
    if EndsInBranch(c, b) {
      var t := LabelBlock(c, LastInsn(c, b).other);
      SuccessorsInStream(c0, order, lastBlock, b);
      TargetThere(c0, order, lastBlock, b);
      PlacedThere(c0, order, lastBlock, t);
      DirectWithin(c0, c, b, t);
    }
  }
}
