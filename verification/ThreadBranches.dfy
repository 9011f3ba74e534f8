/** rtl_opt_thread_branches: branches are redirected to the final destination of the chain they start. */
module ThreadBranches {
  import opened Rtl
  import opened Liveness
  import opened Semantics
  import opened Rewrite
  import opened Flow
  import opened BlockEdges
  import opened Unit
  import opened Invariant
  import opened AliasFlow

  // ---- Chains of branches ----

  predicate IsIdle(op: Opcode) { op.NOP? || op.LABEL? }

  /** The first instruction from i on that does something, or the end of the code. */
  function SkipIdle(c: Code, i: int): (j: int)
    requires 0 <= i <= |c.insns|
    ensures i <= j <= |c.insns| && (j < |c.insns| ==> !IsIdle(c.insns[j].op))
    ensures forall m :: i <= m < j ==> IsIdle(c.insns[m].op)
    decreases |c.insns| - i
  {
    if i < |c.insns| && IsIdle(c.insns[i].op) then SkipIdle(c, i + 1) else i
  }

  /** A branch that is certainly taken when the branch k was. */
  predicate Follows(c: Code, k: int, insn: Insn)
    requires 0 <= k < |c.insns|
  {
    insn.op.GOTO? || (insn.op == c.insns[k].op && insn.src1 == c.insns[k].src1)
  }

  /** The label to which control goes on after arriving at block t from branch k, if it goes on at once. */
  function Hop(c: Code, k: int, t: int): Option<int>
    requires 0 <= k < |c.insns| && SpanOK(c, t)
  {
    var j := SkipIdle(c, c.spans[t].first);
    if j < |c.insns| && Follows(c, k, c.insns[j]) then Some(c.insns[j].other) else None
  }

  /** The labels branch k leads to, one after the other. */
  ghost predicate Chain(c: Code, order: seq<int>, k: int, labels: seq<int>) {
    && 0 <= k < |c.insns| && |labels| > 0 && labels[0] == c.insns[k].other
    && (forall j :: 0 <= j < |labels| ==> LabelBlock(c, labels[j]) in order && SpanOK(c, LabelBlock(c, labels[j])))
    && forall j :: 0 <= j < |labels| - 1 ==> Hop(c, k, LabelBlock(c, labels[j])) == Some(labels[j + 1])
  }

  /** What threading makes of branch k of block b: the last label of a chain that has come to rest, or nothing
      (0) if the chain has length one or comes back to b or to a block it has been threaded to before. */
  ghost predicate Threaded(c: Code, order: seq<int>, b: int, k: int, newLabel: int, labels: seq<int>) {
    && Chain(c, order, k, labels)
    && var t := LabelBlock(c, labels[|labels| - 1]);
       var hop := Hop(c, k, t);
       if hop.None? then newLabel == (if |labels| == 1 then 0 else labels[|labels| - 1])
       else newLabel == 0
            && (LabelBlock(c, hop.value) == b || exists j ::
                 0 < j < |labels| && LabelBlock(c, labels[j]) == LabelBlock(c, hop.value))
  }

  // ---- Where branches lead, in opcodes and registers ----

  /** Control that has taken br and arrives at block t jumps again at once: the first instruction from there on that
      is neither a NOP nor a LABEL is j, a GOTO or a conditional branch with the opcode and the register of br. */
  ghost predicate JumpsAt(c: Code, br: Insn, t: int, j: int) {
    && 0 <= t < |c.spans| && 0 <= c.spans[t].first <= j < |c.insns|
    && (forall m :: c.spans[t].first <= m < j ==> c.insns[m].op == NOP || c.insns[m].op == LABEL)
    && (|| c.insns[j].op == GOTO
        || ((br.op == GOTO_IF_Z || br.op == GOTO_IF_NZ) && c.insns[j].op == br.op && c.insns[j].src1 == br.src1))
  }

  /** Control that has taken br and arrives at block t does not jump again at once. */
  ghost predicate Stays(c: Code, br: Insn, t: int) { forall j :: !JumpsAt(c, br, t, j) }

  ghost predicate JumpsInto(c: Code, br: Insn, t: int, ts: set<int>) {
    exists j :: JumpsAt(c, br, t, j) && LabelBlock(c, c.insns[j].other) in ts
  }

  /** Control that has taken br and arrives at a block of ts only jumps, within ts or back to b. */
  ghost predicate JumpsWithin(c: Code, br: Insn, b: int, ts: set<int>) {
    forall t <- ts :: JumpsInto(c, br, t, ts + {b})
  }

  /** br, arriving at block t, lies on a circle: control jumps for ever, or until it is back at block b. */
  ghost predicate ComesRound(c: Code, br: Insn, b: int, t: int) {
    exists ts: set<int> :: t in ts && JumpsWithin(c, br, b, ts)
  }

  /** The branch that ends block b, if there is one, goes straight to where control stays, or lies on a circle. */
  ghost predicate Direct(c: Code, b: int) {
    0 <= b < |c.spans| && 0 <= c.spans[b].first <= c.spans[b].last < |c.insns| ==>
      var br := c.insns[c.spans[b].last];
      br.op == GOTO || br.op == GOTO_IF_Z || br.op == GOTO_IF_NZ ==>
        Stays(c, br, LabelBlock(c, br.other)) || ComesRound(c, br, b, LabelBlock(c, br.other))
  }

  /** The first busy instruction is the only one at which control can jump on. */
  lemma JumpIsFirst(c: Code, br: Insn, t: int, j: int)
    requires SpanOK(c, t) && JumpsAt(c, br, t, j)
    ensures SkipIdle(c, c.spans[t].first) == j
  {
    var i := SkipIdle(c, c.spans[t].first);
    assert !IsIdle(c.insns[j].op);
    assert i <= j;
    assert !IsIdle(c.insns[i].op);
  }

  lemma HopJumps(c: Code, k: int, t: int)
    requires 0 <= k < |c.insns| && IsBranch(c.insns[k].op) && SpanOK(c, t) && Hop(c, k, t).Some?
    ensures JumpsAt(c, c.insns[k], t, SkipIdle(c, c.spans[t].first))
  {}

  lemma NoHopStays(c: Code, k: int, t: int)
    requires 0 <= k < |c.insns| && IsBranch(c.insns[k].op) && SpanOK(c, t) && Hop(c, k, t).None?
    ensures Stays(c, c.insns[k], t)
  {
    forall j ensures !JumpsAt(c, c.insns[k], t, j) {
      if JumpsAt(c, c.insns[k], t, j) { JumpIsFirst(c, c.insns[k], t, j); }
    }
  }

  /** Where the search ended: at a label whose block stays, or with nothing because it came round. */
  ghost predicate Destination(c: Code, b: int, k: int, newLabel: int)
    requires 0 <= k < |c.insns|
  {
    var br := c.insns[k];
    var t := LabelBlock(c, if newLabel == 0 then br.other else newLabel);
    Stays(c, br, t) || (newLabel == 0 && ComesRound(c, br, b, t))
  }

  lemma ThreadedTo(c: Code, order: seq<int>, b: int, k: int, newLabel: int, labels: seq<int>)
    requires Threaded(c, order, b, k, newLabel, labels) && IsBranch(c.insns[k].op) && LabelBlock(c, 0) < 0
    ensures Destination(c, b, k, newLabel)
  {
    hide Hop, Stays, ComesRound;
    var t := LabelBlock(c, labels[|labels| - 1]);
    if Hop(c, k, t).None? {
      NoHopStays(c, k, t);
    } else {
      CircleFound(c, order, b, k, labels);
    }
  }

  lemma CircleFound(c: Code, order: seq<int>, b: int, k: int, labels: seq<int>)
    requires Threaded(c, order, b, k, 0, labels) && IsBranch(c.insns[k].op)
    requires Hop(c, k, LabelBlock(c, labels[|labels| - 1])).Some?
    ensures ComesRound(c, c.insns[k], b, LabelBlock(c, c.insns[k].other))
  {
    hide Hop, JumpsAt;
    var br := c.insns[k];
    var ts := set j | 0 <= j < |labels| :: LabelBlock(c, labels[j]);
    forall t | t in ts ensures JumpsInto(c, br, t, ts + {b}) {
      var j :| 0 <= j < |labels| && LabelBlock(c, labels[j]) == t;
      if j < |labels| - 1 { assert Hop(c, k, LabelBlock(c, labels[j])) == Some(labels[j + 1]); }
      HopJumps(c, k, t);
      HopValue(c, k, t);
    }
    assert LabelBlock(c, labels[0]) in ts && JumpsWithin(c, br, b, ts);
  }

  lemma HopValue(c: Code, k: int, t: int)
    requires 0 <= k < |c.insns| && SpanOK(c, t) && Hop(c, k, t).Some?
    ensures SkipIdle(c, c.spans[t].first) < |c.insns|
    ensures Hop(c, k, t).value == c.insns[SkipIdle(c, c.spans[t].first)].other
  {}

  // ---- Following a chain at run time ----

  /** From x, having taken branch k, control arrives at (t, i) with the state unchanged. */
  ghost predicate Leads(env: Env, c: Code, x: Config, t: int, i: int)
    requires x.At?
  {
    exists n: nat :: n > 0 && Run(env, c, n, x) == At(t, i, x.s)
  }

  ghost predicate BranchTaken(c: Code, k: int, x: Config) {
    0 <= k < |c.insns| && AtInsn(c, k, x) && IsBranch(c.insns[k].op) && Taken(c.insns[k], x.s) == Some(true)
  }

  lemma LeadsOn(env: Env, c: Code, x: Config, t: int, i: int, t': int, i': int)
    requires x.At? && Leads(env, c, x, t, i) && Step(env, c, At(t, i, x.s)) == At(t', i', x.s)
    ensures Leads(env, c, x, t', i')
  {
    var n: nat :| n > 0 && Run(env, c, n, x) == At(t, i, x.s);
    RunAdd(env, c, n, 1, x);
    assert Run(env, c, 1, At(t, i, x.s)) == Run(env, c, 0, At(t', i', x.s));
  }

  /** Walking over idle instructions, across block ends. */
  lemma {:induction false} Walk(
    env: Env, c: Code, order: seq<int>, lastBlock: int, x: Config, t: int, i: int, j: int) returns (u: int)
    requires StreamOK(c, order, lastBlock) && Tiled(c, order) && Clean(c.decl, c.insns) && x.At?
    requires t in order && c.spans[t].first <= i <= c.spans[t].last + 1 && i <= j < |c.insns|
    requires forall m :: i <= m < j ==> IsIdle(c.insns[m].op)
    requires i > c.spans[t].last ==> Falls(c, t)
    requires Leads(env, c, x, t, i)
    ensures u in order && c.spans[u].first <= j <= c.spans[u].last && Leads(env, c, x, u, j)
    decreases j - i, |order| - t
  {
    assert order[t] == t && SpanOK(c, t);
    assert c.spans[order[t]].next == After(order, t);
    if i > c.spans[t].last {
      assert t + 1 < |order| && SpanOK(c, t + 1) && order[t + 1] == t + 1;
      LeadsOn(env, c, x, t, i, t + 1, c.spans[t + 1].first);
      u := Walk(env, c, order, lastBlock, x, t + 1, c.spans[t + 1].first, j);
    } else if i == j {
      u := t;
    } else {
      IdleStep(env, c, t, i, x.s);
      LeadsOn(env, c, x, t, i, t, i + 1);
      u := Walk(env, c, order, lastBlock, x, t, i + 1, j);
    }
  }

  lemma IdleStep(env: Env, c: Code, t: int, i: int, s: State)
    requires SpanOK(c, t) && c.spans[t].first <= i <= c.spans[t].last && IsIdle(c.insns[i].op) && Clean(c.decl, c.insns)
    ensures Step(env, c, At(t, i, s)) == At(t, i + 1, s)
  {
    assert CleanInsn(c.decl, c.insns[i]);
    LabelDoesNothing(env, c.decl, c.insns[i], s);
  }

  lemma EmptyFalls(c: Code, t: int)
    requires SpanOK(c, t) && IsEmpty(c, t)
    ensures Falls(c, t)
  {}

  lemma FollowStep(env: Env, c: Code, k: int, x: Config, u: int, m: int, l: int)
    requires BranchTaken(c, k, x) && SpanOK(c, u) && c.spans[u].first <= m <= c.spans[u].last
    requires Follows(c, k, c.insns[m]) && c.insns[m].other == l && SpanOK(c, LabelBlock(c, l))
    ensures Step(env, c, At(u, m, x.s)) == At(LabelBlock(c, l), c.spans[LabelBlock(c, l)].first, x.s)
  {}

  lemma HopLeads(env: Env, c: Code, order: seq<int>, lastBlock: int, k: int, x: Config, t: int, l: int)
    requires FlowOK(c, order, lastBlock) && Tiled(c, order) && Clean(c.decl, c.insns) && BranchTaken(c, k, x)
    requires t in order && SpanOK(c, t) && Hop(c, k, t) == Some(l) && SpanOK(c, LabelBlock(c, l))
    requires Leads(env, c, x, t, c.spans[t].first)
    ensures Leads(env, c, x, LabelBlock(c, l), c.spans[LabelBlock(c, l)].first)
  {
    hide StreamOK, Placed, TargetsOK, LabelsOK, Tiled, Clean, Leads, Taken;
    var m := SkipIdle(c, c.spans[t].first);
    if IsEmpty(c, t) { EmptyFalls(c, t); }
    var u := Walk(env, c, order, lastBlock, x, t, c.spans[t].first, m);
    SpansOfStream(c, order, lastBlock);
    FollowStep(env, c, k, x, u, m, l);
    LeadsOn(env, c, x, u, m, LabelBlock(c, l), c.spans[LabelBlock(c, l)].first);
  }

  lemma TakenLeads(env: Env, c: Code, k: int, x: Config)
    requires BranchTaken(c, k, x) && SpanOK(c, LabelBlock(c, c.insns[k].other))
    ensures var t := LabelBlock(c, c.insns[k].other); Leads(env, c, x, t, c.spans[t].first)
  {
    var t := LabelBlock(c, c.insns[k].other);
    assert Run(env, c, 1, x) == Run(env, c, 0, Step(env, c, x)) == At(t, c.spans[t].first, x.s);
  }

  /** The chain is followed at run time: branch k, if taken, arrives at the block of every label in it. */
  lemma {:induction false} ChainLeads(
    env: Env, c: Code, order: seq<int>, lastBlock: int, k: int, labels: seq<int>, j: int, x: Config)
    requires FlowOK(c, order, lastBlock) && Tiled(c, order) && Clean(c.decl, c.insns) && Chain(c, order, k, labels)
    requires 0 <= j < |labels| && BranchTaken(c, k, x)
    ensures var t := LabelBlock(c, labels[j]); Leads(env, c, x, t, c.spans[t].first)
    decreases j
  {
    hide FlowOK, Tiled, Clean, Leads, BranchTaken, Hop;
    if j == 0 {
      TakenLeads(env, c, k, x);
    } else {
      ChainLeads(env, c, order, lastBlock, k, labels, j - 1, x);
      HopLeads(env, c, order, lastBlock, k, x, LabelBlock(c, labels[j - 1]), labels[j]);
    }
  }

  lemma RedirectJoins(
    env: Env, c: Code, order: seq<int>, lastBlock: int, k: int, labels: seq<int>, j: int, x: Config)
    requires FlowOK(c, order, lastBlock) && Tiled(c, order) && Clean(c.decl, c.insns) && Chain(c, order, k, labels)
    requires 0 <= j < |labels| && IsBranch(c.insns[k].op) && AtInsn(c, k, x)
    ensures Joins(env, c, c.(insns := c.insns[k := c.insns[k].(other := labels[j])]), x)
  {
    hide FlowOK, Tiled, Clean, Hop, Exec;
    var c' := c.(insns := c.insns[k := c.insns[k].(other := labels[j])]);
    if BranchTaken(c, k, x) {
      ChainLeads(env, c, order, lastBlock, k, labels, j, x);
      var t := LabelBlock(c, labels[j]);
      var n: nat :| n > 0 && Run(env, c, n, x) == At(t, c.spans[t].first, x.s);
      assert Run(env, c', 1, x) == Run(env, c', 0, Step(env, c', x)) == At(t, c.spans[t].first, x.s);
      assert JoinsIn(env, c, c', x, n, 1);
    } else {
      JoinInOneStep(env, c, c', x);
    }
  }

  /** Redirecting branch k to a later label of its chain preserves the unit's meaning. */
  lemma Redirect(c: Code, order: seq<int>, lastBlock: int, k: int, labels: seq<int>, j: int)
    requires FlowOK(c, order, lastBlock) && Tiled(c, order) && Clean(c.decl, c.insns) && Chain(c, order, k, labels)
    requires 0 <= j < |labels| && IsBranch(c.insns[k].op)
    ensures Refines(c, c.(insns := c.insns[k := c.insns[k].(other := labels[j])]))
  {
    hide FlowOK, Tiled, Clean, Joins, AtInsn, Agree;
    var insn' := c.insns[k].(other := labels[j]);
    var c' := c.(insns := c.insns[k := insn']);
    forall env, als, mem ensures Agree(env, c, Init(c, als, mem), c', Init(c', als, mem)) {
      var inv := (x: Config) => true;
      forall x | inv(x) && AtInsn(c, k, x) ensures Joins(env, c, c', x) {
        RedirectJoins(env, c, order, lastBlock, k, labels, j, x);
      }
      ReplaceInsn(env, c, k, insn', inv, Init(c, als, mem));
    }
  }

  // ---- thread_branch ----

  /** Every instruction of a tiled unit lies in a block of the stream. */
  lemma {:induction false} BlockOf(c: Code, order: seq<int>, i: int, b: int) returns (t: int)
    requires Tiled(c, order) && 0 <= b < |order| && 0 <= i < |c.insns|
    requires order[b] == b && SpanOK(c, b) && c.spans[b].first <= i
    ensures t in order && SpanOK(c, t) && c.spans[t].first <= i <= c.spans[t].last
    decreases |order| - b
  {
    if i <= c.spans[b].last {
      t := b;
      assert order[b] in order;
    } else {
      assert SpanOK(c, |order| - 1);
      assert b + 1 < |order| && order[b + 1] == b + 1 && SpanOK(c, b + 1);
      t := BlockOf(c, order, i, b + 1);
    }
  }

  lemma BranchTarget(c: Code, order: seq<int>, lastBlock: int, i: int)
    requires FlowOK(c, order, lastBlock) && Tiled(c, order) && 0 <= i < |c.insns| && IsBranch(c.insns[i].op)
    ensures LabelBlock(c, c.insns[i].other) in order && SpanOK(c, LabelBlock(c, c.insns[i].other))
  {
    assert order[0] == 0 && SpanOK(c, 0);
    var t := BlockOf(c, order, i, 0);
    assert PlacedIn(c, t);
    assert LastInsn(c, t) == c.insns[i];
    assert LabelBlock(c, LastInsn(c, t).other) in order;
  }

  /** The blocks the scan must not come back to. */
  ghost predicate SeenIs(c: Code, b: int, labels: seq<int>, seen: seq<bool>) {
    forall x :: 0 <= x < |seen| ==>
      (seen[x] <==> x == b || exists j :: 0 < j < |labels| && LabelBlock(c, labels[j]) == x)
  }

  /** The state of the scan: the chain so far, and a position i at or before the next busy instruction. */
  ghost predicate Scanning(
    c: Code, order: seq<int>, b: int, k: int, labels: seq<int>, i: int, newLabel: int, newTarget: int) {
    && Chain(c, order, k, labels) && 0 <= i <= |c.insns|
    && SkipIdle(c, i) == SkipIdle(c, c.spans[LabelBlock(c, labels[|labels| - 1])].first)
    && newLabel == (if |labels| == 1 then 0 else labels[|labels| - 1])
    && (|labels| > 1 ==> newTarget == LabelBlock(c, newLabel))
  }

  lemma ChainGrows(
    c: Code, order: seq<int>, lastBlock: int, b: int, k: int, labels: seq<int>, i: int, newLabel: int, newTarget: int)
    requires FlowOK(c, order, lastBlock) && Tiled(c, order) && Scanning(c, order, b, k, labels, i, newLabel, newTarget)
    requires i < |c.insns| && IsBranch(c.insns[k].op) && Follows(c, k, c.insns[i])
    ensures var l := c.insns[i].other;
      && LabelBlock(c, l) in order && SpanOK(c, LabelBlock(c, l))
      && Hop(c, k, LabelBlock(c, labels[|labels| - 1])) == Some(l)
      && Scanning(c, order, b, k, labels + [l], c.spans[LabelBlock(c, l)].first, l, LabelBlock(c, l))
  {
    hide FlowOK, Tiled;
    var l := c.insns[i].other;
    BranchTarget(c, order, lastBlock, i);
    var longer := labels + [l];
    forall j | 0 <= j < |longer| - 1 ensures Hop(c, k, LabelBlock(c, longer[j])) == Some(longer[j + 1]) {
      if j < |labels| - 1 { assert Hop(c, k, LabelBlock(c, labels[j])) == Some(labels[j + 1]); }
    }
  }

  lemma SeenGrows(c: Code, b: int, labels: seq<int>, l: int, seen: seq<bool>)
    requires SeenIs(c, b, labels, seen) && 0 <= LabelBlock(c, l) < |seen| && |labels| > 0
    ensures SeenIs(c, b, labels + [l], seen[LabelBlock(c, l) := true])
  {
    var t, longer, seen' := LabelBlock(c, l), labels + [l], seen[LabelBlock(c, l) := true];
    forall x | 0 <= x < |seen|
      ensures seen'[x] <==> x == b || exists j :: 0 < j < |longer| && LabelBlock(c, longer[j]) == x
    {
      if j :| 0 < j < |labels| && LabelBlock(c, labels[j]) == x { assert longer[j] == labels[j]; }
      if j :| 0 < j < |longer| && LabelBlock(c, longer[j]) == x {
        if j < |labels| { assert longer[j] == labels[j]; }
      }
      if x == t { assert longer[|labels|] == l; }
    }
  }

  lemma SearchStart(c: Code, order: seq<int>, lastBlock: int, b: int, k: int, seen: seq<bool>)
    requires FlowOK(c, order, lastBlock) && Tiled(c, order) && 0 <= k < |c.insns| && IsBranch(c.insns[k].op)
    requires forall x :: 0 <= x < |seen| ==> seen[x] == (x == b)
    ensures 0 <= c.insns[k].other < |c.labels| && 0 <= c.labels[c.insns[k].other] < |c.spans|
    ensures 0 <= c.spans[c.labels[c.insns[k].other]].first <= |c.insns|
    ensures Scanning(c, order, b, k, [c.insns[k].other], c.spans[c.labels[c.insns[k].other]].first, 0, 0)
    ensures SeenIs(c, b, [c.insns[k].other], seen)
  {
    BranchTarget(c, order, lastBlock, k);
  }

  lemma ScanIdle(c: Code, order: seq<int>, b: int, k: int, labels: seq<int>, i: int, newLabel: int, newTarget: int)
    requires Scanning(c, order, b, k, labels, i, newLabel, newTarget) && i < |c.insns| && IsIdle(c.insns[i].op)
    ensures Scanning(c, order, b, k, labels, i + 1, newLabel, newTarget)
  {}

  lemma ScanHop(
    c: Code, order: seq<int>, lastBlock: int, b: int, k: int, labels: seq<int>, i: int, newLabel: int, newTarget: int,
    seen: seq<bool>)
    requires FlowOK(c, order, lastBlock) && Tiled(c, order) && Scanning(c, order, b, k, labels, i, newLabel, newTarget)
    requires i < |c.insns| && IsBranch(c.insns[k].op) && Follows(c, k, c.insns[i])
    requires SeenIs(c, b, labels, seen) && |seen| >= |c.spans|
    ensures 0 <= c.insns[i].other < |c.labels| && 0 <= c.labels[c.insns[i].other] < |c.spans|
    ensures var l := c.insns[i].other; var t := c.labels[l];
      && 0 <= c.spans[t].first <= |c.insns|
      && (seen[t] ==> Threaded(c, order, b, k, 0, labels))
      && (!seen[t] ==>
            && Scanning(c, order, b, k, labels + [l], c.spans[t].first, l, t)
            && SeenIs(c, b, labels + [l], seen[t := true])
            && CountUnseen(seen[t := true]) < CountUnseen(seen))
  {
    hide FlowOK, Tiled, Hop, CountUnseen;
    ChainGrows(c, order, lastBlock, b, k, labels, i, newLabel, newTarget);
    var l := c.insns[i].other;
    var t := LabelBlock(c, l);
    if !seen[t] {
      SeenGrows(c, b, labels, l, seen);
      Marking(seen, t);
    }
  }

  lemma ScanStops(c: Code, order: seq<int>, b: int, k: int, labels: seq<int>, i: int, newLabel: int, newTarget: int)
    requires Scanning(c, order, b, k, labels, i, newLabel, newTarget)
    requires i < |c.insns| ==> !IsIdle(c.insns[i].op) && !Follows(c, k, c.insns[i])
    ensures Threaded(c, order, b, k, newLabel, labels)
    ensures |labels| > 0 && (newLabel != 0 ==> newLabel == labels[|labels| - 1] && newTarget == LabelBlock(c, newLabel))
  {}

  lemma NoLabelZero(c: Code, order: seq<int>, lastBlock: int)
    requires FlowOK(c, order, lastBlock)
    ensures LabelBlock(c, 0) < 0
  {}

  /** The search loop of thread_branch. */
  method FindDestination(unit: RtlUnit, b: int, k: int) returns (newLabel: int, newTarget: int, ghost labels: seq<int>)
    requires FlowOK(unit.Snap(), unit.order, unit.lastBlock) && Tiled(unit.Snap(), unit.order)
    requires 0 <= b < |unit.spans| <= |unit.blockSeen| && 0 <= k < |unit.insns| && IsBranch(unit.insns[k].op)
    modifies unit`blockSeen
    ensures |unit.blockSeen| == |old(unit.blockSeen)|
    ensures Threaded(unit.Snap(), unit.order, b, k, newLabel, labels) && Destination(unit.Snap(), b, k, newLabel)
    ensures newLabel != 0 ==>
              |labels| > 0 && newLabel == labels[|labels| - 1] && newTarget == LabelBlock(unit.Snap(), newLabel)
  {
    hide FlowOK, Tiled, Scanning, SeenIs, Threaded, CountUnseen, Destination;
    ghost var c := unit.Snap();
    NoLabelZero(c, unit.order, unit.lastBlock);
    unit.blockSeen := seq(|unit.blockSeen|, _ => false)[b := true];
    SearchStart(c, unit.order, unit.lastBlock, b, k, unit.blockSeen);
    newLabel, newTarget, labels := 0, 0, [unit.insns[k].other];
    var i := unit.spans[unit.labels[unit.insns[k].other]].first;
    while i < |unit.insns|
      invariant |unit.blockSeen| == |old(unit.blockSeen)| && 0 <= i <= |unit.insns|
      invariant Scanning(c, unit.order, b, k, labels, i, newLabel, newTarget)
      invariant SeenIs(c, b, labels, unit.blockSeen)
      decreases CountUnseen(unit.blockSeen), |unit.insns| - i
    {
      var insn := unit.insns[i];
      if insn.op.GOTO? || (insn.op == unit.insns[k].op && insn.src1 == unit.insns[k].src1) {
        ScanHop(c, unit.order, unit.lastBlock, b, k, labels, i, newLabel, newTarget, unit.blockSeen);
        var target := unit.labels[insn.other];
        if unit.blockSeen[target] {
          newLabel := 0;
          ThreadedTo(c, unit.order, b, k, newLabel, labels);
          return;
        }
        newLabel, newTarget, labels := insn.other, target, labels + [insn.other];
        unit.blockSeen := unit.blockSeen[target := true];
        i := unit.spans[target].first;
      } else if !insn.op.NOP? && !insn.op.LABEL? {
        break;
      } else {
        ScanIdle(c, unit.order, b, k, labels, i, newLabel, newTarget);
        i := i + 1;
      }
    }
    ScanStops(c, unit.order, b, k, labels, i, newLabel, newTarget);
    ThreadedTo(c, unit.order, b, k, newLabel, labels);
  }

  // ---- The rewrite and the edges ----

  function Redirected(c: Code, b: int, newLabel: int): Code
    requires SpanOK(c, b) && EndsInBranch(c, b)
  {
    if newLabel == 0 then c else c.(insns := c.insns[c.spans[b].last := LastInsn(c, b).(other := newLabel)])
  }

  lemma RelabelLive(d: Decl, insns: seq<Insn>, regs: seq<Reg>, k: int, l: int)
    requires LiveOK(d, insns, regs, {}) && Clean(d, insns) && ConstOK(d, insns, regs)
    requires 0 <= k < |insns| && IsBranch(insns[k].op)
    ensures var insns' := insns[k := insns[k].(other := l)];
      LiveOK(d, insns', regs, {}) && Clean(d, insns') && ConstOK(d, insns', regs)
  {
    var insns' := insns[k := insns[k].(other := l)];
    assert CleanInsn(d, insns[k]);
    forall i, r | 0 <= i < |insns'| && Reads(d, insns'[i], r)
      ensures r < |regs| && regs[r].live && regs[r].birth < i <= regs[r].death
    {
      assert Reads(d, insns[i], r);
    }
    forall r | 0 < r < |regs| ensures Tight(d, insns', regs, r) { assert Tight(d, insns, regs, r); }
    forall r | 0 < r < |regs| && regs[r].live && regs[r].source.CONSTANT? ensures ConstReg(d, insns', regs, r) {
      assert ConstReg(d, insns, regs, r);
    }
  }

  /** The branch of block b goes to its target and nowhere else it might fall to. */
  ghost predicate TwoWay(c: Code, b: int)
    requires SpanOK(c, b)
  {
    IsConditional(LastInsn(c, b).op) ==> LabelBlock(c, LastInsn(c, b).other) != c.spans[b].next
  }

  /** The exit slot of a branch's target. */
  lemma TargetExit(
    c: Code, regs: seq<Reg>, edges: seq<Edges>, owner: seq<int>, order: seq<int>, lastBlock: int, b: int)
    requires WellFormed(c, regs, edges, owner, order, lastBlock, {}) && b in order && SpanOK(c, b) && EndsInBranch(c, b)
    ensures EdgesOK(edges, owner) && |c.spans| == |edges| && IsReal(owner, b) && !IsEmpty(c, b) && |edges[b].exits| == 2
    ensures var target := LabelBlock(c, LastInsn(c, b).other);
      && target >= 0 && target in order && edges[b].exits[if edges[b].exits[1] == target then 1 else 0] == target
      && 0 <= LastInsn(c, b).other < |c.labels|
    ensures FlowOK(c, order, lastBlock) && ExitSet(edges[b]) == Successors(c, b) && Clean(c.decl, c.insns)
  {
    hide StreamOK, Placed, LabelsOK, LiveOK, ConstOK;
    SpansOfStream(c, order, lastBlock);
    hide EdgesOK, Clean;
    EdgeShape(edges, owner, b);
    var target := LabelBlock(c, LastInsn(c, b).other);
    assert SpanOK(c, target);
    assert target in ExitSet(edges[b]);
    ExitSetSize(edges[b], owner, b, target);
  }

  lemma OneExitLeft(c: Code, e: Edges, e': Edges, owner: seq<int>, b: int)
    requires SpanOK(c, b) && EndsInBranch(c, b) && TwoWay(c, b) && ExitSet(e) == Successors(c, b)
    requires ExitSet(e') == ExitSet(e) - {LabelBlock(c, LastInsn(c, b).other)}
    ensures ExitSet(e') == if Falls(c, b) && c.spans[b].next >= 0 then {c.spans[b].next} else {}
    ensures |ExitSet(e')| < 2
  {}

  lemma RedirectedFlow(
    c: Code, edges: seq<Edges>, owner: seq<int>, order: seq<int>, lastBlock: int, b: int, newLabel: int,
    spans': seq<Span>, edges': seq<Edges>, owner': seq<int>)
    requires FlowOK(c, order, lastBlock) && SpanOK(c, b) && Wired(c, edges, owner, order) && b in order
    requires EndsInBranch(c, b) && newLabel != 0 && LabelBlock(c, newLabel) in order && c.spans <= spans'
    requires EdgesOK(edges', owner') && |edges'| == |spans'| && owner <= owner' && TwoWay(c, b)
    requires ExitSet(edges'[b]) ==
             (if Falls(c, b) && c.spans[b].next >= 0 then {c.spans[b].next} else {}) + {LabelBlock(c, newLabel)}
    requires forall a :: 0 <= a < |edges| && a != b ==> edges'[a].exits == edges[a].exits
    ensures var c' := Redirected(c, b, newLabel).(spans := spans');
      FlowOK(c', order, lastBlock) && Wired(c', edges', owner', order) && (Tiled(c, order) ==> Tiled(c', order))
  {
    hide StreamOK, Placed, LabelsOK, EdgesOK, Tiled;
    SpansOfStream(c, order, lastBlock);
    var c1 := Redirected(c, b, newLabel);
    RewriteLast(c, order, lastBlock, b, LastInsn(c, b).(other := newLabel));
    SpansOfStream(c1, order, lastBlock);
    ExtendedFlow(c1, c1.(spans := spans'), order, lastBlock);
    if Tiled(c, order) { TiledRelabel(c, c1, order); }
  }

  lemma TiledRelabel(c: Code, c': Code, order: seq<int>)
    requires Tiled(c, order) && c' == c.(insns := c'.insns) && |c'.insns| == |c.insns|
    ensures Tiled(c', order)
  {
    forall k | 0 <= k < |order| ensures SpanOK(c', k) { assert SpanOK(c, k); }
  }

  lemma RedirectedRefines(
    c: Code, order: seq<int>, lastBlock: int, b: int, newLabel: int, labels: seq<int>, spans': seq<Span>)
    requires FlowOK(c, order, lastBlock) && Tiled(c, order) && Clean(c.decl, c.insns) && SpanOK(c, b)
    requires EndsInBranch(c, b)
    requires Chain(c, order, c.spans[b].last, labels) && newLabel == labels[|labels| - 1] != 0 && c.spans <= spans'
    requires FlowOK(Redirected(c, b, newLabel), order, lastBlock)
    ensures Refines(c, Redirected(c, b, newLabel).(spans := spans'))
  {
    hide FlowOK, Tiled, Clean, Hop, Refines;
    var c1 := Redirected(c, b, newLabel);
    Redirect(c, order, lastBlock, c.spans[b].last, labels, |labels| - 1);
    ExtendRefines(c1, c1.(spans := spans'), order, lastBlock);
    RefinesTransitive(c, c1, c1.(spans := spans'));
  }

  lemma ExtendRefines(c: Code, c': Code, order: seq<int>, lastBlock: int)
    requires FlowOK(c, order, lastBlock) && Extends(c, c')
    ensures Refines(c, c')
  {
    hide Refines, FlowOK, StreamOK, BlockCloses, CoincideBlock;
    var keep := set b | b in order;
    StreamOf(c, order, lastBlock);
    ExtendedStream(c, c', order, lastBlock);
    StreamCloses(c, order, lastBlock);
    forall b | b in keep ensures CoincideBlock(c, c', keep, b) { ExtendedCoincides(c, c', order, keep, b); }
    CoincideRefines(c, c', keep);
  }

  lemma ExtendedCoincides(c: Code, c': Code, order: seq<int>, keep: set<int>, b: int)
    requires Extends(c, c') && BlockCloses(c, order, b) && (forall x <- order :: x in keep)
    ensures CoincideBlock(c, c', keep, b)
  {}

  lemma StreamOf(c: Code, order: seq<int>, lastBlock: int)
    requires FlowOK(c, order, lastBlock)
    ensures StreamOK(c, order, lastBlock)
  {}

  lemma ThreadDone(
    c: Code, regs: seq<Reg>, edges: seq<Edges>, owner: seq<int>, order: seq<int>, lastBlock: int, b: int,
    newLabel: int, labels: seq<int>, spans': seq<Span>, edges': seq<Edges>, owner': seq<int>)
    requires WellFormed(c, regs, edges, owner, order, lastBlock, {}) && Tiled(c, order)
    requires b in order && SpanOK(c, b) && EndsInBranch(c, b) && TwoWay(c, b)
    requires Threaded(c, order, b, c.spans[b].last, newLabel, labels) && newLabel != 0 && c.spans <= spans'
    requires EdgesOK(edges', owner') && |edges'| == |spans'| && owner <= owner'
    requires ExitSet(edges'[b]) ==
             (if Falls(c, b) && c.spans[b].next >= 0 then {c.spans[b].next} else {}) + {LabelBlock(c, newLabel)}
    requires forall a :: 0 <= a < |edges| && a != b ==> edges'[a].exits == edges[a].exits
    ensures var c' := Redirected(c, b, newLabel).(spans := spans');
      && WellFormed(c', regs, edges', owner', order, lastBlock, {}) && Tiled(c', order) && Refines(c, c')
  {
    hide FlowOK, Tiled, Wired, EdgesOK, ExitSet, Falls, LiveOK, Clean, ConstOK, Hop, Refines;
    RedirectedFlow(c, edges, owner, order, lastBlock, b, newLabel, spans', edges', owner');
    RedirectedFlowOnly(c, order, lastBlock, b, newLabel);
    RedirectedRefines(c, order, lastBlock, b, newLabel, labels, spans');
    RelabelLive(c.decl, c.insns, regs, c.spans[b].last, newLabel);
  }

  lemma RedirectedFlowOnly(c: Code, order: seq<int>, lastBlock: int, b: int, newLabel: int)
    requires FlowOK(c, order, lastBlock) && b in order && SpanOK(c, b) && EndsInBranch(c, b)
    requires LabelBlock(c, newLabel) in order
    ensures FlowOK(Redirected(c, b, newLabel), order, lastBlock)
  {
    hide StreamOK, Placed, LabelsOK;
    RewriteLast(c, order, lastBlock, b, LastInsn(c, b).(other := newLabel));
  }

  /** One block of the pass: c' is c with the branch that ends block b, if any, threaded. */
  ghost predicate ThreadStep(c: Code, order: seq<int>, b: int, c': Code) {
    && SpanOK(c, b) && c.spans <= c'.spans
    && if !EndsInBranch(c, b) then c' == c
       else exists newLabel, labels :: ThreadStepTo(c, order, b, c', newLabel, labels)
  }

  ghost predicate ThreadStepTo(c: Code, order: seq<int>, b: int, c': Code, newLabel: int, labels: seq<int>)
    requires SpanOK(c, b) && EndsInBranch(c, b)
  {
    && Threaded(c, order, b, c.spans[b].last, newLabel, labels)
    && c' == Redirected(c, b, newLabel).(spans := c'.spans)
  }

  lemma ThreadFacts(
    c: Code, regs: seq<Reg>, edges: seq<Edges>, owner: seq<int>, order: seq<int>, lastBlock: int, b: int)
    requires WellFormed(c, regs, edges, owner, order, lastBlock, {}) && b in order
    ensures SpanOK(c, b) && FlowOK(c, order, lastBlock) && |c.spans| == |edges| == |owner| && 0 <= b < |c.spans|
    ensures EdgesOK(edges, owner) && IsReal(owner, b) && |edges[b].exits| == 2
  {
    hide StreamOK, Placed, LabelsOK, TargetsOK;
    SpansOfStream(c, order, lastBlock);
    EdgeShape(edges, owner, b);
  }

  lemma StayedWell(
    c: Code, regs: seq<Reg>, edges: seq<Edges>, owner: seq<int>, order: seq<int>, lastBlock: int, unit: RtlUnit)
    requires WellFormed(c, regs, edges, owner, order, lastBlock, {})
    requires unit.Snap() == c && unit.regs == regs && unit.edges == edges && unit.owner == owner
    requires unit.order == order && unit.lastBlock == lastBlock
    ensures UnitOK(unit)
  {}

  lemma NewTargetReal(
    c: Code, regs: seq<Reg>, edges: seq<Edges>, owner: seq<int>, order: seq<int>, lastBlock: int, b: int, k: int,
    newLabel: int, labels: seq<int>)
    requires WellFormed(c, regs, edges, owner, order, lastBlock, {}) && Threaded(c, order, b, k, newLabel, labels)
    requires newLabel != 0
    ensures LabelBlock(c, newLabel) in order && IsReal(owner, LabelBlock(c, newLabel)) && |c.spans| == |edges|
    ensures |labels| > 0 && newLabel == labels[|labels| - 1]
  {
    hide StreamOK, Placed, LabelsOK, TargetsOK, EdgesOK;
    SpansOfStream(c, order, lastBlock);
  }

  /** thread_branch, applied to the branch that ends block b. */
  method ThreadBranch(unit: RtlUnit, b: int)
    requires UnitOK(unit) && Tiled(unit.Snap(), unit.order) && b in unit.order && |unit.blockSeen| >= |unit.spans|
    requires SpanOK(unit.Snap(), b) && EndsInBranch(unit.Snap(), b) && TwoWay(unit.Snap(), b)
    modifies unit`insns, unit`edges, unit`spans, unit`owner, unit`blockSeen
    ensures UnitOK(unit) && Tiled(unit.Snap(), unit.order) && Refines(old(unit.Snap()), unit.Snap())
    ensures ThreadStep(old(unit.Snap()), unit.order, b, unit.Snap()) && Direct(unit.Snap(), b)
    ensures old(unit.spans) <= unit.spans && |unit.spans| <= |old(unit.spans)| + 1
    ensures |unit.blockSeen| == |old(unit.blockSeen)| && RealKept(old(unit.owner), unit.owner)
  {
    hide WellFormed, Tiled, Refines, Threaded, EdgesOK, ExitSet, FlowOK, Wired, Direct, Destination, ThreadStep;
    ghost var c, regs, edges, owner := unit.Snap(), unit.regs, unit.edges, unit.owner;
    ThreadFacts(c, regs, edges, owner, unit.order, unit.lastBlock, b);
    TargetExit(c, regs, edges, owner, unit.order, unit.lastBlock, b);
    var k := unit.spans[b].last;
    var newLabel, newTarget;
    ghost var labels;
    newLabel, newTarget, labels := FindDestination(unit, b, k);
    if newLabel != 0 {
      var target := unit.labels[unit.insns[k].other];
      var exitIndex := if unit.edges[b].exits[1] == target then 1 else 0;
      RemoveEdge(unit, b, exitIndex);
      OneExitLeft(c, edges[b], unit.edges[b], owner, b);
      NewTargetReal(c, regs, edges, owner, unit.order, unit.lastBlock, b, k, newLabel, labels);
      var ok := AddEdge(unit, b, newTarget);
      assert ok;
      unit.insns := unit.insns[k := unit.insns[k].(other := newLabel)];
      ThreadDone(c, regs, edges, owner, unit.order, unit.lastBlock, b, newLabel, labels, unit.spans, unit.edges,
                 unit.owner);
    } else {
      RefinesSelf(c);
      StayedWell(c, regs, edges, owner, unit.order, unit.lastBlock, unit);
    }
    StepTaken(c, unit.order, unit.lastBlock, b, unit.Snap(), newLabel, labels);
  }

  lemma StepTaken(c: Code, order: seq<int>, lastBlock: int, b: int, c': Code, newLabel: int, labels: seq<int>)
    requires SpanOK(c, b) && EndsInBranch(c, b) && FlowOK(c, order, lastBlock) && b in order
    requires Threaded(c, order, b, c.spans[b].last, newLabel, labels) && c.spans <= c'.spans
    requires c' == Redirected(c, b, newLabel).(spans := c'.spans)
    ensures ThreadStep(c, order, b, c') && Direct(c', b)
  {
    hide FlowOK, Threaded, PlacedIn, Direct;
    assert ThreadStepTo(c, order, b, c', newLabel, labels);
    DirectParts(c, order, lastBlock, b);
    NoLabelZero(c, order, lastBlock);
    StepDirectTo(c, order, b, c', newLabel, labels);
  }

  // ---- The pass ----

  /** c' differs from c in the labels of branches and in additional block slots only. */
  ghost predicate Relabelled(c: Code, c': Code) {
    && c' == c.(insns := c'.insns, spans := c'.spans) && c.spans <= c'.spans && |c'.insns| == |c.insns|
    && forall i :: 0 <= i < |c.insns| ==>
         c'.insns[i] == c.insns[i]
             || (IsBranch(c.insns[i].op) && c'.insns[i] == c.insns[i].(other := c'.insns[i].other))
  }

  lemma JumpKept(c: Code, c': Code, br: Insn, br': Insn, t: int, j: int)
    requires Relabelled(c, c') && 0 <= t < |c.spans| && br'.op == br.op && br'.src1 == br.src1
    ensures JumpsAt(c, br, t, j) <==> JumpsAt(c', br', t, j)
  {
    assert c'.spans[t] == c.spans[t];
  }

  lemma StaysKept(c: Code, c': Code, br: Insn, br': Insn, t: int)
    requires Relabelled(c, c') && 0 <= t < |c.spans| && br'.op == br.op && br'.src1 == br.src1 && Stays(c, br, t)
    ensures Stays(c', br', t)
  {
    hide Relabelled, JumpsAt;
    forall j ensures !JumpsAt(c', br', t, j) { JumpKept(c, c', br, br', t, j); }
  }

  /** The blocks of a chain that starts inside a circle lie on the circle. */
  lemma {:induction false} ChainWithin(
    c: Code, order: seq<int>, br: Insn, a: int, ts: set<int>, k: int, labels: seq<int>, m: nat)
    requires JumpsWithin(c, br, a, ts) && Chain(c, order, k, labels) && m < |labels| && IsBranch(c.insns[k].op)
    requires SpanOK(c, a) && PlacedIn(c, a) && EndsInBranch(c, a) && br == LastInsn(c, a)
    requires LabelBlock(c, br.other) in ts && LabelBlock(c, labels[0]) in ts + {a}
    ensures LabelBlock(c, labels[m]) in ts + {a}
    decreases m
  {
    hide JumpsWithin, PlacedIn, Hop;
    if m > 0 {
      ChainWithin(c, order, br, a, ts, k, labels, m - 1);
      var t := LabelBlock(c, labels[m - 1]);
      assert Hop(c, k, t) == Some(labels[m]);
      HopValue(c, k, t);
      if t in ts {
        JumpWithin(c, br, a, ts, t);
      } else {
        HopFromEnd(c, a, k);
      }
    }
  }

  lemma JumpWithin(c: Code, br: Insn, a: int, ts: set<int>, t: int)
    requires JumpsWithin(c, br, a, ts) && t in ts && SpanOK(c, t) && SkipIdle(c, c.spans[t].first) < |c.insns|
    ensures LabelBlock(c, c.insns[SkipIdle(c, c.spans[t].first)].other) in ts + {a}
  {
    hide JumpsAt;
    var j := JumpInto(c, br, a, ts, t);
    JumpIsFirst(c, br, t, j);
  }

  /** Jumping on at once from a block that ends in a branch is taking that branch. */
  lemma HopFromEnd(c: Code, a: int, k: int)
    requires SpanOK(c, a) && PlacedIn(c, a) && EndsInBranch(c, a)
    requires 0 <= k < |c.insns| && IsBranch(c.insns[k].op) && Hop(c, k, a).Some?
    ensures SkipIdle(c, c.spans[a].first) == c.spans[a].last
  {
    var i := SkipIdle(c, c.spans[a].first);
    assert !IsIdle(c.insns[c.spans[a].last].op);
    assert i <= c.spans[a].last;
    assert IsBranch(c.insns[i].op);
  }

  /** The step of another block leaves a circle a circle. */
  lemma CircleKept(c: Code, order: seq<int>, b: int, c': Code, newLabel: int, labels: seq<int>, br: Insn, a: int)
    requires SpanOK(c, b) && EndsInBranch(c, b) && ThreadStepTo(c, order, b, c', newLabel, labels)
    requires Relabelled(c, c') && ComesRound(c, br, a, LabelBlock(c, br.other))
    requires SpanOK(c, a) && PlacedIn(c, a) && EndsInBranch(c, a) && br == LastInsn(c, a)
    ensures ComesRound(c', br, a, LabelBlock(c, br.other))
  {
    hide JumpsAt, JumpsWithin, PlacedIn, Relabelled, Hop;
    var ts: set<int> :| LabelBlock(c, br.other) in ts && JumpsWithin(c, br, a, ts);
    forall t | t in ts ensures JumpsInto(c', br, t, ts + {a}) {
      var j := JumpInto(c, br, a, ts, t);
      JumpKept(c, c', br, br, t, j);
      if j == c.spans[b].last && newLabel != 0 {
        ChainWithin(c, order, br, a, ts, j, labels, |labels| - 1);
      }
    }
    WithinClose(c', br, a, ts);
  }

  lemma JumpInto(c: Code, br: Insn, a: int, ts: set<int>, t: int) returns (j: int)
    requires JumpsWithin(c, br, a, ts) && t in ts
    ensures JumpsAt(c, br, t, j) && 0 <= t < |c.spans| && 0 <= j < |c.insns|
    ensures LabelBlock(c, c.insns[j].other) in ts + {a}
  {
    assert JumpsInto(c, br, t, ts + {a});
    j :| JumpsAt(c, br, t, j) && LabelBlock(c, c.insns[j].other) in ts + {a};
  }

  lemma WithinClose(c: Code, br: Insn, a: int, ts: set<int>)
    requires forall t <- ts :: JumpsInto(c, br, t, ts + {a})
    ensures JumpsWithin(c, br, a, ts)
  {}

  lemma StepDirect(c: Code, order: seq<int>, b: int, c': Code)
    requires ThreadStep(c, order, b, c') && LabelBlock(c, 0) < 0 && PlacedIn(c, b)
    ensures Relabelled(c, c') && SpanOK(c', b) && Direct(c', b)
  {
    hide ThreadStepTo, PlacedIn, Stays, ComesRound;
    if EndsInBranch(c, b) {
      var newLabel, labels :| ThreadStepTo(c, order, b, c', newLabel, labels);
      StepDirectTo(c, order, b, c', newLabel, labels);
    }
  }

  lemma StepDirectTo(c: Code, order: seq<int>, b: int, c': Code, newLabel: int, labels: seq<int>)
    requires SpanOK(c, b) && EndsInBranch(c, b) && c.spans <= c'.spans && LabelBlock(c, 0) < 0 && PlacedIn(c, b)
    requires ThreadStepTo(c, order, b, c', newLabel, labels)
    ensures Relabelled(c, c') && SpanOK(c', b) && Direct(c', b)
  {
    hide Hop, Stays, ComesRound, PlacedIn;
    var k, br, br' := c.spans[b].last, LastInsn(c, b), LastInsn(c', b);
    var t := LabelBlock(c, br'.other);
    ThreadedTo(c, order, b, k, newLabel, labels);
    assert SpanOK(c, LabelBlock(c, labels[0])) && SpanOK(c, LabelBlock(c, labels[|labels| - 1]));
    if Stays(c, br, t) {
      StaysKept(c, c', br, br', t);
    } else {
      CircleKept(c, order, b, c', newLabel, labels, br, b);
    }
  }

  lemma DirectKept(c: Code, order: seq<int>, lastBlock: int, b: int, c': Code, a: int)
    requires FlowOK(c, order, lastBlock) && ThreadStep(c, order, b, c') && a in order && b in order && a != b
    requires Relabelled(c, c') && Direct(c, a)
    ensures Direct(c', a)
  {
    hide FlowOK, ThreadStep, Relabelled, Stays, ComesRound, ThreadStepTo, PlacedIn;
    DirectParts(c, order, lastBlock, a);
    StepElsewhere(c, order, lastBlock, b, c', a);
    SameSpan(c, c', a);
    if EndsInBranch(c, a) {
      var br := LastInsn(c, a);
      if Stays(c, br, LabelBlock(c, br.other)) {
        StaysKept(c, c', br, br, LabelBlock(c, br.other));
      } else {
        StepCircleKept(c, order, b, c', br, a);
      }
    }
  }

  lemma StepCircleKept(c: Code, order: seq<int>, b: int, c': Code, br: Insn, a: int)
    requires ThreadStep(c, order, b, c') && Relabelled(c, c') && ComesRound(c, br, a, LabelBlock(c, br.other))
    requires SpanOK(c, a) && PlacedIn(c, a) && EndsInBranch(c, a) && br == LastInsn(c, a)
    ensures ComesRound(c', br, a, LabelBlock(c, br.other))
  {
    hide ComesRound, ThreadStepTo, PlacedIn, Relabelled;
    if EndsInBranch(c, b) {
      var newLabel, labels :| ThreadStepTo(c, order, b, c', newLabel, labels);
      CircleKept(c, order, b, c', newLabel, labels, br, a);
    }
  }

  lemma SameSpan(c: Code, c': Code, a: int)
    requires Relabelled(c, c') && SpanOK(c, a)
    ensures c'.spans[a] == c.spans[a] && c'.labels == c.labels && |c'.insns| == |c.insns|
  {}

  lemma DirectParts(c: Code, order: seq<int>, lastBlock: int, a: int)
    requires FlowOK(c, order, lastBlock) && a in order
    ensures SpanOK(c, a) && PlacedIn(c, a) && StreamOK(c, order, lastBlock)
    ensures EndsInBranch(c, a) ==> 0 <= LabelBlock(c, LastInsn(c, a).other) < |c.spans|
  {
    hide StreamOK;
    SpansOfStream(c, order, lastBlock);
    assert PlacedIn(c, a);
    if EndsInBranch(c, a) { assert SpanOK(c, LabelBlock(c, LastInsn(c, a).other)); }
  }

  lemma StepElsewhere(c: Code, order: seq<int>, lastBlock: int, b: int, c': Code, a: int)
    requires StreamOK(c, order, lastBlock) && ThreadStep(c, order, b, c') && a in order && b in order && a != b
    ensures SpanOK(c, a) && SpanOK(c', a) && LastInsn(c', a) == LastInsn(c, a)
    ensures TwoWay(c, a) ==> TwoWay(c', a)
  {
    hide Threaded;
    if EndsInBranch(c, b) && !IsEmpty(c, b) { BlocksDisjoint(c, order, lastBlock, a, b, c.spans[b].last); }
  }

  ghost predicate PassState(unit: RtlUnit, c0: Code, history: seq<Code>, m: int, b: int)
    reads unit
  {
    && UnitOK(unit) && Tiled(unit.Snap(), unit.order) && 0 <= m <= |unit.order|
    && b == (if m < |unit.order| then unit.order[m] else -1) && (b < 0 ==> m == |unit.order|)
    && History(unit.order, history, m) && history[0] == c0 && history[m] == unit.Snap()
    && Refines(c0, unit.Snap())
    && (forall j :: m <= j < |unit.order| ==> SpanOK(unit.Snap(), unit.order[j]) && TwoWay(unit.Snap(), unit.order[j]))
    && (forall j :: 0 <= j < m ==> Direct(unit.Snap(), unit.order[j]))
  }

  /** The states of the unit between the first m single steps. */
  ghost predicate History(order: seq<int>, history: seq<Code>, m: int) {
    && 0 <= m <= |order| && |history| == m + 1
    && forall j :: 0 <= j < m ==> ThreadStep(history[j], order, order[j], history[j + 1])
  }

  lemma PassOpen(unit: RtlUnit, c0: Code, history: seq<Code>, m: int, b: int)
    requires PassState(unit, c0, history, m, b) && b >= 0
    ensures UnitOK(unit) && Tiled(unit.Snap(), unit.order) && 0 <= m < |unit.order| && b == unit.order[m]
    ensures b in unit.order
    ensures SpanOK(unit.Snap(), b) && TwoWay(unit.Snap(), b)
  {}

  lemma PassClose(
    unit: RtlUnit, c0: Code, history: seq<Code>, m: int, c: Code, order: seq<int>, lastBlock: int, b: int)
    requires UnitOK(unit) && Tiled(unit.Snap(), order) && unit.order == order && unit.lastBlock == lastBlock
    requires 0 <= m < |order| && b == order[m] && FlowOK(c, order, lastBlock) && LabelBlock(c, 0) < 0
    requires History(order, history, m) && history[0] == c0 && history[m] == c && Refines(c0, c)
    requires forall j :: m <= j < |order| ==> SpanOK(c, order[j]) && TwoWay(c, order[j])
    requires forall j :: 0 <= j < m ==> Direct(c, order[j])
    requires ThreadStep(c, order, b, unit.Snap()) && Refines(c, unit.Snap())
    ensures PassState(unit, c0, history + [unit.Snap()], m + 1, unit.Snap().spans[b].next)
  {
    hide UnitOK, Tiled, Refines, ThreadStep, TwoWay, Direct, FlowOK, Relabelled, PlacedIn;
    var c', longer := unit.Snap(), history + [unit.Snap()];
    RefinesTransitive(c0, c, c');
    DirectParts(c, order, lastBlock, b);
    StepDirect(c, order, b, c');
    SameSpan(c, c', b);
    OrderDistinct(c, order, lastBlock, m);
    forall j | 0 <= j < |order| && j != m
      ensures SpanOK(c', order[j]) && LastInsn(c', order[j]) == LastInsn(c, order[j])
      ensures TwoWay(c, order[j]) ==> TwoWay(c', order[j])
    {
      DistinctBlocks(c, order, lastBlock, j, m);
      StepElsewhere(c, order, lastBlock, b, c', order[j]);
    }
    forall j | 0 <= j < m + 1 ensures Direct(c', order[j]) {
      if j < m {
        DistinctBlocks(c, order, lastBlock, j, m);
        DirectKept(c, order, lastBlock, b, c', order[j]);
      }
    }
    forall j | 0 <= j < m + 1 ensures ThreadStep(longer[j], order, order[j], longer[j + 1]) {
      if j < m { assert ThreadStep(history[j], order, order[j], history[j + 1]); }
    }
  }

  lemma DistinctBlocks(c: Code, order: seq<int>, lastBlock: int, j: int, m: int)
    requires StreamOK(c, order, lastBlock) && 0 <= j < |order| && 0 <= m < |order| && j != m
    ensures order[j] != order[m] && order[j] in order && order[m] in order
  {}

  method ThreadNext(unit: RtlUnit, b: int, ghost c0: Code, ghost history: seq<Code>, ghost m: int)
    returns (next: int, ghost history': seq<Code>)
    requires PassState(unit, c0, history, m, b) && b >= 0
    requires |unit.blockSeen| >= |unit.spans|
    modifies unit`insns, unit`edges, unit`spans, unit`owner, unit`blockSeen
    ensures PassState(unit, c0, history', m + 1, next)
    ensures |unit.spans| <= |old(unit.spans)| + 1 && |unit.blockSeen| == |old(unit.blockSeen)|
    ensures RealKept(old(unit.owner), unit.owner)
  {
    hide UnitOK, Tiled, Refines, PassState, ThreadStep, TwoWay, History;
    ghost var c := unit.Snap();
    PassOpen(unit, c0, history, m, b);
    PassParts(unit, c0, history, m, b);
    if unit.spans[b].last >= unit.spans[b].first && IsBranch(unit.insns[unit.spans[b].last].op) {
      ThreadBranch(unit, b);
    } else {
      NoStep(c, unit.order, b);
    }
    history' := history + [unit.Snap()];
    PassClose(unit, c0, history, m, c, unit.order, unit.lastBlock, b);
    next := unit.spans[b].next;
  }

  lemma NoStep(c: Code, order: seq<int>, b: int)
    requires SpanOK(c, b) && !EndsInBranch(c, b)
    ensures ThreadStep(c, order, b, c) && Refines(c, c)
  {
    RefinesSelf(c);
  }

  lemma PassParts(unit: RtlUnit, c0: Code, history: seq<Code>, m: int, b: int)
    requires PassState(unit, c0, history, m, b) && b >= 0
    ensures FlowOK(unit.Snap(), unit.order, unit.lastBlock) && 0 <= b < |unit.spans| && LabelBlock(unit.Snap(), 0) < 0
    ensures History(unit.order, history, m) && |history| == m + 1
    ensures history[0] == c0 && history[m] == unit.Snap() && Refines(c0, unit.Snap())
    ensures forall j :: m <= j < |unit.order| ==>
              SpanOK(unit.Snap(), unit.order[j]) && TwoWay(unit.Snap(), unit.order[j])
    ensures forall j :: 0 <= j < m ==> Direct(unit.Snap(), unit.order[j])
  {
    hide Refines, ThreadStep, TwoWay, Direct;
  }

  lemma PassStart(unit: RtlUnit)
    requires UnitOK(unit) && Tiled(unit.Snap(), unit.order) && AllTwoWay(unit.Snap(), unit.order)
    ensures PassState(unit, unit.Snap(), [unit.Snap()], 0, 0)
  {
    RefinesSelf(unit.Snap());
    assert forall j :: 0 <= j < |unit.order| ==> unit.order[j] in unit.order;
  }

  /** No conditional branch targets the block it would fall through to. */
  ghost predicate AllTwoWay(c: Code, order: seq<int>) { forall b <- order :: SpanOK(c, b) && TwoWay(c, b) }

  /** rtl_opt_thread_branches: a sequence of single steps, one per block, after which every branch goes straight to
      its final destination or belongs to a circle. */
  method ThreadAll(unit: RtlUnit) returns (ghost history: seq<Code>)
    requires UnitOK(unit) && Tiled(unit.Snap(), unit.order) && AllTwoWay(unit.Snap(), unit.order)
    requires |unit.blockSeen| >= |unit.spans| + |unit.order|
    modifies unit`insns, unit`edges, unit`spans, unit`owner, unit`blockSeen
    ensures UnitOK(unit) && Tiled(unit.Snap(), unit.order) && Refines(old(unit.Snap()), unit.Snap())
    ensures |unit.blockSeen| == |old(unit.blockSeen)| >= |unit.spans| && RealKept(old(unit.owner), unit.owner)
    ensures History(unit.order, history, |unit.order|)
    ensures history[0] == old(unit.Snap()) && history[|unit.order|] == unit.Snap()
    ensures forall j :: 0 <= j < |unit.order| ==> Direct(unit.Snap(), unit.order[j])
  {
    hide PassState, UnitOK, Refines, Tiled, Direct, AllTwoWay, ThreadStep;
    ghost var c0 := unit.Snap();
    history := [c0];
    var b := 0;
    ghost var m := 0;
    PassStart(unit);
    while b >= 0
      invariant PassState(unit, c0, history, m, b) && 0 <= m <= |unit.order|
      invariant |unit.blockSeen| == |old(unit.blockSeen)| && |unit.spans| <= |old(unit.spans)| + m
      invariant RealKept(old(unit.owner), unit.owner)
      decreases |unit.order| - m
    {
      PassOpen(unit, c0, history, m, b);
      b, history := ThreadNext(unit, b, c0, history, m);
      m := m + 1;
    }
    PassEnd(unit, c0, history, m, b);
  }

  lemma PassEnd(unit: RtlUnit, c0: Code, history: seq<Code>, m: int, b: int)
    requires PassState(unit, c0, history, m, b) && b < 0
    ensures UnitOK(unit) && Tiled(unit.Snap(), unit.order) && m == |unit.order|
    ensures History(unit.order, history, m) && history[0] == c0 && history[m] == unit.Snap() && Refines(c0, unit.Snap())
    ensures forall j :: 0 <= j < m ==> Direct(unit.Snap(), unit.order[j])
  {
    hide Refines, ThreadStep, TwoWay, Direct;
  }
}
