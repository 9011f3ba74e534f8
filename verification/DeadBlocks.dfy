/** rtl_opt_drop_dead_blocks: the stream keeps exactly the blocks reachable from its start. */
module DeadBlocks {
  import opened Rtl
  import opened Liveness
  import opened Semantics
  import opened Rewrite
  import opened Flow
  import opened BlockEdges
  import opened Unit
  import opened Kill
  import opened Invariant
  import opened Removal
  import opened AliasFlow

  // ---- visit_block ----

  ghost predicate CfgPath(c: Code, a: int, b: int, path: seq<int>) {
    && |path| > 0 && path[0] == a && path[|path| - 1] == b
    && forall j :: 0 <= j < |path| - 1 ==> SpanOK(c, path[j]) && path[j + 1] in Successors(c, path[j])
  }

  /** Control can pass from the start of block a to the start of block b. */
  ghost predicate Reaches(c: Code, a: int, b: int) { exists path :: CfgPath(c, a, b, path) }

  lemma ReachesSelf(c: Code, a: int)
    ensures Reaches(c, a, a)
  {
    assert CfgPath(c, a, a, [a]);
  }

  lemma ReachesVia(c: Code, a: int, t: int, b: int)
    requires SpanOK(c, a) && t in Successors(c, a) && Reaches(c, t, b)
    ensures Reaches(c, a, b)
  {
    var path :| CfgPath(c, t, b, path);
    var longer := [a] + path;
    forall j | 0 <= j < |longer| - 1 ensures SpanOK(c, longer[j]) && longer[j + 1] in Successors(c, longer[j]) {
      if j > 0 { assert path[j - 1 + 1] in Successors(c, path[j - 1]); }
    }
    assert CfgPath(c, a, b, longer);
  }

  /** All newly seen blocks are reachable from b, and all their successors are seen. */
  ghost predicate Visited(c: Code, b: int, seen: seq<bool>, seen': seq<bool>) {
    && |seen'| == |seen|
    && (forall x :: 0 <= x < |seen| && seen[x] ==> seen'[x])
    && (forall x :: 0 <= x < |seen| && seen'[x] && !seen[x] ==> Reaches(c, b, x) && Closed(c, x, seen'))
  }

  ghost predicate Closed(c: Code, x: int, seen: seq<bool>) {
    SpanOK(c, x) && forall t <- Successors(c, x) :: 0 <= t < |seen| && seen[t]
  }

  /** Visits made from successors of b, after b was marked. */
  lemma VisitedVia(c: Code, b: int, t: int, seen: seq<bool>, s1: seq<bool>, s2: seq<bool>)
    requires SpanOK(c, b) && t in Successors(c, b) && Visited(c, t, s1, s2) && |s1| == |seen|
    requires forall x :: 0 <= x < |seen| && seen[x] ==> s1[x]
    requires forall x :: 0 <= x < |seen| && s1[x] && !seen[x] ==> Reaches(c, b, x) && (x == b || Closed(c, x, s1))
    ensures |s2| == |seen| && forall x :: 0 <= x < |seen| && s1[x] ==> s2[x]
    ensures forall x :: 0 <= x < |seen| && s2[x] && !seen[x] ==> Reaches(c, b, x) && (x == b || Closed(c, x, s2))
  {
    hide Reaches, Successors;
    forall x | 0 <= x < |seen| && s2[x] && !seen[x] ensures Reaches(c, b, x) && (x == b || Closed(c, x, s2)) {
      if !s1[x] { ReachesVia(c, b, t, x); }
    }
  }

  method VisitBlock(unit: RtlUnit, b: int, ghost c: Code)
    requires GraphOK(c, unit.edges, unit.order) && b in unit.order && 0 <= b < |unit.edges| <= |unit.blockSeen|
    requires !unit.blockSeen[b]
    modifies unit`blockSeen
    ensures Visited(c, b, old(unit.blockSeen), unit.blockSeen) && unit.blockSeen[b]
    decreases CountUnseen(unit.blockSeen)
  {
    hide GraphOK, Reaches, Successors, CountUnseen;
    ghost var seen := unit.blockSeen;
    Marking(seen, b);
    ReachesSelf(c, b);
    ExitsAre(c, unit.edges, unit.order, b);
    unit.blockSeen := unit.blockSeen[b := true];
    ghost var s1 := unit.blockSeen;
    if unit.edges[b].exits[1] >= 0 {
      if !unit.blockSeen[unit.edges[b].exits[1]] {
        VisitBlock(unit, unit.edges[b].exits[1], c);
        VisitedVia(c, b, unit.edges[b].exits[1], seen, s1, unit.blockSeen);
        CountMonotone(s1, unit.blockSeen);
      }
    }
    ghost var s2 := unit.blockSeen;
    if unit.edges[b].exits[0] >= 0 && !unit.blockSeen[unit.edges[b].exits[0]] {
      VisitBlock(unit, unit.edges[b].exits[0], c);
      VisitedVia(c, b, unit.edges[b].exits[0], seen, s2, unit.blockSeen);
    }
  }

  lemma {:induction false} ReachedAreSeen(c: Code, a: int, b: int, seen: seq<bool>, path: seq<int>)
    requires 0 <= a < |seen| && seen[a] && (forall x :: 0 <= x < |seen| && seen[x] ==> Closed(c, x, seen))
    requires CfgPath(c, a, b, path)
    ensures 0 <= b < |seen| && seen[b]
    decreases |path|
  {
    if |path| > 1 {
      assert Closed(c, a, seen) && path[1] in Successors(c, path[0]);
      assert path[1..][|path| - 2] == b;
      forall j | 0 <= j < |path[1..]| - 1
        ensures SpanOK(c, path[1..][j]) && path[1..][j + 1] in Successors(c, path[1..][j])
      {
        assert path[j + 1 + 1] in Successors(c, path[j + 1]);
      }
      ReachedAreSeen(c, path[1], b, seen, path[1..]);
    }
  }

  /** The blocks marked after a visit of the start block are exactly the reachable ones. */
  ghost predicate SeenIsReachable(c: Code, seen: seq<bool>) {
    forall x :: 0 <= x < |seen| ==> (seen[x] <==> Reaches(c, 0, x))
  }

  /** The first step of rtl_opt_drop_dead_blocks. */
  method VisitAll(unit: RtlUnit, ghost c: Code)
    requires GraphOK(c, unit.edges, unit.order) && 0 in unit.order && 0 < |unit.edges| <= |unit.blockSeen|
    modifies unit`blockSeen
    ensures |unit.blockSeen| == |old(unit.blockSeen)| && SeenIsReachable(c, unit.blockSeen)
    ensures unit.blockSeen[0]
    ensures forall x :: 0 <= x < |unit.blockSeen| && unit.blockSeen[x] ==> Closed(c, x, unit.blockSeen)
  {
    hide GraphOK, Reaches, Successors;
    unit.blockSeen := seq(|unit.blockSeen|, _ => false);
    VisitBlock(unit, 0, c);
    ghost var seen := unit.blockSeen;
    forall x | 0 <= x < |seen| && Reaches(c, 0, x) ensures seen[x] { ReachableSeen(c, x, seen); }
  }

  lemma ReachableSeen(c: Code, x: int, seen: seq<bool>)
    requires |seen| > 0 && seen[0] && (forall x :: 0 <= x < |seen| && seen[x] ==> Closed(c, x, seen))
    requires Reaches(c, 0, x)
    ensures 0 <= x < |seen| && seen[x]
  {
    var path :| CfgPath(c, 0, x, path);
    ReachedAreSeen(c, 0, x, seen, path);
  }

  // ---- Taking a block out of the stream ----

  function Without(order: seq<int>, p: int): seq<int>
    requires 0 <= p < |order|
  {
    order[..p] + order[p + 1..]
  }

  predicate SameExtents(c: Code, c': Code) {
    && c' == c.(spans := c'.spans) && |c'.spans| == |c.spans|
    && forall b :: 0 <= b < |c.spans| ==> c'.spans[b].first == c.spans[b].first && c'.spans[b].last == c.spans[b].last
  }

  lemma LinksOf(c: Code, order: seq<int>, lastBlock: int, p: int)
    requires StreamOK(c, order, lastBlock) && 0 <= p < |order|
    ensures 0 <= order[p] < |c.spans| && c.spans[order[p]].next == After(order, p)
    ensures c.spans[order[p]].prev == Before(order, p)
    ensures 0 < p ==> 0 <= order[p - 1] < |c.spans| && order[p - 1] != order[p]
    ensures p + 1 < |order| ==>
              0 < order[p + 1] < |c.spans| && order[p + 1] != order[p] && (0 < p ==> order[p - 1] != order[p + 1])
    ensures p == 0 <==> order[p] == 0
  {
    assert c.spans[order[p]].next == After(order, p);
  }

  /** The spans after block order[p] was bypassed. */
  function Bypassed(c: Code, order: seq<int>, p: int): seq<Span>
    requires 0 < p < |order| && 0 <= order[p - 1] < |c.spans| && (p + 1 < |order| ==> 0 <= order[p + 1] < |c.spans|)
  {
    var spans := c.spans[order[p - 1] := c.spans[order[p - 1]].(next := After(order, p))];
    if p + 1 < |order| then spans[order[p + 1] := spans[order[p + 1]].(prev := order[p - 1])] else spans
  }

  lemma DistinctInOrder(c: Code, order: seq<int>, lastBlock: int, j: int, k: int)
    requires StreamOK(c, order, lastBlock) && 0 <= j < k < |order|
    ensures order[j] < order[k] && SpanOK(c, order[j]) && SpanOK(c, order[k])
    ensures c.spans[order[j]].last < c.spans[order[k]].first
    ensures order[0] == 0 && order[|order| - 1] == lastBlock
  {}

  lemma BypassLink(c: Code, order: seq<int>, lastBlock: int, p: int, m: int)
    requires StreamOK(c, order, lastBlock) && 0 < p < |order| && 0 <= m < |order| && m != p
    requires 0 <= order[p - 1] < |c.spans| && (p + 1 < |order| ==> 0 <= order[p + 1] < |c.spans|)
    ensures 0 <= order[m] < |c.spans|
    ensures Bypassed(c, order, p)[order[m]].next == (if m == p - 1 then After(order, p) else After(order, m))
    ensures Bypassed(c, order, p)[order[m]].prev == (if m == p + 1 then order[p - 1] else Before(order, m))
  {
    hide StreamOK;
    LinksOf(c, order, lastBlock, m);
    if m < p - 1 { DistinctInOrder(c, order, lastBlock, m, p - 1); }
    if m > p - 1 { DistinctInOrder(c, order, lastBlock, p - 1, m); }
    if p + 1 < |order| && m < p + 1 { DistinctInOrder(c, order, lastBlock, m, p + 1); }
    if p + 1 < |order| && m > p + 1 { DistinctInOrder(c, order, lastBlock, p + 1, m); }
  }

  lemma BypassStream(c: Code, order: seq<int>, lastBlock: int, p: int)
    requires StreamOK(c, order, lastBlock) && 0 < p < |order|
    requires 0 <= order[p - 1] < |c.spans| && (p + 1 < |order| ==> 0 <= order[p + 1] < |c.spans|)
    ensures var c' := c.(spans := Bypassed(c, order, p));
      && SameExtents(c, c')
      && StreamOK(c', Without(order, p), if p + 1 < |order| then lastBlock else order[p - 1])
  {
    hide StreamOK, Bypassed;
    var c' := c.(spans := Bypassed(c, order, p));
    var order' := Without(order, p);
    assert order'[0] == order[0] && order'[|order'| - 1] == order[if p + 1 < |order| then |order| - 1 else p - 1];
    DistinctInOrder(c, order, lastBlock, 0, p);
    BypassExtents(c, order, p);
    forall k | 0 <= k < |order'| ensures SpanOK(c', order'[k]) {
      DistinctInOrder(c, order, lastBlock, if k < p then k else p, if k < p then p else k + 1);
    }
    forall k {:trigger After(order', k)} | 0 <= k < |order'|
      ensures c'.spans[order'[k]].next == After(order', k) && c'.spans[order'[k]].prev == Before(order', k)
    {
      BypassLink(c, order, lastBlock, p, if k < p then k else k + 1);
    }
    forall j, k | 0 <= j < k < |order'|
      ensures order'[j] < order'[k] && c'.spans[order'[j]].last < c'.spans[order'[k]].first
    {
      DistinctInOrder(c, order, lastBlock, if j < p then j else j + 1, if k < p then k else k + 1);
    }
    StreamIntro(c', order', if p + 1 < |order| then lastBlock else order[p - 1]);
  }

  lemma StreamIntro(c: Code, order: seq<int>, lastBlock: int)
    requires |order| > 0 && order[0] == 0 && order[|order| - 1] == lastBlock
    requires
      && (forall k :: 0 <= k < |order| ==> SpanOK(c, order[k]))
      && (forall j, k :: 0 <= j < k < |order| && SpanOK(c, order[j]) && SpanOK(c, order[k]) ==>
            order[j] < order[k] && c.spans[order[j]].last < c.spans[order[k]].first)
      && (forall k {:trigger After(order, k)} :: 0 <= k < |order| && SpanOK(c, order[k]) ==>
            c.spans[order[k]].next == After(order, k) && c.spans[order[k]].prev == Before(order, k))
    ensures StreamOK(c, order, lastBlock)
  {}

  lemma BypassExtents(c: Code, order: seq<int>, p: int)
    requires 0 < p < |order| && 0 <= order[p - 1] < |c.spans| && (p + 1 < |order| ==> 0 <= order[p + 1] < |c.spans|)
    ensures SameExtents(c, c.(spans := Bypassed(c, order, p)))
  {}

  /** Unlinking block order[p]. */
  method Unlink(unit: RtlUnit, b: int, ghost p: int)
    requires StreamOK(unit.Snap(), unit.order, unit.lastBlock) && 0 < p < |unit.order| && b == unit.order[p]
    modifies unit`spans, unit`lastBlock, unit`order
    ensures StreamOK(unit.Snap(), unit.order, unit.lastBlock) && unit.order == Without(old(unit.order), p)
    ensures SameExtents(old(unit.Snap()), unit.Snap()) && unit.spans[b].prev == old(unit.order)[p - 1]
  {
    hide StreamOK;
    ghost var c, order := unit.Snap(), unit.order;
    LinksOf(c, order, unit.lastBlock, p);
    BypassStream(c, order, unit.lastBlock, p);
    var next, prev := unit.spans[b].next, unit.spans[b].prev;
    unit.spans := unit.spans[prev := unit.spans[prev].(next := next)];
    if next >= 0 {
      unit.spans := unit.spans[next := unit.spans[next].(prev := prev)];
    } else {
      unit.lastBlock := prev;
    }
    unit.order := Without(order, p);
  }

  /** Removing all exits of block b. */
  method RemoveExits(unit: RtlUnit, b: int)
    requires EdgesOK(unit.edges, unit.owner) && IsReal(unit.owner, b)
    modifies unit`edges
    ensures EdgesOK(unit.edges, unit.owner) && |unit.edges| == |old(unit.edges)| && ExitSet(unit.edges[b]) == {}
    ensures forall a :: 0 <= a < |unit.edges| && a != b ==> unit.edges[a].exits == old(unit.edges)[a].exits
  {
    hide EdgesOK, ExitSet;
    EdgeShape(unit.edges, unit.owner, b);
    ExitSetSize(unit.edges[b], unit.owner, b, 0);
    while unit.edges[b].exits[0] >= 0
      invariant EdgesOK(unit.edges, unit.owner) && |unit.edges| == |old(unit.edges)|
      invariant SlotsOK(unit.owner, b, unit.edges[b])
      invariant |ExitSet(unit.edges[b])|
                  == (if unit.edges[b].exits[0] < 0 then 0 else if unit.edges[b].exits[1] < 0 then 1 else 2)
      invariant forall a :: 0 <= a < |unit.edges| && a != b ==> unit.edges[a].exits == old(unit.edges)[a].exits
      decreases |ExitSet(unit.edges[b])|
    {
      ghost var e := unit.edges[b];
      ExitSetSize(e, unit.owner, b, e.exits[0]);
      RemoveEdge(unit, b, 0);
      EdgeShape(unit.edges, unit.owner, b);
      ExitSetSize(unit.edges[b], unit.owner, b, 0);
    }
  }

  // ---- Killing a block's instructions ----

  /** Instruction j of a dropped block is gone, unless its result is still read later. */
  predicate GoneOrRead(insns: seq<Insn>, regs: seq<Reg>, j: int)
    requires 0 <= j < |insns|
  {
    insns[j] == NopInsn || (0 < insns[j].dest < |regs| && regs[insns[j].dest].death > j)
  }

  /** The effect of killing the instructions in [from, to) backwards. */
  ghost predicate KilledRange(c: Code, c': Code, regs: seq<Reg>, regs': seq<Reg>, from: int, to: int) {
    && c' == c.(insns := c'.insns, labels := c'.labels) && |c'.insns| == |c.insns| && |c'.labels| == |c.labels|
    && RegsShrink(regs, regs')
    && (forall i :: 0 <= i < |c.insns| && !(from <= i < to) ==> c'.insns[i] == c.insns[i])
    && (forall i :: from <= i < to && 0 <= i < |c.insns| ==>
          (c'.insns[i] == c.insns[i] || c'.insns[i] == NopInsn) && GoneOrRead(c'.insns, regs', i))
    && (forall l :: 0 <= l < |c.labels| ==>
          c'.labels[l] == c.labels[l] || (c'.labels[l] == -1 && PlacesLabel(c, from, to, l)))
    && (forall i ::
         from <= i < to && 0 <= i < |c.insns| && c.insns[i].op.LABEL? && 0 <= c.insns[i].other < |c.labels| ==>
          c'.labels[c.insns[i].other] == -1)
    && (forall r :: 0 <= r < |regs| && regs[r].death >= to ==> regs'[r] == regs[r])
  }

  ghost predicate PlacesLabel(c: Code, from: int, to: int, l: int) {
    exists i :: from <= i < to && 0 <= i < |c.insns| && c.insns[i].op.LABEL? && c.insns[i].other == l
  }

  lemma KillOne(c: Code, regs: seq<Reg>, c1: Code, regs1: seq<Reg>, c2: Code, regs2: seq<Reg>, j: int, to: int)
    requires KilledRange(c, c1, regs, regs1, j + 1, to) && 0 <= j < |c.insns| && j + 1 <= to <= |c.insns|
    requires c1.insns[j].dest != 0 ==> c1.insns[j].dest < |regs1| && regs1[c1.insns[j].dest].birth == j
    requires c1.insns[j].dest != 0 ==> regs1[c1.insns[j].dest].death == j
    requires CleanInsn(c1.decl, c1.insns[j]) && SsaOK(c2.insns, regs2)
    requires Released(WithoutInsn(c1, j), c2, WithoutDest(regs1, c1.insns[j]), regs2, j, true, false,
                      Operands(c1.decl, c1.insns[j]))
    ensures KilledRange(c, c2, regs, regs2, j, to)
  {
    hide Refines, Operands, SsaOK, CleanInsn;
    assert c2 == WithoutInsn(c1, j);
    forall l | 0 <= l < |c.labels|
      ensures c2.labels[l] == c.labels[l] || (c2.labels[l] == -1 && PlacesLabel(c, j, to, l)) {
      if c1.labels[l] == -1 && PlacesLabel(c, j + 1, to, l) { assert PlacesLabel(c, j, to, l); }
      if c2.labels[l] != c1.labels[l] { assert c.insns[j].op.LABEL? && c.insns[j].other == l; }
    }
  }

  lemma KeepOne(c: Code, regs: seq<Reg>, c1: Code, regs1: seq<Reg>, j: int, to: int)
    requires KilledRange(c, c1, regs, regs1, j + 1, to) && 0 <= j < |c.insns| && j + 1 <= to <= |c.insns|
    requires 0 < c1.insns[j].dest < |regs1| && regs1[c1.insns[j].dest].death > j && CleanInsn(c1.decl, c1.insns[j])
    ensures KilledRange(c, c1, regs, regs1, j, to)
  {
    forall l | 0 <= l < |c.labels|
      ensures c1.labels[l] == c.labels[l] || (c1.labels[l] == -1 && PlacesLabel(c, j, to, l)) {
      if c1.labels[l] != c.labels[l] { assert PlacesLabel(c, j + 1, to, l); }
    }
  }

  /** The instructions of a dropped block, last to first. */
  method KillBlock(unit: RtlUnit, b: int)
    requires LiveOK(unit.decl, unit.insns, unit.regs, {}) && Clean(unit.decl, unit.insns) && SpanOK(unit.Snap(), b)
    requires forall i :: unit.spans[b].first <= i <= unit.spans[b].last && unit.insns[i].op.LABEL? ==>
               0 <= unit.insns[i].other < |unit.labels| && unit.insns[i].src1 == 0
    modifies unit`insns, unit`regs, unit`labels
    ensures LiveOK(unit.decl, unit.insns, unit.regs, {}) && Clean(unit.decl, unit.insns)
    ensures KilledRange(old(unit.Snap()), unit.Snap(), old(unit.regs), unit.regs, unit.spans[b].first,
                        unit.spans[b].last + 1)
  {
    hide Released, LiveOK, Clean, Operands, KilledRange;
    ghost var c, regs := unit.Snap(), unit.regs;
    KilledNothing(c, regs, unit.spans[b].last + 1);
    var j := unit.spans[b].last;
    while j >= unit.spans[b].first
      invariant c.spans[b].first - 1 <= j <= c.spans[b].last
      invariant LiveOK(unit.decl, unit.insns, unit.regs, {}) && Clean(unit.decl, unit.insns)
      invariant KilledRange(c, unit.Snap(), regs, unit.regs, j + 1, c.spans[b].last + 1)
    {
      RangeOpen(c, unit.Snap(), regs, unit.regs, j, c.spans[b].last + 1);
      var insn := unit.insns[j];
      if insn.dest != 0 && unit.regs[insn.dest].death > j {
        KeepOne(c, regs, unit.Snap(), unit.regs, j, c.spans[b].last + 1);
      } else {
        ghost var c1, regs1 := unit.Snap(), unit.regs;
        KillInsn(unit, j, true, false, {});
        SsaOf(unit.Snap(), unit.regs);
        KillOne(c, regs, c1, regs1, unit.Snap(), unit.regs, j, c.spans[b].last + 1);
      }
      j := j - 1;
    }
  }

  lemma KilledNothing(c: Code, regs: seq<Reg>, to: int)
    ensures KilledRange(c, c, regs, regs, to, to)
  {}

  lemma SsaOf(c: Code, regs: seq<Reg>)
    requires LiveOK(c.decl, c.insns, regs, {})
    ensures SsaOK(c.insns, regs)
  {}

  lemma RangeOpen(c: Code, c1: Code, regs: seq<Reg>, regs1: seq<Reg>, j: int, to: int)
    requires KilledRange(c, c1, regs, regs1, j + 1, to) && 0 <= j < |c.insns|
    requires LiveOK(c1.decl, c1.insns, regs1, {}) && Clean(c1.decl, c1.insns)
    ensures |c1.insns| == |c.insns| && c1.insns[j] == c.insns[j] && |c1.labels| == |c.labels|
    ensures c1.insns[j].dest != 0 ==>
              c1.insns[j].dest < |regs1| && regs1[c1.insns[j].dest].birth == j <= regs1[c1.insns[j].dest].death
    ensures CleanInsn(c1.decl, c1.insns[j]) && EndBeyond(regs1, {}, j)
  {}

  // ---- The pass ----

  /** The seen blocks of order[from..]. */
  function Kept(order: seq<int>, seen: seq<bool>, from: int): seq<int>
    requires 0 <= from && forall b <- order :: 0 <= b < |seen|
    decreases |order| - from
  {
    if from >= |order| then [] else
      assert order[from] in order;
      (if seen[order[from]] then [order[from]] else []) + Kept(order, seen, from + 1)
  }

  lemma {:induction false} KeptMembers(order: seq<int>, seen: seq<bool>, from: int, b: int)
    requires 0 <= from && forall x <- order :: 0 <= x < |seen|
    ensures b in Kept(order, seen, from) <==>
              exists k :: from <= k < |order| && order[k] == b && 0 <= b < |seen| && seen[b]
    decreases |order| - from
  {
    if from < |order| {
      KeptMembers(order, seen, from + 1, b);
      assert order[from] in order;
    }
  }

  /** The blocks kept before position k, those from k on. */
  lemma {:induction false} KeptSplit(order: seq<int>, seen: seq<bool>, from: int, k: int) returns (front: seq<int>)
    requires 0 <= from <= k <= |order| && forall x <- order :: 0 <= x < |seen|
    ensures Kept(order, seen, from) == front + Kept(order, seen, k)
    decreases k - from
  {
    if from == k {
      front := [];
    } else {
      var rest := KeptSplit(order, seen, from + 1, k);
      assert order[from] in order;
      front := (if seen[order[from]] then [order[from]] else []) + rest;
      assert (if seen[order[from]] then [order[from]] else []) + (rest + Kept(order, seen, k))
          == front + Kept(order, seen, k);
    }
  }

  predicate IsDead(order: seq<int>, seen: seq<bool>, j: int, p: int)
    requires 0 <= j < |order|
  {
    j > p && 0 <= order[j] < |seen| && !seen[order[j]]
  }

  /** How the code differs from the original once the blocks after order[p] have been treated. */
  ghost predicate DropCode(c0: Code, order: seq<int>, seen: seq<bool>, c: Code, regs: seq<Reg>, p: int) {
    && c == c0.(insns := c.insns, spans := c.spans, labels := c.labels)
    && OnlyNops(c0.insns, c.insns) && |c.spans| == |c0.spans| && |c.labels| == |c0.labels|
    && (forall b :: 0 <= b < |c0.spans| ==>
         c.spans[b].first == c0.spans[b].first && c.spans[b].last == c0.spans[b].last)
    && (forall j, i :: InBlock(c0, order, j, i) ==>
          if IsDead(order, seen, j, p) then
            (c.insns[i] == c0.insns[i] || c.insns[i] == NopInsn) && GoneOrRead(c.insns, regs, i)
          else c.insns[i] == c0.insns[i])
    && (forall l :: 0 <= l < |c.labels| ==>
          c.labels[l] == c0.labels[l] || (c.labels[l] == -1 && LabelDied(c0, order, seen, p, l)))
    && (forall l :: 0 <= l < |c.labels| && LabelDied(c0, order, seen, p, l) ==> c.labels[l] == -1)
  }

  /** Label l is placed in a block dropped so far. */
  ghost predicate LabelDied(c0: Code, order: seq<int>, seen: seq<bool>, p: int, l: int) {
    exists j, i ::
      InBlock(c0, order, j, i) && IsDead(order, seen, j, p) && c0.insns[i].op.LABEL? && c0.insns[i].other == l
  }

  lemma DropCodeKeep(c0: Code, order: seq<int>, seen: seq<bool>, c: Code, regs: seq<Reg>, p: int)
    requires DropCode(c0, order, seen, c, regs, p) && 0 <= p < |order| && 0 <= order[p] < |seen| && seen[order[p]]
    ensures DropCode(c0, order, seen, c, regs, p - 1)
  {
    forall j | 0 <= j < |order| ensures IsDead(order, seen, j, p - 1) <==> IsDead(order, seen, j, p) {}
    forall l ensures LabelDied(c0, order, seen, p - 1, l) <==> LabelDied(c0, order, seen, p, l) {}
  }

  lemma DropCodeKill(
    c0: Code, order: seq<int>, lastBlock: int, seen: seq<bool>, c: Code, regs: seq<Reg>, c1: Code, c2: Code,
    regs2: seq<Reg>, p: int)
    requires StreamOK(c0, order, lastBlock) && DropCode(c0, order, seen, c, regs, p)
    requires 0 <= p < |order| && SpanOK(c0, order[p]) && 0 <= order[p] < |seen| && !seen[order[p]]
    requires SameExtents(c, c1)
    requires KilledRange(c1, c2, regs, regs2, c0.spans[order[p]].first, c0.spans[order[p]].last + 1)
    requires forall i :: InBlock(c0, order, p, i) && c0.insns[i].op.LABEL? ==> 0 <= c0.insns[i].other < |c0.labels|
    ensures DropCode(c0, order, seen, c2, regs2, p - 1)
  {
    var from, to := c0.spans[order[p]].first, c0.spans[order[p]].last + 1;
    forall j, i | InBlock(c0, order, j, i)
      ensures if IsDead(order, seen, j, p - 1) then
                (c2.insns[i] == c0.insns[i] || c2.insns[i] == NopInsn) && GoneOrRead(c2.insns, regs2, i)
              else c2.insns[i] == c0.insns[i]
    {
      if j != p && from <= i < to { InOneBlock(c0, order, lastBlock, j, p, i); }
      if j > p && IsDead(order, seen, j, p) { assert i >= to; assert GoneOrRead(c.insns, regs, i); }
    }
    forall l | 0 <= l < |c2.labels|
      ensures LabelDied(c0, order, seen, p - 1, l) ==> c2.labels[l] == -1
      ensures c2.labels[l] == c0.labels[l] || (c2.labels[l] == -1 && LabelDied(c0, order, seen, p - 1, l))
    {
      DropLabel(c0, order, seen, c, c1, c2, regs, regs2, p, l);
    }
  }

  lemma DropLabel(
    c0: Code, order: seq<int>, seen: seq<bool>, c: Code, c1: Code, c2: Code, regs: seq<Reg>, regs2: seq<Reg>, p: int,
    l: int)
    requires DropCode(c0, order, seen, c, regs, p) && SameExtents(c, c1) && 0 <= l < |c2.labels|
    requires 0 <= p < |order| && SpanOK(c0, order[p]) && 0 <= order[p] < |seen| && !seen[order[p]]
    requires KilledRange(c1, c2, regs, regs2, c0.spans[order[p]].first, c0.spans[order[p]].last + 1)
    ensures LabelDied(c0, order, seen, p - 1, l) ==> c2.labels[l] == -1
    ensures c2.labels[l] == c0.labels[l] || (c2.labels[l] == -1 && LabelDied(c0, order, seen, p - 1, l))
  {
    var from, to := c0.spans[order[p]].first, c0.spans[order[p]].last + 1;
    forall i | from <= i < to ensures InBlock(c0, order, p, i) && c.insns[i] == c0.insns[i] {
      assert InBlock(c0, order, p, i) && !IsDead(order, seen, p, p);
    }
    if LabelDied(c0, order, seen, p - 1, l) {
      var j, i :| InBlock(c0, order, j, i) && IsDead(order, seen, j, p - 1) && c0.insns[i].op.LABEL?
        && c0.insns[i].other == l;
      if j != p { assert LabelDied(c0, order, seen, p, l); }
    }
    if LabelDied(c0, order, seen, p, l) {
      var j, i :| InBlock(c0, order, j, i) && IsDead(order, seen, j, p) && c0.insns[i].op.LABEL?
        && c0.insns[i].other == l;
      assert IsDead(order, seen, j, p - 1);
    }
    if PlacesLabel(c1, from, to, l) {
      var i :| from <= i < to && 0 <= i < |c1.insns| && c1.insns[i].op.LABEL? && c1.insns[i].other == l;
      assert InBlock(c0, order, p, i) && IsDead(order, seen, p, p - 1);
    }
  }

  /** The state of the pass before it looks at order[p]. */
  ghost predicate DropState(unit: RtlUnit, c0: Code, regs0: seq<Reg>, edges0: seq<Edges>, order: seq<int>, p: int)
    reads unit
  {
    && -1 <= p < |order| && (forall b <- order :: 0 <= b < |unit.blockSeen|)
    && unit.order == order[..p + 1] + Kept(order, unit.blockSeen, p + 1)
    && StreamOK(unit.Snap(), unit.order, unit.lastBlock)
    && DropCode(c0, order, unit.blockSeen, unit.Snap(), unit.regs, p)
    && DropEdges(edges0, unit.owner, order, unit.blockSeen, unit.edges, p)
    && LiveOK(unit.decl, unit.insns, unit.regs, {}) && Clean(unit.decl, unit.insns) && RegsShrink(regs0, unit.regs)
  }

  ghost predicate DropEdges(
    edges0: seq<Edges>, owner: seq<int>, order: seq<int>, seen: seq<bool>, edges: seq<Edges>, p: int) {
    && EdgesOK(edges, owner) && |edges| == |edges0|
    && (forall j :: 0 <= j < |order| ==> 0 <= order[j] < |edges0| && IsReal(owner, order[j]))
    && forall j :: 0 <= j < |order| ==>
         if IsDead(order, seen, j, p) then ExitSet(edges[order[j]]) == {}
         else edges[order[j]].exits == edges0[order[j]].exits
  }

  lemma DropEdgesKeep(edges0: seq<Edges>, owner: seq<int>, order: seq<int>, seen: seq<bool>, edges: seq<Edges>, p: int)
    requires DropEdges(edges0, owner, order, seen, edges, p) && 0 <= p < |order| && 0 <= order[p] < |seen|
    requires seen[order[p]]
    ensures DropEdges(edges0, owner, order, seen, edges, p - 1)
  {
    forall j | 0 <= j < |order| ensures IsDead(order, seen, j, p - 1) <==> IsDead(order, seen, j, p) {}
  }

  lemma DropEdgesRemove(
    edges0: seq<Edges>, owner: seq<int>, order: seq<int>, seen: seq<bool>, edges: seq<Edges>, edges': seq<Edges>,
    p: int)
    requires DropEdges(edges0, owner, order, seen, edges, p) && 0 <= p < |order| && 0 <= order[p] < |seen|
    requires !seen[order[p]]
    requires forall j :: 0 <= j < |order| && j != p ==> order[j] != order[p]
    requires EdgesOK(edges', owner) && |edges'| == |edges| && ExitSet(edges'[order[p]]) == {}
    requires forall a :: 0 <= a < |edges| && a != order[p] ==> edges'[a].exits == edges[a].exits
    ensures DropEdges(edges0, owner, order, seen, edges', p - 1)
  {
    hide EdgesOK;
    forall j | 0 <= j < |order| && j != p ensures IsDead(order, seen, j, p - 1) <==> IsDead(order, seen, j, p) {}
    assert IsDead(order, seen, p, p - 1);
    SameExitSets(edges, edges', order[p]);
  }

  lemma SameExitSets(edges: seq<Edges>, edges': seq<Edges>, b: int)
    requires |edges'| == |edges| && forall a :: 0 <= a < |edges| && a != b ==> edges'[a].exits == edges[a].exits
    ensures forall a :: 0 <= a < |edges| && a != b ==> ExitSet(edges'[a]) == ExitSet(edges[a])
  {}

  lemma TakeOut(front: seq<int>, x: int, rest: seq<int>)
    ensures front + [x] + rest == front + ([x] + rest) && (front + [x] + rest)[|front|] == x
    ensures Without(front + [x] + rest, |front|) == front + rest
  {
    var all := front + [x] + rest;
    assert all[..|front|] == front && all[|front| + 1..] == rest;
  }

  lemma KeptStep(order: seq<int>, seen: seq<bool>, p: int)
    requires 0 <= p < |order| && forall b <- order :: 0 <= b < |seen|
    ensures order[p] in order
    ensures seen[order[p]] ==> order[..p + 1] + Kept(order, seen, p + 1) == order[..p] + Kept(order, seen, p)
    ensures !seen[order[p]] ==>
              Without(order[..p + 1] + Kept(order, seen, p + 1), p) == order[..p] + Kept(order, seen, p)
    ensures (order[..p + 1] + Kept(order, seen, p + 1))[p] == order[p]
  {
    assert order[p] in order;
    var rest := Kept(order, seen, p + 1);
    assert Kept(order, seen, p) == (if seen[order[p]] then [order[p]] else []) + rest;
    hide Kept;
    assert order[..p + 1] == order[..p] + [order[p]];
    TakeOut(order[..p], order[p], rest);
  }

  /** Dropping block b, which was not seen. */
  method DropBlock(unit: RtlUnit, b: int, ghost c0: Code, ghost regs0: seq<Reg>, ghost edges0: seq<Edges>,
    ghost order: seq<int>, ghost lastBlock: int, ghost p: int)
    requires FlowOK(c0, order, lastBlock) && DropState(unit, c0, regs0, edges0, order, p)
    requires 0 < p && b == order[p] && 0 <= b < |unit.blockSeen| && !unit.blockSeen[b]
    modifies unit`insns, unit`regs, unit`labels, unit`spans, unit`lastBlock, unit`order, unit`edges
    ensures DropState(unit, c0, regs0, edges0, order, p - 1) && 0 <= b < |unit.spans|
    ensures unit.spans[b].prev == order[p - 1]
  {
    hide FlowOK, StreamOK, DropState, DropCode, DropEdges, LiveOK, Clean, KilledRange, EdgesOK, ExitSet, Kept;
    ghost var c, regs, edges := unit.Snap(), unit.regs, unit.edges;
    DropOpen(unit, c0, regs0, edges0, order, lastBlock, p);
    Unlink(unit, b, p);
    ghost var c1 := unit.Snap();
    RemoveExits(unit, b);
    DropEdgesRemove(edges0, unit.owner, order, unit.blockSeen, edges, unit.edges, p);
    ExtentsSpan(c, c1, b);
    KillBlock(unit, b);
    DropClose(unit, c0, regs0, edges0, order, lastBlock, p, c, regs, c1);
  }

  lemma ExtentsSpan(c: Code, c1: Code, b: int)
    requires SameExtents(c, c1) && SpanOK(c, b)
    ensures SpanOK(c1, b) && c1.spans[b].first == c.spans[b].first && c1.spans[b].last == c.spans[b].last
  {}

  lemma DropOpen(
    unit: RtlUnit, c0: Code, regs0: seq<Reg>, edges0: seq<Edges>, order: seq<int>, lastBlock: int, p: int)
    requires FlowOK(c0, order, lastBlock) && DropState(unit, c0, regs0, edges0, order, p) && 0 < p
    ensures p < |order|
    ensures var b := order[p];
      && StreamOK(unit.Snap(), unit.order, unit.lastBlock) && p < |unit.order| && b == unit.order[p]
      && unit.order[p - 1] == order[p - 1]
      && SpanOK(unit.Snap(), b) && SpanOK(c0, b) && EdgesOK(unit.edges, unit.owner) && IsReal(unit.owner, b)
      && unit.spans[b].first == c0.spans[b].first && unit.spans[b].last == c0.spans[b].last
      && LiveOK(unit.decl, unit.insns, unit.regs, {}) && Clean(unit.decl, unit.insns)
      && DropEdges(edges0, unit.owner, order, unit.blockSeen, unit.edges, p)
      && (forall i :: unit.spans[b].first <= i <= unit.spans[b].last && unit.insns[i].op.LABEL? ==>
            0 <= unit.insns[i].other < |unit.labels| && unit.insns[i].src1 == 0)
      && (forall j :: 0 <= j < |order| && j != p ==> order[j] != order[p])
    ensures DropCode(c0, order, unit.blockSeen, unit.Snap(), unit.regs, p) && RegsShrink(regs0, unit.regs)
    ensures p < |order| && (forall b <- order :: 0 <= b < |unit.blockSeen|) && order[p] in order
    ensures unit.order == order[..p + 1] + Kept(order, unit.blockSeen, p + 1)
  {
    hide DropEdges, LiveOK, Clean, RegsShrink, Kept;
    var b, c := order[p], unit.Snap();
    assert unit.order[p] == b && unit.order[p - 1] == order[p - 1];
    KeptStep(order, unit.blockSeen, p);
    assert DropEdges(edges0, unit.owner, order, unit.blockSeen, unit.edges, p);
    DroppedEdges(edges0, unit.owner, order, unit.blockSeen, unit.edges, p);
    LabelRange(c0, order, lastBlock, p);
    hide FlowOK, StreamOK;
    forall i | unit.spans[b].first <= i <= unit.spans[b].last ensures c.insns[i] == c0.insns[i] {
      assert InBlock(c0, order, p, i) && !IsDead(order, unit.blockSeen, p, p);
    }
  }

  lemma DroppedEdges(edges0: seq<Edges>, owner: seq<int>, order: seq<int>, seen: seq<bool>, edges: seq<Edges>, p: int)
    requires DropEdges(edges0, owner, order, seen, edges, p)
    ensures EdgesOK(edges, owner) && forall j :: 0 <= j < |order| ==> IsReal(owner, order[j])
  {}

  /** Labels stand first in their blocks and are mapped. */
  lemma LabelRange(c: Code, order: seq<int>, lastBlock: int, p: int)
    requires FlowOK(c, order, lastBlock) && 0 <= p < |order|
    ensures SpanOK(c, order[p]) && order[p] in order
    ensures forall i :: c.spans[order[p]].first <= i <= c.spans[order[p]].last && c.insns[i].op.LABEL? ==>
              0 < c.insns[i].other < |c.labels| && c.labels[c.insns[i].other] == order[p] && c.insns[i].src1 == 0
    ensures forall j :: 0 <= j < |order| && j != p ==> order[j] != order[p]
  {
    assert order[p] in order;
    assert PlacedIn(c, order[p]);
  }

  lemma DropClose(
    unit: RtlUnit, c0: Code, regs0: seq<Reg>, edges0: seq<Edges>, order: seq<int>, lastBlock: int, p: int,
    c: Code, regs: seq<Reg>, c1: Code)
    requires FlowOK(c0, order, lastBlock) && 0 < p < |order| && (forall b <- order :: 0 <= b < |unit.blockSeen|)
    requires order[p] in order && !unit.blockSeen[order[p]] && RegsShrink(regs0, regs)
    requires DropCode(c0, order, unit.blockSeen, c, regs, p) && SameExtents(c, c1) && SpanOK(c0, order[p])
    requires KilledRange(c1, unit.Snap(), regs, unit.regs, c0.spans[order[p]].first, c0.spans[order[p]].last + 1)
    requires unit.order == Without(order[..p + 1] + Kept(order, unit.blockSeen, p + 1), p)
    requires StreamOK(c1, unit.order, unit.lastBlock)
    requires DropEdges(edges0, unit.owner, order, unit.blockSeen, unit.edges, p - 1)
    requires LiveOK(unit.decl, unit.insns, unit.regs, {}) && Clean(unit.decl, unit.insns)
    ensures DropState(unit, c0, regs0, edges0, order, p - 1)
  {
    hide FlowOK, StreamOK, DropCode, DropEdges, LiveOK, Clean;
    FlowGives(c0, order, lastBlock);
    LabelRange(c0, order, lastBlock, p);
    KeptStep(order, unit.blockSeen, p);
    DropCodeKill(c0, order, lastBlock, unit.blockSeen, c, regs, c1, unit.Snap(), unit.regs, p);
    SameSpansStream(c1, unit.Snap(), unit.order, unit.lastBlock);
  }

  lemma SameSpansStream(c: Code, c': Code, order: seq<int>, lastBlock: int)
    requires StreamOK(c, order, lastBlock) && c'.spans == c.spans && |c'.insns| == |c.insns|
    ensures StreamOK(c', order, lastBlock)
  {
    hide StreamOK;
    SpansOfOrder(c, order, lastBlock);
    forall j, k | 0 <= j < k < |order| ensures order[j] < order[k] && c.spans[order[j]].last < c.spans[order[k]].first {
      DistinctInOrder(c, order, lastBlock, j, k);
    }
    forall k | 0 <= k < |order|
      ensures c.spans[order[k]].next == After(order, k) && c.spans[order[k]].prev == Before(order, k) {
      LinksOf(c, order, lastBlock, k);
    }
    StreamIntro(c', order, lastBlock);
  }

  lemma SpansOfOrder(c: Code, order: seq<int>, lastBlock: int)
    requires StreamOK(c, order, lastBlock)
    ensures |order| > 0 && order[0] == 0 && order[|order| - 1] == lastBlock
    ensures forall k :: 0 <= k < |order| ==> SpanOK(c, order[k])
  {}

  lemma DropKeep(
    unit: RtlUnit, c0: Code, regs0: seq<Reg>, edges0: seq<Edges>, order: seq<int>, lastBlock: int, p: int)
    requires FlowOK(c0, order, lastBlock) && DropState(unit, c0, regs0, edges0, order, p) && 0 <= p
    requires 0 <= order[p] < |unit.blockSeen| && unit.blockSeen[order[p]]
    ensures DropState(unit, c0, regs0, edges0, order, p - 1)
    ensures 0 <= order[p] < |unit.spans| && unit.spans[order[p]].prev == if p > 0 then order[p - 1] else -1
  {
    hide FlowOK, StreamOK, DropCode, DropEdges, LiveOK, Clean, RegsShrink, Kept;
    KeptStep(order, unit.blockSeen, p);
    DropCodeKeep(c0, order, unit.blockSeen, unit.Snap(), unit.regs, p);
    DropEdgesKeep(edges0, unit.owner, order, unit.blockSeen, unit.edges, p);
    LinksOf(unit.Snap(), unit.order, unit.lastBlock, p);
    assert p > 0 ==> unit.order[p - 1] == order[p - 1];
  }

  // ---- The result ----

  /** What the pass has established once all blocks have been treated. */
  ghost predicate AllDropped(
    c0: Code, regs0: seq<Reg>, edges0: seq<Edges>, owner: seq<int>, order: seq<int>, seen: seq<bool>,
    c: Code, regs: seq<Reg>, edges: seq<Edges>, order': seq<int>, lastBlock': int)
  {
    && (forall b <- order :: 0 <= b < |seen|) && order' == Kept(order, seen, 0)
    && StreamOK(c, order', lastBlock') && DropCode(c0, order, seen, c, regs, -1)
    && DropEdges(edges0, owner, order, seen, edges, -1)
    && LiveOK(c.decl, c.insns, regs, {}) && Clean(c.decl, c.insns) && RegsShrink(regs0, regs)
  }

  /** Block b of the original stream survived with its instructions, labels and control flow. */
  ghost predicate Survives(c0: Code, c: Code, order': seq<int>, b: int) {
    && SpanOK(c0, b) && SpanOK(c, b) && c.spans[b].first == c0.spans[b].first && c.spans[b].last == c0.spans[b].last
    && (forall i :: c0.spans[b].first <= i <= c0.spans[b].last ==> c.insns[i] == c0.insns[i])
    && (IsBranch(LastInsn(c0, b).op) ==>
          && LabelBlock(c, LastInsn(c0, b).other) == LabelBlock(c0, LastInsn(c0, b).other)
          && LabelBlock(c0, LastInsn(c0, b).other) in order')
    && (Falls(c0, b) ==> c.spans[b].next == c0.spans[b].next && (c0.spans[b].next >= 0 ==> c0.spans[b].next in order'))
  }

  lemma SurvivorFlow(c0: Code, c: Code, order': seq<int>, b: int)
    requires Survives(c0, c, order', b)
    ensures LastInsn(c, b) == LastInsn(c0, b) && Successors(c, b) == Successors(c0, b)
    ensures PlacedIn(c0, b) ==> PlacedIn(c, b)
    ensures StartsWithLabel(c, b) == StartsWithLabel(c0, b)
    ensures StartsWithLabel(c, b) ==> c.insns[c.spans[b].first] == c0.insns[c0.spans[b].first]
  {}

  /** The block after a surviving one that falls through is the same as before. */
  lemma NextKept(c: Code, order: seq<int>, seen: seq<bool>, order': seq<int>, lastBlock': int, k: int)
    requires (forall b <- order :: 0 <= b < |seen|) && order' == Kept(order, seen, 0) && StreamOK(c, order', lastBlock')
    requires 0 <= k < |order| && 0 <= order[k] < |seen| && seen[order[k]]
    requires k + 1 < |order| ==> 0 <= order[k + 1] < |seen| && seen[order[k + 1]]
    ensures 0 <= order[k] < |c.spans| && c.spans[order[k]].next == After(order, k)
  {
    hide StreamOK;
    var front := KeptSplit(order, seen, 0, k);
    var rest := Kept(order, seen, k + 1);
    assert order' == front + ([order[k]] + rest);
    assert k + 1 < |order| ==> rest == [order[k + 1]] + Kept(order, seen, k + 2);
    assert order'[|front|] == order[k] && (k + 1 < |order| ==> order'[|front| + 1] == order[k + 1]);
    LinksOf(c, order', lastBlock', |front|);
  }

  /** A label of a surviving block was not unmapped. */
  lemma LabelSurvives(
    c0: Code, order: seq<int>, lastBlock: int, seen: seq<bool>, c: Code, regs: seq<Reg>, l: int)
    requires FlowOK(c0, order, lastBlock) && DropCode(c0, order, seen, c, regs, -1)
    requires 0 <= LabelBlock(c0, l) < |seen| && seen[LabelBlock(c0, l)]
    ensures LabelBlock(c, l) == LabelBlock(c0, l)
  {
    hide FlowOK;
    if LabelDied(c0, order, seen, -1, l) { DiedLabel(c0, order, lastBlock, seen, l); }
  }

  lemma DiedLabel(c0: Code, order: seq<int>, lastBlock: int, seen: seq<bool>, l: int)
    requires FlowOK(c0, order, lastBlock) && LabelDied(c0, order, seen, -1, l)
    ensures 0 <= LabelBlock(c0, l) < |seen| && !seen[LabelBlock(c0, l)]
  {
    hide FlowOK;
    var j, i :| InBlock(c0, order, j, i) && IsDead(order, seen, j, -1) && c0.insns[i].op.LABEL?
      && c0.insns[i].other == l;
    LabelRange(c0, order, lastBlock, j);
  }

  lemma BlockSurvives(
    c0: Code, order: seq<int>, lastBlock: int, seen: seq<bool>, c: Code, regs: seq<Reg>, order': seq<int>,
    lastBlock': int, k: int)
    requires FlowOK(c0, order, lastBlock) && DropCode(c0, order, seen, c, regs, -1)
    requires forall b <- order :: 0 <= b < |seen|
    requires order' == Kept(order, seen, 0) && StreamOK(c, order', lastBlock')
    requires 0 <= k < |order| && 0 <= order[k] < |seen| && seen[order[k]] && Closed(c0, order[k], seen)
    ensures Survives(c0, c, order', order[k])
  {
    hide StreamOK, DropCode, PlacedIn, LabelsOK, Kept;
    var b := order[k];
    LinksOf(c0, order, lastBlock, k);
    ExtentsKept(c0, order, seen, c, regs, k);
    SuccessorsInStream(c0, order, lastBlock, b);
    if IsBranch(LastInsn(c0, b).op) {
      var t := LabelBlock(c0, LastInsn(c0, b).other);
      assert t in Successors(c0, b);
      LabelSurvives(c0, order, lastBlock, seen, c, regs, LastInsn(c0, b).other);
      KeptIsIn(order, seen, order', t);
    }
    if Falls(c0, b) {
      if c0.spans[b].next >= 0 {
        assert c0.spans[b].next in Successors(c0, b);
        KeptIsIn(order, seen, order', c0.spans[b].next);
      }
      NextKept(c, order, seen, order', lastBlock', k);
    }
  }

  lemma KeptIsIn(order: seq<int>, seen: seq<bool>, order': seq<int>, b: int)
    requires (forall x <- order :: 0 <= x < |seen|) && order' == Kept(order, seen, 0)
    ensures b in order' <==> b in order && 0 <= b < |seen| && seen[b]
  {
    KeptMembers(order, seen, 0, b);
  }

  lemma ExtentsKept(c0: Code, order: seq<int>, seen: seq<bool>, c: Code, regs: seq<Reg>, k: int)
    requires DropCode(c0, order, seen, c, regs, -1) && 0 <= k < |order| && SpanOK(c0, order[k])
    requires 0 <= order[k] < |seen| && seen[order[k]]
    ensures SpanOK(c, order[k]) && c.spans[order[k]].first == c0.spans[order[k]].first
    ensures c.spans[order[k]].last == c0.spans[order[k]].last
    ensures forall i :: c0.spans[order[k]].first <= i <= c0.spans[order[k]].last ==> c.insns[i] == c0.insns[i]
  {
    forall i | c0.spans[order[k]].first <= i <= c0.spans[order[k]].last ensures c.insns[i] == c0.insns[i] {
      assert InBlock(c0, order, k, i) && !IsDead(order, seen, k, -1);
    }
  }

  predicate LabelEntry(c: Code, order: seq<int>, l: int) {
    0 < l < |c.labels| && c.labels[l] >= 0 ==>
      && c.labels[l] in order && SpanOK(c, c.labels[l]) && StartsWithLabel(c, c.labels[l])
      && c.insns[c.spans[c.labels[l]].first].other == l
  }

  predicate LabelAt(c: Code, b: int) {
    SpanOK(c, b) && (StartsWithLabel(c, b) ==>
      var l := c.insns[c.spans[b].first].other; 0 < l < |c.labels| && c.labels[l] == b)
  }

  lemma LabelFacts(c: Code, order: seq<int>, lastBlock: int, l: int, b: int)
    requires FlowOK(c, order, lastBlock)
    ensures LabelEntry(c, order, l) && (b in order ==> LabelAt(c, b)) && LabelBlock(c, 0) < 0 && Unflagged(c.insns)
  {
    hide Placed, TargetsOK, StartsWithLabel;
  }

  lemma KeptEntry(
    c0: Code, order: seq<int>, lastBlock: int, seen: seq<bool>, c: Code, regs: seq<Reg>, order': seq<int>, l: int)
    requires FlowOK(c0, order, lastBlock) && DropCode(c0, order, seen, c, regs, -1)
    requires (forall b <- order :: 0 <= b < |seen|) && order' == Kept(order, seen, 0)
    requires forall b <- order' :: Survives(c0, c, order', b)
    ensures LabelEntry(c, order', l)
  {
    hide FlowOK, DropCode, Survives, Kept;
    LabelsShrink(c0, order, seen, c, regs, l);
    LabelFacts(c0, order, lastBlock, l, 0);
    if 0 < l < |c.labels| && c.labels[l] >= 0 {
      SpansOfFlow(c0, order, lastBlock);
      MappedIsSeen(c0, order, seen, c, regs, l);
      KeptIsIn(order, seen, order', c.labels[l]);
      FirstLabel(c0, c, order', c.labels[l]);
    }
  }

  lemma KeptAt(
    c0: Code, order: seq<int>, lastBlock: int, seen: seq<bool>, c: Code, regs: seq<Reg>, order': seq<int>, b: int)
    requires FlowOK(c0, order, lastBlock) && DropCode(c0, order, seen, c, regs, -1)
    requires (forall b <- order :: 0 <= b < |seen|) && order' == Kept(order, seen, 0)
    requires b in order' && Survives(c0, c, order', b)
    ensures LabelAt(c, b)
  {
    hide FlowOK, DropCode, Survives, Kept;
    KeptIsIn(order, seen, order', b);
    FirstLabel(c0, c, order', b);
    LabelFacts(c0, order, lastBlock, 0, b);
    if StartsWithLabel(c, b) {
      var l := c0.insns[c0.spans[b].first].other;
      LabelsShrink(c0, order, seen, c, regs, l);
      LabelSurvives(c0, order, lastBlock, seen, c, regs, l);
    }
  }

  lemma KeptLabels(
    c0: Code, order: seq<int>, lastBlock: int, seen: seq<bool>, c: Code, regs: seq<Reg>, order': seq<int>)
    requires FlowOK(c0, order, lastBlock) && DropCode(c0, order, seen, c, regs, -1)
    requires (forall b <- order :: 0 <= b < |seen|) && order' == Kept(order, seen, 0)
    requires forall b <- order' :: Survives(c0, c, order', b) && SpanOK(c, b)
    ensures LabelsOK(c, order')
  {
    hide FlowOK, DropCode, Survives, Kept;
    LabelsShrink(c0, order, seen, c, regs, 0);
    LabelFacts(c0, order, lastBlock, 0, 0);
    forall l ensures LabelEntry(c, order', l) { KeptEntry(c0, order, lastBlock, seen, c, regs, order', l); }
    forall b | b in order' ensures LabelAt(c, b) { KeptAt(c0, order, lastBlock, seen, c, regs, order', b); }
    assert forall l :: 0 < l < |c.labels| && c.labels[l] >= 0 ==> LabelEntry(c, order', l);
  }

  lemma FirstLabel(c0: Code, c: Code, order': seq<int>, b: int)
    requires Survives(c0, c, order', b)
    ensures SpanOK(c0, b) && SpanOK(c, b) && StartsWithLabel(c, b) == StartsWithLabel(c0, b)
    ensures StartsWithLabel(c, b) ==>
              0 <= c.spans[b].first < |c.insns| && 0 <= c0.spans[b].first < |c0.insns|
              && c.insns[c.spans[b].first] == c0.insns[c0.spans[b].first]
  {}

  lemma LabelsShrink(c0: Code, order: seq<int>, seen: seq<bool>, c: Code, regs: seq<Reg>, l: int)
    requires DropCode(c0, order, seen, c, regs, -1)
    ensures |c.labels| == |c0.labels| && (LabelBlock(c, l) == LabelBlock(c0, l) || LabelBlock(c, l) == -1)
    ensures Unflagged(c0.insns) ==> Unflagged(c.insns)
  {}

  lemma MappedIsSeen(c0: Code, order: seq<int>, seen: seq<bool>, c: Code, regs: seq<Reg>, l: int)
    requires DropCode(c0, order, seen, c, regs, -1) && (forall b <- order :: 0 <= b < |seen| && SpanOK(c0, b))
    requires 0 <= l < |c.labels| && c.labels[l] >= 0 && c.labels[l] in order && StartsWithLabel(c0, c.labels[l])
    requires c0.insns[c0.spans[c.labels[l]].first].other == l
    ensures seen[c.labels[l]]
  {
    var t := c.labels[l];
    if !seen[t] {
      var j :| 0 <= j < |order| && order[j] == t;
      assert InBlock(c0, order, j, c0.spans[t].first) && IsDead(order, seen, j, -1);
      assert LabelDied(c0, order, seen, -1, l);
    }
  }

  lemma AllSurvive(
    c0: Code, order: seq<int>, lastBlock: int, seen: seq<bool>, c: Code, regs: seq<Reg>, order': seq<int>,
    lastBlock': int)
    requires FlowOK(c0, order, lastBlock) && DropCode(c0, order, seen, c, regs, -1)
    requires forall b <- order :: 0 <= b < |seen|
    requires order' == Kept(order, seen, 0) && StreamOK(c, order', lastBlock')
    requires forall x :: 0 <= x < |seen| && seen[x] ==> Closed(c0, x, seen)
    ensures forall b <- order' :: Survives(c0, c, order', b) && b in order && 0 <= b < |seen| && seen[b]
  {
    hide FlowOK, DropCode, StreamOK, Survives, Kept, Closed;
    forall b | b in order' ensures Survives(c0, c, order', b) && b in order && 0 <= b < |seen| && seen[b] {
      KeptIsIn(order, seen, order', b);
      var k :| 0 <= k < |order| && order[k] == b;
      BlockSurvives(c0, order, lastBlock, seen, c, regs, order', lastBlock', k);
    }
  }

  lemma DroppedFlow(
    c0: Code, order: seq<int>, lastBlock: int, seen: seq<bool>, c: Code, regs: seq<Reg>, order': seq<int>,
    lastBlock': int)
    requires FlowOK(c0, order, lastBlock) && DropCode(c0, order, seen, c, regs, -1)
    requires forall b <- order :: 0 <= b < |seen|
    requires order' == Kept(order, seen, 0) && StreamOK(c, order', lastBlock')
    requires forall b <- order' :: Survives(c0, c, order', b) && b in order
    ensures FlowOK(c, order', lastBlock')
    ensures forall b <- order' :: SpanOK(c, b) && SpanOK(c0, b) && Successors(c, b) == Successors(c0, b)
  {
    hide DropCode, StreamOK, LabelsOK, Kept, PlacedIn, LastInsn, Successors;
    SpansOfStream(c0, order, lastBlock);
    SpansOfStream(c, order', lastBlock');
    KeptLabels(c0, order, lastBlock, seen, c, regs, order');
    forall b | b in order'
      ensures SpanOK(c, b) && PlacedIn(c, b) && Successors(c, b) == Successors(c0, b)
      ensures LastInsn(c, b) == LastInsn(c0, b)
      ensures IsBranch(LastInsn(c, b).op) ==> LabelBlock(c, LastInsn(c, b).other) in order'
      ensures IsConditional(LastInsn(c, b).op) ==> c.spans[b].next >= 0
    {
      SurvivorFlow(c0, c, order', b);
    }
  }

  lemma DroppedRefines(
    c0: Code, order: seq<int>, lastBlock: int, seen: seq<bool>, c: Code, order': seq<int>)
    requires FlowOK(c0, order, lastBlock) && c.decl == c0.decl && 0 in order'
    requires forall b <- order' :: Survives(c0, c, order', b) && b in order
    ensures Refines(c0, c)
  {
    hide Refines, FlowOK, Survives, BlockCloses, CoincideBlock;
    var keep := set b | b in order';
    StreamCloses(c0, order, lastBlock);
    forall b | b in keep ensures CoincideBlock(c0, c, keep, b) { SurvivorCoincides(c0, c, order, order', keep, b); }
    CoincideRefines(c0, c, keep);
  }

  lemma SurvivorCoincides(c0: Code, c: Code, order: seq<int>, order': seq<int>, keep: set<int>, b: int)
    requires Survives(c0, c, order', b) && BlockCloses(c0, order, b) && forall x <- order' :: x in keep
    ensures CoincideBlock(c0, c, keep, b)
  {
    forall i | c0.spans[b].first <= i <= c0.spans[b].last && IsBranch(c0.insns[i].op)
      ensures LabelBlock(c0, c0.insns[i].other) in keep
      ensures LabelBlock(c, c0.insns[i].other) == LabelBlock(c0, c0.insns[i].other)
    {
      assert LastInsn(c0, b) == c0.insns[i];
    }
  }

  lemma DroppedConst(c0: Code, regs0: seq<Reg>, c: Code, regs: seq<Reg>)
    requires ConstOK(c0.decl, c0.insns, regs0) && RegsShrink(regs0, regs) && c.decl == c0.decl
    requires |c.insns| == |c0.insns|
    requires forall i :: 0 <= i < |c.insns| && c.insns[i].dest != 0 ==> c.insns[i] == c0.insns[i]
    requires SsaOK(c.insns, regs)
    ensures ConstOK(c.decl, c.insns, regs)
  {
    forall r | 0 < r < |regs| && regs[r].live && regs[r].source.CONSTANT? ensures ConstReg(c.decl, c.insns, regs, r) {
      assert ConstReg(c0.decl, c0.insns, regs0, r);
    }
  }

  lemma DroppedWired(
    c0: Code, edges0: seq<Edges>, owner: seq<int>, order: seq<int>, seen: seq<bool>, c: Code, edges: seq<Edges>,
    order': seq<int>)
    requires (forall b <- order :: SpanOK(c0, b)) && Wired(c0, edges0, owner, order) && |c.spans| == |c0.spans|
    requires DropEdges(edges0, owner, order, seen, edges, -1)
    requires forall b <- order' ::
               SpanOK(c, b) && b in order && 0 <= b < |seen| && seen[b] && Successors(c, b) == Successors(c0, b)
    ensures Wired(c, edges, owner, order')
  {
    hide EdgesOK, Successors;
    forall b | b in order' ensures IsReal(owner, b) && ExitSet(edges[b]) == Successors(c, b) {
      var j :| 0 <= j < |order| && order[j] == b;
      assert !IsDead(order, seen, j, -1);
      assert edges[b].exits == edges0[b].exits;
    }
  }

  lemma DropDone(
    c0: Code, regs0: seq<Reg>, edges0: seq<Edges>, owner: seq<int>, order: seq<int>, lastBlock: int, seen: seq<bool>,
    c: Code, regs: seq<Reg>, edges: seq<Edges>, order': seq<int>, lastBlock': int)
    requires WellFormed(c0, regs0, edges0, owner, order, lastBlock, {})
    requires AllDropped(c0, regs0, edges0, owner, order, seen, c, regs, edges, order', lastBlock')
    requires forall x :: 0 <= x < |seen| && seen[x] ==> Closed(c0, x, seen)
    requires |seen| > 0 && seen[0]
    ensures WellFormed(c, regs, edges, owner, order', lastBlock', {}) && Refines(c0, c)
    ensures |c.insns| == |c0.insns| && forall b <- order' :: Survives(c0, c, order', b)
    ensures forall b <- order' :: SpanOK(c0, b) && SpanOK(c, b) && LastInsn(c, b) == LastInsn(c0, b)
  {
    hide FlowOK, StreamOK, DropEdges, Survives, Kept, Closed, Successors, EdgesOK, Covers, Tight, Clean, Refines,
      LastInsn, ConstReg;
    DroppedParts(c0, regs0, edges0, owner, order, lastBlock, seen, c, regs, edges, order', lastBlock');
    hide DropCode;
    AllSurvive(c0, order, lastBlock, seen, c, regs, order', lastBlock');
    DroppedFlow(c0, order, lastBlock, seen, c, regs, order', lastBlock');
    SpansOfFlow(c0, order, lastBlock);
    DroppedWired(c0, edges0, owner, order, seen, c, edges, order');
    DroppedRefines(c0, order, lastBlock, seen, c, order');
    forall b | b in order' ensures SpanOK(c0, b) && SpanOK(c, b) && LastInsn(c, b) == LastInsn(c0, b) {
      SurvivorFlow(c0, c, order', b);
    }
  }

  lemma DroppedParts(
    c0: Code, regs0: seq<Reg>, edges0: seq<Edges>, owner: seq<int>, order: seq<int>, lastBlock: int, seen: seq<bool>,
    c: Code, regs: seq<Reg>, edges: seq<Edges>, order': seq<int>, lastBlock': int)
    requires WellFormed(c0, regs0, edges0, owner, order, lastBlock, {})
    requires AllDropped(c0, regs0, edges0, owner, order, seen, c, regs, edges, order', lastBlock')
    requires |seen| > 0 && seen[0]
    ensures c.decl == c0.decl && |c.spans| == |c0.spans| && ConstOK(c.decl, c.insns, regs) && 0 in order'
    ensures |c.insns| == |c0.insns|
  {
    hide DropEdges, EdgesOK, Covers, Tight, Kept, Clean, Wired;
    StartsAtZero(c0, order, lastBlock);
    KeptIsIn(order, seen, order', 0);
    hide FlowOK, StreamOK;
    DroppedConst(c0, regs0, c, regs);
  }

  lemma StartsAtZero(c: Code, order: seq<int>, lastBlock: int)
    requires FlowOK(c, order, lastBlock)
    ensures 0 in order
  {
    hide Placed, TargetsOK, LabelsOK;
    assert order[0] in order;
  }

  lemma UnflaggedUnit(
    c: Code, regs: seq<Reg>, edges: seq<Edges>, owner: seq<int>, order: seq<int>, lastBlock: int)
    requires WellFormed(c, regs, edges, owner, order, lastBlock, {})
    ensures Unflagged(c.insns)
  {
    hide StreamOK, Placed, TargetsOK, Wired, LiveOK, Clean, ConstOK;
  }

  lemma FlowOfUnit(
    c: Code, regs: seq<Reg>, edges: seq<Edges>, owner: seq<int>, order: seq<int>, lastBlock: int)
    requires WellFormed(c, regs, edges, owner, order, lastBlock, {})
    ensures FlowOK(c, order, lastBlock)
  {
    hide FlowOK, Wired, LiveOK, Clean, ConstOK;
  }

  // ---- What is left of a dropped block, in terms of the code alone ----

  /** Block b has left the stream: of its instructions only those are left whose results are still read later, and its
      labels are no longer mapped. */
  ghost predicate BlockGone(c0: Code, c: Code, b: int) {
    0 <= b < |c0.spans| && |c.insns| == |c0.insns| && |c.labels| == |c0.labels| ==>
      forall i :: 0 <= i < |c0.insns| && c0.spans[b].first <= i <= c0.spans[b].last ==>
        && (c.insns[i] == c0.insns[i] || c.insns[i] == NopInsn)
        && (c.insns[i] == NopInsn || (c.insns[i].dest != 0 && ReadAfter(c, i)))
        && (c0.insns[i].op == LABEL && 0 <= c0.insns[i].other < |c.labels| ==> c.labels[c0.insns[i].other] == -1)
  }

  ghost predicate ReadAfter(c: Code, i: int)
    requires 0 <= i < |c.insns|
  {
    exists j :: i < j < |c.insns| && Reads(c.decl, c.insns[j], c.insns[i].dest)
  }

  lemma GoneOrReadAfter(c: Code, regs: seq<Reg>, i: int)
    requires LiveOK(c.decl, c.insns, regs, {}) && Clean(c.decl, c.insns) && Unflagged(c.insns)
    requires 0 <= i < |c.insns| && GoneOrRead(c.insns, regs, i)
    ensures c.insns[i] == NopInsn || (c.insns[i].dest != 0 && ReadAfter(c, i))
  {
    var r := c.insns[i].dest;
    if c.insns[i] != NopInsn {
      assert Tight(c.decl, c.insns, regs, r) && CleanInsn(c.decl, c.insns[regs[r].death]);
      assert Reads(c.decl, c.insns[regs[r].death], r);
    }
  }

  lemma BlocksGone(
    c0: Code, regs0: seq<Reg>, edges0: seq<Edges>, owner: seq<int>, order: seq<int>, lastBlock: int, seen: seq<bool>,
    c: Code, regs: seq<Reg>, edges: seq<Edges>, order': seq<int>, lastBlock': int, b: int)
    requires FlowOK(c0, order, lastBlock) && Unflagged(c.insns) && b in order && b !in order'
    requires AllDropped(c0, regs0, edges0, owner, order, seen, c, regs, edges, order', lastBlock')
    ensures BlockGone(c0, c, b)
  {
    hide FlowOK, StreamOK, DropEdges, LiveOK, Clean, RegsShrink, Kept, GoneOrRead, ReadAfter;
    SpansOfFlow(c0, order, lastBlock);
    KeptIsIn(order, seen, order', b);
    var k :| 0 <= k < |order| && order[k] == b;
    assert IsDead(order, seen, k, -1);
    forall i | 0 <= i < |c0.insns| && c0.spans[b].first <= i <= c0.spans[b].last
      ensures c.insns[i] == c0.insns[i] || c.insns[i] == NopInsn
      ensures c.insns[i] == NopInsn || (c.insns[i].dest != 0 && ReadAfter(c, i))
      ensures c0.insns[i].op == LABEL && 0 <= c0.insns[i].other < |c.labels| ==> c.labels[c0.insns[i].other] == -1
    {
      assert InBlock(c0, order, k, i);
      GoneOrReadAfter(c, regs, i);
      if c0.insns[i].op == LABEL { assert LabelDied(c0, order, seen, -1, c0.insns[i].other); }
    }
  }

  /** rtl_opt_drop_dead_blocks: the stream keeps exactly the blocks reachable from block 0, in their order; the
      dropped blocks have no exits left and only the instructions whose results surviving code reads. */
  method DropDeadBlocks(unit: RtlUnit)
    requires UnitOK(unit) && |unit.blockSeen| >= |unit.edges|
    modifies unit`insns, unit`regs, unit`labels, unit`spans, unit`lastBlock, unit`order, unit`edges, unit`blockSeen
    ensures UnitOK(unit) && Refines(old(unit.Snap()), unit.Snap())
    ensures |unit.blockSeen| == |old(unit.blockSeen)| && SeenIsReachable(old(unit.Snap()), unit.blockSeen)
    ensures AllDropped(old(unit.Snap()), old(unit.regs), old(unit.edges), unit.owner, old(unit.order), unit.blockSeen,
                       unit.Snap(), unit.regs, unit.edges, unit.order, unit.lastBlock)
    ensures forall b :: b in unit.order <==> b in old(unit.order) && Reaches(old(unit.Snap()), 0, b)
    ensures forall b <- old(unit.order) :: b !in unit.order ==> BlockGone(old(unit.Snap()), unit.Snap(), b)
    ensures |unit.insns| == |old(unit.insns)|
    ensures forall b <- unit.order :: Survives(old(unit.Snap()), unit.Snap(), unit.order, b)
  {
    hide WellFormed, FlowOK, Survives, BlockGone, DropState, GraphOK, Reaches, Closed, AllDropped, SeenIsReachable;
    ghost var c0, regs0, edges0, order, lastBlock := unit.Snap(), unit.regs, unit.edges, unit.order, unit.lastBlock;
    WiredGraph(c0, regs0, edges0, unit.owner, order, lastBlock);
    DropStart(c0, regs0, edges0, unit.owner, order, lastBlock);
    VisitAll(unit, c0);
    DropBegin(unit, c0, regs0, edges0, order);
    ghost var seen := unit.blockSeen;
    var i := unit.lastBlock;
    ghost var p := |order| - 1;
    while i >= 0
      invariant DropState(unit, c0, regs0, edges0, order, p) && -1 <= p < |order|
      invariant i == (if p >= 0 then order[p] else -1)
      invariant unit.blockSeen == seen
      decreases p
    {
      OrderBounds(c0, order, lastBlock, p, |edges0|);
      if !unit.blockSeen[i] {
        DropBlock(unit, i, c0, regs0, edges0, order, lastBlock, p);
      } else {
        DropKeep(unit, c0, regs0, edges0, order, lastBlock, p);
      }
      i := unit.spans[i].prev;
      p := p - 1;
    }
    OrderBoundsAt(c0, order, lastBlock, p);
    DropFinish(unit, c0, regs0, edges0, order);
    DropDone(c0, regs0, edges0, unit.owner, order, lastBlock, unit.blockSeen,
             unit.Snap(), unit.regs, unit.edges, unit.order, unit.lastBlock);
    forall b ensures b in unit.order <==> b in order && Reaches(c0, 0, b) {
      DroppedMember(unit, c0, regs0, edges0, order, lastBlock, b);
    }
    UnflaggedUnit(unit.Snap(), unit.regs, unit.edges, unit.owner, unit.order, unit.lastBlock);
    FlowOfUnit(c0, regs0, edges0, unit.owner, order, lastBlock);
    forall b | b in order && b !in unit.order ensures BlockGone(c0, unit.Snap(), b) {
      BlocksGone(c0, regs0, edges0, unit.owner, order, lastBlock, unit.blockSeen, unit.Snap(), unit.regs, unit.edges,
                 unit.order, unit.lastBlock, b);
    }
  }

  lemma DropStart(c: Code, regs: seq<Reg>, edges: seq<Edges>, owner: seq<int>, order: seq<int>, lastBlock: int)
    requires WellFormed(c, regs, edges, owner, order, lastBlock, {})
    ensures FlowOK(c, order, lastBlock) && 0 in order && |edges| == |c.spans| > 0 && |order| > 0
    ensures order[|order| - 1] == lastBlock
  {
    hide Placed, TargetsOK, LabelsOK, LiveOK, EdgesOK;
    assert order[0] in order && SpanOK(c, 0);
  }

  lemma DropBegin(unit: RtlUnit, c0: Code, regs0: seq<Reg>, edges0: seq<Edges>, order: seq<int>)
    requires UnitOK(unit) && |unit.blockSeen| >= |unit.edges|
    requires c0 == unit.Snap() && regs0 == unit.regs && edges0 == unit.edges && order == unit.order
    ensures DropState(unit, c0, regs0, edges0, order, |order| - 1)
  {
    hide Placed, TargetsOK, LabelsOK, EdgesOK, ConstOK, LiveOK, Clean;
    SpansOfStream(c0, order, unit.lastBlock);
    forall b | b in order ensures 0 <= b < |unit.blockSeen| { assert SpanOK(c0, b); }
    forall j | 0 <= j < |order|
      ensures 0 <= order[j] < |edges0| && IsReal(unit.owner, order[j]) { assert order[j] in order; }
    assert order[..|order|] + [] == order;
    var last := |order| - 1;
    forall l ensures !LabelDied(c0, order, unit.blockSeen, last, l) {}
  }

  lemma OrderBounds(c: Code, order: seq<int>, lastBlock: int, p: int, n: int)
    requires FlowOK(c, order, lastBlock) && 0 <= p < |order|
    ensures 0 <= order[p] < |c.spans| && (p == 0 <==> order[p] == 0)
  {
    hide Placed, TargetsOK, LabelsOK;
  }

  lemma OrderBoundsAt(c: Code, order: seq<int>, lastBlock: int, p: int)
    requires FlowOK(c, order, lastBlock) && -1 <= p < |order| && (p >= 0 ==> order[p] < 0)
    ensures p == -1
  {
    hide Placed, TargetsOK, LabelsOK;
  }

  lemma DropFinish(unit: RtlUnit, c0: Code, regs0: seq<Reg>, edges0: seq<Edges>, order: seq<int>)
    requires DropState(unit, c0, regs0, edges0, order, -1)
    ensures AllDropped(c0, regs0, edges0, unit.owner, order, unit.blockSeen,
                       unit.Snap(), unit.regs, unit.edges, unit.order, unit.lastBlock)
  {
    hide DropCode, DropEdges, LiveOK, Clean, RegsShrink, StreamOK, Kept;
    assert order[..0] + Kept(order, unit.blockSeen, 0) == Kept(order, unit.blockSeen, 0);
  }

  lemma DroppedMember(
    unit: RtlUnit, c0: Code, regs0: seq<Reg>, edges0: seq<Edges>, order: seq<int>, lastBlock: int, b: int)
    requires SeenIsReachable(c0, unit.blockSeen)
    requires AllDropped(c0, regs0, edges0, unit.owner, order, unit.blockSeen,
                        unit.Snap(), unit.regs, unit.edges, unit.order, unit.lastBlock)
    ensures b in unit.order <==> b in order && Reaches(c0, 0, b)
  {
    hide DropCode, DropEdges, LiveOK, Clean, RegsShrink, StreamOK, Kept, Reaches;
    KeptIsIn(order, unit.blockSeen, unit.order, b);
  }
}
