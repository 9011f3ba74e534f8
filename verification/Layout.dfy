/** How blocks, edges and labels of a unit under construction fit its instructions, and what each construction step
    does to them. */
module Layout {
  import opened Rtl
  import opened Semantics
  import opened Flow
  import opened BlockEdges

  /** Blocks 0 to n - 1 in order. */
  function Order(n: nat): (s: seq<int>)
    ensures |s| == n && forall k :: 0 <= k < n ==> s[k] == k
    ensures forall b :: b in s <==> 0 <= b < n
  {
    var s := seq(n, k => k);
    assert forall b :: 0 <= b < n ==> b in s by {
      forall b | 0 <= b < n ensures b in s { assert s[b] in s; }
    }
    s
  }

  /** Block b starts where its predecessor ends, the last block ends with the code, terminators stand last and labels
      first, and the links run through all blocks. */
  ghost predicate BlockLaid(c: Code, b: int) {
    && SpanOK(c, b) && PlacedIn(c, b)
    && c.spans[b].first == (if b == 0 then 0 else c.spans[b - 1].last + 1)
    && (b == |c.spans| - 1 ==> c.spans[b].last == |c.insns| - 1)
    && c.spans[b].next == (if b == |c.spans| - 1 then -1 else b + 1) && c.spans[b].prev == b - 1
  }

  /** The edge a block has before branches are connected: the one to the next block, if control can get there. */
  function FallExit(c: Code, b: int): set<int>
    requires SpanOK(c, b)
  {
    if Falls(c, b) && c.spans[b].next >= 0 then {c.spans[b].next} else {}
  }

  /** The fall-through edge of b, if there is one, takes the first exit slot of b and the first entry slot of the
      next block. */
  predicate FallsFirst(c: Code, edges: seq<Edges>, b: int)
    requires SpanOK(c, b) && |edges| >= |c.spans| && |edges[b].exits| == 2
  {
    FallExit(c, b) != {} ==>
      && edges[b].exits[0] == c.spans[b].next && c.spans[b].next < |edges|
      && |edges[c.spans[b].next].entries| == ENTRY_SLOTS && edges[c.spans[b].next].entries[0] == b
  }

  /** A block starts only at the beginning, at a label, or after a terminator. */
  predicate CutAt(c: Code, b: int) {
    SpanOK(c, b) && SpanOK(c, b - 1) && (EndsBlock(LastInsn(c, b - 1).op) || StartsWithLabel(c, b))
  }

  ghost predicate BlocksLaid(c: Code) {
    && (|c.spans| == 0 ==> |c.insns| == 0)
    && (forall b :: 0 <= b < |c.spans| ==> SpanOK(c, b))
    && forall b :: 0 <= b < |c.spans| ==> BlockLaid(c, b)
  }

  ghost predicate EdgesLaid(c: Code, edges: seq<Edges>)
    requires BlocksLaid(c)
  {
    && |edges| == |c.spans| && EdgesOK(edges, Order(|edges|))
    && forall b :: 0 <= b < |c.spans| ==>
         ExitSet(edges[b]) == FallExit(c, b) && |edges[b].exits| == 2 && FallsFirst(c, edges, b)
  }

  ghost predicate LabelsLaid(c: Code)
    requires BlocksLaid(c)
  {
    LabelsOK(c, Order(|c.spans|))
  }

  /** Blocks below m start where they must; the conditional branches ending blocks below k have a next block. */
  ghost predicate CutsLaid(c: Code, m: int, k: int)
    requires BlocksLaid(c)
  {
    && (forall b :: 0 < b < m && b < |c.spans| ==> CutAt(c, b))
    && (forall b :: 0 <= b < k && b < |c.spans| && IsConditional(LastInsn(c, b).op) ==> c.spans[b].next >= 0)
  }

  /** The state between two calls. */
  ghost predicate Laid(c: Code, edges: seq<Edges>) {
    BlocksLaid(c) && EdgesLaid(c, edges) && LabelsLaid(c) && CutsLaid(c, |c.spans|, |c.spans|)
  }

  // ---- Adding an empty block ----

  const NoEdges: Edges := Edges([-1, -1, -1, -1, -1, -1, -1], -1, [-1, -1])

  /** rtl_block_add, with the first instruction its callers set. */
  function WithBlock(c: Code): Code {
    var n := |c.spans|;
    var linked := if n > 0 then c.spans[n - 1 := c.spans[n - 1].(next := n)] else c.spans;
    c.(spans := linked + [Span(|c.insns|, |c.insns| - 1, -1, n - 1)])
  }

  lemma BlockAdded(c: Code)
    requires BlocksLaid(c)
    ensures BlocksLaid(WithBlock(c))
    ensures forall b :: 0 <= b < |c.spans| ==>
      SpanOK(WithBlock(c), b) && LastInsn(WithBlock(c), b) == LastInsn(c, b)
    ensures forall b :: 0 <= b < |c.spans| ==>
      SpanOK(WithBlock(c), b) && StartsWithLabel(WithBlock(c), b) == StartsWithLabel(c, b)
    ensures IsEmpty(WithBlock(c), |c.spans|)
  {
    var c' := WithBlock(c);
    forall b | 0 <= b < |c'.spans| ensures BlockLaid(c', b) {
      if b < |c.spans| { assert BlockLaid(c, b); }
      if b > 0 { assert BlockLaid(c, b - 1); }
    }
    forall b | 0 <= b < |c.spans|
      ensures SpanOK(c', b) && LastInsn(c', b) == LastInsn(c, b) && StartsWithLabel(c', b) == StartsWithLabel(c, b)
    {
      assert BlockLaid(c, b) && BlockLaid(c', b);
    }
  }

  lemma LabelsAfterBlock(c: Code)
    requires BlocksLaid(c) && LabelsLaid(c) && BlocksLaid(WithBlock(c))
    ensures LabelsLaid(WithBlock(c))
  {
    BlockAdded(c);
    var c', n := WithBlock(c), |c.spans|;
    forall l | 0 < l < |c'.labels| && c'.labels[l] >= 0
      ensures c'.labels[l] in Order(n + 1) && StartsWithLabel(c', c'.labels[l])
      ensures c'.insns[c'.spans[c'.labels[l]].first].other == l
    {
      assert c.labels[l] in Order(n) && StartsWithLabel(c, c.labels[l]);
    }
    forall b | b in Order(n + 1) && StartsWithLabel(c', b)
      ensures var l := c'.insns[c'.spans[b].first].other; 0 < l < |c'.labels| && c'.labels[l] == b
    {
      assert b in Order(n) && StartsWithLabel(c, b);
    }
  }

  lemma CutsAfterBlock(c: Code)
    requires BlocksLaid(c) && BlocksLaid(WithBlock(c)) && CutsLaid(c, |c.spans|, |c.spans| - 1)
    ensures CutsLaid(WithBlock(c), |c.spans|, |c.spans| + 1)
    ensures |c.spans| > 0 && EndsBlock(LastInsn(c, |c.spans| - 1).op) ==>
              CutsLaid(WithBlock(c), |c.spans| + 1, |c.spans| + 1)
  {
    BlockAdded(c);
    var c', n := WithBlock(c), |c.spans|;
    forall b | 0 < b < n ensures CutAt(c', b) {
      assert CutAt(c, b);
    }
    forall b | 0 <= b < n + 1 && IsConditional(LastInsn(c', b).op) ensures c'.spans[b].next >= 0 {
      assert BlockLaid(c', b);
    }
    if n > 0 { assert SpanOK(c', n) && SpanOK(c', n - 1); }
  }

  /** While every block is real there are no overflow blocks. */
  lemma NoOverflow(edges: seq<Edges>, t: int)
    requires EdgesOK(edges, Order(|edges|)) && 0 <= t < |edges|
    ensures edges[t].overflow < 0 && |edges[t].entries| == ENTRY_SLOTS && |edges[t].exits| == 2
    ensures forall f <- edges[t].entries :: f < |edges|
    ensures forall x <- edges[t].exits :: x < |edges|
  {
    assert SlotsOK(Order(|edges|), t, edges[t]);
  }

  lemma EmptyCounts(edges: seq<Edges>, t: int, f: int)
    requires EdgesOK(edges, Order(|edges|)) && 0 <= t < |edges|
    ensures EntryCount(edges, t, f) == EntryCount(edges + [NoEdges], t, f)
  {
    NoOverflow(edges, t);
  }

  lemma NoOccurrence(f: int)
    requires f >= 0
    ensures Occurrences(NoEdges, f) == 0
  {}

  lemma EdgesAfterBlock(edges: seq<Edges>)
    requires EdgesOK(edges, Order(|edges|))
    ensures EdgesOK(edges + [NoEdges], Order(|edges| + 1))
  {
    hide EntryCount, ExitSet, SlotsOK;
    var n := |edges|;
    var edges', owner' := edges + [NoEdges], Order(n + 1);
    SlotsAfterBlock(edges);
    forall f, t | IsReal(owner', f) && IsReal(owner', t)
      ensures EntryCount(edges', t, f) == if t in ExitSet(edges'[f]) then 1 else 0
    {
      CountAfterBlock(edges, t, f);
    }
  }

  lemma SlotsAfterBlock(edges: seq<Edges>)
    requires EdgesOK(edges, Order(|edges|))
    ensures forall b :: 0 <= b < |edges| + 1 ==> SlotsOK(Order(|edges| + 1), b, (edges + [NoEdges])[b])
  {
    hide EntryCount;
    forall b | 0 <= b < |edges| + 1 ensures SlotsOK(Order(|edges| + 1), b, (edges + [NoEdges])[b]) {
      if b < |edges| { assert SlotsOK(Order(|edges|), b, edges[b]); }
    }
  }

  lemma CountAfterBlock(edges: seq<Edges>, t: int, f: int)
    requires EdgesOK(edges, Order(|edges|)) && 0 <= t <= |edges| && 0 <= f <= |edges|
    ensures var edges' := edges + [NoEdges]; EntryCount(edges', t, f) == if t in ExitSet(edges'[f]) then 1 else 0
  {
    var n := |edges|;
    NoOccurrence(f);
    if f < n { NoOverflow(edges, f); }
    if t < n {
      EmptyCounts(edges, t, f);
      if f < n { assert IsReal(Order(n), f) && IsReal(Order(n), t); } else { NotListed(edges, t, f); }
    }
  }

  /** A block that does not exist yet is nobody's predecessor. */
  lemma NotListed(edges: seq<Edges>, t: int, f: int)
    requires EdgesOK(edges, Order(|edges|)) && 0 <= t < |edges| <= f
    ensures EntryCount(edges, t, f) == 0
  {
    NoOverflow(edges, t);
  }

  // ---- Appending an instruction ----

  /** An instruction at the end of the last block. */
  function WithInsn(c: Code, insn: Insn): Code
    requires |c.spans| > 0
  {
    var n := |c.spans|;
    c.(insns := c.insns + [insn], spans := c.spans[n - 1 := c.spans[n - 1].(last := |c.insns|)])
  }

  /** The last block is still open: nothing in it ends a block. */
  predicate OpenEnd(c: Code) {
    |c.spans| > 0 && SpanOK(c, |c.spans| - 1) && !EndsBlock(LastInsn(c, |c.spans| - 1).op)
  }

  lemma InsnAdded(c: Code, insn: Insn)
    requires BlocksLaid(c) && OpenEnd(c) && (insn.op.LABEL? ==> IsEmpty(c, |c.spans| - 1))
    ensures BlocksLaid(WithInsn(c, insn)) && LastInsn(WithInsn(c, insn), |c.spans| - 1) == insn
    ensures forall b :: 0 <= b < |c.spans| - 1 ==>
      SpanOK(WithInsn(c, insn), b) && LastInsn(WithInsn(c, insn), b) == LastInsn(c, b)
    ensures forall b :: 0 <= b < |c.spans| && !(b == |c.spans| - 1 && IsEmpty(c, b)) ==>
      SpanOK(WithInsn(c, insn), b) && StartsWithLabel(WithInsn(c, insn), b) == StartsWithLabel(c, b)
    ensures IsEmpty(c, |c.spans| - 1) ==> StartsWithLabel(WithInsn(c, insn), |c.spans| - 1) == insn.op.LABEL?
  {
    var c', n := WithInsn(c, insn), |c.spans|;
    forall b | 0 <= b < n ensures BlockLaid(c', b) {
      assert BlockLaid(c, b) && BlockLaid(c, n - 1);
      if b > 0 { assert BlockLaid(c, b - 1); }
      if b < n - 1 { BeforeLast(c, b); }
    }
    forall b | 0 <= b < n - 1 ensures SpanOK(c', b) && LastInsn(c', b) == LastInsn(c, b) {
      assert BlockLaid(c, b) && BlockLaid(c', b);
    }
    forall b | 0 <= b < n && !(b == n - 1 && IsEmpty(c, b))
      ensures SpanOK(c', b) && StartsWithLabel(c', b) == StartsWithLabel(c, b)
    {
      assert BlockLaid(c, b) && BlockLaid(c', b);
    }
    assert BlockLaid(c', n - 1);
  }

  lemma BeforeLast(c: Code, b: int)
    requires BlocksLaid(c) && 0 <= b < |c.spans| - 1
    ensures c.spans[b].last < |c.insns|
  {
    assert BlockLaid(c, b);
  }

  lemma CutsAfterInsn(c: Code, insn: Insn)
    requires BlocksLaid(c) && OpenEnd(c) && (insn.op.LABEL? ==> IsEmpty(c, |c.spans| - 1))
    requires BlocksLaid(WithInsn(c, insn))
    requires CutsLaid(c, |c.spans| - if insn.op.LABEL? then 1 else 0, |c.spans|)
    ensures CutsLaid(WithInsn(c, insn), |c.spans|, |c.spans| - 1)
    ensures !IsConditional(insn.op) ==> CutsLaid(WithInsn(c, insn), |c.spans|, |c.spans|)
  {
    InsnAdded(c, insn);
    var c', n := WithInsn(c, insn), |c.spans|;
    forall b | 0 < b < n ensures CutAt(c', b) {
      assert SpanOK(c', b - 1) && LastInsn(c', b - 1) == LastInsn(c, b - 1);
      if b < n - 1 || !insn.op.LABEL? {
        assert CutAt(c, b);
        if b == n - 1 && IsEmpty(c, b) {} else { assert StartsWithLabel(c', b) == StartsWithLabel(c, b); }
      }
    }
    forall b | 0 <= b < n && IsConditional(LastInsn(c', b).op) && (b < n - 1 || !IsConditional(insn.op))
      ensures c'.spans[b].next >= 0
    {
      assert LastInsn(c', b) == LastInsn(c, b) && c'.spans[b].next == c.spans[b].next;
    }
  }

  /** labels' records where a label has been placed. */
  predicate LabelRecorded(c: Code, insn: Insn, labels': seq<int>) {
    && (insn.op.LABEL? ==> 0 < insn.other < |c.labels| && c.labels[insn.other] < 0 && insn.src1 == 0)
    && labels' == if insn.op.LABEL? then c.labels[insn.other := |c.spans| - 1] else c.labels
  }

  lemma LabelsAfterInsn(c: Code, insn: Insn, labels': seq<int>)
    requires BlocksLaid(c) && OpenEnd(c) && LabelsLaid(c)
    requires (insn.op.LABEL? ==> IsEmpty(c, |c.spans| - 1)) && LabelRecorded(c, insn, labels')
    ensures BlocksLaid(WithInsn(c, insn).(labels := labels')) && LabelsLaid(WithInsn(c, insn).(labels := labels'))
  {
    hide LastInsn, PlacedIn;
    InsnAdded(c, insn);
    var c', n := WithInsn(c, insn).(labels := labels'), |c.spans|;
    RelabelledLaid(WithInsn(c, insn), labels');
    forall l | 0 < l < |c'.labels| && c'.labels[l] >= 0
      ensures c'.labels[l] in Order(n) && StartsWithLabel(c', c'.labels[l])
      ensures c'.insns[c'.spans[c'.labels[l]].first].other == l
    {
      LabelLeads(c, insn, labels', l);
    }
    forall b | b in Order(n) && StartsWithLabel(c', b)
      ensures var l := c'.insns[c'.spans[b].first].other; 0 < l < |c'.labels| && c'.labels[l] == b
    {
      LabelledBlock(c, insn, labels', b);
    }
  }

  lemma RelabelledLaid(c: Code, labels': seq<int>)
    requires BlocksLaid(c)
    ensures BlocksLaid(c.(labels := labels'))
    ensures forall b :: 0 <= b < |c.spans| ==>
      SpanOK(c.(labels := labels'), b) && StartsWithLabel(c.(labels := labels'), b) == StartsWithLabel(c, b)
    ensures forall b :: 0 <= b < |c.spans| ==>
      SpanOK(c.(labels := labels'), b) && LastInsn(c.(labels := labels'), b) == LastInsn(c, b)
  {
    var c' := c.(labels := labels');
    forall b | 0 <= b < |c.spans| ensures SpanOK(c', b) && BlockLaid(c', b) { assert SpanOK(c, b) && BlockLaid(c, b); }
  }

  lemma LabelLeads(c: Code, insn: Insn, labels': seq<int>, l: int)
    requires BlocksLaid(c) && OpenEnd(c) && LabelsLaid(c) && BlocksLaid(WithInsn(c, insn).(labels := labels'))
    requires (insn.op.LABEL? ==> IsEmpty(c, |c.spans| - 1)) && LabelRecorded(c, insn, labels')
    requires 0 < l < |labels'| && labels'[l] >= 0
    ensures var c' := WithInsn(c, insn).(labels := labels');
      c'.labels[l] in Order(|c.spans|) && StartsWithLabel(c', c'.labels[l])
          && c'.insns[c'.spans[c'.labels[l]].first].other == l
  {
    if insn.op.LABEL? && l == insn.other {
      assert SpanOK(c, |c.spans| - 1) && BlockLaid(c, |c.spans| - 1);
    } else {
      BeforeEnd(c, c.labels[l]);
      assert c.labels[l] in Order(|c.spans|) && StartsWithLabel(c, c.labels[l]);
    }
  }

  lemma LabelledBlock(c: Code, insn: Insn, labels': seq<int>, b: int)
    requires BlocksLaid(c) && OpenEnd(c) && LabelsLaid(c) && BlocksLaid(WithInsn(c, insn).(labels := labels'))
    requires (insn.op.LABEL? ==> IsEmpty(c, |c.spans| - 1)) && LabelRecorded(c, insn, labels')
    requires 0 <= b < |c.spans| && StartsWithLabel(WithInsn(c, insn).(labels := labels'), b)
    ensures var c' := WithInsn(c, insn).(labels := labels');
      var l := c'.insns[c'.spans[b].first].other; 0 < l < |c'.labels| && c'.labels[l] == b
  {
    assert BlockLaid(c, b) && SpanOK(c, b);
    if b < |c.spans| - 1 || !IsEmpty(c, b) {
      BeforeEnd(c, b);
      assert StartsWithLabel(c, b) && b in Order(|c.spans|);
    }
  }

  lemma BeforeEnd(c: Code, b: int)
    requires BlocksLaid(c) && 0 <= b < |c.spans| && (b < |c.spans| - 1 || !IsEmpty(c, b))
    ensures SpanOK(c, b) && (!IsEmpty(c, b) ==> c.spans[b].first < |c.insns|)
  {}

  lemma EdgesAfterInsn(c: Code, insn: Insn, edges: seq<Edges>)
    requires BlocksLaid(c) && OpenEnd(c) && (insn.op.LABEL? ==> IsEmpty(c, |c.spans| - 1)) && EdgesLaid(c, edges)
    requires BlocksLaid(WithInsn(c, insn))
    ensures EdgesLaid(WithInsn(c, insn), edges)
  {
    hide EdgesOK;
    InsnAdded(c, insn);
    var c', n := WithInsn(c, insn), |c.spans|;
    forall b | 0 <= b < n
      ensures ExitSet(edges[b]) == FallExit(c', b) && |edges[b].exits| == 2 && FallsFirst(c', edges, b)
    {
      assert BlockLaid(c, b) && BlockLaid(c', b);
      assert ExitSet(edges[b]) == FallExit(c, b) && FallsFirst(c, edges, b);
      assert FallExit(c', b) == FallExit(c, b);
    }
  }

  /** Everything but the cuts and the exits of a trailing conditional branch, which the next block completes. */
  ghost predicate AlmostLaid(c: Code, edges: seq<Edges>, m: int, k: int) {
    BlocksLaid(c) && EdgesLaid(c, edges) && LabelsLaid(c) && CutsLaid(c, m, k)
  }

  lemma RelabelledEdges(c: Code, edges: seq<Edges>, labels': seq<int>, m: int, k: int)
    requires BlocksLaid(c) && EdgesLaid(c, edges) && CutsLaid(c, m, k) && BlocksLaid(c.(labels := labels'))
    ensures EdgesLaid(c.(labels := labels'), edges) && CutsLaid(c.(labels := labels'), m, k)
  {
    hide EdgesOK;
    var c' := c.(labels := labels');
    RelabelledLaid(c, labels');
    forall b | 0 <= b < |c.spans|
      ensures ExitSet(edges[b]) == FallExit(c', b) && |edges[b].exits| == 2 && FallsFirst(c', edges, b)
    {
      assert ExitSet(edges[b]) == FallExit(c, b) && FallsFirst(c, edges, b);
    }
    forall b | 0 < b < m && b < |c.spans| ensures CutAt(c', b) { assert CutAt(c, b); }
  }

  /** Appending an instruction to the open block. */
  lemma InsnStep(c: Code, edges: seq<Edges>, insn: Insn, labels': seq<int>)
    requires AlmostLaid(c, edges, |c.spans| - if insn.op.LABEL? then 1 else 0, |c.spans|) && OpenEnd(c)
    requires (insn.op.LABEL? ==> IsEmpty(c, |c.spans| - 1)) && LabelRecorded(c, insn, labels')
    ensures var c' := WithInsn(c, insn).(labels := labels');
      && AlmostLaid(c', edges, |c.spans|, |c.spans| - if IsConditional(insn.op) then 1 else 0)
      && SpanOK(c', |c.spans| - 1) && LastInsn(c', |c.spans| - 1) == insn
  {
    hide BlocksLaid, EdgesLaid, LabelsLaid, CutsLaid, LastInsn;
    InsnAdded(c, insn);
    EdgesAfterInsn(c, insn, edges);
    CutsAfterInsn(c, insn);
    LabelsAfterInsn(c, insn, labels');
    RelabelledEdges(WithInsn(c, insn), edges, labels', |c.spans|, |c.spans| - if IsConditional(insn.op) then 1 else 0);
    RelabelledLaid(WithInsn(c, insn), labels');
    LastIsLaid(c, insn);
  }

  lemma LastIsLaid(c: Code, insn: Insn)
    requires |c.spans| > 0 && BlocksLaid(WithInsn(c, insn))
    ensures SpanOK(WithInsn(c, insn), |c.spans| - 1)
  {}

  /** edges' is edges with an empty block behind it and, where control can reach that block from the one before, the
      edge between them. */
  ghost predicate BlockEdgesAdded(c: Code, edges: seq<Edges>, edges': seq<Edges>) {
    var n := |c.spans|;
    && |edges'| == n + 1 == |edges| + 1 && EdgesOK(edges', Order(n + 1))
    && if n == 0 || !SpanOK(c, n - 1) || !Falls(c, n - 1) then edges' == edges + [NoEdges]
       else && (forall b :: 0 <= b <= n && b != n - 1 ==> edges'[b].exits == (edges + [NoEdges])[b].exits)
            && (forall b ::
                 0 <= b <= n && |(edges + [NoEdges])[b].entries| > 0 && (edges + [NoEdges])[b].entries[0] >= 0 ==>
                  |edges'[b].entries| > 0 && edges'[b].entries[0] == (edges + [NoEdges])[b].entries[0])
            && ExitSet(edges'[n - 1]) == ExitSet(edges[n - 1]) + {n}
            && |edges'[n - 1].exits| == 2 && edges'[n - 1].exits[0] == n
            && |edges'[n].entries| == ENTRY_SLOTS && edges'[n].entries[0] == n - 1
  }

  lemma EdgesStep(c: Code, edges: seq<Edges>, edges': seq<Edges>)
    requires BlocksLaid(c) && EdgesLaid(c, edges) && BlockEdgesAdded(c, edges, edges') && BlocksLaid(WithBlock(c))
    ensures EdgesLaid(WithBlock(c), edges')
  {
    hide FallExit, FallsFirst, BlocksLaid, SlotsOK;
    var n := |c.spans|;
    forall b | 0 <= b < n + 1
      ensures SpanOK(WithBlock(c), b) && ExitSet(edges'[b]) == FallExit(WithBlock(c), b)
      ensures |edges'[b].exits| == 2 && FallsFirst(WithBlock(c), edges', b)
    {
      SlotSizes(edges', Order(n + 1), b);
      if b < n { EdgesStepAt(c, edges, edges', b); } else { EdgesStepNew(c, edges, edges'); }
    }
  }

  lemma EdgesStepNew(c: Code, edges: seq<Edges>, edges': seq<Edges>)
    requires BlocksLaid(c) && EdgesLaid(c, edges) && BlockEdgesAdded(c, edges, edges') && BlocksLaid(WithBlock(c))
    requires |edges'[|c.spans|].exits| == 2
    ensures var n := |c.spans|;
      SpanOK(WithBlock(c), n) && ExitSet(edges'[n]) == FallExit(WithBlock(c), n) && FallsFirst(WithBlock(c), edges', n)
  {
    hide EdgesOK, FallsFirst;
    assert WithBlock(c).spans[|c.spans|].next == -1;
    assert ExitSet(NoEdges) == {};
    NothingFirst(WithBlock(c), edges', |c.spans|);
  }

  lemma NothingFirst(c: Code, edges: seq<Edges>, b: int)
    requires SpanOK(c, b) && |edges| >= |c.spans| && |edges[b].exits| == 2 && FallExit(c, b) == {}
    ensures FallsFirst(c, edges, b)
  {}

  lemma EdgesStepAt(c: Code, edges: seq<Edges>, edges': seq<Edges>, b: int)
    requires BlocksLaid(c) && EdgesLaid(c, edges) && BlockEdgesAdded(c, edges, edges') && BlocksLaid(WithBlock(c))
    requires 0 <= b < |c.spans| && |edges'[b].exits| == 2
    ensures SpanOK(WithBlock(c), b) && ExitSet(edges'[b]) == FallExit(WithBlock(c), b)
    ensures FallsFirst(WithBlock(c), edges', b)
  {
    hide EntryCount;
    var c', n := WithBlock(c), |c.spans|;
    BlockAdded(c);
    assert BlockLaid(c, b) && BlockLaid(c', b) && Falls(c', b) == Falls(c, b);
    assert ExitSet(edges[b]) == FallExit(c, b) && FallsFirst(c, edges, b);
    if b < n - 1 {
      SlotSizes(edges', Order(n + 1), b + 1);
      NoOverflow(edges, b + 1);
    }
  }

  /** Starting a block. */
  lemma BlockStep(c: Code, edges: seq<Edges>, edges': seq<Edges>)
    requires AlmostLaid(c, edges, |c.spans|, |c.spans| - 1) && BlockEdgesAdded(c, edges, edges')
    ensures AlmostLaid(WithBlock(c), edges', |c.spans|, |c.spans| + 1)
    ensures |c.spans| == 0 || (SpanOK(c, |c.spans| - 1) && EndsBlock(LastInsn(c, |c.spans| - 1).op)) ==>
      Laid(WithBlock(c), edges')
    ensures SpanOK(WithBlock(c), |c.spans|) && IsEmpty(WithBlock(c), |c.spans|) && OpenEnd(WithBlock(c))
  {
    hide EdgesLaid, LabelsLaid, BlockEdgesAdded;
    BlockAdded(c);
    EdgesStep(c, edges, edges');
    LabelsAfterBlock(c);
    CutsAfterBlock(c);
  }
}
