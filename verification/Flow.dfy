/** The shape of a finalized unit's block stream, and the control flow its instructions imply. */
module Flow {
  import opened Rtl
  import opened Semantics
  import opened Liveness

  predicate SpanOK(c: Code, b: int) {
    && 0 <= b < |c.spans|
    && 0 <= c.spans[b].first <= c.spans[b].last + 1
    && c.spans[b].last < |c.insns|
  }

  predicate IsEmpty(c: Code, b: int)
    requires SpanOK(c, b)
  {
    c.spans[b].last < c.spans[b].first
  }

  /** The last instruction of a block; NOP for an empty block. */
  function LastInsn(c: Code, b: int): Insn
    requires SpanOK(c, b)
  {
    if IsEmpty(c, b) then NopInsn else c.insns[c.spans[b].last]
  }

  predicate EndsInBranch(c: Code, b: int)
    requires SpanOK(c, b)
  {
    IsBranch(LastInsn(c, b).op)
  }

  /** Can control leave the block at its end? */
  predicate Falls(c: Code, b: int)
    requires SpanOK(c, b)
  {
    !LastInsn(c, b).op.GOTO? && !LastInsn(c, b).op.RETURN?
  }

  /** The blocks the last instruction of b can transfer control to. */
  function Successors(c: Code, b: int): (t: set<int>)
    requires SpanOK(c, b)
  {
    (if Falls(c, b) && c.spans[b].next >= 0 then {c.spans[b].next} else {})
    + (if IsBranch(LastInsn(c, b).op) then {LabelBlock(c, LastInsn(c, b).other)} else {})
  }

  /** "order" lists the blocks of the stream: ascending, doubly linked, covering disjoint instruction
      ranges in ascending order. */
  ghost predicate StreamOK(c: Code, order: seq<int>, lastBlock: int) {
    && |order| > 0 && order[0] == 0 && order[|order| - 1] == lastBlock
    && (forall k :: 0 <= k < |order| ==> SpanOK(c, order[k]))
    && (forall j, k :: 0 <= j < k < |order| ==>
          order[j] < order[k] && c.spans[order[j]].last < c.spans[order[k]].first)
    && (forall k {:trigger After(order, k)} :: 0 <= k < |order| ==>
          c.spans[order[k]].next == After(order, k) && c.spans[order[k]].prev == Before(order, k))
  }

  function After(order: seq<int>, k: int): int {
    if 0 <= k && k + 1 < |order| then order[k + 1] else -1
  }

  function Before(order: seq<int>, k: int): int {
    if 0 < k <= |order| then order[k - 1] else -1
  }

  /** Block terminators stand last, labels first. */
  ghost predicate PlacedIn(c: Code, b: int)
    requires SpanOK(c, b)
  {
    forall i :: c.spans[b].first <= i <= c.spans[b].last ==>
      && (EndsBlock(c.insns[i].op) ==> i == c.spans[b].last)
      && (c.insns[i].op.LABEL? ==> i == c.spans[b].first)
  }

  ghost predicate Placed(c: Code, order: seq<int>)
    requires forall b <- order :: SpanOK(c, b)
  {
    forall b <- order :: PlacedIn(c, b)
  }

  /** Every branch of the stream names a label that is mapped to a block of the stream, and a conditional branch
      has a block to fall through to. */
  ghost predicate TargetsOK(c: Code, order: seq<int>)
    requires forall b <- order :: SpanOK(c, b)
  {
    && (forall b <- order :: IsBranch(LastInsn(c, b).op) ==> LabelBlock(c, LastInsn(c, b).other) in order)
    && (forall b <- order :: IsConditional(LastInsn(c, b).op) ==> c.spans[b].next >= 0)
  }

  predicate StartsWithLabel(c: Code, b: int)
    requires SpanOK(c, b)
  {
    !IsEmpty(c, b) && c.insns[c.spans[b].first].op.LABEL?
  }

  /** The label map and the LABEL instructions of the stream agree. */
  ghost predicate LabelsOK(c: Code, order: seq<int>)
    requires forall b <- order :: SpanOK(c, b)
  {
    && LabelBlock(c, 0) < 0 && Unflagged(c.insns)
    && (forall l :: 0 < l < |c.labels| && c.labels[l] >= 0 ==>
          c.labels[l] in order && StartsWithLabel(c, c.labels[l]) && c.insns[c.spans[c.labels[l]].first].other == l)
    && (forall b <- order :: StartsWithLabel(c, b) ==>
          var l := c.insns[c.spans[b].first].other; 0 < l < |c.labels| && c.labels[l] == b)
  }

  ghost predicate FlowOK(c: Code, order: seq<int>, lastBlock: int) {
    && StreamOK(c, order, lastBlock)
    && Placed(c, order)
    && TargetsOK(c, order)
    && LabelsOK(c, order)
  }

  /** A finalized unit before any block is dropped: blocks 0..m-1 tile the instructions. */
  ghost predicate Tiled(c: Code, order: seq<int>) {
    && (forall k :: 0 <= k < |order| ==> order[k] == k && SpanOK(c, k))
    && (|order| > 0 ==> SpanOK(c, 0) && c.spans[0].first == 0)
    && (|order| > 0 ==> SpanOK(c, |order| - 1) && c.spans[|order| - 1].last == |c.insns| - 1)
    && (forall k :: 0 < k < |order| ==> c.spans[k].first == c.spans[k - 1].last + 1)
  }

  // ---- Rewriting the last instruction of a block ----

  lemma BlocksDisjoint(c: Code, order: seq<int>, lastBlock: int, a: int, b: int, i: int)
    requires StreamOK(c, order, lastBlock) && a in order && b in order && a != b
    requires c.spans[b].first <= i <= c.spans[b].last
    ensures !(c.spans[a].first <= i <= c.spans[a].last)
  {
    var j :| 0 <= j < |order| && order[j] == a;
    var k :| 0 <= k < |order| && order[k] == b;
  }

  /** Placing another instruction at the end of block b leaves the other blocks as they are. */
  lemma RewriteLastBlocks(c: Code, order: seq<int>, lastBlock: int, b: int, insn': Insn)
    requires StreamOK(c, order, lastBlock) && Placed(c, order) && b in order && !IsEmpty(c, b) && !insn'.op.LABEL?
    ensures var c' := c.(insns := c.insns[c.spans[b].last := insn']);
      forall a <- order ::
        SpanOK(c', a) && PlacedIn(c', a) && LastInsn(c', a) == if a == b then insn' else LastInsn(c, a)
  {
    var k := c.spans[b].last;
    var c' := c.(insns := c.insns[k := insn']);
    forall a | a in order
      ensures SpanOK(c', a) && PlacedIn(c', a) && LastInsn(c', a) == if a == b then insn' else LastInsn(c, a)
    {
      assert SpanOK(c, a) && PlacedIn(c, a);
      if a != b { BlocksDisjoint(c, order, lastBlock, a, b, k); }
    }
  }

  /** The links of the stream do not depend on the instructions. */
  lemma StreamKept(c: Code, c': Code, order: seq<int>, lastBlock: int)
    requires StreamOK(c, order, lastBlock) && c' == c.(insns := c'.insns) && |c'.insns| == |c.insns|
    ensures StreamOK(c', order, lastBlock)
  {
    forall k | 0 <= k < |order| ensures SpanOK(c', order[k]) { assert SpanOK(c, order[k]); }
    forall k {:trigger After(order, k)} | 0 <= k < |order|
      ensures c'.spans[order[k]].next == After(order, k) && c'.spans[order[k]].prev == Before(order, k)
    {
      assert c.spans[order[k]].next == After(order, k);
    }
  }

  lemma LabelsKept(c: Code, c': Code, order: seq<int>)
    requires (forall b <- order :: SpanOK(c, b) && SpanOK(c', b)) && LabelsOK(c, order)
    requires c' == c.(insns := c'.insns) && |c'.insns| == |c.insns|
    requires forall i :: 0 <= i < |c.insns| && (c.insns[i].op.LABEL? || c'.insns[i].op.LABEL?) ==>
               c'.insns[i] == c.insns[i]
    ensures LabelsOK(c', order)
  {
    forall l | 0 < l < |c'.labels| && c'.labels[l] >= 0
      ensures c'.labels[l] in order && StartsWithLabel(c', c'.labels[l])
      ensures c'.insns[c'.spans[c'.labels[l]].first] == c.insns[c.spans[c.labels[l]].first]
    {
      assert StartsWithLabel(c, c.labels[l]);
    }
    forall b | b in order && StartsWithLabel(c', b)
      ensures c'.insns[c'.spans[b].first] == c.insns[c.spans[b].first] && StartsWithLabel(c, b)
    {}
  }

  lemma SpansOfStream(c: Code, order: seq<int>, lastBlock: int)
    requires StreamOK(c, order, lastBlock)
    ensures forall b <- order :: SpanOK(c, b)
  {}

  lemma NotALabel(c: Code, b: int, insn': Insn)
    requires SpanOK(c, b) && !IsEmpty(c, b) && !LastInsn(c, b).op.LABEL?
    ensures !c.insns[c.spans[b].last].op.LABEL?
  {}

  lemma RewriteLast(c: Code, order: seq<int>, lastBlock: int, b: int, insn': Insn)
    requires FlowOK(c, order, lastBlock) && b in order && !IsEmpty(c, b)
    requires !LastInsn(c, b).op.LABEL? && !insn'.op.LABEL?
    requires IsBranch(insn'.op) ==> LabelBlock(c, insn'.other) in order
    requires IsConditional(insn'.op) ==> c.spans[b].next >= 0
    ensures var c' := c.(insns := c.insns[c.spans[b].last := insn']);
      && FlowOK(c', order, lastBlock)
      && LastInsn(c', b) == insn'
      && (forall a <- order :: a != b ==> LastInsn(c', a) == LastInsn(c, a) && Successors(c', a) == Successors(c, a))
  {
    hide StreamOK, PlacedIn, LabelsOK, LastInsn, TargetsOK, Successors;
    SpansOfStream(c, order, lastBlock);
    var c' := c.(insns := c.insns[c.spans[b].last := insn']);
    RewriteLastBlocks(c, order, lastBlock, b, insn');
    StreamKept(c, c', order, lastBlock);
    NotALabel(c, b, insn');
    LabelsKept(c, c', order);
    RewriteTargets(c, c', order, b, insn');
  }

  lemma RewriteTargets(c: Code, c': Code, order: seq<int>, b: int, insn': Insn)
    requires (forall a <- order :: SpanOK(c, a) && SpanOK(c', a)) && TargetsOK(c, order) && b in order
    requires c' == c.(insns := c'.insns)
    requires forall a <- order :: LastInsn(c', a) == if a == b then insn' else LastInsn(c, a)
    requires IsBranch(insn'.op) ==> LabelBlock(c, insn'.other) in order
    requires IsConditional(insn'.op) ==> c.spans[b].next >= 0
    ensures TargetsOK(c', order)
    ensures forall a <- order :: a != b ==> Successors(c', a) == Successors(c, a)
  {
    hide LastInsn;
  }

  predicate IsPlain(op: Opcode) { !EndsBlock(op) && !op.LABEL? }

  /** c' differs from c only in instructions that neither start nor end a block. */
  ghost predicate PlainChange(c: Code, c': Code) {
    && c' == c.(insns := c'.insns) && |c'.insns| == |c.insns|
    && forall i :: 0 <= i < |c.insns| ==>
         c'.insns[i] == c.insns[i] || (IsPlain(c.insns[i].op) && IsPlain(c'.insns[i].op))
  }

  /** Such changes leave the control flow alone. */
  lemma RewritePlain(c: Code, c': Code, order: seq<int>, lastBlock: int)
    requires FlowOK(c, order, lastBlock) && PlainChange(c, c')
    ensures FlowOK(c', order, lastBlock) && forall b <- order :: SpanOK(c', b) && Successors(c', b) == Successors(c, b)
  {
    hide StreamOK, PlacedIn, LabelsOK, Successors;
    SpansOfStream(c, order, lastBlock);
    StreamKept(c, c', order, lastBlock);
    forall b | b in order
      ensures SpanOK(c', b) && PlacedIn(c', b) && Successors(c', b) == Successors(c, b)
      ensures IsBranch(LastInsn(c', b).op) ==> LastInsn(c', b) == LastInsn(c, b)
    {
      PlainBlock(c, c', b);
    }
    LabelsKept(c, c', order);
  }

  lemma PlainBlock(c: Code, c': Code, b: int)
    requires SpanOK(c, b) && PlacedIn(c, b) && PlainChange(c, c')
    ensures SpanOK(c', b) && PlacedIn(c', b) && Successors(c', b) == Successors(c, b)
    ensures IsBranch(LastInsn(c', b).op) ==> LastInsn(c', b) == LastInsn(c, b)
  {}

  // ---- Adding overflow blocks ----

  /** c' is c with more block slots behind those of c. */
  predicate Extends(c: Code, c': Code) { c.spans <= c'.spans && c' == c.(spans := c'.spans) }

  lemma ExtendedStream(c: Code, c': Code, order: seq<int>, lastBlock: int)
    requires StreamOK(c, order, lastBlock) && Extends(c, c')
    ensures StreamOK(c', order, lastBlock)
    ensures forall b <- order :: SpanOK(c, b) && SpanOK(c', b) && c'.spans[b] == c.spans[b]
  {
    forall b | b in order ensures SpanOK(c, b) && SpanOK(c', b) && c'.spans[b] == c.spans[b] {}
    forall k {:trigger After(order, k)} | 0 <= k < |order|
      ensures c'.spans[order[k]].next == After(order, k) && c'.spans[order[k]].prev == Before(order, k)
    {
      assert c.spans[order[k]].next == After(order, k) && order[k] in order;
    }
    forall j, k | 0 <= j < k < |order| ensures c'.spans[order[j]].last < c'.spans[order[k]].first {
      assert order[j] in order && order[k] in order;
    }
  }

  lemma ExtendedBlock(c: Code, c': Code, order: seq<int>, b: int)
    requires Extends(c, c') && SpanOK(c, b) && SpanOK(c', b)
    ensures LastInsn(c', b) == LastInsn(c, b) && Successors(c', b) == Successors(c, b)
    ensures PlacedIn(c, b) ==> PlacedIn(c', b)
    ensures StartsWithLabel(c', b) == StartsWithLabel(c, b)
  {}

  lemma ExtendedFlow(c: Code, c': Code, order: seq<int>, lastBlock: int)
    requires FlowOK(c, order, lastBlock) && Extends(c, c')
    ensures FlowOK(c', order, lastBlock)
    ensures forall b <- order :: SpanOK(c, b) && SpanOK(c', b) && Successors(c', b) == Successors(c, b)
    ensures Tiled(c, order) ==> Tiled(c', order)
  {
    hide StreamOK, PlacedIn, LastInsn, Successors, StartsWithLabel, Tiled;
    ExtendedStream(c, c', order, lastBlock);
    forall b | b in order
      ensures LastInsn(c', b) == LastInsn(c, b) && Successors(c', b) == Successors(c, b)
      ensures PlacedIn(c', b) && StartsWithLabel(c', b) == StartsWithLabel(c, b)
    {
      ExtendedBlock(c, c', order, b);
    }
    if Tiled(c, order) { ExtendedTiled(c, c', order); }
  }

  lemma ExtendedTiled(c: Code, c': Code, order: seq<int>)
    requires Tiled(c, order) && Extends(c, c')
    ensures Tiled(c', order)
  {
    forall k | 0 <= k < |order| ensures SpanOK(c', k) && c'.spans[k] == c.spans[k] { assert SpanOK(c, k); }
  }

  // ---- Control stays in the stream ----

  /** Control leaves block b only at its end, and only to blocks of the stream. */
  ghost predicate BlockCloses(c: Code, order: seq<int>, b: int) {
    && SpanOK(c, b)
    && (forall i :: c.spans[b].first <= i <= c.spans[b].last ==>
          && (EndsBlock(c.insns[i].op) ==> i == c.spans[b].last)
          && (IsBranch(c.insns[i].op) ==> LabelBlock(c, c.insns[i].other) in order))
    && (c.spans[b].next >= 0 ==> c.spans[b].next in order)
  }

  lemma StreamCloses(c: Code, order: seq<int>, lastBlock: int)
    requires FlowOK(c, order, lastBlock)
    ensures 0 in order && forall b <- order :: BlockCloses(c, order, b)
  {
    hide LabelsOK;
    assert order[0] in order;
    forall b | b in order ensures BlockCloses(c, order, b) {
      assert PlacedIn(c, b);
      var k :| 0 <= k < |order| && order[k] == b;
      assert c.spans[order[k]].next == After(order, k);
      forall i | c.spans[b].first <= i <= c.spans[b].last && IsBranch(c.insns[i].op)
        ensures LabelBlock(c, c.insns[i].other) in order
      {
        assert LastInsn(c, b) == c.insns[i];
      }
    }
  }

  lemma SpansOfFlow(c: Code, order: seq<int>, lastBlock: int)
    requires FlowOK(c, order, lastBlock)
    ensures forall b <- order :: SpanOK(c, b)
  {
    hide Placed, TargetsOK, LabelsOK;
    SpansOfStream(c, order, lastBlock);
  }

  /** Control only stands at an instruction inside the block it is in. */
  ghost predicate InStream(c: Code, order: seq<int>, x: Config) {
    x.At? ==> x.b in order && SpanOK(c, x.b) && c.spans[x.b].first <= x.i <= c.spans[x.b].last + 1
  }

  lemma InStreamStep(env: Env, c: Code, order: seq<int>, lastBlock: int, x: Config)
    requires FlowOK(c, order, lastBlock) && InStream(c, order, x)
    ensures InStream(c, order, Step(env, c, x))
  {
    hide FlowOK, Exec;
    StreamCloses(c, order, lastBlock);
    if x.At? { assert BlockCloses(c, order, x.b); }
    SpansOfFlow(c, order, lastBlock);
  }

  lemma InitInStream(c: Code, order: seq<int>, lastBlock: int, als: map<int, Value>, mem: Memory)
    requires FlowOK(c, order, lastBlock)
    ensures InStream(c, order, Init(c, als, mem))
  {
    hide Placed, TargetsOK, LabelsOK;
    assert order[0] in order && SpanOK(c, 0);
  }
}
