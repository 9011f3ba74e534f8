/** Control-flow paths, strict SSA form, and the fact vector forwarding rests on: a definition that reaches a
    use has been executed since its operands were. */
module Paths {
  import opened Rtl
  import opened Semantics
  import opened Flow
  import opened Liveness

  /** A program point: about to execute instruction i of block b, or to leave b when i is past its end. */
  datatype Point = Point(b: int, i: int)

  predicate Executes(c: Code, p: Point, k: int) {
    p.i == k && 0 <= p.b < |c.spans| && c.spans[p.b].first <= k <= c.spans[p.b].last && 0 <= k < |c.insns|
  }

  predicate Sets(c: Code, p: Point, r: int) {
    r != 0 && Executes(c, p, p.i) && c.insns[p.i].dest == r
  }

  function EntryPoint(c: Code, b: int): Point {
    Point(b, if 0 <= b < |c.spans| then c.spans[b].first else 0)
  }

  /** Control can pass from p to q. */
  predicate Edge(c: Code, p: Point, q: Point) {
    && 0 <= p.b < |c.spans| && 0 <= q.b < |c.spans|
    && (if p.i > c.spans[p.b].last then c.spans[p.b].next >= 0 && q == EntryPoint(c, c.spans[p.b].next)
        else
          && 0 <= p.i < |c.insns|
          && var insn := c.insns[p.i];
             || (!insn.op.GOTO? && !insn.op.RETURN? && q == Point(p.b, p.i + 1))
             || (IsBranch(insn.op) && q == EntryPoint(c, LabelBlock(c, insn.other))))
  }

  /** A path from the start of the unit. */
  ghost predicate IsPath(c: Code, path: seq<Point>) {
    && |path| > 0 && path[0] == EntryPoint(c, 0)
    && forall j :: 0 <= j < |path| - 1 ==> Edge(c, path[j], path[j + 1])
  }

  function Last(path: seq<Point>): Point
    requires |path| > 0
  {
    path[|path| - 1]
  }

  /** r is set on the path before its last point. */
  ghost predicate SetBefore(c: Code, path: seq<Point>, r: int) {
    exists j :: 0 <= j < |path| - 1 && Sets(c, path[j], r)
  }

  /** On every path, every register is set before it is read. */
  ghost predicate Strict(c: Code) {
    forall path, r {:trigger IsPath(c, path), SetBefore(c, path, r)} ::
      IsPath(c, path) && Executes(c, Last(path), Last(path).i) && Reads(c.decl, c.insns[Last(path).i], r)
      ==> SetBefore(c, path, r)
  }

  lemma StrictAt(c: Code, path: seq<Point>, r: int)
    requires Strict(c) && IsPath(c, path)
    requires Executes(c, Last(path), Last(path).i) && Reads(c.decl, c.insns[Last(path).i], r)
    ensures SetBefore(c, path, r)
  {}

  /** Instruction k was executed on the path, and none of its operands has been set since. */
  ghost predicate FreshOn(c: Code, k: int, path: seq<Point>)
    requires 0 <= k < |c.insns|
  {
    exists j :: FreshFrom(c, k, path, j)
  }

  ghost predicate FreshFrom(c: Code, k: int, path: seq<Point>, j: int)
    requires 0 <= k < |c.insns|
  {
    && 0 <= j < |path| - 1 && Executes(c, path[j], k)
    && forall m :: j < m < |path| - 1 ==> !SetsOperand(c, path[m], k)
  }

  predicate SetsOperand(c: Code, p: Point, k: int)
    requires 0 <= k < |c.insns|
  {
    Executes(c, p, p.i) && Reads(c.decl, c.insns[k], c.insns[p.i].dest)
  }

  ghost predicate Fresh(c: Code, k: int, p: Point)
    requires 0 <= k < |c.insns|
  {
    forall path :: IsPath(c, path) && Last(path) == p ==> FreshOn(c, k, path)
  }

  // ---- Paths stay in the stream ----

  lemma {:induction false} PathInStream(c: Code, order: seq<int>, lastBlock: int, path: seq<Point>, j: int)
    requires FlowOK(c, order, lastBlock) && IsPath(c, path) && 0 <= j < |path|
    ensures path[j].b in order && c.spans[path[j].b].first <= path[j].i <= c.spans[path[j].b].last + 1
  {
    assert order[0] in order && SpanOK(c, 0);
    if j > 0 {
      PathInStream(c, order, lastBlock, path, j - 1);
      EdgeInStream(c, order, lastBlock, path[j - 1], path[j]);
    }
  }

  lemma EdgeInStream(c: Code, order: seq<int>, lastBlock: int, p: Point, q: Point)
    requires FlowOK(c, order, lastBlock) && Edge(c, p, q)
    requires p.b in order && c.spans[p.b].first <= p.i <= c.spans[p.b].last + 1
    ensures q.b in order && c.spans[q.b].first <= q.i <= c.spans[q.b].last + 1
  {
    var k :| 0 <= k < |order| && order[k] == p.b;
    assert c.spans[order[k]].next == After(order, k);
    assert SpanOK(c, p.b) && PlacedIn(c, p.b);
    if p.i <= c.spans[p.b].last && IsBranch(c.insns[p.i].op) {
      assert LastInsn(c, p.b) == c.insns[p.i];
      assert LabelBlock(c, c.insns[p.i].other) in order;
    }
    assert q.b in order;
    assert SpanOK(c, q.b);
  }

  lemma SamePoint(c: Code, order: seq<int>, lastBlock: int, path: seq<Point>, j: int, m: int, k: int)
    requires FlowOK(c, order, lastBlock) && IsPath(c, path) && 0 <= j < |path| && 0 <= m < |path|
    requires Executes(c, path[j], k) && Executes(c, path[m], k)
    ensures path[j] == path[m]
  {
    PathInStream(c, order, lastBlock, path, j);
    PathInStream(c, order, lastBlock, path, m);
    if path[j].b != path[m].b { BlocksDisjoint(c, order, lastBlock, path[j].b, path[m].b, k); }
  }

  // ---- The dominance argument ----

  /** Cutting the loop between two visits of the same point leaves a path. */
  lemma Splice(c: Code, path: seq<Point>, j: int, m: int)
    requires IsPath(c, path) && 0 <= j <= m < |path| && path[j] == path[m]
    ensures IsPath(c, path[..j] + path[m..]) && Last(path[..j] + path[m..]) == Last(path)
  {
    var q := path[..j] + path[m..];
    forall n | 0 <= n < |q| - 1 ensures Edge(c, q[n], q[n + 1]) {
      if n < j - 1 {
        assert Edge(c, path[n], path[n + 1]);
      } else if n >= j {
        assert Edge(c, path[n - j + m], path[n - j + m + 1]);
      } else {
        assert Edge(c, path[j - 1], path[j]);
      }
    }
  }

  /** The first and the last visit of instruction k before the end of the path. */
  lemma FirstVisit(c: Code, path: seq<Point>, k: int, n: int) returns (j: int)
    requires 0 <= n < |path| && Executes(c, path[n], k)
    ensures 0 <= j <= n && Executes(c, path[j], k) && forall m :: 0 <= m < j ==> !Executes(c, path[m], k)
  {
    j := 0;
    while !Executes(c, path[j], k)
      invariant 0 <= j <= n && forall m :: 0 <= m < j ==> !Executes(c, path[m], k)
      decreases n - j
    {
      j := j + 1;
    }
  }

  lemma LastVisit(c: Code, path: seq<Point>, k: int, n: int) returns (j: int)
    requires 0 <= n < |path| - 1 && Executes(c, path[n], k)
    ensures n <= j < |path| - 1 && Executes(c, path[j], k)
    ensures forall m :: j < m < |path| - 1 ==> !Executes(c, path[m], k)
  {
    j := |path| - 2;
    while !Executes(c, path[j], k)
      invariant n <= j < |path| - 1 && forall m :: j < m < |path| - 1 ==> !Executes(c, path[m], k)
      decreases j
    {
      j := j - 1;
    }
  }

  lemma SetsMeansExecutes(c: Code, regs: seq<Reg>, p: Point, r: int)
    requires SsaOK(c.insns, regs) && Sets(c, p, r)
    ensures 0 < r < |regs| && Executes(c, p, regs[r].birth)
  {}

  lemma PrefixIsPath(c: Code, path: seq<Point>, n: int)
    requires IsPath(c, path) && 0 < n <= |path|
    ensures IsPath(c, path[..n]) && Last(path[..n]) == path[n - 1]
  {}

  /** In strict SSA form, at any use of register r1 the instruction k that sets it has been executed more
      recently than the definitions of k's own operands. */
  lemma DefinitionFresh(
    c: Code, regs: seq<Reg>, order: seq<int>, lastBlock: int, k: int, p: Point)
    requires FlowOK(c, order, lastBlock) && SsaOK(c.insns, regs) && Strict(c)
    requires 0 <= k < |c.insns| && c.insns[k].dest != 0
    requires Executes(c, p, p.i) && Reads(c.decl, c.insns[p.i], c.insns[k].dest)
    ensures Fresh(c, k, p)
  {
    forall path | IsPath(c, path) && Last(path) == p ensures FreshOn(c, k, path) {
      StrictAt(c, path, c.insns[k].dest);
      var n :| 0 <= n < |path| - 1 && Sets(c, path[n], c.insns[k].dest);
      SetsMeansExecutes(c, regs, path[n], c.insns[k].dest);
      var last := LastVisit(c, path, k, n);
      forall m | last < m < |path| - 1 ensures !SetsOperand(c, path[m], k) {
        NotStale(c, regs, order, lastBlock, path, k, last, m);
      }
      assert FreshFrom(c, k, path, last);
    }
  }

  lemma NotSet(c: Code, regs: seq<Reg>, p: Point, r: int)
    requires SsaOK(c.insns, regs) && 0 < r < |regs| && !Executes(c, p, regs[r].birth)
    ensures !Sets(c, p, r)
  {}

  lemma NotStale(
    c: Code, regs: seq<Reg>, order: seq<int>, lastBlock: int, path: seq<Point>, k: int, last: int, m: int)
    requires FlowOK(c, order, lastBlock) && SsaOK(c.insns, regs) && Strict(c) && IsPath(c, path)
    requires 0 <= k < |c.insns| && c.insns[k].dest != 0
    requires Executes(c, Last(path), Last(path).i) && Reads(c.decl, c.insns[Last(path).i], c.insns[k].dest)
    requires 0 <= last < m < |path| - 1 && Executes(c, path[last], k)
    requires forall n :: last < n < |path| - 1 ==> !Executes(c, path[n], k)
    ensures !SetsOperand(c, path[m], k)
  {
    if SetsOperand(c, path[m], k) {
      var a, r := c.insns[path[m].i].dest, c.insns[k].dest;
      var first := FirstVisit(c, path, k, last);
      PrefixIsPath(c, path, first + 1);
      StrictAt(c, path[..first + 1], a);
      var j :| 0 <= j < first && Sets(c, path[..first + 1][j], a);
      SetsMeansExecutes(c, regs, path[j], a);
      SetsMeansExecutes(c, regs, path[m], a);
      SamePoint(c, order, lastBlock, path, j, m, regs[a].birth);
      Splice(c, path, j, m);
      var q := path[..j] + path[m..];
      forall n | 0 <= n < |q| - 1 ensures !Sets(c, q[n], r) {
        assert q[n] == path[if n < j then n else n - j + m];
        NotSet(c, regs, q[n], r);
      }
      StrictAt(c, q, r);
    }
  }
}
