/** rtl_update_live_ranges: registers live on entry to a loop stay live to the loop's end. */
module LiveRanges {
  import opened Rtl
  import opened Semantics
  import opened Liveness
  import opened Flow
  import opened BlockEdges
  import opened Unit
  import opened Invariant
  import opened Paths
  import opened Builder

  // ---- The latest predecessor of a block ----

  predicate IsPred(edges: seq<Edges>, owner: seq<int>, f: int, t: int) {
    0 <= f < |edges| && IsReal(owner, f) && t in ExitSet(edges[f])
  }

  /** The highest-numbered predecessor of t among blocks below n, or -1. */
  function LatestBelow(edges: seq<Edges>, owner: seq<int>, t: int, n: nat): (p: int)
    ensures -1 <= p < n && (p >= 0 ==> IsPred(edges, owner, p, t))
    ensures forall f :: f < n && IsPred(edges, owner, f, t) ==> f <= p
  {
    if n == 0 then -1
    else if IsPred(edges, owner, n - 1, t) then n - 1
    else LatestBelow(edges, owner, t, n - 1)
  }

  function LatestPred(edges: seq<Edges>, owner: seq<int>, t: int): int {
    LatestBelow(edges, owner, t, |edges|)
  }

  /** f occurs in the entry list of t after block cur, or in cur from slot i on. */
  ghost predicate Ahead(edges: seq<Edges>, to: int, cur: int, i: nat, f: int)
    requires 0 <= cur < |edges| && i <= |edges[cur].entries|
  {
    CountFrom(edges[cur].entries, i, f) + Rest(edges, to, cur, f) > 0
  }

  lemma ListStart(edges: seq<Edges>, owner: seq<int>, t: int, f: int)
    requires EdgesOK(edges, owner) && IsReal(owner, t) && IsReal(owner, f)
    ensures |edges[t].entries| == ENTRY_SLOTS && (Ahead(edges, t, t, 0, f) <==> IsPred(edges, owner, f, t))
    ensures CountFrom(edges[t].entries, 0, f) + Rest(edges, t, t, f) <= 1
  {
    assert EntryCount(edges, t, f) == if t in ExitSet(edges[f]) then 1 else 0;
    assert edges[t].entries[0..] == edges[t].entries;
  }

  /** A block of t's list. */
  ghost predicate InList(edges: seq<Edges>, owner: seq<int>, t: int, cur: int) {
    0 <= cur < |edges| && |owner| == |edges| && 0 <= t < |edges| && (cur == t || InChain(edges, edges[t].overflow, cur))
  }

  lemma ListNext(edges: seq<Edges>, owner: seq<int>, t: int, cur: int)
    requires EdgesOK(edges, owner) && IsReal(owner, t) && InList(edges, owner, t, cur)
    ensures |edges[cur].entries| == ENTRY_SLOTS && Packed(edges[cur].entries)
    ensures var next := edges[cur].overflow;
      if next >= 0 then InList(edges, owner, t, next) && next != t && (cur == t || next < cur)
      else forall f :: Rest(edges, t, cur, f) == 0
    ensures forall f <- edges[cur].entries :: f >= 0 ==> IsReal(owner, f)
  {
    assert SlotsOK(owner, cur, edges[cur]) && SlotsOK(owner, t, edges[t]);
    if cur != t { ChainOwner(edges, owner, edges[t].overflow, cur); }
    var next := edges[cur].overflow;
    if next >= 0 {
      assert InChain(edges, next, next);
      if cur != t { ChainNext(edges, edges[t].overflow, cur); }
    }
  }

  lemma RestOfNext(edges: seq<Edges>, owner: seq<int>, t: int, cur: int, f: int)
    requires EdgesOK(edges, owner) && IsReal(owner, t) && InList(edges, owner, t, cur) && edges[cur].overflow >= 0
    ensures var next := edges[cur].overflow;
      && 0 <= next < |edges|
      && Rest(edges, t, cur, f) == CountFrom(edges[next].entries, 0, f) + Rest(edges, t, next, f)
  {
    ListNext(edges, owner, t, cur);
    var next := edges[cur].overflow;
    assert SlotsOK(owner, next, edges[next]);
    assert edges[next].entries[0..] == edges[next].entries;
    if cur != t { ChainOwner(edges, owner, edges[t].overflow, cur); }
    ChainOwner(edges, owner, edges[t].overflow, next);
  }

  /** Behind an unused slot nothing is listed. */
  lemma {:induction false} NoneBehind(slots: seq<int>, i: nat, f: int)
    requires i <= |slots| && Packed(slots) && (i < |slots| ==> slots[i] < 0) && f >= 0
    ensures CountFrom(slots, i, f) == 0
    decreases |slots| - i
  {
    if i < |slots| {
      CountFromNext(slots, i, f);
      NoneBehind(slots, i + 1, f);
    } else {
      assert slots[i..] == [];
    }
  }

  lemma Listed(slots: seq<int>, i: nat, f: int)
    requires i < |slots| && slots[i] == f
    ensures CountFrom(slots, i, f) > 0
  {
    CountFromNext(slots, i, f);
  }

  /** What is known when the scan stands at slot i of block cur: everything before has been compared. */
  ghost predicate Compared(edges: seq<Edges>, owner: seq<int>, t: int, cur: int, i: nat, latest: int)
    requires InList(edges, owner, t, cur) && i <= |edges[cur].entries|
  {
    && (latest >= 0 ==> IsPred(edges, owner, latest, t)) && latest >= -1
    && (forall f :: IsReal(owner, f) && Ahead(edges, t, cur, i, f) ==> IsPred(edges, owner, f, t))
    && (forall f :: IsPred(edges, owner, f, t) ==> f <= latest || Ahead(edges, t, cur, i, f))
  }

  lemma ComparedStart(edges: seq<Edges>, owner: seq<int>, t: int)
    requires EdgesOK(edges, owner) && IsReal(owner, t)
    ensures InList(edges, owner, t, t) && |edges[t].entries| == ENTRY_SLOTS && Compared(edges, owner, t, t, 0, -1)
  {
    hide EdgesOK, Ahead;
    AreSized(edges, owner);
    SlotSizes(edges, owner, t);
    forall f | IsReal(owner, f) ensures Ahead(edges, t, t, 0, f) <==> IsPred(edges, owner, f, t) {
      ListStart(edges, owner, t, f);
    }
  }

  lemma ComparedSlot(edges: seq<Edges>, owner: seq<int>, t: int, cur: int, i: nat, latest: int)
    requires EdgesOK(edges, owner) && IsReal(owner, t) && InList(edges, owner, t, cur) && i < |edges[cur].entries|
    requires edges[cur].entries[i] >= 0 && Compared(edges, owner, t, cur, i, latest)
    ensures var f := edges[cur].entries[i]; Compared(edges, owner, t, cur, i + 1, if f > latest then f else latest)
  {
    hide EdgesOK, CountFrom, Rest;
    var f := edges[cur].entries[i];
    ListNext(edges, owner, t, cur);
    Listed(edges[cur].entries, i, f);
    assert f in edges[cur].entries && IsReal(owner, f) && Ahead(edges, t, cur, i, f);
    forall g ensures CountFrom(edges[cur].entries, i, g)
      == (if f == g then 1 else 0) + CountFrom(edges[cur].entries, i + 1, g) {
      CountFromNext(edges[cur].entries, i, g);
    }
    var next := i + 1;
    forall g | IsReal(owner, g) && Ahead(edges, t, cur, next, g) ensures IsPred(edges, owner, g, t) {
      assert Ahead(edges, t, cur, i, g);
    }
    forall g | IsPred(edges, owner, g, t)
      ensures g <= (if f > latest then f else latest) || Ahead(edges, t, cur, next, g) {
      if g > latest { assert Ahead(edges, t, cur, i, g); }
    }
  }

  lemma ComparedBlock(edges: seq<Edges>, owner: seq<int>, t: int, cur: int, i: nat, latest: int)
    requires EdgesOK(edges, owner) && IsReal(owner, t) && InList(edges, owner, t, cur) && i <= |edges[cur].entries|
    requires (i < |edges[cur].entries| ==> edges[cur].entries[i] < 0) && Compared(edges, owner, t, cur, i, latest)
    ensures var next := edges[cur].overflow;
      if next >= 0 then
        && InList(edges, owner, t, next) && next != t && (cur == t || next < cur)
        && |edges[next].entries| == ENTRY_SLOTS
        && Compared(edges, owner, t, next, 0, latest)
      else latest == LatestPred(edges, owner, t)
  {
    hide EdgesOK, CountFrom, Rest;
    ListNext(edges, owner, t, cur);
    var next := edges[cur].overflow;
    forall f | IsReal(owner, f)
      ensures CountFrom(edges[cur].entries, i, f) == 0 { NoneBehind(edges[cur].entries, i, f); }
    if next >= 0 {
      ListNext(edges, owner, t, next);
      forall f | IsReal(owner, f) ensures Ahead(edges, t, cur, i, f) <==> Ahead(edges, t, next, 0, f) {
        RestOfNext(edges, owner, t, cur, f);
      }
    } else {
      var p := LatestPred(edges, owner, t);
      assert p >= 0 ==> !Ahead(edges, t, cur, i, p);
    }
  }

  /** The scan over the entry slots of a block and its overflow blocks. */
  method LatestEntry(unit: RtlUnit, t: int) returns (latest: int)
    requires EdgesOK(unit.edges, unit.owner) && IsReal(unit.owner, t)
    ensures latest == LatestPred(unit.edges, unit.owner, t)
  {
    hide EdgesOK, Compared, InList, Ahead;
    ghost var edges, owner := unit.edges, unit.owner;
    latest := -1;
    var cur := t;
    ComparedStart(edges, owner, t);
    InListRange(edges, owner, t, cur);
    while cur >= 0
      invariant cur < |edges|
      invariant cur >= 0 ==>
        InList(edges, owner, t, cur) && |edges[cur].entries| == ENTRY_SLOTS && Compared(edges, owner, t, cur, 0, latest)
      invariant cur < 0 ==> latest == LatestPred(edges, owner, t)
      decreases if cur == t then |edges| else cur
    {
      var i := 0;
      while i < ENTRY_SLOTS && unit.edges[cur].entries[i] >= 0
        invariant 0 <= i <= ENTRY_SLOTS && Compared(edges, owner, t, cur, i, latest)
      {
        ComparedSlot(edges, owner, t, cur, i, latest);
        if unit.edges[cur].entries[i] > latest {
          latest := unit.edges[cur].entries[i];
        }
        i := i + 1;
      }
      ComparedBlock(edges, owner, t, cur, i, latest);
      if unit.edges[cur].overflow >= 0 { InListRange(edges, owner, t, unit.edges[cur].overflow); }
      cur := unit.edges[cur].overflow;
    }
  }

  lemma InListRange(edges: seq<Edges>, owner: seq<int>, t: int, cur: int)
    requires InList(edges, owner, t, cur)
    ensures 0 <= cur < |edges|
  {}

  // ---- Widening ----

  /** What the pass reads besides the registers: the code, the graph, and the register numbers it looks at. */
  datatype Frame = Frame(
    c: Code, edges: seq<Edges>, owner: seq<int>, order: seq<int>, firstLive: int, maxLive: seq<int>)

  /** The end of the last block that jumps back to t or loops in t; -1 if there is none. */
  function LoopEnd(u: Frame, t: int): int {
    var p := LatestPred(u.edges, u.owner, t);
    if p >= t && 0 <= p < |u.c.spans| then u.c.spans[p].last else -1
  }

  /** The registers the pass examines at block t. */
  predicate Examined(u: Frame, regs: seq<Reg>, t: int, r: int) {
    0 <= t < |u.maxLive| && u.firstLive <= r <= u.maxLive[t] && 0 <= r < |regs|
  }

  /** Register r, if it is live on entry to t, is live to the end of t's last loop. */
  predicate LoopCovered(u: Frame, regs: seq<Reg>, t: int, r: int)
    requires 0 <= t < |u.c.spans|
  {
    Examined(u, regs, t, r) && regs[r].birth < u.c.spans[t].first <= regs[r].death ==> LoopEnd(u, t) <= regs[r].death
  }

  /** The fixpoint property for the first k blocks of the stream. */
  ghost predicate LoopsCovered(u: Frame, regs: seq<Reg>, k: int) {
    forall j, r {:trigger LoopCovered(u, regs, u.order[j], r)} ::
      0 <= j < k && j < |u.order| && 0 <= u.order[j] < |u.c.spans| ==> LoopCovered(u, regs, u.order[j], r)
  }

  /** Only deaths change, and only upwards; registers below "first" are left alone. */
  ghost predicate Widened(regs: seq<Reg>, regs': seq<Reg>, first: int) {
    |regs'| == |regs| && forall r :: 0 <= r < |regs| ==> WidenedReg(regs, regs', first, r)
  }

  predicate WidenedReg(regs: seq<Reg>, regs': seq<Reg>, first: int, r: int)
    requires 0 <= r < |regs| == |regs'|
  {
    regs'[r] == regs[r].(death := regs'[r].death) && regs[r].death <= regs'[r].death
        && (r < first ==> regs'[r] == regs[r])
  }

  /** No other widening that covers the loops ends any range earlier. */
  ghost predicate Least(u: Frame, regs: seq<Reg>, regs': seq<Reg>) {
    forall other: seq<Reg> :: Widened(regs, other, u.firstLive) && LoopsCovered(u, other, |u.order|) ==>
      NoLater(regs', other)
  }

  ghost predicate NoLater(regs: seq<Reg>, other: seq<Reg>) {
    |regs| <= |other| && forall r :: 0 <= r < |regs| ==> regs[r].death <= other[r].death
  }

  /** The update of one register at a block that starts at "first" and whose last loop ends at "end". */
  function WidenTo(reg: Reg, first: int, end: int): Reg {
    if reg.birth < first && reg.death >= first && reg.death < end then reg.(death := end) else reg
  }

  /** The registers after block t has been treated. */
  ghost predicate BlockWidened(u: Frame, regs: seq<Reg>, regs': seq<Reg>, t: int)
    requires 0 <= t < |u.c.spans|
  {
    |regs'| == |regs| && forall r :: 0 <= r < |regs| ==>
      regs'[r] == if Examined(u, regs, t, r) then WidenTo(regs[r], u.c.spans[t].first, LoopEnd(u, t)) else regs[r]
  }

  /** Blocks of the stream start one after the other. */
  ghost predicate Sorted(u: Frame) {
    && (forall k :: 0 <= k < |u.order| ==> 0 <= u.order[k] < |u.c.spans|)
    && (forall j, k :: 0 <= j < k < |u.order| ==> u.c.spans[u.order[j]].first <= u.c.spans[u.order[k]].first)
    && forall k :: 0 <= k < |u.order| ==> u.c.spans[u.order[k]].first >= 0
  }

  lemma StreamSorted(u: Frame, lastBlock: int)
    requires StreamOK(u.c, u.order, lastBlock)
    ensures Sorted(u)
  {
    forall k | 0 <= k < |u.order| ensures 0 <= u.order[k] < |u.c.spans| && u.c.spans[u.order[k]].first >= 0 {
      assert SpanOK(u.c, u.order[k]);
    }
    forall j, k | 0 <= j < k < |u.order| ensures u.c.spans[u.order[j]].first <= u.c.spans[u.order[k]].first {
      assert SpanOK(u.c, u.order[j]) && SpanOK(u.c, u.order[k]);
    }
  }

  /** Treating block k leaves the earlier blocks covered: a register it widens was already live on entry to each of them
      that it now is live on entry to. */
  lemma StepCovers(u: Frame, regs: seq<Reg>, regs': seq<Reg>, k: int)
    requires Sorted(u) && 0 <= k < |u.order| && LoopsCovered(u, regs, k) && BlockWidened(u, regs, regs', u.order[k])
    ensures LoopsCovered(u, regs', k + 1)
  {
    forall j, r {:trigger LoopCovered(u, regs', u.order[j], r)} | 0 <= j < k + 1
      ensures LoopCovered(u, regs', u.order[j], r) {
      if j < k && Examined(u, regs', u.order[j], r) {
        assert LoopCovered(u, regs, u.order[j], r);
      }
    }
  }

  lemma StepWidens(u: Frame, regs0: seq<Reg>, regs: seq<Reg>, regs': seq<Reg>, t: int)
    requires 0 <= t < |u.c.spans| && Widened(regs0, regs, u.firstLive) && BlockWidened(u, regs, regs', t)
    ensures Widened(regs0, regs', u.firstLive)
  {
    forall r | 0 <= r < |regs0| ensures WidenedReg(regs0, regs', u.firstLive, r) {
      assert WidenedReg(regs0, regs, u.firstLive, r);
    }
  }

  /** Each widening is forced. */
  lemma StepLeast(u: Frame, regs0: seq<Reg>, regs: seq<Reg>, regs': seq<Reg>, k: int)
    requires Sorted(u) && 0 <= k < |u.order| && Widened(regs0, regs, u.firstLive) && Least(u, regs0, regs)
    requires BlockWidened(u, regs, regs', u.order[k])
    ensures Least(u, regs0, regs')
  {
    var t := u.order[k];
    forall other: seq<Reg> | Widened(regs0, other, u.firstLive) && LoopsCovered(u, other, |u.order|)
      ensures NoLater(regs', other) {
      assert NoLater(regs, other);
      forall r | 0 <= r < |regs'| ensures regs'[r].death <= other[r].death {
        assert WidenedReg(regs0, other, u.firstLive, r) && WidenedReg(regs0, regs, u.firstLive, r);
        assert LoopCovered(u, other, u.order[k], r);
      }
    }
  }

  lemma StartLeast(u: Frame, regs: seq<Reg>)
    ensures Widened(regs, regs, u.firstLive) && Least(u, regs, regs) && LoopsCovered(u, regs, 0)
  {
    forall other: seq<Reg> | Widened(regs, other, u.firstLive) ensures NoLater(regs, other) {
      forall r | 0 <= r < |regs|
        ensures regs[r].death <= other[r].death { assert WidenedReg(regs, other, u.firstLive, r); }
    }
  }

  ghost function FrameOf(unit: RtlUnit): Frame
    reads unit
  {
    Frame(unit.Snap(), unit.edges, unit.owner, unit.order, unit.firstLiveReg, unit.maxLive)
  }

  /** The register loop of rtl_update_live_ranges. */
  method WidenRegisters(unit: RtlUnit, t: int, end: int)
    requires 0 <= t < |unit.spans| && t < |unit.maxLive| && 0 <= unit.firstLiveReg && unit.maxLive[t] < |unit.regs|
    requires end == LoopEnd(FrameOf(unit), t)
    modifies unit`regs
    ensures BlockWidened(FrameOf(unit), old(unit.regs), unit.regs, t)
  {
    ghost var regs, u := unit.regs, FrameOf(unit);
    var birthLimit := unit.spans[t].first;
    var r := unit.firstLiveReg;
    while r <= unit.maxLive[t]
      invariant unit.firstLiveReg <= r && |unit.regs| == |regs|
      invariant forall q :: 0 <= q < |regs| ==>
        unit.regs[q] == if unit.firstLiveReg <= q < r
            && q <= unit.maxLive[t] then WidenTo(regs[q], birthLimit, end) else regs[q]
    {
      var reg := unit.regs[r];
      if reg.birth < birthLimit && reg.death >= birthLimit && reg.death < end {
        unit.regs := unit.regs[r := reg.(death := end)];
      }
      r := r + 1;
    }
  }

  /** Where min_death is recorded, and what. */
  predicate DeathsRecorded(u: Frame, before: seq<int>, after: seq<int>, k: int) {
    |after| == |before| && forall t :: 0 <= t < |after| ==>
      after[t] == if t in u.order[..if 0 <= k <= |u.order| then k else |u.order|]
          && LatestPred(u.edges, u.owner, t) >= t
                  then LoopEnd(u, t) else before[t]
  }

  lemma RecordedStep(u: Frame, before: seq<int>, mid: seq<int>, after: seq<int>, k: int)
    requires 0 <= k < |u.order| && DeathsRecorded(u, before, mid, k) && 0 <= u.order[k] < |mid|
    requires after
               == if LatestPred(u.edges, u.owner,
                                u.order[k]) >= u.order[k] then mid[u.order[k] := LoopEnd(u, u.order[k])] else mid
    ensures DeathsRecorded(u, before, after, k + 1)
  {
    assert u.order[..k + 1] == u.order[..k] + [u.order[k]];
  }

  lemma SameRegs(u: Frame, regs: seq<Reg>, t: int)
    requires 0 <= t < |u.c.spans| && LoopEnd(u, t) == -1 && u.c.spans[t].first >= 0
    ensures BlockWidened(u, regs, regs, t)
  {}

  /** What the pass asks of the unit: a well-formed stream and graph, and register numbers in range. */
  ghost predicate Widenable(unit: RtlUnit)
    reads unit
  {
    && StreamOK(unit.Snap(), unit.order, unit.lastBlock) && EdgesOK(unit.edges, unit.owner)
    && |unit.edges| == |unit.spans|
    && (forall b <- unit.order :: IsReal(unit.owner, b))
    && unit.firstLiveReg >= 0 && |unit.minDeath| == |unit.maxLive| && forall b <- unit.order ::
         b < |unit.maxLive| && unit.maxLive[b] < |unit.regs|
  }

  /** rtl_update_live_ranges.  One pass over the stream suffices: afterwards every register that is live on entry to a
      loop is live to the end of the loop's last block, and no range is longer than that requires. */
  method UpdateLiveRanges(unit: RtlUnit)
    requires Widenable(unit)
    modifies unit`regs, unit`minDeath
    ensures Widened(old(unit.regs), unit.regs, unit.firstLiveReg)
    ensures LoopsCovered(FrameOf(unit), unit.regs, |unit.order|) && Least(FrameOf(unit), old(unit.regs), unit.regs)
    ensures DeathsRecorded(FrameOf(unit), old(unit.minDeath), unit.minDeath, |unit.order|)
    ensures GraphMatches(FrameOf(unit), unit.lastBlock) ==>
              BackEdgesCovered(FrameOf(unit), unit.regs) && Minimal(FrameOf(unit), old(unit.regs), unit.regs)
  {
    hide StreamOK, EdgesOK, Least, Widened, LoopsCovered, BlockWidened, DeathsRecorded, Sorted, GraphMatches,
      BackEdgesCovered, Minimal;
    ghost var u, regs0, deaths := FrameOf(unit), unit.regs, unit.minDeath;
    StreamSorted(u, unit.lastBlock);
    StartLeast(u, regs0);
    StreamHead(u.c, u.order, unit.lastBlock);
    WidenedSize(regs0, unit.regs, u.firstLive);
    var b := 0;
    ghost var k := 0;
    assert DeathsRecorded(u, deaths, unit.minDeath, 0) by { NothingRecorded(u, deaths); }
    while b != -1
      invariant 0 <= k <= |unit.order| && b == (if k < |unit.order| then unit.order[k] else -1)
      invariant |unit.regs| == |regs0| && |unit.minDeath| == |deaths| && Widened(regs0, unit.regs, u.firstLive)
      invariant LoopsCovered(u, unit.regs, k) && Least(u, regs0, unit.regs)
      invariant DeathsRecorded(u, deaths, unit.minDeath, k)
      decreases |unit.order| - k
    {
      ghost var regs, before := unit.regs, unit.minDeath;
      StreamLink(u.c, u.order, unit.lastBlock, k);
      var latest := LatestEntry(unit, b);
      if latest >= b {
        LatestInRange(u, b);
        unit.minDeath := unit.minDeath[b := unit.spans[latest].last];
        WidenRegisters(unit, b, unit.spans[latest].last);
      } else {
        SameRegs(u, regs, b);
      }
      WidenedSize2(u, regs, unit.regs, b);
      StepCovers(u, regs, unit.regs, k);
      StepWidens(u, regs0, regs, unit.regs, b);
      StepLeast(u, regs0, regs, unit.regs, k);
      RecordedStep(u, deaths, before, unit.minDeath, k);
      b := unit.spans[b].next;
      k := k + 1;
    }
    if GraphMatches(u, unit.lastBlock) { CoversBackEdges(u, unit.lastBlock, regs0, unit.regs); }
  }

  lemma NothingRecorded(u: Frame, deaths: seq<int>)
    ensures DeathsRecorded(u, deaths, deaths, 0)
  {}

  lemma StreamHead(c: Code, order: seq<int>, lastBlock: int)
    requires StreamOK(c, order, lastBlock)
    ensures |order| > 0 && order[0] == 0
  {}

  lemma StreamLink(c: Code, order: seq<int>, lastBlock: int, k: int)
    requires StreamOK(c, order, lastBlock) && 0 <= k < |order|
    ensures order[k] in order && 0 <= order[k] < |c.spans| && c.spans[order[k]].first >= 0
    ensures c.spans[order[k]].next == if k + 1 < |order| then order[k + 1] else -1
    ensures k + 1 < |order| ==> order[k + 1] > 0
  {
    assert SpanOK(c, order[k]) && c.spans[order[k]].next == After(order, k);
  }

  lemma LatestInRange(u: Frame, t: int)
    requires LatestPred(u.edges, u.owner, t) >= t >= 0 && |u.edges| == |u.c.spans|
    ensures var p := LatestPred(u.edges, u.owner, t); 0 <= p < |u.c.spans| && LoopEnd(u, t) == u.c.spans[p].last
  {}

  lemma WidenedSize(regs: seq<Reg>, regs': seq<Reg>, first: int)
    requires Widened(regs, regs', first)
    ensures |regs'| == |regs|
  {}

  lemma WidenedSize2(u: Frame, regs: seq<Reg>, regs': seq<Reg>, t: int)
    requires 0 <= t < |u.c.spans| && BlockWidened(u, regs, regs', t)
    ensures |regs'| == |regs|
  {}

  // ---- Ranges cover every path ----

  /** Control-flow path through blocks of the stream. */
  ghost predicate IsWalk(c: Code, order: seq<int>, path: seq<Point>) {
    && |path| > 0 && (forall p <- path :: OnStream(c, order, p))
    && forall j :: 0 <= j < |path| - 1 ==> Edge(c, path[j], path[j + 1])
  }

  ghost predicate OnStream(c: Code, order: seq<int>, p: Point) {
    p.b in order && SpanOK(c, p.b) && c.spans[p.b].first <= p.i <= c.spans[p.b].last + 1
  }

  predicate AtInstruction(c: Code, p: Point) { Executes(c, p, p.i) }

  /** The graph the pass works on: edges agree with the code, and only blocks of the stream have exits into it. */
  ghost predicate GraphMatches(u: Frame, lastBlock: int) {
    && FlowOK(u.c, u.order, lastBlock) && (forall b <- u.order :: SpanOK(u.c, b))
    && Wired(u.c, u.edges, u.owner, u.order)
    && forall f, t {:trigger IsPred(u.edges, u.owner, f, t)} :: t in u.order && IsPred(u.edges, u.owner, f, t) ==>
         f in u.order
  }

  /** The pass examines r at every block it may be live on entry to. */
  ghost predicate InView(u: Frame, regs: seq<Reg>, r: int) {
    && 0 < r < |regs| && u.firstLive <= r
    && forall t <- u.order :: 0 <= t < |u.c.spans| && regs[r].birth < u.c.spans[t].first ==>
         t < |u.maxLive| && r <= u.maxLive[t]
  }

  lemma OrderAscends(c: Code, order: seq<int>, lastBlock: int, a: int, b: int)
    requires StreamOK(c, order, lastBlock) && a in order && b in order
    ensures a < b ==> c.spans[a].last < c.spans[b].first
    ensures a <= b ==> c.spans[a].last <= c.spans[b].last
  {
    var j :| 0 <= j < |order| && order[j] == a;
    var k :| 0 <= k < |order| && order[k] == b;
    assert SpanOK(c, order[j]) && SpanOK(c, order[k]);
  }

  /** A jump back to t stays inside the loop end the pass computed for t. */
  lemma JumpBack(u: Frame, lastBlock: int, b: int, t: int)
    requires GraphMatches(u, lastBlock) && b in u.order && t in u.order && t <= b && SpanOK(u.c, b)
    requires t in Successors(u.c, b)
    ensures 0 <= t < |u.c.spans| && u.c.spans[b].last <= LoopEnd(u, t)
  {
    hide LabelsOK, TargetsOK, Placed, EdgesOK, Successors;
    var p := LatestPred(u.edges, u.owner, t);
    assert SpanOK(u.c, t) && |u.edges| == |u.c.spans|;
    assert IsPred(u.edges, u.owner, b, t) && b <= p && IsPred(u.edges, u.owner, p, t);
    assert p in u.order;
    OrderAscends(u.c, u.order, lastBlock, b, p);
  }

  // ---- Loops in terms of the code ----

  /** Control can pass from block p back to block t, or from a block to itself. */
  ghost predicate JumpsBack(u: Frame, p: int, t: int) {
    p in u.order && t in u.order && t <= p && SpanOK(u.c, p) && SpanOK(u.c, t) && t in Successors(u.c, p)
  }

  /** Register r is one of those the pass looks at, and is live on entry to t. */
  predicate EntersLive(u: Frame, regs: seq<Reg>, t: int, r: int) {
    && 0 <= t < |u.c.spans| && t < |u.maxLive| && u.firstLive <= r <= u.maxLive[t] && 0 <= r < |regs|
    && regs[r].birth < u.c.spans[t].first <= regs[r].death
  }

  /** What is live on entry to a block is live to the end of every block that leads back to it. */
  ghost predicate BackEdgesCovered(u: Frame, regs: seq<Reg>) {
    forall p, t, r {:trigger JumpsBack(u, p, t), EntersLive(u, regs, t, r)} ::
      JumpsBack(u, p, t) && EntersLive(u, regs, t, r) ==> u.c.spans[p].last <= regs[r].death
  }

  /** The ranges of regs' end as early as those of any other registers that differ from regs in later deaths only, of
      registers from the first examined one on, and cover the loops. */
  ghost predicate Minimal(u: Frame, regs: seq<Reg>, regs': seq<Reg>) {
    forall other: seq<Reg> :: Widened(regs, other, u.firstLive) && BackEdgesCovered(u, other) ==> NoLater(regs', other)
  }

  lemma LoopEndReached(u: Frame, lastBlock: int, t: int)
    requires GraphMatches(u, lastBlock) && t in u.order
    ensures SpanOK(u.c, t) && LoopEnd(u, t) >= -1
    ensures LoopEnd(u, t) >= 0 ==> exists p :: JumpsBack(u, p, t) && LoopEnd(u, t) == u.c.spans[p].last
  {
    hide LabelsOK, TargetsOK, Placed, EdgesOK, Successors;
    var p := LatestPred(u.edges, u.owner, t);
    assert SpanOK(u.c, t);
    if LoopEnd(u, t) != -1 {
      assert IsPred(u.edges, u.owner, p, t) && p in u.order;
      assert SpanOK(u.c, p) && JumpsBack(u, p, t);
    }
  }

  /** The fixpoint the pass computes is that of the back edges of the code. */
  lemma CoveredIffBackEdges(u: Frame, lastBlock: int, regs: seq<Reg>)
    requires GraphMatches(u, lastBlock)
    ensures LoopsCovered(u, regs, |u.order|) <==> BackEdgesCovered(u, regs)
  {
    hide GraphMatches, LoopEnd, Successors;
    if LoopsCovered(u, regs, |u.order|) {
      forall p, t, r | JumpsBack(u, p, t) && EntersLive(u, regs, t, r) ensures u.c.spans[p].last <= regs[r].death {
        var k :| 0 <= k < |u.order| && u.order[k] == t;
        assert LoopCovered(u, regs, u.order[k], r);
        JumpBack(u, lastBlock, p, t);
      }
    }
    if BackEdgesCovered(u, regs) {
      forall k, r {:trigger LoopCovered(u, regs, u.order[k], r)} | 0 <= k < |u.order| && 0 <= u.order[k] < |u.c.spans|
        ensures LoopCovered(u, regs, u.order[k], r)
      {
        var t := u.order[k];
        LoopEndReached(u, lastBlock, t);
        if Examined(u, regs, t, r) && regs[r].birth < u.c.spans[t].first <= regs[r].death && LoopEnd(u, t) >= 0 {
          assert EntersLive(u, regs, t, r);
          var p :| JumpsBack(u, p, t) && LoopEnd(u, t) == u.c.spans[p].last;
        }
      }
    }
  }

  lemma CoversBackEdges(u: Frame, lastBlock: int, regs: seq<Reg>, regs': seq<Reg>)
    requires GraphMatches(u, lastBlock) && LoopsCovered(u, regs', |u.order|) && Least(u, regs, regs')
    ensures BackEdgesCovered(u, regs') && Minimal(u, regs, regs')
  {
    hide GraphMatches, LoopsCovered, BackEdgesCovered, Widened, NoLater;
    CoveredIffBackEdges(u, lastBlock, regs');
    forall other: seq<Reg> | Widened(regs, other, u.firstLive) && BackEdgesCovered(u, other)
      ensures NoLater(regs', other)
    {
      CoveredIffBackEdges(u, lastBlock, other);
    }
  }

  lemma BranchStep(u: Frame, lastBlock: int, p: Point, q: Point)
    requires GraphMatches(u, lastBlock) && OnStream(u.c, u.order, p) && OnStream(u.c, u.order, q)
    requires p.i <= u.c.spans[p.b].last && IsBranch(u.c.insns[p.i].op)
    requires q == EntryPoint(u.c, LabelBlock(u.c, u.c.insns[p.i].other))
    ensures q.b in Successors(u.c, p.b) && AtInstruction(u.c, q) && q.i == u.c.spans[q.b].first
    ensures p.i == u.c.spans[p.b].last
  {
    hide StreamOK, Wired;
    assert PlacedIn(u.c, p.b) && SpanOK(u.c, p.b);
    assert p.i == u.c.spans[p.b].last && LastInsn(u.c, p.b) == u.c.insns[p.i];
    var l := u.c.insns[p.i].other;
    assert LabelBlock(u.c, l) in u.order && StartsWithLabel(u.c, LabelBlock(u.c, l));
  }

  lemma FallStep(u: Frame, lastBlock: int, p: Point, q: Point)
    requires GraphMatches(u, lastBlock) && OnStream(u.c, u.order, p) && p.i > u.c.spans[p.b].last
    requires Edge(u.c, p, q)
    ensures p.i <= q.i
  {
    hide Wired, LabelsOK, TargetsOK, Placed;
    var k :| 0 <= k < |u.order| && u.order[k] == p.b;
    assert u.c.spans[u.order[k]].next == After(u.order, k);
    assert k + 1 < |u.order| && SpanOK(u.c, u.order[k + 1]);
  }

  /** Going backwards along a path that ends in a read: the range reaches every point on it. */
  lemma {:induction false} ReachesBack(u: Frame, lastBlock: int, regs: seq<Reg>, r: int, path: seq<Point>)
    requires GraphMatches(u, lastBlock) && LoopsCovered(u, regs, |u.order|) && InView(u, regs, r)
    requires IsWalk(u.c, u.order, path)
    requires Last(path).i <= regs[r].death
    requires forall p <- path :: AtInstruction(u.c, p) ==> regs[r].birth < p.i
    ensures path[0].i <= regs[r].death
    decreases |path|
  {
    hide GraphMatches, LoopCovered, Successors, EntryPoint;
    if |path| > 1 {
      var rest := path[1..];
      assert forall p <- rest :: p in path;
      assert IsWalk(u.c, u.order, rest) by {
        forall j | 0 <= j < |rest| - 1
          ensures Edge(u.c, rest[j], rest[j + 1]) { assert Edge(u.c, path[j + 1], path[j + 1 + 1]); }
      }
      ReachesBack(u, lastBlock, regs, r, rest);
      assert Edge(u.c, path[0], path[0 + 1]) && path[0] in path && path[1] in path;
      ReachesOne(u, lastBlock, regs, r, path[0], path[1]);
    }
  }

  lemma ReachesOne(u: Frame, lastBlock: int, regs: seq<Reg>, r: int, p: Point, q: Point)
    requires GraphMatches(u, lastBlock) && LoopsCovered(u, regs, |u.order|) && InView(u, regs, r)
    requires OnStream(u.c, u.order, p) && OnStream(u.c, u.order, q) && Edge(u.c, p, q)
    requires q.i <= regs[r].death && (AtInstruction(u.c, q) ==> regs[r].birth < q.i)
    ensures p.i <= regs[r].death
  {
    hide GraphMatches, Successors;
    if p.i > u.c.spans[p.b].last {
      FallStep(u, lastBlock, p, q);
    } else if q != Point(p.b, p.i + 1) {
      BranchStep(u, lastBlock, p, q);
      if q.b <= p.b {
        JumpBack(u, lastBlock, p.b, q.b);
        var j :| 0 <= j < |u.order| && u.order[j] == q.b;
        assert LoopCovered(u, regs, u.order[j], r);
      } else {
        StreamOfGraph(u, lastBlock);
        OrderAscends(u.c, u.order, lastBlock, p.b, q.b);
      }
    }
  }

  lemma StreamOfGraph(u: Frame, lastBlock: int)
    requires GraphMatches(u, lastBlock)
    ensures StreamOK(u.c, u.order, lastBlock)
  {}

  /** On a path from the definition of r to one of its reads that does not execute the definition again, every
      instruction lies within the widened range if and only if none comes before the definition in the code. */
  lemma RangeCoversPath(u: Frame, lastBlock: int, regs: seq<Reg>, r: int, path: seq<Point>)
    requires GraphMatches(u, lastBlock) && LoopsCovered(u, regs, |u.order|) && InView(u, regs, r)
    requires IsWalk(u.c, u.order, path) && Covers(u.c.decl, u.c.insns, regs)
    requires AtInstruction(u.c, Last(path)) && Reads(u.c.decl, u.c.insns[Last(path).i], r)
    requires forall p <- path :: AtInstruction(u.c, p) ==> p.i != regs[r].birth
    ensures (forall p <- path :: AtInstruction(u.c, p) ==> regs[r].birth <= p.i <= regs[r].death)
       <==> (forall p <- path :: AtInstruction(u.c, p) ==> regs[r].birth <= p.i)
  {
    hide GraphMatches, LoopsCovered, InView, Edge;
    assert Last(path).i <= regs[r].death by { assert Reads(u.c.decl, u.c.insns[Last(path).i], r); }
    if forall p <- path :: AtInstruction(u.c, p) ==> regs[r].birth <= p.i {
      forall j | 0 <= j < |path| ensures path[j].i <= regs[r].death {
        Suffix(u.c, u.order, path, j);
        ReachesBack(u, lastBlock, regs, r, path[j..]);
      }
    }
  }

  lemma Suffix(c: Code, order: seq<int>, path: seq<Point>, j: nat)
    requires IsWalk(c, order, path) && j < |path|
    ensures IsWalk(c, order, path[j..]) && path[j..][0] == path[j] && Last(path[j..]) == Last(path)
    ensures forall p <- path[j..] :: p in path
  {
    hide Edge;
    var rest := path[j..];
    forall m | 0 <= m < |rest| - 1
      ensures Edge(c, rest[m], rest[m + 1]) { assert Edge(c, path[j + m], path[j + m + 1]); }
  }

  // ---- Which registers the pass leaves out ----

  /** A live register that is live on entry to t is live to the end of t's last loop. */
  predicate LoopLived(u: Frame, regs: seq<Reg>, t: int, r: int)
    requires 0 <= t < |u.c.spans| && 0 <= r < |regs|
  {
    regs[r].live && regs[r].birth < u.c.spans[t].first <= regs[r].death ==> LoopEnd(u, t) <= regs[r].death
  }

  lemma HintsGiveView(u: Frame, regs: seq<Reg>, r: int)
    requires HintsOK(u.c.spans, regs, u.maxLive) && (forall t <- u.order :: t < |u.maxLive|)
    requires 0 < r < |regs| && regs[r].live && u.firstLive <= r
    ensures InView(u, regs, r)
  {
    forall t | t in u.order && 0 <= t < |u.c.spans| && regs[r].birth < u.c.spans[t].first
      ensures t < |u.maxLive| && r <= u.maxLive[t] {
      assert HintOK(regs, u.c.spans[t].first, u.maxLive[t]);
    }
  }

  /** After the pass all loops are covered for all registers if and only if they were covered before it for the
      registers numbered below first_live_reg, which is the first register defined and need not be the lowest. */
  lemma AllLoopsCovered(u: Frame, regs: seq<Reg>, regs': seq<Reg>)
    requires Sorted(u) && Widened(regs, regs', u.firstLive) && LoopsCovered(u, regs', |u.order|)
    requires HintsOK(u.c.spans, regs', u.maxLive) && (forall t <- u.order :: t < |u.maxLive|)
    ensures (forall k, r :: 0 <= k < |u.order| && 0 < r < |regs| ==> LoopLived(u, regs', u.order[k], r))
       <==> (forall k, r :: 0 <= k < |u.order| && 0 < r < |regs| && r < u.firstLive ==>
           LoopLived(u, regs, u.order[k], r))
  {
    forall r | 0 < r < |regs| ensures WidenedReg(regs, regs', u.firstLive, r) {}
    forall k, r | 0 <= k < |u.order| && 0 < r < |regs| && u.firstLive <= r ensures LoopLived(u, regs', u.order[k], r) {
      if regs'[r].live && regs'[r].birth < u.c.spans[u.order[k]].first {
        HintsGiveView(u, regs', r);
        assert u.order[k] in u.order && LoopCovered(u, regs', u.order[k], r);
      }
    }
    forall k, r | 0 <= k < |u.order| && 0 < r < |regs| && r < u.firstLive
      ensures LoopLived(u, regs', u.order[k], r) <==> LoopLived(u, regs, u.order[k], r)
    {
      assert WidenedReg(regs, regs', u.firstLive, r);
    }
  }
}
