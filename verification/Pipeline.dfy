/** The middle of binrec_translate: a unit is finalized, optimized, verified, and handed to register allocation, which
    starts by widening the live ranges. */
module Pipeline {
  import opened Rtl
  import opened Semantics
  import opened Liveness
  import opened Flow
  import opened BlockEdges
  import opened Unit
  import opened Invariant
  import opened ThreadBranches
  import DeadBranches
  import opened Optimize
  import opened Traces
  import opened Safety
  import opened Layout
  import opened Encoding
  import opened Builder
  import opened Verify
  import opened LiveRanges
  import opened Effects
  import opened FoldLoads
  import ReadonlyMap

  /** Optimization neither moves a definition nor lets a block of the stream start elsewhere, so that the register
      numbers recorded by the builder stay upper bounds. */
  lemma HintsSurvive(
    c0: Code, regs0: seq<Reg>, order0: seq<int>, maxLive: seq<int>, u: Frame, regs: seq<Reg>, r: int)
    requires HintsOK(c0.spans, regs0, maxLive) && SsaOK(c0.insns, regs0) && SsaOK(u.c.insns, regs)
    requires AnchorsKept(c0, u.c, order0, u.order) && u.maxLive == maxLive
    requires forall b <- u.order :: SpanOK(u.c, b) && b < |maxLive|
    requires 0 < r < |regs| && regs[r].live && u.firstLive <= r
    ensures InView(u, regs, r)
  {
    var i := regs[r].birth;
    assert u.c.insns[i].dest == r && c0.insns[i].dest == r && regs0[r].birth == i && regs0[r].live;
    forall t | t in u.order && 0 <= t < |u.c.spans| && regs[r].birth < u.c.spans[t].first
      ensures t < |u.maxLive| && r <= u.maxLive[t] {
      assert SpanOK(u.c, t) && SpanOK(c0, t) && HintOK(regs0, c0.spans[t].first, maxLive[t]);
    }
  }

  /** Widening ranges does not change which reads they cover, which blocks they enter, or what is in view. */
  lemma WidenedCovers(u: Frame, regs: seq<Reg>, regs': seq<Reg>)
    requires Widened(regs, regs', u.firstLive) && Covers(u.c.decl, u.c.insns, regs)
    ensures Covers(u.c.decl, u.c.insns, regs')
  {
    forall i, r {:trigger Reads(u.c.decl, u.c.insns[i], r)} | 0 <= i < |u.c.insns| && Reads(u.c.decl, u.c.insns[i], r)
      ensures r < |regs'| && regs'[r].live && regs'[r].birth < i <= regs'[r].death
    {
      assert r < |regs| && WidenedReg(regs, regs', u.firstLive, r);
    }
  }

  lemma WidenedView(u: Frame, regs: seq<Reg>, regs': seq<Reg>)
    requires Widened(regs, regs', u.firstLive)
    requires forall r :: 0 < r < |regs| && regs[r].live && u.firstLive <= r ==> InView(u, regs, r)
    ensures forall r :: 0 < r < |regs'| && regs'[r].live && u.firstLive <= r ==> InView(u, regs', r)
  {
    forall r | 0 < r < |regs'| && regs'[r].live && u.firstLive <= r ensures InView(u, regs', r) {
      assert WidenedReg(regs, regs', u.firstLive, r) && InView(u, regs, r);
    }
  }

  /** After optimization the graph is what the widening pass and its coverage theorem need. */
  lemma GraphOfUnit(u: Frame, regs: seq<Reg>, lastBlock: int, loose: set<int>)
    requires WellFormed(u.c, regs, u.edges, u.owner, u.order, lastBlock, loose)
    requires NoStrayEdges(u.edges, u.owner, u.order)
    ensures GraphMatches(u, lastBlock) && StreamOK(u.c, u.order, lastBlock) && EdgesOK(u.edges, u.owner)
    ensures |u.edges| == |u.c.spans| && (forall b <- u.order :: SpanOK(u.c, b) && IsReal(u.owner, b))
    ensures SsaOK(u.c.insns, regs) && Covers(u.c.decl, u.c.insns, regs)
  {
    hide StreamOK, Placed, TargetsOK, LabelsOK, EdgesOK, ConstOK, Clean, Covers, SsaOK, Tight;
    SpansOfFlow(u.c, u.order, lastBlock);
  }

  /** The ranges are the least that cover the loops and begin and end no later than exact ones: from a register's
      definition to its last use.  (Registers in "loose" may have been taken to be used later than they are.) */
  ghost predicate LeastRanges(u: Frame, regs': seq<Reg>, loose: set<int>) {
    exists regs :: LiveOK(u.c.decl, u.c.insns, regs, loose) && Widened(regs, regs', u.firstLive) && Minimal(u, regs,
        regs')
  }

  lemma RangesOfUnit(u: Frame, regs: seq<Reg>, lastBlock: int, loose: set<int>)
    requires WellFormed(u.c, regs, u.edges, u.owner, u.order, lastBlock, loose)
    ensures LiveOK(u.c.decl, u.c.insns, regs, loose)
  {
    hide FlowOK, Wired, ConstOK, Clean, LiveOK;
  }

  /** Finalize the unit, optimize it, verify it if asked to, and widen its live ranges.  Verification never rejects what
      the builder and the optimizer have produced. */
  method Compile(
    unit: RtlUnit, flags: Flags, undefined: int, doVerify: bool, handle: ReadonlyMap.Handle, image: int -> nat,
    ghost g: Guest)
    returns (ok: bool, ghost start: Code, ghost trace: Trace)
    requires Building(unit) && |unit.spans| > 0 && handle.Valid() && g.image == image && g.readonly == handle.contents
    requires flags.basic ==> AllTwoWay(View(unit.Snap(), unit.haveBlock), Order(|unit.spans|))
    modifies unit
    ensures ok <==> LabelsPlaced(old(unit.Snap()))
    ensures ok ==> Extends(View(old(unit.Snap()), old(unit.haveBlock)), start)
    ensures ok ==> Traced(g, unit.membaseReg, start, old(unit.regs), old(unit.order), trace, unit.Snap(), unit.order,
                          flags)
    ensures ok && Harmless(g, unit.membaseReg, start, old(unit.order), trace, unit.Snap(), unit.order, flags) ==>
              RefinesOn(g, View(old(unit.Snap()), old(unit.haveBlock)), unit.Snap())
    ensures ok && SafeUnit(g, unit.membaseReg, start, old(unit.order), unit.Snap(), unit.order, flags) ==>
              Harmless(g, unit.membaseReg, start, old(unit.order), trace, unit.Snap(), unit.order, flags)
    ensures ok ==> Covers(unit.decl, unit.insns, unit.regs) && GraphMatches(FrameOf(unit), unit.lastBlock)
    ensures ok ==> LoopsCovered(FrameOf(unit), unit.regs, |unit.order|) && BackEdgesCovered(FrameOf(unit), unit.regs)
    ensures ok ==> LeastRanges(FrameOf(unit), unit.regs, if flags.basic then {1} else {})
    ensures ok ==> forall r :: 0 < r < |unit.regs| && unit.regs[r].live && unit.firstLiveReg <= r ==>
              InView(FrameOf(unit), unit.regs, r)
  {
    hide Building, AllTwoWay, LabelsPlaced, Finalized, Harmless, Traced, SafeUnit, Refines, RefinesOn, AllInStream,
      HintsOK, GraphMatches, LoopsCovered, Covers, InView, FlowOK, Shaped, BackEdgesCovered, LeastRanges;
    ghost var built := View(unit.Snap(), unit.haveBlock);
    BuildingParts(unit);
    ok := FinalizeUnit(unit);
    start := unit.Snap();
    trace := Trace(start, unit.regs, start, start, start, start, start);
    if !ok { return; }
    ExtendRefines(built, start, unit.order, |unit.order| - 1);
    trace := FinishUnit(unit, flags, undefined, doVerify, handle, image, g);
    if Harmless(g, unit.membaseReg, start, old(unit.order), trace, unit.Snap(), unit.order, flags) {
      RefinesAnywhere(g, built, start);
      RefinesOnTransitive(g, built, start, unit.Snap());
    }
  }

  /** What happens to a finalized unit. */
  method FinishUnit(
    unit: RtlUnit, flags: Flags, undefined: int, doVerify: bool, handle: ReadonlyMap.Handle, image: int -> nat,
    ghost g: Guest)
    returns (ghost trace: Trace)
    requires Finalized(unit, flags.basic) && handle.Valid() && g.image == image && g.readonly == handle.contents
    requires HintsOK(unit.spans, unit.regs, unit.maxLive) && AllInStream(unit.owner, unit.order)
    requires unit.firstLiveReg >= 0
    requires unit.order == Order(|unit.maxLive|) && |unit.minDeath| == |unit.maxLive|
    modifies unit`insns, unit`regs, unit`labels, unit`spans, unit`edges, unit`owner, unit`order, unit`lastBlock,
      unit`blockSeen,
      unit`minDeath
    ensures Traced(g, unit.membaseReg, old(unit.Snap()), old(unit.regs), old(unit.order), trace, unit.Snap(),
                   unit.order, flags)
    ensures Harmless(g, unit.membaseReg, old(unit.Snap()), old(unit.order), trace, unit.Snap(), unit.order, flags) ==>
              RefinesOn(g, old(unit.Snap()), unit.Snap())
    ensures SafeUnit(g, unit.membaseReg, old(unit.Snap()), old(unit.order), unit.Snap(), unit.order, flags) ==>
              Harmless(g, unit.membaseReg, old(unit.Snap()), old(unit.order), trace, unit.Snap(), unit.order, flags)
    ensures Covers(unit.decl, unit.insns, unit.regs) && GraphMatches(FrameOf(unit), unit.lastBlock)
    ensures LoopsCovered(FrameOf(unit), unit.regs, |unit.order|) && BackEdgesCovered(FrameOf(unit), unit.regs)
    ensures LeastRanges(FrameOf(unit), unit.regs, if flags.basic then {1} else {})
    ensures forall r :: 0 < r < |unit.regs| && unit.regs[r].live && unit.firstLiveReg <= r ==>
              InView(FrameOf(unit), unit.regs, r)
  {
    hide AllTwoWay, Finalized, Harmless, Traced, SafeUnit, Refines, RefinesOn, WellFormed, AnchorsKept, Retained,
      NoStrayEdges, AllInStream, HintsOK, GraphMatches, LoopsCovered, Covers, SsaOK, VerifyOK, InView, Widened, Least,
      StreamOK, EdgesOK, FlowOK, DeadBranches.NoneToNext, DeadBranches.Targeted, ControlSettled, BackEdgesCovered,
      Minimal, LiveOK;
    ghost var start, regs0, order0, maxLive := unit.Snap(), unit.regs, unit.order, unit.maxLive;
    FinalizedStands(unit, flags.basic);
    trace := OptimizeUnit(unit, flags, undefined, handle, image, g);
    if doVerify {
      var ok := VerifyUnit(unit);
      assert ok;
    }
    ghost var u, regs := FrameOf(unit), unit.regs;
    GraphOfUnit(u, regs, unit.lastBlock, if flags.basic then {1} else {});
    RangesOfUnit(u, regs, unit.lastBlock, if flags.basic then {1} else {});
    OrderShrinks(start, u.c, order0, u.order, |maxLive|);
    forall r | 0 < r < |regs| && regs[r].live && u.firstLive <= r ensures InView(u, regs, r) {
      HintsSurvive(start, regs0, order0, maxLive, u, regs, r);
    }
    HintSizes(start.spans, regs0, maxLive);
    UpdateLiveRanges(unit);
    WidenedCovers(u, regs, unit.regs);
    WidenedView(u, regs, unit.regs);
  }

  lemma BuildingParts(unit: RtlUnit)
    requires Building(unit)
    ensures unit.order == Order(|unit.spans|) && Hinted(unit)
  {}

  lemma OrderShrinks(c0: Code, c: Code, order0: seq<int>, order: seq<int>, n: nat)
    requires AnchorsKept(c0, c, order0, order) && order0 == Order(n)
    ensures forall b <- order :: 0 <= b < n
  {}

  lemma HintSizes(spans: seq<Span>, regs: seq<Reg>, maxLive: seq<int>)
    requires HintsOK(spans, regs, maxLive)
    ensures forall b :: 0 <= b < |maxLive| ==> maxLive[b] < |regs|
  {
    forall b | 0 <= b < |maxLive| ensures maxLive[b] < |regs| { assert HintOK(regs, spans[b].first, maxLive[b]); }
  }
}
