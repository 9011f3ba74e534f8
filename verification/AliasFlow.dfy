/** rtl_opt_alias_data_flow: which stores to aliases are removed, and that removing them is correct. */
module AliasFlow {
  import opened Rtl
  import opened Liveness
  import opened Semantics
  import opened Flow
  import opened BlockEdges
  import opened Unit
  import opened Kill
  import opened Invariant
  import opened Removal
  import opened AliasLiveness

  /** What the pass records about one alias in one block. */
  datatype AliasRef = AliasRef(hasGet: bool, hasSet: bool, setUsed: bool, setInsn: int)

  // ---- is_alias_store_visible ----

  /** The recorded flags are right for alias a in every block of the stream. */
  ghost predicate InfoOK(c: Code, order: seq<int>, info: seq<seq<AliasRef>>, a: int) {
    forall b <- order ::
      && SpanOK(c, b) && b < |info| && 0 <= a < |info[b]|
      && info[b][a].hasGet == HasGet(c, b, a) && info[b][a].hasSet == HasSet(c, b, a)
  }

  /** The exit lists describe the control flow of c, which stays within the stream. */
  ghost predicate GraphOK(c: Code, edges: seq<Edges>, order: seq<int>) {
    forall b <- order ::
      && SpanOK(c, b) && b < |edges| && |edges[b].exits| == 2 && Packed(edges[b].exits)
      && ExitSet(edges[b]) == Successors(c, b)
      && forall t <- Successors(c, b) :: t in order && t < |edges|
  }

  /** Nothing beyond the end of block b shows alias a's value without passing a block not yet seen. */
  ghost predicate Open(c: Code, a: int, b: int, seen: seq<bool>) {
    && SpanOK(c, b) && (Successors(c, b) == {} ==> !IsBound(c.decl, a))
    && forall t <- Successors(c, b) :: 0 <= t < |seen| && seen[t]
  }

  ghost predicate Explored(c: Code, a: int, b: int, seen: seq<bool>) {
    SpanOK(c, b) && !HasGet(c, b, a) && (HasSet(c, b, a) || Open(c, a, b, seen))
  }

  ghost predicate AllExplored(c: Code, a: int, seen: seq<bool>, seen': seq<bool>) {
    && |seen'| == |seen|
    && (forall x :: 0 <= x < |seen| && seen[x] ==> seen'[x])
    && (forall x :: 0 <= x < |seen| && seen'[x] && !seen[x] ==> Explored(c, a, x, seen'))
  }

  lemma AllExploredTrans(c: Code, a: int, s1: seq<bool>, s2: seq<bool>, s3: seq<bool>)
    requires AllExplored(c, a, s1, s2) && AllExplored(c, a, s2, s3)
    ensures AllExplored(c, a, s1, s3)
  {
    forall x | 0 <= x < |s1| && s3[x] && !s1[x] ensures Explored(c, a, x, s3) {
      if s2[x] { assert Explored(c, a, x, s2); }
    }
  }

  /** A search that found nothing has explored everything the alias's value can reach. */
  lemma {:induction false} NothingArrives(c: Code, a: int, b: int, seen: seq<bool>, path: seq<int>)
    requires Open(c, a, b, seen) && forall x :: 0 <= x < |seen| && seen[x] ==> Explored(c, a, x, seen)
    requires |path| > 0 && path[0] == b
    ensures !Arrives(c, a, path)
    decreases |path|
  {
    if |path| > 1 && path[1] in Successors(c, b) && SpanOK(c, path[1]) {
      assert Explored(c, a, path[1], seen);
      if !HasSet(c, path[1], a) { NothingArrives(c, a, path[1], seen, path[1..]); }
    }
  }

  lemma NotVisible(c: Code, a: int, b: int, seen: seq<bool>, seen': seq<bool>)
    requires Open(c, a, b, seen') && AllExplored(c, a, seen, seen') && forall x :: 0 <= x < |seen| ==> !seen[x]
    ensures !Visible(c, b, a)
  {
    forall path ensures !ArrivesFrom(c, b, a, path) {
      if |path| > 0 && path[0] == b { NothingArrives(c, a, b, seen', path); }
    }
  }

  function CountUnseen(seen: seq<bool>): nat { |set x | 0 <= x < |seen| && !seen[x]| }

  lemma Marking(seen: seq<bool>, x: int)
    requires 0 <= x < |seen| && !seen[x]
    ensures CountUnseen(seen[x := true]) < CountUnseen(seen)
  {
    var marked := seen[x := true];
    var before, after := set i | 0 <= i < |seen| && !seen[i], set i | 0 <= i < |marked| && !marked[i];
    assert before == after + {x};
  }

  lemma CountMonotone(seen: seq<bool>, seen': seq<bool>)
    requires |seen'| == |seen| && forall x :: 0 <= x < |seen| && seen[x] ==> seen'[x]
    ensures CountUnseen(seen') <= CountUnseen(seen)
  {
    var before, after := set i | 0 <= i < |seen| && !seen[i], set i | 0 <= i < |seen| && !seen'[i];
    assert before == after + (before - after);
  }

  lemma VisibleThrough(c: Code, b: int, t: int, a: int)
    requires SpanOK(c, b) && SpanOK(c, t) && t in Successors(c, b)
    requires HasGet(c, t, a) || (!HasSet(c, t, a) && Visible(c, t, a))
    ensures Visible(c, b, a)
  {
    if HasGet(c, t, a) {
      assert ArrivesFrom(c, b, a, [b, t]);
    } else {
      var path :| ArrivesFrom(c, t, a, path);
      assert ([b] + path)[1..] == path;
      assert ArrivesFrom(c, b, a, [b] + path);
    }
  }

  lemma ExitsAre(c: Code, edges: seq<Edges>, order: seq<int>, b: int)
    requires GraphOK(c, edges, order) && b in order
    ensures SpanOK(c, b) && b < |edges| && |edges[b].exits| == 2
    ensures forall x :: 0 <= x < 2 && edges[b].exits[x] >= 0 ==>
              edges[b].exits[x] in Successors(c, b) && edges[b].exits[x] in order && edges[b].exits[x] < |edges|
    ensures edges[b].exits[0] < 0 ==> Successors(c, b) == {}
    ensures edges[b].exits[0] >= 0 ==> Successors(c, b) != {}
    ensures forall t <- Successors(c, b) :: t == edges[b].exits[0] || (t == edges[b].exits[1] && edges[b].exits[1] >= 0)
  {
    var e := edges[b].exits;
    assert e[0] in e && e[1] in e;
    forall x | 0 <= x < 2 && e[x] >= 0 ensures e[x] in Successors(c, b) { assert e[x] in ExitSet(edges[b]); }
  }

  /** Visit an exit block that has not been seen: does it show the alias's value? */
  method VisitExit(
    unit: RtlUnit, info: seq<seq<AliasRef>>, alias: int, exit: int, ghost c: Code) returns (visible: bool)
    requires GraphOK(c, unit.edges, unit.order) && InfoOK(c, unit.order, info, alias) && c.decl == unit.decl
    requires 0 < alias < |unit.decl.base| && |unit.blockSeen| >= |unit.edges|
    requires exit in unit.order && 0 <= exit < |unit.edges| && !unit.blockSeen[exit]
    modifies unit`blockSeen
    ensures |unit.blockSeen| == |old(unit.blockSeen)| && SpanOK(c, exit)
    ensures visible ==> HasGet(c, exit, alias) || (!HasSet(c, exit, alias) && Visible(c, exit, alias))
    ensures !visible ==> AllExplored(c, alias, old(unit.blockSeen), unit.blockSeen) && unit.blockSeen[exit]
    decreases CountUnseen(unit.blockSeen), 0
  {
    hide Visible, HasGet, HasSet, Successors;
    ghost var seen := unit.blockSeen;
    Marking(seen, exit);
    assert SpanOK(c, exit);
    unit.blockSeen := unit.blockSeen[exit := true];
    if info[exit][alias].hasGet {
      visible := true;
    } else if info[exit][alias].hasSet {
      visible := false;
    } else {
      visible := IsAliasStoreVisible(unit, info, alias, exit, c);
    }
  }

  /** is_alias_store_visible. */
  method IsAliasStoreVisible(
    unit: RtlUnit, info: seq<seq<AliasRef>>, alias: int, b: int, ghost c: Code) returns (visible: bool)
    requires GraphOK(c, unit.edges, unit.order) && InfoOK(c, unit.order, info, alias) && c.decl == unit.decl
    requires 0 < alias < |unit.decl.base| && |unit.blockSeen| >= |unit.edges| && b in unit.order
    modifies unit`blockSeen
    ensures |unit.blockSeen| == |old(unit.blockSeen)|
    ensures visible ==> Visible(c, b, alias)
    ensures !visible ==> AllExplored(c, alias, old(unit.blockSeen), unit.blockSeen) && Open(c, alias, b, unit.blockSeen)
    decreases CountUnseen(unit.blockSeen), 1
  {
    hide Visible, HasGet, HasSet, Successors, Explored, CountUnseen, GraphOK, InfoOK;
    ghost var seen := unit.blockSeen;
    ExitsAre(c, unit.edges, unit.order, b);
    if unit.edges[b].exits[0] < 0 {
      visible := unit.decl.base[alias] != 0;
      if visible { VisibleAtExit(c, b, alias); }
      return;
    }
    if unit.edges[b].exits[1] >= 0 && !unit.blockSeen[unit.edges[b].exits[1]] {
      var exit := unit.edges[b].exits[1];
      visible := VisitExit(unit, info, alias, exit, c);
      if visible { VisibleThrough(c, b, exit, alias); return; }
      CountMonotone(seen, unit.blockSeen);
    }
    ghost var seen1 := unit.blockSeen;
    var exit := unit.edges[b].exits[0];
    if unit.blockSeen[exit] { return false; }
    visible := VisitExit(unit, info, alias, exit, c);
    if visible { VisibleThrough(c, b, exit, alias); }
    else { AllExploredTrans(c, alias, seen, seen1, unit.blockSeen); }
  }

  lemma VisibleAtExit(c: Code, b: int, a: int)
    requires SpanOK(c, b) && Successors(c, b) == {} && IsBound(c.decl, a)
    ensures Visible(c, b, a)
  {
    assert ArrivesFrom(c, b, a, [b]);
  }

  // ---- Recording one block ----

  /** The record of alias a after scanning the instructions of a block from "first" up to i. */
  predicate RefOK(c: Code, first: int, i: int, a: int, ref: AliasRef) {
    && ref.hasGet == GotIn(c, first, i, a)
    && ref.hasSet == SetIn(c, first, i, a)
    && (ref.hasSet ==>
          && first <= ref.setInsn < i && 0 <= ref.setInsn < |c.insns| && SetsAlias(c.insns[ref.setInsn], a)
          && !SetIn(c, ref.setInsn + 1, i, a) && ref.setUsed == UsedIn(c, ref.setInsn + 1, i, a))
  }

  predicate GotIn(c: Code, first: int, i: int, a: int) {
    exists j :: first <= j < i && 0 <= j < |c.insns| && GetsAlias(c.insns[j], a) && !SetIn(c, first, j, a)
  }

  ghost predicate RefsOK(c: Code, first: int, i: int, refs: seq<AliasRef>) {
    forall a :: 0 <= a < |refs| ==> RefOK(c, first, i, a, refs[a])
  }

  lemma RefAfterOther(c: Code, first: int, i: int, a: int, ref: AliasRef)
    requires 0 <= first <= i < |c.insns| && RefOK(c, first, i, a, ref)
    requires !SetsAlias(c.insns[i], a) && !GetsAlias(c.insns[i], a)
    requires UsesAlias(c.decl, c.insns[i], a) ==> !ref.hasSet || ref.setUsed
    ensures RefOK(c, first, i + 1, a, ref)
  {
    var next := i + 1;
    assert SetIn(c, first, next, a) <==> SetIn(c, first, i, a);
    assert GotIn(c, first, next, a) <==> GotIn(c, first, i, a);
    if ref.hasSet {
      assert SetIn(c, ref.setInsn + 1, next, a) <==> SetIn(c, ref.setInsn + 1, i, a);
      assert UsedIn(c, ref.setInsn + 1, i, a) ==> UsedIn(c, ref.setInsn + 1, next, a);
    }
  }

  lemma RefAfterUse(c: Code, first: int, i: int, a: int, ref: AliasRef)
    requires 0 <= first <= i < |c.insns| && RefOK(c, first, i, a, ref)
    requires UsesAlias(c.decl, c.insns[i], a) && !GetsAlias(c.insns[i], a)
    ensures RefOK(c, first, i + 1, a, ref.(setUsed := true))
  {
    var next := i + 1;
    assert SetIn(c, first, next, a) <==> SetIn(c, first, i, a);
    assert GotIn(c, first, next, a) <==> GotIn(c, first, i, a);
    if ref.hasSet {
      assert SetIn(c, ref.setInsn + 1, next, a) <==> SetIn(c, ref.setInsn + 1, i, a);
    }
  }

  lemma RefAfterGet(c: Code, first: int, i: int, a: int, ref: AliasRef)
    requires 0 <= first <= i < |c.insns| && RefOK(c, first, i, a, ref) && GetsAlias(c.insns[i], a)
    ensures RefOK(c, first, i + 1, a, if ref.hasSet then ref.(setUsed := true) else ref.(hasGet := true))
  {
    var next := i + 1;
    assert SetIn(c, first, next, a) <==> SetIn(c, first, i, a);
    assert GotIn(c, first, i, a) ==> GotIn(c, first, next, a);
    if ref.hasSet {
      assert SetIn(c, ref.setInsn + 1, next, a) <==> SetIn(c, ref.setInsn + 1, i, a);
    }
  }

  lemma RefAfterSet(c: Code, first: int, i: int, a: int, ref: AliasRef)
    requires 0 <= first <= i < |c.insns| && RefOK(c, first, i, a, ref) && SetsAlias(c.insns[i], a)
    ensures RefOK(c, first, i + 1, a, ref.(hasSet := true, setUsed := false, setInsn := i))
  {
    var next := i + 1;
    assert SetIn(c, first, next, a);
    assert GotIn(c, first, next, a) <==> GotIn(c, first, i, a);
    assert !SetIn(c, next, next, a) && !UsedIn(c, next, next, a);
  }

  /** Which stores are overwritten once the store at i has been scanned. */
  lemma OverwrittenStep(c: Code, k: int, i: int, a: int)
    requires 0 <= k < i < |c.insns| && SetsAlias(c.insns[k], a)
    ensures Overwritten(c, k, i + 1, a) <==>
              Overwritten(c, k, i, a) || (SetsAlias(c.insns[i], a) && !UsedIn(c, k + 1, i, a))
    ensures SetIn(c, k + 1, i, a) && !UsedIn(c, k + 1, i, a) ==> Overwritten(c, k, i, a)
    ensures !SetIn(c, k + 1, i, a) ==> !Overwritten(c, k, i, a)
  {
    if SetIn(c, k + 1, i, a) && !UsedIn(c, k + 1, i, a) {
      var e :| k + 1 <= e < i && 0 <= e < |c.insns| && SetsAlias(c.insns[e], a);
      assert !UsedIn(c, k + 1, e, a);
    }
    if e :| k < e < i && 0 <= e < |c.insns| && SetsAlias(c.insns[e], a) && !UsedIn(c, k + 1, e, a) {
      assert SetIn(c, k + 1, i, a);
    }
  }

  // ---- Killing stores ----

  lemma KilledStore(
    c: Code, regs: seq<Reg>, edges: seq<Edges>, owner: seq<int>, order: seq<int>, lastBlock: int, k: int,
    c': Code, regs': seq<Reg>)
    requires WellFormed(c, regs, edges, owner, order, lastBlock, {})
    requires 0 <= k < |c.insns| && c.insns[k].op.SET_ALIAS? && CleanInsn(c.decl, c.insns[k])
    requires LiveOK(c'.decl, c'.insns, regs', {}) && Clean(c'.decl, c'.insns)
    requires Released(WithoutInsn(c, k), c', WithoutDest(regs, c.insns[k]), regs', k, false, false,
                      Operands(c.decl, c.insns[k]))
    ensures c' == c.(insns := c.insns[k := NopInsn])
    ensures WellFormed(c', regs', edges, owner, order, lastBlock, {})
  {
    hide LiveOK, Clean, FlowOK, Wired, ConstOK;
    NopsKeepWellFormed(c, regs, edges, owner, order, lastBlock, c', regs');
  }

  method KillStore(unit: RtlUnit, k: int, ghost c: Code, ghost killed: set<int>)
    requires UnitOK(unit) && unit.Snap() == WithoutStores(c, killed)
    requires 0 <= k < |c.insns| && c.insns[k].op.SET_ALIAS? && k !in killed
    modifies unit`insns, unit`regs, unit`labels
    ensures |unit.regs| == |old(unit.regs)|
    ensures UnitOK(unit) && unit.Snap() == WithoutStores(c, killed + {k})
  {
    ghost var c0, regs := unit.Snap(), unit.regs;
    assert CleanInsn(c0.decl, c0.insns[k]);
    hide Released, LiveOK, Clean, FlowOK, Wired, ConstOK, Operands;
    KillInsn(unit, k, false, false, {});
    KilledStore(c0, regs, unit.edges, unit.owner, unit.order, unit.lastBlock, k, unit.Snap(), unit.regs);
    assert WithNops(c.insns, killed)[k := NopInsn] == WithNops(c.insns, killed + {k});
  }

  predicate InBlock(c: Code, order: seq<int>, j: int, k: int) {
    0 <= j < |order| && SpanOK(c, order[j]) && c.spans[order[j]].first <= k <= c.spans[order[j]].last
  }

  /** How far block order[j] has been scanned when the scan stands at instruction i of block order[m]. */
  function Limit(c: Code, order: seq<int>, j: int, m: int, i: int): int
    requires 0 <= j < |order| && SpanOK(c, order[j])
  {
    if j < m then c.spans[order[j]].last + 1 else if j == m then i else c.spans[order[j]].first
  }

  /** Killed so far: exactly the stores seen to be overwritten without a use. */
  ghost predicate KilledTo(c: Code, order: seq<int>, killed: set<int>, m: int, i: int) {
    && (forall k <- killed :: exists j :: InBlock(c, order, j, k))
    && forall j, k :: InBlock(c, order, j, k) ==>
         (k in killed <==> c.insns[k].op.SET_ALIAS? && Overwritten(c, k, Limit(c, order, j, m, i), c.insns[k].other))
  }

  lemma InOneBlock(c: Code, order: seq<int>, lastBlock: int, j: int, m: int, k: int)
    requires StreamOK(c, order, lastBlock) && InBlock(c, order, j, k) && InBlock(c, order, m, k)
    ensures j == m
  {}

  /** Scanning instruction i of block order[m], where "latest" is the latest store of the same alias, if any,
      and "used" tells whether it has been used. */
  lemma KilledStep(
    c: Code, order: seq<int>, lastBlock: int, killed: set<int>, m: int, i: int, latest: int, used: bool,
    killed': set<int>)
    requires StreamOK(c, order, lastBlock) && KilledTo(c, order, killed, m, i) && InBlock(c, order, m, i)
    requires c.insns[i].op.SET_ALIAS? && latest >= 0 ==>
               && InBlock(c, order, m, latest) && latest < i && SetsAlias(c.insns[latest], c.insns[i].other)
               && !SetIn(c, latest + 1, i, c.insns[i].other) && used == UsedIn(c, latest + 1, i, c.insns[i].other)
    requires c.insns[i].op.SET_ALIAS? && latest < 0 ==> !SetIn(c, c.spans[order[m]].first, i, c.insns[i].other)
    requires killed' == killed + if c.insns[i].op.SET_ALIAS? && latest >= 0 && !used then {latest} else {}
    ensures KilledTo(c, order, killed', m, i + 1)
  {
    forall j, k | InBlock(c, order, j, k)
      ensures k in killed' <==>
                c.insns[k].op.SET_ALIAS? && Overwritten(c, k, Limit(c, order, j, m, i + 1), c.insns[k].other)
    {
      if j != m {
        if k == latest && InBlock(c, order, m, k) { InOneBlock(c, order, lastBlock, j, m, k); }
      } else if k < i && c.insns[k].op.SET_ALIAS? {
        OverwrittenStep(c, k, i, c.insns[k].other);
        if SetsAlias(c.insns[i], c.insns[k].other) && !SetIn(c, k + 1, i, c.insns[k].other) {
          OnlyLatest(c, c.spans[order[m]].first, k, i, latest, c.insns[i].other);
        }
      }
    }
    forall k | k in killed' ensures exists j :: InBlock(c, order, j, k) {
      if k !in killed { assert InBlock(c, order, m, k); }
    }
  }

  lemma OnlyLatest(c: Code, first: int, k: int, i: int, latest: int, a: int)
    requires 0 <= first <= k < i <= |c.insns| && SetsAlias(c.insns[k], a) && !SetIn(c, k + 1, i, a)
    requires latest >= 0 ==> first <= latest < i && SetsAlias(c.insns[latest], a) && !SetIn(c, latest + 1, i, a)
    requires latest < 0 ==> !SetIn(c, first, i, a)
    ensures k == latest
  {
    assert k <= latest || SetIn(c, if latest < 0 then first else latest + 1, i, a);
    assert latest <= k || SetIn(c, k + 1, i, a);
  }

  /** The state of the recording scan at instruction i of block order[m]. */
  ghost predicate Recording(unit: RtlUnit, c: Code, killed: set<int>, m: int, i: int, refs: seq<AliasRef>)
    reads unit
  {
    && UnitOK(unit) && unit.Snap() == WithoutStores(c, killed)
    && FlowOK(c, unit.order, unit.lastBlock) && Clean(c.decl, c.insns)
    && 0 <= m < |unit.order| && SpanOK(c, unit.order[m])
    && c.spans[unit.order[m]].first <= i <= c.spans[unit.order[m]].last + 1
    && KilledTo(c, unit.order, killed, m, i)
    && |refs| == |c.decl.base| && RefsOK(c, c.spans[unit.order[m]].first, i, refs)
  }

  lemma StoreScanned(
    c: Code, order: seq<int>, lastBlock: int, killed: set<int>, m: int, i: int, a: int, ref: AliasRef)
    requires StreamOK(c, order, lastBlock) && InBlock(c, order, m, i) && SetsAlias(c.insns[i], a)
    requires KilledTo(c, order, killed, m, i) && RefOK(c, c.spans[order[m]].first, i, a, ref)
    ensures ref.hasSet ==> 0 <= ref.setInsn < |c.insns| && c.insns[ref.setInsn].op.SET_ALIAS? && ref.setInsn !in killed
    ensures KilledTo(c, order, killed + if ref.hasSet && !ref.setUsed then {ref.setInsn} else {}, m, i + 1)
  {
    hide KilledTo, StreamOK, Overwritten, SetIn, UsedIn;
    if ref.hasSet { LatestAlive(c, order, killed, m, i, ref.setInsn); }
    KilledStep(c, order, lastBlock, killed, m, i, if ref.hasSet then ref.setInsn else -1, ref.setUsed,
               killed + if ref.hasSet && !ref.setUsed then {ref.setInsn} else {});
  }

  lemma StoreRecorded(d: Decl, insn: Insn, i: int, a: int, refs: seq<AliasRef>)
    requires SetsAlias(insn, a) && 0 <= a < |refs|
    ensures StepRefs(d, insn, i, refs, refs[a := refs[a].(hasSet := true, setUsed := false, setInsn := i)])
  {}

  /** A store: the previous one, if unused, is dead. */
  method RecordSet(
    unit: RtlUnit, refs: seq<AliasRef>, i: int, a: int, ghost c: Code, ghost m: int, ghost killed: set<int>)
    returns (refs': seq<AliasRef>, ghost killed': set<int>)
    requires UnitOK(unit) && unit.Snap() == WithoutStores(c, killed) && StreamOK(c, unit.order, unit.lastBlock)
    requires InBlock(c, unit.order, m, i) && SetsAlias(c.insns[i], a) && 0 <= a < |refs|
    requires KilledTo(c, unit.order, killed, m, i) && RefsOK(c, c.spans[unit.order[m]].first, i, refs)
    modifies unit`insns, unit`regs, unit`labels
    ensures |unit.regs| == |old(unit.regs)|
    ensures UnitOK(unit) && unit.Snap() == WithoutStores(c, killed') && KilledTo(c, unit.order, killed', m, i + 1)
    ensures StepRefs(c.decl, c.insns[i], i, refs, refs')
  {
    assert RefOK(c, c.spans[unit.order[m]].first, i, a, refs[a]);
    hide UnitOK, KilledTo, StreamOK, RefOK, RefsOK, StepRefs;
    StoreScanned(c, unit.order, unit.lastBlock, killed, m, i, a, refs[a]);
    StoreRecorded(c.decl, c.insns[i], i, a, refs);
    if refs[a].hasSet && !refs[a].setUsed {
      KillStore(unit, refs[a].setInsn, c, killed);
      killed' := killed + {refs[a].setInsn};
    } else {
      killed' := killed + {};
    }
    refs' := refs[a := refs[a].(hasSet := true, setUsed := false, setInsn := i)];
  }

  lemma RecordingOpen(unit: RtlUnit, c: Code, killed: set<int>, m: int, i: int, refs: seq<AliasRef>)
    requires Recording(unit, c, killed, m, i, refs) && i <= c.spans[unit.order[m]].last
    ensures UnitOK(unit) && unit.Snap() == WithoutStores(c, killed) && StreamOK(c, unit.order, unit.lastBlock)
    ensures InBlock(c, unit.order, m, i) && 0 <= i < |unit.insns| && unit.insns[i] == c.insns[i]
    ensures CleanInsn(c.decl, c.insns[i]) && KilledTo(c, unit.order, killed, m, i)
    ensures |refs| == |unit.decl.base| && RefsOK(c, c.spans[unit.order[m]].first, i, refs)
    ensures FlowOK(c, unit.order, unit.lastBlock) && Clean(c.decl, c.insns)
  {
    NotYetKilled(c, unit.order, killed, m, i);
  }

  ghost predicate StepRefs(d: Decl, insn: Insn, i: int, refs: seq<AliasRef>, refs': seq<AliasRef>) {
    |refs'| == |refs| && forall a :: 0 <= a < |refs| ==> StepRef(d, insn, i, a, refs[a], refs'[a])
  }

  /** Everything but a store only updates the records. */
  method RecordUse(unit: RtlUnit, insn: Insn, i: int, refs: seq<AliasRef>) returns (refs': seq<AliasRef>)
    requires !insn.op.SET_ALIAS? && CleanInsn(unit.decl, insn) && |refs| == |unit.decl.base|
    ensures StepRefs(unit.decl, insn, i, refs, refs')
  {
    if insn.op.GET_ALIAS? {
      var a := insn.other;
      refs' := refs[a := if refs[a].hasSet then refs[a].(setUsed := true) else refs[a].(hasGet := true)];
    } else if insn.op.CALL? {
      refs' := FlushBound(unit, refs);
    } else {
      refs' := refs;
    }
  }

  /** The body of the recording loop. */
  method RecordInsn(unit: RtlUnit, refs: seq<AliasRef>, i: int, ghost c: Code, ghost m: int, ghost killed: set<int>)
    returns (refs': seq<AliasRef>, ghost killed': set<int>)
    requires Recording(unit, c, killed, m, i, refs) && i <= c.spans[unit.order[m]].last
    modifies unit`insns, unit`regs, unit`labels
    ensures |unit.regs| == |old(unit.regs)|
    ensures Recording(unit, c, killed', m, i + 1, refs')
  {
    hide UnitOK, FlowOK, StreamOK, Clean, KilledTo, Overwritten, RefsOK, Recording, StepRefs;
    RecordingOpen(unit, c, killed, m, i, refs);
    var insn := unit.insns[i];
    if insn.op.SET_ALIAS? {
      refs', killed' := RecordSet(unit, refs, i, insn.other, c, m, killed);
    } else {
      refs' := RecordUse(unit, insn, i, refs);
      killed' := killed;
      KilledStep(c, unit.order, unit.lastBlock, killed, m, i, -1, false, killed);
    }
    RefsStep(c, c.spans[unit.order[m]].first, i, refs, refs');
    RecordingClose(unit, c, killed', m, i, refs');
  }

  lemma RecordingClose(unit: RtlUnit, c: Code, killed: set<int>, m: int, i: int, refs: seq<AliasRef>)
    requires UnitOK(unit) && unit.Snap() == WithoutStores(c, killed)
    requires FlowOK(c, unit.order, unit.lastBlock) && Clean(c.decl, c.insns) && InBlock(c, unit.order, m, i)
    requires KilledTo(c, unit.order, killed, m, i + 1)
    requires |refs| == |c.decl.base| && RefsOK(c, c.spans[unit.order[m]].first, i + 1, refs)
    ensures Recording(unit, c, killed, m, i + 1, refs)
  {}

  predicate StepRef(d: Decl, insn: Insn, i: int, a: int, ref: AliasRef, ref': AliasRef) {
    ref' == if SetsAlias(insn, a) then ref.(hasSet := true, setUsed := false, setInsn := i)
            else if GetsAlias(insn, a) then (if ref.hasSet then ref.(setUsed := true) else ref.(hasGet := true))
            else if UsesAlias(d, insn, a) then ref.(setUsed := true)
            else ref
  }

  lemma RefsStep(c: Code, first: int, i: int, refs: seq<AliasRef>, refs': seq<AliasRef>)
    requires 0 <= first <= i < |c.insns| && RefsOK(c, first, i, refs) && StepRefs(c.decl, c.insns[i], i, refs, refs')
    ensures |refs'| == |refs| && RefsOK(c, first, i + 1, refs')
  {
    var next := i + 1;
    hide RefOK;
    forall a | 0 <= a < |refs'| ensures RefOK(c, first, next, a, refs'[a]) {
      assert StepRef(c.decl, c.insns[i], i, a, refs[a], refs'[a]);
      if SetsAlias(c.insns[i], a) { RefAfterSet(c, first, i, a, refs[a]); }
      else if GetsAlias(c.insns[i], a) { RefAfterGet(c, first, i, a, refs[a]); }
      else if UsesAlias(c.decl, c.insns[i], a) { RefAfterUse(c, first, i, a, refs[a]); }
      else { RefAfterOther(c, first, i, a, refs[a]); }
    }
  }

  lemma NotYetKilled(c: Code, order: seq<int>, killed: set<int>, m: int, i: int)
    requires KilledTo(c, order, killed, m, i) && InBlock(c, order, m, i)
    ensures i !in killed
  {
    assert !Overwritten(c, i, Limit(c, order, m, m, i), c.insns[i].other);
  }

  lemma LatestAlive(c: Code, order: seq<int>, killed: set<int>, m: int, i: int, k: int)
    requires KilledTo(c, order, killed, m, i) && InBlock(c, order, m, k) && 0 <= k < i <= |c.insns|
    requires !SetIn(c, k + 1, i, c.insns[k].other)
    ensures k !in killed
  {
    assert !Overwritten(c, k, Limit(c, order, m, m, i), c.insns[k].other);
  }

  /** A call counts as a use of every bound alias. */
  method FlushBound(unit: RtlUnit, refs: seq<AliasRef>) returns (refs': seq<AliasRef>)
    requires |refs| == |unit.decl.base|
    ensures |refs'| == |refs|
    ensures forall a :: 0 <= a < |refs| ==>
              refs'[a] == if IsBound(unit.decl, a) then refs[a].(setUsed := true) else refs[a]
  {
    refs' := refs;
    var i := 1;
    while i < |unit.decl.base|
      invariant |refs'| == |refs| && 1 <= i
      invariant forall a :: 0 <= a < |refs| ==>
                  refs'[a] == if IsBound(unit.decl, a) && a < i then refs[a].(setUsed := true) else refs[a]
    {
      if unit.decl.base[i] != 0 {
        refs' := refs'[i := refs'[i].(setUsed := true)];
      }
      i := i + 1;
    }
  }

  /** The recording half of the scan, over the instructions of one block. */
  method RecordBlock(unit: RtlUnit, b: int, ghost c: Code, ghost m: int, ghost killed: set<int>)
    returns (refs: seq<AliasRef>, ghost killed': set<int>)
    requires UnitOK(unit) && unit.Snap() == WithoutStores(c, killed)
    requires FlowOK(c, unit.order, unit.lastBlock) && Clean(c.decl, c.insns)
    requires 0 <= m < |unit.order| && b == unit.order[m] && SpanOK(c, b)
    requires KilledTo(c, unit.order, killed, m, c.spans[b].first)
    modifies unit`insns, unit`regs, unit`labels
    ensures |unit.regs| == |old(unit.regs)|
    ensures UnitOK(unit) && unit.Snap() == WithoutStores(c, killed')
    ensures KilledTo(c, unit.order, killed', m, c.spans[b].last + 1)
    ensures |refs| == |c.decl.base| && RefsOK(c, c.spans[b].first, c.spans[b].last + 1, refs)
  {
    hide UnitOK, FlowOK, Clean, KilledTo;
    refs, killed' := seq(|unit.decl.base|, _ => AliasRef(false, false, false, 0)), killed;
    var i := unit.spans[b].first;
    while i <= unit.spans[b].last
      invariant c.spans[b].first <= i <= c.spans[b].last + 1
      invariant Recording(unit, c, killed', m, i, refs)
      invariant |unit.regs| == |old(unit.regs)|
    {
      refs, killed' := RecordInsn(unit, refs, i, c, m, killed');
      i := i + 1;
    }
  }

  /** The blocks before order[m] have been recorded. */
  ghost predicate Recorded(c: Code, order: seq<int>, info: seq<seq<AliasRef>>, m: int) {
    forall j :: 0 <= j < m && j < |order| ==>
      && SpanOK(c, order[j]) && order[j] < |info| && |info[order[j]]| == |c.decl.base|
      && RefsOK(c, c.spans[order[j]].first, c.spans[order[j]].last + 1, info[order[j]])
  }

  lemma NextBlock(c: Code, order: seq<int>, killed: set<int>, m: int, next: int)
    requires 0 <= m < |order| && SpanOK(c, order[m]) && KilledTo(c, order, killed, m, c.spans[order[m]].last + 1)
    requires m + 1 < |order| ==> SpanOK(c, order[m + 1]) && next == c.spans[order[m + 1]].first
    ensures KilledTo(c, order, killed, m + 1, next)
  {
    forall j, k | InBlock(c, order, j, k)
      ensures Limit(c, order, j, m, c.spans[order[m]].last + 1) == Limit(c, order, j, m + 1, next)
    {}
  }

  lemma RecordedNext(c: Code, order: seq<int>, info: seq<seq<AliasRef>>, m: int, refs: seq<AliasRef>)
    requires Recorded(c, order, info, m) && 0 <= m < |order| && SpanOK(c, order[m]) && order[m] < |info|
    requires forall j :: 0 <= j < m ==> order[j] != order[m]
    requires |refs| == |c.decl.base| && RefsOK(c, c.spans[order[m]].first, c.spans[order[m]].last + 1, refs)
    ensures Recorded(c, order, info[order[m] := refs], m + 1)
  {}

  lemma NothingKilled(c: Code, order: seq<int>)
    requires |order| > 0 && SpanOK(c, order[0])
    ensures KilledTo(c, order, {}, 0, c.spans[order[0]].first) && WithoutStores(c, {}) == c
  {
    assert WithNops(c.insns, {}) == c.insns;
  }

  lemma OrderDistinct(c: Code, order: seq<int>, lastBlock: int, m: int)
    requires StreamOK(c, order, lastBlock) && 0 <= m < |order|
    ensures forall j :: 0 <= j < m ==> order[j] != order[m]
    ensures SpanOK(c, order[m]) && c.spans[order[m]].next == (if m + 1 < |order| then order[m + 1] else -1)
    ensures m + 1 < |order| ==> SpanOK(c, order[m + 1]) && order[m + 1] > 0
  {
    assert c.spans[order[m]].next == After(order, m);
  }

  /** The state of the first loop before block b, the m-th of the stream (or past its end). */
  ghost predicate RecordState(unit: RtlUnit, c: Code, info: seq<seq<AliasRef>>, killed: set<int>, m: int, b: int)
    reads unit
  {
    && UnitOK(unit) && unit.Snap() == WithoutStores(c, killed)
    && FlowOK(c, unit.order, unit.lastBlock) && Clean(c.decl, c.insns)
    && 0 <= m <= |unit.order| && |info| == |c.spans|
    && b == (if m < |unit.order| then unit.order[m] else -1) && (b >= 0 ==> m < |unit.order| && SpanOK(c, b))
    && KilledTo(c, unit.order, killed, m, if b >= 0 then c.spans[b].first else 0)
    && Recorded(c, unit.order, info, m)
  }

  lemma RecordOpen(unit: RtlUnit, c: Code, info: seq<seq<AliasRef>>, killed: set<int>, m: int, b: int)
    requires RecordState(unit, c, info, killed, m, b) && b >= 0
    ensures UnitOK(unit) && unit.Snap() == WithoutStores(c, killed)
    ensures FlowOK(c, unit.order, unit.lastBlock) && Clean(c.decl, c.insns)
    ensures 0 <= m < |unit.order| && b == unit.order[m] && SpanOK(c, b)
    ensures KilledTo(c, unit.order, killed, m, c.spans[b].first)
    ensures b < |info| == |c.spans| && c.spans[b].next < |c.spans|
  {
    OrderDistinct(c, unit.order, unit.lastBlock, m);
  }

  lemma FlowGives(c: Code, order: seq<int>, lastBlock: int)
    requires FlowOK(c, order, lastBlock)
    ensures StreamOK(c, order, lastBlock)
  {}

  lemma RecordClose(
    unit: RtlUnit, c: Code, info: seq<seq<AliasRef>>, killed: set<int>, m: int, b: int, killed': set<int>,
    refs: seq<AliasRef>)
    requires FlowOK(c, unit.order, unit.lastBlock) && Clean(c.decl, c.insns) && 0 <= m < |unit.order|
    requires b == unit.order[m]
    requires SpanOK(c, b) && |info| == |c.spans| && Recorded(c, unit.order, info, m)
    requires UnitOK(unit) && unit.Snap() == WithoutStores(c, killed')
    requires KilledTo(c, unit.order, killed', m, c.spans[b].last + 1)
    requires |refs| == |c.decl.base| && RefsOK(c, c.spans[b].first, c.spans[b].last + 1, refs)
    ensures RecordState(unit, c, info[b := refs], killed', m + 1, c.spans[b].next)
  {
    hide KilledTo, UnitOK, RefsOK, Clean, Recorded, FlowOK;
    FlowGives(c, unit.order, unit.lastBlock);
    hide StreamOK;
    OrderDistinct(c, unit.order, unit.lastBlock, m);
    RecordedNext(c, unit.order, info, m, refs);
    var next := c.spans[b].next;
    NextBlock(c, unit.order, killed', m, if next >= 0 then c.spans[next].first else 0);
  }

  method RecordNext(
    unit: RtlUnit, info: seq<seq<AliasRef>>, b: int, ghost c: Code, ghost killed: set<int>, ghost m: int)
    returns (info': seq<seq<AliasRef>>, next: int, ghost killed': set<int>)
    requires RecordState(unit, c, info, killed, m, b) && b >= 0
    modifies unit`insns, unit`regs, unit`labels
    ensures |unit.regs| == |old(unit.regs)|
    ensures RecordState(unit, c, info', killed', m + 1, next)
  {
    RecordOpen(unit, c, info, killed, m, b);
    assert Recorded(c, unit.order, info, m);
    hide UnitOK, Clean, KilledTo, FlowOK, RefsOK, Recorded, RecordState;
    var refs;
    refs, killed' := RecordBlock(unit, b, c, m, killed);
    RecordClose(unit, c, info, killed, m, b, killed', refs);
    info' := info[b := refs];
    next := unit.spans[b].next;
  }

  lemma RecordStart(unit: RtlUnit, info: seq<seq<AliasRef>>)
    requires UnitOK(unit) && |info| == |unit.spans|
    ensures RecordState(unit, unit.Snap(), info, {}, 0, 0)
  {
    NothingKilled(unit.Snap(), unit.order);
  }

  /** The first loop of rtl_opt_alias_data_flow. */
  method RecordBlocks(unit: RtlUnit, ghost c: Code) returns (info: seq<seq<AliasRef>>, ghost killed: set<int>)
    requires UnitOK(unit) && unit.Snap() == c
    modifies unit`insns, unit`regs, unit`labels
    ensures |unit.regs| == |old(unit.regs)|
    ensures RecordState(unit, c, info, killed, |unit.order|, -1)
  {
    hide RecordState, UnitOK;
    killed := {};
    info := seq(|unit.spans|, _ => []);
    var b := 0;
    ghost var m := 0;
    RecordStart(unit, info);
    while b >= 0
      invariant RecordState(unit, c, info, killed, m, b)
      invariant |unit.regs| == |old(unit.regs)|
      decreases |unit.order| - m
    {
      RecordPosition(unit, c, info, killed, m, b);
      info, b, killed := RecordNext(unit, info, b, c, killed, m);
      m := m + 1;
    }
    RecordPosition(unit, c, info, killed, m, b);
  }

  lemma RecordPosition(unit: RtlUnit, c: Code, info: seq<seq<AliasRef>>, killed: set<int>, m: int, b: int)
    requires RecordState(unit, c, info, killed, m, b)
    ensures if b >= 0 then m < |unit.order| else m == |unit.order| && b == -1
  {
    assert forall j :: 0 <= j < |unit.order| ==> SpanOK(c, unit.order[j]);
  }

  // ---- Tracing visibility ----

  /** After the second loop has treated the aliases below n of block order[m], and all those of earlier blocks. */
  ghost predicate KilledEnd(c: Code, order: seq<int>, killed: set<int>, m: int, n: int) {
    && (forall k <- killed :: exists j :: InBlock(c, order, j, k))
    && forall j, k :: InBlock(c, order, j, k) ==> (k in killed <==> Condemned(c, order, j, k, m, n))
  }

  ghost predicate Condemned(c: Code, order: seq<int>, j: int, k: int, m: int, n: int)
    requires InBlock(c, order, j, k)
  {
    var a := c.insns[k].other;
    && c.insns[k].op.SET_ALIAS?
    && (|| Overwritten(c, k, c.spans[order[j]].last + 1, a)
        || ((j < m || (j == m && a < n)) && DeadAtEnd(c, order[j], k, a)))
  }

  lemma EndStart(c: Code, order: seq<int>, killed: set<int>)
    requires KilledTo(c, order, killed, |order|, 0) && Clean(c.decl, c.insns)
    ensures KilledEnd(c, order, killed, 0, 1)
  {
    forall j, k | InBlock(c, order, j, k) ensures k in killed <==> Condemned(c, order, j, k, 0, 1) {
      assert CleanInsn(c.decl, c.insns[k]);
      assert Limit(c, order, j, |order|, 0) == c.spans[order[j]].last + 1;
    }
  }

  lemma EndNextBlock(c: Code, order: seq<int>, killed: set<int>, m: int)
    requires KilledEnd(c, order, killed, m, |c.decl.base|) && Clean(c.decl, c.insns)
    ensures KilledEnd(c, order, killed, m + 1, 1)
  {
    forall j, k | InBlock(c, order, j, k)
      ensures Condemned(c, order, j, k, m + 1, 1) <==> Condemned(c, order, j, k, m, |c.decl.base|)
    {
      assert CleanInsn(c.decl, c.insns[k]);
    }
  }

  lemma EndStep(
    c: Code, order: seq<int>, lastBlock: int, killed: set<int>, m: int, a: int, ref: AliasRef, visible: bool,
    killed': set<int>)
    requires StreamOK(c, order, lastBlock) && 0 <= m < |order| && SpanOK(c, order[m])
    requires KilledEnd(c, order, killed, m, a)
    requires RefOK(c, c.spans[order[m]].first, c.spans[order[m]].last + 1, a, ref)
    requires ref.hasSet && !ref.setUsed ==> visible == Visible(c, order[m], a)
    requires killed' == killed + if ref.hasSet && !ref.setUsed && !visible then {ref.setInsn} else {}
    ensures KilledEnd(c, order, killed', m, a + 1)
  {
    var b := order[m];
    var first, end := c.spans[b].first, c.spans[b].last + 1;
    assert ref.hasSet ==> InBlock(c, order, m, ref.setInsn);
    forall j, k | InBlock(c, order, j, k) ensures k in killed' <==> Condemned(c, order, j, k, m, a + 1) {
      assert k in killed <==> Condemned(c, order, j, k, m, a);
      if j != m {
        if ref.hasSet && k == ref.setInsn { InOneBlock(c, order, lastBlock, j, m, k); }
      } else if SetsAlias(c.insns[k], a) && !SetIn(c, k + 1, end, a) {
        assert SetIn(c, first, end, a);
        OnlyLatest(c, first, k, end, ref.setInsn, a);
      }
    }
  }

  /** The state of the second loop: aliases below n of block b, the m-th of the stream, have been treated. */
  ghost predicate TraceState(
    unit: RtlUnit, c: Code, info: seq<seq<AliasRef>>, killed: set<int>, m: int, b: int, n: int)
    reads unit
  {
    && UnitOK(unit) && unit.Snap() == WithoutStores(c, killed)
    && FlowOK(c, unit.order, unit.lastBlock) && Clean(c.decl, c.insns)
    && GraphOK(c, unit.edges, unit.order) && |unit.blockSeen| >= |unit.edges|
    && Recorded(c, unit.order, info, |unit.order|)
    && 0 <= m <= |unit.order| && b == (if m < |unit.order| then unit.order[m] else -1) && (b >= 0 ==> m < |unit.order|)
    && 1 <= n <= |c.decl.base| && KilledEnd(c, unit.order, killed, m, n)
  }

  lemma RecordedRef(c: Code, order: seq<int>, info: seq<seq<AliasRef>>, m: int, a: int)
    requires Recorded(c, order, info, |order|) && 0 <= m < |order| && 0 <= a < |c.decl.base|
    ensures SpanOK(c, order[m]) && 0 <= order[m] < |info| && a < |info[order[m]]|
    ensures RefOK(c, c.spans[order[m]].first, c.spans[order[m]].last + 1, a, info[order[m]][a])
    ensures InfoOK(c, order, info, a)
  {
    forall b | b in order
      ensures SpanOK(c, b) && 0 <= b < |info| && a < |info[b]|
      ensures RefOK(c, c.spans[b].first, c.spans[b].last + 1, a, info[b][a])
      ensures HasGet(c, b, a) == GotIn(c, c.spans[b].first, c.spans[b].last + 1, a)
    {
      var j :| 0 <= j < |order| && order[j] == b;
      assert SpanOK(c, order[j]);
    }
    assert order[m] in order;
  }

  lemma TraceOpen(unit: RtlUnit, c: Code, info: seq<seq<AliasRef>>, killed: set<int>, m: int, b: int, a: int)
    requires TraceState(unit, c, info, killed, m, b, a) && b >= 0 && a < |unit.decl.base|
    ensures FlowOK(c, unit.order, unit.lastBlock) && Clean(c.decl, c.insns) && KilledEnd(c, unit.order, killed, m, a)
    ensures Recorded(c, unit.order, info, |unit.order|) && 1 <= a
    ensures UnitOK(unit) && unit.Snap() == WithoutStores(c, killed) && StreamOK(c, unit.order, unit.lastBlock)
    ensures GraphOK(c, unit.edges, unit.order) && |unit.blockSeen| >= |unit.edges| && c.decl == unit.decl
    ensures 0 <= m < |unit.order| && b == unit.order[m] && b in unit.order && SpanOK(c, b)
    ensures b < |info| && a < |info[b]| && InfoOK(c, unit.order, info, a)
    ensures RefOK(c, c.spans[b].first, c.spans[b].last + 1, a, info[b][a])
    ensures info[b][a].hasSet && !info[b][a].setUsed ==>
              && 0 <= info[b][a].setInsn < |c.insns| && c.insns[info[b][a].setInsn].op.SET_ALIAS?
              && info[b][a].setInsn !in killed
  {
    hide UnitOK, GraphOK, Clean, Placed, TargetsOK, LabelsOK;
    RecordedRef(c, unit.order, info, m, a);
    hide Recorded, InfoOK;
    var ref := info[b][a];
    if ref.hasSet && !ref.setUsed {
      assert InBlock(c, unit.order, m, ref.setInsn);
      assert !Overwritten(c, ref.setInsn, c.spans[b].last + 1, a);
      assert !Condemned(c, unit.order, m, ref.setInsn, m, a);
    }
  }

  lemma TraceClose(
    unit: RtlUnit, c: Code, info: seq<seq<AliasRef>>, killed: set<int>, m: int, b: int, a: int, visible: bool,
    killed': set<int>)
    requires FlowOK(c, unit.order, unit.lastBlock) && Clean(c.decl, c.insns) && GraphOK(c, unit.edges, unit.order)
    requires |unit.blockSeen| >= |unit.edges| && Recorded(c, unit.order, info, |unit.order|)
    requires 0 <= m < |unit.order| && b == unit.order[m] && 1 <= a < |c.decl.base| && SpanOK(c, b)
    requires KilledEnd(c, unit.order, killed, m, a) && UnitOK(unit) && unit.Snap() == WithoutStores(c, killed')
    requires b < |info| && a < |info[b]| && RefOK(c, c.spans[b].first, c.spans[b].last + 1, a, info[b][a])
    requires info[b][a].hasSet && !info[b][a].setUsed ==> visible == Visible(c, b, a)
    requires killed' == killed + if info[b][a].hasSet && !info[b][a].setUsed
               && !visible then {info[b][a].setInsn} else {}
    ensures TraceState(unit, c, info, killed', m, b, a + 1)
  {
    hide UnitOK, GraphOK, Clean, KilledEnd, Recorded, RefOK, Visible, WithoutStores, StreamOK, Placed, TargetsOK,
      LabelsOK;
    EndStep(c, unit.order, unit.lastBlock, killed, m, a, info[b][a], visible, killed');
  }

  /** The exactness of is_alias_store_visible, started with no block seen. */
  method SearchFromBlock(
    unit: RtlUnit, info: seq<seq<AliasRef>>, alias: int, b: int, ghost c: Code) returns (visible: bool)
    requires GraphOK(c, unit.edges, unit.order) && InfoOK(c, unit.order, info, alias) && c.decl == unit.decl
    requires 0 < alias < |unit.decl.base| && |unit.blockSeen| >= |unit.edges| && b in unit.order && UnitOK(unit)
    modifies unit`blockSeen
    ensures |unit.blockSeen| == |old(unit.blockSeen)| && visible == Visible(c, b, alias)
    ensures UnitOK(unit) && unit.Snap() == old(unit.Snap())
  {
    hide WellFormed, GraphOK, InfoOK, Visible, Open, AllExplored;
    unit.blockSeen := seq(|unit.blockSeen|, _ => false);
    ghost var seen := unit.blockSeen;
    visible := IsAliasStoreVisible(unit, info, alias, b, c);
    if !visible { NotVisible(c, alias, b, seen, unit.blockSeen); }
  }

  /** An unused last store of block b is killed unless it is visible. */
  method TraceStore(
    unit: RtlUnit, info: seq<seq<AliasRef>>, b: int, alias: int, k: int, ghost c: Code, ghost killed: set<int>)
    returns (visible: bool, ghost killed': set<int>)
    requires GraphOK(c, unit.edges, unit.order) && InfoOK(c, unit.order, info, alias) && c.decl == unit.decl
    requires 0 < alias < |unit.decl.base| && |unit.blockSeen| >= |unit.edges| && b in unit.order
    requires UnitOK(unit) && unit.Snap() == WithoutStores(c, killed)
    requires 0 <= k < |c.insns| && c.insns[k].op.SET_ALIAS? && k !in killed
    modifies unit`insns, unit`regs, unit`labels, unit`blockSeen
    ensures |unit.regs| == |old(unit.regs)|
    ensures |unit.blockSeen| == |old(unit.blockSeen)| && UnitOK(unit) && unit.Snap() == WithoutStores(c, killed')
    ensures visible == Visible(c, b, alias) && killed' == killed + if visible then {} else {k}
  {
    hide UnitOK, GraphOK, InfoOK, Visible;
    visible := SearchFromBlock(unit, info, alias, b, c);
    killed' := killed + {};
    if !visible {
      KillStore(unit, k, c, killed);
      killed' := killed + {k};
    }
  }

  /** The body of the second loop for one alias. */
  method TraceAlias(
    unit: RtlUnit, info: seq<seq<AliasRef>>, b: int, alias: int, ghost c: Code, ghost killed: set<int>, ghost m: int)
    returns (ghost killed': set<int>)
    requires TraceState(unit, c, info, killed, m, b, alias) && b >= 0 && alias < |unit.decl.base|
    modifies unit`insns, unit`regs, unit`labels, unit`blockSeen
    ensures |unit.regs| == |old(unit.regs)|
    ensures TraceState(unit, c, info, killed', m, b, alias + 1) && |unit.blockSeen| == |old(unit.blockSeen)|
  {
    hide TraceState, UnitOK, FlowOK, Clean, KilledEnd, Recorded, GraphOK, InfoOK, Visible, StreamOK, RefOK;
    TraceOpen(unit, c, info, killed, m, b, alias);
    var ref := info[b][alias];
    if ref.hasSet && !ref.setUsed {
      var visible;
      visible, killed' := TraceStore(unit, info, b, alias, ref.setInsn, c, killed);
      TraceClose(unit, c, info, killed, m, b, alias, visible, killed');
    } else {
      killed' := killed + {};
      TraceClose(unit, c, info, killed, m, b, alias, true, killed');
    }
  }

  lemma TraceNext(unit: RtlUnit, c: Code, info: seq<seq<AliasRef>>, killed: set<int>, m: int, b: int)
    requires TraceState(unit, c, info, killed, m, b, |c.decl.base|) && b >= 0
    ensures b < |unit.spans| && m < |unit.order| && TraceState(unit, c, info, killed, m + 1, unit.spans[b].next, 1)
  {
    OrderDistinct(c, unit.order, unit.lastBlock, m);
    EndNextBlock(c, unit.order, killed, m);
  }

  lemma TraceStart(unit: RtlUnit, c: Code, info: seq<seq<AliasRef>>, killed: set<int>)
    requires RecordState(unit, c, info, killed, |unit.order|, -1)
    requires GraphOK(c, unit.edges, unit.order) && |unit.blockSeen| >= |unit.edges| && |c.decl.base| > 0
    ensures TraceState(unit, c, info, killed, 0, 0, 1)
  {
    EndStart(c, unit.order, killed);
  }

  lemma TraceEnd(unit: RtlUnit, c: Code, info: seq<seq<AliasRef>>, killed: set<int>, m: int, b: int, n: int)
    requires TraceState(unit, c, info, killed, m, b, n)
    ensures b >= 0 || m == |unit.order|
    ensures b < 0 ==>
              UnitOK(unit) && unit.Snap() == WithoutStores(c, killed)
                  && KilledEnd(c, unit.order, killed, |unit.order|, n)
    ensures FlowOK(c, unit.order, unit.lastBlock) && c.decl == unit.decl && 1 <= n <= |c.decl.base|
  {
    assert m < |unit.order| ==> SpanOK(c, unit.order[m]);
  }

  /** The second loop of rtl_opt_alias_data_flow. */
  method TraceBlocks(unit: RtlUnit, info: seq<seq<AliasRef>>, ghost c: Code, ghost killed: set<int>)
    returns (ghost killed': set<int>)
    requires TraceState(unit, c, info, killed, 0, 0, 1)
    modifies unit`insns, unit`regs, unit`labels, unit`blockSeen
    ensures |unit.regs| == |old(unit.regs)|
    ensures UnitOK(unit) && unit.Snap() == WithoutStores(c, killed')
    ensures KilledEnd(c, unit.order, killed', |unit.order|, 1)
    ensures FlowOK(c, unit.order, unit.lastBlock) && |unit.blockSeen| == |old(unit.blockSeen)|
  {
    hide TraceState, UnitOK, FlowOK, KilledEnd;
    killed' := killed;
    var b := 0;
    ghost var m := 0;
    while b >= 0
      invariant TraceState(unit, c, info, killed', m, b, 1) && m <= |unit.order|
      invariant |unit.regs| == |old(unit.regs)|
      invariant |unit.blockSeen| == |old(unit.blockSeen)|
      decreases |unit.order| - m
    {
      var alias := 1;
      while alias < |unit.decl.base|
        invariant TraceState(unit, c, info, killed', m, b, alias) && |unit.blockSeen| == |old(unit.blockSeen)|
        invariant |unit.regs| == |old(unit.regs)|
      {
        killed' := TraceAlias(unit, info, b, alias, c, killed', m);
        alias := alias + 1;
      }
      TraceEnd(unit, c, info, killed', m, b, alias);
      TraceNext(unit, c, info, killed', m, b);
      b := unit.spans[b].next;
      m := m + 1;
      TraceEnd(unit, c, info, killed', m, b, 1);
    }
    TraceEnd(unit, c, info, killed', m, b, 1);
  }

  /** The edge lists of a well-formed unit describe its control flow. */
  lemma WiredGraph(c: Code, regs: seq<Reg>, edges: seq<Edges>, owner: seq<int>, order: seq<int>, lastBlock: int)
    requires WellFormed(c, regs, edges, owner, order, lastBlock, {})
    ensures GraphOK(c, edges, order)
  {
    forall b | b in order
      ensures SpanOK(c, b) && b < |edges| && |edges[b].exits| == 2 && Packed(edges[b].exits)
      ensures ExitSet(edges[b]) == Successors(c, b)
      ensures forall t <- Successors(c, b) :: t in order && t < |edges|
    {
      EdgeShape(edges, owner, b);
      SuccessorsInStream(c, order, lastBlock, b);
    }
  }

  lemma SuccessorsInStream(c: Code, order: seq<int>, lastBlock: int, b: int)
    requires FlowOK(c, order, lastBlock) && b in order
    ensures SpanOK(c, b) && forall t <- Successors(c, b) :: t in order && t < |c.spans|
  {
    var k :| 0 <= k < |order| && order[k] == b;
    assert c.spans[order[k]].next == After(order, k);
    assert k + 1 < |order| ==> SpanOK(c, order[k + 1]);
    assert IsBranch(LastInsn(c, b).op) ==> LabelBlock(c, LastInsn(c, b).other) in order;
  }

  /** The stores the pass removes are exactly the dead ones. */
  lemma KilledIsDead(c: Code, order: seq<int>, lastBlock: int, killed: set<int>)
    requires StreamOK(c, order, lastBlock) && KilledEnd(c, order, killed, |order|, 1)
    ensures NoCallSees(c, order) ==> AllDead(c, order, killed)
    ensures forall k :: k in killed <==> exists b :: DeadIn(c, order, b, k)
  {
    ExactUnlessCalled(c, order);
    forall b, k | b in order && c.spans[b].first <= k <= c.spans[b].last ensures k in killed <==> DeadStore(c, b, k) {
      var j :| 0 <= j < |order| && order[j] == b;
      assert InBlock(c, order, j, k);
    }
    forall k | k in killed ensures exists b :: DeadIn(c, order, b, k) {
      var j :| InBlock(c, order, j, k);
      assert DeadIn(c, order, order[j], k);
    }
  }

  ghost predicate DeadIn(c: Code, order: seq<int>, b: int, k: int) {
    b in order && SpanOK(c, b) && DeadStore(c, b, k)
  }

  /** Does the pass replace instruction k by NOP? */
  ghost predicate StoreRemoved(c: Code, order: seq<int>, k: int) { exists b :: DeadIn(c, order, b, k) }

  lemma FlowSummary(c: Code, order: seq<int>, lastBlock: int, killed: set<int>)
    requires FlowOK(c, order, lastBlock) && KilledEnd(c, order, killed, |order|, 1)
    ensures forall k :: 0 <= k < |c.insns| ==>
              WithoutStores(c, killed).insns[k] == if StoreRemoved(c, order, k) then NopInsn else c.insns[k]
    ensures NoCallSees(c, order) ==> Refines(c, WithoutStores(c, killed))
  {
    hide NoCallSees, AllDead, Refines;
    KilledIsDead(c, order, lastBlock, killed);
    if NoCallSees(c, order) { RemoveDeadStores(c, order, lastBlock, killed); }
  }

  /** rtl_opt_alias_data_flow: exactly the dead stores are removed, at once, and that preserves the unit's meaning
      unless a call in a later block could see one of them. */
  method AliasDataFlow(unit: RtlUnit)
    requires UnitOK(unit) && |unit.decl.base| > 0 && |unit.blockSeen| >= |unit.edges|
    modifies unit`insns, unit`regs, unit`labels, unit`blockSeen
    ensures |unit.regs| == |old(unit.regs)|
    ensures UnitOK(unit) && unit.Snap() == old(unit.Snap()).(insns := unit.insns) && |unit.insns| == |old(unit.insns)|
    ensures |unit.blockSeen| == |old(unit.blockSeen)|
    ensures forall k :: 0 <= k < |unit.insns| ==>
              unit.insns[k] == if StoreRemoved(old(unit.Snap()), unit.order, k) then NopInsn else old(unit.insns)[k]
    ensures forall b, k {:trigger StoreOf(old(unit.Snap()), b, k)} ::
              b in unit.order && SpanOK(old(unit.Snap()), b) && StoreOf(old(unit.Snap()), b, k) ==>
                unit.insns[k] == if StoreNeeded(old(unit.Snap()), b, k) then old(unit.insns)[k] else NopInsn
    ensures forall k :: 0 <= k < |unit.insns| && old(unit.insns)[k].op != SET_ALIAS ==>
              unit.insns[k] == old(unit.insns)[k]
    ensures NoCallSees(old(unit.Snap()), unit.order) ==> Refines(old(unit.Snap()), unit.Snap())
  {
    hide WellFormed, RecordState, TraceState, Refines, NoCallSees, StoreRemoved, GraphOK, KilledEnd, FlowOK,
      StoreNeeded;
    ghost var c := unit.Snap();
    WiredGraph(c, unit.regs, unit.edges, unit.owner, unit.order, unit.lastBlock);
    var info;
    ghost var killed;
    info, killed := RecordBlocks(unit, c);
    TraceStart(unit, c, info, killed);
    killed := TraceBlocks(unit, info, c, killed);
    FlowSummary(c, unit.order, unit.lastBlock, killed);
    OnlyUnneeded(c, unit.order, unit.lastBlock);
  }

  /** The removed stores are those whose value is not needed. */
  lemma OnlyUnneeded(c: Code, order: seq<int>, lastBlock: int)
    requires FlowOK(c, order, lastBlock)
    ensures forall b, k {:trigger StoreOf(c, b, k)} :: b in order && SpanOK(c, b) && StoreOf(c, b, k) ==>
              (StoreRemoved(c, order, k) <==> !StoreNeeded(c, b, k))
    ensures forall k :: 0 <= k < |c.insns| && c.insns[k].op != SET_ALIAS ==> !StoreRemoved(c, order, k)
  {
    hide FlowOK, DeadStore, StoreNeeded;
    FlowGives(c, order, lastBlock);
    forall b, k {:trigger StoreOf(c, b, k)} | b in order && SpanOK(c, b) && StoreOf(c, b, k)
      ensures StoreRemoved(c, order, k) <==> !StoreNeeded(c, b, k)
    {
      DeadIffUnneeded(c, b, k);
      if StoreRemoved(c, order, k) {
        var a :| DeadIn(c, order, a, k);
        DeadPlace(c, a, k);
        if a != b { BlocksDisjoint(c, order, lastBlock, a, b, k); }
      } else {
        assert !DeadIn(c, order, b, k);
      }
    }
    forall k | 0 <= k < |c.insns| && StoreRemoved(c, order, k) ensures c.insns[k].op == SET_ALIAS {
      var a :| DeadIn(c, order, a, k);
      DeadPlace(c, a, k);
    }
  }

  lemma DeadPlace(c: Code, b: int, k: int)
    requires SpanOK(c, b) && DeadStore(c, b, k)
    ensures c.spans[b].first <= k <= c.spans[b].last && c.insns[k].op == SET_ALIAS
  {}
}
