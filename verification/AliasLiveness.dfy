/** When a store to an alias is visible, and why removing all invisible stores at once is correct. */
module AliasLiveness {
  import opened Rtl
  import opened Semantics
  import opened Flow

  predicate SetsAlias(insn: Insn, a: int) { insn.op.SET_ALIAS? && insn.other == a }

  predicate GetsAlias(insn: Insn, a: int) { insn.op.GET_ALIAS? && insn.other == a }

  /** Instructions that use the value stored before them in the same block: a call flushes bound aliases. */
  predicate UsesAlias(d: Decl, insn: Insn, a: int) {
    GetsAlias(insn, a) || (insn.op.CALL? && IsBound(d, a))
  }

  predicate SetIn(c: Code, from: int, to: int, a: int) {
    exists j :: from <= j < to && 0 <= j < |c.insns| && SetsAlias(c.insns[j], a)
  }

  predicate UsedIn(c: Code, from: int, to: int, a: int) {
    exists j :: from <= j < to && 0 <= j < |c.insns| && UsesAlias(c.decl, c.insns[j], a)
  }

  /** The block reads the alias before setting it. */
  predicate HasGet(c: Code, b: int, a: int)
    requires SpanOK(c, b)
  {
    exists j :: c.spans[b].first <= j <= c.spans[b].last && GetsAlias(c.insns[j], a) && !SetIn(c, c.spans[b].first, j,
        a)
  }

  predicate HasSet(c: Code, b: int, a: int)
    requires SpanOK(c, b)
  {
    SetIn(c, c.spans[b].first, c.spans[b].last + 1, a)
  }

  /** Following the control flow from the end of path[0] along the path, the value of the alias arrives at a
      block that reads it, or leaves the unit in bound storage. */
  ghost predicate Arrives(c: Code, a: int, path: seq<int>) {
    && |path| > 0 && SpanOK(c, path[0])
    && if |path| == 1 then Successors(c, path[0]) == {} && IsBound(c.decl, a)
       else
         && path[1] in Successors(c, path[0]) && SpanOK(c, path[1])
         && (HasGet(c, path[1], a) || (!HasSet(c, path[1], a) && Arrives(c, a, path[1..])))
  }

  ghost predicate ArrivesFrom(c: Code, b: int, a: int, path: seq<int>) {
    |path| > 0 && path[0] == b && Arrives(c, a, path)
  }

  /** A value of the alias at the end of block b is visible to some reader. */
  ghost predicate Visible(c: Code, b: int, a: int) {
    exists path :: ArrivesFrom(c, b, a, path)
  }

  /** The block makes a call before setting the alias, which is bound: the call may read its storage. */
  predicate HasCall(c: Code, b: int, a: int)
    requires SpanOK(c, b)
  {
    && IsBound(c.decl, a)
    && exists j :: c.spans[b].first <= j <= c.spans[b].last && c.insns[j].op.CALL? && !SetIn(c, c.spans[b].first, j, a)
  }

  /** Following the control flow from the end of path[0] along the path, the value of the alias arrives at a call. */
  ghost predicate ArrivesAtCall(c: Code, a: int, path: seq<int>) {
    && |path| > 1 && SpanOK(c, path[0]) && path[1] in Successors(c, path[0]) && SpanOK(c, path[1])
    && (HasCall(c, path[1], a) || (!HasSet(c, path[1], a) && ArrivesAtCall(c, a, path[1..])))
  }

  ghost predicate ReachesCall(c: Code, b: int, a: int, path: seq<int>) {
    |path| > 0 && path[0] == b && ArrivesAtCall(c, a, path)
  }

  /** A value of the alias at the end of block b can be read by a call in a later block, which the analysis does not
      look for. */
  ghost predicate CallVisible(c: Code, b: int, a: int) {
    exists path :: ReachesCall(c, b, a, path)
  }

  /** The value of the alias matters at instruction i of block b. */
  ghost predicate LiveAt(c: Code, b: int, i: int, a: int)
    requires SpanOK(c, b)
  {
    || (exists j :: i <= j <= c.spans[b].last && UsedHere(c, i, j, a))
    || (!SetIn(c, i, c.spans[b].last + 1, a) && (Visible(c, b, a) || CallVisible(c, b, a)))
  }

  predicate UsedHere(c: Code, i: int, j: int, a: int) {
    0 <= j < |c.insns| && UsesAlias(c.decl, c.insns[j], a) && !SetIn(c, i, j, a)
  }

  /** The store at k in block b is dead: overwritten in the block without a use, or unused to the end of the
      block and not visible beyond it. */
  ghost predicate DeadStore(c: Code, b: int, k: int)
    requires SpanOK(c, b)
  {
    && c.spans[b].first <= k <= c.spans[b].last && c.insns[k].op.SET_ALIAS?
    && (|| Overwritten(c, k, c.spans[b].last + 1, c.insns[k].other)
        || DeadAtEnd(c, b, k, c.insns[k].other))
  }

  /** Some store below "limit" follows k without a use in between. */
  predicate Overwritten(c: Code, k: int, limit: int, a: int) {
    exists e :: k < e < limit && 0 <= e < |c.insns| && SetsAlias(c.insns[e], a) && !UsedIn(c, k + 1, e, a)
  }

  ghost predicate DeadAtEnd(c: Code, b: int, k: int, a: int)
    requires SpanOK(c, b)
  {
    && !SetIn(c, k + 1, c.spans[b].last + 1, a)
    && !UsedIn(c, k + 1, c.spans[b].last + 1, a)
    && !Visible(c, b, a)
  }

  /** Dead for calls in later blocks too. */
  ghost predicate DeadForCalls(c: Code, b: int, k: int)
    requires SpanOK(c, b)
  {
    && c.spans[b].first <= k <= c.spans[b].last && c.insns[k].op.SET_ALIAS?
    && (|| Overwritten(c, k, c.spans[b].last + 1, c.insns[k].other)
        || (DeadAtEnd(c, b, k, c.insns[k].other) && !CallVisible(c, b, c.insns[k].other)))
  }

  // ---- Which stores are needed, in opcodes ----

  /** Some instruction from "from" on, below "to", is a SET_ALIAS of a. */
  ghost predicate StoredBetween(c: Code, from: int, to: int, a: int) {
    exists i :: from <= i < to && 0 <= i < |c.insns| && c.insns[i].op == SET_ALIAS && c.insns[i].other == a
  }

  /** Instruction m reads the alias, or is a CALL and the alias has storage, before anything else is put into it. */
  ghost predicate FirstUse(c: Code, k: int, m: int, a: int) {
    && k < m < |c.insns| && 0 <= m && !StoredBetween(c, k + 1, m, a)
    && (|| (c.insns[m].op == GET_ALIAS && c.insns[m].other == a)
        || (c.insns[m].op == CALL && 0 < a < |c.decl.base| && c.decl.base[a] != 0))
  }

  /** From the end of path[0] the path leads through blocks without a SET_ALIAS of a to a block that reads the alias
      before setting it, or out of the unit while the alias has storage. */
  ghost predicate LeadsToUse(c: Code, path: seq<int>, a: int) {
    && |path| > 0 && (forall j :: 0 <= j < |path| ==> SpanOK(c, path[j]))
    && (forall j :: 0 <= j < |path| - 1 ==> path[j + 1] in Successors(c, path[j]))
    && (forall j :: 0 < j < |path| - 1 ==> !StoredBetween(c, c.spans[path[j]].first, c.spans[path[j]].last + 1, a))
    && var t := path[|path| - 1];
       || (|path| > 1 && exists m :: ReadFirst(c, t, m, a))
       || (Successors(c, t) == {} && 0 < a < |c.decl.base| && c.decl.base[a] != 0
           && (|path| > 1 ==> !StoredBetween(c, c.spans[t].first, c.spans[t].last + 1, a)))
  }

  ghost predicate ReadFirst(c: Code, b: int, m: int, a: int)
    requires SpanOK(c, b)
  {
    && c.spans[b].first <= m <= c.spans[b].last && c.insns[m].op == GET_ALIAS && c.insns[m].other == a
    && !StoredBetween(c, c.spans[b].first, m, a)
  }

  /** The value that instruction k of block b puts into its alias is used in the block, or still there at its end and
      used on some path from there. */
  ghost predicate StoreNeeded(c: Code, b: int, k: int)
    requires SpanOK(c, b) && c.spans[b].first <= k <= c.spans[b].last
  {
    var a := c.insns[k].other;
    || (exists m :: m <= c.spans[b].last && FirstUse(c, k, m, a))
    || (!StoredBetween(c, k + 1, c.spans[b].last + 1, a) && exists path :: LeadsFrom(c, b, path, a))
  }

  ghost predicate LeadsFrom(c: Code, b: int, path: seq<int>, a: int) { LeadsToUse(c, path, a) && path[0] == b }

  lemma SetIsStored(c: Code, from: int, to: int, a: int)
    ensures SetIn(c, from, to, a) <==> StoredBetween(c, from, to, a)
  {
    if SetIn(c, from, to, a) {
      var j :| from <= j < to && 0 <= j < |c.insns| && SetsAlias(c.insns[j], a);
      assert c.insns[j].op == SET_ALIAS;
    }
    if StoredBetween(c, from, to, a) {
      var j :| from <= j < to && 0 <= j < |c.insns| && c.insns[j].op == SET_ALIAS && c.insns[j].other == a;
      assert SetsAlias(c.insns[j], a);
    }
  }

  lemma GetIsRead(c: Code, b: int, a: int)
    requires SpanOK(c, b)
    ensures HasGet(c, b, a) <==> exists m :: ReadFirst(c, b, m, a)
  {
    hide SetIn, StoredBetween;
    forall m ensures SetIn(c, c.spans[b].first, m, a) <==> StoredBetween(c, c.spans[b].first, m, a) {
      SetIsStored(c, c.spans[b].first, m, a);
    }
    if HasGet(c, b, a) {
      var j :| c.spans[b].first <= j <= c.spans[b].last && GetsAlias(c.insns[j], a)
        && !SetIn(c, c.spans[b].first, j, a);
      assert ReadFirst(c, b, j, a);
    }
    if m :| ReadFirst(c, b, m, a) { assert GetsAlias(c.insns[m], a); }
  }

  lemma {:induction false} ArrivalLeads(c: Code, a: int, path: seq<int>) returns (short: seq<int>)
    requires Arrives(c, a, path)
    ensures LeadsToUse(c, short, a) && short[0] == path[0]
    decreases |path|
  {
    hide HasGet, StoredBetween, SetIn, Successors;
    if |path| == 1 {
      short := path;
    } else {
      var t := path[1];
      GetIsRead(c, t, a);
      SetIsStored(c, c.spans[t].first, c.spans[t].last + 1, a);
      if HasGet(c, t, a) {
        short := [path[0], t];
      } else {
        var rest := ArrivalLeads(c, a, path[1..]);
        short := [path[0]] + rest;
        LeadsOneBack(c, a, path[0], rest);
      }
    }
  }

  lemma LeadsOneBack(c: Code, a: int, b: int, path: seq<int>)
    requires LeadsToUse(c, path, a) && SpanOK(c, b) && path[0] in Successors(c, b)
    requires !StoredBetween(c, c.spans[path[0]].first, c.spans[path[0]].last + 1, a)
    ensures LeadsToUse(c, [b] + path, a)
  {
    hide StoredBetween, Successors;
    var longer := [b] + path;
    forall j | 0 <= j < |longer| - 1 ensures longer[j + 1] in Successors(c, longer[j]) {
      if j > 0 { assert path[j - 1 + 1] in Successors(c, path[j - 1]); }
    }
    forall j | 0 < j < |longer| - 1
      ensures !StoredBetween(c, c.spans[longer[j]].first, c.spans[longer[j]].last + 1, a)
    {
      assert longer[j] == path[j - 1];
    }
    assert longer[|longer| - 1] == path[|path| - 1];
  }

  lemma {:induction false} LeadArrives(c: Code, a: int, path: seq<int>)
    requires LeadsToUse(c, path, a)
    ensures Arrives(c, a, path)
    decreases |path|
  {
    hide HasGet, StoredBetween, SetIn, Successors, ReadFirst;
    if |path| > 1 {
      var t := path[1];
      assert path[0 + 1] in Successors(c, path[0]);
      GetIsRead(c, t, a);
      SetIsStored(c, c.spans[t].first, c.spans[t].last + 1, a);
      if !HasGet(c, t, a) {
        var rest := path[1..];
        forall j | 0 <= j < |rest| - 1 ensures rest[j + 1] in Successors(c, rest[j]) {
          assert path[j + 1 + 1] in Successors(c, path[j + 1]);
        }
        assert rest[|rest| - 1] == path[|path| - 1];
        LeadArrives(c, a, rest);
      }
    }
  }

  lemma VisibleIsUsed(c: Code, b: int, a: int)
    ensures Visible(c, b, a) <==> exists path :: LeadsFrom(c, b, path, a)
  {
    hide Arrives, LeadsToUse;
    if Visible(c, b, a) {
      var path :| ArrivesFrom(c, b, a, path);
      var short := ArrivalLeads(c, a, path);
      LeadStart(c, short, a);
      assert LeadsFrom(c, b, short, a);
    }
    if path :| LeadsFrom(c, b, path, a) {
      LeadStart(c, path, a);
      LeadArrives(c, a, path);
      assert ArrivesFrom(c, b, a, path);
    }
  }

  lemma LeadStart(c: Code, path: seq<int>, a: int)
    requires LeadsToUse(c, path, a)
    ensures |path| > 0
  {}

  /** The first store to a from k + 1 on. */
  lemma {:induction false} FirstStore(c: Code, from: int, end: int, a: int) returns (e: int)
    requires StoredBetween(c, from, end, a) && 0 <= from
    ensures from <= e < end && 0 <= e < |c.insns| && c.insns[e].op == SET_ALIAS && c.insns[e].other == a
    ensures !StoredBetween(c, from, e, a)
    decreases end - from
  {
    if StoredBetween(c, from, end - 1, a) {
      e := FirstStore(c, from, end - 1, a);
    } else {
      e :| from <= e < end && 0 <= e < |c.insns| && c.insns[e].op == SET_ALIAS && c.insns[e].other == a;
      assert e == end - 1;
    }
  }

  lemma UseIsFirst(c: Code, k: int, e: int, a: int)
    requires 0 <= k && !StoredBetween(c, k + 1, e, a) && e <= |c.insns|
    ensures UsedIn(c, k + 1, e, a) <==> exists m :: m < e && FirstUse(c, k, m, a)
  {
    hide StoredBetween;
    var from := k + 1;
    forall m | m < e ensures !StoredBetween(c, from, m, a) { FewerStores(c, from, m, e, a); }
    if UsedIn(c, k + 1, e, a) {
      var m :| k + 1 <= m < e && 0 <= m < |c.insns| && UsesAlias(c.decl, c.insns[m], a);
      assert FirstUse(c, k, m, a);
    }
    if m :| m < e && FirstUse(c, k, m, a) { assert UsesAlias(c.decl, c.insns[m], a); }
  }

  lemma FewerStores(c: Code, from: int, to: int, end: int, a: int)
    requires !StoredBetween(c, from, end, a) && to <= end
    ensures !StoredBetween(c, from, to, a)
  {}

  /** A store is found dead exactly if its value is not needed. */
  lemma DeadIffUnneeded(c: Code, b: int, k: int)
    requires SpanOK(c, b) && c.spans[b].first <= k <= c.spans[b].last && c.insns[k].op == SET_ALIAS
    ensures DeadStore(c, b, k) <==> !StoreNeeded(c, b, k)
  {
    hide StoredBetween, Visible, LeadsToUse, UsedIn, FirstUse, LeadsFrom, SetIn;
    var a, end := c.insns[k].other, c.spans[b].last + 1;
    VisibleIsUsed(c, b, a);
    SetIsStored(c, k + 1, end, a);
    if StoredBetween(c, k + 1, end, a) {
      var e := FirstStore(c, k + 1, end, a);
      UseIsFirst(c, k, e, a);
      OverwrittenAtFirst(c, k, end, a, e);
    } else {
      UseIsFirst(c, k, end, a);
      NotOverwritten(c, k, end, a);
    }
  }

  lemma NotOverwritten(c: Code, k: int, end: int, a: int)
    requires !StoredBetween(c, k + 1, end, a)
    ensures !Overwritten(c, k, end, a)
  {
    hide UsedIn;
    forall e | k < e < end && 0 <= e < |c.insns| ensures !SetsAlias(c.insns[e], a) {}
  }

  lemma OverwrittenAtFirst(c: Code, k: int, end: int, a: int, e: int)
    requires 0 <= k < e < end <= |c.insns| && c.insns[e].op == SET_ALIAS && c.insns[e].other == a
    requires !StoredBetween(c, k + 1, e, a)
    ensures Overwritten(c, k, end, a) <==> !UsedIn(c, k + 1, e, a)
    ensures forall m :: m < end && FirstUse(c, k, m, a) ==> m < e
  {
    assert SetsAlias(c.insns[e], a);
    if Overwritten(c, k, end, a) {
      var f :| k < f < end && 0 <= f < |c.insns| && SetsAlias(c.insns[f], a) && !UsedIn(c, k + 1, f, a);
      assert e <= f;
    }
    forall m | m < end && FirstUse(c, k, m, a) ensures m < e { assert m != e; }
  }

  /** After such a store the alias is not live. */
  lemma DeadStoreNotLive(c: Code, b: int, k: int)
    requires SpanOK(c, b) && DeadForCalls(c, b, k)
    ensures !LiveAt(c, b, k + 1, c.insns[k].other)
  {
    var a, end := c.insns[k].other, c.spans[b].last + 1;
    if Overwritten(c, k, end, a) {
      var e :| k < e < end && 0 <= e < |c.insns| && SetsAlias(c.insns[e], a) && !UsedIn(c, k + 1, e, a);
      forall j | k + 1 <= j < end && 0 <= j < |c.insns| && UsesAlias(c.decl, c.insns[j], a)
        ensures SetIn(c, k + 1, j, a) {
        assert j != e;
      }
    }
  }

  predicate StoreOf(c: Code, b: int, k: int)
    requires SpanOK(c, b)
  {
    c.spans[b].first <= k <= c.spans[b].last && c.insns[k].op.SET_ALIAS?
  }

  /** No store that the analysis considers dead at the end of its block can be read by a call in a later block. */
  ghost predicate NoCallSees(c: Code, order: seq<int>) {
    forall b, k {:trigger StoreOf(c, b, k)} :: b in order && SpanOK(c, b) && StoreOf(c, b, k) ==>
      DeadAtEnd(c, b, k, c.insns[k].other) ==> !CallVisible(c, b, c.insns[k].other)
  }

  /** The analysis finds the dead stores, calls taken into account, if and only if no call sees one that it found. */
  lemma ExactUnlessCalled(c: Code, order: seq<int>)
    ensures (forall b, k :: b in order && SpanOK(c, b) ==> (DeadStore(c, b, k) <==> DeadForCalls(c, b, k))) <==>
              NoCallSees(c, order)
  {
    hide CallVisible, Visible;
    if forall b, k :: b in order && SpanOK(c, b) ==> (DeadStore(c, b, k) <==> DeadForCalls(c, b, k)) {
      forall b, k | b in order && SpanOK(c, b) && StoreOf(c, b, k) && DeadAtEnd(c, b, k, c.insns[k].other)
        ensures !CallVisible(c, b, c.insns[k].other)
      {
        assert DeadStore(c, b, k) && DeadForCalls(c, b, k);
      }
    }
    if NoCallSees(c, order) {
      forall b, k | b in order && SpanOK(c, b) ensures DeadStore(c, b, k) <==> DeadForCalls(c, b, k) {
        if DeadStore(c, b, k) { assert StoreOf(c, b, k); }
      }
    }
  }

  // ---- Liveness along a step ----

  lemma LiveBefore(c: Code, b: int, i: int, a: int)
    requires SpanOK(c, b) && c.spans[b].first <= i <= c.spans[b].last
    requires LiveAt(c, b, i + 1, a) && !SetsAlias(c.insns[i], a)
    ensures LiveAt(c, b, i, a)
  {
    var next := i + 1;
    if j :| next <= j <= c.spans[b].last && UsedHere(c, next, j, a) {
      assert UsedHere(c, i, j, a);
    }
  }

  lemma LiveAtUse(c: Code, b: int, i: int, a: int)
    requires SpanOK(c, b) && c.spans[b].first <= i <= c.spans[b].last && UsesAlias(c.decl, c.insns[i], a)
    ensures LiveAt(c, b, i, a)
  {
    assert UsedHere(c, i, i, a);
  }

  /** Live at the start of a successor means visible, to a reader or to a call, at the end of the block. */
  lemma LiveAcross(c: Code, b: int, t: int, a: int)
    requires SpanOK(c, b) && SpanOK(c, t) && t in Successors(c, b) && LiveAt(c, t, c.spans[t].first, a)
    ensures Visible(c, b, a) || CallVisible(c, b, a)
  {
    if j :| c.spans[t].first <= j <= c.spans[t].last && UsedHere(c, c.spans[t].first, j, a) {
      if c.insns[j].op.CALL? {
        assert HasCall(c, t, a);
        assert ReachesCall(c, b, a, [b, t]);
      } else {
        assert HasGet(c, t, a);
        assert Arrives(c, a, [b, t]);
        assert ArrivesFrom(c, b, a, [b, t]);
      }
    } else if Visible(c, t, a) {
      var path :| ArrivesFrom(c, t, a, path);
      assert ([b] + path)[1..] == path;
      assert ArrivesFrom(c, b, a, [b] + path);
    } else {
      var path :| ReachesCall(c, t, a, path);
      assert ([b] + path)[1..] == path;
      assert ReachesCall(c, b, a, [b] + path);
    }
  }

  lemma LiveAtExit(c: Code, b: int, i: int, a: int)
    requires SpanOK(c, b) && Successors(c, b) == {} && IsBound(c.decl, a) && !SetIn(c, i, c.spans[b].last + 1, a)
    ensures LiveAt(c, b, i, a)
  {
    assert ArrivesFrom(c, b, a, [b]);
  }

  // ---- Removing a set of dead stores ----

  function WithNops(insns: seq<Insn>, killed: set<int>): (r: seq<Insn>)
    ensures |r| == |insns|
    ensures forall i :: 0 <= i < |insns| ==> r[i] == if i in killed then NopInsn else insns[i]
  {
    seq(|insns|, i requires 0 <= i < |insns| => if i in killed then NopInsn else insns[i])
  }

  ghost predicate AllDead(c: Code, order: seq<int>, killed: set<int>) {
    forall b, k :: b in order && SpanOK(c, b) && c.spans[b].first <= k <= c.spans[b].last && k in killed ==>
      DeadForCalls(c, b, k)
  }

  predicate AliasAgree(s: State, t: State, a: int) {
    (a in s.als <==> a in t.als) && (a in s.als ==> s.als[a] == t.als[a])
  }

  /** Same point of the stream, same registers and memory, same live aliases. */
  ghost predicate SameLive(c: Code, order: seq<int>, x: Config, y: Config) {
    match x
    case At(b, i, s) =>
      && y.At? && y.b == b && y.i == i && b in order && SpanOK(c, b)
      && c.spans[b].first <= i <= c.spans[b].last + 1 && (i > c.spans[b].last ==> Falls(c, b))
      && y.s.regs == s.regs && y.s.mem == s.mem
      && forall a {:trigger LiveAt(c, b, i, a)} :: LiveAt(c, b, i, a) ==> AliasAgree(s, y.s, a)
    case Done(_) => y == x
    case Stuck => true
  }

  lemma BoundAgree(c: Code, order: seq<int>, x: Config, y: Config)
    requires x.At? && SameLive(c, order, x, y)
    requires forall a :: IsBound(c.decl, a) ==> LiveAt(c, x.b, x.i, a)
    ensures BoundValues(c.decl, x.s.als) == BoundValues(c.decl, y.s.als)
  {
    forall a | IsBound(c.decl, a) ensures AliasAgree(x.s, y.s, a) { assert LiveAt(c, x.b, x.i, a); }
    assert forall a :: a in x.s.als && IsBound(c.decl, a) <==> a in y.s.als && IsBound(c.decl, a);
  }

  /** Entering a successor block keeps the states related. */
  lemma SameLiveEnter(c: Code, order: seq<int>, lastBlock: int, b: int, i: int, s: State, s': State, t: int)
    requires FlowOK(c, order, lastBlock) && SameLive(c, order, At(b, i, s), At(b, i, s'))
    requires t in order && SpanOK(c, t) && t in Successors(c, b)
    requires forall j :: i <= j <= c.spans[b].last ==> !c.insns[j].op.SET_ALIAS?
    ensures SameLive(c, order, Enter(c, t, s), Enter(c, t, s'))
  {
    assert PlacedIn(c, t);
    forall a | LiveAt(c, t, c.spans[t].first, a) ensures AliasAgree(s, s', a) {
      LiveAcross(c, b, t, a);
      assert LiveAt(c, b, i, a);
    }
  }

  function SetValue(insn: Insn, s: State): map<int, Value> {
    if insn.op.SET_ALIAS? then s.als[insn.other := Get(s, insn.src1)] else s.als
  }

  /** Executing one instruction in states that agree on the aliases it looks at. */
  lemma ExecAliases(env: Env, d: Decl, insn: Insn, s: State, t: State)
    requires !EndsBlock(insn.op) && s.regs == t.regs && s.mem == t.mem
    requires insn.op.GET_ALIAS? ==> AliasAgree(s, t, insn.other)
    requires insn.op.CALL? ==> BoundValues(d, s.als) == BoundValues(d, t.als)
    ensures Exec(env, d, insn, s).None? <==> Exec(env, d, insn, t).None?
    ensures Exec(env, d, insn, s).Some? ==>
              var s', t' := Exec(env, d, insn, s).value, Exec(env, d, insn, t).value;
              s'.regs == t'.regs && s'.mem == t'.mem && s'.als == SetValue(insn, s) && t'.als == SetValue(insn, t)
              && (insn.op.SET_ALIAS? ==> s'.regs == s.regs && s'.mem == s.mem)
  {
    hide Exec;
    if IsPure(insn.op) { ExecPure(env, d, insn, s, t); } else { ExecImpure(env, d, insn, s, t); }
  }

  lemma ExecPure(env: Env, d: Decl, insn: Insn, s: State, t: State)
    requires IsPure(insn.op) && !EndsBlock(insn.op) && s.regs == t.regs && s.mem == t.mem
    requires insn.op.GET_ALIAS? ==> AliasAgree(s, t, insn.other)
    requires insn.op.CALL? ==> BoundValues(d, s.als) == BoundValues(d, t.als)
    ensures Exec(env, d, insn, s).None? <==> Exec(env, d, insn, t).None?
    ensures Exec(env, d, insn, s).Some? ==>
              var s', t' := Exec(env, d, insn, s).value, Exec(env, d, insn, t).value;
              s'.regs == t'.regs && s'.mem == t'.mem && s'.als == SetValue(insn, s) && t'.als == SetValue(insn, t)
              && (insn.op.SET_ALIAS? ==> s'.regs == s.regs && s'.mem == s.mem)
  {
    hide PureResult;
    assert OperandsDefined(d, insn, s) <==> OperandsDefined(d, insn, t);
    PureSame(env, d, insn, s, t);
  }

  lemma ExecImpure(env: Env, d: Decl, insn: Insn, s: State, t: State)
    requires !IsPure(insn.op) && !EndsBlock(insn.op) && s.regs == t.regs && s.mem == t.mem
    requires insn.op.GET_ALIAS? ==> AliasAgree(s, t, insn.other)
    requires insn.op.CALL? ==> BoundValues(d, s.als) == BoundValues(d, t.als)
    ensures Exec(env, d, insn, s).None? <==> Exec(env, d, insn, t).None?
    ensures Exec(env, d, insn, s).Some? ==>
              var s', t' := Exec(env, d, insn, s).value, Exec(env, d, insn, t).value;
              s'.regs == t'.regs && s'.mem == t'.mem && s'.als == SetValue(insn, s) && t'.als == SetValue(insn, t)
              && (insn.op.SET_ALIAS? ==> s'.regs == s.regs && s'.mem == s.mem)
  {
    hide PureResult;
    assert OperandsDefined(d, insn, s) <==> OperandsDefined(d, insn, t);
  }

  lemma PureSame(env: Env, d: Decl, insn: Insn, s: State, t: State)
    requires IsPure(insn.op) && s.regs == t.regs
    ensures PureResult(env, d, insn, s) == PureResult(env, d, insn, t)
  {
    hide Meaning.Eval1, Meaning.Eval2, Meaning.EvalImm, Meaning.EvalExtract, Meaning.EvalInsert;
  }

  ghost predicate Removing(c: Code, order: seq<int>, lastBlock: int, killed: set<int>) {
    FlowOK(c, order, lastBlock) && AllDead(c, order, killed)
  }

  function WithoutStores(c: Code, killed: set<int>): Code { c.(insns := WithNops(c.insns, killed)) }

  lemma SameLivePlain(env: Env, c: Code, order: seq<int>, lastBlock: int, killed: set<int>, x: Config, y: Config)
    requires Removing(c, order, lastBlock, killed) && x.At? && SameLive(c, order, x, y)
    requires x.i <= c.spans[x.b].last && !EndsBlock(c.insns[x.i].op)
    ensures SameLive(c, order, Step(env, c, x), Step(env, WithoutStores(c, killed), y))
  {
    hide Exec, StreamOK, TargetsOK, LabelsOK;
    var insn := c.insns[x.i];
    var next := x.i + 1;
    if x.i in killed { assert DeadForCalls(c, x.b, x.i); DeadStoreNotLive(c, x.b, x.i); NopExec(env, c.decl, y.s); }
    if insn.op.GET_ALIAS? { LiveAtUse(c, x.b, x.i, insn.other); }
    if insn.op.CALL? {
      forall a | IsBound(c.decl, a) ensures LiveAt(c, x.b, x.i, a) { LiveAtUse(c, x.b, x.i, a); }
      BoundAgree(c, order, x, y);
    }
    ExecAliases(env, c.decl, insn, x.s, y.s);
    if Exec(env, c.decl, insn, x.s).Some? {
      var s' := Exec(env, c.decl, insn, x.s).value;
      assert Step(env, c, x) == At(x.b, next, s');
      var z := Step(env, WithoutStores(c, killed), y);
      assert z.At? && z.b == x.b && z.i == next;
      assert z.s.regs == s'.regs && z.s.mem == s'.mem;
      assert next > c.spans[x.b].last ==> Falls(c, x.b);
      forall a | LiveAt(c, x.b, next, a) ensures AliasAgree(s', Step(env, WithoutStores(c, killed), y).s, a) {
        if !SetsAlias(insn, a) { LiveBefore(c, x.b, x.i, a); }
      }
    }
  }

  lemma NopExec(env: Env, d: Decl, s: State)
    ensures Exec(env, d, NopInsn, s) == Some(s)
  {}

  lemma SameLiveEnd(env: Env, c: Code, order: seq<int>, lastBlock: int, killed: set<int>, x: Config, y: Config)
    requires Removing(c, order, lastBlock, killed) && x.At? && SameLive(c, order, x, y)
    requires x.i <= c.spans[x.b].last && EndsBlock(c.insns[x.i].op)
    ensures SameLive(c, order, Step(env, c, x), Step(env, WithoutStores(c, killed), y))
  {
    hide StreamOK;
    var insn, b := c.insns[x.i], x.b;
    assert PlacedIn(c, b);
    assert LastInsn(c, b) == insn && (x.i !in killed || DeadForCalls(c, b, x.i));
    if insn.op.RETURN? {
      forall a | IsBound(c.decl, a) ensures LiveAt(c, b, x.i, a) { LiveAtExit(c, b, x.i, a); }
      BoundAgree(c, order, x, y);
    } else {
      var t, next := LabelBlock(c, insn.other), x.i + 1;
      assert t in order;
      assert SpanOK(c, t) by { SpansOfStream(c, order, lastBlock); }
      SameLiveEnter(c, order, lastBlock, b, x.i, x.s, y.s, t);
      forall a | LiveAt(c, b, next, a) ensures AliasAgree(x.s, y.s, a) { LiveBefore(c, b, x.i, a); }
    }
  }

  lemma SameLiveFall(env: Env, c: Code, order: seq<int>, lastBlock: int, killed: set<int>, x: Config, y: Config)
    requires Removing(c, order, lastBlock, killed) && x.At? && SameLive(c, order, x, y) && x.i > c.spans[x.b].last
    ensures SameLive(c, order, Step(env, c, x), Step(env, WithoutStores(c, killed), y))
  {
    var b := x.b;
    var k :| 0 <= k < |order| && order[k] == b;
    assert c.spans[order[k]].next == After(order, k);
    if c.spans[b].next < 0 {
      forall a | IsBound(c.decl, a) ensures LiveAt(c, b, x.i, a) { LiveAtExit(c, b, x.i, a); }
      BoundAgree(c, order, x, y);
    } else {
      assert order[k + 1] in order;
      SameLiveEnter(c, order, lastBlock, b, x.i, x.s, y.s, c.spans[b].next);
    }
  }

  /** Removing any set of dead stores, all judged on the original code, preserves the meaning of the unit. */
  lemma RemoveDeadStores(c: Code, order: seq<int>, lastBlock: int, killed: set<int>)
    requires FlowOK(c, order, lastBlock) && AllDead(c, order, killed)
    ensures Refines(c, WithoutStores(c, killed))
  {
    var c' := WithoutStores(c, killed);
    forall env, als, mem ensures Agree(env, c, Init(c, als, mem), c', Init(c', als, mem)) {
      var rel := (x, y) => SameLive(c, order, x, y);
      forall x, y | rel(x, y) && x.At? ensures Matches(env, c, c', rel, x, y) {
        if x.i > c.spans[x.b].last { SameLiveFall(env, c, order, lastBlock, killed, x, y); }
        else if EndsBlock(c.insns[x.i].op) { SameLiveEnd(env, c, order, lastBlock, killed, x, y); }
        else { SameLivePlain(env, c, order, lastBlock, killed, x, y); }
        MatchInOneStep(env, c, c', rel, x, y);
      }
      SameLiveInit(c, order, lastBlock, als, mem);
      Simulation(env, c, c', rel, Init(c, als, mem), Init(c', als, mem));
    }
  }

  lemma SameLiveInit(c: Code, order: seq<int>, lastBlock: int, als: map<int, Value>, mem: Memory)
    requires FlowOK(c, order, lastBlock)
    ensures SameLive(c, order, Init(c, als, mem), Init(c, als, mem))
  {
    assert order[0] in order && PlacedIn(c, 0);
  }
}
