/** Control-flow edges between basic blocks (rtl-block.c): exit slots, entry slots and overflow blocks. */
module BlockEdges {
  import opened Rtl
  import opened Unit

  const ENTRY_SLOTS := 7

  /** Used slots come first; unused slots hold -1. */
  predicate Packed(slots: seq<int>) {
    && (forall i :: 0 <= i < |slots| ==> slots[i] >= -1)
    && (forall i, j :: 0 <= i < j < |slots| && slots[i] < 0 ==> slots[j] < 0)
  }

  predicate IsReal(owner: seq<int>, b: int) { 0 <= b < |owner| && owner[b] == b }

  /** No new real blocks. */
  ghost predicate RealKept(owner: seq<int>, owner': seq<int>) { forall b :: IsReal(owner', b) ==> IsReal(owner, b) }

  /** Every real block is in the stream. */
  ghost predicate AllInStream(owner: seq<int>, order: seq<int>) { forall b :: IsReal(owner, b) ==> b in order }

  /** A real block outside the stream has no exits. */
  ghost predicate NoStrayEdges(edges: seq<Edges>, owner: seq<int>, order: seq<int>) {
    |edges| == |owner| && forall b :: IsReal(owner, b) && b !in order ==> ExitSet(edges[b]) == {}
  }

  function ExitSet(e: Edges): set<int> {
    set x | x in e.exits && x >= 0
  }

  function Occurrences(e: Edges, f: int): nat { multiset(e.entries)[f] }

  /** How often f occurs in the overflow chain that starts at overflow block d (none if d < 0). */
  function ChainCount(edges: seq<Edges>, d: int, f: int): nat
    decreases if d < 0 then 0 else d + 1
  {
    if !(0 <= d < |edges|) then 0
    else Occurrences(edges[d], f) + (if edges[d].overflow < d then ChainCount(edges, edges[d].overflow, f) else 0)
  }

  /** How often f occurs as a predecessor of block t, overflow blocks included. */
  function EntryCount(edges: seq<Edges>, t: int, f: int): nat
    requires 0 <= t < |edges|
  {
    Occurrences(edges[t], f) + ChainCount(edges, edges[t].overflow, f)
  }

  predicate InChain(edges: seq<Edges>, d: int, x: int)
    decreases if d < 0 then 0 else d + 1
  {
    0 <= d < |edges| && (d == x || (edges[d].overflow < d && InChain(edges, edges[d].overflow, x)))
  }

  predicate ExitsOK(owner: seq<int>, b: int, e: Edges) {
    && |e.exits| == 2
    && (if IsReal(owner, b) then
          && Packed(e.exits)
          && (forall x <- e.exits :: x >= 0 ==> IsReal(owner, x))
          && (e.exits[0] >= 0 ==> e.exits[0] != e.exits[1])
        else e.exits == [-4, -5])
  }

  predicate SlotsOK(owner: seq<int>, b: int, e: Edges)
    requires 0 <= b < |owner|
  {
    && ExitsOK(owner, b, e)
    && |e.entries| == ENTRY_SLOTS && Packed(e.entries)
    && (forall f <- e.entries :: f >= 0 ==> IsReal(owner, f))
    && IsReal(owner, owner[b])
    && -1 <= e.overflow < |owner|
    && (e.overflow >= 0 ==>
          && owner[e.overflow] == owner[b] && owner[e.overflow] != e.overflow
          && (owner[b] != b ==> e.overflow < b))
  }

  /** The invariant of rtl-block.c: f is listed exactly once among t's predecessors iff t is an exit of f. */
  ghost predicate EdgesOK(edges: seq<Edges>, owner: seq<int>) {
    && |owner| == |edges|
    && (forall b :: 0 <= b < |edges| ==> SlotsOK(owner, b, edges[b]))
    && CountsOK(edges, owner)
  }

  ghost predicate CountsOK(edges: seq<Edges>, owner: seq<int>)
    requires |owner| == |edges|
    requires forall b :: 0 <= b < |edges| ==> SlotsOK(owner, b, edges[b])
  {
    forall f, t {:trigger EntryCount(edges, t, f)} :: IsReal(owner, f) && IsReal(owner, t) ==>
      EntryCount(edges, t, f) == if t in ExitSet(edges[f]) then 1 else 0
  }

  lemma {:induction false} ChainOwner(edges: seq<Edges>, owner: seq<int>, d: int, x: int)
    requires |owner| == |edges| && forall b :: 0 <= b < |edges| ==> SlotsOK(owner, b, edges[b])
    requires InChain(edges, d, x)
    ensures 0 <= x < |edges| && owner[x] == owner[d]
    decreases if d < 0 then 0 else d + 1
  {
    if d != x { ChainOwner(edges, owner, edges[d].overflow, x); }
  }

  /** Changing the entries of x changes the counts of exactly the chains through x. */
  lemma {:induction false} ChainCountUpdate(edges: seq<Edges>, x: int, e: Edges, d: int, f: int)
    requires 0 <= x < |edges| && e.overflow == edges[x].overflow
    ensures ChainCount(edges[x := e], d, f) ==
            ChainCount(edges, d, f) + (if InChain(edges, d, x) then Occurrences(e, f) - Occurrences(edges[x], f) else 0)
    decreases if d < 0 then 0 else d + 1
  {
    if 0 <= d < |edges| && d != x && edges[d].overflow < d {
      ChainCountUpdate(edges, x, e, edges[d].overflow, f);
    } else if 0 <= d < |edges| && d == x && edges[d].overflow < d {
      ChainCountUpdate(edges, x, e, edges[d].overflow, f);
      NotInOwnTail(edges, edges[d].overflow, x);
    }
  }

  lemma {:induction false} NotInOwnTail(edges: seq<Edges>, d: int, x: int)
    requires d < x
    ensures !InChain(edges, d, x)
    decreases if d < 0 then 0 else d + 1
  {
    if 0 <= d < |edges| && edges[d].overflow < d { NotInOwnTail(edges, edges[d].overflow, x); }
  }

  /** Blocks outside an overflow chain, and blocks appended later, do not matter to its counts. */
  lemma {:induction false} ChainCountFrame(edges: seq<Edges>, edges': seq<Edges>, owner: seq<int>, d: int, f: int)
    requires |owner| == |edges| <= |edges'| && forall b :: 0 <= b < |edges| ==> SlotsOK(owner, b, edges[b])
    requires forall b :: 0 <= b < |edges| && owner[b] != b ==> edges'[b] == edges[b]
    requires d < |edges| && (d >= 0 ==> owner[d] != d)
    ensures ChainCount(edges', d, f) == ChainCount(edges, d, f)
    decreases if d < 0 then 0 else d + 1
  {
    if 0 <= d && edges[d].overflow < d { ChainCountFrame(edges, edges', owner, edges[d].overflow, f); }
  }

  /** The shift loops of rtl_block_remove_edge: slot i is dropped, the rest move down. */
  method ShiftDown(slots: seq<int>, i: nat) returns (r: seq<int>)
    requires i < |slots|
    ensures r == slots[..i] + slots[i + 1..] + [-1]
  {
    r := slots;
    var k := i;
    while k < |slots| - 1
      invariant i <= k <= |slots| - 1 && |r| == |slots|
      invariant forall j :: 0 <= j < i || k <= j < |slots| ==> r[j] == slots[j]
      invariant forall j :: i <= j < k ==> r[j] == slots[j + 1]
    {
      r := r[k := r[k + 1]];
      k := k + 1;
    }
    r := r[|slots| - 1 := -1];
  }

  /** The first unused slot, or the number of slots. */
  method FirstFree(slots: seq<int>) returns (i: nat)
    ensures i <= |slots| && (i < |slots| ==> slots[i] < 0)
    ensures forall j :: 0 <= j < i ==> slots[j] >= 0
  {
    i := 0;
    while i < |slots|
      invariant i <= |slots| && forall j :: 0 <= j < i ==> slots[j] >= 0
    {
      if slots[i] < 0 { return; }
      i := i + 1;
    }
  }

  lemma ShiftCounts(slots: seq<int>, i: nat, f: int)
    requires i < |slots|
    ensures multiset(slots[..i] + slots[i + 1..] + [-1])[f] ==
            multiset(slots)[f] - (if f == slots[i] then 1 else 0) + (if f == -1 then 1 else 0)
  {
    assert slots == slots[..i] + [slots[i]] + slots[i + 1..];
  }

  lemma ShiftPacked(slots: seq<int>, i: nat)
    requires i < |slots| && Packed(slots)
    ensures Packed(slots[..i] + slots[i + 1..] + [-1])
    ensures forall x <- slots[..i] + slots[i + 1..] + [-1] :: x in slots || x == -1
  {}

  lemma FillCounts(slots: seq<int>, i: nat, x: int, f: int)
    requires i < |slots|
    ensures multiset(slots[i := x])[f] ==
            multiset(slots)[f] - (if f == slots[i] then 1 else 0) + (if f == x then 1 else 0)
  {}

  // ---- rtl_block_add_edge ----

  /** "to" becomes exit x of block b. */
  lemma AddExit(e: Edges, owner: seq<int>, b: int, x: nat, to: int, e': Edges)
    requires ExitsOK(owner, b, e) && IsReal(owner, b) && IsReal(owner, to)
    requires x < 2 && e.exits[x] < 0 && (x > 0 ==> e.exits[0] >= 0) && to !in ExitSet(e)
    requires e'.exits == e.exits[x := to]
    ensures ExitsOK(owner, b, e') && ExitSet(e') == ExitSet(e) + {to}
  {
    forall z ensures z in ExitSet(e') <==> z in ExitSet(e) + {to} {
      assert z in e'.exits <==> z == e'.exits[0] || z == e'.exits[1];
      assert z in e.exits <==> z == e.exits[0] || z == e.exits[1];
    }
  }

  /** Changing the entries of one block and the exits of another moves the counts as expected. */
  lemma CountsUpdate(edges: seq<Edges>, mid: seq<Edges>, owner: seq<int>, cur: int, e: Edges, t: int, f: int)
    requires EdgesOK(edges, owner) && IsReal(owner, t) && 0 <= cur < |edges| && |mid| == |edges|
    requires forall b :: 0 <= b < |edges| ==> mid[b].entries == edges[b].entries && mid[b].overflow == edges[b].overflow
    requires e.overflow == edges[cur].overflow
    requires cur == owner[cur] || InChain(edges, edges[owner[cur]].overflow, cur)
    ensures EntryCount(mid[cur := e], t, f) ==
            EntryCount(edges, t, f) + (if t == owner[cur] then Occurrences(e, f) - Occurrences(edges[cur], f) else 0)
  {
    var d := edges[t].overflow;
    assert SlotsOK(owner, t, edges[t]);
    SameChain(edges, mid, d, f, cur);
    ChainCountUpdate(mid, cur, e, d, f);
    if InChain(edges, d, cur) { ChainOwner(edges, owner, d, cur); }
    if cur == owner[cur] && InChain(edges, d, cur) { NotRealInChain(edges, owner, d, cur); }
  }

  lemma {:induction false} SameChain(edges: seq<Edges>, mid: seq<Edges>, d: int, f: int, x: int)
    requires |mid| == |edges|
    requires forall b :: 0 <= b < |edges| ==> mid[b].entries == edges[b].entries && mid[b].overflow == edges[b].overflow
    ensures ChainCount(mid, d, f) == ChainCount(edges, d, f) && InChain(mid, d, x) == InChain(edges, d, x)
    decreases if d < 0 then 0 else d + 1
  {
    if 0 <= d < |edges| && edges[d].overflow < d { SameChain(edges, mid, edges[d].overflow, f, x); }
  }

  lemma {:induction false} NotRealInChain(edges: seq<Edges>, owner: seq<int>, d: int, x: int)
    requires |owner| == |edges| && forall b :: 0 <= b < |edges| ==> SlotsOK(owner, b, edges[b])
    requires d < |edges| && (d >= 0 ==> owner[d] != d) && IsReal(owner, x)
    ensures !InChain(edges, d, x)
    decreases if d < 0 then 0 else d + 1
  {
    if 0 <= d && edges[d].overflow < d { NotRealInChain(edges, owner, edges[d].overflow, x); }
  }

  /** "from" takes a free entry slot i of block "to". */
  lemma FillSlot(e: Edges, owner: seq<int>, b: int, i: nat, from: int, e': Edges)
    requires 0 <= b < |owner| && SlotsOK(owner, b, e) && IsReal(owner, from)
    requires i < ENTRY_SLOTS && e.entries[i] < 0 && forall j :: 0 <= j < i ==> e.entries[j] >= 0
    requires e' == e.(entries := e.entries[i := from], exits := e'.exits) && ExitsOK(owner, b, e')
    ensures SlotsOK(owner, b, e')
  {
    forall f | f in e'.entries && f >= 0 ensures IsReal(owner, f) {
      assert f == from || f in e.entries;
    }
  }

  lemma SlotSizes(edges: seq<Edges>, owner: seq<int>, b: int)
    requires EdgesOK(edges, owner) && 0 <= b < |edges|
    ensures |edges[b].entries| == ENTRY_SLOTS && |edges[b].exits| == 2
  {
    assert SlotsOK(owner, b, edges[b]);
  }

  predicate AllSized(edges: seq<Edges>) {
    forall b :: 0 <= b < |edges| ==> |edges[b].entries| == ENTRY_SLOTS && |edges[b].exits| == 2
  }

  lemma AreSized(edges: seq<Edges>, owner: seq<int>)
    requires EdgesOK(edges, owner)
    ensures AllSized(edges) && |owner| == |edges|
  {
    forall b | 0 <= b < |edges| ensures |edges[b].entries| == ENTRY_SLOTS && |edges[b].exits| == 2 {
      SlotSizes(edges, owner, b);
    }
  }

  lemma AddedSlots(
    edges: seq<Edges>, owner: seq<int>, from: int, to: int, x: nat, i: nat, mid: seq<Edges>, edges': seq<Edges>)
    requires EdgesOK(edges, owner) && IsReal(owner, from) && IsReal(owner, to)
    requires x < 2 && edges[from].exits[x] < 0 && (x > 0 ==> edges[from].exits[0] >= 0)
    requires to !in ExitSet(edges[from])
    requires i < ENTRY_SLOTS && edges[to].entries[i] < 0 && forall j :: 0 <= j < i ==> edges[to].entries[j] >= 0
    requires mid == edges[from := edges[from].(exits := edges[from].exits[x := to])]
    requires edges' == mid[to := mid[to].(entries := mid[to].entries[i := from])]
    ensures forall b :: 0 <= b < |edges'| ==> SlotsOK(owner, b, edges'[b])
    ensures ExitSet(edges'[from]) == ExitSet(edges[from]) + {to}
  {
    hide EntryCount;
    assert SlotsOK(owner, from, edges[from]) && SlotsOK(owner, to, edges[to]);
    AddExit(edges[from], owner, from, x, to, mid[from]);
    FillSlot(edges[to], owner, to, i, from, edges'[to]);
    forall b | 0 <= b < |edges'| ensures SlotsOK(owner, b, edges'[b]) {
      assert SlotsOK(owner, b, edges[b]);
    }
  }

  lemma AddInSlot(edges: seq<Edges>, owner: seq<int>, from: int, to: int, x: nat, i: nat, edges': seq<Edges>)
    requires EdgesOK(edges, owner) && IsReal(owner, from) && IsReal(owner, to)
    requires x < 2 && edges[from].exits[x] < 0 && (x > 0 ==> edges[from].exits[0] >= 0)
    requires to !in ExitSet(edges[from])
    requires i < ENTRY_SLOTS && edges[to].entries[i] < 0 && forall j :: 0 <= j < i ==> edges[to].entries[j] >= 0
    requires var mid := edges[from := edges[from].(exits := edges[from].exits[x := to])];
             edges' == mid[to := mid[to].(entries := mid[to].entries[i := from])]
    ensures EdgesOK(edges', owner) && ExitSet(edges'[from]) == ExitSet(edges[from]) + {to}
  {
    hide SlotsOK;
    SlotSizes(edges, owner, from);
    SlotSizes(edges, owner, to);
    var mid := edges[from := edges[from].(exits := edges[from].exits[x := to])];
    AddedSlots(edges, owner, from, to, x, i, mid, edges');
    forall f, t | IsReal(owner, f) && IsReal(owner, t)
      ensures EntryCount(edges', t, f) == if t in ExitSet(edges'[f]) then 1 else 0
    {
      CountsUpdate(edges, mid, owner, to, edges'[to], t, f);
      FillCounts(edges[to].entries, i, from, f);
      assert EntryCount(edges, t, f) == if t in ExitSet(edges[f]) then 1 else 0;
    }
  }

  /** The edges after a full entry list of "to" spilled all but its first entry into a new block. */
  ghost predicate Spilled(edges: seq<Edges>, from: int, to: int, x: nat, edges': seq<Edges>)
    requires 0 <= from < |edges| && 0 <= to < |edges| && x < |edges[from].exits| && |edges[to].entries| == ENTRY_SLOTS
  {
    var mid := edges[from := edges[from].(exits := edges[from].exits[x := to])];
    var slots := edges[to].entries;
    edges' == mid[to := mid[to].(entries := [slots[0], -1, -1, -1, -1, -1, -1], overflow := |edges|)]
              + [Edges([from] + slots[1..], edges[to].overflow, [-4, -5])]
  }

  lemma SpillSlots(edges: seq<Edges>, owner: seq<int>, from: int, to: int, x: nat, edges': seq<Edges>, b: int)
    requires EdgesOK(edges, owner) && IsReal(owner, from) && IsReal(owner, to)
    requires x < 2 && edges[from].exits[x] < 0 && (x > 0 ==> edges[from].exits[0] >= 0)
    requires to !in ExitSet(edges[from])
    requires forall j :: 0 <= j < ENTRY_SLOTS ==> edges[to].entries[j] >= 0
    requires Spilled(edges, from, to, x, edges') && 0 <= b < |edges'|
    ensures SlotsOK(owner + [to], b, edges'[b])
  {
    assert SlotsOK(owner, from, edges[from]) && SlotsOK(owner, to, edges[to]);
    AddExit(edges[from], owner, from, x, to, edges[from].(exits := edges[from].exits[x := to]));
    assert b < |edges| ==> SlotsOK(owner, b, edges[b]);
    assert forall r :: 0 <= r < |owner| ==> (IsReal(owner, r) <==> IsReal(owner + [to], r));
  }

  lemma SpillCounts(
    edges: seq<Edges>, owner: seq<int>, from: int, to: int, x: nat, edges': seq<Edges>, t: int, f: int)
    requires EdgesOK(edges, owner) && IsReal(owner, from) && IsReal(owner, to) && IsReal(owner, t) && x < 2
    requires forall j :: 0 <= j < ENTRY_SLOTS ==> edges[to].entries[j] >= 0
    requires Spilled(edges, from, to, x, edges') && f >= 0
    ensures EntryCount(edges', t, f) == EntryCount(edges, t, f) + (if t == to && f == from then 1 else 0)
  {
    var n, slots := |edges|, edges[to].entries;
    assert SlotsOK(owner, t, edges[t]);
    assert slots == [slots[0]] + slots[1..];
    ChainCountFrame(edges, edges', owner, edges[t].overflow, f);
    if t == to {
      assert multiset(edges'[n].entries) == multiset{from} + multiset(slots[1..]);
      assert multiset(edges'[to].entries)[f] == multiset{slots[0]}[f];
    }
  }

  lemma AddOverflow(edges: seq<Edges>, owner: seq<int>, from: int, to: int, x: nat, edges': seq<Edges>)
    requires EdgesOK(edges, owner) && IsReal(owner, from) && IsReal(owner, to)
    requires x < 2 && edges[from].exits[x] < 0 && (x > 0 ==> edges[from].exits[0] >= 0)
    requires to !in ExitSet(edges[from])
    requires forall j :: 0 <= j < ENTRY_SLOTS ==> edges[to].entries[j] >= 0
    requires Spilled(edges, from, to, x, edges')
    ensures EdgesOK(edges', owner + [to]) && ExitSet(edges'[from]) == ExitSet(edges[from]) + {to}
  {
    assert SlotsOK(owner, from, edges[from]);
    AddExit(edges[from], owner, from, x, to, edges'[from]);
    forall b | 0 <= b < |edges'| ensures SlotsOK(owner + [to], b, edges'[b]) {
      SpillSlots(edges, owner, from, to, x, edges', b);
    }
    forall f, t | IsReal(owner + [to], f) && IsReal(owner + [to], t)
      ensures EntryCount(edges', t, f) == if t in ExitSet(edges'[f]) then 1 else 0
    {
      SpillCounts(edges, owner, from, to, x, edges', t, f);
      assert EntryCount(edges, t, f) == if t in ExitSet(edges[f]) then 1 else 0;
    }
  }

  /** rtl_block_add_edge. */
  method AddEdge(unit: RtlUnit, from: int, to: int) returns (ok: bool)
    requires EdgesOK(unit.edges, unit.owner) && |unit.spans| == |unit.edges|
    requires IsReal(unit.owner, from) && IsReal(unit.owner, to)
    modifies unit`edges, unit`spans, unit`owner
    ensures EdgesOK(unit.edges, unit.owner) && |unit.spans| == |unit.edges|
    ensures old(unit.owner) <= unit.owner && old(unit.spans) <= unit.spans
    ensures forall b :: |old(unit.owner)| <= b < |unit.owner| ==> !IsReal(unit.owner, b)
    ensures RealKept(old(unit.owner), unit.owner)
    ensures |unit.edges| <= |old(unit.edges)| + 1
    ensures ok <==> to in ExitSet(old(unit.edges)[from]) || |ExitSet(old(unit.edges)[from])| < 2
    ensures ok ==> ExitSet(unit.edges[from]) == ExitSet(old(unit.edges)[from]) + {to}
    ensures !ok ==> unit.edges == old(unit.edges)
    ensures forall b :: 0 <= b < |old(unit.edges)| && b != from ==> unit.edges[b].exits == old(unit.edges)[b].exits
    ensures forall b :: 0 <= b < |old(unit.edges)| && old(unit.edges)[b].entries[0] >= 0 ==>
              unit.edges[b].entries[0] == old(unit.edges)[b].entries[0]
    ensures ok ==>
              unit.edges[from].exits[0] == if old(unit.edges)[from].exits[0] >= 0 then old(unit.edges)[from].exits[0]
                  else to
    ensures ok && to !in ExitSet(old(unit.edges)[from]) && old(unit.edges)[to].entries[0] < 0 ==>
              unit.edges[to].entries[0] == from
    ensures old(unit.edges)[to].entries[ENTRY_SLOTS - 1] < 0 ==> |unit.edges| == |old(unit.edges)|
    ensures forall b :: |old(unit.spans)| <= b < |unit.spans| ==> unit.spans[b] == Span(0, -1, -2, -3)
  {
    hide EdgesOK;
    ghost var edges, owner := unit.edges, unit.owner;
    EdgeShape(edges, owner, from);
    EdgeShape(edges, owner, to);
    var x, present := ExitSlot(unit.edges[from].exits, to);
    ExitSetSize(edges[from], owner, from, to);
    if present { return true; }
    if x == 2 { return false; }
    unit.edges := unit.edges[from := unit.edges[from].(exits := unit.edges[from].exits[x := to])];
    var entries := unit.edges[to].entries;
    var i := FirstFree(entries);
    if i < |entries| {
      unit.edges := unit.edges[to := unit.edges[to].(entries := entries[i := from])];
      AddInSlot(edges, owner, from, to, x, i, unit.edges);
    } else {
      var dummy := Edges([from] + entries[1..], unit.edges[to].overflow, [-4, -5]);
      unit.edges :=
        unit.edges[to := unit.edges[to].(entries := [entries[0], -1, -1, -1, -1, -1, -1], overflow := |unit.edges|)]
        + [dummy];
      unit.spans := unit.spans + [Span(0, -1, -2, -3)];
      unit.owner := unit.owner + [to];
      AddOverflow(edges, owner, from, to, x, unit.edges);
    }
    return true;
  }

  lemma EdgeShape(edges: seq<Edges>, owner: seq<int>, b: int)
    requires EdgesOK(edges, owner) && 0 <= b < |owner|
    ensures |owner| == |edges| && SlotsOK(owner, b, edges[b])
  {}

  /** The scan over the exit slots at the start of rtl_block_add_edge. */
  method ExitSlot(exits: seq<int>, to: int) returns (x: nat, present: bool)
    requires |exits| == 2
    ensures x <= 2 && forall j :: 0 <= j < x ==> exits[j] >= 0 && exits[j] != to
    ensures if present then x < 2 && exits[x] == to && exits[x] >= 0 else x < 2 ==> exits[x] < 0
  {
    x, present := 0, false;
    while x < 2
      invariant x <= 2 && forall j :: 0 <= j < x ==> exits[j] >= 0 && exits[j] != to
    {
      if exits[x] < 0 { return; }
      if exits[x] == to { return x, true; }
      x := x + 1;
    }
  }

  lemma ExitSetSize(e: Edges, owner: seq<int>, b: int, to: int)
    requires ExitsOK(owner, b, e) && IsReal(owner, b)
    ensures |ExitSet(e)| == (if e.exits[0] < 0 then 0 else if e.exits[1] < 0 then 1 else 2)
    ensures to >= 0 ==> (to in ExitSet(e) <==> to == e.exits[0] || to == e.exits[1])
  {
    var s := ExitSet(e);
    assert s == (if e.exits[0] < 0 then {} else if e.exits[1] < 0 then {e.exits[0]} else {e.exits[0], e.exits[1]});
  }

  // ---- rtl_block_remove_edge ----

  /** Exit x of "from" is gone, and so is slot i of block cur of its target's entry list. */
  ghost predicate Removed(edges: seq<Edges>, from: int, x: nat, cur: int, i: nat, edges': seq<Edges>)
    requires 0 <= from < |edges| && x < |edges[from].exits| && 0 <= cur < |edges| && i < |edges[cur].entries|
  {
    var mid := edges[from := edges[from].(exits := edges[from].exits[..x] + edges[from].exits[x + 1..] + [-1])];
    edges' == mid[cur := mid[cur].(entries := mid[cur].entries[..i] + mid[cur].entries[i + 1..] + [-1])]
  }

  lemma RemoveSlots(edges: seq<Edges>, owner: seq<int>, from: int, x: nat, cur: int, i: nat, edges': seq<Edges>)
    requires EdgesOK(edges, owner) && IsReal(owner, from) && x < 2 && edges[from].exits[x] >= 0
    requires 0 <= cur < |edges| && i < ENTRY_SLOTS && edges[cur].entries[i] == from
    requires Removed(edges, from, x, cur, i, edges')
    ensures forall b :: 0 <= b < |edges'| ==> SlotsOK(owner, b, edges'[b])
    ensures ExitSet(edges'[from]) == ExitSet(edges[from]) - {edges[from].exits[x]}
  {
    assert SlotsOK(owner, from, edges[from]);
    RemoveExit(edges[from], owner, from, x, edges'[from]);
    forall b | 0 <= b < |edges'| ensures SlotsOK(owner, b, edges'[b]) {
      assert SlotsOK(owner, b, edges[b]);
      if b == cur { DropSlot(edges[cur], owner, cur, i, edges'[cur]); }
    }
  }

  lemma RemoveFromSlot(
    edges: seq<Edges>, owner: seq<int>, from: int, x: nat, cur: int, i: nat, edges': seq<Edges>)
    requires EdgesOK(edges, owner) && IsReal(owner, from) && x < 2 && edges[from].exits[x] >= 0
    requires 0 <= cur < |edges| && i < ENTRY_SLOTS && edges[cur].entries[i] == from
    requires IsReal(owner, edges[from].exits[x])
    requires cur == edges[from].exits[x] || InChain(edges, edges[edges[from].exits[x]].overflow, cur)
    requires Removed(edges, from, x, cur, i, edges')
    ensures EdgesOK(edges', owner)
    ensures ExitSet(edges'[from]) == ExitSet(edges[from]) - {edges[from].exits[x]}
  {
    var to := edges[from].exits[x];
    assert to in edges[from].exits && to in ExitSet(edges[from]);
    RemoveSlots(edges, owner, from, x, cur, i, edges');
    if cur != to { ChainOwner(edges, owner, edges[to].overflow, cur); }
    assert owner[cur] == to by { assert SlotsOK(owner, to, edges[to]); }
    forall f, t | IsReal(owner, f) && IsReal(owner, t)
      ensures EntryCount(edges', t, f) == if t in ExitSet(edges'[f]) then 1 else 0
    {
      assert SlotsOK(owner, from, edges[from]) && SlotsOK(owner, cur, edges[cur]);
      RemovedCount(edges, owner, from, x, cur, i, edges', t, f);
    }
  }

  lemma RemovedCount(
    edges: seq<Edges>, owner: seq<int>, from: int, x: nat, cur: int, i: nat, edges': seq<Edges>, t: int, f: int)
    requires EdgesOK(edges, owner) && IsReal(owner, from) && x < 2 && edges[from].exits[x] in ExitSet(edges[from])
    requires 0 <= cur < |edges| && i < ENTRY_SLOTS && edges[cur].entries[i] == from
    requires |edges[from].exits| == 2 && |edges[cur].entries| == ENTRY_SLOTS
    requires owner[cur] == edges[from].exits[x]
    requires cur == owner[cur] || InChain(edges, edges[owner[cur]].overflow, cur)
    requires Removed(edges, from, x, cur, i, edges')
    requires ExitSet(edges'[from]) == ExitSet(edges[from]) - {edges[from].exits[x]}
    requires IsReal(owner, f) && IsReal(owner, t)
    ensures EntryCount(edges', t, f) == if t in ExitSet(edges'[f]) then 1 else 0
  {
    hide SlotsOK, ChainCount, InChain;
    assert f != from ==> ExitSet(edges'[f]) == ExitSet(edges[f]);
    hide ExitSet;
    var mid := edges[from := edges[from].(exits := edges[from].exits[..x] + edges[from].exits[x + 1..] + [-1])];
    CountsUpdate(edges, mid, owner, cur, edges'[cur], t, f);
    ShiftCounts(edges[cur].entries, i, f);
    assert EntryCount(edges, t, f) == if t in ExitSet(edges[f]) then 1 else 0;
  }

  lemma DropSlot(e: Edges, owner: seq<int>, b: int, i: nat, e': Edges)
    requires 0 <= b < |owner| && SlotsOK(owner, b, e) && i < ENTRY_SLOTS
    requires e' == e.(entries := e.entries[..i] + e.entries[i + 1..] + [-1], exits := e'.exits) && ExitsOK(owner, b, e')
    ensures SlotsOK(owner, b, e')
  {
    ShiftPacked(e.entries, i);
  }

  lemma RemoveExit(e: Edges, owner: seq<int>, b: int, x: nat, e': Edges)
    requires ExitsOK(owner, b, e) && IsReal(owner, b) && x < 2 && e.exits[x] >= 0
    requires e'.exits == e.exits[..x] + e.exits[x + 1..] + [-1]
    ensures ExitsOK(owner, b, e') && ExitSet(e') == ExitSet(e) - {e.exits[x]}
  {
    assert x == 0 ==> e'.exits == [e.exits[1], -1];
    assert x == 1 ==> e'.exits == [e.exits[0], -1];
    forall z ensures z in ExitSet(e') <==> z in ExitSet(e) - {e.exits[x]} {
      assert z in e.exits <==> z == e.exits[0] || z == e.exits[1];
    }
  }

  /** rtl_block_remove_edge. */
  method RemoveEdge(unit: RtlUnit, from: int, x: int)
    requires EdgesOK(unit.edges, unit.owner) && IsReal(unit.owner, from)
    requires 0 <= x < 2 && unit.edges[from].exits[x] >= 0
    modifies unit`edges
    ensures EdgesOK(unit.edges, unit.owner) && |unit.edges| == |old(unit.edges)|
    ensures ExitSet(unit.edges[from]) == ExitSet(old(unit.edges)[from]) - {old(unit.edges)[from].exits[x]}
    ensures forall b :: 0 <= b < |unit.edges| && b != from ==> unit.edges[b].exits == old(unit.edges)[b].exits
    ensures unit.edges[from].exits == old(unit.edges)[from].exits[..x] + old(unit.edges)[from].exits[x + 1..] + [-1]
  {
    hide EdgesOK;
    ghost var edges, owner := unit.edges, unit.owner;
    EdgeShape(edges, owner, from);
    var to := unit.edges[from].exits[x];
    assert to in edges[from].exits && to in ExitSet(edges[from]);
    var exits := ShiftDown(unit.edges[from].exits, x);
    unit.edges := unit.edges[from := unit.edges[from].(exits := exits)];
    var cur, i := FindEntry(unit, from, to, edges);
    EdgeShape(edges, owner, cur);
    var entries := ShiftDown(unit.edges[cur].entries, i);
    unit.edges := unit.edges[cur := unit.edges[cur].(entries := entries)];
    RemoveFromSlot(edges, owner, from, x, cur, i, unit.edges);
  }

  /** The search loop of rtl_block_remove_edge: the slot of to's entry list that holds "from".  The exit
      array of "from" has already been updated; "edges" is the state before that. */
  method FindEntry(unit: RtlUnit, from: int, to: int, ghost edges: seq<Edges>) returns (cur: int, i: int)
    requires EdgesOK(edges, unit.owner) && IsReal(unit.owner, from) && IsReal(unit.owner, to)
    requires to in ExitSet(edges[from])
    requires |unit.edges| == |edges| && unit.edges == edges[from := edges[from].(exits := unit.edges[from].exits)]
    ensures 0 <= cur < |edges| && 0 <= i < ENTRY_SLOTS && edges[cur].entries[i] == from
    ensures cur == to || InChain(edges, edges[to].overflow, cur)
  {
    ghost var owner := unit.owner;
    hide EdgesOK, ChainCount, InChain, SlotsOK, ExitSet, CountFrom, Rest;
    FirstInList(edges, owner, to, from);
    cur, i := to, 0;
    while unit.edges[cur].entries[i] != from
      invariant 0 <= cur < |edges| && 0 <= i < ENTRY_SLOTS == |edges[cur].entries|
      invariant cur == to || InChain(edges, edges[to].overflow, cur)
      invariant CountFrom(edges[cur].entries, i, from) + Rest(edges, to, cur, from) == 1
      decreases if cur == to then |edges| else cur, ENTRY_SLOTS - i
    {
      CountFromNext(edges[cur].entries, i, from);
      i := i + 1;
      if i >= ENTRY_SLOTS {
        NextInList(edges, owner, to, cur, from);
        cur, i := unit.edges[cur].overflow, 0;
      }
    }
  }

  /** If f still occurs after block cur of to's list, the list goes on, with the next block. */
  lemma NextInList(edges: seq<Edges>, owner: seq<int>, to: int, cur: int, f: int)
    requires EdgesOK(edges, owner) && IsReal(owner, to) && 0 <= cur < |edges|
    requires cur == to || InChain(edges, edges[to].overflow, cur)
    requires Rest(edges, to, cur, f) == 1
    ensures var next := edges[cur].overflow;
      && 0 <= next < |edges| && next != to && InChain(edges, edges[to].overflow, next) && (cur == to || next < cur)
      && |edges[next].entries| == ENTRY_SLOTS
      && CountFrom(edges[next].entries, 0, f) + Rest(edges, to, next, f) == 1
  {
    assert SlotsOK(owner, cur, edges[cur]) && SlotsOK(owner, to, edges[to]);
    if cur != to {
      ChainOwner(edges, owner, edges[to].overflow, cur);
      ChainNext(edges, edges[to].overflow, cur);
    }
    var next := edges[cur].overflow;
    assert InChain(edges, next, next) && SlotsOK(owner, next, edges[next]);
    assert edges[next].entries[0..] == edges[next].entries;
  }

  /** Occurrences of f in the slots from i on. */
  function CountFrom(slots: seq<int>, i: nat, f: int): nat
    requires i <= |slots|
  {
    multiset(slots[i..])[f]
  }

  lemma CountFromNext(slots: seq<int>, i: nat, f: int)
    requires i < |slots|
    ensures CountFrom(slots, i, f) == (if slots[i] == f then 1 else 0) + CountFrom(slots, i + 1, f)
    ensures i + 1 == |slots| ==> CountFrom(slots, i + 1, f) == 0
  {
    assert slots[i..] == [slots[i]] + slots[i + 1..];
  }

  lemma FirstInList(edges: seq<Edges>, owner: seq<int>, to: int, f: int)
    requires EdgesOK(edges, owner) && IsReal(owner, f) && IsReal(owner, to) && to in ExitSet(edges[f])
    ensures |edges[to].entries| == ENTRY_SLOTS
    ensures CountFrom(edges[to].entries, 0, f) + Rest(edges, to, to, f) == 1
  {
    assert EntryCount(edges, to, f) == 1;
    assert edges[to].entries[0..] == edges[to].entries;
  }

  /** Occurrences of f after block cur of to's list. */
  function Rest(edges: seq<Edges>, to: int, cur: int, f: int): nat
    requires 0 <= cur < |edges|
  {
    if cur == to || edges[cur].overflow < cur then ChainCount(edges, edges[cur].overflow, f) else 0
  }

  lemma {:induction false} ChainNext(edges: seq<Edges>, d: int, x: int)
    requires InChain(edges, d, x) && 0 <= x < |edges| && 0 <= edges[x].overflow < x
    ensures InChain(edges, d, edges[x].overflow)
    decreases if d < 0 then 0 else d + 1
  {
    if d != x { ChainNext(edges, edges[d].overflow, x); }
  }
}
