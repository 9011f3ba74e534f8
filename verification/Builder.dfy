/** The construction of a unit: rtl_add_insn and its helpers, the block handling of rtl-insn.c, and
    rtl_finalize_unit. */
module Builder {
  import opened Rtl
  import opened Semantics
  import opened Liveness
  import opened Flow
  import opened BlockEdges
  import opened Unit
  import opened Invariant
  import opened FoldConstants
  import opened Layout
  import opened Encoding
  import opened Requests
  import opened ThreadBranches
  import opened Optimize

  // ---- The state between calls ----

  /** The code as it would stand if the open block ended here. */
  function View(c: Code, open: bool): Code {
    if open && |c.spans| > 0 then c.(spans := c.spans[|c.spans| - 1 := c.spans[|c.spans| - 1].(last := |c.insns| - 1)])
    else c
  }

  /** Blocks tile the code from its first instruction to its last, only the last may be open, and it is closed exactly
      when it ends in GOTO or RETURN. */
  ghost predicate LayoutOK(
    c: Code, edges: seq<Edges>, owner: seq<int>, order: seq<int>, lastBlock: int, open: bool, cur: int)
  {
    var n := |c.spans|;
    && owner == Order(n) && order == Order(n) && lastBlock == n - 1 && Laid(View(c, open), edges)
    && (open ==> n > 0 && cur == n - 1 && c.spans[n - 1].last == -1 && OpenEnd(View(c, open)))
    && (!open && n > 0 ==> SpanOK(c, n - 1) && EndsBlock(LastInsn(c, n - 1).op) && !Falls(c, n - 1))
  }

  ghost predicate ValuesOK(x: Context, insns: seq<Insn>) {
    && Ready(x) && LiveOK(x.d, insns, x.regs, {}) && Clean(x.d, insns)
    && ConstOK(x.d, insns, x.regs) && TypedOK(x.d, insns, x.regs) && BranchesNamed(insns, |x.labels|)
  }

  /** Branches name allocated labels. */
  ghost predicate BranchesNamed(insns: seq<Insn>, n: int) {
    forall i :: 0 <= i < |insns| && IsBranch(insns[i].op) ==> 0 < insns[i].other < n
  }

  function ContextOf(unit: RtlUnit): Context
    reads unit
  {
    Context(unit.decl, unit.aliasTypes, unit.regs, unit.labels)
  }

  ghost predicate BlocksOK(unit: RtlUnit)
    reads unit
  {
    LayoutOK(unit.Snap(), unit.edges, unit.owner, unit.order, unit.lastBlock, unit.haveBlock, unit.curBlock)
  }

  ghost predicate Building(unit: RtlUnit)
    reads unit
  {
    !unit.finalized && BlocksOK(unit) && ValuesOK(ContextOf(unit), unit.insns) && Hinted(unit)
  }

  /** max_live_reg: no register born before a block has a higher number than the block records. */
  ghost predicate HintsOK(spans: seq<Span>, regs: seq<Reg>, maxLive: seq<int>) {
    |maxLive| <= |spans| && forall b :: 0 <= b < |maxLive| ==> HintOK(regs, spans[b].first, maxLive[b])
  }

  ghost predicate HintOK(regs: seq<Reg>, first: int, max: int) {
    max < |regs| && forall r :: 0 < r < |regs| && regs[r].live && regs[r].birth < first ==> r <= max
  }

  ghost predicate Hinted(unit: RtlUnit)
    reads unit
  {
    unit.firstLiveReg >= 0 && |unit.maxLive| == |unit.minDeath| == |unit.spans|
        && HintsOK(unit.spans, unit.regs, unit.maxLive)
  }

  lemma EmptyIsBuilding(unit: RtlUnit)
    requires unit.decl == Decl([INT64], [0]) && unit.regs == [UndefinedReg] && unit.labels == [-1]
    requires unit.aliasTypes == [INT64]
    requires unit.insns == [] && unit.spans == [] && unit.edges == [] && unit.owner == [] && unit.order == []
    requires unit.lastBlock == -1 && !unit.haveBlock && !unit.finalized && unit.maxLive == [] && unit.minDeath == []
    requires unit.firstLiveReg == 0
    ensures Building(unit)
  {
    assert EdgesOK([], []);
  }

  /** rtl_create_unit. */
  method CreateUnit() returns (unit: RtlUnit)
    ensures fresh(unit) && Building(unit) && unit.insns == [] && !unit.error
  {
    unit := new RtlUnit();
    EmptyIsBuilding(unit);
  }

  // ---- Declarations ----

  lemma MoreRegisters(x: Context, insns: seq<Insn>, t: Type)
    requires ValuesOK(x, insns)
    ensures ValuesOK(x.(d := x.d.(types := x.d.types + [t]), regs := x.regs + [UndefinedReg]), insns)
  {
    var d', regs' := x.d.(types := x.d.types + [t]), x.regs + [UndefinedReg];
    forall i | 0 <= i < |insns| ensures CleanInsn(d', insns[i]) && TypedInsn(d', insns[i]) {
      OperandsExist(x.d, insns, x.regs, i);
      SameTypes(x.d, d', |x.regs|, insns[i]);
    }
    forall r | 0 < r < |regs'|
      ensures Tight(d', insns, regs', r) && ResultReg(insns, regs', r)
      ensures regs'[r].live && regs'[r].source.CONSTANT? ==> ConstReg(d', insns, regs', r)
    {
      if r < |x.regs| {
        assert Tight(x.d, insns, x.regs, r) && ResultReg(insns, x.regs, r);
        if regs'[r].live && regs'[r].source.CONSTANT? { assert ConstReg(x.d, insns, x.regs, r); }
      }
    }
    forall i, r {:trigger Reads(d', insns[i], r)} | 0 <= i < |insns| && Reads(d', insns[i], r)
      ensures r < |regs'| && regs'[r].live && regs'[r].birth < i <= regs'[r].death
    {
      assert Reads(x.d, insns[i], r);
    }
  }

  /** The registers an instruction names exist. */
  lemma OperandsExist(d: Decl, insns: seq<Insn>, regs: seq<Reg>, i: int)
    requires LiveOK(d, insns, regs, {}) && Clean(d, insns) && TypedOK(d, insns, regs) && 0 <= i < |insns|
    ensures var insn := insns[i];
      && CleanInsn(d, insn) && TypedInsn(d, insn) && insn.dest < |regs| && insn.src1 < |regs| + 2 && insn.src2 < |regs|
      && (!insn.op.LABEL? ==> insn.src1 < |regs|) && (HasSrc3(insn.op) ==> insn.other < |regs|)
  {
    var insn := insns[i];
    assert CleanInsn(d, insn);
    if !insn.op.LABEL? {
      assert insn.src1 != 0 ==> Reads(d, insn, insn.src1);
      assert insn.src2 != 0 ==> Reads(d, insn, insn.src2);
      assert HasSrc3(insn.op) && insn.other != 0 ==> Reads(d, insn, insn.other);
    }
  }

  lemma SameTypes(d: Decl, d': Decl, n: nat, insn: Insn)
    requires TypedInsn(d, insn) && CleanInsn(d, insn) && d' == d.(types := d'.types) && d.types <= d'.types
    requires n <= |d.types|
    requires insn.dest < n && insn.src2 < n && (!insn.op.LABEL? ==> insn.src1 < n)
    requires HasSrc3(insn.op) ==> insn.other < n
    ensures TypedInsn(d', insn) && CleanInsn(d', insn)
  {
    assert TypeOf(d', insn.dest) == TypeOf(d, insn.dest) && TypeOf(d', insn.src2) == TypeOf(d, insn.src2);
    if !insn.op.LABEL? { assert TypeOf(d', insn.src1) == TypeOf(d, insn.src1); }
    if HasSrc3(insn.op) { assert TypeOf(d', insn.other) == TypeOf(d, insn.other); }
    hide TypeOf, IsVector, IsInt, ElementType;
  }

  /** The layout does not depend on declarations, nor on labels that are not placed. */
  lemma DeclaredLayout(
    c: Code, c': Code, edges: seq<Edges>, owner: seq<int>, order: seq<int>, lastBlock: int, open: bool, cur: int)
    requires LayoutOK(c, edges, owner, order, lastBlock, open, cur) && c' == c.(decl := c'.decl, labels := c'.labels)
    requires c'.labels == c.labels || (|c.labels| > 0 && c'.labels == c.labels + [-1])
    ensures LayoutOK(c', edges, owner, order, lastBlock, open, cur)
  {
    hide BlocksLaid, EdgesLaid, LabelsLaid, CutsLaid;
    DeclaredBlocks(View(c, open), View(c', open), edges);
    DeclaredLabels(View(c, open), View(c', open));
  }

  lemma DeclaredBlocks(v: Code, v': Code, edges: seq<Edges>)
    requires BlocksLaid(v) && EdgesLaid(v, edges) && CutsLaid(v, |v.spans|, |v.spans|)
    requires v' == v.(decl := v'.decl, labels := v'.labels)
    ensures BlocksLaid(v') && EdgesLaid(v', edges) && CutsLaid(v', |v.spans|, |v.spans|)
  {
    hide EdgesOK;
    forall b | 0 <= b < |v.spans| ensures SpanOK(v', b) && BlockLaid(v', b) { assert SpanOK(v, b) && BlockLaid(v, b); }
    forall b | 0 <= b < |v.spans|
      ensures ExitSet(edges[b]) == FallExit(v', b) && |edges[b].exits| == 2 && FallsFirst(v', edges, b)
    {
      assert ExitSet(edges[b]) == FallExit(v, b) && FallsFirst(v, edges, b);
    }
    forall b | 0 < b < |v.spans| ensures CutAt(v', b) { assert CutAt(v, b); }
  }

  lemma DeclaredLabels(v: Code, v': Code)
    requires BlocksLaid(v) && LabelsLaid(v) && BlocksLaid(v') && v' == v.(decl := v'.decl, labels := v'.labels)
    requires v'.labels == v.labels || (|v.labels| > 0 && v'.labels == v.labels + [-1])
    ensures LabelsLaid(v')
  {
    forall l | 0 < l < |v'.labels| && v'.labels[l] >= 0
      ensures v'.labels[l] in Order(|v.spans|) && StartsWithLabel(v', v'.labels[l])
      ensures v'.insns[v'.spans[v'.labels[l]].first].other == l
    {
      assert v.labels[l] in Order(|v.spans|) && StartsWithLabel(v, v.labels[l]);
    }
    forall b | 0 <= b < |v.spans| && SpanOK(v', b) && StartsWithLabel(v', b)
      ensures var l := v'.insns[v'.spans[b].first].other; 0 < l < |v'.labels| && v'.labels[l] == b
    {
      assert StartsWithLabel(v, b) && b in Order(|v.spans|);
    }
  }

  /** rtl_alloc_register. */
  method AllocRegister(unit: RtlUnit, t: Type) returns (r: nat)
    requires Building(unit)
    modifies unit`decl, unit`regs
    ensures Building(unit) && r == |old(unit.regs)|
    ensures unit.regs == old(unit.regs) + [UndefinedReg]
    ensures unit.decl == old(unit.decl).(types := old(unit.decl).types + [t])
  {
    hide LayoutOK, ValuesOK;
    r := |unit.regs|;
    MoreRegisters(ContextOf(unit), unit.insns, t);
    ghost var c := unit.Snap();
    unit.regs := unit.regs + [UndefinedReg];
    unit.decl := unit.decl.(types := unit.decl.types + [t]);
    DeclaredLayout(c, unit.Snap(), unit.edges, unit.owner, unit.order, unit.lastBlock, unit.haveBlock, unit.curBlock);
    forall b | 0 <= b < |unit.maxLive| ensures HintOK(unit.regs, unit.spans[b].first, unit.maxLive[b]) {
      assert HintOK(old(unit.regs), unit.spans[b].first, unit.maxLive[b]);
    }
  }

  lemma RelabelledValues(x: Context, insns: seq<Insn>, labels': seq<int>)
    requires ValuesOK(x, insns) && |labels'| >= |x.labels| && labels'[..1] == [-1]
    ensures |x.labels| > 0 && ValuesOK(x.(labels := labels'), insns)
  {
    hide LiveOK, Clean, ConstOK, TypedOK;
  }

  /** rtl_alloc_label. */
  method AllocLabel(unit: RtlUnit) returns (l: nat)
    requires Building(unit)
    modifies unit`labels
    ensures Building(unit) && l == |old(unit.labels)| && unit.labels == old(unit.labels) + [-1]
  {
    hide LayoutOK, ValuesOK;
    ghost var c := unit.Snap();
    l := |unit.labels|;
    LabelZero(ContextOf(unit), unit.insns);
    RelabelledValues(ContextOf(unit), unit.insns, unit.labels + [-1]);
    unit.labels := unit.labels + [-1];
    DeclaredLayout(c, unit.Snap(), unit.edges, unit.owner, unit.order, unit.lastBlock, unit.haveBlock, unit.curBlock);
  }

  lemma LabelZero(x: Context, insns: seq<Insn>)
    requires ValuesOK(x, insns)
    ensures |x.labels| > 0 && x.labels[0] == -1 && |x.d.base| == |x.aliasTypes| > 0 && |x.regs| == |x.d.types| > 0
  {}

  // ---- Aliases ----

  lemma RebasedReads(d: Decl, d': Decl, insns: seq<Insn>, i: int, r: int)
    requires Clean(d, insns) && 0 <= i < |insns| && d' == d.(base := d'.base) && |d.base| <= |d'.base|
    requires HasAlias(insns[i].op) ==> d'.base[insns[i].other] == d.base[insns[i].other]
    ensures Reads(d', insns[i], r) == Reads(d, insns[i], r) && Names(d', insns[i], r) == Names(d, insns[i], r)
    ensures CleanInsn(d', insns[i]) && (TypedInsn(d, insns[i]) ==> TypedInsn(d', insns[i]))
  {
    assert CleanInsn(d, insns[i]);
    hide IsVector, IsInt, ElementType;
  }

  /** Changing the storage of aliases no instruction uses yet. */
  lemma RebasedValues(x: Context, x': Context, insns: seq<Insn>)
    requires ValuesOK(x, insns) && x' == x.(d := x.d.(base := x'.d.base), aliasTypes := x'.aliasTypes)
    requires |x'.d.base| == |x'.aliasTypes| >= |x.d.base| && x'.d.base[0] == 0
    requires forall i :: 0 <= i < |insns| && HasAlias(insns[i].op) && 0 <= insns[i].other < |x.d.base| ==>
               x'.d.base[insns[i].other] == x.d.base[insns[i].other]
    requires forall a :: 0 <= a < |x'.d.base| && x'.d.base[a] != 0 ==>
               x'.d.base[a] < |x.regs| && x.regs[x'.d.base[a]].live
    ensures ValuesOK(x', insns)
  {
    forall i, r | 0 <= i < |insns|
      ensures Reads(x'.d, insns[i], r) == Reads(x.d, insns[i], r) && Names(x'.d, insns[i], r) == Names(x.d, insns[i], r)
      ensures CleanInsn(x'.d, insns[i]) && TypedInsn(x'.d, insns[i])
    {
      assert CleanInsn(x.d, insns[i]) && TypedInsn(x.d, insns[i]);
      RebasedReads(x.d, x'.d, insns, i, r);
    }
    RebasedLive(x.d, x'.d, insns, x.regs);
    hide Reads, Names, CleanInsn, TypedInsn;
    forall i | 0 <= i < |insns| ensures CleanInsn(x'.d, insns[i]) && TypedInsn(x'.d, insns[i]) {
      assert Reads(x'.d, insns[i], 0) == Reads(x.d, insns[i], 0);
    }
    forall r | 0 < r < |x.regs| && x.regs[r].live && x.regs[r].source.CONSTANT?
      ensures ConstReg(x'.d, insns, x.regs, r) {
      assert ConstReg(x.d, insns, x.regs, r);
    }
  }

  lemma RebasedLive(d: Decl, d': Decl, insns: seq<Insn>, regs: seq<Reg>)
    requires LiveOK(d, insns, regs, {})
    requires forall i, r {:trigger Reads(d', insns[i], r)} {:trigger Names(d', insns[i], r)} :: 0 <= i < |insns| ==>
               Reads(d', insns[i], r) == Reads(d, insns[i], r) && Names(d', insns[i], r) == Names(d, insns[i], r)
    ensures LiveOK(d', insns, regs, {})
  {
    forall i, r {:trigger Reads(d', insns[i], r)} | 0 <= i < |insns| && Reads(d', insns[i], r)
      ensures r < |regs| && regs[r].live && regs[r].birth < i <= regs[r].death
    {
      assert Reads(d, insns[i], r);
    }
    forall r | 0 < r < |regs| ensures Tight(d', insns, regs, r) { assert Tight(d, insns, regs, r); }
  }

  /** rtl_alloc_alias_register. */
  method AllocAlias(unit: RtlUnit, t: Type) returns (a: nat)
    requires Building(unit)
    modifies unit`decl, unit`aliasTypes
    ensures Building(unit) && a == |old(unit.aliasTypes)| && unit.aliasTypes == old(unit.aliasTypes) + [t]
    ensures unit.decl == old(unit.decl).(base := old(unit.decl).base + [0])
  {
    hide LayoutOK;
    ghost var c, x := unit.Snap(), ContextOf(unit);
    LabelZero(x, unit.insns);
    a := |unit.aliasTypes|;
    RebasedValues(x, x.(d := x.d.(base := x.d.base + [0]), aliasTypes := x.aliasTypes + [t]), unit.insns);
    unit.decl := unit.decl.(base := unit.decl.base + [0]);
    unit.aliasTypes := unit.aliasTypes + [t];
    DeclaredLayout(c, unit.Snap(), unit.edges, unit.owner, unit.order, unit.lastBlock, unit.haveBlock, unit.curBlock);
  }

  /** rtl_set_alias_storage.  The caller binds an alias before the first instruction that uses it, to a register that
      has been set. */
  method SetAliasStorage(unit: RtlUnit, a: nat, base: nat) returns (ok: bool)
    requires Building(unit)
    requires 0 < base < |unit.regs| ==> unit.regs[base].live
    requires forall i :: 0 <= i < |unit.insns| && HasAlias(unit.insns[i].op) ==> unit.insns[i].other != a
    modifies unit`decl
    ensures Building(unit)
    ensures ok <==> 0 < a < |unit.aliasTypes| && 0 < base < |unit.regs| && TypeOf(old(unit.decl), base).ADDRESS?
    ensures unit.decl == if ok then old(unit.decl).(base := old(unit.decl).base[a := base]) else old(unit.decl)
  {
    hide LayoutOK;
    ghost var c, x := unit.Snap(), ContextOf(unit);
    LabelZero(x, unit.insns);
    if a == 0 || a >= |unit.aliasTypes| { return false; }
    if base == 0 || base >= |unit.regs| { return false; }
    if !unit.decl.types[base].ADDRESS? { return false; }
    RebasedValues(x, x.(d := x.d.(base := x.d.base[a := base])), unit.insns);
    unit.decl := unit.decl.(base := unit.decl.base[a := base]);
    DeclaredLayout(c, unit.Snap(), unit.edges, unit.owner, unit.order, unit.lastBlock, unit.haveBlock, unit.curBlock);
    return true;
  }

  // ---- Register metadata ----

  /** Register r, if it is one, has been marked live at k. */
  function Touched(regs: seq<Reg>, r: int, k: int): seq<Reg>
    requires 0 <= r < |regs|
  {
    if r == 0 then regs
    else regs[r := regs[r].(live := true, birth := if regs[r].live then regs[r].birth else k, death := k)]
  }

  lemma TouchedAt(regs: seq<Reg>, s: int, k: int, r: int)
    requires 0 <= s < |regs| && 0 <= r < |regs|
    ensures |Touched(regs, s, k)| == |regs|
    ensures r != s || s == 0 ==> Touched(regs, s, k)[r] == regs[r]
    ensures r == s != 0 && regs[r].live ==> Touched(regs, s, k)[r] == regs[r].(death := k)
    ensures r == s != 0 && !regs[r].live ==> Touched(regs, s, k)[r] == regs[r].(live := true, birth := k, death := k)
  {}

  /** rtl_mark_live. */
  method MarkLive(unit: RtlUnit, k: int, r: int)
    requires 0 <= r < |unit.regs| && 0 <= unit.curBlock < |unit.maxLive|
    modifies unit`regs, unit`firstLiveReg, unit`maxLive
    ensures unit.regs == Touched(old(unit.regs), r, k)
    ensures Raised(old(unit.maxLive), unit.maxLive, unit.curBlock, |unit.regs|)
    ensures r != 0 ==> r <= unit.maxLive[unit.curBlock]
    ensures unit.firstLiveReg ==
      if r == 0 || old(unit.regs)[r].live || old(unit.firstLiveReg) != 0 then old(unit.firstLiveReg) else r
  {
    if r != 0 {
      if !unit.regs[r].live {
        unit.regs := unit.regs[r := unit.regs[r].(live := true, birth := k)];
        if unit.firstLiveReg == 0 { unit.firstLiveReg := r; }
      }
      unit.regs := unit.regs[r := unit.regs[r].(death := k)];
      if unit.maxLive[unit.curBlock] < r {
        unit.maxLive := unit.maxLive[unit.curBlock := r];
      }
    }
  }

  /** Entry cur, and no other, may have grown, to at most a register number below n. */
  predicate Raised(before: seq<int>, after: seq<int>, cur: int, n: int) {
    && 0 <= cur < |before| == |after| && after == before[cur := after[cur]]
    && before[cur] <= after[cur] && (before[cur] < n ==> after[cur] < n)
  }

  /** The fields of an instruction are usable: its destination is new, everything it reads is live. */
  ghost predicate Sound(d: Decl, regs: seq<Reg>, insn: Insn) {
    && (insn.dest != 0 ==> insn.dest < |regs| && !regs[insn.dest].live) && |regs| > 0
    && (HasAlias(insn.op) ==> 0 <= insn.other < |d.base|) && (HasSrc3(insn.op) ==> insn.other >= 0)
    && (insn.op.LABEL? ==> insn.src1 == 0 && insn.src2 == 0)
    && forall r :: Reads(d, insn, r) ==> r < |regs| && regs[r].live
  }

  function Src3(insn: Insn): int { if HasSrc3(insn.op) then insn.other else 0 }

  function BaseOf(d: Decl, insn: Insn): int {
    if HasAlias(insn.op) && 0 <= insn.other < |d.base| then d.base[insn.other] else 0
  }

  lemma ReadsAre(d: Decl, regs: seq<Reg>, insn: Insn, r: int)
    requires Sound(d, regs, insn)
    ensures Reads(d, insn, r) <==>
              r > 0 && (r == insn.src1 || r == insn.src2 || r == Src3(insn) || r == BaseOf(d, insn))
    ensures 0 <= insn.src1 < |regs| && 0 <= insn.src2 < |regs| && 0 <= Src3(insn) < |regs|
    ensures 0 <= BaseOf(d, insn) < |regs|
    ensures Reads(d, insn, r) ==> regs[r].live
  {
    assert !insn.op.LABEL? && insn.src1 != 0 ==> Reads(d, insn, insn.src1);
    assert !insn.op.LABEL? && insn.src2 != 0 ==> Reads(d, insn, insn.src2);
    assert HasSrc3(insn.op) && insn.other != 0 ==> Reads(d, insn, insn.other);
    assert HasAlias(insn.op) && d.base[insn.other] != 0 ==> Reads(d, insn, d.base[insn.other]);
  }

  /** The destination register as the encoding functions leave it. */
  function WithDest(regs: seq<Reg>, insn: Insn, k: int): seq<Reg>
    requires insn.dest < |regs|
  {
    var reg := regs[insn.dest].(source := SourceOf(insn.op));
    if insn.dest == 0 then regs
    else Touched(regs[insn.dest := if insn.op.LOAD_IMM? then reg.(value := insn.other) else reg], insn.dest, k)
  }

  lemma RecordedReg(
    d: Decl, regs: seq<Reg>, insn: Insn, k: int, regs1: seq<Reg>, regs2: seq<Reg>, regs3: seq<Reg>, regs4: seq<Reg>,
    r: int)
    requires Sound(d, regs, insn) && 0 <= r < |regs| == |regs1| == |regs2| == |regs3| == |regs4| && insn.dest < |regs|
    requires 0 <= insn.src1 < |regs| && 0 <= insn.src2 < |regs| && 0 <= Src3(insn) < |regs|
    requires 0 <= BaseOf(d, insn) < |regs|
    requires regs1 == WithDest(regs, insn, k) && regs2 == Touched(regs1, insn.src1, k)
    requires regs3 == Touched(regs2, insn.src2, k) && regs4 == Touched(regs3, Src3(insn), k)
    ensures var regs' := Touched(regs4, BaseOf(d, insn), k); |regs'| == |regs| && MarkedReg(d, regs, regs', insn, k, r)
  {
    assert regs1[r] == regs[r] || r == insn.dest != 0;
    ReadsAre(d, regs, insn, r);
    if insn.dest != 0 { ReadsAre(d, regs, insn, insn.dest); }
    hide Touched, Reads, Src3, BaseOf, WithDest;
    TouchedAt(regs1, insn.src1, k, r);
    TouchedAt(regs2, insn.src2, k, r);
    TouchedAt(regs3, Src3(insn), k, r);
    TouchedAt(regs4, BaseOf(d, insn), k, r);
  }

  lemma RaisedSame(a: seq<int>, cur: int, n: int)
    requires 0 <= cur < |a|
    ensures Raised(a, a, cur, n)
  {}

  /** The destination register. */
  method RecordDest(unit: RtlUnit, insn: Insn, k: int)
    requires insn.dest < |unit.regs| && 0 <= unit.curBlock < |unit.maxLive|
    modifies unit`regs, unit`firstLiveReg, unit`maxLive
    ensures unit.regs == WithDest(old(unit.regs), insn, k)
    ensures Raised(old(unit.maxLive), unit.maxLive, unit.curBlock, |unit.regs|)
    ensures old(unit.firstLiveReg) >= 0 ==> unit.firstLiveReg >= 0
  {
    hide Touched;
    ghost var regs := unit.regs;
    if insn.dest != 0 {
      unit.regs := unit.regs[insn.dest := unit.regs[insn.dest].(source := SourceOf(insn.op))];
      if insn.op.LOAD_IMM? {
        unit.regs := unit.regs[insn.dest := unit.regs[insn.dest].(value := insn.other)];
      }
      ghost var reg := regs[insn.dest].(source := SourceOf(insn.op));
      assert unit.regs == regs[insn.dest := if insn.op.LOAD_IMM? then reg.(value := insn.other) else reg];
      MarkLive(unit, k, insn.dest);
    } else {
      RaisedSame(unit.maxLive, unit.curBlock, |unit.regs|);
    }
  }

  /** The register updates of the encoding functions. */
  method RecordOperands(unit: RtlUnit, insn: Insn)
    requires Sound(unit.decl, unit.regs, insn) && 0 <= unit.curBlock < |unit.maxLive|
    modifies unit`regs, unit`firstLiveReg, unit`maxLive
    ensures Marked(unit.decl, old(unit.regs), unit.regs, insn, |unit.insns|)
    ensures Raised(old(unit.maxLive), unit.maxLive, unit.curBlock, |unit.regs|)
    ensures old(unit.firstLiveReg) >= 0 ==> unit.firstLiveReg >= 0
  {
    hide Sound, Reads, MarkedReg, Touched, WithDest, Src3, BaseOf;
    ghost var d, regs, maxLive := unit.decl, unit.regs, unit.maxLive;
    var k := |unit.insns|;
    ReadsAre(d, regs, insn, 0);
    DestFits(d, regs, insn);
    WithDestSize(regs, insn, k);
    RecordDest(unit, insn, k);
    ghost var regs1 := unit.regs;
    TouchedAt(regs1, insn.src1, k, 0);
    MarkLive(unit, k, insn.src1);
    ghost var regs2 := unit.regs;
    TouchedAt(regs2, insn.src2, k, 0);
    MarkLive(unit, k, insn.src2);
    ghost var regs3 := unit.regs;
    TouchedAt(regs3, Src3(insn), k, 0);
    MarkLive(unit, k, Src3(insn));
    ghost var regs4 := unit.regs;
    TouchedAt(regs4, BaseOf(d, insn), k, 0);
    MarkLive(unit, k, BaseOf(unit.decl, insn));
    forall r | 0 <= r < |regs| ensures MarkedReg(d, regs, unit.regs, insn, k, r) {
      RecordedReg(d, regs, insn, k, regs1, regs2, regs3, regs4, r);
    }
  }

  lemma DestFits(d: Decl, regs: seq<Reg>, insn: Insn)
    requires Sound(d, regs, insn)
    ensures insn.dest < |regs|
  {}

  lemma WithDestSize(regs: seq<Reg>, insn: Insn, k: int)
    requires insn.dest < |regs|
    ensures |WithDest(regs, insn, k)| == |regs|
  {}

  // ---- Blocks ----

  /** rtl_block_add. */
  method BlockAdd(unit: RtlUnit)
    requires unit.owner == unit.order == Order(|unit.spans|) && |unit.edges| == |unit.spans|
    requires unit.lastBlock == |unit.spans| - 1
    modifies unit`spans, unit`edges, unit`owner, unit`order, unit`lastBlock, unit`maxLive, unit`minDeath
    ensures unit.maxLive == old(unit.maxLive) + [|unit.regs| - 1] && unit.minDeath == old(unit.minDeath) + [0]
    ensures var n := |old(unit.spans)|;
      && unit.owner == unit.order == Order(n + 1) && unit.edges == old(unit.edges) + [NoEdges] && unit.lastBlock == n
      && unit.spans
           == (if n > 0 then old(unit.spans)[n - 1 := old(unit.spans)[n - 1].(next := n)]
               else []) + [Span(0, -1, -1, n - 1)]
  {
    var index := |unit.spans|;
    unit.spans := unit.spans + [Span(0, -1, -1, unit.lastBlock)];
    if unit.lastBlock >= 0 {
      unit.spans := unit.spans[unit.lastBlock := unit.spans[unit.lastBlock].(next := index)];
    }
    unit.lastBlock := index;
    unit.edges := unit.edges + [NoEdges];
    unit.maxLive, unit.minDeath := unit.maxLive + [|unit.regs| - 1], unit.minDeath + [0];
    unit.owner, unit.order := unit.owner + [index], unit.order + [index];
    assert unit.owner == Order(index + 1);
  }

  /** rtl_add_insn_with_new_block, up to the addition of the instruction. */
  method StartBlock(unit: RtlUnit)
    requires BlocksOK(unit) && !unit.haveBlock && Hinted(unit)
    modifies unit`spans, unit`edges, unit`owner, unit`order, unit`lastBlock, unit`haveBlock, unit`curBlock,
      unit`maxLive, unit`minDeath
    ensures BlocksOK(unit) && unit.haveBlock && Hinted(unit)
  {
    hide Laid, EndsBlock, HintsOK;
    ghost var c, edges := unit.Snap(), unit.edges;
    LaidSizes(c, edges);
    BlockAdd(unit);
    unit.haveBlock := true;
    unit.curBlock := |unit.spans| - 1;
    unit.spans := unit.spans[unit.curBlock := unit.spans[unit.curBlock].(first := |unit.insns|)];
    NewBlockLaid(c, edges, unit.edges);
    assert View(unit.Snap(), true).spans == WithBlock(c).spans;
    HintsAfterBlock(c.spans, unit.spans, unit.regs, old(unit.maxLive));
  }

  /** A new block records the highest register number there is. */
  lemma HintsAfterBlock(spans: seq<Span>, spans': seq<Span>, regs: seq<Reg>, maxLive: seq<int>)
    requires HintsOK(spans, regs, maxLive) && |maxLive| == |spans| && |spans'| == |spans| + 1
    requires forall b :: 0 <= b < |spans| ==> spans'[b].first == spans[b].first
    ensures HintsOK(spans', regs, maxLive + [|regs| - 1])
  {
    forall b | 0 <= b < |spans'| ensures HintOK(regs, spans'[b].first, (maxLive + [|regs| - 1])[b]) {
      if b < |spans| { assert HintOK(regs, spans[b].first, maxLive[b]); }
    }
  }

  lemma LaidSizes(c: Code, edges: seq<Edges>)
    requires Laid(c, edges)
    ensures |edges| == |c.spans| && forall b :: 0 <= b < |c.spans| ==> SpanOK(c, b)
  {}

  lemma NewBlockLaid(c: Code, edges: seq<Edges>, edges': seq<Edges>)
    requires Laid(c, edges) && edges' == edges + [NoEdges]
    requires |c.spans| > 0 ==>
               SpanOK(c, |c.spans| - 1) && EndsBlock(LastInsn(c, |c.spans| - 1).op) && !Falls(c, |c.spans| - 1)
    ensures Laid(WithBlock(c), edges') && OpenEnd(WithBlock(c))
  {
    hide BlocksLaid, EdgesOK, LabelsLaid, LastInsn;
    assert EdgesOK(edges, Order(|edges|));
    EdgesAfterBlock(edges);
    BlockStep(c, edges, edges');
  }

  /** Closing the current block and going on in a new one to which control falls through (make_label,
      make_goto_cond). */
  method ContinueInNewBlock(unit: RtlUnit, first: int, ghost c: Code)
    requires unit.spans == c.spans && |c.spans| > 0 && AlmostLaid(c, unit.edges, |c.spans|, |c.spans| - 1)
    requires SpanOK(c, |c.spans| - 1) && Falls(c, |c.spans| - 1)
    requires unit.owner == unit.order == Order(|c.spans|) && unit.lastBlock == unit.curBlock == |c.spans| - 1
    requires first == |c.insns|
    requires Hinted(unit)
    modifies unit`spans, unit`edges, unit`owner, unit`order, unit`lastBlock, unit`curBlock, unit`maxLive, unit`minDeath
    ensures Hinted(unit)
    ensures var n := |c.spans|;
      && unit.spans == WithBlock(c).spans[n := WithBlock(c).spans[n].(last := -1)]
      && unit.owner == unit.order == Order(n + 1) && unit.lastBlock == unit.curBlock == n
      && AlmostLaid(WithBlock(c), unit.edges, n, n + 1) && OpenEnd(WithBlock(c)) && IsEmpty(WithBlock(c), n)
      && (EndsBlock(LastInsn(c, n - 1).op) ==> Laid(WithBlock(c), unit.edges))
  {
    hide AlmostLaid, Laid, EdgesOK, LastInsn, Falls, HintsOK;
    ghost var n, edges := |c.spans|, unit.edges;
    AlmostSizes(c, edges);
    BlockAdd(unit);
    var newBlock := |unit.spans| - 1;
    EdgesAfterBlock(edges);
    NewBlockExits(edges, n);
    AreSized(unit.edges, unit.owner);
    var ok := AddEdge(unit, unit.curBlock, newBlock);
    assert ok;
    AreSized(unit.edges, unit.owner);
    assert unit.owner == Order(n + 1);
    unit.curBlock := newBlock;
    unit.spans := unit.spans[unit.curBlock := unit.spans[unit.curBlock].(first := first)];
    EdgeGiven(c, edges, unit.edges);
    BlockStep(c, edges, unit.edges);
    HintsAfterBlock(c.spans, unit.spans, unit.regs, old(unit.maxLive));
  }

  lemma AlmostSizes(c: Code, edges: seq<Edges>)
    requires AlmostLaid(c, edges, |c.spans|, |c.spans| - 1) && |c.spans| > 0
    ensures |edges| == |c.spans| && EdgesOK(edges, Order(|edges|)) && |ExitSet(edges[|c.spans| - 1])| == 0
    ensures ExitSet(edges[|c.spans| - 1]) == {}
  {
    hide EdgesOK;
    var n := |c.spans|;
    assert SpanOK(c, n - 1) && BlockLaid(c, n - 1);
    assert ExitSet(edges[n - 1]) == FallExit(c, n - 1) == {};
  }

  lemma NewBlockExits(edges: seq<Edges>, n: nat)
    requires n == |edges| > 0 && EdgesOK(edges, Order(n)) && EdgesOK(edges + [NoEdges], Order(n + 1))
    requires ExitSet(edges[n - 1]) == {}
    ensures |(edges + [NoEdges])[n - 1].exits| == 2 && (edges + [NoEdges])[n - 1].exits[0] < 0
    ensures IsReal(Order(n + 1), n - 1) && IsReal(Order(n + 1), n)
  {
    NoOverflow(edges, n - 1);
    NoExits(edges[n - 1]);
  }

  lemma NoExits(e: Edges)
    requires |e.exits| == 2 && ExitSet(e) == {}
    ensures e.exits[0] < 0
  {
    var x := e.exits[0];
    assert x in ExitSet(e) <==> x >= 0;
  }

  lemma EdgeGiven(c: Code, edges: seq<Edges>, edges': seq<Edges>)
    requires |c.spans| > 0 && SpanOK(c, |c.spans| - 1) && Falls(c, |c.spans| - 1) && |edges| == |c.spans|
    requires |edges'| == |edges| + 1
    requires EdgesOK(edges', Order(|edges'|)) && AllSized(edges') && AllSized(edges + [NoEdges])
    requires forall b :: 0 <= b < |edges'| && b != |edges| - 1 ==> edges'[b].exits == (edges + [NoEdges])[b].exits
    requires forall b :: 0 <= b < |edges'| && (edges + [NoEdges])[b].entries[0] >= 0 ==>
               edges'[b].entries[0] == (edges + [NoEdges])[b].entries[0]
    requires ExitSet(edges'[|edges| - 1]) == ExitSet(edges[|edges| - 1]) + {|edges|}
    requires edges'[|edges| - 1].exits[0] == |edges| && edges'[|edges|].entries[0] == |edges| - 1
    ensures BlockEdgesAdded(c, edges, edges')
  {}

  // ---- The encoding functions ----

  lemma EncodedSound(x: Context, q: Request)
    requires Ready(x) && InRange(x, q) && Regular(q) && Accepts(x, q)
    ensures Sound(x.d, x.regs, Encode(x, q)) && (q.op.LABEL? ==> Encode(x, q).src1 == 0)
  {
    hide Encode, Accepts, Regular;
    EncodedClean(x, q);
    EncodedDest(x, q);
    EncodedOp(x, q);
    forall r | Reads(x.d, Encode(x, q), r) ensures r < |x.regs| && x.regs[r].live { EncodedReads(x, q, r); }
  }

  lemma AppendValues(x: Context, insns: seq<Insn>, regs': seq<Reg>, labels': seq<int>, q: Request)
    requires ValuesOK(x, insns) && InRange(x, q) && Regular(q) && Accepts(x, q)
    requires Marked(x.d, x.regs, regs', Encode(x, q), |insns|) && |labels'| == |x.labels| > 0 && labels'[0] == -1
    ensures ValuesOK(x.(regs := regs', labels := labels'), insns + [Encode(x, q)])
  {
    hide Ready, InRange, Regular, Accepts, Encode, Marked, LiveOK, ConstOK, TypedOK;
    AppendLive(x, insns, regs', q);
    AppendSsaOf(x.d, insns, x.regs);
    AppendConstants(x, insns, regs', q);
    AppendTyped(x, insns, regs', q);
    AppendReady(x, regs', q, |insns|);
    EncodedClean(x, q);
    EncodedBranch(x, q);
    RelabelledReady(x.(regs := regs'), labels');
  }

  lemma AppendSsaOf(d: Decl, insns: seq<Insn>, regs: seq<Reg>)
    requires LiveOK(d, insns, regs, {})
    ensures SsaOK(insns, regs)
  {}

  lemma EncodedBranch(x: Context, q: Request)
    requires InRange(x, q) && Accepts(x, q)
    ensures IsBranch(Encode(x, q).op) ==> 0 < Encode(x, q).other < |x.labels|
  {}

  lemma RelabelledReady(x: Context, labels': seq<int>)
    requires Ready(x) && |labels'| > 0 && labels'[0] == -1
    ensures Ready(x.(labels := labels'))
  {}

  /** LayoutOK once the instruction being added is counted. */
  ghost predicate LayoutWith(unit: RtlUnit, insn: Insn)
    reads unit
  {
    LayoutOK(unit.Snap().(insns := unit.insns + [insn]), unit.edges, unit.owner, unit.order, unit.lastBlock,
             unit.haveBlock, unit.curBlock)
  }

  lemma OpenView(c: Code, insn: Insn)
    requires |c.spans| > 0
    ensures View(c.(insns := c.insns + [insn]), true) == WithInsn(View(c, true), insn).(labels := c.labels)
  {}

  lemma OpenLayout(c: Code, edges: seq<Edges>, owner: seq<int>, order: seq<int>, lastBlock: int, cur: int)
    requires LayoutOK(c, edges, owner, order, lastBlock, true, cur)
    ensures var n := |c.spans|;
      && n > 0 && cur == lastBlock == n - 1 && owner == order == Order(n) && |edges| == n && |View(c, true).spans| == n
      && SpanOK(View(c, true), n - 1) && Falls(View(c, true), n - 1) && OpenEnd(View(c, true))
      && AlmostLaid(View(c, true), edges, n, n) && AlmostLaid(View(c, true), edges, n - 1, n)
      && AlmostLaid(View(c, true), edges, n, n - 1)
      && (c.spans[n - 1].first == |c.insns| <==> IsEmpty(View(c, true), n - 1)) && c.spans[n - 1].last == -1
  {
    hide EdgesLaid, LabelsLaid;
    LaidSizes(View(c, true), edges);
  }

  /** An instruction that neither starts nor ends a block. */
  lemma PlainLayout(c: Code, edges: seq<Edges>, owner: seq<int>, order: seq<int>, lastBlock: int, cur: int, insn: Insn)
    requires LayoutOK(c, edges, owner, order, lastBlock, true, cur) && IsPlain(insn.op)
    ensures LayoutOK(c.(insns := c.insns + [insn]), edges, owner, order, lastBlock, true, cur)
  {
    hide BlocksLaid, EdgesLaid, LabelsLaid, CutsLaid, LastInsn;
    OpenLayout(c, edges, owner, order, lastBlock, cur);
    InsnStep(View(c, true), edges, insn, c.labels);
    OpenView(c, insn);
  }

  /** make_goto, make_return: the instruction being added is the last of its block. */
  method EndBlock(unit: RtlUnit, insn: Insn)
    requires BlocksOK(unit) && unit.haveBlock && (insn.op.GOTO? || insn.op.RETURN?) && Hinted(unit)
    modifies unit`spans, unit`haveBlock
    ensures LayoutWith(unit, insn) && !unit.haveBlock && Hinted(unit)
  {
    hide BlocksLaid, EdgesLaid, LabelsLaid, CutsLaid, LayoutOK;
    ghost var c := unit.Snap();
    OpenLayout(c, unit.edges, unit.owner, unit.order, unit.lastBlock, unit.curBlock);
    InsnStep(View(c, true), unit.edges, insn, c.labels);
    unit.spans := unit.spans[unit.curBlock := unit.spans[unit.curBlock].(last := |unit.insns|)];
    unit.haveBlock := false;
    assert unit.Snap().(insns := unit.insns + [insn]) == WithInsn(View(c, true), insn).(labels := c.labels);
    ClosedLayout(unit.Snap().(insns := unit.insns + [insn]), unit.edges, unit.curBlock);
    HintsSame(c.spans, unit.spans, unit.regs, unit.maxLive);
  }

  lemma HintsSame(spans: seq<Span>, spans': seq<Span>, regs: seq<Reg>, maxLive: seq<int>)
    requires HintsOK(spans, regs, maxLive) && |maxLive| <= |spans'|
    requires forall b :: 0 <= b < |maxLive| ==> spans'[b].first == spans[b].first
    ensures HintsOK(spans', regs, maxLive)
  {
    forall b | 0 <= b < |maxLive| ensures HintOK(regs, spans'[b].first, maxLive[b]) {
      assert HintOK(regs, spans[b].first, maxLive[b]);
    }
  }

  lemma ClosedLayout(c: Code, edges: seq<Edges>, cur: int)
    requires AlmostLaid(c, edges, |c.spans|, |c.spans|) && |c.spans| > 0
    requires SpanOK(c, |c.spans| - 1) && EndsBlock(LastInsn(c, |c.spans| - 1).op) && !Falls(c, |c.spans| - 1)
    ensures LayoutOK(c, edges, Order(|c.spans|), Order(|c.spans|), |c.spans| - 1, false, cur)
  {
    hide BlocksLaid, EdgesLaid, LabelsLaid, CutsLaid;
  }

  lemma OpenedLayout(c: Code, v: Code, edges: seq<Edges>)
    requires |c.spans| > 0 && v == View(c, true) && AlmostLaid(v, edges, |c.spans|, |c.spans|) && OpenEnd(v)
    requires c.spans[|c.spans| - 1].last == -1
    ensures LayoutOK(c, edges, Order(|c.spans|), Order(|c.spans|), |c.spans| - 1, true, |c.spans| - 1)
  {
    hide BlocksLaid, EdgesLaid, LabelsLaid, CutsLaid;
  }

  /** make_label. */
  method MakeLabel(unit: RtlUnit, insn: Insn)
    requires BlocksOK(unit) && unit.haveBlock && insn.op.LABEL? && insn.src1 == 0
    requires 0 < insn.other < |unit.labels| && unit.labels[insn.other] < 0 && Hinted(unit)
    modifies unit`spans, unit`edges, unit`owner, unit`order, unit`lastBlock, unit`curBlock, unit`labels, unit`maxLive,
      unit`minDeath
    ensures LayoutWith(unit, insn) && Hinted(unit)
    ensures unit.labels == old(unit.labels)[insn.other := unit.curBlock]
  {
    hide AlmostLaid, LayoutOK, LastInsn, Falls, HintsOK;
    ghost var c := unit.Snap();
    ghost var v := View(c, true);
    OpenLayout(c, unit.edges, unit.owner, unit.order, unit.lastBlock, unit.curBlock);
    if unit.spans[unit.curBlock].first != |unit.insns| {
      unit.spans := unit.spans[unit.curBlock := unit.spans[unit.curBlock].(last := |unit.insns| - 1)];
      HintsSame(c.spans, unit.spans, unit.regs, unit.maxLive);
      ContinueInNewBlock(unit, |unit.insns|, v);
      v := WithBlock(v);
    }
    unit.labels := unit.labels[insn.other := unit.curBlock];
    InsnStep(v, unit.edges, insn, unit.labels);
    LabelIsOpen(WithInsn(v, insn).(labels := unit.labels), insn);
    assert View(unit.Snap().(insns := unit.insns + [insn]), true) == WithInsn(v, insn).(labels := unit.labels);
    OpenedLayout(unit.Snap().(insns := unit.insns + [insn]), WithInsn(v, insn).(labels := unit.labels), unit.edges);
  }

  lemma LabelIsOpen(c: Code, insn: Insn)
    requires |c.spans| > 0 && SpanOK(c, |c.spans| - 1) && LastInsn(c, |c.spans| - 1) == insn && insn.op.LABEL?
    ensures OpenEnd(c)
  {}

  /** make_goto_cond: the block ends with the instruction being added, and a new one follows. */
  method MakeGotoCond(unit: RtlUnit, insn: Insn)
    requires BlocksOK(unit) && unit.haveBlock && IsConditional(insn.op) && Hinted(unit)
    modifies unit`spans, unit`edges, unit`owner, unit`order, unit`lastBlock, unit`curBlock, unit`maxLive, unit`minDeath
    ensures LayoutWith(unit, insn) && Hinted(unit)
  {
    hide AlmostLaid, LayoutOK, LastInsn, HintsOK;
    ghost var c := unit.Snap();
    ghost var v := View(c, true);
    OpenLayout(c, unit.edges, unit.owner, unit.order, unit.lastBlock, unit.curBlock);
    InsnStep(v, unit.edges, insn, c.labels);
    v := WithInsn(v, insn).(labels := c.labels);
    unit.spans := unit.spans[unit.curBlock := unit.spans[unit.curBlock].(last := |unit.insns|)];
    HintsSame(c.spans, unit.spans, unit.regs, unit.maxLive);
    ContinueInNewBlock(unit, |unit.insns| + 1, v);
    v := WithBlock(v);
    assert View(unit.Snap().(insns := unit.insns + [insn]), true) == v;
    LaidIsAlmost(v, unit.edges);
    OpenedLayout(unit.Snap().(insns := unit.insns + [insn]), v, unit.edges);
  }

  lemma LaidIsAlmost(c: Code, edges: seq<Edges>)
    requires Laid(c, edges)
    ensures AlmostLaid(c, edges, |c.spans|, |c.spans|)
  {}

  lemma CurrentOK(c: Code, edges: seq<Edges>, owner: seq<int>, order: seq<int>, lastBlock: int, cur: int)
    requires LayoutOK(c, edges, owner, order, lastBlock, true, cur)
    ensures 0 <= cur < |c.spans| && forall b :: 0 <= b < |c.spans| ==> c.spans[b].first <= |c.insns|
  {
    hide EdgesLaid, LabelsLaid;
    var v := View(c, true);
    forall b | 0 <= b < |c.spans|
      ensures c.spans[b].first <= |c.insns| { assert SpanOK(v, b) && v.spans[b].first == c.spans[b].first; }
  }

  /** Only registers born now become live, and no block so far starts later. */
  lemma HintsAfterMarks(
    c: Code, regs: seq<Reg>, regs': seq<Reg>, insn: Insn, maxLive: seq<int>, maxLive': seq<int>, cur: int)
    requires HintsOK(c.spans, regs, maxLive) && Marked(c.decl, regs, regs', insn, |c.insns|)
    requires Raised(maxLive, maxLive', cur, |regs'|)
    requires forall b :: 0 <= b < |c.spans| ==> c.spans[b].first <= |c.insns|
    ensures HintsOK(c.spans, regs', maxLive')
  {
    forall b | 0 <= b < |maxLive'| ensures HintOK(regs', c.spans[b].first, maxLive'[b]) {
      assert HintOK(regs, c.spans[b].first, maxLive[b]);
      forall r | 0 < r < |regs'| && regs'[r].live && regs'[r].birth < c.spans[b].first ensures r <= maxLive'[b] {
        assert MarkedReg(c.decl, regs, regs', insn, |c.insns|, r);
      }
    }
  }

  /** The dispatch of rtl_insn_make to the encoding function of the opcode. */
  method MakeInsn(unit: RtlUnit, insn: Insn)
    requires BlocksOK(unit) && unit.haveBlock && Sound(unit.decl, unit.regs, insn) && Hinted(unit)
    requires insn.op.LABEL? ==> insn.src1 == 0 && 0 < insn.other < |unit.labels| && unit.labels[insn.other] < 0
    modifies unit`regs, unit`spans, unit`edges, unit`owner, unit`order, unit`lastBlock, unit`haveBlock, unit`curBlock,
      unit`labels,
      unit`firstLiveReg, unit`maxLive, unit`minDeath
    ensures LayoutWith(unit, insn) && Marked(unit.decl, old(unit.regs), unit.regs, insn, |unit.insns|) && Hinted(unit)
    ensures unit.labels == if insn.op.LABEL? then old(unit.labels)[insn.other := |unit.spans| - 1] else old(unit.labels)
  {
    hide LayoutOK, Marked, Sound, HintsOK;
    CurrentOK(unit.Snap(), unit.edges, unit.owner, unit.order, unit.lastBlock, unit.curBlock);
    RecordOperands(unit, insn);
    HintsAfterMarks(unit.Snap(), old(unit.regs), unit.regs, insn, old(unit.maxLive), unit.maxLive, unit.curBlock);
    if insn.op.LABEL? {
      MakeLabel(unit, insn);
      CurrentIsLast(unit, insn);
    } else if insn.op.GOTO? || insn.op.RETURN? {
      EndBlock(unit, insn);
    } else if IsConditional(insn.op) {
      MakeGotoCond(unit, insn);
    } else {
      PlainLayout(unit.Snap(), unit.edges, unit.owner, unit.order, unit.lastBlock, unit.curBlock, insn);
    }
  }

  /** rtl_add_insn.  A rejected instruction only sets the error flag (and may leave a new, empty block open). */
  method AddInsn(unit: RtlUnit, q: Request) returns (ok: bool)
    requires Building(unit) && InRange(ContextOf(unit), q) && Regular(q)
    modifies unit
    ensures Building(unit) && unit.decl == old(unit.decl) && unit.aliasTypes == old(unit.aliasTypes)
    ensures ok <==> Accepts(old(ContextOf(unit)), q)
    ensures ok <==> Permitted(old(ContextOf(unit)), q)
    ensures !ok ==>
              unit.error && unit.insns == old(unit.insns) && unit.regs == old(unit.regs)
                  && unit.labels == old(unit.labels)
    ensures ok ==> var insn := Encode(old(ContextOf(unit)), q);
      && unit.error == old(unit.error) && unit.insns == old(unit.insns) + [insn]
      && Marked(unit.decl, old(unit.regs), unit.regs, insn, |old(unit.insns)|)
      && unit.labels == if q.op.LABEL? then old(unit.labels)[q.other := |unit.spans| - 1] else old(unit.labels)
    ensures ok ==> |unit.insns| == |old(unit.insns)| + 1 && Fulfils(unit.decl, q, unit.insns[|old(unit.insns)|])
    ensures ok ==> RecordedAs(unit.decl, old(unit.regs), unit.regs, q, |old(unit.insns)|)
  {
    hide LayoutOK, ValuesOK, Accepts, Encode, InRange, Regular, Marked, Sound, HintsOK, Permitted, Fulfils, RecordedAs;
    ghost var x := ContextOf(unit);
    AcceptedIff(x, q);
    if !unit.haveBlock { StartBlock(unit); }
    if !Accepts(ContextOf(unit), q) {
      unit.error := true;
      return false;
    }
    ghost var k := |unit.insns|;
    AppendInsn(unit, q);
    EncodedFulfils(x, q);
    MarkedAsAsked(x, q, unit.regs, k);
    return true;
  }

  /** An accepted instruction. */
  method AppendInsn(unit: RtlUnit, q: Request)
    requires Building(unit) && unit.haveBlock && InRange(ContextOf(unit), q) && Regular(q)
    requires Accepts(ContextOf(unit), q)
    modifies unit
    ensures Building(unit) && unit.decl == old(unit.decl) && unit.aliasTypes == old(unit.aliasTypes)
    ensures unit.error == old(unit.error)
    ensures var insn := Encode(old(ContextOf(unit)), q);
      && unit.insns == old(unit.insns) + [insn] && Marked(unit.decl, old(unit.regs), unit.regs, insn, |old(unit.insns)|)
      && unit.labels == if q.op.LABEL? then old(unit.labels)[q.other := |unit.spans| - 1] else old(unit.labels)
  {
    hide LayoutOK, ValuesOK, Accepts, Encode, InRange, Regular, Marked, Sound, HintsOK;
    ghost var x := ContextOf(unit);
    var insn := Encode(ContextOf(unit), q);
    ValuesReady(x, unit.insns);
    EncodedSound(x, q);
    EncodedOp(x, q);
    if q.op.LABEL? { AcceptedLabel(x, q); }
    MakeInsn(unit, insn);
    AppendValues(x, unit.insns, unit.regs, unit.labels, q);
    unit.insns := unit.insns + [insn];
  }

  lemma ValuesReady(x: Context, insns: seq<Insn>)
    requires ValuesOK(x, insns)
    ensures Ready(x) && |x.labels| > 0 && x.labels[0] == -1
  {}

  lemma AcceptedLabel(x: Context, q: Request)
    requires InRange(x, q) && Accepts(x, q) && q.op.LABEL?
    ensures Encode(x, q).other == q.other && 0 < q.other < |x.labels| && x.labels[q.other] < 0
  {}

  lemma CurrentIsLast(unit: RtlUnit, insn: Insn)
    requires LayoutWith(unit, insn) && unit.haveBlock
    ensures unit.curBlock == |unit.spans| - 1
  {}

  // ---- rtl_finalize_unit ----

  lemma {:induction false} Ascending(c: Code, j: int, k: int)
    requires BlocksLaid(c) && 0 <= j < k < |c.spans|
    ensures c.spans[j].last < c.spans[k].first
  {
    assert BlockLaid(c, k) && SpanOK(c, k - 1);
    if j < k - 1 { Ascending(c, j, k - 1); }
  }

  /** Every branch leads to a placed label. */
  ghost predicate LabelsPlaced(c: Code) {
    forall i :: 0 <= i < |c.insns| && IsBranch(c.insns[i].op) ==> LabelBlock(c, c.insns[i].other) >= 0
  }

  lemma FlowOfLaid(c: Code, edges: seq<Edges>)
    requires Laid(c, edges) && |c.spans| > 0 && BranchesNamed(c.insns, |c.labels|) && LabelsPlaced(c)
    ensures FlowOK(c, Order(|c.spans|), |c.spans| - 1) && Tiled(c, Order(|c.spans|))
  {
    hide BlocksLaid, EdgesLaid, CutsLaid, StreamOK, Placed, TargetsOK, LabelsOK, BranchesNamed, LabelsPlaced;
    StreamOfLaid(c);
    TiledOfLaid(c);
    LabelTargets(c, edges);
  }

  lemma StreamOfLaid(c: Code)
    requires BlocksLaid(c) && |c.spans| > 0
    ensures StreamOK(c, Order(|c.spans|), |c.spans| - 1)
  {
    hide PlacedIn;
    var order := Order(|c.spans|);
    assert order[0] == 0 && order[|order| - 1] == |c.spans| - 1;
    forall k | 0 <= k < |order| ensures SpanOK(c, order[k]) { assert order[k] == k; }
    forall j, k | 0 <= j < k < |order| ensures order[j] < order[k] && c.spans[order[j]].last < c.spans[order[k]].first {
      Ascending(c, j, k);
    }
    forall k {:trigger After(order, k)} | 0 <= k < |order|
      ensures c.spans[order[k]].next == After(order, k) && c.spans[order[k]].prev == Before(order, k)
    {
      assert BlockLaid(c, k) && order[k] == k;
      assert k + 1 < |order| ==> order[k + 1] == k + 1;
      assert k > 0 ==> order[k - 1] == k - 1;
    }
  }

  lemma TiledOfLaid(c: Code)
    requires BlocksLaid(c) && |c.spans| > 0
    ensures (forall b <- Order(|c.spans|) :: SpanOK(c, b)) && Placed(c, Order(|c.spans|)) && Tiled(c, Order(|c.spans|))
  {
    hide PlacedIn;
    var order := Order(|c.spans|);
    forall b | b in order ensures SpanOK(c, b) && PlacedIn(c, b) { assert BlockLaid(c, b); }
    forall k | 0 <= k < |order| ensures order[k] == k && SpanOK(c, k) {}
    forall k | 0 < k < |order| ensures c.spans[k].first == c.spans[k - 1].last + 1 { assert BlockLaid(c, k); }
    assert BlockLaid(c, 0) && BlockLaid(c, |order| - 1);
  }

  lemma LabelTargets(c: Code, edges: seq<Edges>)
    requires Laid(c, edges) && |c.spans| > 0 && BranchesNamed(c.insns, |c.labels|) && LabelsPlaced(c)
    ensures (forall b <- Order(|c.spans|) :: SpanOK(c, b)) && TargetsOK(c, Order(|c.spans|))
  {
    hide EdgesLaid, PlacedIn;
    forall b | b in Order(|c.spans|) && IsBranch(LastInsn(c, b).op)
      ensures LabelBlock(c, LastInsn(c, b).other) in Order(|c.spans|)
    {
      var i := c.spans[b].last;
      assert SpanOK(c, b) && LastInsn(c, b) == c.insns[i];
      assert LabelBlock(c, c.insns[i].other) >= 0;
    }
  }

  /** Branch edges of blocks below m are in place; the fall-through edges still come first. */
  ghost predicate Connected(c: Code, edges: seq<Edges>, owner: seq<int>, m: int) {
    var n := |c.spans|;
    && |edges| == |owner| >= n && EdgesOK(edges, owner) && Order(n) <= owner
    && (forall b :: n <= b < |owner| ==> !IsReal(owner, b))
    && forall b :: 0 <= b < n ==> ConnectedBlock(c, edges, b, m)
  }

  ghost predicate ConnectedBlock(c: Code, edges: seq<Edges>, b: int, m: int)
    requires |edges| >= |c.spans|
  {
    && SpanOK(c, b) && |edges[b].exits| == 2 && FallsFirst(c, edges, b)
    && ExitSet(edges[b]) == if b < m then Successors(c, b) else FallExit(c, b)
  }

  lemma ConnectedStart(c: Code, edges: seq<Edges>)
    requires Laid(c, edges)
    ensures Connected(c, edges, Order(|c.spans|), 0)
  {
    hide EdgesOK;
    forall b | 0 <= b < |c.spans|
      ensures ConnectedBlock(c, edges, b, 0) { assert SpanOK(c, b) && FallsFirst(c, edges, b); }
  }

  lemma ConnectedNext(c: Code, edges: seq<Edges>, owner: seq<int>, b: int)
    requires Connected(c, edges, owner, b) && 0 <= b && (b < |c.spans| ==> SpanOK(c, b) && !EndsInBranch(c, b))
    ensures Connected(c, edges, owner, b + 1)
  {
    hide EdgesOK;
    var next := b + 1;
    forall a | 0 <= a < |c.spans| ensures ConnectedBlock(c, edges, a, next) { assert ConnectedBlock(c, edges, a, b); }
  }

  lemma ConnectedEnd(c: Code, edges: seq<Edges>, owner: seq<int>, m: int)
    requires Connected(c, edges, owner, m) && m >= |c.spans|
    ensures Connected(c, edges, owner, |c.spans|)
  {
    hide EdgesOK;
    forall a | 0 <= a < |c.spans|
      ensures ConnectedBlock(c, edges, a, |c.spans|) { assert ConnectedBlock(c, edges, a, m); }
  }

  lemma ConnectedEdge(c: Code, edges: seq<Edges>, owner: seq<int>, b: int, edges': seq<Edges>, owner': seq<int>)
    requires Connected(c, edges, owner, b) && 0 <= b < |c.spans| && SpanOK(c, b) && EndsInBranch(c, b)
    requires EdgesOK(edges', owner') && owner <= owner' && |owner| <= |owner'|
    requires forall a :: |owner| <= a < |owner'| ==> !IsReal(owner', a)
    requires |edges'| == |owner'| && AllSized(edges') && AllSized(edges)
    requires ExitSet(edges'[b]) == ExitSet(edges[b]) + {LabelBlock(c, LastInsn(c, b).other)}
    requires forall a :: 0 <= a < |edges| && a != b ==> edges'[a].exits == edges[a].exits
    requires forall a :: 0 <= a < |edges| && edges[a].entries[0] >= 0 ==> edges'[a].entries[0] == edges[a].entries[0]
    requires edges[b].exits[0] >= 0 ==> edges'[b].exits[0] == edges[b].exits[0]
    ensures Connected(c, edges', owner', b + 1)
  {
    hide EdgesOK, LastInsn;
    var next := b + 1;
    forall a | 0 <= a < |c.spans| ensures ConnectedBlock(c, edges', a, next) { assert ConnectedBlock(c, edges, a, b); }
    forall a | |c.spans| <= a < |owner'| ensures !IsReal(owner', a) {
      if a < |owner| { assert !IsReal(owner, a) && owner'[a] == owner[a]; }
    }
  }

  /** The slots behind the blocks of the code are overflow blocks. */
  predicate DummiesOnly(c: Code, spans: seq<Span>) {
    forall b :: |c.spans| <= b < |spans| ==> spans[b] == Span(0, -1, -2, -3)
  }

  lemma ConnectedOpen(c: Code, edges: seq<Edges>, owner: seq<int>, b: int)
    requires Connected(c, edges, owner, b) && 0 <= b
    ensures |edges| == |owner| >= |c.spans| && EdgesOK(edges, owner)
    ensures forall t :: 0 <= t < |c.spans| ==> IsReal(owner, t)
    ensures b < |c.spans| ==> SpanOK(c, b) && |ExitSet(edges[b])| < 2 && |edges[b].exits| == 2
  {
    hide EdgesOK;
    forall t | 0 <= t < |c.spans| ensures IsReal(owner, t) { assert Order(|c.spans|)[t] == owner[t]; }
    if b < |c.spans| { assert ConnectedBlock(c, edges, b, b); }
  }

  lemma LastIs(c: Code, b: int)
    requires SpanOK(c, b) && c.spans[b].first <= c.spans[b].last
    ensures LastInsn(c, b) == c.insns[c.spans[b].last]
  {}

  lemma NotABranch(c: Code, b: int)
    requires b < |c.spans| ==> SpanOK(c, b) && IsEmpty(c, b)
    ensures b < |c.spans| ==> !EndsInBranch(c, b)
  {}

  lemma NotPlaced(c: Code, b: int)
    requires SpanOK(c, b) && !IsEmpty(c, b) && IsBranch(c.insns[c.spans[b].last].op)
    requires LabelBlock(c, c.insns[c.spans[b].last].other) < 0
    ensures !LabelsPlaced(c)
  {}

  lemma LabelIsBlock(c: Code, edges: seq<Edges>, l: int)
    requires Laid(c, edges) && 0 < l < |c.labels| && c.labels[l] >= 0
    ensures c.labels[l] < |c.spans|
  {
    assert c.labels[l] in Order(|c.spans|);
  }

  /** The block an instruction belongs to. */
  lemma {:induction false} BlockHolding(c: Code, i: int, m: nat) returns (b: int)
    requires BlocksLaid(c) && m < |c.spans| && 0 <= i <= c.spans[m].last
    ensures 0 <= b <= m && SpanOK(c, b) && c.spans[b].first <= i <= c.spans[b].last
  {
    assert BlockLaid(c, m) && SpanOK(c, m);
    if c.spans[m].first <= i { b := m; } else { b := BlockHolding(c, i, m - 1); }
  }

  lemma AllPlaced(c: Code, edges: seq<Edges>)
    requires Laid(c, edges)
    requires forall a :: 0 <= a < |c.spans| && SpanOK(c, a) && EndsInBranch(c, a) ==>
               LabelBlock(c, LastInsn(c, a).other) >= 0
    ensures LabelsPlaced(c)
  {
    forall i | 0 <= i < |c.insns| && IsBranch(c.insns[i].op) ensures LabelBlock(c, c.insns[i].other) >= 0 {
      assert BlockLaid(c, |c.spans| - 1);
      var b := BlockHolding(c, i, |c.spans| - 1);
      assert BlockLaid(c, b) && PlacedIn(c, b);
      assert LastInsn(c, b) == c.insns[i];
    }
  }

  /** add_block_edges.  The error for a third exit cannot occur. */
  method AddBlockEdges(unit: RtlUnit, ghost c: Code) returns (ok: bool)
    requires unit.Snap() == c && Laid(c, unit.edges) && unit.owner == Order(|c.spans|)
    requires BranchesNamed(c.insns, |c.labels|)
    modifies unit`spans, unit`edges, unit`owner
    ensures ok ==>
              c.spans <= unit.spans && |unit.spans| == |unit.edges| && Connected(c, unit.edges, unit.owner, |c.spans|)
    ensures ok <==> LabelsPlaced(c)
  {
    hide EdgesOK, Laid, Connected, LastInsn, ConnectedBlock;
    LaidSizes(c, unit.edges);
    ConnectedStart(c, unit.edges);
    ghost var n, edges0 := |c.spans|, unit.edges;
    var b := 0;
    while b < |unit.spans|
      invariant 0 <= b <= |unit.spans| == |unit.edges| && c.spans <= unit.spans && DummiesOnly(c, unit.spans)
      invariant Connected(c, unit.edges, unit.owner, b)
      invariant forall a :: 0 <= a < b && a < n && SpanOK(c, a) && EndsInBranch(c, a) ==>
                  LabelBlock(c, LastInsn(c, a).other) >= 0
      decreases if b < n then n - b else 0, |unit.spans| - b
    {
      ghost var edges, owner := unit.edges, unit.owner;
      ConnectedOpen(c, edges, owner, b);
      if unit.spans[b].first <= unit.spans[b].last {
        assert b < n;
        LastIs(c, b);
        var insn := unit.insns[unit.spans[b].last];
        if IsBranch(insn.op) {
          if unit.labels[insn.other] < 0 {
            NotPlaced(c, b);
            return false;
          }
          LabelIsBlock(c, edges0, insn.other);
          AreSized(edges, owner);
          ok := AddEdge(unit, b, unit.labels[insn.other]);
          assert ok;
          AreSized(unit.edges, unit.owner);
          ConnectedEdge(c, edges, owner, b, unit.edges, unit.owner);
        } else {
          ConnectedNext(c, edges, owner, b);
        }
      } else {
        NotABranch(c, b);
        ConnectedNext(c, edges, owner, b);
      }
      b := b + 1;
    }
    AllPlaced(c, edges0);
    ConnectedEnd(c, unit.edges, unit.owner, b);
    return true;
  }

  /** The first n blocks of a finalized unit: cut only at labels and terminators, fall-through edges first. */
  ghost predicate Shaped(c: Code, edges: seq<Edges>, n: int) {
    && |edges| == |c.spans| >= n
    && (forall b :: 0 < b < n ==> CutAt(c, b))
    && (forall b :: 0 <= b < n ==> SpanOK(c, b) && |edges[b].exits| == 2 && FallsFirst(c, edges, b))
  }

  lemma ShapedUnit(c: Code, c': Code, edges: seq<Edges>, owner: seq<int>)
    requires Extends(c, c') && |edges| == |c'.spans| && Connected(c, edges, owner, |c.spans|)
    requires BlocksLaid(c) && CutsLaid(c, |c.spans|, |c.spans|)
    ensures Shaped(c', edges, |c.spans|)
  {
    hide EdgesOK;
    forall b | 0 < b < |c.spans| ensures CutAt(c', b) {
      assert CutAt(c, b);
      assert SpanOK(c', b) && SpanOK(c', b - 1);
      ExtendedBlock(c, c', [], b);
      ExtendedBlock(c, c', [], b - 1);
    }
    forall b | 0 <= b < |c.spans| ensures SpanOK(c', b) && |edges[b].exits| == 2 && FallsFirst(c', edges, b) {
      assert ConnectedBlock(c, edges, b, |c.spans|) && SpanOK(c', b);
      ExtendedBlock(c, c', [], b);
    }
  }

  lemma FinalizedWell(c: Code, c': Code, regs: seq<Reg>, edges0: seq<Edges>, edges: seq<Edges>, owner: seq<int>)
    requires Laid(c, edges0) && |c.spans| > 0 && BranchesNamed(c.insns, |c.labels|) && LabelsPlaced(c)
    requires LiveOK(c.decl, c.insns, regs, {}) && Clean(c.decl, c.insns) && ConstOK(c.decl, c.insns, regs)
    requires Extends(c, c') && |edges| == |c'.spans| && Connected(c, edges, owner, |c.spans|)
    ensures WellFormed(c', regs, edges, owner, Order(|c.spans|), |c.spans| - 1, {}) && Tiled(c', Order(|c.spans|))
    ensures Shaped(c', edges, |c.spans|)
  {
    hide BlocksLaid, EdgesLaid, LabelsLaid, CutsLaid, FlowOK, LiveOK, Clean, ConstOK, Tiled, EdgesOK, Shaped,
      Successors;
    FlowOfLaid(c, edges0);
    ExtendedFlow(c, c', Order(|c.spans|), |c.spans| - 1);
    ShapedUnit(c, c', edges, owner);
    forall b | b in Order(|c.spans|)
      ensures SpanOK(c', b) && IsReal(owner, b) && ExitSet(edges[b]) == Successors(c', b)
    {
      assert ConnectedBlock(c, edges, b, |c.spans|) && Order(|c.spans|)[b] == owner[b];
    }
  }

  /** rtl_finalize_unit: fails exactly when a branch names a label that was never placed; otherwise the unit is what the
      optimizer expects, except that conditional branches to the next block are possible. */
  method FinalizeUnit(unit: RtlUnit) returns (ok: bool)
    requires Building(unit)
    modifies unit`spans, unit`edges, unit`owner, unit`haveBlock, unit`finalized
    ensures ok <==> LabelsPlaced(old(unit.Snap()))
    ensures |unit.order| == |old(unit.spans)| && (ok ==> unit.finalized && HintsOK(unit.spans, unit.regs, unit.maxLive))
    ensures ok ==>
              Extends(View(old(unit.Snap()), old(unit.haveBlock)), unit.Snap()) && AllInStream(unit.owner, unit.order)
    ensures ok && |unit.order| > 0 ==> Shaped(unit.Snap(), unit.edges, |unit.order|)
    ensures ok && |unit.order| > 0 ==>
              FlowOK(View(old(unit.Snap()), old(unit.haveBlock)), unit.order, |unit.order| - 1) &&
              Finalized(unit, false) &&
              (Finalized(unit, true) <==> AllTwoWay(View(old(unit.Snap()), old(unit.haveBlock)), unit.order))
  {
    hide Laid, ValuesOK, EdgesOK, Connected, Shaped, WellFormed, Tiled, AllTwoWay, TypedOK, BranchesNamed, OpenEnd,
      LastInsn, Falls, FlowOK;
    ghost var c, open := unit.Snap(), unit.haveBlock;
    if unit.haveBlock {
      unit.spans := unit.spans[unit.curBlock := unit.spans[unit.curBlock].(last := |unit.insns| - 1)];
      unit.haveBlock := false;
    }
    ghost var v, edges0 := View(c, open), unit.edges;
    ValuesOpen(ContextOf(unit), unit.insns);
    ok := AddBlockEdges(unit, v);
    if !ok { return; }
    unit.finalized := true;
    HintsSame(c.spans, unit.spans, unit.regs, unit.maxLive);
    ConnectedReal(v, unit.edges, unit.owner);
    if |unit.order| > 0 {
      FlowOfLaid(v, edges0);
      FinalizedWell(v, unit.Snap(), unit.regs, edges0, unit.edges, unit.owner);
      ExtendedTwoWay(v, unit.Snap(), unit.order, |unit.order| - 1);
    }
  }

  lemma ConnectedReal(c: Code, edges: seq<Edges>, owner: seq<int>)
    requires Connected(c, edges, owner, |c.spans|)
    ensures AllInStream(owner, Order(|c.spans|))
  {
    hide EdgesOK;
  }

  lemma ExtendedTwoWay(c: Code, c': Code, order: seq<int>, lastBlock: int)
    requires FlowOK(c, order, lastBlock) && Extends(c, c')
    ensures AllTwoWay(c, order) <==> AllTwoWay(c', order)
  {
    hide FlowOK;
    SpansOfFlow(c, order, lastBlock);
    forall b | b in order ensures SpanOK(c', b) && (TwoWay(c, b) <==> TwoWay(c', b)) {
      assert SpanOK(c, b) && SpanOK(c', b);
      ExtendedBlock(c, c', order, b);
    }
  }

  lemma ValuesOpen(x: Context, insns: seq<Insn>)
    requires ValuesOK(x, insns)
    ensures BranchesNamed(insns, |x.labels|) && TypedOK(x.d, insns, x.regs) && |x.d.base| > 0
    ensures LiveOK(x.d, insns, x.regs, {}) && Clean(x.d, insns) && ConstOK(x.d, insns, x.regs)
  {}
}
