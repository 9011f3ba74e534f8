/** Calls and atomic operations under optimization.  The passes may remove one although it does something besides
    setting its register; this file says when they do not. */
module Effects {
  import opened Rtl
  import opened Liveness
  import opened Semantics
  import opened Flow
  import opened FoldPass
  import opened FoldScan
  import opened FoldLoads

  /** An instruction no pass removes from a block it keeps. */
  predicate IsAnchor(insn: Insn) { insn.op.STORE? || insn.op.RETURN? || (insn.op.CALL? && insn.dest == 0) }

  /** Where data flow ends in a branch or an alias. */
  predicate IsOutlet(op: Opcode) { IsConditional(op) || op.SET_ALIAS? }

  /** What every pass, and so every sequence of passes, guarantees of the code it turns c into: no new calls or atomic
      operations, no new readers and no new definitions; the anchors of the blocks it keeps are kept, and so are their
      calls and atomic operations unless some instruction read the result. */
  ghost predicate AnchorsKept(c: Code, c': Code, order: seq<int>, order': seq<int>) {
    && c'.decl == c.decl && |c'.insns| == |c.insns| && (forall b <- order' :: b in order)
    && (forall b :: b in order' && SpanOK(c', b) ==>
          SpanOK(c, b) && c'.spans[b].first == c.spans[b].first && c'.spans[b].last == c.spans[b].last)
    && (forall i :: 0 <= i < |c'.insns| ==> InsnKept(c.insns[i], c'.insns[i]))
    && (forall b, i :: b in order' && SpanOK(c', b) && c'.spans[b].first <= i <= c'.spans[b].last ==>
         StaysInBlock(c, c', i))
    && forall r {:trigger HasReader(c'.decl, c'.insns, r)} :: HasReader(c'.decl, c'.insns, r) ==>
         HasReader(c.decl, c.insns, r)
  }

  predicate InsnKept(insn: Insn, insn': Insn) {
    && (insn'.dest == insn.dest || insn'.dest == 0)
    && (HasSideEffect(insn'.op) || (HasSideEffect(insn.op) && insn'.dest != 0) ==> insn' == insn)
    && (IsOutlet(insn'.op) ==> insn' == insn.(other := insn'.other) && (insn.op.SET_ALIAS? ==> insn' == insn))
  }

  ghost predicate StaysInBlock(c: Code, c': Code, i: int)
    requires 0 <= i < |c.insns| == |c'.insns|
  {
    && (IsAnchor(c.insns[i]) ==> c'.insns[i] == c.insns[i])
    && (HasSideEffect(c.insns[i].op) ==> c'.insns[i] == c.insns[i] || HasReader(c.decl, c.insns, c.insns[i].dest))
  }

  lemma AnchorsKeptTwice(a: Code, b: Code, c: Code, order: seq<int>, order': seq<int>, order'': seq<int>)
    requires AnchorsKept(a, b, order, order') && AnchorsKept(b, c, order', order'')
    ensures AnchorsKept(a, c, order, order'')
  {
    forall i | 0 <= i < |c.insns| ensures InsnKept(a.insns[i], c.insns[i]) {
      assert InsnKept(a.insns[i], b.insns[i]) && InsnKept(b.insns[i], c.insns[i]);
    }
    forall x | x in order'' && SpanOK(c, x)
      ensures SpanOK(a, x) && c.spans[x].first == a.spans[x].first && c.spans[x].last == a.spans[x].last
      ensures forall i :: c.spans[x].first <= i <= c.spans[x].last ==> StaysInBlock(a, c, i)
    {
      assert x in order' && SpanOK(b, x);
      forall i | c.spans[x].first <= i <= c.spans[x].last ensures StaysInBlock(a, c, i) {
        assert StaysInBlock(a, b, i) && StaysInBlock(b, c, i);
        if HasReader(b.decl, b.insns, b.insns[i].dest) {}
      }
    }
  }

  /** The calls and atomic operations of the blocks that c' keeps are as in c. */
  ghost predicate EffectsStay(c: Code, c': Code, order': seq<int>) {
    forall b, i {:trigger c'.spans[b], c'.insns[i]} ::
      b in order' && SpanOK(c', b) && c'.spans[b].first <= i <= c'.spans[b].last && i < |c.insns|
          && HasSideEffect(c.insns[i].op)
      ==> c'.insns[i] == c.insns[i]
  }

  lemma EffectsStayTwice(a: Code, b: Code, c: Code, order: seq<int>, order': seq<int>, order'': seq<int>)
    requires AnchorsKept(a, b, order, order') && AnchorsKept(b, c, order', order'')
    requires forall x <- order'' :: SpanOK(c, x)
    requires EffectsStay(a, b, order') && EffectsStay(b, c, order'')
    ensures EffectsStay(a, c, order'')
  {
    forall x, i | x in order'' && SpanOK(c, x) && c.spans[x].first <= i <= c.spans[x].last && i < |a.insns|
      && HasSideEffect(a.insns[i].op)
      ensures c.insns[i] == a.insns[i]
    {
      assert x in order' && SpanOK(b, x) && b.spans[x].first <= i <= b.spans[x].last && b.insns[i] == a.insns[i];
    }
  }

  /** What is still there at the end was there all the time. */
  lemma StayedBetween(c0: Code, c: Code, c': Code, order0: seq<int>, order: seq<int>, order': seq<int>)
    requires AnchorsKept(c0, c, order0, order) && AnchorsKept(c, c', order, order') && EffectsStay(c0, c', order')
    requires forall b <- order' :: SpanOK(c', b)
    ensures EffectsStay(c, c', order') && EffectsStay(c0, c, order')
  {
    forall i | 0 <= i < |c0.insns| ensures InsnKept(c0.insns[i], c.insns[i]) && InsnKept(c.insns[i], c'.insns[i]) {}
    forall b, i | b in order' && SpanOK(c, b) && c.spans[b].first <= i <= c.spans[b].last
      && HasSideEffect(c0.insns[i].op)
      ensures c.insns[i] == c0.insns[i]
    {
      assert SpanOK(c', b) && c'.insns[i] == c0.insns[i];
    }
  }

  // ---- Data flow out of a call or atomic operation ----

  /** Instruction j reads what instruction i sets. */
  predicate Feeds(c: Code, i: int, j: int) {
    0 <= i < |c.insns| && 0 <= j < |c.insns| && c.insns[i].dest != 0 && Reads(c.decl, c.insns[j], c.insns[i].dest)
  }

  function End(path: seq<int>): int
    requires |path| > 0
  {
    path[|path| - 1]
  }

  /** The data flow starts at a call or atomic operation and goes through sturdy operations. */
  predicate Carries(c: Code, path: seq<int>): (r: bool)
    ensures r ==> |path| > 0 && 0 <= path[0] < |c.insns| && 0 <= End(path) < |c.insns|
    ensures r ==> HasSideEffect(c.insns[path[0]].op)
  {
    && |path| > 0 && 0 <= End(path) < |c.insns|
    && if |path| == 1 then HasSideEffect(c.insns[path[0]].op)
       else
         && Carries(c, path[..|path| - 1]) && Feeds(c, End(path[..|path| - 1]), End(path))
         && Sturdy(c.insns[End(path)].op)
  }

  /** Such data flow survives in c as far as the instructions do. */
  ghost predicate Retained(c0: Code, c: Code) {
    && |c.insns| == |c0.insns| && c.decl == c0.decl
    && forall path, j {:trigger Carries(c0, path), Feeds(c0, End(path), j)} ::
         Carries(c0, path) && Feeds(c0, End(path), j) && Sturdy(c0.insns[j].op) && c.insns[j].dest != 0 ==>
           Reads(c.decl, c.insns[j], c0.insns[End(path)].dest)
  }

  /** Folding turns nothing on such a path into a constant. */
  lemma {:induction false} CarriedNotLoaded(c0: Code, c: Code, regs: seq<Reg>, path: seq<int>, i: int)
    requires Retains(c0, c) && OnlyPure(c0, c) && SsaOK(c.insns, regs) && Clean(c.decl, c.insns) && c.decl == c0.decl
    requires forall j :: 0 <= j < |c.insns| ==> c.insns[j].dest == c0.insns[j].dest
    requires Carries(c0, path) && c0.insns[End(path)].dest != 0
    ensures !LoadsImm(c, i, c0.insns[End(path)].dest)
    decreases |path|
  {
    hide Retains, OnlyPure, Reads, Sturdy;
    var last := End(path);
    if LoadsImm(c, i, c0.insns[last].dest) {
      assert 0 <= last < |c.insns| by { OnlyPureSize(c0, c); }
      assert i == last && CleanInsn(c.decl, c.insns[last]);
      if |path| == 1 {
        EffectNotPure(c0, c, last);
      } else {
        var before := path[..|path| - 1];
        var r := c0.insns[End(before)].dest;
        forall m ensures !LoadsImm(c, m, r) { CarriedNotLoaded(c0, c, regs, before, m); }
        StillReads(c0, c, last, r);
        ImmReadsNothing(c.decl, c.insns[last], r);
      }
    }
  }

  lemma EffectNotPure(c0: Code, c: Code, i: int)
    requires OnlyPure(c0, c) && 0 <= i < |c0.insns| && HasSideEffect(c0.insns[i].op)
    ensures c.insns[i] == c0.insns[i]
  {}

  lemma StillReads(c0: Code, c: Code, j: int, r: int)
    requires Retains(c0, c) && 0 <= j < |c0.insns| && Sturdy(c0.insns[j].op) && Reads(c0.decl, c0.insns[j], r)
    requires forall m :: !LoadsImm(c, m, r)
    ensures Reads(c0.decl, c.insns[j], r)
  {}

  lemma ImmReadsNothing(d: Decl, insn: Insn, r: int)
    requires CleanInsn(d, insn) && insn.op.LOAD_IMM?
    ensures !Reads(d, insn, r)
  {}

  lemma FoldRetains(c0: Code, c: Code, regs: seq<Reg>)
    requires Retains(c0, c) && OnlyPure(c0, c) && SsaOK(c.insns, regs) && Clean(c.decl, c.insns) && c.decl == c0.decl
    requires forall j :: 0 <= j < |c.insns| ==> c.insns[j].dest == c0.insns[j].dest
    ensures Retained(c0, c)
  {
    hide Retains, OnlyPure, Reads, Carries, SsaOK, Clean;
    assert |c.insns| == |c0.insns| by { OnlyPureSize(c0, c); }
    forall path, j | Carries(c0, path) && Feeds(c0, End(path), j) && Sturdy(c0.insns[j].op) && c.insns[j].dest != 0
      ensures Reads(c.decl, c.insns[j], c0.insns[End(path)].dest)
    {
      forall m ensures !LoadsImm(c, m, c0.insns[End(path)].dest) { CarriedNotLoaded(c0, c, regs, path, m); }
      StillReads(c0, c, j, c0.insns[End(path)].dest);
    }
  }

  lemma OnlyPureSize(c0: Code, c: Code)
    requires OnlyPure(c0, c)
    ensures |c.insns| == |c0.insns|
  {}

  /** No instruction that sets a register was changed, though some may be gone. */
  predicate DefsUnchanged(c: Code, c': Code) {
    c'.decl == c.decl && |c'.insns| == |c.insns| && forall j :: 0 <= j < |c.insns| && c'.insns[j].dest != 0 ==>
        c'.insns[j] == c.insns[j]
  }

  lemma RetainedNext(c0: Code, c: Code, c': Code)
    requires Retained(c0, c) && DefsUnchanged(c, c')
    ensures Retained(c0, c')
  {}

  // ---- When a call or atomic operation stays ----

  /** If an instruction still reads the end of a path, the call or atomic operation at its start is still there. */
  lemma {:induction false} ReadKeepsEffect(c0: Code, regs0: seq<Reg>, c: Code, regs: seq<Reg>, path: seq<int>, j: int)
    requires SsaOK(c0.insns, regs0) && Retained(c0, c) && SsaOK(c.insns, regs) && Covers(c.decl, c.insns, regs)
    requires forall i :: 0 <= i < |c.insns| ==> InsnKept(c0.insns[i], c.insns[i])
    requires Carries(c0, path) && c0.insns[End(path)].dest != 0 && 0 <= j < |c.insns| == |c0.insns|
    requires Reads(c.decl, c.insns[j], c0.insns[End(path)].dest)
    ensures c.insns[path[0]] == c0.insns[path[0]]
    decreases |path|
  {
    var last := End(path);
    assert HasReader(c.decl, c.insns, c0.insns[last].dest);
    ReaderKeepsDef(c0, regs0, c, regs, last);
    assert InsnKept(c0.insns[last], c.insns[last]);
    if |path| > 1 {
      var before := path[..|path| - 1];
      assert before[0] == path[0];
      assert Carries(c0, before) && Feeds(c0, End(before), last);
      ReadKeepsEffect(c0, regs0, c, regs, before, last);
    }
  }

  /** A call or atomic operation of a surviving block that was removed had readers, and has none left. */
  lemma LostEffect(
    c0: Code, regs0: seq<Reg>, c: Code, regs: seq<Reg>, order: seq<int>, order': seq<int>, b: int, i: int)
    requires AnchorsKept(c0, c, order, order') && SsaOK(c0.insns, regs0) && SsaOK(c.insns, regs)
    requires Covers(c.decl, c.insns, regs)
    requires b in order' && SpanOK(c, b) && c.spans[b].first <= i <= c.spans[b].last && HasSideEffect(c0.insns[i].op)
    requires c.insns[i] != c0.insns[i]
    ensures HasReader(c0.decl, c0.insns, c0.insns[i].dest) && !HasReader(c.decl, c.insns, c0.insns[i].dest)
  {
    assert StaysInBlock(c0, c, i);
    if HasReader(c.decl, c.insns, c0.insns[i].dest) { ReaderKeepsDef(c0, regs0, c, regs, i); }
  }

  lemma ReaderKeepsDef(c0: Code, regs0: seq<Reg>, c: Code, regs: seq<Reg>, i: int)
    requires SsaOK(c0.insns, regs0) && SsaOK(c.insns, regs) && Covers(c.decl, c.insns, regs)
    requires |c.insns| == |c0.insns| && forall k :: 0 <= k < |c.insns| ==> InsnKept(c0.insns[k], c.insns[k])
    requires 0 <= i < |c0.insns| && c0.insns[i].dest != 0 && HasReader(c.decl, c.insns, c0.insns[i].dest)
    ensures c.insns[i].dest == c0.insns[i].dest
  {
    var r := c0.insns[i].dest;
    var j :| 0 <= j < |c.insns| && Reads(c.decl, c.insns[j], r);
    assert InsnKept(c0.insns[regs[r].birth], c.insns[regs[r].birth]);
  }

  /** An instruction that holds on to its operands as long as its block is kept. */
  ghost predicate IsKeeper(c: Code, j: int) {
    0 <= j < |c.insns| &&
    (IsAnchor(c.insns[j]) || (HasSideEffect(c.insns[j].op) && !HasReader(c.decl, c.insns, c.insns[j].dest)))
  }

  /** CMPXCHG, a comparison of its result, and a conditional branch on that (the loop around a store-conditional): as
      long as the branch is there, so is the CMPXCHG. */
  lemma BranchKeepsExchange(
    c0: Code, regs0: seq<Reg>, c: Code, regs: seq<Reg>, order: seq<int>, order': seq<int>, i: int, j: int, k: int)
    requires AnchorsKept(c0, c, order, order') && Retained(c0, c) && Clean(c0.decl, c0.insns)
    requires SsaOK(c0.insns, regs0) && SsaOK(c.insns, regs) && Covers(c.decl, c.insns, regs)
    requires Feeds(c0, i, j) && c0.insns[i].op.CMPXCHG? && c0.insns[j].op == ALU2(SEQ) && Feeds(c0, j, k)
    requires IsConditional(c.insns[k].op)
    ensures c.insns[i] == c0.insns[i]
  {
    hide SsaOK, Covers, Retained;
    assert [i, j][..1] == [i];
    assert Carries(c0, [i]) && Carries(c0, [i, j]);
    assert CleanInsn(c0.decl, c0.insns[k]) && InsnKept(c0.insns[k], c.insns[k]);
    ReadKeepsEffect(c0, regs0, c, regs, [i, j], k);
  }

  /** A call whose result is cast or shifted and stored in an alias: as long as the SET_ALIAS is there, so is the
      call. */
  lemma AliasKeepsCall(
    c0: Code, regs0: seq<Reg>, c: Code, regs: seq<Reg>, order: seq<int>, order': seq<int>, i: int, j: int, k: int)
    requires AnchorsKept(c0, c, order, order') && Retained(c0, c)
    requires SsaOK(c0.insns, regs0) && SsaOK(c.insns, regs) && Covers(c.decl, c.insns, regs)
    requires Feeds(c0, i, j) && c0.insns[i].op.CALL?
    requires (c0.insns[j].op == ALU1(ZCAST) || c0.insns[j].op == ALUI(SRLI)) && Feeds(c0, j, k)
    requires c.insns[k].op.SET_ALIAS?
    ensures c.insns[i] == c0.insns[i]
  {
    hide SsaOK, Covers, Retained;
    assert [i, j][..1] == [i];
    assert Carries(c0, [i]) && Carries(c0, [i, j]);
    assert InsnKept(c0.insns[k], c.insns[k]);
    ReadKeepsEffect(c0, regs0, c, regs, [i, j], k);
  }
}
