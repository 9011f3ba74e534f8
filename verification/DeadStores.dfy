/** rtl_opt_drop_dead_stores: which instructions the sweep removes, and when that is correct. */
module DeadStores {
  import opened Rtl
  import opened Liveness
  import opened Semantics
  import opened Flow
  import opened Unit
  import opened Kill
  import opened Invariant
  import opened Removal

  /** Instruction i computes a value that only other removable instructions use.  A side-effecting
      instruction is removable in this sense exactly when something does read its result: the sweep protects
      unread results of such instructions, but not results whose last reader the sweep itself removes. */
  ghost predicate Removable(d: Decl, insns: seq<Insn>, ignoreFexc: bool, i: int)
    decreases |insns| - i
  {
    && 0 <= i < |insns| && insns[i].dest != 0
    && !Guarded(insns[i].op, ignoreFexc)
    && (HasSideEffect(insns[i].op) ==> HasReader(d, insns, insns[i].dest))
    && forall j :: i < j < |insns| && Reads(d, insns[j], insns[i].dest) ==> Removable(d, insns, ignoreFexc, j)
  }

  /** What the sweep maintains up to register q. */
  ghost predicate Swept(c0: Code, regs0: seq<Reg>, c: Code, regs: seq<Reg>, q: int, ignoreFexc: bool) {
    && c == c0.(insns := c.insns) && OnlyNops(c0.insns, c.insns)
    && LiveOK(c.decl, c.insns, regs, {}) && Clean(c.decl, c.insns)
    && SweptKills(c0, c, regs, ignoreFexc)
    && SweptRanges(regs0, c, regs, q, ignoreFexc)
  }

  ghost predicate SweptKills(c0: Code, c: Code, regs: seq<Reg>, ignoreFexc: bool) {
    forall i :: Killed(c0.insns, c.insns, i) ==>
      && 0 < c0.insns[i].dest < |regs| && !regs[c0.insns[i].dest].live
      && !Guarded(c0.insns[i].op, ignoreFexc)
      && (HasSideEffect(c0.insns[i].op) ==> ReadByKilled(c0.decl, c0.insns, c.insns, c0.insns[i].dest))
  }

  ghost predicate SweptRanges(regs0: seq<Reg>, c: Code, regs: seq<Reg>, q: int, ignoreFexc: bool) {
    && |regs| == |regs0|
    && forall r :: 0 < r < |regs| ==>
         && regs[r].birth == regs0[r].birth && regs[r].source == regs0[r].source && regs[r].value == regs0[r].value
         && (regs[r].live ==> regs0[r].live && 0 <= regs[r].birth < |c.insns|)
         && (regs[r].live && regs[r].death == regs[r].birth ==>
               || Guarded(c.insns[regs[r].birth].op, ignoreFexc)
               || (regs0[r].death == regs0[r].birth && (r >= q || HasSideEffect(c.insns[regs[r].birth].op))))
  }

  lemma SweepStepKills(
    c0: Code, c: Code, regs: seq<Reg>, c': Code, regs': seq<Reg>, b: int, ignoreFexc: bool)
    requires OnlyNops(c0.insns, c.insns) && c.decl == c0.decl && SweptKills(c0, c, regs, ignoreFexc)
    requires 0 <= b < |c.insns| && 0 < c.insns[b].dest < |regs|
    requires !HasSideEffect(c.insns[b].op) && !Guarded(c.insns[b].op, ignoreFexc) && CleanInsn(c.decl, c.insns[b])
    requires Cascade(c.decl, WithoutInsn(c, b).insns, c'.insns, regs', b, ignoreFexc, Operands(c.decl, c.insns[b]))
    requires RangesShrink(WithoutInsn(c, b).insns, c'.insns, WithoutDest(regs, c.insns[b]), regs', b)
    ensures OnlyNops(c0.insns, c'.insns) && SweptKills(c0, c', regs', ignoreFexc)
  {
    var c1 := WithoutInsn(c, b);
    assert Killed(c.insns, c'.insns, b);
    forall i ensures Killed(c0.insns, c'.insns, i) <==>
      Killed(c0.insns, c.insns, i) || i == b || Killed(c1.insns, c'.insns, i) {}
    forall i | Killed(c0.insns, c'.insns, i)
      ensures 0 < c0.insns[i].dest < |regs'| && !regs'[c0.insns[i].dest].live
      ensures !Guarded(c0.insns[i].op, ignoreFexc)
      ensures HasSideEffect(c0.insns[i].op) ==> ReadByKilled(c0.decl, c0.insns, c'.insns, c0.insns[i].dest)
    {
      var r := c0.insns[i].dest;
      if Killed(c0.insns, c.insns, i) {
        if HasSideEffect(c0.insns[i].op) {
          var j :| Killed(c0.insns, c.insns, j) && Reads(c0.decl, c0.insns[j], r);
          assert Killed(c0.insns, c'.insns, j);
        }
      } else if i != b {
        if r in Operands(c.decl, c.insns[b]) {
          OperandsAreReads(c.decl, c.insns[b], r);
          assert Killed(c0.insns, c'.insns, b);
        } else {
          var j :| Killed(c1.insns, c'.insns, j) && Reads(c.decl, c1.insns[j], r);
          assert Killed(c0.insns, c'.insns, j);
        }
      }
    }
  }

  lemma SweepStepRanges(
    regs0: seq<Reg>, c: Code, regs: seq<Reg>, c': Code, regs': seq<Reg>, q: int, ignoreFexc: bool)
    requires 0 < q < |regs| && regs[q].live && regs[q].death == regs[q].birth && |c'.insns| == |c.insns|
    requires SweptRanges(regs0, c, regs, q, ignoreFexc) && SsaOK(c.insns, regs) && SsaOK(c'.insns, regs')
    requires OnlyNops(c.insns, c'.insns)
    requires RangesShrink(WithoutInsn(c, regs[q].birth).insns, c'.insns, WithoutDest(regs, c.insns[regs[q].birth]),
                          regs', regs[q].birth)
    requires NoNewDeadStores(c'.insns, WithoutDest(regs, c.insns[regs[q].birth]), regs', ignoreFexc, {})
    ensures SweptRanges(regs0, c', regs', q + 1, ignoreFexc)
  {
    var b := regs[q].birth;
    assert c.insns[b].dest == q;
    forall r | 0 < r < |regs'| && regs'[r].live
      ensures c'.insns[regs'[r].birth] == c.insns[regs[r].birth]
    {
      assert c'.insns[regs'[r].birth].dest == r;
    }
  }

  /** The sweep's two properties determine the set of removed instructions: exactly the removable ones. */
  lemma {:induction false} RemovedIffRemovable(
    c0: Code, regs0: seq<Reg>, c: Code, regs: seq<Reg>, ignoreFexc: bool, i: int)
    requires LiveOK(c0.decl, c0.insns, regs0, {}) && Clean(c0.decl, c0.insns) && Unflagged(c0.insns)
    requires Swept(c0, regs0, c, regs, |regs|, ignoreFexc)
    ensures Killed(c0.insns, c.insns, i) <==> Removable(c0.decl, c0.insns, ignoreFexc, i)
    decreases |c0.insns| - i
  {
    if 0 <= i < |c0.insns| && c0.insns[i].dest != 0 {
      var r := c0.insns[i].dest;
      forall j | i < j < |c0.insns| && Reads(c0.decl, c0.insns[j], r)
        ensures Killed(c0.insns, c.insns, j) <==> Removable(c0.decl, c0.insns, ignoreFexc, j)
      {
        RemovedIffRemovable(c0, regs0, c, regs, ignoreFexc, j);
      }
      if Killed(c0.insns, c.insns, i) {
        KilledIsRemovable(c0, regs0, c, regs, ignoreFexc, i);
      } else if Removable(c0.decl, c0.insns, ignoreFexc, i) {
        SurvivorNotRemovable(c0, regs0, c, regs, ignoreFexc, i);
      }
    } else if 0 <= i < |c0.insns| && Killed(c0.insns, c.insns, i) {
      assert false;
    }
  }

  lemma KilledIsRemovable(c0: Code, regs0: seq<Reg>, c: Code, regs: seq<Reg>, ignoreFexc: bool, i: int)
    requires LiveOK(c0.decl, c0.insns, regs0, {})
    requires Swept(c0, regs0, c, regs, |regs|, ignoreFexc) && Killed(c0.insns, c.insns, i)
    requires forall j ::
               i < j < |c0.insns| && Reads(c0.decl, c0.insns[j], c0.insns[i].dest) && Killed(c0.insns, c.insns, j)
               ==> Removable(c0.decl, c0.insns, ignoreFexc, j)
    ensures Removable(c0.decl, c0.insns, ignoreFexc, i)
  {
    var r := c0.insns[i].dest;
    assert forall j {:trigger c.insns[j]} :: 0 <= j < |c.insns| ==> !Reads(c.decl, c.insns[j], r);
    forall j | i < j < |c0.insns| && Reads(c0.decl, c0.insns[j], r) ensures Killed(c0.insns, c.insns, j) {}
  }

  lemma SurvivorNotRemovable(c0: Code, regs0: seq<Reg>, c: Code, regs: seq<Reg>, ignoreFexc: bool, i: int)
    requires LiveOK(c0.decl, c0.insns, regs0, {}) && Clean(c0.decl, c0.insns) && Unflagged(c0.insns)
    requires Swept(c0, regs0, c, regs, |regs|, ignoreFexc) && Removable(c0.decl, c0.insns, ignoreFexc, i)
    requires forall j :: i < j < |c0.insns| && Reads(c0.decl, c0.insns[j], c0.insns[i].dest) ==>
               Killed(c0.insns, c.insns, j)
    ensures Killed(c0.insns, c.insns, i)
  {
    var r := c0.insns[i].dest;
    forall j | 0 <= j < |c0.insns| && Reads(c0.decl, c0.insns[j], r) ensures regs0[r].birth < j <= regs0[r].death {}
    forall j | i < j < |c.insns| ensures !Reads(c.decl, c.insns[j], r) {
      assert Reads(c0.decl, c0.insns[j], r) ==> Killed(c0.insns, c.insns, j);
    }
    if c.insns[i] == c0.insns[i] {
      DeathReads(c, regs, r);
    }
  }

  /** A register that is used after its birth is read at its death. */
  lemma DeathReads(c: Code, regs: seq<Reg>, r: int)
    requires LiveOK(c.decl, c.insns, regs, {}) && Clean(c.decl, c.insns) && Unflagged(c.insns)
    requires 0 < r < |regs| && regs[r].live
    ensures regs[r].death == regs[r].birth
              || (regs[r].birth < regs[r].death < |c.insns| && Reads(c.decl, c.insns[regs[r].death], r))
  {
    assert Tight(c.decl, c.insns, regs, r) && CleanInsn(c.decl, c.insns[regs[r].death]);
  }

  lemma SweepStep(
    c0: Code, regs0: seq<Reg>, c: Code, regs: seq<Reg>, c': Code, regs': seq<Reg>, q: int, ignoreFexc: bool)
    requires 0 < q < |regs| && Swept(c0, regs0, c, regs, q, ignoreFexc)
    requires regs[q].live && regs[q].death == regs[q].birth
    requires !HasSideEffect(c.insns[regs[q].birth].op) && !Guarded(c.insns[regs[q].birth].op, ignoreFexc)
    requires LiveOK(c'.decl, c'.insns, regs', {}) && Clean(c'.decl, c'.insns)
    requires Released(WithoutInsn(c, regs[q].birth), c', WithoutDest(regs, c.insns[regs[q].birth]), regs',
                      regs[q].birth,
                      ignoreFexc, true, Operands(c.decl, c.insns[regs[q].birth]))
    ensures Swept(c0, regs0, c', regs', q + 1, ignoreFexc)
  {
    var b := regs[q].birth;
    assert CleanInsn(c.decl, c.insns[b]);
    SweepStepKills(c0, c, regs, c', regs', b, ignoreFexc);
    SweepStepRanges(regs0, c, regs, c', regs', q, ignoreFexc);
  }

  /** maybe_kill_store. */
  method MaybeKillStore(unit: RtlUnit, r: int, ignoreFexc: bool, ghost c0: Code, ghost regs0: seq<Reg>)
    requires 0 < r < |unit.regs| && Swept(c0, regs0, unit.Snap(), unit.regs, r, ignoreFexc)
    requires unit.regs[r].live && unit.regs[r].death == unit.regs[r].birth
    modifies unit`insns, unit`regs, unit`labels
    ensures Swept(c0, regs0, unit.Snap(), unit.regs, r + 1, ignoreFexc) && |unit.regs| == |regs0|
  {
    var b := unit.regs[r].birth;
    var op := unit.insns[b].op;
    if op.ATOMIC_INC? || op.CMPXCHG? || op.CALL? { return; }
    ghost var c, regs := unit.Snap(), unit.regs;
    assert c.insns[b].dest == r && CleanInsn(c.decl, c.insns[b]);
    hide Released, Covers, Tight, Operands, SweptKills;
    KillInsn(unit, b, ignoreFexc, true, {});
    if !Guarded(op, ignoreFexc) {
      SweepStep(c0, regs0, c, regs, unit.Snap(), unit.regs, r, ignoreFexc);
    }
  }

  /** The loop of rtl_opt_drop_dead_stores. */
  method Sweep(unit: RtlUnit, ignoreFexc: bool)
    requires LiveOK(unit.decl, unit.insns, unit.regs, {}) && Clean(unit.decl, unit.insns)
    modifies unit`insns, unit`regs, unit`labels
    ensures Swept(old(unit.Snap()), old(unit.regs), unit.Snap(), unit.regs, |unit.regs|, ignoreFexc)
  {
    hide Covers, Tight, Reads;
    ghost var c0, regs0 := unit.Snap(), unit.regs;
    var r := 1;
    while r < |unit.regs|
      invariant 1 <= r && |unit.regs| == |regs0| && r <= |regs0|
      invariant Swept(c0, regs0, unit.Snap(), unit.regs, r, ignoreFexc)
    {
      if unit.regs[r].live && unit.regs[r].death == unit.regs[r].birth {
        MaybeKillStore(unit, r, ignoreFexc, c0, regs0);
      }
      r := r + 1;
    }
  }

  /** No call or atomic operation of the stream is removable. */
  ghost predicate EffectsNeeded(c: Code, order: seq<int>, ignoreFexc: bool) {
    forall b, i {:trigger c.spans[b], c.insns[i]} ::
      b in order && SpanOK(c, b) && c.spans[b].first <= i <= c.spans[b].last && HasSideEffect(c.insns[i].op) ==>
        !Removable(c.decl, c.insns, ignoreFexc, i)
  }

  lemma SweptUnit(
    c0: Code, regs0: seq<Reg>, edges: seq<Edges>, owner: seq<int>, order: seq<int>, lastBlock: int,
    c: Code, regs: seq<Reg>, ignoreFexc: bool)
    requires WellFormed(c0, regs0, edges, owner, order, lastBlock, {})
    requires Swept(c0, regs0, c, regs, |regs|, ignoreFexc)
    ensures WellFormed(c, regs, edges, owner, order, lastBlock, {}) && RegsShrink(regs0, regs)
    ensures forall i :: Killed(c0.insns, c.insns, i) <==> Removable(c0.decl, c0.insns, ignoreFexc, i)
    ensures forall i :: Killed(c0.insns, c.insns, i) ==> c0.insns[i].dest != 0
    ensures EffectsNeeded(c0, order, ignoreFexc) ==> Refines(c0, c)
  {
    hide FlowOK, Wired, Covers, Tight, Refines, Removable, Reads;
    NoFlags(c0, order, lastBlock);
    forall i ensures Killed(c0.insns, c.insns, i) <==> Removable(c0.decl, c0.insns, ignoreFexc, i) {
      RemovedIffRemovable(c0, regs0, c, regs, ignoreFexc, i);
    }
    forall i | Killed(c0.insns, c.insns, i) ensures IsPlain(c0.insns[i].op) { assert CleanInsn(c0.decl, c0.insns[i]); }
    NopsKeepWellFormed(c0, regs0, edges, owner, order, lastBlock, c, regs);
    if EffectsNeeded(c0, order, ignoreFexc) {
      forall b, i | b in order && SpanOK(c0, b) && c0.spans[b].first <= i <= c0.spans[b].last
        && Killed(c0.insns, c.insns, i)
        ensures !HasSideEffect(c0.insns[i].op)
      {
        assert Removable(c0.decl, c0.insns, ignoreFexc, i);
      }
      KillsRefine(c0, c, regs, order, lastBlock);
    }
  }

  lemma NoFlags(c: Code, order: seq<int>, lastBlock: int)
    requires FlowOK(c, order, lastBlock)
    ensures Unflagged(c.insns)
  {
    hide StreamOK, Placed, TargetsOK;
  }

  /** Instruction i set a register that nothing reads any more; it cannot raise an exception that matters; and if it
      is a call or an atomic operation, something did read the register. */
  ghost predicate VanishesAs(d: Decl, insns0: seq<Insn>, insns: seq<Insn>, ignoreFexc: bool, i: int)
    requires 0 <= i < |insns0|
  {
    && !HasReader(d, insns, insns0[i].dest) && (insns0[i].op == FPU ==> ignoreFexc)
    && (insns0[i].op == CALL || insns0[i].op == ATOMIC_INC || insns0[i].op == CMPXCHG ==>
          HasReader(d, insns0, insns0[i].dest))
  }

  /** The removed instructions are known by what is left: they set registers that are no longer read. */
  lemma RemovableVanishes(
    d: Decl, insns0: seq<Insn>, regs0: seq<Reg>, insns: seq<Insn>, ignoreFexc: bool, i: int)
    requires OnlyNops(insns0, insns) && Covers(d, insns0, regs0) && SsaOK(insns0, regs0) && Clean(d, insns0)
    requires forall j :: Killed(insns0, insns, j) <==> Removable(d, insns0, ignoreFexc, j)
    requires 0 <= i < |insns0| && insns0[i].dest != 0
    ensures insns[i] == NopInsn <==> VanishesAs(d, insns0, insns, ignoreFexc, i)
    ensures insns0[i].op == FPU && !ignoreFexc ==> insns[i] == insns0[i]
  {
    var r := insns0[i].dest;
    assert Killed(insns0, insns, i) <==> insns[i] == NopInsn;
    if HasReader(d, insns, r) {
      var j :| 0 <= j < |insns| && Reads(d, insns[j], r);
      assert insns[j] == insns0[j] && Reads(d, insns0[j], r) && !Killed(insns0, insns, j);
    }
    if !HasReader(d, insns, r) {
      forall j | i < j < |insns0| && Reads(d, insns0[j], r) ensures Removable(d, insns0, ignoreFexc, j) {
        assert !Reads(d, insns[j], r);
      }
    }
  }

  /** rtl_opt_drop_dead_stores: one ascending sweep removes exactly the removable instructions, which preserves the
      unit's meaning unless a call or atomic operation is among them. */
  method DropDeadStores(unit: RtlUnit, ignoreFexc: bool)
    requires UnitOK(unit)
    modifies unit`insns, unit`regs, unit`labels
    ensures UnitOK(unit) && unit.Snap() == old(unit.Snap()).(insns := unit.insns)
    ensures OnlyNops(old(unit.insns), unit.insns) && RegsShrink(old(unit.regs), unit.regs)
    ensures forall i :: Killed(old(unit.insns), unit.insns, i) <==> Removable(unit.decl, old(unit.insns), ignoreFexc, i)
    ensures forall r :: 0 < r < |unit.regs| && unit.regs[r].live && unit.regs[r].death == unit.regs[r].birth ==>
              0 <= unit.regs[r].birth < |unit.insns|
              && (Guarded(unit.insns[unit.regs[r].birth].op, ignoreFexc)
                   || HasSideEffect(unit.insns[unit.regs[r].birth].op))
    ensures forall i :: 0 <= i < |unit.insns| && old(unit.insns)[i].op == FPU && !ignoreFexc ==>
              unit.insns[i] == old(unit.insns)[i]
    ensures forall i :: 0 <= i < |unit.insns| && old(unit.insns)[i].dest != 0 ==>
              (unit.insns[i] == NopInsn <==> VanishesAs(unit.decl, old(unit.insns), unit.insns, ignoreFexc, i))
    ensures EffectsNeeded(old(unit.Snap()), unit.order, ignoreFexc) ==> Refines(old(unit.Snap()), unit.Snap())
  {
    hide FlowOK, Wired, ConstOK, Covers, Tight, Refines, Removable, EffectsNeeded, SweptKills, SsaOK, Clean, VanishesAs;
    ghost var c0, regs0 := unit.Snap(), unit.regs;
    Sweep(unit, ignoreFexc);
    SweptUnit(c0, regs0, unit.edges, unit.owner, unit.order, unit.lastBlock, unit.Snap(), unit.regs, ignoreFexc);
    forall i | 0 <= i < |c0.insns| && c0.insns[i].dest != 0
      ensures unit.insns[i] == NopInsn <==> VanishesAs(unit.decl, c0.insns, unit.insns, ignoreFexc, i)
      ensures c0.insns[i].op == FPU && !ignoreFexc ==> unit.insns[i] == c0.insns[i]
    {
      RemovableVanishes(unit.decl, c0.insns, regs0, unit.insns, ignoreFexc, i);
    }
    OperationsSet(unit.decl, c0.insns);
  }

  lemma OperationsSet(d: Decl, insns: seq<Insn>)
    requires Clean(d, insns)
    ensures forall i :: 0 <= i < |insns| && insns[i].op == FPU ==> insns[i].dest != 0
  {
    forall i | 0 <= i < |insns| && insns[i].op == FPU ensures insns[i].dest != 0 { assert CleanInsn(d, insns[i]); }
  }
}
