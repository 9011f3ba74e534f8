/** Killing instructions: prev_reg_use, rollback_reg_death and rtl_opt_kill_insn. */
module Kill {
  import opened Rtl
  import opened Liveness
  import opened Unit

  /** prev_reg_use: the latest instruction before "end" naming r, or r's birth. */
  method PrevRegUse(unit: RtlUnit, r: int, end: int) returns (use: int)
    requires 0 < r < |unit.regs| && 0 <= unit.regs[r].birth < end <= |unit.insns|
    ensures unit.regs[r].birth <= use < end
    ensures use > unit.regs[r].birth ==> Names(unit.decl, unit.insns[use], r)
    ensures forall i :: use < i < end ==> !Names(unit.decl, unit.insns[i], r)
  {
    use := end - 1;
    while use > unit.regs[r].birth
      invariant unit.regs[r].birth <= use < end
      invariant forall i :: use < i < end ==> !Names(unit.decl, unit.insns[i], r)
    {
      if Names(unit.decl, unit.insns[use], r) { return; }
      use := use - 1;
    }
  }

  /** regs' is regs with r's death moved back to its previous use in c. */
  ghost predicate RolledBack(c: Code, regs: seq<Reg>, regs': seq<Reg>, r: int) {
    && 0 < r < |regs| == |regs'|
    && regs' == regs[r := regs[r].(death := regs'[r].death)]
    && 0 <= regs[r].birth <= regs'[r].death < regs[r].death <= |c.insns|
    && (regs'[r].death > regs[r].birth ==> Names(c.decl, c.insns[regs'[r].death], r))
    && (forall i :: regs'[r].death < i < regs[r].death ==> !Names(c.decl, c.insns[i], r))
  }

  /** rollback_reg_death: move r's death back to its previous use; true if r is now unused. */
  method RollbackRegDeath(unit: RtlUnit, r: int) returns (unused: bool)
    requires 0 < r < |unit.regs|
    requires 0 <= unit.regs[r].birth < unit.regs[r].death <= |unit.insns|
    modifies unit`regs
    ensures RolledBack(unit.Snap(), old(unit.regs), unit.regs, r)
    ensures unused <==> unit.regs[r].death == unit.regs[r].birth
  {
    var use := PrevRegUse(unit, r, unit.regs[r].death);
    unit.regs := unit.regs[r := unit.regs[r].(death := use)];
    unused := use <= unit.regs[r].birth;
  }

  // ---- What a kill may change ----

  predicate OnlyNops(a: seq<Insn>, b: seq<Insn>) {
    |b| == |a| && forall i :: 0 <= i < |a| ==> b[i] == a[i] || b[i] == NopInsn
  }

  predicate Killed(a: seq<Insn>, b: seq<Insn>, i: int) {
    0 <= i < |a| && |b| == |a| && a[i] != NopInsn && b[i] == NopInsn
  }

  /** The floating-point guard of rtl_opt_kill_insn. */
  predicate Guarded(op: Opcode, ignoreFexc: bool) { MayRaise(op) && !ignoreFexc }

  /** Some instruction killed between a and b reads r. */
  ghost predicate ReadByKilled(d: Decl, a: seq<Insn>, b: seq<Insn>, r: int) {
    exists j :: Killed(a, b, j) && Reads(d, a[j], r)
  }

  /** The effect of releasing operands on the code: only definitions below k die, each one unguarded, with
      a register nothing reads any more, and each because a reader of it died (or it is in "seeds"). */
  ghost predicate Cascade(
    d: Decl, a: seq<Insn>, b: seq<Insn>, regs': seq<Reg>, k: int, ignoreFexc: bool, seeds: set<int>)
  {
    && OnlyNops(a, b)
    && forall i :: Killed(a, b, i) ==>
         && i < k && 0 < a[i].dest < |regs'| && !regs'[a[i].dest].live
         && !Guarded(a[i].op, ignoreFexc)
         && (a[i].dest in seeds || ReadByKilled(d, a, b, a[i].dest))
  }

  /** The effect on live ranges: deaths only fall, only registers whose definition died stop being live,
      and ranges ending beyond k are untouched. */
  ghost predicate RangesShrink(a: seq<Insn>, b: seq<Insn>, regs: seq<Reg>, regs': seq<Reg>, k: int)
    requires |a| == |b|
  {
    && |regs'| == |regs|
    && forall r :: 0 <= r < |regs| ==>
         && regs'[r].source == regs[r].source && regs'[r].value == regs[r].value && regs'[r].birth == regs[r].birth
         && regs'[r].death <= regs[r].death
         && (regs[r].death > k || !regs[r].live ==> regs'[r] == regs[r])
         && (regs'[r].live != regs[r].live ==> regs[r].live && Killed(a, b, regs[r].birth))
  }

  /** With dse, a kill leaves no new dead store behind, except the guarded ones. */
  ghost predicate NoNewDeadStores(b: seq<Insn>, regs: seq<Reg>, regs': seq<Reg>, ignoreFexc: bool, pending: set<int>)
    requires |regs| == |regs'|
  {
    forall r :: 0 < r < |regs| && regs'[r].live && regs'[r].death == regs'[r].birth && r !in pending ==>
      || (regs[r].live && regs[r].death == regs[r].birth)
      || (0 <= regs[r].birth < |b| && Guarded(b[regs[r].birth].op, ignoreFexc))
  }

  /** Everything a release step guarantees about the unit. */
  ghost predicate Released(
    c: Code, c': Code, regs: seq<Reg>, regs': seq<Reg>, k: int, ignoreFexc: bool, dse: bool, seeds: set<int>)
  {
    && c' == c.(insns := c'.insns)
    && Cascade(c.decl, c.insns, c'.insns, regs', k, ignoreFexc, seeds)
    && RangesShrink(c.insns, c'.insns, regs, regs', k)
    && (!dse ==> c' == c)
    && (dse ==> NoNewDeadStores(c'.insns, regs, regs', ignoreFexc, {}))
  }

  lemma KilledCompose(a: seq<Insn>, b: seq<Insn>, e: seq<Insn>, i: int)
    requires OnlyNops(a, b) && OnlyNops(b, e)
    ensures Killed(a, e, i) <==> Killed(a, b, i) || Killed(b, e, i)
  {}

  lemma CascadeCompose(
    d: Decl, a: seq<Insn>, b: seq<Insn>, e: seq<Insn>, regs1: seq<Reg>, regs2: seq<Reg>,
    k: int, ignoreFexc: bool, seeds: set<int>)
    requires Cascade(d, a, b, regs1, k, ignoreFexc, seeds) && Cascade(d, b, e, regs2, k, ignoreFexc, seeds)
    requires RangesShrink(b, e, regs1, regs2, k)
    ensures Cascade(d, a, e, regs2, k, ignoreFexc, seeds)
  {
    forall i | Killed(a, e, i)
      ensures i < k && 0 < a[i].dest < |regs2| && !regs2[a[i].dest].live && !Guarded(a[i].op, ignoreFexc)
      ensures a[i].dest in seeds || ReadByKilled(d, a, e, a[i].dest)
    {
      KilledCompose(a, b, e, i);
      if ReadByKilled(d, a, b, a[i].dest) {
        var j :| Killed(a, b, j) && Reads(d, a[j], a[i].dest);
        KilledCompose(a, b, e, j);
      }
      if ReadByKilled(d, b, e, a[i].dest) {
        var j :| Killed(b, e, j) && Reads(d, b[j], a[i].dest);
        KilledCompose(a, b, e, j);
      }
    }
  }

  lemma ReleasedCompose(
    c: Code, c1: Code, c2: Code, regs: seq<Reg>, regs1: seq<Reg>, regs2: seq<Reg>,
    k: int, ignoreFexc: bool, dse: bool, seeds: set<int>)
    requires Released(c, c1, regs, regs1, k, ignoreFexc, dse, seeds)
    requires Released(c1, c2, regs1, regs2, k, ignoreFexc, dse, seeds)
    ensures Released(c, c2, regs, regs2, k, ignoreFexc, dse, seeds)
  {
    CascadeCompose(c.decl, c.insns, c1.insns, c2.insns, regs1, regs2, k, ignoreFexc, seeds);
    forall i ensures Killed(c.insns, c2.insns, i) <==> Killed(c.insns, c1.insns, i) || Killed(c1.insns, c2.insns, i) {
      KilledCompose(c.insns, c1.insns, c2.insns, i);
    }
  }

  // ---- rtl_opt_kill_insn ----

  /** The registers an instruction reads, as rtl_opt_kill_insn collects them. */
  function Operand1(d: Decl, insn: Insn): int {
    if insn.op.GET_ALIAS? && 0 <= insn.other < |d.base| then d.base[insn.other] else insn.src1
  }

  function Operand2(d: Decl, insn: Insn): int {
    if insn.op.SET_ALIAS? && 0 <= insn.other < |d.base| then d.base[insn.other] else insn.src2
  }

  function Operand3(insn: Insn): int { if HasSrc3(insn.op) then insn.other else 0 }

  function Operands(d: Decl, insn: Insn): set<int> { {Operand1(d, insn), Operand2(d, insn), Operand3(insn)} - {0} }

  /** Not a LABEL carrying a flag. */
  predicate NotFlagged(insn: Insn) { insn.op.LABEL? ==> insn.src1 == 0 }

  lemma OperandsAreReads(d: Decl, insn: Insn, r: int)
    requires CleanInsn(d, insn) && NotFlagged(insn)
    ensures r in Operands(d, insn) <==> Reads(d, insn, r)
  {}

  /** The code and register table right after instruction k became a NOP. */
  function WithoutInsn(c: Code, k: int): Code
    requires 0 <= k < |c.insns|
  {
    var insn := c.insns[k];
    c.(insns := c.insns[k := NopInsn],
       labels := if insn.op.LABEL? && 0 <= insn.other < |c.labels| then c.labels[insn.other := -1] else c.labels)
  }

  function WithoutDest(regs: seq<Reg>, insn: Insn): seq<Reg> {
    if 0 < insn.dest < |regs| then regs[insn.dest := regs[insn.dest].(live := false)] else regs
  }

  /** Registers waiting to be rolled back after instruction k died: live until k, born before it. */
  ghost predicate Pending(regs: seq<Reg>, pending: set<int>, k: int) {
    forall r <- pending :: 0 < r < |regs| && regs[r].live && regs[r].birth < regs[r].death == k
  }

  ghost predicate OperandReady(regs: seq<Reg>, s: int, k: int, pending: set<int>, dest: nat) {
    0 <= s < |regs| && (s != 0 && regs[s].death == k ==> s in pending && s != dest)
  }

  ghost predicate EndBeyond(regs: seq<Reg>, loose: set<int>, k: int) {
    forall r <- loose :: 0 < r < |regs| && regs[r].death > k
  }

  lemma OperandRanges(c: Code, regs: seq<Reg>, k: int)
    requires Covers(c.decl, c.insns, regs) && 0 <= k < |c.insns| && CleanInsn(c.decl, c.insns[k])
    requires NotFlagged(c.insns[k])
    ensures forall r <- Operands(c.decl, c.insns[k]) ::
              0 < r < |regs| && regs[r].live && regs[r].birth < k <= regs[r].death
  {
    forall r | r in Operands(c.decl, c.insns[k])
      ensures 0 < r < |regs| && regs[r].live && regs[r].birth < k <= regs[r].death
    {
      OperandsAreReads(c.decl, c.insns[k], r);
      assert Reads(c.decl, c.insns[k], r);
    }
  }

  lemma RemoveInsnCovers(c: Code, regs: seq<Reg>, k: int)
    requires SsaOK(c.insns, regs) && Covers(c.decl, c.insns, regs) && 0 <= k < |c.insns|
    requires c.insns[k].dest != 0 ==> regs[c.insns[k].dest].death == k
    ensures SsaOK(WithoutInsn(c, k).insns, WithoutDest(regs, c.insns[k]))
    ensures Covers(c.decl, WithoutInsn(c, k).insns, WithoutDest(regs, c.insns[k]))
  {
    var insns', regs' := WithoutInsn(c, k).insns, WithoutDest(regs, c.insns[k]);
    forall i, r | 0 <= i < |insns'| && Reads(c.decl, insns'[i], r)
      ensures r < |regs'| && regs'[r].live && regs'[r].birth < i <= regs'[r].death
    {
      assert i != k && Reads(c.decl, c.insns[i], r);
    }
  }

  lemma RemoveInsnTight(c: Code, regs: seq<Reg>, k: int, r: int)
    requires SsaOK(c.insns, regs) && 0 <= k < |c.insns| && CleanInsn(c.decl, c.insns[k]) && NotFlagged(c.insns[k])
    requires 0 < r < |regs| && Tight(c.decl, c.insns, regs, r)
    requires r in Operands(c.decl, c.insns[k]) ==> regs[r].death != k
    ensures Tight(c.decl, WithoutInsn(c, k).insns, WithoutDest(regs, c.insns[k]), r)
  {
    OperandsAreReads(c.decl, c.insns[k], r);
  }

  /** The registers whose last read is instruction k. */
  function DyingAt(c: Code, regs: seq<Reg>, k: int): set<int>
    requires 0 <= k < |c.insns|
  {
    set r | r in Operands(c.decl, c.insns[k]) && 0 < r < |regs| && regs[r].death == k
  }

  lemma RemoveInsn(c: Code, regs: seq<Reg>, k: int, loose: set<int>, pending: set<int>)
    requires LiveOK(c.decl, c.insns, regs, loose) && Clean(c.decl, c.insns) && 0 <= k < |c.insns|
    requires NotFlagged(c.insns[k]) && (c.insns[k].dest != 0 ==> regs[c.insns[k].dest].death == k)
    requires 0 <= k < |c.insns| && pending == DyingAt(c, regs, k)
    requires EndBeyond(regs, loose, k)
    ensures c.insns[k].dest < |regs|
    ensures pending <= {Operand1(c.decl, c.insns[k]), Operand2(c.decl, c.insns[k]), Operand3(c.insns[k])}
    ensures Operands(c.decl, c.insns[k]) ==
            {Operand1(c.decl, c.insns[k]), Operand2(c.decl, c.insns[k]), Operand3(c.insns[k])} - {0}
    ensures OperandReady(regs, Operand1(c.decl, c.insns[k]), k, pending, c.insns[k].dest)
    ensures OperandReady(regs, Operand2(c.decl, c.insns[k]), k, pending, c.insns[k].dest)
    ensures OperandReady(regs, Operand3(c.insns[k]), k, pending, c.insns[k].dest)
    ensures LiveOK(c.decl, WithoutInsn(c, k).insns, WithoutDest(regs, c.insns[k]), loose + pending)
    ensures Clean(c.decl, WithoutInsn(c, k).insns)
    ensures Pending(WithoutDest(regs, c.insns[k]), pending, k)
    ensures EndBeyond(WithoutDest(regs, c.insns[k]), loose, k)
  {
    assert CleanInsn(c.decl, c.insns[k]);
    OperandRanges(c, regs, k);
    RemoveInsnCovers(c, regs, k);
    forall s | s in Operands(c.decl, c.insns[k]) ensures OperandReady(regs, s, k, pending, c.insns[k].dest) {}
    assert forall s <- {Operand1(c.decl, c.insns[k]), Operand2(c.decl, c.insns[k]), Operand3(c.insns[k])} ::
        s != 0 ==> s in Operands(c.decl, c.insns[k]);
    var insns', regs' := WithoutInsn(c, k).insns, WithoutDest(regs, c.insns[k]);
    forall r | 0 < r < |regs'| && r !in loose + pending ensures Tight(c.decl, insns', regs', r) {
      RemoveInsnTight(c, regs, k, r);
    }
  }

  lemma RollbackKeepsLive(d: Decl, insns: seq<Insn>, regs: seq<Reg>, regs': seq<Reg>, loose: set<int>, s: int)
    requires LiveOK(d, insns, regs, loose) && 0 < s < |regs| && regs[s].live
    requires RolledBack(Code(d, insns, [], []), regs, regs', s) && regs[s].death < |insns|
    requires !Reads(d, insns[regs[s].death], s)
    ensures LiveOK(d, insns, regs', loose - {s})
  {
    forall i, r | 0 <= i < |insns| && Reads(d, insns[i], r)
      ensures r < |regs'| && regs'[r].live && regs'[r].birth < i <= regs'[r].death
    {
      assert r < |regs| && regs[r].live && regs[r].birth < i <= regs[r].death;
      if r == s { assert Names(d, insns[i], s) && i != regs[s].death; }
    }
    forall r | 0 < r < |regs'| && r !in loose - {s} ensures Tight(d, insns, regs', r) {
      if r != s { assert Tight(d, insns, regs, r); }
    }
  }

  /** Rolling register s back without killing its definition. */
  lemma ReleaseByRollback(
    c: Code, regs: seq<Reg>, regs': seq<Reg>, s: int, k: int, ignoreFexc: bool, dse: bool)
    requires 0 < s < |regs| && regs[s].live && 0 <= regs[s].birth < |c.insns| && regs[s].death == k
    requires |regs'| == |regs| && regs' == regs[s := regs[s].(death := regs'[s].death)]
    requires regs'[s].death < k
    requires regs'[s].death == regs[s].birth && dse ==> Guarded(c.insns[regs[s].birth].op, ignoreFexc)
    ensures Released(c, c, regs, regs', k, ignoreFexc, dse, {s})
  {
  }

  lemma ReleaseNothing(c: Code, regs: seq<Reg>, k: int, ignoreFexc: bool, dse: bool, seeds: set<int>)
    ensures Released(c, c, regs, regs, k, ignoreFexc, dse, seeds)
  {
  }

  lemma ReleaseRanges(
    c: Code, c2: Code, regs: seq<Reg>, regs1: seq<Reg>, regs2: seq<Reg>, s: int, k: int, ignoreFexc: bool)
    requires 0 < s < |regs| && regs[s].live && 0 <= regs[s].birth < k && regs[s].death == k
    requires |regs1| == |regs| && regs1 == regs[s := regs[s].(death := regs[s].birth)]
    requires regs[s].birth < |c.insns| && c.insns[regs[s].birth].dest == s
    requires var b := regs[s].birth; var c1, regs1' := WithoutInsn(c, b), WithoutDest(regs1, c.insns[b]);
      && OnlyNops(c1.insns, c2.insns)
      && RangesShrink(c1.insns, c2.insns, regs1', regs2, b)
      && NoNewDeadStores(c2.insns, regs1', regs2, ignoreFexc, {})
    ensures RangesShrink(c.insns, c2.insns, regs, regs2, k)
    ensures NoNewDeadStores(c2.insns, regs, regs2, ignoreFexc, {})
  {
    var b := regs[s].birth;
    var c1 := WithoutInsn(c, b);
    assert Killed(c.insns, c2.insns, b);
    forall i | Killed(c1.insns, c2.insns, i) ensures Killed(c.insns, c2.insns, i) {}
  }

  /** Killing the now unused definition b of register s, seen from the instruction that released s. */
  lemma ReleaseByKill(
    c: Code, c2: Code, regs: seq<Reg>, regs1: seq<Reg>, regs2: seq<Reg>,
    s: int, k: int, ignoreFexc: bool, loose: set<int>)
    requires 0 < s < |regs| && regs[s].live && 0 <= regs[s].birth < k && regs[s].death == k
    requires |regs1| == |regs| && regs1 == regs[s := regs[s].(death := regs[s].birth)]
    requires regs[s].birth < |c.insns| && c.insns[regs[s].birth].dest == s
    requires LiveOK(c.decl, c.insns, regs1, loose) && Clean(c.decl, c.insns)
    requires !Guarded(c.insns[regs[s].birth].op, ignoreFexc)
    requires Released(WithoutInsn(c, regs[s].birth), c2, WithoutDest(regs1, c.insns[regs[s].birth]), regs2,
                      regs[s].birth, ignoreFexc, true, Operands(c.decl, c.insns[regs[s].birth]))
    ensures Released(c, c2, regs, regs2, k, ignoreFexc, true, {s})
  {
    var b := regs[s].birth;
    var insn := c.insns[b];
    var c1 := WithoutInsn(c, b);
    assert CleanInsn(c.decl, insn);
    assert Killed(c.insns, c2.insns, b);
    forall i ensures Killed(c.insns, c2.insns, i) <==> i == b || Killed(c1.insns, c2.insns, i) {}
    forall i | Killed(c.insns, c2.insns, i)
      ensures i < k && 0 < c.insns[i].dest < |regs2| && !regs2[c.insns[i].dest].live
      ensures !Guarded(c.insns[i].op, ignoreFexc)
      ensures c.insns[i].dest in {s} || ReadByKilled(c.decl, c.insns, c2.insns, c.insns[i].dest)
    {
      if i != b {
        assert Killed(c1.insns, c2.insns, i);
        var r := c.insns[i].dest;
        OperandsAreReads(c.decl, insn, r);
        if ReadByKilled(c.decl, c1.insns, c2.insns, r) {
          var j :| Killed(c1.insns, c2.insns, j) && Reads(c.decl, c1.insns[j], r);
          assert Killed(c.insns, c2.insns, j);
        }
      }
    }
    ReleaseRanges(c, c2, regs, regs1, regs2, s, k, ignoreFexc);
  }

  lemma ReleasedWiden(
    c: Code, c': Code, regs: seq<Reg>, regs': seq<Reg>,
    k: int, ignoreFexc: bool, dse: bool, seeds: set<int>, seeds': set<int>)
    requires Released(c, c', regs, regs', k, ignoreFexc, dse, seeds) && seeds - {0} <= seeds'
    ensures Released(c, c', regs, regs', k, ignoreFexc, dse, seeds')
  {
    forall i | Killed(c.insns, c'.insns, i) && c.insns[i].dest in seeds ensures c.insns[i].dest in seeds' {
      assert c.insns[i].dest in seeds - {0};
    }
  }

  lemma ReleasedThrice(
    c1: Code, c2: Code, c3: Code, c4: Code, regs1: seq<Reg>, regs2: seq<Reg>, regs3: seq<Reg>, regs4: seq<Reg>,
    k: int, ignoreFexc: bool, dse: bool, s1: int, s2: int, s3: int)
    requires Released(c1, c2, regs1, regs2, k, ignoreFexc, dse, {s3})
    requires Released(c2, c3, regs2, regs3, k, ignoreFexc, dse, {s2})
    requires Released(c3, c4, regs3, regs4, k, ignoreFexc, dse, {s1})
    ensures Released(c1, c4, regs1, regs4, k, ignoreFexc, dse, {s1, s2, s3} - {0})
  {
    var seeds := {s1, s2, s3} - {0};
    ReleasedWiden(c1, c2, regs1, regs2, k, ignoreFexc, dse, {s3}, seeds);
    ReleasedWiden(c2, c3, regs2, regs3, k, ignoreFexc, dse, {s2}, seeds);
    ReleasedWiden(c3, c4, regs3, regs4, k, ignoreFexc, dse, {s1}, seeds);
    ReleasedCompose(c1, c2, c3, regs1, regs2, regs3, k, ignoreFexc, dse, seeds);
    ReleasedCompose(c1, c3, c4, regs1, regs3, regs4, k, ignoreFexc, dse, seeds);
  }

  lemma ReleasedDeaths(
    c: Code, c': Code, regs: seq<Reg>, regs': seq<Reg>, k: int, ignoreFexc: bool, dse: bool, seeds: set<int>)
    requires Released(c, c', regs, regs', k, ignoreFexc, dse, seeds)
    ensures |c'.insns| == |c.insns| && forall i :: k <= i < |c.insns| && i >= 0 ==> c'.insns[i] == c.insns[i]
    ensures |regs'| == |regs| && forall r :: 0 <= r < |regs| ==> regs'[r].death <= regs[r].death
    ensures forall r :: 0 <= r < |regs| && regs[r].death > k ==> regs'[r] == regs[r]
  {
    forall i | k <= i < |c.insns| && i >= 0 ensures c'.insns[i] == c.insns[i] {
      assert !Killed(c.insns, c'.insns, i);
    }
  }

  /** The recursion of rtl_opt_kill_insn: register s, last read by the killed instruction k, is unused. */
  method KillUnused(
    unit: RtlUnit, s: int, k: int, ignoreFexc: bool, ghost loose: set<int>, ghost pending: set<int>,
    ghost regs0: seq<Reg>)
    requires 0 < s < |regs0| && regs0[s].live && 0 <= regs0[s].birth < regs0[s].death == k < |unit.insns|
    requires unit.insns[k] == NopInsn
    requires unit.regs == regs0[s := regs0[s].(death := regs0[s].birth)]
    requires LiveOK(unit.decl, unit.insns, unit.regs, loose + pending) && Clean(unit.decl, unit.insns)
    requires Pending(unit.regs, pending, k) && EndBeyond(unit.regs, loose, k) && s !in loose + pending
    modifies unit`insns, unit`regs, unit`labels
    ensures LiveOK(unit.decl, unit.insns, unit.regs, loose + pending) && Clean(unit.decl, unit.insns)
    ensures Released(old(unit.Snap()), unit.Snap(), regs0, unit.regs, k, ignoreFexc, true, {s})
    ensures Pending(unit.regs, pending, k) && EndBeyond(unit.regs, loose, k)
    ensures |unit.insns| == |old(unit.insns)| && unit.insns[k] == NopInsn && |unit.regs| == |regs0|
    ensures forall r :: 0 < r < |unit.regs| && unit.regs[r].death == k ==> r != s && regs0[r].death == k
    decreases k, 0
  {
    hide Released, Covers, Tight, Reads, Names, Operands;
    ghost var c0, regs1, b := unit.Snap(), unit.regs, regs0[s].birth;
    KillInsn(unit, unit.regs[s].birth, ignoreFexc, true, loose + pending);
    if Guarded(c0.insns[b].op, ignoreFexc) {
      ReleaseByRollback(c0, regs0, unit.regs, s, k, ignoreFexc, true);
    } else {
      ReleasedDeaths(WithoutInsn(c0, b), unit.Snap(), WithoutDest(regs1, c0.insns[b]), unit.regs, b, ignoreFexc, true,
                     Operands(c0.decl, c0.insns[b]));
      ReleaseByKill(c0, unit.Snap(), regs0, regs1, unit.regs, s, k, ignoreFexc, loose + pending);
    }
  }

  /** The step rtl_opt_kill_insn repeats for each operand s of the killed instruction k. */
  method ReleaseOperand(
    unit: RtlUnit, s: int, k: int, ignoreFexc: bool, dse: bool, ghost loose: set<int>, ghost pending: set<int>)
    requires LiveOK(unit.decl, unit.insns, unit.regs, loose + pending) && Clean(unit.decl, unit.insns)
    requires 0 <= k < |unit.insns| && 0 <= s < |unit.regs| && unit.insns[k] == NopInsn
    requires Pending(unit.regs, pending, k) && EndBeyond(unit.regs, loose, k)
    requires s != 0 && unit.regs[s].death == k ==> s in pending
    modifies unit`insns, unit`regs, unit`labels
    ensures LiveOK(unit.decl, unit.insns, unit.regs, loose + (pending - {s})) && Clean(unit.decl, unit.insns)
    ensures Released(old(unit.Snap()), unit.Snap(), old(unit.regs), unit.regs, k, ignoreFexc, dse, {s})
    ensures Pending(unit.regs, pending - {s}, k) && EndBeyond(unit.regs, loose, k)
    ensures |unit.insns| == |old(unit.insns)| && unit.insns[k] == NopInsn && |unit.regs| == |old(unit.regs)|
    ensures forall r :: 0 < r < |unit.regs| && unit.regs[r].death == k ==> r != s && old(unit.regs)[r].death == k
    decreases k, 1
  {
    hide Released, Covers, Tight, SsaOK;
    ghost var c0, regs0 := unit.Snap(), unit.regs;
    if s != 0 && unit.regs[s].death == k {
      assert 0 <= regs0[s].birth < |c0.insns| by { BirthInRange(c0, regs0, s, loose + pending); }
      var unused := RollbackRegDeath(unit, s);
      RollbackKeepsLive(unit.decl, unit.insns, regs0, unit.regs, loose + pending, s);
      assert loose + pending - {s} == loose + (pending - {s});
      if unused && dse {
        KillUnused(unit, s, k, ignoreFexc, loose, pending - {s}, regs0);
      } else {
        ReleaseByRollback(c0, regs0, unit.regs, s, k, ignoreFexc, dse);
      }
    } else {
      ReleaseNothing(c0, unit.regs, k, ignoreFexc, dse, {s});
      assert pending - {s} == pending || s in pending;
    }
  }

  lemma BirthInRange(c: Code, regs: seq<Reg>, r: int, loose: set<int>)
    requires LiveOK(c.decl, c.insns, regs, loose) && 0 < r < |regs| && regs[r].live
    ensures 0 <= regs[r].birth < |c.insns|
  {}

  /** The tail of rtl_opt_kill_insn: release the three operands, src1 last. */
  method ReleaseOperands(
    unit: RtlUnit, src1: int, src2: int, src3: int, k: int, ignoreFexc: bool, dse: bool,
    ghost loose: set<int>, ghost pending: set<int>)
    requires LiveOK(unit.decl, unit.insns, unit.regs, loose + pending) && Clean(unit.decl, unit.insns)
    requires 0 <= k < |unit.insns| && unit.insns[k] == NopInsn
    requires Pending(unit.regs, pending, k) && EndBeyond(unit.regs, loose, k)
    requires 0 <= src1 < |unit.regs| && (src1 != 0 && unit.regs[src1].death == k ==> src1 in pending)
    requires 0 <= src2 < |unit.regs| && (src2 != 0 && unit.regs[src2].death == k ==> src2 in pending)
    requires 0 <= src3 < |unit.regs| && (src3 != 0 && unit.regs[src3].death == k ==> src3 in pending)
    requires pending <= {src1, src2, src3}
    modifies unit`insns, unit`regs, unit`labels
    ensures LiveOK(unit.decl, unit.insns, unit.regs, loose) && Clean(unit.decl, unit.insns)
    ensures Released(old(unit.Snap()), unit.Snap(), old(unit.regs), unit.regs,
                     k, ignoreFexc, dse, {src1, src2, src3} - {0})
    decreases k, 2
  {
    hide Released, LiveOK, Clean;
    ghost var c1, regs1 := unit.Snap(), unit.regs;
    ReleaseOperand(unit, src3, k, ignoreFexc, dse, loose, pending);
    ghost var c2, regs2 := unit.Snap(), unit.regs;
    ReleaseOperand(unit, src2, k, ignoreFexc, dse, loose, pending - {src3});
    ghost var c3, regs3 := unit.Snap(), unit.regs;
    ReleaseOperand(unit, src1, k, ignoreFexc, dse, loose, pending - {src3} - {src2});
    assert loose + (pending - {src3} - {src2} - {src1}) == loose;
    ReleasedThrice(c1, c2, c3, unit.Snap(), regs1, regs2, regs3, unit.regs, k, ignoreFexc, dse, src1, src2, src3);
  }

  /** rtl_opt_kill_insn: replace instruction k by NOP, shorten the live ranges that ended there and, with
      dse, kill the definitions that nothing reads any more. */
  method KillInsn(unit: RtlUnit, k: int, ignoreFexc: bool, dse: bool, ghost loose: set<int>)
    requires LiveOK(unit.decl, unit.insns, unit.regs, loose) && Clean(unit.decl, unit.insns)
    requires 0 <= k < |unit.insns|
    requires unit.insns[k].dest != 0 ==> unit.regs[unit.insns[k].dest].death == k
    requires unit.insns[k].op.LABEL? ==> 0 <= unit.insns[k].other < |unit.labels| && unit.insns[k].src1 == 0
    requires EndBeyond(unit.regs, loose, k)
    modifies unit`insns, unit`regs, unit`labels
    ensures LiveOK(unit.decl, unit.insns, unit.regs, loose) && Clean(unit.decl, unit.insns)
    ensures if Guarded(old(unit.insns)[k].op, ignoreFexc) then
              unit.Snap() == old(unit.Snap()) && unit.regs == old(unit.regs)
            else
              Released(WithoutInsn(old(unit.Snap()), k), unit.Snap(),
                       WithoutDest(old(unit.regs), old(unit.insns)[k]), unit.regs,
                       k, ignoreFexc, dse, Operands(unit.decl, old(unit.insns)[k]))
    decreases k, 3
  {
    hide Released, LiveOK, Clean, Names, Reads, Operands, Operand1, Operand2, Operand3, DyingAt, Pending, EndBeyond;
    var insn := unit.insns[k];
    if !ignoreFexc && MayRaise(insn.op) { return; }
    var src1, src2, src3 := Operand1(unit.decl, insn), Operand2(unit.decl, insn), Operand3(insn);
    ghost var pending := DyingAt(unit.Snap(), unit.regs, k);
    RemoveInsn(unit.Snap(), unit.regs, k, loose, pending);
    if insn.dest != 0 {
      unit.regs := unit.regs[insn.dest := unit.regs[insn.dest].(live := false)];
    }
    if insn.op.LABEL? {
      unit.labels := unit.labels[insn.other := -1];
    }
    unit.insns := unit.insns[k := NopInsn];
    ReleaseOperands(unit, src1, src2, src3, k, ignoreFexc, dse, loose, pending);
  }
}
