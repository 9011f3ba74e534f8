/** Motion of condition-register stores around a branch (guest-ppc-optimize.c), on top of rtl_opt_kill_insn. */
module CrStores {
  import opened Rtl
  import opened Liveness
  import opened Unit
  import opened Kill

  /** What holds of the unit while the guest translator works on it. */
  ghost predicate RangesOK(d: Decl, insns: seq<Insn>, regs: seq<Reg>) {
    LiveOK(d, insns, regs, {}) && Clean(d, insns) && Unflagged(insns)
  }

  /** Instruction k is the only one that reads r. */
  ghost predicate OnlyReader(d: Decl, insns: seq<Insn>, r: int, k: int) {
    forall j {:trigger Reads(d, insns[j], r)} :: 0 <= j < |insns| && Reads(d, insns[j], r) ==> j == k
  }

  lemma NamesIsReads(d: Decl, insns: seq<Insn>, j: int, r: int)
    requires Clean(d, insns) && Unflagged(insns) && 0 <= j < |insns|
    ensures Names(d, insns[j], r) <==> Reads(d, insns[j], r)
  {
    assert CleanInsn(d, insns[j]);
  }

  /** is_reg_killable: is there no other reader of the register than instruction k? */
  method IsRegKillable(unit: RtlUnit, r: int, k: int) returns (killable: bool)
    requires RangesOK(unit.decl, unit.insns, unit.regs) && 0 < r < |unit.regs| && unit.regs[r].live
    requires unit.regs[r].birth < k < |unit.insns|
    ensures killable <==> OnlyReader(unit.decl, unit.insns, r, k)
    ensures killable && !Reads(unit.decl, unit.insns[k], r) ==> unit.regs[r].death == unit.regs[r].birth
  {
    var d, insns, reg := unit.decl, unit.insns, unit.regs[r];
    forall j | 0 <= j < |insns|
      ensures Names(d, insns[j], r) <==> Reads(d, insns[j], r) { NamesIsReads(d, insns, j, r); }
    assert Tight(d, insns, unit.regs, r);
    if reg.death > k {
      assert Reads(d, insns[reg.death], r);
      return false;
    } else {
      var use := PrevRegUse(unit, r, k);
      killable := use == reg.birth;
      if !killable { assert Reads(d, insns[use], r); }
    }
  }

  /** The code after a store, and possibly the definition of the stored value, has been removed. */
  function StoreGone(insns: seq<Insn>, k: int, birth: int, withValue: bool): seq<Insn>
    requires 0 <= k < |insns| && 0 <= birth < |insns|
  {
    if withValue then insns[k := NopInsn][birth := NopInsn] else insns[k := NopInsn]
  }

  ghost predicate SameBirths(regs: seq<Reg>, regs': seq<Reg>) {
    |regs'| == |regs| && forall r :: 0 <= r < |regs| ==> regs'[r].birth == regs[r].birth
  }

  /** Killing one instruction without dse. */
  lemma OneKilled(c: Code, c': Code, regs: seq<Reg>, regs': seq<Reg>, k: int)
    requires 0 <= k < |c.insns| && !c.insns[k].op.LABEL?
    requires Released(WithoutInsn(c, k), c', WithoutDest(regs, c.insns[k]), regs', k, false, false,
                      Operands(c.decl, c.insns[k]))
    ensures c' == c.(insns := c.insns[k := NopInsn]) && SameBirths(regs, regs')
  {}

  lemma UnflaggedKept(insns: seq<Insn>, k: int)
    requires Unflagged(insns) && 0 <= k < |insns|
    ensures Unflagged(insns[k := NopInsn])
  {}

  lemma StoreFacts(d: Decl, insns: seq<Insn>, regs: seq<Reg>, k: int)
    requires RangesOK(d, insns, regs) && 0 <= k < |insns| && insns[k].op.SET_ALIAS? && insns[k].src1 != 0
    ensures var r := insns[k].src1;
      && Reads(d, insns[k], r) && r < |regs| && regs[r].live && 0 <= regs[r].birth < k
      && insns[regs[r].birth].dest == r && !insns[regs[r].birth].op.LABEL? && insns[k].dest == 0
  {
    var r := insns[k].src1;
    assert Reads(d, insns[k], r) && CleanInsn(d, insns[k]) && CleanInsn(d, insns[regs[r].birth]);
  }

  lemma ReadersKept(d: Decl, insns: seq<Insn>, r: int, k: int)
    requires 0 <= k < |insns|
    ensures OnlyReader(d, insns[k := NopInsn], r, k) <==> OnlyReader(d, insns, r, k)
    ensures !Reads(d, NopInsn, r)
  {
    var insns' := insns[k := NopInsn];
    forall j | 0 <= j < |insns| && j != k ensures Reads(d, insns'[j], r) <==> Reads(d, insns[j], r) {}
  }

  lemma SoundParts(d: Decl, insns: seq<Insn>, regs: seq<Reg>)
    requires RangesOK(d, insns, regs)
    ensures LiveOK(d, insns, regs, {}) && Clean(d, insns) && Unflagged(insns)
  {}

  lemma SoundMade(d: Decl, insns: seq<Insn>, regs: seq<Reg>)
    requires LiveOK(d, insns, regs, {}) && Clean(d, insns) && Unflagged(insns)
    ensures RangesOK(d, insns, regs)
  {}

  lemma NothingBeyond(regs: seq<Reg>, k: int)
    ensures EndBeyond(regs, {}, k)
  {}

  /** The register stays live when one of its readers dies. */
  lemma StaysLive(insns: seq<Insn>, insns': seq<Insn>, regs: seq<Reg>, regs': seq<Reg>, k: int, r: int)
    requires 0 <= k < |insns| && insns' == insns[k := NopInsn] && insns[k].dest == 0
    requires SsaOK(insns, regs) && SsaOK(insns', regs') && SameBirths(regs, regs') && 0 < r < |regs| && regs[r].live
    ensures regs'[r].live
  {
    assert insns'[regs[r].birth].dest == r;
  }

  lemma SoundSsa(d: Decl, insns: seq<Insn>, regs: seq<Reg>)
    requires RangesOK(d, insns, regs)
    ensures SsaOK(insns, regs)
  {}

  /** kill_alias_store.  The result says whether the value had no other reader and was to be killed; a definition that
      may raise a floating-point exception is reported as eliminated and stays. */
  method KillAliasStore(unit: RtlUnit, k: int, killValue: bool) returns (setInsn: Insn, eliminated: bool)
    requires RangesOK(unit.decl, unit.insns, unit.regs) && 0 <= k < |unit.insns|
    requires unit.insns[k].op.SET_ALIAS? && unit.insns[k].src1 != 0
    modifies unit`insns, unit`regs, unit`labels
    ensures RangesOK(unit.decl, unit.insns, unit.regs) && SameBirths(old(unit.regs), unit.regs)
    ensures unit.labels == old(unit.labels)
    ensures var r := old(unit.insns)[k].src1;
      && 0 < r < |old(unit.regs)| && 0 <= old(unit.regs)[r].birth < k
      && setInsn == old(unit.insns)[old(unit.regs)[r].birth] && setInsn.dest == r
      && (eliminated <==> killValue && OnlyReader(unit.decl, old(unit.insns), r, k))
      && unit.insns == StoreGone(old(unit.insns), k, old(unit.regs)[r].birth, eliminated && !Guarded(setInsn.op, false))
  {
    hide LiveOK, Clean, Unflagged, Released, OnlyReader, RangesOK, SsaOK, Reads;
    ghost var c, regs := unit.Snap(), unit.regs;
    StoreFacts(c.decl, c.insns, regs, k);
    SoundParts(c.decl, c.insns, regs);
    NothingBeyond(regs, k);
    var r := unit.insns[k].src1;
    KillInsn(unit, k, false, false, {});
    OneKilled(c, unit.Snap(), regs, unit.regs, k);
    UnflaggedKept(c.insns, k);
    SoundMade(unit.decl, unit.insns, unit.regs);
    ReadersKept(c.decl, c.insns, r, k);
    SoundSsa(c.decl, c.insns, regs);
    SoundSsa(unit.decl, unit.insns, unit.regs);
    StaysLive(c.insns, unit.insns, regs, unit.regs, k, r);
    var birth := unit.regs[r].birth;
    setInsn := unit.insns[birth];
    eliminated := false;
    if killValue {
      eliminated := IsRegKillable(unit, r, k);
      if eliminated {
        ghost var c1, regs1 := unit.Snap(), unit.regs;
        NothingBeyond(regs1, birth);
        KillInsn(unit, birth, false, false, {});
        if !Guarded(setInsn.op, false) {
          OneKilled(c1, unit.Snap(), regs1, unit.regs, birth);
          UnflaggedKept(c1.insns, birth);
        }
        SoundMade(unit.decl, unit.insns, unit.regs);
      }
    }
  }

  // ---- Sets of CR bits ----

  const CR_BITS := 32

  /** The last stores to the CR bits: distinct SET_ALIAS instructions of distinct registers. */
  ghost predicate StoresOK(insns: seq<Insn>, lastSet: seq<int>) {
    && |lastSet| == CR_BITS && (forall b :: 0 <= b < CR_BITS && lastSet[b] >= 0 ==> IsStore(insns, lastSet[b]))
    && forall a, b :: 0 <= a < b < CR_BITS && lastSet[a] >= 0 && lastSet[b] >= 0 ==>
         Apart(insns, lastSet[a], lastSet[b])
  }

  predicate IsStore(insns: seq<Insn>, k: int) {
    0 <= k < |insns| && insns[k].op.SET_ALIAS? && insns[k].src1 != 0
  }

  predicate Apart(insns: seq<Insn>, j: int, k: int) {
    0 <= j < |insns| && 0 <= k < |insns| && j != k && insns[j].src1 != insns[k].src1
  }

  /** The register whose value bit b's store holds. */
  function ValueReg(insns: seq<Insn>, lastSet: seq<int>, b: int): nat
    requires |lastSet| == CR_BITS && 0 <= b < CR_BITS && IsStore(insns, lastSet[b])
  {
    insns[lastSet[b]].src1
  }

  /** Instruction i goes away with the stores of "bits": it is one of them, or defines the value of one whose value may
      be killed. */
  ghost predicate MayGo(insns: seq<Insn>, regs: seq<Reg>, lastSet: seq<int>, bits: set<int>, spared: int, i: int) {
    && |lastSet| == CR_BITS
    && exists b :: b in bits && 0 <= b < CR_BITS && IsStore(insns, lastSet[b]) &&
         (i == lastSet[b] || (b != spared && GoesWith(insns, regs, lastSet, b, i)))
  }

  predicate GoesWith(insns: seq<Insn>, regs: seq<Reg>, lastSet: seq<int>, b: int, i: int)
    requires |lastSet| == CR_BITS && 0 <= b < CR_BITS && IsStore(insns, lastSet[b])
  {
    var r := ValueReg(insns, lastSet, b);
    r < |regs| && regs[r].birth == i
  }

  /** The stores of "bits" have been removed, and nothing but what may go with them; "spared" is the bit whose value is
      kept (-1 for none). */
  ghost predicate Trimmed(
    d: Decl, insns0: seq<Insn>, regs0: seq<Reg>, last0: seq<int>, insns: seq<Insn>, regs: seq<Reg>, lastSet: seq<int>,
    bits: set<int>, spared: int)
  {
    && |last0| == |lastSet| == CR_BITS && |insns| == |insns0| && SameBirths(regs0, regs) && RangesOK(d, insns, regs)
    && (forall b :: 0 <= b < CR_BITS ==> lastSet[b] == if b in bits then -1 else last0[b])
    && (forall b :: b in bits ==> 0 <= b < CR_BITS && IsStore(insns0, last0[b]) && insns[last0[b]] == NopInsn)
    && forall i :: 0 <= i < |insns| ==>
         insns[i] == insns0[i] || (insns[i] == NopInsn && MayGo(insns0, regs0, last0, bits, spared, i))
  }

  /** A value nothing but its store reads, and which neither is spared nor may raise an exception, is gone. */
  ghost predicate ValueGone(
    d: Decl, insns0: seq<Insn>, regs0: seq<Reg>, last0: seq<int>, insns: seq<Insn>, bits: set<int>, spared: int, b: int)
  {
    && |last0| == CR_BITS
    && (b in bits && b != spared && 0 <= b < CR_BITS && IsStore(insns0, last0[b]) ==>
          var r := ValueReg(insns0, last0, b);
          && r < |regs0| && 0 <= regs0[r].birth < |insns0| == |insns|
          && (OnlyReader(d, insns0, r, last0[b]) && !Guarded(insns0[regs0[r].birth].op, false) ==>
                insns[regs0[r].birth] == NopInsn))
  }

  lemma DefinitionIsNoStore(d: Decl, insns: seq<Insn>, regs: seq<Reg>, k: int, r: int)
    requires RangesOK(d, insns, regs) && IsStore(insns, k) && 0 < r < |regs| && regs[r].live
    ensures regs[r].birth != k && 0 <= regs[r].birth < |insns| && insns[regs[r].birth].dest == r
  {
    assert CleanInsn(d, insns[k]);
  }

  lemma ValueRegLive(d: Decl, insns: seq<Insn>, regs: seq<Reg>, k: int)
    requires RangesOK(d, insns, regs) && IsStore(insns, k)
    ensures insns[k].src1 < |regs| && regs[insns[k].src1].live && 0 <= regs[insns[k].src1].birth < k
  {
    assert Reads(d, insns[k], insns[k].src1);
  }

  /** Until its turn comes, a store is untouched. */
  lemma StoreStands(
    d: Decl, insns0: seq<Insn>, regs0: seq<Reg>, last0: seq<int>, insns: seq<Insn>, regs: seq<Reg>, lastSet: seq<int>,
    bits: set<int>, spared: int, b: int)
    requires RangesOK(d, insns0, regs0) && StoresOK(insns0, last0)
    requires Trimmed(d, insns0, regs0, last0, insns, regs, lastSet, bits, spared)
    requires 0 <= b < CR_BITS && b !in bits && last0[b] >= 0
    ensures insns[last0[b]] == insns0[last0[b]] && IsStore(insns, last0[b])
  {
    hide RangesOK;
    var k := last0[b];
    assert IsStore(insns0, k);
    if MayGo(insns0, regs0, last0, bits, spared, k) {
      var a :| a in bits && 0 <= a < CR_BITS && IsStore(insns0, last0[a]) &&
        (k == last0[a] || (a != spared && GoesWith(insns0, regs0, last0, a, k)));
      assert if a < b then Apart(insns0, last0[a], last0[b]) else Apart(insns0, last0[b], last0[a]);
      ValueRegLive(d, insns0, regs0, last0[a]);
      DefinitionIsNoStore(d, insns0, regs0, k, ValueReg(insns0, last0, a));
    }
  }

  /** Removing the store of one more bit. */
  lemma TrimStep(
    d: Decl, insns0: seq<Insn>, regs0: seq<Reg>, last0: seq<int>, insns: seq<Insn>, regs: seq<Reg>, lastSet: seq<int>,
    bits: set<int>, spared: int, b: int, insns': seq<Insn>, regs': seq<Reg>, withValue: bool)
    requires StoresOK(insns0, last0) && Trimmed(d, insns0, regs0, last0, insns, regs, lastSet, bits, spared)
    requires 0 <= b < CR_BITS && b !in bits && last0[b] >= 0 && insns[last0[b]] == insns0[last0[b]]
    requires RangesOK(d, insns', regs') && SameBirths(regs, regs') && (withValue ==> b != spared)
    requires var r := insns0[last0[b]].src1;
      && r < |regs| && 0 <= regs[r].birth < last0[b]
      && insns' == StoreGone(insns, last0[b], regs[r].birth, withValue)
    ensures Trimmed(d, insns0, regs0, last0, insns', regs', lastSet[b := -1], bits + {b}, spared)
  {
    hide RangesOK;
    var bits' := bits + {b};
    var r := ValueReg(insns0, last0, b);
    assert IsStore(insns0, last0[b]);
    forall i | 0 <= i < |insns'|
      ensures insns'[i] == insns0[i] || (insns'[i] == NopInsn && MayGo(insns0, regs0, last0, bits', spared, i))
    {
      if i == last0[b] || (withValue && i == regs[r].birth) {
        assert b in bits' && (i == last0[b] || (b != spared && GoesWith(insns0, regs0, last0, b, i)));
      } else if insns[i] != insns0[i] {
        GoMore(insns0, regs0, last0, bits, bits', spared, i);
      }
    }
    forall a | a in bits' ensures 0 <= a < CR_BITS && IsStore(insns0, last0[a]) && insns'[last0[a]] == NopInsn {}
  }

  lemma GoMore(
    insns: seq<Insn>, regs: seq<Reg>, lastSet: seq<int>, bits: set<int>, bits': set<int>, spared: int, i: int)
    requires MayGo(insns, regs, lastSet, bits, spared, i) && bits <= bits'
    ensures MayGo(insns, regs, lastSet, bits', spared, i)
  {
    hide GoesWith;
    var b :| b in bits && 0 <= b < CR_BITS && IsStore(insns, lastSet[b]) &&
      (i == lastSet[b] || (b != spared && GoesWith(insns, regs, lastSet, b, i)));
    assert b in bits';
  }

  lemma OnlyReaderStays(
    d: Decl, insns0: seq<Insn>, insns: seq<Insn>, r: int, k: int)
    requires OnlyReader(d, insns0, r, k) && |insns| == |insns0|
    requires forall i :: 0 <= i < |insns| ==> insns[i] == insns0[i] || insns[i] == NopInsn
    ensures OnlyReader(d, insns, r, k)
  {
    forall j {:trigger Reads(d, insns[j], r)} | 0 <= j < |insns| && Reads(d, insns[j], r) ensures j == k {
      assert insns[j] == insns0[j];
    }
  }

  lemma TrimStart(d: Decl, insns: seq<Insn>, regs: seq<Reg>, lastSet: seq<int>, spared: int)
    requires RangesOK(d, insns, regs) && |lastSet| == CR_BITS
    ensures Trimmed(d, insns, regs, lastSet, insns, regs, lastSet, {}, spared)
  {
    hide RangesOK;
  }

  // ---- What a removal leaves intact ----

  /** Every register that is still read is still defined, by the instruction that always defined it. */
  lemma ReadersKeepDefinitions(
    d: Decl, insns0: seq<Insn>, regs0: seq<Reg>, last0: seq<int>, insns: seq<Insn>, regs: seq<Reg>, lastSet: seq<int>,
    bits: set<int>, spared: int, j: int, r: int)
    requires Trimmed(d, insns0, regs0, last0, insns, regs, lastSet, bits, spared)
    requires 0 <= j < |insns| && Reads(d, insns[j], r)
    ensures 0 < r < |regs0| && 0 <= regs0[r].birth < j && insns[regs0[r].birth] == insns0[regs0[r].birth]
    ensures insns[regs0[r].birth].dest == r
  {
    assert regs[r].live && insns[regs[r].birth].dest == r;
  }

  /** The branch condition keeps its definition. */
  lemma SparedStands(
    d: Decl, insns0: seq<Insn>, regs0: seq<Reg>, last0: seq<int>, insns: seq<Insn>, regs: seq<Reg>, lastSet: seq<int>,
    bits: set<int>, spared: int)
    requires RangesOK(d, insns0, regs0) && StoresOK(insns0, last0)
    requires Trimmed(d, insns0, regs0, last0, insns, regs, lastSet, bits, spared)
    requires 0 <= spared < CR_BITS && last0[spared] >= 0
    ensures var r := ValueReg(insns0, last0, spared);
      r < |regs0| && 0 <= regs0[r].birth < |insns| && insns[regs0[r].birth] == insns0[regs0[r].birth]
          && insns0[regs0[r].birth].dest == r
  {
    hide RangesOK;
    var k := last0[spared];
    assert IsStore(insns0, k);
    ValueRegLive(d, insns0, regs0, k);
    var r := ValueReg(insns0, last0, spared);
    DefinitionIsNoStore(d, insns0, regs0, k, r);
    DefinitionStands(d, insns0, regs0, last0, insns, regs, lastSet, bits, spared, r);
  }

  /** A definition goes only with the store of its own register. */
  lemma DefinitionStands(
    d: Decl, insns0: seq<Insn>, regs0: seq<Reg>, last0: seq<int>, insns: seq<Insn>, regs: seq<Reg>, lastSet: seq<int>,
    bits: set<int>, spared: int, r: int)
    requires RangesOK(d, insns0, regs0) && StoresOK(insns0, last0)
    requires Trimmed(d, insns0, regs0, last0, insns, regs, lastSet, bits, spared)
    requires 0 < r < |regs0| && regs0[r].live
    requires forall b :: b in bits && b != spared && 0 <= b < CR_BITS && IsStore(insns0, last0[b]) ==>
               ValueReg(insns0, last0, b) != r
    ensures 0 <= regs0[r].birth < |insns| && insns[regs0[r].birth] == insns0[regs0[r].birth]
  {
    hide RangesOK;
    SoundSsa(d, insns0, regs0);
    var i := regs0[r].birth;
    if MayGo(insns0, regs0, last0, bits, spared, i) {
      var a :| a in bits && 0 <= a < CR_BITS && IsStore(insns0, last0[a]) &&
        (i == last0[a] || (a != spared && GoesWith(insns0, regs0, last0, a, i)));
      ValueRegLive(d, insns0, regs0, last0[a]);
      DefinitionIsNoStore(d, insns0, regs0, last0[a], ValueReg(insns0, last0, a));
      DefinitionIsNoStore(d, insns0, regs0, last0[a], r);
    }
  }

  // ---- The loops over CR bits ----

  /** ctz32 of a nonempty bit mask. */
  method LowestBit(bits: set<int>) returns (b: int)
    requires bits != {} && forall x <- bits :: 0 <= x < CR_BITS
    ensures b in bits && forall x <- bits :: b <= x
  {
    b := 0;
    while b < CR_BITS && b !in bits
      invariant 0 <= b <= CR_BITS && forall x <- bits :: b <= x
    {
      b := b + 1;
    }
    assert b == CR_BITS ==> bits == {};
  }

  /** What is recorded for a moved store: its register, and the defining instruction if that has been taken out of the
      code (otherwise one with opcode 0, and the definition is still in its place). */
  ghost predicate SavedBit(
    insns0: seq<Insn>, regs0: seq<Reg>, last0: seq<int>, insns: seq<Insn>, spared: int, b: int, reg: nat, insn: Insn)
  {
    && |last0| == CR_BITS && 0 <= b < CR_BITS && IsStore(insns0, last0[b]) && reg == ValueReg(insns0, last0, b)
    && reg < |regs0| && 0 <= regs0[reg].birth < |insns0| == |insns| && insns0[regs0[reg].birth].dest == reg
    && var def := insns0[regs0[reg].birth];
       if insn.op.NOP? then insns[regs0[reg].birth] == def && insn.dest == reg
       else insn == def && b != spared && (insns[regs0[reg].birth] == NopInsn || def.op == FPU)
  }

  lemma NewlySaved(
    d: Decl, insns0: seq<Insn>, regs0: seq<Reg>, last0: seq<int>, insns: seq<Insn>, regs: seq<Reg>, spared: int, b: int,
    insns': seq<Insn>, setInsn: Insn, eliminated: bool)
    requires RangesOK(d, insns0, regs0) && |last0| == CR_BITS && 0 <= b < CR_BITS && IsStore(insns0, last0[b])
    requires |insns| == |insns0| && insns[last0[b]] == insns0[last0[b]] && SameBirths(regs0, regs)
    requires eliminated ==> b != spared
    requires forall i :: 0 <= i < |insns| ==> insns[i] == insns0[i] || insns[i] == NopInsn
    requires var r := ValueReg(insns0, last0, b);
      && 0 < r < |regs| && 0 <= regs[r].birth < last0[b] && setInsn == insns[regs[r].birth] && setInsn.dest == r
      && insns' == StoreGone(insns, last0[b], regs[r].birth, eliminated && !Guarded(setInsn.op, false))
    ensures SavedBit(insns0, regs0, last0, insns', spared, b, ValueReg(insns0, last0, b),
                     if eliminated then setInsn else setInsn.(op := NOP))
  {
    hide LiveOK, Unflagged;
    var r := ValueReg(insns0, last0, b);
    assert setInsn == insns0[regs0[r].birth] && CleanInsn(d, setInsn);
  }

  lemma StillSaved(
    d: Decl, insns0: seq<Insn>, regs0: seq<Reg>, last0: seq<int>, insns: seq<Insn>, regs: seq<Reg>, spared: int, a: int,
    reg: nat, insn: Insn, b: int, insns': seq<Insn>, withValue: bool)
    requires RangesOK(d, insns0, regs0) && StoresOK(insns0, last0)
    requires SavedBit(insns0, regs0, last0, insns, spared, a, reg, insn)
    requires 0 <= b < CR_BITS && b != a && last0[b] >= 0 && SameBirths(regs0, regs)
    requires var r := insns0[last0[b]].src1;
      && r < |regs| && 0 <= regs[r].birth < last0[b]
      && insns' == StoreGone(insns, last0[b], regs[r].birth, withValue)
    ensures SavedBit(insns0, regs0, last0, insns', spared, a, reg, insn)
  {
    hide RangesOK;
    assert IsStore(insns0, last0[b]) && IsStore(insns0, last0[a]);
    assert if a < b then Apart(insns0, last0[a], last0[b]) else Apart(insns0, last0[b], last0[a]);
    ValueRegLive(d, insns0, regs0, last0[a]);
    ValueRegLive(d, insns0, regs0, last0[b]);
    DefinitionIsNoStore(d, insns0, regs0, last0[b], reg);
    DefinitionIsNoStore(d, insns0, regs0, last0[b], ValueReg(insns0, last0, b));
  }

  lemma GoneStep(
    d: Decl, insns0: seq<Insn>, regs0: seq<Reg>, last0: seq<int>, insns: seq<Insn>, regs: seq<Reg>, bits: set<int>,
    spared: int,
    b: int, insns': seq<Insn>, setInsn: Insn, eliminated: bool, a: int)
    requires ValueGone(d, insns0, regs0, last0, insns, bits, spared, a) && |last0| == CR_BITS && |insns| == |insns0|
    requires 0 <= b < CR_BITS && IsStore(insns0, last0[b]) && SameBirths(regs0, regs)
    requires forall i :: 0 <= i < |insns| ==> insns[i] == insns0[i] || insns[i] == NopInsn
    requires var r := ValueReg(insns0, last0, b);
      && 0 < r < |regs| && 0 <= regs[r].birth < last0[b] && setInsn == insns[regs[r].birth]
      && (eliminated <==> b != spared && OnlyReader(d, insns, r, last0[b]))
      && insns' == StoreGone(insns, last0[b], regs[r].birth, eliminated && !Guarded(setInsn.op, false))
    ensures ValueGone(d, insns0, regs0, last0, insns', bits + {b}, spared, a)
  {
    hide OnlyReader;
    var r := ValueReg(insns0, last0, b);
    if OnlyReader(d, insns0, r, last0[b]) { OnlyReaderStays(d, insns0, insns, r, last0[b]); }
  }

  ghost predicate AllGone(
    d: Decl, insns0: seq<Insn>, regs0: seq<Reg>, last0: seq<int>, insns: seq<Insn>, bits: set<int>, spared: int)
  {
    forall b :: ValueGone(d, insns0, regs0, last0, insns, bits, spared, b)
  }

  ghost predicate AllSaved(
    insns0: seq<Insn>, regs0: seq<Reg>, last0: seq<int>, insns: seq<Insn>, spared: int, bits: set<int>,
    crbReg: seq<nat>,
    crbInsn: seq<Insn>)
  {
    |crbReg| == |crbInsn| == CR_BITS && forall b :: b in bits && 0 <= b < CR_BITS ==>
      SavedBit(insns0, regs0, last0, insns, spared, b, crbReg[b], crbInsn[b])
  }

  /** The code after the turn of bit b: its store is gone, and so is the definition of its value if nothing else reads
      that then, it is not the branch condition, and it cannot raise an exception. */
  ghost function AfterBit(
    d: Decl, insns: seq<Insn>, regs: seq<Reg>, lastSet: seq<int>, spared: int, b: int): (r: seq<Insn>)
    requires |lastSet| == CR_BITS && 0 <= b < CR_BITS
    ensures |r| == |insns|
  {
    var k := lastSet[b];
    if !IsStore(insns, k) then insns
    else
      var v := insns[k].src1;
      if v < |regs| && 0 <= regs[v].birth < |insns| then
        StoreGone(insns, k, regs[v].birth, b != spared && OnlyReader(d, insns, v, k)
            && !Guarded(insns[regs[v].birth].op, false))
      else insns
  }

  /** The code after the turns of the bits below n, in ascending order: whether a value is still read depends on the
      stores and definitions removed before. */
  ghost function AfterBits(
    d: Decl, insns: seq<Insn>, regs: seq<Reg>, lastSet: seq<int>, bits: set<int>, spared: int, n: nat): (r: seq<Insn>)
    requires |lastSet| == CR_BITS && n <= CR_BITS
    ensures |r| == |insns|
  {
    if n == 0 then insns
    else
      var before := AfterBits(d, insns, regs, lastSet, bits, spared, n - 1);
      if n - 1 in bits then AfterBit(d, before, regs, lastSet, spared, n - 1) else before
  }

  lemma {:induction false} SkippedBits(
    d: Decl, insns: seq<Insn>, regs: seq<Reg>, lastSet: seq<int>, bits: set<int>, spared: int, m: nat, n: nat)
    requires |lastSet| == CR_BITS && m <= n <= CR_BITS && forall b <- bits :: !(m <= b < n)
    ensures AfterBits(d, insns, regs, lastSet, bits, spared, n) == AfterBits(d, insns, regs, lastSet, bits, spared, m)
  {
    if n > m { SkippedBits(d, insns, regs, lastSet, bits, spared, m, n - 1); }
  }

  /** The turns of the bits below n have led here. */
  ghost predicate Turned(
    d: Decl, insns: seq<Insn>, regs: seq<Reg>, lastSet: seq<int>, bits: set<int>, spared: int, n: int,
    insns': seq<Insn>)
  {
    |lastSet| == CR_BITS && 0 <= n <= CR_BITS && insns' == AfterBits(d, insns, regs, lastSet, bits, spared, n)
  }

  lemma TurnBit(
    d: Decl, insns: seq<Insn>, regs: seq<Reg>, lastSet: seq<int>, bits: set<int>, rest: set<int>, spared: int, n: int,
    b: int,
    insns1: seq<Insn>, insns2: seq<Insn>)
    requires Turned(d, insns, regs, lastSet, bits, spared, n, insns1) && Ahead(bits, rest, n)
    requires b in rest && b < CR_BITS && (forall x <- rest :: b <= x)
    requires insns2 == AfterBit(d, insns1, regs, lastSet, spared, b)
    ensures Turned(d, insns, regs, lastSet, bits, spared, b + 1, insns2) && Ahead(bits, rest - {b}, b + 1)
  {
    hide AfterBit;
    SkippedBits(d, insns, regs, lastSet, bits, spared, n, b);
  }

  /** The bits that are left are those from n on. */
  ghost predicate Ahead(bits: set<int>, rest: set<int>, n: int) { forall b :: b in rest <==> b in bits && n <= b }

  /** The bits treated in this call, and in all calls. */
  predicate Treated(done: set<int>, bits: set<int>, rest: set<int>, now: set<int>, all: set<int>) {
    now == bits - rest && all == done + now
  }

  lemma SetsStart(done: set<int>, bits: set<int>)
    ensures Treated(done, bits, bits, {}, done)
  {}

  lemma OneMore(done: set<int>, bits: set<int>, rest: set<int>, now: set<int>, all: set<int>, b: int)
    requires Treated(done, bits, rest, now, all) && b in rest && rest <= bits && done !! bits
    ensures Treated(done, bits, rest - {b}, now + {b}, all + {b})
  {}

  lemma Untreated(done: set<int>, bits: set<int>, rest: set<int>, now: set<int>, all: set<int>, b: int)
    requires Treated(done, bits, rest, now, all) && b in rest && rest <= bits && done !! bits
    ensures b !in now && b !in all && b in bits
  {}

  lemma SetsDone(done: set<int>, bits: set<int>, now: set<int>, all: set<int>)
    requires Treated(done, bits, {}, now, all)
    ensures now == bits && all == done + bits
  {}

  lemma TurnsDone(
    d: Decl, insns: seq<Insn>, regs: seq<Reg>, lastSet: seq<int>, bits: set<int>, spared: int, n: int,
    insns': seq<Insn>)
    requires Turned(d, insns, regs, lastSet, bits, spared, n, insns') && Ahead(bits, {}, n)
    ensures insns' == AfterBits(d, insns, regs, lastSet, bits, spared, CR_BITS)
  {
    SkippedBits(d, insns, regs, lastSet, bits, spared, n, CR_BITS);
  }

  lemma TurnsStart(d: Decl, insns: seq<Insn>, regs: seq<Reg>, lastSet: seq<int>, bits: set<int>, spared: int)
    requires |lastSet| == CR_BITS && forall b <- bits :: 0 <= b
    ensures Turned(d, insns, regs, lastSet, bits, spared, 0, insns) && Ahead(bits, bits, 0)
  {}

  /** One round of the loop. */
  method KillBit(
    unit: RtlUnit, lastSet: array<int>, spared: int, bit: int, ghost insns0: seq<Insn>, ghost regs0: seq<Reg>,
    ghost last0: seq<int>, ghost done: set<int>) returns (reg: nat, insn: Insn, ghost withValue: bool)
    requires RangesOK(unit.decl, insns0, regs0) && StoresOK(insns0, last0) && |last0| == lastSet.Length == CR_BITS
    requires Trimmed(unit.decl, insns0, regs0, last0, unit.insns, unit.regs, lastSet[..], done, spared)
    requires AllGone(unit.decl, insns0, regs0, last0, unit.insns, done, spared)
    requires 0 <= bit < CR_BITS && bit !in done && last0[bit] >= 0
    modifies unit`insns, unit`regs, unit`labels, lastSet
    ensures Trimmed(unit.decl, insns0, regs0, last0, unit.insns, unit.regs, lastSet[..], done + {bit}, spared)
    ensures AllGone(unit.decl, insns0, regs0, last0, unit.insns, done + {bit}, spared)
    ensures SavedBit(insns0, regs0, last0, unit.insns, spared, bit, reg, insn)
    ensures SameBirths(regs0, old(unit.regs)) && unit.labels == old(unit.labels)
    ensures IsStore(insns0, last0[bit]) && insns0[last0[bit]].src1 < |old(unit.regs)|
    ensures var birth := old(unit.regs)[insns0[last0[bit]].src1].birth;
      0 <= birth < last0[bit] < |old(unit.insns)|
          && unit.insns == StoreGone(old(unit.insns), last0[bit], birth, withValue)
    ensures unit.insns == AfterBit(unit.decl, old(unit.insns), regs0, last0, spared, bit)
  {
    hide RangesOK, StoresOK, Trimmed, AllGone, SavedBit, OnlyReader, StoreGone, SameBirths, AfterBit;
    ghost var d, insns, regs, last := unit.decl, unit.insns, unit.regs, lastSet[..];
    StoreTurn(d, insns0, regs0, last0, insns, regs, last, done, spared, bit);
    var k := lastSet[bit];
    lastSet[bit] := -1;
    assert lastSet[..] == last[bit := -1];
    reg := unit.insns[k].src1;
    var eliminated;
    insn, eliminated := KillAliasStore(unit, k, bit != spared);
    BitDone(d, insns0, regs0, last0, insns, regs, last, done, spared, bit, unit.insns, unit.regs, insn, eliminated);
    SameSize(regs0, regs);
    withValue := eliminated && !Guarded(insn.op, false);
    OneBit(d, insns, regs0, regs, last0, spared, bit, withValue);
    if !eliminated { insn := insn.(op := NOP); }
  }

  lemma OneBit(
    d: Decl, insns: seq<Insn>, regs0: seq<Reg>, regs: seq<Reg>, last0: seq<int>, spared: int, b: int, withValue: bool)
    requires |last0| == CR_BITS && 0 <= b < CR_BITS && IsStore(insns, last0[b]) && SameBirths(regs0, regs)
    requires var v := insns[last0[b]].src1;
      && v < |regs| && 0 <= regs[v].birth < |insns|
      && (withValue <==> b != spared && OnlyReader(d, insns, v, last0[b]) && !Guarded(insns[regs[v].birth].op, false))
    ensures StoreGone(insns, last0[b], regs[insns[last0[b]].src1].birth, withValue)
              == AfterBit(d, insns, regs0, last0, spared, b)
  {
    hide OnlyReader, StoreGone;
  }

  lemma SavedStep(
    d: Decl, insns0: seq<Insn>, regs0: seq<Reg>, last0: seq<int>, insns: seq<Insn>, regs: seq<Reg>, spared: int,
    bits: set<int>,
    crbReg: seq<nat>, crbInsn: seq<Insn>, b: int, insns': seq<Insn>, withValue: bool, reg: nat, insn: Insn)
    requires RangesOK(d, insns0, regs0) && StoresOK(insns0, last0) && SameBirths(regs0, regs) && b !in bits
    requires |last0| == CR_BITS
    requires AllSaved(insns0, regs0, last0, insns, spared, bits, crbReg, crbInsn) && 0 <= b < CR_BITS && last0[b] >= 0
    requires SavedBit(insns0, regs0, last0, insns', spared, b, reg, insn) && IsStore(insns0, last0[b])
    requires var r := insns0[last0[b]].src1;
      && r < |regs| && 0 <= regs[r].birth < last0[b] < |insns|
      && insns' == StoreGone(insns, last0[b], regs[r].birth, withValue)
    ensures |crbReg| == |crbInsn| == CR_BITS
    ensures AllSaved(insns0, regs0, last0, insns', spared, bits + {b}, crbReg[b := reg], crbInsn[b := insn])
  {
    hide RangesOK, StoresOK, SavedBit, StoreGone, SameBirths;
    forall a | a in bits && 0 <= a < CR_BITS
      ensures SavedBit(insns0, regs0, last0, insns', spared, a, crbReg[a], crbInsn[a]) {
      StillSaved(d, insns0, regs0, last0, insns, regs, spared, a, crbReg[a], crbInsn[a], b, insns', withValue);
    }
  }

  /** The unit after the stores of "bits" have been treated. */
  ghost predicate BitsKilled(
    unit: RtlUnit, insns0: seq<Insn>, regs0: seq<Reg>, last0: seq<int>, lastSet: seq<int>, bits: set<int>, spared: int)
    reads unit
  {
    && RangesOK(unit.decl, insns0, regs0) && StoresOK(insns0, last0) && |last0| == CR_BITS
    && Trimmed(unit.decl, insns0, regs0, last0, unit.insns, unit.regs, lastSet, bits, spared)
    && AllGone(unit.decl, insns0, regs0, last0, unit.insns, bits, spared)
  }

  /** One round of the loop, with the results recorded if asked for. */
  method KillAndSave(
    unit: RtlUnit, lastSet: array<int>, spared: int, bit: int, save: bool, crbReg: array<nat>, crbInsn: array<Insn>,
    ghost insns0: seq<Insn>, ghost regs0: seq<Reg>, ghost last0: seq<int>, ghost done: set<int>, ghost now: set<int>)
    requires BitsKilled(unit, insns0, regs0, last0, lastSet[..], done, spared)
    requires lastSet.Length == CR_BITS && crbReg.Length == CR_BITS && crbInsn.Length == CR_BITS && |last0| == CR_BITS
    requires lastSet as object != crbReg && lastSet as object != crbInsn && crbReg as object != crbInsn
    requires 0 <= bit < CR_BITS && bit !in done && bit !in now && last0[bit] >= 0
    requires save ==> AllSaved(insns0, regs0, last0, unit.insns, spared, now, crbReg[..], crbInsn[..])
    modifies unit`insns, unit`regs, unit`labels, lastSet, crbReg, crbInsn
    ensures BitsKilled(unit, insns0, regs0, last0, lastSet[..], done + {bit}, spared) && unit.labels == old(unit.labels)
    ensures save ==> AllSaved(insns0, regs0, last0, unit.insns, spared, now + {bit}, crbReg[..], crbInsn[..])
    ensures unit.insns == AfterBit(unit.decl, old(unit.insns), regs0, last0, spared, bit)
  {
    hide RangesOK, StoresOK, Trimmed, AllGone, SavedBit, AllSaved, StoreGone, SameBirths, AfterBit;
    ghost var insns, regs, savedRegs, savedInsns := unit.insns, unit.regs, crbReg[..], crbInsn[..];
    var reg, insn;
    ghost var withValue;
    reg, insn, withValue := KillBit(unit, lastSet, spared, bit, insns0, regs0, last0, done);
    if save {
      crbReg[bit] := reg;
      crbInsn[bit] := insn;
      SavedStep(unit.decl, insns0, regs0, last0, insns, regs, spared, now, savedRegs, savedInsns, bit, unit.insns,
                withValue,
                reg, insn);
      assert crbReg[..] == savedRegs[bit := reg] && crbInsn[..] == savedInsns[bit := insn];
    }
  }

  /** kill_cr_stores.  "done" are the bits of earlier calls for the same branch. */
  method KillCrStores(
    unit: RtlUnit, lastSet: array<int>, spared: int, bitsToKill: set<int>, save: bool, crbReg: array<nat>,
    crbInsn: array<Insn>,
    ghost insns0: seq<Insn>, ghost regs0: seq<Reg>, ghost last0: seq<int>, ghost done: set<int>)
    requires BitsKilled(unit, insns0, regs0, last0, lastSet[..], done, spared) && |last0| == CR_BITS
    requires lastSet.Length == CR_BITS && crbReg.Length == CR_BITS && crbInsn.Length == CR_BITS
    requires lastSet as object != crbReg && lastSet as object != crbInsn && crbReg as object != crbInsn
    requires done !! bitsToKill && forall b <- bitsToKill :: 0 <= b < CR_BITS && last0[b] >= 0
    modifies unit`insns, unit`regs, unit`labels, lastSet, crbReg, crbInsn
    ensures BitsKilled(unit, insns0, regs0, last0, lastSet[..], done + bitsToKill, spared)
    ensures unit.labels == old(unit.labels)
    ensures save ==> AllSaved(insns0, regs0, last0, unit.insns, spared, bitsToKill, crbReg[..], crbInsn[..])
    ensures unit.insns == AfterBits(unit.decl, old(unit.insns), regs0, last0, bitsToKill, spared, CR_BITS)
  {
    hide BitsKilled, AllSaved, AfterBit, AfterBits, Turned, Ahead, Treated;
    var bits := bitsToKill;
    ghost var d, insns, n := unit.decl, unit.insns, 0;
    TurnsStart(d, insns, regs0, last0, bits, spared);
    ghost var now: set<int>, all: set<int> := {}, done;
    NothingSaved(insns0, regs0, last0, unit.insns, spared, crbReg[..], crbInsn[..]);
    SetsStart(done, bits);
    while bits != {}
      invariant bits <= bitsToKill && unit.labels == old(unit.labels) && Treated(done, bitsToKill, bits, now, all)
      invariant BitsKilled(unit, insns0, regs0, last0, lastSet[..], all, spared)
      invariant save ==> AllSaved(insns0, regs0, last0, unit.insns, spared, now, crbReg[..], crbInsn[..])
      invariant Turned(d, insns, regs0, last0, bitsToKill, spared, n, unit.insns) && Ahead(bitsToKill, bits, n)
      decreases bits
    {
      var bit := LowestBit(bits);
      ghost var before := unit.insns;
      Untreated(done, bitsToKill, bits, now, all, bit);
      KillAndSave(unit, lastSet, spared, bit, save, crbReg, crbInsn, insns0, regs0, last0, all, now);
      TurnBit(d, insns, regs0, last0, bitsToKill, bits, spared, n, bit, before, unit.insns);
      n := bit + 1;
      OneMore(done, bitsToKill, bits, now, all, bit);
      bits, now, all := bits - {bit}, now + {bit}, all + {bit};
    }
    assert now == bitsToKill && all == done + bitsToKill by { SetsDone(done, bitsToKill, now, all); }
    TurnsDone(d, insns, regs0, last0, bitsToKill, spared, n, unit.insns);
  }

  lemma NothingSaved(
    insns0: seq<Insn>, regs0: seq<Reg>, last0: seq<int>, insns: seq<Insn>, spared: int, crbReg: seq<nat>,
    crbInsn: seq<Insn>)
    requires |crbReg| == |crbInsn| == CR_BITS
    ensures AllSaved(insns0, regs0, last0, insns, spared, {}, crbReg, crbInsn)
  {}

  lemma StoreTurn(
    d: Decl, insns0: seq<Insn>, regs0: seq<Reg>, last0: seq<int>, insns: seq<Insn>, regs: seq<Reg>, lastSet: seq<int>,
    bits: set<int>, spared: int, b: int)
    requires RangesOK(d, insns0, regs0) && StoresOK(insns0, last0)
    requires Trimmed(d, insns0, regs0, last0, insns, regs, lastSet, bits, spared)
    requires |last0| == CR_BITS && 0 <= b < CR_BITS && b !in bits && last0[b] >= 0
    ensures |lastSet| == CR_BITS && lastSet[b] == last0[b] && IsStore(insns, last0[b]) && IsStore(insns0, last0[b])
    ensures insns[last0[b]] == insns0[last0[b]] && RangesOK(d, insns, regs) && SameBirths(regs0, regs)
    ensures |insns| == |insns0|
    ensures forall i :: 0 <= i < |insns| ==> insns[i] == insns0[i] || insns[i] == NopInsn
  {
    hide RangesOK, MayGo;
    StoreStands(d, insns0, regs0, last0, insns, regs, lastSet, bits, spared, b);
  }

  lemma BitDone(
    d: Decl, insns0: seq<Insn>, regs0: seq<Reg>, last0: seq<int>, insns: seq<Insn>, regs: seq<Reg>, lastSet: seq<int>,
    bits: set<int>, spared: int, b: int, insns': seq<Insn>, regs': seq<Reg>, setInsn: Insn, eliminated: bool)
    requires RangesOK(d, insns0, regs0) && StoresOK(insns0, last0)
    requires Trimmed(d, insns0, regs0, last0, insns, regs, lastSet, bits, spared)
    requires AllGone(d, insns0, regs0, last0, insns, bits, spared)
    requires |last0| == |lastSet| == CR_BITS && 0 <= b < CR_BITS && b !in bits && last0[b] >= 0
    requires IsStore(insns0, last0[b]) && |insns| == |insns0| && insns[last0[b]] == insns0[last0[b]]
    requires RangesOK(d, insns', regs') && SameBirths(regs, regs') && SameBirths(regs0, regs)
    requires forall i :: 0 <= i < |insns| ==> insns[i] == insns0[i] || insns[i] == NopInsn
    requires var r := insns[last0[b]].src1;
      && 0 < r < |regs| && 0 <= regs[r].birth < last0[b] && setInsn == insns[regs[r].birth] && setInsn.dest == r
      && (eliminated <==> b != spared && OnlyReader(d, insns, r, last0[b]))
      && insns' == StoreGone(insns, last0[b], regs[r].birth, eliminated && !Guarded(setInsn.op, false))
    ensures Trimmed(d, insns0, regs0, last0, insns', regs', lastSet[b := -1], bits + {b}, spared)
    ensures AllGone(d, insns0, regs0, last0, insns', bits + {b}, spared)
    ensures SavedBit(insns0, regs0, last0, insns', spared, b, insns0[last0[b]].src1,
                     if eliminated then setInsn else setInsn.(op := NOP))
    ensures SameBirths(regs0, regs)
  {
    hide RangesOK, StoresOK, Trimmed, ValueGone, SavedBit, OnlyReader, StoreGone, SameBirths;
    TrimStep(d, insns0, regs0, last0, insns, regs, lastSet, bits, spared, b, insns', regs', eliminated
        && !Guarded(setInsn.op, false));
    SameSize(regs0, regs);
    NewlySaved(d, insns0, regs0, last0, insns, regs, spared, b, insns', setInsn, eliminated);
    forall a ensures ValueGone(d, insns0, regs0, last0, insns', bits + {b}, spared, a) {
      GoneStep(d, insns0, regs0, last0, insns, regs, bits, spared, b, insns', setInsn, eliminated, a);
    }
  }

  lemma SameSize(regs: seq<Reg>, regs': seq<Reg>)
    requires SameBirths(regs, regs')
    ensures |regs'| == |regs|
  {}

  // ---- guest_ppc_trim_cr_stores ----

  /** Dirty bits whose last store can still be removed. */
  ghost function Killable(dirty: set<int>, lastSet: seq<int>): set<int> {
    set b | b in dirty && 0 <= b < |lastSet| && lastSet[b] >= 0
  }

  /** The killable bits that the code following one way out of the branch overwrites before anything uses them. */
  function DeadBits(changed: Option<set<int>>, killable: set<int>): set<int> {
    match changed case None => {} case Some(bits) => bits * killable
  }

  /** (BO & 0x14) != 0x14 */
  predicate IsConditionalBranch(bo: nat) { !(bo / 16 % 2 == 1 && bo / 4 % 2 == 1) }

  /** The bit whose value is the branch condition: BI, unless BO & 0x10 is set. */
  function ConditionBit(bo: nat, bi: int): int { if bo / 16 % 2 == 0 then bi else -1 }

  method CollectKillable(lastSet: array<int>, dirty: set<int>) returns (killable: set<int>)
    requires lastSet.Length == CR_BITS && forall b <- dirty :: 0 <= b < CR_BITS
    ensures killable == Killable(dirty, lastSet[..])
  {
    killable := {};
    var rest := dirty;
    while rest != {}
      invariant rest <= dirty && killable == Killable(dirty - rest, lastSet[..])
      decreases |rest|
    {
      var bit := LowestBit(rest);
      if lastSet[bit] >= 0 {
        killable := killable + {bit};
      }
      assert dirty - (rest - {bit}) == (dirty - rest) + {bit};
      rest := rest - {bit};
    }
    assert dirty - {} == dirty;
  }

  /** The value of bit b reaches its alias: the store is still in the code, or is to be added on this way out. */
  predicate StoredThere(insns0: seq<Insn>, last0: seq<int>, insns: seq<Insn>, added: set<int>, b: int)
    requires 0 <= b < |last0| && 0 <= last0[b] < |insns0| == |insns|
  {
    insns[last0[b]] == insns0[last0[b]] || b in added
  }

  // ---- In terms of the branch instruction's BO and BI ----

  /** Bit b is dirty, its last store is still there, and the code on this way out changes the bit before using it. */
  predicate DeadOn(dirty: set<int>, lastSet: seq<int>, changed: Option<set<int>>, b: int) {
    b in dirty && 0 <= b < |lastSet| && lastSet[b] >= 0 && changed.Some? && b in changed.value
  }

  /** The ways out are told apart unless both 0x10 and 0x04 are set in BO; then only the branch counts. */
  predicate DeadSomewhere(
    dirty: set<int>, lastSet: seq<int>, changedOnBranch: Option<set<int>>, changedOnNext: Option<set<int>>, bo: nat,
    b: int)
  {
    DeadOn(dirty, lastSet, changedOnBranch, b)
    || ((bo / 16 % 2 == 0 || bo / 4 % 2 == 0) && DeadOn(dirty, lastSet, changedOnNext, b))
  }

  /** The stores to be added on one way out: those dead on the other way only, if the ways are told apart. */
  ghost predicate AddedOn(
    added: set<int>, dirty: set<int>, lastSet: seq<int>, here: Option<set<int>>, there: Option<set<int>>, bo: nat)
  {
    forall b :: b in added <==>
      (bo / 16 % 2 == 0 || bo / 4 % 2 == 0) && DeadOn(dirty, lastSet, there, b) && !DeadOn(dirty, lastSet, here, b)
  }

  /** What becomes of the store to bit b and of the instruction that sets the stored value, which stays if it is the
      branch condition: 0x10 is clear in BO, and BI is b. */
  ghost predicate BitTrimmed(
    d: Decl, insns0: seq<Insn>, regs0: seq<Reg>, lastSet: seq<int>, insns: seq<Insn>, dead: bool, bo: nat, bi: int,
    b: int)
  {
    0 <= b < |lastSet| && 0 <= lastSet[b] ==>
      && lastSet[b] < |insns0| == |insns| && insns0[lastSet[b]].src1 < |regs0|
      && var def := regs0[insns0[lastSet[b]].src1].birth;
         && 0 <= def < |insns|
         && insns[lastSet[b]] == (if dead then NopInsn else insns0[lastSet[b]])
         && (!dead || (bo / 16 % 2 == 0 && b == bi) ==> insns[def] == insns0[def])
         && (&& dead && !(bo / 16 % 2 == 0 && b == bi) && insns0[def].op != FPU
             && OnlyReader(d, insns0, insns0[lastSet[b]].src1, lastSet[b])
             ==> insns[def] == NopInsn)
  }

  lemma BitIsTrimmed(
    d: Decl, insns0: seq<Insn>, regs0: seq<Reg>, last0: seq<int>, insns: seq<Insn>, regs: seq<Reg>, lastSet: seq<int>,
    bits: set<int>, bo: nat, bi: int, b: int)
    requires RangesOK(d, insns0, regs0) && StoresOK(insns0, last0)
    requires Trimmed(d, insns0, regs0, last0, insns, regs, lastSet, bits, ConditionBit(bo, bi))
    requires ValueGone(d, insns0, regs0, last0, insns, bits, ConditionBit(bo, bi), b)
    ensures BitTrimmed(d, insns0, regs0, last0, insns, b in bits, bo, bi, b)
  {
    hide RangesOK, OnlyReader;
    if 0 <= b < |last0| && 0 <= last0[b] {
      assert IsStore(insns0, last0[b]);
      ValueRegLive(d, insns0, regs0, last0[b]);
      StandsOrGone(d, insns0, regs0, last0, insns, regs, lastSet, bits, ConditionBit(bo, bi), b);
      if b !in bits || (bo / 16 % 2 == 0 && b == bi) {
        OthersApart(insns0, last0, bits, ConditionBit(bo, bi), b);
        DefinitionStands(d, insns0, regs0, last0, insns, regs, lastSet, bits, ConditionBit(bo, bi),
                         insns0[last0[b]].src1);
      }
    }
  }

  lemma OthersApart(insns: seq<Insn>, lastSet: seq<int>, bits: set<int>, spared: int, b: int)
    requires StoresOK(insns, lastSet) && 0 <= b < CR_BITS && IsStore(insns, lastSet[b]) && (b !in bits || b == spared)
    ensures forall a :: a in bits && a != spared && 0 <= a < CR_BITS && IsStore(insns, lastSet[a]) ==>
              ValueReg(insns, lastSet, a) != insns[lastSet[b]].src1
  {
    forall a | a in bits && a != spared && 0 <= a < CR_BITS && IsStore(insns, lastSet[a])
      ensures ValueReg(insns, lastSet, a) != insns[lastSet[b]].src1
    {
      assert if a < b then Apart(insns, lastSet[a], lastSet[b]) else Apart(insns, lastSet[b], lastSet[a]);
    }
  }

  /** guest_ppc_trim_cr_stores.  A bit is stored on a way out of the branch exactly when it is not dead there. */
  method TrimCrStores(
    unit: RtlUnit, lastSet: array<int>, dirty: set<int>, changedOnBranch: Option<set<int>>,
    changedOnNext: Option<set<int>>,
    bo: nat, bi: int, crbReg: array<nat>, crbInsn: array<Insn>) returns (storeBranch: set<int>, storeNext: set<int>)
    requires RangesOK(unit.decl, unit.insns, unit.regs) && StoresOK(unit.insns, lastSet[..])
    requires forall b <- dirty :: 0 <= b < CR_BITS
    requires lastSet.Length == CR_BITS && crbReg.Length == CR_BITS && crbInsn.Length == CR_BITS
    requires lastSet as object != crbReg && lastSet as object != crbInsn && crbReg as object != crbInsn
    modifies unit`insns, unit`regs, unit`labels, lastSet, crbReg, crbInsn
    ensures var killable := Killable(dirty, old(lastSet[..]));
      var deadBranch := DeadBits(changedOnBranch, killable);
      var deadNext := if IsConditionalBranch(bo) then DeadBits(changedOnNext, killable) else deadBranch;
      && storeBranch == deadNext - deadBranch && storeNext == deadBranch - deadNext
      && Trimmed(unit.decl, old(unit.insns), old(unit.regs), old(lastSet[..]), unit.insns, unit.regs, lastSet[..],
                 deadBranch + deadNext, ConditionBit(bo, bi))
      && AllGone(unit.decl, old(unit.insns), old(unit.regs), old(lastSet[..]), unit.insns, deadBranch + deadNext,
                 ConditionBit(bo, bi))
      && AllSaved(old(unit.insns), old(unit.regs), old(lastSet[..]), unit.insns, ConditionBit(bo, bi),
                  storeBranch + storeNext,
                  crbReg[..], crbInsn[..])
      && forall b <- killable ::
           && IsStore(old(unit.insns), old(lastSet[..])[b]) && |unit.insns| == |old(unit.insns)|
           && (StoredThere(old(unit.insns), old(lastSet[..]), unit.insns, storeBranch, b) <==> b !in deadBranch)
           && (StoredThere(old(unit.insns), old(lastSet[..]), unit.insns, storeNext, b) <==> b !in deadNext)
    ensures var killable := Killable(dirty, old(lastSet[..]));
      var deadBranch := DeadBits(changedOnBranch, killable);
      var deadNext := if IsConditionalBranch(bo) then DeadBits(changedOnNext, killable) else deadBranch;
      var common := AfterBits(unit.decl, old(unit.insns), old(unit.regs), old(lastSet[..]), deadBranch * deadNext,
                              ConditionBit(bo, bi), CR_BITS);
      unit.insns == AfterBits(unit.decl, common, old(unit.regs), old(lastSet[..]), storeBranch + storeNext,
                              ConditionBit(bo, bi), CR_BITS)
    ensures AddedOn(storeBranch, dirty, old(lastSet[..]), changedOnBranch, changedOnNext, bo)
    ensures AddedOn(storeNext, dirty, old(lastSet[..]), changedOnNext, changedOnBranch, bo)
    ensures forall b ::
              BitTrimmed(unit.decl, old(unit.insns), old(unit.regs), old(lastSet[..]), unit.insns,
                         DeadSomewhere(dirty, old(lastSet[..]), changedOnBranch, changedOnNext, bo, b), bo, bi, b)
    ensures unit.labels == old(unit.labels)
  {
    hide RangesOK, StoresOK, Trimmed, AllGone, AllSaved, AfterBits, BitTrimmed, ValueGone;
    ghost var d, insns0, regs0, last0 := unit.decl, unit.insns, unit.regs, lastSet[..];
    var killable := CollectKillable(lastSet, dirty);
    var deadBranch := DeadBits(changedOnBranch, killable);
    var deadNext := if IsConditionalBranch(bo) then DeadBits(changedOnNext, killable) else deadBranch;
    var toKill := deadBranch * deadNext;
    storeBranch, storeNext := deadNext - toKill, deadBranch - toKill;
    var spared := ConditionBit(bo, bi);
    TrimStart(d, insns0, regs0, last0, spared);
    NoneGone(d, insns0, regs0, last0, spared);
    KillCrStores(unit, lastSet, spared, toKill, false, crbReg, crbInsn, insns0, regs0, last0, {});
    assert {} + toKill == toKill;
    KillCrStores(unit, lastSet, spared, storeBranch + storeNext, true, crbReg, crbInsn, insns0, regs0, last0, toKill);
    assert toKill + (storeBranch + storeNext) == deadBranch + deadNext;
    forall b | b in killable
      ensures IsStore(insns0, last0[b]) && |unit.insns| == |insns0|
      ensures StoredThere(insns0, last0, unit.insns, storeBranch, b) <==> b !in deadBranch
      ensures StoredThere(insns0, last0, unit.insns, storeNext, b) <==> b !in deadNext
    {
      StandsOrGone(d, insns0, regs0, last0, unit.insns, unit.regs, lastSet[..], deadBranch + deadNext, spared, b);
    }
    forall b
      ensures BitTrimmed(d, insns0, regs0, last0, unit.insns,
                         DeadSomewhere(dirty, last0, changedOnBranch, changedOnNext, bo, b), bo, bi, b)
    {
      assert b in deadBranch + deadNext <==> DeadSomewhere(dirty, last0, changedOnBranch, changedOnNext, bo, b);
      GoneOf(d, insns0, regs0, last0, unit.insns, deadBranch + deadNext, spared, b);
      BitIsTrimmed(d, insns0, regs0, last0, unit.insns, unit.regs, lastSet[..], deadBranch + deadNext, bo, bi, b);
    }
  }

  lemma GoneOf(
    d: Decl, insns0: seq<Insn>, regs0: seq<Reg>, last0: seq<int>, insns: seq<Insn>, bits: set<int>, spared: int, b: int)
    requires AllGone(d, insns0, regs0, last0, insns, bits, spared)
    ensures ValueGone(d, insns0, regs0, last0, insns, bits, spared, b)
  {}

  lemma NoneGone(d: Decl, insns: seq<Insn>, regs: seq<Reg>, lastSet: seq<int>, spared: int)
    requires |lastSet| == CR_BITS
    ensures AllGone(d, insns, regs, lastSet, insns, {}, spared)
  {}

  lemma StandsOrGone(
    d: Decl, insns0: seq<Insn>, regs0: seq<Reg>, last0: seq<int>, insns: seq<Insn>, regs: seq<Reg>, lastSet: seq<int>,
    bits: set<int>, spared: int, b: int)
    requires RangesOK(d, insns0, regs0) && StoresOK(insns0, last0)
    requires Trimmed(d, insns0, regs0, last0, insns, regs, lastSet, bits, spared)
    requires 0 <= b < |last0| && last0[b] >= 0
    ensures IsStore(insns0, last0[b]) && |insns| == |insns0| && (insns[last0[b]] == insns0[last0[b]] <==> b !in bits)
  {
    hide RangesOK, MayGo;
    if b !in bits { StoreStands(d, insns0, regs0, last0, insns, regs, lastSet, bits, spared, b); }
  }
}
