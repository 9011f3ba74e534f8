/** SSA form and register live ranges. */
module Liveness {
  import opened Rtl

  /** Every destination is a live register born there and nowhere else; every live register is set by the
      instruction at its birth. */
  ghost predicate SsaOK(insns: seq<Insn>, regs: seq<Reg>) {
    && |regs| > 0
    && (forall i :: 0 <= i < |insns| && insns[i].dest != 0 ==>
          insns[i].dest < |regs| && regs[insns[i].dest].live && regs[insns[i].dest].birth == i)
    && (forall r :: 0 < r < |regs| && regs[r].live ==>
          0 <= regs[r].birth < |insns| && insns[regs[r].birth].dest == r
          && regs[r].birth <= regs[r].death < |insns|)
  }

  /** A live range covers every read: after birth, no later than death. */
  ghost predicate Covers(d: Decl, insns: seq<Insn>, regs: seq<Reg>) {
    forall i, r {:trigger Reads(d, insns[i], r)} :: 0 <= i < |insns| && Reads(d, insns[i], r) ==>
      r < |regs| && regs[r].live && regs[r].birth < i <= regs[r].death
  }

  ghost predicate HasReader(d: Decl, insns: seq<Insn>, r: int) {
    exists j :: 0 <= j < |insns| && Reads(d, insns[j], r)
  }

  /** The live range of r ends at the last instruction naming r, or at its birth. */
  predicate Tight(d: Decl, insns: seq<Insn>, regs: seq<Reg>, r: int)
    requires 0 <= r < |regs|
  {
    regs[r].live ==>
      || regs[r].death == regs[r].birth
      || (0 <= regs[r].death < |insns| && Names(d, insns[regs[r].death], r))
  }

  /** Live ranges are exact, except for the registers in "loose", which are only bounded. */
  ghost predicate LiveOK(d: Decl, insns: seq<Insn>, regs: seq<Reg>, loose: set<int>) {
    && SsaOK(insns, regs)
    && Covers(d, insns, regs)
    && forall r :: 0 < r < |regs| && r !in loose ==> Tight(d, insns, regs, r)
  }

  /** Reads by an operand field (src1, src2, src3), the ones rtl_verify_unit checks. */
  predicate ReadsOperand(insn: Insn, r: int) {
    r != 0 && (insn.src1 == r || insn.src2 == r || (HasSrc3(insn.op) && insn.other == r))
  }

  /** verify_reg: the register exists and its birth instruction sets it. */
  predicate Initialized(insns: seq<Insn>, regs: seq<Reg>, r: int) {
    && 1 <= r < |regs|
    && 0 <= regs[r].birth < |insns|
    && insns[regs[r].birth].dest == r
    && !insns[regs[r].birth].op.NOP?
  }

  predicate VerifyOK(insns: seq<Insn>, regs: seq<Reg>) {
    forall i :: 0 <= i < |insns| ==>
      && (insns[i].src1 != 0 ==> Initialized(insns, regs, insns[i].src1))
      && (insns[i].src2 != 0 ==> Initialized(insns, regs, insns[i].src2))
      && (HasSrc3(insns[i].op) && insns[i].other != 0 ==> Initialized(insns, regs, insns[i].other))
  }

  /** Field usage the encoders guarantee: unused operand fields are zero, alias indices are in range.  The src1
      field of a LABEL may be borrowed as a flag. */
  predicate CleanInsn(d: Decl, insn: Insn) {
    && (insn.op.NOP? ==> insn == NopInsn)
    && (insn.op.LABEL? || EndsBlock(insn.op) ==> insn.dest == 0 && insn.src2 == 0)
    && (insn.op.LABEL? ==> insn.src1 <= 1) && (insn.op.GOTO? ==> insn.src1 == 0)
    && (IsConditional(insn.op) ==> insn.src1 != 0)
    && (insn.op.STORE? || insn.op.SET_ALIAS? ==> insn.dest == 0)
    && (HasAlias(insn.op) ==> 0 < insn.other < |d.base| && insn.src2 == 0)
    && (insn.op.GET_ALIAS? || insn.op.LOAD_IMM? ==> insn.src1 == 0)
    && (insn.op.LOAD_IMM? || insn.op.LOAD? ==> insn.src2 == 0)
    && (insn.op.LOAD? ==> insn.src1 != 0)
    && (HasSrc3(insn.op) ==> 0 <= insn.other)
    && (insn.dest == 0 ==>
          insn.op.NOP? || insn.op.LABEL? || EndsBlock(insn.op) || insn.op.STORE? || insn.op.SET_ALIAS? || insn.op.CALL?)
  }

  ghost predicate Clean(d: Decl, insns: seq<Insn>) {
    forall i :: 0 <= i < |insns| ==> CleanInsn(d, insns[i])
  }

  /** No LABEL carries a flag. */
  predicate Unflagged(insns: seq<Insn>) {
    forall i :: 0 <= i < |insns| && insns[i].op.LABEL? ==> insns[i].src1 == 0
  }

  lemma LiveImpliesVerified(d: Decl, insns: seq<Insn>, regs: seq<Reg>, loose: set<int>)
    requires LiveOK(d, insns, regs, loose)
    requires Clean(d, insns) && Unflagged(insns)
    ensures VerifyOK(insns, regs)
  {
    forall i | 0 <= i < |insns|
      ensures insns[i].src1 != 0 ==> Initialized(insns, regs, insns[i].src1)
      ensures insns[i].src2 != 0 ==> Initialized(insns, regs, insns[i].src2)
      ensures HasSrc3(insns[i].op) && insns[i].other != 0 ==> Initialized(insns, regs, insns[i].other)
    {
      assert CleanInsn(d, insns[i]);
      if insns[i].src1 != 0 && !insns[i].op.LABEL? { assert Reads(d, insns[i], insns[i].src1); }
      if insns[i].src2 != 0 && !insns[i].op.LABEL? { assert Reads(d, insns[i], insns[i].src2); }
      if HasSrc3(insns[i].op) && insns[i].other != 0 { assert Reads(d, insns[i], insns[i].other); }
    }
  }
}
