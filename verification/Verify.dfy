/** rtl_verify_unit: every operand register is set by the instruction recorded as its birth. */
module Verify {
  import opened Rtl
  import opened Liveness
  import opened Unit

  /** verify_reg. */
  method VerifyReg(unit: RtlUnit, r: int) returns (ok: bool)
    ensures ok <==> Initialized(unit.insns, unit.regs, r)
  {
    if r < 1 || r >= |unit.regs| { return false; }
    var reg := unit.regs[r];
    if reg.birth < 0 || reg.birth >= |unit.insns| { return false; }
    if unit.insns[reg.birth].dest != r || unit.insns[reg.birth].op.NOP? { return false; }
    return true;
  }

  /** rtl_verify_unit. */
  method VerifyUnit(unit: RtlUnit) returns (ok: bool)
    ensures ok <==> forall i, r {:trigger ReadsOperand(unit.insns[i], r)} ::
              0 <= i < |unit.insns| && ReadsOperand(unit.insns[i], r) ==> Initialized(unit.insns, unit.regs, r)
    ensures ok <==> VerifyOK(unit.insns, unit.regs)
  {
    var error := false;
    ghost var bad := (0, 0);
    for i := 0 to |unit.insns|
      invariant error ==>
        0 <= bad.0 < i && ReadsOperand(unit.insns[bad.0], bad.1) && !Initialized(unit.insns, unit.regs, bad.1)
      invariant !error ==> forall j, r {:trigger ReadsOperand(unit.insns[j], r)} ::
        0 <= j < i && ReadsOperand(unit.insns[j], r) ==> Initialized(unit.insns, unit.regs, r)
    {
      var insn := unit.insns[i];
      if insn.src1 != 0 {
        var set1 := VerifyReg(unit, insn.src1);
        if !set1 { error := true; bad := (i, insn.src1); }
      }
      if insn.src2 != 0 {
        var set2 := VerifyReg(unit, insn.src2);
        if !set2 { error := true; bad := (i, insn.src2); }
      }
      if HasSrc3(insn.op) && insn.other != 0 {
        var set3 := VerifyReg(unit, insn.other);
        if !set3 { error := true; bad := (i, insn.other); }
      }
    }
    ok := !error;
    OperandsInitialized(unit.insns, unit.regs);
  }

  /** The check instruction by instruction and the check read by read are the same. */
  lemma OperandsInitialized(insns: seq<Insn>, regs: seq<Reg>)
    ensures VerifyOK(insns, regs) <==>
      forall i, r {:trigger ReadsOperand(insns[i], r)} ::
        0 <= i < |insns| && ReadsOperand(insns[i], r) ==> Initialized(insns, regs, r)
  {
    if forall i, r {:trigger ReadsOperand(insns[i], r)} ::
      0 <= i < |insns| && ReadsOperand(insns[i], r) ==> Initialized(insns, regs, r)
    {
      forall i | 0 <= i < |insns|
        ensures insns[i].src1 != 0 ==> Initialized(insns, regs, insns[i].src1)
        ensures insns[i].src2 != 0 ==> Initialized(insns, regs, insns[i].src2)
        ensures HasSrc3(insns[i].op) && insns[i].other != 0 ==> Initialized(insns, regs, insns[i].other)
      {
        assert ReadsOperand(insns[i], insns[i].src1) <==> insns[i].src1 != 0;
        assert ReadsOperand(insns[i], insns[i].src2) <==> insns[i].src2 != 0;
        assert HasSrc3(insns[i].op) && insns[i].other != 0 ==> ReadsOperand(insns[i], insns[i].other);
      }
    }
  }
}
