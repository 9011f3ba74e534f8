/** rtl_opt_fold_registers: one in-order scan that folds constants and loads from read-only memory, and forwards vector
    elements. */
module FoldScan {
  import opened Rtl
  import Arith
  import Folding
  import opened Liveness
  import opened Semantics
  import opened Flow
  import opened Unit
  import opened Invariant
  import opened Paths
  import opened FoldConstants
  import opened FoldVectors
  import opened FoldPass
  import opened FoldLoads
  import ReadonlyMap

  // ---- Loads from read-only memory ----

  /** Instruction k loads from a constant offset in guest memory, at a read-only address. */
  ghost predicate LoadsReadonly(c: Code, regs: seq<Reg>, membase: nat, readonly: iset<int>, k: int)
    requires 0 <= k < |c.insns| && c.insns[k].src1 < |regs|
  {
    && IsScalar(TypeOf(c.decl, c.insns[k].dest)) && BaseOffset(c, regs, membase, c.insns[k].src1).Some?
    && GuestAddress(BaseOffset(c, regs, membase, c.insns[k].src1).value, c.insns[k].other) in readonly
  }

  /** Register b is the guest memory base, or is set to the base plus a constant: they differ by v. */
  predicate AtOffset(c: Code, regs: seq<Reg>, membase: nat, b: nat, v: int)
    requires b < |regs|
  {
    if b == membase then v == 0
    else
      && regs[b].source == RESULT_NOFOLD && 0 <= regs[b].birth < |c.insns|
      && var def := c.insns[regs[b].birth];
         || (def.op == ALUI(ADDI) && def.src1 == membase && v == def.other)
         || (def.op == ALU2(ADD) && def.src1 == membase && IsConst(regs, def.src2) && v == regs[def.src2].value)
         || (def.op == ALU2(ADD) && def.src2 == membase && IsConst(regs, def.src1) && v == regs[def.src1].value)
  }

  /** Instruction k loads a scalar from guest address a, which is known and read-only. */
  ghost predicate LoadsFrom(c: Code, regs: seq<Reg>, membase: nat, readonly: iset<int>, k: int, a: int)
    requires 0 <= k < |c.insns| && c.insns[k].src1 < |regs|
  {
    && !IsVector(TypeOf(c.decl, c.insns[k].dest)) && a in readonly
    && exists v :: AtOffset(c, regs, membase, c.insns[k].src1, v) && a == (v + c.insns[k].other) % 0x1_0000_0000
  }

  lemma OffsetKnown(c: Code, regs: seq<Reg>, membase: nat, b: nat, v: int)
    requires b < |regs|
    ensures BaseOffset(c, regs, membase, b) == Some(v) <==> AtOffset(c, regs, membase, b, v)
  {}

  /** A load is folded exactly when the address is known and read-only, into the bytes there. */
  lemma LoadedFrom(c: Code, regs: seq<Reg>, membase: nat, readonly: iset<int>, image: int -> nat, k: int)
    requires 0 <= k < |c.insns| && c.insns[k].src1 < |regs|
    ensures LoadsReadonly(c, regs, membase, readonly, k) <==>
              exists a :: LoadsFrom(c, regs, membase, readonly, k, a)
    ensures LoadsReadonly(c, regs, membase, readonly, k) ==>
              forall a :: LoadsFrom(c, regs, membase, readonly, k, a) ==>
                var t := TypeOf(c.decl, c.insns[k].dest);
                HoldsBytes(LoadedInsn(c, regs, membase, image, k).other, image, a,
                           if t == INT32 || t == FLOAT32 then 4 else 8)
  {
    hide TypeOf, AtOffset, BaseOffset, HoldsBytes;
    var insn := c.insns[k];
    var t := TypeOf(c.decl, insn.dest);
    forall v ensures BaseOffset(c, regs, membase, insn.src1) == Some(v) <==> AtOffset(c, regs, membase, insn.src1, v) {
      OffsetKnown(c, regs, membase, insn.src1, v);
    }
    forall v ensures GuestAddress(v, insn.other) == (v + insn.other) % 0x1_0000_0000 { AddressIs(v, insn.other); }
    if LoadsReadonly(c, regs, membase, readonly, k) {
      var v := BaseOffset(c, regs, membase, insn.src1).value;
      assert AtOffset(c, regs, membase, insn.src1, v);
      assert LoadsFrom(c, regs, membase, readonly, k, GuestAddress(v, insn.other));
      BytesThere(image, LoadSize(t), GuestAddress(v, insn.other));
    }
  }

  /** What is there. */
  function LoadedInsn(c: Code, regs: seq<Reg>, membase: nat, image: int -> nat, k: int): Insn
    requires 0 <= k < |c.insns| && c.insns[k].src1 < |regs| && BaseOffset(c, regs, membase, c.insns[k].src1).Some?
  {
    var insn := c.insns[k];
    Loaded(insn, Word(image, LoadSize(TypeOf(c.decl, insn.dest)),
                      GuestAddress(BaseOffset(c, regs, membase, insn.src1).value, insn.other)))
  }

  /** Every byte of the load is read-only, and the membase register is what it should be. */
  ghost predicate LoadInside(g: Guest, c: Code, regs: seq<Reg>, membase: nat, k: int)
    requires 0 <= k < |c.insns| && c.insns[k].src1 < |regs|
  {
    && BaseLoaded(c, membase, g) && BaseOffset(c, regs, membase, c.insns[k].src1).Some?
    && AllReadonly(g, RunAddress(BaseOffset(c, regs, membase, c.insns[k].src1).value, c.insns[k].other),
                   LoadSize(TypeOf(c.decl, c.insns[k].dest)))
  }

  lemma LoadFits(c: Code, image: int -> nat, k: int, a: int)
    requires 0 <= k < |c.insns| && IsScalar(TypeOf(c.decl, c.insns[k].dest))
    ensures var t := TypeOf(c.decl, c.insns[k].dest);
      Truncated(t, Word(image, LoadSize(t), a)) == Num(Word(image, LoadSize(t), a))
  {
    var t := TypeOf(c.decl, c.insns[k].dest);
    WordFits(image, LoadSize(t), a);
    Folding.USmall(StoredWidth(t), Word(image, LoadSize(t), a));
  }

  /** The membase register is a live argument when something is computed from it. */
  lemma BaseIsArgument(c: Code, regs: seq<Reg>, g: Guest, membase: nat, k: int)
    requires SsaOK(c.insns, regs) && Covers(c.decl, c.insns, regs) && ConstOK(c.decl, c.insns, regs)
    requires BaseLoaded(c, membase, g)
    requires 0 <= k < |c.insns| && c.insns[k].op.LOAD? && 0 < c.insns[k].src1 < |regs| && TypedInsn(c.decl, c.insns[k])
    requires BaseOffset(c, regs, membase, c.insns[k].src1).Some?
    requires forall i :: 0 <= i < |c.insns| ==> TypedInsn(c.decl, c.insns[i])
    ensures 0 < membase < |regs| && TypeOf(c.decl, membase).ADDRESS?
    ensures forall q :: IsConst(regs, q) ==> q != membase && q != c.insns[k].src1
  {
    hide Folding.IsImmediate;
    var b := c.insns[k].src1;
    assert Reads(c.decl, c.insns[k], b);
    if b != membase {
      var i := regs[b].birth;
      assert TypedInsn(c.decl, c.insns[i]) && Reads(c.decl, c.insns[i], membase);
    }
    assert c.insns[regs[membase].birth].dest == membase;
    forall q | IsConst(regs, q) ensures q != membase && q != b { assert ConstReg(c.decl, c.insns, regs, q); }
  }

  lemma LoadToImm(
    g: Guest, c: Code, regs: seq<Reg>, edges: seq<Edges>, owner: seq<int>, order: seq<int>, lastBlock: int,
    membase: nat,
    image: int -> nat, k: int) returns (loose: set<int>)
    requires FoldState(c, regs, edges, owner, order, lastBlock, {}, k) && 0 <= k < |c.insns| && c.insns[k].op.LOAD?
    requires 0 < c.insns[k].dest < |regs| && c.insns[k].src1 < |regs|
    requires BaseOffset(c, regs, membase, c.insns[k].src1).Some? && IsScalar(TypeOf(c.decl, c.insns[k].dest))
    ensures var insn' := LoadedInsn(c, regs, membase, image, k);
      var c' := c.(insns := c.insns[k := insn']);
      && insn'.other >= 0
      && FoldState(c', MarkedConstant(regs, insn'.dest, insn'.other), edges, owner, order, lastBlock, loose, k)
      && (LoadInside(g, c, regs, membase, k) && g.image == image ==> RefinesOn(g, c, c'))
      && ReadsKnown(c, k, insn') && insn'.dest == c.insns[k].dest && insn'.op.LOAD_IMM?
      && loose == if regs[c.insns[k].src1].death == k then {c.insns[k].src1 as int} else {}
  {
    hide WellFormed, Refines, RefinesOn, BaseOffset, AllReadonly, Word, GuestAddress, BaseLoaded, TypedInsn;
    var insn := c.insns[k];
    var insn' := LoadedInsn(c, regs, membase, image, k);
    OperandFacts(c, regs, edges, owner, order, lastBlock, k);
    FlowAndRanges(c, regs, edges, owner, order, lastBlock, k);
    LoadFits(c, image, k, GuestAddress(BaseOffset(c, regs, membase, insn.src1).value, insn.other));
    LoadShape(c.decl, insn, insn'.other);
    if LoadInside(g, c, regs, membase, k) && g.image == image {
      AllTyped(c, regs, edges, owner, order, lastBlock, k);
      BaseIsArgument(c, regs, g, membase, k);
      ReplaceLoad(g, c, regs, membase, k);
    }
    RewriteInsn(c, regs, MarkedConstant(regs, insn.dest, insn'.other), edges, owner, order, lastBlock, k, insn', 0);
    loose := Dropped(c.decl, regs, k, insn, insn');
  }

  lemma AllTyped(c: Code, regs: seq<Reg>, edges: seq<Edges>, owner: seq<int>, order: seq<int>, lastBlock: int, k: int)
    requires FoldState(c, regs, edges, owner, order, lastBlock, {}, k)
    ensures forall i :: 0 <= i < |c.insns| ==> TypedInsn(c.decl, c.insns[i])
  {
    hide WellFormed, TypedInsn;
  }

  lemma LoadShape(d: Decl, insn: Insn, v: int)
    requires CleanInsn(d, insn) && insn.op.LOAD? && insn.dest != 0 && IsScalar(TypeOf(d, insn.dest)) && v >= 0
    ensures CleanInsn(d, Loaded(insn, v)) && TypedInsn(d, Loaded(insn, v)) && insn.src1 != 0 && insn.src2 == 0
    ensures forall r :: !Reads(d, Loaded(insn, v), r)
    ensures forall r :: Reads(d, insn, r) <==> r == insn.src1
  {}

  /** get_readonly_ptr and fold_readonly_load: a load from a known offset in guest memory is replaced by what is there
      if its first byte is read-only. */
  method FoldLoad(unit: RtlUnit, k: int, handle: ReadonlyMap.Handle, image: int -> nat, ghost g: Guest)
    requires FoldOK(unit, {}, k) && 0 <= k < |unit.insns| && unit.insns[k].op.LOAD?
    requires 0 < unit.insns[k].dest < |unit.regs|
    requires handle.Valid() && g.image == image
    modifies unit`insns, unit`regs
    ensures FoldOK(unit, {}, k) && OnlyAt(old(unit.Snap()), old(unit.regs), unit.Snap(), unit.regs, k)
    ensures 0 < old(unit.insns)[k].src1 < |old(unit.regs)|
    ensures if LoadsReadonly(old(unit.Snap()), old(unit.regs), unit.membaseReg, handle.contents, k)
            then unit.insns[k] == LoadedInsn(old(unit.Snap()), old(unit.regs), unit.membaseReg, image, k)
                 && unit.regs[unit.insns[k].dest].source.CONSTANT? && ReadsKnown(old(unit.Snap()), k, unit.insns[k])
                 && (LoadInside(g, old(unit.Snap()), old(unit.regs), unit.membaseReg, k) ==>
                       RefinesOn(g, old(unit.Snap()), unit.Snap()))
                 && LoadIsExact(g, old(unit.Snap()), old(unit.regs), unit.membaseReg, k)
            else unit.insns == old(unit.insns) && unit.regs == old(unit.regs)
    ensures if exists a :: LoadsFrom(old(unit.Snap()), old(unit.regs), unit.membaseReg, handle.contents, k, a)
            then unit.insns[k].op == LOAD_IMM && forall a ::
              LoadsFrom(old(unit.Snap()), old(unit.regs), unit.membaseReg, handle.contents, k, a) ==>
                var t := TypeOf(unit.decl, unit.insns[k].dest);
                HoldsBytes(unit.insns[k].other, image, a, if t == INT32 || t == FLOAT32 then 4 else 8)
            else unit.insns == old(unit.insns) && unit.regs == old(unit.regs)
  {
    hide FoldState, RefinesOn, LoadInside, ReadsKnown, BaseOffset, LoadIsExact, LoadsFrom, HoldsBytes;
    ghost var c, regs := unit.Snap(), unit.regs;
    if c.insns[k].src1 < |regs| {
      LoadedFrom(c, regs, unit.membaseReg, handle.contents, image, k);
    }
    OperandFacts(c, regs, unit.edges, unit.owner, unit.order, unit.lastBlock, k);
    var insn := unit.insns[k];
    assert Reads(c.decl, insn, insn.src1);
    var offset := BaseOffset(Code(unit.decl, unit.insns, unit.spans, unit.labels), unit.regs, unit.membaseReg,
                             insn.src1);
    if offset.None? || !IsScalar(TypeOf(unit.decl, insn.dest)) { return; }
    var address := GuestAddress(offset.value, insn.other);
    InWord(offset.value, insn.other);
    var readonly := handle.IsAddressReadonly(address);
    if !readonly { return; }
    var value := Word(image, LoadSize(TypeOf(unit.decl, insn.dest)), address);
    LoadIsExactAt(g, c, regs, unit.membaseReg, k);
    ghost var loose :=
      LoadToImm(g, c, regs, unit.edges, unit.owner, unit.order, unit.lastBlock, unit.membaseReg, image, k);
    unit.regs := unit.regs[insn.dest := unit.regs[insn.dest].(source := CONSTANT, value := value)];
    unit.insns := unit.insns[k := Loaded(insn, value)];
    RollbackIfDying(unit, insn.src1, k, loose);
    assert loose - {insn.src1 as int} == {};
  }

  /** What is loaded at instruction k on every honest machine is what folding puts there if and only if all the bytes it
      reads are read-only. */
  ghost predicate LoadIsExact(g: Guest, c: Code, regs: seq<Reg>, membase: nat, k: int)
    requires 0 <= k < |c.insns| && c.insns[k].src1 < |regs| && BaseOffset(c, regs, membase, c.insns[k].src1).Some?
  {
    var t, offset := TypeOf(c.decl, c.insns[k].dest), BaseOffset(c, regs, membase, c.insns[k].src1).value;
    FoldIsRight(g, t, offset, c.insns[k].other) <==> AllReadonly(g, RunAddress(offset, c.insns[k].other), LoadSize(t))
  }

  lemma LoadIsExactAt(g: Guest, c: Code, regs: seq<Reg>, membase: nat, k: int)
    requires 0 <= k < |c.insns| && c.insns[k].src1 < |regs| && BaseOffset(c, regs, membase, c.insns[k].src1).Some?
    requires IsScalar(TypeOf(c.decl, c.insns[k].dest))
    ensures LoadIsExact(g, c, regs, membase, k)
  {
    LoadExact(g, TypeOf(c.decl, c.insns[k].dest), BaseOffset(c, regs, membase, c.insns[k].src1).value,
              c.insns[k].other);
  }

  lemma InWord(offset: int, displacement: int)
    ensures 0 <= GuestAddress(offset, displacement) < ReadonlyMap.WORD
  {
    Arith.Pow2Values();
  }

  // ---- The scan ----

  /** The scan has processed the instructions below i: every register of source RESULT set there is now a
      constant or final, and nothing is left to fold at it.  All else is as it was. */
  ghost predicate Scanned(
    c0: Code, regs0: seq<Reg>, c: Code, regs: seq<Reg>, i: int, foldConstants: bool, foldVectors: bool)
  {
    && c == c0.(insns := c.insns) && |c.insns| == |c0.insns| && |regs| == |regs0|
    && (forall j :: 0 <= j < |c.insns| ==>
         c.insns[j].dest == c0.insns[j].dest && (j >= i ==> c.insns[j] == c0.insns[j]))
    && (forall r :: 0 <= r < |regs| ==> SameRegister(regs0, regs, r, i))
    && OnlyPure(c0, c)
    && (forall j :: 0 <= j < i && j < |c.insns| && FromResult(c0, regs0, j) ==>
          Finished(c, regs, j, foldConstants, foldVectors))
  }

  /** c differs from c0 in pure instructions and loads only, and reads no register that c0 does not read. */
  ghost predicate OnlyPure(c0: Code, c: Code) {
    && |c.insns| == |c0.insns| && c.decl == c0.decl
    && (forall i :: 0 <= i < |c.insns| ==>
          c.insns[i] == c0.insns[i] || (Replaceable(c0.insns[i].op) && IsPure(c.insns[i].op)))
    && forall r {:trigger HasReader(c.decl, c.insns, r)} :: HasReader(c.decl, c.insns, r) ==>
         HasReader(c0.decl, c0.insns, r)
  }

  lemma OnlyPureStep(c0: Code, c: Code, c': Code, k: int)
    requires OnlyPure(c0, c) && 0 <= k < |c.insns| == |c'.insns| && c' == c.(insns := c.insns[k := c'.insns[k]])
    requires ReadsKnown(c, k, c'.insns[k])
    ensures OnlyPure(c0, c')
  {
    forall r | HasReader(c'.decl, c'.insns, r) ensures HasReader(c0.decl, c0.insns, r) {
      var j :| 0 <= j < |c'.insns| && Reads(c'.decl, c'.insns[j], r);
      if j != k { assert Reads(c.decl, c.insns[j], r); }
      assert HasReader(c.decl, c.insns, r);
    }
  }

  predicate SameRegister(regs0: seq<Reg>, regs: seq<Reg>, r: int, i: int)
    requires 0 <= r < |regs0| == |regs|
  {
    && regs[r].live == regs0[r].live && regs[r].birth == regs0[r].birth
    && (((regs0[r].source.RESULT? || regs0[r].source.MEMORY?) && regs0[r].live && regs0[r].birth < i)
        || (regs[r].source == regs0[r].source && regs[r].value == regs0[r].value))
  }

  /** Instruction j sets a register of source RESULT. */
  predicate FromResult(c: Code, regs: seq<Reg>, j: int)
    requires 0 <= j < |c.insns|
  {
    0 < c.insns[j].dest < |regs| && regs[c.insns[j].dest].source.RESULT?
  }

  predicate Finished(c: Code, regs: seq<Reg>, j: int, foldConstants: bool, foldVectors: bool)
    requires 0 <= j < |c.insns|
  {
    && 0 < c.insns[j].dest < |regs|
    && (regs[c.insns[j].dest].source.CONSTANT? || regs[c.insns[j].dest].source.RESULT_NOFOLD?)
    && (foldConstants ==> Settled(c.decl, c.insns, regs, j))
    && (foldVectors ==> Forwarded(c.insns, regs, j))
  }

  /** Instruction j sets a register of source MEMORY. */
  predicate FromMemory(c: Code, regs: seq<Reg>, j: int)
    requires 0 <= j < |c.insns|
  {
    0 < c.insns[j].dest < |regs| && regs[c.insns[j].dest].source == MEMORY
  }

  /** Instruction k is a LOAD from a known, read-only address. */
  ghost predicate LoadLeft(c: Code, regs: seq<Reg>, membase: nat, readonly: iset<int>, k: int)
    requires 0 <= k < |c.insns|
  {
    c.insns[k].op == LOAD && c.insns[k].src1 < |regs| && exists a :: LoadsFrom(c, regs, membase, readonly, k, a)
  }

  ghost predicate LoadsDone(c: Code, regs: seq<Reg>, membase: nat, readonly: iset<int>, i: int) {
    forall j :: 0 <= j < i && j < |c.insns| && FromMemory(c, regs, j) ==> !LoadLeft(c, regs, membase, readonly, j)
  }

  /** What is known about the base of an earlier load does not change at i. */
  lemma OffsetKept(c: Code, regs: seq<Reg>, c': Code, regs': seq<Reg>, i: int, membase: nat, b: nat, v: int)
    requires Covers(c.decl, c.insns, regs) && SsaOK(c.insns, regs) && OnlyAt(c, regs, c', regs', i)
    requires 0 < b < |regs| && regs[b].live && regs[b].birth < i && c.insns[i].dest != 0
    requires AtOffset(c', regs', membase, b, v)
    ensures AtOffset(c, regs, membase, b, v)
  {
    var k := regs[b].birth;
    assert b != c.insns[i].dest && c'.insns[k] == c.insns[k];
    if c.insns[k].op == ALU2(ADD) {
      assert c.insns[k].src1 != 0 ==> Reads(c.decl, c.insns[k], c.insns[k].src1);
      assert c.insns[k].src2 != 0 ==> Reads(c.decl, c.insns[k], c.insns[k].src2);
    }
  }

  lemma LoadLeftKept(
    c: Code, regs: seq<Reg>, c': Code, regs': seq<Reg>, i: int, membase: nat, readonly: iset<int>, j: int)
    requires Covers(c.decl, c.insns, regs) && SsaOK(c.insns, regs) && OnlyAt(c, regs, c', regs', i)
    requires 0 <= j < i < |c.insns| && c.insns[i].dest != 0 && CleanInsn(c.decl, c.insns[j])
    requires LoadLeft(c', regs', membase, readonly, j)
    ensures LoadLeft(c, regs, membase, readonly, j)
  {
    hide AtOffset;
    var a :| LoadsFrom(c', regs', membase, readonly, j, a);
    var v :| AtOffset(c', regs', membase, c'.insns[j].src1, v) && a == (v + c'.insns[j].other) % 0x1_0000_0000;
    assert Reads(c.decl, c.insns[j], c.insns[j].src1);
    OffsetKept(c, regs, c', regs', i, membase, c.insns[j].src1, v);
    assert LoadsFrom(c, regs, membase, readonly, j, a);
  }

  lemma LoadsDoneStep(
    c: Code, regs: seq<Reg>, c': Code, regs': seq<Reg>, i: int, membase: nat, readonly: iset<int>)
    requires Covers(c.decl, c.insns, regs) && SsaOK(c.insns, regs) && OnlyAt(c, regs, c', regs', i)
    requires Clean(c.decl, c.insns) && c.insns[i].dest != 0 && LoadsDone(c, regs, membase, readonly, i)
    requires FromMemory(c', regs', i) ==> !LoadLeft(c', regs', membase, readonly, i)
    ensures LoadsDone(c', regs', membase, readonly, i + 1)
  {
    hide LoadLeft, Covers, CleanInsn;
    var next := i + 1;
    forall j | 0 <= j < next && FromMemory(c', regs', j) ensures !LoadLeft(c', regs', membase, readonly, j) {
      if j < i {
        assert c'.insns[j] == c.insns[j] && c.insns[j].dest != c.insns[i].dest;
        assert FromMemory(c, regs, j) && CleanInsn(c.decl, c.insns[j]);
        if LoadLeft(c', regs', membase, readonly, j) { LoadLeftKept(c, regs, c', regs', i, membase, readonly, j); }
      }
    }
  }

  /** Something is left to do at instruction k: it copies a constant that dies with it, or it could take an element from
      the definition of its vector. */
  ghost predicate Ripe(c: Code, regs: seq<Reg>, k: int, foldConstants: bool, foldVectors: bool) {
    && 0 <= k < |c.insns|
    && (|| (foldConstants && c.insns[k].op == MOVE && DiesConstant(regs, c.insns[k].src1, k))
        || (foldVectors && Forwardable(c.decl, c.insns, regs, k)))
  }

  /** What is ripe only became so when an instruction further on was folded. */
  ghost predicate RipeLate(
    c0: Code, regs0: seq<Reg>, c: Code, regs: seq<Reg>, i: int, foldConstants: bool, foldVectors: bool)
  {
    forall j :: 0 <= j < i && j < |c0.insns| && FromResult(c0, regs0, j) && Ripe(c, regs, j, foldConstants, foldVectors)
      ==> exists m :: ChangedAt(c0, c, j, m, i)
  }

  predicate ChangedAt(c0: Code, c: Code, j: int, m: int, i: int) {
    j < m < i && 0 <= m < |c0.insns| && m < |c.insns| && c.insns[m] != c0.insns[m]
  }

  /** All registers but r are as they were. */
  predicate OnlyRegister(regs: seq<Reg>, regs': seq<Reg>, r: int) {
    |regs'| == |regs| && forall q :: 0 <= q < |regs| && q != r ==> regs'[q] == regs[q]
  }

  /** What is not ripe stays so unless instruction i changes. */
  lemma RipeKept(
    c: Code, regs: seq<Reg>, c': Code, regs': seq<Reg>, i: int, j: int, foldConstants: bool, foldVectors: bool)
    requires Covers(c.decl, c.insns, regs) && SsaOK(c.insns, regs) && 0 <= j < i < |c.insns|
    requires TypedOK(c.decl, c.insns, regs)
    requires c' == c && OnlyRegister(regs, regs', c.insns[i].dest) && c.insns[i].dest != 0
    requires Ripe(c', regs', j, foldConstants, foldVectors)
    ensures Ripe(c, regs, j, foldConstants, foldVectors)
  {
    hide TypedInsn, ResultReg;
    assert Reads(c.decl, c.insns[j], c.insns[j].src1);
    assert regs[c.insns[j].src1].birth < j;
  }

  lemma RipeStep(
    c0: Code, regs0: seq<Reg>, c: Code, regs: seq<Reg>, c': Code, regs': seq<Reg>, i: int, foldConstants: bool,
    foldVectors: bool)
    requires RipeLate(c0, regs0, c, regs, i, foldConstants, foldVectors) && OnlyAt(c, regs, c', regs', i)
    requires Covers(c.decl, c.insns, regs) && SsaOK(c.insns, regs) && TypedOK(c.decl, c.insns, regs)
    requires |c0.insns| == |c.insns| && c.insns[i] == c0.insns[i] && c.insns[i].dest != 0
    requires c'.insns[i] == c.insns[i] ==> OnlyRegister(regs, regs', c.insns[i].dest)
    requires FromResult(c0, regs0, i) ==> !Ripe(c', regs', i, foldConstants, foldVectors)
    ensures RipeLate(c0, regs0, c', regs', i + 1, foldConstants, foldVectors)
  {
    hide Covers, SsaOK, TypedOK, Ripe;
    var next := i + 1;
    forall j | 0 <= j < next && FromResult(c0, regs0, j) && Ripe(c', regs', j, foldConstants, foldVectors)
      ensures exists m :: ChangedAt(c0, c', j, m, next)
    {
      if c'.insns[i] != c.insns[i] {
        assert ChangedAt(c0, c', j, i, next);
      } else {
        assert c' == c;
        RipeKept(c, regs, c', regs', i, j, foldConstants, foldVectors);
        var m :| ChangedAt(c0, c, j, m, i);
        assert ChangedAt(c0, c', j, m, next);
      }
    }
  }

  /** Folding at k does not disturb what is finished before k, because operands are born before their uses. */
  lemma FinishedKept(
    c: Code, regs: seq<Reg>, c': Code, regs': seq<Reg>, j: int, k: int, foldConstants: bool, foldVectors: bool)
    requires Covers(c.decl, c.insns, regs) && SsaOK(c.insns, regs) && OnlyAt(c, regs, c', regs', k) && 0 <= j < k
    requires 0 < c.insns[k].dest && TypedInsn(c.decl, c.insns[j])
    requires Finished(c, regs, j, foldConstants, foldVectors)
    ensures Finished(c', regs', j, foldConstants, foldVectors)
  {
    var insn, r := c.insns[j], c.insns[k].dest;
    assert !Reads(c.decl, insn, r);
    if insn.src1 < |regs| && insn.op.VEXTRACT? && regs[insn.src1].source.RESULT_NOFOLD? {
      assert Reads(c.decl, insn, insn.src1);
      assert regs[insn.src1].birth < j;
    }
  }

  lemma OnlyAtTwice(
    c1: Code, regs1: seq<Reg>, c2: Code, regs2: seq<Reg>, c3: Code, regs3: seq<Reg>, k: int)
    requires OnlyAt(c1, regs1, c2, regs2, k) && OnlyAt(c2, regs2, c3, regs3, k)
    ensures OnlyAt(c1, regs1, c3, regs3, k)
  {
    assert c1.insns[k := c2.insns[k]][k := c3.insns[k]] == c1.insns[k := c3.insns[k]];
  }

  lemma BirthOf(c: Code, regs: seq<Reg>, i: int)
    requires SsaOK(c.insns, regs) && 0 <= i < |c.insns| && c.insns[i].dest != 0
    ensures c.insns[i].dest < |regs| && regs[c.insns[i].dest].birth == i && regs[c.insns[i].dest].live
  {}

  lemma ScanStep(
    c0: Code, regs0: seq<Reg>, c: Code, regs: seq<Reg>, c': Code, regs': seq<Reg>, i: int,
    foldConstants: bool, foldVectors: bool)
    requires Scanned(c0, regs0, c, regs, i, foldConstants, foldVectors) && OnlyAt(c, regs, c', regs', i)
    requires Covers(c.decl, c.insns, regs) && SsaOK(c.insns, regs) && TypedOK(c.decl, c.insns, regs)
    requires 0 <= i < |c.insns| && FromResult(c, regs, i) && Finished(c', regs', i, foldConstants, foldVectors)
    requires ReadsKnown(c, i, c'.insns[i])
    ensures Scanned(c0, regs0, c', regs', i + 1, foldConstants, foldVectors)
  {
    hide Finished, Covers, SsaOK, OnlyPure, ReadsKnown;
    forall j | 0 <= j < i && FromResult(c0, regs0, j) ensures Finished(c', regs', j, foldConstants, foldVectors) {
      FinishedKept(c, regs, c', regs', j, i, foldConstants, foldVectors);
    }
    BirthOf(c, regs, i);
    OnlyPureStep(c0, c, c', i);
    var next := i + 1;
    forall r | 0 <= r < |regs'| ensures SameRegister(regs0, regs', r, next) {
      assert SameRegister(regs0, regs, r, i);
    }
  }

  lemma ScanSkip(
    c0: Code, regs0: seq<Reg>, c: Code, regs: seq<Reg>, i: int, foldConstants: bool, foldVectors: bool)
    requires Scanned(c0, regs0, c, regs, i, foldConstants, foldVectors) && SsaOK(c.insns, regs)
    requires 0 <= i < |c.insns| && !FromResult(c, regs, i)
    ensures Scanned(c0, regs0, c, regs, i + 1, foldConstants, foldVectors)
  {
    hide Finished;
    if 0 < c.insns[i].dest < |regs| { assert SameRegister(regs0, regs, c.insns[i].dest, i); }
    var next := i + 1;
    forall r | 0 <= r < |regs| ensures SameRegister(regs0, regs, r, next) {
      assert SameRegister(regs0, regs, r, i);
    }
  }

  lemma SourceChanged(d: Decl, insns: seq<Insn>, regs: seq<Reg>, r: nat)
    requires LiveOK(d, insns, regs, {}) && ConstOK(d, insns, regs) && TypedOK(d, insns, regs)
    requires 0 < r < |regs| && regs[r].source.RESULT?
    ensures var regs' := regs[r := regs[r].(source := RESULT_NOFOLD)];
      LiveOK(d, insns, regs', {}) && ConstOK(d, insns, regs') && TypedOK(d, insns, regs')
  {
    hide Reads, TypedInsn;
    var regs' := regs[r := regs[r].(source := RESULT_NOFOLD)];
    forall q | 0 < q < |regs'|
      ensures regs'[q].live && regs'[q].source.CONSTANT? ==> ConstReg(d, insns, regs', q)
      ensures ResultReg(insns, regs', q)
      ensures Tight(d, insns, regs', q)
    {
      assert ResultReg(insns, regs, q) && Tight(d, insns, regs, q);
      if regs[q].live && regs[q].source.CONSTANT? { assert ConstReg(d, insns, regs, q); }
    }
    forall i, q | 0 <= i < |insns| && Reads(d, insns[i], q)
      ensures q < |regs'| && q > 0 && regs'[q].live && regs'[q].birth < i <= regs'[q].death
    {
      ReadsPositive(d, insns[i], q);
    }
  }

  lemma ReadsPositive(d: Decl, insn: Insn, r: int)
    requires Reads(d, insn, r)
    ensures r > 0
  {}

  lemma ResultOfTyped(c: Code, regs: seq<Reg>, k: int)
    requires SsaOK(c.insns, regs) && TypedOK(c.decl, c.insns, regs) && 0 <= k < |c.insns| && FromResult(c, regs, k)
    ensures ResultOp(c.insns[k].op)
  {
    assert ResultReg(c.insns, regs, c.insns[k].dest);
  }

  lemma MarkNofold(
    c: Code, regs: seq<Reg>, edges: seq<Edges>, owner: seq<int>, order: seq<int>, lastBlock: int, k: int)
    requires FoldState(c, regs, edges, owner, order, lastBlock, {}, k)
    requires 0 <= k < |c.insns| && FromResult(c, regs, k)
    ensures ResultOp(c.insns[k].op)
    ensures FoldState(c, regs[c.insns[k].dest := regs[c.insns[k].dest].(source := RESULT_NOFOLD)],
                      edges, owner, order, lastBlock, {}, k)
  {
    hide FlowOK, Wired, Covers, Tight, SsaOK, ConstOK, TypedOK, Clean;
    SourceChanged(c.decl, c.insns, regs, c.insns[k].dest);
    ResultOfTyped(c, regs, k);
  }

  /** Instruction i loads an immediate into register r. */
  predicate LoadsImm(c: Code, i: int, r: int) { 0 <= i < |c.insns| && c.insns[i].op.LOAD_IMM? && c.insns[i].dest == r }

  function ImmValue(c: Code, i: int): nat
    requires 0 <= i < |c.insns|
  {
    Arith.U(StoredWidth(TypeOf(c.decl, c.insns[i].dest)), c.insns[i].other)
  }

  /** The instructions that folding turned from c0 to c replaced by constants were folded exactly: no bit field as
      wide as its operand, no wide MULHU whose middle sum overflows, and no load that is not read-only from its first
      to its last byte. */
  ghost predicate FoldedExactly(g: Guest, membase: nat, c0: Code, c: Code) {
    |c.insns| == |c0.insns| && forall k ::
        0 <= k < |c0.insns| && c.insns[k].op.LOAD_IMM? && !c0.insns[k].op.LOAD_IMM? ==>
      ExactAt(c0, c, k) && (c0.insns[k].op.LOAD? ==> ExactLoad(g, membase, c, c0.insns[k]))
  }

  /** Register b differs from the guest memory base by v, as far as the code shows. */
  ghost predicate OffsetOf(c: Code, membase: nat, b: nat, v: int) {
    (b == membase && v == 0) || exists i :: 0 <= i < |c.insns| && c.insns[i].dest == b && AddsToBase(c, membase, i, v)
  }

  ghost predicate AddsToBase(c: Code, membase: nat, i: int, v: int)
    requires 0 <= i < |c.insns|
  {
    var def := c.insns[i];
    || (def.op == ALUI(ADDI) && def.src1 == membase && v == def.other)
    || (def.op == ALU2(ADD) && def.src1 == membase && exists j :: LoadsImm(c, j, def.src2) && v == ImmValue(c, j))
    || (def.op == ALU2(ADD) && def.src2 == membase && exists j :: LoadsImm(c, j, def.src1) && v == ImmValue(c, j))
  }

  ghost predicate ExactLoad(g: Guest, membase: nat, c: Code, load: Insn) {
    && BaseLoaded(c, membase, g)
    && forall v :: OffsetOf(c, membase, load.src1, v) ==>
         AllReadonly(g, RunAddress(v, load.other), LoadSize(TypeOf(c.decl, load.dest)))
  }

  ghost predicate ExactAt(c0: Code, c: Code, k: int)
    requires 0 <= k < |c0.insns|
  {
    var insn := c0.insns[k];
    && NarrowField(c0.decl, insn)
    && (WideMulhu(c0.decl, insn) ==> forall i, j :: LoadsImm(c, i, insn.src1) && LoadsImm(c, j, insn.src2) ==>
          Folding.MidSum(ImmValue(c, i), ImmValue(c, j)) < Arith.Pow2(64))
  }

  /** When the scan that led from c0 to c preserves meaning: what was folded was folded exactly, and vectors are only
      forwarded in strict SSA form. */
  ghost predicate FoldingApplies(g: Guest, membase: nat, c0: Code, c: Code, foldVectors: bool) {
    FoldedExactly(g, membase, c0, c) && (foldVectors ==> Strict(c0))
  }

  predicate NoneLoaded(c0: Code, c: Code) {
    |c.insns| == |c0.insns| && forall k :: 0 <= k < |c.insns| && c.insns[k].op.LOAD_IMM? ==> c0.insns[k].op.LOAD_IMM?
  }

  /** Sturdy instructions still read their operands, except those that have become constants. */
  ghost predicate Retains(c0: Code, c: Code) {
    |c.insns| == |c0.insns| && forall k, r {:trigger Reads(c0.decl, c0.insns[k], r)} ::
      0 <= k < |c0.insns| && Sturdy(c0.insns[k].op) && Reads(c0.decl, c0.insns[k], r)
          && (forall i :: !LoadsImm(c, i, r)) ==>
        Reads(c0.decl, c.insns[k], r)
  }

  /** What became of the operations on registers. */
  predicate FoldsAs(c0: Code, c: Code, regs: seq<Reg>) {
    |c.insns| == |c0.insns| && forall j :: 0 <= j < |c.insns| && ResultOp(c0.insns[j].op) ==>
      FoldedAs(c0.decl, regs, c0.insns[j], c.insns[j])
  }

  /** Loads became constants only where their first byte is read-only. */
  ghost predicate LoadsExplained(readonly: iset<int>, membase: nat, c0: Code, c: Code) {
    |c.insns| == |c0.insns| && forall j :: 0 <= j < |c.insns| && c0.insns[j].op.LOAD? ==>
      c.insns[j] == c0.insns[j] || (c.insns[j].op.LOAD_IMM? && LoadExplained(readonly, membase, c, c0.insns[j]))
  }

  ghost predicate LoadExplained(readonly: iset<int>, membase: nat, c: Code, load: Insn) {
    exists v :: OffsetOf(c, membase, load.src1, v) && GuestAddress(v, load.other) in readonly
  }

  /** An operand of instruction j is not set at i, if i comes later or is j. */
  lemma OperandBorn(
    c0: Code, regs0: seq<Reg>, c: Code, regs: seq<Reg>, i: int, j: int, r: nat, foldConstants: bool, foldVectors: bool)
    requires Scanned(c0, regs0, c, regs, i, foldConstants, foldVectors) && SsaOK(c.insns, regs)
    requires Covers(c0.decl, c0.insns, regs0)
    requires 0 <= j <= i < |c.insns| && 0 < c.insns[i].dest
    ensures Reads(c0.decl, c0.insns[j], r) ==> r != c.insns[i].dest
  {
    hide Finished, OnlyPure;
    BirthOf(c, regs, i);
    assert SameRegister(regs0, regs, c.insns[i].dest, i);
  }

  lemma FoldsAsStep(
    c0: Code, regs0: seq<Reg>, c: Code, regs: seq<Reg>, c': Code, regs': seq<Reg>, i: int, foldConstants: bool,
    foldVectors: bool)
    requires Scanned(c0, regs0, c, regs, i, foldConstants, foldVectors) && OnlyAt(c, regs, c', regs', i)
    requires SsaOK(c.insns, regs) && Covers(c0.decl, c0.insns, regs0) && FoldsAs(c0, c, regs) && 0 < c.insns[i].dest
    requires c.insns[i] == c0.insns[i]
    requires ResultOp(c0.insns[i].op) ==> FoldedAs(c0.decl, regs, c0.insns[i], c'.insns[i])
    ensures FoldsAs(c0, c', regs')
  {
    hide FoldedAs, Covers, SsaOK, Finished, OnlyPure;
    forall j | 0 <= j < |c'.insns| && ResultOp(c0.insns[j].op)
      ensures FoldedAs(c0.decl, regs', c0.insns[j], c'.insns[j]) {
      var insn := c0.insns[j];
      if j <= i {
        assert insn.src1 != 0 ==> Reads(c0.decl, insn, insn.src1);
        assert insn.src2 != 0 ==> Reads(c0.decl, insn, insn.src2);
        hide Scanned;
        OperandBorn(c0, regs0, c, regs, i, j, insn.src1, foldConstants, foldVectors);
        OperandBorn(c0, regs0, c, regs, i, j, insn.src2, foldConstants, foldVectors);
        SameFolding(c0.decl, regs, regs', insn, c'.insns[j]);
      } else {
        NotFolded(c0.decl, regs', insn);
      }
    }
  }

  lemma OffsetStays(membase: nat, c: Code, c': Code, i: int, b: nat, v: int)
    requires 0 <= i < |c.insns| == |c'.insns| && c' == c.(insns := c.insns[i := c'.insns[i]])
    requires c'.insns[i].dest == c.insns[i].dest
    requires !c.insns[i].op.LOAD_IMM? && c.insns[i].dest != b && OffsetOf(c, membase, b, v)
    ensures OffsetOf(c', membase, b, v)
  {
    forall m, r | LoadsImm(c, m, r) ensures LoadsImm(c', m, r) && ImmValue(c', m) == ImmValue(c, m) {}
    if !(b == membase && v == 0) {
      var k :| 0 <= k < |c.insns| && c.insns[k].dest == b && AddsToBase(c, membase, k, v);
      assert AddsToBase(c', membase, k, v);
    }
  }

  lemma LoadsExplainedStep(
    readonly: iset<int>, membase: nat, c0: Code, regs0: seq<Reg>, c: Code, regs: seq<Reg>, c': Code, i: int,
    foldConstants: bool, foldVectors: bool)
    requires Scanned(c0, regs0, c, regs, i, foldConstants, foldVectors) && SsaOK(c.insns, regs)
    requires Covers(c0.decl, c0.insns, regs0)
    requires 0 <= i < |c.insns| == |c'.insns| && c' == c.(insns := c.insns[i := c'.insns[i]])
    requires c'.insns[i].dest == c.insns[i].dest
    requires c.insns[i] == c0.insns[i] && c.insns[i].dest != 0 && !c.insns[i].op.LOAD_IMM?
    requires LoadsExplained(readonly, membase, c0, c)
    requires c0.insns[i].op.LOAD? ==>
               c'.insns[i] == c0.insns[i]
                   || (c'.insns[i].op.LOAD_IMM? && LoadExplained(readonly, membase, c, c0.insns[i]))
    ensures LoadsExplained(readonly, membase, c0, c')
  {
    hide Covers, SsaOK, Scanned, OffsetOf, LoadExplained;
    SpanOfScan(c0, regs0, c, regs, i, foldConstants, foldVectors);
    forall j | 0 <= j < |c'.insns| && c0.insns[j].op.LOAD? && c'.insns[j] != c0.insns[j]
      ensures c'.insns[j].op.LOAD_IMM? && LoadExplained(readonly, membase, c', c0.insns[j])
    {
      BornBefore(c0, regs0, c, regs, i, j, foldConstants, foldVectors);
      StillExplained(readonly, membase, c, c', i, c0.insns[j]);
    }
  }

  lemma StillExplained(readonly: iset<int>, membase: nat, c: Code, c': Code, i: int, load: Insn)
    requires 0 <= i < |c.insns| == |c'.insns| && c' == c.(insns := c.insns[i := c'.insns[i]])
    requires c'.insns[i].dest == c.insns[i].dest
    requires !c.insns[i].op.LOAD_IMM? && c.insns[i].dest != load.src1 && LoadExplained(readonly, membase, c, load)
    ensures LoadExplained(readonly, membase, c', load)
  {
    hide OffsetOf;
    var v :| OffsetOf(c, membase, load.src1, v) && GuestAddress(v, load.other) in readonly;
    OffsetStays(membase, c, c', i, load.src1, v);
  }

  lemma SpanOfScan(c0: Code, regs0: seq<Reg>, c: Code, regs: seq<Reg>, i: int, foldConstants: bool, foldVectors: bool)
    requires Scanned(c0, regs0, c, regs, i, foldConstants, foldVectors)
    ensures |c.insns| == |c0.insns| && c.decl == c0.decl
    ensures forall j :: i <= j < |c.insns| && j >= 0 ==> c.insns[j] == c0.insns[j]
  {}

  lemma NarrowedKeeps(
    c: Code, regs: seq<Reg>, edges: seq<Edges>, owner: seq<int>, order: seq<int>, lastBlock: int, c': Code,
    regs': seq<Reg>, k: int)
    requires FoldState(c, regs, edges, owner, order, lastBlock, {}, k) && OnlyAt(c, regs, c', regs', k)
    requires c.insns[k].dest != 0 && Narrows(c.decl, c.insns[k], c'.insns[k])
    ensures Strict(c) ==> Strict(c')
    ensures Forwarded(c.insns, regs, k) ==> Forwarded(c'.insns, regs', k)
  {
    hide FoldState, Strict, Forward, SsaOK, ConstOK;
    OperandFacts(c, regs, edges, owner, order, lastBlock, k);
    if Strict(c) { StrictKept(c, regs, k, c'.insns[k], k); }
    if c.insns[k].op.VEXTRACT? { assert Reads(c.decl, c.insns[k], c.insns[k].src1); }
  }

  /** The code and the registers once instruction k, which sets r, has been marked and vectors have been forwarded. */
  ghost predicate Vectored(c: Code, regs: seq<Reg>, r: int, c1: Code, regs1: seq<Reg>, k: int, foldVectors: bool) {
    && 0 <= k < |c.insns| && |c1.insns| == |c.insns| && 0 < r < |regs|
    && var marked := regs[r := regs[r].(source := RESULT_NOFOLD)];
       if foldVectors && Forwardable(c.decl, c.insns, marked, k)
       then c1.insns[k] != c.insns[k] && (c.insns[k].op == VEXTRACT || c.insns[k].op == VINSERT)
       else c1 == c && regs1 == marked
  }

  lemma VectorsDone(c: Code, regs: seq<Reg>, r: int, c1: Code, regs1: seq<Reg>, k: int, foldVectors: bool)
    requires 0 <= k < |c.insns| && |c1.insns| == |c.insns| && 0 < r < |regs|
    requires var marked := regs[r := regs[r].(source := RESULT_NOFOLD)];
      && (foldVectors ==> (c1.insns[k] != c.insns[k] <==> Forwardable(c.decl, c.insns, marked, k)))
      && (!foldVectors || c1.insns[k] == c.insns[k] ==> c1 == c && regs1 == marked)
    requires foldVectors ==> !Forwardable(c1.decl, c1.insns, regs1, k)
    ensures Vectored(c, regs, r, c1, regs1, k, foldVectors)
    ensures !Ripe(c1, regs1, k, false, foldVectors)
    ensures c1.insns[k] == c.insns[k] ==> OnlyRegister(regs, regs1, r)
  {
    hide UnusedBetween;
  }

  lemma BothDone(
    c: Code, regs: seq<Reg>, r: int, c1: Code, regs1: seq<Reg>, c2: Code, regs2: seq<Reg>, k: int, foldVectors: bool)
    requires Vectored(c, regs, r, c1, regs1, k, foldVectors) && !Ripe(c1, regs1, k, false, foldVectors)
    requires |c2.insns| == |c1.insns| && (c2.insns[k] == c1.insns[k] || IsFoldedOp(c2.insns[k].op))
    requires c2.insns[k] == c1.insns[k] ==> c2 == c1 && regs2 == regs1
    requires c2.insns[k].op == MOVE ==> !DiesConstant(regs2, c2.insns[k].src1, k)
    requires CopiesRight(regs1, c1.insns[k], c2.insns[k], k)
    ensures !Ripe(c2, regs2, k, true, foldVectors)
    ensures c2.insns[k] == c.insns[k] ==> OnlyRegister(regs, regs2, r)
    ensures c.insns[k].op == MOVE && c.insns[k].src1 != r ==> CopyFolded(regs, c.insns[k], c2.insns[k], k)
  {
    hide UnusedBetween, SelectedCopy;
  }

  /** The body of the scan's loop, for an instruction that sets a register of source RESULT. */
  method FoldRegister(unit: RtlUnit, k: int, foldConstants: bool, foldVectors: bool, undefined: int)
    requires FoldOK(unit, {}, k) && 0 <= k < |unit.insns| && FromResult(unit.Snap(), unit.regs, k)
    modifies unit`insns, unit`regs
    ensures FoldOK(unit, {}, k) && OnlyAt(old(unit.Snap()), old(unit.regs), unit.Snap(), unit.regs, k)
    ensures Finished(unit.Snap(), unit.regs, k, foldConstants, foldVectors)
    ensures ReadsKnown(old(unit.Snap()), k, unit.insns[k])
    ensures KeepsReads(unit.decl, old(unit.regs), old(unit.insns)[k], unit.insns[k])
    ensures unit.insns[k].op.LOAD_IMM? ==> foldConstants
    ensures !unit.insns[k].op.LOAD_ARG? && FoldedAs(unit.decl, old(unit.regs), old(unit.insns)[k], unit.insns[k])
    ensures FoldedRight(unit.decl, old(unit.regs), old(unit.insns)[k], unit.insns[k])
              && (foldVectors ==> Strict(old(unit.Snap()))) ==>
              Refines(old(unit.Snap()), unit.Snap()) && (foldVectors ==> Strict(unit.Snap()))
    ensures !Ripe(unit.Snap(), unit.regs, k, foldConstants, foldVectors)
    ensures foldConstants && old(unit.insns)[k].op == MOVE ==>
              CopyFolded(old(unit.regs), old(unit.insns)[k], unit.insns[k], k)
    ensures unit.insns[k] == old(unit.insns)[k] ==> OnlyRegister(old(unit.regs), unit.regs, unit.insns[k].dest)
  {
    hide FoldState, Refines, Strict, Settled, Forwarded, ExactFold, ReadsKnown, Narrows, FoldedAs, Reduced, Forwardable,
      Ripe, OnlyRegister, DiesConstant, CopyFolded;
    ghost var c, regs := unit.Snap(), unit.regs;
    RefinesSelf(c);
    MarkNofold(c, regs, unit.edges, unit.owner, unit.order, unit.lastBlock, k);
    var r := unit.insns[k].dest;
    OwnReadsKnown(c, k);
    NotFolded(c.decl, regs, c.insns[k]);
    unit.regs := unit.regs[r := unit.regs[r].(source := RESULT_NOFOLD)];
    if foldVectors {
      FoldOneVector(unit, k);
      VectorFolded(c.decl, regs, c.insns[k], unit.insns[k]);
    }
    ghost var c1, regs1 := unit.Snap(), unit.regs;
    VectorsDone(c, regs, r, c1, regs1, k, foldVectors);
    if foldConstants {
      FoldOneConstant(unit, k, undefined);
      ConstantsDone(c, regs, c1, regs1, unit.Snap(), unit.regs, unit.edges, unit.owner, unit.order, unit.lastBlock, k,
                    foldVectors);
    }
  }

  /** What constant folding adds to what vector forwarding has done. */
  lemma ConstantsDone(
    c: Code, regs: seq<Reg>, c1: Code, regs1: seq<Reg>, c2: Code, regs2: seq<Reg>, edges: seq<Edges>, owner: seq<int>,
    order: seq<int>, lastBlock: int, k: int, foldVectors: bool)
    requires 0 <= k < |c.insns| == |c1.insns| == |c2.insns|
    requires FoldState(c, regs, edges, owner, order, lastBlock, {}, k) && FromResult(c, regs, k)
    requires FoldState(c1, regs1, edges, owner, order, lastBlock, {}, k) && ResultOp(c.insns[k].op)
    requires OnlyAt(c, regs, c1, regs1, k) && OnlyAt(c1, regs1, c2, regs2, k)
    requires Vectored(c, regs, c.insns[k].dest, c1, regs1, k, foldVectors) && !Ripe(c1, regs1, k, false, foldVectors)
    requires c2.insns[k] == c1.insns[k] || IsFoldedOp(c2.insns[k].op)
    requires c2.insns[k] == c1.insns[k] ==> c2 == c1 && regs2 == regs1
    requires c2.insns[k].op == MOVE ==> !DiesConstant(regs2, c2.insns[k].src1, k)
    requires CopiesRight(regs1, c1.insns[k], c2.insns[k], k)
    requires ReadsKnown(c, k, c1.insns[k]) && Narrows(c.decl, c1.insns[k], c2.insns[k])
    requires KeepsReads(c.decl, regs1, c1.insns[k], c2.insns[k])
    requires c1.insns[k] == c.insns[k] || (!Sturdy(c.insns[k].op) && Reduced(c.insns[k].op, c1.insns[k].op))
    requires c1.insns[k] == c.insns[k] || AlwaysExact(c1.insns[k].op)
    requires FoldedAs(c.decl, regs1, c1.insns[k], c2.insns[k])
    requires (foldVectors ==> Strict(c)) ==> Refines(c, c1) && (foldVectors ==> Strict(c1))
    requires FoldedRight(c.decl, regs1, c1.insns[k], c2.insns[k]) ==> Refines(c1, c2)
    ensures OnlyAt(c, regs, c2, regs2, k) && ReadsKnown(c, k, c2.insns[k])
    ensures !c1.insns[k].op.LOAD_ARG? ==> !c2.insns[k].op.LOAD_ARG?
    ensures KeepsReads(c.decl, regs, c.insns[k], c2.insns[k]) && FoldedAs(c.decl, regs, c.insns[k], c2.insns[k])
    ensures Forwarded(c1.insns, regs1, k) ==> Forwarded(c2.insns, regs2, k)
    ensures FoldedRight(c.decl, regs, c.insns[k], c2.insns[k]) && (foldVectors ==> Strict(c)) ==>
              Refines(c, c2) && (foldVectors ==> Strict(c2))
    ensures !Ripe(c2, regs2, k, true, foldVectors)
    ensures c2.insns[k] == c.insns[k] ==> OnlyRegister(regs, regs2, c.insns[k].dest)
    ensures c.insns[k].op == MOVE ==> CopyFolded(regs, c.insns[k], c2.insns[k], k)
  {
    hide FoldState, Refines, Strict, Forwarded, ExactFold, ReadsKnown, Narrows, FoldedAs, Reduced, Ripe, OnlyRegister,
      DiesConstant, CopyFolded, Vectored, CopiesRight, ResultOp;
    BothDone(c, regs, c.insns[k].dest, c1, regs1, c2, regs2, k, foldVectors);
    OnlyAtTwice(c, regs, c1, regs1, c2, regs2, k);
    NarrowsKnown(c, k, c1.insns[k], c2.insns[k]);
    NarrowedKeeps(c1, regs1, edges, owner, order, lastBlock, c2, regs2, k);
    SourcesKept(c, regs, c1, regs1, edges, owner, order, lastBlock, k);
    FoldedTwice(c, regs, c1, regs1, c2.insns[k], k);
    AlwaysExactFolds(c.decl, regs1, c1.insns[k]);
    if FoldedRight(c.decl, regs, c.insns[k], c2.insns[k]) && (foldVectors ==> Strict(c)) {
      RefinesTransitive(c, c1, c2);
    }
  }

  lemma VectorFolded(d: Decl, regs: seq<Reg>, insn: Insn, insn': Insn)
    requires insn' == insn || (!Sturdy(insn.op) && Reduced(insn.op, insn'.op))
    ensures FoldedAs(d, regs, insn, insn')
  {
    hide FoldConstant, Conversion;
  }

  /** Forwarding a vector element and then folding. */
  lemma FoldedTwice(c: Code, regs: seq<Reg>, c1: Code, regs1: seq<Reg>, insn2: Insn, k: int)
    requires OnlyAt(c, regs, c1, regs1, k) && (forall r :: Reads(c.decl, c.insns[k], r) ==> r != c.insns[k].dest)
    requires c1.insns[k] == c.insns[k] || (!Sturdy(c.insns[k].op) && Reduced(c.insns[k].op, c1.insns[k].op))
    requires FoldedAs(c.decl, regs1, c1.insns[k], insn2) && c.insns[k].dest != 0 && ResultOp(c.insns[k].op)
    ensures FoldedAs(c.decl, regs, c.insns[k], insn2)
  {
    hide FoldedAs, Reduced, Sturdy;
    var insn := c.insns[k];
    if c1.insns[k] == insn {
      assert insn.src1 != 0 ==> Reads(c.decl, insn, insn.src1);
      assert insn.src2 != 0 ==> Reads(c.decl, insn, insn.src2);
      SameFolding(c.decl, regs1, regs, insn, insn2);
    } else {
      ReducedTwice(c.decl, regs1, insn, c1.insns[k], insn2);
      SameReduction(c.decl, regs1, regs, insn, insn2);
    }
  }

  lemma AlwaysExactFolds(d: Decl, regs: seq<Reg>, insn: Insn)
    ensures AlwaysExact(insn.op) ==> ExactFold(d, regs, insn)
  {}

  lemma SourcesKept(
    c: Code, regs: seq<Reg>, c1: Code, regs1: seq<Reg>, edges: seq<Edges>, owner: seq<int>, order: seq<int>,
    lastBlock: int, k: int)
    requires FoldState(c, regs, edges, owner, order, lastBlock, {}, k) && OnlyAt(c, regs, c1, regs1, k)
    requires c.insns[k].dest != 0
    ensures forall r :: Reads(c.decl, c.insns[k], r) ==>
              r != c.insns[k].dest && (IsConst(regs1, r) <==> IsConst(regs, r))
    ensures ExactFold(c.decl, regs, c.insns[k]) ==> ExactFold(c.decl, regs1, c.insns[k])
    ensures c.insns[k].op.MOVE? ==> c.insns[k].src1 != c.insns[k].dest
  {
    hide FoldState, SsaOK, ConstOK;
    OperandFacts(c, regs, edges, owner, order, lastBlock, k);
    assert c.insns[k].src1 != 0 ==> Reads(c.decl, c.insns[k], c.insns[k].src1);
    assert c.insns[k].src2 != 0 ==> Reads(c.decl, c.insns[k], c.insns[k].src2);
  }

  lemma ScanInsn(
    g: Guest, membase: nat, c0: Code, regs0: seq<Reg>, c: Code, regs: seq<Reg>, c': Code, i: int,
    foldConstants: bool, foldVectors: bool)
    requires Scanned(c0, regs0, c, regs, i, foldConstants, foldVectors) && 0 <= i < |c.insns|
    requires ConstOK(c.decl, c.insns, regs) && SsaOK(c.insns, regs) && Covers(c0.decl, c0.insns, regs0)
    requires |c'.insns| == |c.insns| && c' == c.(insns := c.insns[i := c'.insns[i]])
    requires c'.insns[i].dest == c.insns[i].dest
    requires (ResultOp(c.insns[i].op) || c.insns[i].op.LOAD?) && c.insns[i].dest != 0 && !c'.insns[i].op.LOAD_ARG?
    requires FoldingApplies(g, membase, c0, c, foldVectors) ==> RefinesOn(g, c0, c) && (foldVectors ==> Strict(c))
    requires ResultOp(c.insns[i].op) && FoldedRight(c.decl, regs, c.insns[i], c'.insns[i])
               && (foldVectors ==> Strict(c)) ==>
               RefinesOn(g, c, c') && (foldVectors ==> Strict(c'))
    requires c.insns[i].op.LOAD? && ExactLoad(g, membase, c, c.insns[i]) && c'.insns[i].op.LOAD_IMM?
               && (foldVectors ==> Strict(c)) ==>
               RefinesOn(g, c, c') && (foldVectors ==> Strict(c'))
    requires c.insns[i].op.LOAD? ==> c'.insns[i].op.LOAD_IMM?
    ensures FoldingApplies(g, membase, c0, c', foldVectors) ==> RefinesOn(g, c0, c') && (foldVectors ==> Strict(c'))
  {
    hide RefinesOn, Strict, ExactFold, ExactAt, ExactLoad, Covers, SsaOK, ConstOK;
    if FoldingApplies(g, membase, c0, c', foldVectors) {
      assert c.insns[i] == c0.insns[i];
      forall k | 0 <= k < |c0.insns| && c.insns[k].op.LOAD_IMM? && !c0.insns[k].op.LOAD_IMM?
        ensures ExactAt(c0, c, k) && (c0.insns[k].op.LOAD? ==> ExactLoad(g, membase, c, c0.insns[k]))
      {
        assert k < i && ExactAt(c0, c', k);
        ExactBefore(c0, c, c', i, k);
        if c0.insns[k].op.LOAD? {
          BornBefore(c0, regs0, c, regs, i, k, foldConstants, foldVectors);
          LoadBefore(g, membase, c, c', i, c0.insns[k]);
        }
      }
      if c'.insns[i].op.LOAD_IMM? {
        if c.insns[i].op.LOAD? {
          BornBefore(c0, regs0, c, regs, i, i, foldConstants, foldVectors);
          LoadBefore(g, membase, c, c', i, c.insns[i]);
        } else {
          ExactBefore(c0, c, c', i, i);
          ExactOperands(c0, c, regs, i);
        }
      }
      RefinesOnTransitive(g, c0, c, c');
    }
  }

  /** The base of a load at or before i is not set at i. */
  lemma BornBefore(
    c0: Code, regs0: seq<Reg>, c: Code, regs: seq<Reg>, i: int, k: int, foldConstants: bool, foldVectors: bool)
    requires Scanned(c0, regs0, c, regs, i, foldConstants, foldVectors) && SsaOK(c.insns, regs)
    requires Covers(c0.decl, c0.insns, regs0)
    requires 0 <= k <= i < |c.insns| && c0.insns[k].op.LOAD? && 0 < c.insns[i].dest
    ensures c.insns[i].dest != c0.insns[k].src1
  {
    hide Finished, OnlyPure;
    BirthOf(c, regs, i);
    assert SameRegister(regs0, regs, c.insns[i].dest, i);
    if c0.insns[k].src1 != 0 { assert Reads(c0.decl, c0.insns[k], c0.insns[k].src1); }
  }

  lemma LoadBefore(g: Guest, membase: nat, c: Code, c': Code, i: int, load: Insn)
    requires 0 <= i < |c.insns| == |c'.insns| && c' == c.(insns := c.insns[i := c'.insns[i]])
    requires c'.insns[i].dest == c.insns[i].dest
    requires !c.insns[i].op.LOAD_IMM? && !c.insns[i].op.LOAD_ARG? && c.insns[i].dest != load.src1
    requires ExactLoad(g, membase, c', load)
    requires !(c'.insns[i].op.LOAD_ARG?)
    ensures ExactLoad(g, membase, c, load)
  {
    hide AllReadonly;
    forall k | 0 <= k < |c.insns| && c.insns[k].dest == membase != 0
      ensures c.insns[k].op.LOAD_ARG? && c.insns[k].other == g.argument && TypeOf(c.decl, membase).ADDRESS?
    {
      assert c'.insns[k].dest == membase;
    }
    forall m, r | LoadsImm(c, m, r) ensures LoadsImm(c', m, r) && ImmValue(c', m) == ImmValue(c, m) {}
    forall v | OffsetOf(c, membase, load.src1, v) ensures OffsetOf(c', membase, load.src1, v) {
      if !(load.src1 == membase && v == 0) {
        var k :| 0 <= k < |c.insns| && c.insns[k].dest == load.src1 && AddsToBase(c, membase, k, v);
        assert AddsToBase(c', membase, k, v);
      }
    }
  }

  lemma ExactBefore(c0: Code, c: Code, c': Code, i: int, k: int)
    requires 0 <= k < |c0.insns| && 0 <= i < |c.insns| == |c'.insns| && c' == c.(insns := c.insns[i := c'.insns[i]])
    requires !c.insns[i].op.LOAD_IMM? && ExactAt(c0, c', k)
    ensures ExactAt(c0, c, k)
  {
    forall m, r | LoadsImm(c, m, r) ensures LoadsImm(c', m, r) && ImmValue(c', m) == ImmValue(c, m) {}
  }

  lemma ExactOperands(c0: Code, c: Code, regs: seq<Reg>, i: int)
    requires ConstOK(c.decl, c.insns, regs) && SsaOK(c.insns, regs) && c.decl == c0.decl
    requires 0 <= i < |c0.insns| == |c.insns| && c.insns[i] == c0.insns[i] && ExactAt(c0, c, i)
    ensures ExactFold(c.decl, regs, c.insns[i])
  {
    forall r | IsConst(regs, r)
      ensures LoadsImm(c, regs[r].birth, r) && regs[r].value == ImmValue(c, regs[r].birth)
    {
      assert ConstReg(c.decl, c.insns, regs, r);
    }
  }

  lemma ConstIsLoaded(c: Code, regs: seq<Reg>, r: int)
    requires ConstOK(c.decl, c.insns, regs)
    ensures IsConst(regs, r) ==> exists m :: LoadsImm(c, m, r)
  {
    if IsConst(regs, r) { assert ConstReg(c.decl, c.insns, regs, r) && LoadsImm(c, regs[r].birth, r); }
  }

  lemma ScanReads(
    c0: Code, regs0: seq<Reg>, c: Code, regs: seq<Reg>, c': Code, i: int, foldConstants: bool, foldVectors: bool)
    requires Scanned(c0, regs0, c, regs, i, foldConstants, foldVectors) && 0 <= i < |c.insns|
    requires ConstOK(c.decl, c.insns, regs) && Retains(c0, c) && !c.insns[i].op.LOAD_IMM?
    requires |c'.insns| == |c.insns| && c' == c.(insns := c.insns[i := c'.insns[i]])
    requires KeepsReads(c.decl, regs, c.insns[i], c'.insns[i])
    ensures Retains(c0, c')
  {
    assert c.insns[i] == c0.insns[i];
    forall k, r | 0 <= k < |c0.insns| && Sturdy(c0.insns[k].op) && Reads(c0.decl, c0.insns[k], r) && (forall m ::
      !LoadsImm(c', m, r))
      ensures Reads(c0.decl, c'.insns[k], r)
    {
      forall m ensures !LoadsImm(c, m, r) { assert !LoadsImm(c', m, r); }
      if k == i { ConstIsLoaded(c, regs, r); }
    }
  }

  lemma PassFacts(
    c: Code, regs: seq<Reg>, edges: seq<Edges>, owner: seq<int>, order: seq<int>, lastBlock: int, k: int)
    requires FoldState(c, regs, edges, owner, order, lastBlock, {}, k)
    ensures Covers(c.decl, c.insns, regs) && SsaOK(c.insns, regs) && TypedOK(c.decl, c.insns, regs)
    ensures ConstOK(c.decl, c.insns, regs) && Clean(c.decl, c.insns)
    ensures forall m :: FoldState(c, regs, edges, owner, order, lastBlock, {}, m)
  {}

  lemma InsideOf(g: Guest, c: Code, regs: seq<Reg>, membase: nat, k: int)
    requires ConstOK(c.decl, c.insns, regs) && SsaOK(c.insns, regs) && 0 <= k < |c.insns|
    requires 0 < c.insns[k].src1 < |regs|
    requires regs[c.insns[k].src1].live && ExactLoad(g, membase, c, c.insns[k])
    requires BaseOffset(c, regs, membase, c.insns[k].src1).Some?
    ensures LoadInside(g, c, regs, membase, k)
  {
    hide AllReadonly, ConstOK;
    var b := c.insns[k].src1;
    var v := BaseOffset(c, regs, membase, b).value;
    forall r | IsConst(regs, r) ensures LoadsImm(c, regs[r].birth, r) && regs[r].value == ImmValue(c, regs[r].birth) {
      ConstIsLoadedAt(c, regs, r);
    }
    if b != membase { assert AddsToBase(c, membase, regs[b].birth, v); }
    assert OffsetOf(c, membase, b, v);
  }

  lemma ExplainLoad(c: Code, regs: seq<Reg>, membase: nat, readonly: iset<int>, k: int)
    requires ConstOK(c.decl, c.insns, regs) && SsaOK(c.insns, regs) && 0 <= k < |c.insns|
    requires 0 < c.insns[k].src1 < |regs|
    requires regs[c.insns[k].src1].live && LoadsReadonly(c, regs, membase, readonly, k)
    ensures LoadExplained(readonly, membase, c, c.insns[k])
  {
    hide ConstOK;
    var b := c.insns[k].src1;
    var v := BaseOffset(c, regs, membase, b).value;
    forall r | IsConst(regs, r) ensures LoadsImm(c, regs[r].birth, r) && regs[r].value == ImmValue(c, regs[r].birth) {
      ConstIsLoadedAt(c, regs, r);
    }
    if b != membase { assert AddsToBase(c, membase, regs[b].birth, v); }
    assert OffsetOf(c, membase, b, v);
  }

  lemma ConstIsLoadedAt(c: Code, regs: seq<Reg>, r: int)
    requires ConstOK(c.decl, c.insns, regs) && IsConst(regs, r)
    ensures LoadsImm(c, regs[r].birth, r) && regs[r].value == ImmValue(c, regs[r].birth)
  {
    assert ConstReg(c.decl, c.insns, regs, r);
  }

  /** The body of the scan's loop, for an instruction that sets a register of source MEMORY. */
  method FoldMemory(unit: RtlUnit, k: int, handle: ReadonlyMap.Handle, image: int -> nat, ghost g: Guest)
    requires FoldOK(unit, {}, k) && 0 <= k < |unit.insns| && unit.insns[k].op.LOAD?
    requires 0 < unit.insns[k].dest < |unit.regs|
    requires handle.Valid() && g.image == image && g.readonly == handle.contents
    modifies unit`insns, unit`regs
    ensures FoldOK(unit, {}, k) && OnlyAt(old(unit.Snap()), old(unit.regs), unit.Snap(), unit.regs, k)
    ensures || (unit.insns == old(unit.insns) && unit.regs == old(unit.regs)
                && !LoadLeft(unit.Snap(), unit.regs, unit.membaseReg, g.readonly, k))
            || (unit.insns[k].op.LOAD_IMM? && unit.regs[unit.insns[k].dest].source.CONSTANT?)
    ensures unit.insns[k].op.LOAD_IMM? ==> ReadsKnown(old(unit.Snap()), k, unit.insns[k])
    ensures unit.insns[k].op.LOAD_IMM? ==>
              LoadExplained(g.readonly, unit.membaseReg, old(unit.Snap()), old(unit.insns)[k])
    ensures ExactLoad(g, unit.membaseReg, old(unit.Snap()), old(unit.insns)[k]) ==>
              RefinesOn(g, old(unit.Snap()), unit.Snap())
    ensures Strict(old(unit.Snap())) ==> Strict(unit.Snap())
  {
    hide FoldState, RefinesOn, LoadInside, ReadsKnown, ExactLoad, Strict, SsaOK, Covers, ConstOK, LoadExplained,
      LoadsFrom, HoldsBytes;
    ghost var c, regs := unit.Snap(), unit.regs;
    OperandFacts(c, regs, unit.edges, unit.owner, unit.order, unit.lastBlock, k);
    RefinesSelf(c);
    RefinesAnywhere(g, c, c);
    FoldLoad(unit, k, handle, image, g);
    if LoadsReadonly(c, regs, unit.membaseReg, handle.contents, k) {
      assert Reads(c.decl, c.insns[k], c.insns[k].src1);
      if ExactLoad(g, unit.membaseReg, c, c.insns[k]) { InsideOf(g, c, regs, unit.membaseReg, k); }
      ExplainLoad(c, regs, unit.membaseReg, g.readonly, k);
      if Strict(c) { LoadKeepsStrict(c, regs, k, unit.insns[k]); }
    }
  }

  lemma LoadKeepsStrict(c: Code, regs: seq<Reg>, k: int, insn': Insn)
    requires Strict(c) && SsaOK(c.insns, regs) && 0 <= k < |c.insns| && c.insns[k].op.LOAD?
    requires CleanInsn(c.decl, c.insns[k])
    requires insn'.op.LOAD_IMM? && insn'.src1 == 0 && insn'.src2 == c.insns[k].src2 && insn'.dest == c.insns[k].dest
    ensures Strict(c.(insns := c.insns[k := insn']))
  {
    hide Strict, SsaOK;
    assert forall r :: !Reads(c.decl, insn', r);
    StrictKept(c, regs, k, insn', k);
  }

  lemma ScanLoad(
    c0: Code, regs0: seq<Reg>, c: Code, regs: seq<Reg>, c': Code, regs': seq<Reg>, i: int,
    foldConstants: bool, foldVectors: bool)
    requires Scanned(c0, regs0, c, regs, i, foldConstants, foldVectors) && OnlyAt(c, regs, c', regs', i)
    requires Covers(c.decl, c.insns, regs) && SsaOK(c.insns, regs) && TypedOK(c.decl, c.insns, regs)
    requires 0 <= i < |c.insns| && 0 < c.insns[i].dest < |regs| && regs[c.insns[i].dest].source.MEMORY?
    requires ReadsKnown(c, i, c'.insns[i])
    ensures Scanned(c0, regs0, c', regs', i + 1, foldConstants, foldVectors)
  {
    hide Finished, Covers, SsaOK, OnlyPure, ReadsKnown;
    forall j | 0 <= j < i && FromResult(c0, regs0, j) ensures Finished(c', regs', j, foldConstants, foldVectors) {
      FinishedKept(c, regs, c', regs', j, i, foldConstants, foldVectors);
    }
    BirthOf(c, regs, i);
    OnlyPureStep(c0, c, c', i);
    var next := i + 1;
    assert SameRegister(regs0, regs, c.insns[i].dest, i);
    forall r | 0 <= r < |regs'| ensures SameRegister(regs0, regs', r, next) {
      assert SameRegister(regs0, regs, r, i);
    }
  }

  lemma MemoryIsLoad(c: Code, regs: seq<Reg>, k: int)
    requires SsaOK(c.insns, regs) && TypedOK(c.decl, c.insns, regs) && 0 <= k < |c.insns|
    requires 0 < c.insns[k].dest < |regs| && regs[c.insns[k].dest].source.MEMORY?
    ensures c.insns[k].op.LOAD?
  {
    assert ResultReg(c.insns, regs, c.insns[k].dest);
  }

  /** Where the scan stands. */
  ghost predicate ScanState(
    unit: RtlUnit, g: Guest, c0: Code, regs0: seq<Reg>, i: int, foldConstants: bool, foldVectors: bool)
    reads unit
  {
    && 0 <= i <= |unit.insns| == |c0.insns| && FoldOK(unit, {}, i) && |unit.regs| == |regs0|
    && Covers(c0.decl, c0.insns, regs0)
    && Scanned(c0, regs0, unit.Snap(), unit.regs, i, foldConstants, foldVectors)
    && Retains(c0, unit.Snap()) && (!foldConstants ==> NoneLoaded(c0, unit.Snap()))
    && FoldsAs(c0, unit.Snap(), unit.regs) && LoadsExplained(g.readonly, unit.membaseReg, c0, unit.Snap())
    && RipeLate(c0, regs0, unit.Snap(), unit.regs, i, foldConstants, foldVectors)
    && (foldConstants ==> LoadsDone(unit.Snap(), unit.regs, unit.membaseReg, g.readonly, i))
    && (FoldingApplies(g, unit.membaseReg, c0, unit.Snap(), foldVectors) ==>
          RefinesOn(g, c0, unit.Snap()) && (foldVectors ==> Strict(unit.Snap())))
  }

  /** One step of the scan, at a register of source RESULT. */
  method ScanResult(
    unit: RtlUnit, i: int, foldConstants: bool, foldVectors: bool, undefined: int, ghost g: Guest, ghost c0: Code,
    ghost regs0: seq<Reg>)
    requires ScanState(unit, g, c0, regs0, i, foldConstants, foldVectors) && i < |unit.insns|
    requires FromResult(unit.Snap(), unit.regs, i)
    modifies unit`insns, unit`regs
    ensures ScanState(unit, g, c0, regs0, i + 1, foldConstants, foldVectors)
  {
    hide WellFormed, FoldState, RefinesOn, Refines, Strict, Scanned, Finished, Covers, SsaOK, TypedOK, ConstOK, Retains,
      Clean,
      KeepsReads, FoldedRight, FoldingApplies, ReadsKnown, ExactLoad, NoneLoaded, FoldsAs, LoadsExplained,
      LoadExplained, FoldedAs, Ripe, RipeLate, OnlyRegister, CopyFolded, LoadsDone, LoadLeft;
    ghost var c, regs := unit.Snap(), unit.regs;
    PassFacts(c, regs, unit.edges, unit.owner, unit.order, unit.lastBlock, i);
    ResultOfTyped(c, regs, i);
    SameAtScan(c0, regs0, c, regs, i, foldConstants, foldVectors);
    FoldRegister(unit, i, foldConstants, foldVectors, undefined);
    if Refines(c, unit.Snap()) { RefinesAnywhere(g, c, unit.Snap()); }
    ScanStep(c0, regs0, c, regs, unit.Snap(), unit.regs, i, foldConstants, foldVectors);
    ScanReads(c0, regs0, c, regs, unit.Snap(), i, foldConstants, foldVectors);
    FoldsAsStep(c0, regs0, c, regs, unit.Snap(), unit.regs, i, foldConstants, foldVectors);
    LoadsExplainedStep(g.readonly, unit.membaseReg, c0, regs0, c, regs, unit.Snap(), i, foldConstants, foldVectors);
    ScanInsn(g, unit.membaseReg, c0, regs0, c, regs, unit.Snap(), i, foldConstants, foldVectors);
    RipeStep(c0, regs0, c, regs, unit.Snap(), unit.regs, i, foldConstants, foldVectors);
    if foldConstants { ResultNoLoad(c, regs, unit.Snap(), unit.regs, i, unit.membaseReg, g.readonly, foldVectors); }
    if !foldConstants { NoneStillLoaded(c0, c, unit.Snap(), i); }
    PassFacts(unit.Snap(), unit.regs, unit.edges, unit.owner, unit.order, unit.lastBlock, i);
  }

  lemma ResultNoLoad(
    c: Code, regs: seq<Reg>, c': Code, regs': seq<Reg>, i: int, membase: nat, readonly: iset<int>, foldVectors: bool)
    requires Covers(c.decl, c.insns, regs) && SsaOK(c.insns, regs) && OnlyAt(c, regs, c', regs', i)
    requires Clean(c.decl, c.insns) && c.insns[i].dest != 0 && LoadsDone(c, regs, membase, readonly, i)
    requires Finished(c', regs', i, true, foldVectors)
    ensures LoadsDone(c', regs', membase, readonly, i + 1)
  {
    hide Covers, SsaOK, Clean, LoadsDone, LoadLeft, Settled, Forwarded;
    LoadsDoneStep(c, regs, c', regs', i, membase, readonly);
  }

  lemma NoneStillLoaded(c0: Code, c: Code, c': Code, i: int)
    requires NoneLoaded(c0, c) && |c'.insns| == |c.insns| && 0 <= i < |c.insns|
    requires c' == c.(insns := c.insns[i := c'.insns[i]])
    requires !c'.insns[i].op.LOAD_IMM?
    ensures NoneLoaded(c0, c')
  {}

  lemma SameAtScan(c0: Code, regs0: seq<Reg>, c: Code, regs: seq<Reg>, i: int, foldConstants: bool, foldVectors: bool)
    requires Scanned(c0, regs0, c, regs, i, foldConstants, foldVectors) && 0 <= i < |c.insns|
    ensures |c.insns| == |c0.insns| && c.insns[i] == c0.insns[i] && c.decl == c0.decl
  {
    hide Finished, OnlyPure;
  }

  /** One step of the scan, at a register of source MEMORY. */
  method ScanMemory(
    unit: RtlUnit, i: int, foldVectors: bool, handle: ReadonlyMap.Handle, image: int -> nat,
    ghost g: Guest, ghost c0: Code, ghost regs0: seq<Reg>)
    requires ScanState(unit, g, c0, regs0, i, true, foldVectors) && i < |unit.insns|
    requires 0 < unit.insns[i].dest < |unit.regs| && unit.regs[unit.insns[i].dest].source.MEMORY?
    requires handle.Valid() && g.image == image && g.readonly == handle.contents
    modifies unit`insns, unit`regs
    ensures ScanState(unit, g, c0, regs0, i + 1, true, foldVectors)
  {
    hide WellFormed, FoldState, RefinesOn, Strict, Scanned, Finished, Covers, SsaOK, TypedOK, ConstOK, Retains, Clean,
      KeepsReads, FoldedRight, FoldingApplies, ReadsKnown, ExactLoad, NoneLoaded, ResultOp, FoldsAs, LoadsExplained,
      LoadExplained, FoldedAs, Ripe, RipeLate, OnlyRegister, LoadsDone, LoadLeft;
    ghost var c, regs := unit.Snap(), unit.regs;
    PassFacts(c, regs, unit.edges, unit.owner, unit.order, unit.lastBlock, i);
    MemoryIsLoad(c, regs, i);
    SameAtScan(c0, regs0, c, regs, i, true, foldVectors);
    FoldMemory(unit, i, handle, image, g);
    LoadNotRipe(c0, regs0, c, regs, unit.Snap(), unit.regs, i, foldVectors);
    LoadsDoneStep(c, regs, unit.Snap(), unit.regs, i, unit.membaseReg, g.readonly);
    if unit.insns[i].op.LOAD_IMM? {
      ScanLoad(c0, regs0, c, regs, unit.Snap(), unit.regs, i, true, foldVectors);
      NotSturdy(c.decl, regs, c.insns[i], unit.insns[i]);
      ScanReads(c0, regs0, c, regs, unit.Snap(), i, true, foldVectors);
      LoadIsNoResult(c.insns[i].op);
      FoldsAsStep(c0, regs0, c, regs, unit.Snap(), unit.regs, i, true, foldVectors);
      LoadsExplainedStep(g.readonly, unit.membaseReg, c0, regs0, c, regs, unit.Snap(), i, true, foldVectors);
      ScanInsn(g, unit.membaseReg, c0, regs0, c, regs, unit.Snap(), i, true, foldVectors);
    } else {
      MemoryIsNoResult(c, regs, i);
      ScanSkip(c0, regs0, c, regs, i, true, foldVectors);
    }
    PassFacts(unit.Snap(), unit.regs, unit.edges, unit.owner, unit.order, unit.lastBlock, i);
  }

  lemma LoadNotRipe(
    c0: Code, regs0: seq<Reg>, c: Code, regs: seq<Reg>, c': Code, regs': seq<Reg>, i: int, foldVectors: bool)
    requires Scanned(c0, regs0, c, regs, i, true, foldVectors) && RipeLate(c0, regs0, c, regs, i, true, foldVectors)
    requires Covers(c.decl, c.insns, regs) && SsaOK(c.insns, regs) && TypedOK(c.decl, c.insns, regs)
    requires OnlyAt(c, regs, c', regs', i) && c.insns[i].op.LOAD? && 0 < c.insns[i].dest < |regs|
    requires (c'.insns == c.insns && regs' == regs) || c'.insns[i].op.LOAD_IMM?
    ensures RipeLate(c0, regs0, c', regs', i + 1, true, foldVectors)
  {
    hide Covers, SsaOK, TypedOK, RipeLate, UnusedBetween;
    SameAtScan(c0, regs0, c, regs, i, true, foldVectors);
    hide Scanned;
    RipeStep(c0, regs0, c, regs, c', regs', i, true, foldVectors);
  }

  lemma NotSturdy(d: Decl, regs: seq<Reg>, insn: Insn, insn': Insn)
    requires insn.op.LOAD?
    ensures KeepsReads(d, regs, insn, insn')
  {}

  lemma LoadIsNoResult(op: Opcode)
    requires op.LOAD?
    ensures !ResultOp(op)
  {}

  lemma MemoryIsNoResult(c: Code, regs: seq<Reg>, i: int)
    requires 0 <= i < |c.insns| && 0 < c.insns[i].dest < |regs| && regs[c.insns[i].dest].source.MEMORY?
    ensures !FromResult(c, regs, i)
  {}

  /** rtl_opt_fold_registers. */
  method FoldRegisters(
    unit: RtlUnit, foldConstants: bool, foldVectors: bool, undefined: int, handle: ReadonlyMap.Handle,
    image: int -> nat,
    ghost g: Guest)
    requires UnitOK(unit) && TypedOK(unit.decl, unit.insns, unit.regs)
    requires handle.Valid() && g.image == image && g.readonly == handle.contents
    modifies unit`insns, unit`regs
    ensures UnitOK(unit) && TypedOK(unit.decl, unit.insns, unit.regs)
    ensures Scanned(old(unit.Snap()), old(unit.regs), unit.Snap(), unit.regs, |unit.insns|, foldConstants, foldVectors)
    ensures |unit.regs| == |old(unit.regs)|
    ensures Retains(old(unit.Snap()), unit.Snap()) && (!foldConstants ==> NoneLoaded(old(unit.Snap()), unit.Snap()))
    ensures FoldsAs(old(unit.Snap()), unit.Snap(), unit.regs)
    ensures LoadsExplained(g.readonly, unit.membaseReg, old(unit.Snap()), unit.Snap())
    ensures RipeLate(old(unit.Snap()), old(unit.regs), unit.Snap(), unit.regs, |unit.insns|, foldConstants, foldVectors)
    ensures foldConstants ==> LoadsDone(unit.Snap(), unit.regs, unit.membaseReg, g.readonly, |unit.insns|)
    ensures FoldingApplies(g, unit.membaseReg, old(unit.Snap()), unit.Snap(), foldVectors) ==>
              RefinesOn(g, old(unit.Snap()), unit.Snap())
  {
    hide WellFormed, FoldState, RefinesOn, Strict, Scanned, Covers, SsaOK, TypedOK, ConstOK, Retains, FoldingApplies,
      NoneLoaded, FoldsAs, LoadsExplained, RipeLate, LoadsDone, Clean;
    ghost var c0, regs0 := unit.Snap(), unit.regs;
    RefinesSelf(c0);
    RefinesAnywhere(g, c0, c0);
    ScanStart(g, c0, regs0, unit.edges, unit.owner, unit.order, unit.lastBlock, unit.membaseReg, foldConstants,
              foldVectors);
    var i := 0;
    while i < |unit.insns|
      invariant ScanState(unit, g, c0, regs0, i, foldConstants, foldVectors)
    {
      ghost var c, regs := unit.Snap(), unit.regs;
      PassFacts(c, regs, unit.edges, unit.owner, unit.order, unit.lastBlock, i);
      var r := unit.insns[i].dest;
      if r != 0 {
        BirthOf(c, regs, i);
      }
      if r != 0 && unit.regs[r].source.RESULT? {
        ScanResult(unit, i, foldConstants, foldVectors, undefined, g, c0, regs0);
      } else if r != 0 && foldConstants && unit.regs[r].source.MEMORY? {
        ScanMemory(unit, i, foldVectors, handle, image, g, c0, regs0);
      } else {
        ScanSkip(c0, regs0, c, regs, i, foldConstants, foldVectors);
        SkipNotRipe(c0, regs0, c, regs, i, foldConstants, foldVectors);
        if foldConstants { SkipNoLoad(c, regs, i, unit.membaseReg, g.readonly); }
      }
      i := i + 1;
    }
    ScanDone(unit.Snap(), unit.regs, unit.edges, unit.owner, unit.order, unit.lastBlock, i);
  }

  lemma SkipNoLoad(c: Code, regs: seq<Reg>, i: int, membase: nat, readonly: iset<int>)
    requires LoadsDone(c, regs, membase, readonly, i) && 0 <= i < |c.insns| && !FromMemory(c, regs, i)
    ensures LoadsDone(c, regs, membase, readonly, i + 1)
  {
    hide LoadLeft;
  }

  lemma SkipNotRipe(
    c0: Code, regs0: seq<Reg>, c: Code, regs: seq<Reg>, i: int, foldConstants: bool, foldVectors: bool)
    requires Scanned(c0, regs0, c, regs, i, foldConstants, foldVectors) && 0 <= i < |c.insns|
    requires RipeLate(c0, regs0, c, regs, i, foldConstants, foldVectors) && !FromResult(c, regs, i)
    requires SsaOK(c.insns, regs)
    ensures RipeLate(c0, regs0, c, regs, i + 1, foldConstants, foldVectors)
  {
    hide Ripe, OnlyPure, Finished;
    var next := i + 1;
    assert c.insns[i].dest != 0 ==> SameRegister(regs0, regs, c.insns[i].dest, i);
    forall j | 0 <= j < next && FromResult(c0, regs0, j) && Ripe(c, regs, j, foldConstants, foldVectors)
      ensures exists m :: ChangedAt(c0, c, j, m, next)
    {
      var m :| ChangedAt(c0, c, j, m, i);
      assert ChangedAt(c0, c, j, m, next);
    }
  }

  lemma ScanStart(
    g: Guest, c: Code, regs: seq<Reg>, edges: seq<Edges>, owner: seq<int>, order: seq<int>, lastBlock: int,
    membase: nat,
    foldConstants: bool, foldVectors: bool)
    requires WellFormed(c, regs, edges, owner, order, lastBlock, {}) && TypedOK(c.decl, c.insns, regs)
    ensures FoldState(c, regs, edges, owner, order, lastBlock, {}, 0)
    ensures Scanned(c, regs, c, regs, 0, foldConstants, foldVectors) && Retains(c, c) && NoneLoaded(c, c)
    ensures FoldsAs(c, c, regs) && forall readonly :: LoadsExplained(readonly, membase, c, c)
    ensures FoldingApplies(g, membase, c, c, foldVectors) ==> (foldVectors ==> Strict(c))
    ensures Covers(c.decl, c.insns, regs) && RipeLate(c, regs, c, regs, 0, foldConstants, foldVectors)
    ensures forall readonly :: LoadsDone(c, regs, membase, readonly, 0)
  {}

  lemma ScanDone(
    c: Code, regs: seq<Reg>, edges: seq<Edges>, owner: seq<int>, order: seq<int>, lastBlock: int, k: int)
    requires FoldState(c, regs, edges, owner, order, lastBlock, {}, k)
    ensures WellFormed(c, regs, edges, owner, order, lastBlock, {}) && TypedOK(c.decl, c.insns, regs)
  {}
}
