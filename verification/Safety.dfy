/** Conditions a caller of rtl_optimize_unit can check, on the unit it passes in and on the code it gets back, under
    which the optimization has preserved the meaning of the unit. */
module Safety {
  import opened Rtl
  import Arith
  import Folding
  import opened Liveness
  import opened Semantics
  import opened Flow
  import opened BlockEdges
  import opened Kill
  import opened Invariant
  import opened Paths
  import opened FoldConstants
  import opened FoldPass
  import opened FoldScan
  import opened FoldLoads
  import opened Decondition
  import opened AliasLiveness
  import opened AliasFlow
  import opened Effects
  import opened Traces

  // ---- What folding can know of a register ----

  /** The register holds something that folding does not know; it holds this value if folding knows any; or neither. */
  datatype Knowledge = Varying | Constant(n: nat) | Unclear

  /** What folding can know of register r, from the instructions before n. */
  ghost function KnowledgeOf(g: Guest, membase: nat, c: Code, n: nat, r: nat): Knowledge
    requires n <= |c.insns|
    decreases n, 0
  {
    if n == 0 || r == 0 then Unclear
    else if c.insns[n - 1].dest == r then KnowledgeAt(g, membase, c, n - 1)
    else KnowledgeOf(g, membase, c, n - 1, r)
  }

  /** What folding can know of the register that instruction k sets. */
  ghost function KnowledgeAt(g: Guest, membase: nat, c: Code, k: nat): Knowledge
    requires k < |c.insns|
    decreases k, 3
  {
    var insn := c.insns[k];
    if insn.op.LOAD_IMM? then Constant(ImmValue(c, k))
    else if insn.op.LOAD? then if MayLoad(g, membase, c, k) then Unclear else Varying
    else if Foldable(insn.op) then
      Combined(c.decl, insn, KnowledgeOf(g, membase, c, k, insn.src1),
               if insn.src2 == 0 then Constant(0) else KnowledgeOf(g, membase, c, k, insn.src2))
    else if Sturdy(insn.op) then Varying
    else Unclear
  }

  function Combined(d: Decl, insn: Insn, x: Knowledge, y: Knowledge): Knowledge {
    if x.Varying? || y.Varying? then Varying
    else if x.Constant? && y.Constant? && FoldValues(d, insn, x.n, y.n).Some? then
      var t := TypeOf(d, insn.dest);
      Constant(Arith.U(StoredWidth(t), StoredConstant(t, FoldValues(d, insn, x.n, y.n).value)))
    else Unclear
  }

  /** Folding may replace the load at k, because the first byte of an address it may take it to read is read-only. */
  ghost predicate MayLoad(g: Guest, membase: nat, c: Code, k: nat)
    requires k < |c.insns|
    decreases k, 2
  {
    exists v :: MayDiffer(g, membase, c, k, c.insns[k].src1, v) && GuestAddress(v, c.insns[k].other) in g.readonly
  }

  /** Folding may take register b to differ from the guest memory base by v, from the instructions before n. */
  ghost predicate MayDiffer(g: Guest, membase: nat, c: Code, n: nat, b: nat, v: int)
    requires n <= |c.insns|
    decreases n, 1
  {
    (b == membase && v == 0) || exists i: nat :: i < n && c.insns[i].dest == b && MayAdd(g, membase, c, i, v)
  }

  ghost predicate MayAdd(g: Guest, membase: nat, c: Code, i: nat, v: int)
    requires i < |c.insns|
    decreases i, 1
  {
    var insn := c.insns[i];
    || (insn.op == ALUI(ADDI) && insn.src1 == membase && v == insn.other)
    || (insn.op.ALU2? && insn.src1 == membase
         && MayBeAdded(c.decl, insn, true, KnowledgeOf(g, membase, c, i, insn.src2), v))
    || (insn.op.ALU2? && insn.src2 == membase
         && MayBeAdded(c.decl, insn, false, KnowledgeOf(g, membase, c, i, insn.src1), v))
  }

  /** An operation on the guest memory base and something else may come to add v to the base. */
  predicate MayBeAdded(d: Decl, insn: Insn, constantIsSrc2: bool, other: Knowledge, v: int)
    requires insn.op.ALU2?
  {
    match other
    case Varying => false
    case Unclear => true
    case Constant(x) =>
      || (insn.op.f2.ADD? && v == x)
      || (var r := Folding.ConvertToRegImm(
            insn.op.f2, TypeOf(d, if constantIsSrc2 then insn.src2 else insn.src1).INT32?, TypeOf(d, insn.dest).INT32?,
                x, constantIsSrc2);
          r.Some? && r.value.fi.ADDI? && v == r.value.imm)
  }

  // ---- It does not know more ----

  /** What is used of one scan: constants come from constants. */
  ghost predicate Scan(g: Guest, membase: nat, c0: Code, regs0: seq<Reg>, c: Code, regs: seq<Reg>) {
    && StandsWith(c0, regs0) && c.decl == c0.decl && |c.insns| == |c0.insns| && SameDests(c0, c) && OnlyPure(c0, c)
    && ConstOK(c.decl, c.insns, regs) && FoldsAs(c0, c, regs) && LoadsExplained(g.readonly, membase, c0, c)
  }

  lemma {:induction false} KnowledgeAtSetter(g: Guest, membase: nat, c: Code, regs: seq<Reg>, n: nat, i: nat)
    requires SsaOK(c.insns, regs) && i < n <= |c.insns| && c.insns[i].dest != 0
    ensures KnowledgeOf(g, membase, c, n, c.insns[i].dest) == KnowledgeAt(g, membase, c, i)
    decreases n
  {
    hide KnowledgeAt;
    if n - 1 != i {
      assert c.insns[n - 1].dest != c.insns[i].dest;
      KnowledgeAtSetter(g, membase, c, regs, n - 1, i);
    }
  }

  /** Where an operand is set. */
  lemma OperandSet(c0: Code, regs0: seq<Reg>, c: Code, j: int, k: int, r: nat)
    requires SsaOK(c0.insns, regs0) && Covers(c0.decl, c0.insns, regs0) && SameDests(c0, c)
    requires 0 <= k < |c0.insns| && 0 <= j < |c.insns| && r != 0 && c.insns[j].dest == r
    requires Reads(c0.decl, c0.insns[k], r)
    ensures j < k && c0.insns[j].dest == r
  {}

  lemma ConstantSetter(c: Code, regs: seq<Reg>, r: nat)
    requires ConstOK(c.decl, c.insns, regs) && IsConst(regs, r)
    ensures LoadsImm(c, regs[r].birth, r) && regs[r].value == ImmValue(c, regs[r].birth)
  {
    ConstIsLoadedAt(c, regs, r);
  }

  /** A constant operand of instruction k is known to be constant, and so is its value. */
  lemma {:induction false} OperandKnown(
    g: Guest, membase: nat, c0: Code, regs0: seq<Reg>, c: Code, regs: seq<Reg>, k: nat, j: int, r: nat)
    requires Scan(g, membase, c0, regs0, c, regs) && k < |c0.insns| && r != 0 && Reads(c0.decl, c0.insns[k], r)
    requires LoadsImm(c, j, r)
    ensures Agrees(KnowledgeOf(g, membase, c0, k, r), ImmValue(c, j))
    decreases k, 0
  {
    hide KnowledgeOf, KnowledgeAt, SsaOK, Covers, ConstOK, FoldsAs, LoadsExplained, OnlyPure, Reads;
    OperandSet(c0, regs0, c, j, k, r);
    KnowledgeSound(g, membase, c0, regs0, c, regs, j);
    KnowledgeAtSetter(g, membase, c0, regs0, k, j);
  }

  /** What was known is not wrong: it is constant, and if its value was known this is it. */
  predicate Agrees(known: Knowledge, n: nat) { !known.Varying? && (known.Constant? ==> known.n == n) }

  /** A register that folding makes a constant was not varying, and its value is the one known. */
  lemma {:induction false} KnowledgeSound(
    g: Guest, membase: nat, c0: Code, regs0: seq<Reg>, c: Code, regs: seq<Reg>, i: nat)
    requires Scan(g, membase, c0, regs0, c, regs) && i < |c0.insns| && c.insns[i].op.LOAD_IMM?
    ensures Agrees(KnowledgeAt(g, membase, c0, i), ImmValue(c, i))
    decreases i, 2
  {
    hide KnowledgeOf, KnowledgeAt, SsaOK, Covers, ConstOK, FoldsAs, LoadsExplained, OnlyPure, MayLoad, Sturdy, ImmValue;
    var insn := c0.insns[i];
    if insn.op.LOAD_IMM? {
      NotReplaced(c0, c, i);
      KnownImm(g, membase, c0, i);
      assert ImmValue(c, i) == ImmValue(c0, i) by { SameImm(c0, c, i); }
    } else if insn.op.LOAD? {
      LoadKnown(g, membase, c0, regs0, c, regs, i);
      KnownLoad(g, membase, c0, i);
    } else {
      Replaced(c0, c, regs, i);
      if Foldable(insn.op) {
        FoldKnown(g, membase, c0, regs0, c, regs, i);
      } else {
        KnownUnclear(g, membase, c0, i);
      }
    }
  }

  lemma SameImm(c0: Code, c: Code, i: nat)
    requires i < |c0.insns| && i < |c.insns| && c.insns[i] == c0.insns[i] && c.decl == c0.decl
    ensures ImmValue(c, i) == ImmValue(c0, i)
  {}

  lemma KnownImm(g: Guest, membase: nat, c: Code, k: nat)
    requires k < |c.insns| && c.insns[k].op.LOAD_IMM?
    ensures KnowledgeAt(g, membase, c, k) == Constant(ImmValue(c, k))
  {
    hide KnowledgeOf, MayLoad, Combined, ImmValue;
  }

  lemma KnownLoad(g: Guest, membase: nat, c: Code, k: nat)
    requires k < |c.insns| && c.insns[k].op.LOAD?
    ensures KnowledgeAt(g, membase, c, k) == if MayLoad(g, membase, c, k) then Unclear else Varying
  {
    hide KnowledgeOf, MayLoad, Combined, ImmValue;
  }

  lemma KnownUnclear(g: Guest, membase: nat, c: Code, k: nat)
    requires k < |c.insns| && !c.insns[k].op.LOAD? && !c.insns[k].op.LOAD_IMM? && !Sturdy(c.insns[k].op)
    requires !Foldable(c.insns[k].op)
    ensures KnowledgeAt(g, membase, c, k) == Unclear
  {
    hide KnowledgeOf, MayLoad, Combined, ImmValue, Sturdy;
  }

  lemma KnownFold(g: Guest, membase: nat, c: Code, k: nat)
    requires k < |c.insns| && Foldable(c.insns[k].op)
    ensures KnowledgeAt(g, membase, c, k) ==
      Combined(c.decl, c.insns[k], KnowledgeOf(g, membase, c, k, c.insns[k].src1),
               if c.insns[k].src2 == 0 then Constant(0) else KnowledgeOf(g, membase, c, k, c.insns[k].src2))
  {
    hide KnowledgeOf, MayLoad, Combined, ImmValue;
  }

  lemma NotReplaced(c0: Code, c: Code, i: nat)
    requires OnlyPure(c0, c) && i < |c0.insns| && !ResultOp(c0.insns[i].op) && !c0.insns[i].op.LOAD?
    ensures c.insns[i] == c0.insns[i]
  {}

  /** An operation on registers that has become a constant. */
  lemma Replaced(c0: Code, c: Code, regs: seq<Reg>, i: nat)
    requires OnlyPure(c0, c) && FoldsAs(c0, c, regs) && i < |c0.insns| && !c0.insns[i].op.LOAD?
    requires !c0.insns[i].op.LOAD_IMM?
    requires c.insns[i].op.LOAD_IMM?
    ensures ResultOp(c0.insns[i].op)
    ensures Foldable(c0.insns[i].op) ==> FoldedWhole(c0.decl, regs, c0.insns[i], c.insns[i])
    ensures !Foldable(c0.insns[i].op) ==> !Sturdy(c0.insns[i].op)
  {
    hide FoldedWhole, Conversion;
    assert FoldedAs(c0.decl, regs, c0.insns[i], c.insns[i]);
  }

  lemma {:induction false} FoldKnown(g: Guest, membase: nat, c0: Code, regs0: seq<Reg>, c: Code, regs: seq<Reg>, i: nat)
    requires Scan(g, membase, c0, regs0, c, regs) && i < |c0.insns| && c.insns[i].op.LOAD_IMM?
    requires Foldable(c0.insns[i].op) && FoldedWhole(c0.decl, regs, c0.insns[i], c.insns[i])
    ensures Agrees(KnowledgeAt(g, membase, c0, i), ImmValue(c, i))
    decreases i, 1
  {
    hide KnowledgeOf, KnowledgeAt, SsaOK, Covers, ConstOK, FoldsAs, LoadsExplained, OnlyPure, ImmValue, FoldValues,
      StoredConstant, SameDests;
    var insn := c0.insns[i];
    KnownFold(g, membase, c0, i);
    ReadsSources(c0.decl, insn);
    ConstantSetter(c, regs, insn.src1);
    OperandKnown(g, membase, c0, regs0, c, regs, i, regs[insn.src1].birth, insn.src1);
    if insn.src2 != 0 {
      ConstantSetter(c, regs, insn.src2);
      OperandKnown(g, membase, c0, regs0, c, regs, i, regs[insn.src2].birth, insn.src2);
    }
    assert ImmValue(c, i) == Arith.U(StoredWidth(TypeOf(c.decl, insn.dest)), c.insns[i].other) by { ImmOf(c, i); }
  }

  lemma ImmOf(c: Code, i: nat)
    requires i < |c.insns|
    ensures ImmValue(c, i) == Arith.U(StoredWidth(TypeOf(c.decl, c.insns[i].dest)), c.insns[i].other)
  {}

  lemma ReadsSources(d: Decl, insn: Insn)
    requires !insn.op.LABEL?
    ensures insn.src1 != 0 ==> Reads(d, insn, insn.src1)
    ensures insn.src2 != 0 ==> Reads(d, insn, insn.src2)
  {}

  /** A load that folding replaced may have been replaced. */
  lemma {:induction false} LoadKnown(g: Guest, membase: nat, c0: Code, regs0: seq<Reg>, c: Code, regs: seq<Reg>, k: nat)
    requires Scan(g, membase, c0, regs0, c, regs) && k < |c0.insns| && c0.insns[k].op.LOAD? && c.insns[k].op.LOAD_IMM?
    ensures MayLoad(g, membase, c0, k)
    decreases k, 1
  {
    hide KnowledgeOf, KnowledgeAt, SsaOK, Covers, ConstOK, FoldsAs, OnlyPure, MayDiffer, OffsetOf, SameDests;
    var load := c0.insns[k];
    assert LoadExplained(g.readonly, membase, c, load);
    hide LoadsExplained;
    var v :| OffsetOf(c, membase, load.src1, v) && GuestAddress(v, load.other) in g.readonly;
    DifferenceKnown(g, membase, c0, regs0, c, regs, k, v);
  }

  lemma {:induction false} DifferenceKnown(
    g: Guest, membase: nat, c0: Code, regs0: seq<Reg>, c: Code, regs: seq<Reg>, k: nat, v: int)
    requires Scan(g, membase, c0, regs0, c, regs) && k < |c0.insns| && c0.insns[k].op.LOAD?
    requires OffsetOf(c, membase, c0.insns[k].src1, v)
    ensures MayDiffer(g, membase, c0, k, c0.insns[k].src1, v)
    decreases k, 0
  {
    hide KnowledgeOf, KnowledgeAt, SsaOK, Covers, ConstOK, FoldsAs, LoadsExplained, OnlyPure, SameDests, AddsToBase,
      MayAdd;
    var b := c0.insns[k].src1;
    if !(b == membase && v == 0) {
      var i: nat :| i < |c.insns| && c.insns[i].dest == b && AddsToBase(c, membase, i, v);
      LoadBase(c0, regs0, k);
      OperandSet(c0, regs0, c, i, k, b);
      AdditionKnown(g, membase, c0, regs0, c, regs, i, v);
    }
  }

  lemma LoadBase(c: Code, regs: seq<Reg>, k: nat)
    requires StandsWith(c, regs) && k < |c.insns| && c.insns[k].op.LOAD?
    ensures c.insns[k].src1 != 0 && Reads(c.decl, c.insns[k], c.insns[k].src1)
  {
    assert CleanInsn(c.decl, c.insns[k]);
  }

  /** An addition to the guest memory base was one before folding, or an operation with one constant operand. */
  lemma {:induction false} AdditionKnown(
    g: Guest, membase: nat, c0: Code, regs0: seq<Reg>, c: Code, regs: seq<Reg>, i: nat, v: int)
    requires Scan(g, membase, c0, regs0, c, regs) && i < |c0.insns| && AddsToBase(c, membase, i, v)
    ensures MayAdd(g, membase, c0, i, v)
    decreases i, 2
  {
    hide KnowledgeOf, KnowledgeAt, SsaOK, Covers, ConstOK, FoldsAs, LoadsExplained, OnlyPure, SameDests, FoldedHalf,
      Conversion, ImmValue;
    var insn, def := c0.insns[i], c.insns[i];
    AdditionFrom(g, membase, c0, c, regs, i);
    if def == insn {
      ReadsSources(c0.decl, insn);
      if insn.op == ALU2(ADD) { SumKnown(g, membase, c0, regs0, c, regs, i, v); }
    } else {
      var constantIsSrc2 :| FoldedHalf(c0.decl, regs, insn, def, constantIsSrc2);
      HalfKnown(g, membase, c0, regs0, c, regs, i, constantIsSrc2, v);
    }
  }

  lemma AdditionFrom(g: Guest, membase: nat, c0: Code, c: Code, regs: seq<Reg>, i: nat)
    requires OnlyPure(c0, c) && FoldsAs(c0, c, regs) && i < |c0.insns| && SameDests(c0, c)
    requires c.insns[i].op == ALUI(ADDI) || c.insns[i].op == ALU2(ADD)
    requires LoadsExplained(g.readonly, membase, c0, c)
    ensures c.insns[i] == c0.insns[i] ||
            (c.insns[i].op.ALUI? && exists constantIsSrc2 ::
                FoldedHalf(c0.decl, regs, c0.insns[i], c.insns[i], constantIsSrc2))
  {
    hide Conversion;
    if c.insns[i] != c0.insns[i] { assert FoldedAs(c0.decl, regs, c0.insns[i], c.insns[i]); }
  }

  lemma {:induction false} SumKnown(
    g: Guest, membase: nat, c0: Code, regs0: seq<Reg>, c: Code, regs: seq<Reg>, i: nat, v: int)
    requires Scan(g, membase, c0, regs0, c, regs) && i < |c0.insns| && AddsToBase(c, membase, i, v)
    requires c.insns[i] == c0.insns[i] && c0.insns[i].op == ALU2(ADD)
    ensures MayAdd(g, membase, c0, i, v)
    decreases i, 1
  {
    hide KnowledgeOf, KnowledgeAt, Scan, ImmValue;
    var insn := c0.insns[i];
    ReadsSources(c0.decl, insn);
    if insn.src1 == membase && (exists j :: LoadsImm(c, j, insn.src2) && v == ImmValue(c, j)) {
      var j: nat :| LoadsImm(c, j, insn.src2) && v == ImmValue(c, j);
      if insn.src2 != 0 {
        OperandKnown(g, membase, c0, regs0, c, regs, i, j, insn.src2);
      } else {
        ZeroUnclear(g, membase, c0, i);
      }
    } else {
      var j: nat :| LoadsImm(c, j, insn.src1) && v == ImmValue(c, j);
      if insn.src1 != 0 {
        OperandKnown(g, membase, c0, regs0, c, regs, i, j, insn.src1);
      } else {
        ZeroUnclear(g, membase, c0, i);
      }
    }
  }

  lemma ZeroUnclear(g: Guest, membase: nat, c: Code, n: nat)
    requires n <= |c.insns|
    ensures KnowledgeOf(g, membase, c, n, 0) == Unclear
  {}

  lemma {:induction false} HalfKnown(
    g: Guest, membase: nat, c0: Code, regs0: seq<Reg>, c: Code, regs: seq<Reg>, i: nat, constantIsSrc2: bool, v: int)
    requires Scan(g, membase, c0, regs0, c, regs) && i < |c0.insns|
    requires c.insns[i].op == ALUI(ADDI) && c.insns[i].src1 == membase && c.insns[i].other == v
    requires FoldedHalf(c0.decl, regs, c0.insns[i], c.insns[i], constantIsSrc2)
    ensures MayAdd(g, membase, c0, i, v)
    decreases i, 1
  {
    hide KnowledgeOf, KnowledgeAt, ImmValue, Folding.ConvertToRegImm, Covers, SsaOK, ConstOK, FoldsAs, LoadsExplained,
      OnlyPure, SameDests;
    var insn := c0.insns[i];
    var r := if constantIsSrc2 then insn.src2 else insn.src1;
    ReadsSources(c0.decl, insn);
    ConstantSetter(c, regs, r);
    OperandKnown(g, membase, c0, regs0, c, regs, i, regs[r].birth, r);
  }

  // ---- What is folded is folded exactly ----

  /** Folding has the operands of the wide multiplication at k right. */
  ghost predicate KnownProduct(g: Guest, membase: nat, c: Code, k: nat)
    requires k < |c.insns|
  {
    var x, y := KnowledgeOf(g, membase, c, k, c.insns[k].src1), KnowledgeOf(g, membase, c, k, c.insns[k].src2);
    x.Constant? && y.Constant? && Folding.MidSum(x.n, y.n) < Arith.Pow2(64)
  }

  /** Wherever folding may take the load at k to go, all bytes are read-only. */
  ghost predicate LoadSafe(g: Guest, membase: nat, c: Code, k: nat)
    requires k < |c.insns|
  {
    var load := c.insns[k];
    && BaseLoaded(c, membase, g)
    && forall v :: MayDiffer(g, membase, c, k, load.src1, v) ==>
         AllReadonly(g, RunAddress(v, load.other), LoadSize(TypeOf(c.decl, load.dest)))
  }

  /** Instruction k is not folded, or it is folded exactly. */
  ghost predicate FoldSafeAt(g: Guest, membase: nat, c: Code, k: nat)
    requires k < |c.insns|
  {
    KnowledgeAt(g, membase, c, k).Varying? ||
    (&& NarrowField(c.decl, c.insns[k]) && (WideMulhu(c.decl, c.insns[k]) ==> KnownProduct(g, membase, c, k))
     && (c.insns[k].op.LOAD? ==> LoadSafe(g, membase, c, k)))
  }

  ghost predicate FoldSafe(g: Guest, membase: nat, c: Code) {
    forall k: nat :: k < |c.insns| && Replaceable(c.insns[k].op) ==> FoldSafeAt(g, membase, c, k)
  }

  lemma FoldSafeExact(g: Guest, membase: nat, c0: Code, regs0: seq<Reg>, c: Code, regs: seq<Reg>)
    requires Scan(g, membase, c0, regs0, c, regs) && FoldSafe(g, membase, c0)
    ensures FoldedExactly(g, membase, c0, c)
  {
    hide KnowledgeOf, KnowledgeAt, Scan, ExactAt, ExactLoad, FoldSafeAt;
    ScanSizes(g, membase, c0, regs0, c, regs);
    forall k: nat | k < |c0.insns| && c.insns[k].op.LOAD_IMM? && !c0.insns[k].op.LOAD_IMM?
      ensures ExactAt(c0, c, k) && (c0.insns[k].op.LOAD? ==> ExactLoad(g, membase, c, c0.insns[k]))
    {
      ScanReplaces(g, membase, c0, regs0, c, regs, k);
      KnowledgeSound(g, membase, c0, regs0, c, regs, k);
      ExactOperation(g, membase, c0, regs0, c, regs, k);
      if c0.insns[k].op.LOAD? { ExactLoading(g, membase, c0, regs0, c, regs, k); }
    }
  }

  lemma ScanSizes(g: Guest, membase: nat, c0: Code, regs0: seq<Reg>, c: Code, regs: seq<Reg>)
    requires Scan(g, membase, c0, regs0, c, regs)
    ensures |c.insns| == |c0.insns| && c.decl == c0.decl
  {}

  lemma ScanReplaces(g: Guest, membase: nat, c0: Code, regs0: seq<Reg>, c: Code, regs: seq<Reg>, k: nat)
    requires Scan(g, membase, c0, regs0, c, regs) && k < |c0.insns| && c.insns[k] != c0.insns[k]
    ensures Replaceable(c0.insns[k].op)
  {}

  lemma ExactOperation(g: Guest, membase: nat, c0: Code, regs0: seq<Reg>, c: Code, regs: seq<Reg>, k: nat)
    requires Scan(g, membase, c0, regs0, c, regs) && k < |c0.insns| && FoldSafeAt(g, membase, c0, k)
    requires !KnowledgeAt(g, membase, c0, k).Varying?
    ensures ExactAt(c0, c, k)
  {
    hide KnowledgeOf, KnowledgeAt, Scan, ImmValue, Folding.MidSum;
    ScanSizes(g, membase, c0, regs0, c, regs);
    var insn := c0.insns[k];
    if WideMulhu(c0.decl, insn) {
      ReadsSources(c0.decl, insn);
      ZeroUnclear(g, membase, c0, k);
      forall i: nat, j: nat | LoadsImm(c, i, insn.src1) && LoadsImm(c, j, insn.src2)
        ensures Folding.MidSum(ImmValue(c, i), ImmValue(c, j)) < Arith.Pow2(64)
      {
        OperandKnown(g, membase, c0, regs0, c, regs, k, i, insn.src1);
        OperandKnown(g, membase, c0, regs0, c, regs, k, j, insn.src2);
      }
    }
  }

  lemma ExactLoading(g: Guest, membase: nat, c0: Code, regs0: seq<Reg>, c: Code, regs: seq<Reg>, k: nat)
    requires Scan(g, membase, c0, regs0, c, regs) && k < |c0.insns| && FoldSafeAt(g, membase, c0, k)
    requires !KnowledgeAt(g, membase, c0, k).Varying? && c0.insns[k].op.LOAD?
    ensures ExactLoad(g, membase, c, c0.insns[k])
  {
    hide KnowledgeOf, KnowledgeAt, Scan, MayDiffer, OffsetOf, AllReadonly, BaseLoaded, RunAddress;
    ScanSizes(g, membase, c0, regs0, c, regs);
    var load := c0.insns[k];
    BaseStays(g, membase, c0, regs0, c, regs);
    forall v | OffsetOf(c, membase, load.src1, v)
      ensures AllReadonly(g, RunAddress(v, load.other), LoadSize(TypeOf(c.decl, load.dest))) {
      DifferenceKnown(g, membase, c0, regs0, c, regs, k, v);
    }
  }

  lemma BaseStays(g: Guest, membase: nat, c0: Code, regs0: seq<Reg>, c: Code, regs: seq<Reg>)
    requires Scan(g, membase, c0, regs0, c, regs) && BaseLoaded(c0, membase, g)
    ensures BaseLoaded(c, membase, g)
  {
    hide Covers, SsaOK, ConstOK, FoldsAs, LoadsExplained, OnlyPure;
    forall i: nat | i < |c.insns| && c.insns[i].dest == membase != 0
      ensures c.insns[i] == c0.insns[i] { NotReplaced(c0, c, i); }
  }

  /** The condition on the unit before optimization under which nothing is folded wrongly. */
  lemma SafeFolds(g: Guest, membase: nat, c0: Code, regs0: seq<Reg>, c: Code, regs: seq<Reg>, flags: Flags)
    requires FoldTraced(g, membase, c0, regs0, c, regs, flags) && (flags.foldConstants ==> FoldSafe(g, membase, c0))
    ensures FoldedExactly(g, membase, c0, c)
  {
    hide Retains, OnlyPure, FoldSafe, ExactAt, ExactLoad;
    if flags.foldConstants || flags.foldVectors {
      hide FoldTraced;
      FoldScanned(g, membase, c0, regs0, c, regs, flags);
      if flags.foldConstants { FoldSafeExact(g, membase, c0, regs0, c, regs); }
    }
  }

  lemma FoldScanned(g: Guest, membase: nat, c0: Code, regs0: seq<Reg>, c: Code, regs: seq<Reg>, flags: Flags)
    requires FoldTraced(g, membase, c0, regs0, c, regs, flags) && (flags.foldConstants || flags.foldVectors)
    ensures Scan(g, membase, c0, regs0, c, regs) && (!flags.foldConstants ==> NoneLoaded(c0, c))
  {
    hide OnlyPure, Retains, FoldsAs, LoadsExplained, ConstOK, NoneLoaded, Scanned, SsaOK, Covers, Clean;
  }

  // ---- No call misses a store ----

  /** Every store to an alias that a call in a later block could read is still there in the end. */
  ghost predicate StoresSafe(c0: Code, order0: seq<int>, c: Code) {
    forall b, k {:trigger StoreOf(c0, b, k)} :: b in order0 && SpanOK(c0, b) && StoreOf(c0, b, k) ==>
      CallVisible(c0, b, c0.insns[k].other) ==> k < |c.insns| && c.insns[k] == c0.insns[k]
  }

  lemma SafeStores(
    g: Guest, membase: nat, c0: Code, regs0: seq<Reg>, order0: seq<int>, t: Trace, c: Code, order: seq<int>,
    flags: Flags)
    requires Traced(g, membase, c0, regs0, order0, t, c, order, flags) && flags.deepDataFlow
    requires StoresSafe(c0, order0, c)
    ensures NoCallSees(t.flowing, order0)
  {
    hide Traced, StoresSafe, FlowOK, FewerPaths, CallVisible, DeadAtEnd, AnchorsKept, StoresTraced, SweepTraced;
    StoresOfTrace(g, membase, c0, regs0, order0, t, c, order, flags);
    var lastBlock :| FlowOK(t.flowing, order0, lastBlock);
    forall b, k | b in order0 && SpanOK(t.flowing, b) && StoreOf(t.flowing, b, k)
      && DeadAtEnd(t.flowing, b, k, t.flowing.insns[k].other)
      ensures !CallVisible(t.flowing, b, t.flowing.insns[k].other)
    {
      SameStore(c0, t.flowing, order0, b, k);
      StoreGone(t.flowing, order0, t.flowed, t.swept, c, order, flags, b, k);
      VisibleBefore(c0, t.flowing, order0, lastBlock, t.flowing.insns[k].other, b);
      StoreSafe(c0, order0, c, b, k);
    }
  }

  lemma StoresOfTrace(
    g: Guest, membase: nat, c0: Code, regs0: seq<Reg>, order0: seq<int>, t: Trace, c: Code, order: seq<int>,
    flags: Flags)
    requires Traced(g, membase, c0, regs0, order0, t, c, order, flags)
    ensures StoresTraced(t.flowing, order0, t.flowed, flags) && SweepTraced(t.flowed, t.swept, flags)
    ensures FewerPaths(c0, t.flowing, order0) && (exists lastBlock :: FlowOK(t.flowing, order0, lastBlock))
    ensures AnchorsKept(t.swept, c, order0, order)
  {
    hide FoldTraced, BranchesTraced, StoresTraced, SweepTraced, FewerPaths, FlowOK, Standing, AnchorsKept, EffectsStay,
      StandsWith;
  }

  lemma SameStore(c0: Code, c: Code, order: seq<int>, b: int, k: int)
    requires FewerPaths(c0, c, order) && b in order && SpanOK(c, b) && StoreOf(c, b, k)
    ensures SpanOK(c0, b) && StoreOf(c0, b, k) && c.insns[k] == c0.insns[k]
  {}

  lemma StoreSafe(c0: Code, order0: seq<int>, c: Code, b: int, k: int)
    requires StoresSafe(c0, order0, c) && b in order0 && SpanOK(c0, b) && StoreOf(c0, b, k) && k < |c.insns|
    requires c.insns[k] != c0.insns[k]
    ensures !CallVisible(c0, b, c0.insns[k].other)
  {
    hide CallVisible;
  }

  /** A store removed by the alias pass is not there in the end. */
  lemma StoreGone(
    flowing: Code, order0: seq<int>, flowed: Code, swept: Code, c: Code, order: seq<int>, flags: Flags, b: int, k: int)
    requires StoresTraced(flowing, order0, flowed, flags) && SweepTraced(flowed, swept, flags)
    requires AnchorsKept(swept, c, order0, order)
    requires flags.deepDataFlow && b in order0 && SpanOK(flowing, b) && StoreOf(flowing, b, k)
    requires DeadAtEnd(flowing, b, k, flowing.insns[k].other)
    ensures k < |c.insns| && c.insns[k] != flowing.insns[k]
  {
    hide DeadAtEnd;
    assert DeadIn(flowing, order0, b, k);
    assert flowed.insns[k] == NopInsn && swept.insns[k] == NopInsn;
    assert InsnKept(swept.insns[k], c.insns[k]);
  }

  // ---- Paths to calls ----

  lemma SameSetIn(c: Code, c': Code, from: int, to: int, a: int)
    requires KeepsAliases(c, c')
    ensures SetIn(c', from, to, a) <==> SetIn(c, from, to, a)
  {
    if j :| from <= j < to && 0 <= j < |c.insns| && SetsAlias(c.insns[j], a) { assert SetsAlias(c'.insns[j], a); }
    if j :| from <= j < to && 0 <= j < |c'.insns| && SetsAlias(c'.insns[j], a) { assert SetsAlias(c.insns[j], a); }
  }

  lemma SameHasCall(c: Code, c': Code, b: int, a: int)
    requires KeepsAliases(c, c') && SpanOK(c', b) && HasCall(c', b, a)
    ensures HasCall(c, b, a)
  {
    var first := c.spans[b].first;
    var j :| first <= j <= c.spans[b].last && c'.insns[j].op.CALL? && !SetIn(c', first, j, a);
    SameSetIn(c, c', first, j, a);
  }

  lemma {:induction false} PathOfBoth(c: Code, c': Code, order: seq<int>, lastBlock: int, a: int, path: seq<int>)
    requires FewerPaths(c, c', order) && FlowOK(c', order, lastBlock) && |path| > 0 && path[0] in order
    requires ArrivesAtCall(c', a, path)
    ensures ArrivesAtCall(c, a, path)
    decreases |path|
  {
    hide FlowOK, Successors, KeepsAliases;
    SuccessorsInStream(c', order, lastBlock, path[0]);
    assert SpanOK(c, path[0]) && path[1] in Successors(c, path[0]) && path[1] in order && SpanOK(c, path[1]);
    if HasCall(c', path[1], a) {
      SameHasCall(c, c', path[1], a);
    } else {
      SameSetIn(c, c', c'.spans[path[1]].first, c'.spans[path[1]].last + 1, a);
      assert c.spans == c'.spans by { SpansKept(c, c'); }
      PathOfBoth(c, c', order, lastBlock, a, path[1..]);
    }
  }

  lemma SpansKept(c: Code, c': Code)
    requires KeepsAliases(c, c')
    ensures c'.spans == c.spans && |c'.insns| == |c.insns|
  {}

  /** Removing edges creates no way for a call to see a store. */
  lemma VisibleBefore(c: Code, c': Code, order: seq<int>, lastBlock: int, a: int, b: int)
    requires FewerPaths(c, c', order) && FlowOK(c', order, lastBlock) && b in order
    ensures CallVisible(c', b, a) ==> CallVisible(c, b, a)
  {
    hide FlowOK, FewerPaths, ArrivesAtCall;
    if path :| ReachesCall(c', b, a, path) {
      PathOfBoth(c, c', order, lastBlock, a, path);
      assert ReachesCall(c, b, a, path);
    }
  }

  // ---- No effect is lost ----

  /** Instruction j holds on to what it reads until the end of the optimization: its block is kept and it is of a kind
      that stays, or it is a conditional branch or a store to an alias and has in fact stayed. */
  ghost predicate HoldsOn(c0: Code, order0: seq<int>, c: Code, order: seq<int>, j: int) {
    && 0 <= j < |c0.insns| && |c.insns| == |c0.insns|
    && ((IsKeeper(c0, j) && exists b :: InBlockOf(c0, order, b, j)) || IsOutlet(c.insns[j].op))
  }

  predicate InBlockOf(c: Code, order: seq<int>, b: int, j: int) {
    b in order && SpanOK(c, b) && c.spans[b].first <= j <= c.spans[b].last
  }

  /** Instruction j holds on to what it reads until the control-flow passes. */
  ghost predicate HoldsFirst(c0: Code, order0: seq<int>, c: Code, flags: Flags, j: int) {
    && 0 <= j < |c0.insns| && |c.insns| == |c0.insns| && (exists b :: InBlockOf(c0, order0, b, j))
    && (|| IsKeeper(c0, j)
        || IsConditional(c0.insns[j].op)
        || (c0.insns[j].op.SET_ALIAS? && (flags.deepDataFlow ==> c.insns[j].op.SET_ALIAS?)))
  }

  /** The result of instruction i flows through sturdy operations into instruction j. */
  ghost predicate FlowsInto(c: Code, i: int, path: seq<int>, j: int) {
    Carries(c, path) && path[0] == i && Feeds(c, End(path), j)
  }

  ghost predicate EffectSafe(c0: Code, order0: seq<int>, c: Code, order: seq<int>, flags: Flags, b: int, i: int)
    requires 0 <= i < |c0.insns|
  {
    HasReader(c0.decl, c0.insns, c0.insns[i].dest) ==>
      if b in order then exists path, j :: FlowsInto(c0, i, path, j) && HoldsOn(c0, order0, c, order, j)
      else exists path, j :: FlowsInto(c0, i, path, j) && HoldsFirst(c0, order0, c, flags, j)
  }

  /** Every call and atomic operation is unread, or read by something that stays. */
  ghost predicate EffectsSafe(c0: Code, order0: seq<int>, c: Code, order: seq<int>, flags: Flags) {
    forall b, i {:trigger InBlockOf(c0, order0, b, i)} ::
      InBlockOf(c0, order0, b, i) && HasSideEffect(c0.insns[i].op) ==>
      EffectSafe(c0, order0, c, order, flags, b, i)
  }

  /** What holds on keeps the effect. */
  lemma HeldEffect(
    c0: Code, order0: seq<int>, c: Code, order: seq<int>, b: int, i: int, path: seq<int>, j: int)
    requires Standing(c0, order0, c, order) && (exists regs0 :: StandsWith(c0, regs0))
    requires FlowsInto(c0, i, path, j) && HoldsOn(c0, order0, c, order, j)
    ensures c.insns[i] == c0.insns[i]
  {
    hide Carries, Retained, SsaOK, Covers, Clean, AnchorsKept;
    var regs0 :| StandsWith(c0, regs0);
    var regs :| StandsWith(c, regs);
    StillThere(c0, order0, c, order, j);
    OpenAnchors(c0, order0, c, order);
    ReadKeepsEffect(c0, regs0, c, regs, path, j);
  }

  lemma OpenAnchors(c0: Code, order0: seq<int>, c: Code, order: seq<int>)
    requires AnchorsKept(c0, c, order0, order)
    ensures c.decl == c0.decl && |c.insns| == |c0.insns|
    ensures forall i :: 0 <= i < |c.insns| ==> InsnKept(c0.insns[i], c.insns[i])
  {}

  /** What holds on still reads what it read. */
  lemma StillThere(c0: Code, order0: seq<int>, c: Code, order: seq<int>, j: int)
    requires AnchorsKept(c0, c, order0, order) && HoldsOn(c0, order0, c, order, j) && forall b <- order :: SpanOK(c, b)
    ensures forall r :: Reads(c0.decl, c0.insns[j], r) ==> Reads(c.decl, c.insns[j], r)
  {
    assert InsnKept(c0.insns[j], c.insns[j]);
    if !IsOutlet(c.insns[j].op) {
      var b :| InBlockOf(c0, order, b, j);
      assert SpanOK(c, b) && StaysInBlock(c0, c, j);
    }
  }

  /** A conditional branch on a register that is not constant stays. */
  lemma BranchUntouched(
    c0: Code, regs0: seq<Reg>, edges0: seq<Edges>, owner: seq<int>, order: seq<int>, lastBlock: int,
    c: Code, regs: seq<Reg>, edges: seq<Edges>, b: int, j: int)
    requires DeconditionRun(c0, regs0, edges0, owner, order, lastBlock, c, regs, edges)
    requires InBlockOf(c0, order, b, j) && IsConditional(c0.insns[j].op)
    requires forall m :: !LoadsImm(c0, m, c0.insns[j].src1)
    ensures c.insns[j] == c0.insns[j]
  {
    hide Wired, StreamOK, TargetsOK, LabelsOK, Tight, ExitSet, Successors, OnlyBranches, ConstOK;
    assert EndsBlock(c0.insns[j].op) && j == c0.spans[b].last;
    var k :| 0 <= k < |order| && order[k] == b;
    assert BlockProgress(c0, regs0, edges0, c, edges, order[k], k < |order|);
    var r := c0.insns[j].src1;
    assert CleanInsn(c0.decl, c0.insns[j]) && Reads(c0.decl, c0.insns[j], r);
    if ConditionIsConstant(c0, regs0, b) { ConstIsLoadedAt(c0, regs0, r); }
  }

  /** A conditional branch that an effect flows into is there when the control-flow passes start. */
  lemma BranchHolds(
    g: Guest, membase: nat, c0: Code, regs0: seq<Reg>, order0: seq<int>, t: Trace, c: Code, order: seq<int>,
    flags: Flags,
    i: int, path: seq<int>, b: int, j: int)
    requires Traced(g, membase, c0, regs0, order0, t, c, order, flags) && FlowsInto(c0, i, path, j)
    requires InBlockOf(c0, order0, b, j) && IsConditional(c0.insns[j].op)
    ensures t.swept.insns[j] == c0.insns[j]
  {
    hide Carries, Traced, Standing, FewerPaths, FoldTraced, BranchesTraced, StoresTraced, SweepTraced, FlowOK,
      AnchorsKept, EffectsStay;
    PassesOf(g, membase, c0, regs0, order0, t, c, order, flags);
    BranchAfterFolding(g, membase, c0, regs0, t.folded, t.regs, flags, path, j);
    BranchAfterDecondition(t.folded, t.regs, order0, t.flowing, flags, b, j);
    KeptBySweep(t.flowing, order0, t.flowed, t.swept, flags, j);
  }

  lemma PassesOf(
    g: Guest, membase: nat, c0: Code, regs0: seq<Reg>, order0: seq<int>, t: Trace, c: Code, order: seq<int>,
    flags: Flags)
    requires Traced(g, membase, c0, regs0, order0, t, c, order, flags)
    ensures FoldTraced(g, membase, c0, regs0, t.folded, t.regs, flags)
    ensures BranchesTraced(t.folded, t.regs, order0, t.flowing, flags) && StandsWith(t.folded, t.regs)
    ensures StoresTraced(t.flowing, order0, t.flowed, flags) && SweepTraced(t.flowed, t.swept, flags)
    ensures t.folded == c0.(insns := t.folded.insns) && |t.folded.insns| == |c0.insns|
  {
    hide BranchesTraced, StoresTraced, SweepTraced, FewerPaths, FlowOK, Standing, AnchorsKept, EffectsStay, StandsWith,
      Retains, OnlyPure, FoldRun;
  }

  lemma BranchAfterFolding(
    g: Guest, membase: nat, c0: Code, regs0: seq<Reg>, c: Code, regs: seq<Reg>, flags: Flags, path: seq<int>, j: int)
    requires FoldTraced(g, membase, c0, regs0, c, regs, flags) && Carries(c0, path) && Feeds(c0, End(path), j)
    requires IsConditional(c0.insns[j].op)
    ensures c.insns[j] == c0.insns[j] && c.insns[j].dest == 0 && forall m :: !LoadsImm(c, m, c0.insns[j].src1)
  {
    hide Carries, FoldRun, Retains, SsaOK, Covers;
    NotReplaced(c0, c, j);
    assert CleanInsn(c.decl, c.insns[j]);
    forall m ensures !LoadsImm(c, m, c0.insns[j].src1) { CarriedNotLoaded(c0, c, regs, path, m); }
  }

  lemma BranchAfterDecondition(c0: Code, regs0: seq<Reg>, order: seq<int>, c: Code, flags: Flags, b: int, j: int)
    requires BranchesTraced(c0, regs0, order, c, flags) && InBlockOf(c0, order, b, j) && IsConditional(c0.insns[j].op)
    requires forall m :: !LoadsImm(c0, m, c0.insns[j].src1)
    ensures |c.insns| == |c0.insns| && c.insns[j] == c0.insns[j]
  {
    hide DeconditionRun;
    if flags.decondition {
      var edges0, owner, lastBlock, regs, edges :|
        DeconditionRun(c0, regs0, edges0, owner, order, lastBlock, c, regs, edges);
      BranchUntouched(c0, regs0, edges0, owner, order, lastBlock, c, regs, edges, b, j);
      RunSizes(c0, regs0, edges0, owner, order, lastBlock, c, regs, edges);
    }
  }

  lemma RunSizes(
    c0: Code, regs0: seq<Reg>, edges0: seq<Edges>, owner: seq<int>, order: seq<int>, lastBlock: int,
    c: Code, regs: seq<Reg>, edges: seq<Edges>)
    requires DeconditionRun(c0, regs0, edges0, owner, order, lastBlock, c, regs, edges)
    ensures OnlyBranches(c0, c) && Clean(c0.decl, c0.insns) && c.decl == c0.decl
  {}

  /** Neither alias pass nor sweep removes a branch. */
  lemma KeptBySweep(c: Code, order: seq<int>, flowed: Code, swept: Code, flags: Flags, j: int)
    requires StoresTraced(c, order, flowed, flags) && SweepTraced(flowed, swept, flags)
    requires 0 <= j < |c.insns| && c.insns[j].dest == 0 && (c.insns[j].op.SET_ALIAS? ==> !flags.deepDataFlow)
    ensures swept.insns[j] == c.insns[j]
  {
    hide DeadStore;
    if flags.deepDataFlow && StoreRemoved(c, order, j) { var b :| DeadIn(c, order, b, j); StoreIsSet(c, b, j); }
    assert flowed.insns[j] == c.insns[j];
    assert !Killed(flowed.insns, swept.insns, j);
  }

  lemma StoreIsSet(c: Code, b: int, j: int)
    requires SpanOK(c, b) && DeadStore(c, b, j)
    ensures c.insns[j].op.SET_ALIAS?
  {}

  /** A store to an alias is there when the control-flow passes start, unless the alias pass removes it. */
  lemma AliasHolds(
    g: Guest, membase: nat, c0: Code, regs0: seq<Reg>, order0: seq<int>, t: Trace, c: Code, order: seq<int>,
    flags: Flags, j: int)
    requires Traced(g, membase, c0, regs0, order0, t, c, order, flags) && 0 <= j < |c0.insns|
    requires c0.insns[j].op.SET_ALIAS?
    requires !flags.deepDataFlow
    ensures t.swept.insns[j] == c0.insns[j]
  {
    hide Traced, Standing, FewerPaths, BranchesTraced, StoresTraced, SweepTraced, FlowOK, AnchorsKept, EffectsStay,
      Retains, FoldRun, OnlyPure;
    PassesOf(g, membase, c0, regs0, order0, t, c, order, flags);
    NotReplaced(c0, t.folded, j);
    AliasAfterDecondition(t.folded, t.regs, order0, t.flowing, flags, j);
    assert CleanInsn(t.folded.decl, t.folded.insns[j]);
    KeptBySweep(t.flowing, order0, t.flowed, t.swept, flags, j);
  }

  lemma AliasAfterDecondition(c0: Code, regs0: seq<Reg>, order: seq<int>, c: Code, flags: Flags, j: int)
    requires BranchesTraced(c0, regs0, order, c, flags) && 0 <= j < |c0.insns| && c0.insns[j].op.SET_ALIAS?
    ensures |c.insns| == |c0.insns| && c.insns[j] == c0.insns[j]
  {
    hide DeconditionRun;
    if flags.decondition {
      var edges0, owner, lastBlock, regs, edges :|
        DeconditionRun(c0, regs0, edges0, owner, order, lastBlock, c, regs, edges);
      RunSizes(c0, regs0, edges0, owner, order, lastBlock, c, regs, edges);
      assert Unbranched(c0.insns[j], c.insns[j]);
    }
  }

  lemma StandingOf(
    g: Guest, membase: nat, c0: Code, regs0: seq<Reg>, order0: seq<int>, t: Trace, c: Code, order: seq<int>,
    flags: Flags)
    requires Traced(g, membase, c0, regs0, order0, t, c, order, flags)
    ensures Standing(c0, order0, t.swept, order0) && Standing(c0, order0, c, order)
    ensures AnchorsKept(t.swept, c, order0, order)
    ensures exists regs0 :: StandsWith(c0, regs0)
    ensures !flags.dse ==> EffectsStay(c0, t.swept, order0) && EffectsStay(c0, c, order)
  {
    hide FoldTraced, BranchesTraced, StoresTraced, SweepTraced, FewerPaths, FlowOK, Standing, AnchorsKept, EffectsStay,
      StandsWith;
  }

  /** What holds on until the control-flow passes is there when they start. */
  lemma FirstHolds(
    g: Guest, membase: nat, c0: Code, regs0: seq<Reg>, order0: seq<int>, t: Trace, c: Code, order: seq<int>,
    flags: Flags,
    i: int, path: seq<int>, j: int)
    requires Traced(g, membase, c0, regs0, order0, t, c, order, flags) && FlowsInto(c0, i, path, j)
    requires HoldsFirst(c0, order0, c, flags, j)
    ensures HoldsOn(c0, order0, t.swept, order0, j)
  {
    hide Carries, Traced, Standing, AnchorsKept, IsKeeper;
    StandingOf(g, membase, c0, regs0, order0, t, c, order, flags);
    SweptSize(c0, order0, t.swept, order0);
    OpenAnchors(t.swept, order0, c, order);
    var b :| InBlockOf(c0, order0, b, j);
    if IsKeeper(c0, j) {
    } else if IsConditional(c0.insns[j].op) {
      BranchHolds(g, membase, c0, regs0, order0, t, c, order, flags, i, path, b, j);
    } else if flags.deepDataFlow {
      assert InsnKept(t.swept.insns[j], c.insns[j]);
    } else {
      AliasHolds(g, membase, c0, regs0, order0, t, c, order, flags, j);
    }
  }

  lemma SweptSize(c0: Code, order0: seq<int>, c: Code, order: seq<int>)
    requires Standing(c0, order0, c, order)
    ensures |c.insns| == |c0.insns|
  {}

  /** In the final code, and in the code the control-flow passes start from, every effect is still there. */
  lemma SafeEffects(
    g: Guest, membase: nat, c0: Code, regs0: seq<Reg>, order0: seq<int>, t: Trace, c: Code, order: seq<int>,
    flags: Flags)
    requires Traced(g, membase, c0, regs0, order0, t, c, order, flags)
    requires flags.dse ==> EffectsSafe(c0, order0, c, order, flags)
    ensures EffectsStay(c0, t.swept, order0) && EffectsStay(c0, c, order)
  {
    hide Traced, Standing, AnchorsKept, EffectSafe, HasReader, StandsWith, EffectsStay;
    StandingOf(g, membase, c0, regs0, order0, t, c, order, flags);
    if flags.dse {
      forall b, i | InBlockOf(c0, order, b, i) && HasSideEffect(c0.insns[i].op)
        ensures |c.insns| == |c0.insns| && c.insns[i] == c0.insns[i] {
        LastEffect(c0, order0, c, order, flags, b, i);
      }
      forall b, i | InBlockOf(c0, order0, b, i) && HasSideEffect(c0.insns[i].op)
        ensures |t.swept.insns| == |c0.insns| && t.swept.insns[i] == c0.insns[i]
      {
        if b in order {
          assert InBlockOf(c0, order, b, i);
          EffectBefore(c0, order0, t.swept, c, order, i);
        } else {
          FirstEffect(g, membase, c0, regs0, order0, t, c, order, flags, b, i);
        }
      }
      StayInBlocks(c0, order0, c, order);
      StayInBlocks(c0, order0, t.swept, order0);
    }
  }

  lemma StayInBlocks(c0: Code, order0: seq<int>, c: Code, order: seq<int>)
    requires Standing(c0, order0, c, order)
    requires forall b, i :: InBlockOf(c0, order, b, i) && HasSideEffect(c0.insns[i].op) ==>
               i < |c.insns| && c.insns[i] == c0.insns[i]
    ensures EffectsStay(c0, c, order)
  {
    forall b, i | b in order && SpanOK(c, b) && c.spans[b].first <= i <= c.spans[b].last && i < |c0.insns|
      && HasSideEffect(c0.insns[i].op)
      ensures c.insns[i] == c0.insns[i]
    {
      assert InBlockOf(c0, order, b, i);
    }
  }

  lemma LastEffect(c0: Code, order0: seq<int>, c: Code, order: seq<int>, flags: Flags, b: int, i: int)
    requires Standing(c0, order0, c, order) && (exists regs0 :: StandsWith(c0, regs0))
    requires EffectsSafe(c0, order0, c, order, flags)
    requires InBlockOf(c0, order, b, i) && HasSideEffect(c0.insns[i].op)
    ensures |c.insns| == |c0.insns| && c.insns[i] == c0.insns[i]
  {
    hide HasReader, StandsWith, HoldsOn, FlowsInto, Retained;
    BlockKept(c0, order0, c, order, b, i);
    if HasReader(c0.decl, c0.insns, c0.insns[i].dest) {
      assert EffectSafe(c0, order0, c, order, flags, b, i);
      var path, j :| FlowsInto(c0, i, path, j) && HoldsOn(c0, order0, c, order, j);
      hide Standing;
      HeldEffect(c0, order0, c, order, b, i, path, j);
    }
  }

  lemma BlockKept(c0: Code, order0: seq<int>, c: Code, order: seq<int>, b: int, i: int)
    requires Standing(c0, order0, c, order) && InBlockOf(c0, order, b, i)
    ensures |c.insns| == |c0.insns| && InBlockOf(c0, order0, b, i) && StaysInBlock(c0, c, i)
  {
    assert SpanOK(c, b);
  }

  lemma EffectBefore(c0: Code, order0: seq<int>, swept: Code, c: Code, order: seq<int>, i: int)
    requires AnchorsKept(swept, c, order0, order) && 0 <= i < |c0.insns| == |c.insns| && c.insns[i] == c0.insns[i]
    requires HasSideEffect(c0.insns[i].op)
    ensures |swept.insns| == |c0.insns| && swept.insns[i] == c0.insns[i]
  {
    assert InsnKept(swept.insns[i], c.insns[i]);
  }

  lemma FirstEffect(
    g: Guest, membase: nat, c0: Code, regs0: seq<Reg>, order0: seq<int>, t: Trace, c: Code, order: seq<int>,
    flags: Flags, b: int,
    i: int)
    requires Traced(g, membase, c0, regs0, order0, t, c, order, flags) && EffectsSafe(c0, order0, c, order, flags)
    requires InBlockOf(c0, order0, b, i) && HasSideEffect(c0.insns[i].op) && b !in order
    ensures |t.swept.insns| == |c0.insns| && t.swept.insns[i] == c0.insns[i]
  {
    hide HasReader, StandsWith, HoldsOn, HoldsFirst, FlowsInto, Traced, Standing;
    StandingOf(g, membase, c0, regs0, order0, t, c, order, flags);
    BlockKept(c0, order0, t.swept, order0, b, i);
    if HasReader(c0.decl, c0.insns, c0.insns[i].dest) {
      assert EffectSafe(c0, order0, c, order, flags, b, i);
      var path, j :| FlowsInto(c0, i, path, j) && HoldsFirst(c0, order0, c, flags, j);
      FirstHolds(g, membase, c0, regs0, order0, t, c, order, flags, i, path, j);
      HeldEffect(c0, order0, t.swept, order0, b, i, path, j);
    }
  }

  // ---- The condition on the whole ----

  /** A condition on the unit before optimization, and on which of its branches and alias stores are still there
      afterwards: nothing is folded inexactly, vectors are forwarded in strict SSA form, no call in a later block
      could see an alias store that is gone, and every call and atomic operation is unread or flows into something
      that stays. */
  ghost predicate SafeUnit(
    g: Guest, membase: nat, c0: Code, order0: seq<int>, c: Code, order: seq<int>, flags: Flags)
  {
    && (flags.foldConstants ==> FoldSafe(g, membase, c0))
    && (flags.foldVectors ==> Strict(c0))
    && (flags.deepDataFlow ==> StoresSafe(c0, order0, c))
    && (flags.dse ==> EffectsSafe(c0, order0, c, order, flags))
  }

  /** Then nothing harmful has been done. */
  lemma SafeIsHarmless(
    g: Guest, membase: nat, c0: Code, regs0: seq<Reg>, order0: seq<int>, t: Trace, c: Code, order: seq<int>,
    flags: Flags)
    requires Traced(g, membase, c0, regs0, order0, t, c, order, flags)
    requires SafeUnit(g, membase, c0, order0, c, order, flags)
    ensures Harmless(g, membase, c0, order0, t, c, order, flags)
  {
    hide Traced, FoldSafe, Strict, StoresSafe, EffectsSafe, EffectsStay, NoCallSees, FoldedExactly, FoldTraced;
    PassesOf(g, membase, c0, regs0, order0, t, c, order, flags);
    SafeFolds(g, membase, c0, regs0, t.folded, t.regs, flags);
    if flags.deepDataFlow { SafeStores(g, membase, c0, regs0, order0, t, c, order, flags); }
    SafeEffects(g, membase, c0, regs0, order0, t, c, order, flags);
  }

  // ---- The two usual shapes ----

  /** CMPXCHG, a comparison of its result, and a conditional branch on that (the loop around a store-conditional) is
      safe in a block that goes, and in one that stays if the branch does. */
  lemma ExchangeSafe(
    c0: Code, order0: seq<int>, c: Code, order: seq<int>, flags: Flags, b: int, i: int, j: int, k: int)
    requires |c.insns| == |c0.insns| && InBlockOf(c0, order0, b, k)
    requires Feeds(c0, i, j) && c0.insns[i].op.CMPXCHG? && c0.insns[j].op == ALU2(SEQ) && Feeds(c0, j, k)
    requires IsConditional(c0.insns[k].op)
    requires b in order ==> IsConditional(c.insns[k].op)
    ensures EffectSafe(c0, order0, c, order, flags, b, i)
  {
    assert [i, j][..1] == [i];
    assert Carries(c0, [i]) && Carries(c0, [i, j]) && FlowsInto(c0, i, [i, j], k);
  }

  /** A call whose result is cast or shifted and stored in an alias is safe if the SET_ALIAS stays. */
  lemma CallSafe(
    c0: Code, order0: seq<int>, c: Code, order: seq<int>, flags: Flags, b: int, i: int, j: int, k: int)
    requires |c.insns| == |c0.insns| && InBlockOf(c0, order0, b, k) && Feeds(c0, i, j) && c0.insns[i].op.CALL?
    requires (c0.insns[j].op == ALU1(ZCAST) || c0.insns[j].op == ALUI(SRLI)) && Feeds(c0, j, k)
    requires c0.insns[k].op.SET_ALIAS?
    requires b in order || flags.deepDataFlow ==> c.insns[k].op.SET_ALIAS?
    ensures EffectSafe(c0, order0, c, order, flags, b, i)
  {
    assert [i, j][..1] == [i];
    assert Carries(c0, [i]) && Carries(c0, [i, j]) && FlowsInto(c0, i, [i, j], k);
  }
}
