/** Folding loads from guest memory that is marked read-only: get_readonly_ptr and fold_readonly_load. */
module FoldLoads {
  import opened Rtl
  import opened Arith
  import opened Folding
  import opened Liveness
  import opened Semantics
  import opened Rewrite
  import opened Invariant
  import opened FoldConstants

  // ---- Guest memory ----

  /** The guest memory a unit runs on: the argument that holds its address, the part that does not change, and what is
      there. */
  datatype Guest = Guest(argument: int, readonly: iset<int>, image: int -> nat)

  /** The bytes a LOAD of type t reads. */
  function LoadSize(t: Type): nat { if t.INT32? || t.FLOAT32? then 4 else 8 }

  /** n bytes from address a on, low byte first (a little-endian host). */
  function Word(image: int -> nat, n: nat, a: int): nat {
    if n == 0 then 0 else image(a) % 256 + 256 * Word(image, n - 1, a + 1)
  }

  lemma {:induction false} WordFits(image: int -> nat, n: nat, a: int)
    ensures Word(image, n, a) < Pow2(8 * n)
  {
    if n > 0 {
      WordFits(image, n - 1, a + 1);
      Pow2Add(8, 8 * (n - 1));
      Pow2Values();
    }
  }

  /** The n bytes of the number, low byte first, are those at address a. */
  ghost predicate HoldsBytes(value: int, image: int -> nat, a: int, n: nat) {
    0 <= value < Pow2(8 * n) && forall i: nat :: i < n ==> ByteOf(value, i) == image(a + i) % 256
  }

  lemma BytesThere(image: int -> nat, n: nat, a: int)
    ensures HoldsBytes(Word(image, n, a), image, a, n)
  {
    WordFits(image, n, a);
    forall i: nat | i < n ensures ByteOf(Word(image, n, a), i) == image(a + i) % 256 { WordBytes(image, n, a, i); }
  }

  lemma AddressIs(v: int, displacement: int)
    ensures GuestAddress(v, displacement) == (v + displacement) % 0x1_0000_0000
  {
    Pow2Values();
    hide Pow2;
  }

  lemma DivTwice(x: nat, p: int)
    requires p > 0
    ensures x / (256 * p) == x / 256 / p
  {
    var q, r := x / 256 / p, x / 256 % p;
    var b := x % 256;
    assert x == 256 * (q * p + r) + b;
    assert 256 * (q * p) == q * (256 * p);
    var low := 256 * r + b;
    assert 0 <= low < 256 * p;
    ModUnique(x, 256 * p, q, low);
  }

  /** Byte i of a number, counted from the low end. */
  function ByteOf(x: nat, i: nat): nat { x / Pow2(8 * i) % 256 }

  /** The bytes of a word are those in memory. */
  lemma {:induction false} WordBytes(image: int -> nat, n: nat, a: int, i: nat)
    requires i < n
    ensures ByteOf(Word(image, n, a), i) == image(a + i) % 256
  {
    var rest := Word(image, n - 1, a + 1);
    if i > 0 {
      WordBytes(image, n - 1, a + 1, i - 1);
      Pow2Add(8, 8 * (i - 1));
      Pow2Values();
      DivTwice(Word(image, n, a), Pow2(8 * (i - 1)));
      assert Word(image, n, a) / 256 == rest;
      assert a + 1 + (i - 1) == a + i;
    }
  }

  /** All n bytes from address a on are read-only. */
  ghost predicate AllReadonly(g: Guest, a: int, n: nat) {
    0 <= a && a + n <= Pow2(32) && forall x :: a <= x < a + n ==> x in g.readonly
  }

  function GuestBase(env: Env, g: Guest): nat { U(64, env.arg(g.argument)) }

  /** Loads from read-only guest memory yield what is there, whatever has been stored meanwhile. */
  ghost predicate Honest(env: Env, g: Guest) {
    forall mem, t, n: nat, off {:trigger env.load(mem, t, n, off)} :: IsScalar(t) ==>
      var a := U(64, n + off - GuestBase(env, g));
      AllReadonly(g, a, LoadSize(t)) ==> env.load(mem, t, n, off) == Num(Word(g.image, LoadSize(t), a))
  }

  /** d is a correct replacement for c on machines with this guest memory. */
  ghost predicate RefinesOn(g: Guest, c: Code, d: Code) {
    forall env, als, mem :: Honest(env, g) ==> Agree(env, c, Init(c, als, mem), d, Init(d, als, mem))
  }

  lemma RefinesAnywhere(g: Guest, c: Code, d: Code)
    requires Refines(c, d)
    ensures RefinesOn(g, c, d)
  {
    forall env, als, mem ensures Agree(env, c, Init(c, als, mem), d, Init(d, als, mem)) {}
  }

  /** Without read-only memory there is nothing a machine could be dishonest about. */
  lemma RefinesEverywhere(g: Guest, c: Code, d: Code)
    requires RefinesOn(g, c, d) && g.readonly == iset{}
    ensures Refines(c, d)
  {
    hide AllReadonly, Word, Agree;
    forall env, als, mem ensures Agree(env, c, Init(c, als, mem), d, Init(d, als, mem)) {
      forall m, t, n: nat, off {:trigger env.load(m, t, n, off)} | IsScalar(t)
        ensures AllReadonly(g, U(64, n + off - GuestBase(env, g)), LoadSize(t)) ==>
                  env.load(m, t, n, off) == Num(Word(g.image, LoadSize(t), U(64, n + off - GuestBase(env, g))))
      {
        NothingInside(g, U(64, n + off - GuestBase(env, g)), LoadSize(t));
      }
      assert Honest(env, g);
    }
  }

  lemma NothingInside(g: Guest, a: int, n: nat)
    requires g.readonly == iset{} && n > 0
    ensures !AllReadonly(g, a, n)
  {
    assert a !in g.readonly;
  }

  lemma RefinesOnTransitive(g: Guest, a: Code, b: Code, c: Code)
    requires RefinesOn(g, a, b) && RefinesOn(g, b, c)
    ensures RefinesOn(g, a, c)
  {
    forall env, als, mem | Honest(env, g) ensures Agree(env, a, Init(a, als, mem), c, Init(c, als, mem)) {
      assert Agree(env, a, Init(a, als, mem), b, Init(b, als, mem));
      assert Agree(env, b, Init(b, als, mem), c, Init(c, als, mem));
    }
  }

  // ---- Registers with one value ----

  predicate KnownState(known: map<nat, Value>, s: State) {
    forall r :: r in known && r in s.regs ==> s.regs[r] == known[r]
  }

  ghost predicate KnownHolds(known: map<nat, Value>, x: Config) { x.At? ==> KnownState(known, x.s) }

  /** Wherever a known register is set, it is set to its value, given that the others have theirs. */
  ghost predicate Produces(env: Env, c: Code, known: map<nat, Value>) {
    forall i, s {:trigger Exec(env, c.decl, c.insns[i], s)} ::
      0 <= i < |c.insns| && c.insns[i].dest in known && !EndsBlock(c.insns[i].op) && KnownState(known, s) ==>
        ProducesAt(env, c, known, i, s)
  }

  ghost predicate ProducesAt(env: Env, c: Code, known: map<nat, Value>, i: int, s: State)
    requires 0 <= i < |c.insns| && c.insns[i].dest in known && !EndsBlock(c.insns[i].op)
  {
    Exec(env, c.decl, c.insns[i], s).Some? ==>
      var s' := Exec(env, c.decl, c.insns[i], s).value;
      c.insns[i].dest in s'.regs ==> s'.regs[c.insns[i].dest] == known[c.insns[i].dest]
  }

  lemma KnownPreserved(env: Env, c: Code, known: map<nat, Value>)
    requires Produces(env, c, known)
    ensures Preserved(env, c, x => KnownHolds(known, x))
  {
    hide Exec;
    forall x | KnownHolds(known, x) ensures KnownHolds(known, Step(env, c, x)) {
      var y := Step(env, c, x);
      if x.At? && y.At? && y.s != x.s {
        var insn := c.insns[x.i];
        assert Exec(env, c.decl, insn, x.s) == Some(y.s);
        ExecOnlyWritesDest(env, c.decl, insn, x.s);
        if insn.dest in known { assert ProducesAt(env, c, known, x.i, x.s); }
      }
    }
  }

  // ---- Addresses relative to the guest memory base ----

  /** The register marked as holding the guest memory base is set from that argument. */
  ghost predicate BaseLoaded(c: Code, membase: nat, g: Guest) {
    forall i :: 0 <= i < |c.insns| && c.insns[i].dest == membase != 0 ==>
      c.insns[i].op.LOAD_ARG? && c.insns[i].other == g.argument && TypeOf(c.decl, membase).ADDRESS?
  }

  /** The constant by which register b differs from the guest memory base, if that is known. */
  function BaseOffset(c: Code, regs: seq<Reg>, membase: nat, b: nat): Option<int>
    requires b < |regs|
  {
    if b == membase then Some(0)
    else if regs[b].source.RESULT_NOFOLD? && 0 <= regs[b].birth < |c.insns| then
      var def := c.insns[regs[b].birth];
      if def.op == ALUI(ADDI) && def.src1 == membase then Some(def.other)
      else if def.op == ALU2(ADD) && def.src1 == membase && IsConst(regs, def.src2) then Some(regs[def.src2].value)
      else if def.op == ALU2(ADD) && def.src2 == membase && IsConst(regs, def.src1) then Some(regs[def.src1].value)
      else None
    else None
  }

  /** The guest address, in 32-bit arithmetic. */
  function GuestAddress(offset: int, displacement: int): nat { U32(U32(offset) + displacement) }

  function Loaded(insn: Insn, value: nat): Insn { insn.(op := LOAD_IMM, src1 := 0, other := value) }

  /** Where the load goes at run time, relative to the guest memory base. */
  function RunAddress(offset: int, displacement: int): nat { U(64, offset + displacement) }

  lemma RunsAt(base: nat, offset: int, displacement: int)
    ensures U(64, U(64, base + offset) + displacement - base) == RunAddress(offset, displacement)
  {
    UIdem(64, base + offset);
    UCongruent(64, U(64, base + offset), base + offset, displacement - base);
  }

  lemma AddressInside(g: Guest, offset: int, displacement: int, n: nat)
    requires AllReadonly(g, RunAddress(offset, displacement), n) && n > 0
    ensures GuestAddress(offset, displacement) == RunAddress(offset, displacement)
  {
    Pow2Values();
    UNarrow(offset + displacement);
    USmall(32, RunAddress(offset, displacement));
    UIdem(32, offset);
    UCongruent(32, U32(offset), offset, displacement);
  }

  // ---- When the folded value is the loaded one ----

  /** What the base register of the load holds. */
  function BaseAt(env: Env, g: Guest, offset: int): nat { U(64, GuestBase(env, g) + offset) }

  /** On every machine with this guest memory the load yields the folded value. */
  ghost predicate FoldIsRight(g: Guest, t: Type, offset: int, displacement: int) {
    forall env, mem {:trigger env.load(mem, t, BaseAt(env, g, offset), displacement)} :: Honest(env, g) ==>
      Canonical(t, env.load(mem, t, BaseAt(env, g, offset), displacement))
      == Truncated(t, Word(g.image, LoadSize(t), GuestAddress(offset, displacement)))
  }

  /** A machine that is honest about read-only memory and has the value v everywhere else. */
  ghost function Deviant(g: Guest, v: nat): Env {
    Env(
      x => 0,
      (m: Memory, t: Type, n: nat, off: int) =>
        if AllReadonly(g, U(64, n + off), LoadSize(t)) then Num(Word(g.image, LoadSize(t), U(64, n + off))) else Num(v),
      (m, n, i, v) => m, (op, m, xs) => (0, m), (m, bound, xs) => (0, m), (t, v, w, i) => Num(0))
  }

  lemma DeviantHonest(g: Guest, v: nat)
    ensures Honest(Deviant(g, v), g) && GuestBase(Deviant(g, v), g) == 0
  {
    hide AllReadonly, Word;
    Pow2Values();
    USmall(64, 0);
  }

  /** A folded load is right if and only if every byte it reads is read-only: the first byte is not enough. */
  lemma LoadExact(g: Guest, t: Type, offset: int, displacement: int)
    requires IsScalar(t)
    ensures FoldIsRight(g, t, offset, displacement) <==> AllReadonly(g, RunAddress(offset, displacement), LoadSize(t))
  {
    hide FoldIsRight, AllReadonly, RunAddress;
    if AllReadonly(g, RunAddress(offset, displacement), LoadSize(t)) {
      LoadsRight(g, t, offset, displacement);
    } else {
      Deviates(g, t, offset, displacement);
    }
  }

  lemma LoadsRight(g: Guest, t: Type, offset: int, displacement: int)
    requires IsScalar(t) && AllReadonly(g, RunAddress(offset, displacement), LoadSize(t))
    ensures FoldIsRight(g, t, offset, displacement)
  {
    hide AllReadonly, Word, U, GuestAddress, Honest, RunAddress, Canonical, Truncated, GuestBase;
    AddressInside(g, offset, displacement, LoadSize(t));
    var v := Word(g.image, LoadSize(t), GuestAddress(offset, displacement));
    forall env, mem {:trigger env.load(mem, t, BaseAt(env, g, offset), displacement)} | Honest(env, g)
      ensures env.load(mem, t, BaseAt(env, g, offset), displacement) == Num(v)
    {
      RunsAt(GuestBase(env, g), offset, displacement);
      HonestLoad(env, g, mem, t, BaseAt(env, g, offset), displacement);
    }
    CanonicalNum(t, v);
  }

  lemma CanonicalNum(t: Type, v: nat)
    ensures Canonical(t, Num(v)) == Truncated(t, v)
  {}

  lemma FoldRightAt(env: Env, g: Guest, t: Type, offset: int, displacement: int, mem: Memory)
    requires FoldIsRight(g, t, offset, displacement) && Honest(env, g)
    ensures Canonical(t, env.load(mem, t, BaseAt(env, g, offset), displacement))
         == Truncated(t, Word(g.image, LoadSize(t), GuestAddress(offset, displacement)))
  {
    hide AllReadonly, Word, GuestAddress, U, Honest, Canonical, Truncated;
  }

  lemma Deviates(g: Guest, t: Type, offset: int, displacement: int)
    requires IsScalar(t) && !AllReadonly(g, RunAddress(offset, displacement), LoadSize(t))
    ensures !FoldIsRight(g, t, offset, displacement)
  {
    hide AllReadonly, Word, GuestAddress, U, FoldIsRight, Honest;
    var folded := U(StoredWidth(t), Word(g.image, LoadSize(t), GuestAddress(offset, displacement)));
    var v := if folded == 0 then 1 else 0;
    assert U(StoredWidth(t), v) == v by { SmallValue(StoredWidth(t), v); }
    var env, mem: Memory := Deviant(g, v), map[];
    DeviantHonest(g, v);
    RunsAt(0, offset, displacement);
    assert env.load(mem, t, BaseAt(env, g, offset), displacement) == Num(v);
    CanonicalNum(t, v);
    if FoldIsRight(g, t, offset, displacement) { FoldRightAt(env, g, t, offset, displacement, mem); }
  }

  lemma SmallValue(w: nat, v: nat)
    requires v <= 1 && w > 0
    ensures U(w, v) == v
  {
    assert Pow2(w) == 2 * Pow2(w - 1);
    USmall(w, v);
  }

  // ---- Replacing the load ----

  /** What is known of the base of a foldable address: the guest memory base, the register itself, and the constant
      added to it. */
  ghost predicate KnownBase(
    env: Env, g: Guest, c: Code, regs: seq<Reg>, membase: nat, b: nat, offset: int, known: map<nat, Value>)
  {
    && b < |regs| && b in known && known[b] == Num(U(64, GuestBase(env, g) + offset))
    && (membase in known ==> known[membase] == Num(GuestBase(env, g)))
    && forall r <- known :: 0 < r < |regs| && KnownReg(env, g, c, regs, membase, b, known, r)
  }

  ghost predicate KnownReg(
    env: Env, g: Guest, c: Code, regs: seq<Reg>, membase: nat, b: nat, known: map<nat, Value>, r: nat)
    requires r in known && r < |regs|
  {
    || (r == membase && known[r] == Num(GuestBase(env, g)))
    || (IsConst(regs, r) && known[r] == Num(if regs[r].value < 0 then 0 else regs[r].value))
    || (r == b && 0 <= regs[b].birth < |c.insns| && membase in known
        && var def := c.insns[regs[b].birth];
           || (def.op == ALUI(ADDI) && def.src1 == membase && known[r] == Num(U(64, GuestBase(env, g) + def.other)))
           || (def.op == ALU2(ADD) && def.src1 == membase && def.src2 in known && known[def.src2].Num?
                && IsConst(regs, def.src2)
               && known[r] == Num(U(64, GuestBase(env, g) + known[def.src2].n)))
           || (def.op == ALU2(ADD) && def.src2 == membase && def.src1 in known && known[def.src1].Num?
                && IsConst(regs, def.src1)
               && known[r] == Num(U(64, GuestBase(env, g) + known[def.src1].n))))
  }

  lemma BaseKnown(env: Env, g: Guest, c: Code, regs: seq<Reg>, membase: nat, b: nat) returns (known: map<nat, Value>)
    requires 0 < b < |regs| && BaseOffset(c, regs, membase, b).Some? && ConstOK(c.decl, c.insns, regs)
    requires 0 < membase < |regs|
    requires forall q :: IsConst(regs, q) ==> q != membase && q != b
    ensures KnownBase(env, g, c, regs, membase, b, BaseOffset(c, regs, membase, b).value, known)
  {
    var base := Num(GuestBase(env, g));
    var offset := BaseOffset(c, regs, membase, b).value;
    known := map[membase := base];
    if b == membase {
      USmall(64, GuestBase(env, g));
    } else {
      var def := c.insns[regs[b].birth];
      if def.op == ALU2(ADD) {
        var q := if def.src1 == membase && IsConst(regs, def.src2) then def.src2 else def.src1;
        known := SumKnown(env, g, c, regs, membase, b, q);
      } else {
        known := known[b := Num(U(64, GuestBase(env, g) + offset))];
      }
    }
  }

  lemma SumKnown(
    env: Env, g: Guest, c: Code, regs: seq<Reg>, membase: nat, b: nat, q: nat) returns (known: map<nat, Value>)
    requires 0 < b < |regs| && ConstOK(c.decl, c.insns, regs) && 0 < membase < |regs| && b != membase
    requires IsConst(regs, q)
    requires q != membase && q != b && 0 <= regs[b].birth < |c.insns| && c.insns[regs[b].birth].op == ALU2(ADD)
    requires var def := c.insns[regs[b].birth];
      (def.src1 == membase && def.src2 == q) || (def.src2 == membase && def.src1 == q)
    ensures KnownBase(env, g, c, regs, membase, b, regs[q].value, known)
  {
    hide U;
    assert ConstReg(c.decl, c.insns, regs, q);
    known := map[membase := Num(GuestBase(env, g)), q := Num(regs[q].value),
                 b := Num(U(64, GuestBase(env, g) + regs[q].value))];
  }

  lemma KnownProduced(
    env: Env, g: Guest, c: Code, regs: seq<Reg>, membase: nat, b: nat, offset: int, known: map<nat, Value>)
    requires KnownBase(env, g, c, regs, membase, b, offset, known) && BaseLoaded(c, membase, g)
    requires SsaOK(c.insns, regs) && ConstOK(c.decl, c.insns, regs)
    requires forall i :: 0 <= i < |c.insns| ==> TypedInsn(c.decl, c.insns[i])
    requires TypeOf(c.decl, membase).ADDRESS? && membase != 0
    ensures Produces(env, c, known)
  {
    hide SsaOK, TypedInsn, Exec, ConstOK, KnownReg;
    forall i, s | 0 <= i < |c.insns| && c.insns[i].dest in known && !EndsBlock(c.insns[i].op) && KnownState(known, s)
      ensures ProducesAt(env, c, known, i, s)
    {
      var r := c.insns[i].dest;
      assert KnownReg(env, g, c, regs, membase, b, known, r);
      BornAt(c, regs, i);
      ProducedBy(env, g, c, regs, membase, b, known, i, s);
    }
  }

  lemma BornAt(c: Code, regs: seq<Reg>, i: int)
    requires SsaOK(c.insns, regs) && 0 <= i < |c.insns| && c.insns[i].dest != 0
    ensures c.insns[i].dest < |regs| && regs[c.insns[i].dest].birth == i && regs[c.insns[i].dest].live
  {}

  lemma ProducedBy(
    env: Env, g: Guest, c: Code, regs: seq<Reg>, membase: nat, b: nat, known: map<nat, Value>, i: int, s: State)
    requires 0 <= i < |c.insns| && c.insns[i].dest in known && !EndsBlock(c.insns[i].op) && KnownState(known, s)
    requires 0 < c.insns[i].dest < |regs| && regs[c.insns[i].dest].birth == i && regs[c.insns[i].dest].live
    requires KnownReg(env, g, c, regs, membase, b, known, c.insns[i].dest) && BaseLoaded(c, membase, g)
    requires ConstOK(c.decl, c.insns, regs) && TypedInsn(c.decl, c.insns[i]) && membase != 0
    requires TypeOf(c.decl, membase).ADDRESS?
    requires membase in known ==> known[membase] == Num(GuestBase(env, g))
    ensures ProducesAt(env, c, known, i, s)
  {
    hide Exec, BaseLoaded, ConstOK, ProducesAt;
    var insn := c.insns[i];
    if insn.dest == membase {
      BaseProduced(env, g, c, membase, known, i, s);
    } else if IsConst(regs, insn.dest)
        && known[insn.dest] == Num(if regs[insn.dest].value < 0 then 0 else regs[insn.dest].value) {
      ConstProduced(env, c, regs, known, i, s);
    } else {
      SumProduced(env, g, c, membase, known, i, s);
    }
  }

  lemma BaseProduced(env: Env, g: Guest, c: Code, membase: nat, known: map<nat, Value>, i: int, s: State)
    requires 0 <= i < |c.insns| && c.insns[i].dest == membase != 0 && membase in known && BaseLoaded(c, membase, g)
    requires known[membase] == Num(GuestBase(env, g))
    ensures !EndsBlock(c.insns[i].op) && ProducesAt(env, c, known, i, s)
  {
    hide Result, U;
  }

  lemma ConstProduced(env: Env, c: Code, regs: seq<Reg>, known: map<nat, Value>, i: int, s: State)
    requires 0 <= i < |c.insns| && c.insns[i].dest in known && ConstOK(c.decl, c.insns, regs)
    requires IsConst(regs, c.insns[i].dest) && regs[c.insns[i].dest].birth == i
    requires known[c.insns[i].dest] == Num(if regs[c.insns[i].dest].value < 0 then 0 else regs[c.insns[i].dest].value)
    ensures !EndsBlock(c.insns[i].op) && ProducesAt(env, c, known, i, s)
  {
    hide Result, U;
    assert ConstReg(c.decl, c.insns, regs, c.insns[i].dest);
  }

  lemma SumProduced(env: Env, g: Guest, c: Code, membase: nat, known: map<nat, Value>, i: int, s: State)
    requires 0 <= i < |c.insns| && c.insns[i].dest in known && KnownState(known, s) && membase in known
    requires TypedInsn(c.decl, c.insns[i]) && membase != 0 && TypeOf(c.decl, membase).ADDRESS?
    requires known[membase] == Num(GuestBase(env, g))
    requires var def := c.insns[i];
      || (def.op == ALUI(ADDI) && def.src1 == membase && known[def.dest] == Num(U(64, GuestBase(env, g) + def.other)))
      || (def.op == ALU2(ADD) && def.src1 == membase && def.src2 in known && known[def.src2].Num?
          && known[def.dest] == Num(U(64, GuestBase(env, g) + known[def.src2].n)))
      || (def.op == ALU2(ADD) && def.src2 == membase && def.src1 in known && known[def.src1].Num?
          && known[def.dest] == Num(U(64, GuestBase(env, g) + known[def.src1].n)))
    ensures !EndsBlock(c.insns[i].op) && ProducesAt(env, c, known, i, s)
  {
    hide U, IsImmediate, PureResult;
    var insn, base := c.insns[i], GuestBase(env, g);
    if OperandsDefined(c.decl, insn, s) {
      assert Reads(c.decl, insn, insn.src1) && (insn.src2 != 0 ==> Reads(c.decl, insn, insn.src2));
      var v: int := if insn.op == ALUI(ADDI) then insn.other else if insn.src1 == membase then known[insn.src2].n
        else known[insn.src1].n;
      SumWraps(base, v);
      if insn.op == ALUI(ADDI) {
        SumWraps(base, U(64, v));
        UIdem(64, v);
        UCongruent(64, U(64, v), v, base);
      }
      SumResult(env, c.decl, insn, s);
    }
  }

  lemma SumResult(env: Env, d: Decl, insn: Insn, s: State)
    requires (insn.op == ALUI(ADDI) || insn.op == ALU2(ADD)) && TypeOf(d, insn.src1).ADDRESS?
    requires TypeOf(d, insn.dest).ADDRESS?
    requires Get(s, insn.src1).Num? && Get(s, insn.src2).Num?
    ensures var y := if insn.op == ALUI(ADDI) then U(64, insn.other) else Get(s, insn.src2).n;
      PureResult(env, d, insn, s) == Some(Num(U(64, U(64, Get(s, insn.src1).n) + U(64, y))))
  {
    hide U;
  }

  lemma SumWraps(base: nat, v: int)
    ensures U(64, U(64, base) + U(64, v)) == U(64, base + v) == U(64, U(64, v) + U(64, base))
  {
    UIdem(64, base);
    UIdem(64, v);
    UCongruent(64, U(64, base), base, U(64, v));
    UCongruent(64, U(64, v), v, base);
  }

  /** A load whose bytes are all read-only can be replaced by what is there. */
  lemma ReplaceLoad(g: Guest, c: Code, regs: seq<Reg>, membase: nat, k: nat)
    requires SsaOK(c.insns, regs) && ConstOK(c.decl, c.insns, regs)
    requires forall i :: 0 <= i < |c.insns| ==> TypedInsn(c.decl, c.insns[i])
    requires BaseLoaded(c, membase, g) && TypeOf(c.decl, membase).ADDRESS? && 0 < membase < |regs|
    requires k < |c.insns| && c.insns[k].op.LOAD? && IsScalar(TypeOf(c.decl, c.insns[k].dest))
    requires 0 < c.insns[k].src1 < |regs|
    requires BaseOffset(c, regs, membase, c.insns[k].src1).Some?
    requires c.insns[k].src2 == 0 && forall q :: IsConst(regs, q) ==> q != membase && q != c.insns[k].src1
    requires AllReadonly(g, RunAddress(BaseOffset(c, regs, membase, c.insns[k].src1).value, c.insns[k].other),
                         LoadSize(TypeOf(c.decl, c.insns[k].dest)))
    ensures var t, a := TypeOf(c.decl, c.insns[k].dest),
              GuestAddress(BaseOffset(c, regs, membase, c.insns[k].src1).value, c.insns[k].other);
      RefinesOn(g, c, c.(insns := c.insns[k := Loaded(c.insns[k], Word(g.image, LoadSize(t), a))]))
  {
    hide AllReadonly, RunAddress, ConstOK, SsaOK, TypedInsn, BaseOffset, KnownBase;
    var insn := c.insns[k];
    var t, offset := TypeOf(c.decl, insn.dest), BaseOffset(c, regs, membase, insn.src1).value;
    var insn' := Loaded(insn, Word(g.image, LoadSize(t), GuestAddress(offset, insn.other)));
    var c' := c.(insns := c.insns[k := insn']);
    forall env, als, mem | Honest(env, g) ensures Agree(env, c, Init(c, als, mem), c', Init(c', als, mem)) {
      var known := BaseKnown(env, g, c, regs, membase, insn.src1);
      KnownProduced(env, g, c, regs, membase, insn.src1, offset, known);
      KnownPreserved(env, c, known);
      var inv := x => KnownHolds(known, x);
      forall x | inv(x) && AtInsn(c, k, x) ensures Joins(env, c, c', x) {
        LoadJoins(env, g, c, c', regs, membase, offset, known, k, x);
      }
      ReplaceInsn(env, c, k, insn', inv, Init(c, als, mem));
    }
  }

  lemma LoadJoins(
    env: Env, g: Guest, c: Code, c': Code, regs: seq<Reg>, membase: nat, offset: int, known: map<nat, Value>, k: nat,
    x: Config)
    requires Honest(env, g) && k < |c.insns| && c.insns[k].op.LOAD? && IsScalar(TypeOf(c.decl, c.insns[k].dest))
    requires c.insns[k].src1 != 0
    requires KnownBase(env, g, c, regs, membase, c.insns[k].src1, offset, known) && KnownHolds(known, x)
    requires AtInsn(c, k, x)
    requires AllReadonly(g, RunAddress(offset, c.insns[k].other), LoadSize(TypeOf(c.decl, c.insns[k].dest)))
    requires c' == c.(insns := c.insns[k := Loaded(c.insns[k],
               Word(g.image, LoadSize(TypeOf(c.decl, c.insns[k].dest)), GuestAddress(offset, c.insns[k].other)))])
    requires c.insns[k].src2 == 0
    ensures Joins(env, c, c', x)
  {
    hide AllReadonly, Word, U, GuestAddress, RunAddress, KnownReg, Honest, Exec;
    var insn, s := c.insns[k], x.s;
    var t, base := TypeOf(c.decl, insn.dest), GuestBase(env, g);
    AddressInside(g, offset, insn.other, LoadSize(t));
    RunsAt(base, offset, insn.other);
    var v := Word(g.image, LoadSize(t), GuestAddress(offset, insn.other));
    if Exec(env, c.decl, insn, s).Some? {
      OperandThere(env, c.decl, insn, s);
      assert s.regs[insn.src1] == Num(U(64, base + offset));
      HonestLoad(env, g, s.mem, t, U(64, base + offset), insn.other);
      LoadExec(env, c.decl, insn, s, v);
    }
    JoinInOneStep(env, c, c', x);
  }

  lemma OperandThere(env: Env, d: Decl, insn: Insn, s: State)
    requires insn.op.LOAD? && insn.src1 != 0 && Exec(env, d, insn, s).Some?
    ensures insn.src1 in s.regs
  {
    assert Reads(d, insn, insn.src1);
  }

  lemma LoadExec(env: Env, d: Decl, insn: Insn, s: State, v: nat)
    requires insn.op.LOAD? && insn.src1 != 0 && insn.src2 == 0 && insn.src1 in s.regs && Exec(env, d, insn, s).Some?
    requires env.load(s.mem, TypeOf(d, insn.dest), NumOf(s.regs[insn.src1]), insn.other) == Num(v)
    ensures Exec(env, d, Loaded(insn, v), s) == Exec(env, d, insn, s)
  {
    assert forall r :: !Reads(d, Loaded(insn, v), r);
  }

  lemma HonestLoad(env: Env, g: Guest, mem: Memory, t: Type, n: nat, off: int)
    requires Honest(env, g) && IsScalar(t) && AllReadonly(g, U(64, n + off - GuestBase(env, g)), LoadSize(t))
    ensures env.load(mem, t, n, off) == Num(Word(g.image, LoadSize(t), U(64, n + off - GuestBase(env, g))))
  {}
}
