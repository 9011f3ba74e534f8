/** What the motion of condition-register stores does to a run: the stores that are still wanted, added again on their
    way out of the branch, leave every alias as it would have been. */
module CrMotion {
  import opened Rtl
  import opened Liveness
  import opened Semantics
  import opened Rewrite
  import opened Invariant
  import opened AliasLiveness
  import opened FoldVectors
  import opened CrStores
  import opened Unit

  // ---- Straight-line code ----

  /** Executing instructions from (inclusive) to "upto" (exclusive); None if one of them is undefined. */
  ghost function ExecRange(env: Env, d: Decl, insns: seq<Insn>, from: nat, upto: nat, s: State): Option<State>
    requires from <= upto <= |insns|
    requires forall i :: from <= i < upto ==> !EndsBlock(insns[i].op)
    decreases upto
  {
    if from == upto then Some(s)
    else
      match ExecRange(env, d, insns, from, upto - 1, s)
      case None => None
      case Some(t) => Exec(env, d, insns[upto - 1], t)
  }

  /** Code before (insns0) and after (insns) the stores of "bits" have been removed, in the block being translated,
      which starts at "from". */
  datatype Motion = Motion(
    d: Decl, insns0: seq<Insn>, regs0: seq<Reg>, last0: seq<int>, insns: seq<Insn>, regs: seq<Reg>, bits: set<int>,
    from: nat)

  /** The registers whose definitions are gone. */
  function Gone(m: Motion): set<nat> {
    set i | 0 <= i < |m.insns0| && i < |m.insns| && m.insns0[i].dest != 0 && m.insns[i] == NopInsn :: m.insns0[i].dest
  }

  /** The alias of a bit with a store. */
  function AliasOf(m: Motion, b: int): int
    requires |m.last0| == CR_BITS && 0 <= b < CR_BITS && IsStore(m.insns0, m.last0[b])
  {
    m.insns0[m.last0[b]].other
  }

  ghost predicate HasBit(m: Motion, b: int) {
    b in m.bits && |m.last0| == CR_BITS && 0 <= b < CR_BITS && IsStore(m.insns0, m.last0[b])
  }

  /** Nothing reads or sets the alias of bit b after its last store. */
  ghost predicate Undisturbed(m: Motion, b: int)
    requires HasBit(m, b)
  {
    forall j :: m.last0[b] < j < |m.insns0| ==>
      !UsesAlias(m.d, m.insns0[j], AliasOf(m, b)) && !SetsAlias(m.insns0[j], AliasOf(m, b))
  }

  /** What the translator sees to: the block so far is straight-line code, its stores are the last to their aliases, and
      the removed definitions are pure and belong to the block. */
  ghost predicate Moves(m: Motion) {
    && RangesOK(m.d, m.insns0, m.regs0) && RangesOK(m.d, m.insns, m.regs) && StoresOK(m.insns0, m.last0)
    && |m.insns| == |m.insns0| && m.from <= |m.insns0|
    && (forall i :: m.from <= i < |m.insns0| ==> !EndsBlock(m.insns0[i].op))
    && (forall b :: b in m.bits ==>
         HasBit(m, b) && m.from <= m.last0[b] && m.insns[m.last0[b]] == NopInsn && Undisturbed(m, b))
    && forall i :: 0 <= i < |m.insns| ==> m.insns[i] == m.insns0[i] || RemovedAt(m, i)
  }

  ghost predicate RemovedAt(m: Motion, i: int)
    requires 0 <= i < |m.insns0| == |m.insns|
  {
    && m.insns[i] == NopInsn && m.from <= i
    && ((IsPure(m.insns0[i].op) && m.insns0[i].dest != 0) || exists b :: HasBit(m, b) && i == m.last0[b])
  }

  /** The instructions as code, for what is known of pure definitions. */
  function Original(m: Motion): Code { Code(m.d, m.insns0, [], []) }

  /** The two runs before instruction i: they agree off the removed definitions and stores, and the original one holds
      what was stored, and what its pure definitions would compute now. */
  ghost predicate Shadow(env: Env, m: Motion, i: int, s: State, t: State) {
    && SameBut(Gone(m), s, t.(als := s.als))
    && (forall a :: AliasAgree(s, t, a) || StoreMoved(m, i, a))
    && (forall b :: HasBit(m, b) && m.last0[b] < i ==> StillHeld(m, b, s))
    && (forall k :: m.from <= k < i && PureDef(Original(m), k) ==> Holds(env, Original(m), k, s))
  }

  ghost predicate StoreMoved(m: Motion, i: int, a: int) {
    exists b :: HasBit(m, b) && m.last0[b] < i && AliasOf(m, b) == a
  }

  predicate StillHeld(m: Motion, b: int, s: State)
    requires |m.last0| == CR_BITS && 0 <= b < CR_BITS && IsStore(m.insns0, m.last0[b])
  {
    var r := ValueReg(m.insns0, m.last0, b);
    && r in s.regs && AliasOf(m, b) in s.als && s.als[AliasOf(m, b)] == s.regs[r]
    && (IsBound(m.d, AliasOf(m, b)) ==> m.d.base[AliasOf(m, b)] in s.regs)
  }

  /** The facts about instruction i that a step relies on. */
  lemma NewRegister(m: Motion, i: int)
    requires Moves(m) && 0 <= i < |m.insns0|
    ensures CleanInsn(m.d, m.insns0[i])
    ensures forall b :: HasBit(m, b) && m.last0[b] < i ==> ValueReg(m.insns0, m.last0, b) != m.insns0[i].dest
    ensures forall k, r :: 0 <= k <= i && Reads(m.d, m.insns0[k], r) ==> r != m.insns0[i].dest
    ensures forall k :: 0 <= k < i && m.insns0[i].dest != 0 ==> m.insns0[k].dest != m.insns0[i].dest
  {
    hide Reads, StoresOK, Unflagged, Tight;
    assert SsaOK(m.insns0, m.regs0) && Covers(m.d, m.insns0, m.regs0);
    forall b | HasBit(m, b) && m.last0[b] < i ensures ValueReg(m.insns0, m.last0, b) != m.insns0[i].dest {
      ValueRegLive(m.d, m.insns0, m.regs0, m.last0[b]);
    }
    forall k, r | 0 <= k <= i && Reads(m.d, m.insns0[k], r)
      ensures r != m.insns0[i].dest { ReadsSome(m.d, m.insns0[k], r); }
  }

  lemma ReadsSome(d: Decl, insn: Insn, r: int)
    requires Reads(d, insn, r)
    ensures r > 0
  {}

  /** Executing instruction i in the original run keeps what it held. */
  lemma HeldOn(env: Env, m: Motion, i: int, s: State, s': State)
    requires Moves(m) && m.from <= i < |m.insns0| && Exec(env, m.d, m.insns0[i], s) == Some(s')
    requires forall b :: HasBit(m, b) && m.last0[b] < i ==> StillHeld(m, b, s)
    requires forall k :: m.from <= k < i && PureDef(Original(m), k) ==> Holds(env, Original(m), k, s)
    ensures forall b :: HasBit(m, b) && m.last0[b] < i ==> StillHeld(m, b, s')
    ensures forall k :: m.from <= k < i + 1 && PureDef(Original(m), k) ==> Holds(env, Original(m), k, s')
  {
    hide Exec, Moves, Holds;
    assert !EndsBlock(m.insns0[i].op) by { Straight(m, i); }
    NewRegister(m, i);
    ExecOnlyWritesDest(env, m.d, m.insns0[i], s);
    forall b | HasBit(m, b) && m.last0[b] < i ensures StillHeld(m, b, s') {
      AliasKept(env, m, i, s, s', b);
      StoreReads(m, b);
    }
    forall k | m.from <= k < i + 1 && PureDef(Original(m), k) ensures Holds(env, Original(m), k, s') {
      HoldsOn(env, m, i, s, s', k);
    }
  }

  lemma StoreReads(m: Motion, b: int)
    requires HasBit(m, b)
    ensures Reads(m.d, m.insns0[m.last0[b]], ValueReg(m.insns0, m.last0, b))
    ensures IsBound(m.d, AliasOf(m, b)) ==> Reads(m.d, m.insns0[m.last0[b]], m.d.base[AliasOf(m, b)])
  {}

  lemma Straight(m: Motion, i: int)
    requires Moves(m) && m.from <= i < |m.insns0|
    ensures !EndsBlock(m.insns0[i].op) && (m.insns[i] == m.insns0[i] || RemovedAt(m, i))
    ensures !EndsBlock(m.insns[i].op) && |m.insns| == |m.insns0|
  {}

  lemma AliasKept(env: Env, m: Motion, i: int, s: State, s': State, b: int)
    requires Moves(m) && m.from <= i < |m.insns0| && !EndsBlock(m.insns0[i].op)
    requires Exec(env, m.d, m.insns0[i], s) == Some(s')
    requires HasBit(m, b) && m.last0[b] < i && StillHeld(m, b, s)
    ensures AliasOf(m, b) in s'.als && s'.als[AliasOf(m, b)] == s.als[AliasOf(m, b)]
  {
    hide PureResult;
    assert Undisturbed(m, b);
    assert !SetsAlias(m.insns0[i], AliasOf(m, b));
  }

  lemma HoldsOn(env: Env, m: Motion, i: int, s: State, s': State, k: int)
    requires Moves(m) && m.from <= i < |m.insns0| && !EndsBlock(m.insns0[i].op)
    requires Exec(env, m.d, m.insns0[i], s) == Some(s')
    requires m.from <= k <= i && PureDef(Original(m), k) && (k < i ==> Holds(env, Original(m), k, s))
    ensures Holds(env, Original(m), k, s')
  {
    hide PureResult, Moves, OperandsDefined;
    NewRegister(m, i);
    ExecOnlyWritesDest(env, m.d, m.insns0[i], s);
    if k == i {
      assert OperandsDefined(m.d, m.insns0[i], s)
          && s'.regs == s.regs[m.insns0[i].dest := PureResult(env, m.d, m.insns0[i], s).value];
    }
    forall r: nat | Reads(m.d, m.insns0[k], r) ensures r in s'.regs && (r in s.regs ==> s'.regs[r] == s.regs[r]) {
      assert r in s.regs by { assert OperandsDefined(m.d, m.insns0[k], s); OperandDefined(m.d, m.insns0[k], s, r); }
    }
    PureFrame(env, m.d, m.insns0[k], s, s');
  }

  lemma OperandDefined(d: Decl, insn: Insn, s: State, r: nat)
    requires OperandsDefined(d, insn, s) && Reads(d, insn, r)
    ensures r in s.regs
  {}

  // ---- The two runs side by side ----

  /** The trimmed run takes the step of an instruction that is still there, or none where one was removed. */
  lemma ShadowStep(env: Env, m: Motion, i: int, s: State, t: State, s': State)
    requires Moves(m) && m.from <= i < |m.insns0| && Shadow(env, m, i, s, t) && !EndsBlock(m.insns0[i].op)
    requires Exec(env, m.d, m.insns0[i], s) == Some(s')
    ensures |m.insns| == |m.insns0| && !EndsBlock(m.insns[i].op) && Exec(env, m.d, m.insns[i], t).Some?
    ensures Shadow(env, m, i + 1, s', Exec(env, m.d, m.insns[i], t).value)
  {
    hide Exec, Moves, Holds, SameBut, AliasAgree, Gone;
    Straight(m, i);
    HeldOn(env, m, i, s, s');
    if m.insns[i] == m.insns0[i] {
      StayingStep(env, m, i, s, t, s');
    } else {
      NopExec(env, m.d, t);
      RemovedStep(env, m, i, s, t, s');
    }
    forall b | HasBit(m, b) && m.last0[b] < i + 1 ensures StillHeld(m, b, s') {
      if m.last0[b] == i { StoredNow(env, m, b, s, s'); }
    }
  }

  lemma StoredNow(env: Env, m: Motion, b: int, s: State, s': State)
    requires HasBit(m, b) && Exec(env, m.d, m.insns0[m.last0[b]], s) == Some(s')
    ensures StillHeld(m, b, s')
  {
    StoreReads(m, b);
  }

  /** An instruction that stayed reads neither a register whose definition is gone nor an alias whose store is gone. */
  lemma StayingStep(env: Env, m: Motion, i: int, s: State, t: State, s': State)
    requires Moves(m) && m.from <= i < |m.insns0| == |m.insns| && !EndsBlock(m.insns0[i].op)
    requires m.insns[i] == m.insns0[i]
    requires SameBut(Gone(m), s, t.(als := s.als)) && (forall a :: AliasAgree(s, t, a) || StoreMoved(m, i, a))
    requires Exec(env, m.d, m.insns0[i], s) == Some(s')
    ensures Exec(env, m.d, m.insns[i], t).Some?
    ensures var t' := Exec(env, m.d, m.insns[i], t).value;
      SameBut(Gone(m), s', t'.(als := s'.als)) && forall a :: AliasAgree(s', t', a) || StoreMoved(m, i + 1, a)
  {
    hide Exec, Moves, SameBut, Gone, IsStore;
    var insn, u := m.insns0[i], t.(als := s.als);
    KeptSpares(m, i);
    ExecFrame(env, m.d, insn, Gone(m), s, u);
    KeptUses(m, i, s, t);
    ExecAliases(env, m.d, insn, u, t);
    var u', t' := Exec(env, m.d, insn, u).value, Exec(env, m.d, insn, t).value;
    ExecAliases(env, m.d, insn, u, u);
    AliasesOf(Gone(m), s', u');
    assert t'.(als := s'.als) == u';
    forall a ensures AliasAgree(s', t', a) || StoreMoved(m, i + 1, a) {
      assert AliasAgree(s, t, a) || StoreMoved(m, i, a);
    }
  }

  lemma AliasesOf(dead: set<nat>, s: State, t: State)
    requires SameBut(dead, s, t)
    ensures s.als == t.als && s.mem == t.mem
  {}

  lemma KeptSpares(m: Motion, i: int)
    requires Moves(m) && 0 <= i < |m.insns0| == |m.insns| && m.insns[i] == m.insns0[i]
    ensures 0 !in Gone(m) && Spares(m.d, m.insns0[i], Gone(m))
  {
    hide Reads, Unflagged, Tight, StoresOK;
    assert SsaOK(m.insns0, m.regs0) && SsaOK(m.insns, m.regs) && Covers(m.d, m.insns, m.regs);
    forall r: nat | Reads(m.d, m.insns0[i], r) ensures r !in Gone(m) {
      DefinitionThere(m, i, r);
    }
  }

  /** What the trimmed code reads, it defines. */
  lemma DefinitionThere(m: Motion, i: int, r: nat)
    requires Moves(m) && 0 <= i < |m.insns0| == |m.insns| && Reads(m.d, m.insns[i], r)
    ensures r !in Gone(m)
  {
    hide Reads, Unflagged, Tight, StoresOK;
    ReadsSome(m.d, m.insns[i], r);
    var j := m.regs[r].birth;
    assert m.regs[r].live && m.insns[j].dest == r && m.insns[j] != NopInsn && m.insns0[j].dest == r;
    forall k | 0 <= k < |m.insns0| && m.insns0[k].dest != 0 && m.insns[k] == NopInsn ensures m.insns0[k].dest != r {}
  }

  lemma KeptUses(m: Motion, i: int, s: State, t: State)
    requires Moves(m) && 0 <= i < |m.insns0| && forall a :: AliasAgree(s, t, a) || StoreMoved(m, i, a)
    ensures m.insns0[i].op.GET_ALIAS? ==> AliasAgree(s, t, m.insns0[i].other)
    ensures m.insns0[i].op.CALL? ==> BoundValues(m.d, s.als) == BoundValues(m.d, t.als)
  {
    var insn := m.insns0[i];
    forall a, b | UsesAlias(m.d, insn, a) && HasBit(m, b) && m.last0[b] < i ensures AliasOf(m, b) != a {
      assert Undisturbed(m, b);
    }
    forall a | UsesAlias(m.d, insn, a) ensures AliasAgree(s, t, a) { assert !StoreMoved(m, i, a); }
    if insn.op.CALL? {
      forall a | IsBound(m.d, a) ensures AliasAgree(s, t, a) { assert UsesAlias(m.d, insn, a); }
      assert BoundValues(m.d, s.als) == BoundValues(m.d, t.als);
    }
  }

  lemma RemovedStep(env: Env, m: Motion, i: int, s: State, t: State, s': State)
    requires Moves(m) && m.from <= i < |m.insns0| == |m.insns| && !EndsBlock(m.insns0[i].op) && RemovedAt(m, i)
    requires SameBut(Gone(m), s, t.(als := s.als)) && (forall a :: AliasAgree(s, t, a) || StoreMoved(m, i, a))
    requires Exec(env, m.d, m.insns0[i], s) == Some(s')
    ensures SameBut(Gone(m), s', t.(als := s'.als)) && forall a :: AliasAgree(s', t, a) || StoreMoved(m, i + 1, a)
  {
    hide Moves, SameBut, PureResult;
    var insn := m.insns0[i];
    if b :| HasBit(m, b) && i == m.last0[b] {
      assert s' == s.(als := s.als[insn.other := Get(s, insn.src1)]);
      ChangedAlias(Gone(m), s, t, s');
      assert AliasOf(m, b) == insn.other && StoreMoved(m, i + 1, insn.other);
      forall a ensures AliasAgree(s', t, a)
        || StoreMoved(m, i + 1, a) { assert AliasAgree(s, t, a) || StoreMoved(m, i, a); }
    } else {
      assert insn.dest in Gone(m);
      assert s'.als == s.als && s'.mem == s.mem;
      ExecWrites(env, m.d, insn, Gone(m), s, t.(als := s.als));
      forall a ensures AliasAgree(s', t, a)
        || StoreMoved(m, i + 1, a) { assert AliasAgree(s, t, a) || StoreMoved(m, i, a); }
    }
  }

  lemma ChangedAlias(dead: set<nat>, s: State, t: State, s': State)
    requires SameBut(dead, s, t.(als := s.als)) && s' == s.(als := s'.als)
    ensures SameBut(dead, s', t.(als := s'.als))
  {}

  /** The trimmed block runs whenever the original one does. */
  lemma {:induction false} ShadowRange(env: Env, m: Motion, upto: nat, s0: State)
    requires Moves(m) && m.from <= upto <= |m.insns0| == |m.insns|
    requires forall i :: m.from <= i < upto ==> !EndsBlock(m.insns0[i].op) && !EndsBlock(m.insns[i].op)
    requires ExecRange(env, m.d, m.insns0, m.from, upto, s0).Some?
    ensures ExecRange(env, m.d, m.insns, m.from, upto, s0).Some?
    ensures Shadow(env, m, upto, ExecRange(env, m.d, m.insns0, m.from, upto, s0).value,
                   ExecRange(env, m.d, m.insns, m.from, upto, s0).value)
    decreases upto
  {
    hide Shadow, Moves, Exec;
    if upto == m.from {
      ShadowStart(env, m, s0);
    } else {
      ShadowRange(env, m, upto - 1, s0);
      var s, t := ExecRange(env, m.d, m.insns0, m.from, upto - 1, s0).value,
        ExecRange(env, m.d, m.insns, m.from, upto - 1, s0).value;
      ShadowStep(env, m, upto - 1, s, t, Exec(env, m.d, m.insns0[upto - 1], s).value);
    }
  }

  lemma ShadowStart(env: Env, m: Motion, s: State)
    requires Moves(m)
    ensures Shadow(env, m, m.from, s, s)
  {
    hide Moves, Holds;
    assert s.(als := s.als) == s;
    forall b | HasBit(m, b) ensures m.from <= m.last0[b] { LaterStore(m, b); }
  }

  lemma LaterStore(m: Motion, b: int)
    requires Moves(m) && HasBit(m, b)
    ensures m.from <= m.last0[b]
  {}

  // ---- Adding stores on a way out ----

  /** What the translator adds for one bit: the saved definition, if it was taken out, and the store. */
  ghost function StoreAgain(env: Env, d: Decl, insn: Insn, reg: nat, alias: int, t: State): Option<State>
    requires !EndsBlock(insn.op)
  {
    match if insn.op.NOP? then Some(t) else Exec(env, d, insn, t)
    case None => None
    case Some(u) => Exec(env, d, Insn(SET_ALIAS, 0, reg, 0, alias), u)
  }

  /** The stores for the bits of "stored" below n, in ascending order. */
  ghost function StoreBits(
    env: Env, m: Motion, stored: set<int>, crbReg: seq<nat>, crbInsn: seq<Insn>, n: nat, t: State): Option<State>
    requires Savings(m, stored, crbReg, crbInsn) && n <= CR_BITS
  {
    if n == 0 then Some(t)
    else
      match StoreBits(env, m, stored, crbReg, crbInsn, n - 1, t)
      case None => None
      case Some(u) =>
        if n - 1 in stored then StoreAgain(env, m.d, crbInsn[n - 1], crbReg[n - 1], AliasOf(m, n - 1), u) else Some(u)
  }

  /** What was saved of the removed stores: for each its register, and its definition if that may be gone. */
  ghost predicate Savings(m: Motion, stored: set<int>, crbReg: seq<nat>, crbInsn: seq<Insn>) {
    && |crbReg| == |crbInsn| == CR_BITS && stored <= m.bits
    && forall b :: b in stored ==> HasBit(m, b) && SavedRight(m, b, crbReg[b], crbInsn[b])
  }

  ghost predicate SavedRight(m: Motion, b: int, reg: nat, insn: Insn)
    requires HasBit(m, b)
  {
    && reg == ValueReg(m.insns0, m.last0, b) && reg < |m.regs0| && 0 <= m.regs0[reg].birth < |m.insns0| == |m.insns|
    && var birth := m.regs0[reg].birth;
       && m.insns0[birth].dest == reg
       && if insn.op.NOP? then m.insns[birth] == m.insns0[birth]
          else insn == m.insns0[birth] && m.from <= birth && IsPure(insn.op)
  }

  /** Register r can be read when the store of bit n is added: its definition is there, or has been added with a lower
      bit. */
  predicate Available(m: Motion, stored: set<int>, crbReg: seq<nat>, crbInsn: seq<Insn>, n: int, r: nat)
    requires |crbReg| == |crbInsn| == CR_BITS
  {
    r in Gone(m) ==> exists b :: 0 <= b < n && b < CR_BITS && b in stored && crbReg[b] == r && !crbInsn[b].op.NOP?
  }

  /** Everything that is added finds its operands. */
  ghost predicate OperandsAvailable(m: Motion, stored: set<int>, crbReg: seq<nat>, crbInsn: seq<Insn>)
    requires Savings(m, stored, crbReg, crbInsn)
  {
    forall n :: n in stored ==> AvailableAt(m, stored, crbReg, crbInsn, n)
  }

  ghost predicate AvailableAt(m: Motion, stored: set<int>, crbReg: seq<nat>, crbInsn: seq<Insn>, n: int)
    requires Savings(m, stored, crbReg, crbInsn) && n in stored
  {
    && (!crbInsn[n].op.NOP? ==> forall r: nat :: Reads(m.d, crbInsn[n], r) ==>
         Available(m, stored, crbReg, crbInsn, n, r))
    && (IsBound(m.d, AliasOf(m, n)) ==> Available(m, stored, crbReg, crbInsn, n + 1, m.d.base[AliasOf(m, n)]))
  }

  /** The state on the way out once the bits below n have been treated, against the state of the original run. */
  ghost predicate Restored(
    m: Motion, stored: set<int>, crbReg: seq<nat>, crbInsn: seq<Insn>, n: int, s: State, u: State)
    requires Savings(m, stored, crbReg, crbInsn)
  {
    && u.mem == s.mem
    && (forall r: nat :: Available(m, stored, crbReg, crbInsn, n, r) ==>
         (r in s.regs <==> r in u.regs) && (r in s.regs ==> u.regs[r] == s.regs[r]))
    && (forall a :: AliasAgree(s, u, a) || exists b :: HasBit(m, b) && !(b in stored && b < n) && AliasOf(m, b) == a)
  }

  /** At the end of the block nothing has been added yet. */
  lemma RestoredStart(env: Env, m: Motion, stored: set<int>, crbReg: seq<nat>, crbInsn: seq<Insn>, s: State, t: State)
    requires Savings(m, stored, crbReg, crbInsn) && Shadow(env, m, |m.insns0|, s, t)
    ensures Restored(m, stored, crbReg, crbInsn, 0, s, t)
  {
    hide SavedRight, Gone;
    forall r: nat | Available(m, stored, crbReg, crbInsn, 0, r)
      ensures (r in s.regs <==> r in t.regs) && (r in s.regs ==> t.regs[r] == s.regs[r])
    {
      SameGet(Gone(m), s, t.(als := s.als), r);
    }
  }

  lemma NotStored(m: Motion, stored: set<int>, crbReg: seq<nat>, crbInsn: seq<Insn>, n: int, s: State, u: State)
    requires Savings(m, stored, crbReg, crbInsn) && Restored(m, stored, crbReg, crbInsn, n, s, u) && n !in stored
    ensures Restored(m, stored, crbReg, crbInsn, n + 1, s, u)
  {
    hide SavedRight, Gone;
    forall r: nat | Available(m, stored, crbReg, crbInsn, n + 1, r)
      ensures Available(m, stored, crbReg, crbInsn, n, r) {}
  }

  /** The definition, if it has to be added: its operands are as they were when it was executed. */
  lemma DefinitionAgain(
    env: Env, m: Motion, stored: set<int>, crbReg: seq<nat>, crbInsn: seq<Insn>, n: int, s: State, u: State)
    requires Moves(m) && Savings(m, stored, crbReg, crbInsn) && Restored(m, stored, crbReg, crbInsn, n, s, u)
    requires n in stored && AvailableAt(m, stored, crbReg, crbInsn, n) && StillHeld(m, n, s) && !crbInsn[n].op.NOP?
    requires forall k :: m.from <= k < |m.insns0| && PureDef(Original(m), k) ==> Holds(env, Original(m), k, s)
    ensures !EndsBlock(crbInsn[n].op)
    ensures Exec(env, m.d, crbInsn[n], u) == Some(u.(regs := u.regs[crbReg[n] := s.regs[crbReg[n]]]))
  {
    hide PureResult, StoresOK, OperandsDefined;
    var k := m.regs0[crbReg[n]].birth;
    assert SavedRight(m, n, crbReg[n], crbInsn[n]);
    assert crbReg[n] != 0;
    assert Holds(env, Original(m), k, s);
    forall r: nat | Reads(m.d, crbInsn[n], r) ensures r in u.regs && (r in s.regs ==> u.regs[r] == s.regs[r]) {
      OperandDefined(m.d, crbInsn[n], s, r);
    }
    PureFrame(env, m.d, crbInsn[n], s, u);
  }

  /** A register whose definition has not been taken out is ready. */
  lemma StandingAvailable(m: Motion, stored: set<int>, crbReg: seq<nat>, crbInsn: seq<Insn>, n: int)
    requires Moves(m) && Savings(m, stored, crbReg, crbInsn) && n in stored && crbInsn[n].op.NOP?
    ensures Available(m, stored, crbReg, crbInsn, n, crbReg[n])
  {
    hide StoresOK, Covers, Tight, Unflagged;
    assert SavedRight(m, n, crbReg[n], crbInsn[n]);
    var j := m.regs0[crbReg[n]].birth;
    assert m.insns0[j].dest == crbReg[n] && m.insns[j] == m.insns0[j];
    forall k | 0 <= k < |m.insns0| && m.insns0[k].dest != 0 && m.insns[k] == NopInsn
      ensures m.insns0[k].dest != crbReg[n] {}
  }

  lemma StoreDefined(env: Env, m: Motion, reg: nat, a: int, u: State)
    requires reg != 0 && a > 0 && reg in u.regs && (IsBound(m.d, a) ==> m.d.base[a] in u.regs)
    ensures Exec(env, m.d, Insn(SET_ALIAS, 0, reg, 0, a), u) == Some(u.(als := u.als[a := u.regs[reg]]))
  {}

  lemma StoreClean(m: Motion, b: int)
    requires Moves(m) && HasBit(m, b)
    ensures AliasOf(m, b) > 0
  {
    assert CleanInsn(m.d, m.insns0[m.last0[b]]);
  }

  /** One bit stored again. */
  lemma StoredAgain(
    env: Env, m: Motion, stored: set<int>, crbReg: seq<nat>, crbInsn: seq<Insn>, n: int, s: State, u: State)
    requires Moves(m) && Savings(m, stored, crbReg, crbInsn) && Restored(m, stored, crbReg, crbInsn, n, s, u)
    requires n in stored && AvailableAt(m, stored, crbReg, crbInsn, n) && HasBit(m, n) && StillHeld(m, n, s)
    requires forall k :: m.from <= k < |m.insns0| && PureDef(Original(m), k) ==> Holds(env, Original(m), k, s)
    ensures !EndsBlock(crbInsn[n].op)
    ensures var v := StoreAgain(env, m.d, crbInsn[n], crbReg[n], AliasOf(m, n), u);
      v.Some? && Restored(m, stored, crbReg, crbInsn, n + 1, s, v.value)
  {
    hide Exec, Moves, Holds, Gone;
    assert SavedRight(m, n, crbReg[n], crbInsn[n]);
    var reg, a := crbReg[n], AliasOf(m, n);
    var w := if crbInsn[n].op.NOP? then u else u.(regs := u.regs[reg := s.regs[reg]]);
    if crbInsn[n].op.NOP? {
      StandingAvailable(m, stored, crbReg, crbInsn, n);
    } else {
      DefinitionAgain(env, m, stored, crbReg, crbInsn, n, s, u);
    }
    forall r: nat | Available(m, stored, crbReg, crbInsn, n + 1, r)
      ensures (r in s.regs <==> r in w.regs) && (r in s.regs ==> w.regs[r] == s.regs[r])
    {
      if r != reg || crbInsn[n].op.NOP? { assert Available(m, stored, crbReg, crbInsn, n, r); }
    }
    assert a > 0 by { StoreClean(m, n); }
    StoreDefined(env, m, reg, a, w);
    hide Available;
    var v := w.(als := w.als[a := w.regs[reg]]);
    forall x ensures AliasAgree(s, v, x) || exists b ::
      HasBit(m, b) && !(b in stored && b < n + 1) && AliasOf(m, b) == x {
      if x != a && !AliasAgree(s, u, x) {
        var b :| HasBit(m, b) && !(b in stored && b < n) && AliasOf(m, b) == x;
        assert b != n;
      }
    }
  }

  lemma {:induction false} BitsRestored(
    env: Env, m: Motion, stored: set<int>, crbReg: seq<nat>, crbInsn: seq<Insn>, n: nat, s: State, t: State)
    requires Moves(m) && Savings(m, stored, crbReg, crbInsn) && OperandsAvailable(m, stored, crbReg, crbInsn)
    requires n <= CR_BITS
    requires Shadow(env, m, |m.insns0|, s, t)
    ensures var u := StoreBits(env, m, stored, crbReg, crbInsn, n, t);
      u.Some? && Restored(m, stored, crbReg, crbInsn, n, s, u.value)
  {
    hide Restored, StoreAgain, Moves, OperandsAvailable, Shadow, Savings;
    if n == 0 {
      RestoredStart(env, m, stored, crbReg, crbInsn, s, t);
    } else {
      BitsRestored(env, m, stored, crbReg, crbInsn, n - 1, s, t);
      BitStep(env, m, stored, crbReg, crbInsn, n - 1, s, t, StoreBits(env, m, stored, crbReg, crbInsn, n - 1, t).value);
    }
  }

  lemma BitStep(
    env: Env, m: Motion, stored: set<int>, crbReg: seq<nat>, crbInsn: seq<Insn>, n: nat, s: State, t: State, u: State)
    requires Moves(m) && Savings(m, stored, crbReg, crbInsn) && OperandsAvailable(m, stored, crbReg, crbInsn)
    requires n < CR_BITS
    requires Shadow(env, m, |m.insns0|, s, t) && Restored(m, stored, crbReg, crbInsn, n, s, u)
    ensures n in stored ==> HasBit(m, n) && !EndsBlock(crbInsn[n].op)
    ensures var v := if n in stored then StoreAgain(env, m.d, crbInsn[n], crbReg[n], AliasOf(m, n), u) else Some(u);
      v.Some? && Restored(m, stored, crbReg, crbInsn, n + 1, s, v.value)
  {
    hide Restored, StoreAgain, Moves, AvailableAt, SavedRight, StillHeld, Holds, SameBut, StoreMoved;
    if n in stored {
      assert HasBit(m, n) && AvailableAt(m, stored, crbReg, crbInsn, n);
      StoredAgain(env, m, stored, crbReg, crbInsn, n, s, u);
    } else {
      NotStored(m, stored, crbReg, crbInsn, n, s, u);
    }
  }

  lemma WholeBlock(m: Motion)
    requires Moves(m)
    ensures |m.insns| == |m.insns0| && m.from <= |m.insns0|
    ensures forall i :: m.from <= i < |m.insns0| ==> !EndsBlock(m.insns0[i].op) && !EndsBlock(m.insns[i].op)
  {
    forall i | m.from <= i < |m.insns0|
      ensures !EndsBlock(m.insns0[i].op) && !EndsBlock(m.insns[i].op) { Straight(m, i); }
  }

  /** The original block runs to its end. */
  ghost predicate RunsThrough(env: Env, m: Motion, s0: State)
    requires Moves(m)
  {
    WholeBlock(m);
    ExecRange(env, m.d, m.insns0, m.from, |m.insns0|, s0).Some?
  }

  /** What the trimmed block and the stores added on a way out lead to. */
  ghost function WayOut(
    env: Env, m: Motion, stored: set<int>, crbReg: seq<nat>, crbInsn: seq<Insn>, s0: State): Option<State>
    requires Moves(m) && Savings(m, stored, crbReg, crbInsn)
  {
    WholeBlock(m);
    match ExecRange(env, m.d, m.insns, m.from, |m.insns|, s0)
    case None => None
    case Some(t) => StoreBits(env, m, stored, crbReg, crbInsn, CR_BITS, t)
  }

  ghost predicate Completes(env: Env, m: Motion, stored: set<int>, crbReg: seq<nat>, crbInsn: seq<Insn>, s0: State)
    requires Moves(m) && Savings(m, stored, crbReg, crbInsn)
  {
    WayOut(env, m, stored, crbReg, crbInsn, s0).Some?
  }

  /** They lead to the memory, the aliases (but those of the bits that are dead there) and the registers (but those
      whose definitions were removed) of the original block. */
  ghost predicate Restores(env: Env, m: Motion, stored: set<int>, crbReg: seq<nat>, crbInsn: seq<Insn>, s0: State)
    requires Moves(m) && Savings(m, stored, crbReg, crbInsn) && RunsThrough(env, m, s0)
  {
    WholeBlock(m);
    Completes(env, m, stored, crbReg, crbInsn, s0) &&
    SameOutside(m, stored, ExecRange(env, m.d, m.insns0, m.from, |m.insns0|, s0).value,
                WayOut(env, m, stored, crbReg, crbInsn, s0).value)
  }

  ghost predicate SameOutside(m: Motion, stored: set<int>, s: State, u: State) {
    && u.mem == s.mem
    && (forall a :: AliasAgree(s, u, a) || exists b :: HasBit(m, b) && b !in stored && AliasOf(m, b) == a)
    && forall r: nat :: r !in Gone(m) ==> (r in s.regs <==> r in u.regs) && (r in s.regs ==> u.regs[r] == s.regs[r])
  }

  /** The stores removed before the branch and added again on one way out of it leave memory, every alias but those of
      the bits that are dead there, and every register that is still defined as the original code does. */
  lemma MotionRestores(env: Env, m: Motion, stored: set<int>, crbReg: seq<nat>, crbInsn: seq<Insn>, s0: State)
    requires Moves(m) && Savings(m, stored, crbReg, crbInsn) && OperandsAvailable(m, stored, crbReg, crbInsn)
    requires RunsThrough(env, m, s0)
    ensures Restores(env, m, stored, crbReg, crbInsn, s0)
  {
    hide Moves, Savings, OperandsAvailable, Shadow, Gone, StoreBits, ExecRange, SameOutside, Restored;
    WholeBlock(m);
    ShadowRange(env, m, |m.insns0|, s0);
    var s, t := ExecRange(env, m.d, m.insns0, m.from, |m.insns0|, s0).value,
      ExecRange(env, m.d, m.insns, m.from, |m.insns|, s0).value;
    BitsRestored(env, m, stored, crbReg, crbInsn, CR_BITS, s, t);
    AllRestored(m, stored, crbReg, crbInsn, s, StoreBits(env, m, stored, crbReg, crbInsn, CR_BITS, t).value);
  }

  lemma AllRestored(m: Motion, stored: set<int>, crbReg: seq<nat>, crbInsn: seq<Insn>, s: State, u: State)
    requires Savings(m, stored, crbReg, crbInsn) && Restored(m, stored, crbReg, crbInsn, CR_BITS, s, u)
    ensures SameOutside(m, stored, s, u)
  {
    hide SavedRight, Gone;
    forall a ensures AliasAgree(s, u, a) || exists b :: HasBit(m, b) && b !in stored && AliasOf(m, b) == a {
      if !AliasAgree(s, u, a) {
        var b :| HasBit(m, b) && !(b in stored && b < CR_BITS) && AliasOf(m, b) == a;
        assert b !in stored;
      }
    }
    forall r: nat | r !in Gone(m) ensures (r in s.regs <==> r in u.regs) && (r in s.regs ==> u.regs[r] == s.regs[r]) {
      assert Available(m, stored, crbReg, crbInsn, CR_BITS, r);
    }
  }

  // ---- When adding the stores is possible at all ----

  /** Registers that are not ready do not exist on the way out. */
  ghost predicate Absent(m: Motion, stored: set<int>, crbReg: seq<nat>, crbInsn: seq<Insn>, n: int, u: State)
    requires |crbReg| == |crbInsn| == CR_BITS
  {
    forall r: nat :: !Available(m, stored, crbReg, crbInsn, n, r) ==> r !in u.regs
  }

  lemma {:induction false} GoneAbsent(env: Env, m: Motion, upto: nat, s0: State, r: nat)
    requires Moves(m) && m.from <= upto <= |m.insns| && (forall i :: m.from <= i < upto ==> !EndsBlock(m.insns[i].op))
    requires ExecRange(env, m.d, m.insns, m.from, upto, s0).Some? && r in Gone(m) && r !in s0.regs
    ensures r !in ExecRange(env, m.d, m.insns, m.from, upto, s0).value.regs
    decreases upto
  {
    if upto > m.from {
      GoneAbsent(env, m, upto - 1, s0, r);
      var t := ExecRange(env, m.d, m.insns, m.from, upto - 1, s0).value;
      hide Exec, ExecRange, Gone;
      GoneNotSet(m, upto - 1, r);
      ExecOnlyWritesDest(env, m.d, m.insns[upto - 1], t);
    }
  }

  lemma GoneNotSet(m: Motion, i: int, r: nat)
    requires Moves(m) && 0 <= i < |m.insns| && r in Gone(m)
    ensures m.insns[i].dest != r
  {
    hide Covers, Tight, Unflagged, StoresOK;
    var k :| 0 <= k < |m.insns0| && m.insns0[k].dest != 0 && m.insns[k] == NopInsn && m.insns0[k].dest == r;
    assert m.insns[i] == m.insns0[i] || m.insns[i].dest == 0;
  }

  /** A bit that is not ready cannot be stored. */
  lemma NotAvailable(env: Env, m: Motion, stored: set<int>, crbReg: seq<nat>, crbInsn: seq<Insn>, n: int, u: State)
    requires Moves(m) && Savings(m, stored, crbReg, crbInsn) && n in stored && HasBit(m, n) && !EndsBlock(crbInsn[n].op)
    requires Absent(m, stored, crbReg, crbInsn, n, u) && !AvailableAt(m, stored, crbReg, crbInsn, n)
    ensures StoreAgain(env, m.d, crbInsn[n], crbReg[n], AliasOf(m, n), u).None?
  {
    hide Moves, Gone, PureResult;
    assert SavedRight(m, n, crbReg[n], crbInsn[n]);
    if r: nat :| !crbInsn[n].op.NOP? && Reads(m.d, crbInsn[n], r) && !Available(m, stored, crbReg, crbInsn, n, r) {
      assert !OperandsDefined(m.d, crbInsn[n], u);
    } else {
      var base := m.d.base[AliasOf(m, n)];
      var store := Insn(SET_ALIAS, 0, crbReg[n], 0, AliasOf(m, n));
      assert Reads(m.d, store, base) && !Available(m, stored, crbReg, crbInsn, n + 1, base);
      BaseAbsent(env, m, stored, crbReg, crbInsn, n, u, base);
    }
  }

  lemma BaseAbsent(
    env: Env, m: Motion, stored: set<int>, crbReg: seq<nat>, crbInsn: seq<Insn>, n: int, u: State, base: nat)
    requires Savings(m, stored, crbReg, crbInsn) && n in stored && !EndsBlock(crbInsn[n].op) && HasBit(m, n)
    requires Absent(m, stored, crbReg, crbInsn, n, u) && !Available(m, stored, crbReg, crbInsn, n + 1, base)
    requires Reads(m.d, Insn(SET_ALIAS, 0, crbReg[n], 0, AliasOf(m, n)), base)
    ensures StoreAgain(env, m.d, crbInsn[n], crbReg[n], AliasOf(m, n), u).None?
  {
    hide PureResult, Gone;
    assert SavedRight(m, n, crbReg[n], crbInsn[n]);
    assert !Available(m, stored, crbReg, crbInsn, n, base);
    assert !crbInsn[n].op.NOP? ==> base != crbReg[n];
    ExecOnlyWritesDest(env, m.d, crbInsn[n], u);
    var o := if crbInsn[n].op.NOP? then Some(u) else Exec(env, m.d, crbInsn[n], u);
    if o.Some? { assert base !in o.value.regs; }
  }

  lemma StillAbsent(env: Env, m: Motion, stored: set<int>, crbReg: seq<nat>, crbInsn: seq<Insn>, n: int, u: State)
    requires Savings(m, stored, crbReg, crbInsn) && n in stored && !EndsBlock(crbInsn[n].op) && HasBit(m, n)
    requires Absent(m, stored, crbReg, crbInsn, n, u)
    ensures var v := StoreAgain(env, m.d, crbInsn[n], crbReg[n], AliasOf(m, n), u);
      v.Some? ==> Absent(m, stored, crbReg, crbInsn, n + 1, v.value)
  {
    hide PureResult, Gone;
    assert SavedRight(m, n, crbReg[n], crbInsn[n]);
    ExecOnlyWritesDest(env, m.d, crbInsn[n], u);
    var v := StoreAgain(env, m.d, crbInsn[n], crbReg[n], AliasOf(m, n), u);
    if v.Some? {
      forall r: nat | !Available(m, stored, crbReg, crbInsn, n + 1, r) ensures r !in v.value.regs {
        assert !Available(m, stored, crbReg, crbInsn, n, r);
      }
    }
  }

  lemma {:induction false} BitsAvailable(
    env: Env, m: Motion, stored: set<int>, crbReg: seq<nat>, crbInsn: seq<Insn>, n: nat, t: State)
    requires Moves(m) && Savings(m, stored, crbReg, crbInsn) && n <= CR_BITS && Absent(m, stored, crbReg, crbInsn, 0, t)
    ensures var u := StoreBits(env, m, stored, crbReg, crbInsn, n, t);
      u.Some? ==> Absent(m, stored, crbReg, crbInsn, n, u.value)
                  && forall b :: b in stored && b < n ==> AvailableAt(m, stored, crbReg, crbInsn, b)
  {
    hide Absent, StoreAgain, Moves, AvailableAt, Available, SavedRight;
    AllBits(m, stored, crbReg, crbInsn);
    if n > 0 {
      BitsAvailable(env, m, stored, crbReg, crbInsn, n - 1, t);
      var v := StoreBits(env, m, stored, crbReg, crbInsn, n - 1, t);
      if v.Some? { BitAvailable(env, m, stored, crbReg, crbInsn, n - 1, v.value); }
    }
  }

  lemma BitAvailable(env: Env, m: Motion, stored: set<int>, crbReg: seq<nat>, crbInsn: seq<Insn>, n: nat, u: State)
    requires Moves(m) && Savings(m, stored, crbReg, crbInsn) && n < CR_BITS && Absent(m, stored, crbReg, crbInsn, n, u)
    ensures n in stored ==> HasBit(m, n) && !EndsBlock(crbInsn[n].op)
    ensures var v := if n in stored then StoreAgain(env, m.d, crbInsn[n], crbReg[n], AliasOf(m, n), u) else Some(u);
      v.Some? ==> Absent(m, stored, crbReg, crbInsn, n + 1, v.value) && (n in stored ==>
          AvailableAt(m, stored, crbReg, crbInsn, n))
  {
    hide Absent, StoreAgain, Moves, AvailableAt, Available;
    if n in stored {
      assert HasBit(m, n) && SavedRight(m, n, crbReg[n], crbInsn[n]);
      if !AvailableAt(m, stored, crbReg, crbInsn, n) { NotAvailable(env, m, stored, crbReg, crbInsn, n, u); }
      StillAbsent(env, m, stored, crbReg, crbInsn, n, u);
    } else {
      AbsentOn(m, stored, crbReg, crbInsn, n, u);
    }
  }

  lemma AbsentOn(m: Motion, stored: set<int>, crbReg: seq<nat>, crbInsn: seq<Insn>, n: int, u: State)
    requires |crbReg| == |crbInsn| == CR_BITS && n !in stored && Absent(m, stored, crbReg, crbInsn, n, u)
    ensures Absent(m, stored, crbReg, crbInsn, n + 1, u)
  {
    hide Gone;
    forall r: nat | !Available(m, stored, crbReg, crbInsn, n + 1, r) ensures r !in u.regs {
      assert !Available(m, stored, crbReg, crbInsn, n, r);
    }
  }

  /** Unless an earlier round of a loop has left old values in the removed registers, adding the stores in ascending
      order of their bits works exactly if no definition that is added reads a register whose own definition was taken
      out with a higher bit, or for the other way out. */
  lemma MotionExact(env: Env, m: Motion, stored: set<int>, crbReg: seq<nat>, crbInsn: seq<Insn>, s0: State)
    requires Moves(m) && Savings(m, stored, crbReg, crbInsn) && RunsThrough(env, m, s0)
    requires forall r <- Gone(m) :: r !in s0.regs
    ensures Completes(env, m, stored, crbReg, crbInsn, s0) <==> OperandsAvailable(m, stored, crbReg, crbInsn)
  {
    hide Moves, Savings, Shadow, Gone, StoreBits, AvailableAt, ExecRange;
    WholeBlock(m);
    ShadowRange(env, m, |m.insns0|, s0);
    var t := ExecRange(env, m.d, m.insns, m.from, |m.insns|, s0).value;
    if OperandsAvailable(m, stored, crbReg, crbInsn) {
      BitsRestored(env, m, stored, crbReg, crbInsn, CR_BITS,
                   ExecRange(env, m.d, m.insns0, m.from, |m.insns0|, s0).value, t);
    } else {
      forall r: nat | r in Gone(m) ensures r !in t.regs { GoneAbsent(env, m, |m.insns|, s0, r); }
      NothingAvailable(m, stored, crbReg, crbInsn, t);
      BitsAvailable(env, m, stored, crbReg, crbInsn, CR_BITS, t);
      AllBits(m, stored, crbReg, crbInsn);
    }
  }

  /** In every round of a loop, whatever is left in the removed registers: the way out restores what the original block
      leaves, from every state that block can run from, if and only if everything that is added finds its operands. */
  lemma MotionEver(env: Env, m: Motion, stored: set<int>, crbReg: seq<nat>, crbInsn: seq<Insn>)
    requires Moves(m) && Savings(m, stored, crbReg, crbInsn) && exists s0 :: RunsThrough(env, m, s0)
    ensures OperandsAvailable(m, stored, crbReg, crbInsn) <==>
            forall s0 :: RunsThrough(env, m, s0) ==> Restores(env, m, stored, crbReg, crbInsn, s0)
  {
    hide Moves, Savings, OperandsAvailable, RunsThrough, Completes, SameOutside, Gone;
    if OperandsAvailable(m, stored, crbReg, crbInsn) {
      forall s0 | RunsThrough(env, m, s0) ensures Restores(env, m, stored, crbReg, crbInsn, s0) {
        MotionRestores(env, m, stored, crbReg, crbInsn, s0);
      }
    } else {
      var s0 :| RunsThrough(env, m, s0);
      var first := FirstRound(m, s0);
      RunsFirst(env, m, s0);
      MotionExact(env, m, stored, crbReg, crbInsn, first);
      assert !Restores(env, m, stored, crbReg, crbInsn, first);
    }
  }

  /** The state without the registers that the removed definitions set. */
  function FirstRound(m: Motion, s: State): (t: State)
    ensures forall r <- Gone(m) :: r !in t.regs
  {
    s.(regs := s.regs - Gone(m))
  }

  /** The block sets these registers before it reads them. */
  lemma RunsFirst(env: Env, m: Motion, s0: State)
    requires Moves(m) && RunsThrough(env, m, s0)
    ensures RunsThrough(env, m, FirstRound(m, s0))
  {
    hide Moves, Gone;
    WholeBlock(m);
    AllFrom(m);
    assert FirstRound(m, s0).regs - Gone(m) == s0.regs - Gone(m);
    FirstRange(env, m, |m.insns0|, s0, FirstRound(m, s0));
  }

  /** The registers whose removed definitions are not before instruction i. */
  function GoneFrom(m: Motion, i: int): set<nat> {
    set r | r in Gone(m) && !(exists k :: 0 <= k < i && k < |m.insns0| && m.insns0[k].dest == r)
  }

  lemma AllFrom(m: Motion)
    requires Moves(m)
    ensures GoneFrom(m, m.from) == Gone(m) && 0 !in Gone(m)
  {
    hide RangesOK, StoresOK;
    forall r | r in Gone(m) ensures r in GoneFrom(m, m.from) {
      var i :| 0 <= i < |m.insns0| && i < |m.insns| && m.insns0[i].dest != 0 && m.insns[i] == NopInsn
        && m.insns0[i].dest == r;
      assert RemovedAt(m, i);
      forall k | 0 <= k < m.from && k < |m.insns0| ensures m.insns0[k].dest != r { NewRegister(m, i); }
    }
  }

  lemma {:induction false} FirstRange(env: Env, m: Motion, upto: nat, s0: State, t0: State)
    requires Moves(m) && m.from <= upto <= |m.insns0| && SameBut(GoneFrom(m, m.from), s0, t0) && 0 !in Gone(m)
    requires forall i :: m.from <= i < upto ==> !EndsBlock(m.insns0[i].op)
    requires ExecRange(env, m.d, m.insns0, m.from, upto, s0).Some?
    ensures ExecRange(env, m.d, m.insns0, m.from, upto, t0).Some?
    ensures SameBut(GoneFrom(m, upto), ExecRange(env, m.d, m.insns0, m.from, upto, s0).value,
                    ExecRange(env, m.d, m.insns0, m.from, upto, t0).value)
    decreases upto
  {
    hide Moves, Exec, SameBut, Gone, GoneFrom;
    if upto > m.from {
      FirstRange(env, m, upto - 1, s0, t0);
      FirstStep(env, m, upto - 1, ExecRange(env, m.d, m.insns0, m.from, upto - 1, s0).value,
                ExecRange(env, m.d, m.insns0, m.from, upto - 1, t0).value);
    }
  }

  lemma FirstStep(env: Env, m: Motion, i: nat, s: State, t: State)
    requires Moves(m) && i < |m.insns0| && !EndsBlock(m.insns0[i].op) && SameBut(GoneFrom(m, i), s, t) && 0 !in Gone(m)
    requires Exec(env, m.d, m.insns0[i], s).Some?
    ensures Exec(env, m.d, m.insns0[i], t).Some?
    ensures SameBut(GoneFrom(m, i + 1), Exec(env, m.d, m.insns0[i], s).value, Exec(env, m.d, m.insns0[i], t).value)
  {
    hide Moves, Exec, SameBut, Gone, Reads;
    var dead, insn := GoneFrom(m, i), m.insns0[i];
    forall r: nat | Reads(m.d, insn, r) ensures r !in dead { ReadEarlier(m, i, r); }
    ExecFrame(env, m.d, insn, dead, s, t);
    forall r | r in dead && r != insn.dest ensures r in GoneFrom(m, i + 1) {}
    if insn.dest in dead {
      GoneIsPure(m, i);
      SameDest(env, m.d, insn, dead, s, t);
    }
    Narrowed(dead, GoneFrom(m, i + 1), insn.dest, Exec(env, m.d, insn, s).value, Exec(env, m.d, insn, t).value);
  }

  lemma ReadEarlier(m: Motion, i: nat, r: nat)
    requires Moves(m) && i < |m.insns0| && Reads(m.d, m.insns0[i], r)
    ensures r !in GoneFrom(m, i)
  {
    hide Reads, StoresOK, Unflagged, Tight, Gone;
    assert Covers(m.d, m.insns0, m.regs0) && SsaOK(m.insns0, m.regs0);
    ReadsSome(m.d, m.insns0[i], r);
    assert m.insns0[m.regs0[r].birth].dest == r;
  }

  lemma GoneIsPure(m: Motion, i: nat)
    requires Moves(m) && i < |m.insns0| && m.insns0[i].dest in Gone(m) && m.insns0[i].dest != 0
    ensures IsPure(m.insns0[i].op)
  {
    hide RangesOK, StoresOK;
    var k :| 0 <= k < |m.insns0| && k < |m.insns| && m.insns0[k].dest != 0 && m.insns[k] == NopInsn
      && m.insns0[k].dest == m.insns0[i].dest;
    NewRegister(m, if k < i then i else k);
    forall b | HasBit(m, b) ensures m.insns0[m.last0[b]].dest == 0 { NewRegister(m, m.last0[b]); }
    assert k == i && m.insns[i] != m.insns0[i] && RemovedAt(m, i);
  }

  lemma SameDest(env: Env, d: Decl, insn: Insn, dead: set<nat>, s: State, t: State)
    requires SameBut(dead, s, t) && Spares(d, insn, dead) && IsPure(insn.op) && Exec(env, d, insn, s).Some?
    ensures Exec(env, d, insn, t).Some?
    ensures insn.dest in Exec(env, d, insn, s).value.regs && insn.dest in Exec(env, d, insn, t).value.regs
    ensures Exec(env, d, insn, s).value.regs[insn.dest] == Exec(env, d, insn, t).value.regs[insn.dest]
  {
    hide PureResult, Reads, SameBut;
    forall r: nat | Reads(d, insn, r) ensures r in t.regs && (r in s.regs ==> t.regs[r] == s.regs[r]) {
      OperandDefined(d, insn, s, r);
      SameGet(dead, s, t, r);
      ReadsSome(d, insn, r);
      KeptRegister(dead, s, t, r);
    }
    PureFrame(env, d, insn, s, t);
  }

  lemma KeptRegister(dead: set<nat>, s: State, t: State, r: nat)
    requires SameBut(dead, s, t) && r !in dead
    ensures (r in s.regs <==> r in t.regs) && (r in s.regs ==> t.regs[r] == s.regs[r])
  {
    assert r in s.regs - dead <==> r in t.regs - dead;
    if r in s.regs { assert (s.regs - dead)[r] == (t.regs - dead)[r]; }
  }

  lemma Narrowed(dead: set<nat>, dead': set<nat>, r: nat, s: State, t: State)
    requires SameBut(dead, s, t) && forall q :: q in dead && q != r ==> q in dead'
    requires r in dead ==> r in s.regs && r in t.regs && s.regs[r] == t.regs[r]
    ensures SameBut(dead', s, t)
  {
    forall q | q in s.regs.Keys + t.regs.Keys && q !in dead'
      ensures (q in s.regs <==> q in t.regs) && (q in s.regs ==> s.regs[q] == t.regs[q])
    {
      if q !in dead { KeptRegister(dead, s, t, q); }
    }
    assert s.regs - dead' == t.regs - dead';
  }

  lemma NothingAvailable(m: Motion, stored: set<int>, crbReg: seq<nat>, crbInsn: seq<Insn>, t: State)
    requires Savings(m, stored, crbReg, crbInsn) && forall r <- Gone(m) :: r !in t.regs
    ensures |crbReg| == |crbInsn| == CR_BITS && Absent(m, stored, crbReg, crbInsn, 0, t)
  {
    hide Gone, SavedRight;
  }

  lemma AllBits(m: Motion, stored: set<int>, crbReg: seq<nat>, crbInsn: seq<Insn>)
    requires Savings(m, stored, crbReg, crbInsn)
    ensures forall b <- stored :: 0 <= b < CR_BITS
  {
    hide SavedRight;
    forall b | b in stored ensures 0 <= b < CR_BITS { assert HasBit(m, b); }
  }

  // ---- What guest_ppc_trim_cr_stores leaves behind is such a motion ----

  /** The definitions that are removed, or saved, are pure and belong to the block. */
  ghost predicate PureValues(m: Motion, spared: int) {
    forall b :: HasBit(m, b) && b != spared ==>
      var r := ValueReg(m.insns0, m.last0, b);
      r < |m.regs0| && m.from <= m.regs0[r].birth < |m.insns0| && IsPure(m.insns0[m.regs0[r].birth].op)
  }

  lemma TrimIsMotion(m: Motion, lastSet: seq<int>, spared: int, stored: set<int>, crbReg: seq<nat>, crbInsn: seq<Insn>)
    requires RangesOK(m.d, m.insns0, m.regs0) && StoresOK(m.insns0, m.last0)
    requires Trimmed(m.d, m.insns0, m.regs0, m.last0, m.insns, m.regs, lastSet, m.bits, spared)
    requires AllSaved(m.insns0, m.regs0, m.last0, m.insns, spared, stored, crbReg, crbInsn) && stored <= m.bits
    requires m.from <= |m.insns0| && (forall i :: m.from <= i < |m.insns0| ==> !EndsBlock(m.insns0[i].op))
    requires forall b :: b in m.bits && HasBit(m, b) ==> m.from <= m.last0[b] && Undisturbed(m, b)
    requires PureValues(m, spared)
    ensures Moves(m) && Savings(m, stored, crbReg, crbInsn)
  {
    hide RangesOK, StoresOK, Undisturbed;
    forall b | b in m.bits ensures HasBit(m, b) {}
    forall i | 0 <= i < |m.insns| ensures m.insns[i] == m.insns0[i] || RemovedAt(m, i) {
      if m.insns[i] != m.insns0[i] { RemovedHow(m, lastSet, spared, i); }
    }
    forall b | b in stored ensures HasBit(m, b) && SavedRight(m, b, crbReg[b], crbInsn[b]) {
      assert SavedBit(m.insns0, m.regs0, m.last0, m.insns, spared, b, crbReg[b], crbInsn[b]);
    }
  }

  lemma RemovedHow(m: Motion, lastSet: seq<int>, spared: int, i: int)
    requires RangesOK(m.d, m.insns0, m.regs0)
    requires Trimmed(m.d, m.insns0, m.regs0, m.last0, m.insns, m.regs, lastSet, m.bits, spared)
    requires forall b :: b in m.bits && HasBit(m, b) ==> m.from <= m.last0[b]
    requires PureValues(m, spared) && 0 <= i < |m.insns| && m.insns[i] != m.insns0[i]
    ensures RemovedAt(m, i)
  {
    hide RangesOK;
    assert MayGo(m.insns0, m.regs0, m.last0, m.bits, spared, i);
    var b :| b in m.bits && 0 <= b < CR_BITS && IsStore(m.insns0, m.last0[b]) &&
      (i == m.last0[b] || (b != spared && GoesWith(m.insns0, m.regs0, m.last0, b, i)));
    assert HasBit(m, b);
    if i != m.last0[b] {
      ValueRegLive(m.d, m.insns0, m.regs0, m.last0[b]);
      DefinitionIsNoStore(m.d, m.insns0, m.regs0, m.last0[b], ValueReg(m.insns0, m.last0, b));
    }
  }

  // ---- A motion that cannot be completed ----

  /** r1 = argument 0; r2 = NOT r1; bit 0's alias (1) = r2; bit 1's alias (2) = r1. */
  const TwoBits: seq<Insn> :=
    [Insn(LOAD_ARG, 1, 0, 0, 0), Insn(ALU1(NOT), 2, 1, 0, 0), Insn(SET_ALIAS, 0, 2, 0, 1), Insn(SET_ALIAS, 0, 1, 0, 2)]

  const TwoDecl: Decl := Decl([INT32, INT32, INT32], [0, 0, 0])

  const TwoRegs: seq<Reg> := [UndefinedReg, Reg(FUNC_ARG, 0, true, 0, 3), Reg(RESULT, 0, true, 1, 2)]

  lemma TwoClean()
    ensures Clean(TwoDecl, TwoBits) && Unflagged(TwoBits)
  {}

  lemma TwoRanges()
    ensures RangesOK(TwoDecl, TwoBits, TwoRegs)
  {
    hide Clean, Unflagged;
    TwoClean();
    assert Names(TwoDecl, TwoBits[3], 1) && Names(TwoDecl, TwoBits[2], 2);
  }

  lemma TwoReaders()
    ensures OnlyReader(TwoDecl, TwoBits, 2, 2)
    ensures OnlyReader(TwoDecl, TwoBits[2 := NopInsn][1 := NopInsn], 1, 3)
  {}

  const AllNops: seq<Insn> := [NopInsn, NopInsn, NopInsn, NopInsn]

  /** The turn of bit 0 takes away the other reader of bit 1's value. */
  lemma TwoTurns()
    ensures AfterBits(TwoDecl, TwoBits, TwoRegs, Slots(2, 3, -1), {0, 1}, -1, CR_BITS) == AllNops
    ensures AfterBits(TwoDecl, TwoBits, TwoRegs, Slots(2, 3, -1), {}, -1, CR_BITS) == TwoBits
  {
    hide OnlyReader;
    var last := Slots(2, 3, -1);
    TwoReaders();
    SkippedBits(TwoDecl, TwoBits, TwoRegs, last, {}, -1, 0, CR_BITS);
    SkippedBits(TwoDecl, TwoBits, TwoRegs, last, {0, 1}, -1, 2, CR_BITS);
    hide AfterBits;
    FirstTurn(last);
    SecondTurn(last);
    NextTurn(TwoDecl, TwoBits, TwoRegs, last, {0, 1}, -1, 0);
    NextTurn(TwoDecl, TwoBits, TwoRegs, last, {0, 1}, -1, 1);
  }

  lemma NextTurn(d: Decl, insns: seq<Insn>, regs: seq<Reg>, lastSet: seq<int>, bits: set<int>, spared: int, b: nat)
    requires |lastSet| == CR_BITS && b < CR_BITS && b in bits
    ensures AfterBits(d, insns, regs, lastSet, bits, spared, 0) == insns
    ensures AfterBits(d, insns, regs, lastSet, bits, spared, b + 1)
         == AfterBit(d, AfterBits(d, insns, regs, lastSet, bits, spared, b), regs, lastSet, spared, b)
  {
    hide AfterBit;
  }

  lemma FirstTurn(last: seq<int>)
    requires last == Slots(2, 3, -1) && OnlyReader(TwoDecl, TwoBits, 2, 2)
    ensures AfterBit(TwoDecl, TwoBits, TwoRegs, last, -1, 0) == TwoBits[2 := NopInsn][1 := NopInsn]
  {
    hide OnlyReader;
    assert IsStore(TwoBits, 2);
  }

  lemma SecondTurn(last: seq<int>)
    requires last == Slots(2, 3, -1) && OnlyReader(TwoDecl, TwoBits[2 := NopInsn][1 := NopInsn], 1, 3)
    ensures AfterBit(TwoDecl, TwoBits[2 := NopInsn][1 := NopInsn], TwoRegs, last, -1, 1) == AllNops
  {
    hide OnlyReader;
    var insns := TwoBits[2 := NopInsn][1 := NopInsn];
    assert IsStore(insns, 3);
    assert insns[3 := NopInsn][0 := NopInsn] == AllNops;
  }

  /** guest_ppc_trim_cr_stores before a branch (BO = 16) whose fall-through overwrites both bits: both definitions are
      taken out, to be added where the branch goes, but the one to be added first reads the other's register. */
  method TakeBoth() returns (unit: RtlUnit, crbReg: array<nat>, crbInsn: array<Insn>, stored: set<int>)
    ensures fresh(unit) && unit.decl == TwoDecl && unit.insns == AllNops && RangesOK(TwoDecl, unit.insns, unit.regs)
    ensures stored == {0, 1} && BothTaken(crbReg[..], crbInsn[..]) && Reads(TwoDecl, crbInsn[0], crbInsn[1].dest)
  {
    hide RangesOK, StoresOK, OnlyReader, AfterBits, Trimmed, AllGone, AllSaved, Killable, DeadBits, Reads, StoredThere;
    unit := new RtlUnit();
    unit.decl, unit.insns, unit.regs := TwoDecl, TwoBits, TwoRegs;
    var lastSet := new int[CR_BITS](i => if i == 0 then 2 else if i == 1 then 3 else -1);
    crbReg, crbInsn := new nat[CR_BITS], new Insn[CR_BITS](_ => NopInsn);
    assert lastSet[..] == Slots(2, 3, -1);
    TwoRanges();
    TwoStores();
    TwoTurns();
    TwoSets();
    var next;
    stored, next := TrimCrStores(unit, lastSet, {0, 1}, Some({}), Some({0, 1}), 16, 0, crbReg, crbInsn);
    SavedBoth(crbReg[..], crbInsn[..]);
    TakenInOrder();
    assert {} + {0, 1} == {0, 1};
    TrimmedRanges(TwoDecl, TwoBits, TwoRegs, Slots(2, 3, -1), unit.insns, unit.regs, lastSet[..], {0, 1}, -1);
  }

  lemma TrimmedRanges(
    d: Decl, insns0: seq<Insn>, regs0: seq<Reg>, last0: seq<int>, insns: seq<Insn>, regs: seq<Reg>, lastSet: seq<int>,
    bits: set<int>, spared: int)
    requires Trimmed(d, insns0, regs0, last0, insns, regs, lastSet, bits, spared)
    ensures RangesOK(d, insns, regs)
  {
    hide RangesOK;
  }

  /** Which bits are to go where. */
  lemma TwoSets()
    ensures Killable({0, 1}, Slots(2, 3, -1)) == {0, 1} && DeadBits(Some({}), {0, 1}) == {}
    ensures DeadBits(Some({0, 1}), {0, 1}) == {0, 1}
    ensures IsConditionalBranch(16) && ConditionBit(16, 0) == -1
    ensures var none: set<int> := {};
      {0, 1} - none == {0, 1} && none - {0, 1} == none && {0, 1} + none == {0, 1} && none * {0, 1} == none
  {}

  lemma TakenInOrder()
    ensures Reads(TwoDecl, TwoBits[1], TwoBits[0].dest)
  {}

  lemma TwoStores()
    ensures StoresOK(TwoBits, Slots(2, 3, -1))
  {}

  lemma SavedBoth(crbReg: seq<nat>, crbInsn: seq<Insn>)
    requires AllSaved(TwoBits, TwoRegs, Slots(2, 3, -1), AllNops, -1, {0, 1}, crbReg, crbInsn)
    ensures BothTaken(crbReg, crbInsn)
  {
    assert SavedBit(TwoBits, TwoRegs, Slots(2, 3, -1), AllNops, -1, 0, crbReg[0], crbInsn[0]);
    assert SavedBit(TwoBits, TwoRegs, Slots(2, 3, -1), AllNops, -1, 1, crbReg[1], crbInsn[1]);
  }

  predicate BothTaken(crbReg: seq<nat>, crbInsn: seq<Insn>) {
    && |crbReg| == |crbInsn| == CR_BITS && crbReg[0] == 2 && crbReg[1] == 1
    && crbInsn[0] == TwoBits[1] && crbInsn[1] == TwoBits[0]
  }

  function Slots<T>(x: T, y: T, rest: T): (r: seq<T>)
    ensures |r| == CR_BITS && r[0] == x && r[1] == y && forall i :: 2 <= i < CR_BITS ==> r[i] == rest
  {
    [x, y] + seq(CR_BITS - 2, _ => rest)
  }

  function TwoMotion(regs: seq<Reg>): Motion {
    Motion(TwoDecl, TwoBits, TwoRegs, Slots(2, 3, -1), AllNops, regs, {0, 1}, 0)
  }

  /** The stores cannot be added on a way out where both are wanted. */
  lemma MotionBlocked(env: Env, regs: seq<Reg>, crbReg: seq<nat>, crbInsn: seq<Insn>, s0: State)
    requires RangesOK(TwoDecl, AllNops, regs) && BothTaken(crbReg, crbInsn) && 1 !in s0.regs && 2 !in s0.regs
    ensures var m := TwoMotion(regs);
      && Moves(m) && Savings(m, {0, 1}, crbReg, crbInsn) && !OperandsAvailable(m, {0, 1}, crbReg, crbInsn)
      && (RunsThrough(env, m, s0) ==> !Completes(env, m, {0, 1}, crbReg, crbInsn, s0))
  {
    hide RunsThrough, Completes;
    var m := TwoMotion(regs);
    BothMove(m, regs);
    BothSaved(m, crbReg, crbInsn);
    BothBlocked(m, crbReg, crbInsn);
    if RunsThrough(env, m, s0) {
      hide Moves, Savings, OperandsAvailable;
      BothGone(m);
      MotionExact(env, m, {0, 1}, crbReg, crbInsn, s0);
    }
  }

  lemma BothGone(m: Motion)
    requires m.insns0 == TwoBits && m.insns == AllNops
    ensures Gone(m) == {1, 2}
  {
    var g := Gone(m);
    assert m.insns0[0].dest in g && m.insns0[1].dest in g;
  }

  lemma BothMove(m: Motion, regs: seq<Reg>)
    requires m == TwoMotion(regs) && RangesOK(TwoDecl, AllNops, regs)
    ensures Moves(m)
  {
    hide RangesOK, StoresOK;
    TwoRanges();
    BothStores(m);
    hide Undisturbed;
    assert RemovedAt(m, 0) && RemovedAt(m, 1) && RemovedAt(m, 2) && RemovedAt(m, 3);
  }

  lemma BothStores(m: Motion)
    requires m.insns0 == TwoBits && m.last0 == Slots(2, 3, -1) && m.bits == {0, 1} && m.d == TwoDecl
    ensures HasBit(m, 0) && HasBit(m, 1) && Undisturbed(m, 0) && Undisturbed(m, 1) && StoresOK(TwoBits, m.last0)
  {}

  lemma BothSaved(m: Motion, crbReg: seq<nat>, crbInsn: seq<Insn>)
    requires m.insns0 == TwoBits && m.insns == AllNops && m.last0 == Slots(2, 3, -1) && m.bits == {0, 1}
    requires m.regs0 == TwoRegs && m.from == 0
    requires BothTaken(crbReg, crbInsn)
    ensures Savings(m, {0, 1}, crbReg, crbInsn)
  {
    assert HasBit(m, 0) && HasBit(m, 1);
    assert SavedRight(m, 0, 2, TwoBits[1]) && SavedRight(m, 1, 1, TwoBits[0]);
  }

  lemma BothBlocked(m: Motion, crbReg: seq<nat>, crbInsn: seq<Insn>)
    requires m.insns0 == TwoBits && m.insns == AllNops && m.d == TwoDecl && BothTaken(crbReg, crbInsn)
    requires Savings(m, {0, 1}, crbReg, crbInsn)
    ensures !OperandsAvailable(m, {0, 1}, crbReg, crbInsn)
  {
    hide Savings;
    BothGone(m);
    assert Reads(TwoDecl, TwoBits[1], 1) && 0 in {0, 1};
    assert !Available(m, {0, 1}, crbReg, crbInsn, 0, 1);
    assert !AvailableAt(m, {0, 1}, crbReg, crbInsn, 0);
  }
}
