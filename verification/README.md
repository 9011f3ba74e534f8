# The RTL middle end, verified

This project models the middle end of the recompiler: the builder that turns a stream of RTL instructions into basic
blocks (`src/rtl.c`, `src/rtl-insn.c`, `src/rtl-block.c`), the optimizer that rewrites the unit in place (`src/rtl-opt.c`),
the live-range widening that precedes register allocation (`src/rtl-util.c`), the map of read-only guest memory that constant
folding consults (`src/api.c`), and the motion of condition-register stores around branches
(`src/guest-ppc/guest-ppc-optimize.c`), with the bit counters these use (`src/bitutils.h`).

A unit is an object of class `Unit.RtlUnit`; every pass is a method that changes its fields as the C code does. Next to it
stands a small-step semantics (`Semantics`) that runs the block stream (not raw instruction indices) on a machine whose memory,
calls, atomic operations and floating point are arbitrary functions. `Refines(c, d)` says that, on every such machine and from
every alias storage and memory, `d` is defined, ends, and ends with the same return value, memory and bound alias storage,
whenever `c` is defined. `RefinesOn(g, c, d)` says so for machines on which loads from the read-only part of guest memory yield
what is there (`FoldLoads.Honest`); without read-only memory the two are the same (`FoldLoads.RefinesEverywhere`).

How the files hang together:

- `Rtl`, `Arith`, `Meaning`, `Semantics`: data, arithmetic of fixed widths, what opcodes compute, runs and refinement.
- `Flow`, `Liveness`, `BlockEdges`, `Unit`, `Invariant`: the block stream, live ranges, the edge lists, and what all passes keep.
- `Rewrite`, `Paths`, `Removal`, `Kill`: the rewrites passes are made of, and the recursive kill.
- `Folding`, `FoldConstants`, `FoldVectors`, `FoldLoads`, `FoldPass`, `FoldScan`: constant folding, vector forwarding, loads.
- `Decondition`, `AliasLiveness`, `AliasFlow`, `DeadStores`, `ThreadBranches`, `DeadBlocks`, `DeadBranches`: the other passes.
- `Control`: the three control-flow passes together; where branches lead in the end.
- `Effects`, `Trace`, `Safety`, `Optimize`: calls and atomic operations, what a run of `rtl_optimize_unit` does pass by pass,
  the conditions under which that preserves meaning, and the whole of it.
- `Layout`, `Encoding`, `Requests`, `Builder`, `Verify`, `LiveRanges`, `Pipeline`: from the first instruction to register
  allocation; `Requests` says what each request to `rtl_add_insn` asks for.
- `ReadonlyMap`, `CrStores`, `CrMotion`, `Bitutils`: the neighbours of the middle end.
- `Limits`, `LateJumps`: concrete units on which the code falls short of its intent, and what the methods modelling the passes
  make of them.

`dafny verify dfyconfig.toml` checks the project.

## Model

| member | source | states |
|---|---|---|
| `Optimize.OptimizeUnit` | src/rtl.c:1590-1642 | For every finalized unit and every combination of flags: the result is well formed, its live ranges bound every read, every operand is still initialized; the ghost trace is that of the run (`Traces.Traced`: what each register operation and load was folded to, which branches were rewritten, exactly which stores and definitions were removed, where each branch was threaded to, which blocks and branches were dropped); the final code refines the original whenever nothing harmful was done on the way (`Traces.Harmless`), which a condition on the unit passed in and the code returned (`Safety.SafeUnit`) implies; with the basic passes every block of the stream is reachable in the final code, the blocks are those reachable once branches were threaded, in ascending order, every branch of the threaded code goes straight to where control stays or lies on a circle, and in the end still does unless something it led past was removed since, no block branches to the next one, and a label is mapped iff a branch names it |
| `Optimize.FlowStages` | src/rtl.c:1621-1629 | The passes between folding and threading keep the unit well formed, add no successor to any block, and do what the trace says: branches rewritten, dead stores removed, removable definitions removed, or nothing where a pass is not asked for |
| `Safety.SafeIsHarmless` | src/rtl.c:1590-1642 | For every run: if no fold can be inexact, vectors are forwarded in strict SSA form, every alias store a later call could see is still there, and (with dead store elimination) every call and atomic operation is unread or flows into something that stays, then nothing harmful was done |
| `Safety.KnowledgeSound` | src/rtl-opt.c:2143-2171 | A static look at the original code bounds what the scan can fold: a register it makes constant was not computed from anything that varies, and its value is the one predicted, through any chain of folds |
| `Safety.FoldSafeExact` | src/rtl-opt.c:1142-1274 | Bit fields in range, wide MULHU on predicted operands without a carry or on varying ones, and loads that can only go to wholly read-only or to writable memory: then everything that is folded is folded exactly |
| `Safety.SafeStores` | src/rtl-opt.c:1838-1941 | If every store that a call in a later block could see is still in the final code, no call sees a store that the alias pass removed |
| `Safety.VisibleBefore` | src/rtl.c:1624-1626 | If a call can see an alias at the end of a block in the code the alias pass receives, it can in the original unit |
| `Safety.BranchUntouched` | src/rtl-opt.c:1945-2014 | A conditional branch on a register that no immediate sets is left alone |
| `Safety.SafeEffects` | src/rtl-opt.c:1639-1661 | Every call and atomic operation is still there, in the code before the control-flow passes and in the final code, if its result is unread or flows into something that stays; without dead store elimination always |
| `Safety.ExchangeSafe` | src/rtl-opt.c:1651-1654 | CMPXCHG, SEQ, conditional branch meets that condition if the branch is still there or its block is gone |
| `Safety.CallSafe` | src/rtl-opt.c:1651-1654 | CALL, ZCAST or SRLI, SET_ALIAS meets that condition if the SET_ALIAS is still there, or its block is gone and the alias pass was not asked for |
| `Pipeline.Compile` | src/api.c:609-628 | Finalize, optimize, verify, widen: fails iff a named label was never placed; verification never rejects the result; the trace is that of the run and the final code refines the built one under the conditions above; what the widening looks at and is live on entry to a block is live to the end of every block that leads back to it, and the ranges are the least such that extend exact ones |
| `Pipeline.HintsSurvive` | src/rtl-insn.c:57-72 | The register numbers recorded per block while building still bound, after optimization, every register born before that block |
| `Effects.LostEffect` | src/rtl-opt.c:1819-1833 | A call or atomic operation of a surviving block that was removed had readers before and has none left |
| `Effects.ReadKeepsEffect` | src/rtl-opt.c:1819-1833 | If an instruction of the final code still reads the end of a data-flow path that starts at a call or atomic operation, that call or operation is still there |
| `Effects.BranchKeepsExchange` | src/rtl-opt.c:1651-1654 | CMPXCHG, SEQ, conditional branch: as long as the branch is there, so is the CMPXCHG |
| `Effects.AliasKeepsCall` | src/rtl-opt.c:1651-1654 | CALL, ZCAST or SRLI, SET_ALIAS: as long as the SET_ALIAS is there, so is the call |
| `Effects.FoldRetains` | src/rtl-opt.c:2143-2171 | Folding leaves all data flow out of calls and atomic operations intact |
| `Semantics.Simulation` | src/rtl.h:142-257 | Two codes whose configurations advance together under a relation agree: same definedness, same termination, same outcome |
| `Folding.MulhUnsigned` | src/rtl-opt.c:50-81 | The unsigned high product is exact iff the middle sum fits 64 bits; otherwise it is short by exactly 2^32 |
| `Folding.MulhSigned` | src/rtl-opt.c:50-81 | The signed high product is floor(a*b / 2^64) modulo 2^64 for all 64-bit operands |
| `Folding.Fold1Correct` | src/rtl-opt.c:212-880 | Casts, extensions, NEG, NOT, CLZ and BSWAP fold to their documented meaning on all operands |
| `Folding.Fold2Correct` | src/rtl-opt.c:212-880 | Every two-operand integer opcode folds to its documented meaning wherever that is defined (wide MULHU: where the middle sum fits) |
| `Folding.FoldImmCorrect` | src/rtl-opt.c:212-880 | Every register-immediate opcode folds to the meaning of its register form on the sign-extended immediate |
| `Folding.FoldExtractCorrect` | src/rtl-opt.c:212-880 | BFEXT folds to the bits of the field |
| `Folding.FoldInsertCorrect` | src/rtl-opt.c:212-880 | BFINS folds to the operand with exactly the bits of the field replaced |
| `Folding.RotateFolds` | src/bitutils.h:260-299 | The rotation used for folding ROL, ROR and RORI equals rotation by the count modulo the width, for negative counts too |
| `Folding.ConvertCorrect` | src/rtl-opt.c:884-1125 | Whenever the conversion to register-immediate form succeeds, the immediate is in range and both forms agree for every value of the other operand: sign-extended range test, SUB by the negated immediate, ROL as RORI, comparison reversed for a constant on the left |
| `Folding.ConvertsIff` | src/rtl-opt.c:884-1125 | The conversion succeeds iff the constant is 32 bits wide or in the range of a sign-extended 32-bit value, the opcode is none of MULHU, MULHS, DIVU, DIVS, MODU and MODS, the constant is second for SUB, shifts and rotates, and a 64-bit SUB does not subtract -2^31 |
| `FoldConstants.FoldToImm` | src/rtl-opt.c:1220-1240 | Replacing an instruction on constants by the folded, truncated immediate computes the same value in every state where the constants hold |
| `FoldConstants.SelectToMove` | src/rtl-opt.c:1154-1210 | SELECT with equal sources or a known condition is a MOVE of the right source |
| `FoldConstants.ConvertToImm` | src/rtl-opt.c:1241-1256 | The register-immediate form computes the same value in every state where the constant holds |
| `FoldConstants.ReplacePure` | src/rtl-opt.c:1142-1274 | Replacing one pure instruction by one that agrees with it wherever the recorded constants hold preserves every run |
| `FoldPass.FoldedFits` | src/rtl-opt.c:1222-1227 | A folded value fits its register: INT32 constants stay below 2^32 |
| `FoldPass.FoldOneConstant` | src/rtl-opt.c:1142-1274 | The unit stays well formed with exact live ranges; what becomes of the instruction (unchanged, its value, its immediate form, a reduced SELECT) follows from its constant operands; the replacement refines the original unless an inexact value was folded; nothing more can be folded at this instruction; a MOVE becomes a LOAD_IMM iff its source is a constant that died at it, and a SELECT that comes down to one of its values is treated like the MOVE of that value; if the instruction does not change, nothing does |
| `FoldPass.FoldOneVector` | src/rtl-opt.c:1288-1418 | Taking scalars directly from the vector definition keeps the unit well formed, extends and rolls back deaths exactly, and preserves meaning in strict SSA form; the instruction changes iff it is a VEXTRACT of an element its vector definition has at hand, or a VINSERT into a vector built by VBUILD2, VBROADCAST or VINSERT that dies there and is used nowhere else, and afterwards neither is left |
| `FoldVectors.ReplaceFresh` | src/rtl-opt.c:1288-1418 | A use may be rewritten to read what its definition read, in loops too: at any use the definition has been executed more recently than its own operands were set |
| `Paths.DefinitionFresh` | src/rtl-opt.c:1288-1418 | In strict SSA form every path that reaches a use has executed the definition after the last setting of each of its operands |
| `FoldVectors.StrictKept` | src/rtl-opt.c:1288-1418 | Strict SSA form survives the rewriting |
| `FoldLoads.ReplaceLoad` | src/rtl-opt.c:1495-1570 | A load at a constant offset from the guest memory base, all of whose bytes are read-only, can be replaced by what is there |
| `FoldLoads.AddressInside` | src/rtl-opt.c:1475 | The 32-bit guest address that is looked up is the one the load uses at run time, when the access lies inside the 4 GB guest space |
| `FoldLoads.RefinesEverywhere` | src/rtl-opt.c:1435-1482 | Without read-only memory the refinement relative to guest memory holds on every machine |
| `FoldLoads.LoadExact` | src/rtl-opt.c:1475-1479 | On every machine with this guest memory the value folded for a load at a given offset is the value loaded iff all its bytes are read-only; otherwise a machine honest about read-only memory is built on which it is not |
| `FoldScan.FoldLoad` | src/rtl-opt.c:1435-1570 | Folds a load iff its base is the guest memory base, that plus an immediate, or that plus a constant, and the page map calls the 32-bit address read-only; byte i of the result is then the byte at that address plus i; that value is right on every machine iff all bytes at the known offset are read-only, and then the unit is refined |
| `FoldScan.LoadedFrom` | src/rtl-opt.c:1435-1570 | The test on known offsets is this condition on the instruction that sets the base, and the folded number holds the four or eight bytes in memory, low byte first |
| `FoldScan.RipeStep` | src/rtl-opt.c:2150-2168 | Whatever could still be folded or forwarded at an instruction the scan has passed could only since a later instruction changed |
| `FoldScan.FoldRegisters` | src/rtl-opt.c:2143-2171 | The in-order scan leaves every result register constant or finished, keeps live ranges exact, turns each operation on registers into itself, the value of its constants, or its immediate form, and loads into constants only at read-only addresses, and refines whenever everything it folded was folded exactly and vectors were forwarded in strict SSA form; a copy of a constant that dies with it, or an element that could be taken from its definition, is only left where a later instruction was folded since; with constant folding no load from a known read-only address is left |
| `FoldScan.LoadsDoneStep` | src/rtl-opt.c:2150-2168 | A load that could not be folded when the scan passed it cannot be folded later either, so one pass leaves none |
| `FoldScan.FinishedKept` | src/rtl-opt.c:2150-2168 | What has been finished stays finished as the scan moves on: operands have been folded before their uses |
| `Kill.PrevRegUse` | src/rtl-opt.c:114-130 | The latest instruction before the given one that names the register, or its birth |
| `Kill.RollbackRegDeath` | src/rtl-opt.c:144-165 | The death moves to the previous use and nothing else changes; reports whether the register is now unused |
| `Kill.KillInsn` | src/rtl-opt.c:1768-1834 | Recursive killing terminates, keeps every live range exact, and removes exactly a cascade: unguarded definitions below the killed instruction whose last reader died |
| `Kill.ReleasedCompose` | src/rtl-opt.c:1800-1833 | The effects of releasing one operand after the other add up to one cascade |
| `Kill.ReleaseByKill` | src/rtl-opt.c:1819-1833 | Killing the definition of a released operand is one step of the cascade seen from the instruction that released it |
| `DeadStores.DropDeadStores` | src/rtl-opt.c:2131-2139 | One ascending sweep removes exactly the instructions whose results feed only removable ones; seen from the result: those whose register nothing reads any more, except FPU operations unless exceptions are ignored, and calls and atomic operations nothing ever read; every live unused register left is set by one of these; meaning is preserved unless a call or atomic operation was removable |
| `DeadStores.RemovedIffRemovable` | src/rtl-opt.c:2131-2139 | The removed set is the recursively defined removable set, neither more nor less |
| `DeadStores.RemovableVanishes` | src/rtl-opt.c:1639-1661 | An instruction is removable iff in what is left nothing reads its register, it cannot raise an exception that matters, and, if it is a CALL, ATOMIC_INC or CMPXCHG, something did read the register |
| `Removal.KillsRefine` | src/rtl-opt.c:1768-1834 | Removing definitions of registers that are dead afterwards preserves every run, provided they do nothing else |
| `Rewrite.RemoveDefs` | src/rtl-opt.c:1768-1834 | Runs with and without such definitions stay equal off the dead registers |
| `Decondition.DeconditionPass` | src/rtl-opt.c:1945-2014 | A conditional branch that ends a block, goes elsewhere than to the next block, and tests a constant becomes a GOTO if the constant makes it always taken and a NOP if never; every other block end stays; edges still equal the successors, and the result refines the original |
| `Decondition.DeconditionRefines` | src/rtl-opt.c:1945-2014 | A branch on a constant is always or never taken, and may be replaced accordingly |
| `AliasFlow.SearchFromBlock` | src/rtl-opt.c:1588-1625 | The search answers true iff some control-flow path from the end of the block reaches a reader of the alias, or a unit exit with the alias bound, without a store on the way |
| `AliasFlow.NotVisible` | src/rtl-opt.c:1588-1625 | Once everything seen has been explored without finding a reader there is no path to one |
| `AliasFlow.AliasDataFlow` | src/rtl-opt.c:1838-1941 | A SET_ALIAS of the stream stays iff its value is needed: a GET_ALIAS, or a CALL if the alias has storage, uses it in its block, or it reaches the end of its block and, along some path without another SET_ALIAS, a GET_ALIAS or, if the alias has storage, a way out of the unit, judged on the code before any store is removed; nothing else changes; the result refines the original unless a call in a later block could see a removed store |
| `AliasFlow.KilledIsDead` | src/rtl-opt.c:1838-1941 | The two loops together remove a store iff it is overwritten in its block without a use, or unused to the end of its block and not visible beyond |
| `AliasLiveness.DeadIffUnneeded` | src/rtl-opt.c:1588-1625 | What the two loops find dead, in terms of block summaries, is what no instruction on any path needs |
| `AliasLiveness.RemoveDeadStores` | src/rtl-opt.c:1838-1941 | Removing any set of stores that are dead for readers and for calls, all at once, preserves every run |
| `AliasLiveness.ExactUnlessCalled` | src/rtl-opt.c:1897-1911 | What the analysis calls dead is dead, calls taken into account, iff no call in a later block sees such a store |
| `AliasLiveness.LiveAcross` | src/rtl-opt.c:1588-1625 | An alias live at the start of a successor is visible, to a reader or to a call, at the end of the block |
| `ThreadBranches.FindDestination` | src/rtl-opt.c:1674-1729 | The search terminates on every label graph and ends where control stays: the first instruction there that is neither NOP nor LABEL is neither a GOTO nor a branch with the opcode and the register of the branch; or with nothing, if control stays at the branch target itself, or comes back to the block or jumps for ever |
| `ThreadBranches.ChainLeads` | src/rtl-opt.c:1674-1729 | Having taken the branch, a run arrives at the end of the chain with its state unchanged |
| `ThreadBranches.ThreadBranch` | src/rtl-opt.c:1674-1729 | Afterwards the branch goes straight to where control stays or lies on a circle; exits still equal successors, and the result refines the original |
| `ThreadBranches.ThreadAll` | src/rtl-opt.c:2175-2200 | Afterwards, for every branch, the first instruction at its target that is neither NOP nor LABEL is neither a GOTO nor a branch with the same opcode and register, unless control that takes the branch only jumps, for ever or until it is back at the branch; the result refines the original |
| `ThreadBranches.DirectKept` | src/rtl-opt.c:2175-2200 | Threading another branch leaves a branch that goes straight, or lies on a circle, as it is |
| `DeadBlocks.VisitAll` | src/rtl-opt.c:1741-1755 | The visit marks exactly the blocks reachable from block 0 |
| `DeadBlocks.Unlink` | src/rtl-opt.c:2030-2045 | Taking a block out leaves a doubly linked stream of the others in the same order |
| `DeadBlocks.DropDeadBlocks` | src/rtl-opt.c:2018-2072 | The stream keeps exactly the reachable blocks in their order, with all their instructions; of the others only definitions are left that some later instruction still reads, and their labels are no longer mapped; the result refines the original |
| `DeadBlocks.ReachedAreSeen` | src/rtl-opt.c:1741-1755 | A set of blocks closed under successors contains every reachable block |
| `DeadBranches.DropDeadBranches` | src/rtl-opt.c:2076-2127 | Exactly the branches to the next block are gone from the block ends, the graph is as before, and a label is mapped iff a branch of the stream names it; a definition is gone iff (with dse) it was read, nothing reads it any more, and it is no FPU operation whose exceptions count (register 1 apart); no LABEL carries a flag; live ranges are exact, that of register 1 iff it does not end at a LABEL |
| `DeadBranches.DropBranchRefines` | src/rtl-opt.c:2076-2110 | Removing a branch to the next block preserves every run |
| `DeadBranches.DeadDefinitions` | src/rtl-opt.c:1819-1833 | With dse the definitions that die with the dropped branches are those that lost all their readers |
| `Control.DirectSurvives` | src/rtl.c:1631-1632 | A branch of a kept block is as direct, or on a circle, as it was before the others were dropped |
| `Control.StillReached` | src/rtl.c:1631-1633 | A block that was reachable once branches were threaded is reachable in the final code |
| `Control.DirectStill` | src/rtl.c:1631-1633 | In the final code a branch meets a jump at once only on a circle, or where something it led past has been removed |
| `Control.LeadsOnIff` | src/rtl.c:1631-1633 | A branch that went straight to where control stays leads to another jump in the end iff everything before that jump was idle or removed |
| `LateJumps.JumpLeftBehind` | src/rtl.c:1631-1633 | On a well-formed unit all of whose branches go straight, dropping the last branch takes the definition it tested along, and then the first branch leads to another jump |
| `BlockEdges.AddEdge` | src/rtl-block.c:95-167 | f is among the predecessors of t, overflow blocks included, exactly once iff t is an exit of f; exits stay packed and at most two; overflowing keeps entries[0]; fails iff the block has two other exits |
| `BlockEdges.RemoveEdge` | src/rtl-block.c:171-204 | The exit and its one entry disappear, everything else is kept |
| `BlockEdges.SpillCounts` | src/rtl-block.c:136-160 | Moving a full entry list into a new overflow block keeps every predecessor count |
| `BlockEdges.ChainOwner` | src/rtl-block.c:95-167 | Overflow chains of different blocks are disjoint |
| `Builder.CreateUnit` | src/rtl.c:1129-1220 | A new unit is empty and satisfies the builder invariant |
| `Builder.AllocRegister` | src/rtl.c:1316-1355 | One undefined register of the given type is added |
| `Builder.AllocLabel` | src/rtl.c:1490-1526 | One unplaced label is added |
| `Builder.AllocAlias` | src/rtl.c:1420-1456 | One unbound alias is added |
| `Builder.SetAliasStorage` | src/rtl.c:1460-1486 | Binds the alias iff alias, base register and its type are valid |
| `Builder.MarkLive` | src/rtl-insn.c:57-72 | Birth at the first mark, death at the last, first_live_reg and max_live_reg maintained |
| `Builder.MakeLabel` | src/rtl-insn.c:1918-1962 | A label starts a new block unless the current one is empty, and is mapped to it |
| `Builder.MakeGotoCond` | src/rtl-insn.c:1993-2033 | A conditional branch closes its block and opens one that it falls through to |
| `Builder.EndBlock` | src/rtl-insn.c:1967-1988 | GOTO and RETURN close the block without a successor |
| `Builder.AddInsn` | src/rtl.c:1262-1295 | Succeeds iff the destination is free, the operands have been set, their types fit together and the numbers are in range; then the stored instruction does in every state what was asked for (`Requests.StepAsked`, opcode by opcode on the values of the operands), the destination is born and recorded with its source, what was taken lives on, no other register changes, and blocks still tile the code |
| `Requests.EncodedFulfils` | src/rtl-insn.c:142-2115 | For every accepted request, machine and state: running the stored instruction gives what rtl.h documents for the opcode on the values of dest, src1, src2 and other, in that order; undefined exactly where that is |
| `Requests.AcceptedIff` | src/rtl-insn.c:142-2115 | The operand checks of the encoding functions let through exactly the requests whose destination is free, whose operands are set, whose types fit and whose labels, elements, offsets and immediates are in range |
| `Requests.MarkedAsAsked` | src/rtl-insn.c:57-72 | The registers recorded as set and used are those of the request, with the source its opcode says; a LOAD_IMM register has the constant, cut to 32 bits for narrow types |
| `Requests.WordKept` | src/rtl-insn.c:478-515 | A stored immediate is in the signed 32-bit range and congruent to the one given modulo 2^32, an offset in the signed 16-bit range and congruent modulo 2^16, and both are the number given as a signed 64-bit word where the checks or the range say so; an element is the one given |
| `Requests.ImmediateMeant` | src/rtl-insn.c:606-641 | An accepted immediate operation other than a shift works on the immediate as given, whatever the other operand holds, iff that operand is 32 bits wide or the immediate is in the range of a sign-extended 32-bit value |
| `Requests.ImmediateLost` | src/rtl-insn.c:618-619 | Comparing a 64-bit register with 2^32 into a 32-bit register is accepted, and stored as a comparison with 0 |
| `Requests.AliasRoundTrip` | src/rtl-insn.c:142-210 | What an accepted SET_ALIAS puts into an alias, an accepted GET_ALIAS gets out |
| `Builder.AddBlockEdges` | src/rtl.c:34-73 | Adds the edge of every branch; fails iff a branch names a label that was never placed (a third exit cannot occur) |
| `Builder.FinalizeUnit` | src/rtl.c:1530-1552 | After any sequence of accepted instructions: blocks tile the code, labels stand only first and branches and RETURN only last, exits are exactly fall-through and label target; fails iff a branch names an unplaced label; the result is what the optimizer expects |
| `Layout.InsnStep` | src/rtl.c:1262-1295 | Appending an instruction of any kind keeps the block layout |
| `Layout.BlockStep` | src/rtl-block.c:62-91 | Opening a block keeps the layout and the edge lists |
| `Encoding.AppendLive` | src/rtl-insn.c:57-72 | An accepted instruction keeps live ranges exact |
| `Encoding.EncodedTyped` | src/rtl-insn.c:214-1475 | The operand checks imply the types that folding relies on |
| `Verify.VerifyUnit` | src/rtl.c:1646-1674 | Succeeds iff every operand read is set by a surviving instruction |
| `Liveness.LiveImpliesVerified` | src/rtl.c:1646-1674 | Live ranges that bound every read imply a successful verification |
| `LiveRanges.LatestEntry` | src/rtl-util.c:165-182 | The scan over entry slots and overflow blocks finds the highest-numbered predecessor |
| `LiveRanges.UpdateLiveRanges` | src/rtl-util.c:158-196 | One ascending pass is the least fixpoint: every examined register that is live on entry to a block is live to the end of every block with an edge back to it, no range is longer than that requires, min_death is recorded at loop heads |
| `LiveRanges.CoveredIffBackEdges` | src/rtl-util.c:165-190 | Being live to the end of the latest predecessor, as the pass has it, is being live to the end of every block that leads back |
| `LiveRanges.RangeCoversPath` | src/rtl-util.c:158-196 | On a path from a definition to a use every instruction lies in the widened range iff none precedes the definition in the code |
| `LiveRanges.AllLoopsCovered` | src/rtl-util.c:185 | All loops are covered for all registers iff they were before for the registers numbered below first_live_reg |
| `ReadonlyMap.Handle.IsAddressReadonly` | src/api.c:216-231 | True iff the address has been added, on a valid map; and what it answers when the page is flagged but missing from the table |
| `ReadonlyMap.Handle.Lookup` | src/api.c:147-162 | The index of the page if listed, else the place where it belongs |
| `ReadonlyMap.Handle.AddPartialPage` | src/api.c:168-210 | Fails iff the page needs an entry and none is free; otherwise leaves the bitmap iff the end, in 32-bit arithmetic, is beyond the page, and else adds exactly the bytes up to it |
| `ReadonlyMap.Handle.AddRegion` | src/api.c:457-489 | For any base and size: adds exactly `Marked`, or leaves the bitmap iff `Overruns`; a call that fails for lack of an entry adds a part of it; for the insertion as intended in any order, for the insertion as written when no entry has to move |
| `ReadonlyMap.Handle.Clear` | src/api.c:493-501 | Nothing is read-only afterwards |
| `ReadonlyMap.PageInserted` | src/api.c:190-203 | The intended insertion keeps the table sorted and the recorded set unchanged |
| `ReadonlyMap.InOrderKeepsSorted` | src/api.c:190-200 | Moving the tail up keeps the table strictly sorted and padded and adds exactly the new page |
| `ReadonlyMap.AsWrittenIsRight` | src/api.c:190-195 | The memmoves as written do the same iff there is no tail; otherwise the page at the insertion point is lost |
| `ReadonlyMap.RegionExact` | src/api.c:457-489 | What is marked is the region itself iff base + size < 2^32, or, for a region starting inside the last page, iff base + size >= 2^32 |
| `CrStores.IsRegKillable` | src/guest-ppc/guest-ppc-optimize.c:35-44 | True iff no other instruction reads the register |
| `CrStores.KillAliasStore` | src/guest-ppc/guest-ppc-optimize.c:65-90 | Removes the store, and the definition of its value iff allowed, unread elsewhere and free of exceptions; returns the definition |
| `CrStores.KillCrStores` | src/guest-ppc/guest-ppc-optimize.c:112-136 | Treats each bit once, in ascending order, each on the code the previous ones have left (`AfterBits`), and records register and definition of each saved one |
| `CrStores.TrimCrStores` | src/guest-ppc/guest-ppc-optimize.c:368-443 | For every bit: its store is gone iff the bit is dirty, the store can be removed, and the code at the branch target, or, unless BO has both 0x10 and 0x04, the code after the branch changes the bit; it is then stored on the one way out where it is not dead, if any; the instruction that set the value stays if 0x10 is clear in BO and BI is the bit, and is gone if that is not so, nothing else read the value and it is no FPU operation; the bits dead on both ways go first, then the others |
| `CrStores.BitIsTrimmed` | src/guest-ppc/guest-ppc-optimize.c:112-136 | Sparing the bit that BO and BI make the branch condition keeps that definition and no other |
| `CrStores.ReadersKeepDefinitions` | src/guest-ppc/guest-ppc-optimize.c:126-131 | Whatever is still read is still defined, by its original instruction |
| `CrStores.SparedStands` | src/guest-ppc/guest-ppc-optimize.c:125-128 | The branch condition keeps its definition |
| `CrMotion.MotionRestores` | src/guest-ppc/guest-ppc-rtl.c:3539-3547 | After the stores have been added again on a way out, memory, every alias but those of bits dead there, and every register still defined are as in the original run |
| `CrMotion.MotionExact` | src/guest-ppc/guest-ppc-rtl.c:3539-3547 | From a state without old values in the removed registers, adding the stores in ascending order works iff no added definition reads a register whose definition was taken out with a higher bit or for the other way out |
| `CrMotion.MotionEver` | src/guest-ppc/guest-ppc-rtl.c:3539-3547 | In every round of a loop: the way out restores memory, aliases and registers from every state the original block runs from iff that holds |
| `CrMotion.TrimIsMotion` | src/guest-ppc/guest-ppc-optimize.c:368-443 | What the trimming leaves behind, for pure values set in the block, is such a motion |
| `CrMotion.ShadowRange` | src/guest-ppc/guest-ppc-optimize.c:65-136 | The trimmed block runs whenever the original does, and differs only in the removed stores and values |
| `Bitutils.Clz32` | src/bitutils.h:47-90 | 32 minus the bit length |
| `Bitutils.Clz64` | src/bitutils.h:93-122 | 64 minus the bit length |
| `Bitutils.Ctz32` | src/bitutils.h:131-174 | The index of the lowest set bit, 32 for zero |
| `Bitutils.Ctz64` | src/bitutils.h:177-205 | The index of the lowest set bit, 64 for zero |
| `Limits.AtomicLost` | src/rtl-opt.c:1819-1833 | On a well-formed unit, what the sweep leaves is not a refinement: an atomic increment read only by a dead MOVE is removed |
| `Limits.CallLost` | src/rtl-opt.c:1897-1911 | On a well-formed unit, what the alias pass leaves is not a refinement: a call in a later block sees the removed store |
| `Limits.ThreadedExits` | src/rtl-opt.c:1707-1726 | Replacing the old target by the new one in the exit list gives the exits of the redirected branch iff the branch did not target the next block, or the new target is that block |
| `Limits.NextBlockLost` | src/rtl-opt.c:1709-1716 | A conditional branch to the next block, threaded and its fall-through block dropped, changes the program |
| `Limits.StraddlingLoadLost` | src/rtl-opt.c:1475-1479 | A load whose first byte alone is read-only is folded, and the program changes |
| `Limits.LoopUncovered` | src/rtl-util.c:185 | A register numbered below the first one defined keeps a range that ends inside the loop that reads it |
| `CrMotion.MotionBlocked` | src/guest-ppc/guest-ppc-optimize.c:112-136 | Two bits, the lower one computed from the higher: both definitions are taken out, and the first to be added again reads an unset register |

## Findings

Where the code falls short of what it is meant to do: the line, an input on which it does, and the exact condition under which it
does not.

| source | what goes wrong | input | holds exactly when |
|---|---|---|---|
| src/rtl-opt.c:71 | the middle sum of an unsigned 64-bit product wraps | any operands with a middle sum of 2^64 or more | `Folding.MulhUnsigned` |
| src/rtl-opt.c:1475-1479 | only the first byte of a folded load is looked up, and a negative offset wraps to the top of guest space | `Limits.FoldStraddling`, `Limits.StraddlingLoadLost` | `FoldLoads.LoadExact`, in `FoldScan.FoldLoad` on the offset known before the fold |
| src/rtl-opt.c:1819-1833 | the recursive kill removes calls and atomic operations | `Limits.SweepAtomic`, `Limits.AtomicLost` | `DeadStores.EffectsNeeded` in `DeadStores.DropDeadStores`; `Effects.LostEffect` |
| src/rtl-opt.c:1897-1911 | a call reads bound aliases in its own block only | `Limits.FlowPastCall`, `Limits.CallLost` | `AliasLiveness.ExactUnlessCalled` |
| src/rtl-opt.c:1709-1716 | threading a conditional branch to the next block loses the fall-through edge (the comment there says the case is harmless) | `Limits.ThreadIntoNext`, `Limits.NextBlockLost` | `Limits.ThreadedExits` |
| src/rtl.c:1631-1633 | branches are threaded before branches to the next block are dropped, which can leave a branch leading to another jump | `LateJumps.JumpLeftBehind` | `Control.LeadsOnIff` |
| src/rtl-insn.c:618-619 | the range of the immediate of a comparison is tested by the type of the result, not of the operand as src/rtl.h:230-234 documents | `Requests.ImmediateLost` | `Requests.ImmediateMeant` |
| src/api.c:190-195 | both memmoves move the tail the wrong way | `ReadonlyMap.LatePageLost` | `ReadonlyMap.AsWrittenIsRight` |
| src/api.c:457-489 | the end of a region, or of its first page, wraps to zero: too much is marked, or nothing | `ReadonlyMap.LastPageMarksAll`, `ReadonlyMap.LastPageMarksNothing` | `ReadonlyMap.RegionExact` |
| src/rtl-util.c:185 | first_live_reg is the first register defined, not the lowest | `Limits.WidenFromTwo`, `Limits.LoopUncovered` | `LiveRanges.AllLoopsCovered` |
| src/guest-ppc/guest-ppc-optimize.c:112-136 | definitions taken out together are added back in an order that may read them too early | `CrMotion.TakeBoth`, `CrMotion.MotionBlocked` | `CrMotion.MotionEver` |

## Left out

- Optimize.OptimizeUnit: preserves meaning relative to guest memory and under `Harmless`, which is stated on the code at points of the run; `SafeUnit`, on the unit passed in and the code returned, is sufficient, not necessary: it takes results of SELECT and VEXTRACT to be possibly constant, and does not follow data flow through them or through loads; with the basic passes no conditional branch may target the next block.
- Pipeline.Compile: preserves meaning under the same conditions.
- AliasFlow.AliasDataFlow: a call is taken to read bound aliases but not to change them, and alias storage is taken to be disjoint from memory.
- DeadBranches.DropDeadBranches: register 1's range is an upper bound only, because a LABEL that carries a flag while a branch is dropped counts as a use of it (src/rtl-opt.c:2100-2102); at which LABEL it then ends is not said.
- CrStores.KillAliasStore: reports a definition guarded by floating-point exceptions as eliminated although it stays, as the code does.
- CrStores.TrimCrStores: asks that no two bits hold the same register, which the comment at src/guest-ppc/guest-ppc-optimize.c:382-392 says the code does not handle; what each block changes (crb_changed_recursive) is an input; bit masks are sets of bit numbers.
- CrMotion.MotionRestores: speaks about straight-line code from the start of the block being translated; values that are moved must be pure (register operations).
- ReadonlyMap.Handle.AddRegion: models the build in which a failed assertion has no effect (with assertions, regions that start inside the last page or wrap from inside a page abort; LastPageMarksNothing fails none); when the marking loop leaves the bitmap the model stops, and what it overwrites is not modelled.
- ReadonlyMap.Handle.IsAddressReadonly: models the build without assertions; with them a flagged page that is missing from the table aborts.
- Builder.AddInsn: requests use the operand fields of their opcode only (a NOP has no operands, BFEXT no second source); allocation failure and the 16-bit limits on registers, labels, aliases and blocks are not modelled.
- Builder.SetAliasStorage: an alias is bound before it is used and to a register that has been set.
- Builder.FinalizeUnit: units without blocks are accepted but nothing is said about optimizing them.
- FoldScan.FoldLoad: the host is little-endian, the guest memory base is a LOAD_ARG, and only full-width loads in host byte order are modelled; rtl_set_membase_pointer itself is a field assignment.
- FoldScan.FoldRegisters: a copy of a constant that comes to die with it only through a later fold stays, as in the code.
- Floating-point folding (FCVT to FNMSUB, FCMP) and the floating-point state: FPU instructions are opaque, and are never folded.
- Undefined C shifts: a bit field as wide as its operand folds to an arbitrary value, the `undefined` parameter.
- Instructions CHAIN, CHAIN_RESOLVE and CALL_TRANSPARENT, narrow and byte-reversed loads and stores, bit casts and conversions.
- `reg->result`: the copy of the defining instruction kept in the register is not stored; the model reads the instruction at its birth.
- RTLBlock is split into its stream half (spans) and its graph half (edges).
- Growth of arrays, `rtl_clear_unit`, disassembly, logging, names and statistics.
- `guest_ppc_detect_fcfi_emul`, guest scanning and translation, and host code generation.
- `popcnt32/64`, `bitrev32` and the float casts of bitutils.h.
