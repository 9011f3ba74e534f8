/** The data model of an RTL unit (rtl.h, rtl-internal.h): register types, opcodes, instructions,
    per-register metadata and the two halves of a basic-block record. */
module Rtl {

  datatype Option<+T> = None | Some(value: T)

  datatype Type = INT32 | INT64 | ADDRESS | FLOAT32 | FLOAT64 | V2_FLOAT32 | V2_FLOAT64

  predicate IsInt(t: Type) { t.INT32? || t.INT64? || t.ADDRESS? }

  predicate IsVector(t: Type) { t.V2_FLOAT32? || t.V2_FLOAT64? }

  predicate IsScalar(t: Type) { !IsVector(t) }

  function ElementType(t: Type): Type {
    match t
    case V2_FLOAT32 => FLOAT32
    case V2_FLOAT64 => FLOAT64
    case _ => t
  }

  /** Operand width in bits as constant folding sees it: only INT32 is narrow. */
  function Width(t: Type): nat { if t.INT32? then 32 else 64 }

  datatype Alu1 = SCAST | ZCAST | SEXT8 | SEXT16 | NEG | NOT | CLZ | BSWAP

  datatype Alu2 =
    | ADD | SUB | MUL | MULHU | MULHS | DIVU | DIVS | MODU | MODS | AND | OR | XOR
    | SLL | SRL | SRA | ROL | ROR | SEQ | SLTU | SLTS | SGTU | SGTS

  datatype AluImm =
    | ADDI | MULI | ANDI | ORI | XORI | SLLI | SRLI | SRAI | RORI
    | SEQI | SLTUI | SLTSI | SGTUI | SGTSI

  /** The integer subset of RTLOpcode, the two-operand floating-point operations as one group (FPU),
      the vector operations, and the side-effecting operations. */
  datatype Opcode =
    | NOP
    | SET_ALIAS | GET_ALIAS
    | MOVE | SELECT
    | ALU1(f1: Alu1) | ALU2(f2: Alu2) | ALUI(fi: AluImm)
    | BFEXT | BFINS
    | FPU
    | VBUILD2 | VBROADCAST | VEXTRACT | VINSERT
    | LOAD_IMM | LOAD_ARG | LOAD | STORE
    | ATOMIC_INC | CMPXCHG | CALL
    | LABEL | GOTO | GOTO_IF_Z | GOTO_IF_NZ | RETURN

  predicate IsBranch(op: Opcode) { op.GOTO? || op.GOTO_IF_Z? || op.GOTO_IF_NZ? }

  predicate IsConditional(op: Opcode) { op.GOTO_IF_Z? || op.GOTO_IF_NZ? }

  /** Opcodes that end a basic block. */
  predicate EndsBlock(op: Opcode) { IsBranch(op) || op.RETURN? }

  /** The opcodes maybe_kill_store refuses to kill. */
  predicate HasSideEffect(op: Opcode) { op.ATOMIC_INC? || op.CMPXCHG? || op.CALL? }

  /** The opcodes rtl_opt_kill_insn keeps unless ignore_fexc is set. */
  predicate MayRaise(op: Opcode) { op.FPU? }

  predicate HasSrc3(op: Opcode) { op.SELECT? || op.CMPXCHG? || op.CALL? }

  predicate HasAlias(op: Opcode) { op.SET_ALIAS? || op.GET_ALIAS? }

  /** One instruction.  "other" is the RTLInsn union: third source register, alias index, label, vector
      element, bit field (start | count << 8), offset, argument index or immediate. */
  datatype Insn = Insn(op: Opcode, dest: nat, src1: nat, src2: nat, other: int)

  const NopInsn := Insn(NOP, 0, 0, 0, 0)

  /** Register types and alias base registers (0 = transient), fixed once code exists. */
  datatype Decl = Decl(types: seq<Type>, base: seq<nat>)

  predicate IsBound(d: Decl, a: int) { 0 < a < |d.base| && d.base[a] != 0 }

  function TypeOf(d: Decl, r: nat): Type { if r < |d.types| then d.types[r] else INT64 }

  /** Does the instruction name register r in a field prev_reg_use looks at? */
  predicate Names(d: Decl, insn: Insn, r: int) {
    r > 0 &&
    (|| insn.src1 == r
     || insn.src2 == r
     || (HasSrc3(insn.op) && insn.other == r)
     || (HasAlias(insn.op) && 0 <= insn.other < |d.base| && d.base[insn.other] == r))
  }

  /** Does the instruction read register r?  A LABEL reads nothing: its src1 is only ever a scratch flag. */
  predicate Reads(d: Decl, insn: Insn, r: int) {
    !insn.op.LABEL? && Names(d, insn, r)
  }

  datatype Source =
    UNDEFINED | CONSTANT | CONSTANT_NOFOLD | FUNC_ARG | MEMORY | ALIAS | RESULT | RESULT_NOFOLD

  /** RTLRegister without the copy of the defining instruction (result, memory, alias, arg_index), which
      every writer keeps equal to the instruction at "birth". */
  datatype Reg = Reg(source: Source, value: int, live: bool, birth: int, death: int)

  const UndefinedReg := Reg(UNDEFINED, 0, false, 0, 0)

  /** The code-stream half of RTLBlock. */
  datatype Span = Span(first: int, last: int, next: int, prev: int)

  /** The control-flow half of RTLBlock: seven entry slots, an overflow link, two exit slots. */
  datatype Edges = Edges(entries: seq<int>, overflow: int, exits: seq<int>)

  /** Everything that determines what a unit does when run. */
  datatype Code = Code(decl: Decl, insns: seq<Insn>, spans: seq<Span>, labels: seq<int>)
}
