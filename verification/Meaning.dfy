/** What each integer opcode computes, as documented in rtl.h, on operands held as 64-bit patterns.
    None marks the cases rtl.h leaves undefined.  Results are truncated by the register they are written to. */
module Meaning {
  import opened Rtl
  import opened Arith

  function Flag(b: bool): int { if b then 1 else 0 }

  /** Number of binary digits of x. */
  function BitLength(x: nat): nat { if x == 0 then 0 else 1 + BitLength(x / 2) }

  /** The low n bytes of x in reverse order. */
  function ByteReverse(n: nat, x: nat): nat {
    if n == 0 then 0 else (x % 256) * Pow2(8 * (n - 1)) + ByteReverse(n - 1, x / 256)
  }

  /** Rotation of a w-bit value left by k <= w positions. */
  function RotateLeft(w: nat, x: nat, k: nat): int
    requires k <= w
  {
    (x * Pow2(k)) % Pow2(w) + x / Pow2(w - k)
  }

  function Eval1(f: Alu1, w: nat, x: nat): int
    requires w == 32 || w == 64
  {
    match f
    case SCAST => S(w, x)
    case ZCAST => U(w, x)
    case SEXT8 => S(8, x)
    case SEXT16 => S(16, x)
    case NEG => 0 - U(w, x)
    case NOT => Pow2(w) - 1 - U(w, x)
    case CLZ => w - BitLength(U(w, x))
    case BSWAP => ByteReverse(w / 8, U(w, x))
  }

  function Eval2(f: Alu2, w: nat, x: nat, y: nat): Option<int>
    requires w == 32 || w == 64
  {
    var ux, uy, sx, sy := U(w, x), U(w, y), S(w, x), S(w, y);
    match f
    case ADD => Some(ux + uy)
    case SUB => Some(ux - uy)
    case MUL => Some(ux * uy)
    case MULHU => Some(ux * uy / Pow2(w))
    case MULHS => Some(sx * sy / Pow2(w))
    case DIVU => if uy == 0 then None else Some(ux / uy)
    case DIVS => if uy == 0 then None else Some(TruncDiv(sx, sy))
    case MODU => if uy == 0 then None else Some(ux % uy)
    case MODS => if uy == 0 then None else Some(TruncMod(sx, sy))
    case AND => Some(And(ux, uy))
    case OR => Some(Or(ux, uy))
    case XOR => Some(Xor(ux, uy))
    case SLL => if y >= w then None else Some(ux * Pow2(y))
    case SRL => if y >= w then None else Some(ux / Pow2(y))
    case SRA => if y >= w then None else Some(sx / Pow2(y))
    case ROL => Some(RotateLeft(w, ux, y % w))
    case ROR => Some(RotateLeft(w, ux, w - y % w))
    case SEQ => Some(Flag(ux == uy))
    case SLTU => Some(Flag(ux < uy))
    case SLTS => Some(Flag(sx < sy))
    case SGTU => Some(Flag(ux > uy))
    case SGTS => Some(Flag(sx > sy))
  }

  function RegisterForm(fi: AluImm): Alu2 {
    match fi
    case ADDI => ADD
    case MULI => MUL
    case ANDI => AND
    case ORI => OR
    case XORI => XOR
    case SLLI => SLL
    case SRLI => SRL
    case SRAI => SRA
    case RORI => ROR
    case SEQI => SEQ
    case SLTUI => SLTU
    case SLTSI => SLTS
    case SGTUI => SGTU
    case SGTSI => SGTS
  }

  /** An immediate form is its register form with the sign-extended immediate as second operand. */
  function EvalImm(fi: AluImm, w: nat, x: nat, imm: int): Option<int>
    requires w == 32 || w == 64
  {
    Eval2(RegisterForm(fi), w, x, U(64, imm))
  }

  function FieldStart(other: int): nat { other % 256 }

  function FieldCount(other: int): nat { other / 256 % 256 }

  /** Bits [start, start+count) of x. */
  function EvalExtract(w: nat, x: nat, other: int): int {
    U(w, x) / Pow2(FieldStart(other)) % Pow2(FieldCount(other))
  }

  /** x with bits [start, start+count) replaced by the low bits of y. */
  function EvalInsert(w: nat, x: nat, y: nat, other: int): int {
    var start, count := FieldStart(other), FieldCount(other);
    U(w, x) / Pow2(start + count) * Pow2(start + count)
    + y % Pow2(count) * Pow2(start)
    + U(w, x) % Pow2(start)
  }
}
