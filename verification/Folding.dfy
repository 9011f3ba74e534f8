/** The arithmetic of constant folding (fold_constant, mulh64, convert_to_regimm) as the C code computes it,
    compared with the documented opcode meanings. */
module Folding {
  import opened Rtl
  import opened Arith
  import opened Meaning

  // ---- Modular arithmetic ----

  lemma {:induction false} ModShift(x: int, k: int, m: int)
    requires m > 0
    ensures (x + k * m) % m == x % m
    decreases if k < 0 then -k else k
  {
    if k > 0 {
      ModShift(x, k - 1, m);
      ModStep(x + (k - 1) * m, m);
      assert x + k * m == x + (k - 1) * m + m;
    } else if k < 0 {
      ModShift(x, k + 1, m);
      ModStep(x + k * m, m);
      assert x + (k + 1) * m == x + k * m + m;
    }
  }

  lemma ModStep(x: int, m: int)
    requires m > 0
    ensures (x + m) % m == x % m
  {
    var q, r := x / m, x % m;
    assert x + m == (q + 1) * m + r;
    ModUnique(x + m, m, q + 1, r);
  }

  lemma Distribute(p: int, q: int, m: int)
    ensures (p - q) * m == p * m - q * m && (p + q) * m == p * m + q * m
  {}

  lemma AtLeast(k: int, m: int)
    requires k >= 1 && m > 0
    ensures k * m >= m
  {}

  lemma ModUnique(x: int, m: int, q: int, r: int)
    requires m > 0 && x == q * m + r && 0 <= r < m
    ensures x % m == r && x / m == q
  {
    var q' := x / m;
    assert x == q' * m + x % m;
    Distribute(q, q', m);
    Distribute(q', q, m);
    if q > q' { AtLeast(q - q', m); } else if q < q' { AtLeast(q' - q, m); }
  }

  lemma UShift(w: nat, x: int, k: int)
    ensures U(w, x + k * Pow2(w)) == U(w, x)
  {
    ModShift(x, k, Pow2(w));
  }

  /** Reducing modulo 2^64 first does not change the value modulo 2^32. */
  lemma UNarrow(x: int)
    ensures U(32, U(64, x)) == U(32, x)
  {
    Pow2Values();
    var q := x / Pow2(64);
    assert x == q * Pow2(64) + U(64, x);
    assert Pow2(64) == Pow2(32) * Pow2(32);
    assert q * Pow2(64) == (q * Pow2(32)) * Pow2(32);
    UShift(32, U(64, x), q * Pow2(32));
  }

  /** Numbers with equal remainders differ by a multiple of the modulus. */
  lemma SameRemainder(x: int, y: int, m: int) returns (k: int, d: int)
    requires m > 0 && x % m == y % m
    ensures d == k * m && x == y + d
  {
    var q, p := x / m, y / m;
    k, d := q - p, (q - p) * m;
    Distribute(q, p, m);
  }

  lemma UCongruent(w: nat, x: int, y: int, z: int)
    requires U(w, x) == U(w, y)
    ensures U(w, x + z) == U(w, y + z) && U(w, z - x) == U(w, z - y)
  {
    var k, d := SameRemainder(x, y, Pow2(w));
    UShift(w, y + z, k);
    var k', d' := SameRemainder(y, x, Pow2(w));
    UShift(w, z - y, k');
  }

  lemma UTimes(w: nat, x: int, y: int, z: int)
    requires U(w, x) == U(w, y)
    ensures U(w, x * z) == U(w, y * z)
  {
    var k, d := SameRemainder(x, y, Pow2(w));
    TimesShift(y, k, Pow2(w), z);
    UShift(w, y * z, k * z);
  }

  lemma TimesShift(y: int, k: int, m: int, z: int)
    ensures (y + k * m) * z == y * z + (k * z) * m
  {
    Distribute(y, -(k * m), z);
    assert (k * m) * z == (k * z) * m;
  }

  lemma USmall(w: nat, x: nat)
    requires x < Pow2(w)
    ensures U(w, x) == x
  {
    ModUnique(x, Pow2(w), 0, x);
  }

  lemma UIdem(w: nat, x: int)
    ensures U(w, U(w, x)) == U(w, x)
  {
    USmall(w, U(w, x));
  }

  // ---- mulh64 ----

  const B := 0x1_0000_0000

  /** The sum of the middle partial products, before the C code's 64-bit addition truncates it. */
  function MidSum(a: nat, b: nat): nat {
    (a / B) * (b % B) + (a % B) * (b / B) + (a % B) * (b % B) / B
  }

  /** The unsigned high word as mulh64 accumulates it. */
  function HighWord(a: nat, b: nat): nat {
    U(64, (a / B) * (b / B) + U(64, MidSum(a, b)) / B)
  }

  /** mulh64, statement by statement. */
  function Mulh64(a: nat, b: nat, isSigned: bool): nat {
    var aSign, bSign := isSigned && a >= Pow2(63), isSigned && b >= Pow2(63);
    var aAbs: nat, bAbs: nat := if aSign then U(64, 0 - a) else a, if bSign then U(64, 0 - b) else b;
    var high := HighWord(aAbs, bAbs);
    if aSign == bSign then high
    else if U(64, a * b) != 0 then U(64, U(64, 0 - high) - 1)
    else U(64, 0 - high)
  }

  lemma Times4(ah: int, al: int, bh: int, bl: int, k: int)
    ensures (ah * k + al) * (bh * k + bl) == (ah * bh) * (k * k) + (ah * bl + al * bh) * k + al * bl
  {
    assert (ah * k + al) * (bh * k + bl) == (ah * k) * (bh * k) + (ah * k) * bl + al * (bh * k) + al * bl;
    assert (ah * k) * (bh * k) == (ah * bh) * (k * k);
    assert (ah * k) * bl == (ah * bl) * k && al * (bh * k) == (al * bh) * k;
  }

  lemma MulBounds(x: nat, y: nat, m: nat, n: nat)
    requires x <= m && y <= n
    ensures x * y <= m * n
  {
    assert x * y <= m * y <= m * n;
  }

  /** The schoolbook identity: the high word of a*b is high + MidSum / 2^32. */
  lemma HighWordExact(a: nat, b: nat) returns (hi: nat, high: int)
    requires a < Pow2(64) && b < Pow2(64)
    ensures hi == (a / B) * (b / B) && high == a * b / Pow2(64)
    ensures high == hi + MidSum(a, b) / B
    ensures MidSum(a, b) < 2 * Pow2(64)
  {
    Pow2Values();
    var ah, al, bh, bl := a / B, a % B, b / B, b % B;
    Times4(ah, al, bh, bl, B);
    var low, mid := al * bl, MidSum(a, b);
    var lq, lr := low / B, low % B;
    var mq, mr := mid / B, mid % B;
    assert low == lq * B + lr && mid == mq * B + mr;
    MulBounds(ah, bl, B - 1, B - 1);
    MulBounds(al, bh, B - 1, B - 1);
    MulBounds(al, bl, B - 1, B - 1);
    assert a * b == (ah * bh + mq) * (B * B) + mr * B + lr by {
      assert a * b == (ah * bh) * (B * B) + (ah * bl + al * bh + lq) * B + lr;
      assert (ah * bh + mq) * (B * B) == (ah * bh) * (B * B) + mq * (B * B);
      assert (mq * B + mr) * B == mq * (B * B) + mr * B;
    }
    ModUnique(a * b, B * B, ah * bh + mq, mr * B + lr);
    hi, high := ah * bh, a * b / Pow2(64);
  }

  /** Unsigned mulh64 is exact if and only if the middle sum fits in 64 bits; otherwise it is short by 2^32. */
  lemma MulhUnsigned(a: nat, b: nat)
    requires a < Pow2(64) && b < Pow2(64)
    ensures Mulh64(a, b, false) == a * b / Pow2(64) <==> MidSum(a, b) < Pow2(64)
    ensures MidSum(a, b) >= Pow2(64) ==> Mulh64(a, b, false) == a * b / Pow2(64) - B
  {
    Pow2Values();
    HighWordUnsigned(a, b);
  }

  lemma HighWordUnsigned(a: nat, b: nat)
    requires a < Pow2(64) && b < Pow2(64)
    ensures HighWord(a, b) == a * b / Pow2(64) - if MidSum(a, b) < Pow2(64) then 0 else B
  {
    hide MidSum;
    ProductHigh(a, b);
    var hi, high := HighWordExact(a, b);
    HighFromParts(hi, MidSum(a, b), high);
  }

  lemma HighFromParts(hi: nat, mid: nat, high: int)
    requires high == hi + mid / B && 0 <= high < Pow2(64) && mid < 2 * Pow2(64)
    ensures U(64, hi + U(64, mid) / B) == if mid < Pow2(64) then high else high - B
  {
    Pow2Values();
    if mid < Pow2(64) {
      USmall(64, mid);
      USmall(64, high);
    } else {
      WrappedMid(mid);
      USmall(64, high - B);
    }
  }

  lemma WrappedMid(mid: nat)
    requires Pow2(64) <= mid < 2 * Pow2(64)
    ensures U(64, mid) / B == mid / B - B
  {
    Pow2Values();
    ModUnique(mid, Pow2(64), 1, mid - Pow2(64));
  }

  lemma ProductHigh(a: nat, b: nat)
    requires a < Pow2(64) && b < Pow2(64)
    ensures 0 <= a * b / Pow2(64) < Pow2(64)
  {
    Pow2Values();
    MulBounds(a, b, Pow2(64) - 1, Pow2(64) - 1);
  }

  lemma MulhMagnitude(a: nat, b: nat)
    requires a <= Pow2(63) && b <= Pow2(63)
    ensures HighWord(a, b) == a * b / Pow2(64)
  {
    Pow2Values();
    var ah, al, bh, bl := a / B, a % B, b / B, b % B;
    MulBounds(ah, bl, 0x8000_0000, B - 1);
    MulBounds(al, bh, B - 1, 0x8000_0000);
    MulBounds(al, bl, B - 1, B - 1);
    assert al * bl / B < B;
    MulhUnsigned(a, b);
  }

  lemma Negated(x: int)
    requires Pow2(63) <= x < Pow2(64)
    ensures U(64, -x) == -S(64, x) == Pow2(64) - x && U(64, -x) <= Pow2(63)
  {
    Pow2Values();
    USmall(64, x);
    ModUnique(-x, Pow2(64), -1, Pow2(64) - x);
  }

  lemma FloorNegative(p: int, m: int)
    requires m > 0
    ensures (0 - p) / m == -(p / m) - (if p % m != 0 then 1 else 0)
    ensures (0 - p) % m == 0 <==> p % m == 0
  {
    var q, r := p / m, p % m;
    assert p == q * m + r;
    Distribute(0, q, m);
    Distribute(0 - q, 1, m);
    if r == 0 { ModUnique(0 - p, m, -q, 0); } else { ModUnique(0 - p, m, -q - 1, m - r); }
  }

  /** Signed mulh64 is exact for all operands. */
  lemma MulhSigned(a: nat, b: nat)
    requires a < Pow2(64) && b < Pow2(64)
    ensures Mulh64(a, b, true) == U(64, S(64, a) * S(64, b) / Pow2(64))
  {
    hide U, S, Mulh64;
    var x := Magnitude(a);
    var y := Magnitude(b);
    SignedProduct(x, y, S(64, a), S(64, b), a >= Pow2(63), b >= Pow2(63));
    HighOfMagnitudes(x, y);
    MulhOfMagnitudes(a, b, x, y);
    if (a >= Pow2(63)) != (b >= Pow2(63)) {
      LowWord(a, b, a >= Pow2(63), x, y);
      HighOfNegative(x, y, HighWord(x, y));
    }
  }

  lemma Magnitude(a: nat) returns (x: nat)
    requires a < Pow2(64)
    ensures x <= Pow2(63) && x == if a >= Pow2(63) then U(64, 0 - a) else a
    ensures S(64, a) == (if a >= Pow2(63) then 0 - x else x) && (a >= Pow2(63) ==> a == Pow2(64) - x)
  {
    Pow2Values();
    USmall(64, a);
    if a >= Pow2(63) { Negated(a); }
    x := if a >= Pow2(63) then U(64, 0 - a) else a;
  }

  lemma MulhOfMagnitudes(a: nat, b: nat, x: nat, y: nat)
    requires x == (if a >= Pow2(63) then U(64, 0 - a) else a) && y == if b >= Pow2(63) then U(64, 0 - b) else b
    ensures Mulh64(a, b, true) ==
      if (a >= Pow2(63)) == (b >= Pow2(63)) then HighWord(x, y)
      else if U(64, a * b) != 0 then U(64, U(64, 0 - HighWord(x, y)) - 1) else U(64, 0 - HighWord(x, y))
  {
    hide HighWord, U, Pow2;
  }

  lemma HighOfMagnitudes(x: nat, y: nat)
    requires x <= Pow2(63) && y <= Pow2(63)
    ensures HighWord(x, y) == x * y / Pow2(64) == U(64, x * y / Pow2(64))
  {
    MulhMagnitude(x, y);
    UIdem(64, (x / B) * (y / B) + U(64, MidSum(x, y)) / B);
  }

  /** Negating a product: its high word is the negated high word, less one when the low word is not zero. */
  lemma HighOfNegative(x: nat, y: nat, high: int)
    requires high == x * y / Pow2(64)
    ensures U(64, (0 - x * y) / Pow2(64)) == if U(64, x * y) != 0 then U(64, U(64, 0 - high) - 1) else U(64, 0 - high)
  {
    hide Pow2;
    FloorNegative(x * y, Pow2(64));
    UIdem(64, 0 - high);
    UCongruent(64, U(64, 0 - high), 0 - high, -1);
  }

  lemma SignedProduct(x: int, y: int, sa: int, sb: int, aSign: bool, bSign: bool)
    requires sa == (if aSign then 0 - x else x) && sb == if bSign then 0 - y else y
    ensures sa * sb == if aSign == bSign then x * y else 0 - x * y
  {}

  /** The low word of the unsigned product is zero exactly when that of the magnitudes is. */
  lemma LowWord(a: int, b: int, aSign: bool, x: int, y: int)
    requires if aSign then a == Pow2(64) - x && b == y else a == x && b == Pow2(64) - y
    ensures U(64, a * b) == 0 <==> U(64, x * y) == 0
  {
    var p, q := a * b, x * y;
    assert U(64, p) == U(64, 0 - q) by {
      if aSign { MinusTimes(x, y); } else { MinusTimes(y, x); assert y * x == q && (Pow2(64) - y) * x == p; }
    }
    FloorNegative(q, Pow2(64));
  }

  lemma MinusTimes(x: int, y: int)
    ensures U(64, (Pow2(64) - x) * y) == U(64, 0 - x * y)
  {
    var m, p := Pow2(64), x * y;
    Distribute(m, x, y);
    assert (m - x) * y == m * y - p;
    UShift(64, 0 - p, y);
  }

  // ---- fold_constant ----

  function U32(x: int): nat { U(32, x) }
  function U64(x: int): nat { U(64, x) }
  function I32(x: int): int { S(32, x) }
  function I64(x: int): int { S(64, x) }

  lemma QuotientIsNat(x: nat, m: int)
    requires m > 0
    ensures x / m >= 0
  {
    var q := x / m;
    assert x == q * m + x % m;
    if q < 0 {
      AtLeast(-q, m);
      Distribute(0, q, m);
    }
  }

  /** C's >> on an unsigned value. */
  function Shr(x: nat, n: nat): (r: nat)
    ensures r == x / Pow2(n)
  {
    QuotientIsNat(x, Pow2(n));
    x / Pow2(n)
  }

  /** ror32 / ror64: x >> (count & mask) | x << (-count & mask). */
  function Ror(w: nat, x: nat, count: int): nat
    requires w == 32 || w == 64
  {
    Or(Shr(x, count % w), U(w, x * Pow2(-count % w)))
  }

  /** fold_constant for one-operand opcodes; "narrow" is src1->type == RTLTYPE_INT32. */
  function Fold1(f: Alu1, narrow: bool, x: nat): int {
    match f
    case SCAST => if narrow then U64(I32(x)) else x
    case ZCAST => if narrow then U32(x) else x
    case SEXT8 => U64(S(8, x))
    case SEXT16 => U64(S(16, x))
    case NEG => if narrow then U32(0 - U32(x)) else U64(0 - x)
    case NOT => if narrow then 0xFFFF_FFFF - U32(x) else 0xFFFF_FFFF_FFFF_FFFF - x
    case CLZ => if narrow then 32 - BitLength(U32(x)) else 64 - BitLength(x)
    case BSWAP => if narrow then ByteReverse(4, U32(x)) else ByteReverse(8, x)
  }

  /** fold_constant for two-operand opcodes; None where the C expression itself is undefined (shift counts). */
  function Fold2(f: Alu2, narrow: bool, x: nat, y: nat): Option<int> {
    match f
    case ADD => Some(if narrow then U32(U32(x) + U32(y)) else U64(x + y))
    case SUB => Some(if narrow then U32(U32(x) - U32(y)) else U64(x - y))
    case MUL => Some(if narrow then U32(U32(x) * U32(y)) else U64(x * y))
    case MULHU => Some(if narrow then U32(x) * U32(y) / Pow2(32) else Mulh64(x, y, false))
    case MULHS => Some(if narrow then U64(I32(x) * I32(y) / Pow2(32)) else Mulh64(x, y, true))
    case DIVU =>
      if narrow then Some(if U32(y) == 0 then 0 else U32(x) / U32(y)) else Some(if y == 0 then 0 else x / y)
    case DIVS =>
      if narrow then
        Some(if U32(y) == 0 then 0
             else if U32(x) == 0x8000_0000 && I32(y) == -1 then 0x8000_0000
             else U64(TruncDiv(I32(x), I32(y))))
      else
        Some(if U64(y) == 0 then 0
             else if x == 0x8000_0000_0000_0000 && y == 0xFFFF_FFFF_FFFF_FFFF then 0x8000_0000_0000_0000
             else U64(TruncDiv(I64(x), I64(y))))
    case MODU =>
      if narrow then Some(if U32(y) == 0 then 0 else U32(x) % U32(y)) else Some(if y == 0 then 0 else x % y)
    case MODS =>
      if narrow then
        Some(if U32(y) == 0 then 0
             else if U32(x) == 0x8000_0000 && I32(y) == -1 then 0
             else U64(TruncMod(I32(x), I32(y))))
      else
        Some(if U64(y) == 0 then 0
             else if x == 0x8000_0000_0000_0000 && y == 0xFFFF_FFFF_FFFF_FFFF then 0
             else U64(TruncMod(I64(x), I64(y))))
    case AND => Some(And(x, y))
    case OR => Some(Or(x, y))
    case XOR => Some(Xor(x, y))
    case SLL => if narrow then (if y < 32 then Some(U32(U32(x) * Pow2(y))) else None)
                else if y < 64 then Some(U64(x * Pow2(y))) else None
    case SRL => if narrow then (if y < 32 then Some(U32(x) / Pow2(y)) else None)
                else if y < 64 then Some(x / Pow2(y)) else None
    case SRA => if narrow then (if y < 32 then Some(U64(I32(x) / Pow2(y))) else None)
                else if y < 64 then Some(U64(I64(x) / Pow2(y))) else None
    case ROL => Some(if narrow then Ror(32, U32(x), -I32(y)) else Ror(64, x, -I32(y)))
    case ROR => Some(if narrow then Ror(32, U32(x), I32(y)) else Ror(64, x, I32(y)))
    case SEQ => Some(Flag(if narrow then U32(x) == U32(y) else x == y))
    case SLTU => Some(Flag(if narrow then U32(x) < U32(y) else x < y))
    case SLTS => Some(Flag(if narrow then I32(x) < I32(y) else I64(x) < I64(y)))
    case SGTU => Some(Flag(if narrow then U32(x) > U32(y) else x > y))
    case SGTS => Some(Flag(if narrow then I32(x) > I32(y) else I64(x) > I64(y)))
  }

  /** fold_constant for register-immediate opcodes; imm is the signed 32-bit immediate. */
  function FoldImm(f: AluImm, narrow: bool, x: nat, imm: int): Option<int> {
    match f
    case ADDI => Some(if narrow then U32(U32(x) + U32(imm)) else U64(x + imm))
    case MULI => Some(if narrow then U32(U32(x) * U32(imm)) else U64(x * imm))
    case ANDI => Some(if narrow then And(U32(x), U32(imm)) else And(x, U64(imm)))
    case ORI => Some(if narrow then Or(U32(x), U32(imm)) else Or(x, U64(imm)))
    case XORI => Some(if narrow then Xor(U32(x), U32(imm)) else Xor(x, U64(imm)))
    case SLLI => if narrow then (if 0 <= imm < 32 then Some(U32(U32(x) * Pow2(imm))) else None)
                 else if 0 <= imm < 64 then Some(U64(x * Pow2(imm))) else None
    case SRLI => if narrow then (if 0 <= imm < 32 then Some(U32(x) / Pow2(imm)) else None)
                 else if 0 <= imm < 64 then Some(x / Pow2(imm)) else None
    case SRAI => if narrow then (if 0 <= imm < 32 then Some(U64(I32(x) / Pow2(imm))) else None)
                 else if 0 <= imm < 64 then Some(U64(I64(x) / Pow2(imm))) else None
    case RORI => Some(if narrow then Ror(32, U32(x), imm) else Ror(64, x, imm))
    case SEQI => Some(Flag(if narrow then U32(x) == U32(imm) else x == U64(imm)))
    case SLTUI => Some(Flag(if narrow then U32(x) < U32(imm) else x < U64(imm)))
    case SLTSI => Some(Flag(if narrow then I32(x) < I32(imm) else I64(x) < imm))
    case SGTUI => Some(Flag(if narrow then U32(x) > U32(imm) else x > U64(imm)))
    case SGTSI => Some(Flag(if narrow then I32(x) > I32(imm) else I64(x) > imm))
  }

  /** BFEXT; None where a C shift count reaches the operand width. */
  function FoldExtract(narrow: bool, x: nat, other: int): Option<int> {
    var w, start, count := if narrow then 32 else 64, FieldStart(other), FieldCount(other);
    if start >= w || count >= w then None
    else Some(And(Shr(U(w, x), start), Pow2(count) - 1))
  }

  /** BFINS; the mask is built in w bits. */
  function FoldInsert(narrow: bool, x: nat, y: nat, other: int): Option<int> {
    var w, start, count := if narrow then 32 else 64, FieldStart(other), FieldCount(other);
    if start >= w || count >= w then None
    else
      var mask := U(w, (Pow2(count) - 1) * Pow2(start));
      Some(Or(And(x, Pow2(w) - 1 - mask), And(U64(y * Pow2(start)), mask)))
  }

  /** Folding f gives a value that is right modulo the operand width, where the meaning is defined. */
  predicate Agrees(f: Alu2, narrow: bool, x: nat, y: nat) {
    var w := if narrow then 32 else 64;
    Eval2(f, w, x, y).Some? ==>
      Fold2(f, narrow, x, y).Some? && U(w, Fold2(f, narrow, x, y).value) == U(w, Eval2(f, w, x, y).value)
  }

  predicate IsCompare(f: Alu2) { f.SEQ? || f.SLTU? || f.SLTS? || f.SGTU? || f.SGTS? }

  predicate Fits(w: nat, x: int) { 0 <= x < Pow2(w) }

  /** Rotating right by count is rotating left by -count (mod w). */
  lemma RorIsRotate(w: nat, x: nat, count: int)
    requires (w == 32 || w == 64) && Fits(w, x)
    ensures Ror(w, x, count) == RotateLeft(w, x, -count % w)
  {
    NegMod(count, w);
    if count % w == 0 { RotateZero(w, x); } else { RotatePart(w, x, count % w, w - count % w); }
  }

  lemma NegMod(x: int, w: int)
    requires w > 0
    ensures (-x) % w == if x % w == 0 then 0 else w - x % w
  {
    var q, r := x / w, x % w;
    assert x == q * w + r;
    Distribute(0, q, w);
    Distribute(0 - q, 1, w);
    if r == 0 { ModUnique(-x, w, -q, 0); } else { ModUnique(-x, w, -q - 1, w - r); }
  }

  lemma RotateZero(w: nat, x: nat)
    requires Fits(w, x)
    ensures Or(Shr(x, 0), U(w, x * Pow2(0))) == RotateLeft(w, x, 0) == x
  {
    USmall(w, x);
    OrSelf(x);
    ModUnique(x, Pow2(w), 0, x);
  }

  lemma RotatePart(w: nat, x: nat, c: nat, d: nat)
    requires w == c + d && Fits(w, x)
    ensures Or(Shr(x, c), U(w, x * Pow2(d))) == RotateLeft(w, x, d)
  {
    hide Pow2;
    Pow2Add(c, d);
    var h, l := DivMod(x, Pow2(c));
    RotateParts(x, h, l, Pow2(c), Pow2(d));
    OrDisjoint(d, l, h);
  }

  lemma RotateParts(x: nat, h: nat, l: nat, p: int, q: int)
    requires p > 0 && q > 0 && x == h * p + l && l < p && x < p * q
    ensures (x * q) % (p * q) == l * q && h < q
  {
    assert h < q by { if h >= q { MulBounds(q, p, h, p); } }
    assert x * q == h * (p * q) + l * q;
    assert 0 <= l * q < p * q;
    ModUnique(x * q, p * q, h, l * q);
  }

  /** The int conversion of a shift count keeps the bits a rotation uses. */
  lemma CountBits(w: nat, y: nat)
    requires (w == 32 || w == 64) && y < Pow2(64)
    ensures I32(y) % w == y % w
  {
    Pow2Values();
    var q := y / Pow2(32);
    assert y == q * Pow2(32) + U32(y);
    var k := if w == 32 then 0x800_0000 else 0x400_0000;
    var e := if I32(y) == U32(y) then 0 else 1;
    assert y == I32(y) + ((q + e) * k) * w;
    ModShift(I32(y), (q + e) * k, w);
  }

  lemma RotateWhole(w: nat, x: nat)
    requires Fits(w, x)
    ensures RotateLeft(w, x, w) == x
  {
    ModUnique(x * Pow2(w), Pow2(w), x, 0);
  }

  lemma RotateFolds(w: nat, x: nat, y: nat)
    requires (w == 32 || w == 64) && Fits(w, x) && Fits(64, y)
    ensures Ror(w, x, -I32(y)) == RotateLeft(w, x, y % w)
    ensures Ror(w, x, I32(y)) == RotateLeft(w, x, w - y % w)
  {
    hide RotateLeft, Ror;
    CountBits(w, y);
    RorIsRotate(w, x, -I32(y));
    RorIsRotate(w, x, I32(y));
    NegMod(I32(y), w);
    NegMod(-I32(y), w);
    RotateZero(w, x);
    RotateWhole(w, x);
  }

  /** One-operand folding agrees with the documented meaning for every destination width it can have. */
  lemma Fold1Correct(f: Alu1, narrow: bool, x: nat, sw: nat)
    requires var w := if narrow then 32 else 64;
      && Fits(w, x) && (sw == 32 || sw == 64) && (f.NEG? || f.NOT? || f.BSWAP? ==> sw == w)
    ensures U(sw, Fold1(f, narrow, x)) == U(sw, Eval1(f, if narrow then 32 else 64, x))
  {
    Pow2Values();
    var w := if narrow then 32 else 64;
    USmall(w, x);
    UNarrow(I32(x));
    UNarrow(S(8, x));
    UNarrow(S(16, x));
    UIdem(64, I32(x));
    UIdem(64, S(8, x));
    UIdem(64, S(16, x));
    UIdem(w, 0 - x);
    if f.SCAST? && !narrow && x >= Pow2(63) {
      UShift(64, S(64, x), 1);
      UNarrow(x);
      UNarrow(S(64, x));
    }
  }

  lemma FoldMul(w: nat, x: nat, y: nat)
    requires Fits(w, x) && Fits(w, y)
    ensures U(w, x) == x && U(w, y) == y
    ensures U(w, U(w, x * y)) == U(w, x * y) && U(w, U(w, x + y)) == U(w, x + y) && U(w, U(w, x - y)) == U(w, x - y)
  {
    USmall(w, x);
    USmall(w, y);
    UIdem(w, x * y);
    UIdem(w, x + y);
    UIdem(w, x - y);
  }

  /** The truncated quotient of the overflow case is 2^(w-1), which C's special case also returns. */
  lemma OverflowQuotient(x: int, y: int)
    ensures y == -1 ==> TruncDiv(x, y) == -x && TruncMod(x, y) == 0
  {}

  predicate IsShift(f: Alu2) { f.SLL? || f.SRL? || f.SRA? || f.ROL? || f.ROR? }

  lemma FoldShiftLeft(narrow: bool, x: nat, y: nat)
    requires Fits(if narrow then 32 else 64, x)
    ensures Agrees(SLL, narrow, x, y) && Agrees(SRL, narrow, x, y)
  {
    var w := if narrow then 32 else 64;
    USmall(w, x);
    UIdem(w, x * Pow2(y));
  }

  lemma FoldShiftRight(narrow: bool, x: nat, y: nat)
    ensures Agrees(SRA, narrow, x, y)
  {
    UNarrow(I32(x) / Pow2(y));
    UIdem(64, I64(x) / Pow2(y));
  }

  lemma FoldRotate(narrow: bool, x: nat, y: nat)
    requires Fits(if narrow then 32 else 64, x) && Fits(64, y)
    ensures Agrees(ROL, narrow, x, y) && Agrees(ROR, narrow, x, y)
  {
    hide Ror, RotateLeft, Pow2, U, S, And, Or, Xor, Flag, TruncDiv, TruncMod, Mulh64;
    USmall(if narrow then 32 else 64, x);
    RotateFolds(if narrow then 32 else 64, x, y);
  }

  lemma FoldShift(f: Alu2, narrow: bool, x: nat, y: nat)
    requires IsShift(f) && Fits(if narrow then 32 else 64, x) && Fits(64, y)
    ensures Agrees(f, narrow, x, y)
  {
    hide Agrees;
    FoldShiftLeft(narrow, x, y);
    FoldShiftRight(narrow, x, y);
    FoldRotate(narrow, x, y);
  }

  lemma FoldSigned(narrow: bool, v: int)
    ensures U(if narrow then 32 else 64, U64(v)) == U(if narrow then 32 else 64, v)
  {
    UNarrow(v);
    UIdem(64, v);
  }

  lemma FoldDivide(f: Alu2, narrow: bool, x: nat, y: nat)
    requires f.DIVU? || f.DIVS? || f.MODU? || f.MODS?
    requires Fits(if narrow then 32 else 64, x) && Fits(if narrow then 32 else 64, y)
    ensures Agrees(f, narrow, x, y)
  {
    hide Agrees;
    if f.DIVU? || f.MODU? {
      DivideUnsigned(narrow, x, y);
    } else {
      DivideSigned(narrow, x, y);
      RemainderSigned(narrow, x, y);
    }
  }

  lemma DivideUnsigned(narrow: bool, x: nat, y: nat)
    requires Fits(if narrow then 32 else 64, x) && Fits(if narrow then 32 else 64, y)
    ensures Agrees(DIVU, narrow, x, y) && Agrees(MODU, narrow, x, y)
  {
    USmall(if narrow then 32 else 64, x);
    USmall(if narrow then 32 else 64, y);
  }

  lemma DivideSigned(narrow: bool, x: nat, y: nat)
    requires Fits(if narrow then 32 else 64, x) && Fits(if narrow then 32 else 64, y)
    ensures Agrees(DIVS, narrow, x, y)
  {
    hide TruncDiv, TruncMod;
    Pow2Values();
    var w := if narrow then 32 else 64;
    USmall(w, x);
    USmall(w, y);
    var sx, sy := S(w, x), S(w, y);
    OverflowQuotient(sx, sy);
    if sy != 0 { FoldSigned(narrow, TruncDiv(sx, sy)); }
  }

  lemma RemainderSigned(narrow: bool, x: nat, y: nat)
    requires Fits(if narrow then 32 else 64, x) && Fits(if narrow then 32 else 64, y)
    ensures Agrees(MODS, narrow, x, y)
  {
    hide TruncDiv, TruncMod;
    Pow2Values();
    var w := if narrow then 32 else 64;
    USmall(w, x);
    USmall(w, y);
    var sx, sy := S(w, x), S(w, y);
    OverflowQuotient(sx, sy);
    if sy != 0 { FoldSigned(narrow, TruncMod(sx, sy)); }
  }

  lemma FoldHigh(f: Alu2, narrow: bool, x: nat, y: nat)
    requires (f.MULHU? || f.MULHS?) && Fits(if narrow then 32 else 64, x) && Fits(if narrow then 32 else 64, y)
    requires f.MULHU? && !narrow ==> MidSum(x, y) < Pow2(64)
    ensures Agrees(f, narrow, x, y)
  {
    hide Mulh64, MidSum;
    var w := if narrow then 32 else 64;
    USmall(w, x);
    USmall(w, y);
    if narrow {
      FoldSigned(narrow, I32(x) * I32(y) / Pow2(32));
    } else if f.MULHU? {
      MulhUnsigned(x, y);
    } else {
      MulhSigned(x, y);
      UIdem(64, S(64, x) * S(64, y) / Pow2(64));
    }
  }

  lemma FoldSum(narrow: bool, x: nat, y: nat)
    requires Fits(if narrow then 32 else 64, x) && Fits(if narrow then 32 else 64, y)
    ensures Agrees(ADD, narrow, x, y) && Agrees(SUB, narrow, x, y)
  {
    FoldMul(if narrow then 32 else 64, x, y);
  }

  lemma FoldProduct(narrow: bool, x: nat, y: nat)
    requires Fits(if narrow then 32 else 64, x) && Fits(if narrow then 32 else 64, y)
    ensures Agrees(MUL, narrow, x, y)
  {
    FoldMul(if narrow then 32 else 64, x, y);
  }

  lemma FoldBits(narrow: bool, x: nat, y: nat)
    requires Fits(if narrow then 32 else 64, x) && Fits(if narrow then 32 else 64, y)
    ensures Agrees(AND, narrow, x, y) && Agrees(OR, narrow, x, y) && Agrees(XOR, narrow, x, y)
  {
    hide Bits;
    USmall(if narrow then 32 else 64, x);
    USmall(if narrow then 32 else 64, y);
  }

  lemma FoldCompare(f: Alu2, narrow: bool, x: nat, y: nat)
    requires IsCompare(f) && Fits(if narrow then 32 else 64, x) && Fits(if narrow then 32 else 64, y)
    ensures Fold2(f, narrow, x, y) == Eval2(f, if narrow then 32 else 64, x, y)
  {
    hide Fold2, Eval2;
    if narrow {
      CompareRegsNarrow(f, x, y);
    } else {
      USmall(64, x);
      USmall(64, y);
      CompareRegsWide(f, x, y);
    }
  }

  lemma CompareRegsNarrow(f: Alu2, x: nat, y: nat)
    requires IsCompare(f)
    ensures Fold2(f, true, x, y) == Eval2(f, 32, x, y)
  {
    hide U, S, Flag, Pow2, And, Or, Xor, RotateLeft, Ror, TruncDiv, TruncMod, Mulh64;
  }

  lemma CompareRegsWide(f: Alu2, x: nat, y: nat)
    requires IsCompare(f) && U(64, x) == x && U(64, y) == y
    ensures Fold2(f, false, x, y) == Eval2(f, 64, x, y)
  {
    hide U, S, Flag, Pow2, And, Or, Xor, RotateLeft, Ror, TruncDiv, TruncMod, Mulh64;
  }

  /** Two-operand folding agrees with the documented meaning wherever that is defined, except for a 64-bit
      MULHU whose middle sum overflows. */
  lemma Fold2Correct(f: Alu2, narrow: bool, x: nat, y: nat, sw: nat)
    requires var w := if narrow then 32 else 64;
      && Fits(w, x) && Fits(if IsShift(f) then 64 else w, y)
      && (sw == 32 || sw == 64) && (!IsCompare(f) ==> sw == w)
      && (f.MULHU? && !narrow ==> MidSum(x, y) < Pow2(64))
      && Eval2(f, w, x, y).Some?
    ensures Fold2(f, narrow, x, y).Some?
    ensures U(sw, Fold2(f, narrow, x, y).value) == U(sw, Eval2(f, if narrow then 32 else 64, x, y).value)
  {
    hide Eval2, Fold2;
    if IsShift(f) {
      FoldShift(f, narrow, x, y);
    } else if f.DIVU? || f.DIVS? || f.MODU? || f.MODS? {
      FoldDivide(f, narrow, x, y);
    } else if f.MULHU? || f.MULHS? {
      FoldHigh(f, narrow, x, y);
    } else if IsCompare(f) {
      FoldCompare(f, narrow, x, y);
    } else {
      FoldSum(narrow, x, y);
      FoldProduct(narrow, x, y);
      FoldBits(narrow, x, y);
    }
  }

  // ---- Register-immediate forms and bit fields ----

  predicate IsImmediate(imm: int) { -0x8000_0000 <= imm < 0x8000_0000 }

  lemma ImmViews(imm: int)
    requires IsImmediate(imm)
    ensures U(32, U(64, imm)) == U(32, imm) && U(64, U(64, imm)) == U(64, imm)
    ensures S(32, U(64, imm)) == S(32, imm) == imm && S(64, U(64, imm)) == imm
    ensures imm >= 0 ==> U(64, imm) == imm
    ensures imm < 0 ==> U(64, imm) >= 64
  {
    Pow2Values();
    UNarrow(imm);
    UIdem(64, imm);
    if imm >= 0 {
      USmall(64, imm);
      USmall(32, imm);
    } else {
      UShift(64, imm, 1);
      USmall(64, imm + Pow2(64));
      UShift(32, imm, 1);
      USmall(32, imm + Pow2(32));
    }
  }

  predicate ImmAgrees(f: AluImm, narrow: bool, x: nat, imm: int) {
    var w := if narrow then 32 else 64;
    EvalImm(f, w, x, imm).Some? ==>
      FoldImm(f, narrow, x, imm).Some? && U(w, FoldImm(f, narrow, x, imm).value) == U(w, EvalImm(f, w, x, imm).value)
  }

  lemma FoldImmSum(narrow: bool, x: nat, imm: int)
    requires Fits(if narrow then 32 else 64, x) && IsImmediate(imm)
    ensures ImmAgrees(ADDI, narrow, x, imm)
  {
    ImmViews(imm);
    if narrow { SumNarrow(x, imm); } else { SumWide(x, imm); }
  }

  lemma SumNarrow(x: nat, imm: int)
    requires Fits(32, x) && U(32, U(64, imm)) == U(32, imm)
    ensures ImmAgrees(ADDI, true, x, imm)
  {
    UIdem(32, U(32, x) + U(32, imm));
  }

  lemma SumWide(x: nat, imm: int)
    requires Fits(64, x) && U(64, U(64, imm)) == U(64, imm)
    ensures ImmAgrees(ADDI, false, x, imm)
  {
    USmall(64, x);
    UIdem(64, x + imm);
    UCongruent(64, imm, U(64, imm), x);
  }

  lemma FoldImmProduct(narrow: bool, x: nat, imm: int)
    requires Fits(if narrow then 32 else 64, x) && IsImmediate(imm)
    ensures ImmAgrees(MULI, narrow, x, imm)
  {
    var w := if narrow then 32 else 64;
    ImmViews(imm);
    USmall(w, x);
    UIdem(w, U(w, x) * U(w, imm));
    UIdem(64, x * imm);
    UTimes(64, imm, U(64, imm), x);
  }

  lemma FoldImmBits(narrow: bool, x: nat, imm: int)
    requires Fits(if narrow then 32 else 64, x) && IsImmediate(imm)
    ensures ImmAgrees(ANDI, narrow, x, imm) && ImmAgrees(ORI, narrow, x, imm) && ImmAgrees(XORI, narrow, x, imm)
  {
    hide Bits, U, S, Flag, RotateLeft, Ror, TruncDiv, TruncMod, Pow2;
    ImmViews(imm);
    USmall(if narrow then 32 else 64, x);
  }

  lemma FoldImmShift(f: AluImm, narrow: bool, x: nat, imm: int)
    requires f.SLLI? || f.SRLI? || f.SRAI? || f.RORI?
    requires Fits(if narrow then 32 else 64, x) && IsImmediate(imm)
    ensures ImmAgrees(f, narrow, x, imm)
  {
    ImmViews(imm);
    Pow2Values();
    FoldShift(RegisterForm(f), narrow, x, U(64, imm));
    ShiftForms(f, narrow, x, imm);
  }

  /** The immediate shifts are the register shifts by the immediate. */
  lemma ShiftForms(f: AluImm, narrow: bool, x: nat, imm: int)
    requires f.SLLI? || f.SRLI? || f.SRAI? || f.RORI?
    requires I32(U(64, imm)) == imm && (if imm >= 0 then U(64, imm) == imm else U(64, imm) >= 64)
    ensures FoldImm(f, narrow, x, imm) == Fold2(RegisterForm(f), narrow, x, U(64, imm))
  {
    hide Ror, Pow2, U, And, Or, Xor, Flag, RotateLeft, TruncDiv, TruncMod, Mulh64;
  }

  lemma FoldImmCompare(f: AluImm, narrow: bool, x: nat, imm: int)
    requires IsCompare(RegisterForm(f)) && Fits(if narrow then 32 else 64, x) && IsImmediate(imm)
    ensures FoldImm(f, narrow, x, imm) == EvalImm(f, if narrow then 32 else 64, x, imm)
  {
    hide EvalImm, FoldImm;
    ImmViews(imm);
    if narrow {
      CompareNarrow(f, x, imm, U(64, imm));
    } else {
      USmall(64, x);
      CompareWide(f, x, imm, U(64, imm));
    }
  }

  lemma CompareNarrow(f: AluImm, x: nat, imm: int, y: nat)
    requires IsCompare(RegisterForm(f)) && y == U(64, imm) && U(32, y) == U(32, imm) && S(32, y) == S(32, imm) == imm
    ensures FoldImm(f, true, x, imm) == EvalImm(f, 32, x, imm)
  {
    hide U, S, Flag, Pow2, And, Or, Xor, RotateLeft, Ror, TruncDiv, TruncMod;
  }

  lemma CompareWide(f: AluImm, x: nat, imm: int, y: nat)
    requires IsCompare(RegisterForm(f)) && y == U(64, imm) && U(64, y) == y && S(64, y) == imm && U(64, x) == x
    ensures FoldImm(f, false, x, imm) == EvalImm(f, 64, x, imm)
  {
    hide U, S, Flag, Pow2, And, Or, Xor, RotateLeft, Ror, TruncDiv, TruncMod;
  }

  /** Folding a register-immediate form agrees with the documented meaning wherever that is defined. */
  lemma FoldImmCorrect(f: AluImm, narrow: bool, x: nat, imm: int, sw: nat)
    requires var w := if narrow then 32 else 64;
      && Fits(w, x) && IsImmediate(imm) && (sw == 32 || sw == 64) && (!IsCompare(RegisterForm(f)) ==> sw == w)
      && EvalImm(f, w, x, imm).Some?
    ensures FoldImm(f, narrow, x, imm).Some?
    ensures U(sw, FoldImm(f, narrow, x, imm).value) == U(sw, EvalImm(f, if narrow then 32 else 64, x, imm).value)
  {
    hide EvalImm, FoldImm;
    if IsCompare(RegisterForm(f)) {
      FoldImmCompare(f, narrow, x, imm);
    } else if f.SLLI? || f.SRLI? || f.SRAI? || f.RORI? {
      FoldImmShift(f, narrow, x, imm);
    } else {
      FoldImmSum(narrow, x, imm);
      FoldImmProduct(narrow, x, imm);
      FoldImmBits(narrow, x, imm);
    }
  }

  lemma FoldExtractCorrect(narrow: bool, x: nat, other: int)
    requires FoldExtract(narrow, x, other).Some?
    ensures FoldExtract(narrow, x, other).value == EvalExtract(if narrow then 32 else 64, x, other)
  {
    hide Pow2;
    var w, start := if narrow then 32 else 64, FieldStart(other);
    AndMask(FieldCount(other), Shr(U(w, x), start));
  }

  /** x & ~mask keeps the bits above and below the field. */
  lemma ClearField(h: nat, m: nat, l: nat, s: nat, c: nat, k: nat)
    requires l < Pow2(s) && m < Pow2(c) && h < Pow2(k)
    ensures (h * Pow2(c) + m) * Pow2(s) + l >= 0
    ensures Pow2(k + c + s) - 1 - (Pow2(c) - 1) * Pow2(s) >= 0
    ensures And((h * Pow2(c) + m) * Pow2(s) + l, Pow2(k + c + s) - 1 - (Pow2(c) - 1) * Pow2(s))
            == (h * Pow2(c)) * Pow2(s) + l
  {
    hide Pow2;
    BitsSplit(BitAnd, c, h, m, Pow2(k) - 1, 0);
    AndOnes(k, h);
    BitsZero(m);
    var p, q := h * Pow2(c) + m, (Pow2(k) - 1) * Pow2(c);
    assert And(p, q) == h * Pow2(c);
    BitsSplit(BitAnd, s, p, l, q, Pow2(s) - 1);
    AndOnes(s, l);
    MaskValue(k, c, s);
  }

  lemma MaskAlgebra(a: int, b: int, e: int)
    requires a >= 1 && b >= 1 && e >= 1
    ensures ((a - 1) * b) * e == (a * b) * e - b * e
    ensures (b - 1) * e == b * e - e && b * e <= a * (b * e)
    ensures (a * b) * e == a * (b * e)
  {
    Distribute(a, 1, b);
    Distribute(a * b, b, e);
    Distribute(b, 1, e);
    AtLeast(b, e);
    TimesAtLeast(a, b * e);
  }

  lemma TimesAtLeast(a: int, p: int)
    requires a >= 1 && p >= 0
    ensures a * p >= p
  {}

  lemma MaskValue(k: nat, c: nat, s: nat)
    ensures ((Pow2(k) - 1) * Pow2(c)) * Pow2(s) + (Pow2(s) - 1) == Pow2(k + c + s) - 1 - (Pow2(c) - 1) * Pow2(s)
    ensures 0 <= (Pow2(c) - 1) * Pow2(s) < Pow2(k + c + s)
  {
    hide Pow2;
    Pow2Add(k, c);
    Pow2Add(k + c, s);
    MaskAlgebra(Pow2(k), Pow2(c), Pow2(s));
    MaskSum(Pow2(k), Pow2(c), Pow2(s), Pow2(k + c + s));
    TimesAtLeast(Pow2(s), Pow2(c) - 1);
  }

  lemma MaskSum(a: int, b: int, e: int, t: int)
    requires ((a - 1) * b) * e == t - b * e && (b - 1) * e == b * e - e
    ensures ((a - 1) * b) * e + (e - 1) == t - 1 - (b - 1) * e
  {}

  /** (y << start) & mask is the low field of y, moved into place. */
  lemma PlaceField(y: nat, s: nat, c: nat, shifted: nat, mask: nat)
    requires shifted == y * Pow2(s) && mask == (Pow2(c) - 1) * Pow2(s)
    ensures And(shifted, mask) == (y % Pow2(c)) * Pow2(s)
  {
    hide Pow2;
    BitsSplit(BitAnd, s, y, 0, Pow2(c) - 1, 0);
    AndMask(c, y);
  }

  lemma MergeField(h: nat, v: nat, l: nat, s: nat, c: nat, kept: nat, placed: nat)
    requires l < Pow2(s) && v < Pow2(c)
    requires kept == (h * Pow2(c)) * Pow2(s) + l && placed == v * Pow2(s)
    ensures Or(kept, placed) == kept + placed
  {
    hide Pow2;
    BitsSplit(BitOr, s, h * Pow2(c), l, v, 0);
    OrDisjoint(c, h, v);
    BitsZero(l);
    Distribute(h * Pow2(c), v, Pow2(s));
  }

  lemma FieldAlgebra(h: int, m: int, l: int, a: int, b: int)
    requires 0 <= h && 0 <= m < a && 0 <= l < b
    ensures (h * a + m) * b + l == h * (b * a) + (m * b + l)
    ensures 0 <= m * b + l < b * a && (h * a) * b == h * (b * a)
  {
    Distribute(h * a, m, b);
    MulBounds(m, b, a - 1, b);
    Distribute(a, 1, b);
    TimesAtLeast(b, m);
  }

  lemma SplitField(x: nat, s: nat, c: nat) returns (h: nat, m: nat, l: nat)
    ensures l < Pow2(s) && m < Pow2(c) && x == (h * Pow2(c) + m) * Pow2(s) + l
    ensures l == x % Pow2(s) && h == x / Pow2(s + c) && x == h * Pow2(s + c) + (m * Pow2(s) + l)
  {
    hide Pow2;
    var t;
    t, l := DivMod(x, Pow2(s));
    h, m := DivMod(t, Pow2(c));
    Pow2Add(s, c);
    FieldAlgebra(h, m, l, Pow2(c), Pow2(s));
    ModUnique(x, Pow2(s + c), h, m * Pow2(s) + l);
  }

  lemma ShiftedWord(y: nat, q: nat, r: nat, e: int, p: int)
    requires y == q * e + r && r < e && p >= 1
    ensures (y * p) % (e * p) == r * p
  {
    FieldAlgebra(q, r, 0, e, p);
    assert y * p == q * (p * e) + r * p;
    ModUnique(y * p, e * p, q, r * p);
  }

  lemma SameLowPart(y: nat, q: nat, r: nat, g: int, p: int)
    requires y == q * (g * p) + r && p > 0
    ensures r % p == y % p
  {
    assert q * (g * p) == (q * g) * p;
    ModShift(r, q * g, p);
  }

  lemma ShiftedField(y: nat, s: nat, c: nat) returns (y': nat)
    requires s + c <= 64
    ensures U(64, y * Pow2(s)) == y' * Pow2(s) && y' % Pow2(c) == y % Pow2(c)
  {
    hide Pow2;
    var q;
    q, y' := DivMod(y, Pow2(64 - s));
    Pow2Add(64 - s, s);
    ShiftedWord(y, q, y', Pow2(64 - s), Pow2(s));
    Pow2Add(64 - s - c, c);
    SameLowPart(y, q, y', Pow2(64 - s - c), Pow2(c));
  }

  lemma FoldInsertCorrect(narrow: bool, x: nat, y: nat, other: int)
    requires Fits(if narrow then 32 else 64, x) && FoldInsert(narrow, x, y, other).Some?
    requires FieldStart(other) + FieldCount(other) <= if narrow then 32 else 64
    ensures FoldInsert(narrow, x, y, other).value == EvalInsert(if narrow then 32 else 64, x, y, other)
  {
    hide Pow2;
    var w, s, c := if narrow then 32 else 64, FieldStart(other), FieldCount(other);
    USmall(w, x);
    var mask: int := (Pow2(c) - 1) * Pow2(s);
    MaskValue(w - s - c, c, s);
    USmall(w, mask);
    InsertParts(w, s, c, x, y, mask);
  }

  lemma InsertParts(w: nat, s: nat, c: nat, x: nat, y: nat, mask: nat)
    requires s + c <= w <= 64 && Fits(w, x) && mask == (Pow2(c) - 1) * Pow2(s) && mask < Pow2(w)
    ensures Or(And(x, Pow2(w) - 1 - mask), And(U(64, y * Pow2(s)), mask))
            == x / Pow2(s + c) * Pow2(s + c) + y % Pow2(c) * Pow2(s) + x % Pow2(s)
  {
    hide Pow2;
    var h, l := KeptBits(w, s, c, x, mask);
    var v := PlacedBits(s, c, y, mask);
    Pow2Add(s, c);
    TimesAssociate(h, Pow2(c), Pow2(s));
    MergeField(h, v, l, s, c, And(x, Pow2(w) - 1 - mask), And(U(64, y * Pow2(s)), mask));
  }

  lemma TimesAssociate(h: int, a: int, b: int)
    ensures (h * a) * b == h * (b * a)
  {}

  lemma TopBound(x: nat, h: nat, low: nat, k: nat, n: nat)
    requires x == h * Pow2(n) + low && x < Pow2(k + n)
    ensures h < Pow2(k)
  {
    hide Pow2;
    Pow2Add(k, n);
    if h >= Pow2(k) { MulBounds(Pow2(k), Pow2(n), h, Pow2(n)); }
  }

  lemma KeptBits(w: nat, s: nat, c: nat, x: nat, mask: nat) returns (h: nat, l: nat)
    requires s + c <= w <= 64 && Fits(w, x) && mask == (Pow2(c) - 1) * Pow2(s) && mask < Pow2(w)
    ensures l < Pow2(s) && And(x, Pow2(w) - 1 - mask) == (h * Pow2(c)) * Pow2(s) + l
    ensures h == x / Pow2(s + c) && l == x % Pow2(s)
  {
    hide Pow2;
    var m;
    h, m, l := SplitField(x, s, c);
    TopBound(x, h, m * Pow2(s) + l, w - s - c, s + c);
    ClearField(h, m, l, s, c, w - s - c);
  }

  lemma PlacedBits(s: nat, c: nat, y: nat, mask: nat) returns (v: nat)
    requires s + c <= 64 && mask == (Pow2(c) - 1) * Pow2(s)
    ensures v == y % Pow2(c) && And(U(64, y * Pow2(s)), mask) == v * Pow2(s)
  {
    hide Pow2;
    var y' := ShiftedField(y, s, c);
    PlaceField(y', s, c, U(64, y * Pow2(s)), mask);
    v := y' % Pow2(c);
  }

  // ---- convert_to_regimm ----

  datatype RegImm = RegImm(fi: AluImm, imm: int)

  /** The register-immediate opcode that replaces f, and whether its immediate is negated. */
  function ImmOpcode(f: Alu2, constantIsSrc2: bool): Option<AluImm> {
    match f
    case ADD => Some(ADDI)
    case SUB => if constantIsSrc2 then Some(ADDI) else None
    case MUL => Some(MULI)
    case AND => Some(ANDI)
    case OR => Some(ORI)
    case XOR => Some(XORI)
    case SLL => if constantIsSrc2 then Some(SLLI) else None
    case SRL => if constantIsSrc2 then Some(SRLI) else None
    case SRA => if constantIsSrc2 then Some(SRAI) else None
    case ROL => if constantIsSrc2 then Some(RORI) else None
    case ROR => if constantIsSrc2 then Some(RORI) else None
    case SEQ => Some(SEQI)
    case SLTU => Some(if constantIsSrc2 then SLTUI else SGTUI)
    case SLTS => Some(if constantIsSrc2 then SLTSI else SGTSI)
    case SGTU => Some(if constantIsSrc2 then SGTUI else SLTUI)
    case SGTS => Some(if constantIsSrc2 then SGTSI else SLTSI)
    case _ => None
  }

  /** convert_to_regimm: constNarrow is imm_type == INT32, destNarrow is reg->type == INT32. */
  function ConvertToRegImm(f: Alu2, constNarrow: bool, destNarrow: bool, c: nat, constantIsSrc2: bool): Option<RegImm> {
    if !constNarrow && U64(c + 0x8000_0000) >= 0x1_0000_0000 then None
    else if f.SUB? && constantIsSrc2 && !destNarrow && c == U64(-0x8000_0000) then None
    else
      match ImmOpcode(f, constantIsSrc2)
      case None => None
      case Some(fi) => Some(RegImm(fi, if f.SUB? || f.ROL? then I32(-I32(c)) else I32(c)))
  }

  /** An operation with one constant operand has a register-immediate form exactly if the constant is 32 bits wide or in
      the range of a sign-extended 32-bit value, the operation is none of those without such a form, it has the constant
      second unless its operands can be exchanged, and the constant of a subtraction can be negated. */
  lemma ConvertsIff(f: Alu2, constNarrow: bool, destNarrow: bool, c: nat, constantIsSrc2: bool)
    requires c < Pow2(64)
    ensures ConvertToRegImm(f, constNarrow, destNarrow, c, constantIsSrc2).Some? <==>
              && (constNarrow || c < 0x8000_0000 || c >= 0xFFFF_FFFF_8000_0000)
              && f != MULHU && f != MULHS && f != DIVU && f != DIVS && f != MODU && f != MODS
              && (f == SUB || f == SLL || f == SRL || f == SRA || f == ROL || f == ROR ==> constantIsSrc2)
              && !(f == SUB && !destNarrow && c == 0xFFFF_FFFF_8000_0000)
  {
    Pow2Values();
    hide Pow2;
  }

  /** Equally defined, and equal wherever a register of sw bits can tell (w = 32 or 64 operand bits). */
  predicate SameResult(w: nat, f: Alu2, a: Option<int>, b: Option<int>) {
    && (a.None? <==> b.None?)
    && (a.Some? ==> U(w, a.value) == U(w, b.value) && (IsCompare(f) ==> a == b))
  }

  /** A constant that converts is recovered from its immediate, modulo the operand width. */
  lemma ImmRecovers(constNarrow: bool, c: nat)
    requires Fits(if constNarrow then 32 else 64, c)
    requires !constNarrow ==> U64(c + 0x8000_0000) < 0x1_0000_0000
    ensures IsImmediate(I32(c))
    ensures if constNarrow then U(32, U(64, I32(c))) == c else U(64, I32(c)) == c
    ensures I32(c) >= 0 ==> c == I32(c)
    ensures I32(c) < 0 ==> c == I32(c) + (if constNarrow then Pow2(32) else Pow2(64))
  {
    Pow2Values();
    if constNarrow {
      USmall(32, c);
      UNarrow(I32(c));
      UShift(32, I32(c), 1);
    } else {
      if c < Pow2(63) {
        USmall(64, c + 0x8000_0000);
        USmall(32, c);
        USmall(64, c);
      } else {
        if c + 0x8000_0000 < Pow2(64) { USmall(64, c + 0x8000_0000); }
        var low := c - Pow2(64) + Pow2(32);
        assert c == low + 0xFFFF_FFFF * Pow2(32);
        UShift(32, low, 0xFFFF_FFFF);
        USmall(32, low);
        UShift(64, c - Pow2(64), 1);
        USmall(64, c);
      }
    }
  }

  lemma SecondOperandMod(f: Alu2, w: nat, x: nat, y: nat, y': nat)
    requires (w == 32 || w == 64) && !IsShift(f) && U(w, y) == U(w, y')
    ensures Eval2(f, w, x, y) == Eval2(f, w, x, y')
  {}

  /** ImmOpcode where it is defined. */
  function ImmForm(f: Alu2, constantIsSrc2: bool): AluImm {
    match ImmOpcode(f, constantIsSrc2) case Some(fi) => fi case None => ADDI
  }

  lemma FormFacts(f: Alu2, constantIsSrc2: bool)
    requires ImmOpcode(f, constantIsSrc2).Some?
    ensures IsCompare(f) <==> IsCompare(RegisterForm(ImmForm(f, constantIsSrc2)))
    ensures IsShift(f) ==> constantIsSrc2
    ensures !f.SUB? && !IsShift(f) ==>
              RegisterForm(ImmForm(f, constantIsSrc2)) == if constantIsSrc2 then f else Mirror(f)
  {}

  /** The operation with its operands exchanged. */
  function Mirror(f: Alu2): Alu2 {
    match f
    case SLTU => SGTU
    case SLTS => SGTS
    case SGTU => SLTU
    case SGTS => SLTS
    case _ => f
  }

  /** The constant as a sign-extended immediate is the constant, modulo the operand width. */
  lemma ImmCongruent(w: nat, c: nat)
    requires (w == 32 || w == 64) && Fits(w, c)
    requires w == 64 ==> U64(c + 0x8000_0000) < 0x1_0000_0000
    ensures U(w, U(64, I32(c))) == U(w, c)
  {
    hide S, Pow2, U, And, Or, Xor, Flag, RotateLeft, TruncDiv, TruncMod;
    ImmRecovers(w == 32, c);
    USmall(w, c);
    UIdem(64, I32(c));
  }

  lemma ConvertDirect(f: Alu2, fi: AluImm, w: nat, x: nat, c: nat)
    requires (w == 32 || w == 64) && RegisterForm(fi) == f && !IsShift(f)
    requires U(w, U(64, I32(c))) == U(w, c)
    ensures EvalImm(fi, w, x, I32(c)) == Eval2(f, w, x, c)
  {
    SecondOperandMod(f, w, x, c, U(64, I32(c)));
  }

  lemma {:induction false} BitsCommute(op: BitOp, a: nat, b: nat)
    ensures Bits(op, a, b) == Bits(op, b, a)
    decreases a + b
  {
    if a != 0 || b != 0 { BitsCommute(op, a / 2, b / 2); }
  }

  lemma MirrorBits(w: nat, x: nat, c: nat)
    requires w == 32 || w == 64
    ensures Eval2(AND, w, c, x) == Eval2(AND, w, x, c)
    ensures Eval2(OR, w, c, x) == Eval2(OR, w, x, c)
    ensures Eval2(XOR, w, c, x) == Eval2(XOR, w, x, c)
  {
    BitsCommute(BitAnd, U(w, x), U(w, c));
    BitsCommute(BitOr, U(w, x), U(w, c));
    BitsCommute(BitXor, U(w, x), U(w, c));
  }

  lemma MirrorSum(w: nat, x: nat, c: nat)
    requires w == 32 || w == 64
    ensures Eval2(ADD, w, c, x) == Eval2(ADD, w, x, c)
    ensures Eval2(MUL, w, c, x) == Eval2(MUL, w, x, c)
  {}

  lemma MirrorCompare(f: Alu2, w: nat, x: nat, c: nat)
    requires (w == 32 || w == 64) && IsCompare(f)
    ensures Eval2(f, w, c, x) == Eval2(Mirror(f), w, x, c)
  {
    hide U, S, Flag, And, Or, Xor, RotateLeft, Pow2, TruncDiv, TruncMod;
  }

  /** Commutative operations and reversed comparisons accept their operands in either order. */
  lemma MirrorCorrect(f: Alu2, w: nat, x: nat, c: nat)
    requires (w == 32 || w == 64) && ImmOpcode(f, false).Some?
    ensures Eval2(f, w, c, x) == Eval2(Mirror(f), w, x, c)
  {
    match f
    case ADD => MirrorSum(w, x, c);
    case MUL => MirrorSum(w, x, c);
    case AND => MirrorBits(w, x, c);
    case OR => MirrorBits(w, x, c);
    case XOR => MirrorBits(w, x, c);
    case _ => MirrorCompare(f, w, x, c);
  }

  lemma ConvertSub(w: nat, x: nat, c: nat)
    requires (w == 32 || w == 64) && Fits(w, c)
    requires w == 64 ==> U64(c + 0x8000_0000) < 0x1_0000_0000 && c != U64(-0x8000_0000)
    ensures IsImmediate(I32(-I32(c)))
    ensures SameResult(w, SUB, Eval2(SUB, w, x, c), EvalImm(ADDI, w, x, I32(-I32(c))))
  {
    hide Eval2, EvalImm, Fits;
    var imm := I32(-I32(c));
    NegatedImmediate(w, c);
    ImmViews(imm);
    UCongruent(w, imm, 0 - c, U(w, x));
    SubForms(w, x, c, imm);
  }

  lemma SubForms(w: nat, x: nat, c: nat, imm: int)
    requires (w == 32 || w == 64) && U(w, U(w, x) + imm) == U(w, U(w, x) - c) && U(w, U(64, imm)) == U(w, imm)
    ensures SameResult(w, SUB, Eval2(SUB, w, x, c), EvalImm(ADDI, w, x, imm))
  {
    hide Pow2, S;
    UIdem(w, imm);
    UIdem(w, c);
    UCongruent(w, U(w, imm), imm, U(w, x));
    UCongruent(w, U(w, c), c, U(w, x));
  }

  /** The negated immediate is congruent to the negated constant. */
  lemma NegatedImmediate(w: nat, c: nat)
    requires (w == 32 || w == 64) && Fits(w, c)
    requires w == 64 ==> U64(c + 0x8000_0000) < 0x1_0000_0000 && c != U64(-0x8000_0000)
    ensures IsImmediate(I32(-I32(c))) && U(w, I32(-I32(c))) == U(w, 0 - c)
  {
    Pow2Values();
    ImmRecovers(w == 32, c);
    if w == 32 {
      SignedView(I32(c));
      SignedView(c);
      SignedView(-I32(c));
      UNegates(32, I32(c), c);
    } else {
      USmall(64, c);
      UShift(64, -0x8000_0000, 1);
      USmall(64, Pow2(64) - 0x8000_0000);
      UIdem(64, I32(c));
      SmallSigned(-I32(c));
      UNegates(64, I32(c), c);
    }
  }

  lemma SmallSigned(v: int)
    requires IsImmediate(v)
    ensures I32(v) == v
  {
    ImmViews(v);
  }

  lemma SignedView(v: int)
    ensures U(32, I32(v)) == U(32, v)
  {
    UIdem(32, v);
    UShift(32, I32(v), 1);
  }

  lemma UNegates(w: nat, v: int, c: int)
    requires U(w, v) == U(w, c)
    ensures U(w, -v) == U(w, 0 - c)
  {
    UCongruent(w, v, c, 0);
  }

  /** Every conversion computes what the register-register form computes, for every value of the operand
      that is not constant. */
  lemma ConvertCorrect(
    f: Alu2, w: nat, constNarrow: bool, destNarrow: bool, c: nat, constantIsSrc2: bool, x: nat)
    requires (w == 32 || w == 64) && Fits(if constNarrow then 32 else 64, c)
    requires !IsShift(f) ==> constNarrow == (w == 32)
    requires f.SUB? ==> destNarrow == (w == 32)
    requires ConvertToRegImm(f, constNarrow, destNarrow, c, constantIsSrc2).Some?
    ensures var r := ConvertToRegImm(f, constNarrow, destNarrow, c, constantIsSrc2).value;
      && IsImmediate(r.imm) && (IsCompare(f) <==> IsCompare(RegisterForm(r.fi)))
      && SameResult(w, f, if constantIsSrc2 then Eval2(f, w, x, c) else Eval2(f, w, c, x), EvalImm(r.fi, w, x, r.imm))
  {
    hide Eval2, EvalImm, RegisterForm;
    FormFacts(f, constantIsSrc2);
    ImmRecovers(constNarrow, c);
    if f.SUB? {
      ConvertSub(w, x, c);
    } else if IsShift(f) {
      ConvertShift(f, w, x, constNarrow, c);
    } else {
      ImmCongruent(w, c);
      ConvertPlain(f, w, c, constantIsSrc2, x);
    }
  }

  lemma ConvertPlain(f: Alu2, w: nat, c: nat, constantIsSrc2: bool, x: nat)
    requires (w == 32 || w == 64) && ImmOpcode(f, constantIsSrc2).Some? && !f.SUB? && !IsShift(f)
    requires U(w, U(64, I32(c))) == U(w, c)
    ensures EvalImm(ImmForm(f, constantIsSrc2), w, x, I32(c)) == if constantIsSrc2 then Eval2(f, w, x, c)
              else Eval2(f, w, c, x)
  {
    var fi := ImmForm(f, constantIsSrc2);
    FormFacts(f, constantIsSrc2);
    if !constantIsSrc2 { MirrorCorrect(f, w, x, c); }
    ConvertDirect(RegisterForm(fi), fi, w, x, c);
  }

  lemma ConvertShift(f: Alu2, w: nat, x: nat, constNarrow: bool, c: nat)
    requires (w == 32 || w == 64) && IsShift(f) && Fits(if constNarrow then 32 else 64, c)
    requires !constNarrow ==> U64(c + 0x8000_0000) < 0x1_0000_0000
    ensures IsImmediate(if f.ROL? then I32(-I32(c)) else I32(c))
    ensures EvalImm(ImmForm(f, true), w, x, if f.ROL? then I32(-I32(c)) else I32(c)) == Eval2(f, w, x, c)
  {
    Pow2Values();
    ImmRecovers(constNarrow, c);
    var imm := if f.ROL? then I32(-I32(c)) else I32(c);
    RotateCounts(w, c, imm);
    ImmViews(I32(c));
    ConvertShiftBy(f, ImmForm(f, true), w, x, c, imm);
  }

  lemma ConvertShiftBy(f: Alu2, fi: AluImm, w: nat, x: nat, c: nat, imm: int)
    requires (w == 32 || w == 64) && IsShift(f) && fi == ImmForm(f, true)
    requires f.SLL? || f.SRL? || f.SRA? ==> U(64, imm) == c || (U(64, imm) >= w && c >= w)
    requires f.ROL? ==> U(64, imm) % w == (0 - c) % w
    requires f.ROR? ==> U(64, imm) % w == c % w
    ensures EvalImm(fi, w, x, imm) == Eval2(f, w, x, c)
  {
    match f
    case SLL => ConvertCount(f, w, x, c, U(64, imm));
    case SRL => ConvertCount(f, w, x, c, U(64, imm));
    case SRA => ConvertCount(f, w, x, c, U(64, imm));
    case ROL => ConvertRol(w, x, c, U(64, imm));
    case ROR => ConvertRor(w, x, c, U(64, imm));
  }

  lemma ConvertCount(f: Alu2, w: nat, x: nat, c: nat, y: nat)
    requires (w == 32 || w == 64) && (f.SLL? || f.SRL? || f.SRA?) && (y == c || (y >= w && c >= w))
    ensures Eval2(f, w, x, y) == Eval2(f, w, x, c)
  {}

  lemma RotateCounts(w: nat, c: nat, imm: int)
    requires (w == 32 || w == 64) && Fits(64, c) && (imm == I32(c) || imm == I32(-I32(c)))
    ensures imm == I32(c) ==> U(64, imm) % w == c % w
    ensures imm == I32(-I32(c)) ==> U(64, imm) % w == (0 - c) % w
    ensures IsImmediate(imm)
  {
    Pow2Values();
    CountBits(w, c);
    ImmViews(imm);
    CountBits(w, U(64, imm));
    hide Pow2;
    if imm == I32(-I32(c)) { NegatedMod(w, I32(c), c); }
  }

  lemma NegatedMod(w: nat, v: int, c: int)
    requires (w == 32 || w == 64) && v % w == c % w
    ensures I32(-v) % w == (0 - c) % w
  {
    SignedMod(w, -v);
    NegMod(v, w);
    NegMod(c, w);
  }

  lemma SignedMod(w: nat, v: int)
    requires w == 32 || w == 64
    ensures I32(v) % w == v % w
  {
    Pow2Values();
    UIdem(64, v);
    var q := v / Pow2(32);
    assert v == q * Pow2(32) + U(32, v);
    var k := if w == 32 then 0x800_0000 else 0x400_0000;
    var e := if I32(v) == U(32, v) then 0 else 1;
    assert v == I32(v) + ((q + e) * k) * w;
    ModShift(I32(v), (q + e) * k, w);
  }

  lemma RotateValues(w: nat, x: nat, y: nat)
    requires w == 32 || w == 64
    ensures Eval2(ROL, w, x, y) == Some(RotateLeft(w, U(w, x), y % w))
    ensures Eval2(ROR, w, x, y) == Some(RotateLeft(w, U(w, x), w - y % w))
  {}

  lemma ConvertRol(w: nat, x: nat, c: nat, y: nat)
    requires (w == 32 || w == 64) && y % w == (0 - c) % w
    ensures Eval2(ROL, w, x, c) == Eval2(ROR, w, x, y)
  {
    RotateValues(w, x, c);
    RotateValues(w, x, y);
    NegatedCount(w, U(w, x), c, y);
  }

  lemma NegatedCount(w: nat, x: nat, c: nat, y: nat)
    requires (w == 32 || w == 64) && Fits(w, x) && y % w == (0 - c) % w
    ensures RotateLeft(w, x, c % w) == RotateLeft(w, x, w - y % w)
  {
    hide RotateLeft;
    NegMod(c, w);
    RotateZero(w, x);
    RotateWhole(w, x);
  }

  lemma ConvertRor(w: nat, x: nat, c: nat, y: nat)
    requires (w == 32 || w == 64) && y % w == c % w
    ensures Eval2(ROR, w, x, c) == Eval2(ROR, w, x, y)
  {}
}
