/** Two's-complement arithmetic on unbounded integers: powers of two, signed views, and the bitwise
    operations of C as functions on naturals, with the laws the constant folder needs. */
module Arith {

  function Pow2(n: nat): (p: int)
    ensures p > 0
  {
    if n == 0 then 1 else 2 * Pow2(n - 1)
  }

  lemma Pow2Values()
    ensures Pow2(5) == 32 && Pow2(6) == 64 && Pow2(8) == 256
    ensures Pow2(16) == 0x1_0000 && Pow2(31) == 0x8000_0000 && Pow2(32) == 0x1_0000_0000
    ensures Pow2(63) == 0x8000_0000_0000_0000 && Pow2(64) == 0x1_0000_0000_0000_0000
  {
    assert Pow2(8) == 256;
    Pow2Add(8, 8); Pow2Add(15, 16); Pow2Add(16, 16); Pow2Add(31, 32); Pow2Add(32, 32);
    assert Pow2(16) == 2 * Pow2(15);
  }

  lemma {:induction false} Pow2Add(m: nat, n: nat)
    ensures Pow2(m + n) == Pow2(m) * Pow2(n)
  {
    if n > 0 {
      Pow2Add(m, n - 1);
      assert Pow2(m + n) == 2 * Pow2(m + (n - 1));
      assert Pow2(m) * Pow2(n) == Pow2(m) * (2 * Pow2(n - 1));
    }
  }

  /** Unsigned and signed views of the low w bits. */
  function U(w: nat, x: int): (r: nat)
    ensures r < Pow2(w)
  {
    x % Pow2(w)
  }

  function S(w: nat, x: int): (r: int)
    requires w > 0
    ensures -Pow2(w - 1) <= r < Pow2(w - 1)
  {
    var u := U(w, x);
    assert Pow2(w) == 2 * Pow2(w - 1);
    if u < Pow2(w - 1) then u else u - Pow2(w)
  }

  /** C division truncates toward zero. */
  function TruncDiv(a: int, b: int): int
    requires b != 0
  {
    if (a < 0) == (b < 0) then Abs(a) / Abs(b) else -(Abs(a) / Abs(b))
  }

  function TruncMod(a: int, b: int): int
    requires b != 0
  {
    if a < 0 then -(Abs(a) % Abs(b)) else Abs(a) % Abs(b)
  }

  function Abs(a: int): nat { if a < 0 then -a else a }

  datatype BitOp = BitAnd | BitOr | BitXor

  function Bit1(op: BitOp, x: int, y: int): int {
    match op
    case BitAnd => if x == 1 && y == 1 then 1 else 0
    case BitOr => if x == 1 || y == 1 then 1 else 0
    case BitXor => if x != y then 1 else 0
  }

  /** C's &, | and ^ on non-negative integers, bit by bit. */
  function Bits(op: BitOp, a: nat, b: nat): (r: nat)
    decreases a + b
  {
    if a == 0 && b == 0 then 0
    else 2 * Bits(op, a / 2, b / 2) + Bit1(op, a % 2, b % 2)
  }

  function And(a: nat, b: nat): nat { Bits(BitAnd, a, b) }
  function Or(a: nat, b: nat): nat { Bits(BitOr, a, b) }
  function Xor(a: nat, b: nat): nat { Bits(BitXor, a, b) }

  lemma Twice(h: nat, p: int)
    ensures h * (2 * p) == 2 * (h * p)
  {}

  lemma BitsHalves(op: BitOp, a: nat, b: nat)
    ensures Bits(op, a, b) == 2 * Bits(op, a / 2, b / 2) + Bit1(op, a % 2, b % 2)
  {}

  /** A bitwise operation acts independently on the bits above and below position k. */
  lemma {:induction false} BitsSplit(op: BitOp, k: nat, ah: nat, al: nat, bh: nat, bl: nat)
    requires al < Pow2(k) && bl < Pow2(k)
    ensures ah * Pow2(k) + al >= 0 && bh * Pow2(k) + bl >= 0
    ensures Bits(op, ah * Pow2(k) + al, bh * Pow2(k) + bl) == Bits(op, ah, bh) * Pow2(k) + Bits(op, al, bl)
    ensures Bits(op, al, bl) < Pow2(k)
  {
    if k > 0 {
      var p, h := Pow2(k - 1), Bits(op, ah, bh);
      BitsSplit(op, k - 1, ah, al / 2, bh, bl / 2);
      Twice(ah, p);
      Twice(bh, p);
      Twice(h, p);
      var x, y := ah * p, bh * p;
      assert (2 * x + al) / 2 == x + al / 2 && (2 * y + bl) / 2 == y + bl / 2;
      BitsHalves(op, 2 * x + al, 2 * y + bl);
      BitsHalves(op, al, bl);
    }
  }

  lemma {:induction false} BitsZero(a: nat)
    ensures And(a, 0) == 0 && Or(a, 0) == a && And(0, a) == 0 && Or(0, a) == a
  {
    if a > 0 { BitsZero(a / 2); }
  }

  lemma {:induction false} OrSelf(a: nat)
    ensures Or(a, a) == a
  {
    if a > 0 { OrSelf(a / 2); }
  }

  lemma {:induction false} AndOnes(k: nat, a: nat)
    requires a < Pow2(k)
    ensures And(a, Pow2(k) - 1) == a
  {
    if k > 0 {
      AndOnes(k - 1, a / 2);
      assert (Pow2(k) - 1) / 2 == Pow2(k - 1) - 1;
    }
  }

  lemma DivMod(x: nat, p: int) returns (h: nat, l: nat)
    requires p > 0
    ensures h == x / p && l == x % p && l < p && x == h * p + l
  {
    h, l := x / p, x % p;
  }

  /** x & (2^k - 1) is x mod 2^k. */
  lemma AndMask(k: nat, x: nat)
    ensures And(x, Pow2(k) - 1) == x % Pow2(k)
  {
    var h, l := DivMod(x, Pow2(k));
    AndMaskParts(k, h, l);
  }

  lemma AndMaskParts(k: nat, h: nat, l: nat)
    requires l < Pow2(k)
    ensures h * Pow2(k) + l >= 0 && And(h * Pow2(k) + l, Pow2(k) - 1) == l
  {
    BitsSplit(BitAnd, k, h, l, 0, Pow2(k) - 1);
    BitsZero(h);
    AndOnes(k, l);
  }

  /** Or-ing values with no common bit positions adds them. */
  lemma OrDisjoint(k: nat, h: nat, l: nat)
    requires l < Pow2(k)
    ensures Or(h * Pow2(k), l) == h * Pow2(k) + l
    ensures Or(l, h * Pow2(k)) == h * Pow2(k) + l
  {
    BitsSplit(BitOr, k, h, 0, 0, l);
    BitsSplit(BitOr, k, 0, l, h, 0);
    BitsZero(h);
    BitsZero(l);
  }
}
