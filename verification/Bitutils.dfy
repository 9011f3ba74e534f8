/** The portable bit counters of bitutils.h: masks and shifts that home in on the highest or lowest set bit. */
module Bitutils {
  import opened Arith
  import opened Meaning
  import Folding

  /** Masking the top k bits of an (s + k)-bit value gives zero exactly when the value has at most s bits. */
  lemma TopMask(x: nat, s: nat, k: nat)
    requires x < Pow2(s + k)
    ensures (Pow2(k) - 1) * Pow2(s) >= 0 && (And(x, (Pow2(k) - 1) * Pow2(s)) == 0 <==> x < Pow2(s))
  {
    hide Pow2, Bits;
    var h, l := DivMod(x, Pow2(s));
    Folding.TopBound(x, h, l, k, s);
    BitsSplit(BitAnd, s, h, l, Pow2(k) - 1, 0);
    AndOnes(k, h);
    BitsZero(l);
    if h > 0 { Folding.AtLeast(h, Pow2(s)); }
  }

  /** The bit length is n exactly when the value lies between 2^(n-1) and 2^n. */
  lemma {:induction false} BitLengthIs(x: nat, n: nat)
    requires if n == 0 then x == 0 else Pow2(n - 1) <= x < Pow2(n)
    ensures BitLength(x) == n
  {
    if n > 1 {
      assert Pow2(n) == 2 * Pow2(n - 1) && Pow2(n - 1) == 2 * Pow2(n - 2);
      BitLengthIs(x / 2, n - 1);
    }
  }

  /** Shifting left by count without overflow adds count to the bit length. */
  lemma ShiftedLength(x0: nat, count: nat, x: nat, w: nat)
    requires x == x0 * Pow2(count) && Pow2(w) <= x < Pow2(w + 1) && count <= w
    ensures BitLength(x0) == w + 1 - count
  {
    hide Pow2;
    Pow2Add(w - count, count);
    Pow2Add(w + 1 - count, count);
    var p := Pow2(count);
    if x0 < Pow2(w - count) { Folding.MulBounds(x0 + 1, p, Pow2(w - count), p); }
    if x0 >= Pow2(w + 1 - count) { Folding.MulBounds(Pow2(w + 1 - count), p, x0, p); }
    BitLengthIs(x0, w + 1 - count);
  }

  // ---- Leading zeros ----

  lemma Powers()
    ensures Pow2(0) == 1 && Pow2(1) == 2 && Pow2(2) == 4 && Pow2(4) == 16 && Pow2(8) == 256 && Pow2(16) == 0x1_0000
    ensures Pow2(24) == 0x100_0000 && Pow2(28) == 0x1000_0000 && Pow2(30) == 0x4000_0000 && Pow2(31) == 0x8000_0000
    ensures Pow2(32) == 0x1_0000_0000 && Pow2(64) == 0x1_0000_0000_0000_0000
  {
    Pow2Values();
    Pow2Add(8, 16);
    Pow2Add(4, 24);
    Pow2Add(2, 28);
    assert Pow2(2) == 4 && Pow2(4) == 16;
  }

  /** One step: if the top s bits are clear, shifting by s loses nothing. */
  lemma HighStep(x0: nat, x: nat, count: nat, s: nat, mask: int)
    requires x == x0 * Pow2(count) && x < Pow2(32) && s <= 32 && mask == (Pow2(s) - 1) * Pow2(32 - s) >= 0
    ensures And(x, mask) == 0 <==> x < Pow2(32 - s)
    ensures x < Pow2(32 - s) ==> U(32, x * Pow2(s)) == x * Pow2(s) == x0 * Pow2(count + s) < Pow2(32)
  {
    hide Pow2, And;
    Pow2Add(32 - s, s);
    TopMask(x, 32 - s, s);
    Pow2Add(count, s);
    var p, q := Pow2(count), Pow2(s);
    assert x0 * p * q == x0 * (p * q);
    if x < Pow2(32 - s) {
      Folding.MulBounds(x + 1, q, Pow2(32 - s), q);
      Folding.Distribute(x, -1, q);
      Folding.USmall(32, x * q);
    }
  }

  /** clz32. */
  method Clz32(x0: nat) returns (count: nat)
    requires x0 < Pow2(32)
    ensures count == 32 - BitLength(x0)
  {
    hide Pow2, And, U;
    Powers();
    var x := x0;
    count := 0;
    HighStep(x0, x, count, 16, 0xFFFF_0000);
    if And(x, 0xFFFF_0000) == 0 {
      count := count + 16;
      x := U(32, x * 0x1_0000);
    }
    assert x == x0 * Pow2(count) && x < Pow2(32) && (count <= 16) && (x0 > 0 ==> x >= Pow2(16))
        && (x0 == 0 ==> count == 16);
    HighStep(x0, x, count, 8, 0xFF00_0000);
    if And(x, 0xFF00_0000) == 0 {
      count := count + 8;
      x := U(32, x * 0x100);
    }
    assert x == x0 * Pow2(count) && x < Pow2(32) && (count <= 24) && (x0 > 0 ==> x >= Pow2(24))
        && (x0 == 0 ==> count == 24);
    HighStep(x0, x, count, 4, 0xF000_0000);
    if And(x, 0xF000_0000) == 0 {
      count := count + 4;
      x := U(32, x * 0x10);
    }
    assert x == x0 * Pow2(count) && x < Pow2(32) && (count <= 28) && (x0 > 0 ==> x >= Pow2(28))
        && (x0 == 0 ==> count == 28);
    HighStep(x0, x, count, 2, 0xC000_0000);
    if And(x, 0xC000_0000) == 0 {
      count := count + 2;
      x := U(32, x * 4);
    }
    assert x == x0 * Pow2(count) && x < Pow2(32) && (count <= 30) && (x0 > 0 ==> x >= Pow2(30))
        && (x0 == 0 ==> count == 30);
    HighStep(x0, x, count, 1, 0x8000_0000);
    if And(x, 0x8000_0000) == 0 {
      count := count + 1;
      x := U(32, x * 2);
    }
    assert x == x0 * Pow2(count) && x < Pow2(32) && (count <= 31) && (x0 > 0 ==> x >= Pow2(31))
        && (x0 == 0 ==> count == 31);
    HighStep(x0, x, count, 1, 0x8000_0000);
    if And(x, 0x8000_0000) == 0 {
      count := count + 1;
    }
    if x0 > 0 { ShiftedLength(x0, count, x, 31); } else { BitLengthIs(x0, 0); }
  }

  lemma {:induction false} HighLength(h: nat, l: nat, k: nat)
    requires h > 0 && l < Pow2(k)
    ensures h * Pow2(k) + l >= 0 && BitLength(h * Pow2(k) + l) == k + BitLength(h)
  {
    if k == 0 {
      assert h * Pow2(0) + l == h;
    } else {
      var p := Pow2(k - 1);
      Twice(h, p);
      var y := h * p;
      assert (2 * y + l) / 2 == y + l / 2;
      HighLength(h, l / 2, k - 1);
    }
  }

  /** clz64. */
  method Clz64(x: nat) returns (count: nat)
    requires x < Pow2(64)
    ensures count == 64 - BitLength(x)
  {
    hide Pow2, BitLength;
    Powers();
    var h, l := x / 0x1_0000_0000, x % 0x1_0000_0000;
    if h == 0 {
      count := Clz32(l);
      count := 32 + count;
    } else {
      HighLength(h, l, 32);
      count := Clz32(h);
    }
  }

  // ---- Trailing zeros ----

  /** The lowest set bit of x is bit n. */
  predicate LowestBitIs(x: nat, n: nat) { x % Pow2(n) == 0 && x / Pow2(n) % 2 == 1 }

  predicate LowClear(x: nat, s: nat) { x % Pow2(s) == 0 }

  /** One step: if the low s bits are clear, shifting them out loses nothing; what is left of 2s bits that are not all
      clear are s bits that are not all clear. */
  lemma LowStep(x0: nat, x: nat, count: nat, s: nat, mask: int)
    requires x0 == x * Pow2(count) && mask == Pow2(s) - 1 >= 0
    ensures And(x, mask) == 0 <==> LowClear(x, s)
    ensures And(x, mask) == 0 ==> x0 == Folding.Shr(x, s) * Pow2(count + s)
    ensures And(x, mask) == 0 && !LowClear(x, 2 * s) ==> !LowClear(Folding.Shr(x, s), s)
    ensures x0 == 0 ==> x == 0 && And(x, mask) == 0 && Folding.Shr(x, s) == 0
  {
    hide Pow2, And;
    if x > 0 { Folding.AtLeast(x, Pow2(count)); }
    Folding.ModUnique(0, Pow2(s), 0, 0);
    AndMask(s, x);
    Pow2Add(count, s);
    Pow2Add(s, s);
    var h, l := DivMod(x, Pow2(s));
    var p, q := Pow2(count), Pow2(s);
    assert l == 0 ==> h * q * p == h * (p * q);
    if l == 0 && h % q == 0 {
      var g := h / q;
      assert h == g * q && x == g * q * q == g * (q * q);
      Folding.ModUnique(x, q * q, g, 0);
    }
  }

  lemma LowestFound(x0: nat, x: nat, count: nat)
    requires x0 == x * Pow2(count) && x % 2 == 1
    ensures LowestBitIs(x0, count)
  {
    hide Pow2;
    Folding.ModUnique(x0, Pow2(count), x, 0);
  }

  lemma SomeBit(x: nat)
    requires 0 < x < Pow2(32)
    ensures !LowClear(x, 32)
  {
    Folding.USmall(32, x);
  }

  /** ctz32. */
  method Ctz32(x0: nat) returns (count: nat)
    requires x0 < Pow2(32)
    ensures if x0 == 0 then count == 32 else count < 32 && LowestBitIs(x0, count)
  {
    hide Pow2, And, LowestBitIs, LowClear, Folding.Shr;
    Powers();
    var x := x0;
    count := 0;
    if x0 > 0 { SomeBit(x0); }
    LowStep(x0, x, count, 16, 0xFFFF);
    if And(x, 0xFFFF) == 0 {
      count := count + 16;
      x := Folding.Shr(x, 16);
    }
    assert x0 == x * Pow2(count) && count <= 16 && if x0 > 0 then !LowClear(x, 16) else count == 16 && x == 0;
    LowStep(x0, x, count, 8, 0xFF);
    if And(x, 0xFF) == 0 {
      count := count + 8;
      x := Folding.Shr(x, 8);
    }
    assert x0 == x * Pow2(count) && count <= 24 && if x0 > 0 then !LowClear(x, 8) else count == 24 && x == 0;
    LowStep(x0, x, count, 4, 0xF);
    if And(x, 0xF) == 0 {
      count := count + 4;
      x := Folding.Shr(x, 4);
    }
    assert x0 == x * Pow2(count) && count <= 28 && if x0 > 0 then !LowClear(x, 4) else count == 28 && x == 0;
    LowStep(x0, x, count, 2, 3);
    if And(x, 3) == 0 {
      count := count + 2;
      x := Folding.Shr(x, 2);
    }
    assert x0 == x * Pow2(count) && count <= 30 && if x0 > 0 then !LowClear(x, 2) else count == 30 && x == 0;
    LowStep(x0, x, count, 1, 1);
    if And(x, 1) == 0 {
      count := count + 1;
      x := Folding.Shr(x, 1);
    }
    assert x0 == x * Pow2(count) && count <= 31 && if x0 > 0 then !LowClear(x, 1) else count == 31 && x == 0;
    LowStep(x0, x, count, 1, 1);
    if And(x, 1) == 0 {
      count := count + 1;
    }
    if x0 > 0 { LastBit(x); LowestFound(x0, x, count); }
  }

  lemma LastBit(x: nat)
    requires !LowClear(x, 1)
    ensures x % 2 == 1
  {
    assert Pow2(1) == 2;
  }

  lemma LowHalf(x: nat, h: nat, l: nat, n: nat)
    requires x == h * Pow2(32) + l && l < Pow2(32)
    ensures l > 0 && n < 32 && LowestBitIs(l, n) ==> LowestBitIs(x, n)
    ensures l == 0 && LowestBitIs(h, n) ==> LowestBitIs(x, 32 + n)
  {
    hide Pow2;
    if l > 0 && n < 32 && LowestBitIs(l, n) {
      var p, g, q := Pow2(n), Pow2(31 - n), l / Pow2(n);
      Pow2Add(n + 1, 31 - n);
      Pow2Add(n, 1);
      Powers();
      assert l == q * p;
      assert h * (2 * p * g) + q * p == (2 * (h * g) + q) * p;
      LowestFound(x, 2 * (h * g) + q, n);
    }
    if l == 0 && LowestBitIs(h, n) {
      Pow2Add(n, 32);
      var q := h / Pow2(n);
      assert h == q * Pow2(n);
      assert q * Pow2(n) * Pow2(32) == q * (Pow2(n) * Pow2(32));
      LowestFound(x, q, 32 + n);
    }
  }

  /** ctz64. */
  method Ctz64(x: nat) returns (count: nat)
    requires x < Pow2(64)
    ensures if x == 0 then count == 64 else count < 64 && LowestBitIs(x, count)
  {
    hide Pow2, LowestBitIs;
    Powers();
    var h, l := x / 0x1_0000_0000, x % 0x1_0000_0000;
    if l == 0 {
      count := Ctz32(h);
      LowHalf(x, h, l, count);
      count := 32 + count;
    } else {
      count := Ctz32(l);
      LowHalf(x, h, l, count);
    }
  }
}
