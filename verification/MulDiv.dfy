/** png_muldiv, the branch that uses 32-bit integers only: a * times / divisor by a 64-bit product held in
    two words and a shift-and-subtract division. */
module MulDiv {
  import opened Common

  const U32 := 0x1_0000_0000
  const INT_MIN := -0x8000_0000
  const INT_MAX := 0x7fff_ffff

  type int32 = x: int | INT_MIN <= x <= INT_MAX

  /** Two's complement. */
  function ToInt32(x: int): (r: int32)
    ensures (r - x) % U32 == 0
  {
    if x % U32 > INT_MAX then x % U32 - U32 else x % U32
  }

  /** The quotient of magnitudes as the division rounds it: up from a remainder of D >> 1. */
  function Rounded(product: nat, d: nat): nat
    requires d > 0
  {
    product / d + if product % d >= d / 2 then 1 else 0
  }

  /** |a| * |times| */
  function AbsProduct(a: int, times: int): nat { Abs(a) * Abs(times) }

  /** Neither of the two ways in which a magnitude comes out wrong. */
  predicate RoundsWell(product: nat, d: nat)
    requires d > 0
  {
    !(d % 2 == 1 && product % d == d / 2) && Rounded(product, d) != U32
  }

  predicate Negative(a: int, times: int, divisor: int) { ((a < 0) != (times < 0)) != (divisor < 0) }

  /** What png_muldiv returns: the value stored on success, None for failure. */
  function Result(a: int32, times: int32, divisor: int32): Option<int>
  {
    if divisor == 0 then None
    else if a == 0 || times == 0 then Some(0)
    else
      var product, d := AbsProduct(a, times), Abs(divisor);
      if product >= d * U32 then None
      else
        var m: int := ToInt32(Rounded(product, d));
        var r: int := if Negative(a, times, divisor) then ToInt32(-m) else m;
        if (if Negative(a, times, divisor) then r <= 0 else r >= 0) then Some(r) else None
  }

  // --- The product ------------------------------------------------------------------------------

  lemma MulBound(x: nat, y: nat, mx: nat, my: nat)
    requires x <= mx && y <= my
    ensures x * y <= mx * my
  {
    assert x * y <= mx * y <= mx * my;
  }

  /** An unsigned multiplication; named so that proofs can treat the product as one number. */
  function Mul(x: nat, y: nat): nat { x * y }

  lemma HalvesFit(ah: nat, al: nat, th: nat, tl: nat)
    requires al < 0x10000 && tl < 0x10000
    requires ah * 0x10000 + al <= 0x8000_0000 && th * 0x10000 + tl <= 0x8000_0000
    ensures Mul(ah, tl) + Mul(al, th) < U32
    ensures Mul(ah, th) + (Mul(ah, tl) + Mul(al, th)) / 0x10000 + 1 < U32 && Mul(al, tl) < U32
  {
    MulBound(ah, th, 0x8000, 0x8000);
    MulBound(al, tl, 0xffff, 0xffff);
    if ah == 0x8000 {
      MulBound(ah, tl, 0x8000, 0xffff);
    } else if th == 0x8000 {
      MulBound(al, th, 0xffff, 0x8000);
    } else {
      MulBound(ah, tl, 0x7fff, 0xffff);
      MulBound(al, th, 0xffff, 0x7fff);
    }
  }

  lemma Expand(ah: nat, al: nat, th: nat, tl: nat)
    ensures Mul(ah * 0x10000 + al, th * 0x10000 + tl)
         == Mul(ah, th) * U32 + (Mul(ah, tl) + Mul(al, th)) * 0x10000 + Mul(al, tl)
  {
    var b := 0x10000;
    calc {
      (ah * b + al) * (th * b + tl);
      (ah * b) * (th * b + tl) + al * (th * b + tl);
      (ah * b) * (th * b) + (ah * b) * tl + al * (th * b) + al * tl;
      { assert (ah * b) * (th * b) == ah * th * (b * b);
        assert (ah * b) * tl == ah * tl * b && al * (th * b) == al * th * b; }
      ah * th * U32 + ah * tl * b + al * th * b + al * tl;
    }
  }

  lemma Carry(hh: nat, m: nat, ll: nat)
    requires m < U32 && ll < U32 && hh + m / 0x10000 + 1 < U32
    ensures var s16 := m % 0x10000 * 0x10000; var s00 := (ll + s16) % U32;
            && s16 < U32
            && (hh + m / 0x10000 + (if s00 < s16 then 1 else 0)) * U32 + s00 == hh * U32 + m * 0x10000 + ll
  {
  }

  function Halves(A: nat, T: nat): (h: (nat, nat, nat, nat))
    ensures h.0 * 0x10000 + h.1 == A && h.2 * 0x10000 + h.3 == T && h.1 < 0x10000 && h.3 < 0x10000
  {
    (A / 0x10000, A % 0x10000, T / 0x10000, T % 0x10000)
  }

  lemma Same(A: nat, T: nat)
    ensures Mul(A, T) == A * T
  {
  }

  /** |a| * |times| in two words, from four 16-bit products; every sum is one of 32-bit unsigned words. */
  method Product(A: nat, T: nat) returns (s32: nat, s00: nat)
    requires A <= 0x8000_0000 && T <= 0x8000_0000
    ensures s32 < U32 && s00 < U32 && s32 * U32 + s00 == A * T
  {
    hide Mul;
    var (ah, al, th, tl) := Halves(A, T);
    HalvesFit(ah, al, th, tl);
    Expand(ah, al, th, tl);
    Same(A, T);
    s32, s00 := AddWords(Mul(ah, th), Mul(ah, tl), Mul(al, th), Mul(al, tl));
  }

  /** The words of hh.ll + ((m1 + m2) << 16). */
  method AddWords(hh: nat, m1: nat, m2: nat, ll: nat) returns (s32: nat, s00: nat)
    requires m1 + m2 < U32 && ll < U32 && hh + (m1 + m2) / 0x10000 + 1 < U32
    ensures s32 < U32 && s00 < U32 && s32 * U32 + s00 == hh * U32 + (m1 + m2) * 0x10000 + ll
  {
    var s16 := (m1 + m2) % U32;
    s32 := (hh + s16 / 0x10000) % U32;
    s00 := ll % U32;
    Carry(hh, s16, s00);
    s16 := s16 % 0x10000 * 0x10000;
    s00 := (s00 + s16) % U32;
    if s00 < s16 {
      s32 := s32 + 1;
    }
  }

  // --- The division -----------------------------------------------------------------------------

  /** D << n over two words. */
  lemma Shifted(d: nat, n: nat)
    requires 0 < n <= 32
    ensures d / Pow2(32 - n) * U32 + Mul(d, Pow2(n)) % U32 == Mul(d, Pow2(n))
  {
    Pow2Split(n);
    hide Pow2;
    ShiftWords(d, Pow2(n), Pow2(32 - n));
  }

  lemma ShiftWords(d: nat, p: nat, q: nat)
    requires q > 0 && p > 0 && q * p == U32
    ensures d / q * U32 + d * p % U32 == d * p
  {
    var (h, l) := (d / q, d % q);
    assert d * p == (h * q + l) * p == h * (q * p) + l * p by {
      assert d == h * q + l;
      assert (h * q) * p == h * (q * p);
    }
    assert l * p < U32 by {
      assert l + 1 <= q;
      MulBound(l + 1, p, q, p);
    }
    Modulo(h, l * p);
  }

  lemma Modulo(h: nat, r: nat)
    requires r < U32
    ensures (h * U32 + r) % U32 == r
  {
  }

  lemma {:induction false} Pow2Split(n: nat)
    requires n <= 32
    ensures Pow2(32 - n) * Pow2(n) == U32
    decreases 32 - n
  {
    if n == 32 {
      Pow2Values();
    } else {
      Pow2Split(n + 1);
      Double(Pow2(32 - (n + 1)), Pow2(n));
    }
  }

  lemma Double(x: nat, y: nat)
    ensures (2 * x) * y == x * (2 * y)
  {
  }

  lemma Pow2Values()
    ensures Pow2(0) == 1 && Pow2(32) == U32
  {
    assert Pow2(8) == 0x100;
    assert Pow2(16) == 0x10000;
    assert Pow2(24) == 0x100_0000;
  }

  /** One step of the division: subtract D << n if it fits. */
  method Subtract(D: nat, n: nat, s32: nat, s00: nat, ghost s: nat) returns (t32: nat, t00: nat, bit: bool)
    requires 0 < D < U32 && n < 32 && s32 < U32 && s00 < U32 && s == s32 * U32 + s00
    ensures t32 < U32 && t00 < U32 && bit == (s >= Mul(D, Pow2(n)))
    ensures t32 * U32 + t00 == s - (if bit then Mul(D, Pow2(n)) else 0)
  {
    if n > 0 { Shifted(D, n); }
    ghost var d := Mul(D, Pow2(n));
    var (d32, d00) := if n > 0 then (D / Pow2(32 - n), Mul(D, Pow2(n)) % U32) else (0, D);
    assert n == 0 ==> d == D;
    hide Mul, Pow2;
    assert d32 * U32 + d00 == d && d00 < U32;
    t32, t00, bit := s32, s00, false;
    if s32 > d32 {
      if s00 < d00 {
        t32 := t32 - 1;
      }
      t32, t00, bit := t32 - d32, (s00 - d00) % U32, true;
    } else if s32 == d32 && s00 >= d00 {
      t32, t00, bit := 0, s00 - d00, true;
    }
  }

  lemma WrapSum(x: int, y: int)
    ensures ToInt32(ToInt32(x) + y) == ToInt32(x + y)
  {
    var k := (ToInt32(x) - x) / U32;
    assert ToInt32(x) + y == x + y + k * U32;
    SameWord(x + y, k);
  }

  /** Whole turns do not change a word. */
  lemma SameWord(x: int, k: int)
    ensures ToInt32(x + k * U32) == ToInt32(x)
  {
    var q, r := x / U32, x % U32;
    assert x + k * U32 == (q + k) * U32 + r;
    Unique((x + k * U32) / U32, (x + k * U32) % U32, q + k, r, U32);
  }

  lemma TakeBit(q: nat, d: nat, p: nat, s: nat)
    requires s < Mul(d, 2 * p)
    ensures Mul(d, 2 * p) == 2 * Mul(d, p) && Mul(q + p, d) == Mul(q, d) + Mul(d, p)
  {
    assert d * (2 * p) == 2 * (d * p);
    assert (q + p) * d == q * d + p * d;
  }

  lemma DivisionDone(product: nat, q: nat, d: nat, r: nat)
    requires d > 0 && r < d && r + Mul(q, d) == product
    ensures q == product / d && r == product % d
  {
    assert product == q * d + r;
    DivModOf(r, q, d);
  }

  /** The division loop: quotient modulo 2^32, as a signed word, and remainder of the 64-bit product. */
  method Divide(D: nat, w32: nat, w00: nat) returns (result: int32, s00: nat)
    requires 0 < D <= 0x8000_0000 && w32 < D && w00 < U32
    ensures result == ToInt32((w32 * U32 + w00) / D) && s00 == (w32 * U32 + w00) % D
  {
    ghost var product, q: nat := w32 * U32 + w00, 0;
    var s32: nat := w32;
    s00 := w00;
    result := 0;
    var bitshift := 32;
    Pow2Values();
    hide Mul, Pow2, ToInt32;
    StartOfDivision(D, w32, w00);
    while bitshift > 0
      invariant 0 <= bitshift <= 32 && s32 < U32 && s00 < U32
      invariant s32 * U32 + s00 + Mul(q, D) == product
      invariant s32 * U32 + s00 < Mul(D, Pow2(bitshift))
      invariant result == ToInt32(q)
    {
      hide *;
      bitshift := bitshift - 1;
      var bit;
      ghost var s := s32 * U32 + s00;
      PowStep(bitshift);
      TakeBit(q, D, Pow2(bitshift), s);
      s32, s00, bit := Subtract(D, bitshift, s32, s00, s);
      if bit {
        WrapSum(q, Pow2(bitshift));
        result := ToInt32(result + Pow2(bitshift));
        q := q + Pow2(bitshift);
      }
    }
    EndOfDivision(D, s32, s00);
    DivisionDone(product, q, D, s00);
  }

  lemma StartOfDivision(d: nat, w32: nat, w00: nat)
    requires w32 < d && w00 < U32
    ensures w32 * U32 + w00 < Mul(d, Pow2(32)) && Mul(0, d) == 0 && ToInt32(0) == 0
  {
    Pow2Values();
    hide Pow2;
    assert (w32 + 1) * U32 <= d * U32;
  }

  lemma EndOfDivision(d: nat, s32: nat, s00: nat)
    requires s32 * U32 + s00 < Mul(d, Pow2(0)) && d <= 0x8000_0000
    ensures s32 == 0 && s00 < d
  {
  }

  lemma PowStep(n: nat)
    ensures Pow2(n + 1) == 2 * Pow2(n)
  {
  }

  lemma WordsBelow(d: nat, w32: nat, w00: nat)
    requires w00 < U32
    ensures w32 < d <==> w32 * U32 + w00 < d * U32
  {
  }

  lemma ResultCases(a: int32, times: int32, divisor: int32)
    ensures divisor == 0 ==> Result(a, times, divisor) == None
    ensures divisor != 0 && (a == 0 || times == 0) ==> Result(a, times, divisor) == Some(0)
  {
  }

  /** The result, once the rounded quotient is in hand as a word. */
  lemma ResultFrom(a: int32, times: int32, divisor: int32, word: int, r: nat)
    requires divisor != 0 && a != 0 && times != 0
    requires var (product, d) := (AbsProduct(a, times), Abs(divisor)); product < d * U32 ==>
               word == ToInt32(product / d) && r == product % d
    ensures var d := Abs(divisor);
            var m: int := ToInt32(word + if r >= d / 2 then 1 else 0);
            var s: int := if Negative(a, times, divisor) then ToInt32(-m) else m;
            Result(a, times, divisor) ==
              if AbsProduct(a, times) >= d * U32 then None
              else if (if Negative(a, times, divisor) then s <= 0 else s >= 0) then Some(s) else None
  {
    hide Rounded, ToInt32, AbsProduct;
    ResultIs(a, times, divisor);
    var (product, d) := (AbsProduct(a, times), Abs(divisor));
    if product < d * U32 {
      RoundedUp(product, d);
      WrapSum(product / d, if r >= d / 2 then 1 else 0);
    }
  }

  lemma RoundedUp(product: nat, d: nat)
    requires d > 0
    ensures Rounded(product, d) == product / d + if product % d >= d / 2 then 1 else 0
  {
  }

  lemma ResultIs(a: int32, times: int32, divisor: int32)
    requires divisor != 0 && a != 0 && times != 0
    ensures var m: int := ToInt32(Rounded(AbsProduct(a, times), Abs(divisor)));
            var s: int := if Negative(a, times, divisor) then ToInt32(-m) else m;
            Result(a, times, divisor) ==
              if AbsProduct(a, times) >= Abs(divisor) * U32 then None
              else if (if Negative(a, times, divisor) then s <= 0 else s >= 0) then Some(s) else None
  {
    hide Rounded, ToInt32, AbsProduct;
  }

  /** png_muldiv, integer branch. */
  method MulDivide(a: int32, times: int32, divisor: int32) returns (ok: bool, res: int)
    ensures Result(a, times, divisor) == if ok then Some(res) else None
  {
    ok, res := false, 0;
    hide ToInt32, AbsProduct, Rounded, Result;
    ResultCases(a, times, divisor);
    if divisor != 0 {
      if a == 0 || times == 0 {
        return true, 0;
      }
      var negative := a < 0;
      var A: int := if a < 0 then -(a as int) else a;
      if times < 0 { negative := !negative; }
      var T: int := if times < 0 then -(times as int) else times;
      if divisor < 0 { negative := !negative; }
      var D: int := if divisor < 0 then -(divisor as int) else divisor;
      ProductOf(a, times, A, T);
      var s32, s00 := Product(A, T);
      WordsBelow(D, s32, s00);
      if s32 < D {
        var result: int;
        result, s00 := Divide(D, s32, s00);
        ResultFrom(a, times, divisor, result, s00);
        WordAgain(result);
        if s00 >= D / 2 {
          result := ToInt32(result + 1);
        }
        if negative {
          result := ToInt32(-result);
        }
        if (negative && result <= 0) || (!negative && result >= 0) {
          return true, result;
        }
      } else {
        ResultFrom(a, times, divisor, 0, 0);
      }
    }
  }

  lemma ProductOf(a: int, times: int, A: nat, T: nat)
    requires A == Abs(a) && T == Abs(times)
    ensures A * T == AbsProduct(a, times)
  {
  }

  lemma WordAgain(x: int)
    requires INT_MIN <= x <= INT_MAX
    ensures ToInt32(x) == x
  {
  }

  // --- What the result is worth -----------------------------------------------------------------

  /** m is a nearest integer to product / d. */
  predicate Nearest(m: int, product: int, d: int) { 2 * Abs(m * d - product) <= Abs(d) }

  /** The rounding of magnitudes is never off by more than (D + 1) / 2, and is to the nearest except for an
      odd divisor with a remainder just below one half; a tie goes away from zero. */
  lemma RoundedIsClose(product: nat, d: nat)
    requires d > 0
    ensures 2 * Abs(Rounded(product, d) * d - product) <= d + 1
    ensures Nearest(Rounded(product, d), product, d) <==> !(d % 2 == 1 && product % d == d / 2)
    ensures d % 2 == 0 && product % d == d / 2 ==> Rounded(product, d) * d > product
  {
    var (q, r) := (product / d, product % d);
    assert product == q * d + r;
    assert (q + 1) * d == q * d + d;
    var m := Rounded(product, d);
    assert m * d - product == if r >= d / 2 then d - r else -r;
  }

  /** Success is reported exactly when the rounded result, with its sign, fits 32 bits - but for one family:
      a rounded magnitude of exactly 2^32 is reported as a successful 0. */
  lemma SuccessMeansFits(a: int32, times: int32, divisor: int32)
    requires divisor != 0 && a != 0 && times != 0
    ensures var m := Rounded(AbsProduct(a, times), Abs(divisor));
            var signed: int := if Negative(a, times, divisor) then -(m as int) else m;
            Result(a, times, divisor) ==
              if m == U32 then (if AbsProduct(a, times) < Abs(divisor) * U32 then Some(0) else None)
              else if INT_MIN <= signed <= INT_MAX then Some(signed) else None
  {
    var product, d := AbsProduct(a, times), Abs(divisor);
    QuotientBelow(product, d);
    WrapBack(Rounded(product, d));
    hide Rounded, Abs, ToInt32, AbsProduct;
  }

  /** The word the rounded magnitude leaves, and its negation. */
  lemma WrapBack(m: nat)
    ensures m <= INT_MAX ==> ToInt32(m) == m && ToInt32(0 - m) == 0 - m
    ensures INT_MAX < m < U32 ==> ToInt32(m) == m - U32
    ensures INT_MAX + 1 < m < U32 ==> ToInt32(U32 - m) == U32 - m
    ensures m == INT_MAX + 1 ==> ToInt32(U32 - m) == INT_MIN
    ensures m == U32 ==> ToInt32(m) == 0 && ToInt32(0) == 0
  {
  }

  lemma QuotientBelow(product: nat, d: nat)
    requires d > 0
    ensures product < d * U32 <==> product / d < U32
    ensures product < d * U32 ==> Rounded(product, d) <= U32
    ensures product >= d * U32 ==> Rounded(product, d) >= U32
  {
    var (q, r) := (product / d, product % d);
    assert product == q * d + r;
    if q < U32 {
      MulBound(q + 1, d, U32, d);
      assert (q + 1) * d == q * d + d;
    } else {
      MulBound(U32, d, q, d);
    }
  }

  /** The nearest integer to product / d, a tie going up. */
  function HalfUp(product: nat, d: nat): nat
    requires d > 0
  {
    (2 * product + d) / (2 * d)
  }

  /** The nearest integer to a * times / divisor, a tie going away from zero. */
  function NearestAway(a: int, times: int, divisor: int): int
    requires divisor != 0
  {
    var n: int := HalfUp(AbsProduct(a, times), Abs(divisor));
    if Negative(a, times, divisor) then -n else n
  }

  /** What the documentation promises: the rounded quotient if it fits 32 bits, failure otherwise. */
  function Promised(a: int32, times: int32, divisor: int32): Option<int> {
    if divisor == 0 then None
    else
      var n := NearestAway(a, times, divisor);
      if INT_MIN <= n <= INT_MAX then Some(n) else None
  }

  lemma HalfUpIs(product: nat, d: nat)
    requires d > 0
    ensures HalfUp(product, d) == product / d + if 2 * (product % d) >= d then 1 else 0
  {
    var (q, r) := (product / d, product % d);
    DivMod(product, d);
    var n := q + if 2 * r >= d then 1 else 0;
    TwiceProduct(n, d);
    assert (q + 1) * d == q * d + d;
    var rest := 2 * r + d - if 2 * r >= d then 2 * d else 0;
    DivModOf(rest, n, 2 * d);
  }

  lemma TwiceProduct(n: nat, d: nat)
    ensures n * (2 * d) == 2 * (n * d)
  {
  }

  /** No other integer is as near, but for the smaller one of a tie. */
  lemma HalfUpIsNearest(product: nat, d: nat, k: int)
    requires d > 0
    ensures Nearest(HalfUp(product, d), product, d)
    ensures Nearest(k, product, d) ==> k == HalfUp(product, d) || 0 <= k < HalfUp(product, d)
  {
    HalfUpError(product, d);
    ErrorAt(product, d, k, HalfUp(product, d));
    hide HalfUp;
  }

  lemma HalfUpError(product: nat, d: nat)
    requires d > 0
    ensures 0 - d < 2 * (HalfUp(product, d) * d - product) <= d
  {
    HalfUpIs(product, d);
    hide HalfUp;
    var (q, r) := (product / d, product % d);
    DivMod(product, d);
    assert (q + 1) * d == q * d + d;
  }

  lemma ErrorAt(product: nat, d: nat, k: int, n: nat)
    requires d > 0
    ensures k < 0 ==> k * d - product <= 0 - d
    ensures k > n ==> k * d - product >= n * d - product + d
  {
    if k < 0 {
      AtLeast(-k, 1, d);
      assert (-k) * d == -(k * d);
    } else if k > n {
      AtLeast(k, n + 1, d);
      assert (n + 1) * d == n * d + d;
    }
  }

  lemma AtLeast(x: nat, y: nat, d: nat)
    requires x >= y
    ensures x * d >= y * d
  {
    MulBound(y, d, x, d);
  }

  /** NearestAway is a nearest integer, and farther from zero than any other. */
  lemma NearestAwayIs(a: int, times: int, divisor: int, k: int)
    requires divisor != 0
    ensures Nearest(NearestAway(a, times, divisor), a * times, divisor)
    ensures Nearest(k, a * times, divisor) ==>
              k == NearestAway(a, times, divisor) || Abs(k) < Abs(NearestAway(a, times, divisor))
  {
    var (product, d) := (AbsProduct(a, times), Abs(divisor));
    var (minus, minusD) := ((a < 0) != (times < 0), divisor < 0);
    var n := HalfUp(product, d);
    var j := if minus != minusD then -k else k;
    HalfUpIsNearest(product, d, j);
    SameDistance(n, product, d, minus, minusD);
    SameDistance(j, product, d, minus, minusD);
    SignedProduct(a, times);
    hide Nearest, HalfUp, AbsProduct;
  }

  lemma SignedProduct(a: int, times: int)
    ensures a * times == if (a < 0) != (times < 0) then 0 - AbsProduct(a, times) else AbsProduct(a, times)
  {
    if a != 0 && times != 0 { SignOfProduct(a, times); }
  }

  /** The two ways in which the division breaks the promise, in terms of its exact quotient q and remainder r. An odd
      divisor with r just below one half rounds up where it should round down, which shows if q itself fits; and a
      magnitude that rounds up to 2^32 is taken for 0. */
  predicate Breaks(a: int32, times: int32, divisor: int32)
    requires divisor != 0
  {
    var (product, d) := (AbsProduct(a, times), Abs(divisor));
    var q: int, r := product / d, product % d;
    var signed := if Negative(a, times, divisor) then -q else q;
    a != 0 && times != 0 &&
    ((d % 2 == 1 && r == d / 2 && INT_MIN <= signed <= INT_MAX) || (q == U32 - 1 && r >= d / 2))
  }

  /** The promise is kept for exactly the other inputs, whether it was a number or a failure. */
  lemma PromiseKept(a: int32, times: int32, divisor: int32)
    ensures Result(a, times, divisor) == Promised(a, times, divisor) <==> divisor == 0 || !Breaks(a, times, divisor)
  {
    if divisor != 0 {
      var (product, d) := (AbsProduct(a, times), Abs(divisor));
      HalfUpIs(product, d);
      if a == 0 || times == 0 {
        NoProduct(a, times, divisor);
      } else {
        SuccessMeansFits(a, times, divisor);
        QuotientBelow(product, d);
        RoundedIs(product, d);
        hide Result, HalfUp, Rounded, AbsProduct;
      }
    }
  }

  lemma NoProduct(a: int, times: int, divisor: int)
    requires divisor != 0 && (a == 0 || times == 0)
    ensures NearestAway(a, times, divisor) == 0
  {
    assert AbsProduct(a, times) == 0;
    HalfUpIs(0, Abs(divisor));
  }

  lemma RoundedIs(product: nat, d: nat)
    requires d > 0
    ensures Rounded(product, d) == product / d + if product % d >= d / 2 then 1 else 0
    ensures Rounded(product, d) - HalfUp(product, d) == if d % 2 == 1 && product % d == d / 2 then 1 else 0
  {
    HalfUpIs(product, d);
    hide HalfUp;
  }

  /** Signs do not change how near a quotient is. */
  lemma SameDistance(m: int, product: nat, d: nat, minus: bool, minusD: bool)
    ensures Nearest(if minus != minusD then -m else m, if minus then 0 - product else product,
                    if minusD then 0 - d else d)
         == Nearest(m, product, d)
  {
    assert (-m) * d == 0 - m * d && m * (0 - d) == 0 - m * d && (-m) * (0 - d) == m * d;
  }

  lemma SignOfProduct(a: int, times: int)
    requires a != 0 && times != 0
    ensures a * times == if (a < 0) != (times < 0) then 0 - AbsProduct(a, times) else AbsProduct(a, times)
  {
  }

  lemma ZeroIsFar(product: nat, d: nat)
    requires d > 0 && Rounded(product, d) == U32
    ensures 2 * product > d
  {
  }

  /** A number that is stored is a nearest one exactly when its magnitude has been rounded well. */
  lemma ResultIsNearest(a: int32, times: int32, divisor: int32)
    requires Result(a, times, divisor).Some?
    ensures Nearest(Result(a, times, divisor).value, a * times, divisor) <==>
              a == 0 || times == 0 || RoundsWell(AbsProduct(a, times), Abs(divisor))
  {
    if a != 0 && times != 0 {
      var (product, d) := (AbsProduct(a, times), Abs(divisor));
      var m := Rounded(product, d);
      SuccessMeansFits(a, times, divisor);
      SignOfProduct(a, times);
      RoundedIsClose(product, d);
      if m == U32 { ZeroIsFar(product, d); }
      SameDistance(m, product, d, (a < 0) != (times < 0), divisor < 0);
      SameDistance(0, product, d, (a < 0) != (times < 0), divisor < 0);
      hide Rounded, Result, Nearest, AbsProduct;
    }
  }

  /** A witness of each fault. 1 * 1 / 3 is nearest to 0, and 1 is returned; 2^31 - 1 divided by 1 is refused,
      because its remainder 0 is rounded up; and 65535 * 65537 / 1 is 2^32 - 1, and 0 is returned as a success. */
  lemma Faults()
    ensures Result(1, 1, 3) == Some(1) && !Nearest(1, 1, 3) && Promised(1, 1, 3) == Some(0)
    ensures Result(0x7fff_ffff, 1, 1) == None && Promised(0x7fff_ffff, 1, 1) == Some(0x7fff_ffff)
    ensures Result(65535, 65537, 1) == Some(0) && !Nearest(0, 65535 * 65537, 1) && Promised(65535, 65537, 1) == None
  {
    assert ToInt32(U32) == 0;
    assert ToInt32(0x8000_0000) == INT_MIN;
    HalfUpIs(1, 3);
    HalfUpIs(0x7fff_ffff, 1);
    HalfUpIs(65535 * 65537, 1);
    hide HalfUp;
  }
}
