/** What several modules use. */
module Common {
  datatype Option<T> = None | Some(value: T)

  type byte = b: int | 0 <= b < 256

  function Abs(x: int): nat { if x < 0 then -x else x }

  function Min(a: nat, b: nat): nat { if a < b then a else b }

  function Max(a: nat, b: nat): nat { if a < b then b else a }

  function Pow2(n: nat): (p: nat)
    ensures p >= 1
  {
    if n == 0 then 1 else 2 * Pow2(n - 1)
  }

  // --- Division ---------------------------------------------------------------------------------

  lemma ZeroMultiple(k: int, n: nat)
    requires 0 - n < k * n < n
    ensures k == 0
  {
    assert k >= 1 ==> k * n >= 1 * n;
    assert k <= -1 ==> k * n <= -1 * n;
  }

  lemma DivMod(v: nat, n: nat)
    requires n > 0
    ensures v == (v / n) * n + v % n
  {
  }

  /** Quotient and remainder are the only ones. */
  lemma DivModOf(a: nat, b: nat, n: nat)
    requires a < n
    ensures (b * n + a) % n == a && (b * n + a) / n == b
  {
    var v := b * n + a;
    var q, r := v / n, v % n;
    DivMod(v, n);
    assert 0 <= r < n;
    Unique(q, r, b, a, n);
  }

  lemma Unique(q: int, r: nat, b: int, a: nat, n: nat)
    requires q * n + r == b * n + a && r < n && a < n
    ensures q == b && r == a
  {
    assert (b - q) * n == b * n - q * n;
    ZeroMultiple(b - q, n);
  }
}
