/** png_ascii_from_fixed: printing a 32-bit number of hundred-thousandths in decimal. */
module AsciiFixed {
  import opened Common
  import opened FpNumber

  const INT_MIN := -0x8000_0000
  const INT_MAX := 0x7fff_ffff

  function DigitChar(d: nat): (c: char)
    requires d < 10
    ensures IsDigit(c)
  {
    '0' + d as char
  }

  // --- What is printed --------------------------------------------------------------------------

  /** n in decimal without leading zeros; nothing at all for 0. */
  function Decimal(n: nat): string { if n == 0 then "" else Decimal(n / 10) + [DigitChar(n % 10)] }

  /** The k lowest decimal digits of n. */
  function Padded(n: nat, k: nat): string { if k == 0 then "" else Padded(n / 10, k - 1) + [DigitChar(n % 10)] }

  /** s without its trailing zeros. */
  function Trim(s: string): string {
    if s != "" && s[|s| - 1] == '0' then Trim(s[..|s| - 1]) else s
  }

  function Magnitude(fp: int): nat { if fp < 0 then -fp else fp }

  /** The shortest way to write fp / 100000 without an exponent, except that 0 is "0". */
  function Printed(fp: int): Number {
    var m := Magnitude(fp);
    var frac := Trim(Padded(m, 5));
    Number(if fp < 0 then "-" else "", if m == 0 then "0" else Decimal(m / 100000), frac != "", frac, None)
  }

  // --- The printer ------------------------------------------------------------------------------

  /** digits holds D backwards. */
  predicate Backwards(digits: seq<char>, n: nat, D: string) {
    n <= |digits| && n == |D| && forall j :: 0 <= j < n ==> digits[j] == D[n - 1 - j]
  }

  /** The place, counted from 1, of the lowest digit that is not zero; 16 when there is none. */
  predicate LowestNonzero(digits: seq<char>, n: nat, first: nat) {
    && n <= |digits|
    && (forall j :: 0 <= j < n && j < first - 1 ==> digits[j] == '0')
    && (first == 16 || (1 <= first <= n && digits[first - 1] != '0'))
  }

  lemma {:induction false} DecimalLength(n: nat, k: nat, bound: nat)
    requires bound == TenTo(k) && n < bound
    ensures |Decimal(n)| <= k
    decreases k
  {
    if n > 0 { DecimalLength(n / 10, k - 1, TenTo(k - 1)); }
  }

  function TenTo(k: nat): (r: nat) { if k == 0 then 1 else 10 * TenTo(k - 1) }

  lemma TenDigits(n: nat)
    requires n <= 0x8000_0000
    ensures |Decimal(n)| <= 10
  {
    assert TenTo(2) == 100 && TenTo(4) == 10000 && TenTo(6) == 1000000;
    assert TenTo(8) == 100000000 && TenTo(10) == 10000000000;
    DecimalLength(n, 10, TenTo(10));
  }

  method SplitDigits(num0: nat, digits: array<char>) returns (ndigits: nat, first: nat)
    requires num0 <= 0x8000_0000 && digits.Length == 10
    modifies digits
    ensures Backwards(digits[..], ndigits, Decimal(num0))
    ensures LowestNonzero(digits[..], ndigits, first) && (first == 16 <==> num0 == 0)
  {
    TenDigits(num0);
    var num := num0;
    ndigits, first := 0, 16;
    ghost var low := "";
    while num != 0
      invariant Decimal(num0) == Decimal(num) + low && Backwards(digits[..], ndigits, low)
      invariant LowestNonzero(digits[..], ndigits, first)
      invariant num == 0 ==> (first == 16 <==> num0 == 0)
    {
      var tmp := num / 10;
      var d := num - tmp * 10;
      assert Decimal(num) == Decimal(tmp) + [DigitChar(d)];
      hide Decimal;
      low := [DigitChar(d)] + low;
      digits[ndigits] := DigitChar(d);
      ndigits := ndigits + 1;
      if first == 16 && d > 0 {
        first := ndigits;
      }
      num := tmp;
    }
  }

  method PutChar(ascii: array<char>, k0: nat, c: char) returns (k: nat)
    requires k0 < ascii.Length
    modifies ascii
    ensures k == k0 + 1 && ascii[..k] == old(ascii[..k0]) + [c]
    ensures forall i :: k <= i < ascii.Length ==> ascii[i] == old(ascii[i])
  {
    ascii[k0] := c;
    k := k0 + 1;
  }

  /** Copies the digits from place n down to place stop + 1. */
  method PutDigits(ascii: array<char>, k0: nat, digits: array<char>, n: nat, stop: nat, ghost D: string)
    returns (k: nat)
    requires digits != ascii && stop <= n <= |D| && Backwards(digits[..], |D|, D) && k0 + n - stop <= ascii.Length
    modifies ascii
    ensures k == k0 + n - stop && ascii[..k] == old(ascii[..k0]) + D[|D| - n..|D| - stop]
    ensures forall i :: k <= i < ascii.Length ==> ascii[i] == old(ascii[i])
  {
    k := k0;
    var m := n;
    while m > stop
      invariant stop <= m <= n && k == k0 + n - m
      invariant ascii[..k] == old(ascii[..k0]) + D[|D| - n..|D| - m]
      invariant forall i :: k <= i < ascii.Length ==> ascii[i] == old(ascii[i])
    {
      m := m - 1;
      ascii[k] := digits[m];
      k := k + 1;
    }
  }

  function Zeros(k: nat): (s: string)
    ensures |s| == k
  {
    seq(k, i => '0')
  }

  method PutZeros(ascii: array<char>, k0: nat, count: nat) returns (k: nat)
    requires k0 + count <= ascii.Length
    modifies ascii
    ensures k == k0 + count && ascii[..k] == old(ascii[..k0]) + Zeros(count)
    ensures forall i :: k <= i < ascii.Length ==> ascii[i] == old(ascii[i])
  {
    k := k0;
    while k < k0 + count
      invariant k0 <= k <= k0 + count
      invariant ascii[..k] == old(ascii[..k0]) + Zeros(k - k0)
      invariant forall i :: k <= i < ascii.Length ==> ascii[i] == old(ascii[i])
    {
      ascii[k] := '0';
      k := k + 1;
    }
  }

  // --- The digits and the parts printed ---------------------------------------------------------

  /** n without its k lowest decimal digits. */
  function Shifted(n: nat, k: nat): nat { if k == 0 then n else Shifted(n / 10, k - 1) }

  lemma ShiftedByFive(n: nat)
    ensures Shifted(n, 5) == n / 100000
  {
    assert Shifted(n, 5) == Shifted(n / 10, 4) == Shifted(n / 10 / 10, 3) == Shifted(n / 10 / 10 / 10, 2);
    var h := n / 10 / 10 / 10;
    assert Shifted(h, 2) == Shifted(h / 10, 1) == Shifted(h / 10 / 10, 0) == h / 10 / 10;
  }

  lemma {:induction false} DecimalSplit(n: nat, k: nat)
    ensures var D := Decimal(n); var low := if |D| < k then |D| else k;
            Decimal(Shifted(n, k)) == D[..|D| - low] && Padded(n, k) == Zeros(k - low) + D[|D| - low..]
    decreases k
  {
    hide *;
    var D := Decimal(n);
    if k == 0 {
      SplitNothing(n);
    } else if n == 0 {
      NoDigits();
      DecimalSplit(0, k - 1);
      ZeroDigits(k);
    } else {
      DigitStep(n, k);
      DecimalSplit(n / 10, k - 1);
      SplitStep(Decimal(n / 10), D, DigitChar(n % 10), k, Decimal(Shifted(n, k)), Padded(n / 10, k - 1));
    }
  }

  lemma SplitNothing(n: nat)
    ensures Padded(n, 0) == Zeros(0) + Decimal(n)[|Decimal(n)|..] && Shifted(n, 0) == n
    ensures Decimal(n)[..|Decimal(n)|] == Decimal(n)
  {
  }

  lemma NoDigits()
    ensures Decimal(0) == ""
  {
  }

  lemma ZeroDigits(k: nat)
    requires k > 0 && Padded(0, k - 1) == Zeros(k - 1) + Decimal(0)[0..]
    ensures Padded(0, k) == Zeros(k) + Decimal(0)[0..] && Shifted(0, k) == Shifted(0, k - 1)
  {
    NoDigits();
    assert Padded(0, k) == Zeros(k - 1) + ['0'] == Zeros(k);
  }

  lemma DigitsOf(a: string, b: string, c: char)
    ensures a + b + [c] == a + (b + [c])
  {
  }

  lemma DigitStep(n: nat, k: nat)
    requires n > 0 && k > 0
    ensures Decimal(n) == Decimal(n / 10) + [DigitChar(n % 10)] && Shifted(n, k) == Shifted(n / 10, k - 1)
    ensures Padded(n, k) == Padded(n / 10, k - 1) + [DigitChar(n % 10)]
  {
  }

  /** One more digit behind both. */
  lemma SplitStep(E: string, D: string, c: char, k: nat, high: string, low: string)
    requires k > 0 && D == E + [c]
    requires var n := if |E| < k - 1 then |E| else k - 1;
             high == E[..|E| - n] && low == Zeros(k - 1 - n) + E[|E| - n..]
    ensures var n := if |D| < k then |D| else k;
            high == D[..|D| - n] && low + [c] == Zeros(k - n) + D[|D| - n..]
  {
    hide Zeros;
    var n := if |D| < k then |D| else k;
    assert D[..|D| - n] == E[..|D| - n] && D[|D| - n..] == E[|D| - n..] + [c];
    DigitsOf(Zeros(k - n), E[|D| - n..], c);
  }

  lemma {:induction false} TrimIs(q: string, z: nat)
    requires q == "" || q[|q| - 1] != '0'
    ensures Trim(q + Zeros(z)) == q
  {
    if z == 0 {
      assert q + Zeros(0) == q;
    } else {
      TrimIs(q, z - 1);
      var s := q + Zeros(z);
      assert s[..|s| - 1] == q + Zeros(z - 1);
    }
  }

  lemma TailZeros(digits: seq<char>, D: string, z: nat)
    requires Backwards(digits, |D|, D) && z <= |D| && forall j :: 0 <= j < z ==> digits[j] == '0'
    ensures D[|D| - z..] == Zeros(z)
  {
    var t := D[|D| - z..];
    forall i | 0 <= i < z ensures t[i] == Zeros(z)[i] { assert digits[z - 1 - i] == D[|D| - z + i]; }
  }

  lemma PrintedParts(m: nat, digits: seq<char>, first: nat)
    requires m > 0 && Backwards(digits, |Decimal(m)|, Decimal(m)) && LowestNonzero(digits, |Decimal(m)|, first)
    requires first != 16
    ensures var D := Decimal(m); var low := if |D| < 5 then |D| else 5; var frac := Trim(Padded(m, 5));
            && Decimal(m / 100000) == D[..|D| - low]
            && (first > 5 ==> frac == "")
            && (first <= 5 ==> 1 <= first <= low + 1 && frac != "")
            && (first <= 5 ==> frac == Zeros(5 - low) + D[|D| - low..|D| - (first - 1)])
  {
    hide Decimal, Padded, Trim, Shifted, Zeros;
    var D := Decimal(m);
    ShiftedByFive(m);
    DecimalSplit(m, 5);
    var z := if first > 5 then 5 else first - 1;
    TailZeros(digits, D, z);
    if first <= 5 { assert digits[first - 1] == D[|D| - first]; }
    hide Backwards, LowestNonzero;
    TrimmedTail(D, if |D| < 5 then |D| else 5, z);
  }

  lemma TrimmedTail(D: string, low: nat, z: nat)
    requires z <= low <= |D| && low <= 5 && D[|D| - z..] == Zeros(z)
    requires if z == low then low == 5 else D[|D| - 1 - z] != '0'
    ensures var q := Zeros(5 - low) + D[|D| - low..|D| - z];
            (q == "" <==> z == low) && Trim(Zeros(5 - low) + D[|D| - low..]) == q
  {
    hide Trim, Zeros;
    var q := Zeros(5 - low) + D[|D| - low..|D| - z];
    assert |q| > 0 ==> q[|q| - 1] == D[|D| - 1 - z];
    TrimIs(q, z);
    assert Zeros(5 - low) + D[|D| - low..] == q + D[|D| - z..] == q + Zeros(z);
    assert |q| == 5 - z;
  }

  /** What is printed after the sign. */
  function Unsigned(m: nat): string {
    var frac := Trim(Padded(m, 5));
    (if m == 0 then "0" else Decimal(m / 100000)) + (if frac != "" then "." else "") + frac
  }

  lemma UnsignedZero()
    ensures Unsigned(0) == "0"
  {
    assert Padded(0, 5) == "" + Zeros(5);
    TrimIs("", 5);
    hide Padded, Trim;
  }

  lemma UnsignedIs(m: nat, digits: seq<char>, n: nat, first: nat)
    requires Backwards(digits, n, Decimal(m)) && LowestNonzero(digits, n, first) && (first == 16 <==> m == 0)
    requires m <= 0x8000_0000
    ensures n == |Decimal(m)| <= 10 && (n == 0 <==> m == 0) && |Unsigned(m)| <= 11
    ensures var D := Decimal(m); var low := if n < 5 then n else 5;
            && (m == 0 ==> Unsigned(m) == "0")
            && (m > 0 && first > 5 ==> Unsigned(m) == D[..n - low])
            && (m > 0 && first <= 5 ==> 1 <= first <= low + 1)
            && (m > 0 && first <= 5 ==>
                  Unsigned(m) == D[..n - low] + ("." + Zeros(5 - low) + D[n - low..n - (first - 1)]))
  {
    hide Padded, Trim, Zeros;
    TenDigits(m);
    if m == 0 {
      UnsignedZero();
    } else {
      PrintedParts(m, digits, first);
      hide LowestNonzero;
      var frac := Trim(Padded(m, 5));
      assert Decimal(m / 100000) + "." + frac == Decimal(m / 100000) + ("." + frac);
    }
  }

  /** The dot and the fraction, down to the lowest digit that is not zero. */
  method PutFraction(ascii: array<char>, k0: nat, digits: array<char>, n: nat, first: nat, ghost D: string)
    returns (k: nat)
    requires digits != ascii && 1 <= first <= n + 1 && n <= 5 && n <= |D| && Backwards(digits[..], |D|, D)
    requires k0 + 7 - first <= ascii.Length
    modifies ascii
    ensures k == k0 + 7 - first
    ensures ascii[..k] == old(ascii[..k0]) + ("." + Zeros(5 - n) + D[|D| - n..|D| - (first - 1)])
    ensures forall i :: k <= i < ascii.Length ==> ascii[i] == old(ascii[i])
  {
    hide Backwards, Zeros;
    k := PutChar(ascii, k0, '.');
    k := PutZeros(ascii, k, 5 - n);
    k := PutDigits(ascii, k, digits, n, first - 1, D);
  }

  /** Everything after the sign. */
  method PutMagnitude(ascii: array<char>, k0: nat, m: nat) returns (k: nat)
    requires k0 + 12 <= ascii.Length && m <= 0x8000_0000
    modifies ascii
    ensures k == k0 + |Unsigned(m)| <= k0 + 11
    ensures ascii[..k] == old(ascii[..k0]) + Unsigned(m)
    ensures forall i :: k <= i < ascii.Length ==> ascii[i] == old(ascii[i])
  {
    hide Decimal, Padded, Trim, Backwards, LowestNonzero, Zeros, Unsigned;
    var digits := new char[10];
    var ndigits, first := SplitDigits(m, digits);
    k := k0;
    UnsignedIs(m, digits[..], ndigits, first);
    ghost var D := Decimal(m);
    if ndigits > 0 {
      var n := ndigits;
      if n > 5 {
        k := PutDigits(ascii, k, digits, n, 5, D);
        assert D[ndigits - n..ndigits - 5] == D[..ndigits - 5];
        n := 5;
      }
      if first <= 5 {
        k := PutFraction(ascii, k, digits, n, first, D);
      }
      assert ndigits <= 5 ==> D[..ndigits - n] == "";
    } else {
      k := PutChar(ascii, k, '0');
    }
  }

  /** png_ascii_from_fixed: false is the call of png_error. Negating the least integer gives 2^31. */
  method AsciiFromFixed(ascii: array<char>, size: nat, fp: int) returns (ok: bool)
    requires size <= ascii.Length && INT_MIN <= fp <= INT_MAX
    modifies ascii
    ensures ok <==> size > 12
    ensures !ok ==> ascii[..] == old(ascii[..])
    ensures ok ==> var text := Text(Printed(fp));
              && |text| <= 12 && ascii[..|text| + 1] == text + ['\0']
              && forall i :: |text| < i < ascii.Length ==> ascii[i] == old(ascii[i])
  {
    hide Decimal, Padded, Trim, Unsigned, Text, Printed;
    if size > 12 {
      var k, num := 0, fp;
      if fp < 0 {
        k := PutChar(ascii, k, '-');
        num := -fp;
      }
      if num <= 0x8000_0000 {
        k := PutMagnitude(ascii, k, num);
        k := PutChar(ascii, k, '\0');
        PrintedText(fp);
        return true;
      }
    }
    return false;
  }

  lemma PrintedText(fp: int)
    ensures Text(Printed(fp)) == (if fp < 0 then "-" else "") + Unsigned(Magnitude(fp))
  {
    hide Decimal, Padded, Trim;
  }

  // --- Reading back what was printed ------------------------------------------------------------

  lemma {:induction false} DecimalDigits(n: nat)
    ensures AllDigits(Decimal(n)) && (n > 0 ==> Decimal(n) != "" && Decimal(n)[0] != '0')
  {
    if n > 0 { DecimalDigits(n / 10); }
  }

  lemma {:induction false} PaddedDigits(n: nat, k: nat)
    ensures AllDigits(Padded(n, k)) && |Padded(n, k)| == k
  {
    if k > 0 { PaddedDigits(n / 10, k - 1); }
  }

  lemma DigitsSnoc(s: string, d: nat)
    requires AllDigits(s) && d < 10
    ensures AllDigits(s + [DigitChar(d)]) && Digits(s + [DigitChar(d)]) == 10 * Digits(s) + d
  {
    var t := s + [DigitChar(d)];
    assert t[..|t| - 1] == s;
  }

  lemma {:induction false} DecimalValue(n: nat)
    ensures AllDigits(Decimal(n)) && Digits(Decimal(n)) == n
  {
    if n > 0 {
      DecimalValue(n / 10);
      DigitsSnoc(Decimal(n / 10), n % 10);
    }
  }

  /** The high digits followed by the k low ones are the number again. */
  lemma {:induction false} SplitValue(n: nat, k: nat)
    ensures var s := Decimal(Shifted(n, k)) + Padded(n, k); AllDigits(s) && Digits(s) == n
    decreases k
  {
    if k == 0 {
      DecimalValue(n);
      assert Decimal(n) + Padded(n, 0) == Decimal(n);
    } else {
      SplitValue(n / 10, k - 1);
      var s := Decimal(Shifted(n / 10, k - 1)) + Padded(n / 10, k - 1);
      DigitsSnoc(s, n % 10);
      assert Decimal(Shifted(n, k)) + Padded(n, k) == s + [DigitChar(n % 10)];
    }
  }

  lemma {:induction false} TrimDigits(p: string)
    requires AllDigits(p)
    ensures AllDigits(Trim(p)) && |Trim(p)| <= |p| && (Trim(p) != "" ==> Trim(p)[|Trim(p)| - 1] != '0')
  {
    if p != "" && p[|p| - 1] == '0' { TrimDigits(p[..|p| - 1]); }
  }

  /** The value of the digits w before the dot and p after it. */
  function Scaled(w: string, p: string): real
    requires AllDigits(w) && AllDigits(p)
  {
    Digits(w + p) as real * Pow10(0 - |p|)
  }

  lemma Tenfold(d: nat, x: real)
    ensures (10 * d) as real * (x / 10.0) == d as real * x
  {
    assert (10 * d) as real == 10.0 * d as real;
  }

  lemma DropZero(w: string, q: string)
    requires AllDigits(w) && AllDigits(q)
    ensures Scaled(w, q + ['0']) == Scaled(w, q)
  {
    assert DigitChar(0) == '0';
    assert w + (q + ['0']) == w + q + ['0'];
    DigitsSnoc(w + q, 0);
    Tenfold(Digits(w + q), Pow10(0 - |q|));
    hide Digits;
  }

  /** Dropping trailing zeros after the dot does not change the number. */
  lemma {:induction false} TrimKeepsValue(w: string, p: string)
    requires AllDigits(w) && AllDigits(p)
    ensures AllDigits(Trim(p)) && Scaled(w, Trim(p)) == Scaled(w, p)
  {
    hide Scaled;
    if p != "" && p[|p| - 1] == '0' {
      var q := p[..|p| - 1];
      assert p == q + ['0'];
      DropZero(w, q);
      TrimKeepsValue(w, q);
    }
  }

  lemma {:induction false} PowOfFive(x: real)
    ensures x * Pow10(-5) * 100000.0 == x
  {
    assert Pow10(-1) == 0.1 && Pow10(-2) == 0.01 && Pow10(-3) == 0.001;
    assert Pow10(-4) == 0.0001 && Pow10(-5) == 0.00001;
  }

  lemma PartsValue(m: nat)
    ensures var w := Decimal(m / 100000); var p := Trim(Padded(m, 5));
            && AllDigits(w) && AllDigits(p) && |p| <= 5 && (p != "" ==> p[|p| - 1] != '0')
            && Scaled(w, p) * 100000.0 == m as real && (m > 0 ==> w != "" || p != "")
  {
    hide Decimal, Padded, Trim, Shifted, Pow10;
    DecimalDigits(m / 100000);
    PaddedDigits(m, 5);
    ShiftedByFive(m);
    SplitValue(m, 5);
    TrimDigits(Padded(m, 5));
    TrimKeepsValue(Decimal(m / 100000), Padded(m, 5));
    PowOfFive(m as real);
  }

  /** Every value is printed in at most 12 characters, as a number of the grammar, without exponent, a trailing
      zero of the fraction or a needless leading zero. */
  lemma PrintedIsShort(fp: int)
    requires INT_MIN <= fp <= INT_MAX
    ensures var n := Printed(fp);
            && WellFormed(n) && n.exp == None && |Text(n)| <= 12
            && (n.dot <==> n.frac != "") && (n.frac != "" ==> n.frac[|n.frac| - 1] != '0')
            && (n.whole != "" && n.whole[0] == '0' ==> fp == 0 && n.whole == "0" && n.frac == "")
            && (n.sign == "-" <==> fp < 0)
  {
    var m := Magnitude(fp);
    PartsValue(m);
    WholeShort(m);
    hide Decimal, Padded, Trim, Scaled, Text, AllDigits;
    TextLength(Printed(fp));
    assert AllDigits("0") by { ZeroDigit(); }
  }

  lemma TextLength(n: Number)
    requires n.exp == None
    ensures |Text(n)| == |n.sign| + |n.whole| + (if n.dot then 1 else 0) + |n.frac|
  {
  }

  lemma ZeroDigit()
    ensures AllDigits("0")
  {
  }

  lemma WholeShort(m: nat)
    requires m <= 0x8000_0000
    ensures var w := Decimal(m / 100000); |w| <= 5 && (w != "" ==> w[0] != '0')
    ensures m == 0 ==> Trim(Padded(m, 5)) == ""
  {
    DecimalDigits(m / 100000);
    assert TenTo(2) == 100 && TenTo(4) == 10000;
    DecimalLength(m / 100000, 5, TenTo(5));
    if m == 0 { assert Padded(0, 5) == "" + Zeros(5); TrimIs("", 5); }
    NoDigits();
    hide Decimal, Padded, Trim;
  }

  lemma ValueWithoutExponent(n: Number)
    requires Begun(n) && n.exp == None
    ensures Value(n) == Signed(n.sign, Scaled(n.whole, n.frac))
  {
    hide Digits, Pow10, Signed;
  }

  lemma ZeroValue()
    ensures Scaled("0", "") == 0.0
  {
    assert "0" + "" == "0" && Digits("0") == 0;
    hide Pow10;
  }

  lemma PrintedValue(fp: int)
    requires INT_MIN <= fp <= INT_MAX
    ensures WellFormed(Printed(fp)) && Value(Printed(fp)) * 100000.0 == fp as real
  {
    hide Decimal, Padded, Trim, Scaled, WellFormed, Value;
    PrintedIsShort(fp);
    PartsValue(Magnitude(fp));
    var n := Printed(fp);
    WellFormedBegun(n);
    hide Begun;
    ValueWithoutExponent(n);
    if fp == 0 { ZeroValue(); }
  }

  lemma WellFormedBegun(n: Number)
    requires WellFormed(n)
    ensures Begun(n)
  {
  }

  /** Printing and parsing: what is written in the buffer, up to its NUL, is accepted by png_check_fp_string and
      denotes exactly fp / 100000, and the classifiers see its sign. */
  lemma PrintedReadsBack(fp: int, rest: string)
    requires INT_MIN <= fp <= INT_MAX
    ensures var n := Printed(fp); var state := StringResult(Text(n) + (['\0'] + rest));
            && WellFormed(n) && state != 0 && Value(n) * 100000.0 == fp as real
            && (IsZero(state) <==> fp == 0) && (IsPositive(state) <==> fp > 0) && (IsNegative(state) <==> fp < 0)
  {
    var n := Printed(fp);
    hide Printed, Value, StateOf, IsZero, IsPositive, IsNegative, WellFormed, StringResult;
    PrintedValue(fp);
    NumberIsAccepted(n, ['\0'] + rest);
    StateClassifies(n);
  }
}
