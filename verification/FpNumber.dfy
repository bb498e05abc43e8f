/** png_check_fp_number and png_check_fp_string: a resumable recogniser of decimal numbers, whose state is one
    word of bits. */
module FpNumber {
  import opened Common

  type Word = bv16

  const INTEGER: Word := 0
  const FRACTION: Word := 1
  const EXPONENT: Word := 2
  const STATE: Word := 3
  const SAW_SIGN: Word := 4
  const SAW_DIGIT: Word := 8
  const SAW_DOT: Word := 16
  const SAW_E: Word := 32
  const SAW_ANY: Word := 60
  const WAS_VALID: Word := 64
  const NEGATIVE: Word := 128
  const NONZERO: Word := 256
  const STICKY: Word := 448

  predicate IsDigit(c: char) { '0' <= c <= '9' }

  function CharType(c: char): Option<Word> {
    if c == '+' then Some(SAW_SIGN)
    else if c == '-' then Some(SAW_SIGN + NEGATIVE)
    else if c == '.' then Some(SAW_DOT)
    else if c == '0' then Some(SAW_DIGIT)
    else if IsDigit(c) then Some(SAW_DIGIT + NONZERO)
    else if c == 'E' || c == 'e' then Some(SAW_E)
    else None
  }

  function FpAdd(state: Word, flags: Word): Word { state | flags }

  function FpSet(state: Word, value: Word): Word { value | (state & STICKY) }

  /** One turn of the loop; None is the jump to PNG_FP_End. */
  function Next(state: Word, c: char): Option<Word> {
    match CharType(c)
    case None => None
    case Some(t) =>
      var key := (state & STATE) + (t & SAW_ANY);
      if key == INTEGER + SAW_SIGN then
        if state & SAW_ANY != 0 then None else Some(FpAdd(state, t))
      else if key == INTEGER + SAW_DOT then
        if state & SAW_DOT != 0 then None
        else if state & SAW_DIGIT != 0 then Some(FpAdd(state, t))
        else Some(FpSet(state, FRACTION | t))
      else if key == INTEGER + SAW_DIGIT then
        var st := if state & SAW_DOT != 0 then FpSet(state, FRACTION | SAW_DOT) else state;
        Some(FpAdd(st, t | WAS_VALID))
      else if key == INTEGER + SAW_E then
        if state & SAW_DIGIT == 0 then None else Some(FpSet(state, EXPONENT))
      else if key == FRACTION + SAW_DIGIT then Some(FpAdd(state, t | WAS_VALID))
      else if key == FRACTION + SAW_E then
        if state & SAW_DIGIT == 0 then None else Some(FpSet(state, EXPONENT))
      else if key == EXPONENT + SAW_SIGN then
        if state & SAW_ANY != 0 then None else Some(FpAdd(state, SAW_SIGN))
      else if key == EXPONENT + SAW_DIGIT then Some(FpAdd(state, SAW_DIGIT | WAS_VALID))
      else None
  }

  /** The state and index at which the recogniser stops. */
  function Scan(s: string, state: Word, i: nat): (r: (Word, nat))
    requires i <= |s|
    ensures i <= r.1 <= |s|
    ensures r.1 < |s| ==> Next(r.0, s[r.1]) == None
    decreases |s| - i
  {
    if i == |s| then (state, i)
    else
      match Next(state, s[i])
      case None => (state, i)
      case Some(st) => Scan(s, st, i + 1)
  }

  method CheckFpNumber(s: string, state0: Word, from: nat) returns (state: Word, i: nat, valid: bool)
    requires from <= |s|
    ensures (state, i) == Scan(s, state0, from) && valid == (state & SAW_DIGIT != 0)
  {
    state, i := state0, from;
    while i < |s|
      invariant from <= i <= |s| && Scan(s, state, i) == Scan(s, state0, from)
    {
      var next := Next(state, s[i]);
      if next == None { break; }
      state := next.value;
      i := i + 1;
    }
    valid := state & SAW_DIGIT != 0;
  }

  /** What png_check_fp_string returns: the final state of an accepted string, else 0. */
  function StringResult(s: string): Word {
    var (state, i) := Scan(s, 0, 0);
    if state & SAW_DIGIT != 0 && (i == |s| || s[i] == '\0') then state else 0
  }

  method CheckFpString(s: string) returns (state: Word)
    ensures state == StringResult(s)
  {
    var i, valid;
    state, i, valid := CheckFpNumber(s, 0, 0);
    if !(valid && (i == |s| || s[i] == '\0')) {
      state := 0;
    }
  }

  predicate IsZero(state: Word) { state & (SAW_DIGIT | NONZERO) == SAW_DIGIT }

  predicate IsPositive(state: Word) {
    state & (SAW_DIGIT | NEGATIVE | NONZERO) == SAW_DIGIT | NONZERO
  }

  predicate IsNegative(state: Word) {
    state & (SAW_DIGIT | NEGATIVE | NONZERO) == SAW_DIGIT | NEGATIVE | NONZERO
  }

  // --- Resuming ---------------------------------------------------------------------------------

  /** Stopping at the end of a fragment, for lack of text or for a bad character, and resuming from the saved
      state and index with more text is one call on the whole text. */
  lemma {:induction false} ScanResumes(s: string, more: string, state: Word, i: nat)
    requires i <= |s|
    ensures var (st, j) := Scan(s, state, i); Scan(s + more, state, i) == Scan(s + more, st, j)
    decreases |s| - i
  {
    hide Next;
    if i < |s| {
      assert (s + more)[i] == s[i];
      if Next(state, s[i]).Some? {
        ScanResumes(s, more, Next(state, s[i]).value, i + 1);
      }
    }
  }

  // --- The numbers themselves -------------------------------------------------------------------

  datatype Exponent = Exponent(letter: char, sign: string, digits: string)

  /** [sign] whole [. frac] [exponent]: a number, or the beginning of one. */
  datatype Number = Number(sign: string, whole: string, dot: bool, frac: string, exp: Option<Exponent>)

  predicate AllDigits(s: string) { forall i :: 0 <= i < |s| ==> IsDigit(s[i]) }

  predicate SignOk(s: string) { s == "" || s == "+" || s == "-" }

  function Text(n: Number): string {
    n.sign + n.whole + (if n.dot then "." else "") + n.frac +
    (match n.exp case None => "" case Some(e) => [e.letter] + e.sign + e.digits)
  }

  /** What any number looks like while it is being read. */
  predicate Begun(n: Number) {
    && SignOk(n.sign) && AllDigits(n.whole) && AllDigits(n.frac) && (n.frac != "" ==> n.dot)
    && (n.exp.Some? ==>
          && (n.whole != "" || n.frac != "")
          && (n.exp.value.letter == 'E' || n.exp.value.letter == 'e')
          && SignOk(n.exp.value.sign) && AllDigits(n.exp.value.digits))
  }

  /** [+-]? (D+ (. D*)? | . D+) ([eE] [+-]? D+)? */
  predicate WellFormed(n: Number) {
    Begun(n) && (n.whole != "" || n.frac != "") && (n.exp.Some? ==> n.exp.value.digits != "")
  }

  predicate SomeNonzero(s: string) { exists i :: 0 <= i < |s| && s[i] != '0' }

  function Bit(b: bool, w: Word): Word { if b then w else 0 }

  /** The sticky flags of n. */
  function Sticky(n: Number): Word {
    Bit(n.sign == "-", NEGATIVE) | Bit(n.whole != "" || n.frac != "", WAS_VALID)
    | Bit(SomeNonzero(n.whole + n.frac), NONZERO)
  }

  /** The flags the recogniser holds after reading n. */
  function StateOf(n: Number): Word {
    match n.exp
    case Some(e) => EXPONENT | Bit(e.sign != "", SAW_SIGN) | Bit(e.digits != "", SAW_DIGIT) | Sticky(n)
    case None =>
      if !n.dot || (n.frac == "" && n.whole != "") then
        INTEGER | Bit(n.sign != "", SAW_SIGN) | Bit(n.whole != "", SAW_DIGIT) | Bit(n.dot, SAW_DOT)
        | Sticky(n)
      else FRACTION | SAW_DOT | Bit(n.frac != "", SAW_DIGIT) | Sticky(n)
  }

  /** n with one more character, if that is still the beginning of a number. */
  function Extend(n: Number, c: char): Option<Number> {
    match n.exp
    case Some(e) =>
      if IsDigit(c) then Some(n.(exp := Some(e.(digits := e.digits + [c]))))
      else if (c == '+' || c == '-') && e.sign == "" && e.digits == "" then Some(n.(exp := Some(e.(sign := [c]))))
      else None
    case None =>
      if IsDigit(c) then Some(if n.dot then n.(frac := n.frac + [c]) else n.(whole := n.whole + [c]))
      else if c == '.' && !n.dot then Some(n.(dot := true))
      else if (c == '+' || c == '-') && Text(n) == "" then Some(n.(sign := [c]))
      else if (c == 'E' || c == 'e') && (n.whole != "" || n.frac != "") then Some(n.(exp := Some(Exponent(c, "", ""))))
      else None
  }

  const Nothing := Number("", "", false, "", None)

  lemma ExtendText(n: Number, c: char)
    requires Begun(n) && Extend(n, c).Some?
    ensures var m := Extend(n, c).value; Begun(m) && Text(m) == Text(n) + [c]
  {
    if n.exp.Some? { ExtendExponent(n, c); } else { ExtendMantissa(n, c); }
  }

  lemma ExtendExponent(n: Number, c: char)
    requires Begun(n) && n.exp.Some? && Extend(n, c).Some?
    ensures var m := Extend(n, c).value; Begun(m) && Text(m) == Text(n) + [c]
  {
    var e := n.exp.value;
    if IsDigit(c) { MoreDigits(e.digits, c); }
    Join(n.sign + n.whole + (if n.dot then "." else "") + n.frac, e, c);
    hide AllDigits;
  }

  lemma MoreDigits(s: string, c: char)
    requires AllDigits(s) && IsDigit(c)
    ensures AllDigits(s + [c])
  {
  }

  lemma Join(front: string, e: Exponent, c: char)
    ensures front + ([e.letter] + e.sign + (e.digits + [c])) == front + ([e.letter] + e.sign + e.digits) + [c]
    ensures e.sign == "" && e.digits == "" ==>
              front + ([e.letter] + [c] + e.digits) == front + ([e.letter] + e.sign + e.digits) + [c]
  {
  }

  lemma ExtendMantissa(n: Number, c: char)
    requires Begun(n) && n.exp.None? && Extend(n, c).Some?
    ensures var m := Extend(n, c).value; Begun(m) && Text(m) == Text(n) + [c]
  {
    if c == '+' || c == '-' { assert n.sign == "" && n.whole == "" && n.frac == ""; }
  }

  lemma NonzeroGrows(s: string, t: string, c: char)
    ensures SomeNonzero(s + (t + [c])) == (SomeNonzero(s + t) || c != '0')
  {
    var u, v := s + t, s + (t + [c]);
    assert v == u + [c];
    if SomeNonzero(u) {
      var i :| 0 <= i < |u| && u[i] != '0';
      assert v[i] == u[i];
    }
    if c != '0' { assert v[|u|] == c; }
  }

  // The word of a number is mode bits beside the sticky flags k; these three lemmas are about those bits alone.

  lemma ExponentBits(sign: bool, digit: bool, k: Word, c: char)
    requires k & STICKY == k && k & WAS_VALID != 0
    ensures Next(EXPONENT | Bit(sign, SAW_SIGN) | Bit(digit, SAW_DIGIT) | k, c) ==
            if IsDigit(c) then Some(EXPONENT | Bit(sign, SAW_SIGN) | SAW_DIGIT | k)
            else if (c == '+' || c == '-') && !sign && !digit then Some(EXPONENT | SAW_SIGN | k)
            else None
  {
  }

  lemma IntegerBits(sign: bool, digit: bool, dot: bool, k: Word, c: char)
    requires k & STICKY == k && (dot ==> digit)
    ensures Next(INTEGER | Bit(sign, SAW_SIGN) | Bit(digit, SAW_DIGIT) | Bit(dot, SAW_DOT) | k, c) ==
            if IsDigit(c) then
              var more := k | WAS_VALID | Bit(c != '0', NONZERO);
              Some(if dot then FRACTION | SAW_DOT | SAW_DIGIT | more
                   else INTEGER | Bit(sign, SAW_SIGN) | SAW_DIGIT | Bit(false, SAW_DOT) | more)
            else if c == '.' && !dot then
              Some(if digit then INTEGER | Bit(sign, SAW_SIGN) | SAW_DIGIT | SAW_DOT | k
                   else FRACTION | SAW_DOT | Bit(false, SAW_DIGIT) | k)
            else if (c == '+' || c == '-') && !sign && !digit then
              Some(INTEGER | SAW_SIGN | Bit(false, SAW_DIGIT) | Bit(false, SAW_DOT) | k | Bit(c == '-', NEGATIVE))
            else if (c == 'E' || c == 'e') && digit then Some(EXPONENT | k)
            else None
  {
  }

  lemma FractionBits(digit: bool, k: Word, c: char)
    requires k & STICKY == k
    ensures Next(FRACTION | SAW_DOT | Bit(digit, SAW_DIGIT) | k, c) ==
            if IsDigit(c) then Some(FRACTION | SAW_DOT | SAW_DIGIT | (k | WAS_VALID | Bit(c != '0', NONZERO)))
            else if (c == 'E' || c == 'e') && digit then Some(EXPONENT | k)
            else None
  {
  }

  lemma StickyIsSticky(n: Number)
    ensures Sticky(n) & STICKY == Sticky(n)
    ensures Sticky(n) & WAS_VALID != 0 <==> n.whole != "" || n.frac != ""
  {
    hide SomeNonzero;
  }

  lemma StickyGrows(n: Number, c: char)
    requires Begun(n) && n.exp.None? && IsDigit(c)
    ensures Sticky(Extend(n, c).value) == Sticky(n) | WAS_VALID | Bit(c != '0', NONZERO)
  {
    NonzeroGrows(n.whole, n.frac, c);
    NonzeroGrows(n.whole, "", c);
    assert n.whole + "" == n.whole && "" + [c] == [c];
    if !n.dot { assert n.whole + [c] + n.frac == n.whole + [c] && n.whole + n.frac == n.whole; }
    hide SomeNonzero, Begun;
  }

  lemma StepInExponent(n: Number, c: char)
    requires Begun(n) && n.exp.Some?
    ensures Next(StateOf(n), c) == match Extend(n, c) case None => None case Some(m) => Some(StateOf(m))
  {
    hide Next, SomeNonzero, Sticky, Text;
    StickyIsSticky(n);
    ExponentBits(n.exp.value.sign != "", n.exp.value.digits != "", Sticky(n), c);
    if Extend(n, c).Some? { SameSticky(n, Extend(n, c).value); }
  }

  lemma SameSticky(n: Number, m: Number)
    requires n.sign == m.sign && n.whole == m.whole && n.frac == m.frac
    ensures Sticky(n) == Sticky(m)
  {
  }

  lemma StepByDigit(n: Number, c: char)
    requires Begun(n) && n.exp.None? && IsDigit(c)
    ensures Next(StateOf(n), c) == match Extend(n, c) case None => None case Some(m) => Some(StateOf(m))
  {
    hide Next, SomeNonzero, Sticky, Text;
    StickyIsSticky(n);
    StickyGrows(n, c);
    if !n.dot || (n.frac == "" && n.whole != "") {
      IntegerBits(n.sign != "", n.whole != "", n.dot, Sticky(n), c);
    } else {
      FractionBits(n.frac != "", Sticky(n), c);
    }
  }

  lemma StickySign(n: Number, c: char)
    requires n.sign == "" && n.whole == "" && n.frac == ""
    ensures Sticky(n.(sign := [c])) == Sticky(n) | Bit(c == '-', NEGATIVE)
  {
    assert [c] == "-" <==> c == '-';
    hide SomeNonzero;
  }

  lemma EmptyText(n: Number)
    requires n.exp.None?
    ensures Text(n) == "" <==> n.sign == "" && n.whole == "" && !n.dot && n.frac == ""
  {
    assert |Text(n)| == |n.sign| + |n.whole| + (if n.dot then 1 else 0) + |n.frac|;
  }

  lemma StepByOther(n: Number, c: char)
    requires Begun(n) && n.exp.None? && !IsDigit(c)
    ensures Next(StateOf(n), c) == match Extend(n, c) case None => None case Some(m) => Some(StateOf(m))
  {
    EmptyText(n);
    hide Next, SomeNonzero, Sticky, Text, AllDigits;
    StickyIsSticky(n);
    if Extend(n, c).Some? {
      if c == '+' || c == '-' { StickySign(n, c); } else { SameSticky(n, Extend(n, c).value); }
    }
    if !n.dot || (n.frac == "" && n.whole != "") {
      IntegerBits(n.sign != "", n.whole != "", n.dot, Sticky(n), c);
    } else {
      FractionBits(n.frac != "", Sticky(n), c);
    }
  }

  /** The recogniser's word always describes the number being read: the bits move as the number grows, and the
      recogniser stops exactly where no number goes on. */
  lemma StepMatches(n: Number, c: char)
    requires Begun(n)
    ensures Next(StateOf(n), c) == match Extend(n, c) case None => None case Some(m) => Some(StateOf(m))
  {
    if n.exp.Some? { StepInExponent(n, c); } else if IsDigit(c) { StepByDigit(n, c); } else { StepByOther(n, c); }
  }

  // --- Soundness and completeness ---------------------------------------------------------------

  /** What has been scanned is always the beginning of a number, and it is as long as it can be. */
  lemma {:induction false} ScanReadsNumber(s: string, n: Number, i: nat) returns (m: Number)
    requires Begun(n) && i <= |s| && Text(n) == s[..i]
    ensures Begun(m) && Scan(s, StateOf(n), i) == (StateOf(m), |Text(m)|) && Text(m) == s[..|Text(m)|]
    ensures |Text(m)| < |s| ==> Extend(m, s[|Text(m)|]) == None
    decreases |s| - i
  {
    hide Next, StateOf, Extend, Text, Begun;
    m := n;
    if i < |s| {
      StepMatches(n, s[i]);
      if Extend(n, s[i]).Some? {
        ExtendText(n, s[i]);
        assert s[..i + 1] == s[..i] + [s[i]];
        m := ScanReadsNumber(s, Extend(n, s[i]).value, i + 1);
      }
    }
  }

  /** A number without its last character. */
  function Shrink(n: Number): Number
    requires Begun(n) && Text(n) != ""
  {
    match n.exp
    case Some(e) =>
      if e.digits != "" then n.(exp := Some(e.(digits := e.digits[..|e.digits| - 1])))
      else if e.sign != "" then n.(exp := Some(e.(sign := "")))
      else n.(exp := None)
    case None =>
      if n.frac != "" then n.(frac := n.frac[..|n.frac| - 1])
      else if n.dot then n.(dot := false)
      else if n.whole != "" then n.(whole := n.whole[..|n.whole| - 1])
      else n.(sign := "")
  }

  lemma ShrinkExtends(n: Number) returns (c: char)
    requires Begun(n) && Text(n) != ""
    ensures Begun(Shrink(n)) && Extend(Shrink(n), c) == Some(n)
  {
    if n.exp.Some? {
      c := ShrinkExponent(n, n.exp.value);
    } else {
      c := ShrinkMantissa(n);
    }
  }

  lemma ShrinkExponent(n: Number, e: Exponent) returns (c: char)
    requires Begun(n) && n.exp == Some(e)
    ensures Text(n) != "" && Begun(Shrink(n)) && Extend(Shrink(n), c) == Some(n)
  {
    assert Text(n) != "" by { assert |Text(n)| > 0; }
    hide Text;
    if e.digits != "" {
      c := e.digits[|e.digits| - 1];
      assert e.digits == e.digits[..|e.digits| - 1] + [c];
    } else if e.sign != "" {
      c := e.sign[0];
      assert e.sign == [c];
    } else {
      c := e.letter;
    }
  }

  lemma ShrinkMantissa(n: Number) returns (c: char)
    requires Begun(n) && n.exp.None? && Text(n) != ""
    ensures Begun(Shrink(n)) && Extend(Shrink(n), c) == Some(n)
  {
    if n.frac != "" {
      c := n.frac[|n.frac| - 1];
      assert n.frac == n.frac[..|n.frac| - 1] + [c];
    } else if n.dot {
      c := '.';
    } else if n.whole != "" {
      c := n.whole[|n.whole| - 1];
      assert n.whole == n.whole[..|n.whole| - 1] + [c];
    } else {
      c := n.sign[0];
      assert n.sign == [c];
    }
  }

  lemma EmptyStart(n: Number)
    requires Begun(n) && Text(n) == ""
    ensures StateOf(n) == 0
  {
    assert !SomeNonzero(n.whole + n.frac);
  }

  /** Any beginning of a number is read to its end. */
  lemma {:induction false} ScanText(n: Number, rest: string)
    requires Begun(n)
    ensures Scan(Text(n) + rest, 0, 0) == Scan(Text(n) + rest, StateOf(n), |Text(n)|)
    decreases |Text(n)|
  {
    hide Next, StateOf, Extend, Text, Begun, Shrink;
    if Text(n) == "" {
      EmptyStart(n);
    } else {
      var c := ShrinkExtends(n);
      var k := Shrink(n);
      ExtendText(k, c);
      StepMatches(k, c);
      ScanText(k, [c] + rest);
      assert Text(k) + [c] + rest == Text(k) + ([c] + rest);
      assert (Text(n) + rest)[|Text(k)|] == c;
    }
  }

  /** The string up to its first NUL, which is where C ends it. */
  function UpToNul(s: string): string {
    if s == "" || s[0] == '\0' then "" else [s[0]] + UpToNul(s[1..])
  }

  lemma {:induction false} UpToNulIs(s: string, k: nat)
    requires k <= |s| && '\0' !in s[..k] && (k == |s| || s[k] == '\0')
    ensures UpToNul(s) == s[..k]
    decreases k
  {
    if k > 0 {
      assert s[..k] == [s[0]] + s[1..][..k - 1];
      assert s[0] in s[..k];
      UpToNulIs(s[1..], k - 1);
    }
  }

  lemma {:induction false} UpToNulStops(s: string) returns (k: nat)
    ensures k <= |s| && '\0' !in s[..k] && (k == |s| || s[k] == '\0') && UpToNul(s) == s[..k]
    decreases |s|
  {
    if s == "" || s[0] == '\0' {
      k := 0;
    } else {
      k := UpToNulStops(s[1..]);
      k := k + 1;
      assert s[..k] == [s[0]] + s[1..][..k - 1];
    }
  }

  lemma TextHasNoNul(n: Number)
    requires Begun(n)
    ensures '\0' !in Text(n)
  {
  }

  lemma DigitBit(n: Number)
    requires Begun(n)
    ensures StateOf(n) & SAW_DIGIT != 0 <==> WellFormed(n)
  {
    hide SomeNonzero;
  }

  /** A string is accepted just when, up to its first NUL, it is a number of the grammar. */
  lemma AcceptsExactlyNumbers(s: string)
    ensures StringResult(s) != 0 <==> exists n :: WellFormed(n) && Text(n) == UpToNul(s)
  {
    hide StringResult, WellFormed, Text, UpToNul;
    if StringResult(s) != 0 {
      var m := AcceptedNumber(s);
    }
    if exists n :: WellFormed(n) && Text(n) == UpToNul(s) {
      var n :| WellFormed(n) && Text(n) == UpToNul(s);
      var k := UpToNulStops(s);
      NumberIsAccepted(n, s[k..]);
      assert Text(n) + s[k..] == s;
    }
  }

  lemma AcceptedNumber(s: string) returns (m: Number)
    requires StringResult(s) != 0
    ensures WellFormed(m) && Text(m) == UpToNul(s)
  {
    assert StateOf(Nothing) == 0 by { assert !SomeNonzero(Nothing.whole + Nothing.frac); }
    assert Text(Nothing) == s[..0];
    m := ScanReadsNumber(s, Nothing, 0);
    DigitBit(m);
    TextHasNoNul(m);
    UpToNulIs(s, |Text(m)|);
  }

  /** A number of the grammar, alone or followed by a NUL, is accepted with its own flags. */
  lemma NumberIsAccepted(n: Number, rest: string)
    requires WellFormed(n) && (rest == "" || rest[0] == '\0')
    ensures StringResult(Text(n) + rest) == StateOf(n) != 0
  {
    var s := Text(n) + rest;
    ScanText(n, rest);
    DigitBit(n);
    if rest != "" {
      assert s[|Text(n)|] == '\0';
      assert Next(StateOf(n), '\0') == None;
    }
    hide Next, Text, StateOf;
  }

  function Flag(b: bool, weight: nat): nat { if b then weight else 0 }

  /** The word of a number, flag by flag as pngpriv.h numbers them. */
  lemma StateIs(n: Number)
    requires WellFormed(n)
    ensures StateOf(n) as nat ==
              (match n.exp
               case Some(e) => 2 + Flag(e.sign != "", 4) + 8
               case None =>
                 if n.frac == "" then Flag(n.sign != "", 4) + 8 + Flag(n.dot, 16) else 1 + 8 + 16)
              + 64 + Flag(n.sign == "-", 128) + Flag(SomeNonzero(n.whole + n.frac), 256)
  {
  }

  // --- The WAS_VALID bit ------------------------------------------------------------------------

  lemma WasValidBit(n: Number)
    requires Begun(n)
    ensures StateOf(n) & WAS_VALID != 0 <==> n.whole != "" || n.frac != ""
  {
    StickyIsSticky(n);
    var k := Sticky(n);
    hide Sticky, SomeNonzero;
    assert k & STICKY == k;
  }

  predicate SomeDigit(s: string) { exists i :: 0 <= i < |s| && IsDigit(s[i]) }

  lemma HasDigit(n: Number)
    requires Begun(n)
    ensures SomeDigit(Text(n)) <==> n.whole != "" || n.frac != ""
  {
    var t := Text(n);
    if n.whole != "" {
      assert IsDigit(t[|n.sign|]);
    } else if n.frac != "" {
      assert t[|n.sign| + 1] == n.frac[0] && IsDigit(n.frac[0]);
    } else {
      assert t == n.sign + (if n.dot then "." else "");
    }
  }

  /** The number that has already been complete when n has been read. */
  lemma CompletePart(n: Number) returns (m: Number)
    requires Begun(n) && (n.whole != "" || n.frac != "")
    ensures WellFormed(m) && Text(m) <= Text(n)
  {
    m := n.(exp := None);
    assert Text(m) + "" == Text(m) == n.sign + n.whole + (if n.dot then "." else "") + n.frac;
  }

  /** The bit is set if and only if some beginning of what has been read so far is a number. */
  lemma WasValidMeans(s: string)
    ensures var (state, i) := Scan(s, 0, 0);
            state & WAS_VALID != 0 <==> exists m :: WellFormed(m) && Text(m) <= s[..i]
  {
    StartIsNothing(s);
    var n := ScanReadsNumber(s, Nothing, 0);
    hide Scan, StateOf, Next, Text, Extend;
    WasValidBit(n);
    HasDigit(n);
    if n.whole != "" || n.frac != "" {
      var m := CompletePart(n);
    }
    forall m | WellFormed(m) && Text(m) <= Text(n) ensures SomeDigit(Text(n)) {
      HasDigit(m);
      var i :| 0 <= i < |Text(m)| && IsDigit(Text(m)[i]);
      assert Text(n)[i] == Text(m)[i];
    }
  }

  lemma UnfinishedIsRefused(n: Number)
    requires Begun(n) && !WellFormed(n)
    ensures StringResult(Text(n)) == 0
  {
    ScanText(n, "");
    DigitBit(n);
    assert Text(n) + "" == Text(n);
    hide Next, Text, StateOf, WellFormed, Begun;
  }

  lemma CompleteIsAccepted(n: Number)
    requires WellFormed(n)
    ensures StringResult(Text(n)) != 0
  {
    NumberIsAccepted(n, "");
    assert Text(n) + "" == Text(n);
  }

  /** The documentation says that a caller who finds the bit set on a string that is not a number recovers by leaving
      out the last character. That is so exactly when this character is the E; behind E and a sign it takes two. */
  lemma RecoverByCutting(s: string)
    requires var state := Scan(s, 0, 0).0; state & WAS_VALID != 0 && state & SAW_DIGIT == 0
    ensures var i := Scan(s, 0, 0).1;
            && i >= 2 && (StringResult(s[..i - 1]) != 0 <==> s[i - 1] == 'E' || s[i - 1] == 'e')
            && (s[i - 1] != 'E' && s[i - 1] != 'e' ==> i >= 3 && StringResult(s[..i - 2]) != 0)
  {
    hide *;
    StartIsNothing(s);
    var n := ScanReadsNumber(s, Nothing, 0);
    WasValidBit(n);
    DigitBit(n);
    UnfinishedParts(n);
    var e := n.exp.value;
    CompleteIsAccepted(n.(exp := None));
    UnfinishedIsRefused(n.(exp := Some(e.(sign := ""))));
    CutExponent(n, e, s);
  }

  lemma StartIsNothing(s: string)
    ensures Begun(Nothing) && StateOf(Nothing) == 0 && Text(Nothing) == s[..0] == ""
  {
    assert !SomeNonzero(Nothing.whole + Nothing.frac);
  }

  lemma UnfinishedParts(n: Number)
    requires Begun(n) && !WellFormed(n) && (n.whole != "" || n.frac != "")
    ensures n.exp.Some? && n.exp.value.digits == "" && WellFormed(n.(exp := None))
    ensures var e := n.exp.value; var k := n.(exp := Some(e.(sign := "")));
            && Begun(k) && !WellFormed(k) && (e.letter == 'E' || e.letter == 'e')
            && (e.sign != "" ==> e.sign[0] != 'E' && e.sign[0] != 'e')
  {
  }

  lemma ExponentText(n: Number, e: Exponent)
    requires Begun(n) && n.exp == Some(e) && e.digits == ""
    ensures var t := Text(n.(exp := None));
            && t != "" && |e.sign| <= 1
            && Text(n) == t + [e.letter] + e.sign && Text(n.(exp := Some(e.(sign := "")))) == t + [e.letter]
  {
    var m := n.(exp := None);
    assert Text(m) == n.sign + n.whole + (if n.dot then "." else "") + n.frac + "";
    hide AllDigits;
  }

  lemma CutExponent(n: Number, e: Exponent, s: string)
    requires Begun(n) && n.exp == Some(e) && e.digits == "" && |Text(n)| <= |s| && Text(n) == s[..|Text(n)|]
    ensures var i, m, k := |Text(n)|, n.(exp := None), n.(exp := Some(e.(sign := "")));
            i >= 2 && (if e.sign == "" then s[..i - 1] == Text(m) && s[i - 1] == e.letter
                       else i >= 3 && s[..i - 1] == Text(k) && s[..i - 2] == Text(m) && s[i - 1] == e.sign[0])
  {
    hide *;
    ExponentText(n, e);
    var i := |Text(n)|;
    assert s[i - 1] == Text(n)[i - 1];
    assert s[..i - 1] == Text(n)[..i - 1];
    assert i >= 2 && s[..i - 2] == Text(n)[..i - 2];
  }

  /** Such a string is "1e+": without its last character it is no number either. */
  lemma CutTwice()
    ensures var (state, i) := Scan("1e+", 0, 0);
            i == 3 && state & WAS_VALID != 0 && state & SAW_DIGIT == 0
    ensures StringResult("1e") == 0 && StringResult("1") != 0
  {
    var none := Number("", "1", false, "", None);
    var e := Number("", "1", false, "", Some(Exponent('e', "", "")));
    var sign := Number("", "1", false, "", Some(Exponent('e', "+", "")));
    assert Text(none) == "1" && Text(e) == "1e" && Text(sign) == "1e+";
    CompleteIsAccepted(none);
    UnfinishedIsRefused(e);
    ScanText(sign, "");
    assert Text(sign) + "" == Text(sign);
    WasValidBit(sign);
    DigitBit(sign);
    hide Next, StringResult, StateOf, SomeNonzero;
  }

  // --- The value denoted ------------------------------------------------------------------------

  /** The natural number a string of digits stands for. */
  function Digits(s: string): nat
    requires AllDigits(s)
  {
    if s == "" then 0 else 10 * Digits(s[..|s| - 1]) + (s[|s| - 1] - '0') as nat
  }

  /** 10 to any integer power. */
  function Pow10(k: int): (r: real)
    ensures r > 0.0
    decreases if k < 0 then -k else k
  {
    if k == 0 then 1.0 else if k > 0 then 10.0 * Pow10(k - 1) else Pow10(k + 1) / 10.0
  }

  function Signed(sign: string, magnitude: real): real { if sign == "-" then -magnitude else magnitude }

  function Power(n: Number): int
    requires Begun(n)
  {
    match n.exp
    case None => 0
    case Some(e) => if e.sign == "-" then 0 - Digits(e.digits) else Digits(e.digits)
  }

  /** The real number n denotes: the digits before and after the dot as one integer, scaled. */
  function Value(n: Number): real
    requires Begun(n)
  {
    Signed(n.sign, Digits(n.whole + n.frac) as real * Pow10(Power(n) - |n.frac|))
  }

  lemma {:induction false} DigitsNonzero(s: string)
    requires AllDigits(s)
    ensures Digits(s) > 0 <==> SomeNonzero(s)
  {
    if s != "" {
      var t, c := s[..|s| - 1], s[|s| - 1];
      DigitsNonzero(t);
      assert s == t + [c];
      NonzeroGrows("", t, c);
      assert "" + (t + [c]) == s && "" + t == t;
    }
  }

  lemma ScaledSign(sign: string, d: nat, scale: real)
    requires scale > 0.0
    ensures var v := Signed(sign, d as real * scale);
            (v == 0.0 <==> d == 0) && (v > 0.0 <==> d > 0 && sign != "-") && (v < 0.0 <==> d > 0 && sign == "-")
  {
  }

  lemma FlagBits(n: Number)
    requires WellFormed(n)
    ensures var nz := SomeNonzero(n.whole + n.frac);
            && (IsZero(StateOf(n)) <==> !nz)
            && (IsPositive(StateOf(n)) <==> nz && n.sign != "-")
            && (IsNegative(StateOf(n)) <==> nz && n.sign == "-")
  {
    hide SomeNonzero;
  }

  /** The three classifiers read the sign of the number denoted off the accepting state, and none of them holds of
      the state of a rejected string. */
  lemma ClassifiersAreRight(s: string)
    ensures StringResult(s) == 0 ==> !IsZero(0) && !IsPositive(0) && !IsNegative(0)
    ensures forall n :: WellFormed(n) && Text(n) == UpToNul(s) ==>
              && StringResult(s) == StateOf(n)
              && (IsZero(StringResult(s)) <==> Value(n) == 0.0)
              && (IsPositive(StringResult(s)) <==> Value(n) > 0.0)
              && (IsNegative(StringResult(s)) <==> Value(n) < 0.0)
  {
    hide StateOf, Text, IsZero, IsPositive, IsNegative;
    forall n | WellFormed(n) && Text(n) == UpToNul(s)
      ensures StringResult(s) == StateOf(n) && (IsZero(StateOf(n)) <==> Value(n) == 0.0)
      ensures (IsPositive(StateOf(n)) <==> Value(n) > 0.0) && (IsNegative(StateOf(n)) <==> Value(n) < 0.0)
    {
      var k := UpToNulStops(s);
      NumberIsAccepted(n, s[k..]);
      assert Text(n) + s[k..] == s;
      StateClassifies(n);
    }
    assert !IsZero(0) && !IsPositive(0) && !IsNegative(0) by { RejectedBits(); }
  }

  lemma RejectedBits()
    ensures !IsZero(0) && !IsPositive(0) && !IsNegative(0)
  {
  }

  lemma ValueSign(n: Number)
    requires WellFormed(n)
    ensures var nz := SomeNonzero(n.whole + n.frac);
            && (Value(n) == 0.0 <==> !nz)
            && (Value(n) > 0.0 <==> nz && n.sign != "-")
            && (Value(n) < 0.0 <==> nz && n.sign == "-")
  {
    hide Signed, SomeNonzero, Digits, Pow10, Power;
    DigitsNonzero(n.whole + n.frac);
    ScaledSign(n.sign, Digits(n.whole + n.frac), Pow10(Power(n) - |n.frac|));
  }

  lemma StateClassifies(n: Number)
    requires WellFormed(n)
    ensures (IsZero(StateOf(n)) <==> Value(n) == 0.0)
    ensures (IsPositive(StateOf(n)) <==> Value(n) > 0.0) && (IsNegative(StateOf(n)) <==> Value(n) < 0.0)
  {
    hide StateOf, IsZero, IsPositive, IsNegative, Value, SomeNonzero;
    FlagBits(n);
    ValueSign(n);
  }
}
