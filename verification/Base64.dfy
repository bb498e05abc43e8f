/** base64.c: a decoder that keeps its unfinished byte from one call to the next. */
module Base64 {
  import opened Common

  const LF := 10
  const CR := 13
  const SPACE := 32
  const PAD := 61

  // --- The alphabet -----------------------------------------------------------------------------

  /** base64alphabet: A-Z a-z 0-9 + / and the padding. */
  function Alphabet(n: nat): byte
    requires n <= 64
  {
    if n < 26 then 65 + n else if n < 52 then 71 + n else if n < 62 then n - 4
    else if n == 62 then 43 else if n == 63 then 47 else PAD
  }

  // The letters as RFC 4648 lists them, section 4.
  const UPPER: string := "ABCDEFGHIJKLMNOPQRSTUVWXYZ"
  const LOWER: string := "abcdefghijklmnopqrstuvwxyz"
  const OTHER: string := "0123456789+/"
  const LETTERS: string := UPPER + LOWER + OTHER

  lemma UpperIs(n: nat)
    requires n < 26
    ensures |UPPER| == 26 && UPPER[n] as int == Alphabet(n)
  {
    match n {
      case 0 => case 1 => case 2 => case 3 => case 4 => case 5 => case 6 => case 7 =>
      case 8 => case 9 => case 10 => case 11 => case 12 => case 13 => case 14 => case 15 =>
      case 16 => case 17 => case 18 => case 19 => case 20 => case 21 => case 22 => case 23 =>
      case 24 => case _ =>
    }
  }

  lemma LowerIs(n: nat)
    requires n < 26
    ensures |LOWER| == 26 && LOWER[n] as int == Alphabet(26 + n)
  {
    match n {
      case 0 => case 1 => case 2 => case 3 => case 4 => case 5 => case 6 => case 7 =>
      case 8 => case 9 => case 10 => case 11 => case 12 => case 13 => case 14 => case 15 =>
      case 16 => case 17 => case 18 => case 19 => case 20 => case 21 => case 22 => case 23 =>
      case 24 => case _ =>
    }
  }

  lemma OtherIs(n: nat)
    requires n < 12
    ensures |OTHER| == 12 && OTHER[n] as int == Alphabet(52 + n)
  {
    match n {
      case 0 => case 1 => case 2 => case 3 => case 4 => case 5 => case 6 => case 7 =>
      case 8 => case 9 => case 10 => case _ =>
    }
  }

  lemma AlphabetIs(n: nat)
    requires n < 64
    ensures |LETTERS| == 64 && LETTERS[n] as int == Alphabet(n)
  {
    UpperIs(if n < 26 then n else 0);
    LowerIs(if 26 <= n < 52 then n - 26 else 0);
    OtherIs(if 52 <= n then n - 52 else 0);
    hide Alphabet, UPPER, LOWER, OTHER;
  }

  /** Letter number n. */
  function LetterByte(n: nat): (b: byte)
    requires n < 64
  {
    AlphabetIs(n);
    LETTERS[n] as int
  }

  lemma SpecialCharacters()
    ensures Alphabet(64) as char == '=' == PAD as char
    ensures forall c: byte :: White(c) <==> c as char == '\n' || c as char == '\r' || c as char == ' '
  {
  }

  /** The place of c in the alphabet, or -1. */
  function Place(c: byte): (n: int)
    ensures -1 <= n <= 64 && (n >= 0 ==> Alphabet(n) == c)
    ensures forall m :: 0 <= m <= 64 && Alphabet(m) == c ==> n == m
  {
    if 65 <= c <= 90 then c - 65 else if 97 <= c <= 122 then c - 71 else if 48 <= c <= 57 then c + 4
    else if c == 43 then 62 else if c == 47 then 63 else if c == PAD then 64 else -1
  }

  lemma NoLetter(c: byte)
    requires c as char != '=' && c as char !in LETTERS
    ensures Lookup(c) == -1
  {
    if Place(c) >= 0 && Place(c) < 64 {
      AlphabetIs(Place(c));
    }
    hide Place, Alphabet;
    SpecialCharacters();
  }

  /** What base64lookup holds: the padding counts as 0. */
  function Lookup(c: byte): int { if c == PAD then 0 else Place(c) }

  predicate White(c: byte) { c == LF || c == CR || c == SPACE }

  predicate InAlphabet(c: byte) { c != PAD && Place(c) >= 0 }

  // --- Bits -------------------------------------------------------------------------------------

  type bit = b: int | b == 0 || b == 1

  /** The n lowest bits of v, highest first. */
  function BitsOf(v: nat, n: nat): (r: seq<bit>)
    ensures |r| == n
  {
    if n == 0 then [] else BitsOf(v / 2, n - 1) + [v % 2]
  }

  function Bits6(v: nat): (r: seq<bit>)
    ensures |r| == 6
  {
    BitsOf(v, 6)
  }

  /** Whether bit i of v is set: v & (1 << i). */
  predicate BitSet(v: nat, i: nat) { if i == 0 then v % 2 == 1 else BitSet(v / 2, i - 1) }

  lemma {:induction false} BitAt(v: nat, n: nat, i: nat)
    requires i < n
    ensures BitsOf(v, n)[n - 1 - i] == if BitSet(v, i) then 1 else 0
  {
    if i > 0 { BitAt(v / 2, n - 1, i - 1); }
  }

  function Weight(k: nat): nat
    requires k < 8
  {
    [128, 64, 32, 16, 8, 4, 2, 1][k]
  }

  /** The first n bits of a byte, as they count. */
  function Weighed(s: seq<bit>, n: nat): nat
    requires n <= 8 <= |s|
  {
    if n == 0 then 0 else Weighed(s, n - 1) + (if s[n - 1] == 1 then Weight(n - 1) else 0)
  }

  lemma WeighedSum(s: seq<bit>)
    requires |s| >= 8
    ensures Weighed(s, 8) == 128 * (s[0] as int) + 64 * (s[1] as int) + 32 * (s[2] as int) + 16 * (s[3] as int)
                             + 8 * (s[4] as int) + 4 * (s[5] as int) + 2 * (s[6] as int) + s[7]
  {
    assert forall i :: 0 <= i < 8 ==> s[i] == 0 || s[i] == 1;
    assert Weighed(s, 1) == 128 * (s[0] as int);
    assert Weighed(s, 3) == Weighed(s, 1) + 64 * (s[1] as int) + 32 * (s[2] as int);
    assert Weighed(s, 5) == Weighed(s, 3) + 16 * (s[3] as int) + 8 * (s[4] as int);
    assert Weighed(s, 7) == Weighed(s, 5) + 4 * (s[5] as int) + 2 * (s[6] as int);
  }

  /** The byte that eight bits make. */
  function ToByte(s: seq<bit>): byte
    requires |s| == 8
  {
    WeighedSum(s);
    Weighed(s, 8)
  }

  /** The bytes completed by a stream of bits that follows the bits held, and the bits held then. */
  function Emit(held: seq<bit>, s: seq<bit>): (r: (seq<byte>, seq<bit>))
    requires |held| < 8
    ensures |r.1| < 8
    decreases |s|
  {
    if s == [] then ([], held)
    else if |held| == 7 then var (out, last) := Emit([], s[1..]); ([ToByte(held + [s[0]])] + out, last)
    else Emit(held + [s[0]], s[1..])
  }

  // --- Decoding ---------------------------------------------------------------------------------

  datatype Decoded = Decoded(out: seq<byte>, held: seq<bit>, fail: bool)

  /** base64_decode, from the bits held before the call. */
  function Decode(held: seq<bit>, s: seq<byte>): (r: Decoded)
    requires |held| < 8
    ensures |r.held| < 8
    decreases |s|
  {
    if s == [] then Decoded([], held, false)
    else if White(s[0]) then Decode(held, s[1..])
    else if s[0] == PAD then Decoded([], [], false)
    else if Place(s[0]) < 0 then Decoded([], [], true)
    else
      var (now, last) := Emit(held, Bits6(Place(s[0])));
      var rest := Decode(last, s[1..]);
      rest.(out := now + rest.out)
  }

  lemma {:induction false} EmitConcat(held: seq<bit>, s: seq<bit>, t: seq<bit>)
    requires |held| < 8
    ensures var (o1, h1) := Emit(held, s); var (o2, h2) := Emit(h1, t); Emit(held, s + t) == (o1 + o2, h2)
    decreases |s|
  {
    if s == [] {
      assert s + t == t && [] + Emit(held, t).0 == Emit(held, t).0;
    } else {
      assert (s + t)[0] == s[0] && (s + t)[1..] == s[1..] + t;
      var next := if |held| == 7 then [] else held + [s[0]];
      EmitConcat(next, s[1..], t);
      var (o1, h1) := Emit(next, s[1..]);
      var o2 := Emit(h1, t).0;
      hide ToByte;
      if |held| == 7 { assert [ToByte(held + [s[0]])] + (o1 + o2) == [ToByte(held + [s[0]])] + o1 + o2; }
    }
  }

  /** The first k + 1 bits emit what the first k do and what bit k does then; and no more than the whole. */
  lemma EmitOne(held: seq<bit>, s: seq<bit>, k: nat)
    requires |held| < 8 && k < |s|
    ensures var (o1, h1) := Emit(held, s[..k]); var (o2, h2) := Emit(h1, [s[k]]);
            Emit(held, s[..k + 1]) == (o1 + o2, h2) && |o1 + o2| <= |Emit(held, s).0|
            && (|h1| == 7 <==> |o2| == 1) && (|h1| < 7 <==> |o2| == 0)
  {
    assert s[..k + 1] == s[..k] + [s[k]] && s == s[..k + 1] + s[k + 1..];
    EmitConcat(held, s[..k], [s[k]]);
    EmitConcat(held, s[..k + 1], s[k + 1..]);
    hide ToByte;
  }

  /** d, when out has been written before. */
  function After(out: seq<byte>, d: Decoded): Decoded { d.(out := out + d.out) }

  /** The characters at which a call ends early. */
  predicate Stops(c: byte) { c == PAD || (!White(c) && Place(c) < 0) }

  lemma DecodeFirst(held: seq<bit>, s: seq<byte>)
    requires |held| < 8 && s != []
    ensures var d := Decode(held, [s[0]]);
            Decode(held, s) == if Stops(s[0]) then d else After(d.out, Decode(d.held, s[1..]))
  {
    hide Emit, Bits6, Place;
    assert [s[0]][1..] == [];
    if !White(s[0]) && !Stops(s[0]) {
      var now := Emit(held, Bits6(Place(s[0]))).0;
      assert now + [] == now;
    }
  }

  lemma DecodeOne(held: seq<bit>, c: byte)
    requires |held| < 8
    ensures Decode(held, [c]) ==
            if White(c) then Decoded([], held, false) else if c == PAD then Decoded([], [], false)
            else if Place(c) < 0 then Decoded([], [], true)
            else Decoded(Emit(held, Bits6(Place(c))).0, Emit(held, Bits6(Place(c))).1, false)
  {
    hide Emit, Bits6, Place;
    assert [c][1..] == [];
    if !White(c) && c != PAD && Place(c) >= 0 {
      var now := Emit(held, Bits6(Place(c))).0;
      assert now + [] == now;
    }
  }

  lemma AfterAfter(out: seq<byte>, o: seq<byte>, d: Decoded)
    ensures After(out, After(o, d)) == After(out + o, d)
  {
    assert out + (o + d.out) == (out + o) + d.out;
  }

  lemma AfterNothing(out: seq<byte>, held: seq<bit>, fail: bool)
    ensures After(out, Decoded([], held, fail)) == Decoded(out, held, fail)
  {
  }

  lemma DecodeStep(whole: Decoded, out: seq<byte>, held: seq<bit>, s: seq<byte>, n: nat, c: byte)
    requires |held| < 8 && n < |s| && c == s[n] && whole == After(out, Decode(held, s[n..]))
    ensures var d := Decode(held, [c]);
            && |out| + |d.out| <= |whole.out|
            && (Stops(c) ==> whole == Decoded(out + d.out, d.held, d.fail))
            && (!Stops(c) ==> !d.fail && whole == After(out + d.out, Decode(d.held, s[n + 1..])))
  {
    hide Decode, Emit, Bits6, Place;
    assert s[n..][0] == c && s[n..][1..] == s[n + 1..];
    DecodeFirst(held, s[n..]);
    DecodeOne(held, c);
    AfterAfter(out, Decode(held, [c]).out, Decode(Decode(held, [c]).held, s[n + 1..]));
  }

  lemma DecodeWhole(whole: Decoded, held: seq<bit>, s: seq<byte>)
    requires |held| < 8 && whole == Decode(held, s)
    ensures whole == After([], Decode(held, s[0..]))
  {
    assert s[0..] == s && [] + whole.out == whole.out;
  }

  lemma DecodeEnd(whole: Decoded, out: seq<byte>, held: seq<bit>, s: seq<byte>)
    requires |held| < 8 && whole == After(out, Decode(held, s[|s|..]))
    ensures whole == Decoded(out, held, false)
  {
    assert s[|s|..] == [];
    AfterNothing(out, held, false);
  }

  // --- How much comes out -----------------------------------------------------------------------

  /** The letters of s before the first character at which a call ends. */
  function LettersBefore(s: seq<byte>): nat {
    if s == [] || Stops(s[0]) then 0 else (if White(s[0]) then 0 else 1) + LettersBefore(s[1..])
  }

  lemma {:induction false} EmitSize(held: seq<bit>, s: seq<bit>)
    requires |held| < 8
    ensures |Emit(held, s).0| == (|held| + |s|) / 8 && |Emit(held, s).1| == (|held| + |s|) % 8
    decreases |s|
  {
    if s != [] { EmitSize(if |held| == 7 then [] else held + [s[0]], s[1..]); }
    hide ToByte;
  }

  /** Six bits a letter, behind the bits held: every eight of them are a byte. */
  lemma {:induction false} DecodeSize(held: seq<bit>, s: seq<byte>)
    requires |held| < 8
    ensures |Decode(held, s).out| == (|held| + 6 * LettersBefore(s)) / 8
    decreases |s|
  {
    hide Emit, Bits6, Place;
    if s != [] {
      if White(s[0]) {
        DecodeSize(held, s[1..]);
      } else if !Stops(s[0]) {
        EmitSize(held, Bits6(Place(s[0])));
        DecodeSize(Emit(held, Bits6(Place(s[0]))).1, s[1..]);
      }
    }
  }

  // --- The decoder ------------------------------------------------------------------------------

  class Decoder {
    var lookup: array<int>
    var bits: array<bit>
    var bitPos: nat

    ghost predicate Ready()
      reads this`lookup, this`bits, this`bitPos, lookup
    {
      && lookup.Length == 256 && bits.Length == 8 && bitPos < 8 && (lookup as object) != bits
      && forall c: byte :: lookup[c] == Lookup(c)
    }

    /** The bits of the unfinished byte. */
    function Held(): seq<bit>
      reads this`bits, this`bitPos, bits
      requires bitPos <= bits.Length
    {
      bits[..bitPos]
    }

    constructor ()
      ensures Ready() && Held() == [] && fresh(lookup) && fresh(bits)
    {
      lookup, bits, bitPos := new int[256](_ => 0), new bit[8](_ => 0), 0;
      new;
      Init();
    }

    /** base64_init. */
    method Init()
      requires lookup.Length == 256 && bits.Length == 8 && (lookup as object) != bits
      modifies this`bitPos, lookup
      ensures Ready() && Held() == []
      ensures lookup['=' as int] == 0 && forall n :: 0 <= n < 64 ==> lookup[LetterByte(n)] == n
      ensures forall c: byte :: c as char != '=' && c as char !in LETTERS ==> lookup[c] == -1
    {
      for n := 0 to 256
        invariant forall c: byte :: c < n ==> lookup[c] == -1
      {
        lookup[n] := -1;
      }
      for n := 0 to 65
        invariant forall c: byte :: lookup[c] == if 0 <= Place(c) < n then Place(c) else -1
      {
        lookup[Alphabet(n)] := n;
        assert Place(Alphabet(n)) == n;
      }
      lookup[Alphabet(64)] := 0;
      bitPos := 0;
      forall n | 0 <= n < 64 ensures lookup[LetterByte(n)] == n { AlphabetIs(n); }
      forall c: byte | c as char != '=' && c as char !in LETTERS ensures lookup[c] == -1 { NoLetter(c); }
      hide Place, Alphabet;
    }

    /** base64_bits2byte. */
    method Bits2Byte() returns (b: byte)
      requires bits.Length == 8
      ensures b == ToByte(bits[..])
    {
      var value := 0;
      for n := 0 to 8
        invariant value == Weighed(bits[..], n)
      {
        if bits[n] == 1 { value := value + Weight(n); }
      }
      WeighedSum(bits[..]);
      b := value;
    }

    /** One bit more; a full byte goes to the output. */
    method PushBit(b: bit, output: array<byte>, pos0: nat) returns (pos: nat)
      requires Ready() && (output as object) != bits && (output as object) != lookup
      requires pos0 <= output.Length && (bitPos == 7 ==> pos0 < output.Length)
      modifies this`bitPos, bits, output
      ensures Ready()
      ensures var (out, last) := Emit(old(Held()), [b]);
              pos == pos0 + |out| <= output.Length && Held() == last && output[..pos] == old(output[..pos0]) + out
    {
      pos := pos0;
      ghost var held := Held();
      bits[bitPos] := b;
      bitPos := bitPos + 1;
      assert bits[..bitPos] == held + [b];
      if bitPos == 8 {
        assert bits[..] == held + [b];
        output[pos] := Bits2Byte();
        bitPos := 0;
        pos := pos + 1;
      }
    }

    /** The six bits of one character. */
    method PushSextet(current: nat, output: array<byte>, pos0: nat) returns (pos: nat)
      requires Ready() && (output as object) != bits && (output as object) != lookup
      requires pos0 + |Emit(Held(), Bits6(current)).0| <= output.Length
      modifies this`bitPos, bits, output
      ensures Ready()
      ensures var (out, last) := Emit(old(Held()), Bits6(current));
              pos == pos0 + |out| && Held() == last && output[..pos] == old(output[..pos0]) + out
    {
      pos := pos0;
      ghost var held, all := Held(), Bits6(current);
      for i := 6 downto 0
        invariant Ready() && pos == pos0 + |Emit(held, all[..6 - i]).0| <= output.Length
        invariant Held() == Emit(held, all[..6 - i]).1
        invariant output[..pos] == old(output[..pos0]) + Emit(held, all[..6 - i]).0
      {
        var b: bit := 0;
        if BitSet(current, i) { b := 1; } else { b := 0; }
        hide Emit, Ready, BitsOf, BitSet;
        BitAt(current, 6, i);
        EmitOne(held, all, 5 - i);
        pos := PushBit(b, output, pos);
      }
      assert all[..6] == all;
    }

    /** The loop body of base64_decode; stop is a break. */
    method DecodeChar(c: byte, output: array<byte>, pos0: nat) returns (pos: nat, stop: bool, failflag: bool)
      requires Ready() && (output as object) != bits && (output as object) != lookup
      requires c < 128 && pos0 + |Decode(Held(), [c]).out| <= output.Length
      modifies this`bitPos, bits, output
      ensures Ready() && pos <= output.Length && stop == Stops(c) && |Held()| < 8
      ensures var d := Decode(old(Held()), [c]);
              output[..pos] == old(output[..pos0]) + d.out && Held() == d.held && failflag == d.fail
    {
      DecodeOne(Held(), c);
      hide Decode, Emit, Bits6;
      pos, stop, failflag := pos0, false, false;
      if c == LF || c == CR || c == SPACE { return; }
      if c == PAD {
        bitPos := 0;
        stop := true;
        return;
      }
      var current := lookup[c];
      if current == -1 {
        failflag := true;
        bitPos := 0;
        stop := true;
        return;
      }
      pos := PushSextet(current, output, pos);
    }

    /** base64_decode. The input is ASCII, and the caller's buffer is large enough for what it decodes to. */
    method DecodeInto(input: seq<byte>, output: array<byte>) returns (pos: nat, failflag: bool)
      requires Ready() && (output as object) != bits && (output as object) != lookup
      requires forall i :: 0 <= i < |input| ==> input[i] < 128
      requires |Decode(Held(), input).out| <= output.Length
      modifies this`bitPos, bits, output
      ensures Ready() && pos <= output.Length
      ensures var d := Decode(old(Held()), input);
              output[..pos] == d.out && Held() == d.held && failflag == d.fail
    {
      ghost var whole := Decode(Held(), input);
      pos, failflag := 0, false;
      var n, stop := 0, false;
      assert |Held()| < 8 && output[..0] == [];
      hide *;
      DecodeWhole(whole, Held(), input);
      while n < |input| && !stop
        invariant n <= |input| && pos <= output.Length && Ready()
        invariant if stop then whole == Decoded(output[..pos], Held(), failflag)
                  else !failflag && |Held()| < 8 && whole == After(output[..pos], Decode(Held(), input[n..]))
        decreases |input| - n, !stop
      {
        DecodeStep(whole, output[..pos], Held(), input, n, input[n]);
        pos, stop, failflag := DecodeChar(input[n], output, pos);
        n := n + 1;
      }
      if !stop { DecodeEnd(whole, output[..pos], Held(), input); }
    }
  }
}
