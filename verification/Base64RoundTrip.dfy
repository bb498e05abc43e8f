/** Decoding undoes the encoding of RFC 4648, section 4, however the text is spaced and cut. */
module Base64RoundTrip {
  import opened Common
  import opened Base64
  import opened PngStream

  // --- Encoding ---------------------------------------------------------------------------------

  /** Groups of three bytes become four letters; a last group of one or two bytes is filled with zero bits and its
      text padded. */
  function Encode(b: seq<byte>): seq<byte> {
    if b == [] then []
    else if |b| == 1 then [Alphabet(b[0] / 4), Alphabet(b[0] % 4 * 16), PAD, PAD]
    else if |b| == 2 then
      [Alphabet(b[0] / 4), Alphabet(b[0] % 4 * 16 + b[1] / 16), Alphabet(b[1] % 16 * 4), PAD]
    else
      [Alphabet(b[0] / 4), Alphabet(b[0] % 4 * 16 + b[1] / 16), Alphabet(b[1] % 16 * 4 + b[2] / 64),
       Alphabet(b[2] % 64)] + Encode(b[3..])
  }

  /** s without spaces and line ends. */
  function Strip(s: seq<byte>): seq<byte> {
    if s == [] then [] else (if White(s[0]) then [] else [s[0]]) + Strip(s[1..])
  }

  /** Several calls, one after the other. */
  function DecodeAll(held: seq<bit>, pieces: seq<seq<byte>>): Decoded
    requires |held| < 8
    decreases |pieces|
  {
    if pieces == [] then Decoded([], held, false)
    else
      var d := Decode(held, pieces[0]);
      var rest := DecodeAll(d.held, pieces[1..]);
      Decoded(d.out + rest.out, rest.held, d.fail || rest.fail)
  }

  // --- Bytes and bits ---------------------------------------------------------------------------

  /** The number that bits make, highest first. */
  function ValueOf(s: seq<bit>): nat { if s == [] then 0 else 2 * ValueOf(s[..|s| - 1]) + s[|s| - 1] }

  lemma {:induction false} ValueAgain(v: nat, n: nat)
    requires v < Pow2(n)
    ensures ValueOf(BitsOf(v, n)) == v
  {
    if n > 0 {
      ValueAgain(v / 2, n - 1);
      var s := BitsOf(v, n);
      assert s[..n - 1] == BitsOf(v / 2, n - 1);
    }
  }

  lemma ValueStep(s: seq<bit>, k: nat)
    requires k < |s|
    ensures ValueOf(s[..k + 1]) == 2 * ValueOf(s[..k]) + s[k]
  {
    assert s[..k + 1][..k] == s[..k];
  }

  lemma ByteIsValue(s: seq<bit>)
    requires |s| == 8
    ensures ToByte(s) == ValueOf(s)
  {
    WeighedSum(s);
    assert s[..0] == [] && s[..8] == s && ValueOf([]) == 0;
    hide *;
    ValueHalf(s, 0);
    ValueHalf(s, 4);
    ByteWeighs(s);
  }

  lemma ByteWeighs(s: seq<bit>)
    requires |s| == 8
    ensures ToByte(s) == Weighed(s, 8)
  {
  }

  lemma ValueHalf(s: seq<bit>, k: nat)
    requires k + 4 <= |s|
    ensures ValueOf(s[..k + 4])
         == 16 * ValueOf(s[..k]) + 8 * (s[k] as int) + 4 * (s[k + 1] as int) + 2 * (s[k + 2] as int) + s[k + 3]
  {
    ValueStep(s, k);
    ValueStep(s, k + 1);
    ValueStep(s, k + 2);
    ValueStep(s, k + 3);
    hide ValueOf;
  }

  lemma ByteAgain(x: byte)
    ensures ToByte(BitsOf(x, 8)) == x
  {
    assert Pow2(2) == 4 && Pow2(4) == 16 && Pow2(6) == 64;
    ValueAgain(x, 8);
    ByteIsValue(BitsOf(x, 8));
  }

  /** The bits of a number with w in its m lowest places. */
  lemma {:induction false} BitsJoin(h: nat, w: nat, n: nat, m: nat)
    requires w < Pow2(m)
    ensures BitsOf(h * Pow2(m) + w, n + m) == BitsOf(h, n) + BitsOf(w, m)
    decreases m
  {
    if m == 0 {
      assert BitsOf(h, n) + [] == BitsOf(h, n);
    } else {
      var t := h * Pow2(m - 1);
      assert h * Pow2(m) == 2 * t;
      assert (2 * t + w) / 2 == t + w / 2 && (2 * t + w) % 2 == w % 2;
      BitsJoin(h, w / 2, n, m - 1);
    }
  }

  lemma {:induction false} EmitFull(held: seq<bit>, s: seq<bit>)
    requires |held| + |s| == 8 && s != []
    ensures Emit(held, s) == ([ToByte(held + s)], [])
    decreases |s|
  {
    if |s| == 1 {
      assert s == [s[0]] && s[1..] == [] && Emit([], s[1..]) == ([], []);
      var b := ToByte(held + s);
      assert [b] + Emit([], s[1..]).0 == [b];
    } else {
      EmitFull(held + [s[0]], s[1..]);
      assert held + [s[0]] + s[1..] == held + s;
    }
  }

  lemma {:induction false} EmitShort(held: seq<bit>, s: seq<bit>)
    requires |held| + |s| < 8
    ensures Emit(held, s) == ([], held + s)
    decreases |s|
  {
    if s == [] {
      assert held + s == held;
    } else {
      EmitShort(held + [s[0]], s[1..]);
      assert held + [s[0]] + s[1..] == held + s;
    }
  }

  lemma EmitByte(x: byte, s: seq<bit>)
    ensures Emit([], BitsOf(x, 8) + s) == ([x] + Emit([], s).0, Emit([], s).1)
  {
    hide BitsOf, ToByte, Emit;
    EmitFull([], BitsOf(x, 8));
    ByteAgain(x);
    assert [] + BitsOf(x, 8) == BitsOf(x, 8);
    EmitConcat([], BitsOf(x, 8), s);
  }

  lemma BitsOfByte(x: byte)
    ensures BitsOf(x, 8) == BitsOf(x / 4, 6) + BitsOf(x % 4, 2)
    ensures BitsOf(x, 8) == BitsOf(x / 16, 4) + BitsOf(x % 16, 4)
    ensures BitsOf(x, 8) == BitsOf(x / 64, 2) + BitsOf(x % 64, 6)
  {
    hide BitsOf;
    assert Pow2(2) == 4 && Pow2(4) == 16 && Pow2(6) == 64;
    BitsJoin(x / 4, x % 4, 6, 2);
    BitsJoin(x / 16, x % 16, 4, 4);
    BitsJoin(x / 64, x % 64, 2, 6);
  }

  lemma BitsOfMiddle(x: byte, y: byte)
    ensures Bits6(x % 4 * 16 + y / 16) == BitsOf(x % 4, 2) + BitsOf(y / 16, 4)
    ensures Bits6(x % 16 * 4 + y / 64) == BitsOf(x % 16, 4) + BitsOf(y / 64, 2)
  {
    hide BitsOf;
    assert Pow2(2) == 4 && Pow2(4) == 16;
    BitsJoin(x % 4, y / 16, 2, 4);
    BitsJoin(x % 16, y / 64, 4, 2);
  }

  lemma Assoc<T>(a: seq<T>, b: seq<T>, c: seq<T>)
    ensures a + (b + c) == a + b + c
  {
  }

  // --- The text ---------------------------------------------------------------------------------

  predicate Bare(s: seq<byte>) { forall i :: 0 <= i < |s| ==> White(s[i]) || InAlphabet(s[i]) }

  predicate Tail(s: seq<byte>) { forall i :: 0 <= i < |s| ==> White(s[i]) || s[i] == PAD }

  predicate Letters(s: seq<byte>) { forall i :: 0 <= i < |s| ==> InAlphabet(s[i]) }

  predicate Pads(s: seq<byte>) { forall i :: 0 <= i < |s| ==> s[i] == PAD }

  /** The bits of all letters of s. */
  function TextBits(s: seq<byte>): seq<bit>
    requires Bare(s)
  {
    if s == [] then [] else (if White(s[0]) then [] else Bits6(Place(s[0]))) + TextBits(s[1..])
  }

  lemma TextBitsCons(c: byte, u: seq<byte>)
    requires (White(c) || InAlphabet(c)) && Bare(u)
    ensures Bare([c] + u)
    ensures TextBits([c] + u) == if White(c) then TextBits(u) else Bits6(Place(c)) + TextBits(u)
  {
    assert ([c] + u)[1..] == u;
    if White(c) { assert [] + TextBits(u) == TextBits(u); }
    hide Bits6, Place;
  }

  lemma BareConcat(s: seq<byte>, t: seq<byte>)
    requires Bare(s) && Bare(t)
    ensures Bare(s + t)
  {
    hide White, InAlphabet;
  }

  lemma BareHead(s: seq<byte>)
    requires Bare(s) && s != []
    ensures (White(s[0]) || InAlphabet(s[0])) && Bare(s[1..]) && s == [s[0]] + s[1..]
  {
    hide White, InAlphabet;
  }

  lemma {:induction false} TextBitsConcat(s: seq<byte>, t: seq<byte>)
    requires Bare(s) && Bare(t)
    ensures Bare(s + t) && TextBits(s + t) == TextBits(s) + TextBits(t)
  {
    BareConcat(s, t);
    if s == [] {
      assert s + t == t;
    } else {
      BareHead(s);
      BareConcat(s[1..], t);
      hide *;
      TextBitsConcat(s[1..], t);
      TextBitsCons(s[0], s[1..]);
      TextBitsCons(s[0], s[1..] + t);
      Assoc([s[0]], s[1..], t);
      if !White(s[0]) {
        LetterHasPlace(s[0]);
        Assoc(Bits6(Place(s[0])), TextBits(s[1..]), TextBits(t));
      }
    }
  }

  lemma LetterHasPlace(c: byte)
    requires InAlphabet(c)
    ensures Place(c) >= 0
  {
  }

  /** Text without padding just adds its bits. */
  lemma {:induction false} DecodeBare(held: seq<bit>, u: seq<byte>)
    requires |held| < 8 && Bare(u)
    ensures var (out, last) := Emit(held, TextBits(u)); Decode(held, u) == Decoded(out, last, false)
    decreases |u|
  {
    if u != [] {
      hide Bits6, Emit, Place;
      assert White(u[0]) || InAlphabet(u[0]);
      assert Bare(u[1..]);
      if White(u[0]) {
        assert [] + TextBits(u[1..]) == TextBits(u[1..]);
        DecodeBare(held, u[1..]);
      } else {
        var bits := Bits6(Place(u[0]));
        DecodeBare(Emit(held, bits).1, u[1..]);
        EmitConcat(held, bits, TextBits(u[1..]));
      }
    } else {
      assert Emit(held, []) == ([], held);
    }
  }

  lemma {:induction false} DecodeTail(held: seq<bit>, v: seq<byte>)
    requires |held| < 8 && Tail(v)
    ensures Decode(held, v) == Decoded([], if PAD in v then [] else held, false)
    decreases |v|
  {
    if v != [] {
      assert White(v[0]) || v[0] == PAD;
      assert Tail(v[1..]) && v == [v[0]] + v[1..];
      if White(v[0]) { DecodeTail(held, v[1..]); }
    }
  }

  lemma {:induction false} DecodeConcat(held: seq<bit>, u: seq<byte>, v: seq<byte>)
    requires |held| < 8 && Bare(u)
    ensures Decode(held, u + v) == After(Decode(held, u).out, Decode(Decode(held, u).held, v))
    decreases |u|
  {
    hide Bits6, Emit, Place;
    if u == [] {
      assert u + v == v;
    } else {
      assert (u + v)[0] == u[0] && (u + v)[1..] == u[1..] + v;
      assert White(u[0]) || InAlphabet(u[0]);
      assert Bare(u[1..]);
      DecodeFirst(held, u + v);
      DecodeFirst(held, u);
      var d := Decode(held, [u[0]]);
      DecodeConcat(d.held, u[1..], v);
      var e := Decode(d.held, u[1..]);
      hide Decode;
      AfterAfter(d.out, e.out, Decode(e.held, v));
    }
  }

  /** What a call makes of any text: the bytes of the letters before the first character that is neither letter nor
      white space. That character ends the call, with no bits left; unless it is the padding the call fails. */
  lemma DecodeStops(held: seq<bit>, u: seq<byte>, c: byte, rest: seq<byte>)
    requires |held| < 8 && Bare(u) && !White(c) && (c == PAD || !InAlphabet(c))
    ensures Decode(held, u + ([c] + rest)) == Decoded(Emit(held, TextBits(u)).0, [], c != PAD)
  {
    DecodeConcat(held, u, [c] + rest);
    DecodeBare(held, u);
    assert Decode(Decode(held, u).held, [c] + rest) == Decoded([], [], c != PAD);
    hide Decode, Emit, TextBits, Bare;
    assert Emit(held, TextBits(u)).0 + [] == Emit(held, TextBits(u)).0;
  }

  /** Text followed by its padding, cut anywhere: the bytes are those its letters' bits make, and padding throws the
      unfinished byte away. */
  lemma {:induction false} DecodePieces(held: seq<bit>, pieces: seq<seq<byte>>,
                                        u: seq<byte>, v: seq<byte>)
    requires |held| < 8 && Concat(pieces) == u + v && Bare(u) && Tail(v)
    ensures var (out, last) := Emit(held, TextBits(u));
            DecodeAll(held, pieces) == Decoded(out, if PAD in v then [] else last, false)
    decreases |pieces|
  {
    hide TextBits, Emit, Decode;
    if pieces == [] {
      assert u == [] && v == [];
      NoBits(held);
    } else {
      var p, rest := pieces[0], Concat(pieces[1..]);
      if |p| <= |u| {
        PieceInText(p, rest, u, v);
        var w := u[|p|..];
        DecodeBare(held, p);
        DecodePieces(Emit(held, TextBits(p)).1, pieces[1..], w, v);
        TextBitsConcat(p, w);
        EmitConcat(held, TextBits(p), TextBits(w));
      } else {
        var k := |p| - |u|;
        PieceAcross(p, rest, u, v);
        DecodeBare(held, u);
        DecodeConcat(held, u, v[..k]);
        var last := Emit(held, TextBits(u)).1;
        DecodeTail(last, v[..k]);
        var after := if PAD in v[..k] then [] else last;
        DecodePieces(after, pieces[1..], [], v[k..]);
        NoBits(after);
        assert v == v[..k] + v[k..];
        assert PAD in v <==> PAD in v[..k] || PAD in v[k..];
        Nothing(Emit(held, TextBits(u)).0);
      }
    }
  }

  lemma NoBits(held: seq<bit>)
    requires |held| < 8
    ensures Emit(held, TextBits([])) == ([], held)
  {
  }

  lemma Nothing(s: seq<byte>)
    ensures s + [] == s
  {
  }

  lemma PieceInText(p: seq<byte>, rest: seq<byte>, u: seq<byte>, v: seq<byte>)
    requires p + rest == u + v && |p| <= |u| && Bare(u)
    ensures u == p + u[|p|..] && rest == u[|p|..] + v && Bare(p) && Bare(u[|p|..])
  {
    assert p == (p + rest)[..|p|] == (u + v)[..|p|] == u[..|p|];
    assert rest == (p + rest)[|p|..] == (u + v)[|p|..] == u[|p|..] + v;
    assert Bare(u[..|p|]) && u == u[..|p|] + u[|p|..];
  }

  lemma PieceAcross(p: seq<byte>, rest: seq<byte>, u: seq<byte>, v: seq<byte>)
    requires p + rest == u + v && |p| > |u| && Tail(v)
    ensures var k := |p| - |u|; k <= |v| && p == u + v[..k] && rest == [] + v[k..] && Tail(v[..k]) && Tail(v[k..])
  {
    var k := |p| - |u|;
    assert p == (p + rest)[..|p|] == (u + v)[..|p|] == u + v[..k];
    assert rest == (p + rest)[|p|..] == (u + v)[|p|..] == v[k..];
  }

  lemma {:induction false} StripPads(t: seq<byte>)
    requires Pads(Strip(t))
    ensures Tail(t) && (PAD in t <==> Strip(t) != [])
  {
    if t != [] {
      var rest := Strip(t[1..]);
      if White(t[0]) {
        assert Strip(t) == rest;
      } else {
        assert Strip(t)[0] == t[0] && Strip(t)[1..] == rest;
      }
      StripPads(t[1..]);
      assert t == [t[0]] + t[1..];
    }
  }

  lemma StripStep(t: seq<byte>, l: seq<byte>, p: seq<byte>)
    requires Strip(t) == l + p && l != [] && Letters(l)
    ensures t != [] && (White(t[0]) ==> Strip(t[1..]) == l + p)
    ensures !White(t[0]) ==> t[0] == l[0] && InAlphabet(l[0]) && !White(l[0]) && Letters(l[1..])
    ensures !White(t[0]) ==> Strip(t[1..]) == l[1..] + p && l == [l[0]] + l[1..]
  {
    hide Place;
    var rest := Strip(t[1..]);
    if White(t[0]) {
      assert Strip(t) == rest;
    } else {
      assert Strip(t)[0] == l[0] == t[0] && Strip(t)[1..] == l[1..] + p;
    }
  }

  lemma SplitNone(t: seq<byte>, p: seq<byte>)
    requires Strip(t) == [] + p && Pads(p)
    ensures Tail(t) && (PAD in t <==> p != []) && Bare([])
  {
    assert [] + p == p;
    StripPads(t);
  }

  /** Where the padding begins. */
  lemma {:induction false} SplitText(t: seq<byte>, l: seq<byte>, p: seq<byte>)
    returns (u: seq<byte>, v: seq<byte>)
    requires Strip(t) == l + p && Letters(l) && Pads(p)
    ensures t == u + v && Bare(u) && Tail(v) && Bare(l) && TextBits(u) == TextBits(l) && (PAD in v <==> p != [])
    decreases |t|
  {
    hide *;
    if l == [] {
      SplitNone(t, p);
      u, v := [], t;
    } else {
      StripStep(t, l, p);
      if White(t[0]) {
        u, v := SplitText(t[1..], l, p);
      } else {
        u, v := SplitText(t[1..], l[1..], p);
        TextBitsCons(l[0], l[1..]);
      }
      TextBitsCons(t[0], u);
      u := [t[0]] + u;
    }
  }

  // --- The round trip ---------------------------------------------------------------------------

  /** Encode without the padding. */
  function LettersOf(b: seq<byte>): seq<byte> {
    if b == [] then []
    else if |b| == 1 then [Alphabet(b[0] / 4), Alphabet(b[0] % 4 * 16)]
    else if |b| == 2 then [Alphabet(b[0] / 4), Alphabet(b[0] % 4 * 16 + b[1] / 16), Alphabet(b[1] % 16 * 4)]
    else
      [Alphabet(b[0] / 4), Alphabet(b[0] % 4 * 16 + b[1] / 16), Alphabet(b[1] % 16 * 4 + b[2] / 64),
       Alphabet(b[2] % 64)] + LettersOf(b[3..])
  }

  function PadsOf(b: seq<byte>): seq<byte> {
    if b == [] then [] else if |b| == 1 then [PAD, PAD] else if |b| == 2 then [PAD] else PadsOf(b[3..])
  }

  /** The bits of b and the zero bits that fill the last letter. */
  function BitsAll(b: seq<byte>): seq<bit> {
    if b == [] then [] else BitsOf(b[0], 8) + BitsAll(b[1..])
  }

  function Fill(b: seq<byte>): seq<bit> {
    if b == [] then [] else if |b| == 1 then BitsOf(0, 4) else if |b| == 2 then BitsOf(0, 2) else Fill(b[3..])
  }

  lemma {:induction false} EncodeParts(b: seq<byte>)
    ensures Encode(b) == LettersOf(b) + PadsOf(b) && Letters(LettersOf(b)) && Pads(PadsOf(b))
  {
    if |b| >= 3 {
      EncodeParts(b[3..]);
    }
  }

  lemma LetterBits(n: nat, rest: seq<byte>)
    requires n < 64 && Bare(rest)
    ensures Bare([Alphabet(n)] + rest) && TextBits([Alphabet(n)] + rest) == Bits6(n) + TextBits(rest)
  {
    assert Place(Alphabet(n)) == n && Alphabet(n) != PAD && !White(Alphabet(n));
    hide Place, Alphabet;
    TextBitsCons(Alphabet(n), rest);
  }

  lemma OneBits(x: byte)
    ensures Bits6(x / 4) + Bits6(x % 4 * 16) == BitsOf(x, 8) + BitsOf(0, 4)
  {
    hide BitsOf;
    BitsOfByte(x);
    BitsOfMiddle(x, 0);
    assert Bits6(x / 4) == BitsOf(x / 4, 6);
  }

  lemma TwoBits(x: byte, y: byte)
    ensures Bits6(x / 4) + (Bits6(x % 4 * 16 + y / 16) + Bits6(y % 16 * 4))
            == BitsOf(x, 8) + (BitsOf(y, 8) + BitsOf(0, 2))
  {
    hide BitsOf;
    BitsOfByte(x);
    BitsOfByte(y);
    BitsOfMiddle(x, y);
    BitsOfMiddle(y, 0);
    assert Bits6(x / 4) == BitsOf(x / 4, 6);
  }

  lemma ThreeBits(x: byte, y: byte, z: byte)
    ensures Bits6(x / 4) + (Bits6(x % 4 * 16 + y / 16) + (Bits6(y % 16 * 4 + z / 64) + Bits6(z % 64)))
            == BitsOf(x, 8) + (BitsOf(y, 8) + BitsOf(z, 8))
  {
    hide BitsOf;
    BitsOfByte(x);
    BitsOfByte(y);
    BitsOfByte(z);
    BitsOfMiddle(x, y);
    BitsOfMiddle(y, z);
    assert Bits6(x / 4) == BitsOf(x / 4, 6) && Bits6(z % 64) == BitsOf(z % 64, 6);
  }

  lemma NoText()
    ensures Bare([]) && TextBits([]) == []
  {
  }

  /** The last letter of a text. */
  lemma LastLetter(n: nat)
    requires n < 64
    ensures Bare([Alphabet(n)]) && TextBits([Alphabet(n)]) == Bits6(n)
  {
    hide *;
    NoText();
    LetterBits(n, []);
    assert [Alphabet(n)] + [] == [Alphabet(n)];
    assert Bits6(n) + [] == Bits6(n);
  }

  lemma LettersOne(x: byte)
    ensures var l := [Alphabet(x / 4), Alphabet(x % 4 * 16)];
            Bare(l) && TextBits(l) == BitsOf(x, 8) + BitsOf(0, 4)
  {
    hide *;
    LastLetter(x % 4 * 16);
    LetterBits(x / 4, [Alphabet(x % 4 * 16)]);
    assert [Alphabet(x / 4)] + [Alphabet(x % 4 * 16)] == [Alphabet(x / 4), Alphabet(x % 4 * 16)];
    OneBits(x);
  }

  lemma LettersTwo(x: byte, y: byte)
    ensures var l := [Alphabet(x / 4), Alphabet(x % 4 * 16 + y / 16), Alphabet(y % 16 * 4)];
            Bare(l) && TextBits(l) == BitsOf(x, 8) + (BitsOf(y, 8) + BitsOf(0, 2))
  {
    hide *;
    var c, d := Alphabet(x % 4 * 16 + y / 16), Alphabet(y % 16 * 4);
    LastLetter(y % 16 * 4);
    LetterBits(x % 4 * 16 + y / 16, [d]);
    LetterBits(x / 4, [c] + [d]);
    TwoBits(x, y);
    assert [Alphabet(x / 4)] + ([c] + [d]) == [Alphabet(x / 4), c, d];
  }

  lemma LettersThree(x: byte, y: byte, z: byte)
    ensures var l := [Alphabet(x / 4), Alphabet(x % 4 * 16 + y / 16), Alphabet(y % 16 * 4 + z / 64), Alphabet(z % 64)];
            Bare(l) && TextBits(l) == BitsOf(x, 8) + (BitsOf(y, 8) + BitsOf(z, 8))
  {
    hide *;
    var a, c, d, e := Alphabet(x / 4), Alphabet(x % 4 * 16 + y / 16), Alphabet(y % 16 * 4 + z / 64), Alphabet(z % 64);
    LastLetter(z % 64);
    LetterBits(y % 16 * 4 + z / 64, [e]);
    LetterBits(x % 4 * 16 + y / 16, [d] + [e]);
    LetterBits(x / 4, [c] + ([d] + [e]));
    ThreeBits(x, y, z);
    assert [a] + ([c] + ([d] + [e])) == [a, c, d, e];
  }

  lemma BitsCons(x: byte, rest: seq<byte>)
    ensures BitsAll([x] + rest) == BitsOf(x, 8) + BitsAll(rest)
  {
    assert ([x] + rest)[1..] == rest;
  }

  lemma BitsOne(x: byte)
    ensures BitsAll([x]) == BitsOf(x, 8)
  {
    assert [x][1..] == [];
    hide BitsOf;
    assert BitsOf(x, 8) + BitsAll([]) == BitsOf(x, 8);
  }

  lemma BitsTwo(b: seq<byte>)
    requires |b| == 2
    ensures BitsAll(b) == BitsOf(b[0], 8) + BitsOf(b[1], 8)
  {
    hide *;
    BitsOne(b[1]);
    BitsCons(b[0], [b[1]]);
    assert b == [b[0]] + [b[1]];
  }

  lemma BitsHead(b: seq<byte>, k: nat)
    requires k < |b|
    ensures BitsAll(b[k..]) == BitsOf(b[k], 8) + BitsAll(b[k + 1..])
  {
    assert b[k..][0] == b[k] && b[k..][1..] == b[k + 1..];
  }

  lemma BitsPair(b: seq<byte>, k: nat)
    requires k + 1 < |b|
    ensures BitsAll(b[k..]) == BitsOf(b[k], 8) + BitsOf(b[k + 1], 8) + BitsAll(b[k + 2..])
  {
    hide *;
    BitsHead(b, k);
    BitsHead(b, k + 1);
    Assoc(BitsOf(b[k], 8), BitsOf(b[k + 1], 8), BitsAll(b[k + 2..]));
  }

  lemma BitsThree(b: seq<byte>)
    requires |b| >= 3
    ensures BitsAll(b) == BitsOf(b[0], 8) + (BitsOf(b[1], 8) + BitsOf(b[2], 8)) + BitsAll(b[3..])
  {
    BitsPair(b, 1);
    assert BitsAll(b) == BitsOf(b[0], 8) + BitsAll(b[1..]);
    hide *;
    Assoc(BitsOf(b[0], 8), BitsOf(b[1], 8) + BitsOf(b[2], 8), BitsAll(b[3..]));
  }

  lemma LettersStep(b: seq<byte>)
    requires |b| >= 3
    ensures LettersOf(b) ==
            [Alphabet(b[0] / 4), Alphabet(b[0] % 4 * 16 + b[1] / 16), Alphabet(b[1] % 16 * 4 + b[2] / 64),
             Alphabet(b[2] % 64)] + LettersOf(b[3..])
    ensures Fill(b) == Fill(b[3..])
  {
    hide Alphabet;
  }

  lemma ShortParts(b: seq<byte>)
    ensures b == [] ==> LettersOf(b) == []
    ensures |b| == 1 ==> LettersOf(b) == [Alphabet(b[0] / 4), Alphabet(b[0] % 4 * 16)] && Fill(b) == BitsOf(0, 4)
    ensures |b| == 2 ==> Fill(b) == BitsOf(0, 2)
    ensures |b| == 2 ==>
              LettersOf(b) == [Alphabet(b[0] / 4), Alphabet(b[0] % 4 * 16 + b[1] / 16), Alphabet(b[1] % 16 * 4)]
  {
    hide Alphabet, BitsOf;
  }

  lemma LettersShort(b: seq<byte>)
    requires |b| < 3
    ensures Bare(LettersOf(b)) && TextBits(LettersOf(b)) == BitsAll(b) + Fill(b)
  {
    ShortParts(b);
    hide *;
    if b == [] {
      NoText();
      NoBytes();
    } else if |b| == 1 {
      LettersOne(b[0]);
      BitsOne(b[0]);
      assert b == [b[0]];
    } else {
      LettersTwo(b[0], b[1]);
      BitsTwo(b);
      Assoc(BitsOf(b[0], 8), BitsOf(b[1], 8), BitsOf(0, 2));
    }
  }

  lemma NoBytes()
    ensures BitsAll([]) == [] && Fill([]) == []
  {
  }

  /** The letters of b carry the bits of b and the fill. */
  lemma {:induction false} LettersCarry(b: seq<byte>)
    ensures Bare(LettersOf(b)) && TextBits(LettersOf(b)) == BitsAll(b) + Fill(b)
    decreases |b|
  {
    hide *;
    if |b| < 3 {
      LettersShort(b);
    } else {
      LettersStep(b);
      LettersThree(b[0], b[1], b[2]);
      LettersCarry(b[3..]);
      BitsThree(b);
      var l := [Alphabet(b[0] / 4), Alphabet(b[0] % 4 * 16 + b[1] / 16), Alphabet(b[1] % 16 * 4 + b[2] / 64),
                Alphabet(b[2] % 64)];
      TextBitsConcat(l, LettersOf(b[3..]));
      Assoc(TextBits(l), BitsAll(b[3..]), Fill(b));
    }
  }

  lemma {:induction false} FillIsShort(b: seq<byte>)
    ensures |Fill(b)| < 6 && (PadsOf(b) == [] ==> Fill(b) == [])
  {
    hide BitsOf;
    if |b| >= 3 { FillIsShort(b[3..]); }
  }

  /** All those bits make b, and the fill is left. */
  lemma {:induction false} EmitAll(b: seq<byte>, fill: seq<bit>)
    requires |fill| < 8
    ensures Emit([], BitsAll(b) + fill) == (b, fill)
  {
    hide BitsOf, Emit;
    if b == [] {
      EmitShort([], fill);
      assert BitsAll(b) + fill == fill && [] + fill == fill;
    } else {
      var x, rest := BitsOf(b[0], 8), BitsAll(b[1..]);
      EmitAll(b[1..], fill);
      EmitByte(b[0], rest + fill);
      assert x + (rest + fill) == BitsAll(b) + fill;
      assert [b[0]] + b[1..] == b;
    }
  }

  /** Any byte string comes back: encode it, put spaces and line ends anywhere, cut the text into any calls. The
      calls return the bytes, none fails, and no bits are left over. */
  lemma RoundTrip(b: seq<byte>, pieces: seq<seq<byte>>)
    requires Strip(Concat(pieces)) == Encode(b)
    ensures DecodeAll([], pieces) == Decoded(b, [], false)
  {
    hide *;
    EncodeParts(b);
    var l := LettersOf(b);
    var u, v := SplitText(Concat(pieces), l, PadsOf(b));
    DecodePieces([], pieces, u, v);
    LettersCarry(b);
    FillIsShort(b);
    EmitAll(b, Fill(b));
  }

  // --- Where the last byte comes out ------------------------------------------------------------

  lemma {:induction false} BitsAllSize(b: seq<byte>)
    ensures |BitsAll(b)| == 8 * |b|
  {
    if b != [] { BitsAllSize(b[1..]); }
  }

  /** Text with letters has six bits at least. */
  lemma {:induction false} SomeLetter(u: seq<byte>)
    requires Bare(u)
    ensures Tail(u) || |TextBits(u)| >= 6
    decreases |u|
  {
    hide Bits6, Place;
    if u != [] {
      BareHead(u);
      SomeLetter(u[1..]);
      if Tail(u[1..]) && White(u[0]) { assert Tail([u[0]] + u[1..]); }
    }
  }

  lemma CutText(u: seq<byte>, v: seq<byte>, k: nat)
    requires k <= |u + v| && Bare(u) && Tail(v)
    ensures k <= |u| ==> (u + v)[..k] == u[..k] && (u + v)[k..] == u[k..] + v && u == u[..k] + u[k..]
                         && Bare(u[..k]) && Bare(u[k..]) && (Tail(u[k..]) ==> Tail((u + v)[k..]))
    ensures k > |u| ==> Tail((u + v)[k..])
  {
    hide White, InAlphabet;
    if k > |u| { assert (u + v)[k..] == v[k - |u|..]; }
  }

  /** The last byte comes out with the last letter: before that there are fewer bytes, and then there is only padding
      and white space to come. */
  lemma LastLetterLastByte(b: seq<byte>, text: seq<byte>, k: nat)
    requires Strip(text) == Encode(b) && k <= |text|
    ensures Tail(text[k..]) || |Decode([], text[..k]).out| < |b|
  {
    hide *;
    EncodeParts(b);
    var u, v := SplitText(text, LettersOf(b), PadsOf(b));
    LettersCarry(b);
    FillIsShort(b);
    BitsAllSize(b);
    CutText(u, v, k);
    if k <= |u| && !Tail(u[k..]) {
      TextBitsConcat(u[..k], u[k..]);
      SomeLetter(u[k..]);
      DecodeBare([], u[..k]);
      EmitSize([], TextBits(u[..k]));
    }
  }
}
