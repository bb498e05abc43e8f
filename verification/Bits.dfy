/** The & of unsigned words, on their values. */
module Bits {
  import opened Common

  /** Bit by bit, from the lowest. */
  function BitAnd(x: nat, y: nat): (z: nat)
    ensures z <= x && z <= y
  {
    if x == 0 || y == 0 then 0 else 2 * BitAnd(x / 2, y / 2) + if x % 2 == 1 && y % 2 == 1 then 1 else 0
  }

  lemma AndStep(x: nat, y: nat)
    ensures BitAnd(x, y) == 2 * BitAnd(x / 2, y / 2) + if x % 2 == 1 && y % 2 == 1 then 1 else 0
  {
  }

  /** Bit number k. */
  predicate Bit(x: nat, k: nat) { x / Pow2(k) % 2 == 1 }

  lemma Halved(x: nat, p: nat)
    requires p > 0
    ensures x / (2 * p) == x / 2 / p && x % (2 * p) == 2 * (x / 2 % p) + x % 2
  {
    var q, r, b := x / 2 / p, x / 2 % p, x % 2;
    DivMod(x / 2, p);
    DivMod(x, 2);
    assert q * (2 * p) == (q * p) * 2;
    DivModOf(2 * r + b, q, 2 * p);
  }

  lemma Powers(k: nat)
    ensures Pow2(0) == 1 && Pow2(k + 1) == 2 * Pow2(k)
    ensures (Pow2(k + 1) - 1) / 2 == Pow2(k) - 1 && (Pow2(k + 1) - 1) % 2 == 1
    ensures Pow2(k + 1) / 2 == Pow2(k) && Pow2(k + 1) % 2 == 0
  {
  }

  lemma ByOne(x: nat)
    ensures x % 1 == 0 && x / 1 == x
  {
    DivModOf(0, x, 1);
  }

  /** A mask of low bits is a remainder. */
  lemma {:induction false} AndLow(x: nat, k: nat)
    ensures BitAnd(x, Pow2(k) - 1) == x % Pow2(k)
  {
    hide *;
    if k == 0 {
      Powers(0);
      AndNone(x);
      ByOne(x);
    } else {
      var p := Pow2(k - 1);
      Powers(k - 1);
      AndStep(x, 2 * p - 1);
      AndLow(x / 2, k - 1);
      Halved(x, p);
      assert x % 2 == 0 || x % 2 == 1;
    }
  }

  /** A single bit as mask. */
  lemma {:induction false} AndOne(x: nat, k: nat)
    ensures BitAnd(x, Pow2(k)) == if Bit(x, k) then Pow2(k) else 0
  {
    hide BitAnd, Pow2;
    if k == 0 {
      Powers(0);
      AndStep(x, 1);
      AndNone(x / 2);
      ByOne(x);
    } else {
      Powers(k - 1);
      AndStep(x, Pow2(k));
      AndOne(x / 2, k - 1);
      Halved(x, Pow2(k - 1));
    }
  }

  lemma AndNone(x: nat)
    ensures BitAnd(x, 0) == 0
  {
  }

  /** x above k bits, which are those of a. */
  function Join(x: nat, k: nat, a: nat): nat { x * Pow2(k) + a }

  lemma JoinHalf(x: nat, k: nat, a: nat)
    requires k > 0
    ensures Join(x, k, a) / 2 == Join(x, k - 1, a / 2) && Join(x, k, a) % 2 == a % 2
  {
    Twice(x, Pow2(k - 1));
  }

  lemma JoinUp(z: nat, k: nat, c: nat, bit: nat)
    requires k > 0
    ensures 2 * Join(z, k - 1, c) + bit == Join(z, k, 2 * c + bit)
  {
    Twice(z, Pow2(k - 1));
  }

  lemma JoinNone(x: nat, a: nat)
    ensures Pow2(0) == 1 && (a == 0 ==> Join(x, 0, a) == x)
  {
  }

  lemma Twice(x: nat, p: nat)
    ensures 2 * (x * p) == x * (2 * p)
  {
  }

  /** Two words joined. */
  lemma {:induction false} AndJoined(x: nat, y: nat, a: nat, b: nat, k: nat)
    requires a < Pow2(k) && b < Pow2(k)
    ensures BitAnd(Join(x, k, a), Join(y, k, b)) == Join(BitAnd(x, y), k, BitAnd(a, b))
  {
    hide *;
    if k == 0 {
      JoinNone(x, a);
      JoinNone(y, b);
      JoinNone(BitAnd(x, y), BitAnd(a, b));
      AndNone(0);
    } else {
      Powers(k - 1);
      AndJoined(x, y, a / 2, b / 2, k - 1);
      JoinHalf(x, k, a);
      JoinHalf(y, k, b);
      AndStep(Join(x, k, a), Join(y, k, b));
      AndStep(a, b);
      JoinUp(BitAnd(x, y), k, BitAnd(a / 2, b / 2), if a % 2 == 1 && b % 2 == 1 then 1 else 0);
    }
  }

  // --- Words ------------------------------------------------------------------------------------

  // The value of a word; named so that proofs about values do not look into words.
  function Val(v: bv32): nat { v as nat }

  lemma LowBit(v: bv32)
    requires v < 0x100
    ensures Val(v) == 2 * Val(v >> 1) + Val(v & 1)
  {
  }

  lemma BitVal(v: bv32)
    ensures Val(v & 1) == if v & 1 == 1 then 1 else 0
  {
    assert v & 1 == 0 || v & 1 == 1;
  }

  lemma NoVal(v: bv32)
    ensures Val(v) == 0 <==> v == 0
  {
  }

  lemma AndShifted(v: bv32, w: bv32)
    ensures (v & w) >> 1 == (v >> 1) & (w >> 1)
    ensures (v & w) & 1 == if v & 1 == 1 && w & 1 == 1 then 1 else 0
  {
  }

  lemma SmallHalf(v: bv32, w: bv32)
    requires v < 0x100
    ensures v >> 1 < 0x100 && v & w < 0x100
  {
  }

  lemma {:induction false} AndBytes(v: bv32, w: bv32)
    requires v < 0x100 && w < 0x100
    ensures Val(v & w) == BitAnd(Val(v), Val(w))
    decreases Val(v)
  {
    hide *;
    if Val(v) == 0 {
      NoVal(v);
      AndZero(w);
      NoVal(0);
      AndNothing(Val(w));
    } else {
      LowBit(v);
      LowBit(w);
      SmallHalf(v, w);
      SmallHalf(w, v);
      LowBit(v & w);
      BitVal(v);
      BitVal(w);
      BitVal(v & w);
      AndShifted(v, w);
      AndBytes(v >> 1, w >> 1);
      AndStep(Val(v), Val(w));
    }
  }

  lemma AndZero(w: bv32)
    ensures 0 & w == 0
  {
  }

  lemma AndNothing(x: nat)
    ensures BitAnd(0, x) == 0
  {
  }

  lemma Top24(v: bv32)
    ensures Val(v) == Val(v >> 24) * 0x100_0000 + Val(v & 0xff_ffff)
  {
  }

  lemma Low24(v: bv32)
    requires v < 0x100_0000
    ensures Val(v) < 0x100_0000
  {
    hide *;
    Small16(v, v);
    Top16(v);
    Parts16(v, v);
    Low8(v >> 16);
    Low16(v & 0xffff);
  }

  lemma Parts24(v: bv32, w: bv32)
    ensures (v & w) >> 24 == (v >> 24) & (w >> 24)
    ensures (v & w) & 0xff_ffff == (v & 0xff_ffff) & (w & 0xff_ffff)
    ensures v & 0xff_ffff < 0x100_0000 && w & 0xff_ffff < 0x100_0000
  {
  }

  lemma Small24(v: bv32, w: bv32)
    ensures v >> 24 < 0x100
  {
  }

  lemma Top16(v: bv32)
    requires v < 0x100_0000
    ensures Val(v) == Val(v >> 16) * 0x1_0000 + Val(v & 0xffff)
  {
  }

  lemma Low16(v: bv32)
    requires v < 0x1_0000
    ensures Val(v) < 0x1_0000
  {
    hide *;
    Small8(v, v);
    Top8(v);
    Parts8(v, v);
    Low8(v >> 8);
    Low8(v & 0xff);
  }

  lemma Parts16(v: bv32, w: bv32)
    ensures (v & w) >> 16 == (v >> 16) & (w >> 16)
    ensures (v & w) & 0xffff == (v & 0xffff) & (w & 0xffff)
    ensures v & 0xffff < 0x1_0000 && w & 0xffff < 0x1_0000
  {
  }

  lemma Small16(v: bv32, w: bv32)
    requires v < 0x100_0000
    ensures v >> 16 < 0x100 && v & w < 0x100_0000
  {
  }

  lemma Top8(v: bv32)
    requires v < 0x1_0000
    ensures Val(v) == Val(v >> 8) * 0x100 + Val(v & 0xff)
  {
  }

  lemma Low8(v: bv32)
    requires v < 0x100
    ensures Val(v) < 0x100
  {
  }

  lemma Parts8(v: bv32, w: bv32)
    ensures (v & w) >> 8 == (v >> 8) & (w >> 8)
    ensures (v & w) & 0xff == (v & 0xff) & (w & 0xff)
    ensures v & 0xff < 0x100 && w & 0xff < 0x100
  {
  }

  lemma Small8(v: bv32, w: bv32)
    requires v < 0x1_0000
    ensures v >> 8 < 0x100 && v & w < 0x1_0000
  {
  }

  // Words cut in two at bit 8, 16 or 24, and their conjunction, under names of their own.

  predicate CutPlace(k: nat) { k == 8 || k == 16 || k == 24 }

  function And(v: bv32, w: bv32): bv32 { v & w }

  function High(v: bv32, k: nat): bv32
    requires CutPlace(k)
  {
    if k == 8 then v >> 8 else if k == 16 then v >> 16 else v >> 24
  }

  function Low(v: bv32, k: nat): bv32
    requires CutPlace(k)
  {
    if k == 8 then v & 0xff else if k == 16 then v & 0xffff else v & 0xff_ffff
  }

  predicate Below(v: bv32, k: nat) { if k == 8 then v < 0x100 else if k == 16 then v < 0x1_0000 else v < 0x100_0000 }

  /** v is its two parts, put together. */
  predicate CutAt(v: bv32, k: nat)
    requires CutPlace(k)
  {
    Val(v) == Val(High(v, k)) * Pow2(k) + Val(Low(v, k)) && Val(Low(v, k)) < Pow2(k)
  }

  lemma Cut8(v: bv32)
    requires Below(v, 16)
    ensures CutAt(v, 8) && Below(High(v, 8), 8) && Below(Low(v, 8), 8)
  {
    PowersAre();
    Top8(v);
    Small8(v, v);
    Parts8(v, v);
    Low8(v & 0xff);
    hide Val, Pow2;
  }

  lemma Cut16(v: bv32)
    requires Below(v, 24)
    ensures CutAt(v, 16) && Below(High(v, 16), 8) && Below(Low(v, 16), 16)
  {
    PowersAre();
    Top16(v);
    Small16(v, v);
    Parts16(v, v);
    Low16(v & 0xffff);
    hide Val, Pow2;
  }

  lemma Cut24(v: bv32)
    ensures CutAt(v, 24) && Below(High(v, 24), 8) && Below(Low(v, 24), 24)
  {
    PowersAre();
    Top24(v);
    Small24(v, v);
    Parts24(v, v);
    Low24(v & 0xff_ffff);
    hide Val, Pow2;
  }

  lemma AndBelow(v: bv32, w: bv32, k: nat)
    requires Below(v, k)
    ensures Below(And(v, w), k)
  {
    if k == 16 { Small8(v, w); } else if k != 8 { Small16(v, w); }
  }

  lemma AndParts8(v: bv32, w: bv32)
    ensures High(And(v, w), 8) == And(High(v, 8), High(w, 8)) && Low(And(v, w), 8) == And(Low(v, 8), Low(w, 8))
  {
    Parts8(v, w);
  }

  lemma AndParts16(v: bv32, w: bv32)
    ensures High(And(v, w), 16) == And(High(v, 16), High(w, 16)) && Low(And(v, w), 16) == And(Low(v, 16), Low(w, 16))
  {
    Parts16(v, w);
  }

  lemma AndParts24(v: bv32, w: bv32)
    ensures High(And(v, w), 24) == And(High(v, 24), High(w, 24)) && Low(And(v, w), 24) == And(Low(v, 24), Low(w, 24))
  {
    Parts24(v, w);
  }

  lemma AndParts(v: bv32, w: bv32, k: nat)
    requires CutPlace(k)
    ensures High(And(v, w), k) == And(High(v, k), High(w, k)) && Low(And(v, w), k) == And(Low(v, k), Low(w, k))
  {
    hide High, Low, And;
    AndParts8(v, w);
    AndParts16(v, w);
    AndParts24(v, w);
  }

  /** The conjunction is that of the parts. */
  lemma AndByParts(v: bv32, w: bv32, k: nat)
    requires CutPlace(k) && CutAt(v, k) && CutAt(w, k) && CutAt(And(v, w), k)
    requires Val(And(High(v, k), High(w, k))) == BitAnd(Val(High(v, k)), Val(High(w, k)))
    requires Val(And(Low(v, k), Low(w, k))) == BitAnd(Val(Low(v, k)), Val(Low(w, k)))
    ensures Val(And(v, w)) == BitAnd(Val(v), Val(w))
  {
    AndParts(v, w, k);
    AndJoined(Val(High(v, k)), Val(High(w, k)), Val(Low(v, k)), Val(Low(w, k)), k);
    hide Val, And, High, Low, Pow2, BitAnd;
  }

  lemma And8(v: bv32, w: bv32)
    requires Below(v, 8) && Below(w, 8)
    ensures Val(And(v, w)) == BitAnd(Val(v), Val(w))
  {
    hide Val, BitAnd;
    AndBytes(v, w);
  }

  lemma And16(v: bv32, w: bv32)
    requires Below(v, 16) && Below(w, 16)
    ensures Val(And(v, w)) == BitAnd(Val(v), Val(w))
  {
    hide *;
    AndBelow(v, w, 16);
    Cut8(v);
    Cut8(w);
    Cut8(And(v, w));
    PlacesAre();
    And8(High(v, 8), High(w, 8));
    And8(Low(v, 8), Low(w, 8));
    AndByParts(v, w, 8);
  }

  lemma And24(v: bv32, w: bv32)
    requires Below(v, 24) && Below(w, 24)
    ensures Val(And(v, w)) == BitAnd(Val(v), Val(w))
  {
    hide *;
    AndBelow(v, w, 24);
    Cut16(v);
    Cut16(w);
    Cut16(And(v, w));
    PlacesAre();
    And8(High(v, 16), High(w, 16));
    And16(Low(v, 16), Low(w, 16));
    AndByParts(v, w, 16);
  }

  lemma And32(v: bv32, w: bv32)
    ensures Val(And(v, w)) == BitAnd(Val(v), Val(w))
  {
    hide *;
    Cut24(v);
    Cut24(w);
    Cut24(And(v, w));
    PlacesAre();
    And8(High(v, 24), High(w, 24));
    And24(Low(v, 24), Low(w, 24));
    AndByParts(v, w, 24);
  }

  lemma PlacesAre()
    ensures CutPlace(8) && CutPlace(16) && CutPlace(24)
  {
  }

  /** BitAnd is the & of 32-bit words. */
  lemma AndWords(v: bv32, w: bv32)
    ensures Val(v & w) == BitAnd(Val(v), Val(w))
  {
    And32(v, w);
    hide Val, BitAnd;
  }

  lemma PowersAre()
    ensures Pow2(8) == 0x100 && Pow2(16) == 0x1_0000 && Pow2(24) == 0x100_0000
  {
    assert Pow2(4) == 16;
    assert Pow2(8) == 0x100;
    assert Pow2(12) == 0x1000;
    assert Pow2(16) == 0x1_0000;
    assert Pow2(20) == 0x10_0000;
  }
}
