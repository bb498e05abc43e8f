/** png_build_16to8_table: the table that takes a 16-bit sample to the nearest 8-bit output level. */
module GammaTable {
  import opened Common

  // What png_gamma_16bit_correct computes for the gamma in use.
  type Curve = nat -> nat

  ghost predicate SixteenBit(gamma: Curve) { forall v :: 0 <= v <= 65535 ==> gamma(v) <= 65535 }

  /** How many subtables there are: 1 << (8 - shift). */
  function Num(shift: nat): (n: nat)
    requires shift <= 8
    ensures 1 <= n <= 256
  {
    [256, 128, 64, 32, 16, 8, 4, 2, 1][shift]
  }

  /** The largest (16 - shift)-bit sample. */
  function Largest(shift: nat): nat
    requires shift <= 8
  {
    256 * Num(shift) - 1
  }

  /** One more than the last input that gets output level i, were it not for the levels before. */
  function Bound(gamma: Curve, shift: nat, i: nat): nat
    requires shift <= 8
  {
    (gamma(i * 257 + 128) * Largest(shift) + 32768) / 65535 + 1
  }

  /** e is 257 * i for the first level i whose bound is above v, and 65535 when there is none below 255. */
  ghost predicate IsEntry(gamma: Curve, shift: nat, v: nat, e: nat)
    requires shift <= 8
  {
    || (e == 65535 && forall j :: 0 <= j < 255 ==> Bound(gamma, shift, j) <= v)
    || exists i :: 0 <= i < 255 && FirstAbove(gamma, shift, v, i) && e == i * 257
  }

  ghost predicate FirstAbove(gamma: Curve, shift: nat, v: nat, i: nat)
    requires shift <= 8
  {
    v < Bound(gamma, shift, i) && forall j :: 0 <= j < i ==> Bound(gamma, shift, j) <= v
  }

  /** Neither the product nor the bound needs more than 32 bits, and no bound is past the table. */
  lemma BoundFits(gamma: Curve, shift: nat, i: nat)
    requires shift <= 8 && i < 255 && SixteenBit(gamma)
    ensures gamma(i * 257 + 128) * Largest(shift) + 32768 < 0x1_0000_0000
    ensures 1 <= Bound(gamma, shift, i) <= Num(shift) * 256
  {
    var g, m := gamma(i * 257 + 128), Largest(shift);
    assert g <= 65535 && m <= 65535;
    Products(g, m);
  }

  lemma Products(g: nat, m: nat)
    requires g <= 65535 && m <= 65535
    ensures g * m + 32768 < 0x1_0000_0000 && (g * m + 32768) / 65535 <= m
  {
    assert g * m <= 65535 * m;
  }

  /** The cell of input v: subtable v & (0xff >> shift), place v >> (8 - shift). */
  function Cell(v: nat, shift: nat): (c: (nat, nat))
    requires shift <= 8 && v < Num(shift) * 256
    ensures c.0 < Num(shift) && c.1 < 256 && v == c.1 * Num(shift) + c.0
  {
    (v % Num(shift), v / Num(shift))
  }

  /** The same on words, as the source has it, for each shift. */
  function MaskCell(v: bv16, shift: nat): (bv16, bv16)
    requires shift <= 8
  {
    match shift
    case 0 => (v & (0xff >> 0), v >> 8)
    case 1 => (v & (0xff >> 1), v >> 7)
    case 2 => (v & (0xff >> 2), v >> 6)
    case 3 => (v & (0xff >> 3), v >> 5)
    case 4 => (v & (0xff >> 4), v >> 4)
    case 5 => (v & (0xff >> 5), v >> 3)
    case 6 => (v & (0xff >> 6), v >> 2)
    case 7 => (v & (0xff >> 7), v >> 1)
    case _ => (v & (0xff >> 8), v >> 0)
  }

  // Shift by shift, quotient and remainder of the input; with more than 16 - shift bits it is not in the table.

  lemma CellFrom(lo: nat, hi: nat, v: nat, shift: nat)
    requires shift <= 8 && v < Num(shift) * 256 && lo < Num(shift) && v == hi * Num(shift) + lo
    ensures Cell(v, shift) == (lo, hi)
  {
    DivModOf(lo, hi, Num(shift));
  }

  lemma CellBits0(v: bv16)
    requires v as nat < Num(0) * 256
    ensures Cell(v as nat, 0) == (MaskCell(v, 0).0 as nat, MaskCell(v, 0).1 as nat)
  {
    assert v & 255 <= 255;
    CellFrom((v & 255) as nat, (v >> 8) as nat, v as nat, 0);
    hide Cell;
  }

  lemma CellBits1(v: bv16)
    requires v < 32768 && v as nat < Num(1) * 256
    ensures Cell(v as nat, 1) == (MaskCell(v, 1).0 as nat, MaskCell(v, 1).1 as nat)
  {
    assert v & 127 <= 127;
    CellFrom((v & 127) as nat, (v >> 7) as nat, v as nat, 1);
    hide Cell;
  }

  lemma CellBits2(v: bv16)
    requires v < 16384 && v as nat < Num(2) * 256
    ensures Cell(v as nat, 2) == (MaskCell(v, 2).0 as nat, MaskCell(v, 2).1 as nat)
  {
    assert v & 63 <= 63;
    CellFrom((v & 63) as nat, (v >> 6) as nat, v as nat, 2);
    hide Cell;
  }

  lemma CellBits3(v: bv16)
    requires v < 8192 && v as nat < Num(3) * 256
    ensures Cell(v as nat, 3) == (MaskCell(v, 3).0 as nat, MaskCell(v, 3).1 as nat)
  {
    assert v & 31 <= 31;
    CellFrom((v & 31) as nat, (v >> 5) as nat, v as nat, 3);
    hide Cell;
  }

  lemma CellBits4(v: bv16)
    requires v < 4096 && v as nat < Num(4) * 256
    ensures Cell(v as nat, 4) == (MaskCell(v, 4).0 as nat, MaskCell(v, 4).1 as nat)
  {
    assert v & 15 <= 15;
    CellFrom((v & 15) as nat, (v >> 4) as nat, v as nat, 4);
    hide Cell;
  }

  lemma CellBits5(v: bv16)
    requires v < 2048 && v as nat < Num(5) * 256
    ensures Cell(v as nat, 5) == (MaskCell(v, 5).0 as nat, MaskCell(v, 5).1 as nat)
  {
    assert v & 7 <= 7;
    CellFrom((v & 7) as nat, (v >> 3) as nat, v as nat, 5);
    hide Cell;
  }

  lemma CellBits6(v: bv16)
    requires v < 1024 && v as nat < Num(6) * 256
    ensures Cell(v as nat, 6) == (MaskCell(v, 6).0 as nat, MaskCell(v, 6).1 as nat)
  {
    assert v & 3 <= 3;
    CellFrom((v & 3) as nat, (v >> 2) as nat, v as nat, 6);
    hide Cell;
  }

  lemma CellBits7(v: bv16)
    requires v < 512 && v as nat < Num(7) * 256
    ensures Cell(v as nat, 7) == (MaskCell(v, 7).0 as nat, MaskCell(v, 7).1 as nat)
  {
    assert v & 1 <= 1;
    CellFrom((v & 1) as nat, (v >> 1) as nat, v as nat, 7);
    hide Cell;
  }

  lemma CellBits8(v: bv16)
    requires v < 256 && v as nat < Num(8) * 256
    ensures Cell(v as nat, 8) == (MaskCell(v, 8).0 as nat, MaskCell(v, 8).1 as nat)
  {
    assert v & 0 <= 0;
    CellFrom((v & 0) as nat, (v >> 0) as nat, v as nat, 8);
    hide Cell;
  }

  /** Mask and shift pick the cell. */
  lemma CellBits(v: bv16, shift: nat)
    requires shift <= 8 && v as nat < Num(shift) * 256
    ensures Cell(v as nat, shift) == (MaskCell(v, shift).0 as nat, MaskCell(v, shift).1 as nat)
  {
    hide MaskCell, Cell;
    match shift {
      case 0 => CellBits0(v);
      case 1 => CellBits1(v);
      case 2 => CellBits2(v);
      case 3 => CellBits3(v);
      case 4 => CellBits4(v);
      case 5 => CellBits5(v);
      case 6 => CellBits6(v);
      case 7 => CellBits7(v);
      case _ => CellBits8(v);
    }
  }

  lemma CellsDiffer(v: nat, w: nat, shift: nat)
    requires shift <= 8 && v < Num(shift) * 256 && w < Num(shift) * 256 && v != w
    ensures Cell(v, shift) != Cell(w, shift)
  {
    assert v == Cell(v, shift).1 * Num(shift) + Cell(v, shift).0;
    assert w == Cell(w, shift).1 * Num(shift) + Cell(w, shift).0;
    hide Cell;
  }

  lemma CellInRange(a: nat, b: nat, shift: nat) returns (v: nat)
    requires shift <= 8 && a < Num(shift) && b < 256
    ensures v < Num(shift) * 256 && Cell(v, shift) == (a, b)
  {
    v := b * Num(shift) + a;
    Fits(a, b, Num(shift));
    DivModOf(a, b, Num(shift));
  }

  lemma Fits(a: nat, b: nat, n: nat)
    requires a < n && b < 256
    ensures b * n + a < n * 256
  {
    assert b * n <= 255 * n;
  }

  // --- The table --------------------------------------------------------------------------------

  ghost predicate Shaped(table: array<array<nat>>, shift: nat)
    reads table, table[..]
    requires shift <= 8
  {
    && table.Length == Num(shift)
    && (forall a :: 0 <= a < table.Length ==> table[a].Length == 256)
    && (forall a, b :: 0 <= a < b < table.Length ==> table[a] != table[b])
  }

  /** The value the table holds for input v. */
  function At(table: array<array<nat>>, shift: nat, v: nat): nat
    reads table, table[..]
    requires shift <= 8 && Shaped(table, shift) && v < Num(shift) * 256
  {
    table[Cell(v, shift).0][Cell(v, shift).1]
  }

  /** One assignment of the filling loops; log is the cells assigned so far. */
  method Put(table: array<array<nat>>, shift: nat, last: nat, e: nat, ghost log: seq<(nat, nat)>)
    returns (next: nat, ghost log': seq<(nat, nat)>)
    requires shift <= 8 && Shaped(table, shift) && last < Num(shift) * 256
    modifies table[..]
    ensures table[..] == old(table[..]) && Shaped(table, shift) && At(table, shift, last) == e
    ensures forall v :: 0 <= v < Num(shift) * 256 && v != last ==> At(table, shift, v) == old(At(table, shift, v))
    ensures next == last + 1 && log' == log + [Cell(last, shift)]
  {
    var c := Cell(last, shift);
    table[c.0][c.1] := e;
    next := last + 1;
    log' := log + [c];
    forall v | 0 <= v < Num(shift) * 256 && v != last
      ensures At(table, shift, v) == old(At(table, shift, v))
    {
      CellsDiffer(v, last, shift);
    }
  }

  /** The first last inputs are done, one cell each. */
  ghost predicate Logged(log: seq<(nat, nat)>, shift: nat, last: nat)
    requires shift <= 8
  {
    |log| == last <= Num(shift) * 256 && forall v :: 0 <= v < last ==> log[v] == Cell(v, shift)
  }

  /** Gives the value e to the inputs from last0 up to bound. */
  method Fill(table: array<array<nat>>, shift: nat, last0: nat, bound: nat, e: nat, ghost log0: seq<(nat, nat)>)
    returns (last: nat, ghost log: seq<(nat, nat)>)
    requires shift <= 8 && Shaped(table, shift) && last0 <= Num(shift) * 256 && bound <= Num(shift) * 256
    requires Logged(log0, shift, last0)
    modifies table[..]
    ensures table[..] == old(table[..]) && Shaped(table, shift) && Logged(log, shift, last)
    ensures last == if last0 < bound then bound else last0
    ensures forall v :: 0 <= v < last0 ==> At(table, shift, v) == old(At(table, shift, v))
    ensures forall v :: last0 <= v < last ==> At(table, shift, v) == e
  {
    last, log := last0, log0;
    while last < bound
      invariant last0 <= last && (last0 < bound ==> last <= bound) && (last0 >= bound ==> last == last0)
      invariant table[..] == old(table[..]) && Shaped(table, shift) && Logged(log, shift, last)
      invariant forall v :: 0 <= v < last0 ==> At(table, shift, v) == old(At(table, shift, v))
      invariant forall v :: last0 <= v < last ==> At(table, shift, v) == e
    {
      hide At, Cell, Shaped;
      last, log := Put(table, shift, last, e, log);
    }
  }

  method Allocate(shift: nat) returns (table: array<array<nat>>)
    requires shift <= 8
    ensures fresh(table) && Shaped(table, shift) && forall a :: 0 <= a < table.Length ==> fresh(table[a])
  {
    var none := new nat[256];
    table := new array<nat>[Num(shift)](_ => none);
    var i := 0;
    while i < Num(shift)
      invariant 0 <= i <= Num(shift) == table.Length
      invariant forall a :: 0 <= a < i ==> fresh(table[a]) && table[a].Length == 256
      invariant forall a, b :: 0 <= a < b < i ==> table[a] != table[b]
    {
      table[i] := new nat[256];
      i := i + 1;
    }
  }

  /** png_build_16to8_table. */
  method Build16to8(gamma: Curve, shift: nat) returns (table: array<array<nat>>, ghost log: seq<(nat, nat)>)
    requires shift <= 8 && SixteenBit(gamma)
    ensures Shaped(table, shift)
    ensures forall v :: 0 <= v < Num(shift) * 256 ==> IsEntry(gamma, shift, v, At(table, shift, v))
    ensures Logged(log, shift, Num(shift) * 256)
  {
    table := Allocate(shift);
    var last, i := 0, 0;
    log := [];
    while i < 255
      invariant 0 <= i <= 255 && Shaped(table, shift) && Logged(log, shift, last)
      invariant fresh(table) && forall a :: 0 <= a < table.Length ==> fresh(table[a])
      invariant forall j :: 0 <= j < i ==> Bound(gamma, shift, j) <= last
      invariant forall v :: 0 <= v < last ==> EntryBy(gamma, shift, v, i, At(table, shift, v))
    {
      var level := i * 257;
      var bound := (gamma(level + 128) * Largest(shift) + 32768) / 65535 + 1;
      assert bound == Bound(gamma, shift, i);
      hide *;
      BoundFits(gamma, shift, i);
      ghost var before := last;
      last, log := Fill(table, shift, last, bound, level, log);
      forall v | 0 <= v < last ensures EntryBy(gamma, shift, v, i + 1, At(table, shift, v)) {
        if v < before {
          EntryStays(gamma, shift, v, i, At(table, shift, v));
        } else {
          EntryFound(gamma, shift, v, i);
        }
      }
      i := i + 1;
    }
    hide *;
    ghost var before := last;
    last, log := Fill(table, shift, last, Num(shift) * 256, 65535, log);
    forall v | 0 <= v < Num(shift) * 256 ensures IsEntry(gamma, shift, v, At(table, shift, v)) {
      EntryDone(gamma, shift, v, before, At(table, shift, v));
    }
  }

  /** What is known of an input filled in by one of the first n levels. */
  ghost predicate EntryBy(gamma: Curve, shift: nat, v: nat, n: nat, e: nat)
    requires shift <= 8
  {
    exists i :: 0 <= i < n && FirstAbove(gamma, shift, v, i) && e == i * 257
  }

  lemma EntryStays(gamma: Curve, shift: nat, v: nat, n: nat, e: nat)
    requires shift <= 8 && EntryBy(gamma, shift, v, n, e)
    ensures EntryBy(gamma, shift, v, n + 1, e)
  {
  }

  lemma EntryFound(gamma: Curve, shift: nat, v: nat, i: nat)
    requires shift <= 8 && v < Bound(gamma, shift, i) && forall j :: 0 <= j < i ==> Bound(gamma, shift, j) <= v
    ensures EntryBy(gamma, shift, v, i + 1, i * 257)
  {
    hide Bound;
    assert FirstAbove(gamma, shift, v, i);
  }

  lemma EntryDone(gamma: Curve, shift: nat, v: nat, last: nat, e: nat)
    requires shift <= 8 && forall j :: 0 <= j < 255 ==> Bound(gamma, shift, j) <= last
    requires if v < last then EntryBy(gamma, shift, v, 255, e) else e == 65535
    ensures IsEntry(gamma, shift, v, e)
  {
    hide Bound;
  }

  // --- What the table means ---------------------------------------------------------------------

  /** There is exactly one right entry for each input. */
  lemma EntryIsUnique(gamma: Curve, shift: nat, v: nat, e: nat, f: nat)
    requires shift <= 8 && IsEntry(gamma, shift, v, e) && IsEntry(gamma, shift, v, f)
    ensures e == f
  {
    hide Bound;
  }

  /** A larger input never gets a smaller output, whatever the curve. */
  lemma EntriesAscend(gamma: Curve, shift: nat, v: nat, w: nat, e: nat, f: nat)
    requires shift <= 8 && v <= w && IsEntry(gamma, shift, v, e) && IsEntry(gamma, shift, w, f)
    ensures e <= f <= 65535
  {
    hide Bound;
  }

  lemma Sizes(shift: nat)
    requires shift <= 8
    ensures Num(shift) == Pow2(8 - shift) && Largest(shift) == Pow2(16 - shift) - 1
  {
    assert Pow2(4) == 16 && Pow2(8) == 256 && Pow2(12) == 4096 && Pow2(16) == 65536;
  }

  /** Scaled to the largest input, the curve's boundary above level i is not below v, give or take half an input
      step. */
  predicate Reaches(gamma: Curve, shift: nat, v: nat, i: nat)
    requires shift <= 8
  {
    65535 * v <= gamma(257 * i + 128) * (Pow2(16 - shift) - 1) + 32768
  }

  /** The entry of an input, for every curve: the first level whose boundary reaches it, and 255 if none does. */
  lemma EntryMeans(gamma: Curve, shift: nat, v: nat, e: nat)
    requires shift <= 8
    ensures IsEntry(gamma, shift, v, e) <==>
              || (e == 65535 && forall j :: 0 <= j < 255 ==> !Reaches(gamma, shift, v, j))
              || exists i :: 0 <= i < 255 && e == 257 * i && Reaches(gamma, shift, v, i)
                             && forall j :: 0 <= j < i ==> !Reaches(gamma, shift, v, j)
  {
    forall i: nat ensures v < Bound(gamma, shift, i) <==> Reaches(gamma, shift, v, i) {
      BoundReaches(gamma, shift, v, i);
    }
    hide Bound, Reaches;
    if e == 65535 && forall j :: 0 <= j < 255 ==> Bound(gamma, shift, j) <= v {
      assert forall j :: 0 <= j < 255 ==> !Reaches(gamma, shift, v, j);
    }
    if i :| 0 <= i < 255 && e == 257 * i && Reaches(gamma, shift, v, i)
            && forall j :: 0 <= j < i ==> !Reaches(gamma, shift, v, j) {
      assert FirstAbove(gamma, shift, v, i);
    }
  }

  lemma BoundReaches(gamma: Curve, shift: nat, v: nat, i: nat)
    requires shift <= 8
    ensures v < Bound(gamma, shift, i) <==> Reaches(gamma, shift, v, i)
  {
    Sizes(shift);
    var y := gamma(i * 257 + 128) * Largest(shift) + 32768;
    hide Largest, Pow2;
    assert v < y / 65535 + 1 <==> 65535 * v <= y;
  }

  /** With 16-bit input the boundary is the curve itself. */
  lemma ReachesFullRange(gamma: Curve, v: nat, i: nat)
    ensures Reaches(gamma, 0, v, i) <==> v <= gamma(257 * i + 128)
  {
    Sizes(0);
    var g := gamma(257 * i + 128);
    assert g * 65535 <= g * 65535 + 32768 < (g + 1) * 65535;
    hide Pow2;
  }

  /** With the curve that squares, input 16384 gets level 128. */
  lemma SquareEntry()
    ensures IsEntry((x: nat) => x * x / 65535, 0, 16384, 128 * 257)
  {
    var gamma: Curve := (x: nat) => x * x / 65535;
    forall j: nat ensures Reaches(gamma, 0, 16384, j) <==> 16384 <= gamma(257 * j + 128) {
      ReachesFullRange(gamma, 16384, j);
    }
    forall j: nat | j < 128 ensures gamma(257 * j + 128) < 16384 { SquaresGrow(257 * j + 128, 257 * 127 + 128); }
    EntryMeans(gamma, 0, 16384, 128 * 257);
    hide Reaches, IsEntry;
    assert Reaches(gamma, 0, 16384, 128);
    assert forall j: nat :: j < 128 ==> !Reaches(gamma, 0, 16384, j);
  }

  lemma SquaresGrow(x: nat, y: nat)
    requires x <= y
    ensures x * x / 65535 <= y * y / 65535
  {
    assert x * x <= x * y <= y * y;
  }

  // --- Without gamma ----------------------------------------------------------------------------

  const IDENTITY: Curve := (x: nat) => x

  /** How far level i is above input v, where the largest input is m; the unit is the 65535 * m-th part of full
      scale. */
  function Above(m: nat, v: nat, i: int): int { i * (257 * m) - 65535 * v }

  /** No 8-bit level is nearer to v than level i. */
  ghost predicate NearestLevel(m: nat, v: nat, i: int) {
    forall j :: 0 <= j <= 255 ==> Abs(Above(m, v, i)) <= Abs(Above(m, v, j))
  }

  /** How far v is above the last level that is not above it. */
  function Rest(m: nat, v: nat): nat
    requires m > 0
  {
    65535 * v % (257 * m)
  }

  /** The level the table gives to v. */
  function LevelOf(m: nat, v: nat): nat
    requires m > 0
  {
    65535 * v / (257 * m) + if Rest(m, v) <= 128 * m + 32768 then 0 else 1
  }

  lemma MaxIs(shift: nat)
    requires shift <= 8
    ensures 255 <= Largest(shift) <= 65535
  {
  }

  lemma Order(i: int, j: int, d: nat)
    requires i <= j
    ensures i * d <= j * d
  {
    assert (j - i) * d >= 0;
  }

  lemma LevelParts(m: nat, v: nat)
    requires 255 <= m && v <= m
    ensures var r := Rest(m, v);
            && 0 <= r < 257 * m && LevelOf(m, v) <= 255
            && Above(m, v, LevelOf(m, v)) == if r <= 128 * m + 32768 then 0 - r else 257 * m - r
  {
    var d := 257 * m;
    var q, r := 65535 * v / d, Rest(m, v);
    assert 65535 * v == q * d + r;
    assert (q + 1) * d == q * d + d;
    if q >= 255 { Order(255, q, d); }
    if q >= 256 { Order(256, q, d); }
  }

  /** A bound is above v exactly when its level is less than 128 and a half below v. */
  lemma BoundMeans(shift: nat, v: nat, i: nat)
    requires shift <= 8
    ensures var m := Largest(shift); v < Bound(IDENTITY, shift, i) <==> 0 - Above(m, v, i) <= 128 * m + 32768
  {
    var m := Largest(shift);
    var y := (i * 257 + 128) * m + 32768;
    assert y == i * (257 * m) + 128 * m + 32768 by {
      assert (i * 257 + 128) * m == (i * 257) * m + 128 * m && (i * 257) * m == i * (257 * m);
    }
    hide Largest;
    assert v < y / 65535 + 1 <==> 65535 * v <= y;
  }

  lemma LevelsBelow(m: nat, v: nat, j: nat)
    requires 255 <= m && v <= m && j < LevelOf(m, v)
    ensures 0 - Above(m, v, j) > 128 * m + 32768
  {
    LevelParts(m, v);
    Order(j, LevelOf(m, v) - 1, 257 * m);
    assert (LevelOf(m, v) - 1) * (257 * m) == LevelOf(m, v) * (257 * m) - 257 * m;
    hide LevelOf, Rest;
  }

  lemma IdentityEntry(shift: nat, v: nat, e: nat)
    requires shift <= 8 && v <= Largest(shift) && IsEntry(IDENTITY, shift, v, e)
    ensures e == 257 * LevelOf(Largest(shift), v)
  {
    var m := Largest(shift);
    MaxIs(shift);
    hide Largest, Bound, LevelOf, Rest;
    var i := LevelOf(m, v);
    LevelParts(m, v);
    BoundMeans(shift, v, i);
    forall j: nat | j < i ensures Bound(IDENTITY, shift, j) <= v {
      BoundMeans(shift, v, j);
      LevelsBelow(m, v, j);
    }
    assert i < 255 ==> FirstAbove(IDENTITY, shift, v, i);
    assert IsEntry(IDENTITY, shift, v, i * 257);
    EntryIsUnique(IDENTITY, shift, v, e, i * 257);
  }

  lemma OtherLevels(m: nat, v: nat, i: nat, j: nat)
    ensures j > i ==> Above(m, v, j) >= Above(m, v, i) + 257 * m
    ensures j < i ==> Above(m, v, j) <= Above(m, v, i) - 257 * m
  {
    var d := 257 * m;
    assert (i + 1) * d == i * d + d && (j + 1) * d == j * d + d;
    if j > i { Order(i + 1, j, d); } else if j < i { Order(j + 1, i, d); }
  }

  /** Without gamma, for every shift: an input gets a nearest 8-bit level, unless its distance above the last level
      below it is more than half a level but no more than 128/257 of a level and half an input step: then it gets that
      level, though the next one is nearer. No input is farther than that above its level. */
  lemma IdentityRounds(shift: nat, v: nat, e: nat)
    requires shift <= 8 && v <= Largest(shift) && IsEntry(IDENTITY, shift, v, e)
    ensures var m := Largest(shift); var r := Rest(m, v);
            && e % 257 == 0 && e / 257 <= 255
            && (NearestLevel(m, v, e / 257) <==> !(257 * m < 2 * r <= 256 * m + 65536))
            && 0 - (128 * m + 32768) <= Above(m, v, e / 257) < 129 * m - 32768
  {
    var m := Largest(shift);
    MaxIs(shift);
    IdentityEntry(shift, v, e);
    LevelParts(m, v);
    hide Largest, LevelOf, Rest;
    var i, r := LevelOf(m, v), Rest(m, v);
    assert e == 257 * i && e / 257 == i;
    LevelIsNearest(m, v, i);
  }

  lemma LevelIsNearest(m: nat, v: nat, i: nat)
    requires 255 <= m <= 65535 && v <= m && i == LevelOf(m, v)
    ensures NearestLevel(m, v, i) <==> !(257 * m < 2 * Rest(m, v) <= 256 * m + 65536)
  {
    LevelParts(m, v);
    forall j: nat ensures (j > i ==> Above(m, v, j) >= Above(m, v, i) + 257 * m)
                       && (j < i ==> Above(m, v, j) <= Above(m, v, i) - 257 * m) {
      OtherLevels(m, v, i, j);
    }
    if 257 * m < 2 * Rest(m, v) <= 256 * m + 65536 {
      LastLevel(m, v);
      hide Above, Rest;
      NextIsNearer(m, v, i);
    } else {
      hide Above, Rest, LevelOf;
    }
  }

  lemma NextIsNearer(m: nat, v: nat, i: nat)
    requires i < 255 && 0 - 257 * m < Above(m, v, i) && 2 * Above(m, v, i) < 0 - 257 * m
    ensures !NearestLevel(m, v, i)
  {
    assert Above(m, v, i + 1) == Above(m, v, i) + 257 * m by { assert (i + 1) * (257 * m) == i * (257 * m) + 257 * m; }
    hide Above;
    assert Abs(Above(m, v, i + 1)) < Abs(Above(m, v, i));
  }

  lemma LastLevel(m: nat, v: nat)
    requires 255 <= m && v <= m && Rest(m, v) > 0
    ensures 65535 * v / (257 * m) < 255
  {
    var d := 257 * m;
    var q := 65535 * v / d;
    assert 65535 * v == q * d + Rest(m, v);
    if q >= 255 { Order(255, q, d); }
  }

  /** With 16-bit input every sample is rounded to the nearest level, at most 128 away. */
  lemma FullRangeRounds(v: nat, e: nat)
    requires v <= 65535 && IsEntry(IDENTITY, 0, v, e)
    ensures NearestLevel(65535, v, e / 257) && v - 128 <= e <= v + 128
  {
    hide Bound, LevelOf, NearestLevel;
    IdentityRounds(0, v, e);
    var q := v / 257;
    DivisionOf(65535 * v, 257 * 65535, q, 65535 * (v % 257));
  }

  lemma DivisionOf(x: nat, d: nat, q: nat, r: nat)
    requires x == q * d + r && r < d
    ensures x % d == r
  {
    DivModOf(r, q, d);
  }

  /** A sample that does not get the nearest level: with 9-bit input 258 gets 128, though 129 is nearer. */
  lemma NotNearest()
    ensures IsEntry(IDENTITY, 7, 258, 128 * 257) && !NearestLevel(Largest(7), 258, 128)
  {
    assert forall j :: 0 <= j < 128 ==> Bound(IDENTITY, 7, j) <= Bound(IDENTITY, 7, 127) <= 258;
    assert FirstAbove(IDENTITY, 7, 258, 128);
    assert Abs(Above(511, 258, 129)) < Abs(Above(511, 258, 128));
  }

  /** The log of a whole run names every cell of the table, and none twice. */
  lemma EveryCellOnce(shift: nat, log: seq<(nat, nat)>, a: nat, b: nat)
    requires shift <= 8 && Logged(log, shift, Num(shift) * 256) && a < Num(shift) && b < 256
    ensures exists v :: 0 <= v < |log| && log[v] == (a, b) && forall w :: 0 <= w < |log| && w != v ==> log[w] != (a, b)
  {
    var v := CellInRange(a, b, shift);
    forall w | 0 <= w < |log| && w != v ensures log[w] != (a, b) { CellsDiffer(v, w, shift); }
    hide Cell;
    assert log[v] == (a, b);
  }
}
