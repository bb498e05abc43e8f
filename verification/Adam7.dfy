/** The interlace macros of png.h, written with the bit operations of the source, and the tables of the
    push reader that must agree with them (Adam7, section 2.6 of RFC 2083). */
module Adam7 {
  import opened Common

  const PASS_START: seq<nat> := [0, 4, 0, 2, 0, 1, 0]
  const PASS_INC: seq<nat> := [8, 8, 4, 4, 2, 2, 1]
  const PASS_YSTART: seq<nat> := [0, 0, 4, 0, 2, 0, 1]
  const PASS_YINC: seq<nat> := [8, 8, 8, 4, 4, 2, 2]

  function StartRow(pass: nat): nat
    requires pass < 7
  {
    var p := pass as bv32;
    (((1 & !p) << (3 - (p >> 1))) & 7) as nat
  }

  function StartCol(pass: nat): nat
    requires pass < 7
  {
    var p := pass as bv32;
    (((1 & p) << (3 - ((p + 1) >> 1))) & 7) as nat
  }

  function RowOffset(pass: nat): nat
    requires pass < 7
  {
    var p := pass as bv32;
    (if pass > 2 then (8 as bv32) >> ((p - 1) >> 1) else 8) as nat
  }

  function ColOffset(pass: nat): nat
    requires pass < 7
  {
    var p := pass as bv32;
    ((1 as bv32) << ((7 - p) >> 1)) as nat
  }

  function RowShift(pass: nat): nat
    requires pass < 7
  {
    if pass > 2 then ((8 - pass as bv32) >> 1) as nat else 3
  }

  function ColShift(pass: nat): nat
    requires pass < 7
  {
    if pass > 1 then ((7 - pass as bv32) >> 1) as nat else 3
  }

  /** PNG_PASS_ROWS */
  function PassRows(height: nat, pass: nat): int
    requires pass < 7
  {
    (height + (Pow2(RowShift(pass)) - 1 - StartRow(pass))) / Pow2(RowShift(pass))
  }

  /** PNG_PASS_COLS */
  function PassCols(width: nat, pass: nat): int
    requires pass < 7
  {
    (width + (Pow2(ColShift(pass)) - 1 - StartCol(pass))) / Pow2(ColShift(pass))
  }

  function RowFromPassRow(y: nat, pass: nat): nat
    requires pass < 7
  {
    y * Pow2(RowShift(pass)) + StartRow(pass)
  }

  function ColFromPassCol(x: nat, pass: nat): nat
    requires pass < 7
  {
    x * Pow2(ColShift(pass)) + StartCol(pass)
  }

  function PassMask(pass: nat, off: nat): bv32
    requires pass < 7 && off < 2
  {
    var s := ((7 - off) - pass) * 4;
    ((0x110145AF as bv32 >> s) & 0xF) | ((0x01145AF0 as bv32 >> s) & 0xF0)
  }

  predicate RowInPass(y: nat, pass: nat)
    requires pass < 7
  {
    (PassMask(pass, 0) >> (y % 8)) & 1 == 1
  }

  predicate ColInPass(x: nat, pass: nat)
    requires pass < 7
  {
    (PassMask(pass, 1) >> (x % 8)) & 1 == 1
  }

  // --- Macros against tables --------------------------------------------------------------------

  /** Every macro agrees with the reader's tables, in every pass. */
  lemma MacrosMatchTables(pass: nat)
    requires pass < 7
    ensures StartRow(pass) == PASS_YSTART[pass] && StartCol(pass) == PASS_START[pass]
    ensures Pow2(RowShift(pass)) == RowOffset(pass) == PASS_YINC[pass]
    ensures Pow2(ColShift(pass)) == ColOffset(pass) == PASS_INC[pass]
  {
    var three := Pow2(3);
    if pass == 0 {} else if pass == 1 {} else if pass == 2 {} else if pass == 3 {
    } else if pass == 4 {} else if pass == 5 {} else {}
  }

  lemma RowMask(pass: nat, r: nat)
    requires pass < 7 && r < 8
    ensures RowInPass(r, pass) == (r % PASS_YINC[pass] == PASS_YSTART[pass])
  {
    if pass == 0 {} else if pass == 1 {} else if pass == 2 {} else if pass == 3 {
    } else if pass == 4 {} else if pass == 5 {} else {}
  }

  lemma ColMask(pass: nat, c: nat)
    requires pass < 7 && c < 8
    ensures ColInPass(c, pass) == (c % PASS_INC[pass] == PASS_START[pass])
  {
    if pass == 0 {} else if pass == 1 {} else if pass == 2 {} else if pass == 3 {
    } else if pass == 4 {} else if pass == 5 {} else {}
  }

  lemma ModMod8(y: nat, m: nat)
    requires m == 1 || m == 2 || m == 4 || m == 8
    ensures y % 8 % m == y % m
  {
  }

  /** A row is in a pass just when the pass reaches it from its start in steps of its increment. */
  lemma RowInPassMeans(y: nat, pass: nat)
    requires pass < 7
    ensures RowInPass(y, pass) == (y % PASS_YINC[pass] == PASS_YSTART[pass])
  {
    RowMask(pass, y % 8);
    ModMod8(y, PASS_YINC[pass]);
    assert RowInPass(y, pass) == RowInPass(y % 8, pass) by { hide PassMask; assert y % 8 % 8 == y % 8; }
  }

  lemma ColInPassMeans(x: nat, pass: nat)
    requires pass < 7
    ensures ColInPass(x, pass) == (x % PASS_INC[pass] == PASS_START[pass])
  {
    ColMask(pass, x % 8);
    ModMod8(x, PASS_INC[pass]);
    assert ColInPass(x, pass) == ColInPass(x % 8, pass) by { hide PassMask; assert x % 8 % 8 == x % 8; }
  }

  lemma Counting(n: nat, inc: nat, start: nat, k: nat)
    requires inc == 1 || inc == 2 || inc == 4 || inc == 8
    requires start < inc
    ensures k < (n + (inc - 1 - start)) / inc <==> k * inc + start < n
    ensures (n + (inc - 1 - start)) / inc == (n + inc - 1 - start) / inc
  {
  }

  /** PNG_PASS_ROWS counts exactly the pass rows that land inside the image, and is what the reader computes. */
  lemma PassRowsCount(height: nat, pass: nat, k: nat)
    requires pass < 7
    ensures k < PassRows(height, pass) <==> RowFromPassRow(k, pass) < height
    ensures PassRows(height, pass) == (height + PASS_YINC[pass] - 1 - PASS_YSTART[pass]) / PASS_YINC[pass]
    ensures RowFromPassRow(k, pass) == k * PASS_YINC[pass] + PASS_YSTART[pass]
  {
    MacrosMatchTables(pass);
    hide *;
    Counting(height, PASS_YINC[pass], PASS_YSTART[pass], k);
    Unfold(height, height, pass, k, k);
  }

  lemma PassColsCount(width: nat, pass: nat, k: nat)
    requires pass < 7
    ensures k < PassCols(width, pass) <==> ColFromPassCol(k, pass) < width
    ensures PassCols(width, pass) == (width + PASS_INC[pass] - 1 - PASS_START[pass]) / PASS_INC[pass]
    ensures ColFromPassCol(k, pass) == k * PASS_INC[pass] + PASS_START[pass]
  {
    MacrosMatchTables(pass);
    hide *;
    Counting(width, PASS_INC[pass], PASS_START[pass], k);
    Unfold(width, width, pass, k, k);
  }

  lemma Unfold(height: nat, width: nat, pass: nat, y: nat, x: nat)
    requires pass < 7
    ensures PassRows(height, pass) == (height + (Pow2(RowShift(pass)) - 1 - StartRow(pass))) / Pow2(RowShift(pass))
    ensures PassCols(width, pass) == (width + (Pow2(ColShift(pass)) - 1 - StartCol(pass))) / Pow2(ColShift(pass))
    ensures RowFromPassRow(y, pass) == y * Pow2(RowShift(pass)) + StartRow(pass)
    ensures ColFromPassCol(x, pass) == x * Pow2(ColShift(pass)) + StartCol(pass)
  {
    hide StartRow, StartCol, RowShift, ColShift, Pow2;
  }

  // --- The seven passes partition the image -----------------------------------------------------

  /** Pixel (x, y) is pixel (c, r) of the given pass. */
  predicate Covers(width: nat, height: nat, pass: nat, r: nat, c: nat, x: nat, y: nat) {
    pass < 7 && r < PassRows(height, pass) && c < PassCols(width, pass) &&
    RowFromPassRow(r, pass) == y && ColFromPassCol(c, pass) == x
  }

  /** The one pass whose masks hold the pixel. */
  function PassOf(x: nat, y: nat): (p: nat)
    ensures p < 7
  {
    if y % 2 == 1 then 6
    else if x % 2 == 1 then 5
    else if y % 4 == 2 then 4
    else if x % 4 == 2 then 3
    else if y % 8 == 4 then 2
    else if x % 8 == 4 then 1
    else 0
  }

  /** The pattern of section 2.6 of RFC 2083, which counts the passes from 1. */
  const PATTERN: seq<seq<nat>> := [
    [1, 6, 4, 6, 2, 6, 4, 6],
    [7, 7, 7, 7, 7, 7, 7, 7],
    [5, 6, 5, 6, 5, 6, 5, 6],
    [7, 7, 7, 7, 7, 7, 7, 7],
    [3, 6, 4, 6, 3, 6, 4, 6],
    [7, 7, 7, 7, 7, 7, 7, 7],
    [5, 6, 5, 6, 5, 6, 5, 6],
    [7, 7, 7, 7, 7, 7, 7, 7]]

  lemma PatternRow(y: nat)
    requires y < 8
    ensures |PATTERN[y]| == 8
  {
  }

  lemma PassOfSmall(x: nat, y: nat)
    requires x < 8 && y < 8
    ensures |PATTERN[y]| == 8 && PATTERN[y][x] == PassOf(x, y) + 1
  {
    PatternRow(y);
  }

  /** The pattern repeats over the image. */
  lemma PassOfIsPattern(x: nat, y: nat)
    ensures |PATTERN[y % 8]| == 8 && PATTERN[y % 8][x % 8] == PassOf(x, y) + 1
  {
    PassOfSmall(x % 8, y % 8);
    Remainders(x);
    Remainders(y);
    Remainders(x % 8);
    Remainders(y % 8);
    hide PATTERN;
  }

  lemma PassOfIsMask(x: nat, y: nat, pass: nat)
    requires pass < 7
    ensures (RowInPass(y, pass) && ColInPass(x, pass)) <==> pass == PassOf(x, y)
  {
    RowInPassMeans(y, pass);
    ColInPassMeans(x, pass);
    hide RowInPass, ColInPass;
    ByRemainders(x, y, pass);
  }

  /** How the remainders by 2, 4 and 8 hang together. */
  lemma Remainders(y: nat)
    ensures y % 2 == 1 <==> y % 4 == 1 || y % 4 == 3
    ensures y % 4 == 0 <==> y % 8 == 0 || y % 8 == 4
    ensures y % 2 == 0 || y % 2 == 1
    ensures 0 <= y % 4 < 4
  {
    var q, m := y / 8, y % 8;
    DivModOf(m % 4, 2 * q + m / 4, 4);
    DivModOf(m % 2, 4 * q + m / 2, 2);
    assert m == m / 4 * 4 + m % 4 == m / 2 * 2 + m % 2;
  }

  lemma ByRemainders(x: nat, y: nat, pass: nat)
    requires pass < 7
    ensures (y % PASS_YINC[pass] == PASS_YSTART[pass] && x % PASS_INC[pass] == PASS_START[pass])
            <==> pass == PassOf(x, y)
  {
    Remainders(x);
    Remainders(y);
    Remainder(x, 1, 0);
    assert x * 1 + 0 == x;
    match pass
    case 0 => assert PASS_YINC[0] == 8 && PASS_INC[0] == 8;
    case 1 => assert PASS_YINC[1] == 8 && PASS_INC[1] == 8;
    case 2 => assert PASS_YINC[2] == 8 && PASS_INC[2] == 4;
    case 3 => assert PASS_YINC[3] == 4 && PASS_INC[3] == 4;
    case 4 => assert PASS_YINC[4] == 4 && PASS_INC[4] == 2;
    case 5 => assert PASS_YINC[5] == 2 && PASS_INC[5] == 2;
    case 6 => assert PASS_YINC[6] == 2 && PASS_INC[6] == 1;
  }

  lemma Remainder(k: nat, inc: nat, start: nat)
    requires start < inc
    ensures (k * inc + start) % inc == start && (k * inc + start) / inc == k
  {
    DivModOf(start, k, inc);
  }

  lemma PixelIsCovered(width: nat, height: nat, x: nat, y: nat)
    requires x < width && y < height
    ensures var p := PassOf(x, y); Covers(width, height, p, y / PASS_YINC[p], x / PASS_INC[p], x, y)
  {
    var p := PassOf(x, y);
    ByRemainders(x, y, p);
    hide PassOf, PassRows, PassCols, RowFromPassRow, ColFromPassCol;
    PassRowsCount(height, p, y / PASS_YINC[p]);
    PassColsCount(width, p, x / PASS_INC[p]);
    Rejoin(y, PASS_YINC[p], PASS_YSTART[p]);
    Rejoin(x, PASS_INC[p], PASS_START[p]);
  }

  lemma PixelIsCoveredOnce(width: nat, height: nat, p: nat, r: nat, c: nat, x: nat, y: nat)
    requires Covers(width, height, p, r, c, x, y)
    ensures p == PassOf(x, y) && r == y / PASS_YINC[p] && c == x / PASS_INC[p]
  {
    hide PassOf, PassRows, PassCols, RowFromPassRow, ColFromPassCol;
    PassRowsCount(height, p, r);
    PassColsCount(width, p, c);
    Remainder(r, PASS_YINC[p], PASS_YSTART[p]);
    Remainder(c, PASS_INC[p], PASS_START[p]);
    ByRemainders(x, y, p);
  }

  /** The row and column macros map the (pass, row, column) triples one-to-one onto the pixels of the image,
      and the pass of a pixel is the one its masks name. */
  lemma PassesPartitionImage(width: nat, height: nat, x: nat, y: nat)
    requires x < width && y < height
    ensures RowInPass(y, PassOf(x, y)) && ColInPass(x, PassOf(x, y))
    ensures var p := PassOf(x, y); Covers(width, height, p, y / PASS_YINC[p], x / PASS_INC[p], x, y)
    ensures forall p: nat, r: nat, c: nat :: Covers(width, height, p, r, c, x, y) ==>
              p == PassOf(x, y) && r == y / PASS_YINC[p] && c == x / PASS_INC[p]
  {
    hide PassOf, Covers, RowInPass, ColInPass;
    PassOfIsMask(x, y, PassOf(x, y));
    PixelIsCovered(width, height, x, y);
    forall p: nat, r: nat, c: nat | Covers(width, height, p, r, c, x, y)
      ensures p == PassOf(x, y) && r == y / PASS_YINC[PassOf(x, y)] && c == x / PASS_INC[PassOf(x, y)]
    {
      PixelIsCoveredOnce(width, height, p, r, c, x, y);
    }
  }

  lemma Rejoin(y: nat, inc: nat, start: nat)
    requires inc > 0 && y % inc == start
    ensures y / inc * inc + start == y
  {
  }

  /** And no triple lands outside the image. */
  lemma CoversOnlyImage(width: nat, height: nat, pass: nat, r: nat, c: nat)
    requires pass < 7 && r < PassRows(height, pass) && c < PassCols(width, pass)
    ensures RowFromPassRow(r, pass) < height && ColFromPassCol(c, pass) < width
  {
    PassRowsCount(height, pass, r);
    PassColsCount(width, pass, c);
  }
}
