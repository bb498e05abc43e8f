/** The row sequencer of the push reader: which (pass, row) pairs reach the application's row callback, and
    how many decompressed rows that takes. */
module PngRows {
  import opened Adam7

  /** One row callback; blank when the row pointer is NULL. */
  datatype RowCall = RowCall(pass: nat, row: nat, blank: bool)

  /** An image of at least one pixel; transform is the PNG_INTERLACE transformation, which blows every pass of an
      interlaced image up to full size. */
  datatype Image = Image(width: nat, height: nat, interlaced: bool, transform: bool)

  predicate Sized(im: Image) { im.width >= 1 && im.height >= 1 }

  /** Passes that are visited at all. */
  predicate Visited(im: Image, p: nat)
    requires p < 7
  {
    PassCols(im.width, p) > 0 && (im.transform || PassRows(im.height, p) > 0)
  }

  function RowsOf(im: Image, p: nat): int
    requires p < 7
  {
    if im.transform then im.height else PassRows(im.height, p)
  }

  /** Rows of the blown-up pass that add nothing to what earlier passes showed. */
  predicate Blank(im: Image, p: nat, row: nat) {
    im.transform && ((p == 2 && row % 8 < 4) || (p == 4 && row % 4 < 2) || (p == 6 && row % 2 == 0))
  }

  function CallsOf(im: Image, p: nat, rows: nat): (calls: seq<RowCall>)
    ensures |calls| == rows && forall r :: 0 <= r < rows ==> calls[r] == RowCall(p, r, Blank(im, p, r))
  {
    seq(rows, r requires 0 <= r < rows => RowCall(p, r, Blank(im, p, r)))
  }

  /** Every row of every visited pass before p, in order. */
  function CallsBefore(im: Image, p: nat): seq<RowCall>
    requires p <= 7
  {
    if p == 0 then []
    else CallsBefore(im, p - 1) + (if Visited(im, p - 1) then CallsOf(im, p - 1, RowsOf(im, p - 1)) else [])
  }

  /** Every row of the image, in order. */
  function AllCalls(im: Image): seq<RowCall> {
    if im.interlaced then CallsBefore(im, 7) else CallsOf(im, 0, im.height)
  }

  /** Rows the decompressor must deliver in all. */
  function DataRows(im: Image): nat {
    if im.interlaced then DataRowsBefore(im, 7) else im.height
  }

  function NextPass(im: Image, p: nat): (q: nat)
    requires p < 7
    ensures p < q <= 7
    decreases 7 - p
  {
    if p == 6 || Visited(im, p + 1) then p + 1 else NextPass(im, p + 1)
  }

  /** Rows the decompressor must deliver for the visited passes before p. */
  function DataRowsBefore(im: Image, p: nat): nat
    requires p <= 7
  {
    if p == 0 then 0
    else DataRowsBefore(im, p - 1) + (if Visited(im, p - 1) then RowCount(im.height, p - 1) else 0)
  }

  function RowCount(height: nat, p: nat): (n: nat)
    requires p < 7
    ensures n == PassRows(height, p)
  {
    PassRowsCount(height, p, 0);
    PassRows(height, p)
  }

  /** num_rows and iwidth as the reader computes them from its tables. */
  function TableRows(height: nat, pass: nat): (n: int)
    requires pass < 7
    ensures n == PassRows(height, pass)
  {
    PassRowsCount(height, pass, 0);
    (height + PASS_YINC[pass] - 1 - PASS_YSTART[pass]) / PASS_YINC[pass]
  }

  function TableCols(width: nat, pass: nat): (n: int)
    requires pass < 7
    ensures n == PassCols(width, pass)
  {
    PassColsCount(width, pass, 0);
    (width + PASS_INC[pass] - 1 - PASS_START[pass]) / PASS_INC[pass]
  }

  // --- Facts about the order of passes ----------------------------------------------------------

  lemma {:induction false} NextPassSkipsNothing(im: Image, p: nat)
    requires p < 7
    ensures CallsBefore(im, NextPass(im, p)) == CallsBefore(im, p + 1)
    ensures DataRowsBefore(im, NextPass(im, p)) == DataRowsBefore(im, p + 1)
    ensures NextPass(im, p) < 7 ==> Visited(im, NextPass(im, p))
    decreases 7 - p
  {
    if p < 6 && !Visited(im, p + 1) {
      NextPassSkipsNothing(im, p + 1);
      assert CallsBefore(im, p + 2) == CallsBefore(im, p + 1) + [];
    }
  }

  /** A pass has a column unless the image is too narrow for it: the tests in png_read_push_finish_row. */
  lemma TooNarrow(im: Image, p: nat)
    requires Sized(im) && p < 7
    ensures PassCols(im.width, p) > 0 <==>
              !((p == 1 && im.width < 5) || (p == 3 && im.width < 3) || (p == 5 && im.width < 2))
  {
    PassColsCount(im.width, p, 0);
  }

  lemma NextVisited(im: Image)
    requires Sized(im) && im.transform
    ensures NextPass(im, 0) == (if im.width < 5 then 2 else 1) && NextPass(im, 1) == 2
    ensures NextPass(im, 2) == (if im.width < 3 then 4 else 3) && NextPass(im, 3) == 4
    ensures NextPass(im, 4) == (if im.width < 2 then 6 else 5) && NextPass(im, 5) == 6
    ensures NextPass(im, 6) == 7
  {
    forall p | 0 <= p < 7
      ensures Visited(im, p) <==> !((p == 1 && im.width < 5) || (p == 3 && im.width < 3) || (p == 5 && im.width < 2))
    {
      TooNarrow(im, p);
    }
    hide Visited;
  }

  // --- The sequencer ----------------------------------------------------------------------------

  class RowReader {
    const im: Image
    var pass: nat
    var rowNumber: nat
    var numRows: int
    var iwidth: int
    var trace: seq<RowCall>
    ghost var dataRow: nat      // index, within its pass, of the next decompressed row
    ghost var consumed: nat     // decompressed rows so far

    /** The calls made are exactly those before (pass, rowNumber); passes are those of an interlaced image. */
    ghost predicate Placed()
      reads `pass, `rowNumber, `numRows, `iwidth, `trace
    {
      && Sized(im) && im.interlaced && pass <= 7 && 0 <= iwidth <= im.width
      && (if pass == 7 then rowNumber == 0 && trace == CallsBefore(im, 7)
          else
            && Visited(im, pass) && rowNumber < RowsOf(im, pass)
            && numRows == RowsOf(im, pass) && iwidth == PassCols(im.width, pass)
            && trace == CallsBefore(im, pass) + CallsOf(im, pass, rowNumber))
    }

    /** The same for an image that is not interlaced. */
    ghost predicate Plain()
      reads `pass, `rowNumber, `numRows, `iwidth, `trace
    {
      && Sized(im) && !im.interlaced && pass == 0 && numRows == im.height && iwidth == im.width
      && rowNumber <= im.height && trace == CallsOf(im, 0, rowNumber)
    }

    /** Between decompressed rows: the next one to arrive belongs at rowNumber. */
    ghost predicate Valid()
      reads this
    {
      if im.interlaced then Between() else Plain() && consumed == rowNumber
    }

    ghost predicate Between()
      reads this
    {
      && Placed()
      && (if pass == 7 then consumed == DataRowsBefore(im, 7)
          else
            && dataRow < RowCount(im.height, pass)
            && rowNumber == (if im.transform then RowFromPassRow(dataRow, pass) else dataRow)
            && consumed == DataRowsBefore(im, pass) + dataRow)
    }

    /** Rows are still to come: the opposite of the test in png_process_IDAT_data. */
    predicate Missing()
      reads `pass, `rowNumber, `numRows
    {
      rowNumber < numRows && pass <= 6
    }

    /** The values png_read_start_row leaves. */
    constructor (im: Image)
      requires Sized(im)
      ensures Valid() && this.im == im && consumed == 0 && trace == [] && pass == 0
    {
      hide PassRows, PassCols, RowFromPassRow;
      this.im := im;
      pass, rowNumber := 0, 0;
      if im.interlaced {
        numRows := if !im.transform then TableRows(im.height, 0) else im.height;
        iwidth := TableCols(im.width, 0);
      } else {
        numRows, iwidth := im.height, im.width;
      }
      trace, dataRow, consumed := [], 0, 0;
      new;
      FirstPass(im);
      ColsFit(im, 0);
    }

    /** png_read_push_finish_row */
    method FinishRow()
      requires Sized(im) && pass < 7 && (im.interlaced && im.transform ==> numRows == im.height)
      requires 0 <= iwidth <= im.width
      modifies `pass, `rowNumber, `numRows, `iwidth
      ensures if old(rowNumber) + 1 < old(numRows) || !im.interlaced then
                pass == old(pass) && rowNumber == old(rowNumber) + 1 && numRows == old(numRows) && iwidth == old(iwidth)
              else
                && pass == NextPass(im, old(pass)) && rowNumber == 0
                && (pass < 7 ==> numRows == (if im.transform then im.height else PassRows(im.height, pass)))
                && (pass < 7 ==> iwidth == PassCols(im.width, pass)) && 0 <= iwidth <= im.width
    {
      hide *;
      rowNumber := rowNumber + 1;
      if rowNumber < numRows { return; }
      if im.interlaced {
        rowNumber := 0;
        NextRowPass();
      }
    }

    /** The loop of png_read_push_finish_row. */
    method NextRowPass()
      requires Sized(im) && pass < 7 && (im.transform ==> numRows == im.height) && 0 <= iwidth <= im.width
      modifies `pass, `numRows, `iwidth
      ensures pass == NextPass(im, old(pass))
      ensures pass < 7 ==> numRows == (if im.transform then im.height else PassRows(im.height, pass))
      ensures 0 <= iwidth <= im.width && (pass < 7 ==> iwidth == PassCols(im.width, pass))
    {
      hide *;
      ghost var target := NextPass(im, pass);
      while true
        invariant pass < 7 && NextPass(im, pass) == target
        invariant (im.transform ==> numRows == im.height) && 0 <= iwidth <= im.width
        decreases 7 - pass
      {
        AdvanceOver(im, pass);
        pass := pass + 1;
        if (pass == 1 && im.width < 5) || (pass == 3 && im.width < 3) || (pass == 5 && im.width < 2) {
          pass := pass + 1;
        }
        if pass >= 7 { break; }
        iwidth := TableCols(im.width, pass);
        ColsFit(im, pass);
        if im.transform { break; }
        numRows := TableRows(im.height, pass);
        if iwidth != 0 && numRows != 0 { break; }
      }
    }

    /** png_push_have_row, then png_read_push_finish_row. */
    method EmitRow(blank: bool)
      requires Placed() && pass < 7 && blank == Blank(im, pass, rowNumber)
      modifies `pass, `rowNumber, `numRows, `iwidth, `trace
      ensures Placed()
      ensures if old(rowNumber) + 1 < RowsOf(im, old(pass)) then pass == old(pass) && rowNumber == old(rowNumber) + 1
              else pass == NextPass(im, old(pass)) && rowNumber == 0
      ensures pass != old(pass) ==>
                DataRowsBefore(im, pass) == DataRowsBefore(im, old(pass)) + RowCount(im.height, old(pass))
    {
      hide PassRows, PassCols, Blank, NextPass, RowCount;
      ghost var p, r := pass, rowNumber;
      trace := trace + [RowCall(pass, rowNumber, blank)];
      assert trace == CallsBefore(im, p) + CallsOf(im, p, r + 1);
      FinishRow();
      NextPassSkipsNothing(im, p);
      if pass == p {
      } else if pass < 7 {
        assert CallsBefore(im, pass) + CallsOf(im, pass, 0) == CallsBefore(im, pass);
        StartsInside(im, pass);
      }
    }

    /** for (i = 0; i < n && pass == p; i++) { png_push_have_row; png_read_push_finish_row; } */
    method EmitRows(n: nat, p: nat, blank: bool)
      requires Placed() && p < 7
      requires pass == p ==> Uniform(im, p, rowNumber, n, blank)
      modifies `pass, `rowNumber, `numRows, `iwidth, `trace
      ensures Placed()
      ensures if old(pass) != p || n == 0 then pass == old(pass) && rowNumber == old(rowNumber)
              else if old(rowNumber) + n < RowsOf(im, p) then pass == p && rowNumber == old(rowNumber) + n
              else pass == NextPass(im, p) && rowNumber == 0
      ensures pass != old(pass) ==> DataRowsBefore(im, pass) == DataRowsBefore(im, p) + RowCount(im.height, p)
    {
      hide Placed, Blank, NextPass, RowsOf, Visited, PassRows, PassCols;
      var i := 0;
      while i < n && pass == p
        invariant 0 <= i <= n && Placed()
        invariant pass == p ==> rowNumber == old(rowNumber) + i
        invariant pass == p ==> old(pass) == p && (i == 0 || rowNumber < RowsOf(im, p))
        invariant pass != p && i == 0 ==> pass == old(pass) && rowNumber == old(rowNumber)
        invariant pass != p && i > 0 ==>
                    pass == NextPass(im, p) && rowNumber == 0 && old(rowNumber) + i >= RowsOf(im, p)
        invariant i > 0 ==> old(pass) == p
        invariant pass != old(pass) ==> DataRowsBefore(im, pass) == DataRowsBefore(im, p) + RowCount(im.height, p)
      {
        EmitRow(blank);
        i := i + 1;
      }
    }

    /** png_push_process_row, once the row itself has been unfiltered and transformed. */
    method ProcessRow()
      requires Valid() && Missing()
      modifies this
      ensures Valid() && consumed == old(consumed) + 1
    {
      if im.interlaced && im.transform {
        ProcessBlownUpRow();
      } else if im.interlaced {
        ProcessPassRow();
      } else {
        ProcessPlainRow();
      }
    }

    /** A row of an image that is not interlaced. */
    method ProcessPlainRow()
      requires Valid() && Missing() && !im.interlaced
      modifies this
      ensures Valid() && consumed == old(consumed) + 1
    {
      trace := trace + [RowCall(pass, rowNumber, false)];
      FinishRow();
      consumed := consumed + 1;
      assert CallsOf(im, 0, rowNumber) == CallsOf(im, 0, rowNumber - 1) + [RowCall(0, rowNumber - 1, false)];
    }

    /** A row of an interlaced image whose passes are not blown up. */
    method ProcessPassRow()
      requires Between() && pass < 7 && !im.transform
      modifies this
      ensures Between() && consumed == old(consumed) + 1
    {
      ghost var p, k := pass, dataRow;
      hide NextPass, Visited, RowFromPassRow, PassRows, PassCols, DataRowsBefore;
      EmitRow(false);
      consumed := consumed + 1;
      dataRow := if pass == p then k + 1 else 0;
    }

    /** Data rows are still missing just as long as the reader finds a place to put them. */
    lemma StillMissing()
      requires Valid()
      ensures Missing() <==> consumed < DataRows(im)
      ensures !Missing() ==> trace == AllCalls(im) && consumed == DataRows(im)
    {
      if im.interlaced && pass < 7 {
        DataRowsGrow(im, pass + 1);
      }
    }

    /** One decompressed row, with the transformation on. */
    method ProcessBlownUpRow()
      requires Between() && pass < 7 && im.transform
      modifies this
      ensures Between() && consumed == old(consumed) + 1
    {
      hide *;
      ghost var p, k := pass, dataRow;
      Aligned(k);
      SwitchOnPass(k);
      consumed := consumed + 1;
      dataRow := if pass == p then k + 1 else 0;
      Realigned(p, k);
    }

    /** The switch of png_push_process_row. */
    method SwitchOnPass(ghost k: nat)
      requires Placed() && Sized(im) && im.transform && pass < 7
      requires rowNumber == k * PASS_YINC[pass] + PASS_YSTART[pass] < im.height
      modifies `pass, `rowNumber, `numRows, `iwidth, `trace
      ensures Landed(old(pass), k)
    {
      hide Placed, Landed;
      match pass {
        case 0 => RowOfPass0(k);
        case 1 => RowOfPass1(k);
        case 2 => RowOfPass2(k);
        case 3 => RowOfPass3(k);
        case 4 => RowOfPass4(k);
        case 5 => RowOfPass5(k);
        case _ => RowOfPass6(k);
      }
    }

    /** Where one decompressed row of pass p, its row k, leaves the sequencer. */
    ghost predicate Landed(p: nat, k: nat)
      requires p < 7
      reads `pass, `rowNumber, `numRows, `iwidth, `trace
    {
      && Placed()
      && (pass < 7 ==> rowNumber == (if pass == p then k + 1 else 0) * PASS_YINC[pass] + PASS_YSTART[pass])
      && (pass != p ==> DataRowsBefore(im, pass) == DataRowsBefore(im, p) + k + 1)
    }

    method RowOfPass0(ghost k: nat)
      requires Placed() && Sized(im) && im.transform && pass == 0 && rowNumber == k * 8 < im.height
      modifies `pass, `rowNumber, `numRows, `iwidth, `trace
      ensures Landed(0, k)
    {
      PassFacts(im, 0, k);
      hide Placed, Blank, Uniform, NextPass, RowsOf, Visited, RowCount, DataRowsBefore, CallsBefore;
      EmitRows(8, 0, false);
      if pass == 2 { EmitRows(4, 2, true); }  // pass 1 might be empty
      FromLowImage(k);
    }

    /** The rest of case 0: a narrow image so low that the passes after 2 have to be begun at once. */
    method FromLowImage(ghost k: nat)
      requires Placed() && Sized(im) && im.transform && k * 8 < im.height
      requires if pass == 0 || pass == 1 || pass == 2 || pass == 3 then Landed(0, k)
               else
                 && im.height <= 4 && rowNumber == 0 && pass == 4
                 && DataRowsBefore(im, 4) == DataRowsBefore(im, 0) + k + 1
      modifies `pass, `rowNumber, `numRows, `iwidth, `trace
      ensures Landed(0, k)
    {
      hide Placed, Blank, Uniform, NextPass, RowsOf, Visited, RowCount, DataRowsBefore, CallsBefore, Landed;
      if pass == 4 && im.height <= 4 {
        PassFactsLow(im);
        EmitRows(2, 4, true);
        FromLowerImage(k);
      }
    }

    /** The last step of case 0: pass 6 of an image of one or two rows. */
    method FromLowerImage(ghost k: nat)
      requires Placed() && Sized(im) && im.transform && im.height <= 4
      requires if im.height > 2 then pass == 4 && rowNumber == 2
               else pass == (if im.width < 2 then 6 else 5) && rowNumber == 0
      requires DataRowsBefore(im, pass) == DataRowsBefore(im, 0) + k + 1
      modifies `pass, `rowNumber, `numRows, `iwidth, `trace
      ensures Landed(0, k)
    {
      PassFactsLow(im);
      hide Placed, Blank, Uniform, NextPass, RowsOf, Visited, RowCount, DataRowsBefore, CallsBefore;
      if pass == 6 && im.height <= 4 { EmitRow(true); }
    }

    method RowOfPass1(ghost k: nat)
      requires Placed() && Sized(im) && im.transform && pass == 1 && rowNumber == k * 8 < im.height
      modifies `pass, `rowNumber, `numRows, `iwidth, `trace
      ensures Landed(1, k)
    {
      PassFacts(im, 1, k);
      hide Placed, Blank, Uniform, NextPass, RowsOf, Visited, RowCount, DataRowsBefore, CallsBefore;
      EmitRows(8, 1, false);
      if pass == 2 { EmitRows(4, 2, true); }  // skip the top 4 generated rows
    }

    method RowOfPass2(ghost k: nat)
      requires Placed() && Sized(im) && im.transform && pass == 2 && rowNumber == k * 8 + 4 < im.height
      modifies `pass, `rowNumber, `numRows, `iwidth, `trace
      ensures Landed(2, k)
    {
      PassFacts2(im, k);
      hide Placed, Blank, Uniform, NextPass, RowsOf, Visited, RowCount, DataRowsBefore, CallsBefore;
      EmitRows(4, 2, false);
      EmitRows(4, 2, true);
      if pass == 4 { EmitRows(2, 4, true); }  // pass 3 might be empty
    }

    method RowOfPass3(ghost k: nat)
      requires Placed() && Sized(im) && im.transform && pass == 3 && rowNumber == k * 4 < im.height
      modifies `pass, `rowNumber, `numRows, `iwidth, `trace
      ensures Landed(3, k)
    {
      PassFacts(im, 3, k);
      hide Placed, Blank, Uniform, NextPass, RowsOf, Visited, RowCount, DataRowsBefore, CallsBefore;
      EmitRows(4, 3, false);
      if pass == 4 { EmitRows(2, 4, true); }  // skip the top two generated rows
    }

    method RowOfPass4(ghost k: nat)
      requires Placed() && Sized(im) && im.transform && pass == 4 && rowNumber == k * 4 + 2 < im.height
      modifies `pass, `rowNumber, `numRows, `iwidth, `trace
      ensures Landed(4, k)
    {
      PassFacts4(im, k);
      hide Placed, Blank, Uniform, NextPass, RowsOf, Visited, RowCount, DataRowsBefore, CallsBefore;
      EmitRows(2, 4, false);
      EmitRows(2, 4, true);
      if pass == 6 { EmitRow(true); }         // pass 5 might be empty
    }

    method RowOfPass5(ghost k: nat)
      requires Placed() && Sized(im) && im.transform && pass == 5 && rowNumber == k * 2 < im.height
      modifies `pass, `rowNumber, `numRows, `iwidth, `trace
      ensures Landed(5, k)
    {
      PassFacts(im, 5, k);
      hide Placed, Blank, Uniform, NextPass, RowsOf, Visited, RowCount, DataRowsBefore, CallsBefore;
      EmitRows(2, 5, false);
      if pass == 6 { EmitRow(true); }         // skip the top generated row
    }

    method RowOfPass6(ghost k: nat)
      requires Placed() && Sized(im) && im.transform && pass == 6 && rowNumber == k * 2 + 1 < im.height
      modifies `pass, `rowNumber, `numRows, `iwidth, `trace
      ensures Landed(6, k)
    {
      PassFacts(im, 6, k);
      hide Placed, Blank, Uniform, NextPass, RowsOf, Visited, RowCount, DataRowsBefore, CallsBefore;
      EmitRow(false);
      if pass == 6 { EmitRow(true); }
    }

    lemma Aligned(k: nat)
      requires Between() && pass < 7 && im.transform && k == dataRow
      ensures Placed() && Sized(im) && rowNumber == k * PASS_YINC[pass] + PASS_YSTART[pass] < im.height
      ensures consumed == DataRowsBefore(im, pass) + k
    {
      PassRowsCount(im.height, pass, k);
    }

    lemma Realigned(p: nat, k: nat)
      requires p < 7 && im.transform && Landed(p, k) && consumed == DataRowsBefore(im, p) + k + 1
      requires dataRow == if pass == p then k + 1 else 0
      ensures Between()
    {
      if pass < 7 {
        PassRowsCount(im.height, pass, dataRow);
      }
    }
  }

  /** All that the seven cases rely on. */
  lemma PassFacts(im: Image, p: nat, k: nat)
    requires Sized(im) && im.transform && p < 7 && k * PASS_YINC[p] + PASS_YSTART[p] < im.height
    ensures NextPass(im, 0) == (if im.width < 5 then 2 else 1) && NextPass(im, 1) == 2
    ensures NextPass(im, 2) == (if im.width < 3 then 4 else 3) && NextPass(im, 3) == 4
    ensures NextPass(im, 4) == (if im.width < 2 then 6 else 5) && NextPass(im, 5) == 6 && NextPass(im, 6) == 7
    ensures RowsOf(im, p) == RowsOf(im, 2) == RowsOf(im, 4) == RowsOf(im, 6) == im.height
    ensures Uniform(im, 2, 0, 4, true) && Uniform(im, 4, 0, 2, true) && Blank(im, 6, 0)
    ensures p == 0 || p == 1 ==> Uniform(im, p, 8 * k, 8, false)
    ensures p == 2 ==> Uniform(im, 2, 8 * k + 4, 4, false) && Uniform(im, 2, 8 * k + 8, 4, true)
    ensures p == 3 ==> Uniform(im, 3, 4 * k, 4, false)
    ensures p == 4 ==> Uniform(im, 4, 4 * k + 2, 2, false) && Uniform(im, 4, 4 * k + 4, 2, true)
    ensures p == 5 ==> Uniform(im, 5, 2 * k, 2, false)
    ensures p == 6 ==> !Blank(im, 6, 2 * k + 1) && Blank(im, 6, 2 * k + 2)
    ensures im.height <= 4 ==> RowCount(im.height, 2) == 0
    ensures im.height <= 2 ==> RowCount(im.height, 4) == 0
    ensures im.height <= 1 ==> RowCount(im.height, 6) == 0
    ensures im.height <= (k + 1) * PASS_YINC[p] + PASS_YSTART[p] ==> RowCount(im.height, p) == k + 1
  {
    hide NextPass, Uniform, Blank, RowCount, Visited;
    NextVisited(im);
    BlankRuns(im, k);
    NoDataRows(im);
    if im.height <= (k + 1) * PASS_YINC[p] + PASS_YSTART[p] {
      DataRowsEnd(im, p, k);
    }
  }

  /** The same for single cases. */
  lemma PassFacts2(im: Image, k: nat)
    requires Sized(im) && im.transform && k * 8 + 4 < im.height
    ensures NextPass(im, 2) == (if im.width < 3 then 4 else 3) && RowsOf(im, 2) == RowsOf(im, 4) == im.height
    ensures Uniform(im, 2, 8 * k + 4, 4, false) && Uniform(im, 2, 8 * k + 8, 4, true) && Uniform(im, 4, 0, 2, true)
    ensures im.height <= k * 8 + 12 ==> RowCount(im.height, 2) == k + 1
  {
    hide NextPass, Uniform, Blank, RowCount, Visited, RowsOf;
    PassFacts(im, 2, k);
  }

  lemma PassFacts4(im: Image, k: nat)
    requires Sized(im) && im.transform && k * 4 + 2 < im.height
    ensures NextPass(im, 4) == (if im.width < 2 then 6 else 5) && RowsOf(im, 4) == RowsOf(im, 6) == im.height
    ensures Uniform(im, 4, 4 * k + 2, 2, false) && Uniform(im, 4, 4 * k + 4, 2, true) && Blank(im, 6, 0)
    ensures im.height <= k * 4 + 6 ==> RowCount(im.height, 4) == k + 1
  {
    hide NextPass, Uniform, Blank, RowCount, Visited, RowsOf;
    PassFacts(im, 4, k);
  }

  lemma PassFactsLow(im: Image)
    requires Sized(im) && im.transform
    ensures NextPass(im, 4) == (if im.width < 2 then 6 else 5) && NextPass(im, 6) == 7
    ensures RowsOf(im, 4) == RowsOf(im, 6) == im.height && Uniform(im, 4, 0, 2, true) && Blank(im, 6, 0)
    ensures im.height <= 2 ==> RowCount(im.height, 4) == 0
    ensures im.height <= 1 ==> RowCount(im.height, 6) == 0
  {
    hide NextPass, Uniform, Blank, RowCount, Visited, RowsOf;
    PassFacts(im, 0, 0);
  }

  /** Rows from .. from + n of pass p are all blank, or none is. */
  ghost predicate Uniform(im: Image, p: nat, from: nat, n: nat, blank: bool) {
    forall r :: from <= r < from + n ==> blank == Blank(im, p, r)
  }

  /** A row is blank when no pixel of the pass lies on it or above it in its block of rows. */
  lemma BlankMeans(im: Image, p: nat, row: nat)
    requires p < 7
    ensures Blank(im, p, row) <==> im.transform && row % PASS_YINC[p] < PASS_YSTART[p]
  {
  }

  lemma BlankRuns(im: Image, k: nat)
    requires im.transform
    ensures Uniform(im, 0, 8 * k, 8, false) && Uniform(im, 1, 8 * k, 8, false)
    ensures Uniform(im, 2, 0, 4, true) && Uniform(im, 2, 8 * k + 4, 4, false) && Uniform(im, 2, 8 * k + 8, 4, true)
    ensures Uniform(im, 3, 4 * k, 4, false)
    ensures Uniform(im, 4, 0, 2, true) && Uniform(im, 4, 4 * k + 2, 2, false) && Uniform(im, 4, 4 * k + 4, 2, true)
    ensures Uniform(im, 5, 2 * k, 2, false)
    ensures Blank(im, 6, 0) && !Blank(im, 6, 2 * k + 1) && Blank(im, 6, 2 * k + 2)
  {
  }

  /** An image too low for pass 2, 4 or 6 has no data in it. */
  lemma NoDataRows(im: Image)
    ensures im.height <= 4 ==> RowCount(im.height, 2) == 0
    ensures im.height <= 2 ==> RowCount(im.height, 4) == 0
    ensures im.height <= 1 ==> RowCount(im.height, 6) == 0
  {
    hide PassRows, RowFromPassRow;
    PassRowsCount(im.height, 2, 0);
    PassRowsCount(im.height, 4, 0);
    PassRowsCount(im.height, 6, 0);
  }

  lemma DataRowsEnd(im: Image, p: nat, k: nat)
    requires p < 7 && k * PASS_YINC[p] + PASS_YSTART[p] < im.height <= (k + 1) * PASS_YINC[p] + PASS_YSTART[p]
    ensures RowCount(im.height, p) == k + 1
  {
    hide PassRows, RowFromPassRow;
    PassRowsCount(im.height, p, k);
    PassRowsCount(im.height, p, k + 1);
  }

  lemma ColsFit(im: Image, p: nat)
    requires Sized(im) && p < 7
    ensures 0 <= PassCols(im.width, p) <= im.width
  {
    var n := TableCols(im.width, p);
    hide PassCols, ColFromPassCol;
    assert n == (im.width + PASS_INC[p] - 1 - PASS_START[p]) / PASS_INC[p];
  }

  /** What one turn of the do-while loop steps over. */
  lemma AdvanceOver(im: Image, p: nat)
    requires Sized(im) && p < 7
    ensures p == 6 ==> NextPass(im, p) == 7
    ensures p < 6 ==>
      var skip := (p == 0 && im.width < 5) || (p == 2 && im.width < 3) || (p == 4 && im.width < 2);
      var q := if skip then p + 2 else p + 1;
      && q < 7 && PassCols(im.width, q) > 0 && PassRows(im.height, q) >= 0
      && NextPass(im, p) == (if im.transform || PassRows(im.height, q) > 0 then q else NextPass(im, q))
  {
    hide PassRows, PassCols, RowFromPassRow, ColFromPassCol;
    if p < 6 {
      TooNarrow(im, p + 1);
      var n := RowCount(im.height, p + 1);
      if p < 5 {
        TooNarrow(im, p + 2);
        n := RowCount(im.height, p + 2);
      }
    }
  }

  lemma FirstPass(im: Image)
    requires Sized(im)
    ensures Visited(im, 0) && 0 < RowsOf(im, 0) && 0 < RowCount(im.height, 0) && RowFromPassRow(0, 0) == 0
    ensures CallsBefore(im, 0) + CallsOf(im, 0, 0) == []
  {
    hide PassRows, PassCols, RowFromPassRow, ColFromPassCol;
    PassRowsCount(im.height, 0, 0);
    PassColsCount(im.width, 0, 0);
  }

  lemma StartsInside(im: Image, p: nat)
    requires Sized(im) && p < 7 && Visited(im, p)
    ensures 0 < RowsOf(im, p)
  {
  }

  lemma {:induction false} DataRowsGrow(im: Image, p: nat)
    requires p <= 7
    ensures DataRowsBefore(im, p) <= DataRowsBefore(im, 7)
    decreases 7 - p
  {
    if p < 7 { DataRowsGrow(im, p + 1); }
  }

  // --- What the trace of a whole image says -----------------------------------------------------

  predicate Earlier(a: RowCall, b: RowCall) {
    a.pass < b.pass || (a.pass == b.pass && a.row < b.row)
  }

  predicate InOrder(calls: seq<RowCall>) { forall i, j :: 0 <= i < j < |calls| ==> Earlier(calls[i], calls[j]) }

  /** The calls of one pass, if it is visited. */
  function PassCalls(im: Image, p: nat): seq<RowCall>
    requires p < 7
  {
    if Visited(im, p) then CallsOf(im, p, RowsOf(im, p)) else []
  }

  /** c is the call back of a row of pass p. */
  predicate IsCall(im: Image, p: nat, c: RowCall)
    requires p < 7
  {
    Visited(im, p) && c.pass == p && c.row < RowsOf(im, p) && c.blank == Blank(im, p, c.row)
  }

  lemma PassCallsAre(im: Image, p: nat)
    requires p < 7
    ensures InOrder(PassCalls(im, p)) && forall c :: c in PassCalls(im, p) <==> IsCall(im, p, c)
  {
    hide Visited, RowsOf, Blank;
    var calls := PassCalls(im, p);
    forall c | IsCall(im, p, c) ensures c in calls { assert calls[c.row] == c; }
  }

  lemma OrderedAppend(before: seq<RowCall>, last: seq<RowCall>, p: nat)
    requires InOrder(before) && InOrder(last)
    requires (forall c :: c in before ==> c.pass < p) && (forall c :: c in last ==> c.pass == p)
    ensures InOrder(before + last)
  {
    forall i, j | 0 <= i < j < |before + last| ensures Earlier((before + last)[i], (before + last)[j]) {
      if i < |before| <= j { assert before[i] in before && last[j - |before|] in last; }
    }
  }

  /** Every row of every visited pass is called back exactly once, in order, and nothing else is: the calls
      are strictly increasing, and they are the pairs (p, r) with p visited and r below its number of rows. */
  lemma {:induction false} CallsAreAllRowsInOrder(im: Image, n: nat)
    requires n <= 7
    ensures InOrder(CallsBefore(im, n))
    ensures forall c :: c in CallsBefore(im, n) <==> c.pass < n && IsCall(im, c.pass, c)
    decreases n
  {
    if n > 0 {
      var before, last := CallsBefore(im, n - 1), PassCalls(im, n - 1);
      assert CallsBefore(im, n) == before + last;
      hide CallsBefore, PassCalls, InOrder;
      CallsAreAllRowsInOrder(im, n - 1);
      PassCallsAre(im, n - 1);
      OrderedAppend(before, last, n - 1);
      hide IsCall;
      assert forall c :: c in before + last <==> c in before || c in last;
    } else {
      assert CallsBefore(im, 0) == [];
    }
  }

  /** The calls of an interlaced image, from the tables alone. As it is, each pass that has columns gives back its own
      rows; transformed, it gives back every row of the image, the rows above its own in a block being blank. */
  lemma CallsAre(width: nat, height: nat, transform: bool, c: RowCall)
    ensures c in AllCalls(Image(width, height, true, transform)) <==>
              && c.pass < 7 && PASS_START[c.pass] < width
              && (if transform then c.row < height && c.blank == (c.row % PASS_YINC[c.pass] < PASS_YSTART[c.pass])
                  else PASS_YINC[c.pass] * c.row + PASS_YSTART[c.pass] < height && !c.blank)
  {
    var im := Image(width, height, true, transform);
    hide PassRows, PassCols, CallsBefore, InOrder, Blank, RowFromPassRow, ColFromPassCol;
    CallsAreAllRowsInOrder(im, 7);
    if c.pass < 7 {
      BlankMeans(im, c.pass, c.row);
      PassRowsCount(height, c.pass, c.row);
      PassRowsCount(height, c.pass, 0);
      PassColsCount(width, c.pass, 0);
    }
  }

  lemma CoveredIsCalled(width: nat, height: nat, p: nat, r: nat, c: nat, x: nat, y: nat)
    requires Covers(width, height, p, r, c, x, y)
    ensures p < 7 && IsCall(Image(width, height, true, false), p, RowCall(p, r, false))
  {
    hide PassRows, PassCols, RowFromPassRow, ColFromPassCol;
  }

  /** Without the transformation, every pixel of the image is delivered by exactly one callback, at exactly
      one column of that callback's row. */
  lemma EveryPixelDeliveredOnce(width: nat, height: nat, x: nat, y: nat)
    requires x < width && y < height
    ensures var im := Image(width, height, true, false); var p := PassOf(x, y);
            && RowCall(p, y / PASS_YINC[p], false) in CallsBefore(im, 7)
            && Covers(width, height, p, y / PASS_YINC[p], x / PASS_INC[p], x, y)
    ensures forall p: nat, r: nat, c: nat :: Covers(width, height, p, r, c, x, y) ==>
              p == PassOf(x, y) && r == y / PASS_YINC[p] && c == x / PASS_INC[p]
  {
    hide PassOf, Covers, IsCall, CallsBefore, PassRows, PassCols, RowFromPassRow, ColFromPassCol, RowInPass, ColInPass;
    var p := PassOf(x, y);
    PassesPartitionImage(width, height, x, y);
    CoveredIsCalled(width, height, p, y / PASS_YINC[p], x / PASS_INC[p], x, y);
    CallsAreAllRowsInOrder(Image(width, height, true, false), 7);
  }
}
