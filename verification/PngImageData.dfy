/** png_process_IDAT_data: decompressed bytes are gathered into rows, and what is wrong with the compressed data is
    decided from the rows already complete. zlib is a parameter. */
module PngImageData {
  import opened Common
  import opened Adam7
  import opened PngRows

  // --- Lengths ----------------------------------------------------------------------------------

  /** PNG_ROWBYTES */
  function RowBytes(bits: nat, width: nat): nat { if bits >= 8 then width * (bits / 8) else (width * bits + 7) / 8 }

  /** For the depths there are: as many whole bytes as the bits of the pixels need. */
  lemma RowBytesIs(bits: nat, width: nat)
    requires bits in {1, 2, 4, 8, 16, 24, 32, 48, 64}
    ensures 8 * RowBytes(bits, width) - 8 < bits * width <= 8 * RowBytes(bits, width)
  {
  }

  /** The pass of the interlaced image im that data row k belongs to, from p on. */
  function PassOfLine(im: Image, k: nat, p: nat := 0): (q: nat)
    requires p < 7
    ensures q < 7
    decreases 7 - p
  {
    if p == 6 || k < DataRowsBefore(im, p + 1) then p else PassOfLine(im, k, p + 1)
  }

  /** The length of data row k: the filter byte and the pixels of one row of its pass. */
  function LineLength(im: Image, bits: nat, k: nat): (n: nat)
    requires Sized(im)
    ensures n > 0
  {
    ColsFit(im, PassOfLine(im, k));
    RowBytes(bits, if im.interlaced then PassCols(im.width, PassOfLine(im, k)) else im.width) + 1
  }

  /** Where data row k begins in the decompressed image. */
  function Offset(im: Image, bits: nat, k: nat): nat
    requires Sized(im)
  {
    if k == 0 then 0 else Offset(im, bits, k - 1) + LineLength(im, bits, k - 1)
  }

  function Total(im: Image, bits: nat): nat
    requires Sized(im)
  {
    Offset(im, bits, DataRows(im))
  }

  /** This line is data row k of out. */
  ghost predicate IsLine(im: Image, bits: nat, out: seq<byte>, k: nat, line: seq<byte>)
    requires Sized(im)
  {
    Offset(im, bits, k) <= Offset(im, bits, k + 1) <= |out| && line == out[Offset(im, bits, k)..Offset(im, bits, k + 1)]
  }

  /** The lines are the first data rows of out. */
  ghost predicate Cut(im: Image, bits: nat, out: seq<byte>, lines: seq<seq<byte>>)
    requires Sized(im)
  {
    forall k :: 0 <= k < |lines| ==> IsLine(im, bits, out, k, lines[k])
  }

  lemma {:induction false} OffsetsGrow(im: Image, bits: nat, j: nat, k: nat)
    requires Sized(im) && j <= k
    ensures Offset(im, bits, j) + (k - j) <= Offset(im, bits, k)
    decreases k
  {
    hide LineLength;
    if j < k { OffsetsGrow(im, bits, j, k - 1); }
  }

  lemma CutMore(im: Image, bits: nat, out: seq<byte>, more: seq<byte>, lines: seq<seq<byte>>)
    requires Sized(im) && Cut(im, bits, out, lines)
    ensures Cut(im, bits, out + more, lines)
  {
    hide Offset;
  }

  lemma CutLine(im: Image, bits: nat, out: seq<byte>, lines: seq<seq<byte>>, line: seq<byte>)
    requires Sized(im) && Cut(im, bits, out, lines)
    requires Offset(im, bits, |lines|) + |line| == |out| == Offset(im, bits, |lines| + 1)
    requires line == out[Offset(im, bits, |lines|)..]
    ensures Cut(im, bits, out, lines + [line])
  {
    hide Offset;
  }

  lemma RowBytesGrow(bits: nat, v: nat, w: nat)
    requires v <= w
    ensures RowBytes(bits, v) <= RowBytes(bits, w)
  {
    if bits >= 8 {
      assert (w - v) * (bits / 8) >= 0;
    } else {
      assert (w - v) * bits >= 0;
    }
  }

  lemma {:induction false} DataRowsOrder(im: Image, p: nat, q: nat)
    requires p <= q <= 7
    ensures DataRowsBefore(im, p) <= DataRowsBefore(im, q)
    decreases q
  {
    if p < q { DataRowsOrder(im, p, q - 1); }
  }

  lemma {:induction false} PassOfLineIs(im: Image, k: nat, p: nat, q: nat)
    requires p <= q < 7 && DataRowsBefore(im, q) <= k < DataRowsBefore(im, q + 1)
    ensures PassOfLine(im, k, p) == q
    decreases q - p
  {
    if p < q {
      DataRowsOrder(im, p + 1, q);
      PassOfLineIs(im, k, p + 1, q);
    }
  }

  /** The sequencer's iwidth is always that of the data row that comes next. */
  lemma NextLineWidth(r: RowReader, bits: nat)
    requires r.Valid() && Sized(r.im)
    ensures 0 <= r.iwidth <= r.im.width
    ensures r.Missing() ==> LineLength(r.im, bits, r.consumed) == RowBytes(bits, r.iwidth) + 1
  {
    if r.im.interlaced && r.pass < 7 {
      hide PassCols, RowFromPassRow, NextPass, CallsBefore;
      PassOfLineIs(r.im, r.consumed, 0, r.pass);
    }
  }

  // --- zlib -------------------------------------------------------------------------------------

  datatype Ret = ZOk | ZStreamEnd | ZError

  /** What one call of inflate puts out, how much of its input it uses, and what it returns. */
  datatype Inflated = Inflated(out: seq<byte>, used: nat, ret: Ret)

  datatype Turn = Turn(input: seq<byte>, room: nat, result: Inflated)

  /** inflate may depend on all its calls so far. */
  type Zlib = (seq<Turn>, seq<byte>, nat) -> Inflated

  /** It keeps to its buffers, and it gets on or says that it does not. */
  predicate Proper(r: Inflated, input: seq<byte>, room: nat) {
    r.used <= |input| && |r.out| <= room && (r.ret == ZOk ==> r.used > 0 || r.out != [])
  }

  ghost predicate Sound(zlib: Zlib) {
    forall h, input, room :: input != [] && room > 0 ==> Proper(zlib(h, input, room), input, room)
  }

  /** All that inflate has put out, but for a call that failed. */
  function Output(turns: seq<Turn>): seq<byte> {
    if turns == [] then []
    else
      var t := turns[|turns| - 1].result;
      Output(turns[..|turns| - 1]) + (if t.ret == ZError then [] else t.out)
  }

  lemma OutputMore(turns: seq<Turn>, t: Turn)
    ensures Output(turns + [t]) == Output(turns) + if t.result.ret == ZError then [] else t.result.out
  {
    assert (turns + [t])[..|turns|] == turns;
  }

  /** The input used by these calls. */
  function Consumed(turns: seq<Turn>): seq<byte> {
    if turns == [] then []
    else
      var t := turns[|turns| - 1];
      Consumed(turns[..|turns| - 1]) + (if t.result.used <= |t.input| then t.input[..t.result.used] else t.input)
  }

  lemma ConsumedMore(turns: seq<Turn>, t: Turn)
    requires t.result.used <= |t.input|
    ensures Consumed(turns + [t]) == Consumed(turns) + t.input[..t.result.used]
  {
    assert (turns + [t])[..|turns|] == turns;
  }

  /** Every result is what zlib gave then. */
  ghost predicate Genuine(zlib: Zlib, turns: seq<Turn>) {
    forall i :: 0 <= i < |turns| ==> turns[i].result == zlib(turns[..i], turns[i].input, turns[i].room)
  }

  lemma GenuineMore(zlib: Zlib, turns: seq<Turn>, t: Turn)
    requires Genuine(zlib, turns) && t.result == zlib(turns, t.input, t.room)
    ensures Genuine(zlib, turns + [t])
  {
    var more := turns + [t];
    forall i | 0 <= i < |more| ensures more[i].result == zlib(more[..i], more[i].input, more[i].room) {
      assert more[..i] == turns[..i];
      if i == |turns| { assert turns[..i] == turns; }
    }
  }

  // --- Gathering rows ---------------------------------------------------------------------------

  /** How a call ends: well, with one of three warnings, or with one of three errors. */
  datatype Outcome = Fine | ExtraData | Truncated | ExtraInput | BadFilter | Broken | NoData

  const FILTER_VALUE_LAST := 5

  type Line = s: seq<byte> | s != [] witness [0]

  class ImageReader {
    const rows: RowReader
    const bits: nat
    const zlib: Zlib
    const rowBuf: array<byte>
    var nextOut: nat
    var availOut: nat
    var finished: bool
    var turns: seq<Turn>
    var lines: seq<Line>         // the rows handed on
    ghost var out: seq<byte>     // all that zlib has put out
    ghost var fed: seq<byte>     // all that has been handed to zlib

    /** What is in the row buffer of the next row. */
    function Pending(): seq<byte>
      reads this`nextOut, this`availOut, rowBuf
      requires nextOut <= rowBuf.Length
    {
      if availOut > 0 then rowBuf[..nextOut] else []
    }

    /** The buffer has room for any row. */
    ghost predicate Shaped()
      reads rows
    {
      Sized(rows.im) && rows.Valid() && Sound(zlib) && rowBuf.Length == RowBytes(bits, rows.im.width) + 1
    }

    /** Whatever the flag says. */
    ghost predicate Core()
      reads this`nextOut, this`availOut, this`turns, this`lines, this`out, rows
    {
      && Shaped() && nextOut + availOut <= rowBuf.Length
      && |lines| == rows.consumed && Cut(rows.im, bits, out, lines)
      && out == Output(turns) && Offset(rows.im, bits, |lines|) <= |out|
      && (rows.Missing() && availOut > 0 ==> nextOut + availOut == LineLength(rows.im, bits, |lines|))
      && (forall line :: line in lines ==> line[0] < FILTER_VALUE_LAST)
    }

    /** Everything zlib has put out is in the rows handed on and in the buffer. */
    ghost predicate Valid()
      reads this`nextOut, this`availOut, this`finished, this`turns, this`lines, this`out, rows, rowBuf
    {
      && Core()
      && (rows.Missing() || !finished ==> Pending() == out[Offset(rows.im, bits, |lines|)..])
      && (!rows.Missing() && !finished ==> Pending() == [])
    }

    lemma ValidIs()
      ensures Valid() <==>
                && Core() && (rows.Missing() || !finished ==> Pending() == out[Offset(rows.im, bits, |lines|)..])
                && (!rows.Missing() && !finished ==> Pending() == [])
      ensures Core() ==> nextOut <= rowBuf.Length && Sized(rows.im) && Offset(rows.im, bits, |lines|) <= |out|
    {
      hide Cut, Offset, LineLength, Output, Sound;
    }

    /** What png_push_read_chunk sets up before the first byte of image data. */
    constructor (im: Image, bits: nat, zlib: Zlib)
      requires Sized(im) && Sound(zlib)
      ensures Valid() && fresh(rows) && fresh(rowBuf) && rows.im == im && this.bits == bits && this.zlib == zlib
      ensures out == [] && lines == [] && !finished && Tracked() && fed == []
    {
      var r := new RowReader(im);
      NextLineWidth(r, bits);
      RowBytesGrow(bits, r.iwidth, im.width);
      rows, this.bits, this.zlib := r, bits, zlib;
      rowBuf := new byte[RowBytes(bits, im.width) + 1](_ => 0);
      nextOut, availOut, finished, turns, lines, out, fed := 0, RowBytes(bits, r.iwidth) + 1, false, [], [], [], [];
    }

    /** Between calls zlib has used all it has been handed, unless the stream is over. */
    ghost predicate Tracked()
      reads this`turns, this`fed, this`finished
    {
      Genuine(zlib, turns) && if finished then Consumed(turns) <= fed else Consumed(turns) == fed
    }

    /** Rows are missing exactly as long as zlib has put out less than the whole image. */
    lemma MissingMeans()
      requires Valid()
      ensures rows.Missing() <==> |out| < Total(rows.im, bits)
      ensures !rows.Missing() ==> |lines| == DataRows(rows.im) && rows.trace == AllCalls(rows.im)
    {
      rows.StillMissing();
      var n := |lines|;
      if rows.Missing() {
        OffsetsGrow(rows.im, bits, n + 1, DataRows(rows.im));
        assert Offset(rows.im, bits, n + 1) == Offset(rows.im, bits, n) + LineLength(rows.im, bits, n);
      }
      hide Offset, LineLength, Cut;
    }

    /** Room for the row that comes next, or for what comes too many. */
    method Room() returns (n: nat)
      requires Shaped()
      ensures 0 < n <= rowBuf.Length && (rows.Missing() ==> n == LineLength(rows.im, bits, rows.consumed))
    {
      NextLineWidth(rows, bits);
      RowBytesGrow(bits, rows.iwidth, rows.im.width);
      hide LineLength, RowBytes;
      n := RowBytes(bits, rows.iwidth) + 1;
    }

    /** A buffer for zlib to write to. */
    method Refill()
      requires Valid() && !finished
      modifies this`nextOut, this`availOut
      ensures Valid() && availOut > 0
    {
      hide *;
      if !(availOut > 0) {
        EmptyParts();
        availOut := Room();
        nextOut := 0;
        assert rowBuf[..0] == [];
        StillFilled();
        StillValid();
      }
    }

    lemma EmptyParts()
      requires Valid() && !finished && availOut == 0
      ensures Shaped() && Sized(rows.im) && rows.Valid() && Sound(zlib)
      ensures rowBuf.Length == RowBytes(bits, rows.im.width) + 1
      ensures |lines| == rows.consumed && Cut(rows.im, bits, out, lines) && out == Output(turns)
      ensures Offset(rows.im, bits, |lines|) <= |out| && out[Offset(rows.im, bits, |lines|)..] == []
      ensures forall line :: line in lines ==> line[0] < FILTER_VALUE_LAST
    {
      hide Cut, Offset, LineLength, Output, Sound;
    }

    /** zlib writes to the buffer. */
    method Write(data: seq<byte>)
      requires |data| <= availOut && nextOut + availOut <= rowBuf.Length
      modifies this`nextOut, this`availOut, rowBuf
      ensures nextOut == old(nextOut) + |data| && availOut == old(availOut) - |data|
      ensures rowBuf[..nextOut] == old(rowBuf[..nextOut]) + data
    {
      forall i | 0 <= i < |data| { rowBuf[nextOut + i] := data[i]; }
      nextOut, availOut := nextOut + |data|, availOut - |data|;
    }

    /** The buffer in use holds the end of what zlib has put out, behind the rows handed on. */
    ghost predicate Filled()
      reads this`nextOut, this`availOut, this`turns, this`lines, this`out, rows, rowBuf
    {
      && Shaped() && |lines| == rows.consumed && Cut(rows.im, bits, out, lines)
      && out == Output(turns) && Offset(rows.im, bits, |lines|) <= |out| && nextOut + availOut <= rowBuf.Length
      && rowBuf[..nextOut] == out[Offset(rows.im, bits, |lines|)..]
      && (rows.Missing() ==> nextOut + availOut == LineLength(rows.im, bits, |lines|))
      && (forall line :: line in lines ==> line[0] < FILTER_VALUE_LAST)
    }

    /** There is a part of the next row. */
    ghost predicate Gathered()
      reads this`nextOut, this`availOut, this`turns, this`lines, this`out, rows, rowBuf
    {
      Filled() && rows.Missing() && 0 < nextOut
    }

    /** The next row has an unknown filter. */
    ghost predicate Refused()
      reads this`turns, this`lines, this`out, rows
    {
      && Sized(rows.im) && Cut(rows.im, bits, out, lines) && out == Output(turns)
      && Offset(rows.im, bits, |lines|) < Offset(rows.im, bits, |lines| + 1) == |out|
      && out[Offset(rows.im, bits, |lines|)] >= FILTER_VALUE_LAST
    }

    lemma GatheredRow()
      requires Gathered() && availOut == 0
      ensures Offset(rows.im, bits, |lines|) < Offset(rows.im, bits, |lines| + 1) == |out|
      ensures rowBuf[0] == out[Offset(rows.im, bits, |lines|)]
      ensures Cut(rows.im, bits, out, lines + [rowBuf[..nextOut]])
    {
      assert rowBuf[..nextOut][0] == rowBuf[0];
      CutLine(rows.im, bits, out, lines, rowBuf[..nextOut]);
      hide LineLength, Cut;
    }

    /** What holds once the row has been handed on. */
    lemma RowTaken()
      requires Shaped() && |lines| == rows.consumed && Cut(rows.im, bits, out, lines) && out == Output(turns)
      requires availOut == 0 && nextOut <= rowBuf.Length && Offset(rows.im, bits, |lines|) == |out|
      requires forall line :: line in lines ==> line[0] < FILTER_VALUE_LAST
      ensures Valid()
    {
      hide Cut, Offset, LineLength, Shaped, Output;
    }

    lemma GatheredParts()
      requires Gathered()
      ensures Shaped() && rows.Valid() && Sized(rows.im) && rows.Missing() && |lines| == rows.consumed
      ensures Cut(rows.im, bits, out, lines) && out == Output(turns) && 0 < nextOut <= rowBuf.Length
      ensures forall line :: line in lines ==> line[0] < FILTER_VALUE_LAST
    {
      hide Cut, Offset, LineLength, Output, Sound;
    }

    lemma StillShaped()
      requires rows.Valid() && Sized(rows.im) && Sound(zlib) && rowBuf.Length == RowBytes(bits, rows.im.width) + 1
      ensures Shaped()
    {
    }

    lemma ShapedParts()
      requires Shaped()
      ensures Sized(rows.im) && rows.Valid() && Sound(zlib) && rowBuf.Length == RowBytes(bits, rows.im.width) + 1
    {
    }

    /** png_push_process_row, without the filters themselves. */
    method ProcessLine() returns (ok: bool)
      requires Gathered() && availOut == 0
      modifies this`lines, rows
      ensures if ok then Valid() else Refused()
      ensures |out| <= Total(rows.im, bits)
    {
      hide *;
      GatheredParts();
      ShapedParts();
      GatheredRow();
      rows.StillMissing();
      assert |out| <= Total(rows.im, bits) by { WithinTotal(rows.im, bits, |lines|); }
      if rowBuf[0] > 0 && rowBuf[0] >= FILTER_VALUE_LAST {
        RefusedIs();
        return false;
      }
      var line := rowBuf[..nextOut];
      assert line[0] == rowBuf[0];
      FilterBound();
      lines := lines + [line];
      rows.ProcessRow();
      StillShaped();
      RowTaken();
      return true;
    }

    lemma ValidParts()
      requires Valid() && !finished && availOut > 0
      ensures Filled() && (!rows.Missing() ==> nextOut == 0)
    {
      hide Cut, Offset, LineLength, Output, Shaped;
    }

    /** One call of inflate. What a failing call writes is never looked at. */
    method Inflate(input: seq<byte>) returns (t: Turn)
      requires Valid() && !finished && availOut > 0 && input != []
      modifies this`nextOut, this`availOut, this`turns, this`out, rowBuf
      ensures turns == old(turns) + [t] && t == Turn(input, old(availOut), zlib(old(turns), input, old(availOut)))
      ensures Proper(t.result, input, t.room) && out == Output(turns)
      ensures if t.result.ret == ZError then Valid() && out == old(out)
              else Filled() && out == old(out) + t.result.out && nextOut == old(nextOut) + |t.result.out|
    {
      hide *;
      ValidParts();
      FilledParts();
      SoundIs(input, availOut);
      var r := zlib(turns, input, availOut);
      t := Turn(input, availOut, r);
      OutputMore(turns, t);
      if r.ret == ZError {
        ghost var was := out;
        turns := turns + [t];
        assert was + [] == was;
        StillFilled();
        StillValid();
        return;
      }
      ghost var was, k := rowBuf[..nextOut], Offset(rows.im, bits, |lines|);
      CutMore(rows.im, bits, out, r.out, lines);
      assert (out + r.out)[k..] == out[k..] + r.out;
      Write(r.out);
      turns := turns + [t];
      out := out + r.out;
      StillFilled();
    }

    lemma SoundIs(input: seq<byte>, room: nat)
      requires Sound(zlib) && input != [] && room > 0
      ensures Proper(zlib(turns, input, room), input, room)
      ensures var r := zlib(turns, input, room); r.used <= |input| && |r.out| <= room
    {
    }

    lemma FilledParts()
      requires Filled()
      ensures Sized(rows.im) && rows.Valid() && Sound(zlib) && rowBuf.Length == RowBytes(bits, rows.im.width) + 1
      ensures |lines| == rows.consumed && Cut(rows.im, bits, out, lines) && out == Output(turns)
      ensures Offset(rows.im, bits, |lines|) <= |out| && nextOut + availOut <= rowBuf.Length
      ensures rowBuf[..nextOut] == out[Offset(rows.im, bits, |lines|)..]
      ensures rows.Missing() ==> nextOut + availOut == LineLength(rows.im, bits, |lines|)
      ensures forall line :: line in lines ==> line[0] < FILTER_VALUE_LAST
    {
      hide Cut, Offset, LineLength, Output, Sound;
    }

    lemma StillFilled()
      requires Sized(rows.im) && rows.Valid() && Sound(zlib) && rowBuf.Length == RowBytes(bits, rows.im.width) + 1
      requires |lines| == rows.consumed && Cut(rows.im, bits, out, lines) && out == Output(turns)
      requires Offset(rows.im, bits, |lines|) <= |out| && nextOut + availOut <= rowBuf.Length
      requires rowBuf[..nextOut] == out[Offset(rows.im, bits, |lines|)..]
      requires rows.Missing() ==> nextOut + availOut == LineLength(rows.im, bits, |lines|)
      requires forall line :: line in lines ==> line[0] < FILTER_VALUE_LAST
      ensures Filled()
    {
      hide Cut, Offset, LineLength, Output, Sound;
    }

    lemma StillValid()
      requires Filled() && (availOut > 0 || nextOut == 0) && (!rows.Missing() ==> nextOut == 0 || finished)
      ensures Valid()
    {
      hide Cut, Offset, LineLength, Output, Shaped;
    }

    lemma TooMuch()
      requires Filled() && !rows.Missing() && nextOut > 0
      ensures |out| > Total(rows.im, bits)
      ensures finished ==> Valid()
    {
      FilledParts();
      rows.StillMissing();
      hide Cut, Offset, LineLength, Output, Shaped;
    }

    /** What is wrong, if anything, in terms of what zlib has put out: the image is complete or not, or there is more
        than the image. */
    ghost predicate Judged(outcome: Outcome)
      reads this`nextOut, this`availOut, this`finished, this`turns, this`lines, this`out, rows, rowBuf
    {
      match outcome
      case BadFilter => Refused() && |out| <= Total(rows.im, bits)
      case ExtraData => Valid() && finished && |out| > Total(rows.im, bits)
      case Truncated => Valid() && finished && |out| == Total(rows.im, bits)
      case Broken => Valid() && finished && |out| < Total(rows.im, bits)
      case ExtraInput => Valid() && finished
      case Fine => Valid() && |out| <= Total(rows.im, bits)
      case NoData => Valid()
    }

    /** One turn of the loop. */
    method OneTurn(input: seq<byte>) returns (t: Turn, outcome: Outcome)
      requires Valid() && !finished && input != []
      modifies this`nextOut, this`availOut, this`finished, this`turns, this`lines, this`out, rows, rowBuf
      ensures turns == old(turns) + [t] && t == Turn(input, t.room, zlib(old(turns), input, t.room))
      ensures Proper(t.result, input, t.room) && out == old(out) + (if t.result.ret == ZError then [] else t.result.out)
      ensures Judged(outcome) && outcome !in {NoData, ExtraInput}
      ensures t.result.ret == ZError <==> outcome == Broken || outcome == Truncated
      ensures outcome == Fine ==> (finished <==> t.result.ret == ZStreamEnd)
    {
      hide *;
      Refill();
      t := Inflate(input);
      if t.result.ret == ZError {
        assert old(out) + [] == out;
        NotTooMuch();
        Finish();
        outcome := if !rows.Missing() then Truncated else Broken;
        JudgeFailure();
        return;
      }
      if nextOut != 0 {
        if !rows.Missing() {
          finished := true;
          TooMuch();
          JudgeSurplus();
          return t, ExtraData;
        }
        GatheredIs();
        if availOut == 0 {
          var ok := ProcessLine();
          if !ok {
            JudgeRefused();
            return t, BadFilter;
          }
        }
      }
      if nextOut == 0 || availOut > 0 { StillValid(); }
      NotTooMuch();
      if t.result.ret == ZStreamEnd {
        Finish();
      }
      outcome := Fine;
      JudgeFine();
    }

    /** PNG_FLAG_ZLIB_FINISHED is set. */
    method Finish()
      requires Valid()
      modifies this`finished
      ensures Valid() && finished
    {
      hide *;
      ValidIs();
      finished := true;
      ValidIs();
    }

    lemma GatheredIs()
      requires Filled() && rows.Missing() && nextOut > 0
      ensures Gathered()
    {
    }

    lemma NotTooMuch()
      requires Valid() && !finished
      ensures |out| <= Total(rows.im, bits)
    {
      MissingMeans();
      rows.StillMissing();
      hide Cut, LineLength, Output, Shaped, Offset;
    }

    lemma JudgeFailure()
      requires Valid() && finished && |out| <= Total(rows.im, bits)
      ensures Judged(if !rows.Missing() then Truncated else Broken)
    {
      MissingMeans();
      hide Valid, Refused, Total;
    }

    lemma JudgeSurplus()
      requires Valid() && finished && |out| > Total(rows.im, bits)
      ensures Judged(ExtraData)
    {
      hide Valid, Refused, Total;
    }

    lemma JudgeRefused()
      requires Refused() && |out| <= Total(rows.im, bits)
      ensures Judged(BadFilter)
    {
      hide Valid, Refused, Total;
    }

    lemma JudgeFine()
      requires Valid() && |out| <= Total(rows.im, bits)
      ensures Judged(Fine) && (finished ==> Judged(ExtraInput))
    {
      hide Valid, Refused, Total;
    }

    /** png_process_IDAT_data: turns until the input is used up or the stream finished. */
    method ProcessIdatData(input: seq<byte>) returns (outcome: Outcome)
      requires Valid() && Tracked()
      modifies this`nextOut, this`availOut, this`finished, this`turns, this`lines, this`out, this`fed, rows, rowBuf
      ensures Judged(outcome) && old(out) <= out && old(turns) <= turns
      ensures fed == old(fed) + input && (outcome != BadFilter ==> Tracked())
      ensures outcome == NoData <==> input == []
      ensures outcome in {Broken, Truncated} <==> |turns| > |old(turns)| && turns[|turns| - 1].result.ret == ZError
    {
      hide *;
      JudgeNothing();
      TrackedIs();
      fed := fed + input;
      if input == [] {
        assert fed == old(fed);
        StillTracked();
        return NoData;
      }
      ghost var image := Total(rows.im, bits);
      var nextIn := 0;
      outcome := Fine;
      assert old(fed) + input[..0] == old(fed);
      while nextIn < |input| && !finished
        invariant 0 <= nextIn <= |input| && Valid() && old(out) <= out && old(turns) <= turns && outcome == Fine
        invariant nextIn > 0 ==> |out| <= image
        invariant |turns| > |old(turns)| ==> turns[|turns| - 1].result.ret != ZError
        invariant fed == old(fed) + input && Genuine(zlib, turns)
        invariant if old(finished) then finished && nextIn == 0 && Consumed(turns) <= old(fed)
                  else Consumed(turns) == old(fed) + input[..nextIn]
        decreases !finished, image - |out|, |input| - nextIn
      {
        NotTooMuch();
        var t;
        ghost var was := turns;
        t, outcome := OneTurn(input[nextIn..]);
        TurnGains(t);
        GenuineMore(zlib, was, t);
        ConsumedMore(was, t);
        UsedMore(old(fed), input, nextIn, t.result.used);
        nextIn := nextIn + t.result.used;
        if outcome != Fine {
          if outcome != BadFilter {
            JudgedOver(outcome);
            StillTracked();
          }
          return;
        }
        FineParts();
      }
      outcome := if nextIn < |input| then ExtraInput else Fine;
      if nextIn < |input| { JudgeLeft(); } else { JudgeFine(); }
      assert input[..|input|] == input;
      StillTracked();
    }

    lemma TrackedIs()
      requires Tracked()
      ensures Genuine(zlib, turns) && if finished then Consumed(turns) <= fed else Consumed(turns) == fed
    {
    }

    lemma StillTracked()
      requires Genuine(zlib, turns) && if finished then Consumed(turns) <= fed else Consumed(turns) == fed
      ensures Tracked()
    {
    }

    lemma JudgedOver(outcome: Outcome)
      requires Judged(outcome) && outcome !in {Fine, BadFilter, NoData}
      ensures finished
    {
    }

    /** zlib holds nothing back: the stream is over, or the last call had room left when its input was used up. */
    ghost predicate AtRest()
      reads this`turns, this`finished
    {
      if turns == [] then !finished
      else
        var t := turns[|turns| - 1];
        Settled(t) && (finished <==> t.result.ret == ZStreamEnd)
    }

    lemma JudgeNothing()
      requires Valid()
      ensures Judged(NoData) && Sized(rows.im)
    {
      hide Cut, Offset, LineLength, Output;
    }

    lemma JudgeLeft()
      requires Valid() && finished
      ensures Judged(ExtraInput)
    {
      hide Valid;
    }

    lemma TurnGains(t: Turn)
      requires Proper(t.result, t.input, t.room)
      ensures t.result.used <= |t.input| && (t.result.ret == ZOk ==> t.result.used > 0 || t.result.out != [])
    {
    }

    lemma FineParts()
      requires Judged(Fine)
      ensures Valid() && |out| <= Total(rows.im, bits)
    {
      hide Valid, Total;
    }

    lemma FilterBound()
      ensures FILTER_VALUE_LAST == 5
    {
    }

    lemma RefusedIs()
      requires Sized(rows.im) && Cut(rows.im, bits, out, lines) && out == Output(turns)
      requires Offset(rows.im, bits, |lines|) < Offset(rows.im, bits, |lines| + 1) == |out|
      requires out[Offset(rows.im, bits, |lines|)] >= FILTER_VALUE_LAST
      ensures Refused()
    {
    }
  }

  lemma UsedMore(before: seq<byte>, input: seq<byte>, n: nat, used: nat)
    requires n + used <= |input|
    ensures before + input[..n] + input[n..][..used] == before + input[..n + used] <= before + input
  {
  }

  lemma WithinTotal(im: Image, bits: nat, n: nat)
    requires Sized(im) && n < DataRows(im)
    ensures Offset(im, bits, n + 1) <= Total(im, bits)
  {
    OffsetsGrow(im, bits, n + 1, DataRows(im));
    hide Offset;
  }

  // --- What the rows depend on ------------------------------------------------------------------

  lemma {:induction false} CutsAgree(im: Image, bits: nat, out: seq<byte>, l: seq<Line>, m: seq<Line>)
    requires Sized(im) && |l| <= |m| && Cut(im, bits, out, l) && Cut(im, bits, out, m)
    ensures l == m[..|l|]
  {
    hide Offset;
    forall k | 0 <= k < |l| ensures l[k] == m[k] {
      assert IsLine(im, bits, out, k, l[k]) && IsLine(im, bits, out, k, m[k]);
    }
  }

  /** The number of rows handed on depends only on how much zlib has put out. */
  lemma LinesByLength(r: ImageReader, n: nat)
    requires r.Valid() && r.rows.Missing() && n <= DataRows(r.rows.im)
    ensures n <= |r.lines| <==> Offset(r.rows.im, r.bits, n) <= |r.out|
  {
    var im, bits, k := r.rows.im, r.bits, |r.lines|;
    if n <= k {
      OffsetsGrow(im, bits, n, k);
    } else {
      OffsetsGrow(im, bits, k + 1, n);
      assert Offset(im, bits, k + 1) == Offset(im, bits, k) + LineLength(im, bits, k);
    }
    hide Offset, LineLength, Cut;
  }

  /** Where the sequencer stands, from the number of rows it has been given. */
  lemma PlaceByCount(r: RowReader)
    requires r.Valid() && r.Missing()
    ensures var p := if r.im.interlaced then PassOfLine(r.im, r.consumed) else 0;
            var k := r.consumed - (if r.im.interlaced then DataRowsBefore(r.im, p) else 0);
            && r.pass == p && 0 <= k
            && r.rowNumber == (if r.im.interlaced && r.im.transform then RowFromPassRow(k, p) else k)
            && r.trace == (if r.im.interlaced then CallsBefore(r.im, p) else []) + CallsOf(r.im, p, r.rowNumber)
  {
    hide PassCols, RowFromPassRow, NextPass, CallsBefore, RowsOf, PassRows, Visited, Blank, DataRowsBefore;
    if r.im.interlaced {
      NextRows(r);
      PassOfLineIs(r.im, r.consumed, 0, r.pass);
    } else {
      assert [] + r.trace == r.trace;
    }
  }

  lemma NextRows(r: RowReader)
    requires r.Valid() && r.Missing() && r.im.interlaced
    ensures DataRowsBefore(r.im, r.pass) <= r.consumed < DataRowsBefore(r.im, r.pass + 1)
  {
    hide PassCols, RowFromPassRow, NextPass, CallsBefore, PassRows, Blank;
  }

  /** Where the sequencer stands, and what it has called, depends only on how many rows it has been given. */
  lemma SequencerByCount(a: RowReader, b: RowReader)
    requires a.Valid() && b.Valid() && a.im == b.im && a.consumed == b.consumed
    ensures a.trace == b.trace && (a.Missing() ==> b.Missing() && a.pass == b.pass && a.rowNumber == b.rowNumber)
  {
    hide *;
    a.StillMissing();
    b.StillMissing();
    if a.Missing() {
      PlaceByCount(a);
      PlaceByCount(b);
    }
  }

  /** However the compressed data was cut, and however zlib portioned what it put out: when it has put out the same
      bytes the same rows have been handed on, and the application has had the same calls. */
  lemma RowsDependOnOutput(a: ImageReader, b: ImageReader)
    requires a.Valid() && b.Valid() && a.rows.im == b.rows.im && a.bits == b.bits && a.out == b.out
    ensures a.lines == b.lines && a.rows.trace == b.rows.trace
  {
    a.MissingMeans();
    b.MissingMeans();
    a.rows.StillMissing();
    b.rows.StillMissing();
    if a.rows.Missing() {
      LinesByLength(a, |b.lines|);
      LinesByLength(b, |a.lines|);
    }
    CutsAgree(a.rows.im, a.bits, a.out, a.lines, b.lines);
    assert b.lines[..|b.lines|] == b.lines;
    SequencerByCount(a.rows, b.rows);
    hide Cut, Offset, LineLength;
  }

  // --- Cutting the compressed data --------------------------------------------------------------

  /** Nothing is held back for want of room. */
  predicate Settled(t: Turn) {
    t.result.ret == ZStreamEnd || (t.result.ret == ZOk && t.result.used == |t.input| && |t.result.out| < t.room)
  }

  /** What zlib has put out when it holds nothing back, and whether its stream is then over, depend only on the input
      it has used; and it does not read past the end of its stream. */
  ghost predicate Streams(zlib: Zlib, z: seq<byte> -> (seq<byte>, bool)) {
    && z([]) == ([], false)
    && (forall h: seq<Turn> :: h != [] && Genuine(zlib, h) && Settled(h[|h| - 1]) ==>
          z(Consumed(h)) == (Output(h), h[|h| - 1].result.ret == ZStreamEnd))
    && (forall h: seq<Turn>, x :: Genuine(zlib, h) && x < Consumed(h) ==> !z(x).1)
  }

  lemma RestIs(r: ImageReader, z: seq<byte> -> (seq<byte>, bool))
    requires r.Valid() && r.Tracked() && r.AtRest() && Streams(r.zlib, z)
    ensures z(Consumed(r.turns)) == (r.out, r.finished)
    ensures if r.finished then Consumed(r.turns) <= r.fed else Consumed(r.turns) == r.fed
  {
    hide Genuine, Cut, Offset, LineLength;
  }

  lemma NotPastEnd(r: ImageReader, z: seq<byte> -> (seq<byte>, bool), x: seq<byte>)
    requires r.Tracked() && Streams(r.zlib, z) && z(x).1
    ensures !(x < Consumed(r.turns))
  {
    hide Genuine, Consumed;
  }

  lemma BothPrefixes(x: seq<byte>, y: seq<byte>, s: seq<byte>)
    requires x <= s && y <= s
    ensures x < y || y < x || x == y
  {
    assert |x| <= |y| ==> x == y[..|x|];
    assert |y| <= |x| ==> y == x[..|y|];
  }

  /** The image data may be cut into calls in any way: two readers that have been handed the same bytes, and whose zlib
      holds nothing back, have handed on the same rows and made the same callbacks. */
  lemma CutIndependence(a: ImageReader, b: ImageReader, z: seq<byte> -> (seq<byte>, bool))
    requires a.Valid() && a.Tracked() && a.AtRest() && b.Valid() && b.Tracked() && b.AtRest()
    requires a.rows.im == b.rows.im && a.bits == b.bits && a.zlib == b.zlib && Streams(a.zlib, z)
    requires a.fed == b.fed
    ensures a.out == b.out && a.finished == b.finished
    ensures a.lines == b.lines && a.rows.trace == b.rows.trace
  {
    hide *;
    RestIs(a, z);
    RestIs(b, z);
    BothPrefixes(Consumed(a.turns), Consumed(b.turns), a.fed);
    if a.finished { NotPastEnd(b, z, Consumed(a.turns)); }
    if b.finished { NotPastEnd(a, z, Consumed(b.turns)); }
    RowsDependOnOutput(a, b);
  }

  /** There are such functions; the simplest copies its input. */
  lemma {:induction false} Copies(zlib: Zlib, h: seq<Turn>)
    requires Genuine(zlib, h)
    requires forall k, input, room :: zlib(k, input, room) == Copied(input, room)
    ensures Output(h) == Consumed(h) && forall i :: 0 <= i < |h| ==> h[i].result.ret == ZOk
    decreases |h|
  {
    if h != [] {
      var n := |h| - 1;
      var t := h[n];
      assert forall i :: 0 <= i < n ==> h[..n][..i] == h[..i];
      assert h == h[..n] + [t];
      assert t.result == Copied(t.input, t.room);
      Copies(zlib, h[..n]);
      hide Genuine, Output, Consumed;
      OutputMore(h[..n], t);
      ConsumedMore(h[..n], t);
    }
  }

  function Copied(input: seq<byte>, room: nat): Inflated {
    var n := Min(|input|, room); Inflated(input[..n], n, ZOk)
  }

  lemma CopyStreams() returns (zlib: Zlib, z: seq<byte> -> (seq<byte>, bool))
    ensures Sound(zlib) && Streams(zlib, z)
  {
    zlib := (h: seq<Turn>, input: seq<byte>, room: nat) => Copied(input, room);
    z := x => (x, false);
    forall h: seq<Turn> | Genuine(zlib, h)
      ensures Output(h) == Consumed(h) && forall i :: 0 <= i < |h| ==> h[i].result.ret == ZOk
    {
      Copies(zlib, h);
    }
    hide Genuine, Output, Consumed;
  }
}
