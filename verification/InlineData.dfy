/** inlinedata.c: finding a file in the terminal's output and feeding it to the PNG reader. */
module InlineData {
  import opened Common
  import opened PngStream
  import opened Base64

  const BUFFERSIZE := 10241
  const DECODED_FIRST := 4096
  const DECODED_LATER := 10240

  // HTERMFILEXFER, HTERMFNORMAL and HTERMFDOUBLE.
  const MAGIC: seq<byte> := [72, 84, 69, 82, 77, 70, 73, 76, 69, 88, 70, 69, 82]
  const NORMAL: seq<byte> := [72, 84, 69, 82, 77, 70, 78, 79, 82, 77, 65, 76]
  const DOUBLE: seq<byte> := [72, 84, 69, 82, 77, 70, 68, 79, 85, 66, 76, 69]

  /** The bytes of a string. */
  function Ascii(s: string): seq<byte>
    requires forall i :: 0 <= i < |s| ==> s[i] < 128 as char
  {
    seq(|s|, i requires 0 <= i < |s| => s[i] as int)
  }

  lemma WordsAre()
    ensures MAGIC == Ascii("HTERMFILEXFER") && NORMAL == Ascii("HTERMFNORMAL") && DOUBLE == Ascii("HTERMFDOUBLE")
  {
  }

  // --- The window and the search ----------------------------------------------------------------

  /** What the buffer keeps of everything pushed: the last BUFFERSIZE bytes. */
  function Last(s: seq<byte>): (r: seq<byte>)
    ensures |r| <= 10241
  {
    if |s| <= BUFFERSIZE then s else s[|s| - BUFFERSIZE..]
  }

  /** Exactly 10241 of them, when there are as many. */
  lemma LastIs(s: seq<byte>)
    ensures |Last(s)| == Min(|s|, 10241) && Last(s) == s[|s| - |Last(s)|..]
  {
  }

  predicate MatchAt(w: seq<byte>, v: seq<byte>, n: nat) {
    n + |v| <= |w| && w[n..n + |v|] == v
  }

  /** buffer_search: the first place where v is found with at least one byte behind it, or -1. A match at the very
      end of the window is not seen. */
  ghost predicate Found(w: seq<byte>, v: seq<byte>, pos: int) {
    if pos < 0 then pos == -1 && forall n: nat :: n + |v| < |w| ==> !MatchAt(w, v, n)
    else pos + |v| < |w| && MatchAt(w, v, pos) && forall n: nat :: n < pos ==> !MatchAt(w, v, n)
  }

  function Search(w: seq<byte>, v: seq<byte>, from: nat := 0): (pos: int)
    decreases |w| - from
  {
    if from + |v| >= |w| then -1 else if MatchAt(w, v, from) then from else Search(w, v, from + 1)
  }

  lemma {:induction false} SearchFinds(w: seq<byte>, v: seq<byte>, from: nat)
    requires forall n: nat :: n < from ==> !MatchAt(w, v, n)
    ensures Found(w, v, Search(w, v, from))
    decreases |w| - from
  {
    if from + |v| < |w| && !MatchAt(w, v, from) { SearchFinds(w, v, from + 1); }
  }

  // --- One call ---------------------------------------------------------------------------------

  /** The globals of inlinedata.c and base64.c. The reader is what png_process_data has made of its bytes, and seen is
      what it has reported of the current file. */
  datatype St = St(window: seq<byte>, processing: bool, fileEnd: bool, held: seq<bit>,
                   reader: Option<(State, seq<byte>)>, seen: seq<Event>, fontSize: nat)

  predicate Ended(s: State) { s.Failed? || s.mode == DoneMode }

  /** inlinepng_process_data: an error destroys the reader; so does its end, in end_callback, which also ends the
      file. Without a reader the file is over. */
  function ToReader(cfg: Config, st: St, data: seq<byte>): St {
    match st.reader
    case None => st.(fileEnd := true)
    case Some(sp) =>
      var r := Feed(cfg, sp, data);
      if r.0.Failed? then st.(reader := None, seen := r.0.trace)
      else if r.0.mode == DoneMode then st.(reader := None, seen := r.0.trace, fileEnd := true)
      else st.(reader := Some(r), seen := r.0.trace)
  }

  /** inline_data_receive while a file is coming in. */
  function Continue(cfg: Config, st: St, data: seq<byte>): (r: (St, int))
    requires |st.held| < 8
    ensures |r.0.held| < 8
  {
    if st.fileEnd then (st.(processing := false), 1)
    else
      var d := Decode(st.held, data);
      var t := st.(held := d.held);
      var u := if d.out != [] then ToReader(cfg, t, d.out) else t;
      if u.fileEnd then (u.(processing := false), 1)
      else if d.fail then (u.(fileEnd := true, processing := false), 2)
      else (u, 1)
  }

  /** The bytes are in the window, which has been searched for the three words. */
  function Heard(st: St, data: seq<byte>): (St, int) {
    var w := Last(st.window + data);
    var size := if Search(w, DOUBLE) > 0 then 32 else if Search(w, NORMAL) > 0 then 16 else st.fontSize;
    (st.(fileEnd := false, window := w, fontSize := size), Search(w, MAGIC))
  }

  /** A new file, whose text begins with this one. */
  function Started(cfg: Config, st: St, text: seq<byte>): (r: (St, int))
    ensures |r.0.held| < 8
  {
    var d := Decode([], text);
    var u := st.(processing := true, held := d.held, reader := Some((Start(0), [])), seen := []);
    var x := if d.out != [] then ToReader(cfg, u, d.out) else u;
    (x.(window := [], processing := !d.fail), if d.fail then 0 else 2)
  }

  /** inline_data_receive while there is no file. */
  function Listen(cfg: Config, st: St, data: seq<byte>): (r: (St, int))
    requires |st.held| < 8
    ensures |r.0.held| < 8
  {
    var (t, pos) := Heard(st, data);
    if pos < 0 then (t, 0)
    else
      SearchFinds(t.window, MAGIC, 0);
      Started(cfg, t, t.window[pos + |MAGIC|..])
  }

  /** The base64 text that a call decodes. */
  function Text(st: St, data: seq<byte>): seq<byte> {
    if st.processing then (if st.fileEnd then [] else data)
    else
      var w := Last(st.window + data);
      var pos := Search(w, MAGIC);
      SearchFinds(w, MAGIC, 0);
      if pos < 0 then [] else w[pos + |MAGIC|..]
  }

  /** What a call needs: its text is ASCII and fits, decoded, in the array on the stack. */
  predicate Fits(st: St, data: seq<byte>)
    requires |st.held| < 8
  {
    var text := Text(st, data);
    && (forall i :: 0 <= i < |text| ==> text[i] < 128)
    && |Decode(if st.processing then st.held else [], text).out|
       <= Capacity(st)
  }

  function Capacity(st: St): nat { if st.processing then DECODED_LATER else DECODED_FIRST }

  /** Exactly when a call fits: its text is ASCII, and six bits for each letter before the first character that ends
      the call, behind the bits held, are no more bytes than the array has. */
  lemma FitsExactly(st: St, data: seq<byte>)
    requires |st.held| < 8
    ensures var text := Text(st, data);
            Fits(st, data) <==>
              && (forall i :: 0 <= i < |text| ==> text[i] < 128)
              && ((if st.processing then |st.held| else 0) + 6 * LettersBefore(text)) / 8
                 <= (if st.processing then 10240 else 4096)
  {
    hide Decode, LettersBefore, Text;
    DecodeSize(if st.processing then st.held else [], Text(st, data));
  }

  /** inline_data_receive, for a call whose text fits. */
  function Receive(cfg: Config, st: St, data: seq<byte>): (r: (St, int))
    requires |st.held| < 8 && Fits(st, data)
    ensures |r.0.held| < 8
  {
    if st.processing then Continue(cfg, st, data) else Listen(cfg, st, data)
  }

  // --- What a call does -------------------------------------------------------------------------

  /** The word stands in the window, with a byte behind it, and not at its very front. */
  predicate HeardIn(w: seq<byte>, v: seq<byte>) {
    !MatchAt(w, v, 0) && exists n :: 0 < n < |w| - |v| && MatchAt(w, v, n)
  }

  lemma SearchInside(w: seq<byte>, v: seq<byte>)
    ensures Search(w, v) > 0 <==> HeardIn(w, v)
    ensures Search(w, v) >= 0 <==> exists n: nat :: n < |w| - |v| && MatchAt(w, v, n)
  {
    SearchFinds(w, v, 0);
    hide Search, MatchAt;
    if HeardIn(w, v) {
      var n :| 0 < n < |w| - |v| && MatchAt(w, v, n);
      assert n + |v| < |w|;
    }
  }

  /** Which font size a call sets: a double size counts more than a normal one, and neither is heard in a file. */
  lemma FontSizeSet(cfg: Config, st: St, data: seq<byte>)
    requires |st.held| < 8 && Fits(st, data)
    ensures var w := Last(st.window + data);
            Receive(cfg, st, data).0.fontSize ==
              if st.processing then st.fontSize
              else if HeardIn(w, DOUBLE) then 32
              else if HeardIn(w, NORMAL) then 16
              else st.fontSize
  {
    SearchInside(Last(st.window + data), DOUBLE);
    SearchInside(Last(st.window + data), NORMAL);
    hide Search, Last, HeardIn, Decode, Feed, Fits, MAGIC, NORMAL, DOUBLE;
  }

  /** The bytes of this call end the file: there is no reader left, or they take it to its end. */
  predicate EndsFile(cfg: Config, st: St, out: seq<byte>) {
    out != [] && (st.reader.None? || (var t := Feed(cfg, st.reader.value, out).0; t.Running? && t.mode == DoneMode))
  }

  /** What a call returns, and whether a file is under way afterwards. In a file it is 2 for text that cannot be
      decoded, unless its bytes ended the file before, and else 1. Without one it is 2 when a file has been found and
      its first text can be decoded, and else 0. */
  lemma ResultMeans(cfg: Config, st: St, data: seq<byte>)
    requires |st.held| < 8 && Fits(st, data)
    ensures var (r, code) := Receive(cfg, st, data); var d := Decode(st.held, data);
            st.processing ==>
              && code == (if !st.fileEnd && d.fail && !EndsFile(cfg, st, d.out) then 2 else 1)
              && (r.processing <==> !st.fileEnd && !d.fail && !EndsFile(cfg, st, d.out))
    ensures var (r, code) := Receive(cfg, st, data); var w := Last(st.window + data);
            !st.processing ==>
              && code == (if Search(w, MAGIC) >= 0 && !Decode([], Text(st, data)).fail then 2 else 0)
              && (r.processing <==> code == 2) && (Search(w, MAGIC) >= 0 ==> r.window == [])
  {
    hide Search, Last, Decode, Feed, MAGIC, NORMAL, DOUBLE;
  }

  lemma LastNone(w: seq<byte>, data: seq<byte>)
    requires |w| <= BUFFERSIZE
    ensures Last(w + data[..0]) == w
  {
    assert w + data[..0] == w;
  }

  lemma LastStep(w: seq<byte>, data: seq<byte>, n: nat)
    requires n < |data|
    ensures Last(Last(w + data[..n]) + [data[n]]) == Last(w + data[..n + 1])
  {
    var s := w + data[..n];
    assert w + data[..n + 1] == s + [data[n]];
    LastAgain(s, [data[n]]);
  }

  /** The window does not depend on how its contents arrived. */
  lemma LastAgain(s: seq<byte>, t: seq<byte>)
    ensures Last(Last(s) + t) == Last(s + t)
  {
    if |s| > BUFFERSIZE { assert Last(s) + t == (s + t)[|s| - BUFFERSIZE..]; }
  }

  // --- The receiver -----------------------------------------------------------------------------

  class Receiver {
    const cfg: Config
    const decoder: Decoder
    const buffer: array<byte>
    var bufferSize: nat
    var processing: bool
    var fileEnd: bool
    var reader: Option<(State, seq<byte>)>
    var seen: seq<Event>
    var fontSize: nat

    ghost predicate BufferOk()
      reads this`bufferSize
    {
      bufferSize <= BUFFERSIZE == buffer.Length
    }

    function Window(): seq<byte>
      reads this`bufferSize, buffer
      requires BufferOk()
    {
      buffer[..bufferSize]
    }

    /** buffer_shift. */
    method BufferShift()
      requires BufferOk()
      modifies buffer
      ensures buffer[..BUFFERSIZE - 1] == old(buffer[1..])
    {
      for n := 0 to BUFFERSIZE - 1
        invariant forall k :: 0 <= k < n ==> buffer[k] == old(buffer[k + 1])
        invariant forall k :: n <= k < BUFFERSIZE ==> buffer[k] == old(buffer[k])
      {
        buffer[n] := buffer[n + 1];
      }
    }

    method PushOne(b: byte)
      requires BufferOk()
      modifies this`bufferSize, buffer
      ensures BufferOk() && Window() == Last(old(Window()) + [b])
    {
      if bufferSize < BUFFERSIZE {
        buffer[bufferSize] := b;
        bufferSize := bufferSize + 1;
      } else {
        BufferShift();
        buffer[BUFFERSIZE - 1] := b;
      }
    }

    /** buffer_push. */
    method BufferPush(data: seq<byte>)
      requires BufferOk()
      modifies this`bufferSize, buffer
      ensures BufferOk() && Window() == Last(old(Window()) + data)
    {
      ghost var w := Window();
      assert |w| <= BUFFERSIZE;
      hide *;
      LastNone(w, data);
      for n := 0 to |data|
        invariant BufferOk() && Window() == Last(w + data[..n])
      {
        PushOne(data[n]);
        LastStep(w, data, n);
      }
      assert data[..|data|] == data;
    }

    lemma WindowSlice(n: nat, m: nat)
      requires BufferOk() && n <= m <= bufferSize
      ensures |Window()| == bufferSize && Window()[n..m] == buffer[n..m]
    {
    }

    /** buffer_search. */
    method BufferSearch(v: seq<byte>) returns (pos: int)
      requires BufferOk()
      ensures pos == Search(Window(), v)
    {
      WindowSlice(0, 0);
      if bufferSize < |v| { return -1; }
      ghost var w := Window();
      for n := 0 to bufferSize - |v|
        invariant Search(w, v) == Search(w, v, n)
      {
        hide Window;
        WindowSlice(n, n + |v|);
        if buffer[n..n + |v|] == v {
          return n;
        }
      }
      pos := -1;
    }

    constructor (cfg: Config)
      ensures Valid() && Abs() == St([], false, false, [], None, [], 0) && this.cfg == cfg
    {
      this.cfg := cfg;
      decoder := new Decoder();
      buffer := new byte[BUFFERSIZE](_ => 0);
      bufferSize, processing, fileEnd, reader, seen, fontSize := 0, false, false, None, [], 0;
    }

    ghost predicate Valid()
      reads this`bufferSize, decoder`lookup, decoder`bits, decoder`bitPos, decoder.lookup
    {
      && BufferOk() && decoder.Ready()
      && (buffer as object) != decoder.bits && (buffer as object) != decoder.lookup
    }

    function Abs(): St
      reads this, buffer, decoder`lookup, decoder`bits, decoder`bitPos, decoder.lookup, decoder.bits
      requires Valid()
    {
      St(Window(), processing, fileEnd, decoder.Held(), reader, seen, fontSize)
    }

    /** inlinepng_process_data. */
    method ProcessPng(data: seq<byte>)
      modifies this`reader, this`seen, this`fileEnd
      ensures forall st: St :: st.reader == old(reader) && st.fileEnd == old(fileEnd) && st.seen == old(seen) ==>
                ToReader(cfg, st, data) == st.(reader := reader, seen := seen, fileEnd := fileEnd)
    {
      if reader.None? {
        fileEnd := true;
        return;
      }
      var r := Feed(cfg, reader.value, data);
      seen := r.0.trace;
      if r.0.Failed? {
        reader := None;
      } else if r.0.mode == DoneMode {
        reader := None;
        fileEnd := true;
      } else {
        reader := Some(r);
      }
    }

    /** The text is decoded into an array of this capacity, and what came out goes to the PNG reader. */
    method DecodeAndProcess(text: seq<byte>, capacity: nat) returns (size: nat, failflag: bool)
      requires Valid() && (forall i :: 0 <= i < |text| ==> text[i] < 128)
      requires |Decode(decoder.Held(), text).out| <= capacity
      modifies this`reader, this`seen, this`fileEnd, decoder`bitPos, decoder.bits
      ensures Valid() && Window() == old(Window())
      ensures var d := Decode(old(decoder.Held()), text);
              var t := old(Abs()).(held := d.held);
              Abs() == (if d.out != [] then ToReader(cfg, t, d.out) else t)
              && failflag == d.fail && size == |d.out|
    {
      var decoded := new byte[capacity](_ => 0);
      ghost var d := Decode(decoder.Held(), text);
      hide Decode, ToReader, Base64.Emit;
      size, failflag := decoder.DecodeInto(text, decoded);
      if size != 0 {
        assert decoded[..size] == d.out;
        ProcessPng(decoded[..size]);
      }
    }

    /** inline_data_receive with a file under way. */
    method ReceiveMore(data: seq<byte>) returns (result: int)
      requires Valid() && processing && Fits(Abs(), data)
      modifies this`processing, this`fileEnd, this`reader, this`seen, decoder`bitPos, decoder.bits
      ensures Valid() && (Abs(), result) == Continue(cfg, old(Abs()), data)
    {
      hide ToReader, Decode, Emit;
      if fileEnd {
        processing := false;
        return 1;
      }
      var size, failflag := DecodeAndProcess(data, DECODED_LATER);
      if size != 0 {
        if fileEnd {
          processing := false;
          return 1;
        }
      }
      if failflag {
        fileEnd := true;
        processing := false;
        return 2;
      }
      assert !fileEnd;  // the source tests file_end once more here
      return 1;
    }

    /** The bytes go through the window, which is then searched. */
    method PushAndSearch(data: seq<byte>) returns (pos: int)
      requires Valid()
      modifies this`fileEnd, this`bufferSize, this`fontSize, buffer
      ensures Valid() && (Abs(), pos) == Heard(old(Abs()), data)
    {
      hide Search, Last;
      fileEnd := false;
      BufferPush(data);
      var npos := BufferSearch(NORMAL);
      if npos > 0 { fontSize := 16; }
      var dpos := BufferSearch(DOUBLE);
      if dpos > 0 { fontSize := 32; }
      pos := BufferSearch(MAGIC);
    }

    /** A new file, whose text begins in the window. */
    method StartFile(text: seq<byte>) returns (result: int)
      requires Valid() && (forall i :: 0 <= i < |text| ==> text[i] < 128)
      requires |Decode([], text).out| <= DECODED_FIRST
      modifies this`processing, this`fileEnd, this`reader, this`seen, this`bufferSize,
               decoder`bitPos, decoder.bits, decoder.lookup
      ensures Valid() && (Abs(), result) == Started(cfg, old(Abs()), text)
    {
      hide ToReader, Decode, Emit;
      processing := true;
      decoder.Init();
      reader := Some((Start(0), []));
      seen := [];
      var size, failflag := DecodeAndProcess(text, DECODED_FIRST);
      bufferSize := 0;
      assert Window() == [];
      if failflag {
        processing := false;
        return 0;
      }
      return 2;
    }

    /** inline_data_receive without a file: its text may begin in this call. */
    method ReceiveFirst(data: seq<byte>) returns (result: int)
      requires Valid() && !processing && Fits(Abs(), data)
      modifies this`processing, this`fileEnd, this`reader, this`seen, this`bufferSize, this`fontSize, buffer,
               decoder`bitPos, decoder.bits, decoder.lookup
      ensures Valid() && (Abs(), result) == Listen(cfg, old(Abs()), data)
    {
      hide Started, Decode, Emit, Search, Last;
      SearchFinds(Last(Window() + data), MAGIC, 0);
      var pos := PushAndSearch(data);
      if pos < 0 { return 0; }
      result := StartFile(Window()[pos + |MAGIC|..]);
    }

    /** inline_data_receive. */
    method ReceiveData(data: seq<byte>) returns (result: int)
      requires Valid() && Fits(Abs(), data)
      modifies this`processing, this`fileEnd, this`reader, this`seen, this`bufferSize, this`fontSize, buffer,
               decoder`bitPos, decoder.bits, decoder.lookup
      ensures Valid() && (Abs(), result) == Receive(cfg, old(Abs()), data)
    {
      if processing {
        result := ReceiveMore(data);
      } else {
        result := ReceiveFirst(data);
      }
    }
  }
}
