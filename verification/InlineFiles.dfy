/** What the receiver makes of files in the terminal's output: one file, one after another, and the cases that lose
    something. */
module InlineFiles {
  import opened Common
  import opened PngStream
  import opened Base64
  import opened Base64RoundTrip
  import opened InlineData
  import opened InlineTransfer
  import PngFile
  import PngBytes

  // --- One file ---------------------------------------------------------------------------------

  /** No file is coming in and the bytes seen have been heard. In the stream that the pieces continue the first word
      stands at f; the call that brings the first byte behind it still has it in the window; and every call fits. */
  ghost predicate Heralded(cfg: Config, st: St, seen: seq<byte>, pieces: seq<seq<byte>>, f: nat) {
    && |st.held| < 8 && !st.processing && st.window == Last(seen) && |seen| <= f + |MAGIC|
    && FirstAt(seen + Concat(pieces), f) && f + |MAGIC| < |seen + Concat(pieces)|
    && BufferSuffices(pieces, |seen|, f) && AllFit(cfg, st, pieces)
  }

  function TextOf(seen: seq<byte>, pieces: seq<seq<byte>>, f: nat): seq<byte> {
    Behind(seen + Concat(pieces), f + |MAGIC|)
  }

  /** The call before the last has started the file, and the reader is still at work. */
  predicate LastCallEnds(cfg: Config, seen: seq<byte>, pieces: seq<seq<byte>>, f: nat) {
    f + |MAGIC| < |seen + ButLast(pieces)| && Alive(cfg, Behind(seen + ButLast(pieces), f + |MAGIC|))
  }

  /** The last call is the one that starts the file. */
  predicate LastCallStarts(seen: seq<byte>, pieces: seq<seq<byte>>, f: nat) { |seen + ButLast(pieces)| <= f + |MAGIC| }

  /** When the text behind the word encodes the bytes b, with spaces and line ends anywhere, the reader gets exactly
      b, however the stream is cut. */
  lemma FileArrives(cfg: Config, st: St, seen: seq<byte>, pieces: seq<seq<byte>>, f: nat,
                    b: seq<byte>)
    requires Heralded(cfg, st, seen, pieces, f) && Strip(TextOf(seen, pieces, f)) == Encode(b)
    requires OneTransfer(cfg, seen + Concat(pieces), seen + ButLast(pieces), f + |MAGIC|)
    ensures var r := ReceiveAll(cfg, st, pieces); var s := Run(cfg, Start(0), b).0;
            && r.seen == s.trace
            && (LastCallEnds(cfg, seen, pieces, f) && s.Running? && s.mode == DoneMode ==> Rests(r))
            && (LastCallStarts(seen, pieces, f) && s.Running? && s.mode == DoneMode ==> r.processing && r.fileEnd)
  {
    var text := TextOf(seen, pieces, f);
    hide Run, Receive, Strip, Encode, BufferSuffices, FirstAt, Padded, OneTransfer, Behind, Rests;
    EncodedIsPadded(text, b);
    OnePiece(text, b);
    EndToEnd(cfg, st, seen, pieces, f);
  }

  lemma OnePiece(text: seq<byte>, b: seq<byte>)
    requires Strip(text) == Encode(b)
    ensures Decode([], text).out == b
  {
    hide Decode, Strip, Encode;
    assert Concat([text]) == text by { assert [text][1..] == []; assert text + [] == text; }
    RoundTrip(b, [text]);
    var d := Decode([], text);
    assert [text][1..] == [] && d.out + [] == d.out;
  }

  lemma EncodedIsPadded(text: seq<byte>, b: seq<byte>)
    requires Strip(text) == Encode(b)
    ensures Padded(text)
  {
    hide Strip, Encode, Bare, Tail;
    EncodeParts(b);
    var u, v := SplitText(text, LettersOf(b), PadsOf(b));
    assert text[..|u|] == u && text[|u|..] == v;
  }

  /** The bytes of a file. */
  function FileBytes(file: PngFile.File): seq<byte>
    requires PngFile.AllFramed(PngFile.Chunks(file))
  {
    SIGNATURE + PngFile.SerializeAll(PngFile.Chunks(file))
  }

  /** The stream holds the file, in base64. */
  ghost predicate Carries(cfg: Config, text: seq<byte>, file: PngFile.File) {
    PngFile.WellFormed(cfg, file) && PngFile.AllFramed(PngFile.Chunks(file)) && Strip(text) == Encode(FileBytes(file))
  }

  lemma TailHasNoWord(s: seq<byte>)
    requires Tail(s)
    ensures NoWord(s)
  {
    forall n: nat ensures !MatchAt(s, MAGIC, n) {
      if MatchAt(s, MAGIC, n) { MatchHead(s, n); }
    }
  }

  lemma MatchHead(s: seq<byte>, n: nat)
    requires MatchAt(s, MAGIC, n)
    ensures n < |s| && s[n] == 72
  {
    assert s[n] == s[n..n + |MAGIC|][0];
  }

  lemma BytesSoFar(b: seq<byte>, text: seq<byte>, k: nat)
    requires Strip(text) == Encode(b) && k <= |text|
    ensures Decode([], text[..k]).out <= b
  {
    hide *;
    EncodedIsPadded(text, b);
    assert text[..k] + text[k..] == text;
    DecodePadded(text[..k], text[k..]);
    OnePiece(text, b);
    AfterOut(Decode([], text[..k]).out, Decode(Decode([], text[..k]).held, text[k..]));
  }

  lemma AfterOut(out: seq<byte>, d: Decoded)
    ensures out <= After(out, d).out
  {
  }

  /** The reader of a well-formed file ends with its last byte, and the last byte comes out with the last letter: so
      only white space and padding can follow, and no word. */
  lemma PngIsOneWord(cfg: Config, text: seq<byte>, file: PngFile.File)
    requires Carries(cfg, text, file)
    ensures OneWord(cfg, text)
  {
    var b := FileBytes(file);
    hide Strip, Encode, Decode, Run, NoWord, Tail, PngFile.WellFormed, PngFile.AllFramed, PngFile.Chunks,
         PngFile.SerializeAll;
    forall k: nat | k <= |text| && !Alive(cfg, text[..k]) ensures NoWord(text[k..]) {
      LastLetterLastByte(b, text, k);
      BytesSoFar(b, text, k);
      var m := |Decode([], text[..k]).out|;
      if m < |b| {
        assert Decode([], text[..k]).out == b[..m];
        PngBytes.EndsWithLastByte(cfg, file, m);
      } else {
        TailHasNoWord(text[k..]);
      }
    }
  }

  /** And when the bytes are a well-formed PNG file, the reader reports exactly the chunks it was made of, and its
      end. */
  lemma PngArrives(cfg: Config, st: St, seen: seq<byte>, pieces: seq<seq<byte>>, f: nat,
                   file: PngFile.File)
    requires Heralded(cfg, st, seen, pieces, f) && Carries(cfg, TextOf(seen, pieces, f), file)
    ensures var r := ReceiveAll(cfg, st, pieces);
            && r.seen == PngFile.AllEvents(PngFile.Chunks(file), false) + [End]
            && (LastCallEnds(cfg, seen, pieces, f) ==> Rests(r))
            && (LastCallStarts(seen, pieces, f) ==> r.processing && r.fileEnd)
  {
    hide Run, Receive, Strip, Encode, BufferSuffices, FirstAt, OneWord, Rests, PngFile.WellFormed, PngFile.AllEvents,
         PngFile.Chunks, PngFile.SerializeAll, PngFile.AllFramed, LastCallEnds, Heralded, TextOf;
    PngIsOneWord(cfg, TextOf(seen, pieces, f), file);
    var t := PngFile.FileRoundTrip(cfg, file);
    assert OneTransfer(cfg, seen + Concat(pieces), seen + ButLast(pieces), f + |MAGIC|) by { TextIs(seen, pieces, f); }
    FileArrives(cfg, st, seen, pieces, f, FileBytes(file));
  }

  lemma TextIs(seen: seq<byte>, pieces: seq<seq<byte>>, f: nat)
    ensures TextOf(seen, pieces, f) == Behind(seen + Concat(pieces), f + |MAGIC|)
  {
  }

  // --- Files that can be sent -------------------------------------------------------------------

  lemma {:induction false} EncodedIsAscii(b: seq<byte>)
    ensures forall i :: 0 <= i < |Encode(b)| ==> Encode(b)[i] < 128 && !White(Encode(b)[i])
  {
    if |b| >= 3 { EncodedIsAscii(b[3..]); }
  }

  lemma {:induction false} NothingToStrip(s: seq<byte>)
    requires forall i :: 0 <= i < |s| ==> !White(s[i])
    ensures Strip(s) == s
  {
    if s != [] { NothingToStrip(s[1..]); }
  }

  lemma {:induction false} LettersBound(s: seq<byte>)
    ensures LettersBefore(s) <= |s|
  {
    if s != [] { LettersBound(s[1..]); }
  }

  /** One letter makes no byte, and the reader has not begun. */
  lemma OneLetter(cfg: Config, c: byte)
    ensures Decode([], [c]).out == [] && Alive(cfg, [c])
  {
    DecodeSize([], [c]);
    LettersBound([c]);
    hide Decode, LettersBefore;
    assert Run(cfg, Start(0), []) == (Start(0), []);
  }

  lemma TwoPieces(p: seq<byte>, q: seq<byte>)
    ensures [] + Concat([p, q]) == Concat([p, q]) == p + q && [] + ButLast([p, q]) == p
  {
    var both, one := [p, q], [q];
    assert both[1..] == one && one[1..] == [];
    assert Concat(one) == q && ButLast(one) == [];
  }

  /** Every well-formed file can be sent, if its encoding is not too long for the second array, in two calls: the word
      with the first letter, and the rest. All that the theorems ask for then holds. */
  lemma SmallFileIsSent(cfg: Config, st: St, file: PngFile.File) returns (pieces: seq<seq<byte>>)
    requires |st.held| < 8 && Rests(st) && PngFile.WellFormed(cfg, file) && PngFile.AllFramed(PngFile.Chunks(file))
    requires 6 * |Encode(FileBytes(file))| + 7 <= 8 * DECODED_LATER
    ensures Heralded(cfg, st, [], pieces, 0) && Carries(cfg, TextOf([], pieces, 0), file)
    ensures LastCallEnds(cfg, [], pieces, 0)
  {
    hide *;
    var text := Encode(FileBytes(file));
    EncodedIsAscii(FileBytes(file));
    NothingToStrip(text);
    FileIsNotEmpty(file);
    var c, rest := text[0], text[1..];
    pieces := [MAGIC + [c], rest];
    EncodedIsPadded(text, FileBytes(file));
    assert text == [c] + rest;
    FirstCallFits(cfg, st, c, rest);
    SecondCallFits(cfg, Receive(cfg, st, MAGIC + [c]).0, [c], rest);
    TwoCalls(cfg, st, c, rest);
    CarriesIs(cfg, [c] + rest, file);
  }

  lemma FileIsNotEmpty(file: PngFile.File)
    requires PngFile.AllFramed(PngFile.Chunks(file))
    ensures Encode(FileBytes(file)) != []
  {
    assert |FileBytes(file)| >= 3;
    hide PngFile.SerializeAll, Alphabet;
  }

  lemma CarriesIs(cfg: Config, text: seq<byte>, file: PngFile.File)
    requires PngFile.WellFormed(cfg, file) && PngFile.AllFramed(PngFile.Chunks(file))
    requires Strip(text) == Encode(FileBytes(file))
    ensures Carries(cfg, text, file)
  {
    hide Strip, Encode, FileBytes, PngFile.WellFormed;
  }

  /** The first call: the word and one letter start the file. */
  lemma FirstCallFits(cfg: Config, st: St, c: byte, rest: seq<byte>)
    requires |st.held| < 8 && Rests(st) && c < 128 && Padded([c] + rest)
    ensures Fits(st, MAGIC + [c]) && During(cfg, Receive(cfg, st, MAGIC + [c]).0, [c])
    ensures FirstAt(MAGIC + [c] + rest, 0)
  {
    var p := MAGIC + [c];
    WordFirst([c]);
    assert Text(st, p) == [c];
    LettersBound([c]);
    assert FirstAt(p + rest, 0) by { assert (p + rest)[..|MAGIC|] == MAGIC; }
    assert [] + p + rest == p + rest && Last([]) == [] == st.window && [] + p == p;
    hide *;
    FitsExactly(st, p);
    assert Capacity(st) > 0 by { SomeRoom(st); }
    MagicIs();
    HearMore(cfg, st, [], p, rest, 0);
    PaddedPrefix([c], rest);
    StartText(cfg, Heard(st, p).0, [c]);
    OneLetter(cfg, c);
  }

  lemma SomeRoom(st: St)
    ensures Capacity(st) > 0
  {
  }

  lemma MagicIs()
    ensures |MAGIC| == 13 < BUFFERSIZE
  {
  }

  /** The second call: the file is under way. */
  lemma SecondCallFits(cfg: Config, st: St, text: seq<byte>, rest: seq<byte>)
    requires |st.held| < 8 && During(cfg, st, text) && (forall i :: 0 <= i < |rest| ==> rest[i] < 128)
    requires 6 * |rest| + 7 <= 8 * DECODED_LATER
    ensures Fits(st, rest)
  {
    FitsExactly(st, rest);
    LettersBound(rest);
    hide Fits, LettersBefore, ReaderOf, Alive;
  }

  lemma TwoCalls(cfg: Config, st: St, c: byte, rest: seq<byte>)
    requires |st.held| < 8 && Rests(st) && Fits(st, MAGIC + [c]) && Fits(Receive(cfg, st, MAGIC + [c]).0, rest)
    requires FirstAt(MAGIC + [c] + rest, 0)
    ensures Heralded(cfg, st, [], [MAGIC + [c], rest], 0) && TextOf([], [MAGIC + [c], rest], 0) == [c] + rest
    ensures LastCallEnds(cfg, [], [MAGIC + [c], rest], 0)
  {
    var p := MAGIC + [c];
    hide Fits, Receive, FirstAt, Alive, Concat, ButLast, AllFit, BufferSuffices;
    TwoPieces(p, rest);
    OneLetter(cfg, c);
    BothFit(cfg, st, p, rest);
    FirstSuffices(p, rest);
    assert p + rest == MAGIC + ([c] + rest) && Last([]) == [];
  }

  lemma BothFit(cfg: Config, st: St, p: seq<byte>, q: seq<byte>)
    requires |st.held| < 8 && Fits(st, p) && Fits(Receive(cfg, st, p).0, q)
    ensures AllFit(cfg, st, [p, q])
  {
    hide Fits, Receive;
    var both, one := [p, q], [q];
    assert both[1..] == one;
    assert AllFit(cfg, Receive(cfg, st, p).0, one);
  }

  lemma FirstSuffices(p: seq<byte>, q: seq<byte>)
    requires |MAGIC| < |p| <= BUFFERSIZE
    ensures BufferSuffices([p, q], 0, 0)
  {
  }

  // --- What follows a file ----------------------------------------------------------------------

  lemma {:induction false} AllFitConcat(cfg: Config, st: St, xs: seq<seq<byte>>, ys: seq<seq<byte>>)
    requires |st.held| < 8 && AllFit(cfg, st, xs) && AllFit(cfg, ReceiveAll(cfg, st, xs), ys)
    ensures AllFit(cfg, st, xs + ys)
    ensures ReceiveAll(cfg, st, xs + ys) == ReceiveAll(cfg, ReceiveAll(cfg, st, xs), ys)
    decreases |xs|
  {
    hide Receive, Fits;
    if xs == [] {
      assert xs + ys == ys;
    } else {
      assert (xs + ys)[0] == xs[0] && (xs + ys)[1..] == xs[1..] + ys;
      AllFitConcat(cfg, Receive(cfg, st, xs[0]).0, xs[1..], ys);
    }
  }

  /** Two files in one stream, with anything between them that is not the word. When the last call of the first
      transfer is the one that completes its file, the second file is found and read as if it were the only one. */
  lemma TwoFiles(cfg: Config, st: St, seen: seq<byte>, first: seq<seq<byte>>, f: nat,
                 one: PngFile.File, second: seq<seq<byte>>, g: nat, two: PngFile.File)
    requires Heralded(cfg, st, seen, first, f) && Carries(cfg, TextOf(seen, first, f), one)
    requires LastCallEnds(cfg, seen, first, f)
    requires FirstAt(Concat(second), g) && g + |MAGIC| < |Concat(second)| && BufferSuffices(second, 0, g)
    requires AllFit(cfg, ReceiveAll(cfg, st, first), second) && Carries(cfg, TextOf([], second, g), two)
    ensures ReceiveAll(cfg, st, first).seen == PngFile.AllEvents(PngFile.Chunks(one), false) + [End]
    ensures AllFit(cfg, st, first + second)
    ensures ReceiveAll(cfg, st, first + second).seen == PngFile.AllEvents(PngFile.Chunks(two), false) + [End]
  {
    hide *;
    Unherald(cfg, st, seen, first, f);
    PngArrives(cfg, st, seen, first, f, one);
    HeraldedAtRest(cfg, st, first, second, g);
    PngArrives(cfg, ReceiveAll(cfg, st, first), [], second, g, two);
    AllFitConcat(cfg, st, first, second);
  }

  lemma Unherald(cfg: Config, st: St, seen: seq<byte>, pieces: seq<seq<byte>>, f: nat)
    requires Heralded(cfg, st, seen, pieces, f)
    ensures |st.held| < 8 && AllFit(cfg, st, pieces)
  {
  }

  lemma HeraldedAtRest(cfg: Config, st: St, first: seq<seq<byte>>, pieces: seq<seq<byte>>, f: nat)
    requires |st.held| < 8 && AllFit(cfg, st, first) && Rests(ReceiveAll(cfg, st, first))
    requires FirstAt(Concat(pieces), f) && f + |MAGIC| < |Concat(pieces)| && BufferSuffices(pieces, 0, f)
    requires AllFit(cfg, ReceiveAll(cfg, st, first), pieces)
    ensures Heralded(cfg, ReceiveAll(cfg, st, first), [], pieces, f)
  {
    assert [] + Concat(pieces) == Concat(pieces) && Last([]) == [];
    hide ReceiveAll, AllFit, FirstAt, Concat, BufferSuffices;
  }

  /** A file that is complete with the call that starts it: the next call is dropped, whatever it brings. */
  lemma StartCompletes(cfg: Config, st: St, text: seq<byte>, data: seq<byte>)
    requires Padded(text) && !st.fileEnd && Complete(cfg, text)
    ensures var r := Started(cfg, st, text).0;
            && r.processing && r.seen == ReaderOf(cfg, text).0.trace
            && Fits(r, data) && Receive(cfg, r, data) == (r.(processing := false), 1) && Rests(r.(processing := false))
  {
    assert text + [] == text;
    DecodePadded(text, []);
    hide Padded, Run;
    FeedNothing(cfg, []);
    assert Run(cfg, Start(0), []) == (Start(0), []) by { NothingRun(cfg); }
    assert [] + Decode([], text).out == Decode([], text).out;
  }

  lemma NothingRun(cfg: Config)
    ensures Run(cfg, Start(0), []) == (Start(0), [])
  {
  }

  /** When only the last call completes the file: the receiver is at rest exactly if that call is not the starting
      one. */
  lemma RestsUnlessStart(cfg: Config, st: St, seen: seq<byte>, pieces: seq<seq<byte>>, f: nat, file: PngFile.File)
    requires Heralded(cfg, st, seen, pieces, f) && Carries(cfg, TextOf(seen, pieces, f), file)
    requires LastCallEnds(cfg, seen, pieces, f) || LastCallStarts(seen, pieces, f)
    ensures Rests(ReceiveAll(cfg, st, pieces)) <==> !LastCallStarts(seen, pieces, f)
  {
    PngArrives(cfg, st, seen, pieces, f, file);
    hide Heralded, Carries, LastCallEnds, ReceiveAll, TextOf;
  }

  lemma OnePieceOnly(p: seq<byte>)
    ensures [] + Concat([p]) == Concat([p]) == p && [] + ButLast([p]) == []
  {
    var one := [p];
    assert one[1..] == [] && p + [] == p;
  }

  lemma OneFits(cfg: Config, st: St, p: seq<byte>)
    requires |st.held| < 8 && Fits(st, p)
    ensures AllFit(cfg, st, [p]) && ReceiveAll(cfg, st, [p]) == Receive(cfg, st, p).0
  {
    hide Fits, Receive;
    var one := [p];
    assert one[1..] == [];
  }

  lemma OneSuffices(p: seq<byte>)
    requires |MAGIC| < |p| <= BUFFERSIZE
    ensures BufferSuffices([p], 0, 0) && LastCallStarts([], [p], 0)
  {
  }

  /** Every well-formed file short enough for the first array can be sent in one call: it is received, and the next call
      is lost, whatever it brings. */
  lemma NextCallIsLost(cfg: Config, st: St, file: PngFile.File, data: seq<byte>) returns (piece: seq<byte>)
    requires |st.held| < 8 && Rests(st) && PngFile.WellFormed(cfg, file) && PngFile.AllFramed(PngFile.Chunks(file))
    requires 6 * |Encode(FileBytes(file))| <= 8 * DECODED_FIRST
    ensures Fits(st, piece)
    ensures var r := Receive(cfg, st, piece).0;
            && r.seen == PngFile.AllEvents(PngFile.Chunks(file), false) + [End]
            && Fits(r, data) && Receive(cfg, r, data) == (r.(processing := false), 1)
  {
    hide *;
    var text := Encode(FileBytes(file));
    EncodedIsAscii(FileBytes(file));
    NothingToStrip(text);
    FileIsNotEmpty(file);
    CarriesIs(cfg, text, file);
    piece := MAGIC + text;
    WholeCallFits(st, text);
    OnePieceOnly(piece);
    OneFits(cfg, st, piece);
    OneSuffices(piece);
    HeraldedAtOnce(cfg, st, piece, text);
    PngArrives(cfg, st, [], [piece], 0, file);
    DroppedCall(cfg, Receive(cfg, st, piece).0, data);
  }

  lemma DroppedCall(cfg: Config, st: St, data: seq<byte>)
    requires |st.held| < 8 && st.processing && st.fileEnd
    ensures Fits(st, data) && Receive(cfg, st, data) == (st.(processing := false), 1)
  {
  }

  lemma WholeCallFits(st: St, text: seq<byte>)
    requires |st.held| < 8 && Rests(st) && text != [] && 6 * |text| <= 8 * DECODED_FIRST
    requires forall i :: 0 <= i < |text| ==> text[i] < 128
    ensures Fits(st, MAGIC + text) && FirstAt(MAGIC + text, 0) && |MAGIC| < |MAGIC + text| <= BUFFERSIZE
  {
    WordFirst(text);
    LettersBound(text);
    FitsExactly(st, MAGIC + text);
    hide Fits, LettersBefore, Search, FirstAt;
  }

  lemma HeraldedAtOnce(cfg: Config, st: St, p: seq<byte>, text: seq<byte>)
    requires |st.held| < 8 && Rests(st) && p == MAGIC + text && text != [] && FirstAt(p, 0)
    requires AllFit(cfg, st, [p]) && BufferSuffices([p], 0, 0)
    ensures Heralded(cfg, st, [], [p], 0) && TextOf([], [p], 0) == text
  {
    hide Fits, Receive, FirstAt, Concat, ButLast, AllFit, BufferSuffices;
    OnePieceOnly(p);
    assert Last([]) == [];
  }

  lemma {:induction false} EncodeSize(b: seq<byte>)
    ensures |Encode(b)| <= 2 * |b| + 2
    decreases |b|
  {
    hide Alphabet;
    if |b| >= 3 { EncodeSize(b[3..]); }
  }

  /** The file of PngFile.LeastFile is one of these. */
  lemma LeastFileIsShort() returns (cfg: Config, file: PngFile.File)
    ensures PngFile.WellFormed(cfg, file) && PngFile.AllFramed(PngFile.Chunks(file))
    ensures 6 * |Encode(FileBytes(file))| <= 8 * DECODED_FIRST
  {
    cfg, file := PngFile.LeastFile();
    hide Encode, PngFile.WellFormed, PngFile.AllFramed, PngFile.Chunks, PngFile.SerializeAll;
    EncodeSize(FileBytes(file));
  }

  /** After the reader has failed calls are dropped, up to and with the first that decodes to a byte or cannot be
      decoded. */
  lemma AfterFailure(cfg: Config, st: St, data: seq<byte>)
    requires |st.held| < 8 && st.processing && !st.fileEnd && st.reader == None && Fits(st, data)
    ensures var r := Receive(cfg, st, data).0; var d := Decode(st.held, data);
            && r.seen == st.seen && r.window == st.window && r.reader == None
            && (r.processing <==> d.out == [] && !d.fail)
  {
    hide Decode;
  }

  // --- The arrays on the stack ------------------------------------------------------------------

  lemma {:induction false} OnlyLetters(s: seq<byte>)
    requires forall i :: 0 <= i < |s| ==> s[i] == 65
    ensures LettersBefore(s) == |s|
  {
    if s != [] { OnlyLetters(s[1..]); }
  }

  lemma LettersAreText(letters: seq<byte>)
    requires forall i :: 0 <= i < |letters| ==> letters[i] == 65
    ensures Padded(letters) && |Decode([], letters).out| == 6 * |letters| / 8
  {
    OnlyLetters(letters);
    DecodeSize([], letters);
    EmptyTail(letters);
    hide Decode;
    assert Bare(letters[..|letters|]);
  }

  /** The word alone in front of the text, in one call. */
  lemma WordFirst(letters: seq<byte>)
    requires letters != [] && |MAGIC + letters| <= BUFFERSIZE
    ensures var w := MAGIC + letters; Last([] + w) == w && Search(w, MAGIC) == 0 && w[|MAGIC|..] == letters
    ensures Concat([MAGIC + letters]) == [] + Concat([MAGIC + letters]) == MAGIC + letters
    ensures FirstAt(MAGIC + letters, 0) && ButLast([MAGIC + letters]) == []
  {
    var w := MAGIC + letters;
    assert [] + w == w && w[..|MAGIC|] == MAGIC;
    var alone := [w];
    assert alone[1..] == [] && w + [] == w;
  }

  /** The bound is real: the word and 8000 letters in one call are no more than the terminal passes on at once, and
      everything else the theorems ask for holds; but the call decodes 6000 bytes into an array of 4096. */
  lemma Overrun(cfg: Config) returns (st: St, piece: seq<byte>)
    ensures |piece| <= 10240 && |st.held| < 8 && !st.processing && st.window == []
    ensures FirstAt(Concat([piece]), 0) && |MAGIC| < |Concat([piece])| && Padded(TextOf([], [piece], 0))
    ensures BufferSuffices([piece], 0, 0) && OneTransfer(cfg, [] + Concat([piece]), [] + ButLast([piece]), |MAGIC|)
    ensures !Fits(st, piece) && !AllFit(cfg, st, [piece]) && |Decode([], Text(st, piece)).out| == 6000
  {
    var letters: seq<byte> := seq(8000, i => 65);
    st, piece := St([], false, false, [], None, [], 0), MAGIC + letters;
    LettersAreText(letters);
    WordFirst(letters);
    hide Decode, Padded, Search, Last, FirstAt, Concat, ButLast, OneWord;
  }

  // --- The receiver -----------------------------------------------------------------------------

  /** Everything the terminal passes on, call by call, as long as it fits. */
  method Deliver(r: Receiver, pieces: seq<seq<byte>>)
    requires r.Valid() && AllFit(r.cfg, r.Abs(), pieces)
    modifies r`processing, r`fileEnd, r`reader, r`seen, r`bufferSize, r`fontSize, r.buffer,
             r.decoder`bitPos, r.decoder.bits, r.decoder.lookup
    ensures r.Valid() && r.Abs() == ReceiveAll(r.cfg, old(r.Abs()), pieces)
  {
    ghost var st := r.Abs();
    hide Receive, Fits;
    for n := 0 to |pieces|
      invariant r.Valid() && AllFit(r.cfg, r.Abs(), pieces[n..])
      invariant ReceiveAll(r.cfg, r.Abs(), pieces[n..]) == ReceiveAll(r.cfg, st, pieces)
    {
      var _ := r.ReceiveData(pieces[n]);
    }
  }

  /** The receiver itself, on a stream that carries a PNG file. */
  method DeliverPng(r: Receiver, seen: seq<byte>, pieces: seq<seq<byte>>, f: nat,
                    file: PngFile.File)
    requires r.Valid() && Heralded(r.cfg, r.Abs(), seen, pieces, f)
    requires Carries(r.cfg, TextOf(seen, pieces, f), file)
    modifies r`processing, r`fileEnd, r`reader, r`seen, r`bufferSize, r`fontSize, r.buffer,
             r.decoder`bitPos, r.decoder.bits, r.decoder.lookup
    ensures r.Valid() && r.seen == PngFile.AllEvents(PngFile.Chunks(file), false) + [End]
    ensures LastCallEnds(r.cfg, seen, pieces, f) ==> !r.processing && r.Window() == []
  {
    PngArrives(r.cfg, r.Abs(), seen, pieces, f, file);
    hide Receive, Fits, Carries, PngFile.AllEvents, PngFile.Chunks, LastCallEnds, FirstAt, TextOf, BufferSuffices;
    Deliver(r, pieces);
  }
}
