/** A whole transfer: what the PNG reader gets does not depend on how the terminal's output was cut. */
module InlineTransfer {
  import opened Common
  import opened PngStream
  import opened Base64
  import opened Base64RoundTrip
  import opened InlineData

  /** Every call of the run fits. */
  predicate AllFit(cfg: Config, st: St, pieces: seq<seq<byte>>)
    requires |st.held| < 8
    decreases |pieces|
  {
    pieces == [] || (Fits(st, pieces[0]) && AllFit(cfg, Receive(cfg, st, pieces[0]).0, pieces[1..]))
  }

  function ReceiveAll(cfg: Config, st: St, pieces: seq<seq<byte>>): (r: St)
    requires |st.held| < 8 && AllFit(cfg, st, pieces)
    ensures |r.held| < 8
    decreases |pieces|
  {
    if pieces == [] then st else ReceiveAll(cfg, Receive(cfg, st, pieces[0]).0, pieces[1..])
  }

  // --- The window -------------------------------------------------------------------------------

  /** No call of the run finds the start of a file. */
  predicate Quiet(st: St, pieces: seq<seq<byte>>)
    decreases |pieces|
  {
    pieces == [] || (Heard(st, pieces[0]).1 < 0 && Quiet(Heard(st, pieces[0]).0, pieces[1..]))
  }

  lemma ShortWindow(w: seq<byte>)
    requires |w| <= BUFFERSIZE
    ensures Last(w + []) == w
  {
    assert w + [] == w;
  }

  /** Where no file starts there is nothing to decode. */
  lemma QuietCall(cfg: Config, st: St, data: seq<byte>)
    requires |st.held| < 8 && !st.processing && Heard(st, data).1 < 0
    ensures Fits(st, data) && Receive(cfg, st, data) == (Heard(st, data).0, 0)
  {
    hide Search, Last;
  }

  /** Until a file starts, the window is always the last BUFFERSIZE bytes received. */
  lemma {:induction false} WindowIsLast(cfg: Config, st: St, pieces: seq<seq<byte>>)
    requires |st.held| < 8 && !st.processing && Quiet(st, pieces) && |st.window| <= BUFFERSIZE
    ensures AllFit(cfg, st, pieces)
    ensures var r := ReceiveAll(cfg, st, pieces); !r.processing && r.window == Last(st.window + Concat(pieces))
    decreases |pieces|
  {
    hide Search, Last, Started, Fits, Receive;
    if pieces == [] {
      ShortWindow(st.window);
    } else {
      var t := Heard(st, pieces[0]).0;
      QuietCall(cfg, st, pieces[0]);
      WindowIsLast(cfg, t, pieces[1..]);
      LastAgain(st.window + pieces[0], Concat(pieces[1..]));
      Assoc(st.window, pieces[0], Concat(pieces[1..]));
    }
  }

  // --- Text and its padding ---------------------------------------------------------------------

  /** Letters and white space, and then perhaps padding and white space. */
  ghost predicate Padded(t: seq<byte>) { exists k: nat :: k <= |t| && Bare(t[..k]) && Tail(t[k..]) }

  lemma PaddedPrefix(s: seq<byte>, t: seq<byte>)
    requires Padded(s + t)
    ensures Padded(s)
  {
    var k: nat :| k <= |s + t| && Bare((s + t)[..k]) && Tail((s + t)[k..]);
    hide Bare, Tail;
    if k <= |s| {
      assert s[..k] == (s + t)[..k];
      assert (s + t)[k..] == s[k..] + t;
      TailPrefix(s[k..], t);
    } else {
      assert (s + t)[..k] == s + t[..k - |s|];
      BarePrefix(s, t[..k - |s|]);
      assert s[..|s|] == s && Tail(s[|s|..]) by { EmptyTail(s); }
    }
  }

  lemma EmptyTail(s: seq<byte>)
    ensures Tail(s[|s|..])
  {
  }

  lemma TailPrefix(v: seq<byte>, w: seq<byte>)
    requires Tail(v + w)
    ensures Tail(v) && Tail(w)
  {
    hide White;
    forall i | 0 <= i < |v| ensures White(v[i]) || v[i] == PAD { assert (v + w)[i] == v[i]; }
    forall i | 0 <= i < |w| ensures White(w[i]) || w[i] == PAD { assert (v + w)[|v| + i] == w[i]; }
  }

  lemma BarePrefix(v: seq<byte>, w: seq<byte>)
    requires Bare(v + w)
    ensures Bare(v) && Bare(w)
  {
    hide White, InAlphabet;
    forall i | 0 <= i < |v| ensures White(v[i]) || InAlphabet(v[i]) { assert (v + w)[i] == v[i]; }
    forall i | 0 <= i < |w| ensures White(w[i]) || InAlphabet(w[i]) { assert (v + w)[|v| + i] == w[i]; }
  }

  /** Padded text decodes without failure, in one call or in two. */
  lemma DecodePadded(s: seq<byte>, t: seq<byte>)
    requires Padded(s + t)
    ensures var d := Decode([], s); var e := Decode(d.held, t);
            !d.fail && !e.fail && Decode([], s + t) == After(d.out, e)
  {
    var k: nat :| k <= |s + t| && Bare((s + t)[..k]) && Tail((s + t)[k..]);
    hide Decode, Bare, Tail;
    if k <= |s| {
      assert (s + t)[..k] == s[..k] && (s + t)[k..] == s[k..] + t && s == s[..k] + s[k..];
      TailPrefix(s[k..], t);
      DecodeTwice(s[..k], s[k..], t);
      Assoc(s[..k], s[k..], t);
    } else {
      var m := k - |s|;
      assert (s + t)[..k] == s + t[..m] && (s + t)[k..] == t[m..] && t == t[..m] + t[m..];
      BarePrefix(s, t[..m]);
      DecodeBare([], s);
      DecodeConcat([], s, t);
      var h := Decode([], s).held;
      DecodeBare(h, t[..m]);
      DecodeConcat(h, t[..m], t[m..]);
      DecodeTail(Decode(h, t[..m]).held, t[m..]);
    }
  }

  /** The cut is in the padding. */
  lemma DecodeTwice(u: seq<byte>, v: seq<byte>, w: seq<byte>)
    requires Bare(u) && Tail(v) && Tail(w) && Tail(v + w)
    ensures var d := Decode([], u + v); var e := Decode(d.held, w);
            !d.fail && !e.fail && Decode([], u + (v + w)) == After(d.out, e)
  {
    hide Decode, Bare, Tail;
    DecodeBare([], u);
    DecodeConcat([], u, v);
    DecodeConcat([], u, v + w);
    var h := Decode([], u).held;
    DecodeTail(h, v);
    DecodeTail(h, v + w);
    DecodeTail(if PAD in v then [] else h, w);
    assert PAD in v + w <==> PAD in v || PAD in w;
  }

  // --- The reader during a transfer -------------------------------------------------------------

  /** What text, decoded in one piece, makes of a fresh PNG reader. */
  function ReaderOf(cfg: Config, text: seq<byte>): (State, seq<byte>) {
    Run(cfg, Start(0), Decode([], text).out)
  }

  /** The reader has neither finished nor failed. */
  predicate Alive(cfg: Config, text: seq<byte>) { !Ended(ReaderOf(cfg, text).0) }

  /** In the middle of a transfer, after this much of its text. */
  predicate During(cfg: Config, st: St, text: seq<byte>) {
    && st.processing && !st.fileEnd && st.window == [] && st.held == Decode([], text).held
    && Alive(cfg, text) && st.reader == Some(ReaderOf(cfg, text)) && st.seen == ReaderOf(cfg, text).0.trace
  }

  /** The text has ended the reader: the file is complete. */
  predicate Complete(cfg: Config, text: seq<byte>) {
    var s := ReaderOf(cfg, text).0; s.Running? && s.mode == DoneMode
  }

  /** No file, and nothing in the window. */
  predicate Rests(st: St) { !st.processing && st.window == [] }

  /** This much of the text has ended the reader. The calls since may have been dropped, or they have been heard as if
      there were no file; heard is what has been heard. */
  predicate Over(cfg: Config, st: St, text: seq<byte>, heard: seq<byte>) {
    && !Alive(cfg, text) && st.seen == ReaderOf(cfg, text).0.trace && st.window == Last(heard)
    && (st.processing ==> heard == [] && (st.fileEnd || st.reader == None))
  }

  lemma ReaderGrows(cfg: Config, s: seq<byte>, t: seq<byte>)
    requires Padded(s + t)
    ensures ReaderOf(cfg, s + t) == Feed(cfg, ReaderOf(cfg, s), Decode(Decode([], s).held, t).out)
  {
    hide Decode, Run;
    DecodePadded(s, t);
    RunSplit(cfg, Start(0), Decode([], s).out, Decode(Decode([], s).held, t).out);
  }

  lemma FeedNothing(cfg: Config, b: seq<byte>)
    ensures Feed(cfg, Run(cfg, Start(0), b), []) == Run(cfg, Start(0), b)
  {
    RunIsSettled(cfg, Start(0), b);
  }

  /** A reader that has ended stays as it is. */
  lemma StaysEnded(cfg: Config, s: seq<byte>, t: seq<byte>)
    requires Padded(s + t) && !Alive(cfg, s)
    ensures !Alive(cfg, s + t) && ReaderOf(cfg, s + t).0 == ReaderOf(cfg, s).0
  {
    ReaderGrows(cfg, s, t);
    hide Decode, Padded;
  }

  /** One more call of a transfer. The reader sees what it would have seen of the whole text; and unless that ends it
      the transfer goes on. The call that completes the file leaves the receiver at rest. */
  lemma MoreText(cfg: Config, st: St, text: seq<byte>, data: seq<byte>)
    requires |st.held| < 8 && During(cfg, st, text) && Padded(text + data) && Fits(st, data)
    ensures var r := Receive(cfg, st, data);
            && r.1 == 1 && r.0.seen == ReaderOf(cfg, text + data).0.trace
            && (if Alive(cfg, text + data) then During(cfg, r.0, text + data) else Over(cfg, r.0, text + data, []))
            && (Complete(cfg, text + data) ==> Rests(r.0))
  {
    assert Last([]) == [];
    hide Decode, Run, Padded, Fits, Last;
    DecodePadded(text, data);
    ReaderGrows(cfg, text, data);
    var d := Decode(st.held, data);
    if d.out == [] { FeedNothing(cfg, Decode([], text).out); }
  }

  // --- After the reader has ended ---------------------------------------------------------------

  /** The magic word stands nowhere in s. */
  ghost predicate NoWord(s: seq<byte>) { forall n: nat :: !MatchAt(s, MAGIC, n) }

  lemma NoWordInPart(a: seq<byte>, s: seq<byte>, b: seq<byte>)
    requires NoWord(a + s + b)
    ensures NoWord(s)
  {
    forall n: nat ensures !MatchAt(s, MAGIC, n) {
      if n + |MAGIC| <= |s| {
        assert (a + s + b)[|a| + n..|a| + n + |MAGIC|] == s[n..n + |MAGIC|];
        assert !MatchAt(a + s + b, MAGIC, |a| + n);
      }
    }
  }

  lemma NothingFound(w: seq<byte>)
    requires NoWord(w)
    ensures Search(Last(w), MAGIC) == -1
  {
    var n := |w| - |Last(w)|;
    assert w == w[..n] + Last(w) + [];
    NoWordInPart(w[..n], Last(w), []);
    SearchIn(Last(w), Search(Last(w), MAGIC));
    hide Search, Last, MatchAt;
  }

  /** A call after the end adds nothing to what the reader has reported, as long as no other word has been heard. */
  lemma AfterEnd(cfg: Config, st: St, text: seq<byte>, heard: seq<byte>,
                 data: seq<byte>)
    requires |st.held| < 8 && Over(cfg, st, text, heard) && Fits(st, data)
    requires Padded(text + data) && NoWord(heard + data)
    ensures Over(cfg, Receive(cfg, st, data).0, text + data, if st.processing then [] else heard + data)
  {
    StaysEnded(cfg, text, data);
    if !st.processing {
      NothingFound(heard + data);
      LastAgain(heard, data);
    }
    hide Alive, ReaderOf, NoWord, Padded, Decode, Fits, Search;
  }

  lemma {:induction false} AfterEndAll(cfg: Config, st: St, text: seq<byte>, heard: seq<byte>,
                                       pieces: seq<seq<byte>>)
    requires |st.held| < 8 && Over(cfg, st, text, heard) && AllFit(cfg, st, pieces)
    requires Padded(text + Concat(pieces)) && NoWord(heard + Concat(pieces))
    ensures ReceiveAll(cfg, st, pieces).seen == ReaderOf(cfg, text + Concat(pieces)).0.trace
    decreases |pieces|
  {
    if pieces == [] {
      assert text + Concat(pieces) == text;
    } else {
      hide Receive, ReaderOf, Over, Padded, NoWord, Fits;
      var p, rest := pieces[0], Concat(pieces[1..]);
      Assoc(text, p, rest);
      PaddedPrefix(text + p, rest);
      NoOtherWord(heard, p, rest);
      AfterEnd(cfg, st, text, heard, p);
      AfterEndAll(cfg, Receive(cfg, st, p).0, text + p, if st.processing then [] else heard + p, pieces[1..]);
    }
  }

  lemma NoOtherWord(heard: seq<byte>, p: seq<byte>, rest: seq<byte>)
    requires NoWord(heard + (p + rest))
    ensures NoWord(heard + p) && NoWord(heard + p + rest) && NoWord([] + rest)
  {
    hide NoWord;
    Assoc(heard, p, rest);
    assert [] + (heard + p) + rest == heard + p + rest && heard + p + rest + [] == heard + p + rest;
    NoWordInPart([], heard + p, rest);
    NoWordInPart(heard + p, rest, []);
    assert [] + rest == rest;
  }

  lemma MatchInPrefix(w: seq<byte>, more: seq<byte>, n: nat)
    requires n + |MAGIC| <= |w|
    ensures MatchAt(w, MAGIC, n) <==> MatchAt(w + more, MAGIC, n)
  {
    assert (w + more)[n..n + |MAGIC|] == w[n..n + |MAGIC|];
  }

  // --- A whole transfer -------------------------------------------------------------------------

  /** All pieces but the last one. */
  function ButLast(pieces: seq<seq<byte>>): seq<byte> {
    if |pieces| <= 1 then [] else pieces[0] + ButLast(pieces[1..])
  }

  lemma {:induction false} ButLastIsPrefix(pieces: seq<seq<byte>>) returns (last: seq<byte>)
    ensures Concat(pieces) == ButLast(pieces) + last
    decreases |pieces|
  {
    if pieces == [] {
      last := [];
    } else if |pieces| == 1 {
      last := pieces[0];
      assert pieces[1..] == [];
    } else {
      last := ButLastIsPrefix(pieces[1..]);
      Assoc(pieces[0], ButLast(pieces[1..]), last);
    }
  }

  /** No part of the text before an end has already ended the reader. */
  lemma AliveBefore(cfg: Config, text: seq<byte>, pieces: seq<seq<byte>>)
    requires Padded(text + Concat(pieces)) && Alive(cfg, text + ButLast(pieces))
    ensures Alive(cfg, text)
  {
    hide *;
    var last := ButLastIsPrefix(pieces);
    Assoc(text, ButLast(pieces), last);
    PaddedPrefix(text + ButLast(pieces), last);
    if !Alive(cfg, text) { StaysEnded(cfg, text, ButLast(pieces)); }
  }

  /** No word stands behind the place in the text where the reader ends. */
  ghost predicate OneWord(cfg: Config, text: seq<byte>) {
    forall k: nat :: k <= |text| && !Alive(cfg, text[..k]) ==> NoWord(text[k..])
  }

  lemma OneWordHere(cfg: Config, s: seq<byte>, t: seq<byte>)
    requires OneWord(cfg, s + t) && !Alive(cfg, s)
    ensures NoWord([] + t)
  {
    assert (s + t)[..|s|] == s && (s + t)[|s|..] == t == [] + t;
  }

  /** A transfer under way, over any number of calls. Either no word stands behind the place where the reader ends, or
      no call but the last reaches that place. If the last call completes the file the receiver is left at rest. */
  lemma {:induction false} Transfer(cfg: Config, st: St, text: seq<byte>, pieces: seq<seq<byte>>)
    requires |st.held| < 8 && During(cfg, st, text) && Padded(text + Concat(pieces)) && AllFit(cfg, st, pieces)
    requires OneWord(cfg, text + Concat(pieces)) || Alive(cfg, text + ButLast(pieces))
    ensures var r := ReceiveAll(cfg, st, pieces); var all := text + Concat(pieces);
            && r.seen == ReaderOf(cfg, all).0.trace && (Alive(cfg, all) ==> During(cfg, r, all))
            && (Complete(cfg, all) && Alive(cfg, text + ButLast(pieces)) ==> Rests(r))
    decreases |pieces|
  {
    hide *;
    if pieces == [] {
      NoMoreText(cfg, st, text);
    } else {
      var p, more := pieces[0], pieces[1..];
      Unroll(cfg, st, pieces);
      TextStep(text, pieces);
      var next := Receive(cfg, st, p).0;
      PaddedPrefix(text + p, Concat(more));
      MoreText(cfg, st, text, p);
      if Alive(cfg, text + p) {
        if more == [] { assert text + p + ButLast(more) == text + p; }
        Transfer(cfg, next, text + p, more);
      } else if more == [] {
        assert text + p + Concat(more) == text + p;
      } else {
        if Alive(cfg, text + ButLast(pieces)) { AliveBefore(cfg, text + p, more); }
        StaysEnded(cfg, text + p, Concat(more));
        OneWordHere(cfg, text + p, Concat(more));
        AfterEndAll(cfg, next, text + p, [], more);
      }
    }
  }

  lemma NoMoreText(cfg: Config, st: St, text: seq<byte>)
    requires |st.held| < 8 && During(cfg, st, text)
    ensures Concat([]) == ButLast([]) == [] && text + [] == text && ReceiveAll(cfg, st, []) == st
    ensures st.seen == ReaderOf(cfg, text).0.trace && !Complete(cfg, text)
  {
    hide ReaderOf;
  }

  lemma Unroll(cfg: Config, st: St, pieces: seq<seq<byte>>)
    requires |st.held| < 8 && pieces != [] && AllFit(cfg, st, pieces)
    ensures var p, more := pieces[0], pieces[1..];
            && Fits(st, p) && AllFit(cfg, Receive(cfg, st, p).0, more)
            && ReceiveAll(cfg, st, pieces) == ReceiveAll(cfg, Receive(cfg, st, p).0, more)
            && (more == [] ==> ReceiveAll(cfg, st, pieces) == Receive(cfg, st, p).0)
  {
    hide Receive, Fits;
  }

  lemma TextStep(text: seq<byte>, pieces: seq<seq<byte>>)
    requires pieces != []
    ensures var p, more := pieces[0], pieces[1..];
            && text + Concat(pieces) == text + p + Concat(more)
            && (if more == [] then Concat(more) == ButLast(more) == ButLast(pieces) == []
                else text + ButLast(pieces) == text + p + ButLast(more))
  {
    Assoc(text, pieces[0], Concat(pieces[1..]));
    Assoc(text, pieces[0], ButLast(pieces[1..]));
  }

  // --- The start of a transfer ------------------------------------------------------------------

  /** The first place of the magic word in the stream. */
  ghost predicate FirstAt(stream: seq<byte>, f: nat) {
    MatchAt(stream, MAGIC, f) && forall n: nat :: n < f ==> !MatchAt(stream, MAGIC, n)
  }

  /** How many of these bytes have left the window. */
  function Dropped(w: seq<byte>): nat { |w| - |Last(w)| }

  lemma MatchInWindow(w: seq<byte>, n: nat)
    requires n + |MAGIC| <= |Last(w)|
    ensures MatchAt(Last(w), MAGIC, n) <==> MatchAt(w, MAGIC, Dropped(w) + n)
  {
    assert Last(w)[n..n + |MAGIC|] == w[Dropped(w) + n..Dropped(w) + n + |MAGIC|];
  }

  lemma SearchIn(w: seq<byte>, pos: int)
    requires pos == Search(w, MAGIC)
    ensures if pos < 0 then pos == -1 && forall n: nat :: n + |MAGIC| < |w| ==> !MatchAt(w, MAGIC, n)
            else pos + |MAGIC| < |w| && MatchAt(w, MAGIC, pos) && forall n: nat :: n < pos ==> !MatchAt(w, MAGIC, n)
  {
    SearchFinds(w, MAGIC, 0);
    hide Search, MatchAt;
  }

  /** The word at f is found in the window when a byte has come behind it and it has not left the window; before that
      nothing is found, and once it has left only a later word can be. */
  lemma SearchInStream(w: seq<byte>, more: seq<byte>, f: nat)
    requires FirstAt(w + more, f)
    ensures var pos := Search(Last(w), MAGIC);
            if |w| <= f + |MAGIC| then pos == -1
            else if |w| <= f + BUFFERSIZE then pos == f - Dropped(w)
            else pos == -1 || Dropped(w) + pos > f
  {
    var pos := Search(Last(w), MAGIC);
    SearchIn(Last(w), pos);
    if pos >= 0 {
      MatchInWindow(w, pos);
      MatchInPrefix(w, more, Dropped(w) + pos);
    }
    if f + |MAGIC| < |w| <= f + BUFFERSIZE {
      MatchInPrefix(w, more, f);
      MatchInWindow(w, f - Dropped(w));
    }
    hide Search, MatchAt;
  }

  /** The call that brings the first byte behind the word at f finds the word still in the window. */
  predicate BufferSuffices(pieces: seq<seq<byte>>, got: nat, f: nat)
    decreases |pieces|
  {
    pieces != [] &&
    if got + |pieces[0]| > f + |MAGIC| then got + |pieces[0]| <= f + BUFFERSIZE
    else BufferSuffices(pieces[1..], got + |pieces[0]|, f)
  }

  /** The place in the stream of the word that starts the first file, or -1; got bytes have come before. */
  function StartsAt(st: St, got: nat, pieces: seq<seq<byte>>): int
    decreases |pieces|
  {
    if pieces == [] then -1
    else
      var (t, pos) := Heard(st, pieces[0]);
      if pos >= 0 then got + |pieces[0]| - |t.window| + pos else StartsAt(t, got + |pieces[0]|, pieces[1..])
  }

  lemma {:induction false} StartsLater(st: St, seen: seq<byte>, pieces: seq<seq<byte>>, f: nat)
    requires st.window == Last(seen) && |seen| > f + BUFFERSIZE
    ensures StartsAt(st, |seen|, pieces) != f
    decreases |pieces|
  {
    hide *;
    if pieces == [] {
      NoPieces(st, |seen|, f);
    } else {
      StartsStep(st, |seen|, pieces);
      HeardWindow(st, seen, pieces[0]);
      StartsLater(Heard(st, pieces[0]).0, seen + pieces[0], pieces[1..], f);
    }
  }

  lemma HeardWindow(st: St, seen: seq<byte>, data: seq<byte>)
    requires st.window == Last(seen)
    ensures Heard(st, data).0.window == Last(seen + data) && |Heard(st, data).0.window| <= BUFFERSIZE
  {
    LastAgain(seen, data);
    hide Search, Last;
  }

  /** What a call finds: the word at f, if a byte has come behind it and it has not left the window. */
  lemma HeardIs(st: St, seen: seq<byte>, data: seq<byte>, more: seq<byte>, f: nat)
    requires st.window == Last(seen) && FirstAt(seen + data + more, f)
    ensures var n := |seen| + |data|; var t := Heard(st, data).0; var pos := Heard(st, data).1;
            && t.window == Last(seen + data) && |seen + data| == n
            && (if n <= f + |MAGIC| then pos < 0
                else if n <= f + BUFFERSIZE then pos >= 0 && n - |t.window| + pos == f
                else pos >= 0 ==> n - |t.window| + pos != f)
  {
    LastAgain(seen, data);
    SearchInStream(seen + data, more, f);
    DroppedIs(seen + data);
    SearchIn(Last(seen + data), Search(Last(seen + data), MAGIC));
    hide Search, Last, FirstAt, Dropped, MatchAt;
  }

  /** The first word of the stream starts the file if and only if the call that brings the first byte behind it still
      has it in the window, from any state that has heard the bytes seen. */
  lemma {:induction false} FirstWordStarts(st: St, seen: seq<byte>, pieces: seq<seq<byte>>, f: nat)
    requires st.window == Last(seen) && |seen| <= f + |MAGIC| && FirstAt(seen + Concat(pieces), f)
    ensures StartsAt(st, |seen|, pieces) == f <==> BufferSuffices(pieces, |seen|, f)
    decreases |pieces|
  {
    hide *;
    if pieces == [] {
      NoPieces(st, |seen|, f);
    } else {
      var w, rest := seen + pieces[0], Concat(pieces[1..]);
      StartsStep(st, |seen|, pieces);
      SufficesStep(pieces, |seen|, f);
      Assoc(seen, pieces[0], rest);
      HeardIs(st, seen, pieces[0], rest, f);
      var t := Heard(st, pieces[0]).0;
      if |w| <= f + |MAGIC| {
        FirstWordStarts(t, w, pieces[1..], f);
      } else if |w| > f + BUFFERSIZE {
        StartsLater(t, w, pieces[1..], f);
      }
    }
  }

  lemma NoPieces(st: St, got: nat, f: nat)
    ensures StartsAt(st, got, []) != f && !BufferSuffices([], got, f)
  {
  }

  lemma StartsStep(st: St, got: nat, pieces: seq<seq<byte>>)
    requires pieces != []
    ensures var t := Heard(st, pieces[0]).0; var pos := Heard(st, pieces[0]).1;
            StartsAt(st, got, pieces) == (if pos >= 0 then got + |pieces[0]| - |t.window| + pos
                                          else StartsAt(t, got + |pieces[0]|, pieces[1..]))
    ensures Concat(pieces) == pieces[0] + Concat(pieces[1..])
  {
    hide Heard;
  }

  lemma SufficesStep(pieces: seq<seq<byte>>, got: nat, f: nat)
    requires pieces != []
    ensures BufferSuffices(pieces, got, f) <==>
            (if got + |pieces[0]| > f + |MAGIC| then got + |pieces[0]| <= f + BUFFERSIZE
             else BufferSuffices(pieces[1..], got + |pieces[0]|, f))
    ensures |MAGIC| < BUFFERSIZE
  {
  }

  lemma DroppedIs(w: seq<byte>)
    ensures Dropped(w) == |w| - |Last(w)|
  {
  }

  /** The call that starts a file. */
  lemma StartText(cfg: Config, st: St, text: seq<byte>)
    requires Padded(text) && !st.fileEnd
    ensures var r := Started(cfg, st, text).0;
            && r.seen == ReaderOf(cfg, text).0.trace
            && (if Alive(cfg, text) then During(cfg, r, text) else Over(cfg, r, text, []))
            && (Complete(cfg, text) ==> r.processing && r.fileEnd)
  {
    assert text + [] == text && Last([]) == [];
    DecodePadded(text, []);
    hide Decode, Padded, Last;
    FeedNothing(cfg, []);
    assert Run(cfg, Start(0), []) == (Start(0), []);
    var out := Decode([], text).out;
    assert [] + out == out;
    hide Run;
  }

  lemma WindowTail(w: seq<byte>, f: nat)
    requires f + |MAGIC| < |w| <= f + BUFFERSIZE
    ensures Last(w)[f - Dropped(w) + |MAGIC|..] == w[f + |MAGIC|..]
  {
  }

  /** Until a byte has come behind the word a call only fills the window; then it starts the file. */
  lemma HearMore(cfg: Config, st: St, seen: seq<byte>, data: seq<byte>,
                 more: seq<byte>, f: nat)
    requires |st.held| < 8 && !st.processing && st.window == Last(seen) && Fits(st, data)
    requires FirstAt(seen + data + more, f) && |seen + data| <= f + BUFFERSIZE
    ensures var r := Receive(cfg, st, data).0; var w := seen + data;
            if f + |MAGIC| < |w| then
              r == Started(cfg, Heard(st, data).0, w[f + |MAGIC|..]).0 && !Heard(st, data).0.fileEnd
            else !r.processing && r.window == Last(w)
  {
    var w := seen + data;
    LastAgain(seen, data);
    SearchInStream(w, more, f);
    if f + |MAGIC| < |w| { WindowTail(w, f); }
    hide Search, Started, Last, Fits, FirstAt;
  }

  /** What follows the call that starts the file. */
  lemma AfterStart(cfg: Config, st: St, text: seq<byte>, pieces: seq<seq<byte>>)
    requires |st.held| < 8 && AllFit(cfg, st, pieces) && Padded(text + Concat(pieces))
    requires st.seen == ReaderOf(cfg, text).0.trace
    requires if Alive(cfg, text) then During(cfg, st, text) else Over(cfg, st, text, [])
    requires OneWord(cfg, text + Concat(pieces)) || pieces == [] || Alive(cfg, text + ButLast(pieces))
    ensures var r := ReceiveAll(cfg, st, pieces); var all := text + Concat(pieces);
            && r.seen == ReaderOf(cfg, all).0.trace && (Alive(cfg, all) ==> During(cfg, r, all))
            && (Complete(cfg, all) && pieces != [] && Alive(cfg, text + ButLast(pieces)) ==> Rests(r))
  {
    hide Receive, Padded, Alive, During, ReaderOf, NoWord, Over, Fits, OneWord, Complete, Rests;
    if pieces == [] {
      assert text + Concat(pieces) == text;
    } else {
      if Alive(cfg, text) {
        Transfer(cfg, st, text, pieces);
      } else {
        if Alive(cfg, text + ButLast(pieces)) { AliveBefore(cfg, text, pieces); }
        StaysEnded(cfg, text, Concat(pieces));
        OneWordHere(cfg, text, Concat(pieces));
        AfterEndAll(cfg, st, text, [], pieces);
      }
    }
  }

  /** The stream behind its place k, where k bytes have come. */
  function Behind(stream: seq<byte>, k: nat): seq<byte> { if k <= |stream| then stream[k..] else [] }

  /** No word behind the place where the reader ends, or only the last call reaches that place. */
  ghost predicate OneTransfer(cfg: Config, stream: seq<byte>, before: seq<byte>, k: nat) {
    OneWord(cfg, Behind(stream, k)) || (k < |before| ==> Alive(cfg, Behind(before, k)))
  }

  /** Everything up to the call that starts the file, that call, and the transfer, from any state that has no file and
      has heard the bytes seen. The first word stands at f, and the call that brings the first byte behind it still has
      it in the window; behind it stands text with its padding. Then the reader reports what one call with all of
      the decoded text reports. */
  lemma {:induction false} EndToEnd(cfg: Config, st: St, seen: seq<byte>,
                                    pieces: seq<seq<byte>>, f: nat)
    requires |st.held| < 8 && !st.processing && st.window == Last(seen) && |seen| <= f + |MAGIC|
    requires FirstAt(seen + Concat(pieces), f) && f + |MAGIC| < |seen + Concat(pieces)|
    requires Padded(Behind(seen + Concat(pieces), f + |MAGIC|))
    requires BufferSuffices(pieces, |seen|, f) && AllFit(cfg, st, pieces)
    requires OneTransfer(cfg, seen + Concat(pieces), seen + ButLast(pieces), f + |MAGIC|)
    ensures var text := Behind(seen + Concat(pieces), f + |MAGIC|); var before := seen + ButLast(pieces);
            var r := ReceiveAll(cfg, st, pieces);
            && r.seen == ReaderOf(cfg, text).0.trace && (Alive(cfg, text) ==> During(cfg, r, text))
            && (Complete(cfg, text) && f + |MAGIC| < |before| && Alive(cfg, Behind(before, f + |MAGIC|)) ==> Rests(r))
            && (Complete(cfg, text) && |before| <= f + |MAGIC| ==> r.processing && r.fileEnd)
    decreases |pieces|
  {
    hide *;
    NoPieces(st, |seen|, f);
    OneOrTheOther(cfg, seen + Concat(pieces), seen + ButLast(pieces), f + |MAGIC|);
    var k := f + |MAGIC|;
    var p, more := pieces[0], pieces[1..];
    var w, rest := seen + p, Concat(more);
    Unroll(cfg, st, pieces);
    TextStep(seen, pieces);
    SufficesStep(pieces, |seen|, f);
    HearMore(cfg, st, seen, p, rest, f);
    var next := Receive(cfg, st, p).0;
    if k >= |w| {
      EndToEnd(cfg, next, w, more, f);
    } else {
      var text := w[k..];
      BehindConcat(w, rest, k);
      if more != [] { BehindConcat(w, ButLast(more), k); }
      PaddedPrefix(text, rest);
      StartText(cfg, Heard(st, p).0, text);
      AfterStart(cfg, next, text, more);
      if more == [] { assert text + rest == text; }
    }
  }

  lemma OneOrTheOther(cfg: Config, stream: seq<byte>, before: seq<byte>, k: nat)
    requires OneTransfer(cfg, stream, before, k)
    ensures OneWord(cfg, Behind(stream, k)) || (k < |before| ==> Alive(cfg, Behind(before, k)))
  {
    hide OneWord, Alive, Behind;
  }

  lemma BehindConcat(s: seq<byte>, t: seq<byte>, k: nat)
    requires k <= |s|
    ensures Behind(s + t, k) == s[k..] + t
  {
  }
}
