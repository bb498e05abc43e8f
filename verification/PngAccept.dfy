/** Any bytes taken apart into chunks, and the reader followed chunk by chunk. */
module PngAccept {
  import opened Common
  import opened PngStream
  import opened PngFile
  import opened PngBytes
  import PngPushReader

  // --- Chunks -----------------------------------------------------------------------------------

  /** What 12 + length bytes of a stream can be; the name is any four bytes. */
  predicate Sized(c: RawChunk) {
    c.name < 0x1_0000_0000 && |c.body| <= 0x7fff_ffff && |c.crc| == 4
  }

  predicate AllSized(cs: seq<RawChunk>) { forall i :: 0 <= i < |cs| ==> Sized(cs[i]) }

  function Written(c: RawChunk): seq<byte>
    requires Sized(c)
  {
    Bytes32(|c.body|) + Bytes32(c.name) + c.body + c.crc
  }

  function WrittenAll(cs: seq<RawChunk>): seq<byte>
    requires AllSized(cs)
  {
    if cs == [] then [] else Written(cs[0]) + WrittenAll(cs[1..])
  }

  /** Before a chunk header. */
  predicate Between(s: State) {
    s.Running? && !s.flags.header && (s.mode == ChunkMode || s.mode == IdatMode)
  }

  /** The header of c has been read. */
  function Headed(s: State, c: RawChunk): (t: State)
    requires s.Running? && Sized(c)
    ensures t.Running?
  {
    s.(pushLength := |c.body|, name := c.name, crc := Bytes32(c.name), flags := s.flags.(header := true))
  }

  /** The body and CRC of an IDAT chunk, behind its header. */
  function ImageChunk(cfg: Config, s: State, c: RawChunk): State
    requires s.Running? && s.idatSize == |c.body|
  {
    var t := PngPushReader.SinkAll(cfg, s, c.body);
    if t.Failed? then t else ReadCrc(cfg, t, c.crc)
  }

  /** Where the header of c takes a reader that waits for one. */
  function HeaderRead(cfg: Config, s: State, c: RawChunk): State
    requires Between(s) && Sized(c)
  {
    var t := Headed(s, c);
    if s.mode == IdatMode then
      if c.name == IDAT then t.(idatSize := |c.body|, trace := s.trace + [IdatBegin(|c.body|)])
      else if cfg.inflate(s.zin) == Finished then
        if c.name == IHDR && |c.body| != 13 then Fail(s) else t.(mode := ChunkMode)
      else Fail(s)
    else if !NameOk(c.name) then Fail(s)
    else if c.name == IDAT then BeginImage(cfg, t)
    else if c.name == IHDR && |c.body| != 13 then Fail(s) else t
  }

  /** Its header has been read: body and CRC are next. */
  predicate Within(s: State, c: RawChunk) {
    && s.Running? && s.flags.header && s.name == c.name && s.pushLength == |c.body|
    && (if c.name == IDAT then s.mode == IdatMode && s.idatSize == |c.body|
        else s.mode == ChunkMode && (c.name == IHDR ==> |c.body| == 13))
  }

  function BodyRead(cfg: Config, s: State, c: RawChunk): State
    requires Within(s, c)
  {
    if c.name == IDAT then ImageChunk(cfg, s, c) else ChunkDone(cfg, s, c.body, c.crc)
  }

  lemma HeaderReadIsWithin(cfg: Config, s: State, c: RawChunk)
    requires Between(s) && Sized(c)
    ensures var t := HeaderRead(cfg, s, c); t.Running? ==> Within(t, c)
  {
    ImageBegun(cfg, Headed(s, c));
    hide Bytes32, NameOk, BeginImage;
  }

  lemma ImageBegun(cfg: Config, t: State)
    requires t.Running?
    ensures var u := BeginImage(cfg, t);
            u.Running? ==>
              && u.mode == IdatMode && u.flags.header == t.flags.header && u.idatSize == t.pushLength
              && u.name == t.name && u.pushLength == t.pushLength
  {
  }

  /** What a whole chunk makes of a reader that waits for a header. */
  function Next(cfg: Config, s: State, c: RawChunk): State
    requires Between(s) && Sized(c)
  {
    HeaderReadIsWithin(cfg, s, c);
    var t := HeaderRead(cfg, s, c);
    if t.Failed? then t else BodyRead(cfg, t, c)
  }

  // --- One chunk --------------------------------------------------------------------------------

  lemma WrittenParts(c: RawChunk, rest: seq<byte>)
    requires Sized(c)
    ensures var q, n := Written(c) + rest, |c.body|;
            && |q| >= n + 12
            && q[..4] == Bytes32(n) && q[4..8] == Bytes32(c.name) && q[8..] == c.body + c.crc + rest
            && Be32(q[..4]) == n && Be32(q[4..8]) == c.name
  {
    hide Bytes32;
    var q, n := Written(c) + rest, |c.body|;
    assert q == Bytes32(n) + (Bytes32(c.name) + (c.body + c.crc + rest));
    assert q[8..] == c.body + c.crc + rest;
  }

  lemma BodyParts(body: seq<byte>, crc: seq<byte>, rest: seq<byte>)
    requires |crc| == 4
    ensures var r, n := body + crc + rest, |body|; r[..n] == body && r[n..n + 4] == crc && r[n + 4..] == rest
    ensures var r, n := body + crc + rest, |body|; r[n..] == crc + rest
    ensures (crc + rest)[..4] == crc && (crc + rest)[4..] == rest
  {
  }

  /** A body that is there. */
  lemma RunBody(cfg: Config, s: State, c: RawChunk, rest: seq<byte>)
    requires Within(s, c) && Sized(c)
    ensures var t := BodyRead(cfg, s, c);
            Run(cfg, s, c.body + c.crc + rest) == if t.Failed? then (t, []) else Run(cfg, t, rest)
  {
    if c.name == IDAT { RunImage(cfg, s, c, rest); } else { RunPlain(cfg, s, c, rest); }
    hide Run, ImageChunk, ChunkDone;
  }

  lemma RunPlain(cfg: Config, s: State, c: RawChunk, rest: seq<byte>)
    requires Within(s, c) && Sized(c) && c.name != IDAT
    ensures var t := ChunkDone(cfg, s, c.body, c.crc);
            Run(cfg, s, c.body + c.crc + rest) == if t.Failed? then (t, []) else Run(cfg, t, rest)
  {
    BodyParts(c.body, c.crc, rest);
    hide ChunkDone;
    var q := c.body + c.crc + rest;
    assert Step(cfg, s, q) == Go(|c.body| + 4, ChunkDone(cfg, s, c.body, c.crc));
  }

  lemma RunImage(cfg: Config, s: State, c: RawChunk, rest: seq<byte>)
    requires Within(s, c) && Sized(c) && c.name == IDAT
    ensures var t := ImageChunk(cfg, s, c);
            Run(cfg, s, c.body + c.crc + rest) == if t.Failed? then (t, []) else Run(cfg, t, rest)
  {
    BodyParts(c.body, c.crc, rest);
    var q := c.body + c.crc + rest;
    PngPushReader.RunIdatData(cfg, s, q, |c.body|);
    var t := PngPushReader.SinkAll(cfg, s, c.body);
    PngPushReader.SinkAllFrame(cfg, s, c.body);
    hide PngPushReader.SinkAll, ReadCrc;
    if t.Running? {
      assert Step(cfg, t, c.crc + rest) == Go(4, ReadCrc(cfg, t, c.crc));
    }
  }

  /** The header, whose length and name are those of c. */
  lemma RunHeader(cfg: Config, s: State, c: RawChunk, q: seq<byte>)
    requires Between(s) && Sized(c) && |q| >= 12
    requires q[4..8] == Bytes32(c.name) && Be32(q[..4]) == |c.body| && Be32(q[4..8]) == c.name
    ensures var t := HeaderRead(cfg, s, c);
            if t.Failed? then Run(cfg, s, q).0.Failed? else Run(cfg, s, q) == Run(cfg, t, q[8..])
  {
    var t := ReadHeader(cfg, s, q);
    assert Step(cfg, s, q) == Go(8, t);
    assert Run(cfg, s, q) == Run(cfg, t, q[8..]);
    hide *;
    HeaderStep(cfg, s, c, q);
    if t == HeaderRead(cfg, s, c) {
      if t.Failed? { PngPushReader.RunFailed(cfg, t, q[8..]); }
    } else {
      LongIhdr(cfg, t, q[8..]);
    }
  }

  lemma LongIhdr(cfg: Config, t: State, r: seq<byte>)
    requires t.Running? && t.mode == ChunkMode && t.flags.header && t.name == IHDR && t.pushLength != 13 && r != []
    ensures Run(cfg, t, r).0.Failed?
  {
    assert Step(cfg, t, r) == Go(1, Fail(t));
  }

  /** In IDAT mode the length of IHDR is looked at one step later. */
  lemma HeaderStep(cfg: Config, s: State, c: RawChunk, q: seq<byte>)
    requires Between(s) && Sized(c) && |q| >= 8
    requires q[4..8] == Bytes32(c.name) && Be32(q[..4]) == |c.body| && Be32(q[4..8]) == c.name
    ensures var t, u := ReadHeader(cfg, s, q), HeaderRead(cfg, s, c);
            || t == u
            || (u.Failed? && t.Running? && t.mode == ChunkMode && t.flags.header
                && t.name == IHDR && t.pushLength != 13)
  {
    hide Bytes32, NameOk, Be32, BeginImage;
  }

  /** A whole chunk. */
  lemma RunChunk(cfg: Config, s: State, c: RawChunk, rest: seq<byte>)
    requires Between(s) && Sized(c)
    ensures var t := Next(cfg, s, c);
            if t.Failed? then Run(cfg, s, Written(c) + rest).0.Failed?
            else Run(cfg, s, Written(c) + rest) == Run(cfg, t, rest)
  {
    WrittenParts(c, rest);
    RunHeader(cfg, s, c, Written(c) + rest);
    HeaderReadIsWithin(cfg, s, c);
    var t := HeaderRead(cfg, s, c);
    hide HeaderRead, BodyRead, Written, Run, Bytes32, Be32, Within;
    if t.Running? { RunBody(cfg, t, c, rest); }
  }

  // --- A stream, chunk by chunk -----------------------------------------------------------------

  /** These chunks, one after the other, take s to t. */
  predicate Leads(cfg: Config, s: State, cs: seq<RawChunk>, t: State)
    requires AllSized(cs)
    decreases |cs|
  {
    if cs == [] then s == t else Between(s) && Leads(cfg, Next(cfg, s, cs[0]), cs[1..], t)
  }

  predicate Done(s: State) { s.Running? && s.mode == DoneMode }

  lemma NextIsBetween(cfg: Config, s: State, c: RawChunk)
    requires Between(s) && Sized(c)
    ensures var t := Next(cfg, s, c); t.Running? ==> Between(t) || t.mode == DoneMode
  {
    HeaderReadIsWithin(cfg, s, c);
    var t := HeaderRead(cfg, s, c);
    hide HeaderRead;
    if t.Running? { BodyIsBetween(cfg, t, c); }
    hide BodyRead, Within, Between;
  }

  lemma BodyIsBetween(cfg: Config, s: State, c: RawChunk)
    requires Within(s, c)
    ensures var t := BodyRead(cfg, s, c); t.Running? ==> Between(t) || t.mode == DoneMode
  {
    if c.name == IDAT { ImageIsBetween(cfg, s, c); } else { PlainIsBetween(cfg, s, c); }
    hide ImageChunk, ChunkDone;
  }

  lemma ImageIsBetween(cfg: Config, s: State, c: RawChunk)
    requires Within(s, c) && c.name == IDAT
    ensures var t := ImageChunk(cfg, s, c); t.Running? ==> Between(t)
  {
    PngPushReader.SinkAllFrame(cfg, s, c.body);
    hide FatalCrc, PngPushReader.SinkAll;
  }

  /** A handled chunk leaves no header pending. */
  predicate Cleared(s: State, t: State)
    requires s.Running?
  {
    t.Running? ==> !t.flags.header && (t.mode == s.mode || t.mode == DoneMode)
  }

  lemma DoneIHDRClears(cfg: Config, s: State, body: seq<byte>, crc: seq<byte>)
    requires s.Running?
    ensures Cleared(s, DoneIHDR(cfg, s, body, crc))
  {
    hide FatalCrc, Textual, Critical;
  }

  lemma DonePLTEClears(cfg: Config, s: State, body: seq<byte>, crc: seq<byte>)
    requires s.Running?
    ensures Cleared(s, DonePLTE(cfg, s, body, crc))
  {
    hide FatalCrc, Textual, Critical;
  }

  lemma DoneIENDClears(cfg: Config, s: State, body: seq<byte>, crc: seq<byte>)
    requires s.Running?
    ensures Cleared(s, DoneIEND(cfg, s, body, crc))
  {
    hide FatalCrc, Textual, Critical;
  }

  lemma DoneAncillaryClears(cfg: Config, s: State, body: seq<byte>, crc: seq<byte>)
    requires s.Running?
    ensures Cleared(s, DoneAncillary(cfg, s, body, crc))
  {
    hide FatalCrc, Textual, Critical;
  }

  lemma DoneUnknownClears(cfg: Config, s: State, body: seq<byte>, crc: seq<byte>)
    requires s.Running?
    ensures Cleared(s, DoneUnknown(s, body, crc))
  {
    hide FatalCrc, Textual, Critical;
  }

  lemma PlainIsBetween(cfg: Config, s: State, c: RawChunk)
    requires Within(s, c) && c.name != IDAT
    ensures var t := ChunkDone(cfg, s, c.body, c.crc); t.Running? ==> Between(t) || t.mode == DoneMode
  {
    DoneIHDRClears(cfg, s, c.body, c.crc);
    DonePLTEClears(cfg, s, c.body, c.crc);
    DoneIENDClears(cfg, s, c.body, c.crc);
    DoneAncillaryClears(cfg, s, c.body, c.crc);
    DoneUnknownClears(cfg, s, c.body, c.crc);
    hide DoneIHDR, DonePLTE, DoneIEND, DoneAncillary, DoneUnknown, Ancillary;
  }

  /** Bytes that do not make a whole chunk do not end the reader. */
  lemma Incomplete(cfg: Config, s: State, q: seq<byte>)
    requires Between(s) && (|q| < 8 || |q| < 12 + Be32(q[..4]))
    ensures !Done(Run(cfg, s, q).0)
  {
    if |q| >= 8 {
      var t := ReadHeader(cfg, s, q);
      assert Step(cfg, s, q) == Go(8, t);
      HeaderLands(cfg, s, q);
      hide ReadHeader, Be32;
      if t.Running? {
        if t.mode == IdatMode { IncompleteImage(cfg, t, q[8..]); } else { IncompletePlain(cfg, t, q[8..]); }
      }
    }
  }

  lemma HeaderLands(cfg: Config, s: State, q: seq<byte>)
    requires Between(s) && |q| >= 8
    ensures var t := ReadHeader(cfg, s, q);
            t.Running? ==>
              && t.flags.header && t.pushLength == Be32(q[..4]) <= 0x7fff_ffff
              && (if t.mode == IdatMode then t.idatSize == t.pushLength else t.mode == ChunkMode && t.name != IDAT)
  {
    hide Be32, NameOk;
  }

  lemma IncompletePlain(cfg: Config, s: State, q: seq<byte>)
    requires s.Running? && s.mode == ChunkMode && s.flags.header && s.name != IDAT && |q| < s.pushLength + 4
    ensures !Done(Run(cfg, s, q).0)
  {
  }

  lemma IncompleteImage(cfg: Config, s: State, q: seq<byte>)
    requires s.Running? && s.mode == IdatMode && s.flags.header && |q| < s.idatSize + 4
    ensures !Done(Run(cfg, s, q).0)
  {
    var n := Min(s.idatSize, |q|);
    PngPushReader.RunIdatData(cfg, s, q, n);
    PngPushReader.SinkAllFrame(cfg, s, q[..n]);
    var t := PngPushReader.SinkAll(cfg, s, q[..n]);
    hide PngPushReader.SinkAll, ReadCrc, Sink;
    if t.Running? { assert Step(cfg, t, q[n..]).Stall?; }
  }

  /** The chunk that a queue begins with. */
  lemma FirstChunk(q: seq<byte>) returns (c: RawChunk, rest: seq<byte>)
    requires |q| >= 8 && Be32(q[..4]) <= 0x7fff_ffff && |q| >= 12 + Be32(q[..4])
    ensures Sized(c) && q == Written(c) + rest
  {
    var n := Be32(q[..4]);
    c, rest := RawChunk(Be32(q[4..8]), q[8..8 + n], q[8 + n..12 + n]), q[12 + n..];
    WordOfBytes(q[..4]);
    WordOfBytes(q[4..8]);
    NameFits(q[4..8]);
    WordIs(n);
    WordIs(c.name);
    hide Word, Bytes32, Be32;
  }

  lemma NameFits(b: seq<byte>)
    requires |b| == 4
    ensures Be32(b) < 0x1_0000_0000
  {
  }

  lemma TooLong(cfg: Config, s: State, q: seq<byte>)
    requires Between(s) && |q| >= 8 && Be32(q[..4]) > 0x7fff_ffff
    ensures Run(cfg, s, q).0.Failed?
  {
    assert Step(cfg, s, q) == Go(8, ReadHeader(cfg, s, q));
    hide NameOk, Be32;
  }

  lemma WrittenFirst(c: RawChunk, cs: seq<RawChunk>)
    requires Sized(c) && AllSized(cs)
    ensures AllSized([c] + cs) && WrittenAll([c] + cs) == Written(c) + WrittenAll(cs)
  {
    assert ([c] + cs)[1..] == cs;
    hide Written, Sized;
  }

  lemma LeadsFirst(cfg: Config, s: State, c: RawChunk, cs: seq<RawChunk>, t: State)
    requires Sized(c) && AllSized(cs) && Between(s)
    ensures AllSized([c] + cs) && Leads(cfg, s, [c] + cs, t) == Leads(cfg, Next(cfg, s, c), cs, t)
  {
    assert ([c] + cs)[1..] == cs;
    hide Next, Sized;
  }

  /** A reader that is done has been given whole chunks, which have taken it there. */
  lemma {:induction false} ChunksOf(cfg: Config, s: State, q: seq<byte>) returns (cs: seq<RawChunk>, rest: seq<byte>)
    requires Between(s) && Done(Run(cfg, s, q).0)
    ensures AllSized(cs) && q == WrittenAll(cs) + rest && Leads(cfg, s, cs, Run(cfg, s, q).0)
    decreases |q|
  {
    hide *;
    if |q| < 8 || |q| < 12 + Be32(q[..4]) {
      Incomplete(cfg, s, q);
    } else if Be32(q[..4]) > 0x7fff_ffff {
      TooLong(cfg, s, q);
      DoneIs(Run(cfg, s, q).0);
    } else {
      var c, more := FirstChunk(q);
      RunChunk(cfg, s, c, more);
      DoneIs(Run(cfg, s, q).0);
      var t := Next(cfg, s, c);
      NextIsBetween(cfg, s, c);
      WrittenParts(c, more);
      if t.mode == DoneMode {
        StaysDone(cfg, t, more);
        cs, rest := [], more;
      } else {
        cs, rest := ChunksOf(cfg, t, more);
      }
      Assoc(Written(c), WrittenAll(cs), rest);
      WrittenFirst(c, cs);
      LeadsFirst(cfg, s, c, cs, Run(cfg, s, q).0);
      cs := [c] + cs;
    }
  }

  lemma Assoc(a: seq<byte>, b: seq<byte>, c: seq<byte>)
    ensures a + (b + c) == a + b + c
  {
  }

  lemma DoneIs(s: State)
    ensures Done(s) <==> s.Running? && s.mode == DoneMode
  {
  }

  lemma StaysDone(cfg: Config, t: State, q: seq<byte>)
    requires t.Running? && t.mode == DoneMode
    ensures Run(cfg, t, q) == (t, []) && AllSized([]) && WrittenAll([]) == [] && [] + q == q && Leads(cfg, t, [], t)
  {
  }

  /** And chunks that take it there are a stream that ends it, whatever comes behind them. */
  lemma {:induction false} LeadsRuns(cfg: Config, s: State, cs: seq<RawChunk>, rest: seq<byte>, t: State)
    requires AllSized(cs) && Leads(cfg, s, cs, t) && Done(t)
    ensures Run(cfg, s, WrittenAll(cs) + rest) == (t, [])
    decreases |cs|
  {
    if cs == [] {
      StaysDone(cfg, t, rest);
    } else {
      var c, more := cs[0], cs[1..];
      assert cs == [c] + more && Sized(c) && AllSized(more) && Between(s);
      hide *;
      LeadsFirst(cfg, s, c, more, t);
      WrittenFirst(c, more);
      Assoc(Written(c), WrittenAll(more), rest);
      RunChunk(cfg, s, c, WrittenAll(more) + rest);
      var u := Next(cfg, s, c);
      FailedLeads(cfg, u, more, t);
      DoneIs(t);
      LeadsRuns(cfg, u, more, rest, t);
    }
  }

  lemma FailedLeads(cfg: Config, s: State, cs: seq<RawChunk>, t: State)
    requires AllSized(cs) && Leads(cfg, s, cs, t)
    ensures s.Failed? ==> t == s
  {
  }
}
