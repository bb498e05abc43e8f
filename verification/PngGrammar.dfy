/** Exactly which streams end the reader without failure, said of the list of their chunks. */
module PngGrammar {
  import opened Common
  import opened Bits
  import opened PngStream
  import opened PngFile
  import opened PngAccept
  import PngBytes
  import PngPushReader

  // --- Names ------------------------------------------------------------------------------------

  /** A chunk name from its four letters. */
  function Name(s: string): nat
    requires |s| == 4 && forall i :: 0 <= i < 4 ==> s[i] < 128 as char
  {
    ((s[0] as int * 256 + s[1] as int) * 256 + s[2] as int) * 256 + s[3] as int
  }

  /** The ancillary chunks that have a handler. */
  const HANDLED: seq<nat> := [
    Name("gAMA"), Name("sBIT"), Name("cHRM"), Name("sRGB"), Name("iCCP"), Name("sPLT"), Name("tRNS"), Name("bKGD"),
    Name("hIST"), Name("pHYs"), Name("oFFs"), Name("pCAL"), Name("sCAL"), Name("tIME"), Name("tEXt"), Name("zTXt"),
    Name("iTXt")]

  lemma NamesAre()
    ensures IHDR == Name("IHDR") && PLTE == Name("PLTE") && IDAT == Name("IDAT") && IEND == Name("IEND")
  {
  }

  lemma SignatureIs()
    ensures SIGNATURE == [0x89, 'P' as int, 'N' as int, 'G' as int, '\r' as int, '\n' as int, 0x1a, '\n' as int]
  {
  }

  lemma HandledTags()
    ensures HANDLED == [
      Tag(103, 65, 77, 65), Tag(115, 66, 73, 84), Tag(99, 72, 82, 77), Tag(115, 82, 71, 66), Tag(105, 67, 67, 80),
      Tag(115, 80, 76, 84), Tag(116, 82, 78, 83), Tag(98, 75, 71, 68), Tag(104, 73, 83, 84), Tag(112, 72, 89, 115),
      Tag(111, 70, 70, 115), Tag(112, 67, 65, 76), Tag(115, 67, 65, 76), Tag(116, 73, 77, 69), Tag(116, 69, 88, 116),
      Tag(122, 84, 88, 116), Tag(105, 84, 88, 116)]
  {
  }

  lemma HandledIs(name: nat)
    ensures Ancillary(name) <==> name in HANDLED
  {
    HandledTags();
    hide Tag, HANDLED;
  }

  /** Four ASCII letters. */
  predicate Lettered(name: nat)
    requires name < 0x1_0000_0000
  {
    forall i :: 0 <= i < 4 ==>
      var b := Bytes32(name)[i]; ('A' as int <= b <= 'Z' as int) || ('a' as int <= b <= 'z' as int)
  }

  lemma LetteredIs(name: nat)
    requires name < 0x1_0000_0000
    ensures NameOk(name) <==> Lettered(name)
  {
    var (n1, n2, n3) := (name / 256, name / 256 / 256, name / 256 / 256 / 256);
    var b := Bytes32(name);
    assert b[3] == name % 256 && b[2] == n1 % 256 && b[1] == n2 % 256 && b[0] == n3 && n3 % 256 == n3;
    assert NameOk(name) == (Letter(name % 256) && NameOk(n1, 3));
    assert NameOk(n1, 3) == (Letter(n1 % 256) && NameOk(n2, 2));
    assert NameOk(n2, 2) == (Letter(n2 % 256) && NameOk(n3, 1));
    assert NameOk(n3, 1) == (Letter(n3 % 256) && NameOk(n3 / 256, 0));
    hide NameOk, Bytes32;
    assert Lettered(name) <==> Letter(b[0]) && Letter(b[1]) && Letter(b[2]) && Letter(b[3]);
  }

  /** Bit 5 of the first byte is set. */
  predicate Optional(name: nat)
    requires name < 0x1_0000_0000
  {
    BitAnd(Bytes32(name)[0], 32) != 0
  }

  lemma OptionalIs(name: nat)
    requires name < 0x1_0000_0000
    ensures Critical(name) <==> !Optional(name)
  {
    var b := Bytes32(name)[0];
    assert b == name / 256 / 256 / 256 && name / 0x2000_0000 == b / 32;
    AndOne(b, 5);
    assert Pow2(5) == 32;
    hide BitAnd, Bytes32, Pow2;
  }

  // --- What a list of chunks says ---------------------------------------------------------------

  predicate Has(cs: seq<RawChunk>, name: nat) { exists i :: 0 <= i < |cs| && cs[i].name == name }

  /** The last chunk is an IDAT. */
  predicate BehindImage(cs: seq<RawChunk>) { cs != [] && cs[|cs| - 1].name == IDAT }

  /** An IHDR that says the image has a palette. */
  predicate Paletted(cs: seq<RawChunk>) {
    exists i :: 0 <= i < |cs| && cs[i].name == IHDR && |cs[i].body| == 13 && cs[i].body[9] == 3
  }

  /** The bodies of the IDAT chunks, joined. */
  function ImageData(cs: seq<RawChunk>): seq<byte> {
    if cs == [] then []
    else ImageData(cs[..|cs| - 1]) + (if cs[|cs| - 1].name == IDAT then cs[|cs| - 1].body else [])
  }

  /** What the application is told: the info callback comes before each first IDAT of a row of them. */
  function Report(cs: seq<RawChunk>): seq<Event> {
    if cs == [] then []
    else
      var (before, c) := (cs[..|cs| - 1], cs[|cs| - 1]);
      Report(before) + (if c.name == IDAT && !BehindImage(before) then [Info] else []) + EventsOf(c)
      + (if c.name == IEND then [End] else [])
  }

  /** The decompressor reaches its end somewhere in the data. */
  ghost predicate Completes(cfg: Config, data: seq<byte>) {
    exists k :: 0 <= k <= |data| && cfg.inflate(data[..k]) == Finished
  }

  /** The decompressor does not break, unless behind its end, where it is given nothing more. */
  ghost predicate Unbroken(cfg: Config, data: seq<byte>) {
    forall k :: 0 < k <= |data| && cfg.inflate(data[..k]) == Broken ==>
      exists j :: 0 <= j < k && cfg.inflate(data[..j]) == Finished
  }

  /** The CRC over name and body matches, where a mismatch is fatal. */
  predicate CrcHolds(cfg: Config, c: RawChunk)
    requires Sized(c)
  {
    cfg.benignFatal ==> cfg.crcOk(Bytes32(c.name) + c.body, c.crc)
  }

  // --- The grammar ------------------------------------------------------------------------------

  /** Directly behind an IDAT the letters of a name are not looked at, but the image has to be complete. */
  ghost predicate MayBeHeaded(cfg: Config, before: seq<RawChunk>, c: RawChunk)
    requires Sized(c)
  {
    if BehindImage(before) then c.name == IDAT || Completes(cfg, ImageData(before)) else Lettered(c.name)
  }

  predicate MayBeIHDR(cfg: Config, before: seq<RawChunk>, c: RawChunk)
    requires Sized(c)
  {
    !Has(before, IHDR) && |c.body| == 13 && cfg.ihdrOk(c.body) && CrcHolds(cfg, c)
  }

  ghost predicate MayBeIDAT(cfg: Config, before: seq<RawChunk>, c: RawChunk)
    requires Sized(c)
  {
    && Has(before, IHDR) && (Paletted(before) ==> Has(before, PLTE))
    && (Has(before, IDAT) && !BehindImage(before) ==> !cfg.benignFatal)
    && CrcHolds(cfg, c) && Unbroken(cfg, ImageData(before) + c.body)
  }

  predicate MayBePLTE(cfg: Config, before: seq<RawChunk>, c: RawChunk)
    requires Sized(c)
  {
    && Has(before, IHDR) && CrcHolds(cfg, c)
    && (!Has(before, IDAT) ==>
          !Has(before, PLTE) && (Paletted(before) ==> |c.body| <= 768 && |c.body| % 3 == 0))
  }

  predicate MayBeIEND(cfg: Config, before: seq<RawChunk>, c: RawChunk)
    requires Sized(c)
  {
    Has(before, IHDR) && Has(before, IDAT) && CrcHolds(cfg, c)
  }

  /** A handled ancillary chunk, or one that the reader does not know: its CRC may be anything. */
  predicate MayBeOther(cfg: Config, before: seq<RawChunk>, c: RawChunk)
    requires Sized(c)
  {
    if c.name in HANDLED then Has(before, IHDR) && cfg.ancillaryOk(Report(before), c.name, c.body)
    else Optional(c.name)
  }

  /** c may follow these chunks. */
  ghost predicate May(cfg: Config, before: seq<RawChunk>, c: RawChunk)
    requires Sized(c)
  {
    && MayBeHeaded(cfg, before, c)
    && (if c.name == Name("IHDR") then MayBeIHDR(cfg, before, c)
        else if c.name == Name("IDAT") then MayBeIDAT(cfg, before, c)
        else if c.name == Name("PLTE") then MayBePLTE(cfg, before, c)
        else if c.name == Name("IEND") then MayBeIEND(cfg, before, c)
        else MayBeOther(cfg, before, c))
  }

  /** Each chunk may follow those before it, and the last, and only the last, is IEND. */
  ghost predicate Acceptable(cfg: Config, cs: seq<RawChunk>)
    requires AllSized(cs)
  {
    && (forall i :: 0 <= i < |cs| ==> May(cfg, cs[..i], cs[i]))
    && cs != [] && (forall i :: 0 <= i < |cs| ==> (cs[i].name == IEND <==> i == |cs| - 1))
  }

  // --- One more chunk ---------------------------------------------------------------------------

  lemma HasOneMore(cs: seq<RawChunk>, c: RawChunk, name: nat)
    ensures Has(cs + [c], name) <==> Has(cs, name) || c.name == name
  {
    var all := cs + [c];
    assert all[|cs|] == c;
    if Has(cs, name) {
      var i :| 0 <= i < |cs| && cs[i].name == name;
      assert all[i] == cs[i];
    }
  }

  lemma PalettedOneMore(cs: seq<RawChunk>, c: RawChunk)
    ensures Paletted(cs + [c]) <==>
              Paletted(cs) || (c.name == IHDR && |c.body| == 13 && c.body[9] == 3)
  {
    var all := cs + [c];
    assert all[|cs|] == c;
    if Paletted(cs) {
      var i :| 0 <= i < |cs| && cs[i].name == IHDR && |cs[i].body| == 13 && cs[i].body[9] == 3;
      assert all[i] == cs[i];
    }
  }

  lemma DataOneMore(cs: seq<RawChunk>, c: RawChunk)
    ensures ImageData(cs + [c]) == if c.name == IDAT then ImageData(cs) + c.body else ImageData(cs)
    ensures BehindImage(cs + [c]) <==> c.name == IDAT
  {
    assert (cs + [c])[..|cs|] == cs;
  }

  lemma ReportOneMore(cs: seq<RawChunk>, c: RawChunk)
    ensures Report(cs + [c]) ==
              Report(cs) + (if c.name == IDAT && !BehindImage(cs) then [Info] else []) + EventsOf(c)
              + (if c.name == IEND then [End] else [])
  {
    assert (cs + [c])[..|cs|] == cs;
    hide EventsOf, BehindImage;
  }

  // --- The decompressor -------------------------------------------------------------------------

  /** It has been given the data up to its end. */
  ghost predicate Fed(cfg: Config, zin: seq<byte>, data: seq<byte>) {
    && zin <= data && (zin == data || cfg.inflate(zin) == Finished)
    && (forall k :: 0 <= k < |zin| ==> cfg.inflate(data[..k]) != Finished)
    && (forall k :: 0 < k <= |zin| ==> cfg.inflate(data[..k]) != Broken)
  }

  lemma FedCompletes(cfg: Config, zin: seq<byte>, data: seq<byte>)
    requires Fed(cfg, zin, data)
    ensures Completes(cfg, data) <==> cfg.inflate(zin) == Finished
    ensures Unbroken(cfg, data)
  {
    assert data[..|zin|] == zin;
  }

  /** One byte of image data. */
  lemma SinkFeeds(cfg: Config, s: State, data: seq<byte>, b: byte)
    requires s.Running? && s.idatSize > 0 && Fed(cfg, s.zin, data)
    ensures var t := Sink(cfg, s, b);
            if Unbroken(cfg, data + [b]) then
              t.Running? && Fed(cfg, t.zin, data + [b]) && t.trace == s.trace + [IdatByte(b)]
            else t.Failed?
  {
    var t, more := Sink(cfg, s, b), data + [b];
    assert data[..|s.zin|] == s.zin && more[..|data|] == data && more[..|more|] == more;
    assert forall k :: 0 <= k <= |data| ==> more[..k] == data[..k];
    if t.Running? { FedCompletes(cfg, t.zin, more); }
  }

  lemma UnbrokenPart(cfg: Config, data: seq<byte>, more: seq<byte>)
    requires Unbroken(cfg, data + more)
    ensures Unbroken(cfg, data)
  {
    var all := data + more;
    assert forall k :: 0 <= k <= |data| ==> all[..k] == data[..k];
  }

  lemma {:induction false} SinkAllFeeds(cfg: Config, s: State, data: seq<byte>, body: seq<byte>)
    requires s.Running? && s.idatSize >= |body| && Fed(cfg, s.zin, data)
    ensures var t := PngPushReader.SinkAll(cfg, s, body);
            if Unbroken(cfg, data + body) then
              t.Running? && Fed(cfg, t.zin, data + body) && t.trace == s.trace + IdatBytes(body)
            else t.Failed?
    decreases |body|
  {
    if body == [] {
      FedCompletes(cfg, s.zin, data);
      assert data + body == data && s.trace + IdatBytes(body) == s.trace;
    } else {
      var b, rest := body[0], body[1..];
      var t := Sink(cfg, s, b);
      SinkFeeds(cfg, s, data, b);
      assert t.Running? ==> t.idatSize == s.idatSize - 1;
      assert data + [b] + rest == data + body;
      assert s.trace + [IdatByte(b)] + IdatBytes(rest) == s.trace + IdatBytes(body);
      hide Sink, Fed, Unbroken, IdatBytes;
      if t.Running? {
        SinkAllFeeds(cfg, t, data + [b], rest);
      } else if Unbroken(cfg, data + body) {
        UnbrokenPart(cfg, data + [b], rest);
      }
    }
  }

  // --- The reader follows -----------------------------------------------------------------------

  /** s is the reader that has taken these chunks. */
  ghost predicate Matches(cfg: Config, s: State, cs: seq<RawChunk>) {
    && s.Running? && !s.flags.header
    && s.mode == (if Has(cs, IEND) then DoneMode else if BehindImage(cs) then IdatMode else ChunkMode)
    && s.flags.ihdr == Has(cs, IHDR) && s.flags.idat == Has(cs, IDAT)
    && (s.flags.idat ==> s.flags.ihdr && s.flags.afterIdat)
    && (s.flags.plte ==> Has(cs, PLTE)) && (Has(cs, PLTE) ==> s.flags.plte || s.flags.idat)
    && (s.flags.idat && s.colorType == COLOR_TYPE_PALETTE ==> s.flags.plte)
    && (Paletted(cs) <==> s.flags.ihdr && s.colorType == COLOR_TYPE_PALETTE)
    && Fed(cfg, s.zin, ImageData(cs)) && s.trace == Report(cs)
  }

  /** All that is said of one more chunk. */
  lemma OneMore(cs: seq<RawChunk>, c: RawChunk)
    ensures forall name :: Has(cs + [c], name) <==> Has(cs, name) || c.name == name
    ensures Paletted(cs + [c]) <==>
              Paletted(cs) || (c.name == IHDR && |c.body| == 13 && c.body[9] == 3)
    ensures ImageData(cs + [c]) == if c.name == IDAT then ImageData(cs) + c.body else ImageData(cs)
    ensures BehindImage(cs + [c]) <==> c.name == IDAT
    ensures Report(cs + [c]) ==
              Report(cs) + (if c.name == IDAT && !BehindImage(cs) then [Info] else []) + EventsOf(c)
              + (if c.name == IEND then [End] else [])
  {
    forall name ensures Has(cs + [c], name) <==> Has(cs, name) || c.name == name {
      HasOneMore(cs, c, name);
    }
    PalettedOneMore(cs, c);
    DataOneMore(cs, c);
    ReportOneMore(cs, c);
  }

  /** The header of a chunk other than IDAT has been read. */
  function Awaited(s: State, c: RawChunk): (t: State)
    requires s.Running? && Sized(c)
    ensures t.Running?
  {
    var t := Headed(s, c);
    t.(mode := ChunkMode)
  }

  /** Next, when it is not an IDAT. */
  lemma PlainNext(cfg: Config, s: State, c: RawChunk)
    requires Between(s) && Sized(c) && c.name != IDAT
    requires s.mode == ChunkMode ==> NameOk(c.name)
    requires s.mode == IdatMode ==> cfg.inflate(s.zin) == Finished
    ensures var t := Next(cfg, s, c);
            if c.name == IHDR && |c.body| != 13 then t.Failed?
            else t == ChunkDone(cfg, Awaited(s, c), c.body, c.crc)
  {
    hide Bytes32, NameOk, ChunkDone;
  }

  lemma PlainEvents(c: RawChunk, trace: seq<Event>)
    requires c.name != IDAT
    ensures trace + [] + EventsOf(c) + [] == trace + [Chunk(c.name, c.body, c.crc)]
    ensures trace + [] + EventsOf(c) + [End] == trace + [Chunk(c.name, c.body, c.crc)] + [End]
  {
  }

  /** A chunk other than IDAT has been taken. */
  lemma StillMatches(cfg: Config, s: State, cs: seq<RawChunk>, c: RawChunk, t: State)
    requires Matches(cfg, s, cs) && s.mode != DoneMode && c.name != IDAT && t.Running? && !t.flags.header
    requires t.zin == s.zin && t.trace == Awake(s.trace + [Chunk(c.name, c.body, c.crc)], c.name == IEND)
    requires t.mode == if c.name == IEND then DoneMode else ChunkMode
    requires t.flags.ihdr == (s.flags.ihdr || c.name == IHDR) && t.flags.idat == s.flags.idat
    requires s.flags.afterIdat ==> t.flags.afterIdat
    requires if c.name == PLTE then s.flags.idat || t.flags.plte else t.flags.plte == s.flags.plte
    requires s.flags.plte ==> t.flags.plte
    requires if c.name == IHDR then !s.flags.ihdr && |c.body| == 13 && t.colorType == c.body[9]
             else t.colorType == s.colorType
    ensures Matches(cfg, t, cs + [c])
  {
    OneMore(cs, c);
    PlainEvents(c, s.trace);
    hide Has, Paletted, ImageData, BehindImage, Report, Fed, EventsOf;
  }

  function Awake(trace: seq<Event>, last: bool): seq<Event> { if last then trace + [End] else trace }

  lemma NextIHDR(cfg: Config, s: State, cs: seq<RawChunk>, c: RawChunk)
    requires Matches(cfg, s, cs) && s.mode != DoneMode && Sized(c) && c.name == IHDR && |c.body| == 13
    ensures var t := ChunkDone(cfg, Awaited(s, c), c.body, c.crc);
            if MayBeIHDR(cfg, cs, c) then Matches(cfg, t, cs + [c]) else t.Failed?
  {
    NamesDiffer();
    var t := DoneIHDR(cfg, Awaited(s, c), c.body, c.crc);
    assert MayBeIHDR(cfg, cs, c) <==> t.Running? by { hide Has, Bytes32; }
    hide Fed, Matches, MayBeIHDR;
    if t.Running? { StillMatches(cfg, s, cs, c, t); }
  }

  lemma NextPLTE(cfg: Config, s: State, cs: seq<RawChunk>, c: RawChunk)
    requires Matches(cfg, s, cs) && s.mode != DoneMode && Sized(c) && c.name == PLTE
    ensures var t := ChunkDone(cfg, Awaited(s, c), c.body, c.crc);
            if MayBePLTE(cfg, cs, c) then Matches(cfg, t, cs + [c]) else t.Failed?
  {
    NamesDiffer();
    var t := DonePLTE(cfg, Awaited(s, c), c.body, c.crc);
    assert MayBePLTE(cfg, cs, c) <==> t.Running? by { hide Has, Bytes32; }
    hide Fed, Matches, MayBePLTE;
    if t.Running? { StillMatches(cfg, s, cs, c, t); }
  }

  lemma NextIEND(cfg: Config, s: State, cs: seq<RawChunk>, c: RawChunk)
    requires Matches(cfg, s, cs) && s.mode != DoneMode && Sized(c) && c.name == IEND
    ensures var t := ChunkDone(cfg, Awaited(s, c), c.body, c.crc);
            if MayBeIEND(cfg, cs, c) then Matches(cfg, t, cs + [c]) else t.Failed?
  {
    NamesDiffer();
    var t := DoneIEND(cfg, Awaited(s, c), c.body, c.crc);
    assert MayBeIEND(cfg, cs, c) <==> t.Running? by { hide Has, Bytes32; }
    hide Fed, Matches, MayBeIEND;
    if t.Running? { StillMatches(cfg, s, cs, c, t); }
  }

  lemma OtherTaken(cfg: Config, s: State, cs: seq<RawChunk>, c: RawChunk)
    requires Matches(cfg, s, cs) && Sized(c) && c.name !in {IHDR, IDAT, PLTE, IEND}
    ensures MayBeOther(cfg, cs, c) <==> ChunkDone(cfg, Awaited(s, c), c.body, c.crc).Running?
  {
    HandledIs(c.name);
    OptionalIs(c.name);
    hide Has, Bytes32, HANDLED, Ancillary, Optional, Critical, Textual, Report, Fed;
  }

  /** What an ancillary chunk leaves behind. */
  lemma OtherLeaves(cfg: Config, s: State, c: RawChunk)
    requires s.Running? && Sized(c) && c.name !in {IHDR, IDAT, PLTE, IEND}
    ensures var t := ChunkDone(cfg, Awaited(s, c), c.body, c.crc);
            t.Running? ==>
              && t.mode == ChunkMode && t.zin == s.zin && t.colorType == s.colorType
              && t.trace == s.trace + [Chunk(c.name, c.body, c.crc)]
              && t.flags == s.flags.(header := false, afterIdat := t.flags.afterIdat)
              && (s.flags.afterIdat ==> t.flags.afterIdat)
  {
    hide Ancillary, Critical, Textual, Bytes32;
  }

  lemma NextOther(cfg: Config, s: State, cs: seq<RawChunk>, c: RawChunk)
    requires Matches(cfg, s, cs) && s.mode != DoneMode && Sized(c) && c.name !in {IHDR, IDAT, PLTE, IEND}
    ensures var t := ChunkDone(cfg, Awaited(s, c), c.body, c.crc);
            if MayBeOther(cfg, cs, c) then Matches(cfg, t, cs + [c]) else t.Failed?
  {
    assert s.Running?;
    hide *;
    var t := ChunkDone(cfg, Awaited(s, c), c.body, c.crc);
    OtherTaken(cfg, s, cs, c);
    OtherLeaves(cfg, s, c);
    AwakeIs(s.trace + [Chunk(c.name, c.body, c.crc)], false);
    if t.Running? { StillMatches(cfg, s, cs, c, t); }
  }

  lemma AwakeIs(trace: seq<Event>, last: bool)
    ensures Awake(trace, last) == if last then trace + [End] else trace
  {
  }

  lemma NamesDiffer()
    ensures IHDR != PLTE && IHDR != IEND && PLTE != IEND && IHDR != IDAT && PLTE != IDAT && IEND != IDAT
    ensures Critical(IHDR) && Critical(PLTE) && Critical(IEND) && Critical(IDAT)
    ensures NameOk(IDAT)
  {
  }

  // --- IDAT chunks ------------------------------------------------------------------------------

  /** The header of an IDAT chunk that may stand here has been read. */
  function Begun(s: State, c: RawChunk): (t: State)
    requires s.Running? && Sized(c)
    ensures t.Running?
  {
    var (t, first) := (Headed(s, c), s.mode != IdatMode);
    t.(mode := IdatMode, idatSize := |c.body|,
       flags := s.flags.(header := true, idat := true,
                         chunkAfterIdat := s.flags.chunkAfterIdat || (first && s.flags.afterIdat)),
       trace := s.trace + (if first then [Info] else []) + [IdatBegin(|c.body|)])
  }

  predicate MayBegin(cfg: Config, before: seq<RawChunk>) {
    && Has(before, IHDR) && (Paletted(before) ==> Has(before, PLTE))
    && (Has(before, IDAT) && !BehindImage(before) ==> !cfg.benignFatal)
  }

  lemma ImageHeader(cfg: Config, s: State, cs: seq<RawChunk>, c: RawChunk)
    requires Matches(cfg, s, cs) && Between(s) && Sized(c) && c.name == IDAT
    ensures HeaderRead(cfg, s, c) == if MayBegin(cfg, cs) then Begun(s, c) else Fail(s)
  {
    NamesDiffer();
    assert s.trace + [] + [IdatBegin(|c.body|)] == s.trace + [IdatBegin(|c.body|)];
    assert s.trace + [Info] + [IdatBegin(|c.body|)] == s.trace + [Info, IdatBegin(|c.body|)];
    hide Bytes32, NameOk, Fed, ImageData, Report;
  }

  /** The body and the CRC, for whatever header came before. */
  lemma ImageTaken(cfg: Config, u: State, c: RawChunk, data: seq<byte>)
    requires u.Running? && Sized(c) && c.name == IDAT == u.name && u.mode == IdatMode && u.crc == Bytes32(IDAT)
    requires u.idatSize == |c.body| && Fed(cfg, u.zin, data)
    ensures var t := ImageChunk(cfg, u, c);
            if Unbroken(cfg, data + c.body) && CrcHolds(cfg, c) then
              && t.Running? && Fed(cfg, t.zin, data + c.body)
              && t == u.(idatSize := 0, crc := u.crc + c.body, zin := t.zin,
                         flags := u.flags.(header := false, afterIdat := true),
                         trace := u.trace + IdatBytes(c.body) + [IdatEnd(c.crc)])
            else t.Failed?
  {
    PngPushReader.SinkAllFrame(cfg, u, c.body);
    SinkAllFeeds(cfg, u, data, c.body);
    NamesDiffer();
    hide Unbroken, Fed, PngPushReader.SinkAll, Bytes32, IdatBytes, Critical;
  }

  lemma ImageMatches(cfg: Config, s: State, cs: seq<RawChunk>, c: RawChunk, t: State)
    requires Matches(cfg, s, cs) && Between(s) && Sized(c) && c.name == IDAT && MayBegin(cfg, cs) && t.Running?
    requires Fed(cfg, t.zin, ImageData(cs) + c.body)
    requires var u := Begun(s, c);
             t == u.(idatSize := 0, crc := t.crc, zin := t.zin, flags := u.flags.(header := false, afterIdat := true),
                     trace := u.trace + IdatBytes(c.body) + [IdatEnd(c.crc)])
    ensures Matches(cfg, t, cs + [c])
  {
    NamesDiffer();
    OneMore(cs, c);
    var first := if BehindImage(cs) then [] else [Info];
    ImageEvents(s.trace, first, c);
    hide Has, Paletted, ImageData, Report, Fed, EventsOf, Bytes32, IdatBytes, BehindImage;
  }

  lemma ImageEvents(trace: seq<Event>, first: seq<Event>, c: RawChunk)
    requires c.name == IDAT
    ensures trace + first + [IdatBegin(|c.body|)] + IdatBytes(c.body) + [IdatEnd(c.crc)] ==
              trace + first + EventsOf(c) + []
  {
  }

  lemma NextIDAT(cfg: Config, s: State, cs: seq<RawChunk>, c: RawChunk)
    requires Matches(cfg, s, cs) && Between(s) && Sized(c) && c.name == IDAT
    ensures var t := Next(cfg, s, c); if MayBeIDAT(cfg, cs, c) then Matches(cfg, t, cs + [c]) else t.Failed?
  {
    ImageHeader(cfg, s, cs, c);
    HeaderReadIsWithin(cfg, s, c);
    assert MayBeIDAT(cfg, cs, c) <==> MayBegin(cfg, cs) && CrcHolds(cfg, c) && Unbroken(cfg, ImageData(cs) + c.body);
    hide MayBegin, MayBeIDAT, CrcHolds, Unbroken, HeaderRead, ImageChunk;
    if MayBegin(cfg, cs) {
      var u := Begun(s, c);
      ImageTaken(cfg, u, c, ImageData(cs));
      var t := ImageChunk(cfg, u, c);
      assert Next(cfg, s, c) == t;
      hide Matches, Begun;
      if t.Running? { ImageMatches(cfg, s, cs, c, t); }
    }
  }

  /** When the header of a chunk is let through, but for what BeginImage and the length of IHDR say. */
  predicate Headable(cfg: Config, s: State, c: RawChunk)
    requires s.Running?
  {
    if s.mode == IdatMode then c.name == IDAT || cfg.inflate(s.zin) == Finished else NameOk(c.name)
  }

  lemma Unheadable(cfg: Config, s: State, c: RawChunk)
    requires Between(s) && Sized(c) && !Headable(cfg, s, c)
    ensures Next(cfg, s, c).Failed?
  {
    hide Bytes32, NameOk;
  }

  lemma HeaderMatches(cfg: Config, s: State, cs: seq<RawChunk>, c: RawChunk)
    requires Matches(cfg, s, cs) && Between(s) && Sized(c)
    ensures MayBeHeaded(cfg, cs, c) <==> Headable(cfg, s, c)
  {
    LetteredIs(c.name);
    FedCompletes(cfg, s.zin, ImageData(cs));
    hide Has, Paletted, ImageData, Report, Fed, BehindImage, Lettered, NameOk, Completes;
  }

  lemma NextPlain(cfg: Config, s: State, cs: seq<RawChunk>, c: RawChunk)
    requires Matches(cfg, s, cs) && Between(s) && Sized(c) && c.name != IDAT && Headable(cfg, s, c)
    ensures var t := Next(cfg, s, c);
            if (if c.name == IHDR then MayBeIHDR(cfg, cs, c) else if c.name == PLTE then MayBePLTE(cfg, cs, c)
                else if c.name == IEND then MayBeIEND(cfg, cs, c) else MayBeOther(cfg, cs, c))
            then Matches(cfg, t, cs + [c]) else t.Failed?
  {
    PlainNext(cfg, s, c);
    assert s.mode != DoneMode;
    assert MayBeIHDR(cfg, cs, c) ==> |c.body| == 13;
    hide *;
    if c.name == IHDR {
      if |c.body| == 13 { NextIHDR(cfg, s, cs, c); }
    } else if c.name == PLTE {
      NextPLTE(cfg, s, cs, c);
    } else if c.name == IEND {
      NextIEND(cfg, s, cs, c);
    } else {
      NextOther(cfg, s, cs, c);
    }
  }

  lemma MayIs(cfg: Config, cs: seq<RawChunk>, c: RawChunk)
    requires Sized(c)
    ensures May(cfg, cs, c) <==>
              && MayBeHeaded(cfg, cs, c)
              && (if c.name == IHDR then MayBeIHDR(cfg, cs, c) else if c.name == IDAT then MayBeIDAT(cfg, cs, c)
                  else if c.name == PLTE then MayBePLTE(cfg, cs, c) else if c.name == IEND then MayBeIEND(cfg, cs, c)
                  else MayBeOther(cfg, cs, c))
  {
    NamesAre();
    hide Name, MayBeHeaded, MayBeIHDR, MayBeIDAT, MayBePLTE, MayBeIEND, MayBeOther;
  }

  // --- Whole streams ----------------------------------------------------------------------------

  /** A chunk is taken exactly when it may follow those before it. */
  lemma NextMatches(cfg: Config, s: State, cs: seq<RawChunk>, c: RawChunk)
    requires Matches(cfg, s, cs) && Between(s) && Sized(c)
    ensures var t := Next(cfg, s, c); if May(cfg, cs, c) then Matches(cfg, t, cs + [c]) else t.Failed?
  {
    assert s.Running?;
    hide *;
    NamesDiffer();
    HeaderMatches(cfg, s, cs, c);
    MayIs(cfg, cs, c);
    if !Headable(cfg, s, c) {
      Unheadable(cfg, s, c);
    } else if c.name == IDAT {
      NextIDAT(cfg, s, cs, c);
    } else {
      NextPlain(cfg, s, cs, c);
    }
  }

  /** Between chunks, the next of them: Matches leaves no other place. */
  lemma MatchesBetween(cfg: Config, s: State, cs: seq<RawChunk>)
    requires Matches(cfg, s, cs)
    ensures if Has(cs, IEND) then Done(s) else Between(s)
  {
    hide Has, Paletted, ImageData, Report, Fed, BehindImage;
  }

  /** All of more may come behind these chunks. */
  ghost predicate MayFollow(cfg: Config, before: seq<RawChunk>, more: seq<RawChunk>)
    requires AllSized(more)
  {
    forall i :: 0 <= i < |more| ==> May(cfg, before + more[..i], more[i])
  }

  /** IEND is the last chunk and no other. */
  predicate EndsOnce(cs: seq<RawChunk>) {
    cs != [] && forall i :: 0 <= i < |cs| ==> (cs[i].name == IEND <==> i == |cs| - 1)
  }

  lemma FollowFirst(cfg: Config, before: seq<RawChunk>, more: seq<RawChunk>)
    requires AllSized(more) && more != []
    ensures MayFollow(cfg, before, more) <==>
              May(cfg, before, more[0]) && MayFollow(cfg, before + [more[0]], more[1..])
  {
    var c, rest := more[0], more[1..];
    assert before + more[..0] == before;
    hide May;
    if May(cfg, before, c) && MayFollow(cfg, before + [c], rest) {
      forall i | 0 <= i < |more| ensures May(cfg, before + more[..i], more[i]) {
        if i > 0 {
          OneOn(before, more, i - 1);
          assert May(cfg, before + [c] + rest[..i - 1], rest[i - 1]);
        }
      }
    }
    if MayFollow(cfg, before, more) {
      forall i | 0 <= i < |rest| ensures May(cfg, before + [c] + rest[..i], rest[i]) {
        OneOn(before, more, i);
        assert May(cfg, before + more[..i + 1], more[i + 1]);
      }
    }
  }

  lemma OneOn(before: seq<RawChunk>, more: seq<RawChunk>, i: nat)
    requires i + 1 < |more|
    ensures before + [more[0]] + more[1..][..i] == before + more[..i + 1] && more[1..][i] == more[i + 1]
  {
  }

  lemma EndsFirst(cs: seq<RawChunk>)
    requires cs != []
    ensures EndsOnce(cs) <==> if cs[0].name == IEND then |cs| == 1 else EndsOnce(cs[1..])
  {
  }

  /** Chunks that take a reader to its end. */
  lemma {:induction false} LeadsIsGrammar(
      cfg: Config, s: State, before: seq<RawChunk>, cs: seq<RawChunk>, t: State)
    requires Matches(cfg, s, before) && !Has(before, IEND) && AllSized(cs) && Leads(cfg, s, cs, t) && Done(t)
    ensures MayFollow(cfg, before, cs) && EndsOnce(cs) && t.trace == Report(before + cs)
    decreases |cs|
  {
    hide *;
    if cs == [] {
      MatchesBetween(cfg, s, before);
      StaysBetween(s);
      LeadsNowhere(cfg, s, t);
    } else {
      var c, more := cs[0], cs[1..];
      var all := before + [c];
      LeadsStep(cfg, s, before, cs, t);
      FollowFirst(cfg, before, cs);
      EndsFirst(cs);
      assert all + more == before + cs;
      if c.name == IEND {
        LeadsOn(cfg, Next(cfg, s, c), all, more, t);
      } else {
        LeadsIsGrammar(cfg, Next(cfg, s, c), all, more, t);
      }
    }
  }

  lemma LeadsStep(cfg: Config, s: State, before: seq<RawChunk>, cs: seq<RawChunk>, t: State)
    requires Matches(cfg, s, before) && !Has(before, IEND) && AllSized(cs) && Leads(cfg, s, cs, t) && Done(t)
    requires cs != []
    ensures Sized(cs[0]) && AllSized(cs[1..]) && Between(s) && May(cfg, before, cs[0])
    ensures Matches(cfg, Next(cfg, s, cs[0]), before + [cs[0]]) && Leads(cfg, Next(cfg, s, cs[0]), cs[1..], t)
    ensures Has(before + [cs[0]], IEND) <==> cs[0].name == IEND
  {
    hide *;
    var c, more := cs[0], cs[1..];
    SizedFirst(cs);
    assert cs == [c] + more;
    MatchesBetween(cfg, s, before);
    LeadsFirst(cfg, s, c, more, t);
    NextMatches(cfg, s, before, c);
    FailedLeads(cfg, Next(cfg, s, c), more, t);
    DoneIs(t);
    HasOneMore(before, c, IEND);
  }

  lemma LeadsNowhere(cfg: Config, s: State, t: State)
    requires AllSized([]) && Leads(cfg, s, [], t)
    ensures s == t
  {
  }

  lemma StaysBetween(s: State)
    ensures Between(s) ==> !Done(s)
  {
  }

  /** From the end on there is nothing. */
  lemma LeadsOn(cfg: Config, s: State, before: seq<RawChunk>, more: seq<RawChunk>, t: State)
    requires Matches(cfg, s, before) && Has(before, IEND) && AllSized(more) && Leads(cfg, s, more, t)
    ensures more == [] && t == s && s.trace == Report(before) && before + more == before
    ensures MayFollow(cfg, before, more)
  {
    hide Has, Report;
  }

  /** And back: chunks that may follow lead to the end. */
  lemma {:induction false} GrammarLeads(
      cfg: Config, s: State, before: seq<RawChunk>, cs: seq<RawChunk>) returns (t: State)
    requires Matches(cfg, s, before) && !Has(before, IEND) && AllSized(cs) && MayFollow(cfg, before, cs) && EndsOnce(cs)
    ensures Leads(cfg, s, cs, t) && Done(t) && t.trace == Report(before + cs)
    decreases |cs|
  {
    hide *;
    EndsOnceIs(cs);
    var c, more := cs[0], cs[1..];
    assert cs == [c] + more && |cs| == 1 + |more|;
    SizedFirst(cs);
    var all := before + [c];
    MatchesBetween(cfg, s, before);
    FollowFirst(cfg, before, cs);
    NextMatches(cfg, s, before, c);
    EndsFirst(cs);
    HasOneMore(before, c, IEND);
    assert all + more == before + cs;
    var u := Next(cfg, s, c);
    if c.name == IEND {
      MatchesBetween(cfg, u, all);
      MatchesReport(cfg, u, all);
      assert all == before + cs;
      t := u;
      LeadsOne(cfg, s, cs, t);
    } else {
      t := GrammarLeads(cfg, u, all, more);
      LeadsFirst(cfg, s, c, more, t);
    }
  }

  lemma EndsOnceIs(cs: seq<RawChunk>)
    requires EndsOnce(cs)
    ensures cs != []
  {
  }

  lemma SizedFirst(cs: seq<RawChunk>)
    requires AllSized(cs) && cs != []
    ensures Sized(cs[0]) && AllSized(cs[1..])
  {
    hide Sized;
  }

  lemma MatchesReport(cfg: Config, s: State, cs: seq<RawChunk>)
    requires Matches(cfg, s, cs)
    ensures s.trace == Report(cs)
  {
    hide Report;
  }

  lemma LeadsOne(cfg: Config, s: State, cs: seq<RawChunk>, t: State)
    requires AllSized(cs) && |cs| == 1 && Between(s) && t == Next(cfg, s, cs[0])
    ensures Leads(cfg, s, cs, t)
  {
    hide Next, Between;
  }

  // --- Streams with their signature -------------------------------------------------------------

  /** What is left of the signature, then chunks in order, then anything. */
  ghost predicate Accepts(cfg: Config, sigBytes: nat, b: seq<byte>, cs: seq<RawChunk>) {
    && sigBytes < 8 && AllSized(cs) && Acceptable(cfg, cs)
    && SIGNATURE[sigBytes..] + WrittenAll(cs) <= b
  }

  lemma SignedMatches(cfg: Config)
    ensures Matches(cfg, Signed(), []) && !Has([], IEND) && Between(Signed())
  {
    assert [] + ImageData([]) == ImageData([]);
  }

  /** Acceptable is MayFollow from the first chunk on. */
  lemma AcceptableIs(cfg: Config, cs: seq<RawChunk>)
    requires AllSized(cs)
    ensures Acceptable(cfg, cs) <==> MayFollow(cfg, [], cs) && EndsOnce(cs)
    ensures [] + cs == cs
  {
    assert forall i :: 0 <= i <= |cs| ==> [] + cs[..i] == cs[..i];
    hide May;
  }

  /** The signature, or not. */
  lemma RunFromStart(cfg: Config, sigBytes: nat, b: seq<byte>)
    requires sigBytes <= 8
    ensures if sigBytes < 8 && SIGNATURE[sigBytes..] <= b then
              Run(cfg, Start(sigBytes), b) == Run(cfg, Signed(), b[8 - sigBytes..])
            else !Done(Run(cfg, Start(sigBytes), b).0)
  {
    var n := Min(8 - sigBytes, |b|);
    if n == 0 {
      NoSignature(cfg, sigBytes, b);
    } else {
      PngPushReader.RunSignature(cfg, Start(sigBytes), b, n);
      SignaturePart(b, sigBytes, n);
      hide Run;
      var s := Start(sigBytes).(sigBytes := sigBytes + n, mode := SigMode);
      if n < 8 - sigBytes { PngPushReader.RunOnNothing(cfg, s); }
    }
  }

  lemma SignaturePart(b: seq<byte>, k: nat, n: nat)
    requires k < 8 && n == Min(8 - k, |b|)
    ensures SIGNATURE[k..] <= b <==> k + n == 8 && b[..n] == SIGNATURE[k..k + n]
    ensures n < 8 - k ==> b[n..] == []
  {
    PngPushReader.SignatureLength();
    SameAsPrefix(SIGNATURE, k, n, b);
  }

  lemma SameAsPrefix(all: seq<byte>, k: nat, n: nat, b: seq<byte>)
    requires k <= |all| && k + n <= |all| && n <= |b|
    ensures k + n == |all| ==> all[k..k + n] == all[k..] && (all[k..] <= b <==> b[..n] == all[k..])
  {
  }

  lemma NoSignature(cfg: Config, sigBytes: nat, b: seq<byte>)
    requires sigBytes <= 8 && (sigBytes == 8 || b == [])
    ensures !Done(Run(cfg, Start(sigBytes), b).0) && (sigBytes < 8 ==> !(SIGNATURE[sigBytes..] <= b))
  {
  }

  /** Which bytes end the reader without failure: those that begin with an acceptable list of chunks behind their
      signature, and no others. It then reports these chunks. */
  lemma AcceptsExactly(cfg: Config, sigBytes: nat, b: seq<byte>)
    requires sigBytes <= 8
    ensures Done(Run(cfg, Start(sigBytes), b).0) <==> exists cs :: Accepts(cfg, sigBytes, b, cs)
  {
    hide Run, Acceptable, WrittenAll, Done;
    if Done(Run(cfg, Start(sigBytes), b).0) {
      var cs := AcceptedChunks(cfg, sigBytes, b);
    }
    forall cs | Accepts(cfg, sigBytes, b, cs) ensures Done(Run(cfg, Start(sigBytes), b).0) {
      AcceptedReport(cfg, sigBytes, b, cs);
    }
  }

  lemma AcceptedChunks(cfg: Config, sigBytes: nat, b: seq<byte>) returns (cs: seq<RawChunk>)
    requires sigBytes <= 8 && Done(Run(cfg, Start(sigBytes), b).0)
    ensures Accepts(cfg, sigBytes, b, cs) && Run(cfg, Start(sigBytes), b).0.trace == Report(cs)
  {
    hide Run, Acceptable, WrittenAll, Matches, Leads, Report, Done, MayFollow, EndsOnce, Between;
    RunFromStart(cfg, sigBytes, b);
    SignedMatches(cfg);
    var t := Run(cfg, Start(sigBytes), b).0;
    var rest;
    cs, rest := ChunksOf(cfg, Signed(), b[8 - sigBytes..]);
    LeadsIsGrammar(cfg, Signed(), [], cs, t);
    AcceptableIs(cfg, cs);
    assert b == SIGNATURE[sigBytes..] + WrittenAll(cs) + rest;
  }

  lemma AcceptedReport(cfg: Config, sigBytes: nat, b: seq<byte>, cs: seq<RawChunk>)
    requires sigBytes <= 8 && Accepts(cfg, sigBytes, b, cs)
    ensures var (t, pending) := Run(cfg, Start(sigBytes), b); Done(t) && t.trace == Report(cs) && pending == []
  {
    hide Run, Acceptable, WrittenAll, Matches, Leads, Report, Done, MayFollow, EndsOnce, Between;
    var sig, body := SIGNATURE[sigBytes..], WrittenAll(cs);
    var rest := b[|sig + body|..];
    assert b == sig + body + rest && b[8 - sigBytes..] == body + rest;
    RunFromStart(cfg, sigBytes, b);
    SignedMatches(cfg);
    AcceptableIs(cfg, cs);
    var t := GrammarLeads(cfg, Signed(), [], cs);
    LeadsRuns(cfg, Signed(), cs, rest, t);
  }

  /** So it is with the reader, in whatever pieces the bytes have come. */
  lemma ReaderAccepts(r: PngPushReader.PngStruct)
    requires r.Valid()
    ensures !r.failed && r.processMode == DoneMode <==> exists cs :: Accepts(r.cfg, r.skipped, r.received, cs)
  {
    AcceptsExactly(r.cfg, r.skipped, r.received);
    hide Run, Accepts;
  }

  /** The CRC of an ancillary chunk may be anything. */
  lemma CrcOfOptional(cfg: Config, before: seq<RawChunk>, c: RawChunk, crc: seq<byte>)
    requires Sized(c) && Optional(c.name) && |crc| == 4
    ensures May(cfg, before, c) <==> May(cfg, before, c.(crc := crc))
  {
    NamesDiffer();
    OptionalIs(c.name);
    MayIs(cfg, before, c);
    MayIs(cfg, before, c.(crc := crc));
    hide May, Optional, Critical, Lettered, HANDLED;
  }

  /** Where benign errors are fatal, that of IHDR, PLTE, IDAT and IEND has to be right. */
  lemma CrcOfCritical(cfg: Config, before: seq<RawChunk>, c: RawChunk)
    requires Sized(c) && May(cfg, before, c) && !Optional(c.name) && cfg.benignFatal
    ensures cfg.crcOk(Bytes32(c.name) + c.body, c.crc)
  {
    MayIs(cfg, before, c);
    NamesDiffer();
    OptionalIs(c.name);
    if c.name in HANDLED { HandledAreOptional(c.name); }
    hide May, Optional, Critical, Lettered, HANDLED, Bytes32;
  }

  lemma HandledAreOptional(name: nat)
    requires name in HANDLED
    ensures !Critical(name)
  {
    HandledTags();
    assert 0x6000_0000 <= name < 0x8000_0000;
    hide HANDLED;
  }

  lemma TagLetters(b1: byte, b2: byte, b3: byte, b4: byte)
    ensures Tag(b1, b2, b3, b4) < 0x1_0000_0000 && Bytes32(Tag(b1, b2, b3, b4)) == [b1, b2, b3, b4]
  {
    var b := [b1, b2, b3, b4];
    PngBytes.WordOfBytes(b);
    PngBytes.WordIs(Tag(b1, b2, b3, b4));
    hide Bytes32, PngBytes.Word;
  }

  lemma TagLettered(b1: byte, b2: byte, b3: byte, b4: byte)
    requires Letter(b1) && Letter(b2) && Letter(b3) && Letter(b4)
    ensures Tag(b1, b2, b3, b4) < 0x1_0000_0000 && Lettered(Tag(b1, b2, b3, b4))
  {
    TagLetters(b1, b2, b3, b4);
    hide Tag, Bytes32;
  }

  /** Chunks that the reader knows have names of letters. */
  lemma KnownAreLettered(name: nat)
    requires name in {IHDR, PLTE, IDAT, IEND} || Ancillary(name)
    ensures name < 0x1_0000_0000 && Lettered(name)
  {
    hide Tag, Lettered;
    TagLettered(73, 72, 68, 82);
    TagLettered(80, 76, 84, 69);
    TagLettered(73, 68, 65, 84);
    TagLettered(73, 69, 78, 68);
    TagLettered(103, 65, 77, 65);
    TagLettered(115, 66, 73, 84);
    TagLettered(99, 72, 82, 77);
    TagLettered(115, 82, 71, 66);
    TagLettered(105, 67, 67, 80);
    TagLettered(115, 80, 76, 84);
    TagLettered(116, 82, 78, 83);
    TagLettered(98, 75, 71, 68);
    TagLettered(104, 73, 83, 84);
    TagLettered(112, 72, 89, 115);
    TagLettered(111, 70, 70, 115);
    TagLettered(112, 67, 65, 76);
    TagLettered(115, 67, 65, 76);
    TagLettered(116, 73, 77, 69);
    TagLettered(116, 69, 88, 116);
    TagLettered(122, 84, 88, 116);
    TagLettered(105, 84, 88, 116);
  }

  /** Where a chunk is taken whose name is not four letters: directly behind a complete image, if bit 5 is set. */
  lemma NotOfLetters(cfg: Config, before: seq<RawChunk>, c: RawChunk)
    requires Sized(c) && !Lettered(c.name)
    ensures May(cfg, before, c) <==>
              BehindImage(before) && Completes(cfg, ImageData(before)) && Optional(c.name)
  {
    HandledIs(c.name);
    MayIs(cfg, before, c);
    hide May, Lettered, Ancillary, HANDLED, Optional, Completes, BehindImage, ImageData;
    if c.name in {IHDR, PLTE, IDAT, IEND} || Ancillary(c.name) { KnownAreLettered(c.name); }
  }
}
