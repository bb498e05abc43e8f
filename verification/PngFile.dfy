/** PNG files as lists of chunks (section 3.2 of RFC 2083), written out as bytes and read back.

    The reader of PngStream is the inverse of this writer: on a well-formed file it reports the chunks the
    file was made of, in order, and nothing else. */
module PngFile {
  import opened Common
  import opened PngStream
  import PngPushReader

  datatype RawChunk = RawChunk(name: nat, body: seq<byte>, crc: seq<byte>)

  function Bytes32(n: nat): (b: seq<byte>)
    requires n < 0x1_0000_0000
    ensures |b| == 4 && Be32(b) == n
  {
    var (n1, n2, n3) := (n / 256, n / 256 / 256, n / 256 / 256 / 256);
    [n3, n2 % 256, n1 % 256, n % 256]
  }

  predicate Framed(c: RawChunk) {
    c.name < 0x1_0000_0000 && NameOk(c.name) && |c.body| <= UINT_31_MAX && |c.crc| == 4
  }

  /** Length, name, data, CRC. */
  function Serialize(c: RawChunk): seq<byte>
    requires Framed(c)
  {
    Bytes32(|c.body|) + Bytes32(c.name) + c.body + c.crc
  }

  function SerializeAll(cs: seq<RawChunk>): seq<byte>
    requires AllFramed(cs)
  {
    if cs == [] then [] else Serialize(cs[0]) + SerializeAll(cs[1..])
  }

  function IdatBytes(data: seq<byte>): seq<Event> {
    seq(|data|, i requires 0 <= i < |data| => IdatByte(data[i]))
  }

  /** What the application is told of one chunk, and of a whole file. */
  function EventsOf(c: RawChunk): seq<Event> {
    if c.name == IDAT then [IdatBegin(|c.body|)] + IdatBytes(c.body) + [IdatEnd(c.crc)]
    else [Chunk(c.name, c.body, c.crc)]
  }

  function AllEvents(cs: seq<RawChunk>, started: bool): seq<Event> {
    if cs == [] then []
    else
      (if cs[0].name == IDAT && !started then [Info] else [])
      + EventsOf(cs[0]) + AllEvents(cs[1..], started || cs[0].name == IDAT)
  }

  predicate AllFramed(cs: seq<RawChunk>) { forall i :: 0 <= i < |cs| ==> Framed(cs[i]) }

  /** Each chunk is taken in its place: trace is what has been reported before the first. */
  predicate AllHarmless(cfg: Config, trace: seq<Event>, cs: seq<RawChunk>)
    decreases |cs|
  {
    cs == [] || (Harmless(cfg, trace, cs[0]) && AllHarmless(cfg, trace + EventsOf(cs[0]), cs[1..]))
  }

  predicate AllIdat(cfg: Config, cs: seq<RawChunk>) {
    forall i :: 0 <= i < |cs| ==> CrcGood(cfg, cs[i]) && cs[i].name == IDAT
  }

  /** A chunk the reader takes behind what has been reported so far, between IHDR and IEND. */
  predicate Harmless(cfg: Config, trace: seq<Event>, c: RawChunk) {
    && Framed(c) && c.name !in {IHDR, IEND, IDAT, PLTE}
    && (if Ancillary(c.name) then cfg.ancillaryOk(trace, c.name, c.body) else !Critical(c.name))
  }

  predicate CrcGood(cfg: Config, c: RawChunk) {
    Framed(c) && cfg.crcOk(Bytes32(c.name) + c.body, c.crc)
  }

  predicate PaletteOk(cfg: Config, c: RawChunk, colorType: byte) {
    CrcGood(cfg, c) && c.name == PLTE &&
    (colorType == COLOR_TYPE_PALETTE ==> |c.body| <= 768 && |c.body| % 3 == 0)
  }

  function IdatData(cs: seq<RawChunk>): seq<byte> {
    if cs == [] then [] else cs[0].body + IdatData(cs[1..])
  }

  /** The decompressor wants more until it has been given exactly data. */
  ghost predicate InflatesExactly(cfg: Config, data: seq<byte>) {
    cfg.inflate(data) == Finished && forall k :: 0 <= k < |data| ==> cfg.inflate(data[..k]) == More
  }

  datatype File = File(ihdr: RawChunk, before: seq<RawChunk>, plte: seq<RawChunk>, between: seq<RawChunk>,
                       idats: seq<RawChunk>, after: seq<RawChunk>, iend: RawChunk)

  function Chunks(f: File): seq<RawChunk> {
    [f.ihdr] + f.before + f.plte + f.between + f.idats + (f.after + [f.iend])
  }

  ghost predicate WellFormed(cfg: Config, f: File) {
    && CrcGood(cfg, f.ihdr) && f.ihdr.name == IHDR && |f.ihdr.body| == 13 && cfg.ihdrOk(f.ihdr.body)
    && AllHarmless(cfg, AllEvents([f.ihdr], false), f.before)
    && AllHarmless(cfg, AllEvents([f.ihdr] + f.before + f.plte, false), f.between)
    && AllHarmless(cfg, AllEvents([f.ihdr] + f.before + f.plte + f.between + f.idats, false), f.after)
    && |f.plte| <= 1 && (f.plte != [] ==> PaletteOk(cfg, f.plte[0], f.ihdr.body[9]))
    && (f.ihdr.body[9] == COLOR_TYPE_PALETTE ==> f.plte != [])
    && f.idats != [] && AllIdat(cfg, f.idats)
    && InflatesExactly(cfg, IdatData(f.idats))
    && CrcGood(cfg, f.iend) && f.iend.name == IEND
  }

  /** There are such files, the least with an IHDR, one IDAT and an IEND. */
  lemma LeastFile() returns (cfg: Config, f: File)
    ensures WellFormed(cfg, f) && f.before == f.plte == f.between == f.after == []
    ensures AllFramed(Chunks(f)) && |SerializeAll(Chunks(f))| == 50
  {
    var crc: seq<byte> := [0, 0, 0, 0];
    cfg := Config((fed, stored) => true, body => true, (t, name, body) => true,
                  z => if z == [1] then Finished else More, true);
    var header := [0, 0, 0, 1, 0, 0, 0, 1, 8, 0, 0, 0, 0];
    f := File(RawChunk(IHDR, header, crc), [], [], [], [RawChunk(IDAT, [1], crc)], [], RawChunk(IEND, [], crc));
    CriticalNames();
    assert IdatData(f.idats) == [1] by { assert f.idats[1..] == []; }
    hide NameOk, IdatData, Bytes32;
    assert Chunks(f) == [f.ihdr, f.idats[0], f.iend];
    ThreeChunks(f.ihdr, f.idats[0], f.iend);
  }

  lemma ThreeChunks(a: RawChunk, b: RawChunk, c: RawChunk)
    requires Framed(a) && Framed(b) && Framed(c)
    ensures AllFramed([a, b, c]) && |SerializeAll([a, b, c])| == 36 + |a.body| + |b.body| + |c.body|
  {
    var abc, bc, one := [a, b, c], [b, c], [c];
    assert abc[1..] == bc && bc[1..] == one && one[1..] == [];
    hide Framed;
    assert AllFramed(one) && AllFramed(bc);
    assert |SerializeAll(one)| == |Serialize(c)| && |SerializeAll(bc)| == |Serialize(b)| + |Serialize(c)|;
  }

  lemma CriticalNames()
    ensures NameOk(IHDR) && NameOk(IDAT) && NameOk(IEND)
    ensures IHDR < 0x1_0000_0000 && IDAT < 0x1_0000_0000 && IEND < 0x1_0000_0000
  {
  }

  // --- Reading one chunk back -------------------------------------------------------------------

  /** Between chunks, outside the image data. */
  predicate Idle(s: State) { s.Running? && s.mode == ChunkMode && !s.flags.header }

  /** The state in which the body of chunk c is awaited. */
  function Awaiting(s: State, c: RawChunk): State
    requires s.Running? && Framed(c)
  {
    s.(pushLength := |c.body|, name := c.name, crc := Bytes32(c.name), flags := s.flags.(header := true))
  }

  lemma SerializedParts(c: RawChunk, rest: seq<byte>)
    requires Framed(c)
    ensures var q, n := Serialize(c) + rest, |c.body|;
            && |q| >= n + 12
            && q[..4] == Bytes32(n) && q[4..8] == Bytes32(c.name) && q[8..] == c.body + c.crc + rest
            && q[8..][..n] == c.body && q[8..][n..n + 4] == c.crc && q[8..][n + 4..] == rest
  {
    hide Bytes32, NameOk;
    var q, n := Serialize(c) + rest, |c.body|;
    assert q == Bytes32(n) + (Bytes32(c.name) + (c.body + c.crc + rest));
    assert q[8..] == c.body + c.crc + rest;
  }

  lemma ReadPlain(cfg: Config, s: State, c: RawChunk, rest: seq<byte>)
    requires Idle(s) && Framed(c) && c.name != IDAT && (c.name == IHDR ==> |c.body| == 13)
    ensures Run(cfg, s, Serialize(c) + rest) == Run(cfg, ChunkDone(cfg, Awaiting(s, c), c.body, c.crc), rest)
  {
    var q, t := Serialize(c) + rest, Awaiting(s, c);
    SerializedParts(c, rest);
    assert Step(cfg, s, q) == Go(8, t);
    assert Step(cfg, t, q[8..]) == Go(|c.body| + 4, ChunkDone(cfg, t, c.body, c.crc)) by { hide ChunkDone; }
  }

  /** IDAT data that the decompressor accepts byte by byte. */
  lemma {:induction false} ReadIdatBody(cfg: Config, s: State, data: seq<byte>, rest: seq<byte>)
    requires s.Running? && s.mode == IdatMode && s.flags.header && s.idatSize >= |data|
    requires forall k :: 0 <= k < |data| ==> cfg.inflate(s.zin + data[..k]) == More
    requires cfg.inflate(s.zin + data) != Broken
    ensures Run(cfg, s, data + rest) ==
            Run(cfg, s.(idatSize := s.idatSize - |data|, crc := s.crc + data, zin := s.zin + data,
                        trace := s.trace + IdatBytes(data)), rest)
    decreases |data|
  {
    hide *;
    if data == [] {
      assert data + rest == rest && s.crc + data == s.crc && s.zin + data == s.zin;
      NoBytesYet(s.trace, data);
    } else {
      SinkOne(cfg, s, data, rest);
      StillMore(cfg, s.zin, data);
      FirstAndRest(s.zin, data);
      FirstAndRest(s.crc, data);
      FirstEvent(s.trace, data);
      ReadIdatBody(cfg, Sink(cfg, s, data[0]), data[1..], rest);
    }
  }

  lemma NoBytesYet(trace: seq<Event>, data: seq<byte>)
    requires data == []
    ensures trace + IdatBytes(data) == trace
  {
  }

  lemma StillMore(cfg: Config, zin: seq<byte>, data: seq<byte>)
    requires data != [] && forall k :: 0 <= k < |data| ==> cfg.inflate(zin + data[..k]) == More
    ensures forall k :: 0 <= k < |data| - 1 ==> cfg.inflate(zin + [data[0]] + data[1..][..k]) == More
  {
    forall k | 0 <= k < |data| - 1 ensures cfg.inflate(zin + [data[0]] + data[1..][..k]) == More {
      assert zin + [data[0]] + data[1..][..k] == zin + data[..k + 1];
    }
  }

  lemma FirstAndRest(before: seq<byte>, data: seq<byte>)
    requires data != []
    ensures before + [data[0]] + data[1..] == before + data
  {
  }

  lemma FirstEvent(trace: seq<Event>, data: seq<byte>)
    requires data != []
    ensures trace + [IdatByte(data[0])] + IdatBytes(data[1..]) == trace + IdatBytes(data)
  {
  }

  lemma SinkOne(cfg: Config, s: State, data: seq<byte>, rest: seq<byte>)
    requires s.Running? && s.mode == IdatMode && s.flags.header && s.idatSize >= |data| > 0
    requires forall k :: 0 <= k < |data| ==> cfg.inflate(s.zin + data[..k]) == More
    requires cfg.inflate(s.zin + data) != Broken
    ensures var t := Sink(cfg, s, data[0]);
            && t == s.(idatSize := s.idatSize - 1, crc := s.crc + [data[0]], zin := s.zin + [data[0]],
                       trace := s.trace + [IdatByte(data[0])])
            && Run(cfg, s, data + rest) == Run(cfg, t, data[1..] + rest)
  {
    assert s.zin + data[..0] == s.zin && s.zin + [data[0]] == s.zin + data[..1];
    if |data| == 1 { assert data[..1] == data; }
    assert (data + rest)[1..] == data[1..] + rest;
  }

  /** In the middle of the image: the next IDAT chunk begins, or its header has just been taken. */
  function IdatTaken(s: State, c: RawChunk): State
    requires s.Running? && Framed(c)
  {
    s.(mode := IdatMode, pushLength := |c.body|, name := IDAT, idatSize := 0, crc := Bytes32(IDAT) + c.body,
       zin := s.zin + c.body,
       flags := s.flags.(idat := true, afterIdat := true, header := false),
       trace := s.trace + (if s.flags.idat then [] else [Info]) + EventsOf(c))
  }

  predicate ReadyForIdat(s: State) {
    s.Running? && !s.flags.header && s.flags.ihdr && (s.colorType == COLOR_TYPE_PALETTE ==> s.flags.plte) &&
    (if s.flags.idat then s.mode == IdatMode else s.mode == ChunkMode && !s.flags.afterIdat)
  }

  /** An IDAT header has been taken, its data is still to come. */
  function IdatBegun(s: State, c: RawChunk): State
    requires s.Running? && Framed(c)
  {
    s.(mode := IdatMode, pushLength := |c.body|, name := IDAT, idatSize := |c.body|, crc := Bytes32(IDAT),
       flags := s.flags.(idat := true, header := true),
       trace := s.trace + (if s.flags.idat then [] else [Info]) + [IdatBegin(|c.body|)])
  }

  lemma BeginIdat(cfg: Config, s: State, c: RawChunk, rest: seq<byte>)
    requires ReadyForIdat(s) && Framed(c) && c.name == IDAT
    ensures Run(cfg, s, Serialize(c) + rest) == Run(cfg, IdatBegun(s, c), c.body + (c.crc + rest))
  {
    var q := Serialize(c) + rest;
    SerializedParts(c, rest);
    assert s.trace + [Info] + [IdatBegin(|c.body|)] == s.trace + [Info, IdatBegin(|c.body|)];
    assert s.trace + [] + [IdatBegin(|c.body|)] == s.trace + [IdatBegin(|c.body|)];
    assert Step(cfg, s, q) == Go(8, IdatBegun(s, c));
    assert c.body + c.crc + rest == c.body + (c.crc + rest);
  }

  lemma ReadIdat(cfg: Config, s: State, c: RawChunk, rest: seq<byte>)
    requires ReadyForIdat(s) && CrcGood(cfg, c) && c.name == IDAT
    requires forall k :: 0 <= k < |c.body| ==> cfg.inflate(s.zin + c.body[..k]) == More
    requires cfg.inflate(s.zin + c.body) != Broken
    ensures Run(cfg, s, Serialize(c) + rest) == Run(cfg, IdatTaken(s, c), rest)
  {
    hide Run, Serialize, IdatBytes;
    var t := IdatBegun(s, c);
    BeginIdat(cfg, s, c, rest);
    ReadIdatBody(cfg, t, c.body, c.crc + rest);
    var u := t.(idatSize := 0, crc := t.crc + c.body, zin := t.zin + c.body, trace := t.trace + IdatBytes(c.body));
    FinishIdat(cfg, u, c, rest);
    assert s.trace + (if s.flags.idat then [] else [Info]) + EventsOf(c) ==
           t.trace + IdatBytes(c.body) + [IdatEnd(c.crc)];
  }

  lemma FinishIdat(cfg: Config, u: State, c: RawChunk, rest: seq<byte>)
    requires u.Running? && u.mode == IdatMode && u.flags.header && u.idatSize == 0 && u.name == IDAT
    requires CrcGood(cfg, c) && c.name == IDAT && u.crc == Bytes32(IDAT) + c.body
    ensures Run(cfg, u, c.crc + rest) ==
            Run(cfg, u.(flags := u.flags.(header := false, afterIdat := true),
                        trace := u.trace + [IdatEnd(c.crc)]), rest)
  {
    var q := c.crc + rest;
    assert q[..4] == c.crc && q[4..] == rest;
  }

  // --- Reading a whole file back ----------------------------------------------------------------

  predicate HasIdat(cs: seq<RawChunk>) { exists i :: 0 <= i < |cs| && cs[i].name == IDAT }

  /** Whatever follows, reading the bytes of cs takes s to t, and reports cs. */
  ghost predicate Reads(cfg: Config, s: State, cs: seq<RawChunk>, t: State) {
    && AllFramed(cs) && s.Running? && t.Running?
    && (forall rest :: Run(cfg, s, SerializeAll(cs) + rest) == Run(cfg, t, rest))
    && t.trace == s.trace + AllEvents(cs, s.flags.idat)
    && t.flags.idat == (s.flags.idat || HasIdat(cs))
  }

  lemma {:induction false} SerializeConcat(xs: seq<RawChunk>, ys: seq<RawChunk>)
    requires AllFramed(xs) && AllFramed(ys)
    ensures SerializeAll(xs + ys) == SerializeAll(xs) + SerializeAll(ys)
    decreases |xs|
  {
    hide Serialize, Framed;
    if xs == [] {
      assert xs + ys == ys && SerializeAll(xs) == [];
    } else {
      SerializeConcat(xs[1..], ys);
      assert (xs + ys)[1..] == xs[1..] + ys && (xs + ys)[0] == xs[0];
    }
  }

  lemma HasIdatFirst(cs: seq<RawChunk>)
    requires cs != []
    ensures HasIdat(cs) == (cs[0].name == IDAT || HasIdat(cs[1..]))
  {
    HasIdatConcat([cs[0]], cs[1..]);
    assert [cs[0]] + cs[1..] == cs;
    assert HasIdat([cs[0]]) == (cs[0].name == IDAT) by { assert [cs[0]][0] == cs[0]; }
  }

  /** What the application is told of the first chunk. */
  function FirstEvents(c: RawChunk, started: bool): seq<Event> {
    (if c.name == IDAT && !started then [Info] else []) + EventsOf(c)
  }

  lemma EventsFirst(c: RawChunk, cs: seq<RawChunk>, started: bool)
    ensures AllEvents([c] + cs, started) == FirstEvents(c, started) + AllEvents(cs, started || c.name == IDAT)
  {
    assert ([c] + cs)[1..] == cs;
    hide EventsOf;
  }

  lemma JoinEvents(a: seq<Event>, b: seq<Event>, c: seq<Event>)
    ensures a + (b + c) == a + b + c
  {
  }

  lemma {:induction false} EventsConcat(xs: seq<RawChunk>, ys: seq<RawChunk>, started: bool)
    ensures AllEvents(xs + ys, started) == AllEvents(xs, started) + AllEvents(ys, started || HasIdat(xs))
    decreases |xs|
  {
    hide *;
    if xs == [] {
      NoEvents(started);
      assert xs + ys == ys && [] + AllEvents(ys, started) == AllEvents(ys, started);
    } else {
      var c, rest := xs[0], xs[1..];
      var st := started || c.name == IDAT;
      HasIdatFirst(xs);
      EventsConcat(rest, ys, st);
      EventsFirst(c, rest, started);
      EventsFirst(c, rest + ys, started);
      assert [c] + rest == xs && [c] + (rest + ys) == xs + ys;
      JoinEvents(FirstEvents(c, started), AllEvents(rest, st), AllEvents(ys, st || HasIdat(rest)));
    }
  }

  lemma NoEvents(started: bool)
    ensures AllEvents([], started) == [] && !HasIdat([])
  {
  }

  lemma HasIdatConcat(xs: seq<RawChunk>, ys: seq<RawChunk>)
    ensures HasIdat(xs + ys) == (HasIdat(xs) || HasIdat(ys))
  {
    if HasIdat(xs) {
      var i :| 0 <= i < |xs| && xs[i].name == IDAT;
      assert (xs + ys)[i].name == IDAT;
    } else if HasIdat(ys) {
      var i :| 0 <= i < |ys| && ys[i].name == IDAT;
      assert (xs + ys)[|xs| + i].name == IDAT;
    }
  }

  lemma ReadsThen(cfg: Config, s: State, xs: seq<RawChunk>, t: State, ys: seq<RawChunk>, u: State)
    requires Reads(cfg, s, xs, t) && Reads(cfg, t, ys, u)
    ensures Reads(cfg, s, xs + ys, u)
  {
    hide Run, SerializeAll, AllEvents, HasIdat;
    SerializeConcat(xs, ys);
    EventsConcat(xs, ys, s.flags.idat);
    HasIdatConcat(xs, ys);
    forall rest ensures Run(cfg, s, SerializeAll(xs + ys) + rest) == Run(cfg, u, rest) {
      assert SerializeAll(xs + ys) + rest == SerializeAll(xs) + (SerializeAll(ys) + rest);
    }
    assert u.trace == s.trace + AllEvents(xs, s.flags.idat) + AllEvents(ys, t.flags.idat);
  }

  lemma ReadsNothing(cfg: Config, s: State)
    requires s.Running?
    ensures Reads(cfg, s, [], s)
  {
    assert forall rest: seq<byte> :: SerializeAll([]) + rest == rest;
  }

  /** One chunk, once its effect is known whatever follows it. */
  lemma ReadsOne(cfg: Config, s: State, c: RawChunk, t: State)
    requires Framed(c) && s.Running? && t.Running?
    requires forall rest :: Run(cfg, s, Serialize(c) + rest) == Run(cfg, t, rest)
    requires t.trace == s.trace + (if c.name == IDAT && !s.flags.idat then [Info] else []) + EventsOf(c)
    requires t.flags.idat == (s.flags.idat || c.name == IDAT)
    ensures Reads(cfg, s, [c], t)
  {
    hide Run, Serialize, EventsOf, Framed;
    assert SerializeAll([c]) == Serialize(c) + SerializeAll([]);
    assert SerializeAll([c]) == Serialize(c);
    var first := if c.name == IDAT && !s.flags.idat then [Info] else [];
    assert AllEvents([c], s.flags.idat) == first + EventsOf(c) + AllEvents([], s.flags.idat || c.name == IDAT);
    assert AllEvents([c], s.flags.idat) == first + EventsOf(c);
    assert s.trace + (first + EventsOf(c)) == s.trace + first + EventsOf(c);
    assert HasIdat([c]) == (c.name == IDAT) by { assert [c][0] == c; }
  }

  /** Only the trace has moved; the chunk last read may be left in name and crc. */
  predicate SameButTrace(s: State, t: State)
  {
    s.Running? && t.Running? && t.mode == s.mode && t.flags == s.flags && t.colorType == s.colorType && t.zin == s.zin
  }

  lemma ReadsHarmlessOne(cfg: Config, s: State, c: RawChunk)
    requires Idle(s) && s.flags.ihdr && (s.flags.idat ==> s.flags.afterIdat) && Harmless(cfg, s.trace, c)
    ensures var t := ChunkDone(cfg, Awaiting(s, c), c.body, c.crc);
            SameButTrace(s, t) && Reads(cfg, s, [c], t) && t.trace == s.trace + EventsOf(c)
  {
    hide DoneIHDR, DonePLTE, DoneIEND, Textual, Run, Bytes32, Serialize;
    var t := ChunkDone(cfg, Awaiting(s, c), c.body, c.crc);
    assert SameButTrace(s, t) && t.trace == s.trace + [] + EventsOf(c);
    hide *;
    forall rest ensures Run(cfg, s, Serialize(c) + rest) == Run(cfg, t, rest) {
      ReadPlain(cfg, s, c, rest);
    }
    ReadsOne(cfg, s, c, t);
  }

  lemma {:induction false} ReadHarmless(cfg: Config, s: State, cs: seq<RawChunk>) returns (t: State)
    requires Idle(s) && s.flags.ihdr && (s.flags.idat ==> s.flags.afterIdat)
    requires AllHarmless(cfg, s.trace, cs)
    ensures SameButTrace(s, t) && Reads(cfg, s, cs, t)
    decreases |cs|
  {
    hide Reads, ChunkDone;
    if cs == [] {
      ReadsNothing(cfg, s);
      t := s;
    } else {
      ReadsHarmlessOne(cfg, s, cs[0]);
      var u := ChunkDone(cfg, Awaiting(s, cs[0]), cs[0].body, cs[0].crc);
      t := ReadHarmless(cfg, u, cs[1..]);
      ReadsThen(cfg, s, [cs[0]], u, cs[1..], t);
      assert [cs[0]] + cs[1..] == cs;
    }
  }

  lemma ReadsOneIdat(cfg: Config, s: State, c: RawChunk)
    requires ReadyForIdat(s) && CrcGood(cfg, c) && c.name == IDAT
    requires forall k :: 0 <= k < |c.body| ==> cfg.inflate(s.zin + c.body[..k]) == More
    requires cfg.inflate(s.zin + c.body) != Broken
    ensures Reads(cfg, s, [c], IdatTaken(s, c))
  {
    hide Run, Serialize, EventsOf;
    forall rest ensures Run(cfg, s, Serialize(c) + rest) == Run(cfg, IdatTaken(s, c), rest) {
      ReadIdat(cfg, s, c, rest);
    }
    ReadsOne(cfg, s, c, IdatTaken(s, c));
  }

  /** A run of IDAT chunks that brings the decompressor exactly to its end. */
  lemma {:induction false} ReadIdats(cfg: Config, s: State, cs: seq<RawChunk>, data: seq<byte>) returns (t: State)
    requires ReadyForIdat(s) && (cs == [] ==> s.flags.idat) && (s.flags.idat ==> s.flags.afterIdat)
    requires AllIdat(cfg, cs) && InflatesExactly(cfg, data) && data == s.zin + IdatData(cs)
    ensures Reads(cfg, s, cs, t) && t.Running? && t.zin == data
    ensures t.mode == IdatMode && t.flags.ihdr && t.flags.idat && t.flags.afterIdat && !t.flags.header
    decreases |cs|
  {
    hide Reads, InflatesExactly, EventsOf;
    if cs == [] {
      ReadsNothing(cfg, s);
      assert data == s.zin;
      t := s;
    } else {
      InflatesFirst(cfg, s.zin, cs, data);
      ReadsOneIdat(cfg, s, cs[0]);
      var u := IdatTaken(s, cs[0]);
      t := ReadIdats(cfg, u, cs[1..], data);
      ReadsThen(cfg, s, [cs[0]], u, cs[1..], t);
      assert [cs[0]] + cs[1..] == cs;
    }
  }

  lemma InflatesFirst(cfg: Config, zin: seq<byte>, cs: seq<RawChunk>, data: seq<byte>)
    requires cs != [] && InflatesExactly(cfg, data) && data == zin + IdatData(cs)
    ensures forall k :: 0 <= k < |cs[0].body| ==> cfg.inflate(zin + cs[0].body[..k]) == More
    ensures cfg.inflate(zin + cs[0].body) != Broken
    ensures data == zin + cs[0].body + IdatData(cs[1..])
  {
    var body := cs[0].body;
    assert data == zin + body + IdatData(cs[1..]);
    forall k | 0 <= k < |body| ensures cfg.inflate(zin + body[..k]) == More {
      assert data[..|zin| + k] == zin + body[..k];
    }
    var z := zin + body;
    assert data[..|z|] == z;
    if |z| == |data| { assert z == data; }
  }

  /** The header after the last IDAT is read in IDAT mode, once the image data is complete. */
  lemma LeaveImage(cfg: Config, s: State, c: RawChunk, rest: seq<byte>)
    requires s.Running? && s.mode == IdatMode && !s.flags.header && cfg.inflate(s.zin) == Finished
    requires Framed(c) && c.name !in {IDAT, IHDR}
    ensures Run(cfg, s, Serialize(c) + rest) == Run(cfg, s.(mode := ChunkMode), Serialize(c) + rest)
  {
    var q, t := Serialize(c) + rest, Awaiting(s.(mode := ChunkMode), c);
    SerializedParts(c, rest);
    assert Step(cfg, s, q) == Go(8, t);
    assert Step(cfg, s.(mode := ChunkMode), q) == Go(8, t);
  }

  /** After the signature. */
  function Signed(): (s: State)
    ensures Idle(s)
  {
    Running(ChunkMode, 8, Flags(false, false, false, false, false, false, false), 0, 0, 0, 0, 0, [], [], [])
  }

  lemma ReadIhdr(cfg: Config, c: RawChunk) returns (t: State)
    requires CrcGood(cfg, c) && c.name == IHDR && |c.body| == 13 && cfg.ihdrOk(c.body)
    ensures Reads(cfg, Signed(), [c], t)
    ensures Idle(t) && t.flags == Signed().flags.(ihdr := true) && t.colorType == c.body[9] && t.zin == []
  {
    t := DoneIHDR(cfg, Awaiting(Signed(), c), c.body, c.crc);
    hide Run, Serialize, DoneAncillary, DonePLTE, DoneUnknown, DoneIEND;
    forall rest ensures Run(cfg, Signed(), Serialize(c) + rest) == Run(cfg, t, rest) {
      ReadPlain(cfg, Signed(), c, rest);
    }
    ReadsOne(cfg, Signed(), c, t);
  }

  lemma ReadPlte(cfg: Config, s: State, cs: seq<RawChunk>) returns (t: State)
    requires Idle(s) && s.flags.ihdr && !s.flags.idat && !s.flags.plte && |cs| <= 1
    requires cs != [] ==> PaletteOk(cfg, cs[0], s.colorType)
    ensures Reads(cfg, s, cs, t)
    ensures Idle(t) && t.flags == s.flags.(plte := cs != []) && t.colorType == s.colorType && t.zin == s.zin
  {
    if cs == [] {
      ReadsNothing(cfg, s);
      t := s;
    } else {
      var c := cs[0];
      t := DonePLTE(cfg, Awaiting(s, c), c.body, c.crc);
      hide Run, Serialize, DoneAncillary, DoneIHDR, DoneUnknown, DoneIEND;
      forall rest ensures Run(cfg, s, Serialize(c) + rest) == Run(cfg, t, rest) {
        ReadPlain(cfg, s, c, rest);
      }
      ReadsOne(cfg, s, c, t);
      assert cs == [c];
    }
  }

  lemma ReadsTrace(cfg: Config, cs: seq<RawChunk>, t: State)
    requires Reads(cfg, Signed(), cs, t)
    ensures t.Running? && t.trace == AllEvents(cs, false)
  {
    assert Signed().trace == [] && [] + AllEvents(cs, false) == AllEvents(cs, false);
    hide Run, AllEvents;
  }

  lemma ReadUpToImage(cfg: Config, f: File) returns (t: State)
    requires WellFormed(cfg, f)
    ensures Reads(cfg, Signed(), [f.ihdr] + f.before + f.plte + f.between, t)
    ensures ReadyForIdat(t) && !t.flags.idat && t.zin == []
  {
    hide Reads, Harmless, CrcGood, InflatesExactly;
    var s := Signed();
    var t1 := ReadIhdr(cfg, f.ihdr);
    ReadsTrace(cfg, [f.ihdr], t1);
    var t2 := ReadHarmless(cfg, t1, f.before);
    ReadsThen(cfg, s, [f.ihdr], t1, f.before, t2);
    var t3 := ReadPlte(cfg, t2, f.plte);
    ReadsThen(cfg, s, [f.ihdr] + f.before, t2, f.plte, t3);
    ReadsTrace(cfg, [f.ihdr] + f.before + f.plte, t3);
    t := ReadHarmless(cfg, t3, f.between);
    ReadsThen(cfg, s, [f.ihdr] + f.before + f.plte, t3, f.between, t);
  }

  lemma ReadIend(cfg: Config, s: State, c: RawChunk) returns (t: State)
    requires Idle(s) && s.flags.ihdr && s.flags.idat && CrcGood(cfg, c) && c.name == IEND
    ensures Run(cfg, s, Serialize(c)) == (t, []) && t.Running? && t.mode == DoneMode
    ensures t.trace == s.trace + EventsOf(c) + [End]
  {
    ReadPlain(cfg, s, c, []);
    assert Serialize(c) + [] == Serialize(c);
    t := DoneIEND(cfg, Awaiting(s, c), c.body, c.crc);
  }

  /** From the end of the image data to the end of the file. */
  lemma ReadTail(cfg: Config, s: State, after: seq<RawChunk>, iend: RawChunk) returns (t: State)
    requires s.Running? && s.mode == IdatMode && !s.flags.header && cfg.inflate(s.zin) == Finished
    requires s.flags.ihdr && s.flags.idat && s.flags.afterIdat
    requires AllHarmless(cfg, s.trace, after) && CrcGood(cfg, iend) && iend.name == IEND
    ensures AllFramed(after + [iend]) && Run(cfg, s, SerializeAll(after + [iend])) == (t, [])
    ensures t.Running? && t.mode == DoneMode && t.trace == s.trace + AllEvents(after + [iend], true) + [End]
  {
    var idle, all := s.(mode := ChunkMode), after + [iend];
    hide Run, SerializeAll, AllEvents, Serialize, EventsOf, NameOk;
    FirstOfTail(cfg, s.trace, after, iend);
    var u := ReadHarmless(cfg, idle, after);
    t := ReadIend(cfg, u, iend);
    TailAsRest(cfg, s, all);
    ReadLast(cfg, idle, after, iend, u, t);
  }

  lemma FirstOfTail(cfg: Config, trace: seq<Event>, after: seq<RawChunk>, iend: RawChunk)
    requires AllHarmless(cfg, trace, after) && CrcGood(cfg, iend) && iend.name == IEND
    ensures (after + [iend])[0].name !in {IDAT, IHDR} && Framed(iend)
  {
  }

  lemma TailAsRest(cfg: Config, s: State, all: seq<RawChunk>)
    requires s.Running? && s.mode == IdatMode && !s.flags.header && cfg.inflate(s.zin) == Finished
    requires all != [] && AllFramed(all) && all[0].name !in {IDAT, IHDR}
    ensures Run(cfg, s, SerializeAll(all)) == Run(cfg, s.(mode := ChunkMode), SerializeAll(all))
  {
    hide Run, Serialize;
    LeaveImage(cfg, s, all[0], SerializeAll(all[1..]));
  }

  lemma OneChunk(c: RawChunk)
    requires Framed(c) && c.name != IDAT
    ensures AllFramed([c]) && SerializeAll([c]) == Serialize(c) && AllEvents([c], true) == EventsOf(c)
  {
    hide Serialize, EventsOf;
    assert SerializeAll([c]) == Serialize(c) + SerializeAll([]);
    assert AllEvents([c], true) == [] + EventsOf(c) + AllEvents([], true);
  }

  lemma ReadLast(cfg: Config, s: State, after: seq<RawChunk>, iend: RawChunk, u: State, t: State)
    requires Reads(cfg, s, after, u) && s.flags.idat && Framed(iend) && iend.name == IEND
    requires Run(cfg, u, Serialize(iend)) == (t, []) && t.Running? && t.trace == u.trace + EventsOf(iend) + [End]
    ensures AllFramed(after + [iend]) && Run(cfg, s, SerializeAll(after + [iend])) == (t, [])
    ensures t.trace == s.trace + AllEvents(after + [iend], true) + [End]
  {
    hide Run, Serialize, EventsOf, Framed, SerializeAll, AllEvents, HasIdat;
    OneChunk(iend);
    SerializeConcat(after, [iend]);
    EventsConcat(after, [iend], true);
    JoinEvents(s.trace, AllEvents(after, true), EventsOf(iend));
  }

  /** Reading back a well-formed file, from the first byte of the signature to the last of the IEND CRC:
      the reader reports exactly the chunks it was made of, then the end, with nothing left over. */
  lemma FileRoundTrip(cfg: Config, f: File) returns (t: State)
    requires WellFormed(cfg, f)
    ensures AllFramed(Chunks(f)) && Run(cfg, Start(0), SIGNATURE + SerializeAll(Chunks(f))) == (t, [])
    ensures t.Running? && t.mode == DoneMode && t.trace == AllEvents(Chunks(f), false) + [End]
  {
    assert cfg.inflate(IdatData(f.idats)) == Finished;
    hide Reads, Harmless, CrcGood, Run;
    var tail := f.after + [f.iend];
    var u := ReadUpToImage(cfg, f);
    assert [] + IdatData(f.idats) == IdatData(f.idats);
    var v := ReadIdats(cfg, u, f.idats, IdatData(f.idats));
    var front := [f.ihdr] + f.before + f.plte + f.between + f.idats;
    ReadsThen(cfg, Signed(), [f.ihdr] + f.before + f.plte + f.between, u, f.idats, v);
    ReadsTrace(cfg, front, v);
    t := ReadTail(cfg, v, f.after, f.iend);
    Assemble(cfg, front, v, tail, t);
    assert Chunks(f) == front + tail;
  }

  lemma Assemble(cfg: Config, front: seq<RawChunk>, v: State, tail: seq<RawChunk>, t: State)
    requires Reads(cfg, Signed(), front, v) && v.flags.idat && AllFramed(tail)
    requires Run(cfg, v, SerializeAll(tail)) == (t, [])
    requires t.Running? && t.trace == v.trace + AllEvents(tail, true) + [End]
    ensures AllFramed(front + tail) && Run(cfg, Start(0), SIGNATURE + SerializeAll(front + tail)) == (t, [])
    ensures t.trace == AllEvents(front + tail, false) + [End]
  {
    hide SerializeAll, AllEvents, HasIdat;
    SerializeConcat(front, tail);
    EventsConcat(front, tail, false);
    var q := SIGNATURE + SerializeAll(front + tail);
    PngPushReader.RunSignature(cfg, Start(0), q, 8);
    assert q[..8] == SIGNATURE == SIGNATURE[0..8] && q[8..] == SerializeAll(front + tail);
    assert Signed().trace + AllEvents(front, false) == AllEvents(front, false);
    assert v.flags.idat == (false || HasIdat(front));
  }
}
