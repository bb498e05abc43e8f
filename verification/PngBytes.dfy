/** The reader's report is complete: written out again, its events are the bytes it has used.

    PngFile starts from a file and reads it back; here any bytes at all are read and then written out. */
module PngBytes {
  import opened Common
  import opened PngStream
  import opened PngFile

  // --- Writing events out -----------------------------------------------------------------------

  /** Four bytes, most significant first. */
  function Word(n: nat): (b: seq<byte>)
    ensures |b| == 4
  {
    var (n1, n2, n3) := (n / 256, n / 256 / 256, n / 256 / 256 / 256);
    [n3 % 256, n2 % 256, n1 % 256, n % 256]
  }

  lemma WordOfBytes(b: seq<byte>)
    requires |b| == 4
    ensures Word(Be32(b)) == b
  {
    LastDigit(b[0], b[1]);
    LastDigit(b[0] * 256 as int + b[1], b[2]);
    LastDigit((b[0] * 256 as int + b[1]) * 256 + b[2], b[3]);
  }

  lemma LastDigit(n: int, b: byte)
    ensures (n * 256 + b) / 256 == n && (n * 256 + b) % 256 == b
  {
  }

  lemma WordIs(n: nat)
    requires n < 0x1_0000_0000
    ensures Word(n) == Bytes32(n)
  {
    WordOfBytes(Bytes32(n));
    hide Word, Bytes32;
  }

  /** The bytes of the stream that an event reports. */
  function Item(e: Event): seq<byte> {
    match e
    case Chunk(name, body, crc) => Word(|body|) + Word(name) + body + crc
    case IdatBegin(length) => Word(length) + Word(IDAT)
    case IdatByte(b) => [b]
    case IdatEnd(crc) => crc
    case _ => []
  }

  function Spell(trace: seq<Event>): seq<byte> {
    if trace == [] then [] else Spell(trace[..|trace| - 1]) + Item(trace[|trace| - 1])
  }

  lemma SpellOne(trace: seq<Event>, e: Event)
    ensures Spell(trace + [e]) == Spell(trace) + Item(e)
  {
    assert (trace + [e])[..|trace|] == trace;
  }

  lemma {:induction false} SpellConcat(s: seq<Event>, t: seq<Event>)
    ensures Spell(s + t) == Spell(s) + Spell(t)
    decreases |t|
  {
    hide Item;
    if t == [] {
      assert s + t == s;
    } else {
      var n := |t| - 1;
      assert s + t == s + t[..n] + [t[n]];
      SpellConcat(s, t[..n]);
      SpellOne(s + t[..n], t[n]);
    }
  }

  // --- The bytes used ---------------------------------------------------------------------------

  /** Everything the reader has used: signature, reported chunks, and the header of the chunk it waits for. */
  function Used(s: State): seq<byte>
    requires Legible(s)
  {
    SIGNATURE[..s.sigBytes] + Spell(s.trace) + Header(s)
  }

  function Header(s: State): seq<byte>
    requires s.Running?
  {
    if s.mode == ChunkMode && s.flags.header then Word(s.pushLength) + Word(s.name) else []
  }

  /** No chunk has been skipped unreported. */
  predicate Legible(s: State) {
    && s.Running? && s.mode != SkipMode
    && (if s.mode == SigMode then s.sigBytes <= 8 && s.trace == [] && !s.flags.header else s.sigBytes == 8)
  }

  /** t has used exactly the bytes taken and those that s had used. */
  predicate Uses(s: State, taken: seq<byte>, t: State)
    requires Legible(s)
  {
    t.Running? ==> Legible(t) && Used(t) == Used(s) + taken
  }

  lemma SignatureStep(s: State, t: State, b: byte)
    requires Legible(s) && s.mode == SigMode && s.sigBytes < 8 && b == SIGNATURE[s.sigBytes]
    requires t == s.(sigBytes := s.sigBytes + 1, mode := if s.sigBytes == 7 then ChunkMode else SigMode)
    ensures Uses(s, [b], t)
  {
    assert SIGNATURE[..s.sigBytes + 1] == SIGNATURE[..s.sigBytes] + [b];
  }

  lemma UsesThese(s: State, taken: seq<byte>, t: State)
    requires Legible(s) && Legible(t) && s.sigBytes == t.sigBytes
    requires Spell(t.trace) + Header(t) == Spell(s.trace) + (Header(s) + taken)
    ensures Uses(s, taken, t)
  {
    hide Spell, Header;
    var sig := SIGNATURE[..s.sigBytes];
    assert sig + Spell(t.trace) + Header(t) == sig + (Spell(t.trace) + Header(t));
  }

  lemma HeaderOutcome(cfg: Config, s: State, q: seq<byte>)
    requires Legible(s) && s.mode in {ChunkMode, IdatMode} && !s.flags.header && |q| >= 8
    ensures var t := ReadHeader(cfg, s, q); var length, name := Be32(q[..4]), Be32(q[4..8]);
            t.Running? ==>
              && Legible(t) && t.sigBytes == s.sigBytes && Header(s) == []
              && ((t.trace == s.trace && Header(t) == Word(length) + Word(name))
                  || (name == IDAT && Header(t) == []
                      && (t.trace == s.trace + [IdatBegin(length)] || t.trace == s.trace + [Info, IdatBegin(length)])))
  {
    hide Word, NameOk, Be32;
  }

  /** A header leaves the queue: unless it begins an IDAT chunk, it is remembered. */
  lemma HeaderStep(cfg: Config, s: State, q: seq<byte>)
    requires Legible(s) && s.mode in {ChunkMode, IdatMode} && !s.flags.header && |q| >= 8
    ensures Uses(s, q[..8], ReadHeader(cfg, s, q))
  {
    hide Word, Spell, Uses, ReadHeader, Header, Be32;
    var t := ReadHeader(cfg, s, q);
    if t.Running? {
      HeaderOutcome(cfg, s, q);
      WordOfBytes(q[..4]);
      WordOfBytes(q[4..8]);
      assert q[..8] == q[..4] + q[4..8];
      SpellBegin(s.trace, Be32(q[..4]));
      UsesThese(s, q[..8], t);
    } else {
      Refused(s, q[..8], t);
    }
  }

  lemma Refused(s: State, taken: seq<byte>, t: State)
    requires Legible(s) && !t.Running?
    ensures Uses(s, taken, t)
  {
  }

  lemma TwoEvents(trace: seq<Event>, d: Event, e: Event)
    ensures trace + [d] + [e] == trace + [d, e]
  {
  }

  lemma ItemsOfBegin(length: nat)
    ensures Item(Info) == [] && Item(IdatBegin(length)) == Word(length) + Word(IDAT)
  {
    hide Word;
  }

  lemma SpellBegin(trace: seq<Event>, length: nat)
    ensures Spell(trace + [IdatBegin(length)]) == Spell(trace) + (Word(length) + Word(IDAT))
    ensures Spell(trace + [Info, IdatBegin(length)]) == Spell(trace) + (Word(length) + Word(IDAT))
  {
    hide *;
    SpellOne(trace, Info);
    SpellOne(trace + [Info], IdatBegin(length));
    SpellOne(trace, IdatBegin(length));
    TwoEvents(trace, Info, IdatBegin(length));
    ItemsOfBegin(length);
    assert Spell(trace) + [] == Spell(trace);
  }

  lemma ChunkOutcome(cfg: Config, s: State, body: seq<byte>, crc: seq<byte>)
    requires Legible(s) && s.mode == ChunkMode && s.flags.header && |body| == s.pushLength
    ensures var t := ChunkDone(cfg, s, body, crc); var trace := s.trace + [Chunk(s.name, body, crc)];
            t.Running? ==>
              && Legible(t) && t.sigBytes == s.sigBytes && Header(t) == []
              && (t.trace == trace || t.trace == trace + [End])
              && Header(s) == Word(|body|) + Word(s.name)
  {
    hide Word, Ancillary, Textual, FatalCrc, Critical;
  }

  lemma ChunkStep(cfg: Config, s: State, body: seq<byte>, crc: seq<byte>)
    requires Legible(s) && s.mode == ChunkMode && s.flags.header && |body| == s.pushLength
    ensures Uses(s, body + crc, ChunkDone(cfg, s, body, crc))
  {
    hide Word, Spell, Uses, ChunkDone, Header;
    var t := ChunkDone(cfg, s, body, crc);
    if t.Running? {
      ChunkOutcome(cfg, s, body, crc);
      SpellChunkEvent(s.trace, s.name, body, crc);
      UsesThese(s, body + crc, t);
    } else {
      Refused(s, body + crc, t);
    }
  }

  lemma SpellChunkEvent(trace: seq<Event>, name: nat, body: seq<byte>, crc: seq<byte>)
    ensures var all := Word(|body|) + Word(name) + (body + crc); var t := trace + [Chunk(name, body, crc)];
            Spell(t) == Spell(trace) + all && Spell(t + [End]) == Spell(trace) + all
  {
    var e := Chunk(name, body, crc);
    SpellOne(trace, e);
    SpellOne(trace + [e], End);
    hide Word, Spell;
    assert Word(|body|) + Word(name) + body + crc == Word(|body|) + Word(name) + (body + crc);
  }

  /** A byte of image data, or the CRC behind it. */
  lemma ImageStep(cfg: Config, s: State, b: byte, crc: seq<byte>)
    requires Legible(s) && s.mode == IdatMode && s.flags.header
    ensures s.idatSize > 0 ==> Uses(s, [b], Sink(cfg, s, b))
    ensures Uses(s, crc, ReadCrc(cfg, s, crc))
  {
    SpellOne(s.trace, IdatByte(b));
    SpellOne(s.trace, IdatEnd(crc));
    hide Spell, Word;
  }

  lemma TwoParts(q: seq<byte>, n: nat)
    requires n + 4 <= |q|
    ensures q[..n] + q[n..n + 4] == q[..n + 4]
  {
  }

  lemma StepUses(cfg: Config, s: State, q: seq<byte>)
    requires Legible(s) && Step(cfg, s, q).Go?
    ensures Uses(s, q[..Step(cfg, s, q).n], Step(cfg, s, q).s)
  {
    var n, t := s.pushLength, Step(cfg, s, q).s;
    hide Uses, ReadHeader, ChunkDone, Sink, ReadCrc, Used, Be32, FatalCrc;
    if t.Failed? {
      Refused(s, q[..Step(cfg, s, q).n], t);
    } else if s.mode == SigMode {
      assert q[..1] == [q[0]];
      SignatureStep(s, t, q[0]);
    } else if !s.flags.header {
      HeaderStep(cfg, s, q);
    } else if s.mode == ChunkMode {
      TwoParts(q, n);
      ChunkStep(cfg, s, q[..n], q[n..n + 4]);
    } else if s.idatSize > 0 {
      assert q[..1] == [q[0]];
      ImageStep(cfg, s, q[0], []);
    } else {
      ImageStep(cfg, s, 0, q[..4]);
    }
  }

  /** Whatever the bytes: as long as the reader has not refused them, its report and what it keeps pending are, byte
      for byte, what it was given. Behind the end of the file it drops what comes. */
  lemma {:induction false} NothingLost(cfg: Config, s: State, q: seq<byte>)
    requires Legible(s)
    ensures var (t, pending) := Run(cfg, s, q);
            t.Running? ==> Legible(t) && (if t.mode == DoneMode then Used(t) <= Used(s) + q
                                          else Used(t) + pending == Used(s) + q)
    decreases |q|
  {
    hide Used, Step;
    if s.mode != DoneMode {
      match Step(cfg, s, q) {
        case Stall =>
        case Go(n, t) =>
          StepUses(cfg, s, q);
          if t.Running? {
            NothingLost(cfg, t, q[n..]);
            Regroup(Used(s), q, n);
          }
      }
    }
  }

  lemma Regroup(u: seq<byte>, q: seq<byte>, n: nat)
    requires n <= |q|
    ensures u + q[..n] + q[n..] == u + q && (u + q[..n]) + q[n..] == u + q
  {
    assert q[..n] + q[n..] == q;
  }

  // --- Files ------------------------------------------------------------------------------------

  lemma {:induction false} SpellIdat(data: seq<byte>)
    ensures Spell(IdatBytes(data)) == data
    decreases |data|
  {
    if data != [] {
      var n := |data| - 1;
      SpellIdat(data[..n]);
      assert IdatBytes(data) == IdatBytes(data[..n]) + [IdatByte(data[n])];
      SpellOne(IdatBytes(data[..n]), IdatByte(data[n]));
    }
  }

  lemma SpellChunk(c: RawChunk)
    requires Framed(c)
    ensures Spell(EventsOf(c)) == Serialize(c)
  {
    WordIs(|c.body|);
    WordIs(c.name);
    SpellAlone(Chunk(c.name, c.body, c.crc));
    SpellImage(c.body, c.crc);
    hide Word, Bytes32, NameOk, Spell;
  }

  lemma SpellAlone(e: Event)
    ensures Spell([e]) == Item(e) && Spell([]) == []
  {
    SpellOne([], e);
    assert [] + [e] == [e];
  }

  lemma SpellImage(body: seq<byte>, crc: seq<byte>)
    ensures Spell([IdatBegin(|body|)] + IdatBytes(body) + [IdatEnd(crc)]) == Word(|body|) + Word(IDAT) + body + crc
  {
    var first := IdatBegin(|body|);
    SpellIdat(body);
    SpellAlone(first);
    SpellConcat([first], IdatBytes(body));
    SpellOne([first] + IdatBytes(body), IdatEnd(crc));
    hide Word, Spell, IdatBytes;
  }

  /** The events of a file are its bytes. */
  lemma {:induction false} SpellFile(cs: seq<RawChunk>, started: bool)
    requires AllFramed(cs)
    ensures Spell(AllEvents(cs, started)) == SerializeAll(cs)
    decreases |cs|
  {
    if cs == [] {
      SpellAlone(End);
    } else {
      var rest := AllEvents(cs[1..], started || cs[0].name == IDAT);
      FileParts(cs, started);
      hide *;
      SpellChunk(cs[0]);
      SpellFile(cs[1..], started || cs[0].name == IDAT);
      SpellInfo(EventsOf(cs[0]) + rest);
      SpellConcat(EventsOf(cs[0]), rest);
    }
  }

  lemma FileParts(cs: seq<RawChunk>, started: bool)
    requires AllFramed(cs) && cs != []
    ensures Framed(cs[0]) && AllFramed(cs[1..]) && SerializeAll(cs) == Serialize(cs[0]) + SerializeAll(cs[1..])
    ensures var both := EventsOf(cs[0]) + AllEvents(cs[1..], started || cs[0].name == IDAT);
            AllEvents(cs, started) == both || AllEvents(cs, started) == [Info] + both
  {
    hide EventsOf, Serialize, Framed;
  }

  lemma SpellInfo(events: seq<Event>)
    ensures Spell([Info] + events) == Spell(events)
  {
    SpellAlone(Info);
    SpellConcat([Info], events);
    hide Spell;
  }

  /** The reader of a well-formed file has neither ended nor failed before its last byte. */
  lemma EndsWithLastByte(cfg: Config, f: File, k: nat)
    requires WellFormed(cfg, f) && AllFramed(Chunks(f))
    requires var b := SIGNATURE + SerializeAll(Chunks(f)); k < |b|
    ensures var b := SIGNATURE + SerializeAll(Chunks(f)); var s := Run(cfg, Start(0), b[..k]).0;
            s.Running? && s.mode != DoneMode
  {
    hide *;
    var b := SIGNATURE + SerializeAll(Chunks(f));
    var t := FileRoundTrip(cfg, f);
    EndedEarly(cfg, b, k, t);
    var s := Run(cfg, Start(0), b[..k]).0;
    SpellFile(Chunks(f), false);
    SpellOne(AllEvents(Chunks(f), false), End);
    EndIsNothing();
  }

  lemma EndIsNothing()
    ensures Item(End) == []
  {
  }

  lemma StartUsesNothing()
    ensures Legible(Start(0)) && Used(Start(0)) == []
  {
  }

  lemma UsedAtEnd(s: State)
    requires Legible(s) && s.mode == DoneMode
    ensures Used(s) == SIGNATURE + Spell(s.trace)
  {
    assert SIGNATURE[..8] == SIGNATURE;
  }

  /** A reader that has ended on the first k bytes has reported no more than these. */
  lemma EndedEarly(cfg: Config, b: seq<byte>, k: nat, t: State)
    requires k <= |b| && Run(cfg, Start(0), b).0 == t && t.Running?
    ensures var s := Run(cfg, Start(0), b[..k]).0;
            s.Running? && (s.mode == DoneMode ==> s == t && |SIGNATURE + Spell(s.trace)| <= k)
  {
    hide Run, Spell;
    var (s, pending) := Run(cfg, Start(0), b[..k]);
    RunSplit(cfg, Start(0), b[..k], b[k..]);
    assert b[..k] + b[k..] == b;
    StaysAsItIs(cfg, s, pending + b[k..]);
    StartUsesNothing();
    NothingLost(cfg, Start(0), b[..k]);
    if s.Running? && s.mode == DoneMode { UsedAtEnd(s); }
  }
  lemma StaysAsItIs(cfg: Config, s: State, q: seq<byte>)
    ensures s.Failed? || s.mode == DoneMode ==> Run(cfg, s, q) == (s, [])
  {
  }
}
