/** Which chunks the reader vouches for: whose CRCs are known to match in any run, ended, unfinished or failed. */
module PngCrc {
  import opened Common
  import opened PngStream
  import opened PngFile
  import opened PngBytes
  import opened PngOrder
  import PngPushReader

  /** The trace ends in the beginning of an IDAT chunk of n bytes, of which d have come. */
  predicate InIdat(t: seq<Event>, before: seq<Event>, n: nat, d: seq<byte>) {
    t == before + [IdatBegin(n)] + IdatBytes(d)
  }

  ghost predicate IdatVouched(cfg: Config, t: seq<Event>, crc: seq<byte>) {
    exists before, d :: InIdat(t, before, |d|, d) && cfg.crcOk(Word(IDAT) + d, crc)
  }

  /** An IHDR, PLTE or IEND has the CRC of its name and body, and an IDAT chunk ends with that of its name and data. */
  ghost predicate Vouched(cfg: Config, before: seq<Event>, e: Event) {
    match e
    case Chunk(name, body, crc) => name in {IHDR, PLTE, IEND} ==> cfg.crcOk(Word(name) + body, crc)
    case IdatEnd(crc) => IdatVouched(cfg, before, crc)
    case _ => true
  }

  ghost predicate AllVouched(cfg: Config, t: seq<Event>) {
    forall i :: 0 <= i < |t| ==> Vouched(cfg, t[..i], t[i])
  }

  /** What has been run through the CRC so far. */
  ghost predicate CrcSoFar(s: State) {
    s.Running? && s.flags.header ==>
      && (s.mode == ChunkMode ==> s.crc == Word(s.name))
      && (s.mode == IdatMode ==> s.name == IDAT && DataSoFar(s))
  }

  ghost predicate DataSoFar(s: State)
    requires s.Running?
  {
    exists before, n, d ::
      InIdat(s.trace, before, n, d) && n == |d| + s.idatSize && s.crc == Word(IDAT) + d
  }

  ghost predicate CrcInv(cfg: Config, s: State) { AllVouched(cfg, s.trace) && CrcSoFar(s) }

  lemma OneMoreVouched(cfg: Config, t: seq<Event>, e: Event)
    requires AllVouched(cfg, t) && Vouched(cfg, t, e)
    ensures AllVouched(cfg, t + [e])
  {
    var u := t + [e];
    hide Vouched;
    forall i | 0 <= i < |u| ensures Vouched(cfg, u[..i], u[i]) {
      assert u[..i] == t[..i];
      if i == |t| { assert t[..i] == t; }
    }
  }

  predicate Free(e: Event) { !e.IdatEnd? && (e.Chunk? ==> e.name !in {IHDR, PLTE, IEND}) }

  lemma FreeEvent(cfg: Config, t: seq<Event>, e: Event)
    requires AllVouched(cfg, t) && Free(e)
    ensures AllVouched(cfg, t + [e])
  {
    hide AllVouched;
    OneMoreVouched(cfg, t, e);
  }

  // --- Steps ------------------------------------------------------------------------------------

  lemma ChunkVouched(cfg: Config, s: State, body: seq<byte>, crc: seq<byte>)
    requires cfg.benignFatal && s.Running? && CrcInv(cfg, s) && s.mode == ChunkMode && s.flags.header
    ensures CrcInv(cfg, ChunkDone(cfg, s, body, crc))
  {
    var t, e := ChunkDone(cfg, s, body, crc), Chunk(s.name, body, crc);
    ChunkOutcome(cfg, s, body, crc);
    hide ChunkDone, AllVouched, Vouched, Word;
    if t.Running? {
      OneMoreVouched(cfg, s.trace, e);
      FreeEvent(cfg, s.trace + [e], End);
    }
  }

  lemma ChunkOutcome(cfg: Config, s: State, body: seq<byte>, crc: seq<byte>)
    requires cfg.benignFatal && s.Running? && s.mode == ChunkMode && s.flags.header && s.crc == Word(s.name)
    ensures var t, e := ChunkDone(cfg, s, body, crc), Chunk(s.name, body, crc);
            if t.Failed? then t.trace == s.trace
            else
              && !t.flags.header && Vouched(cfg, s.trace, e)
              && (t.trace == s.trace + [e] || t.trace == s.trace + [e] + [End])
  {
    CriticalNames();
    hide Ancillary, Textual, Critical, Word;
  }

  lemma CriticalNames()
    ensures Critical(IHDR) && Critical(PLTE) && Critical(IEND) && Critical(IDAT)
  {
  }

  lemma ImageBegins(t: seq<Event>, n: nat)
    ensures InIdat(t + [IdatBegin(n)], t, n, []) && InIdat(t + [Info, IdatBegin(n)], t + [Info], n, [])
    ensures t + [Info, IdatBegin(n)] == t + [Info] + [IdatBegin(n)]
  {
  }

  lemma BeginVouched(cfg: Config, s: State)
    requires s.Running? && AllVouched(cfg, s.trace) && s.crc == Word(IDAT) == Word(s.name) && s.name == IDAT
    ensures CrcInv(cfg, BeginImage(cfg, s))
  {
    ImageBegins(s.trace, s.pushLength);
    FreeEvent(cfg, s.trace, Info);
    FreeEvent(cfg, s.trace + [Info], IdatBegin(s.pushLength));
    hide AllVouched, Word, InIdat;
    assert Word(IDAT) == Word(IDAT) + [];
  }

  lemma HeaderVouched(cfg: Config, s: State, q: seq<byte>)
    requires s.Running? && CrcInv(cfg, s) && s.mode in {ChunkMode, IdatMode} && !s.flags.header && |q| >= 8
    ensures CrcInv(cfg, ReadHeader(cfg, s, q))
  {
    var length, name := Be32(q[..4]), Be32(q[4..8]);
    WordOfBytes(q[4..8]);
    var t := s.(pushLength := length, name := name, crc := q[4..8], flags := s.flags.(header := true));
    if name == IDAT {
      ImageBegins(s.trace, length);
      FreeEvent(cfg, s.trace, IdatBegin(length));
      BeginVouched(cfg, t);
    }
    assert Word(IDAT) == Word(IDAT) + [];
    hide AllVouched, Word, InIdat, BeginImage, NameOk, Be32;
  }

  lemma ByteIn(t: seq<Event>, before: seq<Event>, n: nat, d: seq<byte>, b: byte)
    requires InIdat(t, before, n, d)
    ensures InIdat(t + [IdatByte(b)], before, n, d + [b]) && Word(IDAT) + d + [b] == Word(IDAT) + (d + [b])
  {
    hide Word;
    assert IdatBytes(d + [b]) == IdatBytes(d) + [IdatByte(b)];
  }

  lemma ByteVouched(cfg: Config, s: State, b: byte)
    requires s.Running? && CrcInv(cfg, s) && s.mode == IdatMode && s.flags.header && s.idatSize > 0
    ensures CrcInv(cfg, Sink(cfg, s, b))
  {
    hide AllVouched, Word, InIdat;
    var before, n, d :| InIdat(s.trace, before, n, d) && n == |d| + s.idatSize && s.crc == Word(IDAT) + d;
    ByteIn(s.trace, before, n, d, b);
    FreeEvent(cfg, s.trace, IdatByte(b));
  }

  lemma EndVouched(cfg: Config, s: State, crc: seq<byte>)
    requires cfg.benignFatal && s.Running? && CrcInv(cfg, s) && s.mode == IdatMode && s.flags.header && s.idatSize == 0
    ensures CrcInv(cfg, ReadCrc(cfg, s, crc))
  {
    CriticalNames();
    hide AllVouched, Word, InIdat, Critical;
    var before, n, d :| InIdat(s.trace, before, n, d) && n == |d| + s.idatSize && s.crc == Word(IDAT) + d;
    if cfg.crcOk(s.crc, crc) {
      assert InIdat(s.trace, before, |d|, d);
      OneMoreVouched(cfg, s.trace, IdatEnd(crc));
    }
  }

  lemma StepVouches(cfg: Config, s: State, q: seq<byte>)
    requires cfg.benignFatal && Legible(s) && CrcInv(cfg, s) && FlagsOk(s) && Step(cfg, s, q).Go?
    ensures CrcInv(cfg, Step(cfg, s, q).s)
  {
    var n := s.pushLength;
    hide CrcInv, ReadHeader, ChunkDone, Sink, ReadCrc;
    if s.mode == SigMode {
      FlagsVouched(cfg, s, Step(cfg, s, q).s);
    } else if !s.flags.header {
      HeaderVouched(cfg, s, q);
    } else if s.mode == ChunkMode {
      FlagsVouched(cfg, s, Fail(s));
      if |q| >= n + 4 { ChunkVouched(cfg, s, q[..n], q[n..n + 4]); }
    } else if s.idatSize > 0 {
      ByteVouched(cfg, s, q[0]);
    } else {
      EndVouched(cfg, s, q[..4]);
    }
  }

  lemma FlagsVouched(cfg: Config, s: State, t: State)
    requires CrcInv(cfg, s) && t.trace == s.trace && (t.Running? ==> !t.flags.header)
    ensures CrcInv(cfg, t)
  {
    hide AllVouched;
  }

  lemma {:induction false} RunKeepsVouched(cfg: Config, s: State, q: seq<byte>)
    requires cfg.benignFatal && CrcInv(cfg, s) && (s.Running? ==> Legible(s)) && FlagsOk(s)
    ensures CrcInv(cfg, Run(cfg, s, q).0)
    decreases |q|
  {
    hide CrcInv, FlagsOk, Step, Legible, Used;
    if s.Running? && s.mode != DoneMode && Step(cfg, s, q).Go? {
      StepVouches(cfg, s, q);
      StepKeepsFlags(cfg, s, q);
      StepUses(cfg, s, q);
      UsesLegible(s, q[..Step(cfg, s, q).n], Step(cfg, s, q).s);
      RunKeepsVouched(cfg, Step(cfg, s, q).s, q[Step(cfg, s, q).n..]);
    }
  }

  lemma UsesLegible(s: State, taken: seq<byte>, t: State)
    requires Legible(s) && Uses(s, taken, t)
    ensures t.Running? ==> Legible(t)
  {
  }

  /** Where benign errors are fatal, a reader of whatever bytes has reported no IHDR, PLTE or IEND, and no end of an
      IDAT chunk, but with the CRC that goes with it. */
  lemma ReportsAreVouched(cfg: Config, sigBytes: nat, q: seq<byte>)
    requires cfg.benignFatal && sigBytes <= 8
    ensures AllVouched(cfg, Run(cfg, Start(sigBytes), q).0.trace)
  {
    hide Run, Vouched, Spell;
    RunKeepsVouched(cfg, Start(sigBytes), q);
  }

  lemma ReaderVouches(r: PngPushReader.PngStruct)
    requires r.Valid() && r.cfg.benignFatal
    ensures AllVouched(r.cfg, r.trace)
  {
    ReportsAreVouched(r.cfg, r.skipped, r.received);
    hide Run, AllVouched;
  }
}
