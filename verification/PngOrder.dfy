/** What holds of every run of the reader: the order of chunks and callbacks, and the flags that rule
    out a dispatch without progress. */
module PngOrder {
  import opened Common
  import opened PngStream

  predicate IsIdat(e: Event) { e.IdatBegin? || e.IdatByte? || e.IdatEnd? }

  predicate IsImage(e: Event) { e.Info? || IsIdat(e) }

  ghost predicate HasPalette(t: seq<Event>) {
    exists i :: 0 <= i < |t| && t[i].Chunk? && t[i].name == PLTE
  }

  /** t holds an accepted IHDR with the given colour type. */
  ghost predicate HasHeader(t: seq<Event>, colorType: byte) {
    exists i :: 0 <= i < |t| && t[i].Chunk? && t[i].name == IHDR && |t[i].body| == 13 && t[i].body[9] == colorType
  }

  ghost predicate NoImage(t: seq<Event>) {
    forall i :: 0 <= i < |t| ==> !IsImage(t[i])
  }

  /** The image events of t are exactly t[a..b]: one info callback, then a block of IDAT chunks; an IHDR
      comes before, and for a palette image a PLTE too. */
  ghost predicate ImageBlock(t: seq<Event>, a: nat, b: nat, colorType: byte) {
    && a + 1 < b <= |t|
    && NoImage(t[..a]) && NoImage(t[b..])
    && t[a] == Info && t[a + 1].IdatBegin?
    && (forall i :: a < i < b ==> IsIdat(t[i]))
    && HasHeader(t[..a], colorType)
    && (colorType == COLOR_TYPE_PALETTE ==> HasPalette(t[..a]))
  }

  ghost predicate WellOrdered(t: seq<Event>) {
    NoImage(t) || exists a: nat, b: nat, c: byte :: ImageBlock(t, a, b, c)
  }

  /** The relation between flags, process mode and pending header that every reachable state keeps. */
  predicate FlagsOk(s: State) {
    s.Running? ==>
      var f := s.flags;
      && (s.mode == SigMode ==> s.sigBytes <= 8 && !f.header && !f.idat)
      && (s.mode == ChunkMode ==> (f.idat ==> f.afterIdat) && (f.header ==> s.name != IDAT))
      && (s.mode == IdatMode ==> f.ihdr && f.idat && (if f.header then s.name == IDAT else f.afterIdat))
      && (s.mode == SkipMode ==> (f.idat ==> f.afterIdat) && !f.header)
      && s.pushLength <= UINT_31_MAX && s.idatSize <= UINT_31_MAX
  }

  ghost predicate TraceOk(s: State) {
    if s.Failed? then WellOrdered(s.trace)
    else
      && (s.flags.ihdr ==> HasHeader(s.trace, s.colorType))
      && (s.flags.plte ==> HasPalette(s.trace))
      && (if s.flags.idat then
            s.flags.ihdr &&
            exists a: nat, b: nat :: ImageBlock(s.trace, a, b, s.colorType) && (s.mode == IdatMode ==> b == |s.trace|)
          else NoImage(s.trace) && s.mode != IdatMode)
  }

  lemma StepKeepsFlags(cfg: Config, s: State, q: seq<byte>)
    requires s.Running? && FlagsOk(s) && Step(cfg, s, q).Go?
    ensures FlagsOk(Step(cfg, s, q).s)
  {
    hide ChunkDone, ReadHeader, NameOk, Be32;
    if s.mode == ChunkMode && s.flags.header {
      if |q| >= s.pushLength + 4 {
        ChunkKeepsFlags(cfg, s, q[..s.pushLength], q[s.pushLength..s.pushLength + 4]);
      }
    } else if s.mode in {ChunkMode, IdatMode} && !s.flags.header {
      HeaderKeepsFlags(cfg, s, q);
    }
  }

  lemma HeaderKeepsFlags(cfg: Config, s: State, q: seq<byte>)
    requires s.Running? && FlagsOk(s) && s.mode in {ChunkMode, IdatMode} && !s.flags.header && |q| >= 8
    ensures FlagsOk(ReadHeader(cfg, s, q))
  {
    hide NameOk, Be32;
  }

  lemma ChunkKeepsFlags(cfg: Config, s: State, body: seq<byte>, crc: seq<byte>)
    requires s.Running? && FlagsOk(s) && s.mode == ChunkMode
    ensures FlagsOk(ChunkDone(cfg, s, body, crc))
  {
    hide Ancillary, Textual, Critical, FatalCrc;
  }

  /** An event that is not part of the image, added after the image block has closed. */
  lemma AppendOther(t: seq<Event>, more: seq<Event>, a: nat, b: nat, c: byte)
    requires ImageBlock(t, a, b, c) && NoImage(more)
    ensures ImageBlock(t + more, a, b, c)
  {
    assert (t + more)[..a] == t[..a];
    assert (t + more)[b..] == t[b..] + more;
  }

  lemma AppendIdat(t: seq<Event>, e: Event, a: nat, c: byte)
    requires ImageBlock(t, a, |t|, c) && IsIdat(e)
    ensures ImageBlock(t + [e], a, |t| + 1, c)
  {
    assert (t + [e])[..a] == t[..a];
    assert (t + [e])[|t| + 1..] == [];
  }

  lemma AppendImage(t: seq<Event>, n: nat, c: byte)
    requires NoImage(t) && HasHeader(t, c) && (c == COLOR_TYPE_PALETTE ==> HasPalette(t))
    ensures ImageBlock(t + [Info, IdatBegin(n)], |t|, |t| + 2, c)
  {
    var u := t + [Info, IdatBegin(n)];
    assert u[..|t|] == t && u[|t| + 2..] == [];
  }

  lemma HeaderLasts(t: seq<Event>, more: seq<Event>, c: byte)
    requires HasHeader(t, c)
    ensures HasHeader(t + more, c)
  {
    var i :| 0 <= i < |t| && t[i].Chunk? && t[i].name == IHDR && |t[i].body| == 13 && t[i].body[9] == c;
    assert (t + more)[i] == t[i];
  }

  lemma PaletteLasts(t: seq<Event>, more: seq<Event>)
    requires HasPalette(t)
    ensures HasPalette(t + more)
  {
    var i :| 0 <= i < |t| && t[i].Chunk? && t[i].name == PLTE;
    assert (t + more)[i] == t[i];
  }

  /** A handled chunk adds its own event, and End after IEND; only IHDR and PLTE raise their flags. */
  lemma ChunkAddsEvent(cfg: Config, s: State, body: seq<byte>, crc: seq<byte>)
    requires s.Running? && ChunkDone(cfg, s, body, crc).Running?
    ensures var t := ChunkDone(cfg, s, body, crc); var e := Chunk(s.name, body, crc);
            && t.trace == s.trace + (if s.name == IEND then [e, End] else [e])
            && t.flags.idat == s.flags.idat && t.mode == (if s.name == IEND then DoneMode else s.mode)
            && (s.name == IHDR ==> !s.flags.ihdr && |body| == 13 && t.colorType == body[9])
            && (s.name != IHDR ==> t.flags.ihdr == s.flags.ihdr && t.colorType == s.colorType)
            && (t.flags.plte ==> s.flags.plte || s.name == PLTE)
  {
  }

  /** Everything but IDAT: the trace grows by events outside the image, and the flags follow. */
  lemma ChunkKeepsTrace(cfg: Config, s: State, body: seq<byte>, crc: seq<byte>)
    requires s.Running? && s.mode == ChunkMode && TraceOk(s) && ChunkDone(cfg, s, body, crc).Running?
    ensures TraceOk(ChunkDone(cfg, s, body, crc))
  {
    var t := ChunkDone(cfg, s, body, crc);
    ChunkAddsEvent(cfg, s, body, crc);
    hide ChunkDone;
    ChunkEventKeepsTrace(s, t, Chunk(s.name, body, crc));
  }

  lemma ChunkEventKeepsTrace(s: State, t: State, e: Event)
    requires s.Running? && s.mode == ChunkMode && TraceOk(s) && t.Running? && e.Chunk? && e.name == s.name
    requires t.trace == s.trace + (if s.name == IEND then [e, End] else [e])
    requires t.flags.idat == s.flags.idat && t.mode != IdatMode
    requires s.name == IHDR ==> !s.flags.ihdr && |e.body| == 13 && t.colorType == e.body[9]
    requires s.name != IHDR ==> t.flags.ihdr == s.flags.ihdr && t.colorType == s.colorType
    requires t.flags.plte ==> s.flags.plte || s.name == PLTE
    ensures TraceOk(t)
  {
    var more := if s.name == IEND then [e, End] else [e];
    assert t.trace[|s.trace|] == e;
    if s.flags.ihdr { HeaderLasts(s.trace, more, s.colorType); }
    if s.flags.plte { PaletteLasts(s.trace, more); }
    if s.flags.idat {
      var a: nat, b: nat :| ImageBlock(s.trace, a, b, s.colorType);
      AppendOther(s.trace, more, a, b, s.colorType);
    }
    hide ImageBlock;
  }

  lemma BeginKeepsTrace(cfg: Config, s: State)
    requires s.Running? && cfg.benignFatal && TraceOk(s) && (s.flags.idat ==> s.flags.afterIdat)
    ensures TraceOk(BeginImage(cfg, s))
  {
    var t := BeginImage(cfg, s);
    if t.Running? {
      var more := [Info, IdatBegin(s.pushLength)];
      HeaderLasts(s.trace, more, s.colorType);
      if s.flags.plte { PaletteLasts(s.trace, more); }
      AppendImage(s.trace, s.pushLength, s.colorType);
    }
  }

  lemma IdatKeepsTrace(s: State, e: Event, t: State)
    requires s.Running? && s.mode == IdatMode && TraceOk(s) && IsIdat(e) && t.trace == s.trace + [e]
    requires t.Running? ==> t.mode == IdatMode && t.colorType == s.colorType
    requires t.Running? ==> t.flags.ihdr && t.flags.idat && t.flags.plte == s.flags.plte
    ensures TraceOk(t)
  {
    var a: nat, b: nat :| ImageBlock(s.trace, a, b, s.colorType) && b == |s.trace|;
    AppendIdat(s.trace, e, a, s.colorType);
    HeaderLasts(s.trace, [e], s.colorType);
    if s.flags.plte { PaletteLasts(s.trace, [e]); }
  }

  lemma FailKeepsTrace(s: State)
    requires s.Running? && TraceOk(s)
    ensures TraceOk(Fail(s))
  {
    if s.flags.idat {
      var a: nat, b: nat :| ImageBlock(s.trace, a, b, s.colorType);
    }
  }

  lemma StepKeepsTrace(cfg: Config, s: State, q: seq<byte>)
    requires s.Running? && cfg.benignFatal && FlagsOk(s) && TraceOk(s) && Step(cfg, s, q).Go?
    ensures TraceOk(Step(cfg, s, q).s)
  {
    hide TraceOk, ChunkDone, ReadHeader, Sink, ReadCrc, FlagsOk;
    FailKeepsTrace(s);
    if s.flags.header && s.mode == IdatMode {
      DataKeepsTrace(cfg, s, q);
    } else if s.mode in {ChunkMode, IdatMode} && !s.flags.header {
      HeaderKeepsTrace(cfg, s, q);
    } else if s.mode == ChunkMode {
      if Step(cfg, s, q).s.Running? { ChunkKeepsTrace(cfg, s, q[..s.pushLength], q[s.pushLength..s.pushLength + 4]); }
      DoneKeepsTrace(cfg, s, q);
    } else {
      OtherKeepsTrace(cfg, s, q);
    }
  }

  lemma OtherKeepsTrace(cfg: Config, s: State, q: seq<byte>)
    requires s.Running? && s.mode in {SigMode, SkipMode} && TraceOk(s) && TraceOk(Fail(s)) && Step(cfg, s, q).Go?
    ensures TraceOk(Step(cfg, s, q).s)
  {
    hide ImageBlock, NoImage, WellOrdered;
  }

  lemma HeaderKeepsTrace(cfg: Config, s: State, q: seq<byte>)
    requires s.Running? && cfg.benignFatal && FlagsOk(s) && TraceOk(s) && TraceOk(Fail(s)) && |q| >= 8
    requires s.mode in {ChunkMode, IdatMode} && !s.flags.header
    ensures TraceOk(ReadHeader(cfg, s, q))
  {
    var t := s.(pushLength := Be32(q[..4]), name := Be32(q[4..8]), crc := q[4..8], flags := s.flags.(header := true));
    hide Be32, NameOk, ImageBlock, NoImage, WellOrdered, HasHeader, HasPalette;
    assert TraceOk(t);
    if s.mode == IdatMode {
      HeaderMore(s, t);
    } else {
      BeginKeepsTrace(cfg, t);
    }
  }

  /** An IDAT header in IDAT mode goes on with the image; any other leaves it. */
  lemma HeaderMore(s: State, t: State)
    requires s.Running? && t.Running? && s.mode == t.mode == IdatMode && TraceOk(s) && t.flags.idat && t.flags.ihdr
    requires t.trace == s.trace && t.colorType == s.colorType && t.flags.plte == s.flags.plte
    ensures TraceOk(t.(idatSize := t.pushLength, trace := s.trace + [IdatBegin(t.pushLength)]))
    ensures TraceOk(t.(mode := ChunkMode))
  {
    var e := IdatBegin(t.pushLength);
    IdatKeepsTrace(s, e, t.(idatSize := t.pushLength, trace := s.trace + [e]));
    hide ImageBlock;
  }

  lemma DataKeepsTrace(cfg: Config, s: State, q: seq<byte>)
    requires s.Running? && s.mode == IdatMode && s.flags.header && FlagsOk(s) && TraceOk(s) && TraceOk(Fail(s))
    requires Step(cfg, s, q).Go?
    ensures TraceOk(Step(cfg, s, q).s)
  {
    var t := Step(cfg, s, q).s;
    assert s.flags.ihdr && s.flags.idat;
    hide TraceOk;
    if s.idatSize > 0 {
      IdatKeepsTrace(s, IdatByte(q[0]), t);
    } else if t.Running? {
      IdatKeepsTrace(s, IdatEnd(q[..4]), t);
    }
  }

  lemma DoneKeepsTrace(cfg: Config, s: State, q: seq<byte>)
    requires s.Running? && s.mode == ChunkMode && s.flags.header && Step(cfg, s, q).Go?
    requires TraceOk(Fail(s)) && (Step(cfg, s, q).s.Running? ==> TraceOk(Step(cfg, s, q).s))
    ensures TraceOk(Step(cfg, s, q).s)
  {
    var t := Step(cfg, s, q).s;
    hide TraceOk, Textual, Ancillary, FatalCrc, Critical;
    assert t.Failed? ==> t == Fail(s);
  }

  lemma {:induction false} RunKeepsOrder(cfg: Config, s: State, q: seq<byte>)
    requires cfg.benignFatal && FlagsOk(s) && TraceOk(s)
    ensures FlagsOk(Run(cfg, s, q).0) && TraceOk(Run(cfg, s, q).0)
    decreases |q|
  {
    if s.Running? && s.mode != DoneMode && Step(cfg, s, q).Go? {
      StepKeepsFlags(cfg, s, q);
      StepKeepsTrace(cfg, s, q);
      RunKeepsOrder(cfg, Step(cfg, s, q).s, q[Step(cfg, s, q).n..]);
    }
  }

  /** Chunk ordering (section 4.3 of RFC 2083): with benign errors fatal, whatever bytes arrive, the image
      events form one block - the info callback once, then contiguous IDAT chunks - after an IHDR and, for
      a palette image, after a PLTE. */
  lemma ImageIsOneBlock(cfg: Config, sigBytes: nat, q: seq<byte>)
    requires cfg.benignFatal && sigBytes <= 8
    ensures WellOrdered(Run(cfg, Start(sigBytes), q).0.trace)
  {
    RunKeepsOrder(cfg, Start(sigBytes), q);
    var s := Run(cfg, Start(sigBytes), q).0;
    if s.Running? && s.flags.idat {
      var a: nat, b: nat :| ImageBlock(s.trace, a, b, s.colorType);
    }
  }

  /** The info callback happens at most once, and no IDAT event happens before it. */
  lemma InfoOnceBeforeData(cfg: Config, sigBytes: nat, q: seq<byte>, i: nat, j: nat)
    requires cfg.benignFatal && sigBytes <= 8
    requires var t := Run(cfg, Start(sigBytes), q).0.trace; i < |t| && j < |t| && t[i].Info? && IsImage(t[j])
    ensures var t := Run(cfg, Start(sigBytes), q).0.trace; j == i || (i < j && IsIdat(t[j]))
  {
    ImageIsOneBlock(cfg, sigBytes, q);
    var t := Run(cfg, Start(sigBytes), q).0.trace;
    assert IsImage(t[i]);
    var a: nat, b: nat, c: byte :| ImageBlock(t, a, b, c);
    assert forall k :: 0 <= k < a ==> t[k] == t[..a][k];
    assert forall k :: b <= k < |t| ==> t[k] == t[b..][k - b];
  }
}
