/** The order of all the chunks that a run of the reader reports (section 4.3 of RFC 2083): what may come before IHDR,
    how often PLTE may come before the image, and how a stream ends. */
module PngChunkOrder {
  import opened Common
  import opened PngStream
  import opened PngOrder

  predicate IsHeader(e: Event) { e.Chunk? && e.name == IHDR }

  predicate IsPalette(e: Event) { e.Chunk? && e.name == PLTE }

  predicate IsLast(e: Event) { e.End? || (e.Chunk? && e.name == IEND) }

  /** An ancillary chunk that the reader does not know. */
  predicate Stranger(e: Event) { e.Chunk? && !Critical(e.name) && !Ancillary(e.name) }

  ghost predicate Strangers(t: seq<Event>) { forall i :: 0 <= i < |t| ==> Stranger(t[i]) }

  /** The only IHDR is at h, and only strangers come before it. */
  ghost predicate HeaderAt(t: seq<Event>, h: nat) {
    h < |t| && IsHeader(t[h]) && Strangers(t[..h]) && forall i :: h < i < |t| ==> !IsHeader(t[i])
  }

  ghost predicate HeaderLeads(t: seq<Event>) { Strangers(t) || exists h: nat :: HeaderAt(t, h) }

  ghost predicate NoPalette(t: seq<Event>) { forall i :: 0 <= i < |t| ==> !IsPalette(t[i]) }

  /** Before the image there is at most one palette. */
  ghost predicate PaletteOnce(t: seq<Event>) {
    forall j :: 0 <= j < |t| && IsPalette(t[j]) ==> NoPalette(t[..j]) || !NoImage(t[..j])
  }

  ghost predicate Unended(t: seq<Event>) { forall i :: 0 <= i < |t| ==> !IsLast(t[i]) }

  /** The IEND chunk and the end are last, and nowhere else. */
  ghost predicate Closed(t: seq<Event>) {
    |t| >= 2 && Unended(t[..|t| - 2]) && t[|t| - 2].Chunk? && t[|t| - 2].name == IEND && t[|t| - 1] == End
  }

  /** What every reachable state keeps. */
  ghost predicate LayoutOk(s: State) {
    && PaletteOnce(s.trace)
    && (if s.Failed? then HeaderLeads(s.trace) && Unended(s.trace)
        else
          && (if s.flags.ihdr then exists h: nat :: HeaderAt(s.trace, h) else Strangers(s.trace))
          && (if s.flags.idat then !NoImage(s.trace) else !s.flags.plte ==> NoPalette(s.trace))
          && (if s.mode == DoneMode then Closed(s.trace) && s.flags.idat else Unended(s.trace)))
  }

  // --- One more event ---------------------------------------------------------------------------

  lemma HeaderStays(t: seq<Event>, h: nat, e: Event)
    requires HeaderAt(t, h) && !IsHeader(e)
    ensures HeaderAt(t + [e], h)
  {
    assert (t + [e])[..h] == t[..h];
  }

  lemma HeaderComes(t: seq<Event>, e: Event)
    requires Strangers(t)
    ensures Stranger(e) ==> Strangers(t + [e])
    ensures IsHeader(e) ==> HeaderAt(t + [e], |t|)
  {
    assert (t + [e])[..|t|] == t;
    hide Ancillary, Critical;
  }

  lemma PaletteStays(t: seq<Event>, e: Event)
    requires PaletteOnce(t) && (IsPalette(e) ==> NoPalette(t) || !NoImage(t))
    ensures PaletteOnce(t + [e])
    ensures NoPalette(t) && !IsPalette(e) ==> NoPalette(t + [e])
  {
    var u := t + [e];
    forall j | 0 <= j < |u| && IsPalette(u[j]) ensures NoPalette(u[..j]) || !NoImage(u[..j]) {
      assert u[..j] == t[..j];
      if j == |t| { assert t[..j] == t; }
    }
  }

  lemma ImageStays(t: seq<Event>, e: Event)
    ensures !NoImage(t) || IsImage(e) ==> !NoImage(t + [e])
  {
    var u := t + [e];
    if !NoImage(t) {
      var i :| 0 <= i < |t| && IsImage(t[i]);
      assert IsImage(u[i]);
    }
    if IsImage(e) { assert IsImage(u[|t|]); }
  }

  /** An event that is no header, palette or end, behind the header. */
  lemma PlainEvent(s: State, e: Event, t: State)
    requires s.Running? && s.mode != DoneMode && LayoutOk(s) && t.trace == s.trace + [e]
    requires !IsHeader(e) && !IsPalette(e) && !IsLast(e) && s.flags.ihdr
    requires t.Running? ==> t.mode != DoneMode && t.flags.ihdr && (s.flags.plte ==> t.flags.plte)
    requires t.Running? ==> if IsImage(e) then t.flags.idat else t.flags.idat == s.flags.idat
    ensures LayoutOk(t)
  {
    var h: nat :| HeaderAt(s.trace, h);
    HeaderStays(s.trace, h, e);
    PaletteStays(s.trace, e);
    ImageStays(s.trace, e);
    hide HeaderAt, PaletteOnce, Strangers, NoImage, NoPalette;
  }

  // --- Steps ------------------------------------------------------------------------------------

  lemma FailKeepsLayout(s: State)
    requires s.Running? && s.mode != DoneMode && LayoutOk(s)
    ensures LayoutOk(Fail(s))
  {
    hide HeaderAt, PaletteOnce, Strangers, NoImage, NoPalette;
  }

  /** When a chunk is taken. Before IHDR that is exactly when it is IHDR itself or a stranger. */
  lemma ChunkTaken(cfg: Config, s: State, body: seq<byte>, crc: seq<byte>)
    requires s.Running?
    ensures var t := ChunkDone(cfg, s, body, crc);
            t.Running? ==>
              && (s.name == PLTE ==> s.flags.ihdr && (s.flags.idat || (!s.flags.plte && t.flags.plte)))
              && (s.name == IEND ==> s.flags.ihdr && s.flags.idat)
              && (s.name != PLTE ==> t.flags.plte == s.flags.plte)
              && t.flags.ihdr == (s.flags.ihdr || s.name == IHDR)
    ensures !s.flags.ihdr && s.name != IHDR ==>
              (ChunkDone(cfg, s, body, crc).Running? <==> Stranger(Chunk(s.name, body, crc)))
  {
    CriticalNames();
    hide Textual, FatalCrc;
  }

  lemma CriticalNames()
    ensures Critical(PLTE) && Critical(IEND) && Critical(IHDR)
  {
  }

  lemma LastEvents(t: seq<Event>, e: Event)
    requires Unended(t) && e.Chunk? && e.name == IEND
    ensures Closed(t + [e] + [End])
  {
    assert (t + [e] + [End])[..|t|] == t;
  }

  lemma ChunkKeepsLayout(cfg: Config, s: State, body: seq<byte>, crc: seq<byte>)
    requires s.Running? && s.mode == ChunkMode && LayoutOk(s)
    ensures LayoutOk(ChunkDone(cfg, s, body, crc))
  {
    var t := ChunkDone(cfg, s, body, crc);
    FailKeepsLayout(s);
    ChunkRefused(cfg, s, body, crc);
    if t.Running? {
      ChunkTaken(cfg, s, body, crc);
      ChunkAddsEvent(cfg, s, body, crc);
      CriticalNames();
      hide ChunkDone, LayoutOk;
      TakenKeepsLayout(s, t, Chunk(s.name, body, crc));
    }
  }

  lemma ChunkRefused(cfg: Config, s: State, body: seq<byte>, crc: seq<byte>)
    requires s.Running?
    ensures ChunkDone(cfg, s, body, crc).Failed? ==> ChunkDone(cfg, s, body, crc) == Fail(s)
  {
    hide Textual, Ancillary, FatalCrc, Critical;
  }

  lemma TakenKeepsLayout(s: State, t: State, e: Event)
    requires s.Running? && s.mode == ChunkMode && LayoutOk(s) && t.Running? && e.Chunk? && e.name == s.name
    requires t.trace == s.trace + (if s.name == IEND then [e, End] else [e])
    requires t.flags.idat == s.flags.idat && t.mode == (if s.name == IEND then DoneMode else s.mode)
    requires s.name == IHDR ==> !s.flags.ihdr
    requires s.name == PLTE ==> s.flags.ihdr && (s.flags.idat || (!s.flags.plte && t.flags.plte))
    requires s.name == IEND ==> s.flags.ihdr && s.flags.idat
    requires s.name != PLTE ==> t.flags.plte == s.flags.plte
    requires t.flags.ihdr == (s.flags.ihdr || s.name == IHDR)
    requires !s.flags.ihdr && s.name != IHDR ==> Stranger(e)
    ensures LayoutOk(t)
  {
    HeaderFollows(s, e);
    PaletteStays(s.trace, e);
    ImageStays(s.trace, e);
    if s.name == IEND {
      EndFollows(s.trace, e, s.trace + [e]);
    }
    NamesDiffer();
    hide HeaderAt, PaletteOnce, Strangers, NoImage, NoPalette, Closed, Stranger;
  }

  lemma NamesDiffer()
    ensures IHDR != PLTE && IHDR != IEND && PLTE != IEND
  {
  }

  /** Where the header stands after one more chunk. */
  lemma HeaderFollows(s: State, e: Event)
    requires s.Running? && LayoutOk(s) && e.Chunk? && (IsHeader(e) ==> !s.flags.ihdr)
    requires s.flags.ihdr || IsHeader(e) || Stranger(e)
    ensures if s.flags.ihdr || IsHeader(e) then exists h: nat :: HeaderAt(s.trace + [e], h)
            else Strangers(s.trace + [e])
  {
    if s.flags.ihdr {
      var h: nat :| HeaderAt(s.trace, h);
      HeaderStays(s.trace, h, e);
    } else {
      HeaderComes(s.trace, e);
    }
    hide HeaderAt, PaletteOnce, Strangers, NoImage, NoPalette, Stranger;
  }

  /** The End behind an IEND chunk. */
  lemma EndFollows(t: seq<Event>, e: Event, u: seq<Event>)
    requires u == t + [e] && Unended(t) && e.Chunk? && e.name == IEND
    ensures Closed(u + [End]) && u + [End] == t + [e, End]
    ensures PaletteOnce(u) ==> PaletteOnce(u + [End])
    ensures (exists h: nat :: HeaderAt(u, h)) ==> exists h: nat :: HeaderAt(u + [End], h)
    ensures !NoImage(u) ==> !NoImage(u + [End])
  {
    LastEvents(t, e);
    if exists h: nat :: HeaderAt(u, h) {
      var h: nat :| HeaderAt(u, h);
      HeaderStays(u, h, End);
    }
    if PaletteOnce(u) { PaletteStays(u, End); }
    ImageStays(u, End);
    hide HeaderAt, PaletteOnce, NoImage, NoPalette, Closed;
  }

  lemma BeginKeepsLayout(cfg: Config, s: State)
    requires s.Running? && s.mode == ChunkMode && LayoutOk(s)
    ensures LayoutOk(BeginImage(cfg, s))
  {
    FailKeepsLayout(s);
    hide LayoutOk;
    if BeginImage(cfg, s).Running? {
      var u := s.(trace := s.trace + [Info], flags := s.flags.(idat := true));
      PlainEvent(s, Info, u);
      assert s.trace + [Info] + [IdatBegin(s.pushLength)] == s.trace + [Info, IdatBegin(s.pushLength)];
      PlainEvent(u, IdatBegin(s.pushLength), BeginImage(cfg, s));
    }
  }

  lemma StepKeepsLayout(cfg: Config, s: State, q: seq<byte>)
    requires s.Running? && FlagsOk(s) && LayoutOk(s) && Step(cfg, s, q).Go?
    ensures LayoutOk(Step(cfg, s, q).s)
  {
    FailKeepsLayout(s);
    hide LayoutOk, ChunkDone, ReadHeader, Sink, ReadCrc, FlagsOk;
    if s.flags.header && s.mode == IdatMode {
      DataKeepsLayout(cfg, s, q);
    } else if s.mode in {ChunkMode, IdatMode} && !s.flags.header {
      HeaderKeepsLayout(cfg, s, q);
    } else if s.mode == ChunkMode {
      if |q| >= s.pushLength + 4 {
        ChunkKeepsLayout(cfg, s, q[..s.pushLength], q[s.pushLength..s.pushLength + 4]);
      }
    } else {
      OtherKeepsLayout(cfg, s, q);
    }
  }

  lemma OtherKeepsLayout(cfg: Config, s: State, q: seq<byte>)
    requires s.Running? && s.mode in {SigMode, SkipMode} && LayoutOk(s) && LayoutOk(Fail(s)) && Step(cfg, s, q).Go?
    ensures LayoutOk(Step(cfg, s, q).s)
  {
    hide HeaderAt, PaletteOnce, Strangers, NoImage, NoPalette;
  }

  lemma DataKeepsLayout(cfg: Config, s: State, q: seq<byte>)
    requires s.Running? && s.mode == IdatMode && s.flags.header && FlagsOk(s) && LayoutOk(s) && LayoutOk(Fail(s))
    requires Step(cfg, s, q).Go?
    ensures LayoutOk(Step(cfg, s, q).s)
  {
    var t := Step(cfg, s, q).s;
    assert s.flags.ihdr && s.flags.idat;
    hide LayoutOk;
    if s.idatSize > 0 {
      PlainEvent(s, IdatByte(q[0]), t);
    } else if t.Running? {
      PlainEvent(s, IdatEnd(q[..4]), t);
    }
  }

  lemma HeaderNoted(s: State, t: State)
    requires s.Running? && t.Running? && s.mode != DoneMode && t.mode != DoneMode && LayoutOk(s)
    requires t.trace == s.trace && t.flags == s.flags.(header := true)
    ensures LayoutOk(t)
  {
    hide HeaderAt, PaletteOnce, Strangers, NoImage, NoPalette;
  }

  lemma HeaderKeepsLayout(cfg: Config, s: State, q: seq<byte>)
    requires s.Running? && FlagsOk(s) && LayoutOk(s) && LayoutOk(Fail(s)) && |q| >= 8
    requires s.mode in {ChunkMode, IdatMode} && !s.flags.header
    ensures LayoutOk(ReadHeader(cfg, s, q))
  {
    var t := s.(pushLength := Be32(q[..4]), name := Be32(q[4..8]), crc := q[4..8], flags := s.flags.(header := true));
    assert s.mode == IdatMode ==> s.flags.ihdr && s.flags.idat;
    hide Be32, NameOk, LayoutOk, FlagsOk, BeginImage;
    HeaderNoted(s, t);
    HeaderNoted(s, t.(mode := ChunkMode));
    if s.mode == IdatMode {
      var e := IdatBegin(t.pushLength);
      PlainEvent(s, e, t.(idatSize := t.pushLength, trace := s.trace + [e]));
    } else {
      BeginKeepsLayout(cfg, t);
    }
  }

  lemma {:induction false} RunKeepsLayout(cfg: Config, s: State, q: seq<byte>)
    requires FlagsOk(s) && LayoutOk(s)
    ensures LayoutOk(Run(cfg, s, q).0)
    decreases |q|
  {
    hide FlagsOk, LayoutOk, Step;
    if s.Running? && s.mode != DoneMode && Step(cfg, s, q).Go? {
      StepKeepsFlags(cfg, s, q);
      StepKeepsLayout(cfg, s, q);
      RunKeepsLayout(cfg, Step(cfg, s, q).s, q[Step(cfg, s, q).n..]);
    }
  }

  // --- Runs -------------------------------------------------------------------------------------

  /** Everything that section 4.3 of RFC 2083 says of the critical chunks, for a stream that is not refused, and all
      that has been reported of one that is: IHDR once, and first but for chunks the reader does not know; PLTE
      at most once before the image; the end exactly when the reader is done, behind the IEND chunk and with nothing
      after. */
  ghost predicate InLayout(s: State) {
    && HeaderLeads(s.trace) && PaletteOnce(s.trace)
    && (if s.Running? && s.mode == DoneMode then Closed(s.trace) else Unended(s.trace))
  }

  lemma ChunksAreOrdered(cfg: Config, sigBytes: nat, q: seq<byte>)
    requires sigBytes <= 8
    ensures InLayout(Run(cfg, Start(sigBytes), q).0)
  {
    RunKeepsLayout(cfg, Start(sigBytes), q);
    hide HeaderAt, PaletteOnce, Strangers, NoImage, NoPalette, Run, Closed, Unended;
  }

  /** A stream that has ended has had its image: one info callback, and its block of IDAT chunks. */
  lemma EndedHasImage(cfg: Config, sigBytes: nat, q: seq<byte>) returns (a: nat, b: nat, c: byte)
    requires cfg.benignFatal && sigBytes <= 8
    requires var s := Run(cfg, Start(sigBytes), q).0; s.Running? && s.mode == DoneMode
    ensures ImageBlock(Run(cfg, Start(sigBytes), q).0.trace, a, b, c)
  {
    var s := Run(cfg, Start(sigBytes), q).0;
    RunKeepsLayout(cfg, Start(sigBytes), q);
    RunKeepsOrder(cfg, Start(sigBytes), q);
    hide ImageBlock, Run;
    c := s.colorType;
    a, b :| ImageBlock(s.trace, a, b, s.colorType);
  }
}
