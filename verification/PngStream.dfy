/** What the push-mode PNG reader computes, as a machine over the queue of bytes not yet consumed.

    Each step takes one indivisible item off the queue: a signature byte, an 8-byte chunk header,
    a whole chunk body with its CRC, one byte of image data, or the CRC that ends an IDAT chunk.
    Run repeats steps until the queue is too short for the next item.  The reader itself
    (PngPushReader) takes larger bites, and is proved to land where Run lands. */
module PngStream {
  import opened Common

  datatype Mode = SigMode | ChunkMode | IdatMode | SkipMode | DoneMode

  /** What the application and the decompressor get to see, in order. */
  datatype Event =
    | Chunk(name: nat, body: seq<byte>, crc: seq<byte>)
    | Info
    | IdatBegin(length: nat)
    | IdatByte(b: byte)
    | IdatEnd(crc: seq<byte>)
    | End

  /** The PNG_HAVE_* and PNG_AFTER_IDAT bits of png_struct.mode. */
  datatype Flags = Flags(
    ihdr: bool, plte: bool, idat: bool, afterIdat: bool, iend: bool, header: bool, chunkAfterIdat: bool)

  datatype InflateStatus = More | Finished | Broken

  /** Parts whose bodies are outside the model: the CRC comparison, validation of the IHDR fields, the
      bodies of the ancillary handlers, zlib, and whether benign errors are fatal (the default). */
  datatype Config = Config(
    crcOk: (seq<byte>, seq<byte>) -> bool,
    ihdrOk: seq<byte> -> bool,
    ancillaryOk: (seq<Event>, nat, seq<byte>) -> bool,
    inflate: seq<byte> -> InflateStatus,
    benignFatal: bool)

  datatype State =
    | Failed(trace: seq<Event>)
    | Running(mode: Mode, sigBytes: nat, flags: Flags, name: nat, pushLength: nat, idatSize: nat,
              skipLength: nat, colorType: byte, crc: seq<byte>, zin: seq<byte>, trace: seq<Event>)

  const UINT_31_MAX := 0x7fff_ffff
  const SIGNATURE: seq<byte> := [137, 80, 78, 71, 13, 10, 26, 10]
  const COLOR_TYPE_PALETTE := 3

  function Tag(b1: byte, b2: byte, b3: byte, b4: byte): nat {
    ((b1 * 256 + b2) * 256 + b3) * 256 + b4
  }

  function Be32(b: seq<byte>): nat
    requires |b| == 4
  {
    Tag(b[0], b[1], b[2], b[3])
  }

  const IHDR := Tag(73, 72, 68, 82)
  const IDAT := Tag(73, 68, 65, 84)
  const IEND := Tag(73, 69, 78, 68)
  const PLTE := Tag(80, 76, 84, 69)

  /** tIME, tEXt, zTXt and iTXt, whose handlers also note that the image data is over. */
  predicate Textual(name: nat) {
    || name == Tag(116, 73, 77, 69) || name == Tag(116, 69, 88, 116)
    || name == Tag(122, 84, 88, 116) || name == Tag(105, 84, 88, 116)
  }

  /** The chunks with a handler of their own: gAMA sBIT cHRM sRGB iCCP sPLT tRNS bKGD hIST pHYs oFFs pCAL
      sCAL and the textual ones. */
  predicate Ancillary(name: nat) {
    || Textual(name)
    || name == Tag(103, 65, 77, 65) || name == Tag(115, 66, 73, 84) || name == Tag(99, 72, 82, 77)
    || name == Tag(115, 82, 71, 66) || name == Tag(105, 67, 67, 80) || name == Tag(115, 80, 76, 84)
    || name == Tag(116, 82, 78, 83) || name == Tag(98, 75, 71, 68) || name == Tag(104, 73, 83, 84)
    || name == Tag(112, 72, 89, 115) || name == Tag(111, 70, 70, 115) || name == Tag(112, 67, 65, 76)
    || name == Tag(115, 67, 65, 76)
  }

  /** Bit 29 of the packed name, bit 5 of its first letter. */
  predicate Critical(name: nat) { name / 0x2000_0000 % 2 == 0 }

  predicate Letter(c: nat) { 65 <= c <= 122 && !(90 < c < 97) }

  predicate NameOk(name: nat, letters: nat := 4) {
    letters == 0 || (Letter(name % 256) && NameOk(name / 256, letters - 1))
  }

  function Fail(s: State): State { Failed(s.trace) }

  /** A fresh reader that has already been shown sigBytes bytes of the signature. */
  function Start(sigBytes: nat): State {
    Running(SigMode, sigBytes, Flags(false, false, false, false, false, false, false),
            0, 0, 0, 0, 0, [], [], [])
  }

  // --- Chunk handlers ---------------------------------------------------------------------------

  predicate FatalCrc(cfg: Config, name: nat, fed: seq<byte>, stored: seq<byte>) {
    Critical(name) && !cfg.crcOk(fed, stored) && cfg.benignFatal
  }

  /** Any chunk that is taken whole leaves its event and clears the pending header. */
  function Taken(s: State, body: seq<byte>, crc: seq<byte>): State
    requires s.Running?
  {
    s.(trace := s.trace + [Chunk(s.name, body, crc)], crc := s.crc + body, flags := s.flags.(header := false))
  }

  function DoneIHDR(cfg: Config, s: State, body: seq<byte>, crc: seq<byte>): State
    requires s.Running?
  {
    if s.flags.ihdr || FatalCrc(cfg, s.name, s.crc + body, crc) || |body| != 13 || !cfg.ihdrOk(body) then Fail(s)
    else var t := Taken(s, body, crc); t.(flags := t.flags.(ihdr := true), colorType := body[9])
  }

  function DoneIEND(cfg: Config, s: State, body: seq<byte>, crc: seq<byte>): State
    requires s.Running?
  {
    if !s.flags.ihdr || !s.flags.idat || FatalCrc(cfg, s.name, s.crc + body, crc) then Fail(s)
    else
      var t := Taken(s, body, crc);
      t.(flags := t.flags.(afterIdat := true, iend := true), mode := DoneMode, trace := t.trace + [End])
  }

  function DonePLTE(cfg: Config, s: State, body: seq<byte>, crc: seq<byte>): State
    requires s.Running?
  {
    var t := Taken(s, body, crc);
    if !s.flags.ihdr || FatalCrc(cfg, s.name, s.crc + body, crc) then Fail(s)
    else if s.flags.idat then t
    else if s.flags.plte then Fail(s)
    else if s.colorType == COLOR_TYPE_PALETTE && (|body| > 768 || |body| % 3 != 0) then Fail(s)
    else t.(flags := t.flags.(plte := true))
  }

  function DoneAncillary(cfg: Config, s: State, body: seq<byte>, crc: seq<byte>): State
    requires s.Running?
  {
    if !s.flags.ihdr || !cfg.ancillaryOk(s.trace, s.name, body) then Fail(s)
    else
      var t := Taken(s, body, crc);
      t.(flags := t.flags.(afterIdat := s.flags.afterIdat || (s.flags.idat && Textual(s.name))))
  }

  function DoneUnknown(s: State, body: seq<byte>, crc: seq<byte>): State
    requires s.Running?
  {
    if Critical(s.name) then Fail(s)
    else var t := Taken(s, body, crc); t.(flags := t.flags.(afterIdat := s.flags.afterIdat || s.flags.idat))
  }

  /** A complete chunk other than IDAT: body and stored CRC are in hand. */
  function ChunkDone(cfg: Config, s: State, body: seq<byte>, crc: seq<byte>): State
    requires s.Running?
  {
    if s.name == IHDR then DoneIHDR(cfg, s, body, crc)
    else if s.name == IEND then DoneIEND(cfg, s, body, crc)
    else if s.name == PLTE then DonePLTE(cfg, s, body, crc)
    else if Ancillary(s.name) then DoneAncillary(cfg, s, body, crc)
    else DoneUnknown(s, body, crc)
  }

  /** An IDAT header met in chunk mode: start the image, or refuse. */
  function BeginImage(cfg: Config, s: State): State
    requires s.Running?
  {
    var f := s.flags;
    if !f.ihdr || (s.colorType == COLOR_TYPE_PALETTE && !f.plte) then Fail(s)
    else if f.idat && f.afterIdat && cfg.benignFatal then Fail(s)
    else s.(mode := IdatMode, idatSize := s.pushLength,
            flags := f.(idat := true, chunkAfterIdat := f.chunkAfterIdat || f.afterIdat),
            trace := s.trace + [Info, IdatBegin(s.pushLength)])
  }

  /** One byte of IDAT data: through the CRC and into the decompressor, which takes no more once finished. */
  function Sink(cfg: Config, s: State, b: byte): State
    requires s.Running? && s.idatSize > 0
  {
    var zin := if cfg.inflate(s.zin) == Finished then s.zin else s.zin + [b];
    var t := s.(idatSize := s.idatSize - 1, crc := s.crc + [b], zin := zin,
                trace := s.trace + [IdatByte(b)]);
    if cfg.inflate(s.zin) != Finished && cfg.inflate(zin) == Broken then Fail(t) else t
  }

  function ReadHeader(cfg: Config, s: State, q: seq<byte>): State
    requires s.Running? && |q| >= 8
  {
    var length, name := Be32(q[..4]), Be32(q[4..8]);
    var t := s.(pushLength := length, name := name, crc := q[4..8], flags := s.flags.(header := true));
    if length > UINT_31_MAX then Fail(s)
    else if s.mode == IdatMode then
      if name == IDAT then t.(idatSize := length, trace := s.trace + [IdatBegin(length)])
      else if cfg.inflate(s.zin) == Finished then t.(mode := ChunkMode)
      else Fail(s)
    else if !NameOk(name) then Fail(s)
    else if name == IDAT then BeginImage(cfg, t)
    else if name == IHDR && length != 13 then Fail(s)
    else t
  }

  /** The CRC that ends an IDAT chunk, or a skipped one. */
  function ReadCrc(cfg: Config, s: State, crc: seq<byte>): State
    requires s.Running?
  {
    if FatalCrc(cfg, s.name, s.crc, crc) then Fail(s)
    else if s.mode == SkipMode then s.(mode := ChunkMode)
    else s.(flags := s.flags.(header := false, afterIdat := true), trace := s.trace + [IdatEnd(crc)])
  }

  // --- The machine ------------------------------------------------------------------------------

  datatype StepResult = Stall | Go(n: nat, s: State)

  function Step(cfg: Config, s: State, q: seq<byte>): (r: StepResult)
    requires s.Running?
    ensures r.Go? ==> 1 <= r.n <= |q|
  {
    match s.mode
    case SigMode =>
      if |q| < 1 then Stall
      else if s.sigBytes < 8 && q[0] == SIGNATURE[s.sigBytes] then
        Go(1, s.(sigBytes := s.sigBytes + 1, mode := if s.sigBytes == 7 then ChunkMode else SigMode))
      else Go(1, Fail(s))
    case ChunkMode =>
      if !s.flags.header then
        if |q| < 8 then Stall else Go(8, ReadHeader(cfg, s, q))
      else if s.name == IDAT || |q| < 1 then Stall
      else if s.name == IHDR && s.pushLength != 13 then Go(1, Fail(s))
      else if |q| < s.pushLength + 4 then Stall
      else Go(s.pushLength + 4, ChunkDone(cfg, s, q[..s.pushLength], q[s.pushLength..s.pushLength + 4]))
    case IdatMode =>
      if !s.flags.header then
        if |q| < 8 then Stall else Go(8, ReadHeader(cfg, s, q))
      else if s.idatSize > 0 then
        if |q| < 1 then Stall else Go(1, Sink(cfg, s, q[0]))
      else if |q| < 4 then Stall else Go(4, ReadCrc(cfg, s, q[..4]))
    case SkipMode =>
      if s.skipLength > 0 then
        if |q| < 1 then Stall
        else Go(1, s.(skipLength := s.skipLength - 1, crc := s.crc + [q[0]]))
      else if |q| < 4 then Stall else Go(4, ReadCrc(cfg, s, q[..4]))
    case DoneMode => Stall
  }

  /** Steps until the queue is too short; a reader that has finished or failed discards what it is given. */
  function Run(cfg: Config, s: State, q: seq<byte>): (State, seq<byte>)
    decreases |q|
  {
    if s.Failed? || s.mode == DoneMode then (s, [])
    else
      match Step(cfg, s, q)
      case Stall => (s, q)
      case Go(n, t) => Run(cfg, t, q[n..])
  }

  /** One call of png_process_data, given what was left pending. */
  function Feed(cfg: Config, sp: (State, seq<byte>), data: seq<byte>): (State, seq<byte>) {
    Run(cfg, sp.0, sp.1 + data)
  }

  function FeedAll(cfg: Config, sp: (State, seq<byte>), pieces: seq<seq<byte>>): (State, seq<byte>)
    decreases |pieces|
  {
    if pieces == [] then sp else FeedAll(cfg, Feed(cfg, sp, pieces[0]), pieces[1..])
  }

  function Concat(pieces: seq<seq<byte>>): seq<byte> {
    if pieces == [] then [] else pieces[0] + Concat(pieces[1..])
  }

  // --- Fragmentation independence ---------------------------------------------------------------

  /** Bytes that arrive later do not change a step that could already be taken. */
  lemma StepIgnoresLaterBytes(cfg: Config, s: State, q: seq<byte>, more: seq<byte>)
    requires s.Running? && Step(cfg, s, q).Go?
    ensures Step(cfg, s, q + more) == Step(cfg, s, q)
  {
    var n := Step(cfg, s, q).n;
    assert (q + more)[..n] == q[..n];
    if n >= 8 {
      assert (q + more)[..4] == q[..4] && (q + more)[4..8] == q[4..8];
    }
    if n == s.pushLength + 4 {
      assert (q + more)[..n - 4] == q[..n - 4];
      assert (q + more)[n - 4..n] == q[n - 4..n];
    }
  }

  /** Running on what has arrived, then on the rest, is running on everything at once. */
  lemma {:induction false} RunSplit(cfg: Config, s: State, q: seq<byte>, more: seq<byte>)
    ensures Run(cfg, s, q + more) == Feed(cfg, Run(cfg, s, q), more)
    decreases |q|
  {
    if s.Running? && s.mode != DoneMode {
      match Step(cfg, s, q) {
        case Stall =>
        case Go(n, t) =>
          StepIgnoresLaterBytes(cfg, s, q, more);
          assert (q + more)[n..] == q[n..] + more;
          RunSplit(cfg, t, q[n..], more);
      }
    }
  }

  /** What a run leaves pending is exactly what it could not use. */
  lemma {:induction false} RunIsSettled(cfg: Config, s: State, q: seq<byte>)
    ensures Feed(cfg, Run(cfg, s, q), []) == Run(cfg, s, q)
  {
    RunSplit(cfg, s, q, []);
    assert q + [] == q;
  }

  lemma {:induction false} FeedAllIsRun(cfg: Config, s: State, p: seq<byte>, pieces: seq<seq<byte>>)
    requires Run(cfg, s, p) == (s, p)
    ensures FeedAll(cfg, (s, p), pieces) == Run(cfg, s, p + Concat(pieces))
    decreases |pieces|
  {
    hide Run;
    if pieces == [] {
      assert p + Concat(pieces) == p;
    } else {
      var q, rest := p + pieces[0], Concat(pieces[1..]);
      var (s', p') := Run(cfg, s, q);
      RunIsSettled(cfg, s, q);
      assert p' + [] == p';
      FeedAllIsRun(cfg, s', p', pieces[1..]);
      RunSplit(cfg, s, q, rest);
      assert q + rest == p + Concat(pieces);
    }
  }

  /** However a byte stream is cut into calls, the reader ends in the same state - same events, same
      decompressor input, same error or not - with the same bytes pending. */
  lemma {:induction false} FragmentationIndependence(
      cfg: Config, sigBytes: nat, cut1: seq<seq<byte>>, cut2: seq<seq<byte>>)
    requires Concat(cut1) == Concat(cut2)
    ensures FeedAll(cfg, (Start(sigBytes), []), cut1) == FeedAll(cfg, (Start(sigBytes), []), cut2)
  {
    FeedAllIsRun(cfg, Start(sigBytes), [], cut1);
    FeedAllIsRun(cfg, Start(sigBytes), [], cut2);
  }
}
