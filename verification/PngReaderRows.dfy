/** The rows of a whole stream: from the bytes the push reader receives, through zlib, to the row callbacks. */
module PngReaderRows {
  import opened Common
  import opened PngStream
  import PngPushReader
  import PngImageData

  /** The image data that has been reported, byte by byte. */
  function IdatOf(trace: seq<Event>): seq<byte> {
    if trace == [] then []
    else IdatOf(trace[..|trace| - 1]) + (match trace[|trace| - 1] case IdatByte(b) => [b] case _ => [])
  }

  lemma IdatMore(trace: seq<Event>, b: byte)
    ensures IdatOf(trace + [IdatByte(b)]) == IdatOf(trace) + [b]
  {
    assert (trace + [IdatByte(b)])[..|trace|] == trace;
  }

  /** What a stretch of image data adds to the report is itself: the reader hands on every byte, once and in order. */
  lemma {:induction false} SinkReports(cfg: Config, s: State, data: seq<byte>)
    requires s.Running? && |data| <= s.idatSize && PngPushReader.SinkAll(cfg, s, data).Running?
    ensures IdatOf(PngPushReader.SinkAll(cfg, s, data).trace) == IdatOf(s.trace) + data
    decreases |data|
  {
    if data != [] {
      IdatMore(s.trace, data[0]);
      assert Sink(cfg, s, data[0]).trace == s.trace + [IdatByte(data[0])];
      hide IdatOf, Sink;
      SinkReports(cfg, Sink(cfg, s, data[0]), data[1..]);
      assert IdatOf(s.trace) + [data[0]] + data[1..] == IdatOf(s.trace) + data;
    }
  }

  /** The rows handed on and the row callbacks depend only on the bytes received: however these were cut into calls of
      png_process_data, however the image data was then handed to zlib, and however zlib portioned what it put out. */
  lemma RowsDependOnBytes(p: PngPushReader.PngStruct, q: PngPushReader.PngStruct,
                          a: PngImageData.ImageReader, b: PngImageData.ImageReader, z: seq<byte> -> (seq<byte>, bool))
    requires p.Valid() && q.Valid() && p.cfg == q.cfg && p.skipped == q.skipped && p.received == q.received
    requires a.Valid() && a.Tracked() && a.AtRest() && b.Valid() && b.Tracked() && b.AtRest()
    requires a.rows.im == b.rows.im && a.bits == b.bits && a.zlib == b.zlib && PngImageData.Streams(a.zlib, z)
    requires a.fed == IdatOf(p.trace) && b.fed == IdatOf(q.trace)
    ensures p.trace == q.trace && a.lines == b.lines && a.rows.trace == b.rows.trace
  {
    SameTrace(p, q);
    hide *;
    PngImageData.CutIndependence(a, b, z);
  }

  lemma SameTrace(p: PngPushReader.PngStruct, q: PngPushReader.PngStruct)
    requires p.Valid() && q.Valid() && p.cfg == q.cfg && p.skipped == q.skipped && p.received == q.received
    ensures p.trace == q.trace
  {
    p.AbsIs();
    q.AbsIs();
    hide Run;
  }
}
