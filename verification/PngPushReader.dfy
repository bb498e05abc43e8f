/** The push-mode PNG reader (libpng/pngpread.c): a two-part buffer - bytes saved from earlier calls, then
    the caller's current block - under a dispatch loop.  Every dispatch is proved to take the machine of
    PngStream some steps further along the queue "saved ++ current", and to shrink that queue. */
module PngPushReader {
  import opened Common
  import opened PngStream
  import opened PngOrder
  import opened PngChunkOrder

  // --- Several steps at once --------------------------------------------------------------------

  lemma FeedIs(cfg: Config, s: State, pending: seq<byte>, data: seq<byte>)
    ensures Feed(cfg, (s, pending), data) == Run(cfg, s, pending + data)
  {
  }

  lemma RunOnNothing(cfg: Config, s: State)
    ensures Run(cfg, s, []) == (s, [])
  {
  }

  lemma RunFailed(cfg: Config, s: State, q: seq<byte>)
    requires s.Failed?
    ensures Run(cfg, s, q) == (s, [])
  {
  }

  /** Signature bytes may be checked several at a time. */
  lemma {:induction false} RunSignature(cfg: Config, s: State, q: seq<byte>, n: nat)
    requires s.Running? && s.mode == SigMode && 0 < n <= |q| && s.sigBytes + n <= 8
    ensures if q[..n] == SIGNATURE[s.sigBytes..s.sigBytes + n] then
              Run(cfg, s, q) == Run(cfg, s.(sigBytes := s.sigBytes + n,
                                            mode := if s.sigBytes + n == 8 then ChunkMode else SigMode), q[n..])
            else Run(cfg, s, q) == (Fail(s), [])
    decreases n
  {
    hide *;
    SignatureLength();
    SignatureByte(cfg, s, q);
    SliceStep(q, 0, n);
    SliceStep(SIGNATURE, s.sigBytes, n);
    assert q[..n] == q[0..0 + n] && Fail(s) == Failed(s.trace) by { FailIs(s); }
    SameSlices(q[0], q[1..n], SIGNATURE[s.sigBytes], SIGNATURE[s.sigBytes + 1..s.sigBytes + n]);
    var t := s.(sigBytes := s.sigBytes + 1, mode := if s.sigBytes == 7 then ChunkMode else SigMode);
    if q[0] == SIGNATURE[s.sigBytes] && n > 1 {
      FailIs(t);
      assert q[1..][n - 1..] == q[n..] && q[1..][..n - 1] == q[1..n];
      RunSignature(cfg, t, q[1..], n - 1);
    }
  }

  lemma FailIs(s: State)
    ensures Fail(s) == Failed(s.trace)
  {
  }

  lemma SameSlices(a: byte, u: seq<byte>, b: byte, v: seq<byte>)
    ensures [a] + u == [b] + v <==> a == b && u == v
  {
    assert ([a] + u)[1..] == u && ([b] + v)[1..] == v && ([a] + u)[0] == a && ([b] + v)[0] == b;
  }

  lemma SignatureLength()
    ensures |SIGNATURE| == 8
  {
  }

  /** One signature byte. */
  lemma SignatureByte(cfg: Config, s: State, q: seq<byte>)
    requires s.Running? && s.mode == SigMode && q != [] && s.sigBytes < 8
    ensures Run(cfg, s, q) ==
              if q[0] == SIGNATURE[s.sigBytes] then
                Run(cfg, s.(sigBytes := s.sigBytes + 1, mode := if s.sigBytes == 7 then ChunkMode else SigMode), q[1..])
              else (Fail(s), [])
  {
  }

  lemma SliceStep(q: seq<byte>, from: nat, n: nat)
    requires 0 < n && from + n <= |q|
    ensures q[from..from + n] == [q[from]] + q[from + 1..from + n]
  {
  }

  /** A stretch of IDAT data, sunk byte by byte until it runs out or breaks the decompressor. */
  function SinkAll(cfg: Config, s: State, data: seq<byte>): State
    requires s.Running? ==> |data| <= s.idatSize
    decreases |data|
  {
    if s.Failed? || data == [] then s else SinkAll(cfg, Sink(cfg, s, data[0]), data[1..])
  }

  lemma {:induction false} RunIdatData(cfg: Config, s: State, q: seq<byte>, n: nat)
    requires s.Running? ==> s.mode == IdatMode && s.flags.header && n <= s.idatSize
    requires n <= |q|
    ensures var t := SinkAll(cfg, s, q[..n]);
            Run(cfg, s, q) == if t.Failed? then (t, []) else Run(cfg, t, q[n..])
    decreases n
  {
    if s.Running? && n > 0 {
      RunIdatData(cfg, Sink(cfg, s, q[0]), q[1..], n - 1);
      assert q[1..][..n - 1] == q[..n][1..];
      assert q[1..][n - 1..] == q[n..];
    } else {
      assert n == 0 ==> q[n..] == q && q[..n] == [];
    }
  }

  /** Sinking changes the byte counts, the CRC, the decompressor and the trace, and nothing else. */
  lemma {:induction false} SinkAllFrame(cfg: Config, s: State, data: seq<byte>)
    requires s.Running? && |data| <= s.idatSize
    ensures var t := SinkAll(cfg, s, data);
            t.Running? ==> t == s.(idatSize := s.idatSize - |data|, crc := s.crc + data, zin := t.zin, trace := t.trace)
    decreases |data|
  {
    if data != [] {
      var u := Sink(cfg, s, data[0]);
      assert u.Running? ==>
          u == s.(idatSize := s.idatSize - 1, crc := s.crc + [data[0]], zin := u.zin, trace := u.trace);
      hide Sink;
      if u.Running? {
        SinkAllFrame(cfg, u, data[1..]);
        assert s.crc + [data[0]] + data[1..] == s.crc + data;
      }
    } else {
      assert s.crc + data == s.crc;
    }
  }

  lemma {:induction false} RunSkipped(cfg: Config, s: State, q: seq<byte>, n: nat)
    requires s.Running? && s.mode == SkipMode && n <= s.skipLength && n <= |q|
    ensures Run(cfg, s, q) == Run(cfg, s.(skipLength := s.skipLength - n, crc := s.crc + q[..n]), q[n..])
    decreases n
  {
    if n > 0 {
      RunSkipped(cfg, s.(skipLength := s.skipLength - 1, crc := s.crc + [q[0]]), q[1..], n - 1);
      assert s.crc + [q[0]] + q[1..][..n - 1] == s.crc + q[..n];
      assert q[1..][n - 1..] == q[n..];
    } else {
      assert s.crc + q[..0] == s.crc && q[0..] == q;
    }
  }

  lemma Copied(after: seq<byte>, before: seq<byte>, at: nat, q: seq<byte>, n: nat)
    requires n <= |q| && at + n <= |before| && after == before[..at] + q[..n] + before[at + n..]
    ensures Filled(after, before, at, Front(q, n)) && Back(q, n) == q[n..]
  {
  }

  lemma NothingFilled(b: seq<byte>, at: nat, q: seq<byte>)
    requires at <= |b|
    ensures Filled(b, b, at, Front(q, 0)) && q == Back(q, 0)
  {
  }

  lemma FilledPart(after: seq<byte>, before: seq<byte>, at: nat, n: nat, q: seq<byte>)
    requires at + n <= |before| && n <= |q| && after == before[..at] + q[..n] + before[at + n..]
    ensures |after| == |before| && after[at..at + n] == q[..n]
  {
  }

  lemma MinIs(a: nat, b: nat)
    ensures Min(a, b) == if a < b then a else b
  {
  }

  // The two parts of the queue, and the blocks they are copied to, are handled by these names.

  function Front(q: seq<byte>, n: nat): seq<byte> { if n <= |q| then q[..n] else q }

  function Back(q: seq<byte>, n: nat): seq<byte> { if n <= |q| then q[n..] else [] }

  function Join(a: seq<byte>, b: seq<byte>): seq<byte> { a + b }

  /** q has been written to the block at this place. */
  predicate Filled(after: seq<byte>, before: seq<byte>, at: nat, q: seq<byte>) {
    at + |q| <= |before| && after == before[..at] + q + before[at + |q|..]
  }

  lemma FilledTwice(before: seq<byte>, once: seq<byte>, twice: seq<byte>, at: nat, x: seq<byte>, y: seq<byte>)
    requires Filled(once, before, at, x) && Filled(twice, once, at + |x|, y)
    ensures Filled(twice, before, at, Join(x, y))
  {
    SumSlices(before[..at], x, before[at + |x|..], |y|);
    assert before[at + |x|..][|y|..] == before[at + |x + y|..];
    Regroup(before[..at], x, y, before[at + |x + y|..]);
  }

  lemma FilledIs(after: seq<byte>, before: seq<byte>, at: nat, q: seq<byte>, n: nat)
    requires n <= |q| && Filled(after, before, at, Front(q, n))
    ensures after == before[..at] + q[..n] + before[at + n..] && Back(q, n) == q[n..]
  {
  }

  /** Taking k bytes off one part and m off the next takes k + m off the two together. */
  lemma FillSplit(before: seq<byte>, once: seq<byte>, twice: seq<byte>, at: nat, length: nat,
                  saved: seq<byte>, current: seq<byte>, k: nat, m: nat)
    requires k == Min(length, |saved|) && m == Min(length - k, |current|)
    requires Filled(once, before, at, Front(saved, k)) && Filled(twice, once, at + k, Front(current, m))
    ensures k + m == Min(length, |Join(saved, current)|) <= |Join(saved, current)|
    ensures Filled(twice, before, at, Front(Join(saved, current), k + m))
    ensures Join(Back(saved, k), Back(current, m)) == Back(Join(saved, current), k + m)
  {
    hide *;
    MinIs(length, |saved|);
    MinIs(length - k, |current|);
    MinIs(length, |Join(saved, current)|);
    Lengths(saved, current, k);
    FilledTwice(before, once, twice, at, Front(saved, k), Front(current, m));
    QueueSplit(saved, current, k, m);
  }

  lemma Lengths(a: seq<byte>, b: seq<byte>, k: nat)
    ensures |Join(a, b)| == |a| + |b| && (k <= |a| ==> |Front(a, k)| == k && |Back(a, k)| == |a| - k)
  {
  }

  lemma QueueSplit(a: seq<byte>, b: seq<byte>, k: nat, m: nat)
    requires k <= |a| && m <= |b| && (k == |a| || m == 0)
    ensures Join(Front(a, k), Front(b, m)) == Front(Join(a, b), k + m)
    ensures Join(Back(a, k), Back(b, m)) == Back(Join(a, b), k + m)
  {
  }

  lemma SumSlices(a: seq<byte>, b: seq<byte>, c: seq<byte>, m: nat)
    requires m <= |c|
    ensures (a + b + c)[..|a| + |b|] == a + b && (a + b + c)[|a| + |b| + m..] == c[m..]
  {
  }

  lemma Regroup(a: seq<byte>, b: seq<byte>, c: seq<byte>, d: seq<byte>)
    ensures a + b + c + d == a + (b + c) + d
  {
  }

  lemma HeaderSlices(q: seq<byte>)
    requires 8 <= |q|
    ensures q[4..][..4] == q[4..8] && q[4..][4..] == q[8..]
  {
  }

  // --- Copying ----------------------------------------------------------------------------------

  /** png_memcpy between two different blocks. */
  method Memcpy(dst: array<byte>, at: nat, src: array<byte>, from: nat, n: nat)
    requires dst != src && at + n <= dst.Length && from + n <= src.Length
    modifies dst
    ensures dst[..] == old(dst[..])[..at] + src[from..from + n] + old(dst[..])[at + n..]
  {
    forall i | 0 <= i < n { dst[at + i] := src[from + i]; }
  }

  /** The forward copy loop of png_push_save_buffer; source and target may overlap. */
  method MoveToFront(a: array<byte>, from: nat, n: nat)
    requires from + n <= a.Length
    modifies a
    ensures a[..n] == old(a[from..from + n])
  {
    ghost var moved := a[from..from + n];
    var i := 0;
    while i < n
      invariant 0 <= i <= n
      invariant forall k :: 0 <= k < i ==> a[k] == moved[k]
      invariant forall k :: i <= k < n ==> a[from + k] == moved[k]
    {
      a[i] := a[from + i];
      i := i + 1;
    }
  }

  // --- The reader -------------------------------------------------------------------------------

  class PngStruct {
    const cfg: Config
    const signature: array<byte>       // info_ptr->signature

    var failed: bool                   // png_error has been called
    var processMode: Mode
    var flags: Flags                   // the bits of "mode"
    var sigBytes: nat
    var chunkName: nat
    var pushLength: nat
    var idatSize: nat
    var skipLength: nat
    var colorType: byte
    var crc: seq<byte>                 // the bytes run through the CRC since it was reset
    var zin: seq<byte>                 // the bytes the decompressor has accepted
    var trace: seq<Event>

    var saveBuffer: array<byte>
    var saveBufferPtr: nat             // offset of save_buffer_ptr in save_buffer
    var saveBufferSize: nat
    var saveBufferMax: nat
    var currentBuffer: array<byte>
    var currentBufferPtr: nat
    var currentBufferSize: nat
    var bufferSize: nat

    ghost const skipped: nat           // signature bytes the application checked itself
    ghost var received: seq<byte>      // everything handed to ProcessData so far

    ghost function Abs(): State
      reads `failed, `processMode, `flags, `sigBytes, `chunkName, `pushLength, `idatSize, `skipLength, `colorType
      reads `crc, `zin, `trace
    {
      if failed then Failed(trace)
      else Running(processMode, sigBytes, flags, chunkName, pushLength, idatSize, skipLength, colorType, crc, zin,
                   trace)
    }

    lemma AbsIs()
      ensures Abs() == if failed then Failed(trace)
                       else Running(processMode, sigBytes, flags, chunkName, pushLength, idatSize, skipLength,
                                    colorType, crc, zin, trace)
    {
    }

    ghost predicate Shaped()
      reads `saveBuffer, `saveBufferPtr, `saveBufferSize, `saveBufferMax
      reads `currentBuffer, `currentBufferPtr, `currentBufferSize
    {
      && saveBuffer.Length == saveBufferMax && saveBufferPtr + saveBufferSize <= saveBufferMax
      && currentBufferPtr + currentBufferSize <= currentBuffer.Length
      && saveBuffer != currentBuffer && signature != saveBuffer && signature != currentBuffer
      && signature.Length == 8
    }

    /** buffer_size accounts for both parts; holds whenever a dispatch begins. */
    ghost predicate Balanced()
      reads `saveBuffer, `saveBufferPtr, `saveBufferSize, `saveBufferMax, `bufferSize
      reads `currentBuffer, `currentBufferPtr, `currentBufferSize
    {
      Shaped() && bufferSize == saveBufferSize + currentBufferSize
    }

    ghost function Saved(): seq<byte>
      requires Shaped()
      reads `saveBuffer, `saveBufferPtr, `saveBufferSize, `saveBufferMax
      reads `currentBuffer, `currentBufferPtr, `currentBufferSize, saveBuffer
    {
      saveBuffer[saveBufferPtr..saveBufferPtr + saveBufferSize]
    }

    ghost function Current(): seq<byte>
      requires Shaped()
      reads `saveBuffer, `saveBufferPtr, `saveBufferSize, `saveBufferMax
      reads `currentBuffer, `currentBufferPtr, `currentBufferSize, currentBuffer
    {
      currentBuffer[currentBufferPtr..currentBufferPtr + currentBufferSize]
    }

    ghost function Queue(): seq<byte>
      requires Shaped()
      reads `saveBuffer, `saveBufferPtr, `saveBufferSize, `saveBufferMax
      reads `currentBuffer, `currentBufferPtr, `currentBufferSize, saveBuffer, currentBuffer
    {
      Saved() + Current()
    }

    /** What the reader holds over to the next call. */
    ghost function Pending(): seq<byte>
      requires Shaped()
      reads this, saveBuffer
    {
      if failed || processMode == DoneMode then [] else Saved()
    }

    /** Where the bytes still queued will take the reader. */
    ghost function Outcome(): (State, seq<byte>)
      requires Shaped()
      reads this, saveBuffer, currentBuffer
    {
      if bufferSize == 0 then (Abs(), Pending()) else Run(cfg, Abs(), Queue())
    }

    /** The state between calls, and between dispatches. */
    ghost predicate Steady()
      reads this
    {
      && Shaped() && FlagsOk(Abs())
      && (!failed && processMode != DoneMode ==> if bufferSize > 0 then Balanced() else currentBufferSize == 0)
    }

    /** Between calls: the state is a function of the bytes received, whatever pieces they came in. */
    ghost predicate Valid()
      reads this, saveBuffer
    {
      Steady() && skipped <= 8 && (Abs(), Pending()) == Run(cfg, Start(skipped), received)
    }

    constructor (cfg: Config, sigBytes: nat)
      ensures Valid() && fresh(saveBuffer) && fresh(signature)
      ensures Abs() == Start(sigBytes) && Pending() == [] && received == [] && skipped == sigBytes && this.cfg == cfg
      requires sigBytes <= 8
    {
      this.cfg := cfg;
      failed, processMode, this.sigBytes := false, SigMode, sigBytes;
      flags := Flags(false, false, false, false, false, false, false);
      chunkName, pushLength, idatSize, skipLength, colorType := 0, 0, 0, 0, 0;
      crc, zin, trace := [], [], [];
      saveBufferPtr, saveBufferSize, saveBufferMax := 0, 0, 0;
      currentBufferPtr, currentBufferSize, bufferSize := 0, 0, 0;
      skipped, received := sigBytes, [];
      var info := new byte[8];
      var nothing, none := new byte[0], new byte[0];
      signature, saveBuffer, currentBuffer := info, nothing, none;
      new;
      RunOnNothing(cfg, Start(sigBytes));
    }

    // --- The two-part buffer --------------------------------------------------------------------

    /** Advance save_buffer_ptr over n bytes. */
    method DropSaved(n: nat)
      requires Balanced() && n <= saveBufferSize
      modifies `bufferSize, `saveBufferPtr, `saveBufferSize
      ensures Balanced() && Queue() == old(Queue())[n..]
      ensures Saved() == old(Saved())[n..] && Current() == old(Current())
      ensures bufferSize == old(bufferSize) - n && saveBufferSize == old(saveBufferSize) - n
    {
      bufferSize := bufferSize - n;
      saveBufferSize, saveBufferPtr := saveBufferSize - n, saveBufferPtr + n;
      assert Saved() == old(Saved())[n..];
    }

    /** Advance current_buffer_ptr over n bytes. */
    method DropCurrent(n: nat)
      requires Balanced() && n <= currentBufferSize
      modifies `bufferSize, `currentBufferPtr, `currentBufferSize
      ensures Balanced() && (saveBufferSize == 0 ==> Queue() == old(Queue())[n..])
      ensures Saved() == old(Saved()) && Current() == old(Current())[n..]
      ensures bufferSize == old(bufferSize) - n && currentBufferSize == old(currentBufferSize) - n
    {
      bufferSize := bufferSize - n;
      currentBufferSize, currentBufferPtr := currentBufferSize - n, currentBufferPtr + n;
      assert Current() == old(Current())[n..];
    }

    lemma SavedPart(n: nat)
      requires Shaped() && n <= saveBufferSize
      ensures saveBufferPtr + saveBufferSize <= saveBuffer.Length && |Saved()| == saveBufferSize
      ensures saveBuffer[saveBufferPtr..saveBufferPtr + n] == Saved()[..n]
    {
    }

    lemma CurrentPart(n: nat)
      requires Shaped() && n <= currentBufferSize
      ensures currentBufferPtr + currentBufferSize <= currentBuffer.Length && |Current()| == currentBufferSize
      ensures currentBuffer[currentBufferPtr..currentBufferPtr + n] == Current()[..n]
    {
    }

    /** png_push_fill_buffer: dequeue up to length bytes into buffer, from the saved part first. */
    method FillBuffer(buffer: array<byte>, start: nat, length: nat) returns (ghost n: nat)
      requires Balanced() && start + length <= buffer.Length
      requires buffer != saveBuffer && buffer != currentBuffer
      modifies `bufferSize, `saveBufferPtr, `saveBufferSize, `currentBufferPtr, `currentBufferSize, buffer
      ensures Balanced() && n == Min(length, |old(Queue())|) && bufferSize == old(bufferSize) - n
      ensures buffer[..] == old(buffer[..])[..start] + old(Queue())[..n] + old(buffer[..])[start + n..]
      ensures Queue() == old(Queue())[n..]
    {
      hide *;
      QueueParts();
      ghost var saved, current, q, before := Saved(), Current(), Queue(), buffer[..];
      var k := FillFromSaved(buffer, start, length);
      ghost var once := buffer[..];
      ghost var m := FillFromCurrent(buffer, start + k, length - k);
      n := k + m;
      FillSplit(before, once, buffer[..], start, length, saved, current, k, m);
      FilledIs(buffer[..], before, start, q, n);
      QueueParts();
    }

    lemma QueueParts()
      requires Balanced()
      ensures Shaped() && Queue() == Saved() + Current() == Join(Saved(), Current()) && bufferSize == |Queue()|
      ensures saveBufferSize == |Saved()| && currentBufferSize == |Current()|
    {
    }

    /** The first half of png_push_fill_buffer: how many bytes the saved part gave. */
    method FillFromSaved(buffer: array<byte>, ptr: nat, length: nat) returns (k: nat)
      requires Balanced() && ptr + length <= buffer.Length
      requires buffer != saveBuffer && buffer != currentBuffer
      modifies `bufferSize, `saveBufferPtr, `saveBufferSize, buffer
      ensures Balanced() && k == Min(length, |old(Saved())|) && bufferSize == old(bufferSize) - k
      ensures k <= length && (k == length || saveBufferSize == 0)
      ensures Filled(buffer[..], old(buffer[..]), ptr, Front(old(Saved()), k))
      ensures Saved() == Back(old(Saved()), k) && Current() == old(Current())
    {
      hide *;
      QueueParts();
      MinIs(length, saveBufferSize);
      if saveBufferSize > 0 {
        k := if length < saveBufferSize then length else saveBufferSize;
        CopySaved(buffer, ptr, k);
      } else {
        k := 0;
        NothingFilled(buffer[..], ptr, Saved());
      }
    }

    method CopySaved(buffer: array<byte>, ptr: nat, k: nat)
      requires Balanced() && k <= saveBufferSize && ptr + k <= buffer.Length
      requires buffer != saveBuffer && buffer != currentBuffer
      modifies `bufferSize, `saveBufferPtr, `saveBufferSize, buffer
      ensures Balanced() && saveBufferSize == old(saveBufferSize) - k && bufferSize == old(bufferSize) - k
      ensures Filled(buffer[..], old(buffer[..]), ptr, Front(old(Saved()), k))
      ensures Saved() == Back(old(Saved()), k) && Current() == old(Current())
    {
      hide *;
      QueueParts();
      SavedPart(k);
      ghost var before, q := buffer[..], Saved();
      Memcpy(buffer, ptr, saveBuffer, saveBufferPtr, k);
      Copied(buffer[..], before, ptr, q, k);
      DropSaved(k);
    }

    /** The second half of png_push_fill_buffer. */
    method FillFromCurrent(buffer: array<byte>, ptr: nat, left: nat) returns (ghost n: nat)
      requires Balanced() && ptr + left <= buffer.Length
      requires buffer != saveBuffer && buffer != currentBuffer
      requires left == 0 || saveBufferSize == 0
      modifies `bufferSize, `currentBufferPtr, `currentBufferSize, buffer
      ensures Balanced() && n == Min(left, |old(Current())|) && bufferSize == old(bufferSize) - n
      ensures Filled(buffer[..], old(buffer[..]), ptr, Front(old(Current()), n))
      ensures Saved() == old(Saved()) && Current() == Back(old(Current()), n)
    {
      hide *;
      QueueParts();
      MinIs(left, currentBufferSize);
      if left > 0 && currentBufferSize > 0 {
        var size := if left < currentBufferSize then left else currentBufferSize;
        CopyCurrent(buffer, ptr, size);
        n := size;
      } else {
        n := 0;
        NothingFilled(buffer[..], ptr, Current());
      }
    }

    method CopyCurrent(buffer: array<byte>, ptr: nat, size: nat)
      requires Balanced() && size <= currentBufferSize && ptr + size <= buffer.Length
      requires buffer != saveBuffer && buffer != currentBuffer
      modifies `bufferSize, `currentBufferPtr, `currentBufferSize, buffer
      ensures Balanced() && bufferSize == old(bufferSize) - size
      ensures Filled(buffer[..], old(buffer[..]), ptr, Front(old(Current()), size))
      ensures Saved() == old(Saved()) && Current() == Back(old(Current()), size)
    {
      hide *;
      QueueParts();
      CurrentPart(size);
      ghost var before, q := buffer[..], Current();
      Memcpy(buffer, ptr, currentBuffer, currentBufferPtr, size);
      Copied(buffer[..], before, ptr, q, size);
      DropCurrent(size);
    }

    /** png_push_save_buffer: move the saved bytes to the front, grow the buffer if need be, and append
        the rest of the current block. */
    method SaveBuffer()
      requires Balanced()
      modifies `saveBuffer, `saveBufferMax, `saveBufferPtr, `saveBufferSize, `currentBufferSize, `bufferSize, saveBuffer
      ensures Shaped() && bufferSize == 0 && currentBufferSize == 0
      ensures Saved() == old(Queue())
      ensures saveBuffer == old(saveBuffer) || fresh(saveBuffer)
    {
      hide *;
      QueueParts();
      Compact();
      Regrow();
      AppendCurrent();
      bufferSize := 0;
    }

    /** Move the saved bytes to the front. */
    method Compact()
      requires Shaped()
      modifies `saveBufferPtr, saveBuffer
      ensures Shaped() && saveBufferPtr == 0 && Saved() == old(Saved()) && Current() == old(Current())
    {
      if saveBufferSize > 0 && saveBufferPtr != 0 {
        MoveToFront(saveBuffer, saveBufferPtr, saveBufferSize);
      }
      saveBufferPtr := 0;
    }

    /** Make room for the current block behind the saved bytes. */
    method Regrow()
      requires Shaped() && saveBufferPtr == 0
      modifies `saveBuffer, `saveBufferMax
      ensures Shaped() && Saved() == old(Saved()) && Current() == old(Current())
      ensures saveBufferSize + currentBufferSize <= saveBufferMax
      ensures saveBuffer == old(saveBuffer) || fresh(saveBuffer)
    {
      if saveBufferSize + currentBufferSize > saveBufferMax {
        var newMax := saveBufferSize + currentBufferSize + 256;
        var oldBuffer := saveBuffer;
        saveBuffer := new byte[newMax];
        Memcpy(saveBuffer, 0, oldBuffer, 0, saveBufferSize);
        saveBufferMax := newMax;
      }
    }

    method AppendCurrent()
      requires Shaped() && saveBufferPtr == 0 && saveBufferSize + currentBufferSize <= saveBufferMax
      modifies `saveBufferSize, `currentBufferSize, saveBuffer
      ensures Shaped() && currentBufferSize == 0 && Saved() == old(Saved() + Current())
    {
      if currentBufferSize > 0 {
        Memcpy(saveBuffer, saveBufferSize, currentBuffer, currentBufferPtr, currentBufferSize);
        saveBufferSize := saveBufferSize + currentBufferSize;
        currentBufferSize := 0;
      }
    }

    /** png_push_restore_buffer: queue the caller's block behind the saved bytes. */
    method RestoreBuffer(buffer: array<byte>)
      requires Shaped() && buffer != saveBuffer && buffer != signature
      modifies `currentBuffer, `currentBufferPtr, `currentBufferSize, `bufferSize
      ensures Balanced() && currentBuffer == buffer && Queue() == old(Saved()) + buffer[..]
    {
      currentBuffer, currentBufferPtr, currentBufferSize := buffer, 0, buffer.Length;
      bufferSize := buffer.Length + saveBufferSize;
    }

    // --- Reading through the CRC ----------------------------------------------------------------

    method ReadData(n: nat) returns (buf: array<byte>)
      requires Balanced() && n <= bufferSize
      modifies `bufferSize, `saveBufferPtr, `saveBufferSize, `currentBufferPtr, `currentBufferSize
      ensures Balanced() && fresh(buf) && buf[..] == old(Queue())[..n] && Queue() == old(Queue())[n..]
      ensures bufferSize == old(bufferSize) - n
    {
      buf := new byte[n];
      hide *;
      QueueParts();
      MinIs(n, |Queue()|);
      Whole(buf[..], Queue(), n);
      ghost var m := FillBuffer(buf, 0, n);
    }

    lemma Whole(before: seq<byte>, q: seq<byte>, n: nat)
      requires |before| == n <= |q|
      ensures before[..0] + q[..n] + before[0 + n..] == q[..n]
    {
    }

    method CrcRead(n: nat) returns (buf: array<byte>)
      requires Balanced() && n <= bufferSize
      modifies `bufferSize, `saveBufferPtr, `saveBufferSize, `currentBufferPtr, `currentBufferSize, `crc
      ensures Balanced() && fresh(buf) && buf[..] == old(Queue())[..n] && Queue() == old(Queue())[n..]
      ensures bufferSize == old(bufferSize) - n && crc == old(crc) + buf[..]
    {
      buf := ReadData(n);
      crc := crc + buf[..];
    }

    /** png_crc_finish with nothing to skip: a mismatch is fatal in a critical chunk, if benign errors are. */
    method CrcFinish() returns (stored: array<byte>)
      requires Balanced() && 4 <= bufferSize
      modifies `bufferSize, `saveBufferPtr, `saveBufferSize, `currentBufferPtr, `currentBufferSize, `failed
      ensures Balanced() && stored[..] == old(Queue())[..4] && Queue() == old(Queue())[4..]
      ensures bufferSize == old(bufferSize) - 4
      ensures failed == (old(failed) || FatalCrc(cfg, chunkName, crc, stored[..]))
      ensures failed == (old(failed) ||
                         (cfg.benignFatal && !cfg.crcOk(crc, stored[..]) && chunkName / 0x2000_0000 % 2 == 0))
    {
      stored := ReadData(4);
      if !cfg.crcOk(crc, stored[..]) && Critical(chunkName) && cfg.benignFatal {
        failed := true;
      }
    }

    // --- Chunk handlers -------------------------------------------------------------------------

    /** The state before the body of the pending chunk went through the CRC. */
    ghost predicate Awaited(s: State, body: seq<byte>)
      reads this
    {
      s.Running? && Abs() == s.(crc := s.crc + body)
    }

    /** The reader, but for the pending-header bit that the dispatcher clears, is in state t. */
    ghost predicate Reached(s: State, t: State)
      reads this
    {
      if failed then t.Failed? && trace == t.trace
      else
        && s.Running? && t.Running? && s.flags.header == flags.header
        && Abs() == t.(flags := t.flags.(header := flags.header))
    }

    /** Body and stored CRC of a chunk that has arrived whole, as every handler reads them. */
    method ReadBody(ghost s: State, ghost q: seq<byte>) returns (body: seq<byte>, stored: seq<byte>)
      requires Balanced() && Abs() == s && s.Running? && Queue() == q && pushLength + 4 <= bufferSize == |q|
      modifies `bufferSize, `saveBufferPtr, `saveBufferSize, `currentBufferPtr, `currentBufferSize, `crc
      ensures Balanced() && bufferSize == |q| - (pushLength + 4) && Awaited(s, body)
      ensures body == q[..pushLength] && stored == q[pushLength..pushLength + 4]
      ensures Queue() == q[pushLength + 4..]
    {
      hide Balanced, Queue;
      var bodyBuf := CrcRead(pushLength);
      body := bodyBuf[..];
      var storedBuf := ReadData(4);
      stored := storedBuf[..];
      assert q[pushLength..][..4] == q[pushLength..pushLength + 4];
      assert q[pushLength..][4..] == q[pushLength + 4..];
    }

    method HandleIHDR(body: seq<byte>, stored: seq<byte>, ghost s: State)
      requires Awaited(s, body) && |body| == 13
      modifies `failed, `flags, `colorType, `trace
      ensures Reached(s, DoneIHDR(cfg, s, body, stored))
    {
      if flags.ihdr || FatalCrc(cfg, chunkName, crc, stored) || !cfg.ihdrOk(body) {
        failed := true;
        return;
      }
      flags := flags.(ihdr := true);
      colorType := body[9];
      trace := trace + [Chunk(chunkName, body, stored)];
    }

    method HandlePLTE(body: seq<byte>, stored: seq<byte>, ghost s: State)
      requires Awaited(s, body)
      modifies `failed, `flags, `trace
      ensures Reached(s, DonePLTE(cfg, s, body, stored))
    {
      if !flags.ihdr || (!flags.idat && flags.plte) {
        failed := true;
        return;
      }
      if !flags.idat {
        flags := flags.(plte := true);
        if colorType == COLOR_TYPE_PALETTE && (|body| > 768 || |body| % 3 != 0) {
          failed := true;
          return;
        }
      }
      if FatalCrc(cfg, chunkName, crc, stored) {
        failed := true;
        return;
      }
      trace := trace + [Chunk(chunkName, body, stored)];
    }

    method HandleIEND(body: seq<byte>, stored: seq<byte>, ghost s: State)
      requires Awaited(s, body)
      modifies `failed, `flags, `trace, `processMode
      ensures Reached(s, DoneIEND(cfg, s, body, stored))
    {
      if !flags.ihdr || !flags.idat || FatalCrc(cfg, chunkName, crc, stored) {
        failed := true;
        return;
      }
      flags := flags.(afterIdat := true, iend := true);
      trace := trace + [Chunk(chunkName, body, stored)];
      processMode := DoneMode;
      trace := trace + [End];
    }

    /** The thirteen plain ancillary handlers and the four textual ones. */
    method HandleAncillary(body: seq<byte>, stored: seq<byte>, ghost s: State)
      requires Awaited(s, body)
      modifies `failed, `flags, `trace
      ensures Reached(s, DoneAncillary(cfg, s, body, stored))
    {
      if !flags.ihdr || !cfg.ancillaryOk(trace, chunkName, body) {
        failed := true;
        return;
      }
      if flags.idat && Textual(chunkName) {
        flags := flags.(afterIdat := true);
      }
      trace := trace + [Chunk(chunkName, body, stored)];
    }

    method HandleUnknown(body: seq<byte>, stored: seq<byte>, ghost s: State)
      requires Awaited(s, body)
      modifies `failed, `flags, `trace
      ensures Reached(s, DoneUnknown(s, body, stored))
    {
      if flags.idat {
        flags := flags.(afterIdat := true);
      }
      if Critical(chunkName) {
        failed := true;
        return;
      }
      trace := trace + [Chunk(chunkName, body, stored)];
    }

    /** The if-chain of png_push_read_chunk, once the whole chunk is there. */
    method HandleChunk(body: seq<byte>, stored: seq<byte>, ghost s: State)
      requires Awaited(s, body) && (s.name == IHDR ==> |body| == 13)
      modifies `failed, `flags, `colorType, `trace, `processMode
      ensures Reached(s, ChunkDone(cfg, s, body, stored))
    {
      if chunkName == IHDR {
        HandleIHDR(body, stored, s);
      } else if chunkName == IEND {
        HandleIEND(body, stored, s);
      } else if chunkName == PLTE {
        HandlePLTE(body, stored, s);
      } else if Ancillary(chunkName) {
        HandleAncillary(body, stored, s);
      } else {
        HandleUnknown(body, stored, s);
      }
    }

    // --- Dispatches -----------------------------------------------------------------------------

    /** What a dispatch does to state s and queue q: it keeps the invariant, and the bytes still queued lead
        where running the machine on q leads. */
    ghost predicate Took(s: State, q: seq<byte>)
      reads this, saveBuffer, currentBuffer
    {
      Steady() && Outcome() == Run(cfg, s, q)
    }

    /** The reader has moved along the queue. */
    lemma TookSteps(s: State, q: seq<byte>, t: State, r: seq<byte>)
      requires Balanced() && Abs() == t && Queue() == r && FlagsOk(t)
      requires Run(cfg, s, q) == Run(cfg, t, r)
      ensures Took(s, q)
    {
      if bufferSize == 0 {
        assert Queue() == [] && Saved() == [];
        RunOnNothing(cfg, Abs());
      }
    }

    /** The reader has put everything aside to wait for more. */
    lemma TookNothing(s: State, q: seq<byte>)
      requires Shaped() && bufferSize == 0 && currentBufferSize == 0 && FlagsOk(Abs())
      requires Abs() == s && Saved() == q && s.Running? && s.mode != DoneMode && Step(cfg, s, q).Stall?
      ensures Took(s, q)
    {
    }

    lemma TookFailure(s: State, q: seq<byte>)
      requires Balanced() && failed && Run(cfg, s, q) == (Abs(), [])
      ensures Took(s, q)
    {
    }

    /** The 8 bytes in front of a chunk; the CRC restarts on the name. */
    method ReadHeaderBytes(ghost q: seq<byte>)
      requires Balanced() && !failed && 8 <= bufferSize == |q| && Queue() == q
      modifies `bufferSize, `saveBufferPtr, `saveBufferSize, `currentBufferPtr, `currentBufferSize
      modifies `pushLength, `chunkName, `crc, `failed
      ensures Balanced() && bufferSize < old(bufferSize)
      ensures failed == (Be32(q[..4]) > UINT_31_MAX)
      ensures !failed ==> Queue() == q[8..] && bufferSize == |q| - 8 && crc == q[4..8]
      ensures !failed ==> pushLength == Be32(q[..4]) && chunkName == Be32(q[4..8])
    {
      hide *;
      HeaderSlices(q);
      var chunkLength := ReadData(4);
      var length := Be32(chunkLength[..]);
      if length > UINT_31_MAX {
        failed := true;
        return;
      }
      crc := [];
      var chunkTag := CrcRead(4);
      pushLength, chunkName := length, Be32(chunkTag[..]);
    }

    /** The IDAT arm of png_push_read_chunk. */
    method StartImage(ghost s: State)
      requires Abs() == s && s.Running? && s.mode == ChunkMode && s.flags.header && s.name == IDAT
      requires s.flags.idat ==> s.flags.afterIdat
      modifies `failed, `flags, `idatSize, `processMode, `trace
      ensures Abs() == BeginImage(cfg, s)
    {
      if flags.afterIdat {
        flags := flags.(chunkAfterIdat := true);
      }
      if !flags.ihdr || (colorType == COLOR_TYPE_PALETTE && !flags.plte) {
        failed := true;
        return;
      }
      if flags.idat {
        if !flags.chunkAfterIdat {
          assert false;  // the source returns here for an empty IDAT, without having consumed anything
        }
        if flags.afterIdat && cfg.benignFatal {
          failed := true;
          return;
        }
      }
      idatSize := pushLength;
      flags := flags.(idat := true);
      processMode := IdatMode;
      trace := trace + [Info, IdatBegin(pushLength)];
    }

    /** A chunk that has arrived whole. */
    method TakeWholeChunk(ghost s: State, ghost q: seq<byte>)
      requires Balanced() && Abs() == s && s.Running? && Queue() == q && pushLength == s.pushLength
      requires pushLength + 4 <= bufferSize == |q| && (s.name == IHDR ==> s.pushLength == 13)
      modifies `bufferSize, `saveBufferPtr, `saveBufferSize, `currentBufferPtr, `currentBufferSize
      modifies `crc, `failed, `flags, `colorType, `trace, `processMode
      ensures Balanced() && Queue() == q[s.pushLength + 4..] && bufferSize < old(bufferSize)
      ensures Abs() == ChunkDone(cfg, s, q[..s.pushLength], q[s.pushLength..s.pushLength + 4])
    {
      hide *;
      var body, stored := ReadBody(s, q);
      HandleChunk(body, stored, s);
      ClearedHeader(cfg, s, body, stored);
      ClearHeader(s, ChunkDone(cfg, s, body, stored));
    }

    /** The dispatcher's last act on a chunk: no header is pending any more. */
    method ClearHeader(ghost s: State, ghost t: State)
      requires Reached(s, t) && (t.Running? ==> !t.flags.header)
      modifies `flags
      ensures Abs() == t
    {
      if !failed {
        flags := flags.(header := false);
      }
    }

    lemma ClearedHeader(cfg: Config, s: State, body: seq<byte>, stored: seq<byte>)
      requires s.Running?
      ensures var t := ChunkDone(cfg, s, body, stored); t.Running? ==> !t.flags.header
    {
    }

    /** The arms of png_push_read_chunk other than IDAT: wait for the whole chunk, then handle it. */
    method TakeChunk(ghost s: State, ghost q: seq<byte>)
      requires Balanced() && Abs() == s && s.Running? && Queue() == q && FlagsOk(s)
      requires s.mode == ChunkMode && flags.header && chunkName != IDAT
      modifies this, saveBuffer
      ensures saveBuffer == old(saveBuffer) || fresh(saveBuffer)
      ensures received == old(received) && currentBuffer == old(currentBuffer)
      ensures if s.name == IHDR && s.pushLength != 13 then Balanced() && Abs() == Fail(s) else Took(s, q)
      ensures failed || bufferSize < old(bufferSize) || bufferSize == 0
    {
      hide *;
      AbsIs();
      QueueParts();
      if chunkName == IHDR && pushLength != 13 {
        FailNow(s);
        return;
      }
      StepOnChunk(cfg, s, q);
      if pushLength + 4 > bufferSize {
        SaveBuffer();
        TookNothing(s, q);
        return;
      }
      TakeWholeChunk(s, q);
      StepKeepsFlags(cfg, s, q);
      TookSteps(s, q, Step(cfg, s, q).s, q[s.pushLength + 4..]);
    }

    lemma StepOnChunk(cfg: Config, s: State, q: seq<byte>)
      requires s.Running? && s.mode == ChunkMode && s.flags.header && s.name != IDAT
      requires s.name == IHDR ==> s.pushLength == 13
      ensures if |q| < s.pushLength + 4 then Step(cfg, s, q).Stall?
              else
                var t := ChunkDone(cfg, s, q[..s.pushLength], q[s.pushLength..s.pushLength + 4]);
                && Step(cfg, s, q) == Go(s.pushLength + 4, t)
                && Run(cfg, s, q) == Run(cfg, t, q[s.pushLength + 4..])
    {
    }

    /** png_error, in a state where nothing but the trace matters any more. */
    method FailNow(ghost s: State)
      requires Abs() == s && s.Running?
      modifies `failed
      ensures failed && Abs() == Fail(s)
    {
      failed := true;
    }

    method PushReadChunk(ghost s: State, ghost q: seq<byte>)
      requires Balanced() && Abs() == s && s.Running? && Queue() == q && FlagsOk(s)
      requires s.mode == ChunkMode && bufferSize == |q| > 0
      modifies this, saveBuffer
      ensures saveBuffer == old(saveBuffer) || fresh(saveBuffer)
      ensures received == old(received) && currentBuffer == old(currentBuffer)
      ensures Took(s, q) && (failed || bufferSize < old(bufferSize))
    {
      hide Balanced, Queue, Took, BeginImage, ChunkDone;
      if flags.header {
        TakeChunk(s, q);
        if s.name == IHDR && s.pushLength != 13 {
          TookFailure(s, q);
        }
      } else if bufferSize < 8 {
        SaveBuffer();
        TookNothing(s, q);
      } else {
        ReadNextChunk(s, q);
      }
    }

    /** A header, and what can be done with the chunk behind it. */
    method ReadNextChunk(ghost s: State, ghost q: seq<byte>)
      requires Balanced() && Abs() == s && s.Running? && Queue() == q && FlagsOk(s)
      requires s.mode == ChunkMode && !s.flags.header && bufferSize == |q| >= 8
      modifies this, saveBuffer
      ensures saveBuffer == old(saveBuffer) || fresh(saveBuffer)
      ensures received == old(received) && currentBuffer == old(currentBuffer)
      ensures Took(s, q) && (failed || bufferSize < old(bufferSize))
    {
      hide *;
      var ok := ReadChunkHeader(s, q);
      if !ok {
        TookFailure(s, q);
        return;
      }
      ghost var t := Abs();
      StepOnHeader(cfg, s, q, t);
      if chunkName == IDAT {
        StartImage(t);
        TookSteps(s, q, BeginImage(cfg, t), q[8..]);
      } else {
        TakeChunkBody(s, q, t, q[8..]);
      }
    }

    method TakeChunkBody(ghost s: State, ghost q: seq<byte>, ghost t: State, ghost r: seq<byte>)
      requires Balanced() && Abs() == t && t.Running? && Queue() == r && FlagsOk(t)
      requires t.mode == ChunkMode && t.flags.header && t.name != IDAT
      requires Run(cfg, s, q) == Run(cfg, if t.name == IHDR && t.pushLength != 13 then Fail(t) else t, r)
      modifies this, saveBuffer
      ensures saveBuffer == old(saveBuffer) || fresh(saveBuffer)
      ensures received == old(received) && currentBuffer == old(currentBuffer)
      ensures Took(s, q) && (failed || bufferSize < old(bufferSize) || bufferSize == 0)
    {
      assert flags.header && chunkName != IDAT;
      hide Balanced, Queue, Took, Run, Step, Shaped, FlagsOk, Abs;
      TakeChunk(t, r);
      if t.name == IHDR && t.pushLength != 13 {
        RunFailed(cfg, Fail(t), r);
        TookFailed(s, q, t);
      } else {
        TookMore(s, q, t, r);
      }
    }

    lemma TookFailed(s: State, q: seq<byte>, t: State)
      requires Balanced() && t.Running? && Abs() == Fail(t) && Run(cfg, s, q) == (Fail(t), [])
      ensures Took(s, q)
    {
      TookFailure(s, q);
    }

    /** The header itself: false after an error in it. */
    method ReadChunkHeader(ghost s: State, ghost q: seq<byte>) returns (ok: bool)
      requires Balanced() && Abs() == s && s.Running? && Queue() == q
      requires s.mode == ChunkMode && !s.flags.header && bufferSize == |q| >= 8
      modifies `bufferSize, `saveBufferPtr, `saveBufferSize, `currentBufferPtr, `currentBufferSize
      modifies `pushLength, `chunkName, `crc, `failed, `flags
      ensures Balanced() && bufferSize < old(bufferSize)
      ensures ok == (Be32(q[..4]) <= UINT_31_MAX && NameOk(Be32(q[4..8])))
      ensures if ok then
                && Abs() == s.(pushLength := Be32(q[..4]), name := Be32(q[4..8]), crc := q[4..8],
                               flags := s.flags.(header := true))
                && Queue() == q[8..] && chunkName == Be32(q[4..8])
              else failed && Run(cfg, s, q) == (Abs(), [])
    {
      hide *;
      AbsIs();
      BadHeaderFails(cfg, s, q);
      ReadHeaderBytes(q);
      AbsIs();
      if failed { return false; }
      ok := NoteHeader(s.(pushLength := Be32(q[..4]), name := Be32(q[4..8]), crc := q[4..8]));
    }

    /** A header is pending, unless its name is bad. */
    method NoteHeader(ghost s: State) returns (ok: bool)
      requires Abs() == s && s.Running?
      modifies `failed, `flags
      ensures ok == !failed == NameOk(s.name) && chunkName == s.name
      ensures Abs() == if ok then s.(flags := s.flags.(header := true)) else Failed(s.trace)
    {
      hide NameOk;
      if !NameOk(chunkName) {
        failed := true;
        return false;
      }
      flags := flags.(header := true);
      return true;
    }

    lemma BadHeaderFails(cfg: Config, s: State, q: seq<byte>)
      requires s.Running? && s.mode == ChunkMode && !s.flags.header && |q| >= 8
      ensures Be32(q[..4]) > UINT_31_MAX || !NameOk(Be32(q[4..8])) ==> Run(cfg, s, q) == (Failed(s.trace), [])
    {
      hide NameOk, Be32;
    }

    lemma TookMore(s: State, q: seq<byte>, t: State, r: seq<byte>)
      requires Run(cfg, s, q) == Run(cfg, t, r) && Took(t, r)
      ensures Took(s, q)
    {
    }

    /** A good header in chunk mode. */
    lemma StepOnHeader(cfg: Config, s: State, q: seq<byte>, t: State)
      requires s.Running? && s.mode == ChunkMode && !s.flags.header && FlagsOk(s) && |q| >= 8
      requires Be32(q[..4]) <= UINT_31_MAX && NameOk(Be32(q[4..8]))
      requires t == s.(pushLength := Be32(q[..4]), name := Be32(q[4..8]), crc := q[4..8],
                       flags := s.flags.(header := true))
      ensures var u := if t.name == IDAT then BeginImage(cfg, t)
                       else if t.name == IHDR && t.pushLength != 13 then Fail(t) else t;
              && Run(cfg, s, q) == Run(cfg, u, q[8..]) && FlagsOk(u)
      ensures t.flags.idat ==> t.flags.afterIdat
      ensures t.name != IDAT ==> FlagsOk(t)
    {
      StepKeepsFlags(cfg, s, q);
    }

    static predicate SigPart(from: nat, b: seq<byte>) {
      from + |b| <= 8 && b == SIGNATURE[from..from + |b|]
    }

    /** png_sig_cmp, true when nothing differs. */
    predicate SigMatches(from: nat, n: nat)
      requires signature.Length == 8
      reads signature
    {
      n >= 1 && from <= 7 &&
      var end := if from + n > 8 then 8 else from + n;
      signature[from..end] == SIGNATURE[from..end]
    }

    lemma SigCount(s: State)
      requires Abs() == s && s.Running? && s.mode == SigMode && FlagsOk(s)
      ensures sigBytes == s.sigBytes <= 8 && !failed && processMode == SigMode
    {
    }

    lemma SigLemma(cfg: Config, s: State, q: seq<byte>, n: nat)
      requires s.Running? && s.mode == SigMode && FlagsOk(s) && 0 < |q| && s.sigBytes <= 8
      requires n == if |q| < 8 - s.sigBytes then |q| else 8 - s.sigBytes
      ensures var t := s.(sigBytes := s.sigBytes + n, mode := if s.sigBytes + n == 8 then ChunkMode else SigMode);
              FlagsOk(t) &&
              if n > 0 && SigPart(s.sigBytes, q[..n]) then Run(cfg, s, q) == Run(cfg, t, q[n..])
              else Run(cfg, s, q) == (Fail(s), [])
    {
      if n > 0 { RunSignature(cfg, s, q, n); }
    }

    method ReadSigBytes(n: nat, ghost s: State, ghost q: seq<byte>)
      requires Balanced() && Abs() == s && s.Running? && Queue() == q
      requires n <= |q| == bufferSize && s.sigBytes + n <= 8
      modifies `sigBytes, `bufferSize, `saveBufferPtr, `saveBufferSize, `currentBufferPtr, `currentBufferSize, signature
      ensures Balanced() && Queue() == q[n..] && bufferSize == |q| - n && Abs() == s.(sigBytes := s.sigBytes + n)
      ensures signature.Length == 8 && SigMatches(s.sigBytes, n) == (n > 0 && SigPart(s.sigBytes, q[..n]))
    {
      hide *;
      AbsIs();
      FillSignature(n, q);
      SigRead(s.sigBytes, n, q);
      sigBytes := sigBytes + n;
      AbsIs();
    }

    method FillSignature(n: nat, ghost q: seq<byte>)
      requires Balanced() && Queue() == q && n <= |q| && sigBytes + n <= 8
      modifies `bufferSize, `saveBufferPtr, `saveBufferSize, `currentBufferPtr, `currentBufferSize, signature
      ensures Balanced() && Queue() == q[n..] && bufferSize == old(bufferSize) - n
      ensures signature.Length == 8 && signature[..][sigBytes..sigBytes + n] == q[..n]
    {
      hide *;
      SignatureApart();
      MinIs(n, |q|);
      ghost var before := signature[..];
      ghost var m := FillBuffer(signature, sigBytes, n);
      FilledPart(signature[..], before, sigBytes, n, q);
    }

    lemma SignatureApart()
      requires Balanced()
      ensures signature.Length == 8 && signature != saveBuffer && signature != currentBuffer
    {
    }

    lemma SigRead(from: nat, n: nat, q: seq<byte>)
      requires from + n <= 8 == signature.Length && n <= |q| && signature[..][from..from + n] == q[..n]
      ensures SigMatches(from, n) == (n > 0 && SigPart(from, q[..n]))
    {
    }

    method PushReadSig(ghost s: State, ghost q: seq<byte>)
      requires Balanced() && Abs() == s && s.Running? && Queue() == q && FlagsOk(s)
      requires s.mode == SigMode && bufferSize == |q| > 0
      modifies this, signature
      ensures saveBuffer == old(saveBuffer) && received == old(received) && currentBuffer == old(currentBuffer)
      ensures Took(s, q) && (failed || bufferSize < old(bufferSize))
    {
      hide *;
      SigCount(s);
      var numChecked := sigBytes;
      var n := if bufferSize < 8 - numChecked then bufferSize else 8 - numChecked;
      SigLemma(cfg, s, q, n);
      ReadSigBytes(n, s, q);
      var ok := SigMatches(numChecked, n);
      ConcludeSig(ok, s, n);
      if ok {
        TookSteps(s, q, Abs(), q[n..]);
      } else {
        TookFailure(s, q);
      }
    }

    method ConcludeSig(ok: bool, ghost s: State, n: nat)
      requires s.Running? && s.mode == SigMode && s.sigBytes + n <= 8 && Abs() == s.(sigBytes := s.sigBytes + n)
      modifies `failed, `processMode
      ensures Abs() == if !ok then Fail(s) else
                s.(sigBytes := s.sigBytes + n, mode := if s.sigBytes + n == 8 then ChunkMode else SigMode)
      ensures failed == !ok
    {
      if !ok {
        failed := true;
      } else if sigBytes >= 8 {
        processMode := ChunkMode;
      }
    }

    // --- Image data -----------------------------------------------------------------------------

    /** png_process_IDAT_data: hand n bytes to the decompressor, which ignores what follows its end. */
    method ProcessIdatData(buf: array<byte>, start: nat, n: nat, ghost s: State)
      requires start + n <= buf.Length && s.Running? && n <= s.idatSize
      requires !failed && zin == s.zin && trace == s.trace
      modifies `zin, `trace, `failed
      ensures var t := SinkAll(cfg, s, buf[start..start + n]);
              trace == t.trace && failed == t.Failed? && (t.Running? ==> zin == t.zin)
    {
      var i := 0;
      ghost var data, u := buf[start..start + n], s;
      while i < n && !failed
        invariant 0 <= i <= n
        invariant failed == u.Failed? && trace == u.trace
        invariant u.Running? ==> zin == u.zin && u.idatSize >= n - i
        invariant SinkAll(cfg, u, data[i..]) == SinkAll(cfg, s, data)
      {
        assert data[i..][0] == data[i] && data[i..][1..] == data[i + 1..];
        var b := buf[start + i];
        if cfg.inflate(zin) != Finished {
          zin := zin + [b];
          failed := cfg.inflate(zin) == Broken;
        }
        trace := trace + [IdatByte(b)];
        u := Sink(cfg, u, b);
        i := i + 1;
      }
    }

    /** One of the two halves of the draining code: CRC, decompressor, and the count of what is left. */
    method SinkPart(buf: array<byte>, start: nat, n: nat, ghost s: State)
      requires start + n <= buf.Length && Abs() == s && s.Running? && n <= s.idatSize
      modifies `crc, `zin, `trace, `failed, `idatSize
      ensures Abs() == SinkAll(cfg, s, buf[start..start + n]) && failed == Abs().Failed?
    {
      hide SinkAll;
      SinkAllFrame(cfg, s, buf[start..start + n]);
      crc := crc + buf[start..start + n];
      ProcessIdatData(buf, start, n, s);
      if failed { return; }
      idatSize := idatSize - n;
    }

    lemma SavedPrefix(n: nat, q: seq<byte>)
      requires Balanced() && Queue() == q && n <= saveBufferSize
      ensures n <= |q| && saveBufferPtr + n <= saveBuffer.Length && Shaped()
      ensures saveBuffer[saveBufferPtr..saveBufferPtr + n] == q[..n]
    {
      assert Saved()[..n] == saveBuffer[saveBufferPtr..saveBufferPtr + n];
      assert q[..n] == Saved()[..n];
    }

    lemma CurrentPrefix(n: nat, q: seq<byte>)
      requires Balanced() && Queue() == q && saveBufferSize == 0 && n <= currentBufferSize
      ensures n <= |q| && currentBufferPtr + n <= currentBuffer.Length && Shaped()
      ensures currentBuffer[currentBufferPtr..currentBufferPtr + n] == q[..n]
    {
      assert Saved() == [] && q == Current();
      assert Current()[..n] == currentBuffer[currentBufferPtr..currentBufferPtr + n];
    }

    /** IDAT data among the saved bytes. */
    method DrainSaved(ghost s: State, ghost q: seq<byte>) returns (n: nat)
      requires Balanced() && Abs() == s && s.Running? && Queue() == q && bufferSize == |q|
      requires 0 < idatSize == s.idatSize && saveBufferSize > 0
      modifies `crc, `zin, `trace, `failed, `idatSize, `bufferSize, `saveBufferPtr, `saveBufferSize
      ensures Balanced() && 0 < n <= s.idatSize && n <= |q| && Abs() == SinkAll(cfg, s, q[..n])
      ensures failed == Abs().Failed?
      ensures !failed ==> Queue() == q[n..] && bufferSize == |q| - n && (n == s.idatSize || saveBufferSize == 0)
    {
      hide *;
      n := if idatSize < saveBufferSize then idatSize else saveBufferSize;
      SavedPrefix(n, q);
      SinkPart(saveBuffer, saveBufferPtr, n, s);
      if !failed {
        DropSaved(n);
      }
    }

    /** IDAT data in the current block, once no saved bytes are left in front of it. */
    method DrainCurrent(ghost s: State, ghost q: seq<byte>) returns (n: nat)
      requires Balanced() && Abs() == s && s.Running? && Queue() == q && bufferSize == |q|
      requires 0 < idatSize == s.idatSize && saveBufferSize == 0 && currentBufferSize > 0
      modifies `crc, `zin, `trace, `failed, `idatSize, `bufferSize, `currentBufferPtr, `currentBufferSize
      ensures Balanced() && 0 < n <= s.idatSize && n <= |q| && Abs() == SinkAll(cfg, s, q[..n])
      ensures failed == Abs().Failed?
      ensures !failed ==> Queue() == q[n..] && bufferSize == |q| - n && (n == s.idatSize || currentBufferSize == 0)
    {
      hide *;
      n := if idatSize < currentBufferSize then idatSize else currentBufferSize;
      CurrentPrefix(n, q);
      SinkPart(currentBuffer, currentBufferPtr, n, s);
      if !failed {
        DropCurrent(n);
      }
    }

    /** The header of the chunk that follows an IDAT. */
    method NextIdatHeader(ghost s: State, ghost q: seq<byte>)
      requires Balanced() && Abs() == s && s.Running? && Queue() == q && 8 <= bufferSize == |q|
      requires s.mode == IdatMode && !s.flags.header
      modifies `bufferSize, `saveBufferPtr, `saveBufferSize, `currentBufferPtr, `currentBufferSize
      modifies `pushLength, `chunkName, `crc, `failed, `flags, `processMode, `idatSize, `trace
      ensures Balanced() && bufferSize < old(bufferSize) && Abs() == ReadHeader(cfg, s, q)
      ensures !failed ==> Queue() == q[8..] && bufferSize == |q| - 8
    {
      hide *;
      AbsIs();
      IdatHeaderIs(cfg, s, q);
      ReadHeaderBytes(q);
      AbsIs();
      if !failed {
        NoteIdatHeader(s.(pushLength := Be32(q[..4]), name := Be32(q[4..8]), crc := q[4..8]));
      }
    }

    /** What becomes of a header read in IDAT mode. */
    function IdatHeaderNoted(cfg: Config, s: State): State
      requires s.Running?
    {
      var t := s.(flags := s.flags.(header := true));
      if s.name == IDAT then t.(idatSize := s.pushLength, trace := s.trace + [IdatBegin(s.pushLength)])
      else if cfg.inflate(s.zin) == Finished then t.(mode := ChunkMode)
      else Failed(s.trace)
    }

    method NoteIdatHeader(ghost s: State)
      requires Abs() == s && s.Running?
      modifies `failed, `flags, `processMode, `idatSize, `trace
      ensures Abs() == IdatHeaderNoted(cfg, s) && failed == Abs().Failed?
    {
      flags := flags.(header := true);
      if chunkName != IDAT {
        processMode := ChunkMode;
        if cfg.inflate(zin) != Finished {
          failed := true;
        }
        return;
      }
      idatSize := pushLength;
      trace := trace + [IdatBegin(pushLength)];
    }

    lemma IdatHeaderIs(cfg: Config, s: State, q: seq<byte>)
      requires s.Running? && s.mode == IdatMode && |q| >= 8
      ensures var t := s.(pushLength := Be32(q[..4]), name := Be32(q[4..8]), crc := q[4..8]);
              ReadHeader(cfg, s, q) == if t.pushLength > UINT_31_MAX then Failed(s.trace) else IdatHeaderNoted(cfg, t)
    {
      hide Be32;
    }

    /** The CRC behind the last byte of an IDAT chunk. */
    method EndIdat(ghost s: State, ghost q: seq<byte>)
      requires Balanced() && Abs() == s && s.Running? && Queue() == q && 4 <= bufferSize == |q|
      requires s.mode == IdatMode
      modifies `bufferSize, `saveBufferPtr, `saveBufferSize, `currentBufferPtr, `currentBufferSize
      modifies `failed, `flags, `trace
      ensures Balanced() && bufferSize < old(bufferSize) && Queue() == q[4..] && Abs() == ReadCrc(cfg, s, q[..4])
    {
      hide *;
      AbsIs();
      ReadCrcIs(cfg, s, q[..4]);
      var stored := CrcFinish();
      AbsIs();
      if failed { return; }
      NoteIdatEnd(stored[..], s);
    }

    method NoteIdatEnd(stored: seq<byte>, ghost s: State)
      requires Abs() == s && s.Running?
      modifies `flags, `trace
      ensures Abs() == s.(flags := s.flags.(header := false, afterIdat := true), trace := s.trace + [IdatEnd(stored)])
    {
      flags := flags.(header := false, afterIdat := true);
      trace := trace + [IdatEnd(stored)];
    }

    lemma ReadCrcIs(cfg: Config, s: State, crc: seq<byte>)
      requires s.Running?
      ensures ReadCrc(cfg, s, crc) ==
                if FatalCrc(cfg, s.name, s.crc, crc) then Failed(s.trace)
                else if s.mode == SkipMode then s.(mode := ChunkMode)
                else s.(flags := s.flags.(header := false, afterIdat := true), trace := s.trace + [IdatEnd(crc)])
    {
    }

    lemma DrainStep(cfg: Config, s: State, q: seq<byte>, n: nat)
      requires s.Running? && s.mode == IdatMode && s.flags.header && n <= s.idatSize && n <= |q| && FlagsOk(s)
      ensures var t := SinkAll(cfg, s, q[..n]);
              if t.Failed? then Run(cfg, s, q) == (t, [])
              else
                && Run(cfg, s, q) == Run(cfg, t, q[n..]) && FlagsOk(t)
                && t.mode == IdatMode && t.flags.header && t.idatSize == s.idatSize - n
    {
      RunIdatData(cfg, s, q, n);
      SinkAllFrame(cfg, s, q[..n]);
    }

    /** With a header in hand: take what IDAT data there is, first from the saved bytes. */
    method DrainIdat(ghost s: State, ghost q: seq<byte>)
      requires Balanced() && Abs() == s && s.Running? && Queue() == q && bufferSize == |q| && FlagsOk(s)
      requires s.mode == IdatMode && s.flags.header
      modifies this, saveBuffer
      ensures saveBuffer == old(saveBuffer) || fresh(saveBuffer)
      ensures received == old(received) && currentBuffer == old(currentBuffer)
      ensures Took(s, q) && (failed || bufferSize < old(bufferSize) || bufferSize == 0)
    {
      hide Balanced, Queue, Took, Shaped, Run, Step, FlagsOk, SinkAll;
      ghost var t, r := s, q;
      if idatSize > 0 && saveBufferSize > 0 {
        var n := DrainSaved(s, q);
        DrainStep(cfg, s, q, n);
        if failed {
          TookFailure(s, q);
          return;
        }
        t, r := SinkAll(cfg, s, q[..n]), q[n..];
      }
      DrainRest(t, r);
      TookMore(s, q, t, r);
    }

    method DrainRest(ghost s: State, ghost q: seq<byte>)
      requires Balanced() && Abs() == s && s.Running? && Queue() == q && bufferSize == |q| && FlagsOk(s)
      requires s.mode == IdatMode && s.flags.header && (s.idatSize == 0 || saveBufferSize == 0)
      modifies this, saveBuffer
      ensures saveBuffer == old(saveBuffer) || fresh(saveBuffer)
      ensures received == old(received) && currentBuffer == old(currentBuffer)
      ensures Took(s, q) && (failed || bufferSize < old(bufferSize) || bufferSize == 0)
    {
      assert bufferSize == saveBufferSize + currentBufferSize;
      hide Balanced, Queue, Took, Shaped, Run, Step, FlagsOk, SinkAll;
      ghost var t, r := s, q;
      if idatSize > 0 && currentBufferSize > 0 {
        var n := DrainCurrent(s, q);
        DrainStep(cfg, s, q, n);
        if failed {
          TookFailure(s, q);
          return;
        }
        t, r := SinkAll(cfg, s, q[..n]), q[n..];
      }
      if idatSize == 0 {
        FinishIdat(t, r);
        TookMore(s, q, t, r);
      } else {
        TookSteps(s, q, t, r);
      }
    }

    /** All the data of the chunk has gone: its CRC is next. */
    method FinishIdat(ghost s: State, ghost q: seq<byte>)
      requires Balanced() && Abs() == s && s.Running? && Queue() == q && bufferSize == |q| && FlagsOk(s)
      requires s.mode == IdatMode && s.flags.header && s.idatSize == 0
      modifies this, saveBuffer
      ensures saveBuffer == old(saveBuffer) || fresh(saveBuffer)
      ensures received == old(received) && currentBuffer == old(currentBuffer)
      ensures Took(s, q) && (failed || bufferSize < old(bufferSize) || bufferSize == 0)
    {
      hide *;
      AbsIs();
      StepOnCrc(cfg, s, q);
      if bufferSize < 4 {
        SaveBuffer();
        TookNothing(s, q);
        return;
      }
      EndIdat(s, q);
      StepKeepsFlags(cfg, s, q);
      TookSteps(s, q, ReadCrc(cfg, s, q[..4]), q[4..]);
    }

    method PushReadIdat(ghost s: State, ghost q: seq<byte>)
      requires Balanced() && Abs() == s && s.Running? && Queue() == q && FlagsOk(s)
      requires s.mode == IdatMode && bufferSize == |q| > 0
      modifies this, saveBuffer
      ensures saveBuffer == old(saveBuffer) || fresh(saveBuffer)
      ensures received == old(received) && currentBuffer == old(currentBuffer)
      ensures Took(s, q) && (failed || bufferSize < old(bufferSize))
    {
      hide *;
      AbsIs();
      if flags.header {
        DrainIdat(s, q);
        return;
      }
      StepOnIdatHeader(cfg, s, q);
      if bufferSize < 8 {
        SaveBuffer();
        TookNothing(s, q);
        return;
      }
      ghost var t := ReadHeader(cfg, s, q);
      StepKeepsFlags(cfg, s, q);
      NextIdatHeader(s, q);
      AbsIs();
      if failed {
        TookFailure(s, q);
      } else if processMode == ChunkMode {
        TookSteps(s, q, t, q[8..]);
      } else {
        HeaderInIdatMode(cfg, s, q);
        DrainIdat(t, q[8..]);
        TookMore(s, q, t, q[8..]);
      }
    }

    lemma StepOnIdatHeader(cfg: Config, s: State, q: seq<byte>)
      requires s.Running? && s.mode == IdatMode && !s.flags.header
      ensures if |q| < 8 then Step(cfg, s, q).Stall?
              else
                var t := ReadHeader(cfg, s, q);
                && Step(cfg, s, q) == Go(8, t)
                && Run(cfg, s, q) == (if t.Failed? then (t, []) else Run(cfg, t, q[8..]))
    {
      hide ReadHeader;
    }

    lemma HeaderInIdatMode(cfg: Config, s: State, q: seq<byte>)
      requires s.Running? && s.mode == IdatMode && |q| >= 8
      ensures var t := ReadHeader(cfg, s, q); t.Running? && t.mode != ChunkMode ==> t.mode == IdatMode && t.flags.header
    {
    }

    // --- Skipping -------------------------------------------------------------------------------

    /** png_push_crc_finish: run the bytes to skip through the CRC, wherever they are, then check it. */
    method PushCrcFinish(ghost s: State, ghost q: seq<byte>)
      requires Balanced() && Abs() == s && s.Running? && Queue() == q && FlagsOk(s)
      requires s.mode == SkipMode && bufferSize == |q| > 0
      modifies this, saveBuffer
      ensures saveBuffer == old(saveBuffer) || fresh(saveBuffer)
      ensures received == old(received) && currentBuffer == old(currentBuffer)
      ensures Took(s, q) && (failed || bufferSize < old(bufferSize))
    {
      hide Balanced, Queue, Took, Shaped, Run, Step;
      ghost var t, r := s, q;
      if skipLength > 0 && saveBufferSize > 0 {
        var n := SkipSaved(s, q);
        RunSkipped(cfg, s, q, n);
        t, r := s.(skipLength := s.skipLength - n, crc := s.crc + q[..n]), q[n..];
      }
      SkipRest(t, r);
      TookMore(s, q, t, r);
    }

    method SkipSaved(ghost s: State, ghost q: seq<byte>) returns (n: nat)
      requires Balanced() && Abs() == s && s.Running? && Queue() == q && bufferSize == |q|
      requires 0 < skipLength == s.skipLength && crc == s.crc && saveBufferSize > 0
      modifies `crc, `skipLength, `bufferSize, `saveBufferPtr, `saveBufferSize
      ensures Balanced() && 0 < n <= s.skipLength && n <= |q| && Queue() == q[n..] && bufferSize == |q| - n
      ensures Abs() == s.(skipLength := s.skipLength - n, crc := s.crc + q[..n])
      ensures n == s.skipLength || saveBufferSize == 0
    {
      hide *;
      AbsIs();
      n := if skipLength < saveBufferSize then skipLength else saveBufferSize;
      SavedPrefix(n, q);
      crc := crc + saveBuffer[saveBufferPtr..saveBufferPtr + n];
      skipLength := skipLength - n;
      AbsIs();
      DropSaved(n);
    }

    method SkipCurrent(ghost s: State, ghost q: seq<byte>) returns (n: nat)
      requires Balanced() && Abs() == s && s.Running? && Queue() == q && bufferSize == |q|
      requires 0 < skipLength == s.skipLength && crc == s.crc && saveBufferSize == 0 && currentBufferSize > 0
      modifies `crc, `skipLength, `bufferSize, `currentBufferPtr, `currentBufferSize
      ensures Balanced() && 0 < n <= s.skipLength && n <= |q| && Queue() == q[n..] && bufferSize == |q| - n
      ensures Abs() == s.(skipLength := s.skipLength - n, crc := s.crc + q[..n])
      ensures n == s.skipLength || currentBufferSize == 0
    {
      hide *;
      AbsIs();
      n := if skipLength < currentBufferSize then skipLength else currentBufferSize;
      CurrentPrefix(n, q);
      crc := crc + currentBuffer[currentBufferPtr..currentBufferPtr + n];
      skipLength := skipLength - n;
      AbsIs();
      DropCurrent(n);
    }

    method SkipRest(ghost s: State, ghost q: seq<byte>)
      requires Balanced() && Abs() == s && s.Running? && Queue() == q && bufferSize == |q| && FlagsOk(s)
      requires s.mode == SkipMode && (s.skipLength == 0 || saveBufferSize == 0)
      modifies this, saveBuffer
      ensures saveBuffer == old(saveBuffer) || fresh(saveBuffer)
      ensures received == old(received) && currentBuffer == old(currentBuffer)
      ensures Took(s, q) && (failed || bufferSize < old(bufferSize) || bufferSize == 0)
    {
      assert bufferSize == saveBufferSize + currentBufferSize;
      hide Balanced, Queue, Took, Shaped, Run, Step;
      ghost var t, r := s, q;
      if skipLength > 0 && currentBufferSize > 0 {
        var n := SkipCurrent(s, q);
        RunSkipped(cfg, s, q, n);
        t, r := s.(skipLength := s.skipLength - n, crc := s.crc + q[..n]), q[n..];
      }
      if skipLength == 0 {
        FinishSkip(t, r);
        TookMore(s, q, t, r);
      } else {
        TookSteps(s, q, t, r);
      }
    }

    lemma StepOnCrc(cfg: Config, s: State, q: seq<byte>)
      requires s.Running?
      requires (s.mode == IdatMode && s.flags.header && s.idatSize == 0) || (s.mode == SkipMode && s.skipLength == 0)
      ensures if |q| < 4 then Step(cfg, s, q).Stall?
              else
                var t := ReadCrc(cfg, s, q[..4]);
                Step(cfg, s, q) == Go(4, t) && Run(cfg, s, q) == Run(cfg, t, q[4..])
    {
      hide ReadCrc;
    }

    method FinishSkip(ghost s: State, ghost q: seq<byte>)
      requires Balanced() && Abs() == s && s.Running? && Queue() == q && bufferSize == |q| && FlagsOk(s)
      requires s.mode == SkipMode && s.skipLength == 0
      modifies this, saveBuffer
      ensures saveBuffer == old(saveBuffer) || fresh(saveBuffer)
      ensures received == old(received) && currentBuffer == old(currentBuffer)
      ensures Took(s, q) && (failed || bufferSize < old(bufferSize) || bufferSize == 0)
    {
      hide *;
      AbsIs();
      StepOnCrc(cfg, s, q);
      if bufferSize < 4 {
        SaveBuffer();
        TookNothing(s, q);
        return;
      }
      EndSkip(s, q);
      StepKeepsFlags(cfg, s, q);
      TookSteps(s, q, ReadCrc(cfg, s, q[..4]), q[4..]);
    }

    method EndSkip(ghost s: State, ghost q: seq<byte>)
      requires Balanced() && Abs() == s && s.Running? && Queue() == q && 4 <= bufferSize == |q|
      requires s.mode == SkipMode
      modifies `bufferSize, `saveBufferPtr, `saveBufferSize, `currentBufferPtr, `currentBufferSize
      modifies `failed, `processMode
      ensures Balanced() && bufferSize < old(bufferSize) && Queue() == q[4..] && Abs() == ReadCrc(cfg, s, q[..4])
    {
      hide *;
      AbsIs();
      ReadCrcIs(cfg, s, q[..4]);
      var stored := CrcFinish();
      AbsIs();
      if failed { return; }
      processMode := ChunkMode;
      AbsIs();
    }

    // --- The dispatch loop ----------------------------------------------------------------------

    /** png_process_some_data */
    method ProcessSomeData(ghost s: State, ghost q: seq<byte>)
      requires Steady() && !failed && bufferSize > 0
      requires s == Abs() && (processMode != DoneMode ==> q == Queue())
      modifies this, saveBuffer, signature
      ensures saveBuffer == old(saveBuffer) || fresh(saveBuffer)
      ensures received == old(received) && currentBuffer == old(currentBuffer)
      ensures Took(s, q) && (failed || bufferSize < old(bufferSize))
    {
      assert processMode != DoneMode ==> bufferSize == |q|;
      hide Balanced, Queue, Took, Run, Step;
      match processMode {
        case SigMode => PushReadSig(s, q);
        case ChunkMode => PushReadChunk(s, q);
        case IdatMode => PushReadIdat(s, q);
        case SkipMode => PushCrcFinish(s, q);
        case DoneMode =>
          bufferSize := 0;
          TookDone(s, q);
      }
    }

    lemma TookDone(s: State, q: seq<byte>)
      requires Shaped() && Abs() == s && s.Running? && s.mode == DoneMode && FlagsOk(s) && bufferSize == 0
      ensures Took(s, q)
    {
    }

    /** png_process_data: queue the block, then dispatch until nothing is left to do.  The loop ends because
        every dispatch shortens the queue or fails. */
    method ProcessData(buffer: array<byte>)
      requires Valid() && buffer != saveBuffer && buffer != signature
      modifies this, saveBuffer, signature
      ensures Valid() && received == old(received) + buffer[..]
      ensures (Abs(), Pending()) == Feed(cfg, (old(Abs()), old(Pending())), buffer[..])
      ensures saveBuffer == old(saveBuffer) || fresh(saveBuffer)
    {
      hide *;
      ghost var data := buffer[..];
      ghost var s, q := BeginCall(buffer);
      while bufferSize > 0 && !failed
        invariant Took(s, q)
        invariant saveBuffer == old(saveBuffer) || fresh(saveBuffer)
        invariant received == old(received) + data
        decreases !failed, bufferSize
      {
        StillAhead(s, q);
        ghost var t, r := Abs(), Ahead();
        ProcessSomeData(t, r);
        TookMore(s, q, t, r);
      }
      AllTaken(s, q);
      FromStart(s, q);
    }

    /** Queue the caller's block; the run to make is then that of Feed. */
    method BeginCall(buffer: array<byte>) returns (ghost s: State, ghost q: seq<byte>)
      requires Valid() && buffer != saveBuffer && buffer != signature
      modifies `currentBuffer, `currentBufferPtr, `currentBufferSize, `bufferSize, `received
      ensures Took(s, q) && received == old(received) + buffer[..]
      ensures s == old(Abs()) && Run(cfg, s, q) == Feed(cfg, (s, old(Pending())), buffer[..])
      ensures skipped <= 8 && Run(cfg, s, q) == Run(cfg, Start(skipped), received)
    {
      hide *;
      ValidParts();
      s, q := Abs(), Pending() + buffer[..];
      FeedIs(cfg, s, Pending(), buffer[..]);
      RunSplit(cfg, Start(skipped), received, buffer[..]);
      RestoreBuffer(buffer);
      received := received + buffer[..];
      TookRestored(s, q);
    }

    lemma ValidParts()
      requires Valid()
      ensures Shaped() && FlagsOk(Abs()) && skipped <= 8 && (Abs(), Pending()) == Run(cfg, Start(skipped), received)
      ensures Pending() == if Abs().Failed? || Abs().mode == DoneMode then [] else Saved()
    {
      hide Run, FlagsOk, Saved;
    }

    lemma FromStart(s: State, q: seq<byte>)
      requires Steady() && skipped <= 8 && (Abs(), Pending()) == Run(cfg, s, q) == Run(cfg, Start(skipped), received)
      ensures Valid()
    {
    }

    ghost function Ahead(): seq<byte>
      requires Shaped()
      reads this, saveBuffer, currentBuffer
    {
      if processMode == DoneMode then [] else Queue()
    }

    lemma TookRestored(s: State, q: seq<byte>)
      requires Balanced() && Abs() == s && FlagsOk(s)
      requires s.Running? && s.mode != DoneMode ==> q == Queue()
      ensures Took(s, q)
    {
      if bufferSize == 0 {
        RunOnNothing(cfg, s);
      }
    }

    lemma StillAhead(s: State, q: seq<byte>)
      requires Took(s, q) && bufferSize > 0 && !failed
      ensures Steady() && Shaped() && Run(cfg, s, q) == Run(cfg, Abs(), Ahead())
      ensures processMode != DoneMode ==> Ahead() == Queue()
    {
    }

    lemma AllTaken(s: State, q: seq<byte>)
      requires Took(s, q) && (bufferSize == 0 || failed)
      ensures Steady() && Shaped() && (Abs(), Pending()) == Run(cfg, s, q)
    {
    }

    /** Between calls, whatever has been received: one image block, in its place; the critical chunks in theirs; and
        once the reader is done, the image has been there. */
    lemma CallbacksAreOrdered()
      requires Valid() && cfg.benignFatal
      ensures WellOrdered(trace)
      ensures HeaderLeads(trace) && PaletteOnce(trace)
      ensures if !failed && processMode == DoneMode then
                Closed(trace) && exists a: nat, b: nat, c: byte :: ImageBlock(trace, a, b, c)
              else Unended(trace)
    {
      ImageIsOneBlock(cfg, skipped, received);
      ChunksAreOrdered(cfg, skipped, received);
      hide HeaderLeads, PaletteOnce, Closed, Unended, ImageBlock, WellOrdered, Run;
      if !failed && processMode == DoneMode {
        var a, b, c := EndedHasImage(cfg, skipped, received);
      }
    }
  }
}
