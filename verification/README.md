# A verified model of hackterm's protocol and data-structure core

hackterm is a terminal emulator. This project models the parts of it that hold state or arithmetic worth a proof, and
proves what they promise, with Dafny 4.11. `dafny verify dfyconfig.toml` checks everything.

* **The push-mode PNG reader** (`PngStream`, `PngPushReader`, `PngOrder`, `PngChunkOrder`, `PngFile`, `PngBytes`,
  `PngCrc`, `PngAccept`, `PngGrammar`). `PngPushReader` is libpng's `png_struct` as a class, with its save buffer, current
  block and dispatch loop. `PngStream` is what it computes, as a machine over single bytes; the class refines it. On the
  machine: independence of fragmentation, order of callbacks, CRCs, reading and writing as inverses of each other, and a
  grammar of chunks that says exactly which bytes are accepted.
* **Image data** (`Adam7`, `PngRows`, `PngImageData`, `PngReaderRows`). The bit tricks of the `PNG_PASS_*` macros, the
  row sequencer of the push reader, the loop that gathers zlib's output into its rows, and what the rows of a whole stream
  depend on.
* **Fixed-point numbers** (`MulDiv`, `FpNumber`, `AsciiFixed`, `GammaTable`). 32-bit multiply-divide, a resumable
  recogniser of decimal numbers, a printer, and the 16-to-8 gamma table.
* **uthash** (`HashTable`, `StableSort`, `HashSort`, `HashRuns`, `HashCheck`). Bucket chains and an insertion-order list
  over the same elements; lookup, Bloom reject, insertion, deletion, expansion, in-place merge sort; whole runs against a
  map.
* **hackterm's own code** (`Line`, `Base64`, `Base64RoundTrip`, `InlineData`, `InlineTransfer`, `InlineFiles`, `GlyphCache`).
  Bresenham lines, the base64 decoder that keeps bits between calls, the receiver of inline files up to end-to-end
  theorems, and the glyph cache in its uthash table. `Common` and `Bits` hold what several modules use.

Code that works in place is a class or a method here, proved against a function of the old state; the laws are lemmas
about those functions. A few places where the code and what one would expect of it differ:

* `png_muldiv` promises the rounded quotient, or failure if that does not fit. It rounds up a remainder just below one
  half for an odd divisor, which gives wrong numbers and also refuses results that fit, and it reports a rounded magnitude
  of 2^32 as a successful 0. `MulDiv.PromiseKept` says for all inputs when the promise is kept, `MulDiv.Faults` has a
  witness of each fault. The integer branch is modelled although `libpng/pnglibconf.h:44` selects the floating one in
  this build.
* The 16-to-8 table is meant to hold the closest level. Its boundaries are rounded and then included, so with fewer than
  16 significant bits some inputs get the level below: `GammaTable.IdentityRounds` says which.
* The comment on `PNG_FP_WAS_VALID` (`libpng/pngpriv.h:1593-1600`) says to recover by omitting the last character;
  behind an `E` and a sign two have to go (`FpNumber.RecoverByCutting`).
* `inline_data_receive` decodes into arrays on the stack without checking that the text fits. The theorems about transfers
  ask that it does; `InlineData.FitsExactly` says when, and `InlineFiles.Overrun` gives a call that does not.
* Every file that completes makes the code use freed memory: `end_callback` (`inlinedata.c:135-138`) destroys the
  `png_struct` inside `png_process_data`, whose dispatch then writes `png_ptr->mode` and whose loop reads
  `png_ptr->buffer_size` (`libpng/pngpread.c:38`). The theorems about files take the reader as a value and pass over this:
  they say what the program does where the freed struct is left as it was.
* A chunk name is checked for letters in chunk mode (`libpng/pngpread.c:212`) but not directly behind an IDAT chunk, where
  the header is read in image mode (`libpng/pngpread.c:757-779`): there any name with bit 5 set in its first byte will
  do (`PngGrammar.NotOfLetters`).
* The words that set the font size are not heard at the very front of the buffer, since their tests are `> 0`; the one that
  starts a file is (`InlineData.FontSizeSet`).
* Emptying the glyph cache hands each structure, instead of its texture, to `SDL_DestroyTexture` (`nunifont.c:68-69`).
* A file that ends in the call that starts it leaves `processing_png` set: the next call is lost
  (`InlineFiles.StartCompletes`).
* `buffer_search` does not see a match at the very end of the buffer, so a file starts with the first byte behind the
  magic word.
* `HASH_EXPAND_BUCKETS` divides by `ideal_chain_maxlen`; that is never zero because `HASH_ADD_KEYPTR` counts the element
  before it puts it in its bucket.
* The cache key of a glyph has no trace of the maps, so cached textures are right only because changing the maps empties
  the cache.

What is outside the code shown here enters as parameters: the hash function, the gamma curve, the comparison of
`HASH_SRT`, and for PNG the record `PngStream.Config` (whether a CRC matches, whether IHDR fields are valid, what an
ancillary handler decides, what zlib reports, and whether benign errors are fatal).

## Model

| member | source | states |
|---|---|---|
| `PngStream.StepIgnoresLaterBytes` | libpng/pngpread.c:105-143 | a step that can be taken on the bytes at hand is taken the same way when more bytes follow |
| `PngStream.RunSplit` | libpng/pngpread.c:29-42 | reading q and then more is reading q + more in one call: same state, same bytes pending |
| `PngStream.RunIsSettled` | libpng/pngpread.c:38-41 | a call leaves nothing undone: feeding no bytes afterwards changes nothing |
| `PngStream.FeedAllIsRun` | libpng/pngpread.c:29-42 | any number of calls, from any settled state, amount to one call on the pending bytes and the concatenation |
| `PngStream.FragmentationIndependence` | libpng/pngpread.c:29-42 | two ways of cutting the same stream into calls end in the same state (events, decompressor input, error or not) with the same bytes pending |
| `PngOrder.StepKeepsFlags` | libpng/pngpread.c:218-228 | every step keeps the relations between the mode bits, among them that in chunk mode PNG_HAVE_IDAT implies PNG_AFTER_IDAT |
| `PngOrder.StepKeepsTrace` | libpng/pngpread.c:297-330 | every step keeps the event trace in the order the flags describe, when benign errors are fatal |
| `PngOrder.RunKeepsOrder` | libpng/pngpread.c:105-143 | so does every run, from every state that has the two invariants |
| `PngOrder.ImageIsOneBlock` | libpng/pngpread.c:297-330 | in every run with benign errors fatal the IDAT events are one block, after IHDR, and after PLTE for a palette image (section 4.3 of RFC 2083) |
| `PngOrder.InfoOnceBeforeData` | libpng/pngpread.c:311-330 | the info callback comes at most once, and before any image data |
| `PngChunkOrder.ChunkTaken` | libpng/pngrutil.c:520-763 | before IHDR a chunk other than IHDR is taken if and only if it is ancillary and unknown to the reader |
| `PngChunkOrder.StepKeepsLayout` | libpng/pngpread.c:185-565 | every step keeps the order of the critical chunks |
| `PngChunkOrder.ChunksAreOrdered` | libpng/pngpread.c:29-42 | in every run IHDR comes once, with nothing but unknown ancillary chunks before it; PLTE comes at most once before the image; and the end is reported exactly when the reader is done, behind the IEND chunk and with nothing after it |
| `PngChunkOrder.EndedHasImage` | libpng/pngrutil.c:743-763 | a run that has ended has had its info callback exactly once, and its block of IDAT chunks |
| `PngPushReader.MoveToFront` | libpng/pngpread.c:682-700 | the overlapping forward copy moves the saved bytes intact |
| `PngPushReader.RunSignature` | libpng/pngpread.c:151-183 | checking n signature bytes at once is n one-byte steps |
| `PngPushReader.RunIdatData` | libpng/pngpread.c:787-838 | draining n bytes of image data at once is n one-byte steps |
| `PngPushReader.RunSkipped` | libpng/pngpread.c:574-635 | skipping n bytes at once is n one-byte steps |
| `PngPushReader.PngStruct.constructor` | libpng/pngmem.c:31-72 | creation: the zeroed struct is the start state, signature mode with nothing pending |
| `PngPushReader.PngStruct.FillBuffer` | libpng/pngpread.c:637-680 | dequeues min(length, queued) bytes into the buffer, saved part first; the rest of the buffer and of the queue stay |
| `PngPushReader.PngStruct.Compact` | libpng/pngpread.c:682-700 | moving the saved bytes to the front changes neither part of the queue |
| `PngPushReader.PngStruct.Regrow` | libpng/pngpread.c:703-728 | growing the save buffer changes neither part of the queue and makes room for both |
| `PngPushReader.PngStruct.SaveBuffer` | libpng/pngpread.c:682-740 | afterwards the saved bytes are the whole queue, and nothing is current |
| `PngPushReader.PngStruct.RestoreBuffer` | libpng/pngpread.c:742-750 | queues the caller's block behind the saved bytes |
| `PngPushReader.PngStruct.CrcRead` | libpng/pngrutil.c:188-198 | takes the next n bytes and runs them through the CRC |
| `PngPushReader.PngStruct.CrcFinish` | libpng/pngrutil.c:203-240 | with nothing to skip and the default CRC flags: takes the four stored bytes; fails exactly for a mismatch in a chunk whose name has bit 29 clear, with benign errors fatal |
| `PngPushReader.PngStruct.HandleIHDR` | libpng/pngrutil.c:520-592 | refines DoneIHDR: a second IHDR, a bad CRC or bad fields fail; otherwise the header is noted |
| `PngPushReader.PngStruct.HandlePLTE` | libpng/pngrutil.c:595-741 | refines DonePLTE: order, repetition and length of the palette as the handler checks them |
| `PngPushReader.PngStruct.HandleIEND` | libpng/pngrutil.c:743-763 | refines DoneIEND: needs header and image data, ends the image and the stream |
| `PngPushReader.PngStruct.HandleUnknown` | libpng/pngrutil.c:2623-2745 | with no list of chunks to keep and no cache limit, refines DoneUnknown: a critical chunk without a handler fails, an ancillary one is taken |
| `PngPushReader.PngStruct.PushReadSig` | libpng/pngpread.c:151-183 | one dispatch in signature mode lands where the byte machine does, and shortens the queue or fails |
| `PngPushReader.PngStruct.PushReadChunk` | libpng/pngpread.c:185-565 | one dispatch in chunk mode lands where the byte machine does, and shortens the queue or fails; the no-progress return for an empty IDAT is unreachable |
| `PngPushReader.PngStruct.ProcessIdatData` | libpng/pngpread.c:854-956 | hands bytes to the decompressor in order and stops at its end or error; what that end or error is, `PngImageData` says |
| `PngPushReader.PngStruct.PushReadIdat` | libpng/pngpread.c:752-852 | one dispatch in image mode lands where the byte machine does, and shortens the queue or fails |
| `PngPushReader.PngStruct.PushCrcFinish` | libpng/pngpread.c:574-635 | one dispatch in skip mode lands where the byte machine does, and shortens the queue or fails |
| `PngPushReader.PngStruct.ProcessSomeData` | libpng/pngpread.c:105-143 | every dispatch does, which is why the loop of png_process_data ends |
| `PngPushReader.PngStruct.ProcessData` | libpng/pngpread.c:29-42 | refinement: the new state and pending bytes are Feed of the old ones; and they are a function of the bytes received since the start, however cut |
| `PngPushReader.PngStruct.CallbacksAreOrdered` | libpng/pngpread.c:1253-1273 | between calls, whatever has arrived: the image is one block in its place, IHDR leads but for unknown ancillary chunks, PLTE comes at most once before the image, and when the reader is done it has had an image and the report closes with IEND and the end |
| `PngFile.ReadPlain` | libpng/pngpread.c:185-565 | a serialized chunk is read back as that chunk |
| `PngFile.ReadIdatBody` | libpng/pngpread.c:752-852 | a serialized IDAT body reaches the decompressor byte by byte |
| `PngFile.LeastFile` | libpng/pngpread.c:297-330 | such files exist: an IHDR, one IDAT and an IEND are enough |
| `PngFile.FileRoundTrip` | libpng/pngpread.c:185-565 | for files whose ancillary chunks are acceptable where they stand: the reader is the inverse of writing: a well-formed file, from signature to IEND, is reported as exactly the chunks it was made of, then the end, with nothing pending |
| `PngBytes.StepUses` | libpng/pngpread.c:105-143 | every step takes from the queue exactly the bytes that its events spell out |
| `PngBytes.NothingLost` | libpng/pngpread.c:29-42 | the other direction, for any bytes at all: as long as the reader has not refused them, its report written out again, and what it keeps pending, are byte for byte what it was given |
| `PngBytes.EndsWithLastByte` | libpng/pngpread.c:29-42 | the reader of a well-formed file neither ends nor fails before its last byte |
| `PngCrc.StepVouches` | libpng/pngrutil.c:203-240 | every step keeps, with benign errors fatal: each IHDR, PLTE and IEND reported matches its CRC over name and body, and each IDAT chunk ended matches its CRC over name and data |
| `PngCrc.ReportsAreVouched` | libpng/pngrutil.c:203-240 | so it is in every run, of any bytes, ended, unfinished or failed |
| `PngCrc.ReaderVouches` | libpng/pngrutil.c:203-240 | and in the reader itself, between any two calls |
| `PngAccept.RunChunk` | libpng/pngpread.c:185-565 | 12 + length bytes take a reader that waits for a header to one that waits for the next, or ends or fails it; what comes behind does not matter |
| `PngAccept.ChunksOf` | libpng/pngpread.c:29-42 | if a reader has ended, whatever it was given begins with whole chunks, and these have taken it to its end |
| `PngAccept.LeadsRuns` | libpng/pngpread.c:29-42 | and whole chunks that take a reader to its end do so with anything behind them |
| `PngGrammar.HandledIs` | libpng/pngpread.c:342-562 | the chunks dispatched to a handler of their own, by their names in letters |
| `PngGrammar.LetteredIs` | libpng/pngrutil.c:2759-2781 | a chunk name is let through if and only if its four bytes are ASCII letters |
| `PngGrammar.OptionalIs` | libpng/pngpriv.h:684-685 | a chunk is critical if and only if bit 5 of its first letter is clear |
| `PngGrammar.SignatureIs` | libpng/png.c:51-51 | the eight bytes of the signature, in hexadecimal and in letters |
| `PngGrammar.NextMatches` | libpng/pngpread.c:185-565 | a whole chunk is taken if and only if it may follow the chunks before it, in a grammar that does not mention the reader: order, repetition, letters, length of IHDR, palette, CRC, completeness of the image, what the decompressor breaks at |
| `PngGrammar.AcceptsExactly` | libpng/pngpread.c:29-42 | which bytes end the reader without failure, for any bytes, configuration and number of signature bytes seen before: what is left of the signature, then a list of chunks each of which may follow those before it, with IEND last and only last, then anything; and no others |
| `PngGrammar.AcceptedReport` | libpng/pngpread.c:29-42 | and then the report is these chunks in order, with the info callback before the image and the end behind IEND |
| `PngGrammar.ReaderAccepts` | libpng/pngpread.c:29-42 | the same of the reader itself, of all bytes received in whatever pieces |
| `PngGrammar.NotOfLetters` | libpng/pngpread.c:757-779 | a chunk whose name is not four letters is taken if and only if it stands directly behind an IDAT with the image complete, and bit 5 of its first byte is set |
| `PngGrammar.CrcOfOptional` | libpng/pngrutil.c:212-233 | the CRC of an ancillary chunk does not decide whether it is taken |
| `PngGrammar.CrcOfCritical` | libpng/pngrutil.c:212-233 | that of any other chunk that is taken matches, where benign errors are fatal |
| `Adam7.MacrosMatchTables` | libpng/png.h:2504-2520 | the start, offset and shift macros agree with the reader's tables for all seven passes |
| `Adam7.RowInPassMeans` | libpng/png.h:2548-2554 | PNG_ROW_IN_INTERLACE_PASS is the remainder test of the pass |
| `Adam7.ColInPassMeans` | libpng/png.h:2548-2554 | PNG_COL_IN_INTERLACE_PASS likewise |
| `Adam7.PassRowsCount` | libpng/png.h:2527-2531 | PNG_PASS_ROWS counts exactly the rows of the pass below the height |
| `Adam7.PassColsCount` | libpng/png.h:2527-2531 | PNG_PASS_COLS counts exactly the columns of the pass below the width |
| `Adam7.PassOfIsMask` | libpng/png.h:2548-2554 | a pixel is in both masks of exactly one pass |
| `Adam7.PassOfIsPattern` | libpng/png.h:2504-2520 | the pass of a pixel is the one that the 8 by 8 pattern of section 2.6 of RFC 2083 gives it |
| `Adam7.PassesPartitionImage` | libpng/png.h:2536-2554 | every pixel of every image is (pass, row, column) in exactly one way, and the masks name that pass (section 2.6 of RFC 2083) |
| `Adam7.CoversOnlyImage` | libpng/png.h:2536-2541 | and every (pass, row, column) is a pixel of the image |
| `PngRows.TooNarrow` | libpng/pngpread.c:1224-1228 | the width tests of png_read_push_finish_row skip exactly the passes without columns |
| `PngRows.RowReader.constructor` | libpng/pngrutil.c:3886-3936 | an image starts at pass 0, row 0, with the values of png_read_start_row |
| `PngRows.RowReader.FinishRow` | libpng/pngpread.c:1187-1251 | next row; when the image is interlaced and the pass is over, the first row of the next pass that is visited, with PNG_PASS_ROWS and PNG_PASS_COLS of it |
| `PngRows.RowReader.EmitRow` | libpng/pngpread.c:1266-1273 | a callback extends the emitted prefix by the next row due |
| `PngRows.RowReader.RowOfPass0` | libpng/pngpread.c:1014-1048 | row k of pass 0 is called back for its eight rows; the blank rows a low image leaves follow |
| `PngRows.RowReader.RowOfPass2` | libpng/pngpread.c:1071-1097 | row k of pass 2, with four blank rows behind it; pass 2 opens with four blank rows |
| `PngRows.RowReader.RowOfPass4` | libpng/pngpread.c:1121-1144 | row k of pass 4, with two blank rows |
| `PngRows.RowReader.RowOfPass6` | libpng/pngpread.c:1165-1176 | row k of pass 6, with one blank row |
| `PngRows.RowReader.ProcessRow` | libpng/pngpread.c:958-1185 | one decompressed row, of an image interlaced or not, keeps the invariant that the callbacks are a prefix of the full list and consumes exactly one data row |
| `PngRows.RowReader.StillMissing` | libpng/pngpread.c:1187-1251 | the test on row_number, num_rows and pass says rows are missing exactly until all data rows have been consumed, and then every row has been called back |
| `PngRows.CallsAreAllRowsInOrder` | libpng/pngpread.c:1004-1178 | every visited pass calls back all its rows, in order, once; blank exactly as (row&7)<4 in pass 2, (row&3)<2 in pass 4, even row in pass 6 |
| `PngRows.CallsAre` | libpng/pngpread.c:1004-1178 | the row calls of any interlaced image from the start and step tables alone: untransformed, the own rows of each pass that has columns; transformed, every row of the image in each such pass |
| `PngRows.BlankMeans` | libpng/pngpread.c:1029-1176 | a row of a transformed pass is blank if and only if it lies above the own row of the pass in its block of rows |
| `PngRows.EveryPixelDeliveredOnce` | libpng/pngpread.c:1187-1251 | without the transformation every pixel is delivered by exactly one callback at exactly one column |
| `PngImageData.ImageReader.constructor` | libpng/pngpread.c:323-328 | the row buffer is set up for the first row |
| `PngImageData.RowBytesIs` | libpng/pngpriv.h:573-576 | PNG_ROWBYTES is the bits of the row rounded up to whole bytes, for every pixel depth |
| `PngImageData.ImageReader.MissingMeans` | libpng/pngpread.c:909-911 | rows are missing exactly as long as zlib has put out fewer bytes than the whole image takes; then every row has been called back |
| `PngImageData.ImageReader.ProcessLine` | libpng/pngpread.c:958-974 | a full buffer is the next row of the image and is handed on, or it has an unknown filter and is refused |
| `PngImageData.ImageReader.Inflate` | libpng/pngpread.c:880-898 | one call of inflate: what it puts out goes behind what the buffer holds |
| `PngImageData.ImageReader.OneTurn` | libpng/pngpread.c:874-949 | one turn of the loop: extra data exactly when there is more than the image, truncated exactly when zlib fails with the image complete, an error exactly when it fails before |
| `PngImageData.ImageReader.ProcessIdatData` | libpng/pngpread.c:854-956 | the loop terminates with that verdict for any input and any zlib that keeps to its buffers; every byte zlib has put out is in exactly one row or in the buffer |
| `PngImageData.PlaceByCount` | libpng/pngpread.c:1187-1251 | where the sequencer stands is a function of the number of rows it has been given |
| `PngImageData.RowsDependOnOutput` | libpng/pngpread.c:854-956 | however the compressed data is cut and zlib portions its output, the same output gives the same rows and the same callbacks |
| `PngImageData.CutIndependence` | libpng/pngpread.c:854-956 | for a zlib that holds nothing back: however the same image data is cut into calls, the rows and callbacks are the same |
| `PngImageData.CopyStreams` | libpng/pngpread.c:898-898 | there are such functions: one that copies its input |
| `PngReaderRows.SinkReports` | libpng/pngpread.c:787-838 | every byte of image data is handed on once and in order |
| `PngReaderRows.RowsDependOnBytes` | libpng/pngpread.c:29-42 | the row callbacks of a whole stream depend only on the bytes received, however they were cut, and however the image data and the output of zlib were portioned |
| `MulDiv.Product` | libpng/png.c:1958-1975 | the 16-bit halves give the exact 64-bit product in two words |
| `MulDiv.Subtract` | libpng/png.c:1985-2002 | one turn of the shift-subtract loop |
| `MulDiv.Divide` | libpng/png.c:1978-2002 | quotient and remainder of the two-word product; the remainder ends below D |
| `MulDiv.MulDivide` | libpng/png.c:1909-2026 | the whole function, against rounding of the exact product |
| `MulDiv.RoundedIsClose` | libpng/png.c:2004-2009 | the rounding is within (D+1)/2 of the exact quotient times D; nearest but for odd D just below one half; ties away from zero |
| `MulDiv.SuccessMeansFits` | libpng/png.c:2010-2015 | success exactly when the signed rounded result fits 32 bits, except that a rounded magnitude of 2^32 is a successful 0 |
| `MulDiv.NearestAwayIs` | libpng/pngpriv.h:1616-1621 | the integer promised is a nearest one to the exact quotient, and of two nearest the one farther from zero |
| `MulDiv.PromiseKept` | libpng/png.c:1908-2026 | for all inputs: the nearest integer is stored if it fits 32 bits and failure is reported otherwise, if and only if neither an odd divisor has a remainder just below one half with a quotient that itself fits, nor the magnitude rounds up to 2^32 |
| `MulDiv.ResultIsNearest` | libpng/png.c:1908-1913 | a stored number is nearest if and only if the divisor is even or the remainder is not just below one half, and the magnitude does not round to 2^32 |
| `MulDiv.Faults` | libpng/png.c:2004-2015 | witnesses: 1 * 1 / 3 gives 1; 0x7fffffff * 1 / 1 is refused; 65535 * 65537 / 1 is a successful 0 |
| `FpNumber.CheckFpNumber` | libpng/png.c:1320-1443 | the loop computes Scan: state and index at the first character that does not go on |
| `FpNumber.CheckFpString` | libpng/png.c:1446-1458 | the final state of an accepted string, else 0 |
| `FpNumber.ScanResumes` | libpng/png.c:1320-1324 | resuming from a saved state and index equals one call on the longer string |
| `FpNumber.StepMatches` | libpng/png.c:1354-1433 | the state word always describes the number read so far, and the recogniser stops exactly where no number goes on |
| `FpNumber.ScanReadsNumber` | libpng/png.c:1326-1436 | what has been scanned is the beginning of a number, and the longest one |
| `FpNumber.AcceptsExactlyNumbers` | libpng/png.c:1446-1458 | accepted if and only if the string, up to its first NUL, is [+-]? (D+ (. D*)? | . D+) ([eE] [+-]? D+)? |
| `FpNumber.NumberIsAccepted` | libpng/png.c:1446-1458 | a number of the grammar is accepted with its own flags |
| `FpNumber.StateIs` | libpng/pngpriv.h:1544-1559 | the word returned for a number, as a sum of the values of its flags |
| `FpNumber.ClassifiersAreRight` | libpng/pngpriv.h:1574-1584 | PNG_FP_IS_ZERO, IS_POSITIVE and IS_NEGATIVE of the result are the sign of the number denoted; none holds of a rejected string |
| `FpNumber.WasValidMeans` | libpng/pngpriv.h:1595-1596 | PNG_FP_WAS_VALID is set if and only if some beginning of what has been read so far is a number |
| `FpNumber.RecoverByCutting` | libpng/pngpriv.h:1593-1600 | a caller who finds it set on an unfinished number recovers by leaving out the last character if and only if that is the E; behind a sign two have to go |
| `FpNumber.CutTwice` | libpng/pngpriv.h:1593-1600 | the witness: "1e+" has the bit, "1e" is no number, "1" is |
| `AsciiFixed.SplitDigits` | libpng/png.c:1840-1855 | the digits, lowest first, and the place of the lowest one that is not zero |
| `AsciiFixed.PutMagnitude` | libpng/png.c:1857-1878 | whole digits, dot, leading zeros and digits down to the last non-zero one |
| `AsciiFixed.AsciiFromFixed` | libpng/png.c:1821-1888 | with size above 12 writes the printed form and a NUL, at most 13 characters, and nothing else; otherwise an error and nothing written |
| `AsciiFixed.PrintedIsShort` | libpng/png.c:1826-1829 | for every 32-bit value: at most 12 characters, in the grammar, no exponent, no trailing zero of the fraction, no needless leading zero |
| `AsciiFixed.PrintedReadsBack` | libpng/png.c:1821-1888 | what is printed is accepted by png_check_fp_string, denotes exactly fp / 100000, and is classified by its sign |
| `GammaTable.BoundFits` | libpng/png.c:2645-2648 | the boundary needs no more than 32 bits and does not pass the table |
| `GammaTable.CellBits` | libpng/png.c:2652-2652 | for every shift and every input of the table, mask and shift on 16-bit words are the remainder and quotient that name its cell |
| `GammaTable.Fill` | libpng/png.c:2650-2654 | fills the inputs up to a boundary, one cell each, and nothing else |
| `GammaTable.Build16to8` | libpng/png.c:2602-2663 | the entry of every input is 257 i for the first level i below 255 whose boundary exceeds it, else 65535, even when boundaries are not monotone; EntryMeans says what that is |
| `GammaTable.EntryMeans` | libpng/png.c:2636-2662 | for every curve, shift and input v: the entry is 257 i for the first i below 255 with 65535 v <= gamma(257 i + 128) (2^(16-shift) - 1) + 32768, else 65535 |
| `GammaTable.ReachesFullRange` | libpng/png.c:2645-2648 | at shift 0 that is v <= gamma(257 i + 128) |
| `GammaTable.SquareEntry` | libpng/png.c:2645-2648 | the witness: with the curve v * v / 65535 input 16384 gets level 128 |
| `GammaTable.EveryCellOnce` | libpng/png.c:2650-2662 | every cell is written exactly once |
| `GammaTable.EntryIsUnique` | libpng/png.c:2636-2662 | there is one right entry for each input |
| `GammaTable.EntriesAscend` | libpng/png.c:2636-2662 | the table never descends, whatever the curve |
| `GammaTable.IdentityRounds` | libpng/png.c:2624-2648 | without gamma, for every shift: exactly which inputs get a nearest 8-bit level, by the remainder of 65535 v by 257 max; and the bound that no input is farther from its level than 128/257 of a level and half an input step |
| `GammaTable.FullRangeRounds` | libpng/png.c:2624-2635 | at shift 0 every sample gets a nearest level, at most 128 away |
| `GammaTable.NotNearest` | libpng/png.c:2647-2648 | at shift 7 input 258 gets level 128, though 129 is nearer |
| `HashTable.LinkFront` | uthash.h:594-600 | linking at the front keeps a chain doubly linked |
| `Bits.AndWords` | uthash.h:187-189 | BitAnd is & of 32-bit words |
| `HashTable.ToBktOfWords` | uthash.h:187-189 | the bucket number is hashv & (num_buckets - 1) of 32-bit words |
| `HashTable.ToBktIs` | uthash.h:187-189 | it is b if and only if hashv is q * num_buckets + b for some q |
| `HashTable.Table.BucketOfHash` | uthash.h:187-189 | in any valid table an element is in chain b if and only if its hash value is q * num_buckets + b for some q |
| `HashTable.PlacedPush` | uthash.h:594-600 | an element put in the chain of its hash keeps every element in exactly one chain, its own |
| `HashTable.Unchain` | uthash.h:608-618 | HASH_DEL_IN_BKT: head, count and links of the chain without the element |
| `HashTable.FindInBkt` | uthash.h:580-591 | the element of the chain with the key, or null when there is none |
| `HashTable.FoundIs` | uthash.h:94-105 | an answer about the one chain the key selects is an answer about all live elements |
| `HashTable.MoveElement` | uthash.h:669-684 | one element moved: count, expand_mult and nonideal_items stay right |
| `HashTable.RehashBucket` | uthash.h:666-685 | one old chain moved, while its own hh_next links are being overwritten |
| `HashTable.RehashAll` | uthash.h:664-686 | every element ends in exactly one new chain, the one of ToBktIs |
| `HashTable.CeilIs` | uthash.h:659-662 | shift and mask give items / buckets rounded up |
| `HashTable.Table.Expand` | uthash.h:649-695 | twice the buckets for the same elements, num_buckets = 2^log2, ideal_chain_maxlen the ceiling, nonideal_items the sum of max(0, count - ideal), ineff_expands and noexpand as documented |
| `HashTable.Table.AddToBkt` | uthash.h:594-605 | adds to the chain; expands exactly when the count reaches (expand_mult + 1) * 10 and expansion is not off |
| `HashTable.Table.BloomAdd` | uthash.h:124-128 | sets the bit whose number is the remainder of the hash value by 2^HASH_BLOOM and no other; no live element is rejected by the Bloom test |
| `HashTable.Table.BloomTestIs` | uthash.h:130-131 | the test reads that bit |
| `HashTable.Table.MakeTable` | uthash.h:140-157 | an empty table of 32 buckets |
| `HashTable.Table.constructor` | uthash.h:94-97 | an empty hash: no head, no elements |
| `HashTable.Table.Find` | uthash.h:94-105 | the live element with the key, or null exactly when no live element has it; with or without the Bloom reject |
| `HashTable.Table.Add` | uthash.h:162-185 | for a key that is not live: the element is appended to the insertion order and all invariants of HASH_FSCK hold |
| `HashTable.Table.UnlinkOrder` | uthash.h:213-230 | the insertion-order list without the element; head and tail follow |
| `HashTable.Table.Delete` | uthash.h:204-237 | the element leaves the list and its chain; all invariants hold |
| `HashCheck.Fsck` | uthash.h:261-311 | HASH_FSCK finds nothing wrong in any valid table: prev and hh_prev links, bucket counts, item counts |
| `HashCheck.OneMoreChain` | uthash.h:264-286 | the chains are disjoint, so their counts add up to the number of items |
| `StableSort.MergeSorts` | uthash.h:728-757 | merging sorted runs is sorted |
| `StableSort.MergeIsStable` | uthash.h:740-750 | taking the left run on cmp <= 0 keeps ties in order |
| `StableSort.PassSorts` | uthash.h:717-768 | a pass over runs of k leaves sorted runs of 2k |
| `StableSort.BottomUpIsStableSort` | uthash.h:702-779 | the passes are a stable sort: sorted, a permutation, ties in their old order, for every length and total preorder |
| `HashSort.MergeStep` | uthash.h:728-766 | one turn of the merge loop, with next and prev relinked in place |
| `HashSort.MergePass` | uthash.h:713-769 | one pass relinks the list into Pass of it; nmerges is at most 1 exactly when the list is at most two runs long |
| `HashSort.SortList` | uthash.h:708-777 | the loops terminate and leave the list sorted, prev mirroring next, head and tail right |
| `HashSort.Sort` | uthash.h:702-779 | HASH_SRT: the list becomes the sorted one, every bucket chain untouched, all invariants kept |
| `HashSort.SortIsStable` | uthash.h:702-779 | the sorted list is a stable sorted permutation of the old one, and every HASH_FIND answers as before |
| `HashRuns.Step` | uthash.h:94-237 | one operation changes the list of live elements and answers as the same operation on the list alone |
| `HashRuns.Run` | uthash.h:94-237 | so does every run of HASH_ADD, HASH_DELETE, HASH_FIND and HASH_SRT |
| `HashRuns.StepRefinesMap` | uthash.h:94-237 | one operation on the list is one on the map from live keys to elements |
| `HashRuns.RunRefinesMap` | uthash.h:94-237 | a whole run is a run on a map: every HASH_FIND returns the element if and only if its key is live |
| `Line.StepIsRight` | nsdl.c:63-65 | the two tests on the error term step the longer axis always, and the shorter one exactly when the line would else be more than half a pixel off |
| `Line.NearIs` | nsdl.c:63-65 | the other axis is at the ideal rounded to the nearest pixel, exact halves not yet stepped |
| `Line.PathIsUnique` | nsdl.c:61-66 | so there is one such path |
| `Line.EndReached` | nsdl.c:62-62 | the end point is met at step max(|dx|,|dy|) and at no earlier one |
| `Line.LastIsEnd` | nsdl.c:61-66 | at the last step of the longer axis the other is complete |
| `Line.Surface.PointS` | nsdl.c:8-22 | sets one pixel; points outside are ignored |
| `Line.Surface.LineS` | nsdl.c:43-67 | exactly min(max(|dx|,|dy|) + 1, 1000) points, 8-connected, each the one of NearIs, ending at the end point when it is reached; exactly those pixels change |
| `Base64.Decoder.Init` | base64.c:12-24 | the table holds the place of each character in the string of 64 letters, 0 for =, and -1 for every other byte |
| `Base64.AlphabetIs` | base64.c:5-5 | the place of a letter is its place in the string of 64 characters in RFC 4648 |
| `Base64.SpecialCharacters` | base64.c:41-52 | the padding is = and the white space is line feed, carriage return and space |
| `Base64.Decoder.Bits2Byte` | base64.c:26-36 | the byte of the eight bits, highest first |
| `Base64.Decoder.PushSextet` | base64.c:59-71 | six bits more; a full byte goes to the output and the bits start over |
| `Base64.Decoder.DecodeInto` | base64.c:38-76 | one call on ASCII text, from the bits left by the call before: output, bits left and failflag are those of Decode |
| `Base64.DecodeSize` | base64.c:38-76 | how much a call puts out: six bits for each letter before the first character that ends it, behind the bits held, in bytes |
| `Base64RoundTrip.DecodePieces` | base64.c:38-76 | text and its padding, cut anywhere: the bytes its letters' bits make, whatever the cut |
| `Base64RoundTrip.DecodeStops` | base64.c:41-57 | the first character that is neither letter nor white space ends the call with no bits left, and fails it unless it is the padding |
| `Base64RoundTrip.RoundTrip` | base64.c:12-76 | the padded encoding of any bytes (section 4 of RFC 4648), with spaces and line ends anywhere, cut into any calls, decodes to the bytes without failure and with no bits left |
| `Base64RoundTrip.LastLetterLastByte` | base64.c:38-76 | before the last letter of an encoding has been decoded a byte is missing |
| `InlineData.SearchFinds` | inlinedata.c:205-216 | buffer_search returns the first match that has a byte behind it, else -1 |
| `InlineData.Receiver.BufferShift` | inlinedata.c:179-185 | the window moves by one byte |
| `InlineData.Receiver.BufferPush` | inlinedata.c:187-199 | the buffer is the last 10241 bytes of what it held and what is pushed |
| `InlineData.Receiver.BufferSearch` | inlinedata.c:205-216 | the loop computes that search |
| `InlineData.Receiver.ProcessPng` | inlinedata.c:158-172 | feeds the reader; its error or end destroys it, its end ends the file |
| `InlineData.Receiver.ReceiveData` | inlinedata.c:219-270 | one call of inline_data_receive: every global and the result, in both states |
| `InlineData.WordsAre` | inlinedata.c:19-19 | the three words, letter by letter |
| `InlineData.LastIs` | inlinedata.c:174-177 | the window is 10241 bytes |
| `InlineData.FontSizeSet` | inlinedata.c:244-248 | the font size a call sets: 32 if the window has HTERMFDOUBLE with a byte behind it and not at its front, else 16 if it has HTERMFNORMAL so, else none; none in a file |
| `InlineData.ResultMeans` | inlinedata.c:219-270 | what each call returns, and exactly when a file is under way after it |
| `InlineData.FitsExactly` | inlinedata.c:223-227 | a call stays inside its array on the stack if and only if six bits for each letter before the first character that ends it, behind the bits held, are no more bytes than the array has |
| `InlineTransfer.WindowIsLast` | inlinedata.c:179-199 | until a file starts every call fits, and the window is always the last 10241 bytes received |
| `InlineTransfer.SearchInStream` | inlinedata.c:205-216 | in a stream the word at its first place is found as soon as a byte stands behind it and while it is in the window; before that nothing is found, and afterwards only a later word |
| `InlineTransfer.FirstWordStarts` | inlinedata.c:219-270 | the first word of a stream starts the file if and only if the call that brings the first byte behind it still has the word in the window |
| `InlineTransfer.MoreText` | inlinedata.c:221-244 | one more call of a transfer: the reader has seen what it would have seen of the whole text; the call that completes the file leaves the receiver at rest |
| `InlineTransfer.AfterEnd` | inlinedata.c:158-172 | after the reader has ended a call adds nothing to its report, as long as no other word has been heard |
| `InlineTransfer.Transfer` | inlinedata.c:221-244 | any number of calls of a transfer likewise; the receiver is left at rest if the last one completes the file |
| `InlineTransfer.EndToEnd` | inlinedata.c:219-270 | any cut of a terminal stream, from any state without a file: the reader reports what one call on the decoding of everything after the first HTERMFILEXFER reports, when every call fits, the starting call has the word in the window, and no word stands behind the end of the file or only the last call reaches that end |
| `InlineFiles.FileArrives` | inlinedata.c:219-270 | when that text is an encoding of b, the reader gets exactly b |
| `InlineFiles.PngIsOneWord` | inlinedata.c:219-270 | a well-formed PNG file ends with its last letter, so nothing that follows its end in the text can be a word |
| `InlineFiles.PngArrives` | inlinedata.c:219-270 | when b is a well-formed PNG file, the application sees exactly its chunks and its end, whatever the cut |
| `InlineFiles.SmallFileIsSent` | inlinedata.c:219-270 | every well-formed file whose encoding is short enough for the second array can be sent, in two calls that meet all that the theorems ask for |
| `InlineFiles.TwoFiles` | inlinedata.c:219-270 | two files in one stream, anything between them: after the call that completes the first the receiver listens again, and the second is read as if alone |
| `InlineFiles.StartCompletes` | inlinedata.c:221-222 | a file complete with the call that starts it: the next call is dropped, whatever it brings |
| `InlineFiles.RestsUnlessStart` | inlinedata.c:219-270 | when only the last call completes the file, the receiver is at rest afterwards if and only if that call is not the one that started it |
| `InlineFiles.NextCallIsLost` | inlinedata.c:219-270 | every file short enough for the first array can be sent in one call, is received, and costs the next call, whatever that brings |
| `InlineFiles.LeastFileIsShort` | inlinedata.c:219-270 | there are such files |
| `InlineFiles.AfterFailure` | inlinedata.c:158-162 | after the reader has failed calls are dropped up to and with the first that decodes to a byte or cannot be decoded |
| `InlineFiles.Overrun` | inlinedata.c:259-261 | the bound of the stack array is not checked: the word and 8000 letters, less than one read of the terminal, decode to 6000 bytes for an array of 4096 |
| `InlineFiles.Deliver` | main.c:720-730 | the receiver itself, call by call, does what ReceiveAll says |
| `InlineFiles.DeliverPng` | inlinedata.c:219-270 | so the receiver, given a stream that carries a PNG file, reports exactly its chunks and its end |
| `GlyphCache.BitOfIs` | nunifont.c:115-115 | & with a power of two is the bit of that number |
| `GlyphCache.GetPixel` | nunifont.c:103-117 | not zero exactly inside the 16 by 16 cell where the font's bit is set: row y is bytes 2y and 2y + 1, column x is bit x % 8 of byte 2y + x / 8 |
| `GlyphCache.DrawPoint` | nunifont.c:161-185 | one pixel of a glyph: rules unslanted, ink slanted by one, bold to the left of a lit pixel |
| `GlyphCache.DrawnIs` | nunifont.c:158-188 | any pixel of a surface with a glyph, in terms of the bits of the font, the attributes, the cell and what was there before |
| `GlyphCache.RenderingIs` | nunifont.c:206-230 | a cached glyph pixel by pixel, its width from the bit of the width map |
| `GlyphCache.DrawCharacterSurface` | nunifont.c:158-188 | every pixel of the surface afterwards, for any place, cell, attributes and surface; what falls outside is clipped, and with a negative x or y nothing is drawn, because the loops count in size_t |
| `GlyphCache.SameKey` | nunifont.c:44-54 | the 28 bytes that uthash compares determine the key |
| `GlyphCache.Glyphs.LoadMaps` | nunifont.c:494-502 | other maps come with an empty cache |
| `GlyphCache.Glyphs.InitCache` | nunifont.c:58-75 | a new and empty cache |
| `GlyphCache.Glyphs.SetSize` | nunifont.c:83-95 | the cell size on screen; cached textures stay right |
| `GlyphCache.Glyphs.Render` | nunifont.c:206-230 | a miss draws the glyph on a new zeroed surface |
| `GlyphCache.Glyphs.Insert` | nunifont.c:231-241 | HASH_ADD of a new structure keeps every structure in the table right for the maps in use |
| `GlyphCache.Glyphs.Fetch` | nunifont.c:205-242 | HASH_FIND by the bytes of the key, and on a miss a fresh rendering that HASH_ADD appends: the texture is right, and a hit leaves the table as it is |
| `GlyphCache.Glyphs.DrawCharacter` | nunifont.c:190-248 | the texture used equals a fresh rendering under the maps in use, hit or miss; and so does every cached one afterwards |
| `GlyphCache.Play` | nunifont.c:190-248 | over any run of drawing, loading maps and resizing, what is drawn through the hash table is what a run without a cache draws |

## Left out

- SDL, windows, input, ssh and pty code, fonts and their files: user interface, network and foreign calls.
- zlib, the CRC polynomial and the bodies of ancillary chunk handlers: parameters, not modelled. Row filters and transformations: not modelled.
- User limits on cached unknown chunks (`user_chunk_cache_max`) and a list of unknown chunks to keep: taken as absent.
- png_process_data_pause and png_process_data_skip: pausing from inside a callback is not modelled; the skip mode itself is.
- Memory: allocation failure, `size_t` overflow of buffer sizes, texts of error messages; an error is a terminal state.
- Chunk handlers read the chunk's body in one piece; the source reads PLTE entry by entry, with the same bytes and CRC.
- PngPushReader.PngStruct.CrcFinish: nothing to skip and the default CRC flags, as the handlers modelled here use it.
- PngPushReader.PngStruct.HandleUnknown: no limit on cached chunks and no list of chunks to keep.
- PngPushReader.PngStruct.ProcessIdatData: what zlib reports is a function of the bytes; `PngImageData` proves what the source makes of it, row by row, and `PngReaderRows` joins the two in a theorem about their states, not in one class.
- PngFile.FileRoundTrip: what an ancillary handler decides is a parameter; the chunks of the file are asked to be acceptable to it where they stand.
- PngImageData.ImageReader.ProcessLine: the filters are not undone and the row is not transformed; only an unknown filter is refused.
- PngRows.RowReader.FinishRow: the clamp `if (pass > 7) pass--` cannot be reached and is not written; `prev_row` is not modelled.
- PngRows.RowReader.ProcessRow: unfiltering and transforming the row's data are not modelled.
- PngImageData.ImageReader.Inflate: zlib is any function of its calls so far that keeps to its buffers and gets on or fails.
- MulDiv.MulDivide: the floating branch of `png_muldiv` is not modelled.
- GammaTable.Build16to8: the gamma curve is any function with 16-bit results; the log and exp approximations are not modelled.
- HashTable.Table.Expand: `unsigned` overflow of num_buckets and of the sort's insize is not modelled.
- HashTable.Table.Add: asks for a new key, as uthash does of its callers; with equal keys live the table is not a map.
- HASH_SELECT: it leaves the destination's tail and Bloom bits alone, so the table invariant does not hold of its result.
- An element's key is fixed while it is in a table, as uthash asks of its callers.
- Line.Surface.LineS: coordinates are unbounded; `int` overflow of 2*err for distant points is not modelled.
- Base64.Decoder.DecodeInto: asks for ASCII input (bytes of 128 and above are not modelled), since the table is indexed by a `char` of unknown sign, and for an output buffer that is large enough, as the source does of its callers.
- InlineData.Receiver.ReceiveData: asks for ASCII text that, decoded, fits the arrays on the stack (4096 bytes when a file starts, 10240 later), which the source does not check. Drawing in the row callback is not modelled.
- InlineData.Receiver.ProcessPng: the PNG reader is the value that `PngPushReader.PngStruct.ProcessData` computes, not an object; that the end callback destroys it while `png_process_data` still uses it is not modelled.
- GlyphCache.Glyphs.InitCache: destroying the old textures is not modelled; the old structures are dropped, as in the source.
- GlyphCache.DrawCharacterSurface: `int` overflow of x + w and y + 16 is not modelled.
- GlyphCache.Glyphs.DrawCharacter: what surrounds a hash handle in a structure is a map from handles; scaling to the screen is SDL's. Reading a font file is not modelled.
- png_64bit_product on negative inputs, the fixed format of png_format_number, `regis.c`, and the scrollback, selection and key handling of `main.c`: no clean statement, or nothing hard.
