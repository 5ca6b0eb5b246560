# Verification of the stream engines

This project models, in Dafny, the stream machinery that the player is built on,
and proves what it promises:

- zlib's LZ77 compressor (`Lz77`, `HashKey`, `HashChains`, `Blocks`, `Deflate`): sliding
  window, hash chains, match finder and the five block strategies. The sent blocks
  always stand for the input.
- zlib's decompressor for raw streams (`BitSource`, `CodeTables`, `InflateSpec`,
  `Window`, `Inflate`, `FastEntry`, `CutVerdicts`, `InfBack`): the resumable state machine over a bit
  accumulator and a circular window, the fast loop, and the copies of `inflateBack`. An abstract
  machine over the undecoded bits is the specification. `BlockFormat` writes streams bit by
  bit after RFC 1951 alone, and `FormatRead` proves that the machine reads them back.
  `RoundTrip` joins the two directions: what the compressor sends, however it is written,
  the decompressor turns back into the input.
- resynchronisation (`SyncSearch`, `SyncEntry`).
- the checksums (`Crc32`, `CrcCombine`, `Adler32`) against their bit-serial and
  byte-at-a-time definitions, and their combination.
- random-access reading of gzip files (`GzRead`).
- WebSocket frames (`WebSocket`; sections 5.2 and 5.3 of RFC 6455), MD5 (`Md5`;
  RFC 1321) and SHA-1 (`Sha1`; RFC 3174), over `DigestStream`, with the values that the two
  standards give, step by step (`Md5Vectors`, `Sha1Vectors`).
- the piece-deadline scheduler of the torrent streamer (`Deadlines`).

`Binary` and `Bytes` hold what these share. Objects whose methods update
fields are classes, loops are loops, and ghost fields record the whole stream.
`dafny verify dfyconfig.toml` checks everything.

## Findings

Where the code does not do what its comments or its callers expect, the project proves
when it does.

- `inffast.c` assumes `state->bits < 8` on entry. It holds on every entry if no literal/length
  code is longer than 8 bits (Inflate.InflateState.EntryBits). For every table that gives
  a literal a longer code a decoder enters with 8 or more (FastEntry.EntersHolding), the fixed
  table among them (FastEntry.FixedCode). Of the bits alone the condition is exact
  (CodeTables.CompletedWithin). The bytes returned are right either way
  (Inflate.InflateState.InflateFast).
- `inflateBack` through `inflate_fast` is told that the window holds `put` bytes before its
  output, and `inflateBackInit_` (infback.c:28-66) never sets `sane`. A distance is judged rightly
  exactly if the window keeps that far back or the check refuses (InfBack.BackState.FastVerdict);
  a distance beyond all output can be taken (InfBack.BackState.BeyondOutput).
- `inflateSync` shifts the partial byte of the bit buffer out on the wrong side. It
  searches the bytes held exactly if no partial byte or no whole byte is held
  (SyncSearch.SyncShift); a decoder can get into the other case (SyncEntry.HoldsThirteen).
- Whether a distance is "too far back" depends on how the output was cut into calls, exactly
  for distances beyond the window but within the history (Window.VerdictOfCuts); CutVerdicts.Verdict
  has an input for it.
- `gzseek64` drops a waiting request when it refuses a new one (GzRead.GzFile.Seek,
  GzRead.RefusalForgets).
- The loop indices of `MD5::update` and `SHA1Update` are 32 bits wide. They overflow exactly for
  pieces whose last whole block begins within 64 or 63 bytes of 2^32, and in `SHA1Update` when the
  buffer's fill and the length together reach 2^32 (Md5.MD5.Update, Sha1.Sha1Ctx.Update).
- A WebSocket frame is delivered exactly if its whole length fits in an int
  (WebSocket.DeliveredIff); a longer one waits for ever or is delivered with another length
  (WebSocket.TruncatedFrame). `spool` leaves its buffer exactly if the new length overflows
  (WebSocket.Connection.Spool).
- A file need not begin with a piece. `seekInFile` adds the piece number of the offset to the
  file's first piece; it starts one piece early exactly if the fractions of a piece before the
  file and before the byte make a piece or more (Deadlines.Aux.SeekFinds).
- A file that is a single piece never gets a deadline (Deadlines.Aux.SinglePiece): the loop stops
  before the last piece, which only the startup range covers.
- `seekInFile` accepts negative offsets. One that leads to piece -1 is silently no seek; one that
  leads further back makes `updateDeadlines` throw `std::out_of_range` as soon as the startup
  ranges are there (Deadlines.Aux.SeekInFile, Deadlines.Aux.PieceOfNegative). A seek that throws
  leaves what was kept from an earlier one for the next callback (Deadlines.Run).

## Model

| member | source | states |
|---|---|---|
| Lz77.CopyBackUnique | PopcornTime_Desktop-src/Import/zlib/inflate.c:1123-1167 | A copy in which every byte equals the one `dist` before it is the byte-by-byte LZ77 copy: the recurrence has one solution, overlap included. (That the program's copies satisfy it is in Inflate.InflateState.CopyMatch, FastCopy and InfBack.BackState.CopyMatch.) |
| Lz77.CopyBackSplit | PopcornTime_Desktop-src/Import/zlib/inflate.c:1123-1167 | A copy of m + n bytes may be interrupted after m bytes and taken up again: the MATCH state can be re-entered. |
| HashKey.KeyOfAny | PopcornTime_Desktop-src/Import/zlib/deflate.c:162-170 | Three updates from any register give the hash of those three bytes alone: older bytes are shifted out, for every legal hash_bits. |
| HashKey.ThirdByteForced | PopcornTime_Desktop-src/Import/zlib/deflate.c:1246-1251 | Two strings with the same key and the same first two bytes have the same third byte, for every hash_bits >= 8; so skipping the comparison of scan[2] is sound. |
| HashChains.InsertKeepsOk | PopcornTime_Desktop-src/Import/zlib/deflate.c:181-189 | Filing the next string keeps every chain sound: each entry within reach was filed under the key of its own three bytes, and the links go strictly back. |
| HashChains.SlideKeepsOk | PopcornTime_Desktop-src/Import/zlib/deflate.c:1427-1456 | Sliding the window and both tables by w_size keeps every chain sound. |
| HashChains.SearchIsBest | PopcornTime_Desktop-src/Import/zlib/deflate.c:1200-1286 | About the reference search: its result is the longest common run over the candidates the walk may look at, unless a run of nice_match ended it early. (That longest_match computes it is Deflate.DeflateState.LongestMatch.) |
| Deflate.DeflateState.InsertString | PopcornTime_Desktop-src/Import/zlib/deflate.c:173-189 | INSERT_STRING returns the old head of the chain of this string's key, files the string, and makes it the head. |
| Deflate.DeflateState.CompareAt | PopcornTime_Desktop-src/Import/zlib/deflate.c:1240-1270 | The unrolled comparison, which never looks at byte 2, gives the length of the common run exactly when that exceeds the best so far. |
| Deflate.DeflateState.LongestMatch | PopcornTime_Desktop-src/Import/zlib/deflate.c:1148-1289 | longest_match returns the reference search's length cut to the lookahead, and its match_start; a result above prev_length is a true repetition at match_start. |
| Deflate.DeflateState.ReadBuf | PopcornTime_Desktop-src/Import/zlib/deflate.c:1076-1101 | read_buf takes min(size, avail_in) bytes and the window stays a copy of the end of the stream. |
| Deflate.DeflateState.SlideWindow | PopcornTime_Desktop-src/Import/zlib/deflate.c:1419-1457 | The slide rebases strstart, block_start, match_start (modulo 2^32), head and prev so that the window, the chains and the running hash mean the same as before. |
| Deflate.DeflateState.InsertPending | PopcornTime_Desktop-src/Import/zlib/deflate.c:1476-1494 | Files the strings left over from the last call whose third byte is now there, and primes the running hash, whatever it was. |
| Deflate.DeflateState.FillWindow | PopcornTime_Desktop-src/Import/zlib/deflate.c:1390-1532 | fill_window loses no byte, keeps text and chains sound over any number of slides, ends with MIN_LOOKAHEAD bytes or no input, and leaves strstart below window_size - MIN_LOOKAHEAD. |
| Deflate.DeflateState.TallyDist | PopcornTime_Desktop-src/Import/zlib/deflate.h:333-341 | Buffering a match that repeats earlier stream bytes at most MAX_DIST back extends what the buffered tokens stand for by its length, although distance and length are cut to 16 and 8 bits. |
| Deflate.DeflateState.PreviousDistance | PopcornTime_Desktop-src/Import/zlib/deflate.c:1796-1800 | The distance of the match found one step earlier is right although match_start may have wrapped below zero when the window slid. |
| Deflate.DeflateState.RleStep | PopcornTime_Desktop-src/Import/zlib/deflate.c:1882-1918 | One step of deflate_rle tallies a match of distance 1 if three bytes repeat the one before, of the length of the run up to 258 and the lookahead, and a literal otherwise. |
| Deflate.DeflateState.FastStep | PopcornTime_Desktop-src/Import/zlib/deflate.c:1648-1711 | One step of deflate_fast tallies the match that the reference search finds from the head of the chain, if there is one of three bytes, and a literal otherwise. |
| Deflate.DeflateState.SlowStep | PopcornTime_Desktop-src/Import/zlib/deflate.c:1753-1838 | One step of deflate_slow tallies the match of the step before if the reference search finds no longer one here (after discarding short ones that are filtered or too far), else the byte of the step before, if it is open. |
| Deflate.DeflateState.DeflateHuff | PopcornTime_Desktop-src/Import/zlib/deflate.c:1934-1967 | Over the whole loop of deflate_huff the sent blocks and buffered tokens stand for exactly the stream up to strstart, with every distance at most MAX_DIST; what it reports matches what is left. |
| Deflate.DeflateState.DeflateRle | PopcornTime_Desktop-src/Import/zlib/deflate.c:1861-1928 | The same for deflate_rle. |
| Deflate.DeflateState.DeflateFast | PopcornTime_Desktop-src/Import/zlib/deflate.c:1628-1722 | The same for deflate_fast, with its chains. |
| Deflate.DeflateState.DeflateSlow | PopcornTime_Desktop-src/Import/zlib/deflate.c:1730-1853 | The same for deflate_slow up to strstart - match_available, with the match carried from step to step. |
| Deflate.DeflateState.DeflateStored | PopcornTime_Desktop-src/Import/zlib/deflate.c:1564-1619 | deflate_stored partitions the input into blocks of at most min(0xffff, pending_buf_size - 5) bytes; block_start never goes below zero. |
| Deflate.DeflateState.ForgetHistory | PopcornTime_Desktop-src/Import/zlib/deflate.c:931-938 | A full flush clears the hash heads without clearing prev[], and starts over: no stale link can be reached, and the invariant holds of what follows alone, as for a new stream. |
| Deflate.DeflateState.RestartDecodes | PopcornTime_Desktop-src/Import/zlib/zlib.h:307-311 | In every state after a full flush the blocks sent since decode by themselves, from an empty history, to the text read since, up to block_start, whatever has happened in between. |
| Deflate.DeflateState.constructor | PopcornTime_Desktop-src/Import/zlib/deflate.c:213-320 | The state deflateInit2_ makes satisfies the invariant, for every level, strategy, window size and memory level. |
| Deflate.DeflateState.Deflate | PopcornTime_Desktop-src/Import/zlib/deflate.c:665-977 | Every call of deflate for a raw stream, with any flush, keeps the invariant and loses no input; Z_STREAM_END means that the blocks decode to all of it, and Z_OK with output space left means that no input is left. Z_FINISH that leaves output space returns Z_STREAM_END, unless input was added after an earlier Z_FINISH took effect. A flush that got through ends with its marker, and after a full one decoding can start over. When the two errors are returned, and that they change nothing. |
| Deflate.DeflateState.SentIsPrefix | PopcornTime_Desktop-src/Import/zlib/deflate.c:1538-1553 | In every reachable state the blocks sent so far decode to the stream up to block_start, whichever form each was sent in, and no distance exceeds w_size - 262. |
| Deflate.Session | PopcornTime_Desktop-src/Import/zlib/deflate.c:665-977 | Over any sequence of calls, any cut of input and output space: after Z_STREAM_END the blocks decode to the concatenation of all input; a last call with Z_FINISH that leaves output space returns it, if no input was given after an earlier Z_FINISH. Decoding can start over behind every full flush that got through, at the input given after it. |
| Deflate.RestartEnds | PopcornTime_Desktop-src/Import/zlib/zlib.h:307-311 | Once the stream has ended, the blocks sent after such a flush decode by themselves to the rest of the input. |
| RoundTrip.SentInflates | PopcornTime_Desktop-src/Import/zlib/inflate.c:826-1173 | The blocks that a compressor state has sent, each written as bits in any form and with any codes that RFC 1951 allows and the tables decode, are read back by a machine with a window at least as large as the stream up to block_start; no distance is rejected. |
| RoundTrip.WholeInflates | PopcornTime_Desktop-src/Import/zlib/inflate.c:826-1173 | After Z_STREAM_END any such writing of the blocks ends the machine with the whole input: compression followed by decompression is the identity, down to the bits. |
| RoundTrip.RestartInflates | PopcornTime_Desktop-src/Import/zlib/inflate.c:826-1173 | Behind a full flush a new decoder reads back what was compressed after it. |
| RoundTrip.Decompress | PopcornTime_Desktop-src/Import/zlib/inflate.c:605-1251 | The bytes of any such writing, given to a new decoder in one call of inflate with enough room, return Z_STREAM_END and the input of the compressor. |
| FormatRead.AllPlaced | PopcornTime_Desktop-src/Import/zlib/inflate.c:625-626 | The order in which the code-length lengths are sent, written out as in section 3.2.7 of RFC 1951, puts each in its place. |
| FormatRead.HeaderRead | PopcornTime_Desktop-src/Import/zlib/inflate.c:897-935 | Any header of a dynamic block, written field by field, brings the machine to CODELENS with the same numbers of codes and the same 19 code-length lengths. |
| FormatRead.ItemsRead | PopcornTime_Desktop-src/Import/zlib/inflate.c:936-992 | Any list of code lengths, copies and runs of zeros, written with the words of the code-length code and their extra bits, reads back as the lengths it stands for. |
| FormatRead.CodesKnown | PopcornTime_Desktop-src/Import/zlib/inflate.c:985-1018 | What the code lengths come to: the two tables, or an error if the end-of-block code is missing or a table is refused. |
| FormatRead.TokensRead | PopcornTime_Desktop-src/Import/zlib/inflate.c:1021-1173 | Any tokens written with the words of the two codes and the extra bits of section 3.2.5 of RFC 1951 are read back as their LZ77 expansion. |
| FormatRead.BlockRead | PopcornTime_Desktop-src/Import/zlib/inflate.c:826-1173 | Any block (stored with any padding, fixed or dynamic) is read back, and the next one begins where it ends. |
| FormatRead.StreamInflates | PopcornTime_Desktop-src/Import/zlib/inflate.c:826-1173 | Any closed stream of such blocks, filled up to a byte, ends the machine in DONE with what the blocks mean. |
| FormatRead.BytesAsBits | PopcornTime_Desktop-src/Import/zlib/inflate.c:489-496 | The bits of the bytes, each from its least significant bit on, are the bits the machine reads (section 3.1.1 of RFC 1951). |
| FormatRead.KindRefused | PopcornTime_Desktop-src/Import/zlib/inflate.c:857-861 | Block type 3 is refused. |
| FormatRead.LengthRefused | PopcornTime_Desktop-src/Import/zlib/inflate.c:866-871 | A stored length that does not match its complement is refused. |
| FormatRead.SizesRefused | PopcornTime_Desktop-src/Import/zlib/inflate.c:904-909 | More than 286 lengths or 30 distances are refused. |
| FormatRead.ItemRefused | PopcornTime_Desktop-src/Import/zlib/inflate.c:946-985 | A repetition of nothing and one beyond the last code are refused. |
| FormatRead.WordRefused | PopcornTime_Desktop-src/Import/zlib/inflate.c:1063-1067 | A word without a symbol is refused, for a length and for a distance. |
| FormatRead.FarDistance | PopcornTime_Desktop-src/Import/zlib/inflate.c:1126-1131 | A distance beyond all output is refused; the abstract machine stops at one beyond the window. |
| CodeTables.DecodeStable | PopcornTime_Desktop-src/Import/zlib/inftrees.h:11-36 | A code completed by the bits known so far is not changed by later bits. |
| CodeTables.DecodeBack | PopcornTime_Desktop-src/Import/zlib/inftrees.h:11-36 | Conversely a code is complete as soon as its own bits are known. |
| CodeTables.CompletedWithin | PopcornTime_Desktop-src/Import/zlib/inffast.c:40-46 | k bits always complete a code if and only if no entry of the table takes more than k bits. With k = 8: inflate_fast's entry assumption holds for a table exactly when no code in it is longer than 8 bits. |
| InflateSpec.StepIsStable | PopcornTime_Desktop-src/Import/zlib/inflate.c:826-1173 | A step of the machine that the bits and the room at hand allow is the same step with more of either. |
| InflateSpec.Resume | PopcornTime_Desktop-src/Import/zlib/inflate.c:605-1251 | A run that stops for want of input or room and is taken up with more ends where an uninterrupted run ends. |
| InflateSpec.AnyCuts | PopcornTime_Desktop-src/Import/zlib/inflate.c:605-1251 | Any cuts of the input and of the room give the state of one run. |
| InflateSpec.RunExtends | PopcornTime_Desktop-src/Import/zlib/inflate.c:605-1251 | A run only appends to the output, and only up to the room there is. |
| Inflate.InflateState.PullByte | PopcornTime_Desktop-src/Import/zlib/inflate.c:489-496 | (hold, bits) followed by the unread input stays the undecoded bit string, and 32 bits are enough for hold. |
| Inflate.InflateState.HoldFits | PopcornTime_Desktop-src/Import/zlib/inflate.c:481-521 | Between operations hold < 2^bits <= 2^32. |
| Inflate.InflateState.DecodeSymbol | PopcornTime_Desktop-src/Import/zlib/inflate.c:1033-1051 | The two peek loops decode the symbol at the front of the undecoded bits and drop its bits, or find that all the input does not complete it. |
| Inflate.InflateState.DoStored | PopcornTime_Desktop-src/Import/zlib/inflate.c:864-877 | STORED goes the machine's way: byte alignment, the length and its complement. |
| Inflate.InflateState.DoCodeLens | PopcornTime_Desktop-src/Import/zlib/inflate.c:936-1018 | CODELENS goes the machine's way: literal lengths, the three repeat codes, and the errors, also when re-entered after any of them. |
| Inflate.InflateState.CopyMatch | PopcornTime_Desktop-src/Import/zlib/inflate.c:1123-1167 | One entry of MATCH writes some more of the byte-by-byte copy, from the window or from the output of this call, and refuses a distance exactly when it is beyond the output of this call and what the window keeps. |
| Inflate.InflateState.FastCopy | PopcornTime_Desktop-src/Import/zlib/inffast.c:186-281 | inflate_fast's copy, in its three window cases, writes exactly the byte-by-byte copy, and refuses exactly the distances that MATCH refuses. |
| Inflate.InflateState.FastStep | PopcornTime_Desktop-src/Import/zlib/inffast.c:120-301 | One literal or one length/distance pair, with at most 6 bytes of input pulled and 258 written, takes the machine's steps. |
| Inflate.InflateState.InflateFast | PopcornTime_Desktop-src/Import/zlib/inffast.c:67-322 | inflate_fast ends where the machine goes, holds fewer than 8 bits, and returns only bytes this call pulled, whatever was held on entry. |
| Inflate.InflateState.LenHeld | PopcornTime_Desktop-src/Import/zlib/inffast.c:40-46 | On every entry in LEN fewer than 8 bits are held, or bits that complete no code. |
| Inflate.InflateState.EntryBits | PopcornTime_Desktop-src/Import/zlib/inffast.c:40-46 | If no literal/length code is longer than 8 bits, fewer than 8 bits are held on every entry in LEN. (That they are not for tables with a longer literal code is FastEntry.EntersHolding.) |
| FastEntry.EntersHolding | PopcornTime_Desktop-src/Import/zlib/inffast.c:40-46 | For every length table that gives some literal a code of 9 to 15 bits there are two calls, the first with given input, the second with any 6 bytes and 258 of room, that put the decoder in LEN, where inflate_fast is entered, with 8 or more bits held. |
| FastEntry.FixedCode | PopcornTime_Desktop-src/Import/zlib/inffast.c:40-46 | The fixed table (inffixed.h) is one of these: nine one-bits are the literal 255. |
| Inflate.InflateState.UpdateWindow | PopcornTime_Desktop-src/Import/zlib/inflate.c:379-427 | updatewindow keeps the window equal to the end of the history; until it has filled, wnext is whave. |
| Inflate.InflateState.GetDictionary | PopcornTime_Desktop-src/Import/zlib/inflate.c:1268-1289 | inflateGetDictionary gives the last min(wsize, total) bytes of output in order; nothing if the stream went bad before a window was in use. |
| Inflate.InflateState.constructor | PopcornTime_Desktop-src/Import/zlib/inflate.c:180-220 | A new raw decoder satisfies the invariant and stands at the start of the machine. |
| Inflate.InflateState.Inflate | PopcornTime_Desktop-src/Import/zlib/inflate.c:605-1251 | A call of inflate ends in exactly the state of the machine run on all input so far up to the room so far; it leaves input unread only if the output is full or the stream has ended. |
| Inflate.Session | PopcornTime_Desktop-src/Import/zlib/inflate.c:605-1251 | Over any sequence of calls the outcome, run on to the room of all calls together, is that of one call with all the input; the bytes written are the beginning of what it writes, unless a distance beyond the window size occurs. |
| Window.VerdictOfCuts | PopcornTime_Desktop-src/Import/zlib/inflate.c:1126-1131 | For a distance the verdict "invalid distance too far back" is the same for every cut of the output if and only if the distance is within the window or beyond all history. |
| CutVerdicts.Verdict | PopcornTime_Desktop-src/Import/zlib/inflate.c:1126-1131 | Six bytes of input that come to distance 259 in a window of 256, with the entries of the fixed tables (inffixed.h): the distance is taken when the first call gets one byte, refused when it gets four and room for the 259 bytes before. |
| InfBack.BackState.TooFar | PopcornTime_Desktop-src/Import/zlib/infback.c:577-582 | inflateBack's own check, outside inflate_fast, refuses a distance exactly when it is beyond all output or beyond the window. |
| InfBack.BackState.FastCopy | PopcornTime_Desktop-src/Import/zlib/inffast.c:186-281 | inflate_fast's check and copy, called by inflateBack with its window as the output: what is refused, what is taken, and that a distance the window keeps is copied byte by byte. Any other that is taken only adds bytes. |
| InfBack.BackState.FastVerdict | PopcornTime_Desktop-src/Import/zlib/infback.c:483-491 | inflate_fast's verdict in inflateBack is right (refused exactly when beyond all output or beyond the window) if and only if the window keeps that far back (what is written before the first flush, the whole window after it) or the check refuses. |
| InfBack.BackState.BeyondOutput | PopcornTime_Desktop-src/Import/zlib/infback.c:483-491 | With 100 bytes written and none flushed a match of distance 150 through inflate_fast is taken, whatever `sane` is. |
| InfBack.BackState.CopyMatch | PopcornTime_Desktop-src/Import/zlib/infback.c:586-603 | inflateBack's copy inside its own output window, flushing when it is full, writes exactly the byte-by-byte copy. |
| SyncSearch.NextIsLongest | PopcornTime_Desktop-src/Import/zlib/inflate.c:1366-1371 | The new count is the longest beginning of 00 00 FF FF that ends the bytes seen: this is what `got = 4 - got` encodes. |
| SyncSearch.SyncSearch | PopcornTime_Desktop-src/Import/zlib/inflate.c:1354-1375 | The search keeps that count and stops right behind the first occurrence. |
| SyncSearch.SearchConcat | PopcornTime_Desktop-src/Import/zlib/inflate.c:1343-1352 | Searching in pieces, handing the count on, is searching once. |
| SyncSearch.FoundFirst | PopcornTime_Desktop-src/Import/zlib/inflate.c:1354-1375 | Four is reached if and only if the pattern occurs, and then at the end of its first occurrence. |
| SyncSearch.SyncShift | PopcornTime_Desktop-src/Import/zlib/inflate.c:1393-1402 | The bytes inflateSync takes from the bit buffer are the bytes held, for every content, if and only if no partial byte is held or no whole one. |
| SyncEntry.HoldsThirteen | PopcornTime_Desktop-src/Import/zlib/inflate.c:1393-1402 | A decoder given two bytes holds 13 bits in TABLE; inflateSync then searches a zero byte where 0xff is held. |
| Crc32.MakeCrcTable | PopcornTime_Desktop-src/Import/zlib/crc32.c:90-142 | make_crc_table fills all eight tables with what they stand for: the register after a byte and its zero bytes, and the same byte-swapped. |
| Crc32.ByteWise | PopcornTime_Desktop-src/Import/zlib/crc32.c:204-239 | The byte loop gives the bit-serial polynomial remainder. |
| Crc32.Little | PopcornTime_Desktop-src/Import/zlib/crc32.c:247-280 | Four bytes at a time on a little-endian machine gives the same, for every buffer, length and alignment. |
| Crc32.Big | PopcornTime_Desktop-src/Import/zlib/crc32.c:287-320 | Four bytes at a time on a big-endian machine, with the register byte-swapped, gives the same. |
| Crc32.Crc32 | PopcornTime_Desktop-src/Import/zlib/crc32.c:204-239 | crc32 gives the bit-serial value through either path, and 0 for a null buffer. |
| Crc32.CrcConcat | PopcornTime_Desktop-src/Import/zlib/crc32.c:204-239 | crc32(crc32(c, A), B) is crc32(c, A followed by B). |
| Crc32.CheckValue | PopcornTime_Desktop-src/Import/zlib/crc32.c:204-239 | The CRC of the digits 1 to 9 is 0xcbf43926. |
| CrcCombine.TimesXor | PopcornTime_Desktop-src/Import/zlib/crc32.c:327-341 | gf2_matrix_times is linear in the vector. |
| CrcCombine.SquareTwice | PopcornTime_Desktop-src/Import/zlib/crc32.c:344-352 | gf2_matrix_square is composition. |
| CrcCombine.SquareDoubles | PopcornTime_Desktop-src/Import/zlib/crc32.c:344-352 | Squaring the operator of n zero bits gives the operator of 2n zero bits. |
| CrcCombine.ApplyZeros | PopcornTime_Desktop-src/Import/zlib/crc32.c:385-404 | The loop over the bits of len2, alternating even and odd, applies 8 * len2 zero bits. |
| CrcCombine.CombineIsConcat | PopcornTime_Desktop-src/Import/zlib/crc32.c:355-408 | combine(crc(A), crc(B), |B|) is the CRC of A followed by B, for all A and B. |
| Adler32.NMaxIsExact | PopcornTime_Desktop-src/Import/zlib/adler32.c:14-16 | Deferring the reduction over n bytes cannot overflow 32 bits, from any valid sums and for any bytes, if and only if n <= 5552. |
| Adler32.Mod28Exact | PopcornTime_Desktop-src/Import/zlib/adler32.c:38-43 | MOD28 reduces a value correctly if and only if CHOP brings it below twice BASE. |
| Adler32.ModExact | PopcornTime_Desktop-src/Import/zlib/adler32.c:44-48 | MOD without division is the remainder for every 32-bit value. |
| Adler32.Mod63Exact | PopcornTime_Desktop-src/Import/zlib/adler32.c:49-57 | MOD63 without division is the remainder for every non-negative 64-bit length. |
| Adler32.Adler32 | PopcornTime_Desktop-src/Import/zlib/adler32.c:65-133 | Every path (one byte, under 16, blocked), with or without division, gives the byte-at-a-time checksum. |
| Adler32.AdlerConcat | PopcornTime_Desktop-src/Import/zlib/adler32.c:65-133 | Continuing a checksum is the checksum of the concatenation. |
| Adler32.AdlerIs | PopcornTime_Desktop-src/Import/zlib/adler32.c:65-133 | From the start value 1 the low half is one more than the sum of the bytes, and the high half the length plus the sum of the bytes each times its distance from the end, modulo 65521 (section 8.2 of RFC 1950). |
| Adler32.PackedHalves | PopcornTime_Desktop-src/Import/zlib/adler32.c:75-77 | The two sums are the low and the high half of the 32-bit value. |
| Adler32.CombineIsConcat | PopcornTime_Desktop-src/Import/zlib/adler32.c:136-162 | The combination formula gives the checksum of A followed by B, for all A and B. |
| Adler32.Combine | PopcornTime_Desktop-src/Import/zlib/adler32.c:136-162 | adler32_combine_ computes that formula without overflow, and 0xffffffff for a negative length. |
| GzRead.Recognised | PopcornTime_Desktop-src/Import/zlib/gzread.c:86-166 | Two bytes of input, or all there is, tell a gzip member from what is to be copied or ignored. |
| GzRead.MagicIs | PopcornTime_Desktop-src/Import/zlib/gzread.c:136-137 | A gzip member begins with 1f 8b. |
| GzRead.GzFile.Avail | PopcornTime_Desktop-src/Import/zlib/gzread.c:51-75 | gz_avail fills the input buffer; the unread input is the same bytes of the file, in place. |
| GzRead.GzFile.GzLook | PopcornTime_Desktop-src/Import/zlib/gzread.c:86-166 | gz_look ends at the next member, in copying, or with no input left; no byte of the stream is lost. |
| GzRead.GzFile.GzDecomp | PopcornTime_Desktop-src/Import/zlib/gzread.c:172-216 | gz_decomp writes the next bytes of the stream until the space is full, the member ends or the input does; inflate is fed exactly the member's bytes. A data error is reported only if a member is damaged. |
| GzRead.GzFile.GzFetch | PopcornTime_Desktop-src/Import/zlib/gzread.c:226-253 | gz_fetch terminates with output, or with no input left. |
| GzRead.GzFile.GzSkip | PopcornTime_Desktop-src/Import/zlib/gzread.c:256-285 | gz_skip terminates at the position asked for or at the end of the stream. |
| GzRead.GzFile.Read | PopcornTime_Desktop-src/Import/zlib/gzread.c:288-384 | gzread returns exactly the next min(len, rest) bytes of the decoded stream from the position gztell64 reported. |
| GzRead.GzFile.Getc | PopcornTime_Desktop-src/Import/zlib/gzread.c:387-414 | gzgetc returns the next byte without looking for a seek request: none can be pending while the buffer holds bytes. |
| GzRead.GzFile.Rewind | PopcornTime_Desktop-src/Import/zlib/gzlib.c:339-359 | gzrewind goes back to position 0, or changes nothing. |
| GzRead.GzFile.Seek | PopcornTime_Desktop-src/Import/zlib/gzlib.c:362-436 | gzseek64 goes to the position asked for, by lseek, skip or rewind, and returns it; it refuses exactly negative positions and what a file without seeking cannot do. A refusal drops the request that was waiting: the position stays exactly when none was. |
| GzRead.RefusalForgets | PopcornTime_Desktop-src/Import/zlib/gzlib.c:362-436 | In any newly opened file: gzseek64 to 5, then to -1, which is refused, and gztell64 is back at 0. |
| GzRead.Session | PopcornTime_Desktop-src/Import/zlib/gzread.c:172-414 | Any interleaving of gzread, gzgetc, gzrewind, gzseek64 and gztell64 inside the stream is answered from the decoded stream alone, whatever the buffer size, the short reads and the members; it fails only if a read of the file does. |
| GzRead.ReadsJoin | PopcornTime_Desktop-src/Import/zlib/gzread.c:288-384 | Reading in pieces of any size is reading at once. |
| WebSocket.DeliveredIff | PopcornTime_Desktop-src/lib/mongoose.c:2092-2148 | A frame at the front of the buffer is delivered, with its first byte and unmasked payload, if and only if its whole length fits in an int. |
| WebSocket.PartDelivered | PopcornTime_Desktop-src/lib/mongoose.c:2092-2148 | A proper part of a frame is delivered if and only if its header is all there and the length of the frame, as an int, is positive and at most what is there; never for a payload of at most INT_MAX bytes. |
| WebSocket.ParseStable | PopcornTime_Desktop-src/lib/mongoose.c:2092-2148 | Bytes that come later do not change a frame that is all there. |
| WebSocket.ParseAllConcat | PopcornTime_Desktop-src/lib/mongoose.c:2591-2596 | Delivering after each chunk is delivering once. |
| WebSocket.LengthTruncated | PopcornTime_Desktop-src/lib/mongoose.c:2116-2121 | The 64-bit length survives its conversion to int if and only if it is at most INT_MAX. |
| WebSocket.TruncatedFrame | PopcornTime_Desktop-src/lib/mongoose.c:2116-2147 | A header that announces 0xffffffff bytes is delivered at once, with length -1, and nine of its ten bytes are dropped. |
| WebSocket.Connection.Spool | PopcornTime_Desktop-src/lib/mongoose.c:590-621 | spool adds all of the data or nothing, exactly as room, memory and the int of the enlarged size allow; the copy leaves the buffer exactly when the new length overflows. |
| WebSocket.Connection.Discard | PopcornTime_Desktop-src/lib/mongoose.c:922-929 | Discarding drops the leading bytes, or nothing if there are not as many. |
| WebSocket.Connection.DeliverFrame | PopcornTime_Desktop-src/lib/mongoose.c:2092-2148 | One frame, if there is one, is unmasked in place, delivered and removed; otherwise nothing changes. |
| WebSocket.HelloFrame | PopcornTime_Desktop-src/lib/mongoose.c:2130-2137 | The masked frame of section 5.7 of RFC 6455, octet by octet, is delivered as "Hello". |
| WebSocket.PlainFrames | PopcornTime_Desktop-src/lib/mongoose.c:2150-2198 | The unmasked frames of that section, with all three length forms, are the frames that are written. |
| WebSocket.KeyOctet | PopcornTime_Desktop-src/lib/mongoose.c:2130-2137 | Changing octet j of the key changes exactly the octets of the payload whose place is j modulo 4. |
| WebSocket.Write | PopcornTime_Desktop-src/lib/mongoose.c:2150-2198 | mg_websocket_write passes on exactly one unmasked frame with the opcode and the data. |
| WebSocket.PendingWithin | PopcornTime_Desktop-src/lib/mongoose.c:590-621 | What waits in the buffer is never longer than the longest frame. |
| WebSocket.Receive | PopcornTime_Desktop-src/lib/mongoose.c:2092-2148 | Any list of frames in any chunks is delivered frame by frame, and the buffer holds exactly the undelivered suffix; a chunk is lost only if memory is refused or it cannot be spooled behind what waits. |
| DigestStream.FoldConcat | PopcornTime_Desktop-src/Common/md5.cpp:251-287 | Whole blocks may be transformed in any grouping. |
| DigestStream.CountMore | PopcornTime_Desktop-src/Common/md5.cpp:256-262 | The two count words are 8 times the number of bytes modulo 2^64 after any update; both programs' carry tests agree. |
| DigestStream.PaddedWhole | PopcornTime_Desktop-src/Common/md5.cpp:298-330 | After 0x80, zeros and the length every byte is in the state. |
| Md5.Transform | PopcornTime_Desktop-src/Common/md5.cpp:161-245 | MD5::transform is the 64 steps of RFC 1321 on the decoded block. |
| Md5.TransformM | PopcornTime_Desktop-src/lib/mongoose.c:3222-3319 | mongoose's MD5Transform, with other round functions and the constant added first, computes the same. |
| Md5.MD5.Update | PopcornTime_Desktop-src/Common/md5.cpp:251-287 | After update the context has absorbed the old message followed by the new piece, for every length and fill, unless the 32-bit loop index overflows: exactly when the last whole block of the piece begins within 64 of 2^32. |
| Md5.MD5.Finalize | PopcornTime_Desktop-src/Common/md5.cpp:298-330 | finalize gives the digest of the message so far. |
| Md5.Md5Ctx.Update | PopcornTime_Desktop-src/lib/mongoose.c:3326-3359 | The same for MD5Update. |
| Md5.Md5Ctx.Final | PopcornTime_Desktop-src/lib/mongoose.c:3365-3397 | MD5Final, padding in place in one block or two, gives the same digest. |
| Md5.BothAgree | PopcornTime_Desktop-src/Common/md5.cpp:251-330 | One message cut up in two ways through the two implementations gives one digest; MD5::update overruns exactly for the cuts in which some piece makes its loop index overflow. |
| Md5Vectors.Operations1A | PopcornTime_Desktop-src/Common/md5.cpp:167-174 | The first eight operations take the words, rotations and constants that section 3.4 of RFC 1321 lists. (The other 56 are in Operations1B to Operations4B.) |
| Md5Vectors.EmptyDigest | PopcornTime_Desktop-src/Common/md5.cpp:161-330 | The digest of the empty message is d41d8cd98f00b204e9800998ecf8427e. |
| Md5Vectors.LengthOrder | PopcornTime_Desktop-src/Common/md5.cpp:298-330 | The length goes in bits, low-order word and byte first. |
| Md5Vectors.ByteOrder | PopcornTime_Desktop-src/Common/md5.cpp:137-145 | The first of four bytes is the least significant of a word. |
| Sha1.NextWord | PopcornTime_Desktop-src/lib/mongoose.c:1923-1924 | The rolling 16-word schedule gives the words of the 80-word expansion. |
| Sha1.Transform | PopcornTime_Desktop-src/lib/mongoose.c:1937-1977 | SHA1Transform is the 80 rounds of section 6.1 of RFC 3174. |
| Sha1.Sha1Ctx.Final | PopcornTime_Desktop-src/lib/mongoose.c:2013-2038 | SHA1Final, padding through the update function a byte at a time, gives the digest. |
| Sha1.Sha1Ctx.Update | PopcornTime_Desktop-src/lib/mongoose.c:1990-2011 | After SHA1Update the context has absorbed the piece, unless a sum of 32 bits overflows: exactly when fill and length together reach 2^32, or the last whole block begins within 63 of it. |
| Sha1.InChunks | PopcornTime_Desktop-src/lib/mongoose.c:1990-2038 | The digest does not depend on how the message was cut; it is missing exactly for the cuts in which some piece makes SHA1Update overflow. |
| Sha1Vectors.AbcDigest | PopcornTime_Desktop-src/lib/mongoose.c:1937-2038 | The digest of "abc" is a9993e364706816aba3e25717850c26c9cd0d89d. |
| Deadlines.FirstAbsentFirst | PopcornTime_Desktop-src/lib/streamerok.cpp:196-212 | The wanted pieces come first: an absent piece before one of them is one of them. |
| Deadlines.FirstAbsentSize | PopcornTime_Desktop-src/lib/streamerok.cpp:196-212 | They are min(5, missing) pieces. |
| Deadlines.Aux.constructor | PopcornTime_Desktop-src/lib/streamerok.cpp:83-136 | Startup marks exactly the two startup ranges, and gives them deadlines: 10, 20 and so on from the first piece on, then from the last piece back. |
| Deadlines.Aux.MarkWanted | PopcornTime_Desktop-src/lib/streamerok.cpp:195-213 | The loop marks exactly the wanted pieces, and throws exactly when it starts at a negative piece. Newly marked pieces get the next multiples of 10 in the order of their numbers; other deadlines stay. |
| Deadlines.EarlierFirst | PopcornTime_Desktop-src/lib/streamerok.cpp:203-204 | Of two newly marked pieces the earlier gets the earlier deadline, and neither one before the counter. |
| Deadlines.Aux.UpdateDeadlines | PopcornTime_Desktop-src/lib/streamerok.cpp:155-219 | With both startup ranges there, the absent pieces marked afterwards are exactly the wanted ones, with deadlines numbered on; a seek takes all marks and deadlines off first and leaves no mark before the new start; it throws exactly for a piece index outside the file or a negative start. |
| Deadlines.Aux.PieceOfNegative | PopcornTime_Desktop-src/lib/streamerok.cpp:470-491 | Which offsets lead before the file's first piece, before piece 0, and to piece -1, exactly. |
| Deadlines.Aux.SeekInFile | PopcornTime_Desktop-src/lib/streamerok.cpp:470-491 | A seek sets the new start and the marks accordingly, for negative offsets too; for an offset in the file the start is the piece in which that byte lies, counted from the first piece; an offset that leads to piece -1 is no seek. What is kept for the next callback: the piece after an invalid handle, and what was kept before after a throw. |
| Deadlines.Aux.LiesInOne | PopcornTime_Desktop-src/lib/streamerok.cpp:470-491 | A byte lies in one piece only: the one the quotient gives. |
| Deadlines.Aux.SeekFinds | PopcornTime_Desktop-src/lib/streamerok.cpp:470-491 | Of a file that begins anywhere in the torrent, a seek starts at the piece that holds the byte if and only if the fractions of a piece before the file and before the byte make less than a piece; otherwise one piece early. |
| Deadlines.Aux.SinglePiece | PopcornTime_Desktop-src/lib/streamerok.cpp:103-130 | A file has no startup range, and nothing is ever wanted, if and only if it is a single piece. |
| Deadlines.SeekTakesEffect | PopcornTime_Desktop-src/lib/streamerok.cpp:155-219 | A seek into the file takes effect by the next callback with a valid handle, whether the handle was valid for the seek or not, with arrivals in between: the deadlines start at the piece that holds the byte. |
| Deadlines.Run | PopcornTime_Desktop-src/lib/streamerok.cpp:155-219 | Over any run of arrivals, callbacks and seeks, with the seek that is kept between them handed on: the file's start and the kept seek are those of the events one after the other; at most five absent pieces are marked, all of them wanted; right after a callback or a seek into the file, exactly the wanted ones, and after the seek from the piece that holds the byte. |

## Left out

- trees.c is not part of this model. A block is its tokens; `_tr_flush_block` takes them and resets
  the buffer. Which form and which codes it chooses is arbitrary: the round trip holds for every writing that
  RFC 1951 allows; that trees.c produces one of them is not proved.
- The symbol frequency counters of the tally macros, `compressBound` and `deflateBound`.
- `inflate_table`: inftrees.c is not part of this model. Tables are any two-level prefix-code
  tables of the shape inftrees.h promises; which code lengths give which table is a parameter, and so is the word of
  each symbol: any that the table decodes to the symbol's least value and number of extra bits.
- zlib and gzip wrappers of `inflate` and `deflate` (headers, trailers, check values, preset
  dictionaries), Z_BLOCK, Z_TREES and Z_FINISH for `inflate`; `deflateParams`, `deflateTune`, `deflatePrime`,
  `inflatePrime`, `inflateUndermine`, `inflateSync`'s reset of the stream.
- The states TYPE and TYPEDO, COPY_ and COPY, LEN_ and LEN are one each; CHECK and LENGTH do nothing for a raw stream.
- Allocation and its failure. The decoder's window is there from the start and in use from the
  first update.
- How much of a block the writer still holds when `deflate` returns is arbitrary.
- Inflate.Session: when the abstract machine meets a distance beyond the window size
  nothing is promised about the bytes that follow, because the program's verdict depends on the cuts.
- inflateBack's state machine, the decode loop of `inflate_fast` inside it, and a failing output
  function; its window, flushing, both checks of a distance and both copies are modelled. What a copy that
  leaves the window would read is not, only when it happens.
- `d_buf` and `l_buf` lie inside `pending_buf` (deflate.c:294-312); here they are arrays of their own.
- Crc32.Crc32: `unsigned long` is 32 bits wide, and the tables are made by `make_crc_table` rather than read from crc32.h.
- Adler32.Combine: the check for a negative length is on `z_off64_t`; lengths of 2^63 and more do not exist.
- `gzdirect`, `gzungetc`, `gzgets`, writing, and error strings. The file is a byte sequence whose reads
  may be short or fail; `inflate` is any decoder that consumes and writes within its bounds until the input, the
  output space or the member ends (GzRead.GzFile.Inflate), the progress that Inflate.InflateState.Inflate proves of the raw decoder.
- GzRead.GzFile.Read: for a file cut short inside a member it promises only that what it returns is
  the next part of what the member's bytes determine, because output still inside inflate is lost at the end of the file;
  for a damaged member, that a data error is reported only if there is one. Positions are unbounded, not 64-bit.
- WebSocket.Connection.Spool: the factor 1.2 is exactly 6/5. A size beyond INT_MAX, whose conversion C leaves undefined,
  is refused. An overflowing sum of ints wraps. What a copy outside the buffer would destroy is not modelled, only when it happens.
- Handlers that change the buffer while a frame is delivered.
- WebSocket.Receive: it stops at the first chunk that is lost; the program reads on.
- `htons` and `htonl` give network order; MD5 runs on a little-endian machine; SHA-1's block words are
  loaded in order at the start.
- Md5.MD5.Update: once the loop index has overflowed the program reads outside the piece; what it
  absorbs then is not modelled, only exactly when it happens.
- Sha1.Sha1Ctx.Update: the same.
- libtorrent: the handle is the set of pieces it has and a map of deadlines. The ceiling of a float quotient is
  that of the quotient. Piece numbers are unbounded.
- Everything else in mongoose.c, the user interface, players, VPN, subtitles and the remote-control scripts.
