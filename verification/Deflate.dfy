/** deflate.c: sliding window, hash chains and the block strategies, up to the
    tokens handed to the block writer. */
module Deflate {
  import opened Lz77
  import opened Bytes
  import opened Binary
  import opened HashKey
  import opened HashChains
  import opened Blocks

  const MIN_LOOKAHEAD := MAX_MATCH + MIN_MATCH + 1
  const WIN_INIT := MAX_MATCH
  const TOO_FAR := 4096
  const MAX_MEM_LEVEL := 9

  datatype Flush = NoFlush | PartialFlush | SyncFlush | FullFlush | Finish | BlockFlush

  datatype Strategy = DefaultStrategy | Filtered | HuffmanOnly | Rle | Fixed

  datatype BlockState = NeedMore | BlockDone | FinishStarted | FinishDone

  datatype Status = Ok | StreamEnd | StreamError | BufError

  /** zlib.h's numbers for the flush values, and RANK. */
  function Code(f: Flush): int {
    match f case NoFlush => 0 case PartialFlush => 1 case SyncFlush => 2
            case FullFlush => 3 case Finish => 4 case BlockFlush => 5
  }

  function Rank(code: int): int { 2 * code - (if code > 4 then 9 else 0) }

  datatype CompressFunc = Stored | Fast | Slow | RunLengths | Huffman

  datatype Config = Config(good: nat, lazy: nat, nice: nat, chain: nat, func: CompressFunc)

  /** configuration_table */
  function ConfigFor(level: nat): (c: Config)
    requires level <= 9
    ensures c.nice <= MAX_MATCH && c.lazy <= MAX_MATCH
    ensures level >= 1 ==> c.chain >= 4 && c.lazy >= MIN_MATCH
  {
    match level
    case 0 => Config(0, 0, 0, 0, Stored)
    case 1 => Config(4, 4, 8, 4, Fast)
    case 2 => Config(4, 5, 16, 8, Fast)
    case 3 => Config(4, 6, 32, 32, Fast)
    case 4 => Config(4, 4, 16, 16, Slow)
    case 5 => Config(8, 16, 32, 32, Slow)
    case 6 => Config(8, 16, 128, 128, Slow)
    case 7 => Config(8, 32, 128, 256, Slow)
    case 8 => Config(32, 128, 258, 1024, Slow)
    case _ => Config(32, 258, 258, 4096, Slow)
  }

  function Wrap32(x: int): U32 { x % 0x1_0000_0000 }

  function LowUsh(x: nat): Ush { x % 0x1_0000 }

  function LowByte(x: nat): byte { x % 0x100 }

  lemma CutsAreLossless(distance: nat, length: nat)
    requires distance < 0x1_0000 && length < 0x100
    ensures LowUsh(distance) == distance && LowByte(length) == length
  {
  }

  /** The first n bytes of the window are the last n bytes of the stream read so far. */
  ghost predicate Mirrors(w: seq<byte>, stream: seq<byte>, base: nat, n: nat) {
    && n <= |w| && base + n == |stream|
    && forall i :: 0 <= i < n ==> w[i] == stream[base + i]
  }

  lemma MirrorsSlice(w: seq<byte>, stream: seq<byte>, base: nat, n: nat, a: nat, b: nat)
    requires Mirrors(w, stream, base, n) && a <= b <= n
    ensures w[a..b] == stream[base + a..base + b]
  {
    assert forall i :: 0 <= i < b - a ==> w[a..b][i] == w[a + i] && stream[base + a..base + b][i] == stream[base + (a + i)];
  }

  /** A repetition seen in the window is one in the stream. */
  lemma WindowRepeats(w: seq<byte>, stream: seq<byte>, base: nat, n: nat, pos: nat, dist: nat, len: nat)
    requires Mirrors(w, stream, base, n) && 1 <= dist <= pos && pos + len <= n
    requires forall i :: pos <= i < pos + len ==> w[i] == w[i - dist]
    ensures Repeats(stream, base + pos, dist, len)
  {
    forall i | base + pos <= i < base + pos + len ensures stream[i] == stream[i - dist] {
      assert w[i - base] == stream[base + (i - base)] && w[i - base - dist] == stream[base + (i - base - dist)];
    }
  }

  lemma RepeatsGrow(stream: seq<byte>, stream': seq<byte>, pos: nat, dist: nat, len: nat)
    requires Repeats(stream, pos, dist, len) && stream <= stream'
    ensures Repeats(stream', pos, dist, len)
  {
  }

  lemma Wrap32Twice(x: int, w: int)
    ensures Wrap32(Wrap32(x) - w) == Wrap32(x - w)
  {
    var q := x / 0x1_0000_0000;
    assert Wrap32(x) - w == x - w - q * 0x1_0000_0000;
    var r, q' := x - w, (x - w) / 0x1_0000_0000;
    assert (r - q * 0x1_0000_0000) == (q' - q) * 0x1_0000_0000 + Wrap32(r);
  }

  /** The running hash h is ready for the string at window index p. */
  ghost predicate PrimedFor(bits: nat, h: nat, w: seq<byte>, p: nat) {
    p + 1 < |w| && Primed(bits, h, w[p], w[p + 1])
  }

  /** What fill_window's slide does to the text, in one step on values. */
  lemma SlideText(c: Chains, w': seq<byte>, stream: seq<byte>, base: nat, strstart: nat, h: nat)
    requires c.Ok() && Slid(c, w') && Mirrors(c.w, stream, base, c.end)
    requires c.wSize <= strstart <= c.end
    requires forall p :: p in c.filed ==> p < strstart
    ensures c.Slide(w').Ok() && Mirrors(w', stream, base + c.wSize, c.end - c.wSize)
    ensures forall p :: p in c.Slide(w').filed ==> p < strstart - c.wSize
    ensures c.end - strstart >= MIN_MATCH && PrimedFor(c.bits, h, c.w, strstart)
            ==> PrimedFor(c.bits, h, w', strstart - c.wSize)
  {
    SlideKeepsOk(c, w');
    forall i | 0 <= i < c.end - c.wSize ensures w'[i] == stream[base + c.wSize + i] {
      assert w'[i] == c.w[i + c.wSize];
    }
    if c.end - strstart >= MIN_MATCH {
      assert w'[strstart - c.wSize] == c.w[strstart - c.wSize + c.wSize];
      assert w'[strstart - c.wSize + 1] == c.w[strstart - c.wSize + 1 + c.wSize];
    }
  }

  /** One more block, of these tokens. */
  ghost predicate BlockAdded(bs: seq<Block>, ts: seq<Token>, bs': seq<Block>) {
    |bs'| == |bs| + 1 && bs <= bs' && bs'[|bs|].tokens == Some(ts)
  }

  /** The tokens ts are still in the buffer, or have become a block. */
  ghost predicate TokensSent(bs: seq<Block>, ts: seq<Token>, bs': seq<Block>, ts': seq<Token>) {
    (bs' == bs && ts' == ts) || (BlockAdded(bs, ts, bs') && ts' == [])
  }

  class DeflateState {
    const level: nat
    const strategy: Strategy
    const wBits: nat
    const wSize: nat
    const hashBits: nat
    const litBufsize: nat
    const goodMatch: nat
    const maxLazyMatch: nat
    const niceMatch: nat
    const maxChainLength: nat

    const window: array<byte>
    const prev: array<Pos>
    const head: array<Pos>
    const dBuf: array<Ush>
    const lBuf: array<byte>

    var insH: nat
    var strstart: nat
    var lookahead: nat
    var insert: nat
    var blockStart: int
    var matchLength: nat
    var prevLength: nat
    var matchStart: U32
    var prevMatch: U32
    var matchAvailable: bool
    var highWater: nat
    var lastLit: nat

    // strm->next_in[..avail_in] and strm->avail_out
    var input: seq<byte>
    var availOut: nat

    var finished: bool   // status == FINISH_STATE
    var lastFlush: int

    ghost var past: seq<byte>         // what was read before the last full flush
    ghost var pastBlocks: seq<Block>  // and the blocks that were sent for it
    ghost var stream: seq<byte>       // everything read into the window since then
    ghost var base: nat               // position in stream of window index 0
    ghost var dataEnd: nat            // window index just past the data
    ghost var filed: set<nat>         // window positions in the dictionary
    ghost var matchPos: int           // stream position of the string at matchStart
    ghost var tally: seq<Token>       // tokens in dBuf/lBuf
    ghost var blocks: seq<Block>      // blocks handed to the block writer since the last full flush

    ghost predicate Params() {
      && 9 <= wBits <= 15 && wSize == Pow2(wBits) && 512 <= wSize <= 0x8000
      && ValidBits(hashBits) && head.Length == Pow2(hashBits)
      && prev.Length == wSize && window.Length == 2 * wSize
      && 128 <= litBufsize && dBuf.Length == litBufsize && lBuf.Length == litBufsize
      && niceMatch <= MAX_MATCH && maxLazyMatch <= MAX_MATCH && (level >= 1 ==> 4 <= maxChainLength)
      && window != lBuf && prev != head && prev != dBuf && head != dBuf
    }

    function MaxDist(): int { wSize - MIN_LOOKAHEAD }

    ghost predicate WindowOk()
      reads this`strstart, this`lookahead, this`insert, this`stream, this`base, this`dataEnd, window
    {
      && dataEnd == strstart + lookahead <= window.Length
      && Mirrors(window[..], stream, base, dataEnd)
      && insert <= strstart && (insert > 0 ==> lookahead + insert < MIN_MATCH)
    }

    ghost function TheChains(): Chains
      reads this`dataEnd, this`filed, window, head, prev
    {
      Chains(hashBits, wSize, window[..], head[..], prev[..], filed, dataEnd)
    }

    ghost predicate FiledBelow(n: int)
      reads this`filed
    {
      forall p :: p in filed ==> p < n
    }

    ghost predicate PrimedAt(p: nat)
      reads this`insH, window
    {
      PrimedFor(hashBits, insH, window[..], p)
    }

    ghost predicate Rolling()
      reads this`insH, this`strstart, this`lookahead, window
    {
      lookahead >= MIN_MATCH ==> PrimedAt(strstart)
    }

    // ---- read_buf ----

    /** Nothing read is lost: what is in the stream followed by what is
        unread stays the same, and the stream only grows. */
    twostate predicate Conserved()
      reads this`stream, this`input
    {
      stream + input == old(stream + input) && old(stream) <= stream
    }

    method ReadBuf(at: nat, size: nat) returns (n: nat)
      requires Params() && at + size <= window.Length && Mirrors(window[..], stream, base, at)
      modifies this`input, this`stream, window
      ensures n == Min(size, |old(input)|)
      ensures input == old(input)[n..] && stream == old(stream) + old(input)[..n] && Conserved()
      ensures window[..at] == old(window[..at])
      ensures Mirrors(window[..], stream, base, at + n)
    {
      hide Params;
      n := |input|;
      if n > size { n := size; }
      if n == 0 { return; }
      CopyInput(at, n);
      stream := stream + input[..n];
      input := input[n..];
    }

    /** Copies the next n bytes of input into the window. */
    method CopyInput(at: nat, n: nat)
      requires n <= |input| && at + n <= window.Length && Mirrors(window[..], stream, base, at)
      modifies window
      ensures window[..at] == old(window[..at]) && Mirrors(window[..], stream + input[..n], base, at + n)
    {
      forall i | 0 <= i < n { window[at + i] := input[i]; }
    }

    // ---- UPDATE_HASH and INSERT_STRING ----

    method UpdateHash(c: byte)
      modifies this`insH
      ensures insH == Update(hashBits, old(insH), c)
    {
      insH := Update(hashBits, insH, c);
    }

    ghost predicate HashOk()
      reads this`strstart, this`dataEnd, this`filed, window, head, prev
    {
      TheChains().Ok() && FiledBelow(strstart)
    }

    /** The head of the chain of the string at str. */
    ghost function HeadFor(str: nat): Pos
      requires Params() && str + 2 < window.Length
      reads window, head
    {
      head[Key(hashBits, window[str], window[str + 1], window[str + 2])]
    }

    /** Files the string at str and returns the previous head of its chain. */
    method InsertString(str: nat) returns (matchHead: Pos)
      requires Params() && TheChains().Ok() && FiledBelow(str)
      requires str + MIN_MATCH <= dataEnd && PrimedAt(str)
      modifies this`insH, this`filed, head, prev
      ensures TheChains().Ok() && FiledBelow(str + 1) && str in filed && filed == old(filed) + {str}
      ensures PrimedAt(str + 1)
      ensures matchHead != NIL ==> matchHead in old(filed) && TheChains().KeyAt(matchHead) == TheChains().KeyAt(str)
      ensures matchHead == old(HeadFor(str)) && HeadFor(str) == str && prev[..] == old(prev[..])[str % wSize := matchHead]
    {
      ghost var c := TheChains();
      UpdateHash(window[str + (MIN_MATCH - 1)]);
      assert insH == c.KeyAt(str);
      assert c.HeadOk(insH);
      matchHead := head[insH];
      prev[str % wSize] := matchHead;
      head[insH] := str;
      filed := filed + {str};
      InsertKeepsOk(c, str);
      assert TheChains() == c.Insert(str);
      KeyPrimesNext(hashBits, window[str], window[str + 1], window[str + 2]);
    }

    // ---- fill_window ----

    method SlideTable(t: array<Pos>)
      modifies t
      ensures t[..] == SlideAll(old(t[..]), wSize)
    {
      var n := t.Length;
      while n > 0
        invariant 0 <= n <= t.Length
        invariant forall i :: 0 <= i < n ==> t[i] == old(t[i])
        invariant forall i :: n <= i < t.Length ==> t[i] == SlideOne(old(t[i]), wSize)
      {
        n := n - 1;
        var m := t[n];
        t[n] := if m >= wSize then m - wSize else NIL;
      }
    }

    /** zmemcpy(window, window + wsize, wsize), then both tables. */
    method SlideBuffers()
      requires Params()
      modifies window, head, prev
      ensures forall i :: 0 <= i < wSize ==> window[..][i] == old(window[..])[i + wSize]
      ensures head[..] == SlideAll(old(head[..]), wSize) && prev[..] == SlideAll(old(prev[..]), wSize)
    {
      forall i | 0 <= i < wSize { window[i] := window[wSize + i]; }
      SlideTable(head);
      SlideTable(prev);
    }

    /** Moves the upper half of the window down and rebases everything that
        holds a window index. */
    method SlideWindow()
      requires Params() && WindowOk() && HashOk() && strstart >= wSize + MaxDist()
      modifies this`strstart, this`matchStart, this`blockStart, this`base, this`dataEnd, this`filed, window, head, prev
      ensures WindowOk() && HashOk()
      ensures strstart == old(strstart) - wSize && base == old(base) + wSize
      ensures blockStart == old(blockStart) - wSize && matchStart == Wrap32(old(matchStart) - wSize)
      ensures old(Rolling()) ==> Rolling()
    {
      hide Chains.Ok, Mirrors, PrimedFor, SlideAll, SlideOne;
      ghost var c := TheChains();
      SlideBuffers();
      SlideText(c, window[..], stream, base, strstart, insH);
      MoveDown();
      assert TheChains() == c.Slide(window[..]);
    }

    /** Every position moves down by the window size. */
    method MoveDown()
      requires wSize <= strstart && wSize <= dataEnd
      modifies this`strstart, this`matchStart, this`blockStart, this`base, this`dataEnd, this`filed
      ensures strstart == old(strstart) - wSize && base == old(base) + wSize && dataEnd == old(dataEnd) - wSize
      ensures blockStart == old(blockStart) - wSize && matchStart == Wrap32(old(matchStart) - wSize)
      ensures filed == set p | p in old(filed) && p >= wSize :: p - wSize
    {
      matchStart := Wrap32(matchStart - wSize);
      strstart := strstart - wSize;
      blockStart := blockStart - wSize;
      base := base + wSize;
      dataEnd := dataEnd - wSize;
      filed := set p | p in filed && p >= wSize :: p - wSize;
    }

    /** Primes the hash register with the two bytes at `str`. */
    method PrimeHash(str: nat)
      requires Params() && str + 1 < window.Length
      modifies this`insH
      ensures PrimedAt(str)
    {
      insH := window[str];
      UpdateHash(window[str + 1]);
      PrimeFromByte(hashBits, window[str], window[str + 1]);
    }

    /** Files the strings left over from the previous call, now that their
        three bytes are known, and re-primes the running hash. */
    method InsertPending()
      requires Params() && TheChains().Ok() && FiledBelow(strstart - insert)
      requires insert <= strstart && lookahead + insert >= MIN_MATCH && dataEnd == strstart + lookahead <= window.Length
      modifies this`insH, this`filed, this`insert, head, prev
      ensures HashOk() && Rolling()
      ensures old(filed) <= filed && forall p :: strstart - old(insert) <= p < strstart - insert ==> p in filed
      ensures insert <= old(insert) && (insert > 0 ==> lookahead + insert < MIN_MATCH)
    {
      hide Chains.Ok, PrimedFor, HeadFor;
      var str := strstart - insert;
      PrimeHash(str);
      while insert > 0
        invariant str == strstart - insert && insert <= old(insert)
        invariant TheChains().Ok() && FiledBelow(str) && PrimedAt(str)
        invariant lookahead + insert >= MIN_MATCH
        invariant old(filed) <= filed && forall p :: strstart - old(insert) <= p < str ==> p in filed
      {
        var _ := InsertString(str);
        str := str + 1;
        insert := insert - 1;
        if lookahead + insert < MIN_MATCH { break; }
      }
    }

    /** zmemzero(window + at, n) */
    method ZeroBytes(at: nat, n: nat)
      requires at + n <= window.Length
      modifies window
      ensures forall i :: 0 <= i < at ==> window[i] == old(window[i])
    {
      forall i | at <= i < at + n { window[i] := 0; }
    }

    /** Zeroes up to WIN_INIT bytes past the data, so that the match finder
        never looks at bytes that were never written. */
    method ZeroTail()
      requires Params() && strstart + lookahead <= window.Length && highWater <= window.Length
      modifies this`highWater, window
      ensures highWater <= window.Length
      ensures highWater >= Min(strstart + lookahead + WIN_INIT, window.Length)
      ensures forall i :: 0 <= i < strstart + lookahead ==> window[i] == old(window[i])
    {
      var windowSize := window.Length;
      if highWater < windowSize {
        var curr := strstart + lookahead;
        if highWater < curr {
          var init := windowSize - curr;
          if init > WIN_INIT { init := WIN_INIT; }
          ZeroBytes(curr, init);
          highWater := curr + init;
        } else if highWater < curr + WIN_INIT {
          var init := curr + WIN_INIT - highWater;
          if init > windowSize - highWater { init := windowSize - highWater; }
          ZeroBytes(highWater, init);
          highWater := highWater + init;
        }
      }
    }

    ghost predicate TextOk()
      reads this`strstart, this`lookahead, this`insert, this`stream, this`base, this`dataEnd, this`filed, window, head, prev
    {
      Params() && WindowOk() && HashOk()
    }

    /** read_buf at the end of the data. */
    method Absorb(more: nat)
      requires TextOk() && more == window.Length - lookahead - strstart && input != [] && more >= 2
      modifies this`input, this`stream, this`lookahead, this`dataEnd, window
      ensures Params() && TheChains().Ok() && FiledBelow(strstart - insert) && Conserved()
      ensures dataEnd == strstart + lookahead <= window.Length && Mirrors(window[..], stream, base, dataEnd)
      ensures |input| < |old(input)| && lookahead > old(lookahead) && insert <= strstart
    {
      assert FiledBelow(strstart - insert);
      hide Chains.Ok, Mirrors, Conserved;
      ghost var c := TheChains();
      var n := ReadBuf(strstart + lookahead, more);
      lookahead := lookahead + n;
      dataEnd := dataEnd + n;
      ExtendKeepsOk(c, window[..], dataEnd);
      assert TheChains() == c.(w := window[..], end := dataEnd);
    }

    /** One pass of the do-while in fill_window after the slide: read, then
        file the pending strings. */
    method ReadMore(more: nat)
      requires TextOk() && more == window.Length - lookahead - strstart && input != [] && more >= 2
      modifies this`input, this`stream, this`lookahead, this`dataEnd, this`insH, this`filed, this`insert, window, head, prev
      ensures TextOk() && Conserved()
      ensures |input| < |old(input)| && lookahead > old(lookahead)
      ensures old(Rolling()) ==> Rolling()
    {
      hide Chains.Ok, PrimedFor, Mirrors, Conserved;
      Absorb(more);
      if lookahead + insert >= MIN_MATCH {
        InsertPending();
      }
    }

    /** Window coordinates may be rebased, stream coordinates are not: the
        slide happens only from strstart >= wSize + MaxDist. */
    twostate predicate Rebased()
      reads this`strstart, this`base, this`blockStart, this`matchStart
    {
      && base + strstart == old(base + strstart) && base + blockStart == old(base + blockStart)
      && if base == old(base) then matchStart == old(matchStart)
         else base == old(base) + wSize && old(strstart) >= wSize + MaxDist()
              && matchStart == Wrap32(old(matchStart) - wSize)
    }

    method FillStep() returns (more: bool)
      requires TextOk() && lookahead < MIN_LOOKAHEAD
      modifies this`strstart, this`lookahead, this`insert, this`insH, this`matchStart, this`blockStart,
               this`input, this`stream, this`base, this`dataEnd, this`filed, window, head, prev
      ensures TextOk() && Conserved() && Rebased()
      ensures old(Rolling()) ==> Rolling()
      ensures strstart < window.Length - MIN_LOOKAHEAD
      ensures lookahead >= old(lookahead) && (more ==> |input| < |old(input)| && lookahead < MIN_LOOKAHEAD)
      ensures !more ==> lookahead >= MIN_LOOKAHEAD || input == []
      ensures more ==> input != []
    {
      var room := window.Length - lookahead - strstart;
      if strstart >= wSize + MaxDist() {
        SlideWindow();
        room := room + wSize;
      }
      if input == [] { return false; }
      assert room >= 2;
      ReadMore(room);
      more := lookahead < MIN_LOOKAHEAD && input != [];
    }

    /** The end of fill_window. */
    method PadTail()
      requires TextOk() && highWater <= window.Length
      modifies this`highWater, window
      ensures TextOk() && highWater <= window.Length
      ensures highWater >= Min(strstart + lookahead + WIN_INIT, window.Length)
      ensures old(Rolling()) ==> Rolling()
    {
      hide Chains.Ok;
      ghost var c := TheChains();
      ZeroTail();
      ExtendKeepsOk(c, window[..], dataEnd);
      assert TheChains() == c.(w := window[..], end := dataEnd);
    }

    /** Refills the window: reads while fewer than MIN_LOOKAHEAD bytes are
        ahead and input remains. */
    method FillWindow()
      requires TextOk() && lookahead < MIN_LOOKAHEAD && highWater <= window.Length
      modifies this`strstart, this`lookahead, this`insert, this`insH, this`matchStart, this`blockStart,
               this`highWater, this`input, this`stream, this`base, this`dataEnd, this`filed, window, head, prev
      ensures TextOk() && highWater <= window.Length && Conserved() && Rebased()
      ensures old(Rolling()) ==> Rolling()
      ensures strstart < window.Length - MIN_LOOKAHEAD
      ensures highWater >= Min(strstart + lookahead + WIN_INIT, window.Length)
      ensures lookahead >= MIN_LOOKAHEAD || input == []
      ensures lookahead >= old(lookahead)
    {
      assert Params();
      hide TextOk, Rolling, Wrap32, Params;
      var more := FillStep();
      while more
        invariant TextOk() && Conserved() && Rebased()
        invariant old(Rolling()) ==> Rolling()
        invariant strstart < window.Length - MIN_LOOKAHEAD && highWater <= window.Length
        invariant lookahead >= old(lookahead) && (more ==> lookahead < MIN_LOOKAHEAD)
        invariant !more ==> lookahead >= MIN_LOOKAHEAD || input == []
        decreases more, |input|
      {
        more := FillStep();
      }
      PadTail();
    }

    // ---- longest_match ----

    ghost function FullLen(cur: nat): nat
      reads this`strstart, window
    {
      CommonLen(window[..], strstart, cur, MAX_MATCH)
    }

    /** Bytes strstart..n of the window repeat those from cur. */
    ghost predicate RunTo(cur: nat, n: nat)
      requires cur < strstart && n <= window.Length
      reads this`strstart, window
    {
      forall i :: strstart <= i < n ==> window[i] == window[i - (strstart - cur)]
    }

    /** Eight pre-incremented comparisons, stopping at the first difference. */
    method EightBytes(cur: nat, from: nat) returns (scan: nat, equal: bool)
      requires cur < strstart <= from && from + 8 < window.Length && RunTo(cur, from + 1)
      ensures from < scan <= from + 8 && RunTo(cur, scan)
      ensures if equal then scan == from + 8 && RunTo(cur, scan + 1)
              else window[scan] != window[scan - (strstart - cur)]
    {
      scan := from;
      equal := true;
      var match_ := cur + (from - strstart);
      while scan < from + 8 && equal
        invariant from <= scan <= from + 8 && scan - match_ == strstart - cur
        invariant if equal then RunTo(cur, scan + 1)
                  else from < scan && RunTo(cur, scan) && window[scan] != window[match_]
        decreases equal, from + 8 - scan
      {
        scan, match_ := scan + 1, match_ + 1;
        equal := window[scan] == window[match_];
      }
    }

    /** The comparison loop: the bound is tested once per eight bytes, and
        strstart + 2 is taken as equal without looking. */
    method ScanRun(cur: nat) returns (scan: nat)
      requires cur < strstart && strstart + MAX_MATCH < window.Length && RunTo(cur, strstart + 3)
      ensures strstart + 3 <= scan <= strstart + MAX_MATCH && RunTo(cur, scan)
      ensures scan == strstart + MAX_MATCH || window[scan] != window[scan - (strstart - cur)]
    {
      var strend := strstart + MAX_MATCH;
      scan := strstart + 2;
      var more := true;
      while more
        invariant strstart + 2 <= scan <= strend && (more ==> scan < strend && (strend - scan) % 8 == 0)
        invariant if more then RunTo(cur, scan + 1)
                  else scan >= strstart + 3 && RunTo(cur, scan)
                       && (scan == strend || window[scan] != window[scan - (strstart - cur)])
        decreases more, strend - scan
      {
        scan, more := EightBytes(cur, scan);
        if scan >= strend { more := false; }
      }
    }

    /** `cur` may be reached by following chains from strstart: it holds a
        string with the same key, at most MaxDist back. */
    ghost predicate Candidate(cur: nat)
      reads this`strstart, this`dataEnd, this`filed, window, head, prev
    {
      && TheChains().Shape() && strstart + MIN_MATCH <= dataEnd
      && cur in filed && cur != 0 && cur < strstart <= cur + MaxDist()
      && TheChains().KeyAt(cur) == TheChains().KeyAt(strstart)
    }

    /** The next entry of the chain is a candidate too, if it is above the limit. */
    lemma NextCandidate(cur: nat)
      requires Params() && TheChains().Ok() && FiledBelow(strstart + 1) && Candidate(cur)
      requires prev[cur % wSize] > Limit()
      ensures Candidate(prev[cur % wSize])
    {
      assert cur + wSize !in filed;
      assert TheChains().LinkOk(cur);
    }

    function Limit(): nat
      reads this`strstart
    {
      if strstart > MaxDist() >= 0 then strstart - MaxDist() else NIL
    }

    lemma SameThirdByte(cur: nat)
      requires Params() && Candidate(cur)
      ensures window[cur] == window[strstart] && window[cur + 1] == window[strstart + 1]
              ==> window[cur + 2] == window[strstart + 2]
    {
      if window[cur] == window[strstart] && window[cur + 1] == window[strstart + 1] {
        ThirdByteForced(hashBits, window[cur], window[cur + 1], window[cur + 2], window[strstart + 2]);
      }
    }

    /** One candidate: the quick tests, then the run.  The result matters only
        when it beats `best`, and then it is the full common length although
        byte 2 was never compared. */
    method CompareAt(cur: nat, best: nat) returns (len: nat)
      requires cur < strstart && strstart + MAX_MATCH < window.Length && 1 <= best <= MAX_MATCH
      requires window[cur] == window[strstart] && window[cur + 1] == window[strstart + 1]
               ==> window[cur + 2] == window[strstart + 2]
      ensures if FullLen(cur) > best then len == FullLen(cur) else len <= best
    {
      if window[cur + best] != window[strstart + best]
         || window[cur + best - 1] != window[strstart + best - 1]
         || window[cur] != window[strstart]
         || window[cur + 1] != window[strstart + 1]
      {
        hide CommonLen;
        ghost var i := if window[cur + best] != window[strstart + best] then best
                       else if window[cur + best - 1] != window[strstart + best - 1] then best - 1
                       else if window[cur] != window[strstart] then 0 else 1;
        CommonLenStops(window[..], strstart, cur, MAX_MATCH, i);
        return 0;
      }
      hide CommonLen;
      assert RunTo(cur, strstart + 3);
      var scan := ScanRun(cur);
      len := MAX_MATCH - (strstart + MAX_MATCH - scan);
      CommonLenOfRun(window[..], strstart, cur, MAX_MATCH, len);
    }

    ghost function Goal(cur: nat, chain: nat, best: nat, start: nat): (nat, nat)
      requires Params()
      reads this`strstart, this`lookahead, window, prev
    {
      Search(window[..], prev[..], strstart, cur, Limit(), chain, best, start, Min(niceMatch, lookahead))
    }

    function ChainBudget(): nat
      reads this`prevLength
    {
      if prevLength >= goodMatch then maxChainLength / 4 else maxChainLength
    }

    /** The loop invariant of longest_match: what is still to be searched
        gives the same answer as the whole search, and the best so far is real. */
    ghost predicate Searching(cur: nat, chain: nat, best: nat, goal: (nat, nat))
      requires Params()
      reads this`strstart, this`lookahead, this`dataEnd, this`filed, this`matchStart, this`matchPos, this`base,
            this`prevLength, window, head, prev
    {
      && prevLength <= best <= MAX_MATCH
      && Goal(cur, chain, best, matchStart) == goal
      && (best > prevLength ==> Found(best))
    }

    ghost predicate Found(len: nat)
      reads this`strstart, this`dataEnd, this`filed, this`matchStart, this`matchPos, this`base, window, head, prev
    {
      Candidate(matchStart) && len == FullLen(matchStart) && matchPos == base + matchStart
    }

    /** One candidate of the search: either the search ends here with `goal`,
        or it goes on from the next chain entry. */
    method TryCandidate(cur: nat, chain: nat, best: nat, nice: nat, ghost goal: (nat, nat))
      returns (len: nat, done: bool)
      requires Params() && Candidate(cur) && chain > 0 && nice == Min(niceMatch, lookahead)
      requires strstart <= window.Length - MIN_LOOKAHEAD && 1 <= prevLength
      requires Searching(cur, chain, best, goal)
      modifies this`matchStart, this`matchPos
      ensures best <= len <= MAX_MATCH && (len > prevLength ==> Found(len))
      ensures done == (len > best && len >= nice)
      ensures done || chain == 1 || prev[cur % wSize] <= Limit() ==> (len, matchStart as nat) == goal
      ensures !done && chain > 1 && prev[cur % wSize] > Limit() ==> Searching(prev[cur % wSize], chain - 1, len, goal)
    {
      assert cur < strstart < 0x1_0000;
      hide Search, CommonLen;
      SearchStep(window[..], prev[..], strstart, cur, Limit(), chain, best, matchStart, nice);
      SameThirdByte(cur);
      len := CompareAt(cur, best);
      if len > best {
        matchStart := cur;
        matchPos := base + cur;
        done := len >= nice;
      } else {
        len := best;
        done := false;
      }
    }

    /** longest_match computes the reference search, which compares every byte
        of every candidate; the result is cut to the lookahead. */
    method LongestMatch(curMatch: Pos) returns (r: nat)
      requires Params() && TheChains().Ok() && FiledBelow(strstart + 1) && Candidate(curMatch)
      requires level >= 1
      requires strstart <= window.Length - MIN_LOOKAHEAD && 1 <= prevLength <= MAX_MATCH
      modifies this`matchStart, this`matchPos
      ensures var s := Goal(curMatch, ChainBudget(), prevLength, old(matchStart));
              r == Min(s.0, lookahead) && matchStart == s.1
      ensures r > prevLength ==> exists n :: Found(n) && r <= n
      ensures Min(prevLength, lookahead) <= r <= MAX_MATCH
    {
      assert maxChainLength / 4 > 0 && prev.Length == wSize > 0;
      hide Chains.Ok, Candidate, Goal, Found, Params, TheChains, FiledBelow;
      var chain := ChainBudget();
      var best: nat := prevLength;
      var nice := niceMatch;
      if nice > lookahead { nice := lookahead; }
      var cur: nat := curMatch;
      ghost var goal := Goal(curMatch, chain, prevLength, matchStart);
      while true
        invariant Candidate(cur) && chain > 0 && Searching(cur, chain, best, goal)
        decreases chain
      {
        var done;
        best, done := TryCandidate(cur, chain, best, nice, goal);
        if done { break; }
        var next := prev[cur % wSize];
        if !(next > Limit()) { break; }
        if chain == 1 { break; }
        NextCandidate(cur);
        chain := chain - 1;
        cur := next;
      }
      r := if best <= lookahead then best else lookahead;
    }

    // ---- _tr_tally_lit, _tr_tally_dist, FLUSH_BLOCK ----

    /** The blocks sent and the tokens tallied stand for the stream up to
        position n, and the buffers hold the tallied tokens. */
    ghost predicate Coded(n: int)
      reads this`stream, this`base, this`blockStart, this`blocks, this`tally, this`lastLit, dBuf, lBuf
    {
      && Pending(blocks, tally, stream, base + blockStart, n)
      && BlocksInRange(blocks, MaxDist()) && TokensInRange(tally, MaxDist())
      && Buffered(dBuf[..], lBuf[..], lastLit, tally)
    }

    method TallyLit(c: byte, ghost n: nat) returns (flush: bool)
      requires Params() && Coded(n) && n < |stream| && stream[n] == c && lastLit < litBufsize
      modifies this`lastLit, this`tally, dBuf, lBuf
      ensures Coded(n + 1) && lastLit == old(lastLit) + 1 && flush == (lastLit == litBufsize - 1)
      ensures tally == old(tally) + [Literal(c)]
    {
      PendingLiteral(blocks, tally, stream, base + blockStart, n);
      BufferOne(dBuf[..], lBuf[..], lastLit, tally, 0, c, MaxDist());
      hide Pending, Buffered, TokensInRange, BlocksInRange, Repeats;
      dBuf[lastLit] := 0;
      lBuf[lastLit] := c;
      lastLit := lastLit + 1;
      tally := tally + [Literal(c)];
      flush := lastLit == litBufsize - 1;
    }

    /** `distance` is cut to 16 bits and `length` to 8, as in the macro. */
    method TallyDist(distance: U32, length: nat, ghost n: nat) returns (flush: bool)
      requires Params() && Coded(n) && lastLit < litBufsize
      requires Repeats(stream, n, distance, length + MIN_MATCH)
      requires distance <= MaxDist() && length + MIN_MATCH <= MAX_MATCH
      modifies this`lastLit, this`tally, dBuf, lBuf
      ensures Coded(n + length + MIN_MATCH) && lastLit == old(lastLit) + 1 && flush == (lastLit == litBufsize - 1)
      ensures tally == old(tally) + [Match(distance, length + MIN_MATCH)]
    {
      hide Pending, Buffered, BlocksInRange, LowUsh, LowByte;
      assert TokensInRange(tally + [Match(distance, length + MIN_MATCH)], MaxDist());
      hide TokensInRange, Repeats;
      assert MaxDist() < 0x8000 && dBuf.Length == lBuf.Length == litBufsize;
      CutsAreLossless(distance, length);
      PendingMatch(blocks, tally, stream, base + blockStart, n, distance, length + MIN_MATCH);
      BufferOne(dBuf[..], lBuf[..], lastLit, tally, LowUsh(distance), LowByte(length), MaxDist());
      hide Params;
      dBuf[lastLit] := LowUsh(distance);
      lBuf[lastLit] := LowByte(length);
      lastLit := lastLit + 1;
      tally := tally + [Match(distance, length + MIN_MATCH)];
      flush := lastLit == litBufsize - 1;
    }

    /** How much output space the written block leaves is up to the caller's
        buffer and the block writer: any smaller value is possible. */
    method FlushPending()
      modifies this`availOut
      ensures availOut <= old(availOut)
    {
      var left: nat := *;
      if left < availOut { availOut := left; }
    }

    /** The tokens so far and, while block_start is inside the window, the
        bytes between block_start and strstart. */
    ghost function CurrentBlock(): Block
      requires strstart <= window.Length && blockStart <= strstart
      reads this`blockStart, this`strstart, this`tally, window
    {
      Block(Some(tally), if blockStart >= 0 then Some(window[..][blockStart..strstart]) else None)
    }

    lemma BlockBounds()
      requires Coded(base + strstart) && strstart <= dataEnd && Mirrors(window[..], stream, base, dataEnd)
      ensures 0 <= base + blockStart <= base + strstart <= |stream| && strstart <= window.Length
    {
    }

    /** Both forms of the block stand for the same bytes. */
    lemma CurrentBlockDecodes()
      requires strstart <= dataEnd && Mirrors(window[..], stream, base, dataEnd) && Coded(base + strstart)
      ensures Pending(blocks + [CurrentBlock()], [], stream, base + strstart, base + strstart)
    {
      hide Pending, Mirrors, BlocksInRange, TokensInRange, Buffered;
      assert Pending(blocks, tally, stream, base + blockStart, base + strstart);
      hide Coded;
      BlockBounds();
      var b := CurrentBlock();
      if blockStart >= 0 {
        MirrorsSlice(window[..], stream, base, dataEnd, blockStart, strstart);
        assert b.raw == Some(stream[base + blockStart..base + strstart]);
      }
      PendingFlush(blocks, tally, stream, base + blockStart, base + strstart, CurrentBlock());
    }

    /** FLUSH_BLOCK_ONLY */
    method FlushBlockOnly()
      requires strstart <= dataEnd && Mirrors(window[..], stream, base, dataEnd) && Coded(base + strstart)
      modifies this`blockStart, this`availOut, this`blocks, this`tally, this`lastLit
      ensures Coded(base + strstart) && lastLit == 0 && tally == [] && blockStart == strstart && availOut <= old(availOut)
      ensures old(blocks) <= blocks && BlockAdded(old(blocks), old(tally), blocks)
    {
      assert blockStart <= strstart <= window.Length;
      CurrentBlockDecodes();
      assert TokensInRange([], MaxDist()) && BlocksInRange(blocks + [CurrentBlock()], MaxDist());
      assert Buffered(dBuf[..], lBuf[..], 0, []);
      hide Pending, Mirrors, Buffered, TokensInRange, BlocksInRange, CurrentBlock;
      blocks := blocks + [CurrentBlock()];
      tally := [];
      lastLit := 0;
      blockStart := strstart;
      FlushPending();
    }

    /** FLUSH_BLOCK: `stop` is the early return when no output space is left. */
    method FlushBlock() returns (stop: bool)
      requires strstart <= dataEnd && Mirrors(window[..], stream, base, dataEnd) && Coded(base + strstart)
      modifies this`blockStart, this`availOut, this`blocks, this`tally, this`lastLit
      ensures Coded(base + strstart) && lastLit == 0 && tally == [] && blockStart == strstart && availOut <= old(availOut)
      ensures old(blocks) <= blocks && BlockAdded(old(blocks), old(tally), blocks)
      ensures stop == (availOut == 0)
    {
      hide Coded, Mirrors;
      FlushBlockOnly();
      stop := availOut == 0;
    }

    // ---- what the token strategies share ----

    /** Between steps: text and chains are sound, the tokens cover the stream
        up to position n, and the token buffers have room. */
    ghost predicate Ready(n: int)
      reads this`strstart, this`lookahead, this`insert, this`stream, this`base, this`dataEnd, this`filed,
            this`blockStart, this`blocks, this`tally, this`lastLit, this`highWater, window, head, prev, dBuf, lBuf
    {
      TextOk() && Coded(n) && lastLit < litBufsize - 1 && highWater <= window.Length
    }

    /** As Ready, but the string at strstart may have been filed. */
    ghost predicate Probed(n: int)
      reads this`strstart, this`lookahead, this`insert, this`stream, this`base, this`dataEnd, this`filed,
            this`blockStart, this`blocks, this`tally, this`lastLit, this`highWater, window, head, prev, dBuf, lBuf
    {
      && Params() && WindowOk() && TheChains().Ok() && FiledBelow(strstart + 1)
      && Coded(n) && lastLit < litBufsize - 1 && highWater <= window.Length
    }

    /** Just after a tally: the buffer may have become full. */
    ghost predicate Tallied()
      reads this`strstart, this`lookahead, this`insert, this`stream, this`base, this`dataEnd, this`filed,
            this`blockStart, this`blocks, this`tally, this`lastLit, this`highWater, window, head, prev, dBuf, lBuf
    {
      TextOk() && Coded(base + strstart) && lastLit < litBufsize && highWater <= window.Length
    }

    /** Input not yet covered by strstart. */
    ghost function Left(): int
      reads this`stream, this`input, this`base, this`strstart
    {
      |stream| + |input| - base - strstart
    }

    /** Reading more input does not change what the tokens stand for. */
    twostate lemma CodedSurvives(n: int)
      requires old(Coded(n)) && Conserved() && base + blockStart == old(base + blockStart)
      requires unchanged(this`blocks, this`tally, this`lastLit, dBuf, lBuf)
      ensures Coded(n)
    {
      PendingGrows(blocks, tally, old(stream), stream, base + blockStart, n);
    }

    method Refill(ghost n: int)
      requires Ready(n) && lookahead < MIN_LOOKAHEAD
      modifies this`strstart, this`lookahead, this`insert, this`insH, this`matchStart, this`blockStart,
               this`highWater, this`input, this`stream, this`base, this`dataEnd, this`filed, window, head, prev
      ensures Ready(n) && Conserved() && Rebased() && Left() == old(Left())
      ensures old(Rolling()) ==> Rolling()
      ensures strstart < window.Length - MIN_LOOKAHEAD
      ensures highWater >= Min(strstart + lookahead + WIN_INIT, window.Length)
      ensures lookahead >= MIN_LOOKAHEAD || input == []
      ensures lookahead >= old(lookahead)
    {
      assert Params();
      hide TextOk, Rolling, Coded, Params;
      FillWindow();
      CodedSurvives(n);
      assert |stream + input| == |old(stream) + old(input)|;
    }

    lemma ReadyIsProbed(n: int)
      requires Ready(n)
      ensures Probed(n)
    {
      assert Probed(n);
      hide Ready;
    }

    lemma ProbedGives(n: int)
      requires Probed(n)
      ensures Params() && TheChains().Ok() && FiledBelow(strstart + 1)
      ensures prev != dBuf && head != dBuf && window != lBuf && window.Length <= 0x1_0000
      ensures WindowOk() && Coded(n) && lastLit < litBufsize - 1 && highWater <= window.Length
      ensures dataEnd == strstart + lookahead <= window.Length && base + dataEnd == |stream|
    {
    }

    lemma ReadyIsTallied()
      requires Ready(base + strstart)
      ensures Tallied()
    {
    }

    lemma Ahead(n: int)
      requires Ready(n)
      ensures base + strstart + lookahead == |stream| && dataEnd == strstart + lookahead <= window.Length
      ensures Left() >= 0 && wSize >= 512
    {
    }

    /** Leaves the last k strings to be filed when more input comes. */
    method SetInsert(k: nat)
      requires Tallied() && k <= strstart && (k > 0 ==> lookahead + k < MIN_MATCH)
      modifies this`insert
      ensures Tallied() && insert == k
    {
      hide Chains.Ok, Mirrors, Coded, Params;
      insert := k;
    }

    /** Ends the block when the token buffer is full; stops when the output is full. */
    method FlushIfFull(full: bool) returns (stop: bool)
      requires Tallied() && full == (lastLit == litBufsize - 1)
      modifies this`blockStart, this`availOut, this`blocks, this`tally, this`lastLit
      ensures Ready(base + strstart) && (stop ==> availOut == 0) && old(blocks) <= blocks
      ensures TokensSent(old(blocks), old(tally), blocks, tally)
    {
      hide Chains.Ok, Mirrors, Coded;
      stop := false;
      if full { stop := FlushBlock(); }
      hide Tallied;
    }

    /** The tokens of a step go to the buffer, which may then become a block. */
    twostate predicate Sends(ts: seq<Token>)
      reads this`blocks, this`tally
    {
      TokensSent(old(blocks), old(tally) + ts, blocks, tally)
    }

    /** What a compress function may report.  Everything but NeedMore means the
        whole input is in blocks; NeedMore means a resource ran out. */
    ghost predicate Outcome(flush: Flush, st: BlockState)
      reads this`availOut, this`input, this`lookahead, this`tally
    {
      && (st.NeedMore? ==> availOut == 0 || (flush.NoFlush? && input == []))
      && (flush.NoFlush? ==> st.NeedMore?)
      && (!st.NeedMore? ==> input == [] && lookahead == 0 && tally == [])
      && (st.FinishStarted? || st.FinishDone? ==> flush.Finish?)
      && (st.BlockDone? ==> !flush.Finish?)
      && (st.FinishStarted? ==> availOut == 0)
    }

    /** The common end of the token strategies, after s->insert is set. */
    method EndBlock(flush: Flush) returns (st: BlockState)
      requires Tallied() && !flush.NoFlush? && input == [] && lookahead == 0
      modifies this`blockStart, this`availOut, this`blocks, this`tally, this`lastLit
      ensures Ready(base + strstart) && Outcome(flush, st) && old(blocks) <= blocks
    {
      assert lastLit == 0 ==> tally == [];
      hide Coded, Chains.Ok, Mirrors, Pending;
      if flush.Finish? {
        var stop := FlushBlock();
        return if stop then FinishStarted else FinishDone;
      }
      if lastLit != 0 {
        var stop := FlushBlock();
        if stop { return NeedMore; }
      }
      return BlockDone;
    }

    /** The end of a token strategy: the last `keep` bytes wait to be filed. */
    method EndTokens(flush: Flush, keep: nat) returns (st: BlockState)
      requires Ready(base + strstart) && !flush.NoFlush? && input == [] && lookahead == 0
      requires keep <= strstart && keep < MIN_MATCH
      modifies this`insert, this`blockStart, this`availOut, this`blocks, this`tally, this`lastLit
      ensures Ready(base + strstart) && Outcome(flush, st) && old(blocks) <= blocks
    {
      hide Ready, Tallied, Outcome;
      ReadyIsTallied();
      SetInsert(keep);
      st := EndBlock(flush);
    }

    // ---- deflate_huff ----

    method DeflateHuff(flush: Flush) returns (st: BlockState)
      requires Ready(base + strstart)
      modifies this`insH, this`strstart, this`lookahead, this`insert, this`blockStart, this`matchLength,
               this`prevLength, this`matchStart, this`prevMatch, this`matchAvailable, this`highWater, this`lastLit,
               this`input, this`availOut, this`stream, this`base, this`dataEnd, this`filed, this`matchPos,
               this`tally, this`blocks, window, head, prev, dBuf, lBuf
      ensures Ready(base + strstart) && Conserved() && Outcome(flush, st) && old(blocks) <= blocks
    {
      hide Ready, Probed, Tallied, Rolling;
      while true
        invariant Ready(base + strstart) && Conserved() && old(blocks) <= blocks
        decreases Left()
      {
        if lookahead == 0 {
          Refill(base + strstart);
          if lookahead == 0 {
            if flush.NoFlush? { return NeedMore; }
            break;
          }
        }
        var stop := HuffTurn();
        if stop { return NeedMore; }
      }
      st := EndTokens(flush, 0);
    }

    /** One literal. */
    method HuffTurn() returns (stop: bool)
      requires Ready(base + strstart) && lookahead > 0
      modifies this`strstart, this`lookahead, this`matchLength, this`lastLit, this`tally, this`blockStart,
               this`availOut, this`blocks, dBuf, lBuf
      ensures Ready(base + strstart) && Left() < old(Left()) && Left() >= 0
      ensures (stop ==> availOut == 0) && old(blocks) <= blocks
      ensures old(strstart) < window.Length && Sends([Literal(old(window[strstart]))])
    {
      hide Ready, Probed, Tallied;
      matchLength := 0;
      ReadyIsProbed(base + strstart);
      var full := EmitLiteral();
      stop := FlushIfFull(full);
    }

    /** The `len` bytes at strstart repeat those `distance` earlier. */
    ghost predicate RepeatsAt(distance: int, len: nat)
      reads this`strstart, window
    {
      && 1 <= distance <= strstart && strstart + len <= window.Length
      && forall i :: strstart <= i < strstart + len ==> window[i] == window[i - distance]
    }

    lemma HereRepeats(distance: nat, len: nat)
      requires WindowOk() && RepeatsAt(distance, len) && len <= lookahead
      ensures Repeats(stream, base + strstart, distance, len)
    {
      assert forall i :: strstart <= i < strstart + len ==> window[..][i] == window[i];
      WindowRepeats(window[..], stream, base, dataEnd, strstart, distance, len);
    }

    /** A match has been tallied and taken off the lookahead, but strstart is
        still k bytes behind. */
    ghost predicate Matched(k: nat)
      reads this`strstart, this`lookahead, this`insert, this`stream, this`base, this`dataEnd, this`filed,
            this`blockStart, this`blocks, this`tally, this`lastLit, this`highWater, window, head, prev, dBuf, lBuf
    {
      && Params() && Coded(base + strstart + k) && TheChains().Ok() && FiledBelow(strstart + 1)
      && dataEnd == strstart + k + lookahead <= window.Length && Mirrors(window[..], stream, base, dataEnd)
      && insert <= strstart && (insert > 0 ==> lookahead + insert < MIN_MATCH)
      && lastLit < litBufsize && highWater <= window.Length
    }

    /** Output a match for a repetition at strstart. */
    method EmitMatch(distance: U32, len: nat) returns (flush: bool)
      requires Probed(base + strstart) && MIN_MATCH <= len <= Min(lookahead, MAX_MATCH)
      requires distance <= MaxDist() && RepeatsAt(distance, len)
      modifies this`lookahead, this`lastLit, this`tally, dBuf, lBuf
      ensures Matched(len) && flush == (lastLit == litBufsize - 1) && lookahead == old(lookahead) - len
      ensures dataEnd == strstart + len + lookahead && tally == old(tally) + [Match(distance, len)]
    {
      hide Probed, Params, Chains.Ok, Mirrors, Coded, Repeats, RepeatsAt, FiledBelow, TheChains;
      ProbedGives(base + strstart);
      HereRepeats(distance, len);
      flush := TallyDist(distance, len - MIN_MATCH, base + strstart);
      lookahead := lookahead - len;
    }

    /** Goes k bytes on without filing a string. */
    method Skip(k: nat)
      requires Matched(k) && k > 0
      modifies this`strstart
      ensures Tallied() && strstart == old(strstart) + k && Left() >= 0
    {
      assert base + dataEnd == |stream|;
      hide Chains.Ok, Mirrors, Coded, Params;
      strstart := strstart + k;
    }

    /** Tally the byte at strstart and take it off the lookahead. */
    method TakeLiteral(c: byte) returns (flush: bool)
      requires Probed(base + strstart) && lookahead > 0 && strstart < window.Length && c == window[strstart]
      modifies this`lookahead, this`lastLit, this`tally, dBuf, lBuf
      ensures Matched(1) && flush == (lastLit == litBufsize - 1) && lookahead == old(lookahead) - 1
      ensures tally == old(tally) + [Literal(c)]
    {
      hide Probed, Params, Chains.Ok, Mirrors, Coded, FiledBelow, TheChains;
      ProbedGives(base + strstart);
      ByteHere();
      flush := TallyLit(c, base + strstart);
      lookahead := lookahead - 1;
    }

    lemma ByteHere()
      requires WindowOk() && lookahead > 0
      ensures strstart < window.Length && base + strstart < |stream| && window[strstart] == stream[base + strstart]
    {
      assert window[..][strstart] == stream[base + strstart];
    }

    /** Output one literal byte; `flush` says the token buffer is full. */
    method EmitLiteral() returns (flush: bool)
      requires Probed(base + strstart) && lookahead > 0
      modifies this`strstart, this`lookahead, this`lastLit, this`tally, dBuf, lBuf
      ensures Tallied() && flush == (lastLit == litBufsize - 1)
      ensures old(strstart) < window.Length && tally == old(tally) + [Literal(old(window[strstart]))]
      ensures strstart == old(strstart) + 1 && lookahead == old(lookahead) - 1 && Left() >= 0
    {
      hide Probed, Matched, Tallied;
      ProbedGives(base + strstart);
      hide Params, TheChains, FiledBelow, WindowOk, Coded;
      flush := TakeLiteral(window[strstart]);
      Skip(1);
    }

    // ---- deflate_rle ----

    ghost predicate AllEqual(c: byte, n: nat)
      requires n <= window.Length
      reads this`strstart, window
    {
      forall i :: strstart <= i < n ==> window[i] == c
    }

    /** One turn of the unrolled run comparison: up to eight bytes. */
    method EightEqual(c: byte, from: nat) returns (scan: nat, equal: bool)
      requires strstart <= from && from + 8 < window.Length && AllEqual(c, from + 1)
      ensures from < scan <= from + 8 && AllEqual(c, scan)
      ensures if equal then scan == from + 8 && AllEqual(c, scan + 1) else window[scan] != c
    {
      scan := from;
      equal := true;
      while scan < from + 8 && equal
        invariant from <= scan <= from + 8
        invariant if equal then AllEqual(c, scan + 1) else from < scan && AllEqual(c, scan) && window[scan] != c
        decreases equal, from + 8 - scan
      {
        scan := scan + 1;
        equal := window[scan] == c;
      }
    }

    /** How many bytes at strstart repeat the one before them, 0 if fewer than MIN_MATCH. */
    ghost function RunHere(): nat
      reads this`strstart, this`lookahead, window
    {
      if lookahead >= MIN_MATCH && strstart > 0 && CommonLen(window[..], strstart, strstart - 1, MAX_MATCH) >= MIN_MATCH
      then Min(CommonLen(window[..], strstart, strstart - 1, MAX_MATCH), lookahead) else 0
    }

    method RunLength() returns (len: nat)
      requires strstart + MAX_MATCH < window.Length
      ensures len == RunHere()
      ensures len == 0 || (MIN_MATCH <= len <= Min(lookahead, MAX_MATCH) && RepeatsAt(1, len))
    {
      hide CommonLen;
      len := 0;
      if lookahead >= MIN_MATCH && strstart > 0 {
        var c := window[strstart - 1];
        if c == window[strstart] && c == window[strstart + 1] && c == window[strstart + 2] {
          var scan := RunEnd(c);
          len := MAX_MATCH - (strstart + MAX_MATCH - scan);
          RunIs(c, len);
          if len > lookahead { len := lookahead; }
        } else {
          ghost var i := if c != window[strstart] then 0 else if c != window[strstart + 1] then 1 else 2;
          NoRun(i);
        }
      }
    }

    lemma RunIs(c: byte, len: nat)
      requires 0 < strstart && strstart + MAX_MATCH < window.Length && len <= MAX_MATCH && window[strstart - 1] == c
      requires AllEqual(c, strstart + len) && (len == MAX_MATCH || window[strstart + len] != c)
      ensures CommonLen(window[..], strstart, strstart - 1, MAX_MATCH) == len && RepeatsAt(1, len)
    {
      CommonLenOfRun(window[..], strstart, strstart - 1, MAX_MATCH, len);
    }

    lemma NoRun(i: nat)
      requires 0 < strstart && strstart + MAX_MATCH < window.Length && i < 3 && window[strstart + i] != window[strstart + i - 1]
      ensures CommonLen(window[..], strstart, strstart - 1, MAX_MATCH) < MIN_MATCH
    {
      CommonLenStops(window[..], strstart, strstart - 1, MAX_MATCH, i);
    }

    /** Where the run of c ends, or the longest match does. */
    method RunEnd(c: byte) returns (scan: nat)
      requires strstart + MAX_MATCH < window.Length && AllEqual(c, strstart + 3)
      ensures strstart + 3 <= scan <= strstart + MAX_MATCH && AllEqual(c, scan)
      ensures scan == strstart + MAX_MATCH || window[scan] != c
    {
      hide AllEqual;
      var strend := strstart + MAX_MATCH;
      scan := strstart + 2;
      var more := true;
      while more
        invariant strstart + 2 <= scan <= strend && (more ==> scan < strend && (strend - scan) % 8 == 0)
        invariant if more then AllEqual(c, scan + 1)
                  else scan >= strstart + 3 && AllEqual(c, scan) && (scan == strend || window[scan] != c)
        decreases more, strend - scan
      {
        scan, more := EightEqual(c, scan);
        if scan >= strend { more := false; }
      }
    }

    /** What deflate_rle tallies. */
    ghost function RunToken(): Token
      requires strstart < window.Length
      reads this`strstart, this`lookahead, window
    {
      if RunHere() >= MIN_MATCH then Match(1, RunHere()) else Literal(window[strstart])
    }

    /** A run of the previous byte becomes a match of distance 1. */
    method EmitRun() returns (flush: bool)
      requires Probed(base + strstart) && MIN_MATCH <= matchLength <= Min(lookahead, MAX_MATCH)
      requires RepeatsAt(1, matchLength)
      modifies this`matchLength, this`strstart, this`lookahead, this`lastLit, this`tally, dBuf, lBuf
      ensures Tallied() && flush == (lastLit == litBufsize - 1)
      ensures strstart > old(strstart) && Left() >= 0 && tally == old(tally) + [Match(1, old(matchLength))]
    {
      hide Probed, Tallied, Matched, Params, RepeatsAt, WindowOk, TheChains, FiledBelow, Coded, Chains.Ok;
      ProbedGives(base + strstart);
      DistanceOne();
      flush := EmitMatch(1, matchLength);
      Skip(matchLength);
      matchLength := 0;
    }

    lemma DistanceOne()
      requires Params()
      ensures MaxDist() >= 1
    {
    }

    method RleStep() returns (flush: bool)
      requires Ready(base + strstart) && lookahead > 0 && strstart + MAX_MATCH < window.Length
      modifies this`matchLength, this`strstart, this`lookahead, this`lastLit, this`tally, dBuf, lBuf
      ensures Tallied() && flush == (lastLit == litBufsize - 1)
      ensures strstart > old(strstart) && Left() >= 0 && tally == old(tally) + [old(RunToken())]
    {
      hide Ready, Probed, Tallied, RepeatsAt, RunHere;
      ReadyIsProbed(base + strstart);
      matchLength := RunLength();
      if matchLength >= MIN_MATCH {
        flush := EmitRun();
      } else {
        flush := EmitLiteral();
      }
    }

    method DeflateRle(flush: Flush) returns (st: BlockState)
      requires Ready(base + strstart)
      modifies this`insH, this`strstart, this`lookahead, this`insert, this`blockStart, this`matchLength,
               this`prevLength, this`matchStart, this`prevMatch, this`matchAvailable, this`highWater, this`lastLit,
               this`input, this`availOut, this`stream, this`base, this`dataEnd, this`filed, this`matchPos,
               this`tally, this`blocks, window, head, prev, dBuf, lBuf
      ensures Ready(base + strstart) && Conserved() && Outcome(flush, st) && old(blocks) <= blocks
    {
      hide Ready, Probed, Tallied, Rolling, RunHere, RunToken, TokensSent;
      while true
        invariant Ready(base + strstart) && Conserved() && old(blocks) <= blocks
        decreases Left()
      {
        Ahead(base + strstart);
        if lookahead <= MAX_MATCH {
          Refill(base + strstart);
          if lookahead <= MAX_MATCH && flush.NoFlush? { return NeedMore; }
          if lookahead == 0 { break; }
        }
        var stop := RleTurn();
        if stop { return NeedMore; }
      }
      st := EndTokens(flush, 0);
    }

    /** One pass of deflate_rle's loop after the refill. */
    method RleTurn() returns (stop: bool)
      requires Ready(base + strstart) && lookahead > 0 && strstart + MAX_MATCH < window.Length
      modifies this`strstart, this`lookahead, this`matchLength, this`lastLit, this`tally, this`blockStart,
               this`availOut, this`blocks, dBuf, lBuf
      ensures Ready(base + strstart) && Left() < old(Left()) && Left() >= 0
      ensures (stop ==> availOut == 0) && old(blocks) <= blocks && Sends([old(RunToken())])
    {
      hide Ready, Tallied;
      var full := RleStep();
      stop := FlushIfFull(full);
    }

    // ---- deflate_fast ----

    /** The head of the chain of the string at strstart, if three bytes are ahead. */
    ghost function ChainHead(): Pos
      requires Params() && (lookahead >= MIN_MATCH ==> strstart + 2 < window.Length)
      reads this`strstart, this`lookahead, window, head
    {
      if lookahead >= MIN_MATCH then HeadFor(strstart) else NIL
    }

    /** What the search finds for strstart from an entry on, longer than `best`: the reference
        search over the chain, cut to the lookahead. */
    ghost function Longest(hashHead: Pos, best: nat): (nat, nat)
      requires Params()
      reads this`strstart, this`lookahead, this`matchStart, window, prev
    {
      var s := Search(window[..], prev[..][strstart % wSize := hashHead], strstart, hashHead, Limit(),
                      if best >= goodMatch then maxChainLength / 4 else maxChainLength, best, matchStart, Min(niceMatch, lookahead));
      (Min(s.0, lookahead), s.1)
    }

    ghost predicate Reachable(hashHead: Pos)
      reads this`strstart
    {
      hashHead != NIL && strstart - hashHead <= MaxDist()
    }

    /** Insert the string at strstart in the dictionary, if three bytes are ahead. */
    method ProbeHash(ghost n: int) returns (hashHead: Pos)
      requires Ready(n) && Rolling()
      modifies this`insH, this`filed, head, prev
      ensures Probed(n) && (lookahead >= MIN_MATCH ==> PrimedAt(strstart + 1))
      ensures hashHead == old(ChainHead()) && (hashHead != NIL ==> prev[..] == old(prev[..])[strstart % wSize := hashHead])
      ensures hashHead != NIL && strstart - hashHead <= MaxDist() ==> Candidate(hashHead)
    {
      assert prev != dBuf && head != dBuf;
      hide Chains.Ok, Mirrors, Coded, PrimedFor, HeadFor;
      hashHead := NIL;
      if lookahead >= MIN_MATCH {
        hashHead := InsertString(strstart);
      }
    }

    /** longest_match in stream terms: a result above prev_length is a true
        repetition at match_start. */
    method FindMatch(hashHead: Pos, ghost n: int) returns (len: nat)
      requires Probed(n) && Candidate(hashHead) && 2 <= prevLength <= MAX_MATCH
      requires level >= 1
      requires strstart <= window.Length - MIN_LOOKAHEAD
      modifies this`matchStart, this`matchPos
      ensures Probed(n) && 2 <= len <= MAX_MATCH && len <= lookahead
      ensures len > prevLength ==> MatchHere(len)
      ensures var s := Goal(hashHead, ChainBudget(), prevLength, old(matchStart));
              len == Min(s.0, lookahead) && matchStart == s.1
    {
      assert lookahead >= MIN_MATCH;
      ProbedGives(n);
      hide Goal, Found, Candidate, MatchHere, Params, Chains.Ok, FiledBelow, Probed;
      len := LongestMatch(hashHead);
      if len > prevLength {
        ghost var k :| Found(k) && len <= k;
        FoundIsMatch(k, len);
      }
    }

    /** The string at match_start repeats at strstart. */
    ghost predicate MatchHere(len: nat)
      reads this`strstart, this`matchStart, this`matchPos, this`base, window
    {
      && matchStart < strstart <= matchStart + MaxDist() && matchPos == base + matchStart
      && RepeatsAt(strstart - matchStart, len)
    }

    lemma FoundIsMatch(k: nat, len: nat)
      requires Params() && Found(k) && len <= k
      ensures MatchHere(len)
    {
      CommonLenRepeats(window[..], strstart, matchStart, MAX_MATCH, len);
      assert forall i :: strstart <= i < strstart + len ==> window[..][i] == window[i];
    }

    method StepOver(k: nat)
      requires Matched(k) && k > 1
      modifies this`strstart
      ensures Matched(k - 1) && FiledBelow(strstart) && strstart == old(strstart) + 1
    {
      hide Chains.Ok, Mirrors, Coded;
      strstart := strstart + 1;
    }

    method FileHere(k: nat)
      requires Matched(k) && FiledBelow(strstart) && strstart + MIN_MATCH <= dataEnd && PrimedAt(strstart)
      modifies this`insH, this`filed, head, prev
      ensures Matched(k) && PrimedAt(strstart + 1) && filed == old(filed) + {strstart}
    {
      hide Chains.Ok, Mirrors, Coded, PrimedFor, Primed, Key, Update;
      assert prev != dBuf && head != dBuf;
      hide Params;
      var _ := InsertString(strstart);
    }

    /** One byte on inside a match, filing the string there if `file`. */
    method StepInside(k: nat, file: bool)
      requires Matched(k) && k > 1
      requires file ==> strstart + 1 + MIN_MATCH <= dataEnd && PrimedAt(strstart + 1)
      modifies this`strstart, this`insH, this`filed, head, prev
      ensures Matched(k - 1) && strstart == old(strstart) + 1
      ensures file ==> PrimedAt(strstart + 1)
      ensures filed == old(filed) + if file then {strstart} else {}
    {
      hide Matched, PrimedFor;
      StepOver(k);
      if file { FileHere(k - 1); }
    }

    /** Files the string at every byte of a short match, and ends behind it. */
    method FileInside()
      requires Matched(matchLength + 1) && matchLength >= 1 && PrimedAt(strstart + 1)
      requires dataEnd == strstart + matchLength + 1 + lookahead && lookahead >= MIN_MATCH
      modifies this`strstart, this`matchLength, this`insH, this`filed, head, prev
      ensures forall p :: old(strstart) < p < strstart ==> p in filed
      ensures Tallied() && Rolling() && matchLength == 0 && strstart > old(strstart) && Left() >= 0
    {
      hide Matched, Tallied, PrimedFor;
      while true
        invariant Matched(matchLength + 1) && matchLength >= 1 && PrimedAt(strstart + 1)
        invariant dataEnd == strstart + matchLength + 1 + lookahead && strstart >= old(strstart)
        invariant strstart + matchLength == old(strstart + matchLength) && forall p :: old(strstart) < p <= strstart ==> p in filed
        decreases matchLength
      {
        StepInside(matchLength + 1, true);
        matchLength := matchLength - 1;
        if matchLength == 0 { break; }
      }
      Skip(1);
    }

    /** deflate_fast after a match of match_length was tallied. */
    method AfterFastMatch()
      requires Matched(matchLength) && matchLength >= MIN_MATCH && PrimedAt(strstart + 1)
      requires strstart + MAX_MATCH + 1 < window.Length && matchLength <= MAX_MATCH
      requires dataEnd == strstart + matchLength + lookahead
      modifies this`strstart, this`matchLength, this`insH, this`filed, head, prev
      ensures Tallied() && Rolling() && matchLength == 0 && strstart > old(strstart) && Left() >= 0
    {
      hide Matched, Tallied, PrimedFor;
      if matchLength <= maxLazyMatch && lookahead >= MIN_MATCH {
        matchLength := matchLength - 1;
        FileInside();
      } else {
        Skip(matchLength);
        matchLength := 0;
        PrimeForNext();
      }
    }

    /** ins_h for the string at strstart, when the strings inside a match were not filed. */
    method PrimeForNext()
      requires Tallied() && strstart + 1 < window.Length
      modifies this`insH
      ensures Tallied() && Rolling()
    {
      hide Chains.Ok, Mirrors, Coded;
      PrimeHash(strstart);
    }

    ghost predicate FastOk()
      reads this`strstart, this`lookahead, this`insert, this`stream, this`base, this`dataEnd, this`filed,
            this`blockStart, this`blocks, this`tally, this`lastLit, this`highWater, this`insH, this`matchLength, this`prevLength,
            window, head, prev, dBuf, lBuf
    {
      Ready(base + strstart) && Rolling() && matchLength < MIN_MATCH && prevLength == MIN_MATCH - 1 && level >= 1
    }

    /** The match of a greedy step: its length, below MIN_MATCH if there is none, and where it starts. */
    ghost function FastFind(): (nat, nat)
      requires Params() && (lookahead >= MIN_MATCH ==> strstart + 2 < window.Length)
      reads this`strstart, this`lookahead, this`matchStart, this`matchLength, this`prevLength, window, head, prev
    {
      if Reachable(ChainHead()) then Longest(ChainHead(), prevLength) else (matchLength, matchStart as nat)
    }

    /** What deflate_fast tallies: the match if there is one, else the byte at strstart. */
    ghost function FastToken(): Token
      requires Params() && strstart < window.Length && (lookahead >= MIN_MATCH ==> strstart + 2 < window.Length)
      reads this`strstart, this`lookahead, this`matchStart, this`matchLength, this`prevLength, window, head, prev
    {
      var (len, from) := FastFind();
      if len >= MIN_MATCH then Match(if from <= strstart then strstart - from else 0, len) else Literal(window[strstart])
    }

    /** Insert the string at strstart and look for its longest match. */
    method FastSearch()
      requires FastOk() && lookahead > 0 && strstart <= window.Length - MIN_LOOKAHEAD
      modifies this`matchLength, this`matchStart, this`matchPos, this`insH, this`filed, head, prev
      ensures Probed(base + strstart) && matchLength <= MAX_MATCH
      ensures (matchLength, matchStart as nat) == old(FastFind())
      ensures lookahead >= MIN_MATCH ==> PrimedAt(strstart + 1)
      ensures matchLength >= MIN_MATCH ==> matchLength <= lookahead && MatchHere(matchLength)
    {
      hide Ready, Probed, PrimedFor, Candidate, MatchHere;
      var hashHead := ProbeHash(base + strstart);
      if hashHead != NIL && strstart - hashHead <= MaxDist() {
        matchLength := FindMatch(hashHead, base + strstart);
      }
    }

    method FastStep() returns (flush: bool)
      requires FastOk() && lookahead > 0 && strstart <= window.Length - MIN_LOOKAHEAD
      modifies this`strstart, this`lookahead, this`matchLength, this`matchStart, this`matchPos, this`insH,
               this`filed, this`lastLit, this`tally, head, prev, dBuf, lBuf
      ensures Tallied() && flush == (lastLit == litBufsize - 1)
      ensures Rolling() && matchLength < MIN_MATCH
      ensures strstart > old(strstart) && Left() >= 0
      ensures tally == old(tally) + [old(FastToken())]
    {
      hide FastOk, Probed, Tallied, Matched, PrimedFor, FastFind, Params, WindowOk, TheChains, FiledBelow, Coded, Chains.Ok;
      FastSearch();
      ProbedGives(base + strstart);
      if matchLength >= MIN_MATCH {
        flush := EmitMatch(strstart - matchStart, matchLength);
        AfterFastMatch();
      } else {
        flush := EmitLiteral();
      }
    }

    lemma FastAhead()
      requires FastOk()
      ensures strstart + lookahead <= window.Length && Left() >= 0
    {
      Ahead(base + strstart);
    }

    method RefillFast()
      requires FastOk() && lookahead < MIN_LOOKAHEAD
      modifies this`strstart, this`lookahead, this`insert, this`insH, this`matchStart, this`blockStart,
               this`highWater, this`input, this`stream, this`base, this`dataEnd, this`filed, window, head, prev
      ensures FastOk() && Conserved() && Left() == old(Left())
      ensures strstart < window.Length - MIN_LOOKAHEAD
      ensures lookahead >= MIN_LOOKAHEAD || input == []
      ensures lookahead >= old(lookahead)
    {
      hide Ready, Rolling;
      Refill(base + strstart);
    }

    /** One pass of deflate_fast's loop after the refill. */
    method FastTurn() returns (stop: bool)
      requires FastOk() && lookahead > 0 && strstart <= window.Length - MIN_LOOKAHEAD
      modifies this`strstart, this`lookahead, this`matchLength, this`matchStart, this`matchPos, this`insH,
               this`filed, this`lastLit, this`tally, this`blockStart, this`availOut, this`blocks, head, prev, dBuf, lBuf
      ensures FastOk() && Left() < old(Left()) && Left() >= 0 && (stop ==> availOut == 0) && old(blocks) <= blocks
      ensures Sends([old(FastToken())])
    {
      hide Ready, Tallied, Rolling, PrimedAt, Probed, Coded, Params, WindowOk, FiledBelow, Chains.Ok, TheChains;
      var full := FastStep();
      stop := FlushIfFull(full);
    }

    method EndFast(flush: Flush) returns (st: BlockState)
      requires FastOk() && lookahead == 0 && input == [] && !flush.NoFlush?
      modifies this`insert, this`blockStart, this`availOut, this`blocks, this`tally, this`lastLit
      ensures FastOk() && Outcome(flush, st) && old(blocks) <= blocks
    {
      hide Ready, Rolling, Outcome;
      st := EndTokens(flush, if strstart < MIN_MATCH - 1 then strstart else MIN_MATCH - 1);
    }

    method DeflateFast(flush: Flush) returns (st: BlockState)
      requires FastOk()
      modifies this`insH, this`strstart, this`lookahead, this`insert, this`blockStart, this`matchLength,
               this`prevLength, this`matchStart, this`prevMatch, this`matchAvailable, this`highWater, this`lastLit,
               this`input, this`availOut, this`stream, this`base, this`dataEnd, this`filed, this`matchPos,
               this`tally, this`blocks, window, head, prev, dBuf, lBuf
      ensures FastOk() && Conserved() && Outcome(flush, st) && old(blocks) <= blocks
    {
      hide FastOk;
      while true
        invariant FastOk() && Conserved() && old(blocks) <= blocks
        decreases Left()
      {
        FastAhead();
        if lookahead < MIN_LOOKAHEAD {
          RefillFast();
          if lookahead < MIN_LOOKAHEAD && flush.NoFlush? { return NeedMore; }
          if lookahead == 0 { break; }
        }
        var stop := FastTurn();
        if stop { return NeedMore; }
      }
      st := EndFast(flush);
    }

    // ---- deflate_slow ----

    /** A match carried over from the previous step, in stream coordinates:
        `start` is its window index, which may have wrapped below zero when
        the window slid, so it is known only modulo 2^32. */
    ghost predicate LazyMatch(pos: int, start: U32, from: int, len: nat)
      reads this`stream, this`base
    {
      && MIN_MATCH <= len <= MAX_MATCH && 0 <= from < pos <= from + MaxDist()
      && Repeats(stream, pos, pos - from, len) && start == Wrap32(from - base)
    }

    /** How far the tokens lag behind strstart: one byte while a literal or a
        match at strstart - 1 is undecided. */
    ghost function Lag(): int
      reads this`matchAvailable
    {
      if matchAvailable then 1 else 0
    }

    ghost predicate LazyOk()
      reads this`stream, this`base, this`strstart, this`matchAvailable, this`matchLength, this`matchStart, this`matchPos
    {
      && MIN_MATCH - 1 <= matchLength <= MAX_MATCH && (matchAvailable ==> strstart >= 1)
      && (matchLength >= MIN_MATCH ==>
            matchAvailable && LazyMatch(base + strstart - 1, matchStart, matchPos, matchLength))
    }

    /** A slide may wrap match_start, but not what it means. */
    twostate lemma LazySurvives()
      requires old(LazyOk()) && Conserved() && Rebased() && wSize >= 512
      requires unchanged(this`matchAvailable, this`matchLength, this`matchPos)
      ensures LazyOk()
    {
      if matchLength >= MIN_MATCH {
        var pos := base + strstart - 1;
        RepeatsGrow(old(stream), stream, pos, pos - matchPos, matchLength);
        Wrap32Twice(matchPos - old(base), wSize);
      }
    }

    ghost predicate SlowOk()
      reads this`strstart, this`lookahead, this`insert, this`stream, this`base, this`dataEnd, this`filed,
            this`blockStart, this`blocks, this`tally, this`lastLit, this`highWater, this`insH, this`matchAvailable, this`matchLength, this`matchStart, this`matchPos,
            window, head, prev, dBuf, lBuf
    {
      Ready(base + strstart - Lag()) && Rolling() && LazyOk() && level >= 1
    }

    method RefillSlow()
      requires SlowOk() && lookahead < MIN_LOOKAHEAD
      modifies this`strstart, this`lookahead, this`insert, this`insH, this`matchStart, this`blockStart,
               this`highWater, this`input, this`stream, this`base, this`dataEnd, this`filed, window, head, prev
      ensures SlowOk() && Conserved() && Left() == old(Left())
      ensures strstart < window.Length - MIN_LOOKAHEAD
      ensures lookahead >= MIN_LOOKAHEAD || input == []
      ensures lookahead >= old(lookahead)
    {
      hide Ready, LazyOk, Rolling;
      Ahead(base + strstart - Lag());
      Refill(base + strstart - Lag());
      LazySurvives();
    }

    lemma HereIsLazy(len: nat)
      requires WindowOk() && MatchHere(len) && MIN_MATCH <= len <= MAX_MATCH && len <= lookahead
      ensures LazyMatch(base + strstart, matchStart, matchPos, len)
    {
      HereRepeats(strstart - matchStart, len);
    }

    /** A match as short as this is not worth it if it is filtered or too far. */
    ghost function Worth(m: (nat, nat)): (nat, nat)
      reads this`strstart
    {
      if m.0 <= 5 && (strategy.Filtered? || (m.0 == MIN_MATCH && Wrap32(strstart - m.1) > TOO_FAR)) then (MIN_MATCH - 1, m.1)
      else m
    }

    /** The match that a lazy step finds at strstart, given the one found a step earlier. */
    ghost function LazyFind(): (nat, nat)
      requires Params() && (lookahead >= MIN_MATCH ==> strstart + 2 < window.Length)
      reads this`strstart, this`lookahead, this`matchStart, this`matchLength, window, head, prev
    {
      if Reachable(ChainHead()) && matchLength < maxLazyMatch then Worth(Longest(ChainHead(), matchLength))
      else (MIN_MATCH - 1, matchStart as nat)
    }

    /** What deflate_slow tallies: the match of the step before if this one is not longer,
        else the byte of the step before, if it is still open. */
    ghost function SlowTokens(): seq<Token>
      requires Params() && (lookahead >= MIN_MATCH ==> strstart + 2 < window.Length) && strstart <= window.Length
      reads this`strstart, this`lookahead, this`matchStart, this`matchLength, this`matchAvailable, this`matchPos, this`base,
            window, head, prev
    {
      if matchLength >= MIN_MATCH && LazyFind().0 <= matchLength then
        [Match(if matchPos < base + strstart then base + strstart - 1 - matchPos else 0, matchLength)]
      else if matchAvailable && strstart >= 1 then [Literal(window[strstart - 1])] else []
    }

    /** Discard a short match that is filtered or too far. */
    method DropPoorMatch()
      modifies this`matchLength
      ensures (matchLength, matchStart as nat) == Worth((old(matchLength), matchStart as nat))
    {
      if matchLength <= 5 && (strategy.Filtered?
                              || (matchLength == MIN_MATCH && Wrap32(strstart - matchStart) > TOO_FAR)) {
        matchLength := MIN_MATCH - 1;
      }
    }

    /** Keep the previous match and look for one at strstart. */
    method LazySearch(ghost n: int)
      requires Ready(n) && Rolling() && MIN_MATCH - 1 <= matchLength <= MAX_MATCH
      requires level >= 1
      requires lookahead > 0 && strstart <= window.Length - MIN_LOOKAHEAD
      modifies this`prevLength, this`prevMatch, this`matchLength, this`matchStart, this`matchPos, this`insH,
               this`filed, head, prev
      ensures Probed(n) && (lookahead >= MIN_MATCH ==> PrimedAt(strstart + 1))
      ensures prevLength == old(matchLength) && prevMatch == old(matchStart)
      ensures (matchLength, matchStart as nat) == old(LazyFind())
      ensures MIN_MATCH - 1 <= matchLength <= MAX_MATCH
      ensures matchLength >= MIN_MATCH && matchLength > prevLength
              ==> LazyMatch(base + strstart, matchStart, matchPos, matchLength)
    {
      hide Ready, Probed, PrimedFor, Candidate, MatchHere, LazyMatch, Search, Params, HeadFor, Worth, Rolling;
      var hashHead := ProbeHash(n);
      prevLength, prevMatch := matchLength, matchStart;
      matchLength := MIN_MATCH - 1;
      if hashHead != NIL && prevLength < maxLazyMatch && strstart - hashHead <= MaxDist() {
        SearchWorth(hashHead, n);
      }
    }

    /** longest_match, and what is not worth it is dropped. */
    method SearchWorth(hashHead: Pos, ghost n: int)
      requires Probed(n) && Candidate(hashHead) && MIN_MATCH - 1 <= prevLength <= MAX_MATCH
      requires level >= 1
      requires strstart <= window.Length - MIN_LOOKAHEAD
      modifies this`matchLength, this`matchStart, this`matchPos
      ensures Probed(n) && MIN_MATCH - 1 <= matchLength <= MAX_MATCH
      ensures var s := Goal(hashHead, ChainBudget(), prevLength, old(matchStart));
              (matchLength, matchStart as nat) == Worth((Min(s.0, lookahead), s.1))
      ensures matchLength >= MIN_MATCH && matchLength > prevLength
              ==> LazyMatch(base + strstart, matchStart, matchPos, matchLength)
    {
      hide Probed, Candidate, LazyMatch, Goal, Params, WindowOk, TheChains, FiledBelow, Coded, Chains.Ok;
      ProbedGives(n);
      SearchHere(hashHead, n);
      DropPoorMatch();
    }

    method SearchHere(hashHead: Pos, ghost n: int)
      requires Probed(n) && Candidate(hashHead) && MIN_MATCH - 1 <= prevLength <= MAX_MATCH
      requires level >= 1
      requires strstart <= window.Length - MIN_LOOKAHEAD
      modifies this`matchLength, this`matchStart, this`matchPos
      ensures Probed(n) && MIN_MATCH - 1 <= matchLength <= MAX_MATCH
      ensures var s := Goal(hashHead, ChainBudget(), prevLength, old(matchStart));
              matchLength == Min(s.0, lookahead) && matchStart == s.1
      ensures matchLength >= MIN_MATCH && matchLength > prevLength
              ==> LazyMatch(base + strstart, matchStart, matchPos, matchLength)
    {
      ProbedGives(n);
      hide Probed, Candidate, MatchHere, LazyMatch, Mirrors;
      matchLength := FindMatch(hashHead, n);
      if matchLength >= MIN_MATCH && matchLength > prevLength {
        HereIsLazy(matchLength);
      }
    }

    /** Tally the match found at the previous step. */
    method TallyPrevious(ghost from: int) returns (flush: bool)
      requires Probed(base + strstart - 1) && strstart >= 1
      requires LazyMatch(base + strstart - 1, prevMatch, from, prevLength)
      modifies this`lookahead, this`lastLit, this`tally, dBuf, lBuf
      ensures Matched(prevLength - 1) && flush == (lastLit == litBufsize - 1)
      ensures dataEnd == strstart + prevLength - 1 + lookahead
      ensures lookahead == old(lookahead) - (prevLength - 1)
      ensures tally == old(tally) + [Match(base + strstart - 1 - from, prevLength)]
    {
      hide Probed, Params, Chains.Ok, Mirrors, Coded, Repeats, FiledBelow, TheChains, Wrap32;
      ProbedGives(base + strstart - 1);
      PreviousDistance(from);
      flush := TallyDist(Wrap32(strstart - 1 - prevMatch), prevLength - MIN_MATCH, base + strstart - 1);
      lookahead := lookahead - (prevLength - 1);
    }

    /** The distance is right although prev_match may have wrapped. */
    lemma PreviousDistance(from: int)
      requires LazyMatch(base + strstart - 1, prevMatch, from, prevLength) && Params()
      ensures Wrap32(strstart - 1 - prevMatch) == base + strstart - 1 - from
      ensures base + strstart - 1 + prevLength <= |stream|
    {
      var d := base + strstart - 1 - from;
      assert 0 < d < 0x8000;
      var q := (from - base) / 0x1_0000_0000;
      assert strstart - 1 - prevMatch == q * 0x1_0000_0000 + d;
    }

    /** Files the strings inside a match adopted one step late, and ends behind it. */
    method FilePrevious(maxInsert: int)
      requires MIN_MATCH <= prevLength <= MAX_MATCH && Matched(prevLength - 1) && maxInsert == dataEnd - MIN_MATCH
      requires dataEnd == strstart + prevLength - 1 + lookahead
      requires dataEnd >= strstart + MIN_MATCH ==> PrimedAt(strstart + 1)
      modifies this`strstart, this`prevLength, this`insH, this`filed, head, prev
      ensures forall p :: old(strstart) < p < strstart && p <= maxInsert ==> p in filed
      ensures Tallied() && Rolling() && strstart > old(strstart) && Left() >= 0
    {
      hide Matched, Tallied, PrimedFor;
      prevLength := prevLength - 2;
      while true
        invariant Matched(prevLength + 1) && prevLength >= 1 && strstart >= old(strstart)
        invariant dataEnd == strstart + prevLength + 1 + lookahead
        invariant forall p :: old(strstart) < p <= strstart && p <= maxInsert ==> p in filed
        invariant strstart <= maxInsert ==> PrimedAt(strstart + 1)
        decreases prevLength
      {
        StepInside(prevLength + 1, strstart + 1 <= maxInsert);
        prevLength := prevLength - 1;
        if prevLength == 0 { break; }
      }
      Skip(1);
    }

    /** After the search: the previous match (if any) and the current one are
        both known, and neither has been adopted. */
    ghost predicate Searched(from: int)
      reads this, window, head, prev, dBuf, lBuf
    {
      && level >= 1 && Probed(base + strstart - Lag()) && lookahead > 0 && (lookahead >= MIN_MATCH ==> PrimedAt(strstart + 1))
      && MIN_MATCH - 1 <= matchLength <= MAX_MATCH && MIN_MATCH - 1 <= prevLength <= MAX_MATCH
      && (matchLength >= MIN_MATCH && matchLength > prevLength
          ==> LazyMatch(base + strstart, matchStart, matchPos, matchLength))
      && (matchAvailable ==> strstart >= 1)
      && (prevLength >= MIN_MATCH ==> matchAvailable && LazyMatch(base + strstart - 1, prevMatch, from, prevLength))
    }

    method SlowSearch()
      requires SlowOk() && lookahead > 0 && strstart <= window.Length - MIN_LOOKAHEAD
      modifies this`prevLength, this`prevMatch, this`matchLength, this`matchStart, this`matchPos, this`insH,
               this`filed, head, prev
      ensures Searched(old(matchPos))
      ensures prevLength == old(matchLength) && (matchLength, matchStart as nat) == old(LazyFind())
    {
      hide Ready, Probed, Rolling, PrimedFor, LazyMatch;
      LazySearch(base + strstart - Lag());
    }

    lemma PreviousIsMatch(from: int)
      requires Searched(from) && prevLength >= MIN_MATCH
      ensures Probed(base + strstart - 1) && LazyMatch(base + strstart - 1, prevMatch, from, prevLength)
      ensures strstart >= 1 && prevLength <= MAX_MATCH && level >= 1 && from < base + strstart - 1
      ensures dataEnd == strstart + lookahead && (dataEnd >= strstart + MIN_MATCH ==> PrimedAt(strstart + 1))
      ensures prev != dBuf && head != dBuf && window != lBuf
    {
    }

    lemma NothingPending()
      requires Ready(base + strstart) && Rolling() && !matchAvailable && matchLength == MIN_MATCH - 1 && level >= 1
      ensures SlowOk()
    {
    }

    /** Output the previous match and file the strings inside it. */
    method EmitPrevious(ghost from: int) returns (full: bool)
      requires Searched(from) && prevLength >= MIN_MATCH
      modifies this`strstart, this`lookahead, this`prevLength, this`insH, this`filed, this`lastLit, this`tally,
               head, prev, dBuf, lBuf
      ensures Tallied() && Rolling() && full == (lastLit == litBufsize - 1)
      ensures strstart > old(strstart) && Left() >= 0
      ensures old(base + strstart) - 1 >= from && tally == old(tally) + [Match(old(base + strstart) - 1 - from, old(prevLength))]
    {
      hide Searched, Probed, Matched, Tallied, PrimedFor, LazyMatch, Rolling, Params, WindowOk, TheChains, FiledBelow, Coded;
      PreviousIsMatch(from);
      var maxInsert := strstart + lookahead - MIN_MATCH;
      full := TallyPrevious(from);
      FilePrevious(maxInsert);
    }

    /** No match is carried over; flush if the token buffer is full. */
    method ForgetMatch(full: bool) returns (stop: bool)
      requires Tallied() && Rolling() && full == (lastLit == litBufsize - 1) && level >= 1
      modifies this`matchLength, this`matchAvailable, this`lastLit, this`tally, this`blockStart, this`availOut,
               this`blocks
      ensures SlowOk() && (stop ==> availOut == 0) && old(blocks) <= blocks
      ensures TokensSent(old(blocks), old(tally), blocks, tally)
    {
      hide SlowOk, Tallied, Ready, Rolling;
      matchAvailable := false;
      matchLength := MIN_MATCH - 1;
      stop := FlushIfFull(full);
      NothingPending();
    }

    /** There was a match at the previous step and the current one is not better. */
    method AdoptPrevious(ghost from: int) returns (stop: bool)
      requires Searched(from) && prevLength >= MIN_MATCH && matchLength <= prevLength
      modifies this`strstart, this`lookahead, this`prevLength, this`matchLength, this`matchAvailable, this`insH,
               this`filed, this`lastLit, this`tally, this`blockStart, this`availOut, this`blocks,
               head, prev, dBuf, lBuf
      ensures SlowOk() && Left() < old(Left()) && Left() >= 0 && (stop ==> availOut == 0) && old(blocks) <= blocks
      ensures old(base + strstart) - 1 >= from && Sends([Match(old(base + strstart) - 1 - from, old(prevLength))])
    {
      hide Searched, SlowOk, Tallied, Rolling, Probed, Params, WindowOk, TheChains, FiledBelow, Coded, LazyMatch, PrimedAt;
      PreviousIsMatch(from);
      var full := EmitPrevious(from);
      stop := ForgetMatch(full);
    }

    /** A literal for strstart - 1. */
    method LateLiteral() returns (full: bool)
      requires Probed(base + strstart - 1) && strstart >= 1
      modifies this`lastLit, this`tally, dBuf, lBuf
      ensures Params() && WindowOk() && TheChains().Ok() && FiledBelow(strstart + 1)
      ensures Coded(base + strstart) && lastLit < litBufsize && highWater <= window.Length
      ensures strstart <= window.Length && tally == old(tally) + [Literal(old(window[strstart - 1]))]
      ensures full == (lastLit == litBufsize - 1)
    {
      hide Probed, Params, Chains.Ok, Mirrors, Coded, FiledBelow, TheChains;
      ProbedGives(base + strstart - 1);
      ByteBefore();
      full := TallyLit(window[strstart - 1], base + strstart - 1);
    }

    lemma ByteBefore()
      requires WindowOk() && 1 <= strstart
      ensures strstart <= window.Length && base + strstart - 1 < |stream| && window[strstart - 1] == stream[base + strstart - 1]
    {
      assert window[..][strstart - 1] == stream[base + (strstart - 1)];
    }

    /** One byte on, when the string at strstart is already filed. */
    method StepPast(ghost n: int)
      requires Probed(n) && lookahead > 0
      modifies this`strstart, this`lookahead
      ensures Ready(n) && strstart == old(strstart) + 1 && lookahead == old(lookahead) - 1 && Left() >= 0
    {
      assert base + dataEnd == |stream|;
      hide Chains.Ok, Mirrors, Coded, Params;
      strstart := strstart + 1;
      lookahead := lookahead - 1;
    }

    /** FLUSH_BLOCK_ONLY when full, then one step on. */
    method FlushAndStep(full: bool)
      requires Params() && WindowOk() && TheChains().Ok() && FiledBelow(strstart + 1)
      requires Coded(base + strstart) && lastLit < litBufsize && highWater <= window.Length
      requires full == (lastLit == litBufsize - 1) && lookahead > 0
      modifies this`strstart, this`lookahead, this`lastLit, this`tally, this`blockStart, this`availOut, this`blocks
      ensures Ready(base + strstart - 1) && strstart == old(strstart) + 1 && lookahead == old(lookahead) - 1
      ensures Left() >= 0 && old(blocks) <= blocks && TokensSent(old(blocks), old(tally), blocks, tally)
    {
      hide Chains.Ok, Mirrors, Coded;
      if full { FlushBlockOnly(); }
      StepPast(base + strstart);
    }

    /** The current match becomes the previous one when strstart moves on. */
    ghost predicate Carried()
      reads this, window
    {
      && MIN_MATCH - 1 <= matchLength <= MAX_MATCH && (lookahead >= MIN_MATCH ==> PrimedAt(strstart + 1))
      && (matchLength >= MIN_MATCH ==> LazyMatch(base + strstart, matchStart, matchPos, matchLength))
    }

    lemma SearchedIsCarried(from: int)
      requires Searched(from) && !(prevLength >= MIN_MATCH && matchLength <= prevLength)
      ensures level >= 1
      ensures Carried() && Probed(base + strstart - Lag()) && lookahead > 0 && (matchAvailable ==> strstart >= 1)
      ensures prev != dBuf && head != dBuf && window != lBuf
    {
    }

    twostate lemma CarriedOn()
      requires old(Carried()) && strstart == old(strstart) + 1 && lookahead == old(lookahead) - 1
      requires unchanged(this`matchLength, this`matchStart, this`matchPos, this`base, this`stream, this`insH, window)
      requires Ready(base + strstart - 1) && matchAvailable && level >= 1
      ensures SlowOk()
    {
    }

    /** No match is adopted at the previous step: its byte becomes a literal
        and the current match waits. */
    method TruncatePrevious(ghost from: int)
      requires Searched(from) && matchAvailable && !(prevLength >= MIN_MATCH && matchLength <= prevLength)
      modifies this`strstart, this`lookahead, this`lastLit, this`tally, this`blockStart, this`availOut, this`blocks,
               dBuf, lBuf
      ensures SlowOk() && Left() < old(Left()) && Left() >= 0 && old(blocks) <= blocks
      ensures 1 <= old(strstart) <= window.Length && Sends([Literal(old(window[strstart - 1]))])
    {
      hide Searched, Carried, SlowOk, Probed, Ready, Coded, WindowOk, FiledBelow, Chains.Ok, Params, TheChains;
      SearchedIsCarried(from);
      var full := LateLiteral();
      FlushAndStep(full);
      CarriedOn();
    }

    lemma NoPrevious(from: int)
      requires Searched(from) && !matchAvailable
      ensures !(prevLength >= MIN_MATCH && matchLength <= prevLength)
    {
    }

    /** There is no previous match to compare with: decide at the next step. */
    method Defer(ghost from: int)
      requires Searched(from) && !matchAvailable
      modifies this`strstart, this`lookahead, this`matchAvailable
      ensures SlowOk() && Left() < old(Left()) && Left() >= 0
    {
      hide Searched, Carried, SlowOk, Probed, Ready, LazyMatch;
      NoPrevious(from);
      SearchedIsCarried(from);
      matchAvailable := true;
      StepPast(base + strstart);
      CarriedOn();
    }

    /** The last byte, when the input ends undecided. */
    method LastLiteral()
      requires SlowOk() && lookahead == 0
      modifies this`lastLit, this`tally, this`matchAvailable, dBuf, lBuf
      ensures Tallied() && !matchAvailable && MIN_MATCH - 1 <= matchLength < MIN_MATCH
    {
      assert base + dataEnd == |stream| && FiledBelow(strstart);
      if matchAvailable {
        ReadyIsProbed(base + strstart - 1);
        hide Chains.Ok, Mirrors, Coded, Params, Probed;
        var _ := LateLiteral();
        matchAvailable := false;
      }
    }

    lemma SlowAhead()
      requires SlowOk()
      ensures strstart + lookahead <= window.Length && Left() >= 0
    {
      Ahead(base + strstart - Lag());
    }

    lemma SlowLevel()
      requires SlowOk()
      ensures level >= 1
    {
    }

    lemma SlowDone()
      requires Ready(base + strstart) && lookahead == 0 && !matchAvailable && matchLength == MIN_MATCH - 1 && level >= 1
      ensures SlowOk()
    {
    }

    /** One pass of deflate_slow's loop after the refill. */
    method SlowStep() returns (stop: bool)
      requires SlowOk() && lookahead > 0 && strstart <= window.Length - MIN_LOOKAHEAD
      modifies this`strstart, this`lookahead, this`prevLength, this`prevMatch, this`matchLength, this`matchStart,
               this`matchPos, this`matchAvailable, this`insH, this`filed, this`lastLit, this`tally,
               this`blockStart, this`availOut, this`blocks, head, prev, dBuf, lBuf
      ensures SlowOk() && Left() < old(Left()) && Left() >= 0 && (stop ==> availOut == 0) && old(blocks) <= blocks
      ensures Sends(old(SlowTokens()))
    {
      hide SlowOk, Searched;
      ghost var from := matchPos;
      SlowSearch();
      if prevLength >= MIN_MATCH && matchLength <= prevLength {
        stop := AdoptPrevious(from);
      } else if matchAvailable {
        TruncatePrevious(from);
        stop := availOut == 0;
      } else {
        Defer(from);
        stop := false;
      }
    }

    method DeflateSlow(flush: Flush) returns (st: BlockState)
      requires SlowOk()
      modifies this`insH, this`strstart, this`lookahead, this`insert, this`blockStart, this`matchLength,
               this`prevLength, this`matchStart, this`prevMatch, this`matchAvailable, this`highWater, this`lastLit,
               this`input, this`availOut, this`stream, this`base, this`dataEnd, this`filed, this`matchPos,
               this`tally, this`blocks, window, head, prev, dBuf, lBuf
      ensures SlowOk() && Conserved() && Outcome(flush, st) && old(blocks) <= blocks
      ensures !st.NeedMore? ==> !matchAvailable
    {
      hide SlowOk;
      while true
        invariant SlowOk() && Conserved() && old(blocks) <= blocks
        decreases Left()
      {
        SlowAhead();
        if lookahead < MIN_LOOKAHEAD {
          RefillSlow();
          if lookahead < MIN_LOOKAHEAD && flush.NoFlush? { return NeedMore; }
          if lookahead == 0 { break; }
        }
        var stop := SlowStep();
        if stop { return NeedMore; }
      }
      st := EndSlow(flush);
    }

    /** The end of deflate_slow, when all input has been looked at. */
    method EndSlow(flush: Flush) returns (st: BlockState)
      requires SlowOk() && lookahead == 0 && input == [] && !flush.NoFlush?
      modifies this`matchAvailable, this`insert, this`lastLit, this`tally, this`blockStart, this`availOut,
               this`blocks, dBuf, lBuf
      ensures SlowOk() && Outcome(flush, st) && old(blocks) <= blocks && !matchAvailable
    {
      hide SlowOk, Tallied, Ready, Outcome, Probed, Params, WindowOk, Coded;
      SlowLevel();
      LastLiteral();
      SetInsert(if strstart < MIN_MATCH - 1 then strstart else MIN_MATCH - 1);
      st := EndBlock(flush);
      SlowDone();
    }

    // ---- deflate_stored ----

    /** pending_buf holds litBufsize * (sizeof(ush) + 2) bytes, and a stored
        block has a 5 byte header. */
    function MaxBlockSize(): int { Min(0xffff, litBufsize * 4 - 5) }

    /** The blocks are the stream up to block_start, and what is between
        block_start and strstart still fits in a block and in the window. */
    ghost predicate StoredOk()
      reads this`strstart, this`lookahead, this`insert, this`stream, this`base, this`dataEnd, this`filed,
            this`blockStart, this`blocks, this`highWater, window, head, prev
    {
      && TextOk() && highWater <= window.Length
      && 0 <= blockStart <= strstart && strstart - blockStart < Min(MaxBlockSize(), MaxDist())
      && StoredWithin(blocks, MaxBlockSize()) && DecodeTo(blocks, stream[..base + blockStart])
    }

    ghost predicate StoredFull()
      reads this`strstart, this`lookahead, this`insert, this`stream, this`base, this`dataEnd, this`filed,
            this`blockStart, this`blocks, this`highWater, window, head, prev
    {
      && TextOk() && highWater <= window.Length
      && 0 <= blockStart <= strstart && strstart - blockStart <= MaxBlockSize()
      && StoredWithin(blocks, MaxBlockSize()) && DecodeTo(blocks, stream[..base + blockStart])
    }

    ghost function StoredBlock(): Block
      requires 0 <= blockStart <= strstart <= window.Length
      reads this`blockStart, this`strstart, window
    {
      Block(None, Some(window[..][blockStart..strstart]))
    }

    lemma StoredBlockExtends()
      requires StoredFull()
      ensures 0 <= blockStart <= strstart <= window.Length && base + strstart <= |stream|
      ensures StoredWithin(blocks + [StoredBlock()], MaxBlockSize())
      ensures DecodeTo(blocks + [StoredBlock()], stream[..base + strstart])
      ensures MaxBlockSize() > 0 && MaxDist() > 0
    {
      hide StoredWithin, DecodeTo, Chains.Ok;
      MirrorsSlice(window[..], stream, base, dataEnd, blockStart, strstart);
      hide Mirrors;
      StoredExtends(blocks, stream, base + blockStart, base + strstart, MaxBlockSize());
    }

    method FlushStored() returns (stop: bool)
      requires StoredFull()
      modifies this`blockStart, this`availOut, this`blocks
      ensures StoredOk() && blockStart == strstart && availOut <= old(availOut) && stop == (availOut == 0)
      ensures old(blocks) <= blocks
    {
      hide TextOk, StoredWithin, DecodeTo, StoredBlock;
      StoredBlockExtends();
      blocks := blocks + [StoredBlock()];
      blockStart := strstart;
      FlushPending();
      stop := availOut == 0;
    }

    method RefillStored()
      requires StoredOk() && lookahead <= 1
      modifies this`strstart, this`lookahead, this`insert, this`insH, this`matchStart, this`blockStart,
               this`highWater, this`input, this`stream, this`base, this`dataEnd, this`filed, window, head, prev
      ensures StoredOk() && Conserved() && Left() == old(Left())
      ensures lookahead == 0 ==> input == []
    {
      StoredAhead();
      hide TextOk, Rolling, StoredWithin, DecodeTo;
      FillWindow();
      assert stream[..base + blockStart] == old(stream[..base + blockStart]);
      assert |stream + input| == |old(stream) + old(input)|;
    }

    lemma StoredAhead()
      requires StoredOk()
      ensures base + strstart + lookahead == |stream| && Left() >= 0 && base + blockStart <= |stream|
    {
    }

    /** Take everything ahead, but no more than a block may hold. */
    method TakeStored() returns (full: bool)
      requires StoredOk() && lookahead > 0
      modifies this`strstart, this`lookahead
      ensures StoredFull() && strstart > old(strstart)
      ensures !full ==> strstart - blockStart < MaxBlockSize()
      ensures Left() >= 0
    {
      assert base + dataEnd == |stream|;
      hide Chains.Ok, Mirrors, StoredWithin, DecodeTo, Params;
      strstart := strstart + lookahead;
      lookahead := 0;
      var maxStart := blockStart + MaxBlockSize();
      full := strstart == 0 || strstart >= maxStart;
      if full {
        lookahead := strstart - maxStart;
        strstart := maxStart;
      }
    }

    ghost predicate StoredOutcome(flush: Flush, st: BlockState)
      reads this`availOut, this`input, this`lookahead, this`blockStart, this`strstart
    {
      && (st.NeedMore? ==> availOut == 0 || (flush.NoFlush? && input == []))
      && (flush.NoFlush? ==> st.NeedMore?)
      && (!st.NeedMore? ==> input == [] && lookahead == 0 && blockStart == strstart)
      && (st.FinishStarted? || st.FinishDone? ==> flush.Finish?)
      && (st.BlockDone? ==> !flush.Finish?)
      && (st.FinishStarted? ==> availOut == 0)
    }

    /** One pass of the copying loop after the refill. */
    method StoredStep() returns (stop: bool)
      requires StoredOk() && lookahead > 0
      modifies this`strstart, this`lookahead, this`blockStart, this`availOut, this`blocks
      ensures StoredOk() && strstart > old(strstart) && Left() >= 0 && (stop ==> availOut == 0)
      ensures old(blocks) <= blocks
    {
      hide TextOk, StoredWithin, DecodeTo;
      var full := TakeStored();
      if full {
        stop := FlushStored();
        if stop { return; }
      }
      if strstart - blockStart >= MaxDist() {
        stop := FlushStored();
        return;
      }
      stop := false;
    }

    lemma StoredIsFull()
      requires StoredOk()
      ensures StoredFull()
    {
    }

    method ClearInsertStored()
      requires StoredOk()
      modifies this`insert
      ensures StoredOk()
    {
      hide Chains.Ok, Mirrors, StoredWithin, DecodeTo, Params;
      insert := 0;
    }

    method DeflateStored(flush: Flush) returns (st: BlockState)
      requires StoredOk()
      modifies this`insH, this`strstart, this`lookahead, this`insert, this`blockStart, this`matchStart,
               this`highWater, this`input, this`availOut, this`stream, this`base, this`dataEnd, this`filed,
               this`blocks, window, head, prev
      ensures StoredOk() && Conserved() && StoredOutcome(flush, st) && old(blocks) <= blocks
    {
      hide StoredOk, StoredFull;
      while true
        invariant StoredOk() && Conserved() && old(blocks) <= blocks
        decreases Left()
      {
        StoredAhead();
        if lookahead <= 1 {
          RefillStored();
          if lookahead == 0 && flush.NoFlush? { return NeedMore; }
          if lookahead == 0 { break; }
        }
        var stop := StoredStep();
        if stop { return NeedMore; }
      }
      ClearInsertStored();
      if flush.Finish? {
        StoredIsFull();
        var stop := FlushStored();
        return if stop then FinishStarted else FinishDone;
      }
      if strstart > blockStart {
        StoredIsFull();
        var stop := FlushStored();
        if stop { return NeedMore; }
      } else {
        StoredBounds();
      }
      return BlockDone;
    }

    lemma StoredBounds()
      requires StoredOk()
      ensures 0 <= blockStart <= strstart
    {
    }

    // ---- deflateInit2_, deflate ----

    function Func(): CompressFunc
      requires level <= 9
    {
      if strategy.HuffmanOnly? then Huffman else if strategy.Rle? then RunLengths else ConfigFor(level).func
    }

    /** The compress function's own invariant. */
    ghost predicate Running()
      reads this`strstart, this`lookahead, this`insert, this`stream, this`base, this`dataEnd, this`filed,
            this`blockStart, this`blocks, this`tally, this`lastLit, this`highWater, this`insH, this`matchAvailable, this`matchLength, this`matchStart, this`matchPos, this`prevLength,
            window, head, prev, dBuf, lBuf
    {
      && level <= 9
      && match Func()
         case Stored => StoredOk()
         case Fast => FastOk()
         case Slow => SlowOk()
         case RunLengths => Ready(base + strstart)
         case Huffman => Ready(base + strstart)
    }

    /** Everything read so far, and all blocks sent for it. */
    ghost function Text(): seq<byte>
      reads this`past, this`stream
    {
      past + stream
    }

    ghost function Sent(): seq<Block>
      reads this`pastBlocks, this`blocks
    {
      pastBlocks + blocks
    }

    /** How much of the text the blocks stand for. */
    ghost function Covered(): int
      reads this`past, this`base, this`blockStart
    {
      |past| + base + blockStart
    }

    ghost predicate PastOk()
      reads this`past, this`pastBlocks
    {
      DecodeTo(pastBlocks, past) && BlocksInRange(pastBlocks, MaxDist())
    }

    /** The blocks from the k-th on, up to the last full flush, decode by themselves to the text from n on. */
    ghost predicate Restart(k: nat, n: nat)
      reads this`past, this`pastBlocks
    {
      RestartsAt(pastBlocks, past, k, n)
    }

    /** Every reachable state; after the last block nothing is left to send. */
    ghost predicate Valid()
      reads this`past, this`pastBlocks, this`strstart, this`lookahead, this`insert, this`stream, this`base, this`dataEnd,
            this`filed, this`blockStart, this`blocks, this`tally, this`lastLit, this`highWater, this`insH, this`matchAvailable,
            this`matchLength, this`matchStart, this`matchPos, this`prevLength, this`finished,
            window, head, prev, dBuf, lBuf
    {
      PastOk() && Running() && (finished ==> Delivered())
    }

    /** Everything read so far is in blocks already sent. */
    ghost predicate Delivered()
      reads this`lookahead, this`blocks, this`stream
    {
      lookahead == 0 && DecodeTo(blocks, stream)
    }

    /** deflateInit2_ for a raw stream (no zlib or gzip wrapper), parameters already checked. */
    constructor (level: nat, windowBits: nat, memLevel: nat, strategy: Strategy)
      requires level <= 9 && 8 <= windowBits <= 15 && 1 <= memLevel <= MAX_MEM_LEVEL
      ensures Valid() && !finished && Text() == [] && input == [] && Sent() == []
      ensures wBits == (if windowBits == 8 then 9 else windowBits)
      ensures this.level == level && this.strategy == strategy
    {
      this.level := level;
      this.strategy := strategy;
      var bits := if windowBits == 8 then 9 else windowBits;
      wBits := bits;
      wSize := Pow2(bits);
      hashBits := memLevel + 7;
      litBufsize := Pow2(memLevel + 6);
      var c := ConfigFor(level);
      goodMatch, maxLazyMatch, niceMatch, maxChainLength := c.good, c.lazy, c.nice, c.chain;
      window := new byte[2 * Pow2(bits)];
      prev := new Pos[Pow2(bits)];
      head := new Pos[Pow2(memLevel + 7)](_ => NIL);
      dBuf := new Ush[Pow2(memLevel + 6)];
      lBuf := new byte[Pow2(memLevel + 6)];
      highWater, lastLit, insH := 0, 0, 0;
      strstart, blockStart, lookahead, insert := 0, 0, 0, 0;
      matchLength, prevLength, matchAvailable := MIN_MATCH - 1, MIN_MATCH - 1, false;
      matchStart, prevMatch := 0, 0;
      input, availOut, finished, lastFlush := [], 0, false, 0;
      stream, base, dataEnd, filed, matchPos, tally, blocks := [], 0, 0, {}, 0, [], [];
      past, pastBlocks := [], [];
      new;
      InitParams();
      Pow2Monotone(7, memLevel + 6);
      assert Pow2(7) == 128;
      NoBlocks();
      BlankIsRunning();
    }

    lemma InitParams()
      requires 9 <= wBits <= 15 && wSize == Pow2(wBits)
      ensures 512 <= wSize <= 0x8000
    {
      Pow2Monotone(9, wBits);
      Pow2Monotone(wBits, 15);
      assert Pow2(9) == 512 && Pow2(15) == 0x8000;
    }

    /** An empty window with empty chains and nothing tallied. */
    ghost predicate Blank()
      reads this, head
    {
      && level <= 9 && strstart == blockStart == lookahead == insert == dataEnd == 0 && filed == {}
      && highWater <= window.Length && base == 0 && stream == [] && blocks == []
      && (forall k :: 0 <= k < head.Length ==> head[k] == NIL)
      && (Func() != Stored ==> lastLit == 0 && tally == [])
      && (Func() == Fast ==> matchLength < MIN_MATCH && prevLength == MIN_MATCH - 1)
      && (Func() == Slow ==> !matchAvailable && matchLength == MIN_MATCH - 1)
    }

    lemma BlankIsRunning()
      requires Params() && Blank()
      ensures Running()
    {
      NoBlocks();
      assert stream[..base] == [];
      assert TheChains().Ok();
      if Func() != Stored { assert Pending(blocks, tally, stream, base, base); }
    }

    lemma AllSent()
      requires Ready(base + strstart) && tally == [] && lookahead == 0
      ensures Delivered()
    {
      assert base + dataEnd == |stream| && stream[..base + blockStart] == stream[..base + strstart] == stream;
    }

    lemma AllStored()
      requires StoredOk() && blockStart == strstart && lookahead == 0
      ensures Delivered()
    {
      assert base + dataEnd == |stream| && stream[..base + blockStart] == stream;
    }

    /** What a full flush may rely on: nothing undecided, nothing untallied. */
    ghost predicate Settled()
      reads this`matchAvailable, this`tally
    {
      && level <= 9
      && (Func() == Slow ==> !matchAvailable)
      && (Func() != Stored ==> tally == [])
    }

    /** The compress function of the level, or the one the strategy asks for. */
    method Compress(flush: Flush) returns (st: BlockState)
      requires Running()
      modifies this`insH, this`strstart, this`lookahead, this`insert, this`blockStart, this`matchLength,
               this`prevLength, this`matchStart, this`prevMatch, this`matchAvailable, this`highWater, this`lastLit,
               this`input, this`availOut, this`stream, this`base, this`dataEnd, this`filed, this`matchPos,
               this`tally, this`blocks, window, head, prev, dBuf, lBuf
      ensures Running() && Conserved() && old(blocks) <= blocks
      ensures st.NeedMore? ==> availOut == 0 || (flush.NoFlush? && input == [])
      ensures flush.NoFlush? ==> st.NeedMore?
      ensures !st.NeedMore? ==> input == [] && Delivered() && Settled()
      ensures st.FinishStarted? || st.FinishDone? ==> flush.Finish?
      ensures st.FinishStarted? ==> availOut == 0
      ensures st.BlockDone? ==> !flush.Finish?
    {
      hide StoredOk, Ready, Rolling, LazyOk, Delivered;
      match Func()
      case Stored =>
        st := DeflateStored(flush);
        if !st.NeedMore? { AllStored(); }
      case Fast =>
        st := DeflateFast(flush);
        if !st.NeedMore? { AllSent(); }
      case Slow =>
        st := DeflateSlow(flush);
        if !st.NeedMore? { AllSent(); }
      case RunLengths =>
        st := DeflateRle(flush);
        if !st.NeedMore? { AllSent(); }
      case Huffman =>
        st := DeflateHuff(flush);
        if !st.NeedMore? { AllSent(); }
    }

    method MarkStored(ghost mark: Block)
      requires StoredOk() && (mark == STORED_MARK || mark == ALIGN_MARK)
      modifies this`blocks
      ensures StoredOk() && blocks == old(blocks) + [mark]
    {
      assert base + blockStart <= base + dataEnd == |stream| && MaxBlockSize() >= 0;
      StoredMark(blocks, stream[..base + blockStart], mark, MaxBlockSize());
      hide TextOk, StoredWithin, DecodeTo;
      blocks := blocks + [mark];
    }

    method MarkCoded(ghost mark: Block, ghost n: int)
      requires Ready(n) && (mark == STORED_MARK || mark == ALIGN_MARK)
      modifies this`blocks
      ensures Ready(n) && blocks == old(blocks) + [mark]
    {
      PendingMark(blocks, tally, stream, base + blockStart, n, mark, MaxDist());
      hide TextOk, Pending, BlocksInRange, TokensInRange, Buffered;
      blocks := blocks + [mark];
    }

    /** An empty block marks the end of a flush. */
    method SendMark(ghost mark: Block)
      requires Running() && Delivered() && (mark == STORED_MARK || mark == ALIGN_MARK)
      modifies this`blocks
      ensures Running() && Delivered() && blocks == old(blocks) + [mark]
    {
      hide StoredOk, Ready, Rolling, LazyOk, DecodeTo;
      AppendMark(blocks, mark, stream);
      match Func()
      case Stored => MarkStored(mark);
      case Fast => MarkCoded(mark, base + strstart);
      case Slow => MarkCoded(mark, base + strstart - Lag());
      case RunLengths => MarkCoded(mark, base + strstart);
      case Huffman => MarkCoded(mark, base + strstart);
    }

    /** Z_FULL_FLUSH: CLEAR_HASH and, with nothing ahead, start over at window
        index 0.  prev[] keeps its old links; none is reachable any more.  What
        follows no longer refers to what was before. */
    method ForgetHistory()
      requires PastOk() && Running() && Delivered() && Settled()
      modifies this`strstart, this`blockStart, this`insert, this`base, this`dataEnd, this`filed,
               this`stream, this`blocks, this`past, this`pastBlocks, head
      ensures PastOk() && Running() && Delivered() && stream == [] && blocks == []
      ensures past == old(Text()) && pastBlocks == old(Sent())
      ensures Restart(|old(pastBlocks)|, |old(past)|)
    {
      hide Running, DecodeTo, BlocksInRange, Params, RestartsAt, PastOk, Blank;
      BlankFacts();
      ToPast();
      ClearHash();
      BlankIsRunning();
      NoBlocks();
    }

    /** What has been sent is past. */
    ghost method ToPast()
      requires PastOk() && DecodeTo(blocks, stream) && BlocksInRange(blocks, MaxDist())
      modifies this`stream, this`blocks, this`past, this`pastBlocks
      ensures PastOk() && stream == [] && blocks == [] && past == old(Text()) && pastBlocks == old(Sent())
      ensures Restart(|old(pastBlocks)|, |old(past)|)
    {
      hide DecodeTo, BlocksInRange, RestartsAt;
      JoinBlocks(pastBlocks, past, blocks, stream);
      JoinInRange(pastBlocks, blocks, MaxDist());
      RestartsAtEnd(pastBlocks, past);
      RestartGrows(pastBlocks, past, blocks, stream, |pastBlocks|, |past|);
      past, pastBlocks := past + stream, pastBlocks + blocks;
      stream, blocks := [], [];
    }

    /** CLEAR_HASH, and back to the start of the window. */
    method ClearHash()
      requires Clearable() && stream == [] && blocks == []
      modifies this`strstart, this`blockStart, this`insert, this`base, this`dataEnd, this`filed, head
      ensures Blank()
    {
      forall k | 0 <= k < head.Length { head[k] := NIL; }
      if lookahead == 0 {
        strstart, blockStart, insert := 0, 0, 0;
      }
      base, dataEnd, filed := 0, 0, {};
    }

    /** Nothing is ahead, undecided or untallied. */
    ghost predicate Clearable()
      reads this`lookahead, this`highWater, this`lastLit, this`tally, this`matchLength, this`prevLength, this`matchAvailable
    {
      && level <= 9 && lookahead == 0 && highWater <= window.Length
      && (Func() != Stored ==> lastLit == 0 && tally == [])
      && (Func() == Fast ==> matchLength < MIN_MATCH && prevLength == MIN_MATCH - 1)
      && (Func() == Slow ==> !matchAvailable && matchLength == MIN_MATCH - 1)
    }

    lemma BlankFacts()
      requires Running() && Delivered() && Settled()
      ensures Params() && Clearable() && BlocksInRange(blocks, MaxDist()) && DecodeTo(blocks, stream)
    {
      if Func() == Stored { StoredInRange(); }
    }

    /** The marker and, for Z_FULL_FLUSH, the loss of history after a completed block. */
    method AfterBlock(flush: Flush)
      requires PastOk() && Running() && Delivered() && Settled() && !flush.NoFlush? && !flush.Finish?
      modifies this`strstart, this`blockStart, this`insert, this`base, this`dataEnd, this`filed, this`blocks,
               this`stream, this`past, this`pastBlocks, this`availOut, head
      ensures PastOk() && Running() && Delivered() && Text() == old(Text()) && Sent() == old(Sent()) + MarkOf(flush)
      ensures old(past) <= past && old(pastBlocks) <= pastBlocks && Restart(|old(pastBlocks)|, |old(past)|)
      ensures flush.FullFlush? ==> past == Text() && pastBlocks == Sent()
    {
      hide PastOk, Running, Delivered, RestartsAt;
      RestartsAtEnd(pastBlocks, past);
      if flush.PartialFlush? {
        SendMark(ALIGN_MARK);
      } else if !flush.BlockFlush? {
        SendMark(STORED_MARK);
        if flush.FullFlush? { ForgetHistory(); }
      }
      FlushPending();
    }

    /** Compresses, then does what the flush asks for; `stop` ends the call. */
    method CompressCall(flush: Flush) returns (stop: bool)
      requires PastOk() && Running() && !finished
      modifies this, window, head, prev, dBuf, lBuf
      ensures PastOk() && Running()
      ensures Text() + input == old(Text() + input) && old(Text()) <= Text() && old(Sent()) <= Sent()
      ensures old(past) <= past && old(pastBlocks) <= pastBlocks && Restart(|old(pastBlocks)|, |old(past)|)
      ensures stop ==> availOut == 0 || (flush.NoFlush? && input == [])
      ensures !stop ==> !flush.NoFlush? && input == [] && Delivered() && finished == flush.Finish?
      ensures !stop && !flush.Finish? ==> EndsWith(Sent(), MarkOf(flush))
      ensures !stop && flush.FullFlush? ==> past == Text() && pastBlocks == Sent()
      ensures finished ==> flush.Finish? && input == [] && Delivered()
    {
      hide PastOk, Running, Delivered, Settled, RestartsAt;
      RestartsAtEnd(pastBlocks, past);
      var st := Compress(flush);
      assert Text() + input == past + (stream + input) == old(past + (stream + input)) == old(Text() + input);
      assert old(Text()) <= Text() && old(Sent()) <= Sent();
      if st.FinishStarted? || st.FinishDone? { finished := true; }
      if st.NeedMore? || st.FinishStarted? {
        if availOut == 0 { lastFlush := -1; }
        return true;
      }
      if st.BlockDone? {
        AfterBlock(flush);
        if availOut == 0 {
          lastFlush := -1;
          return true;
        }
      }
      return false;
    }

    /** Nothing is lost: text and unread input together stay the same, text and
        blocks only grow, and where decoding could start over it still can. */
    twostate predicate Whole()
      reads this`past, this`stream, this`input, this`pastBlocks, this`blocks
    {
      && Text() + input == old(Text() + input) && old(Text()) <= Text() && old(Sent()) <= Sent()
      && KeepsRestarts(old(pastBlocks), old(past), pastBlocks, past)
    }

    /** deflate for a raw stream.  What the block writer still holds is not
        modelled, so whether anything is pending on entry is arbitrary. */
    method Deflate(flush: Flush) returns (ret: Status)
      requires Valid()
      modifies this, window, head, prev, dBuf, lBuf
      ensures Valid() && Whole()
      ensures ret == StreamEnd ==> flush.Finish? && finished && input == [] && DecodeTo(Sent(), Text())
      ensures ret == Ok && availOut > 0 ==> input == [] && (!flush.NoFlush? ==> DecodeTo(Sent(), Text()))
      ensures ret == Ok && availOut > 0 && !flush.NoFlush? ==> EndsWith(Sent(), MarkOf(flush))
      ensures ret == Ok && availOut > 0 && flush.FullFlush? ==> Restart(|Sent()|, |Text()|)
      ensures flush.Finish? && availOut > 0 && !(old(finished) && old(input) != []) ==> ret == StreamEnd
      ensures old(finished) ==> finished && Sent() == old(Sent()) && Text() == old(Text())
      ensures finished && !old(finished) ==> flush.Finish? && input == []
      ensures ret == StreamError <==> old(finished) && !flush.Finish?
      ensures ret == BufError ==> old(availOut) == 0 || (old(finished) && old(input) != [])
                                  || (old(input) == [] && !flush.Finish? && Rank(Code(flush)) <= Rank(old(lastFlush)))
      ensures ret == StreamError || ret == BufError ==> Text() == old(Text()) && input == old(input) && Sent() == old(Sent())
    {
      hide Running, DecodeTo, Settled, RestartsAt, EndsWith;
      if finished && !flush.Finish? { return StreamError; }
      if availOut == 0 { return BufError; }
      var oldFlush := lastFlush;
      lastFlush := Code(flush);
      var pending: bool := *;
      if pending {
        FlushPending();
        if availOut == 0 {
          lastFlush := -1;
          return Ok;
        }
      } else if input == [] && Rank(Code(flush)) <= Rank(oldFlush) && !flush.Finish? {
        return BufError;
      }
      if finished && input != [] { return BufError; }
      if input != [] || lookahead != 0 || (!flush.NoFlush? && !finished) {
        ghost var bs, t := pastBlocks, past;
        var stop := CompressCall(flush);
        RestartsKept(bs, t, pastBlocks, past);
        if stop { return Ok; }
      }
      AllDelivered();
      if !flush.Finish? { return Ok; }
      return StreamEnd;
    }

    lemma AllDelivered()
      requires PastOk()
      ensures Delivered() ==> DecodeTo(Sent(), Text())
      ensures past == Text() && pastBlocks == Sent() ==> Restart(|Sent()|, |Text()|)
    {
      if Delivered() { JoinBlocks(pastBlocks, past, blocks, stream); }
      RestartsAtEnd(pastBlocks, past);
    }

    /** At every moment the blocks sent decode to a prefix of the input, in
        whichever form each was sent, and no distance exceeds w_size - 262. */
    lemma SentIsPrefix()
      requires Valid()
      ensures 0 <= Covered() <= |Text()| && DecodeTo(Sent(), Text()[..Covered()])
      ensures BlocksInRange(Sent(), MaxDist())
    {
      hide Running, DecodeTo, BlocksInRange;
      LatestIsPrefix();
      JoinBlocks(pastBlocks, past, blocks, stream[..base + blockStart]);
      JoinInRange(pastBlocks, blocks, MaxDist());
      assert Text()[..Covered()] == past + stream[..base + blockStart];
    }

    /** The same since the last full flush. */
    lemma LatestIsPrefix()
      requires Running()
      ensures 0 <= base + blockStart <= |stream| && DecodeTo(blocks, stream[..base + blockStart])
      ensures BlocksInRange(blocks, MaxDist())
    {
      hide StoredWithin, DecodeTo, Rolling, LazyOk;
      match Func()
      case Stored => StoredInRange();
      case Fast =>
      case Slow =>
      case RunLengths =>
      case Huffman =>
    }

    /** Decoding can start over behind every full flush, whatever has been sent since. */
    lemma RestartDecodes(k: nat, n: nat)
      requires Valid() && Restart(k, n)
      ensures k <= |Sent()| && n <= Covered() <= |Text()|
      ensures DecodeTo(Sent()[k..], Text()[n..Covered()])
    {
      hide Running, DecodeTo;
      LatestIsPrefix();
      RestartGrows(pastBlocks, past, blocks, stream[..base + blockStart], k, n);
      assert Text()[n..Covered()] == (past + stream[..base + blockStart])[n..];
    }

    lemma StoredInRange()
      requires StoredOk()
      ensures BlocksInRange(blocks, MaxDist()) && base + blockStart <= |stream|
    {
      assert base + dataEnd == |stream|;
    }
  }

  /** The empty block that a flush ends with. */
  function MarkOf(flush: Flush): seq<Block> {
    match flush
    case PartialFlush => [ALIGN_MARK]
    case SyncFlush => [STORED_MARK]
    case FullFlush => [STORED_MARK]
    case _ => []
  }

  predicate EndsWith(bs: seq<Block>, cs: seq<Block>) {
    |cs| <= |bs| && bs[|bs| - |cs|..] == cs
  }

  /** One call of deflate: more input appended to next_in, a new output buffer. */
  datatype Call = Call(more: seq<byte>, room: nat, flush: Flush)

  function InputOf(calls: seq<Call>): seq<byte> {
    if calls == [] then [] else InputOf(calls[..|calls| - 1]) + calls[|calls| - 1].more
  }

  /** One call with its new input and output space. */
  method Feed(s: DeflateState, call: Call, ghost before: seq<byte>) returns (ret: Status)
    requires s.Valid() && s.Text() + s.input == before
    modifies s, s.window, s.head, s.prev, s.dBuf, s.lBuf
    ensures s.Valid() && s.Text() + s.input == before + call.more
    ensures KeepsRestarts(old(s.pastBlocks), old(s.past), s.pastBlocks, s.past)
    ensures ret == StreamEnd ==> s.Text() == before + call.more && DecodeTo(s.Sent(), before + call.more)
    ensures call.flush.FullFlush? && ret == Ok && s.availOut > 0 ==> s.Restart(|s.Sent()|, |before + call.more|)
    ensures call.flush.Finish? && s.availOut > 0 && !(old(s.finished) && old(s.input) + call.more != []) ==> ret == StreamEnd
    ensures old(s.finished) ==> s.finished && s.input == old(s.input) + call.more
    ensures s.finished && !old(s.finished) ==> call.flush.Finish? && s.input == []
  {
    hide DeflateState.Valid, DecodeTo, RestartsAt;
    s.input := s.input + call.more;
    s.availOut := call.room;
    assert s.Text() + s.input == before + call.more;
    ghost var fed := s.input;
    ret := s.Deflate(call.flush);
    assert old(s.finished) ==> s.input == (s.Text() + s.input)[|s.Text()|..] == (old(s.Text()) + fed)[|s.Text()|..] == fed;
    if s.input == [] { assert s.Text() + s.input == s.Text(); }
  }

  /** No input is given once Z_FINISH was asked for. */
  predicate NoneAfterFinish(calls: seq<Call>) {
    forall i, j :: 0 <= i < j < |calls| && calls[i].flush.Finish? ==> calls[j].more == []
  }

  /** What a call returns and the output space it leaves. */
  datatype Answer = Answer(ret: Status, left: nat)

  /** The call was a full flush, and it got through. */
  predicate Flushed(call: Call, answer: Answer) {
    call.flush.FullFlush? && answer.ret == Ok && answer.left > 0
  }

  /** Decoding can start over behind every full flush among the calls; `sent` counts
      the blocks after each call. */
  ghost predicate Restarts(bs: seq<Block>, t: seq<byte>, calls: seq<Call>, answers: seq<Answer>, sent: seq<nat>)
    requires |answers| == |sent| == |calls|
  {
    forall j :: 0 <= j < |calls| && Flushed(calls[j], answers[j]) ==> RestartsAt(bs, t, sent[j], |InputOf(calls[..j + 1])|)
  }

  lemma RestartsNext(bs: seq<Block>, t: seq<byte>, bs': seq<Block>, t': seq<byte>, calls: seq<Call>,
                     answers: seq<Answer>, sent: seq<nat>, call: Call, answer: Answer, count: nat)
    requires |answers| == |sent| == |calls| && Restarts(bs, t, calls, answers, sent)
    requires KeepsRestarts(bs, t, bs', t')
    requires Flushed(call, answer) ==> RestartsAt(bs', t', count, |InputOf(calls + [call])|)
    ensures Restarts(bs', t', calls + [call], answers + [answer], sent + [count])
  {
    hide RestartsAt, Flushed, InputOf;
    var all := calls + [call];
    assert all[..|calls| + 1] == all;
    forall j | 0 <= j < |all| && Flushed(all[j], (answers + [answer])[j])
      ensures RestartsAt(bs', t', (sent + [count])[j], |InputOf(all[..j + 1])|)
    {
      if j < |calls| { assert all[..j + 1] == calls[..j + 1]; }
    }
  }

  /** Where these calls have led, but for the flushes. */
  ghost predicate Served(s: DeflateState, calls: seq<Call>, answers: seq<Answer>)
    requires |answers| == |calls|
    reads s
  {
    && s.Text() + s.input == InputOf(calls)
    && (s.finished ==> exists k :: 0 <= k < |calls| && calls[k].flush.Finish?)
    && (s.finished && NoneAfterFinish(calls) ==> s.input == [])
    && (calls != [] ==> LastServed(s, calls, answers[|calls| - 1]))
  }

  ghost predicate LastServed(s: DeflateState, calls: seq<Call>, last: Answer)
    requires calls != []
    reads s
  {
    && (last.ret == StreamEnd ==> s.Text() == InputOf(calls) && DecodeTo(s.Sent(), InputOf(calls)))
    && (calls[|calls| - 1].flush.Finish? && NoneAfterFinish(calls) && last.left > 0 ==> last.ret == StreamEnd)
  }

  lemma AddCall(calls: seq<Call>, call: Call)
    ensures InputOf(calls + [call]) == InputOf(calls) + call.more
    ensures NoneAfterFinish(calls + [call]) ==> NoneAfterFinish(calls)
    ensures NoneAfterFinish(calls + [call]) && call.more != [] ==> forall k :: 0 <= k < |calls| ==> !calls[k].flush.Finish?
  {
    var all := calls + [call];
    assert all[..|calls|] == calls;
    assert forall k :: 0 <= k < |calls| ==> calls[k] == all[k];
  }

  method OneMore(s: DeflateState, calls: seq<Call>, call: Call, answers: seq<Answer>, ghost sent: seq<nat>)
    returns (answer: Answer, ghost count: nat)
    requires s.Valid() && |answers| == |sent| == |calls| && Served(s, calls, answers)
    requires Restarts(s.pastBlocks, s.past, calls, answers, sent)
    modifies s, s.window, s.head, s.prev, s.dBuf, s.lBuf
    ensures s.Valid() && Served(s, calls + [call], answers + [answer])
    ensures Restarts(s.pastBlocks, s.past, calls + [call], answers + [answer], sent + [count])
  {
    hide DeflateState.Valid, DecodeTo, RestartsAt, Restarts, InputOf, NoneAfterFinish, KeepsRestarts;
    AddCall(calls, call);
    ghost var bs, t := s.pastBlocks, s.past;
    var ret := Feed(s, call, InputOf(calls));
    answer, count := Answer(ret, s.availOut), |s.Sent()|;
    ghost var all := calls + [call];
    assert all[|calls|] == call;
    if s.finished && !old(s.finished) { assert all[|calls|].flush.Finish?; }
    if old(s.finished) {
      ghost var k :| 0 <= k < |calls| && calls[k].flush.Finish?;
      assert all[k].flush.Finish?;
    }
    assert s.finished && NoneAfterFinish(all) ==> s.input == [];
    assert LastServed(s, all, answer);
    RestartsNext(bs, t, s.pastBlocks, s.past, calls, answers, sent, call, answer, count);
  }

  /** Any sequence of calls, cutting input and output space anywhere: nothing
      is lost or reordered, and when the stream ends the blocks decode to the
      whole input.  A call with Z_FINISH that leaves output space ends the stream.
      Behind every full flush decoding can start over: the blocks sent after it
      decode by themselves to the input given after it. */
  method Session(s: DeflateState, calls: seq<Call>) returns (answers: seq<Answer>, ghost sent: seq<nat>)
    requires s.Valid() && s.Text() == [] && s.input == [] && !s.finished
    modifies s, s.window, s.head, s.prev, s.dBuf, s.lBuf
    ensures s.Valid() && s.Text() + s.input == InputOf(calls) && |answers| == |sent| == |calls|
    ensures calls != [] && answers[|calls| - 1].ret == StreamEnd ==> s.Text() == InputOf(calls) && DecodeTo(s.Sent(), InputOf(calls))
    ensures calls != [] && calls[|calls| - 1].flush.Finish? && NoneAfterFinish(calls) && answers[|calls| - 1].left > 0 ==>
              answers[|calls| - 1].ret == StreamEnd
    ensures Restarts(s.pastBlocks, s.past, calls, answers, sent)
  {
    hide DeflateState.Valid, DecodeTo, RestartsAt, Restarts, NoneAfterFinish;
    answers, sent := [], [];
    NoCalls(s);
    var i := 0;
    while i < |calls|
      invariant 0 <= i <= |calls| && s.Valid() && |answers| == |sent| == i && Served(s, calls[..i], answers)
      invariant Restarts(s.pastBlocks, s.past, calls[..i], answers, sent)
    {
      hide Served;
      assert calls[..i + 1] == calls[..i] + [calls[i]];
      ghost var count;
      var answer;
      answer, count := OneMore(s, calls[..i], calls[i], answers, sent);
      answers, sent := answers + [answer], sent + [count];
      i := i + 1;
    }
    assert calls[..|calls|] == calls;
  }

  lemma NoCalls(s: DeflateState)
    requires s.Text() == [] && s.input == [] && !s.finished
    ensures Served(s, [], []) && Restarts(s.pastBlocks, s.past, [], [], [])
  {
  }

  /** What that means once the stream has ended. */
  lemma RestartEnds(s: DeflateState, input: seq<byte>, k: nat, n: nat)
    requires s.Valid() && s.Restart(k, n) && s.Text() == input && DecodeTo(s.Sent(), input)
    ensures k <= |s.Sent()| && n <= |input| && DecodeTo(s.Sent()[k..], input[n..])
  {
    s.RestartDecodes(k, n);
    s.SentIsPrefix();
    DecodesOnce(s.Sent(), input, input[..s.Covered()]);
    hide DeflateState.Valid, DecodeTo;
  }

  lemma DecodesOnce(bs: seq<Block>, s: seq<byte>, t: seq<byte>)
    requires DecodeTo(bs, s) && DecodeTo(bs, t)
    ensures s == t
  {
    var st := seq(|bs|, _ => true);
    assert DecodeBlocks(bs, st) == Some(s) && DecodeBlocks(bs, st) == Some(t);
  }
}
