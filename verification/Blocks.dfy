/** Blocks as deflate.c hands them to the block writer: the tokens of the
    block and, while they are still in the window, the bytes they stand for.
    The writer is free to send either (trees.c chooses by size). */
module Blocks {
  import opened Lz77

  /** `tokens` is None for the level-0 and marker blocks, which can only be stored. */
  datatype Block = Block(tokens: Option<seq<Token>>, raw: Option<seq<byte>>)

  function DecodeBlock(h: seq<byte>, b: Block, stored: bool): Option<seq<byte>> {
    if b.raw.Some? && (stored || b.tokens.None?) then Some(h + b.raw.value)
    else if b.tokens.Some? then Expand(h, b.tokens.value)
    else None
  }

  function DecodeBlocks(bs: seq<Block>, stored: seq<bool>): Option<seq<byte>>
    requires |bs| == |stored|
  {
    if bs == [] then Some([]) else
      match DecodeBlocks(bs[..|bs| - 1], stored[..|bs| - 1])
      case None => None
      case Some(h) => DecodeBlock(h, bs[|bs| - 1], stored[|bs| - 1])
  }

  /** Whatever form the writer picks block by block, the decoder gets `s`. */
  ghost predicate DecodeTo(bs: seq<Block>, s: seq<byte>) {
    forall stored: seq<bool> :: |stored| == |bs| ==> DecodeBlocks(bs, stored) == Some(s)
  }

  lemma NoBlocks()
    ensures DecodeTo([], [])
  {
  }

  /** Pending tokens continue from stream position a to position n. */
  ghost predicate Pending(bs: seq<Block>, tally: seq<Token>, stream: seq<byte>, a: int, n: int) {
    && 0 <= a <= n <= |stream|
    && DecodeTo(bs, stream[..a])
    && Expand(stream[..a], tally) == Some(stream[..n])
  }

  lemma AppendBlock(bs: seq<Block>, b: Block, s: seq<byte>, t: seq<byte>)
    requires DecodeTo(bs, s)
    requires b.tokens.Some? ==> Expand(s, b.tokens.value) == Some(t)
    requires b.raw.Some? ==> s + b.raw.value == t
    requires b.tokens.Some? || b.raw.Some?
    ensures DecodeTo(bs + [b], t)
  {
    forall stored: seq<bool> | |stored| == |bs| + 1
      ensures DecodeBlocks(bs + [b], stored) == Some(t)
    {
      assert (bs + [b])[..|bs|] == bs;
      assert DecodeBlocks(bs, stored[..|bs|]) == Some(s);
    }
  }

  /** What an entry of d_buf and l_buf means: distance 0 marks a literal, lengths are
      stored less MIN_MATCH. */
  function TokenOf(d: Ush, l: byte): Token {
    if d == 0 then Literal(l) else Match(d, l + MIN_MATCH)
  }

  /** The first n entries of the two buffers are the tallied tokens. */
  ghost predicate Buffered(d: seq<Ush>, l: seq<byte>, n: nat, tally: seq<Token>) {
    && |tally| == n <= |d| == |l|
    && forall i :: 0 <= i < n ==> TokenOf(d[i], l[i]) == tally[i]
  }

  lemma BufferOne(d: seq<Ush>, l: seq<byte>, n: nat, tally: seq<Token>, dv: Ush, lv: byte, maxDist: int)
    requires Buffered(d, l, n, tally) && n < |d| && TokensInRange(tally, maxDist)
    requires TokenInRange(TokenOf(dv, lv), maxDist)
    ensures var tally' := tally + [TokenOf(dv, lv)];
            Buffered(d[n := dv], l[n := lv], n + 1, tally') && TokensInRange(tally', maxDist)
  {
  }

  /** Every token sent respects the limits of the format and the window. */
  ghost predicate BlocksInRange(bs: seq<Block>, maxDist: int) {
    forall i :: 0 <= i < |bs| && bs[i].tokens.Some? ==> TokensInRange(bs[i].tokens.value, maxDist)
  }

  lemma PendingLiteral(bs: seq<Block>, tally: seq<Token>, stream: seq<byte>, a: int, n: int)
    requires Pending(bs, tally, stream, a, n) && n < |stream|
    ensures Pending(bs, tally + [Literal(stream[n])], stream, a, n + 1)
  {
    LiteralExtends(stream[..a], tally, stream, n);
  }

  lemma PendingMatch(bs: seq<Block>, tally: seq<Token>, stream: seq<byte>, a: int, n: int, dist: nat, len: nat)
    requires Pending(bs, tally, stream, a, n) && Repeats(stream, n, dist, len)
    ensures Pending(bs, tally + [Match(dist, len)], stream, a, n + len)
  {
    MatchExtends(stream[..a], tally, stream, n, dist, len);
  }

  lemma PendingFlush(bs: seq<Block>, tally: seq<Token>, stream: seq<byte>, a: int, n: int, b: Block)
    requires Pending(bs, tally, stream, a, n)
    requires b.tokens == Some(tally) && (b.raw.Some? ==> b.raw.value == stream[a..n])
    ensures Pending(bs + [b], [], stream, n, n)
  {
    assert stream[..a] + stream[a..n] == stream[..n];
    AppendBlock(bs, b, stream[..a], stream[..n]);
  }

  lemma PendingGrows(bs: seq<Block>, tally: seq<Token>, stream: seq<byte>, stream': seq<byte>, a: int, n: int)
    requires Pending(bs, tally, stream, a, n) && stream <= stream'
    ensures Pending(bs, tally, stream', a, n)
  {
    assert stream'[..a] == stream[..a] && stream'[..n] == stream[..n];
  }

  /** The empty blocks that mark a flush: _tr_stored_block(s, 0, 0, 0) and _tr_align. */
  const STORED_MARK := Block(None, Some([]))
  const ALIGN_MARK := Block(Some([]), None)

  /** Stored blocks (and flush marks) only, none longer than `max`. */
  ghost predicate StoredWithin(bs: seq<Block>, max: int) {
    forall i :: 0 <= i < |bs| ==>
      bs[i] == ALIGN_MARK || (bs[i].tokens.None? && bs[i].raw.Some? && |bs[i].raw.value| <= max)
  }

  lemma AppendMark(bs: seq<Block>, b: Block, s: seq<byte>)
    requires DecodeTo(bs, s) && (b == STORED_MARK || b == ALIGN_MARK)
    ensures DecodeTo(bs + [b], s)
  {
    assert s + [] == s;
    AppendBlock(bs, b, s, s);
  }

  lemma StoredExtends(bs: seq<Block>, stream: seq<byte>, a: nat, n: nat, max: int)
    requires a <= n <= |stream| && n - a <= max && StoredWithin(bs, max) && DecodeTo(bs, stream[..a])
    ensures var bs' := bs + [Block(None, Some(stream[a..n]))];
            StoredWithin(bs', max) && DecodeTo(bs', stream[..n])
  {
    assert stream[..a] + stream[a..n] == stream[..n];
    AppendBlock(bs, Block(None, Some(stream[a..n])), stream[..a], stream[..n]);
  }

  lemma PendingMark(bs: seq<Block>, tally: seq<Token>, stream: seq<byte>, a: int, n: int, b: Block, maxDist: int)
    requires Pending(bs, tally, stream, a, n) && BlocksInRange(bs, maxDist)
    requires b == STORED_MARK || b == ALIGN_MARK
    ensures Pending(bs + [b], tally, stream, a, n) && BlocksInRange(bs + [b], maxDist)
  {
    AppendMark(bs, b, stream[..a]);
  }

  lemma StoredMark(bs: seq<Block>, s: seq<byte>, b: Block, max: int)
    requires StoredWithin(bs, max) && DecodeTo(bs, s) && max >= 0
    requires b == STORED_MARK || b == ALIGN_MARK
    ensures StoredWithin(bs + [b], max) && DecodeTo(bs + [b], s)
  {
    AppendMark(bs, b, s);
  }

  // ---- starting over ----

  lemma BlockBehind(g: seq<byte>, h: seq<byte>, b: Block, stored: bool)
    requires DecodeBlock(h, b, stored).Some?
    ensures DecodeBlock(g + h, b, stored) == Some(g + DecodeBlock(h, b, stored).value)
  {
    if b.raw.Some? && (stored || b.tokens.None?) {
      assert g + h + b.raw.value == g + (h + b.raw.value);
    } else {
      ExpandBehind(g, h, b.tokens.value);
    }
  }

  lemma {:induction false} BlocksBehind(bs: seq<Block>, st: seq<bool>, cs: seq<Block>, su: seq<bool>)
    requires |bs| == |st| && |cs| == |su| && DecodeBlocks(bs, st).Some? && DecodeBlocks(cs, su).Some?
    ensures DecodeBlocks(bs + cs, st + su) == Some(DecodeBlocks(bs, st).value + DecodeBlocks(cs, su).value)
    decreases |cs|
  {
    if cs == [] {
      assert bs + cs == bs && st + su == st && DecodeBlocks(bs, st).value + [] == DecodeBlocks(bs, st).value;
    } else {
      var n := |cs| - 1;
      BlocksBehind(bs, st, cs[..n], su[..n]);
      assert (bs + cs)[..|bs| + n] == bs + cs[..n] && (st + su)[..|st| + n] == st + su[..n];
      BlockBehind(DecodeBlocks(bs, st).value, DecodeBlocks(cs[..n], su[..n]).value, cs[n], su[n]);
    }
  }

  /** Blocks that decode by themselves decode to the same behind any others. */
  lemma JoinBlocks(bs: seq<Block>, s: seq<byte>, cs: seq<Block>, t: seq<byte>)
    requires DecodeTo(bs, s) && DecodeTo(cs, t)
    ensures DecodeTo(bs + cs, s + t)
  {
    forall st: seq<bool> | |st| == |bs + cs| ensures DecodeBlocks(bs + cs, st) == Some(s + t) {
      assert DecodeBlocks(bs, st[..|bs|]) == Some(s) && DecodeBlocks(cs, st[|bs|..]) == Some(t);
      BlocksBehind(bs, st[..|bs|], cs, st[|bs|..]);
      assert st[..|bs|] + st[|bs|..] == st;
    }
  }

  /** The blocks from the k-th on decode, from an empty history, to s from n on. */
  ghost predicate RestartsAt(bs: seq<Block>, s: seq<byte>, k: nat, n: nat) {
    k <= |bs| && n <= |s| && DecodeTo(bs[k..], s[n..])
  }

  lemma RestartGrows(bs: seq<Block>, s: seq<byte>, cs: seq<Block>, t: seq<byte>, k: nat, n: nat)
    requires RestartsAt(bs, s, k, n) && DecodeTo(cs, t)
    ensures RestartsAt(bs + cs, s + t, k, n)
  {
    JoinBlocks(bs[k..], s[n..], cs, t);
    hide DecodeTo;
    assert (bs + cs)[k..] == bs[k..] + cs && (s + t)[n..] == s[n..] + t;
  }

  lemma RestartsAtEnd(bs: seq<Block>, s: seq<byte>)
    ensures RestartsAt(bs, s, |bs|, |s|)
  {
    NoBlocks();
    assert bs[|bs|..] == [] && s[|s|..] == [];
  }

  lemma JoinInRange(bs: seq<Block>, cs: seq<Block>, maxDist: int)
    requires BlocksInRange(bs, maxDist) && BlocksInRange(cs, maxDist)
    ensures BlocksInRange(bs + cs, maxDist)
  {
  }

  /** Where decoding could start over, it still can. */
  ghost predicate KeepsRestarts(bs: seq<Block>, s: seq<byte>, bs': seq<Block>, s': seq<byte>) {
    forall k, n :: RestartsAt(bs, s, k, n) ==> RestartsAt(bs', s', k, n)
  }

  lemma RestartsKept(bs: seq<Block>, s: seq<byte>, bs': seq<Block>, s': seq<byte>)
    requires bs <= bs' && s <= s' && RestartsAt(bs', s', |bs|, |s|)
    ensures KeepsRestarts(bs, s, bs', s')
  {
    hide DecodeTo;
    forall k, n | RestartsAt(bs, s, k, n) ensures RestartsAt(bs', s', k, n) {
      RestartGrows(bs, s, bs'[|bs|..], s'[|s|..], k, n);
      assert bs + bs'[|bs|..] == bs' && s + s'[|s|..] == s';
    }
  }
}
