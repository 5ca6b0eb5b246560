/** Deflate and inflate together: the blocks that the compressor hands to the block
    writer, written as bits in any way that RFC 1951 allows, are what the
    decompressor turns back into the input. */
module RoundTrip {
  import opened Lz77
  import opened Binary
  import opened BitSource
  import opened CodeTables
  import opened InflateSpec
  import opened Blocks
  import opened BlockFormat
  import opened FormatRead
  import Inflate
  import Deflate

  // ---- the writer's choices ----

  /** The block is written in this form: as its bytes, if it still has them, or as its tokens. */
  predicate FormOf(w: Written, b: Block) {
    if w.StoredBlock? then b.raw == Some(w.raw) else b.tokens == Some(w.tokens)
  }

  predicate FormsOf(ws: seq<Written>, bs: seq<Block>) {
    |ws| == |bs| && forall i :: 0 <= i < |ws| ==> FormOf(ws[i], bs[i])
  }

  function Choices(ws: seq<Written>): (r: seq<bool>)
    ensures |r| == |ws|
  {
    seq(|ws|, i requires 0 <= i < |ws| => ws[i].StoredBlock?)
  }

  lemma {:induction false} MeaningLast(h: seq<byte>, ws: seq<Written>, w: Written)
    ensures MeaningOf(h, ws + [w]) == if MeaningOf(h, ws).None? then None else Meaning(MeaningOf(h, ws).value, w)
    decreases |ws|
  {
    var all := ws + [w];
    if ws == [] {
      assert all == [w] && all[1..] == [];
    } else {
      assert all[0] == ws[0] && all[1..] == ws[1..] + [w];
      if Meaning(h, ws[0]).Some? { MeaningLast(Meaning(h, ws[0]).value, ws[1..], w); }
    }
  }

  /** Written blocks mean what decoding the blocks in these forms gives. */
  lemma {:induction false} MeaningIsDecode(ws: seq<Written>, bs: seq<Block>)
    requires FormsOf(ws, bs)
    ensures MeaningOf([], ws) == DecodeBlocks(bs, Choices(ws))
    decreases |ws|
  {
    if ws != [] {
      var n := |ws| - 1;
      MeaningIsDecode(ws[..n], bs[..n]);
      assert Choices(ws)[..n] == Choices(ws[..n]) && ws == ws[..n] + [ws[n]];
      MeaningLast([], ws[..n], ws[n]);
      assert FormOf(ws[n], bs[n]);
    }
  }

  lemma FormsNear(ws: seq<Written>, bs: seq<Block>, m: int, maxDist: int)
    requires FormsOf(ws, bs) && BlocksInRange(bs, m) && m <= maxDist
    ensures forall w :: w in ws ==> Near(w, maxDist)
  {
    forall i | 0 <= i < |ws| ensures Near(ws[i], maxDist) {
      assert FormOf(ws[i], bs[i]);
    }
  }

  /** The writing of these blocks is one that a machine with these tables can read. */
  ghost predicate Writes(cfg: Config, ws: seq<Written>, bs: seq<Block>, pos: nat, closed: bool) {
    FormsOf(ws, bs) && StreamOk(ws, pos, closed) && forall w :: w in ws ==> Readable(cfg, w)
  }

  /** At the start of a stream, or behind a full flush. */
  ghost predicate Fresh(cfg: Config, a: State) {
    cfg.tables.Ok() && Wf(a) && a.mode.Type? && !a.last && a.out == []
  }

  /** Blocks that decode to a text by themselves are read back as that text. */
  lemma BlocksInflate(cfg: Config, a: State, bs: seq<Block>, m: int, text: seq<byte>, ws: seq<Written>, pos: nat, closed: bool,
                      rest: seq<bool>, limit: nat) returns (c: State)
    requires Fresh(cfg, a) && DecodeTo(bs, text) && BlocksInRange(bs, m) && m <= cfg.wSize && |text| <= limit
    requires Writes(cfg, ws, bs, pos, closed)
    requires a.bits == AsBits(StreamBits(ws, pos, closed) + rest) && (pos + |StreamBits(ws, pos, closed)| + |rest|) % 8 == 0
    ensures Reaches(cfg, a, c, limit)
    ensures c.mode.Type? && c.last == (closed && ws != []) && c.bits == AsBits(rest) && c.out == text
  {
    hide Wf, Tables.Ok, AsBits, Reaches, Readable, StreamBits, StreamOk, FormsOf, BlocksInRange, MeaningOf, Near;
    FormsNear(ws, bs, m, cfg.wSize);
    MeaningIsDecode(ws, bs);
    DecodedAs(ws, bs, text);
    c := StreamRead(cfg, a, ws, pos, closed, rest, limit);
  }

  lemma DecodedAs(ws: seq<Written>, bs: seq<Block>, text: seq<byte>)
    requires FormsOf(ws, bs) && DecodeTo(bs, text)
    ensures DecodeBlocks(bs, Choices(ws)) == Some(text)
  {
  }

  /** Whatever calls the compressor has had and however its blocks are written, a
      decoder with at least its window size gets the beginning of the input, up to the
      last block, and never a distance too far back. */
  lemma SentInflates(s: Deflate.DeflateState, cfg: Config, a: State, ws: seq<Written>, rest: seq<bool>, limit: nat) returns (c: State)
    requires s.Valid() && Fresh(cfg, a) && s.wSize <= cfg.wSize && Writes(cfg, ws, s.Sent(), 0, false) && |s.Text()| <= limit
    requires a.bits == AsBits(StreamBits(ws, 0, false) + rest) && (|StreamBits(ws, 0, false)| + |rest|) % 8 == 0
    ensures 0 <= s.Covered() <= |s.Text()| && Reaches(cfg, a, c, limit)
    ensures c.mode.Type? && !c.last && c.bits == AsBits(rest) && c.out == s.Text()[..s.Covered()]
  {
    hide Deflate.DeflateState.Valid, Fresh, Writes, DecodeTo, AsBits, StreamBits, Reaches;
    s.SentIsPrefix();
    c := BlocksInflate(cfg, a, s.Sent(), s.MaxDist(), s.Text()[..s.Covered()], ws, 0, false, rest, limit);
  }

  /** After the last call has returned Z_STREAM_END (Deflate.Session), the decoder gets the whole input. */
  lemma WholeInflates(s: Deflate.DeflateState, input: seq<byte>, cfg: Config, a: State, ws: seq<Written>, fill: seq<bool>, limit: nat)
    requires s.Valid() && DecodeTo(s.Sent(), input) && |input| <= limit && ws != []
    requires Fresh(cfg, a) && s.wSize <= cfg.wSize && Writes(cfg, ws, s.Sent(), 0, true)
    requires a.bits == AsBits(StreamBits(ws, 0, true) + fill) && |fill| < 8 && (|StreamBits(ws, 0, true)| + |fill|) % 8 == 0
    ensures cfg.tables.Ok() && Wf(a)
    ensures var r := Run(cfg, a, limit); r.mode.Done? && r.bits == Bits(0, 0) && r.out == input
  {
    hide Deflate.DeflateState.Valid, Writes, DecodeTo, AsBits, StreamBits, Wf, Tables.Ok, Run, Reaches, Bits.Drop;
    s.SentIsPrefix();
    var c := BlocksInflate(cfg, a, s.Sent(), s.MaxDist(), input, ws, 0, true, fill, limit);
    RunsOn(cfg, a, c, limit);
    StreamEnds(cfg, c, limit);
    AllDropped(fill);
  }

  lemma RunsOn(cfg: Config, a: State, c: State, limit: nat)
    requires Reaches(cfg, a, c, limit)
    ensures cfg.tables.Ok() && Wf(a) && Wf(c) && Run(cfg, a, limit) == Run(cfg, c, limit)
  {
    hide Wf, Tables.Ok, Run;
  }

  /** Behind a full flush a new decoder can start: it gets what was read after the flush. */
  lemma RestartInflates(s: Deflate.DeflateState, k: nat, n: nat, cfg: Config, a: State, ws: seq<Written>, closed: bool,
                        rest: seq<bool>, limit: nat) returns (c: State)
    requires s.Valid() && s.Restart(k, n) && k <= |s.Sent()| && |s.Text()| <= limit
    requires Fresh(cfg, a) && s.wSize <= cfg.wSize && Writes(cfg, ws, s.Sent()[k..], 0, closed)
    requires a.bits == AsBits(StreamBits(ws, 0, closed) + rest) && (|StreamBits(ws, 0, closed)| + |rest|) % 8 == 0
    ensures n <= s.Covered() <= |s.Text()| && Reaches(cfg, a, c, limit)
    ensures c.mode.Type? && c.bits == AsBits(rest) && c.out == s.Text()[n..s.Covered()]
  {
    hide Deflate.DeflateState.Valid, Deflate.DeflateState.Restart, Fresh, Writes, DecodeTo, AsBits, StreamBits, Reaches;
    s.RestartDecodes(k, n);
    s.SentIsPrefix();
    TailInRange(s.Sent(), k, s.MaxDist());
    c := BlocksInflate(cfg, a, s.Sent()[k..], s.MaxDist(), s.Text()[n..s.Covered()], ws, 0, closed, rest, limit);
  }

  lemma TailInRange(bs: seq<Block>, k: nat, m: int)
    requires BlocksInRange(bs, m) && k <= |bs|
    ensures BlocksInRange(bs[k..], m)
  {
  }

  /** The bytes of a stream, given to a new decoder in one call with enough room: it
      returns Z_STREAM_END, and the output is the input of the compressor. */
  method Decompress(s: Deflate.DeflateState, ghost input: seq<byte>, t: Tables, windowBits: nat, ghost ws: seq<Written>,
                    ghost fill: seq<bool>, bytes: seq<byte>, output: array<byte>) returns (ret: Inflate.Ret, out: seq<byte>)
    requires t.Ok() && 8 <= windowBits <= 15 && s.Valid() && s.wSize <= Pow2(windowBits)
    requires DecodeTo(s.Sent(), input) && |input| <= output.Length && ws != []
    requires Writes(Config(t, Pow2(windowBits)), ws, s.Sent(), 0, true)
    requires |fill| < 8 && (|StreamBits(ws, 0, true)| + |fill|) % 8 == 0 && bytes == Packed(StreamBits(ws, 0, true) + fill)
    modifies output
    ensures ret == Inflate.StreamEndRet && out == input
  {
    hide *;
    var inf := new Inflate.InflateState(t, windowBits);
    ghost var a := inf.Abs();
    Starts(inf, bytes);
    BytesInflate(s, input, inf.Cfg(), a, ws, fill, bytes, output.Length);
    var written;
    ret, written := inf.Inflate(bytes, output);
    Finished(inf);
    out := output[..written];
    assert [] + out == out;
  }

  /** The state of a new decoder. */
  lemma Starts(inf: Inflate.InflateState, bytes: seq<byte>)
    requires inf.Sound() && inf.far.None? && inf.before == []
    requires inf.Abs().mode.Type? && !inf.Abs().last && inf.Abs().out == []
    ensures Fresh(inf.Cfg(), inf.Abs()) && inf.Cfg() == Config(inf.tables, inf.window.Length)
  {
    inf.SoundGives(bytes);
    hide Inflate.InflateState.Sound, Wf, Tables.Ok;
  }

  lemma BytesInflate(s: Deflate.DeflateState, input: seq<byte>, cfg: Config, a: State, ws: seq<Written>, fill: seq<bool>,
                     bytes: seq<byte>, limit: nat)
    requires s.Valid() && DecodeTo(s.Sent(), input) && |input| <= limit && ws != []
    requires Fresh(cfg, a) && a.bits == Bits(0, 0) && s.wSize <= cfg.wSize && Writes(cfg, ws, s.Sent(), 0, true)
    requires |fill| < 8 && (|StreamBits(ws, 0, true)| + |fill|) % 8 == 0 && bytes == Packed(StreamBits(ws, 0, true) + fill)
    ensures cfg.tables.Ok() && Wf(Feed(a, bytes))
    ensures var r := Run(cfg, Feed(a, bytes), limit); r.mode.Done? && r.out == input
  {
    hide Deflate.DeflateState.Valid, DecodeTo, AsBits, StreamBits, Wf, Tables.Ok, Run, StreamOk, FormsOf, Readable;
    PackedBack(StreamBits(ws, 0, true) + fill);
    FirstBits(a, bytes);
    FeedWf(a, bytes);
    hide Feed, BitsOf, Packed;
    WholeInflates(s, input, cfg, Feed(a, bytes), ws, fill, limit);
  }

  lemma FirstBits(a: State, bytes: seq<byte>)
    requires a.bits == Bits(0, 0)
    ensures Feed(a, bytes) == a.(bits := AsBits(BitsOf(bytes)))
  {
    BytesAsBits(bytes);
    assert Pow2(0) == 1;
  }

  lemma Finished(inf: Inflate.InflateState)
    requires inf.Sound() && inf.Abs().mode.Done?
    ensures inf.mode == Inflate.DONE && inf.Abs().out == inf.before
  {
    hide Inflate.InflateState.Core, Wf;
  }
}
