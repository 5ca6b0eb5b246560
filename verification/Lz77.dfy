/** The meaning of LZ77 tokens: what a decoder does with a literal or a
    (distance, length) pair.  Both the compressor and the decompressor are
    proved against this module. */
module Lz77 {
  type byte = x: int | 0 <= x < 256

  type Ush = x: int | 0 <= x < 0x1_0000

  datatype Option<+T> = None | Some(value: T)

  datatype Token = Literal(c: byte) | Match(dist: nat, len: nat)

  function Min(a: int, b: int): int { if a < b then a else b }

  const MIN_MATCH := 3
  const MAX_MATCH := 258

  /** Byte-by-byte copy from `dist` back: later bytes may come from bytes that
      the same copy produced. */
  function CopyBack(h: seq<byte>, dist: nat, len: nat): (r: seq<byte>)
    requires 1 <= dist <= |h|
    ensures |r| == |h| + len && r[..|h|] == h
    ensures forall i :: |h| <= i < |r| ==> r[i] == r[i - dist]
    decreases len
  {
    if len == 0 then h else
      var g := CopyBack(h, dist, len - 1);
      g + [g[|g| - dist]]
  }

  /** The recurrence determines the copy. */
  lemma {:induction false} CopyBackUnique(h: seq<byte>, dist: nat, len: nat, r: seq<byte>)
    requires 1 <= dist <= |h|
    requires |r| == |h| + len && r[..|h|] == h
    requires forall i :: |h| <= i < |r| ==> r[i] == r[i - dist]
    ensures r == CopyBack(h, dist, len)
    decreases len
  {
    if len == 0 {
      assert r == r[..|h|];
    } else {
      var q := r[..|r| - 1];
      assert q[..|h|] == r[..|h|];
      CopyBackUnique(h, dist, len - 1, q);
      assert r == q + [r[|r| - 1]];
      assert r[|r| - 1 - dist] == q[|q| - dist];
    }
  }

  /** Copying in two pieces is copying at once: a copy may be interrupted. */
  lemma {:induction false} CopyBackSplit(h: seq<byte>, dist: nat, m: nat, n: nat)
    requires 1 <= dist <= |h|
    ensures CopyBack(CopyBack(h, dist, m), dist, n) == CopyBack(h, dist, m + n)
  {
    var g := CopyBack(h, dist, m);
    var r := CopyBack(g, dist, n);
    assert r[..|h|] == r[..|g|][..|h|];
    forall i | |h| <= i < |r| ensures r[i] == r[i - dist] {
      if i < |g| {
        assert r[i] == r[..|g|][i] && r[i - dist] == r[..|g|][i - dist];
      }
    }
    CopyBackUnique(h, dist, m + n, r);
  }

  /** What a decoder does with one token; None when the distance reaches
      before the start of the history. */
  function Apply(h: seq<byte>, t: Token): Option<seq<byte>> {
    match t
    case Literal(c) => Some(h + [c])
    case Match(dist, len) =>
      if 1 <= dist <= |h| then Some(CopyBack(h, dist, len)) else None
  }

  function Expand(h: seq<byte>, ts: seq<Token>): Option<seq<byte>> {
    if ts == [] then Some(h) else
      match Expand(h, ts[..|ts| - 1])
      case None => None
      case Some(g) => Apply(g, ts[|ts| - 1])
  }

  /** The format's limits on a token, for a compressor that keeps every
      distance at or below `maxDist`. */
  predicate TokenInRange(t: Token, maxDist: int) {
    t.Match? ==> 1 <= t.dist <= maxDist && MIN_MATCH <= t.len <= MAX_MATCH
  }

  predicate TokensInRange(ts: seq<Token>, maxDist: int) {
    forall i :: 0 <= i < |ts| ==> TokenInRange(ts[i], maxDist)
  }

  /** Repetition in the stream itself: `len` bytes at `pos` equal those `dist` earlier. */
  ghost predicate Repeats(stream: seq<byte>, pos: nat, dist: nat, len: nat) {
    && 1 <= dist <= pos && pos + len <= |stream|
    && forall i :: pos <= i < pos + len ==> stream[i] == stream[i - dist]
  }

  lemma ExpandAppend(h: seq<byte>, ts: seq<Token>, t: Token)
    requires Expand(h, ts).Some?
    ensures Expand(h, ts + [t]) == Apply(Expand(h, ts).value, t)
  {
    assert (ts + [t])[..|ts|] == ts;
  }

  /** A literal that is the next stream byte extends the decoded prefix by one. */
  lemma LiteralExtends(h: seq<byte>, ts: seq<Token>, stream: seq<byte>, pos: nat)
    requires pos < |stream| && Expand(h, ts) == Some(stream[..pos])
    ensures Expand(h, ts + [Literal(stream[pos])]) == Some(stream[..pos + 1])
  {
    ExpandAppend(h, ts, Literal(stream[pos]));
    assert stream[..pos] + [stream[pos]] == stream[..pos + 1];
  }

  /** A match token for a true repetition extends the decoded prefix by its length. */
  lemma MatchExtends(h: seq<byte>, ts: seq<Token>, stream: seq<byte>, pos: nat, dist: nat, len: nat)
    requires Repeats(stream, pos, dist, len) && Expand(h, ts) == Some(stream[..pos])
    ensures Expand(h, ts + [Match(dist, len)]) == Some(stream[..pos + len])
  {
    ExpandAppend(h, ts, Match(dist, len));
    var r := stream[..pos + len];
    assert r[..pos] == stream[..pos];
    CopyBackUnique(stream[..pos], dist, len, r);
  }

  // ---- what comes before does not matter ----

  lemma {:induction false} CopyBackBehind(g: seq<byte>, h: seq<byte>, dist: nat, len: nat)
    requires 1 <= dist <= |h|
    ensures CopyBack(g + h, dist, len) == g + CopyBack(h, dist, len)
    decreases len
  {
    if len != 0 {
      CopyBackBehind(g, h, dist, len - 1);
      var r := CopyBack(h, dist, len - 1);
      assert (g + r)[|g + r| - dist] == r[|r| - dist];
      assert g + r + [r[|r| - dist]] == g + (r + [r[|r| - dist]]);
    }
  }

  /** Tokens that expand by themselves expand to the same behind any history. */
  lemma {:induction false} ExpandBehind(g: seq<byte>, h: seq<byte>, ts: seq<Token>)
    requires Expand(h, ts).Some?
    ensures Expand(g + h, ts) == Some(g + Expand(h, ts).value)
    decreases |ts|
  {
    if ts != [] {
      var us, t := ts[..|ts| - 1], ts[|ts| - 1];
      ExpandBehind(g, h, us);
      var r := Expand(h, us).value;
      match t
      case Literal(c) => assert g + r + [c] == g + (r + [c]);
      case Match(dist, len) => CopyBackBehind(g, r, dist, len);
    }
  }
}
