/** The hash chains of deflate.c as values: head[] and prev[] over the window,
    the invariant that makes following them sound, and the reference match
    search that longest_match is proved to compute. */
module HashChains {
  import opened Lz77
  import opened Binary
  import opened HashKey

  /** A window index as stored in head[] and prev[] (ush). */
  type Pos = Ush

  /** Tail of a chain; window index 0 is never matched for this reason. */
  const NIL: Pos := 0

  /** `filed` is the set of positions now in the dictionary; the bytes
      w[0..end) are input, the rest is slack. */
  datatype Chains = Chains(bits: nat, wSize: nat, w: seq<byte>, head: seq<Pos>, prev: seq<Pos>,
                           filed: set<nat>, end: nat)
  {
    ghost predicate Shape() {
      && ValidBits(bits) && |head| == Pow2(bits)
      && 0 < wSize <= 0x8000 && |prev| == wSize && |w| == 2 * wSize && end <= |w|
      && forall p :: p in filed ==> p + MIN_MATCH <= end
    }

    ghost function KeyAt(p: nat): nat
      requires p + 2 < |w|
    {
      Key(bits, w[p], w[p + 1], w[p + 2])
    }

    /** A chain link from p: NIL or an earlier filed position with the same key. */
    ghost predicate LinkOk(p: nat)
      requires Shape() && p in filed
    {
      var q := prev[p % wSize];
      q != NIL ==> q in filed && q < p && KeyAt(q) == KeyAt(p)
    }

    ghost predicate HeadOk(k: nat)
      requires Shape() && k < |head|
    {
      head[k] != NIL ==> head[k] in filed && KeyAt(head[k]) == k
    }

    /** Every chain entry was filed under the hash of its own three bytes.  A
        link is claimed only while its slot has not been reused by p + wSize. */
    ghost predicate Ok() {
      && Shape()
      && (forall k :: 0 <= k < |head| ==> HeadOk(k))
      && (forall p :: p in filed && p + wSize !in filed ==> LinkOk(p))
    }

    /** INSERT_STRING on the tables. */
    ghost function Insert(str: Pos): Chains
      requires Shape() && str + 2 < |w|
    {
      var k := KeyAt(str);
      this.(head := head[k := str], prev := prev[str % wSize := head[k]], filed := filed + {str as nat})
    }

    /** The table slide of fill_window. */
    ghost function Slide(w': seq<byte>): Chains
      requires end >= wSize
    {
      Chains(bits, wSize, w', SlideAll(head, wSize), SlideAll(prev, wSize),
             set p | p in filed && p >= wSize :: p - wSize, end - wSize)
    }
  }

  function SlideOne(m: Pos, wSize: nat): Pos {
    if m >= wSize then m - wSize else NIL
  }

  function SlideAll(s: seq<Pos>, wSize: nat): (r: seq<Pos>)
    ensures |r| == |s| && forall i :: 0 <= i < |s| ==> r[i] == SlideOne(s[i], wSize)
  {
    seq(|s|, i requires 0 <= i < |s| => SlideOne(s[i], wSize))
  }

  lemma SlotOf(p: nat, wSize: nat)
    requires 0 < wSize && p < 2 * wSize
    ensures p % wSize == if p < wSize then p else p - wSize
  {
    if p < wSize { DivModUnique(p, wSize, 0, p); } else { DivModUnique(p, wSize, 1, p - wSize); }
  }

  lemma KeyBound(c: Chains, p: nat)
    requires c.Shape() && p + 2 < |c.w|
    ensures c.KeyAt(p) < |c.head|
  {
  }

  ghost predicate CanFile(c: Chains, str: Pos) {
    c.Ok() && str + MIN_MATCH <= c.end && forall p :: p in c.filed ==> p < str
  }

  lemma InsertHead(c: Chains, str: Pos, k: nat)
    requires CanFile(c, str) && k < |c.head|
    ensures c.Insert(str).Shape() && c.Insert(str).HeadOk(k)
  {
    hide Key;
    KeyBound(c, str);
    assert c.HeadOk(k);
  }

  lemma InsertLink(c: Chains, str: Pos, p: nat)
    requires CanFile(c, str) && p in c.Insert(str).filed && p + c.wSize !in c.Insert(str).filed
    ensures c.Insert(str).Shape() && c.Insert(str).LinkOk(p)
  {
    hide Key;
    SlotOf(str, c.wSize);
    SlotOf(p, c.wSize);
    KeyBound(c, str);
    if p == str {
      assert c.HeadOk(c.KeyAt(str));
    } else {
      assert p in c.filed && p + c.wSize !in c.filed;
      assert c.LinkOk(p);
    }
  }

  /** Filing the next string keeps every chain sound. */
  lemma InsertKeepsOk(c: Chains, str: Pos)
    requires CanFile(c, str)
    ensures c.Insert(str).Ok()
  {
    var d := c.Insert(str);
    assert d.Shape();
    forall k | 0 <= k < |d.head| ensures d.HeadOk(k) { InsertHead(c, str, k); }
    forall p | p in d.filed && p + d.wSize !in d.filed ensures d.LinkOk(p) { InsertLink(c, str, p); }
  }

  ghost predicate Slid(c: Chains, w': seq<byte>) {
    && c.end >= c.wSize && |w'| == |c.w| == 2 * c.wSize
    && forall i :: 0 <= i < c.wSize ==> w'[i] == c.w[i + c.wSize]
  }

  lemma SlideHead(c: Chains, w': seq<byte>, k: nat)
    requires c.Ok() && Slid(c, w') && k < |c.head|
    ensures c.Slide(w').Shape() && c.Slide(w').HeadOk(k)
  {
    assert c.HeadOk(k);
  }

  lemma SlideLink(c: Chains, w': seq<byte>, p: nat)
    requires c.Ok() && Slid(c, w') && p in c.Slide(w').filed
    ensures c.Slide(w').Shape() && c.Slide(w').LinkOk(p)
  {
    hide Key;
    var p0 := p + c.wSize;
    assert p0 in c.filed && p0 + c.wSize !in c.filed;
    assert c.LinkOk(p0);
    SlotOf(p, c.wSize);
    SlotOf(p0, c.wSize);
  }

  /** Sliding window and tables together by wSize keeps every chain sound. */
  lemma SlideKeepsOk(c: Chains, w': seq<byte>)
    requires c.Ok() && Slid(c, w')
    ensures c.Slide(w').Ok()
  {
    var d := c.Slide(w');
    forall k | 0 <= k < |d.head| ensures d.HeadOk(k) {
      SlideHead(c, w', k);
    }
    forall p | p in d.filed ensures d.LinkOk(p) {
      SlideLink(c, w', p);
    }
  }

  /** Reading more input past `end` does not disturb the chains. */
  lemma ExtendKeepsOk(c: Chains, w': seq<byte>, end': nat)
    requires c.Ok() && |w'| == |c.w| && c.end <= end' <= |w'|
    requires forall i :: 0 <= i < c.end ==> w'[i] == c.w[i]
    ensures c.(w := w', end := end').Ok()
  {
    var d := c.(w := w', end := end');
    assert forall p :: p in c.filed ==> d.KeyAt(p) == c.KeyAt(p);
    forall k | 0 <= k < |d.head| ensures d.HeadOk(k) { assert c.HeadOk(k); }
    forall p | p in d.filed && p + d.wSize !in d.filed ensures d.LinkOk(p) { assert c.LinkOk(p); }
  }

  // ---- the match search ----

  /** Length of the common run of w[a..] and w[b..], at most max: the plain comparison of every byte. */
  function CommonLen(w: seq<byte>, a: nat, b: nat, max: nat): (n: nat)
    ensures n <= max
    decreases max
  {
    if max == 0 || a >= |w| || b >= |w| || w[a] != w[b] then 0
    else 1 + CommonLen(w, a + 1, b + 1, max - 1)
  }

  lemma {:induction false} CommonLenIs(w: seq<byte>, a: nat, b: nat, max: nat, n: nat)
    requires n <= max && a + n <= |w| && b + n <= |w| && w[a..a + n] == w[b..b + n]
    requires n == max || (a + n < |w| && b + n < |w| && w[a + n] != w[b + n])
    ensures CommonLen(w, a, b, max) == n
    decreases n
  {
    if n != 0 {
      assert w[a] == w[a..a + n][0] && w[b] == w[b..b + n][0];
      assert w[a + 1..a + n] == w[a..a + n][1..] && w[b + 1..b + n] == w[b..b + n][1..];
      CommonLenIs(w, a + 1, b + 1, max - 1, n - 1);
    }
  }

  /** The same, for a run given as a repetition. */
  lemma CommonLenOfRun(w: seq<byte>, a: nat, b: nat, max: nat, n: nat)
    requires b < a && n <= max && a + n <= |w|
    requires forall i :: a <= i < a + n ==> w[i] == w[i - (a - b)]
    requires n == max || (a + n < |w| && w[a + n] != w[a + n - (a - b)])
    ensures CommonLen(w, a, b, max) == n
  {
    assert w[a..a + n] == w[b..b + n];
    CommonLenIs(w, a, b, max, n);
  }

  lemma {:induction false} CommonLenEqual(w: seq<byte>, a: nat, b: nat, max: nat, i: nat)
    requires i < CommonLen(w, a, b, max)
    ensures a + i < |w| && b + i < |w| && w[a + i] == w[b + i]
    decreases i
  {
    if i != 0 { CommonLenEqual(w, a + 1, b + 1, max - 1, i - 1); }
  }

  lemma CommonLenRepeats(w: seq<byte>, a: nat, b: nat, max: nat, len: nat)
    requires len <= CommonLen(w, a, b, max) && b < a && a <= |w|
    ensures a + len <= |w| && forall i :: a <= i < a + len ==> w[i] == w[i - (a - b)]
  {
    if len > 0 { CommonLenEqual(w, a, b, max, len - 1); }
    forall i | a <= i < a + len ensures w[i] == w[i - (a - b)] {
      CommonLenEqual(w, a, b, max, i - a);
    }
  }

  /** A difference at offset i bounds the run. */
  lemma CommonLenStops(w: seq<byte>, a: nat, b: nat, max: nat, i: nat)
    requires a + i < |w| && b + i < |w| && w[a + i] != w[b + i]
    ensures CommonLen(w, a, b, max) <= i
  {
    if i < CommonLen(w, a, b, max) { CommonLenEqual(w, a, b, max, i); }
  }

  /** The reference search: walk at most `chain` entries above `limit`,
      compare every byte of each, keep the first strictly longest, stop once
      a new best reaches `nice`. */
  function Search(w: seq<byte>, prev: seq<Pos>, scan: nat, cur: nat, limit: nat, chain: nat,
                  best: nat, start: nat, nice: nat): (nat, nat)
    requires |prev| > 0
    decreases chain
  {
    var len := CommonLen(w, scan, cur, MAX_MATCH);
    var b := if len > best then len else best;
    var s := if len > best then cur else start;
    if len > best && len >= nice then (b, s)
    else
      var next := prev[cur % |prev|];
      if next > limit && chain > 1 then Search(w, prev, scan, next, limit, chain - 1, b, s, nice)
      else (b, s)
  }

  /** One step of the reference search. */
  lemma SearchStep(w: seq<byte>, prev: seq<Pos>, scan: nat, cur: nat, limit: nat, chain: nat,
                   best: nat, start: nat, nice: nat)
    requires |prev| > 0
    ensures var len := CommonLen(w, scan, cur, MAX_MATCH);
            var b := if len > best then len else best;
            var s := if len > best then cur else start;
            var next := prev[cur % |prev|];
            Search(w, prev, scan, cur, limit, chain, best, start, nice)
            == if !(len > best && len >= nice) && next > limit && chain > 1
               then Search(w, prev, scan, next, limit, chain - 1, b, s, nice) else (b, s)
  {
  }

  /** The candidates such a walk may look at. */
  function Candidates(prev: seq<Pos>, cur: nat, limit: nat, chain: nat): (r: seq<nat>)
    requires |prev| > 0
    ensures |r| >= 1 && r[0] == cur
    decreases chain
  {
    var next := prev[cur % |prev|];
    [cur] + if next > limit && chain > 1 then Candidates(prev, next, limit, chain - 1) else []
  }

  /** The search result is a candidate's full match length, and unless a nice
      match ended the walk no candidate matches longer. */
  lemma {:induction false} SearchIsBest(w: seq<byte>, prev: seq<Pos>, scan: nat, cur: nat, limit: nat, chain: nat,
                                        best: nat, start: nat, nice: nat)
    requires |prev| > 0
    ensures var r := Search(w, prev, scan, cur, limit, chain, best, start, nice);
            var all := Candidates(prev, cur, limit, chain);
            && r.0 >= best && (r.0 == best ==> r.1 == start)
            && (r.0 > best ==> r.1 in all && CommonLen(w, scan, r.1, MAX_MATCH) == r.0)
            && (r.0 == best || r.0 < nice ==> forall c :: c in all ==> CommonLen(w, scan, c, MAX_MATCH) <= r.0)
    decreases chain
  {
    var len := CommonLen(w, scan, cur, MAX_MATCH);
    var b := if len > best then len else best;
    var s := if len > best then cur else start;
    var next := prev[cur % |prev|];
    if !(len > best && len >= nice) && next > limit && chain > 1 {
      SearchIsBest(w, prev, scan, next, limit, chain - 1, b, s, nice);
      assert Candidates(prev, cur, limit, chain) == [cur] + Candidates(prev, next, limit, chain - 1);
    }
  }
}
