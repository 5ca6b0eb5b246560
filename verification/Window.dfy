/** inflate's circular history window, as a value. */
module Window {
  import opened Lz77

  /** The window index of the byte i back from the end of the history, when the
      newest byte is just before `next`. */
  function Index(wSize: nat, next: nat, i: nat): int {
    if i <= next then next - i else wSize + next - i
  }

  /** w holds the last min(wSize, |h|) bytes of the history h; until the window
      has filled, `next` is where the data ends. */
  ghost predicate Circular(w: seq<byte>, wSize: nat, have: nat, next: nat, h: seq<byte>) {
    && |w| == wSize && 0 < wSize && next < wSize
    && have == Min(|h|, wSize)
    && (have < wSize ==> next == have)
    && forall k :: |h| - have <= k < |h| ==> h[k] == w[Index(wSize, next, |h| - k)]
  }

  lemma CircularNext(w: seq<byte>, wSize: nat, have: nat, next: nat, h: seq<byte>)
    requires Circular(w, wSize, have, next, h)
    ensures next < wSize && have <= wSize
  {
  }

  /** Reading i bytes back. */
  lemma CircularAt(w: seq<byte>, wSize: nat, have: nat, next: nat, h: seq<byte>, i: nat)
    requires Circular(w, wSize, have, next, h) && 1 <= i <= have
    ensures 0 <= Index(wSize, next, i) < |w| && h[|h| - i] == w[Index(wSize, next, i)]
  {
  }

  /** The contents in order: oldest at `next`, newest just before it. */
  lemma InOrder(w: seq<byte>, wSize: nat, have: nat, next: nat, h: seq<byte>)
    requires Circular(w, wSize, have, next, h)
    ensures next <= have <= |w| && have <= |h| && w[next..have] + w[..next] == h[|h| - have..]
  {
    var s, t := w[next..have] + w[..next], h[|h| - have..];
    forall k | 0 <= k < have ensures s[k] == t[k] {
      assert t[k] == h[|h| - have + k];
    }
  }

  /** What updatewindow leaves when at least a window's worth was written. */
  lemma Replaced(data: seq<byte>, wSize: nat, h: seq<byte>)
    requires 0 < wSize <= |data|
    ensures Circular(data[|data| - wSize..], wSize, wSize, 0, h + data)
  {
  }

  /** d written into w at index i. */
  function Overwrite(w: seq<byte>, i: nat, d: seq<byte>): (r: seq<byte>)
    requires i + |d| <= |w|
    ensures |r| == |w| && forall j :: 0 <= j < |w| ==> r[j] == if i <= j < i + |d| then d[j - i] else w[j]
  {
    w[..i] + d + w[i + |d|..]
  }

  /** New data that fits before the end of the buffer. */
  lemma Advanced(w: seq<byte>, wSize: nat, have: nat, next: nat, h: seq<byte>, data: seq<byte>)
    requires Circular(w, wSize, have, next, h) && next + |data| <= wSize && |data| < wSize
    ensures var m := next + |data|;
            Circular(Overwrite(w, next, data), wSize, Min(have + |data|, wSize), if m == wSize then 0 else m, h + data)
  {
  }

  /** New data that wraps past the end of the buffer. */
  lemma Wrapped(w: seq<byte>, wSize: nat, have: nat, next: nat, h: seq<byte>, d: seq<byte>, e: seq<byte>)
    requires Circular(w, wSize, have, next, h) && |d| == wSize - next && 0 < |e| < next
    ensures Circular(Overwrite(Overwrite(w, next, d), 0, e), wSize, wSize, |e|, h + (d + e))
  {
  }

  // ---- copying matches ----

  /** Byte i of the output of this call; negative i reaches into earlier calls. */
  function At(before: seq<byte>, buf: seq<byte>, i: int): byte
    requires -|before| <= i < |buf|
  {
    if i < 0 then before[|before| + i] else buf[i]
  }

  /** buf[put..put + n) repeats the history dist back, byte by byte. */
  ghost predicate Copied(before: seq<byte>, buf: seq<byte>, put: nat, n: nat, dist: nat) {
    && put + n <= |buf| && 1 <= dist <= |before| + put
    && forall k :: put <= k < put + n ==> buf[k] == At(before, buf, k - dist)
  }

  lemma CopiedIsCopyBack(before: seq<byte>, buf0: seq<byte>, buf: seq<byte>, put: nat, n: nat, dist: nat)
    requires Copied(before, buf, put, n, dist) && put <= |buf0| && buf0[..put] == buf[..put]
    ensures before + buf[..put + n] == CopyBack(before + buf0[..put], dist, n)
  {
    var h, r := before + buf0[..put], before + buf[..put + n];
    assert r[..|h|] == before + buf[..put];
    forall i | |h| <= i < |r| ensures r[i] == r[i - dist] {
      var k := i - |before|;
      assert r[i] == buf[k];
      assert r[i - dist] == At(before, buf, k - dist);
    }
    CopyBackUnique(h, dist, n, r);
  }

  lemma CopiedJoin(before: seq<byte>, buf0: seq<byte>, buf: seq<byte>, put: nat, m: nat, n: nat, dist: nat)
    requires Copied(before, buf0, put, m, dist) && Copied(before, buf, put + m, n, dist)
    requires buf[..put + m] == buf0[..put + m]
    ensures Copied(before, buf, put, m + n, dist)
  {
    forall k | put <= k < put + m + n ensures buf[k] == At(before, buf, k - dist) {
      if k < put + m {
        assert buf[k] == buf[..put + m][k] == buf0[..put + m][k] == buf0[k];
        if k - dist >= 0 {
          assert buf[k - dist] == buf[..put + m][k - dist] == buf0[..put + m][k - dist] == buf0[k - dist];
        }
      }
    }
  }

  /** A run of window bytes that does not cross the end of the buffer. */
  lemma WindowRun(w: seq<byte>, wSize: nat, have: nat, next: nat, before: seq<byte>,
                  buf: seq<byte>, put: nat, m: nat, dist: nat)
    requires Circular(w, wSize, have, next, before)
    requires put < dist && dist - put <= have && put + m <= |buf|
    requires m <= if dist - put <= next then dist - put else dist - put - next
    requires forall k :: put <= k < put + m ==> buf[k] == w[k - (put - Index(wSize, next, dist - put))]
    ensures Copied(before, buf, put, m, dist)
  {
    assert have <= |before| && have <= wSize == |w| && next < wSize && (have < wSize ==> next == have);
    hide Circular;
    forall k | put <= k < put + m ensures buf[k] == At(before, buf, k - dist) {
      CircularAt(w, wSize, have, next, before, dist - k);
      assert k - (put - Index(wSize, next, dist - put)) == Index(wSize, next, dist - k);
      assert buf[k] == before[|before| - (dist - k)];
    }
  }

  /** A run copied from the output itself. */
  lemma OutputRun(before: seq<byte>, buf: seq<byte>, put: nat, m: nat, dist: nat)
    requires 1 <= dist <= put && put + m <= |buf|
    requires forall k :: put <= k < put + m ==> buf[k] == buf[k - dist]
    ensures Copied(before, buf, put, m, dist)
  {
  }

  // ---- the distance check ----

  /** The check made when a match is copied: `put` of the `history` bytes are in
      the output buffer of this call, at most `window` of the others are kept. */
  predicate Rejects(history: nat, put: nat, window: nat, dist: nat)
    requires put <= history
  {
    dist > put && dist - put > if history - put < window then history - put else window
  }

  /** Whether a distance is accepted depends on how the output was cut into
      calls, unless it is within the window size or beyond all history. */
  lemma VerdictOfCuts(history: nat, window: nat, dist: nat)
    ensures (forall put :: 0 <= put <= history ==> (Rejects(history, put, window, dist) <==> dist > history))
       <==> dist <= window || dist > history
  {
    if window < dist <= history {
      assert Rejects(history, 0, window, dist);
    }
  }
}
