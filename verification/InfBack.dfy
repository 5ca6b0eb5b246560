/** infback.c: inflateBack decodes straight into its window, which is also its
    only output buffer; out() takes a whole window each time it is full.  Matches
    are copied by its own code or, with input and room to spare, by inflate_fast,
    whose output is then the window itself. */
module InfBack {
  import opened Lz77
  import opened Window

  /** Of a distance in inflate_fast: taken, refused, or read from outside the window. */
  datatype Verdict = Taken | Refused | Outside

  class BackState {
    const window: array<byte>
    const wsize: nat
    var whave: nat
    var put: nat
    var left: nat

    ghost var flushed: seq<byte>    // what out() has been given

    /** Behind `put` the window still holds the end of what was flushed. */
    ghost predicate Valid()
      reads this, window
    {
      && 0 < wsize == window.Length && put + left == wsize
      && (if flushed == [] then whave < wsize && whave <= put else whave == wsize <= |flushed|)
      && (flushed != [] ==> window[put..] == flushed[|flushed| - left..])
    }

    /** All output so far. */
    ghost function Hist(): seq<byte>
      requires Valid()
      reads this, window
    {
      flushed + window[..put]
    }

    constructor (w: array<byte>)
      requires w.Length > 0
      ensures Valid() && Hist() == [] && window == w
    {
      window, wsize := w, w.Length;
      whave, put, left := 0, 0, w.Length;
      flushed := [];
    }

    /** Hands the window to the output function when it is full; that succeeds. */
    method Room()
      requires Valid()
      modifies this`put, this`left, this`whave, this`flushed
      ensures Valid() && left > 0 && Hist() == old(Hist())
      ensures old(left) > 0 ==> put == old(put) && left == old(left) && flushed == old(flushed)
    {
      if left == 0 {
        assert window[..put] == window[..];
        flushed := flushed + window[..];
        put := 0;
        left := wsize;
        whave := left;
      }
    }

    /** Writes one byte, making room first. */
    method PutByte(c: byte)
      requires Valid()
      modifies this`put, this`left, this`whave, this`flushed, window
      ensures Valid() && Hist() == old(Hist()) + [c]
      ensures old(left) > 0 ==> put == old(put) + 1 && flushed == old(flushed)
    {
      Room();
      ghost var was := window[..];
      assert flushed != [] ==> was[put + 1..] == flushed[|flushed| - left..][1..];
      window[put] := c;
      assert window[..put + 1] == was[..put] + [c] && window[put + 1..] == was[put + 1..];
      assert flushed + was[..put] + [c] == flushed + (was[..put] + [c]);
      put := put + 1;
      left := left - 1;
    }

    /** How far back the window still holds the output. */
    ghost function Kept(): (k: nat)
      requires Valid()
      reads this, window
      ensures k == Min(|Hist()|, wsize)
    {
      if flushed == [] then put else wsize
    }

    /** inflateBack's own check of a distance is exact: it fails when the
        distance goes beyond all output or beyond the window. */
    method TooFar(offset: nat) returns (bad: bool)
      requires Valid()
      ensures bad <==> offset > |Hist()| || offset > wsize
    {
      bad := offset > wsize - (if whave < wsize then left else 0);
    }

    /** One stretch of a match, as far as the room and the wrap allow. */
    method Stretch(length: nat, offset: nat) returns (copy: nat)
      requires Valid() && left > 0 && length > 0 && 1 <= offset <= |Hist()| && offset <= wsize
      modifies this`put, this`left, window
      ensures Valid() && 1 <= copy <= length && flushed == old(flushed)
      ensures Hist() == CopyBack(old(Hist()), offset, copy)
    {
      ghost var at, was := put, window[..];
      copy := wsize - offset;
      var from;
      if copy < left {
        from := put + copy;
        copy := left - copy;
      } else {
        from := put - offset;
        copy := left;
      }
      if copy > length { copy := length; }
      left := left - copy;
      CopyRun(from, copy);
      Stretched(was, at, from, copy, offset);
    }

    /** What a stretch wrote repeats the history: from behind `put` directly, and
        from ahead of it because the window's other end is still the old history. */
    lemma Stretched(was: seq<byte>, at: nat, from: nat, copy: nat, offset: nat)
      requires 0 < wsize == window.Length == |was| && put == at + copy && put + left == wsize && 1 <= offset <= wsize
      requires window[..at] == was[..at] && window[put..] == was[put..]
      requires from < at ==> forall k :: at <= k < put ==> window[k] == window[k - (at - from)]
      requires from >= at ==> from + copy <= wsize && window[at..put] == was[from..from + copy]
      requires if flushed == [] then whave < wsize && whave <= at else whave == wsize <= |flushed|
      requires flushed != [] ==> was[at..] == flushed[|flushed| - (wsize - at)..]
      requires if from < at then from == at - offset
               else flushed != [] && from == at + (wsize - offset)
      ensures Valid() && offset <= |flushed| + at && Hist() == CopyBack(flushed + was[..at], offset, copy)
    {
      forall k | at <= k < put ensures window[k] == At(flushed, window[..], k - offset) {
        if from >= at {
          assert window[k] == window[at..put][k - at] == was[from..from + copy][k - at] == was[k + (wsize - offset)];
          assert was[k + (wsize - offset)] == was[at..][k + (wsize - offset) - at];
        }
      }
      assert Copied(flushed, window[..], at, copy, offset);
      assert window[..][..at] == was[..at];
      CopiedIsCopyBack(flushed, was, window[..], at, copy, offset);
      assert window[..][..put] == window[..put];
      if flushed != [] {
        assert window[put..] == was[at..][copy..] == flushed[|flushed| - left..];
      }
    }

    // ---- through inflate_fast ----

    /** What the window is said to hold when inflate_fast is entered. */
    method EnterFast()
      requires Valid() && left >= 258
      modifies this`whave
      ensures Valid() && Hist() == old(Hist()) && whave == if flushed == [] then put else wsize
    {
      if whave < wsize {
        whave := wsize - left;
      }
    }

    /** inflate_fast's copy with the window as its output.  Its check adds what it
        was told of the window to what is in front of `put`; `sane` turns it on, and
        is never set by inflateBackInit_.  The copy is right for the distances
        that the window keeps. */
    method FastCopy(len: nat, dist: nat, sane: bool) returns (verdict: Verdict)
      requires Valid() && 1 <= len <= left && 1 <= dist
      modifies this`put, this`left, window
      ensures Valid() && flushed == old(flushed)
      ensures verdict.Refused? <==> sane && dist > old(put) + whave
      ensures verdict.Outside? <==> !sane && dist > old(put) + wsize
      ensures !verdict.Taken? ==> Hist() == old(Hist())
      ensures verdict.Taken? ==> |Hist()| == |old(Hist())| + len && old(Hist()) <= Hist()
      ensures dist <= old(Kept()) ==> verdict.Taken? && Hist() == CopyBack(old(Hist()), dist, len)
    {
      hide Valid, Hist, CopyBack;
      KeptBounds();
      if dist > put {
        var op := dist - put;
        if op > whave && sane { return Refused; }
        if op > wsize { return Outside; }
        ghost var h, kept := Hist(), Kept();
        var n := if op < len then op else len;
        CopyPart(wsize - op, n, dist);
        if n < len {
          ghost var g := Hist();
          CopyPart(0, len - n, dist);
          if dist <= kept {
            CopyBackSplit(h, dist, n, len - n);
          }
        }
      } else {
        CopyPart(put - dist, len, dist);
      }
      verdict := Taken;
    }

    lemma KeptBounds()
      requires Valid()
      ensures put <= Kept() <= wsize && Kept() <= |Hist()| && whave <= wsize && put + left == wsize
      ensures if flushed == [] then Kept() == put else Kept() == whave == wsize
    {
    }

    /** One loop of inflate_fast's copy: behind `put`, or from the window's other end. */
    method CopyPart(from: nat, n: nat, dist: nat)
      requires Valid() && 1 <= n <= left && from + n <= wsize && 1 <= dist
      requires from == if dist <= put then put - dist else put + wsize - dist
      modifies this`put, this`left, window
      ensures Valid() && put == old(put) + n && left == old(left) - n && flushed == old(flushed)
      ensures |Hist()| == |old(Hist())| + n && old(Hist()) <= Hist()
      ensures dist <= old(Kept()) ==> Hist() == CopyBack(old(Hist()), dist, n)
      ensures Kept() >= old(Kept())
    {
      hide CopyBack;
      ghost var at, was, kept := put, window[..], Kept();
      CopyRun(from, n);
      left := left - n;
      assert window[put..] == was[put..] == was[at..][n..];
      assert window[..put][..at] == was[..at];
      if dist <= kept {
        Stretched(was, at, from, n, dist);
      }
    }

    /** What that check comes to: right exactly for distances that are kept, and
        for those it refuses. */
    lemma FastVerdict(dist: nat, sane: bool)
      requires Valid() && 1 <= dist
      ensures (sane && dist > put + whave <==> dist > |Hist()| || dist > wsize)
         <==> dist <= Kept() || (sane && dist > put + whave)
    {
    }

    /** A distance beyond all output that is not refused: 100 bytes written, none
        flushed, distance 150. */
    static method BeyondOutput(w: array<byte>, sane: bool) returns (b: BackState, verdict: Verdict)
      requires w.Length == 1024
      modifies w
      ensures b.Valid() && verdict == Taken && |b.Hist()| == 103
    {
      b := new BackState(w);
      for i := 0 to 100
        invariant b.Valid() && |b.Hist()| == i && b.window == w && fresh(b) && b.flushed == [] && b.put == i
      {
        b.PutByte(0);
      }
      b.EnterFast();
      verdict := b.FastCopy(3, 150, sane);
    }

    /** A whole match, making room as often as it takes. */
    method CopyMatch(length: nat, offset: nat)
      requires Valid() && 1 <= length && 1 <= offset <= |Hist()| && offset <= wsize
      modifies this`put, this`left, this`whave, this`flushed, window
      ensures Valid() && Hist() == CopyBack(old(Hist()), offset, length)
    {
      hide Valid, CopyBack, Hist;
      ghost var h := Hist();
      var len := length;
      while len != 0
        invariant 0 <= len <= length && Valid() && Hist() == CopyBack(h, offset, length - len)
      {
        Room();
        var copy := Stretch(len, offset);
        CopyBackSplit(h, offset, length - len, copy);
        assert length - len + copy == length - (len - copy);
        len := len - copy;
      }
    }

    /** Copies one byte after the other: from behind `put`, or from the
        other end of the window, ahead of it. */
    method CopyRun(from: nat, copy: nat)
      requires 1 <= copy && put + copy <= window.Length && from + copy <= window.Length
      modifies this`put, window
      ensures put == old(put) + copy && window[..old(put)] == old(window[..put]) && window[put..] == old(window[..])[put..]
      ensures from < old(put) ==> forall k :: old(put) <= k < put ==> window[k] == window[k - (old(put) - from)]
      ensures from >= old(put) ==> window[old(put)..put] == old(window[from..from + copy])
    {
      ghost var at, was := put, window[..];
      var i := from;
      while i < from + copy
        invariant from <= i <= from + copy && put == at + (i - from)
        invariant window[..at] == was[..at] && window[put..] == was[put..]
        invariant from < at ==> forall k :: at <= k < put ==> window[k] == window[k - (at - from)]
        invariant from >= at ==> window[at..put] == was[from..i]
      {
        assert window[put..][1..] == was[put + 1..];
        if from >= at { assert window[i] == window[put..][i - put] == was[put..][i - put] == was[i]; }
        window[put] := window[i];
        put := put + 1;
        i := i + 1;
      }
    }
  }
}
