/** streamerok.cpp: tAux keeps a download deadline on the pieces the player needs
    next.  The torrent handle is the set of pieces it has and a map of deadlines. */
module Deadlines {
  import opened Binary

  const PRIORITY_PIECES_COUNT_MIN := 5
  const MIN_STARTUP_PIECES_START := 5
  const MIN_STARTUP_PIECES_END := 4

  /** ceil(float(a) / b) */
  function CeilDiv(a: nat, b: nat): (q: nat)
    requires b > 0
    ensures (q - 1) * b < a <= q * b
  {
    CeilBounds(a, b);
    (a + b - 1) / b
  }

  lemma CeilBounds(a: nat, b: nat)
    requires b > 0
    ensures var q := (a + b - 1) / b; (q - 1) * b < a <= q * b
  {
    var x := a + b - 1;
    var q, r := x / b, x % b;
    assert x == b * q + r;
    MulDistributes(q - 1, 1, b);
  }

  function Max(a: int, b: int): int { if a < b then b else a }

  function Min(a: int, b: int): int { if a < b then a else b }

  /** The first n absent pieces of [i, last). */
  function FirstAbsent(have: set<int>, i: int, last: int, n: nat): set<int>
    decreases last - i
  {
    if i >= last || n == 0 then {}
    else if i in have then FirstAbsent(have, i + 1, last, n)
    else {i} + FirstAbsent(have, i + 1, last, n - 1)
  }

  function Absent(have: set<int>, i: int, last: int): set<int> {
    set k | i <= k < last && k !in have
  }

  lemma {:induction false} FirstAbsentIn(have: set<int>, i: int, last: int, n: nat)
    ensures FirstAbsent(have, i, last, n) <= Absent(have, i, last)
    decreases last - i
  {
    if i < last && n != 0 {
      FirstAbsentIn(have, i + 1, last, if i in have then n else n - 1);
    }
  }

  /** As many as there are, up to n. */
  lemma {:induction false} FirstAbsentSize(have: set<int>, i: int, last: int, n: nat)
    ensures |FirstAbsent(have, i, last, n)| == if n < |Absent(have, i, last)| then n else |Absent(have, i, last)|
    decreases last - i
  {
    var all := Absent(have, i, last);
    if i >= last {
      assert all == {};
    } else if n != 0 {
      var rest := Absent(have, i + 1, last);
      if i in have {
        assert all == rest;
        FirstAbsentSize(have, i + 1, last, n);
      } else {
        assert all == {i} + rest;
        FirstAbsentSize(have, i + 1, last, n - 1);
        FirstAbsentIn(have, i + 1, last, n - 1);
      }
    }
  }

  /** They come first: an absent piece before one of them is one of them. */
  lemma {:induction false} FirstAbsentFirst(have: set<int>, i: int, last: int, n: nat, j: int, k: int)
    requires k in FirstAbsent(have, i, last, n) && i <= j < k && j !in have
    ensures j in FirstAbsent(have, i, last, n)
    decreases last - i
  {
    if j != i {
      FirstAbsentIn(have, i + 1, last, if i in have then n else n - 1);
      FirstAbsentFirst(have, i + 1, last, if i in have then n else n - 1, j, k);
    }
  }

  /** Pieces that arrive only move later ones forward. */
  lemma {:induction false} FirstAbsentGrows(have: set<int>, more: set<int>, i: int, last: int, n: nat, m: nat)
    requires have <= more && n <= m
    ensures FirstAbsent(have, i, last, n) - more <= FirstAbsent(more, i, last, m)
    decreases last - i
  {
    if i < last && n != 0 {
      if i in more {
        FirstAbsentGrows(have, more, i + 1, last, if i in have then n else n - 1, m);
      } else {
        FirstAbsentGrows(have, more, i + 1, last, n - 1, m - 1);
      }
    }
  }

  /** The pieces below n that one call has newly marked. */
  ghost function Newly(was: seq<char>, now: seq<char>, n: int): set<int>
    requires |was| == |now|
  {
    set k | 0 <= k < n && k < |was| && was[k] == 'f' && now[k] == 't'
  }

  /** Newly marked pieces get the next multiples of 10 in the order of their numbers;
      the other deadlines stay. */
  ghost predicate Numbered(was: seq<char>, now: seq<char>, before: map<int, int>, after: map<int, int>, next: int) {
    && |was| == |now|
    && (forall i :: i in Newly(was, now, |now|) ==> i in after && after[i] == 10 * (next + |Newly(was, now, i)|))
    && (forall i :: i in before && i !in Newly(was, now, |now|) ==> i in after && after[i] == before[i])
  }

  lemma NothingNew(was: seq<char>, deadlines: map<int, int>, next: int, n: int)
    ensures Newly(was, was, n) == {} && Numbered(was, was, deadlines, deadlines, next)
  {
    assert Newly(was, was, |was|) == {};
  }

  lemma NumberNext(was: seq<char>, now: seq<char>, before: map<int, int>, after: map<int, int>, next: int, i: nat)
    requires Numbered(was, now, before, after, next) && i < |now| && was[i] == 'f'
    requires forall k :: i <= k < |now| ==> now[k] == was[k]
    ensures var m := next + |Newly(was, now, i)|;
            && Numbered(was, now[i := 't'], before, after[i := 10 * m], next)
            && next + |Newly(was, now[i := 't'], i + 1)| == m + 1
  {
    var now' := now[i := 't'];
    forall k | k >= i ensures Newly(was, now, k) == Newly(was, now, i) && Newly(was, now', k + 1) == Newly(was, now', i + 1) {
    }
    forall k | k <= i ensures Newly(was, now', k) == Newly(was, now, k) {
    }
    assert Newly(was, now', i + 1) == Newly(was, now, i) + {i as int};
    assert Newly(was, now', |now|) == Newly(was, now, |now|) + {i as int};
  }

  lemma NoneFrom(was: seq<char>, now: seq<char>, i: int, n: int)
    requires |was| == |now| && i <= n && forall k :: i <= k < n && 0 <= k < |was| ==> was[k] == now[k]
    ensures Newly(was, now, i) == Newly(was, now, n)
  {
  }

  /** A seek takes all marks off, a download that of its piece. */
  function Unmarked(flags: seq<char>, seek: bool, piece: nat): (r: seq<char>)
    requires piece < |flags|
    ensures |r| == |flags|
  {
    (if seek then seq(|flags|, _ => 'f') else flags)[piece := 'f']
  }

  /** So an earlier piece gets an earlier deadline. */
  lemma EarlierFirst(was: seq<char>, now: seq<char>, before: map<int, int>, after: map<int, int>, next: int, i: int, k: int)
    requires Numbered(was, now, before, after, next)
    requires i in Newly(was, now, |now|) && k in Newly(was, now, |now|) && i < k
    ensures 10 * next <= after[i] < after[k]
  {
    assert Newly(was, now, i) + {i} <= Newly(was, now, k);
    SubsetSize(Newly(was, now, i) + {i}, Newly(was, now, k));
  }

  class Aux {
    var have: set<int>
    var deadlines: map<int, int>

    const fileFirstPiece: int
    const fileLastPiece: int
    const startupPiecesCountAtStart: int
    const startupPiecesCountAtEnd: int
    var fileFirstPieceForDeadlines: int
    var pieceForUpdateDeadline: int
    const piecesDeadlines: array<char>

    // ---- what holds between calls ----

    predicate InStartup(i: int) {
      || (fileFirstPiece <= i < fileFirstPiece + startupPiecesCountAtStart && i < fileLastPiece)
      || (fileLastPiece - startupPiecesCountAtEnd < i <= fileLastPiece && fileFirstPiece < i)
    }

    /** How many pieces the first startup range marks. */
    function StartMarks(): int {
      Min(startupPiecesCountAtStart, fileLastPiece - fileFirstPiece)
    }

    ghost predicate Complete(pieces: set<int>) {
      forall i :: InStartup(i) ==> i in pieces
    }

    ghost predicate StartupComplete()
      reads this`have
    {
      Complete(have)
    }

    /** The pieces to hurry: absent, from where the player reads. */
    ghost function Wanted(): set<int>
      reads this`have, this`fileFirstPieceForDeadlines
    {
      FirstAbsent(have, fileFirstPieceForDeadlines, fileLastPiece, PRIORITY_PIECES_COUNT_MIN)
    }

    /** The absent pieces that are marked. */
    ghost function Marked(): set<int>
      reads this`have, piecesDeadlines
    {
      set i | 0 <= i < piecesDeadlines.Length && piecesDeadlines[i] == 't' && i !in have
    }

    ghost predicate Flags()
      reads piecesDeadlines
    {
      forall i :: 0 <= i < piecesDeadlines.Length ==> piecesDeadlines[i] == 't' || piecesDeadlines[i] == 'f'
    }

    ghost predicate Valid()
      reads this, piecesDeadlines
    {
      && 0 <= fileFirstPiece <= fileLastPiece && piecesDeadlines.Length == fileLastPiece + 1
      && (forall i :: i in have ==> 0 <= i)
      && Flags()
      && (forall i :: i in Marked() ==> InStartup(i) || i in Wanted())
      && (forall i :: 0 <= i < piecesDeadlines.Length && piecesDeadlines[i] == 't' ==> i in deadlines)
    }

    // ---- the constructor's startup marking ----

    /** tAux::tAux, from the piece numbers on. */
    constructor (have: set<int>, first: int, last: int)
      requires 0 <= first <= last && forall i :: i in have ==> 0 <= i
      ensures Valid() && this.have == have && fileFirstPiece == first && fileLastPiece == last
      ensures fileFirstPieceForDeadlines == first && fresh(piecesDeadlines)
      ensures startupPiecesCountAtStart == Max(CeilDiv(last - first + 1, 200), MIN_STARTUP_PIECES_START)
      ensures startupPiecesCountAtEnd == Max(CeilDiv(last - first + 1, 400), MIN_STARTUP_PIECES_END)
      ensures forall i :: 0 <= i <= last ==> (piecesDeadlines[i] == 't' <==> InStartup(i))
      ensures forall i :: InStartup(i) ==>
                deadlines[i] == 10 * (if last - startupPiecesCountAtEnd < i && first < i then 1 + StartMarks() + last - i else 1 + i - first)
      ensures pieceForUpdateDeadline == first + startupPiecesCountAtStart
    {
      this.have := have;
      deadlines := map[];
      fileFirstPiece, fileLastPiece, fileFirstPieceForDeadlines := first, last, first;
      var piecesCount := last - first + 1;
      startupPiecesCountAtStart := Max(CeilDiv(piecesCount, 200), MIN_STARTUP_PIECES_START);
      startupPiecesCountAtEnd := Max(CeilDiv(piecesCount, 400), MIN_STARTUP_PIECES_END);
      piecesDeadlines := new char[last + 1](_ => 'f');
      pieceForUpdateDeadline := 1;
      new;
      MarkStart();
      MarkEnd();
      pieceForUpdateDeadline := fileFirstPiece + startupPiecesCountAtStart;
    }

    method MarkStart()
      requires 0 <= fileFirstPiece <= fileLastPiece && piecesDeadlines.Length == fileLastPiece + 1
      requires forall i :: 0 <= i <= fileLastPiece ==> piecesDeadlines[i] == 'f'
      requires startupPiecesCountAtStart >= 0
      modifies this`deadlines, this`pieceForUpdateDeadline, piecesDeadlines
      ensures forall i :: 0 <= i <= fileLastPiece ==>
                (piecesDeadlines[i] == 't' <==> fileFirstPiece <= i < fileFirstPiece + startupPiecesCountAtStart && i < fileLastPiece)
      ensures forall i :: 0 <= i <= fileLastPiece && piecesDeadlines[i] == 't' ==>
                i in deadlines && deadlines[i] == 10 * (old(pieceForUpdateDeadline) + i - fileFirstPiece)
      ensures Flags() && pieceForUpdateDeadline == old(pieceForUpdateDeadline) + StartMarks()
    {
      var i := fileFirstPiece;
      while i < fileFirstPiece + startupPiecesCountAtStart && i < fileLastPiece
        invariant fileFirstPiece <= i <= fileLastPiece && i <= fileFirstPiece + startupPiecesCountAtStart && Flags()
        invariant forall k :: 0 <= k <= fileLastPiece ==> (piecesDeadlines[k] == 't' <==> fileFirstPiece <= k < i)
        invariant pieceForUpdateDeadline == old(pieceForUpdateDeadline) + i - fileFirstPiece
        invariant forall k :: fileFirstPiece <= k < i ==>
                    k in deadlines && deadlines[k] == 10 * (old(pieceForUpdateDeadline) + k - fileFirstPiece)
        decreases fileLastPiece - i
      {
        piecesDeadlines[i] := 't';
        deadlines := deadlines[i := pieceForUpdateDeadline * 10];
        pieceForUpdateDeadline := pieceForUpdateDeadline + 1;
        i := i + 1;
      }
    }

    method MarkEnd()
      requires 0 <= fileFirstPiece <= fileLastPiece && piecesDeadlines.Length == fileLastPiece + 1
      requires forall i :: 0 <= i <= fileLastPiece && piecesDeadlines[i] == 't' ==> i in deadlines
      requires startupPiecesCountAtEnd >= 0 && Flags()
      modifies this`deadlines, this`pieceForUpdateDeadline, piecesDeadlines
      ensures forall i :: 0 <= i <= fileLastPiece ==>
                (piecesDeadlines[i] == 't' <==> old(piecesDeadlines[i]) == 't'
                                                || (fileLastPiece - startupPiecesCountAtEnd < i && fileFirstPiece < i))
      ensures forall i :: 0 <= i <= fileLastPiece && piecesDeadlines[i] == 't' ==>
                i in deadlines && deadlines[i] == if fileLastPiece - startupPiecesCountAtEnd < i && fileFirstPiece < i
                                                  then 10 * (old(pieceForUpdateDeadline) + fileLastPiece - i) else old(deadlines)[i]
      ensures Flags()
    {
      var i := fileLastPiece;
      while i > fileLastPiece - startupPiecesCountAtEnd && i > fileFirstPiece
        invariant fileFirstPiece <= i <= fileLastPiece && i >= fileLastPiece - startupPiecesCountAtEnd && Flags()
        invariant forall k :: 0 <= k <= fileLastPiece ==>
                    (piecesDeadlines[k] == 't' <==> old(piecesDeadlines[k]) == 't' || k > i)
        invariant pieceForUpdateDeadline == old(pieceForUpdateDeadline) + fileLastPiece - i
        invariant forall k :: 0 <= k <= fileLastPiece && piecesDeadlines[k] == 't' ==>
                    k in deadlines && deadlines[k] == if i < k then 10 * (old(pieceForUpdateDeadline) + fileLastPiece - k) else old(deadlines)[k]
      {
        piecesDeadlines[i] := 't';
        deadlines := deadlines[i := pieceForUpdateDeadline * 10];
        pieceForUpdateDeadline := pieceForUpdateDeadline + 1;
        i := i - 1;
      }
    }

    // ---- updateDeadlines ----

    /** The loops over the startup ranges. */
    method CheckStartup() returns (complete: bool)
      ensures complete <==> StartupComplete()
    {
      var i := fileFirstPiece;
      while i < fileFirstPiece + startupPiecesCountAtStart && i < fileLastPiece
        invariant fileFirstPiece <= i
        invariant forall k :: fileFirstPiece <= k < i ==> k in have
      {
        if i !in have {
          assert InStartup(i);
          return false;
        }
        i := i + 1;
      }
      var j := fileLastPiece;
      while j > fileLastPiece - startupPiecesCountAtEnd && j > fileFirstPiece
        invariant j <= fileLastPiece
        invariant forall k :: j < k <= fileLastPiece ==> k in have
      {
        if j !in have {
          assert InStartup(j);
          return false;
        }
        j := j - 1;
      }
      complete := true;
    }

    /** A seek: all marks and deadlines go. */
    method Seek(piece: int)
      modifies this`fileFirstPieceForDeadlines, this`deadlines, piecesDeadlines
      ensures fileFirstPieceForDeadlines == piece && deadlines == map[]
      ensures forall i :: 0 <= i < piecesDeadlines.Length ==> piecesDeadlines[i] == 'f'
    {
      fileFirstPieceForDeadlines := piece;
      deadlines := map[];
      for i := 0 to piecesDeadlines.Length
        invariant fileFirstPieceForDeadlines == piece && deadlines == map[]
        invariant forall k :: 0 <= k < i ==> piecesDeadlines[k] == 'f'
      {
        piecesDeadlines[i] := 'f';
      }
    }

    /** Numbering has got as far as piece i. */
    ghost predicate Counting(was: seq<char>, before: map<int, int>, next: int, i: int)
      reads this`deadlines, this`pieceForUpdateDeadline, piecesDeadlines
    {
      && |was| == piecesDeadlines.Length && Numbered(was, piecesDeadlines[..], before, deadlines, next)
      && (forall k :: i <= k && 0 <= k < piecesDeadlines.Length ==> piecesDeadlines[k] == was[k])
      && pieceForUpdateDeadline == next + |Newly(was, piecesDeadlines[..], i)|
    }

    lemma CountFrom(i: int)
      ensures Counting(piecesDeadlines[..], deadlines, pieceForUpdateDeadline, i)
    {
      NothingNew(piecesDeadlines[..], deadlines, pieceForUpdateDeadline, i);
      hide Numbered, Newly;
    }

    lemma CountOn(was: seq<char>, before: map<int, int>, next: int, i: int, n: int)
      requires Counting(was, before, next, i) && i <= n
      ensures Counting(was, before, next, n)
    {
      NoneFrom(was, piecesDeadlines[..], i, n);
      hide Numbered, Newly;
    }

    lemma Counted(was: seq<char>, before: map<int, int>, next: int, i: int)
      requires Counting(was, before, next, i)
      ensures Numbered(was, piecesDeadlines[..], before, deadlines, next)
      ensures pieceForUpdateDeadline == next + |Newly(was, piecesDeadlines[..], piecesDeadlines.Length)|
    {
      var n := Max(i, piecesDeadlines.Length);
      NoneFrom(was, piecesDeadlines[..], i, n);
      NoneFrom(was, piecesDeadlines[..], piecesDeadlines.Length, n);
      hide Numbered, Newly;
    }

    /** The next deadline for piece i. */
    method MarkPiece(i: nat, ghost was: seq<char>, ghost before: map<int, int>, ghost next: int)
      requires i < piecesDeadlines.Length && piecesDeadlines[i] == 'f' && Counting(was, before, next, i)
      modifies this`deadlines, this`pieceForUpdateDeadline, piecesDeadlines
      ensures forall k :: 0 <= k < piecesDeadlines.Length ==> piecesDeadlines[k] == if k == i then 't' else old(piecesDeadlines[k])
      ensures forall k :: k in deadlines <==> k in old(deadlines) || k == i
      ensures Counting(was, before, next, i + 1)
    {
      hide Numbered, Newly;
      NumberNext(was, piecesDeadlines[..], before, deadlines, next, i);
      ghost var now := piecesDeadlines[..];
      deadlines := deadlines[i := pieceForUpdateDeadline * 10];
      pieceForUpdateDeadline := pieceForUpdateDeadline + 1;
      piecesDeadlines[i] := 't';
      assert piecesDeadlines[..] == now[i := 't'];
    }

    /** The loop that marks the first five absent pieces; it throws at once when
        it starts at a negative piece. */
    method MarkWanted() returns (threw: bool)
      requires Valid() && Marked() <= Wanted()
      modifies this`deadlines, this`pieceForUpdateDeadline, piecesDeadlines
      ensures Valid() && threw == (fileFirstPieceForDeadlines < 0)
      ensures !threw ==> Marked() == Wanted()
      ensures threw ==> Marked() == old(Marked())
      ensures forall i :: 0 <= i < piecesDeadlines.Length && piecesDeadlines[i] == 't'
                ==> old(piecesDeadlines[i]) == 't' || i >= fileFirstPieceForDeadlines
      ensures Numbered(old(piecesDeadlines[..]), piecesDeadlines[..], old(deadlines), deadlines, old(pieceForUpdateDeadline))
      ensures pieceForUpdateDeadline == old(pieceForUpdateDeadline) + |Newly(old(piecesDeadlines[..]), piecesDeadlines[..], piecesDeadlines.Length)|
    {
      hide Numbered, Newly, Counting;
      ghost var was, next := piecesDeadlines[..], pieceForUpdateDeadline;
      CountFrom(fileFirstPieceForDeadlines);
      FirstAbsentIn(have, fileFirstPieceForDeadlines, fileLastPiece, PRIORITY_PIECES_COUNT_MIN);
      threw := false;
      var piecesToSet := PRIORITY_PIECES_COUNT_MIN;
      var i := fileFirstPieceForDeadlines;
      while i < fileLastPiece && piecesToSet != 0
        invariant fileFirstPieceForDeadlines <= i && 0 <= piecesToSet
        invariant i < 0 ==> i == fileFirstPieceForDeadlines && Marked() == old(Marked())
        invariant fileFirstPieceForDeadlines < 0 ==> i < 0 && piecesToSet != 0
        invariant Flags()
        invariant forall k :: k in Wanted() && k < i ==> k < piecesDeadlines.Length && piecesDeadlines[k] == 't'
        invariant forall k :: k >= i ==> (k in Wanted() <==> k in FirstAbsent(have, i, fileLastPiece, piecesToSet))
        invariant forall k :: 0 <= k < piecesDeadlines.Length && piecesDeadlines[k] == 't' ==> k in deadlines
        invariant forall k :: 0 <= k < piecesDeadlines.Length && piecesDeadlines[k] == 't' && k !in have ==> k in Wanted()
        invariant forall k :: 0 <= k < piecesDeadlines.Length && piecesDeadlines[k] == 't'
                    ==> old(piecesDeadlines[k]) == 't' || k >= fileFirstPieceForDeadlines
        invariant Counting(was, old(deadlines), next, i)
        decreases fileLastPiece - i
      {
        FirstAbsentIn(have, i + 1, fileLastPiece, if i in have then piecesToSet else piecesToSet - 1);
        if i in have {
          CountOn(was, old(deadlines), next, i, i + 1);
        } else if i < 0 {
          Counted(was, old(deadlines), next, i);
          return true;
        } else if piecesDeadlines[i] == 'f' {
          MarkPiece(i, was, old(deadlines), next);
          piecesToSet := piecesToSet - 1;
        } else {
          CountOn(was, old(deadlines), next, i, i + 1);
          piecesToSet := piecesToSet - 1;
        }
        i := i + 1;
      }
      Counted(was, old(deadlines), next, i);
    }

    /** updateDeadlines(); threw is std::out_of_range from piecesDeadlines.at. */
    method UpdateDeadlines(isValid: bool, downloadedPieceIndex: int, needSeekToThisPiece: int) returns (r: int, threw: bool)
      requires Valid()
      modifies this`fileFirstPieceForDeadlines, this`deadlines, this`pieceForUpdateDeadline, piecesDeadlines
      ensures Valid() && r == (if isValid && !threw then -1 else needSeekToThisPiece)
      ensures threw <==> isValid && (!(0 <= downloadedPieceIndex <= fileLastPiece)
                                     || (StartupComplete() && fileFirstPieceForDeadlines < 0))
      ensures fileFirstPieceForDeadlines
           == if isValid && needSeekToThisPiece != -1 then needSeekToThisPiece else old(fileFirstPieceForDeadlines)
      ensures isValid && !threw && StartupComplete() ==> Marked() == Wanted()
      ensures isValid && needSeekToThisPiece != -1 ==>
                forall i :: 0 <= i < needSeekToThisPiece && i < piecesDeadlines.Length ==> piecesDeadlines[i] == 'f'
      ensures isValid && needSeekToThisPiece != -1 && (!StartupComplete() || threw) ==> Marked() == {}
      ensures isValid && 0 <= downloadedPieceIndex <= fileLastPiece ==>
                var seek := needSeekToThisPiece != -1;
                Numbered(Unmarked(old(piecesDeadlines[..]), seek, downloadedPieceIndex), piecesDeadlines[..],
                         if seek then map[] else old(deadlines), deadlines, old(pieceForUpdateDeadline))
    {
      hide Numbered, Newly;
      r, threw := needSeekToThisPiece, false;
      if !isValid { return; }
      if needSeekToThisPiece != -1 {
        Seek(needSeekToThisPiece);
      }
      var complete := CheckStartup();
      if !(0 <= downloadedPieceIndex < piecesDeadlines.Length) { return r, true; }
      piecesDeadlines[downloadedPieceIndex] := 'f';
      assert piecesDeadlines[..] == Unmarked(old(piecesDeadlines[..]), needSeekToThisPiece != -1, downloadedPieceIndex);
      NothingNew(piecesDeadlines[..], deadlines, pieceForUpdateDeadline, 0);
      if complete {
        threw := MarkWanted();
        if threw { return; }
      }
      r := -1;
    }

    /** Byte `offset` lies in this piece, counting from piece 0 and byte 0. */
    static predicate LiesIn(offset: int, pieceLength: nat, piece: int) {
      piece * pieceLength <= offset < (piece + 1) * pieceLength
    }

    /** The piece that an offset asks for; C++ division drops the fraction. */
    static function PieceOf(offset: int, pieceLength: nat): (r: int)
      requires pieceLength > 0
      ensures 0 <= offset ==> LiesIn(offset, pieceLength, r)
      ensures offset < 0 ==> (r - 1) * pieceLength < offset <= r * pieceLength <= 0
    {
      PieceBounds(offset, pieceLength);
      if offset >= 0 then offset / pieceLength else -(-offset / pieceLength)
    }

    static lemma PieceBounds(offset: int, pieceLength: nat)
      requires pieceLength > 0
      ensures 0 <= offset ==> LiesIn(offset, pieceLength, offset / pieceLength)
      ensures offset < 0 ==> var r := -(-offset / pieceLength); (r - 1) * pieceLength < offset <= r * pieceLength <= 0
    {
      var a := if offset < 0 then -offset else offset;
      QuotientParts(a, pieceLength);
      Negated(a / pieceLength, pieceLength);
    }

    static lemma QuotientParts(a: nat, p: nat)
      requires p > 0
      ensures 0 <= (a / p) * p <= a < (a / p + 1) * p
    {
      var q, r := a / p, a % p;
      assert a == p * q + r;
      MulDistributes(q, 1, p);
    }

    static lemma Negated(q: int, p: int)
      ensures (-q) * p == -(q * p) && (-q - 1) * p == -(q * p) - p
    {
    }

    /** A byte lies in one piece only. */
    static lemma LiesInOne(offset: int, pieceLength: nat, piece: int)
      requires pieceLength > 0 && LiesIn(offset, pieceLength, piece)
      ensures piece == offset / pieceLength
    {
      MulDistributes(piece, 1, pieceLength);
      DivModUnique(offset, pieceLength, piece, offset - piece * pieceLength);
    }

    /** Of a file that begins at byte `start` of the torrent, a seek finds the piece that
        holds the byte if and only if the two fractions of a piece make less than one
        piece; otherwise it stops one piece early. */
    static lemma SeekFinds(start: nat, offset: nat, pieceLength: nat)
      requires pieceLength > 0
      ensures var piece := PieceOf(offset, pieceLength) + start / pieceLength;
              && (LiesIn(start + offset, pieceLength, piece) <==> start % pieceLength + offset % pieceLength < pieceLength)
              && (LiesIn(start + offset, pieceLength, piece) || LiesIn(start + offset, pieceLength, piece + 1))
    {
      var p, q := start / pieceLength, offset / pieceLength;
      assert start == p * pieceLength + start % pieceLength && offset == q * pieceLength + offset % pieceLength;
      assert (q + p) * pieceLength == q * pieceLength + p * pieceLength;
      assert (q + p + 1) * pieceLength == (q + p) * pieceLength + pieceLength;
      assert (q + p + 2) * pieceLength == (q + p) * pieceLength + 2 * pieceLength;
    }

    /** Offsets before the file lead before its first piece only from a whole piece
        length on; where the file begins behind other files, further pieces are left. */
    static lemma PieceOfNegative(offset: int, pieceLength: nat, first: nat)
      requires pieceLength > 0
      ensures first <= PieceOf(offset, pieceLength) + first <==> 0 < offset + pieceLength
      ensures 0 <= PieceOf(offset, pieceLength) + first <==> 0 < offset + (first + 1) * pieceLength
      ensures PieceOf(offset, pieceLength) + first == -1
         <==> offset + (first + 1) * pieceLength <= 0 < offset + (first + 2) * pieceLength
    {
      PieceAbove(offset, pieceLength, 1);
      PieceAbove(offset, pieceLength, first + 1);
      PieceAbove(offset, pieceLength, first + 2);
    }

    static lemma PieceAbove(offset: int, pieceLength: nat, k: nat)
      requires pieceLength > 0 && k >= 1
      ensures 0 < PieceOf(offset, pieceLength) + k <==> 0 < offset + k * pieceLength
    {
      MulGrows(k, pieceLength);
      if offset < 0 {
        QuotientBelow(-offset, pieceLength, k);
      } else {
        QuotientBelow(offset, pieceLength, 0);
      }
    }

    /** a / p < k exactly when a < k * p. */
    static lemma QuotientBelow(a: nat, p: nat, k: nat)
      requires p > 0
      ensures a / p >= 0 && (a / p < k <==> a < k * p)
    {
      var q, r := a / p, a % p;
      assert a == q * p + r;
      if q < k {
        assert k * p == q * p + (k - q) * p by { MulDistributes(q, k - q, p); }
        MulGrows(k - q, p);
      } else {
        assert q * p == k * p + (q - k) * p by { MulDistributes(k, q - k, p); }
        assert (q - k) * p >= 0;
      }
    }

    /** Streamerok::seekInFile.  The offset is checked against the file size
        only, so it may lead to piece -1, which means no seek, or before it.  What
        updateDeadlines returns is kept for the next callback: the piece itself when
        the handle is not valid, and what was kept before when it throws. */
    method SeekInFile(isValid: bool, offset: int, fileSize: nat, pieceLength: nat, fileVeryFirstPiece: nat, kept: int)
      returns (r: int, need: int, threw: bool)
      requires Valid() && pieceLength > 0
      modifies this`fileFirstPieceForDeadlines, this`deadlines, this`pieceForUpdateDeadline, piecesDeadlines
      ensures Valid() && r == (if fileSize < offset then -1 else 0)
      ensures threw <==> r == 0 && isValid && StartupComplete() && fileFirstPieceForDeadlines < 0
      ensures r == 0 && isValid ==>
                var piece := PieceOf(offset, pieceLength) + fileVeryFirstPiece;
                fileFirstPieceForDeadlines == if piece == -1 then old(fileFirstPieceForDeadlines) else piece
      ensures r == 0 && isValid && 0 <= offset ==> LiesIn(offset, pieceLength, fileFirstPieceForDeadlines - fileVeryFirstPiece)
      ensures r == -1 || !isValid ==> fileFirstPieceForDeadlines == old(fileFirstPieceForDeadlines)
      ensures need == if r == -1 || threw then kept
                      else if isValid then -1 else PieceOf(offset, pieceLength) + fileVeryFirstPiece
      ensures r == 0 && isValid && PieceOf(offset, pieceLength) + fileVeryFirstPiece != -1 ==>
                forall i :: 0 <= i < fileFirstPieceForDeadlines && i < piecesDeadlines.Length ==> piecesDeadlines[i] == 'f'
      ensures r == 0 && isValid && !threw && StartupComplete() ==> Marked() == Wanted()
    {
      need, threw := kept, false;
      if fileSize < offset { return -1, kept, false; }
      var piece := PieceOf(offset, pieceLength);
      var returned;
      returned, threw := UpdateDeadlines(isValid, 0, piece + fileVeryFirstPiece);
      if !threw { need := returned; }
      r := 0;
    }

    /** Pieces arrive at any time. */
    method Gain(more: set<int>)
      requires Valid() && forall i :: i in more ==> 0 <= i
      modifies this`have
      ensures Valid() && have == old(have) + more
    {
      ghost var wanted := Wanted();
      FirstAbsentGrows(have, have + more, fileFirstPieceForDeadlines, fileLastPiece,
                       PRIORITY_PIECES_COUNT_MIN, PRIORITY_PIECES_COUNT_MIN);
      assert forall i :: i in Marked() && i !in more ==> InStartup(i) || i in wanted;
      have := have + more;
    }

    /** Once the startup ranges are there, never more than five absent pieces are marked. */
    lemma FewMarked()
      requires Valid() && StartupComplete()
      ensures Marked() <= Wanted() && |Marked()| <= PRIORITY_PIECES_COUNT_MIN
    {
      FirstAbsentSize(have, fileFirstPieceForDeadlines, fileLastPiece, PRIORITY_PIECES_COUNT_MIN);
      SubsetSize(Marked(), Wanted());
    }

    /** A file of one piece has no startup range and nothing that is ever wanted. */
    lemma SinglePiece()
      requires Valid() && startupPiecesCountAtStart > 0 && fileFirstPiece <= fileFirstPieceForDeadlines
      ensures (forall i :: !InStartup(i)) <==> fileFirstPiece == fileLastPiece
      ensures fileFirstPiece == fileLastPiece ==> Wanted() == {}
    {
      if fileFirstPiece < fileLastPiece {
        assert InStartup(fileFirstPiece);
      }
    }
  }

  lemma SubsetSize(a: set<int>, b: set<int>)
    requires a <= b
    ensures |a| <= |b|
  {
    assert b == a + (b - a);
  }

  // ---- any run ----

  datatype Event =
    | Arrival(pieces: set<int>)
    | Downloaded(isValid: bool, piece: int)
    | SeekTo(isValid: bool, offset: int)

  /** What a run decides besides the marks: the pieces there, where the deadlines
      start, and the seek that is kept for the next callback. */
  datatype Player = Player(have: set<int>, first: int, need: int)

  /** updateDeadlines asked to seek to `need` (or not, if that is -1), with `kept`
      waiting for its result. */
  ghost function Updated(aux: Aux, p: Player, isValid: bool, piece: int, need: int): Player {
    if !isValid then p.(need := need)
    else
      var first := if need != -1 then need else p.first;
      var threw := !(0 <= piece <= aux.fileLastPiece) || (aux.Complete(p.have) && first < 0);
      Player(p.have, first, if threw then p.need else -1)
  }

  ghost function After(aux: Aux, p: Player, event: Event, fileSize: nat, pieceLength: nat): Player
    requires pieceLength > 0
  {
    match event
    case Arrival(pieces) => p.(have := p.have + pieces)
    case Downloaded(isValid, piece) => Updated(aux, p, isValid, piece, p.need)
    case SeekTo(isValid, offset) =>
      if fileSize < offset then p
      else Updated(aux, p, isValid, 0, Aux.PieceOf(offset, pieceLength) + aux.fileFirstPiece)
  }

  ghost function AfterAll(aux: Aux, p: Player, events: seq<Event>, fileSize: nat, pieceLength: nat): Player
    requires pieceLength > 0
  {
    if events == [] then p
    else After(aux, AfterAll(aux, p, events[..|events| - 1], fileSize, pieceLength), events[|events| - 1], fileSize, pieceLength)
  }

  /** A seek into the file takes effect by the next callback that finds the handle
      valid, whether it was valid for the seek or not, and whatever arrives between. */
  lemma SeekTakesEffect(aux: Aux, p: Player, wasValid: bool, offset: int, pieces: set<int>, piece: int,
                        fileSize: nat, pieceLength: nat)
    requires pieceLength > 0 && 0 < offset + pieceLength && offset <= fileSize
    requires 0 <= aux.fileFirstPiece && 0 <= aux.fileLastPiece && 0 <= piece <= aux.fileLastPiece
    ensures var q := AfterAll(aux, p, [SeekTo(wasValid, offset), Arrival(pieces), Downloaded(true, piece)], fileSize, pieceLength);
            && q.first == Aux.PieceOf(offset, pieceLength) + aux.fileFirstPiece && q.need == -1
            && (0 <= offset ==> Aux.LiesIn(offset, pieceLength, q.first - aux.fileFirstPiece))
  {
    Aux.PieceOfNegative(offset, pieceLength, aux.fileFirstPiece);
    var events := [SeekTo(wasValid, offset), Arrival(pieces), Downloaded(true, piece)];
    assert events[..2] == [SeekTo(wasValid, offset), Arrival(pieces)] && events[..2][..1] == [SeekTo(wasValid, offset)];
    assert events[..2][..1][..0] == [];
    var a := After(aux, p, SeekTo(wasValid, offset), fileSize, pieceLength);
    assert AfterAll(aux, p, events[..2][..1], fileSize, pieceLength) == a;
    assert AfterAll(aux, p, events[..2], fileSize, pieceLength) == a.(have := a.have + pieces);
  }

  /** After this event the marks are exactly the wanted pieces. */
  ghost predicate Exact(aux: Aux, event: Event, fileSize: nat, pieceLength: nat)
    reads aux
  {
    match event
    case Arrival(_) => false
    case Downloaded(isValid, piece) => isValid && 0 <= piece <= aux.fileLastPiece && 0 <= aux.fileFirstPieceForDeadlines
    case SeekTo(isValid, offset) => isValid && 0 < offset + pieceLength && offset <= fileSize
  }

  /** After a seek into the file the deadlines start at the piece that holds the offset. */
  ghost predicate SeekDone(aux: Aux, event: Event, fileSize: nat, pieceLength: nat)
    reads aux
  {
    event.SeekTo? && event.isValid && 0 <= event.offset <= fileSize ==>
      Aux.LiesIn(event.offset, pieceLength, aux.fileFirstPieceForDeadlines - aux.fileFirstPiece)
  }

  /** Over any run of arrivals, callbacks and seeks: whenever both startup
      ranges are there, at most five absent pieces are marked, all of them among
      the first that are wanted; right after a callback that does not throw, or
      a seek into the file, exactly those.  Seeks that find no valid handle, or
      throw, are handed on to the next callback. */
  method Run(aux: Aux, events: seq<Event>, fileSize: nat, pieceLength: nat, kept: int) returns (need: int)
    requires aux.Valid() && pieceLength > 0
    requires forall e :: e in events && e.Arrival? ==> forall i :: i in e.pieces ==> 0 <= i
    modifies aux, aux.piecesDeadlines
    ensures aux.Valid() && old(aux.have) <= aux.have
    ensures Player(aux.have, aux.fileFirstPieceForDeadlines, need)
         == AfterAll(aux, Player(old(aux.have), old(aux.fileFirstPieceForDeadlines), kept), events, fileSize, pieceLength)
    ensures aux.StartupComplete() ==> aux.Marked() <= aux.Wanted() && |aux.Marked()| <= PRIORITY_PIECES_COUNT_MIN
    ensures events != [] && aux.StartupComplete() && Exact(aux, events[|events| - 1], fileSize, pieceLength) ==>
              aux.Marked() == aux.Wanted()
    ensures events != [] ==> SeekDone(aux, events[|events| - 1], fileSize, pieceLength)
  {
    ghost var p := Player(aux.have, aux.fileFirstPieceForDeadlines, kept);
    need := kept;
    for n := 0 to |events|
      invariant aux.Valid() && old(aux.have) <= aux.have
      invariant Player(aux.have, aux.fileFirstPieceForDeadlines, need) == AfterAll(aux, p, events[..n], fileSize, pieceLength)
      invariant n > 0 && aux.StartupComplete() && Exact(aux, events[n - 1], fileSize, pieceLength) ==>
                  aux.Marked() == aux.Wanted()
      invariant n > 0 ==> SeekDone(aux, events[n - 1], fileSize, pieceLength)
    {
      assert events[..n + 1][..n] == events[..n];
      match events[n] {
        case Arrival(pieces) =>
          aux.Gain(pieces);
        case Downloaded(isValid, piece) =>
          var returned, threw := aux.UpdateDeadlines(isValid, piece, need);
          if !threw { need := returned; }
        case SeekTo(isValid, offset) =>
          Aux.PieceOfNegative(offset, pieceLength, aux.fileFirstPiece);
          var r, threw;
          r, need, threw := aux.SeekInFile(isValid, offset, fileSize, pieceLength, aux.fileFirstPiece, need);
      }
    }
    assert events[..|events|] == events;
    if aux.StartupComplete() { aux.FewMarked(); }
  }
}
