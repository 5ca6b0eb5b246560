/** gzread.c and gzlib.c: reading a file that may hold gzip members at any
    position of its decoded stream.

    The decompressor is taken by contract (`Inflater`): what it may consume and
    write in one call.  The file is a byte sequence whose reads may be short and
    may fail. */
module GzRead {
  import opened Lz77

  /** One gzip member and the bytes it decodes to.  A member cut short by the end
      of the file decodes to what its bytes determine.  The bytes of a damaged one
      end where inflate finds the damage. */
  datatype Member = Member(bytes: seq<byte>, text: seq<byte>, cut: bool, bad: bool)

  datatype How = Look | Copy | Gzip

  datatype Error = NoError | BufError | Errno | DataError

  datatype Whence = SeekSet | SeekCur

  const INT_MAX := 0x7fff_ffff

  predicate Magic(s: seq<byte>) {
    |s| > 1 && s[0] == 31 && s[1] == 139
  }

  /** ID1 and ID2 of section 2.3.1 of RFC 1952. */
  lemma MagicIs(s: seq<byte>)
    ensures Magic(s) <==> [0x1f, 0x8b] <= s
  {
  }

  function Packed(ms: seq<Member>, k: nat): seq<byte>
    requires k <= |ms|
  {
    if k == 0 then [] else Packed(ms, k - 1) + ms[k - 1].bytes
  }

  function Plain(ms: seq<Member>, k: nat): seq<byte>
    requires k <= |ms|
  {
    if k == 0 then [] else Plain(ms, k - 1) + ms[k - 1].text
  }

  /** What the file holds from where it was opened: gzip members, then bytes that
      do not begin one.  With no member at all the bytes are read as they are;
      after members they are ignored. */
  datatype Archive = Archive(members: seq<Member>, rest: seq<byte>) {
    ghost predicate WellFormed() {
      && (Magic(rest) ==> Damaged())
      && (forall m :: m in members ==> Magic(m.bytes))
      && (forall i :: 0 <= i < |members| && members[i].cut ==> i == |members| - 1 && rest == [])
      && (forall i :: 0 <= i < |members| && members[i].bad ==> i == |members| - 1 && !members[i].cut)
    }

    /** Whatever follows a damaged member is not looked at. */
    predicate Damaged() {
      members != [] && members[|members| - 1].bad
    }

    ghost predicate Whole() {
      forall m :: m in members ==> !m.cut && !m.bad
    }

    function Bytes(): seq<byte> { Packed(members, |members|) + rest }

    /** The decoded stream. */
    function Text(): seq<byte> {
      if members == [] then rest else Plain(members, |members|)
    }

    lemma Located(k: nat)
      requires k < |members|
      ensures Within(Packed(members, k), members[k].bytes, Bytes())
      ensures Within(Plain(members, k), members[k].text, Text())
    {
      MemberWithin(members, k, |members|);
      Later(Packed(members, k), members[k].bytes, Packed(members, |members|), rest);
    }
  }

  lemma Later(a: seq<byte>, b: seq<byte>, w: seq<byte>, more: seq<byte>)
    requires Within(a, b, w)
    ensures Within(a, b, w + more)
  {
    assert (w + more)[|a|..|a| + |b|] == w[|a|..|a| + |b|];
  }

  lemma {:induction false} MemberWithin(ms: seq<Member>, k: nat, j: nat)
    requires k < j <= |ms|
    ensures Within(Packed(ms, k), ms[k].bytes, Packed(ms, j))
    ensures Within(Plain(ms, k), ms[k].text, Plain(ms, j))
    decreases j
  {
    if k + 1 < j {
      MemberWithin(ms, k, j - 1);
      Later(Packed(ms, k), ms[k].bytes, Packed(ms, j - 1), ms[j - 1].bytes);
      Later(Plain(ms, k), ms[k].text, Plain(ms, j - 1), ms[j - 1].text);
    }
  }

  /** After a, w reads b. */
  ghost predicate Within(a: seq<byte>, b: seq<byte>, w: seq<byte>) {
    |a| + |b| <= |w| && w[|a|..|a| + |b|] == b
  }

  /** An array holds n bytes of a sequence. */
  ghost predicate Same(a: array<byte>, off: int, s: seq<byte>, at: int, n: nat)
    reads a
  {
    && 0 <= off && off + n <= a.Length
    && (n > 0 ==> 0 <= at && at + n <= |s|)
    && forall j :: off <= j < off + n ==> a[j] == s[at + j - off]
  }

  /** What one call of inflate with `availIn` bytes of input and `space` bytes of
      output does to a member of which `taken` bytes were consumed and `given`
      bytes written: it stops at the end of the member, or with no input left, or
      with the output full.  The last byte goes only after all of the text. */
  predicate Inflates(m: Member, taken: nat, given: nat, availIn: nat, space: nat, u: nat, g: nat) {
    && u <= availIn && g <= space
    && taken + u <= |m.bytes| && given + g <= |m.text|
    && (Ended(m, taken + u) || u == availIn || g == space)
    && (taken + u == |m.bytes| && (!m.cut || g < space) ==> given + g == |m.text|)
  }

  predicate Ended(m: Member, taken: nat) { !m.cut && taken == |m.bytes| }

  lemma SomeInflate(m: Member, taken: nat, given: nat, availIn: nat, space: nat)
    requires taken <= |m.bytes| && given <= |m.text| && !Ended(m, taken)
    requires m.cut ==> taken + availIn <= |m.bytes|
    ensures exists u, g :: Inflates(m, taken, given, availIn, space, u, g)
  {
    if taken + availIn < |m.bytes| {
      assert Inflates(m, taken, given, availIn, space, availIn, 0);
    } else if given + space >= |m.text| {
      assert Inflates(m, taken, given, availIn, space, |m.bytes| - taken, |m.text| - given);
    } else {
      assert Inflates(m, taken, given, availIn, space, 0, space);
    }
  }

  /** The n elements of s at `at` are those of t at `to`. */
  ghost predicate Agree(s: seq<byte>, at: int, t: seq<byte>, to: int, n: nat) {
    n > 0 ==>
      && 0 <= at && at + n <= |s|
      && 0 <= to && to + n <= |t|
      && s[at..at + n] == t[to..to + n]
  }

  lemma SliceOfSlice(w: seq<byte>, a: int, b: int, k: int, n: nat)
    requires 0 <= a <= b <= |w| && 0 <= k && k + n <= b - a
    ensures w[a..b][k..k + n] == w[a + k..a + k + n]
  {
    var l, r := w[a..b][k..k + n], w[a + k..a + k + n];
    assert forall i :: 0 <= i < n ==> l[i] == r[i];
  }

  lemma AgreeWithin(a: seq<byte>, b: seq<byte>, w: seq<byte>, k: int, n: nat)
    requires Within(a, b, w) && 0 <= k && k + n <= |b|
    ensures Agree(b, k, w, |a| + k, n)
  {
    SliceOfSlice(w, |a|, |a| + |b|, k, n);
    assert b[k..k + n] == w[|a| + k..|a| + k + n];
  }

  lemma SameAgree(a: array<byte>, off: int, s: seq<byte>, at: int, t: seq<byte>, to: int, n: nat)
    requires Same(a, off, s, at, n) && (Agree(s, at, t, to, n) || Agree(t, to, s, at, n))
    ensures Same(a, off, t, to, n)
  {
    forall j | off <= j < off + n ensures a[j] == t[to + j - off] {
      assert s[at..at + n][j - off] == t[to..to + n][j - off];
    }
  }

  function Max(a: int, b: int): int { if a >= b then a else b }

  lemma SameNone(a: array<byte>, off: nat, s: seq<byte>, at: int)
    ensures off <= a.Length ==> Same(a, off, s, at, 0)
  {
  }

  lemma SameTail(a: array<byte>, off: int, s: seq<byte>, at: int, u: nat, n: nat)
    requires Same(a, off, s, at, u + n)
    ensures Same(a, off + u, s, at + u, n)
  {
  }

  lemma SameJoin(a: array<byte>, off: int, s: seq<byte>, at: int, m: nat, n: nat)
    requires Same(a, off, s, at, m) && Same(a, off + m, s, at + m, n)
    ensures Same(a, off, s, at, m + n)
  {
  }

  /** How far the reader is into the members. */
  datatype Spot = Spot(how: How, direct: bool, member: nat, taken: nat, given: nat)

  /** What the file descriptor's offset, the unread input and the bytes of the
      stream produced so far have to do with each other. */
  ghost predicate Stands(f: Archive, s: Spot, read: int, availIn: nat, eof: bool, reached: int) {
    && s.member <= |f.members|
    && (s.direct ==> s.member == 0 && s.how != Gzip)
    && (!s.direct ==> f.members != [])
    && match s.how
       case Look =>
         && reached == |Plain(f.members, s.member)|
         && (s.member > 0 ==> !f.members[s.member - 1].bad)
         && (Dropped(f, s.member, availIn, eof) || read - availIn == |Packed(f.members, s.member)|)
         && read <= |f.Bytes()| && (eof ==> Dropped(f, s.member, availIn, eof) || read == |f.Bytes()|)
       case Copy =>
         f.members == [] && availIn == 0 && read == reached && (eof ==> |f.Bytes()| <= read)
       case Gzip =>
         && s.member < |f.members|
         && Inside(f.members[s.member], s.taken, s.given)
         && reached == |Plain(f.members, s.member)| + s.given
         && read - availIn == |Packed(f.members, s.member)| + s.taken
         && read <= |f.Bytes()| && (eof ==> read == |f.Bytes()|)
  }

  /** inflate has not reported the end of the member. */
  predicate Inside(m: Member, taken: nat, given: nat) {
    taken <= |m.bytes| && given <= |m.text| && !Ended(m, taken)
  }

  /** The bytes after the last member were ignored. */
  predicate Dropped(f: Archive, member: nat, availIn: nat, eof: bool) {
    eof && availIn == 0 && f.members != [] && member == |f.members|
  }

  lemma MoreInput(f: Archive, s: Spot, read: int, availIn: nat, reached: int, n: nat, eof: bool)
    requires Stands(f, s, read, availIn, false, reached) && s.how != Copy
    requires (n > 0 ==> read + n <= |f.Bytes()|) && (eof ==> |f.Bytes()| <= read + n)
    ensures Stands(f, s, read + n, availIn + n, eof, reached)
  {
  }

  /** Looking at two bytes of input, or at all there is, tells members from what
      follows them. */
  lemma Recognised(f: Archive, s: Spot, read: int, availIn: nat, eof: bool, reached: int, head: seq<byte>)
    requires f.WellFormed() && Stands(f, s, read, availIn, eof, reached) && s.how == Look
    requires 0 < availIn <= read && head == f.Bytes()[read - availIn..][..availIn] && (2 <= availIn || eof)
    ensures Magic(head) ==> Stands(f, s.(how := Gzip, direct := false, taken := 0, given := 0), read, availIn, eof, reached)
    ensures !Magic(head) && !s.direct ==> Stands(f, s, read, 0, true, reached)
    ensures !Magic(head) && s.direct ==>
              reached == 0 && f.Text() == f.Bytes() && Stands(f, s.(how := Copy), read, 0, eof, availIn)
  {
    var tail := f.Bytes()[read - availIn..];
    assert |tail| >= availIn;
    assert eof ==> |tail| == availIn;
    if s.member < |f.members| {
      f.Located(s.member);
      var m := f.members[s.member];
      assert m in f.members;
      assert forall i :: 0 <= i < |m.bytes| ==> m.bytes[i] == f.Bytes()[|Packed(f.members, s.member)|..|Packed(f.members, s.member)| + |m.bytes|][i];
      assert Magic(m.bytes) && Magic(head);
    } else {
      assert tail == f.rest;
      assert !Magic(head);
    }
  }

  /** After a call of inflate: further into the member, or at the next one. */
  lemma Inflated(f: Archive, s: Spot, read: int, availIn: nat, eof: bool, reached: int, space: nat, u: nat, g: nat)
    requires f.WellFormed() && Stands(f, s, read, availIn, eof, reached) && s.how == Gzip
    requires Inflates(f.members[s.member], s.taken, s.given, availIn, space, u, g)
    ensures if Ended(f.members[s.member], s.taken + u)
            then !f.members[s.member].bad ==> Stands(f, s.(how := Look, member := s.member + 1, taken := s.taken + u, given := s.given + g), read, availIn - u, eof, reached + g)
            else Stands(f, s.(taken := s.taken + u, given := s.given + g), read, availIn - u, eof, reached + g)
    ensures Agree(f.members[s.member].text, s.given, f.Text(), reached, g)
  {
    f.Located(s.member);
    var m := f.members[s.member];
    assert Packed(f.members, s.member + 1) == Packed(f.members, s.member) + m.bytes;
    assert Plain(f.members, s.member + 1) == Plain(f.members, s.member) + m.text;
    AgreeWithin(Plain(f.members, s.member), m.text, f.Text(), s.given, g);
  }

  /** The unread input is what the member goes on with. */
  lemma FedItsOwn(f: Archive, s: Spot, read: int, availIn: nat, eof: bool, reached: int)
    requires f.WellFormed() && Stands(f, s, read, availIn, eof, reached) && s.how == Gzip
    ensures Inside(f.members[s.member], s.taken, s.given)
    ensures f.members[s.member].cut ==> s.taken + availIn <= |f.members[s.member].bytes|
    ensures Agree(f.members[s.member].bytes, s.taken, f.Bytes(), read - availIn,
                  Min(availIn, |f.members[s.member].bytes| - s.taken))
  {
    f.Located(s.member);
    var m := f.members[s.member];
    AgreeWithin(Packed(f.members, s.member), m.bytes, f.Bytes(), s.taken, Min(availIn, |m.bytes| - s.taken));
  }

  /** When no input is left nor to come, the stream is at its end, or the last
      member was cut short. */
  lemma AllRead(f: Archive, s: Spot, read: int, reached: int)
    requires f.WellFormed() && Stands(f, s, read, 0, true, reached)
    ensures f.Whole() ==> s.how != Gzip
    ensures s.how == Look ==> reached == |f.Text()|
    ensures s.how == Copy ==> |f.Text()| <= reached
  {
    if s.member < |f.members| {
      f.Located(s.member);
      assert f.members[s.member] in f.members;
      assert s.how != Copy;
    }
  }

  lemma WithinText(f: Archive, s: Spot, read: int, availIn: nat, eof: bool, reached: int)
    requires f.WellFormed() && Stands(f, s, read, availIn, eof, reached) && s.how != Copy
    ensures 0 <= reached <= |f.Text()| && read - availIn <= |f.Bytes()|
  {
    if s.member < |f.members| { f.Located(s.member); }
  }

  class GzFile {
    const disk: seq<byte>
    const start: nat
    const file: Archive
    const seekable: bool
    const faulty: bool     // reads of the file may fail
    const size: nat
    const input: array<byte>
    const out: array<byte>

    var fd: nat
    var eof: bool
    var past: bool
    var err: Error

    var how: How
    var direct: bool
    var seek: bool
    var skip: int

    var have: nat
    var next: nat
    var pos: nat

    var nextIn: nat
    var availIn: nat

    /** The inflate stream: which member, and how far into it. */
    var member: nat
    var taken: nat
    var given: nat

    predicate Fatal()
      reads this`err
    {
      err != NoError && err != BufError
    }

    /** An error has its cause: a read of the file that failed, or a member that is not whole. */
    ghost predicate Blame()
      reads this`err
    {
      (err == Errno ==> faulty) && (err == DataError ==> !file.Whole())
    }

    /** No input left, and none to come. */
    predicate NoInput()
      reads this`eof, this`availIn
    {
      eof && availIn == 0
    }

    ghost predicate Sane()
    {
      && 2 <= size && input.Length == size && out.Length == 2 * size && input != out
      && start <= |disk| && file.WellFormed() && disk[start..] == file.Bytes()
    }

    function At(): int
      reads this`fd, this`availIn
    {
      fd - availIn - start
    }

    ghost predicate Placed(reached: int)
      reads this`fd, this`eof, this`how, this`direct, this`member, this`taken, this`given, this`availIn
    {
      Stands(file, Spot(how, direct, member, taken, given), fd - start, availIn, eof, reached)
    }

    ghost predicate Core(reached: int)
      reads this`fd, this`eof, this`how, this`direct, this`member, this`taken, this`given, this`nextIn, this`availIn, input
    {
      && Sane()
      && nextIn + availIn <= size
      && start <= fd - availIn
      && Same(input, nextIn, disk, fd - availIn, availIn)
      && Placed(reached)
    }

    /** The bytes at `next` are the ones at position `pos` of the stream; a seek
        request waits only when there are none. */
    ghost predicate Intact()
      reads this, input, out
    {
      && !Fatal() && (file.Whole() ==> err == NoError)
      && Core(pos + have)
      && (have > 0 ==> Same(out, next, file.Text(), pos, have))
      && (seek ==> have == 0 && 0 < skip && how != Copy)
    }

    lemma CoreParts(reached: int)
      requires Core(reached)
      ensures out != input && 2 <= size && input.Length == size && out.Length == 2 * size
    {
    }

    lemma UnreadIs(reached: int, head: seq<byte>)
      requires Core(reached) && head == input[nextIn..nextIn + availIn] && how != Copy
      ensures 0 <= fd - start - availIn <= |file.Bytes()| - availIn
      ensures head == file.Bytes()[fd - start - availIn..][..availIn]
    {
    }

    /** gztell64. */
    function Tell(): int
      reads this
    {
      pos + (if seek then skip else 0)
    }

    method SetError(e: Error)
      modifies this`err, this`have
      ensures err == e
      ensures have == if e == NoError || e == BufError then old(have) else 0
    {
      if e != NoError && e != BufError {
        have := 0;
      }
      err := e;
    }

    // ---- reading the file ----

    /** read(2): fails, or reads at least one byte unless at the end of the file. */
    method ReadFile(dst: array<byte>, off: nat, len: nat) returns (ret: int)
      requires off + len <= dst.Length
      modifies this`fd, dst
      ensures -1 <= ret <= len && (ret == -1 ==> faulty)
      ensures ret == 0 ==> len == 0 || |disk| <= fd
      ensures ret <= 0 ==> fd == old(fd)
      ensures ret > 0 ==> fd == old(fd) + ret && Same(dst, off, disk, old(fd), ret)
      ensures forall i :: 0 <= i < dst.Length && !(off <= i < off + ret) ==> dst[i] == old(dst[i])
    {
      var failed: bool := *;
      if faulty && failed { return -1; }
      if len == 0 || |disk| <= fd { return 0; }
      var n: nat :| 1 <= n <= len && fd + n <= |disk|;
      forall i | 0 <= i < n {
        dst[off + i] := disk[fd + i];
      }
      fd := fd + n;
      return n;
    }

    method Load(dst: array<byte>, off: nat, len: nat) returns (r: int, n: nat)
      requires off + len <= dst.Length && 0 < len
      modifies this`fd, this`eof, this`err, this`have, dst
      ensures r == 0 || (r == -1 && err == Errno && faulty && have == 0)
      ensures n <= len && fd == old(fd) + n
      ensures r == 0 ==> err == old(err) && have == old(have)
      ensures r == 0 ==> eof == (old(eof) || n < len) && (n < len ==> |disk| <= fd)
      ensures Same(dst, off, disk, old(fd), n)
      ensures forall i :: 0 <= i < dst.Length && !(off <= i < off + n) ==> dst[i] == old(dst[i])
    {
      n := 0;
      var ret: int;
      while true
        invariant n < len && fd == old(fd) + n
        invariant Same(dst, off, disk, old(fd), n)
        invariant err == old(err) && have == old(have) && eof == old(eof)
        invariant forall i :: 0 <= i < dst.Length && !(off <= i < off + n) ==> dst[i] == old(dst[i])
        decreases len - n
      {
        ret := ReadFile(dst, off + n, len - n);
        if ret <= 0 { break; }
        n := n + ret;
        if n >= len { break; }
      }
      if ret < 0 {
        SetError(Errno);
        return -1, n;
      }
      if ret == 0 {
        eof := true;
      }
      r := 0;
    }

    /** Moves the unread input to the start of its buffer. */
    method Compact()
      requires nextIn + availIn <= input.Length && Same(input, nextIn, disk, fd - availIn, availIn)
      modifies input
      ensures Same(input, 0, disk, fd - availIn, availIn)
    {
      var p, q, n := 0, nextIn, availIn;
      while n > 0
        invariant p + n == availIn && q == nextIn + p
        invariant Same(input, 0, disk, fd - availIn, p)
        invariant Same(input, q, disk, fd - n, n)
        modifies input
      {
        input[p] := input[q];
        p, q, n := p + 1, q + 1, n - 1;
      }
    }

    /** Fills the input buffer; the unread input is the same bytes of the file. */
    method TopUp(ghost reached: int) returns (r: int)
      requires Core(reached) && availIn < size && how != Copy && !eof
      modifies this`fd, this`eof, this`err, this`have, this`nextIn, this`availIn, input
      ensures r == 0 || (r == -1 && err == Errno && faulty)
      ensures r == 0 ==> Core(reached) && At() == old(At()) && err == old(err) && have == old(have)
      ensures r == 0 ==> (availIn == size || eof) && old(availIn) <= availIn
    {
      hide Stands, Same, Archive.Bytes, Archive.WellFormed;
      ghost var spot, read, unread := Spot(how, direct, member, taken, given), fd - start, availIn;
      assert |disk| - start == |file.Bytes()| by { assert |disk| - start == |disk[start..]|; }
      if availIn > 0 {
        Compact();
      } else {
        SameNone(input, 0, disk, fd);
      }
      var got;
      r, got := LoadMore();
      if r == -1 { return; }
      MoreInput(file, spot, read, unread, reached, got, eof);
      availIn := availIn + got;
      nextIn := 0;
    }

    /** Loads the file after the unread input. */
    method LoadMore() returns (r: int, got: nat)
      requires availIn < size == input.Length && Same(input, 0, disk, fd - availIn, availIn)
      modifies this`fd, this`eof, this`err, this`have, input
      ensures r == 0 || (r == -1 && err == Errno && faulty)
      ensures got <= size - availIn && fd == old(fd) + got && (got > 0 ==> fd <= |disk|)
      ensures r == 0 ==> Same(input, 0, disk, old(fd) - availIn, availIn + got)
      ensures r == 0 ==> err == old(err) && have == old(have)
      ensures r == 0 ==> eof == (old(eof) || got < size - availIn) && (got < size - availIn ==> |disk| <= fd)
    {
      r, got := Load(input, availIn, size - availIn);
      if r == -1 { return; }
      SameJoin(input, 0, disk, fd - got - availIn, availIn, got);
    }

    method Avail(ghost reached: int) returns (r: int)
      requires Core(reached) && availIn < size && how != Copy
      modifies this`fd, this`eof, this`err, this`have, this`nextIn, this`availIn, input
      ensures r == 0 || (r == -1 && Fatal() && (old(!Fatal()) ==> err == Errno && faulty))
      ensures r == 0 ==> Core(reached) && At() == old(At()) && err == old(err) && have == old(have)
      ensures r == 0 ==> (availIn == size || eof) && old(availIn) <= availIn
      ensures r == 0 && old(eof) ==> eof && availIn == old(availIn)
    {
      hide Core;
      if Fatal() { return -1; }
      if !eof {
        r := TopUp(reached);
        if r == -1 { return -1; }
      }
      r := 0;
    }

    /** gz_look. */
    method GzLook() returns (r: int)
      requires Core(pos) && have == 0 && how == Look && !NoInput() && !Fatal()
      modifies this`fd, this`eof, this`err, this`have, this`next, this`nextIn, this`availIn, this`how, this`direct, this`taken, this`given, input, out
      ensures r == 0 || (r == -1 && err == Errno && faulty)
      ensures r == 0 ==> Core(pos + have) && err == old(err) && (have > 0 ==> Same(out, next, file.Text(), pos, have))
      ensures r == 0 && how == Look ==> NoInput() && have == 0
      ensures r == 0 && how == Copy ==> 0 < have
      ensures r == 0 && how == Gzip ==> have == 0
      ensures r == 0 ==> At() >= old(At())
    {
      hide Core, Same;
      assert out != input && 2 <= size by { CoreParts(pos); }
      if availIn < 2 {
        r := Avail(pos);
        if r == -1 { return -1; }
        if availIn == 0 { return 0; }
      }
      Classify();
      r := 0;
    }

    /** The part of gz_look after the input was topped up. */
    method Classify()
      requires Core(pos) && have == 0 && how == Look && 0 < availIn && (2 <= availIn || eof)
      modifies this`eof, this`have, this`next, this`availIn, this`how, this`direct, this`taken, this`given, out
      ensures Core(pos + have) && (have > 0 ==> Same(out, next, file.Text(), pos, have))
      ensures how == Look ==> NoInput() && have == 0
      ensures how == Copy ==> 0 < have
      ensures how == Gzip ==> have == 0
      ensures At() >= old(At())
    {
      hide Stands, Same, Archive.WellFormed, Archive.Bytes, Archive.Text;
      SameNone(input, nextIn, disk, fd);
      ghost var head := input[nextIn..nextIn + availIn];
      ghost var spot := Spot(how, direct, member, taken, given);
      UnreadIs(pos, head);
      Recognised(file, spot, fd - start, availIn, eof, pos, head);
      assert input[nextIn] == head[0] && (availIn > 1 ==> input[nextIn + 1] == head[1]);
      if availIn > 1 && input[nextIn] == 31 && input[nextIn + 1] == 139 {
        taken, given := 0, 0;
        how := Gzip;
        direct := false;
        return;
      }
      if !direct {
        availIn := 0;
        eof := true;
        have := 0;
        return;
      }
      CopyLeftover();
      availIn := 0;
      how := Copy;
      direct := true;
    }

    /** Raw bytes already read go to the output buffer. */
    method CopyLeftover()
      requires Core(pos) && availIn == fd - start && file.Text() == file.Bytes()
      modifies this`have, this`next, out
      ensures have == availIn && Same(out, next, file.Text(), 0, have)
    {
      hide Stands, Archive.WellFormed, Archive.Bytes, Archive.Text;
      next := 0;
      forall i | 0 <= i < availIn { out[i] := input[nextIn + i]; }
      have := availIn;
    }

    // ---- decompressing ----

    /** inflate with Z_NO_FLUSH, by contract: fed the next bytes of the member, it
        writes the next bytes of the member's text. */
    method Inflate(dst: array<byte>, off: nat, space: nat) returns (end: bool, bad: bool, g: nat)
      requires member < |file.members| && Inside(file.members[member], taken, given)
      requires 0 < availIn && 0 < space && off + space <= dst.Length
      requires nextIn + availIn <= input.Length
      requires Same(input, nextIn, file.members[member].bytes, taken, Min(availIn, |file.members[member].bytes| - taken))
      requires file.members[member].cut ==> taken + availIn <= |file.members[member].bytes|
      modifies this`taken, this`given, this`nextIn, this`availIn, dst
      ensures availIn <= old(availIn) && nextIn + availIn == old(nextIn + availIn) && taken + availIn == old(taken + availIn)
      ensures given == old(given) + g && !(end && bad) && (end || bad) == Ended(file.members[member], taken)
      ensures bad ==> file.members[member].bad
      ensures end ==> !file.members[member].bad
      ensures Inflates(file.members[member], old(taken), old(given), old(availIn), space, old(availIn) - availIn, g)
      ensures Same(dst, off, file.members[member].text, old(given), g)
      ensures forall i :: 0 <= i < dst.Length && !(off <= i < off + g) ==> dst[i] == old(dst[i])
    {
      var m := file.members[member];
      SomeInflate(m, taken, given, availIn, space);
      var u: nat, w: nat :| u <= availIn && w <= space && Inflates(m, taken, given, availIn, space, u, w);
      g := w;
      forall i | 0 <= i < g { dst[off + i] := m.text[given + i]; }
      taken, given := taken + u, given + g;
      nextIn, availIn := nextIn + u, availIn - u;
      end, bad := Ended(m, taken) && !m.bad, Ended(m, taken) && m.bad;
    }

    /** One call of inflate out of gz_decomp. */
    method InflateStep(dst: array<byte>, off: nat, ghost reached: int, space: nat) returns (end: bool, bad: bool, g: nat)
      requires Core(reached) && how == Gzip
      requires 0 < availIn && 0 < space && off + space <= dst.Length && dst != input
      modifies this`taken, this`given, this`nextIn, this`availIn, dst
      ensures g <= space && availIn <= old(availIn)
      ensures end || bad || availIn == 0 || g == space
      ensures if bad then !file.Whole()
              else if end then At() > old(At()) && CoreAfter(reached + g)
              else Core(reached + g)
      ensures At() >= old(At())
      ensures Same(dst, off, file.Text(), reached, g)
      ensures forall i :: 0 <= i < dst.Length && !(off <= i < off + g) ==> dst[i] == old(dst[i])
    {
      hide Same, Stands, Inflates, Inside, Ended, Archive.Text, Archive.WellFormed, Archive.Bytes;
      Feed(reached);
      ghost var m, spot, unread, read := file.members[member], Spot(how, direct, member, taken, given), availIn, fd - start;
      end, bad, g := Inflate(dst, off, space);
      Inflated(file, spot, read, unread, eof, reached, space, unread - availIn, g);
      SameAgree(dst, off, m.text, spot.given, file.Text(), reached, g);
      SameTail(input, nextIn - (unread - availIn), disk, fd - unread, unread - availIn, availIn);
    }

    /** inflate is given the member's own bytes. */
    lemma Feed(reached: int)
      requires Core(reached) && how == Gzip
      ensures member < |file.members| && Inside(file.members[member], taken, given)
      ensures Same(input, nextIn, file.members[member].bytes, taken, Min(availIn, |file.members[member].bytes| - taken))
      ensures file.members[member].cut ==> taken + availIn <= |file.members[member].bytes|
    {
      FedItsOwn(file, Spot(how, direct, member, taken, given), fd - start, availIn, eof, reached);
      FromMember(file.members[member], reached);
    }

    lemma FromMember(m: Member, reached: int)
      requires Core(reached) && taken <= |m.bytes|
      requires Agree(m.bytes, taken, file.Bytes(), fd - start - availIn, Min(availIn, |m.bytes| - taken))
      ensures Same(input, nextIn, m.bytes, taken, Min(availIn, |m.bytes| - taken))
    {
      hide Stands, Archive.WellFormed, Archive.Bytes;
      var n: nat, read := Min(availIn, |m.bytes| - taken), fd - start;
      assert Same(input, nextIn, disk, fd - availIn, n);
      if n > 0 { SliceOfSlice(disk, start, |disk|, read - availIn, n); }
      assert disk[start..] == disk[start..|disk|];
      hide Same;
      SameAgree(input, nextIn, disk, fd - availIn, file.Bytes(), read - availIn, n);
      SameAgree(input, nextIn, file.Bytes(), read - availIn, m.bytes, taken, n);
    }

    /** As `Core` will be when the reader goes on to the next member. */
    ghost predicate CoreAfter(reached: int)
      reads this`fd, this`eof, this`how, this`direct, this`member, this`taken, this`given, this`nextIn, this`availIn, input
    {
      && Sane()
      && nextIn + availIn <= size
      && start <= fd - availIn
      && Same(input, nextIn, disk, fd - availIn, availIn)
      && Stands(file, Spot(Look, direct, member + 1, taken, given), fd - start, availIn, eof, reached)
    }

    lemma NothingLeft(reached: int)
      requires Core(reached) && NoInput()
      ensures file.Whole() ==> how != Gzip && |file.Text()| <= reached
      ensures how == Look ==> reached == |file.Text()|
    {
      AllRead(file, Spot(how, direct, member, taken, given), fd - start, reached);
    }

    lemma InText(reached: int)
      requires Core(reached) && how != Copy
      ensures 0 <= reached <= |file.Text()| && At() <= |file.Bytes()|
    {
      WithinText(file, Spot(how, direct, member, taken, given), fd - start, availIn, eof, reached);
    }

    /** Where the reader is once the member ended. */
    lemma Ends(reached: int)
      requires CoreAfter(reached)
      ensures At() <= |file.Bytes()| && reached <= |file.Text()|
    {
      WithinText(file, Spot(Look, direct, member + 1, taken, given), fd - start, availIn, eof, reached);
    }

    method NextMember(ghost reached: int)
      requires CoreAfter(reached)
      modifies this`how, this`member
      ensures Core(reached) && how == Look
    {
      how := Look;
      member := member + 1;
      assert Core(reached);
      hide Core, CoreAfter;
    }

    /** One turn of the loop, behind what the turns before it wrote. */
    method InflateMore(dst: array<byte>, off: nat, done: nat, space: nat) returns (end: bool, bad: bool, g: nat)
      requires Core(pos + done) && how == Gzip && Same(dst, off, file.Text(), pos, done)
      requires 0 < availIn && 0 < space && off + done + space <= dst.Length && dst != input
      modifies this`taken, this`given, this`nextIn, this`availIn, dst
      ensures g <= space && availIn <= old(availIn)
      ensures end || bad || availIn == 0 || g == space
      ensures if bad then !file.Whole()
              else if end then At() > old(At()) && CoreAfter(pos + done + g)
              else Core(pos + done + g)
      ensures At() >= old(At())
      ensures Same(dst, off, file.Text(), pos, done + g)
      ensures forall i :: 0 <= i < dst.Length && !(off + done <= i < off + done + g) ==> dst[i] == old(dst[i])
    {
      hide Core, CoreAfter, Archive.Text, Archive.Bytes, Archive.Whole;
      end, bad, g := InflateStep(dst, off + done, pos + done, space);
      SameJoin(dst, off, file.Text(), pos, done, g);
    }

    /** The loop of gz_decomp. */
    method InflateLoop(dst: array<byte>, off: nat, space: nat) returns (r: int, done: nat, end: bool)
      requires Core(pos) && have == 0 && how == Gzip && !Fatal()
      requires 0 < space && off + space <= dst.Length && dst != input
      modifies this`fd, this`eof, this`err, this`have, this`nextIn, this`availIn, this`taken, this`given, input, dst
      ensures r == 0 || (r == -1 && Fatal() && Blame())
      ensures r == 0 ==> done <= space && have == 0 && !Fatal()
      ensures r == 0 && !end ==> Core(pos + done) && (done == space || NoInput())
      ensures r == 0 && end ==> CoreAfter(pos + done) && At() > old(At())
      ensures r == 0 && done > 0 ==> Same(dst, off, file.Text(), pos, done)
      ensures r == 0 ==> At() >= old(At())
      ensures r == 0 && file.Whole() ==> err == old(err)
      ensures forall i :: 0 <= i < dst.Length && !(off <= i < off + space) ==> dst[i] == old(dst[i])
    {
      hide Same, Core, CoreAfter, Archive.Bytes, Archive.Text, Archive.Whole;
      var g;
      done, end := 0, false;
      SameNone(dst, off, file.Text(), pos);
      assert input.Length == size && 2 <= size by { CoreParts(pos); }
      while true
        invariant !end && done < space && Core(pos + done) && how == Gzip && have == 0 && err == old(err)
        invariant At() >= old(At())
        invariant Same(dst, off, file.Text(), pos, done)
        invariant forall i :: 0 <= i < dst.Length && !(off <= i < off + space) ==> dst[i] == old(dst[i])
        decreases |file.Bytes()| - At()
      {
        InText(pos + done);
        if availIn == 0 {
          r := Avail(pos + done);
          if r == -1 { return; }
        }
        if availIn == 0 {
          NothingLeft(pos + done);
          SetError(BufError);
          break;
        }
        var bad;
        end, bad, g := InflateMore(dst, off, done, space - done);
        if bad {
          SetError(DataError);
          return -1, done, false;
        }
        done := done + g;
        if done == space || end { break; }
        InText(pos + done);
      }
      r := 0;
    }

    /** gz_decomp: the next bytes of the stream, until `space` is full, the member
        ends or no input is left. */
    method GzDecomp(dst: array<byte>, off: nat, space: nat) returns (r: int)
      requires Core(pos) && have == 0 && how == Gzip && !Fatal()
      requires 0 < space && off + space <= dst.Length && dst != input
      modifies this`fd, this`eof, this`err, this`have, this`next, this`nextIn, this`availIn
      modifies this`how, this`member, this`taken, this`given, input, dst
      ensures r == 0 || (r == -1 && Fatal() && Blame())
      ensures r == 0 ==> Core(pos + have) && have <= space && next == off && !Fatal()
      ensures r == 0 && have > 0 ==> Same(dst, off, file.Text(), pos, have)
      ensures r == 0 ==> At() >= old(At())
      ensures r == 0 ==> (how == Gzip && (have == space || NoInput())) || (how == Look && old(At()) < At() <= |file.Bytes()|)
      ensures r == 0 && file.Whole() ==> err == old(err)
      ensures forall i :: 0 <= i < dst.Length && !(off <= i < off + space) ==> dst[i] == old(dst[i])
    {
      hide Core, CoreAfter, Same, Archive.Bytes, Archive.Text, Archive.Whole;
      var done, end;
      r, done, end := InflateLoop(dst, off, space);
      if r == -1 { return; }
      have := done;
      next := off;
      if end {
        Ends(pos + have);
        NextMember(pos + have);
      }
    }

    /** gz_fetch: fills the output buffer, or finds no input left. */
    method GzFetch() returns (r: int)
      requires Intact() && have == 0 && !seek && !NoInput()
      modifies this`fd, this`eof, this`err, this`have, this`next, this`nextIn, this`availIn
      modifies this`how, this`direct, this`member, this`taken, this`given, input, out
      ensures r == 0 || (r == -1 && Fatal() && Blame())
      ensures r == 0 ==> Intact() && (have > 0 || NoInput()) && At() >= old(At())
    {
      hide Core, Same, Archive.Bytes, Archive.Text, Archive.Whole;
      assert out != input && out.Length == 2 * size && 2 <= size by { CoreParts(pos); }
      while true
        invariant Core(pos) && have == 0 && !Fatal() && (file.Whole() ==> err == NoError) && !NoInput()
        invariant At() >= old(At())
        decreases |file.Bytes()| - At(), if how == Look then 1 else 0
      {
        ghost var at := At();
        if how != Copy { InText(pos); }
        match how {
          case Look =>
            r := GzLook();
            if r == -1 { return; }
            if how == Look { return 0; }
          case Copy =>
            r := LoadOut();
            return;
          case Gzip =>
            r := GzDecomp(out, 0, 2 * size);
            if r == -1 { return; }
        }
        if have != 0 || NoInput() { break; }
        InText(pos);
      }
      r := 0;
    }

    /** The COPY case of gz_fetch. */
    method LoadOut() returns (r: int)
      requires Core(pos) && have == 0 && how == Copy && !Fatal()
      modifies this`fd, this`eof, this`err, this`have, this`next, out
      ensures r == 0 || (r == -1 && err == Errno && faulty)
      ensures r == 0 ==> Core(pos + have) && err == old(err) && (have > 0 || NoInput()) && At() >= old(At())
      ensures r == 0 && have > 0 ==> Same(out, next, file.Text(), pos, have)
    {
      var n;
      r, n := Load(out, 0, 2 * size);
      if r == -1 { return; }
      have := n;
      next := 0;
    }

    // ---- reading the stream ----

    ghost predicate Valid()
      reads this, input, out
    {
      Fatal() || Intact()
    }

    /** Moves at most `want` bytes from the output buffer to buf. */
    method TakeHeld(buf: array<byte>, off: nat, want: nat) returns (n: nat)
      requires Intact() && 0 < have && 0 < want && off + want <= buf.Length && buf != out && buf != input
      modifies this`have, this`next, this`pos, buf
      ensures Intact() && 0 < n <= want && pos == old(pos) + n
      ensures Same(buf, off, file.Text(), old(pos), n)
      ensures forall i :: 0 <= i < buf.Length && !(off <= i < off + n) ==> buf[i] == old(buf[i])
    {
      hide Core, Archive.Whole, Archive.Text;
      n := if have > want then want else have;
      forall i | 0 <= i < n { buf[off + i] := out[next + i]; }
      next := next + n;
      have := have - n;
      pos := pos + n;
    }

    /** Reads or decompresses a long request straight into buf. */
    method ReadDirect(buf: array<byte>, off: nat, want: nat) returns (r: int, n: nat)
      requires Intact() && have == 0 && !seek && !NoInput() && how != Look
      requires 0 < want && off + want <= buf.Length && buf != out && buf != input
      modifies this`fd, this`eof, this`err, this`have, this`next, this`pos, this`nextIn, this`availIn
      modifies this`how, this`member, this`taken, this`given, input, buf
      ensures r == 0 || (r == -1 && Fatal() && Blame())
      ensures r == 0 ==> Intact() && n <= want && pos == old(pos) + n && have == 0
      ensures r == 0 && n == 0 ==> At() >= old(At()) && (NoInput() || old(At()) < At() <= |file.Bytes()|)
      ensures r == 0 && n > 0 ==> Same(buf, off, file.Text(), old(pos), n)
      ensures forall i :: 0 <= i < buf.Length && !(off <= i < off + want) ==> buf[i] == old(buf[i])
    {
      hide Core, Same, Archive.Bytes, Archive.Text, Archive.Whole;
      if how == Copy {
        r, n := LoadDirect(buf, off, want);
        if r == -1 { return; }
      } else {
        n := 0;
        r := GzDecomp(buf, off, want);
        if r == -1 { return; }
        n := have;
        have := 0;
      }
      pos := pos + n;
    }

    method LoadDirect(buf: array<byte>, off: nat, want: nat) returns (r: int, n: nat)
      requires Core(pos) && have == 0 && how == Copy && !Fatal()
      requires 0 < want && off + want <= buf.Length && buf != out && buf != input
      modifies this`fd, this`eof, this`err, this`have, buf
      ensures r == 0 || (r == -1 && err == Errno && faulty)
      ensures r == 0 ==> Core(pos + n) && n <= want && have == 0 && err == old(err) && At() >= old(At()) && (n > 0 || NoInput())
      ensures r == 0 && n > 0 ==> Same(buf, off, file.Text(), pos, n)
      ensures forall i :: 0 <= i < buf.Length && !(off <= i < off + want) ==> buf[i] == old(buf[i])
    {
      r, n := Load(buf, off, want);
    }

    /** gz_skip: goes forward, up to the end of the stream. */
    method GzSkip(amount: int) returns (r: int)
      requires Intact() && !seek && 0 <= amount
      modifies this`fd, this`eof, this`err, this`have, this`next, this`pos, this`nextIn, this`availIn
      modifies this`how, this`direct, this`member, this`taken, this`given, input, out
      ensures r == 0 || (r == -1 && Fatal() && Blame())
      ensures r == 0 ==> Intact() && old(pos) <= pos <= old(pos) + amount
      ensures r == 0 ==> pos == old(pos) || pos <= |file.Text()|
      ensures r == 0 ==> pos == old(pos) + amount || (have == 0 && NoInput())
    {
      hide Core, Archive.Bytes, Archive.Text, Archive.Whole;
      var len := amount;
      while len != 0
        invariant Intact() && 0 <= len && pos + len == old(pos) + amount
        invariant pos == old(pos) || pos <= |file.Text()|
        decreases len, if have > 0 then 1 else if NoInput() then 0 else 2
      {
        if have > 0 {
          var n := if have > len then len else have;
          have := have - n;
          next := next + n;
          pos := pos + n;
          len := len - n;
        } else if NoInput() {
          break;
        } else {
          r := GzFetch();
          if r == -1 { return; }
        }
      }
      r := 0;
    }

    /** Where the position stands against the end of the stream. */
    lemma Position()
      requires Intact()
      ensures how != Copy ==> pos + have <= |file.Text()|
      ensures NoInput() && file.Whole() ==> |file.Text()| <= pos + have
    {
      if how != Copy { InText(pos + have); }
      if NoInput() { NothingLeft(pos + have); }
    }

    /** The loop of gzread. */
    method ReadLoop(buf: array<byte>, len: nat) returns (r: int)
      requires Intact() && !seek && 0 < len <= buf.Length && buf != out && buf != input
      modifies this`fd, this`eof, this`past, this`err, this`have, this`next, this`pos, this`nextIn, this`availIn
      modifies this`how, this`direct, this`member, this`taken, this`given, input, out, buf
      ensures -1 <= r <= len && (r == -1 ==> Fatal() && Blame())
      ensures r != -1 ==> Intact() && pos == old(pos) + r && past == (old(past) || r < len)
      ensures r > 0 ==> Same(buf, 0, file.Text(), old(pos), r) && pos <= |file.Text()|
      ensures 0 <= r < len ==> have == 0 && NoInput()
      ensures old(have == 0 && NoInput()) ==> r == 0
    {
      hide Core, Archive.Bytes, Archive.Text, Archive.Whole;
      var got, want: nat := 0, len;
      while true
        invariant Intact() && 0 < want && got + want == len && pos == old(pos) + got && past == old(past)
        invariant got > 0 ==> Same(buf, 0, file.Text(), old(pos), got)
        invariant old(have == 0 && NoInput()) ==> got == 0 && have == 0 && NoInput()
        decreases want, Max(0, |file.Bytes()| - At()), if have > 0 then 1 else if NoInput() then 0 else 2
      {
        var n: nat;
        ghost var at := At();
        if have > 0 {
          n := TakeHeld(buf, got, want);
        } else if NoInput() {
          past := true;
          break;
        } else if how == Look || want < 2 * size {
          r := GzFetch();
          if r == -1 { return; }
          continue;
        } else {
          r, n := ReadDirect(buf, got, want);
          if r == -1 { return; }
        }
        if got > 0 && n > 0 { SameJoin(buf, 0, file.Text(), old(pos), got, n); }
        want := want - n;
        got := got + n;
        if want == 0 { break; }
      }
      r := got;
    }

    /** Goes where a waiting seek request asks, or to the end of the stream. */
    method Settle() returns (r: int)
      requires Intact()
      modifies this`fd, this`eof, this`err, this`have, this`next, this`pos, this`nextIn, this`availIn
      modifies this`how, this`direct, this`member, this`taken, this`given, this`seek, input, out
      ensures r == 0 || (r == -1 && Fatal() && Blame())
      ensures r == 0 ==> Intact() && !seek
      ensures r == 0 ==> pos == old(Tell()) || (pos < old(Tell()) && pos <= |file.Text()| && have == 0 && NoInput())
    {
      hide Core, Same, Archive.Bytes, Archive.Text, Archive.Whole;
      Position();
      if seek {
        seek := false;
        r := GzSkip(skip);
        if r == -1 { return; }
      }
      r := 0;
    }

    /** gzread: the next `len` bytes of the stream, or as many as it still has. */
    method Read(buf: array<byte>, len: nat) returns (r: int)
      requires Valid() && len <= buf.Length && buf != out && buf != input
      modifies this`fd, this`eof, this`past, this`err, this`have, this`next, this`pos, this`nextIn, this`availIn
      modifies this`how, this`direct, this`member, this`taken, this`given, this`seek, input, out, buf
      ensures Valid() && -1 <= r <= len
      ensures r == -1 <==> Fatal()
      ensures r == -1 && old(!Fatal()) ==> (err == Errno ==> faulty) && (err == DataError ==> len > INT_MAX || !file.Whole())
      ensures len > INT_MAX ==> r == -1
      ensures r != -1 && len > 0 ==> !seek
      ensures r > 0 ==> Same(buf, 0, file.Text(), old(Tell()), r) && Tell() == old(Tell()) + r
      ensures r == 0 ==> Tell() == old(Tell()) || (len > 0 && Tell() < old(Tell()) && Tell() <= |file.Text()|)
      ensures r != -1 && file.Whole() && len > 0 ==> r == Max(0, Min(len, |file.Text()| - old(Tell())))
      ensures r != -1 && file.Whole() && old(Tell()) <= |file.Text()| ==> Tell() == old(Tell()) + r
    {
      hide Core, Same, Archive.Bytes, Archive.Text, Archive.Whole;
      if Fatal() { return -1; }
      if len > INT_MAX {
        SetError(DataError);
        return -1;
      }
      if len == 0 { return 0; }
      r := Settle();
      if r == -1 { return; }
      r := ReadLoop(buf, len);
      if r != -1 { Position(); }
    }

    /** gzgetc: no pending seek has to be looked for while the buffer holds bytes. */
    method Getc() returns (c: int)
      requires Valid()
      modifies this`fd, this`eof, this`past, this`err, this`have, this`next, this`pos, this`nextIn, this`availIn
      modifies this`how, this`direct, this`member, this`taken, this`given, this`seek, input, out
      ensures Valid() && -1 <= c < 256
      ensures c >= 0 ==> !Fatal() && 0 <= old(Tell()) < |file.Text()| && c == file.Text()[old(Tell())] && Tell() == old(Tell()) + 1
      ensures c == -1 && !Fatal() && file.Whole() ==> |file.Text()| <= old(Tell())
      ensures !Fatal() && file.Whole() && old(Tell()) <= |file.Text()| && c == -1 ==> Tell() == old(Tell())
      ensures old(Fatal()) ==> c == -1
      ensures Fatal() && old(!Fatal()) ==> Blame()
    {
      hide Core, Archive.Bytes, Archive.Text, Archive.Whole;
      if Fatal() { return -1; }
      if have > 0 {
        have := have - 1;
        pos := pos + 1;
        c := out[next];
        next := next + 1;
        return;
      }
      var buf := new byte[1];
      var ret := Read(buf, 1);
      c := if ret < 1 then -1 else buf[0];
    }

    /** gz_reset: nothing read, nothing pending, at the start of the file. */
    method Reset()
      requires Sane() && fd == start && nextIn <= size && (direct || file.members != [])
      modifies this`eof, this`past, this`err, this`have, this`pos, this`availIn
      modifies this`how, this`member, this`seek
      ensures Intact() && pos == 0 && have == 0 && !seek && how == Look && err == NoError
    {
      have := 0;
      eof := false;
      past := false;
      how := Look;
      seek := false;
      SetError(NoError);
      pos := 0;
      availIn := 0;
      member := 0;
      AtStart();
      hide *;
    }

    lemma AtStart()
      requires Sane() && fd == start && nextIn <= size && (direct || file.members != [])
      requires have == 0 && !eof && how == Look && !seek && err == NoError && pos == 0 && availIn == 0 && member == 0
      ensures Intact()
    {
      hide Archive.WellFormed;
    }

    /** gzrewind. */
    method Rewind() returns (r: int)
      requires Valid()
      modifies this`fd, this`eof, this`past, this`err, this`have, this`pos, this`availIn
      modifies this`how, this`member, this`seek
      ensures Valid()
      ensures r == if old(Fatal()) || !seekable then -1 else 0
      ensures r == 0 ==> Tell() == 0 && !seek && have == 0 && how == Look && !Fatal()
      ensures r == -1 ==> Tell() == old(Tell()) && seek == old(seek) && pos == old(pos) && Fatal() == old(Fatal())
    {
      if Fatal() || !seekable { return -1; }
      fd := start;
      Reset();
      r := 0;
    }

    /** gzseek64: the next read is to start at `offset`, counted from the start or
        from here.  A request that is refused drops the one that was waiting. */
    method Seek(offset: int, whence: Whence) returns (r: int)
      requires Valid()
      modifies this`fd, this`eof, this`past, this`err, this`have, this`next, this`pos, this`availIn
      modifies this`how, this`member, this`seek, this`skip
      ensures Valid()
      ensures old(Fatal()) ==> r == -1 && Fatal()
      ensures old(!Fatal()) ==> !Fatal() && r == SeekAnswer(old(Target(offset, whence)), old(how), old(pos))
      ensures old(!Fatal()) && r != -1 ==> Tell() == old(Target(offset, whence))
      ensures old(!Fatal()) && old(how) != Copy && old(pos <= Target(offset, whence)) ==>
                pos == old(pos) + Min(old(have), old(Target(offset, whence) - pos))
      ensures old(!Fatal()) && r == -1 ==> Tell() == old(pos) && (Tell() == old(Tell()) <==> !old(seek))
    {
      hide Core, Same, Archive.Bytes, Archive.Text, Archive.Whole;
      if Fatal() { return -1; }
      var delta := offset;
      if whence == SeekSet {
        delta := delta - pos;
      } else if seek {
        delta := delta + skip;
      }
      seek := false;
      if how == Copy && pos + delta >= 0 {
        r := SeekCopied(delta);
        return;
      }
      if delta < 0 {
        delta := delta + pos;
        if delta < 0 { return -1; }
        var b := Rewind();
        if b == -1 { return -1; }
      }
      r := Request(delta);
    }

    /** A file that is copied is sought directly. */
    method SeekCopied(delta: int) returns (r: int)
      requires Intact() && !seek && how == Copy && 0 <= pos + delta
      modifies this`fd, this`eof, this`past, this`err, this`have, this`pos, this`availIn, this`seek
      ensures Intact() && !seek
      ensures r == if seekable then old(pos) + delta else -1
      ensures pos == if seekable then old(pos) + delta else old(pos)
    {
      CopiedGives();
      hide *;
      if !seekable { return -1; }
      fd := fd + (delta - have);
      have := 0;
      eof := false;
      past := false;
      seek := false;
      SetError(NoError);
      availIn := 0;
      pos := pos + delta;
      r := pos;
      AtCopied();
    }

    lemma CopiedGives()
      requires Intact() && how == Copy
      ensures Sane() && nextIn <= size && file.members == [] && member == 0 && direct && availIn == 0
      ensures fd == start + pos + have
    {
      hide Archive.WellFormed, Archive.Bytes, Archive.Text;
    }

    lemma AtCopied()
      requires Sane() && nextIn <= size && file.members == [] && member == 0 && direct && how == Copy
      requires fd == start + pos && have == 0 && !eof && !seek && err == NoError && availIn == 0
      ensures Intact()
    {
      hide Archive.WellFormed, Archive.Bytes, Archive.Text;
    }

    /** Drops what the output buffer holds of the skip; the rest of it waits. */
    method Request(delta: int) returns (r: int)
      requires Intact() && !seek && 0 <= delta && how != Copy
      modifies this`have, this`next, this`pos, this`seek, this`skip
      ensures Intact() && r == Tell() == old(pos) + delta && pos == old(pos) + Min(old(have), delta)
    {
      hide Core, Archive.Text, Archive.Whole;
      var left := delta;
      var n := if have > left then left else have;
      have := have - n;
      next := next + n;
      pos := pos + n;
      left := left - n;
      if left != 0 {
        seek := true;
        skip := left;
      }
      r := pos + left;
    }

    /** The position that a seek asks for. */
    function Target(offset: int, whence: Whence): int
      reads this
    {
      if whence == SeekSet then offset else Tell() + offset
    }

    /** Going back, or going anywhere in a file that is copied, needs a file that
        can seek. */
    function SeekAnswer(target: int, how: How, pos: int): int {
      if target < 0 || (!seekable && (how == Copy || target < pos)) then -1 else target
    }

    /** gz_open for reading. */
    constructor (disk: seq<byte>, start: nat, file: Archive, seekable: bool, faulty: bool, want: nat)
      requires start <= |disk| && file.WellFormed() && disk[start..] == file.Bytes()
      ensures Intact() && Tell() == pos == have == 0 && how == Look && !seek && fresh(input) && fresh(out)
      ensures this.disk == disk && this.start == start && this.file == file && this.seekable == seekable && this.faulty == faulty
    {
      this.disk, this.start, this.file, this.seekable, this.faulty := disk, start, file, seekable, faulty;
      size := Max(2, want);
      input := new byte[Max(2, want)];
      out := new byte[2 * Max(2, want)];
      fd := start;
      direct := true;
      taken, given, skip, next, nextIn := 0, 0, 0, 0, 0;
      new;
      Reset();
    }
  }

  // ---- runs ----

  datatype Op = Read(len: nat) | Getc | Rewind | Seek(offset: int, whence: Whence) | Tell

  datatype Answer = Data(bytes: seq<byte>) | Value(n: int)

  /** What a caller at position `at` of a decoded stream is to be answered, and
      where it is then. */
  function Play(text: seq<byte>, at: nat, op: Op): (r: (Answer, int))
    requires at <= |text|
  {
    match op
    case Read(len) => var n := Min(len, |text| - at); (Data(text[at..at + n]), at + n)
    case Getc => if at < |text| then (Value(text[at]), at + 1) else (Value(-1), at)
    case Rewind => (Value(0), 0)
    case Seek(offset, whence) => var to := if whence == SeekSet then offset else at + offset; (Value(to), to)
    case Tell => (Value(at), at)
  }

  predicate Stays(text: seq<byte>, at: nat, op: Op)
    requires at <= |text|
  {
    0 <= Play(text, at, op).1 <= |text| && (op.Read? ==> op.len <= INT_MAX)
  }

  predicate AllStay(text: seq<byte>, at: nat, ops: seq<Op>)
    requires at <= |text|
    decreases |ops|
  {
    ops == [] || (Stays(text, at, ops[0]) && AllStay(text, Play(text, at, ops[0]).1, ops[1..]))
  }

  function Plays(text: seq<byte>, at: nat, ops: seq<Op>): (r: seq<Answer>)
    requires at <= |text| && AllStay(text, at, ops)
    ensures |r| == |ops|
    decreases |ops|
  {
    if ops == [] then [] else
      var (a, to) := Play(text, at, ops[0]);
      [a] + Plays(text, to, ops[1..])
  }

  method ReadOut(g: GzFile, len: nat) returns (data: seq<byte>, ok: bool)
    requires g.Intact() && g.file.Whole() && 0 <= g.Tell() <= |g.file.Text()| && len <= INT_MAX
    modifies g, g.input, g.out
    ensures ok ==> g.Intact() && g.Tell() == old(g.Tell()) + |data| && |data| == Min(len, |g.file.Text()| - old(g.Tell()))
    ensures ok ==> data == g.file.Text()[old(g.Tell())..g.Tell()]
    ensures !ok ==> g.err == Errno && g.faulty
  {
    hide GzFile.Core, Archive.Bytes, Archive.Text, Archive.Whole;
    var buf := new byte[len];
    var r := g.Read(buf, len);
    if r == -1 { return [], false; }
    data, ok := buf[..r], true;
  }

  /** One request; `ok` is false when reading the file failed. */
  method Ask(g: GzFile, op: Op) returns (a: Answer, ok: bool)
    requires g.Intact() && g.file.Whole() && g.seekable
    requires 0 <= g.Tell() <= |g.file.Text()| && Stays(g.file.Text(), g.Tell(), op)
    modifies g, g.input, g.out
    ensures ok ==> g.Intact() && (a, g.Tell()) == Play(g.file.Text(), old(g.Tell()), op)
    ensures !ok ==> g.err == Errno && g.faulty
  {
    hide GzFile.Core, Archive.Bytes, Archive.Text, Archive.Whole;
    var r;
    match op {
      case Read(len) =>
        var data;
        data, ok := ReadOut(g, len);
        return Data(data), ok;
      case Getc =>
        r := g.Getc();
        a := Value(r);
      case Rewind =>
        r := g.Rewind();
        a := Value(r);
      case Seek(offset, whence) =>
        r := g.Seek(offset, whence);
        a := Value(r);
      case Tell =>
        a := Value(g.Tell());
    }
    ok := !g.Fatal();
  }

  /** Any interleaving of reads, seeks, rewinds and questions of position inside
      the stream is answered from the decoded stream alone: the buffers, the short
      reads and the members do not show. */
  method Session(g: GzFile, ops: seq<Op>) returns (answers: seq<Answer>, ok: bool)
    requires g.Intact() && g.file.Whole() && g.seekable
    requires 0 <= g.Tell() <= |g.file.Text()| && AllStay(g.file.Text(), g.Tell(), ops)
    modifies g, g.input, g.out
    ensures ok ==> g.Intact() && answers == Plays(g.file.Text(), old(g.Tell()), ops)
    ensures !ok ==> g.err == Errno && g.faulty && answers <= Plays(g.file.Text(), old(g.Tell()), ops)
    decreases |ops|
  {
    hide GzFile.Intact, GzFile.Core, Archive.Bytes, Archive.Text, Archive.Whole;
    if ops == [] { return [], true; }
    var a;
    a, ok := Ask(g, ops[0]);
    if !ok { return [], false; }
    var more;
    more, ok := Session(g, ops[1..]);
    answers := [a] + more;
  }

  /** In a newly opened file, a request to go to position 5 and one that is refused:
      the first is forgotten. */
  method RefusalForgets(disk: seq<byte>, file: Archive, seekable: bool, faulty: bool, want: nat) returns (g: GzFile, before: int, after: int)
    requires file.WellFormed() && disk == file.Bytes()
    ensures fresh(g) && g.Intact() && g.file == file && before == 5 && after == g.Tell() == 0
  {
    hide GzFile.Core, Archive.Bytes, Archive.WellFormed;
    assert disk[0..] == disk;
    g := new GzFile(disk, 0, file, seekable, faulty, want);
    var r := g.Seek(5, SeekSet);
    before := g.Tell();
    r := g.Seek(-1, SeekSet);
    after := g.Tell();
  }

  function Gathered(answers: seq<Answer>): seq<byte> {
    if answers == [] then [] else (if answers[0].Data? then answers[0].bytes else []) + Gathered(answers[1..])
  }

  function Wanted(ops: seq<Op>): nat {
    if ops == [] then 0 else (if ops[0].Read? then ops[0].len else 0) + Wanted(ops[1..])
  }

  /** Reading in pieces of any size is reading at once. */
  lemma {:induction false} ReadsJoin(text: seq<byte>, at: nat, ops: seq<Op>)
    requires at <= |text| && AllStay(text, at, ops)
    requires forall op :: op in ops ==> op.Read?
    ensures Gathered(Plays(text, at, ops)) == text[at..Min(at + Wanted(ops), |text|)]
    decreases ops
  {
    if ops != [] {
      var len, to := ops[0].len, Min(at + ops[0].len, |text|);
      assert Play(text, at, ops[0]) == (Data(text[at..to]), to);
      ReadsJoin(text, to, ops[1..]);
      var all := Plays(text, at, ops);
      assert all == [Data(text[at..to])] + Plays(text, to, ops[1..]);
      hide Plays, AllStay, Stays, Play;
      assert all[1..] == Plays(text, to, ops[1..]);
      Pieces(text, at, len, Wanted(ops[1..]));
    }
  }

  lemma Pieces(text: seq<byte>, at: nat, n: nat, more: nat)
    requires at <= |text|
    ensures var to := Min(at + n, |text|);
            text[at..to] + text[to..Min(to + more, |text|)] == text[at..Min(at + n + more, |text|)]
  {
  }
}
