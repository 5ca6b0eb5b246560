/** inflate.c: syncsearch() and the bytes inflateSync() gives it from the bit buffer. */
module SyncSearch {
  import opened Lz77
  import opened Binary
  import opened BitSource

  const PATTERN: seq<byte> := [0, 0, 0xff, 0xff]

  /** The first k bytes of the pattern end s. */
  predicate Ends(s: seq<byte>, k: nat)
    requires k <= 4
  {
    k <= |s| && s[|s| - k..] == PATTERN[..k]
  }

  /** No longer beginning of the pattern ends s. */
  predicate Longest(s: seq<byte>, k: nat) {
    k <= 4 && Ends(s, k) && forall j :: k < j <= 4 ==> !Ends(s, j)
  }

  /** One turn of the loop. */
  function Next(got: nat, c: byte): nat
    requires got < 4
  {
    if c == (if got < 2 then 0 else 0xff) then got + 1
    else if c != 0 then 0
    else 4 - got
  }

  lemma EndsShorter(s: seq<byte>, c: byte, k: nat)
    requires k < 4
    ensures Ends(s + [c], k + 1) <==> Ends(s, k) && c == PATTERN[k]
  {
    var t := s + [c];
    if k + 1 <= |t| {
      assert t[|t| - (k + 1)..] == s[|s| - k..] + [c];
      assert PATTERN[..k + 1] == PATTERN[..k] + [PATTERN[k]];
    }
    if Ends(t, k + 1) {
      assert t[|t| - (k + 1)..][..k] == s[|s| - k..] && PATTERN[..k + 1][..k] == PATTERN[..k];
      assert t[|t| - (k + 1)..][k] == c && PATTERN[..k + 1][k] == PATTERN[k];
    }
  }

  /** Two bytes of the pattern overlap: what ends s decides what shorter beginnings end it. */
  lemma EndsInside(s: seq<byte>, k: nat)
    requires k <= 3 && Ends(s, k)
    ensures Ends(s, 0) && (k == 2 ==> Ends(s, 1)) && (k == 3 ==> !Ends(s, 1) && !Ends(s, 2))
  {
    if k == 2 {
      assert s[|s| - 1..] == s[|s| - 2..][1..] == PATTERN[..1];
    }
    if k == 3 {
      assert s[|s| - 1] == s[|s| - 3..][2] == 0xff;
      assert s[|s| - 2..][1] == 0xff && PATTERN[..2][1] == 0;
      assert s[|s| - 1..][0] == 0xff && PATTERN[..1][0] == 0;
    }
  }

  /** What the program does to the count is what the overlaps of the pattern with itself come to. */
  lemma NextIsLongest(s: seq<byte>, got: nat, c: byte)
    requires got < 4 && Longest(s, got)
    ensures Longest(s + [c], Next(got, c))
  {
    hide Ends, Longest;
    LongestGives(s, got);
    EndsInside(s, got);
    EndsShorter(s, c, 0);
    EndsShorter(s, c, 1);
    EndsShorter(s, c, 2);
    EndsShorter(s, c, 3);
    assert PATTERN[0] == 0 && PATTERN[1] == 0 && PATTERN[2] == 0xff && PATTERN[3] == 0xff;
    LongestIs(s + [c], Next(got, c));
  }

  lemma LongestGives(s: seq<byte>, k: nat)
    requires Longest(s, k)
    ensures k <= 4 && Ends(s, k)
    ensures (k < 1 ==> !Ends(s, 1)) && (k < 2 ==> !Ends(s, 2)) && (k < 3 ==> !Ends(s, 3)) && (k < 4 ==> !Ends(s, 4))
  {
    hide Ends;
  }

  lemma LongestIs(s: seq<byte>, k: nat)
    requires k <= 4 && (k == 0 || Ends(s, k))
    requires (k < 1 ==> !Ends(s, 1)) && (k < 2 ==> !Ends(s, 2)) && (k < 3 ==> !Ends(s, 3)) && (k < 4 ==> !Ends(s, 4))
    ensures Longest(s, k)
  {
    assert Ends(s, 0);
    hide Ends;
  }

  /** The loop as a function: the state and how many bytes were read. */
  function Search(got: nat, buf: seq<byte>): (nat, nat)
    requires got <= 4
    decreases |buf|
  {
    if buf == [] || got == 4 then (got, 0)
    else
      var r := Search(Next(got, buf[0]), buf[1..]);
      (r.0, r.1 + 1)
  }

  /** The pattern does not end before the n-th byte of buf. */
  ghost predicate NoneWithin(before: seq<byte>, buf: seq<byte>, n: nat)
    requires n <= |buf|
  {
    forall j :: 0 <= j < n ==> !Ends(before + buf[..j], 4)
  }

  lemma OneMore(before: seq<byte>, buf: seq<byte>, n: nat, got: nat)
    requires n < |buf| && NoneWithin(before, buf, n) && got < 4 && Longest(before + buf[..n], got)
    ensures NoneWithin(before, buf, n + 1) && Longest(before + buf[..n + 1], Next(got, buf[n]))
  {
    hide Ends, Longest;
    LongestGives(before + buf[..n], got);
    NextIsLongest(before + buf[..n], got, buf[n]);
    assert before + buf[..n + 1] == before + buf[..n] + [buf[n]];
  }

  lemma SearchStep(got: nat, buf: seq<byte>, i: nat)
    requires got < 4 && i < |buf|
    ensures Search(got, buf[i..]) == (Search(Next(got, buf[i]), buf[i + 1..]).0, Search(Next(got, buf[i]), buf[i + 1..]).1 + 1)
  {
    hide Next;
    assert buf[i..][1..] == buf[i + 1..];
  }

  /** The search itself; `before` is what earlier calls have read. */
  method SyncSearch(have: nat, buf: seq<byte>, ghost before: seq<byte>) returns (got: nat, next: nat)
    requires Longest(before, have)
    ensures next <= |buf| && Longest(before + buf[..next], got) && (got < 4 ==> next == |buf|)
    ensures NoneWithin(before, buf, next)
    ensures (got, next) == Search(have, buf)
  {
    hide Ends, Longest, NoneWithin, Search;
    got, next := have, 0;
    SearchStarts(have, buf, before);
    while next < |buf| && got < 4
      invariant 0 <= next <= |buf| && got <= 4 && Longest(before + buf[..next], got) && NoneWithin(before, buf, next)
      invariant Search(have, buf) == (Search(got, buf[next..]).0, next + Search(got, buf[next..]).1)
    {
      OneMore(before, buf, next, got);
      SearchStep(got, buf, next);
      LongestGives(before + buf[..next + 1], Next(got, buf[next]));
      if buf[next] == (if got < 2 then 0 else 0xff) {
        got := got + 1;
      } else if buf[next] != 0 {
        got := 0;
      } else {
        got := 4 - got;
      }
      next := next + 1;
    }
    SearchEnds(got, buf, next);
  }

  lemma SearchStarts(have: nat, buf: seq<byte>, before: seq<byte>)
    requires Longest(before, have)
    ensures have <= 4 && Longest(before + buf[..0], have) && NoneWithin(before, buf, 0)
    ensures Search(have, buf[0..]) == Search(have, buf)
  {
    hide Ends, Search;
    assert before + buf[..0] == before && buf[0..] == buf;
  }

  lemma SearchEnds(got: nat, buf: seq<byte>, next: nat)
    requires got <= 4 && next <= |buf| && (got == 4 || next == |buf|)
    ensures Search(got, buf[next..]) == (got, 0)
  {
  }

  /** Searching in pieces is searching at once. */
  lemma {:induction false} SearchConcat(have: nat, a: seq<byte>, b: seq<byte>)
    requires have <= 4
    ensures var (g, n) := Search(have, a);
            && g <= 4 && n <= |a| && (g < 4 ==> n == |a|)
            && Search(have, a + b) == if g == 4 then (g, n) else (Search(g, b).0, |a| + Search(g, b).1)
    decreases |a|
  {
    if a == [] {
      assert a + b == b;
    } else if have != 4 {
      SearchConcat(Next(have, a[0]), a[1..], b);
      assert (a + b)[1..] == a[1..] + b;
    }
  }

  /** On a fresh search: found exactly if the pattern occurs, and right behind
      its first occurrence. */
  lemma FoundFirst(buf: seq<byte>, got: nat, next: nat)
    requires next <= |buf| && Longest(buf[..next], got) && (got < 4 ==> next == |buf|)
    requires NoneWithin([], buf, next)
    ensures got == 4 <==> exists j :: 0 <= j <= |buf| && Ends(buf[..j], 4)
    ensures got == 4 ==> Ends(buf[..next], 4)
  {
    forall j | 0 <= j < next ensures !Ends(buf[..j], 4) {
      assert [] + buf[..j] == buf[..j];
    }
    if got == 4 {
      assert Ends(buf[..next], 4);
    }
  }

  // ---- the bit buffer ----

  /** The low n bytes of a number. */
  function LowBytes(u: nat, n: nat): seq<nat> {
    if n == 0 then [] else [u % 256] + LowBytes(u / 256, n - 1)
  }

  /** The whole bytes held behind the bits of a partial byte. */
  function HeldBytes(hold: nat, bits: nat): seq<nat> {
    LowBytes(Quotient(hold, Pow2(bits % 8)), bits / 8)
  }

  /** Shifts the partial byte out at the top, then takes byte after byte off the low end. */
  method BufferBytes(hold: nat, bits: nat) returns (buf: seq<nat>)
    ensures buf == LowBytes(hold * Pow2(bits % 8), bits / 8)
  {
    var h: nat, b: nat := hold * Pow2(bits % 8), bits - bits % 8;
    buf := [];
    while b >= 8
      invariant b % 8 == 0 && b >= 0
      invariant buf + LowBytes(h, b / 8) == LowBytes(hold * Pow2(bits % 8), bits / 8)
    {
      assert LowBytes(h, b / 8) == [h % 256] + LowBytes(h / 256, b / 8 - 1);
      buf := buf + [h % 256];
      h := h / 256;
      b := b - 8;
    }
  }

  /** inflateSync shifts the partial byte out on the wrong side: the bytes it
      searches are the bytes held, for all contents of the buffer, only if no
      partial byte or no whole byte is held. */
  lemma SyncShift(bits: nat)
    ensures (forall hold: nat :: hold < Pow2(bits) ==> LowBytes(hold * Pow2(bits % 8), bits / 8) == HeldBytes(hold, bits))
       <==> bits % 8 == 0 || bits < 8
  {
    var r := bits % 8;
    if r == 0 {
      assert Pow2(0) == 1;
    } else if bits >= 8 {
      var hold := Pow2(r);
      Pow2Strict(r, bits);
      SmallPowers(r);
      assert LowBytes(hold / Pow2(r), bits / 8)[0] == 1;
      assert LowBytes(hold * Pow2(r), bits / 8)[0] == hold * Pow2(r) % 256;
    }
  }

  lemma Pow2Strict(m: nat, n: nat)
    requires m < n
    ensures Pow2(m) < Pow2(n)
  {
    Pow2Monotone(m, n - 1);
  }

  lemma SmallPowers(r: nat)
    requires 1 <= r < 8
    ensures Pow2(r) / Pow2(r) == 1 && Pow2(r) * Pow2(r) % 256 != 1
  {
    assert Pow2(1) == 2 && Pow2(2) == 4 && Pow2(3) == 8 && Pow2(4) == 16 && Pow2(5) == 32 && Pow2(6) == 64 && Pow2(7) == 128;
  }
}
