/** adler32.c.  The checksum is defined a byte at a time (section 8.2 of RFC
    1950); the code puts off the reductions, and is proved never to overflow 32
    bits and to give the same value. */
module Adler32 {
  import opened Lz77
  import opened Bytes
  import opened Binary

  const BASE := 65521
  const NMAX := 5552

  // ---- the definition ----

  datatype Sums = Sums(s1: nat, s2: nat) {
    predicate Valid() { s1 < BASE && s2 < BASE }

    function Pack(): U32
      requires Valid()
    {
      s1 + 0x1_0000 * s2
    }
  }

  function Unpack(adler: U32): Sums {
    Sums(adler % 0x1_0000, adler / 0x1_0000)
  }

  function Adler(s: Sums, buf: seq<byte>): (r: Sums)
    requires s.Valid()
    ensures r.Valid()
  {
    if buf == [] then s else
      var p := Adler(s, buf[..|buf| - 1]);
      var s1 := (p.s1 + buf[|buf| - 1] as int) % BASE;
      Sums(s1, (p.s2 + s1) % BASE)
  }

  // ---- the closed form of section 8.2 of RFC 1950 ----

  /** The sum of all bytes, and the sum of each times its distance from the end. */
  function Total(buf: seq<byte>): nat {
    if buf == [] then 0 else buf[0] as int + Total(buf[1..])
  }

  function Weighted(buf: seq<byte>): nat {
    if buf == [] then 0 else |buf| * buf[0] as int + Weighted(buf[1..])
  }

  lemma {:induction false} OneByteMore(buf: seq<byte>, c: byte)
    ensures Total(buf + [c]) == Total(buf) + c as int
    ensures Weighted(buf + [c]) == Weighted(buf) + Total(buf) + c as int
    decreases |buf|
  {
    if buf == [] {
      assert buf + [c] == [c] && [c][1..] == [];
    } else {
      OneByteMore(buf[1..], c);
      assert (buf + [c])[1..] == buf[1..] + [c];
      MulDistributes(|buf|, 1, buf[0] as int);
    }
  }

  /** The checksum starts from 1, and its halves are these sums modulo BASE. */
  lemma {:induction false} AdlerIs(buf: seq<byte>)
    ensures Unpack(1) == Sums(1, 0)
    ensures Adler(Sums(1, 0), buf) == Sums((1 + Total(buf)) % BASE, (|buf| + Weighted(buf)) % BASE)
    decreases |buf|
  {
    if buf != [] {
      var p, c := buf[..|buf| - 1], buf[|buf| - 1];
      AdlerIs(p);
      OneByteMore(p, c);
      assert p + [c] == buf;
      AddedByte(Total(p), |p| + Weighted(p), c as int);
    }
  }

  lemma AddedByte(t: nat, w: nat, c: nat)
    ensures ((1 + t) % BASE + c) % BASE == (1 + t + c) % BASE
    ensures (w % BASE + (1 + t + c) % BASE) % BASE == (1 + w + t + c) % BASE
  {
  }

  /** The two halves of the 32-bit value. */
  lemma PackedHalves(s: Sums)
    requires s.Valid()
    ensures s.Pack() / 0x1_0000 == s.s2 && s.Pack() % 0x1_0000 == s.s1 && Unpack(s.Pack()) == s
  {
  }

  // ---- deferred reduction ----

  function Deferred(s: Sums, buf: seq<byte>): Sums {
    if buf == [] then s else
      var p := Deferred(s, buf[..|buf| - 1]);
      var s1 := p.s1 + buf[|buf| - 1] as int;
      Sums(s1, p.s2 + s1)
  }

  lemma DeferredNext(s: Sums, buf: seq<byte>, i: nat)
    requires i < |buf|
    ensures Deferred(s, buf[..i + 1])
         == Sums(Deferred(s, buf[..i]).s1 + buf[i] as int, Deferred(s, buf[..i]).s2 + (Deferred(s, buf[..i]).s1 + buf[i] as int))
  {
    assert buf[..i + 1][..i] == buf[..i];
  }

  lemma ModSum(a: nat, b: nat, c: nat)
    ensures (a % BASE + b % BASE + c) % BASE == (a + b + c) % BASE
  {
  }

  lemma ReducedStep(s1: nat, s2: nat, c: nat)
    ensures (s1 % BASE + c) % BASE == (s1 + c) % BASE
    ensures (s2 % BASE + (s1 + c) % BASE) % BASE == (s2 + (s1 + c)) % BASE
  {
    ModSum(s1, 0, c);
    ModSum(s2, s1 + c, 0);
  }

  /** One reduction at the end is as good as one after every byte. */
  lemma {:induction false} DeferredIsAdler(s: Sums, buf: seq<byte>)
    requires s.Valid()
    ensures Adler(s, buf) == Sums(Deferred(s, buf).s1 % BASE, Deferred(s, buf).s2 % BASE)
    decreases |buf|
  {
    if buf != [] {
      var a, c := buf[..|buf| - 1], buf[|buf| - 1] as int;
      DeferredIsAdler(s, a);
      var p, q := Deferred(s, a), Adler(s, a);
      assert Deferred(s, buf) == Sums(p.s1 + c, p.s2 + (p.s1 + c));
      assert Adler(s, buf) == Sums((q.s1 + c) % BASE, (q.s2 + (q.s1 + c) % BASE) % BASE);
      hide Adler, Deferred;
      ReducedStep(p.s1, p.s2, c);
    }
  }

  /** What n bytes can add at most. */
  function Most(s: Sums, n: nat): nat {
    s.s2 + n * s.s1 + 255 * (n * (n + 1) / 2)
  }

  lemma {:induction false} DeferredBound(s: Sums, buf: seq<byte>)
    ensures Deferred(s, buf).s1 <= s.s1 + 255 * |buf| && Deferred(s, buf).s2 <= Most(s, |buf|)
    decreases |buf|
  {
    if buf != [] {
      DeferredBound(s, buf[..|buf| - 1]);
      MostStep(s, |buf| - 1);
    }
  }

  lemma MostStep(s: Sums, n: nat)
    ensures Most(s, n + 1) == Most(s, n) + s.s1 + 255 * (n + 1)
  {
    assert (n + 1) * (n + 2) == n * (n + 1) + 2 * (n + 1);
    assert n * (n + 1) % 2 == 0 by { EvenProduct(n); }
    assert (n + 1) * s.s1 == n * s.s1 + s.s1;
  }

  lemma EvenProduct(n: nat)
    ensures n * (n + 1) % 2 == 0
  {
    var h := n / 2;
    if n % 2 == 0 {
      assert n * (n + 1) == 2 * (h * (n + 1));
    } else {
      assert n + 1 == 2 * (h + 1);
      assert n * (n + 1) == 2 * (n * (h + 1));
    }
  }

  lemma {:induction false} MostMonotone(s: Sums, m: nat, n: nat)
    requires m <= n
    ensures Most(s, m) <= Most(s, n)
    decreases n
  {
    if m < n {
      MostMonotone(s, m, n - 1);
      MostStep(s, n - 1);
    }
  }

  /** n bytes of 0xff add as much as n bytes can. */
  function Full(n: nat): (buf: seq<byte>)
    ensures |buf| == n
  {
    seq(n, _ => 0xff)
  }

  lemma {:induction false} FullReachesMost(s: Sums, n: nat)
    ensures Deferred(s, Full(n)) == Sums(s.s1 + 255 * n, Most(s, n))
    decreases n
  {
    if n != 0 {
      FullReachesMost(s, n - 1);
      assert Full(n)[..n - 1] == Full(n - 1);
      MostStep(s, n - 1);
    }
  }

  lemma MostFits(n: nat)
    ensures n <= NMAX ==> forall s: Sums :: s.Valid() ==> Most(s, n) <= 0xffff_ffff
    ensures n > NMAX ==> Most(Sums(BASE - 1, BASE - 1), n) > 0xffff_ffff
  {
    var top := Sums(BASE - 1, BASE - 1);
    if n <= NMAX {
      forall s: Sums | s.Valid() ensures Most(s, n) <= 0xffff_ffff {
        MostMonotone(s, n, NMAX);
        assert NMAX * s.s1 <= NMAX * (BASE - 1);
        assert NMAX * (NMAX + 1) / 2 == 15415128;
      }
    } else {
      MostMonotone(top, NMAX + 1, n);
      assert (NMAX + 1) * (NMAX + 2) / 2 == 15420681;
      assert Most(top, NMAX + 1) > 0xffff_ffff;
    }
  }

  /** NMAX is the largest number of bytes that cannot overflow 32 bits, from any
      valid sums. */
  lemma NMaxIsExact(n: nat)
    ensures (forall s: Sums, buf: seq<byte> :: s.Valid() && |buf| == n ==>
               Deferred(s, buf).s1 <= 0xffff_ffff && Deferred(s, buf).s2 <= 0xffff_ffff) <==> n <= NMAX
  {
    MostFits(n);
    hide Most, Deferred;
    if n <= NMAX {
      forall s: Sums, buf: seq<byte> | s.Valid() && |buf| == n
        ensures Deferred(s, buf).s1 <= 0xffff_ffff && Deferred(s, buf).s2 <= 0xffff_ffff
      {
        DeferredBound(s, buf);
      }
    } else {
      FullReachesMost(Sums(BASE - 1, BASE - 1), n);
    }
  }

  // ---- reduction without division ----

  /** CHOP(a): 65536 is 15 modulo BASE. */
  function Chop(a: nat): nat {
    var tmp := a / 0x1_0000;
    a % 0x1_0000 + (tmp * 16 - tmp)
  }

  function Mod28(a: nat): nat {
    var c := Chop(a);
    if c >= BASE then c - BASE else c
  }

  function Mod(a: nat): nat {
    Mod28(Chop(a))
  }

  /** MOD63(a), the first step by 2^32, which is 225 modulo BASE. */
  function Mod63(a: nat): nat {
    var tmp := a / 0x1_0000_0000;
    var b := a % 0x1_0000_0000 + (tmp * 256 - tmp * 32 + tmp);
    Mod28(Chop(b))
  }

  lemma ChopKeeps(a: nat)
    ensures Chop(a) % BASE == a % BASE
  {
    var q := a / 0x1_0000;
    assert a == Chop(a) + BASE * q;
    DropMultiple(Chop(a), q);
  }

  lemma DropMultiple(x: int, q: int)
    ensures (x + BASE * q) % BASE == x % BASE
  {
    var d, r := x / BASE, x % BASE;
    assert x + BASE * q == (d + q) * BASE + r;
    DivModUnique(x + BASE * q, BASE, d + q, r);
  }

  /** MOD28 reduces exactly the values that CHOP brings below twice BASE. */
  lemma Mod28Exact(a: nat)
    ensures Mod28(a) == a % BASE <==> Chop(a) < 2 * BASE
  {
    ChopKeeps(a);
    var c := Chop(a);
    if c < 2 * BASE {
      if c >= BASE { DropMultiple(c - BASE, 1); }
    }
  }

  /** MOD on every 32-bit value. */
  lemma ModExact(a: U32)
    ensures Mod(a) == a % BASE
  {
    ChopKeeps(a);
    assert Chop(a) <= 16 * 0xffff;
    Mod28Exact(Chop(a));
  }

  /** MOD63 on every non-negative 64-bit length. */
  lemma Mod63Exact(a: nat)
    requires a < 0x8000_0000_0000_0000
    ensures Mod63(a) == a % BASE
  {
    var q := a / 0x1_0000_0000;
    var b := a % 0x1_0000_0000 + 225 * q;
    assert a == b + BASE * (65551 * q);
    DropMultiple(b, 65551 * q);
    ChopKeeps(b);
    assert q < 0x8000_0000;
    assert b < 0x1_0000_0000 + 225 * 0x8000_0000;
    assert Chop(b) < 0x1_0000 + 15 * 0x71_8000;
    Mod28Exact(Chop(b));
  }

  // ---- adler32() ----

  /** MOD(a) as compiled: by division or, with NO_DIVIDE, without. */
  method Reduce(a: U32, noDivide: bool) returns (r: U32)
    ensures r == a % BASE
  {
    if noDivide {
      ModExact(a);
      r := Mod(a);
    } else {
      r := a % BASE;
    }
  }

  method Reduce28(a: U32, noDivide: bool) returns (r: U32)
    requires Chop(a) < 2 * BASE
    ensures r == a % BASE
  {
    if noDivide {
      Mod28Exact(a);
      r := Mod28(a);
    } else {
      r := a % BASE;
    }
  }

  /** DO1(buf, i); no overflow within NMAX bytes of the last reduction. */
  method Do1(ghost s: Sums, buf: seq<byte>, ghost from: nat, i: nat, adler: U32, sum2: U32) returns (a: U32, b: U32)
    requires s.Valid() && from <= i < |buf| && i - from < NMAX
    requires Sums(adler, sum2) == Deferred(s, buf[from..i])
    ensures Sums(a, b) == Deferred(s, buf[from..i + 1])
  {
    var data := buf[from..];
    assert data[..i - from] == buf[from..i] && data[..i + 1 - from] == buf[from..i + 1];
    DeferredNext(s, data, i - from);
    DeferredBound(s, buf[from..i + 1]);
    NMaxIsExact(i + 1 - from);
    a := adler + buf[i];
    b := sum2 + a;
  }

  lemma {:induction false} AdlerConcat(s: Sums, a: seq<byte>, b: seq<byte>)
    requires s.Valid()
    ensures Adler(s, a + b) == Adler(Adler(s, a), b)
    decreases |b|
  {
    if b == [] {
      assert a + b == a;
    } else {
      AdlerConcat(s, a, b[..|b| - 1]);
      assert (a + b)[..|a + b| - 1] == a + b[..|b| - 1];
    }
  }

  /** DO16(buf) */
  method Do16(ghost s: Sums, buf: seq<byte>, ghost from: nat, i: nat, adler: U32, sum2: U32) returns (a: U32, b: U32)
    requires s.Valid() && from <= i && i + 16 <= |buf| && i + 16 - from <= NMAX
    requires Sums(adler, sum2) == Deferred(s, buf[from..i])
    ensures Sums(a, b) == Deferred(s, buf[from..i + 16])
  {
    hide Deferred, Sums.Valid;
    a, b := Do1(s, buf, from, i, adler, sum2);
    a, b := Do1(s, buf, from, i + 1, a, b);
    a, b := Do1(s, buf, from, i + 2, a, b);
    a, b := Do1(s, buf, from, i + 3, a, b);
    a, b := Do1(s, buf, from, i + 4, a, b);
    a, b := Do1(s, buf, from, i + 5, a, b);
    a, b := Do1(s, buf, from, i + 6, a, b);
    a, b := Do1(s, buf, from, i + 7, a, b);
    a, b := Do1(s, buf, from, i + 8, a, b);
    a, b := Do1(s, buf, from, i + 9, a, b);
    a, b := Do1(s, buf, from, i + 10, a, b);
    a, b := Do1(s, buf, from, i + 11, a, b);
    a, b := Do1(s, buf, from, i + 12, a, b);
    a, b := Do1(s, buf, from, i + 13, a, b);
    a, b := Do1(s, buf, from, i + 14, a, b);
    a, b := Do1(s, buf, from, i + 15, a, b);
  }

  /** The sums after buf[..i], reduced. */
  ghost predicate Reduced(s: Sums, buf: seq<byte>, i: nat, adler: int, sum2: int) {
    s.Valid() && i <= |buf| && 0 <= adler && 0 <= sum2 && Sums(adler, sum2) == Adler(s, buf[..i])
  }

  /** MOD(adler); MOD(sum2) */
  method ReduceBoth(ghost s: Sums, buf: seq<byte>, ghost from: nat, ghost i: nat, adler: U32, sum2: U32, noDivide: bool)
    returns (a: U32, b: U32)
    requires s.Valid() && from <= i <= |buf| && Sums(adler, sum2) == Deferred(Adler(s, buf[..from]), buf[from..i])
    ensures Reduced(s, buf, i, a, b)
  {
    a := Reduce(adler, noDivide);
    b := Reduce(sum2, noDivide);
    JoinSums(s, buf, from, i);
  }

  lemma JoinSums(s: Sums, buf: seq<byte>, from: nat, i: nat)
    requires s.Valid() && from <= i <= |buf|
    ensures var d := Deferred(Adler(s, buf[..from]), buf[from..i]);
            Adler(s, buf[..i]) == Sums(d.s1 % BASE, d.s2 % BASE)
  {
    assert buf[..i] == buf[..from] + buf[from..i];
    AdlerConcat(s, buf[..from], buf[from..i]);
    DeferredIsAdler(Adler(s, buf[..from]), buf[from..i]);
  }

  lemma NothingYet(s: Sums, buf: seq<byte>, i: nat)
    requires i <= |buf|
    ensures Deferred(s, buf[i..i]) == s
  {
  }

  /** One block of NMAX bytes with a single reduction. */
  method Block(ghost s: Sums, buf: seq<byte>, from: nat, adler: U32, sum2: U32, noDivide: bool) returns (a: U32, b: U32)
    requires Reduced(s, buf, from, adler, sum2) && from + NMAX <= |buf|
    ensures Reduced(s, buf, from + NMAX, a, b)
  {
    hide Deferred, Adler, Reduced;
    a, b := adler, sum2;
    ReducedGives(s, buf, from, a, b);
    ghost var p := Adler(s, buf[..from]);
    NothingYet(p, buf, from);
    var n := NMAX / 16;
    while n > 0
      invariant 0 <= n <= NMAX / 16 && Sums(a, b) == Deferred(p, buf[from..from + (NMAX - 16 * n)])
    {
      a, b := Do16(p, buf, from, from + (NMAX - 16 * n), a, b);
      n := n - 1;
    }
    a, b := ReduceBoth(s, buf, from, from + NMAX, a, b, noDivide);
  }

  lemma ReducedGives(s: Sums, buf: seq<byte>, i: nat, adler: int, sum2: int)
    requires Reduced(s, buf, i, adler, sum2)
    ensures s.Valid() && i <= |buf| && 0 <= adler < BASE && 0 <= sum2 < BASE
    ensures Sums(adler, sum2) == Adler(s, buf[..i]) && Adler(s, buf[..i]).Valid()
  {
    var p := Adler(s, buf[..i]);
    assert p.Valid();
  }

  /** The bytes after the last whole block, fewer than NMAX. */
  method Remainder(ghost s: Sums, buf: seq<byte>, from: nat, adler: U32, sum2: U32, noDivide: bool) returns (a: U32, b: U32)
    requires Reduced(s, buf, from, adler, sum2) && |buf| - from < NMAX
    ensures Reduced(s, buf, |buf|, a, b)
  {
    hide Deferred, Adler, Reduced;
    a, b := adler, sum2;
    ReducedGives(s, buf, from, a, b);
    ghost var p := Adler(s, buf[..from]);
    NothingYet(p, buf, from);
    var i := from;
    while |buf| - i >= 16
      invariant from <= i <= |buf| && Sums(a, b) == Deferred(p, buf[from..i])
      decreases |buf| - i
    {
      a, b := Do16(p, buf, from, i, a, b);
      i := i + 16;
    }
    while i < |buf|
      invariant from <= i <= |buf| && Sums(a, b) == Deferred(p, buf[from..i])
    {
      a, b := Do1(p, buf, from, i, a, b);
      i := i + 1;
    }
    a, b := ReduceBoth(s, buf, from, |buf|, a, b, noDivide);
  }

  /** Fewer than 16 bytes: a subtraction and MOD28. */
  method Short(s: Sums, buf: seq<byte>, noDivide: bool) returns (a: U32, b: U32)
    requires s.Valid() && |buf| < 16
    ensures Reduced(s, buf, |buf|, a, b)
  {
    hide Deferred, Adler, Most;
    a, b := s.s1, s.s2;
    NothingYet(s, buf, 0);
    var i := 0;
    while i < |buf|
      invariant 0 <= i <= |buf| && Sums(a, b) == Deferred(s, buf[0..i])
    {
      a, b := Do1(s, buf, 0, i, a, b);
      i := i + 1;
    }
    assert buf[0..i] == buf;
    a, b := ReduceShort(s, buf, a, b, noDivide);
  }

  /** The reductions after fewer than 16 bytes. */
  method ReduceShort(ghost s: Sums, buf: seq<byte>, adler: U32, sum2: U32, noDivide: bool) returns (a: U32, b: U32)
    requires s.Valid() && |buf| < 16 && Sums(adler, sum2) == Deferred(s, buf)
    ensures Reduced(s, buf, |buf|, a, b)
  {
    hide Deferred, Adler, Most;
    a := adler;
    DeferredBound(s, buf);
    ShortBound(s, |buf|);
    DeferredIsAdler(s, buf);
    if a >= BASE {
      DropMultiple(a - BASE, 1);
      a := a - BASE;
    }
    b := Reduce28(sum2, noDivide);
    assert buf[..|buf|] == buf;
  }

  lemma ShortBound(s: Sums, n: nat)
    requires s.Valid() && n < 16
    ensures s.s1 + 255 * n < 2 * BASE && Most(s, n) <= 0x10_ffff
  {
    MostMonotone(s, n, 15);
    assert Most(s, 15) == s.s2 + 15 * s.s1 + 255 * 120;
  }

  /** A single byte: two subtractions. */
  method Single(s: Sums, c: byte) returns (a: U32, b: U32)
    requires s.Valid()
    ensures Reduced(s, [c], 1, a, b)
  {
    a := s.s1 + c as int;
    if a >= BASE {
      DropMultiple(a - BASE, 1);
      a := a - BASE;
    }
    b := s.s2 + a;
    if b >= BASE {
      DropMultiple(b - BASE, 1);
      b := b - BASE;
    }
    assert [c][..1] == [c] && [c][..0] == [];
    assert Adler(s, []) == s;
  }

  /** The checksum of a buffer continued from `adler`; None is a null buffer. */
  method Adler32(adler: U32, buf: Option<seq<byte>>, noDivide: bool) returns (r: U32)
    requires Unpack(adler).Valid()
    ensures r == if buf.None? then 1 else Adler(Unpack(adler), buf.value).Pack()
  {
    var s := Unpack(adler);
    if buf.None? { return 1; }
    var data, a, b := buf.value, s.s1, s.s2;
    hide Adler, Reduced;
    if |data| == 1 {
      assert data == [data[0]];
      a, b := Single(s, data[0]);
    } else if |data| < 16 {
      a, b := Short(s, data, noDivide);
    } else {
      StartsReduced(s, data);
      var i := 0;
      while |data| - i >= NMAX
        invariant 0 <= i <= |data| && Reduced(s, data, i, a, b)
        decreases |data| - i
      {
        a, b := Block(s, data, i, a, b, noDivide);
        i := i + NMAX;
      }
      if i < |data| {
        a, b := Remainder(s, data, i, a, b, noDivide);
      }
    }
    ReducedGives(s, data, |data|, a, b);
    assert data[..|data|] == data;
    r := a + 0x1_0000 * b;
  }

  lemma StartsReduced(s: Sums, buf: seq<byte>)
    requires s.Valid()
    ensures Reduced(s, buf, 0, s.s1, s.s2)
  {
  }

  // ---- combination ----

  /** The result of adler32_combine_: sums of the parts, without their bytes. */
  function CombinedSums(p: Sums, q: Sums, len2: nat): Sums {
    Sums((p.s1 + q.s1 + BASE - 1) % BASE, (len2 % BASE * p.s1 + p.s2 + q.s2 + BASE - len2 % BASE) % BASE)
  }

  /** The checksum of two concatenated inputs from those of the parts. */
  method Combine(adler1: U32, adler2: U32, len2: int, noDivide: bool) returns (r: U32)
    requires Unpack(adler1).Valid() && Unpack(adler2).Valid() && len2 < 0x8000_0000_0000_0000
    ensures r == if len2 < 0 then 0xffff_ffff else CombinedSums(Unpack(adler1), Unpack(adler2), len2).Pack()
  {
    hide Mod63, Chop, Mod28;
    if len2 < 0 { return 0xffff_ffff; }
    var p, q := Unpack(adler1), Unpack(adler2);
    Mod63Exact(len2);
    var rem: U32 := if noDivide then Mod63(len2) else len2 % BASE;
    var sum1: U32 := p.s1;
    var sum2 := SecondSum(rem, p, q, noDivide);
    sum1 := sum1 + q.s1 + BASE - 1;
    sum1 := Fold(sum1);
    r := sum1 + 0x1_0000 * sum2;
  }

  method SecondSum(rem: U32, p: Sums, q: Sums, noDivide: bool) returns (sum2: U32)
    requires rem < BASE && p.Valid() && q.Valid()
    ensures sum2 == (rem * p.s1 + p.s2 + q.s2 + BASE - rem) % BASE
  {
    sum2 := Product(rem, p.s1);
    sum2 := Reduce(sum2, noDivide);
    FoldOne(rem * p.s1, p.s2 + q.s2 + BASE - rem);
    sum2 := sum2 + p.s2 + q.s2 + BASE - rem;
    sum2 := Fold4(sum2);
  }

  /** rem * sum1 fits in 32 bits. */
  method Product(x: U32, y: U32) returns (r: U32)
    requires x < BASE && y < BASE
    ensures r == x * y
  {
    MulMonotone(x, BASE - 1, y);
    MulMonotone(y, BASE - 1, BASE - 1);
    r := x * y;
  }

  lemma MulMonotone(a: int, b: int, c: int)
    requires 0 <= a <= b && c >= 0
    ensures 0 <= a * c <= b * c
  {
    MulDistributes(a, b - a, c);
    assert (b - a) * c >= 0;
    assert a * c >= 0;
  }

  lemma FoldOne(x: nat, y: nat)
    ensures (x % BASE + y) % BASE == (x + y) % BASE
  {
  }

  /** A sum below three times BASE, reduced by at most two subtractions. */
  method Fold(x: U32) returns (r: U32)
    requires x < 3 * BASE
    ensures r == x % BASE
  {
    r := x;
    if r >= BASE { r := r - BASE; }
    if r >= BASE { r := r - BASE; }
  }

  /** A sum below four times BASE, reduced by at most two subtractions. */
  method Fold4(x: U32) returns (r: U32)
    requires x < 4 * BASE
    ensures r == x % BASE
  {
    r := x;
    if r >= BASE * 2 { r := r - BASE * 2; }
    if r >= BASE { r := r - BASE; }
  }

  /** Starting from other sums only moves the result. */
  lemma {:induction false} DeferredMoves(s: Sums, b: seq<byte>)
    ensures Deferred(s, b).s1 == Deferred(Sums(0, 0), b).s1 + s.s1
    ensures Deferred(s, b).s2 == Deferred(Sums(0, 0), b).s2 + s.s2 + |b| * s.s1
    decreases |b|
  {
    if b != [] {
      DeferredMoves(s, b[..|b| - 1]);
      assert |b| * s.s1 == (|b| - 1) * s.s1 + s.s1;
    }
  }

  /** The formula left as an exercise: the combination of the checksums of A
      and B (begun, as always, at 1) is the checksum of A followed by B. */
  lemma CombineIsConcat(s: Sums, a: seq<byte>, b: seq<byte>)
    requires s.Valid()
    ensures CombinedSums(Adler(s, a), Adler(Sums(1, 0), b), |b|) == Adler(s, a + b)
  {
    hide Adler, Deferred;
    var p, n := Adler(s, a), |b|;
    var z := Deferred(Sums(0, 0), b);
    AdlerConcat(s, a, b);
    DeferredIsAdler(p, b);
    DeferredIsAdler(Sums(1, 0), b);
    DeferredMoves(p, b);
    DeferredMoves(Sums(1, 0), b);
    SumsAgree(p.s1, z.s1);
    SecondAgrees(p.s1, p.s2, z.s2, n);
  }

  lemma SumsAgree(x: nat, z: nat)
    ensures (x + (z + 1) % BASE + BASE - 1) % BASE == (z + x) % BASE
  {
  }

  lemma SecondAgrees(x: nat, y: nat, z: nat, n: nat)
    ensures (n % BASE * x + y + (z + n) % BASE + BASE - n % BASE) % BASE == (z + y + n * x) % BASE
  {
    var q, r := n / BASE, n % BASE;
    var q', r' := (z + n) / BASE, (z + n) % BASE;
    var lhs := r * x + y + r' + BASE - r;
    assert n * x == r * x + BASE * (q * x) by {
      assert n == BASE * q + r;
      MulDistributes(BASE * q, r, x);
      MulAssoc(BASE, q, x);
    }
    var k := q * x - 1 + q' - q;
    assert z + y + n * x == lhs + BASE * (q * x) - BASE + (z - r' + r);
    assert z - r' + r == BASE * q' - BASE * q;
    assert z + y + n * x == lhs + BASE * k;
    DropMultiple(lhs, k);
  }
}
