/** The undecoded bits of a deflate stream as one number: bit i of `u` is the
    i-th bit still to come, `n` bits are known so far. */
module BitSource {
  import opened Binary
  import opened Lz77

  function LE(s: seq<byte>): nat {
    if s == [] then 0 else s[0] + 256 * LE(s[1..])
  }

  /** Bits left over before a byte boundary, when n are still to come. */
  function Odd(n: nat): (k: nat)
    ensures k < 8 && k <= n
  {
    n % 8
  }

  lemma OddShift(n: nat, m: nat)
    ensures Odd(n + 8 * m) == Odd(n)
  {
  }

  lemma OddDrop(n: nat)
    ensures Odd(n - Odd(n)) == 0
  {
  }

  datatype Bits = Bits(u: nat, n: nat) {
    /** BITS(k): the low k bits; bits not yet known read as zero. */
    function Peek(k: nat): (v: nat)
      ensures v < Pow2(k)
    {
      u % Pow2(k)
    }

    /** What follows the next k bits. */
    function Drop(k: nat): Bits
      requires k <= n
    {
      Bits(Quotient(u, Pow2(k)), n - k)
    }

    function Append(more: seq<byte>): Bits {
      Bits(u + Pow2(n) * LE(more), n + 8 * |more|)
    }
  }

  /** What is left of the bytes `fed` after `consumed` bits were decoded. */
  function Remaining(fed: seq<byte>, consumed: nat): Bits
    requires consumed <= 8 * |fed|
  {
    Bits(LE(fed), 8 * |fed|).Drop(consumed)
  }

  lemma {:induction false} LEAppend(s: seq<byte>, t: seq<byte>)
    ensures LE(s + t) == LE(s) + Pow2(8 * |s|) * LE(t)
    decreases |s|
  {
    if s == [] {
      assert s + t == t;
    } else {
      LEAppend(s[1..], t);
      assert (s + t)[1..] == s[1..] + t;
      assert Pow2(8 * |s|) == 256 * Pow2(8 * |s| - 8) by { Pow2Add(8, 8 * |s| - 8); assert Pow2(8) == 256; }
      MulAssoc(256, Pow2(8 * |s| - 8), LE(t));
    }
  }

  lemma {:induction false} LEBound(s: seq<byte>)
    ensures LE(s) < Pow2(8 * |s|)
    decreases |s|
  {
    if s != [] {
      LEBound(s[1..]);
      Pow2Add(8, 8 * |s| - 8);
      assert Pow2(8) == 256;
    }
  }

  lemma DivByProduct(x: nat, p: nat, q: nat)
    requires p > 0 && q > 0 && p * q > 0
    ensures x / p / q == x / (p * q)
  {
    var m, r := x / p, x % p;
    var m', r' := m / q, m % q;
    assert x == p * m + r && m == q * m' + r';
    MulAssoc(m', q, p);
    MulDistributes(q * m', r', p);
    MulDistributes(r', q - r', p);
    MulGrows(q - r', p);
    DivModUnique(x, p * q, m', r' * p + r);
  }

  lemma DivDiv(x: nat, a: nat, b: nat)
    ensures x / Pow2(a) / Pow2(b) == x / Pow2(a + b)
  {
    Pow2Add(a, b);
    DivByProduct(x, Pow2(a), Pow2(b));
  }

  /** Splitting off the low bits of a number that was built on top of them. */
  lemma DivModSum(x: nat, k: nat, y: nat)
    ensures (x + Pow2(k) * y) / Pow2(k) == x / Pow2(k) + y
    ensures (x + Pow2(k) * y) % Pow2(k) == x % Pow2(k)
  {
    var p := Pow2(k);
    var q, r := x / p, x % p;
    assert x == p * q + r;
    MulDistributes(q, y, p);
    DivModUnique(x + p * y, p, q + y, r);
  }

  lemma DropDrop(b: Bits, j: nat, k: nat)
    requires j + k <= b.n
    ensures b.Drop(j).Drop(k) == b.Drop(j + k)
  {
    DivDiv(b.u, j, k);
  }

  lemma PeekAppend(b: Bits, more: seq<byte>, k: nat)
    requires k <= b.n
    ensures b.Append(more).Peek(k) == b.Peek(k)
  {
    Pow2Add(k, b.n - k);
    MulAssoc(Pow2(k), Pow2(b.n - k), LE(more));
    DivModSum(b.u, k, Pow2(b.n - k) * LE(more));
  }

  lemma DropAppend(b: Bits, more: seq<byte>, k: nat)
    requires k <= b.n
    ensures b.Append(more).Drop(k) == b.Drop(k).Append(more)
  {
    Pow2Add(k, b.n - k);
    MulAssoc(Pow2(k), Pow2(b.n - k), LE(more));
    DivModSum(b.u, k, Pow2(b.n - k) * LE(more));
  }

  lemma AppendAppend(b: Bits, s: seq<byte>, t: seq<byte>)
    ensures b.Append(s).Append(t) == b.Append(s + t)
  {
    LEAppend(s, t);
    Pow2Add(b.n, 8 * |s|);
    SpreadProduct(Pow2(b.n), LE(s), Pow2(8 * |s|), LE(t));
  }

  lemma SpreadProduct(p: int, x: int, q: int, y: int)
    ensures p * (x + q * y) == p * x + (p * q) * y
  {
    MulAssoc(p, q, y);
    MulDistributes(x, q * y, p);
  }

  lemma RemainingAppend(fed: seq<byte>, consumed: nat, more: seq<byte>)
    requires consumed <= 8 * |fed|
    ensures Remaining(fed + more, consumed) == Remaining(fed, consumed).Append(more)
  {
    LEAppend(fed, more);
    Pow2Add(consumed, 8 * |fed| - consumed);
    MulAssoc(Pow2(consumed), Pow2(8 * |fed| - consumed), LE(more));
    DivModSum(LE(fed), consumed, Pow2(8 * |fed| - consumed) * LE(more));
  }

  lemma RemainingDrop(fed: seq<byte>, consumed: nat, k: nat)
    requires consumed + k <= 8 * |fed|
    ensures Remaining(fed, consumed).Drop(k) == Remaining(fed, consumed + k)
  {
    DivDiv(LE(fed), consumed, k);
  }

  lemma RemainingBound(fed: seq<byte>, consumed: nat)
    requires consumed <= 8 * |fed|
    ensures Remaining(fed, consumed).u < Pow2(8 * |fed| - consumed)
  {
    LEBound(fed);
    Pow2Add(consumed, 8 * |fed| - consumed);
    QuotientBound(LE(fed), Pow2(consumed), Pow2(8 * |fed| - consumed));
  }

  lemma QuotientBound(x: nat, p: nat, q: nat)
    requires p > 0 && x < p * q
    ensures x / p < q
  {
    var m, r := x / p, x % p;
    assert x == p * m + r;
    if m > q {
      MulDistributes(q, m - q, p);
      MulGrows(m - q, p);
    }
  }

  /** PULLBYTE: the next whole byte goes on top of the bits already held. */
  lemma PullPeek(fed: seq<byte>, consumed: nat, i: nat)
    requires consumed <= 8 * i && i < |fed|
    ensures var r := Remaining(fed, consumed);
            var bits := 8 * i - consumed;
            r.Peek(bits + 8) == r.Peek(bits) + Pow2(bits) * fed[i]
  {
    var bits := 8 * i - consumed;
    var u0 := Remaining(fed[..i], consumed).u;
    assert fed == fed[..i] + fed[i..];
    RemainingAppend(fed[..i], consumed, fed[i..]);
    RemainingBound(fed[..i], consumed);
    assert fed[i..][1..] == fed[i + 1..];
    Pow2Add(bits, 8);
    assert Pow2(8) == 256;
    TopByte(u0, Pow2(bits), fed[i], LE(fed[i + 1..]));
  }

  lemma TopByte(u0: nat, p: nat, c: byte, rest: nat)
    requires u0 < p
    ensures (u0 + p * (c + 256 * rest)) % p == u0
    ensures (u0 + p * (c + 256 * rest)) % (p * 256) == u0 + p * c
  {
    var u := u0 + p * (c + 256 * rest);
    MulDistributes(c, 256 * rest, p);
    MulAssoc(rest, p, 256);
    DivModUnique(u, p, c + 256 * rest, u0);
    MulDistributes(c, 256 - c, p);
    MulGrows(256 - c, p);
    DivModUnique(u, p * 256, rest, u0 + p * c);
  }

  lemma AppendBound(b: Bits, more: seq<byte>)
    requires b.u < Pow2(b.n)
    ensures b.Append(more).u < Pow2(b.n + 8 * |more|)
  {
    LEBound(more);
    Pow2Add(b.n, 8 * |more|);
    SumBound(b.u, Pow2(b.n), LE(more), Pow2(8 * |more|));
  }

  lemma SumBound(u: nat, p: nat, y: nat, q: nat)
    requires u < p && y < q
    ensures u + p * y < p * q
  {
    MulDistributes(y, q - y, p);
    MulGrows(q - y, p);
  }

  /** Peeking below known bits, after dropping known bits, ignores what is appended. */
  lemma DropPeekAppend(b: Bits, more: seq<byte>, j: nat, k: nat)
    requires j + k <= b.n
    ensures b.Append(more).Drop(j).Peek(k) == b.Drop(j).Peek(k)
  {
    DropAppend(b, more, j);
    PeekAppend(b.Drop(j), more, k);
  }
}
