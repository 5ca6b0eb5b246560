/** What a block digest computes from a message that arrives in pieces. */
module DigestStream {
  import opened Lz77
  import opened Bytes
  import opened Binary

  /** The compression function: state and block to state. */
  type Compress = (seq<Word>, seq<byte>) -> seq<Word>

  const BLOCK := 64

  /** The whole blocks of data, one after the other. */
  function Fold(f: Compress, s: seq<Word>, data: seq<byte>): seq<Word>
    decreases |data|
  {
    if |data| < BLOCK then s else Fold(f, f(s, data[..BLOCK]), data[BLOCK..])
  }

  lemma {:induction false} FoldConcat(f: Compress, s: seq<Word>, a: seq<byte>, b: seq<byte>)
    requires |a| % BLOCK == 0
    ensures Fold(f, s, a + b) == Fold(f, Fold(f, s, a), b)
    decreases |a|
  {
    if |a| < BLOCK {
      assert a + b == b;
    } else {
      FoldConcat(f, f(s, a[..BLOCK]), a[BLOCK..], b);
      assert (a + b)[..BLOCK] == a[..BLOCK] && (a + b)[BLOCK..] == a[BLOCK..] + b;
    }
  }

  lemma OneBlock(f: Compress, s: seq<Word>, block: seq<byte>)
    requires |block| == BLOCK
    ensures Fold(f, s, block) == f(s, block)
  {
    assert block[..BLOCK] == block && block[BLOCK..] == [];
    assert Fold(f, f(s, block), []) == f(s, block);
  }

  function Whole(n: nat): (w: nat)
    ensures w <= n && w % BLOCK == 0 && n - w < BLOCK
  {
    n - n % BLOCK
  }

  /** The context after msg: whole blocks are in the state, the rest is at the
      front of the buffer. */
  ghost predicate Absorbed(f: Compress, init: seq<Word>, msg: seq<byte>, state: seq<Word>, buffer: seq<byte>) {
    && |buffer| == BLOCK
    && state == Fold(f, init, msg[..Whole(|msg|)])
    && buffer[..|msg| % BLOCK] == msg[Whole(|msg|)..]
  }

  /** Input that does not fill the buffer. */
  lemma AbsorbShort(f: Compress, init: seq<Word>, msg: seq<byte>, state: seq<Word>, buffer: seq<byte>,
                    data: seq<byte>, buffer': seq<byte>)
    requires Absorbed(f, init, msg, state, buffer) && |msg| % BLOCK + |data| < BLOCK && |buffer'| == BLOCK
    requires buffer'[..|msg| % BLOCK + |data|] == buffer[..|msg| % BLOCK] + data
    ensures Absorbed(f, init, msg + data, state, buffer')
  {
    var w := Whole(|msg|);
    assert |msg + data| % BLOCK == |msg| % BLOCK + |data| && Whole(|msg + data|) == w;
    assert (msg + data)[..w] == msg[..w] && (msg + data)[w..] == msg[w..] + data;
  }

  /** Input that fills the buffer exactly. */
  lemma AbsorbFill(f: Compress, init: seq<Word>, msg: seq<byte>, state: seq<Word>, buffer: seq<byte>,
                   data: seq<byte>, block: seq<byte>)
    requires Absorbed(f, init, msg, state, buffer) && |msg| % BLOCK + |data| == BLOCK && |block| == BLOCK
    requires block == buffer[..|msg| % BLOCK] + data
    ensures Absorbed(f, init, msg + data, f(state, block), block) && |msg + data| % BLOCK == 0
  {
    var w := Whole(|msg|);
    assert |msg + data| == w + BLOCK;
    assert msg + data == msg[..w] + block;
    FoldConcat(f, init, msg[..w], block);
    assert block[..BLOCK] == block && block[BLOCK..] == [];
    assert Fold(f, f(state, block), []) == f(state, block);
    assert (msg + data)[..Whole(|msg + data|)] == msg + data;
  }

  /** A block straight from the input. */
  lemma AbsorbBlock(f: Compress, init: seq<Word>, msg: seq<byte>, state: seq<Word>, buffer: seq<byte>, block: seq<byte>)
    requires Absorbed(f, init, msg, state, buffer) && |msg| % BLOCK == 0 && |block| == BLOCK
    ensures Absorbed(f, init, msg + block, f(state, block), buffer) && |msg + block| % BLOCK == 0
  {
    assert buffer[..0] == [];
    AbsorbFill(f, init, msg, state, buffer, block, block);
  }

  function RotateLeft(x: Word, n: nat): Word
    requires n <= 32
  {
    (x << n) | (x >> (32 - n))
  }

  /** Byte k of a word, counted from the least significant. */
  function ByteOf(w: Word, k: nat): byte
    requires k < 4
  {
    ((w >> (8 * k)) & 0xff) as int
  }

  // ---- the loop over whole blocks ----

  const M32 := 0x1_0000_0000

  /** Where the loop over whole blocks of n bytes, begun at `from`, is to stop. */
  function LastStart(from: nat, n: nat): (i: nat)
    requires from <= n
    ensures from <= i <= n < i + BLOCK
  {
    n - (n - from) % BLOCK
  }

  lemma LastStartIs(from: nat, n: nat, i: nat)
    requires from <= i <= n < i + BLOCK && (i - from) % BLOCK == 0
    ensures LastStart(from, n) == i
  {
  }

  // ---- the bit count ----

  /** The two words of a count of bits modulo 2^64. */
  ghost predicate Counts(lo: U32, hi: U32, n: nat) {
    lo + 0x1_0000_0000 * hi == 8 * n % 0x1_0000_0000_0000_0000
  }

  /** A byte count as a bit count, in 32 bits. */
  function Times8(x: U32): U32 {
    x * 8 % 0x1_0000_0000
  }

  function Plus(x: U32, y: U32): U32 {
    (x + y) % 0x1_0000_0000
  }

  /** Adding len bytes to the count, with the carry between the words. */
  lemma CountMore(lo: U32, hi: U32, n: nat, len: U32, carry: nat)
    requires Counts(lo, hi, n) && carry == (if Plus(lo, Times8(len)) < lo then 1 else 0)
    ensures Counts(Plus(lo, Times8(len)), Plus(Plus(hi, carry), len / 0x2000_0000), n + len)
    ensures Plus(lo, Times8(len)) < lo <==> Plus(lo, Times8(len)) < Times8(len)
  {
    var m, mm := 0x1_0000_0000, 0x1_0000_0000_0000_0000;
    var t, q := Times8(len), len / 0x2000_0000;
    assert 8 * len == t + m * q;
    var total := lo + t;
    assert Plus(lo, t) == total - m * carry;
    var h := hi + carry + q;
    assert Plus(Plus(hi, carry), q) == h % m by { ModPlus(hi + carry, q); }
    var k := 8 * n / mm;
    assert 8 * n == mm * k + lo + m * hi;
    assert 8 * (n + len) == mm * k + (total - m * carry) + m * h;
    var a, b := h / m, h % m;
    assert 8 * (n + len) == mm * (k + a) + ((total - m * carry) + m * b);
    DivModUnique(8 * (n + len), mm, k + a, (total - m * carry) + m * b);
  }

  lemma SameCount(x: U32)
    ensures Plus(x, 0) == x
  {
  }

  lemma ModPlus(x: nat, y: nat)
    ensures (x % 0x1_0000_0000 + y) % 0x1_0000_0000 == (x + y) % 0x1_0000_0000
  {
  }

  /** The count gives the fill of the buffer. */
  lemma CountFill(lo: U32, hi: U32, n: nat)
    requires Counts(lo, hi, n)
    ensures lo / 8 % 64 == n % BLOCK
  {
    var mm := 0x1_0000_0000_0000_0000;
    var k := 8 * n / mm;
    assert 8 * n == mm * k + lo + 0x1_0000_0000 * hi;
    var z := 0x80_0000_0000_0000 * k + 0x80_0000 * hi;
    var q := n - 64 * z;
    assert lo == 8 * q;
    DivModUnique(lo, 8, q, 0);
    DivModUnique(n, 64, q / 64 + z, q % 64);
  }

  // ---- padding ----

  function Zeros(n: nat): (s: seq<byte>)
    ensures |s| == n
  {
    seq(n, _ => 0)
  }

  /** Zero bytes after 0x80, up to 8 short of a block. */
  function PadZeros(n: nat): (k: nat)
    ensures (n + 1 + k + 8) % BLOCK == 0 && k < BLOCK
  {
    (119 - n % BLOCK) % BLOCK
  }

  /** Sections 3.1 and 3.2 of RFC 1321 and section 4 of RFC 3174: 0x80, zeros,
      the length in bits modulo 2^64. */
  function Padding(n: nat, length: seq<byte>): seq<byte> {
    [0x80] + Zeros(PadZeros(n)) + length
  }

  /** After the padding everything is in the state. */
  lemma PaddedWhole(f: Compress, init: seq<Word>, msg: seq<byte>, length: seq<byte>, state: seq<Word>, buffer: seq<byte>)
    requires |length| == 8 && Absorbed(f, init, msg + Padding(|msg|, length), state, buffer)
    ensures state == Fold(f, init, msg + Padding(|msg|, length))
  {
    var all := msg + Padding(|msg|, length);
    assert |all| % BLOCK == 0;
    assert all[..Whole(|all|)] == all;
  }
}
