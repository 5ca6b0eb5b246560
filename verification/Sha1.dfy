/** The SHA-1 of mongoose.c (RFC 3174): a rolling 16-word schedule, rewritten
    round functions, and padding fed through the update function. */
module Sha1 {
  import opened DigestStream
  import opened Lz77
  import opened Bytes

  const INIT: seq<Word> := [0x67452301, 0xEFCDAB89, 0x98BADCFE, 0x10325476, 0xC3D2E1F0]

  // ---- the compression function, as in section 6.1 of RFC 3174 ----

  function Xor4(a: Word, b: Word, c: Word, d: Word): Word { a ^ b ^ c ^ d }

  function WordOf(block: seq<byte>, i: nat): Word
    requires 4 * i + 4 <= |block|
  {
    ((block[4 * i] as Word) << 24) | ((block[4 * i + 1] as Word) << 16)
      | ((block[4 * i + 2] as Word) << 8) | (block[4 * i + 3] as Word)
  }

  /** The 80-word expansion. */
  function Expanded(block: seq<byte>, t: nat): Word
    requires |block| == BLOCK
  {
    if t < 16 then WordOf(block, t)
    else RotateLeft(Xor4(Expanded(block, t - 3), Expanded(block, t - 8), Expanded(block, t - 14), Expanded(block, t - 16)), 1)
  }

  function Mix(t: nat, b: Word, c: Word, d: Word): Word {
    if t < 20 then (b & c) | (!b & d)
    else if t < 40 then b ^ c ^ d
    else if t < 60 then (b & c) | (b & d) | (c & d)
    else b ^ c ^ d
  }

  function Constant(t: nat): Word {
    if t < 20 then 0x5A827999 else if t < 40 then 0x6ED9EBA1 else if t < 60 then 0x8F1BBCDC else 0xCA62C1D6
  }

  function Sum(a: Word, b: Word, c: Word, d: Word, e: Word): Word { a + b + c + d + e }

  function Add(a: Word, b: Word): Word { a + b }

  datatype Regs = Regs(a: Word, b: Word, c: Word, d: Word, e: Word)

  function Step(t: nat, r: Regs, w: Word): Regs {
    Regs(Sum(RotateLeft(r.a, 5), Mix(t, r.b, r.c, r.d), r.e, w, Constant(t)), r.a, RotateLeft(r.b, 30), r.c, r.d)
  }

  function Steps(n: nat, r: Regs, block: seq<byte>): Regs
    requires |block| == BLOCK
  {
    if n == 0 then r else Step(n - 1, Steps(n - 1, r, block), Expanded(block, n - 1))
  }

  /** SHA-1 of one block; unchanged where the sizes are not those of SHA-1. */
  function Sha1Block(state: seq<Word>, block: seq<byte>): (s: seq<Word>)
    ensures |s| == |state|
  {
    if |state| != 5 || |block| != BLOCK then state
    else
      var r := Steps(80, Regs(state[0], state[1], state[2], state[3], state[4]), block);
      [Add(state[0], r.a), Add(state[1], r.b), Add(state[2], r.c), Add(state[3], r.d), Add(state[4], r.e)]
  }

  // ---- SHA1Transform ----

  /** The round functions as the code rewrites them. */
  function MixR(t: nat, w: Word, x: Word, y: Word): Word {
    if t < 20 then (w & (x ^ y)) ^ y
    else if t < 40 then w ^ x ^ y
    else if t < 60 then ((w | x) & y) | (w & x)
    else w ^ x ^ y
  }

  lemma Choose(w: Word, x: Word, y: Word)
    ensures (w & (x ^ y)) ^ y == (w & x) | (!w & y)
    ensures ((w | x) & y) | (w & x) == (w & x) | (w & y) | (x & y)
  {
  }

  lemma SameMix(t: nat, w: Word, x: Word, y: Word)
    ensures MixR(t, w, x, y) == Mix(t, w, x, y)
  {
    Choose(w, x, y);
  }

  /** The sum of a round, in the order of the code. */
  function SumR(z: Word, f: Word, w: Word, k: Word, v: Word): Word { z + (f + w + k + v) }

  lemma SameSum(z: Word, f: Word, w: Word, k: Word, v: Word)
    ensures SumR(z, f, w, k, v) == Sum(v, f, z, w, k)
  {
  }

  /** The 16 words hold the latest of the expansion, each at its place modulo 16. */
  ghost predicate Rolling(l: array<Word>, block: seq<byte>, t: nat)
    requires |block| == BLOCK
    reads l
  {
    && l.Length == 16
    && forall k :: 0 <= k < 16 ==> l[k] == Expanded(block, Latest(k, t))
  }

  /** The last place before t that is k modulo 16; the first 16 are loaded at the start. */
  function Latest(k: nat, t: nat): (r: nat)
    requires k < 16
    ensures r % 16 == k
    ensures t <= 16 ==> r == k
    ensures t > 16 ==> t - 16 <= r < t
  {
    if t <= 16 then k else t - 1 - (t - 1 - k) % 16
  }

  lemma LatestIs(k: nat, t: nat, r: nat)
    requires k < 16 && t >= 16 && r % 16 == k && t - 16 <= r < t
    ensures Latest(k, t) == r
  {
  }

  lemma Places(i: nat)
    requires i >= 16
    ensures (i + 13) % 16 == (i - 3) % 16 && (i + 8) % 16 == (i - 8) % 16 && (i + 2) % 16 == (i - 14) % 16
    ensures i % 16 == (i - 16) % 16
  {
  }

  /** blk(i): the new word takes the place of the one 16 before. */
  method NextWord(l: array<Word>, ghost block: seq<byte>, i: nat) returns (w: Word)
    requires |block| == BLOCK && 16 <= i < 80 && Rolling(l, block, i)
    modifies l
    ensures Rolling(l, block, i + 1) && w == Expanded(block, i)
  {
    hide RotateLeft, Xor4, Expanded, Latest;
    Places(i);
    LatestIs((i + 13) % 16, i, i - 3);
    LatestIs((i + 8) % 16, i, i - 8);
    LatestIs((i + 2) % 16, i, i - 14);
    LatestIs(i % 16, i, i - 16);
    ExpandedNext(block, i);
    w := RotateLeft(Xor4(l[(i + 13) % 16], l[(i + 8) % 16], l[(i + 2) % 16], l[i % 16]), 1);
    l[i % 16] := w;
    forall k | 0 <= k < 16 ensures l[k] == Expanded(block, Latest(k, i + 1)) {
      if k == i % 16 { LatestIs(k, i + 1, i); } else { LatestKept(k, i); }
    }
  }

  lemma LatestKept(k: nat, i: nat)
    requires k < 16 && i >= 16 && k != i % 16
    ensures Latest(k, i + 1) == Latest(k, i)
  {
    var r := Latest(k, i);
    assert (i - 16) % 16 == i % 16;
    LatestIs(k, i + 1, r);
  }

  lemma ExpandedNext(block: seq<byte>, t: nat)
    requires |block| == BLOCK && t >= 16
    ensures Expanded(block, t)
         == RotateLeft(Xor4(Expanded(block, t - 3), Expanded(block, t - 8), Expanded(block, t - 14), Expanded(block, t - 16)), 1)
  {
  }

  method Transform(state: seq<Word>, block: seq<byte>) returns (s: seq<Word>)
    requires |state| == 5 && |block| == BLOCK
    ensures s == Sha1Block(state, block)
  {
    hide Mix, MixR, RotateLeft, Constant, Sum, SumR, Add, WordOf, Xor4;
    var l := Load(block);
    var a, b, c, d, e := state[0], state[1], state[2], state[3], state[4];
    ghost var r := Regs(a, b, c, d, e);
    for i := 0 to 80
      invariant Rolling(l, block, i) && fresh(l) && Regs(a, b, c, d, e) == Steps(i, r, block)
    {
      hide Expanded, Rolling;
      var w;
      if i < 16 {
        w := FirstWord(l, block, i);
      } else {
        w := NextWord(l, block, i);
      }
      SameMix(i, b, c, d);
      SameSum(e, Mix(i, b, c, d), w, Constant(i), RotateLeft(a, 5));
      var z := SumR(e, MixR(i, b, c, d), w, Constant(i), RotateLeft(a, 5));
      a, b, c, d, e := z, a, RotateLeft(b, 30), c, d;
    }
    s := [Add(state[0], a), Add(state[1], b), Add(state[2], c), Add(state[3], d), Add(state[4], e)];
  }

  /** memcpy(block, buffer, 64), with the words already in the order blk0 gives them. */
  method Load(block: seq<byte>) returns (l: array<Word>)
    requires |block| == BLOCK
    ensures fresh(l) && Rolling(l, block, 0)
  {
    hide WordOf;
    l := new Word[16];
    for i := 0 to 16
      invariant forall k :: 0 <= k < i ==> l[k] == WordOf(block, k)
    {
      l[i] := WordOf(block, i);
    }
  }

  method FirstWord(l: array<Word>, ghost block: seq<byte>, i: nat) returns (w: Word)
    requires |block| == BLOCK && i < 16 && Rolling(l, block, i)
    ensures Rolling(l, block, i + 1) && w == Expanded(block, i)
  {
    hide Expanded;
    w := l[i];
  }

  // ---- the digest ----

  function Encode(words: seq<Word>): seq<byte> {
    if words == [] then []
    else [ByteOf(words[0], 3), ByteOf(words[0], 2), ByteOf(words[0], 1), ByteOf(words[0], 0)] + Encode(words[1..])
  }

  function Pad(n: nat): seq<byte> {
    Padding(n, BigEndian(8 * n % 0x1_0000_0000_0000_0000, 8))
  }

  function Digest(msg: seq<byte>): seq<byte> {
    Encode(Fold(Sha1Block, INIT, msg + Pad(|msg|)))
  }

  lemma BigStep(v: nat, k: nat)
    requires k >= 1
    ensures BigEndian(v, k) == BigEndian(v / 256, k - 1) + [v % 256]
  {
  }

  lemma BigRest(lo: nat, rest: nat, n: nat)
    requires n >= 1
    ensures BigEndian(lo + 256 * rest, n) == BigEndian(lo / 256 + rest, n - 1) + [lo % 256]
  {
    assert (lo + 256 * rest) % 256 == lo % 256 && (lo + 256 * rest) / 256 == lo / 256 + rest;
  }

  lemma FourMore(lo: nat, l1: nat, l2: nat, l3: nat, hi: nat)
    requires l1 == lo / 256 && l2 == l1 / 256 && l3 == l2 / 256 && l3 / 256 == 0
    ensures BigEndian(lo + 0x1_0000_0000 * hi, 8) == BigEndian(hi, 4) + [l3 % 256] + [l2 % 256] + [l1 % 256] + [lo % 256]
  {
    hide BigEndian;
    BigRest(lo, 0x100_0000 * hi, 8);
    BigRest(l1, 0x1_0000 * hi, 7);
    BigRest(l2, 0x100 * hi, 6);
    BigRest(l3, hi, 5);
  }

  lemma FourBytes(v: nat)
    ensures BigEndian(v, 4) == [] + [v / 256 / 256 / 256 % 256] + [v / 256 / 256 % 256] + [v / 256 % 256] + [v % 256]
  {
    hide BigEndian;
    BigStep(v, 4);
    BigStep(v / 256, 3);
    BigStep(v / 256 / 256, 2);
    BigStep(v / 256 / 256 / 256, 1);
    NoBytes(v / 256 / 256 / 256 / 256);
  }

  lemma NoBytes(v: nat)
    ensures BigEndian(v, 0) == []
  {
  }

  lemma TopByte(v: U32)
    ensures v / 256 / 256 / 256 / 256 == 0
  {
  }

  lemma FourAndFour(a: byte, b: byte, c: byte, d: byte, x: seq<byte>)
    ensures x + ([] + [a] + [b] + [c] + [d]) == x + [a] + [b] + [c] + [d]
  {
  }

  /** finalcount: count[1], then count[0], most significant byte first. */
  lemma CountBytes(lo: U32, hi: U32, n: nat)
    requires Counts(lo, hi, n)
    ensures BigEndian(hi, 4) + BigEndian(lo, 4) == BigEndian(8 * n % 0x1_0000_0000_0000_0000, 8)
  {
    hide BigEndian;
    var l1, l2, l3 := lo / 256, lo / 256 / 256, lo / 256 / 256 / 256;
    TopByte(lo);
    FourBytes(lo);
    FourMore(lo, l1, l2, l3, hi);
    FourAndFour(l3 % 256, l2 % 256, l1 % 256, lo % 256, BigEndian(hi, 4));
  }

  lemma Sha1BlockSize(state: seq<Word>, block: seq<byte>)
    ensures |Sha1Block(state, block)| == |state|
  {
  }

  // ---- SHA1_CTX ----

  /** SHA1Update's sums of 32 bits overflow: the fill and the length together, or the
      loop index when the last whole block begins within 63 of 2^32. */
  predicate Overruns(index: nat, n: nat)
    requires index < BLOCK
  {
    index + n >= M32 || (n >= BLOCK - index && LastStart(BLOCK - index, n) + 63 >= M32)
  }

  class Sha1Ctx {
    var state: seq<Word>
    var count0: U32
    var count1: U32
    const buffer: array<byte>
    ghost var msg: seq<byte>

    ghost predicate Valid()
      reads this, buffer
    {
      && |state| == 5 && buffer.Length == BLOCK
      && Counts(count0, count1, |msg|) && Absorbed(Sha1Block, INIT, msg, state, buffer[..])
    }

    /** SHA1Init */
    constructor ()
      ensures Valid() && msg == [] && fresh(buffer)
    {
      state := INIT;
      count0, count1 := 0, 0;
      buffer := new byte[BLOCK];
      msg := [];
      new;
      assert Fold(Sha1Block, INIT, []) == INIT;
    }

    /** SHA1Update */
    method Update(data: seq<byte>) returns (overrun: bool)
      requires Valid() && |data| < M32
      modifies this`state, this`count0, this`count1, this`msg, buffer
      ensures overrun <==> Overruns(old(|msg|) % BLOCK, |data|)
      ensures !overrun ==> Valid() && msg == old(msg) + data
    {
      hide Absorbed, Counts, Sha1Block;
      CountFill(count0, count1, |msg|);
      var j := count0 / 8 % 64;
      AddCount(|data|, |msg|);
      var i := 0;
      overrun := false;
      if Plus(j, |data|) > 63 {
        ghost var first := data[..64 - j];
        Fill(data[..64 - j], j);
        i, overrun := Blocks(data, 64 - j);
        if overrun { return; }
        j := 0;
        assert first + data[64 - |old(msg)| % BLOCK..i] == data[..i];
        Joined(old(msg), first, data[|first|..i]);
      } else if j + |data| > 63 {
        return true;
      }
      ghost var rest := data[i..];
      Keep(data[i..], j);
      assert data[..i] + rest == data;
      Joined(old(msg), data[..i], rest);
    }

    /** Counts the bits of `len` more bytes. */
    method AddCount(length: U32, ghost n: nat)
      requires Counts(count0, count1, n)
      modifies this`count0, this`count1
      ensures Counts(count0, count1, n + length)
    {
      hide Counts, Plus, Times8;
      CountMore(count0, count1, n, length, if Plus(count0, Times8(length)) < count0 then 1 else 0);
      SameCount(count1);
      var j := count0;
      count0 := Plus(count0, Times8(length));
      if count0 < j {
        count1 := Plus(count1, 1);
      }
      count1 := Plus(count1, length / 0x2000_0000);
    }

    method CopyIn(data: seq<byte>, at: nat)
      requires at + |data| <= buffer.Length
      modifies buffer
      ensures buffer[..at] == old(buffer[..at]) && buffer[at..at + |data|] == data
    {
      forall k | 0 <= k < |data| { buffer[at + k] := data[k]; }
    }

    /** Fills the buffer and transforms it. */
    method Fill(data: seq<byte>, at: nat)
      requires buffer.Length == BLOCK && |state| == 5 && at == |msg| % BLOCK && at + |data| == BLOCK
      requires Absorbed(Sha1Block, INIT, msg, state, buffer[..])
      modifies this`state, this`msg, buffer
      ensures |state| == 5 && msg == old(msg) + data && |msg| % BLOCK == 0
      ensures Absorbed(Sha1Block, INIT, msg, state, buffer[..])
    {
      hide Absorbed, Sha1Block;
      ghost var was := buffer[..];
      CopyIn(data, at);
      assert buffer[..] == was[..at] + data;
      AbsorbFill(Sha1Block, INIT, msg, state, was, data, buffer[..]);
      Sha1BlockSize(state, buffer[..]);
      state := Transform(state, buffer[..]);
      msg := msg + data;
    }

    method Keep(data: seq<byte>, at: nat)
      requires buffer.Length == BLOCK && at == |msg| % BLOCK && at + |data| < BLOCK
      requires Absorbed(Sha1Block, INIT, msg, state, buffer[..])
      modifies this`msg, buffer
      ensures msg == old(msg) + data && Absorbed(Sha1Block, INIT, msg, state, buffer[..])
    {
      hide Absorbed, Sha1Block;
      ghost var was := buffer[..];
      CopyIn(data, at);
      assert buffer[..][..at + |data|] == was[..at] + data;
      AbsorbShort(Sha1Block, INIT, msg, state, was, data, buffer[..]);
      msg := msg + data;
    }

    /** Whole blocks straight from the input, as many as there are. */
    method Blocks(data: seq<byte>, from: nat) returns (i: nat, overrun: bool)
      requires from <= |data| < M32 && buffer.Length == BLOCK && |state| == 5 && |msg| % BLOCK == 0
      requires Absorbed(Sha1Block, INIT, msg, state, buffer[..])
      modifies this`state, this`msg
      ensures i == LastStart(from, |data|) && (overrun <==> i + 63 >= M32) && |state| == 5 && |msg| % BLOCK == 0
      ensures msg == old(msg) + data[from..i] && Absorbed(Sha1Block, INIT, msg, state, buffer[..])
    {
      hide Absorbed, Sha1Block;
      i := from;
      ghost var before := msg;
      while Plus(i, 63) < |data|
        invariant from <= i <= |data| && (i - from) % BLOCK == 0 && |msg| % BLOCK == 0 && |state| == 5
        invariant msg == before + data[from..i] && Absorbed(Sha1Block, INIT, msg, state, buffer[..])
        decreases |data| - i
      {
        if i + 63 >= |data| {
          LastStartIs(from, |data|, i);
          return i, true;
        }
        ghost var block := data[i..i + BLOCK];
        AbsorbBlock(Sha1Block, INIT, msg, state, buffer[..], block);
        Sha1BlockSize(state, block);
        state := Transform(state, data[i..i + BLOCK]);
        Joined(before, data[from..i], block);
        assert data[from..i] + block == data[from..i + BLOCK];
        msg := msg + block;
        i := i + BLOCK;
      }
      LastStartIs(from, |data|, i);
      overrun := false;
    }

    /** SHA1Final: the padding one byte at a time, until 8 bytes are free. */
    method Final() returns (digest: seq<byte>)
      requires Valid()
      modifies this`state, this`count0, this`count1, this`msg, buffer
      ensures digest == Digest(old(msg))
    {
      hide Absorbed, Counts, Sha1Block;
      ghost var m := msg;
      CountBytes(count0, count1, |m|);
      var finalcount := BigEndian(count1, 4) + BigEndian(count0, 4);
      var overrun := Update([0x80]);
      PadZeroBytes(m);
      overrun := Update(finalcount);
      Joined(m, [0x80] + Zeros(PadZeros(|m|)), finalcount);
      PaddedWhole(Sha1Block, INIT, m, finalcount, state, buffer[..]);
      digest := Encode(state);
    }

    /** Zero bytes one at a time, until 8 bytes are missing to the end of a block. */
    method PadZeroBytes(ghost m: seq<byte>)
      requires Valid() && msg == m + [0x80]
      modifies this`state, this`count0, this`count1, this`msg, buffer
      ensures Valid() && msg == m + ([0x80] + Zeros(PadZeros(|m|)))
    {
      hide Absorbed, Counts, Sha1Block;
      ghost var k := 0;
      CountFill(count0, count1, |msg|);
      assert m + [0x80] == m + ([0x80] + Zeros(0));
      while count0 / 8 % 64 != 56
        invariant Valid() && 0 <= k <= PadZeros(|m|) && msg == m + ([0x80] + Zeros(k))
        invariant count0 / 8 % 64 == |msg| % BLOCK
        decreases PadZeros(|m|) - k
      {
        PadNotYet(|m|, k);
        var overrun := Update([0]);
        OneZero(m, k);
        CountFill(count0, count1, |msg|);
        k := k + 1;
      }
      PadReached(|m|, k);
    }
  }

  lemma OneZero(m: seq<byte>, k: nat)
    ensures m + ([0x80] + Zeros(k)) + [0] == m + ([0x80] + Zeros(k + 1))
  {
  }

  lemma PadNotYet(n: nat, k: nat)
    requires k <= PadZeros(n) && (n + 1 + k) % BLOCK != 56
    ensures k < PadZeros(n)
  {
  }

  lemma PadReached(n: nat, k: nat)
    requires k <= PadZeros(n) && (n + 1 + k) % BLOCK == 56
    ensures k == PadZeros(n)
  {
  }

  // ---- any chunks ----

  /** Some piece makes SHA1Update overrun. */
  ghost predicate SomeOverruns(chunks: seq<seq<byte>>) {
    exists i :: 0 <= i < |chunks| && OverrunsAt(chunks, i)
  }

  predicate OverrunsAt(chunks: seq<seq<byte>>, i: nat)
    requires i < |chunks|
  {
    Overruns(|Concat(chunks[..i])| % BLOCK, |chunks[i]|)
  }

  /** However the message is cut up. */
  method InChunks(chunks: seq<seq<byte>>) returns (d: seq<byte>, overrun: bool)
    requires forall s :: s in chunks ==> |s| < M32
    ensures overrun <==> SomeOverruns(chunks)
    ensures !overrun ==> d == Digest(Concat(chunks))
  {
    hide Digest, Absorbed, Counts, Overruns;
    var c := new Sha1Ctx();
    assert chunks[..0] == [];
    for i := 0 to |chunks|
      invariant c.Valid() && c.msg == Concat(chunks[..i]) && fresh(c) && fresh(c.buffer)
      invariant forall k :: 0 <= k < i ==> !OverrunsAt(chunks, k)
    {
      overrun := c.Update(chunks[i]);
      assert overrun == OverrunsAt(chunks, i);
      if overrun { return [], true; }
      assert chunks[..i + 1][..i] == chunks[..i];
    }
    assert chunks[..|chunks|] == chunks;
    d := c.Final();
    overrun := false;
  }
}
