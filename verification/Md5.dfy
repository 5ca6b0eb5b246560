/** The two MD5 implementations (RFC 1321): Common/md5.cpp and the one in
    mongoose.c.  Both are proved to compute the digest of the padded message,
    however it was cut up, in spite of their different round functions and
    their different padding code. */
module Md5 {
  import opened DigestStream
  import opened Lz77
  import opened Bytes

  const INIT: seq<Word> := [0x67452301, 0xefcdab89, 0x98badcfe, 0x10325476]

  /** The additive constants, step by step, round after round. */
  const T: seq<Word> := T1 + T2 + T3 + T4

  const T1: seq<Word> := [
    0xd76aa478, 0xe8c7b756, 0x242070db, 0xc1bdceee, 0xf57c0faf, 0x4787c62a, 0xa8304613, 0xfd469501,
    0x698098d8, 0x8b44f7af, 0xffff5bb1, 0x895cd7be, 0x6b901122, 0xfd987193, 0xa679438e, 0x49b40821]

  const T2: seq<Word> := [
    0xf61e2562, 0xc040b340, 0x265e5a51, 0xe9b6c7aa, 0xd62f105d, 0x02441453, 0xd8a1e681, 0xe7d3fbc8,
    0x21e1cde6, 0xc33707d6, 0xf4d50d87, 0x455a14ed, 0xa9e3e905, 0xfcefa3f8, 0x676f02d9, 0x8d2a4c8a]

  const T3: seq<Word> := [
    0xfffa3942, 0x8771f681, 0x6d9d6122, 0xfde5380c, 0xa4beea44, 0x4bdecfa9, 0xf6bb4b60, 0xbebfbc70,
    0x289b7ec6, 0xeaa127fa, 0xd4ef3085, 0x04881d05, 0xd9d4d039, 0xe6db99e5, 0x1fa27cf8, 0xc4ac5665]

  const T4: seq<Word> := [
    0xf4292244, 0x432aff97, 0xab9423a7, 0xfc93a039, 0x655b59c3, 0x8f0ccc92, 0xffeff47d, 0x85845dd1,
    0x6fa87e4f, 0xfe2ce6e0, 0xa3014314, 0x4e0811a1, 0xf7537e82, 0xbd3af235, 0x2ad7d2bb, 0xeb86d391]

  /** The word of the block that step i uses. */
  function Index(i: nat): nat {
    if i < 16 then i % 16 else if i < 32 then (5 * i + 1) % 16 else if i < 48 then (3 * i + 5) % 16 else 7 * i % 16
  }

  /** S11 to S44. */
  function Rotation(i: nat): nat {
    if i < 16 then (match i % 4 case 0 => 7 case 1 => 12 case 2 => 17 case _ => 22)
    else if i < 32 then (match i % 4 case 0 => 5 case 1 => 9 case 2 => 14 case _ => 20)
    else if i < 48 then (match i % 4 case 0 => 4 case 1 => 11 case 2 => 16 case _ => 23)
    else (match i % 4 case 0 => 6 case 1 => 10 case 2 => 15 case _ => 21)
  }

  lemma IndexFits(i: nat)
    requires i < 64
    ensures Index(i) < 16 && Rotation(i) <= 32
  {
  }

  // ---- the compression function ----

  function F(x: Word, y: Word, z: Word): Word { (x & y) | (!x & z) }

  function G(x: Word, y: Word, z: Word): Word { (x & z) | (y & !z) }

  function H(x: Word, y: Word, z: Word): Word { x ^ y ^ z }

  function I(x: Word, y: Word, z: Word): Word { y ^ (x | !z) }

  function Mix(i: nat, x: Word, y: Word, z: Word): Word {
    if i < 16 then F(x, y, z) else if i < 32 then G(x, y, z) else if i < 48 then H(x, y, z) else I(x, y, z)
  }

  /** Addition modulo 2^32. */
  function Add(x: Word, y: Word): Word { x + y }

  function Sum(a: Word, b: Word, c: Word, d: Word): Word { a + b + c + d }

  datatype Regs = Regs(a: Word, b: Word, c: Word, d: Word)

  /** FF, GG, HH, II: the registers change places from step to step. */
  function Step(i: nat, r: Regs, x: seq<Word>): Regs
    requires i < 64 && |x| == 16
  {
    var w := Sum(r.a, Mix(i, r.b, r.c, r.d), x[Index(i)], T[i]);
    Regs(r.d, Add(RotateLeft(w, Rotation(i)), r.b), r.b, r.c)
  }

  function Steps(n: nat, r: Regs, x: seq<Word>): Regs
    requires n <= 64 && |x| == 16
  {
    if n == 0 then r else Step(n - 1, Steps(n - 1, r, x), x)
  }

  /** One word from four bytes, least significant byte first. */
  function WordOf(b0: byte, b1: byte, b2: byte, b3: byte): Word {
    (b0 as Word) | ((b1 as Word) << 8) | ((b2 as Word) << 16) | ((b3 as Word) << 24)
  }

  function Decode(block: seq<byte>): (x: seq<Word>)
    requires |block| % 4 == 0
    ensures |x| == |block| / 4
  {
    if block == [] then [] else [WordOf(block[0], block[1], block[2], block[3])] + Decode(block[4..])
  }

  /** MD5 of one block; unchanged where the sizes are not those of MD5. */
  function Md5Block(state: seq<Word>, block: seq<byte>): (s: seq<Word>)
    ensures |s| == |state|
  {
    if |state| != 4 || |block| != BLOCK then state
    else
      var r := Steps(64, Regs(state[0], state[1], state[2], state[3]), Decode(block));
      [Add(state[0], r.a), Add(state[1], r.b), Add(state[2], r.c), Add(state[3], r.d)]
  }

  // ---- the digest ----

  /** Words as bytes, least significant byte first. */
  function Encode(words: seq<Word>): (s: seq<byte>)
    ensures |s| == 4 * |words|
  {
    if words == [] then []
    else [ByteOf(words[0], 0), ByteOf(words[0], 1), ByteOf(words[0], 2), ByteOf(words[0], 3)] + Encode(words[1..])
  }

  function LittleEndian(v: nat, k: nat): (s: seq<byte>)
    ensures |s| == k
    decreases k
  {
    if k == 0 then [] else [v % 256] + LittleEndian(v / 256, k - 1)
  }

  function Pad(n: nat): seq<byte> {
    Padding(n, LittleEndian(8 * n % 0x1_0000_0000_0000_0000, 8))
  }

  /** The digest of msg. */
  function Digest(msg: seq<byte>): seq<byte> {
    Encode(Fold(Md5Block, INIT, msg + Pad(|msg|)))
  }

  // ---- Common/md5.cpp ----

  /** One step on registers that change places as the macro arguments do. */
  method Transform(state: seq<Word>, block: seq<byte>) returns (s: seq<Word>)
    requires |state| == 4 && |block| == BLOCK
    ensures s == Md5Block(state, block)
  {
    hide Mix, RotateLeft, Rotation, Index, Add, Sum, SumM, Decode;
    var a, b, c, d := state[0], state[1], state[2], state[3];
    var x := Decode(block);
    for i := 0 to 64
      invariant Regs(a, b, c, d) == Steps(i, Regs(state[0], state[1], state[2], state[3]), x)
    {
      IndexFits(i);
      var w := Sum(a, Mix(i, b, c, d), x[Index(i)], T[i]);
      a, b, c, d := d, Add(RotateLeft(w, Rotation(i)), b), b, c;
    }
    s := [Add(state[0], a), Add(state[1], b), Add(state[2], c), Add(state[3], d)];
  }

  // ---- mongoose.c ----

  function F1(x: Word, y: Word, z: Word): Word { z ^ (x & (y ^ z)) }

  function F2(x: Word, y: Word, z: Word): Word { F1(z, x, y) }

  function F3(x: Word, y: Word, z: Word): Word { x ^ y ^ z }

  function F4(x: Word, y: Word, z: Word): Word { y ^ (x | !z) }

  function MixF(i: nat, x: Word, y: Word, z: Word): Word {
    if i < 16 then F1(x, y, z) else if i < 32 then F2(x, y, z) else if i < 48 then F3(x, y, z) else F4(x, y, z)
  }

  lemma Choose(x: Word, y: Word, z: Word)
    ensures z ^ (x & (y ^ z)) == (x & y) | (!x & z)
    ensures y ^ (z & (x ^ y)) == (x & z) | (y & !z)
  {
  }

  lemma SameF(x: Word, y: Word, z: Word)
    ensures F1(x, y, z) == F(x, y, z)
  {
    Choose(x, y, z);
  }

  lemma SameG(x: Word, y: Word, z: Word)
    ensures F2(x, y, z) == G(x, y, z)
  {
    Choose(x, y, z);
  }

  /** The round functions of the two implementations are the same functions. */
  lemma SameMix(i: nat, x: Word, y: Word, z: Word)
    ensures MixF(i, x, y, z) == Mix(i, x, y, z)
  {
    hide F1, F2, F, G;
    SameF(x, y, z);
    SameG(x, y, z);
  }

  /** The sum of a step, with the table constant already added to the data. */
  function SumM(a: Word, b: Word, c: Word, d: Word): Word { a + (b + (c + d)) }

  lemma SameSum(a: Word, b: Word, c: Word, d: Word)
    ensures SumM(a, b, c, d) == Sum(a, b, c, d)
  {
  }

  /** One step of the other implementation: sum, rotation, sum. */
  method TransformM(state: seq<Word>, block: seq<byte>) returns (s: seq<Word>)
    requires |state| == 4 && |block| == BLOCK
    ensures s == Md5Block(state, block)
  {
    hide Mix, MixF, RotateLeft, Rotation, Index, Add, Sum, SumM, Decode;
    var a, b, c, d := state[0], state[1], state[2], state[3];
    var x := Decode(block);
    for i := 0 to 64
      invariant Regs(a, b, c, d) == Steps(i, Regs(state[0], state[1], state[2], state[3]), x)
    {
      SameMix(i, b, c, d);
      IndexFits(i);
      SameSum(a, Mix(i, b, c, d), x[Index(i)], T[i]);
      var w := SumM(a, MixF(i, b, c, d), x[Index(i)], T[i]);
      w := RotateLeft(w, Rotation(i));
      w := Add(w, b);
      a, b, c, d := d, w, b, c;
    }
    s := [Add(state[0], a), Add(state[1], b), Add(state[2], c), Add(state[3], d)];
  }

  // ---- class MD5 ----

  /** The loop index of MD5::update overflows for n bytes when `index` are in the
      buffer: the last whole block begins within 64 of 2^32. */
  predicate Overruns(index: nat, n: nat)
    requires index < BLOCK
  {
    n >= BLOCK - index && LastStart(BLOCK - index, n) + BLOCK >= M32
  }

  class MD5 {
    var state: seq<Word>
    var count0: U32
    var count1: U32
    const buffer: array<byte>
    var finalized: bool
    var digest: seq<byte>
    ghost var msg: seq<byte>

    ghost predicate Valid()
      reads this, buffer
    {
      && |state| == 4 && buffer.Length == BLOCK
      && (finalized ==> digest == Digest(msg))
      && (!finalized ==> Counts(count0, count1, |msg|) && Absorbed(Md5Block, INIT, msg, state, buffer[..]))
    }

    /** The context of the empty message. */
    constructor ()
      ensures Valid() && !finalized && msg == [] && fresh(buffer)
    {
      finalized := false;
      count0, count1 := 0, 0;
      state := INIT;
      buffer := new byte[BLOCK];
      digest := [];
      msg := [];
      new;
      assert Fold(Md5Block, INIT, []) == INIT;
    }

    /** More of the message, in one piece.  When the last whole block ends within 64
        bytes of 2^32 the loop index overflows, the loop does not stop, and the program
        reads behind its input; that is reported instead of done. */
    method Update(input: seq<byte>) returns (overrun: bool)
      requires Valid() && !finalized && |input| < M32
      modifies this`state, this`count0, this`count1, this`msg, buffer
      ensures overrun <==> Overruns(old(|msg|) % BLOCK, |input|)
      ensures !overrun ==> Valid() && !finalized && msg == old(msg) + input
    {
      hide Absorbed, Counts, Md5Block, INIT;
      CountFill(count0, count1, |msg|);
      var index := count0 / 8 % 64;
      AddCount(|input|, |msg|);
      var firstPart := 64 - index;
      var i := 0;
      overrun := false;
      if |input| >= firstPart {
        i, overrun := FillAndBlocks(input, index);
        if overrun { return; }
        index := 0;
      }
      assert msg == old(msg) + input[..i];
      Joined(old(msg), input[..i], input[i..]);
      assert input[..i] + input[i..] == input;
      Keep(input[i..], index);
    }

    /** Completes the block in the buffer and goes on with whole blocks. */
    method FillAndBlocks(input: seq<byte>, index: nat) returns (i: nat, overrun: bool)
      requires |state| == 4 && buffer.Length == BLOCK && index == |msg| % BLOCK && 64 - index <= |input| < M32
      requires Absorbed(Md5Block, INIT, msg, state, buffer[..])
      modifies this`state, this`msg, buffer
      ensures overrun <==> Overruns(index, |input|)
      ensures i <= |input| < i + BLOCK && |state| == 4 && |msg| % BLOCK == 0
      ensures msg == old(msg) + input[..i] && Absorbed(Md5Block, INIT, msg, state, buffer[..])
    {
      hide Absorbed, Md5Block, INIT;
      var firstPart := 64 - index;
      Fill(input[..firstPart], index);
      i, overrun := Blocks(input, firstPart);
      Joined(old(msg), input[..firstPart], input[firstPart..i]);
      assert input[..firstPart] + input[firstPart..i] == input[..i];
    }

    /** Pads the message and gives the digest. */
    method Finalize()
      requires Valid()
      modifies this`state, this`count0, this`count1, this`finalized, this`digest, this`msg, buffer
      ensures Valid() && finalized && msg == old(msg) && digest == Digest(msg)
    {
      hide Absorbed, Counts, Md5Block;
      if finalized { return; }
      ghost var m := msg;
      PadOut();
      digest := Encode(state);
      for k := 0 to BLOCK
        invariant state == Fold(Md5Block, INIT, m + Pad(|m|)) && digest == Encode(state) && |state| == 4
      {
        buffer[k] := 0;
      }
      count0, count1 := 0, 0;
      finalized := true;
      msg := m;
    }

    /** The padding and the length, through update. */
    method PadOut()
      requires Valid() && !finalized
      modifies this`state, this`count0, this`count1, this`msg, buffer
      ensures buffer.Length == BLOCK && |state| == 4
      ensures state == Fold(Md5Block, INIT, old(msg) + Pad(|old(msg)|))
    {
      hide Absorbed, Counts, Md5Block;
      ghost var m := msg;
      CountBytes(count0, count1, |m|);
      var bits := LittleEndian(count0, 4) + LittleEndian(count1, 4);
      CountFill(count0, count1, |m|);
      var index := count0 / 8 % 64;
      var padLen := if index < 56 then 56 - index else 120 - index;
      var overrun := Update([0x80] + Zeros(padLen - 1));
      overrun := Update(bits);
      Joined(m, [0x80] + Zeros(padLen - 1), bits);
      PaddedWhole(Md5Block, INIT, m, bits, state, buffer[..]);
    }

    /** Counts the bits of `length` more bytes. */
    method AddCount(length: U32, ghost n: nat)
      requires Counts(count0, count1, n)
      modifies this`count0, this`count1
      ensures Counts(count0, count1, n + length)
    {
      hide Counts, Plus, Times8;
      CountMore(count0, count1, n, length, if Plus(count0, Times8(length)) < count0 then 1 else 0);
      SameCount(count1);
      count0 := Plus(count0, Times8(length));
      if count0 < Times8(length) {
        count1 := Plus(count1, 1);
      }
      count1 := Plus(count1, length / 0x2000_0000);
    }

    /** Whole blocks straight from the input, as many as there are. */
    method Blocks(input: seq<byte>, from: nat) returns (i: nat, overrun: bool)
      requires from <= |input| < M32 && buffer.Length == BLOCK && |state| == 4 && |msg| % BLOCK == 0
      requires Absorbed(Md5Block, INIT, msg, state, buffer[..])
      modifies this`state, this`msg
      ensures i == LastStart(from, |input|) && (overrun <==> i + BLOCK >= M32) && |state| == 4 && |msg| % BLOCK == 0
      ensures msg == old(msg) + input[from..i] && Absorbed(Md5Block, INIT, msg, state, buffer[..])
    {
      hide Absorbed, Md5Block;
      i := from;
      ghost var before := msg;
      while Plus(i, BLOCK) <= |input|
        invariant from <= i <= |input| && (i - from) % BLOCK == 0 && |msg| % BLOCK == 0 && |state| == 4
        invariant msg == before + input[from..i] && Absorbed(Md5Block, INIT, msg, state, buffer[..])
        decreases |input| - i
      {
        if i + BLOCK > |input| {
          LastStartIs(from, |input|, i);
          return i, true;
        }
        ghost var block := input[i..i + BLOCK];
        AbsorbBlock(Md5Block, INIT, msg, state, buffer[..], block);
        Md5BlockSize(state, block);
        state := Transform(state, input[i..i + BLOCK]);
        Joined(before, input[from..i], block);
        assert input[from..i] + block == input[from..i + BLOCK];
        msg := msg + block;
        i := i + BLOCK;
      }
      LastStartIs(from, |input|, i);
      overrun := false;
    }

    /** Fills the buffer and transforms it. */
    method Fill(data: seq<byte>, n: nat)
      requires buffer.Length == BLOCK && |state| == 4 && n == |msg| % BLOCK && n + |data| == BLOCK
      requires Absorbed(Md5Block, INIT, msg, state, buffer[..])
      modifies this`state, this`msg, buffer
      ensures |state| == 4 && msg == old(msg) + data && |msg| % BLOCK == 0
      ensures Absorbed(Md5Block, INIT, msg, state, buffer[..])
    {
      hide Absorbed, Md5Block;
      ghost var was := buffer[..];
      CopyIn(data, n);
      assert buffer[..] == was[..n] + data;
      AbsorbFill(Md5Block, INIT, msg, state, was, data, buffer[..]);
      Md5BlockSize(state, buffer[..]);
      state := Transform(state, buffer[..]);
      msg := msg + data;
    }

    /** Keeps the rest of the input in the buffer. */
    method Keep(data: seq<byte>, n: nat)
      requires buffer.Length == BLOCK && n == |msg| % BLOCK && n + |data| < BLOCK
      requires Absorbed(Md5Block, INIT, msg, state, buffer[..])
      modifies this`msg, buffer
      ensures msg == old(msg) + data && Absorbed(Md5Block, INIT, msg, state, buffer[..])
    {
      hide Absorbed, Md5Block;
      ghost var was := buffer[..];
      CopyIn(data, n);
      assert buffer[..][..n + |data|] == was[..n] + data;
      AbsorbShort(Md5Block, INIT, msg, state, was, data, buffer[..]);
      msg := msg + data;
    }

    method CopyIn(data: seq<byte>, at: nat)
      requires at + |data| <= buffer.Length
      modifies buffer
      ensures buffer[..at] == old(buffer[..at]) && buffer[at..at + |data|] == data
    {
      forall k | 0 <= k < |data| { buffer[at + k] := data[k]; }
    }
  }

  lemma LittleRest(lo: nat, rest: nat, n: nat)
    requires n >= 1
    ensures LittleEndian(lo + 256 * rest, n) == [lo % 256] + LittleEndian(lo / 256 + rest, n - 1)
  {
    LowDigit(lo, rest);
  }

  lemma LittleStep(v: nat, k: nat)
    requires k >= 1
    ensures LittleEndian(v, k) == [v % 256] + LittleEndian(v / 256, k - 1)
  {
  }

  lemma LowDigit(lo: nat, rest: nat)
    ensures (lo + 256 * rest) % 256 == lo % 256 && (lo + 256 * rest) / 256 == lo / 256 + rest
  {
  }

  /** encode(bits, count, 8): the two words of the count are the eight bytes of the length. */
  lemma CountBytes(lo: U32, hi: U32, n: nat)
    requires Counts(lo, hi, n)
    ensures LittleEndian(lo, 4) + LittleEndian(hi, 4) == LittleEndian(8 * n % 0x1_0000_0000_0000_0000, 8)
  {
    hide LittleEndian;
    var l1, l2, l3 := lo / 256, lo / 256 / 256, lo / 256 / 256 / 256;
    TopByte(lo);
    FourBytes(lo);
    FourMore(lo, l1, l2, l3, hi);
    FourAndFour(lo % 256, l1 % 256, l2 % 256, l3 % 256, LittleEndian(hi, 4));
  }

  lemma TopByte(v: U32)
    ensures v / 256 / 256 / 256 / 256 == 0
  {
  }

  lemma FourMore(lo: nat, l1: nat, l2: nat, l3: nat, hi: nat)
    requires l1 == lo / 256 && l2 == l1 / 256 && l3 == l2 / 256 && l3 / 256 == 0
    ensures LittleEndian(lo + 0x1_0000_0000 * hi, 8)
         == [lo % 256] + ([l1 % 256] + ([l2 % 256] + ([l3 % 256] + LittleEndian(hi, 4))))
  {
    hide LittleEndian;
    LittleRest(lo, 0x100_0000 * hi, 8);
    LittleRest(l1, 0x1_0000 * hi, 7);
    LittleRest(l2, 0x100 * hi, 6);
    LittleRest(l3, hi, 5);
  }

  lemma FourAndFour(a: byte, b: byte, c: byte, d: byte, x: seq<byte>)
    ensures ([a] + ([b] + ([c] + ([d] + [])))) + x == [a] + ([b] + ([c] + ([d] + x)))
  {
  }

  lemma FourBytes(v: nat)
    ensures LittleEndian(v, 4) == [v % 256] + ([v / 256 % 256] + ([v / 256 / 256 % 256] + ([v / 256 / 256 / 256 % 256] + [])))
  {
    LittleStep(v, 4);
    LittleStep(v / 256, 3);
    LittleStep(v / 256 / 256, 2);
    LittleStep(v / 256 / 256 / 256, 1);
  }

  lemma Md5BlockSize(state: seq<Word>, block: seq<byte>)
    ensures |Md5Block(state, block)| == |state|
  {
  }

  // ---- MD5_CTX of mongoose.c, on a little-endian machine ----

  class Md5Ctx {
    var buf: seq<Word>
    var bits0: U32
    var bits1: U32
    const input: array<byte>    // in
    ghost var msg: seq<byte>

    ghost predicate Valid()
      reads this, input
    {
      && |buf| == 4 && input.Length == BLOCK
      && Counts(bits0, bits1, |msg|) && Absorbed(Md5Block, INIT, msg, buf, input[..])
    }

    /** MD5Init */
    constructor ()
      ensures Valid() && msg == [] && fresh(input)
    {
      buf := INIT;
      bits0, bits1 := 0, 0;
      input := new byte[BLOCK];
      msg := [];
      new;
      assert Fold(Md5Block, INIT, []) == INIT;
    }

    /** MD5Update */
    method Update(data: seq<byte>)
      requires Valid() && |data| < 0x1_0000_0000
      modifies this`buf, this`bits0, this`bits1, this`msg, input
      ensures Valid() && msg == old(msg) + data
    {
      hide Absorbed, Counts, Md5Block;
      CountFill(bits0, bits1, |msg|);
      var t := bits0 / 8 % 64;
      AddCount(|data|, |msg|);
      var i := 0;
      if t != 0 {
        if |data| < 64 - t {
          Keep(data, t);
          return;
        }
        i := 64 - t;
        Fill(data[..i], t);
      }
      ghost var first := data[..i];
      assert msg == old(msg) + first;
      var j := Blocks(data, i);
      Keep(data[j..], 0);
      assert first + data[i..j] + data[j..] == data;
      Joined(old(msg), first, data[i..j]);
      Joined(old(msg), first + data[i..j], data[j..]);
    }

    /** Counts the bits of `len` more bytes. */
    method AddCount(length: U32, ghost n: nat)
      requires Counts(bits0, bits1, n)
      modifies this`bits0, this`bits1
      ensures Counts(bits0, bits1, n + length)
    {
      hide Counts, Plus, Times8;
      CountMore(bits0, bits1, n, length, if Plus(bits0, Times8(length)) < bits0 then 1 else 0);
      SameCount(bits1);
      var t := bits0;
      bits0 := Plus(t, Times8(length));
      if bits0 < t {
        bits1 := Plus(bits1, 1);
      }
      bits1 := Plus(bits1, length / 0x2000_0000);
    }

    /** memcpy into in, at `at` */
    method CopyIn(data: seq<byte>, at: nat)
      requires at + |data| <= input.Length
      modifies input
      ensures input[..at] == old(input[..at]) && input[at..at + |data|] == data
    {
      forall k | 0 <= k < |data| { input[at + k] := data[k]; }
    }

    /** Completes the block and transforms it. */
    method Fill(data: seq<byte>, at: nat)
      requires input.Length == BLOCK && |buf| == 4 && at == |msg| % BLOCK && at + |data| == BLOCK
      requires Absorbed(Md5Block, INIT, msg, buf, input[..])
      modifies this`buf, this`msg, input
      ensures |buf| == 4 && msg == old(msg) + data && |msg| % BLOCK == 0
      ensures Absorbed(Md5Block, INIT, msg, buf, input[..])
    {
      hide Absorbed, Md5Block;
      ghost var was := input[..];
      CopyIn(data, at);
      assert input[..] == was[..at] + data;
      AbsorbFill(Md5Block, INIT, msg, buf, was, data, input[..]);
      Md5BlockSize(buf, input[..]);
      buf := TransformM(buf, input[..]);
      msg := msg + data;
    }

    method Keep(data: seq<byte>, at: nat)
      requires input.Length == BLOCK && at == |msg| % BLOCK && at + |data| < BLOCK
      requires Absorbed(Md5Block, INIT, msg, buf, input[..])
      modifies this`msg, input
      ensures msg == old(msg) + data && Absorbed(Md5Block, INIT, msg, buf, input[..])
    {
      hide Absorbed, Md5Block;
      ghost var was := input[..];
      CopyIn(data, at);
      assert input[..][..at + |data|] == was[..at] + data;
      AbsorbShort(Md5Block, INIT, msg, buf, was, data, input[..]);
      msg := msg + data;
    }

    /** Whole blocks, each copied through the context's buffer. */
    method Blocks(data: seq<byte>, from: nat) returns (i: nat)
      requires from <= |data| && input.Length == BLOCK && |buf| == 4 && |msg| % BLOCK == 0
      requires Absorbed(Md5Block, INIT, msg, buf, input[..])
      modifies this`buf, this`msg, input
      ensures from <= i <= |data| < i + BLOCK && |buf| == 4 && |msg| % BLOCK == 0
      ensures msg == old(msg) + data[from..i] && Absorbed(Md5Block, INIT, msg, buf, input[..])
    {
      hide Absorbed, Md5Block;
      i := from;
      ghost var before := msg;
      while |data| - i >= BLOCK
        invariant from <= i <= |data| && |msg| % BLOCK == 0 && |buf| == 4
        invariant msg == before + data[from..i] && Absorbed(Md5Block, INIT, msg, buf, input[..])
        decreases |data| - i
      {
        Fill(data[i..i + BLOCK], 0);
        Joined(before, data[from..i], data[i..i + BLOCK]);
        assert data[from..i] + data[i..i + BLOCK] == data[from..i + BLOCK];
        i := i + BLOCK;
      }
    }

    /** MD5Final: pads in place, in one block or two. */
    method Final() returns (digest: seq<byte>)
      requires Valid()
      modifies this`buf, this`msg, input
      ensures digest == Digest(old(msg))
    {
      hide Absorbed, Counts, Md5Block;
      ghost var m := msg;
      CountBytes(bits0, bits1, |m|);
      CountFill(bits0, bits1, |m|);
      var length := LittleEndian(bits0, 4) + LittleEndian(bits1, 4);
      var at := bits0 / 8 % 64;
      var count := 63 - at;
      PadParts(|m|, length, count);
      if count < 8 {
        Fill([0x80] + Zeros(count), at);
        Fill(Zeros(56) + length, 0);
        Joined(m, [0x80] + Zeros(count), Zeros(56) + length);
      } else {
        Fill([0x80] + Zeros(count - 8) + length, at);
      }
      PaddedWhole(Md5Block, INIT, m, length, buf, input[..]);
      digest := Encode(buf);
    }
  }

  /** The padding as it falls on the last block or the last two. */
  lemma PadParts(n: nat, length: seq<byte>, count: nat)
    requires |length| == 8 && count == 63 - n % BLOCK
    ensures Padding(n, length) == if count < 8 then ([0x80] + Zeros(count)) + (Zeros(56) + length)
                                  else [0x80] + Zeros(count - 8) + length
  {
    if count < 8 {
      assert Zeros(PadZeros(n)) == Zeros(count) + Zeros(56);
    } else {
      assert PadZeros(n) == count - 8;
    }
  }

  /** Some piece makes MD5::update overrun. */
  ghost predicate SomeOverruns(chunks: seq<seq<byte>>) {
    exists i :: 0 <= i < |chunks| && OverrunsAt(chunks, i)
  }

  predicate OverrunsAt(chunks: seq<seq<byte>>, i: nat)
    requires i < |chunks|
  {
    Overruns(|Concat(chunks[..i])| % BLOCK, |chunks[i]|)
  }

  method ByClass(chunks: seq<seq<byte>>) returns (d: seq<byte>, overrun: bool)
    requires forall s :: s in chunks ==> |s| < M32
    ensures overrun <==> SomeOverruns(chunks)
    ensures !overrun ==> d == Digest(Concat(chunks))
  {
    hide Digest, Absorbed, Counts, Overruns, MD5.Valid;
    var c := new MD5();
    assert chunks[..0] == [];
    for i := 0 to |chunks|
      invariant c.Valid() && !c.finalized && c.msg == Concat(chunks[..i]) && fresh(c) && fresh(c.buffer)
      invariant forall k :: 0 <= k < i ==> !OverrunsAt(chunks, k)
    {
      overrun := c.Update(chunks[i]);
      assert overrun == OverrunsAt(chunks, i);
      if overrun { return [], true; }
      assert chunks[..i + 1][..i] == chunks[..i];
    }
    assert chunks[..|chunks|] == chunks;
    c.Finalize();
    d, overrun := c.digest, false;
  }

  method ByContext(chunks: seq<seq<byte>>) returns (d: seq<byte>)
    requires forall s :: s in chunks ==> |s| < 0x1_0000_0000
    ensures d == Digest(Concat(chunks))
  {
    hide Digest, Absorbed, Counts;
    var c := new Md5Ctx();
    assert chunks[..0] == [];
    for i := 0 to |chunks|
      invariant c.Valid() && c.msg == Concat(chunks[..i]) && fresh(c) && fresh(c.input)
    {
      c.Update(chunks[i]);
      assert chunks[..i + 1][..i] == chunks[..i];
    }
    assert chunks[..|chunks|] == chunks;
    d := c.Final();
  }

  /** One message, cut up in two ways, through the two implementations: the same
      digest, unless a piece makes the first one overrun. */
  method BothAgree(a: seq<seq<byte>>, b: seq<seq<byte>>) returns (d1: seq<byte>, d2: seq<byte>, overrun: bool)
    requires Concat(a) == Concat(b)
    requires forall s :: s in a || s in b ==> |s| < M32
    ensures overrun <==> SomeOverruns(a)
    ensures !overrun ==> d1 == d2 == Digest(Concat(a))
  {
    hide Digest, SomeOverruns;
    d1, overrun := ByClass(a);
    d2 := ByContext(b);
  }
}
