/** crc32_combine_: the zero-bytes operator as a power of a 32 x 32 matrix over GF(2). */
module CrcCombine {
  import opened Bytes
  import opened Crc32

  const GF2_DIM := 32

  lemma SmallFits(v: Word)
    requires v < 256
    ensures Fits(v, 8)
  {
    assert v == (v as bv8) as Word;
    ByteFits(v as bv8);
  }

  lemma FitsUp(v: Word, k: nat)
    requires Fits(v >> 8, k)
    ensures Fits(v, k + 8)
  {
    Halves(v);
    FitsUp8(v, v >> 1, v >> 2, v >> 3, v >> 4, v >> 5, v >> 6, v >> 7, v >> 8, k);
    hide Fits;
  }

  lemma Halves(c: Word)
    ensures Half(c) == c >> 1 && Half(c >> 1) == c >> 2 && Half(c >> 2) == c >> 3 && Half(c >> 3) == c >> 4
    ensures Half(c >> 4) == c >> 5 && Half(c >> 5) == c >> 6 && Half(c >> 6) == c >> 7 && Half(c >> 7) == c >> 8
  {
  }

  lemma FitsUp8(v: Word, v1: Word, v2: Word, v3: Word, v4: Word, v5: Word, v6: Word, v7: Word, v8: Word, k: nat)
    requires Half(v) == v1 && Half(v1) == v2 && Half(v2) == v3 && Half(v3) == v4
    requires Half(v4) == v5 && Half(v5) == v6 && Half(v6) == v7 && Half(v7) == v8 && Fits(v8, k)
    ensures Fits(v, k + 8)
  {
    hide Half;
    assert Fits(v7, k + 1);
    assert Fits(v5, k + 3);
    assert Fits(v3, k + 5);
    assert Fits(v1, k + 7);
  }

  lemma AllFit(v: Word)
    ensures Fits(v, 32)
  {
    TopBytes(v);
    hide Fits;
    SmallFits(v >> 8 >> 8 >> 8);
    FitsUp(v >> 8 >> 8, 8);
    FitsUp(v >> 8, 16);
    FitsUp(v, 24);
  }

  lemma TopBytes(v: Word)
    ensures v >> 8 >> 8 >> 8 < 256
  {
  }

  // ---- the matrix as a linear map ----

  /** Row i of the matrix for bit i of the vector; from row i on. */
  function Times(m: seq<Word>, v: Word, i: nat): Word
    requires |m| == GF2_DIM && i <= GF2_DIM
    decreases GF2_DIM - i
  {
    if i == GF2_DIM then 0 else Xor(if Low(v) then m[i] else 0, Times(m, Half(v), i + 1))
  }

  lemma {:induction false} TimesZero(m: seq<Word>, i: nat)
    requires |m| == GF2_DIM && i <= GF2_DIM
    ensures Times(m, 0, i) == 0
    decreases GF2_DIM - i
  {
    if i < GF2_DIM {
      TimesZero(m, i + 1);
      ZeroBits();
      XorNone(0);
      hide Xor, Low, Half;
    }
  }

  lemma ZeroBits()
    ensures !Low(0) && Half(0) == 0
  {
  }

  lemma XorPairs(a: Word, b: Word, c: Word, d: Word)
    ensures Xor(Xor(a, b), Xor(c, d)) == Xor(Xor(a, c), Xor(b, d))
  {
    hide Xor;
    XorAssoc(a, b, Xor(c, d));
    XorAssoc(b, c, d);
    XorComm(b, c);
    XorAssoc(c, b, d);
    XorAssoc(a, c, Xor(b, d));
  }

  /** gf2_matrix_times is linear in the vector. */
  lemma {:induction false} TimesXor(m: seq<Word>, a: Word, b: Word, i: nat)
    requires |m| == GF2_DIM && i <= GF2_DIM
    ensures Times(m, Xor(a, b), i) == Xor(Times(m, a, i), Times(m, b, i))
    decreases GF2_DIM - i
  {
    XorNone(0);
    if i < GF2_DIM {
      hide Xor, Low, Half;
      XorHalf(a, b);
      TimesXor(m, Half(a), Half(b), i + 1);
      var x, y := if Low(a) then m[i] else 0, if Low(b) then m[i] else 0;
      XorNone(m[i]);
      XorPairs(x, Times(m, Half(a), i + 1), y, Times(m, Half(b), i + 1));
    }
  }

  ghost predicate IsSquare(s: seq<Word>, m: seq<Word>) {
    |s| == |m| == GF2_DIM && forall n :: 0 <= n < GF2_DIM ==> s[n] == Times(m, m[n], 0)
  }

  /** gf2_matrix_square is composition, for every matrix. */
  lemma {:induction false} SquareTwice(s: seq<Word>, m: seq<Word>, v: Word, i: nat)
    requires IsSquare(s, m) && i <= GF2_DIM
    ensures Times(s, v, i) == Times(m, Times(m, v, i), 0)
    decreases GF2_DIM - i
  {
    TimesZero(m, 0);
    if i < GF2_DIM {
      hide Xor, Low, Half;
      SquareTwice(s, m, Half(v), i + 1);
      var x := if Low(v) then m[i] else 0;
      TimesXor(m, x, Times(m, Half(v), i + 1), 0);
    }
  }

  /** A matrix over GF(2) applied to a vector. */
  method MatrixTimes(mat: array<Word>, vec: Word) returns (sum: Word)
    requires mat.Length == GF2_DIM
    ensures sum == Times(mat[..], vec, 0)
  {
    sum := 0;
    ghost var m := mat[..];
    var v, i := vec, 0;
    AllFit(vec);
    XorNone(Times(m, vec, 0));
    while v != 0
      invariant 0 <= i <= GF2_DIM && Fits(v, GF2_DIM - i) && Xor(sum, Times(m, v, i)) == Times(m, vec, 0)
      decreases GF2_DIM - i
    {
      hide Xor, Half, Low;
      XorNone(sum);
      XorAssoc(sum, m[i], Times(m, Half(v), i + 1));
      XorNone(Times(m, Half(v), i + 1));
      if Low(v) {
        sum := Xor(sum, mat[i]);
      }
      v := Half(v);
      i := i + 1;
    }
    TimesZero(m, i);
    XorNone(sum);
  }

  /** The composition of a matrix with itself. */
  method MatrixSquare(square: array<Word>, mat: array<Word>)
    requires square.Length == mat.Length == GF2_DIM && square != mat
    modifies square
    ensures IsSquare(square[..], mat[..])
  {
    for n := 0 to GF2_DIM
      invariant forall k :: 0 <= k < n ==> square[k] == Times(mat[..], mat[k], 0)
    {
      var row := MatrixTimes(mat, mat[n]);
      square[n] := row;
    }
  }

  // ---- the operator for n zero bits ----

  function Up(v: Word): Word { v << 1 }

  function Shl(v: Word, i: nat): Word {
    if i == 0 then v else Up(Shl(v, i - 1))
  }

  /** Row i is what n zero bits make of the register with only bit i set. */
  ghost predicate IsZeros(m: seq<Word>, n: nat) {
    |m| == GF2_DIM && forall i :: 0 <= i < GF2_DIM ==> m[i] == Zeros(Shl(1, i), n)
  }

  lemma UpXor(a: Word, b: Word)
    ensures Up(Xor(a, b)) == Xor(Up(a), Up(b))
  {
  }

  lemma {:induction false} ShlXor(a: Word, b: Word, i: nat)
    ensures Shl(Xor(a, b), i) == Xor(Shl(a, i), Shl(b, i))
  {
    if i != 0 {
      hide Xor, Up;
      ShlXor(a, b, i - 1);
      UpXor(Shl(a, i - 1), Shl(b, i - 1));
    }
  }

  lemma {:induction false} ShlUp(v: Word, i: nat)
    ensures Shl(Up(v), i) == Shl(v, i + 1)
  {
    if i != 0 {
      hide Up;
      ShlUp(v, i - 1);
    }
  }

  lemma {:induction false} ShlZero(i: nat)
    ensures Shl(0, i) == 0
  {
    if i != 0 { ShlZero(i - 1); }
  }

  lemma {:induction false} ZerosZero(n: nat)
    ensures Zeros(0, n) == 0
    decreases n
  {
    if n != 0 {
      ShiftOfZero();
      hide Shift;
      ZerosZero(n - 1);
    }
  }

  lemma ShiftOfZero()
    ensures Shift(0) == 0
  {
  }

  lemma LowAndRest(v: Word)
    ensures v == Xor(if Low(v) then 1 else 0, Up(Half(v)))
  {
  }

  /** The matrix of the operator computes the operator. */
  lemma {:induction false} TimesIsZeros(m: seq<Word>, n: nat, v: Word, i: nat)
    requires IsZeros(m, n) && i <= GF2_DIM && Fits(v, GF2_DIM - i)
    ensures Times(m, v, i) == Zeros(Shl(v, i), n)
    decreases GF2_DIM - i
  {
    hide Xor, Half, Low, Up, Zeros;
    ZerosZero(n);
    if i == GF2_DIM {
      ShlZero(i);
    } else {
      TimesIsZeros(m, n, Half(v), i + 1);
      LowAndRest(v);
      var x: Word := if Low(v) then 1 else 0;
      ShlXor(x, Up(Half(v)), i);
      ShlUp(Half(v), i);
      ShlZero(i);
      ZerosXor(Shl(x, i), Shl(Half(v), i + 1), n);
    }
  }

  lemma WholeTimes(m: seq<Word>, n: nat, v: Word)
    requires IsZeros(m, n)
    ensures Times(m, v, 0) == Zeros(v, n)
  {
    hide Zeros, Times, Fits;
    AllFit(v);
    TimesIsZeros(m, n, v, 0);
  }

  /** Squaring the operator for n zero bits gives that for 2n. */
  lemma SquareDoubles(s: seq<Word>, m: seq<Word>, n: nat)
    requires IsSquare(s, m) && IsZeros(m, n)
    ensures IsZeros(s, 2 * n)
  {
    hide Times, Zeros;
    forall i | 0 <= i < GF2_DIM ensures s[i] == Zeros(Shl(1, i), 2 * n) {
      WholeTimes(m, n, m[i]);
      ZerosAdd(Shl(1, i), n, n);
    }
  }

  /** The rows for one zero bit. */
  method OneZeroBit(odd: array<Word>)
    requires odd.Length == GF2_DIM
    modifies odd
    ensures IsZeros(odd[..], 1)
  {
    hide Up, Zeros;
    odd[0] := 0xedb88320;
    var row: Word := 1;
    FirstRowOfOne();
    for n := 1 to GF2_DIM
      invariant row == Shl(1, n - 1)
      invariant forall i :: 0 <= i < n ==> odd[i] == Zeros(Shl(1, i), 1)
    {
      RowOfOne(n);
      odd[n] := row;
      row := Up(row);
    }
  }

  lemma FirstRowOfOne()
    ensures Zeros(Shl(1, 0), 1) == 0xedb88320
  {
    assert Zeros(Shift(1), 0) == Shift(1);
  }

  lemma {:induction false} RowOfOne(n: nat)
    requires 1 <= n < GF2_DIM
    ensures Zeros(Shl(1, n), 1) == Shl(1, n - 1)
  {
    ShlSmall(n - 1);
    UpBack(Shl(1, n - 1));
    hide Shl, Up;
    assert Zeros(Shl(1, n - 1), 0) == Shl(1, n - 1);
    assert Shl(1, n) == Up(Shl(1, n - 1)) by { ShlStep(n); }
  }

  lemma ShlStep(n: nat)
    requires n >= 1
    ensures Shl(1, n) == Up(Shl(1, n - 1))
  {
  }

  lemma UpBack(v: Word)
    requires v < 0x8000_0000
    ensures !Low(Up(v)) && Half(Up(v)) == v
  {
  }

  lemma ShlFour(b: nat, w: Word)
    requires Shl(1, b) == w
    ensures Shl(1, b + 1) == w << 1 && Shl(1, b + 2) == w << 2 && Shl(1, b + 3) == w << 3 && Shl(1, b + 4) == w << 4
  {
    assert Shl(1, b + 1) == w << 1;
    assert Shl(1, b + 2) == w << 1 << 1;
    assert Shl(1, b + 3) == w << 1 << 1 << 1;
  }

  /** The unit vectors but the last have their top bit clear. */
  lemma ShlSmall(n: nat)
    requires n < 31
    ensures Shl(1, n) < 0x8000_0000
  {
    assert Shl(1, 0) == 1;
    hide Shl;
    ShlFour(0, 1);
    ShlFour(4, 0x10);
    ShlFour(8, 0x100);
    ShlFour(12, 0x1000);
    ShlFour(16, 0x1_0000);
    ShlFour(20, 0x10_0000);
    ShlFour(24, 0x100_0000);
    ShlFour(28, 0x1000_0000);
  }

  // ---- combination ----

  /** crc1 run on through len2 zero bytes, plus crc2. */
  function Combined(crc1: Word, crc2: Word, len2: int): Word {
    if len2 <= 0 then crc1 else Xor(Zeros(crc1, 8 * len2), crc2)
  }

  /** The checksum of two concatenated inputs from those of the parts. */
  method Combine(crc1: Word, crc2: Word, len2: int) returns (r: Word)
    ensures r == Combined(crc1, crc2, len2)
  {
    if len2 <= 0 { return crc1; }
    var even, odd := new Word[GF2_DIM], new Word[GF2_DIM];
    hide Times, Zeros, Shl, Xor, IsZeros, IsSquare;
    OneZeroBit(odd);
    MatrixSquare(even, odd);
    SquareDoubles(even[..], odd[..], 1);
    MatrixSquare(odd, even);
    SquareDoubles(odd[..], even[..], 2);
    r := ApplyZeros(even, odd, crc1, len2);
    r := Xor(r, crc2);
  }

  /** The loop over the bits of len2: the operators are squared alternately in even and odd. */
  method ApplyZeros(even: array<Word>, odd: array<Word>, crc1: Word, len2: int) returns (crc: Word)
    requires even.Length == odd.Length == GF2_DIM && even != odd && len2 > 0 && IsZeros(odd[..], 4)
    modifies even, odd
    ensures crc == Zeros(crc1, 8 * len2)
  {
    hide Times, Zeros, Shl, IsZeros, IsSquare;
    crc := crc1;
    var len := len2;
    ghost var k := 4;
    while true
      invariant len > 0 && k >= 4 && IsZeros(odd[..], k)
      invariant Zeros(crc, 2 * k * len) == Zeros(crc1, 8 * len2)
      decreases len
    {
      MatrixSquare(even, odd);
      SquareDoubles(even[..], odd[..], k);
      crc := ApplyBit(even, crc, len, 2 * k);
      len := len / 2;
      if len == 0 { break; }
      MatrixSquare(odd, even);
      SquareDoubles(odd[..], even[..], 2 * k);
      crc := ApplyBit(odd, crc, len, 4 * k);
      len := len / 2;
      k := 4 * k;
      if len == 0 { break; }
    }
    NoZeros(crc);
  }

  lemma NoZeros(c: Word)
    ensures Zeros(c, 0) == c
  {
  }

  /** Applies the operator of this power of two if the length has that bit. */
  method ApplyBit(mat: array<Word>, crc: Word, len: nat, ghost n: nat) returns (r: Word)
    requires mat.Length == GF2_DIM && IsZeros(mat[..], n)
    ensures Zeros(r, 2 * n * (len / 2)) == Zeros(crc, n * len)
  {
    hide Times, Zeros, Shl, IsZeros;
    r := crc;
    BitSplit(n, len);
    if len % 2 == 1 {
      WholeTimes(mat[..], n, crc);
      ZerosAdd(crc, n, 2 * n * (len / 2));
      r := MatrixTimes(mat, crc);
    }
  }

  lemma BitSplit(n: nat, len: nat)
    ensures n * len == 2 * n * (len / 2) + (if len % 2 == 1 then n else 0)
  {
    var h := len / 2;
    assert len == 2 * h + len % 2;
    assert n * (2 * h) == 2 * n * h;
  }

  // ---- what it means ----

  /** The register after b is the sum of what b's zero bits make of x and what b makes of y. */
  lemma {:induction false} RegisterXor(x: Word, y: Word, b: seq<bv8>)
    ensures Register(Xor(x, y), b) == Xor(Zeros(x, 8 * |b|), Register(y, b))
    decreases |b|
  {
    hide Serial, Zeros, Xor;
    NoZeros(x);
    if b != [] {
      var a, last := b[..|b| - 1], b[|b| - 1];
      RegisterXor(x, y, a);
      var p, q := Zeros(x, 8 * |a|), Register(y, a);
      ByteStep(Xor(p, q), last);
      ByteStep(q, last);
      XorAssoc(p, q, last as Word);
      ZerosXor(p, Xor(q, last as Word), 8);
      ZerosAdd(x, 8 * |a|, 8);
    }
  }

  /** Combining the CRCs of A and B gives the CRC of A followed by B. */
  lemma CombineIsConcat(crc: Word, a: seq<bv8>, b: seq<bv8>)
    ensures Combined(Crc(crc, a), Crc(0, b), |b|) == Crc(crc, a + b)
  {
    hide Register, Zeros, Xor, Not;
    if b == [] {
      assert a + b == a;
    } else {
      RegisterConcat(Not(crc), a, b);
      CombineRegisters(Register(Not(crc), a), b);
    }
  }

  lemma CombineRegisters(r: Word, b: seq<bv8>)
    ensures Not(Register(r, b)) == Xor(Zeros(Not(r), 8 * |b|), Not(Register(Not(0), b)))
  {
    hide Register, Zeros, Xor, Not;
    var n, ones, s := 8 * |b|, Not(0), Register(0, b);
    XorNone(r);
    XorNone(ones);
    RegisterXor(r, 0, b);
    RegisterXor(ones, 0, b);
    NotAdds(r);
    ZerosXor(r, ones, n);
    NotAdds(Xor(Zeros(r, n), s));
    NotAdds(Xor(Zeros(ones, n), s));
    Cancels(Zeros(r, n), Zeros(ones, n), s, ones);
  }

  lemma NotAdds(c: Word)
    ensures Not(c) == Xor(c, Not(0))
  {
  }

  lemma Cancels(x: Word, y: Word, s: Word, ones: Word)
    ensures Xor(Xor(x, s), ones) == Xor(Xor(x, y), Xor(Xor(y, s), ones))
  {
    hide Xor;
    XorAssoc(x, y, Xor(Xor(y, s), ones));
    XorAssoc(y, s, ones);
    XorAssoc(y, y, Xor(s, ones));
    XorNone(y);
    XorNone(Xor(s, ones));
    XorAssoc(x, s, ones);
  }
}
