/** crc32.c.  The CRC is defined bit by bit; the table, word-at-a-time and
    combination forms are proved equal to it. */
module Crc32 {
  import opened Lz77
  import opened Bytes

  // ---- the definition ----

  const POLY: Word := 0xedb88320

  function Xor(a: Word, b: Word): Word { a ^ b }

  function Half(a: Word): Word { a >> 1 }

  predicate Low(a: Word) { a & 1 == 1 }

  function Not(c: Word): Word { !c }

  /** The register shifted by one bit: multiplication by x modulo the polynomial. */
  function Shift(c: Word): Word {
    if Low(c) then Xor(POLY, Half(c)) else Half(c)
  }

  /** k message bits, the lowest of v first. */
  function Serial(c: Word, v: Word, k: nat): Word
    decreases k
  {
    if k == 0 then c else Serial(Shift(Xor(c, v & 1)), Half(v), k - 1)
  }

  function Register(c: Word, s: seq<bv8>): Word {
    if s == [] then c else Serial(Register(c, s[..|s| - 1]), s[|s| - 1] as Word, 8)
  }

  /** The CRC of s, continued from an earlier value; 0 for a first call. */
  function Crc(crc: Word, s: seq<bv8>): Word {
    Not(Register(Not(crc), s))
  }

  /** n zero bits. */
  function Zeros(c: Word, n: nat): Word
    decreases n
  {
    if n == 0 then c else Zeros(Shift(c), n - 1)
  }

  // ---- the check value ----

  const DIGITS: seq<bv8> := [0x31, 0x32, 0x33, 0x34, 0x35, 0x36, 0x37, 0x38, 0x39]

  lemma Digit(i: nat, w: Word, c: Word, r: Word)
    requires i < 9 && w == DIGITS[i] as Word
    requires Register(0xffffffff, DIGITS[..i]) == c && Serial(c, w, 8) == r
    ensures Register(0xffffffff, DIGITS[..i + 1]) == r
  {
    var t := DIGITS[..i + 1];
    assert t[..i] == DIGITS[..i] && t[i] == DIGITS[i];
    hide Serial;
  }

  lemma DigitWords()
    ensures DIGITS[0] as Word == 0x31 && DIGITS[1] as Word == 0x32 && DIGITS[2] as Word == 0x33
    ensures DIGITS[3] as Word == 0x34 && DIGITS[4] as Word == 0x35 && DIGITS[5] as Word == 0x36
    ensures DIGITS[6] as Word == 0x37 && DIGITS[7] as Word == 0x38 && DIGITS[8] as Word == 0x39
  {
  }

  /** The nine digits, one after the other. */
  lemma Digits1()
    ensures Serial(0xffffffff, 0x31, 8) == 0x7c231048
    ensures Serial(0x7c231048, 0x32, 8) == 0xb0acbb32
    ensures Serial(0xb0acbb32, 0x33, 8) == 0x77b79c2d
  {
  }

  lemma Digits2()
    ensures Serial(0x77b79c2d, 0x34, 8) == 0x641c1f5c
    ensures Serial(0x641c1f5c, 0x35, 8) == 0x340ac5e3
    ensures Serial(0x340ac5e3, 0x36, 8) == 0xf68d2c9e
  {
  }

  lemma Digits3()
    ensures Serial(0xf68d2c9e, 0x37, 8) == 0xaffc9660
    ensures Serial(0xaffc9660, 0x38, 8) == 0x651f2550
    ensures Serial(0x651f2550, 0x39, 8) == 0x340bc6d9
  {
  }

  lemma NoDigits(c: Word)
    ensures Register(c, DIGITS[..0]) == c
  {
  }

  /** The CRC of the digits 1 to 9. */
  lemma CheckValue()
    ensures Crc(0, [0x31, 0x32, 0x33, 0x34, 0x35, 0x36, 0x37, 0x38, 0x39]) == 0xcbf43926
  {
    DigitWords();
    Digits1();
    Digits2();
    Digits3();
    NoDigits(0xffffffff);
    hide Serial, Register;
    Digit(0, 0x31, 0xffffffff, 0x7c231048);
    Digit(1, 0x32, 0x7c231048, 0xb0acbb32);
    Digit(2, 0x33, 0xb0acbb32, 0x77b79c2d);
    Digit(3, 0x34, 0x77b79c2d, 0x641c1f5c);
    Digit(4, 0x35, 0x641c1f5c, 0x340ac5e3);
    Digit(5, 0x36, 0x340ac5e3, 0xf68d2c9e);
    Digit(6, 0x37, 0xf68d2c9e, 0xaffc9660);
    Digit(7, 0x38, 0xaffc9660, 0x651f2550);
    Digit(8, 0x39, 0x651f2550, 0x340bc6d9);
    assert DIGITS[..9] == DIGITS;
  }

  // ---- exclusive-or ----

  lemma XorHalf(a: Word, b: Word)
    ensures Half(Xor(a, b)) == Xor(Half(a), Half(b)) && (Low(Xor(a, b)) <==> (Low(a) != Low(b)))
  {
  }

  lemma XorAssoc(p: Word, x: Word, y: Word)
    ensures Xor(Xor(p, x), y) == Xor(p, Xor(x, y))
  {
  }

  lemma XorComm(x: Word, y: Word)
    ensures Xor(x, y) == Xor(y, x)
  {
  }

  lemma XorNone(x: Word)
    ensures Xor(0, x) == x && Xor(x, 0) == x && Xor(x, x) == 0
  {
  }

  lemma XorRules(p: Word, x: Word, y: Word)
    ensures Xor(Xor(p, x), y) == Xor(p, Xor(x, y)) && Xor(x, Xor(p, y)) == Xor(p, Xor(x, y))
    ensures Xor(Xor(p, x), Xor(p, y)) == Xor(x, y)
    ensures Xor(x, y) == Xor(y, x) && Xor(0, x) == x && Xor(x, 0) == x && Xor(x, x) == 0
  {
    hide Xor;
    XorAssoc(p, x, y);
    XorAssoc(x, p, y);
    XorComm(x, p);
    XorAssoc(p, x, Xor(p, y));
    XorAssoc(p, p, Xor(x, y));
    XorNone(p);
    XorNone(x);
    XorNone(Xor(x, y));
    XorComm(x, y);
  }

  // ---- linearity ----

  lemma ShiftXor(a: Word, b: Word)
    ensures Shift(Xor(a, b)) == Xor(Shift(a), Shift(b))
  {
    hide Xor, Half, Low;
    XorHalf(a, b);
    XorRules(POLY, Half(a), Half(b));
  }

  lemma {:induction false} ZerosXor(a: Word, b: Word, n: nat)
    ensures Zeros(Xor(a, b), n) == Xor(Zeros(a, n), Zeros(b, n))
    decreases n
  {
    hide Xor, Shift;
    if n != 0 {
      ShiftXor(a, b);
      ZerosXor(Shift(a), Shift(b), n - 1);
    }
  }

  lemma {:induction false} ZerosAdd(c: Word, m: nat, n: nat)
    ensures Zeros(Zeros(c, m), n) == Zeros(c, m + n)
    decreases m
  {
    hide Shift;
    if m != 0 { ZerosAdd(Shift(c), m - 1, n); }
  }

  predicate Fits(v: Word, k: nat)
    decreases k
  {
    if k == 0 then v == 0 else Fits(Half(v), k - 1)
  }

  lemma ByteFits(b: bv8)
    ensures Fits(b as Word, 8)
  {
    var v := b as Word;
    assert v < 256;
    assert Fits(v >> 1 >> 1 >> 1 >> 1 >> 1 >> 1 >> 1 >> 1, 0);
    assert Fits(v >> 1 >> 1 >> 1 >> 1 >> 1 >> 1, 2);
    assert Fits(v >> 1 >> 1 >> 1 >> 1, 4);
    assert Fits(v >> 1 >> 1, 6);
  }

  lemma LowPart(v: Word)
    ensures Half(v & 1) == 0 && (Low(v & 1) <==> Low(v)) && Xor(v & 1, Xor(v & 1, v)) == v
  {
  }

  /** Message bits may all be added to the register before it is shifted. */
  lemma {:induction false} SerialIsZeros(c: Word, v: Word, k: nat)
    requires Fits(v, k)
    ensures Serial(c, v, k) == Zeros(Xor(c, v), k)
    decreases k
  {
    if k == 0 {
      XorRules(0, c, 0);
    } else {
      hide Shift;
      SerialIsZeros(Shift(Xor(c, v & 1)), Half(v), k - 1);
      AddedEarly(c, v);
    }
  }

  lemma AddedEarly(c: Word, v: Word)
    ensures Shift(Xor(c, v)) == Xor(Shift(Xor(c, v & 1)), Half(v))
  {
    hide Xor, Half, Low;
    XorHalf(c, v);
    XorHalf(c, v & 1);
    LowPart(v);
    XorRules(POLY, Half(c), Half(v));
  }

  lemma ByteStep(c: Word, b: bv8)
    ensures Serial(c, b as Word, 8) == Zeros(Xor(c, b as Word), 8)
  {
    hide Serial, Zeros, Xor, Fits;
    ByteFits(b);
    SerialIsZeros(c, b as Word, 8);
  }

  // ---- one byte at a time ----

  lemma EvenHalves(c: Word)
    requires c & 0xff == 0
    ensures !Low(c) && !Low(c >> 1) && !Low(c >> 2) && !Low(c >> 3) && !Low(c >> 4) && !Low(c >> 5) && !Low(c >> 6) && !Low(c >> 7)
    ensures Half(c) == c >> 1 && Half(c >> 1) == c >> 2 && Half(c >> 2) == c >> 3 && Half(c >> 3) == c >> 4
    ensures Half(c >> 4) == c >> 5 && Half(c >> 5) == c >> 6 && Half(c >> 6) == c >> 7 && Half(c >> 7) == c >> 8
  {
  }

  /** Eight zero bits only move a value whose low byte is zero. */
  lemma ShiftOut(c: Word)
    requires c & 0xff == 0
    ensures Zeros(c, 8) == c >> 8
  {
    EvenHalves(c);
    Eight(c, c >> 1, c >> 2, c >> 3, c >> 4, c >> 5, c >> 6, c >> 7, c >> 8);
    hide Zeros;
  }

  lemma Eight(c: Word, c1: Word, c2: Word, c3: Word, c4: Word, c5: Word, c6: Word, c7: Word, c8: Word)
    requires !Low(c) && !Low(c1) && !Low(c2) && !Low(c3) && !Low(c4) && !Low(c5) && !Low(c6) && !Low(c7)
    requires Half(c) == c1 && Half(c1) == c2 && Half(c2) == c3 && Half(c3) == c4
    requires Half(c4) == c5 && Half(c5) == c6 && Half(c6) == c7 && Half(c7) == c8
    ensures Zeros(c, 8) == c8
  {
    hide Low, Half, Xor;
    assert Zeros(c7, 1) == Zeros(c8, 0);
    assert Zeros(c5, 3) == Zeros(c6, 2) == Zeros(c7, 1);
    assert Zeros(c3, 5) == Zeros(c4, 4) == Zeros(c5, 3);
    assert Zeros(c1, 7) == Zeros(c2, 6) == Zeros(c3, 5);
  }

  /** Eight zero bits, from a split into low byte and the rest. */
  lemma Lookup(c: Word, low: Word, high: Word, moved: Word)
    requires c == Xor(low, high) && Zeros(high, 8) == moved
    ensures Zeros(c, 8) == Xor(Zeros(low, 8), moved)
  {
    hide Xor, Zeros;
    ZerosXor(low, high, 8);
  }

  lemma LowByte(c: Word)
    ensures Zeros(c, 8) == Xor(Zeros(c & 0xff, 8), c >> 8)
  {
    hide Xor, Zeros;
    SplitByte(c);
    ShiftOut(c & 0xffffff00);
    Lookup(c, c & 0xff, c & 0xffffff00, c >> 8);
  }

  lemma SplitByte(c: Word)
    ensures c == Xor(c & 0xff, c & 0xffffff00) && (c & 0xffffff00) & 0xff == 0 && (c & 0xffffff00) >> 8 == c >> 8
  {
  }

  // ---- tables ----

  /** ZSWAP32 */
  function Swap(q: Word): Word {
    ((q >> 24) & 0xff) + ((q >> 8) & 0xff00) + ((q & 0xff00) << 8) + ((q & 0xff) << 24)
  }

  function Value(m: int): Word
    requires 0 <= m < 256
  {
    m as Word
  }

  /** Row k < rows is the CRC of the byte m followed by k zero bytes, row k + 4 the same byte-swapped. */
  ghost predicate Column(t: array2<Word>, m: int, rows: int)
    requires t.Length0 == 8 && t.Length1 == 256 && 0 <= m < 256 && rows <= 4
    reads t
  {
    forall k :: 0 <= k < rows ==> t[k, m] == Zeros(Value(m), 8 * k + 8) && t[k + 4, m] == Swap(t[k, m])
  }

  ghost predicate Columns(t: array2<Word>, n: int)
    reads t
  {
    t.Length0 == 8 && t.Length1 == 256 && forall m :: 0 <= m < n && m < 256 ==> Column(t, m, 4)
  }

  ghost predicate FirstRow(t: array2<Word>, n: int)
    reads t
  {
    t.Length0 == 8 && t.Length1 == 256 && forall m :: 0 <= m < n && m < 256 ==> t[0, m] == Zeros(Value(m), 8)
  }

  ghost predicate TablesOk(t: array2<Word>)
    reads t
  {
    Columns(t, 256)
  }

  function Entry(t: array2<Word>, k: int, c: Word): Word
    requires t.Length0 == 8 && t.Length1 == 256 && 0 <= k < 8 && c < 256
    reads t
  {
    t[k, c as int]
  }

  lemma EntryIs(t: array2<Word>, k: int, c: Word)
    requires TablesOk(t) && 0 <= k < 4 && c < 256
    ensures Entry(t, k, c) == Zeros(c, 8 * k + 8) && Entry(t, k + 4, c) == Swap(Zeros(c, 8 * k + 8))
  {
    hide Zeros, Swap;
    assert (c as int) as Word == c;
    assert Column(t, c as int, 4);
  }

  lemma FirstIs(t: array2<Word>, c: Word)
    requires FirstRow(t, 256) && c < 256
    ensures Entry(t, 0, c) == Zeros(c, 8)
  {
    hide Zeros;
    assert (c as int) as Word == c;
  }

  const TERMS: seq<nat> := [0, 1, 2, 4, 5, 7, 8, 10, 11, 12, 16, 22, 23, 26]

  /** One term of the polynomial, with the powers in reverse order. */
  function Term(n: nat): Word
    requires n < 14
  {
    (1 as Word) << (31 - TERMS[n])
  }

  function PolyOf(n: nat): Word
    requires n <= 14
  {
    if n == 0 then 0 else PolyOf(n - 1) | Term(n - 1)
  }

  lemma Terms0()
    ensures Term(0) == 0x80000000
    ensures Term(1) == 0x40000000
    ensures Term(2) == 0x20000000
  {
  }

  lemma Terms3()
    ensures Term(3) == 0x8000000
    ensures Term(4) == 0x4000000
  {
  }

  lemma Terms5()
    ensures Term(5) == 0x1000000
    ensures Term(6) == 0x800000
    ensures Term(7) == 0x200000
    ensures Term(8) == 0x100000
    ensures Term(9) == 0x80000
  {
  }

  lemma Terms10()
    ensures Term(10) == 0x8000
    ensures Term(11) == 0x200
    ensures Term(12) == 0x100
    ensures Term(13) == 0x20
  {
  }

  lemma PolyIs()
    ensures PolyOf(14) == POLY
  {
    Terms0();
    Terms3();
    Terms5();
    Terms10();
    hide Term;
    assert PolyOf(4) == 0xe8000000;
    assert PolyOf(8) == 0xeda00000;
    assert PolyOf(11) == 0xedb88000;
  }

  /** The loops of make_crc_table. */
  method MakeCrcTable(t: array2<Word>)
    requires t.Length0 == 8 && t.Length1 == 256
    modifies t
    ensures TablesOk(t)
  {
    hide FirstRow, Column;
    var poly := MakePoly();
    FillFirst(t, poly);
    for n := 0 to 256
      invariant FirstRow(t, 256) && Columns(t, n)
    {
      FillColumn(t, n);
    }
  }

  method MakePoly() returns (poly: Word)
    ensures poly == POLY
  {
    hide Term;
    poly := 0;
    for n := 0 to 14
      invariant poly == PolyOf(n)
    {
      poly := poly | Term(n);
    }
    PolyIs();
  }

  method FillFirst(t: array2<Word>, poly: Word)
    requires t.Length0 == 8 && t.Length1 == 256 && poly == POLY
    modifies t
    ensures FirstRow(t, 256)
  {
    hide Zeros;
    for n := 0 to 256
      invariant FirstRow(t, n)
    {
      var c := EightShifts(poly, n as Word);
      t[0, n] := c;
    }
  }

  method EightShifts(poly: Word, n: Word) returns (c: Word)
    requires poly == POLY
    ensures c == Zeros(n, 8)
  {
    c := n;
    for k := 0 to 8
      invariant c == Zeros(n, k)
    {
      ZerosAdd(n, k, 1);
      OneZero(c);
      hide Zeros, Shift;
      c := if c & 1 == 1 then poly ^ (c >> 1) else c >> 1;
    }
  }

  lemma OneZero(c: Word)
    ensures Zeros(c, 1) == if c & 1 == 1 then POLY ^ (c >> 1) else c >> 1
  {
    assert Zeros(Shift(c), 0) == Shift(c);
  }

  method FillColumn(t: array2<Word>, n: int)
    requires FirstRow(t, 256) && Columns(t, n) && 0 <= n < 256
    modifies t
    ensures FirstRow(t, 256) && Columns(t, n + 1)
  {
    hide Zeros, Swap, Value;
    var c := t[0, n];
    t[4, n] := Swap(c);
    for k := 1 to 4
      invariant forall j, m :: 0 <= j < 8 && 0 <= m < 256 && m != n ==> t[j, m] == old(t[j, m])
      invariant FirstRow(t, 256) && Column(t, n, k) && c == Zeros(Value(n), 8 * k)
    {
      c := NextRow(t, Value(n), c, k);
      PutEntry(t, n, k, c);
    }
    forall m | 0 <= m < n ensures Column(t, m, 4) {
      assert old(Column(t, m, 4));
    }
  }

  method PutEntry(t: array2<Word>, n: int, k: int, c: Word)
    requires t.Length0 == 8 && t.Length1 == 256 && 0 <= n < 256 && 1 <= k < 4
    requires Column(t, n, k) && c == Zeros(Value(n), 8 * k + 8)
    modifies t
    ensures Column(t, n, k + 1) && t[0, n] == old(t[0, n])
    ensures forall j, m :: 0 <= j < 8 && 0 <= m < 256 && m != n ==> t[j, m] == old(t[j, m])
  {
    hide Zeros, Swap, Value;
    t[k, n] := c;
    t[k + 4, n] := Swap(c);
    forall j | 0 <= j < k + 1 ensures t[j, n] == Zeros(Value(n), 8 * j + 8) && t[j + 4, n] == Swap(t[j, n]) {
      if j < k { assert old(t[j, n] == Zeros(Value(n), 8 * j + 8) && t[j + 4, n] == Swap(t[j, n])); }
    }
  }

  lemma ByteRange(c: Word)
    ensures c & 0xff < 256
  {
  }

  /** Eight steps of the bit-serial register by one table entry. */
  method NextRow(t: array2<Word>, ghost n: Word, c: Word, ghost k: nat) returns (r: Word)
    requires t.Length0 == 8 && t.Length1 == 256 && FirstRow(t, 256) && c == Zeros(n, 8 * k)
    ensures r == Zeros(n, 8 * k + 8)
  {
    hide Zeros, FirstRow, Xor;
    ByteRange(c);
    LowByte(c);
    ZerosAdd(n, 8 * k, 8);
    FirstIs(t, c & 0xff);
    r := Xor(Entry(t, 0, c & 0xff), c >> 8);
  }

  // ---- a byte at a time ----

  lemma RegisterNext(c: Word, s: seq<bv8>, i: nat)
    requires i < |s|
    ensures Register(c, s[..i + 1]) == Serial(Register(c, s[..i]), s[i] as Word, 8)
  {
    hide Serial;
    assert s[..i + 1][..i] == s[..i];
  }

  lemma ByteParts(c: Word, b: bv8)
    ensures Xor(c, b as Word) & 0xff == (c ^ (b as Word)) & 0xff && Xor(c, b as Word) >> 8 == c >> 8
    ensures (c ^ (b as Word)) & 0xff < 256
  {
  }

  /** The register after one more byte, by table. */
  function Do1(t: array2<Word>, c: Word, b: bv8): Word
    requires t.Length0 == 8 && t.Length1 == 256
    reads t
  {
    ByteParts(c, b);
    Xor(Entry(t, 0, (c ^ (b as Word)) & 0xff), c >> 8)
  }

  lemma Do1Is(t: array2<Word>, c: Word, b: bv8)
    requires TablesOk(t)
    ensures Do1(t, c, b) == Serial(c, b as Word, 8)
  {
    hide Zeros, Serial, Xor, TablesOk, Entry;
    ByteStep(c, b);
    LowByte(Xor(c, b as Word));
    ByteParts(c, b);
    EntryIs(t, 0, (c ^ (b as Word)) & 0xff);
  }

  lemma Sizes(t: array2<Word>)
    requires TablesOk(t)
    ensures t.Length0 == 8 && t.Length1 == 256
  {
  }

  /** DO1 at buf[i], with the register after buf[..i]. */
  method Step(t: array2<Word>, buf: seq<bv8>, i: nat, c: Word, ghost c0: Word) returns (r: Word)
    requires TablesOk(t) && i < |buf| && c == Register(c0, buf[..i])
    ensures r == Register(c0, buf[..i + 1])
  {
    hide Register, Serial, TablesOk, Do1;
    Sizes(t);
    RegisterNext(c0, buf, i);
    Do1Is(t, c, buf[i]);
    r := Do1(t, c, buf[i]);
  }

  lemma Complement(c: Word)
    ensures c ^ 0xffffffff == Not(c)
  {
  }

  /** crc32() where four bytes at a time are not compiled in. */
  method ByteWise(t: array2<Word>, crc: Word, buf: seq<bv8>) returns (r: Word)
    requires TablesOk(t)
    ensures r == Crc(crc, buf)
  {
    hide Register, TablesOk, Not;
    Complement(crc);
    var c := crc ^ 0xffffffff;
    var i := 0;
    NoBytes(Not(crc), buf);
    while |buf| - i >= 8
      invariant 0 <= i <= |buf| && c == Register(Not(crc), buf[..i])
      decreases |buf| - i
    {
      c := Step(t, buf, i, c, Not(crc));
      c := Step(t, buf, i + 1, c, Not(crc));
      c := Step(t, buf, i + 2, c, Not(crc));
      c := Step(t, buf, i + 3, c, Not(crc));
      c := Step(t, buf, i + 4, c, Not(crc));
      c := Step(t, buf, i + 5, c, Not(crc));
      c := Step(t, buf, i + 6, c, Not(crc));
      c := Step(t, buf, i + 7, c, Not(crc));
      i := i + 8;
    }
    while i < |buf|
      invariant 0 <= i <= |buf| && c == Register(Not(crc), buf[..i])
    {
      c := Step(t, buf, i, c, Not(crc));
      i := i + 1;
    }
    assert buf[..i] == buf;
    Complement(c);
    r := c ^ 0xffffffff;
  }

  lemma NoBytes(c: Word, buf: seq<bv8>)
    ensures Register(c, buf[..0]) == c
  {
  }

  // ---- four bytes at a time, little-endian ----

  lemma ByteUp(b: Word)
    requires b < 256
    ensures (b << 8) & 0xff == 0 && (b << 16) & 0xff == 0 && (b << 24) & 0xff == 0
    ensures (b << 8) >> 8 == b && (b << 16) >> 8 == b << 8 && (b << 24) >> 8 == b << 16
  {
  }

  /** A byte moved up by k bytes is that byte again after 8k zero bits. */
  lemma Lifted(b: Word)
    requires b < 256
    ensures Zeros(b << 8, 8) == b && Zeros(b << 16, 16) == b && Zeros(b << 24, 24) == b
  {
    ByteUp(b);
    hide Zeros;
    ShiftOut(b << 8);
    ShiftOut(b << 16);
    ShiftOut(b << 24);
    LiftedBy(b, b << 8, b << 16, b << 24);
  }

  lemma LiftedBy(b: Word, b8: Word, b16: Word, b24: Word)
    requires Zeros(b8, 8) == b && Zeros(b16, 8) == b8 && Zeros(b24, 8) == b16
    ensures Zeros(b16, 16) == b && Zeros(b24, 24) == b
  {
    hide Zeros;
    ZerosAdd(b16, 8, 8);
    ZerosAdd(b24, 8, 8);
    ZerosAdd(b24, 16, 8);
  }

  /** A later byte may be added to the register before the shifts of the earlier ones. */
  lemma AddLater(x: Word, k: nat, b: Word, lifted: Word)
    requires Zeros(lifted, k) == b
    ensures Zeros(Xor(Zeros(x, k), b), 8) == Zeros(Xor(x, lifted), k + 8)
  {
    hide Zeros, Xor;
    ZerosXor(x, lifted, k);
    ZerosAdd(Xor(x, lifted), k, 8);
  }

  /** The word at buf as a little-endian machine reads it. */
  function LoadLittle(b0: bv8, b1: bv8, b2: bv8, b3: bv8): Word {
    (b0 as Word) | ((b1 as Word) << 8) | ((b2 as Word) << 16) | ((b3 as Word) << 24)
  }

  lemma LoadXor(c: Word, b0: bv8, b1: bv8, b2: bv8, b3: bv8)
    ensures LoadLittle(b0, b1, b2, b3)
         == (b0 as Word) ^ (((b1 as Word) << 8) ^ (((b2 as Word) << 16) ^ ((b3 as Word) << 24)))
  {
  }

  lemma XorChain(c: Word, x0: Word, x1: Word, x2: Word, x3: Word)
    ensures Xor(Xor(Xor(Xor(c, x0), x1), x2), x3) == Xor(c, Xor(x0, Xor(x1, Xor(x2, x3))))
  {
    hide Xor;
    XorAssoc(c, x0, x1);
    XorAssoc(c, Xor(x0, x1), x2);
    XorAssoc(c, Xor(Xor(x0, x1), x2), x3);
    XorAssoc(Xor(x0, x1), x2, x3);
    XorAssoc(x0, x1, Xor(x2, x3));
  }

  /** Four bytes: add the word, then 32 zero bits. */
  lemma FourSteps(c: Word, b0: bv8, b1: bv8, b2: bv8, b3: bv8)
    ensures Serial(Serial(Serial(Serial(c, b0 as Word, 8), b1 as Word, 8), b2 as Word, 8), b3 as Word, 8)
         == Zeros(Xor(c, LoadLittle(b0, b1, b2, b3)), 32)
  {
    LoadXor(c, b0, b1, b2, b3);
    ByteWords(b1);
    ByteWords(b2);
    ByteWords(b3);
    FourSums(c, b0, b1, b2, b3, b0 as Word, (b1 as Word) << 8, (b2 as Word) << 16, (b3 as Word) << 24,
             LoadLittle(b0, b1, b2, b3));
    hide Zeros, Serial;
  }

  lemma ByteWords(b: bv8)
    ensures Zeros((b as Word) << 8, 8) == b as Word
    ensures Zeros((b as Word) << 16, 16) == b as Word && Zeros((b as Word) << 24, 24) == b as Word
  {
    hide Zeros;
    Lifted(b as Word);
  }

  lemma FourSums(c: Word, b0: bv8, b1: bv8, b2: bv8, b3: bv8, x0: Word, x1: Word, x2: Word, x3: Word, w: Word)
    requires x0 == b0 as Word && Zeros(x1, 8) == b1 as Word && Zeros(x2, 16) == b2 as Word && Zeros(x3, 24) == b3 as Word
    requires w == Xor(x0, Xor(x1, Xor(x2, x3)))
    ensures Serial(Serial(Serial(Serial(c, b0 as Word, 8), b1 as Word, 8), b2 as Word, 8), b3 as Word, 8)
         == Zeros(Xor(c, w), 32)
  {
    hide Zeros, Serial, Xor;
    var y1 := Xor(c, x0);
    var y2 := Xor(y1, x1);
    var y3 := Xor(y2, x2);
    ByteStep(c, b0);
    ByteStep(Zeros(y1, 8), b1);
    AddLater(y1, 8, b1 as Word, x1);
    ByteStep(Zeros(y2, 16), b2);
    AddLater(y2, 16, b2 as Word, x2);
    ByteStep(Zeros(y3, 24), b3);
    AddLater(y3, 24, b3 as Word, x3);
    XorChain(c, x0, x1, x2, x3);
  }

  function Byte0(y: Word): Word { y & 0xff }

  function Byte1(y: Word): Word { (y >> 8) & 0xff }

  function Byte2(y: Word): Word { (y >> 16) & 0xff }

  function Byte3(y: Word): Word { y >> 24 }

  /** 32 zero bits, by the four bytes of the register. */
  lemma FourLookups(y: Word)
    ensures Zeros(y, 32) == Xor(Xor(Xor(Zeros(Byte0(y), 32), Zeros(Byte1(y), 24)), Zeros(Byte2(y), 16)), Zeros(Byte3(y), 8))
  {
    WordParts(y);
    Lifted(Byte1(y));
    Lifted(Byte2(y));
    Lifted(Byte3(y));
    FourParts(y, Byte0(y), Byte1(y) << 8, Byte2(y) << 16, Byte3(y) << 24);
    hide Zeros;
  }

  lemma WordParts(y: Word)
    ensures Byte0(y) < 256 && Byte1(y) < 256 && Byte2(y) < 256 && Byte3(y) < 256
    ensures y == Xor(Xor(Xor(Byte0(y), Byte1(y) << 8), Byte2(y) << 16), Byte3(y) << 24)
  {
  }

  lemma FourParts(y: Word, y0: Word, y1: Word, y2: Word, y3: Word)
    requires y == Xor(Xor(Xor(y0, y1), y2), y3)
    ensures Zeros(y, 32) == Xor(Xor(Xor(Zeros(y0, 32), Zeros(Zeros(y1, 8), 24)), Zeros(Zeros(y2, 16), 16)),
                                Zeros(Zeros(y3, 24), 8))
  {
    hide Zeros, Xor;
    ZerosXor(Xor(Xor(y0, y1), y2), y3, 32);
    ZerosXor(Xor(y0, y1), y2, 32);
    ZerosXor(y0, y1, 32);
    ZerosAdd(y1, 8, 24);
    ZerosAdd(y2, 16, 16);
    ZerosAdd(y3, 24, 8);
  }

  /** DOLIT4 */
  function DoLit4(t: array2<Word>, c: Word, w: Word): Word
    requires t.Length0 == 8 && t.Length1 == 256
    reads t
  {
    var y := Xor(c, w);
    WordParts(y);
    Xor(Xor(Xor(Entry(t, 3, Byte0(y)), Entry(t, 2, Byte1(y))), Entry(t, 1, Byte2(y))),
        Entry(t, 0, Byte3(y)))
  }

  lemma DoLit4Is(t: array2<Word>, c: Word, w: Word)
    requires TablesOk(t)
    ensures DoLit4(t, c, w) == Zeros(Xor(c, w), 32)
  {
    hide Zeros, Xor, TablesOk, Entry, Byte0, Byte1, Byte2, Byte3;
    var y := Xor(c, w);
    Sizes(t);
    WordParts(y);
    FourLookups(y);
    EntryIs(t, 3, Byte0(y));
    EntryIs(t, 2, Byte1(y));
    EntryIs(t, 1, Byte2(y));
    EntryIs(t, 0, Byte3(y));
  }

  /** One little-endian word at index i. */
  method Step4(t: array2<Word>, buf: seq<bv8>, i: nat, c: Word, ghost c0: Word) returns (r: Word)
    requires TablesOk(t) && i + 4 <= |buf| && c == Register(c0, buf[..i])
    ensures r == Register(c0, buf[..i + 4])
  {
    hide Register, Serial, TablesOk, DoLit4, LoadLittle, Zeros;
    Sizes(t);
    FourNext(c0, buf, i);
    FourSteps(c, buf[i], buf[i + 1], buf[i + 2], buf[i + 3]);
    DoLit4Is(t, c, LoadLittle(buf[i], buf[i + 1], buf[i + 2], buf[i + 3]));
    r := DoLit4(t, c, LoadLittle(buf[i], buf[i + 1], buf[i + 2], buf[i + 3]));
  }

  lemma FourNext(c: Word, s: seq<bv8>, i: nat)
    requires i + 4 <= |s|
    ensures Register(c, s[..i + 4])
         == Serial(Serial(Serial(Serial(Register(c, s[..i]), s[i] as Word, 8), s[i + 1] as Word, 8),
                          s[i + 2] as Word, 8), s[i + 3] as Word, 8)
  {
    hide Register, Serial;
    RegisterNext(c, s, i);
    RegisterNext(c, s, i + 1);
    RegisterNext(c, s, i + 2);
    RegisterNext(c, s, i + 3);
  }

  /** Word at a time on a little-endian machine; buf starts at the address addr. */
  method Little(t: array2<Word>, crc: Word, buf: seq<bv8>, addr: nat) returns (r: Word)
    requires TablesOk(t)
    ensures r == Crc(crc, buf)
  {
    hide Register, TablesOk, Not;
    var c := Not(crc);
    var i := 0;
    NoBytes(Not(crc), buf);
    while i < |buf| && (addr + i) % 4 != 0
      invariant 0 <= i <= |buf| && c == Register(Not(crc), buf[..i])
    {
      c := Step(t, buf, i, c, Not(crc));
      i := i + 1;
    }
    while |buf| - i >= 32
      invariant 0 <= i <= |buf| && c == Register(Not(crc), buf[..i])
      decreases |buf| - i
    {
      c := Step4(t, buf, i, c, Not(crc));
      c := Step4(t, buf, i + 4, c, Not(crc));
      c := Step4(t, buf, i + 8, c, Not(crc));
      c := Step4(t, buf, i + 12, c, Not(crc));
      c := Step4(t, buf, i + 16, c, Not(crc));
      c := Step4(t, buf, i + 20, c, Not(crc));
      c := Step4(t, buf, i + 24, c, Not(crc));
      c := Step4(t, buf, i + 28, c, Not(crc));
      i := i + 32;
    }
    while |buf| - i >= 4
      invariant 0 <= i <= |buf| && c == Register(Not(crc), buf[..i])
      decreases |buf| - i
    {
      c := Step4(t, buf, i, c, Not(crc));
      i := i + 4;
    }
    while i < |buf|
      invariant 0 <= i <= |buf| && c == Register(Not(crc), buf[..i])
    {
      c := Step(t, buf, i, c, Not(crc));
      i := i + 1;
    }
    assert buf[..i] == buf;
    r := Not(c);
  }

  // ---- four bytes at a time, big-endian: the register is kept byte-swapped ----

  lemma SwapShift(x: Word)
    ensures Swap(x >> 8) == Swap(x) << 8
  {
    hide Swap;
    SwapIsOr(x);
    SwapIsOr(x >> 8);
  }

  lemma SwapTwice(x: Word)
    ensures Swap(Swap(x)) == x
  {
    hide Swap;
    SwapIsOr(x);
    SwapIsOr(Swap(x));
  }

  lemma SwapBytes(x: Word)
    ensures Byte0(Swap(x)) == Byte3(x) && Byte1(Swap(x)) == Byte2(x)
    ensures Byte2(Swap(x)) == Byte1(x) && Byte3(Swap(x)) == Byte0(x)
  {
    SwapIsOr(x);
    hide Swap;
  }

  lemma SwapXor(x: Word, y: Word)
    ensures Swap(Xor(x, y)) == Xor(Swap(x), Swap(y))
  {
    hide Swap, SwapOr, Xor;
    SwapIsOr(x);
    SwapIsOr(y);
    SwapIsOr(Xor(x, y));
    SwapOrXor(x, y);
  }

  lemma SwapNot(x: Word)
    ensures Swap(Not(x)) == Not(Swap(x))
  {
    SwapOnes();
    hide Swap, Xor, Not;
    NotIsXor(x);
    NotIsXor(Swap(x));
    SwapXor(x, 0xffffffff);
  }

  lemma SwapOnes()
    ensures Swap(0xffffffff) == 0xffffffff
  {
  }

  lemma NotIsXor(x: Word)
    ensures Not(x) == Xor(x, 0xffffffff)
  {
  }

  function SwapOr(q: Word): Word {
    ((q >> 24) | ((q >> 8) & 0xff00)) | (((q & 0xff00) << 8) | (q << 24))
  }

  lemma SwapOrXor(x: Word, y: Word)
    ensures SwapOr(Xor(x, y)) == Xor(SwapOr(x), SwapOr(y))
  {
  }

  lemma SwapIsOr(q: Word)
    ensures Swap(q) == SwapOr(q)
  {
  }

  lemma TopByte(x: Word, b: bv8)
    ensures Byte3(Swap(x)) ^ (b as Word) == (x ^ (b as Word)) & 0xff && (x ^ (b as Word)) & 0xff < 256
  {
    SwapIsOr(x);
    hide Swap;
  }

  /** One more byte into the byte-swapped register. */
  function DoBig1(t: array2<Word>, c: Word, b: bv8): Word
    requires t.Length0 == 8 && t.Length1 == 256
    reads t
  {
    SwapTwice(c);
    TopByte(Swap(c), b);
    Xor(Entry(t, 4, Byte3(c) ^ (b as Word)), c << 8)
  }

  lemma DoBig1Is(t: array2<Word>, x: Word, b: bv8)
    requires TablesOk(t)
    ensures DoBig1(t, Swap(x), b) == Swap(Do1(t, x, b))
  {
    hide Zeros, Xor, TablesOk, Entry, Swap, Byte3;
    Sizes(t);
    TopByte(x, b);
    SwapShift(x);
    ByteParts(x, b);
    EntryIs(t, 0, (x ^ (b as Word)) & 0xff);
    SwapXor(Entry(t, 0, (x ^ (b as Word)) & 0xff), x >> 8);
  }

  method StepBig(t: array2<Word>, buf: seq<bv8>, i: nat, c: Word, ghost c0: Word) returns (r: Word)
    requires TablesOk(t) && i < |buf| && c == Swap(Register(c0, buf[..i]))
    ensures r == Swap(Register(c0, buf[..i + 1]))
  {
    hide Register, Serial, TablesOk, Do1, DoBig1, Swap;
    Sizes(t);
    RegisterNext(c0, buf, i);
    Do1Is(t, Register(c0, buf[..i]), buf[i]);
    DoBig1Is(t, Register(c0, buf[..i]), buf[i]);
    r := DoBig1(t, c, buf[i]);
  }

  /** The word at buf as a big-endian machine reads it. */
  function LoadBig(b0: bv8, b1: bv8, b2: bv8, b3: bv8): Word {
    ((b0 as Word) << 24) | ((b1 as Word) << 16) | ((b2 as Word) << 8) | (b3 as Word)
  }

  lemma LoadSwap(b0: bv8, b1: bv8, b2: bv8, b3: bv8)
    ensures LoadBig(b0, b1, b2, b3) == Swap(LoadLittle(b0, b1, b2, b3))
  {
    SwapIsOr(LoadLittle(b0, b1, b2, b3));
  }

  /** DOBIG4 */
  function DoBig4(t: array2<Word>, c: Word, w: Word): Word
    requires t.Length0 == 8 && t.Length1 == 256
    reads t
  {
    var y := Xor(c, w);
    WordParts(y);
    Xor(Xor(Xor(Entry(t, 4, Byte0(y)), Entry(t, 5, Byte1(y))), Entry(t, 6, Byte2(y))),
        Entry(t, 7, Byte3(y)))
  }

  lemma DoBig4Is(t: array2<Word>, c: Word, w: Word)
    requires TablesOk(t)
    ensures DoBig4(t, Swap(c), Swap(w)) == Swap(DoLit4(t, c, w))
  {
    hide Zeros, Xor, TablesOk, Entry, Swap, Byte0, Byte1, Byte2, Byte3;
    Sizes(t);
    var y := Xor(c, w);
    SwapXor(c, w);
    SwapBytes(y);
    WordParts(y);
    EntryIs(t, 3, Byte0(y));
    EntryIs(t, 2, Byte1(y));
    EntryIs(t, 1, Byte2(y));
    EntryIs(t, 0, Byte3(y));
    SwapSum(Entry(t, 3, Byte0(y)), Entry(t, 2, Byte1(y)), Entry(t, 1, Byte2(y)), Entry(t, 0, Byte3(y)));
  }

  lemma SwapSum(a: Word, b: Word, c: Word, d: Word)
    ensures Swap(Xor(Xor(Xor(a, b), c), d)) == Xor(Xor(Xor(Swap(d), Swap(c)), Swap(b)), Swap(a))
  {
    hide Swap;
    SwapXor(Xor(Xor(a, b), c), d);
    SwapXor(Xor(a, b), c);
    SwapXor(a, b);
    Backwards(Swap(a), Swap(b), Swap(c), Swap(d));
  }

  lemma Backwards(a: Word, b: Word, c: Word, d: Word)
    ensures Xor(Xor(Xor(a, b), c), d) == Xor(Xor(Xor(d, c), b), a)
  {
    hide Xor;
    XorComm(Xor(Xor(a, b), c), d);
    XorComm(Xor(a, b), c);
    XorComm(a, b);
    XorAssoc(d, c, Xor(b, a));
    XorAssoc(Xor(d, c), b, a);
  }

  method StepBig4(t: array2<Word>, buf: seq<bv8>, i: nat, c: Word, ghost c0: Word) returns (r: Word)
    requires TablesOk(t) && i + 4 <= |buf| && c == Swap(Register(c0, buf[..i]))
    ensures r == Swap(Register(c0, buf[..i + 4]))
  {
    hide Register, Serial, TablesOk, DoLit4, DoBig4, LoadLittle, LoadBig, Zeros, Swap;
    Sizes(t);
    ghost var x, w := Register(c0, buf[..i]), LoadLittle(buf[i], buf[i + 1], buf[i + 2], buf[i + 3]);
    FourNext(c0, buf, i);
    FourSteps(x, buf[i], buf[i + 1], buf[i + 2], buf[i + 3]);
    DoLit4Is(t, x, w);
    LoadSwap(buf[i], buf[i + 1], buf[i + 2], buf[i + 3]);
    DoBig4Is(t, x, w);
    r := DoBig4(t, c, LoadBig(buf[i], buf[i + 1], buf[i + 2], buf[i + 3]));
  }

  /** Word at a time on a big-endian machine, with the register byte-swapped throughout. */
  method Big(t: array2<Word>, crc: Word, buf: seq<bv8>, addr: nat) returns (r: Word)
    requires TablesOk(t)
    ensures r == Crc(crc, buf)
  {
    hide Register, TablesOk, Swap, Not;
    SwapNot(crc);
    var c := Swap(crc);
    c := Not(c);
    var i := 0;
    NoBytes(Not(crc), buf);
    while i < |buf| && (addr + i) % 4 != 0
      invariant 0 <= i <= |buf| && c == Swap(Register(Not(crc), buf[..i]))
    {
      c := StepBig(t, buf, i, c, Not(crc));
      i := i + 1;
    }
    while |buf| - i >= 32
      invariant 0 <= i <= |buf| && c == Swap(Register(Not(crc), buf[..i]))
      decreases |buf| - i
    {
      c := StepBig4(t, buf, i, c, Not(crc));
      c := StepBig4(t, buf, i + 4, c, Not(crc));
      c := StepBig4(t, buf, i + 8, c, Not(crc));
      c := StepBig4(t, buf, i + 12, c, Not(crc));
      c := StepBig4(t, buf, i + 16, c, Not(crc));
      c := StepBig4(t, buf, i + 20, c, Not(crc));
      c := StepBig4(t, buf, i + 24, c, Not(crc));
      c := StepBig4(t, buf, i + 28, c, Not(crc));
      i := i + 32;
    }
    while |buf| - i >= 4
      invariant 0 <= i <= |buf| && c == Swap(Register(Not(crc), buf[..i]))
      decreases |buf| - i
    {
      c := StepBig4(t, buf, i, c, Not(crc));
      i := i + 4;
    }
    while i < |buf|
      invariant 0 <= i <= |buf| && c == Swap(Register(Not(crc), buf[..i]))
    {
      c := StepBig(t, buf, i, c, Not(crc));
      i := i + 1;
    }
    assert buf[..i] == buf;
    c := Not(c);
    r := Swap(c);
    Unswap(Register(Not(crc), buf));
  }

  lemma Unswap(x: Word)
    ensures Swap(Not(Swap(x))) == Not(x)
  {
    hide Swap, Not;
    SwapNot(x);
    SwapTwice(Not(x));
  }

  /** The checksum of a buffer continued from `crc`; None is a null buffer. */
  method Crc32(t: array2<Word>, crc: Word, buf: Option<seq<bv8>>, addr: nat, bigEndian: bool) returns (r: Word)
    requires TablesOk(t)
    ensures r == if buf.None? then 0 else Crc(crc, buf.value)
  {
    hide TablesOk, Crc;
    if buf.None? { return 0; }
    if bigEndian {
      r := Big(t, crc, buf.value, addr);
    } else {
      r := Little(t, crc, buf.value, addr);
    }
  }

  // ---- concatenation ----

  lemma {:induction false} RegisterConcat(c: Word, a: seq<bv8>, b: seq<bv8>)
    ensures Register(c, a + b) == Register(Register(c, a), b)
    decreases |b|
  {
    if b == [] {
      assert a + b == a;
    } else {
      hide Serial;
      RegisterConcat(c, a, b[..|b| - 1]);
      assert (a + b)[..|a + b| - 1] == a + b[..|b| - 1];
    }
  }

  /** crc32(crc32(c, A), B) is the CRC of A followed by B. */
  lemma CrcConcat(crc: Word, a: seq<bv8>, b: seq<bv8>)
    ensures Crc(Crc(crc, a), b) == Crc(crc, a + b)
  {
    hide Register, Not;
    RegisterConcat(Not(crc), a, b);
    NotNot(Register(Not(crc), a));
  }

  lemma NotNot(c: Word)
    ensures Not(Not(c)) == c
  {
  }
}
