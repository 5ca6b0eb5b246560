/** The rolling three-byte hash of deflate.c (UPDATE_HASH): h becomes
    ((h << hash_shift) ^ c) & hash_mask. */
module HashKey {
  import opened Binary
  import opened Lz77

  /** Hash geometry from deflateInit2_: hash_bits = memLevel + 7 with memLevel in 1..9. */
  ghost predicate ValidBits(bits: nat) { 8 <= bits <= 16 }

  function Shift(bits: nat): nat { (bits + MIN_MATCH - 1) / MIN_MATCH }

  function Update(bits: nat, h: nat, c: byte): (r: nat)
    ensures r < Pow2(bits)
  {
    Xor(h * Pow2(Shift(bits)), c) % Pow2(bits)
  }

  /** The hash of three consecutive bytes. */
  function Key(bits: nat, a: byte, b: byte, c: byte): nat {
    Update(bits, Update(bits, Update(bits, 0, a), b), c)
  }

  /** h holds the first two bytes of a string: one more update gives the string's hash. */
  ghost predicate Primed(bits: nat, h: nat, a: byte, b: byte) {
    forall c: byte :: Update(bits, h, c) == Key(bits, a, b, c)
  }

  lemma ShiftMod(h: nat, j: nat, s: nat)
    ensures h * Pow2(s) % Pow2(j + s) == h % Pow2(j) * Pow2(s)
  {
    var d, e := Pow2(j), Pow2(s);
    Pow2Add(j, s);
    var q, r := h / d, h % d;
    assert h == d * q + r;
    MulDistributes(q * d, r, e);
    MulAssoc(q, d, e);
    MulDistributes(r, d - r, e);
    MulGrows(d - r, e);
    DivModUnique(h * e, d * e, q, r * e);
  }

  /** Two registers that agree on their low j bits agree on j + shift bits after one update. */
  lemma UpdateForgets(bits: nat, h: nat, g: nat, c: byte, j: nat, m: nat)
    requires h % Pow2(j) == g % Pow2(j)
    requires m <= bits && m <= j + Shift(bits)
    ensures Update(bits, h, c) % Pow2(m) == Update(bits, g, c) % Pow2(m)
  {
    hide Pow2, Xor;
    var s := Shift(bits);
    ShiftMod(h, j, s);
    ShiftMod(g, j, s);
    ModMod(h * Pow2(s), m, j + s);
    ModMod(g * Pow2(s), m, j + s);
    XorMod(h * Pow2(s), c, m);
    XorMod(g * Pow2(s), c, m);
    ModMod(Xor(h * Pow2(s), c), m, bits);
    ModMod(Xor(g * Pow2(s), c), m, bits);
  }

  /** After three updates the register depends on those three bytes alone. */
  lemma KeyOfAny(bits: nat, h: nat, a: byte, b: byte, c: byte)
    requires ValidBits(bits)
    ensures Update(bits, Update(bits, Update(bits, h, a), b), c) == Key(bits, a, b, c)
  {
    hide Update;
    var s := Shift(bits);
    var h1, g1 := Update(bits, h, a), Update(bits, 0, a);
    UpdateForgets(bits, h, 0, a, 0, s);
    var h2, g2 := Update(bits, h1, b), Update(bits, g1, b);
    UpdateForgets(bits, h1, g1, b, s, if 2 * s < bits then 2 * s else bits);
    var h3, g3 := Update(bits, h2, c), Update(bits, g2, c);
    UpdateForgets(bits, h2, g2, c, if 2 * s < bits then 2 * s else bits, bits);
    SmallMod(h3, bits);
    SmallMod(g3, bits);
  }

  /** Starting from a bare byte (ins_h = window[str]) and updating with the next primes the register. */
  lemma {:induction false} PrimeFromByte(bits: nat, a: byte, b: byte)
    requires ValidBits(bits)
    ensures Primed(bits, Update(bits, a, b), a, b)
  {
    Pow2Monotone(8, bits);
    assert Pow2(8) == 256;
    XorZero(a);
    SmallMod(a, bits);
    assert Update(bits, 0, a) == a;
  }

  lemma {:induction false} XorZero(c: nat)
    ensures Xor(0, c) == c
    decreases c
  {
    if c != 0 { XorZero(c / 2); }
  }

  /** Hashing a string primes the register for the next string. */
  lemma KeyPrimesNext(bits: nat, a: byte, b: byte, c: byte)
    requires ValidBits(bits)
    ensures Primed(bits, Key(bits, a, b, c), b, c)
  {
    forall d: byte ensures Update(bits, Key(bits, a, b, c), d) == Key(bits, b, c, d) {
      KeyOfAny(bits, Update(bits, 0, a), b, c, d);
    }
  }

  /** Why longest_match need not compare scan[2]: equal keys and equal first
      two bytes force equal third bytes, because hash_bits >= 8. */
  lemma ThirdByteForced(bits: nat, a: byte, b: byte, c: byte, d: byte)
    requires ValidBits(bits) && Key(bits, a, b, c) == Key(bits, a, b, d)
    ensures c == d
  {
    var x := Update(bits, Update(bits, 0, a), b) * Pow2(Shift(bits));
    XorMod(x, c, bits);
    XorMod(x, d, bits);
    Pow2Monotone(8, bits);
    assert Pow2(8) == 256;
    SmallMod(c, bits);
    SmallMod(d, bits);
    XorInjective(x % Pow2(bits), c, d);
  }
}
