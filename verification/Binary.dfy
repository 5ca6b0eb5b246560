/** Powers of two and bitwise exclusive-or on unbounded naturals. */
module Binary {
  function Pow2(n: nat): (p: nat)
    ensures p >= 1
  {
    if n == 0 then 1 else 2 * Pow2(n - 1)
  }

  function Quotient(x: nat, d: nat): (q: nat)
    requires d > 0
  {
    x / d
  }

  function Xor(a: nat, b: nat): nat
    decreases a + b
  {
    if a == 0 && b == 0 then 0
    else 2 * Xor(a / 2, b / 2) + (a % 2 + b % 2) % 2
  }

  lemma {:induction false} Pow2Add(m: nat, n: nat)
    ensures Pow2(m + n) == Pow2(m) * Pow2(n)
    decreases m
  {
    if m != 0 {
      Pow2Add(m - 1, n);
      assert Pow2(m + n) == 2 * Pow2(m - 1 + n) && Pow2(m) == 2 * Pow2(m - 1);
      hide Pow2;
      MulAssoc(2, Pow2(m - 1), Pow2(n));
    }
  }

  lemma {:induction false} Pow2Monotone(m: nat, n: nat)
    requires m <= n
    ensures Pow2(m) <= Pow2(n)
    decreases n
  {
    if m < n { Pow2Monotone(m, n - 1); }
  }

  lemma MulGrows(k: int, d: int)
    requires k >= 1 && d > 0
    ensures k * d >= d
  {
    assert k * d == (k - 1) * d + d;
    assert (k - 1) * d >= 0;
  }

  lemma DivModUnique(x: int, d: int, q: int, r: int)
    requires 0 <= r < d && x == q * d + r
    ensures x / d == q && x % d == r
  {
    var q', r' := x / d, x % d;
    assert x == d * q' + r';
    assert (q' - q) * d == r - r';
    if q' > q {
      MulGrows(q' - q, d);
    } else if q' < q {
      MulGrows(q - q', d);
    }
  }

  lemma MulAssoc(a: int, b: int, c: int)
    ensures a * (b * c) == (a * b) * c
  {
  }

  lemma MulDistributes(a: int, b: int, c: int)
    ensures (a + b) * c == a * c + b * c
  {
  }

  /** Taking the low k + 1 bits and then halving is halving and taking the low k bits. */
  lemma ModPow2Halve(x: nat, k: nat)
    ensures x % Pow2(k + 1) / 2 == x / 2 % Pow2(k)
    ensures x % Pow2(k + 1) % 2 == x % 2
    ensures x % Pow2(k + 1) == 2 * (x / 2 % Pow2(k)) + x % 2
  {
    var p := Pow2(k);
    var q, r := (x / 2) / p, (x / 2) % p;
    assert x / 2 == p * q + r;
    MulAssoc(q, 2, p);
    assert x == q * (2 * p) + (2 * r + x % 2);
    DivModUnique(x, 2 * p, q, 2 * r + x % 2);
  }

  lemma ModOfMultiple(x: nat, d: nat, e: nat)
    requires d > 0 && e > 0 && e * d > 0
    ensures x % (e * d) % d == x % d
  {
    var n := e * d;
    var q, r := x / n, x % n;
    var q', r' := r / d, r % d;
    assert x == n * q + r;
    assert r == d * q' + r';
    MulAssoc(q, e, d);
    assert x == (q * e) * d + q' * d + r';
    MulDistributes(q * e, q', d);
    DivModUnique(x, d, q * e + q', r');
  }

  lemma ModMod(x: nat, m: nat, n: nat)
    requires m <= n
    ensures x % Pow2(n) % Pow2(m) == x % Pow2(m)
  {
    Pow2Add(n - m, m);
    ModOfMultiple(x, Pow2(m), Pow2(n - m));
  }

  lemma SmallMod(x: nat, n: nat)
    requires x < Pow2(n)
    ensures x % Pow2(n) == x
  {
    DivModUnique(x, Pow2(n), 0, x);
  }

  lemma XorStep(a: nat, b: nat)
    ensures Xor(a, b) / 2 == Xor(a / 2, b / 2) && Xor(a, b) % 2 == (a % 2 + b % 2) % 2
  {
  }

  lemma {:induction false} XorMod(a: nat, b: nat, k: nat)
    ensures Xor(a, b) % Pow2(k) == Xor(a % Pow2(k), b % Pow2(k))
    decreases k
  {
    if k == 0 {
    } else {
      hide Pow2;
      ModPow2Halve(a, k - 1);
      ModPow2Halve(b, k - 1);
      ModPow2Halve(Xor(a, b), k - 1);
      XorStep(a, b);
      XorMod(a / 2, b / 2, k - 1);
      var m, n := a % Pow2(k), b % Pow2(k);
      XorStep(m, n);
      assert Xor(m, n) == 2 * Xor(m / 2, n / 2) + (m % 2 + n % 2) % 2;
    }
  }

  /** Exclusive-or with a fixed number is injective. */
  lemma {:induction false} XorInjective(a: nat, b: nat, c: nat)
    requires Xor(a, b) == Xor(a, c)
    ensures b == c
    decreases a + b + c
  {
    if a != 0 || b != 0 || c != 0 {
      XorStep(a, b);
      XorStep(a, c);
      XorInjective(a / 2, b / 2, c / 2);
    }
  }
}
