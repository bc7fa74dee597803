/** Powers and congruences, for the arithmetic math/big does in the key exchanges. */
module Modular {
  import opened Bytes

  function Pow(b: int, e: nat): int
  {
    if e == 0 then 1 else b * Pow(b, e - 1)
  }

  /** big.Int.Exp for a positive modulus. */
  function ModExp(b: int, e: nat, n: nat): (r: nat)
    requires n > 0
    ensures r < n
  {
    Pow(b, e) % n
  }

  ghost predicate Cong(a: int, b: int, n: nat)
    requires n > 0
  {
    a % n == b % n
  }

  lemma CongFrom(a: int, b: int, n: nat, k: int)
    requires n > 0 && a - b == n * k
    ensures Cong(a, b, n)
  {
    var q, r := b / n, b % n;
    assert a == n * (q + k) + r;
    ModUnique(a, n, q + k, r);
  }

  lemma CongTo(a: int, b: int, n: nat) returns (k: int)
    requires n > 0 && Cong(a, b, n)
    ensures a - b == n * k
  {
    k := a / n - b / n;
    assert a == n * (a / n) + a % n && b == n * (b / n) + b % n;
    assert n * (a / n) - n * (b / n) == n * k;
  }

  lemma CongReduced(a: int, n: nat)
    requires n > 0
    ensures Cong(a % n, a, n)
  {
  }

  lemma CongSub(a: int, a': int, b: int, b': int, n: nat)
    requires n > 0 && Cong(a, a', n) && Cong(b, b', n)
    ensures Cong(a - b, a' - b', n)
  {
    var j := CongTo(a, a', n);
    var k := CongTo(b, b', n);
    assert n * j - n * k == n * (j - k);
    CongFrom(a - b, a' - b', n, j - k);
  }

  lemma CongMul(a: int, a': int, b: int, b': int, n: nat)
    requires n > 0 && Cong(a, a', n) && Cong(b, b', n)
    ensures Cong(a * b, a' * b', n)
  {
    var j := CongTo(a, a', n);
    var k := CongTo(b, b', n);
    calc {
      a * b - a' * b';
      a * (b - b') + b' * (a - a');
      a * (n * k) + b' * (n * j);
      { MulSwap(a, n, k); MulSwap(b', n, j); }
      n * (a * k) + n * (b' * j);
      n * (a * k + b' * j);
    }
    CongFrom(a * b, a' * b', n, a * k + b' * j);
  }

  lemma MulSwap(x: int, y: int, z: int)
    ensures x * (y * z) == y * (x * z)
  {
  }

  lemma {:induction false} CongPow(a: int, a': int, e: nat, n: nat)
    requires n > 0 && Cong(a, a', n)
    ensures Cong(Pow(a, e), Pow(a', e), n)
  {
    if e > 0 {
      CongPow(a, a', e - 1, n);
      CongMul(a, a', Pow(a, e - 1), Pow(a', e - 1), n);
    }
  }

  lemma {:induction false} PowAdd(b: int, x: nat, y: nat)
    ensures Pow(b, x + y) == Pow(b, x) * Pow(b, y)
  {
    if x > 0 {
      PowAdd(b, x - 1, y);
      MulAssoc(b, Pow(b, x - 1), Pow(b, y));
    }
  }

  lemma MulAssoc(x: int, y: int, z: int)
    ensures (x * y) * z == x * (y * z)
  {
  }

  lemma {:induction false} PowPow(b: int, x: nat, y: nat)
    ensures Pow(Pow(b, x), y) == Pow(b, x * y)
  {
    if y > 0 {
      PowPow(b, x, y - 1);
      assert x + x * (y - 1) == x * y;
      PowAdd(b, x, x * (y - 1));
    }
  }

  /** Diffie-Hellman: both sides reach g^(xy). */
  lemma Agreement(g: int, x: nat, y: nat, n: nat)
    requires n > 0
    ensures ModExp(ModExp(g, x, n), y, n) == ModExp(ModExp(g, y, n), x, n) == ModExp(g, x * y, n)
  {
    CongReduced(Pow(g, x), n);
    CongPow(ModExp(g, x, n), Pow(g, x), y, n);
    PowPow(g, x, y);
    CongReduced(Pow(g, y), n);
    CongPow(ModExp(g, y, n), Pow(g, y), x, n);
    PowPow(g, y, x);
    assert x * y == y * x;
  }
}
