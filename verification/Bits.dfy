/** Bitwise operations on natural numbers, as far as the program uses them to pick a slot in a
    table whose size is a power of two. */
module Bits {

  /** 2 to the power k. */
  function Pow2(k: nat): (p: nat)
    ensures p > 0
  {
    if k == 0 then 1 else 2 * Pow2(k - 1)
  }

  predicate IsPow2(n: nat) {
    n > 0 && (n == 1 || (n % 2 == 0 && IsPow2(n / 2)))
  }

  /** Bitwise and. */
  function And(a: nat, b: nat): nat {
    if a == 0 || b == 0 then 0
    else (a % 2) * (b % 2) + 2 * And(a / 2, b / 2)
  }

  /** Bitwise or. */
  function Or(a: nat, b: nat): nat {
    if a == 0 then b
    else if b == 0 then a
    else (a % 2 + b % 2 - (a % 2) * (b % 2)) + 2 * Or(a / 2, b / 2)
  }

  /** Bitwise exclusive or. */
  function Xor(a: nat, b: nat): nat {
    if a == 0 then b
    else if b == 0 then a
    else (a + b) % 2 + 2 * Xor(a / 2, b / 2)
  }

  /** x shifted k places up. */
  function Shl(x: nat, k: nat): nat {
    if k == 0 then x else 2 * Shl(x, k - 1)
  }

  /** x shifted k places down. */
  function Shr(x: nat, k: nat): nat {
    if k == 0 then x else Shr(x / 2, k - 1)
  }

  lemma DivideTwice(n: nat, c: nat, d: nat)
    requires c > 0 && d > 0
    ensures c * d > 0 && n / c / d == n / (c * d)
  {
    var q, r := n / c / d, n / c % d;
    assert n / c == r + q * d;
    assert n == (n % c + c * r) + q * (c * d);
    assert c * r <= c * (d - 1);
    RemainderIsUnique(n, c * d, q, n % c + c * r);
  }

  /** Shifting down is dividing by a power of two. */
  lemma {:induction false} ShrIsDivision(n: nat, k: nat)
    ensures Shr(n, k) == n / Pow2(k)
    decreases k
  {
    if k > 0 {
      ShrIsDivision(n / 2, k - 1);
      DivideTwice(n, 2, Pow2(k - 1));
    }
  }

  /** Exclusive or with k ones is the complement of a k-bit number. */
  lemma {:induction false} XorOnes(x: nat, k: nat)
    requires x < Pow2(k)
    ensures Xor(Pow2(k) - 1, x) == Pow2(k) - 1 - x
  {
    if k > 0 {
      XorOnes(x / 2, k - 1);
    }
  }

  /** Masking with one less than a power of two is taking the remainder. */
  lemma {:induction false} MaskIsModulo(x: nat, n: nat)
    requires IsPow2(n)
    ensures And(x, n - 1) == x % n
  {
    if n == 1 {
    } else if x == 0 {
    } else {
      var h := n / 2;
      assert (n - 1) / 2 == h - 1 && (n - 1) % 2 == 1;
      MaskIsModulo(x / 2, h);
      assert And(x, n - 1) == x % 2 + 2 * ((x / 2) % h);
      HalveModulo(x, h);
    }
  }

  lemma HalveModulo(x: nat, h: nat)
    requires h > 0
    ensures x % (2 * h) == x % 2 + 2 * ((x / 2) % h)
  {
    var q, r := (x / 2) / h, (x / 2) % h;
    assert x == (x % 2 + 2 * r) + q * (2 * h);
    RemainderIsUnique(x, 2 * h, q, x % 2 + 2 * r);
  }

  /** A quotient and an in-range remainder determine `%`. */
  lemma RemainderIsUnique(x: int, n: int, q: int, r: int)
    requires n > 0 && 0 <= r < n
    requires x == r + q * n
    ensures x % n == r && x / n == q
  {
    var q', r' := x / n, x % n;
    assert (q - q') * n == r' - r;
    assert q - q' >= 1 ==> (q - q') * n >= n;
    assert q - q' <= -1 ==> (q - q') * n <= -n;
  }

  /** Residues modulo a multiple determine residues modulo the divisor. */
  lemma CoarserResidue(x: nat, y: nat, n: nat, m: nat)
    requires n > 0 && m > 0 && m % n == 0
    requires x % m == y % m
    ensures x % n == y % n
  {
    var d := m / n;
    assert m == d * n;
    var qx, qy := x / m, y / m;
    var r := x % m;
    assert x == r + qx * m && y == r + qy * m;
    var a, b := r / n, r % n;
    assert qx * m == (qx * d) * n && qy * m == (qy * d) * n;
    assert x == b + (a + qx * d) * n;
    assert y == b + (a + qy * d) * n;
    RemainderIsUnique(x, n, a + qx * d, b);
    RemainderIsUnique(y, n, a + qy * d, b);
  }
}
