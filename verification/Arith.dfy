/** The few facts of Euclidean division by a variable that the other modules need. */
module Arith {

  lemma {:induction false} Bound(n: int, k: int)
    requires n > 0
    ensures k >= 1 ==> n * k >= n
    ensures k <= -1 ==> n * k <= -n
  {
  }

  lemma {:induction false} DivMod(a: int, n: int)
    requires n > 0
    ensures a == n * (a / n) + a % n && 0 <= a % n < n
  {
  }

  /** Quotient and remainder are unique. */
  lemma {:induction false} ModUnique(a: int, q: int, r: int, n: int)
    requires 0 <= r < n && a == n * q + r
    ensures a % n == r && a / n == q
  {
    DivMod(a, n);
    var k := q - a / n;
    assert n * k == n * q - n * (a / n);
    Bound(n, k);
  }

  lemma {:induction false} ModAdd(a: int, k: int, n: int)
    requires n > 0
    ensures (a + n * k) % n == a % n
  {
    DivMod(a, n);
    assert n * (a / n + k) == n * (a / n) + n * k;
    ModUnique(a + n * k, a / n + k, a % n, n);
  }

  lemma {:induction false} ModEqual(a: int, b: int, n: int) returns (k: int)
    requires n > 0 && a % n == b % n
    ensures a - b == n * k
  {
    DivMod(a, n);
    DivMod(b, n);
    k := a / n - b / n;
    assert n * k == n * (a / n) - n * (b / n);
  }

  /** Numbers closer than the modulus are equal if they are congruent. */
  lemma {:induction false} ModCancel(a: int, b: int, n: int)
    requires n > 0 && a % n == b % n && -n < a - b < n
    ensures a == b
  {
    var k := ModEqual(a, b, n);
    Bound(n, k);
  }

  /** Stepping to the next number raises the quotient exactly at a multiple. */
  lemma {:induction false} DivStep(a: int, n: int)
    requires n > 0
    ensures a / n - (a - 1) / n == if a % n == 0 then 1 else 0
  {
    DivMod(a - 1, n);
    var q, r := (a - 1) / n, (a - 1) % n;
    if r + 1 == n {
      assert n * (q + 1) == n * q + n;
      ModUnique(a, q + 1, 0, n);
    } else {
      ModUnique(a, q, r + 1, n);
    }
  }

  /** A multiple of a multiple. */
  lemma {:induction false} Multiple(a: int, n: int, k: int)
    requires n > 0 && k > 0 && n * k > 0 && a % (n * k) == 0
    ensures a % n == 0
  {
    DivMod(a, n * k);
    var q := a / (n * k);
    assert a == n * k * q == n * (k * q);
    ModUnique(a, k * q, 0, n);
  }

  lemma {:induction false} ModSum(a: int, b: int, n: int)
    requires n > 0
    ensures (a % n + b % n) % n == (a + b) % n
  {
    DivMod(a, n);
    DivMod(b, n);
    assert n * (a / n + b / n) == n * (a / n) + n * (b / n);
    ModAdd(a % n + b % n, a / n + b / n, n);
  }

  /**
   The remainder by repeated subtraction. It is `a % n`; proofs that only pass
   remainders along use this form to stay out of nonlinear arithmetic.
   */
  function Rem(a: nat, n: nat): (r: nat)
    requires n > 0
    ensures r < n
    decreases a
  {
    if a < n then a else Rem(a - n, n)
  }

  lemma {:induction false} RemAtMost(a: nat, n: nat)
    requires n > 0
    ensures Rem(a, n) <= a
    decreases a
  {
    if a >= n { RemAtMost(a - n, n); }
  }

  lemma {:induction false} RemIsMod(a: nat, n: nat)
    requires n > 0
    ensures Rem(a, n) == a % n
    decreases a
  {
    if a < n {
      ModUnique(a, 0, a, n);
    } else {
      RemIsMod(a - n, n);
      ModAdd(a - n, 1, n);
    }
  }
}
