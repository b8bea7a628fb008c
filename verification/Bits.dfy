/** Natural numbers as bit strings. */
module Bits {
  /** Bit `i` of `x`. */
  predicate Bit(x: nat, i: nat)
    decreases i
  {
    if i == 0 then x % 2 == 1 else Bit(x / 2, i - 1)
  }

  function AndNot(a: nat, b: nat): (r: nat)
    ensures r <= a
    decreases a
  {
    if a == 0 then 0 else (if b % 2 == 1 then 0 else a % 2) + 2 * AndNot(a / 2, b / 2)
  }

  function Or(a: nat, b: nat): nat
    decreases a + b
  {
    if a == 0 then b else if b == 0 then a
    else (if a % 2 == 1 || b % 2 == 1 then 1 else 0) + 2 * Or(a / 2, b / 2)
  }

  function Pow2(n: nat): (r: nat)
    ensures r > 0
  {
    if n == 0 then 1 else 2 * Pow2(n - 1)
  }

  lemma {:induction false} Pow2Sum(a: nat, b: nat)
    ensures Pow2(a + b) == Pow2(a) * Pow2(b)
  {
    if a != 0 {
      Pow2Sum(a - 1, b);
      assert a + b - 1 == a - 1 + b;
    }
  }

  lemma {:induction false} Doubled(n: nat, v: nat) returns (m: nat)
    requires Pow2(n) == v
    ensures Pow2(m) == v * v
  {
    Pow2Sum(n, n);
    m := n + n;
  }

  lemma {:induction false} OrBelow(a: nat, b: nat, n: nat)
    requires a < Pow2(n) && b < Pow2(n)
    ensures Or(a, b) < Pow2(n)
  {
    if a != 0 && b != 0 {
      assert n != 0;
      OrBelow(a / 2, b / 2, n - 1);
    }
  }

  /** Bit `i` is the binary digit of weight 2^i. */
  lemma {:induction false} BitAt(x: nat, i: nat)
    ensures Bit(x, i) <==> x / Pow2(i) % 2 == 1
    decreases i
  {
    if i > 0 {
      BitAt(x / 2, i - 1);
      HalfThenRest(x, Pow2(i - 1));
    }
  }

  lemma {:induction false} HalfThenRest(x: nat, p: nat)
    requires p > 0
    ensures x / 2 / p == x / (2 * p)
  {
    var q, r := x / 2 / p, x / 2 % p;
    assert x / 2 == q * p + r;
    var s := x % 2;
    assert x == q * (2 * p) + (2 * r + s);
    assert 0 <= 2 * r + s < 2 * p;
    Quotient(x, 2 * p, q, 2 * r + s);
  }

  lemma {:induction false} Quotient(x: nat, n: nat, q: nat, r: nat)
    requires n > 0 && x == q * n + r && r < n
    ensures x / n == q
  {
    var d := x / n - q;
    assert (x / n) * n + x % n == x;
    assert d * n == r - x % n;
  }

  lemma {:induction false} ZeroBit(i: nat)
    ensures !Bit(0, i)
  {
    if i != 0 { ZeroBit(i - 1); }
  }

  lemma {:induction false} AndNotBit(a: nat, b: nat, i: nat)
    ensures Bit(AndNot(a, b), i) <==> Bit(a, i) && !Bit(b, i)
    decreases i
  {
    if a == 0 {
      ZeroBit(i);
    } else {
      assert AndNot(a, b) / 2 == AndNot(a / 2, b / 2);
      if i != 0 { AndNotBit(a / 2, b / 2, i - 1); }
    }
  }

  lemma {:induction false} OrBit(a: nat, b: nat, i: nat)
    ensures Bit(Or(a, b), i) <==> Bit(a, i) || Bit(b, i)
    decreases i
  {
    if a == 0 || b == 0 {
      ZeroBit(i);
    } else {
      assert Or(a, b) / 2 == Or(a / 2, b / 2);
      if i != 0 { OrBit(a / 2, b / 2, i - 1); }
    }
  }

  lemma {:induction false} MultipleBit(x: nat, k: nat, i: nat)
    ensures Bit(x * Pow2(k), i) <==> i >= k && Bit(x, i - k)
    decreases k
  {
    if k != 0 {
      assert x * Pow2(k) == 2 * (x * Pow2(k - 1));
      if i != 0 { MultipleBit(x, k - 1, i - 1); }
    }
  }

  lemma {:induction false} HighBit(x: nat, k: nat, i: nat)
    requires x < Pow2(k) && i >= k
    ensures !Bit(x, i)
    decreases k
  {
    if k == 0 {
      ZeroBit(i);
    } else {
      HighBit(x / 2, k - 1, i - 1);
    }
  }

  function Xor(a: nat, b: nat): nat
    decreases a + b
  {
    if a == 0 then b else if b == 0 then a else (a + b) % 2 + 2 * Xor(a / 2, b / 2)
  }

  lemma {:induction false} HalfXor(a: nat, b: nat)
    requires a != 0 && b != 0
    ensures Xor(a, b) / 2 == Xor(a / 2, b / 2) && (Xor(a, b) % 2 == 1 <==> a % 2 != b % 2)
  {
    assert (a + b) % 2 == 1 <==> a % 2 != b % 2;
  }

  lemma {:induction false} XorBit(a: nat, b: nat, i: nat)
    ensures Bit(Xor(a, b), i) <==> Bit(a, i) != Bit(b, i)
    decreases i
  {
    if a == 0 || b == 0 {
      ZeroBit(i);
    } else {
      HalfXor(a, b);
      if i != 0 { XorBit(a / 2, b / 2, i - 1); }
    }
  }

  lemma {:induction false} XorBelow(a: nat, b: nat, n: nat)
    requires a < Pow2(n) && b < Pow2(n)
    ensures Xor(a, b) < Pow2(n)
  {
    if a != 0 && b != 0 {
      XorBelow(a / 2, b / 2, n - 1);
    }
  }

  /** The operations stay within a byte. */
  lemma {:induction false} ByteOps(a: nat, b: nat)
    requires a < 256 && b < 256
    ensures Or(a, b) < 256 && Xor(a, b) < 256
  {
    assert Pow2(8) == 256;
    OrBelow(a, b, 8);
    XorBelow(a, b, 8);
  }
}
