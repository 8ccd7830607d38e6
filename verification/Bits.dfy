// Machine words as numbers: division, and the bitwise operators.
module Bits {
  import opened Common

  // ---- division ----

  lemma MulIsMonotone(x: int, y: int, d: nat)
    requires x <= y
    ensures x * d <= y * d
  {
  }

  // The quotient and remainder are the only ones.
  lemma DivisionIs(a: int, d: int, q: int, r: int)
    requires d > 0 && a == q * d + r && 0 <= r < d
    ensures a / d == q && a % d == r
  {
    var k := a / d;
    assert a == k * d + a % d;
    if k < q {
      MulIsMonotone(k + 1, q, d);
    } else if q < k {
      MulIsMonotone(q + 1, k, d);
    }
  }

  lemma Regroup(q: int, d: int, r: int, c: int)
    ensures (q * d + r) * c == q * (c * d) + r * c
  {
    assert (q * d) * c == q * (c * d);
  }

  lemma ProductPositive(c: int, d: int)
    requires c > 0 && d > 0
    ensures c * d > 0
  {
  }

  // Dividing twice is dividing by the product.
  lemma DivideTwice(a: int, c: int, d: int)
    requires c > 0 && d > 0
    ensures c * d > 0 && a / c / d == a / (c * d) && a % (c * d) == a / c % d * c + a % c
  {
    ProductPositive(c, d);
    var u, v := a / c, a % c;
    var q, r := u / d, u % d;
    Regroup(q, d, r, c);
    MulIsMonotone(r, d - 1, c);
    MulIsMonotone(0, r, c);
    Regroup(1, d, -1, c);
    assert 0 <= r * c + v < c * d;
    assert a == q * (c * d) + (r * c + v);
    DivisionIs(a, c * d, q, r * c + v);
  }

  lemma QuotientInRange(x: int, d: int)
    requires d > 0
    ensures if x < 0 then x <= x / d < 0 else 0 <= x / d <= x
  {
    var q := x / d;
    assert x == q * d + x % d;
    if q < 0 {
      MulIsMonotone(1, d, -q - 1);
      Regroup(1, q, 1, d);
      MulIsMonotone(q, -1, d);
    } else {
      MulIsMonotone(1, d, q);
      MulIsMonotone(0, q, d);
    }
  }

  // ---- bitwise operators ----

  function BitAnd(a: nat, b: nat): nat {
    if a == 0 || b == 0 then 0
    else 2 * BitAnd(a / 2, b / 2) + (if a % 2 == 1 && b % 2 == 1 then 1 else 0)
  }

  function BitOr(a: nat, b: nat): nat
    decreases a + b
  {
    if a == 0 then b
    else if b == 0 then a
    else 2 * BitOr(a / 2, b / 2) + (if a % 2 == 1 || b % 2 == 1 then 1 else 0)
  }

  lemma {:induction false} OrCommutes(a: nat, b: nat)
    ensures BitOr(a, b) == BitOr(b, a)
    decreases a
  {
    if a != 0 && b != 0 {
      OrCommutes(a / 2, b / 2);
    }
  }

  // Bit n of the two's complement form of a.
  predicate BitOf(a: int, n: nat)
    decreases n
  {
    if n == 0 then a % 2 == 1 else BitOf(a / 2, n - 1)
  }

  lemma {:induction false} BitOfIs(a: int, n: nat)
    ensures BitOf(a, n) == (a / Pow2(n) % 2 == 1)
    decreases n
  {
    if n > 0 {
      BitOfIs(a / 2, n - 1);
      DivideTwice(a, 2, Pow2(n - 1));
    }
  }

  lemma HalfOfMultiple(b: int, k: nat)
    requires k > 0 && b % Pow2(k) == 0
    ensures b % 2 == 0 && (b / 2) % Pow2(k - 1) == 0
  {
    DivideTwice(b, 2, Pow2(k - 1));
    MulIsMonotone(0, b / 2 % Pow2(k - 1), 2);
  }

  // Words without a common bit: below k, and from k on.
  lemma {:induction false} OrOfDisjoint(a: nat, b: nat, k: nat)
    requires a < Pow2(k) && b % Pow2(k) == 0
    ensures BitOr(a, b) == a + b
  {
    if a != 0 && b != 0 {
      HalfOfMultiple(b, k);
      OrOfDisjoint(a / 2, b / 2, k - 1);
    }
  }

  // A mask of the k low bits.
  lemma {:induction false} AndLowMask(a: nat, k: nat)
    ensures BitAnd(a, Pow2(k) - 1) == a % Pow2(k)
  {
    if k > 0 {
      AndLowMask(a / 2, k - 1);
      DivideTwice(a, 2, Pow2(k - 1));
      assert (Pow2(k) - 1) / 2 == Pow2(k - 1) - 1;
    }
  }

  // A mask of all bits but the k low ones, in a word of m bits.
  lemma {:induction false} AndHighMask(a: nat, k: nat, m: nat)
    requires k <= m && a < Pow2(m)
    ensures Pow2(m) >= Pow2(k) && BitAnd(a, Pow2(m) - Pow2(k)) == a - a % Pow2(k)
  {
    if k == 0 {
      AndLowMask(a, m);
      DivisionIs(a, Pow2(m), 0, a);
    } else {
      AndHighMask(a / 2, k - 1, m - 1);
      DivideTwice(a, 2, Pow2(k - 1));
      assert (Pow2(m) - Pow2(k)) / 2 == Pow2(m - 1) - Pow2(k - 1) && (Pow2(m) - Pow2(k)) % 2 == 0;
    }
  }

  lemma {:induction false} AndOneBit(a: nat, n: nat)
    ensures BitAnd(a, Pow2(n)) == if BitOf(a, n) then Pow2(n) else 0
  {
    if n > 0 {
      AndOneBit(a / 2, n - 1);
    } else {
      assert BitAnd(a / 2, 0) == 0;
    }
  }

  lemma {:induction false} NoBits(n: nat)
    ensures !BitOf(0, n)
  {
    if n > 0 {
      NoBits(n - 1);
    }
  }

  lemma {:induction false} OrOneBit(a: nat, n: nat)
    ensures BitOr(a, Pow2(n)) == if BitOf(a, n) then a else a + Pow2(n)
  {
    if a == 0 {
      NoBits(n);
    } else if n > 0 {
      OrOneBit(a / 2, n - 1);
    } else {
      assert BitOr(a / 2, 0) == a / 2;
    }
  }

  lemma AndStep(a: nat, h: nat, c: nat)
    requires c < 2
    ensures BitAnd(a, 2 * h + c) == 2 * BitAnd(a / 2, h) + (if a % 2 == 1 && c == 1 then 1 else 0)
  {
    var b := 2 * h + c;
    assert b / 2 == h && b % 2 == c;
  }

  // A mask of all bits but bit n, in a word of m bits.
  lemma {:induction false} AndAllButOne(a: nat, n: nat, m: nat)
    requires n < m && a < Pow2(m)
    ensures Pow2(m) - 1 >= Pow2(n) && BitAnd(a, Pow2(m) - 1 - Pow2(n)) == if BitOf(a, n) then a - Pow2(n) else a
  {
    Pow2Grows(n, m);
    if n > 0 {
      AndAllButOne(a / 2, n - 1, m - 1);
      AndStep(a, Pow2(m - 1) - 1 - Pow2(n - 1), 1);
    } else {
      AndLowMask(a / 2, m - 1);
      DivisionIs(a / 2, Pow2(m - 1), 0, a / 2);
      AndStep(a, Pow2(m - 1) - 1, 0);
    }
  }

  // ---- more about division ----

  lemma MaskedQuotient(a: nat, d: int)
    requires d > 0
    ensures (a - a % d) / d == a / d
  {
    DivisionIs(a - a % d, d, a / d, 0);
  }

  lemma QuotientBelow(a: nat, d: int, e: int)
    requires e > 0 && a < d * e
    ensures 0 <= a / e < d && a / e * e <= d * e - e
  {
    var q := a / e;
    QuotientInRange(a, e);
    if q >= d {
      MulIsMonotone(d, q, e);
    }
    MulIsMonotone(q, d - 1, e);
    Regroup(1, d, -1, e);
  }

  lemma RemainderOfSum(x: int, k: int, d: int, p: int)
    requires p > 0
    ensures (x - k * (d * p)) % p == x % p
  {
    var q := x / p;
    Regroup(1, q, -(k * d), p);
    Regroup(k, d, 0, p);
    assert -(k * d) * p == -(k * (d * p));
    DivisionIs(x - k * (d * p), p, q - k * d, x % p);
  }

  lemma NextDigit(a: int, p: int)
    requires p > 0
    ensures a % (2 * p) == a % p + (if a / p % 2 == 1 then p else 0) && a / (2 * p) == a / p / 2
  {
    DivideTwice(a, p, 2);
    assert a / p % 2 == 0 || a / p % 2 == 1;
  }

  lemma Distribute(q: int, k: int, y: int)
    ensures (q - k) * y == q * y - k * y
  {
  }

  lemma SmallMultiple(k: int, y: int)
    requires y > 0 && -y < k * y < y
    ensures k == 0
  {
    if k > 0 {
      MulIsMonotone(1, k, y);
    } else if k < 0 {
      MulIsMonotone(k, -1, y);
    }
  }
}
