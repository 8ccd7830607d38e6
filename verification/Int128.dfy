// 128-bit integers in two machine words.
module Int128s {
  import opened Common
  import opened Bits

  const W: int := 0x1_0000_0000_0000_0000
  const H: int := 0x8000_0000_0000_0000
  const M: int := 0x1_0000_0000_0000_0000_0000_0000_0000_0000
  const MIN: int := -0x8000_0000_0000_0000_0000_0000_0000_0000

  // uint64_t and int64_t
  type Word = x: int | 0 <= x < 0x1_0000_0000_0000_0000
  type Signed = x: int | -0x8000_0000_0000_0000 <= x < 0x8000_0000_0000_0000

  function ToWord(x: int): Word {
    x % W
  }

  function ToSigned(x: int): Signed {
    (x + H) % W - H
  }

  // The 128-bit two's complement number that x wraps around to.
  function Wrap(x: int): int {
    (x - MIN) % M + MIN
  }

  predicate Fits(x: int) {
    MIN <= x < -MIN
  }

  // Wrap keeps the number modulo 2^128, and nothing else does.
  lemma WrapIs(x: int, y: int, k: int)
    requires Fits(y) && x == y + k * M
    ensures Wrap(x) == y
  {
    DivisionIs(x - MIN, M, k, y - MIN);
  }

  lemma WrapBy(x: int) returns (k: int)
    ensures x == Wrap(x) + k * M && Fits(Wrap(x))
  {
    k := (x - MIN) / M;
  }

  lemma SignedBy(x: int) returns (k: int)
    ensures x == ToSigned(x) + k * W
  {
    k := (x + H) / W;
  }

  lemma WordBy(x: int) returns (k: int)
    ensures x == ToWord(x) + k * W
  {
    k := x / W;
  }

  // The carry out of the sum of two words shows in the sum being less than either.
  lemma Carry(a: Word, b: Word)
    ensures ToWord(a + b) == if ToWord(a + b) < a then a + b - W else a + b
  {
    DivisionIs(a + b, W, if a + b < W then 0 else 1, if a + b < W then a + b else a + b - W);
  }

  lemma WordIsPow2()
    ensures W == Pow2(64)
  {
    assert Pow2(4) == 16;
    Pow2Add(4, 4);
    Pow2Add(8, 8);
    Pow2Add(16, 16);
    Pow2Add(32, 32);
  }

  lemma NumberIsPow2()
    ensures M == Pow2(128)
  {
    WordIsPow2();
    Pow2Add(64, 64);
  }

  // << on uint64_t and on the two's complement form of int64_t
  function ShiftedLeft(x: int, n: nat): Word {
    ToWord(x * Pow2(n))
  }

  // >> on uint64_t, and arithmetically on int64_t
  function ShiftedRight(x: int, n: nat): int {
    x / Pow2(n)
  }

  // The n top bits of the low word, as the shift to the left moves them.
  function TopBits(lo: Word, n: nat): nat
    requires 0 < n < 64
  {
    WordIsPow2();
    AndHighMask(lo, 64 - n, 64);
    var masked := BitAnd(lo, W - 1 - (Pow2(64 - n) - 1));
    QuotientInRange(masked, Pow2(64 - n));
    masked / Pow2(64 - n)
  }

  lemma TopBitsAre(lo: Word, n: nat)
    requires 0 < n < 64
    ensures TopBits(lo, n) == lo / Pow2(64 - n)
  {
    WordIsPow2();
    AndHighMask(lo, 64 - n, 64);
    var d := Pow2(64 - n);
    MaskedQuotient(lo, d);
  }

  // A product with p, split at W == p * d.
  lemma ShiftOut(x: nat, p: int, d: int)
    requires p > 0 && d > 0 && p * d == W && x < W
    ensures 0 <= x / d < p && x * p == x / d * W + x * p % W
  {
    var top, low := x / d, x % d;
    QuotientInRange(x, d);
    if top >= p {
      MulIsMonotone(p, top, d);
    }
    Regroup(top, d, low, p);
    LowPartStaysLow(low, p, d);
    DivisionIs(x * p, W, top, low * p);
  }

  lemma LowPartStaysLow(low: nat, p: int, d: int)
    requires p > 0 && low < d && p * d == W
    ensures 0 <= low * p < W
  {
    MulIsMonotone(low, d - 1, p);
    MulIsMonotone(0, low, p);
    Regroup(1, d, -1, p);
  }

  lemma ShiftedLeftIsMultiple(x: int, n: nat)
    requires n < 64
    ensures ShiftedLeft(x, n) % Pow2(n) == 0
  {
    WordIsPow2();
    Pow2Add(n, 64 - n);
    var p, d := Pow2(n), Pow2(64 - n);
    DivideTwice(x * p, p, d);
    DivisionIs(x * p, p, x, 0);
    assert ShiftedLeft(x, n) == x % d * p;
    DivisionIs(x % d * p, p, x % d, 0);
  }

  lemma ShiftLeftWords(lo: Word, hi: Signed, n: nat) returns (k: int)
    requires 0 < n < 64
    ensures (hi * W + lo) * Pow2(n)
      == ToSigned(BitOr(ShiftedLeft(hi, n), TopBits(lo, n))) * W + ShiftedLeft(lo, n) + k * M
  {
    var high, top, p := ShiftedLeft(hi, n), TopBits(lo, n), Pow2(n);
    WordIsPow2();
    Pow2Add(n, 64 - n);
    TopBitsAre(lo, n);
    ShiftOut(lo, p, Pow2(64 - n));
    ShiftedLeftIsMultiple(hi, n);
    OrOfDisjoint(top, high, n);
    OrCommutes(top, high);
    var i := WordBy(hi * p);
    var j := SignedBy(BitOr(high, top));
    k := i + j;
    ShiftedSum(hi, lo, p, ToSigned(BitOr(high, top)), top, ShiftedLeft(lo, n), k);
  }

  lemma ShiftedSum(hi: int, lo: int, p: int, h: int, top: int, l: int, k: int)
    requires hi * p + top == h + k * W && lo * p == top * W + l
    ensures (hi * W + lo) * p == h * W + l + k * M
  {
    var x := hi * p;
    Regroup(hi, W, lo, p);
    assert hi * (p * W) == x * W;
  }

  lemma ShiftLeftByWords(lo: Word, n: nat) returns (k: int)
    requires 64 <= n < 128
    ensures lo * Pow2(n) == ToSigned(ShiftedLeft(lo, n - 64)) * W + k * M
  {
    WordIsPow2();
    Pow2Add(n - 64, 64);
    var i := WordBy(lo * Pow2(n - 64));
    var j := SignedBy(ShiftedLeft(lo, n - 64));
    k := i + j;
    Regroup(0, 1, lo * Pow2(n - 64), W);
  }

  // The n low bits of the high word move to the top of the low word, and the low word's stay below.
  lemma ShiftRightWords(lo: Word, hi: Signed, n: nat)
    requires 0 < n < 64
    ensures ShiftedRight(lo, n) >= 0
    ensures var low := BitOr(ShiftedRight(lo, n), ShiftedLeft(BitAnd(ToWord(hi), Pow2(n) - 1), 64 - n));
      low < W && (hi * W + lo) / Pow2(n) == ShiftedRight(hi, n) * W + low
  {
    WordIsPow2();
    Pow2Add(n, 64 - n);
    var p, d := Pow2(n), Pow2(64 - n);
    AndLowMask(ToWord(hi), n);
    var r := LowBitsOfWord(hi, n);
    MovedUp(r, p, d);
    QuotientInRange(lo, p);
    ShiftOut(lo, d, p);
    OrOfDisjoint(lo / p, r * d, 64 - n);
    ShiftRightSum(lo, hi, p, d);
  }

  lemma MovedUp(r: nat, p: int, d: int)
    requires p > 0 && d > 0 && p * d == W && r < p
    ensures r * d % W == r * d <= W - d && r * d % d == 0
  {
    MulIsMonotone(r, p - 1, d);
    MulIsMonotone(0, r, d);
    Regroup(1, p, -1, d);
    DivisionIs(r * d, W, 0, r * d);
    DivisionIs(r * d, d, r, 0);
  }

  lemma LowBitsOfWord(hi: Signed, n: nat) returns (r: nat)
    requires n < 64
    ensures r == ToWord(hi) % Pow2(n) == hi % Pow2(n) && r < Pow2(n)
  {
    WordIsPow2();
    Pow2Add(64 - n, n);
    var p, d := Pow2(n), Pow2(64 - n);
    r := hi % p;
    var k := WordBy(hi);
    RemainderOfSum(hi, k, d, p);
  }

  lemma ShiftRightSum(lo: Word, hi: Signed, p: int, d: int)
    requires p > 0 && d > 0 && p * d == W
    ensures (hi * W + lo) / p == hi / p * W + hi % p * d + lo / p
  {
    var q, r := hi / p, hi % p;
    Regroup(q, p, r, W);
    assert r * W == r * d * p && q * (W * p) == q * W * p;
    assert hi * W + lo == (q * W + r * d + lo / p) * p + lo % p by {
      assert hi * W == q * W * p + r * d * p;
    }
    DivisionIs(hi * W + lo, p, q * W + r * d + lo / p, lo % p);
  }

  lemma ShiftRightByWords(lo: Word, hi: Signed, n: nat)
    requires 64 <= n < 128
    ensures (hi * W + lo) / Pow2(n) == (if hi < 0 then -W else 0) + ToWord(ShiftedRight(hi, n - 64))
  {
    WordIsPow2();
    Pow2Add(64, n - 64);
    DivideTwice(hi * W + lo, W, Pow2(n - 64));
    DivisionIs(hi * W + lo, W, hi, lo);
    var q := hi / Pow2(n - 64);
    QuotientInRange(hi, Pow2(n - 64));
    DivisionIs(q, W, if hi < 0 then -1 else 0, if hi < 0 then q + W else q);
  }


  // ---- single bits ----

  lemma {:induction false} Pow2Even(n: nat)
    requires n > 0
    ensures Pow2(n) == 2 * Pow2(n - 1)
  {
  }

  // Adding a multiple of a higher power leaves bit n alone.
  lemma {:induction false} BitOfSum(x: int, y: int, n: nat, m: nat)
    requires n < m
    ensures BitOf(y * Pow2(m) + x, n) == BitOf(x, n)
    decreases n
  {
    Pow2Even(m);
    var z := y * Pow2(m - 1);
    Monomial(y, 1, Pow2(m - 1));
    assert y * Pow2(m) + x == 2 * z + x;
    if n > 0 {
      BitOfSum(x / 2, y, n - 1, m - 1);
    }
  }

  lemma Monomial(y: int, p: int, e: int)
    ensures y * (p * (2 * e)) == 2 * (y * e) * p
  {
  }

  // Bits from place n on are those of the number without its n low bits.
  lemma {:induction false} BitOfQuotient(x: int, n: nat, i: nat)
    ensures BitOf(x, n + i) == BitOf(x / Pow2(n), i)
    decreases n
  {
    if n > 0 {
      BitOfQuotient(x / 2, n - 1, i);
      DivideTwice(x, 2, Pow2(n - 1));
    }
  }

  lemma BitOfWords(lo: Word, hi: Signed, n: nat)
    requires n < 128
    ensures BitOf(hi * W + lo, n) == if n < 64 then BitOf(lo, n) else BitOf(ToWord(hi), n - 64)
  {
    WordIsPow2();
    if n < 64 {
      BitOfSum(lo, hi, n, 64);
    } else {
      BitOfQuotient(hi * W + lo, 64, n - 64);
      DivisionIs(hi * W + lo, W, hi, lo);
      var k := WordBy(hi);
      BitOfSum(ToWord(hi), k, n - 64, 64);
    }
  }

  // The low word with bit n set or cleared.
  function WordWithBit(w: Word, n: nat, val: bool): nat
    requires n < 64
  {
    WordIsPow2();
    Pow2Grows(n, 64);
    if val then BitOr(w, Pow2(n)) else BitAnd(w, W - 1 - Pow2(n))
  }

  lemma WordWithBitIs(w: Word, n: nat, val: bool)
    requires n < 64
    ensures WordWithBit(w, n, val) == if BitOf(w, n) == val then w else if val then w + Pow2(n) else w - Pow2(n)
    ensures 0 <= WordWithBit(w, n, val) < W
  {
    WordIsPow2();
    Pow2Grows(n, 64);
    OrOneBit(w, n);
    AndAllButOne(w, n, 64);
    if val && !BitOf(w, n) {
      RoomForBit(w, n);
    }
  }

  // A word with bit n clear has room for it.
  lemma RoomForBit(w: Word, n: nat)
    requires n < 64 && !BitOf(w, n)
    ensures w + Pow2(n) < W
  {
    WordIsPow2();
    Pow2Add(63 - n, n + 1);
    Pow2Even(n + 1);
    BitOfIs(w, n);
    ClearBitLeavesRoom(w, Pow2(n), Pow2(63 - n));
  }

  lemma ClearBitLeavesRoom(w: Word, p: int, d: int)
    requires p > 0 && d > 0 && d * (2 * p) == W && w / p % 2 == 0
    ensures w + p < W
  {
    DivideTwice(w, p, 2);
    assert w % (2 * p) < p;
    QuotientBelow(w, d, 2 * p);
  }

  // The high word leaves the number when it is shifted by a whole word or more.
  lemma HighWordFalls(lo: Word, hi: Signed, n: nat) returns (k: int)
    requires 64 <= n
    ensures (hi * W + lo) * Pow2(n) == lo * Pow2(n) + k * M
  {
    WordIsPow2();
    Pow2Add(n - 64, 64);
    k := hi * Pow2(n - 64);
    Regroup(hi, W, lo, Pow2(n));
    HighProduct(hi, Pow2(n - 64));
  }

  lemma HighProduct(hi: int, p: int)
    ensures hi * (W * (p * W)) == hi * p * M
  {
    assert hi * (W * (p * W)) == (hi * p) * (W * W);
  }

  // Nothing but the sign is left of a number shifted by its own width.
  lemma QuotientOfSmall(v: int, n: nat)
    requires Fits(v) && n >= 128
    ensures v / Pow2(n) == if v < 0 then -1 else 0
  {
    NumberIsPow2();
    if n > 128 {
      Pow2Grows(128, n);
    }
    DivisionIs(v, Pow2(n), if v < 0 then -1 else 0, if v < 0 then v + Pow2(n) else v);
  }

  // The number with bit n set or cleared.
  function NumberWithBit(v: int, n: nat, val: bool): int {
    if BitOf(v, n) == val then v else if val then Wrap(v + Pow2(n)) else Wrap(v - Pow2(n))
  }

  lemma SetLowBit(lo: Word, hi: Signed, n: nat, val: bool)
    requires n < 64
    ensures WordWithBit(lo, n, val) < W && hi * W + WordWithBit(lo, n, val) == NumberWithBit(hi * W + lo, n, val)
  {
    BitOfWords(lo, hi, n);
    WordWithBitIs(lo, n, val);
    var v := hi * W + WordWithBit(lo, n, val);
    WrapIs(v, v, 0);
  }

  // Nothing is left of a number shifted to the left by its own width.
  lemma ShiftedAway(v: int, n: nat)
    requires n >= 128
    ensures Wrap(v * Pow2(n)) == 0
  {
    NumberIsPow2();
    Pow2Add(n - 128, 128);
    Regroup(v, Pow2(n - 128), 0, M);
    WrapIs(v * Pow2(n), 0, v * Pow2(n - 128));
  }

  lemma SetHighBit(lo: Word, hi: Signed, n: nat, val: bool)
    requires 64 <= n < 128
    ensures ToSigned(WordWithBit(ToWord(hi), n - 64, val)) * W + lo == NumberWithBit(hi * W + lo, n, val)
  {
    var v, h, p := hi * W + lo, ToWord(hi), Pow2(n - 64);
    var w := WordWithBit(h, n - 64, val);
    BitOfWords(lo, hi, n);
    WordWithBitIs(h, n - 64, val);
    HighPower(n);
    if BitOf(v, n) == val {
      WrapIs(v, v, 0);
      assert v + (w - h) * W == v;
    } else {
      assert (w - h) * W == if val then p * W else -(p * W);
    }
    HighWordWrap(lo, hi, w);
  }

  lemma HighPower(n: nat)
    requires n >= 64
    ensures Pow2(n) == Pow2(n - 64) * W
  {
    WordIsPow2();
    Pow2Add(n - 64, 64);
  }

  // A new high word changes the number by as much as the high word, modulo 2^128.
  lemma HighWordWrap(lo: Word, hi: Signed, w: Word)
    ensures Wrap(hi * W + lo + (w - ToWord(hi)) * W) == ToSigned(w) * W + lo
  {
    var k := WordBy(hi);
    var j := SignedBy(w);
    WrapIs(hi * W + lo + (w - ToWord(hi)) * W, ToSigned(w) * W + lo, k + j);
  }

  lemma LowestBitOr(lo: Word, hi: Signed)
    requires (hi * W + lo) % 2 == 0
    ensures BitOr(lo, 1) == lo + 1 < W
  {
    assert lo % 2 == 0;
    OrOneBit(lo, 0);
  }


  // ---- products ----

  // One more bit of b.
  lemma NextBit(b: int, i: nat)
    ensures b % Pow2(i + 1) == b % Pow2(i) + (if BitOf(b, i) then Pow2(i) else 0)
  {
    BitOfIs(b, i);
    Pow2Even(i + 1);
    NextDigit(b, Pow2(i));
  }

  // What is left of d when its n low bits are gone.
  function Prefix(d: int, n: nat): int {
    if n == 0 then d else Prefix(d, n - 1) / 2
  }

  lemma {:induction false} PrefixIs(d: int, n: nat)
    ensures Prefix(d, n) == d / Pow2(n)
  {
    if n > 0 {
      PrefixIs(d, n - 1);
      Pow2Even(n);
      DivideTwice(d, Pow2(n - 1), 2);
    }
  }

  lemma NothingLeft(d: int)
    requires 0 <= d < -MIN
    ensures Prefix(d, 128) == 0
  {
    PrefixIs(d, 128);
    NumberIsPow2();
    DivisionIs(d, M, 0, d);
  }

  // The prefix that ends in bit n - 1.
  lemma {:induction false} PrefixStep(d: int, n: nat)
    requires n > 0 && 0 <= d
    ensures Prefix(d, n - 1) == 2 * Prefix(d, n) + (if BitOf(d, n - 1) then 1 else 0)
      && 0 <= Prefix(d, n) <= Prefix(d, n - 1) <= d
  {
    PrefixIs(d, n - 1);
    BitOfIs(d, n - 1);
    QuotientInRange(d, Pow2(n - 1));
  }

  lemma PrefixBit(d: int, n: nat)
    ensures BitOf(d, n) == BitOf(Prefix(d, n), 0)
  {
    PrefixIs(d, n);
    BitOfIs(d, n);
  }

  lemma LowestBit(lo: Word, hi: Signed)
    ensures BitAnd(lo, 1) != 0 <==> BitOf(hi * W + lo, 0)
  {
    BitOfWords(lo, hi, 0);
    AndOneBit(lo, 0);
  }

  // x is the product of a and the i low bits of b, as far as 128 bits go.
  ghost predicate PartialProduct(x: int, a: int, b: int, i: nat) {
    Fits(x) && exists k :: a * (b % Pow2(i)) == x + k * M
  }

  lemma PartialProductGrows(x: int, a: int, b: int, i: nat)
    requires PartialProduct(x, a, b, i)
    ensures PartialProduct(if BitOf(b, i) then Wrap(x + Wrap(a * Pow2(i))) else x, a, b, i + 1)
  {
    NextBit(b, i);
    var k :| a * (b % Pow2(i)) == x + k * M;
    if BitOf(b, i) {
      var j := WrapBy(a * Pow2(i));
      var l := WrapBy(x + Wrap(a * Pow2(i)));
      SumWitness(a, b % Pow2(i), Pow2(i), x, Wrap(x + Wrap(a * Pow2(i))), k, j, l);
    }
  }

  lemma SumWitness(a: int, low: int, p: int, x: int, y: int, k: int, j: int, l: int)
    requires a * low == x + k * M && x + a * p - j * M == y + l * M
    ensures a * (low + p) == y + (k + j + l) * M
  {
    Regroup(low, 1, p, a);
  }

  lemma FullProduct(x: int, a: int, b: int)
    requires PartialProduct(x, a, b, 128)
    ensures x == Wrap(a * b)
  {
    NumberIsPow2();
    var k :| a * (b % M) == x + k * M;
    var q := b / M;
    Regroup(q, M, b % M, a);
    WrapIs(a * b, x, k + q * a);
  }

  // ---- quotients ----

  function Decremented(b: nat): nat {
    if b == 0 then 0xFFFF_FFFF else b - 1
  }

  function Incremented(b: nat): nat {
    if b == 0xFFFF_FFFF then 0 else b + 1
  }

  // Long division down to bit b: the prefix of d divided by s leaves r, and q holds the quotient p in its high bits.
  ghost predicate Quotient(d: int, s: int, b: nat, q: int, r: int, p: nat) {
    q == p * Pow2(b) && Prefix(d, b) == p * s + r && 0 <= r < 2 * s && (r >= s ==> p % 2 == 0)
  }

  // Room in the words of q and r.
  lemma QuotientFits(d: int, s: int, b: nat, q: int, r: int, p: nat)
    requires 0 <= d && 0 < s && Quotient(d, s, b, q, r, p)
    ensures r <= Prefix(d, b) <= d && 0 <= q <= d
    ensures r >= s ==> q + Pow2(b) <= d
  {
    var e := Pow2(b);
    var prefix := d / e;
    PrefixIs(d, b);
    QuotientInRange(d, e);
    ProductFits(p, s, prefix, r);
    ProductScales(d, e, prefix, p);
    if r >= s {
      ProductScales(d, e, prefix, p + 1);
      Regroup(p, 1, 1, e);
    }
  }

  lemma ProductFits(p: nat, s: int, prefix: int, r: int)
    requires s > 0 && prefix == p * s + r && r >= 0
    ensures r <= prefix && p <= prefix && (r >= s ==> p + 1 <= prefix)
  {
    MulIsMonotone(1, s, p);
    MulIsMonotone(0, p, s);
  }

  lemma ProductScales(d: int, e: int, prefix: int, p: nat)
    requires e > 0 && d >= 0 && prefix == d / e && p <= prefix
    ensures 0 <= p * e <= d
  {
    MulIsMonotone(p, prefix, e);
    MulIsMonotone(0, p, e);
  }

  lemma QuotientShift(d: int, s: int, b: nat, q: int, r: int, p: nat)
    requires b > 0 && 0 <= d && Quotient(d, s, b, q, r, p) && r < s
    ensures Quotient(d, s, b - 1, q, 2 * r + (if BitOf(d, b - 1) then 1 else 0), 2 * p)
  {
    PrefixStep(d, b);
    Pow2Even(b);
    Monomial(1, p, Pow2(b - 1));
    Regroup(0, 1, p, s);
  }

  lemma QuotientSubtract(d: int, s: int, b: nat, q: int, r: int, p: nat)
    requires Quotient(d, s, b, q, r, p) && r >= s
    ensures Quotient(d, s, b, q + Pow2(b), r - s, p + 1) && !BitOf(q, b)
  {
    Regroup(p, 1, 1, s);
    Regroup(p, 1, 1, Pow2(b));
    DivisionIs(q, Pow2(b), p, 0);
    BitOfIs(q, b);
  }

  // A remainder with the sign of the dividend, and smaller than the divisor.
  ghost predicate Divided(x: int, y: int, q: int, r: int) {
    && x == q * y + r
    && (if y < 0 then y < r < -y else -y < r < y)
    && (r == 0 || (r < 0) == (x < 0))
  }

  lemma DividedWithSigns(x: int, y: int, q: int, r: int)
    requires y != 0 && 0 <= r < Abs(y) && 0 <= q && Abs(x) == q * Abs(y) + r
    ensures Divided(x, y, if (y < 0) != (x < 0) then -q else q, if x < 0 then -r else r)
  {
  }

  function Abs(x: int): nat {
    if x < 0 then -x else x
  }

  // Division has one result.
  lemma DividedOnce(x: int, y: int, q: int, r: int, q': int, r': int)
    requires y != 0 && Divided(x, y, q, r) && Divided(x, y, q', r')
    ensures q == q' && r == r'
  {
    var k := q - q';
    Distribute(q, q', y);
    Distribute(0, k, y);
    if y > 0 {
      SmallMultiple(k, y);
    } else {
      assert k * -y == -(k * y);
      SmallMultiple(k, -y);
    }
  }

  class Int128 {
    var lo: Word
    var hi: Signed

    // The number.
    ghost function V(): int
      reads this
    {
      hi * W + lo
    }

    // From any of the machine integer types.
    constructor (a: int)
      requires -H <= a < W
      ensures V() == a
    {
      lo, hi := ToWord(a), if a < 0 then -1 else 0;
    }

    constructor Words(l: Word, h: Signed)
      ensures lo == l && hi == h
    {
      lo, hi := l, h;
    }

    constructor Copy(a: Int128)
      ensures lo == a.lo && hi == a.hi
    {
      lo, hi := a.lo, a.hi;
    }

    // operator=
    method Assign(a: Int128)
      modifies this
      ensures lo == old(a.lo) && hi == old(a.hi)
    {
      lo, hi := a.lo, a.hi;
    }

    // operator!
    predicate IsZero()
      reads this
    {
      !(hi != 0 || lo != 0)
    }

    // unary minus
    method Negated() returns (r: Int128)
      ensures fresh(r) && r.V() == Wrap(-V())
    {
      if lo == 0 {
        var h: int := hi;
        r := new Int128.Words(0, ToSigned(-h));
        WrapIs(-V(), r.V(), if hi == -H then 1 else 0);
      } else {
        var l: int := lo;
        r := new Int128.Words(ToWord(-l), -1 - hi);
        WrapIs(-V(), r.V(), 0);
      }
    }

    // operator+=; b may be this.
    method AddAssign(b: Int128)
      modifies this
      ensures V() == Wrap(old(V()) + old(b.V()))
    {
      ghost var sum, h := V() + b.V(), hi + b.hi;
      ghost var k := SignedBy(h);
      Carry(lo, b.lo);
      var oldLo := lo;
      lo := ToWord(lo + b.lo);
      hi := ToSigned(hi + b.hi);
      if lo < oldLo {
        ghost var j := SignedBy(hi + 1);
        hi := ToSigned(hi + 1);
        k := k + j;
      }
      WrapIs(sum, V(), k);
    }

    // operator-=
    method SubtractAssign(b: Int128)
      modifies this
      ensures V() == Wrap(old(V()) - old(b.V()))
    {
      var minus := b.Negated();
      ghost var j := WrapBy(-b.V());
      ghost var k := WrapBy(V() + minus.V());
      ghost var difference := V() - b.V();
      AddAssign(minus);
      WrapIs(difference, V(), j + k);
    }

    // operator++
    method Increment()
      modifies this
      ensures V() == Wrap(old(V()) + 1)
    {
      ghost var sum := V() + 1;
      lo := ToWord(lo + 1);
      if lo == 0 {
        hi := ToSigned(hi + 1);
      }
      WrapIs(sum, V(), (sum - V()) / M);
    }

    // operator--
    method Decrement()
      modifies this
      ensures V() == Wrap(old(V()) - 1)
    {
      ghost var difference := V() - 1;
      if lo == 0 {
        hi := ToSigned(hi - 1);
      }
      lo := ToWord(lo - 1);
      WrapIs(difference, V(), (difference - V()) / M);
    }

    // operator<<=
    method ShiftLeftAssign(n: nat)
      modifies this
      ensures V() == Wrap(old(V()) * Pow2(n))
    {
      ghost var v := V();
      if n >= 128 {
        lo, hi := 0, 0;
        ShiftedAway(v, n);
        return;
      }
      if n >= 64 {
        ghost var k := ShiftLeftByWords(lo, n);
        ghost var j := HighWordFalls(lo, hi, n);
        hi := ToSigned(ShiftedLeft(lo, n - 64));
        lo := 0;
        WrapIs(v * Pow2(n), V(), k + j);
        return;
      }
      if n != 0 {
        ShiftLeftWithin(n);
      } else {
        WrapIs(v, v, 0);
      }
    }

    // A shift by less than a word.
    method ShiftLeftWithin(n: nat)
      requires 0 < n < 64
      modifies this
      ensures V() == Wrap(old(V()) * Pow2(n))
    {
      ghost var v := V();
      ghost var k := ShiftLeftWords(lo, hi, n);
      var high := ShiftedLeft(hi, n);
      // the bits that cross over from the low word fill the gap at the low end of the high word
      hi := ToSigned(BitOr(high, TopBits(lo, n)));
      lo := ShiftedLeft(lo, n);
      WrapIs(v * Pow2(n), V(), k);
    }

    // operator>>=
    method ShiftRightAssign(n: nat)
      modifies this
      ensures V() == old(V()) / Pow2(n)
    {
      ghost var v := V();
      if n >= 128 {
        NumberIsPow2();
        QuotientOfSmall(v, n);
        hi := if hi < 0 then -1 else 0;
        lo := ToWord(hi);
        return;
      }
      if n >= 64 {
        ShiftRightByWords(lo, hi, n);
        lo := ToWord(ShiftedRight(hi, n - 64));
        hi := if hi < 0 then -1 else 0;
        return;
      }
      if n != 0 {
        ShiftRightWords(lo, hi, n);
        QuotientInRange(hi, Pow2(n));
        // the bits that cross over from the high word fill the gap at the high end of the low word
        var low := ShiftedLeft(BitAnd(ToWord(hi), Pow2(n) - 1), 64 - n);
        lo := BitOr(ShiftedRight(lo, n), low);
        hi := ShiftedRight(hi, n);
      }
    }

    // bit(n): past the top it is the sign.
    predicate Bit(n: nat)
      reads this
    {
      if n >= 128 then hi < 0
      else if n < 64 then BitAnd(lo, Pow2(n)) != 0
      else BitAnd(ToWord(hi), Pow2(n - 64)) != 0
    }

    lemma BitIs(n: nat)
      ensures Bit(n) == if n < 128 then BitOf(V(), n) else V() < 0
    {
      if n < 128 {
        BitOfWords(lo, hi, n);
        AndOneBit(lo, n);
        AndOneBit(ToWord(hi), if n < 64 then 0 else n - 64);
      }
    }

    // bit(n, val)
    method SetBit(n: nat, val: bool)
      modifies this
      ensures n >= 128 ==> V() == old(V())
      ensures n < 128 ==> V() == NumberWithBit(old(V()), n, val)
    {
      if n >= 128 {
        return;
      }
      BitOfWords(lo, hi, n);
      if n < 64 {
        SetLowBit(lo, hi, n, val);
        lo := WordWithBit(lo, n, val);
      } else {
        SetHighBit(lo, hi, n, val);
        hi := ToSigned(WordWithBit(ToWord(hi), n - 64, val));
      }
    }

    // operator*=; b may be this.
    method MultiplyAssign(b: Int128)
      modifies this
      ensures V() == Wrap(old(V()) * old(b.V()))
    {
      ghost var x, y := V(), b.V();
      if b.IsZero() {
        lo, hi := 0, 0;
        WrapIs(0, 0, 0);
        return;
      }
      if b.lo == 1 && b.hi == 0 {
        WrapIs(x, x, 0);
        return;
      }
      var a := new Int128.Copy(this);
      var t := new Int128.Copy(b);
      lo, hi := 0, 0;
      assert PartialProduct(0, x, y, 0) by {
        assert x * (y % Pow2(0)) == 0 + 0 * M;
      }
      for i := 0 to 128
        invariant fresh(a) && fresh(t) && a != t && a.V() == x && t.V() == Prefix(y, i)
        invariant PartialProduct(V(), x, y, i)
      {
        AddProductBit(a, t, i, y);
        assert Pow2(1) == 2;
        t.ShiftRightAssign(1);
      }
      FullProduct(V(), x, y);
    }

    // One bit of the other factor adds a, shifted to its place.
    method AddProductBit(a: Int128, t: Int128, i: nat, ghost y: int)
      requires t.V() == Prefix(y, i) && PartialProduct(V(), a.V(), y, i) && a != this && t != this
      modifies this
      ensures PartialProduct(V(), a.V(), y, i + 1)
    {
      PartialProductGrows(V(), a.V(), y, i);
      LowestBit(t.lo, t.hi);
      PrefixBit(y, i);
      if BitAnd(t.lo, 1) != 0 {
        var shifted := new Int128.Copy(a);
        shifted.ShiftLeftAssign(i);
        AddAssign(shifted);
      }
    }

    method Double()
      requires 0 <= V() && 2 * V() < -MIN
      modifies this
      ensures V() == 2 * old(V())
    {
      ghost var v := 2 * V();
      assert Pow2(1) == 2;
      WrapIs(v, v, 0);
      ShiftLeftAssign(1);
    }

    method SetLowestBit()
      requires V() % 2 == 0
      modifies this
      ensures V() == old(V()) + 1
    {
      LowestBitOr(lo, hi);
      lo := BitOr(lo, 1);
    }

    // One step of the long division: bit n of dd moves in from the right.
    method ShiftInBit(dd: Int128, n: nat)
      requires dd != this && n < 128
      requires 0 <= V() && 2 * V() + (if BitOf(dd.V(), n) then 1 else 0) < -MIN
      modifies this
      ensures V() == 2 * old(V()) + (if BitOf(dd.V(), n) then 1 else 0)
    {
      dd.BitIs(n);
      Double();
      if dd.Bit(n) {
        SetLowestBit();
      }
    }

    // Right exactly if the dividend is not the smallest number, which is its own negative and so passes for less than
    // any divisor.
    method Div(divisor: Int128, remainder: Int128) returns (q: Int128)
      requires divisor.V() != 0 && divisor.V() != MIN
      modifies remainder
      ensures fresh(q)
      ensures Divided(old(V()), old(divisor.V()), q.V(), remainder.V()) <==> old(V()) != MIN
      ensures old(V()) == MIN ==> q.V() == 0 && remainder.V() == MIN
    {
      ghost var x, y := V(), divisor.V();
      var dNegative, negative := divisor.hi < 0, hi < 0;
      var ds := divisor.Magnitude();
      var dd := Magnitude();
      // a smaller number is its own remainder
      LessExactlyWhen(dd, ds);
      if Less(dd, ds) {
        remainder.Assign(this);
        q := new Int128(0);
        return;
      }
      var r;
      q, r := dd.LongDivision(ds);
      DividedWithSigns(x, y, q.V(), r.V());
      // the signs of the operands come back in
      if dNegative != negative {
        q := q.NegatedSmall();
      }
      if negative {
        r := r.NegatedSmall();
      }
      remainder.Assign(r);
    }

    method NegatedSmall() returns (r: Int128)
      requires V() != MIN
      ensures fresh(r) && r.V() == -V()
    {
      WrapIs(-V(), -V(), 0);
      r := Negated();
    }

    // The absolute value; the smallest number stays as it is.
    method Magnitude() returns (r: Int128)
      ensures fresh(r) && r.V() == if V() == MIN then MIN else Abs(V())
    {
      if hi < 0 {
        WrapIs(-V(), if V() == MIN then MIN else -V(), if V() == MIN then 1 else 0);
        r := Negated();
      } else {
        r := new Int128.Copy(this);
      }
    }

    // The quotient of two positive numbers, bit by bit.
    method LongDivision(ds: Int128) returns (q: Int128, r: Int128)
      requires 0 < ds.V() <= V()
      ensures fresh(q) && fresh(r) && q != r
      ensures 0 <= r.V() < ds.V() && 0 <= q.V() && V() == q.V() * ds.V() + r.V()
    {
      var b: nat;
      r, b := FirstPrefix(ds);
      q := new Int128(0);
      ghost var d, s := V(), ds.V();
      ghost var p: nat := 0;
      LessExactlyWhen(r, ds);
      while b > 0 || !Less(r, ds)
        invariant fresh(q) && fresh(r) && q != r && b < 128
        invariant Quotient(d, s, b, q.V(), r.V(), p)
        invariant Less(r, ds) <==> r.V() < s
        decreases b, r.V() >= s
      {
        if Less(r, ds) {
          b := b - 1;
          r.ShiftOnce(ds, q, b, this, p);
          p := 2 * p;
        } else {
          r.SubtractOnce(ds, q, b, d, p);
          p := p + 1;
        }
        LessExactlyWhen(r, ds);
      }
      QuotientFits(d, s, b, q.V(), r.V(), p);
    }

    method ShiftOnce(ds: Int128, q: Int128, b: nat, dd: Int128, ghost p: nat)
      requires this !in {ds, q, dd} && b < 127 && 0 < ds.V() && 0 <= dd.V()
      requires Quotient(dd.V(), ds.V(), b + 1, q.V(), V(), p) && V() < ds.V()
      modifies this
      ensures Quotient(dd.V(), ds.V(), b, q.V(), V(), 2 * p)
    {
      QuotientShift(dd.V(), ds.V(), b + 1, q.V(), V(), p);
      QuotientFits(dd.V(), ds.V(), b, q.V(), 2 * V() + (if BitOf(dd.V(), b) then 1 else 0), 2 * p);
      ShiftInBit(dd, b);
    }

    method SubtractOnce(ds: Int128, q: Int128, b: nat, ghost d: int, ghost p: nat)
      requires this !in {ds, q} && ds != q && b < 128 && 0 < ds.V() && 0 <= d < -MIN
      requires Quotient(d, ds.V(), b, q.V(), V(), p) && V() >= ds.V()
      modifies this, q
      ensures Quotient(d, ds.V(), b, q.V(), V(), p + 1) && V() == old(V()) - ds.V()
    {
      QuotientFits(d, ds.V(), b, q.V(), V(), p);
      QuotientSubtract(d, ds.V(), b, q.V(), V(), p);
      WrapIs(V() - ds.V(), V() - ds.V(), 0);
      WrapIs(q.V() + Pow2(b), q.V() + Pow2(b), 0);
      SubtractAssign(ds);
      q.SetBit(b, true);
    }

    // The shortest prefix of the bits of this number that is not below ds, and its last bit.
    method FirstPrefix(ds: Int128) returns (r: Int128, b: nat)
      requires 0 < ds.V() <= V()
      ensures fresh(r) && b < 128 && Quotient(V(), ds.V(), b, 0, r.V(), 0) && r.V() >= ds.V()
    {
      r := new Int128(0);
      b := 127;
      ghost var d, n: nat := V(), 128;
      NothingLeft(d);
      LessExactlyWhen(r, ds);
      while Less(r, ds)
        invariant fresh(r) && n <= 128 && b == (if n == 0 then 0xFFFF_FFFF else n - 1)
        invariant r.V() == Prefix(d, n) && (r.V() >= ds.V() ==> n < 128 && Prefix(d, n + 1) < ds.V())
        invariant Less(r, ds) <==> r.V() < ds.V()
        decreases n
      {
        PrefixStep(d, n);
        r.ShiftInBit(this, b);
        b := Decremented(b);
        n := n - 1;
        LessExactlyWhen(r, ds);
      }
      PrefixStep(d, n + 1);
      // b wraps around to its value before the last decrement
      b := Incremented(b);
    }

    // ---- text ----

    // Right exactly if the number is not the smallest one, which is written as "-0".
    method ToString(radix: nat) returns (s: string)
      requires radix < 0x1_0000_0000
      ensures V() != MIN || radix < 2 || radix > 37 <==> s == Written(V(), radix)
      ensures V() == MIN && 2 <= radix <= 37 ==> s == "-0"
    {
      if IsZero() {
        return "0";
      }
      if radix < 2 || radix > 37 {
        return "(invalid radix)";
      }
      SmallestIsLong(radix);
      var ii := Magnitude();
      var aux := new Int128(radix);
      s := ii.WriteDigits(aux);
      if hi < 0 {
        s := ['-'] + s;
      }
    }

    // The loop over the digits.
    method WriteDigits(aux: Int128) returns (s: string)
      requires (V() > 0 || V() == MIN) && 2 <= aux.V() <= 37
      ensures s == if V() == MIN then "0" else Digits(V(), aux.V())
    {
      var ii, i: nat := this, 255;
      s := "";
      ghost var v, radix := V(), aux.V();
      assert v < Pow2(i - 128) by { TopPower(); }
      while !ii.IsZero() && i != 0
        invariant aux.V() == radix && 128 <= i
        invariant ii.V() == MIN ==> v == MIN && s == "" && i == 255
        invariant ii.V() != MIN ==> DigitsLeft(v, ii.V(), i - 128, radix, s)
        decreases i
      {
        var c;
        ghost var u := ii.V();
        ii, c := ii.SplitLastDigit(aux);
        if u == MIN {
          assert [c] + s == "0";
        } else {
          OneDigitLess(v, u, ii.V(), i - 128, radix, s, c);
        }
        s := [c] + s;
        i := i - 1;
      }
    }

    // The number without its last digit, and that digit.
    method SplitLastDigit(aux: Int128) returns (q: Int128, c: char)
      requires (0 < V() < -MIN || V() == MIN) && 2 <= aux.V() <= 37
      ensures fresh(q)
      ensures V() == MIN ==> q.V() == 0 && c == '0'
      ensures V() != MIN ==>
        0 <= q.V() && 2 * q.V() <= V() && Digits(V(), aux.V()) == Digits(q.V(), aux.V()) + [c]
    {
      var r := new Int128(0);
      q := Div(aux, r);
      if V() != MIN {
        LastDigit(V(), aux.V(), q.V(), r.V());
        assert r.hi == 0;
      }
      c := DigitChar(r.lo);
    }

    method Set(sz: string)
      modifies this
      ensures V() == Wrap(Parsed(sz))
    {
      lo, hi := 0, 0;
      WrapIs(0, 0, 0);
      if sz == "" {
        return;
      }
      var radix, i, minus := 10, 0, false;
      if sz[i] == '-' {
        i := i + 1;
        minus := true;
      }
      if i < |sz| && sz[i] == '0' {
        radix := 8;
        i := i + 1;
        if i < |sz| && sz[i] == 'x' {
          radix := 16;
          i := i + 1;
        }
      }
      assert (radix, sz[i..]) == RadixAndDigits(if minus then sz[1..] else sz);
      ReadDigits(sz[i..], radix);
      if minus {
        var zero := new Int128(0);
        NegatedParse(Parsed(sz));
        zero.SubtractAssign(this);
        Assign(zero);
      }
    }

    // The loop over the digits.
    method ReadDigits(s: string, radix: nat)
      requires V() == 0 && 2 <= radix <= 16
      modifies this
      ensures V() == Wrap(ParsedDigits(s, radix, 0))
    {
      ghost var acc: nat := 0;
      WrapIs(0, 0, 0);
      for i := 0 to |s|
        invariant V() == Wrap(acc) && ParsedDigits(s, radix, 0) == ParsedFrom(s, i, radix, acc)
      {
        ParsedStep(s, i, radix, acc);
        var n := DigitOf(s[i], radix);
        if n.None? {
          return;
        }
        MultiplyAndAdd(radix, n.value, acc);
        MulIsMonotone(0, acc, radix);
        acc := acc * radix + n.value;
      }
    }

    // The number grows by one more digit.
    method MultiplyAndAdd(radix: nat, n: nat, ghost acc: int)
      requires V() == Wrap(acc) && radix < H && n < H
      modifies this
      ensures V() == Wrap(acc * radix + n)
    {
      WrapOfWraps(acc, radix, n);
      var b := new Int128(radix);
      MultiplyAssign(b);
      var c := new Int128(n);
      AddAssign(c);
    }

    // operator/=
    method DivideAssign(b: Int128) returns (ghost r: int)
      requires b.V() != 0 && b.V() != MIN
      modifies this
      ensures Divided(old(V()), old(b.V()), V(), r) <==> old(V()) != MIN
      ensures old(V()) == MIN ==> V() == 0
    {
      var dummy := new Int128(0);
      var q := Div(b, dummy);
      r := dummy.V();
      Assign(q);
    }

    // operator%=: the remainder goes straight into this number.
    method RemainderAssign(b: Int128) returns (ghost q: int)
      requires b.V() != 0 && b.V() != MIN
      modifies this
      ensures Divided(old(V()), old(b.V()), q, V()) <==> old(V()) != MIN
      ensures old(V()) == MIN ==> V() == MIN
    {
      var quotient := Div(b, this);
      q := quotient.V();
    }
  }

  // ---- division by the smallest number ----

  // The remainder after n turns of the second loop of div, when every turn subtracts the smallest number.
  ghost function Subtracted(n: nat): int {
    if n == 0 then 0 else Wrap(Subtracted(n - 1) - MIN)
  }

  lemma {:induction false} SubtractedAlternates(n: nat)
    ensures Subtracted(n) == if n % 2 == 0 then 0 else MIN
  {
    if n > 0 {
      SubtractedAlternates(n - 1);
      WrapIs(0 - MIN, MIN, 1);
      WrapIs(MIN - MIN, 0, 0);
    }
  }

  // Division by the smallest number does not end: no dividend passes for less, and after any number of turns the
  // remainder is not below the divisor, so that the next turn subtracts again and leaves the bit index alone.
  lemma SmallestDivisorNeverEnds(dd: Int128, r: Int128, ds: Int128, n: nat)
    requires ds.V() == MIN && (dd.V() >= 0 || dd.V() == MIN) && r.V() == Subtracted(n)
    ensures !Less(dd, ds) && !Less(r, ds) && Wrap(r.V() - ds.V()) == Subtracted(n + 1)
  {
    SubtractedAlternates(n);
    LessExactlyWhen(dd, ds);
    LessExactlyWhen(r, ds);
  }

  // operator<
  predicate Less(a: Int128, b: Int128)
    reads a, b
  {
    if a.hi == b.hi then
      if a.hi < 0 then ToSigned(a.lo) < ToSigned(b.lo) else a.lo < b.lo
    else a.hi < b.hi
  }

  // operator< orders all numbers but negatives with equal high words whose low words differ in the top bit.
  lemma LessExactlyWhen(a: Int128, b: Int128)
    ensures (Less(a, b) <==> a.V() < b.V()) <==> !(a.hi == b.hi && a.hi < 0 && (a.lo < H) != (b.lo < H))
  {
  }

  // ---- text ----

  function DigitChar(c: nat): char
    requires c < 37
  {
    if c > 9 then ('A' as int - 10 + c) as char else ('0' as int + c) as char
  }

  // The digits of v, none for 0.
  function Digits(v: nat, radix: nat): string
    requires 2 <= radix <= 37
  {
    if v == 0 then "" else Digits(v / radix, radix) + [DigitChar(v % radix)]
  }

  // What toString writes.
  function Written(v: int, radix: nat): string {
    if v == 0 then "0"
    else if radix < 2 || radix > 37 then "(invalid radix)"
    else (if v < 0 then "-" else "") + Digits(Abs(v), radix)
  }

  // The digit c stands for; one letter more than the radix has is taken too.
  function DigitOf(c: char, radix: nat): (n: Option<nat>)
    ensures n.Some? && 2 <= radix ==> n.value <= radix
  {
    if '0' <= c <= '9' && c as int < '0' as int + radix then Some(c as int - '0' as int)
    else if 'a' <= c && c as int <= 'a' as int + radix - 10 then Some(c as int - 'a' as int + 10)
    else if 'A' <= c && c as int <= 'A' as int + radix - 10 then Some(c as int - 'A' as int + 10)
    else None
  }

  // The number that the digits at the start of s continue acc to.
  function ParsedDigits(s: string, radix: nat, acc: nat): nat {
    if s == "" || DigitOf(s[0], radix).None? then acc
    else ParsedDigits(s[1..], radix, acc * radix + DigitOf(s[0], radix).value)
  }

  // The same for the digits from position i on.
  function ParsedFrom(s: string, i: nat, radix: nat, acc: nat): nat
    requires i <= |s|
  {
    ParsedDigits(s[i..], radix, acc)
  }

  lemma ParsedStep(s: string, i: nat, radix: nat, acc: nat)
    requires i < |s|
    ensures ParsedFrom(s, i, radix, acc) == if DigitOf(s[i], radix).None? then acc
      else ParsedFrom(s, i + 1, radix, acc * radix + DigitOf(s[i], radix).value)
  {
    assert s[i..][1..] == s[i + 1..];
  }

  // A leading 0 means octal, and 0x hexadecimal.
  function RadixAndDigits(s: string): (nat, string) {
    if s != "" && s[0] == '0' then
      if |s| > 1 && s[1] == 'x' then (16, s[2..]) else (8, s[1..])
    else (10, s)
  }

  // The number that set reads, before it wraps around.
  function Parsed(s: string): int {
    if s == "" then 0
    else
      var minus := s[0] == '-';
      var (radix, digits) := RadixAndDigits(if minus then s[1..] else s);
      if minus then 0 - ParsedDigits(digits, radix, 0) else ParsedDigits(digits, radix, 0)
  }

  lemma TopPower()
    ensures Pow2(127) == -MIN
  {
    NumberIsPow2();
  }

  lemma HalfFits(x: int, q: int, n: nat)
    requires 0 < x < Pow2(n) && 2 * q <= x
    ensures n > 0 && q < Pow2(n - 1)
  {
  }

  // The digits of v are those of x and the ones in s; x is below 2^n. The smallest number has the digit 0.
  ghost predicate DigitsLeft(v: int, x: int, n: nat, radix: nat, s: string) {
    && 2 <= radix <= 37 && 0 <= x < Pow2(n)
    && if v == MIN then x == 0 && s == "0" else 0 <= v && Digits(v, radix) == Digits(x, radix) + s
  }

  lemma OneDigitLess(v: int, x: int, q: int, n: nat, radix: nat, s: string, c: char)
    requires DigitsLeft(v, x, n, radix, s) && 0 < x && 0 <= q && 2 * q <= x
    requires Digits(x, radix) == Digits(q, radix) + [c]
    ensures n > 0 && DigitsLeft(v, q, n - 1, radix, [c] + s)
  {
    HalfFits(x, q, n);
    assert Digits(q, radix) + ([c] + s) == Digits(q, radix) + [c] + s;
  }

  // The smallest number has more than one digit in every radix.
  lemma SmallestIsLong(radix: nat)
    requires 2 <= radix <= 37
    ensures Written(MIN, radix) != "-0"
  {
    var v: nat := Abs(MIN);
    var q := v / radix;
    assert q > 0;
    assert Digits(q, radix) != "";
    assert |Digits(v, radix)| >= 2;
    assert |Written(MIN, radix)| >= 3;
  }

  lemma LastDigit(x: int, radix: nat, q: int, r: int)
    requires 0 < x && 2 <= radix <= 37 && Divided(x, radix, q, r)
    ensures 0 <= r < radix && 0 <= q && 2 * q <= x && Digits(x, radix) == Digits(q, radix) + [DigitChar(r)]
  {
    if q < 0 {
      MulIsMonotone(q, -1, radix);
    }
    DivisionIs(x, radix, q, r);
    MulIsMonotone(2, radix, q);
  }

  lemma WrapOfWraps(acc: int, radix: int, n: int)
    ensures Wrap(Wrap(Wrap(acc) * radix) + n) == Wrap(acc * radix + n)
  {
    var i := WrapBy(acc);
    var j := WrapBy(Wrap(acc) * radix);
    var k := WrapBy(Wrap(Wrap(acc) * radix) + n);
    Regroup(i, M, Wrap(acc), radix);
    WrapIs(acc * radix + n, Wrap(Wrap(Wrap(acc) * radix) + n), i * radix + j + k);
  }

  lemma NegatedParse(x: int)
    ensures Wrap(0 - Wrap(-x)) == Wrap(x)
  {
    var i := WrapBy(-x);
    var j := WrapBy(0 - Wrap(-x));
    WrapIs(x, Wrap(0 - Wrap(-x)), j - i);
  }

  predicate AllDigits(s: string, radix: nat) {
    forall i | 0 <= i < |s| :: DigitOf(s[i], radix).Some?
  }

  lemma DigitReadsBack(c: nat, radix: nat)
    requires radix == 10 || radix == 16
    requires c < radix
    ensures DigitOf(DigitChar(c), radix) == Some(c)
  {
  }

  lemma {:induction false} DigitsAreDigits(v: nat, radix: nat)
    requires radix == 10 || radix == 16
    ensures AllDigits(Digits(v, radix), radix)
    ensures v > 0 ==> Digits(v, radix) != "" && Digits(v, radix)[0] != '0' && Digits(v, radix)[0] != '-'
  {
    if v > 0 {
      DigitsAreDigits(v / radix, radix);
      DigitReadsBack(v % radix, radix);
    }
  }

  lemma {:induction false} ParsedAppend(s: string, c: char, radix: nat, acc: nat)
    requires AllDigits(s, radix) && DigitOf(c, radix).Some?
    ensures ParsedDigits(s + [c], radix, acc) == ParsedDigits(s, radix, acc) * radix + DigitOf(c, radix).value
  {
    if s == "" {
      assert [c][1..] == "";
      assert s + [c] == [c];
    } else {
      assert (s + [c])[1..] == s[1..] + [c];
      ParsedAppend(s[1..], c, radix, acc * radix + DigitOf(s[0], radix).value);
    }
  }

  lemma {:induction false} DigitsReadBack(v: nat, radix: nat)
    requires radix == 10 || radix == 16
    ensures ParsedDigits(Digits(v, radix), radix, 0) == v
  {
    if v > 0 {
      var q, r := v / radix, v % radix;
      assert v == q * radix + r;
      DigitsReadBack(q, radix);
      DigitsAreDigits(q, radix);
      DigitReadsBack(r, radix);
      ParsedAppend(Digits(q, radix), DigitChar(r), radix, 0);
    }
  }

  // Reading a number that was written in decimal gives it back.
  lemma DecimalReadsBack(v: int)
    requires Fits(v)
    ensures Wrap(Parsed(Written(v, 10))) == v
  {
    WrapIs(v, v, 0);
    if v != 0 {
      DigitsAreDigits(Abs(v), 10);
      DigitsReadBack(Abs(v), 10);
      var digits := Digits(Abs(v), 10);
      if v < 0 {
        assert ("-" + digits)[1..] == digits;
      } else {
        assert "" + digits == digits;
      }
    } else {
      assert "0"[1..] == "";
    }
  }

  // So does reading "0x" and the hexadecimal digits of a number that is not negative.
  lemma HexadecimalReadsBack(v: int)
    requires Fits(v) && 0 <= v
    ensures Wrap(Parsed("0x" + Written(v, 16))) == v
  {
    WrapIs(v, v, 0);
    var digits := Written(v, 16);
    assert ("0x" + digits)[2..] == digits;
    if v != 0 {
      DigitsReadBack(v, 16);
      assert "" + Digits(v, 16) == Digits(v, 16);
    } else {
      assert "0"[1..] == "";
      assert DigitOf('0', 16) == Some(0);
    }
  }

  // ---- numerals as they are usually read ----

  // The value of a digit or a letter in any radix up to 36.
  function CharValue(c: char): Option<nat> {
    if '0' <= c <= '9' then Some(c as int - '0' as int)
    else if 'a' <= c <= 'z' then Some(c as int - 'a' as int + 10)
    else if 'A' <= c <= 'Z' then Some(c as int - 'A' as int + 10)
    else None
  }

  predicate StrictDigit(c: char, radix: nat) {
    CharValue(c).Some? && CharValue(c).value < radix
  }

  // The letter after the last one that the radix has.
  predicate ExtraLetter(c: char, radix: nat) {
    radix >= 10 && (c as int == 'a' as int + radix - 10 || c as int == 'A' as int + radix - 10)
  }

  // set takes that letter too, for the radix itself, and is right about all other characters.
  lemma DigitExactlyWhen(c: char, radix: nat)
    requires radix in {8, 10, 16}
    ensures DigitOf(c, radix) ==
      if ExtraLetter(c, radix) then Some(radix) else if StrictDigit(c, radix) then CharValue(c) else None
    ensures DigitOf(c, radix).Some? ==> (DigitOf(c, radix).value < radix <==> !ExtraLetter(c, radix))
  {
  }

  // How many digits of the radix s starts with.
  function StrictRun(s: string, radix: nat): (n: nat)
    ensures n <= |s| && AllStrict(s[..n], radix)
    ensures n < |s| ==> !StrictDigit(s[n], radix)
  {
    if s == "" || !StrictDigit(s[0], radix) then 0
    else
      var n := 1 + StrictRun(s[1..], radix);
      assert s[..n] == [s[0]] + s[1..][..n - 1];
      n
  }

  // The number that digits of the radix denote by their positions.
  function Numeral(digits: string, radix: nat): nat
    requires AllStrict(digits, radix)
  {
    if digits == "" then 0
    else
      var n := |digits| - 1;
      assert StrictDigit(digits[n], radix);
      Numeral(digits[..n], radix) * radix + CharValue(digits[n]).value
  }

  // s is how v is written: strict digits, no leading zero, capital letters.
  ghost predicate Denotes(s: string, v: nat, radix: nat) {
    && AllStrict(s, radix) && Numeral(s, radix) == v
    && (v == 0 ==> s == "") && (s != "" ==> s[0] != '0')
    && forall i | 0 <= i < |s| :: !('a' <= s[i] <= 'z')
  }

  lemma DenotesMore(s: string, q: nat, radix: nat, r: nat)
    requires 2 <= radix <= 36 && Denotes(s, q, radix) && r < radix && (q > 0 || r > 0)
    ensures Denotes(s + [DigitChar(r)], q * radix + r, radix)
  {
    var c := DigitChar(r);
    assert CharValue(c) == Some(r);
    assert (s + [c])[..|s|] == s;
    if q > 0 {
      MulIsMonotone(1, q, radix);
    }
  }

  // The digits that are written denote the number.
  lemma {:induction false} DigitsDenote(v: nat, radix: nat)
    requires 2 <= radix <= 36
    ensures Denotes(Digits(v, radix), v, radix)
  {
    if v != 0 {
      var q, r := v / radix, v % radix;
      QuotientIsSmaller(v, radix);
      DigitsDenote(q, radix);
      DenotesMore(Digits(q, radix), q, radix, r);
    }
  }

  lemma QuotientIsSmaller(v: nat, radix: nat)
    requires v > 0 && radix >= 2
    ensures 0 <= v / radix < v && v == v / radix * radix + v % radix
  {
  }

  predicate AllStrict(digits: string, radix: nat) {
    forall i | 0 <= i < |digits| :: StrictDigit(digits[i], radix)
  }

  // What stands before the digits of a numeral.
  function RadixMark(radix: nat): string {
    if radix == 16 then "0x" else if radix == 8 then "0" else ""
  }

  function Sign(minus: bool): string {
    if minus then "-" else ""
  }

  // The radix that the start of an unsigned numeral announces.
  function Announced(t: string): (radix: nat)
    ensures radix in {8, 10, 16} && RadixMark(radix) <= t
  {
    if RadixMark(16) <= t then 16 else if RadixMark(8) <= t then 8 else 10
  }

  function Unsigned(s: string): string {
    if Sign(true) <= s then s[1..] else s
  }

  // What stands behind the sign and the prefix.
  function Unprefixed(s: string): string {
    Unsigned(s)[|RadixMark(Announced(Unsigned(s)))|..]
  }

  // The number that a reader of numerals takes from s: after sign and prefix, as many digits as there are.
  function StrictlyParsed(s: string): int {
    var radix, text := Announced(Unsigned(s)), Unprefixed(s);
    var n := Numeral(text[..StrictRun(text, radix)], radix);
    if Sign(true) <= s then 0 - n else n
  }

  // The reader stops at the letter that set takes for a digit.
  predicate Stumbles(s: string) {
    var radix, text := Announced(Unsigned(s)), Unprefixed(s);
    var n := StrictRun(text, radix);
    n < |text| && ExtraLetter(text[n], radix)
  }

  // set finds sign and radix as the reader does.
  lemma SameRadix(s: string)
    ensures Parsed(s) ==
      var n := ParsedDigits(Unprefixed(s), Announced(Unsigned(s)), 0);
      if Sign(true) <= s then 0 - n else n
  {
    assert RadixAndDigits(Unsigned(s)) == (Announced(Unsigned(s)), Unprefixed(s));
  }

  // Sign, prefix and digits are read for the number that the digits denote in that radix.
  lemma NumeralsAreRead(minus: bool, radix: nat, digits: string)
    requires radix in {8, 10, 16} && AllStrict(digits, radix)
    requires radix == 10 && digits != "" ==> digits[0] != '0'
    ensures Parsed(Sign(minus) + RadixMark(radix) + digits)
      == if minus then 0 - Numeral(digits, radix) else Numeral(digits, radix)
  {
    var s := Sign(minus) + RadixMark(radix) + digits;
    SameRadix(s);
    PartsOf(minus, radix, digits);
    NumeralIsParsed(digits, radix);
  }

  lemma PartsOf(minus: bool, radix: nat, digits: string)
    requires radix in {8, 10, 16} && AllStrict(digits, radix)
    requires radix == 10 && digits != "" ==> digits[0] != '0'
    ensures var s := Sign(minus) + RadixMark(radix) + digits;
      (Sign(true) <= s <==> minus) && Announced(Unsigned(s)) == radix && Unprefixed(s) == digits
  {
    var s, t := Sign(minus) + RadixMark(radix) + digits, RadixMark(radix) + digits;
    assert digits != "" ==> StrictDigit(digits[0], radix);
    assert t != "" ==> t[0] != '-';
    if minus {
      assert s == "-" + t;
    } else {
      assert s == t;
    }
    assert Unsigned(s) == t;
    MarkOf(radix, digits);
    assert t[|RadixMark(radix)|..] == digits;
  }

  lemma MarkOf(radix: nat, digits: string)
    requires radix in {8, 10, 16} && (digits != "" ==> StrictDigit(digits[0], radix))
    requires radix == 10 && digits != "" ==> digits[0] != '0'
    ensures Announced(RadixMark(radix) + digits) == radix
  {
    var t := RadixMark(radix) + digits;
    if radix == 16 {
      assert t[..2] == "0x";
    } else if radix == 8 {
      assert |t| > 1 ==> t[1] != 'x';
    }
  }

  lemma {:induction false} NumeralIsParsed(digits: string, radix: nat)
    requires radix in {8, 10, 16} && AllStrict(digits, radix)
    ensures AllDigits(digits, radix) && ParsedDigits(digits, radix, 0) == Numeral(digits, radix)
  {
    forall i | 0 <= i < |digits| ensures DigitOf(digits[i], radix) == CharValue(digits[i]) {
      DigitExactlyWhen(digits[i], radix);
    }
    if digits != "" {
      var n := |digits| - 1;
      NumeralIsParsed(digits[..n], radix);
      ParsedAppend(digits[..n], digits[n], radix, 0);
      assert digits == digits[..n] + [digits[n]];
    }
  }

  lemma {:induction false} ParsedInParts(a: string, b: string, radix: nat, acc: nat)
    requires AllDigits(a, radix)
    ensures ParsedDigits(a + b, radix, acc) == ParsedDigits(b, radix, ParsedDigits(a, radix, acc))
  {
    if a == "" {
      assert a + b == b;
    } else {
      assert (a + b)[1..] == a[1..] + b;
      ParsedInParts(a[1..], b, radix, acc * radix + DigitOf(a[0], radix).value);
    }
  }

  lemma {:induction false} ParsedGrows(s: string, radix: nat, acc: nat)
    requires radix >= 1
    ensures ParsedDigits(s, radix, acc) >= acc
  {
    if s != "" && DigitOf(s[0], radix).Some? {
      var next := acc * radix + DigitOf(s[0], radix).value;
      MulIsMonotone(1, radix, acc);
      assert next >= acc;
      ParsedGrows(s[1..], radix, next);
    }
  }

  // What set makes of the text from the stop of the reader on.
  lemma ParsedFromStop(b: string, radix: nat, acc: nat)
    requires radix in {8, 10, 16} && (b != "" ==> !StrictDigit(b[0], radix))
    ensures if b != "" && ExtraLetter(b[0], radix) then ParsedDigits(b, radix, acc) > acc
      else ParsedDigits(b, radix, acc) == acc
  {
    if b != "" {
      DigitExactlyWhen(b[0], radix);
      if ExtraLetter(b[0], radix) {
        var next := acc * radix + radix;
        MulIsMonotone(1, radix, acc);
        assert next > acc;
        ParsedGrows(b[1..], radix, next);
      }
    }
  }

  lemma DigitsExactlyWhen(text: string, radix: nat)
    requires radix in {8, 10, 16}
    ensures var n := StrictRun(text, radix);
      if n < |text| && ExtraLetter(text[n], radix) then ParsedDigits(text, radix, 0) > Numeral(text[..n], radix)
      else ParsedDigits(text, radix, 0) == Numeral(text[..n], radix)
  {
    var n := StrictRun(text, radix);
    var a, b := text[..n], text[n..];
    NumeralIsParsed(a, radix);
    ParsedInParts(a, b, radix, 0);
    assert text == a + b;
    ParsedFromStop(b, radix, Numeral(a, radix));
  }

  // set reads what a reader of numerals reads exactly if that reader does not stop at the extra letter.
  lemma ParsedExactlyWhen(s: string)
    ensures Parsed(s) == StrictlyParsed(s) <==> !Stumbles(s)
  {
    SameRadix(s);
    DigitsExactlyWhen(Unprefixed(s), Announced(Unsigned(s)));
  }

  // The same for the number itself, as long as it does not wrap around.
  lemma SetExactlyWhen(s: string)
    requires Fits(Parsed(s))
    ensures Wrap(Parsed(s)) == StrictlyParsed(s) <==> !Stumbles(s)
  {
    WrapIs(Parsed(s), Parsed(s), 0);
    ParsedExactlyWhen(s);
  }

  // An input on which they differ.
  lemma ExtraLetterIsRead()
    ensures Stumbles("1a") && Parsed("1a") == 20 && StrictlyParsed("1a") == 1
  {
    var s := "1a";
    assert s[1..] == "a" && s[1..][1..] == "";
    assert StrictRun(s[1..], 10) == 0;
    assert StrictRun(s, 10) == 1;
    assert s[..1] == "1" && "1"[..0] == "";
    assert ParsedDigits("a", 10, 1) == ParsedDigits("", 10, 20) == 20;
  }
}
