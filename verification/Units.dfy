// Conversion between units of measurement, staged by the structure of the two units.
module Units {

  // num and den of a layer are the template arguments Num and Den.
  datatype Unit =
    | Base(id: nat)
    | Compose(left: Unit, right: Unit)
    | Scale(of: Unit, num: int, den: int)
    | Translate(of: Unit, num: int, den: int)
    | Pow(of: Unit, num: int, den: int)

  // What a conversion comes to: the compiler rejects it, it reads a temporary that is gone, or it gives a value.
  datatype Conversion = Rejected | Dangling | Converted(value: real)

  // Factors are not zero, and powers are integers.
  predicate WellFormed(u: Unit) {
    match u
    case Base(_) => true
    case Compose(l, r) => WellFormed(l) && WellFormed(r)
    case Scale(t, n, d) => n != 0 && d != 0 && WellFormed(t)
    case Translate(t, _, d) => d != 0 && WellFormed(t)
    case Pow(t, n, d) => d != 0 && n % d == 0 && WellFormed(t)
  }

  // ---- which units are convertible ----

  // count_terms: the power of a base unit as a fraction; scaling and translation do not matter.
  function CountTerms(term: nat, u: Unit): (int, int) {
    match u
    case Base(id) => (if id == term then 1 else 0, 1)
    case Compose(l, r) =>
      var (n1, d1) := CountTerms(term, l);
      var (n2, d2) := CountTerms(term, r);
      (n1 * d2 + d1 * n2, d1 * d2)
    case Scale(t, _, _) => CountTerms(term, t)
    case Translate(t, _, _) => CountTerms(term, t)
    case Pow(t, n, d) =>
      var (n1, d1) := CountTerms(term, t);
      (n * n1, d * d1)
  }

  // check_terms_equal: every base unit of u has the same power in t1 and t2, by equality of fractions.
  predicate CheckTermsEqual(u: Unit, t1: Unit, t2: Unit) {
    match u
    case Base(id) =>
      var (n1, d1) := CountTerms(id, t1);
      var (n2, d2) := CountTerms(id, t2);
      n1 * d2 == d1 * n2
    case Compose(l, r) => CheckTermsEqual(l, t1, t2) && CheckTermsEqual(r, t1, t2)
    case Scale(t, _, _) => CheckTermsEqual(t, t1, t2)
    case Translate(t, _, _) => CheckTermsEqual(t, t1, t2)
    case Pow(t, _, _) => CheckTermsEqual(t, t1, t2)
  }

  predicate Convertible(t1: Unit, t2: Unit) {
    CheckTermsEqual(t1, t1, t2) && CheckTermsEqual(t2, t1, t2)
  }

  // The exponent of a base unit.
  ghost function Exponent(u: Unit, b: nat): real
    requires WellFormed(u)
  {
    match u
    case Base(id) => if id == b then 1.0 else 0.0
    case Compose(l, r) => Exponent(l, b) + Exponent(r, b)
    case Scale(t, _, _) => Exponent(t, b)
    case Translate(t, _, _) => Exponent(t, b)
    case Pow(t, n, d) => Exponent(t, b) * (n / d) as real
  }

  // The fraction f is x.
  ghost predicate IsFraction(f: (int, int), x: real) {
    f.1 != 0 && f.0 as real == x * f.1 as real
  }

  lemma {:induction false} CountIsExponent(b: nat, u: Unit)
    requires WellFormed(u)
    ensures IsFraction(CountTerms(b, u), Exponent(u, b))
  {
    match u
    case Base(_) =>
    case Compose(l, r) =>
      CountIsExponent(b, l);
      CountIsExponent(b, r);
      SumOfFractions(CountTerms(b, l), CountTerms(b, r), Exponent(l, b), Exponent(r, b));
    case Scale(t, _, _) => CountIsExponent(b, t);
    case Translate(t, _, _) => CountIsExponent(b, t);
    case Pow(t, n, d) =>
      CountIsExponent(b, t);
      PowerOfFraction(CountTerms(b, t), Exponent(t, b), n, d);
  }

  lemma SumOfFractions(f: (int, int), g: (int, int), x: real, y: real)
    requires IsFraction(f, x) && IsFraction(g, y)
    ensures IsFraction((f.0 * g.1 + f.1 * g.0, f.1 * g.1), x + y)
  {
    var a, b, c, d := f.0 as real, f.1 as real, g.0 as real, g.1 as real;
    assert (f.0 * g.1) as real == a * d && (f.1 * g.0) as real == b * c && (f.1 * g.1) as real == b * d;
    assert a * d == x * (b * d) && b * c == y * (b * d);
  }

  lemma PowerOfFraction(f: (int, int), x: real, n: int, d: int)
    requires IsFraction(f, x) && d != 0 && n % d == 0
    ensures IsFraction((n * f.0, d * f.1), x * (n / d) as real)
  {
    var k := n / d;
    assert n == k * d;
    var p, q, a, b := k as real, d as real, f.0 as real, f.1 as real;
    assert (n * f.0) as real == (p * q) * a;
    assert (d * f.1) as real == q * b;
    assert (p * q) * a == (x * p) * (q * b);
  }

  // Does the base unit occur in u?
  ghost predicate Occurs(b: nat, u: Unit) {
    match u
    case Base(id) => id == b
    case Compose(l, r) => Occurs(b, l) || Occurs(b, r)
    case Scale(t, _, _) => Occurs(b, t)
    case Translate(t, _, _) => Occurs(b, t)
    case Pow(t, _, _) => Occurs(b, t)
  }

  lemma {:induction false} NoOccurrenceNoExponent(b: nat, u: Unit)
    requires WellFormed(u) && !Occurs(b, u)
    ensures Exponent(u, b) == 0.0
  {
    match u
    case Base(_) =>
    case Compose(l, r) =>
      NoOccurrenceNoExponent(b, l);
      NoOccurrenceNoExponent(b, r);
    case Scale(t, _, _) => NoOccurrenceNoExponent(b, t);
    case Translate(t, _, _) => NoOccurrenceNoExponent(b, t);
    case Pow(t, _, _) => NoOccurrenceNoExponent(b, t);
  }

  lemma CrossProducts(f: (int, int), g: (int, int), x: real, y: real)
    requires IsFraction(f, x) && IsFraction(g, y)
    ensures f.0 * g.1 == f.1 * g.0 <==> x == y
  {
    var b, d := f.1 as real, g.1 as real;
    assert (f.0 * g.1) as real == x * (b * d) && (f.1 * g.0) as real == y * (b * d);
    assert b * d != 0.0;
    if x * (b * d) == y * (b * d) {
      assert x == x * (b * d) / (b * d) == y;
    }
  }

  // The exponents of the base units of u agree.
  ghost predicate Agree(u: Unit, t1: Unit, t2: Unit)
    requires WellFormed(t1) && WellFormed(t2)
  {
    forall b {:trigger Occurs(b, u)} | Occurs(b, u) :: Exponent(t1, b) == Exponent(t2, b)
  }

  lemma {:induction false} CheckIsAgreement(u: Unit, t1: Unit, t2: Unit)
    requires WellFormed(u) && WellFormed(t1) && WellFormed(t2)
    ensures CheckTermsEqual(u, t1, t2) <==> Agree(u, t1, t2)
  {
    if u.Base? {
      BaseCheckIsAgreement(u.id, t1, t2);
    } else if u.Compose? {
      CheckIsAgreement(u.left, t1, t2);
      CheckIsAgreement(u.right, t1, t2);
      AgreementOfParts(u.left, u.right, t1, t2);
    } else {
      CheckIsAgreement(u.of, t1, t2);
      AgreementOfLayer(u, t1, t2);
    }
  }

  lemma BaseCheckIsAgreement(id: nat, t1: Unit, t2: Unit)
    requires WellFormed(t1) && WellFormed(t2)
    ensures CheckTermsEqual(Base(id), t1, t2) <==> Agree(Base(id), t1, t2)
  {
    CountIsExponent(id, t1);
    CountIsExponent(id, t2);
    CrossProducts(CountTerms(id, t1), CountTerms(id, t2), Exponent(t1, id), Exponent(t2, id));
    assert Occurs(id, Base(id));
  }

  lemma AgreementOfParts(l: Unit, r: Unit, t1: Unit, t2: Unit)
    requires WellFormed(t1) && WellFormed(t2)
    ensures Agree(Compose(l, r), t1, t2) <==> Agree(l, t1, t2) && Agree(r, t1, t2)
  {
    var u := Compose(l, r);
    if Agree(u, t1, t2) {
      forall b: nat | Occurs(b, l) || Occurs(b, r) ensures Exponent(t1, b) == Exponent(t2, b) {
        assert Occurs(b, u);
      }
    }
    if Agree(l, t1, t2) && Agree(r, t1, t2) {
      forall b: nat | Occurs(b, u) ensures Exponent(t1, b) == Exponent(t2, b) {
        assert Occurs(b, l) || Occurs(b, r);
      }
    }
  }

  lemma AgreementOfLayer(u: Unit, t1: Unit, t2: Unit)
    requires WellFormed(t1) && WellFormed(t2) && !u.Base? && !u.Compose?
    ensures Agree(u, t1, t2) <==> Agree(u.of, t1, t2)
  {
    forall b: nat ensures Occurs(b, u) <==> Occurs(b, u.of) {
    }
    if Agree(u, t1, t2) {
      forall b: nat | Occurs(b, u.of) ensures Exponent(t1, b) == Exponent(t2, b) {
        assert Occurs(b, u);
      }
    }
  }

  // The units agree in the exponent of every base unit.
  ghost predicate SameExponents(t1: Unit, t2: Unit)
    requires WellFormed(t1) && WellFormed(t2)
  {
    forall b: nat :: Exponent(t1, b) == Exponent(t2, b)
  }

  // And that is exactly when they are convertible.
  lemma ConvertibleIsSameExponents(t1: Unit, t2: Unit)
    requires WellFormed(t1) && WellFormed(t2)
    ensures Convertible(t1, t2) <==> SameExponents(t1, t2)
  {
    CheckIsAgreement(t1, t1, t2);
    CheckIsAgreement(t2, t1, t2);
    if Agree(t1, t1, t2) && Agree(t2, t1, t2) {
      forall b: nat ensures Exponent(t1, b) == Exponent(t2, b) {
        if !Occurs(b, t1) && !Occurs(b, t2) {
          NoOccurrenceNoExponent(b, t1);
          NoOccurrenceNoExponent(b, t2);
        }
      }
    }
  }

  lemma ConvertibleIsEquivalence(t1: Unit, t2: Unit, t3: Unit)
    requires WellFormed(t1) && WellFormed(t2) && WellFormed(t3)
    ensures Convertible(t1, t1)
    ensures Convertible(t1, t2) ==> Convertible(t2, t1)
    ensures Convertible(t1, t2) && Convertible(t2, t3) ==> Convertible(t1, t3)
  {
    ConvertibleIsSameExponents(t1, t1);
    ConvertibleIsSameExponents(t1, t2);
    ConvertibleIsSameExponents(t2, t1);
    ConvertibleIsSameExponents(t2, t3);
    ConvertibleIsSameExponents(t1, t3);
  }

  // ---- conversion ----

  // fixed_power for an integer power.
  function FixedPower(x: real, k: int): real
    requires x != 0.0
    decreases if k < 0 then -k else k
  {
    if k == 0 then 1.0
    else if k > 0 then x * FixedPower(x, k - 1)
    else FixedPower(x, k + 1) / x
  }

  lemma {:induction false} PowerNotZero(x: real, k: int)
    requires x != 0.0
    ensures FixedPower(x, k) != 0.0
    decreases if k < 0 then -k else k
  {
    if k > 0 {
      PowerNotZero(x, k - 1);
    } else if k < 0 {
      PowerNotZero(x, k + 1);
      var y := FixedPower(x, k + 1);
      assert y / x * x == y;
    }
  }

  // How many of its base units one of a unit makes.
  function ScalingFactor(u: Unit): (f: real)
    requires WellFormed(u)
    ensures f != 0.0
  {
    match u
    case Base(_) => 1.0
    case Compose(l, r) => ScalingFactor(l) * ScalingFactor(r)
    case Scale(t, n, d) => Quotient(ScalingFactor(t), n, d)
    case Translate(t, _, _) => ScalingFactor(t)
    case Pow(t, n, d) =>
      PowerNotZero(ScalingFactor(t), n / d);
      FixedPower(ScalingFactor(t), n / d)
  }

  // x * Num / Den
  function Quotient(x: real, n: int, d: int): (r: real)
    requires n != 0 && d != 0
    ensures x != 0.0 ==> r != 0.0
  {
    var y := x * n as real;
    assert y / d as real * d as real == y;
    y / d as real
  }

  // A layer of u is a fourth power, for which fixed_power returns a reference to its local variable.
  predicate FourthPower(u: Unit)
    requires WellFormed(u)
  {
    match u
    case Base(_) => false
    case Compose(l, r) => FourthPower(l) || FourthPower(r)
    case Scale(t, _, _) => FourthPower(t)
    case Translate(t, _, _) => FourthPower(t)
    case Pow(t, n, d) => n / d == 4 || FourthPower(t)
  }

  // A value in a unit that scale makes of its inner unit, and back.
  function Unscaled(v: real, n: int, d: int): real
    requires n != 0
  {
    v * d as real / n as real
  }

  function Scaled(v: real, n: int, d: int): real
    requires d != 0
  {
    v * n as real / d as real
  }

  function Rescaled(v: real, to: real, from: real): real
    requires from != 0.0
  {
    v * to / from
  }

  // convert: units of the same type need no conversion.
  function Convert(t1: Unit, t2: Unit, v: real): Conversion
    requires WellFormed(t1) && WellFormed(t2)
    decreases t1, t2, 2
  {
    if t1 == t2 then Converted(v)
    else if !Convertible(t1, t2) then Rejected
    else Convert2(t1, t2, v)
  }

  // convert2: the layers of the source unit are taken off first.
  function Convert2(t1: Unit, t2: Unit, v: real): Conversion
    requires WellFormed(t1) && WellFormed(t2)
    decreases t1, t2, 1
  {
    if t1.Scale? then Convert(t1.of, t2, Unscaled(v, t1.num, t1.den))
    else if t1.Translate? then Convert(t1.of, t2, v - t1.num as real / t1.den as real)
    else Convert3(t1, t2, v)
  }

  // convert3: then those of the target unit; what remains is a scaling.
  function Convert3(t1: Unit, t2: Unit, v: real): Conversion
    requires WellFormed(t1) && WellFormed(t2)
    decreases t1, t2, 0
  {
    if t2.Scale? then
      var w := Convert(t1, t2.of, v);
      if w.Converted? then Converted(Scaled(w.value, t2.num, t2.den)) else w
    else if t2.Translate? then
      var w := Convert(t1, t2.of, v);
      if w.Converted? then Converted(w.value + t2.num as real / t2.den as real) else w
    else if FourthPower(t1) || FourthPower(t2) then Dangling
    else Converted(Rescaled(v, ScalingFactor(t2), ScalingFactor(t1)))
  }

  // The unit under the scalings and translations of u.
  ghost function Core(u: Unit): Unit {
    if u.Scale? || u.Translate? then Core(u.of) else u
  }

  // Both units come down to the same one, so that no scaling factor is needed, or neither holds a fourth power.
  ghost predicate Sound(t1: Unit, t2: Unit)
    requires WellFormed(t1) && WellFormed(t2)
  {
    Core(t1) == Core(t2) || (!FourthPower(t1) && !FourthPower(t2))
  }

  // ---- what a value means in base units ----

  ghost function ToBase(u: Unit, v: real): real
    requires WellFormed(u)
  {
    if u.Scale? then ToBase(u.of, Unscaled(v, u.num, u.den))
    else if u.Translate? then ToBase(u.of, v - u.num as real / u.den as real)
    else v / ScalingFactor(u)
  }

  ghost function FromBase(u: Unit, x: real): real
    requires WellFormed(u)
  {
    if u.Scale? then Scaled(FromBase(u.of, x), u.num, u.den)
    else if u.Translate? then FromBase(u.of, x) + u.num as real / u.den as real
    else x * ScalingFactor(u)
  }

  lemma ScaledBack(v: real, n: int, d: int)
    requires n != 0 && d != 0
    ensures Scaled(Unscaled(v, n, d), n, d) == v && Unscaled(Scaled(v, n, d), n, d) == v
  {
    var x, y := n as real, d as real;
    assert v * y / x * x == v * y && v * x / y * y == v * x;
    assert v * y / y == v && v * x / x == v;
  }

  lemma {:induction false} FromToBase(u: Unit, v: real)
    requires WellFormed(u)
    ensures FromBase(u, ToBase(u, v)) == v
  {
    if u.Scale? {
      var w := Unscaled(v, u.num, u.den);
      FromToBase(u.of, w);
      ScaleCase(u, v, w, ToBase(u.of, w));
    } else if u.Translate? {
      FromToBase(u.of, v - u.num as real / u.den as real);
    } else {
      FactorBack(v, ScalingFactor(u));
    }
  }

  lemma {:induction false} ToFromBase(u: Unit, x: real)
    requires WellFormed(u)
    ensures ToBase(u, FromBase(u, x)) == x
  {
    if u.Scale? {
      var w := FromBase(u.of, x);
      ToFromBase(u.of, x);
      ScaledBack(w, u.num, u.den);
      ScaleCase(u, Scaled(w, u.num, u.den), w, x);
    } else if u.Translate? {
      ToFromBase(u.of, x);
    } else {
      FactorBack(x, ScalingFactor(u));
    }
  }

  lemma ScaleCase(u: Unit, v: real, w: real, x: real)
    requires WellFormed(u) && u.Scale? && w == Unscaled(v, u.num, u.den) && x == ToBase(u.of, w)
      && FromBase(u.of, x) == w
    ensures ToBase(u, v) == x && FromBase(u, x) == v
  {
    ScaledBack(v, u.num, u.den);
  }

  lemma FactorBack(v: real, f: real)
    requires f != 0.0
    ensures v / f * f == v && v * f / f == v
  {
  }

  // Taking off a layer changes nothing for the type check.
  lemma LayersDoNotMatter(t1: Unit, t2: Unit)
    requires WellFormed(t1) && WellFormed(t2)
    ensures t1.Scale? || t1.Translate? ==> (Convertible(t1, t2) <==> Convertible(t1.of, t2))
    ensures t2.Scale? || t2.Translate? ==> (Convertible(t1, t2) <==> Convertible(t1, t2.of))
  {
    ConvertibleIsSameExponents(t1, t2);
    if t1.Scale? || t1.Translate? {
      ConvertibleIsSameExponents(t1.of, t2);
      assert forall b: nat :: Exponent(t1, b) == Exponent(t1.of, b);
    }
    if t2.Scale? || t2.Translate? {
      ConvertibleIsSameExponents(t1, t2.of);
      assert forall b: nat :: Exponent(t2, b) == Exponent(t2.of, b);
    }
  }

  lemma Reordered(v: real, f: real, g: real)
    requires f != 0.0
    ensures Rescaled(v, g, f) == v / f * g
  {
    var w := v / f;
    assert w * f == v;
    assert w * g * f / f == w * g;
  }

  lemma ConvertsByFactor(t1: Unit, t2: Unit, v: real)
    requires WellFormed(t1) && WellFormed(t2) && !t1.Scale? && !t1.Translate? && !t2.Scale? && !t2.Translate?
    requires t1 != t2 && Convertible(t1, t2)
    ensures Convert(t1, t2, v) ==
      if Sound(t1, t2) then Converted(Rescaled(v, ScalingFactor(t2), ScalingFactor(t1))) else Dangling
  {
    assert Core(t1) == t1 && Core(t2) == t2;
    assert Convert2(t1, t2, v) == Convert3(t1, t2, v);
  }

  lemma FactorThroughBase(t1: Unit, t2: Unit, v: real)
    requires WellFormed(t1) && WellFormed(t2) && !t1.Scale? && !t1.Translate? && !t2.Scale? && !t2.Translate?
    ensures FromBase(t2, ToBase(t1, v)) == Rescaled(v, ScalingFactor(t2), ScalingFactor(t1))
  {
    Reordered(v, ScalingFactor(t1), ScalingFactor(t2));
  }

  // A conversion is rejected exactly when the units are not convertible, and reads a dangling reference exactly when
  // a scaling factor with a fourth power is needed; otherwise it goes through base units.
  lemma {:induction false} ConvertMeaning(t1: Unit, t2: Unit, v: real)
    requires WellFormed(t1) && WellFormed(t2)
    ensures Convert(t1, t2, v) ==
      if !Convertible(t1, t2) then Rejected
      else if !Sound(t1, t2) then Dangling
      else Converted(FromBase(t2, ToBase(t1, v)))
    decreases t1, t2
  {
    ConvertibleIsEquivalence(t1, t1, t1);
    LayersDoNotMatter(t1, t2);
    if t1 == t2 {
      FromToBase(t1, v);
    } else if t1.Scale? {
      ConvertMeaning(t1.of, t2, Unscaled(v, t1.num, t1.den));
    } else if t1.Translate? {
      ConvertMeaning(t1.of, t2, v - t1.num as real / t1.den as real);
    } else if t2.Scale? || t2.Translate? {
      ConvertMeaning(t1, t2.of, v);
      assert Convert2(t1, t2, v) == Convert3(t1, t2, v);
    } else if Convertible(t1, t2) {
      ConvertsByFactor(t1, t2, v);
      FactorThroughBase(t1, t2, v);
    }
  }

  // Converting on the way changes nothing, unless one of the two conversions dangles.
  lemma ConvertComposes(a: Unit, b: Unit, c: Unit, v: real)
    requires WellFormed(a) && WellFormed(b) && WellFormed(c)
    requires Convertible(a, b) && Convertible(b, c)
    ensures Convert(a, b, v).Converted? <==> Sound(a, b)
    ensures Sound(a, b) ==> (Convert(b, c, Convert(a, b, v).value).Converted? <==> Sound(b, c))
    ensures Sound(a, b) && Sound(b, c) ==> Convert(b, c, Convert(a, b, v).value) == Convert(a, c, v)
  {
    ConvertibleIsEquivalence(a, b, c);
    ConvertMeaning(a, b, v);
    if Sound(a, b) {
      ConvertMeaning(b, c, Convert(a, b, v).value);
      ConvertMeaning(a, c, v);
      ToFromBase(b, ToBase(a, v));
      if Sound(b, c) {
        SoundIsTransitive(a, b, c);
      }
    }
  }

  // Converting back gives the value back exactly if the conversion does not dangle.
  lemma ConvertInverts(a: Unit, b: Unit, v: real)
    requires WellFormed(a) && WellFormed(b) && Convertible(a, b)
    ensures Convert(a, b, v).Converted? <==> Sound(a, b)
    ensures Sound(a, b) ==> Convert(b, a, Convert(a, b, v).value) == Converted(v)
  {
    ConvertibleIsEquivalence(a, b, a);
    ConvertComposes(a, b, a, v);
  }

  lemma {:induction false} FourthPowerOfCore(u: Unit)
    requires WellFormed(u)
    ensures WellFormed(Core(u)) && FourthPower(Core(u)) == FourthPower(u)
  {
    if u.Scale? || u.Translate? {
      FourthPowerOfCore(u.of);
    }
  }

  lemma SoundIsTransitive(a: Unit, b: Unit, c: Unit)
    requires WellFormed(a) && WellFormed(b) && WellFormed(c) && Sound(a, b) && Sound(b, c)
    ensures Sound(a, c)
  {
    FourthPowerOfCore(a);
    FourthPowerOfCore(b);
    FourthPowerOfCore(c);
  }

  // A fourth power and the square of a square are the same dimension, but there is no conversion between them.
  lemma FourthPowerDangles(v: real)
    ensures var m := Base(0);
      Convert(Pow(m, 4, 1), Compose(Pow(m, 2, 1), Pow(m, 2, 1)), v) == Dangling
  {
    var m := Base(0);
    var t1, t2 := Pow(m, 4, 1), Compose(Pow(m, 2, 1), Pow(m, 2, 1));
    assert FourthPower(t1);
    assert CountTerms(0, m) == (1, 1) && CountTerms(0, Pow(m, 2, 1)) == (2, 1);
    assert CountTerms(0, t1) == (4, 1) && CountTerms(0, t2) == (4, 1);
    assert CheckTermsEqual(m, t1, t2);
    assert CheckTermsEqual(t1, t1, t2);
    assert CheckTermsEqual(Pow(m, 2, 1), t1, t2);
    assert Convertible(t1, t2);
  }

  predicate Unscaling(u: Unit) {
    match u
    case Base(_) => true
    case Compose(l, r) => Unscaling(l) && Unscaling(r)
    case Scale(_, _, _) => false
    case Translate(t, _, _) => Unscaling(t)
    case Pow(t, _, _) => Unscaling(t)
  }

  lemma {:induction false} PowerOfOne(k: int)
    ensures FixedPower(1.0, k) == 1.0
    decreases if k < 0 then -k else k
  {
    if k > 0 {
      PowerOfOne(k - 1);
    } else if k < 0 {
      PowerOfOne(k + 1);
    }
  }

  // Without a scaling the factor is one.
  lemma {:induction false} FactorIsOne(u: Unit)
    requires WellFormed(u) && Unscaling(u)
    ensures ScalingFactor(u) == 1.0
  {
    match u
    case Base(_) =>
    case Compose(l, r) => FactorIsOne(l); FactorIsOne(r);
    case Translate(t, _, _) => FactorIsOne(t);
    case Pow(t, n, d) => FactorIsOne(t); PowerOfOne(n / d);
  }

  // ---- laws of conversion that name no factor ----

  // One layer more or less, in plain arithmetic.
  lemma ConvertOfScale(t: Unit, n: int, d: int, v: real)
    requires WellFormed(t) && n != 0 && d != 0
    ensures Convert(Scale(t, n, d), t, v) == Converted(v * d as real / n as real)
    ensures Convert(t, Scale(t, n, d), v) == Converted(v * n as real / d as real)
  {
    var u := Scale(t, n, d);
    FromToBase(t, v);
    FromToBase(t, Unscaled(v, n, d));
    ConvertibleIsEquivalence(t, t, t);
    LayersDoNotMatter(u, t);
    LayersDoNotMatter(t, u);
    ConvertMeaning(u, t, v);
    ConvertMeaning(t, u, v);
  }

  lemma ConvertOfTranslate(t: Unit, n: int, d: int, v: real)
    requires WellFormed(t) && d != 0
    ensures Convert(Translate(t, n, d), t, v) == Converted(v - n as real / d as real)
    ensures Convert(t, Translate(t, n, d), v) == Converted(v + n as real / d as real)
  {
    var u := Translate(t, n, d);
    FromToBase(t, v);
    FromToBase(t, v - n as real / d as real);
    ConvertibleIsEquivalence(t, t, t);
    LayersDoNotMatter(u, t);
    LayersDoNotMatter(t, u);
    ConvertMeaning(u, t, v);
    ConvertMeaning(t, u, v);
  }

  // No translation stands around u.
  predicate Straight(u: Unit) {
    match u
    case Scale(t, _, _) => Straight(t)
    case Translate(_, _, _) => false
    case _ => true
  }

  lemma {:induction false} StraightFromBase(u: Unit, x: real)
    requires WellFormed(u) && Straight(u)
    ensures FromBase(u, x) == x * ScalingFactor(u)
  {
    if u.Scale? {
      StraightFromBase(u.of, x);
      ScaledFactor(x, ScalingFactor(u.of), FromBase(u.of, x), u.num, u.den);
    }
  }

  lemma ScaledFactor(x: real, f: real, y: real, n: int, d: int)
    requires n != 0 && d != 0 && y == x * f
    ensures Scaled(y, n, d) == x * Quotient(f, n, d)
  {
    var g := Quotient(f, n, d);
    Divided(f * n as real, d as real);
    Divided(y * n as real, d as real);
    Regrouped(x, f, n as real);
    Regrouped(x, g, d as real);
    Cancelled(Scaled(y, n, d), x * g, d as real);
  }

  lemma Divided(x: real, d: real)
    requires d != 0.0
    ensures x / d * d == x
  {
  }

  lemma Regrouped(x: real, y: real, z: real)
    ensures x * y * z == x * (y * z)
  {
  }

  lemma Cancelled(x: real, y: real, f: real)
    requires f != 0.0 && x * f == y * f
    ensures x == y
  {
  }

  lemma Swapped(x: real, y: real, p: real, q: real)
    ensures x * y * (p * q) == x * p * (y * q)
  {
  }

  lemma ProductFromBase(a: Unit, b: Unit, x: real, y: real, v: real, w: real)
    requires WellFormed(Compose(a, b)) && Straight(a) && Straight(b) && FromBase(a, x) == v && FromBase(b, y) == w
    ensures FromBase(Compose(a, b), x * y) == v * w
  {
    StraightFromBase(a, x);
    StraightFromBase(b, y);
    MultipliedOut(x, y, ScalingFactor(a), ScalingFactor(b), v, w);
  }

  lemma MultipliedOut(x: real, y: real, f: real, g: real, v: real, w: real)
    requires v == x * f && w == y * g
    ensures x * y * (f * g) == v * w
  {
    Swapped(x, y, f, g);
  }

  // What v comes to in base units.
  lemma InBase(t: Unit, u: Unit, v: real, w: real) returns (x: real)
    requires WellFormed(t) && WellFormed(u) && Convert(t, u, v) == Converted(w)
    ensures Convertible(t, u) && FromBase(t, x) == v && FromBase(u, x) == w
  {
    x := ToBase(t, v);
    ConvertMeaning(t, u, v);
    FromToBase(t, v);
  }

  lemma ConvertThroughBase(t: Unit, u: Unit, v: real, w: real, x: real)
    requires WellFormed(t) && WellFormed(u) && Convertible(t, u) && FromBase(t, x) == v && FromBase(u, x) == w
    ensures Convert(t, u, v) == if Sound(t, u) then Converted(w) else Dangling
  {
    ConvertMeaning(t, u, v);
    ToFromBase(t, x);
  }

  // Products of units convert factor by factor.
  lemma ConvertOfProduct(a: Unit, b: Unit, a': Unit, b': Unit, v: real, w: real, v': real, w': real)
    requires WellFormed(Compose(a, b)) && WellFormed(Compose(a', b'))
    requires Straight(a) && Straight(b) && Straight(a') && Straight(b')
    requires Convert(a, a', v) == Converted(v') && Convert(b, b', w) == Converted(w')
    ensures Convert(Compose(a, b), Compose(a', b'), v * w)
      == if Sound(Compose(a, b), Compose(a', b')) then Converted(v' * w') else Dangling
  {
    var x := InBase(a, a', v, v');
    var y := InBase(b, b', w, w');
    ProductsConvertible(a, b, a', b');
    ProductFromBase(a, b, x, y, v, w);
    ProductFromBase(a', b', x, y, v', w');
    ConvertThroughBase(Compose(a, b), Compose(a', b'), v * w, v' * w', x * y);
  }

  lemma ProductsConvertible(a: Unit, b: Unit, a': Unit, b': Unit)
    requires WellFormed(Compose(a, b)) && WellFormed(Compose(a', b')) && Convertible(a, a') && Convertible(b, b')
    ensures Convertible(Compose(a, b), Compose(a', b'))
  {
    ConvertibleIsSameExponents(a, a');
    ConvertibleIsSameExponents(b, b');
    SameProduct(a, b, a', b');
    ConvertibleIsSameExponents(Compose(a, b), Compose(a', b'));
  }

  lemma SameProduct(a: Unit, b: Unit, a': Unit, b': Unit)
    requires WellFormed(Compose(a, b)) && WellFormed(Compose(a', b')) && SameExponents(a, a') && SameExponents(b, b')
    ensures SameExponents(Compose(a, b), Compose(a', b'))
  {
  }

  // v multiplied by itself, k factors in all.
  ghost function Times(v: real, k: nat): real {
    if k == 0 then 1.0 else v * Times(v, k - 1)
  }

  lemma {:induction false} TimesOfProduct(x: real, y: real, k: nat)
    ensures Times(x * y, k) == Times(x, k) * Times(y, k)
  {
    if k > 0 {
      TimesOfProduct(x, y, k - 1);
      Swapped(x, y, Times(x, k - 1), Times(y, k - 1));
    }
  }

  lemma {:induction false} PowerIsTimes(x: real, k: int)
    requires x != 0.0
    ensures k >= 0 ==> FixedPower(x, k) == Times(x, k)
    ensures k < 0 ==> FixedPower(x, k) * Times(x, -k) == 1.0
    decreases if k < 0 then -k else k
  {
    if k > 0 {
      PowerIsTimes(x, k - 1);
    } else if k < 0 {
      PowerIsTimes(x, k + 1);
      var p := FixedPower(x, k + 1);
      Divided(p, x);
      Regrouped(p / x, x, Times(x, -k - 1));
    }
  }

  // y is the k-th power of v; for a negative k, 1 over the product of -k factors.
  ghost predicate IsPower(y: real, v: real, k: int) {
    if k >= 0 then y == Times(v, k) else y * Times(v, -k) == 1.0
  }

  lemma PowerFromBase(t: Unit, n: int, d: int, x: real, y: real)
    requires WellFormed(Pow(t, n, d)) && Straight(t) && IsPower(y, x, n / d)
    ensures IsPower(FromBase(Pow(t, n, d), y), FromBase(t, x), n / d)
  {
    var f, k := ScalingFactor(t), n / d;
    StraightFromBase(t, x);
    PowerIsTimes(f, k);
    PowerOfProduct(x, y, f, FixedPower(f, k), k, FromBase(t, x), FromBase(Pow(t, n, d), y));
  }

  lemma PowerOfProduct(x: real, y: real, f: real, g: real, k: int, v: real, w: real)
    requires IsPower(y, x, k) && IsPower(g, f, k) && v == x * f && w == y * g
    ensures IsPower(w, v, k)
  {
    var j := if k < 0 then -k else k;
    TimesOfProduct(x, f, j);
    Swapped(y, g, Times(x, j), Times(f, j));
  }

  lemma OnePower(y: real, z: real, v: real, k: int)
    requires IsPower(y, v, k) && IsPower(z, v, k)
    ensures y == z
  {
    if k < 0 {
      var p := Times(v, -k);
      assert p != 0.0;
      Cancelled(y, z, p);
    }
  }

  // Powers of units convert like powers of values.
  lemma ConvertOfPower(t: Unit, u: Unit, n: int, d: int, n': int, d': int, v: real, y: real)
    requires WellFormed(Pow(t, n, d)) && WellFormed(Pow(u, n', d')) && n / d == n' / d'
    requires Straight(t) && Straight(u) && Convert(t, u, v).Converted? && IsPower(y, v, n / d)
    ensures var r := Convert(Pow(t, n, d), Pow(u, n', d'), y);
      if Sound(Pow(t, n, d), Pow(u, n', d')) then r.Converted? && IsPower(r.value, Convert(t, u, v).value, n / d)
      else r == Dangling
  {
    ConvertMeaning(t, u, v);
    PowersConvertible(t, u, n, d, n', d');
    ConvertMeaning(Pow(t, n, d), Pow(u, n', d'), y);
    PowerToBase(t, n, d, v, y);
    PowerFromBase(u, n', d', ToBase(t, v), ToBase(Pow(t, n, d), y));
  }

  lemma PowerToBase(t: Unit, n: int, d: int, v: real, y: real)
    requires WellFormed(Pow(t, n, d)) && Straight(t) && IsPower(y, v, n / d)
    ensures IsPower(ToBase(Pow(t, n, d), y), ToBase(t, v), n / d)
  {
    var x, k := ToBase(t, v), n / d;
    FromToBase(t, v);
    StraightFromBase(t, x);
    var z := PowerOf(x, v, y, k, ScalingFactor(t));
    PowerFromBase(t, n, d, x, z);
    OnePower(y, FromBase(Pow(t, n, d), z), v, k);
    ToFromBase(Pow(t, n, d), z);
  }

  // x has a k-th power, because v has one.
  lemma PowerOf(x: real, v: real, y: real, k: int, f: real) returns (z: real)
    requires IsPower(y, v, k) && v == x * f
    ensures IsPower(z, x, k)
  {
    if k >= 0 {
      z := Times(x, k);
    } else {
      TimesOfProduct(x, f, -k);
      z := y * Times(f, -k);
      var p, q := Times(x, -k), Times(f, -k);
      assert z * p == y * (p * q);
    }
  }

  lemma PowersConvertible(t: Unit, u: Unit, n: int, d: int, n': int, d': int)
    requires WellFormed(Pow(t, n, d)) && WellFormed(Pow(u, n', d')) && n / d == n' / d' && Convertible(t, u)
    ensures Convertible(Pow(t, n, d), Pow(u, n', d'))
  {
    ConvertibleIsSameExponents(t, u);
    SamePower(t, u, n, d, n', d');
    ConvertibleIsSameExponents(Pow(t, n, d), Pow(u, n', d'));
  }

  lemma SamePower(t: Unit, u: Unit, n: int, d: int, n': int, d': int)
    requires WellFormed(Pow(t, n, d)) && WellFormed(Pow(u, n', d')) && n / d == n' / d' && SameExponents(t, u)
    ensures SameExponents(Pow(t, n, d), Pow(u, n', d'))
  {
    assert forall b: nat :: Exponent(t, b) == Exponent(u, b);
  }
}
