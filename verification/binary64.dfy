/** IEEE 754 binary64 numbers and their exact conversion to decimal integers
    (packages/harness-plugin/src/runtime/coordination-deadlines.ts). */
module Binary64 {
  import opened Decimal

  function Pow2(n: nat): (p: nat)
    ensures p >= 1
  {
    if n == 0 then 1 else 2 * Pow2(n - 1)
  }

  function Pow5(n: nat): (p: nat)
    ensures p >= 1
  {
    if n == 0 then 1 else 5 * Pow5(n - 1)
  }

  /** The three fields of the 64 bits. */
  datatype Double = Double(negative: bool, exponent: nat, fraction: nat)

  predicate WellFormed(d: Double) { d.exponent < 2048 && d.fraction < Pow2(52) }

  /** Number.isFinite: infinities and NaN have the largest exponent. */
  predicate Finite(d: Double) { WellFormed(d) && d.exponent < 2047 }

  function Mantissa(d: Double): nat {
    if d.exponent == 0 then d.fraction else d.fraction + Pow2(52)
  }

  function Shift(d: Double): int {
    if d.exponent == 0 then -1074 else d.exponent - 1075
  }

  /** The number a finite double denotes. */
  function Value(d: Double): real
    requires Finite(d)
  {
    var shift := Shift(d);
    var magnitude := if shift < 0 then Mantissa(d) as real / Pow2(-shift) as real
                     else Mantissa(d) as real * Pow2(shift) as real;
    if d.negative then 0.0 - magnitude else magnitude
  }

  /** clockUnits: the number in units of 1/scale, by integer arithmetic alone. */
  function ClockUnits(d: Double, scale: nat): int
    requires Finite(d)
  {
    var shift := Shift(d);
    var magnitude := if shift < 0 then Mantissa(d) * scale / Pow2(-shift)
                     else Mantissa(d) * scale * Pow2(shift);
    if d.negative then -magnitude else magnitude
  }

  lemma {:induction false} Pow2Add(m: nat, n: nat)
    ensures Pow2(m + n) == Pow2(m) * Pow2(n)
  {
    if m > 0 { Pow2Add(m - 1, n); }
  }

  lemma RatioTimes(m: nat, p: nat, q: nat, r: nat)
    requires p >= 1 && r == p * q
    ensures m as real / p as real * r as real == (m * q) as real
  {
    var x := m as real / p as real;
    assert x * p as real == m as real;
    assert r as real == p as real * q as real;
    assert x * (p as real * q as real) == x * p as real * q as real;
    assert (m * q) as real == m as real * q as real;
  }

  lemma ProductTimes(m: nat, p: nat, q: nat, r: nat)
    requires p * q == r
    ensures m as real * p as real * q as real == (m * r) as real
  {
    assert m as real * p as real * q as real == m as real * (p as real * q as real);
    assert p as real * q as real == r as real;
    assert (m * r) as real == m as real * r as real;
  }

  /** A double in the sense of IEEE 754: (1 + fraction / 2^52) * 2^(exponent - 1023), or
      fraction / 2^52 * 2^-1022 for the least exponent, with its sign. */
  lemma DoubleMeans(d: Double)
    requires Finite(d)
    ensures var magnitude := if d.negative then 0.0 - Value(d) else Value(d);
            if d.exponent == 0 then magnitude * Pow2(1022 + 52) as real == d.fraction as real
            else magnitude * Pow2(1023 + 52) as real == ((Pow2(52) + d.fraction) * Pow2(d.exponent)) as real
  {
    hide Pow2;
    if d.exponent == 0 {
      RatioTimes(d.fraction, Pow2(1074), 1, Pow2(1074));
    } else if d.exponent < 1075 {
      Pow2Add(1075 - d.exponent, d.exponent);
      RatioTimes(Mantissa(d), Pow2(1075 - d.exponent), Pow2(d.exponent), Pow2(1075));
    } else {
      Pow2Add(d.exponent - 1075, 1075);
      ProductTimes(Mantissa(d), Pow2(d.exponent - 1075), Pow2(1075), Pow2(d.exponent));
    }
  }

  /** The integer u is exactly x in units of 1/scale. */
  ghost predicate Scaled(u: int, x: real, scale: int) { u as real == x * scale as real }

  lemma {:induction false} TwosAndFives(d: nat, k: nat)
    requires k <= d
    ensures Pow10(d) == Pow2(k) * (Pow2(d - k) * Pow5(d))
  {
    if d > 0 {
      if k == 0 {
        TwosAndFives(d - 1, 0);
        MulRegroup(Pow2(d - 1), Pow5(d - 1));
      } else {
        TwosAndFives(d - 1, k - 1);
        MulRegroup5(Pow2(k - 1), Pow2(d - k), Pow5(d - 1));
      }
    }
  }

  lemma MulRegroup(a: int, b: int)
    ensures 10 * (a * b) == (2 * a) * (5 * b)
  {}

  lemma MulRegroup5(a: int, b: int, c: int)
    ensures 10 * (a * (b * c)) == (2 * a) * (b * (5 * c))
  {
    MulAssociates(a, b, c);
    MulAssociates(2 * a, b, 5 * c);
    MulRegroup(a * b, c);
  }

  lemma DivExact(p: nat, c: nat, m: nat)
    requires p >= 1
    ensures m * (p * c) / p == m * c
  {
    assert m * (p * c) == p * (m * c);
    DivOfMultiple(p, m * c);
  }

  lemma DivOfMultiple(p: nat, q: int)
    requires p >= 1
    ensures p * q / p == q
  {
    var r := p * q / p;
    assert p * q == p * r + p * q % p;
    assert p * (q - r) == p * q % p;
    if q > r { MulGap(r, q, p); }
    if q < r { MulGap(q, r, p); }
  }

  lemma ScaledQuotient(m: nat, p: nat, c: nat)
    requires p >= 1
    ensures Scaled(m * (p * c) / p, m as real / p as real, p * c)
  {
    DivExact(p, c, m);
    ScaledRatio(m, p, c);
  }

  lemma ScaledRatio(m: nat, p: nat, c: nat)
    requires p >= 1
    ensures Scaled(m * c, m as real / p as real, p * c)
  {
    RealQuotient(m as real, p as real, c as real);
    assert (p * c) as real == p as real * c as real;
    assert (m * c) as real == m as real * c as real;
  }

  lemma RealQuotient(m: real, p: real, c: real)
    requires p > 0.0
    ensures m / p * (p * c) == m * c
  {
    assert m / p * p == m;
    assert m / p * (p * c) == m / p * p * c;
  }

  lemma ScaledProduct(m: nat, scale: nat, p: nat)
    ensures Scaled(m * scale * p, m as real * p as real, scale)
  {
    assert m * scale * p == (m * p) * scale;
    assert ((m * p) * scale) as real == (m * p) as real * scale as real;
    assert (m * p) as real == m as real * p as real;
  }

  /** With at least 1074 decimal digits no finite double is rounded: the integer
      is the number itself, down to the smallest subnormal. */
  lemma ClockUnitsExact(d: Double, digits: nat)
    requires Finite(d) && digits >= 1074
    ensures Scaled(ClockUnits(d, Pow10(digits)), Value(d), Pow10(digits))
  {
    hide Pow2, Pow5, Pow10, Mantissa;
    var m, shift, scale := Mantissa(d), Shift(d), Pow10(digits);
    if shift < 0 {
      TwosAndFives(digits, -shift);
      ScaledQuotient(m, Pow2(-shift), Pow2(digits + shift) * Pow5(digits));
    } else {
      ScaledProduct(m, scale, Pow2(shift));
    }
  }

  // ----- exact integers behave as the numbers they stand for -----

  lemma ScaledSum(u: int, x: real, v: int, y: real, scale: int)
    requires Scaled(u, x, scale) && Scaled(v, y, scale)
    ensures Scaled(u + v, x + y, scale) && Scaled(u - v, x - y, scale)
  {
    assert (x + y) * scale as real == x * scale as real + y * scale as real;
    assert (x - y) * scale as real == x * scale as real - y * scale as real;
  }

  lemma ScaledWhole(k: int, scale: int)
    ensures Scaled(k * scale, k as real, scale)
  {}

  lemma RealMulMonotone(x: real, y: real, s: real)
    requires s > 0.0
    ensures x <= y <==> x * s <= y * s
    ensures x < y <==> x * s < y * s
  {
    if x < y { assert (y - x) * s > 0.0; }
    if y < x { assert (x - y) * s > 0.0; }
  }

  lemma ScaledOrder(u: int, x: real, v: int, y: real, scale: int)
    requires scale > 0 && Scaled(u, x, scale) && Scaled(v, y, scale)
    ensures (u < v <==> x < y) && (u <= v <==> x <= y)
  {
    RealMulMonotone(x, y, scale as real);
  }

  lemma ScaledFloor(u: int, x: real, scale: int)
    requires scale > 0 && Scaled(u, x, scale)
    ensures u / scale == x.Floor
  {
    var q := u / scale;
    assert q * scale <= u < q * scale + scale;
    ScaledWhole(q, scale);
    ScaledWhole(q + 1, scale);
    assert (q + 1) * scale == q * scale + scale;
    ScaledOrder(q * scale, q as real, u, x, scale);
    ScaledOrder(u, x, (q + 1) * scale, (q + 1) as real, scale);
    FloorUnique(x, q);
  }

  lemma FloorUnique(x: real, q: int)
    requires q as real <= x < (q + 1) as real
    ensures x.Floor == q
  {}

  lemma ScaledUnique(u: int, x: real, y: real, scale: int)
    requires scale > 0 && Scaled(u, x, scale) && Scaled(u, y, scale)
    ensures x == y
  {
    ScaledOrder(u, x, u, y, scale);
  }

  lemma ScaledTimes(u: int, x: real, scale: int, k: int)
    requires Scaled(u, x, scale)
    ensures Scaled(u * k, x, scale * k)
  {
    assert (u * k) as real == u as real * k as real;
    assert (scale * k) as real == scale as real * k as real;
    assert x * scale as real * k as real == x * (scale as real * k as real);
  }
}
