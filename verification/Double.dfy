/**
 Rounding of exact numbers to 64-bit binary floating point: round to nearest, ties to even, 53 significant
 bits (section 4.3.1 of IEEE 754-2008), with exponents clamped to the finite range.
 */
module Double {

  const LOWEST := -1074
  const HIGHEST := 971

  function Pow2(e: int): (p: real)
    ensures p > 0.0
    decreases if e < 0 then -e else e
  {
    if e == 0 then 1.0 else if e > 0 then 2.0 * Pow2(e - 1) else Pow2(e + 1) / 2.0
  }

  lemma Pow2Succ(e: int)
    ensures Pow2(e + 1) == 2.0 * Pow2(e)
  {
  }

  /** The smallest exponent, from e upwards, at which x fits in 53 bits. */
  function UnitExponent(x: real, e: int): (u: int)
    requires LOWEST <= e <= HIGHEST
    ensures e <= u <= HIGHEST
    ensures x < Pow2(u + 53) || u == HIGHEST
    ensures u == e || x >= Pow2(u + 52)
    decreases HIGHEST - e, x
  {
    if x < Pow2(e + 53) || e == HIGHEST then e
    else UnitExponent(x, e + 1)
  }

  /** The integer nearest to q, the even one of two equally near. */
  function Nearest(q: real): (n: int)
    ensures n as real - 0.5 <= q <= n as real + 0.5
    ensures q == n as real + 0.5 || q == n as real - 0.5 ==> n % 2 == 0
  {
    var f := q.Floor;
    var rest := q - f as real;
    if rest < 0.5 then f
    else if rest > 0.5 then f + 1
    else if f % 2 == 0 then f else f + 1
  }

  /** m times unit, by adding up. */
  function Multiple(m: int, unit: real): real
    decreases if m < 0 then -m else m
  {
    if m == 0 then 0.0 else if m > 0 then Multiple(m - 1, unit) + unit else Multiple(m + 1, unit) - unit
  }

  lemma {:induction false} MultipleIs(m: int, unit: real)
    ensures Multiple(m, unit) == m as real * unit
    decreases if m < 0 then -m else m
  {
    if m > 0 {
      MultipleIs(m - 1, unit);
      assert m as real * unit == (m - 1) as real * unit + unit;
    } else if m < 0 {
      MultipleIs(m + 1, unit);
      assert m as real * unit == (m + 1) as real * unit - unit;
    }
  }

  /** The multiple of unit nearest to x. */
  function RoundTo(x: real, unit: real): real
    requires unit > 0.0
  {
    Multiple(Nearest(x / unit), unit)
  }

  lemma RoundToIs(x: real, unit: real)
    requires unit > 0.0
    ensures RoundTo(x, unit) == Nearest(x / unit) as real * unit
  {
    MultipleIs(Nearest(x / unit), unit);
  }

  function RoundMagnitude(x: real): real
    requires x >= 0.0
  {
    RoundTo(x, Pow2(UnitExponent(x, LOWEST)))
  }

  /** The double nearest to r. */
  function ToDouble(r: real): real {
    if r < 0.0 then -RoundMagnitude(-r) else RoundMagnitude(r)
  }

  /** r rounds past the largest double. */
  predicate Beyond(r: real) {
    ToDouble(r) >= Pow2(1024) || ToDouble(r) <= -Pow2(1024)
  }

  lemma BeyondIsLarge(r: real)
    requires Beyond(r)
    ensures ToDouble(r) > 18446744073709551616.0 || ToDouble(r) < -18446744073709551616.0
  {
    Pow2Values();
    Pow2Monotone(65, 1024);
  }

  // ---------------------------------------------------------------- powers of two

  lemma {:induction false} Pow2Monotone(a: int, b: int)
    requires a <= b
    ensures Pow2(a) <= Pow2(b)
    decreases b - a
  {
    if a < b {
      Pow2Monotone(a, b - 1);
      Pow2Succ(b - 1);
    }
  }

  lemma Shift13(e: int)
    ensures Pow2(e + 13) == 8192.0 * Pow2(e)
  {
    Pow2Succ(e);
    Pow2Succ(e + 1);
    Pow2Succ(e + 2);
    Pow2Succ(e + 3);
    Pow2Succ(e + 4);
    Pow2Succ(e + 5);
    Pow2Succ(e + 6);
    Pow2Succ(e + 7);
    Pow2Succ(e + 8);
    Pow2Succ(e + 9);
    Pow2Succ(e + 10);
    Pow2Succ(e + 11);
    Pow2Succ(e + 12);
  }

  lemma Shift52(e: int)
    ensures Pow2(e + 52) == 4503599627370496.0 * Pow2(e)
  {
    Shift13(e);
    Shift13(e + 13);
    Shift13(e + 26);
    Shift13(e + 39);
  }

  lemma Pow2Values()
    ensures Pow2(0) == 1.0
    ensures Pow2(11) == 2048.0 && Pow2(12) == 4096.0
    ensures Pow2(52) == 4503599627370496.0 && Pow2(53) == 9007199254740992.0
    ensures Pow2(63) == 9223372036854775808.0 && Pow2(64) == 18446744073709551616.0
    ensures Pow2(65) == 36893488147419103232.0
  {
    Shift52(0);
    Pow2Succ(52);
    Shift52(11);
    Pow2Succ(63);
    Pow2Succ(64);
  }

  /** A power of two up to one divides every integer: its inverse is an integer. */
  lemma {:induction false} InversePow2(e: int) returns (k: int)
    requires e <= 0
    ensures k > 0 && k as real * Pow2(e) == 1.0
    decreases -e
  {
    if e == 0 {
      k := 1;
    } else {
      var h := InversePow2(e + 1);
      k := 2 * h;
      Pow2Succ(e);
    }
  }

  /** The unit of a magnitude inside a binade is that binade's. */
  lemma UnitOf(x: real, u: int)
    requires LOWEST < u <= HIGHEST
    requires Pow2(u + 52) <= x < Pow2(u + 53)
    ensures UnitExponent(x, LOWEST) == u
  {
    var v := UnitExponent(x, LOWEST);
    if v < u {
      Pow2Monotone(v + 53, u + 52);
    } else if v > u {
      Pow2Monotone(u + 53, v + 52);
    }
  }

  lemma Divided(x: real, unit: real)
    requires unit > 0.0
    ensures (x / unit) * unit == x
  {
  }

  // ---------------------------------------------------------------- integers through a double

  lemma UnitOfSmall(x: real)
    requires 0.0 <= x <= 9007199254740992.0
    ensures UnitExponent(x, LOWEST) <= if x == 9007199254740992.0 then 1 else 0
  {
    var u := UnitExponent(x, LOWEST);
    Pow2Values();
    if u >= 1 {
      Pow2Monotone(53, u + 52);
      if u > 1 {
        Pow2Succ(53);
        Pow2Monotone(54, u + 52);
      }
    }
  }

  /** Integers up to 2^53 survive the rounding unchanged. */
  lemma SmallIntegersExact(n: int)
    requires 0 <= n <= 0x20_0000_0000_0000
    ensures ToDouble(n as real) == n as real
  {
    var u := UnitExponent(n as real, LOWEST);
    UnitOfSmall(n as real);
    if u <= 0 {
      var k := InversePow2(u);
      ScaledExact(n, k, Pow2(u));
    } else {
      RoundedEven(Pow2(1));
    }
  }

  lemma RoundedEven(unit: real)
    requires unit == 2.0
    ensures RoundTo(9007199254740992.0, unit) == 9007199254740992.0
  {
    assert Nearest(4503599627370496.0) == 0x10_0000_0000_0000;
    RoundToIs(9007199254740992.0, unit);
  }

  lemma ScaledExact(n: int, k: int, unit: real)
    requires k > 0 && unit > 0.0 && k as real * unit == 1.0
    ensures RoundTo(n as real, unit) == n as real
  {
    var m := n * k;
    assert m as real * unit == n as real by {
      assert m as real == n as real * k as real;
      Times(n as real, k as real, unit);
    }
    DivideBack(m as real, unit, n as real);
    assert Nearest(m as real) == m;
    RoundToIs(n as real, unit);
  }

  lemma Times(a: real, b: real, c: real)
    ensures (a * b) * c == a * (b * c)
  {
  }

  lemma DivideBack(m: real, unit: real, x: real)
    requires unit > 0.0 && m * unit == x
    ensures x / unit == m
  {
  }

  lemma UnitAtMost2048(x: real)
    requires 0.0 <= x < 18446744073709551616.0
    ensures 0.0 < Pow2(UnitExponent(x, LOWEST)) <= 2048.0
  {
    var u := UnitExponent(x, LOWEST);
    Pow2Values();
    if u > 11 {
      Pow2Monotone(64, u + 52);
      assert false;
    }
    Pow2Monotone(u, 11);
  }

  /** Below 2^64 the rounding error is at most 1024. */
  lemma ErrorBound(x: real)
    requires 0.0 <= x < 18446744073709551616.0
    ensures x - 1024.0 <= ToDouble(x) <= x + 1024.0
  {
    UnitAtMost2048(x);
    RoundedWithin(x, Pow2(UnitExponent(x, LOWEST)));
  }

  lemma RoundedWithin(x: real, unit: real)
    requires 0.0 < unit <= 2048.0
    ensures x - 1024.0 <= RoundTo(x, unit) <= x + 1024.0
  {
    Divided(x, unit);
    RoundToIs(x, unit);
    Scaled(Nearest(x / unit) as real, x / unit, unit);
  }

  lemma Scaled(n: real, q: real, unit: real)
    requires 0.0 < unit <= 2048.0 && n - 0.5 <= q <= n + 0.5
    ensures q * unit - 1024.0 <= n * unit <= q * unit + 1024.0
  {
    TimesWithin(q, n, unit);
    TimesWithin(n, q, unit);
  }

  lemma TimesWithin(a: real, b: real, unit: real)
    requires 0.0 < unit <= 2048.0 && a <= b + 0.5
    ensures a * unit <= b * unit + 1024.0
  {
    var gap := b + 0.5 - a;
    assert gap * unit >= 0.0;
    assert gap * unit == b * unit + 0.5 * unit - a * unit;
  }

  /** Exactly the numbers below 2^64 - 1024 stay below 2^64. */
  lemma BelowLimit(x: real)
    requires 0.0 <= x
    ensures ToDouble(x) < 18446744073709551616.0 <==> x < 18446744073709550592.0
    ensures 18446744073709550592.0 <= x <= 18446744073709551616.0 ==> ToDouble(x) == 18446744073709551616.0
  {
    Pow2Values();
    if x < 9223372036854775808.0 {
      ErrorBound(x);
    } else if x < 18446744073709551616.0 {
      UnitOf(x, 11);
      RoundToIs(x, 2048.0);
      NearestOf2048(x);
    } else {
      AboveLimit(x);
    }
  }

  lemma NearestOf2048(x: real)
    requires 9223372036854775808.0 <= x < 18446744073709551616.0
    ensures Nearest(x / 2048.0) < 0x20_0000_0000_0000 <==> x < 18446744073709550592.0
    ensures Nearest(x / 2048.0) <= 0x20_0000_0000_0000
  {
    var q := x / 2048.0;
    var m := Nearest(q);
    if x < 18446744073709550592.0 {
      assert q < 9007199254740991.5;
    } else {
      assert 9007199254740991.5 <= q < 9007199254740992.0;
      assert m == 0x1f_ffff_ffff_ffff ==> q == m as real + 0.5;
    }
  }

  /** Exactly the numbers up to 2^64 + 2048 round to 2^64 or less. */
  lemma AboveLimit(x: real)
    requires 18446744073709551616.0 <= x
    ensures ToDouble(x) >= 18446744073709551616.0
    ensures ToDouble(x) == 18446744073709551616.0 <==> x <= 18446744073709553664.0
  {
    Pow2Values();
    if x < 36893488147419103232.0 {
      UnitOf(x, 12);
      RoundToIs(x, 4096.0);
      NearestOf4096(x);
    } else {
      var u := UnitExponent(x, LOWEST);
      if u < 13 {
        Pow2Monotone(u + 53, 65);
        assert false;
      }
      LargeQuotient(x, u);
    }
  }

  lemma NearestOf4096(x: real)
    requires 18446744073709551616.0 <= x
    ensures Nearest(x / 4096.0) >= 0x10_0000_0000_0000
    ensures Nearest(x / 4096.0) == 0x10_0000_0000_0000 <==> x <= 18446744073709553664.0
  {
    var q := x / 4096.0;
    var m := Nearest(q);
    if x <= 18446744073709553664.0 {
      assert q <= 4503599627370496.5;
      assert m <= 0x10_0000_0000_0001;
      assert m == 0x10_0000_0000_0001 ==> q == m as real - 0.5;
    } else {
      assert q > 4503599627370496.5;
    }
  }

  lemma LargeQuotient(x: real, u: int)
    requires u == UnitExponent(x, LOWEST) && u >= 13
    requires x >= 0.0
    ensures RoundMagnitude(x) >= 36893488147419103232.0
  {
    Pow2Values();
    var unit := Pow2(u);
    assert unit >= 8192.0 by {
      Pow2Monotone(13, u);
      Pow2Succ(12);
    }
    Shift52(u);
    QuotientAtLeast(x, 4503599627370496.0, unit);
    var m := Nearest(x / unit);
    RoundToIs(x, unit);
    assert m >= 0x10_0000_0000_0000;
    ProductAtLeast(m as real, 4503599627370496.0, unit);
  }

  lemma QuotientAtLeast(x: real, c: real, unit: real)
    requires unit > 0.0 && x >= c * unit
    ensures x / unit >= c
  {
    Divided(x, unit);
  }

  lemma ProductAtLeast(m: real, c: real, unit: real)
    requires m >= c > 0.0 && unit >= 8192.0
    ensures m * unit >= c * 8192.0
  {
    assert m * unit >= c * unit;
  }

  /** A natural number rounds to a natural number. */
  lemma IntegerRounds(n: int)
    requires 0 <= n
    ensures ToDouble(n as real) >= 0.0
    ensures ToDouble(n as real).Floor as real == ToDouble(n as real)
  {
    if n <= 0x20_0000_0000_0000 {
      SmallIntegersExact(n);
    } else {
      var u := UnitExponent(n as real, LOWEST);
      Pow2Values();
      if u < 0 {
        Pow2Monotone(u + 53, 53);
        assert false;
      }
      var k := IntegerPow2(u);
      MultipleIsInteger(n as real, k);
    }
  }

  lemma {:induction false} IntegerPow2(e: nat) returns (k: int)
    ensures k > 0 && k as real == Pow2(e)
  {
    if e == 0 {
      k := 1;
    } else {
      var h := IntegerPow2(e - 1);
      k := 2 * h;
    }
  }

  lemma MultipleIsInteger(x: real, k: int)
    requires k > 0 && x >= 0.0
    ensures RoundTo(x, k as real) >= 0.0
    ensures RoundTo(x, k as real).Floor as real == RoundTo(x, k as real)
  {
    var m := Nearest(x / k as real);
    QuotientAtLeast(x, 0.0, k as real);
    ProductOfIntegers(m, k);
    RoundToIs(x, k as real);
    assert RoundTo(x, k as real) == (m * k) as real;
  }

  lemma ProductOfIntegers(m: int, k: int)
    requires m >= 0 && k > 0
    ensures (m * k) as real == m as real * k as real
    ensures m * k >= 0
  {
  }

  /** A positive integer rounds to a positive number, so a negative one to a negative number. */
  lemma PositiveStaysPositive(n: int)
    requires 0 < n
    ensures ToDouble(n as real) > 0.0 && ToDouble(-n as real) < 0.0
  {
    assert -(-n as real) == n as real;
    if n <= 0x20_0000_0000_0000 {
      SmallIntegersExact(n);
    } else if n < 0x1_0000_0000_0000_0000 {
      ErrorBound(n as real);
    } else {
      AboveLimit(n as real);
    }
  }

  /** A non-negative number never rounds to a negative one. */
  lemma NeverNegative(x: real)
    requires 0.0 <= x
    ensures ToDouble(x) >= 0.0
  {
    var unit := Pow2(UnitExponent(x, LOWEST));
    QuotientAtLeast(x, 0.0, unit);
    ProductNotNegative(Nearest(x / unit) as real, unit);
    RoundToIs(x, unit);
  }

  lemma ProductNotNegative(m: real, unit: real)
    requires m >= 0.0 && unit > 0.0
    ensures m * unit >= 0.0
  {
  }

  // ---------------------------------------------------------------- rounding to nearest, ties to even

  function Abs(x: real): real {
    if x < 0.0 then -x else x
  }

  /** d is a double of the format: an integer of at most 53 bits times a power of two within the exponents. */
  predicate IsDouble(d: real, m: int, e: int) {
    -1074 <= e <= 971 && -0x20_0000_0000_0000 <= m <= 0x20_0000_0000_0000 && d == Multiple(m, Pow2(e))
  }

  /** A larger power of two is an integer multiple of a smaller one. */
  lemma {:induction false} Pow2Multiple(e: int, u: int) returns (k: int)
    requires u <= e
    ensures k > 0 && Pow2(e) == Multiple(k, Pow2(u))
    decreases e - u
  {
    if e == u {
      k := 1;
      MultipleOne(Pow2(u));
    } else {
      var h := Pow2Multiple(e - 1, u);
      k := 2 * h;
      Pow2Succ(e - 1);
      MultipleTwice(h, Pow2(u));
    }
  }

  lemma MultipleOne(unit: real)
    ensures Multiple(1, unit) == unit
  {
    MultipleIs(1, unit);
  }

  lemma MultipleTwice(h: int, unit: real)
    ensures Multiple(2 * h, unit) == 2.0 * Multiple(h, unit)
  {
    MultipleIs(h, unit);
    MultipleIs(2 * h, unit);
    Times(2.0, h as real, unit);
  }

  /** No integer is nearer to q than one within a half. */
  lemma NearestInteger(n: int, q: real, k: int)
    requires n as real - 0.5 <= q <= n as real + 0.5
    ensures Abs(n as real - q) <= Abs(k as real - q)
  {
    if k > n {
      assert k as real >= n as real + 1.0;
    } else if k < n {
      assert k as real <= n as real - 1.0;
    }
  }

  /** Scaling by a positive unit keeps the order of distances. */
  lemma ScaledNearer(a: real, b: real, q: real, unit: real)
    requires unit > 0.0 && Abs(a - q) <= Abs(b - q)
    ensures Abs(a * unit - q * unit) <= Abs(b * unit - q * unit)
  {
    ScaledAbs(a, q, unit);
    ScaledAbs(b, q, unit);
    TimesLeq(Abs(a - q), Abs(b - q), unit);
  }

  lemma ScaledAbs(a: real, q: real, unit: real)
    requires unit > 0.0
    ensures Abs(a * unit - q * unit) == Abs(a - q) * unit
  {
    Difference(a, q, unit);
    if a - q >= 0.0 {
      TimesLeq(0.0, a - q, unit);
    } else {
      TimesLeq(a - q, 0.0, unit);
      Opposite(a - q, unit);
    }
  }

  lemma Difference(a: real, q: real, unit: real)
    ensures a * unit - q * unit == (a - q) * unit
  {
  }

  lemma Opposite(a: real, unit: real)
    ensures (-a) * unit == -(a * unit)
  {
  }

  lemma TimesLeq(a: real, b: real, unit: real)
    requires a <= b && unit > 0.0
    ensures a * unit <= b * unit
  {
    assert (b - a) * unit >= 0.0;
    assert (b - a) * unit == b * unit - a * unit;
  }

  /** The magnitude is below the end of the range of doubles, 2^1024. */
  ghost predicate InRange(x: real) {
    exists e :: e <= 1024 && x < Pow2(e)
  }

  lemma InRangeFits(x: real)
    requires 0.0 <= x && InRange(x)
    ensures x < Pow2(UnitExponent(x, LOWEST) + 53)
  {
    var e :| e <= 1024 && x < Pow2(e);
    var u := UnitExponent(x, LOWEST);
    if u == HIGHEST {
      Pow2Monotone(e, u + 53);
    }
  }

  lemma RoundedForm(x: real, u: int, q: real, n: int)
    requires 0.0 <= x && u == UnitExponent(x, LOWEST) && q == x / Pow2(u) && n == Nearest(q)
    ensures ToDouble(x) == Multiple(n, Pow2(u))
  {
  }

  lemma ShiftUnit(u: int)
    ensures Pow2(u + 52) == 4503599627370496.0 * Pow2(u)
    ensures Pow2(u + 53) == 9007199254740992.0 * Pow2(u)
  {
    Shift52(u);
    Pow2Succ(u + 52);
  }

  /** The rounded magnitude is a double; exactly between two multiples of its unit, it is the even one. */
  lemma RoundedIsDouble(x: real) returns (n: int, u: int)
    requires 0.0 <= x && InRange(x)
    ensures u == UnitExponent(x, LOWEST) && IsDouble(ToDouble(x), n, u)
    ensures n as real - 0.5 <= x / Pow2(u) <= n as real + 0.5
    ensures Abs(n as real - x / Pow2(u)) == 0.5 ==> n % 2 == 0
  {
    u := UnitExponent(x, LOWEST);
    InRangeFits(x);
    ShiftUnit(u);
    QuotientBetween(x, 9007199254740992.0, Pow2(u));
    n := Rounded(x / Pow2(u));
    RoundedForm(x, u, x / Pow2(u), n);
  }

  lemma Rounded(q: real) returns (n: int)
    requires 0.0 <= q < 9007199254740992.0
    ensures n == Nearest(q) && 0 <= n <= 0x20_0000_0000_0000
    ensures n as real - 0.5 <= q <= n as real + 0.5
    ensures Abs(n as real - q) == 0.5 ==> n % 2 == 0
  {
    n := Nearest(q);
  }

  lemma QuotientBetween(x: real, c: real, unit: real)
    requires unit > 0.0 && 0.0 <= x < c * unit
    ensures 0.0 <= x / unit < c
  {
    var q := x / unit;
    Divided(x, unit);
    if q >= c {
      TimesLeq(c, q, unit);
      assert false;
    }
    if q < 0.0 {
      NegativeProduct(q, unit);
      assert false;
    }
  }

  lemma NegativeProduct(q: real, unit: real)
    requires q < 0.0 && unit > 0.0
    ensures q * unit < 0.0
  {
  }

  /** No double is nearer to a magnitude than its rounding. */
  lemma NearestMagnitude(x: real, d: real, m: int, e: int)
    requires 0.0 <= x && InRange(x) && IsDouble(d, m, e)
    ensures Abs(ToDouble(x) - x) <= Abs(d - x)
  {
    var n, u := RoundedIsDouble(x);
    if u <= e {
      var k := Pow2Multiple(e, u);
      NearestOfMultiples(x, n, m, k, Pow2(e), Pow2(u));
    } else {
      ShiftUnit(u);
      NearestToBinade(x, n, Pow2(u));
      SmallerDouble(m, e, u);
    }
  }

  lemma NearestOfMultiples(x: real, n: int, m: int, k: int, power: real, unit: real)
    requires unit > 0.0 && power == Multiple(k, unit) && n as real - 0.5 <= x / unit <= n as real + 0.5
    ensures Abs(Multiple(n, unit) - x) <= Abs(Multiple(m, power) - x)
  {
    MultipleOfMultiple(m, k, power, unit);
    NearerMultiple(x, unit, n, m * k);
  }

  lemma MultipleOfMultiple(m: int, k: int, power: real, unit: real)
    requires power == Multiple(k, unit)
    ensures Multiple(m, power) == Multiple(m * k, unit)
  {
    MultipleIs(m, power);
    MultipleIs(k, unit);
    MultipleIs(m * k, unit);
    Times(m as real, k as real, unit);
    ProductAsReal(m, k);
  }

  lemma ProductAsReal(m: int, k: int)
    ensures (m * k) as real == m as real * k as real
  {
  }

  lemma NearerMultiple(x: real, unit: real, n: int, j: int)
    requires unit > 0.0 && n as real - 0.5 <= x / unit <= n as real + 0.5
    ensures Abs(Multiple(n, unit) - x) <= Abs(Multiple(j, unit) - x)
  {
    var q := x / unit;
    NearestInteger(n, q, j);
    Divided(x, unit);
    NearerOfTwo(n, j, q, unit, x, Multiple(n, unit), Multiple(j, unit));
  }

  lemma NearerOfTwo(n: int, j: int, q: real, unit: real, x: real, a: real, b: real)
    requires unit > 0.0 && x == q * unit && Abs(n as real - q) <= Abs(j as real - q)
    requires a == Multiple(n, unit) && b == Multiple(j, unit)
    ensures Abs(a - x) <= Abs(b - x)
  {
    MultipleIs(n, unit);
    MultipleIs(j, unit);
    ScaledNearer(n as real, j as real, q, unit);
    SameDistances(n as real * unit, j as real * unit, q * unit, a, b, x);
  }

  lemma SameDistances(p: real, r: real, y: real, a: real, b: real, x: real)
    requires a == p && b == r && x == y && Abs(p - y) <= Abs(r - y)
    ensures Abs(a - x) <= Abs(b - x)
  {
  }

  lemma NearestToBinade(x: real, n: int, unit: real)
    requires unit > 0.0 && 4503599627370496.0 * unit <= x && n as real - 0.5 <= x / unit <= n as real + 0.5
    ensures Abs(Multiple(n, unit) - x) <= x - 4503599627370496.0 * unit
  {
    NearerMultiple(x, unit, n, 0x10_0000_0000_0000);
    BinadeStart(unit);
  }

  lemma BinadeStart(unit: real)
    ensures Multiple(0x10_0000_0000_0000, unit) == 4503599627370496.0 * unit
  {
    MultipleIs(0x10_0000_0000_0000, unit);
  }

  /** A double with a smaller exponent is at most the least magnitude of the binade. */
  lemma SmallerDouble(m: int, e: int, u: int)
    requires m <= 0x20_0000_0000_0000 && e < u
    ensures Multiple(m, Pow2(e)) <= Pow2(u + 52)
  {
    ShiftUnit(e);
    Pow2Monotone(e + 53, u + 52);
    MultipleBounded(m, Pow2(e));
  }

  lemma MultipleBounded(m: int, unit: real)
    requires m <= 0x20_0000_0000_0000 && unit > 0.0
    ensures Multiple(m, unit) <= 9007199254740992.0 * unit
  {
    MultipleIs(m, unit);
    TimesLeq(m as real, 9007199254740992.0, unit);
  }

  /** Rounding is to nearest: within the range of the format no double is nearer to x than ToDouble(x), itself one. */
  lemma NearestDouble(x: real, d: real, m: int, e: int) returns (n: int, u: int)
    requires InRange(Abs(x)) && IsDouble(d, m, e)
    ensures IsDouble(ToDouble(x), n, u)
    ensures Abs(ToDouble(x) - x) <= Abs(d - x)
  {
    if x >= 0.0 {
      n, u := RoundedIsDouble(x);
      NearestMagnitude(x, d, m, e);
    } else {
      n, u := RoundedIsDouble(-x);
      NegatedDouble(ToDouble(-x), n, u);
      NegatedDouble(d, m, e);
      NearestMagnitude(-x, -d, -m, e);
      NegatedRounding(x);
      n := -n;
    }
  }

  lemma NegatedRounding(x: real)
    requires x < 0.0
    ensures ToDouble(x) == -ToDouble(-x)
  {
  }

  lemma NegatedDouble(d: real, m: int, e: int)
    requires IsDouble(d, m, e)
    ensures IsDouble(-d, -m, e)
  {
    NegatedProduct(m, Pow2(e));
  }

  lemma NegatedProduct(m: int, power: real)
    ensures Multiple(-m, power) == -Multiple(m, power)
  {
    MultipleIs(m, power);
    MultipleIs(-m, power);
    assert (-m) as real == -(m as real);
    Opposite(m as real, power);
  }

  /** A double is its own rounding. */
  lemma DoublesAreExact(x: real, m: int, e: int)
    requires InRange(Abs(x)) && IsDouble(x, m, e)
    ensures ToDouble(x) == x
  {
    var n, u := NearestDouble(x, x, m, e);
  }
}
