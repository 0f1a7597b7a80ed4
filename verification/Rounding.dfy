/** Bucket keys are exact. Amounts are stored with two decimals, read as binary64 numbers, multiplied by
    100 in binary64 and rounded to an integer; both steps round to nearest (section 4.3.1 of
    IEEE 754-2019). */
module Rounding {

  function Pow2(e: int): (r: real)
    ensures r > 0.0
    decreases if e < 0 then -e else e
  {
    if e == 0 then 1.0
    else if e > 0 then 2.0 * Pow2(e - 1)
    else Pow2(e + 1) / 2.0
  }

  const P52 := 0x10_0000_0000_0000
  const P53 := 0x20_0000_0000_0000

  /** A number with a 53-bit significand. (The amounts below stay clear of both ends of the exponent range.) */
  ghost predicate IsDouble(x: real) {
    exists m: int, e: int :: Scaled(m, e, x)
  }

  predicate Scaled(m: int, e: int, x: real) {
    -P53 < m < P53 && x == m as real * Pow2(e)
  }

  function Abs(x: real): real {
    if x < 0.0 then -x else x
  }

  /** `x` is a double nearest to `v`; ties may go either way. */
  ghost predicate Nearest(v: real, x: real) {
    IsDouble(x) && forall y :: IsDouble(y) ==> Abs(x - v) <= Abs(y - v)
  }

  /** `math.Round`: to the nearest integer, halves away from zero. */
  function Round(y: real): int {
    if y < 0.0 then -((-y + 0.5).Floor) else (y + 0.5).Floor
  }

  lemma RoundIs(y: real)
    ensures Abs(y - Round(y) as real) <= 0.5
    ensures Abs(y - Round(y) as real) == 0.5 ==> Abs(Round(y) as real) > Abs(y)
  {}

  lemma Pow2Up(e: int)
    ensures Pow2(e + 1) == 2.0 * Pow2(e)
  {}

  function Doubled(x: real, n: nat): real {
    if n == 0 then x else 2.0 * Doubled(x, n - 1)
  }

  lemma {:induction false} DoubledTwice(x: real, m: nat, n: nat)
    ensures Doubled(x, m + n) == Doubled(Doubled(x, m), n)
    decreases n
  {
    if n > 0 {
      DoubledTwice(x, m, n - 1);
    }
  }

  lemma {:induction false} Pow2Shift(e: int, n: nat)
    ensures Pow2(e + n) == Doubled(Pow2(e), n)
    decreases n
  {
    if n > 0 {
      Pow2Shift(e, n - 1);
      Pow2Up(e + n - 1);
    }
  }

  lemma Doubled2(x: real)
    ensures Doubled(x, 1) == 2.0 * x && Doubled(x, 2) == 4.0 * x
  {
    assert Doubled(x, 0) == x;
    assert Doubled(x, 1) == 2.0 * Doubled(x, 0);
    assert Doubled(x, 2) == 2.0 * Doubled(x, 1);
  }

  lemma Doubled10(x: real)
    ensures Doubled(x, 10) == 1024.0 * x
  {
    Doubled2(x);
    DoubledTwice(x, 2, 2);
    Doubled2(4.0 * x);
    DoubledTwice(x, 4, 2);
    Doubled2(16.0 * x);
    DoubledTwice(x, 6, 2);
    Doubled2(64.0 * x);
    DoubledTwice(x, 8, 2);
    Doubled2(256.0 * x);
  }

  lemma Doubled52(x: real)
    ensures Doubled(x, 50) == 1125899906842624.0 * x
    ensures Doubled(x, 52) == P52 as real * x && Doubled(x, 53) == P53 as real * x
  {
    Doubled10(x);
    DoubledTwice(x, 10, 10);
    Doubled10(1024.0 * x);
    DoubledTwice(x, 20, 10);
    Doubled10(1048576.0 * x);
    DoubledTwice(x, 30, 10);
    Doubled10(1073741824.0 * x);
    DoubledTwice(x, 40, 10);
    Doubled10(1099511627776.0 * x);
    DoubledTwice(x, 50, 2);
    Doubled2(1125899906842624.0 * x);
    DoubledTwice(x, 52, 1);
    Doubled2(P52 as real * x);
  }

  lemma SmallPowers()
    ensures Pow2(-10) == 1.0 / 1024.0 && Pow2(50) == 1125899906842624.0
  {
    Pow2Shift(-10, 10);
    Doubled10(Pow2(-10));
    Pow2Shift(0, 50);
    Doubled52(1.0);
  }

  /** The power of two just below a number that lies between two powers of two. */
  lemma {:induction false} Binade(v: real, lo: int, hi: int) returns (k: int)
    requires lo < hi && Pow2(lo) <= v < Pow2(hi)
    ensures Pow2(k) <= v < Pow2(k + 1)
    decreases hi - lo
  {
    if v >= Pow2(hi - 1) {
      k := hi - 1;
    } else {
      k := Binade(v, lo, hi - 1);
    }
  }

  /** The `m`-th multiple of a unit, by repeated addition. */
  function Multiple(m: nat, unit: real): real {
    if m == 0 then 0.0 else Multiple(m - 1, unit) + unit
  }

  lemma OneMore(a: real, u: real)
    ensures (a + 1.0) * u == a * u + u
  {}

  lemma {:induction false} MultipleIsProduct(m: nat, unit: real)
    ensures Multiple(m, unit) == m as real * unit
    decreases m
  {
    if m > 0 {
      MultipleIsProduct(m - 1, unit);
      OneMore((m - 1) as real, unit);
      assert (m - 1) as real + 1.0 == m as real;
    }
  }

  /** A power of two in multiples of the unit 52 or 53 binary places below. */
  lemma Scale(e: int)
    ensures Pow2(e + 52) == Multiple(P52, Pow2(e)) == P52 as real * Pow2(e)
    ensures Pow2(e + 53) == Multiple(P53, Pow2(e))
  {
    Pow2Shift(e, 52);
    Pow2Shift(e, 53);
    Doubled52(Pow2(e));
    MultipleIsProduct(P52, Pow2(e));
    MultipleIsProduct(P53, Pow2(e));
  }

  /** The multiples of a unit on either side of a number. */
  lemma {:induction false} Between(v: real, unit: real, hi: nat) returns (m: nat)
    requires 0.0 <= v < Multiple(hi, unit)
    ensures m < hi && Multiple(m, unit) <= v < Multiple(m, unit) + unit
    decreases hi
  {
    if Multiple(hi - 1, unit) <= v {
      m := hi - 1;
    } else {
      m := Between(v, unit, hi - 1);
    }
  }

  lemma MultiplesAreDoubles(m: nat, e: int)
    requires m <= P53
    ensures IsDouble(Multiple(m, Pow2(e)))
  {
    MultipleIsProduct(m, Pow2(e));
    if m < P53 {
      assert Scaled(m, e, Multiple(m, Pow2(e)));
    } else {
      Pow2Up(e);
      assert Scaled(P52, e + 1, Multiple(m, Pow2(e)));
    }
  }

  /** Between two consecutive multiples of a unit, the nearer one is within half a unit. */
  lemma HalfUnit(v: real, x: real, below: real, above: real)
    requires below <= v <= above && Nearest(v, x) && IsDouble(below) && IsDouble(above)
    ensures Abs(x - v) <= (above - below) / 2.0
  {
    assert Abs(x - v) <= Abs(below - v) && Abs(x - v) <= Abs(above - v);
  }

  /** The doubles around a number of the binade of 2^k. */
  lemma Neighbours(v: real, k: int) returns (below: real, above: real)
    requires Pow2(k) <= v < Pow2(k + 1)
    ensures IsDouble(below) && IsDouble(above) && below <= v <= above && above - below == Pow2(k - 52)
  {
    Scale(k - 52);
    var m := Between(v, Pow2(k - 52), P53);
    MultiplesAreDoubles(m, k - 52);
    MultiplesAreDoubles(m + 1, k - 52);
    below, above := Multiple(m, Pow2(k - 52)), Multiple(m + 1, Pow2(k - 52));
  }

  /** Rounding to nearest errs by at most 2^-53 of the value. */
  lemma NearestError(v: real, x: real, k: int)
    requires Pow2(k) <= v < Pow2(k + 1) && Nearest(v, x)
    ensures Abs(x - v) <= v / (P53 as real)
  {
    var below, above := Neighbours(v, k);
    HalfUnit(v, x, below, above);
    UnitOf(k);
  }

  lemma UnitOf(k: int)
    ensures Pow2(k - 52) / 2.0 == Pow2(k) / (P53 as real)
  {
    Scale(k - 52);
  }

  /** Amounts and hundredfold amounts lie between 2^-10 and 2^50. */
  lemma NearestInRange(v: real, x: real)
    requires 0.01 <= v <= 200000000000000.0 && Nearest(v, x)
    ensures Abs(x - v) <= v / (P53 as real)
  {
    SmallPowers();
    var k := Binade(v, -10, 50);
    NearestError(v, x, k);
  }

  lemma RoundNear(y: real, c: nat)
    requires Abs(y - c as real) < 0.5
    ensures Round(y) == c
  {
    if y < 0.0 {
      assert c == 0;
    }
  }

  lemma ZeroIsExact(x: real)
    requires Nearest(0.0, x)
    ensures x == 0.0
  {
    assert Scaled(0, 0, 0.0);
    assert IsDouble(0.0);
    assert Abs(x - 0.0) <= Abs(0.0 - 0.0);
  }

  /** The key of every stored amount is its number of cents. */
  lemma BucketKeyIsExact(c: nat, x: real, y: real)
    requires c < 100_000_000_000_000
    requires Nearest(c as real / 100.0, x) && Nearest(100.0 * x, y)
    ensures Round(y) == c
  {
    if c == 0 {
      ZeroIsExact(x);
      ZeroIsExact(y);
    } else {
      var v := c as real / 100.0;
      NearestInRange(v, x);
      assert x >= v - v / (P53 as real);
      if 100.0 * x >= 0.01 {
        NearestInRange(100.0 * x, y);
      }
      RoundNear(y, c);
    }
  }

  // ---------- A nearest double exists ----------

  lemma {:induction false} MultiplesGrow(m: nat, n: nat, unit: real)
    requires m <= n && unit > 0.0
    ensures 0.0 <= Multiple(m, unit) <= Multiple(n, unit)
    decreases n
  {
    if m < n {
      MultiplesGrow(m, n - 1, unit);
    } else if n > 0 {
      MultiplesGrow(n - 1, n - 1, unit);
    }
  }

  lemma {:induction false} DoubleUnit(m: nat, unit: real)
    ensures Multiple(m, 2.0 * unit) == Multiple(2 * m, unit)
    decreases m
  {
    if m > 0 {
      DoubleUnit(m - 1, unit);
      assert Multiple(2 * m, unit) == Multiple(2 * m - 1, unit) + unit;
    }
  }

  /** A number with a larger exponent is a multiple of the unit. */
  lemma {:induction false} IsMultiple(m: nat, e: int, d: int) returns (n: nat)
    requires d <= e
    ensures Multiple(m, Pow2(e)) == Multiple(n, Pow2(d))
    decreases e - d
  {
    if e == d {
      n := m;
    } else {
      n := IsMultiple(2 * m, e - 1, d);
      Pow2Up(e - 1);
      DoubleUnit(m, Pow2(e - 1));
    }
  }

  lemma {:induction false} Pow2Grows(e: int, n: nat)
    ensures Pow2(e) <= Pow2(e + n)
    decreases n
  {
    if n > 0 {
      Pow2Grows(e, n - 1);
      Pow2Up(e + n - 1);
    }
  }

  /** A number with a smaller exponent lies below the binade. */
  lemma IsBelow(m: nat, e: int, k: int)
    requires m < P53 && e < k - 52
    ensures Multiple(m, Pow2(e)) <= Pow2(k)
  {
    MultiplesGrow(m, P53, Pow2(e));
    Scale(e);
    Pow2Grows(e + 53, k - 53 - e);
  }

  lemma AboveBinade(m: nat, v: real, k: int)
    requires Pow2(k) <= v < Multiple(m + 1, Pow2(k - 52))
    ensures Pow2(k) <= Multiple(m, Pow2(k - 52))
  {
    Scale(k - 52);
    if m < P52 {
      MultiplesGrow(m + 1, P52, Pow2(k - 52));
    } else {
      MultiplesGrow(P52, m, Pow2(k - 52));
    }
  }

  lemma MultipleNotBetween(a: nat, e: int, m: nat, v: real, k: int)
    requires a < P53 && Pow2(k) <= v < Multiple(m + 1, Pow2(k - 52))
    ensures var y := Multiple(a, Pow2(e)); y <= Multiple(m, Pow2(k - 52)) || y >= Multiple(m + 1, Pow2(k - 52))
  {
    if e >= k - 52 {
      var n := IsMultiple(a, e, k - 52);
      if n <= m {
        MultiplesGrow(n, m, Pow2(k - 52));
      } else {
        MultiplesGrow(m + 1, n, Pow2(k - 52));
      }
    } else {
      IsBelow(a, e, k);
      AboveBinade(m, v, k);
    }
  }

  lemma NegativeProduct(a: int, p: real)
    requires a < 0 && p > 0.0
    ensures a as real * p < 0.0
  {}

  /** A non-negative double is a multiple of a power of two. */
  lemma DoubleIsMultiple(y: real) returns (a: nat, e: int)
    requires IsDouble(y) && y >= 0.0
    ensures a < P53 && y == Multiple(a, Pow2(e))
  {
    var b: int, d: int :| Scaled(b, d, y);
    e := d;
    if b < 0 {
      NegativeProduct(b, Pow2(d));
    }
    a := b;
    MultipleIsProduct(a, Pow2(d));
  }

  /** No double lies strictly between two consecutive multiples of the unit of a binade. */
  lemma NoDoubleBetween(y: real, m: nat, v: real, k: int)
    requires IsDouble(y) && Pow2(k) <= v < Multiple(m + 1, Pow2(k - 52))
    ensures y <= Multiple(m, Pow2(k - 52)) || y >= Multiple(m + 1, Pow2(k - 52))
  {
    if y < 0.0 {
      MultiplesGrow(m, m, Pow2(k - 52));
    } else {
      var a, e := DoubleIsMultiple(y);
      MultipleNotBetween(a, e, m, v, k);
    }
  }

  lemma NearestInBinade(v: real, k: int) returns (x: real)
    requires Pow2(k) <= v < Pow2(k + 1)
    ensures Nearest(v, x)
  {
    Scale(k - 52);
    var m := Between(v, Pow2(k - 52), P53);
    MultiplesAreDoubles(m, k - 52);
    MultiplesAreDoubles(m + 1, k - 52);
    var below, above := Multiple(m, Pow2(k - 52)), Multiple(m + 1, Pow2(k - 52));
    forall y | IsDouble(y) ensures y <= below || y >= above {
      NoDoubleBetween(y, m, v, k);
    }
    x := if v - below <= above - v then below else above;
  }

  lemma {:induction false} Pow2Large(n: nat)
    ensures Pow2(n) >= (n + 1) as real
    decreases n
  {
    if n > 0 {
      Pow2Large(n - 1);
      Pow2Up(n - 1);
    }
  }

  lemma {:induction false} DoubledGrows(x: real, y: real, n: nat)
    requires 0.0 <= x < y
    ensures Doubled(x, n) < Doubled(y, n)
    decreases n
  {
    if n > 0 {
      DoubledGrows(x, y, n - 1);
    }
  }

  lemma {:induction false} DoubledLarge(x: real, n: nat)
    requires x >= 0.0
    ensures Doubled(x, n) >= Multiple(n, x) && Doubled(x, n) >= x
    decreases n
  {
    if n > 0 {
      DoubledLarge(x, n - 1);
    }
  }

  lemma TimesAtLeastOne(n: nat, v: real)
    requires v > 0.0 && n as real >= 1.0 / v
    ensures n as real * v >= 1.0
  {
    var r := 1.0 / v;
    assert (n as real - r) * v >= 0.0;
    assert r * v == 1.0;
  }

  /** Some power of two lies below any positive number. */
  lemma SmallPower(v: real) returns (n: nat)
    requires v > 0.0
    ensures Pow2(0 - n) <= v
  {
    n := (1.0 / v).Floor + 1;
    TimesAtLeastOne(n, v);
    MultipleIsProduct(n, v);
    DoubledLarge(v, n);
    Pow2Shift(0 - n, n);
    if v < Pow2(0 - n) {
      DoubledGrows(v, Pow2(0 - n), n);
    }
  }

  /** Every non-negative number has a nearest double. */
  lemma NearestExists(v: real) returns (x: real)
    requires v >= 0.0
    ensures Nearest(v, x) && x >= 0.0
  {
    assert Scaled(0, 0, 0.0);
    assert IsDouble(0.0);
    if v == 0.0 {
      x := 0.0;
    } else {
      var hi: nat := v.Floor;
      Pow2Large(hi);
      var lo := SmallPower(v);
      Pow2Grows(0 - lo, lo + hi);
      var k := Binade(v, 0 - lo, hi);
      x := NearestInBinade(v, k);
      assert Abs(x - v) <= Abs(0.0 - v);
    }
  }

  /** Every amount can be stored and multiplied: the numbers `BucketKeyIsExact` speaks of exist. */
  lemma BucketKeyExists(c: nat) returns (x: real, y: real)
    requires c < 100_000_000_000_000
    ensures Nearest(c as real / 100.0, x) && Nearest(100.0 * x, y) && Round(y) == c
  {
    x := NearestExists(c as real / 100.0);
    y := NearestExists(100.0 * x);
    BucketKeyIsExact(c, x, y);
  }
}
