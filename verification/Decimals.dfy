/** Decimal arithmetic with a 96-bit mantissa and at most 28 decimals, which the amounts of the source
    are held in.  An amount is counted in units of the 28th decimal; an operation whose result needs
    more digits drops as few decimals as possible and rounds to nearest, ties to even. */
module Decimals {
  import opened Wrappers

  const MAX_MANTISSA: nat := 79_228_162_514_264_337_593_543_950_335
  const MAX_SCALE: nat := 28

  type Units = nat

  function Power(k: nat): (p: nat)
    ensures p >= 1
  {
    if k == 0 then 1 else 10 * Power(k - 1)
  }

  function RoundedQuotient(n: nat, d: nat): nat
    requires d > 0
  {
    var q, r := n / d, n % d;
    if 2 * r > d || (2 * r == d && q % 2 == 1) then q + 1 else q
  }

  /** n / d, with the last k or more decimals dropped. */
  function FitFrom(n: nat, d: nat, k: nat): Option<Units>
    requires d > 0 && k <= MAX_SCALE
    decreases MAX_SCALE - k
  {
    var mantissa := RoundedQuotient(n, d * Power(k));
    if mantissa <= MAX_MANTISSA then Some(mantissa * Power(k))
    else if k == MAX_SCALE then None
    else FitFrom(n, d, k + 1)
  }

  function Divide(n: Units, d: nat): Option<Units>
    requires d > 0
  {
    FitFrom(n, d, 0)
  }

  function Multiply(n: Units, m: nat): Option<Units> {
    FitFrom(n * m, 1, 0)
  }

  function Add(a: Units, b: Units): Option<Units> {
    FitFrom(a + b, 1, 0)
  }

  function Held(mantissa: nat, k: nat): Units {
    mantissa * Power(k)
  }

  /** An amount that a decimal can hold. */
  ghost predicate IsDecimal(n: Units) {
    exists a: nat, k: nat :: a <= MAX_MANTISSA && k <= MAX_SCALE && n == Held(a, k)
  }

  lemma SmallPowers()
    ensures Power(0) == 1 && Power(1) == 10 && Power(2) == 100 && Power(3) == 1_000 && Power(4) == 10_000
  {
    assert Power(3) == 10 * Power(2) && Power(4) == 10 * Power(3);
  }

  /** The first levels of rounding, for a result that needs no more than four. */
  lemma Levels(n: nat, d: nat)
    requires d > 0 && RoundedQuotient(n, d * 10_000) <= MAX_MANTISSA
    ensures FitFrom(n, d, 0) ==
              if RoundedQuotient(n, d) <= MAX_MANTISSA then Some(RoundedQuotient(n, d))
              else if RoundedQuotient(n, d * 10) <= MAX_MANTISSA then Some(RoundedQuotient(n, d * 10) * 10)
              else if RoundedQuotient(n, d * 100) <= MAX_MANTISSA then Some(RoundedQuotient(n, d * 100) * 100)
              else if RoundedQuotient(n, d * 1_000) <= MAX_MANTISSA then Some(RoundedQuotient(n, d * 1_000) * 1_000)
              else Some(RoundedQuotient(n, d * 10_000) * 10_000)
  {
    hide RoundedQuotient, Power;
    SmallPowers();
    assert d * 1 == d;
    assert FitFrom(n, d, 3) == if RoundedQuotient(n, d * 1_000) <= MAX_MANTISSA
                               then Some(RoundedQuotient(n, d * 1_000) * 1_000) else FitFrom(n, d, 4);
    assert FitFrom(n, d, 2) == if RoundedQuotient(n, d * 100) <= MAX_MANTISSA
                               then Some(RoundedQuotient(n, d * 100) * 100) else FitFrom(n, d, 3);
    assert FitFrom(n, d, 1) == if RoundedQuotient(n, d * 10) <= MAX_MANTISSA
                               then Some(RoundedQuotient(n, d * 10) * 10) else FitFrom(n, d, 2);
  }

  lemma {:induction false} PowerSplits(i: nat, j: nat)
    ensures Power(i + j) == Power(j) * Power(i)
  {
    if j > 0 {
      PowerSplits(i, j - 1);
      assert Power(i + j) == 10 * Power(i + (j - 1));
    }
  }

  ghost predicate EndsInZeros(n: Units, i: nat) {
    exists b: nat :: n == Held(b, i)
  }

  lemma HeldEndsInZeros(a: nat, k: nat, i: nat)
    requires i <= k
    ensures EndsInZeros(Held(a, k), i)
  {
    PowerSplits(i, k - i);
    Associates(a, Power(k - i), Power(i));
    hide Power;
    assert Held(a, k) == Held(a * Power(k - i), i);
  }

  lemma Associates(x: nat, y: nat, z: nat)
    ensures x * (y * z) == (x * y) * z
  {
  }

  lemma HeldGrows(a: nat, b: nat, k: nat, i: nat)
    requires a <= b && k <= i
    ensures Held(a, k) <= Held(b, i)
  {
    PowerSplits(k, i - k);
    Grows(a, b, Power(k));
    Grows(1, Power(i - k), Power(k));
    Grows(Power(k), Power(i), b);
  }

  lemma Grows(a: nat, b: nat, x: nat)
    requires a <= b
    ensures a * x <= b * x && x * a <= x * b
  {
  }

  /** A decimal too large for one scale has a zero in that place. */
  lemma LargeDecimalEndsInZeros(n: Units, i: nat)
    requires IsDecimal(n) && n > Held(MAX_MANTISSA, i)
    ensures EndsInZeros(n, i + 1)
  {
    var a: nat, k: nat :| a <= MAX_MANTISSA && k <= MAX_SCALE && n == Held(a, k);
    hide *;
    if k <= i {
      HeldGrows(a, MAX_MANTISSA, k, i);
    } else {
      HeldEndsInZeros(a, k, i + 1);
    }
  }

  lemma SmallHeld(b: nat)
    ensures Held(b, 0) == b && Held(b, 1) == 10 * b && Held(b, 2) == 100 * b && Held(b, 3) == 1_000 * b
    ensures Held(b, 4) == 10_000 * b
  {
    SmallPowers();
  }

  lemma ZerosMean(n: Units)
    ensures EndsInZeros(n, 1) ==> n % 10 == 0
    ensures EndsInZeros(n, 2) ==> n % 100 == 0
    ensures EndsInZeros(n, 3) ==> n % 1_000 == 0
    ensures EndsInZeros(n, 4) ==> n % 10_000 == 0
  {
    hide Held;
    if EndsInZeros(n, 1) {
      var b: nat :| n == Held(b, 1);
      SmallHeld(b);
    }
    if EndsInZeros(n, 2) {
      var b: nat :| n == Held(b, 2);
      SmallHeld(b);
    }
    if EndsInZeros(n, 3) {
      var b: nat :| n == Held(b, 3);
      SmallHeld(b);
    }
    if EndsInZeros(n, 4) {
      var b: nat :| n == Held(b, 4);
      SmallHeld(b);
    }
  }

  lemma LargeDecimals(n: Units)
    requires IsDecimal(n)
    ensures n > MAX_MANTISSA ==> n % 10 == 0
    ensures n > 10 * MAX_MANTISSA ==> n % 100 == 0
    ensures n > 100 * MAX_MANTISSA ==> n % 1_000 == 0
    ensures n > 1_000 * MAX_MANTISSA ==> n % 10_000 == 0
  {
    hide Held, Power, IsDecimal, EndsInZeros;
    SmallHeld(MAX_MANTISSA);
    ZerosMean(n);
    if n > MAX_MANTISSA { LargeDecimalEndsInZeros(n, 0); }
    if n > 10 * MAX_MANTISSA { LargeDecimalEndsInZeros(n, 1); }
    if n > 100 * MAX_MANTISSA { LargeDecimalEndsInZeros(n, 2); }
    if n > 1_000 * MAX_MANTISSA { LargeDecimalEndsInZeros(n, 3); }
  }

  // ---- twelfths ----

  /** 8784 hours. */
  const LIMIT: Units := 87_840_000_000_000_000_000_000_000_000_000

  /** The resolution of a twelfth. */
  function Step(n: Units): (u: nat)
    ensures u == 1 || u == 10 || u == 100
  {
    if RoundedQuotient(n, 12) <= MAX_MANTISSA then 1
    else if RoundedQuotient(n, 120) <= MAX_MANTISSA then 10
    else 100
  }

  lemma TwelfthIs(n: Units)
    requires n <= LIMIT
    ensures Divide(n, 12) == Some(RoundedQuotient(n, 12 * Step(n)) * Step(n))
    ensures RoundedQuotient(n, 12 * Step(n)) <= MAX_MANTISSA
    ensures Step(n) == 10 ==> n > 12 * MAX_MANTISSA
    ensures Step(n) == 100 ==> n > 120 * MAX_MANTISSA
  {
    assert RoundedQuotient(n, 120_000) <= RoundedQuotient(n, 1_200) <= MAX_MANTISSA;
    assert RoundedQuotient(n, 12) > MAX_MANTISSA ==> n > 12 * MAX_MANTISSA;
    assert RoundedQuotient(n, 120) > MAX_MANTISSA ==> n > 120 * MAX_MANTISSA;
    hide RoundedQuotient, FitFrom;
    Levels(n, 12);
  }

  /** How far twelve rounded twelfths are from the amount. */
  function Drift(n: Units, u: nat): int
    requires u > 0
  {
    12 * u * RoundedQuotient(n, 12 * u) - n
  }

  /** A quotient, its remainder, and how it rounds. */
  lemma Parts(n: Units, d: nat) returns (q: nat, r: nat)
    requires d > 0
    ensures n == q * d + r && r < d && r == n % d
    ensures RoundedQuotient(n, d) == if 2 * r > d || (2 * r == d && q % 2 == 1) then q + 1 else q
  {
    q, r := n / d, n % d;
  }

  ghost predicate DriftRight(n: Units, u: nat)
    requires u > 0
  {
    var e := Drift(n, u);
    && (e == 0 || e == 2 * u || e == -2 * u || e == 4 * u || e == -4 * u || e == 6 * u || e == -6 * u)
    && (e == 0 <==> n % (12 * u) == 0) && (e == 6 * u || e == -6 * u <==> n % (12 * u) == 6 * u)
  }

  lemma DriftByOnes(n: Units)
    requires n % 10 == 0
    ensures DriftRight(n, 1)
  {
    var a, t := n / 10, 0;
    var q, r := Parts(n, 12);
    hide RoundedQuotient;
    t := 5 * a - 6 * q;
    assert r == 2 * t && 0 <= t < 6;
  }

  lemma DriftByTens(n: Units)
    requires n % 100 == 0
    ensures DriftRight(n, 10)
  {
    var a, t := n / 100, 0;
    var q, r := Parts(n, 120);
    hide RoundedQuotient;
    t := 5 * a - 6 * q;
    assert r == 20 * t && 0 <= t < 6;
  }

  lemma DriftByHundreds(n: Units)
    requires n % 1_000 == 0
    ensures DriftRight(n, 100)
  {
    var a, t := n / 1_000, 0;
    var q, r := Parts(n, 1_200);
    hide RoundedQuotient;
    t := 5 * a - 6 * q;
    assert r == 200 * t && 0 <= t < 6;
  }

  lemma WholeUnits(p: nat)
    ensures RoundedQuotient(p, 1) == p
  {
  }

  predicate IsPlace(d: nat) {
    d == 10 || d == 100 || d == 1_000 || d == 10_000
  }

  /** Close to a multiple of a place, a quotient rounds to it. */
  lemma RoundsTo(p: nat, a: nat, d: nat, e: int)
    requires IsPlace(d) && p == a * d + e && -(d as int) < 2 * e < d
    ensures RoundedQuotient(p, d) == a
  {
    var q, r := Parts(p, d);
    hide RoundedQuotient;
    if d == 10 {
      assert q == a || q == a - 1;
    } else if d == 100 {
      assert q == a || q == a - 1;
    } else if d == 1_000 {
      assert q == a || q == a - 1;
    } else {
      assert q == a || q == a - 1;
    }
  }

  lemma RoundsAbove(p: nat, d: nat, m: nat)
    requires IsPlace(d) && p >= m * d
    ensures RoundedQuotient(p, d) >= m
  {
    var q, r := Parts(p, d);
    hide RoundedQuotient;
    if d == 10 {
    } else if d == 100 {
    } else if d == 1_000 {
    } else {
    }
  }

  /** Below this place everything is too large. */
  ghost predicate TooLargeBelow(p: nat, d: nat) {
    && p > MAX_MANTISSA
    && (d > 10 ==> p >= (MAX_MANTISSA + 1) * 10)
    && (d > 100 ==> p >= (MAX_MANTISSA + 1) * 100)
  }

  /** A number that is too large below a place rounds there, if it fits, or else one place above. */
  lemma FitsAt(p: nat, d: nat)
    requires d == 10 || d == 100 || d == 1_000
    requires TooLargeBelow(p, d) && p <= LIMIT + 600
    requires RoundedQuotient(p, d * 10) <= MAX_MANTISSA
    ensures FitFrom(p, 1, 0) ==
              if RoundedQuotient(p, d) <= MAX_MANTISSA then Some(RoundedQuotient(p, d) * d)
                else Some(RoundedQuotient(p, d * 10) * (d * 10))
  {
    WholeUnits(p);
    if d > 10 { RoundsAbove(p, 10, MAX_MANTISSA + 1); }
    if d > 100 { RoundsAbove(p, 100, MAX_MANTISSA + 1); }
    RoundsTo(10_000 * (p / 10_000), p / 10_000, 10_000, 0);
    FitsTenThousand(p);
    hide RoundedQuotient, FitFrom;
    Levels(p, 1);
  }

  lemma FitsTenThousand(p: nat)
    requires p <= LIMIT + 600
    ensures RoundedQuotient(p, 10_000) <= MAX_MANTISSA
  {
    var q, r := Parts(p, 10_000);
  }

  lemma RoundsBelow(p: nat, d: nat, m: nat)
    requires IsPlace(d) && p <= m * d
    ensures RoundedQuotient(p, d) <= m
  {
    var q, r := Parts(p, d);
    hide RoundedQuotient;
    if d == 10 {
    } else if d == 100 {
    } else if d == 1_000 {
    } else {
    }
  }

  /** An amount of whole places that a decimal can hold: where it is too large for one place it has a
      zero there. */
  ghost predicate Placed(n: Units, a: nat, d: nat) {
    && (d == 10 || d == 100 || d == 1_000) && n == a * d && n <= LIMIT
    && 2 * a <= 3 * MAX_MANTISSA && (a > MAX_MANTISSA ==> a % 10 == 0)
  }

  /** What strays from it by at most four tenths of a place rounds back. */
  lemma StrayingRoundsBack(n: Units, a: nat, d: nat, p: nat)
    requires Placed(n, a, d) && TooLargeBelow(p, d) && -4 * d <= 10 * (p - n) <= 4 * d
    ensures FitFrom(p, 1, 0) == Some(n)
  {
    var b, e := a / 10, p - n;
    RoundsTo(p, a, d, e);
    BelowNextPlace(a, d, p);
    RoundsBelow(p, d * 10, MAX_MANTISSA);
    if a > MAX_MANTISSA {
      assert a == 10 * b;
      TenTimes(b, d);
      RoundsTo(p, b, d * 10, e);
    }
    hide RoundedQuotient, FitFrom, TooLargeBelow;
    FitsAt(p, d);
  }

  lemma TenTimes(b: nat, d: nat)
    ensures 10 * b * d == b * (d * 10)
  {
  }

  lemma BelowNextPlace(a: nat, d: nat, p: nat)
    requires (d == 10 || d == 100 || d == 1_000) && 2 * a <= 3 * MAX_MANTISSA && p <= a * d + d
    ensures p <= MAX_MANTISSA * (d * 10)
  {
  }

  /** What strays by six tenths of a place from an odd number of places does not. */
  lemma TieRoundsAway(n: Units, a: nat, d: nat, p: nat)
    requires Placed(n, a, d) && a % 2 == 1 && (p <= MAX_MANTISSA || TooLargeBelow(p, d))
    requires 10 * (p - n) == 6 * d || 10 * (p - n) == -6 * d
    ensures FitFrom(p, 1, 0) != Some(n)
  {
    if p <= MAX_MANTISSA {
      WholeUnits(p);
      SmallPowers();
      hide RoundedQuotient, Power;
      assert FitFrom(p, 1, 0) == Some(p);
    } else {
      var e := if p > n then 1 else -1;
      AwayFrom(n, a, d, p, e);
      BelowNextPlace(a, d, p);
      RoundsBelow(p, d * 10, MAX_MANTISSA);
      NotTenPlaces(a, d, RoundedQuotient(p, d * 10));
      hide RoundedQuotient, FitFrom, TooLargeBelow;
      FitsAt(p, d);
      OtherPlaces(a, d, e);
    }
  }

  lemma AwayFrom(n: Units, a: nat, d: nat, p: nat, e: int)
    requires (d == 10 || d == 100 || d == 1_000) && n == a * d && a >= 1 && (e == 1 || e == -1)
             && 10 * (p - n) == 6 * d * e
    ensures RoundedQuotient(p, d) == a + e
  {
    assert p - (a + e) * d == p - n - e * d;
    if e == 1 {
      RoundsTo(p, a + 1, d, p - n - d);
    } else {
      RoundsTo(p, (a - 1) as nat, d, p - n + d);
    }
  }

  lemma OtherPlaces(a: nat, d: nat, e: int)
    requires d > 0 && a >= 1 && (e == 1 || e == -1)
    ensures (a + e) * d != a * d
  {
    assert (a + e) * d == a * d + e * d;
  }

  lemma NotTenPlaces(a: nat, d: nat, x: nat)
    requires (d == 10 || d == 100 || d == 1_000) && a % 2 == 1
    ensures x * (d * 10) != a * d
  {
    if d == 10 {
    } else if d == 100 {
    } else {
    }
  }

  // ---- a twelfth that is checked by multiplying back ----

  /** The rounded twelfth, if twelve of it, rounded again, are the amount. */
  function CheckedTwelfth(n: Units): Option<Units> {
    var twelfth := Divide(n, 12);
    if twelfth.Some? && Multiply(twelfth.value, 12) == Some(n) then twelfth else None
  }

  lemma CheckedTwelfthIs(n: Units)
    requires n <= LIMIT
    ensures var u := Step(n);
            var m := RoundedQuotient(n, 12 * u) * u;
            12 * m == n + Drift(n, u) && CheckedTwelfth(n) == if FitFrom(12 * m, 1, 0) == Some(n) then Some(m) else None
  {
    TwelfthIs(n);
    hide RoundedQuotient, FitFrom;
  }

  lemma WholePlaces(n: Units, d: nat, twelve: nat) returns (a: nat, q: nat, r: nat)
    requires d > 0 && twelve > 0 && n % d == 0
    ensures a == n / d && n == a * d && n == q * twelve + r && r == n % twelve
  {
    a, q, r := n / d, n / twelve, n % twelve;
  }

  lemma AtMostTwelve(n: Units, twelve: nat)
    requires twelve == 12 || twelve == 120 || twelve == 1_200
    requires RoundedQuotient(n, twelve) <= MAX_MANTISSA
    ensures n < twelve * (MAX_MANTISSA + 1)
  {
    var q, r := Parts(n, twelve);
    hide RoundedQuotient;
    if twelve == 12 {
    } else if twelve == 120 {
    } else {
    }
  }

  lemma OddTie(a: nat, q: nat)
    requires 5 * a == 6 * q + 3
    ensures a % 2 == 1
  {
    Odd(a, 3 * q + 1 - 2 * a);
  }

  lemma Odd(a: nat, x: int)
    requires a == 2 * x + 1
    ensures a % 2 == 1
  {
  }

  lemma WholeTens(a: nat, b: nat)
    requires a == 10 * b
    ensures a % 10 == 0
  {
  }

  lemma PlacedByOnes(n: Units)
    requires IsDecimal(n) && n <= LIMIT && n > MAX_MANTISSA && Step(n) == 1
    ensures n % 10 == 0 && Placed(n, n / 10, 10) && n >= MAX_MANTISSA + 5
    ensures n % 12 == 6 ==> n / 10 % 2 == 1
  {
    LargeDecimals(n);
    TwelfthIs(n);
    hide IsDecimal;
    var a, q, r := WholePlaces(n, 10, 12);
    AtMostTwelve(n, 12);
    hide RoundedQuotient, Step, FitFrom;
    if n % 12 == 6 {
      OddTie(a, q);
    }
    if a > MAX_MANTISSA {
      WholeTens(a, n / 100);
    }
  }

  lemma PlacedByTens(n: Units)
    requires IsDecimal(n) && n <= LIMIT && Step(n) == 10
    ensures n % 100 == 0 && Placed(n, n / 100, 100) && n > 12 * MAX_MANTISSA
    ensures n % 120 == 60 ==> n / 100 % 2 == 1
  {
    LargeDecimals(n);
    TwelfthIs(n);
    hide IsDecimal;
    var a, q, r := WholePlaces(n, 100, 120);
    AtMostTwelve(n, 120);
    hide RoundedQuotient, Step, FitFrom;
    if n % 120 == 60 {
      OddTie(a, q);
    }
    if a > MAX_MANTISSA {
      WholeTens(a, n / 1000);
    }
  }

  lemma PlacedByHundreds(n: Units)
    requires IsDecimal(n) && n <= LIMIT && Step(n) == 100
    ensures n % 1000 == 0 && Placed(n, n / 1000, 1000) && n > 120 * MAX_MANTISSA
    ensures n % 1200 == 600 ==> n / 1000 % 2 == 1
  {
    LargeDecimals(n);
    TwelfthIs(n);
    hide IsDecimal;
    var a, q, r := WholePlaces(n, 1000, 1200);
    AtMostTwelve(n, 1200);
    hide RoundedQuotient, Step, FitFrom;
    if n % 1200 == 600 {
      OddTie(a, q);
    }
    if a > MAX_MANTISSA {
      WholeTens(a, n / 10000);
    }
  }

  lemma DriftStrays(n: Units, u: nat)
    requires u > 0 && DriftRight(n, u)
    ensures if n % (12 * u) == 6 * u then Drift(n, u) == 6 * u || Drift(n, u) == -6 * u
            else -4 * u <= Drift(n, u) <= 4 * u
  {
    hide Drift;
  }

  lemma StaysTooLarge(n: Units, u: nat, p: nat)
    requires (u == 1 || u == 10 || u == 100) && -6 * u <= p - n <= 6 * u
    requires n >= MAX_MANTISSA + 5 && (u > 1 ==> n > 12 * MAX_MANTISSA) && (u > 10 ==> n > 120 * MAX_MANTISSA)
    ensures (p - n >= -4 * u || p > MAX_MANTISSA) ==> TooLargeBelow(p, 10 * u)
  {
  }

  /** From the drift of a large amount alone. */
  lemma LargeAmount(n: Units, u: nat, a: nat)
    requires (u == 1 || u == 10 || u == 100) && DriftRight(n, u) && Placed(n, a, 10 * u)
             && (n % (12 * u) == 6 * u ==> a % 2 == 1)
    requires n >= MAX_MANTISSA + 5 && (u > 1 ==> n > 12 * MAX_MANTISSA) && (u > 10 ==> n > 120 * MAX_MANTISSA)
    requires n + Drift(n, u) >= 0
    ensures FitFrom(n + Drift(n, u), 1, 0) == Some(n) <==> n % (12 * u) != 6 * u
    ensures n % (12 * u) != 6 * u ==> -4 * u <= Drift(n, u) <= 4 * u
  {
    hide FitFrom, Drift, Placed, DriftRight, TooLargeBelow;
    var p := n + Drift(n, u);
    DriftStrays(n, u);
    StaysTooLarge(n, u, p);
    if n % (12 * u) == 6 * u {
      TieRoundsAway(n, a, 10 * u, p);
    } else {
      StrayingRoundsBack(n, a, 10 * u, p);
    }
  }

  lemma SmallDrift(n: Units)
    requires n <= MAX_MANTISSA
    ensures Step(n) == 1 && -6 <= Drift(n, 1) <= 6 && (Drift(n, 1) == 0 <==> n % 12 == 0) && n + Drift(n, 1) >= 0
  {
    var q, r := Parts(n, 12);
  }

  lemma FitsAsItIs(p: nat)
    requires p <= MAX_MANTISSA
    ensures FitFrom(p, 1, 0) == Some(p)
  {
    WholeUnits(p);
    SmallPowers();
    hide RoundedQuotient, Power;
  }

  lemma JustTooLarge(p: nat)
    requires MAX_MANTISSA < p <= MAX_MANTISSA + 6
    ensures FitFrom(p, 1, 0).Some? && FitFrom(p, 1, 0).value > MAX_MANTISSA
  {
    var q, r := Parts(p, 10);
    assert 10 * RoundedQuotient(p, 10) > MAX_MANTISSA && RoundedQuotient(p, 10) <= MAX_MANTISSA;
    RoundsBelow(p, 100, MAX_MANTISSA);
    hide RoundedQuotient, FitFrom;
    FitsAt(p, 10);
  }

  lemma SmallAmount(n: Units)
    requires n <= MAX_MANTISSA
    ensures Step(n) == 1 && -6 <= Drift(n, 1) <= 6 && (Drift(n, 1) == 0 <==> n % 12 == 0)
    ensures n + Drift(n, 1) >= 0 && (FitFrom(n + Drift(n, 1), 1, 0) == Some(n) <==> n % 12 == 0)
  {
    hide *;
    SmallDrift(n);
    var p := n + Drift(n, 1);
    if p > MAX_MANTISSA {
      JustTooLarge(p);
    } else {
      FitsAsItIs(p);
    }
  }

  ghost predicate TwelfthRight(n: Units, u: nat)
    requires u > 0
  {
    var m := CheckedTwelfth(n);
    && (m.Some? <==> n % (12 * u) == 0 || (n > MAX_MANTISSA && n % (12 * u) != 6 * u))
    && (m.Some? ==> (12 * m.value == n <==> n % (12 * u) == 0) && -4 * u <= 12 * m.value - n <= 4 * u)
  }

  lemma SmallTwelfth(n: Units)
    requires n <= MAX_MANTISSA && n <= LIMIT
    ensures Step(n) == 1 && TwelfthRight(n, 1)
  {
    SmallAmount(n);
    CheckedTwelfthIs(n);
    hide RoundedQuotient, FitFrom, Drift, CheckedTwelfth, Step;
  }

  lemma LargeTwelfth(n: Units, u: nat, a: nat)
    requires (u == 1 || u == 10 || u == 100) && u == Step(n) && n <= LIMIT
    requires DriftRight(n, u) && Placed(n, a, 10 * u) && (n % (12 * u) == 6 * u ==> a % 2 == 1)
    requires n >= MAX_MANTISSA + 5 && (u > 1 ==> n > 12 * MAX_MANTISSA) && (u > 10 ==> n > 120 * MAX_MANTISSA)
    ensures TwelfthRight(n, u)
  {
    assert n > MAX_MANTISSA;
    hide *;
    CheckedTwelfthIs(n);
    DriftMeans(n, u);
    LargeAmount(n, u, a);
    var m := RoundedQuotient(n, 12 * u) * u;
    LargeTwelfthFrom(n, u, m, n % (12 * u));
  }

  lemma LargeTwelfthFrom(n: Units, u: nat, m: Units, r: nat)
    requires u > 0 && r == n % (12 * u) && n > MAX_MANTISSA
    requires CheckedTwelfth(n) == if r != 6 * u then Some(m) else None
    requires 12 * m == n <==> r == 0
    requires r != 6 * u ==> -4 * u <= 12 * m - n <= 4 * u
    ensures TwelfthRight(n, u)
  {
    hide CheckedTwelfth;
  }

  lemma DriftMeans(n: Units, u: nat)
    requires (u == 1 || u == 10 || u == 100) && DriftRight(n, u) && n > MAX_MANTISSA
    ensures n + Drift(n, u) >= 0 && (Drift(n, u) == 0 <==> n % (12 * u) == 0)
  {
    hide Drift;
  }

  /** For every decimal up to 8784, with Step the resolution of its twelfth: the check accepts it when it
      has an exact twelfth, and also when it is too large for the last decimal and its twelfth is no tie.
      The twelfth is exact in the first case only; in the other, twelve of it stray by up to four steps. */
  lemma CheckedTwelfthExactly(n: Units)
    requires IsDecimal(n) && n <= LIMIT
    ensures TwelfthRight(n, Step(n))
  {
    hide *;
    if n <= MAX_MANTISSA {
      SmallTwelfth(n);
    } else if Step(n) == 1 {
      PlacedByOnes(n);
      DriftByOnes(n);
      LargeTwelfth(n, 1, n / 10);
    } else if Step(n) == 10 {
      PlacedByTens(n);
      DriftByTens(n);
      LargeTwelfth(n, 10, n / 100);
    } else {
      PlacedByHundreds(n);
      DriftByHundreds(n);
      LargeTwelfth(n, 100, n / 1_000);
    }
  }

  const HOUR: Units := 10_000_000_000_000_000_000_000_000_000

  lemma QuotientsOfHundred(n: Units, p: nat)
    requires n == 100 * HOUR && p == 999_999_999_999_999_999_999_999_999_960
    ensures RoundedQuotient(n, 12) > MAX_MANTISSA && RoundedQuotient(n, 120) == 8_333_333_333_333_333_333_333_333_333
    ensures RoundedQuotient(p, 10) > MAX_MANTISSA && RoundedQuotient(p, 100) == 10_000_000_000_000_000_000_000_000_000
    ensures RoundedQuotient(p, 1_000) == 1_000_000_000_000_000_000_000_000_000
  {
  }

  lemma TwelfthOfHundred(n: Units)
    requires n == 100 * HOUR
    ensures Divide(n, 12) == Some(83_333_333_333_333_333_333_333_333_330)
  {
    QuotientsOfHundred(n, 999_999_999_999_999_999_999_999_999_960);
    hide RoundedQuotient, FitFrom;
    TwelfthIs(n);
  }

  lemma TwelveTwelfthsOfHundred(n: Units)
    requires n == 100 * HOUR
    ensures Multiply(83_333_333_333_333_333_333_333_333_330, 12) == Some(n)
  {
    var p := 999_999_999_999_999_999_999_999_999_960;
    QuotientsOfHundred(n, p);
    hide RoundedQuotient, FitFrom;
    FitsAt(p, 100);
  }

  /** A hundred hours are accepted as twelve times 8.333333333333333333333333333. */
  lemma HundredIsAcceptedInexactly()
    ensures CheckedTwelfth(100 * HOUR) == Some(83_333_333_333_333_333_333_333_333_330)
    ensures 12 * 83_333_333_333_333_333_333_333_333_330 < 100 * HOUR
  {
    TwelfthOfHundred(100 * HOUR);
    TwelveTwelfthsOfHundred(100 * HOUR);
    hide Divide, Multiply;
  }

  /** Whole hours of a year: all from eight on are accepted, but only multiples of three exactly. */
  lemma WholeHours(h: nat)
    requires h <= 8_784
    ensures CheckedTwelfth(h * HOUR).Some? <==> h % 3 == 0 || h >= 8
    ensures CheckedTwelfth(h * HOUR).Some? ==> (12 * CheckedTwelfth(h * HOUR).value == h * HOUR <==> h % 3 == 0)
  {
    var n := h * HOUR;
    WholeHourIsDecimal(h);
    assert n <= LIMIT && (n > MAX_MANTISSA <==> h >= 8);
    CheckedTwelfthExactly(n);
    WholeHourRemainders(h);
    hide CheckedTwelfth, IsDecimal, Step;
    var u := Step(n);
  }

  lemma WholeHourRemainders(h: nat)
    ensures var n := h * HOUR;
            && (n % 12 == 0 <==> h % 3 == 0) && n % 12 != 6
            && (n % 120 == 0 <==> h % 3 == 0) && n % 120 != 60
            && (n % 1_200 == 0 <==> h % 3 == 0) && n % 1_200 != 600
  {
    var t, e := h / 3, h % 3;
    assert h == 3 * t + e;
  }

  lemma WholeHourIsDecimal(h: nat)
    requires h <= MAX_MANTISSA
    ensures IsDecimal(h * HOUR)
  {
    HourIs();
    assert h * HOUR == Held(h, 28);
  }

  lemma HourIs()
    ensures Power(28) == HOUR
  {
    SmallPowers();
    PowerSplits(4, 4);
    PowerSplits(8, 4);
    PowerSplits(8, 8);
    PowerSplits(16, 12);
  }

  // ---- sums ----

  function SumFrom(total: Units, values: seq<Units>): Option<Units>
    decreases |values|
  {
    if values == [] then Some(total)
    else
      var next := Add(total, values[0]);
      if next.None? then None else SumFrom(next.value, values[1..])
  }

  /** checked_sum: one addition after the other. */
  function CheckedSum(values: seq<Units>): Option<Units> {
    SumFrom(0, values)
  }

  lemma ExactQuotient(c: nat, d: nat)
    requires d > 0
    ensures RoundedQuotient(c * d, d) == c
  {
    var q, r := Parts(c * d, d);
    hide RoundedQuotient;
    SameQuotient(c, q, r, d);
  }

  lemma SameQuotient(c: nat, q: nat, r: nat, d: nat)
    requires c * d == q * d + r && r < d
    ensures c == q && r == 0
  {
    if c > q {
      Grows(q + 1, c, d);
    } else {
      Grows(c, q, d);
    }
    if c < q {
      Grows(c + 1, q, d);
    }
  }

  /** An amount that fits one place is held as it is. */
  lemma {:induction false} HeldFits(z: nat, k: nat, j: nat)
    requires z <= MAX_MANTISSA && j <= k <= MAX_SCALE
    ensures FitFrom(Held(z, k), 1, j) == Some(Held(z, k))
    decreases k - j
  {
    PowerSplits(j, k - j);
    Associates(z, Power(k - j), Power(j));
    var c := z * Power(k - j);
    assert Held(z, k) == c * Power(j) && 1 * Power(j) == Power(j);
    ExactQuotient(c, Power(j));
    if j < k {
      HeldFits(z, k, j + 1);
      hide RoundedQuotient;
    } else {
      assert Power(0) == 1 && c == z;
      hide RoundedQuotient;
    }
  }

  function Total(mantissas: seq<nat>): nat {
    if mantissas == [] then 0 else mantissas[0] + Total(mantissas[1..])
  }

  function AllHeld(mantissas: seq<nat>, k: nat): seq<Units> {
    seq(|mantissas|, i requires 0 <= i < |mantissas| => Held(mantissas[i], k))
  }

  /** Amounts with the same number of decimals are added exactly as long as their total fits. */
  lemma {:induction false} SumIsExact(start: nat, mantissas: seq<nat>, k: nat)
    requires k <= MAX_SCALE && start + Total(mantissas) <= MAX_MANTISSA
    ensures SumFrom(Held(start, k), AllHeld(mantissas, k)) == Some(Held(start + Total(mantissas), k))
    decreases |mantissas|
  {
    var values := AllHeld(mantissas, k);
    if mantissas != [] {
      hide FitFrom, RoundedQuotient, Power;
      var z := start + mantissas[0];
      assert Held(start, k) + Held(mantissas[0], k) == Held(z, k);
      HeldFits(z, k, 0);
      SumIsExact(z, mantissas[1..], k);
      hide Held;
      assert values[0] == Held(mantissas[0], k) && values[1..] == AllHeld(mantissas[1..], k);
    }
  }

  /** What rounding leaves is a decimal. */
  lemma {:induction false} FitIsDecimal(n: nat, d: nat, k: nat)
    requires d > 0 && k <= MAX_SCALE && FitFrom(n, d, k).Some?
    ensures IsDecimal(FitFrom(n, d, k).value)
    decreases MAX_SCALE - k
  {
    var mantissa := RoundedQuotient(n, d * Power(k));
    hide RoundedQuotient;
    if mantissa <= MAX_MANTISSA {
      assert FitFrom(n, d, k).value == Held(mantissa, k);
    } else {
      FitIsDecimal(n, d, k + 1);
    }
  }

  /** An amount is kept as it is exactly when it is a decimal. */
  lemma FitsExactly(n: nat)
    ensures FitFrom(n, 1, 0) == Some(n) <==> IsDecimal(n)
  {
    hide FitFrom, Held;
    if FitFrom(n, 1, 0) == Some(n) {
      FitIsDecimal(n, 1, 0);
    }
    if IsDecimal(n) {
      var a: nat, k: nat :| a <= MAX_MANTISSA && k <= MAX_SCALE && n == Held(a, k);
      HeldFits(a, k, 0);
    }
  }

  function Sum(values: seq<Units>): Units {
    if values == [] then 0 else values[0] + Sum(values[1..])
  }

  ghost predicate PartialSumsAreDecimals(start: Units, values: seq<Units>)
    decreases |values|
  {
    values == [] || (IsDecimal(start + values[0]) && PartialSumsAreDecimals(start + values[0], values[1..]))
  }

  /** Every addition is exact. */
  ghost predicate NeverRounds(start: Units, values: seq<Units>)
    decreases |values|
  {
    values == [] || (Add(start, values[0]) == Some(start + values[0]) && NeverRounds(start + values[0], values[1..]))
  }

  /** Additions never round exactly when every partial sum is a decimal; and then the sum is exact. */
  lemma {:induction false} NeverRoundsExactly(start: Units, values: seq<Units>)
    ensures NeverRounds(start, values) <==> PartialSumsAreDecimals(start, values)
    ensures NeverRounds(start, values) ==> SumFrom(start, values) == Some(start + Sum(values))
    decreases |values|
  {
    hide FitFrom, IsDecimal;
    if values != [] {
      FitsExactly(start + values[0]);
      NeverRoundsExactly(start + values[0], values[1..]);
    }
  }

  /** The other way round only the whole sum need be a decimal. */
  lemma {:induction false} ExactSumIsDecimal(start: Units, values: seq<Units>)
    requires values != [] && SumFrom(start, values).Some?
    ensures IsDecimal(SumFrom(start, values).value)
    decreases |values|
  {
    hide IsDecimal, FitFrom;
    FitIsDecimalSum(start, values[0]);
    if |values| > 1 {
      ExactSumIsDecimal(Add(start, values[0]).value, values[1..]);
    }
  }

  lemma FitIsDecimalSum(a: Units, b: Units)
    ensures Add(a, b).Some? ==> IsDecimal(Add(a, b).value)
  {
    hide FitFrom, IsDecimal;
    if Add(a, b).Some? {
      FitIsDecimal(a + b, 1, 0);
    }
  }

  lemma RoundedJustAbove()
    ensures Add(0, MAX_MANTISSA) == Some(MAX_MANTISSA)
    ensures Add(MAX_MANTISSA, 2) == Some(MAX_MANTISSA + 5) == Add(MAX_MANTISSA + 5, 3)
    ensures Add(MAX_MANTISSA + 5, 0) == Some(MAX_MANTISSA + 5)
  {
    FitsAsItIs(MAX_MANTISSA);
    JustAbove(MAX_MANTISSA + 2);
    JustAbove(MAX_MANTISSA + 8);
    JustAbove(MAX_MANTISSA + 5);
    hide FitFrom;
  }

  lemma JustAbove(p: nat)
    requires p == MAX_MANTISSA + 2 || p == MAX_MANTISSA + 5 || p == MAX_MANTISSA + 8
    ensures FitFrom(p, 1, 0) == Some(MAX_MANTISSA + 5)
  {
    var q, r := Parts(p, 10);
    assert 10 * RoundedQuotient(p, 10) == MAX_MANTISSA + 5 && RoundedQuotient(p, 10) <= MAX_MANTISSA;
    RoundsBelow(p, 100, MAX_MANTISSA);
    hide RoundedQuotient, FitFrom;
    FitsAt(p, 10);
  }

  /** Rounding errors may cancel: this sum is exact although a partial sum is not a decimal. */
  lemma RoundingErrorsMayCancel()
    ensures var values := [MAX_MANTISSA, 2, 3, 0];
            && CheckedSum(values) == Some(Sum(values)) && !PartialSumsAreDecimals(0, values)
  {
    var values := [MAX_MANTISSA, 2, 3, 0];
    hide FitFrom, IsDecimal, Add, RoundedQuotient;
    RoundedJustAbove();
    NotADecimal();
    assert values[1..] == [2, 3, 0] && values[1..][1..] == [3, 0] && values[2..] == [3, 0] && values[3..] == [0];
    assert [3, 0][1..] == [0] && [0][1..] == [] && [2, 3, 0][1..] == [3, 0];
    assert SumFrom(MAX_MANTISSA + 5, [0]) == Some(MAX_MANTISSA + 5);
    assert SumFrom(MAX_MANTISSA + 5, [3, 0]) == Some(MAX_MANTISSA + 5);
    assert SumFrom(MAX_MANTISSA, [2, 3, 0]) == Some(MAX_MANTISSA + 5);
    assert Sum([0]) == 0 && Sum([3, 0]) == 3;
    assert Sum([2, 3, 0]) == 5;
    assert !PartialSumsAreDecimals(MAX_MANTISSA, [2, 3, 0]);
  }

  lemma NotADecimal()
    ensures !IsDecimal(MAX_MANTISSA + 2)
  {
    JustAbove(MAX_MANTISSA + 2);
    FitsExactly(MAX_MANTISSA + 2);
    hide IsDecimal, FitFrom;
  }
}
