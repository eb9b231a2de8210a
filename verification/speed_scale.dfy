/** Conversion between a discrete fan speed level 1..n (n = the number of configured
    "on" setpoints) and the 0-100 RotationSpeed percentage the accessory exposes.
    `getLevelToPercent` and `getPercentToLevel` compute with binary floating point;
    this model uses exact integer arithmetic: `Math.floor(level * (100 / n))` becomes `(level * 100) / n` and
    `Math.ceil(percent / (100 / n))` becomes the ceiling of `(percent * n) / 100`. */
module SpeedScale {

  /** `Math.max(lo, Math.min(hi, x))`. */
  function Clamp(lo: int, hi: int, x: int): (r: int)
    requires lo <= hi
    ensures lo <= r <= hi
    ensures lo <= x <= hi ==> r == x
  {
    if x < lo then lo else if x > hi then hi else x
  }

  /** The least integer not below a / b. */
  function CeilDiv(a: int, b: int): (q: int)
    requires b > 0
    ensures (q - 1) * b < a <= q * b
  {
    (a + b - 1) / b
  }

  /** getLevelToPercent: the floor of level * 100 / n, clamped to [0, 100]. */
  function LevelToPercent(n: nat, level: int): (r: int)
    requires n >= 1
    ensures 0 <= r <= 100
    ensures level >= n ==> r == 100
    ensures level <= 0 ==> r == 0
  {
    FloorQuotient(n, level);
    Clamp(0, 100, (level * 100) / n)
  }

  /** For a configured level the percentage is exactly the floor of level * 100 / n. */
  lemma LevelToPercentIsFloor(n: nat, level: int)
    requires 1 <= level <= n
    ensures var r := LevelToPercent(n, level);
      r * n <= level * 100 < (r + 1) * n
  {
    FloorQuotient(n, level);
  }

  lemma FloorQuotient(n: nat, level: int)
    requires n >= 1
    ensures var q := (level * 100) / n;
      && q * n <= level * 100 < (q + 1) * n
      && (level >= n ==> q >= 100)
      && (level <= 0 ==> q <= 0)
      && (1 <= level <= n ==> 0 <= q <= 100)
  {
    var q := (level * 100) / n;
    if level >= n {
      assert q >= 100 by { MulLe(q + 1, 100, n); }
    }
    if 1 <= level <= n {
      assert q <= 100 by { MulLe(101, q, n); }
    }
  }

  /** getPercentToLevel: the ceiling of percent * n / 100, clamped to [1, n]. */
  function PercentToLevel(n: nat, percent: int): (r: int)
    requires n >= 1
    ensures 1 <= r <= n
    ensures percent <= 0 ==> r == 1
    ensures percent >= 100 ==> r == n
  {
    CeilQuotient(n, percent);
    Clamp(1, n, CeilDiv(percent * n, 100))
  }

  /** For a request in (0, 100] the level is the least one whose level * 100 reaches
      percent * n. */
  lemma PercentToLevelIsCeiling(n: nat, percent: int)
    requires n >= 1 && 0 < percent <= 100
    ensures var r := PercentToLevel(n, percent);
      (r - 1) * 100 < percent * n <= r * 100
  {
    CeilQuotient(n, percent);
  }

  lemma CeilQuotient(n: nat, percent: int)
    requires n >= 1
    ensures var q := CeilDiv(percent * n, 100);
      && (percent <= 0 ==> q <= 1)
      && (percent >= 100 ==> q >= n)
      && (0 < percent <= 100 ==> 1 <= q <= n)
  {
    var q := CeilDiv(percent * n, 100);
    if percent <= 0 {
      MulLe(percent, 0, n);
    }
    if percent >= 100 {
      MulLe(100, percent, n);
    }
    if 0 < percent <= 100 {
      MulLe(percent, 100, n);
      MulLe(1, percent, n);
      assert q <= n by {
        MulLe(n + 1, q, 100);
      }
    }
  }

  lemma MulLe(a: int, b: int, c: nat)
    ensures a <= b ==> a * c <= b * c
  {
  }

  /** A higher level never shows a lower percentage. */
  lemma LevelToPercentMonotone(n: nat, a: int, b: int)
    requires n >= 1 && a <= b
    ensures LevelToPercent(n, a) <= LevelToPercent(n, b)
  {
    var qa, qb := (a * 100) / n, (b * 100) / n;
    FloorQuotient(n, a);
    FloorQuotient(n, b);
    MulLe(a, b, 100);
    assert qa * n < (qb + 1) * n;
    MulLe(qb + 1, qa, n);
    assert qa <= qb;
  }

  /** With at most 100 levels, distinct levels show distinct percentages. */
  lemma LevelToPercentStrict(n: nat, a: int, b: int)
    requires 1 <= n <= 100 && 1 <= a < b <= n
    ensures LevelToPercent(n, a) < LevelToPercent(n, b)
  {
    var pa, pb := LevelToPercent(n, a), LevelToPercent(n, b);
    LevelToPercentIsFloor(n, a);
    LevelToPercentIsFloor(n, b);
    MulLe(pb + 1, pa + 1, n);
    MulLe(a + 1, b, 100);
  }

  /** A larger request never selects a lower level. */
  lemma PercentToLevelMonotone(n: nat, p: int, q: int)
    requires n >= 1 && p <= q
    ensures PercentToLevel(n, p) <= PercentToLevel(n, q)
  {
    MulLe(p, q, n);
    var a, b := CeilDiv(p * n, 100), CeilDiv(q * n, 100);
    MulLe(b + 1, a, 100);
  }

  /** With at most 100 levels, turning a level into a percentage and back gives the level. */
  lemma LevelRoundTrip(n: nat, level: int)
    requires 1 <= n <= 100 && 1 <= level <= n
    ensures PercentToLevel(n, LevelToPercent(n, level)) == level
  {
    var p := LevelToPercent(n, level);
    var r := PercentToLevel(n, p);
    LevelToPercentIsFloor(n, level);
    MulLe(1, level, 100);
    assert p >= 1;
    PercentToLevelIsCeiling(n, p);
    MulLe(level, r - 1, 100);
    MulLe(r, level - 1, 100);
  }

  /** With more than 100 levels the round trip can lose a level: 200 levels, level 3. */
  lemma LevelRoundTripFailsAboveHundred()
    ensures LevelToPercent(200, 3) == 1 && PercentToLevel(200, 1) == 2
  {
  }

  /** Writing a percentage selects the lowest level whose percentage reaches the request:
      the level shown afterwards is at least the requested value, and one level lower
      would show less. */
  lemma PercentSnapsUp(n: nat, percent: int)
    requires n >= 1
    ensures 0 <= percent <= 100 ==> LevelToPercent(n, PercentToLevel(n, percent)) >= percent
    ensures 0 <= percent <= 100 && PercentToLevel(n, percent) > 1 ==>
      LevelToPercent(n, PercentToLevel(n, percent) - 1) < percent
  {
    var r := PercentToLevel(n, percent);
    var q := LevelToPercent(n, r);
    if 0 < percent <= 100 {
      PercentToLevelIsCeiling(n, percent);
      LevelToPercentIsFloor(n, r);
      MulLe(q + 1, percent, n);
      if r > 1 {
        LevelToPercentIsFloor(n, r - 1);
        MulLe(percent, LevelToPercent(n, r - 1), n);
      }
    }
  }

  /** Writing back the percentage that was read selects the same level again. */
  lemma PercentToLevelIdempotent(n: nat, percent: int)
    requires 1 <= n <= 100
    ensures PercentToLevel(n, LevelToPercent(n, PercentToLevel(n, percent))) == PercentToLevel(n, percent)
  {
    LevelRoundTrip(n, PercentToLevel(n, percent));
  }
}
