/**
 * The older formatters of `srtfmt.py`: `format_bytes` and `format_seconds`.
 * Both drop the sign. The byte ladder divides by 1024 from 1024 upward; the
 * seconds ladder divides by 60, 60, 24 and 7 once the value reaches the
 * divisor, with no 0.9 margin. As written, `format_seconds` fails for
 * durations below a second (the module it uses is never imported) and from
 * one week upward (its loop indexes the divisor table before testing the
 * bound). `FormatSecondsIntended` is the corrected variant.
 */
module Srtfmt {
  import opened Ladder

  const SECOND_UNITS: seq<string> := ["seconds", "minutes", "hours", "days", "weeks"]
  const DENOMINATORS: seq<real> := [60.0, 60.0, 24.0, 7.0]

  /** How many seconds make one unit of SECOND_UNITS[unit]. */
  function SecondScale(unit: nat): (r: real)
    requires unit <= |DENOMINATORS|
    ensures r >= 1.0
  {
    Scale(DENOMINATORS, unit)
  }

  /** Seconds in a week, the first duration the loop cannot handle. */
  const WEEK: real := 604800.0

  /** Four divisors for five names: the scale of the last name, `weeks`, is
      one week, and each name is a plural whose singular drops its `s`. */
  lemma UnitTables()
    ensures |SECOND_UNITS| == |DENOMINATORS| + 1
    ensures SecondScale(|DENOMINATORS|) == WEEK
    ensures forall i :: 0 <= i < |SECOND_UNITS| ==> Singular(SECOND_UNITS[i]) + "s" == SECOND_UNITS[i]
  {
    assert SecondScale(4) == WEEK;
  }

  // ---------------------------------------------------------------------
  // format_bytes

  /** The byte ladder stops at `unit` with number `v` for `a` bytes: below
      1024 unless the unit is the top one, and at least 1 once divided. */
  ghost predicate ByteLadder(a: real, v: real, unit: nat)
  {
    unit <= 8 &&
    v == a / Power(1024.0, unit) &&
    (unit < 8 ==> v < 1024.0) &&
    (unit > 0 ==> v >= 1.0)
  }

  ghost predicate BytesFormatted(n: int, f: Formatted)
  {
    var a := AbsInt(n) as real;
    !f.negative && f.suffix == NoSuffix &&
    if a == 0.0 then
      f == Formatted(false, 0.0, 0, "Bytes", Whole, NoSuffix)
    else if a == 1.0 then
      f == Formatted(false, 1.0, 0, "Byte", Whole, NoSuffix)
    else
      ByteLadder(a, f.number, f.unit) &&
      f.name == BYTE_UNITS[f.unit] &&
      f.render == PlainRender(f.number)
  }

  method FormatBytes(num: int) returns (f: Formatted)
    ensures BytesFormatted(num, f)
  {
    var a := AbsInt(num) as real;
    if a == 0.0 {
      return Formatted(false, 0.0, 0, "Bytes", Whole, NoSuffix);
    } else if a == 1.0 {
      return Formatted(false, 1.0, 0, "Byte", Whole, NoSuffix);
    }
    var unit := 0;
    var v := a;
    while v >= 1024.0 && unit < 8
      invariant unit <= 8
      invariant v == a / Power(1024.0, unit)
      invariant unit > 0 ==> v >= 1.0
    {
      var p := Power(1024.0, unit);
      assert Power(1024.0, unit + 1) == p * 1024.0;
      ByteStep(a, p, v);
      v := v / 1024.0;
      unit := unit + 1;
    }
    f := Formatted(false, v, unit, BYTE_UNITS[unit], PlainRender(v), NoSuffix);
  }

  /** One division of the loop keeps `v` the count in the next unit, and at
      least 1. */
  lemma ByteStep(a: real, p: real, v: real)
    requires p > 0.0 && v == a / p && v >= 1024.0
    ensures v / 1024.0 == a / (p * 1024.0) && v / 1024.0 >= 1.0
  {
    DivStep(a, p, 1024.0);
    DivBounds(v, 1024.0, 1.0);
  }

  lemma ByteLadderMonotone(a: real, v: real, j: nat, b: real, w: real, k: nat)
    requires 0.0 <= a <= b
    requires ByteLadder(a, v, j) && ByteLadder(b, w, k)
    ensures j <= k
  {
    if k < j {
      var i := j - 1;
      var pi := Power(1024.0, i);
      assert Power(1024.0, j) == pi * 1024.0;
      DivStep(a, pi, 1024.0);
      DivBounds(a / pi, 1024.0, 1.0);
      PowerGrows(1024.0, k, i);
      DivAntitone(b, Power(1024.0, k), pi);
      DivMonotone(a, b, pi);
      assert false;
    }
  }

  lemma ByteLadderUnique(a: real, v: real, j: nat, w: real, k: nat)
    requires a >= 0.0
    requires ByteLadder(a, v, j) && ByteLadder(a, w, k)
    ensures j == k && v == w
  {
    ByteLadderMonotone(a, v, j, a, w, k);
    ByteLadderMonotone(a, w, k, a, v, j);
  }

  /** `format_bytes(-n)` and `format_bytes(n)` are the same string. */
  lemma BytesIgnoresSign(n: int, f: Formatted, g: Formatted)
    requires BytesFormatted(n, f) && BytesFormatted(-n, g)
    ensures f == g
  {
    var a := AbsInt(n) as real;
    assert AbsInt(-n) as real == a;
    if a > 1.0 {
      ByteLadderUnique(a, f.number, f.unit, g.number, g.unit);
    }
  }

  // ---------------------------------------------------------------------
  // format_seconds

  /** The seconds ladder stops at `unit` with number `v` for `a` seconds:
      below the divisor of its unit unless it is `weeks`, and at least 1 once
      divided. */
  ghost predicate SecondLadder(a: real, v: real, unit: nat)
  {
    unit <= 4 &&
    v == a / SecondScale(unit) &&
    (unit < 4 ==> v < DENOMINATORS[unit]) &&
    (unit > 0 ==> v >= 1.0)
  }

  /** The result of `format_seconds` as written: the sign is dropped, 0 and
      1 are special, a fraction of a second fails with an undefined name and
      a week or more with an index out of range. */
  ghost predicate SecondsFormatted(n: real, r: Result<Formatted>)
  {
    var a := Abs(n);
    if a == 0.0 then
      r == Ok(Formatted(false, 0.0, 0, "seconds", Whole, NoSuffix))
    else if a == 1.0 then
      r == Ok(Formatted(false, 1.0, 0, "second", Whole, NoSuffix))
    else if a < 1.0 then
      r == Err(NameNotDefined)
    else if a >= WEEK then
      r == Err(IndexOutOfRange)
    else
      r.Ok? && SecondsShown(a, r.value) && r.value.unit < 4
  }

  /** `a` seconds shown in the unit where the ladder stops. */
  ghost predicate SecondsShown(a: real, f: Formatted)
  {
    !f.negative && f.suffix == NoSuffix &&
    SecondLadder(a, f.number, f.unit) &&
    f.name == Named(SECOND_UNITS, f.unit, f.number) &&
    f.render == PlainRender(f.number)
  }

  method FormatSeconds(num: real) returns (r: Result<Formatted>)
    ensures SecondsFormatted(num, r)
  {
    var a := Abs(num);
    if a == 0.0 {
      return Ok(Formatted(false, 0.0, 0, "seconds", Whole, NoSuffix));
    } else if a == 1.0 {
      return Ok(Formatted(false, 1.0, 0, "second", Whole, NoSuffix));
    }
    if a < 1.0 {
      // the two-significant-figure branch calls `math`, never imported
      return Err(NameNotDefined);
    }
    var unit := 0;
    var v := a;
    while true
      invariant unit <= 4
      invariant v == a / SecondScale(unit)
      invariant a >= SecondScale(unit)
      invariant unit > 0 ==> v >= 1.0
      decreases 4 - unit
    {
      if unit >= |DENOMINATORS| {
        // `denominators[unit]` is evaluated before `unit < 4`
        assert SecondScale(unit) == WEEK;
        return Err(IndexOutOfRange);
      }
      if !(v >= DENOMINATORS[unit] && unit < 4) {
        break;
      }
      StepUp(a, unit);
      v := v / DENOMINATORS[unit];
      unit := unit + 1;
    }
    BelowWeek(a, unit);
    r := Ok(Formatted(false, v, unit, Named(SECOND_UNITS, unit, v), PlainRender(v), NoSuffix));
  }

  /** One division of the loop: `a / S(k) >= D[k]` puts `a` at least one unit
      of step `k + 1`, with the new number `a / S(k + 1)`. */
  lemma StepUp(a: real, k: nat)
    requires k < 4 && a / SecondScale(k) >= DENOMINATORS[k]
    ensures a / SecondScale(k) / DENOMINATORS[k] == a / SecondScale(k + 1)
    ensures a >= SecondScale(k + 1)
    ensures a / SecondScale(k + 1) >= 1.0
  {
    var s, d := SecondScale(k), DENOMINATORS[k];
    assert SecondScale(k + 1) == s * d;
    DivStep(a, s, d);
    DivBounds(a, s, d);
    DivBounds(a / s, d, 1.0);
  }

  /** Where the loop stops below the divisor, the duration is under a week. */
  lemma BelowWeek(a: real, k: nat)
    requires k < 4 && a / SecondScale(k) < DENOMINATORS[k]
    ensures a < WEEK
  {
    var s, d := SecondScale(k), DENOMINATORS[k];
    assert SecondScale(k + 1) == s * d;
    DivBounds(a, s, d);
    ScaleGrows(DENOMINATORS, k + 1, 4);
    assert SecondScale(4) == WEEK;
  }

  lemma SecondLadderMonotone(a: real, v: real, j: nat, b: real, w: real, k: nat)
    requires 0.0 <= a <= b
    requires SecondLadder(a, v, j) && SecondLadder(b, w, k)
    ensures j <= k
  {
    if k < j {
      // a >= S(j) >= S(k + 1) > b, against a <= b
      var sk, d := SecondScale(k), DENOMINATORS[k];
      assert SecondScale(k + 1) == sk * d;
      DivBounds(b, sk, d);
      DivBounds(a, SecondScale(j), 1.0);
      ScaleGrows(DENOMINATORS, k + 1, j);
      assert false;
    }
  }

  lemma SecondLadderUnique(a: real, v: real, j: nat, w: real, k: nat)
    requires a >= 0.0
    requires SecondLadder(a, v, j) && SecondLadder(a, w, k)
    ensures j == k && v == w
  {
    SecondLadderMonotone(a, v, j, a, w, k);
    SecondLadderMonotone(a, w, k, a, v, j);
  }

  /** `format_seconds(-n)` and `format_seconds(n)` give the same outcome. */
  lemma SecondsIgnoresSign(n: real, r: Result<Formatted>, q: Result<Formatted>)
    requires SecondsFormatted(n, r) && SecondsFormatted(-n, q)
    ensures r == q
  {
    var a := Abs(n);
    assert Abs(-n) == a;
    if 1.0 < a < WEEK {
      SecondLadderUnique(a, r.value.number, r.value.unit, q.value.number, q.value.unit);
    }
  }

  /** One week, as written, fails instead of giving `1 week`. */
  lemma OneWeekFails(r: Result<Formatted>)
    requires SecondsFormatted(WEEK, r)
    ensures r == Err(IndexOutOfRange)
  {
  }

  /** Half a second, as written, fails instead of giving `0.50 seconds`. */
  lemma HalfSecondFails(r: Result<Formatted>)
    requires SecondsFormatted(0.5, r)
    ensures r == Err(NameNotDefined)
  {
  }

  // ---------------------------------------------------------------------
  // format_seconds as intended

  /** The result of `format_seconds` with the loop bound tested before the
      table is indexed and with `math` available: two significant figures
      below a second, and `weeks` as the top unit. */
  ghost predicate SecondsIntended(n: real, f: Formatted)
  {
    var a := Abs(n);
    if a == 0.0 then
      f == Formatted(false, 0.0, 0, "seconds", Whole, NoSuffix)
    else if a == 1.0 then
      f == Formatted(false, 1.0, 0, "second", Whole, NoSuffix)
    else if a < 1.0 then
      f == Formatted(false, a, 0, "seconds", Significant(SignificantDecimals(a)), NoSuffix)
    else
      SecondsShown(a, f)
  }

  method FormatSecondsIntended(num: real) returns (f: Formatted)
    ensures SecondsIntended(num, f)
  {
    var a := Abs(num);
    if a == 0.0 {
      return Formatted(false, 0.0, 0, "seconds", Whole, NoSuffix);
    } else if a == 1.0 {
      return Formatted(false, 1.0, 0, "second", Whole, NoSuffix);
    }
    if a < 1.0 {
      return Formatted(false, a, 0, "seconds", Significant(SignificantDecimals(a)), NoSuffix);
    }
    var unit := 0;
    var v := a;
    while unit < 4 && v >= DENOMINATORS[unit]
      invariant unit <= 4
      invariant v == a / SecondScale(unit)
      invariant unit > 0 ==> v >= 1.0
    {
      StepUp(a, unit);
      v := v / DENOMINATORS[unit];
      unit := unit + 1;
    }
    f := Formatted(false, v, unit, Named(SECOND_UNITS, unit, v), PlainRender(v), NoSuffix);
  }

  /** Where the code as written succeeds, the corrected variant gives the
      same result; it differs only where the original fails. */
  lemma IntendedAgrees(n: real, r: Result<Formatted>, f: Formatted)
    requires SecondsFormatted(n, r) && SecondsIntended(n, f)
    requires r.Ok?
    ensures r.value == f
  {
    var a := Abs(n);
    if a > 1.0 {
      SecondLadderUnique(a, r.value.number, r.value.unit, f.number, f.unit);
    }
  }

  /** Corrected, one week is `1 week`. */
  lemma OneWeekIntended(f: Formatted)
    requires SecondsIntended(WEEK, f)
    ensures f == Formatted(false, 1.0, 4, "week", Whole, NoSuffix)
  {
    assert SecondScale(4) == WEEK;
    assert SecondLadder(WEEK, 1.0, 4);
    SecondLadderUnique(WEEK, f.number, f.unit, 1.0, 4);
  }

  /** Corrected, half a second is `0.50 seconds`: two decimals. */
  lemma HalfSecondIntended(f: Formatted)
    requires SecondsIntended(0.5, f)
    ensures f == Formatted(false, 0.5, 0, "seconds", Significant(2), NoSuffix)
  {
    Floor10Unique(0.5, -1);
  }

  /** Corrected, `weeks` is the top unit, reached exactly from one week on. */
  lemma WeeksFromOneWeek(n: real, f: Formatted)
    requires SecondsIntended(n, f)
    ensures f.unit == 4 <==> Abs(n) >= WEEK
  {
    var a := Abs(n);
    assert SecondScale(4) == WEEK;
    if f.unit < 4 {
      BelowWeek(a, f.unit);
    } else {
      DivBounds(a, WEEK, 1.0);
    }
  }
}
