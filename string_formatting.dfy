/**
 * The current formatters: `format_bytes`, `format_seconds` and
 * `format_seconds_uncertainty` with its nested helpers `_round` and
 * `_format`. Every method states its result through a ghost predicate
 * (`BytesFormatted`, `SecondsFormatted`, `UncertainFormatted`) that says where
 * the unit ladder stops for the input, what the scaled number is and how it
 * is rendered; StringFormattingProperties proves what follows from them.
 */
module StringFormatting {
  import opened Ladder

  const SECOND_UNITS: seq<string> :=
    ["seconds", "minutes", "hours", "days", "weeks", "months", "years"]
  const SUB_SECOND_UNITS: seq<string> :=
    ["seconds", "milliseconds", "microseconds", "nanoseconds"]
  /** Divisor from each unit of SECOND_UNITS to the next; a month is 365.25/84 weeks. */
  const DENOMINATORS: seq<real> := [60.0, 60.0, 24.0, 7.0, 365.25 / 84.0, 12.0]

  /** How many units of SUB_SECOND_UNITS[k] make one second: 1000 to the power `k`. */
  const PER_SECOND: seq<real> := [1.0, 1000.0, 1000000.0, 1000000000.0]

  /** The default `_minimum` of `_format`. */
  const SPREAD_MINIMUM: real := 0.000001

  /** How many seconds make one unit of SECOND_UNITS[unit]. */
  function SecondScale(unit: nat): (r: real)
    requires unit <= |DENOMINATORS|
    ensures r >= 1.0
  {
    Scale(DENOMINATORS, unit)
  }

  /** The scales of the seconds ladder: a week is 604800 seconds, a month a
      twelfth of 365.25 days and a year 365.25 days. */
  lemma SecondScales()
    ensures SecondScale(4) == 604800.0
    ensures SecondScale(5) == 2629800.0
    ensures SecondScale(6) == 31557600.0
  {
    assert SecondScale(4) == 604800.0;
    assert SecondScale(5) == 604800.0 * (365.25 / 84.0);
  }

  /** One name per rung of the seconds ladder, each a plural ending in `s`
      whose singular drops that letter. */
  lemma SecondUnitNames()
    ensures |SECOND_UNITS| == |DENOMINATORS| + 1
    ensures forall i :: 0 <= i < |SECOND_UNITS| ==> Singular(SECOND_UNITS[i]) + "s" == SECOND_UNITS[i]
    ensures Singular(SECOND_UNITS[1]) == "minute" && Singular(SECOND_UNITS[6]) == "year"
  {
  }

  /** One name per rung below a second, each a plural ending in `s`, a
      thousand times finer than the one before. */
  lemma SubSecondUnitNames()
    ensures |SUB_SECOND_UNITS| == |PER_SECOND|
    ensures forall i :: 0 <= i < |SUB_SECOND_UNITS| ==> Singular(SUB_SECOND_UNITS[i]) + "s" == SUB_SECOND_UNITS[i]
    ensures forall i :: 0 < i < |PER_SECOND| ==> PER_SECOND[i] == PER_SECOND[i - 1] * 1000.0
  {
  }

  // ---------------------------------------------------------------------
  // Where each ladder stops

  /** The byte ladder stops at `unit` with number `v` for `a` bytes: `v` is
      `a` in that unit, it is at most 999 unless the unit is the top one,
      and every division was taken from a value above 999. */
  ghost predicate ByteLadder(a: real, v: real, unit: nat)
  {
    unit <= 8 &&
    v == a / Power(1024.0, unit) &&
    (unit < 8 ==> v <= 999.0) &&
    (unit > 0 ==> v * 1024.0 > 999.0)
  }

  /** The ladder from seconds up to years stops at `unit` with number `v`
      for `a` seconds: a value is promoted once it exceeds 0.9 of the
      divisor, so a promoted number is above 0.9 and a number below the top
      unit is at most 0.9 of its own divisor. */
  ghost predicate ClimbLadder(a: real, v: real, unit: nat)
  {
    unit <= 6 &&
    v == a / SecondScale(unit) &&
    (unit < 6 ==> v <= 0.9 * DENOMINATORS[unit]) &&
    (unit > 0 ==> v > 0.9)
  }

  /** The ladder from seconds down to nanoseconds stops at `unit` with number
      `v` for `a` seconds: `unit` multiplications by 1000, each taken from a
      value below 0.9. */
  ghost predicate DescendLadder(a: real, v: real, unit: nat)
  {
    unit <= 3 &&
    v == a * PER_SECOND[unit] &&
    (unit < 3 ==> v >= 0.9) &&
    (unit > 0 ==> v < 900.0)
  }

  /** How a sub-second number is printed: two decimals above 1, two
      significant figures at or below 1, none when whole. */
  function SubSecondRender(v: real): (r: Render)
    requires v > 0.0
    ensures r == Whole <==> IsWhole(v)
    ensures r == TwoDecimals <==> !IsWhole(v) && v > 1.0
    ensures r.Significant? ==> v <= 1.0 && r.decimals == SignificantDecimals(v)
  {
    if !IsWhole(v) && v > 1.0 then TwoDecimals
    else if !IsWhole(v) then Significant(SignificantDecimals(v))
    else Whole
  }

  // ---------------------------------------------------------------------
  // format_bytes

  ghost predicate BytesFormatted(n: int, f: Formatted)
  {
    var a := AbsInt(n) as real;
    f.negative == (n < 0) && f.suffix == NoSuffix &&
    if a == 1.0 then
      f.number == 1.0 && f.unit == 0 && f.name == "Byte" && f.render == Whole
    else
      ByteLadder(a, f.number, f.unit) &&
      f.name == BYTE_UNITS[f.unit] &&
      f.render == PlainRender(f.number)
  }

  method FormatBytes(numBytes: int) returns (f: Formatted)
    ensures BytesFormatted(numBytes, f)
  {
    var negative := numBytes < 0;
    var a := AbsInt(numBytes) as real;
    if a == 1.0 {
      return Formatted(negative, 1.0, 0, "Byte", Whole, NoSuffix);
    }
    var unit := 0;
    var v := a;
    while unit < 8 && v > 999.0
      invariant unit <= 8
      invariant v == a / Power(1024.0, unit)
      invariant unit > 0 ==> v * 1024.0 > 999.0
    {
      DivStep(a, Power(1024.0, unit), 1024.0);
      v := v / 1024.0;
      unit := unit + 1;
    }
    f := Formatted(negative, v, unit, BYTE_UNITS[unit], PlainRender(v), NoSuffix);
  }

  // ---------------------------------------------------------------------
  // format_seconds

  ghost predicate SecondsFormatted(n: real, f: Formatted)
  {
    var a := Abs(n);
    f.negative == (n < 0.0) && f.suffix == NoSuffix &&
    if a == 0.0 then
      f == Formatted(false, 0.0, 0, "seconds", Whole, NoSuffix)
    else if a >= 1.0 then
      ClimbLadder(a, f.number, f.unit) &&
      f.name == Named(SECOND_UNITS, f.unit, f.number) &&
      f.render == PlainRender(f.number)
    else
      DescendLadder(a, f.number, f.unit) &&
      f.name == Named(SUB_SECOND_UNITS, f.unit, f.number) &&
      f.render == SubSecondRender(f.number)
  }

  method FormatSeconds(numSeconds: real) returns (f: Formatted)
    ensures SecondsFormatted(numSeconds, f)
  {
    var negative := numSeconds < 0.0;
    var a := Abs(numSeconds);
    if a == 0.0 {
      return Formatted(false, 0.0, 0, "seconds", Whole, NoSuffix);
    }
    if a >= 1.0 {
      var v, unit := Climb(a);
      f := Formatted(negative, v, unit, Named(SECOND_UNITS, unit, v), PlainRender(v), NoSuffix);
    } else {
      var v, unit := Descend(a);
      f := Formatted(negative, v, unit, Named(SUB_SECOND_UNITS, unit, v), SubSecondRender(v), NoSuffix);
    }
  }

  /** The loop of `format_seconds` for one second or more. */
  method Climb(a: real) returns (v: real, unit: nat)
    ensures ClimbLadder(a, v, unit)
  {
    unit := 0;
    v := a;
    while unit < 6 && v > DENOMINATORS[unit] * 0.9
      invariant unit <= 6
      invariant v == a / SecondScale(unit)
      invariant unit > 0 ==> v > 0.9
    {
      DivStep(a, SecondScale(unit), DENOMINATORS[unit]);
      v := v / DENOMINATORS[unit];
      unit := unit + 1;
    }
  }

  /** The loop of `format_seconds` for less than a second. */
  method Descend(a: real) returns (v: real, unit: nat)
    ensures DescendLadder(a, v, unit)
  {
    unit := 0;
    v := a;
    while unit < 3 && v < 0.9
      invariant unit <= 3
      invariant v == a * PER_SECOND[unit]
      invariant unit > 0 ==> v < 900.0
    {
      assert PER_SECOND[unit + 1] == PER_SECOND[unit] * 1000.0;
      MulStep(a, PER_SECOND[unit], 1000.0);
      v := v * 1000.0;
      unit := unit + 1;
    }
  }

  // ---------------------------------------------------------------------
  // _round and _format

  /** `r` is the least multiple of `e` that is not below `x`. */
  ghost predicate RoundedUp(x: real, e: real, r: real)
    requires e > 0.0
  {
    x <= r < x + e && IsWhole(r / e)
  }

  /** `_round`: round `x` up to the place value of the leading digit of
      `u`; the identity when `u` is zero, an assertion failure when negative. */
  function RoundUp(x: real, u: real): (r: Result<real>)
    ensures r.Err? <==> u < 0.0
    ensures r.Err? ==> r.error == AssertionFailed
    ensures u == 0.0 ==> r == Ok(x)
    ensures u > 0.0 ==> RoundedUp(x, Place(u), r.value)
  {
    if u < 0.0 then Err(AssertionFailed)
    else if u == 0.0 then Ok(x)
    else
      var e := Place(u);
      CeilMultiple(x, e);
      Ok(Ceil(x / e) as real * e)
  }

  lemma CeilMultiple(x: real, e: real)
    requires e > 0.0
    ensures RoundedUp(x, e, Ceil(x / e) as real * e)
  {
    var m := Ceil(x / e);
    assert (m as real).Floor == m;
    WholeMultiple(x, e, m as real);
  }

  /** A whole `c` with `x / e <= c < x / e + 1` makes `c * e` the rounding. */
  lemma WholeMultiple(x: real, e: real, c: real)
    requires e > 0.0 && IsWhole(c) && x / e <= c < x / e + 1.0
    ensures RoundedUp(x, e, c * e)
  {
    DivBounds(x, e, c);
    DivBounds(x, e, c - 1.0);
    MulSub(c, e);
    MulDiv(c, e);
  }

  /** `_format`: the `±u` suffix, left out when the uncertainty is not
      printed or is below `minimum`; it asserts that `u` is not negative. */
  function FormatUncertainty(u: real, minimum: real, printUncertainty: bool): (r: Result<Suffix>)
    ensures r.Err? <==> u < 0.0
    ensures r.Ok? ==> (r.value == NoSuffix <==> !printUncertainty || u < minimum)
    ensures r.Ok? && r.value.PlusMinus? ==>
      r.value.spread == u &&
      (r.value.render == Whole <==> IsWhole(u)) &&
      (r.value.render == TwoDecimals <==> !IsWhole(u) && u >= 1.0) &&
      (r.value.render.Significant? ==> u < 1.0 && r.value.render.decimals == SignificantDecimals(u))
  {
    if u < 0.0 then Err(AssertionFailed)
    else if !printUncertainty then Ok(NoSuffix)
    else if u < minimum then Ok(NoSuffix)
    else if IsWhole(u) then Ok(PlusMinus(u, Whole))
    else if u < 1.0 then Ok(PlusMinus(u, Significant(SignificantDecimals(u))))
    else Ok(PlusMinus(u, TwoDecimals))
  }

  // ---------------------------------------------------------------------
  // format_seconds_uncertainty

  /** Either one formatted magnitude, or `0±` followed by the formatted
      uncertainty. */
  datatype Shown = Plain(shown: Formatted) | ZeroPlusMinus(spread: Formatted)

  /** The `>= 1` second branch once the ladder stopped at `unit`, where `v`
      and `w` are the value and the uncertainty in that unit. */
  function ShowClimb(negative: bool, v: real, w: real, p: bool, unit: nat): (f: Formatted)
    requires unit < |SECOND_UNITS| && w >= 0.0
    ensures f.negative == negative && f.unit == unit
    ensures f.number == RoundUp(v, w / 10.0).value
    ensures f.name != SECOND_UNITS[unit] <==> f.number == 1.0 && (w < 0.1 || !p)
    ensures f.render == PlainRender(f.number)
    ensures f.number == 1.0 && (w < 0.1 || !p) ==>
      f.name == Singular(SECOND_UNITS[unit]) && f.suffix == NoSuffix
    ensures !(f.number == 1.0 && (w < 0.1 || !p)) ==>
      f.suffix == FormatUncertainty(w, if IsWhole(f.number) then 0.1 else 0.01, p).value
  {
    var x := RoundUp(v, w / 10.0).value;
    if x == 1.0 && (w < 0.1 || !p) then
      Formatted(negative, 1.0, unit, Singular(SECOND_UNITS[unit]), Whole, NoSuffix)
    else if !IsWhole(x) then
      Formatted(negative, x, unit, SECOND_UNITS[unit], TwoDecimals, FormatUncertainty(w, 0.01, p).value)
    else
      Formatted(negative, x, unit, SECOND_UNITS[unit], Whole, FormatUncertainty(w, 0.1, p).value)
  }

  /** The sub-second branch once the ladder stopped at `unit`, where `v > 0`
      and `w` are the value and the uncertainty in that unit. */
  function ShowDescend(negative: bool, v: real, w: real, p: bool, unit: nat): (f: Formatted)
    requires unit < |SUB_SECOND_UNITS| && w >= 0.0 && v > 0.0
    ensures f.negative == negative && f.unit == unit
    ensures f.number == RoundUp(v, w).value
    ensures f.number >= v
    ensures f.name != SUB_SECOND_UNITS[unit] <==> f.number == 1.0
    ensures f.number == 1.0 ==> f.name == Singular(SUB_SECOND_UNITS[unit])
    ensures f.render == SubSecondRender(f.number)
    ensures f.suffix == FormatUncertainty(w,
      if IsWhole(f.number) then 0.1 else if f.number > 1.0 then 0.01 else SPREAD_MINIMUM, p).value
  {
    var x := RoundUp(v, w).value;
    if x == 1.0 then
      Formatted(negative, 1.0, unit, Singular(SUB_SECOND_UNITS[unit]), Whole, FormatUncertainty(w, 0.1, p).value)
    else if !IsWhole(x) && x > 1.0 then
      Formatted(negative, x, unit, SUB_SECOND_UNITS[unit], TwoDecimals, FormatUncertainty(w, 0.01, p).value)
    else if x > 1.0 then
      Formatted(negative, x, unit, SUB_SECOND_UNITS[unit], Whole, FormatUncertainty(w, 0.1, p).value)
    else
      Formatted(negative, x, unit, SUB_SECOND_UNITS[unit], Significant(SignificantDecimals(x)),
                FormatUncertainty(w, SPREAD_MINIMUM, p).value)
  }

  /** The result of `format_seconds_uncertainty(n, u, p)`. The ladder is
      chosen by the rounded copy `t` above one second and by the value itself
      below; value and uncertainty are shown in the unit the ladder stops at. */
  ghost predicate UncertainFormatted(n: real, u: real, p: bool, r: Result<Shown>)
  {
    var a := Abs(n);
    if p && u < 0.0 then
      r == Err(AssertionFailed)
    else
      var t := if p then RoundUp(a, u).value else a;
      if a == 0.0 then
        if u > 0.0 && p then
          r.Ok? && r.value.ZeroPlusMinus? && SecondsFormatted(u, r.value.spread)
        else
          r == Ok(Plain(Formatted(false, 0.0, 0, "seconds", Whole, NoSuffix)))
      else if u < 0.0 then
        r == Err(AssertionFailed)
      else
        r.Ok? && r.value.Plain? &&
        if t >= 1.0 then AboveSecond(n < 0.0, a, t, u, p, r.value.shown)
        else BelowSecond(n < 0.0, a, u, p, r.value.shown)
  }

  /** At one second or more (of the rounded copy `t`), the ladder climbs on
      `t`, and the value `a` and the uncertainty `u` are shown in its unit. */
  ghost predicate AboveSecond(negative: bool, a: real, t: real, u: real, p: bool, f: Formatted)
    requires u >= 0.0
  {
    var k := f.unit;
    k <= 6 && ClimbLadder(t, t / SecondScale(k), k) &&
    f == ShowClimb(negative, a / SecondScale(k), u / SecondScale(k), p, k)
  }

  /** Below one second the ladder descends on the value `a` itself. */
  ghost predicate BelowSecond(negative: bool, a: real, u: real, p: bool, f: Formatted)
  {
    BelowSecondAt(negative, a, u, p, f.unit, f)
  }

  ghost predicate BelowSecondAt(negative: bool, a: real, u: real, p: bool, k: nat, f: Formatted)
  {
    k <= 3 &&
    var v := a * PER_SECOND[k];
    var w := u * PER_SECOND[k];
    DescendLadder(a, v, k) && v > 0.0 && w >= 0.0 &&
    f == ShowDescend(negative, v, w, p, k)
  }

  method FormatSecondsUncertainty(numSeconds: real, uncertainty: real, printUncertainty: bool)
    returns (r: Result<Shown>)
    ensures UncertainFormatted(numSeconds, uncertainty, printUncertainty, r)
    ensures r.Err? <==> uncertainty < 0.0 && (printUncertainty || numSeconds != 0.0)
  {
    var negative := numSeconds < 0.0;
    var a := Abs(numSeconds);
    var t := a;
    if printUncertainty {
      var rounded := RoundUp(a, uncertainty);
      if rounded.Err? {
        return Err(rounded.error);
      }
      t := rounded.value;
    }

    if a == 0.0 {
      if uncertainty > 0.0 && printUncertainty {
        var spread := FormatSeconds(uncertainty);
        return Ok(ZeroPlusMinus(spread));
      } else {
        return Ok(Plain(Formatted(false, 0.0, 0, "seconds", Whole, NoSuffix)));
      }
    }

    var shown;
    if t >= 1.0 {
      shown := AboveSecondBranch(negative, a, t, uncertainty, printUncertainty);
    } else {
      shown := BelowSecondBranch(negative, a, t, uncertainty, printUncertainty);
    }
    r := if shown.Ok? then Ok(Plain(shown.value)) else Err(shown.error);
  }

  /** Lines for one second or more: the rounded copy `t` picks the unit,
      and the value, the rounded copy and the uncertainty are divided by the
      same divisors in one loop. */
  method AboveSecondBranch(negative: bool, a: real, t: real, uncertainty: real, p: bool)
    returns (r: Result<Formatted>)
    ensures uncertainty < 0.0 ==> r == Err(AssertionFailed)
    ensures uncertainty >= 0.0 ==> r.Ok? && AboveSecond(negative, a, t, uncertainty, p, r.value)
  {
    var num, tmp, u, unit := a, t, uncertainty, 0;
    while unit < 6 && tmp > DENOMINATORS[unit] * 0.9
      invariant unit <= 6
      invariant num == a / SecondScale(unit)
      invariant tmp == t / SecondScale(unit)
      invariant u == uncertainty / SecondScale(unit)
      invariant unit > 0 ==> tmp > 0.9
    {
      var s, d := SecondScale(unit), DENOMINATORS[unit];
      DivStep(a, s, d);
      DivStep(t, s, d);
      DivStep(uncertainty, s, d);
      num := num / d;
      tmp := tmp / d;
      u := u / d;
      unit := unit + 1;
    }
    DivBounds(uncertainty, SecondScale(unit), 0.0);
    if u / 10.0 < 0.0 {
      // `_round(num_seconds, uncertainty / 10)` asserts
      return Err(AssertionFailed);
    }
    var f := ShowClimb(negative, num, u, p, unit);
    assert ClimbLadder(t, t / SecondScale(f.unit), f.unit);
    r := Ok(f);
  }

  /** Lines below one second: the loop tests the value itself, not the
      rounded copy, and multiplies all three by 1000. */
  method BelowSecondBranch(negative: bool, a: real, t: real, uncertainty: real, p: bool)
    returns (r: Result<Formatted>)
    requires a > 0.0
    ensures uncertainty < 0.0 ==> r == Err(AssertionFailed)
    ensures uncertainty >= 0.0 ==> r.Ok? && BelowSecond(negative, a, uncertainty, p, r.value)
  {
    var num, tmp, u, unit := a, t, uncertainty, 0;
    while unit < 3 && num < 0.9
      invariant unit <= 3
      invariant num == a * PER_SECOND[unit]
      invariant tmp == t * PER_SECOND[unit]
      invariant u == uncertainty * PER_SECOND[unit]
      invariant unit > 0 ==> num < 900.0
    {
      var s := PER_SECOND[unit];
      assert PER_SECOND[unit + 1] == s * 1000.0;
      MulStep(a, s, 1000.0);
      MulStep(t, s, 1000.0);
      MulStep(uncertainty, s, 1000.0);
      tmp := tmp * 1000.0;
      num := num * 1000.0;
      u := u * 1000.0;
      unit := unit + 1;
    }
    MulSign(a, PER_SECOND[unit]);
    MulSign(uncertainty, PER_SECOND[unit]);
    if u < 0.0 {
      // `_round(num_seconds, uncertainty)` asserts
      return Err(AssertionFailed);
    }
    var f := ShowDescend(negative, num, u, p, unit);
    assert BelowSecondAt(negative, a, uncertainty, p, unit, f);
    r := Ok(f);
  }
}
