/**
 * What follows from the result predicates of StringFormatting: each ladder
 * stop is monotone in the input and therefore unique, so every formatter's
 * result is determined by its input; the sign only sets the `-`; the
 * documented boundary cases; `_round` rounds up to the least multiple; and
 * with no uncertainty `format_seconds_uncertainty` agrees with
 * `format_seconds`.
 */
module StringFormattingProperties {
  import opened Ladder
  import opened StringFormatting

  // ---------------------------------------------------------------------
  // The ladders are monotone in the input, hence unique

  /** A larger byte count never stops at a smaller unit. */
  lemma ByteLadderMonotone(a: real, v: real, j: nat, b: real, w: real, k: nat)
    requires 0.0 <= a <= b
    requires ByteLadder(a, v, j) && ByteLadder(b, w, k)
    ensures j <= k
  {
    if k < j {
      var i := j - 1;
      var pi := Power(1024.0, i);
      assert Power(1024.0, j) == pi * 1024.0;
      DivStep(a, pi, 1024.0);
      assert a / pi > 999.0;
      PowerGrows(1024.0, k, i);
      DivAntitone(b, Power(1024.0, k), pi);
      DivMonotone(a, b, pi);
      assert false;
    }
  }

  lemma ByteLadderUnique(a: real, v: real, j: nat, w: real, k: nat)
    requires a >= 0.0
    requires ByteLadder(a, v, j) && ByteLadder(a, w, k)
    ensures j == k && v == w
  {
    ByteLadderMonotone(a, v, j, a, w, k);
    ByteLadderMonotone(a, w, k, a, v, j);
  }

  /** A longer duration of at least a second never stops at a smaller unit. */
  lemma ClimbLadderMonotone(a: real, v: real, j: nat, b: real, w: real, k: nat)
    requires 0.0 <= a <= b
    requires ClimbLadder(a, v, j) && ClimbLadder(b, w, k)
    ensures j <= k
  {
    if k < j {
      var sk, d := SecondScale(k), DENOMINATORS[k];
      assert SecondScale(k + 1) == sk * d;
      DivStep(b, sk, d);
      DivBounds(b / sk, d, 0.9);
      assert b / SecondScale(k + 1) <= 0.9;
      ScaleGrows(DENOMINATORS, k + 1, j);
      DivAntitone(a, SecondScale(k + 1), SecondScale(j));
      DivMonotone(a, b, SecondScale(k + 1));
      assert false;
    }
  }

  lemma ClimbLadderUnique(a: real, v: real, j: nat, w: real, k: nat)
    requires a >= 0.0
    requires ClimbLadder(a, v, j) && ClimbLadder(a, w, k)
    ensures j == k && v == w
  {
    ClimbLadderMonotone(a, v, j, a, w, k);
    ClimbLadderMonotone(a, w, k, a, v, j);
  }

  /** A longer sub-second duration never descends further. */
  lemma DescendLadderAntitone(a: real, v: real, j: nat, b: real, w: real, k: nat)
    requires 0.0 <= a <= b
    requires DescendLadder(a, v, j) && DescendLadder(b, w, k)
    ensures k <= j
  {
    // j < k would need a * PER_SECOND[k] >= 1000 * 0.9 > b * PER_SECOND[k].
  }

  lemma DescendLadderUnique(a: real, v: real, j: nat, w: real, k: nat)
    requires a >= 0.0
    requires DescendLadder(a, v, j) && DescendLadder(a, w, k)
    ensures j == k && v == w
  {
    DescendLadderAntitone(a, v, j, a, w, k);
    DescendLadderAntitone(a, w, k, a, v, j);
  }

  // ---------------------------------------------------------------------
  // Each formatter's result is determined by its input

  lemma BytesFormattedUnique(n: int, f: Formatted, g: Formatted)
    requires BytesFormatted(n, f) && BytesFormatted(n, g)
    ensures f == g
  {
    var a := AbsInt(n) as real;
    if a != 1.0 {
      ByteLadderUnique(a, f.number, f.unit, g.number, g.unit);
    }
  }

  lemma SecondsFormattedUnique(n: real, f: Formatted, g: Formatted)
    requires SecondsFormatted(n, f) && SecondsFormatted(n, g)
    ensures f == g
  {
    var a := Abs(n);
    if a >= 1.0 {
      ClimbLadderUnique(a, f.number, f.unit, g.number, g.unit);
    } else if a > 0.0 {
      DescendLadderUnique(a, f.number, f.unit, g.number, g.unit);
    }
  }

  // ---------------------------------------------------------------------
  // The sign only decides the leading `-`

  /** `format_bytes(-n)` is `format_bytes(n)` with the `-` toggled. */
  lemma BytesSignSymmetric(n: int, f: Formatted, g: Formatted)
    requires n != 0
    requires BytesFormatted(n, f) && BytesFormatted(-n, g)
    ensures g == f.(negative := !f.negative)
  {
    assert BytesFormatted(-n, f.(negative := !f.negative));
    BytesFormattedUnique(-n, g, f.(negative := !f.negative));
  }

  /** `format_seconds(-n)` is `format_seconds(n)` with the `-` toggled. */
  lemma SecondsSignSymmetric(n: real, f: Formatted, g: Formatted)
    requires n != 0.0
    requires SecondsFormatted(n, f) && SecondsFormatted(-n, g)
    ensures g == f.(negative := !f.negative)
  {
    assert Abs(-n) == Abs(n);
    assert SecondsFormatted(-n, f.(negative := !f.negative));
    SecondsFormattedUnique(-n, g, f.(negative := !f.negative));
  }

  // ---------------------------------------------------------------------
  // Where the byte ladder stops

  /** 1000 to 1023 bytes are already shown in KiB, with two decimals. */
  lemma KibibytesFromAThousand(n: int, f: Formatted)
    requires 1000 <= AbsInt(n) <= 1023
    requires BytesFormatted(n, f)
    ensures f.unit == 1 && f.name == "KiB"
    ensures f.number == AbsInt(n) as real / 1024.0 && f.render == TwoDecimals
  {
    var a := AbsInt(n) as real;
    assert Power(1024.0, 1) == 1024.0;
    assert ByteLadder(a, a / 1024.0, 1);
    ByteLadderUnique(a, f.number, f.unit, a / 1024.0, 1);
    assert (a / 1024.0).Floor == 0;
  }

  /** YiB is reached, exactly when the count is above 999 ZiB. */
  lemma YobibytesAtTheTop(n: int, f: Formatted)
    requires BytesFormatted(n, f)
    ensures f.unit == 8 <==> AbsInt(n) as real / Power(1024.0, 7) > 999.0
    ensures f.unit == 8 ==> f.name == "YiB"
  {
    var a := AbsInt(n) as real;
    var p7 := Power(1024.0, 7);
    assert Power(1024.0, 8) == p7 * 1024.0;
    DivStep(a, p7, 1024.0);
    if a / p7 > 999.0 {
      assert ByteLadder(a, a / Power(1024.0, 8), 8);
      ByteLadderUnique(a, f.number, f.unit, a / Power(1024.0, 8), 8);
    }
  }

  /** 1024 bytes are one KiB, printed without decimals. */
  lemma OneKibibyte(f: Formatted)
    requires BytesFormatted(1024, f)
    ensures f == Formatted(false, 1.0, 1, "KiB", Whole, NoSuffix)
  {
    assert Power(1024.0, 1) == 1024.0;
    assert ByteLadder(1024.0, 1.0, 1);
    ByteLadderUnique(1024.0, f.number, f.unit, 1.0, 1);
  }

  // ---------------------------------------------------------------------
  // Where the seconds ladders stop

  /** Years are the top unit: durations of at least a second stop there
      exactly when they exceed 10.8 months. */
  lemma YearsAtTheTop(n: real, f: Formatted)
    requires Abs(n) >= 1.0
    requires SecondsFormatted(n, f)
    ensures f.unit == 6 <==> Abs(n) / SecondScale(5) > 0.9 * 12.0
    ensures f.unit == 6 ==> f.name == "years" || f.name == "year"
  {
    var a := Abs(n);
    var s5 := SecondScale(5);
    assert DENOMINATORS[5] == 12.0;
    assert SecondScale(6) == s5 * 12.0;
    DivStep(a, s5, 12.0);
    DivBounds(a / s5, 12.0, 0.9);
    if a / s5 > 0.9 * 12.0 {
      assert ClimbLadder(a, a / SecondScale(6), 6);
      ClimbLadderUnique(a, f.number, f.unit, a / SecondScale(6), 6);
    }
  }

  /** Below a second, the unit stays `seconds` exactly on [0.9, 1). */
  lemma SecondsBelowOne(n: real, f: Formatted)
    requires 0.0 < Abs(n) < 1.0
    requires SecondsFormatted(n, f)
    ensures f.unit == 0 <==> Abs(n) >= 0.9
  {
    var a := Abs(n);
    if a >= 0.9 {
      assert DescendLadder(a, a, 0);
      DescendLadderUnique(a, f.number, f.unit, a, 0);
    }
  }

  /** 55 seconds exceed 0.9 minutes, so they are shown as 0.92 minutes. */
  lemma FiftyFiveSeconds(f: Formatted)
    requires SecondsFormatted(55.0, f)
    ensures f.unit == 1 && f.name == "minutes"
    ensures f.number == 55.0 / 60.0 && f.render == TwoDecimals
  {
    assert SecondScale(1) == 60.0;
    assert ClimbLadder(55.0, 55.0 / 60.0, 1);
    ClimbLadderUnique(55.0, f.number, f.unit, 55.0 / 60.0, 1);
    assert (55.0 / 60.0).Floor == 0;
  }

  /** 60 seconds are `1 minute`, in the singular. */
  lemma OneMinute(f: Formatted)
    requires SecondsFormatted(60.0, f)
    ensures f == Formatted(false, 1.0, 1, "minute", Whole, NoSuffix)
  {
    assert SecondScale(1) == 60.0;
    assert ClimbLadder(60.0, 1.0, 1);
    ClimbLadderUnique(60.0, f.number, f.unit, 1.0, 1);
  }

  /** Half a second is `500 milliseconds`. */
  lemma HalfSecond(f: Formatted)
    requires SecondsFormatted(0.5, f)
    ensures f == Formatted(false, 500.0, 1, "milliseconds", Whole, NoSuffix)
  {
    assert PER_SECOND[1] == 1000.0;
    assert DescendLadder(0.5, 500.0, 1);
    DescendLadderUnique(0.5, f.number, f.unit, 500.0, 1);
  }

  // ---------------------------------------------------------------------
  // _round

  /** `_round` yields the least multiple of the uncertainty's decimal place
      that is not below the number: no smaller multiple would do. */
  lemma RoundUpLeast(x: real, u: real, c: int)
    requires u > 0.0
    requires c as real * Place(u) >= x
    ensures RoundUp(x, u).value <= c as real * Place(u)
  {
    var e := Place(u);
    var m := Ceil(x / e);
    DivBounds(x, e, c as real);
    assert m <= c;
    MulMonotone(m as real, c as real, e);
  }

  /** Rounding an already rounded number changes nothing. */
  lemma RoundUpIdempotent(x: real, u: real)
    requires u >= 0.0
    ensures RoundUp(RoundUp(x, u).value, u) == RoundUp(x, u)
  {
    if u > 0.0 {
      RoundUpOfMultiple(RoundUp(x, u).value, u);
    }
  }

  /** A multiple of the place value is left as it is. */
  lemma RoundUpOfMultiple(x: real, u: real)
    requires u > 0.0 && IsWhole(x / Place(u))
    ensures RoundUp(x, u) == Ok(x)
  {
    var e := Place(u);
    var m := Ceil(x / e);
    CeilWhole(x / e);
    DivBounds(x, e, x / e);
    SameProduct(m as real, x / e, e);
    assert RoundUp(x, u).value == m as real * e;
  }

  lemma SameProduct(c: real, d: real, e: real)
    requires c == d
    ensures c * e == d * e
  {
  }

  // ---------------------------------------------------------------------
  // format_seconds_uncertainty

  /** With no uncertainty the result is that of `format_seconds`, whether or
      not the uncertainty is printed. */
  lemma ZeroUncertaintyAgrees(n: real, p: bool, f: Formatted, r: Result<Shown>)
    requires SecondsFormatted(n, f)
    requires UncertainFormatted(n, 0.0, p, r)
    ensures r == Ok(Plain(f))
  {
    var a := Abs(n);
    assert RoundUp(a, 0.0) == Ok(a);
    if a >= 1.0 {
      var g := r.value.shown;
      var k := g.unit;
      assert AboveSecond(n < 0.0, a, a, 0.0, p, g);
      ClimbLadderUnique(a, f.number, f.unit, a / SecondScale(k), k);
      assert 0.0 / SecondScale(k) == 0.0;
      ShowClimbExact(n < 0.0, f.number, p, k);
    } else if a > 0.0 {
      UnfoldBelow(n, 0.0, p, r);
      var g := r.value.shown;
      var k := g.unit;
      BelowSecondLadder(n < 0.0, a, 0.0, p, k, g);
      DescendLadderUnique(a, f.number, f.unit, a * PER_SECOND[k], k);
      assert 0.0 * PER_SECOND[k] == 0.0;
      ShowDescendExact(n < 0.0, f.number, p, k);
    }
  }

  /** The sub-second case of UncertainFormatted, with its unit named. */
  lemma UnfoldBelow(n: real, u: real, p: bool, r: Result<Shown>)
    requires UncertainFormatted(n, u, p, r)
    requires Abs(n) > 0.0 && u >= 0.0
    requires (if p then RoundUp(Abs(n), u).value else Abs(n)) < 1.0
    ensures r.Ok? && r.value.Plain?
    ensures BelowSecondAt(n < 0.0, Abs(n), u, p, r.value.shown.unit, r.value.shown)
  {
  }

  lemma BelowSecondLadder(negative: bool, a: real, u: real, p: bool, k: nat, f: Formatted)
    requires BelowSecondAt(negative, a, u, p, k, f)
    ensures DescendLadder(a, a * PER_SECOND[k], k)
    ensures f == ShowDescend(negative, a * PER_SECOND[k], u * PER_SECOND[k], p, k)
  {
  }

  /** Without uncertainty the `>= 1` second lines of
      `format_seconds_uncertainty` show what `format_seconds` shows. */
  lemma ShowClimbExact(negative: bool, v: real, p: bool, unit: nat)
    requires unit < |SECOND_UNITS|
    ensures ShowClimb(negative, v, 0.0, p, unit) ==
      Formatted(negative, v, unit, Named(SECOND_UNITS, unit, v), PlainRender(v), NoSuffix)
  {
    assert RoundUp(v, 0.0 / 10.0) == Ok(v);
  }

  /** Without uncertainty the sub-second lines of
      `format_seconds_uncertainty` show what `format_seconds` shows. */
  lemma ShowDescendExact(negative: bool, v: real, p: bool, unit: nat)
    requires unit < |SUB_SECOND_UNITS| && v > 0.0
    ensures ShowDescend(negative, v, 0.0, p, unit) ==
      Formatted(negative, v, unit, Named(SUB_SECOND_UNITS, unit, v), SubSecondRender(v), NoSuffix)
  {
    assert RoundUp(v, 0.0) == Ok(v);
  }

  /** The result of `format_seconds_uncertainty` is determined by its inputs. */
  lemma UncertainFormattedUnique(n: real, u: real, p: bool, r: Result<Shown>, q: Result<Shown>)
    requires UncertainFormatted(n, u, p, r) && UncertainFormatted(n, u, p, q)
    ensures r == q
  {
    var a := Abs(n);
    if p && u < 0.0 {
    } else if a == 0.0 {
      if u > 0.0 && p {
        SecondsFormattedUnique(u, r.value.spread, q.value.spread);
      }
    } else if u >= 0.0 {
      var t := if p then RoundUp(a, u).value else a;
      if t >= 1.0 {
        UnfoldAbove(n, u, p, r);
        UnfoldAbove(n, u, p, q);
        var f, g := r.value.shown, q.value.shown;
        ClimbLadderUnique(t, t / SecondScale(f.unit), f.unit, t / SecondScale(g.unit), g.unit);
      } else {
        UnfoldBelow(n, u, p, r);
        UnfoldBelow(n, u, p, q);
        BelowSecondUnique(n < 0.0, a, u, p, r.value.shown, q.value.shown);
      }
    }
  }

  /** The `>= 1` second case of UncertainFormatted. */
  lemma UnfoldAbove(n: real, u: real, p: bool, r: Result<Shown>)
    requires UncertainFormatted(n, u, p, r)
    requires Abs(n) > 0.0 && u >= 0.0
    requires (if p then RoundUp(Abs(n), u).value else Abs(n)) >= 1.0
    ensures r.Ok? && r.value.Plain?
    ensures AboveSecond(n < 0.0, Abs(n), if p then RoundUp(Abs(n), u).value else Abs(n), u, p, r.value.shown)
  {
  }

  lemma BelowSecondUnique(negative: bool, a: real, u: real, p: bool, f: Formatted, g: Formatted)
    requires a > 0.0
    requires BelowSecondAt(negative, a, u, p, f.unit, f)
    requires BelowSecondAt(negative, a, u, p, g.unit, g)
    ensures f == g
  {
    BelowSecondSameUnit(negative, a, u, p, f, g);
  }

  lemma BelowSecondSameUnit(negative: bool, a: real, u: real, p: bool, f: Formatted, g: Formatted)
    requires a > 0.0
    requires BelowSecondAt(negative, a, u, p, f.unit, f)
    requires BelowSecondAt(negative, a, u, p, g.unit, g)
    ensures f.unit == g.unit
  {
    BelowSecondLadder(negative, a, u, p, f.unit, f);
    BelowSecondLadder(negative, a, u, p, g.unit, g);
    DescendLadderUnique(a, a * PER_SECOND[f.unit], f.unit, a * PER_SECOND[g.unit], g.unit);
  }

  /** A shown value carries the `-` exactly when the input is negative;
      `0±` only ever follows a zero input. */
  lemma UncertainSign(n: real, u: real, p: bool, r: Result<Shown>)
    requires UncertainFormatted(n, u, p, r) && r.Ok?
    ensures r.value.Plain? ==> r.value.shown.negative == (n < 0.0)
    ensures r.value.ZeroPlusMinus? ==> n == 0.0 && u > 0.0 && p
  {
  }
  /** Negating a non-zero duration flips the sign of a single magnitude and
      changes nothing else; a failure stays the same failure. */
  lemma UncertainSignSymmetric(n: real, u: real, p: bool, r: Result<Shown>, q: Result<Shown>)
    requires n != 0.0
    requires UncertainFormatted(n, u, p, r) && UncertainFormatted(-n, u, p, q)
    ensures r.Err? ==> q == r
    ensures r.Ok? ==>
      r.value.Plain? && q == Ok(Plain(r.value.shown.(negative := !r.value.shown.negative)))
  {
    assert Abs(-n) == Abs(n);
    if r.Ok? {
      FlipPlain(n, u, p, r);
      var f := r.value.shown;
      UncertainFormattedUnique(-n, u, p, q, Ok(Plain(f.(negative := !f.negative))));
    }
  }

  /** A single magnitude for `n` gives, flipped, one for `-n`. */
  lemma FlipPlain(n: real, u: real, p: bool, r: Result<Shown>)
    requires n != 0.0 && UncertainFormatted(n, u, p, r) && r.Ok?
    ensures r.value.Plain?
    ensures UncertainFormatted(-n, u, p, Ok(Plain(r.value.shown.(negative := !r.value.shown.negative))))
  {
    var a := Abs(n);
    assert Abs(-n) == a;
    var t := if p then RoundUp(a, u).value else a;
    var f := r.value.shown;
    var g := f.(negative := !(n < 0.0));
    if t >= 1.0 {
      UnfoldAbove(n, u, p, r);
      AboveSecondFlip(n < 0.0, a, t, u, p, f);
      FoldAbove(-n, u, p, g);
    } else {
      UnfoldBelow(n, u, p, r);
      BelowSecondFlip(n < 0.0, a, u, p, f.unit, f, g);
      FoldBelow(-n, u, p, g);
    }
  }

  /** The `>= 1` second lines depend on the sign only through the sign. */
  lemma AboveSecondFlip(negative: bool, a: real, t: real, u: real, p: bool, f: Formatted)
    requires u >= 0.0 && AboveSecond(negative, a, t, u, p, f)
    ensures f.negative == negative
    ensures AboveSecond(!negative, a, t, u, p, f.(negative := !negative))
  {
    var k := f.unit;
    var g := ShowClimb(!negative, a / SecondScale(k), u / SecondScale(k), p, k);
    assert g == f.(negative := !negative);
  }

  /** The sub-second lines depend on the sign only through the sign. */
  lemma BelowSecondFlip(negative: bool, a: real, u: real, p: bool, k: nat, f: Formatted, g: Formatted)
    requires BelowSecondAt(negative, a, u, p, k, f)
    requires g == f.(negative := !negative)
    ensures f.negative == negative
    ensures BelowSecondAt(!negative, a, u, p, k, g)
  {
    BelowSecondLadder(negative, a, u, p, k, f);
    var v, w := a * PER_SECOND[k], u * PER_SECOND[k];
    ShowDescendSign(negative, v, w, p, k);
  }

  lemma ShowDescendSign(negative: bool, v: real, w: real, p: bool, k: nat)
    requires k < |SUB_SECOND_UNITS| && w >= 0.0 && v > 0.0
    ensures ShowDescend(!negative, v, w, p, k) == ShowDescend(negative, v, w, p, k).(negative := !negative)
  {
  }

  lemma FoldAbove(n: real, u: real, p: bool, f: Formatted)
    requires Abs(n) > 0.0 && u >= 0.0
    requires (if p then RoundUp(Abs(n), u).value else Abs(n)) >= 1.0
    requires AboveSecond(n < 0.0, Abs(n), if p then RoundUp(Abs(n), u).value else Abs(n), u, p, f)
    ensures UncertainFormatted(n, u, p, Ok(Plain(f)))
  {
  }

  lemma FoldBelow(n: real, u: real, p: bool, f: Formatted)
    requires Abs(n) > 0.0 && u >= 0.0
    requires (if p then RoundUp(Abs(n), u).value else Abs(n)) < 1.0
    requires BelowSecondAt(n < 0.0, Abs(n), u, p, f.unit, f)
    ensures UncertainFormatted(n, u, p, Ok(Plain(f)))
  {
  }
}
