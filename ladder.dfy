/**
 * Pieces shared by every unit-ladder formatter: the structured result that
 * stands for the formatted string, exact-real helpers (absolute value,
 * "`% 1` is zero", ceiling), the scale of a ladder step, and the decimal
 * exponent `floor(log10 x)` defined on integers rather than floats.
 */
module Ladder {

  /** Why a formatter call raises instead of returning a string. */
  datatype Error =
    | AssertionFailed   // an `assert` in the formatter does not hold
    | IndexOutOfRange   // a table is indexed past its end
    | NameNotDefined    // the code uses a module it never imported

  datatype Result<T> = Ok(value: T) | Err(error: Error)

  /** How the number is printed: without decimals, with exactly two, or with
      the given count of decimals (two significant figures of a small value). */
  datatype Render =
    | Whole
    | TwoDecimals
    | Significant(decimals: int)

  /** The optional `±u` part printed right after the number. */
  datatype Suffix = NoSuffix | PlusMinus(spread: real, render: Render)

  /** A formatted magnitude: `-` when `negative`, then `number` printed as
      `render`, then `suffix`, a space and `name`, the name of ladder step `unit`. */
  datatype Formatted = Formatted(
    negative: bool,
    number: real,
    unit: nat,
    name: string,
    render: Render,
    suffix: Suffix)

  /** The byte units of both `format_bytes` variants, 1024 apart. */
  const BYTE_UNITS: seq<string> :=
    ["Bytes", "KiB", "MiB", "GiB", "TiB", "PiB", "EiB", "ZiB", "YiB"]

  function Abs(x: real): (r: real)
    ensures r >= 0.0 && (r == x || r == -x)
  {
    if x < 0.0 then -x else x
  }

  function AbsInt(n: int): (r: nat)
    ensures r == n || r == -n
  {
    if n < 0 then -n else n
  }

  /** The byte unit table: nine names, plain `Bytes` first, then eight
      three-letter names ending in `iB`, up to `YiB`. */
  lemma ByteUnitsTable()
    ensures |BYTE_UNITS| == 9 && BYTE_UNITS[0] == "Bytes" && BYTE_UNITS[8] == "YiB"
    ensures forall i :: 1 <= i < |BYTE_UNITS| ==> |BYTE_UNITS[i]| == 3 && BYTE_UNITS[i][1..] == "iB"
  {
  }

  /** `x % 1 == 0` in the source: the value has no fractional part. */
  predicate IsWhole(x: real)
  {
    x.Floor as real == x
  }

  /** `x % 1` with Python's `%`: the fractional part, never negative, and
      what is left after removing it is whole. */
  function Mod1(x: real): (r: real)
    ensures 0.0 <= r < 1.0
    ensures IsWhole(x - r)
    ensures r == 0.0 <==> IsWhole(x)
  {
    x - x.Floor as real
  }

  /** `math.ceil`: the least integer not below `x`. */
  function Ceil(x: real): (c: int)
    ensures x <= c as real < x + 1.0
  {
    -((-x).Floor)
  }

  /** A whole number is its own ceiling. */
  lemma CeilWhole(q: real)
    requires IsWhole(q)
    ensures Ceil(q) as real == q
  {
    var k := q.Floor;
    assert -q == (-k) as real;
    assert ((-k) as real).Floor == -k;
  }

  /** `name[:-1]`: the plural unit name without its trailing letter. */
  function Singular(name: string): (s: string)
    requires |name| > 0
    ensures s + [name[|name| - 1]] == name
  {
    name[..|name| - 1]
  }

  /** The unit name for a scaled value: singular exactly when it equals 1. */
  function Named(names: seq<string>, unit: nat, v: real): (s: string)
    requires unit < |names| && |names[unit]| > 0
    ensures v == 1.0 ==> s + [names[unit][|names[unit]| - 1]] == names[unit]
    ensures v != 1.0 ==> s == names[unit]
  {
    if v == 1.0 then Singular(names[unit]) else names[unit]
  }

  /** "exact or float": no decimals for a whole value, two otherwise. */
  function PlainRender(v: real): (r: Render)
    ensures r == Whole <==> IsWhole(v)
    ensures r != Whole ==> r == TwoDecimals
  {
    if IsWhole(v) then Whole else TwoDecimals
  }

  /** `b` to the power `k`. */
  function Power(b: real, k: nat): (r: real)
    ensures b >= 1.0 ==> r >= 1.0
  {
    if k == 0 then 1.0 else Power(b, k - 1) * b
  }

  /** The product of the first `k` divisors of a ladder: how many base units
      make one unit of step `k`. */
  function Scale(ds: seq<real>, k: nat): (r: real)
    requires k <= |ds|
    requires forall i :: 0 <= i < |ds| ==> ds[i] >= 1.0
    ensures r >= 1.0
  {
    if k == 0 then 1.0 else Scale(ds, k - 1) * ds[k - 1]
  }

  lemma {:induction false} PowerGrows(b: real, j: nat, k: nat)
    requires b >= 1.0
    requires j <= k
    ensures Power(b, j) <= Power(b, k)
  {
    if j < k {
      PowerGrows(b, j, k - 1);
      MulMonotone(1.0, b, Power(b, k - 1));
    }
  }

  lemma {:induction false} ScaleGrows(ds: seq<real>, j: nat, k: nat)
    requires forall i :: 0 <= i < |ds| ==> ds[i] >= 1.0
    requires j <= k <= |ds|
    ensures Scale(ds, j) <= Scale(ds, k)
  {
    if j < k {
      ScaleGrows(ds, j, k - 1);
      MulMonotone(1.0, ds[k - 1], Scale(ds, k - 1));
    }
  }

  /** Ten to the (possibly negative) power `k`. */
  function Pow10(k: int): (r: real)
    ensures r > 0.0
    decreases if k < 0 then -k else k
  {
    if k == 0 then 1.0
    else if k > 0 then 10.0 * Pow10(k - 1)
    else Pow10(k + 1) / 10.0
  }

  lemma Pow10Step(k: int)
    ensures Pow10(k + 1) == 10.0 * Pow10(k)
  {
  }

  lemma {:induction false} Pow10Grows(j: int, k: int)
    requires j < k
    ensures Pow10(j) < Pow10(k)
    decreases k - j
  {
    Pow10Step(k - 1);
    if j < k - 1 {
      Pow10Grows(j, k - 1);
    }
  }

  /** `floor(log10 x)`: the integer `k` with `10^k <= x < 10^(k+1)`. */
  function Floor10(x: real): (k: int)
    requires x > 0.0
    ensures Pow10(k) <= x < Pow10(k + 1)
    decreases x < 1.0, if x < 1.0 then (1.0 / x).Floor else x.Floor
  {
    if x < 1.0 then
      assert 1.0 / (x * 10.0) == (1.0 / x) / 10.0;
      var k := Floor10(x * 10.0);
      Pow10Step(k - 1);
      k - 1
    else if x < 10.0 then
      0
    else
      var k := Floor10(x / 10.0);
      Pow10Step(k);
      k + 1
  }

  /** The exponent is unique: any `k` that brackets `x` is `Floor10(x)`. */
  lemma Floor10Unique(x: real, k: int)
    requires x > 0.0
    requires Pow10(k) <= x < Pow10(k + 1)
    ensures Floor10(x) == k
  {
    var j := Floor10(x);
    if j < k {
      if j + 1 < k { Pow10Grows(j + 1, k); }
    } else if k < j {
      if k + 1 < j { Pow10Grows(k + 1, j); }
    }
  }

  /** `10 ** floor(log10 x)`: the place value of the leading digit of `x`. */
  function Place(x: real): (e: real)
    requires x > 0.0
    ensures 0.0 < e <= x < 10.0 * e
    decreases x < 1.0, if x < 1.0 then (1.0 / x).Floor else x.Floor
  {
    if x < 1.0 then
      assert 1.0 / (x * 10.0) == (1.0 / x) / 10.0;
      Place(x * 10.0) / 10.0
    else if x < 10.0 then
      1.0
    else
      Place(x / 10.0) * 10.0
  }

  /** The place value is ten to the exponent `Floor10(x)`. */
  lemma {:induction false} PlaceIsPow10(x: real)
    requires x > 0.0
    ensures Place(x) == Pow10(Floor10(x))
    decreases x < 1.0, if x < 1.0 then (1.0 / x).Floor else x.Floor
  {
    if x < 1.0 {
      assert 1.0 / (x * 10.0) == (1.0 / x) / 10.0;
      PlaceIsPow10(x * 10.0);
      Pow10Step(Floor10(x * 10.0) - 1);
    } else if x >= 10.0 {
      PlaceIsPow10(x / 10.0);
      Pow10Step(Floor10(x / 10.0));
    }
  }

  /** The decimal count `1 - floor(log10 v)` used for small values. With `d`
      decimals exactly two significant digits of `v` are shown: `v` lies
      between 10 and 100 times the place value `10^-d` of the last decimal
      printed. */
  function SignificantDecimals(v: real): (d: int)
    requires v > 0.0
    ensures 10.0 * Pow10(-d) <= v < 100.0 * Pow10(-d)
  {
    var k := Floor10(v);
    Pow10Step(k - 1);
    Pow10Step(k);
    1 - k
  }

  /** No other decimal count shows exactly two significant digits. */
  lemma SignificantDecimalsUnique(v: real, d: int)
    requires v > 0.0
    requires 10.0 * Pow10(-d) <= v < 100.0 * Pow10(-d)
    ensures d == SignificantDecimals(v)
  {
    Pow10Step(-d);
    Pow10Step(1 - d);
    Floor10Unique(v, 1 - d);
  }

  // Small facts of real arithmetic, stated on plain variables so that the
  // solver meets each one without unrelated products around it.

  lemma DivStep(a: real, s: real, d: real)
    requires s > 0.0 && d > 0.0
    ensures (a / s) / d == a / (s * d)
  {
  }

  lemma MulStep(a: real, p: real, d: real)
    ensures (a * p) * d == a * (p * d)
  {
  }

  lemma DivBounds(a: real, s: real, c: real)
    requires s > 0.0
    ensures a / s <= c <==> a <= c * s
    ensures a / s < c <==> a < c * s
  {
    assert (a / s) * s == a;
  }

  lemma MulMonotone(x: real, y: real, p: real)
    requires x <= y && p >= 0.0
    ensures x * p <= y * p
  {
  }

  lemma MulSub(c: real, e: real)
    ensures (c - 1.0) * e == c * e - e
  {
  }

  lemma MulDiv(c: real, e: real)
    requires e > 0.0
    ensures (c * e) / e == c
  {
  }

  lemma MulSign(a: real, p: real)
    requires p > 0.0
    ensures a > 0.0 <==> a * p > 0.0
    ensures a < 0.0 <==> a * p < 0.0
  {
  }

  lemma DivMonotone(a: real, b: real, s: real)
    requires a <= b && s > 0.0
    ensures a / s <= b / s
  {
    DivBounds(a, s, b / s);
    assert (b / s) * s == b;
  }

  lemma DivAntitone(a: real, s: real, t: real)
    requires a >= 0.0 && 0.0 < s <= t
    ensures a / t <= a / s
  {
    DivBounds(a, t, a / s);
    assert (a / s) * s == a;
    MulMonotone(s, t, a / s);
  }
}
