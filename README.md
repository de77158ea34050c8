# strfmt in Dafny

A model of the two formatters of the strfmt repository. Both turn a byte
count or a number of seconds into a human-readable magnitude by climbing (or
descending) a ladder of units:

- `string_formatting.py`: `format_bytes`, `format_seconds` and
  `format_seconds_uncertainty`, with its nested helpers `_round` (round up to
  the leading digit of the uncertainty) and `_format` (the `±u` suffix);
- `srtfmt.py`: the older `format_bytes` and `format_seconds`, with other
  thresholds, no sign, and two failure paths.

The string a formatter returns is modelled as a `Formatted` value. It holds
the sign, the scaled number, the unit index and its (singular or plural)
name, how the number is rendered (no decimals, two decimals, or
`1 - floor(log10 v)` decimals), and the optional `±u` suffix. Magnitudes are
exact `real`s. `floor(log10 x)` is the integer `k` with `10^k <= x < 10^(k+1)`
(`Ladder.Floor10`). A raised exception is an `Err` result
(`AssertionFailed`, `IndexOutOfRange`, `NameNotDefined`).

The source updates its variables in loops, so each formatter is a `method`
with a `while` loop. Its postcondition is a ghost predicate over the input:
where the ladder stops, the scaled number in that unit, the name and the
rendering. `_round` and `_format` are pure expressions, so they are
functions. The lemmas in `StringFormattingProperties` and in `Srtfmt` show
that the predicates determine their result: each ladder is monotone in the
input, so only one unit satisfies the stop conditions. Sign symmetry, the
unit boundaries, rounding and the agreement between
`format_seconds_uncertainty(n, 0, p)` and `format_seconds(n)` follow from
that.

Modules: `Ladder` (shared datatypes, exact-real helpers, powers and the
decimal exponent), `StringFormatting` (the current formatters),
`StringFormattingProperties` (lemmas relating several calls), and `Srtfmt`
(the older formatters, with a corrected `format_seconds`).

## Model

| member | source | states |
|---|---|---|
| Ladder.Abs | string_formatting.py:45-49 | `abs` on a duration: not negative, and equal to the input or its negation |
| Ladder.AbsInt | string_formatting.py:12-16 | `abs` on a byte count: a natural number equal to the input or its negation |
| Ladder.IsWhole | string_formatting.py:30 | the `% 1` test: the value has no fractional part (related to `% 1` by `Mod1`) |
| Ladder.Mod1 | string_formatting.py:30 | `x % 1` with Python's `%`: a remainder in `[0, 1)` whose removal leaves a whole number, and zero exactly when the value is whole |
| Ladder.Singular | string_formatting.py:66 | `name[:-1]`: the name is the result followed by its dropped last letter |
| Ladder.ByteUnitsTable | string_formatting.py:27 | the byte names (shared with srtfmt.py:16): `Bytes`, then eight three-letter `?iB` names up to `YiB`, nine in all, so unit indices up to 8 are valid |
| Ladder.Pow10 | string_formatting.py:131 | `10 ** k` for any integer `k` is positive |
| Ladder.Pow10Step | string_formatting.py:131 | `10 ** (k + 1)` is ten times `10 ** k`, for negative `k` too |
| Ladder.Pow10Grows | string_formatting.py:131 | `10 ** k` is strictly increasing in `k` |
| Ladder.Ceil | string_formatting.py:132 | `math.ceil`: the result is the integer `c` with `x <= c < x + 1` |
| Ladder.PlainRender | string_formatting.py:29-33 | "exact or float": no decimals exactly when the value has no fractional part, two decimals otherwise |
| Ladder.Named | string_formatting.py:64-66 | the unit name loses its last letter exactly when the value is 1, and is the plural otherwise |
| Ladder.Floor10 | string_formatting.py:91 | `floor(log10 x)` for `x > 0`: `10^k <= x < 10^(k+1)` |
| Ladder.Floor10Unique | string_formatting.py:91 | any integer `k` with `10^k <= x < 10^(k+1)` is `floor(log10 x)` |
| Ladder.Place | string_formatting.py:131 | `10 ** floor(log10 u)`: a positive place value `e` with `e <= u < 10e` |
| Ladder.PlaceIsPow10 | string_formatting.py:131 | that place value is ten to the power `floor(log10 u)` |
| Ladder.SignificantDecimals | string_formatting.py:91 | the decimal count `d = 1 - floor(log10 v)` for `v > 0` shows exactly two significant digits: `v` lies between 10 and 100 units of its last printed decimal `10^-d` |
| Ladder.SignificantDecimalsUnique | string_formatting.py:91 | no other decimal count does so: any `d` with `10 * 10^-d <= v < 100 * 10^-d` is `1 - floor(log10 v)` |
| StringFormatting.SecondScales | string_formatting.py:58 | the divisors make a week 604800 seconds, a month a twelfth of 365.25 days (2629800 seconds) and a year 365.25 days (31557600 seconds) |
| StringFormatting.SecondUnitNames | string_formatting.py:62-66 | there is one name per rung of the climbing ladder, one more than divisors, and each is a plural whose singular drops its final `s` (`minute`, `year`) |
| StringFormatting.SubSecondUnitNames | string_formatting.py:77-84 | one name per rung below a second, each a plural whose singular drops its final `s`, each rung 1000 times finer than the one before |
| StringFormatting.FormatBytes | string_formatting.py:4-33 | the sign is `-` exactly for negative input; ±1 is `1 Byte`; otherwise the ladder stops at unit `k <= 8` with number `abs(n) / 1024^k`, at most 999 below YiB, each division taken from a value above 999; the name is `BYTE_UNITS[k]` and the rendering is whole-or-two-decimals |
| StringFormatting.FormatSeconds | string_formatting.py:36-94 | sign as above; 0 is `0 seconds`; from one second the ladder climbs to unit `k <= 6` with number `abs(n) / scale(k)`, above 0.9 once promoted, and at most 0.9 of its own divisor below years; below one second it descends at most three times by 1000, at least 0.9 below nanoseconds and under 900 once multiplied; the name is singular exactly at 1 |
| StringFormatting.Climb | string_formatting.py:56-62 | the loop for one second or more stops where `ClimbLadder` holds |
| StringFormatting.Descend | string_formatting.py:75-80 | the loop below one second stops where `DescendLadder` holds |
| StringFormatting.SubSecondRender | string_formatting.py:86-94 | a sub-second number is whole-rendered exactly when whole, two decimals exactly when fractional and above 1, and otherwise `1 - floor(log10 v)` decimals for a value at most 1 |
| StringFormatting.RoundUp | string_formatting.py:125-132 | `_round` fails (assertion) exactly for `u < 0`; it is the identity for `u == 0`; otherwise the result is a whole multiple of the place value `e` of `u`, at least `x` and less than `x + e` |
| StringFormatting.FormatUncertainty | string_formatting.py:109-123 | `_format` fails exactly for `u < 0`; there is no suffix exactly when printing is off or `u` is below the minimum; otherwise `±u` is whole-rendered exactly when `u` is whole, two decimals exactly when fractional and at least 1, and `1 - floor(log10 u)` decimals below 1 |
| StringFormatting.ShowClimb | string_formatting.py:163-173 | the shown number is `_round(v, w / 10)` in the given unit and sign; when that number is 1 and the uncertainty is below 0.1 or not printed, the name is the singular and there is no suffix; otherwise the name is the plural and the suffix is `_format(w, 0.1)` for a whole number and `_format(w, 0.01)` for a fractional one; the rendering is no decimals when whole and two decimals otherwise |
| StringFormatting.ShowDescend | string_formatting.py:184-198 | the shown number is `_round(v, w)`, never below `v`; the name is the singular exactly when it is 1; the rendering is that of `format_seconds` below a second (none when whole, two decimals above 1, `1 - floor(log10 x)` decimals otherwise); the suffix is `_format(w, 0.1)` for a whole number, `_format(w, 0.01)` for a fractional one above 1, and `_format(w)` with its default minimum otherwise |
| StringFormatting.FormatSecondsUncertainty | string_formatting.py:134-198 | the result meets `UncertainFormatted`: with printing on, a negative uncertainty fails; a zero value gives `0±format_seconds(u)` for `u > 0` with printing on, and `0 seconds` otherwise; at or above one second of the rounded copy, the ladder climbs on that copy and value and uncertainty are shown in its unit; below it, the ladder descends on the value itself. The call fails exactly when `u < 0` and either printing is on or the value is non-zero |
| StringFormatting.AboveSecondBranch | string_formatting.py:154-173 | the single loop divides value, rounded copy and uncertainty by the same divisors, so all three equal their inputs over the scale of the unit where the rounded copy stops |
| StringFormatting.BelowSecondBranch | string_formatting.py:176-198 | the loop multiplies all three by 1000 and stops on the value itself, not on the rounded copy |
| StringFormattingProperties.ByteLadderMonotone | string_formatting.py:23-27 | a larger byte count never stops at a lower unit |
| StringFormattingProperties.ByteLadderUnique | string_formatting.py:23-27 | the byte ladder has exactly one stopping unit and number for each count |
| StringFormattingProperties.ClimbLadderMonotone | string_formatting.py:55-62 | more seconds never stop at a lower unit |
| StringFormattingProperties.ClimbLadderUnique | string_formatting.py:55-62 | the climbing ladder has exactly one stopping unit and number |
| StringFormattingProperties.DescendLadderAntitone | string_formatting.py:75-80 | a smaller fraction of a second never stops at a coarser unit |
| StringFormattingProperties.DescendLadderUnique | string_formatting.py:75-80 | the descending ladder has exactly one stopping unit and number |
| StringFormattingProperties.BytesFormattedUnique | string_formatting.py:4-33 | `format_bytes` is a function of its input: two results for one input are equal |
| StringFormattingProperties.SecondsFormattedUnique | string_formatting.py:36-94 | `format_seconds` is a function of its input |
| StringFormattingProperties.BytesSignSymmetric | string_formatting.py:11-16 | for a non-zero count, `format_bytes(-n)` is `format_bytes(n)` with the sign flipped and nothing else changed |
| StringFormattingProperties.SecondsSignSymmetric | string_formatting.py:44-49 | for a non-zero duration, `format_seconds(-n)` is `format_seconds(n)` with the sign flipped |
| StringFormattingProperties.KibibytesFromAThousand | string_formatting.py:24-33 | counts of 1000 to 1023 are shown as `abs(n) / 1024` KiB with two decimals |
| StringFormattingProperties.YobibytesAtTheTop | string_formatting.py:24-27 | YiB is reached exactly when `abs(n) / 1024^7 > 999`, and is the top unit |
| StringFormattingProperties.OneKibibyte | string_formatting.py:24-33 | 1024 is `1 KiB` |
| StringFormattingProperties.YearsAtTheTop | string_formatting.py:56-62 | years are reached exactly when the value in months exceeds `0.9 * 12`, and are the top unit |
| StringFormattingProperties.SecondsBelowOne | string_formatting.py:75-80 | a fraction of a second stays in seconds exactly when it is at least 0.9 |
| StringFormattingProperties.FiftyFiveSeconds | string_formatting.py:56-70 | 55 seconds are `55/60` minutes with two decimals |
| StringFormattingProperties.OneMinute | string_formatting.py:56-66 | 60 seconds are `1 minute` |
| StringFormattingProperties.HalfSecond | string_formatting.py:75-94 | half a second is `500 milliseconds` |
| StringFormattingProperties.RoundUpLeast | string_formatting.py:131-132 | `_round` gives the least such multiple: no whole multiple of the place value that is at least `x` lies below it |
| StringFormattingProperties.RoundUpIdempotent | string_formatting.py:125-132 | rounding a rounded value again with the same uncertainty changes nothing |
| StringFormattingProperties.RoundUpOfMultiple | string_formatting.py:131-132 | a value that is already a whole multiple of the place value is returned unchanged |
| StringFormattingProperties.ZeroUncertaintyAgrees | string_formatting.py:134-198 | with zero uncertainty, `format_seconds_uncertainty(n, 0, p)` is `format_seconds(n)` for either `p` |
| StringFormattingProperties.ShowClimbExact | string_formatting.py:163-173 | with zero uncertainty the `>= 1` branch shows the plain `format_seconds` number, name and rendering |
| StringFormattingProperties.ShowDescendExact | string_formatting.py:184-198 | with zero uncertainty the sub-second branch shows the plain `format_seconds` number, name and rendering |
| StringFormattingProperties.UncertainFormattedUnique | string_formatting.py:134-198 | `format_seconds_uncertainty` is a function of its three inputs |
| StringFormattingProperties.BelowSecondUnique | string_formatting.py:176-198 | the sub-second branch has exactly one result for given inputs |
| StringFormattingProperties.UncertainSignSymmetric | string_formatting.py:134-139 | for a non-zero duration, `format_seconds_uncertainty(-n, u, p)` fails exactly as `(n, u, p)` does, and otherwise is its single magnitude with only the sign flipped |
| StringFormattingProperties.UncertainSign | string_formatting.py:134-151 | a single magnitude carries `-` exactly for negative input; the `0±` form occurs only for zero input with a positive, printed uncertainty |
| Srtfmt.UnitTables | srtfmt.py:35-40 | five names for four divisors, the scale of the last name (`weeks`) is one week (604800 seconds), and each name is a plural whose singular drops its final `s` |
| Srtfmt.FormatBytes | srtfmt.py:1-17 | no sign; 0 is `0 Bytes` and ±1 is `1 Byte`; otherwise the ladder stops at unit `k <= 8` with number `abs(n) / 1024^k`, below 1024 unless YiB and at least 1 once divided; whole or two decimals |
| Srtfmt.ByteLadderMonotone | srtfmt.py:12-15 | a larger count never stops at a lower unit |
| Srtfmt.ByteLadderUnique | srtfmt.py:12-15 | exactly one stopping unit and number per count |
| Srtfmt.BytesIgnoresSign | srtfmt.py:7 | `format_bytes(-n)` equals `format_bytes(n)` |
| Srtfmt.FormatSeconds | srtfmt.py:20-40 | no sign; 0 and 1 are special; a fraction of a second fails with an undefined name; a week or more fails with an index out of range; otherwise the ladder stops below weeks with number `abs(n) / scale(k)`, below its divisor, at least 1 once divided, singular exactly at 1 |
| Srtfmt.SecondLadderMonotone | srtfmt.py:34-38 | more seconds never stop at a lower unit |
| Srtfmt.SecondLadderUnique | srtfmt.py:34-38 | exactly one stopping unit and number per duration |
| Srtfmt.SecondsIgnoresSign | srtfmt.py:26 | `format_seconds(-n)` and `format_seconds(n)` give the same result, failures included |
| Srtfmt.OneWeekFails | srtfmt.py:35-36 | one week fails with an index out of range |
| Srtfmt.HalfSecondFails | srtfmt.py:31-33 | half a second fails with an undefined name |
| Srtfmt.FormatSecondsIntended | srtfmt.py:20-40 | the corrected function never fails: a fraction of a second gets `1 - floor(log10 v)` decimals in seconds, and weeks are reachable |
| Srtfmt.IntendedAgrees | srtfmt.py:20-40 | wherever the code as written succeeds, the corrected function gives the same result |
| Srtfmt.OneWeekIntended | srtfmt.py:35-39 | corrected, one week is `1 week` |
| Srtfmt.HalfSecondIntended | srtfmt.py:31-33 | corrected, half a second is shown in seconds with two decimals (two significant figures) |
| Srtfmt.WeeksFromOneWeek | srtfmt.py:35-39 | corrected, weeks are shown exactly from one week on |

## Left out

- Character-level printing is not modelled. That covers `,.2f` / `%.2f` rounding, thousands separators, `%d` and the `{N:,.{d}f}` templates. The model returns the number with its render kind and decimal count instead.
- Magnitudes are exact reals, not IEEE doubles. Float artefacts are not reproduced: a value that compares unequal to 1 after repeated division, float `%`, and `math.ceil` on inexact quotients.
- `math.log10` is replaced by the integer exponent `Ladder.Floor10`; the float library function is not modelled.
- Python exceptions are `Err` results: `AssertionFailed` for the `assert` in `_round` and `_format`, `IndexOutOfRange` and `NameNotDefined` for the two `srtfmt.py` failures.
- Default arguments are not modelled. Callers of `FormatSecondsUncertainty` pass all three arguments, and `FormatUncertainty` takes its minimum explicitly (`SPREAD_MINIMUM` is the default `0.000001`).
- Byte counts are `int`, and seconds and uncertainties are `real`. The distinction between Python `int` and `float` inputs is not modelled.
- StringFormatting.FormatSecondsUncertainty: with printing on, `_round` runs (string_formatting.py:142) before the zero check (string_formatting.py:147), so a negative uncertainty fails even for a zero value. With a negative uncertainty, a zero value gives `0 seconds` only when printing is off. The model follows the code in this.
- Overflow is not modelled. Python raises `OverflowError` when an integer beyond the float range (about 1.8e308) is divided by a float or converted to one. For such inputs the model returns instead:
  - a `YiB` result at string_formatting.py:25 and srtfmt.py:14;
  - a `years` result at string_formatting.py:60, 132 and 158;
  - `Err(IndexOutOfRange)` at srtfmt.py:37, since such a duration is more than a week.

## Findings

| source | as written | input that shows it | evidently intended | confidence | as-written member | corrected member |
|---|---|---|---|---|---|---|
| srtfmt.py:36 | the loop condition reads `denominators[unit]` before testing `unit < 4` | 604800 seconds (one week) raises an index error | test the bound first, giving `1 week` | not executed | Srtfmt.OneWeekFails | Srtfmt.OneWeekIntended |
| srtfmt.py:33 | the sub-second branch calls `math.floor` and `math.log10`, but the file never imports `math` | 0.5 seconds raises a name error | `0.50 seconds` (two significant figures) | not executed | Srtfmt.HalfSecondFails | Srtfmt.HalfSecondIntended |
