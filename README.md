# simpletimer: unit resolution of `toc`

This project models how the stopwatch's stop operation `toc` picks the unit
it reports in and how it scales the elapsed time. The model has three parts:

- the two constant tables (module `Tables`): `time_scales` maps each unit
  label to the factor that turns seconds into that unit, and
  `auto_scale_thresholds` is the ordered list of (threshold in seconds,
  label) pairs that ends with an infinite threshold;
- `toc` itself (module `Timer`). The caller's unit is lower-cased and looked
  up in `time_scales`. On a miss, a diagnostic is printed unless the unit
  spells `auto`. Then a loop scans the thresholds and takes the first label
  whose threshold strictly exceeds the elapsed time. A defensive branch uses
  scale 1.0 if the scan finds nothing. The elapsed time is then scaled, a
  report line is printed when the message is non-empty, and `(dt, unit)` is
  returned;
- lemmas on what this guarantees (module `TimerProperties`).

Arithmetic is on Dafny `real`, so the factors are exact rationals. The
literals are kept as written, including the day factor `1/86.5e3`.

Interfaces with the outside world are modelled as follows:

- The clock is not read. The start reading `t0` and the stop reading `t1`
  are both parameters of `Timer.Toc`.
- `Timer.Toc` keeps the source's defaults (`message` `"done."`, `unit`
  `"auto"`, `precision` 1, `timestamp` false).
- With a non-empty message, line 82 raises `ValueError` when the precision
  is negative (the format specification `.-Nf` is malformed) or above
  2147483647, the C `INT_MAX` that CPython's float formatting accepts. The
  model returns `FormatError` in both cases. The diagnostics printed so far
  are kept, and no report line is printed.
- Standard output is not written. `Timer.Toc` returns the lines it would
  print as a `seq<Line>`:
  - a `Diagnostic(text)` holds the exact diagnostic text;
  - a `Report(timestamp, message, value, precision, unit)` stands for the
    final `message value unit` line.
- The threshold scan (`Timer.AutoScale`) takes its table as a parameter.
  With a table that has no infinite entry, the fallback branch of lines
  74-76 really runs, so the model of that branch is not dead code.
  `TimerProperties.NoAutoFallback` proves that the constant table never
  reaches it.

Where the code decides, the model follows the code:

- An explicit unit is returned in the caller's own spelling. `toc(t0,
  unit='MS')` returns `'MS'`, not the canonical `'ms'`, because lines 63-65
  never reassign `unit`. Only automatic mode returns a label from the table.
- The fallback branch (lines 74-76) prints its diagnostic and sets the scale
  to 1.0, but it does not reassign `unit`. So it would return the caller's
  unit string, not `'s'` as its diagnostic says. The branch cannot be
  reached with the constant table anyway.

The tables also have a quirk, kept as written. The day factor is 1/86500,
not 1/86400. So the threshold 345.6e3 s marked "4 dy" is four 24-hour days,
but slightly less than four of the table's own days
(`Tables.ThresholdComments`).

In automatic mode the reported value does not grow with the elapsed time: it
drops at every one of the six unit switches
(`TimerProperties.AutoValueDropsAtEverySwitch`; `TimerProperties.AutoValueNotMonotone`
gives the ms-to-s instance).
For a fixed explicit unit it never decreases
(`TimerProperties.ExplicitValueMonotone`).

## Model

| member | source | states |
|---|---|---|
| `Tables.TimeScales` | simpletimer/simpletimer.py:6-13 | no contract: the body is `time_scales` as written, with µs spelled U+00B5; its properties are the lemmas below |
| `Tables.AutoScaleThresholds` | simpletimer/simpletimer.py:14-21 | no contract: the body is `auto_scale_thresholds` as written, with `float('inf')` as `Infinite`; its properties are the lemmas below |
| `Tables.Exceeds` | simpletimer/simpletimer.py:70 | no contract: the body is the strict comparison `dt_s < threshold`, true for every real against the infinite threshold |
| `Tables.ScaleKeys` | simpletimer/simpletimer.py:6-13 | the unit table has exactly the seven labels ns, µs, ms, s, min, hr, dy as keys, and they are pairwise distinct |
| `Tables.ScaleConstants` | simpletimer/simpletimer.py:6-13 | the factors are 1e9, 1e6, 1e3, 1, 1/60, 1/3600 and 1/86500, so a "day" lasts 86500 s and not 86400 s |
| `Tables.ThresholdLabels` | simpletimer/simpletimer.py:6-21 | every label of the threshold table is a unit-table key, the labels are in the order ns … dy, and the factors strictly decrease along that order (finest to coarsest) |
| `Tables.ThresholdsAscending` | simpletimer/simpletimer.py:14-21 | all thresholds but the last are finite and strictly ascending; the last is infinite |
| `Tables.ThresholdComments` | simpletimer/simpletimer.py:13-20 | 120 s is 2 min and 7200 s is 2 hr with the table's factors; 345.6e3 s is four 86400-s days but less than 4 in the table's day unit |
| `Timer.LowerChar` | simpletimer/simpletimer.py:63 | an ASCII capital maps to its lower-case letter, every other character to itself, and no result is an ASCII capital |
| `Timer.Lower` | simpletimer/simpletimer.py:63 | lower-casing keeps the length and lower-cases each ASCII capital, leaving every other character alone |
| `Timer.FirstExceeding` | simpletimer/simpletimer.py:69-73 | the result is the first index whose threshold strictly exceeds the elapsed time (no earlier one does), or the table length if none does; any infinite entry guarantees a match |
| `Timer.AutoIndex` | simpletimer/simpletimer.py:21 | the scan over the constant table always stops inside the table |
| `Timer.AutoLabel` | simpletimer/simpletimer.py:69-72 | the automatically chosen label is a unit-table key, at the position of the scan's index in the order ns … dy |
| `Timer.Measure` | simpletimer/simpletimer.py:63-83 | no contract: the reference definition of the returned `(dt, unit)` pair, the factor of the lower-cased key and the caller's spelling on a hit, the automatic label and its factor on a miss; `ResolveUnit` and `Toc` are proved against it and the TimerProperties lemmas state what it promises |
| `Timer.InvalidUnitMessage` | simpletimer/simpletimer.py:68 | the invalid-unit diagnostic quotes the caller's unit verbatim between the fixed 20-character prefix and 24-character suffix |
| `Timer.AutoFailedMessage` | simpletimer/simpletimer.py:75 | the fallback text as written, which differs from every invalid-unit diagnostic |
| `Timer.Diagnostics` | simpletimer/simpletimer.py:63-68 | at most one diagnostic, the invalid-unit text quoting the caller's unit, present iff the lower-cased unit is neither a key nor `auto`; never the fallback text |
| `Timer.FormatFails` | simpletimer/simpletimer.py:82 | no contract: the body is the condition under which line 82 raises, a non-empty message with a precision below 0 or above 2147483647 |
| `Timer.ReportLines` | simpletimer/simpletimer.py:78-82 | at most one line, a report carrying the message, the value and the unit, present iff the message is non-empty and the precision is in 0 … 2147483647 |
| `Timer.AutoScale` | simpletimer/simpletimer.py:69-76 | the loop returns the first exceeding entry's label and that label's factor with nothing printed; if no entry exceeds, it prints the fallback diagnostic, uses 1.0 and leaves the unit unchanged |
| `Timer.ResolveUnit` | simpletimer/simpletimer.py:63-76 | a known unit gets its own factor in the caller's spelling; otherwise the label comes from the scan with that label's factor; it prints exactly the invalid-unit diagnostic when the unit is neither a key nor `auto`, and never the fallback text |
| `Timer.Toc` | simpletimer/simpletimer.py:43-83 | with a non-empty message and a precision that is negative or above 2147483647 it raises (`FormatError`) after printing the diagnostics; otherwise it returns `scale * (t1 - t0)` and the resolved unit, a pair that depends only on unit and elapsed time; it prints the diagnostics, then one report line iff the message is non-empty and formatting succeeds |
| `TimerProperties.LowerOfLowercase` | simpletimer/simpletimer.py:63 | a string with no ASCII capitals is unchanged by lower-casing |
| `TimerProperties.LowerIdempotent` | simpletimer/simpletimer.py:63 | lower-casing twice equals lower-casing once |
| `TimerProperties.AutoIsNotAUnit` | simpletimer/simpletimer.py:63-67 | `auto` lower-cases to itself and is not a unit-table key, so it always reaches the scan |
| `TimerProperties.ScalesPositive` | simpletimer/simpletimer.py:6-13 | every factor is positive |
| `TimerProperties.ExplicitUnitHonoured` | simpletimer/simpletimer.py:63-65 | a unit whose lower-case form is a key gives value `factor * elapsed`, returns the caller's original string and prints no diagnostic |
| `TimerProperties.ExplicitSpellingKept` | simpletimer/simpletimer.py:63-65 | `MS` scales by 1e3 and is returned as `MS` |
| `TimerProperties.AutoSelectsFirstExceeding` | simpletimer/simpletimer.py:69-73 | the scan stops at entry k if and only if k's threshold strictly exceeds the elapsed time and no earlier one does |
| `TimerProperties.AutoIndexInterval` | simpletimer/simpletimer.py:14-21 | entry k is chosen if and only if the previous threshold is at most the elapsed time and k's threshold strictly exceeds it |
| `TimerProperties.StrictBoundary` | simpletimer/simpletimer.py:70 | exactly 1100e-9 s selects µs; 1099e-9 s and 500e-9 s select ns |
| `TimerProperties.AutoExamples` | simpletimer/simpletimer.py:69-77 | automatic mode gives (500, ns) for 500 ns, (150, ms) for 0.15 s and (5000/60, min) for 5000 s |
| `TimerProperties.AutoMeasure` | simpletimer/simpletimer.py:71-77 | automatic mode returns the table label and `time_scales[label] * elapsed` |
| `TimerProperties.InvalidUnitFallsBackToAuto` | simpletimer/simpletimer.py:63-73 | a unit that is not a key gives the same pair as `auto`; unless it spells `auto`, it prints exactly one diagnostic quoting the original unit |
| `TimerProperties.AutoInAnyCase` | simpletimer/simpletimer.py:63-67 | `AUTO` and `Auto` behave as `auto` and print nothing |
| `TimerProperties.NoAutoFallback` | simpletimer/simpletimer.py:74-76 | with the constant table the scan always matches, so the fallback diagnostic is never printed |
| `TimerProperties.AutoLabelNeverFiner` | simpletimer/simpletimer.py:69-73 | a longer elapsed time never selects an earlier, finer label |
| `TimerProperties.ExplicitValueMonotone` | simpletimer/simpletimer.py:65-77 | for a fixed explicit unit the value never decreases as the elapsed time grows |
| `TimerProperties.AutoValueNotMonotone` | simpletimer/simpletimer.py:69-77 | 1.0 s reads (1000, ms) but 1.1 s reads (1.1, s): in automatic mode the value can drop |
| `TimerProperties.AutoValueDropsAtEverySwitch` | simpletimer/simpletimer.py:14-21 | at each of the six switches, half the threshold is shown in the finer unit with a larger value than the threshold itself shown in the next unit |
| `TimerProperties.AutoValueRange` | simpletimer/simpletimer.py:14-21 | for a non-negative elapsed time the auto-scaled value is non-negative, below the chosen threshold expressed in the chosen unit (except for days), and at least the previous threshold in that unit |

## Left out

- `tic` (lines 23-41): it only prints an optional message and reads the clock; both are outside this model.
- Reading the clock (`time.perf_counter()`, line 61): both readings are parameters of `Timer.Toc`.
- The date-time prefix (`datetime.now().strftime`, lines 37-39, 79-81): `Report` records only whether a timestamp was requested.
- Rendering the value with `precision` decimal places (line 82): a `Report` keeps the exact value and the precision, not the text. The precisions for which formatting raises (negative, or above 2147483647) are modelled as `FormatError`.
- Floating point: values are exact reals. IEEE rounding of the products is not modelled, and neither are NaN and infinite elapsed times. Those are the only inputs that reach the fallback of lines 74-76 with the constant table.
- `Timer.Lower`: lower-cases only ASCII letters, not the full Unicode mapping of `str.lower()`. The keys and `auto` are ASCII apart from the micro sign, which is its own lower case. So the decision (a key, `auto` or neither) is the same as Python's for every unit whose non-ASCII characters are their own lower case.
- `Timer.Toc`: for a precision from 0 to 2147483647 formatting is taken to succeed; running out of memory while rendering a huge number of digits is not modelled.
- `message=None`: it is falsy like the empty string, and the empty string stands for both.
