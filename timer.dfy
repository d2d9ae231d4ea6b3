/** The stop half of the stopwatch, `toc` (simpletimer/simpletimer.py, lines
    43-83): resolve the reporting unit, scale the elapsed time, and report.
    The clock readings are parameters, and the lines `toc` writes to standard
    output are returned as a sequence of `Line`s. */
module Timer {
  import opened Tables

  /** One line written to standard output. A `Report` is the final
      `message value unit` line; how its value is rendered with `precision`
      decimal places and its optional date-time prefix are not modelled. */
  datatype Line =
    | Diagnostic(text: string)
    | Report(timestamp: bool, message: string, value: real, precision: int, unit: string)

  /** The diagnostic for a unit that is neither a known label nor `auto`; it
      quotes the caller's unit verbatim, in its original casing. */
  function InvalidUnitMessage(unit: string): (m: string)
    ensures |m| == 20 + |unit| + 24
    ensures m[20..20 + |unit|] == unit
  {
    "Invalid unit spec: '" + unit + "'. Defaulting to 'auto'."
  }

  /** The diagnostic of the defensive branch taken when the scan finds
      nothing; it can never be mistaken for an invalid-unit diagnostic. */
  function AutoFailedMessage(): (m: string)
    ensures forall unit :: m != InvalidUnitMessage(unit)
  {
    var m := "Auto time scaling failed. Defaulting to 's'.";
    forall unit
      ensures m != InvalidUnitMessage(unit)
    {
      assert m[1] != InvalidUnitMessage(unit)[1];
    }
    m
  }

  /** `str.lower()` on the ASCII letters; every other character is kept. */
  function LowerChar(c: char): (r: char)
    ensures 'A' <= c <= 'Z' ==> r as int == c as int + 32
    ensures !('A' <= c <= 'Z') ==> r == c
    ensures !('A' <= r <= 'Z')
  {
    if 'A' <= c <= 'Z' then (c as int + 32) as char else c
  }

  function Lower(s: string): (r: string)
    ensures |r| == |s|
    ensures forall i :: 0 <= i < |s| ==> r[i] == LowerChar(s[i])
  {
    if s == [] then [] else [LowerChar(s[0])] + Lower(s[1..])
  }

  /** The index of the first entry whose threshold strictly exceeds `elapsed`,
      or `|table|` when there is none. An infinite threshold always matches. */
  function FirstExceeding(table: seq<(Threshold, string)>, elapsed: real): (k: nat)
    ensures k <= |table|
    ensures k < |table| ==> Exceeds(table[k].0, elapsed)
    ensures forall j :: 0 <= j < k ==> !Exceeds(table[j].0, elapsed)
    ensures (exists j :: 0 <= j < |table| && table[j].0 == Infinite) ==> k < |table|
  {
    if table == [] then 0
    else if Exceeds(table[0].0, elapsed) then 0
    else
      var k := FirstExceeding(table[1..], elapsed);
      assert forall j :: 1 <= j < |table| ==> table[j] == table[1..][j - 1];
      1 + k
  }

  /** The index into `auto_scale_thresholds` that the automatic scan stops at. */
  function AutoIndex(elapsed: real): (k: nat)
    ensures k < |AutoScaleThresholds()|
  {
    var T := AutoScaleThresholds();
    assert T[|T| - 1].0 == Infinite;
    FirstExceeding(T, elapsed)
  }

  /** The label the automatic scan picks for `elapsed` seconds. */
  function AutoLabel(elapsed: real): (name: string)
    ensures name in TimeScales()
    ensures name == Labels()[AutoIndex(elapsed)]
  {
    ThresholdLabels();
    AutoScaleThresholds()[AutoIndex(elapsed)].1
  }

  /** The `(dt, unit)` pair `toc` returns when `unit` is requested and
      `elapsed` seconds have passed: a unit whose lower-case form is a known
      label is honoured and returned in the caller's own spelling; any other
      unit is scaled automatically and reported with the table's label. */
  function Measure(unit: string, elapsed: real): (r: (real, string))
  {
    var u := Lower(unit);
    if u in TimeScales() then (TimeScales()[u] * elapsed, unit)
    else
      var name := AutoLabel(elapsed);
      (TimeScales()[name] * elapsed, name)
  }

  /** The diagnostics `toc` prints while resolving `unit`: at most one, the
      invalid-unit text, exactly when the lower-cased unit is neither a key
      nor `auto`; never the text of the defensive fallback. */
  function Diagnostics(unit: string): (r: seq<Line>)
    ensures |r| <= 1
    ensures r != [] <==> Lower(unit) !in TimeScales() && Lower(unit) != "auto"
    ensures forall i :: 0 <= i < |r| ==> r[i] == Diagnostic(InvalidUnitMessage(unit))
    ensures Diagnostic(AutoFailedMessage()) !in r
  {
    var u := Lower(unit);
    if u in TimeScales() || u == "auto" then [] else [Diagnostic(InvalidUnitMessage(unit))]
  }

  /** What `toc` hands back: the `(dt, unit)` pair, or the `ValueError`
      raised when the value cannot be formatted. */
  datatype TocResult = Returned(dt: real, unit: string) | FormatError

  /** The largest precision CPython's float formatting accepts (C `INT_MAX`). */
  const MaxPrecision: int := 2147483647

  /** Formatting the report with a non-empty message raises `ValueError` when
      the precision is negative (the specification `.-Nf` is malformed) or
      above `MaxPrecision` ("precision too big", or "Too many decimal digits
      in format string" past the machine word). */
  predicate FormatFails(message: string, precision: int)
  {
    message != "" && (precision < 0 || precision > MaxPrecision)
  }

  /** The report line `toc` prints after scaling, present only when the
      message is non-empty (a falsy message prints nothing) and the value
      can be formatted. */
  function ReportLines(message: string, timestamp: bool, dt: real, precision: int, unit: string): (r: seq<Line>)
    ensures |r| <= 1
    ensures r != [] <==> message != "" && 0 <= precision <= MaxPrecision
    ensures forall i :: 0 <= i < |r| ==> r[i].Report? && r[i].message == message && r[i].value == dt && r[i].unit == unit
  {
    if message != "" && !FormatFails(message, precision) then [Report(timestamp, message, dt, precision, unit)] else []
  }

  /** The `for ... break ... else` scan of lines 69-76 over a threshold table
      whose labels are all keys of `scales`. It takes the first entry whose
      threshold exceeds `elapsed`; if none does, it prints the fallback
      diagnostic, uses scale 1.0 and leaves `unit` as it was. */
  method AutoScale(table: seq<(Threshold, string)>, scales: map<string, real>, unit: string, elapsed: real)
    returns (used: string, scale: real, printed: seq<Line>)
    requires forall i :: 0 <= i < |table| ==> table[i].1 in scales
    ensures var k := FirstExceeding(table, elapsed);
      if k < |table| then used == table[k].1 && scale == scales[used] && printed == []
      else used == unit && scale == 1.0 && printed == [Diagnostic(AutoFailedMessage())]
  {
    used, scale, printed := unit, 0.0, [];
    var i := 0;
    while i < |table|
      invariant 0 <= i <= |table|
      invariant forall j :: 0 <= j < i ==> !Exceeds(table[j].0, elapsed)
    {
      var (threshold, scaleSpec) := table[i];
      if Exceeds(threshold, elapsed) {
        used := scaleSpec;
        scale := scales[scaleSpec];
        return;
      }
      i := i + 1;
    }
    printed := [Diagnostic(AutoFailedMessage())];
    scale := 1.0;
  }

  /** Lines 63-76: look the lower-cased unit up in `time_scales`; on a miss,
      complain unless it spells `auto`, then scan the thresholds. */
  method ResolveUnit(unit: string, elapsed: real) returns (used: string, scale: real, printed: seq<Line>)
    ensures Lower(unit) in TimeScales() ==> scale == TimeScales()[Lower(unit)]
    ensures Lower(unit) !in TimeScales() ==> used in TimeScales() && scale == TimeScales()[used]
    ensures used == Measure(unit, elapsed).1
    ensures printed == Diagnostics(unit)
    ensures Diagnostic(AutoFailedMessage()) !in printed
  {
    var unitL := Lower(unit);
    if unitL in TimeScales() {
      used, scale, printed := unit, TimeScales()[unitL], [];
    } else {
      var complaint: seq<Line> := [];
      if unitL != "auto" {
        complaint := [Diagnostic(InvalidUnitMessage(unit))];
      }
      ThresholdLabels();
      assert AutoIndex(elapsed) == FirstExceeding(AutoScaleThresholds(), elapsed);
      var more;
      used, scale, more := AutoScale(AutoScaleThresholds(), TimeScales(), unit, elapsed);
      printed := complaint + more;
    }
  }

  /** `toc(t0, message, unit, precision, timestamp)` with the second clock
      reading `t1` supplied by the caller, and the source's defaults. When it
      returns, the pair depends only on the unit and the elapsed time
      `t1 - t0`; the message and the timestamp flag only shape what is
      printed. A non-empty message with a precision that cannot be
      formatted (see `FormatFails`) makes line 82 raise: the resolution diagnostics
      have been printed, no report line is, and `toc` raises instead of
      returning. */
  method Toc(t0: real, t1: real, message: string := "done.", unit: string := "auto",
             precision: int := 1, timestamp: bool := false)
    returns (result: TocResult, printed: seq<Line>)
    ensures result == if FormatFails(message, precision) then FormatError
                      else Returned(Measure(unit, t1 - t0).0, Measure(unit, t1 - t0).1)
    ensures printed == Diagnostics(unit) +
      ReportLines(message, timestamp, Measure(unit, t1 - t0).0, precision, Measure(unit, t1 - t0).1)
  {
    var dtS := t1 - t0;
    var used, scale, diagnostics := ResolveUnit(unit, dtS);
    var dt := scale * dtS;
    assert dt == Measure(unit, dtS).0 && used == Measure(unit, dtS).1;
    printed := diagnostics;
    if message != "" {
      if precision < 0 || precision > MaxPrecision {
        result := FormatError;
        return;
      }
      printed := printed + [Report(timestamp, message, dt, precision, used)];
    }
    result := Returned(dt, used);
  }
}
