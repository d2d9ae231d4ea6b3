/** The two constant tables of the stopwatch: the factor that converts seconds
    into each reporting unit, and the ordered thresholds that drive automatic
    unit selection (simpletimer/simpletimer.py, lines 6-21). */
module Tables {

  /** A threshold in seconds; the last entry of the table is `float('inf')`. */
  datatype Threshold = Finite(seconds: real) | Infinite

  /** `dt_s < threshold`: the strict comparison of the automatic scan. */
  predicate Exceeds(t: Threshold, elapsed: real)
  {
    match t
    case Infinite => true
    case Finite(s) => elapsed < s
  }

  /** The micro-second label, spelled with U+00B5 MICRO SIGN as in the source. */
  const Micro: string := "\U{00B5}s"

  /** The canonical labels, from the finest unit to the coarsest. */
  function Labels(): seq<string>
  {
    ["ns", Micro, "ms", "s", "min", "hr", "dy"]
  }

  /** `time_scales`: multiply a duration in seconds by the factor to express it
      in the unit. The day factor is kept as written (1/86500, not 1/86400). */
  function TimeScales(): map<string, real>
  {
    map[
      "ns" := 1e9,
      Micro := 1e6,
      "ms" := 1e3,
      "s" := 1.0,
      "min" := 1.0 / 60.0,
      "hr" := 1.0 / 3.6e3,
      "dy" := 1.0 / 86.5e3]
  }

  /** `auto_scale_thresholds`: the first entry whose threshold exceeds the
      elapsed time names the unit to report in. */
  function AutoScaleThresholds(): seq<(Threshold, string)>
  {
    [ (Finite(1100e-9), "ns"),
      (Finite(1100e-6), Micro),
      (Finite(1100e-3), "ms"),
      (Finite(120.0), "s"),
      (Finite(7.2e3), "min"),
      (Finite(345.6e3), "hr"),
      (Infinite, "dy") ]
  }

  /** The unit table holds exactly the seven canonical labels, each once. */
  lemma ScaleKeys()
    ensures TimeScales().Keys == set i | 0 <= i < |Labels()| :: Labels()[i]
    ensures |Labels()| == 7
    ensures forall i, j :: 0 <= i < j < |Labels()| ==> Labels()[i] != Labels()[j]
  {
    var L := Labels();
    assert L[0] == "ns" && L[1] == Micro && L[2] == "ms" && L[3] == "s";
    assert L[4] == "min" && L[5] == "hr" && L[6] == "dy";
    assert Micro[0] == '\U{00B5}';
    forall k | k in TimeScales().Keys
      ensures k in set i | 0 <= i < |L| :: L[i]
    {
      if k == "ns" { assert k == L[0]; }
      else if k == Micro { assert k == L[1]; }
      else if k == "ms" { assert k == L[2]; }
      else if k == "s" { assert k == L[3]; }
      else if k == "min" { assert k == L[4]; }
      else if k == "hr" { assert k == L[5]; }
      else { assert k == L[6]; }
    }
  }

  /** The factors, stated as "how many seconds one unit lasts". They include
      the day of 86500 seconds, which is not a 24-hour day. */
  lemma ScaleConstants()
    ensures TimeScales()["ns"] * 1e-9 == 1.0
    ensures TimeScales()[Micro] * 1e-6 == 1.0
    ensures TimeScales()["ms"] * 1e-3 == 1.0
    ensures TimeScales()["s"] == 1.0
    ensures TimeScales()["min"] * 60.0 == 1.0
    ensures TimeScales()["hr"] * 3600.0 == 1.0
    ensures TimeScales()["dy"] * 86500.0 == 1.0
    ensures TimeScales()["dy"] * 86400.0 != 1.0
  {
  }

  /** Every label of the threshold table is a key of the unit table, so the
      lookup at line 72 never fails; and the table lists the labels in order
      from the finest to the coarsest: the factors strictly decrease along it. */
  lemma ThresholdLabels()
    ensures |AutoScaleThresholds()| == |Labels()|
    ensures forall i :: 0 <= i < |AutoScaleThresholds()| ==>
      AutoScaleThresholds()[i].1 == Labels()[i] && AutoScaleThresholds()[i].1 in TimeScales()
    ensures forall i, j :: 0 <= i < j < |Labels()| ==>
      Labels()[i] in TimeScales() && Labels()[j] in TimeScales() &&
      TimeScales()[Labels()[i]] > TimeScales()[Labels()[j]]
  {
  }

  /** Every threshold but the last is finite and smaller than the next one; the
      last is infinite. */
  lemma ThresholdsAscending()
    ensures |AutoScaleThresholds()| > 0
    ensures AutoScaleThresholds()[|AutoScaleThresholds()| - 1].0 == Infinite
    ensures forall i :: 0 <= i < |AutoScaleThresholds()| - 1 ==> AutoScaleThresholds()[i].0.Finite?
    ensures forall i, j :: 0 <= i < j < |AutoScaleThresholds()| - 1 ==>
      AutoScaleThresholds()[i].0.seconds < AutoScaleThresholds()[j].0.seconds
  {
  }

  /** The comments next to the thresholds read "2 min", "2 hr" and "4 dy".
      The first two hold with the unit table's own factors; the third holds
      for a 24-hour day but not for the table's 86500-second day. */
  lemma ThresholdComments()
    ensures AutoScaleThresholds()[3].0.seconds * TimeScales()["min"] == 2.0
    ensures AutoScaleThresholds()[4].0.seconds * TimeScales()["hr"] == 2.0
    ensures AutoScaleThresholds()[5].0.seconds == 4.0 * 86400.0
    ensures AutoScaleThresholds()[5].0.seconds * TimeScales()["dy"] < 4.0
  {
  }
}
