/** What `toc`'s unit resolution guarantees, stated over the model in
    module Timer and the constant tables in module Tables. */
module TimerProperties {
  import opened Tables
  import opened Timer

  /** A string without ASCII capitals is its own lower-case form. */
  lemma LowerOfLowercase(s: string)
    requires forall i :: 0 <= i < |s| ==> !('A' <= s[i] <= 'Z')
    ensures Lower(s) == s
  {
    assert forall i :: 0 <= i < |s| ==> Lower(s)[i] == s[i];
  }

  /** Lower-casing twice is lower-casing once. */
  lemma LowerIdempotent(s: string)
    ensures Lower(Lower(s)) == Lower(s)
  {
    LowerOfLowercase(Lower(s));
  }

  /** `auto` is not a key of the unit table, so it reaches the scan. */
  lemma AutoIsNotAUnit()
    ensures Lower("auto") == "auto"
    ensures "auto" !in TimeScales()
  {
    LowerOfLowercase("auto");
  }

  /** Every factor of the unit table is positive. */
  lemma ScalesPositive()
    ensures forall u :: u in TimeScales() ==> TimeScales()[u] > 0.0
  {
  }

  /** An explicit unit whose lower-case form is a key is honoured: its factor
      is used, nothing is printed while resolving it, and the caller's original
      spelling is returned (lines 63-65 never reassign `unit`). */
  lemma ExplicitUnitHonoured(unit: string, elapsed: real)
    requires Lower(unit) in TimeScales()
    ensures Measure(unit, elapsed) == (TimeScales()[Lower(unit)] * elapsed, unit)
    ensures Diagnostics(unit) == []
  {
    assert Measure(unit, elapsed).1 == unit;
    assert Measure(unit, elapsed).0 == TimeScales()[Lower(unit)] * elapsed;
  }

  /** `MS` selects milliseconds and is returned as `MS`, not `ms`. */
  lemma ExplicitSpellingKept(elapsed: real)
    ensures Measure("MS", elapsed) == (1e3 * elapsed, "MS")
    ensures Diagnostics("MS") == []
  {
    assert Lower("MS") == "ms" by {
      assert Lower("MS")[0] == 'm' && Lower("MS")[1] == 's';
    }
  }

  /** The automatic scan stops at entry `k` exactly when `k` is the first
      entry whose threshold strictly exceeds the elapsed time. */
  lemma AutoSelectsFirstExceeding(elapsed: real, k: nat)
    requires k < |AutoScaleThresholds()|
    ensures AutoIndex(elapsed) == k <==>
      Exceeds(AutoScaleThresholds()[k].0, elapsed) &&
      forall j :: 0 <= j < k ==> !Exceeds(AutoScaleThresholds()[j].0, elapsed)
  {
  }

  /** Since the thresholds ascend, entry `k` is selected exactly when the
      elapsed time lies in the half-open interval from the previous threshold
      (inclusive) up to the threshold of `k` (exclusive). */
  lemma AutoIndexInterval(elapsed: real, k: nat)
    requires k < |AutoScaleThresholds()|
    ensures AutoIndex(elapsed) == k <==>
      (k == 0 || AutoScaleThresholds()[k - 1].0.seconds <= elapsed) &&
      Exceeds(AutoScaleThresholds()[k].0, elapsed)
  {
    var T := AutoScaleThresholds();
    ThresholdsAscending();
    AutoSelectsFirstExceeding(elapsed, k);
    if (k == 0 || T[k - 1].0.seconds <= elapsed) && Exceeds(T[k].0, elapsed) {
      forall j | 0 <= j < k
        ensures !Exceeds(T[j].0, elapsed)
      {
        assert T[j].0.seconds <= T[k - 1].0.seconds;
      }
    }
  }

  /** The boundary is exclusive: exactly 1100 ns is reported in micro-seconds,
      and anything shorter in nano-seconds. */
  lemma StrictBoundary()
    ensures AutoLabel(1100e-9) == Micro
    ensures AutoLabel(1099e-9) == "ns"
    ensures AutoLabel(500e-9) == "ns"
  {
    AutoIndexInterval(1100e-9, 1);
    AutoIndexInterval(1099e-9, 0);
    AutoIndexInterval(500e-9, 0);
  }

  /** Worked values: 500 ns, 150 ms and 5000 s in automatic mode. */
  lemma AutoExamples()
    ensures Measure("auto", 500e-9) == (500.0, "ns")
    ensures Measure("auto", 0.15) == (150.0, "ms")
    ensures Measure("auto", 5000.0) == (5000.0 / 60.0, "min")
  {
    AutoIsNotAUnit();
    AutoIndexInterval(500e-9, 0);
    AutoIndexInterval(0.15, 2);
    AutoIndexInterval(5000.0, 4);
  }

  /** Automatic mode reports the table's label and the elapsed time times
      that label's factor. */
  lemma AutoMeasure(elapsed: real)
    ensures AutoLabel(elapsed) == AutoScaleThresholds()[AutoIndex(elapsed)].1
    ensures Measure("auto", elapsed) == (TimeScales()[AutoLabel(elapsed)] * elapsed, AutoLabel(elapsed))
  {
    AutoIsNotAUnit();
    ThresholdLabels();
  }

  /** A unit that is not a key after lower-casing gives the same pair as
      `auto`; it prints exactly one diagnostic naming the caller's spelling,
      unless it spells `auto` in some casing, which prints nothing. */
  lemma InvalidUnitFallsBackToAuto(unit: string, elapsed: real)
    requires Lower(unit) !in TimeScales()
    ensures Measure(unit, elapsed) == Measure("auto", elapsed)
    ensures Lower(unit) != "auto" ==>
      Diagnostics(unit) == [Diagnostic("Invalid unit spec: '" + unit + "'. Defaulting to 'auto'.")]
    ensures Lower(unit) == "auto" ==> Diagnostics(unit) == []
  {
    AutoIsNotAUnit();
  }

  /** `AUTO` and `Auto` enter automatic mode silently. */
  lemma AutoInAnyCase(elapsed: real)
    ensures Diagnostics("AUTO") == [] && Measure("AUTO", elapsed) == Measure("auto", elapsed)
    ensures Diagnostics("Auto") == [] && Measure("Auto", elapsed) == Measure("auto", elapsed)
  {
    AutoIsNotAUnit();
    assert Lower("AUTO") == "auto" by {
      assert Lower("AUTO")[0] == 'a' && Lower("AUTO")[1] == 'u';
      assert Lower("AUTO")[2] == 't' && Lower("AUTO")[3] == 'o';
    }
    assert Lower("Auto") == "auto" by {
      assert Lower("Auto")[0] == 'a' && Lower("Auto")[1] == 'u';
      assert Lower("Auto")[2] == 't' && Lower("Auto")[3] == 'o';
    }
  }

  /** The defensive fallback of lines 74-76 is unreachable with the constant
      table: the scan always matches, so resolving a unit never prints the
      fallback diagnostic. `Timer.ResolveUnit` states the second half about
      its own output; it follows there from the contract of `Timer.AutoScale`
      and the first half, which `Timer.AutoIndex` provides. */
  lemma NoAutoFallback(unit: string, elapsed: real)
    ensures FirstExceeding(AutoScaleThresholds(), elapsed) < |AutoScaleThresholds()|
    ensures forall i :: 0 <= i < |Diagnostics(unit)| ==> Diagnostics(unit)[i] != Diagnostic(AutoFailedMessage())
  {
    assert AutoIndex(elapsed) == FirstExceeding(AutoScaleThresholds(), elapsed);
  }

  /** A longer elapsed time never selects an earlier (finer) label of the
      order ns, micro-seconds, ms, s, min, hr, dy. */
  lemma AutoLabelNeverFiner(x: real, y: real)
    requires x <= y
    ensures AutoIndex(x) <= AutoIndex(y)
    ensures AutoLabel(x) == Labels()[AutoIndex(x)] && AutoLabel(y) == Labels()[AutoIndex(y)]
  {
    var T := AutoScaleThresholds();
    var k := AutoIndex(y);
    assert Exceeds(T[k].0, y);
    assert Exceeds(T[k].0, x);
    AutoSelectsFirstExceeding(x, AutoIndex(x));
  }

  /** For a fixed explicit unit the reported value never decreases as the
      elapsed time grows. */
  lemma ExplicitValueMonotone(unit: string, x: real, y: real)
    requires Lower(unit) in TimeScales()
    requires x <= y
    ensures Measure(unit, x).0 <= Measure(unit, y).0
  {
    ScalesPositive();
    var c := TimeScales()[Lower(unit)];
    assert c * (y - x) >= 0.0;
  }

  /** In automatic mode it can decrease: 1.0 s reads 1000 ms but 1.1 s reads
      1.1 s, because the unit switches at the threshold. */
  lemma AutoValueNotMonotone()
    ensures Measure("auto", 1.0) == (1000.0, "ms")
    ensures Measure("auto", 1.1) == (1.1, "s")
  {
    AutoIsNotAUnit();
    AutoIndexInterval(1.0, 2);
    AutoIndexInterval(1.1, 3);
  }

  /** More generally the value drops at every switch of unit: half of a
      threshold is still reported in that entry's unit, the threshold itself
      in the next, coarser unit, and the first reading is the larger. */
  lemma AutoValueDropsAtEverySwitch(k: nat)
    requires k < |AutoScaleThresholds()| - 1
    ensures var T := AutoScaleThresholds();
      var y := T[k].0.seconds;
      var x := y / 2.0;
      0.0 < x < y &&
      Measure("auto", x).1 == T[k].1 &&
      Measure("auto", y).1 == T[k + 1].1 &&
      Measure("auto", x).0 > Measure("auto", y).0
  {
    var T := AutoScaleThresholds();
    ThresholdsAscending();
    var y := T[k].0.seconds;
    AutoMeasure(y / 2.0);
    AutoMeasure(y);
    AutoIndexInterval(y / 2.0, k);
    AutoIndexInterval(y, k + 1);
  }

  /** An automatically scaled non-negative value is readable: below the
      selected threshold expressed in the selected unit (below 1100 for ns,
      micro-seconds and ms, below 120 s, below 120 min, below 96 hr), and, past
      the first entry, at least the previous threshold in that unit. */
  lemma AutoValueRange(elapsed: real)
    requires elapsed >= 0.0
    ensures var k, T := AutoIndex(elapsed), AutoScaleThresholds();
      var v := Measure("auto", elapsed).0;
      0.0 <= v &&
      (k < |T| - 1 ==> v < T[k].0.seconds * TimeScales()[T[k].1]) &&
      (k > 0 ==> T[k - 1].0.seconds * TimeScales()[T[k].1] <= v)
  {
    var k, T := AutoIndex(elapsed), AutoScaleThresholds();
    AutoMeasure(elapsed);
    AutoIndexInterval(elapsed, k);
    ThresholdLabels();
    ScalesPositive();
    var c := TimeScales()[T[k].1];
    assert c > 0.0;
    if k < |T| - 1 {
      assert c * (T[k].0.seconds - elapsed) > 0.0;
    }
    if k > 0 {
      assert c * (elapsed - T[k - 1].0.seconds) >= 0.0;
    }
  }
}
