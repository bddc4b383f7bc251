/** The pass scanner of SatTracker.findIntercepts: a single forward pass over
    the look-angle samples with a two-state machine (idle / tracking) that
    collects each run above the horizon, together with the sample at which
    the target sets again, into a pass record. */
module Intercepts {
  import opened PassSpec

  /** The loop's variables: the is_visible flag, the fields of the pass being
      built (start instant, start azimuth, samples so far) and the passes
      emitted so far. While idle the pass fields keep whatever they held last;
      they are read only while tracking. */
  datatype ScanState = ScanState(visible: bool, startTime: int, startAzim: real,
                                 points: seq<Sample>, intercepts: seq<Window>)

  /** Before the first sample: idle, nothing emitted. The pass fields are
      placeholders for the still-empty record. */
  const Initial: ScanState := ScanState(false, 0, 0.0, [], [])

  /** One iteration of the loop on sample x. */
  function Step(st: ScanState, x: Sample): (r: ScanState)
    ensures r.visible == (x.el > 0.0)
    ensures !st.visible && x.el <= 0.0 ==> r == st
    ensures r.intercepts == st.intercepts
            || (st.visible && x.el <= 0.0 && |r.intercepts| == |st.intercepts| + 1
                && r.intercepts[..|st.intercepts|] == st.intercepts)
  {
    if !st.visible then
      if x.el > 0.0 then ScanState(true, x.time, x.az, [x], st.intercepts)
      else st
    else if x.el > 0.0 then
      st.(points := st.points + [x])
    else
      var pts := st.points + [x];
      var w := Window(st.startTime, st.startAzim, x.time, x.az, pts, pts[MaxAltIndex(pts)]);
      st.(visible := false, points := pts, intercepts := st.intercepts + [w])
  }

  /** The state after the loop has consumed every sample of s, in order. */
  function Scan(s: seq<Sample>): ScanState
    decreases |s|
  {
    if |s| == 0 then Initial else Step(Scan(s[..|s| - 1]), s[|s| - 1])
  }

  /** The scan, as the source runs it: one loop over the samples with the
      state held in local variables. Its result is exactly the declarative
      list of passes: one per setting sample, each well formed. */
  method FindIntercepts(samples: seq<Sample>) returns (intercepts: seq<Window>)
    ensures intercepts == Passes(samples)
    ensures forall w :: w in intercepts ==> WellFormedWindow(w)
    ensures |intercepts| == |FallSet(samples)|
  {
    intercepts := [];
    var isVisible := false;
    var startTime, startAzim, points := 0, 0.0, [];
    for i := 0 to |samples|
      invariant ScanState(isVisible, startTime, startAzim, points, intercepts) == Scan(samples[..i])
    {
      var x := samples[i];
      assert samples[..i + 1][..i] == samples[..i];
      if !isVisible {
        if x.el > 0.0 {
          isVisible := true;
          startTime, startAzim := x.time, x.az;
          points := [x];
        }
      } else {
        if x.el > 0.0 {
          points := points + [x];
        } else {
          isVisible := false;
          points := points + [x];
          var maxAlt := points[MaxAltIndex(points)];
          intercepts := intercepts + [Window(startTime, startAzim, x.time, x.az, points, maxAlt)];
        }
      }
    }
    assert samples[..|samples|] == samples;
    ScanIsPasses(samples);
    PassesWellFormed(samples);
    PassCount(samples);
  }

  // ---------------------------------------------------------------------------
  // What the scan state holds after each sample

  /** After a sample the scanner is tracking exactly when that sample is above
      the horizon; while tracking, the record holds the whole current run above
      the horizon and starts at its first sample. */
  lemma {:induction false} ScanInvariant(s: seq<Sample>)
    ensures Scan(s).visible <==> (|s| > 0 && s[|s| - 1].el > 0.0)
    ensures Scan(s).visible ==>
              var r := RunStart(s, |s| - 1);
              Scan(s).points == s[r..] && Scan(s).startTime == s[r].time
              && Scan(s).startAzim == s[r].az
    decreases |s|
  {
    if |s| > 0 {
      var p := s[..|s| - 1];
      var x := s[|s| - 1];
      ScanInvariant(p);
      assert Scan(s) == Step(Scan(p), x);
      if x.el > 0.0 && |s| > 1 && s[|s| - 2].el > 0.0 {
        var r := RunStart(p, |s| - 2);
        RunStartPrefix(s, |s| - 1, |s| - 2);
        SliceOfPrefix(s, r);
        assert RunStart(s, |s| - 1) == r;
      }
    }
  }

  /** Just before a setting sample, the record being built holds the run
      above the horizon that the setting sample ends. */
  lemma OpenRunBeforeFall(s: seq<Sample>)
    requires FallsAt(s, |s| - 1)
    ensures var st := Scan(s[..|s| - 1]);
            var r := RunStart(s, |s| - 2);
            st.visible && st.points + [s[|s| - 1]] == s[r..]
            && st.startTime == s[r].time && st.startAzim == s[r].az
  {
    var p := s[..|s| - 1];
    ScanInvariant(p);
    var r := RunStart(p, |s| - 2);
    RunStartPrefix(s, |s| - 1, |s| - 2);
    SliceOfPrefix(s, r);
  }

  /** Slicing the prefix and extending by the last sample gives the slice of
      the whole stream. */
  lemma SliceOfPrefix(s: seq<Sample>, r: nat)
    requires r < |s|
    ensures s[..|s| - 1][r..] + [s[|s| - 1]] == s[r..]
  {
    assert s[..|s| - 1][r..] == s[r..|s| - 1];
  }

  /** Unfolding helper for the closing branch of Step: a tracking scanner
      meeting a sample at or below the horizon emits the record it holds,
      closed by that sample. */
  lemma StepCloses(st: ScanState, x: Sample)
    requires st.visible && x.el <= 0.0
    ensures var pts := st.points + [x];
            Step(st, x).intercepts
            == st.intercepts + [Window(st.startTime, st.startAzim, x.time, x.az, pts, pts[MaxAltIndex(pts)])]
  {
  }

  /** At a setting sample the scan closes precisely the pass ending there. */
  lemma ClosesPassAt(s: seq<Sample>)
    requires FallsAt(s, |s| - 1)
    ensures Scan(s).intercepts == Scan(s[..|s| - 1]).intercepts + [PassAt(s, |s| - 1)]
  {
    StepClosesPassAt(s);
    assert Scan(s) == Step(Scan(s[..|s| - 1]), s[|s| - 1]);
  }

  /** The step taken at a setting sample closes the pass ending there. */
  lemma StepClosesPassAt(s: seq<Sample>)
    requires FallsAt(s, |s| - 1)
    ensures Step(Scan(s[..|s| - 1]), s[|s| - 1]).intercepts
            == Scan(s[..|s| - 1]).intercepts + [PassAt(s, |s| - 1)]
  {
    var st := Scan(s[..|s| - 1]);
    var x := s[|s| - 1];
    OpenRunBeforeFall(s);
    StepCloses(st, x);
    var r := RunStart(s, |s| - 2);
    assert s[r..|s|] == s[r..];
  }

  /** The scan emits exactly the declarative passes. */
  lemma {:induction false} ScanIsPasses(s: seq<Sample>)
    ensures Scan(s).intercepts == Passes(s)
    decreases |s|
  {
    if |s| > 0 {
      var p := s[..|s| - 1];
      ScanIsPasses(p);
      PassesSnoc(s);
      if FallsAt(s, |s| - 1) {
        ClosesPassAt(s);
      } else {
        ScanInvariant(p);
        assert Scan(s).intercepts == Scan(p).intercepts;
      }
    }
  }

  // ---------------------------------------------------------------------------
  // The end of the scan

  /** A sample above the horizon never emits anything: a pass still open when
      the samples run out is dropped, not closed. */
  lemma DropTrailingOpen(s: seq<Sample>, x: Sample)
    requires x.el > 0.0
    ensures Scan(s + [x]).intercepts == Scan(s).intercepts
  {
    assert (s + [x])[..|s|] == s;
  }

  /** When the last sample is above the horizon, the scan ends tracking a run
      that none of the emitted passes contains. */
  lemma TrailingPassDropped(s: seq<Sample>)
    requires Chronological(s)
    requires |s| > 0 && s[|s| - 1].el > 0.0
    ensures Scan(s).visible && Scan(s).points != []
    ensures forall k :: 0 <= k < |Scan(s).intercepts| ==>
              Scan(s).intercepts[k].endTime < Scan(s).points[0].time
  {
    ScanInvariant(s);
    ScanIsPasses(s);
    TrailingRunInNoPass(s);
  }

  /** An all-negative elevation stream yields no pass. */
  lemma ScanBelowHorizon(s: seq<Sample>)
    requires forall i :: 0 <= i < |s| ==> s[i].el <= 0.0
    ensures Scan(s).intercepts == [] && !Scan(s).visible
  {
    ScanIsPasses(s);
    NoPassesBelowHorizon(s);
    ScanInvariant(s);
  }

  // ---------------------------------------------------------------------------
  // Concrete streams, one sample per minute

  /** Scanning one more sample of a prefix is one more step. */
  lemma ScanPrefixStep(s: seq<Sample>, k: nat)
    requires 0 < k <= |s|
    ensures Scan(s[..k]) == Step(Scan(s[..k - 1]), s[k - 1])
  {
    assert s[..k][..k - 1] == s[..k - 1];
  }

  /** Elevations -5, -1, 2, 10, 15, 8, -3 at minutes 0 to 6. */
  const OnePassStream: seq<Sample> :=
    [Sample(0, 10.0, -5.0), Sample(1, 20.0, -1.0), Sample(2, 30.0, 2.0), Sample(3, 40.0, 10.0),
     Sample(4, 50.0, 15.0), Sample(5, 60.0, 8.0), Sample(6, 70.0, -3.0)]

  /** The stream yields one pass from minute 2 to minute 6, closed by the
      sample at minute 6 and peaking at minute 4. */
  lemma OnePassScenario()
    ensures Scan(OnePassStream).intercepts
            == [Window(2, 30.0, 6, 70.0, OnePassStream[2..], OnePassStream[4])]
  {
    var s := OnePassStream;
    OnePassRising();
    var pts := [s[2], s[3], s[4], s[5], s[6]];
    ScanPrefixStep(s, 7);
    assert [s[2], s[3], s[4], s[5]] + [s[6]] == pts;
    OnePassPeak();
    assert pts == s[2..] && s[..7] == s;
  }

  /** Up to minute 5 the scanner tracks the pass that rose at minute 2. */
  lemma OnePassRising()
    ensures var s := OnePassStream;
            Scan(s[..6]) == ScanState(true, 2, 30.0, [s[2], s[3], s[4], s[5]], [])
  {
    var s := OnePassStream;
    assert Scan(s[..2]) == Initial by {
      ScanPrefixStep(s, 1);
      ScanPrefixStep(s, 2);
    }
    assert Scan(s[..3]) == ScanState(true, 2, 30.0, [s[2]], []) by {
      ScanPrefixStep(s, 3);
    }
    ScanPrefixStep(s, 4);
    ScanPrefixStep(s, 5);
    ScanPrefixStep(s, 6);
  }

  /** The peak of that pass is its third sample, minute 4. */
  lemma OnePassPeak()
    ensures var s := OnePassStream;
            MaxAltIndex([s[2], s[3], s[4], s[5], s[6]]) == 2
  {
    var s := OnePassStream;
    assert [s[2], s[3]][..1] == [s[2]];
    assert MaxAltIndex([s[2], s[3]]) == 1;
    assert [s[2], s[3], s[4]][..2] == [s[2], s[3]];
    assert MaxAltIndex([s[2], s[3], s[4]]) == 2;
    assert [s[2], s[3], s[4], s[5]][..3] == [s[2], s[3], s[4]];
    assert MaxAltIndex([s[2], s[3], s[4], s[5]]) == 2;
    assert [s[2], s[3], s[4], s[5], s[6]][..4] == [s[2], s[3], s[4], s[5]];
  }

  /** Elevations -1, 5, 7: the stream ends during a pass, which is dropped. */
  lemma EndsAboveHorizonScenario()
    ensures Scan([Sample(0, 10.0, -1.0), Sample(1, 20.0, 5.0), Sample(2, 30.0, 7.0)]).intercepts == []
  {
    var s := [Sample(0, 10.0, -1.0), Sample(1, 20.0, 5.0), Sample(2, 30.0, 7.0)];
    ScanPrefixStep(s, 1);
    ScanPrefixStep(s, 2);
    ScanPrefixStep(s, 3);
    assert s[..3] == s;
  }
}
