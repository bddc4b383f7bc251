/** A declarative description of the passes found in a chronological stream of
    look-angle samples: where each pass begins and ends is read off the
    elevations by index, without running the scanner's state machine. */
module PassSpec {

  /** One look-angle sample: the instant as an integer tick, azimuth and
      elevation in degrees. */
  datatype Sample = Sample(time: int, az: real, el: real)

  /** A closed pass: where it starts and ends, every sample taken during it
      (the last one being the first sample back at or below the horizon), and
      the sample of highest elevation. */
  datatype Window = Window(startTime: int, startAzim: real, endTime: int, endAzim: real,
                           points: seq<Sample>, maxAlt: Sample)

  /** Index of the sample of maximal elevation, the earliest one on a tie:
      the samples are visited in order and the best one is replaced only by a
      strictly higher one. */
  function MaxAltIndex(ps: seq<Sample>): (k: nat)
    requires |ps| > 0
    ensures k < |ps|
    ensures forall j :: 0 <= j < |ps| ==> ps[j].el <= ps[k].el
    ensures forall j :: 0 <= j < k ==> ps[j].el < ps[k].el
    decreases |ps|
  {
    if |ps| == 1 then 0
    else
      var k := MaxAltIndex(ps[..|ps| - 1]);
      if ps[|ps| - 1].el > ps[k].el then |ps| - 1 else k
  }

  /** m is the earliest sample of ps whose elevation no sample of ps exceeds. */
  ghost predicate IsFirstMax(ps: seq<Sample>, m: Sample) {
    exists k :: 0 <= k < |ps| && ps[k] == m
      && (forall j :: 0 <= j < |ps| ==> ps[j].el <= m.el)
      && (forall j :: 0 <= j < k ==> ps[j].el < m.el)
  }

  /** The shape every emitted pass has. */
  ghost predicate WellFormedWindow(w: Window) {
    var n := |w.points|;
    n >= 2
    && (forall i :: 0 <= i < n - 1 ==> w.points[i].el > 0.0)
    && w.points[n - 1].el <= 0.0
    && w.startTime == w.points[0].time && w.startAzim == w.points[0].az
    && w.endTime == w.points[n - 1].time && w.endAzim == w.points[n - 1].az
    && IsFirstMax(w.points, w.maxAlt)
  }

  /** Sample instants strictly increase along ps (a whole stream, or the
      points of one pass). */
  ghost predicate Chronological(ps: seq<Sample>) {
    forall i, j :: 0 <= i < j < |ps| ==> ps[i].time < ps[j].time
  }

  /** Sample i sets: the one before it is above the horizon, it is not. */
  predicate FallsAt(s: seq<Sample>, i: int) {
    0 < i < |s| && s[i - 1].el > 0.0 && s[i].el <= 0.0
  }

  /** All setting indices, as a set. */
  ghost function FallSet(s: seq<Sample>): set<int> {
    set i | 0 < i < |s| && FallsAt(s, i)
  }

  /** The first index of the run of samples above the horizon that contains j. */
  function RunStart(s: seq<Sample>, j: nat): (r: nat)
    requires j < |s| && s[j].el > 0.0
    ensures r <= j && (r == 0 || s[r - 1].el <= 0.0)
    ensures forall k :: r <= k <= j ==> s[k].el > 0.0
    decreases j
  {
    if j == 0 || s[j - 1].el <= 0.0 then j else RunStart(s, j - 1)
  }

  /** The setting indices in increasing order. */
  function FallIndices(s: seq<Sample>): (f: seq<nat>)
    ensures forall k :: 0 <= k < |f| ==> FallsAt(s, f[k])
    ensures forall k :: 0 < k < |f| ==> f[k - 1] < f[k]
    decreases |s|
  {
    if |s| == 0 then []
    else
      var p := s[..|s| - 1];
      var f := FallIndices(p);
      assert forall i :: FallsAt(p, i) ==> FallsAt(s, i);
      f + (if FallsAt(s, |s| - 1) then [|s| - 1] else [])
  }

  /** Every setting index is listed. */
  lemma {:induction false} FallIndicesComplete(s: seq<Sample>, i: int)
    requires FallsAt(s, i)
    ensures i in FallIndices(s)
    decreases |s|
  {
    if i < |s| - 1 {
      var p := s[..|s| - 1];
      assert FallsAt(p, i);
      FallIndicesComplete(p, i);
    }
  }

  /** The pass that closes at setting index f: it runs from the start of the
      visible run just before f up to and including sample f. */
  function PassAt(s: seq<Sample>, f: nat): Window
    requires FallsAt(s, f)
  {
    var r := RunStart(s, f - 1);
    var pts := s[r..f + 1];
    Window(s[r].time, s[r].az, s[f].time, s[f].az, pts, pts[MaxAltIndex(pts)])
  }

  /** The pass closing at a setting index has the shape of an emitted pass. */
  lemma PassAtWellFormed(s: seq<Sample>, f: nat)
    requires FallsAt(s, f)
    ensures WellFormedWindow(PassAt(s, f))
  {
    var r := RunStart(s, f - 1);
    var pts := s[r..f + 1];
    assert forall i :: 0 <= i < |pts| ==> pts[i] == s[r + i];
    assert IsFirstMax(pts, pts[MaxAltIndex(pts)]);
  }

  /** Every pass of the stream, in the order of their setting instants. */
  function Passes(s: seq<Sample>): seq<Window> {
    var f := FallIndices(s);
    seq(|f|, k requires 0 <= k < |f| => PassAt(s, f[k]))
  }

  // ---------------------------------------------------------------------------
  // Properties of the passes

  /** Every pass has at least two samples, all above the horizon but the last,
      its start and end fields taken from its first and last samples, and its
      peak the earliest highest sample. */
  lemma PassesWellFormed(s: seq<Sample>)
    ensures forall w :: w in Passes(s) ==> WellFormedWindow(w)
  {
    forall w | w in Passes(s) ensures WellFormedWindow(w) {
      var k :| 0 <= k < |Passes(s)| && Passes(s)[k] == w;
      PassAtWellFormed(s, FallIndices(s)[k]);
    }
  }

  /** There are as many passes as indices whose sample sets. */
  lemma {:induction false} PassCount(s: seq<Sample>)
    ensures |Passes(s)| == |FallSet(s)|
    decreases |s|
  {
    if |s| > 0 {
      var p := s[..|s| - 1];
      PassCount(p);
      FallSetSnoc(s);
      assert |Passes(s)| == |FallIndices(s)| == |FallIndices(p)| + (if FallsAt(s, |s| - 1) then 1 else 0);
    }
  }

  /** One more sample adds its own index to the setting indices exactly when it sets. */
  lemma FallSetSnoc(s: seq<Sample>)
    requires |s| > 0
    ensures FallSet(s) == FallSet(s[..|s| - 1]) + (if FallsAt(s, |s| - 1) then {|s| - 1} else {})
    ensures |s| - 1 !in FallSet(s[..|s| - 1])
  {
    var p := s[..|s| - 1];
    forall i | 0 < i < |s| - 1 ensures FallsAt(s, i) == FallsAt(p, i) {
      assert s[i - 1] == p[i - 1] && s[i] == p[i];
    }
  }

  /** The samples of a pass are a contiguous slice of the stream, beginning
      right after a sample at or below the horizon (or at the very first one). */
  lemma PassContiguous(s: seq<Sample>, k: nat)
    requires k < |Passes(s)|
    ensures exists a, b :: 0 <= a && a + 2 <= b <= |s| && Passes(s)[k].points == s[a..b]
                           && (a == 0 || s[a - 1].el <= 0.0)
  {
    var f := FallIndices(s)[k];
    var a := RunStart(s, f - 1);
    assert Passes(s)[k].points == s[a..f + 1];
  }

  /** A slice of a chronological stream is chronological. */
  lemma SliceChronological(s: seq<Sample>, a: nat, b: nat)
    requires Chronological(s) && a <= b <= |s|
    ensures Chronological(s[a..b])
  {
    forall i, j | 0 <= i < j < b - a ensures s[a..b][i].time < s[a..b][j].time {
      assert s[a..b][i] == s[a + i] && s[a..b][j] == s[a + j];
    }
  }

  /** Within a pass the samples are in time order, so it starts before it ends. */
  lemma PassesChronological(s: seq<Sample>)
    requires Chronological(s)
    ensures forall k :: 0 <= k < |Passes(s)| ==>
              Chronological(Passes(s)[k].points) && Passes(s)[k].startTime < Passes(s)[k].endTime
  {
    var f := FallIndices(s);
    forall k | 0 <= k < |Passes(s)|
      ensures Chronological(Passes(s)[k].points) && Passes(s)[k].startTime < Passes(s)[k].endTime
    {
      SliceChronological(s, RunStart(s, f[k] - 1), f[k] + 1);
    }
  }

  /** Passes come in time order and do not overlap: each one starts after the
      previous one has ended. */
  lemma PassesOrdered(s: seq<Sample>)
    requires Chronological(s)
    ensures forall k :: 0 <= k < |Passes(s)| - 1 ==> Passes(s)[k].endTime < Passes(s)[k + 1].startTime
  {
    var f := FallIndices(s);
    forall k | 0 <= k < |Passes(s)| - 1
      ensures Passes(s)[k].endTime < Passes(s)[k + 1].startTime
    {
      var r := RunStart(s, f[k + 1] - 1);
      assert f[k] < f[k + 1];
      assert s[f[k]].el <= 0.0;
      assert f[k] < r;
    }
  }

  /** With the target never above the horizon there are no passes. */
  lemma {:induction false} NoPassesBelowHorizon(s: seq<Sample>)
    requires forall i :: 0 <= i < |s| ==> s[i].el <= 0.0
    ensures Passes(s) == []
    decreases |s|
  {
    if |s| > 0 {
      var p := s[..|s| - 1];
      NoPassesBelowHorizon(p);
      assert FallIndices(p) == [];
      assert !FallsAt(s, |s| - 1);
    }
  }

  /** A run still above the horizon when the samples run out belongs to no
      pass: every pass ends before that run begins. */
  lemma TrailingRunInNoPass(s: seq<Sample>)
    requires Chronological(s)
    requires |s| > 0 && s[|s| - 1].el > 0.0
    ensures forall k :: 0 <= k < |Passes(s)| ==> Passes(s)[k].endTime < s[RunStart(s, |s| - 1)].time
  {
    var f := FallIndices(s);
    var r := RunStart(s, |s| - 1);
    forall k | 0 <= k < |Passes(s)| ensures Passes(s)[k].endTime < s[r].time {
      assert s[f[k]].el <= 0.0;
    }
  }

  // ---------------------------------------------------------------------------
  // How the passes of a stream relate to the passes of its prefix

  /** The run start of an index does not depend on later samples. */
  lemma {:induction false} RunStartPrefix(s: seq<Sample>, m: nat, j: nat)
    requires j < m <= |s| && s[j].el > 0.0
    ensures RunStart(s[..m], j) == RunStart(s, j)
    decreases j
  {
    if j > 0 && s[j - 1].el > 0.0 {
      RunStartPrefix(s, m, j - 1);
    }
  }

  /** The pass closing at a setting index does not depend on later samples. */
  lemma PassAtPrefix(s: seq<Sample>, m: nat, f: nat)
    requires m <= |s| && FallsAt(s[..m], f)
    ensures PassAt(s[..m], f) == PassAt(s, f)
  {
    var r := RunStart(s, f - 1);
    RunStartPrefix(s, m, f - 1);
    assert s[..m][r..f + 1] == s[r..f + 1];
  }

  /** One more sample adds a pass exactly when it sets, and leaves the earlier
      passes as they were. */
  lemma PassesSnoc(s: seq<Sample>)
    requires |s| > 0
    ensures Passes(s) == Passes(s[..|s| - 1])
                         + (if FallsAt(s, |s| - 1) then [PassAt(s, |s| - 1)] else [])
  {
    var p := s[..|s| - 1];
    var fp := FallIndices(p);
    var fs := FallIndices(s);
    var extra := if FallsAt(s, |s| - 1) then [PassAt(s, |s| - 1)] else [];
    assert fs == fp + (if FallsAt(s, |s| - 1) then [|s| - 1] else []);
    forall k | 0 <= k < |fs| ensures Passes(s)[k] == (Passes(p) + extra)[k] {
      if k < |fp| {
        EarlierPassKept(s, k);
      } else {
        PassesIndex(s, k);
      }
    }
  }

  /** A pass of the prefix is the pass at the same position of the stream. */
  lemma EarlierPassKept(s: seq<Sample>, k: nat)
    requires |s| > 0 && k < |FallIndices(s[..|s| - 1])|
    ensures k < |Passes(s)| && Passes(s)[k] == Passes(s[..|s| - 1])[k]
  {
    var p := s[..|s| - 1];
    var fp := FallIndices(p);
    assert FallIndices(s)[k] == fp[k];
    PassesIndex(s, k);
    PassesIndex(p, k);
    PassAtPrefix(s, |s| - 1, fp[k]);
  }

  /** Looking up one pass. */
  lemma PassesIndex(s: seq<Sample>, k: nat)
    requires k < |FallIndices(s)|
    ensures |Passes(s)| == |FallIndices(s)| && Passes(s)[k] == PassAt(s, FallIndices(s)[k])
  {
  }
}
