# TinySatTracker pass scanner, modelled in Dafny

TinySatTracker predicts when an orbiting satellite is visible from a ground site.
It samples the satellite's look angles (azimuth and elevation seen from the site)
at regular instants. A scan (`SatTracker.findIntercepts`) then folds that stream
into passes. A pass opens at the first sample above the horizon (elevation > 0).
It grows while the samples stay above. It closes at the first sample at or below
the horizon. That closing sample is kept as the pass's last point and gives its
end time and end azimuth. The pass's peak is the first sample of highest
elevation.

The project models that scan and the site-to-satellite displacement it relies on.

- `sat_vectors.dfy` (module `SatVectors`): `siteSatVec`, the component-wise
  difference of two Earth-fixed positions.
- `passes.dfy` (module `PassSpec`): the sample and pass records. It also gives a
  declarative description of the passes of a stream, by index. A setting index
  `i` has `el[i-1] > 0` and `el[i] <= 0`. Each setting index closes one pass.
  That pass runs from the start of the run above the horizon before `i`, up to
  and including sample `i`. The lemmas about these passes live here too.
- `intercepts.dfy` (module `Intercepts`): the scanner's state machine, written
  two ways. `Step` and `Scan` are a left fold over the samples. The method
  `FindIntercepts` is the source's loop, with the flag `is_visible`, the pass
  record being built, and the output list as local variables. The loop is
  proved to compute the fold. The fold is proved to emit exactly the
  declarative passes. The module also proves the end-of-scan behaviour and
  proves the result for concrete streams.

The look angles are an input: a sequence of samples `(time, az, el)`. Times are
integer ticks, strictly increasing wherever a property needs that. The source's
sample instants come from an `rrule` enumeration, which yields increasing
instants. Azimuth and elevation are Dafny `real`s. The scan only compares
elevations with 0 and with each other.

Behaviour of the code that the model keeps, or that lies outside it:

- A pass still open when the samples run out is dropped, because the pass list
  is appended to only on the falling edge (TinySatTracker.py:131).
  `DropTrailingOpen`, `TrailingPassDropped` and `EndsAboveHorizonScenario` state
  this.
- The error code returned by `sgp4` at TinySatTracker.py:63 is never examined.
  Propagation itself is not part of this model.
- `enuToAzimElev` does not bring azimuth into [0, 360) and has no guard for
  n = e = 0 (TinySatTracker.py:88). The east component at TinySatTracker.py:82
  uses the latitude where the standard ENU rotation uses the longitude. None of
  this enters the model, because the angles are inputs.

`Intercepts.Scan` is the left fold of the loop at TinySatTracker.py:105-131,
built from `Intercepts.Step`. `PassSpec.PassAt` and `PassSpec.Passes` are the
index-based reference definition of the passes that the fold is proved to
produce. These three have no contracts of their own; the lemmas below state
their properties.

## Model

| member | source | states |
|---|---|---|
| SatVectors.SiteSatVec | TinySatTracker.py:45-46 | the site position moved by the result is the satellite position, and no other vector does that |
| PassSpec.MaxAltIndex | TinySatTracker.py:129 | the chosen peak index is in range, no sample is higher, and every earlier sample is strictly lower, so ties go to the first occurrence as with Python's `max` |
| PassSpec.RunStart | TinySatTracker.py:113-123 | a pass's first sample is above the horizon, and so is every sample up to the given one; the sample before it is at or below the horizon, or it is the first sample |
| PassSpec.FallIndices | TinySatTracker.py:124-131 | every listed index is a setting index (the sample before it above the horizon, it at or below), in strictly increasing order |
| PassSpec.FallIndicesComplete | TinySatTracker.py:124-131 | every setting index is listed, so each falling edge closes a pass |
| PassSpec.PassAtWellFormed | TinySatTracker.py:113-131 | the pass closed at a setting index has at least two points; every point but the last is above the horizon and the last is not; its start and end fields come from its first and last points; its peak is the first highest point |
| PassSpec.PassesWellFormed | TinySatTracker.py:113-131 | every pass of a stream has the shape above |
| PassSpec.PassCount | TinySatTracker.py:108-131 | the number of passes equals the number of indices i >= 1 with el[i-1] > 0 and el[i] <= 0 |
| PassSpec.PassContiguous | TinySatTracker.py:108-131 | a pass's points are a contiguous slice of at least two input samples, preceded by a sample at or below the horizon or by nothing |
| PassSpec.PassesChronological | TinySatTracker.py:103-131 | given increasing sample times, each pass's points are strictly increasing in time and it starts before it ends |
| PassSpec.PassesOrdered | TinySatTracker.py:103-131 | given increasing sample times, each pass ends before the next one starts, so passes come in time order and do not overlap |
| PassSpec.NoPassesBelowHorizon | TinySatTracker.py:113-114 | a stream with every elevation <= 0 has no passes |
| PassSpec.TrailingRunInNoPass | TinySatTracker.py:121-131 | when the last sample is above the horizon, every pass ends before the final run above the horizon begins |
| PassSpec.PassesSnoc | TinySatTracker.py:108-131 | one more sample keeps the earlier passes unchanged, and adds one pass exactly when that sample sets |
| Intercepts.Step | TinySatTracker.py:113-131 | after a sample the scanner tracks exactly when that sample is above the horizon; an idle sample at or below the horizon changes no state; the output either stays the same or, on a falling edge only, grows by one pass at its end |
| Intercepts.FindIntercepts | TinySatTracker.py:102-131 | the loop returns exactly the declarative passes of its input: every one well formed, one per setting index |
| Intercepts.ScanInvariant | TinySatTracker.py:106-128 | after each prefix, `is_visible` holds exactly when the last sample is above the horizon; while tracking, the record being built holds the whole current run above the horizon, and its start time and azimuth come from the run's first sample |
| Intercepts.ClosesPassAt | TinySatTracker.py:124-131 | at a setting sample the scan appends exactly the declarative pass closing there |
| Intercepts.ScanIsPasses | TinySatTracker.py:105-131 | the fold's output equals the declarative pass list for every stream |
| Intercepts.DropTrailingOpen | TinySatTracker.py:121-131 | a sample above the horizon never changes the output, so a pass still open at the end is never emitted |
| Intercepts.TrailingPassDropped | TinySatTracker.py:121-131 | when the last sample is above the horizon, the scan ends tracking a non-empty run that starts after every emitted pass has ended |
| Intercepts.ScanBelowHorizon | TinySatTracker.py:113-114 | with every elevation <= 0 the scan emits nothing and ends idle |
| Intercepts.OnePassScenario | TinySatTracker.py:108-131 | elevations -5, -1, 2, 10, 15, 8, -3 at minutes 0 to 6 give exactly one pass: minutes 2 to 6, ending with the closing sample, peak at minute 4 |
| Intercepts.EndsAboveHorizonScenario | TinySatTracker.py:121-131 | elevations -1, 5, 7 give no pass |

## Left out

- TLE retrieval over HTTP in the constructor (TinySatTracker.py:19-28): network I/O.
- SGP4 propagation, the Julian/TDB time conversion and the TEME to ITRF rotation (TinySatTracker.py:57-68): calls into the `sgp4` and `skyfield` libraries.
- Local time to UTC conversion with `pytz` (TinySatTracker.py:50-51), and the `rrule` enumeration of sample instants (TinySatTracker.py:103): replaced by a given sample sequence with integer times.
- `latLonToEcef`, `ecefDispToEnu`, `enuToAzimElev`, `getSatLookAngles` and the degree conversion (TinySatTracker.py:30-43, 72-100): floating-point trigonometry and square roots, which Dafny's reals cannot express. The look angles enter the scan as input instead.
- SatVectors.SiteSatVec: modelled on 3-vectors only. NumPy subtraction also accepts other shapes, but its one caller passes two 3-vectors (TinySatTracker.py:70). The kilometre to metre scaling at that call is outside `siteSatVec`. The coordinates are exact reals, while NumPy's float64 subtraction rounds each component; the two ensures (adding the result back to the site gives the satellite, and no other vector does) describe the ideal difference and need not hold for the rounded one.
- Plotting with matplotlib (TinySatTracker.py:133-149): user interface. The `plot` flag does not affect the returned passes.
- example.py: a demo script that calls the tracker on live data and prints the results. It has no logic of its own.
- Python dictionaries: a pass record is a datatype with fixed fields. Before the first pass opens, `cur` is an empty dictionary; the model gives its fields placeholder values, which are never read while idle. After a pass is emitted, `cur` still refers to the emitted dictionary. The next opening rebinds `cur` to a fresh one, so the emitted pass is never changed afterwards. Values model this without aliasing.
- Floating-point elevations: NaN and infinities do not exist among Dafny reals.
