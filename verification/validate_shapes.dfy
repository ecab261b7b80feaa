/**
 The shape validation loop of `ValidateShapes` (validate.go): per shape, the
 points are sorted by sequence number and scanned once; every point is
 range-checked and sequence-checked, and every point that declares a distance
 drives a small accumulator that compares the declared distances with the ones
 computed from the coordinates.

 Findings are values instead of lines in a report file. The geometry the code
 takes from the UTM library, `math.Sqrt` and the trigonometric distance formulas
 enters as a `Geometry` of opaque functions; the rounding the code applies
 around them is modelled.
 */
module ShapeValidation {
  import opened Wrappers
  import opened Rounding
  import opened ShapeSort

  /** Shortest and longest plausible declared segment, in kilometres. */
  const MinimumSegmentLength: real := 0.001
  const MaximumSegmentLength: real := 1.0
  /** Largest tolerated difference between declared and computed length, in percent. */
  const MaximumLengthVariance: real := 1.0

  /** `inRange`: both bounds inclusive. */
  predicate InRange(min: real, value: real, max: real)
  {
    min <= value && value <= max
  }

  /** A planar (easting, northing) location. */
  datatype Cartesian = Cartesian(x: real, y: real)

  /** A geographic coordinate in degrees. */
  datatype Coord = Coord(lat: real, lon: real)

  /**
   The computations the model does not look inside:
   - utm(lat, lon): easting and northing of `UTM.FromLatLon`; its zone and error are discarded by the caller;
   - norm(dx, dy): `math.Sqrt(dx*dx + dy*dy)`;
   - spherical(a, b): `SphericalDistance(a, b, 4)`, in metres;
   - haversine(a, b): `HaversineFormula(a, b, 4)`, in metres.
   */
  datatype Geometry = Geometry(
    utm: (real, real) -> Cartesian,
    norm: (real, real) -> real,
    spherical: (Coord, Coord) -> real,
    haversine: (Coord, Coord) -> real)

  /** `toLocation(lat, lon, 1)`: the UTM location rounded to one decimal. */
  function ToLocation(geo: Geometry, lat: real, lon: real): Cartesian
  {
    var u := geo.utm(lat, lon);
    Cartesian(ToFixed(u.x, 1), ToFixed(u.y, 1))
  }

  /** `toCoord`: both components rounded to p decimals. */
  function ToCoord(lat: real, lon: real, p: nat): Coord
  {
    Coord(ToFixed(lat, p), ToFixed(lon, p))
  }

  /** `hypotenuse`: the Euclidean length rounded to p decimals. */
  function Hypotenuse(geo: Geometry, dx: real, dy: real, p: nat): real
  {
    ToFixed(geo.norm(dx, dy), p)
  }

  datatype SequenceFault = Duplicate | Missing(difference: int)

  /** Which side of the plausible segment range was left; the source suggests removing or adding points. */
  datatype LengthFault = BelowMinimum | AboveMaximum

  /** One diagnostic of the report, tagged with the sequence number of its point. */
  datatype Finding =
    | LatOutOfRange(sequence: int, lat: real)
    | LonOutOfRange(sequence: int, lon: real)
    | OutOfSequence(sequence: int, fault: SequenceFault)
    | SegmentOutOfRange(sequence: int, length: real, side: LengthFault)
    | SegmentVariance(sequence: int, length: real, planarPercent: real, sphericalPercent: real)
    | DistanceVariance(sequence: int, declared: real, planarPercent: real, sphericalPercent: real)

  /** Findings raised by the distance accumulator, as opposed to the per-point checks. */
  predicate IsDistanceFinding(f: Finding)
  {
    f.SegmentOutOfRange? || f.SegmentVariance? || f.DistanceVariance?
  }

  /** The coordinate range checks, done for every point. */
  function RangeChecks(p: ShapePoint): seq<Finding>
  {
    (if !InRange(-90.0, p.lat, 90.0) then [LatOutOfRange(p.sequence, p.lat)] else [])
    + (if !InRange(-180.0, p.lon, 180.0) then [LonOutOfRange(p.sequence, p.lon)] else [])
  }

  /** A latitude outside [-90, 90] and a longitude outside [-180, 180] are reported, and nothing else. */
  lemma RangeChecksReport(p: ShapePoint)
    ensures LatOutOfRange(p.sequence, p.lat) in RangeChecks(p) <==> !InRange(-90.0, p.lat, 90.0)
    ensures LonOutOfRange(p.sequence, p.lon) in RangeChecks(p) <==> !InRange(-180.0, p.lon, 180.0)
    ensures forall f :: f in RangeChecks(p) ==> f.sequence == p.sequence && (f.LatOutOfRange? || f.LonOutOfRange?)
  {
  }

  /**
   The sequence check against the 0-based position of the point in the sorted
   shape: a point is out of sequence unless its number is its position plus one.
   */
  function SequenceCheck(p: ShapePoint, counter: int): seq<Finding>
  {
    var difference := p.sequence - counter;
    if difference != 1 then
      [OutOfSequence(p.sequence, if difference == 0 then Duplicate else Missing(difference))]
    else
      []
  }

  /**
   At most one sequence finding: a duplicate when the number equals the
   counter, otherwise the difference, whenever the number is not the counter
   plus one.
   */
  lemma SequenceCheckReport(p: ShapePoint, counter: int)
    ensures |SequenceCheck(p, counter)| <= 1
    ensures SequenceCheck(p, counter) != [] <==> p.sequence - counter != 1
    ensures OutOfSequence(p.sequence, Duplicate) in SequenceCheck(p, counter) <==> p.sequence == counter
    ensures forall d :: OutOfSequence(p.sequence, Missing(d)) in SequenceCheck(p, counter) <==>
                          d == p.sequence - counter && d != 0 && d != 1
    ensures forall f :: f in SequenceCheck(p, counter) ==> f.OutOfSequence? && f.sequence == p.sequence
  {
  }

  /** All checks made at one point before the accumulator step. */
  function PointChecks(p: ShapePoint, counter: int): seq<Finding>
  {
    RangeChecks(p) + SequenceCheck(p, counter)
  }

  /**
   The running state of one shape: computed planar and spherical totals, the
   last declared distance, and the location and coordinate the next segment
   starts from. All of it starts as Go's zero values.
   */
  datatype Totals = Totals(
    planar: real,
    spherical: real,
    prevDist: real,
    prevLocation: Cartesian,
    lastCoord: Coord)

  const Initial: Totals := Totals(0.0, 0.0, 0.0, Cartesian(0.0, 0.0), Coord(0.0, 0.0))

  /** What the geometry says about the current point and the segment ending at it, in kilometres. */
  datatype Measures = Measures(
    location: Cartesian,
    coord: Coord,
    planarKm: real,
    sphericalKm: real,
    haversineKm: real)

  /** The measurements the loop body takes at a point. */
  function Measure(t: Totals, p: ShapePoint, geo: Geometry, precision: nat): (m: Measures)
    ensures m.location == ToLocation(geo, p.lat, p.lon)
    ensures m.coord == ToCoord(p.lat, p.lon, 6)
    ensures Abs(m.planarKm - Hypotenuse(geo, t.prevLocation.x - m.location.x, t.prevLocation.y - m.location.y, precision) / 1000.0)
            <= ScaleDown(0.5, 4)
    ensures Abs(m.sphericalKm - geo.spherical(m.coord, t.lastCoord) / 1000.0) <= ScaleDown(0.5, 4)
    ensures Abs(m.haversineKm - geo.haversine(m.coord, t.lastCoord) / 1000.0) <= ScaleDown(0.5, 4)
  {
    var location := ToLocation(geo, p.lat, p.lon);
    var coord := ToCoord(p.lat, p.lon, 6);
    ToKmError(Hypotenuse(geo, t.prevLocation.x - location.x, t.prevLocation.y - location.y, precision), 4);
    ToKmError(geo.spherical(coord, t.lastCoord), 4);
    ToKmError(geo.haversine(coord, t.lastCoord), 4);
    Measures(
      location,
      coord,
      ToKm(Hypotenuse(geo, t.prevLocation.x - location.x, t.prevLocation.y - location.y, precision), 4),
      ToKm(geo.spherical(coord, t.lastCoord), 4),
      ToKm(geo.haversine(coord, t.lastCoord), 4))
  }

  /** The declared length of the segment ending at p, rounded to four decimals. */
  function DeclaredSegment(t: Totals, p: ShapePoint): real
  {
    ToFixed(p.distTraveled - t.prevDist, 4)
  }

  /** The segment range check. */
  function SegmentCheck(sequence: int, segment: real, precision: nat): (r: seq<Finding>)
    ensures |r| <= 1
    ensures r != [] <==> !InRange(MinimumSegmentLength, segment, MaximumSegmentLength)
    ensures SegmentOutOfRange(sequence, ToFixed(segment, precision), BelowMinimum) in r
            <==> segment < MinimumSegmentLength
    ensures SegmentOutOfRange(sequence, ToFixed(segment, precision), AboveMaximum) in r
            <==> segment > MaximumSegmentLength
    ensures forall f :: f in r ==> f.SegmentOutOfRange? && f.sequence == sequence
  {
    if !InRange(MinimumSegmentLength, segment, MaximumSegmentLength) then
      var side := if MinimumSegmentLength > segment then BelowMinimum else AboveMaximum;
      [SegmentOutOfRange(sequence, ToFixed(segment, precision), side)]
    else
      []
  }

  /**
   The two variance checks, each confirmed by both estimators: p1 and p3 are
   the planar and spherical percentages for the segment, p2 and p4 those for
   the cumulative distance. Each finding carries the declared value and its two
   percentages.
   */
  function VarianceChecks(sequence: int, segment: real, declared: real,
                          p1: real, p2: real, p3: real, p4: real): (r: seq<Finding>)
    ensures |r| <= 2
    ensures SegmentVariance(sequence, segment, p1, p3) in r
            <==> Abs(p1) > MaximumLengthVariance && Abs(p3) > MaximumLengthVariance
    ensures DistanceVariance(sequence, declared, p2, p4) in r
            <==> Abs(p2) > MaximumLengthVariance && Abs(p4) > MaximumLengthVariance
    ensures forall f :: f in r && f.SegmentVariance? ==> f == SegmentVariance(sequence, segment, p1, p3)
    ensures forall f :: f in r && f.DistanceVariance? ==> f == DistanceVariance(sequence, declared, p2, p4)
    ensures forall f :: f in r ==> (f.SegmentVariance? || f.DistanceVariance?) && f.sequence == sequence
  {
    (if Abs(p1) > MaximumLengthVariance && Abs(p3) > MaximumLengthVariance
     then [SegmentVariance(sequence, segment, p1, p3)] else [])
    + (if Abs(p2) > MaximumLengthVariance && Abs(p4) > MaximumLengthVariance
       then [DistanceVariance(sequence, declared, p2, p4)] else [])
  }

  datatype StepResult = StepResult(totals: Totals, findings: seq<Finding>)

  /**
   The accumulator step for one point, given its measurements; the lemmas
   below state what it does.
   */
  function Advance(t: Totals, p: ShapePoint, m: Measures, precision: nat): StepResult
  {
    if !p.hasDist then
      StepResult(t, [])
    else if p.sequence == 1 then
      StepResult(Totals(0.0, 0.0, 0.0, m.location, m.coord), [])
    else
      var segment := DeclaredSegment(t, p);
      var planar := t.planar + m.planarKm;
      var spherical := t.spherical + m.sphericalKm;
      var p1 := PercentDiff(segment, m.planarKm, precision);
      var p2 := PercentDiff(p.distTraveled, planar, precision);
      var p3 := PercentDiff(segment, m.sphericalKm, precision);
      var p4 := PercentDiff(p.distTraveled, spherical, precision);
      var findings := SegmentCheck(p.sequence, segment, precision)
                      + VarianceChecks(p.sequence, segment, p.distTraveled, p1, p2, p3, p4);
      StepResult(Totals(planar, spherical, p.distTraveled, m.location, m.coord), findings)
  }

  /** The step only reports distance findings, and only about its own point. */
  lemma AdvanceFindingKinds(t: Totals, p: ShapePoint, m: Measures, precision: nat)
    ensures forall f :: f in Advance(t, p, m, precision).findings ==>
      f.sequence == p.sequence && IsDistanceFinding(f)
  {
  }

  /** A point without a declared distance leaves the accumulator alone and reports nothing. */
  lemma AdvanceWithoutDistance(t: Totals, p: ShapePoint, m: Measures, precision: nat)
    requires !p.hasDist
    ensures Advance(t, p, m, precision) == StepResult(t, [])
  {
  }

  /**
   A point numbered 1 restarts the totals AND the previous declared distance at
   0 (not at its own distance), starts the next segment at itself, and reports
   nothing.
   */
  lemma AdvanceRestart(t: Totals, p: ShapePoint, m: Measures, precision: nat)
    requires p.hasDist && p.sequence == 1
    ensures Advance(t, p, m, precision).totals == Totals(0.0, 0.0, 0.0, m.location, m.coord)
    ensures Advance(t, p, m, precision).findings == []
  {
  }

  /**
   Any other point with a declared distance adds exactly its planar and
   spherical segment lengths to the totals and becomes the start of the next
   segment.
   */
  lemma AdvanceAccumulates(t: Totals, p: ShapePoint, m: Measures, precision: nat)
    requires p.hasDist && p.sequence != 1
    ensures var r := Advance(t, p, m, precision).totals;
      && r.planar == t.planar + m.planarKm
      && r.spherical == t.spherical + m.sphericalKm
      && r.prevDist == p.distTraveled
      && r.prevLocation == m.location
      && r.lastCoord == m.coord
  {
  }

  /**
   The segment range finding appears exactly when the declared segment leaves
   [0.001, 1.0], and it names exactly one side.
   */
  lemma AdvanceSegmentRange(t: Totals, p: ShapePoint, m: Measures, precision: nat)
    requires p.hasDist && p.sequence != 1
    ensures var r := Advance(t, p, m, precision).findings;
      var segment := DeclaredSegment(t, p);
      && ((exists f :: f in r && f.SegmentOutOfRange?)
          <==> !InRange(MinimumSegmentLength, segment, MaximumSegmentLength))
      && (SegmentOutOfRange(p.sequence, ToFixed(segment, precision), BelowMinimum) in r
          <==> segment < MinimumSegmentLength)
      && (SegmentOutOfRange(p.sequence, ToFixed(segment, precision), AboveMaximum) in r
          <==> segment > MaximumSegmentLength)
  {
    var segment := DeclaredSegment(t, p);
    var r := Advance(t, p, m, precision).findings;
    var checked := SegmentCheck(p.sequence, segment, precision);
    assert r == checked + r[|checked|..];
    if checked != [] {
      assert checked[0] in r;
    }
  }

  /**
   A variance is reported only when the planar AND the spherical estimate both
   differ from the declared value by strictly more than the threshold; for the
   segment, and separately for the cumulative distance. The segment finding
   carries the declared segment with its planar and spherical percentages, the
   distance finding the declared distance with the percentages of the totals.
   */
  lemma AdvanceVariance(t: Totals, p: ShapePoint, m: Measures, precision: nat)
    requires p.hasDist && p.sequence != 1
    ensures var r := Advance(t, p, m, precision).findings;
      var segment := DeclaredSegment(t, p);
      var p1 := PercentDiff(segment, m.planarKm, precision);
      var p2 := PercentDiff(p.distTraveled, t.planar + m.planarKm, precision);
      var p3 := PercentDiff(segment, m.sphericalKm, precision);
      var p4 := PercentDiff(p.distTraveled, t.spherical + m.sphericalKm, precision);
      && (SegmentVariance(p.sequence, segment, p1, p3) in r
          <==> Abs(p1) > MaximumLengthVariance && Abs(p3) > MaximumLengthVariance)
      && (DistanceVariance(p.sequence, p.distTraveled, p2, p4) in r
          <==> Abs(p2) > MaximumLengthVariance && Abs(p4) > MaximumLengthVariance)
      && (forall f :: f in r && f.SegmentVariance? ==> f == SegmentVariance(p.sequence, segment, p1, p3))
      && (forall f :: f in r && f.DistanceVariance? ==> f == DistanceVariance(p.sequence, p.distTraveled, p2, p4))
  {
    var segment := DeclaredSegment(t, p);
    var p1 := PercentDiff(segment, m.planarKm, precision);
    var p2 := PercentDiff(p.distTraveled, t.planar + m.planarKm, precision);
    var p3 := PercentDiff(segment, m.sphericalKm, precision);
    var p4 := PercentDiff(p.distTraveled, t.spherical + m.sphericalKm, precision);
    var range := SegmentCheck(p.sequence, segment, precision);
    var variance := VarianceChecks(p.sequence, segment, p.distTraveled, p1, p2, p3, p4);
    assert Advance(t, p, m, precision).findings == range + variance;
  }

  /** The Haversine estimate has no influence on the step. */
  lemma AdvanceIgnoresHaversine(t: Totals, p: ShapePoint, m: Measures, h: real, precision: nat)
    ensures Advance(t, p, m.(haversineKm := h), precision) == Advance(t, p, m, precision)
  {
  }

  /** One step of the loop body: measure, then advance. */
  function Step(t: Totals, p: ShapePoint, geo: Geometry, precision: nat): StepResult
  {
    Advance(t, p, Measure(t, p, geo, precision), precision)
  }

  /**
   What one iteration does to the accumulator, with the distance findings it
   adds. The scan is stated over any such function; `LoopBody` is the one the
   source runs.
   */
  type Stepper = (Totals, ShapePoint) -> StepResult

  function LoopBody(geo: Geometry, precision: nat): Stepper
  {
    (t: Totals, p: ShapePoint) => Step(t, p, geo, precision)
  }

  /** The accumulator after the first k points of a sorted shape. */
  function StateBefore(points: seq<ShapePoint>, k: nat, step: Stepper): Totals
    requires k <= |points|
  {
    if k == 0 then Initial
    else step(StateBefore(points, k - 1, step), points[k - 1]).totals
  }

  /** Everything reported at the point at 0-based position k, whose counter value is k. */
  function FindingsAt(points: seq<ShapePoint>, k: nat, step: Stepper): seq<Finding>
    requires k < |points|
  {
    PointChecks(points[k], k) + step(StateBefore(points, k, step), points[k]).findings
  }

  /** The report of the first n points, in scan order. */
  function ShapeFindings(points: seq<ShapePoint>, n: nat, step: Stepper): seq<Finding>
    requires n <= |points|
  {
    if n == 0 then [] else ShapeFindings(points, n - 1, step) + FindingsAt(points, n - 1, step)
  }

  /** The fold grows by one point: one step, and the point's checks followed by the step's findings. */
  lemma ScanStep(points: seq<ShapePoint>, k: nat, step: Stepper)
    requires k < |points|
    ensures StateBefore(points, k + 1, step) == step(StateBefore(points, k, step), points[k]).totals
    ensures ShapeFindings(points, k + 1, step)
            == ShapeFindings(points, k, step)
               + (PointChecks(points[k], k) + step(StateBefore(points, k, step), points[k]).findings)
  {
  }

  /** A finding is in the report of the first n points exactly when one of those points raised it. */
  lemma {:induction false} ShapeFindingsMembership(points: seq<ShapePoint>, n: nat, step: Stepper, f: Finding)
    requires n <= |points|
    ensures f in ShapeFindings(points, n, step)
            <==> exists k :: 0 <= k < n && f in FindingsAt(points, k, step)
  {
    if n > 0 {
      ShapeFindingsMembership(points, n - 1, step, f);
      var before, last := ShapeFindings(points, n - 1, step), FindingsAt(points, n - 1, step);
      assert ShapeFindings(points, n, step) == before + last;
      if f in before {
        var k :| 0 <= k < n - 1 && f in FindingsAt(points, k, step);
        assert 0 <= k < n && f in FindingsAt(points, k, step);
      } else if f in last {
        assert 0 <= n - 1 < n && f in FindingsAt(points, n - 1, step);
      } else {
        forall k | 0 <= k < n
          ensures f !in FindingsAt(points, k, step)
        {
          if k == n - 1 {
            assert FindingsAt(points, k, step) == last;
          }
        }
      }
    }
  }

  /** The position of the last point before position k that declares a distance, if any. */
  function LastWithDistance(points: seq<ShapePoint>, k: nat): (r: Option<nat>)
    requires k <= |points|
    ensures r.Some? ==> r.value < k && points[r.value].hasDist
    ensures r.Some? ==> forall j :: r.value < j < k ==> !points[j].hasDist
    ensures r.None? ==> forall j :: 0 <= j < k ==> !points[j].hasDist
  {
    if k == 0 then None
    else if points[k - 1].hasDist then Some(k - 1)
    else LastWithDistance(points, k - 1)
  }

  /**
   Before position k the accumulator is still Go's zero value if no earlier
   point declared a distance; otherwise the next segment starts at the last
   such point, and the previous declared distance is that point's, or 0 when
   that point was numbered 1.
   */
  lemma {:induction false} StateTracksLastDistance(points: seq<ShapePoint>, k: nat, geo: Geometry, precision: nat)
    requires k <= |points|
    ensures LastWithDistance(points, k).None? ==> StateBefore(points, k, LoopBody(geo, precision)) == Initial
    ensures LastWithDistance(points, k).Some? ==>
      var q := points[LastWithDistance(points, k).value];
      var t := StateBefore(points, k, LoopBody(geo, precision));
      && t.prevLocation == ToLocation(geo, q.lat, q.lon)
      && t.lastCoord == ToCoord(q.lat, q.lon, 6)
      && t.prevDist == (if q.sequence == 1 then 0.0 else q.distTraveled)
  {
    if k > 0 {
      StateTracksLastDistance(points, k - 1, geo, precision);
      var t := StateBefore(points, k - 1, LoopBody(geo, precision));
      var q := points[k - 1];
      var m := Measure(t, q, geo, precision);
      assert StateBefore(points, k, LoopBody(geo, precision)) == Advance(t, q, m, precision).totals;
      if !q.hasDist {
        AdvanceWithoutDistance(t, q, m, precision);
      } else if q.sequence == 1 {
        AdvanceRestart(t, q, m, precision);
      } else {
        AdvanceAccumulates(t, q, m, precision);
      }
    }
  }

  /**
   Every finding names the point that raised it, and distance findings come
   only from points that declare a distance and are not numbered 1.
   */
  lemma FindingsAtOrigin(points: seq<ShapePoint>, k: nat, geo: Geometry, precision: nat, f: Finding)
    requires k < |points|
    requires f in FindingsAt(points, k, LoopBody(geo, precision))
    ensures f.sequence == points[k].sequence
    ensures IsDistanceFinding(f) ==> points[k].hasDist && points[k].sequence != 1
    ensures f.OutOfSequence? ==> f in SequenceCheck(points[k], k)
  {
    var t := StateBefore(points, k, LoopBody(geo, precision));
    var q := points[k];
    var m := Measure(t, q, geo, precision);
    var r := Advance(t, q, m, precision);
    assert FindingsAt(points, k, LoopBody(geo, precision)) == RangeChecks(q) + SequenceCheck(q, k) + r.findings;
    RangeChecksReport(q);
    SequenceCheckReport(q, k);
    AdvanceFindingKinds(t, q, m, precision);
    if !q.hasDist {
      AdvanceWithoutDistance(t, q, m, precision);
    } else if q.sequence == 1 {
      AdvanceRestart(t, q, m, precision);
    }
  }

  /** A shape none of whose points declares a distance gets no distance findings at all. */
  lemma NoDistanceFindingsWithoutDistances(points: seq<ShapePoint>, geo: Geometry, precision: nat)
    requires forall j :: 0 <= j < |points| ==> !points[j].hasDist
    ensures forall f :: f in ShapeFindings(points, |points|, LoopBody(geo, precision)) ==> !IsDistanceFinding(f)
  {
    var step := LoopBody(geo, precision);
    forall f | f in ShapeFindings(points, |points|, step)
      ensures !IsDistanceFinding(f)
    {
      ShapeFindingsMembership(points, |points|, step, f);
      var k :| 0 <= k < |points| && f in FindingsAt(points, k, step);
      FindingsAtOrigin(points, k, geo, precision, f);
    }
  }

  /**
   A sorted shape is reported out of sequence exactly when some point's number
   is not its 1-based position.
   */
  lemma SequenceFindingsExactlyWhenMisnumbered(points: seq<ShapePoint>, geo: Geometry, precision: nat)
    ensures (exists f :: f in ShapeFindings(points, |points|, LoopBody(geo, precision)) && f.OutOfSequence?)
            <==> exists k :: 0 <= k < |points| && points[k].sequence != k + 1
  {
    var step := LoopBody(geo, precision);
    if exists k :: 0 <= k < |points| && points[k].sequence != k + 1 {
      var k :| 0 <= k < |points| && points[k].sequence != k + 1;
      var c := SequenceCheck(points[k], k);
      SequenceCheckReport(points[k], k);
      assert FindingsAt(points, k, step) == RangeChecks(points[k]) + c + step(StateBefore(points, k, step), points[k]).findings;
      assert c[0] in FindingsAt(points, k, step);
      ShapeFindingsMembership(points, |points|, step, c[0]);
    }
    if exists f :: f in ShapeFindings(points, |points|, step) && f.OutOfSequence? {
      var f :| f in ShapeFindings(points, |points|, step) && f.OutOfSequence?;
      ShapeFindingsMembership(points, |points|, step, f);
      var k :| 0 <= k < |points| && f in FindingsAt(points, k, step);
      FindingsAtOrigin(points, k, geo, precision, f);
    }
  }

  /** However the unstable sort orders equal numbers, every position gets the same sequence check. */
  lemma SequenceChecksIndependentOfSortOrder(a: seq<ShapePoint>, b: seq<ShapePoint>, input: seq<ShapePoint>)
    requires IsSortOf(a, input) && IsSortOf(b, input)
    ensures |a| == |b|
    ensures forall k :: 0 <= k < |a| ==> SequenceCheck(a[k], k) == SequenceCheck(b[k], k)
  {
    SortsAgreeOnSequence(a, b, input);
  }

  /** Steps that agree on every input fold to the same accumulator. */
  lemma {:induction false} StatesOfAgreeingSteps(points: seq<ShapePoint>, n: nat, a: Stepper, b: Stepper)
    requires n <= |points|
    requires forall t, p :: a(t, p) == b(t, p)
    ensures StateBefore(points, n, a) == StateBefore(points, n, b)
  {
    if n > 0 {
      StatesOfAgreeingSteps(points, n - 1, a, b);
    }
  }

  /** Steps that agree on every input give the same report. */
  lemma {:induction false} FindingsOfAgreeingSteps(points: seq<ShapePoint>, n: nat, a: Stepper, b: Stepper)
    requires n <= |points|
    requires forall t, p :: a(t, p) == b(t, p)
    ensures ShapeFindings(points, n, a) == ShapeFindings(points, n, b)
  {
    if n > 0 {
      FindingsOfAgreeingSteps(points, n - 1, a, b);
      StatesOfAgreeingSteps(points, n - 1, a, b);
      ScanStep(points, n - 1, a);
      ScanStep(points, n - 1, b);
      var t := StateBefore(points, n - 1, a);
      assert a(t, points[n - 1]) == b(t, points[n - 1]);
    }
  }

  /** The Haversine estimate does not influence a step. */
  lemma StepIgnoresHaversine(t: Totals, p: ShapePoint, geo: Geometry, h: (Coord, Coord) -> real, precision: nat)
    ensures Step(t, p, geo.(haversine := h), precision) == Step(t, p, geo, precision)
  {
    var m := Measure(t, p, geo, precision);
    var k := ToKm(h(m.coord, t.lastCoord), 4);
    assert Measure(t, p, geo.(haversine := h), precision) == m.(haversineKm := k);
    AdvanceIgnoresHaversine(t, p, m, k, precision);
  }

  /** The Haversine estimate never reaches the report. */
  lemma HaversineIrrelevant(points: seq<ShapePoint>, geo: Geometry, h: (Coord, Coord) -> real, precision: nat)
    ensures ShapeFindings(points, |points|, LoopBody(geo, precision))
            == ShapeFindings(points, |points|, LoopBody(geo.(haversine := h), precision))
  {
    var a, b := LoopBody(geo, precision), LoopBody(geo.(haversine := h), precision);
    forall t, p
      ensures a(t, p) == b(t, p)
    {
      StepIgnoresHaversine(t, p, geo, h, precision);
    }
    FindingsOfAgreeingSteps(points, |points|, a, b);
  }

  /** A point inside both coordinate ranges, numbered s, without a declared distance. */
  function PlainPoint(s: int): ShapePoint
  {
    ShapePoint(49.0, -123.0, s, false, 0.0)
  }

  /** Points without distances add nothing beyond the point checks. */
  lemma PlainFindings(points: seq<ShapePoint>, k: nat, geo: Geometry, precision: nat)
    requires k < |points| && !points[k].hasDist
    ensures FindingsAt(points, k, LoopBody(geo, precision)) == PointChecks(points[k], k)
  {
    var t := StateBefore(points, k, LoopBody(geo, precision));
    AdvanceWithoutDistance(t, points[k], Measure(t, points[k], geo, precision), precision);
  }

  /**
   Numbers 1, 2, 2, 4: the counter is the position, so only the repeated 2 is
   reported; the skipped 3 is not, because 4 sits at position 3.
   */
  lemma DuplicateHidesGap(geo: Geometry, precision: nat)
    ensures ShapeFindings([PlainPoint(1), PlainPoint(2), PlainPoint(2), PlainPoint(4)], 4, LoopBody(geo, precision))
            == [OutOfSequence(2, Duplicate)]
  {
    var points := [PlainPoint(1), PlainPoint(2), PlainPoint(2), PlainPoint(4)];
    var step := LoopBody(geo, precision);
    PlainFindings(points, 0, geo, precision);
    PlainFindings(points, 1, geo, precision);
    PlainFindings(points, 2, geo, precision);
    PlainFindings(points, 3, geo, precision);
    assert ShapeFindings(points, 2, step) == [];
    assert ShapeFindings(points, 3, step) == [OutOfSequence(2, Duplicate)];
  }

  /**
   Numbers 1, 3, 4: the gap is reported at the 3 and again at every later
   point, since the counter never catches up.
   */
  lemma GapReportedAtEveryLaterPoint(geo: Geometry, precision: nat)
    ensures ShapeFindings([PlainPoint(1), PlainPoint(3), PlainPoint(4)], 3, LoopBody(geo, precision))
            == [OutOfSequence(3, Missing(2)), OutOfSequence(4, Missing(2))]
  {
    var points := [PlainPoint(1), PlainPoint(3), PlainPoint(4)];
    var step := LoopBody(geo, precision);
    PlainFindings(points, 0, geo, precision);
    PlainFindings(points, 1, geo, precision);
    PlainFindings(points, 2, geo, precision);
    assert ShapeFindings(points, 2, step) == [OutOfSequence(3, Missing(2))];
  }

  /**
   A shape whose only point is numbered 2 and declares 5 km: its segment is
   measured from the zero state, so it is reported too long as well as out of
   sequence.
   */
  lemma LonePointMeasuredFromZero(geo: Geometry, precision: nat)
    ensures var r := ShapeFindings([ShapePoint(49.0, -123.0, 2, true, 5.0)], 1, LoopBody(geo, precision));
      && OutOfSequence(2, Missing(2)) in r
      && SegmentOutOfRange(2, ToFixed(5.0, precision), AboveMaximum) in r
  {
    var q := ShapePoint(49.0, -123.0, 2, true, 5.0);
    var points := [q];
    assert ToFixed(5.0, 4) == 5.0 by {
      ScaleInverse(5.0, 4);
      RoundInteger(50000);
      ScaleProduct(5.0, 4);
    }
    assert DeclaredSegment(Initial, q) == 5.0;
    var m := Measure(Initial, q, geo, precision);
    AdvanceSegmentRange(Initial, q, m, precision);
    assert FindingsAt(points, 0, LoopBody(geo, precision))
           == PointChecks(q, 0) + Advance(Initial, q, m, precision).findings;
  }

  /** `sort.Sort(BySequence(points))`. */
  method SortBySequence(points: seq<ShapePoint>) returns (sorted: seq<ShapePoint>)
    ensures IsSortOf(sorted, points)
  {
    sorted := InsertionSort(points);
  }

  /**
   The scan of one sorted shape, as the Go loop does it: a counter from 0 and
   accumulator state threaded through the points by the step.
   */
  method ScanShape(points: seq<ShapePoint>, step: Stepper) returns (found: seq<Finding>)
    ensures found == ShapeFindings(points, |points|, step)
  {
    found := [];
    var totals := Initial;
    var sequenceNumber := 0;
    while sequenceNumber < |points|
      invariant sequenceNumber <= |points|
      invariant totals == StateBefore(points, sequenceNumber, step)
      invariant found == ShapeFindings(points, sequenceNumber, step)
    {
      var point := points[sequenceNumber];
      var result := step(totals, point);
      ScanStep(points, sequenceNumber, step);
      found := found + (PointChecks(point, sequenceNumber) + result.findings);
      totals := result.totals;
      sequenceNumber := sequenceNumber + 1;
    }
  }

  /** The report of one shape: its identifier, its points as sorted, and its findings. */
  datatype ShapeReport = ShapeReport(id: string, points: seq<ShapePoint>, findings: seq<Finding>)

  /**
   The loop over the shapes of a feed, in the order given. Each shape is sorted
   and scanned on its own, with fresh accumulator state.
   */
  method ScanShapes(shapes: seq<Shape>, step: Stepper) returns (reports: seq<ShapeReport>)
    ensures |reports| == |shapes|
    ensures forall i :: 0 <= i < |shapes| ==>
      && reports[i].id == shapes[i].id
      && IsSortOf(reports[i].points, shapes[i].points)
      && reports[i].findings == ShapeFindings(reports[i].points, |reports[i].points|, step)
  {
    reports := [];
    for i := 0 to |shapes|
      invariant |reports| == i
      invariant forall j :: 0 <= j < i ==>
        && reports[j].id == shapes[j].id
        && IsSortOf(reports[j].points, shapes[j].points)
        && reports[j].findings == ShapeFindings(reports[j].points, |reports[j].points|, step)
    {
      var sorted := SortBySequence(shapes[i].points);
      var findings := ScanShape(sorted, step);
      reports := reports + [ShapeReport(shapes[i].id, sorted, findings)];
    }
  }

  /** `ValidateShapes`: the loop over the shapes with the source's loop body. */
  method ValidateShapes(shapes: seq<Shape>, geo: Geometry, precision: nat) returns (reports: seq<ShapeReport>)
    ensures |reports| == |shapes|
    ensures forall i :: 0 <= i < |shapes| ==>
      && reports[i].id == shapes[i].id
      && IsSortOf(reports[i].points, shapes[i].points)
      && reports[i].findings == ShapeFindings(reports[i].points, |reports[i].points|, LoopBody(geo, precision))
  {
    reports := ScanShapes(shapes, LoopBody(geo, precision));
  }
}
