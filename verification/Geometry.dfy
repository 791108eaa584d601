// Points on the globe and the distance the routing engine is built on.
// The trigonometry of `haversineKm` is kept abstract: every member that needs
// a distance takes it as a parameter `km` and assumes only `IsMetric(km)`.
// Distances are taken between points strictly between the poles, where the
// great-circle distance has these properties.
module Geometry {

  datatype Point = LngLat(lon: real, lat: real)

  type LngLat = p: Point | -90.0 < p.lat < 90.0 witness LngLat(0.0, 0.0)

  type Distance = (LngLat, LngLat) -> real

  /** Whole turns in `x` degrees. */
  function Turns(x: real): int {
    (x / 360.0).Floor
  }

  /** JavaScript's `x % 360`: the remainder takes the sign of the dividend. */
  function Rem360(x: real): real {
    if x >= 0.0 then x - Turns(x) as real * 360.0 else x + Turns(-x) as real * 360.0
  }

  /** Longitude normalisation of the cable graph; stitched polylines run past +180. */
  function NormLon(x: real): real {
    Rem360(x + 540.0) - 180.0
  }

  /** The point of the globe that `p` names: longitudes are equal modulo 360. */
  function Place(p: Point): Point {
    LngLat(p.lon - Turns(p.lon + 180.0) as real * 360.0, p.lat)
  }

  /** A turn more or less. */
  lemma TurnsAre(x: real, k: int)
    ensures Turns(x) == k <==> k as real * 360.0 <= x < (k + 1) as real * 360.0
  {
  }

  predicate TurnedBy(x: real, y: real, n: int) {
    y == x + 360.0 * n as real
  }

  /** The canonical longitude is the one from -180 up to 180 that is whole turns away. */
  lemma PlaceIsCanonical(p: Point, x: real, k: int)
    ensures -180.0 <= Place(p).lon < 180.0 && Place(p).lat == p.lat
    ensures -180.0 <= x < 180.0 && TurnedBy(p.lon, x, k) ==> Place(p).lon == x
    ensures exists n: int :: TurnedBy(p.lon, Place(p).lon, n)
  {
    var t := Turns(p.lon + 180.0);
    TurnsAre(p.lon + 180.0, t);
    TurnsAre(p.lon + 180.0, -k);
    assert TurnedBy(p.lon, Place(p).lon, -t);
  }

  /** For every longitude a stitched dataset can hold, normalisation is the canonical wrap. */
  lemma NormLonIsPlace(p: Point)
    requires p.lon >= -540.0
    ensures LngLat(NormLon(p.lon), p.lat) == Place(p)
    ensures -180.0 <= NormLon(p.lon) < 180.0
    ensures NormLon(NormLon(p.lon)) == NormLon(p.lon)
  {
    var k := Turns(p.lon + 540.0);
    TurnsAre(p.lon + 540.0, k);
    TurnsAre(p.lon + 180.0, k - 1);
    TurnsAre(NormLon(p.lon) + 540.0, 1);
  }

  /** Further west the wrap is off by a turn, except at the antimeridian itself. */
  lemma NormLonIsPlaceIff(p: Point)
    ensures LngLat(NormLon(p.lon), p.lat) == Place(p) <==> p.lon >= -540.0 || Rem360(p.lon + 540.0) == 0.0
  {
    if p.lon >= -540.0 {
      NormLonIsPlace(p);
    } else {
      var m := Turns(-(p.lon + 540.0));
      TurnsAre(-(p.lon + 540.0), m);
      TurnsAre(p.lon + 180.0, -m - 1);
      TurnsAre(p.lon + 180.0, -m - 2);
    }
  }

  /** What the routing proofs use of the great-circle distance. */
  ghost predicate IsMetric(km: Distance) {
    && (forall p: LngLat, q: LngLat :: km(p, q) >= 0.0)
    && (forall p: LngLat, q: LngLat :: km(p, q) == km(q, p))
    && (forall p: LngLat, q: LngLat :: km(p, q) == 0.0 <==> Place(p) == Place(q))
    && (forall p: LngLat, q: LngLat, r: LngLat :: Place(p) == Place(q) ==> km(p, r) == km(q, r))
  }

  /** The simplest distance there is: different places are 300 km apart. */
  function Discrete(p: LngLat, q: LngLat): real {
    if Place(p) == Place(q) then 0.0 else 300.0
  }

  lemma DiscreteIsMetric()
    ensures IsMetric(Discrete)
  {
  }

  /** A distance along the axes, 100 km a degree. */
  function Taxi(p: LngLat, q: LngLat): real {
    100.0 * (Apart(Place(p).lon, Place(q).lon) + Apart(p.lat, q.lat))
  }

  function Apart(x: real, y: real): real {
    if x < y then y - x else x - y
  }

  lemma TaxiIsMetric()
    ensures IsMetric(Taxi)
  {
  }

  /** Length of a polyline (`pathLengthKm`). */
  ghost function Length(km: Distance, line: seq<LngLat>): real {
    if |line| < 2 then 0.0 else km(line[0], line[1]) + Length(km, line[1..])
  }

  /** The loop of `pathLengthKm`, which adds the legs from the front. */
  method PathLength(km: Distance, line: seq<LngLat>) returns (n: real)
    ensures n == Length(km, line)
  {
    n := 0.0;
    var i := 1;
    while i < |line|
      invariant 1 <= i
      invariant |line| < 2 ==> n == 0.0
      invariant i <= |line| ==> n + Length(km, line[i - 1..]) == Length(km, line)
      invariant |line| >= 2 ==> i <= |line|
    {
      n := n + km(line[i - 1], line[i]);
      assert line[i - 1..][1..] == line[i..];
      i := i + 1;
    }
  }

  lemma {:induction false} LengthNonNegative(km: Distance, line: seq<LngLat>)
    requires IsMetric(km)
    ensures Length(km, line) >= 0.0
  {
    if |line| >= 2 {
      LengthNonNegative(km, line[1..]);
    }
  }

  /** A polyline of length zero never leaves its starting place. */
  lemma {:induction false} ZeroLengthStaysPut(km: Distance, line: seq<LngLat>)
    requires IsMetric(km) && |line| > 0 && Length(km, line) == 0.0
    ensures Place(line[0]) == Place(line[|line| - 1])
  {
    if |line| >= 2 {
      LengthNonNegative(km, line[1..]);
      assert km(line[0], line[1]) == 0.0;
      ZeroLengthStaysPut(km, line[1..]);
    }
  }

  function Reversed<T>(s: seq<T>): (r: seq<T>)
    ensures |r| == |s|
    ensures forall i :: 0 <= i < |s| ==> r[i] == s[|s| - 1 - i]
  {
    if s == [] then [] else Reversed(s[1..]) + [s[0]]
  }

  lemma {:induction false} LengthSnoc(km: Distance, a: seq<LngLat>, p: LngLat)
    requires |a| > 0
    ensures Length(km, a + [p]) == Length(km, a) + km(a[|a| - 1], p)
  {
    assert (a + [p])[1..] == a[1..] + [p];
    if |a| == 1 {
      assert Length(km, (a + [p])[1..]) == 0.0;
    } else {
      LengthSnoc(km, a[1..], p);
    }
  }

  /** Running a cable the other way round does not change its length. */
  lemma {:induction false} LengthReversed(km: Distance, line: seq<LngLat>)
    requires IsMetric(km)
    ensures Length(km, Reversed(line)) == Length(km, line)
  {
    if |line| >= 2 {
      var rest := Reversed(line[1..]);
      LengthReversed(km, line[1..]);
      assert Reversed(line) == rest + [line[0]];
      LengthSnoc(km, rest, line[0]);
      assert rest[|rest| - 1] == line[1];
    }
  }

  lemma {:induction false} LengthConcat(km: Distance, a: seq<LngLat>, b: seq<LngLat>)
    requires a != [] && b != []
    ensures Length(km, a + b) == Length(km, a) + km(a[|a| - 1], b[0]) + Length(km, b)
  {
    assert (a + b)[1..] == a[1..] + b;
    if |a| > 1 {
      LengthConcat(km, a[1..], b);
    } else {
      assert a[1..] + b == b;
    }
  }

  // ----- nearby points in place of each other -----

  ghost predicate NoDetour(km: Distance, p: LngLat, q: LngLat, r: LngLat) {
    km(p, r) <= km(p, q) + km(q, r)
  }

  ghost predicate Triangle(km: Distance) {
    forall p, q, r {:trigger NoDetour(km, p, q, r)} :: NoDetour(km, p, q, r)
  }

  /** Seen from `r`, points `p` and `q` differ in distance by at most `t`. */
  ghost predicate Alike(km: Distance, p: LngLat, q: LngLat, r: LngLat, t: real) {
    km(r, p) - t <= km(r, q) <= km(r, p) + t && km(p, r) - t <= km(q, r) <= km(p, r) + t
  }

  /** Moving a point by up to `t` changes no distance by more than `t`. */
  ghost predicate Steady(km: Distance, t: real) {
    forall p, q, r {:trigger Alike(km, p, q, r, t)} :: km(p, q) <= t ==> Alike(km, p, q, r, t)
  }

  /** Two names of one place are interchangeable under any metric. */
  lemma MetricIsSteady(km: Distance)
    requires IsMetric(km)
    ensures Steady(km, 0.0)
  {
    forall p, q, r | km(p, q) <= 0.0
      ensures Alike(km, p, q, r, 0.0)
    {
      assert km(p, q) == 0.0 && km(p, r) == km(q, r);
      assert km(r, p) == km(p, r) && km(r, q) == km(q, r);
    }
  }

  lemma TriangleIsSteady(km: Distance, t: real)
    requires IsMetric(km) && Triangle(km)
    ensures Steady(km, t)
  {
    forall p, q, r | km(p, q) <= t
      ensures Alike(km, p, q, r, t)
    {
      assert NoDetour(km, p, q, r) && NoDetour(km, q, p, r);
      assert km(q, p) == km(p, q) && km(r, p) == km(p, r) && km(r, q) == km(q, r);
    }
  }

  /** `x` is within `slack` of `y`. */
  predicate CloseTo(x: real, y: real, slack: real) {
    y - slack <= x <= y + slack
  }

  /** `2 * tolerance` for each of `n` edges. */
  function Slack(tolerance: real, n: nat): real {
    if n == 0 then 0.0 else 2.0 * tolerance + Slack(tolerance, n - 1)
  }

  lemma {:induction false} SlackIsLinear(tolerance: real, n: nat)
    ensures tolerance == 0.0 ==> Slack(tolerance, n) == 0.0
    ensures tolerance == 60.0 ==> Slack(tolerance, n) == 120.0 * n as real
  {
    if n > 0 {
      SlackIsLinear(tolerance, n - 1);
    }
  }

  /** `i` is the first index whose point is closest to `p`: the linear scans keep a strict minimum. */
  ghost predicate FirstNearest(km: Distance, pts: seq<LngLat>, p: LngLat, i: int) {
    && 0 <= i < |pts|
    && (forall j :: 0 <= j < |pts| ==> km(pts[i], p) <= km(pts[j], p))
    && (forall j :: 0 <= j < i ==> km(pts[i], p) < km(pts[j], p))
  }

  lemma FirstNearestUnique(km: Distance, pts: seq<LngLat>, p: LngLat, i: int, j: int)
    requires FirstNearest(km, pts, p, i) && FirstNearest(km, pts, p, j)
    ensures i == j
  {
    assert km(pts[i], p) <= km(pts[j], p) <= km(pts[i], p);
  }

  /** The nearest-point scan (`nearestHub`, `nearestNode`, backhaul); -1 when there is no point. */
  method Nearest(km: Distance, pts: seq<LngLat>, p: LngLat) returns (best: int)
    ensures pts == [] ==> best == -1
    ensures pts != [] ==> FirstNearest(km, pts, p, best)
  {
    best := -1;
    var i := 0;
    while i < |pts|
      invariant 0 <= i <= |pts|
      invariant if i == 0 then best == -1 else FirstNearest(km, pts[..i], p, best)
    {
      if best < 0 || km(pts[i], p) < km(pts[best], p) {
        best := i;
      }
      assert pts[..i + 1] == pts[..i] + [pts[i]];
      i := i + 1;
    }
    assert pts[..i] == pts;
  }
}
