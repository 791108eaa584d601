// Land or sea: even-odd point-in-polygon over country rings, with bounding boxes in front.
module Landmass {
  import opened Options
  import opened Geometry

  type Ring = seq<Point>

  datatype Box = Box(xmin: real, xmax: real, ymin: real, ymax: real)

  datatype Poly = Poly(box: Box, ring: Ring, group: string)

  /** The point a share `n / d` of the way from `p` to `q`. */
  function Between(p: real, q: real, n: real, d: real): real
    requires d != 0.0
  {
    ((q - p) * n) / d + p
  }

  /** Where the line through `i` and `j` meets latitude `y`. */
  function CrossAt(y: real, i: Point, j: Point): real
    requires i.lat != j.lat
  {
    Between(i.lon, j.lon, y - i.lat, j.lat - i.lat)
  }

  /** The ray from (x, y) to the east crosses the edge between `i` and `j`. */
  predicate Crosses(x: real, y: real, i: Point, j: Point) {
    (i.lat > y) != (j.lat > y) && x < CrossAt(y, i, j)
  }

  /** The vertex before `i` around the closed ring. */
  function Prev(ring: Ring, i: nat): Point
    requires i < |ring|
  {
    if i == 0 then ring[|ring| - 1] else ring[i - 1]
  }

  /** Which edges are crossed; edge `i` runs from the previous vertex to vertex `i`. */
  ghost function Crossings(x: real, y: real, ring: Ring): (r: seq<bool>)
    ensures |r| == |ring|
  {
    seq(|ring|, i requires 0 <= i < |ring| => Crosses(x, y, ring[i], Prev(ring, i)))
  }

  ghost function Parity(flags: seq<bool>, n: nat): bool
    requires n <= |flags|
  {
    if n == 0 then false else Parity(flags, n - 1) != flags[n - 1]
  }

  /** Inside by the even-odd rule. */
  ghost predicate Inside(x: real, y: real, ring: Ring) {
    Parity(Crossings(x, y, ring), |ring|)
  }

  /** `pip`. */
  method Pip(x: real, y: real, ring: Ring) returns (inside: bool)
    ensures inside == Inside(x, y, ring)
  {
    inside := false;
    var i, j := 0, |ring| - 1;
    while i < |ring|
      invariant 0 <= i <= |ring| && inside == Parity(Crossings(x, y, ring), i)
      invariant i < |ring| ==> j == if i == 0 then |ring| - 1 else i - 1
    {
      if Crosses(x, y, ring[i], ring[j]) {
        inside := !inside;
      }
      i, j := i + 1, i;
    }
  }

  // ----- bounding boxes -----

  predicate InBox(x: real, y: real, b: Box) {
    b.xmin <= x <= b.xmax && b.ymin <= y <= b.ymax
  }

  ghost predicate Covers(b: Box, ring: Ring) {
    forall i :: 0 <= i < |ring| ==> InBox(ring[i].lon, ring[i].lat, b)
  }

  /** Each side is its starting value or touches a vertex. */
  ghost predicate Tight(b: Box, ring: Ring) {
    && (b.xmin == 180.0 || exists i :: 0 <= i < |ring| && ring[i].lon == b.xmin)
    && (b.xmax == -180.0 || exists i :: 0 <= i < |ring| && ring[i].lon == b.xmax)
    && (b.ymin == 90.0 || exists i :: 0 <= i < |ring| && ring[i].lat == b.ymin)
    && (b.ymax == -90.0 || exists i :: 0 <= i < |ring| && ring[i].lat == b.ymax)
  }

  /** The box loop of `loadLandmass` and `makeZone`. */
  method MakeBox(ring: Ring) returns (b: Box)
    ensures Covers(b, ring) && Tight(b, ring)
  {
    var xmin, xmax, ymin, ymax := 180.0, -180.0, 90.0, -90.0;
    var k := 0;
    while k < |ring|
      invariant 0 <= k <= |ring|
      invariant Covers(Box(xmin, xmax, ymin, ymax), ring[..k]) && Tight(Box(xmin, xmax, ymin, ymax), ring[..k])
    {
      var c := ring[k];
      ghost var b0 := Box(xmin, xmax, ymin, ymax);
      if c.lon < xmin { xmin := c.lon; }
      if c.lon > xmax { xmax := c.lon; }
      if c.lat < ymin { ymin := c.lat; }
      if c.lat > ymax { ymax := c.lat; }
      BoxGrows(b0, Box(xmin, xmax, ymin, ymax), ring[..k], c);
      assert ring[..k + 1] == ring[..k] + [c];
      k := k + 1;
    }
    assert ring[..k] == ring;
    b := Box(xmin, xmax, ymin, ymax);
  }

  lemma BoxGrows(b: Box, b': Box, ring: Ring, c: Point)
    requires Covers(b, ring) && Tight(b, ring)
    requires b' == Box(if c.lon < b.xmin then c.lon else b.xmin, if c.lon > b.xmax then c.lon else b.xmax,
                       if c.lat < b.ymin then c.lat else b.ymin, if c.lat > b.ymax then c.lat else b.ymax)
    ensures Covers(b', ring + [c]) && Tight(b', ring + [c])
  {
    var r := ring + [c];
    assert r[|ring|] == c;
    if b'.xmin != 180.0 && b'.xmin == b.xmin { var i :| 0 <= i < |ring| && ring[i].lon == b.xmin; assert r[i].lon == b'.xmin; }
    if b'.xmax != -180.0 && b'.xmax == b.xmax { var i :| 0 <= i < |ring| && ring[i].lon == b.xmax; assert r[i].lon == b'.xmax; }
    if b'.ymin != 90.0 && b'.ymin == b.ymin { var i :| 0 <= i < |ring| && ring[i].lat == b.ymin; assert r[i].lat == b'.ymin; }
    if b'.ymax != -90.0 && b'.ymax == b.ymax { var i :| 0 <= i < |ring| && ring[i].lat == b.ymax; assert r[i].lat == b'.ymax; }
  }

  // ----- the box never changes the answer -----

  lemma QuotientTimes(a: real, d: real)
    requires d != 0.0
    ensures (a / d) * d == a
  {
  }

  lemma ProductOrder(x: real, y: real, d: real)
    requires d > 0.0 && x * d <= y * d
    ensures x <= y
  {
  }

  lemma QuotientBetween(a: real, lo: real, hi: real, d: real)
    requires d > 0.0 && lo * d <= a <= hi * d
    ensures lo <= a / d <= hi
  {
    var q := a / d;
    QuotientTimes(a, d);
    ProductOrder(lo, q, d);
    ProductOrder(q, hi, d);
  }

  lemma NegatedQuotient(a: real, d: real)
    requires d < 0.0
    ensures a / d == (-a) / (-d)
  {
    var q, r := a / d, (-a) / (-d);
    QuotientTimes(a, d);
    QuotientTimes(-a, -d);
    assert q * -d == -(q * d);
    ProductOrder(q, r, -d);
    ProductOrder(r, q, -d);
  }

  lemma ProductNonNegative(x: real, y: real)
    requires x >= 0.0 && y >= 0.0
    ensures x * y >= 0.0
  {
  }

  lemma Regroup(p: real, q: real, c: real, n: real, d: real)
    ensures (q - p) * n - (c - p) * d == (q - c) * n + (p - c) * (d - n)
  {
    assert (q - p) * n == q * n - p * n;
    assert (c - p) * d == c * d - p * d;
    assert (q - c) * n == q * n - c * n;
    assert (p - c) * (d - n) == p * (d - n) - c * (d - n);
    assert p * (d - n) == p * d - p * n && c * (d - n) == c * d - c * n;
  }

  lemma Weighted(p: real, q: real, lo: real, hi: real, n: real, d: real)
    requires d > 0.0 && 0.0 <= n <= d && lo <= p <= hi && lo <= q <= hi
    ensures lo <= Between(p, q, n, d) <= hi
  {
    ProductNonNegative(q - lo, n);
    ProductNonNegative(p - lo, d - n);
    Regroup(p, q, lo, n, d);
    ProductNonNegative(hi - q, n);
    ProductNonNegative(hi - p, d - n);
    Regroup(p, q, hi, n, d);
    assert (q - hi) * n == -((hi - q) * n) && (p - hi) * (d - n) == -((hi - p) * (d - n));
    QuotientBetween((q - p) * n, lo - p, hi - p, d);
  }

  lemma BothNegated(p: real, q: real, n: real, d: real)
    requires d < 0.0
    ensures Between(p, q, n, d) == Between(p, q, -n, -d)
  {
    NegatedQuotient((q - p) * n, d);
    assert (q - p) * -n == -((q - p) * n);
  }

  /** The crossing point of a separating edge lies between its two ends. */
  lemma CrossingBetween(y: real, i: Point, j: Point, lo: real, hi: real)
    requires (i.lat > y) != (j.lat > y)
    requires lo <= i.lon <= hi && lo <= j.lon <= hi
    ensures lo <= CrossAt(y, i, j) <= hi
  {
    var n, d := y - i.lat, j.lat - i.lat;
    if d > 0.0 {
      Weighted(i.lon, j.lon, lo, hi, n, d);
    } else {
      BothNegated(i.lon, j.lon, n, d);
      Weighted(i.lon, j.lon, lo, hi, -n, -d);
    }
  }

  lemma QuotientBelow(b: real, a: real, d: real)
    requires d > 0.0
    ensures b < a / d <==> b * d < a
  {
    var q := a / d;
    QuotientTimes(a, d);
    assert (q - b) * d == a - b * d;
    assert q - b > 0.0 ==> (q - b) * d > 0.0;
    assert q - b <= 0.0 ==> (b - q) * d >= 0.0;
  }

  /** An upward edge is crossed exactly when the point lies to its left, a downward one exactly when
      it lies to its right, and its latitude is that of a point of the edge other than the upper end. */
  lemma CrossesExactly(x: real, y: real, p: Point, q: Point)
    ensures p.lat <= y < q.lat ==> (Crosses(x, y, p, q) <==> (x - p.lon) * (q.lat - p.lat) < (q.lon - p.lon) * (y - p.lat))
    ensures q.lat <= y < p.lat ==> (Crosses(x, y, p, q) <==> (x - p.lon) * (q.lat - p.lat) > (q.lon - p.lon) * (y - p.lat))
    ensures !(p.lat <= y < q.lat) && !(q.lat <= y < p.lat) ==> !Crosses(x, y, p, q)
  {
    var n, d := y - p.lat, q.lat - p.lat;
    if p.lat <= y < q.lat {
      QuotientBelow(x - p.lon, (q.lon - p.lon) * n, d);
    } else if q.lat <= y < p.lat {
      BothNegated(p.lon, q.lon, n, d);
      QuotientBelow(x - p.lon, (q.lon - p.lon) * -n, -d);
      assert (q.lon - p.lon) * -n == -((q.lon - p.lon) * n) && (x - p.lon) * -d == -((x - p.lon) * d);
    }
  }

  /** West of the box an edge is crossed exactly when it separates in latitude. */
  lemma WestCrossing(x: real, y: real, i: Point, j: Point, b: Box)
    requires InBox(i.lon, i.lat, b) && InBox(j.lon, j.lat, b) && x < b.xmin
    ensures Crosses(x, y, i, j) == ((i.lat > y) != (j.lat > y))
  {
    if (i.lat > y) != (j.lat > y) {
      CrossingBetween(y, i, j, b.xmin, b.xmax);
    }
  }

  /** East, north and south of the box no edge is crossed. */
  lemma NoCrossing(x: real, y: real, i: Point, j: Point, b: Box)
    requires InBox(i.lon, i.lat, b) && InBox(j.lon, j.lat, b) && (x > b.xmax || y < b.ymin || y > b.ymax)
    ensures !Crosses(x, y, i, j)
  {
    if (i.lat > y) != (j.lat > y) {
      CrossingBetween(y, i, j, b.xmin, b.xmax);
    }
  }

  /** Around a ring the changes of side telescope: after `n` edges their parity compares the
      last vertex with the one reached. */
  lemma {:induction false} SidesTelescope(y: real, ring: Ring, flags: seq<bool>, n: nat)
    requires |flags| == |ring| && 1 <= n <= |ring|
    requires forall i :: 0 <= i < |ring| ==> flags[i] == ((ring[i].lat > y) != (Prev(ring, i).lat > y))
    ensures Parity(flags, n) == ((ring[|ring| - 1].lat > y) != (ring[n - 1].lat > y))
  {
    if n == 1 {
      assert Parity(flags, 0) == false;
    } else {
      SidesTelescope(y, ring, flags, n - 1);
    }
  }

  lemma {:induction false} NoFlagsNoParity(flags: seq<bool>, n: nat)
    requires n <= |flags| && forall i :: 0 <= i < |flags| ==> !flags[i]
    ensures !Parity(flags, n)
  {
    if n > 0 {
      NoFlagsNoParity(flags, n - 1);
    }
  }

  /** A point outside the box is outside the ring, for any ring whatever its coordinates. */
  lemma {:induction false} OutsideBoxIsOutside(x: real, y: real, ring: Ring, b: Box)
    requires Covers(b, ring) && !InBox(x, y, b)
    ensures !Inside(x, y, ring)
  {
    var flags := Crossings(x, y, ring);
    if x < b.xmin {
      forall i | 0 <= i < |ring|
        ensures flags[i] == ((ring[i].lat > y) != (Prev(ring, i).lat > y))
      {
        WestCrossing(x, y, ring[i], Prev(ring, i), b);
      }
      if ring != [] {
        SidesTelescope(y, ring, flags, |ring|);
      }
    } else {
      forall i | 0 <= i < |ring|
        ensures !flags[i]
      {
        NoCrossing(x, y, ring[i], Prev(ring, i), b);
      }
      NoFlagsNoParity(flags, |ring|);
    }
  }

  // ----- a rectangle -----

  /** Inside a rectangle are the points between its sides, those on the western and the southern
      side included. */
  lemma RectangleExactly(x: real, y: real, west: real, south: real, east: real, north: real)
    requires west < east && south < north
    ensures Inside(x, y, [LngLat(west, south), LngLat(east, south), LngLat(east, north), LngLat(west, north)])
      <==> west <= x < east && south <= y < north
  {
    var ring := [LngLat(west, south), LngLat(east, south), LngLat(east, north), LngLat(west, north)];
    var flags := Crossings(x, y, ring);
    UprightCrossing(x, y, ring[2], ring[1]);
    UprightCrossing(x, y, ring[0], ring[3]);
    assert !flags[1] && !flags[3];
    assert flags[2] == (south <= y < north && x < east) && flags[0] == (south <= y < north && x < west);
    assert Parity(flags, 0) == false && Parity(flags, 1) == flags[0] && Parity(flags, 2) == (flags[0] != flags[1]);
    assert Parity(flags, 3) == (Parity(flags, 2) != flags[2]) && Parity(flags, 4) == (Parity(flags, 3) != flags[3]);
  }

  lemma UprightCrossing(x: real, y: real, i: Point, j: Point)
    requires i.lon == j.lon
    ensures Crosses(x, y, i, j) <==> ((i.lat > y) != (j.lat > y)) && x < i.lon
  {
    if (i.lat > y) != (j.lat > y) {
      CrossingBetween(y, i, j, i.lon, i.lon);
    }
  }

  // ----- queries -----

  /** `((p[0] + 180) % 360 + 360) % 360 - 180`. */
  function WrapLon(x: real): real {
    Rem360(Rem360(x + 180.0) + 360.0) - 180.0
  }

  lemma WrapIsPlace(p: Point)
    ensures WrapLon(p.lon) == Place(p).lon
  {
    var x := p.lon + 180.0;
    var k := Turns(x);
    TurnsAre(x, k);
    var r := Rem360(x);
    TurnsAre(r + 360.0, 1);
    if x < 0.0 {
      TurnsAre(-x, Turns(-x));
      TurnsAre(x, -Turns(-x));
      TurnsAre(x, -Turns(-x) - 1);
      TurnsAre(r + 360.0, 0);
    }
  }

  /** Polygon `pl` holds the place `p` names. */
  ghost predicate Holds(pl: Poly, p: Point) {
    Inside(Place(p).lon, p.lat, pl.ring)
  }

  ghost predicate Boxed(polys: seq<Poly>) {
    forall k :: 0 <= k < |polys| ==> Covers(polys[k].box, polys[k].ring)
  }

  ghost predicate FirstHolder(polys: seq<Poly>, p: Point, k: int) {
    0 <= k < |polys| && Holds(polys[k], p) && forall j :: 0 <= j < k ==> !Holds(polys[j], p)
  }

  /** `onLand` answers like the scan without boxes. */
  method OnLand(polys: seq<Poly>, p: Point) returns (r: bool)
    requires Boxed(polys)
    ensures r <==> exists k :: 0 <= k < |polys| && Holds(polys[k], p)
  {
    var x, y := WrapLon(p.lon), p.lat;
    WrapIsPlace(p);
    var k := 0;
    while k < |polys|
      invariant 0 <= k <= |polys|
      invariant forall j :: 0 <= j < k ==> !Holds(polys[j], p)
    {
      var pl := polys[k];
      if x < pl.box.xmin || x > pl.box.xmax || y < pl.box.ymin || y > pl.box.ymax {
        OutsideBoxIsOutside(x, y, pl.ring, pl.box);
      } else {
        var inside := Pip(x, y, pl.ring);
        if inside {
          return true;
        }
      }
      k := k + 1;
    }
    return false;
  }

  /** `continentGroup`: the group of the first polygon that holds the point. */
  method ContinentGroup(polys: seq<Poly>, p: Point) returns (r: Option<string>)
    requires Boxed(polys)
    ensures r.None? ==> forall k :: 0 <= k < |polys| ==> !Holds(polys[k], p)
    ensures r.Some? ==> exists k :: FirstHolder(polys, p, k) && r.value == polys[k].group
  {
    var x, y := WrapLon(p.lon), p.lat;
    WrapIsPlace(p);
    var k := 0;
    while k < |polys|
      invariant 0 <= k <= |polys|
      invariant forall j :: 0 <= j < k ==> !Holds(polys[j], p)
    {
      var pl := polys[k];
      if x < pl.box.xmin || x > pl.box.xmax || y < pl.box.ymin || y > pl.box.ymax {
        OutsideBoxIsOutside(x, y, pl.ring, pl.box);
      } else {
        var inside := Pip(x, y, pl.ring);
        if inside {
          return Some(pl.group);
        }
      }
      k := k + 1;
    }
    return None;
  }
}
