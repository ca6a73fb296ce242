/** Ray-cast point-in-polygon over the reals: the answer does not depend on where a ring starts or
    which way it runs, is false outside its box, and is the parity of the fan triangles around the
    point. */
module RayCast {

  datatype Point = Point(lon: real, lat: real)

  type Ring = seq<Point>

  // ---------------------------------------------------------------------------------------------
  // One edge
  // ---------------------------------------------------------------------------------------------

  predicate Above(a: Point, p: Point) {
    a.lat > p.lat
  }

  /** The ray from `p` towards greater longitudes meets the edge. */
  predicate Crosses(a: Point, b: Point, p: Point) {
    Above(a, p) != Above(b, p) && p.lon < ((b.lon - a.lon) * (p.lat - a.lat)) / (b.lat - a.lat) + a.lon
  }

  /** Twice the signed area of the triangle `a`, `b`, `p`. */
  function Orient(a: Point, b: Point, p: Point): real {
    (b.lon - a.lon) * (p.lat - a.lat) - (b.lat - a.lat) * (p.lon - a.lon)
  }

  lemma QuotientBound(n: real, d: real, x: real)
    requires d != 0.0
    ensures d > 0.0 ==> (x < n / d <==> x * d < n)
    ensures d < 0.0 ==> (x < n / d <==> x * d > n)
  {
    var q := n / d;
    assert q * d == n;
    if d > 0.0 {
      if x < q { assert (q - x) * d > 0.0; }
      if x >= q { assert (x - q) * d >= 0.0; }
    } else {
      if x < q { assert (q - x) * d < 0.0; }
      if x >= q { assert (x - q) * d <= 0.0; }
    }
  }

  /** Crossing, without the division: the point is to the left of an edge going up, to the right of one
      going down. */
  lemma CrossesBySide(a: Point, b: Point, p: Point)
    ensures Crosses(a, b, p) <==>
            || (!Above(a, p) && Above(b, p) && Orient(a, b, p) > 0.0)
            || (Above(a, p) && !Above(b, p) && Orient(a, b, p) < 0.0)
  {
    if Above(a, p) != Above(b, p) {
      var n, d, x := (b.lon - a.lon) * (p.lat - a.lat), b.lat - a.lat, p.lon - a.lon;
      QuotientBound(n, d, x);
      assert Orient(a, b, p) == n - x * d;
      assert Crosses(a, b, p) <==> p.lon < n / d + a.lon;
      assert p.lon < n / d + a.lon <==> x < n / d;
    }
  }

  lemma OrientReverses(a: Point, b: Point, p: Point)
    ensures Orient(b, a, p) == -Orient(a, b, p)
  {
  }

  lemma CrossesEitherWay(a: Point, b: Point, p: Point)
    ensures Crosses(a, b, p) == Crosses(b, a, p)
  {
    CrossesBySide(a, b, p);
    CrossesBySide(b, a, p);
    OrientReverses(a, b, p);
  }

  // ---------------------------------------------------------------------------------------------
  // Rings
  // ---------------------------------------------------------------------------------------------

  /** The parity of the crossed edges along a path. */
  function PathParity(path: seq<Point>, p: Point): bool {
    if |path| < 2 then false
    else PathParity(path[..|path| - 1], p) != Crosses(path[|path| - 1], path[|path| - 2], p)
  }

  function RingParity(ring: Ring, p: Point): bool {
    ring != [] && PathParity([ring[|ring| - 1]] + ring, p)
  }

  method InRing(ring: Ring, p: Point) returns (inside: bool)
    ensures inside == RingParity(ring, p)
  {
    inside := false;
    if ring == [] {
      return;
    }
    var j := |ring| - 1;
    ghost var path := [ring[|ring| - 1]] + ring;
    for i := 0 to |ring|
      invariant j == if i == 0 then |ring| - 1 else i - 1
      invariant inside == PathParity(path[..i + 1], p)
    {
      assert path[..i + 2][..i + 1] == path[..i + 1];
      if Crosses(ring[i], ring[j], p) {
        inside := !inside;
      }
      j := i;
    }
    assert path[..|ring| + 1] == path;
  }

  /** True when some outline has the point inside. */
  method IsLand(land: seq<Ring>, lat: real, lon: real) returns (onLand: bool)
    ensures onLand <==> exists ring | ring in land :: RingParity(ring, Point(lon, lat))
  {
    for k := 0 to |land|
      invariant forall i | 0 <= i < k :: !RingParity(land[i], Point(lon, lat))
    {
      var inside := InRing(land[k], Point(lon, lat));
      if inside {
        return true;
      }
    }
    return false;
  }

  lemma PathOfAppend(path: seq<Point>, a: Point, p: Point)
    requires path != []
    ensures PathParity(path + [a], p) == (PathParity(path, p) != Crosses(a, path[|path| - 1], p))
    ensures |path| == 1 ==> !PathParity(path, p)
  {
    assert (path + [a])[..|path|] == path;
    hide Crosses;
  }

  lemma {:induction false} PathSplits(path: seq<Point>, k: nat, p: Point)
    requires k < |path|
    ensures PathParity(path, p) == (PathParity(path[..k + 1], p) != PathParity(path[k..], p))
  {
    hide Crosses;
    if k == |path| - 1 {
      assert path[..k + 1] == path;
    } else {
      var init := path[..|path| - 1];
      assert init[..k + 1] == path[..k + 1];
      assert init[k..] == path[k..][..|path[k..]| - 1];
      PathSplits(init, k, p);
    }
  }

  /** A ring, as the closed path from any of its vertices back to it. */
  lemma RingFrom(ring: Ring, k: nat, p: Point)
    requires k < |ring|
    ensures RingParity(ring, p) == PathParity(ring[k..] + ring[..k + 1], p)
  {
    hide PathParity;
    var closed := [ring[|ring| - 1]] + ring;
    var turned := ring[k..] + ring[..k + 1];
    PathSplits(closed, k + 1, p);
    PathSplits(turned, |ring| - 1 - k, p);
    assert closed[..k + 2] == turned[|ring| - 1 - k..];
    assert closed[k + 1..] == turned[..|ring| - k];
  }

  /** Where the ring starts does not matter. */
  lemma RotationInvariant(ring: Ring, k: nat, p: Point)
    requires k < |ring|
    ensures RingParity(ring[k..] + ring[..k], p) == RingParity(ring, p)
  {
    var turned := ring[k..] + ring[..k];
    RingFrom(ring, k, p);
    RingFrom(turned, 0, p);
    assert turned[0..] + turned[..1] == ring[k..] + ring[..k + 1];
  }

  function Reversed(path: seq<Point>): (r: seq<Point>)
    ensures |r| == |path|
  {
    if path == [] then [] else [path[|path| - 1]] + Reversed(path[..|path| - 1])
  }

  lemma {:induction false} ReversedEnds(path: seq<Point>)
    requires path != []
    ensures Reversed(path)[0] == path[|path| - 1] && Reversed(path)[|path| - 1] == path[0]
    ensures Reversed(path) == Reversed(path[1..]) + [path[0]]
  {
    if |path| > 1 {
      var init := path[..|path| - 1];
      ReversedEnds(init);
      assert init[1..] == path[1..][..|path| - 2];
    }
  }

  lemma {:induction false} PathReverses(path: seq<Point>, p: Point)
    ensures PathParity(Reversed(path), p) == PathParity(path, p)
  {
    if |path| >= 2 {
      var init, last, before := path[..|path| - 1], path[|path| - 1], path[|path| - 2];
      PathReverses(init, p);
      ReversedEnds(init);
      var r := Reversed(path);
      PathSplits(r, 1, p);
      assert r[1..] == Reversed(init);
      assert r[..2] == [last, before];
      assert [last, before][..1] == [last];
      CrossesEitherWay(last, before, p);
    }
  }

  /** Nor does the direction. */
  lemma ReversalInvariant(ring: Ring, p: Point)
    ensures RingParity(Reversed(ring), p) == RingParity(ring, p)
  {
    if ring != [] {
      var closed := [ring[|ring| - 1]] + ring;
      var back := Reversed(ring);
      PathReverses(closed, p);
      ReversedEnds(closed);
      ReversedEnds(ring);
      assert closed[1..] == ring;
      RingFrom(back, 0, p);
      assert back[0..] + back[..1] == back + [ring[|ring| - 1]];
    }
  }

  // ---------------------------------------------------------------------------------------------
  // Outside the box
  // ---------------------------------------------------------------------------------------------

  ghost predicate OutsideBox(ring: Ring, p: Point) {
    || (forall a | a in ring :: a.lat <= p.lat)
    || (forall a | a in ring :: a.lat > p.lat)
    || (forall a | a in ring :: a.lon <= p.lon)
    || (forall a | a in ring :: a.lon > p.lon)
  }

  lemma EastOfEdge(a: Point, b: Point, p: Point)
    requires a.lon <= p.lon && b.lon <= p.lon
    ensures !Crosses(a, b, p)
  {
    CrossesBySide(a, b, p);
    if Above(a, p) != Above(b, p) {
      OrientAsWeights(a, b, p);
      WeightedSign(b.lat - p.lat, p.lon - a.lon, p.lat - a.lat, p.lon - b.lon);
    }
  }

  lemma WestOfEdge(a: Point, b: Point, p: Point)
    requires a.lon > p.lon && b.lon > p.lon
    ensures Crosses(a, b, p) == (Above(a, p) != Above(b, p))
  {
    CrossesBySide(a, b, p);
    if Above(a, p) != Above(b, p) {
      OrientAsWeights(a, b, p);
      WeightedStrict(b.lat - p.lat, a.lon - p.lon, p.lat - a.lat, b.lon - p.lon);
    }
  }

  lemma OrientAsWeights(a: Point, b: Point, p: Point)
    ensures Orient(a, b, p) == -((b.lat - p.lat) * (p.lon - a.lon) + (p.lat - a.lat) * (p.lon - b.lon))
    ensures Orient(a, b, p) == (b.lat - p.lat) * (a.lon - p.lon) + (p.lat - a.lat) * (b.lon - p.lon)
  {
  }

  lemma WeightedSign(u: real, x: real, v: real, y: real)
    requires x >= 0.0 && y >= 0.0
    ensures u >= 0.0 && v >= 0.0 ==> u * x + v * y >= 0.0
    ensures u <= 0.0 && v <= 0.0 ==> u * x + v * y <= 0.0
  {
    if u >= 0.0 && v >= 0.0 { assert u * x >= 0.0 && v * y >= 0.0; }
    if u <= 0.0 && v <= 0.0 { assert u * x <= 0.0 && v * y <= 0.0; }
  }

  lemma WeightedStrict(u: real, x: real, v: real, y: real)
    requires x > 0.0 && y > 0.0
    ensures u > 0.0 && v >= 0.0 ==> u * x + v * y > 0.0
    ensures u <= 0.0 && v < 0.0 ==> u * x + v * y < 0.0
  {
    if u > 0.0 && v >= 0.0 { assert u * x > 0.0 && v * y >= 0.0; }
    if u <= 0.0 && v < 0.0 { assert u * x <= 0.0 && v * y < 0.0; }
  }

  /** East of a path nothing is crossed; above or below it no edge changes side; west of it every edge
      that changes side is crossed, and their parity only depends on the two ends. */
  lemma {:induction false} PathOutside(path: seq<Point>, p: Point)
    requires path != [] && OutsideBox(path, p)
    ensures (forall a | a in path :: a.lon > p.lon) || !PathParity(path, p)
    ensures (forall a | a in path :: a.lon > p.lon) ==>
              PathParity(path, p) == (Above(path[0], p) != Above(path[|path| - 1], p))
  {
    if |path| >= 2 {
      var init, last, before := path[..|path| - 1], path[|path| - 1], path[|path| - 2];
      PathOutside(init, p);
      if forall a | a in path :: a.lon <= p.lon {
        EastOfEdge(last, before, p);
        assert init[0].lon <= p.lon;
      } else if forall a | a in path :: a.lon > p.lon {
        WestOfEdge(last, before, p);
      }
    }
  }

  /** A point outside a ring's box, edges of the box included to the north and to the east, is never
      inside: the edges that change side on the way round a ring are even in number. */
  lemma OutsideBoxIsOutside(ring: Ring, p: Point)
    requires OutsideBox(ring, p)
    ensures !RingParity(ring, p)
  {
    if ring != [] {
      var closed := [ring[|ring| - 1]] + ring;
      assert forall a | a in closed :: a in ring;
      PathOutside(closed, p);
    }
  }

  // ---------------------------------------------------------------------------------------------
  // What the parity means
  // ---------------------------------------------------------------------------------------------

  /** Cutting a ring along a chord cuts its parity in two: the chord is met by both halves or neither. */
  lemma ChordSplits(ring: Ring, k: nat, p: Point)
    requires 0 < k < |ring|
    ensures RingParity(ring, p) == (RingParity(ring[..k + 1], p) != RingParity([ring[0]] + ring[k..], p))
  {
    hide PathParity, RingParity, Crosses;
    var near, far := ring[..k + 1], [ring[0]] + ring[k..];
    var around := ring + [ring[0]];
    RingCloses(ring, p);
    RingCloses(near, p);
    RingCloses(far, p);
    PathSplits(around, k, p);
    PathSplits(near + [ring[0]], k, p);
    PathSplits(far + [ring[0]], 1, p);
    assert (near + [ring[0]])[..k + 1] == around[..k + 1];
    assert (near + [ring[0]])[k..] == [ring[k]] + [ring[0]];
    assert (far + [ring[0]])[1..] == around[k..];
    assert (far + [ring[0]])[..2] == [ring[0]] + [ring[k]];
    PathOfAppend([ring[k]], ring[0], p);
    PathOfAppend([ring[0]], ring[k], p);
    CrossesEitherWay(ring[k], ring[0], p);
  }

  lemma RingCloses(ring: Ring, p: Point)
    requires ring != []
    ensures RingParity(ring, p) == PathParity(ring + [ring[0]], p)
  {
    RingFrom(ring, 0, p);
    assert ring[0..] + ring[..1] == ring + [ring[0]];
  }

  /** The parity of the triangles of the fan from the first vertex over the first `n` vertices. */
  function FanParity(ring: Ring, n: nat, p: Point): bool
    requires n <= |ring|
  {
    if n < 3 then false
    else FanParity(ring, n - 1, p) != RingParity([ring[0], ring[n - 2], ring[n - 1]], p)
  }

  lemma NeverCrossesPoint(a: Point, p: Point)
    ensures !Crosses(a, a, p)
  {
  }

  lemma {:induction false} FanCountsPrefix(ring: Ring, n: nat, p: Point)
    requires 0 < n <= |ring|
    ensures RingParity(ring[..n], p) == FanParity(ring, n, p)
  {
    hide Crosses, PathParity;
    if n == 1 {
      assert ring[..1] == [ring[0]];
      PathOfAppend([ring[0]], ring[0], p);
      NeverCrossesPoint(ring[0], p);
    } else if n == 2 {
      var a, b := ring[0], ring[1];
      assert ring[..2] == [a, b] && [b] + [a, b] == [b] + [a] + [b];
      PathOfAppend([b], a, p);
      PathOfAppend([b] + [a], b, p);
      CrossesEitherWay(a, b, p);
    } else {
      ChordSplits(ring[..n], n - 2, p);
      assert ring[..n][..n - 1] == ring[..n - 1];
      assert [ring[..n][0]] + ring[..n][n - 2..] == [ring[0], ring[n - 2], ring[n - 1]];
      FanCountsPrefix(ring, n - 1, p);
    }
  }

  /** Strictly within the triangle: on the same side of all three edges. */
  ghost predicate StrictlyWithin(a: Point, b: Point, c: Point, p: Point) {
    || (Orient(a, b, p) > 0.0 && Orient(b, c, p) > 0.0 && Orient(c, a, p) > 0.0)
    || (Orient(a, b, p) < 0.0 && Orient(b, c, p) < 0.0 && Orient(c, a, p) < 0.0)
  }

  /** Within the triangle or on its boundary. */
  ghost predicate Within(a: Point, b: Point, c: Point, p: Point) {
    || (Orient(a, b, p) >= 0.0 && Orient(b, c, p) >= 0.0 && Orient(c, a, p) >= 0.0)
    || (Orient(a, b, p) <= 0.0 && Orient(b, c, p) <= 0.0 && Orient(c, a, p) <= 0.0)
  }

  /** The latitudes of the corners, weighted by the areas opposite them, balance at the point. */
  lemma Balance(a: Point, b: Point, c: Point, p: Point)
    ensures Orient(b, c, p) * (a.lat - p.lat) + Orient(c, a, p) * (b.lat - p.lat) +
            Orient(a, b, p) * (c.lat - p.lat) == 0.0
  {
    var x1, y1, x2, y2 := a.lon - p.lon, a.lat - p.lat, b.lon - p.lon, b.lat - p.lat;
    var x3, y3 := c.lon - p.lon, c.lat - p.lat;
    assert Orient(a, b, p) == x1 * y2 - y1 * x2;
    assert Orient(b, c, p) == x2 * y3 - y2 * x3;
    assert Orient(c, a, p) == x3 * y1 - y3 * x1;
    BalanceOf(x1, y1, x2, y2, x3, y3);
  }

  lemma BalanceOf(x1: real, y1: real, x2: real, y2: real, x3: real, y3: real)
    ensures (x2 * y3 - y2 * x3) * y1 + (x3 * y1 - y3 * x1) * y2 + (x1 * y2 - y1 * x2) * y3 == 0.0
  {
  }

  lemma TriangleParity(a: Point, b: Point, c: Point, p: Point)
    ensures RingParity([a, b, c], p) == ((Crosses(a, c, p) != Crosses(b, a, p)) != Crosses(c, b, p))
  {
    hide Crosses, PathParity;
    assert [c] + [a, b, c] == [c] + [a] + [b] + [c];
    PathOfAppend([c], a, p);
    PathOfAppend([c] + [a], b, p);
    PathOfAppend([c] + [a] + [b], c, p);
  }

  /** The crossing of an edge from its ends' heights over the point and the side the point is on. */
  predicate Met(start: real, end: real, side: real) {
    (start <= 0.0 < end && side > 0.0) || (end <= 0.0 < start && side < 0.0)
  }

  lemma TriangleBySides(a: Point, b: Point, c: Point, p: Point)
    ensures var ya, yb, yc := a.lat - p.lat, b.lat - p.lat, c.lat - p.lat;
            RingParity([a, b, c], p) ==
              ((Met(ya, yb, Orient(a, b, p)) != Met(yb, yc, Orient(b, c, p))) != Met(yc, ya, Orient(c, a, p)))
  {
    TriangleParity(a, b, c, p);
    CrossesEitherWay(b, a, p);
    CrossesEitherWay(c, b, p);
    CrossesEitherWay(a, c, p);
    CrossesBySide(a, b, p);
    CrossesBySide(b, c, p);
    CrossesBySide(c, a, p);
  }

  lemma ProductSign(x: real, y: real)
    ensures (x > 0.0 && y > 0.0) || (x < 0.0 && y < 0.0) ==> x * y > 0.0
    ensures (x > 0.0 && y < 0.0) || (x < 0.0 && y > 0.0) ==> x * y < 0.0
    ensures x == 0.0 || y == 0.0 ==> x * y == 0.0
  {
  }

  /** Heights that balance under weights of one sign are not all on one side; exactly two edges change
      side, and exactly one of them is met. */
  lemma StrictMeetsOnce(ya: real, yb: real, yc: real, ab: real, bc: real, ca: real)
    requires bc * ya + ca * yb + ab * yc == 0.0
    requires (ab > 0.0 && bc > 0.0 && ca > 0.0) || (ab < 0.0 && bc < 0.0 && ca < 0.0)
    requires !(ya == 0.0 && yb == 0.0 && yc == 0.0)
    ensures (Met(ya, yb, ab) != Met(yb, yc, bc)) != Met(yc, ya, ca)
  {
    ProductSign(bc, ya);
    ProductSign(ca, yb);
    ProductSign(ab, yc);
  }

  lemma OneMetMeansWithin(ya: real, yb: real, yc: real, ab: real, bc: real, ca: real)
    requires bc * ya + ca * yb + ab * yc == 0.0
    requires (Met(ya, yb, ab) != Met(yb, yc, bc)) != Met(yc, ya, ca)
    ensures (ab >= 0.0 && bc >= 0.0 && ca >= 0.0) || (ab <= 0.0 && bc <= 0.0 && ca <= 0.0)
  {
    ProductSign(bc, ya);
    ProductSign(ca, yb);
    ProductSign(ab, yc);
  }

  lemma FlatIsNotStrict(a: Point, b: Point, c: Point, p: Point)
    requires a.lat == p.lat && b.lat == p.lat
    ensures Orient(a, b, p) == 0.0
  {
    assert (b.lon - a.lon) * (p.lat - a.lat) == 0.0;
    assert (b.lat - a.lat) * (p.lon - a.lon) == 0.0;
  }

  /** For a triangle the answer is the triangle: true strictly within it, false strictly without. */
  lemma TriangleMeaning(a: Point, b: Point, c: Point, p: Point)
    ensures StrictlyWithin(a, b, c, p) ==> RingParity([a, b, c], p)
    ensures RingParity([a, b, c], p) ==> Within(a, b, c, p)
  {
    TriangleBySides(a, b, c, p);
    Balance(a, b, c, p);
    var ya, yb, yc := a.lat - p.lat, b.lat - p.lat, c.lat - p.lat;
    if StrictlyWithin(a, b, c, p) {
      if ya == 0.0 && yb == 0.0 {
        FlatIsNotStrict(a, b, c, p);
      }
      StrictMeetsOnce(ya, yb, yc, Orient(a, b, p), Orient(b, c, p), Orient(c, a, p));
    }
    if RingParity([a, b, c], p) {
      OneMetMeansWithin(ya, yb, yc, Orient(a, b, p), Orient(b, c, p), Orient(c, a, p));
    }
  }

  /** The number of triangles of the fan over the first `n` vertices that hold the point strictly. */
  ghost function FanTrianglesAround(ring: Ring, n: nat, p: Point): nat
    requires n <= |ring|
  {
    if n < 3 then 0
    else FanTrianglesAround(ring, n - 1, p) + if StrictlyWithin(ring[0], ring[n - 2], ring[n - 1], p) then 1 else 0
  }

  /** The point lies on the line of no edge and no chord from the first vertex. */
  ghost predicate Generic(ring: Ring, p: Point) {
    forall k | 2 <= k < |ring| :: OffLines(ring[0], ring[k - 1], ring[k], p)
  }

  ghost predicate OffLines(a: Point, b: Point, c: Point, p: Point) {
    Orient(a, b, p) != 0.0 && Orient(b, c, p) != 0.0 && Orient(c, a, p) != 0.0
  }

  lemma GenericAt(ring: Ring, k: nat, p: Point)
    requires Generic(ring, p) && 2 <= k < |ring|
    ensures OffLines(ring[0], ring[k - 1], ring[k], p)
  {
    hide OffLines;
  }

  lemma {:induction false} FanIsCount(ring: Ring, n: nat, p: Point)
    requires n <= |ring| && Generic(ring, p)
    ensures FanParity(ring, n, p) <==> FanTrianglesAround(ring, n, p) % 2 == 1
  {
    hide Orient, RingParity, Generic;
    if n >= 3 {
      FanIsCount(ring, n - 1, p);
      GenericAt(ring, n - 1, p);
      TriangleMeaning(ring[0], ring[n - 2], ring[n - 1], p);
    }
  }

  /** For every ring, however it bends or crosses itself: the point is inside exactly when it lies in an
      odd number of the triangles its first vertex spans with the ring's edges. */
  lemma InsideMeansOddlyCovered(ring: Ring, p: Point)
    requires Generic(ring, p)
    ensures RingParity(ring, p) <==> FanTrianglesAround(ring, |ring|, p) % 2 == 1
  {
    if ring != [] {
      FanCountsPrefix(ring, |ring|, p);
      assert ring[..|ring|] == ring;
      FanIsCount(ring, |ring|, p);
    }
  }
}
