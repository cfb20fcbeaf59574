/** Planar rings over exact reals: signed area, even-odd ray casting, and the inspection of the
    source polygons that yields their bounding box. */
module Geometry {
  import opened Wrappers

  datatype Point = Point(x: real, y: real)

  type Ring = seq<Point>

  // ---------- the two ring loops ----------

  function CrossProduct(a: Point, b: Point): real {
    a.x * b.y - b.x * a.y
  }

  // Twice the signed area that the steps of a path sweep out around the origin.
  function Sweep(path: Ring): real {
    if |path| < 2 then 0.0 else CrossProduct(path[0], path[1]) + Sweep(path[1..])
  }

  method RingArea(ring: Ring) returns (area: real)
    ensures area == Sweep(ring) / 2.0
  {
    var sum := 0.0;
    var index := 0;
    while index < |ring| - 1
      invariant 0 <= index && (index <= |ring| - 1 || |ring| == 0 == index)
      invariant sum + Sweep(ring[index..]) == Sweep(ring)
    {
      assert ring[index..][1..] == ring[index + 1..];
      sum := sum + (ring[index].x * ring[index + 1].y - ring[index + 1].x * ring[index].y);
      index := index + 1;
    }
    return sum / 2.0;
  }

  predicate Straddles(p: Point, a: Point, b: Point) {
    (a.y > p.y) != (b.y > p.y)
  }

  // Where the line through a and b meets the horizontal through p.
  function MeetX(p: Point, a: Point, b: Point): real
    requires a.y != b.y
  {
    ((b.x - a.x) * (p.y - a.y)) / (b.y - a.y) + a.x
  }

  // The rightward ray from p crosses the edge from b to a.
  predicate Crosses(p: Point, a: Point, b: Point) {
    Straddles(p, a, b) && p.x < MeetX(p, a, b)
  }

  // Whether the ray from p crosses an odd number of the steps of a path.
  predicate OddCrossings(p: Point, path: Ring) {
    |path| >= 2 && Crosses(p, path[1], path[0]) != OddCrossings(p, path[1..])
  }

  // The even-odd rule on the closed cycle through all vertices.
  predicate Inside(p: Point, ring: Ring) {
    |ring| > 0 && Crosses(p, ring[0], ring[|ring| - 1]) != OddCrossings(p, ring)
  }

  method PointInRing(point: Point, ring: Ring) returns (inside: bool)
    ensures inside == Inside(point, ring)
  {
    inside := false;
    var index, previous := 0, |ring| - 1;
    while index < |ring|
      invariant 0 <= index <= |ring|
      invariant previous == if index == 0 then |ring| - 1 else index - 1
      invariant index == 0 ==> !inside
      invariant index > 0 ==> Inside(point, ring) == (inside != OddCrossings(point, ring[index - 1..]))
    {
      if Crosses(point, ring[index], ring[previous]) {
        inside := !inside;
      }
      hide Crosses;
      if index == 0 {
        assert ring[0..] == ring;
      } else {
        assert ring[index - 1..][1..] == ring[index..];
      }
      previous, index := index, index + 1;
    }
  }

  // ---------- an edge read either way ----------

  lemma MeetXTimes(p: Point, a: Point, b: Point)
    requires a.y != b.y
    ensures MeetX(p, a, b) * (b.y - a.y) == (b.x - a.x) * (p.y - a.y) + a.x * (b.y - a.y)
  {
    var d := b.y - a.y;
    var q := ((b.x - a.x) * (p.y - a.y)) / d;
    assert q * d == (b.x - a.x) * (p.y - a.y);
  }

  lemma MeetXSymmetric(p: Point, a: Point, b: Point)
    requires a.y != b.y
    ensures MeetX(p, a, b) == MeetX(p, b, a)
  {
    var d := b.y - a.y;
    var m, m' := MeetX(p, a, b), MeetX(p, b, a);
    MeetXTimes(p, a, b);
    MeetXTimes(p, b, a);
    assert m * d == m' * d by {
      assert m' * (a.y - b.y) == -(m' * d);
      assert (b.x - a.x) * (p.y - a.y) - (b.x - a.x) * (p.y - b.y) == (b.x - a.x) * d;
      assert (a.x - b.x) * (p.y - b.y) == -((b.x - a.x) * (p.y - b.y));
      assert b.x * (a.y - b.y) == -(b.x * d);
      assert (b.x - a.x) * d == b.x * d - a.x * d;
    }
    assert (m - m') * d == 0.0;
  }

  lemma CrossesSymmetric(p: Point, a: Point, b: Point)
    ensures Crosses(p, a, b) == Crosses(p, b, a)
    ensures !Crosses(p, a, a)
  {
    if Straddles(p, a, b) {
      MeetXSymmetric(p, a, b);
    }
  }

  // ---------- cutting a ring along a chord ----------

  lemma {:induction false} OddCrossingsSplit(p: Point, path: Ring, k: nat)
    requires k < |path|
    ensures OddCrossings(p, path) == (OddCrossings(p, path[..k + 1]) != OddCrossings(p, path[k..]))
  {
    if k > 0 {
      OddCrossingsSplit(p, path[1..], k - 1);
      assert path[1..][..k] == path[..k + 1][1..];
      assert path[1..][k - 1..] == path[k..];
    }
  }

  lemma {:induction false} SweepSplit(path: Ring, k: nat)
    requires k < |path|
    ensures Sweep(path) == Sweep(path[..k + 1]) + Sweep(path[k..])
  {
    if k > 0 {
      SweepSplit(path[1..], k - 1);
      assert path[1..][..k] == path[..k + 1][1..];
      assert path[1..][k - 1..] == path[k..];
    } else {
      assert path[0..] == path;
    }
  }

  // The two rings that the chord between vertices i and j cuts off; the first is closed again.
  function LeftOfChord(ring: Ring, i: nat, j: nat): Ring
    requires i <= j < |ring|
  {
    ring[i..j + 1] + [ring[i]]
  }

  function RightOfChord(ring: Ring, i: nat, j: nat): Ring
    requires i <= j < |ring|
  {
    ring[..i + 1] + ring[j..]
  }

  lemma ChordPieces(ring: Ring, i: nat, j: nat)
    requires i <= j < |ring|
    ensures var l, r := LeftOfChord(ring, i, j), RightOfChord(ring, i, j);
            l[..j - i + 1] == ring[i..j + 1] && l[j - i..] == [ring[j], ring[i]] &&
            r[..i + 1] == ring[..i + 1] && r[i..] == [ring[i]] + ring[j..] &&
            r[i..][..2] == [ring[i], ring[j]] && r[i..][1..] == ring[j..] &&
            ring[i..][..j - i + 1] == ring[i..j + 1] && ring[i..][j - i..] == ring[j..]
  {
  }

  lemma ChordSplitsCrossings(p: Point, ring: Ring, i: nat, j: nat)
    requires i <= j < |ring|
    ensures OddCrossings(p, ring) ==
            (OddCrossings(p, LeftOfChord(ring, i, j)) != OddCrossings(p, RightOfChord(ring, i, j)))
  {
    var l, r := LeftOfChord(ring, i, j), RightOfChord(ring, i, j);
    ChordPieces(ring, i, j);
    OddCrossingsSplit(p, ring, i);
    OddCrossingsSplit(p, ring[i..], j - i);
    OddCrossingsSplit(p, l, j - i);
    OddCrossingsSplit(p, r, i);
    OddCrossingsSplit(p, r[i..], 1);
    OneStep(p, ring[j], ring[i]);
    OneStep(p, ring[i], ring[j]);
    CrossesSymmetric(p, ring[i], ring[j]);
  }

  lemma OneStep(p: Point, a: Point, b: Point)
    ensures OddCrossings(p, [a, b]) == Crosses(p, b, a)
    ensures Sweep([a, b]) == CrossProduct(a, b)
  {
    assert [a, b][1..] == [b];
  }

  // Cutting any ring along a chord splits the even-odd answer for every point, ...
  lemma ChordSplitsInside(p: Point, ring: Ring, i: nat, j: nat)
    requires i <= j < |ring|
    ensures Inside(p, ring) == (Inside(p, LeftOfChord(ring, i, j)) != Inside(p, RightOfChord(ring, i, j)))
  {
    ChordSplitsCrossings(p, ring, i, j);
    CrossesSymmetric(p, ring[i], ring[i]);
  }

  // ... and the signed area.
  lemma ChordSplitsArea(ring: Ring, i: nat, j: nat)
    requires i <= j < |ring|
    ensures Sweep(ring) == Sweep(LeftOfChord(ring, i, j)) + Sweep(RightOfChord(ring, i, j))
  {
    var l, r := LeftOfChord(ring, i, j), RightOfChord(ring, i, j);
    ChordPieces(ring, i, j);
    SweepSplit(ring, i);
    SweepSplit(ring[i..], j - i);
    SweepSplit(l, j - i);
    SweepSplit(r, i);
    SweepSplit(r[i..], 1);
    OneStep(Point(0.0, 0.0), ring[j], ring[i]);
    OneStep(Point(0.0, 0.0), ring[i], ring[j]);
    assert CrossProduct(ring[i], ring[j]) == -CrossProduct(ring[j], ring[i]);
    hide CrossProduct;
  }

  // Which vertex a ring is written from does not matter.
  lemma StartVertexIrrelevant(p: Point, ring: Ring, k: nat)
    requires 0 < k < |ring|
    ensures Inside(p, ring[k..] + ring[..k]) == Inside(p, ring)
  {
    var n := |ring|;
    var turned := ring[k..] + ring[..k];
    OddCrossingsSplit(p, ring, k - 1);
    OddCrossingsSplit(p, ring[k - 1..], 1);
    OddCrossingsSplit(p, turned, n - k - 1);
    OddCrossingsSplit(p, turned[n - k - 1..], 1);
    assert ring[k - 1..][..2] == [ring[k - 1], ring[k]] && ring[k - 1..][1..] == ring[k..];
    assert turned[..n - k] == ring[k..] && turned[n - k - 1..][1..] == ring[..k];
    assert turned[n - k - 1..][..2] == [ring[n - 1], ring[0]];
    OneStep(p, ring[k - 1], ring[k]);
    OneStep(p, ring[n - 1], ring[0]);
  }

  // ---------- inside is inside the bounding box ----------

  lemma MeetXBetween(p: Point, a: Point, b: Point)
    requires Straddles(p, a, b)
    ensures a.x <= MeetX(p, a, b) <= b.x || b.x <= MeetX(p, a, b) <= a.x
  {
    var d, t, w := b.y - a.y, p.y - a.y, b.x - a.x;
    var q := (w * t) / d;
    Fraction(t, d);
    var f := t / d;
    assert q == w * f;
    assert MeetX(p, a, b) == q + a.x;
    if w >= 0.0 {
      assert 0.0 <= w * f <= w;
    } else {
      assert w <= w * f <= 0.0;
    }
  }

  lemma Fraction(t: real, d: real)
    requires d != 0.0 && (0.0 <= t <= d || d <= t <= 0.0)
    ensures 0.0 <= t / d <= 1.0
  {
  }

  lemma {:induction false} NoCrossings(p: Point, path: Ring)
    requires (forall v :: v in path ==> v.x <= p.x) || (forall v :: v in path ==> v.y <= p.y)
             || (forall v :: v in path ==> v.y > p.y)
    ensures !OddCrossings(p, path)
  {
    if |path| >= 2 {
      if Straddles(p, path[1], path[0]) {
        MeetXBetween(p, path[1], path[0]);
      }
      NoCrossings(p, path[1..]);
    }
  }

  // To the left of all vertices every straddling step is crossed, and the steps that straddle
  // a height telescope: only the two ends of the path matter.
  lemma {:induction false} LeftOfAll(p: Point, path: Ring)
    requires |path| > 0 && forall v :: v in path ==> p.x < v.x
    ensures OddCrossings(p, path) == Straddles(p, path[0], path[|path| - 1])
  {
    if |path| >= 2 {
      if Straddles(p, path[1], path[0]) {
        MeetXBetween(p, path[1], path[0]);
      }
      LeftOfAll(p, path[1..]);
    }
  }

  // The point is in the half-open box of the vertices: min <= x < max and min <= y < max.
  ghost predicate InHalfOpenBox(p: Point, pts: seq<Point>) {
    (exists v :: v in pts && v.x <= p.x) && (exists v :: v in pts && p.x < v.x) &&
    (exists v :: v in pts && v.y <= p.y) && (exists v :: v in pts && p.y < v.y)
  }

  lemma InsideIsInBox(p: Point, ring: Ring)
    requires Inside(p, ring)
    ensures InHalfOpenBox(p, ring)
  {
    var first, last := ring[0], ring[|ring| - 1];
    if Straddles(p, first, last) {
      MeetXBetween(p, first, last);
    }
    if forall v :: v in ring ==> p.x < v.x {
      LeftOfAll(p, ring);
      assert false;
    }
    if (forall v :: v in ring ==> v.x <= p.x) || (forall v :: v in ring ==> v.y <= p.y)
       || (forall v :: v in ring ==> v.y > p.y) {
      NoCrossings(p, ring);
      assert false;
    }
  }

  // ---------- geometries ----------

  // The rings of a polygon: the outline, then the holes.
  type Polygon = seq<Ring>

  datatype Shape = OnePolygon(rings: Polygon) | ManyPolygons(parts: seq<Polygon>) | OtherShape

  datatype Error = GeometryType | InvalidRing | OutOfScope | GeometryDenominator | MissingRing

  function Polygons(g: Shape): Result<seq<Polygon>, Error> {
    match g
    case OnePolygon(rings) => Ok([rings])
    case ManyPolygons(parts) => Ok(parts)
    case OtherShape => Err(GeometryType)
  }

  predicate InAnyRing(p: Point, rings: seq<Ring>) {
    exists i :: 0 <= i < |rings| && Inside(p, rings[i])
  }

  // The first polygon that contains p decides; a polygon without any ring is a failure.
  function InSomePolygon(p: Point, parts: seq<Polygon>): Result<bool, Error> {
    if parts == [] then Ok(false)
    else if parts[0] == [] then Err(MissingRing)
    else if Inside(p, parts[0][0]) && !InAnyRing(p, parts[0][1..]) then Ok(true)
    else InSomePolygon(p, parts[1..])
  }

  function PointInGeometry(p: Point, g: Shape): Result<bool, Error> {
    match Polygons(g)
    case Err(e) => Err(e)
    case Ok(parts) => InSomePolygon(p, parts)
  }

  // ---------- inspection ----------

  // Infinite bounds before the first position.
  datatype Bounds = Empty | Box(minX: real, minY: real, maxX: real, maxY: real)

  function Min(a: real, b: real): real { if a <= b then a else b }

  function Max(a: real, b: real): real { if a >= b then a else b }

  function Widen(b: Bounds, p: Point): Bounds {
    match b
    case Empty => Box(p.x, p.y, p.x, p.y)
    case Box(x0, y0, x1, y1) => Box(Min(x0, p.x), Min(y0, p.y), Max(x1, p.x), Max(y1, p.y))
  }

  // b is the smallest box around the points.
  ghost predicate Tight(b: Bounds, pts: seq<Point>) {
    if b.Empty? then pts == [] else
      (forall v :: v in pts ==> b.minX <= v.x <= b.maxX && b.minY <= v.y <= b.maxY) &&
      (exists v :: v in pts && v.x == b.minX) && (exists v :: v in pts && v.x == b.maxX) &&
      (exists v :: v in pts && v.y == b.minY) && (exists v :: v in pts && v.y == b.maxY)
  }

  function Flat<T>(ss: seq<seq<T>>): seq<T> {
    if ss == [] then [] else Flat(ss[..|ss| - 1]) + ss[|ss| - 1]
  }

  lemma {:induction false} InFlat<T>(ss: seq<seq<T>>, i: nat, j: nat)
    requires i < |ss| && j < |ss[i]|
    ensures ss[i][j] in Flat(ss)
  {
    if i < |ss| - 1 {
      InFlat(ss[..|ss| - 1], i, j);
    }
  }

  function PolygonsOf(g: Shape): seq<Polygon> {
    if Polygons(g).Ok? then Polygons(g).value else []
  }

  function AllParts(shapes: seq<Shape>): seq<Polygon> {
    if shapes == [] then [] else AllParts(shapes[..|shapes| - 1]) + PolygonsOf(shapes[|shapes| - 1])
  }

  function Holes(parts: seq<Polygon>): nat {
    if parts == [] then 0 else
      var n := |parts| - 1;
      Holes(parts[..n]) + if |parts[n]| >= 1 then |parts[n]| - 1 else 0
  }

  predicate ValidRing(r: Ring) {
    |r| >= 4 && r[0] == r[|r| - 1] && !(-0.00000000000001 < Sweep(r) / 2.0 < 0.00000000000001)
  }

  predicate InScope(p: Point) {
    -66.0 <= p.x <= -64.0 && 17.0 <= p.y <= 19.0
  }

  const EXPECTED_BOUNDS := Box(-65.05690199974936, 17.673931000010842, -64.56519299973563, 18.401857000205986)

  function Count(shapes: seq<Shape>, one: bool): nat {
    if shapes == [] then 0 else
      var n := |shapes| - 1;
      Count(shapes[..n], one) + if (if one then shapes[n].OnePolygon? else shapes[n].ManyPolygons?) then 1 else 0
  }

  // What a collection must be like to pass the inspection.
  ghost predicate Acceptable(shapes: seq<Shape>) {
    var parts := AllParts(shapes);
    var rings := Flat(parts);
    var positions := Flat(rings);
    (forall g :: g in shapes ==> !g.OtherShape?) &&
    (forall r :: r in rings ==> ValidRing(r)) &&
    (forall v :: v in positions ==> InScope(v)) &&
    |shapes| == 6 && |parts| == 8 && |rings| == 8 && Holes(parts) == 0 && |positions| == 11767 &&
    Tight(EXPECTED_BOUNDS, positions) && Count(shapes, true) == 4 && Count(shapes, false) == 2
  }

  lemma WidenIsTight(b: Bounds, pts: seq<Point>, p: Point)
    requires Tight(b, pts)
    ensures Tight(Widen(b, p), pts + [p])
  {
    assert p in pts + [p];
    if b.Box? {
      var x0 :| x0 in pts && x0.x == b.minX;
      var x1 :| x1 in pts && x1.x == b.maxX;
      var y0 :| y0 in pts && y0.y == b.minY;
      var y1 :| y1 in pts && y1.y == b.maxY;
      assert forall v :: v in pts ==> v in pts + [p];
      assert x0 in pts + [p] && x1 in pts + [p] && y0 in pts + [p] && y1 in pts + [p];
    }
  }

  lemma TightIsUnique(b: Bounds, c: Bounds, pts: seq<Point>)
    requires Tight(b, pts) && Tight(c, pts)
    ensures b == c
  {
  }

  method CheckRing(ring: Ring) returns (ok: bool)
    ensures ok == ValidRing(ring)
  {
    if |ring| < 4 || ring[0] != ring[|ring| - 1] {
      return false;
    }
    var area := RingArea(ring);
    return !(-0.00000000000001 < area < 0.00000000000001);
  }

  // The innermost loop: one ring's checks and positions.
  method InspectRing(ring: Ring, bounds0: Bounds, ghost seen: seq<Point>) returns (r: Result<Bounds, Error>)
    requires Tight(bounds0, seen)
    ensures r.Ok? <==> ValidRing(ring) && forall v :: v in ring ==> InScope(v)
    ensures r.Ok? ==> Tight(r.value, seen + ring)
    ensures r.Err? ==> r.error == if !ValidRing(ring) then InvalidRing else OutOfScope
  {
    hide ValidRing, Tight, Widen, InScope;
    var ok := CheckRing(ring);
    if !ok {
      return Err(InvalidRing);
    }
    var bounds := bounds0;
    ghost var sofar := seen;
    for q := 0 to |ring|
      invariant Tight(bounds, sofar) && sofar == seen + ring[..q]
      invariant forall i :: 0 <= i < q ==> InScope(ring[i])
    {
      if !InScope(ring[q]) {
        return Err(OutOfScope);
      }
      WidenIsTight(bounds, sofar, ring[q]);
      bounds, sofar := Widen(bounds, ring[q]), sofar + [ring[q]];
    }
    assert sofar == seen + ring;
    return Ok(bounds);
  }

  datatype Tally = Tally(rings: nat, positions: nat, bounds: Bounds)

  // The counters and bounds after the given rings.
  ghost predicate Matches(t: Tally, rings: seq<Ring>) {
    t.rings == |rings| && t.positions == |Flat(rings)| && Tight(t.bounds, Flat(rings))
  }

  ghost predicate Good(rings: seq<Ring>) {
    forall r :: r in rings ==> ValidRing(r) && forall v :: v in r ==> InScope(v)
  }

  // The failure that a ring causes, if any.
  ghost function RingFault(r: Ring): Option<Error> {
    if !ValidRing(r) then Some(InvalidRing)
    else if forall v :: v in r ==> InScope(v) then None
    else Some(OutOfScope)
  }

  // The first faulty ring of a polygon, of several polygons, and of a shape causes failure e.
  ghost predicate PolygonFault(polygon: Polygon, e: Error) {
    exists i :: 0 <= i < |polygon| && RingFault(polygon[i]) == Some(e) && Good(polygon[..i])
  }

  ghost predicate PartsFault(parts: seq<Polygon>, e: Error) {
    exists k :: 0 <= k < |parts| && PolygonFault(parts[k], e) && forall j :: 0 <= j < k ==> Good(parts[j])
  }

  ghost predicate ShapeFault(g: Shape, e: Error) {
    if g.OtherShape? then e == GeometryType else PartsFault(PolygonsOf(g), e)
  }

  ghost predicate Passes(g: Shape) {
    !g.OtherShape? && forall k :: 0 <= k < |PolygonsOf(g)| ==> Good(PolygonsOf(g)[k])
  }

  lemma FlatSnoc<T>(ss: seq<seq<T>>, s: seq<T>)
    ensures Flat(ss + [s]) == Flat(ss) + s
  {
    assert (ss + [s])[..|ss|] == ss;
  }

  method InspectPolygon(polygon: Polygon, t0: Tally, ghost rings: seq<Ring>) returns (r: Result<Tally, Error>)
    requires Matches(t0, rings)
    ensures r.Ok? <==> Good(polygon)
    ensures r.Ok? ==> Matches(r.value, rings + polygon)
    ensures r.Err? ==> PolygonFault(polygon, r.error)
  {
    hide Tight, ValidRing, InScope, Flat;
    var t := t0;
    ghost var done := rings;
    for i := 0 to |polygon|
      invariant forall k :: 0 <= k < i ==> ValidRing(polygon[k]) && forall v :: v in polygon[k] ==> InScope(v)
      invariant Matches(t, done) && done == rings + polygon[..i]
    {
      var ring := polygon[i];
      var b := InspectRing(ring, t.bounds, Flat(done));
      if b.Err? {
        assert RingFault(polygon[i]) == Some(b.error) && Good(polygon[..i]);
        return Err(b.error);
      }
      FlatSnoc(done, ring);
      t, done := Tally(t.rings + 1, t.positions + |ring|, b.value), done + [ring];
    }
    assert done == rings + polygon;
    return Ok(t);
  }

  method InspectParts(polygons: seq<Polygon>, t0: Tally, holes0: nat, ghost before: seq<Polygon>)
    returns (r: Result<(Tally, nat), Error>)
    requires Matches(t0, Flat(before)) && holes0 == Holes(before)
    ensures r.Ok? <==> forall k :: 0 <= k < |polygons| ==> Good(polygons[k])
    ensures r.Ok? ==> Matches(r.value.0, Flat(before + polygons)) && r.value.1 == Holes(before + polygons)
    ensures r.Err? ==> PartsFault(polygons, r.error)
  {
    hide Matches, Good, Flat, PolygonFault;
    var t, holes := t0, holes0;
    ghost var done := before;
    for k := 0 to |polygons|
      invariant forall i :: 0 <= i < k ==> Good(polygons[i])
      invariant holes == Holes(done) && Matches(t, Flat(done)) && done == before + polygons[..k]
    {
      var polygon := polygons[k];
      holes := holes + if |polygon| >= 1 then |polygon| - 1 else 0;
      var next := InspectPolygon(polygon, t, Flat(done));
      if next.Err? {
        return Err(next.error);
      }
      FlatSnoc(done, polygon);
      assert (done + [polygon])[..|done|] == done;
      t, done := next.value, done + [polygon];
    }
    assert done == before + polygons;
    return Ok((t, holes));
  }

  lemma {:induction false} PartIn(shapes: seq<Shape>, f: nat, k: nat)
    requires f < |shapes| && k < |PolygonsOf(shapes[f])|
    ensures PolygonsOf(shapes[f])[k] in AllParts(shapes)
  {
    if f < |shapes| - 1 {
      PartIn(shapes[..|shapes| - 1], f, k);
    }
  }

  lemma BadPolygon(shapes: seq<Shape>, f: nat, k: nat)
    requires f < |shapes| && k < |PolygonsOf(shapes[f])| && !Good(PolygonsOf(shapes[f])[k])
    ensures !Acceptable(shapes)
  {
    hide Tight, ValidRing, InScope;
    var parts := AllParts(shapes);
    var rings := Flat(parts);
    var polygon := PolygonsOf(shapes[f])[k];
    var r :| r in polygon && !(ValidRing(r) && forall v :: v in r ==> InScope(v));
    PartIn(shapes, f, k);
    MemberOfFlat(parts, polygon, r);
    if ValidRing(r) {
      var v :| v in r && !InScope(v);
      MemberOfFlat(rings, r, v);
    }
  }

  lemma MemberOfFlat<T>(ss: seq<seq<T>>, s: seq<T>, x: T)
    requires s in ss && x in s
    ensures x in Flat(ss)
  {
    var i :| 0 <= i < |ss| && ss[i] == s;
    var j :| 0 <= j < |s| && s[j] == x;
    InFlat(ss, i, j);
  }

  lemma {:induction false} GoodPositions(rings: seq<Ring>)
    requires Good(rings)
    ensures forall v :: v in Flat(rings) ==> InScope(v)
  {
    hide ValidRing, InScope;
    if rings != [] {
      GoodPositions(rings[..|rings| - 1]);
      assert rings[|rings| - 1] in rings;
    }
  }

  lemma OnlyKnownShapes(shapes: seq<Shape>, f: nat)
    requires f < |shapes| && shapes[f].OtherShape?
    ensures !Acceptable(shapes)
  {
    assert shapes[f] in shapes;
  }

  lemma {:induction false} GoodParts(parts: seq<Polygon>)
    requires forall k :: 0 <= k < |parts| ==> Good(parts[k])
    ensures Good(Flat(parts))
  {
    hide ValidRing, InScope;
    if parts != [] {
      GoodParts(parts[..|parts| - 1]);
    }
  }

  // What the loop over the features counts.
  datatype Report = Report(parts: nat, holes: nat, ones: nat, manys: nat, tally: Tally)

  ghost predicate Counted(shapes: seq<Shape>, c: Report) {
    && c.parts == |AllParts(shapes)| && c.holes == Holes(AllParts(shapes))
    && c.ones == Count(shapes, true) && c.manys == Count(shapes, false)
    && Matches(c.tally, Flat(AllParts(shapes)))
  }

  ghost predicate AllPass(shapes: seq<Shape>) {
    forall f :: 0 <= f < |shapes| ==> Passes(shapes[f])
  }

  ghost predicate FirstFault(shapes: seq<Shape>, e: Error) {
    exists f :: 0 <= f < |shapes| && ShapeFault(shapes[f], e) && !Passes(shapes[f]) && AllPass(shapes[..f])
  }

  lemma OneMoreShape(shapes: seq<Shape>, g: Shape)
    ensures AllParts(shapes + [g]) == AllParts(shapes) + PolygonsOf(g)
    ensures Count(shapes + [g], true) == Count(shapes, true) + if g.OnePolygon? then 1 else 0
    ensures Count(shapes + [g], false) == Count(shapes, false) + if g.ManyPolygons? then 1 else 0
    ensures AllPass(shapes + [g]) <==> AllPass(shapes) && Passes(g)
  {
    hide Passes, PolygonsOf;
    assert (shapes + [g])[..|shapes|] == shapes;
    assert AllPass(shapes + [g]) ==> forall f :: 0 <= f < |shapes| ==> (shapes + [g])[f] == shapes[f];
  }

  method InspectShapes(shapes: seq<Shape>) returns (r: Result<Report, Error>)
    ensures r.Ok? <==> AllPass(shapes)
    ensures r.Ok? ==> Counted(shapes, r.value)
    ensures r.Err? ==> FirstFault(shapes, r.error)
  {
    hide Good, Flat, PartsFault, AllParts, Holes, Count, Matches, AllPass;
    var c := Report(0, 0, 0, 0, Tally(0, 0, Empty));
    NothingCounted();
    for f := 0 to |shapes|
      invariant Counted(shapes[..f], c) && AllPass(shapes[..f])
    {
      var g := shapes[f];
      assert shapes[..f + 1] == shapes[..f] + [g];
      OneMoreShape(shapes[..f], g);
      var polygons := Polygons(g);
      if polygons.Err? {
        FaultFound(shapes, f, polygons.error);
        return Err(polygons.error);
      }
      var next := InspectParts(polygons.value, c.tally, c.holes, AllParts(shapes[..f]));
      if next.Err? {
        FaultFound(shapes, f, next.error);
        return Err(next.error);
      }
      c := Report(c.parts + |polygons.value|, next.value.1, if g.OnePolygon? then c.ones + 1 else c.ones,
                  if g.ManyPolygons? then c.manys + 1 else c.manys, next.value.0);
    }
    assert shapes[..|shapes|] == shapes;
    r := Ok(c);
  }

  lemma NothingCounted()
    ensures Counted([], Report(0, 0, 0, 0, Tally(0, 0, Empty))) && AllPass([])
  {
    NothingMatches();
  }

  lemma FaultFound(shapes: seq<Shape>, f: nat, e: Error)
    requires f < |shapes| && ShapeFault(shapes[f], e) && !Passes(shapes[f]) && AllPass(shapes[..f])
    ensures FirstFault(shapes, e) && !AllPass(shapes)
  {
    hide ShapeFault, Passes;
  }

  lemma FaultIsUnacceptable(shapes: seq<Shape>)
    requires !AllPass(shapes)
    ensures !Acceptable(shapes)
  {
    hide Good, Acceptable;
    var f :| 0 <= f < |shapes| && !Passes(shapes[f]);
    if shapes[f].OtherShape? {
      OnlyKnownShapes(shapes, f);
    } else {
      var k :| 0 <= k < |PolygonsOf(shapes[f])| && !Good(PolygonsOf(shapes[f])[k]);
      BadPolygon(shapes, f, k);
    }
  }

  lemma {:induction false} PassedParts(shapes: seq<Shape>)
    requires AllPass(shapes)
    ensures forall k :: 0 <= k < |AllParts(shapes)| ==> Good(AllParts(shapes)[k])
  {
    hide Good, PolygonsOf;
    if shapes != [] {
      PassedParts(shapes[..|shapes| - 1]);
      assert Passes(shapes[|shapes| - 1]);
    }
  }

  // Accepts exactly the acceptable collections, and reports the box of all their positions. Otherwise the
  // first faulty ring or shape decides the failure, and the denominators only when there is none.
  method InspectGeometry(shapes: seq<Shape>) returns (r: Result<Bounds, Error>)
    ensures r.Ok? <==> Acceptable(shapes)
    ensures r.Ok? ==> r.value == EXPECTED_BOUNDS && Tight(r.value, Flat(Flat(AllParts(shapes))))
    ensures r.Err? ==> if AllPass(shapes) then r.error == GeometryDenominator else FirstFault(shapes, r.error)
  {
    hide Tight, Good, Flat, FirstFault, AllPass, Acceptable, AllParts, Holes, Count;
    var counted := InspectShapes(shapes);
    if counted.Err? {
      FaultIsUnacceptable(shapes);
      return Err(counted.error);
    }
    var c := counted.value;
    var t := c.tally;
    r := if |shapes| != 6 || c.parts != 8 || t.rings != 8 || c.holes != 0 || t.positions != 11767 ||
            t.bounds != EXPECTED_BOUNDS || c.manys != 2 || c.ones != 4
         then Err(GeometryDenominator) else Ok(t.bounds);
    PassedParts(shapes);
    KnownShapes(shapes);
    GoodIsAcceptable(shapes, t);
  }

  lemma KnownShapes(shapes: seq<Shape>)
    requires AllPass(shapes)
    ensures forall g :: 0 <= g < |shapes| ==> !shapes[g].OtherShape?
  {
  }

  lemma NothingMatches()
    ensures Matches(Tally(0, 0, Empty), Flat([]))
  {
  }

  // Once all shapes, rings and positions have passed, only the denominators are left.
  lemma GoodIsAcceptable(shapes: seq<Shape>, t: Tally)
    requires forall g :: 0 <= g < |shapes| ==> !shapes[g].OtherShape?
    requires forall k :: 0 <= k < |AllParts(shapes)| ==> Good(AllParts(shapes)[k])
    requires Matches(t, Flat(AllParts(shapes)))
    ensures Acceptable(shapes) <==>
            |shapes| == 6 && |AllParts(shapes)| == 8 && t.rings == 8 && Holes(AllParts(shapes)) == 0 &&
            t.positions == 11767 && t.bounds == EXPECTED_BOUNDS &&
            Count(shapes, true) == 4 && Count(shapes, false) == 2
    ensures Tight(t.bounds, Flat(Flat(AllParts(shapes))))
  {
    var rings := Flat(AllParts(shapes));
    GoodParts(AllParts(shapes));
    GoodPositions(rings);
    hide ValidRing, InScope, Flat, AllParts, Holes, Count;
    if Tight(EXPECTED_BOUNDS, Flat(rings)) {
      TightIsUnique(t.bounds, EXPECTED_BOUNDS, Flat(rings));
    }
    hide Tight;
  }

  // A point accepted by any geometry of an inspected collection lies in the reported box,
  // strictly left of its right edge and strictly below its top edge.
  lemma AcceptedPointInBounds(shapes: seq<Shape>, f: nat, p: Point)
    requires Acceptable(shapes) && f < |shapes| && PointInGeometry(p, shapes[f]) == Ok(true)
    ensures EXPECTED_BOUNDS.minX <= p.x < EXPECTED_BOUNDS.maxX
    ensures EXPECTED_BOUNDS.minY <= p.y < EXPECTED_BOUNDS.maxY
  {
    var parts := AllParts(shapes);
    var k := WhichPolygon(p, PolygonsOf(shapes[f]));
    var polygon := PolygonsOf(shapes[f])[k];
    PartIn(shapes, f, k);
    MemberOfFlat(parts, polygon, polygon[0]);
    InsideIsInBox(p, polygon[0]);
    forall v | v in polygon[0]
      ensures v in Flat(Flat(parts))
    {
      MemberOfFlat(Flat(parts), polygon[0], v);
    }
  }

  lemma {:induction false} WhichPolygon(p: Point, parts: seq<Polygon>) returns (k: nat)
    requires InSomePolygon(p, parts) == Ok(true)
    ensures k < |parts| && parts[k] != [] && Inside(p, parts[k][0])
  {
    if Inside(p, parts[0][0]) && !InAnyRing(p, parts[0][1..]) {
      k := 0;
    } else {
      k := WhichPolygon(p, parts[1..]);
      k := k + 1;
    }
  }
}