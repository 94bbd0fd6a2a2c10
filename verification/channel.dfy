/** Line of sight between two vehicles among rectangular buildings. Arithmetic is over the reals. */
module Channel {

  datatype Point = Point(x: real, y: real)

  /** A corner and the sizes along both axes. */
  datatype Box = Box(x: real, y: real, w: real, h: real)

  const PARALLEL: real := 0.000000001

  // ---------------------------------------------------------------- geometry

  /** The point of the segment at t. */
  function Along(p: real, d: real, t: real): real {
    p + t * d
  }

  predicate Inside(x: real, y: real, b: Box) {
    b.x <= x <= b.x + b.w && b.y <= y <= b.y + b.h
  }

  ghost predicate At(p1: Point, p2: Point, b: Box, t: real) {
    0.0 <= t <= 1.0 && Inside(Along(p1.x, p2.x - p1.x, t), Along(p1.y, p2.y - p1.y, t), b)
  }

  /** Some point of the segment is in the box. */
  ghost predicate Meets(p1: Point, p2: Point, b: Box) {
    exists t :: At(p1, p2, b, t)
  }

  // ---------------------------------------------------------------- what the slab test decides

  datatype Axis = Axis(d: real, p: real, lo: real, hi: real)

  function AxesOf(p1: Point, p2: Point, b: Box): seq<Axis> {
    [Axis(p2.x - p1.x, p1.x, b.x, b.x + b.w), Axis(p2.y - p1.y, p1.y, b.y, b.y + b.h)]
  }

  predicate IsFlat(d: real) {
    -PARALLEL < d < PARALLEL
  }

  /** One axis admits t: a nearly parallel axis looks at the first endpoint only, and the ends of a slab may come
      in either order. */
  predicate Admits(a: Axis, t: real) {
    if IsFlat(a.d) then a.lo <= a.p <= a.hi
    else a.lo <= Along(a.p, a.d, t) <= a.hi || a.hi <= Along(a.p, a.d, t) <= a.lo
  }

  ghost predicate AllAdmit(axes: seq<Axis>, n: nat, t: real)
    requires n <= |axes|
  {
    0.0 <= t <= 1.0 && forall i :: 0 <= i < n ==> Admits(axes[i], t)
  }

  ghost predicate Hits(p1: Point, p2: Point, b: Box) {
    exists t :: AllAdmit(AxesOf(p1, p2, b), 2, t)
  }

  function Lower(a: Axis): real
    requires !IsFlat(a.d)
  {
    var t1, t2 := (a.lo - a.p) / a.d, (a.hi - a.p) / a.d;
    if t1 > t2 then t2 else t1
  }

  function Upper(a: Axis): real
    requires !IsFlat(a.d)
  {
    var t1, t2 := (a.lo - a.p) / a.d, (a.hi - a.p) / a.d;
    if t1 > t2 then t1 else t2
  }

  lemma QuotientOrder(x: real, d: real, t: real)
    requires d != 0.0
    ensures d > 0.0 ==> (x / d <= t <==> x <= t * d) && (t <= x / d <==> t * d <= x)
    ensures d < 0.0 ==> (x / d <= t <==> t * d <= x) && (t <= x / d <==> x <= t * d)
  {
    var q := x / d;
    assert q * d == x;
    assert (t - q) * d == t * d - x;
  }

  lemma SlabIsInterval(a: Axis, t: real)
    requires !IsFlat(a.d)
    ensures Admits(a, t) <==> Lower(a) <= t <= Upper(a)
  {
    QuotientOrder(a.lo - a.p, a.d, t);
    QuotientOrder(a.hi - a.p, a.d, t);
  }

  lemma OneAxisMore(axes: seq<Axis>, i: nat, n: nat)
    requires n == i + 1 <= |axes|
    ensures forall t :: AllAdmit(axes, n, t) <==> AllAdmit(axes, i, t) && Admits(axes[i], t)
    ensures !IsFlat(axes[i].d) ==> forall t :: Admits(axes[i], t) <==> Lower(axes[i]) <= t <= Upper(axes[i])
  {
    if !IsFlat(axes[i].d) {
      forall t
        ensures Admits(axes[i], t) <==> Lower(axes[i]) <= t <= Upper(axes[i])
      {
        SlabIsInterval(axes[i], t);
      }
    }
  }

  /** For every segment and box, whatever its sizes and however short the segment. */
  method SegmentIntersectsBox(p1: Point, p2: Point, b: Box) returns (hit: bool)
    ensures hit <==> Hits(p1, p2, b)
  {
    var axes := AxesOf(p1, p2, b);
    var tMin, tMax := 0.0, 1.0;
    for i := 0 to |axes|
      invariant tMin <= tMax
      invariant forall t :: AllAdmit(axes, i, t) <==> tMin <= t <= tMax
    {
      var a := axes[i];
      OneAxisMore(axes, i, i + 1);
      if IsFlat(a.d) {
        if a.p < a.lo || a.p > a.hi {
          return false;
        }
      } else {
        var t1, t2 := (a.lo - a.p) / a.d, (a.hi - a.p) / a.d;
        if t1 > t2 {
          t1, t2 := t2, t1;
        }
        tMin, tMax := if t1 > tMin then t1 else tMin, if t2 < tMax then t2 else tMax;
        if tMin > tMax {
          return false;
        }
      }
    }
    assert AllAdmit(axes, 2, tMin);
    return true;
  }

  ghost predicate Sees(p1: Point, p2: Point, buildings: seq<Box>) {
    forall i :: 0 <= i < |buildings| ==> !Hits(p1, p2, buildings[i])
  }

  method IsLos(p1: Point, p2: Point, buildings: seq<Box>) returns (los: bool)
    ensures los <==> Sees(p1, p2, buildings)
  {
    for i := 0 to |buildings|
      invariant forall k :: 0 <= k < i ==> !Hits(p1, p2, buildings[k])
    {
      var hit := SegmentIntersectsBox(p1, p2, buildings[i]);
      if hit {
        return false;
      }
    }
    return true;
  }

  // ---------------------------------------------------------------- when it is the geometry

  /** The segment is exactly parallel to an axis or clearly not. */
  predicate Clean(p1: Point, p2: Point) {
    && (p1.x == p2.x || Distance(p1.x, p2.x) >= 0.000000001)
    && (p1.y == p2.y || Distance(p1.y, p2.y) >= 0.000000001)
  }

  lemma AdmitsIsInside(a: Axis, t: real)
    requires a.lo <= a.hi && (a.d == 0.0 || !IsFlat(a.d))
    ensures Admits(a, t) <==> a.lo <= Along(a.p, a.d, t) <= a.hi
  {
  }

  lemma TwoAxes(p1: Point, p2: Point, b: Box, t: real)
    ensures var axes := AxesOf(p1, p2, b);
            AllAdmit(axes, 2, t) <==> 0.0 <= t <= 1.0 && Admits(axes[0], t) && Admits(axes[1], t)
  {
  }

  lemma CleanIsExact(p1: Point, p2: Point, b: Box)
    requires Clean(p1, p2) && b.w >= 0.0 && b.h >= 0.0
    ensures Hits(p1, p2, b) <==> Meets(p1, p2, b)
  {
    var axes := AxesOf(p1, p2, b);
    forall t
      ensures AllAdmit(axes, 2, t) <==> At(p1, p2, b, t)
    {
      TwoAxes(p1, p2, b, t);
      AdmitsIsInside(axes[0], t);
      AdmitsIsInside(axes[1], t);
    }
  }

  function Least(a: real, b: real): real {
    if a <= b then a else b
  }

  function Distance(a: real, b: real): real {
    if a <= b then b - a else a - b
  }

  /** A box without width at x that spans both endpoints' heights, or without height at y that spans their widths. */
  function Wall(p1: Point, p2: Point, at: Point, upright: bool): Box {
    if upright then Box(at.x, Least(p1.y, p2.y), 0.0, Distance(p1.y, p2.y))
    else Box(Least(p1.x, p2.x), at.y, Distance(p1.x, p2.x), 0.0)
  }

  /** A wall at the second endpoint of a segment that is tilted a little stands on the segment, yet is missed. */
  lemma TiltedMisses(p1: Point, p2: Point)
    requires !Clean(p1, p2)
    ensures var upright := p1.x != p2.x && IsFlat(p2.x - p1.x);
            var b := Wall(p1, p2, p2, upright);
            b.w >= 0.0 && b.h >= 0.0 && Meets(p1, p2, b) && !Hits(p1, p2, b) && Hits(p2, p1, b)
  {
    var upright := p1.x != p2.x && IsFlat(p2.x - p1.x);
    var b := Wall(p1, p2, p2, upright);
    assert At(p1, p2, b, 1.0);
    forall t
      ensures !AllAdmit(AxesOf(p1, p2, b), 2, t)
    {
      TwoAxes(p1, p2, b, t);
    }
    TwoAxes(p2, p1, b, 0.0);
    assert AllAdmit(AxesOf(p2, p1, b), 2, 0.0);
  }

  /** The test is the geometry, for every box of non-negative sizes, exactly when the segment is clean. */
  lemma ExactIffClean(p1: Point, p2: Point)
    ensures (forall b: Box :: b.w >= 0.0 && b.h >= 0.0 ==> (Hits(p1, p2, b) <==> Meets(p1, p2, b))) <==> Clean(p1, p2)
  {
    if Clean(p1, p2) {
      forall b: Box | b.w >= 0.0 && b.h >= 0.0
        ensures Hits(p1, p2, b) <==> Meets(p1, p2, b)
      {
        CleanIsExact(p1, p2, b);
      }
    } else {
      TiltedMisses(p1, p2);
    }
  }

  lemma AdmitsFromOtherEnd(p: real, q: real, lo: real, hi: real, t: real)
    requires p == q || !IsFlat(q - p)
    ensures Admits(Axis(q - p, p, lo, hi), t) == Admits(Axis(p - q, q, lo, hi), 1.0 - t)
  {
    assert (1.0 - t) * (p - q) == (p - q) + t * (q - p);
  }

  lemma HitsFromOtherEnd(p1: Point, p2: Point, b: Box)
    requires Clean(p1, p2) && Hits(p1, p2, b)
    ensures Hits(p2, p1, b)
  {
    var t :| AllAdmit(AxesOf(p1, p2, b), 2, t);
    TwoAxes(p1, p2, b, t);
    TwoAxes(p2, p1, b, 1.0 - t);
    AdmitsFromOtherEnd(p1.x, p2.x, b.x, b.x + b.w, t);
    AdmitsFromOtherEnd(p1.y, p2.y, b.y, b.y + b.h, t);
    assert AllAdmit(AxesOf(p2, p1, b), 2, 1.0 - t);
  }

  /** Line of sight is mutual, whatever the buildings, exactly when the segment is clean. */
  lemma MutualIffClean(p1: Point, p2: Point)
    ensures (forall buildings: seq<Box> :: Sees(p1, p2, buildings) == Sees(p2, p1, buildings)) <==> Clean(p1, p2)
  {
    if Clean(p1, p2) {
      forall buildings: seq<Box>
        ensures Sees(p1, p2, buildings) == Sees(p2, p1, buildings)
      {
        forall i | 0 <= i < |buildings|
          ensures Hits(p1, p2, buildings[i]) == Hits(p2, p1, buildings[i])
        {
          if Hits(p1, p2, buildings[i]) {
            HitsFromOtherEnd(p1, p2, buildings[i]);
          } else if Hits(p2, p1, buildings[i]) {
            HitsFromOtherEnd(p2, p1, buildings[i]);
          }
        }
      }
    } else {
      TiltedMisses(p1, p2);
      var b := Wall(p1, p2, p2, p1.x != p2.x && IsFlat(p2.x - p1.x));
      assert Sees(p1, p2, [b]);
      assert Hits(p2, p1, [b][0]);
      assert !Sees(p2, p1, [b]);
    }
  }
}
