/** Volume of a set of spheres, and of the part where they overlap, by rejection
    sampling inside their bounding parallelepiped (MC_spheres.C). */
module Spheres {
  import opened Numerics

  datatype Point = Point(x: real, y: real, z: real)

  /** A sphere with centre `c` and radius `r`. */
  datatype Sphere = Sphere(c: Point, r: real)

  datatype Axis = X | Y | Z

  /** `M_PI` as `<cmath>` spells it; the lemmas below only use that it is positive. */
  const Pi: real := 3.14159265358979323846

  function Coord(p: Point, a: Axis): real
  {
    match a
    case X => p.x
    case Y => p.y
    case Z => p.z
  }

  /** The lowest and highest extent of a sphere along an axis. */
  function Lo(s: Sphere, a: Axis): real { Coord(s.c, a) - s.r }
  function Hi(s: Sphere, a: Axis): real { Coord(s.c, a) + s.r }

  // ---------------------------------------------------------------- bounding box

  /** The value `min.a` holds after `find_min_and_max` has visited `ss`: it starts at
      DoubleMax and is lowered to `c.a - r` whenever that is strictly smaller. */
  function LowerBound(ss: seq<Sphere>, a: Axis): real
  {
    if ss == [] then DoubleMax
    else
      var m := LowerBound(ss[..|ss| - 1], a);
      if Lo(ss[|ss| - 1], a) < m then Lo(ss[|ss| - 1], a) else m
  }

  /** The value `max.a` holds after the same loop: it starts at -DoubleMax. */
  function UpperBound(ss: seq<Sphere>, a: Axis): real
  {
    if ss == [] then -DoubleMax
    else
      var m := UpperBound(ss[..|ss| - 1], a);
      if Hi(ss[|ss| - 1], a) > m then Hi(ss[|ss| - 1], a) else m
  }

  function MinCorner(ss: seq<Sphere>): Point
  {
    Point(LowerBound(ss, X), LowerBound(ss, Y), LowerBound(ss, Z))
  }

  function MaxCorner(ss: seq<Sphere>): Point
  {
    Point(UpperBound(ss, X), UpperBound(ss, Y), UpperBound(ss, Z))
  }

  /** The box encloses every sphere: its lower corner is at or below `c - r` and its
      upper corner at or above `c + r` on each axis. */
  lemma {:induction false} BoxEncloses(ss: seq<Sphere>, i: nat, a: Axis)
    requires i < |ss|
    ensures LowerBound(ss, a) <= Lo(ss[i], a)
    ensures Hi(ss[i], a) <= UpperBound(ss, a)
  {
    var k := |ss| - 1;
    if i < k {
      BoxEncloses(ss[..k], i, a);
      assert ss[..k][i] == ss[i];
    }
  }

  /** Each bound is either still the sentinel or is the extent of some sphere. */
  lemma {:induction false} BoundsAttained(ss: seq<Sphere>, a: Axis)
    ensures LowerBound(ss, a) == DoubleMax || exists i :: 0 <= i < |ss| && LowerBound(ss, a) == Lo(ss[i], a)
    ensures UpperBound(ss, a) == -DoubleMax || exists i :: 0 <= i < |ss| && UpperBound(ss, a) == Hi(ss[i], a)
  {
    if ss != [] {
      var k := |ss| - 1;
      BoundsAttained(ss[..k], a);
      if LowerBound(ss, a) != Lo(ss[k], a) && LowerBound(ss, a) != DoubleMax {
        var i :| 0 <= i < k && LowerBound(ss[..k], a) == Lo(ss[..k][i], a);
        assert LowerBound(ss, a) == Lo(ss[i], a);
      }
      if UpperBound(ss, a) != Hi(ss[k], a) && UpperBound(ss, a) != -DoubleMax {
        var i :| 0 <= i < k && UpperBound(ss[..k], a) == Hi(ss[..k][i], a);
        assert UpperBound(ss, a) == Hi(ss[i], a);
      }
    }
  }

  /** The box is tight: for a non-empty list whose extents are representable doubles,
      each bound is exactly `c - r` (or `c + r`) of some sphere of the list. */
  lemma BoxTight(ss: seq<Sphere>, a: Axis)
    requires |ss| > 0
    requires forall i :: 0 <= i < |ss| ==> Lo(ss[i], a) <= DoubleMax && -DoubleMax <= Hi(ss[i], a)
    ensures exists i :: 0 <= i < |ss| && LowerBound(ss, a) == Lo(ss[i], a)
    ensures exists j :: 0 <= j < |ss| && UpperBound(ss, a) == Hi(ss[j], a)
  {
    BoundsAttained(ss, a);
    BoxEncloses(ss, 0, a);
  }

  /** With non-negative radii and at least one sphere, every side of the box is >= 0. */
  lemma BoxOrdered(ss: seq<Sphere>, a: Axis)
    requires |ss| > 0
    requires forall i :: 0 <= i < |ss| ==> ss[i].r >= 0.0
    ensures LowerBound(ss, a) <= UpperBound(ss, a)
  {
    BoxEncloses(ss, 0, a);
  }

  /** `find_min_and_max`: the two corners of the axis-aligned box around all spheres. */
  method FindMinAndMax(spheres: seq<Sphere>) returns (min: Point, max: Point)
    ensures min == MinCorner(spheres) && max == MaxCorner(spheres)
    ensures forall i, a :: 0 <= i < |spheres| ==> Coord(min, a) <= Lo(spheres[i], a) && Hi(spheres[i], a) <= Coord(max, a)
    ensures spheres == [] ==> min == Point(DoubleMax, DoubleMax, DoubleMax) && max == Point(-DoubleMax, -DoubleMax, -DoubleMax)
  {
    min := Point(DoubleMax, DoubleMax, DoubleMax);
    max := Point(-DoubleMax, -DoubleMax, -DoubleMax);
    for k := 0 to |spheres|
      invariant min == MinCorner(spheres[..k]) && max == MaxCorner(spheres[..k])
    {
      var s := spheres[k];
      assert spheres[..k + 1][..k] == spheres[..k];
      if s.c.x - s.r < min.x {
        min := min.(x := s.c.x - s.r);
      }
      if s.c.y - s.r < min.y {
        min := min.(y := s.c.y - s.r);
      }
      if s.c.z - s.r < min.z {
        min := min.(z := s.c.z - s.r);
      }
      if s.c.x + s.r > max.x {
        max := max.(x := s.c.x + s.r);
      }
      if s.c.y + s.r > max.y {
        max := max.(y := s.c.y + s.r);
      }
      if s.c.z + s.r > max.z {
        max := max.(z := s.c.z + s.r);
      }
    }
    assert spheres[..|spheres|] == spheres;
    forall i, a | 0 <= i < |spheres|
      ensures Coord(min, a) <= Lo(spheres[i], a) && Hi(spheres[i], a) <= Coord(max, a)
    {
      BoxEncloses(spheres, i, a);
    }
  }

  /** The volume of the parallelepiped between two corners. */
  function BoxVolume(min: Point, max: Point): real
  {
    (max.x - min.x) * (max.y - min.y) * (max.z - min.z)
  }

  lemma BoxVolumeNonNegative(min: Point, max: Point)
    requires min.x <= max.x && min.y <= max.y && min.z <= max.z
    ensures BoxVolume(min, max) >= 0.0
  {
    var ab := (max.x - min.x) * (max.y - min.y);
    assert ab >= 0.0;
    assert BoxVolume(min, max) == ab * (max.z - min.z);
  }

  // ---------------------------------------------------------------- containment

  function SquaredDistance(p: Point, q: Point): real
  {
    (p.x - q.x) * (p.x - q.x) + (p.y - q.y) * (p.y - q.y) + (p.z - q.z) * (p.z - q.z)
  }

  /** The test of `is_inside_region` for one sphere; a point on the surface is inside. */
  predicate Contains(s: Sphere, p: Point)
  {
    SquaredDistance(p, s.c) <= s.r * s.r
  }

  /** How many spheres of `ss` contain `p`, counted in list order. */
  function ContainmentCount(p: Point, ss: seq<Sphere>): nat
  {
    if ss == [] then 0
    else ContainmentCount(p, ss[..|ss| - 1]) + (if Contains(ss[|ss| - 1], p) then 1 else 0)
  }

  /** The count never exceeds the number of spheres. */
  lemma {:induction false} ContainmentCountAtMost(p: Point, ss: seq<Sphere>)
    ensures ContainmentCount(p, ss) <= |ss|
  {
    if ss != [] {
      ContainmentCountAtMost(p, ss[..|ss| - 1]);
    }
  }

  /** The count is the number of indices of spheres that contain `p`. */
  lemma {:induction false} ContainmentCountIsCardinality(p: Point, ss: seq<Sphere>)
    ensures ContainmentCount(p, ss) == |set i | 0 <= i < |ss| && Contains(ss[i], p)|
  {
    if ss != [] {
      var k := |ss| - 1;
      ContainmentCountIsCardinality(p, ss[..k]);
      var before := set i | 0 <= i < k && Contains(ss[..k][i], p);
      var after := set i | 0 <= i < |ss| && Contains(ss[i], p);
      if Contains(ss[k], p) {
        assert after == before + {k};
      } else {
        assert after == before;
      }
    }
  }

  /** A point is counted at least once exactly when some sphere contains it. */
  lemma {:induction false} ContainedSomewhere(p: Point, ss: seq<Sphere>)
    ensures ContainmentCount(p, ss) >= 1 <==> exists i :: 0 <= i < |ss| && Contains(ss[i], p)
  {
    if ss != [] {
      var k := |ss| - 1;
      ContainedSomewhere(p, ss[..k]);
      if exists i :: 0 <= i < |ss| && Contains(ss[i], p) {
        var i :| 0 <= i < |ss| && Contains(ss[i], p);
        if i < k {
          assert Contains(ss[..k][i], p);
        }
      }
      if ContainmentCount(p, ss[..k]) >= 1 {
        var i :| 0 <= i < k && Contains(ss[..k][i], p);
        assert Contains(ss[i], p);
      }
    }
  }

  /** `is_inside_region`: whether `p` lies in at least `limit` of the spheres. */
  method IsInsideRegion(p: Point, spheres: seq<Sphere>, limit: nat) returns (inside: bool)
    ensures inside <==> ContainmentCount(p, spheres) >= limit
    ensures limit == 0 ==> inside
    ensures limit > |spheres| ==> !inside
  {
    var counter: nat := 0;
    for k := 0 to |spheres|
      invariant counter == ContainmentCount(p, spheres[..k])
      invariant counter <= k
    {
      var s := spheres[k];
      assert spheres[..k + 1][..k] == spheres[..k];
      if (p.x - s.c.x) * (p.x - s.c.x) +
         (p.y - s.c.y) * (p.y - s.c.y) +
         (p.z - s.c.z) * (p.z - s.c.z) <= s.r * s.r
      {
        counter := counter + 1;
      }
    }
    assert spheres[..|spheres|] == spheres;
    inside := counter >= limit;
  }

  lemma SquareStrictlyMonotone(u: real, v: real)
    requires 0.0 <= u < v
    ensures u * u < v * v
  {
    assert u * (v - u) >= 0.0;
    assert (v - u) * v > 0.0;
  }

  /** A square bounded by r^2 has its root within [-r, r]. */
  lemma SquareBound(d: real, r: real)
    requires 0.0 <= r && d * d <= r * r
    ensures -r <= d <= r
  {
    if d > r {
      SquareStrictlyMonotone(r, d);
      assert false;
    } else if d < -r {
      SquareStrictlyMonotone(r, -d);
      assert false;
    }
  }

  /** A point inside a sphere of non-negative radius lies within its extent on every axis. */
  lemma InsideSphereWithinExtent(s: Sphere, p: Point, a: Axis)
    requires s.r >= 0.0 && Contains(s, p)
    ensures Lo(s, a) <= Coord(p, a) <= Hi(s, a)
  {
    var dx, dy, dz := p.x - s.c.x, p.y - s.c.y, p.z - s.c.z;
    assert dx * dx >= 0.0 && dy * dy >= 0.0 && dz * dz >= 0.0;
    match a
    case X => SquareBound(dx, s.r);
    case Y => SquareBound(dy, s.r);
    case Z => SquareBound(dz, s.r);
  }

  /** Every point of the union lies in the bounding box, so sampling the box misses
      no part of the region being measured. */
  lemma UnionWithinBox(ss: seq<Sphere>, p: Point, a: Axis)
    requires forall i :: 0 <= i < |ss| ==> ss[i].r >= 0.0
    requires ContainmentCount(p, ss) >= 1
    ensures LowerBound(ss, a) <= Coord(p, a) <= UpperBound(ss, a)
  {
    ContainedSomewhere(p, ss);
    var i :| 0 <= i < |ss| && Contains(ss[i], p);
    InsideSphereWithinExtent(ss[i], p, a);
    BoxEncloses(ss, i, a);
  }

  // ---------------------------------------------------------------- hit counting

  /** How many of `points` lie in at least `limit` of the spheres. */
  function HitCount(ss: seq<Sphere>, points: seq<Point>, limit: nat): nat
  {
    if points == [] then 0
    else HitCount(ss, points[..|points| - 1], limit)
         + (if ContainmentCount(points[|points| - 1], ss) >= limit then 1 else 0)
  }

  lemma {:induction false} HitCountAtMost(ss: seq<Sphere>, points: seq<Point>, limit: nat)
    ensures HitCount(ss, points, limit) <= |points|
  {
    if points != [] {
      HitCountAtMost(ss, points[..|points| - 1], limit);
    }
  }

  /** Raising the threshold can only lose hits: `overlapping_hits <= hits`. */
  lemma {:induction false} HitCountAntitone(ss: seq<Sphere>, points: seq<Point>, k1: nat, k2: nat)
    requires k1 <= k2
    ensures HitCount(ss, points, k2) <= HitCount(ss, points, k1)
  {
    if points != [] {
      HitCountAntitone(ss, points[..|points| - 1], k1, k2);
    }
  }

  /** With a single sphere no point is ever an overlap hit. */
  lemma {:induction false} SingleSphereNoOverlap(s: Sphere, points: seq<Point>)
    ensures HitCount([s], points, 2) == 0
  {
    if points != [] {
      SingleSphereNoOverlap(s, points[..|points| - 1]);
      ContainmentCountAtMost(points[|points| - 1], [s]);
    }
  }

  /** For two coincident copies of one sphere every hit is an overlap hit. */
  lemma {:induction false} CoincidentSpheresOverlapFully(s: Sphere, points: seq<Point>)
    ensures HitCount([s, s], points, 2) == HitCount([s, s], points, 1)
  {
    if points != [] {
      CoincidentSpheresOverlapFully(s, points[..|points| - 1]);
      var p := points[|points| - 1];
      assert [s, s][..1] == [s];
      assert [s][..0] == [];
      assert ContainmentCount(p, [s]) == if Contains(s, p) then 1 else 0;
      assert ContainmentCount(p, [s, s]) == if Contains(s, p) then 2 else 0;
    }
  }

  /** Sample sets drawn separately can be counted separately and added. */
  lemma {:induction false} HitCountAppend(ss: seq<Sphere>, p1: seq<Point>, p2: seq<Point>, limit: nat)
    ensures HitCount(ss, p1 + p2, limit) == HitCount(ss, p1, limit) + HitCount(ss, p2, limit)
  {
    if p2 != [] {
      var k := |p2| - 1;
      HitCountAppend(ss, p1, p2[..k], limit);
      assert (p1 + p2)[..|p1 + p2| - 1] == p1 + p2[..k];
    } else {
      assert p1 + p2 == p1;
    }
  }

  /** The hit and overlap counting loop of `main`. */
  method CountHits(spheres: seq<Sphere>, points: seq<Point>) returns (hits: nat, overlappingHits: nat)
    ensures hits == HitCount(spheres, points, 1)
    ensures overlappingHits == HitCount(spheres, points, 2)
    ensures overlappingHits <= hits <= |points|
  {
    hits, overlappingHits := 0, 0;
    for k := 0 to |points|
      invariant hits == HitCount(spheres, points[..k], 1)
      invariant overlappingHits == HitCount(spheres, points[..k], 2)
    {
      var rp := points[k];
      assert points[..k + 1][..k] == points[..k];
      var inOne := IsInsideRegion(rp, spheres, 1);
      if inOne {
        hits := hits + 1;
      }
      var inTwo := IsInsideRegion(rp, spheres, 2);
      if inTwo {
        overlappingHits := overlappingHits + 1;
      }
    }
    assert points[..|points|] == points;
    HitCountAntitone(spheres, points, 1, 2);
    HitCountAtMost(spheres, points, 1);
  }

  // ---------------------------------------------------------------- theoretical volume

  /** 4 * pi * r^3 / 3, multiplied in the order the source writes it. */
  function SphereVolume(s: Sphere): real
  {
    4.0 * Pi * s.r * s.r * s.r / 3.0
  }

  /** The sum of the spheres' volumes, accumulated in list order, with no overlap correction. */
  function TheoreticalVolume(ss: seq<Sphere>): real
  {
    if ss == [] then 0.0 else TheoreticalVolume(ss[..|ss| - 1]) + SphereVolume(ss[|ss| - 1])
  }

  lemma SphereVolumeNonNegative(s: Sphere)
    requires s.r >= 0.0
    ensures SphereVolume(s) >= 0.0
  {
    var r2 := s.r * s.r;
    assert r2 >= 0.0;
    var r3 := r2 * s.r;
    assert r3 >= 0.0;
    assert 4.0 * Pi * s.r * s.r * s.r == 4.0 * Pi * r3;
  }

  lemma {:induction false} TheoreticalVolumeNonNegative(ss: seq<Sphere>)
    requires forall i :: 0 <= i < |ss| ==> ss[i].r >= 0.0
    ensures TheoreticalVolume(ss) >= 0.0
  {
    if ss != [] {
      var k := |ss| - 1;
      assert forall i :: 0 <= i < k ==> ss[..k][i] == ss[i];
      TheoreticalVolumeNonNegative(ss[..k]);
      SphereVolumeNonNegative(ss[k]);
    }
  }

  /** The theoretical volume is additive over concatenation of sphere lists. */
  lemma {:induction false} TheoreticalVolumeAppend(s1: seq<Sphere>, s2: seq<Sphere>)
    ensures TheoreticalVolume(s1 + s2) == TheoreticalVolume(s1) + TheoreticalVolume(s2)
  {
    if s2 != [] {
      var k := |s2| - 1;
      TheoreticalVolumeAppend(s1, s2[..k]);
      assert (s1 + s2)[..|s1 + s2| - 1] == s1 + s2[..k];
    } else {
      assert s1 + s2 == s1;
    }
  }

  /** `compute_spheres_theoretical_volume`. */
  method ComputeTheoreticalVolume(spheres: seq<Sphere>) returns (volume: real)
    ensures volume == TheoreticalVolume(spheres)
    ensures (forall i :: 0 <= i < |spheres| ==> spheres[i].r >= 0.0) ==> volume >= 0.0
  {
    volume := 0.0;
    for k := 0 to |spheres|
      invariant volume == TheoreticalVolume(spheres[..k])
    {
      var s := spheres[k];
      assert spheres[..k + 1][..k] == spheres[..k];
      volume := volume + 4.0 * Pi * s.r * s.r * s.r / 3.0;
    }
    assert spheres[..|spheres|] == spheres;
    if forall i :: 0 <= i < |spheres| ==> spheres[i].r >= 0.0 {
      TheoreticalVolumeNonNegative(spheres);
    }
  }

  // ---------------------------------------------------------------- the estimator

  /** The point lies in the closed box between the two corners. */
  predicate WithinBox(p: Point, min: Point, max: Point)
  {
    min.x <= p.x <= max.x && min.y <= p.y <= max.y && min.z <= p.z <= max.z
  }

  /** A box that holds some point has every side >= 0, hence a volume >= 0; the
      inverted sentinel box of an empty list holds none. */
  lemma OccupiedBoxNonNegative(p: Point, min: Point, max: Point)
    requires WithinBox(p, min, max)
    ensures BoxVolume(min, max) >= 0.0
  {
    BoxVolumeNonNegative(min, max);
  }

  /** For a non-empty list with non-negative radii the parallelepiped has a
      non-negative volume, and `overlapping_hits <= hits <= num`. */
  lemma EstimateIngredients(spheres: seq<Sphere>, points: seq<Point>)
    requires |spheres| > 0
    requires forall i :: 0 <= i < |spheres| ==> spheres[i].r >= 0.0
    ensures BoxVolume(MinCorner(spheres), MaxCorner(spheres)) >= 0.0
    ensures HitCount(spheres, points, 2) <= HitCount(spheres, points, 1) <= |points|
  {
    BoxOrdered(spheres, X);
    BoxOrdered(spheres, Y);
    BoxOrdered(spheres, Z);
    BoxVolumeNonNegative(MinCorner(spheres), MaxCorner(spheres));
    HitCountAntitone(spheres, points, 1, 2);
    HitCountAtMost(spheres, points, 1);
  }

  /** The estimation part of `main` (lines 183-223): the box, the counting loop over
      the drawn points (one point per iteration) and the two scaled volumes. The
      parallelepiped volume is side_a * side_b * side_c, as BoxVolume computes it. */
  method EstimateVolumes(spheres: seq<Sphere>, points: seq<Point>)
    returns (minp: Point, maxp: Point, res: Quotient, overlappingRes: Quotient)
    requires forall i :: 0 <= i < |points| ==> WithinBox(points[i], MinCorner(spheres), MaxCorner(spheres))
    ensures minp == MinCorner(spheres) && maxp == MaxCorner(spheres)
    ensures res == ScaleByFraction(BoxVolume(minp, maxp), HitCount(spheres, points, 1), |points|)
    ensures overlappingRes == ScaleByFraction(BoxVolume(minp, maxp), HitCount(spheres, points, 2), |points|)
    ensures |points| > 0 ==> 0.0 <= overlappingRes.v <= res.v <= BoxVolume(minp, maxp)
  {
    minp, maxp := FindMinAndMax(spheres);
    var hits, overlappingHits := CountHits(spheres, points);
    var volume := BoxVolume(minp, maxp);
    res := ScaleByFraction(volume, hits, |points|);
    overlappingRes := ScaleByFraction(volume, overlappingHits, |points|);
    if |points| > 0 {
      OccupiedBoxNonNegative(points[0], minp, maxp);
      HitCountAntitone(spheres, points, 1, 2);
      HitCountAtMost(spheres, points, 1);
      ScaledCountsOrdered(volume, hits, overlappingHits, |points|);
    }
  }
}
