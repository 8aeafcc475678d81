/** Squared distances of points and segments, exactly. The source takes a square root last, so
    distances compare as their squares do. */
module Polyline {
  datatype Vertex = Vertex(x: real, y: real)

  function Lesser(a: real, b: real): real { if a <= b then a else b }

  function Greater(a: real, b: real): real { if a >= b then a else b }

  // products by name, so that proofs use the few laws they need

  function Times(a: real, b: real): real {
    a * b
  }

  lemma NotNegative(a: real, b: real)
    requires a >= 0.0 && b >= 0.0
    ensures Times(a, b) >= 0.0
  {
  }

  lemma Flip(a: real)
    ensures Times(-a, -a) == Times(a, a)
  {
  }

  lemma Spread(t: real, a: real, b: real)
    ensures Times(t, a + b) == Times(t, a) + Times(t, b)
    ensures Times(t, a - b) == Times(t, a) - Times(t, b)
  {
  }

  lemma Swap(a: real, b: real, c: real)
    ensures Times(a, Times(b, c)) == Times(b, Times(a, c))
    ensures Times(a, b) == Times(b, a)
  {
  }

  function Sq(a: real): (r: real)
    ensures r >= 0.0
  {
    SqNotNegative(a);
    Times(a, a)
  }

  lemma SqNotNegative(a: real)
    ensures Times(a, a) >= 0.0
  {
  }

  lemma SqDifference(a: real, b: real)
    ensures Sq(a - b) == Sq(a) - 2.0 * Times(a, b) + Sq(b)
    ensures Sq(a - b) == Sq(b - a)
  {
  }

  lemma SqTimes(a: real, b: real)
    ensures Sq(Times(a, b)) == Times(Sq(a), Sq(b))
  {
    Swap(Times(a, b), a, b);
    Swap(Times(a, b), b, a);
    assert (a * b) * (a * b) == (a * a) * (b * b);
  }

  lemma SqPositive(a: real)
    requires a != 0.0
    ensures Sq(a) > 0.0
  {
    Flip(a);
    if a > 0.0 { BothPositive(a, a); } else { BothPositive(-a, -a); }
  }

  lemma BothPositive(a: real, b: real)
    requires a > 0.0 && b > 0.0
    ensures Times(a, b) > 0.0
  {
  }

  lemma SqAtLeast(x: real, y: real)
    requires x >= y >= 0.0
    ensures Sq(x) >= Sq(y)
  {
    NotNegative(x - y, y);
    NotNegative(x, x - y);
    Spread(x, x, y);
    Swap(x, y, 0.0);
    Spread(y, x, y);
    Swap(x - y, y, 0.0);
  }

  // distances

  function Distance2(p: Vertex, q: Vertex): (d: real)
    ensures d >= 0.0
  {
    Sq(p.x - q.x) + Sq(p.y - q.y)
  }

  function Dot(p: Vertex, a: Vertex, b: Vertex): real {
    Times(p.x - a.x, b.x - a.x) + Times(p.y - a.y, b.y - a.y)
  }

  /** How far along a b, from 0 to 1, the point of it nearest to p lies. */
  function Along(p: Vertex, a: Vertex, b: Vertex): (t: real)
    ensures 0.0 <= t <= 1.0
  {
    var length2 := Distance2(a, b);
    var t := if length2 == 0.0 then 0.0 else Dot(p, a, b) / length2;
    if t < 0.0 then 0.0 else if t > 1.0 then 1.0 else t
  }

  function PointAt(a: Vertex, b: Vertex, t: real): Vertex {
    Vertex(a.x + Times(t, b.x - a.x), a.y + Times(t, b.y - a.y))
  }

  /** The square of `segment_distance`. */
  function SegmentDistance2(p: Vertex, a: Vertex, b: Vertex): (d: real)
    ensures d >= 0.0
  {
    Distance2(p, PointAt(a, b, Along(p, a, b)))
  }

  lemma ParabolaAxis(u: real, d: real, t: real)
    ensures Sq(u - Times(t, d)) == Sq(u) - 2.0 * Times(t, Times(u, d)) + Times(Sq(t), Sq(d))
  {
    SqDifference(u, Times(t, d));
    Swap(u, t, d);
    SqTimes(t, d);
  }

  /** The distance to a point of the line is a parabola in how far along it lies. */
  lemma Parabola(p: Vertex, a: Vertex, b: Vertex, t: real)
    ensures Distance2(p, PointAt(a, b, t))
         == Distance2(p, a) - 2.0 * Times(t, Dot(p, a, b)) + Times(Sq(t), Distance2(a, b))
  {
    var u, v := p.x - a.x, p.y - a.y;
    var dx, dy := b.x - a.x, b.y - a.y;
    var q := PointAt(a, b, t);
    assert p.x - q.x == u - Times(t, dx) && p.y - q.y == v - Times(t, dy);
    ParabolaAxis(u, dx, t);
    ParabolaAxis(v, dy, t);
    Spread(t, Times(u, dx), Times(v, dy));
    Spread(Sq(t), Sq(dx), Sq(dy));
    SqDifference(a.x, b.x);
    SqDifference(a.y, b.y);
  }

  lemma NoLengthNoDot(p: Vertex, a: Vertex, b: Vertex)
    requires Distance2(a, b) == 0.0
    ensures Dot(p, a, b) == 0.0
  {
    if a.x != b.x { SqPositive(a.x - b.x); }
    if a.y != b.y { SqPositive(a.y - b.y); }
    TimesZero(p.x - a.x);
    TimesZero(p.y - a.y);
  }

  lemma TimesZero(a: real)
    ensures Times(a, 0.0) == 0.0
  {
  }

  /** No point of the segment is nearer to p than `segment_distance` says. */
  lemma SegmentNearest(p: Vertex, a: Vertex, b: Vertex, t: real)
    requires 0.0 <= t <= 1.0
    ensures SegmentDistance2(p, a, b) <= Distance2(p, PointAt(a, b, t))
  {
    Parabola(p, a, b, Along(p, a, b));
    Parabola(p, a, b, t);
    AlongLeast(p, a, b, t);
  }

  lemma AlongLeast(p: Vertex, a: Vertex, b: Vertex, t: real)
    requires 0.0 <= t <= 1.0
    ensures var l, m, s := Distance2(a, b), Dot(p, a, b), Along(p, a, b);
      Times(Sq(s), l) - 2.0 * Times(s, m) <= Times(Sq(t), l) - 2.0 * Times(t, m)
  {
    var l, m, s := Distance2(a, b), Dot(p, a, b), Along(p, a, b);
    if l == 0.0 {
      NoLengthNoDot(p, a, b);
      TimesZero(Sq(s));
      TimesZero(Sq(t));
      TimesZero(s);
      TimesZero(t);
    } else {
      ParabolaLeast(l, m, m / l, s, t);
    }
  }

  /** l t^2 - 2 m t is least at m / l, or at the end of [0, 1] nearest to it. */
  lemma ParabolaLeast(l: real, m: real, r: real, s: real, t: real)
    requires l > 0.0 && 0.0 <= t <= 1.0 && m == r * l
    requires s == (if r < 0.0 then 0.0 else if r > 1.0 then 1.0 else r)
    ensures Times(Sq(s), l) - 2.0 * Times(s, m) <= Times(Sq(t), l) - 2.0 * Times(t, m)
  {
    var f := Times(t - s, t + s - 2.0 * r);
    if r < 0.0 {
      NotNegative(t, t - 2.0 * r);
    } else if r > 1.0 {
      NotNegative(1.0 - t, 2.0 * r - t - 1.0);
      Flipped(1.0 - t, 2.0 * r - t - 1.0);
    } else {
      SqNotNegative(t - r);
    }
    NotNegative(l, f);
    Factors(l, r, s, t);
    Swap(t, r, l);
    Swap(s, r, l);
  }

  lemma Flipped(a: real, b: real)
    ensures Times(-a, -b) == Times(a, b)
  {
  }

  lemma Factors(l: real, r: real, s: real, t: real)
    ensures Times(l, Times(t - s, t + s - 2.0 * r))
         == Times(Sq(t), l) - Times(Sq(s), l) - 2.0 * Times(t, Times(r, l)) + 2.0 * Times(s, Times(r, l))
  {
    assert (t - s) * (t + s - 2.0 * r) == t * t - s * s - 2.0 * (t * r) + 2.0 * (s * r);
    assert l * (t * t) == t * t * l && l * (s * s) == s * s * l;
    assert l * (t * r) == t * (r * l) && l * (s * r) == s * (r * l);
  }

  /** The ends of the segment are no nearer. */
  lemma SegmentEnds(p: Vertex, a: Vertex, b: Vertex)
    ensures SegmentDistance2(p, a, b) <= Distance2(p, a)
    ensures SegmentDistance2(p, a, b) <= Distance2(p, b)
  {
    SegmentNearest(p, a, b, 0.0);
    SegmentNearest(p, a, b, 1.0);
    assert PointAt(a, b, 0.0) == a && PointAt(a, b, 1.0) == b;
  }

  lemma EitherEnd(a: real, b: real, t: real)
    ensures a + Times(t, b - a) == b + Times(1.0 - t, a - b)
  {
  }

  /** Near one point of a segment, so near the segment from either end. */
  lemma NearEitherWay(p: Vertex, a: Vertex, b: Vertex, t: real, bound: real)
    requires 0.0 <= t <= 1.0 && Distance2(p, PointAt(a, b, t)) < bound
    ensures SegmentDistance2(p, a, b) < bound && SegmentDistance2(p, b, a) < bound
  {
    SegmentNearest(p, a, b, t);
    SegmentNearest(p, b, a, 1.0 - t);
    EitherEnd(a.x, b.x, t);
    EitherEnd(a.y, b.y, t);
  }

  /** The squared distance of a point over the inside of a segment. */
  lemma OverSegment(p: Vertex, a: Vertex, b: Vertex, t: real)
    requires 0.0 <= t <= 1.0 && Times(t, Distance2(a, b)) == Dot(p, a, b) && Distance2(a, b) > 0.0
    ensures SegmentDistance2(p, a, b) == Distance2(p, a) - Times(t, Dot(p, a, b))
  {
    Quotient(t, Distance2(a, b), Dot(p, a, b));
    Parabola(p, a, b, t);
    assert Times(Sq(t), Distance2(a, b)) == Times(t, Dot(p, a, b)) by {
      Swap(t, t, Distance2(a, b));
      Regroup(t, Distance2(a, b));
    }
  }

  lemma Quotient(t: real, l: real, k: real)
    requires Times(t, l) == k && l > 0.0
    ensures k / l == t
  {
  }

  lemma Regroup(t: real, l: real)
    ensures Times(Sq(t), l) == Times(t, Times(t, l))
  {
    assert t * t * l == t * (t * l);
  }
}
