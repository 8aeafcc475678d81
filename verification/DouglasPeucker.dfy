/** `simplify` of demo/outline.py: Douglas-Peucker on a closed ring. Its split points do not
    depend on the tolerance, so a larger tolerance keeps fewer corners, all of them among
    those a smaller one keeps. */
module DouglasPeucker {
  import opened Polyline

  type Ring = seq<Vertex>

  /** A distance whose square is d2 is greater than epsilon. */
  predicate Exceeds(d2: real, epsilon: real) {
    epsilon < 0.0 || d2 > Sq(epsilon)
  }

  lemma ExceedsLess(d2: real, small: real, large: real)
    requires small <= large && Exceeds(d2, large)
    ensures Exceeds(d2, small)
  {
    if small >= 0.0 {
      SqAtLeast(large, small);
    }
  }

  /** Corner b of the ring, where the corner after the last is the first. */
  function CornerAt(ring: Ring, b: nat): Vertex
    requires |ring| > 0 && b <= |ring|
  {
    ring[if b < |ring| then b else 0]
  }

  /** How far corner n lies from the chord between corners a and b. */
  function Chord2(ring: Ring, n: nat, a: nat, b: nat): (d: real)
    requires a < n < b <= |ring|
  {
    SegmentDistance2(ring[n], ring[a], CornerAt(ring, b))
  }

  /** The first of the corners a + 1 .. k - 1 that lies farthest from the chord of a and b. */
  function Peak(ring: Ring, a: nat, b: nat, k: nat): (at: nat)
    requires a + 1 < k <= b <= |ring|
    ensures a < at < k
    ensures forall n :: a < n < k ==> Chord2(ring, n, a, b) <= Chord2(ring, at, a, b)
  {
    if k == a + 2 then a + 1
    else
      var before := Peak(ring, a, b, k - 1);
      if Chord2(ring, k - 1, a, b) > Chord2(ring, before, a, b) then k - 1 else before
  }

  /** The corners that the recursion keeps strictly between a and b. */
  function Splits(ring: Ring, a: nat, b: nat, epsilon: real): (keep: set<nat>)
    requires a <= b <= |ring|
    ensures forall n :: n in keep ==> a < n < b
    decreases b - a
  {
    if b - a < 2 then {}
    else
      var at := Peak(ring, a, b, b);
      if !Exceeds(Chord2(ring, at, a, b), epsilon) then {}
      else {at} + Splits(ring, a, at, epsilon) + Splits(ring, at, b, epsilon)
  }

  /** A larger tolerance keeps a subset. */
  lemma {:induction false} SplitsShrink(ring: Ring, a: nat, b: nat, small: real, large: real)
    requires a <= b <= |ring| && small <= large
    ensures Splits(ring, a, b, large) <= Splits(ring, a, b, small)
    decreases b - a
  {
    if b - a >= 2 {
      var at := Peak(ring, a, b, b);
      if Exceeds(Chord2(ring, at, a, b), large) {
        ExceedsLess(Chord2(ring, at, a, b), small, large);
        SplitsShrink(ring, a, at, small, large);
        SplitsShrink(ring, at, b, small, large);
      }
    }
  }

  /** n lies between the neighbouring kept corners p and q, and within epsilon of their chord. */
  ghost predicate Near(ring: Ring, keep: set<nat>, n: nat, p: nat, q: nat, epsilon: real) {
    && p < n < q <= |ring|
    && p in keep && q in keep && (forall m :: p < m < q ==> m !in keep)
    && !Exceeds(Chord2(ring, n, p, q), epsilon)
  }

  lemma NearAmongMore(ring: Ring, keep: set<nat>, more: set<nat>, n: nat, p: nat, q: nat, epsilon: real)
    requires Near(ring, keep, n, p, q, epsilon)
    requires forall m :: p <= m <= q ==> (m in keep <==> m in more)
    ensures Near(ring, more, n, p, q, epsilon)
  {
  }

  /** Every corner the recursion drops is within epsilon of the chord of its kept neighbours. */
  lemma {:induction false} SplitsNear(ring: Ring, a: nat, b: nat, epsilon: real, n: nat) returns (p: nat, q: nat)
    requires a < n < b <= |ring| && n !in Splits(ring, a, b, epsilon)
    ensures a <= p && q <= b && Near(ring, Splits(ring, a, b, epsilon) + {a, b}, n, p, q, epsilon)
    decreases b - a
  {
    var at := Peak(ring, a, b, b);
    var keep := Splits(ring, a, b, epsilon) + {a, b};
    if !Exceeds(Chord2(ring, at, a, b), epsilon) {
      p, q := a, b;
    } else if n < at {
      p, q := SplitsNear(ring, a, at, epsilon, n);
      NearAmongMore(ring, Splits(ring, a, at, epsilon) + {a, at}, keep, n, p, q, epsilon);
    } else {
      p, q := SplitsNear(ring, at, b, epsilon, n);
      NearAmongMore(ring, Splits(ring, at, b, epsilon) + {at, b}, keep, n, p, q, epsilon);
    }
  }

  /** The first corner farthest from the ring's first, among its first k. */
  function Far(ring: Ring, k: nat): (far: nat)
    requires 0 < k <= |ring|
    ensures far < k
    ensures forall n :: 0 <= n < k ==> Distance2(ring[0], ring[n]) <= Distance2(ring[0], ring[far])
  {
    if k == 1 then 0
    else
      var before := Far(ring, k - 1);
      if Distance2(ring[0], ring[k - 1]) > Distance2(ring[0], ring[before]) then k - 1 else before
  }

  lemma FarIs(ring: Ring, far: nat, bound: real)
    requires far < |ring| && Distance2(ring[0], ring[far]) > bound
    requires forall n: nat :: n < |ring| && n != far ==> Distance2(ring[0], ring[n]) <= bound
    ensures Far(ring, |ring|) == far
  {
    assert Distance2(ring[0], ring[far]) <= Distance2(ring[0], ring[Far(ring, |ring|)]);
  }

  /** The corners kept by the recursion over both halves of the ring. */
  function Kept(ring: Ring, epsilon: real): (keep: set<nat>)
    requires |ring| > 0
    ensures 0 in keep && forall n :: n in keep ==> n < |ring|
  {
    var far := Far(ring, |ring|);
    {0, far} + Splits(ring, 0, far, epsilon) + Splits(ring, far, |ring|, epsilon)
  }

  lemma KeptShrinks(ring: Ring, small: real, large: real)
    requires |ring| > 0 && small <= large
    ensures Kept(ring, large) <= Kept(ring, small)
  {
    var far := Far(ring, |ring|);
    SplitsShrink(ring, 0, far, small, large);
    SplitsShrink(ring, far, |ring|, small, large);
  }

  /** Of the first k corners not kept, the first farthest from the first split's chord. */
  function Spare(ring: Ring, keep: set<nat>, far: nat, k: nat): (n: nat)
    requires far < |ring| && k <= |ring| && exists m :: 0 <= m < k && m !in keep
    ensures n < k && n !in keep
    ensures forall m :: 0 <= m < k && m !in keep ==>
      SegmentDistance2(ring[m], ring[0], ring[far]) <= SegmentDistance2(ring[n], ring[0], ring[far])
    ensures forall m :: 0 <= m < n && m !in keep ==>
      SegmentDistance2(ring[m], ring[0], ring[far]) < SegmentDistance2(ring[n], ring[0], ring[far])
  {
    if k - 1 in keep then Spare(ring, keep, far, k - 1)
    else if forall m :: 0 <= m < k - 1 ==> m in keep then k - 1
    else
      var before := Spare(ring, keep, far, k - 1);
      if SegmentDistance2(ring[k - 1], ring[0], ring[far]) > SegmentDistance2(ring[before], ring[0], ring[far])
      then k - 1 else before
  }

  lemma SpareNext(ring: Ring, keep: set<nat>, far: nat, k: nat)
    requires far < |ring| && k < |ring| && exists m :: 0 <= m < k && m !in keep
    ensures var before := Spare(ring, keep, far, k);
      Spare(ring, keep, far, k + 1)
      == if k !in keep
            && SegmentDistance2(ring[k], ring[0], ring[far]) > SegmentDistance2(ring[before], ring[0], ring[far])
         then k else before
  {
  }

  /** The kept corners among the first k, in order. */
  function Select(ring: Ring, keep: set<nat>, k: nat): Ring
    requires k <= |ring|
  {
    if k == 0 then []
    else if k - 1 in keep then Select(ring, keep, k - 1) + [ring[k - 1]]
    else Select(ring, keep, k - 1)
  }

  lemma {:induction false} SelectLength(ring: Ring, keep: set<nat>, k: nat)
    requires k <= |ring| && forall n :: n in keep ==> n < k
    ensures |Select(ring, keep, k)| == |keep|
  {
    if k > 0 {
      SelectAlike(ring, keep, keep - {k - 1}, k - 1);
      SelectLength(ring, keep - {k - 1}, k - 1);
    } else {
      assert keep == {};
    }
  }

  lemma {:induction false} SelectAlike(ring: Ring, keep: set<nat>, other: set<nat>, k: nat)
    requires k <= |ring| && forall n :: 0 <= n < k ==> (n in keep <==> n in other)
    ensures Select(ring, keep, k) == Select(ring, other, k)
  {
    if k > 0 {
      SelectAlike(ring, keep, other, k - 1);
    }
  }

  lemma SizeLess(a: set<nat>, b: set<nat>)
    requires a <= b
    ensures |a| <= |b|
  {
    if a != {} {
      var x :| x in a;
      SizeLess(a - {x}, b - {x});
    }
  }

  function Below(k: nat): (all: set<nat>)
    ensures |all| == k && forall n :: n in all <==> 0 <= n < k
  {
    if k == 0 then {} else Below(k - 1) + {k - 1}
  }

  /** A corner is left over where fewer are kept than the ring has. */
  lemma SpareExists(ring: Ring, keep: set<nat>)
    requires |keep| < |ring|
    ensures exists m :: 0 <= m < |ring| && m !in keep
  {
    if Below(|ring|) <= keep {
      SizeLess(Below(|ring|), keep);
    }
  }

  /** The indices of the corners that `simplify` returns. */
  function KeptAll(ring: Ring, epsilon: real): (keep: set<nat>)
    requires |ring| > 3
    ensures forall n :: n in keep ==> n < |ring|
  {
    var keep := Kept(ring, epsilon);
    if |keep| >= 3 then keep
    else
      SpareExists(ring, keep);
      keep + {Spare(ring, keep, Far(ring, |ring|), |ring|)}
  }

  /** What `simplify` returns. */
  function Simplified(ring: Ring, epsilon: real): Ring {
    if |ring| <= 3 then ring else Select(ring, KeptAll(ring, epsilon), |ring|)
  }

  lemma SimplifiedLength(ring: Ring, epsilon: real)
    requires |ring| > 3
    ensures |Simplified(ring, epsilon)| == |KeptAll(ring, epsilon)|
    ensures |KeptAll(ring, epsilon)|
            == if |Kept(ring, epsilon)| < 3 then |Kept(ring, epsilon)| + 1 else |Kept(ring, epsilon)|
  {
    SelectLength(ring, KeptAll(ring, epsilon), |ring|);
    var keep := Kept(ring, epsilon);
    if |keep| < 3 {
      SpareExists(ring, keep);
      var spare := Spare(ring, keep, Far(ring, |ring|), |ring|);
      assert spare !in keep;
    }
  }

  /** A larger tolerance never leaves more corners. */
  lemma SimplifiedShrinks(ring: Ring, small: real, large: real)
    requires small <= large
    ensures |Simplified(ring, large)| <= |Simplified(ring, small)|
  {
    if |ring| > 3 {
      KeptShrinks(ring, small, large);
      SizeLess(Kept(ring, large), Kept(ring, small));
      SimplifiedLength(ring, small);
      SimplifiedLength(ring, large);
    }
  }

  lemma DroppedNearKept(ring: Ring, epsilon: real, n: nat) returns (p: nat, q: nat)
    requires n < |ring| && n !in Kept(ring, epsilon)
    ensures Near(ring, Kept(ring, epsilon) + {|ring|}, n, p, q, epsilon)
  {
    var far := Far(ring, |ring|);
    var l, r := Splits(ring, 0, far, epsilon), Splits(ring, far, |ring|, epsilon);
    if n < far {
      p, q := SplitsNear(ring, 0, far, epsilon, n);
    } else {
      p, q := SplitsNear(ring, far, |ring|, epsilon, n);
    }
    NearInHalf(ring, l, r, far, Kept(ring, epsilon) + {|ring|}, n, p, q, epsilon);
  }

  /** Whenever the recursion keeps three corners, every dropped one is within the tolerance of
      the chord of the two returned corners around it. */
  lemma DroppedAreNear(ring: Ring, epsilon: real, n: nat) returns (p: nat, q: nat)
    requires |ring| > 3 && |Kept(ring, epsilon)| >= 3
    requires n < |ring| && n !in KeptAll(ring, epsilon)
    ensures Near(ring, KeptAll(ring, epsilon) + {|ring|}, n, p, q, epsilon)
  {
    p, q := DroppedNearKept(ring, epsilon, n);
  }

  lemma NearInHalf(ring: Ring, l: set<nat>, r: set<nat>, far: nat, all: set<nat>, n: nat, p: nat, q: nat, epsilon: real)
    requires all == {0, far} + l + r + {|ring|} && far < |ring|
    requires (forall m :: m in l ==> m < far) && (forall m :: m in r ==> far < m < |ring|)
    requires (q <= far && Near(ring, l + {0, far}, n, p, q, epsilon))
          || (p >= far && Near(ring, r + {far, |ring|}, n, p, q, epsilon))
    ensures Near(ring, all, n, p, q, epsilon)
  {
    if q <= far {
      NearAmongMore(ring, l + {0, far}, all, n, p, q, epsilon);
    } else {
      NearAmongMore(ring, r + {far, |ring|}, all, n, p, q, epsilon);
    }
  }

  // at least three corners

  ghost predicate AllTheSame(ring: Ring) {
    forall n :: 0 <= n < |ring| ==> ring[n] == ring[0]
  }

  lemma ApartOrEqual(p: Vertex, q: Vertex)
    ensures Distance2(p, q) == 0.0 <==> p == q
  {
    if p.x != q.x { SqPositive(p.x - q.x); }
    if p.y != q.y { SqPositive(p.y - q.y); }
    TimesZero(0.0);
  }

  /** The farthest corner is the first one exactly if the ring is a single point. */
  lemma FarIsFirst(ring: Ring)
    requires |ring| > 0
    ensures Far(ring, |ring|) == 0 <==> AllTheSame(ring)
  {
    var far := Far(ring, |ring|);
    ApartOrEqual(ring[0], ring[0]);
    if far == 0 {
      forall n | 0 <= n < |ring| ensures ring[n] == ring[0] {
        ApartOrEqual(ring[0], ring[n]);
      }
    } else {
      FarAhead(ring, |ring|);
      ApartOrEqual(ring[0], ring[far]);
    }
  }

  lemma {:induction false} FarAhead(ring: Ring, k: nat)
    requires 0 < k <= |ring| && Far(ring, k) > 0
    ensures Distance2(ring[0], ring[Far(ring, k)]) > Distance2(ring[0], ring[0])
  {
    if Far(ring, k - 1) > 0 {
      FarAhead(ring, k - 1);
    }
  }

  /** At least three corners are returned unless the ring has fewer, or more than three that
      all coincide: then two are. */
  lemma ThreeCorners(ring: Ring, epsilon: real)
    requires epsilon >= 0.0
    ensures |Simplified(ring, epsilon)| >= 3 <==> |ring| == 3 || (|ring| > 3 && !AllTheSame(ring))
    ensures |ring| > 3 && AllTheSame(ring) ==> |Simplified(ring, epsilon)| == 2
  {
    if |ring| > 3 {
      FarIsFirst(ring);
      SimplifiedLength(ring, epsilon);
      var far := Far(ring, |ring|);
      if far > 0 {
        SizeLess({0, far}, Kept(ring, epsilon));
      } else {
        OnePoint(ring, epsilon);
        assert Kept(ring, epsilon) == {0};
      }
    }
  }

  lemma OnePoint(ring: Ring, epsilon: real)
    requires |ring| > 3 && AllTheSame(ring) && epsilon >= 0.0
    ensures Splits(ring, 0, |ring|, epsilon) == {}
  {
    var at := Peak(ring, 0, |ring|, |ring|);
    SegmentEnds(ring[at], ring[0], ring[0]);
    ApartOrEqual(ring[at], ring[0]);
  }

  // what the put-back corner does

  /** Every dropped corner is within the tolerance of the chord of the two returned corners
      around it. */
  ghost predicate AllNear(ring: Ring, epsilon: real)
    requires |ring| > 3
  {
    forall n: nat :: n < |ring| && n !in KeptAll(ring, epsilon)
      ==> NearSome(ring, KeptAll(ring, epsilon) + {|ring|}, n, epsilon)
  }

  ghost predicate NearSome(ring: Ring, keep: set<nat>, n: nat, epsilon: real) {
    exists p, q :: Near(ring, keep, n, p, q, epsilon)
  }

  /** The other corners between a and b are within the tolerance of the chord from a to spare or
      from spare to b, whichever spans them. */
  ghost predicate BothChordsNear(ring: Ring, a: nat, spare: nat, b: nat, epsilon: real)
    requires a < spare < b <= |ring|
  {
    && (forall n: nat :: a < n < spare ==> !Exceeds(Chord2(ring, n, a, spare), epsilon))
    && (forall n: nat :: spare < n < b ==> !Exceeds(Chord2(ring, n, spare, b), epsilon))
  }

  /** In the half that the put-back corner splits, the others are near its two new chords. */
  ghost predicate SplitHalfNear(ring: Ring, epsilon: real)
    requires |ring| > 3 && |Kept(ring, epsilon)| < 3
  {
    var far, spare := Far(ring, |ring|), PutBack(ring, epsilon);
    if spare < far then BothChordsNear(ring, 0, spare, far, epsilon)
    else BothChordsNear(ring, far, spare, |ring|, epsilon)
  }

  function PutBack(ring: Ring, epsilon: real): (n: nat)
    requires |ring| > 3 && |Kept(ring, epsilon)| < 3
    ensures n < |ring| && n !in Kept(ring, epsilon) && n != 0 && n != Far(ring, |ring|)
    ensures KeptAll(ring, epsilon) == Kept(ring, epsilon) + {n}
  {
    SpareExists(ring, Kept(ring, epsilon));
    Spare(ring, Kept(ring, epsilon), Far(ring, |ring|), |ring|)
  }

  /** With fewer than three kept corners the recursion has split neither half. */
  lemma NoSplits(ring: Ring, epsilon: real)
    requires |ring| > 3 && |Kept(ring, epsilon)| < 3
    ensures var far := Far(ring, |ring|);
      Splits(ring, 0, far, epsilon) == {} && Splits(ring, far, |ring|, epsilon) == {} && Kept(ring, epsilon) == {0, far}
  {
    SplitsMakeThree(ring, epsilon);
  }

  /** The put-back corner is the one farther from the first chord than all others. */
  lemma PutBackIs(ring: Ring, far: nat, epsilon: real, n: nat)
    requires |ring| > 3 && Kept(ring, epsilon) == {0, far} && far == Far(ring, |ring|)
    requires n < |ring| && n != 0 && n != far
    requires forall m: nat :: m < |ring| && m != 0 && m != far && m != n ==>
               SegmentDistance2(ring[m], ring[0], ring[far]) < SegmentDistance2(ring[n], ring[0], ring[far])
    ensures |Kept(ring, epsilon)| < 3 && PutBack(ring, epsilon) == n
  {
    assert |{0, far}| <= 2;
    var spare := PutBack(ring, epsilon);
    assert SegmentDistance2(ring[n], ring[0], ring[far]) <= SegmentDistance2(ring[spare], ring[0], ring[far]);
  }

  lemma SplitsMakeThree(ring: Ring, epsilon: real)
    requires |ring| > 3
    ensures var far := Far(ring, |ring|);
      Splits(ring, 0, far, epsilon) != {} || Splits(ring, far, |ring|, epsilon) != {} ==> |Kept(ring, epsilon)| >= 3
  {
    var far := Far(ring, |ring|);
    if m: nat :| m in Splits(ring, 0, far, epsilon) {
      ThirdMakesThree(ring, m, epsilon);
    }
    if m: nat :| m in Splits(ring, far, |ring|, epsilon) {
      if far > 0 {
        ThirdMakesThree(ring, m, epsilon);
      } else {
        WholeSplits(ring, epsilon);
      }
    }
  }

  lemma ThirdMakesThree(ring: Ring, m: nat, epsilon: real)
    requires |ring| > 3 && m in Kept(ring, epsilon) && m != 0 && m != Far(ring, |ring|) > 0
    ensures |Kept(ring, epsilon)| >= 3
  {
    SizeLess({0, m, Far(ring, |ring|)}, Kept(ring, epsilon));
  }

  /** A ring of one point is split nowhere, unless the tolerance is below zero: then everywhere. */
  lemma WholeSplits(ring: Ring, epsilon: real)
    requires |ring| > 3 && Far(ring, |ring|) == 0
    ensures Splits(ring, 0, |ring|, epsilon) != {} ==> |Kept(ring, epsilon)| >= 3
  {
    if epsilon >= 0.0 {
      FarIsFirst(ring);
      OnePoint(ring, epsilon);
    } else {
      SplitsAll(ring, 0, |ring|, epsilon);
      SizeLess({0, 1, 2}, Kept(ring, epsilon));
    }
  }

  /** A corner strictly between a and b lies farther than epsilon from their chord. */
  ghost predicate Bends(ring: Ring, a: nat, b: nat, epsilon: real)
    requires a <= b <= |ring|
  {
    exists n: nat :: IsBend(ring, a, b, n, epsilon)
  }

  predicate IsBend(ring: Ring, a: nat, b: nat, n: nat, epsilon: real)
    requires a <= b <= |ring|
  {
    a < n < b && Exceeds(Chord2(ring, n, a, b), epsilon)
  }

  lemma SplitsWhereBends(ring: Ring, a: nat, b: nat, epsilon: real)
    requires a <= b <= |ring|
    ensures Splits(ring, a, b, epsilon) != {} <==> Bends(ring, a, b, epsilon)
  {
    if b - a >= 2 {
      var at := Peak(ring, a, b, b);
      if Exceeds(Chord2(ring, at, a, b), epsilon) {
        assert IsBend(ring, a, b, at, epsilon) && at in Splits(ring, a, b, epsilon);
      }
    }
  }

  /** The recursion keeps three corners exactly if a corner of one half of the ring, from the first to
      the farthest or from there round, lies farther than epsilon from the half's chord. */
  lemma ThreeKept(ring: Ring, epsilon: real)
    requires |ring| > 3
    ensures var far := Far(ring, |ring|);
      |Kept(ring, epsilon)| >= 3 <==> Bends(ring, 0, far, epsilon) || Bends(ring, far, |ring|, epsilon)
  {
    var far := Far(ring, |ring|);
    SplitsWhereBends(ring, 0, far, epsilon);
    SplitsWhereBends(ring, far, |ring|, epsilon);
    SplitsMakeThree(ring, epsilon);
    if Splits(ring, 0, far, epsilon) == {} && Splits(ring, far, |ring|, epsilon) == {} {
      assert Kept(ring, epsilon) == {0, far} && |{0, far}| <= 2;
    }
  }

  lemma {:induction false} SplitsAll(ring: Ring, a: nat, b: nat, epsilon: real)
    requires a <= b <= |ring| && epsilon < 0.0
    ensures forall n: nat :: a < n < b ==> n in Splits(ring, a, b, epsilon)
    decreases b - a
  {
    if b - a >= 2 {
      var at := Peak(ring, a, b, b);
      SplitsAll(ring, a, at, epsilon);
      SplitsAll(ring, at, b, epsilon);
    }
  }

  /** Between a and b the only returned corner is spare: what a dropped one is near to. */
  lemma NearAroundSpare(ring: Ring, keep: set<nat>, a: nat, spare: nat, b: nat, n: nat, epsilon: real)
    requires a < n < b <= |ring| && a < spare < b && n != spare && a in keep && b in keep && spare in keep
    requires forall m: nat :: a < m < b && m != spare ==> m !in keep
    ensures NearSome(ring, keep, n, epsilon)
            <==> NearBy(ring, a, spare, b, n, epsilon)
  {
    if p: nat, q: nat :| Near(ring, keep, n, p, q, epsilon) {
      assert !(p < a) && !(b < q) && !(p < spare < q);
      assert if n < spare then p == a && q == spare else p == spare && q == b;
    }
    if n < spare && !Exceeds(Chord2(ring, n, a, spare), epsilon) {
      assert Near(ring, keep, n, a, spare, epsilon);
    }
    if spare < n && !Exceeds(Chord2(ring, n, spare, b), epsilon) {
      assert Near(ring, keep, n, spare, b, epsilon);
    }
  }

  /** The half that is not split keeps its corners near. */
  lemma OtherHalfNear(ring: Ring, keep: set<nat>, a: nat, b: nat, n: nat, epsilon: real)
    requires a < n < b <= |ring| && Splits(ring, a, b, epsilon) == {} && a in keep && b in keep
    requires forall m: nat :: a < m < b ==> m !in keep
    ensures NearSome(ring, keep, n, epsilon)
  {
    assert Near(ring, keep, n, a, b, epsilon);
  }

  /** Exactly when every dropped corner is near: the recursion keeps three corners, or in the half
      that the put-back corner splits the others are near its two new chords. The other half always
      is. */
  lemma DroppedNearExactly(ring: Ring, epsilon: real)
    requires |ring| > 3
    ensures AllNear(ring, epsilon) <==> |Kept(ring, epsilon)| >= 3 || SplitHalfNear(ring, epsilon)
  {
    if |Kept(ring, epsilon)| >= 3 {
      forall n: nat | n < |ring| && n !in KeptAll(ring, epsilon)
        ensures NearSome(ring, KeptAll(ring, epsilon) + {|ring|}, n, epsilon)
      {
        var p, q := DroppedAreNear(ring, epsilon, n);
      }
    } else {
      PutBackNearExactly(ring, epsilon);
    }
  }

  lemma PutBackNearExactly(ring: Ring, epsilon: real)
    requires |ring| > 3 && |Kept(ring, epsilon)| < 3
    ensures AllNear(ring, epsilon) <==> SplitHalfNear(ring, epsilon)
  {
    NoSplits(ring, epsilon);
    var far, spare := Far(ring, |ring|), PutBack(ring, epsilon);
    var keep := {0, far, spare, |ring|};
    AllNearIs(ring, far, spare, keep, epsilon);
    DroppedEach(ring, keep, far, spare, epsilon);
    NewChords(ring, far, spare, epsilon);
  }

  lemma AllNearIs(ring: Ring, far: nat, spare: nat, keep: set<nat>, epsilon: real)
    requires |ring| > 3 && KeptAll(ring, epsilon) == {0, far, spare} && keep == {0, far, spare, |ring|}
    ensures AllNear(ring, epsilon)
            <==> forall n: nat :: n < |ring| && n != 0 && n != far && n != spare ==> NearSome(ring, keep, n, epsilon)
  {
    assert KeptAll(ring, epsilon) + {|ring|} == keep;
    NotAmong(far, spare, KeptAll(ring, epsilon));
  }

  lemma NotAmong(far: nat, spare: nat, keep: set<nat>)
    requires keep == {0, far, spare}
    ensures forall n: nat :: n !in keep <==> n != 0 && n != far && n != spare
  {
  }

  /** Where n lies in the half that spare splits, it is near the new chord that spans it. */
  ghost predicate NearNew(ring: Ring, far: nat, spare: nat, n: nat, epsilon: real)
    requires far < |ring| && spare < |ring| && n < |ring| && spare != 0 && spare != far && n != 0 && n != far
             && n != spare
  {
    if spare < far then n < far ==> NearBy(ring, 0, spare, far, n, epsilon)
    else far < n ==> NearBy(ring, far, spare, |ring|, n, epsilon)
  }

  ghost predicate NearBy(ring: Ring, a: nat, spare: nat, b: nat, n: nat, epsilon: real)
    requires a < n < b <= |ring| && a < spare < b && n != spare
  {
    !Exceeds(if n < spare then Chord2(ring, n, a, spare) else Chord2(ring, n, spare, b), epsilon)
  }

  lemma DroppedEach(ring: Ring, keep: set<nat>, far: nat, spare: nat, epsilon: real)
    requires far < |ring| && spare < |ring| && spare != 0 && spare != far && keep == {0, far, spare, |ring|}
    requires Splits(ring, 0, far, epsilon) == {} && Splits(ring, far, |ring|, epsilon) == {}
    ensures forall n: nat :: n < |ring| && n != 0 && n != far && n != spare ==>
              (NearSome(ring, keep, n, epsilon) <==> NearNew(ring, far, spare, n, epsilon))
  {
    forall n: nat | n < |ring| && n != 0 && n != far && n != spare
      ensures NearSome(ring, keep, n, epsilon) <==> NearNew(ring, far, spare, n, epsilon)
    {
      DroppedOne(ring, keep, far, spare, n, epsilon);
    }
  }

  lemma DroppedOne(ring: Ring, keep: set<nat>, far: nat, spare: nat, n: nat, epsilon: real)
    requires far < |ring| && spare < |ring| && spare != 0 && spare != far && keep == {0, far, spare, |ring|}
    requires Splits(ring, 0, far, epsilon) == {} && Splits(ring, far, |ring|, epsilon) == {}
    requires n < |ring| && n !in keep
    ensures NearSome(ring, keep, n, epsilon) <==> NearNew(ring, far, spare, n, epsilon)
  {
    if n < far {
      if spare < far {
        NearAroundSpare(ring, keep, 0, spare, far, n, epsilon);
      } else {
        OtherHalfNear(ring, keep, 0, far, n, epsilon);
      }
    } else {
      if spare > far {
        NearAroundSpare(ring, keep, far, spare, |ring|, n, epsilon);
      } else {
        OtherHalfNear(ring, keep, far, |ring|, n, epsilon);
      }
    }
  }

  lemma NewChords(ring: Ring, far: nat, spare: nat, epsilon: real)
    requires far < |ring| && spare < |ring| && spare != 0 && spare != far
    ensures (forall n: nat :: n < |ring| && n != 0 && n != far && n != spare ==> NearNew(ring, far, spare, n, epsilon))
            <==> if spare < far then BothChordsNear(ring, 0, spare, far, epsilon)
              else BothChordsNear(ring, far, spare, |ring|, epsilon)
  {
    if spare < far {
      ChordsNear(ring, 0, spare, far, epsilon);
      assert forall n: nat :: 0 < n < far && n != spare ==>
             (NearNew(ring, far, spare, n, epsilon) <==> NearBy(ring, 0, spare, far, n, epsilon));
    } else {
      ChordsNear(ring, far, spare, |ring|, epsilon);
      assert forall n: nat :: far < n < |ring| && n != spare ==>
             (NearNew(ring, far, spare, n, epsilon) <==> NearBy(ring, far, spare, |ring|, n, epsilon));
    }
  }

  lemma ChordsNear(ring: Ring, a: nat, spare: nat, b: nat, epsilon: real)
    requires a < spare < b <= |ring|
    ensures (forall n: nat :: a < n < b && n != spare ==> NearBy(ring, a, spare, b, n, epsilon))
            <==> BothChordsNear(ring, a, spare, b, epsilon)
  {
    if forall n: nat :: a < n < b && n != spare ==> NearBy(ring, a, spare, b, n, epsilon) {
      forall n: nat | a < n < spare ensures !Exceeds(Chord2(ring, n, a, spare), epsilon) {
        assert NearBy(ring, a, spare, b, n, epsilon);
      }
      forall n: nat | spare < n < b ensures !Exceeds(Chord2(ring, n, spare, b), epsilon) {
        assert NearBy(ring, a, spare, b, n, epsilon);
      }
    }
  }

  // the loops

  function Work(stack: seq<(nat, nat)>): nat {
    if stack == [] then 0
    else
      var (a, b) := stack[|stack| - 1];
      Work(stack[..|stack| - 1]) + if b > a then 2 * (b - a) - 1 else 1
  }

  /** What the spans still on the stack will keep. */
  function Pending(ring: Ring, stack: seq<(nat, nat)>, epsilon: real): set<nat>
    requires forall s :: s in stack ==> s.0 <= s.1 <= |ring|
  {
    if stack == [] then {}
    else
      var top := stack[|stack| - 1];
      assert top in stack;
      Pending(ring, stack[..|stack| - 1], epsilon) + Splits(ring, top.0, top.1, epsilon)
  }

  lemma PendingPush(ring: Ring, stack: seq<(nat, nat)>, a: nat, b: nat, epsilon: real)
    requires forall s :: s in stack ==> s.0 <= s.1 <= |ring|
    requires a <= b <= |ring|
    ensures forall s :: s in stack + [(a, b)] ==> s.0 <= s.1 <= |ring|
    ensures Pending(ring, stack + [(a, b)], epsilon) == Pending(ring, stack, epsilon) + Splits(ring, a, b, epsilon)
    ensures Work(stack + [(a, b)]) == Work(stack) + if b > a then 2 * (b - a) - 1 else 1
  {
    var longer := stack + [(a, b)];
    assert longer[..|longer| - 1] == stack;
  }

  method FindFar(ring: Ring) returns (far: nat)
    requires |ring| > 0
    ensures far == Far(ring, |ring|)
  {
    far := 0;
    var n := 1;
    while n < |ring|
      invariant 1 <= n <= |ring| && far == Far(ring, n)
    {
      if Distance2(ring[0], ring[n]) > Distance2(ring[0], ring[far]) { far := n; }
      n := n + 1;
    }
  }

  method FindPeak(ring: Ring, a: nat, b: nat) returns (best: real, at: nat)
    requires a + 1 < b <= |ring|
    ensures at == Peak(ring, a, b, b) && best == Chord2(ring, at, a, b)
  {
    var p, q := ring[a], CornerAt(ring, b);
    at := a + 1;
    best := SegmentDistance2(ring[at], p, q);
    var n := a + 2;
    while n < b
      invariant a + 2 <= n <= b && at == Peak(ring, a, b, n) && best == Chord2(ring, at, a, b)
    {
      var d := SegmentDistance2(ring[n], p, q);
      if d > best { best, at := d, n; }
      n := n + 1;
    }
  }

  ghost predicate Spans(ring: Ring, stack: seq<(nat, nat)>) {
    forall s :: s in stack ==> s.0 <= s.1 <= |ring|
  }

  lemma SplitPushes(ring: Ring, rest: seq<(nat, nat)>, a: nat, at: nat, b: nat, epsilon: real)
    requires Spans(ring, rest) && a < at < b <= |ring| && at == Peak(ring, a, b, b)
    requires Exceeds(Chord2(ring, at, a, b), epsilon)
    ensures var stack := rest + [(a, at)] + [(at, b)];
      && Spans(ring, stack) && Work(stack) < Work(rest + [(a, b)])
      && {at} + Pending(ring, stack, epsilon) == Pending(ring, rest, epsilon) + Splits(ring, a, b, epsilon)
  {
    PendingPush(ring, rest, a, b, epsilon);
    PendingPush(ring, rest, a, at, epsilon);
    PendingPush(ring, rest + [(a, at)], at, b, epsilon);
  }

  lemma PendingPop(ring: Ring, stack: seq<(nat, nat)>, epsilon: real)
    requires Spans(ring, stack) && stack != []
    ensures var (a, b) := stack[|stack| - 1]; var rest := stack[..|stack| - 1];
      && stack == rest + [(a, b)] && Spans(ring, rest) && a <= b <= |ring| && Work(rest) < Work(stack)
      && Pending(ring, stack, epsilon) == Pending(ring, rest, epsilon) + Splits(ring, a, b, epsilon)
  {
    var (a, b) := stack[|stack| - 1];
    assert (a, b) in stack;
    var rest := stack[..|stack| - 1];
    assert stack == rest + [(a, b)];
    PendingPush(ring, rest, a, b, epsilon);
  }

  /** The stack loop over one half of the ring. */
  method Half(ring: Ring, first: nat, last: nat, epsilon: real, before: set<nat>) returns (keep: set<nat>)
    requires first <= last <= |ring|
    ensures keep == before + Splits(ring, first, last, epsilon)
  {
    keep := before;
    var stack: seq<(nat, nat)> := [(first, last)];
    assert [(first, last)] == [] + [(first, last)];
    PendingPush(ring, [], first, last, epsilon);
    while stack != []
      invariant Spans(ring, stack)
      invariant keep + Pending(ring, stack, epsilon) == before + Splits(ring, first, last, epsilon)
      decreases Work(stack)
    {
      var (a, b) := stack[|stack| - 1];
      var rest := stack[..|stack| - 1];
      PendingPop(ring, stack, epsilon);
      stack := rest;
      if b - a >= 2 {
        var best, at := FindPeak(ring, a, b);
        if Exceeds(best, epsilon) {
          SplitPushes(ring, rest, a, at, b, epsilon);
          keep := keep + {at};
          stack := rest + [(a, at)] + [(at, b)];
        }
      }
    }
  }

  method FindSpare(ring: Ring, keep: set<nat>, far: nat) returns (n: nat)
    requires far < |ring| && exists m :: 0 <= m < |ring| && m !in keep
    ensures n == Spare(ring, keep, far, |ring|)
  {
    n := 0;
    while n in keep
      invariant n <= |ring| && forall m :: 0 <= m < n ==> m in keep
      decreases |ring| - n
    {
      n := n + 1;
    }
    var k := n + 1;
    while k < |ring|
      invariant n < k <= |ring| && (exists m :: 0 <= m < k && m !in keep)
      invariant n == Spare(ring, keep, far, k)
    {
      SpareNext(ring, keep, far, k);
      if k !in keep && SegmentDistance2(ring[k], ring[0], ring[far]) > SegmentDistance2(ring[n], ring[0], ring[far]) {
        n := k;
      }
      k := k + 1;
    }
  }

  method InOrder(ring: Ring, keep: set<nat>) returns (kept: Ring)
    ensures kept == Select(ring, keep, |ring|)
  {
    kept := [];
    var n := 0;
    while n < |ring|
      invariant 0 <= n <= |ring| && kept == Select(ring, keep, n)
    {
      if n in keep { kept := kept + [ring[n]]; }
      n := n + 1;
    }
  }

  method Simplify(ring: Ring, epsilon: real) returns (kept: Ring)
    ensures kept == Simplified(ring, epsilon)
  {
    if |ring| <= 3 { return ring; }
    var far := FindFar(ring);
    var keep := Half(ring, 0, far, epsilon, {0, far});
    keep := Half(ring, far, |ring|, epsilon, keep);
    assert keep == Kept(ring, epsilon);
    if |keep| < 3 {
      SpareExists(ring, keep);
      var spare := FindSpare(ring, keep, far);
      keep := keep + {spare};
    }
    kept := InOrder(ring, keep);
  }
}
