/** The great-circle distance between two fixes and sums of it along a track.

    Both location services compute the Haversine distance with Earth radius
    6,371,000 m in floating point (src/services/locationService.ts:218-227,
    src/components/services/LocationPermissionService.ts:129-135). That
    trigonometry is not modelled: the distance is a parameter of type
    `DistanceFn`, about which only two facts are assumed, stated in the type
    itself: it is never negative, and it is zero between a point and itself. */
module Haversine {
  import opened Types

  /** distance(lat1, lng1, lat2, lng2) in metres. */
  type DistanceFn = f: (real, real, real, real) -> real
    | (forall lat1, lng1, lat2, lng2 :: f(lat1, lng1, lat2, lng2) >= 0.0)
      && (forall lat, lng :: f(lat, lng, lat, lng) == 0.0)
    witness (lat1: real, lng1: real, lat2: real, lng2: real) => 0.0

  /** The distance from fix `p` to fix `q`; only coordinates are read. */
  function SegmentLength(dist: DistanceFn, p: Position, q: Position): (d: real)
    ensures d >= 0.0
    ensures p.lat == q.lat && p.lng == q.lng ==> d == 0.0
  {
    dist(p.lat, p.lng, q.lat, q.lng)
  }

  /** The sum of `g(length)` over the segments joining consecutive fixes
      of `ps`; `g` says how much a segment of a given length contributes. */
  function SumSegments(dist: DistanceFn, g: real -> real, ps: seq<Position>): real
    decreases |ps|
  {
    if |ps| < 2 then 0.0
    else g(SegmentLength(dist, ps[0], ps[1])) + SumSegments(dist, g, ps[1..])
  }

  /** Appending `q` adds exactly the contribution of the new last segment. */
  lemma {:induction false} SumSegmentsSnoc(dist: DistanceFn, g: real -> real, ps: seq<Position>, q: Position)
    requires |ps| > 0
    ensures SumSegments(dist, g, ps + [q])
         == SumSegments(dist, g, ps) + g(SegmentLength(dist, ps[|ps| - 1], q))
    decreases |ps|
  {
    if |ps| == 1 {
      assert (ps + [q])[1..] == [q];
    } else {
      assert (ps + [q])[1..] == ps[1..] + [q];
      SumSegmentsSnoc(dist, g, ps[1..], q);
    }
  }

  /** Splitting a track in two: the sum over the whole is the sums over the
      parts plus the contribution of the segment that joins them. */
  lemma {:induction false} SumSegmentsConcat(dist: DistanceFn, g: real -> real, a: seq<Position>, b: seq<Position>)
    requires |a| > 0 && |b| > 0
    ensures SumSegments(dist, g, a + b)
         == SumSegments(dist, g, a) + g(SegmentLength(dist, a[|a| - 1], b[0])) + SumSegments(dist, g, b)
    decreases |a|
  {
    if |a| == 1 {
      assert (a + b)[1..] == b;
    } else {
      assert (a + b)[1..] == a[1..] + b;
      SumSegmentsConcat(dist, g, a[1..], b);
    }
  }

  lemma {:induction false} SumSegmentsNonNegative(dist: DistanceFn, g: real -> real, ps: seq<Position>)
    requires forall d :: d >= 0.0 ==> g(d) >= 0.0
    ensures SumSegments(dist, g, ps) >= 0.0
    decreases |ps|
  {
    if |ps| >= 2 {
      SumSegmentsNonNegative(dist, g, ps[1..]);
    }
  }

  /** With every contribution at most `bound`, the sum is at most `bound`
      per segment. */
  lemma {:induction false} SumSegmentsBounded(dist: DistanceFn, g: real -> real, ps: seq<Position>, bound: real)
    requires forall d :: g(d) <= bound
    requires |ps| > 0
    ensures SumSegments(dist, g, ps) <= bound * (|ps| - 1) as real
    decreases |ps|
  {
    if |ps| >= 2 {
      SumSegmentsBounded(dist, g, ps[1..], bound);
    }
  }

  /** Timestamps are never read: tracks with the same coordinates give the
      same sum. */
  lemma {:induction false} SumSegmentsSameTrack(dist: DistanceFn, g: real -> real, a: seq<Position>, b: seq<Position>)
    requires SameTrack(a, b)
    ensures SumSegments(dist, g, a) == SumSegments(dist, g, b)
    decreases |a|
  {
    if |a| >= 2 {
      assert SameTrack(a[1..], b[1..]);
      SumSegmentsSameTrack(dist, g, a[1..], b[1..]);
    }
  }

  /** A track that never moves contributes g(0) per segment. */
  lemma {:induction false} SumSegmentsStationary(dist: DistanceFn, g: real -> real, ps: seq<Position>)
    requires Stationary(ps)
    ensures SumSegments(dist, g, ps) == g(0.0) * (if |ps| < 2 then 0 else |ps| - 1) as real
    decreases |ps|
  {
    if |ps| >= 2 {
      assert Stationary(ps[1..]);
      SumSegmentsStationary(dist, g, ps[1..]);
    }
  }
}
