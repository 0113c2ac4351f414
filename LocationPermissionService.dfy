/** The distance computation of
    src/components/services/LocationPermissionService.ts: the plain length of
    the polyline through every fix, with no filter and no segment check. */
module LocationPermissionService {
  import opened Types
  import opened Haversine

  /** The sum of the distances between every pair of consecutive fixes. */
  function PathLength(dist: DistanceFn, positions: seq<Position>): real
  {
    SumSegments(dist, d => d, positions)
  }

  /** calculateDistance: one loop accumulating every segment. */
  method CalculateDistance(dist: DistanceFn, positions: seq<Position>) returns (distance: real)
    ensures distance == PathLength(dist, positions)
    ensures |positions| < 2 ==> distance == 0.0
    ensures distance >= 0.0
  {
    PathLengthNonNegative(dist, positions);
    if |positions| < 2 {
      return 0.0;
    }
    distance := 0.0;
    for i := 1 to |positions|
      invariant distance == PathLength(dist, positions[..i])
    {
      var p, q := positions[i - 1], positions[i];
      distance := distance + dist(p.lat, p.lng, q.lat, q.lng);
      assert positions[..i + 1] == positions[..i] + [q];
      SumSegmentsSnoc(dist, d => d, positions[..i], q);
    }
    assert positions[..|positions|] == positions;
  }

  /** Appending `q` to a non-empty track adds exactly the distance from the
      last fix to `q`. */
  lemma PathLengthSnoc(dist: DistanceFn, positions: seq<Position>, q: Position)
    requires |positions| > 0
    ensures PathLength(dist, positions + [q])
         == PathLength(dist, positions) + SegmentLength(dist, positions[|positions| - 1], q)
  {
    SumSegmentsSnoc(dist, d => d, positions, q);
  }

  /** The length of a track is the lengths of its two halves plus the
      segment that joins them. */
  lemma PathLengthConcat(dist: DistanceFn, a: seq<Position>, b: seq<Position>)
    requires |a| > 0 && |b| > 0
    ensures PathLength(dist, a + b)
         == PathLength(dist, a) + SegmentLength(dist, a[|a| - 1], b[0]) + PathLength(dist, b)
  {
    SumSegmentsConcat(dist, d => d, a, b);
  }

  lemma PathLengthNonNegative(dist: DistanceFn, positions: seq<Position>)
    ensures PathLength(dist, positions) >= 0.0
  {
    SumSegmentsNonNegative(dist, d => d, positions);
  }

  /** A track that never moves has length 0. */
  lemma PathLengthStationary(dist: DistanceFn, positions: seq<Position>)
    requires Stationary(positions)
    ensures PathLength(dist, positions) == 0.0
  {
    SumSegmentsStationary(dist, d => d, positions);
  }

  /** Timestamps are never read. */
  lemma PathLengthSameTrack(dist: DistanceFn, a: seq<Position>, b: seq<Position>)
    requires SameTrack(a, b)
    ensures PathLength(dist, a) == PathLength(dist, b)
  {
    SumSegmentsSameTrack(dist, d => d, a, b);
  }
}
