/** The distance pipeline of src/services/locationService.ts: a
    minimum-movement filter over the raw fixes, then a sum over consecutive
    kept fixes that ignores implausible segments. Each of the two loops of
    the source is a method proved against a specification function; the
    properties of the pipeline are lemmas about those functions. */
module LocationService {
  import opened Types
  import opened Haversine

  /** Minimum movement, in metres, for a fix to be kept (the argument
      `calculateDistance` passes to `filterClosePositions`). */
  const MinMovement: real := 1.0
  /** A segment counts only if it is strictly longer than this ... */
  const MinSegment: real := 0.1
  /** ... and strictly shorter than this (metres). */
  const MaxSegment: real := 200.0

  /** The fixes `filterClosePositions(positions, minDistance)` keeps: the
      first fix, then each fix at least `minDistance` from the last kept one. */
  function Filtered(dist: DistanceFn, positions: seq<Position>, minDistance: real): (kept: seq<Position>)
    ensures |kept| <= |positions|
    ensures |positions| > 0 <==> |kept| > 0
    ensures |positions| > 0 ==> kept[0] == positions[0]
    decreases |positions|
  {
    if |positions| <= 1 then positions
    else
      var before := Filtered(dist, positions[..|positions| - 1], minDistance);
      var current := positions[|positions| - 1];
      if SegmentLength(dist, before[|before| - 1], current) >= minDistance
      then before + [current]
      else before
  }

  /** filterClosePositions: builds the kept list by appending, one input
      fix at a time, as the source's `for` loop does. */
  method FilterClosePositions(dist: DistanceFn, positions: seq<Position>, minDistance: real)
    returns (filtered: seq<Position>)
    ensures filtered == Filtered(dist, positions, minDistance)
  {
    if |positions| == 0 {
      return [];
    }
    filtered := [positions[0]];
    for i := 1 to |positions|
      invariant filtered == Filtered(dist, positions[..i], minDistance)
    {
      var lastPos := filtered[|filtered| - 1];
      var currentPos := positions[i];
      var distance := dist(lastPos.lat, lastPos.lng, currentPos.lat, currentPos.lng);
      assert positions[..i + 1][..i] == positions[..i];
      if distance >= minDistance {
        filtered := filtered + [currentPos];
      }
    }
    assert positions[..|positions|] == positions;
  }

  /** How much a segment of length `d` adds to the total: all of it when
      0.1 < d < 200, nothing otherwise. */
  function SegmentContribution(d: real): (c: real)
    ensures c == d || c == 0.0
    ensures c > 0.0 <==> MinSegment < d < MaxSegment
    ensures 0.0 <= c < MaxSegment
  {
    if d < MaxSegment && d > MinSegment then d else 0.0
  }

  /** The sum of the accepted segments of an already filtered track. */
  function AcceptedLength(dist: DistanceFn, track: seq<Position>): real
  {
    SumSegments(dist, SegmentContribution, track)
  }

  /** What `calculateDistance(positions)` returns, in metres. */
  function TotalDistance(dist: DistanceFn, positions: seq<Position>): real
  {
    if |positions| < 2 then 0.0
    else
      var filtered := Filtered(dist, positions, MinMovement);
      if |filtered| < 2 then 0.0 else AcceptedLength(dist, filtered)
  }

  /** calculateDistance: filter, then accumulate accepted segments in a loop. */
  method CalculateDistance(dist: DistanceFn, positions: seq<Position>) returns (distance: real)
    ensures distance == TotalDistance(dist, positions)
    ensures |positions| < 2 ==> distance == 0.0
    ensures distance >= 0.0
  {
    TotalDistanceBounds(dist, positions);
    if |positions| < 2 {
      return 0.0;
    }
    var filteredPositions := FilterClosePositions(dist, positions, MinMovement);
    if |filteredPositions| < 2 {
      return 0.0;
    }
    distance := 0.0;
    for i := 1 to |filteredPositions|
      invariant distance == AcceptedLength(dist, filteredPositions[..i])
    {
      var p, q := filteredPositions[i - 1], filteredPositions[i];
      var segmentDistance := dist(p.lat, p.lng, q.lat, q.lng);
      if segmentDistance < MaxSegment && segmentDistance > MinSegment {
        distance := distance + segmentDistance;
      }
      assert filteredPositions[..i + 1] == filteredPositions[..i] + [q];
      SumSegmentsSnoc(dist, SegmentContribution, filteredPositions[..i], q);
    }
    assert filteredPositions[..|filteredPositions|] == filteredPositions;
  }

  // ---------------------------------------------------------------------
  // The minimum-movement filter

  /** The kept fixes are an order-preserving subsequence of the input. */
  lemma {:induction false} FilteredIsSubsequence(dist: DistanceFn, positions: seq<Position>, minDistance: real)
    ensures Subsequence(Filtered(dist, positions, minDistance), positions)
    decreases |positions|
  {
    var kept := Filtered(dist, positions, minDistance);
    if |positions| == 0 {
    } else if |positions| == 1 {
      assert kept[..0] == positions[..0];
    } else {
      var init := positions[..|positions| - 1];
      FilteredIsSubsequence(dist, init, minDistance);
      assert positions == init + [positions[|positions| - 1]];
      SubsequenceSnoc(Filtered(dist, init, minDistance), init, positions[|positions| - 1]);
    }
  }

  /** The filter never invents a fix: everything it keeps is an input fix. */
  lemma FilteredKeepsInputFixes(dist: DistanceFn, positions: seq<Position>, minDistance: real)
    ensures forall p :: p in Filtered(dist, positions, minDistance) ==> p in positions
  {
    FilteredIsSubsequence(dist, positions, minDistance);
    SubsequenceLength(Filtered(dist, positions, minDistance), positions);
  }

  /** Each kept fix after the first is at least `minDistance` from the one
      kept before it. */
  lemma {:induction false} FilteredSpacing(dist: DistanceFn, positions: seq<Position>, minDistance: real)
    ensures var kept := Filtered(dist, positions, minDistance);
      forall k :: 0 < k < |kept| ==> SegmentLength(dist, kept[k - 1], kept[k]) >= minDistance
    decreases |positions|
  {
    if |positions| > 1 {
      var init := positions[..|positions| - 1];
      var before := Filtered(dist, init, minDistance);
      var current := positions[|positions| - 1];
      FilteredSpacing(dist, init, minDistance);
      FilteredSnoc(dist, init, current, minDistance);
    }
  }

  /** The last kept fix is the latest input fix that was kept: every input
      fix after it lies within `minDistance` of it. */
  lemma {:induction false} FilteredDropsOnlyCloseFixes(dist: DistanceFn, positions: seq<Position>, minDistance: real, j: nat)
    requires |positions| > 0
    requires j < |positions|
    requires Filtered(dist, positions[..j + 1], minDistance) == Filtered(dist, positions[..j], minDistance)
    ensures j > 0
    ensures var before := Filtered(dist, positions[..j], minDistance);
      SegmentLength(dist, before[|before| - 1], positions[j]) < minDistance
  {
    if j > 0 {
      assert positions[..j + 1][..j] == positions[..j];
    }
  }

  /** A track that never moves keeps exactly one fix (for a positive threshold). */
  lemma {:induction false} FilteredStationary(dist: DistanceFn, positions: seq<Position>, minDistance: real)
    requires minDistance > 0.0
    requires |positions| > 0 && Stationary(positions)
    ensures Filtered(dist, positions, minDistance) == [positions[0]]
    decreases |positions|
  {
    if |positions| > 1 {
      var init := positions[..|positions| - 1];
      assert Stationary(init);
      FilteredStationary(dist, init, minDistance);
    }
  }

  /** Timestamps are never read: the same coordinates are kept for two
      inputs that describe the same track. */
  lemma {:induction false} FilteredSameTrack(dist: DistanceFn, a: seq<Position>, b: seq<Position>, minDistance: real)
    requires SameTrack(a, b)
    ensures SameTrack(Filtered(dist, a, minDistance), Filtered(dist, b, minDistance))
    decreases |a|
  {
    if |a| > 1 {
      var ia, ib := a[..|a| - 1], b[..|b| - 1];
      assert SameTrack(ia, ib);
      FilteredSameTrack(dist, ia, ib, minDistance);
    }
  }

  // ---------------------------------------------------------------------
  // The total distance

  /** The total is never negative and never more than 200 m per segment of
      the input. */
  lemma TotalDistanceBounds(dist: DistanceFn, positions: seq<Position>)
    ensures 0.0 <= TotalDistance(dist, positions)
    ensures |positions| > 0 ==> TotalDistance(dist, positions) <= MaxSegment * (|positions| - 1) as real
  {
    if |positions| >= 2 {
      var filtered := Filtered(dist, positions, MinMovement);
      if |filtered| >= 2 {
        SumSegmentsNonNegative(dist, SegmentContribution, filtered);
        SumSegmentsBounded(dist, SegmentContribution, filtered, MaxSegment);
        assert MaxSegment * (|filtered| - 1) as real <= MaxSegment * (|positions| - 1) as real;
      }
    }
  }

  /** Two fixes: the distance counts only when they are at least 1 m and
      less than 200 m apart, the combined window of the filter and the
      segment check. */
  lemma TotalDistanceTwoFixes(dist: DistanceFn, p: Position, q: Position)
    ensures var d := SegmentLength(dist, p, q);
      TotalDistance(dist, [p, q]) == if MinMovement <= d < MaxSegment then d else 0.0
  {
    var ps := [p, q];
    assert ps[..1] == [p];
    var kept := Filtered(dist, ps, MinMovement);
    if MinMovement <= SegmentLength(dist, p, q) {
      assert kept == ps;
      assert ps[1..] == [q];
      assert AcceptedLength(dist, ps) == SegmentContribution(SegmentLength(dist, p, q)) + SumSegments(dist, SegmentContribution, [q]);
    } else {
      assert kept == [p];
    }
  }

  /** A track that never moves has total distance 0. */
  lemma TotalDistanceStationary(dist: DistanceFn, positions: seq<Position>)
    requires Stationary(positions)
    ensures TotalDistance(dist, positions) == 0.0
  {
    if |positions| >= 2 {
      FilteredStationary(dist, positions, MinMovement);
    }
  }

  /** The total depends only on coordinates, never on timestamps. */
  lemma TotalDistanceSameTrack(dist: DistanceFn, a: seq<Position>, b: seq<Position>)
    requires SameTrack(a, b)
    ensures TotalDistance(dist, a) == TotalDistance(dist, b)
  {
    if |a| >= 2 {
      FilteredSameTrack(dist, a, b, MinMovement);
      SumSegmentsSameTrack(dist, SegmentContribution, Filtered(dist, a, MinMovement), Filtered(dist, b, MinMovement));
    }
  }

  /** Appending a fix never lowers the total, and raises it by less than
      200 m: the live distance of a session only grows while it runs. */
  lemma TotalDistanceGrows(dist: DistanceFn, positions: seq<Position>, q: Position)
    ensures TotalDistance(dist, positions) <= TotalDistance(dist, positions + [q])
    ensures TotalDistance(dist, positions + [q]) < TotalDistance(dist, positions) + MaxSegment
  {
    var next := positions + [q];
    if |positions| == 1 {
      assert next == [positions[0], q];
      TotalDistanceTwoFixes(dist, positions[0], q);
    } else if |positions| >= 2 {
      var before := Filtered(dist, positions, MinMovement);
      FilteredSnoc(dist, positions, q, MinMovement);
      if Filtered(dist, next, MinMovement) != before {
        if |before| >= 2 {
          SumSegmentsSnoc(dist, SegmentContribution, before, q);
        } else {
          var after := before + [q];
          assert after[1..] == [q];
          assert AcceptedLength(dist, after)
              == SegmentContribution(SegmentLength(dist, before[0], q)) + SumSegments(dist, SegmentContribution, [q]);
        }
      } else if |before| >= 2 {
        SumSegmentsNonNegative(dist, SegmentContribution, before);
      }
    }
  }

  /** One more input fix adds itself to the kept list or nothing. */
  lemma FilteredSnoc(dist: DistanceFn, positions: seq<Position>, q: Position, minDistance: real)
    requires |positions| > 0
    ensures var before := Filtered(dist, positions, minDistance);
      Filtered(dist, positions + [q], minDistance)
        == if SegmentLength(dist, before[|before| - 1], q) >= minDistance then before + [q] else before
  {
    var extended := positions + [q];
    assert extended[..|extended| - 1] == positions;
    FilteredLast(dist, extended, minDistance);
  }

  /** The step of `Filtered` for a list of two or more fixes, stated on its
      own so that callers need not unfold the recursion. */
  lemma FilteredLast(dist: DistanceFn, positions: seq<Position>, minDistance: real)
    requires |positions| > 1
    ensures var before := Filtered(dist, positions[..|positions| - 1], minDistance);
      Filtered(dist, positions, minDistance)
        == if SegmentLength(dist, before[|before| - 1], positions[|positions| - 1]) >= minDistance
           then before + [positions[|positions| - 1]] else before
  {
  }
}
