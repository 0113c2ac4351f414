/** The records shared by the location, session and persistence code
    (src/types/interfaces.ts). JavaScript numbers become `real` where the
    source does arithmetic on fractions (coordinates, metres, pace) and `int`
    where they are millisecond clock readings from `Date.now()`. */
module Types {

  datatype Option<+T> = None | Some(value: T)

  /** One geographic fix: latitude and longitude in degrees, and the clock
      reading (milliseconds) at which it was received. */
  datatype Position = Position(lat: real, lng: real, timestamp: int)

  /** A jogging session. `endTime` is absent while the session is running;
      `distance` is in metres, `duration` in milliseconds and `avgPace` in
      minutes per kilometre. */
  datatype JoggingSession = JoggingSession(
    id: string,
    startTime: int,
    endTime: Option<int>,
    positions: seq<Position>,
    distance: real,
    duration: int,
    avgPace: real)

  /** The tracking snapshot persisted for reload recovery. */
  datatype AppState = AppState(
    isTracking: bool,
    isPaused: bool,
    currentSession: Option<JoggingSession>,
    startTime: int,
    pausedTime: int)

  /** Two fix sequences describe the same track when they agree on every
      latitude and longitude; their timestamps may differ. */
  ghost predicate SameTrack(a: seq<Position>, b: seq<Position>)
  {
    |a| == |b| && forall i :: 0 <= i < |a| ==> a[i].lat == b[i].lat && a[i].lng == b[i].lng
  }

  /** Every fix of `ps` lies at the same latitude and longitude. */
  ghost predicate Stationary(ps: seq<Position>)
  {
    forall i :: 0 <= i < |ps| ==> ps[i].lat == ps[0].lat && ps[i].lng == ps[0].lng
  }

  /** `a` can be obtained from `b` by deleting elements: an order-preserving
      subsequence. Defined from the right, the end where both the filters of
      this model append. */
  ghost predicate Subsequence<T>(a: seq<T>, b: seq<T>)
    decreases |b|
  {
    if |a| == 0 then true
    else if |b| == 0 then false
    else
      || (a[|a| - 1] == b[|b| - 1] && Subsequence(a[..|a| - 1], b[..|b| - 1]))
      || Subsequence(a, b[..|b| - 1])
  }

  lemma {:induction false} SubsequenceLength<T>(a: seq<T>, b: seq<T>)
    requires Subsequence(a, b)
    ensures |a| <= |b|
    ensures forall x :: x in a ==> x in b
    decreases |b|
  {
    if |a| == 0 {
    } else if a[|a| - 1] == b[|b| - 1] && Subsequence(a[..|a| - 1], b[..|b| - 1]) {
      SubsequenceLength(a[..|a| - 1], b[..|b| - 1]);
      assert a == a[..|a| - 1] + [a[|a| - 1]];
      assert b == b[..|b| - 1] + [b[|b| - 1]];
    } else {
      SubsequenceLength(a, b[..|b| - 1]);
      assert b == b[..|b| - 1] + [b[|b| - 1]];
    }
  }

  /** Appending one element to the larger sequence keeps `a` a subsequence,
      and appending it to both does too. */
  lemma SubsequenceSnoc<T>(a: seq<T>, b: seq<T>, x: T)
    requires Subsequence(a, b)
    ensures Subsequence(a, b + [x])
    ensures Subsequence(a + [x], b + [x])
  {
    assert (b + [x])[..|b|] == b;
    assert (a + [x])[..|a|] == a;
  }
}
