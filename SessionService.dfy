/** The session record transformers and metrics of
    src/services/sessionService.ts. Every operation of the source builds a new
    record (object spread) or folds over an array (`reduce`, `filter`), so the
    model is functions. `Date.now()` becomes the parameter `now`, the random
    session id the parameter `id`, and `locationService.calculateDistance`
    the filtered total `LocationService.TotalDistance`. */
module SessionService {
  import opened Types
  import opened Haversine
  import opened Decimal
  import LocationService

  /** What `calculateCurrentStats` returns: milliseconds, metres, minutes per
      kilometre, kilometres per hour. */
  datatype LiveStats = LiveStats(duration: int, distance: real, pace: real, speed: real)

  /** What `calculateOverallStats` returns. */
  datatype OverallStats = OverallStats(totalDistance: real, totalDuration: int, avgPace: real, totalSessions: nat)

  // ---------------------------------------------------------------------
  // Session records

  /** createSession: a fresh session starting now. */
  function CreateSession(id: string, now: int): (s: JoggingSession)
    ensures s.id == id && s.startTime == now && s.endTime == None
    ensures s.positions == []
    ensures s.distance == 0.0 && s.duration == 0 && s.avgPace == 0.0
  {
    JoggingSession(id, now, None, [], 0.0, 0, 0.0)
  }

  /** `Math.max(0, to - from)`: the time elapsed from `from` to `to`, or 0
      when `to` comes first. */
  function Elapsed(from: int, to: int): (ms: int)
    ensures ms >= 0 && ms >= to - from
    ensures ms == 0 || ms == to - from
  {
    if to - from > 0 then to - from else 0
  }

  /** Minutes per kilometre for a duration in milliseconds and a distance in
      metres, 0 when there is no distance. */
  function Pace(durationMs: int, distanceM: real): (pace: real)
    ensures distanceM <= 0.0 ==> pace == 0.0
    ensures distanceM > 0.0 ==> pace * (distanceM / 1000.0) == durationMs as real / 60000.0
    ensures durationMs >= 0 ==> pace >= 0.0
  {
    var durationInMinutes := durationMs as real / 1000.0 / 60.0;
    var distanceInKm := distanceM / 1000.0;
    if distanceInKm > 0.0 then durationInMinutes / distanceInKm else 0.0
  }

  /** Kilometres per hour for a pace, 0 when the pace is 0. */
  function Speed(pace: real): (speed: real)
    ensures pace > 0.0 ==> speed * pace == 60.0
    ensures pace <= 0.0 ==> speed == 0.0
  {
    if pace > 0.0 then 60.0 / pace else 0.0
  }

  /** The end time `completeSession` uses: `endTime || Date.now()`, so an
      absent end time and an end time of 0 both fall back to now. */
  function FinalEndTime(endTime: Option<int>, now: int): (t: int)
    ensures endTime.Some? && endTime.value != 0 ==> t == endTime.value
    ensures endTime == None || endTime == Some(0) ==> t == now
  {
    match endTime
    case Some(e) => if e != 0 then e else now
    case None => now
  }

  /** completeSession: seal the session with its final metrics. */
  function CompleteSession(dist: DistanceFn, session: JoggingSession, endTime: Option<int>, now: int)
    : (done: JoggingSession)
    ensures done.endTime == Some(FinalEndTime(endTime, now))
    ensures done.duration == Elapsed(session.startTime, FinalEndTime(endTime, now))
    ensures done.distance == LocationService.TotalDistance(dist, session.positions)
    ensures done.avgPace == Pace(done.duration, done.distance)
    ensures done.id == session.id && done.startTime == session.startTime
    ensures done.positions == session.positions
  {
    var finalEndTime := FinalEndTime(endTime, now);
    var totalDuration := Elapsed(session.startTime, finalEndTime);
    var distance := LocationService.TotalDistance(dist, session.positions);
    session.(endTime := Some(finalEndTime), distance := distance, duration := totalDuration,
             avgPace := Pace(totalDuration, distance))
  }

  /** addPositionToSession: a copy of the session with `position` appended;
      the stored distance is not recomputed. */
  function AddPositionToSession(session: JoggingSession, position: Position): (updated: JoggingSession)
    ensures updated.positions == session.positions + [position]
    ensures updated.(positions := session.positions) == session
  {
    session.(positions := session.positions + [position])
  }

  /** calculateCurrentStats: live duration, distance, pace and speed. While
      paused the duration runs up to the pause time, otherwise up to now. */
  function CalculateCurrentStats(dist: DistanceFn, session: JoggingSession, startTime: int,
                                 isPaused: bool, pausedTime: int, now: int): (stats: LiveStats)
    ensures stats.duration == Elapsed(startTime, if isPaused then pausedTime else now)
    ensures stats.distance == LocationService.TotalDistance(dist, session.positions)
    ensures stats.pace == Pace(stats.duration, stats.distance)
    ensures stats.speed == Speed(stats.pace)
  {
    var duration := if isPaused then Elapsed(startTime, pausedTime) else Elapsed(startTime, now);
    var distance := LocationService.TotalDistance(dist, session.positions);
    var pace := Pace(duration, distance);
    LiveStats(duration, distance, pace, Speed(pace))
  }

  // ---------------------------------------------------------------------
  // Properties of the session operations

  /** A completed session's metrics are consistent: the duration is never
      negative, no distance means no pace, and otherwise pace times
      kilometres is the duration in minutes. */
  lemma CompletedMetrics(dist: DistanceFn, session: JoggingSession, endTime: Option<int>, now: int)
    ensures var done := CompleteSession(dist, session, endTime, now);
      && done.duration >= 0
      && done.distance >= 0.0
      && done.avgPace >= 0.0
      && (done.avgPace == 0.0 <==> done.distance == 0.0 || done.duration == 0)
      && (done.distance > 0.0 ==> done.avgPace * (done.distance / 1000.0) == done.duration as real / 60000.0)
  {
    LocationService.TotalDistanceBounds(dist, session.positions);
  }

  /** Completing a completed session again at the same end time changes
      nothing: the final metrics are a function of the positions alone. */
  lemma CompleteSessionIdempotent(dist: DistanceFn, session: JoggingSession, endTime: int, now1: int, now2: int)
    requires endTime != 0
    ensures var done := CompleteSession(dist, session, Some(endTime), now1);
      CompleteSession(dist, done, Some(endTime), now2) == done
  {
  }

  /** The completion scenario: fixes at t=0 and later, completed at
      t=20000. When the two fixes are between 1 m and 200 m apart the
      distance is exactly their distance and the pace follows from it. */
  lemma CompleteTwoFixScenario(dist: DistanceFn, id: string, p: Position, q: Position)
    requires 1.0 <= SegmentLength(dist, p, q) < 200.0
    ensures var s := AddPositionToSession(AddPositionToSession(CreateSession(id, 0), p), q);
      var done := CompleteSession(dist, s, Some(20000), 0);
      && done.duration == 20000
      && done.distance == SegmentLength(dist, p, q)
      && done.avgPace * (SegmentLength(dist, p, q) / 1000.0) == 20000.0 / 60000.0
  {
    assert [] + [p] + [q] == [p, q];
    assert AddPositionToSession(AddPositionToSession(CreateSession(id, 0), p), q).positions == [p, q];
    LocationService.TotalDistanceTwoFixes(dist, p, q);
  }

  /** Adding a position never lowers the distance the session reports,
      and raises it by less than 200 m. */
  lemma AddPositionDistanceGrows(dist: DistanceFn, session: JoggingSession, position: Position)
    ensures var before := LocationService.TotalDistance(dist, session.positions);
      var after := LocationService.TotalDistance(dist, AddPositionToSession(session, position).positions);
      before <= after < before + LocationService.MaxSegment
  {
    LocationService.TotalDistanceGrows(dist, session.positions, position);
  }

  /** Live stats: no distance gives pace 0 and speed 0; otherwise, over a
      positive duration, pace times speed is 60 and the speed is the
      distance in kilometres over the duration in hours. */
  lemma LiveStatsConsistent(dist: DistanceFn, session: JoggingSession, startTime: int,
                            isPaused: bool, pausedTime: int, now: int)
    ensures var stats := CalculateCurrentStats(dist, session, startTime, isPaused, pausedTime, now);
      && stats.duration >= 0 && stats.distance >= 0.0 && stats.pace >= 0.0 && stats.speed >= 0.0
      && (stats.distance == 0.0 ==> stats.pace == 0.0 && stats.speed == 0.0)
      && (stats.pace == 0.0 ==> stats.speed == 0.0)
      && (stats.pace > 0.0 ==> stats.pace * stats.speed == 60.0)
      && (stats.distance > 0.0 && stats.duration > 0 ==>
            stats.speed * (stats.duration as real / 3600000.0) == stats.distance / 1000.0)
  {
    var stats := CalculateCurrentStats(dist, session, startTime, isPaused, pausedTime, now);
    LocationService.TotalDistanceBounds(dist, session.positions);
    if stats.distance > 0.0 && stats.duration > 0 {
      SpeedIsKilometresPerHour(stats.duration, stats.distance);
    }
  }

  lemma SpeedIsKilometresPerHour(durationMs: int, distanceM: real)
    requires durationMs > 0 && distanceM > 0.0
    ensures Pace(durationMs, distanceM) > 0.0
    ensures Speed(Pace(durationMs, distanceM)) * (durationMs as real / 3600000.0) == distanceM / 1000.0
  {
    var km, minutes := distanceM / 1000.0, durationMs as real / 60000.0;
    var pace := Pace(durationMs, distanceM);
    assert pace * km == minutes;
    assert pace > 0.0;
    var speed := Speed(pace);
    assert speed * pace == 60.0;
    calc {
      speed * (durationMs as real / 3600000.0);
      speed * minutes / 60.0;
      speed * (pace * km) / 60.0;
      (speed * pace) * km / 60.0;
      km;
    }
  }

  /** While paused the live duration does not depend on the clock. */
  lemma PausedDurationFrozen(dist: DistanceFn, session: JoggingSession, startTime: int,
                             pausedTime: int, now1: int, now2: int)
    ensures CalculateCurrentStats(dist, session, startTime, true, pausedTime, now1)
         == CalculateCurrentStats(dist, session, startTime, true, pausedTime, now2)
  {
  }

  /** Live stats taken at the moment a running session is completed agree
      with the completed session's final metrics. */
  lemma LiveStatsMatchCompletion(dist: DistanceFn, session: JoggingSession, endTime: int, now: int)
    requires endTime != 0
    ensures var live := CalculateCurrentStats(dist, session, session.startTime, false, 0, endTime);
      var done := CompleteSession(dist, session, Some(endTime), now);
      live.duration == done.duration && live.distance == done.distance && live.pace == done.avgPace
  {
  }

  // ---------------------------------------------------------------------
  // Formatting

  /** JavaScript's `%` on integers, which truncates toward zero: the result
      takes the sign of `a`. */
  function JsRemainder(a: int, b: int): (r: int)
    requires b > 0
    ensures r == a - b * (if a >= 0 then a / b else -((-a) / b))
    ensures a >= 0 ==> r == a % b
    ensures a < 0 ==> r <= 0
    ensures -b < r < b
  {
    if a >= 0 then a % b else -((-a) % b)
  }

  /** formatDuration: "h:mm:ss" from one hour on, "m:ss" below. For a
      non-negative duration the text is at least "m:ss" long, and the hours
      field makes it seven characters or more exactly from one hour on. */
  function FormatDuration(ms: int): (text: string)
    ensures ms >= 0 ==> |text| >= 4
    ensures ms >= 0 ==> (|text| >= 7 <==> ms >= 3600000)
  {
    var seconds := ms / 1000;
    var minutes := seconds / 60;
    var hours := minutes / 60;
    var ss := PadStart2(IntToString(JsRemainder(seconds, 60)));
    var text :=
      if hours > 0 then
        IntToString(hours) + ":" + PadStart2(IntToString(JsRemainder(minutes, 60))) + ":" + ss
      else
        IntToString(minutes) + ":" + ss;
    PadStart2Digits(seconds % 60);
    PadStart2Digits(minutes % 60);
    assert ms >= 0 && hours == 0 ==> |IntToString(minutes)| <= 2 by {
      if ms >= 0 && hours == 0 && minutes >= 10 {
        assert NatToString(minutes) == NatToString(minutes / 10) + [DigitChar(minutes % 10)];
      }
    }
    text
  }

  /** For a non-negative duration the text is three fields from one hour on
      and two below, every field after the first is two digits below 60, and
      reading the clock back gives the whole seconds of `ms`. */
  lemma FormatDurationReadsBack(ms: int)
    requires ms >= 0
    ensures var fields := Fields(FormatDuration(ms));
      && |fields| == (if ms >= 3600000 then 3 else 2)
      && (|fields[0]| > 1 ==> fields[0][0] != '0')
      && (forall i | 1 <= i < |fields| :: |fields[i]| == 2 && ValueOf(fields[i]) < 60)
      && ParseClock(FormatDuration(ms)) == Some(ms / 1000)
  {
    var fields := Fields(FormatDuration(ms));
    if ms >= 3600000 {
      FormatDurationHours(ms);
    } else {
      FormatDurationMinutes(ms);
    }
    forall i | 1 <= i < |fields| ensures |fields[i]| == 2 && ValueOf(fields[i]) < 60 {
      if i == 2 {
        assert ms >= 3600000;
      }
    }
  }

  lemma FormatDurationHours(ms: int)
    requires ms >= 3600000
    ensures var fields := Fields(FormatDuration(ms));
      && |fields| == 3
      && (|fields[0]| > 1 ==> fields[0][0] != '0')
      && |fields[1]| == 2 && ValueOf(fields[1]) < 60
      && |fields[2]| == 2 && ValueOf(fields[2]) < 60
      && ParseClock(FormatDuration(ms)) == Some(ms / 1000)
  {
    var seconds := ms / 1000;
    var minutes := seconds / 60;
    var h, m, sec := minutes / 60, minutes % 60, seconds % 60;
    FormatDurationHoursFields(ms);
    PadStart2Digits(m);
    PadStart2Digits(sec);
    FormatDurationHoursValue(ms);
  }

  /** From one hour on, the fields are the hours, then the minutes and the
      seconds past, padded. */
  lemma FormatDurationHoursFields(ms: int)
    requires ms >= 3600000
    ensures var seconds := ms / 1000; var minutes := seconds / 60;
      Fields(FormatDuration(ms))
      == [NatToString(minutes / 60), PadStart2(NatToString(minutes % 60)), PadStart2(NatToString(seconds % 60))]
  {
    var seconds := ms / 1000;
    var minutes := seconds / 60;
    var h, m, sec := minutes / 60, minutes % 60, seconds % 60;
    FormatDurationHoursText(ms);
    HoursFields(h, m, sec);
  }

  lemma FormatDurationHoursValue(ms: int)
    requires ms >= 3600000
    ensures ParseClock(FormatDuration(ms)) == Some(ms / 1000)
  {
    var seconds := ms / 1000;
    var minutes := seconds / 60;
    var h, m, sec := minutes / 60, minutes % 60, seconds % 60;
    var fields := [NatToString(h), PadStart2(NatToString(m)), PadStart2(NatToString(sec))];
    FormatDurationHoursFields(ms);
    PadStart2Digits(m);
    PadStart2Digits(sec);
    ParseClockFields(FormatDuration(ms), fields);
    HoursValue(h, m, sec);
    SecondsFromClock(seconds);
  }

  /** The fields of "h:mm:ss" for m and s below 60. */
  lemma HoursFields(h: nat, m: nat, s: nat)
    requires m < 60 && s < 60
    ensures var hh, mm, ss := NatToString(h), PadStart2(NatToString(m)), PadStart2(NatToString(s));
      Fields(hh + ":" + mm + ":" + ss) == [hh, mm, ss]
  {
    PadStart2Digits(m);
    PadStart2Digits(s);
    FieldsOfThree(NatToString(h), PadStart2(NatToString(m)), PadStart2(NatToString(s)));
  }

  /** The fields of "h:mm:ss" read back as seconds. */
  lemma HoursValue(h: nat, m: nat, s: nat)
    requires m < 60 && s < 60
    ensures ClockValue([NatToString(h), PadStart2(NatToString(m)), PadStart2(NatToString(s))]) == (h * 60 + m) * 60 + s
  {
    PadStart2Digits(m);
    PadStart2Digits(s);
    ClockValueThree(NatToString(h), PadStart2(NatToString(m)), PadStart2(NatToString(s)));
  }

  /** Hours, minutes past the hour and seconds past the minute make up the
      whole seconds again. */
  lemma SecondsFromClock(seconds: int)
    ensures var minutes := seconds / 60;
      (minutes / 60 * 60 + minutes % 60) * 60 + seconds % 60 == seconds
  {
  }

  lemma FormatDurationHoursText(ms: int)
    requires ms >= 3600000
    ensures var seconds := ms / 1000; var minutes := seconds / 60;
      FormatDuration(ms) == NatToString(minutes / 60) + ":" + PadStart2(NatToString(minutes % 60))
                            + ":" + PadStart2(NatToString(seconds % 60))
  {
    var seconds := ms / 1000;
    var minutes := seconds / 60;
    assert minutes / 60 > 0;
    assert JsRemainder(minutes, 60) == minutes % 60 && JsRemainder(seconds, 60) == seconds % 60;
  }

  lemma FormatDurationMinutes(ms: int)
    requires 0 <= ms < 3600000
    ensures var fields := Fields(FormatDuration(ms));
      && |fields| == 2
      && (|fields[0]| > 1 ==> fields[0][0] != '0')
      && |fields[1]| == 2 && ValueOf(fields[1]) < 60
      && ParseClock(FormatDuration(ms)) == Some(ms / 1000)
  {
    var seconds := ms / 1000;
    var minutes := seconds / 60;
    assert minutes / 60 == 0;
    var m, ss := NatToString(minutes), PadStart2(NatToString(seconds % 60));
    PadStart2Digits(seconds % 60);
    assert FormatDuration(ms) == m + ":" + ss;
    TwoFields(m, ss);
    assert minutes * 60 + seconds % 60 == seconds;
  }

  /** `Math.round`: the nearest integer, halves rounded up. */
  function Round(x: real): (n: int)
    ensures x - 0.5 < n as real <= x + 0.5
  {
    (x + 0.5).Floor
  }

  /** formatPace as written: whole minutes, then the rounded remaining
      seconds, "0:00" for a zero pace (a real is never infinite, so the
      source's `isFinite` test has no counterpart). */
  function FormatPace(pace: real): (text: string)
    ensures pace == 0.0 ==> text == "0:00"
    ensures |text| >= 4
  {
    if pace == 0.0 then "0:00"
    else
      var minutes := pace.Floor;
      var seconds := Round((pace - minutes as real) * 60.0);
      IntToString(minutes) + ":" + PadStart2(IntToString(seconds))
  }

  /** The pace formatter with the seconds carried into the minutes: the
      rounded total number of seconds, split into minutes and seconds. */
  function FormatPaceCarried(pace: real): (text: string)
    ensures pace == 0.0 ==> text == "0:00"
    ensures |text| >= 4
  {
    if pace == 0.0 then "0:00"
    else
      var total := Round(pace * 60.0);
      IntToString(total / 60) + ":" + PadStart2(IntToString(total % 60))
  }

  /** As written, a pace whose fraction of a minute rounds up to a whole
      minute prints the seconds field "60", as in "4:60" for 4.995. */
  lemma FormatPacePrintsSixty(pace: real)
    requires pace > 0.0
    requires pace - pace.Floor as real >= 119.0 / 120.0
    ensures var fields := Fields(FormatPace(pace));
      |fields| == 2 && fields[1] == "60"
  {
    var minutes := pace.Floor;
    var seconds := Round((pace - minutes as real) * 60.0);
    assert seconds == 60;
    assert NatToString(60) == "60" by {
      assert NatToString(6) == "6";
    }
    assert PadStart2(IntToString(60)) == "60";
    assert FormatPace(pace) == IntToString(minutes) + ":" + "60";
    TwoFields(NatToString(minutes), "60");
  }

  lemma FormatPaceExample()
    ensures FormatPace(4.995) == "4:60"
  {
    assert (4.995).Floor == 4;
    assert Round((4.995 - 4.0) * 60.0) == 60;
    assert NatToString(60) == "60" by {
      assert NatToString(6) == "6";
    }
    assert NatToString(4) == "4";
  }

  /** The carried formatter prints "m:ss" with the seconds below 60, and the
      clock reads back as the pace rounded to whole seconds. */
  lemma FormatPaceCarriedReadsBack(pace: real)
    requires pace > 0.0
    ensures var fields := Fields(FormatPaceCarried(pace));
      && |fields| == 2 && |fields[1]| == 2 && ValueOf(fields[1]) < 60
      && ParseClock(FormatPaceCarried(pace)) == Some(Round(pace * 60.0))
  {
    var total := Round(pace * 60.0);
    assert total >= 0;
    PadStart2Digits(total % 60);
    TwoFields(NatToString(total / 60), PadStart2(NatToString(total % 60)));
  }

  /** Wherever the as-written formatter prints seconds below 60, the
      carried one prints the same text. */
  lemma FormatPaceCarriedAgrees(pace: real)
    requires pace > 0.0
    requires Round((pace - pace.Floor as real) * 60.0) < 60
    ensures FormatPaceCarried(pace) == FormatPace(pace)
  {
    var minutes := pace.Floor;
    var seconds := Round((pace - minutes as real) * 60.0);
    var total := Round(pace * 60.0);
    assert pace * 60.0 == (pace - minutes as real) * 60.0 + (60 * minutes) as real;
    RoundShift((pace - minutes as real) * 60.0, 60 * minutes);
    assert total == seconds + 60 * minutes;
    assert 0 <= seconds;
    assert total / 60 == minutes && total % 60 == seconds;
    assert FormatPace(pace) == IntToString(minutes) + ":" + PadStart2(IntToString(seconds));
    assert FormatPaceCarried(pace) == IntToString(total / 60) + ":" + PadStart2(IntToString(total % 60));
  }

  lemma RoundShift(x: real, k: int)
    ensures Round(x + k as real) == Round(x) + k
  {
    var n := Round(x);
    assert (n + k) as real <= x + k as real + 0.5 < (n + k + 1) as real;
  }

  // ---------------------------------------------------------------------
  // Session lists

  function SumDistance(sessions: seq<JoggingSession>): real
    decreases |sessions|
  {
    if |sessions| == 0 then 0.0
    else SumDistance(sessions[..|sessions| - 1]) + sessions[|sessions| - 1].distance
  }

  function SumDuration(sessions: seq<JoggingSession>): int
    decreases |sessions|
  {
    if |sessions| == 0 then 0
    else SumDuration(sessions[..|sessions| - 1]) + sessions[|sessions| - 1].duration
  }

  function SumPace(sessions: seq<JoggingSession>): real
    decreases |sessions|
  {
    if |sessions| == 0 then 0.0
    else SumPace(sessions[..|sessions| - 1]) + sessions[|sessions| - 1].avgPace
  }

  /** calculateOverallStats: the session count, the summed distance and
      duration, and the mean of the sessions' paces (0 for no sessions). */
  function CalculateOverallStats(sessions: seq<JoggingSession>): (stats: OverallStats)
    ensures stats.totalSessions == |sessions|
    ensures stats.totalDistance == SumDistance(sessions)
    ensures stats.totalDuration == SumDuration(sessions)
    ensures |sessions| == 0 ==> stats.avgPace == 0.0
    ensures |sessions| > 0 ==> stats.avgPace * |sessions| as real == SumPace(sessions)
  {
    var avgPace := if |sessions| > 0 then SumPace(sessions) / |sessions| as real else 0.0;
    OverallStats(SumDistance(sessions), SumDuration(sessions), avgPace, |sessions|)
  }

  /** The totals of two lists of sessions joined are the sums of their totals. */
  lemma {:induction false} SumsConcat(a: seq<JoggingSession>, b: seq<JoggingSession>)
    ensures SumDistance(a + b) == SumDistance(a) + SumDistance(b)
    ensures SumDuration(a + b) == SumDuration(a) + SumDuration(b)
    ensures SumPace(a + b) == SumPace(a) + SumPace(b)
    decreases |b|
  {
    if |b| == 0 {
      assert a + b == a;
    } else {
      var init := b[..|b| - 1];
      SumsConcat(a, init);
      assert (a + b)[..|a + b| - 1] == a + init;
    }
  }

  /** The mean pace lies between the smallest and the largest pace. */
  lemma {:induction false} MeanPaceBetween(sessions: seq<JoggingSession>, lo: real, hi: real)
    requires |sessions| > 0
    requires forall i | 0 <= i < |sessions| :: lo <= sessions[i].avgPace <= hi
    ensures lo <= CalculateOverallStats(sessions).avgPace <= hi
  {
    SumPaceBetween(sessions, lo, hi);
    var n := |sessions| as real;
    var mean := CalculateOverallStats(sessions).avgPace;
    assert mean * n == SumPace(sessions);
    assert lo * n <= mean * n <= hi * n;
  }

  lemma {:induction false} SumPaceBetween(sessions: seq<JoggingSession>, lo: real, hi: real)
    requires forall i | 0 <= i < |sessions| :: lo <= sessions[i].avgPace <= hi
    ensures lo * |sessions| as real <= SumPace(sessions) <= hi * |sessions| as real
    decreases |sessions|
  {
    if |sessions| > 0 {
      SumPaceBetween(sessions[..|sessions| - 1], lo, hi);
    }
  }

  /** Sessions whose metrics are never negative give totals and a mean
      pace that are never negative. */
  lemma TotalsNonNegative(sessions: seq<JoggingSession>)
    requires forall i | 0 <= i < |sessions| ::
      sessions[i].distance >= 0.0 && sessions[i].duration >= 0 && sessions[i].avgPace >= 0.0
    ensures var stats := CalculateOverallStats(sessions);
      stats.totalDistance >= 0.0 && stats.totalDuration >= 0 && stats.avgPace >= 0.0
  {
    SumsNonNegative(sessions);
  }

  lemma {:induction false} SumsNonNegative(sessions: seq<JoggingSession>)
    requires forall i | 0 <= i < |sessions| ::
      sessions[i].distance >= 0.0 && sessions[i].duration >= 0 && sessions[i].avgPace >= 0.0
    ensures SumDistance(sessions) >= 0.0 && SumDuration(sessions) >= 0 && SumPace(sessions) >= 0.0
    decreases |sessions|
  {
    if |sessions| > 0 {
      SumsNonNegative(sessions[..|sessions| - 1]);
    }
  }

  /** filterSessionsByDateRange: the sessions that started between the two
      dates, both ends included, in their original order. */
  function FilterSessionsByDateRange(sessions: seq<JoggingSession>, startDate: int, endDate: int)
    : (inRange: seq<JoggingSession>)
    ensures |inRange| <= |sessions|
    ensures forall i | 0 <= i < |inRange| :: startDate <= inRange[i].startTime <= endDate
    decreases |sessions|
  {
    if |sessions| == 0 then []
    else
      var last := sessions[|sessions| - 1];
      var kept := FilterSessionsByDateRange(sessions[..|sessions| - 1], startDate, endDate);
      if startDate <= last.startTime <= endDate then kept + [last] else kept
  }

  /** The filter keeps exactly the sessions that started in the range, and
      keeps them in their original order. */
  lemma {:induction false} FilterByDateRangeKeeps(sessions: seq<JoggingSession>, startDate: int, endDate: int)
    ensures var inRange := FilterSessionsByDateRange(sessions, startDate, endDate);
      && (forall s :: s in inRange <==> s in sessions && startDate <= s.startTime <= endDate)
      && Subsequence(inRange, sessions)
    decreases |sessions|
  {
    if |sessions| > 0 {
      var init := sessions[..|sessions| - 1];
      var last := sessions[|sessions| - 1];
      FilterByDateRangeKeeps(init, startDate, endDate);
      var kept := FilterSessionsByDateRange(init, startDate, endDate);
      assert sessions == init + [last];
      SubsequenceSnoc(kept, init, last);
    }
  }

  /** Filtering a list made of two parts filters each part. */
  lemma {:induction false} FilterByDateRangeConcat(a: seq<JoggingSession>, b: seq<JoggingSession>,
                                                   startDate: int, endDate: int)
    ensures FilterSessionsByDateRange(a + b, startDate, endDate)
         == FilterSessionsByDateRange(a, startDate, endDate) + FilterSessionsByDateRange(b, startDate, endDate)
    decreases |b|
  {
    if |b| == 0 {
      assert a + b == a;
    } else {
      var init, last := b[..|b| - 1], b[|b| - 1];
      var fa := FilterSessionsByDateRange(a, startDate, endDate);
      var fi := FilterSessionsByDateRange(init, startDate, endDate);
      var tail := if startDate <= last.startTime <= endDate then [last] else [];
      FilterByDateRangeConcat(a, init, startDate, endDate);
      assert (a + b)[..|a + b| - 1] == a + init;
      assert (a + b)[|a + b| - 1] == last;
      assert FilterSessionsByDateRange(a + b, startDate, endDate) == (fa + fi) + tail;
      assert FilterSessionsByDateRange(b, startDate, endDate) == fi + tail;
      assert (fa + fi) + tail == fa + (fi + tail);
    }
  }

  /** Filtering twice by the same range is filtering once. */
  lemma {:induction false} FilterByDateRangeIdempotent(sessions: seq<JoggingSession>, startDate: int, endDate: int)
    ensures var once := FilterSessionsByDateRange(sessions, startDate, endDate);
      FilterSessionsByDateRange(once, startDate, endDate) == once
    decreases |sessions|
  {
    if |sessions| > 0 {
      var init := sessions[..|sessions| - 1];
      var last := sessions[|sessions| - 1];
      FilterByDateRangeIdempotent(init, startDate, endDate);
      var kept := FilterSessionsByDateRange(init, startDate, endDate);
      if startDate <= last.startTime <= endDate {
        FilterByDateRangeConcat(kept, [last], startDate, endDate);
        assert FilterSessionsByDateRange([last], startDate, endDate) == [last] by {
          assert [last][..0] == [];
        }
      }
    }
  }
}
