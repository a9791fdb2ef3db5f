/**
 * The race state of one racer and its lap-progress rule
 * (`Racer.updateLapProgress`, and the `finished` guard of `Racer.update`).
 *
 * Steering, physics, movement and bounds clamping happen between the guard and
 * the lap rule; their outcome for one tick enters as an `Observation`.
 */
module LapProgress {
  import opened Geometry
  import opened Options

  const TOTAL_LAPS: nat := 3
  /** A racer at or below this speed never completes a lap. */
  const LAP_MIN_SPEED: real := 60.0

  /**
   * What a tick's steering and physics produced for one racer: the raw `atan2`
   * bearing of its new position, its new speed (`Math.hypot` of its velocity)
   * and whether the surface it started the tick on was off the track.
   */
  datatype Observation = Observation(bearing: real, speed: real, offTrack: bool)

  datatype RacerState = RacerState(
    completedLaps: nat,
    lapHistory: seq<real>,
    lastAngle: real,
    distance: real,
    finished: bool,
    finishTime: Option<real>)

  /** The racer crossed the start line forwards: from the last quarter turn into the first. */
  predicate Crosses(lastAngle: real, angle: real, speed: real) {
    speed > LAP_MIN_SPEED && lastAngle > PI * 1.5 && angle < PI * 0.5
  }

  /** The racer as `Game.setupRace` leaves it, placed at a point of bearing `bearing`. */
  function Fresh(bearing: real): (r: RacerState)
    ensures Valid(r, 0.0)
    ensures r.completedLaps == 0 && !r.finished
  {
    RacerState(0, [], NormalizeAngle(bearing), 0.0, false, None)
  }

  /**
   * The invariant of a racer's race state at time `now`: one lap time per
   * completed lap, in order and none later than `now`; finished exactly at
   * `TOTAL_LAPS`, with the last lap time as finish time; last angle normalised.
   */
  ghost predicate Valid(r: RacerState, now: real) {
    && |r.lapHistory| == r.completedLaps <= TOTAL_LAPS
    && (forall i, j :: 0 <= i < j < |r.lapHistory| ==> r.lapHistory[i] <= r.lapHistory[j])
    && (forall i :: 0 <= i < |r.lapHistory| ==> r.lapHistory[i] <= now)
    && (r.finished <==> r.completedLaps == TOTAL_LAPS)
    && (r.finished ==> r.finishTime == Some(r.lapHistory[TOTAL_LAPS - 1]))
    && (!r.finished ==> r.finishTime == None)
    && 0.0 <= r.lastAngle < TAU
  }

  /** `Racer.updateLapProgress`. */
  function UpdateLapProgress(r: RacerState, o: Observation, elapsed: real): (r': RacerState)
    ensures r'.lastAngle == NormalizeAngle(o.bearing)
    ensures 0.0 <= r'.lastAngle < TAU
    ensures r'.completedLaps == r.completedLaps + 1 <==> Crosses(r.lastAngle, r'.lastAngle, o.speed)
    ensures r'.completedLaps == r.completedLaps || r'.completedLaps == r.completedLaps + 1
    ensures r'.lapHistory == if r'.completedLaps > r.completedLaps then r.lapHistory + [elapsed] else r.lapHistory
    ensures r.finished ==> r'.finished && (r'.finishTime == r.finishTime || r'.finishTime == Some(elapsed))
    ensures !r.finished ==>
      (r'.finished <==> r'.completedLaps > r.completedLaps && r'.completedLaps >= TOTAL_LAPS)
    ensures !r.finished && r'.finished ==> r'.finishTime == Some(elapsed)
  {
    var angle := NormalizeAngle(o.bearing);
    var crossed := o.speed > 60.0 && r.lastAngle > PI * 1.5 && angle < PI * 0.5;
    var laps := if crossed then r.completedLaps + 1 else r.completedLaps;
    var history := if crossed then r.lapHistory + [elapsed] else r.lapHistory;
    var distance := if crossed then 0.0 else r.distance;
    var finishing := crossed && laps >= TOTAL_LAPS;
    var finished := r.finished || finishing;
    var finishTime := if finishing then Some(elapsed) else r.finishTime;
    var distance' := if !o.offTrack then distance + o.speed else distance;
    RacerState(laps, history, angle, distance', finished, finishTime)
  }

  /** `Racer.update` as far as the race state goes: a finished racer is left alone. */
  function Update(r: RacerState, o: Observation, elapsed: real): (r': RacerState)
    ensures r.finished ==> r' == r
    ensures r.completedLaps <= r'.completedLaps <= r.completedLaps + 1
    ensures r.finished ==> r'.finished
  {
    if r.finished then r else UpdateLapProgress(r, o, elapsed)
  }

  /**
   * One tick keeps the invariant when the clock does not run backwards, and
   * the racer finishes on exactly the tick its lap count reaches `TOTAL_LAPS`,
   * with that tick's time as finish time.
   */
  lemma UpdateKeepsValid(r: RacerState, o: Observation, now: real, elapsed: real)
    requires Valid(r, now)
    requires now <= elapsed
    ensures Valid(Update(r, o, elapsed), elapsed)
    ensures var r' := Update(r, o, elapsed);
      !r.finished && r'.finished <==> r.completedLaps < TOTAL_LAPS && r'.completedLaps == TOTAL_LAPS
    ensures var r' := Update(r, o, elapsed);
      !r.finished && r'.finished ==> r'.finishTime == Some(elapsed)
  {
    if r.finished {
      HistoryKeepsOrder(r.lapHistory, r.lapHistory, now, elapsed);
    } else {
      var r' := UpdateLapProgress(r, o, elapsed);
      HistoryKeepsOrder(r.lapHistory, r'.lapHistory, now, elapsed);
    }
  }

  /** Recording a lap at a time no earlier than any recorded one keeps the history in order. */
  lemma HistoryKeepsOrder(h: seq<real>, h': seq<real>, now: real, elapsed: real)
    requires forall i, j :: 0 <= i < j < |h| ==> h[i] <= h[j]
    requires forall i :: 0 <= i < |h| ==> h[i] <= now
    requires now <= elapsed
    requires h' == h || h' == h + [elapsed]
    ensures forall i, j :: 0 <= i < j < |h'| ==> h'[i] <= h'[j]
    ensures forall i :: 0 <= i < |h'| ==> h'[i] <= elapsed
  {
    if h' != h {
      forall i, j | 0 <= i < j < |h'|
        ensures h'[i] <= h'[j]
      {
        assert h'[i] == h[i];
      }
    }
  }

  /** The race state after a run of ticks, tick `k` observing `obs[k]` at time `times[k]`. */
  function Run(r: RacerState, obs: seq<Observation>, times: seq<real>): RacerState
    requires |obs| == |times|
    decreases |obs|
  {
    if |obs| == 0 then r else Run(Update(r, obs[0], times[0]), obs[1..], times[1..])
  }

  predicate NonDecreasing(times: seq<real>) {
    forall i, j :: 0 <= i < j < |times| ==> times[i] <= times[j]
  }

  /**
   * Over any run of ticks with a clock that never runs backwards, the
   * invariant holds throughout, the lap count never decreases, and a racer
   * that has finished stays finished and untouched.
   */
  lemma {:induction false} RunKeepsValid(r: RacerState, obs: seq<Observation>, times: seq<real>, now: real)
    requires |obs| == |times|
    requires Valid(r, now)
    requires NonDecreasing(times)
    requires forall i :: 0 <= i < |times| ==> now <= times[i]
    ensures var end := if |times| == 0 then now else times[|times| - 1];
      Valid(Run(r, obs, times), end)
    ensures r.completedLaps <= Run(r, obs, times).completedLaps <= TOTAL_LAPS
    ensures r.finished ==> Run(r, obs, times) == r
    decreases |obs|
  {
    if |obs| > 0 {
      UpdateKeepsValid(r, obs[0], now, times[0]);
      var r1 := Update(r, obs[0], times[0]);
      RunKeepsValid(r1, obs[1..], times[1..], times[0]);
      if |times| > 1 {
        assert times[1..][|times| - 2] == times[|times| - 1];
      }
    }
  }

  /**
   * One forward step of less than a quarter turn above the lap speed: the
   * bearing wraps past 0 exactly when the racer completes a lap, and the new
   * angle is the old one advanced by the step, less a turn on wrapping.
   */
  lemma ForwardStepCountsWrap(r: RacerState, o: Observation, elapsed: real, step: real)
    requires 0.0 <= r.lastAngle < TAU
    requires 0.0 <= step < PI * 0.5
    requires o.speed > LAP_MIN_SPEED
    requires Congruent(o.bearing, r.lastAngle + step)
    ensures var r' := UpdateLapProgress(r, o, elapsed);
      && (r'.completedLaps == r.completedLaps + 1 <==> r.lastAngle + step >= TAU)
      && r'.lastAngle == if r.lastAngle + step >= TAU then r.lastAngle + step - TAU else r.lastAngle + step
  {
    var a := r.lastAngle + step;
    if a >= TAU {
      CongruentTurn(o.bearing, a);
      CongruentSym(o.bearing, a - TAU);
      NormalizeAngleUnique(o.bearing, a - TAU);
    } else {
      CongruentSym(o.bearing, a);
      NormalizeAngleUnique(o.bearing, a);
    }
  }

  /** Whole turns below the unwrapped angle `x`. */
  function Turns(x: real): int {
    (x / TAU).Floor
  }

  /**
   * `path` unwraps the bearings of a run that starts at angle `from` and
   * moves forward by less than a quarter turn on every tick.
   */
  predicate ForwardPath(from: real, path: seq<real>) {
    && (|path| > 0 ==> 0.0 <= path[0] - from < PI * 0.5)
    && forall k :: 0 < k < |path| ==> 0.0 <= path[k] - path[k - 1] < PI * 0.5
  }

  function PathEnd(from: real, path: seq<real>): real {
    if |path| == 0 then from else path[|path| - 1]
  }

  lemma {:induction false} ForwardPathRises(from: real, path: seq<real>)
    requires ForwardPath(from, path)
    ensures from <= PathEnd(from, path)
    decreases |path|
  {
    if |path| > 0 {
      assert ForwardPath(path[0], path[1..]) by {
        forall k | 0 < k < |path[1..]|
          ensures 0.0 <= path[1..][k] - path[1..][k - 1] < PI * 0.5
        {
          assert path[1..][k] == path[k + 1] && path[1..][k - 1] == path[k];
        }
      }
      ForwardPathRises(path[0], path[1..]);
      if |path| > 1 {
        assert path[1..][|path| - 2] == path[|path| - 1];
      }
    }
  }

  /** The angle in `[0, TAU)` congruent to `x` is `x` less its whole turns. */
  lemma ReducedByTurns(a: real, x: real)
    requires 0.0 <= a < TAU && Congruent(a, x)
    ensures a == x - TAU * Turns(x) as real
  {
    var t := Turns(x);
    var y := x - TAU * t as real;
    IntegerIsInteger(-t);
    assert (y - x) / TAU == (-t) as real;
    assert Congruent(y, x);
    CongruentSym(y, x);
    CongruentTrans(a, x, y);
    CongruentClose(a, y);
  }

  /**
   * A lap is counted each time the unwrapped bearing passes a whole turn,
   * until the racer finishes: over a forward run of ticks above the lap speed,
   * each less than a quarter turn, the laps completed are the turns passed,
   * capped at the race length.
   */
  lemma {:induction false} ForwardRunCountsWraps(r: RacerState, obs: seq<Observation>, times: seq<real>, from: real, path: seq<real>)
    requires |obs| == |times| == |path|
    requires 0.0 <= r.lastAngle < TAU
    requires r.completedLaps <= TOTAL_LAPS && (r.finished <==> r.completedLaps == TOTAL_LAPS)
    requires !r.finished ==> Congruent(r.lastAngle, from)
    requires ForwardPath(from, path)
    requires forall k :: 0 <= k < |obs| ==> obs[k].speed > LAP_MIN_SPEED && Congruent(obs[k].bearing, path[k])
    ensures var laps := r.completedLaps + Turns(PathEnd(from, path)) - Turns(from);
      Run(r, obs, times).completedLaps == if laps < TOTAL_LAPS then laps else TOTAL_LAPS
    decreases |obs|
  {
    ForwardPathRises(from, path);
    if |obs| > 0 {
      var p := path[0];
      assert ForwardPath(p, path[1..]) by {
        forall k | 0 < k < |path[1..]|
          ensures 0.0 <= path[1..][k] - path[1..][k - 1] < PI * 0.5
        {
          assert path[1..][k] == path[k + 1] && path[1..][k - 1] == path[k];
        }
      }
      assert PathEnd(p, path[1..]) == PathEnd(from, path) by {
        if |path| > 1 {
          assert path[1..][|path| - 2] == path[|path| - 1];
        }
      }
      var r1 := Update(r, obs[0], times[0]);
      if !r.finished {
        var step := p - from;
        ReducedByTurns(r.lastAngle, from);
        assert Congruent(p, r.lastAngle + step) by {
          IntegerIsInteger(Turns(from));
          assert (p - (r.lastAngle + step)) / TAU == Turns(from) as real;
        }
        CongruentTrans(obs[0].bearing, p, r.lastAngle + step);
        ForwardStepCountsWrap(r, obs[0], times[0], step);
        assert r.lastAngle + step >= TAU <==> Turns(p) == Turns(from) + 1;
        assert r.lastAngle + step < TAU <==> Turns(p) == Turns(from);
        assert Congruent(r1.lastAngle, p) by {
          CongruentTrans(r1.lastAngle, obs[0].bearing, p);
        }
      }
      ForwardPathRises(p, path[1..]);
      assert Turns(from) <= Turns(p) <= Turns(PathEnd(from, path));
      ForwardRunCountsWraps(r1, obs[1..], times[1..], p, path[1..]);
    }
  }

  /**
   * From the start of a race: a racer set up at its start bearing completes
   * one lap per whole turn of its forward run, up to the race length.
   */
  lemma FreshRunCountsWraps(bearing: real, obs: seq<Observation>, times: seq<real>, path: seq<real>)
    requires |obs| == |times| == |path|
    requires ForwardPath(NormalizeAngle(bearing), path)
    requires forall k :: 0 <= k < |obs| ==> obs[k].speed > LAP_MIN_SPEED && Congruent(obs[k].bearing, path[k])
    ensures var laps := Turns(PathEnd(NormalizeAngle(bearing), path));
      Run(Fresh(bearing), obs, times).completedLaps == if laps < TOTAL_LAPS then laps else TOTAL_LAPS
  {
    var start := NormalizeAngle(bearing);
    assert Congruent(start, start) by {
      IntegerIsInteger(0);
      assert (start - start) / TAU == 0 as real;
    }
    assert Turns(start) == 0;
    ForwardRunCountsWraps(Fresh(bearing), obs, times, start, path);
  }

  /**
   * Laps count at the line, bearing 0, not at the start. A racer set up at
   * bearing `b` in `[0, TAU)` completes its first lap once its bearing has
   * advanced `TAU - b` and the race once it has advanced `3 * TAU - b`.
   * `placeOnTrack` starts racers near 1.5π, so the first lap is about a
   * quarter turn and the race about two and a quarter turns.
   */
  lemma FreshRaceDistance(bearing: real, obs: seq<Observation>, times: seq<real>, path: seq<real>)
    requires 0.0 <= bearing < TAU
    requires |obs| == |times| == |path|
    requires ForwardPath(bearing, path)
    requires forall k :: 0 <= k < |obs| ==> obs[k].speed > LAP_MIN_SPEED && Congruent(obs[k].bearing, path[k])
    ensures Run(Fresh(bearing), obs, times).completedLaps >= 1 <==> PathEnd(bearing, path) - bearing >= TAU - bearing
    ensures Run(Fresh(bearing), obs, times).completedLaps == TOTAL_LAPS <==> PathEnd(bearing, path) - bearing >= 3.0 * TAU - bearing
  {
    FreshRunCountsWraps(bearing, obs, times, path);
  }
}
