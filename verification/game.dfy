/**
 * The race controller (`Game.startRace`, `Game.update`, `Game.checkFinish`):
 * a phase machine over idle, countdown, running and finished, advanced once
 * per animation frame by the frame's duration `dt`.
 */
module Race {
  import opened Options
  import opened Text
  import opened Leaderboard
  import opened Standings
  import LapProgress

  datatype Phase = Idle | Countdown | Running | Finished

  /** The field of `Game.setupRace`: the player, then three rivals. */
  const RACER_COUNT: nat := 4
  /** The player is the first racer of the field. */
  const PLAYER: nat := 0
  const COUNTDOWN_START: int := 3
  /** How long the "GO!" overlay shows once the race starts, in seconds. */
  const GO_DISPLAY: real := 0.65

  datatype Game = Game(
    phase: Phase,
    elapsed: real,
    countdown: int,
    countdownTimer: real,
    goTimer: real,
    racers: seq<LapProgress.RacerState>,
    positionIndex: int,
    board: Board)

  /**
   * One frame's input: its duration (never negative, as frame timestamps
   * only grow), every racer's observation, and today's date label.
   */
  datatype Frame = Frame(dt: real, obs: seq<LapProgress.Observation>, today: string)

  /** The phase changes a single frame can make. */
  predicate CanStep(from: Phase, to: Phase) {
    match from
    case Idle => to == Idle
    case Countdown => to == Countdown || to == Running
    case Running => to == Running || to == Finished
    case Finished => to == Finished
  }

  /**
   * The controller's invariant. The field is in place once a race was set up;
   * the countdown shows 1 to 3 with under a second accumulated; the player has
   * not finished before the race is over and has once it is; every racer's
   * race state is valid at the current race time.
   */
  ghost predicate Valid(g: Game) {
    && 1 <= g.positionIndex <= RACER_COUNT
    && (g.phase != Idle ==> |g.racers| == RACER_COUNT)
    && g.elapsed >= 0.0
    && 0.0 <= g.goTimer <= GO_DISPLAY
    && (g.phase == Countdown ==>
          1 <= g.countdown <= COUNTDOWN_START && 0.0 <= g.countdownTimer < 1.0 && g.elapsed == 0.0)
    && RacersValid(g.racers, g.elapsed)
    && (g.phase == Countdown || g.phase == Running ==> !g.racers[PLAYER].finished)
    && (g.phase == Finished ==> g.racers[PLAYER].finished)
    && |g.board.entries| <= g.board.limit
  }

  /** Every racer's race state is valid at time `now`. */
  ghost predicate RacersValid(racers: seq<LapProgress.RacerState>, now: real) {
    forall i :: 0 <= i < |racers| ==> LapProgress.Valid(racers[i], now)
  }

  /** The `Game` constructor; `stored` is what the leaderboard found in storage. */
  function NewGame(stored: Option<seq<Entry>>): (g: Game)
    ensures Valid(g) && g.phase == Idle
    ensures g.racers == [] && g.positionIndex == 1 && g.elapsed == 0.0
    ensures g.board.limit == DEFAULT_LIMIT && |g.board.entries| <= DEFAULT_LIMIT
    ensures stored.None? ==> g.board.entries == []
  {
    Game(Idle, 0.0, COUNTDOWN_START, 0.0, 0.0, [], 1, Load(DEFAULT_LIMIT, stored))
  }

  /**
   * `Game.startRace`: a fresh field (placing a racer yields the bearing of its
   * start position), race time zero, and the countdown from 3. The place shown
   * is kept from the previous race.
   */
  function StartRace(g: Game, bearings: seq<real>): (g': Game)
    requires Valid(g)
    requires |bearings| == RACER_COUNT
    ensures Valid(g') && g'.phase == Countdown && g'.countdown == COUNTDOWN_START
    ensures g'.board == g.board && g'.positionIndex == g.positionIndex
    ensures g'.countdownTimer == 0.0 && g'.goTimer == 0.0 && g'.elapsed == 0.0
    ensures |g'.racers| == RACER_COUNT
    ensures forall i :: 0 <= i < RACER_COUNT ==> g'.racers[i] == LapProgress.Fresh(bearings[i])
    ensures forall i :: 0 <= i < RACER_COUNT ==> g'.racers[i].completedLaps == 0 && !g'.racers[i].finished
  {
    var racers := seq(RACER_COUNT, i requires 0 <= i < RACER_COUNT => LapProgress.Fresh(bearings[i]));
    g.(phase := Countdown, elapsed := 0.0, countdown := COUNTDOWN_START, countdownTimer := 0.0,
       goTimer := 0.0, racers := racers)
  }

  /**
   * The leaderboard name of a finish, `P<place> • <date>`: a `P`, the digits
   * of the place, a bullet between spaces, then the date.
   */
  function Label(place: int, today: string): (name: string)
    ensures |name| >= |today| + 4 && name[0] == 'P'
    ensures name[|name| - |today| - 3..|name| - |today|] == " \U{2022} "
    ensures name[|name| - |today|..] == today
    ensures place >= 0 ==>
      var digits := name[1..|name| - |today| - 3];
      AllDigits(digits) && ParseNat(digits) == place
  {
    var digits := IntToString(place);
    IntToStringReadsBack(place);
    var name := "P" + digits + " \U{2022} " + today;
    assert name[1..|name| - |today| - 3] == digits;
    name
  }

  /** `racers.forEach(racer => racer.update(...))` for the race-state part of each racer. */
  function UpdateAll(racers: seq<LapProgress.RacerState>, obs: seq<LapProgress.Observation>, elapsed: real)
    : (rs: seq<LapProgress.RacerState>)
    requires |obs| == |racers|
    ensures |rs| == |racers|
    ensures forall i :: 0 <= i < |rs| ==> rs[i] == LapProgress.Update(racers[i], obs[i], elapsed)
  {
    seq(|racers|, i requires 0 <= i < |racers| => LapProgress.Update(racers[i], obs[i], elapsed))
  }

  /** `Game.checkFinish`: the first frame the player is finished ends the race and posts the time. */
  function CheckFinish(g: Game, today: string): (g': Game)
    requires PLAYER < |g.racers|
    requires g.racers[PLAYER].finished ==> g.racers[PLAYER].finishTime.Some?
    ensures g'.phase == Finished <==> g.phase == Finished || g.racers[PLAYER].finished
    ensures g.phase != Finished && g'.phase == Finished ==>
      g'.board == Push(g.board, Entry(Label(g.positionIndex, today), g.racers[PLAYER].finishTime.value))
    ensures !(g.phase != Finished && g'.phase == Finished) ==> g' == g
    ensures g'.racers == g.racers && g'.elapsed == g.elapsed && g'.positionIndex == g.positionIndex
    ensures g'.board.limit == g.board.limit
    ensures |g.board.entries| <= g.board.limit ==> |g'.board.entries| <= g'.board.limit
  {
    var player := g.racers[PLAYER];
    if player.finished && g.phase != Finished then
      g.(phase := Finished,
         board := Push(g.board, Entry(Label(g.positionIndex, today), player.finishTime.value)))
    else
      g
  }

  /** `Game.update`. */
  function Update(g: Game, f: Frame): (g': Game)
    requires Valid(g)
    requires f.dt >= 0.0
    requires g.phase == Running ==> |f.obs| == |g.racers|
    ensures CanStep(g.phase, g'.phase)
    ensures |g'.racers| == |g.racers|
    ensures g.phase == Idle || g.phase == Finished ==> g' == g
    ensures g'.elapsed == if g.phase == Running then g.elapsed + f.dt else g.elapsed
    ensures g.phase == Countdown ==>
      if g.countdownTimer + f.dt >= 1.0 then
        && g'.countdown == g.countdown - 1
        && g'.countdownTimer == 0.0
        && (g'.phase == Running <==> g'.countdown <= 0)
        && (g'.phase == Running ==> g'.goTimer == GO_DISPLAY)
      else
        g'.countdown == g.countdown && g'.countdownTimer == g.countdownTimer + f.dt && g'.phase == Countdown
    ensures g.phase == Countdown ==> g'.racers == g.racers && g'.board == g.board
    ensures g.phase == Running ==>
      g'.positionIndex == 1 + CountAhead(g'.racers, |g'.racers|, PLAYER) <= |g'.racers|
    ensures g.phase == Running ==>
      (g'.phase == Finished <==> g'.racers[PLAYER].finished)
    ensures g.phase == Running && g'.phase == Finished ==>
      g'.racers[PLAYER].finishTime.Some?
      && g'.board == Push(g.board, Entry(Label(g'.positionIndex, f.today), g'.racers[PLAYER].finishTime.value))
    ensures g'.phase != Finished || g.phase == Finished ==> g'.board == g.board
  {
    match g.phase
    case Countdown =>
      var timer := g.countdownTimer + f.dt;
      if timer >= 1.0 then
        var countdown := g.countdown - 1;
        if countdown <= 0 then
          g.(countdown := countdown, countdownTimer := 0.0, phase := Running, goTimer := GO_DISPLAY)
        else
          g.(countdown := countdown, countdownTimer := 0.0)
      else
        g.(countdownTimer := timer)
    case Running =>
      Tick(g, f)
    case _ =>
      g
  }

  /** The "GO!" overlay's remaining time after `dt` more seconds, never below zero. */
  function GoTimerAfter(goTimer: real, dt: real): (r: real)
    requires dt >= 0.0
    ensures goTimer <= 0.0 ==> r == goTimer
    ensures goTimer > 0.0 ==> 0.0 <= r <= goTimer
    ensures goTimer - dt > 0.0 ==> r == goTimer - dt
    ensures 0.0 < goTimer <= dt ==> r == 0.0
  {
    if goTimer > 0.0 then (if goTimer - dt > 0.0 then goTimer - dt else 0.0) else goTimer
  }

  /**
   * The running branch of `Game.update`: advance the race clock, update every
   * racer at the new time, resolve the player's place, then check for the finish.
   */
  function Tick(g: Game, f: Frame): (g': Game)
    requires Valid(g) && g.phase == Running
    requires f.dt >= 0.0
    requires |f.obs| == |g.racers|
    ensures g'.elapsed == g.elapsed + f.dt
    ensures |g'.racers| == |g.racers|
    ensures forall i :: 0 <= i < |g'.racers| ==>
      g'.racers[i] == LapProgress.Update(g.racers[i], f.obs[i], g'.elapsed)
    ensures g'.positionIndex == 1 + CountAhead(g'.racers, |g'.racers|, PLAYER)
    ensures 1 <= g'.positionIndex <= |g'.racers|
    ensures 0.0 <= g'.goTimer <= g.goTimer
    ensures g'.phase == Running || g'.phase == Finished
    ensures g'.phase == Finished <==> g'.racers[PLAYER].finished
    ensures g'.phase == Finished ==>
      g'.racers[PLAYER].finishTime.Some?
      && g'.board == Push(g.board, Entry(Label(g'.positionIndex, f.today), g'.racers[PLAYER].finishTime.value))
    ensures g'.phase == Running ==> g'.board == g.board
    ensures g'.board.limit == g.board.limit && |g'.board.entries| <= g'.board.limit
  {
    var elapsed := g.elapsed + f.dt;
    var racers := UpdateAll(g.racers, f.obs, elapsed);
    LapProgress.UpdateKeepsValid(g.racers[PLAYER], f.obs[PLAYER], g.elapsed, elapsed);
    var place := ResolvePosition(racers, PLAYER);
    CheckFinish(g.(elapsed := elapsed, goTimer := GoTimerAfter(g.goTimer, f.dt), racers := racers, positionIndex := place), f.today)
  }

  /** A frame keeps the controller's invariant. */
  lemma UpdateKeepsValid(g: Game, f: Frame)
    requires Valid(g)
    requires f.dt >= 0.0
    requires g.phase == Running ==> |f.obs| == |g.racers|
    ensures Valid(Update(g, f))
  {
    if g.phase == Running {
      RunningFrameKeepsValid(g, f);
    }
  }

  lemma RunningFrameKeepsValid(g: Game, f: Frame)
    requires Valid(g) && g.phase == Running
    requires f.dt >= 0.0
    requires |f.obs| == |g.racers|
    ensures Valid(Tick(g, f))
  {
    var g' := Tick(g, f);
    assert g'.racers == UpdateAll(g.racers, f.obs, g'.elapsed);
    UpdateAllKeepsValid(g.racers, f.obs, g.elapsed, g'.elapsed);
  }

  lemma UpdateAllKeepsValid(racers: seq<LapProgress.RacerState>, obs: seq<LapProgress.Observation>,
                                               now: real, elapsed: real)
    requires |obs| == |racers|
    requires RacersValid(racers, now)
    requires now <= elapsed
    ensures RacersValid(UpdateAll(racers, obs, elapsed), elapsed)
  {
    forall i | 0 <= i < |racers|
      ensures LapProgress.Valid(UpdateAll(racers, obs, elapsed)[i], elapsed)
    {
      LapProgress.UpdateKeepsValid(racers[i], obs[i], now, elapsed);
    }
  }

  ghost predicate Playable(g: Game, frames: seq<Frame>) {
    forall k :: 0 <= k < |frames| ==> frames[k].dt >= 0.0 && |frames[k].obs| == RACER_COUNT
  }

  /** The controller after a run of frames. */
  function Run(g: Game, frames: seq<Frame>): (g': Game)
    requires Valid(g)
    requires Playable(g, frames)
    ensures Valid(g')
    decreases |frames|
  {
    if |frames| == 0 then g
    else
      UpdateKeepsValid(g, frames[0]);
      Run(Update(g, frames[0]), frames[1..])
  }

  /** Nothing moves once the race is over, however many frames follow. */
  lemma {:induction false} FinishedIsFinal(g: Game, frames: seq<Frame>)
    requires Valid(g) && g.phase == Finished
    requires Playable(g, frames)
    ensures Run(g, frames) == g
    decreases |frames|
  {
    if |frames| > 0 {
      FinishedIsFinal(Update(g, frames[0]), frames[1..]);
    }
  }

  /**
   * A race posts to the leaderboard at most once: over any run of frames the
   * board is unchanged unless the run ends the race, and then it holds exactly
   * one more push, of the player's finish time.
   */
  lemma {:induction false} RunPushesOnce(g: Game, frames: seq<Frame>)
    requires Valid(g)
    requires Playable(g, frames)
    ensures var g' := Run(g, frames);
      g.phase == Finished || g'.phase != Finished ==> g'.board == g.board
    ensures var g' := Run(g, frames);
      g.phase != Finished && g'.phase == Finished ==>
        g'.racers[PLAYER].finishTime.Some?
        && exists name :: g'.board == Push(g.board, Entry(name, g'.racers[PLAYER].finishTime.value))
    decreases |frames|
  {
    if |frames| > 0 {
      var g1 := Update(g, frames[0]);
      UpdateKeepsValid(g, frames[0]);
      RunPushesOnce(g1, frames[1..]);
      if g.phase != Finished && g1.phase == Finished {
        FinishedIsFinal(g1, frames[1..]);
        var name := Label(g1.positionIndex, frames[0].today);
        assert g1.board == Push(g.board, Entry(name, g1.racers[PLAYER].finishTime.value));
      }
    }
  }

  /**
   * The countdown: from a fresh start, three frames of at least a second each
   * start the race, with the "GO!" overlay up and the race clock at zero.
   */
  lemma CountdownTakesThreeTicks(g: Game, bearings: seq<real>, f1: Frame, f2: Frame, f3: Frame)
    requires Valid(g)
    requires |bearings| == RACER_COUNT
    requires f1.dt >= 1.0 && f2.dt >= 1.0 && f3.dt >= 1.0
    ensures var g1 := Update(StartRace(g, bearings), f1);
      && g1.phase == Countdown && g1.countdown == 2
      && Update(g1, f2).phase == Countdown && Update(g1, f2).countdown == 1
    ensures var g3 := Update(Update(Update(StartRace(g, bearings), f1), f2), f3);
      g3.phase == Running && g3.goTimer == GO_DISPLAY && g3.elapsed == 0.0
  {
    var g0 := StartRace(g, bearings);
    UpdateKeepsValid(g0, f1);
    UpdateKeepsValid(Update(g0, f1), f2);
  }

  /** Below a second per frame the countdown only accumulates time. */
  lemma CountdownWaitsForASecond(g: Game, f: Frame)
    requires Valid(g) && g.phase == Countdown
    requires f.dt >= 0.0 && g.countdownTimer + f.dt < 1.0
    ensures Update(g, f) == g.(countdownTimer := g.countdownTimer + f.dt)
  {
  }
}
