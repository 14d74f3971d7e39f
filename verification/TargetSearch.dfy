/** The search for a target: the gimbal turns step by step until something is detected, the search is
    stopped, or a whole turn is done, and the client is told once that the search has ended.

    A search starts on the thread of the request and goes on as tasks of the event handler that share one
    name, so that removing tasks by that name removes a pending turn and pending stops alike. A task that
    turns the gimbal posts its successor only at its end, and stops come from other threads: the two halves
    of a turn are steps of their own. */
module TargetSearch {
  import opened Options

  const SEARCH_TARGET_TASK_DURATION := 500.0
  const SEARCH_TARGET_TASK_INTERVAL := 200.0
  const SEARCH_TARGET_ROTATE_SPEED := 3.14 / 4.0
  const WHOLE_TURN := 6.28
  const SEARCH_TARGET_ROTATE_TIMES :=
    WHOLE_TURN / (SEARCH_TARGET_ROTATE_SPEED * SEARCH_TARGET_TASK_DURATION / 1000.0
                  / SEARCH_TARGET_TASK_DURATION * SEARCH_TARGET_TASK_INTERVAL)

  datatype Phase = Idle | Checked | Launched | Answered

  datatype State = State(
    trackingTargetNum: nat,
    phase: Phase,
    searchingTarget: bool,
    // the turn being made, whose successor is not posted yet, and the pending tasks
    turning: Option<nat>,
    turn: Option<nat>,
    stops: nat,
    // commands sent to the device and notices sent to the client
    rotates: nat,
    notices: seq<nat>)

  datatype Step =
    | SearchTarget
    | Launch
    | RunTurn
    | PostNext
    | RunStop
    | StopRequest
    | Detected(number: nat)

  const START := State(0, Idle, false, None, None, 0, 0, [])

  predicate Enabled(s: State, step: Step) {
    match step
    case SearchTarget => s.phase == Idle
    case Launch => s.phase == Checked
    case RunTurn => s.turn.Some? && s.turning == None
    case PostNext => s.turning.Some?
    case RunStop => s.stops > 0
    case _ => true
  }

  /** Ends a search that is on: drops its tasks and tells the client. */
  function Stop(s: State): State {
    if !s.searchingTarget then s
    else s.(searchingTarget := false, turn := None, stops := 0, notices := s.notices + [s.trackingTargetNum])
  }

  predicate TurnsLeft(searchTimes: nat) {
    searchTimes as real < SEARCH_TARGET_ROTATE_TIMES
  }

  lemma FortyTurns(searchTimes: nat)
    ensures TurnsLeft(searchTimes) <==> searchTimes < 40
  {
    assert SEARCH_TARGET_ROTATE_TIMES == 40.0;
  }

  /** The task of one turn up to its command; `searchTimes` turns were made before. */
  function Turn(s: State, searchTimes: nat): State {
    var s := s.(turn := None, stops := 0);
    if s.trackingTargetNum == 0 && TurnsLeft(searchTimes) then
      s.(searchingTarget := true, rotates := s.rotates + 1, turning := Some(searchTimes + 1))
    else Stop(s)
  }

  function Apply(s: State, step: Step): State
    requires Enabled(s, step)
  {
    match step
    case SearchTarget =>
      if s.trackingTargetNum > 0 then s.(phase := Answered, notices := s.notices + [s.trackingTargetNum])
      else s.(phase := Checked)
    case Launch => Turn(s.(phase := Launched), 0)
    case RunTurn => Turn(s, s.turn.value)
    case PostNext => s.(turn := s.turning, turning := None)
    case RunStop => Stop(s.(stops := s.stops - 1))
    case StopRequest => Stop(s)
    case Detected(n) =>
      var s := s.(trackingTargetNum := n);
      if s.searchingTarget && n > 0 then s.(stops := s.stops + 1) else s
  }

  ghost predicate Runs(steps: seq<Step>)
    decreases |steps|, 0
  {
    |steps| > 0 ==> Runs(steps[..|steps| - 1]) && Enabled(After(steps[..|steps| - 1]), steps[|steps| - 1])
  }

  ghost function After(steps: seq<Step>): State
    requires Runs(steps)
    decreases |steps|, 1
  {
    if |steps| == 0 then START else Apply(After(steps[..|steps| - 1]), steps[|steps| - 1])
  }

  lemma Extend(steps: seq<Step>, step: Step)
    requires Runs(steps) && Enabled(After(steps), step)
    ensures Runs(steps + [step]) && After(steps + [step]) == Apply(After(steps), step)
  {
    assert (steps + [step])[..|steps|] == steps;
  }

  /** The angle a search sweeps: every command is in force for one interval, until the next turn or the
      end. */
  function Sweep(rotates: nat): real {
    rotates as real * (SEARCH_TARGET_ROTATE_SPEED * SEARCH_TARGET_TASK_INTERVAL / 1000.0)
  }

  /** At most one turn is pending or being made, it knows how many commands were sent, and there is room
      for it. */
  ghost predicate WithinBudget(s: State) {
    && s.rotates <= 40
    && !(s.turn.Some? && s.turning.Some?)
    && (s.turn.Some? ==> s.turn.value == s.rotates)
    && (s.turning.Some? ==> s.turning.value == s.rotates)
    && (s.phase != Launched ==> s.rotates == 0 && s.turn == None && s.turning == None)
  }

  lemma StepKeepsBudget(s: State, step: Step)
    requires Enabled(s, step) && WithinBudget(s)
    ensures WithinBudget(Apply(s, step))
  {
    FortyTurns(0);
    FortyTurns(s.rotates);
  }

  /** Over every run, even with stops at the worst moment, a search sends at most forty commands and sweeps
      at most one whole turn. */
  lemma {:induction false} AtMostOneTurnIsSwept(steps: seq<Step>)
    requires Runs(steps)
    ensures After(steps).rotates <= 40 && Sweep(After(steps).rotates) == After(steps).rotates as real * 0.157 <= 6.28
    ensures WithinBudget(After(steps))
  {
    if |steps| > 0 {
      var init := steps[..|steps| - 1];
      AtMostOneTurnIsSwept(init);
      StepKeepsBudget(After(init), steps[|steps| - 1]);
    }
  }

  // What the client is told ------------------------------------------------------------------------------

  /** How many objects the most recent frame showed. */
  function LastDetected(steps: seq<Step>): nat {
    if |steps| == 0 then 0
    else match steps[|steps| - 1] case Detected(n) => n case _ => LastDetected(steps[..|steps| - 1])
  }

  lemma {:induction false} NumberIsLastDetected(steps: seq<Step>)
    requires Runs(steps)
    ensures After(steps).trackingTargetNum == LastDetected(steps)
  {
    if |steps| > 0 {
      NumberIsLastDetected(steps[..|steps| - 1]);
    }
  }

  /** Whether a step ends with telling the client: a request with something in sight, and every way a search
      that is on is ended. */
  ghost predicate Tells(s: State, step: Step, inSight: nat) {
    match step
    case SearchTarget => inSight > 0
    case Launch => s.searchingTarget && inSight > 0
    case RunTurn => s.searchingTarget && (inSight > 0 || s.turn.None? || s.turn.value >= 40)
    case RunStop => s.searchingTarget
    case StopRequest => s.searchingTarget
    case PostNext => false
    case Detected(_) => false
  }

  /** In every run the client is told the number of the most recent frame, one notice at a time, and nothing
      else. A turn is made exactly if nothing is in sight and fewer than forty were made; it turns the search
      on, a notice of a stop or of a failed turn turns it off. */
  lemma StepTells(steps: seq<Step>, step: Step)
    requires Runs(steps) && Enabled(After(steps), step)
    ensures var s, s', inSight := After(steps), After(steps + [step]), LastDetected(steps);
            && Runs(steps + [step])
            && s'.notices == s.notices + (if Tells(s, step, inSight) then [inSight] else [])
            && (s'.rotates == s.rotates + 1 <==>
                  inSight == 0 && (step == Launch || (step == RunTurn && s.turn.value < 40)))
            && (s'.rotates == s.rotates || (s'.rotates == s.rotates + 1 && s'.searchingTarget))
            && (s.searchingTarget && !s'.searchingTarget <==> !step.SearchTarget? && Tells(s, step, inSight))
            && (s'.stops > s.stops <==> s.searchingTarget && step.Detected? && step.number > 0)
  {
    Extend(steps, step);
    NumberIsLastDetected(steps);
    FortyTurns(0);
    if step == RunTurn {
      FortyTurns(After(steps).turn.value);
    }
  }

  // One search, one notice -------------------------------------------------------------------------------

  /** No stop takes effect while a turn is being made. */
  ghost predicate Undisturbed(steps: seq<Step>)
    requires Runs(steps)
  {
    |steps| > 0 ==>
      var s, step := After(steps[..|steps| - 1]), steps[|steps| - 1];
      && Undisturbed(steps[..|steps| - 1])
      && (step.RunStop? || step.StopRequest? ==> s.turning == None)
  }

  /** Where a search stands. `Missed` is a target that appeared between the check and the first turn. */
  datatype Standing = NotStarted | AnsweredAtOnce | Searching | Ended | Missed

  function StandingOf(s: State): Standing {
    match s.phase
    case Idle => NotStarted
    case Checked => NotStarted
    case Answered => AnsweredAtOnce
    case Launched => if s.searchingTarget then Searching else if s.rotates > 0 then Ended else Missed
  }

  ghost predicate StandsRight(s: State) {
    match StandingOf(s)
    case NotStarted => !s.searchingTarget && s.turn == None && s.turning == None && s.stops == 0 && s.notices == []
    case AnsweredAtOnce => !s.searchingTarget && s.stops == 0 && |s.notices| == 1
    case Searching => (s.turn.Some? || s.turning.Some?) && s.rotates > 0 && s.notices == []
    case Ended => s.turn == None && s.turning == None && s.stops == 0 && |s.notices| == 1
    case Missed => s.turn == None && s.turning == None && s.stops == 0 && s.notices == []
  }

  lemma StepStandsRight(s: State, step: Step)
    requires Enabled(s, step) && WithinBudget(s) && StandsRight(s)
    requires step.RunStop? || step.StopRequest? ==> s.turning == None
    ensures StandsRight(Apply(s, step))
    ensures StandingOf(Apply(s, step)) == Missed <==>
              StandingOf(s) == Missed || (step == Launch && s.trackingTargetNum > 0)
  {
    FortyTurns(0);
    FortyTurns(s.rotates);
  }

  /** A search that is on has a turn pending or being made and has sent no notice; a search that has ended
      has sent exactly one and leaves no task behind. */
  lemma {:induction false} OneNotice(steps: seq<Step>)
    requires Runs(steps) && Undisturbed(steps)
    ensures StandsRight(After(steps))
    ensures StandingOf(After(steps)) == Missed <==> TargetSeenBeforeLaunch(steps)
  {
    if |steps| > 0 {
      var init := steps[..|steps| - 1];
      OneNotice(init);
      AtMostOneTurnIsSwept(init);
      StepStandsRight(After(init), steps[|steps| - 1]);
    }
  }

  ghost predicate Finished(s: State) {
    s.phase in {Answered, Launched} && !s.searchingTarget && s.turn == None && s.turning == None
  }

  /** A finished search has sent one notice, exactly unless a target appeared after the check and before the
      first turn; then it has sent no command and no notice, and the client waits for ever. */
  lemma NoticeExactlyUnlessMissed(steps: seq<Step>)
    requires Runs(steps) && Undisturbed(steps) && Finished(After(steps))
    ensures |After(steps).notices| == 1 <==> !TargetSeenBeforeLaunch(steps)
    ensures |After(steps).notices| == 0 <==> TargetSeenBeforeLaunch(steps)
  {
    OneNotice(steps);
    AtMostOneTurnIsSwept(steps);
  }

  /** Whether the first turn of the run found a target already there. */
  ghost predicate TargetSeenBeforeLaunch(steps: seq<Step>)
    requires Runs(steps)
  {
    if |steps| == 0 then false
    else
      var init := steps[..|steps| - 1];
      TargetSeenBeforeLaunch(init) || (steps[|steps| - 1] == Launch && After(init).trackingTargetNum > 0)
  }

  lemma UndisturbedExtends(steps: seq<Step>, step: Step)
    requires Runs(steps) && Undisturbed(steps) && Enabled(After(steps), step)
    requires step.RunStop? || step.StopRequest? ==> After(steps).turning == None
    ensures Runs(steps + [step]) && Undisturbed(steps + [step])
  {
    Extend(steps, step);
    assert (steps + [step])[..|steps|] == steps;
  }

  /** The missed target does happen. */
  lemma MissedExample() returns (steps: seq<Step>)
    ensures Runs(steps) && Undisturbed(steps) && Finished(After(steps)) && After(steps).notices == []
  {
    var a: seq<Step> := [];
    Extend(a, SearchTarget);
    var b := a + [SearchTarget];
    Extend(b, Detected(1));
    var c := b + [Detected(1)];
    Extend(c, Launch);
    steps := c + [Launch];
    UndisturbedExtends(a, SearchTarget);
    UndisturbedExtends(b, Detected(1));
    UndisturbedExtends(c, Launch);
  }

  /** A stop that takes effect while a turn is being made drops what is queued, but the turn still posts its
      successor. That takes the search up again exactly if no target is in sight then and turns are left. */
  lemma StopDuringATurnIsUndoneExactlyWhen(steps: seq<Step>)
    requires Runs(steps) && After(steps).turning.Some?
    ensures var more := steps + [StopRequest] + [PostNext] + [RunTurn];
            && Runs(more)
            && (After(more).searchingTarget <==> After(steps).trackingTargetNum == 0 && After(steps).rotates < 40)
            && After(more).rotates == After(steps).rotates + (if After(more).searchingTarget then 1 else 0)
  {
    AtMostOneTurnIsSwept(steps);
    FortyTurns(After(steps).rotates);
    Extend(steps, StopRequest);
    var a := steps + [StopRequest];
    Extend(a, PostNext);
    var b := a + [PostNext];
    Extend(b, RunTurn);
  }

  /** And the client of a search that is on is then told twice that it has ended. */
  lemma UndoneStopIsToldTwice(steps: seq<Step>)
    requires Runs(steps) && After(steps).searchingTarget && After(steps).turning.Some?
    requires After(steps).trackingTargetNum == 0 && After(steps).rotates < 40
    ensures var more := steps + [StopRequest] + [PostNext] + [RunTurn] + [PostNext] + [StopRequest];
            Runs(more) && |After(more).notices| == |After(steps).notices| + 2
  {
    AtMostOneTurnIsSwept(steps);
    FortyTurns(After(steps).rotates);
    Extend(steps, StopRequest);
    var a := steps + [StopRequest];
    Extend(a, PostNext);
    var b := a + [PostNext];
    Extend(b, RunTurn);
    var c := b + [RunTurn];
    Extend(c, PostNext);
    var d := c + [PostNext];
    Extend(d, StopRequest);
  }

  // The controller ---------------------------------------------------------------------------------------

  class McCameraTrackingController {
    var trackingTargetNum: nat
    var searchingTarget: bool
    var turn: Option<nat>
    var stops: nat
    var rotates: nat
    var notices: seq<nat>

    ghost function View(phase: Phase): State
      reads this
    {
      State(trackingTargetNum, phase, searchingTarget, None, turn, stops, rotates, notices)
    }

    constructor ()
      ensures View(Idle) == START
    {
      trackingTargetNum, searchingTarget, turn, stops, rotates, notices := 0, false, None, 0, 0, [];
    }

    method RemoveTask()
      modifies this`turn, this`stops
      ensures turn == None && stops == 0
    {
      turn, stops := None, 0;
    }

    method SearchTargetStop()
      modifies this
      ensures View(Launched) == Stop(old(View(Launched)))
      ensures !searchingTarget && trackingTargetNum == old(trackingTargetNum) && rotates == old(rotates)
      ensures old(searchingTarget) ==>
                notices == old(notices) + [old(trackingTargetNum)] && turn == None && stops == 0
      ensures !old(searchingTarget) ==>
                notices == old(notices) && turn == old(turn) && stops == old(stops)
    {
      if !searchingTarget {
        return;
      }
      searchingTarget := false;
      RemoveTask();
      notices := notices + [trackingTargetNum];
    }

    /** One turn without anything in between. */
    method ExecSearchTask(searchTimes: nat)
      modifies this
      ensures var turned := Turn(old(View(Launched)), searchTimes);
              View(Launched) == if turned.turning.Some? then Apply(turned, PostNext) else turned
      ensures trackingTargetNum == old(trackingTargetNum) && stops == 0
      ensures searchingTarget <==> trackingTargetNum == 0 && searchTimes < 40
      ensures searchingTarget ==>
                turn == Some(searchTimes + 1) && rotates == old(rotates) + 1 && notices == old(notices)
      ensures !searchingTarget ==>
                && turn == None && rotates == old(rotates)
                && notices == old(notices) + if old(searchingTarget) then [trackingTargetNum] else []
    {
      FortyTurns(searchTimes);
      RemoveTask();
      if trackingTargetNum == 0 && TurnsLeft(searchTimes) {
        searchingTarget := true;
        rotates := rotates + 1;
        turn := Some(searchTimes + 1);
        return;
      }
      SearchTargetStop();
    }

    /** A request, up to the check, and the first turn if nothing is in sight. */
    method SearchTarget()
      modifies this
      ensures var checked := Apply(old(View(Idle)), Step.SearchTarget);
              if checked.phase == Answered then View(Answered) == checked
              else
                var turned := Apply(checked, Launch);
                View(Launched) == if turned.turning.Some? then Apply(turned, PostNext) else turned
      ensures trackingTargetNum == old(trackingTargetNum)
      ensures trackingTargetNum > 0 ==>
                && notices == old(notices) + [trackingTargetNum] && searchingTarget == old(searchingTarget)
                && turn == old(turn) && stops == old(stops) && rotates == old(rotates)
      ensures trackingTargetNum == 0 ==>
                && searchingTarget && turn == Some(1) && stops == 0
                && rotates == old(rotates) + 1 && notices == old(notices)
    {
      if trackingTargetNum > 0 {
        notices := notices + [trackingTargetNum];
        return;
      }
      ExecSearchTask(0);
    }

    /** The part of a frame that concerns the search. */
    method UpdateTrackingTargetNum(detected: nat)
      modifies this
      ensures View(Launched) == Apply(old(View(Launched)), Detected(detected))
      ensures trackingTargetNum == detected
      ensures stops == old(stops) + if old(searchingTarget) && detected > 0 then 1 else 0
      ensures searchingTarget == old(searchingTarget) && turn == old(turn)
      ensures rotates == old(rotates) && notices == old(notices)
    {
      trackingTargetNum := detected;
      if searchingTarget && trackingTargetNum > 0 {
        stops := stops + 1;
      }
    }
  }
}
