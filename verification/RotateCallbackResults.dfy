/** When the 8-bit ids suffice: every motion command gets one result, and its own.

    The assumption is about rates. Everything a command leaves behind (its call, its timeout, the response
    the transport may still deliver) is gone within a window of its start, and no id comes round again
    within such a window, that is, at most 256 ids are taken in any of them. Whether the device answers at
    all is left open. */
module RotateCallbackResults {
  import opened OnceTable
  import opened Options
  import opened RotateCallbacks

  ghost predicate WithinWindow(s: State, window: nat) {
    && (forall id <- s.calls :: id in s.born ==> s.now <= s.born[id] + window)
    && (forall t <- s.timers :: t.id in s.born ==> s.now <= s.born[t.id] + window)
    && (forall id <- s.awaited :: id in s.born ==> s.now <= s.born[id] + window)
  }

  /** The id about to be taken was last taken more than a window ago, if ever. */
  ghost predicate Spaced(s: State, window: nat) {
    var previous := s.issued + 1 - TASK_ID_COUNT;
    previous > 0 && previous in s.born ==> s.now > s.born[previous] + window
  }

  /** A run at a sustainable rate over a supply of requests. */
  ghost predicate RatedRun(steps: seq<Step>, supply: set<Request>, window: nat)
    decreases |steps|
  {
    && Runs(steps)
    && WithinWindow(After(steps), window)
    && (|steps| > 0 ==>
          var before, step := steps[..|steps| - 1], steps[|steps| - 1];
          && RatedRun(before, supply, window)
          && (step.TakeId? ==> step.request in supply && Spaced(After(before), window)))
  }

  lemma {:induction false} RatedRunAsksFrom(steps: seq<Step>, supply: set<Request>, window: nat)
    requires RatedRun(steps, supply, window)
    ensures AsksFrom(steps, supply)
  {
    if |steps| > 0 {
      RatedRunAsksFrom(steps[..|steps| - 1], supply, window);
    }
  }

  lemma ExtendRated(steps: seq<Step>, step: Step, supply: set<Request>, window: nat)
    requires RatedRun(steps, supply, window) && Enabled(After(steps), step)
    requires WithinWindow(Apply(After(steps), step), window)
    requires step.TakeId? ==> step.request in supply && Spaced(After(steps), window)
    ensures RatedRun(steps + [step], supply, window) && After(steps + [step]) == Apply(After(steps), step)
  {
    assert (steps + [step])[..|steps + [step]| - 1] == steps;
  }

  // What produces the result -----------------------------------------------------------------------------

  /** The step is the response or the timeout of this command. */
  predicate Settles(step: Step, id: nat) {
    (step.DeviceAnswers? && step.id == id) || (step.TimeoutFires? && step.timer.id == id)
  }

  /** What such a step reports. */
  function Reports(step: Step, id: nat): ExecResult
    requires Settles(step, id)
  {
    if step.DeviceAnswers? then MapDeviceErrorCodeToExecResult(step.deviceErrorCode) else TIMEOUT
  }

  /** The report of the first response or timeout of a command, if there was one. */
  function FirstReport(steps: seq<Step>, id: nat): Option<ExecResult> {
    if |steps| == 0 then None
    else
      var earlier := FirstReport(steps[..|steps| - 1], id);
      var last := steps[|steps| - 1];
      if earlier == None && Settles(last, id) then Some(Reports(last, id)) else earlier
  }

  /** The report comes from step `j`, the first to settle this command. */
  ghost predicate FirstSettlesAt(steps: seq<Step>, id: nat, j: int) {
    0 <= j < |steps| && Settles(steps[j], id) && forall k | 0 <= k < j :: !Settles(steps[k], id)
  }

  lemma {:induction false} FirstReportIsFirst(steps: seq<Step>, id: nat) returns (j: int)
    ensures FirstReport(steps, id) == None ==> forall k | 0 <= k < |steps| :: !Settles(steps[k], id)
    ensures FirstReport(steps, id).Some? ==>
              FirstSettlesAt(steps, id, j) && FirstReport(steps, id).value == Reports(steps[j], id)
  {
    j := 0;
    if |steps| > 0 {
      var init := steps[..|steps| - 1];
      j := FirstReportIsFirst(init, id);
      assert forall k | 0 <= k < |init| :: init[k] == steps[k];
      if FirstReport(init, id) == None {
        j := |steps| - 1;
      }
    }
  }

  /** Nothing refers to an id taken 256 or more ids ago. */
  ghost predicate Recent(s: State) {
    && (forall k <- s.seqCallbacks :: s.issued < s.seqCallbacks[k].id + TASK_ID_COUNT)
    && (forall id <- s.calls :: s.issued < id + TASK_ID_COUNT)
    && (forall t <- s.timers :: s.issued < t.id + TASK_ID_COUNT)
    && (forall id <- s.awaited :: s.issued < id + TASK_ID_COUNT)
  }

  /** Every command is on its way to being parked or has been, under what its caller asked for; what is
      outstanding for a command comes after that. */
  ghost predicate Accounted(s: State) {
    && (forall id <- s.asked ::
          InPhase(s, id, Numbered) || (id in s.parked && s.parked[id] == s.asked[id].callback))
    && (forall id <- s.awaited :: id in s.parked)
    && (forall t <- s.timers :: t.id in s.parked)
    && (forall id <- s.calls :: s.calls[id].phase != Numbered ==> id in s.parked)
  }

  /** Results so far are own results, the first report of each command. */
  ghost predicate ReportsMatch(steps: seq<Step>, notices: seq<Notice>) {
    && (forall id: nat :: IsSettled(notices, id) <==> FirstReport(steps, id).Some?)
    && (forall i | 0 <= i < |notices| ::
          notices[i].source == notices[i].id && FirstReport(steps, notices[i].id) == Some(notices[i].result))
  }

  lemma SameResidue(a: nat, b: nat)
    requires TaskIdOf(a) == TaskIdOf(b) && a <= b < a + TASK_ID_COUNT
    ensures a == b
  {
  }

  /** Two ids in use with the same 8 bits are the same id. */
  lemma SameOwner(s: State, a: nat, b: nat)
    requires TaskIdOf(a) == TaskIdOf(b) && a <= s.issued < a + TASK_ID_COUNT && b <= s.issued < b + TASK_ID_COUNT
    ensures a == b
  {
    if a <= b {
      SameResidue(a, b);
    } else {
      SameResidue(b, a);
    }
  }

  lemma StillInWindow(s: State, id: nat, window: nat)
    requires BornInOrder(s) && Spaced(s, window) && id in s.born && s.now <= s.born[id] + window
    ensures s.issued + 1 < id + TASK_ID_COUNT
  {
  }

  lemma TakeIdKeepsRecent(s: State, request: Request, window: nat)
    requires NumbersAgree(s) && BornInOrder(s) && NoOrphan(s) && Recent(s)
    requires WithinWindow(s, window) && Spaced(s, window)
    ensures Recent(Apply(s, TakeId(request)))
  {
    forall id | id in s.born && s.now <= s.born[id] + window
      ensures s.issued + 1 < id + TASK_ID_COUNT
    {
      StillInWindow(s, id, window);
    }
    forall k <- s.seqCallbacks
      ensures s.issued + 1 < s.seqCallbacks[k].id + TASK_ID_COUNT
    {
      assert Covered(s, s.seqCallbacks[k].id);
    }
  }

  /** A call about to park its callback finds its id free. */
  lemma ParkIsFree(s: State, id: nat)
    requires NumbersAgree(s) && ExactlyOnce(s.parked, s.seqCallbacks, s.notices)
    requires Recent(s) && InPhase(s, id, Numbered)
    ensures TaskIdOf(id) !in s.seqCallbacks
  {
    if TaskIdOf(id) in s.seqCallbacks {
      SameOwner(s, id, s.seqCallbacks[TaskIdOf(id)].id);
    }
  }

  lemma ParkKeepsAccounts(s: State, id: nat)
    requires NumbersAgree(s) && AskedFor(s) && ExactlyOnce(s.parked, s.seqCallbacks, s.notices)
    requires Recent(s) && Accounted(s) && InPhase(s, id, Numbered)
    ensures Accounted(Apply(s, Park(id)))
  {
    ParkIsFree(s, id);
    var s' := Apply(s, Park(id));
    forall other <- s'.asked
      ensures InPhase(s', other, Numbered)
              || (other in s'.parked && s'.parked[other] == s'.asked[other].callback)
    {
      assert other in s.asked && (InPhase(s, other, Numbered) || other in s.parked);
    }
  }

  lemma SettleKeepsAccounts(s: State, taskId: TaskId, result: ExecResult, source: nat)
    requires Accounted(s)
    ensures Accounted(Settle(s, taskId, result, source))
  {
    assert forall id :: InPhase(Settle(s, taskId, result, source), id, Numbered) == InPhase(s, id, Numbered);
  }

  lemma CallKeepsAccounts(s: State, step: Step)
    requires NumbersAgree(s) && AskedFor(s) && Accounted(s) && Enabled(s, step)
    requires step.Tick? || step.Send? || step.PostTimeout? || step.TakeId? || step.TransportGivesUp?
    ensures Accounted(Apply(s, step))
  {
    var s' := Apply(s, step);
    forall id <- s'.asked
      ensures InPhase(s', id, Numbered) || (id in s'.parked && s'.parked[id] == s'.asked[id].callback)
    {
      if id in s.asked {
        assert InPhase(s, id, Numbered) || (id in s.parked && s.parked[id] == s.asked[id].callback);
      }
    }
  }

  lemma StepKeepsAccounts(s: State, step: Step)
    requires Inv(s) && Recent(s) && Accounted(s) && Enabled(s, step)
    ensures Accounted(Apply(s, step))
  {
    if step.Park? {
      ParkKeepsAccounts(s, step.id);
    } else if step.DeviceAnswers? {
      SettleKeepsAccounts(s.(awaited := s.awaited - {step.id}), TaskIdOf(step.id),
                          MapDeviceErrorCodeToExecResult(step.deviceErrorCode), step.id);
    } else if step.TimeoutFires? {
      SettleKeepsAccounts(s.(timers := s.timers - {step.timer}), step.timer.taskId, TIMEOUT, step.timer.id);
    } else {
      CallKeepsAccounts(s, step);
    }
  }

  /** Whatever is parked under a recent command's id is that command, and if nothing is, the command has had
      its result. */
  lemma FindsItsOwn(s: State, source: nat)
    requires NumbersAgree(s) && Recent(s) && ExactlyOnce(s.parked, s.seqCallbacks, s.notices)
    requires source <= s.issued < source + TASK_ID_COUNT && source in s.parked
    ensures TaskIdOf(source) in s.seqCallbacks <==> !IsSettled(s.notices, source)
    ensures TaskIdOf(source) in s.seqCallbacks ==> s.seqCallbacks[TaskIdOf(source)].id == source
  {
    if TaskIdOf(source) in s.seqCallbacks {
      SameOwner(s, source, s.seqCallbacks[TaskIdOf(source)].id);
    }
  }

  lemma SettleMatches(steps: seq<Step>, step: Step, s: State, source: nat)
    requires NumbersAgree(s) && Recent(s) && ExactlyOnce(s.parked, s.seqCallbacks, s.notices)
    requires source <= s.issued < source + TASK_ID_COUNT && source in s.parked
    requires ReportsMatch(steps, s.notices) && Settles(step, source)
    ensures ReportsMatch(steps + [step], Settle(s, TaskIdOf(source), Reports(step, source), source).notices)
  {
    FindsItsOwn(s, source);
    var notices' := Settle(s, TaskIdOf(source), Reports(step, source), source).notices;
    assert (steps + [step])[..|steps|] == steps;
    forall id: nat
      ensures FirstReport(steps + [step], id) ==
              if id == source && !IsSettled(s.notices, source) then Some(Reports(step, source))
              else FirstReport(steps, id)
    {
    }
    if TaskIdOf(source) in s.seqCallbacks {
      assert notices'[|s.notices|].id == source;
      forall id: nat
        ensures IsSettled(notices', id) <==> id == source || IsSettled(s.notices, id)
      {
        if IsSettled(s.notices, id) {
          var i :| 0 <= i < |s.notices| && s.notices[i].id == id;
          assert notices'[i].id == id;
        }
      }
    }
  }

  lemma OtherStepReportsNothing(steps: seq<Step>, step: Step, s: State)
    requires ReportsMatch(steps, s.notices) && Enabled(s, step) && !step.DeviceAnswers? && !step.TimeoutFires?
    ensures ReportsMatch(steps + [step], Apply(s, step).notices)
  {
    assert Apply(s, step).notices == s.notices;
    assert (steps + [step])[..|steps|] == steps;
    assert forall id: nat :: FirstReport(steps + [step], id) == FirstReport(steps, id);
  }

  lemma StepKeepsReports(steps: seq<Step>, step: Step, s: State)
    requires NumbersAgree(s) && ExactlyOnce(s.parked, s.seqCallbacks, s.notices)
    requires Recent(s) && Accounted(s) && ReportsMatch(steps, s.notices) && Enabled(s, step)
    ensures ReportsMatch(steps + [step], Apply(s, step).notices)
  {
    if step.DeviceAnswers? {
      SettleMatches(steps, step, s.(awaited := s.awaited - {step.id}), step.id);
    } else if step.TimeoutFires? {
      SettleMatches(steps, step, s.(timers := s.timers - {step.timer}), step.timer.id);
    } else {
      OtherStepReportsNothing(steps, step, s);
    }
  }

  lemma SettleKeepsRecent(s: State, taskId: TaskId, result: ExecResult, source: nat)
    requires Recent(s)
    ensures Recent(Settle(s, taskId, result, source))
  {
  }

  /** No other step brings an id into use that was not in use before. */
  lemma OtherStepKeepsRecent(s: State, step: Step)
    requires NumbersAgree(s) && Recent(s) && Enabled(s, step) && !step.TakeId?
    ensures Recent(Apply(s, step))
  {
    if step.DeviceAnswers? {
      SettleKeepsRecent(s.(awaited := s.awaited - {step.id}), TaskIdOf(step.id),
                        MapDeviceErrorCodeToExecResult(step.deviceErrorCode), step.id);
    } else if step.TimeoutFires? {
      SettleKeepsRecent(s.(timers := s.timers - {step.timer}), step.timer.taskId, TIMEOUT, step.timer.id);
    }
  }

  lemma RatedRunIsCovered(steps: seq<Step>, supply: set<Request>, window: nat)
    requires AllTimed(supply) && RatedRun(steps, supply, window)
    ensures Inv(After(steps)) && NoOrphan(After(steps))
  {
    EveryRunIsGood(steps);
    RatedRunAsksFrom(steps, supply, window);
    AskedComesFrom(steps, supply);
  }

  ghost predicate Rated(steps: seq<Step>, s: State) {
    Recent(s) && Accounted(s) && ReportsMatch(steps, s.notices)
  }

  lemma StepKeepsRated(steps: seq<Step>, step: Step, s: State, window: nat)
    requires Inv(s) && NoOrphan(s) && Rated(steps, s) && WithinWindow(s, window) && Enabled(s, step)
    requires step.TakeId? ==> Spaced(s, window)
    ensures Rated(steps + [step], Apply(s, step))
  {
    if step.TakeId? {
      TakeIdKeepsRecent(s, step.request, window);
    } else {
      OtherStepKeepsRecent(s, step);
    }
    StepKeepsAccounts(s, step);
    StepKeepsReports(steps, step, s);
  }

  lemma StartIsRated()
    ensures Rated([], START)
  {
  }

  lemma RunKeepsRated(before: seq<Step>, step: Step, supply: set<Request>, window: nat)
    requires AllTimed(supply) && RatedRun(before, supply, window) && Rated(before, After(before))
    requires Enabled(After(before), step) && (step.TakeId? ==> Spaced(After(before), window))
    ensures Rated(before + [step], Apply(After(before), step))
  {
    RatedRunIsCovered(before, supply, window);
    StepKeepsRated(before, step, After(before), window);
  }

  lemma {:induction false} EveryRatedRun(steps: seq<Step>, supply: set<Request>, window: nat)
    requires AllTimed(supply) && RatedRun(steps, supply, window)
    ensures Rated(steps, After(steps))
  {
    if |steps| == 0 {
      StartIsRated();
      assert steps == [];
    } else {
      var before, step := steps[..|steps| - 1], steps[|steps| - 1];
      EveryRatedRun(before, supply, window);
      RunKeepsRated(before, step, supply, window);
      assert before + [step] == steps;
    }
  }

  lemma SettledAfterWindow(s: State, window: nat, id: nat)
    requires Inv(s) && NoOrphan(s) && Accounted(s) && WithinWindow(s, window)
    requires id in s.born && s.now > s.born[id] + window
    ensures IsSettled(s.notices, id)
  {
    assert id in s.asked && id !in s.calls && id in s.parked;
    forall k <- s.seqCallbacks
      ensures s.seqCallbacks[k].id != id
    {
      assert Covered(s, s.seqCallbacks[k].id);
    }
  }

  /** What a result says about the step that settled its command. */
  ghost predicate TellsOf(result: ExecResult, step: Step) {
    || (step.DeviceAnswers? && Means(result, step.deviceErrorCode))
    || (step.TimeoutFires? && result == TIMEOUT)
  }

  /** The first report tells of the first step to settle the command, and COMPLETED tells of a device that
      answered 0. */
  lemma FirstReportTells(steps: seq<Step>, id: nat)
    requires FirstReport(steps, id).Some?
    ensures exists j :: FirstSettlesAt(steps, id, j) && TellsOf(FirstReport(steps, id).value, steps[j])
    ensures FirstReport(steps, id).value == COMPLETED <==>
              exists j :: FirstSettlesAt(steps, id, j) && steps[j] == DeviceAnswers(id, 0)
  {
    var j := FirstReportIsFirst(steps, id);
    assert TellsOf(FirstReport(steps, id).value, steps[j]);
    forall k | FirstSettlesAt(steps, id, k)
      ensures k == j
    {
      assert !(k < j) && !(j < k);
    }
  }

  /** The guarantee of this layer, for requests that pass the guard. A command has one result once its
      response or its timeout has come, and both come too late for a second one; that is so at the latest
      when its window has passed, whether or not the device answers. The result names its own caller and
      promise and is the report of whichever came first: the device's own code, mapped, or TIMEOUT. */
  lemma OneOwnResult(steps: seq<Step>, supply: set<Request>, window: nat, id: nat)
    requires AllTimed(supply) && RatedRun(steps, supply, window) && id in After(steps).born
    ensures |ResultsOf(After(steps).notices, id)| == if FirstReport(steps, id).Some? then 1 else 0
    ensures After(steps).now > After(steps).born[id] + window ==> FirstReport(steps, id).Some?
    ensures forall i <- ResultsOf(After(steps).notices, id) ::
              var notice := After(steps).notices[i];
              && id in After(steps).asked && notice.value == After(steps).asked[id].callback
              && notice.source == id && Some(notice.result) == FirstReport(steps, id)
              && (exists j :: FirstSettlesAt(steps, id, j) && TellsOf(notice.result, steps[j]))
              && (notice.result == COMPLETED <==>
                    exists j :: FirstSettlesAt(steps, id, j) && steps[j] == DeviceAnswers(id, 0))
  {
    if FirstReport(steps, id).Some? {
      FirstReportTells(steps, id);
    }
    RatedRunIsCovered(steps, supply, window);
    EveryRatedRun(steps, supply, window);
    var s := After(steps);
    ResultIsUnique(s.parked, s.seqCallbacks, s.notices, id);
    if s.now > s.born[id] + window {
      SettledAfterWindow(s, window, id);
    }
  }

  // What the guard is for --------------------------------------------------------------------------------

  /** Every command whose window has passed has had a result. */
  ghost predicate EveryoneSettled(s: State, window: nat) {
    forall id <- s.born :: s.now > s.born[id] + window ==> IsSettled(s.notices, id)
  }

  /** The first command's id is taken, its callback parked, the command sent, all at time 0. */
  function TakenFirst(request: Request): State {
    START.(lastTaskId := 1, calls := map[1 := Call(request, Numbered)], issued := 1, born := map[1 := 0],
           asked := map[1 := request])
  }

  function ParkedFirst(request: Request): State {
    TakenFirst(request).(calls := map[1 := Call(request, Parked)],
                         seqCallbacks := map[1 := Ticket(request.callback, 1)], parked := map[1 := request.callback])
  }

  function SentFirst(request: Request): State {
    ParkedFirst(request).(calls := map[1 := Call(request, Sent)], awaited := {1})
  }

  lemma NothingRuns(supply: set<Request>, window: nat)
    ensures RatedRun([], supply, window) && After([]) == START && Spaced(START, window)
  {
  }

  lemma TakingTheFirst(request: Request, window: nat)
    ensures Apply(START, TakeId(request)) == TakenFirst(request) && WithinWindow(TakenFirst(request), window)
  {
  }

  lemma FirstIsTaken(request: Request, supply: set<Request>, window: nat) returns (steps: seq<Step>)
    requires request in supply
    ensures RatedRun(steps, supply, window) && After(steps) == TakenFirst(request)
  {
    NothingRuns(supply, window);
    TakingTheFirst(request, window);
    ExtendRated([], TakeId(request), supply, window);
    steps := [] + [TakeId(request)];
  }

  lemma FirstIsParked(request: Request, supply: set<Request>, window: nat) returns (steps: seq<Step>)
    requires request in supply
    ensures RatedRun(steps, supply, window) && After(steps) == ParkedFirst(request)
  {
    steps := FirstIsTaken(request, supply, window);
    ExtendRated(steps, Park(1), supply, window);
    steps := steps + [Park(1)];
  }

  lemma FirstIsSent(request: Request, supply: set<Request>, window: nat) returns (steps: seq<Step>)
    requires request in supply
    ensures RatedRun(steps, supply, window) && After(steps) == SentFirst(request)
  {
    steps := FirstIsParked(request, supply, window);
    ExtendRated(steps, Send(1), supply, window);
    steps := steps + [Send(1)];
  }

  /** What is left of it when the transport has given it up and the call has ended. */
  function GivenUp(request: Request): State {
    SentFirst(request).(calls := map[], awaited := {},
                        timers := if request.Timed() then {Timer(1, 1, request.Delay())} else {})
  }

  lemma FirstIsGivenUp(request: Request, supply: set<Request>, window: nat) returns (steps: seq<Step>)
    requires request in supply
    ensures RatedRun(steps, supply, window) && After(steps) == SentFirst(request).(awaited := {})
  {
    steps := FirstIsSent(request, supply, window);
    ExtendRated(steps, TransportGivesUp(1), supply, window);
    steps := steps + [TransportGivesUp(1)];
  }

  lemma SilentDevice(request: Request, supply: set<Request>, window: nat) returns (steps: seq<Step>)
    requires request in supply
    ensures RatedRun(steps, supply, window) && After(steps) == GivenUp(request)
  {
    steps := FirstIsGivenUp(request, supply, window);
    ExtendRated(steps, PostTimeout(1), supply, window);
    steps := steps + [PostTimeout(1)];
    assert After(steps).calls == map[];
  }

  /** The state in which its timeout has been reported. */
  function TimedOut(request: Request): State
    requires request.Timed()
  {
    GivenUp(request).(now := request.Delay(), timers := {}, seqCallbacks := map[],
                      notices := [Settled(1, request.callback, TIMEOUT, 1)])
  }

  lemma TimeoutIsReported(request: Request)
    requires request.Timed()
    ensures var s, fires := GivenUp(request).(now := request.Delay()), TimeoutFires(Timer(1, 1, request.Delay()));
            Enabled(s, fires) && Apply(s, fires) == TimedOut(request)
  {
    assert map[1 := Ticket(request.callback, 1)] - {1} == map[];
  }

  /** With a silent device, a request that passes the guard has TIMEOUT for its result. */
  lemma SilenceEndsInTimeout(request: Request, window: nat) returns (steps: seq<Step>)
    requires request.Timed() && request.Delay() <= window
    ensures RatedRun(steps, {request}, window) && After(steps).born == map[1 := 0] && After(steps).now > window
    ensures After(steps).notices == [Settled(1, request.callback, TIMEOUT, 1)]
  {
    var fires := TimeoutFires(Timer(1, 1, request.Delay()));
    TimeoutIsReported(request);
    steps := SilentDevice(request, {request}, window);
    ExtendRated(steps, Tick(request.Delay()), {request}, window);
    steps := steps + [Tick(request.Delay())];
    ExtendRated(steps, fires, {request}, window);
    steps := steps + [fires];
    ExtendRated(steps, Tick(window + 1), {request}, window);
    steps := steps + [Tick(window + 1)];
  }

  lemma UntimedIsAbandoned(request: Request, supply: set<Request>, window: nat) returns (steps: seq<Step>)
    requires request in supply && !request.Timed()
    ensures RatedRun(steps, supply, window) && After(steps) == GivenUp(request).(now := window + 1)
  {
    steps := SilentDevice(request, supply, window);
    ExtendRated(steps, Tick(window + 1), supply, window);
    steps := steps + [Tick(window + 1)];
  }

  /** No callback is ever left without cover, if and only if every request there is passes the guard. */
  lemma CoveredExactlyWhen(supply: set<Request>)
    ensures (forall steps | Runs(steps) && AsksFrom(steps, supply) :: NoOrphan(After(steps))) <==> AllTimed(supply)
  {
    if AllTimed(supply) {
      forall steps | Runs(steps) && AsksFrom(steps, supply)
        ensures NoOrphan(After(steps))
      {
        EveryRunIsGood(steps);
        AskedComesFrom(steps, supply);
      }
    } else {
      var request :| request in supply && !request.Timed();
      var steps := SilentDevice(request, supply, 0);
      RatedRunAsksFrom(steps, supply, 0);
      assert After(steps).seqCallbacks[1].id == 1 && !Covered(After(steps), 1);
    }
  }

  /** At a sustainable rate, every command is settled by the end of its window in every run over a supply of
      requests, if and only if every request of the supply passes the guard. */
  lemma SettledExactlyWhen(supply: set<Request>, window: nat)
    ensures (forall steps | RatedRun(steps, supply, window) :: EveryoneSettled(After(steps), window))
            <==> AllTimed(supply)
  {
    if AllTimed(supply) {
      forall steps | RatedRun(steps, supply, window)
        ensures EveryoneSettled(After(steps), window)
      {
        RatedRunIsCovered(steps, supply, window);
        EveryRatedRun(steps, supply, window);
        forall id <- After(steps).born | After(steps).now > After(steps).born[id] + window
          ensures IsSettled(After(steps).notices, id)
        {
          SettledAfterWindow(After(steps), window, id);
        }
      }
    } else {
      var request :| request in supply && !request.Timed();
      var steps := UntimedIsAbandoned(request, supply, window);
      assert 1 in After(steps).born && !IsSettled(After(steps).notices, 1);
      assert !EveryoneSettled(After(steps), window);
    }
  }

  /** The callback of the first command is still there, `n` more ids were taken since. */
  ghost predicate StillAbandoned(s: State, callback: Callback, window: nat, n: nat) {
    && s.seqCallbacks == map[1 := Ticket(callback, 1)] && s.notices == []
    && s.timers == {} && s.awaited == {} && s.now == window + 1
    && s.issued == 1 + n && s.lastTaskId == (1 + n) % TASK_ID_COUNT
    && (forall id: nat :: id in s.born <==> 0 < id <= 1 + n) && s.born[1] == 0
    && (forall id <- s.born | id != 1 :: s.born[id] == window + 1)
    && (forall id: nat :: id in s.calls <==> 1 < id <= 1 + n)
    && (forall id <- s.calls :: s.calls[id].phase == Numbered)
  }

  lemma TakingAnotherId(s: State, callback: Callback, other: Request, window: nat, n: nat)
    requires StillAbandoned(s, callback, window, n) && n < TASK_ID_COUNT
    ensures Spaced(s, window) && WithinWindow(Apply(s, TakeId(other)), window)
    ensures StillAbandoned(Apply(s, TakeId(other)), callback, window, n + 1)
  {
  }

  lemma {:induction false} MoreIdsTaken(request: Request, other: Request, supply: set<Request>, window: nat, n: nat)
    returns (steps: seq<Step>)
    requires request in supply && !request.Timed() && other in supply && n <= TASK_ID_COUNT
    ensures RatedRun(steps, supply, window) && StillAbandoned(After(steps), request.callback, window, n)
  {
    if n == 0 {
      steps := UntimedIsAbandoned(request, supply, window);
    } else {
      steps := MoreIdsTaken(request, other, supply, window, n - 1);
      TakingAnotherId(After(steps), request.callback, other, window, n - 1);
      ExtendRated(steps, TakeId(other), supply, window);
      steps := steps + [TakeId(other)];
    }
  }

  /** The next command with the same id is sent, and the old callback is still the one parked. */
  lemma SameIdIsSent(s: State, callback: Callback, window: nat)
    requires StillAbandoned(s, callback, window, TASK_ID_COUNT)
    ensures var id := 1 + TASK_ID_COUNT;
            && Enabled(s, Park(id)) && WithinWindow(Apply(s, Park(id)), window)
            && var parked := Apply(s, Park(id));
               && Enabled(parked, Send(id)) && WithinWindow(Apply(parked, Send(id)), window)
               && var sent := Apply(parked, Send(id));
                  sent.awaited == {id} && sent.seqCallbacks == s.seqCallbacks && sent.notices == []
  {
  }

  /** Nor does such a callback simply wait for ever: the next command that gets its id, 256 commands later,
      cannot park its own and reports its own result to it. */
  lemma AbandonedGetsAnothersResult(request: Request, other: Request, window: nat, code: nat)
    returns (steps: seq<Step>)
    requires !request.Timed()
    ensures RatedRun(steps, {request, other}, window)
    ensures After(steps).notices ==
            [Settled(1, request.callback, MapDeviceErrorCodeToExecResult(code), 1 + TASK_ID_COUNT)]
  {
    var supply := {request, other};
    var id := 1 + TASK_ID_COUNT;
    steps := MoreIdsTaken(request, other, supply, window, TASK_ID_COUNT);
    SameIdIsSent(After(steps), request.callback, window);
    ExtendRated(steps, Park(id), supply, window);
    steps := steps + [Park(id)];
    ExtendRated(steps, Send(id), supply, window);
    steps := steps + [Send(id)];
    ExtendRated(steps, DeviceAnswers(id, code), supply, window);
    steps := steps + [DeviceAnswers(id, code)];
  }
}
