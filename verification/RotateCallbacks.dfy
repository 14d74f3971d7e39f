/** The second request layer: motion commands of protocol 2 wait for their result under a wrapping
    8-bit id, and a device response races a timeout for each of them.

    Several IPC threads issue commands at once, so a call is a process of its own: it takes an id, parks
    its callback, builds and sends the command, and posts a timeout, with anything else in between. Unlike
    the transport below it, a response does not remove the timeout. The transport either delivers one
    response or gives the command up without telling this layer: it was dropped, or its own timeout ran,
    which never runs a response callback. Fields under "history" and the `id` tags never influence a
    step. */
module RotateCallbacks {
  import opened OnceTable
  import opened Options

  const TASK_ID_COUNT := 0x100
  const RESPONSE_TIMEOUT := 300000

  type TaskId = n: nat | n < 0x100

  datatype ExecResult =
    COMPLETED | INTERRUPTED | LIMITED | TIMEOUT | TERMINATE_OBSTACLE | TERMINATE_CLIFF | SYSTEM_ERROR

  function MapDeviceErrorCodeToExecResult(deviceErrorCode: nat): ExecResult {
    match deviceErrorCode
    case 0 => COMPLETED
    case 3 => LIMITED
    case 4 => TIMEOUT
    case 5 => INTERRUPTED
    case 6 => TERMINATE_CLIFF
    case 7 => TERMINATE_OBSTACLE
    case _ => SYSTEM_ERROR
  }

  /** What the results say about the device's codes. */
  ghost predicate Means(result: ExecResult, deviceErrorCode: nat) {
    && (result == COMPLETED <==> deviceErrorCode == 0)
    && (result == LIMITED <==> deviceErrorCode == 3)
    && (result == TIMEOUT <==> deviceErrorCode == 4)
    && (result == INTERRUPTED <==> deviceErrorCode == 5)
    && (result == TERMINATE_CLIFF <==> deviceErrorCode == 6)
    && (result == TERMINATE_OBSTACLE <==> deviceErrorCode == 7)
    && (result == SYSTEM_ERROR <==> deviceErrorCode !in {0, 3, 4, 5, 6, 7})
  }

  /** Who asked, and which client promise waits. */
  datatype Callback = Callback(tokenId: nat, napiCmdId: string)

  /** One motion command as the caller issues it. Only a request by speed brings a duration the service does
      not check for its sign. */
  datatype Request = Request(callback: Callback, duration: real) {
    /** The guard of the timeout. */
    predicate Timed() {
      duration + RESPONSE_TIMEOUT as real > 0.0
    }

    function Delay(): nat
      requires Timed()
    {
      (duration + RESPONSE_TIMEOUT as real).Floor
    }
  }

  /** A parked callback; its command was the `id`-th. */
  type Entry = Ticket<Callback>

  /** One result reported; its source is the command whose response or timeout reported it. */
  type Notice = Settled<Callback, ExecResult>

  datatype Timer = Timer(taskId: TaskId, id: nat, due: nat)
  datatype Phase = Numbered | Parked | Sent
  datatype Call = Call(request: Request, phase: Phase)

  datatype State = State(
    now: nat,
    lastTaskId: TaskId,
    seqCallbacks: map<TaskId, Entry>,
    calls: map<nat, Call>,
    timers: set<Timer>,
    awaited: set<nat>,
    notices: seq<Notice>,
    // history
    issued: nat,
    born: map<nat, nat>,
    asked: map<nat, Request>,
    parked: map<nat, Callback>)

  datatype Step =
    | Tick(ms: nat)
    | TakeId(request: Request)
    | Park(id: nat)
    | Send(id: nat)
    | PostTimeout(id: nat)
    | DeviceAnswers(id: nat, deviceErrorCode: nat)
    | TransportGivesUp(id: nat)
    | TimeoutFires(timer: Timer)

  const START := State(0, 0, map[], map[], {}, {}, [], 0, map[], map[], map[])

  /** The id the call took: its number modulo 256. */
  function TaskIdOf(id: nat): TaskId {
    id % TASK_ID_COUNT
  }

  function NextTaskId(last: TaskId): TaskId {
    if last >= 0xFF then 0 else last + 1
  }

  predicate InPhase(s: State, id: nat, phase: Phase) {
    id in s.calls && s.calls[id].phase == phase
  }

  predicate Enabled(s: State, step: Step) {
    match step
    case Tick(_) => true
    case TakeId(_) => true
    case Park(id) => InPhase(s, id, Numbered)
    case Send(id) => InPhase(s, id, Parked)
    case PostTimeout(id) => InPhase(s, id, Sent)
    case DeviceAnswers(id, _) => id in s.awaited
    case TransportGivesUp(id) => id in s.awaited
    case TimeoutFires(timer) => timer in s.timers && timer.due <= s.now
  }

  /** Find, erase, notify: the body every response callback and every timeout shares. */
  function Settle(s: State, taskId: TaskId, result: ExecResult, source: nat): State {
    if taskId !in s.seqCallbacks then s
    else
      var entry := s.seqCallbacks[taskId];
      s.(seqCallbacks := s.seqCallbacks - {taskId},
         notices := s.notices + [Settled(entry.id, entry.value, result, source)])
  }

  /** `insert` leaves an entry that is already there alone. */
  function Insert(s: State, id: nat, callback: Callback): State {
    if TaskIdOf(id) in s.seqCallbacks then s
    else s.(seqCallbacks := s.seqCallbacks[TaskIdOf(id) := Ticket(callback, id)], parked := s.parked[id := callback])
  }

  function Apply(s: State, step: Step): State
    requires Enabled(s, step)
  {
    match step
    case Tick(ms) => s.(now := s.now + ms)
    case TakeId(request) =>
      s.(lastTaskId := NextTaskId(s.lastTaskId), issued := s.issued + 1,
         calls := s.calls[s.issued + 1 := Call(request, Numbered)],
         born := s.born[s.issued + 1 := s.now], asked := s.asked[s.issued + 1 := request])
    case Park(id) =>
      Insert(s, id, s.calls[id].request.callback).(calls := s.calls[id := Call(s.calls[id].request, Parked)])
    case Send(id) =>
      s.(calls := s.calls[id := Call(s.calls[id].request, Sent)], awaited := s.awaited + {id})
    case PostTimeout(id) =>
      var request := s.calls[id].request;
      var timers := if request.Timed() then {Timer(TaskIdOf(id), id, s.now + request.Delay())} else {};
      s.(timers := s.timers + timers, calls := s.calls - {id})
    case DeviceAnswers(id, code) =>
      Settle(s.(awaited := s.awaited - {id}), TaskIdOf(id), MapDeviceErrorCodeToExecResult(code), id)
    case TransportGivesUp(id) => s.(awaited := s.awaited - {id})
    case TimeoutFires(timer) => Settle(s.(timers := s.timers - {timer}), timer.taskId, TIMEOUT, timer.id)
  }

  ghost predicate Runs(steps: seq<Step>)
    decreases |steps|, 0
  {
    |steps| == 0 ||
    (Runs(steps[..|steps| - 1]) && Enabled(After(steps[..|steps| - 1]), steps[|steps| - 1]))
  }

  ghost function After(steps: seq<Step>): State
    requires Runs(steps)
    decreases |steps|, 1
  {
    if |steps| == 0 then START
    else Apply(After(steps[..|steps| - 1]), steps[|steps| - 1])
  }

  lemma Extend(steps: seq<Step>, step: Step)
    requires Runs(steps) && Enabled(After(steps), step)
    ensures Runs(steps + [step]) && After(steps + [step]) == Apply(After(steps), step)
  {
    assert (steps + [step])[..|steps + [step]| - 1] == steps;
  }

  ghost predicate NumbersAgree(s: State) {
    && s.lastTaskId == TaskIdOf(s.issued)
    && (forall k <- s.seqCallbacks :: 0 < s.seqCallbacks[k].id <= s.issued && TaskIdOf(s.seqCallbacks[k].id) == k)
    && (forall id <- s.parked :: 0 < id <= s.issued)
    && (forall id <- s.calls :: 0 < id <= s.issued)
    && (forall id <- s.awaited :: 0 < id <= s.issued)
    && (forall t <- s.timers :: 0 < t.id <= s.issued && TaskIdOf(t.id) == t.taskId)
    && (forall id | InPhase(s, id, Numbered) :: id !in s.parked)
  }

  /** Ids are taken in order. */
  ghost predicate BornInOrder(s: State) {
    && (forall id: nat :: id in s.born <==> 0 < id <= s.issued)
    && (forall id <- s.born :: s.born[id] <= s.now)
    && (forall id <- s.born, m <- s.born | id <= m :: s.born[id] <= s.born[m])
  }

  ghost predicate UnderWay(s: State, id: nat) {
    InPhase(s, id, Parked) || InPhase(s, id, Sent)
  }

  /** Something in this layer will still settle the command: its own call, which is yet to post the timeout,
      or its own timeout. */
  ghost predicate Covered(s: State, id: nat) {
    UnderWay(s, id) || exists t <- s.timers :: t.id == id
  }

  ghost predicate NoOrphan(s: State) {
    forall k <- s.seqCallbacks :: Covered(s, s.seqCallbacks[k].id)
  }

  /** Calls carry what was asked for, and timeouts belong to requests that pass the guard. */
  ghost predicate AskedFor(s: State) {
    && (forall id: nat :: id in s.asked <==> 0 < id <= s.issued)
    && (forall id <- s.calls :: id in s.asked && s.calls[id].request == s.asked[id])
    && (forall t <- s.timers :: t.id in s.asked && s.asked[t.id].Timed())
  }

  /** A parked callback is covered exactly if its request passes the guard or its call is still under way. */
  ghost predicate CoverIsExact(s: State) {
    forall k <- s.seqCallbacks ::
      var id := s.seqCallbacks[k].id;
      id in s.asked && (Covered(s, id) <==> s.asked[id].Timed() || UnderWay(s, id))
  }

  ghost predicate Inv(s: State) {
    && NumbersAgree(s) && BornInOrder(s) && AskedFor(s) && CoverIsExact(s)
    && ExactlyOnce(s.parked, s.seqCallbacks, s.notices)
  }

  /** A timeout waits for the duration of its command and 300000 ms, cut to a whole number. */
  ghost predicate TimersWait(s: State) {
    forall t <- s.timers ::
      && t.id in s.born && t.id in s.asked
      && t.due as real + 1.0 > s.born[t.id] as real + s.asked[t.id].duration + 300000.0
  }

  lemma StepKeepsTimersWaiting(s: State, step: Step)
    requires BornInOrder(s) && AskedFor(s) && TimersWait(s) && Enabled(s, step)
    ensures TimersWait(Apply(s, step))
  {
  }

  lemma {:induction false} EveryTimerWaits(steps: seq<Step>)
    requires Runs(steps)
    ensures TimersWait(After(steps))
  {
    if |steps| > 0 {
      EveryTimerWaits(steps[..|steps| - 1]);
      EveryRunIsGood(steps[..|steps| - 1]);
      StepKeepsTimersWaiting(After(steps[..|steps| - 1]), steps[|steps| - 1]);
    }
  }

  /** No command times out before its duration and 300000 ms have passed. */
  lemma NoEarlyTimeout(steps: seq<Step>, timer: Timer)
    requires Runs(steps) && Enabled(After(steps), TimeoutFires(timer))
    ensures var s := After(steps);
            && timer.id in s.born && timer.id in s.asked
            && s.now as real + 1.0 > s.born[timer.id] as real + s.asked[timer.id].duration + 300000.0
  {
    EveryTimerWaits(steps);
  }

  lemma NextTaskIdCounts(issued: nat)
    ensures NextTaskId(TaskIdOf(issued)) == TaskIdOf(issued + 1)
  {
  }

  lemma SettleKeepsNumbers(s: State, taskId: TaskId, result: ExecResult, source: nat)
    requires NumbersAgree(s)
    ensures NumbersAgree(Settle(s, taskId, result, source))
  {
    var s' := Settle(s, taskId, result, source);
    assert forall id, phase :: InPhase(s', id, phase) == InPhase(s, id, phase);
  }

  lemma ParkKeepsNumbers(s: State, id: nat)
    requires NumbersAgree(s) && Enabled(s, Park(id))
    ensures NumbersAgree(Apply(s, Park(id)))
  {
    forall other | InPhase(Apply(s, Park(id)), other, Numbered)
      ensures other !in Apply(s, Park(id)).parked
    {
      assert InPhase(s, other, Numbered);
    }
  }

  lemma SendKeepsNumbers(s: State, id: nat)
    requires NumbersAgree(s) && Enabled(s, Send(id))
    ensures NumbersAgree(Apply(s, Send(id)))
  {
    forall other | InPhase(Apply(s, Send(id)), other, Numbered)
      ensures other !in s.parked
    {
      assert InPhase(s, other, Numbered);
    }
  }

  lemma PostKeepsNumbers(s: State, id: nat)
    requires NumbersAgree(s) && Enabled(s, PostTimeout(id))
    ensures NumbersAgree(Apply(s, PostTimeout(id)))
  {
    forall other | InPhase(Apply(s, PostTimeout(id)), other, Numbered)
      ensures other !in s.parked
    {
      assert InPhase(s, other, Numbered);
    }
  }

  lemma StepKeepsNumbers(s: State, step: Step)
    requires NumbersAgree(s) && Enabled(s, step)
    ensures NumbersAgree(Apply(s, step))
  {
    match step
    case DeviceAnswers(id, code) =>
      SettleKeepsNumbers(s.(awaited := s.awaited - {id}), TaskIdOf(id), MapDeviceErrorCodeToExecResult(code), id);
    case TimeoutFires(timer) => SettleKeepsNumbers(s.(timers := s.timers - {timer}), timer.taskId, TIMEOUT, timer.id);
    case TakeId(_) => NextTaskIdCounts(s.issued);
    case Tick(_) =>
    case TransportGivesUp(_) =>
    case Park(id) => ParkKeepsNumbers(s, id);
    case Send(id) => SendKeepsNumbers(s, id);
    case PostTimeout(id) => PostKeepsNumbers(s, id);
  }

  lemma StepKeepsBirths(s: State, step: Step)
    requires BornInOrder(s) && Enabled(s, step)
    ensures BornInOrder(Apply(s, step))
  {
  }

  lemma StepKeepsAskedFor(s: State, step: Step)
    requires AskedFor(s) && Enabled(s, step)
    ensures AskedFor(Apply(s, step))
  {
  }

  /** The cover of a request that passes the guard is lost only when its timeout fires. */
  lemma CoverSurvives(s: State, step: Step, id: nat)
    requires AskedFor(s) && Enabled(s, step) && Covered(s, id) && id in s.asked && s.asked[id].Timed()
    requires step.TimeoutFires? ==> step.timer.id != id
    ensures Covered(Apply(s, step), id)
  {
    var s' := Apply(s, step);
    if t :| t in s.timers && t.id == id {
      assert t in s'.timers;
    } else if step == PostTimeout(id) {
      assert Timer(TaskIdOf(id), id, s.now + s.asked[id].Delay()) in s'.timers;
    } else {
      assert UnderWay(s', id);
    }
  }

  /** Without passing the guard, a request never has a timeout. */
  lemma UntimedIsUncovered(s: State, id: nat)
    requires AskedFor(s) && id in s.asked && !s.asked[id].Timed()
    ensures Covered(s, id) <==> UnderWay(s, id)
  {
  }

  /** Nothing is parked but by the step that parks it, and only its own timeout fires on it. */
  lemma ParkedBefore(s: State, step: Step, k: TaskId)
    requires NumbersAgree(s) && Enabled(s, step) && k in Apply(s, step).seqCallbacks
    ensures k in s.seqCallbacks ==> Apply(s, step).seqCallbacks[k] == s.seqCallbacks[k]
    ensures k in s.seqCallbacks && step.TimeoutFires? ==> step.timer.id != s.seqCallbacks[k].id
    ensures k !in s.seqCallbacks ==>
              InPhase(Apply(s, step), Apply(s, step).seqCallbacks[k].id, Parked)
              && Apply(s, step).seqCallbacks[k].id in s.calls
  {
  }

  lemma StepKeepsCover(s: State, step: Step)
    requires NumbersAgree(s) && AskedFor(s) && CoverIsExact(s) && Enabled(s, step)
    ensures CoverIsExact(Apply(s, step))
  {
    var s' := Apply(s, step);
    StepKeepsAskedFor(s, step);
    forall k <- s'.seqCallbacks
      ensures var id := s'.seqCallbacks[k].id;
              id in s'.asked && (Covered(s', id) <==> s'.asked[id].Timed() || UnderWay(s', id))
    {
      var id := s'.seqCallbacks[k].id;
      ParkedBefore(s, step, k);
      if !s'.asked[id].Timed() {
        UntimedIsUncovered(s', id);
      } else if k in s.seqCallbacks {
        CoverSurvives(s, step, id);
      }
    }
  }

  lemma SettleKeepsExactlyOnce(s: State, taskId: TaskId, result: ExecResult, source: nat)
    requires NumbersAgree(s) && ExactlyOnce(s.parked, s.seqCallbacks, s.notices)
    ensures var s' := Settle(s, taskId, result, source); ExactlyOnce(s'.parked, s'.seqCallbacks, s'.notices)
  {
    if taskId in s.seqCallbacks {
      assert DistinctIds(s.seqCallbacks);
      SettlingKeepsExactlyOnce(s.parked, s.seqCallbacks, s.notices, taskId, result, source);
    }
  }

  lemma StepKeepsExactlyOnce(s: State, step: Step)
    requires NumbersAgree(s) && ExactlyOnce(s.parked, s.seqCallbacks, s.notices) && Enabled(s, step)
    ensures var s' := Apply(s, step); ExactlyOnce(s'.parked, s'.seqCallbacks, s'.notices)
  {
    match step
    case Park(id) =>
      if TaskIdOf(id) !in s.seqCallbacks {
        InsertingKeepsExactlyOnce(s.parked, s.seqCallbacks, s.notices, TaskIdOf(id), s.calls[id].request.callback, id);
      }
    case DeviceAnswers(id, code) =>
      SettleKeepsExactlyOnce(s.(awaited := s.awaited - {id}), TaskIdOf(id), MapDeviceErrorCodeToExecResult(code), id);
    case TimeoutFires(timer) =>
      SettleKeepsExactlyOnce(s.(timers := s.timers - {timer}), timer.taskId, TIMEOUT, timer.id);
    case _ =>
  }

  lemma StepKeepsInv(s: State, step: Step)
    requires Inv(s) && Enabled(s, step)
    ensures Inv(Apply(s, step))
  {
    StepKeepsNumbers(s, step);
    StepKeepsBirths(s, step);
    StepKeepsAskedFor(s, step);
    StepKeepsCover(s, step);
    StepKeepsExactlyOnce(s, step);
  }

  lemma {:induction false} EveryRunIsGood(steps: seq<Step>)
    requires Runs(steps)
    ensures Inv(After(steps))
  {
    if |steps| > 0 {
      EveryRunIsGood(steps[..|steps| - 1]);
      StepKeepsInv(After(steps[..|steps| - 1]), steps[|steps| - 1]);
    }
  }

  /** Every request of the run comes from the supply. */
  ghost predicate AsksFrom(steps: seq<Step>, supply: set<Request>) {
    forall i | 0 <= i < |steps| :: steps[i].TakeId? ==> steps[i].request in supply
  }

  ghost predicate AllTimed(supply: set<Request>) {
    forall r <- supply :: r.Timed()
  }

  lemma {:induction false} AskedComesFrom(steps: seq<Step>, supply: set<Request>)
    requires Runs(steps) && AsksFrom(steps, supply)
    ensures forall id <- After(steps).asked :: After(steps).asked[id] in supply
  {
    if |steps| > 0 {
      AskedComesFrom(steps[..|steps| - 1], supply);
    }
  }

  /** The parts of the motion manager this layer lives in. Its methods are critical sections, each proved
      to be one step of the machine; ghost fields are call progress and history. */
  class MotionManager {
    var now: nat
    var lastTaskId: TaskId
    var seqCallbacks: map<TaskId, Entry>
    var timers: set<Timer>
    var issued: nat
    ghost var calls: map<nat, Call>
    ghost var awaited: set<nat>
    ghost var notices: seq<Notice>
    ghost var born: map<nat, nat>
    ghost var asked: map<nat, Request>
    ghost var parked: map<nat, Callback>

    ghost function View(): State
      reads this
    {
      State(now, lastTaskId, seqCallbacks, calls, timers, awaited, notices, issued, born, asked, parked)
    }

    constructor ()
      ensures View() == START
    {
      now, lastTaskId, seqCallbacks, timers, issued := 0, 0, map[], {}, 0;
      calls, awaited, notices, born, asked, parked := map[], {}, [], map[], map[], map[];
    }

    method CreateResponseTaskId(request: Request) returns (taskId: TaskId)
      requires lastTaskId == TaskIdOf(issued)
      modifies this
      ensures View() == Apply(old(View()), TakeId(request))
      ensures taskId == TaskIdOf(issued)
      ensures taskId == lastTaskId == if old(lastTaskId) == 255 then 0 else old(lastTaskId) + 1
    {
      NextTaskIdCounts(issued);
      issued := issued + 1;
      if lastTaskId >= 0xFF {
        lastTaskId, taskId := 0, 0;
      } else {
        lastTaskId := lastTaskId + 1;
        taskId := lastTaskId;
      }
      calls := calls[issued := Call(request, Numbered)];
      born, asked := born[issued := now], asked[issued := request];
    }

    method InsertCallback(id: nat, callback: Callback)
      requires Enabled(View(), Park(id)) && calls[id].request.callback == callback
      modifies this
      ensures View() == Apply(old(View()), Park(id))
      ensures seqCallbacks ==
              old(seqCallbacks) + if id % 256 in old(seqCallbacks) then map[] else map[id % 256 := Ticket(callback, id)]
    {
      var taskId := id % TASK_ID_COUNT;
      if taskId !in seqCallbacks {
        seqCallbacks := seqCallbacks[taskId := Ticket(callback, id)];
        parked := parked[id := callback];
      }
      calls := calls[id := Call(calls[id].request, Parked)];
    }

    /** The end of a call: a duration that undercuts the guard posts nothing. */
    method PostTimeoutTask(id: nat, duration: real)
      requires Enabled(View(), PostTimeout(id)) && calls[id].request.duration == duration
      modifies this
      ensures View() == Apply(old(View()), PostTimeout(id))
      ensures duration + 300000.0 <= 0.0 ==> timers == old(timers)
      ensures duration + 300000.0 > 0.0 ==>
                exists timer: Timer ::
                  && timers == old(timers) + {timer} && timer.id == id && timer.taskId == id % 256
                  && timer.due as real <= now as real + duration + 300000.0 < timer.due as real + 1.0
    {
      var delay := duration + RESPONSE_TIMEOUT as real;
      if delay > 0.0 {
        var timer := Timer(id % TASK_ID_COUNT, id, now + delay.Floor);
        timers := timers + {timer};
        assert timer.due as real <= now as real + delay < timer.due as real + 1.0;
      }
      calls := calls - {id};
    }

    /** The body of every response callback: the device's code, mapped, goes to whoever is parked. */
    method OnResponse(id: nat, deviceErrorCode: nat) returns (notified: Option<Callback>)
      requires Enabled(View(), DeviceAnswers(id, deviceErrorCode))
      modifies this
      ensures View() == Apply(old(View()), DeviceAnswers(id, deviceErrorCode))
      ensures notified.Some? <==> id % 256 in old(seqCallbacks)
      ensures notified == None ==> notices == old(notices)
      ensures notified.Some? ==>
                && notified.value == old(seqCallbacks)[id % 256].value
                && seqCallbacks == old(seqCallbacks) - {id % 256}
                && exists notice: Notice ::
                     notices == old(notices) + [notice] && notice.value == notified.value
                     && Means(notice.result, deviceErrorCode)
    {
      awaited := awaited - {id};
      notified := EraseAndNotify(id % TASK_ID_COUNT, MapDeviceErrorCodeToExecResult(deviceErrorCode), id);
    }

    method OnTimeout(timer: Timer) returns (notified: Option<Callback>)
      requires Enabled(View(), TimeoutFires(timer))
      modifies this
      ensures View() == Apply(old(View()), TimeoutFires(timer))
      ensures notified.Some? <==> timer.taskId in old(seqCallbacks)
      ensures notified == None ==> notices == old(notices)
      ensures notified.Some? ==>
                && notified.value == old(seqCallbacks)[timer.taskId].value
                && seqCallbacks == old(seqCallbacks) - {timer.taskId}
                && exists notice: Notice ::
                     notices == old(notices) + [notice] && notice.value == notified.value && notice.result == TIMEOUT
    {
      timers := timers - {timer};
      notified := EraseAndNotify(timer.taskId, TIMEOUT, timer.id);
    }

    method EraseAndNotify(taskId: TaskId, result: ExecResult, source: nat) returns (notified: Option<Callback>)
      modifies this`seqCallbacks, this`notices
      ensures View() == Settle(old(View()), taskId, result, source)
      ensures notified.Some? <==> taskId in old(seqCallbacks)
      ensures notified == None ==> notices == old(notices)
      ensures notified.Some? ==>
                && notified.value == old(seqCallbacks)[taskId].value
                && seqCallbacks == old(seqCallbacks) - {taskId}
                && notices == old(notices) + [Settled(old(seqCallbacks)[taskId].id, notified.value, result, source)]
    {
      if taskId !in seqCallbacks {
        return None;
      }
      var entry := seqCallbacks[taskId];
      seqCallbacks := seqCallbacks - {taskId};
      notices := notices + [Settled(entry.id, entry.value, result, source)];
      notified := Some(entry.value);
    }
  }
}
