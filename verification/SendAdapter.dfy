/** The request/response transport as a machine of atomic steps.

    Three threads share it: the send thread, which numbers, frames, parks and sends one command at a
    time; the receive thread, which runs one queued task at a time; and the Bluetooth callback, which
    turns an acknowledgement into a queued task. A step is what one thread does without another being
    able to see the middle: one critical section of `responseMutex_`, or one call on the task queue. The
    lock `recvEventMutex_` spans several steps and shows up as a guard on the steps that need it.

    Fields under "history" record what happened and never influence a step. */
module SendAdapter {
  import opened Options
  import opened FrameLayout
  import opened OnceTable

  const SEQ_NO_COUNT := 0x1_0000
  const RESPONSE_TIMEOUT := 300000
  const RESPONSE_TIMEOUT_RESET := 2000
  const CMD_RETRY_INTERVAL := 10

  datatype Command = Command(token: nat, payloadSize: nat, needsResponse: bool, retryTimes: int) {
    predicate Fits() {
      FrameFits(|BT_PAYLOAD_MECH_SERVICE_NAME|, payloadSize)
    }
  }

  /** A parked request; the command was the `id`-th to be given a number. */
  type Entry = Ticket<Command>

  datatype TaskKind = Response | Timeout | Reset

  /** A task of the receive thread. `RemoveTask` sees kind and number only, and `serial` keeps two otherwise
      equal tasks apart. `id` is history: the request a timer was posted for, or the one parked when an
      answer arrived, 0 if there was none. */
  datatype Task = Task(kind: TaskKind, seqNo: Word, id: nat, due: nat, serial: nat)

  /** How far the send thread is with its current command. */
  datatype Sender =
    | Idle
    | Numbered(cmd: Command, seqNo: Word)
    | Inserted(cmd: Command, seqNo: Word)
    | ResetPosted(cmd: Command, seqNo: Word)  // holds recvEventMutex_
    | Sending(cmd: Command, start: nat, retry: int)

  /** How far the Bluetooth callback is with an acknowledgement; it holds recvEventMutex_ unless Quiet. */
  datatype Receiver = Quiet | ResponsePosted(seqNo: Word) | TimeoutRemoved(seqNo: Word)

  datatype Outcome = Answered | TimedOut

  /** One callback fired for a parked request; its source is the id of the task that fired it. */
  type Settlement = Settled<Command, Outcome>

  datatype State = State(
    now: nat,
    last: Word,
    pending: map<Word, Entry>,
    queue: set<Task>,
    running: Option<Task>,
    sender: Sender,
    receiver: Receiver,
    // history
    issued: nat,
    inserted: map<nat, Command>,
    posts: map<nat, nat>,
    settled: seq<Settlement>,
    serial: nat)

  datatype Step =
    | Tick(ms: nat)
    | Allocate(cmd: Command)
    | DropFrame
    | SkipInsert
    | Insert
    | PostReset
    | PostTimeout
    | SendReturns(ok: bool)
    | AckArrives(seqNo: Word)
    | RemoveTimeout
    | RemoveReset
    | Dequeue(task: Task)
    | RunTask

  const START := State(0, 0, map[], {}, None, Idle, Quiet, 0, map[], map[], [], 0)

  function NextSeqNo(last: Word): Word {
    if last >= 0xFFFF then 0 else last + 1
  }

  predicate Enabled(s: State, step: Step) {
    match step
    case Tick(_) => true
    case Allocate(_) => s.sender.Idle?
    case DropFrame => s.sender.Numbered? && !s.sender.cmd.Fits()
    case SkipInsert => s.sender.Numbered? && s.sender.cmd.Fits() && !s.sender.cmd.needsResponse
    case Insert => s.sender.Numbered? && s.sender.cmd.Fits() && s.sender.cmd.needsResponse
    case PostReset => s.sender.Inserted? && s.receiver.Quiet?
    case PostTimeout => s.sender.ResetPosted?
    case SendReturns(_) => s.sender.Sending? && s.now >= s.sender.start + CMD_RETRY_INTERVAL
    case AckArrives(_) => s.receiver.Quiet? && !s.sender.ResetPosted?
    case RemoveTimeout => s.receiver.ResponsePosted?
    case RemoveReset => s.receiver.TimeoutRemoved?
    case Dequeue(task) => s.running.None? && task in s.queue && task.due <= s.now
    case RunTask => s.running.Some?
  }

  function Post(s: State, kind: TaskKind, seqNo: Word, id: nat, delay: nat): State {
    s.(queue := s.queue + {Task(kind, seqNo, id, s.now + delay, s.serial)}, serial := s.serial + 1)
  }

  function OwnerOf(pending: map<Word, Entry>, seqNo: Word): nat {
    if seqNo in pending then pending[seqNo].id else 0
  }

  /** `RemoveTask` by name: every queued task of that kind and number goes. */
  function Without(queue: set<Task>, kind: TaskKind, seqNo: Word): set<Task> {
    set t | t in queue && !(t.kind == kind && t.seqNo == seqNo)
  }

  /** `insert` on the map of parked requests leaves an entry that is already there alone. */
  function Park(s: State, cmd: Command, seqNo: Word): State {
    if seqNo in s.pending then s
    else s.(pending := s.pending[seqNo := Ticket(cmd, s.issued)], inserted := s.inserted[s.issued := cmd])
  }

  function Settle(s: State, seqNo: Word, outcome: Outcome, source: nat): State {
    if seqNo !in s.pending then s
    else
      var entry := s.pending[seqNo];
      s.(settled := s.settled + [Settled(entry.id, entry.value, outcome, source)], pending := s.pending - {seqNo})
  }

  function Execute(s: State, task: Task): State {
    match task.kind
    case Response => Settle(s, task.seqNo, Answered, task.id)
    case Timeout => Settle(s, task.seqNo, TimedOut, task.id)
    case Reset => s
  }

  function Apply(s: State, step: Step): State
    requires Enabled(s, step)
  {
    match step
    case Tick(ms) => s.(now := s.now + ms)
    case Allocate(cmd) =>
      var seqNo := NextSeqNo(s.last);
      s.(last := seqNo, issued := s.issued + 1, sender := Numbered(cmd, seqNo))
    case DropFrame => s.(sender := Idle)
    case SkipInsert => s.(sender := Sending(s.sender.cmd, s.now, s.sender.cmd.retryTimes))
    case Insert => Park(s, s.sender.cmd, s.sender.seqNo).(sender := Inserted(s.sender.cmd, s.sender.seqNo))
    case PostReset =>
      Post(s, Reset, s.sender.seqNo, s.issued, RESPONSE_TIMEOUT_RESET)
        .(sender := ResetPosted(s.sender.cmd, s.sender.seqNo))
    case PostTimeout =>
      Post(s, Timeout, s.sender.seqNo, s.issued, RESPONSE_TIMEOUT)
        .(sender := Sending(s.sender.cmd, s.now, s.sender.cmd.retryTimes), posts := s.posts[s.issued := s.now])
    case SendReturns(ok) =>
      if !ok && s.sender.retry > 0 then s.(sender := Sending(s.sender.cmd, s.now, s.sender.retry - 1))
      else s.(sender := Idle)
    case AckArrives(seqNo) => Post(s, Response, seqNo, OwnerOf(s.pending, seqNo), 0).(receiver := ResponsePosted(seqNo))
    case RemoveTimeout =>
      s.(queue := Without(s.queue, Timeout, s.receiver.seqNo), receiver := TimeoutRemoved(s.receiver.seqNo))
    case RemoveReset => s.(queue := Without(s.queue, Reset, s.receiver.seqNo), receiver := Quiet)
    case Dequeue(task) => s.(queue := s.queue - {task}, running := Some(task))
    case RunTask => Execute(s, s.running.value).(running := None)
  }

  /** Every step of the sequence was possible when it was taken. */
  ghost predicate Runs(steps: seq<Step>)
    decreases |steps|, 0
  {
    |steps| == 0 ||
    (Runs(steps[..|steps| - 1]) && Enabled(After(steps[..|steps| - 1]), steps[|steps| - 1]))
  }

  /** The state a run ends in. */
  ghost function After(steps: seq<Step>): State
    requires Runs(steps)
    decreases |steps|, 1
  {
    if |steps| == 0 then START
    else Apply(After(steps[..|steps| - 1]), steps[|steps| - 1])
  }

  lemma RunExtends(steps: seq<Step>, step: Step)
    requires Runs(steps) && Enabled(After(steps), step)
    ensures Runs(steps + [step]) && After(steps + [step]) == Apply(After(steps), step)
  {
    assert (steps + [step])[..|steps + [step]| - 1] == steps;
  }

  /** How many sends a retry count allows. */
  function MaxAttempts(retry: int): nat {
    if retry > 0 then 1 + retry else 1
  }

  /** These are the results of one command's sends: failures up to the last, which succeeds or is the last
      allowed. */
  predicate AllAttempts(results: seq<bool>, retry: int) {
    && 1 <= |results| <= MaxAttempts(retry)
    && (forall i | 0 <= i < |results| - 1 :: !results[i])
    && (results[|results| - 1] || |results| == MaxAttempts(retry))
  }

  function Attempt(ok: bool): seq<Step> {
    [Tick(CMD_RETRY_INTERVAL), SendReturns(ok)]
  }

  /** One attempt: ten milliseconds later the send thread is done, or at the next attempt. */
  function Attempted(s: State, ok: bool): State
    requires s.sender.Sending?
  {
    var later := s.now + CMD_RETRY_INTERVAL;
    s.(now := later,
       sender := if !ok && s.sender.retry > 0 then Sending(s.sender.cmd, later, s.sender.retry - 1) else Idle)
  }

  lemma AttemptIsTwoSteps(s: State, ok: bool)
    requires s.sender.Sending? && s.sender.start == s.now
    ensures var waited := Apply(s, Tick(CMD_RETRY_INTERVAL));
            Enabled(waited, SendReturns(ok)) && Apply(waited, SendReturns(ok)) == Attempted(s, ok)
  {
  }

  lemma AttemptRuns(steps: seq<Step>, ok: bool)
    requires Runs(steps) && After(steps).sender.Sending? && After(steps).sender.start == After(steps).now
    ensures Runs(steps + Attempt(ok)) && After(steps + Attempt(ok)) == Attempted(After(steps), ok)
  {
    AttemptIsTwoSteps(After(steps), ok);
    var waited := steps + [Tick(CMD_RETRY_INTERVAL)];
    RunExtends(steps, Tick(CMD_RETRY_INTERVAL));
    RunExtends(waited, SendReturns(ok));
    assert steps + Attempt(ok) == waited + [SendReturns(ok)];
  }

  function Attempts(results: seq<bool>): seq<Step> {
    if |results| == 0 then [] else Attempt(results[0]) + Attempts(results[1..])
  }

  /** The send thread about to make its first attempt. */
  predicate AboutToSend(s: State) {
    s.sender.Sending? && s.sender.start == s.now
  }

  /** The end of a command's sends. */
  function Sent(s: State, attempts: nat): State {
    s.(now := s.now + CMD_RETRY_INTERVAL * attempts, sender := Idle)
  }

  lemma SentUnfolds(s: State, results: seq<bool>)
    requires AboutToSend(s) && AllAttempts(results, s.sender.retry)
    ensures |results| == 1 ==> Attempted(s, results[0]) == Sent(s, 1)
    ensures |results| > 1 ==>
              var next := Attempted(s, results[0]);
              && AboutToSend(next) && AllAttempts(results[1..], next.sender.retry)
              && Sent(next, |results| - 1) == Sent(s, |results|)
  {
  }

  lemma AttemptsUnfold(steps: seq<Step>, results: seq<bool>)
    requires |results| > 0
    ensures |results| == 1 ==> steps + Attempts(results) == steps + Attempt(results[0])
    ensures steps + Attempts(results) == steps + Attempt(results[0]) + Attempts(results[1..])
  {
  }

  /** Sending with retries is a run of the machine: ten milliseconds and a return for every attempt. */
  lemma {:induction false} AttemptsAreSteps(steps: seq<Step>, results: seq<bool>)
    requires Runs(steps) && AboutToSend(After(steps)) && AllAttempts(results, After(steps).sender.retry)
    ensures Runs(steps + Attempts(results)) && After(steps + Attempts(results)) == Sent(After(steps), |results|)
    decreases |results|
  {
    SentUnfolds(After(steps), results);
    AttemptRuns(steps, results[0]);
    AttemptsUnfold(steps, results);
    if |results| > 1 {
      AttemptsAreSteps(steps + Attempt(results[0]), results[1..]);
    }
  }

  /** The send adapter itself. Its methods are the critical sections of the source; each is proved to be
      one step of the machine, so what holds of every run holds of the object. The ghost fields are the
      other threads' program counters and the history. */
  class TransportSendAdapter {
    var now: nat
    var lastSeqNo: Word
    var pendingRequests: map<Word, Entry>
    var tasks: set<Task>
    var running: Option<Task>
    var issued: nat
    var serial: nat
    ghost var sender: Sender
    ghost var receiver: Receiver
    ghost var inserted: map<nat, Command>
    ghost var posts: map<nat, nat>
    ghost var settled: seq<Settlement>

    ghost function View(): State
      reads this
    {
      State(now, lastSeqNo, pendingRequests, tasks, running, sender, receiver, issued, inserted, posts, settled,
            serial)
    }

    constructor ()
      ensures View() == START
    {
      now, lastSeqNo, pendingRequests, tasks, running, issued, serial := 0, 0, map[], {}, None, 0, 0;
      sender, receiver, inserted, posts, settled := Idle, Quiet, map[], map[], [];
    }

    method CreateResponseSeqNo(cmd: Command) returns (seqNo: Word)
      requires Enabled(View(), Allocate(cmd))
      modifies this
      ensures View() == Apply(old(View()), Allocate(cmd))
      ensures sender == Numbered(cmd, seqNo)
      ensures seqNo == lastSeqNo == if old(lastSeqNo) == 65535 then 0 else old(lastSeqNo) + 1
    {
      issued := issued + 1;
      if lastSeqNo >= 0xFFFF {
        lastSeqNo := 0;
        seqNo := 0;
      } else {
        lastSeqNo := lastSeqNo + 1;
        seqNo := lastSeqNo;
      }
      sender := Numbered(cmd, seqNo);
    }

    /** The first critical section of `PushResponseTask`. */
    method InsertPending(cmd: Command, seqNo: Word)
      requires Enabled(View(), Insert) && sender == Numbered(cmd, seqNo)
      modifies this
      ensures View() == Apply(old(View()), Insert)
      ensures pendingRequests ==
              old(pendingRequests) + if seqNo in old(pendingRequests) then map[] else map[seqNo := Ticket(cmd, issued)]
    {
      if seqNo !in pendingRequests {
        pendingRequests := pendingRequests[seqNo := Ticket(cmd, issued)];
        inserted := inserted[issued := cmd];
      }
      sender := Inserted(cmd, seqNo);
    }

    method PostTask(kind: TaskKind, seqNo: Word, id: nat, delay: nat)
      modifies this`tasks, this`serial
      ensures View() == Post(old(View()), kind, seqNo, id, delay)
    {
      tasks := tasks + {Task(kind, seqNo, id, now + delay, serial)};
      serial := serial + 1;
    }

    method RemoveTask(kind: TaskKind, seqNo: Word)
      modifies this`tasks
      ensures tasks == Without(old(tasks), kind, seqNo)
      ensures forall t :: t in tasks <==> t in old(tasks) && !(t.kind == kind && t.seqNo == seqNo)
    {
      tasks := set t | t in tasks && (t.kind != kind || t.seqNo != seqNo);
    }

    method PostResetTask(cmd: Command, seqNo: Word)
      requires Enabled(View(), PostReset) && sender == Inserted(cmd, seqNo)
      modifies this
      ensures View() == Apply(old(View()), PostReset)
      ensures tasks == old(tasks) + {Task(Reset, seqNo, issued, now + 2000, old(serial))}
    {
      PostTask(Reset, seqNo, issued, RESPONSE_TIMEOUT_RESET);
      sender := ResetPosted(cmd, seqNo);
    }

    method PostTimeoutTask(cmd: Command, seqNo: Word)
      requires Enabled(View(), PostTimeout) && sender == ResetPosted(cmd, seqNo)
      modifies this
      ensures View() == Apply(old(View()), PostTimeout)
      ensures tasks == old(tasks) + {Task(Timeout, seqNo, issued, now + 300000, old(serial))}
    {
      PostTask(Timeout, seqNo, issued, RESPONSE_TIMEOUT);
      sender := Sending(cmd, now, cmd.retryTimes);
      posts := posts[issued := now];
    }

    /** The end of the send task: one send and its retries, each followed by a pause of 10 ms. `results` says
        what the sends return, of which only the attempts made are looked at. */
    method Transmit(cmd: Command, results: seq<bool>) returns (attempts: nat)
      requires sender == Sending(cmd, now, cmd.retryTimes) && |results| >= MaxAttempts(cmd.retryTimes)
      modifies this`now, this`sender
      ensures attempts <= |results| && AllAttempts(results[..attempts], cmd.retryTimes)
      ensures View() == Sent(old(View()), attempts) && now == old(now) + 10 * attempts
    {
      var result := results[0];
      attempts := 1;
      now := now + CMD_RETRY_INTERVAL;
      var retry := cmd.retryTimes;
      while !result && retry > 0
        invariant 1 <= attempts <= |results| && result == results[attempts - 1]
        invariant attempts <= MaxAttempts(cmd.retryTimes)
        invariant cmd.retryTimes > 0 ==> retry >= 0 && attempts + retry == MaxAttempts(cmd.retryTimes)
        invariant cmd.retryTimes <= 0 ==> retry == cmd.retryTimes
        invariant forall i | 0 <= i < attempts - 1 :: !results[i]
        invariant now == old(now) + CMD_RETRY_INTERVAL * attempts
      {
        retry := retry - 1;
        result := results[attempts];
        attempts := attempts + 1;
        now := now + CMD_RETRY_INTERVAL;
      }
      sender := Idle;
    }

    /** The part of `OnReceive` for an acknowledgement that runs under recvEventMutex_, one queue
        operation at a time. */
    method PostResponseTask(seqNo: Word)
      requires Enabled(View(), AckArrives(seqNo))
      modifies this
      ensures View() == Apply(old(View()), AckArrives(seqNo))
      ensures exists id :: tasks == old(tasks) + {Task(Response, seqNo, id, now, old(serial))}
    {
      PostTask(Response, seqNo, OwnerOf(pendingRequests, seqNo), 0);
      receiver := ResponsePosted(seqNo);
    }

    method RemoveTimeoutTask(seqNo: Word)
      requires receiver == ResponsePosted(seqNo)
      modifies this
      ensures View() == Apply(old(View()), RemoveTimeout)
      ensures forall t :: t in tasks <==> t in old(tasks) && !(t.kind == Timeout && t.seqNo == seqNo)
    {
      RemoveTask(Timeout, seqNo);
      receiver := TimeoutRemoved(seqNo);
    }

    method RemoveResetTask(seqNo: Word)
      requires receiver == TimeoutRemoved(seqNo)
      modifies this
      ensures View() == Apply(old(View()), RemoveReset)
      ensures forall t :: t in tasks <==> t in old(tasks) && !(t.kind == Reset && t.seqNo == seqNo)
    {
      RemoveTask(Reset, seqNo);
      receiver := Quiet;
    }

    /** The receive thread executes the task it has taken. The command whose callback fires, if any, is
        the one handed back. */
    method ExecuteRunningTask() returns (fired: Option<Command>)
      requires running.Some?
      modifies this
      ensures View() == Apply(old(View()), RunTask)
      ensures fired ==
              var task := old(running.value);
              if task.kind != Reset && task.seqNo in old(pendingRequests)
              then Some(old(pendingRequests)[task.seqNo].value) else None
      ensures pendingRequests ==
              var task := old(running.value);
              if task.kind == Reset then old(pendingRequests) else old(pendingRequests) - {task.seqNo}
      ensures fired == None ==> settled == old(settled)
      ensures fired.Some? ==>
                && |settled| == |old(settled)| + 1
                && settled[|old(settled)|].value == fired.value
                && (settled[|old(settled)|].result == Answered <==> old(running.value).kind == Response)
    {
      var task := running.value;
      fired := None;
      if task.kind != Reset && task.seqNo in pendingRequests {
        var entry := pendingRequests[task.seqNo];
        fired := Some(entry.value);
        pendingRequests := pendingRequests - {task.seqNo};
        ghost var outcome := if task.kind == Response then Answered else TimedOut;
        settled := settled + [Settled(entry.id, entry.value, outcome, task.id)];
      }
      running := None;
    }
  }
}
