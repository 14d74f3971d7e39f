/** Exactly which commands the 16-bit numbers are safe for.

    A command that cannot be framed consumes a number without holding the send thread, so enough of them
    wrap the counter in no time and the number of a request that is still parked is handed out again.
    `insert` then leaves the old entry in place and the new command is never parked at all. Commands that
    can be framed bring the same about when tasks are later than the slack. */
module SendAdapterSupply {
  import opened Options
  import opened FrameLayout
  import opened OnceTable
  import opened SendAdapter
  import opened SendAdapterSafety
  import opened SendAdapterTiming

  /** If the send thread is about to park a command, its number is free. */
  ghost predicate ParksFreely(s: State) {
    Enabled(s, Insert) ==> s.sender.seqNo !in s.pending
  }

  lemma Extend(steps: seq<Step>, step: Step, supply: set<Command>, lateness: nat)
    requires TimedRun(steps, supply, lateness) && Enabled(After(steps), step)
    requires Prompt(Apply(After(steps), step), lateness)
    requires step.Allocate? ==> step.cmd in supply
    ensures TimedRun(steps + [step], supply, lateness)
    ensures After(steps + [step]) == Apply(After(steps), step)
  {
    assert (steps + [step])[..|steps + [step]| - 1] == steps;
  }

  /** `n` commands sent back to back, all but the first of them settled, and the first one still parked with
      `tasks` queued for it. */
  ghost predicate Lingering(s: State, cmd: Command, n: nat, tasks: set<Task>) {
    && s.now == CMD_RETRY_INTERVAL * n && s.sender.Idle? && s.receiver.Quiet? && s.running.None?
    && s.issued == n && s.last == n % SEQ_NO_COUNT
    && s.pending == map[1 := Ticket(cmd, 1)] && s.queue == tasks
  }

  const RESET_OF_FIRST := Task(Reset, 1, 1, RESPONSE_TIMEOUT_RESET, 0)
  const TIMEOUT_OF_FIRST := Task(Timeout, 1, 1, RESPONSE_TIMEOUT, 1)

  lemma SendFirst(cmd: Command, supply: set<Command>, lateness: nat) returns (steps: seq<Step>)
    requires cmd in supply && cmd.Fits() && cmd.needsResponse
    ensures TimedRun(steps, supply, lateness)
    ensures Lingering(After(steps), cmd, 1, {RESET_OF_FIRST, TIMEOUT_OF_FIRST})
  {
    steps := [];
    Extend(steps, Allocate(cmd), supply, lateness);
    steps := steps + [Allocate(cmd)];
    Extend(steps, Insert, supply, lateness);
    steps := steps + [Insert];
    Extend(steps, PostReset, supply, lateness);
    steps := steps + [PostReset];
    Extend(steps, PostTimeout, supply, lateness);
    steps := steps + [PostTimeout];
    assert After(steps).queue == {RESET_OF_FIRST, TIMEOUT_OF_FIRST};
    Extend(steps, Tick(CMD_RETRY_INTERVAL), supply, lateness);
    steps := steps + [Tick(CMD_RETRY_INTERVAL)];
    Extend(steps, SendReturns(true), supply, lateness);
    steps := steps + [SendReturns(true)];
  }

  /** One request sent and still waiting, `drops` numbers wasted since. */
  ghost predicate Waiting(s: State, cmd: Command, drops: nat) {
    && s.now == CMD_RETRY_INTERVAL && s.sender.Idle? && s.running.None?
    && s.issued == 1 + drops && s.last == (1 + drops) % SEQ_NO_COUNT
    && s.pending == map[1 := Ticket(cmd, 1)]
    && (forall t <- s.queue :: t.due >= RESPONSE_TIMEOUT_RESET)
  }

  lemma {:induction false} WasteNumbers(cmd: Command, oversized: Command, drops: nat, supply: set<Command>,
                                        lateness: nat)
    returns (steps: seq<Step>)
    requires cmd in supply && cmd.Fits() && cmd.needsResponse && oversized in supply && !oversized.Fits()
    ensures TimedRun(steps, supply, lateness) && Waiting(After(steps), cmd, drops)
  {
    if drops == 0 {
      steps := SendFirst(cmd, supply, lateness);
    } else {
      steps := WasteNumbers(cmd, oversized, drops - 1, supply, lateness);
      Extend(steps, Allocate(oversized), supply, lateness);
      steps := steps + [Allocate(oversized)];
      Extend(steps, DropFrame, supply, lateness);
      steps := steps + [DropFrame];
    }
  }

  /** Ten milliseconds into the run a second command that fits is about to be parked under the number
      of the first, which is still waiting. */
  lemma Collision(cmd: Command, oversized: Command, supply: set<Command>, lateness: nat) returns (steps: seq<Step>)
    requires cmd in supply && cmd.Fits() && cmd.needsResponse && oversized in supply && !oversized.Fits()
    ensures TimedRun(steps, supply, lateness) && !ParksFreely(After(steps))
    ensures Apply(After(steps), Insert).pending == map[1 := Ticket(cmd, 1)]
    ensures After(steps).issued == SEQ_NO_COUNT + 1 && After(steps).now == CMD_RETRY_INTERVAL
  {
    steps := WasteNumbers(cmd, oversized, SEQ_NO_COUNT - 1, supply, lateness);
    Extend(steps, Allocate(cmd), supply, lateness);
    steps := steps + [Allocate(cmd)];
  }

  // When tasks may be too late ---------------------------------------------------------------------------

  /** The tasks are those of the number 1, and none of them is overdue before `until`. */
  ghost predicate MayWait(tasks: set<Task>, until: nat, lateness: nat) {
    forall t <- tasks :: t.seqNo == 1 && until <= t.due + lateness
  }

  /** The next command has been numbered, parked, and given its timers. */
  ghost predicate Pushed(s: State, cmd: Command, n: nat, tasks: set<Task>) {
    && s.now == CMD_RETRY_INTERVAL * n && s.receiver.Quiet? && s.running.None?
    && s.sender == Sending(cmd, s.now, cmd.retryTimes)
    && s.issued == n + 1 && s.last == (n + 1) % SEQ_NO_COUNT
    && s.pending == map[1 := Ticket(cmd, 1), s.last := Ticket(cmd, n + 1)]
    && tasks <= s.queue
    && forall t <- s.queue :: t in tasks || (t.kind != Response && t.seqNo == s.last && s.now <= t.due)
  }

  /** The next command has been numbered and parked. */
  ghost predicate ParkedNext(s: State, cmd: Command, n: nat, tasks: set<Task>) {
    && s.now == CMD_RETRY_INTERVAL * n && s.receiver.Quiet? && s.running.None?
    && s.sender == Inserted(cmd, s.last)
    && s.issued == n + 1 && s.last == (n + 1) % SEQ_NO_COUNT
    && s.pending == map[1 := Ticket(cmd, 1), s.last := Ticket(cmd, n + 1)] && s.queue == tasks
  }

  lemma ParkNext(steps: seq<Step>, cmd: Command, n: nat, tasks: set<Task>, supply: set<Command>, lateness: nat)
    returns (more: seq<Step>)
    requires TimedRun(steps, supply, lateness) && Lingering(After(steps), cmd, n, tasks)
    requires cmd in supply && cmd.Fits() && cmd.needsResponse && 1 <= n < SEQ_NO_COUNT
    requires MayWait(tasks, CMD_RETRY_INTERVAL * n, lateness)
    ensures TimedRun(more, supply, lateness) && ParkedNext(After(more), cmd, n, tasks)
  {
    more := steps;
    Extend(more, Allocate(cmd), supply, lateness);
    more := more + [Allocate(cmd)];
    Extend(more, Insert, supply, lateness);
    more := more + [Insert];
  }

  lemma PushNext(steps: seq<Step>, cmd: Command, n: nat, tasks: set<Task>, supply: set<Command>, lateness: nat)
    returns (more: seq<Step>)
    requires TimedRun(steps, supply, lateness) && ParkedNext(After(steps), cmd, n, tasks)
    requires MayWait(tasks, CMD_RETRY_INTERVAL * n, lateness)
    ensures TimedRun(more, supply, lateness) && Pushed(After(more), cmd, n, tasks)
  {
    more := steps;
    Extend(more, PostReset, supply, lateness);
    more := more + [PostReset];
    Extend(more, PostTimeout, supply, lateness);
    more := more + [PostTimeout];
  }

  /** It has been acknowledged. */
  ghost predicate Acknowledged(s: State, cmd: Command, n: nat, tasks: set<Task>, answer: Task) {
    && s.now == CMD_RETRY_INTERVAL * n && s.receiver.Quiet? && s.running.None?
    && s.sender == Sending(cmd, s.now, cmd.retryTimes)
    && s.issued == n + 1 && s.last == (n + 1) % SEQ_NO_COUNT
    && s.pending == map[1 := Ticket(cmd, 1), s.last := Ticket(cmd, n + 1)]
    && answer.kind == Response && answer.seqNo == s.last && answer.due == s.now
    && s.queue == tasks + {answer} && answer !in tasks
  }

  lemma AcknowledgeNext(steps: seq<Step>, cmd: Command, n: nat, tasks: set<Task>, supply: set<Command>, lateness: nat)
    returns (more: seq<Step>, answer: Task)
    requires TimedRun(steps, supply, lateness) && Pushed(After(steps), cmd, n, tasks)
    requires MayWait(tasks, CMD_RETRY_INTERVAL * n, lateness) && 1 <= n < SEQ_NO_COUNT
    ensures TimedRun(more, supply, lateness) && Acknowledged(After(more), cmd, n, tasks, answer)
  {
    var k := After(steps).last;
    answer := Task(Response, k, n + 1, After(steps).now, After(steps).serial);
    more := steps;
    Extend(more, AckArrives(k), supply, lateness);
    more := more + [AckArrives(k)];
    Extend(more, RemoveTimeout, supply, lateness);
    more := more + [RemoveTimeout];
    Extend(more, RemoveReset, supply, lateness);
    more := more + [RemoveReset];
    assert After(more).queue == tasks + {answer};
  }

  lemma SettleNext(steps: seq<Step>, cmd: Command, n: nat, tasks: set<Task>, answer: Task, supply: set<Command>,
                   lateness: nat)
    returns (more: seq<Step>)
    requires TimedRun(steps, supply, lateness) && Acknowledged(After(steps), cmd, n, tasks, answer)
    requires MayWait(tasks, CMD_RETRY_INTERVAL * (n + 1), lateness) && 1 <= n < SEQ_NO_COUNT
    ensures TimedRun(more, supply, lateness) && Lingering(After(more), cmd, n + 1, tasks)
  {
    more := steps;
    Extend(more, Dequeue(answer), supply, lateness);
    more := more + [Dequeue(answer)];
    assert After(more).queue == tasks;
    Extend(more, RunTask, supply, lateness);
    more := more + [RunTask];
    assert After(more).pending == map[1 := Ticket(cmd, 1)];
    Extend(more, Tick(CMD_RETRY_INTERVAL), supply, lateness);
    more := more + [Tick(CMD_RETRY_INTERVAL)];
    Extend(more, SendReturns(true), supply, lateness);
    more := more + [SendReturns(true)];
  }

  /** Command after command is sent and settled while the first one waits. */
  lemma {:induction false} SendMore(steps: seq<Step>, cmd: Command, n: nat, m: nat, tasks: set<Task>,
                                    supply: set<Command>, lateness: nat)
    returns (more: seq<Step>)
    requires TimedRun(steps, supply, lateness) && Lingering(After(steps), cmd, n, tasks)
    requires cmd in supply && cmd.Fits() && cmd.needsResponse && 1 <= n <= m <= SEQ_NO_COUNT
    requires MayWait(tasks, CMD_RETRY_INTERVAL * m, lateness)
    ensures TimedRun(more, supply, lateness) && Lingering(After(more), cmd, m, tasks)
    decreases m - n
  {
    more := steps;
    if n < m {
      more := ParkNext(more, cmd, n, tasks, supply, lateness);
      more := PushNext(more, cmd, n, tasks, supply, lateness);
      var answer;
      more, answer := AcknowledgeNext(more, cmd, n, tasks, supply, lateness);
      more := SettleNext(more, cmd, n, tasks, answer, supply, lateness);
      more := SendMore(more, cmd, n + 1, m, tasks, supply, lateness);
    }
  }

  /** Halfway between the moment the first request's timeout is due and the moment its number comes round.
      Without the slack, one lateness reaches from the former to here and another from here to the latter. */
  const HALFWAY := 477680

  lemma FirstLingers(cmd: Command, supply: set<Command>, lateness: nat) returns (steps: seq<Step>)
    requires cmd in supply && cmd.Fits() && cmd.needsResponse && !Slack(lateness)
    ensures TimedRun(steps, supply, lateness)
    ensures Lingering(After(steps), cmd, HALFWAY / CMD_RETRY_INTERVAL, {TIMEOUT_OF_FIRST})
  {
    steps := SendFirst(cmd, supply, lateness);
    var due := RESPONSE_TIMEOUT_RESET / CMD_RETRY_INTERVAL;
    steps := SendMore(steps, cmd, 1, due, {RESET_OF_FIRST, TIMEOUT_OF_FIRST}, supply, lateness);
    Extend(steps, Dequeue(RESET_OF_FIRST), supply, lateness);
    steps := steps + [Dequeue(RESET_OF_FIRST)];
    assert After(steps).queue == {TIMEOUT_OF_FIRST};
    Extend(steps, RunTask, supply, lateness);
    steps := steps + [RunTask];
    steps := SendMore(steps, cmd, due, HALFWAY / CMD_RETRY_INTERVAL, {TIMEOUT_OF_FIRST}, supply, lateness);
  }

  /** An acknowledgement just before the late timeout removes it, and is late in its turn. */
  lemma FirstIsAnsweredLate(cmd: Command, supply: set<Command>, lateness: nat) returns (steps: seq<Step>, answer: Task)
    requires cmd in supply && cmd.Fits() && cmd.needsResponse && !Slack(lateness)
    ensures TimedRun(steps, supply, lateness) && answer.seqNo == 1 && answer.due == HALFWAY
    ensures Lingering(After(steps), cmd, HALFWAY / CMD_RETRY_INTERVAL, {answer})
  {
    steps := FirstLingers(cmd, supply, lateness);
    answer := Task(Response, 1, 1, HALFWAY, After(steps).serial);
    Extend(steps, AckArrives(1), supply, lateness);
    steps := steps + [AckArrives(1)];
    assert After(steps).queue == {TIMEOUT_OF_FIRST, answer};
    Extend(steps, RemoveTimeout, supply, lateness);
    steps := steps + [RemoveTimeout];
    assert After(steps).queue == {answer};
    Extend(steps, RemoveReset, supply, lateness);
    steps := steps + [RemoveReset];
    assert After(steps).queue == {answer};
  }

  /** Without the slack, commands that all fit bring a number round onto a parked entry. */
  lemma LateCollision(cmd: Command, supply: set<Command>, lateness: nat) returns (steps: seq<Step>)
    requires cmd in supply && cmd.Fits() && cmd.needsResponse && !Slack(lateness)
    ensures TimedRun(steps, supply, lateness) && !ParksFreely(After(steps))
    ensures After(steps).pending == map[1 := Ticket(cmd, 1)] && After(steps).issued == SEQ_NO_COUNT + 1
  {
    var answer;
    steps, answer := FirstIsAnsweredLate(cmd, supply, lateness);
    steps := SendMore(steps, cmd, HALFWAY / CMD_RETRY_INTERVAL, SEQ_NO_COUNT, {answer}, supply, lateness);
    Extend(steps, Allocate(cmd), supply, lateness);
    steps := steps + [Allocate(cmd)];
  }

  /** Parking is collision-free in every run over a supply of commands exactly when no command that can be
      framed waits for an answer, or every command can be framed and tasks are never later than the slack. */
  lemma NumbersAreSafeExactlyWhen(supply: set<Command>, lateness: nat)
    ensures (forall steps :: TimedRun(steps, supply, lateness) ==> ParksFreely(After(steps)))
            <==> NoneAwaitsAnswer(supply) || (AllFit(supply) && Slack(lateness))
  {
    if NoneAwaitsAnswer(supply) || (AllFit(supply) && Slack(lateness)) {
      forall steps | TimedRun(steps, supply, lateness)
        ensures ParksFreely(After(steps))
      {
        SenderWorksOnSupply(steps, supply, lateness);
        if !NoneAwaitsAnswer(supply) && After(steps).sender.Numbered? {
          FreshNumberIsFree(steps, supply, lateness);
        }
      }
    } else {
      var cmd :| cmd in supply && cmd.Fits() && cmd.needsResponse;
      if AllFit(supply) {
        var steps := LateCollision(cmd, supply, lateness);
      } else {
        var oversized :| oversized in supply && !oversized.Fits();
        var steps := Collision(cmd, oversized, supply, lateness);
      }
    }
  }
}
