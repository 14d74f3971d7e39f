/** What the transport guarantees once time is taken into account.

    A framed send holds the send thread for at least 10 ms, so 65536 of them take at least 655360 ms; a
    request lives for about 300000 ms. As long as due tasks are started within the slack this leaves,
    a number is never handed out while anything still refers to its previous owner. */
module SendAdapterTiming {
  import opened Options
  import opened FrameLayout
  import opened OnceTable
  import opened SendAdapter
  import opened SendAdapterSafety

  /** Every due task has been started at most `lateness` ms after it was due. */
  ghost predicate Prompt(s: State, lateness: nat) {
    forall t | Live(s, t) :: s.now <= t.due + lateness
  }

  /** A run in which only commands of `supply` are sent and tasks are never later than `lateness`. */
  ghost predicate TimedRun(steps: seq<Step>, supply: set<Command>, lateness: nat)
    decreases |steps|
  {
    && Runs(steps)
    && Prompt(After(steps), lateness)
    && (|steps| > 0 ==>
          && TimedRun(steps[..|steps| - 1], supply, lateness)
          && (steps[|steps| - 1].Allocate? ==> steps[|steps| - 1].cmd in supply))
  }

  /** The slack: a timer and then an answer may each be late without the two adding up to a full round
      of numbers. */
  ghost predicate Slack(lateness: nat) {
    300000 + 2 * lateness < 655360
  }

  /** How many commands the send thread has finished with. */
  function Done(s: State): int {
    if s.sender.Idle? then s.issued else s.issued - 1
  }

  /** The last moment the send thread is known to have been free to go on. */
  function Base(s: State): nat {
    if s.sender.Sending? then s.sender.start else s.now
  }

  /** Since request `id` was posted, every command finished has taken its 10 ms. */
  ghost predicate Paced(s: State) {
    && Base(s) <= s.now
    && (s.sender.Idle? || s.issued > 0)
    && (forall id <- s.posts ::
          && id <= s.issued && s.posts[id] <= s.now
          && (id == s.issued ==> s.sender.Idle? || s.sender.Sending?)
          && Base(s) >= s.posts[id] + CMD_RETRY_INTERVAL * (Done(s) - id + 1))
  }

  ghost predicate TimersDated(s: State) {
    && (forall t | Live(s, t) && t.kind == Timeout :: t.id in s.posts && t.due == s.posts[t.id] + RESPONSE_TIMEOUT)
    && (forall t | Live(s, t) && t.kind == Reset ::
          if t.id in s.posts then t.due <= s.posts[t.id] + RESPONSE_TIMEOUT_RESET
          else s.sender.ResetPosted? && t.id == s.issued && t.due <= s.now + RESPONSE_TIMEOUT_RESET)
  }

  /** The request is being pushed right now. */
  ghost predicate OwnPush(s: State, id: nat) {
    (s.sender.Inserted? || s.sender.ResetPosted?) && id == s.issued
  }

  ghost predicate OwnTimer(s: State, id: nat) {
    exists t :: Live(s, t) && t.kind == Timeout && t.id == id
  }

  /** An answer is on its way that was queued before the request's own timer was overdue. */
  ghost predicate OwnAnswer(s: State, seqNo: Word, id: nat, lateness: nat)
    requires id in s.posts
  {
    exists t :: Live(s, t) && t.kind == Response && t.seqNo == seqNo
                && t.due <= s.posts[id] + RESPONSE_TIMEOUT + lateness
  }

  ghost predicate EntryDated(s: State, seqNo: Word, id: nat, lateness: nat) {
    OwnPush(s, id) || (id in s.posts && (OwnTimer(s, id) || OwnAnswer(s, seqNo, id, lateness)))
  }

  ghost predicate EntriesDated(s: State, lateness: nat) {
    && (forall k <- s.pending :: EntryDated(s, k, s.pending[k].id, lateness))
    && (s.receiver.ResponsePosted? && s.receiver.seqNo in s.pending ==>
          var id := s.pending[s.receiver.seqNo].id;
          OwnPush(s, id) || (id in s.posts && OwnAnswer(s, s.receiver.seqNo, id, lateness)))
  }

  /** Whatever still refers to a number was created fewer than 65536 numbers ago. */
  ghost predicate Recent(s: State) {
    && (forall k <- s.pending :: s.issued < s.pending[k].id + SEQ_NO_COUNT)
    && (forall t | Live(s, t) && t.kind != Response :: s.issued < t.id + SEQ_NO_COUNT)
  }

  ghost predicate Dated(s: State, lateness: nat) {
    Inv(s) && Paced(s) && TimersDated(s) && EntriesDated(s, lateness) && Recent(s)
  }

  /** Steps of the callback and of the receive thread leave the clock, the sender and the posts alone. */
  lemma OthersDoNotSend(s: State, step: Step)
    requires Enabled(s, step)
    requires step.AckArrives? || step.RemoveTimeout? || step.RemoveReset? || step.Dequeue? || step.RunTask?
    ensures var s' := Apply(s, step);
            s'.now == s.now && s'.sender == s.sender && s'.posts == s.posts && s'.issued == s.issued
  {
  }

  lemma SenderKeepsPace(s: State, step: Step)
    requires NumbersAgree(s) && Paced(s) && Enabled(s, step) && !step.DropFrame?
    requires !(step.AckArrives? || step.RemoveTimeout? || step.RemoveReset? || step.Dequeue? || step.RunTask?)
    ensures Paced(Apply(s, step))
  {
  }

  lemma StepKeepsPace(s: State, step: Step)
    requires NumbersAgree(s) && Paced(s) && Enabled(s, step) && !step.DropFrame?
    ensures Paced(Apply(s, step))
  {
    if step.AckArrives? || step.RemoveTimeout? || step.RemoveReset? || step.Dequeue? || step.RunTask? {
      OthersDoNotSend(s, step);
    } else {
      SenderKeepsPace(s, step);
    }
  }

  lemma OldTimersOnly(s: State, step: Step, t: Task)
    requires Enabled(s, step) && Live(Apply(s, step), t) && t.kind != Response
    ensures Live(s, t) || (t.id == s.issued && (step.PostReset? || step.PostTimeout?))
  {
  }

  lemma PostKeepsTimers(s: State, step: Step)
    requires NumbersAgree(s) && Paced(s) && TimersDated(s) && Enabled(s, step)
    requires step.PostReset? || step.PostTimeout?
    ensures TimersDated(Apply(s, step))
  {
  }

  lemma OtherStepKeepsTimers(s: State, step: Step)
    requires TimersDated(s) && Enabled(s, step) && !step.DropFrame?
    requires !step.PostReset? && !step.PostTimeout?
    ensures TimersDated(Apply(s, step))
  {
    var s' := Apply(s, step);
    assert s'.posts == s.posts;
    forall t | Live(s', t) && t.kind != Response
      ensures Live(s, t)
    {
      OldTimersOnly(s, step, t);
    }
  }

  lemma StepKeepsTimers(s: State, step: Step)
    requires NumbersAgree(s) && Paced(s) && TimersDated(s) && Enabled(s, step) && !step.DropFrame?
    ensures TimersDated(Apply(s, step))
  {
    if step.PostReset? || step.PostTimeout? {
      PostKeepsTimers(s, step);
    } else {
      OtherStepKeepsTimers(s, step);
    }
  }

  lemma AnswerSurvives(s: State, step: Step, k: Word, id: nat, lateness: nat)
    requires Enabled(s, step) && id in s.posts && OwnAnswer(s, k, id, lateness) && Paced(s)
    requires k in Apply(s, step).pending
    ensures id in Apply(s, step).posts && OwnAnswer(Apply(s, step), k, id, lateness)
  {
    var t :| Live(s, t) && t.kind == Response && t.seqNo == k && t.due <= s.posts[id] + RESPONSE_TIMEOUT + lateness;
    assert Live(Apply(s, step), t);
  }

  lemma TimerSurvives(s: State, step: Step, k: Word, id: nat)
    requires Enabled(s, step) && NumbersAgree(s) && OwnTimer(s, id) && id % SEQ_NO_COUNT == k
    requires k in Apply(s, step).pending && (step.RemoveTimeout? ==> s.receiver.seqNo != k)
    ensures OwnTimer(Apply(s, step), id)
  {
    var t :| Live(s, t) && t.kind == Timeout && t.id == id;
    assert Live(Apply(s, step), t);
  }

  lemma PushCompletes(s: State, k: Word, id: nat, lateness: nat)
    requires Enabled(s, PostTimeout) && OwnPush(s, id)
    ensures EntryDated(Apply(s, PostTimeout), k, id, lateness)
  {
    assert Live(Apply(s, PostTimeout), Task(Timeout, s.sender.seqNo, id, s.now + RESPONSE_TIMEOUT, s.serial));
  }

  lemma StepKeepsEntry(s: State, step: Step, k: Word, lateness: nat)
    requires NumbersAgree(s) && Paced(s) && EntriesDated(s, lateness)
    requires Enabled(s, step) && k in s.pending && k in Apply(s, step).pending
    ensures EntryDated(Apply(s, step), k, s.pending[k].id, lateness)
  {
    var id := s.pending[k].id;
    if OwnPush(s, id) {
      if step.PostTimeout? {
        PushCompletes(s, k, id, lateness);
      }
    } else if OwnAnswer(s, k, id, lateness) {
      AnswerSurvives(s, step, k, id, lateness);
    } else {
      TimerSurvives(s, step, k, id);
    }
  }

  /** An acknowledgement that arrives while its request's timer is not overdue was queued in time. */
  lemma ArrivingAnswer(s: State, k: Word, id: nat, lateness: nat)
    requires Paced(s) && TimersDated(s) && EntriesDated(s, lateness) && Prompt(s, lateness)
    requires Enabled(s, AckArrives(k)) && k in s.pending && id == s.pending[k].id && !OwnPush(s, id)
    ensures OwnAnswer(Apply(s, AckArrives(k)), k, id, lateness)
  {
    if OwnTimer(s, id) {
      var t :| Live(s, t) && t.kind == Timeout && t.id == id;
      assert Live(Apply(s, AckArrives(k)), Task(Response, k, OwnerOf(s.pending, k), s.now, s.serial));
    } else {
      AnswerSurvives(s, AckArrives(k), k, id, lateness);
    }
  }

  lemma OnlyAnAnswerMovesTheReceiver(s: State, step: Step, k: Word)
    requires Enabled(s, step) && Apply(s, step).receiver == ResponsePosted(k)
    ensures step == AckArrives(k) || s.receiver == ResponsePosted(k)
  {
  }

  lemma StepKeepsReceiver(s: State, step: Step, k: Word, lateness: nat)
    requires LockDiscipline(s) && Paced(s) && TimersDated(s) && EntriesDated(s, lateness) && Prompt(s, lateness)
    requires Enabled(s, step) && Apply(s, step).receiver == ResponsePosted(k)
    requires k in s.pending && k in Apply(s, step).pending && !OwnPush(s, s.pending[k].id)
    ensures s.pending[k].id in Apply(s, step).posts
    ensures OwnAnswer(Apply(s, step), k, s.pending[k].id, lateness)
  {
    OnlyAnAnswerMovesTheReceiver(s, step, k);
    if step == AckArrives(k) {
      ArrivingAnswer(s, k, s.pending[k].id, lateness);
    } else {
      AnswerSurvives(s, step, k, s.pending[k].id, lateness);
    }
  }

  lemma StepKeepsReceiverDated(s: State, step: Step, lateness: nat)
    requires LockDiscipline(s) && Paced(s) && TimersDated(s) && EntriesDated(s, lateness) && Prompt(s, lateness)
    requires Enabled(s, step)
    ensures var s' := Apply(s, step);
            s'.receiver.ResponsePosted? && s'.receiver.seqNo in s'.pending ==>
              var k := s'.receiver.seqNo;
              var id := s'.pending[k].id;
              OwnPush(s', id) || (id in s'.posts && OwnAnswer(s', k, id, lateness))
  {
    var s' := Apply(s, step);
    if s'.receiver.ResponsePosted? && s'.receiver.seqNo in s'.pending {
      var k := s'.receiver.seqNo;
      if k in s.pending && !OwnPush(s, s.pending[k].id) {
        StepKeepsReceiver(s, step, k, lateness);
      }
    }
  }

  lemma StepKeepsEntries(s: State, step: Step, lateness: nat)
    requires NumbersAgree(s) && LockDiscipline(s) && Paced(s) && TimersDated(s) && EntriesDated(s, lateness)
    requires Prompt(s, lateness) && Enabled(s, step)
    ensures EntriesDated(Apply(s, step), lateness)
  {
    var s' := Apply(s, step);
    forall k <- s'.pending
      ensures EntryDated(s', k, s'.pending[k].id, lateness)
    {
      if k in s.pending {
        StepKeepsEntry(s, step, k, lateness);
      }
    }
    StepKeepsReceiverDated(s, step, lateness);
  }

  /** Of what the number goes round past, everything would be overdue by now. */
  lemma PostsAreRecent(s: State, id: nat, limit: nat)
    requires Paced(s) && (s.sender.Idle? || s.sender.Sending?) && id in s.posts
    requires s.now <= s.posts[id] + limit && limit < CMD_RETRY_INTERVAL * SEQ_NO_COUNT
    ensures Done(s) + 1 < id + SEQ_NO_COUNT
  {
  }

  lemma AllocationKeepsRecent(s: State, step: Step, lateness: nat)
    requires NumbersAgree(s) && Paced(s) && TimersDated(s) && EntriesDated(s, lateness)
    requires Prompt(s, lateness) && Slack(lateness) && Enabled(s, step) && step.Allocate?
    ensures Recent(Apply(s, step))
  {
    forall k <- s.pending
      ensures s.issued + 1 < s.pending[k].id + SEQ_NO_COUNT
    {
      assert EntryDated(s, k, s.pending[k].id, lateness);
      PostsAreRecent(s, s.pending[k].id, RESPONSE_TIMEOUT + 2 * lateness);
    }
    forall t | Live(s, t) && t.kind != Response
      ensures s.issued + 1 < t.id + SEQ_NO_COUNT
    {
      PostsAreRecent(s, t.id, RESPONSE_TIMEOUT + 2 * lateness);
    }
  }

  lemma OtherStepKeepsRecent(s: State, step: Step)
    requires NumbersAgree(s) && Recent(s) && Enabled(s, step) && !step.Allocate?
    ensures Recent(Apply(s, step))
  {
    var s' := Apply(s, step);
    forall t | Live(s', t) && t.kind != Response
      ensures s'.issued < t.id + SEQ_NO_COUNT
    {
      assert Live(s, t) || t.id == s.issued;
    }
  }

  lemma StepKeepsRecent(s: State, step: Step, lateness: nat)
    requires Dated(s, lateness) && Prompt(s, lateness) && Slack(lateness) && Enabled(s, step) && !step.DropFrame?
    ensures Recent(Apply(s, step))
  {
    if step.Allocate? {
      AllocationKeepsRecent(s, step, lateness);
    } else {
      OtherStepKeepsRecent(s, step);
    }
  }

  ghost predicate AllFit(supply: set<Command>) {
    forall c <- supply :: c.Fits()
  }

  ghost predicate NoneAwaitsAnswer(supply: set<Command>) {
    forall c <- supply | c.Fits() :: !c.needsResponse
  }

  lemma {:induction false} SenderWorksOnSupply(steps: seq<Step>, supply: set<Command>, lateness: nat)
    requires TimedRun(steps, supply, lateness)
    ensures !After(steps).sender.Idle? ==> After(steps).sender.cmd in supply
  {
    if |steps| > 0 {
      SenderWorksOnSupply(steps[..|steps| - 1], supply, lateness);
    }
  }

  /** If every command can be framed and tasks are prompt, the dated invariant holds after every run. */
  lemma {:induction false} EveryTimedRunIsDated(steps: seq<Step>, supply: set<Command>, lateness: nat)
    requires Slack(lateness) && AllFit(supply) && TimedRun(steps, supply, lateness)
    ensures Dated(After(steps), lateness)
  {
    if |steps| > 0 {
      var before, step := steps[..|steps| - 1], steps[|steps| - 1];
      EveryTimedRunIsDated(before, supply, lateness);
      SenderWorksOnSupply(before, supply, lateness);
      var s := After(before);
      StepKeepsInv(s, step);
      StepKeepsPace(s, step);
      StepKeepsTimers(s, step);
      StepKeepsEntries(s, step, lateness);
      StepKeepsRecent(s, step, lateness);
    }
  }

  /** Within one round of numbers a residue has one owner. */
  lemma SameResidue(a: nat, b: nat)
    requires a % SEQ_NO_COUNT == b % SEQ_NO_COUNT && a <= b < a + SEQ_NO_COUNT
    ensures a == b
  {
  }

  /** The number just handed out is free: nothing is parked under it and no timer for it survives, so
      parking under it never meets an older entry. */
  lemma FreshNumberIsFree(steps: seq<Step>, supply: set<Command>, lateness: nat)
    requires Slack(lateness) && AllFit(supply) && TimedRun(steps, supply, lateness)
    requires After(steps).sender.Numbered?
    ensures After(steps).sender.seqNo !in After(steps).pending
    ensures forall t | Live(After(steps), t) && t.kind != Response :: t.seqNo != After(steps).sender.seqNo
  {
    EveryTimedRunIsDated(steps, supply, lateness);
    var s := After(steps);
    if s.sender.seqNo in s.pending {
      SameResidue(s.pending[s.sender.seqNo].id, s.issued);
    }
    forall t | Live(s, t) && t.kind != Response
      ensures t.seqNo != s.sender.seqNo
    {
      if t.id % SEQ_NO_COUNT == s.issued % SEQ_NO_COUNT {
        SameResidue(t.id, s.issued);
      }
    }
  }

  /** A number belongs to the last command it was given to: the entry parked under it is that
      command's, and so is every timer, so no timeout or reset ever reaches another command. */
  lemma NumberHasOneOwner(steps: seq<Step>, supply: set<Command>, lateness: nat, k: Word)
    requires Slack(lateness) && AllFit(supply) && TimedRun(steps, supply, lateness)
    requires k in After(steps).pending
    ensures forall j | After(steps).pending[k].id < j <= After(steps).issued :: j % SEQ_NO_COUNT != k
    ensures forall t | Live(After(steps), t) && t.kind != Response && t.seqNo == k :: t.id == After(steps).pending[k].id
  {
    EveryTimedRunIsDated(steps, supply, lateness);
    var s := After(steps);
    var id := s.pending[k].id;
    forall j | id < j <= s.issued
      ensures j % SEQ_NO_COUNT != k
    {
      if j % SEQ_NO_COUNT == k {
        SameResidue(id, j);
      }
    }
    forall t | Live(s, t) && t.kind != Response && t.seqNo == k
      ensures t.id == id
    {
      SameResidue(if t.id <= id then t.id else id, if t.id <= id then id else t.id);
    }
  }

  /** Over a whole run, every timeout callback was fired by the command's own timer. */
  lemma {:induction false} TimeoutsHitTheirOwn(steps: seq<Step>, supply: set<Command>, lateness: nat)
    requires Slack(lateness) && AllFit(supply) && TimedRun(steps, supply, lateness)
    ensures forall i | 0 <= i < |After(steps).settled| ::
              After(steps).settled[i].result == TimedOut ==>
                After(steps).settled[i].source == After(steps).settled[i].id
  {
    if |steps| > 0 {
      var before := steps[..|steps| - 1];
      TimeoutsHitTheirOwn(before, supply, lateness);
      var s := After(before);
      if steps[|steps| - 1].RunTask? && s.running.value.kind == Timeout && s.running.value.seqNo in s.pending {
        assert Live(s, s.running.value);
        NumberHasOneOwner(before, supply, lateness, s.running.value.seqNo);
      }
    }
  }

  /** Liveness with a bound: once the timers of a request have been posted, 300000 ms and twice the
      lateness later it has been settled. */
  lemma SettledInTime(steps: seq<Step>, supply: set<Command>, lateness: nat, id: nat)
    requires Slack(lateness) && AllFit(supply) && TimedRun(steps, supply, lateness)
    requires id in After(steps).inserted && id in After(steps).posts
    requires After(steps).now > After(steps).posts[id] + 300000 + 2 * lateness
    ensures |ResultsOf(After(steps).settled, id)| == 1
  {
    EveryTimedRunIsDated(steps, supply, lateness);
    OneCallbackPerRequest(steps, id);
    var s := After(steps);
    forall k <- s.pending
      ensures s.pending[k].id != id
    {
      assert EntryDated(s, k, s.pending[k].id, lateness);
    }
  }
}
