/** What holds of the transport however its three threads interleave, with no assumption on time. */
module SendAdapterSafety {
  import opened Options
  import opened FrameLayout
  import opened OnceTable
  import opened SendAdapter

  /** The task is queued or being executed. */
  ghost predicate Live(s: State, t: Task) {
    t in s.queue || s.running == Some(t)
  }

  ghost predicate PushInProgress(s: State, seqNo: Word) {
    (s.sender.Inserted? || s.sender.ResetPosted?) && s.sender.seqNo == seqNo
  }

  ghost predicate Scheduled(s: State, kind: TaskKind, seqNo: Word) {
    exists t :: Live(s, t) && t.kind == kind && t.seqNo == seqNo
  }

  /** Something will still settle the request parked under `seqNo`. */
  ghost predicate Covered(s: State, seqNo: Word) {
    PushInProgress(s, seqNo) || Scheduled(s, Timeout, seqNo) || Scheduled(s, Response, seqNo)
  }

  ghost predicate NoOrphan(s: State) {
    forall k <- s.pending :: Covered(s, k)
  }

  /** The numbers themselves: the k-th command numbered carries k mod 65536, everywhere it appears. */
  ghost predicate NumbersAgree(s: State) {
    && s.last == s.issued % SEQ_NO_COUNT
    && (s.sender.Numbered? || s.sender.Inserted? || s.sender.ResetPosted? ==>
          s.issued > 0 && s.sender.seqNo == s.issued % SEQ_NO_COUNT)
    && (forall k <- s.pending :: s.pending[k].id <= s.issued && s.pending[k].id % SEQ_NO_COUNT == k)
    && (forall t | Live(s, t) && (t.kind != Response || t.id != 0) ::
          t.id <= s.issued && t.id % SEQ_NO_COUNT == t.seqNo)
    && (forall k <- s.pending :: s.pending[k].id > 0)
    && (forall id <- s.inserted :: id <= s.issued)
    && (s.sender.Numbered? ==> s.issued !in s.inserted)
  }

  /** Whoever holds recvEventMutex_ keeps the other out, and while the callback still has the timeout
      to remove, its answer is on its way to whatever is parked under the number. */
  ghost predicate LockDiscipline(s: State) {
    && (s.receiver.Quiet? || !s.sender.ResetPosted?)
    && (s.receiver.ResponsePosted? && s.receiver.seqNo in s.pending ==>
          PushInProgress(s, s.receiver.seqNo) || Scheduled(s, Response, s.receiver.seqNo))
  }

  ghost predicate Inv(s: State) {
    NumbersAgree(s) && LockDiscipline(s) && NoOrphan(s) && ExactlyOnce(s.inserted, s.pending, s.settled)
  }

  lemma StartIsGood()
    ensures Inv(START)
  {
  }

  lemma StepKeepsTaskNumbers(s: State, step: Step)
    requires NumbersAgree(s) && Enabled(s, step)
    ensures forall t | Live(Apply(s, step), t) && (t.kind != Response || t.id != 0) ::
              t.id <= Apply(s, step).issued && t.id % SEQ_NO_COUNT == t.seqNo
  {
    var s' := Apply(s, step);
    forall t | Live(s', t) && (t.kind != Response || t.id != 0)
      ensures t.id <= s'.issued && t.id % SEQ_NO_COUNT == t.seqNo
    {
      assert Live(s, t) || t.id == s.issued || (step.AckArrives? && t.id == OwnerOf(s.pending, t.seqNo));
    }
  }

  lemma StepKeepsEntryNumbers(s: State, step: Step)
    requires NumbersAgree(s) && Enabled(s, step)
    ensures var s' := Apply(s, step);
            && (forall k <- s'.pending :: 0 < s'.pending[k].id <= s'.issued && s'.pending[k].id % SEQ_NO_COUNT == k)
            && (forall id <- s'.inserted :: id <= s'.issued)
  {
  }

  lemma StepKeepsNumbers(s: State, step: Step)
    requires NumbersAgree(s) && Enabled(s, step)
    ensures NumbersAgree(Apply(s, step))
  {
    StepKeepsTaskNumbers(s, step);
    StepKeepsEntryNumbers(s, step);
  }

  /** A scheduled task stays scheduled until it runs or is removed by name. */
  lemma StaysScheduled(s: State, step: Step, kind: TaskKind, seqNo: Word)
    requires Enabled(s, step) && Scheduled(s, kind, seqNo) && kind != Reset
    requires step.RunTask? ==> s.running.value.kind != kind || s.running.value.seqNo != seqNo
    requires step.RemoveTimeout? ==> kind != Timeout || s.receiver.seqNo != seqNo
    ensures Scheduled(Apply(s, step), kind, seqNo)
  {
    var t :| Live(s, t) && t.kind == kind && t.seqNo == seqNo;
    assert Live(Apply(s, step), t);
  }

  lemma StepKeepsLock(s: State, step: Step)
    requires LockDiscipline(s) && Enabled(s, step)
    ensures LockDiscipline(Apply(s, step))
  {
    var s' := Apply(s, step);
    if s'.receiver.ResponsePosted? && s'.receiver.seqNo in s'.pending {
      var k := s'.receiver.seqNo;
      if step.AckArrives? {
        assert Live(s', Task(Response, k, OwnerOf(s.pending, k), s.now, s.serial));
      } else if !PushInProgress(s', k) {
        StaysScheduled(s, step, Response, k);
      }
    }
  }

  lemma StepKeepsCovered(s: State, step: Step, k: Word)
    requires LockDiscipline(s) && Enabled(s, step) && k in Apply(s, step).pending
    requires k in s.pending ==> Covered(s, k)
    ensures Covered(Apply(s, step), k)
  {
    var s' := Apply(s, step);
    if PushInProgress(s, k) {
      if step.PostTimeout? {
        assert Live(s', Task(Timeout, k, s.issued, s.now + RESPONSE_TIMEOUT, s.serial));
      }
    } else if !PushInProgress(s', k) {
      if Scheduled(s, Response, k) {
        StaysScheduled(s, step, Response, k);
      } else {
        StaysScheduled(s, step, Timeout, k);
      }
    }
  }

  lemma StepKeepsCover(s: State, step: Step)
    requires Inv(s) && Enabled(s, step)
    ensures LockDiscipline(Apply(s, step)) && NoOrphan(Apply(s, step))
  {
    StepKeepsLock(s, step);
    forall k <- Apply(s, step).pending
      ensures Covered(Apply(s, step), k)
    {
      StepKeepsCovered(s, step, k);
    }
  }

  lemma SettleKeepsExactlyOnce(s: State, seqNo: Word, outcome: Outcome, source: nat)
    requires NumbersAgree(s) && ExactlyOnce(s.inserted, s.pending, s.settled)
    ensures var s' := Settle(s, seqNo, outcome, source); ExactlyOnce(s'.inserted, s'.pending, s'.settled)
  {
    if seqNo in s.pending {
      assert DistinctIds(s.pending);
      SettlingKeepsExactlyOnce(s.inserted, s.pending, s.settled, seqNo, outcome, source);
    }
  }

  lemma StepKeepsExactlyOnce(s: State, step: Step)
    requires Inv(s) && Enabled(s, step)
    ensures var s' := Apply(s, step); ExactlyOnce(s'.inserted, s'.pending, s'.settled)
  {
    if step.Insert? && s.sender.seqNo !in s.pending {
      InsertingKeepsExactlyOnce(s.inserted, s.pending, s.settled, s.sender.seqNo, s.sender.cmd, s.issued);
    } else if step.RunTask? {
      var task := s.running.value;
      SettleKeepsExactlyOnce(s, task.seqNo, Answered, task.id);
      SettleKeepsExactlyOnce(s, task.seqNo, TimedOut, task.id);
    }
  }

  lemma StepKeepsInv(s: State, step: Step)
    requires Inv(s) && Enabled(s, step)
    ensures Inv(Apply(s, step))
  {
    StepKeepsNumbers(s, step);
    StepKeepsCover(s, step);
    StepKeepsExactlyOnce(s, step);
  }

  /** The invariant holds after every run. */
  lemma {:induction false} EveryRunIsGood(steps: seq<Step>)
    requires Runs(steps)
    ensures Inv(After(steps))
  {
    if |steps| == 0 {
      StartIsGood();
    } else {
      var before := steps[..|steps| - 1];
      EveryRunIsGood(before);
      StepKeepsInv(After(before), steps[|steps| - 1]);
    }
  }

  /** One command, one result: in every run a parked request has had no callback while it is still
      parked and exactly one afterwards, fired on its own command. */
  lemma OneCallbackPerRequest(steps: seq<Step>, id: nat)
    requires Runs(steps) && id in After(steps).inserted
    ensures |ResultsOf(After(steps).settled, id)| == if IsWaiting(After(steps).pending, id) then 0 else 1
    ensures forall i <- ResultsOf(After(steps).settled, id) ::
              After(steps).settled[i].value == After(steps).inserted[id]
  {
    EveryRunIsGood(steps);
    ResultIsUnique(After(steps).inserted, After(steps).pending, After(steps).settled, id);
  }

  /** While a request is parked, a timer for it is scheduled, an answer is queued, or its own push has
      not finished: nothing is ever left waiting for ever. */
  lemma NothingIsOrphaned(steps: seq<Step>, seqNo: Word)
    requires Runs(steps) && seqNo in After(steps).pending
    ensures Covered(After(steps), seqNo)
  {
    EveryRunIsGood(steps);
  }
}
