/** Which request an acknowledgement settles.

    An acknowledgement carries a number only. It settles whatever is parked under the number when its task
    runs, and that task may be late. With a little more slack than timers need, an acknowledgement that
    arrived while a request was parked never reaches another one; an acknowledgement that arrived with
    nothing parked under its number may. */
module SendAdapterAnswers {
  import opened Options
  import opened FrameLayout
  import opened OnceTable
  import opened SendAdapter
  import opened SendAdapterSafety
  import opened SendAdapterTiming
  import opened SendAdapterSupply

  /** A timer, the answer that removed it, and a second answer may each be late. */
  ghost predicate AnswerSlack(lateness: nat) {
    300000 + 3 * lateness < 655360
  }

  /** An answer that found its request parked arrived while that request was being pushed, or before the
      last moment it can have been parked. */
  ghost predicate AnswerDated(s: State, t: Task, lateness: nat) {
    if t.id in s.posts then t.due <= s.posts[t.id] + RESPONSE_TIMEOUT + 2 * lateness
    else OwnPush(s, t.id) && t.due <= s.now
  }

  ghost predicate IsOwnedAnswer(s: State, t: Task) {
    Live(s, t) && t.kind == Response && t.id != 0
  }

  ghost predicate AnswersDated(s: State, lateness: nat) {
    forall t | IsOwnedAnswer(s, t) :: AnswerDated(s, t, lateness)
  }

  ghost predicate AnswersRecent(s: State) {
    forall t | IsOwnedAnswer(s, t) :: s.issued < t.id + SEQ_NO_COUNT
  }

  lemma ArrivalIsDated(s: State, k: Word, lateness: nat)
    requires NumbersAgree(s) && Paced(s) && TimersDated(s) && EntriesDated(s, lateness) && Prompt(s, lateness)
    requires Enabled(s, AckArrives(k)) && k in s.pending
    ensures AnswerDated(s, Task(Response, k, s.pending[k].id, s.now, s.serial), lateness)
  {
    var id := s.pending[k].id;
    assert EntryDated(s, k, id, lateness);
    if id in s.posts {
      assert !OwnPush(s, id);
      if OwnTimer(s, id) {
        var t :| Live(s, t) && t.kind == Timeout && t.id == id;
      } else {
        var t :| Live(s, t) && t.kind == Response && t.seqNo == k && t.due <= s.posts[id] + RESPONSE_TIMEOUT + lateness;
      }
    }
  }

  lemma OldAnswersOnly(s: State, step: Step, t: Task)
    requires Enabled(s, step) && IsOwnedAnswer(Apply(s, step), t)
    ensures IsOwnedAnswer(s, t)
            || (step == AckArrives(t.seqNo) && t.seqNo in s.pending
                && t == Task(Response, t.seqNo, s.pending[t.seqNo].id, s.now, s.serial))
  {
  }

  lemma AnswerStaysDated(s: State, step: Step, t: Task, lateness: nat)
    requires NumbersAgree(s) && Paced(s) && AnswerDated(s, t, lateness) && Enabled(s, step)
    ensures AnswerDated(Apply(s, step), t, lateness)
  {
  }

  lemma StepKeepsAnswersDated(s: State, step: Step, lateness: nat)
    requires Dated(s, lateness) && AnswersDated(s, lateness) && Prompt(s, lateness) && Enabled(s, step)
    ensures AnswersDated(Apply(s, step), lateness)
  {
    forall t | IsOwnedAnswer(Apply(s, step), t)
      ensures AnswerDated(Apply(s, step), t, lateness)
    {
      OldAnswersOnly(s, step, t);
      if !IsOwnedAnswer(s, t) {
        ArrivalIsDated(s, t.seqNo, lateness);
      }
      AnswerStaysDated(s, step, t, lateness);
    }
  }

  lemma StepKeepsAnswersRecent(s: State, step: Step, lateness: nat)
    requires Dated(s, lateness) && AnswersDated(s, lateness) && AnswersRecent(s)
    requires Prompt(s, lateness) && AnswerSlack(lateness) && Enabled(s, step)
    ensures AnswersRecent(Apply(s, step))
  {
    forall t | IsOwnedAnswer(Apply(s, step), t)
      ensures Apply(s, step).issued < t.id + SEQ_NO_COUNT
    {
      OldAnswersOnly(s, step, t);
      if step.Allocate? {
        assert AnswerDated(s, t, lateness);
        PostsAreRecent(s, t.id, RESPONSE_TIMEOUT + 3 * lateness);
      }
    }
  }

  lemma {:induction false} EveryTimedRunDatesAnswers(steps: seq<Step>, supply: set<Command>, lateness: nat)
    requires AnswerSlack(lateness) && AllFit(supply) && TimedRun(steps, supply, lateness)
    ensures Dated(After(steps), lateness) && AnswersDated(After(steps), lateness) && AnswersRecent(After(steps))
  {
    EveryTimedRunIsDated(steps, supply, lateness);
    if |steps| > 0 {
      var before, step := steps[..|steps| - 1], steps[|steps| - 1];
      EveryTimedRunDatesAnswers(before, supply, lateness);
      StepKeepsAnswersDated(After(before), step, lateness);
      StepKeepsAnswersRecent(After(before), step, lateness);
    }
  }

  /** An answer that arrived while a request was parked finds that request, or nothing. */
  lemma AnswerFindsItsOwn(steps: seq<Step>, supply: set<Command>, lateness: nat, t: Task)
    requires AnswerSlack(lateness) && AllFit(supply) && TimedRun(steps, supply, lateness)
    requires IsOwnedAnswer(After(steps), t) && t.seqNo in After(steps).pending
    ensures After(steps).pending[t.seqNo].id == t.id
  {
    EveryTimedRunDatesAnswers(steps, supply, lateness);
    var s := After(steps);
    var id := s.pending[t.seqNo].id;
    if t.id <= id {
      SameResidue(t.id, id);
    } else {
      SameResidue(id, t.id);
    }
  }

  /** Over a whole run, an answer settled the request it was given for exactly if that request, or any, was
      parked under its number when it arrived. */
  lemma {:induction false} AnswersHitTheirOwn(steps: seq<Step>, supply: set<Command>, lateness: nat)
    requires AnswerSlack(lateness) && AllFit(supply) && TimedRun(steps, supply, lateness)
    ensures forall i | 0 <= i < |After(steps).settled| && After(steps).settled[i].result == Answered ::
              After(steps).settled[i].source == After(steps).settled[i].id <==> After(steps).settled[i].source != 0
  {
    if |steps| > 0 {
      var before := steps[..|steps| - 1];
      AnswersHitTheirOwn(before, supply, lateness);
      var s := After(before);
      if steps[|steps| - 1].RunTask? && s.running.value.kind == Response && s.running.value.seqNo in s.pending {
        EveryTimedRunDatesAnswers(before, supply, lateness);
        if s.running.value.id != 0 {
          AnswerFindsItsOwn(before, supply, lateness, s.running.value);
        }
      }
    }
  }

  /** Its task. */
  const STALE := Task(Response, 1, 0, 0, 0)

  lemma StaleAnswerArrives(supply: set<Command>) returns (steps: seq<Step>)
    ensures TimedRun(steps, supply, 0) && After(steps) == START.(queue := {STALE}, serial := 1)
  {
    steps := [];
    Extend(steps, AckArrives(1), supply, 0);
    steps := steps + [AckArrives(1)];
    assert After(steps) == START.(queue := {STALE}, serial := 1, receiver := ResponsePosted(1));
    assert Without({STALE}, Timeout, 1) == {STALE} && Without({STALE}, Reset, 1) == {STALE};
    Extend(steps, RemoveTimeout, supply, 0);
    steps := steps + [RemoveTimeout];
    Extend(steps, RemoveReset, supply, 0);
    steps := steps + [RemoveReset];
  }

  /** The other case does happen: an acknowledgement that comes before its number is handed out settles the
      first request that is. */
  lemma StaleAnswerSettles(cmd: Command) returns (steps: seq<Step>)
    requires cmd.Fits() && cmd.needsResponse
    ensures TimedRun(steps, {cmd}, 0) && After(steps).settled == [Settled(1, cmd, Answered, 0)]
  {
    steps := StaleAnswerArrives({cmd});
    Extend(steps, Allocate(cmd), {cmd}, 0);
    steps := steps + [Allocate(cmd)];
    Extend(steps, Insert, {cmd}, 0);
    steps := steps + [Insert];
    assert After(steps).pending == map[1 := Ticket(cmd, 1)] && After(steps).queue == {STALE};
    Extend(steps, Dequeue(STALE), {cmd}, 0);
    steps := steps + [Dequeue(STALE)];
    Extend(steps, RunTask, {cmd}, 0);
    steps := steps + [RunTask];
  }
}
