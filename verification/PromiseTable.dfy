/** The client's table of waiting promises, the last link from a command to its result.

    A call registers its promise under a command id of its own before the service hears of it. Results
    arrive later, in any number and order; the table takes a promise out as it resolves it. */
module PromiseTable {
  import opened Options
  import opened OnceTable
  import Callbacks = RotateCallbacks
  import opened RotateCallbackResults

  type ExecResult = Callbacks.ExecResult

  /** The handle through which one promise is resolved. */
  datatype Promise = Promise(deferred: nat)

  datatype Resolution = Resolution(napiCmdId: string, promise: Promise, result: ExecResult)

  datatype Event =
    | Register(napiCmdId: string, promise: Promise)
    | Withdraw(napiCmdId: string)
    | Fulfil(napiCmdId: string, result: ExecResult)

  datatype Table = Table(promiseParams: map<string, Promise>, resolved: seq<Resolution>)

  const EMPTY := Table(map[], [])

  function Apply(s: Table, event: Event): Table {
    match event
    case Register(id, promise) => s.(promiseParams := s.promiseParams[id := promise])
    case Withdraw(id) => s.(promiseParams := s.promiseParams - {id})
    case Fulfil(id, result) =>
      if id !in s.promiseParams then s
      else Table(s.promiseParams - {id}, s.resolved + [Resolution(id, s.promiseParams[id], result)])
  }

  /** The table after a log of events. */
  function After(t: Table, events: seq<Event>): Table {
    if |events| == 0 then t else Apply(After(t, events[..|events| - 1]), events[|events| - 1])
  }

  /** The client side of the service: promises registered, withdrawn when a call fails at once, and
      fulfilled when a result comes in. */
  class JsMechManagerService {
    var promiseParams: map<string, Promise>
    ghost var resolved: seq<Resolution>

    ghost function View(): Table
      reads this
    {
      Table(promiseParams, resolved)
    }

    constructor ()
      ensures View() == EMPTY
    {
      promiseParams, resolved := map[], [];
    }

    method RegisterPromise(cmdId: string, promise: Promise)
      modifies this
      ensures View() == Apply(old(View()), Register(cmdId, promise))
      ensures promiseParams == old(promiseParams)[cmdId := promise] && resolved == old(resolved)
    {
      promiseParams := promiseParams[cmdId := promise];
    }

    method WithdrawPromise(cmdId: string)
      modifies this
      ensures View() == Apply(old(View()), Withdraw(cmdId))
      ensures promiseParams == old(promiseParams) - {cmdId} && resolved == old(resolved)
    {
      promiseParams := promiseParams - {cmdId};
    }

    /** Takes the promise out and resolves it; a result nobody waits for is dropped. */
    method RotatePromiseFulfillment(cmdId: string, result: ExecResult) returns (taken: Option<Promise>)
      modifies this
      ensures View() == Apply(old(View()), Fulfil(cmdId, result))
      ensures taken.Some? <==> cmdId in old(promiseParams)
      ensures taken.Some? ==> taken.value == old(promiseParams)[cmdId]
      ensures promiseParams == old(promiseParams) - {cmdId}
      ensures resolved ==
              old(resolved) + if taken.Some? then [Resolution(cmdId, taken.value, result)] else []
    {
      if cmdId !in promiseParams {
        return None;
      }
      taken := Some(promiseParams[cmdId]);
      promiseParams := promiseParams - {cmdId};
      resolved := resolved + [Resolution(cmdId, taken.value, result)];
    }
  }

  /** Positions at which a command id was registered, and at which it was resolved. */
  ghost function Registrations(events: seq<Event>, id: string): set<nat> {
    set i: nat | i < |events| && events[i].Register? && events[i].napiCmdId == id
  }

  ghost function Resolutions(s: Table, id: string): set<nat> {
    set i: nat | i < |s.resolved| && s.resolved[i].napiCmdId == id
  }

  lemma RegistrationsGrow(events: seq<Event>, id: string)
    requires |events| > 0
    ensures var last := events[|events| - 1];
            |Registrations(events, id)| ==
            |Registrations(events[..|events| - 1], id)| + if last.Register? && last.napiCmdId == id then 1 else 0
  {
    var before := Registrations(events[..|events| - 1], id);
    var last := events[|events| - 1];
    assert Registrations(events, id) ==
           before + if last.Register? && last.napiCmdId == id then {|events| - 1} else {};
  }

  lemma ResolutionsGrow(s: Table, event: Event, id: string)
    ensures |Resolutions(Apply(s, event), id)| ==
            |Resolutions(s, id)| + if event.Fulfil? && event.napiCmdId == id && id in s.promiseParams then 1 else 0
  {
    var s' := Apply(s, event);
    if event.Fulfil? && event.napiCmdId in s.promiseParams {
      assert Resolutions(s', id) == Resolutions(s, id) + if event.napiCmdId == id then {|s.resolved|} else {};
    } else {
      assert Resolutions(s', id) == Resolutions(s, id);
    }
  }

  /** However often the service repeats itself, a promise is resolved at most once per registration: the
      table never holds more than what was registered and not yet resolved. */
  lemma {:induction false} NeverMoreThanRegistered(events: seq<Event>, id: string)
    ensures |Resolutions(After(EMPTY, events), id)| + (if id in After(EMPTY, events).promiseParams then 1 else 0)
            <= |Registrations(events, id)|
  {
    if |events| == 0 {
      assert Resolutions(EMPTY, id) == {} && Registrations(events, id) == {};
    } else {
      NeverMoreThanRegistered(events[..|events| - 1], id);
      RegistrationsGrow(events, id);
      ResolutionsGrow(After(EMPTY, events[..|events| - 1]), events[|events| - 1], id);
    }
  }

  ghost predicate DistinctRegistrations(events: seq<Event>) {
    forall i, j | 0 <= i < j < |events| && events[i].Register? && events[j].Register? ::
      events[i].napiCmdId != events[j].napiCmdId
  }

  lemma RegisteredOnce(events: seq<Event>, id: string)
    requires DistinctRegistrations(events)
    ensures |Registrations(events, id)| <= 1
  {
    if i: nat :| i in Registrations(events, id) {
      forall j <- Registrations(events, id)
        ensures j == i
      {
        assert !(i < j) && !(j < i);
      }
      assert Registrations(events, id) == {i};
    } else {
      assert Registrations(events, id) == {};
    }
  }

  /** With distinct command ids, every promise is resolved at most once. */
  lemma ResolvedAtMostOnce(events: seq<Event>, id: string)
    requires DistinctRegistrations(events)
    ensures |Resolutions(After(EMPTY, events), id)| <= 1
  {
    NeverMoreThanRegistered(events, id);
    RegisteredOnce(events, id);
  }

  /** A result for a registered promise resolves it at once, and nothing that follows, short of a new
      registration, undoes that or resolves it again. */
  lemma {:induction false} FirstResultWins(t: Table, id: string, result: ExecResult, later: seq<Event>)
    requires id in t.promiseParams
    requires forall i | 0 <= i < |later| :: later[i].napiCmdId == id ==> later[i].Fulfil?
    ensures var t' := After(Apply(t, Fulfil(id, result)), later);
            && id !in t'.promiseParams
            && t.resolved + [Resolution(id, t.promiseParams[id], result)] <= t'.resolved
            && |Resolutions(t', id)| == |Resolutions(t, id)| + 1
  {
    var start := Apply(t, Fulfil(id, result));
    if |later| == 0 {
      ResolutionsGrow(t, Fulfil(id, result), id);
    } else {
      var before := later[..|later| - 1];
      FirstResultWins(t, id, result, before);
      ResolutionsGrow(After(start, before), later[|later| - 1], id);
    }
  }

  /** A promise withdrawn, and not registered anew, is never resolved, whatever results come in. */
  lemma {:induction false} WithdrawnIsNeverResolved(t: Table, id: string, later: seq<Event>)
    requires forall e <- later :: e.Register? ==> e.napiCmdId != id
    ensures var t' := After(Apply(t, Withdraw(id)), later);
            && id !in t'.promiseParams
            && t.resolved <= t'.resolved
            && forall i | |t.resolved| <= i < |t'.resolved| :: t'.resolved[i].napiCmdId != id
  {
    if |later| > 0 {
      WithdrawnIsNeverResolved(t, id, later[..|later| - 1]);
      assert later[|later| - 1] in later;
    }
  }

  /** Results for other promises leave this one alone. */
  lemma {:induction false} OthersDoNotTouch(t: Table, id: string, events: seq<Event>)
    requires forall i | 0 <= i < |events| :: events[i].napiCmdId != id
    ensures var t' := After(t, events);
            && (id in t'.promiseParams <==> id in t.promiseParams)
            && (id in t.promiseParams ==> t'.promiseParams[id] == t.promiseParams[id])
            && |Resolutions(t', id)| == |Resolutions(t, id)|
  {
    if |events| > 0 {
      var before := events[..|events| - 1];
      OthersDoNotTouch(t, id, before);
      ResolutionsGrow(After(t, before), events[|events| - 1], id);
    }
  }

  lemma {:induction false} AfterJoins(t: Table, first: seq<Event>, second: seq<Event>)
    ensures After(t, first + second) == After(After(t, first), second)
  {
    if |second| == 0 {
      assert first + second == first;
    } else {
      var all := first + second;
      assert all[..|all| - 1] == first + second[..|second| - 1];
      AfterJoins(t, first, second[..|second| - 1]);
    }
  }

  /** The results a run of the service reports, as they reach the client. */
  function Deliveries(notices: seq<Callbacks.Notice>): seq<Event> {
    seq(|notices|, i requires 0 <= i < |notices| => Fulfil(notices[i].value.napiCmdId, notices[i].result))
  }

  /** The results among the events of a log. */
  function Fulfilments(events: seq<Event>): seq<Event> {
    if |events| == 0 then []
    else
      var last := events[|events| - 1];
      Fulfilments(events[..|events| - 1]) + if last.Fulfil? then [last] else []
  }

  lemma {:induction false} FulfilmentsAreEvents(events: seq<Event>, e: Event)
    ensures e in Fulfilments(events) <==> e in events && e.Fulfil?
  {
    if |events| > 0 {
      FulfilmentsAreEvents(events[..|events| - 1], e);
      assert events == events[..|events| - 1] + [events[|events| - 1]];
    }
  }

  /** A waiting promise whose only events are results of one value, at least one, is resolved once and with
      that value, whatever happens to other promises in between. */
  lemma {:induction false} Delivered(t: Table, id: string, later: seq<Event>, result: ExecResult)
    requires id in t.promiseParams && Fulfil(id, result) in later
    requires forall e <- later | e.napiCmdId == id :: e == Fulfil(id, result)
    ensures var t' := After(t, later);
            && id !in t'.promiseParams && |Resolutions(t', id)| == |Resolutions(t, id)| + 1
            && Resolution(id, t.promiseParams[id], result) in t'.resolved
  {
    var before, last := later[..|later| - 1], later[|later| - 1];
    assert later == before + [last];
    var t0 := After(t, before);
    ResolutionsGrow(t0, last, id);
    if Fulfil(id, result) in before {
      Delivered(t, id, before, result);
    } else {
      OthersDoNotTouch(t, id, before);
      assert Apply(t0, last).resolved[|t0.resolved|] == Resolution(id, t.promiseParams[id], result);
    }
  }

  lemma NoticeIsAsked(s: Callbacks.State, j: nat)
    requires Callbacks.Inv(s) && Accounted(s) && j < |s.notices|
    ensures var id := s.notices[j].id; id in s.asked && s.asked[id].callback == s.notices[j].value
  {
    assert s.notices[j].id in s.parked;
  }

  /** Only one command of the run was asked for under each command id. */
  ghost predicate DistinctCommands(asked: map<nat, Callbacks.Request>) {
    forall a <- asked, b <- asked | a != b :: asked[a].callback.napiCmdId != asked[b].callback.napiCmdId
  }

  /** The log registers the promise once, at `p`, never withdraws it, and has results for it only later. */
  ghost predicate WaitsFrom(events: seq<Event>, p: nat, cmdId: string) {
    && p < |events| && events[p].Register? && events[p].napiCmdId == cmdId
    && forall j | 0 <= j < |events| && j != p && events[j].napiCmdId == cmdId :: events[j].Fulfil? && j > p
  }

  /** All results the run has for a command id are the result of the one command that bears it. */
  lemma ResultsAreTheCommands(steps: seq<Callbacks.Step>, supply: set<Callbacks.Request>, window: nat, id: nat,
                              e: Event)
    requires Callbacks.AllTimed(supply) && RatedRun(steps, supply, window)
    requires var s := Callbacks.After(steps);
             && id in s.asked && DistinctCommands(s.asked)
             && e in Deliveries(s.notices) && e.napiCmdId == s.asked[id].callback.napiCmdId
    ensures Some(e.result) == FirstReport(steps, id)
  {
    var s := Callbacks.After(steps);
    RatedRunIsCovered(steps, supply, window);
    EveryRatedRun(steps, supply, window);
    var j :| 0 <= j < |s.notices| && Deliveries(s.notices)[j] == e;
    NoticeIsAsked(s, j);
    assert s.notices[j].id == id;
  }

  lemma ResultIsDelivered(steps: seq<Callbacks.Step>, supply: set<Callbacks.Request>, window: nat, id: nat)
    returns (result: ExecResult)
    requires Callbacks.AllTimed(supply) && RatedRun(steps, supply, window)
    requires id in Callbacks.After(steps).born
    requires Callbacks.After(steps).now > Callbacks.After(steps).born[id] + window
    ensures var s := Callbacks.After(steps);
            && id in s.asked && Some(result) == FirstReport(steps, id)
            && Fulfil(s.asked[id].callback.napiCmdId, result) in Deliveries(s.notices)
  {
    OneOwnResult(steps, supply, window, id);
    var s := Callbacks.After(steps);
    var i :| i in ResultsOf(s.notices, id);
    result := s.notices[i].result;
    assert Deliveries(s.notices)[i] == Fulfil(s.asked[id].callback.napiCmdId, result);
  }

  /** End to end, for requests that pass the guard, at a sustainable rate, with distinct command ids. In
      every log in which the client receives what the run reports, among whatever registrations and
      withdrawals of other promises, the promise of a command whose window has passed is resolved exactly
      once, with the report of that command's own response or timeout, whichever came first. */
  lemma PromiseGetsItsResult(steps: seq<Callbacks.Step>, supply: set<Callbacks.Request>, window: nat, id: nat,
                             events: seq<Event>, p: nat)
    requires Callbacks.AllTimed(supply) && RatedRun(steps, supply, window)
    requires id in Callbacks.After(steps).born
    requires Callbacks.After(steps).now > Callbacks.After(steps).born[id] + window
    requires DistinctCommands(Callbacks.After(steps).asked)
    requires Fulfilments(events) == Deliveries(Callbacks.After(steps).notices)
    requires id in Callbacks.After(steps).asked ==>
               WaitsFrom(events, p, Callbacks.After(steps).asked[id].callback.napiCmdId)
    ensures id in Callbacks.After(steps).asked && FirstReport(steps, id).Some?
    ensures var cmdId, t := Callbacks.After(steps).asked[id].callback.napiCmdId, After(EMPTY, events);
            && |Resolutions(t, cmdId)| == 1
            && Resolution(cmdId, events[p].promise, FirstReport(steps, id).value) in t.resolved
  {
    var result := ResultIsDelivered(steps, supply, window, id);
    var s := Callbacks.After(steps);
    var cmdId := s.asked[id].callback.napiCmdId;
    forall e | e in events && e.Fulfil? && e.napiCmdId == cmdId
      ensures e.result == result
    {
      FulfilmentsAreEvents(events, e);
      ResultsAreTheCommands(steps, supply, window, id, e);
    }
    FulfilmentsAreEvents(events, Fulfil(cmdId, result));
    PromiseIsDelivered(events, p, cmdId, result);
  }

  lemma PromiseIsDelivered(events: seq<Event>, p: nat, cmdId: string, result: ExecResult)
    requires WaitsFrom(events, p, cmdId) && Fulfil(cmdId, result) in events
    requires forall e | e in events && e.Fulfil? && e.napiCmdId == cmdId :: e.result == result
    ensures var t := After(EMPTY, events);
            && |Resolutions(t, cmdId)| == 1
            && Resolution(cmdId, events[p].promise, result) in t.resolved
  {
    var before, later := events[..p], events[p + 1..];
    var j :| 0 <= j < |events| && events[j] == Fulfil(cmdId, result);
    assert later[j - p - 1] == Fulfil(cmdId, result);
    OthersDoNotTouch(EMPTY, cmdId, before);
    var registered := Apply(After(EMPTY, before), events[p]);
    assert events[..p + 1][..p] == before;
    assert After(EMPTY, events[..p + 1]) == registered;
    Delivered(registered, cmdId, later, result);
    AfterJoins(EMPTY, events[..p + 1], later);
    assert events == events[..p + 1] + later;
    assert Resolutions(EMPTY, cmdId) == {};
    ResolutionsGrow(After(EMPTY, before), events[p], cmdId);
  }
}
