/** Foreground-time accounting: for how many seconds each application was in the foreground, kept up to
    date from state changes and reported for the five longest. */
module AppForeground {
  const APP_STATE_FOREGROUND := 2
  const APP_STATE_BACKGROUND := 4
  const APP_STATE_TERMINATED := 5
  const TOP_COUNT := 5
  const TWO_TO_64 := 0x1_0000_0000_0000_0000

  /** Seconds since the epoch. */
  type Time = n: int | -0x8000_0000_0000_0000 <= n < 0x8000_0000_0000_0000
  type Duration = n: nat | n < 0x1_0000_0000_0000_0000

  datatype AppForegroundInfo = AppForegroundInfo(startTime: Time, duration: Duration, state: int)
  type Infos = map<string, AppForegroundInfo>

  datatype Event = Event(bundleName: string, state: int, time: Time)
  datatype Entry = Entry(appName: string, existenceTime: Duration)

  /** Unsigned addition of a signed difference, wrapping as the cast does. */
  function Added(duration: Duration, from: Time, to: Time): Duration {
    (duration + to - from) % TWO_TO_64
  }

  // What the accounting is for ---------------------------------------------------------------------------

  /** Entering the foreground (2) and leaving it for the background (4) or for good (5). */
  predicate Significant(e: Event, bundleName: string) {
    && e.bundleName == bundleName
    && e.state in {2, 4, 5}
  }

  /** Whether the application's last significant event up to second `t` put it in the foreground. */
  predicate Held(log: seq<Event>, bundleName: string, t: int) {
    if |log| == 0 then false
    else
      var e := log[|log| - 1];
      if e.time <= t && Significant(e, bundleName) then e.state == 2
      else Held(log[..|log| - 1], bundleName, t)
  }

  /** For how many of the `n` seconds from `from` on the application was held in the foreground. */
  ghost function Seconds(log: seq<Event>, bundleName: string, from: int, n: nat): nat {
    if n == 0 then 0
    else Seconds(log, bundleName, from, n - 1) + (if Held(log, bundleName, from + n - 1) then 1 else 0)
  }

  /** Times do not run backwards, and all lie in [from, to]. */
  ghost predicate InOrder(log: seq<Event>, from: int, to: int) {
    && (forall i, j | 0 <= i < j < |log| :: log[i].time <= log[j].time)
    && (forall i | 0 <= i < |log| :: from <= log[i].time <= to)
  }

  // What the manager keeps -------------------------------------------------------------------------------

  /** One state change on the records. */
  function Record(infos: Infos, e: Event): Infos {
    if e.bundleName !in infos then
      if e.state == APP_STATE_FOREGROUND then
        infos[e.bundleName := AppForegroundInfo(e.time, 0, APP_STATE_FOREGROUND)]
      else infos
    else
      var info := infos[e.bundleName];
      infos[e.bundleName :=
        if e.state == APP_STATE_FOREGROUND then
          if info.state != APP_STATE_FOREGROUND then info.(state := APP_STATE_FOREGROUND, startTime := e.time) else info
        else if e.state in {APP_STATE_BACKGROUND, APP_STATE_TERMINATED} && info.state == APP_STATE_FOREGROUND then
          info.(state := e.state, duration := Added(info.duration, info.startTime, e.time))
        else info]
  }

  function After(log: seq<Event>): Infos {
    if |log| == 0 then map[] else Record(After(log[..|log| - 1]), log[|log| - 1])
  }

  /** The duration reported for a record: an interval still open is closed at `now`. */
  function Total(info: AppForegroundInfo, now: Time): Duration {
    if info.state == APP_STATE_FOREGROUND then Added(info.duration, info.startTime, now) else info.duration
  }

  /** The duration on record for an application, 0 without a record. */
  function Counted(infos: Infos, bundleName: string, now: Time): Duration {
    if bundleName in infos then Total(infos[bundleName], now) else 0
  }

  predicate Running(infos: Infos, bundleName: string) {
    bundleName in infos && infos[bundleName].state == APP_STATE_FOREGROUND
  }

  lemma {:induction false} SecondsAreBounded(log: seq<Event>, bundleName: string, from: int, n: nat)
    ensures Seconds(log, bundleName, from, n) <= n
  {
    if n > 0 {
      SecondsAreBounded(log, bundleName, from, n - 1);
    }
  }

  /** An event does not change the seconds before it. */
  lemma {:induction false} LaterEventsDoNotCount(log: seq<Event>, e: Event, bundleName: string, from: int, n: nat)
    requires from + n <= e.time
    ensures Seconds(log + [e], bundleName, from, n) == Seconds(log, bundleName, from, n)
  {
    if n > 0 {
      LaterEventsDoNotCount(log, e, bundleName, from, n - 1);
      assert (log + [e])[..|log|] == log;
    }
  }

  /** Past the last event, nothing changes any more. */
  lemma {:induction false} HeldFromNowOn(log: seq<Event>, bundleName: string, from: int, now: int, t: int)
    requires InOrder(log, from, now) && now <= t
    ensures Held(log, bundleName, t) == Held(log, bundleName, now)
  {
    if |log| > 0 {
      HeldFromNowOn(log[..|log| - 1], bundleName, from, now, t);
    }
  }

  lemma {:induction false} SecondsFromNowOn(log: seq<Event>, bundleName: string, from: int, n: nat, more: nat)
    requires InOrder(log, from, from + n)
    ensures Seconds(log, bundleName, from, n + more) ==
            Seconds(log, bundleName, from, n) + (if Held(log, bundleName, from + n) then more else 0)
  {
    if more > 0 {
      SecondsFromNowOn(log, bundleName, from, n, more - 1);
      HeldFromNowOn(log, bundleName, from, from + n, from + n + more - 1);
    }
  }

  // What the records amount to, whatever the clock does --------------------------------------------------

  /** Whether the application's last significant event in the order of the log put it in the foreground. */
  predicate HeldLast(log: seq<Event>, bundleName: string) {
    if |log| == 0 then false
    else
      var e := log[|log| - 1];
      if Significant(e, bundleName) then e.state == 2
      else HeldLast(log[..|log| - 1], bundleName)
  }

  /** The clock's steps from event to event and on to `now`, forwards or backwards, while the application
      was held. */
  function SignedSeconds(log: seq<Event>, bundleName: string, now: int): int {
    if |log| == 0 then 0
    else
      var e := log[|log| - 1];
      SignedSeconds(log[..|log| - 1], bundleName, e.time) + if HeldLast(log, bundleName) then now - e.time else 0
  }

  lemma ModularStep(a: int, b: int)
    ensures (a % TWO_TO_64 + b) % TWO_TO_64 == (a + b) % TWO_TO_64
  {
    var q := a / TWO_TO_64;
    assert a == TWO_TO_64 * q + a % TWO_TO_64;
    MultiplesDropOut(a % TWO_TO_64 + b, q);
  }

  lemma {:induction false} MultiplesDropOut(a: int, q: int)
    ensures (a + TWO_TO_64 * q) % TWO_TO_64 == a % TWO_TO_64
    decreases if q < 0 then -q else q
  {
    if q > 0 {
      MultiplesDropOut(a, q - 1);
      assert a + TWO_TO_64 * q == (a + TWO_TO_64 * (q - 1)) + TWO_TO_64;
    } else if q < 0 {
      MultiplesDropOut(a, q + 1);
      assert a + TWO_TO_64 * q == (a + TWO_TO_64 * (q + 1)) - TWO_TO_64;
    }
  }

  lemma ClockMoves(infos: Infos, bundleName: string, from: Time, to: Time)
    ensures Counted(infos, bundleName, to) ==
            if Running(infos, bundleName) then (Counted(infos, bundleName, from) + to - from) % TWO_TO_64
            else Counted(infos, bundleName, from)
  {
    if Running(infos, bundleName) {
      var info := infos[bundleName];
      ModularStep(info.duration + from - info.startTime, to - from);
    }
  }

  lemma EventRecorded(infos: Infos, e: Event, bundleName: string)
    ensures Counted(Record(infos, e), bundleName, e.time) == Counted(infos, bundleName, e.time)
    ensures Running(Record(infos, e), bundleName) ==
            if Significant(e, bundleName) then e.state == APP_STATE_FOREGROUND else Running(infos, bundleName)
  {
  }

  /** For every log, a duration is the signed sum modulo 2^64. So it is the signed sum exactly if that lies
      between 0 and 2^64, as it does when time never runs backwards; a negative sum wraps. */
  lemma {:induction false} DurationIsSignedSum(log: seq<Event>, bundleName: string, now: Time)
    ensures Counted(After(log), bundleName, now) == SignedSeconds(log, bundleName, now) % TWO_TO_64
    ensures Counted(After(log), bundleName, now) == SignedSeconds(log, bundleName, now) <==>
              0 <= SignedSeconds(log, bundleName, now) < TWO_TO_64
    ensures Running(After(log), bundleName) == HeldLast(log, bundleName)
  {
    if |log| > 0 {
      var init, e := log[..|log| - 1], log[|log| - 1];
      DurationIsSignedSum(init, bundleName, e.time);
      EventRecorded(After(init), e, bundleName);
      ClockMoves(After(log), bundleName, e.time, now);
      ModularStep(SignedSeconds(init, bundleName, e.time), now - e.time);
    }
  }

  /** An application has a record exactly if it ever came to the foreground. */
  lemma {:induction false} RecordedExactlyWhenSeen(log: seq<Event>, bundleName: string)
    ensures bundleName in After(log) <==> exists e <- log :: e.bundleName == bundleName && e.state == 2
  {
    if |log| > 0 {
      var init, e := log[..|log| - 1], log[|log| - 1];
      RecordedExactlyWhenSeen(init, bundleName);
      assert log == init + [e];
    }
  }

  // When time does not run backwards ---------------------------------------------------------------------

  lemma {:induction false} HeldIsHeldLast(log: seq<Event>, bundleName: string, from: int, now: int)
    requires InOrder(log, from, now)
    ensures Held(log, bundleName, now) == HeldLast(log, bundleName)
  {
    if |log| > 0 {
      HeldIsHeldLast(log[..|log| - 1], bundleName, from, now);
    }
  }

  lemma {:induction false} SignedSumIsSeconds(log: seq<Event>, bundleName: string, from: int, now: int)
    requires InOrder(log, from, now) && from <= now
    ensures SignedSeconds(log, bundleName, now) == Seconds(log, bundleName, from, now - from)
  {
    if |log| == 0 {
      NeverHeld(bundleName, from, now - from);
    } else {
      var init, e := log[..|log| - 1], log[|log| - 1];
      SignedSumIsSeconds(init, bundleName, from, e.time);
      LaterEventsDoNotCount(init, e, bundleName, from, e.time - from);
      assert init + [e] == log;
      SecondsFromNowOn(log, bundleName, from, e.time - from, now - e.time);
      HeldIsHeldLast(log, bundleName, from, e.time);
    }
  }

  /** For every log in which time does not run backwards, at any time after it: each application's
      duration is the number of seconds it was held in the foreground, and an application without a record
      was never held. The 64-bit sum does not wrap. */
  lemma DurationIsForegroundTime(log: seq<Event>, bundleName: string, from: Time, now: Time)
    requires InOrder(log, from, now) && from <= now
    ensures Counted(After(log), bundleName, now) == Seconds(log, bundleName, from, now - from)
    ensures Running(After(log), bundleName) == Held(log, bundleName, now)
  {
    DurationIsSignedSum(log, bundleName, now);
    SignedSumIsSeconds(log, bundleName, from, now);
    SecondsAreBounded(log, bundleName, from, now - from);
    HeldIsHeldLast(log, bundleName, from, now);
  }

  /** An interval whose end is before its start. */
  lemma ClockSetBack(bundleName: string, start: Time, end: Time, now: Time)
    requires end < start
    ensures var log := [Event(bundleName, 2, start), Event(bundleName, 4, end)];
            && SignedSeconds(log, bundleName, now) == end - start
            && Counted(After(log), bundleName, now) == TWO_TO_64 - (start - end)
  {
    var first, second := Event(bundleName, APP_STATE_FOREGROUND, start), Event(bundleName, APP_STATE_BACKGROUND, end);
    assert [first, second][..1] == [first] && [first][..0] == [];
    DurationIsSignedSum([first, second], bundleName, now);
    assert SignedSeconds([first], bundleName, end) == end - start;
  }

  lemma {:induction false} NeverHeld(bundleName: string, from: int, n: nat)
    ensures Seconds([], bundleName, from, n) == 0
  {
    if n > 0 {
      NeverHeld(bundleName, from, n - 1);
    }
  }

  // The report -------------------------------------------------------------------------------------------

  /** The entries a report is made of, one for each record. */
  ghost function Entries(infos: Infos, now: Time): set<Entry> {
    set app | app in infos :: Entry(app, Total(infos[app], now))
  }

  ghost predicate Descending(entries: seq<Entry>) {
    forall i, j | 0 <= i < j < |entries| :: entries[i].existenceTime >= entries[j].existenceTime
  }

  /** Where an entry belongs: after all entries at least as long. */
  ghost predicate BelongsAt(sorted: seq<Entry>, at: nat, e: Entry) {
    && at <= |sorted|
    && (forall j | 0 <= j < at :: sorted[j].existenceTime >= e.existenceTime)
    && (forall j | at <= j < |sorted| :: sorted[j].existenceTime <= e.existenceTime)
  }

  lemma InsertKeepsOrder(sorted: seq<Entry>, at: nat, e: Entry)
    requires Descending(sorted) && BelongsAt(sorted, at, e)
    ensures Descending(sorted[..at] + [e] + sorted[at..])
    ensures multiset(sorted[..at] + [e] + sorted[at..]) == multiset(sorted) + multiset{e}
  {
    var s := sorted[..at] + [e] + sorted[at..];
    forall i, j | 0 <= i < j < |s| ensures s[i].existenceTime >= s[j].existenceTime {
      assert s[i] == if i < at then sorted[i] else if i == at then e else sorted[i - 1];
      assert s[j] == if j < at then sorted[j] else if j == at then e else sorted[j - 1];
    }
    assert sorted == sorted[..at] + sorted[at..];
  }

  method InsertByDuration(sorted: seq<Entry>, e: Entry) returns (longer: seq<Entry>)
    requires Descending(sorted)
    ensures Descending(longer) && multiset(longer) == multiset(sorted) + multiset{e}
  {
    var at := 0;
    while at < |sorted| && sorted[at].existenceTime >= e.existenceTime
      invariant 0 <= at <= |sorted|
      invariant forall j | 0 <= j < at :: sorted[j].existenceTime >= e.existenceTime
    {
      at := at + 1;
    }
    InsertKeepsOrder(sorted, at, e);
    longer := sorted[..at] + [e] + sorted[at..];
  }

  /** A sort by descending duration; records of equal duration may come in any order. */
  method SortByDuration(entries: seq<Entry>) returns (sorted: seq<Entry>)
    ensures Descending(sorted) && multiset(sorted) == multiset(entries)
  {
    sorted := [];
    for i := 0 to |entries|
      invariant Descending(sorted) && multiset(sorted) == multiset(entries[..i])
    {
      assert entries[..i + 1] == entries[..i] + [entries[i]];
      sorted := InsertByDuration(sorted, entries[i]);
    }
    assert entries[..|entries|] == entries;
  }

  class MotionManager {
    var appForegroundInfos: Infos
    var appName: seq<string>
    var existenceTime: seq<Duration>

    constructor ()
      ensures appForegroundInfos == After([])
    {
      appForegroundInfos, appName, existenceTime := map[], [], [];
    }

    method UpdateAppForegroundInfo(bundleName: string, state: int, timeNow: Time)
      modifies this`appForegroundInfos
      ensures appForegroundInfos == Record(old(appForegroundInfos), Event(bundleName, state, timeNow))
      ensures appForegroundInfos - {bundleName} == old(appForegroundInfos) - {bundleName}
      ensures bundleName !in old(appForegroundInfos) ==>
                && (bundleName in appForegroundInfos <==> state == 2)
                && (state == 2 ==> appForegroundInfos[bundleName] == AppForegroundInfo(timeNow, 0, 2))
      ensures bundleName in old(appForegroundInfos) ==>
                && bundleName in appForegroundInfos
                && var was, now := old(appForegroundInfos)[bundleName], appForegroundInfos[bundleName];
                   if state == 2 && was.state != 2 then now == AppForegroundInfo(timeNow, was.duration, 2)
                   else if (state == 4 || state == 5) && was.state == 2 then
                     && now.startTime == was.startTime && now.state == state
                     && now.duration == (was.duration + timeNow - was.startTime) % 0x1_0000_0000_0000_0000
                   else now == was
    {
      if bundleName !in appForegroundInfos {
        if state == APP_STATE_FOREGROUND {
          appForegroundInfos := appForegroundInfos[bundleName := AppForegroundInfo(timeNow, 0, state)];
        }
        return;
      }
      var newForegroundInfo := appForegroundInfos[bundleName];
      if state == APP_STATE_FOREGROUND {
        if newForegroundInfo.state != APP_STATE_FOREGROUND {
          newForegroundInfo := newForegroundInfo.(state := APP_STATE_FOREGROUND, startTime := timeNow);
        }
      } else if state == APP_STATE_BACKGROUND || state == APP_STATE_TERMINATED {
        if newForegroundInfo.state == APP_STATE_FOREGROUND {
          var duration := Added(newForegroundInfo.duration, newForegroundInfo.startTime, timeNow);
          newForegroundInfo := newForegroundInfo.(state := state, duration := duration);
        }
      }
      appForegroundInfos := appForegroundInfos - {bundleName};
      appForegroundInfos := appForegroundInfos[bundleName := newForegroundInfo];
    }

    /** Reports the records of longest duration, at most five, and starts over. `order` is the sorted
        vector of which the report is the beginning. */
    method UpdateEndtimeAndCompute(timeNow: Time) returns (ghost order: seq<Entry>)
      modifies this
      ensures multiset(order) == multiset(Entries(old(appForegroundInfos), timeNow)) && Descending(order)
      ensures |appName| == |existenceTime| == if |order| < 5 then |order| else 5
      ensures forall i | 0 <= i < |appName| :: Entry(appName[i], existenceTime[i]) == order[i]
      ensures appForegroundInfos == map[]
    {
      var appInfos: seq<Entry> := [];
      var rest := appForegroundInfos.Keys;
      assert Restrict(appForegroundInfos, rest) == appForegroundInfos;
      while rest != {}
        invariant rest <= appForegroundInfos.Keys && appForegroundInfos == old(appForegroundInfos)
        invariant multiset(appInfos) + multiset(Entries(Restrict(appForegroundInfos, rest), timeNow)) ==
                  multiset(Entries(appForegroundInfos, timeNow))
        decreases |rest|
      {
        var app :| app in rest;
        var info := appForegroundInfos[app];
        if info.state == APP_STATE_FOREGROUND {
          info := info.(duration := Added(info.duration, info.startTime, timeNow));
        }
        TakeEntry(appForegroundInfos, rest, app, timeNow);
        appInfos := appInfos + [Entry(app, info.duration)];
        rest := rest - {app};
      }
      appInfos := SortByDuration(appInfos);
      order := appInfos;
      var topCount := if |appInfos| < TOP_COUNT then |appInfos| else TOP_COUNT;
      appName, existenceTime := [], [];
      for i := 0 to topCount
        invariant |appName| == |existenceTime| == i
        invariant forall j | 0 <= j < i :: Entry(appName[j], existenceTime[j]) == appInfos[j]
        invariant appForegroundInfos == old(appForegroundInfos)
      {
        appName := appName + [appInfos[i].appName];
        existenceTime := existenceTime + [appInfos[i].existenceTime];
      }
      appForegroundInfos := map[];
    }
  }

  ghost function Restrict(infos: Infos, keys: set<string>): Infos {
    map k | k in infos && k in keys :: infos[k]
  }

  lemma TakeEntry(infos: Infos, rest: set<string>, app: string, now: Time)
    requires rest <= infos.Keys && app in rest
    ensures multiset(Entries(Restrict(infos, rest), now)) ==
            multiset{Entry(app, Total(infos[app], now))} + multiset(Entries(Restrict(infos, rest - {app}), now))
  {
    var e := Entry(app, Total(infos[app], now));
    var all, fewer := Entries(Restrict(infos, rest), now), Entries(Restrict(infos, rest - {app}), now);
    assert e !in fewer;
    forall x ensures x in all <==> x == e || x in fewer {
      if x in all {
        var k :| k in Restrict(infos, rest) && x == Entry(k, Total(infos[k], now));
        assert k != app ==> k in Restrict(infos, rest - {app});
      }
      if x in fewer {
        var k :| k in Restrict(infos, rest - {app}) && x == Entry(k, Total(infos[k], now));
        assert k in Restrict(infos, rest);
      }
      assert x == e ==> app in Restrict(infos, rest);
    }
    assert all == {e} + fewer;
  }

  /** What the order of a report means: as many applications as there are records, up to five; each of
      them once, with the seconds it was held in the foreground; and none of them shorter than one that is
      left out. */
  lemma ReportIsTheLongest(log: seq<Event>, from: Time, now: Time, order: seq<Entry>, app: string)
    requires InOrder(log, from, now) && from <= now
    requires multiset(order) == multiset(Entries(After(log), now)) && Descending(order)
    ensures |order| == |After(log)|
    ensures app in After(log) <==> exists i | 0 <= i < |order| :: order[i].appName == app
    ensures forall i, j | 0 <= i < j < |order| :: order[i].appName != order[j].appName
    ensures forall i | 0 <= i < |order| ::
              order[i].existenceTime == Seconds(log, order[i].appName, from, now - from)
    ensures forall i | 0 <= i < 5 && i < |order| && app !in Reported(order) ::
              Seconds(log, app, from, now - from) <= order[i].existenceTime
  {
    var infos := After(log);
    EntriesAreDistinct(infos, now);
    assert |multiset(order)| == |order|;
    forall i | 0 <= i < |order|
      ensures order[i].appName in infos && order[i] == Entry(order[i].appName, Total(infos[order[i].appName], now))
      ensures order[i].existenceTime == Seconds(log, order[i].appName, from, now - from)
    {
      assert order[i] in multiset(order);
      DurationIsForegroundTime(log, order[i].appName, from, now);
    }
    NamesAreDistinct(infos, now, order);
    DurationIsForegroundTime(log, app, from, now);
    if app in infos {
      var e := Entry(app, Total(infos[app], now));
      assert e in multiset(order);
      var at :| 0 <= at < |order| && order[at] == e;
      assert order[at].appName == app;
    }
  }

  ghost function Reported(order: seq<Entry>): set<string> {
    set i | 0 <= i < |order| && i < 5 :: order[i].appName
  }

  lemma {:induction false} EntriesAreDistinct(infos: Infos, now: Time)
    ensures |Entries(infos, now)| == |infos|
    decreases |infos|
  {
    if app :| app in infos {
      var rest := infos - {app};
      EntriesAreDistinct(rest, now);
      assert Restrict(infos, infos.Keys) == infos && Restrict(infos, infos.Keys - {app}) == rest;
      TakeEntry(infos, infos.Keys, app, now);
      var e := Entry(app, Total(infos[app], now));
      assert e !in Entries(rest, now);
      assert multiset(Entries(infos, now)) == multiset({e} + Entries(rest, now));
      SameSet(Entries(infos, now), {e} + Entries(rest, now));
    }
  }

  lemma SameSet(a: set<Entry>, b: set<Entry>)
    requires multiset(a) == multiset(b)
    ensures a == b
  {
    forall e ensures e in a <==> e in b {
      assert e in a <==> e in multiset(a);
      assert e in b <==> e in multiset(b);
    }
  }

  lemma NamesAreDistinct(infos: Infos, now: Time, order: seq<Entry>)
    requires multiset(order) == multiset(Entries(infos, now))
    ensures forall i, j | 0 <= i < j < |order| :: order[i].appName != order[j].appName
  {
    forall i, j | 0 <= i < j < |order| ensures order[i].appName != order[j].appName {
      assert order[i] in multiset(order) && order[j] in multiset(order);
      assert multiset(Entries(infos, now))[order[i]] <= 1;
      if order[i] == order[j] {
        TwiceInSequence(order, i, j);
      }
    }
  }

  lemma TwiceInSequence(s: seq<Entry>, i: nat, j: nat)
    requires i < j < |s| && s[i] == s[j]
    ensures multiset(s)[s[i]] >= 2
  {
    assert s == s[..j] + [s[j]] + s[j + 1..];
    assert s[i] in multiset(s[..j]) by { assert s[..j][i] == s[i]; }
  }
}
