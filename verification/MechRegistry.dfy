/** The registry of connected devices: records ordered by id, updated through several paths. */
module MechRegistry {
  import opened Options

  const INT32_MAX := 0x7FFF_FFFF
  type Int32 = n: int | -0x8000_0000 <= n < 0x8000_0000

  datatype MechType = UNKNOWN_TYPE | PORTABLE_GIMBAL | DESKTOP_GIMBAL | WHEEL_BASE
  datatype AttachmentState = UNKNOWN | ATTACHED | DETACHED

  datatype MechInfo = MechInfo(
    mechId: Int32,
    mechType: MechType,
    mechName: string,
    mac: string,
    state: AttachmentState,
    gattConnectState: bool,
    pairState: bool,
    hidState: bool,
    isFirstConnect: bool,
    deviceIdentifier: nat)

  /** The order of the set: by id, which therefore determines the record. */
  ghost predicate Ordered(infos: seq<MechInfo>) {
    forall i, j | 0 <= i < j < |infos| :: infos[i].mechId < infos[j].mechId
  }

  predicate HasId(infos: seq<MechInfo>, id: int) {
    exists r <- infos :: r.mechId == id
  }

  /** The id tried after `k` collisions: one up each time, round to 0 before INT32_MAX. The remainder is
      the truncating one of the source, so a negative id climbs to 0 first. */
  function Candidate(start: Int32, k: nat): int {
    if start + k < 0 || k == 0 then start + k else (start + k) % INT32_MAX
  }

  /** `(id + 1) % INT32_MAX` with the remainder of the source language. */
  function TruncatedSuccessor(id: Int32): (next: Int32)
    requires id < INT32_MAX
  {
    if id + 1 < 0 then id + 1 else (id + 1) % INT32_MAX
  }

  lemma CandidateSteps(start: Int32, k: nat)
    requires k < INT32_MAX && start < INT32_MAX
    ensures -0x8000_0000 <= Candidate(start, k) < INT32_MAX
    ensures Candidate(start, k + 1) == TruncatedSuccessor(Candidate(start, k))
  {
    if start + k >= 0 {
      var m := INT32_MAX;
      var q, r := (start + k) / m, (start + k) % m;
      assert start + k == m * q + r;
      if r + 1 < m {
        RemainderOf(m, q, r + 1);
      } else {
        RemainderOf(m, q + 1, 0);
      }
    }
  }

  lemma MultiplesAreSpaced(m: nat, d: int)
    ensures d >= 1 ==> m * d >= m
    ensures d <= -1 ==> m * d <= 0 - m
  {
    if d >= 1 {
      assert m * d == m + m * (d - 1);
    } else if d <= -1 {
      assert m * d == 0 - m - m * (-d - 1);
    }
  }

  lemma RemainderOf(m: nat, q: int, r: nat)
    requires r < m
    ensures (m * q + r) % m == r
  {
    var x := m * q + r;
    assert x == m * (x / m) + x % m;
    assert m * (x / m - q) == r - x % m;
    MultiplesAreSpaced(m, x / m - q);
  }

  lemma CloseNumbersDiffer(a: nat, b: nat, m: nat)
    requires a < b < a + m
    ensures a % m != b % m
  {
    assert a == m * (a / m) + a % m && b == m * (b / m) + b % m;
    assert m * (b / m - a / m) == b - a - (b % m - a % m);
    MultiplesAreSpaced(m, b / m - a / m);
  }

  lemma CandidatesDiffer(start: Int32, j: nat, k: nat)
    requires j < k < INT32_MAX && start < INT32_MAX
    ensures Candidate(start, j) != Candidate(start, k)
  {
    if start + j >= 0 {
      CloseNumbersDiffer(start + j, start + k, INT32_MAX);
      assert Candidate(start, j) == (start + j) % INT32_MAX;
    }
  }

  ghost function IdSet(infos: seq<MechInfo>): set<int> {
    set r <- infos :: r.mechId as int
  }

  lemma {:induction false} FewIds(infos: seq<MechInfo>)
    ensures |IdSet(infos)| <= |infos|
  {
    if |infos| > 0 {
      FewIds(infos[1..]);
      assert infos == [infos[0]] + infos[1..];
      assert IdSet(infos) == {infos[0].mechId as int} + IdSet(infos[1..]);
    }
  }

  lemma SubsetIsSmaller(a: set<int>, b: set<int>)
    requires a <= b
    ensures |a| <= |b|
  {
    assert |b| == |b - a| + |a| by {
      assert (b - a) * a == {} && (b - a) + a == b;
    }
  }

  /** The ids tried in the first `k` rounds. */
  ghost function Tried(start: Int32, k: nat): set<int> {
    if k == 0 then {} else Tried(start, k - 1) + {Candidate(start, k - 1)}
  }

  lemma {:induction false} TriedAreDistinct(start: Int32, k: nat)
    requires k <= INT32_MAX && start < INT32_MAX
    ensures |Tried(start, k)| == k
    ensures forall v <- Tried(start, k) :: exists j: nat | j < k :: v == Candidate(start, j)
  {
    if k > 0 {
      TriedAreDistinct(start, k - 1);
      if Candidate(start, k - 1) in Tried(start, k - 1) {
        var j: nat :| j < k - 1 && Candidate(start, k - 1) == Candidate(start, j);
        CandidatesDiffer(start, j, k - 1);
      }
      forall v <- Tried(start, k) ensures exists j: nat | j < k :: v == Candidate(start, j) {
        if v in Tried(start, k - 1) {
          var j: nat :| j < k - 1 && v == Candidate(start, j);
          assert j < k && v == Candidate(start, j);
        } else {
          assert v == Candidate(start, k - 1);
        }
      }
    }
  }

  /** Why the search ends: as many rounds fail as there are records, at most. */
  lemma FailuresNeedRecords(infos: seq<MechInfo>, start: Int32, k: nat)
    requires k <= INT32_MAX && start < INT32_MAX
    requires forall j: nat | j < k :: HasId(infos, Candidate(start, j))
    ensures k <= |infos|
  {
    TriedAreDistinct(start, k);
    FewIds(infos);
    forall v <- Tried(start, k) ensures v in IdSet(infos) {
      var j: nat :| j < k && v == Candidate(start, j);
      assert HasId(infos, Candidate(start, j));
    }
    SubsetIsSmaller(Tried(start, k), IdSet(infos));
  }

  /** The first free id counting from `start`, as the registry looks for it. */
  ghost predicate IsFirstFree(infos: seq<MechInfo>, start: Int32, k: nat) {
    && !HasId(infos, Candidate(start, k))
    && forall j: nat | j < k :: HasId(infos, Candidate(start, j))
  }

  /** A free id is taken when all between it and the wanted one are in use: those from the wanted one up, or,
      after the step from INT32_MAX - 1 to 0, those up to the end and from 0 on. */
  ghost predicate NothingFreeBefore(infos: seq<MechInfo>, start: int, chosen: int) {
    if start <= chosen then forall v | start <= v < chosen :: HasId(infos, v)
    else
      && 0 <= chosen < 0x7FFF_FFFF
      && (forall v | start <= v < 0x7FFF_FFFF :: HasId(infos, v))
      && (forall v | 0 <= v < chosen :: HasId(infos, v))
  }

  lemma CandidateWithoutLap(start: Int32, k: nat)
    requires start + k < INT32_MAX
    ensures Candidate(start, k) == start + k
  {
  }

  lemma CandidateAfterLap(start: Int32, k: nat)
    requires start < INT32_MAX && 0 < k < INT32_MAX && start + k >= INT32_MAX
    ensures Candidate(start, k) == start + k - INT32_MAX < start
  {
    RemainderOf(INT32_MAX, 1, start + k - INT32_MAX);
  }

  lemma FirstFreeIsNearest(infos: seq<MechInfo>, start: Int32, k: nat)
    requires IsFirstFree(infos, start, k) && k < INT32_MAX && (k > 0 ==> start < INT32_MAX)
    ensures NothingFreeBefore(infos, start, Candidate(start, k))
    ensures k > 0 <==> HasId(infos, start)
    ensures Candidate(start, k) == start || Candidate(start, k) < 0x7FFF_FFFF
  {
    assert k > 0 ==> HasId(infos, Candidate(start, 0));
    if k > 0 {
      if start + k < INT32_MAX {
        CandidateWithoutLap(start, k);
      } else {
        CandidateAfterLap(start, k);
        forall v | 0 <= v < Candidate(start, k) ensures HasId(infos, v) {
          CandidateAfterLap(start, v + INT32_MAX - start);
        }
      }
      forall v | start <= v < start + k && v < INT32_MAX ensures HasId(infos, v) {
        CandidateWithoutLap(start, v - start);
      }
    }
  }

  /** Where a record with this id belongs in the order. */
  ghost predicate SplitsAt(infos: seq<MechInfo>, at: nat, id: int) {
    && at <= |infos|
    && (forall i | 0 <= i < at :: infos[i].mechId < id)
    && (forall i | at <= i < |infos| :: infos[i].mechId > id)
  }

  ghost predicate UniqueMacs(infos: seq<MechInfo>) {
    forall i, j | 0 <= i < j < |infos| :: infos[i].mac != infos[j].mac
  }

  /** The registry as its users think of it: a map from mac address to record. */
  ghost function ByMac(infos: seq<MechInfo>): map<string, MechInfo>
    requires UniqueMacs(infos)
  {
    map r | r in infos :: r.mac := r
  }

  /** Changing fields other than the mac of one record is an update of the map at that record's mac. */
  lemma UpdateIsByMac(infos: seq<MechInfo>, at: nat, info: MechInfo)
    requires UniqueMacs(infos) && at < |infos| && info.mac == infos[at].mac
    ensures UniqueMacs(infos[at := info])
    ensures infos[at].mac in ByMac(infos) && ByMac(infos)[infos[at].mac] == infos[at]
    ensures ByMac(infos[at := info]) == ByMac(infos)[info.mac := info]
  {
    var infos' := infos[at := info];
    forall i, j | 0 <= i < j < |infos'| ensures infos'[i].mac != infos'[j].mac {
      assert infos[i].mac != infos[j].mac;
    }
    MacMapAt(infos, at);
    MacMapAt(infos', at);
    var m, m' := ByMac(infos), ByMac(infos');
    forall mac ensures mac in m' <==> mac in m {
      if mac in m {
        var i :| 0 <= i < |infos| && infos[i].mac == mac;
        MacMapAt(infos', i);
      }
      if mac in m' {
        var i :| 0 <= i < |infos'| && infos'[i].mac == mac;
        MacMapAt(infos, i);
      }
    }
    forall mac | mac in m && mac != info.mac ensures m'[mac] == m[mac] {
      var i :| 0 <= i < |infos| && infos[i].mac == mac;
      MacMapAt(infos, i);
      MacMapAt(infos', i);
    }
  }

  lemma MacMapAt(infos: seq<MechInfo>, i: nat)
    requires UniqueMacs(infos) && i < |infos|
    ensures infos[i].mac in ByMac(infos) && ByMac(infos)[infos[i].mac] == infos[i]
  {
    assert infos[i] in infos;
  }

  lemma InsertKeepsMacsUnique(infos: seq<MechInfo>, at: nat, info: MechInfo, infos': seq<MechInfo>)
    requires UniqueMacs(infos) && at <= |infos| && infos' == infos[..at] + [info] + infos[at..]
    requires forall i | 0 <= i < |infos| :: infos[i].mac != info.mac
    ensures UniqueMacs(infos')
  {
    forall i, j | 0 <= i < j < |infos'| ensures infos'[i].mac != infos'[j].mac {
      assert infos'[i] == if i < at then infos[i] else if i == at then info else infos[i - 1];
      assert infos'[j] == if j < at then infos[j] else if j == at then info else infos[j - 1];
    }
  }

  lemma InsertedMembers(infos: seq<MechInfo>, at: nat, info: MechInfo, r: MechInfo)
    requires at <= |infos|
    ensures r in infos[..at] + [info] + infos[at..] <==> r in infos || r == info
  {
    assert infos == infos[..at] + infos[at..];
  }

  /** Adding a record with a new mac is an update of the map. */
  lemma InsertIsByMac(infos: seq<MechInfo>, at: nat, info: MechInfo)
    requires UniqueMacs(infos) && at <= |infos| && info.mac !in ByMac(infos)
    ensures UniqueMacs(infos[..at] + [info] + infos[at..])
    ensures ByMac(infos[..at] + [info] + infos[at..]) == ByMac(infos)[info.mac := info]
  {
    var infos' := infos[..at] + [info] + infos[at..];
    forall i | 0 <= i < |infos| ensures infos[i].mac != info.mac {
      MacMapAt(infos, i);
    }
    InsertKeepsMacsUnique(infos, at, info, infos');
    var m := ByMac(infos)[info.mac := info];
    forall r: MechInfo ensures r in infos' <==> r.mac in m && m[r.mac] == r {
      InsertedMembers(infos, at, info, r);
      if r in infos {
        var i :| 0 <= i < |infos| && infos[i] == r;
        MacMapAt(infos, i);
      }
    }
    MembersMakeTheMap(infos', m);
  }

  /** Removing the records of a mac removes it from the map. */
  lemma RemovalIsByMac(infos: seq<MechInfo>, mac: string)
    requires UniqueMacs(infos)
    ensures UniqueMacs(WithoutMac(infos, mac))
    ensures ByMac(WithoutMac(infos, mac)) == ByMac(infos) - {mac}
  {
    RemovalKeepsMacsUnique(infos, mac);
    forall r: MechInfo ensures r in WithoutMac(infos, mac) <==> r in infos && r.mac != mac {
      WithoutMacKeepsTheOthers(infos, mac, r);
    }
    MembersMakeTheMap(WithoutMac(infos, mac), ByMac(infos) - {mac});
  }

  lemma {:induction false} RemovalKeepsMacsUnique(infos: seq<MechInfo>, mac: string)
    requires UniqueMacs(infos)
    ensures UniqueMacs(WithoutMac(infos, mac))
  {
    if |infos| > 0 {
      RemovalKeepsMacsUnique(infos[1..], mac);
      var rest := WithoutMac(infos[1..], mac);
      forall i | 0 <= i < |rest| ensures rest[i].mac != infos[0].mac {
        WithoutMacKeepsTheOthers(infos[1..], mac, rest[i]);
      }
    }
  }

  /** The map is determined by the members. */
  lemma MembersMakeTheMap(infos: seq<MechInfo>, m: map<string, MechInfo>)
    requires UniqueMacs(infos)
    requires forall r :: r in infos <==> r.mac in m && m[r.mac] == r
    requires forall mac <- m :: m[mac].mac == mac
    ensures ByMac(infos) == m
  {
    forall mac ensures mac in ByMac(infos) <==> mac in m {
      if mac in m {
        assert m[mac] in infos;
      }
    }
    forall mac | mac in m ensures ByMac(infos)[mac] == m[mac] {
      var i :| 0 <= i < |infos| && infos[i] == m[mac];
      MacMapAt(infos, i);
    }
  }

  /** The record of least id with this mac. */
  ghost predicate IsFirstWithMac(infos: seq<MechInfo>, mac: string, i: int) {
    0 <= i < |infos| && infos[i].mac == mac && forall j | 0 <= j < i :: infos[j].mac != mac
  }

  ghost predicate HasMac(infos: seq<MechInfo>, mac: string) {
    exists r <- infos :: r.mac == mac
  }

  lemma SplitIsFirst(infos: seq<MechInfo>, a: nat, b: nat, id: int)
    requires SplitsAt(infos, a, id) && SplitsAt(infos, b, id)
    ensures a <= b
  {
    assert a > 0 ==> infos[a - 1].mechId < id;
  }

  lemma SplitIsUnique(infos: seq<MechInfo>, a: nat, b: nat, id: int)
    requires SplitsAt(infos, a, id) && SplitsAt(infos, b, id)
    ensures a == b
  {
    SplitIsFirst(infos, a, b, id);
    SplitIsFirst(infos, b, a, id);
  }

  lemma ErasedAndPutBack(infos: seq<MechInfo>, at: nat, info: MechInfo)
    requires Ordered(infos) && at < |infos| && info.mechId == infos[at].mechId
    ensures var others := infos[..at] + infos[at + 1..];
            && Ordered(others) && SplitsAt(others, at, info.mechId) && !HasId(others, info.mechId)
            && others[..at] + [info] + others[at..] == infos[at := info]
  {
    var others := infos[..at] + infos[at + 1..];
    assert forall i | 0 <= i < |others| :: others[i] == if i < at then infos[i] else infos[i + 1];
  }

  class MechConnectManager {
    var mechInfos: seq<MechInfo>

    ghost predicate Valid()
      reads this
    {
      Ordered(mechInfos)
    }

    constructor ()
      ensures Valid() && mechInfos == []
    {
      mechInfos := [];
    }

    /** Ordered insertion; the id must not be taken. */
    method Insert(info: MechInfo) returns (ghost at: nat)
      requires Valid() && !HasId(mechInfos, info.mechId)
      modifies this
      ensures Valid() && SplitsAt(old(mechInfos), at, info.mechId)
      ensures mechInfos == old(mechInfos)[..at] + [info] + old(mechInfos)[at..]
    {
      var i := 0;
      while i < |mechInfos| && mechInfos[i].mechId < info.mechId
        invariant 0 <= i <= |mechInfos| && mechInfos == old(mechInfos)
        invariant forall j | 0 <= j < i :: mechInfos[j].mechId < info.mechId
      {
        i := i + 1;
      }
      at := i;
      mechInfos := mechInfos[..i] + [info] + mechInfos[i..];
    }

    /** Gives the record the first free id from its own on and adds it; all other records stay. An id
        of INT32_MAX that is taken would overflow. */
    method AddMechInfo(mechInfo: MechInfo) returns (added: MechInfo, ghost k: nat, ghost at: nat)
      requires Valid() && |mechInfos| < INT32_MAX
      requires HasId(mechInfos, mechInfo.mechId) ==> mechInfo.mechId < INT32_MAX
      modifies this
      ensures Valid() && IsFirstFree(old(mechInfos), mechInfo.mechId, k)
      ensures added == mechInfo.(mechId := Candidate(mechInfo.mechId, k))
      ensures added == mechInfo.(mechId := added.mechId) && !HasId(old(mechInfos), added.mechId)
      ensures added.mechId == mechInfo.mechId <==> !HasId(old(mechInfos), mechInfo.mechId)
      ensures NothingFreeBefore(old(mechInfos), mechInfo.mechId, added.mechId)
      ensures SplitsAt(old(mechInfos), at, added.mechId)
      ensures mechInfos == old(mechInfos)[..at] + [added] + old(mechInfos)[at..]
      ensures UniqueMacs(old(mechInfos)) && mechInfo.mac !in ByMac(old(mechInfos)) ==>
                UniqueMacs(mechInfos) && ByMac(mechInfos) == ByMac(old(mechInfos))[mechInfo.mac := added]
    {
      added := mechInfo;
      k := 0;
      while HasId(mechInfos, added.mechId)
        invariant mechInfos == old(mechInfos)
        invariant k <= |mechInfos| && (k > 0 ==> mechInfo.mechId < INT32_MAX)
        invariant added == mechInfo.(mechId := Candidate(mechInfo.mechId, k))
        invariant forall j: nat | j < k :: HasId(mechInfos, Candidate(mechInfo.mechId, j))
        decreases |mechInfos| - k
      {
        FailuresNeedRecords(mechInfos, mechInfo.mechId, k + 1);
        CandidateSteps(mechInfo.mechId, k);
        added := added.(mechId := TruncatedSuccessor(added.mechId));
        k := k + 1;
      }
      FirstFreeIsNearest(mechInfos, mechInfo.mechId, k);
      at := Insert(added);
      if UniqueMacs(old(mechInfos)) && mechInfo.mac !in ByMac(old(mechInfos)) {
        InsertIsByMac(old(mechInfos), at, added);
      }
    }

    /** `find_if` on the id. */
    method FindById(mechId: int) returns (at: nat)
      ensures at <= |mechInfos|
      ensures at < |mechInfos| ==> mechInfos[at].mechId == mechId
      ensures at == |mechInfos| <==> !HasId(mechInfos, mechId)
    {
      at := 0;
      while at < |mechInfos| && mechInfos[at].mechId != mechId
        invariant at <= |mechInfos|
        invariant forall j | 0 <= j < at :: mechInfos[j].mechId != mechId
      {
        at := at + 1;
      }
    }

    /** Erase and insert again with the same id: the record changes where it stands. */
    method Replace(at: nat, info: MechInfo)
      requires Valid() && at < |mechInfos| && info.mechId == mechInfos[at].mechId
      modifies this
      ensures Valid() && mechInfos == old(mechInfos)[at := info]
    {
      mechInfos := mechInfos[..at] + mechInfos[at + 1..];
      ghost var others := mechInfos;
      ErasedAndPutBack(old(mechInfos), at, info);
      ghost var place := Insert(info);
      SplitIsUnique(others, at, place, info.mechId);
    }

    method SetRealMechName(mechId: int, name: string)
      requires Valid()
      modifies this
      ensures Valid()
      ensures if name == "" || !HasId(old(mechInfos), mechId) then mechInfos == old(mechInfos)
              else exists i | 0 <= i < |old(mechInfos)| && old(mechInfos)[i].mechId == mechId ::
                     mechInfos == old(mechInfos)[i := old(mechInfos)[i].(mechName := name)]
    {
      if name == "" {
        return;
      }
      var at := FindById(mechId);
      if at < |mechInfos| {
        Replace(at, mechInfos[at].(mechName := name));
      }
    }

    method SetMechType(mechId: int, mechType: MechType)
      requires Valid()
      modifies this
      ensures Valid()
      ensures if !HasId(old(mechInfos), mechId) then mechInfos == old(mechInfos)
              else exists i | 0 <= i < |old(mechInfos)| && old(mechInfos)[i].mechId == mechId ::
                     mechInfos == old(mechInfos)[i := old(mechInfos)[i].(mechType := mechType)]
    {
      var at := FindById(mechId);
      if at < |mechInfos| {
        Replace(at, mechInfos[at].(mechType := mechType));
      }
    }

    /** Records an attachment change. Only a device that stays registered as a wheel base on its first
        connection is spared the disconnect, once; `canPost` says whether the event handler takes a task. */
    method NotifyMechState(mechId: int, isAttached: bool, forceDisconnect: bool, canPost: bool)
      returns (ok: bool, disconnect: Option<MechInfo>)
      requires Valid()
      modifies this
      ensures Valid()
      ensures !HasId(old(mechInfos), mechId) ==> !ok && disconnect == None && mechInfos == old(mechInfos)
      ensures HasId(old(mechInfos), mechId) ==>
                exists i | 0 <= i < |old(mechInfos)| && old(mechInfos)[i].mechId == mechId ::
                  var was := old(mechInfos)[i];
                  var spared := was.mechType == WHEEL_BASE && was.isFirstConnect && !forceDisconnect;
                  var now := was.(state := if isAttached then ATTACHED else DETACHED);
                  && mechInfos == old(mechInfos)[i := if spared then now.(isFirstConnect := false) else now]
                  && disconnect == (if !spared && !isAttached && canPost then Some(now) else None)
                  && (ok <==> spared || isAttached || canPost)
    {
      disconnect := None;
      var at := FindById(mechId);
      if at == |mechInfos| {
        return false, None;
      }
      var newMechInfo := mechInfos[at].(state := if isAttached then ATTACHED else DETACHED);
      Replace(at, newMechInfo);
      if newMechInfo.mechType == WHEEL_BASE && newMechInfo.isFirstConnect && !forceDisconnect {
        Replace(at, newMechInfo.(isFirstConnect := false));
        return true, None;
      }
      if !isAttached {
        if !canPost {
          return false, None;
        }
        disconnect := Some(newMechInfo);
      }
      ok := true;
    }

    /** The first record with this mac, in id order; |mechInfos| if there is none. */
    method FindByMac(mac: string) returns (at: nat)
      ensures at <= |mechInfos|
      ensures at < |mechInfos| ==> mechInfos[at].mac == mac
      ensures forall j | 0 <= j < at :: mechInfos[j].mac != mac
    {
      at := 0;
      while at < |mechInfos| && mechInfos[at].mac != mac
        invariant at <= |mechInfos|
        invariant forall j | 0 <= j < at :: mechInfos[j].mac != mac
      {
        at := at + 1;
      }
    }

    /** Writes through the const reference of the set element of least id. With unique macs this is a map
        update. */
    method SetMechanicGattState(mac: string, state: bool) returns (found: bool)
      requires Valid()
      modifies this
      ensures Valid() && (found <==> HasMac(old(mechInfos), mac))
      ensures !found ==> mechInfos == old(mechInfos)
      ensures found ==>
                exists i | IsFirstWithMac(old(mechInfos), mac, i) ::
                  mechInfos == old(mechInfos)[i := old(mechInfos)[i].(gattConnectState := state)]
      ensures UniqueMacs(old(mechInfos)) ==>
                && UniqueMacs(mechInfos)
                && var before := ByMac(old(mechInfos));
                   ByMac(mechInfos) == if found then before[mac := before[mac].(gattConnectState := state)] else before
    {
      var at := FindByMac(mac);
      if at == |mechInfos| {
        return false;
      }
      if UniqueMacs(mechInfos) {
        UpdateIsByMac(mechInfos, at, mechInfos[at].(gattConnectState := state));
      }
      mechInfos := mechInfos[at := mechInfos[at].(gattConnectState := state)];
      found := true;
    }

    method SetMechanicPairState(mac: string, state: bool) returns (found: bool)
      requires Valid()
      modifies this
      ensures Valid() && (found <==> HasMac(old(mechInfos), mac))
      ensures !found ==> mechInfos == old(mechInfos)
      ensures found ==>
                exists i | IsFirstWithMac(old(mechInfos), mac, i) ::
                  mechInfos == old(mechInfos)[i := old(mechInfos)[i].(pairState := state)]
      ensures UniqueMacs(old(mechInfos)) ==>
                && UniqueMacs(mechInfos)
                && var before := ByMac(old(mechInfos));
                   ByMac(mechInfos) == if found then before[mac := before[mac].(pairState := state)] else before
    {
      var at := FindByMac(mac);
      if at == |mechInfos| {
        return false;
      }
      if UniqueMacs(mechInfos) {
        UpdateIsByMac(mechInfos, at, mechInfos[at].(pairState := state));
      }
      mechInfos := mechInfos[at := mechInfos[at].(pairState := state)];
      found := true;
    }

    method SetMechanicHidState(mac: string, state: bool) returns (found: bool)
      requires Valid()
      modifies this
      ensures Valid() && (found <==> HasMac(old(mechInfos), mac))
      ensures !found ==> mechInfos == old(mechInfos)
      ensures found ==>
                exists i | IsFirstWithMac(old(mechInfos), mac, i) ::
                  mechInfos == old(mechInfos)[i := old(mechInfos)[i].(hidState := state)]
      ensures UniqueMacs(old(mechInfos)) ==>
                && UniqueMacs(mechInfos)
                && var before := ByMac(old(mechInfos));
                   ByMac(mechInfos) == if found then before[mac := before[mac].(hidState := state)] else before
    {
      var at := FindByMac(mac);
      if at == |mechInfos| {
        return false;
      }
      if UniqueMacs(mechInfos) {
        UpdateIsByMac(mechInfos, at, mechInfos[at].(hidState := state));
      }
      mechInfos := mechInfos[at := mechInfos[at].(hidState := state)];
      found := true;
    }

    method GetMechInfo(mac: string) returns (info: Option<MechInfo>)
      requires Valid()
      ensures info == None <==> !HasMac(mechInfos, mac)
      ensures info.Some? ==> exists i | IsFirstWithMac(mechInfos, mac, i) :: info.value == mechInfos[i]
      ensures UniqueMacs(mechInfos) ==>
                info == if mac in ByMac(mechInfos) then Some(ByMac(mechInfos)[mac]) else None
    {
      var at := FindByMac(mac);
      if at < |mechInfos| && UniqueMacs(mechInfos) {
        MacMapAt(mechInfos, at);
      }
      info := if at == |mechInfos| then None else Some(mechInfos[at]);
    }

    /** Removes every record with this mac and keeps the others in order. */
    method RemoveMechInfoByMac(mac: string)
      requires Valid()
      modifies this
      ensures Valid() && mechInfos == WithoutMac(old(mechInfos), mac)
      ensures UniqueMacs(old(mechInfos)) ==>
                UniqueMacs(mechInfos) && ByMac(mechInfos) == ByMac(old(mechInfos)) - {mac}
    {
      var i := 0;
      while i < |mechInfos|
        invariant 0 <= i <= |mechInfos|
        invariant WithoutMac(mechInfos[..i], mac) == mechInfos[..i]
        invariant WithoutMac(mechInfos, mac) == WithoutMac(old(mechInfos), mac)
        invariant Ordered(mechInfos)
      {
        if mechInfos[i].mac == mac {
          WithoutMacSkips(mechInfos, i, mac);
          ghost var kept := mechInfos[..i];
          mechInfos := mechInfos[..i] + mechInfos[i + 1..];
          assert mechInfos[..i] == kept;
        } else {
          assert mechInfos[..i + 1] == mechInfos[..i] + [mechInfos[i]];
          WithoutMacJoins(mechInfos[..i], [mechInfos[i]], mac);
          i := i + 1;
        }
      }
      assert mechInfos[..i] == mechInfos;
      if UniqueMacs(old(mechInfos)) {
        RemovalIsByMac(old(mechInfos), mac);
      }
    }
  }

  ghost function WithoutMac(infos: seq<MechInfo>, mac: string): seq<MechInfo> {
    if |infos| == 0 then []
    else (if infos[0].mac == mac then [] else [infos[0]]) + WithoutMac(infos[1..], mac)
  }

  /** Exactly the records with another mac stay. */
  lemma {:induction false} WithoutMacKeepsTheOthers(infos: seq<MechInfo>, mac: string, info: MechInfo)
    ensures info in WithoutMac(infos, mac) <==> info in infos && info.mac != mac
  {
    if |infos| > 0 {
      WithoutMacKeepsTheOthers(infos[1..], mac, info);
      assert infos == [infos[0]] + infos[1..];
    }
  }

  lemma ConcatenationAssociates(a: seq<MechInfo>, b: seq<MechInfo>, c: seq<MechInfo>)
    ensures a + (b + c) == (a + b) + c
  {
  }

  lemma {:induction false} WithoutMacJoins(a: seq<MechInfo>, b: seq<MechInfo>, mac: string)
    ensures WithoutMac(a + b, mac) == WithoutMac(a, mac) + WithoutMac(b, mac)
  {
    var ab := a + b;
    if |a| == 0 {
      assert ab == b;
    } else {
      WithoutMacJoins(a[1..], b, mac);
      assert ab[0] == a[0];
      assert ab[1..] == a[1..] + b;
      var head := if a[0].mac == mac then [] else [a[0]];
      ConcatenationAssociates(head, WithoutMac(a[1..], mac), WithoutMac(b, mac));
    }
  }

  lemma WithoutMacSkips(infos: seq<MechInfo>, i: nat, mac: string)
    requires i < |infos| && infos[i].mac == mac
    ensures WithoutMac(infos[..i] + infos[i + 1..], mac) == WithoutMac(infos, mac)
  {
    WithoutMacJoins(infos[..i], infos[i + 1..], mac);
    WithoutMacJoins(infos[..i], infos[i..], mac);
    assert infos == infos[..i] + infos[i..];
    assert infos[i..] == [infos[i]] + infos[i + 1..];
    WithoutMacJoins([infos[i]], infos[i + 1..], mac);
  }
}
