/** A table of requests that wait for exactly one result each: what both request layers of the service keep,
    whatever their keys, requests and results are. */
module OnceTable {

  /** A waiting request. `id` is history: it tells apart the requests that used one key in turn. */
  datatype Ticket<V> = Ticket(value: V, id: nat)

  /** One result given to a waiting request; `source` is history and says what produced the result. */
  datatype Settled<V, R> = Settled(id: nat, value: V, result: R, source: nat)

  ghost predicate IsWaiting<K, V>(table: map<K, Ticket<V>>, id: nat) {
    exists k <- table :: table[k].id == id
  }

  ghost predicate IsSettled<V, R>(settled: seq<Settled<V, R>>, id: nat) {
    exists i | 0 <= i < |settled| :: settled[i].id == id
  }

  /** No request is settled twice; every request put into the table still waits or has been settled, never
      both; and a result always goes to the request that was put in. */
  ghost predicate ExactlyOnce<K, V, R>(inserted: map<nat, V>, table: map<K, Ticket<V>>, settled: seq<Settled<V, R>>) {
    && (forall i, j | 0 <= i < j < |settled| :: settled[i].id != settled[j].id)
    && (forall id <- inserted :: IsWaiting(table, id) || IsSettled(settled, id))
    && (forall k <- table :: !IsSettled(settled, table[k].id))
    && (forall k <- table :: table[k].id in inserted && inserted[table[k].id] == table[k].value)
    && (forall i | 0 <= i < |settled| :: settled[i].id in inserted && inserted[settled[i].id] == settled[i].value)
  }

  ghost predicate DistinctIds<K, V>(table: map<K, Ticket<V>>) {
    forall j <- table, k <- table | table[j].id == table[k].id :: j == k
  }

  lemma InsertingKeepsExactlyOnce<K, V, R>(inserted: map<nat, V>, table: map<K, Ticket<V>>,
                                           settled: seq<Settled<V, R>>, key: K, value: V, id: nat)
    requires ExactlyOnce(inserted, table, settled) && key !in table && id !in inserted
    ensures ExactlyOnce(inserted[id := value], table[key := Ticket(value, id)], settled)
  {
    var table' := table[key := Ticket(value, id)];
    assert table'[key].id == id;
    forall other <- inserted[id := value]
      ensures IsWaiting(table', other) || IsSettled(settled, other)
    {
      if other != id && IsWaiting(table, other) {
        var k :| k in table && table[k].id == other;
        assert table'[k].id == other;
      }
    }
  }

  lemma SettlingKeepsExactlyOnce<K, V, R>(inserted: map<nat, V>, table: map<K, Ticket<V>>,
                                          settled: seq<Settled<V, R>>, key: K, result: R, source: nat)
    requires ExactlyOnce(inserted, table, settled) && DistinctIds(table) && key in table
    ensures ExactlyOnce(inserted, table - {key},
                        settled + [Settled(table[key].id, table[key].value, result, source)])
  {
    var table', settled' := table - {key}, settled + [Settled(table[key].id, table[key].value, result, source)];
    assert settled'[|settled|].id == table[key].id;
    forall id <- inserted
      ensures IsWaiting(table', id) || IsSettled(settled', id)
    {
      if IsWaiting(table, id) {
        var k :| k in table && table[k].id == id;
        assert k == key || table'[k].id == id;
      } else {
        var i :| 0 <= i < |settled| && settled[i].id == id;
        assert settled'[i].id == id;
      }
    }
  }

  /** The results given to one request, as positions in the history. */
  ghost function ResultsOf<V, R>(settled: seq<Settled<V, R>>, id: nat): set<nat> {
    set i | 0 <= i < |settled| && settled[i].id == id
  }

  lemma ResultIsUnique<K, V, R>(inserted: map<nat, V>, table: map<K, Ticket<V>>, settled: seq<Settled<V, R>>, id: nat)
    requires ExactlyOnce(inserted, table, settled)
    ensures |ResultsOf(settled, id)| == if IsSettled(settled, id) then 1 else 0
    ensures id in inserted ==> (IsWaiting(table, id) <==> !IsSettled(settled, id))
    ensures forall i <- ResultsOf(settled, id) :: id in inserted && settled[i].value == inserted[id]
  {
    if IsSettled(settled, id) {
      var i :| 0 <= i < |settled| && settled[i].id == id;
      assert ResultsOf(settled, id) == {i};
    } else {
      assert ResultsOf(settled, id) == {};
    }
  }
}
