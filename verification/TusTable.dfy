/** The thread table: 64 slots, read as a map from tids to threads. */
module TusTable {
  import opened TusState

  datatype Slot = Empty | Has(thread: Thread)

  ghost predicate DistinctTids(table: seq<Slot>) {
    forall i, j :: 0 <= i < j < |table| && table[i].Has? && table[j].Has? ==> table[i].thread.tid != table[j].thread.tid
  }

  ghost function MapUpTo(table: seq<Slot>, n: nat): map<int, Thread>
    requires n <= |table|
  {
    if n == 0 then map[]
    else
      var m := MapUpTo(table, n - 1);
      if table[n - 1].Has? then m[table[n - 1].thread.tid := table[n - 1].thread] else m
  }

  ghost function TableMap(table: seq<Slot>): map<int, Thread> {
    MapUpTo(table, |table|)
  }

  function Count(table: seq<Slot>, n: nat): nat
    requires n <= |table|
  {
    if n == 0 then 0 else Count(table, n - 1) + if table[n - 1].Has? then 1 else 0
  }

  lemma {:induction false} TableMeaning(table: seq<Slot>, n: nat)
    requires DistinctTids(table) && n <= |table|
    ensures var m := MapUpTo(table, n);
            && (forall i :: 0 <= i < n && table[i].Has? ==>
                  table[i].thread.tid in m && m[table[i].thread.tid] == table[i].thread)
            && (forall t :: t in m ==> exists i :: 0 <= i < n && table[i].Has? && table[i].thread.tid == t)
            && |m| == Count(table, n)
  {
    if n == 0 {
    } else {
      TableMeaning(table, n - 1);
    }
  }

  /** Writing thread `th` over its own slot, or into any slot if its tid is new. */
  lemma TableSet(table: seq<Slot>, i: nat, th: Thread)
    requires DistinctTids(table) && i < |table|
    requires if table[i].Has? then table[i].thread.tid == th.tid else th.tid !in TableMap(table)
    ensures DistinctTids(table[i := Has(th)])
    ensures TableMap(table[i := Has(th)]) == TableMap(table)[th.tid := th]
  {
    hide MapUpTo, Count;
    var after := table[i := Has(th)];
    TableMeaning(table, |table|);
    assert forall k :: 0 <= k < |table| && k != i ==> after[k] == table[k];
    assert forall k :: 0 <= k < |table| && k != i && table[k].Has? ==> table[k].thread.tid != th.tid;
    TableMeaning(after, |after|);
    var m, want := TableMap(after), TableMap(table)[th.tid := th];
    forall t | t in m ensures t in want && m[t] == want[t] {
      var k :| 0 <= k < |after| && after[k].Has? && after[k].thread.tid == t;
      assert k != i ==> after[k] == table[k];
    }
    forall t | t in want ensures t in m {
      if t == th.tid {
        assert after[i].Has?;
      } else {
        var k :| 0 <= k < |table| && table[k].Has? && table[k].thread.tid == t;
        assert after[k] == table[k];
      }
    }
    SameMap(m, want);
  }

  lemma TableClear(table: seq<Slot>, i: nat)
    requires DistinctTids(table) && i < |table| && table[i].Has?
    ensures DistinctTids(table[i := Empty])
    ensures TableMap(table[i := Empty]) == TableMap(table) - {table[i].thread.tid}
  {
    hide MapUpTo, Count;
    var after := table[i := Empty];
    TableMeaning(table, |table|);
    assert forall k :: 0 <= k < |table| && k != i ==> after[k] == table[k];
    TableMeaning(after, |after|);
    var m, want := TableMap(after), TableMap(table) - {table[i].thread.tid};
    forall t | t in m ensures t in want && m[t] == want[t] {
      var k :| 0 <= k < |after| && after[k].Has? && after[k].thread.tid == t;
      assert after[k] == table[k];
    }
    forall t | t in want ensures t in m {
      var k :| 0 <= k < |table| && table[k].Has? && table[k].thread.tid == t;
      assert after[k] == table[k];
    }
    SameMap(m, want);
  }

  lemma SameMap<K, V>(a: map<K, V>, b: map<K, V>)
    requires forall t :: t in a ==> t in b && a[t] == b[t]
    requires forall t :: t in b ==> t in a
    ensures a == b
  {
    assert a.Keys == b.Keys;
  }
}
