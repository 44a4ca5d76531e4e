/** The thread library itself: a table of 64 slots and the ready queue, updated in place. */
module ThreadLibrary {
  import opened Counting
  import opened RingQueue
  import opened TusState
  import opened TusTable
  import opened TusInvariant

  const ALG_FCFS := 1
  const ALG_RANDOM := 2

  class Scheduler {
    const table: array<Slot>
    const queue: Queue
    var current: int
    var initialized: bool
    var alg: int
    var alive: bool

    ghost predicate Shaped()
      reads this, table, queue
    {
      table.Length == MAX_THREADS && queue.Valid() && DistinctTids(table[..]) && alg in {ALG_FCFS, ALG_RANDOM}
    }

    ghost function Threads(): map<int, Thread>
      reads table
    {
      TableMap(table[..])
    }

    /** What the table, the queue and the globals stand for. */
    ghost function View(): (s: Sched)
      requires Shaped()
      reads this, table, queue, queue.data
    {
      Sched(Threads(), queue.Contents(), current, alg == ALG_FCFS, alive)
    }

    ghost predicate Valid()
      reads this, table, queue, queue.data
    {
      Shaped() && (initialized && alive ==> Good(View()))
    }

    constructor ()
      ensures Valid() && !initialized && alive && fresh(table) && fresh(queue) && fresh(queue.data)
    {
      table := new Slot[MAX_THREADS](_ => Empty);
      queue := new Queue();
      current, initialized, alg, alive := ERROR, false, ALG_FCFS, true;
    }

    // ---- The table ----

    method FindSlotByTid(tid: int) returns (slot: int)
      requires Shaped()
      ensures -1 <= slot < table.Length && (slot == -1 <==> tid !in Threads())
      ensures slot != -1 ==> table[slot].Has? && table[slot].thread.tid == tid && table[slot].thread == Threads()[tid]
    {
      hide MapUpTo, Count;
      TableMeaning(table[..], table.Length);
      for i := 0 to table.Length
        invariant forall k :: 0 <= k < i && table[k].Has? ==> table[k].thread.tid != tid
      {
        if table[i].Has? && table[i].thread.tid == tid {
          assert table[..][i].Has?;
          return i;
        }
      }
      return -1;
    }

    method GetTcbByTid(tid: int) returns (slot: int)
      requires Shaped()
      ensures -1 <= slot < table.Length && (slot == -1 <==> tid <= 0 || tid !in Threads())
      ensures slot != -1 ==> table[slot].Has? && table[slot].thread.tid == tid && table[slot].thread == Threads()[tid]
    {
      if tid <= 0 {
        return -1;
      }
      slot := FindSlotByTid(tid);
    }

    method FindFreeSlot() returns (slot: int)
      requires Shaped()
      ensures -1 <= slot < table.Length && (slot == -1 <==> |Threads()| == MAX_THREADS)
      ensures slot != -1 ==> table[slot] == Empty
    {
      TableMeaning(table[..], table.Length);
      for i := 0 to table.Length
        invariant Count(table[..], i) == i
      {
        if table[i].Empty? {
          CountWithin(table[..], i + 1);
          return i;
        }
      }
      return -1;
    }

    method CountExisting() returns (count: nat)
      requires Shaped()
      ensures count == |Threads()|
    {
      TableMeaning(table[..], table.Length);
      count := 0;
      for i := 0 to table.Length
        invariant count == Count(table[..], i)
      {
        if table[i].Has? {
          count := count + 1;
        }
      }
    }

    method AllocateTid() returns (tid: int)
      requires Shaped()
      ensures tid == LeastFree(Threads(), 1)
    {
      for t := 1 to MAX_THREADS + 1
        invariant LeastFree(Threads(), 1) == LeastFree(Threads(), t)
      {
        var slot := GetTcbByTid(t);
        if slot == -1 {
          return t;
        }
      }
      return ERROR;
    }

    /** Writes a thread's fields, or a new thread, into a slot. */
    method Put(slot: nat, th: Thread)
      requires Shaped() && slot < table.Length
      requires if table[slot].Has? then table[slot].thread.tid == th.tid else th.tid !in Threads()
      modifies table
      ensures Shaped() && table[slot] == Has(th)
      ensures forall k :: 0 <= k < table.Length && k != slot ==> table[k] == old(table[k])
      ensures Threads() == old(Threads())[th.tid := th]
    {
      hide TableMap, DistinctTids;
      TableSet(table[..], slot, th);
      ghost var was := table[..];
      table[slot] := Has(th);
      assert table[..] == was[slot := Has(th)];
    }

    method DestroyThread(tid: int)
      requires Shaped()
      modifies table
      ensures Shaped() && Threads() == old(Threads()) - {tid}
    {
      hide TableMap, DistinctTids;
      var slot := FindSlotByTid(tid);
      if slot == -1 {
        assert Threads() == Threads() - {tid};
        return;
      }
      TableClear(table[..], slot);
      ghost var was := table[..];
      table[slot] := Empty;
      assert table[..] == was[slot := Empty];
    }

    // ---- Scheduling ----

    /** `pick` is what `rand()` returns. */
    method PickNext(pick: nat) returns (tid: int)
      requires Shaped()
      modifies queue, queue.data
      ensures Shaped() && var s, q := old(View()), old(queue.Contents());
              if q == [] then tid == ERROR && View() == s
              else var i := PickIndex(s, q, pick); tid == q[i] && View() == s.(queue := Without(q, i))
    {
      var empty := queue.Empty();
      if empty {
        return ERROR;
      }
      if alg == ALG_FCFS {
        ghost var q := queue.Contents();
        tid := queue.Pop();
        assert q[1..] == q[..0] + q[1..];
      } else if alg == ALG_RANDOM {
        tid := queue.Take(pick % queue.size);
      } else {
        assert false;
      }
    }

    /** `setcontext`: a fresh thread starts; one inside `tus_yield` finds its flag set and returns. */
    method SetContext(slot: nat)
      requires Shaped() && slot < table.Length && table[slot].Has? && Resumable(table[slot].thread)
      modifies table, `current
      ensures Shaped()
      ensures View() == old(View()).(threads := old(Threads())[old(table[slot].thread.tid) :=
                                                              Resumed(old(table[slot].thread))],
                                     current := old(table[slot].thread.tid))
    {
      var th := table[slot].thread;
      current := th.tid;
      if th.saved.InYield? && th.resumeFlag {
        Put(slot, th.(resumeFlag := false, state := Running));
        current := th.tid;
      } else {
        Put(slot, th.(state := Running));
      }
    }

    // ---- The calls ----

    method TusInit(salg: int) returns (r: int)
      requires Valid() && alive
      modifies this, table, queue, queue.data
      ensures Valid() && alive
      ensures r == if !old(initialized) && salg in {ALG_FCFS, ALG_RANDOM} then 1 else ERROR
      ensures r == 1 ==> initialized && View() == InitSched(salg == ALG_FCFS)
      ensures r == ERROR ==> View() == old(View()) && initialized == old(initialized)
    {
      if initialized || !(salg == ALG_FCFS || salg == ALG_RANDOM) {
        return ERROR;
      }
      for i := 0 to table.Length
        modifies table
        invariant forall k :: 0 <= k < i ==> table[k] == Empty
      {
        table[i] := Empty;
      }
      queue.Init();
      alg := salg;
      EmptyTable(table[..], table.Length);
      var slot := FindFreeSlot();
      if slot == -1 {
        assert false;
      } else {
        Put(slot, Thread(1, Running, Fresh, false, ERROR));
      }
      current := 1;
      initialized := true;
      InitIsGood(alg == ALG_FCFS);
      return 1;
    }

    method CreateThread() returns (r: Outcome)
      requires Valid() && alive
      modifies table, queue, queue.data
      ensures Valid()
      ensures !initialized ==> r == Returned(ERROR) && View() == old(View())
      ensures initialized ==> (View(), r) == Create(old(View()))
    {
      hide Good, Distinct, MapUpTo, TableMap, DistinctTids;
      if !initialized {
        return Returned(ERROR);
      }
      ghost var s := View();
      CreateKeepsGood(s);
      QueueHasRoom(s);
      var count := CountExisting();
      if count >= MAX_THREADS {
        return Returned(ERROR);
      }
      TidIsLeft(s);
      var slot := FindFreeSlot();
      var tid := AllocateTid();
      if slot == -1 || tid == ERROR {
        assert false;
      } else {
        Put(slot, Thread(tid, Ready, Fresh, false, ERROR));
        var pushed := queue.Push(tid);
        if pushed == ERROR {
          assert false;
        }
      }
      return Returned(tid);
    }

    /** `alive` becomes false where the source calls `exit(0)`. */
    method TusExit(pick: nat) returns (r: Outcome)
      requires Valid() && alive
      modifies this, table, queue, queue.data
      ensures Valid() && initialized == old(initialized)
      ensures !initialized ==> r == Died && View() == old(View()).(alive := false)
      ensures initialized ==> (View(), r) == Exit(old(View()), pick)
    {
      if !initialized {
        alive := false;
        return Died;
      }
      ghost var s := View();
      NamedWhenGood(s);
      var caller := GetTcbByTid(current);
      r := Died;
      if caller == -1 {
        assert false;
      } else {
        r := EndCaller(caller, pick);
      }
    }

    method EndCaller(caller: nat, pick: nat) returns (r: Outcome)
      requires Shaped() && Good(View()) && alive && initialized
      requires caller < table.Length && table[caller].Has? && table[caller].thread.tid == current
      requires table[caller].thread == Threads()[current]
      modifies this, table, queue, queue.data
      ensures Valid() && initialized
      ensures (View(), r) == Exit(old(View()), pick)
    {
      hide Good, Distinct, MapUpTo, DistinctTids;
      ghost var s := View();
      NamedWhenGood(s);
      if s.queue != [] {
        QueuedIsReady(s, PickIndex(s, s.queue, pick));
        ExitKeepsGood(s, pick);
      }
      var c := table[caller].thread;
      Put(caller, c.(state := Ended, resumeFlag := false));
      var next := PickNext(pick);
      if next == ERROR {
        alive := false;
        return Died;
      }
      var slot := GetTcbByTid(next);
      SetContext(slot);
      return Switched(next);
    }

    /** Up to where `tus_yield` either returns to the caller or `setcontext` lets another thread go on. */
    method TusYield(tid: int, pick: nat) returns (r: Outcome)
      requires Valid() && alive
      modifies table, queue, queue.data, `current
      ensures Valid()
      ensures !initialized ==> r == Returned(ERROR) && View() == old(View())
      ensures initialized ==> (View(), r) == Yield(old(View()), tid, pick)
    {
      if !initialized {
        return Returned(ERROR);
      }
      ghost var s := View();
      NamedWhenGood(s);
      YieldKeepsGood(s, tid, pick);
      r := Returned(ERROR);
      var caller := GetTcbByTid(current);
      if caller == -1 {
        assert false;
      } else if tid == ANY {
        r := YieldToAny(caller, pick);
      } else if tid > 0 {
        r := YieldTo(caller, tid, pick);
      } else {
        Put(caller, table[caller].thread.(saved := InYield));
      }
    }

    ghost predicate CalledFrom(caller: nat)
      reads this, table, queue, queue.data
    {
      && Shaped() && initialized && alive && Good(View())
      && caller < table.Length && table[caller].Has? && table[caller].thread.tid == current
      && table[caller].thread == Threads()[current]
    }

    method YieldToAny(caller: nat, pick: nat) returns (r: Outcome)
      requires CalledFrom(caller)
      modifies table, queue, queue.data, `current
      ensures Shaped() && (View(), r) == Yield(old(View()), ANY, pick)
    {
      hide Good, Distinct, MapUpTo, TableMap, DistinctTids, WithoutFirst, Resumable;
      ghost var s := View();
      NamedWhenGood(s);
      QueueHasRoom(s);
      var c := table[caller].thread;
      Put(caller, c.(saved := InYield, resumeFlag := true, state := Ready));
      var pushed := queue.Push(c.tid);
      ghost var q := s.queue + [s.current];
      ghost var i := PickIndex(s, q, pick);
      PushedIsResumable(s, q, i);
      var next := PickNext(pick);
      r := Returned(ERROR);
      if pushed == ERROR || next == ERROR {
        assert false;
      } else {
        r := SwitchTo(s, caller, next);
      }
    }

    method YieldTo(caller: nat, tid: int, pick: nat) returns (r: Outcome)
      requires CalledFrom(caller) && tid > 0
      modifies table, queue, queue.data, `current
      ensures Shaped() && (View(), r) == Yield(old(View()), tid, pick)
    {
      hide Good, Distinct, MapUpTo, TableMap, DistinctTids, WithoutFirst, Resumable;
      ghost var s := View();
      NamedWhenGood(s);
      QueueHasRoom(s);
      var c := table[caller].thread;
      if tid == c.tid {
        Put(caller, c.(saved := InYield, yieldResult := tid));
        return Returned(tid);
      }
      var target := GetTcbByTid(tid);
      if target == -1 || table[target].thread.state != Ready {
        Put(caller, c.(saved := InYield));
        return Returned(ERROR);
      }
      ReadyIsQueued(s, tid);
      WithoutFirstSize(s.queue, tid);
      Put(caller, c.(saved := InYield, resumeFlag := true, state := Ready));
      var removed := queue.Remove(tid);
      var pushed := queue.Push(c.tid);
      r := Returned(ERROR);
      if removed == ERROR || pushed == ERROR {
        assert false;
      } else {
        r := SwitchTo(s, caller, tid);
      }
    }

    /** The end of `tus_yield`: the caller notes whom it yields to, and that thread goes on. */
    method SwitchTo(ghost s: Sched, caller: nat, next: int) returns (r: Outcome)
      requires Shaped() && Named(s) && HandsOver(s, next)
      requires View() == s.(threads := Threads(), queue := queue.Contents()) && Threads() == Asleep(s)
      requires caller < table.Length && table[caller] == Has(Asleep(s)[s.current])
      modifies table, `current
      ensures Shaped() && r == Switched(next)
      ensures View() == Dispatch(Suspend(s, next).(queue := queue.Contents()), next)
    {
      hide Good, Distinct, MapUpTo, TableMap, DistinctTids;
      Put(caller, table[caller].thread.(yieldResult := next, state := Ready));
      assert Threads() == Suspend(s, next).threads;
      var slot := GetTcbByTid(next);
      if slot == -1 {
        assert false;
      } else {
        SetContext(slot);
      }
      return Switched(next);
    }

    /** One turn of the loop in `tus_join`; after a yield the loop goes round when the caller runs again. */
    method TusJoinTurn(tid: int, pick: nat) returns (r: Outcome)
      requires Valid() && alive
      modifies table, queue, queue.data, `current
      ensures Valid()
      ensures !initialized ==> r == Returned(ERROR) && View() == old(View())
      ensures initialized ==> (View(), r) == JoinTurn(old(View()), tid, pick)
    {
      hide Good, Distinct, MapUpTo, DistinctTids;
      if !initialized || tid <= 0 {
        return Returned(ERROR);
      }
      ghost var s := View();
      NamedWhenGood(s);
      JoinKeepsGood(s, tid, pick);
      if tid == current {
        return Returned(ERROR);
      }
      var target := GetTcbByTid(tid);
      if target == -1 {
        return Returned(ERROR);
      }
      if table[target].thread.state != Ended {
        r := TusYield(ANY, pick);
        return;
      }
      DestroyThread(tid);
      return Returned(tid);
    }

    method TusCancel(tid: int) returns (r: Outcome)
      requires Valid() && alive
      modifies table, queue, queue.data
      ensures Valid()
      ensures !initialized ==> r == Returned(ERROR) && View() == old(View())
      ensures initialized ==> (View(), r) == Cancel(old(View()), tid)
    {
      hide Good, Distinct, MapUpTo, DistinctTids;
      if !initialized || tid <= 0 || tid == current {
        return Returned(ERROR);
      }
      ghost var s := View();
      NamedWhenGood(s);
      CancelKeepsGood(s, tid);
      var target := GetTcbByTid(tid);
      if target == -1 || table[target].thread.state == Ended {
        return Returned(ERROR);
      }
      if table[target].thread.state == Ready {
        ReadyIsQueued(s, tid);
        var removed := queue.Remove(tid);
        if removed == ERROR {
          assert false;
        }
      }
      Put(target, table[target].thread.(state := Ended, resumeFlag := false));
      return Returned(SUCCESS);
    }
  }

  lemma NamedWhenGood(s: Sched)
    requires Good(s)
    ensures Named(s) && s.threads[s.current].tid == s.current && 1 <= s.current && !s.threads[s.current].resumeFlag
  {
    assert ThreadOk(s, s.current);
  }

  lemma QueuedIsReady(s: Sched, i: nat)
    requires Good(s) && i < |s.queue|
    ensures var t := s.queue[i];
            && 1 <= t && t in s.threads && t != s.current
            && s.threads[t].tid == t && s.threads[t].state.Ready? && Resumable(s.threads[t])
  {
    assert s.queue[i] in s.queue;
    assert ThreadOk(s, s.queue[i]);
  }

  /** `s.threads` once the running thread has marked itself as asleep in its yield. */
  ghost function Asleep(s: Sched): map<int, Thread>
    requires Named(s)
  {
    s.threads[s.current := s.threads[s.current].(saved := InYield, resumeFlag := true, state := Ready)]
  }

  /** The running thread can hand over to `next`, which may be itself. */
  ghost predicate HandsOver(s: Sched, next: int)
    requires Named(s)
  {
    && s.threads[s.current].tid == s.current && 1 <= next <= MAX_THREADS && next in s.threads
    && (next != s.current ==> Resumable(s.threads[next]) && s.threads[next].tid == next)
  }

  lemma ReadyIsQueued(s: Sched, t: int)
    requires Good(s) && t in s.threads && s.threads[t].state.Ready?
    ensures t in s.queue && t != s.current && HandsOver(s, t)
  {
    assert ThreadOk(s, s.current);
    assert ThreadOk(s, t);
  }

  /** Whoever is picked once the caller has queued itself is the caller or was ready. */
  lemma PushedIsResumable(s: Sched, q: seq<int>, i: nat)
    requires Good(s) && q == s.queue + [s.current] && i < |q|
    ensures HandsOver(s, q[i])
  {
    assert ThreadOk(s, s.current);
    if i < |s.queue| {
      assert q[i] in s.queue;
    }
    assert ThreadOk(s, q[i]);
  }

  lemma {:induction false} EmptyTable(table: seq<Slot>, n: nat)
    requires n <= |table| && forall k :: 0 <= k < n ==> table[k] == Empty
    ensures MapUpTo(table, n) == map[]
  {
    if n == 0 {
    } else {
      EmptyTable(table, n - 1);
    }
  }

  lemma {:induction false} CountWithin(table: seq<Slot>, n: nat)
    requires n <= |table|
    ensures Count(table, |table|) - Count(table, n) <= |table| - n
    decreases |table| - n
  {
    if n == |table| {
    } else {
      CountWithin(table, n + 1);
    }
  }
}
