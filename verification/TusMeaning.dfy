/** What each call of the thread library does to the threads and to the queue. */
module TusMeaning {
  import opened RingQueue
  import opened TusState
  import opened TusInvariant
  import opened TusFairness
  import opened TusLifecycle

  /** `after` is `before` without what stood at `i`; the others keep their order. */
  predicate Leaves(before: seq<int>, i: nat, after: seq<int>) {
    && i < |before| && |after| == |before| - 1
    && forall k :: 0 <= k < |after| ==> after[k] == if k < i then before[k] else before[k + 1]
  }

  /** The place in the queue that the scheduler takes: the head under FCFS, and else any, as `rand()` says. */
  predicate IsPicked(s: Sched, q: seq<int>, pick: nat, i: nat) {
    i < |q| && i == if s.fcfs then 0 else pick % |q|
  }

  /** Thread `t` differs only in these fields. */
  predicate BecomesRunning(before: Thread, after: Thread) {
    && after.tid == before.tid && after.state == Running && after.saved == before.saved
    && after.yieldResult == before.yieldResult && !after.resumeFlag
  }

  /** The caller sleeps in its yield, which will return `to`. */
  predicate FallsAsleep(before: Thread, after: Thread, to: int) {
    after == Thread(before.tid, Ready, InYield, true, to)
  }

  /** All threads but these two are as they were, and no thread has come or gone. */
  ghost predicate OnlyChanges(s: Sched, u: Sched, a: int, b: int) {
    && u.threads.Keys == s.threads.Keys && u.fcfs == s.fcfs
    && forall t :: t in s.threads && t != a && t != b ==> u.threads[t] == s.threads[t]
  }

  /** From `tus_init` on there is one thread, it runs, and the scheduler is the one asked for. */
  lemma InitMeans(fcfs: bool)
    ensures var s := InitSched(fcfs);
            && s.fcfs == fcfs && s.alive && s.current == 1 && s.queue == []
            && (forall t :: t in s.threads <==> t == 1)
            && s.threads[1].tid == 1 && s.threads[1].state == Running && !s.threads[1].resumeFlag
  {
  }

  /** `tus_create_thread`: unless there are 64 threads, a fresh one with the smallest free tid goes to the end of the queue. */
  lemma CreateMeans(s: Sched)
    requires Good(s) && s.alive
    ensures var (u, o) := Do(s, DoCreate);
            && (|s.threads| >= 64 ==> u == s && o == Returned(-1))
            && (|s.threads| < 64 ==>
                  && o.Returned? && 1 <= o.value <= 64 && o.value !in s.threads
                  && (forall t :: 1 <= t < o.value ==> t in s.threads)
                  && u == s.(queue := s.queue + [o.value],
                             threads := s.threads[o.value := Thread(o.value, Ready, Fresh, false, ERROR)]))
  {
    if |s.threads| < 64 {
      TidIsLeft(s);
    }
  }

  /**
   * `tus_yield(TUS_ANY)`: the caller queues up, the scheduler picks one of the queue, perhaps the
   * caller itself, and that one runs.
   */
  lemma YieldToAnyMeans(s: Sched, pick: nat)
    requires Good(s) && s.alive
    ensures var (u, o) := Do(s, DoYield(ANY, pick));
            exists i: nat :: IsPicked(s, s.queue + [s.current], pick, i) &&
              var next := (s.queue + [s.current])[i];
              && o == Switched(next) && u.current == next && u.alive && next in s.threads
              && Leaves(s.queue + [s.current], i, u.queue) && OnlyChanges(s, u, s.current, next)
              && (next != s.current ==>
                    && FallsAsleep(s.threads[s.current], u.threads[s.current], next)
                    && BecomesRunning(s.threads[next], u.threads[next]))
              && (next == s.current ==>
                    u.threads[next] == s.threads[next].(saved := InYield, yieldResult := next))
  {
    var q := s.queue + [s.current];
    var i := PickIndex(s, q, pick);
    assert ThreadOk(s, s.current);
    assert q[i] == s.current || q[i] in s.queue;
    assert ThreadOk(s, q[i]);
    assert Leaves(q, i, Without(q, i));
    assert IsPicked(s, q, pick, i);
  }

  /** What a yield to a tid answers without switching: the caller's own tid, or an error. */
  lemma YieldStays(s: Sched, tid: int, pick: nat)
    requires Good(s) && s.alive && tid != ANY
    requires tid < 0 || tid == s.current || tid !in s.threads || !s.threads[tid].state.Ready?
    ensures var (u, o) := Do(s, DoYield(tid, pick));
            && o == Returned(if tid == s.current then tid else -1)
            && u.queue == s.queue && u.current == s.current && u.alive && OnlyChanges(s, u, s.current, s.current)
            && u.threads[s.current].tid == s.current && u.threads[s.current].state == Running
            && !u.threads[s.current].resumeFlag
  {
    assert ThreadOk(s, s.current);
  }

  /** `tus_yield(tid)` to a ready thread: it runs, and the caller goes to the end of the queue. */
  lemma YieldSwitches(s: Sched, tid: int, pick: nat)
    requires Good(s) && s.alive && tid in s.threads && s.threads[tid].state.Ready?
    ensures var (u, o) := Do(s, DoYield(tid, pick));
            && o == Switched(tid) && u.current == tid && u.alive
            && (exists i :: 0 <= i < |s.queue| && s.queue[i] == tid && u.queue != []
                            && Leaves(s.queue, i, u.queue[..|u.queue| - 1]) && u.queue[|u.queue| - 1] == s.current)
            && OnlyChanges(s, u, s.current, tid)
            && FallsAsleep(s.threads[s.current], u.threads[s.current], tid)
            && BecomesRunning(s.threads[tid], u.threads[tid])
  {
    assert ThreadOk(s, s.current) && ThreadOk(s, tid);
    var i := RemovedFrom(s.queue, tid);
    var u := Do(s, DoYield(tid, pick)).0;
    assert u.queue[..|u.queue| - 1] == WithoutFirst(s.queue, tid);
  }

  /** Where in the queue a removed tid stood. */
  lemma {:induction false} RemovedFrom(q: seq<int>, x: int) returns (i: nat)
    requires x in q
    ensures i < |q| && q[i] == x && Leaves(q, i, WithoutFirst(q, x))
  {
    if q[0] == x {
      i := 0;
    } else {
      i := RemovedFrom(q[1..], x);
      i := i + 1;
    }
  }

  /** `tus_exit` with others queued: the caller has ended, for good, and one of the queue runs. */
  lemma ExitMeans(s: Sched, pick: nat)
    requires Good(s) && s.alive && s.queue != []
    ensures var (u, o) := Do(s, DoExit(pick));
            exists i: nat :: IsPicked(s, s.queue, pick, i) &&
              var next := s.queue[i];
              && o == Switched(next) && u.current == next && u.alive && next in s.threads && next != s.current
              && Leaves(s.queue, i, u.queue) && s.current !in u.queue && OnlyChanges(s, u, s.current, next)
              && u.threads[s.current] == s.threads[s.current].(state := Ended, resumeFlag := false)
              && BecomesRunning(s.threads[next], u.threads[next])
  {
    var i := PickIndex(s, s.queue, pick);
    assert ThreadOk(s, s.current);
    assert s.queue[i] in s.queue;
    assert ThreadOk(s, s.queue[i]);
    WithoutMembers(s.queue, i);
    assert Leaves(s.queue, i, Without(s.queue, i));
    assert IsPicked(s, s.queue, pick, i);
  }

  /** With nobody queued an exit ends the process. */
  lemma LastExitMeans(s: Sched, pick: nat)
    requires Good(s) && s.alive && s.queue == []
    ensures var (u, o) := Do(s, DoExit(pick)); o == Died && !u.alive
  {
  }

  /** Once a thread has exited, the first join of it, whenever it comes and whoever makes it, returns its tid. */
  lemma JoinAfterExit(s: Sched, pick: nat, ops: seq<Op>, pick': nat)
    requires Good(s) && s.alive && s.queue != []
    requires forall k :: 0 <= k < |ops| ==> !(ops[k].DoJoin? && ops[k].tid == s.current)
    ensures var u := Do(s, DoExit(pick)).0;
            && Good(u) && var v := RunOps(u, ops);
            v.alive ==> v.current != s.current && Do(v, DoJoin(s.current, pick')).1 == Returned(s.current)
  {
    hide RunOps;
    ExitMeans(s, pick);
    ExitKeepsGood(s, pick);
    var u := Do(s, DoExit(pick)).0;
    assert HasEnded(u, s.current);
    EndedUntilJoined(u, ops, s.current);
    var v := RunOps(u, ops);
    if v.alive {
      TurnDecides(v, s.current, pick');
    }
  }

  /** One turn of `tus_join`: an error, the end of the wait, or a yield to any. */
  lemma JoinMeans(s: Sched, tid: int, pick: nat)
    requires Good(s) && s.alive
    ensures var (u, o) := Do(s, DoJoin(tid, pick));
            if tid == s.current || tid !in s.threads then u == s && o == Returned(-1)
            else if s.threads[tid].state == Ended then
              && o == Returned(tid) && u.queue == s.queue && u.current == s.current && u.alive && u.fcfs == s.fcfs
              && (forall t :: t in u.threads <==> t in s.threads && t != tid)
              && forall t :: t in u.threads ==> u.threads[t] == s.threads[t]
            else (u, o) == Do(s, DoYield(ANY, pick))
  {
    if tid in s.threads {
      assert ThreadOk(s, tid);
    }
  }

  /** `tus_cancel` ends any other thread that has not ended, and takes it off the queue. */
  lemma CancelMeans(s: Sched, tid: int)
    requires Good(s) && s.alive
    ensures var (u, o) := Do(s, DoCancel(tid));
            if tid == s.current || tid !in s.threads || s.threads[tid].state == Ended then u == s && o == Returned(-1)
            else
              && o == Returned(0) && u.current == s.current && u.alive && OnlyChanges(s, u, tid, tid)
              && u.threads[tid] == s.threads[tid].(state := Ended, resumeFlag := false)
              && exists i :: 0 <= i < |s.queue| && s.queue[i] == tid && Leaves(s.queue, i, u.queue)
  {
    if tid in s.threads && tid != s.current && s.threads[tid].state != Ended {
      assert ThreadOk(s, tid);
      var i := RemovedFrom(s.queue, tid);
    }
  }

  /** A scheduling decision is a call after which another, or the same, thread runs without having been named. */
  lemma DecisionMeans(s: Sched, op: Op)
    requires Good(s) && s.alive
    ensures Decision(s, op) <==> op.DoExit? || (Do(s, op).1.Switched? && !(op.DoYield? && op.tid != ANY))
  {
  }
}
