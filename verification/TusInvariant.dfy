/** What every call of the thread library keeps, whoever makes it. */
module TusInvariant {
  import opened Counting
  import opened RingQueue
  import opened TusState

  /** A thread that `setcontext` may be given: it starts, or returns from its yield. */
  predicate Resumable(t: Thread) {
    if t.saved.Fresh? then !t.resumeFlag else t.resumeFlag && 1 <= t.yieldResult <= MAX_THREADS
  }

  ghost predicate ThreadOk(s: Sched, t: int)
    requires t in s.threads
  {
    var th := s.threads[t];
    && th.tid == t && 1 <= t <= MAX_THREADS
    && (th.state.Running? <==> t == s.current)
    && (if th.state.Ready? then Resumable(th) else !th.resumeFlag)
    && (th.state.Ready? <==> t in s.queue)
  }

  /**
   * Exactly one thread runs, and it is the current one; the queue holds exactly the ready
   * threads, each once; every ready thread can be resumed properly.
   */
  ghost predicate Good(s: Sched) {
    && Named(s) && Distinct(s.queue)
    && (forall t :: t in s.threads ==> ThreadOk(s, t))
  }

  lemma InitIsGood(fcfs: bool)
    ensures Good(InitSched(fcfs))
  {
  }

  /** The running thread is not queued, so there is always room to queue it. */
  lemma QueueHasRoom(s: Sched)
    requires Good(s)
    ensures |s.queue| < CAPACITY && |s.threads| <= MAX_THREADS
  {
    assert ThreadOk(s, s.current);
    forall t | t in s.queue ensures 1 <= t < MAX_THREADS + 1 {
      assert ThreadOk(s, t);
    }
    assert s.current !in s.queue;
    var q := s.queue + [s.current];
    assert forall i :: 0 <= i < |s.queue| ==> q[i] == s.queue[i] && q[i] in s.queue;
    DistinctFit(q, 1, MAX_THREADS + 1);
    forall t | t in s.threads.Keys ensures 1 <= t < MAX_THREADS + 1 {
      assert ThreadOk(s, t);
    }
    RangeFits(s.threads.Keys, 1, MAX_THREADS + 1);
  }

  /** While there are fewer than 64 threads there is a tid to give. */
  lemma TidIsLeft(s: Sched)
    requires Good(s) && |s.threads| < MAX_THREADS
    ensures LeastFree(s.threads, 1) != ERROR
  {
    if LeastFree(s.threads, 1) == ERROR {
      forall t | t in s.threads.Keys ensures 1 <= t < MAX_THREADS + 1 {
        assert ThreadOk(s, t);
      }
      AllOfRange(s.threads.Keys, 1, MAX_THREADS + 1);
    }
  }

  lemma {:induction false} AllOfRange(s: set<int>, lo: int, hi: int)
    requires lo <= hi && forall v :: lo <= v < hi ==> v in s
    ensures |s| >= hi - lo
    decreases hi - lo
  {
    if lo == hi {
    } else {
      AllOfRange(s - {hi - 1}, lo, hi - 1);
    }
  }

  lemma {:induction false} WithoutFirstMembers(q: seq<int>, x: int)
    requires Distinct(q)
    ensures Distinct(WithoutFirst(q, x))
    ensures forall t :: t in WithoutFirst(q, x) <==> t in q && t != x
  {
    if q == [] {
    } else {
      assert Distinct(q[1..]);
      WithoutFirstMembers(q[1..], x);
      assert q == [q[0]] + q[1..];
      assert q[0] !in q[1..];
      assert forall t :: t in q <==> t == q[0] || t in q[1..];
      if q[0] != x {
        assert WithoutFirst(q, x) == [q[0]] + WithoutFirst(q[1..], x);
      }
    }
  }

  lemma WithoutMembers(q: seq<int>, i: nat)
    requires Distinct(q) && i < |q|
    ensures Distinct(Without(q, i))
    ensures forall t :: t in Without(q, i) <==> t in q && t != q[i]
  {
    forall t | t in q && t != q[i] ensures t in Without(q, i) {
      var j :| 0 <= j < |q| && q[j] == t;
      assert Without(q, i)[if j < i then j else j - 1] == t;
    }
  }

  // ---- Calls ----

  lemma CreateKeepsGood(s: Sched)
    requires Good(s)
    ensures Good(Create(s).0)
    ensures Create(s).1 == Returned(ERROR) <==> |s.threads| >= MAX_THREADS
  {
    var tid := LeastFree(s.threads, 1);
    if |s.threads| < MAX_THREADS {
      TidIsLeft(s);
      var u := Create(s).0;
      forall t | t in u.threads ensures ThreadOk(u, t) {
        assert t in s.threads ==> ThreadOk(s, t);
      }
    }
  }

  /** Handing over from the running thread to a ready one. */
  lemma HandoverKeepsGood(s: Sched, next: int, q: seq<int>)
    requires Good(s) && next in s.threads && (next == s.current || next in s.queue)
    requires Distinct(q) && forall t :: t in q <==> (t in s.queue || t == s.current) && t != next
    ensures Good(Dispatch(Suspend(s, next).(queue := q), next))
  {
    var u := Dispatch(Suspend(s, next).(queue := q), next);
    assert ThreadOk(s, next) && ThreadOk(s, s.current);
    forall t | t in u.threads ensures ThreadOk(u, t) {
      assert ThreadOk(s, t);
    }
  }

  lemma YieldKeepsGood(s: Sched, tid: int, pick: nat)
    requires Good(s)
    ensures Good(Yield(s, tid, pick).0)
  {
    assert ThreadOk(s, s.current);
    if tid == ANY {
      var q := s.queue + [s.current];
      var i := PickIndex(s, q, pick);
      WithoutMembers(q, i);
      HandoverKeepsGood(s, q[i], Without(q, i));
    } else if tid > 0 && tid != s.current && tid in s.threads && s.threads[tid].state.Ready? {
      assert ThreadOk(s, tid);
      WithoutFirstMembers(s.queue, tid);
      HandoverKeepsGood(s, tid, WithoutFirst(s.queue, tid) + [s.current]);
    } else {
      var u := Yield(s, tid, pick).0;
      forall t | t in u.threads ensures ThreadOk(u, t) {
        assert ThreadOk(s, t);
      }
    }
  }

  lemma ExitKeepsGood(s: Sched, pick: nat)
    requires Good(s) && s.queue != []
    ensures Good(Exit(s, pick).0)
  {
    var i := PickIndex(s, s.queue, pick);
    WithoutMembers(s.queue, i);
    var u := Exit(s, pick).0;
    assert s.queue[i] in s.queue;
    forall t | t in u.threads ensures ThreadOk(u, t) {
      assert ThreadOk(s, t);
    }
  }

  lemma CancelKeepsGood(s: Sched, tid: int)
    requires Good(s)
    ensures Good(Cancel(s, tid).0)
  {
    WithoutFirstMembers(s.queue, tid);
    var u := Cancel(s, tid).0;
    forall t | t in u.threads ensures ThreadOk(u, t) {
      assert ThreadOk(s, t);
    }
  }

  lemma JoinKeepsGood(s: Sched, tid: int, pick: nat)
    requires Good(s)
    ensures Good(JoinTurn(s, tid, pick).0)
  {
    YieldKeepsGood(s, ANY, pick);
    if tid in s.threads && s.threads[tid].state.Ended? {
      assert ThreadOk(s, tid);
      var u := s.(threads := s.threads - {tid});
      forall t | t in u.threads ensures ThreadOk(u, t) {
        assert ThreadOk(s, t);
      }
      forall t | t in s.queue ensures t in u.threads {
        assert ThreadOk(s, t);
      }
    }
  }

  /** Every call keeps the invariant; only the last thread's exit ends the process. */
  lemma DoKeepsGood(s: Sched, op: Op)
    requires Good(s) && s.alive
    ensures Do(s, op).0.alive ==> Good(Do(s, op).0)
    ensures !Do(s, op).0.alive <==> op.DoExit? && s.queue == []
    ensures Named(Do(s, op).0)
  {
    match op
    case DoCreate => CreateKeepsGood(s);
    case DoYield(tid, pick) => YieldKeepsGood(s, tid, pick);
    case DoExit(pick) =>
      if s.queue != [] {
        ExitKeepsGood(s, pick);
      }
    case DoJoin(tid, pick) => JoinKeepsGood(s, tid, pick);
    case DoCancel(tid) => CancelKeepsGood(s, tid);
  }
}
