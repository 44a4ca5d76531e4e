/** Ending, joining and tid reuse, over whole runs. */
module TusLifecycle {
  import opened RingQueue
  import opened TusState
  import opened TusInvariant
  import opened TusFairness

  ghost predicate HasEnded(s: Sched, t: int) {
    t in s.threads && s.threads[t].state.Ended?
  }

  /** A call touches no thread but the caller, the one it names and the one that runs next. */
  lemma OthersAreUntouched(s: Sched, op: Op, t: int)
    requires Good(s) && s.alive && t in s.threads && t != s.current && t != Do(s, op).0.current
    requires !(op.DoJoin? && op.tid == t) && op != DoCancel(t)
    ensures t in Do(s, op).0.threads && Do(s, op).0.threads[t] == s.threads[t]
  {
    if op.DoCreate? && |s.threads| < MAX_THREADS {
      TidIsLeft(s);
    }
  }

  /** An ended thread is never queued and never runs again; only joining it removes it. */
  lemma {:induction false} EndedUntilJoined(s: Sched, ops: seq<Op>, t: int)
    requires Good(s) && s.alive && HasEnded(s, t)
    requires forall k :: 0 <= k < |ops| ==> !(ops[k].DoJoin? && ops[k].tid == t)
    ensures var u := RunOps(s, ops);
            u.alive ==> HasEnded(u, t) && u.threads[t] == s.threads[t] && u.current != t && t !in u.queue
    decreases |ops|
  {
    assert ThreadOk(s, t);
    if ops == [] {
    } else {
      DoKeepsGood(s, ops[0]);
      var u := Do(s, ops[0]).0;
      if u.alive {
        EndedIsLeftAlone(s, ops[0], t);
        EndedUntilJoined(u, ops[1..], t);
      }
    }
  }

  lemma EndedIsLeftAlone(s: Sched, op: Op, t: int)
    requires Good(s) && s.alive && HasEnded(s, t) && !(op.DoJoin? && op.tid == t)
    ensures Do(s, op).0.alive ==> HasEnded(Do(s, op).0, t) && Do(s, op).0.threads[t] == s.threads[t]
  {
    assert ThreadOk(s, t);
    DoKeepsGood(s, op);
    var u := Do(s, op).0;
    if u.alive {
      NextWasReadyOrSame(s, op);
      if op != DoCancel(t) {
        OthersAreUntouched(s, op, t);
      }
    }
  }

  /** Whoever runs after a call ran before it or was ready. */
  lemma NextWasReadyOrSame(s: Sched, op: Op)
    requires Good(s) && s.alive && Do(s, op).0.alive
    ensures var next := Do(s, op).0.current;
            next == s.current || (next in s.threads && s.threads[next].state.Ready? && next in s.queue)
  {
    var next := Do(s, op).0.current;
    if next != s.current {
      if op.DoYield? && op.tid != ANY {
        assert ThreadOk(s, next);
      } else {
        assert next in s.queue;
        assert ThreadOk(s, next);
      }
    }
  }

  /** Joining: exactly an ended thread is given back at once, and its slot and tid are free again. */
  lemma JoinReapsTheEnded(s: Sched, tid: int, pick: nat)
    requires Good(s) && s.alive
    ensures var (u, o) := JoinTurn(s, tid, pick);
            && (o == Returned(tid) && tid > 0 <==> HasEnded(s, tid))
            && (HasEnded(s, tid) ==> u.threads == s.threads - {tid} && |u.threads| == |s.threads| - 1
                                     && u.queue == s.queue && u.current == s.current)
            && (o == Returned(ERROR) <==> tid == s.current || tid !in s.threads)
  {
    assert ThreadOk(s, s.current);
    if tid in s.threads {
      assert ThreadOk(s, tid);
    }
    if HasEnded(s, tid) {
      assert (s.threads - {tid}).Keys == s.threads.Keys - {tid};
    }
  }

  /** Straight after a join, creating a thread cannot fail, and gives the joined tid unless a smaller one is free. */
  lemma JoinedTidComesBack(s: Sched, tid: int, pick: nat)
    requires Good(s) && s.alive && HasEnded(s, tid)
    ensures var u := JoinTurn(s, tid, pick).0;
            exists t :: Create(u).1 == Returned(t) && 1 <= t <= tid && t !in u.threads
  {
    JoinReapsTheEnded(s, tid, pick);
    JoinKeepsGood(s, tid, pick);
    QueueHasRoom(s);
    assert ThreadOk(s, tid);
    var u := JoinTurn(s, tid, pick).0;
    TidIsLeft(u);
    LeastFreeIsLeast(u.threads, 1, tid);
    assert Create(u).1 == Returned(LeastFree(u.threads, 1));
  }

  lemma LeastFreeIsLeast(threads: map<int, Thread>, from: nat, t: int)
    requires 1 <= from <= t <= MAX_THREADS && t !in threads
    ensures from <= LeastFree(threads, from) <= t
  {
  }

  /** Under random scheduling every waiting thread can be the one picked. */
  lemma RandomCanPickAnyone(s: Sched, t: int)
    requires Good(s) && !s.fcfs && t in s.queue
    ensures exists pick: nat :: Yield(s, ANY, pick).1 == Switched(t)
  {
    hide Good, Suspend, Dispatch;
    NamedIsGood(s);
    var i :| 0 <= i < |s.queue| && s.queue[i] == t;
    var q := s.queue + [s.current];
    SmallModulus(i, |q|);
    assert PickIndex(s, q, i) == i && q[i] == t;
    assert Yield(s, ANY, i).1 == Switched(t);
  }

  lemma NamedIsGood(s: Sched)
    requires Good(s)
    ensures Named(s)
  {
  }

  lemma SmallModulus(i: nat, n: nat)
    requires i < n
    ensures i % n == i
  {
  }

  // ---- The whole loop of tus_join ----

  /** Thread `j` is somewhere in its loop joining `t`. */
  ghost predicate Joining(s: Sched, j: int, t: int) {
    && j in s.threads && !HasEnded(s, j)
    && t in s.threads && t != j
  }

  /**
   * A call made while `j` joins `t`: when `j` runs it takes another turn of its loop, which has
   * not found `t` ended yet; the others may do anything but cancel `j` or join `t` themselves.
   */
  ghost predicate WhileJoining(s: Sched, op: Op, j: int, t: int) {
    && op != DoCancel(j)
    && if s.current == j then op.DoJoin? && op.tid == t && !HasEnded(s, t) else !(op.DoJoin? && op.tid == t)
  }

  ghost predicate JoinLoop(s: Sched, ops: seq<Op>, j: int, t: int)
    requires Good(s) || !s.alive
    decreases |ops|
  {
    ops == [] || !s.alive ||
    (WhileJoining(s, ops[0], j, t) &&
     (DoKeepsGood(s, ops[0]);
      JoinLoop(Do(s, ops[0]).0, ops[1..], j, t)))
  }

  lemma CallWhileJoining(s: Sched, op: Op, j: int, t: int)
    requires Good(s) && s.alive && Joining(s, j, t) && WhileJoining(s, op, j, t)
    ensures Do(s, op).0.alive && Joining(Do(s, op).0, j, t)
    ensures s.current == j ==> Do(s, op).1.Switched?
  {
    assert ThreadOk(s, j) && ThreadOk(s, t);
    DoKeepsGood(s, op);
    NextWasReadyOrSame(s, op);
  }

  lemma LoopStep(s: Sched, ops: seq<Op>, j: int, t: int)
    requires Good(s) && s.alive && ops != [] && JoinLoop(s, ops, j, t)
    ensures WhileJoining(s, ops[0], j, t)
    ensures var u := Do(s, ops[0]).0; (Good(u) || !u.alive) && JoinLoop(u, ops[1..], j, t)
  {
    hide Good, WhileJoining, Do;
    NamedIsGood(s);
    DoKeepsGood(s, ops[0]);
  }

  lemma RunStep(s: Sched, ops: seq<Op>, k: nat)
    requires Good(s) && s.alive && 0 < k <= |ops|
    ensures var u := Do(s, ops[0]).0;
            (Good(u) || !u.alive) && RunOps(s, ops[..k]) == RunOps(u, ops[1..][..k - 1])
  {
    hide Good, Do;
    NamedIsGood(s);
    DoKeepsGood(s, ops[0]);
    assert ops[..k][1..] == ops[1..][..k - 1] && ops[..k][0] == ops[0];
  }

  lemma NoRun(s: Sched)
    requires Good(s)
    ensures RunOps(s, []) == s
  {
  }

  lemma {:induction false} StillJoining(s: Sched, ops: seq<Op>, j: int, t: int, k: nat)
    requires Good(s) && s.alive && Joining(s, j, t) && JoinLoop(s, ops, j, t) && k <= |ops|
    ensures var u := RunOps(s, ops[..k]); u.alive && Joining(u, j, t) && JoinLoop(u, ops[k..], j, t)
    decreases k
  {
    hide Good, Joining, HasEnded, Do, RunOps, JoinLoop, WhileJoining;
    if k == 0 {
      assert ops[..0] == [] && ops[0..] == ops;
      NoRun(s);
    } else {
      NamedIsGood(s);
      LoopStep(s, ops, j, t);
      CallWhileJoining(s, ops[0], j, t);
      RunStep(s, ops, k);
      var rest := ops[1..];
      assert ops[k..] == rest[k - 1..];
      StillJoining(Do(s, ops[0]).0, rest, j, t, k - 1);
    }
  }

  /**
   * Over any run of the loop the joiner keeps waiting for one and the same thread: its tid is
   * never given up, each turn before that thread has ended switches away, and the first turn
   * that finds it ended returns it.
   */
  lemma JoinWaitsForOneThread(s: Sched, ops: seq<Op>, j: int, t: int, k: nat, pick: nat)
    requires Good(s) && s.alive && Joining(s, j, t) && JoinLoop(s, ops, j, t) && k <= |ops|
    ensures var u := RunOps(s, ops[..k]);
            && u.alive && Joining(u, j, t)
            && (u.current == j && k < |ops| ==> Do(u, ops[k]).1.Switched?)
            && (u.current == j ==> if HasEnded(u, t) then JoinTurn(u, t, pick).1 == Returned(t)
                                   else JoinTurn(u, t, pick).1.Switched?)
  {
    hide Good, Joining, HasEnded, Do, RunOps, JoinTurn;
    StillJoining(s, ops, j, t, k);
    var u := RunOps(s, ops[..k]);
    NamedIsGood(u);
    if u.current == j {
      JoinerIsNotJoined(u, j, t);
      TurnDecides(u, t, pick);
      if k < |ops| {
        assert ops[k..][0] == ops[k];
        CallWhileJoining(u, ops[k], j, t);
      }
    }
  }

  lemma JoinerIsNotJoined(s: Sched, j: int, t: int)
    requires Joining(s, j, t)
    ensures t in s.threads && t != j
  {
  }

  lemma TurnDecides(s: Sched, t: int, pick: nat)
    requires Good(s) && t in s.threads && t != s.current
    ensures if HasEnded(s, t) then JoinTurn(s, t, pick).1 == Returned(t) else JoinTurn(s, t, pick).1.Switched?
  {
    assert ThreadOk(s, t);
  }

  /**
   * Under FCFS the join also comes to its end: once `t` has ended, a joiner with `p` threads
   * before it runs within `p + 1` scheduling decisions, and the turn it then takes returns `t`.
   */
  lemma JoinReturnsUnderFcfs(s: Sched, ops: seq<Op>, j: int, t: int, p: nat, pick: nat)
    requires Good(s) && s.alive && s.fcfs && HasEnded(s, t) && QueuedWithin(s, j, p)
    requires forall k :: 0 <= k < |ops| ==> ops[k] != DoCancel(j) && !(ops[k].DoJoin? && ops[k].tid == t)
    requires Decisions(s, ops) > p
    ensures exists k :: 0 <= k <= |ops| && RunOps(s, ops[..k]).alive && RunOps(s, ops[..k]).current == j
                        && JoinTurn(RunOps(s, ops[..k]), t, pick).1 == Returned(t)
  {
    hide RunOps, JoinTurn, Decisions, QueuedWithin;
    FcfsBoundsTheWait(s, ops, j, p);
    var k :| 0 <= k <= |ops| && RunOps(s, ops[..k]).alive && RunOps(s, ops[..k]).current == j;
    EndedUntilJoined(s, ops[..k], t);
    TurnDecides(RunOps(s, ops[..k]), t, pick);
  }
}
