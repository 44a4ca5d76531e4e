/** First come, first served: how long a ready thread can be made to wait. */
module TusFairness {
  import opened Counting
  import opened RingQueue
  import opened TusState
  import opened TusInvariant

  ghost function RunOps(s: Sched, ops: seq<Op>): (u: Sched)
    requires Good(s) || !s.alive
    ensures Good(u) || !u.alive
    decreases |ops|
  {
    if ops == [] || !s.alive then s
    else
      DoKeepsGood(s, ops[0]);
      RunOps(Do(s, ops[0]).0, ops[1..])
  }

  /** From `tus_init` on, whatever the running threads do, the invariant holds until the process exits. */
  lemma EveryRunIsGood(fcfs: bool, ops: seq<Op>)
    ensures Good(InitSched(fcfs))
    ensures RunOps(InitSched(fcfs), ops).alive ==> Good(RunOps(InitSched(fcfs), ops))
  {
    InitIsGood(fcfs);
  }

  /** A call after which the scheduler, not the caller, has chosen who runs. */
  predicate Decision(s: Sched, op: Op)
    requires Named(s)
  {
    match op
    case DoYield(tid, _) => tid == ANY
    case DoExit(_) => true
    case DoJoin(tid, pick) => JoinTurn(s, tid, pick).1.Switched?
    case _ => false
  }

  ghost predicate QueuedWithin(s: Sched, t: int, p: nat) {
    exists i :: 0 <= i <= p && i < |s.queue| && s.queue[i] == t
  }

  lemma {:induction false} WithoutFirstAt(q: seq<int>, x: int, i: nat)
    requires Distinct(q) && i < |q| && q[i] != x
    ensures var r := WithoutFirst(q, x);
            (i < |r| && r[i] == q[i]) || (0 < i <= |r| && r[i - 1] == q[i])
  {
    if q[0] == x || i == 0 {
    } else {
      assert Distinct(q[1..]);
      WithoutFirstAt(q[1..], x, i - 1);
    }
  }

  /** One call: a waiting thread is dispatched, or is no further back, and one nearer after a decision. */
  lemma CallAdvances(s: Sched, op: Op, t: int, p: nat)
    requires Good(s) && s.alive && s.fcfs && p < |s.queue| && s.queue[p] == t && op != DoCancel(t)
    ensures var u := Do(s, op).0;
            && u.alive && u.fcfs
            && (u.current == t ||
                if Decision(s, op) then p > 0 && QueuedWithin(u, t, p - 1) else QueuedWithin(u, t, p))
  {
    var u := Do(s, op).0;
    assert t in s.queue;
    if Decision(s, op) {
      if p > 0 {
        assert u.queue[p - 1] == t;
      }
    } else if op.DoYield? && Do(s, op).1.Switched? && op.tid != t {
      WithoutFirstAt(s.queue, op.tid, p);
      var r := WithoutFirst(s.queue, op.tid);
      assert u.queue == r + [s.current];
      assert (p < |r| && u.queue[p] == t) || (0 < p <= |r| && u.queue[p - 1] == t);
    } else if op.DoCancel? && u != s {
      WithoutFirstAt(s.queue, op.tid, p);
      WithoutFirstMembers(s.queue, op.tid);
      assert s.threads[op.tid].state.Ready? || u.queue == s.queue;
    } else if u.current != t {
      assert u.queue[p] == t;
    }
  }

  ghost function Decisions(s: Sched, ops: seq<Op>): nat
    requires Good(s) || !s.alive
    decreases |ops|
  {
    if ops == [] || !s.alive then 0
    else
      DoKeepsGood(s, ops[0]);
      (if Decision(s, ops[0]) then 1 else 0) + Decisions(Do(s, ops[0]).0, ops[1..])
  }

  ghost predicate RunsAtSomePoint(s: Sched, ops: seq<Op>, t: int)
    requires Good(s) || !s.alive
  {
    exists k :: 0 <= k <= |ops| && RunOps(s, ops[..k]).alive && RunOps(s, ops[..k]).current == t
  }

  /**
   * Bounded wait: under FCFS a thread with `p` others before it in the queue runs by the
   * time of `p + 1` scheduling decisions, whatever else happens, unless it is cancelled.
   */
  lemma {:induction false} FcfsBoundsTheWait(s: Sched, ops: seq<Op>, t: int, p: nat)
    requires Good(s) && s.alive && s.fcfs && QueuedWithin(s, t, p)
    requires forall k :: 0 <= k < |ops| ==> ops[k] != DoCancel(t)
    requires Decisions(s, ops) > p
    ensures RunsAtSomePoint(s, ops, t)
    decreases |ops|
  {
    var i :| 0 <= i <= p && i < |s.queue| && s.queue[i] == t;
    var op, rest := ops[0], ops[1..];
    DoKeepsGood(s, op);
    var u := Do(s, op).0;
    CallAdvances(s, op, t, i);
    if u.current == t {
      assert ops[..1][1..] == [];
      assert RunOps(u, []) == u;
      assert RunOps(s, ops[..1]) == u;
    } else {
      FcfsBoundsTheWait(u, rest, t, if Decision(s, op) then p - 1 else p);
      var k :| 0 <= k <= |rest| && RunOps(u, rest[..k]).alive && RunOps(u, rest[..k]).current == t;
      assert ops[..k + 1][1..] == rest[..k];
      assert RunOps(s, ops[..k + 1]) == RunOps(u, rest[..k]);
    }
  }

  // ---- What a yield returns ----

  /** Thread `c` sleeps in a yield that will return `to`. */
  ghost predicate Sleeps(s: Sched, c: int, to: int) {
    c in s.threads && s.threads[c].state.Ready? && s.threads[c].saved.InYield? && s.threads[c].yieldResult == to
  }

  lemma SleepIsUndisturbed(s: Sched, op: Op, c: int, to: int)
    requires Good(s) && s.alive && Sleeps(s, c, to) && op != DoCancel(c)
    ensures var u := Do(s, op).0;
            && (u.alive ==> Sleeps(u, c, to) || (u.current == c && u.threads[c].yieldResult == to))
            && u.alive
  {
    assert ThreadOk(s, c);
    DoKeepsGood(s, op);
  }

  /**
   * A thread that yields and is switched away from gets back, when it next runs, the tid of
   * the thread its yield switched to, however long that takes.
   */
  lemma {:induction false} YieldReturnsWhoRan(s: Sched, ops: seq<Op>, c: int, to: int)
    requires Good(s) && s.alive && Sleeps(s, c, to)
    requires forall k :: 0 <= k < |ops| ==> ops[k] != DoCancel(c)
    requires forall k :: 0 <= k < |ops| ==> RunOps(s, ops[..k]).current != c
    ensures var u := RunOps(s, ops);
            && u.alive && c in u.threads && u.threads[c].yieldResult == to
            && (if u.current == c then !u.threads[c].resumeFlag else Sleeps(u, c, to))
    decreases |ops|
  {
    assert ThreadOk(s, c);
    if ops == [] {
    } else {
      var u, rest := Do(s, ops[0]).0, ops[1..];
      SleepIsUndisturbed(s, ops[0], c, to);
      DoKeepsGood(s, ops[0]);
      if u.current == c {
        if rest != [] {
          assert ops[..1][1..] == [] && RunOps(u, []) == u;
          assert RunOps(s, ops[..1]) == u;
        }
        assert ThreadOk(u, c);
      } else {
        forall k | 0 <= k < |rest| ensures RunOps(u, rest[..k]).current != c {
          assert ops[..k + 1][1..] == rest[..k];
          assert RunOps(s, ops[..k + 1]) == RunOps(u, rest[..k]);
        }
        YieldReturnsWhoRan(u, rest, c, to);
      }
    }
  }

  /** Where such a sleep begins. */
  lemma YieldPutsToSleep(s: Sched, tid: int, pick: nat)
    requires Good(s) && s.alive
    ensures var (u, o) := Yield(s, tid, pick);
            && (o.Switched? && o.to != s.current ==> Sleeps(u, s.current, o.to) && u.current == o.to)
            && (o.Switched? && tid > 0 ==> o.to == tid)
            && (o.Switched? && o.to == s.current ==> s.threads.Keys == u.threads.Keys && u.current == s.current)
  {
    assert ThreadOk(s, s.current);
  }
}
