/** What can and what cannot still happen from a reachable state. */
module RsmFuture {
  import opened Vectors
  import opened Reduction
  import opened RsmState
  import opened RsmInvariant

  // ---- What a wake-up pass may change ----

  ghost predicate SameRow(s: State, t: State, k: nat)
    requires Formed(s) && Formed(t) && |t.active| == |s.active| && k < |s.active|
  {
    && t.allocation[k] == s.allocation[k] && t.request[k] == s.request[k] && t.need[k] == s.need[k]
    && t.waiting[k] == s.waiting[k] && t.tokens[k] == s.tokens[k]
  }

  /** Waiter `k` got exactly its request and one token. */
  ghost predicate Served(s: State, t: State, k: nat)
    requires Formed(s) && Formed(t) && |t.active| == |s.active| && |t.existing| == |s.existing| && k < |s.active|
  {
    && s.waiting[k] && s.active[k] && !t.waiting[k]
    && t.allocation[k] == Plus(s.allocation[k], s.request[k])
    && t.request[k] == Zero(|s.existing|)
    && t.tokens[k] == s.tokens[k] + 1
  }

  lemma {:induction false} WakeEffect(s: State, i: nat)
    requires Formed(s) && i <= |s.active|
    ensures var t := WakeFrom(s, i);
            && t.maxDemand == s.maxDemand && t.claimed == s.claimed && t.started == s.started
            && t.active == s.active && t.requestedOnce == s.requestedOnce
            && (forall k :: 0 <= k < |s.active| ==> SameRow(s, t, k) || Served(s, t, k))
            && (forall k :: 0 <= k < i ==> SameRow(s, t, k))
    decreases |s.active| - i
  {
    if i == |s.active| {
    } else {
      var u := if Grantable(s, i) then GrantWaiter(s, i) else s;
      WakeEffect(u, i + 1);
      var t := WakeFrom(u, i + 1);
      forall k: nat | k < |s.active| ensures SameRow(s, t, k) || (k >= i && Served(s, t, k)) {
        assert if k == i && u != s then Served(s, u, k) else SameRow(s, u, k);
        assert SameRow(u, t, k) || Served(u, t, k);
      }
    }
  }

  // ---- Avoidance: nobody is ever stuck ----

  /** A process whose whole need is in the pool cannot be asleep: a wake-up would have been lost. */
  lemma RunnerIsAwake(s: State, i: nat)
    requires Inv(s) && s.avoid && i < |s.active| && s.active[i] && Leq(s.need[i], s.available)
    ensures !s.waiting[i]
  {
    assert ProcessOk(s, i) && !Grantable(s, i);
    if s.waiting[i] {
      RunnerMayBeGranted(Banker(s), Pretend(s, i, s.request[i]), i);
    }
  }

  lemma SomebodyIsAwake(s: State) returns (i: nat)
    requires Inv(s) && s.avoid && ActiveSet(s) != {}
    ensures i in ActiveSet(s) && Leq(s.need[i], s.available) && !s.waiting[i]
  {
    i := SafeHasRunner(Banker(s));
    RunnerIsAwake(s, i);
  }

  /** In the course of `cs`, process `i` comes to hold everything it claimed in `s`. */
  ghost predicate ObtainsClaim(s: State, cs: seq<Call>, i: nat)
    requires Formed(s) && LegalRun(s, cs) && i < |s.active|
  {
    exists k :: 0 <= k <= |cs| && HoldsClaimAfter(s, cs, i, k)
  }

  ghost predicate HoldsClaimAfter(s: State, cs: seq<Call>, i: nat, k: nat)
    requires Formed(s) && i < |s.active| && k <= |cs|
  {
    LegalRun(s, cs[..k]) &&
    var t := Run(s, cs[..k]);
    t.active[i] && t.allocation[i] == s.maxDemand[i]
  }

  /** `cs` lets every active process obtain its claim, if it made one, and end. */
  ghost predicate FinishesAll(s: State, cs: seq<Call>)
    requires Formed(s)
  {
    && LegalRun(s, cs) && ActiveSet(Run(s, cs)) == {}
    && forall i :: i in ActiveSet(s) && s.claimed[i] ==> ObtainsClaim(s, cs, i)
  }

  function Awaken(s: State, i: nat): seq<Call>
    requires i < |s.tokens|
  {
    if s.tokens[i] > 0 then [CResume(i)] else []
  }

  lemma AwakenRuns(s: State, i: nat)
    requires Inv(s) && i < |s.active| && s.active[i] && !s.waiting[i]
    ensures var cs := Awaken(s, i);
            LegalRun(s, cs) && Run(s, cs) == s.(tokens := s.tokens[i := 0]) && Inv(Run(s, cs))
  {
    assert ProcessOk(s, i);
    var cs := Awaken(s, i);
    if s.tokens[i] > 0 {
      assert cs[1..] == [];
      assert LegalRun(Step(s, cs[0]).state, cs[1..]);
    }
    RunKeepsInv(s, cs);
  }

  function AskAll(s: State, i: nat): seq<Call>
    requires i < |s.claimed| && i < |s.need|
  {
    if s.claimed[i] then [CRequest(i, s.need[i])] else []
  }

  lemma WholeNeedMayBeGranted(s: State, i: nat)
    requires Inv(s) && s.avoid && i < |s.active| && s.active[i] && Leq(s.need[i], s.available)
    ensures var r := s.need[i];
            Amount(s, r) && Leq(r, s.existing) &&
            var noted := s.(requestedOnce := s.requestedOnce[i := true], request := s.request[i := r]);
            Formed(noted) && MayGrant(noted, i, r)
  {
    hide Safe, Quiet, Conserved;
    assert ProcessOk(s, i);
    var r := s.need[i];
    var noted := s.(requestedOnce := s.requestedOnce[i := true], request := s.request[i := r]);
    forall j | 0 <= j < |r| ensures r[j] <= s.existing[j] {
      assert Plus(s.allocation[i], s.need[i])[j] == s.maxDemand[i][j];
    }
    RunnerMayBeGranted(Banker(s), Pretend(s, i, r), i);
    assert ActiveSet(noted) == ActiveSet(s) && Pretend(noted, i, r) == Pretend(s, i, r);
  }

  /** An awake process whose need is in the pool is granted all of it at once. */
  lemma AskAllIsGranted(s: State, i: nat)
    requires Inv(s) && s.avoid && i < |s.active| && s.active[i] && !Blocked(s, i) && Leq(s.need[i], s.available)
    ensures var cs := AskAll(s, i);
            LegalRun(s, cs) && Inv(Run(s, cs)) &&
            var t := Run(s, cs);
            && t.active == s.active && t.claimed == s.claimed && t.maxDemand == s.maxDemand && !Blocked(t, i)
            && (s.claimed[i] ==> t.allocation[i] == s.maxDemand[i])
  {
    hide Safe, Quiet, Conserved;
    assert ProcessOk(s, i);
    var cs := AskAll(s, i);
    if s.claimed[i] {
      WholeNeedMayBeGranted(s, i);
      assert cs[1..] == [];
      assert LegalRun(Step(s, cs[0]).state, cs[1..]);
    }
    RunKeepsInv(s, cs);
  }

  lemma EndRuns(s: State, i: nat)
    requires Inv(s) && i < |s.active| && s.active[i] && !Blocked(s, i)
    ensures var cs := [CEnd(i)];
            LegalRun(s, cs) && Inv(Run(s, cs)) &&
            var t := Run(s, cs);
            && ActiveSet(t) == ActiveSet(s) - {i}
            && t == Wake(Retire(s, i))
            && forall k :: 0 <= k < |s.active| && k != i ==> t.maxDemand[k] == s.maxDemand[k] && t.claimed[k] == s.claimed[k]
  {
    assert ProcessOk(s, i);
    var cs := [CEnd(i)];
    assert cs[1..] == [];
    assert LegalRun(Step(s, cs[0]).state, cs[1..]);
    RunKeepsInv(s, cs);
    WakeEffect(Retire(s, i), 0);
    ActiveSetChanges(s, Retire(s, i), i);
    assert ActiveSet(Run(s, cs)) == ActiveSet(Retire(s, i));
  }

  /** The first process of a safe order can take all it claimed and leave. */
  lemma FinishOne(s: State, i: nat) returns (cs: seq<Call>)
    requires Inv(s) && s.avoid && i in ActiveSet(s) && Leq(s.need[i], s.available) && !s.waiting[i]
    ensures LegalRun(s, cs) && Inv(Run(s, cs))
    ensures ActiveSet(Run(s, cs)) == ActiveSet(s) - {i}
    ensures s.claimed[i] ==> ObtainsClaim(s, cs, i)
    ensures var t := Run(s, cs);
            forall k :: 0 <= k < |s.active| && k != i ==> t.maxDemand[k] == s.maxDemand[k] && t.claimed[k] == s.claimed[k]
  {
    var a := Awaken(s, i);
    AwakenRuns(s, i);
    var s1 := Run(s, a);
    var b := AskAll(s1, i);
    AskAllIsGranted(s1, i);
    var s2 := Run(s1, b);
    RunConcat(s, a, b);
    EndRuns(s2, i);
    RunConcat(s, a + b, [CEnd(i)]);
    cs := a + b + [CEnd(i)];
    assert cs[..|a + b|] == a + b;
    assert ActiveSet(s2) == ActiveSet(s);
    assert s.claimed[i] ==> HoldsClaimAfter(s, cs, i, |a + b|);
  }

  lemma ObtainsEarly(s: State, a: seq<Call>, b: seq<Call>, k: nat)
    requires Formed(s) && LegalRun(s, a) && LegalRun(s, a + b) && k < |s.active| && ObtainsClaim(s, a, k)
    ensures ObtainsClaim(s, a + b, k)
  {
    hide LegalRun, Run;
    var l :| 0 <= l <= |a| && HoldsClaimAfter(s, a, k, l);
    assert (a + b)[..l] == a[..l];
    assert HoldsClaimAfter(s, a + b, k, l);
  }

  lemma ObtainsLate(s: State, a: seq<Call>, b: seq<Call>, k: nat)
    requires Formed(s) && LegalRun(s, a) && LegalRun(Run(s, a), b) && LegalRun(s, a + b) && k < |s.active|
    requires Run(s, a).maxDemand[k] == s.maxDemand[k] && ObtainsClaim(Run(s, a), b, k)
    ensures ObtainsClaim(s, a + b, k)
  {
    hide LegalRun, Run;
    var t := Run(s, a);
    var l :| 0 <= l <= |b| && HoldsClaimAfter(t, b, k, l);
    RunConcat(s, a, b[..l]);
    assert (a + b)[..|a| + l] == a + b[..l];
    assert HoldsClaimAfter(s, a + b, k, |a| + l);
  }

  lemma {:induction false} FinishAll(s: State) returns (cs: seq<Call>)
    requires Inv(s) && s.avoid
    ensures FinishesAll(s, cs)
    decreases ActiveSet(s)
  {
    hide LegalRun, Run, ObtainsClaim, Quiet, ProcessOk, Conserved;
    cs := [];
    if ActiveSet(s) == {} {
      NoCalls(s);
    } else {
      var i := SomebodyIsAwake(s);
      var a := FinishOne(s, i);
      var t := Run(s, a);
      var b := FinishAll(t);
      RunConcat(s, a, b);
      cs := a + b;
      forall k | k in ActiveSet(s) && s.claimed[k] ensures ObtainsClaim(s, cs, k) {
        if k == i {
          ObtainsEarly(s, a, b, k);
        } else {
          assert k in ActiveSet(t);
          ObtainsLate(s, a, b, k);
        }
      }
    }
  }

  /** Deadlock freedom: someone can always move, and everyone can get what it claimed and end. */
  lemma AvoidanceIsDeadlockFree(s: State)
    requires Reachable(s) && s.avoid
    ensures ActiveSet(s) != {} ==> exists i :: i in ActiveSet(s) && !s.waiting[i]
    ensures exists cs :: FinishesAll(s, cs)
  {
    ReachableHasInv(s);
    var cs := FinishAll(s);
    if ActiveSet(s) != {} {
      var i := SomebodyIsAwake(s);
    }
  }

  // ---- Detection ----

  lemma {:induction false} TotalIgnoresEmptyHanded(hold: Matrix, S: set<nat>, T: set<nat>, j: nat, n: nat)
    requires n <= |hold| && forall k :: 0 <= k < |hold| ==> j < |hold[k]|
    requires T <= S && forall k :: k in S && k !in T && k < |hold| ==> hold[k][j] == 0
    ensures Total(hold, S, j, n) == Total(hold, T, j, n)
  {
    if n == 0 {
    } else {
      TotalIgnoresEmptyHanded(hold, S, T, j, n - 1);
    }
  }

  /** In detection too, a set can hope for what exists less what it holds itself. */
  lemma PendingLeft(s: State, D: set<nat>, j: nat)
    requires Sound(s) && j < |s.existing| && D <= Holders(s)
    ensures Left(Pending(s), D, j) == s.existing[j] - Total(s.allocation, D, j, |s.allocation|)
  {
    forall k | k in ActiveSet(s) && k !in Holders(s) ensures s.allocation[k][j] == 0 {
      assert !Holds(s, k);
      assert NonNeg(s.allocation[k]);
    }
    TotalIgnoresEmptyHanded(s.allocation, ActiveSet(s), Holders(s), j, |s.allocation|);
    TotalSplit(s.allocation, Holders(s), D, j, |s.allocation|);
  }

  /** What `rsm_detection` reports, read off the state: the largest mutually blocking set of holders. */
  ghost predicate MutuallyBlocked(s: State, D: set<nat>)
    requires Formed(s)
  {
    && D <= Holders(s)
    && forall i :: i in D ==>
         exists j :: 0 <= j < |s.existing| &&
           s.request[i][j] > s.available[j] + Total(s.allocation, ActiveSet(s) - D, j, |s.allocation|)
  }

  lemma BlockedIffStuck(s: State, D: set<nat>)
    requires Sound(s)
    ensures MutuallyBlocked(s, D) <==> Stuck(Pending(s), D)
  {
    if D <= Holders(s) {
      forall j | 0 <= j < |s.existing|
        ensures Left(Pending(s), D, j) == s.available[j] + Total(s.allocation, ActiveSet(s) - D, j, |s.allocation|)
      {
        PendingLeft(s, D, j);
        TotalSplit(s.allocation, ActiveSet(s), D, j, |s.allocation|);
      }
      forall i | i in D ensures CanRun(Pending(s), i, D) <==>
        !exists j :: 0 <= j < |s.existing| &&
          s.request[i][j] > s.available[j] + Total(s.allocation, ActiveSet(s) - D, j, |s.allocation|)
      {
      }
    }
  }

  lemma DeadlockedIsLargestBlockedSet(s: State)
    requires Sound(s)
    ensures MutuallyBlocked(s, Deadlocked(s))
    ensures forall D :: MutuallyBlocked(s, D) ==> D <= Deadlocked(s)
  {
    ResidueIsLargestStuck(Pending(s));
    BlockedIffStuck(s, Deadlocked(s));
    forall D | MutuallyBlocked(s, D) ensures D <= Deadlocked(s) {
      BlockedIffStuck(s, D);
    }
  }

  /** Under avoidance detection never finds anything: a request is part of a need. */
  lemma AvoidanceLeavesNothingToDetect(s: State)
    requires Inv(s) && s.avoid
    ensures Deadlocked(s) == {}
  {
    var y, z := Pending(s), Banker(s);
    ResidueIsLargestStuck(y);
    SafeIffNothingStuck(z);
    var D := Deadlocked(s);
    forall i, j | i in D && 0 <= j < |s.existing|
      ensures y.demand[i][j] - Left(y, D, j) <= z.demand[i][j] - Left(z, D, j)
    {
      assert ProcessOk(s, i);
      PendingLeft(s, D, j);
      LeftIsRest(s, D, j);
    }
    StuckTransfer(y, z, D);
  }

  /**
   * The processes that will never run again: their request exceeds what exists less what
   * the deadlocked processes hold. This includes waiters that hold nothing, which
   * detection does not count.
   */
  ghost function Doomed(s: State): set<nat>
    requires Formed(s)
  {
    set i | i in ActiveSet(s) && !CanRun(Pending(s), i, Deadlocked(s))
  }

  /** `D` holds on to what the waiters `W` are short of. */
  ghost predicate Grips(s: State, D: set<nat>, W: set<nat>)
    requires Formed(s)
  {
    && D <= W <= ActiveSet(s)
    && (forall i :: i in D ==> Holds(s, i))
    && forall i :: i in W ==>
         && s.waiting[i]
         && exists j :: 0 <= j < |s.existing| && s.request[i][j] > s.existing[j] - Total(s.allocation, D, j, |s.allocation|)
  }

  lemma DeadlockGrips(s: State)
    requires Inv(s)
    ensures Grips(s, Deadlocked(s), Doomed(s))
  {
    var y, D := Pending(s), Deadlocked(s);
    ResidueIsLargestStuck(y);
    forall i | i in Doomed(s)
      ensures s.waiting[i]
      ensures exists j :: 0 <= j < |s.existing| && s.request[i][j] > s.existing[j] - Total(s.allocation, D, j, |s.allocation|)
    {
      assert ProcessOk(s, i);
      var j :| 0 <= j < |s.existing| && s.request[i][j] > Left(y, D, j);
      PendingLeft(s, D, j);
      TotalMonotone(s.allocation, Holders(s) - D, Holders(s) - D, j, |s.allocation|);
    }
  }

  lemma GripsAreDoomed(s: State, D: set<nat>, W: set<nat>)
    requires Sound(s) && Grips(s, D, W)
    ensures D <= Deadlocked(s) && W <= Doomed(s)
  {
    var y := Pending(s);
    forall i | i in W ensures !CanRun(y, i, D) {
      var j :| 0 <= j < |s.existing| && s.request[i][j] > s.existing[j] - Total(s.allocation, D, j, |s.allocation|);
      PendingLeft(s, D, j);
    }
    assert Stuck(y, D);
    ResidueIsLargestStuck(y);
    forall i | i in W ensures !CanRun(y, i, Deadlocked(s)) {
      if CanRun(y, i, Deadlocked(s)) {
        CanRunMonotone(y, i, D, Deadlocked(s));
      }
    }
  }

  /** A grip is not loosened by changes to other processes' rows. */
  lemma GripsFrame(s: State, t: State, D: set<nat>, W: set<nat>)
    requires Formed(s) && Formed(t) && Grips(s, D, W) && t.existing == s.existing && |t.active| == |s.active|
    requires forall i :: i in W ==> t.active[i] && SameRow(s, t, i)
    ensures Grips(t, D, W)
  {
    forall j | 0 <= j < |s.existing|
      ensures Total(t.allocation, D, j, |s.allocation|) == Total(s.allocation, D, j, |s.allocation|)
    {
      if |s.allocation| > 0 {
        TotalAgree(s.allocation, t.allocation, D, j, |s.allocation|);
      }
    }
    forall i | i in D ensures Holds(t, i) {
      assert Holds(s, i);
    }
  }

  lemma {:induction false} TotalAgree(hold: Matrix, hold': Matrix, D: set<nat>, j: nat, n: nat)
    requires n <= |hold| == |hold'| && forall k :: 0 <= k < |hold| ==> j < |hold[k]| && j < |hold'[k]|
    requires forall k :: k in D && k < |hold| ==> hold[k] == hold'[k]
    ensures Total(hold, D, j, n) == Total(hold', D, j, n)
  {
    if n == 0 {
    } else {
      TotalAgree(hold, hold', D, j, n - 1);
    }
  }

  lemma {:induction false} WakeKeepsGrip(s: State, i: nat, D: set<nat>, W: set<nat>)
    requires Sound(s) && Grips(s, D, W) && i <= |s.active|
    ensures forall k :: k in W ==> SameRow(s, WakeFrom(s, i), k)
    decreases |s.active| - i
  {
    if i == |s.active| {
    } else {
      if Grantable(s, i) {
        if i in W {
          var j :| 0 <= j < |s.existing| && s.request[i][j] > s.existing[j] - Total(s.allocation, D, j, |s.allocation|);
          TotalMonotone(s.allocation, D, ActiveSet(s), j, |s.allocation|);
          assert false;
        }
        var t := GrantWaiter(s, i);
        GrantWaiterKeepsSound(s, i);
        GripsFrame(s, t, D, W);
        WakeKeepsGrip(t, i + 1, D, W);
      } else {
        WakeKeepsGrip(s, i + 1, D, W);
      }
    }
  }

  /** Calls that do not wake anybody do not touch the rows of processes that are asleep. */
  lemma PlainCallSparesSleepers(s: State, c: Call, k: nat)
    requires Inv(s) && Enabled(s, c) && !c.CEnd? && !c.CRelease?
    requires k < |s.active| && s.active[k] && s.waiting[k]
    ensures Step(s, c).state.active[k] && SameRow(s, Step(s, c).state, k)
  {
    assert ProcessOk(s, k);
    match c {
      case CRequest(i, v) => assert i != k;
      case CClaim(i, v) => assert i != k;
      case CStart(i) => assert i == k ==> s.started[k];
      case CResume(i) => assert i != k;
    }
  }

  lemma WakingCallKeepsGrip(s: State, u: State, p: nat, D: set<nat>, W: set<nat>)
    requires Inv(s) && Grips(s, D, W) && p < |s.active| && s.active[p] && !Blocked(s, p)
    requires u == Retire(s, p) ||
             exists r :: Amount(s, r) && Leq(r, s.allocation[p]) && u == GiveBack(s, p, r)
    ensures forall k :: k in W ==> Wake(u).active[k] && SameRow(s, Wake(u), k)
  {
    if u == Retire(s, p) {
      RetireKeepsSound(s, p);
    } else {
      var r :| Amount(s, r) && Leq(r, s.allocation[p]) && u == GiveBack(s, p, r);
      GiveBackKeepsSound(s, p, r);
    }
    forall k | k in W ensures u.active[k] && SameRow(s, u, k) {
      assert k != p;
    }
    GripsFrame(s, u, D, W);
    WakeKeepsGrip(u, 0, D, W);
    WakeEffect(u, 0);
  }

  /** Whatever call comes next, a gripped waiter is left exactly as it was. */
  lemma StepKeepsGrip(s: State, c: Call, D: set<nat>, W: set<nat>)
    requires Inv(s) && Enabled(s, c) && Grips(s, D, W)
    ensures forall k :: k in W ==> Step(s, c).state.active[k] && SameRow(s, Step(s, c).state, k)
    ensures Grips(Step(s, c).state, D, W)
  {
    if c.CEnd? && Registered(s, c.apid) && s.active[c.apid] {
      WakingCallKeepsGrip(s, Retire(s, c.apid), c.apid, D, W);
    } else if c.CRelease? && Release(s, c.apid, c.v).reply == Done {
      WakingCallKeepsGrip(s, GiveBack(s, c.apid, c.v), c.apid, D, W);
    } else if !c.CEnd? && !c.CRelease? {
      forall k | k in W ensures Step(s, c).state.active[k] && SameRow(s, Step(s, c).state, k) {
        PlainCallSparesSleepers(s, c, k);
      }
    }
    GripsFrame(s, Step(s, c).state, D, W);
  }

  lemma {:induction false} RunKeepsGrip(s: State, cs: seq<Call>, D: set<nat>, W: set<nat>)
    requires Inv(s) && LegalRun(s, cs) && Grips(s, D, W)
    ensures Grips(Run(s, cs), D, W)
    ensures forall k :: k in W ==> SameRow(s, Run(s, cs), k)
    decreases |cs|
  {
    if cs == [] {
    } else {
      StepKeepsInv(s, cs[0]);
      StepKeepsGrip(s, cs[0], D, W);
      RunKeepsGrip(Step(s, cs[0]).state, cs[1..], D, W);
    }
  }

  /** A process counted as deadlocked is never granted anything and stays counted, in every continuation. */
  lemma DeadlockIsForever(s: State, cs: seq<Call>)
    requires Reachable(s) && LegalRun(s, cs)
    ensures Deadlocked(s) <= Deadlocked(Run(s, cs)) && Doomed(s) <= Doomed(Run(s, cs))
    ensures Deadlocked(s) <= Doomed(s)
    ensures forall k :: k in Doomed(s) ==>
              Run(s, cs).active[k] && Run(s, cs).waiting[k] && SameRow(s, Run(s, cs), k)
  {
    ReachableHasInv(s);
    DeadlockGrips(s);
    RunKeepsGrip(s, cs, Deadlocked(s), Doomed(s));
    RunKeepsInv(s, cs);
    GripsAreDoomed(Run(s, cs), Deadlocked(s), Doomed(s));
  }

  /** If nobody started waiting, nobody became doomed. */
  lemma NoNewWaiterNoNewDoom(s: State, t: State)
    requires Inv(s) && Inv(t) && t.existing == s.existing && |t.active| == |s.active|
    requires forall i :: i in ActiveSet(t) && t.waiting[i] ==> i in ActiveSet(s) && SameRow(s, t, i)
    ensures Doomed(t) <= Doomed(s)
  {
    DeadlockGrips(t);
    GripsFrame(t, s, Deadlocked(t), Doomed(t));
    GripsAreDoomed(s, Deadlocked(t), Doomed(t));
  }

  /** Detection off-line: unless only doomed processes are left, one of the others is awake. */
  lemma UnlessDoomedSomebodyIsAwake(s: State) returns (p: nat)
    requires Inv(s) && !s.avoid && ActiveSet(s) != Doomed(s)
    ensures p in ActiveSet(s) && !s.waiting[p]
  {
    var y, D := Pending(s), Deadlocked(s);
    ResidueIsLargestStuck(y);
    forall j | 0 <= j < |s.existing| ensures Left(y, Holders(s), j) == s.available[j] {
      LeftOfAll(y, j);
    }
    if D != Holders(s) {
      assert !Stuck(y, Holders(s));
      p :| p in Holders(s) && CanRun(y, p, Holders(s));
    } else {
      p :| p in ActiveSet(s) && p !in Doomed(s);
    }
    assert Leq(s.request[p], s.available);
    assert ProcessOk(s, p) && !Grantable(s, p);
  }

  /** Some continuation ends every process but the doomed. */
  lemma {:induction false} EndAllButDoomed(s: State) returns (cs: seq<Call>)
    requires Inv(s) && !s.avoid
    ensures LegalRun(s, cs) && ActiveSet(Run(s, cs)) == Doomed(s)
    decreases ActiveSet(s)
  {
    cs := [];
    if ActiveSet(s) == Doomed(s) {
    } else {
      var p := UnlessDoomedSomebodyIsAwake(s);
      var a := Awaken(s, p);
      AwakenRuns(s, p);
      var s1 := Run(s, a);
      EndRuns(s1, p);
      RunConcat(s, a, [CEnd(p)]);
      a := a + [CEnd(p)];
      var t := Run(s, a);
      assert ActiveSet(s1) == ActiveSet(s);
      WakeEffect(Retire(s1, p), 0);
      forall i | i in ActiveSet(t) && t.waiting[i] ensures i in ActiveSet(s) && SameRow(s, t, i) {
        assert i != p && SameRow(s, Retire(s1, p), i);
        assert !Served(Retire(s1, p), t, i);
      }
      NoNewWaiterNoNewDoom(s, t);
      DeadlockGrips(s);
      RunKeepsGrip(s, a, Deadlocked(s), Doomed(s));
      GripsAreDoomed(t, Deadlocked(s), Doomed(s));
      var b := EndAllButDoomed(t);
      RunConcat(s, a, b);
      cs := a + b;
    }
  }

  lemma NothingDeadlockedNobodyDoomed(s: State)
    requires Inv(s)
    ensures Deadlocked(s) == {} <==> Doomed(s) == {}
  {
    DeadlockGrips(s);
    if Deadlocked(s) == {} {
      forall i | i in ActiveSet(s) ensures CanRun(Pending(s), i, {}) {
        assert ProcessOk(s, i);
        forall j | 0 <= j < |s.existing| ensures s.request[i][j] <= Left(Pending(s), {}, j) {
          PendingLeft(s, {}, j);
          TotalOfNone(s.allocation, j, |s.allocation|);
        }
      }
    }
  }

  /**
   * Detection decides the future: it finds nothing exactly when everybody can still end;
   * and in any case everybody can but the doomed, who never will.
   */
  lemma DetectionDecidesTheFuture(s: State)
    requires Reachable(s) && !s.avoid
    ensures Deadlocked(s) == {} <==> exists cs :: LegalRun(s, cs) && ActiveSet(Run(s, cs)) == {}
    ensures exists cs :: LegalRun(s, cs) && ActiveSet(Run(s, cs)) == Doomed(s)
    ensures forall cs :: LegalRun(s, cs) ==> Doomed(s) <= ActiveSet(Run(s, cs))
  {
    ReachableHasInv(s);
    var cs := EndAllButDoomed(s);
    NothingDeadlockedNobodyDoomed(s);
    forall ds | LegalRun(s, ds) ensures Doomed(s) <= ActiveSet(Run(s, ds)) {
      DeadlockIsForever(s, ds);
    }
  }
}
