/** What every call keeps: conservation, bookkeeping, safety and no lost wake-up. */
module RsmInvariant {
  import opened Vectors
  import opened Reduction
  import opened RsmState

  /** An application process that is not running has left no trace. */
  ghost predicate Blank(s: State, i: nat)
    requires Formed(s) && i < |s.active|
  {
    var zero := Zero(|s.existing|);
    && s.allocation[i] == zero && s.request[i] == zero && s.maxDemand[i] == zero && s.need[i] == zero
    && !s.claimed[i] && !s.requestedOnce[i] && !s.waiting[i] && s.tokens[i] == 0
  }

  ghost predicate ProcessOk(s: State, i: nat)
    requires Formed(s) && i < |s.active|
  {
    var zero := Zero(|s.existing|);
    && s.started[i] == s.active[i]
    && (!s.active[i] ==> Blank(s, i))
    && (s.waiting[i] ==> s.tokens[i] == 0 && s.requestedOnce[i])
    && s.tokens[i] <= 1
    && (!s.waiting[i] ==> s.request[i] == zero)
    && Leq(s.request[i], s.existing)
    && NonNeg(s.need[i])
    && (!s.avoid ==> !s.claimed[i] && s.maxDemand[i] == zero && s.need[i] == zero)
    && (s.avoid ==>
          && Leq(s.request[i], s.need[i])
          && Leq(s.maxDemand[i], s.existing)
          && Plus(s.allocation[i], s.need[i]) == s.maxDemand[i]
          && (s.requestedOnce[i] ==> s.claimed[i])
          && (!s.claimed[i] ==> s.maxDemand[i] == zero))
  }

  /** Nothing is lost or made up: the pool and the active processes hold what exists. */
  ghost predicate Conserved(s: State)
    requires Formed(s)
  {
    forall j :: 0 <= j < |s.existing| ==>
      s.available[j] + Total(s.allocation, ActiveSet(s), j, |s.allocation|) == s.existing[j]
  }

  ghost predicate Balanced(s: State) {
    Formed(s) && NonNeg(s.existing) && NonNeg(s.available) && Conserved(s)
  }

  ghost predicate Sound(s: State) {
    && Balanced(s)
    && (forall i :: 0 <= i < |s.active| ==> ProcessOk(s, i))
    && (s.avoid ==> Safe(Banker(s)))
  }

  /** No waiter has been left asleep whose request could be granted now. */
  ghost predicate Quiet(s: State)
    requires Formed(s)
  {
    forall i :: 0 <= i < |s.active| ==> !Grantable(s, i)
  }

  ghost predicate Inv(s: State) {
    Sound(s) && Quiet(s)
  }

  ghost predicate SafeAmount(s: State, i: nat, r: Vec)
    requires Formed(s) && i < |s.active|
  {
    && s.active[i] && Amount(s, r) && Leq(r, s.available)
    && (s.avoid ==> s.claimed[i] && Leq(r, s.need[i]) && Safe(Pretend(s, i, r)))
  }

  // ---- Granting ----

  lemma ConservedAfterMove(s: State, t: State, i: nat)
    requires Formed(s) && Formed(t) && Conserved(s) && i < |s.active|
    requires t.existing == s.existing && |t.active| == |s.active| && ActiveSet(t) == ActiveSet(s) && s.active[i]
    requires forall k :: 0 <= k < |s.active| && k != i ==> t.allocation[k] == s.allocation[k]
    requires forall j :: 0 <= j < |s.existing| ==>
                           t.available[j] + t.allocation[i][j] == s.available[j] + s.allocation[i][j]
    ensures Conserved(t)
  {
    forall j | 0 <= j < |s.existing|
      ensures t.available[j] + Total(t.allocation, ActiveSet(t), j, |t.allocation|) == t.existing[j]
    {
      TotalChange(s.allocation, t.allocation, ActiveSet(s), i, j, |s.allocation|);
    }
  }

  lemma GrantKeepsSound(s: State, i: nat, r: Vec)
    requires Sound(s) && i < |s.active| && SafeAmount(s, i, r)
    ensures Sound(Grant(s, i, r))
  {
    var t := Grant(s, i, r);
    assert ActiveSet(t) == ActiveSet(s);
    ConservedAfterMove(s, t, i);
    if s.avoid {
      assert Banker(t) == Pretend(s, i, r);
    }
    forall k | 0 <= k < |t.active| ensures ProcessOk(t, k) {
      assert ProcessOk(s, k);
    }
  }

  lemma GrantWaiterKeepsSound(s: State, i: nat)
    requires Sound(s) && i < |s.active| && Grantable(s, i)
    ensures Sound(GrantWaiter(s, i))
  {
    assert ProcessOk(s, i);
    GrantKeepsSound(s, i, s.request[i]);
    var u, t := Grant(s, i, s.request[i]), GrantWaiter(s, i);
    assert ActiveSet(t) == ActiveSet(u);
    assert Banker(t) == Banker(u);
    forall k | 0 <= k < |t.active| ensures ProcessOk(t, k) {
      assert ProcessOk(u, k);
    }
  }

  lemma GrantMovesPretence(s: State, i: nat, r: Vec, k: nat, q: Vec)
    requires Formed(s) && i < |s.active| && k < |s.active| && k != i && s.active[i] && s.avoid
    requires Amount(s, r) && Amount(s, q)
    ensures var y, z := Pretend(s, k, q), Pretend(Grant(s, i, r), k, q);
            && Moved(y, z, i)
            && forall j :: 0 <= j < |y.avail| ==>
                 z.avail[j] <= y.avail[j] && z.demand[i][j] - y.demand[i][j] == z.avail[j] - y.avail[j]
  {
    assert ActiveSet(Grant(s, i, r)) == ActiveSet(s);
  }

  /** A request refused now stays refused after somebody else is granted something. */
  lemma RefusedStaysRefused(s: State, i: nat, r: Vec, k: nat)
    requires Sound(s) && i < |s.active| && SafeAmount(s, i, r)
    requires k < |s.active| && k != i && !Grantable(s, k)
    ensures !Grantable(Grant(s, i, r), k)
  {
    var t := Grant(s, i, r);
    var q := s.request[k];
    if s.waiting[k] && s.active[k] && Leq(q, t.available) && s.avoid {
      assert Leq(q, s.available);
      GrantMovesPretence(s, i, r, k, q);
      MoveOutKeepsUnsafe(Pretend(s, k, q), Pretend(t, k, q), i);
    }
  }

  // ---- The wake-up pass ----

  lemma {:induction false} WakeFromSettles(s: State, i: nat)
    requires Sound(s) && i <= |s.active|
    requires forall k :: 0 <= k < i ==> !Grantable(s, k)
    ensures Inv(WakeFrom(s, i))
    decreases |s.active| - i
  {
    if i == |s.active| {
    } else {
      if Grantable(s, i) {
        assert ProcessOk(s, i);
        GrantWaiterKeepsSound(s, i);
        var u, t := Grant(s, i, s.request[i]), GrantWaiter(s, i);
        forall k | 0 <= k < i ensures !Grantable(t, k) {
          RefusedStaysRefused(s, i, s.request[i], k);
          assert ActiveSet(t) == ActiveSet(u);
          assert forall v :: Amount(t, v) ==> Pretend(t, k, v) == Pretend(u, k, v);
        }
        WakeFromSettles(t, i + 1);
      } else {
        WakeFromSettles(s, i + 1);
      }
    }
  }

  lemma {:induction false} QuietNeedsNoWake(s: State, i: nat)
    requires Formed(s) && Quiet(s) && i <= |s.active|
    ensures WakeFrom(s, i) == s
    decreases |s.active| - i
  {
    if i == |s.active| {
    } else {
      QuietNeedsNoWake(s, i + 1);
    }
  }

  /** A second pass over the waiters never grants anything. */
  lemma OnePassIsEnough(s: State)
    requires Sound(s)
    ensures Inv(Wake(s)) && Wake(Wake(s)) == Wake(s)
  {
    WakeFromSettles(s, 0);
    QuietNeedsNoWake(Wake(s), 0);
  }

  // ---- Calls ----

  lemma ActiveSetChanges(s: State, t: State, p: nat)
    requires |t.active| == |s.active| && p < |s.active| && t.active == s.active[p := t.active[p]]
    ensures ActiveSet(t) == if t.active[p] then ActiveSet(s) + {p} else ActiveSet(s) - {p}
  {
  }

  /** A newcomer holds nothing and needs nothing, so it is neither in nor out of the way. */
  lemma StartKeepsInv(s: State, p: nat)
    requires Inv(s) && p < |s.active| && !s.started[p]
    ensures Inv(Start(s, p).state)
  {
    assert ProcessOk(s, p);
    var t := Start(s, p).state;
    ActiveSetChanges(s, t, p);
    assert ActiveSet(s) == ActiveSet(t) - {p};
    forall j | 0 <= j < |s.existing|
      ensures t.available[j] + Total(t.allocation, ActiveSet(t), j, |t.allocation|) == t.existing[j]
    {
      TotalAdd(s.allocation, ActiveSet(s), p, j, |s.allocation|);
    }
    forall k | 0 <= k < |t.active| ensures ProcessOk(t, k) {
      assert ProcessOk(s, k);
    }
    if s.avoid {
      NewcomerKeepsStuckSets(Banker(s), p);
      assert Banker(t) == Banker(s).(procs := ActiveSet(s) + {p});
    }
    forall k | 0 <= k < |t.active| ensures !Grantable(t, k) {
      assert !Grantable(s, k);
      var q := s.request[k];
      if k != p && s.waiting[k] && s.active[k] && s.avoid {
        NewcomerKeepsStuckSets(Pretend(s, k, q), p);
        assert Pretend(t, k, q) == Pretend(s, k, q).(procs := ActiveSet(s) + {p});
      }
    }
  }

  lemma NewcomerKeepsStuckSets(y: Sys, p: nat)
    requires WellFormed(y) && p < |y.demand| && p !in y.procs
    requires forall j :: 0 <= j < |y.avail| ==> y.demand[p][j] == 0 && y.hold[p][j] == 0
    ensures var z := y.(procs := y.procs + {p}); WellFormed(z) && (Safe(z) ==> Safe(y))
    ensures var z := y.(procs := y.procs + {p}); NonNeg(y.avail) && Safe(y) ==> Safe(z)
  {
    var z := y.(procs := y.procs + {p});
    assert y == z.(procs := z.procs - {p});
    SafeIffNothingStuck(y);
    SafeIffNothingStuck(z);
    forall D | Stuck(y, D) ensures Stuck(z, D) {
      forall j | 0 <= j < |y.avail| ensures Left(z, D, j) == Left(y, D, j) {
        LeftIgnoresEmptyHanded(z, p, D, j);
      }
      StuckTransfer(y, z, D);
    }
    if NonNeg(y.avail) {
      forall D | Stuck(z, D) ensures Stuck(y, D) {
        forall j | 0 <= j < |y.avail| ensures Left(z, D, j) == Left(y, D, j) && Left(z, D, j) >= 0 {
          LeftIgnoresEmptyHanded(z, p, D, j);
          LeftMonotone(z, D, z.procs + D, j);
          assert z.procs - (z.procs + D) == {};
          TotalOfNone(z.hold, j, |z.hold|);
        }
        assert p !in D by {
          if p in D {
            assert CanRun(z, p, D);
          }
        }
        StuckTransfer(z, y, D);
      }
    }
  }

  /** Everything a stuck set can hope for is what exists less what it holds itself. */
  lemma LeftIsRest(s: State, D: set<nat>, j: nat)
    requires Formed(s) && Conserved(s) && j < |s.existing| && D <= ActiveSet(s)
    ensures Left(Banker(s), D, j) == s.existing[j] - Total(s.allocation, D, j, |s.allocation|)
  {
    TotalSplit(s.allocation, ActiveSet(s), D, j, |s.allocation|);
  }

  lemma {:induction false} TotalSplit(hold: Matrix, S: set<nat>, D: set<nat>, j: nat, n: nat)
    requires n <= |hold| && forall k :: 0 <= k < |hold| ==> j < |hold[k]|
    requires D <= S
    ensures Total(hold, S, j, n) == Total(hold, S - D, j, n) + Total(hold, D, j, n)
  {
    if n == 0 {
    } else {
      TotalSplit(hold, S, D, j, n - 1);
    }
  }

  /** A claim within what exists is safe: the claimer holds nothing, so it can go last. */
  lemma ClaimKeepsSound(s: State, p: nat, c: Vec)
    requires Inv(s) && p < |s.active| && |c| == |s.existing|
    ensures Sound(Claim(s, p, c).state)
  {
    hide Safe, Quiet, Stuck;
    var t := Claim(s, p, c).state;
    if t != s {
      assert ProcessOk(s, p);
      assert ActiveSet(t) == ActiveSet(s);
      forall j | 0 <= j < |s.existing| ensures s.allocation[p][j] == 0 {
        assert Plus(s.allocation[p], s.need[p])[j] == 0;
      }
      assert s.allocation[p] == Zero(|s.existing|);
      forall k | 0 <= k < |t.active| ensures ProcessOk(t, k) {
        assert ProcessOk(s, k);
      }
      SafeIffNothingStuck(Banker(t));
      assert t.need == s.need[p := c] && Banker(t) == Banker(s.(need := s.need[p := c]));
      forall D | Stuck(Banker(t), D) ensures D == {} {
        StuckWithoutClaimer(s, p, c, D);
      }
    }
  }

  /** Nor can it make a refused request safe. */
  lemma ClaimKeepsQuiet(s: State, p: nat, c: Vec)
    requires Inv(s) && p < |s.active| && |c| == |s.existing|
    ensures Formed(Claim(s, p, c).state) && Quiet(Claim(s, p, c).state)
  {
    hide Safe, Conserved;
    var t := Claim(s, p, c).state;
    if t != s {
      assert ProcessOk(s, p);
      forall k | 0 <= k < |t.active| ensures !Grantable(t, k) {
        assert !Grantable(s, k);
        if k != p && s.waiting[k] && s.active[k] && Leq(s.request[k], s.available) {
          ClaimKeepsRefused(s, t, p, c, k);
        }
      }
    }
  }

  lemma ClaimKeepsRefused(s: State, t: State, p: nat, c: Vec, k: nat)
    requires Inv(s) && p < |s.active| && |c| == |s.existing| && t == Claim(s, p, c).state && t != s
    requires k < |s.active| && k != p && Leq(s.request[k], s.available) && !MayGrant(s, k, s.request[k])
    ensures Formed(t) && !MayGrant(t, k, t.request[k])
  {
    hide Safe, Conserved, Quiet;
    assert ProcessOk(s, p) && ProcessOk(s, k);
    assert ActiveSet(t) == ActiveSet(s);
    HarderDemandKeepsUnsafe(Pretend(s, k, s.request[k]), Pretend(t, k, s.request[k]));
  }

  lemma ClaimKeepsInv(s: State, p: nat, c: Vec)
    requires Inv(s) && p < |s.active| && |c| == |s.existing|
    ensures Inv(Claim(s, p, c).state)
  {
    hide Claim, Sound, Quiet;
    ClaimKeepsSound(s, p, c);
    ClaimKeepsQuiet(s, p, c);
  }

  lemma HarderDemandKeepsUnsafe(y: Sys, z: Sys)
    requires WellFormed(y) && WellFormed(z) && z == y.(demand := z.demand) && |z.demand| == |y.demand|
    requires forall k :: 0 <= k < |y.demand| ==> Leq(y.demand[k], z.demand[k])
    ensures Safe(z) ==> Safe(y)
  {
    SafeIffNothingStuck(y);
    SafeIffNothingStuck(z);
    forall D | Stuck(y, D) ensures Stuck(z, D) {
      forall j | 0 <= j < |y.avail| ensures Left(z, D, j) == Left(y, D, j) {}
      StuckTransfer(y, z, D);
    }
  }

  lemma StuckWithoutClaimer(s: State, p: nat, c: Vec, D: set<nat>)
    requires Sound(s) && s.avoid && p < |s.active| && s.active[p] && Amount(s, c) && Leq(c, s.existing)
    requires s.allocation[p] == s.need[p] == Zero(|s.existing|)
    requires Stuck(Banker(s.(need := s.need[p := c])), D)
    ensures D == {}
  {
    var y, z := Banker(s), Banker(s.(need := s.need[p := c]));
    var E := D - {p};
    forall i | i in E ensures !CanRun(y, i, E) {
      var j :| 0 <= j < |z.avail| && z.demand[i][j] > Left(z, D, j);
      LeftIgnoresEmptyHanded(y, p, D, j);
    }
    SafeIffNothingStuck(y);
    assert Stuck(y, E);
    if p in D {
      assert D == {p};
      forall j | 0 <= j < |z.avail| ensures z.demand[p][j] <= Left(z, D, j) {
        LeftIgnoresEmptyHanded(z, p, D, j);
        assert D - {p} == {} && z.procs - {} == z.procs;
      }
      assert CanRun(z, p, D);
    }
  }

  /** Recording that a process has requested changes nothing that matters. */
  lemma NotingKeepsInv(s: State, p: nat)
    requires Inv(s) && p < |s.active| && s.active[p] && (s.avoid ==> s.claimed[p])
    ensures Inv(s.(requestedOnce := s.requestedOnce[p := true]))
  {
    var u := s.(requestedOnce := s.requestedOnce[p := true]);
    assert ActiveSet(u) == ActiveSet(s) && Banker(u) == Banker(s);
    forall k | 0 <= k < |u.active| ensures ProcessOk(u, k) && !Grantable(u, k) {
      assert ProcessOk(s, k) && !Grantable(s, k);
      assert Pretend(u, k, u.request[k]) == Pretend(s, k, s.request[k]);
    }
  }

  lemma GrantKeepsInv(s: State, p: nat, r: Vec)
    requires Inv(s) && p < |s.active| && SafeAmount(s, p, r) && !s.waiting[p]
    ensures Inv(Grant(s, p, r))
  {
    GrantKeepsSound(s, p, r);
    forall k | 0 <= k < |s.active| ensures !Grantable(Grant(s, p, r), k) {
      if k != p {
        RefusedStaysRefused(s, p, r, k);
      }
    }
  }

  lemma WaitKeepsInv(s: State, p: nat, r: Vec)
    requires Inv(s) && p < |s.active| && !Blocked(s, p) && s.requestedOnce[p]
    requires |r| == |s.existing| && AskIsValid(s, p, r) && !MayGrant(s, p, r)
    ensures Inv(s.(request := s.request[p := r], waiting := s.waiting[p := true]))
  {
    var t := s.(request := s.request[p := r], waiting := s.waiting[p := true]);
    assert ActiveSet(t) == ActiveSet(s) && Banker(t) == Banker(s);
    forall k | 0 <= k < |t.active| ensures ProcessOk(t, k) && !Grantable(t, k) {
      assert ProcessOk(s, k) && !Grantable(s, k);
      assert Pretend(t, k, t.request[k]) == Pretend(s, k, t.request[k]);
    }
  }

  lemma RequestKeepsInv(s: State, p: nat, r: Vec)
    requires Inv(s) && p < |s.active| && |r| == |s.existing| && !Blocked(s, p)
    ensures Inv(Request(s, p, r).state)
  {
    if AskIsValid(s, p, r) {
      var u := s.(requestedOnce := s.requestedOnce[p := true]);
      var noted := u.(request := u.request[p := r]);
      NotingKeepsInv(s, p);
      assert ActiveSet(noted) == ActiveSet(u) && Pretend(noted, p, r) == Pretend(u, p, r);
      if MayGrant(noted, p, r) {
        assert Grant(noted, p, r) == Grant(u, p, r);
        GrantKeepsInv(u, p, r);
      } else {
        WaitKeepsInv(u, p, r);
      }
    }
  }

  /** Giving back keeps the state safe: need rises by exactly what the pool gains. */
  lemma GiveBackKeepsSound(s: State, p: nat, r: Vec)
    requires Sound(s) && p < |s.active| && s.active[p] && Amount(s, r) && Leq(r, s.allocation[p])
    ensures Sound(GiveBack(s, p, r))
  {
    hide Safe;
    var t := GiveBack(s, p, r);
    assert ActiveSet(t) == ActiveSet(s);
    ConservedAfterMove(s, t, p);
    forall k | 0 <= k < |t.active| ensures ProcessOk(t, k) {
      assert ProcessOk(s, k);
    }
    if s.avoid {
      GiveBackKeepsSafe(s, p, r);
    }
  }

  lemma GiveBackKeepsSafe(s: State, p: nat, r: Vec)
    requires Sound(s) && s.avoid && p < |s.active| && s.active[p] && Amount(s, r) && Leq(r, s.allocation[p])
    ensures Safe(Banker(GiveBack(s, p, r)))
  {
    hide Safe, Stuck, Conserved, ProcessOk;
    var t := GiveBack(s, p, r);
    assert ActiveSet(t) == ActiveSet(s);
    SafeIffNothingStuck(Banker(s));
    SafeIffNothingStuck(Banker(t));
    forall D | Stuck(Banker(t), D) ensures Stuck(Banker(s), D) {
      MoveOutKeepsStuck(Banker(t), Banker(s), p, D);
    }
  }

  /** A process that has left is one that gave everything back and was then forgotten. */
  lemma RetireKeepsSound(s: State, p: nat)
    requires Sound(s) && p < |s.active| && s.active[p] && !Blocked(s, p)
    ensures Sound(Retire(s, p))
  {
    assert ProcessOk(s, p);
    var u, t := GiveBack(s, p, s.allocation[p]), Retire(s, p);
    GiveBackKeepsSound(s, p, s.allocation[p]);
    assert Minus(s.allocation[p], s.allocation[p]) == Zero(|s.existing|);
    assert t.available == u.available && t.allocation == u.allocation;
    ActiveSetChanges(s, t, p);
    assert ActiveSet(u) == ActiveSet(s) == ActiveSet(t) + {p};
    forall j | 0 <= j < |s.existing|
      ensures t.available[j] + Total(t.allocation, ActiveSet(t), j, |t.allocation|) == t.existing[j]
    {
      TotalAdd(u.allocation, ActiveSet(t), p, j, |u.allocation|);
    }
    forall k | 0 <= k < |t.active| ensures ProcessOk(t, k) {
      assert ProcessOk(s, k);
    }
    if s.avoid {
      LeaverKeepsSafe(Banker(u), Banker(t), p);
    }
  }

  lemma LeaverKeepsSafe(y: Sys, z: Sys, p: nat)
    requires WellFormed(y) && WellFormed(z) && |z.demand| == |y.demand| && p in y.procs && Safe(y)
    requires z.avail == y.avail && z.hold == y.hold && z.procs == y.procs - {p} && y.hold[p] == Zero(|y.avail|)
    requires forall k :: 0 <= k < |y.demand| && k != p ==> z.demand[k] == y.demand[k]
    ensures Safe(z)
  {
    SafeIffNothingStuck(y);
    SafeIffNothingStuck(z);
    forall D | Stuck(z, D) ensures Stuck(y, D) {
      forall j | 0 <= j < |y.avail| ensures Left(y, D, j) == Left(z, D, j) {
        LeftIgnoresEmptyHanded(y, p, D, j);
      }
      StuckTransfer(z, y, D);
    }
  }

  lemma ResumeKeepsInv(s: State, p: nat)
    requires Inv(s) && p < |s.active| && s.tokens[p] > 0
    ensures Inv(Resume(s, p).state)
  {
    var t := Resume(s, p).state;
    assert ActiveSet(t) == ActiveSet(s) && Banker(t) == Banker(s);
    forall k | 0 <= k < |t.active| ensures ProcessOk(t, k) && !Grantable(t, k) {
      assert ProcessOk(s, k) && !Grantable(s, k);
      assert Pretend(t, k, t.request[k]) == Pretend(s, k, s.request[k]);
    }
  }

  lemma {:induction false} TotalOfZeros(hold: Matrix, S: set<nat>, j: nat, n: nat)
    requires n <= |hold| && forall k :: 0 <= k < |hold| ==> j < |hold[k]| && hold[k][j] == 0
    ensures Total(hold, S, j, n) == 0
  {
    if n == 0 {
    } else {
      TotalOfZeros(hold, S, j, n - 1);
    }
  }

  lemma InitHasInv(n: nat, existing: Vec, avoid: bool)
    requires NonNeg(existing)
    ensures Inv(Init(n, existing, avoid))
  {
    var s := Init(n, existing, avoid);
    assert ActiveSet(s) == {};
    forall j | 0 <= j < |existing| ensures Total(s.allocation, ActiveSet(s), j, n) == 0 {
      TotalOfZeros(s.allocation, ActiveSet(s), j, n);
    }
    SafeIffNothingStuck(Banker(s));
  }

  /** Every call keeps the whole invariant, in either mode, whatever its arguments. */
  lemma StepKeepsInv(s: State, c: Call)
    requires Inv(s) && Enabled(s, c)
    ensures Inv(Step(s, c).state)
  {
    match c
    case CStart(i) =>
      if 0 <= i < |s.active| && !s.started[i] {
        StartKeepsInv(s, i);
      }
    case CEnd(i) =>
      if Registered(s, i) && s.active[i] {
        RetireKeepsSound(s, i);
        OnePassIsEnough(Retire(s, i));
      }
    case CClaim(i, v) =>
      if Registered(s, i) {
        ClaimKeepsInv(s, i, v);
      }
    case CRequest(i, v) =>
      if Registered(s, i) {
        RequestKeepsInv(s, i, v);
      }
    case CRelease(i, v) =>
      if Release(s, i, v).reply == Done {
        GiveBackKeepsSound(s, i, v);
        OnePassIsEnough(GiveBack(s, i, v));
      }
    case CResume(i) =>
      ResumeKeepsInv(s, i);
  }

  lemma {:induction false} RunKeepsInv(s: State, cs: seq<Call>)
    requires Inv(s) && LegalRun(s, cs)
    ensures Inv(Run(s, cs))
    decreases |cs|
  {
    if cs == [] {
    } else {
      StepKeepsInv(s, cs[0]);
      RunKeepsInv(Step(s, cs[0]).state, cs[1..]);
    }
  }

  lemma ReachableHasInv(s: State)
    requires Reachable(s)
    ensures Inv(s)
  {
    var n: nat, existing, avoid, cs :| ReachedBy(s, n, existing, avoid, cs);
    InitHasInv(n, existing, avoid);
    RunKeepsInv(Init(n, existing, avoid), cs);
  }
}
