/** What each library call does, told in single amounts and flags. */
module RsmMeaning {
  import opened Vectors
  import opened Reduction
  import opened RsmState
  import opened RsmInvariant
  import opened RsmFuture

  /** `v` is `a` plus `r`, amount by amount. */
  predicate IsSum(v: Vec, a: Vec, r: Vec) {
    |v| == |a| == |r| && forall j :: 0 <= j < |v| ==> v[j] == a[j] + r[j]
  }

  predicate IsDifference(v: Vec, a: Vec, r: Vec) {
    |v| == |a| == |r| && forall j :: 0 <= j < |v| ==> v[j] == a[j] - r[j]
  }

  predicate IsNothing(v: Vec) {
    forall j :: 0 <= j < |v| ==> v[j] == 0
  }

  /** The banker's system if `r` were moved from the pool to process `i`. */
  ghost predicate MovedTo(s: State, i: nat, r: Vec, y: Sys)
    requires Formed(s) && i < |s.active|
  {
    && IsDifference(y.avail, s.available, r)
    && |y.demand| == |y.hold| == |s.active|
    && IsDifference(y.demand[i], s.need[i], r) && IsSum(y.hold[i], s.allocation[i], r)
    && (forall k :: 0 <= k < |s.active| && k != i ==> y.demand[k] == s.need[k] && y.hold[k] == s.allocation[k])
    && forall k: nat :: k in y.procs <==> k < |s.active| && s.active[k]
  }

  /** The active processes can finish one after the other. */
  ghost predicate HasSafeOrder(y: Sys) {
    WellFormed(y) && exists order :: SafeOrder(y, order)
  }

  /** The pool has `r`, and under avoidance moving it to process `i` leaves a safe order. */
  ghost predicate CanHave(s: State, i: nat, r: Vec)
    requires Formed(s) && i < |s.active| && |r| == |s.existing|
  {
    && (forall j :: 0 <= j < |r| ==> r[j] <= s.available[j])
    && (s.avoid ==> exists y :: MovedTo(s, i, r, y) && HasSafeOrder(y))
  }

  lemma CanHaveIff(s: State, i: nat, r: Vec)
    requires Formed(s) && i < |s.active| && Amount(s, r)
    ensures CanHave(s, i, r) <==> MayGrant(s, i, r)
  {
    hide SafeOrder;
    var z := Pretend(s, i, r);
    assert MovedTo(s, i, r, z);
    forall y | MovedTo(s, i, r, y) ensures y == z {
      IsPretend(s, i, r, y);
    }
  }

  lemma IsPretend(s: State, i: nat, r: Vec, y: Sys)
    requires Formed(s) && i < |s.active| && Amount(s, r) && MovedTo(s, i, r, y)
    ensures y == Pretend(s, i, r)
  {
    var z := Pretend(s, i, r);
    assert y.demand[i] == z.demand[i] && y.hold[i] == z.hold[i];
    assert y.demand == z.demand && y.hold == z.hold && y.procs == z.procs;
  }

  /** `r` has gone from the pool to process `i`, and nothing else but its request row and flags differs. */
  ghost predicate Moves(s: State, t: State, i: nat, r: Vec)
    requires Formed(s) && Formed(t) && |t.active| == |s.active| && i < |s.active|
  {
    && IsDifference(t.available, s.available, r) && IsSum(t.allocation[i], s.allocation[i], r)
    && (if s.avoid then IsDifference(t.need[i], s.need[i], r) else t.need[i] == s.need[i])
    && t == s.(available := t.available,
               allocation := s.allocation[i := t.allocation[i]],
               need := s.need[i := t.need[i]],
               request := s.request[i := t.request[i]],
               requestedOnce := t.requestedOnce, waiting := t.waiting, tokens := t.tokens)
  }

  // ---- Init, start, claim, resume ----

  /** A new manager: everything is in the pool and nobody has registered. */
  lemma InitMeans(n: nat, existing: Vec, avoid: bool)
    ensures var s := Init(n, existing, avoid);
            && Formed(s) && s.avoid == avoid && s.existing == existing && s.available == existing && |s.active| == n
            && (forall i :: 0 <= i < n ==>
                  && IsNothing(s.allocation[i]) && IsNothing(s.request[i])
                  && IsNothing(s.maxDemand[i]) && IsNothing(s.need[i])
                  && !s.started[i] && !s.active[i] && !s.claimed[i] && !s.requestedOnce[i] && !s.waiting[i]
                  && s.tokens[i] == 0)
  {
  }

  /** `rsm_process_started` fails for an apid out of range or in use, and else registers it and does no more. */
  lemma StartMeans(s: State, i: int)
    requires Inv(s)
    ensures var o := Step(s, CStart(i));
            && (o.reply == Done <==> 0 <= i < |s.active| && !s.started[i])
            && (o.reply != Done ==> o == Outcome(s, Failed))
            && (o.reply == Done ==> o.state == s.(started := s.started[i := true], active := s.active[i := true]))
  {
    hide Safe, Conserved, Quiet;
    if 0 <= i < |s.active| && !s.started[i] {
      assert ProcessOk(s, i);
      assert s.request[i := Zero(|s.existing|)] == s.request;
    }
  }

  /** `rsm_claim` records the claim, once, before any request, and within what exists; without avoidance it does nothing. */
  lemma ClaimMeans(s: State, i: int, c: Vec)
    requires Inv(s) && |c| == |s.existing| && !Blocked(s, i)
    ensures var o := Step(s, CClaim(i, c));
            var refused :=
              || (exists j :: 0 <= j < |c| && c[j] < 0)
              || !(0 <= i < |s.active| && s.started[i])
              || (s.avoid && (s.claimed[i] || s.requestedOnce[i] || exists j :: 0 <= j < |c| && c[j] > s.existing[j]));
            && o.reply == (if refused then Failed else Done)
            && (refused || !s.avoid ==> o.state == s)
            && (!refused && s.avoid ==>
                  o.state == s.(maxDemand := s.maxDemand[i := c], need := s.need[i := c], claimed := s.claimed[i := true]))
  {
    hide Safe, Conserved, Quiet;
  }

  /** The caller's wait is over: one token less, nothing else. */
  lemma ResumeMeans(s: State, i: int)
    requires Formed(s) && Enabled(s, CResume(i))
    ensures var o := Step(s, CResume(i));
            && o.reply == Done && s.tokens[i] > 0
            && o.state == s.(tokens := s.tokens[i := s.tokens[i] - 1])
  {
  }

  // ---- Request ----

  /** The requests that `rsm_request` refuses. */
  ghost predicate RefusesRequest(s: State, i: int, r: Vec)
    requires Formed(s) && |r| == |s.existing|
  {
    || (exists j :: 0 <= j < |r| && r[j] < 0)
    || !(0 <= i < |s.active| && s.started[i] && s.active[i])
    || (exists j :: 0 <= j < |r| && r[j] > s.existing[j])
    || (s.avoid && (!s.claimed[i] || exists j :: 0 <= j < |r| && r[j] > s.need[i][j]))
  }

  /**
   * `rsm_request`: an amount that is negative, more than exists or more than is left of the
   * claim, or a caller that is not active or has made no claim, is refused and changes nothing.
   * Otherwise the request is granted at once if it is available and safe; if not, the caller waits
   * for exactly it.
   */
  lemma RequestMeans(s: State, i: int, r: Vec)
    requires Inv(s) && |r| == |s.existing| && !Blocked(s, i)
    ensures var o := Step(s, CRequest(i, r)); var t := o.state;
            && (o.reply == Failed <==> RefusesRequest(s, i, r))
            && (o.reply == Failed ==> t == s)
            && (o.reply != Failed ==>
                  && Formed(t) && (o.reply == Done <==> CanHave(s, i, r))
                  && t.requestedOnce == s.requestedOnce[i := true])
            && (o.reply == Done ==>
                  Moves(s, t, i, r) && t.request == s.request && t.waiting == s.waiting && t.tokens == s.tokens)
            && (o.reply == Blocks ==>
                  t == s.(requestedOnce := s.requestedOnce[i := true],
                          request := s.request[i := r], waiting := s.waiting[i := true]))
  {
    hide Safe, Conserved, Quiet, CanHave;
    assert AskIsValid(s, i, r) <==> !RefusesRequest(s, i, r) by { AskIsValidIff(s, i, r); }
    if AskIsValid(s, i, r) {
      assert ProcessOk(s, i);
      var noted := s.(requestedOnce := s.requestedOnce[i := true], request := s.request[i := r]);
      NotingChangesNothing(s, noted, i, r);
      CanHaveIff(s, i, r);
      assert s.request[i := r][i := Zero(|s.existing|)] == s.request;
    }
  }

  lemma AskIsValidIff(s: State, i: int, r: Vec)
    requires Formed(s) && |r| == |s.existing|
    ensures AskIsValid(s, i, r) <==> !RefusesRequest(s, i, r)
  {
    if !RefusesRequest(s, i, r) {
      assert NonNeg(r) && Leq(r, s.existing);
      assert s.avoid ==> Leq(r, s.need[i]);
    }
  }

  lemma NotingChangesNothing(s: State, noted: State, i: nat, r: Vec)
    requires Formed(s) && i < |s.active| && Amount(s, r)
    requires noted == s.(requestedOnce := s.requestedOnce[i := true], request := s.request[i := r])
    ensures Formed(noted) && (MayGrant(noted, i, r) <==> MayGrant(s, i, r))
  {
    hide Safe;
    assert ActiveSet(noted) == ActiveSet(s);
    assert Pretend(noted, i, r) == Pretend(s, i, r);
  }

  // ---- The wake-up pass ----

  /** Waiter `k` is given its request and one token if it can have it; else nothing happens. */
  ghost predicate Turn(u: State, v: State, k: nat)
    requires Formed(u) && Formed(v) && |v.active| == |u.active| && k < |u.active|
  {
    if u.waiting[k] && u.active[k] && CanHave(u, k, u.request[k]) then
      && Moves(u, v, k, u.request[k]) && |v.request[k]| == |u.existing| && IsNothing(v.request[k])
      && v.requestedOnce == u.requestedOnce && v.waiting == u.waiting[k := false]
      && v.tokens == u.tokens[k := u.tokens[k] + 1]
    else v == u
  }

  /** One pass over the waiters from `k` on, in the order of their apids. */
  ghost predicate Pass(states: seq<State>, k: nat, from: State, end: State)
    requires Formed(from) && k <= |from.active|
  {
    && |states| == |from.active| - k + 1 && states[0] == from && states[|states| - 1] == end
    && (forall l :: 0 <= l < |states| ==> Formed(states[l]) && |states[l].active| == |from.active|)
    && forall l :: 0 <= l < |states| - 1 ==> Turn(states[l], states[l + 1], k + l)
  }

  lemma TurnIsServing(u: State, k: nat)
    requires Formed(u) && k < |u.active|
    ensures Turn(u, if Grantable(u, k) then GrantWaiter(u, k) else u, k)
  {
    hide Safe, CanHave;
    assert NonNeg(u.request[k]);
    CanHaveIff(u, k, u.request[k]);
  }

  lemma {:induction false} WakeIsAPass(u: State, k: nat) returns (states: seq<State>)
    requires Formed(u) && k <= |u.active|
    ensures Pass(states, k, u, WakeFrom(u, k))
    decreases |u.active| - k
  {
    hide Turn, Grantable, GrantWaiter, Formed;
    if k == |u.active| {
      states := [u];
    } else {
      var v := if Grantable(u, k) then GrantWaiter(u, k) else u;
      TurnIsServing(u, k);
      WaiterKeepsSize(u, k);
      var rest := WakeIsAPass(v, k + 1);
      states := [u] + rest;
      forall l | 0 <= l < |states| - 1 ensures Turn(states[l], states[l + 1], k + l) {
        if l > 0 {
          assert Turn(rest[l - 1], rest[l], k + 1 + (l - 1));
        }
      }
    }
  }

  lemma WaiterKeepsSize(u: State, k: nat)
    requires Formed(u) && k < |u.active|
    ensures |GrantWaiter(u, k).active| == |u.active|
  {
  }

  // ---- What a pass amounts to ----

  ghost predicate AsBefore(s: State, t: State, k: nat)
    requires Formed(s) && Formed(t) && |t.active| == |s.active| && k < |s.active|
  {
    && t.allocation[k] == s.allocation[k] && t.request[k] == s.request[k] && t.need[k] == s.need[k]
    && t.waiting[k] == s.waiting[k] && t.tokens[k] == s.tokens[k]
  }

  /** Process `k` waited, and has got exactly what it waited for, and one token. */
  ghost predicate GotItsRequest(s: State, t: State, k: nat)
    requires Formed(s) && Formed(t) && |t.active| == |s.active| && k < |s.active|
  {
    && s.waiting[k] && s.active[k] && !t.waiting[k] && t.tokens[k] == s.tokens[k] + 1
    && IsSum(t.allocation[k], s.allocation[k], s.request[k]) && IsNothing(t.request[k])
    && (if s.avoid then IsDifference(t.need[k], s.need[k], s.request[k]) else t.need[k] == s.need[k])
  }

  /** The processes that waited before and do not wait any more. */
  ghost function WokenUp(s: State, t: State): set<nat>
    requires Formed(s) && Formed(t) && |t.active| == |s.active|
  {
    set k | 0 <= k < |s.active| && s.waiting[k] && !t.waiting[k]
  }

  /** The fields a pass never touches. */
  ghost predicate SameOtherwise(s: State, t: State) {
    && t.maxDemand == s.maxDemand && t.claimed == s.claimed && t.started == s.started && t.active == s.active
    && t.requestedOnce == s.requestedOnce && t.avoid == s.avoid && t.existing == s.existing
  }

  /**
   * From `s` to `t` some waiters got what they waited for and came out of the pool, everybody
   * else is as before, and nobody is left waiting for something he can have.
   */
  ghost predicate Serves(s: State, t: State)
    requires Formed(s)
  {
    && Formed(t) && SameOtherwise(s, t)
    && (forall k :: 0 <= k < |s.active| ==> AsBefore(s, t, k) || GotItsRequest(s, t, k))
    && (forall j :: 0 <= j < |s.existing| ==>
          t.available[j] == s.available[j] - Total(s.request, WokenUp(s, t), j, |s.request|))
    && forall k :: 0 <= k < |t.active| && t.waiting[k] && t.active[k] ==> !CanHave(t, k, t.request[k])
  }

  lemma {:induction false} TotalOfServed(s: State, t: State, j: nat, n: nat)
    requires Formed(s) && Formed(t) && |t.active| == |s.active| && |t.existing| == |s.existing| && t.active == s.active
    requires j < |s.existing| && n <= |s.active|
    requires forall k :: 0 <= k < |s.active| ==> AsBefore(s, t, k) || GotItsRequest(s, t, k)
    ensures Total(t.allocation, ActiveSet(s), j, n) ==
            Total(s.allocation, ActiveSet(s), j, n) + Total(s.request, WokenUp(s, t), j, n)
  {
    if n == 0 {
    } else {
      TotalOfServed(s, t, j, n - 1);
      OneServed(s, t, j, n - 1);
    }
  }

  lemma OneServed(s: State, t: State, j: nat, k: nat)
    requires Formed(s) && Formed(t) && |t.active| == |s.active| && |t.existing| == |s.existing|
    requires j < |s.existing| && k < |s.active| && (AsBefore(s, t, k) || GotItsRequest(s, t, k))
    ensures t.allocation[k][j] == s.allocation[k][j] + if k in WokenUp(s, t) then s.request[k][j] else 0
    ensures k in WokenUp(s, t) ==> k in ActiveSet(s)
  {
  }

  lemma TurnRows(u: State, v: State, k: nat, l: nat)
    requires Formed(u) && Formed(v) && |v.active| == |u.active| && k < |u.active| && l < |u.active| && Turn(u, v, k)
    ensures SameOtherwise(u, v)
    ensures AsBefore(u, v, l) || (l == k && GotItsRequest(u, v, l))
  {
    hide CanHave;
  }

  lemma {:induction false} PassRows(states: seq<State>, k: nat, s: State, t: State, l: nat)
    requires Formed(s) && k <= |s.active| && l < |s.active| && Pass(states, k, s, t)
    ensures Formed(t) && |t.active| == |s.active| && SameOtherwise(s, t)
    ensures AsBefore(s, t, l) || (l >= k && GotItsRequest(s, t, l))
    decreases |states|
  {
    hide Formed, Turn, CanHave;
    if k == |s.active| {
    } else {
      var u, rest := states[1], states[1..];
      assert Turn(states[0], states[1], k + 0);
      TurnRows(s, u, k, l);
      forall m | 0 <= m < |rest| - 1 ensures Turn(rest[m], rest[m + 1], k + 1 + m) {
        assert Turn(states[m + 1], states[m + 2], k + (m + 1));
      }
      PassRows(rest, k + 1, u, t, l);
    }
  }

  lemma PassServes(states: seq<State>, s: State, t: State)
    requires Sound(s) && Inv(t) && Pass(states, 0, s, t) && |s.active| > 0
    ensures Serves(s, t)
  {
    hide Pass, CanHave, Safe, ProcessOk;
    PassRows(states, 0, s, t, 0);
    forall k: nat | k < |s.active| ensures AsBefore(s, t, k) || GotItsRequest(s, t, k) {
      PassRows(states, 0, s, t, k);
    }
    assert ActiveSet(t) == ActiveSet(s);
    forall j: nat | j < |s.existing|
      ensures t.available[j] == s.available[j] - Total(s.request, WokenUp(s, t), j, |s.request|)
    {
      TotalOfServed(s, t, j, |s.active|);
    }
    forall k: nat | k < |t.active| && t.waiting[k] && t.active[k] ensures !CanHave(t, k, t.request[k]) {
      assert NonNeg(t.request[k]) && !Grantable(t, k);
      CanHaveIff(t, k, t.request[k]);
    }
  }

  // ---- Release and end ----

  /** `r` is back in the pool; under avoidance it may be asked for again. */
  ghost predicate GivenBack(s: State, g: State, i: nat, r: Vec)
    requires Formed(s) && Formed(g) && |g.active| == |s.active| && i < |s.active|
  {
    && IsSum(g.available, s.available, r) && IsDifference(g.allocation[i], s.allocation[i], r)
    && (if s.avoid then IsSum(g.need[i], s.need[i], r) else g.need[i] == s.need[i])
    && g == s.(available := g.available,
               allocation := s.allocation[i := g.allocation[i]],
               need := s.need[i := g.need[i]])
  }

  ghost predicate RefusesRelease(s: State, i: int, r: Vec)
    requires Formed(s) && |r| == |s.existing|
  {
    || (exists j :: 0 <= j < |r| && r[j] < 0)
    || !(0 <= i < |s.active| && s.started[i] && s.active[i])
    || exists j :: 0 <= j < |r| && r[j] > s.allocation[i][j]
  }

  /** First `r` is given back, then every waiter has its turn, once. */
  ghost predicate ReleasedInto(s: State, t: State, i: nat, r: Vec)
    requires Formed(s) && i < |s.active|
  {
    exists g, states ::
      Formed(g) && |g.active| == |s.active| && GivenBack(s, g, i, r) && Pass(states, 0, g, t) && Serves(g, t)
  }

  /**
   * `rsm_release` refuses, and changes nothing, exactly if an amount is negative or more than the
   * caller holds, or the caller is not active. Otherwise it gives back and lets the waiters have a turn.
   */
  lemma ReleaseMeans(s: State, i: int, r: Vec)
    requires Inv(s) && |r| == |s.existing| && !Blocked(s, i)
    ensures var o := Step(s, CRelease(i, r));
            && o.reply == (if RefusesRelease(s, i, r) then Failed else Done)
            && (RefusesRelease(s, i, r) ==> o.state == s)
            && (!RefusesRelease(s, i, r) ==> ReleasedInto(s, o.state, i, r))
  {
    hide Safe, Conserved, Quiet, Pass;
    if !RefusesRelease(s, i, r) {
      assert NonNeg(r) && Leq(r, s.allocation[i]);
      var g := GiveBack(s, i, r);
      assert GivenBack(s, g, i, r);
      var states := WakeIsAPass(g, 0);
      GiveBackKeepsSound(s, i, r);
      WakeFromSettles(g, 0);
      PassServes(states, g, WakeFrom(g, 0));
    }
  }

  /**
   * In the end: the caller has exactly `r` less, and may ask for it again; each other process is as
   * before or has got exactly what it waited for; the pool has `r` more, less what those got; and
   * nobody is left waiting for something he can have.
   */
  lemma ReleaseLeaves(s: State, i: nat, r: Vec)
    requires Inv(s) && |r| == |s.existing| && !Blocked(s, i) && !RefusesRelease(s, i, r)
    ensures var t := Step(s, CRelease(i, r)).state;
            && SameOtherwise(s, t)
            && t.request[i] == s.request[i] && t.waiting[i] == s.waiting[i] && t.tokens[i] == s.tokens[i]
            && IsDifference(t.allocation[i], s.allocation[i], r)
            && (if s.avoid then IsSum(t.need[i], s.need[i], r) else t.need[i] == s.need[i])
            && (forall k :: 0 <= k < |s.active| && k != i ==> AsBefore(s, t, k) || GotItsRequest(s, t, k))
            && (forall j :: 0 <= j < |r| ==>
                  t.available[j] == s.available[j] + r[j] - Total(s.request, WokenUp(s, t), j, |s.request|))
            && forall k :: 0 <= k < |t.active| && t.waiting[k] && t.active[k] ==> !CanHave(t, k, t.request[k])
  {
    hide Safe, Conserved, Quiet, Pass, CanHave, Step;
    ReleaseMeans(s, i, r);
    var t := Step(s, CRelease(i, r)).state;
    var g, states :| Formed(g) && |g.active| == |s.active| && GivenBack(s, g, i, r) && Pass(states, 0, g, t) && Serves(g, t);
    assert AsBefore(g, t, i);
    assert WokenUp(s, t) == WokenUp(g, t);
    forall k | 0 <= k < |s.active| && k != i ensures AsBefore(s, t, k) || GotItsRequest(s, t, k) {
      assert AsBefore(g, t, k) || GotItsRequest(g, t, k);
    }
  }

  /** Everything process `i` holds is back in the pool, and nothing of it is left in the tables. */
  ghost predicate Gone(s: State, g: State, i: nat)
    requires Formed(s) && Formed(g) && |g.active| == |s.active| && i < |s.active|
  {
    && IsSum(g.available, s.available, s.allocation[i])
    && |g.allocation[i]| == |s.existing| && IsNothing(g.allocation[i]) && IsNothing(g.request[i])
    && IsNothing(g.maxDemand[i]) && IsNothing(g.need[i])
    && g == s.(available := g.available,
               allocation := s.allocation[i := g.allocation[i]], request := s.request[i := g.request[i]],
               maxDemand := s.maxDemand[i := g.maxDemand[i]], need := s.need[i := g.need[i]],
               started := s.started[i := false], active := s.active[i := false], claimed := s.claimed[i := false],
               requestedOnce := s.requestedOnce[i := false])
  }

  ghost predicate EndedInto(s: State, t: State, i: nat)
    requires Formed(s) && i < |s.active|
  {
    exists g, states ::
      Formed(g) && |g.active| == |s.active| && Gone(s, g, i) && Pass(states, 0, g, t) && Serves(g, t)
  }

  /** `rsm_process_ended` fails exactly for a caller that is not active; otherwise all it held is given back. */
  lemma EndMeans(s: State, i: int)
    requires Inv(s) && !Blocked(s, i)
    ensures var o := Step(s, CEnd(i));
            var refused := !(0 <= i < |s.active| && s.started[i] && s.active[i]);
            && o.reply == (if refused then Failed else Done)
            && (refused ==> o.state == s)
            && (!refused ==> EndedInto(s, o.state, i))
  {
    hide Safe, Conserved, Quiet, Pass;
    if 0 <= i < |s.active| && s.started[i] && s.active[i] {
      var g := Retire(s, i);
      assert s.waiting[i := false] == s.waiting;
      assert Gone(s, g, i);
      var states := WakeIsAPass(g, 0);
      RetireKeepsSound(s, i);
      WakeFromSettles(g, 0);
      PassServes(states, g, WakeFrom(g, 0));
    }
  }
}
