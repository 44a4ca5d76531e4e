/**
 * The shared state of the resource manager as a value, and what each library call does
 * to it. Every call runs under one mutex, so a call is one atomic step.
 */
module RsmState {
  import opened Vectors
  import opened Reduction

  datatype State = State(
    avoid: bool,
    existing: Vec,
    available: Vec,
    allocation: Matrix,
    request: Matrix,
    maxDemand: Matrix,
    need: Matrix,
    started: seq<bool>,
    active: seq<bool>,
    claimed: seq<bool>,
    requestedOnce: seq<bool>,
    waiting: seq<bool>,
    tokens: seq<nat>)   // process_sem: how many posts process i has not consumed yet

  datatype Reply = Done | Failed | Blocks
  datatype Outcome = Outcome(state: State, reply: Reply)

  ghost predicate Formed(s: State) {
    var n, m := |s.active|, |s.existing|;
    && |s.available| == m
    && Shaped(s.allocation, n, m) && Shaped(s.request, n, m)
    && Shaped(s.maxDemand, n, m) && Shaped(s.need, n, m)
    && |s.started| == |s.claimed| == |s.requestedOnce| == |s.waiting| == |s.tokens| == n
    && NonNegRows(s.allocation) && NonNegRows(s.request)
  }

  /** A vector argument that passes the bounds check. */
  predicate Amount(s: State, v: Vec) {
    |v| == |s.existing| && NonNeg(v)
  }

  ghost function ActiveSet(s: State): set<nat> {
    set i | 0 <= i < |s.active| && s.active[i]
  }

  ghost predicate Holds(s: State, i: nat)
    requires Formed(s) && i < |s.active|
  {
    exists j :: 0 <= j < |s.existing| && s.allocation[i][j] > 0
  }

  ghost function Holders(s: State): set<nat>
    requires Formed(s)
  {
    set i | 0 <= i < |s.active| && s.active[i] && Holds(s, i)
  }

  /** The system the banker's test looks at: each active process may still need all of `need`. */
  ghost function Banker(s: State): Sys
    requires Formed(s)
  {
    Sys(s.available, s.need, s.allocation, ActiveSet(s))
  }

  /** The same, had `r` been granted to process `i`. */
  ghost function Pretend(s: State, i: nat, r: Vec): Sys
    requires Formed(s) && i < |s.active| && Amount(s, r)
  {
    Sys(Minus(s.available, r), s.need[i := Minus(s.need[i], r)],
        s.allocation[i := Plus(s.allocation[i], r)], ActiveSet(s))
  }

  /** The system deadlock detection looks at: holders, each demanding its pending request. */
  ghost function Pending(s: State): Sys
    requires Formed(s)
  {
    Sys(s.available, s.request, s.allocation, Holders(s))
  }

  ghost predicate MayGrant(s: State, i: nat, r: Vec)
    requires Formed(s) && i < |s.active| && Amount(s, r)
  {
    Leq(r, s.available) && (s.avoid ==> Safe(Pretend(s, i, r)))
  }

  /** Moves `r` from the pool to process `i` and clears its request row. */
  ghost function Grant(s: State, i: nat, r: Vec): (t: State)
    requires Formed(s) && i < |s.active| && Amount(s, r)
    ensures Formed(t)
  {
    s.(available := Minus(s.available, r),
       allocation := s.allocation[i := Plus(s.allocation[i], r)],
       need := if s.avoid then s.need[i := Minus(s.need[i], r)] else s.need,
       request := s.request[i := Zero(|s.existing|)])
  }

  /** Gives waiting process `i` what it asked for and posts its semaphore. */
  ghost function GrantWaiter(s: State, i: nat): (t: State)
    requires Formed(s) && i < |s.active|
    ensures Formed(t)
  {
    Grant(s, i, s.request[i]).(waiting := s.waiting[i := false], tokens := s.tokens[i := s.tokens[i] + 1])
  }

  ghost predicate Grantable(s: State, i: nat)
    requires Formed(s) && i < |s.active|
  {
    s.waiting[i] && s.active[i] && MayGrant(s, i, s.request[i])
  }

  /** One pass over the waiters from process `i` on. */
  ghost function WakeFrom(s: State, i: nat): (t: State)
    requires Formed(s) && i <= |s.active|
    ensures Formed(t) && |t.active| == |s.active| && t.avoid == s.avoid && t.existing == s.existing
    decreases |s.active| - i
  {
    if i == |s.active| then s
    else WakeFrom(if Grantable(s, i) then GrantWaiter(s, i) else s, i + 1)
  }

  ghost function Wake(s: State): State
    requires Formed(s)
  {
    WakeFrom(s, 0)
  }

  ghost function Init(n: nat, existing: Vec, avoid: bool): (s: State)
    ensures Formed(s)
  {
    var zeros, nos := Zeros(n, |existing|), Nos(n);
    State(avoid, existing, existing, zeros, zeros, zeros, zeros, nos, nos, nos, nos, nos, Zero(n))
  }

  predicate Registered(s: State, i: int)
    requires |s.started| == |s.active|
  {
    0 <= i < |s.active| && s.started[i]
  }

  ghost function Start(s: State, i: int): Outcome
    requires Formed(s)
  {
    if !(0 <= i < |s.active|) || s.started[i] then Outcome(s, Failed)
    else Outcome(s.(started := s.started[i := true],
                    active := s.active[i := true],
                    claimed := s.claimed[i := false],
                    requestedOnce := s.requestedOnce[i := false],
                    waiting := s.waiting[i := false],
                    request := s.request[i := Zero(|s.existing|)]), Done)
  }

  /** `rsm_process_ended` up to its wake-up pass. */
  ghost function Retire(s: State, i: nat): (t: State)
    requires Formed(s) && i < |s.active|
    ensures Formed(t)
  {
    var zero := Zero(|s.existing|);
    s.(available := Plus(s.available, s.allocation[i]),
       allocation := s.allocation[i := zero],
       request := s.request[i := zero],
       maxDemand := s.maxDemand[i := zero],
       need := s.need[i := zero],
       waiting := s.waiting[i := false],
       started := s.started[i := false],
       active := s.active[i := false],
       claimed := s.claimed[i := false],
       requestedOnce := s.requestedOnce[i := false])
  }

  ghost function End(s: State, i: int): Outcome
    requires Formed(s)
  {
    if !Registered(s, i) || !s.active[i] then Outcome(s, Failed)
    else Outcome(Wake(Retire(s, i)), Done)
  }

  ghost function Claim(s: State, i: int, c: Vec): Outcome
    requires Formed(s) && |c| == |s.existing|
  {
    if !NonNeg(c) || !Registered(s, i) then Outcome(s, Failed)
    else if !s.avoid then Outcome(s, Done)
    else if s.claimed[i] || s.requestedOnce[i] || !Leq(c, s.existing) then Outcome(s, Failed)
    else Outcome(s.(maxDemand := s.maxDemand[i := c],
                    need := s.need[i := c],
                    claimed := s.claimed[i := true]), Done)
  }

  ghost predicate AskIsValid(s: State, i: int, r: Vec)
    requires Formed(s) && |r| == |s.existing|
  {
    && NonNeg(r) && Registered(s, i) && s.active[i] && Leq(r, s.existing)
    && (s.avoid ==> s.claimed[i] && Leq(r, s.need[i]))
  }

  ghost function Request(s: State, i: int, r: Vec): Outcome
    requires Formed(s) && |r| == |s.existing|
  {
    if !AskIsValid(s, i, r) then Outcome(s, Failed)
    else
      var noted := s.(requestedOnce := s.requestedOnce[i := true], request := s.request[i := r]);
      if MayGrant(noted, i, r) then Outcome(Grant(noted, i, r), Done)
      else Outcome(noted.(waiting := s.waiting[i := true]), Blocks)
  }

  /** `rsm_release` up to its wake-up pass. */
  ghost function GiveBack(s: State, i: nat, r: Vec): (t: State)
    requires Formed(s) && i < |s.active| && |r| == |s.existing| && Leq(r, s.allocation[i])
    ensures Formed(t)
  {
    s.(available := Plus(s.available, r),
       allocation := s.allocation[i := Minus(s.allocation[i], r)],
       need := if s.avoid then s.need[i := Plus(s.need[i], r)] else s.need)
  }

  ghost function Release(s: State, i: int, r: Vec): Outcome
    requires Formed(s) && |r| == |s.existing|
  {
    if !NonNeg(r) || !Registered(s, i) || !s.active[i] || !Leq(r, s.allocation[i]) then Outcome(s, Failed)
    else Outcome(Wake(GiveBack(s, i, r)), Done)
  }

  /** The blocked caller's `sem_wait` returns, and with it its `rsm_request`. */
  ghost function Resume(s: State, i: int): Outcome
    requires Formed(s) && 0 <= i < |s.active| && s.tokens[i] > 0
  {
    Outcome(s.(tokens := s.tokens[i := s.tokens[i] - 1]), Done)
  }

  /** What `rsm_detection` counts. */
  ghost function Deadlocked(s: State): set<nat>
    requires Formed(s)
  {
    Residue(Pending(s))
  }

  // ---- Runs ----

  datatype Call =
    | CStart(apid: int)
    | CEnd(apid: int)
    | CClaim(apid: int, v: Vec)
    | CRequest(apid: int, v: Vec)
    | CRelease(apid: int, v: Vec)
    | CResume(apid: int)

  /** A process inside `rsm_request`, waiting for its semaphore, makes no other call. */
  predicate Blocked(s: State, i: int)
    requires |s.waiting| == |s.tokens|
  {
    0 <= i < |s.waiting| && (s.waiting[i] || s.tokens[i] > 0)
  }

  ghost predicate Enabled(s: State, c: Call)
    requires Formed(s)
  {
    match c
    case CStart(i) => true
    case CEnd(i) => !Blocked(s, i)
    case CClaim(i, v) => !Blocked(s, i) && |v| == |s.existing|
    case CRequest(i, v) => !Blocked(s, i) && |v| == |s.existing|
    case CRelease(i, v) => !Blocked(s, i) && |v| == |s.existing|
    case CResume(i) => 0 <= i < |s.active| && s.tokens[i] > 0
  }

  ghost function Step(s: State, c: Call): (o: Outcome)
    requires Formed(s) && Enabled(s, c)
    ensures Formed(o.state) && |o.state.active| == |s.active|
    ensures o.state.avoid == s.avoid && o.state.existing == s.existing
  {
    match c
    case CStart(i) => Start(s, i)
    case CEnd(i) => End(s, i)
    case CClaim(i, v) => Claim(s, i, v)
    case CRequest(i, v) => Request(s, i, v)
    case CRelease(i, v) => Release(s, i, v)
    case CResume(i) => Resume(s, i)
  }

  ghost predicate LegalRun(s: State, cs: seq<Call>)
    requires Formed(s)
    decreases |cs|
  {
    cs == [] || (Enabled(s, cs[0]) && LegalRun(Step(s, cs[0]).state, cs[1..]))
  }

  ghost function Run(s: State, cs: seq<Call>): (t: State)
    requires Formed(s) && LegalRun(s, cs)
    ensures Formed(t) && |t.active| == |s.active| && t.avoid == s.avoid && t.existing == s.existing
    decreases |cs|
  {
    if cs == [] then s else Run(Step(s, cs[0]).state, cs[1..])
  }

  /** `s` arises from a successful `rsm_init` by some run of calls. */
  ghost predicate Reachable(s: State) {
    exists n: nat, existing, avoid, cs :: ReachedBy(s, n, existing, avoid, cs)
  }

  ghost predicate ReachedBy(s: State, n: nat, existing: Vec, avoid: bool, cs: seq<Call>) {
    NonNeg(existing) && LegalRun(Init(n, existing, avoid), cs) && s == Run(Init(n, existing, avoid), cs)
  }

  lemma NoCalls(s: State)
    requires Formed(s)
    ensures LegalRun(s, []) && Run(s, []) == s
  {
  }

  lemma {:induction false} RunConcat(s: State, a: seq<Call>, b: seq<Call>)
    requires Formed(s) && LegalRun(s, a) && LegalRun(Run(s, a), b)
    ensures LegalRun(s, a + b) && Run(s, a + b) == Run(Run(s, a), b)
    decreases |a|
  {
    if a == [] {
      assert a + b == b;
    } else {
      RunConcat(Step(s, a[0]).state, a[1..], b);
      assert (a + b)[1..] == a[1..] + b;
    }
  }
}
