/**
 * The resource manager itself: the shared segment as arrays updated in place, one method
 * per library call. Each method is one critical section; its contract ties the new state
 * to the step function of the old one. Array cells are C ints, so every store below is
 * also a proof that it does not overflow.
 */
module ResourceManager {
  import opened CommonTypes
  import opened Vectors
  import opened Reduction
  import opened RsmState
  import opened RsmInvariant

  const MAX_PR := 100
  const MAX_RT := 100

  ghost function RowOf(a: array2<int32>, i: nat): (r: Vec)
    requires i < a.Length0
    reads a
    ensures |r| == a.Length1 && forall j :: 0 <= j < a.Length1 ==> r[j] == a[i, j]
  {
    seq(a.Length1, j requires 0 <= j < a.Length1 reads a => a[i, j])
  }

  ghost function Rows(a: array2<int32>): (r: Matrix)
    reads a
    ensures |r| == a.Length0 && forall i :: 0 <= i < a.Length0 ==> r[i] == RowOf(a, i)
  {
    seq(a.Length0, i requires 0 <= i < a.Length0 reads a => RowOf(a, i))
  }

  /** Only row `i` differs from `before`, and it now reads `v`. */
  lemma RowReplaced(a: array2<int32>, before: Matrix, i: nat, v: Vec)
    requires i < a.Length0 && |v| == a.Length1 && Shaped(before, a.Length0, a.Length1)
    requires forall j :: 0 <= j < a.Length1 ==> a[i, j] == v[j]
    requires forall k, j :: 0 <= k < a.Length0 && k != i && 0 <= j < a.Length1 ==> a[k, j] == before[k][j]
    ensures Rows(a) == before[i := v]
  {
    forall k | 0 <= k < a.Length0 ensures Rows(a)[k] == before[i := v][k] {
      assert RowOf(a, k) == if k == i then v else before[k];
    }
  }

  method ZeroMatrix(rows: nat, columns: nat) returns (a: array2<int32>)
    ensures fresh(a) && a.Length0 == rows && a.Length1 == columns
    ensures Rows(a) == Zeros(rows, columns)
  {
    a := new int32[rows, columns]((_, _) => 0);
    assert forall i :: 0 <= i < rows ==> RowOf(a, i) == Zero(columns);
  }

  method NoFlags(size: nat) returns (a: array<bool>)
    ensures fresh(a) && a.Length == size
    ensures a[..] == Nos(size)
  {
    a := new bool[size](_ => false);
  }

  method NoTokens(size: nat) returns (a: array<nat>)
    ensures fresh(a) && a.Length == size && a[..] == Zero(size)
  {
    a := new nat[size](_ => 0);
    assert a[..] == Zero(size);
  }

  method CopyOf(v: seq<int32>) returns (a: array<int32>)
    ensures fresh(a) && a.Length == |v| && a[..] == v
  {
    a := new int32[|v|];
    for j := 0 to |v|
      invariant forall k :: 0 <= k < j ==> a[k] == v[k]
    {
      a[j] := v[j];
    }
  }

  class Manager {
    const avoid: bool
    const n: nat
    const m: nat
    const existing: seq<int32>
    const available: array<int32>
    const allocation: array2<int32>
    const request: array2<int32>
    const maxDemand: array2<int32>
    const need: array2<int32>
    const started: array<bool>
    const active: array<bool>
    const claimed: array<bool>
    const requestedOnce: array<bool>
    const waiting: array<bool>
    const tokens: array<nat>

    ghost predicate Shape() {
      && |existing| == m && available.Length == m
      && allocation.Length0 == request.Length0 == maxDemand.Length0 == need.Length0 == n
      && allocation.Length1 == request.Length1 == maxDemand.Length1 == need.Length1 == m
      && started.Length == active.Length == claimed.Length == requestedOnce.Length == n
      && waiting.Length == tokens.Length == n
      && allocation != request && allocation != maxDemand && allocation != need
      && request != maxDemand && request != need && maxDemand != need
      && started != active && started != claimed && started != requestedOnce && started != waiting
      && active != claimed && active != requestedOnce && active != waiting
      && claimed != requestedOnce && claimed != waiting && requestedOnce != waiting
    }

    ghost function Cells(): set<object> {
      {available, allocation, request, maxDemand, need, started, active, claimed, requestedOnce, waiting, tokens}
    }

    ghost function View(): State
      reads Cells()
    {
      State(avoid, existing, available[..], Rows(allocation), Rows(request), Rows(maxDemand), Rows(need),
            started[..], active[..], claimed[..], requestedOnce[..], waiting[..], tokens[..])
    }

    /** Between calls: the reachable-state invariant. */
    ghost predicate Valid()
      reads Cells()
    {
      Shape() && Inv(View())
    }

    constructor (pCount: nat, exist: seq<int32>, avoiding: bool)
      requires NonNeg(exist)
      ensures Shape() && avoid == avoiding && n == pCount && existing == exist && available[..] == exist
      ensures Rows(allocation) == Rows(request) == Rows(maxDemand) == Rows(need) == Zeros(pCount, |exist|)
      ensures started[..] == active[..] == claimed[..] == requestedOnce[..] == waiting[..] == Nos(pCount)
      ensures tokens[..] == Zero(pCount)
      ensures fresh(available) && fresh(allocation) && fresh(request) && fresh(maxDemand) && fresh(need)
      ensures fresh(started) && fresh(active) && fresh(claimed) && fresh(requestedOnce) && fresh(waiting)
      ensures fresh(tokens)
    {
      hide Rows, Zeros, Nos, Zero;
      avoid, n, m, existing := avoiding, pCount, |exist|, exist;
      var pool := CopyOf(exist);
      var a := ZeroMatrix(pCount, |exist|);
      var b := ZeroMatrix(pCount, |exist|);
      var c := ZeroMatrix(pCount, |exist|);
      var d := ZeroMatrix(pCount, |exist|);
      available, allocation, request, maxDemand, need := pool, a, b, c, d;
      var f1 := NoFlags(pCount);
      var f2 := NoFlags(pCount);
      var f3 := NoFlags(pCount);
      var f4 := NoFlags(pCount);
      var f5 := NoFlags(pCount);
      started, active, claimed, requestedOnce, waiting := f1, f2, f3, f4, f5;
      var t := NoTokens(pCount);
      tokens := t;
      new;
    }

    /** The banker's test. */
    method IsSafe(apid: nat, req: seq<int32>) returns (safe: bool)
      requires Shape() && Balanced(View()) && apid < n && active[apid] && Amount(View(), req)
      requires NonNegRows(View().need)
      ensures safe <==> Leq(req, View().available) && Safe(Pretend(View(), apid, req))
    {
      ghost var y := Pretend(View(), apid, req);
      var work, fits := PoolAfter(req);
      if !fits {
        return false;
      }
      PretendIsBounded(View(), apid, req);
      var finish := new bool[n](i requires 0 <= i < n reads active => !active[i]);
      assert Unfinished(finish[..]) == y.procs;
      assert work[..] == y.avail;
      ReducedAtStart(y, finish[..]);
      var found := true;
      while found
        invariant Reduced(y, work[..], finish[..])
        invariant !found ==> forall k :: 0 <= k < n && !finish[k] ==> !Leq(y.demand[k], work[..])
        decreases Unfinished(finish[..]), found
      {
        found := SafetyPass(y, apid, req, work, finish);
      }
      ReducedAtEnd(y, work[..], finish[..]);
      SafeIffNothingStuck(y);
      safe := AllFinished(finish);
    }

    /** The pool less `req`, unless that is negative somewhere. */
    method PoolAfter(req: seq<int32>) returns (work: array<int32>, fits: bool)
      requires Shape() && |req| == m && NonNeg(available[..]) && NonNeg(req)
      ensures fresh(work) && work.Length == m
      ensures fits <==> Leq(req, available[..])
      ensures fits ==> work[..] == Minus(available[..], req)
    {
      work := new int32[m];
      for j := 0 to m
        invariant forall k :: 0 <= k < j ==> work[k] == available[k] - req[k] && 0 <= work[k]
      {
        assert 0 <= available[..][j];
        work[j] := available[j] - req[j];
        if work[j] < 0 {
          return work, false;
        }
      }
      return work, true;
    }

    /** `y` is the system the safety test walks over: what `need` and `allocation` would be after the grant. */
    ghost predicate IsTested(y: Sys, apid: nat, req: Vec)
      requires Shape() && |req| == m
      reads need, allocation
    {
      && WellFormed(y) && |y.avail| == m && |y.demand| == n && Bounded(y, existing)
      && (forall i, j :: 0 <= i < n && 0 <= j < m ==> y.demand[i][j] == need[i, j] - if i == apid then req[j] else 0)
      && (forall i, j :: 0 <= i < n && 0 <= j < m ==> y.hold[i][j] == allocation[i, j] + if i == apid then req[j] else 0)
    }

    /** One scan of the safety test over all processes. */
    method SafetyPass(ghost y: Sys, apid: nat, req: seq<int32>, work: array<int32>, finish: array<bool>)
      returns (found: bool)
      requires Shape() && |req| == m && IsTested(y, apid, req) && NonNeg(req) && NonNegRows(Rows(need))
      requires work.Length == m && finish.Length == n && {work, finish} !! Cells()
      requires Reduced(y, work[..], finish[..])
      modifies work, finish
      ensures Reduced(y, work[..], finish[..])
      ensures found ==> Unfinished(finish[..]) < Unfinished(old(finish[..]))
      ensures !found ==> work[..] == old(work[..]) && finish[..] == old(finish[..])
      ensures !found ==> forall k :: 0 <= k < n && !finish[k] ==> !Leq(y.demand[k], work[..])
    {
      found := false;
      for i := 0 to n
        invariant Reduced(y, work[..], finish[..])
        invariant found ==> Unfinished(finish[..]) < Unfinished(old(finish[..]))
        invariant !found ==> work[..] == old(work[..]) && finish[..] == old(finish[..])
        invariant !found ==> forall k :: 0 <= k < i && !finish[k] ==> !Leq(y.demand[k], work[..])
      {
        if !finish[i] {
          var can := NeedFits(y, i, apid, req, work);
          if can {
            ReducedAfterFinish(y, work[..], finish[..], i);
            Absorb(y, i, apid, req, work, finish[..]);
            finish[i] := true;
            found := true;
          }
        }
      }
    }

    method NeedFits(ghost y: Sys, i: nat, apid: nat, req: seq<int32>, work: array<int32>) returns (can: bool)
      requires Shape() && |req| == m && IsTested(y, apid, req) && i < n && work.Length == m
      requires NonNeg(req) && NonNegRows(Rows(need))
      ensures can <==> Leq(y.demand[i], work[..])
    {
      for j := 0 to m
        invariant forall k :: 0 <= k < j ==> y.demand[i][k] <= work[k]
      {
        assert NonNeg(Rows(need)[i]) && Rows(need)[i][j] == need[i, j];
        var needIJ: int32 := need[i, j] - if i == apid then req[j] else 0;
        if needIJ > work[j] {
          return false;
        }
      }
      return true;
    }

    /** Process `i` finishes and gives back what it would hold. */
    method Absorb(ghost y: Sys, i: nat, apid: nat, req: seq<int32>, work: array<int32>, ghost finish: seq<bool>)
      requires Shape() && |req| == m && IsTested(y, apid, req) && i < n && work.Length == m && work !in Cells()
      requires |finish| == n && Reduced(y, Plus(work[..], y.hold[i]), finish[i := true])
      modifies work
      ensures work[..] == Plus(old(work[..]), y.hold[i])
    {
      ghost var sum := Plus(work[..], y.hold[i]);
      for j := 0 to m
        invariant forall k :: 0 <= k < m ==> work[k] == if k < j then sum[k] else old(work[k])
      {
        assert 0 <= sum[j] <= existing[j];
        work[j] := work[j] + allocation[i, j] + if i == apid then req[j] else 0;
      }
    }

    /** Moves the pending request of process `i` from the pool to it. */
    method GrantPending(i: nat)
      requires Shape() && Balanced(View()) && i < n && active[i] && Leq(View().request[i], View().available)
      requires avoid ==> Leq(View().request[i], View().need[i])
      modifies available, allocation, need, request
      ensures View() == Grant(old(View()), i, old(View().request[i]))
    {
      PendingCellsFit(View(), i);
      MovePending(View().available, View().allocation, View().need, View().request, i);
    }

    method MovePending(ghost av: Vec, ghost al: Matrix, ghost ne: Matrix, ghost re: Matrix, i: nat)
      requires Shape() && i < n
      requires av == available[..] && al == Rows(allocation) && ne == Rows(need) && re == Rows(request)
      requires forall j :: 0 <= j < m ==> 0 <= re[i][j] <= av[j] && 0 <= al[i][j] + re[i][j] <= existing[j]
      requires avoid ==> forall j :: 0 <= j < m ==> re[i][j] <= ne[i][j]
      modifies available, allocation, need, request
      ensures available[..] == Minus(av, re[i]) && Rows(allocation) == al[i := Plus(al[i], re[i])]
      ensures Rows(need) == if avoid then ne[i := Minus(ne[i], re[i])] else ne
      ensures Rows(request) == re[i := Zero(m)]
    {
      MoveCells(av, al, ne, re, i);
      ghost var r := re[i];
      RowReplaced(allocation, al, i, Plus(al[i], r));
      RowReplaced(request, re, i, Zero(m));
      RowReplaced(need, ne, i, if avoid then Minus(ne[i], r) else ne[i]);
    }

    method MoveCells(ghost av: Vec, ghost al: Matrix, ghost ne: Matrix, ghost re: Matrix, i: nat)
      requires Shape() && i < n
      requires av == available[..] && al == Rows(allocation) && ne == Rows(need) && re == Rows(request)
      requires forall j :: 0 <= j < m ==> 0 <= re[i][j] <= av[j] && 0 <= al[i][j] + re[i][j] <= existing[j]
      requires avoid ==> forall j :: 0 <= j < m ==> re[i][j] <= ne[i][j]
      modifies available, allocation, need, request
      ensures forall k :: 0 <= k < m ==> available[k] == av[k] - re[i][k]
      ensures forall h, k :: 0 <= h < n && 0 <= k < m ==> allocation[h, k] == al[h][k] + if h == i then re[i][k] else 0
      ensures forall h, k :: 0 <= h < n && 0 <= k < m ==>
                need[h, k] == ne[h][k] - if avoid && h == i then re[i][k] else 0
      ensures forall h, k :: 0 <= h < n && 0 <= k < m ==> request[h, k] == if h == i then 0 else re[h][k]
    {
      ghost var r := re[i];
      for j := 0 to m
        invariant forall k :: 0 <= k < m ==> available[k] == av[k] - if k < j then r[k] else 0
        invariant forall h, k :: 0 <= h < n && 0 <= k < m ==>
                    allocation[h, k] == al[h][k] + if h == i && k < j then r[k] else 0
        invariant forall h, k :: 0 <= h < n && 0 <= k < m ==>
                    need[h, k] == ne[h][k] - if avoid && h == i && k < j then r[k] else 0
        invariant forall h, k :: 0 <= h < n && 0 <= k < m ==>
                    request[h, k] == if h == i && k < j then 0 else re[h][k]
      {
        available[j] := available[j] - request[i, j];
        allocation[i, j] := allocation[i, j] + request[i, j];
        if avoid {
          need[i, j] := need[i, j] - request[i, j];
        }
        request[i, j] := 0;
      }
    }

    /**
     * Re-tests the waiters until a whole pass grants nothing. The loop as written computes
     * a single pass: the second one never grants anything.
     */
    method TrySatisfyWaiting() returns (ghost passes: nat)
      requires Shape() && Sound(View())
      modifies available, allocation, need, request, waiting, tokens
      ensures View() == Wake(old(View()))
      ensures passes <= 2
    {
      ghost var s0 := View();
      passes := 0;
      var progress := true;
      while progress
        invariant Sound(View()) && passes <= 2
        invariant passes == 0 ==> View() == s0 && progress
        invariant passes >= 1 ==> View() == Wake(s0) && Quiet(View())
        invariant passes == 2 ==> !progress
        decreases 2 - passes
      {
        if passes >= 1 {
          QuietNeedsNoWake(View(), 0);
        }
        progress := SatisfyPass();
        passes := passes + 1;
      }
    }

    /** One scan over the waiters. */
    method SatisfyPass() returns (progress: bool)
      requires Shape() && Sound(View())
      modifies available, allocation, need, request, waiting, tokens
      ensures View() == Wake(old(View())) && Sound(View()) && Quiet(View())
      ensures Quiet(old(View())) ==> !progress
    {
      hide ProcessOk, Conserved, GrantWaiter, MayGrant, Safe, NonNeg;
      ghost var s0 := View();
      progress := false;
      for i := 0 to n
        invariant Sound(View()) && WakeFrom(View(), i) == Wake(s0)
        invariant forall k :: 0 <= k < i ==> !Grantable(View(), k)
        invariant Quiet(s0) ==> View() == s0 && !progress
      {
        hide ProcessOk, Conserved, GrantWaiter, MayGrant, Safe, NonNeg;
        if waiting[i] && active[i] {
          var granted := TryGrant(i);
          if granted {
            progress := true;
          }
        }
      }
    }

    /** The body of the wake-up loop for one waiter. */
    method TryGrant(i: nat) returns (granted: bool)
      requires Shape() && Sound(View()) && i < n && waiting[i] && active[i]
      modifies available, allocation, need, request, waiting, tokens
      ensures granted <==> Grantable(old(View()), i)
      ensures View() == if granted then GrantWaiter(old(View()), i) else old(View())
      ensures Sound(View())
      ensures forall k :: 0 <= k < n && k != i && !Grantable(old(View()), k) ==> !Grantable(View(), k)
      ensures granted ==> !Grantable(View(), i)
    {
      hide ProcessOk, Conserved, Safe, Quiet;
      ghost var s := View();
      granted := MayServe(i);
      if granted {
        WaiterIsServed(s, i);
        GrantPending(i);
        waiting[i] := false;
        tokens[i] := tokens[i] + 1;
      }
    }

    /** The tests the wake-up loop makes of one waiter. */
    method MayServe(i: nat) returns (may: bool)
      requires Shape() && Sound(View()) && i < n && waiting[i] && active[i]
      ensures may <==> Grantable(View(), i)
    {
      ghost var s := View();
      assert ProcessOk(s, i);
      may := RequestFits(i, available);
      if may && avoid {
        NeedsAreNonNeg(s);
        var req := RequestRow(i);
        may := IsSafe(i, req);
      }
    }

    method RequestRow(i: nat) returns (row: seq<int32>)
      requires Shape() && i < n
      ensures row == View().request[i]
    {
      row := seq(m, j requires 0 <= j < m reads request => request[i, j]);
      assert row == RowOf(request, i);
    }

    // ---- The library calls ----

    method ProcessStarted(apid: int32) returns (ret: int)
      requires Valid()
      modifies started, active, claimed, requestedOnce, waiting, request
      ensures Valid()
      ensures View() == Start(old(View()), apid).state
      ensures ret == if Start(old(View()), apid).reply == Done then 0 else -1
    {
      ghost var s := View();
      if apid < 0 || apid >= n || started[apid] {
        return -1;
      }
      StartKeepsInv(s, apid);
      started[apid] := true;
      active[apid] := true;
      claimed[apid] := false;
      requestedOnce[apid] := false;
      waiting[apid] := false;
      ClearRow(request, apid);
      assert View() == Start(s, apid).state;
      return 0;
    }

    method ProcessEnded(apid: int32) returns (ret: int)
      requires Valid() && !Blocked(View(), apid)
      modifies Cells()
      ensures Valid()
      ensures View() == End(old(View()), apid).state
      ensures ret == if End(old(View()), apid).reply == Done then 0 else -1
    {
      ghost var s := View();
      if apid < 0 || apid >= n || !started[apid] || !active[apid] {
        return -1;
      }
      RetireKeepsSound(s, apid);
      Forget(apid);
      OnePassIsEnough(View());
      ghost var passes := TrySatisfyWaiting();
      return 0;
    }

    method Forget(i: nat)
      requires Shape() && Balanced(View()) && i < n && active[i]
      modifies available, allocation, request, maxDemand, need, started, active, claimed, requestedOnce, waiting
      ensures View() == Retire(old(View()), i)
    {
      hide Rows, RowOf, Conserved, Plus, Zero;
      ReturnHoldings(i);
      ClearRow(request, i);
      ClearRow(maxDemand, i);
      ClearRow(need, i);
      ClearFlags(i);
    }

    method ClearFlags(i: nat)
      requires Shape() && i < n
      modifies started, active, claimed, requestedOnce, waiting
      ensures waiting[..] == old(waiting[..])[i := false] && started[..] == old(started[..])[i := false]
      ensures active[..] == old(active[..])[i := false] && claimed[..] == old(claimed[..])[i := false]
      ensures requestedOnce[..] == old(requestedOnce[..])[i := false]
    {
      waiting[i] := false;
      started[i] := false;
      active[i] := false;
      claimed[i] := false;
      requestedOnce[i] := false;
    }

    method ReturnHoldings(i: nat)
      requires Shape() && Balanced(View()) && i < n && active[i]
      modifies available, allocation
      ensures available[..] == Plus(old(View()).available, old(View()).allocation[i])
      ensures Rows(allocation) == old(Rows(allocation))[i := Zero(m)]
    {
      ghost var s := View();
      forall j | 0 <= j < m ensures 0 <= s.available[j] + s.allocation[i][j] <= existing[j] {
        HeldWithinExisting(s, i, j);
      }
      for j := 0 to m
        invariant forall k :: 0 <= k < m ==> available[k] == s.available[k] + if k < j then s.allocation[i][k] else 0
        invariant forall k :: 0 <= k < m ==> allocation[i, k] == if k < j then 0 else s.allocation[i][k]
        invariant forall h, k :: 0 <= h < n && h != i && 0 <= k < m ==> allocation[h, k] == s.allocation[h][k]
      {
        available[j] := available[j] + allocation[i, j];
        allocation[i, j] := 0;
      }
      RowReplaced(allocation, s.allocation, i, Zero(m));
    }

    method MakeClaim(apid: int32, claim: seq<int32>) returns (ret: int)
      requires Valid() && |claim| == m && !Blocked(View(), apid)
      modifies maxDemand, need, claimed
      ensures Valid()
      ensures View() == Claim(old(View()), apid, claim).state
      ensures ret == if Claim(old(View()), apid, claim).reply == Done then 0 else -1
    {
      ghost var s := View();
      var ok := WithinBounds(claim);
      if !ok || apid < 0 || apid >= n || !started[apid] {
        return -1;
      }
      if !avoid {
        return 0;
      }
      if claimed[apid] || requestedOnce[apid] {
        return -1;
      }
      var fits := FitsIn(claim, existing);
      if !fits {
        return -1;
      }
      ClaimKeepsInv(s, apid, claim);
      SetRow(maxDemand, apid, claim);
      SetRow(need, apid, claim);
      claimed[apid] := true;
      assert View() == Claim(s, apid, claim).state;
      return 0;
    }

    /** `Blocks` means the caller goes on to wait on its semaphore; see `TakeToken`. */
    method MakeRequest(apid: int32, req: seq<int32>) returns (reply: Reply)
      requires Valid() && |req| == m && !Blocked(View(), apid)
      modifies Cells()
      ensures Valid()
      ensures View() == Request(old(View()), apid, req).state
      ensures reply == Request(old(View()), apid, req).reply
    {
      ghost var s := View();
      var ok := MayAsk(apid, req);
      if !ok {
        return Failed;
      }
      RequestKeepsInv(s, apid, req);
      requestedOnce[apid] := true;
      SetRow(request, apid, req);
      ghost var noted := View();
      assert noted == s.(requestedOnce := s.requestedOnce[apid := true], request := s.request[apid := req]);
      NotedIsBalanced(s, noted, apid, req);
      NeedsAreNonNeg(s);
      var avail := FitsIn(req, available[..]);
      var safe := avail;
      if avail && avoid {
        safe := IsSafe(apid, req);
      }
      if avail && safe {
        GrantPending(apid);
        return Done;
      }
      waiting[apid] := true;
      return Blocks;
    }

    /** The checks `rsm_request` makes before it records anything. */
    method MayAsk(apid: int32, req: seq<int32>) returns (ok: bool)
      requires Shape() && Formed(View()) && |req| == m
      ensures ok <==> AskIsValid(View(), apid, req)
    {
      var bounded := WithinBounds(req);
      if !bounded || apid < 0 || apid >= n || !started[apid] || !active[apid] {
        return false;
      }
      ok := FitsIn(req, existing);
      if ok && avoid {
        var row := NeedRow(apid);
        var within := FitsIn(req, row);
        ok := claimed[apid] && within;
      }
    }

    method MakeRelease(apid: int32, rel: seq<int32>) returns (ret: int)
      requires Valid() && |rel| == m && !Blocked(View(), apid)
      modifies Cells()
      ensures Valid()
      ensures View() == Release(old(View()), apid, rel).state
      ensures ret == if Release(old(View()), apid, rel).reply == Done then 0 else -1
    {
      ghost var s := View();
      var ok := WithinBounds(rel);
      if !ok || apid < 0 || apid >= n || !started[apid] || !active[apid] {
        return -1;
      }
      var row := AllocationRow(apid);
      var fits := FitsIn(rel, row);
      if !fits {
        return -1;
      }
      GiveBackKeepsSound(s, apid, rel);
      NeedAfterRelease(s, apid, rel);
      TakeBack(apid, rel);
      OnePassIsEnough(View());
      ghost var passes := TrySatisfyWaiting();
      return 0;
    }

    method TakeBack(i: nat, rel: seq<int32>)
      requires Shape() && Balanced(View()) && i < n && active[i] && Amount(View(), rel) && Leq(rel, View().allocation[i])
      requires avoid ==> NonNeg(View().need[i]) && Leq(Plus(View().need[i], rel), existing)
      modifies available, allocation, need
      ensures View() == GiveBack(old(View()), i, rel)
    {
      ghost var s := View();
      forall j | 0 <= j < m
        ensures 0 <= s.available[j] + rel[j] <= existing[j]
        ensures avoid ==> 0 <= s.need[i][j] + rel[j] <= existing[j]
      {
        HeldWithinExisting(s, i, j);
        assert avoid ==> Plus(s.need[i], rel)[j] <= existing[j];
      }
      MoveBack(s.available, s.allocation, s.need, i, rel);
    }

    method MoveBack(ghost av: Vec, ghost al: Matrix, ghost ne: Matrix, i: nat, rel: seq<int32>)
      requires Shape() && i < n && |rel| == m && NonNeg(rel)
      requires av == available[..] && al == Rows(allocation) && ne == Rows(need)
      requires forall j :: 0 <= j < m ==> rel[j] <= al[i][j] && av[j] + rel[j] <= existing[j]
      requires avoid ==> forall j :: 0 <= j < m ==> ne[i][j] + rel[j] <= existing[j]
      modifies available, allocation, need
      ensures available[..] == Plus(av, rel) && Rows(allocation) == al[i := Minus(al[i], rel)]
      ensures Rows(need) == if avoid then ne[i := Plus(ne[i], rel)] else ne
    {
      for j := 0 to m
        invariant forall k :: 0 <= k < m ==> available[k] == av[k] + if k < j then rel[k] else 0
        invariant forall k :: 0 <= k < m ==> allocation[i, k] == al[i][k] - if k < j then rel[k] else 0
        invariant forall k :: 0 <= k < m ==> need[i, k] == ne[i][k] + if avoid && k < j then rel[k] else 0
        invariant forall h, k :: 0 <= h < n && h != i && 0 <= k < m ==> allocation[h, k] == al[h][k]
        invariant forall h, k :: 0 <= h < n && h != i && 0 <= k < m ==> need[h, k] == ne[h][k]
      {
        available[j] := available[j] + rel[j];
        allocation[i, j] := allocation[i, j] - rel[j];
        if avoid {
          need[i, j] := need[i, j] + rel[j];
        }
      }
      RowReplaced(allocation, al, i, Minus(al[i], rel));
      RowReplaced(need, ne, i, if avoid then Plus(ne[i], rel) else ne[i]);
    }

    /** `sem_wait` on the caller's own semaphore returns, and so does its `rsm_request`. */
    method TakeToken(apid: nat)
      requires Valid() && apid < n && tokens[apid] > 0
      modifies tokens
      ensures Valid()
      ensures View() == Resume(old(View()), apid).state
    {
      ResumeKeepsInv(View(), apid);
      ghost var s := View();
      tokens[apid] := tokens[apid] - 1;
      assert View() == Resume(s, apid).state;
    }

    /** Counts the processes that graph reduction cannot finish. */
    method Detection() returns (deadlocked: nat)
      requires Valid()
      ensures deadlocked == |Deadlocked(View())|
    {
      ghost var y := Pending(View());
      PendingIsBounded(View());
      var work := new int32[m];
      for j := 0 to m
        invariant forall k :: 0 <= k < j ==> work[k] == available[k]
      {
        work[j] := available[j];
      }
      var finish := new bool[n];
      for i := 0 to n
        invariant forall k :: 0 <= k < i ==> (finish[k] <==> k !in y.procs)
        modifies finish
      {
        if !active[i] {
          finish[i] := true;
        } else {
          var holds := HoldsSomething(i);
          finish[i] := !holds;
        }
      }
      assert Unfinished(finish[..]) == y.procs;
      assert work[..] == y.avail;
      ReducedAtStart(y, finish[..]);
      var found := true;
      while found
        invariant Reduced(y, work[..], finish[..])
        invariant !found ==> forall k :: 0 <= k < n && !finish[k] ==> !Leq(y.demand[k], work[..])
        decreases Unfinished(finish[..]), found
      {
        found := DetectionPass(y, work, finish);
      }
      ReducedAtEnd(y, work[..], finish[..]);
      deadlocked := CountUnfinished(finish);
    }

    /** `y` is the system detection walks over. */
    ghost predicate IsPending(y: Sys)
      requires Shape()
      reads request, allocation
    {
      && WellFormed(y) && |y.avail| == m && |y.demand| == n && Bounded(y, existing)
      && y.demand == Rows(request) && y.hold == Rows(allocation)
    }

    /** One scan of the graph reduction over all processes. */
    method DetectionPass(ghost y: Sys, work: array<int32>, finish: array<bool>) returns (found: bool)
      requires Shape() && IsPending(y)
      requires work.Length == m && finish.Length == n && {work, finish} !! Cells()
      requires Reduced(y, work[..], finish[..])
      modifies work, finish
      ensures Reduced(y, work[..], finish[..])
      ensures found ==> Unfinished(finish[..]) < Unfinished(old(finish[..]))
      ensures !found ==> work[..] == old(work[..]) && finish[..] == old(finish[..])
      ensures !found ==> forall k :: 0 <= k < n && !finish[k] ==> !Leq(y.demand[k], work[..])
    {
      found := false;
      for i := 0 to n
        invariant Reduced(y, work[..], finish[..])
        invariant found ==> Unfinished(finish[..]) < Unfinished(old(finish[..]))
        invariant !found ==> work[..] == old(work[..]) && finish[..] == old(finish[..])
        invariant !found ==> forall k :: 0 <= k < i && !finish[k] ==> !Leq(y.demand[k], work[..])
      {
        if !finish[i] {
          var can := RequestFits(i, work);
          if can {
            ReducedAfterFinish(y, work[..], finish[..], i);
            AbsorbHeld(y, i, work, finish[..]);
            finish[i] := true;
            found := true;
          }
        }
      }
    }

    method HoldsSomething(i: nat) returns (holds: bool)
      requires Shape() && Formed(View()) && i < n
      ensures holds <==> Holds(View(), i)
    {
      ghost var row := View().allocation[i];
      for j := 0 to m
        invariant forall k :: 0 <= k < j ==> row[k] <= 0
      {
        assert row[j] == allocation[i, j];
        if allocation[i, j] > 0 {
          return true;
        }
      }
      return false;
    }

    method RequestFits(i: nat, work: array<int32>) returns (can: bool)
      requires Shape() && i < n && work.Length == m
      ensures can <==> Leq(Rows(request)[i], work[..])
    {
      for j := 0 to m
        invariant forall k :: 0 <= k < j ==> RowOf(request, i)[k] <= work[k]
      {
        assert RowOf(request, i)[j] == request[i, j];
        if request[i, j] > work[j] {
          return false;
        }
      }
      return true;
    }

    method AbsorbHeld(ghost y: Sys, i: nat, work: array<int32>, ghost finish: seq<bool>)
      requires Shape() && IsPending(y) && i < n && work.Length == m && work !in Cells()
      requires |finish| == n && Reduced(y, Plus(work[..], y.hold[i]), finish[i := true])
      modifies work
      ensures work[..] == Plus(old(work[..]), y.hold[i])
    {
      ghost var sum := Plus(work[..], y.hold[i]);
      for j := 0 to m
        invariant forall k :: 0 <= k < m ==> work[k] == if k < j then sum[k] else old(work[k])
      {
        assert 0 <= sum[j] <= existing[j];
        work[j] := work[j] + allocation[i, j];
      }
    }

    // ---- Helpers on rows and vectors ----

    method NeedRow(i: nat) returns (row: seq<int32>)
      requires Shape() && i < n
      ensures row == View().need[i]
    {
      row := seq(m, j requires 0 <= j < m reads need => need[i, j]);
      assert row == RowOf(need, i);
    }

    method AllocationRow(i: nat) returns (row: seq<int32>)
      requires Shape() && i < n
      ensures row == View().allocation[i]
    {
      row := seq(m, j requires 0 <= j < m reads allocation => allocation[i, j]);
      assert row == RowOf(allocation, i);
    }
  }

  method AllFinished(finish: array<bool>) returns (all: bool)
    ensures all <==> Unfinished(finish[..]) == {}
  {
    for i := 0 to finish.Length
      invariant forall k :: 0 <= k < i ==> finish[k]
    {
      if !finish[i] {
        assert i in Unfinished(finish[..]);
        return false;
      }
    }
    return true;
  }

  method CountUnfinished(finish: array<bool>) returns (count: nat)
    ensures count == |Unfinished(finish[..])|
  {
    count := 0;
    ghost var counted: set<nat> := {};
    for i := 0 to finish.Length
      invariant counted == set k: nat | k < i && !finish[k]
      invariant count == |counted|
    {
      if !finish[i] {
        count := count + 1;
        counted := counted + {i};
      }
    }
    assert counted == Unfinished(finish[..]);
  }

  /** `memset` of one row. */
  method ClearRow(a: array2<int32>, i: nat)
    requires i < a.Length0
    modifies a
    ensures Rows(a) == old(Rows(a))[i := Zero(a.Length1)]
  {
    SetRow(a, i, seq(a.Length1, _ => 0));
    assert seq(a.Length1, _ => 0) == Zero(a.Length1);
  }

  method SetRow(a: array2<int32>, i: nat, v: seq<int32>)
    requires i < a.Length0 && |v| == a.Length1
    modifies a
    ensures Rows(a) == old(Rows(a))[i := v]
  {
    ghost var before := Rows(a);
    for j := 0 to a.Length1
      invariant forall k :: 0 <= k < j ==> a[i, k] == v[k]
      invariant forall h, k :: 0 <= h < a.Length0 && h != i && 0 <= k < a.Length1 ==> a[h, k] == before[h][k]
    {
      a[i, j] := v[j];
    }
    RowReplaced(a, before, i, v);
  }

  /** The check every call makes of its vector argument. */
  method WithinBounds(v: seq<int32>) returns (ok: bool)
    ensures ok <==> NonNeg(v)
  {
    for j := 0 to |v|
      invariant forall k :: 0 <= k < j ==> 0 <= v[k]
    {
      if v[j] < 0 {
        return false;
      }
    }
    return true;
  }

  method FitsIn(a: seq<int32>, b: seq<int32>) returns (fits: bool)
    requires |a| == |b|
    ensures fits <==> Leq(a, b)
  {
    for j := 0 to |a|
      invariant forall k :: 0 <= k < j ==> a[k] <= b[k]
    {
      if a[j] > b[j] {
        return false;
      }
    }
    return true;
  }

  /**
   * `rsm_init`: null stands for the -1 of a refused call. `segmentExists` says whether the
   * shared segment is there already, which makes the exclusive `shm_open` fail.
   */
  method RsmInit(pCount: int32, rCount: int32, exist: seq<int32>, avoid: int32, segmentExists: bool)
      returns (manager: Manager?)
    requires rCount <= |exist|
    ensures manager == null <==>
              !(0 < pCount <= MAX_PR && 0 < rCount <= MAX_RT && NonNeg(exist[..rCount]) &&
                (avoid == 0 || avoid == 1) && !segmentExists)
    ensures manager != null ==> fresh(manager) && fresh(manager.Cells()) && manager.Valid()
    ensures manager != null ==> manager.View() == Init(pCount, exist[..rCount], avoid == 1)
  {
    manager := null;
    if 0 < pCount <= MAX_PR && 0 < rCount <= MAX_RT {
      var ok := WithinBounds(exist[..rCount]);
      if ok && (avoid == 0 || avoid == 1) && !segmentExists {
        manager := new Manager(pCount, exist[..rCount], avoid == 1);
        InitHasInv(pCount, exist[..rCount], avoid == 1);
        assert manager.View() == Init(pCount, exist[..rCount], avoid == 1);
      }
    }
  }

  lemma HeldWithinExisting(s: State, i: nat, j: nat)
    requires Balanced(s) && i < |s.active| && s.active[i] && j < |s.existing|
    ensures 0 <= s.available[j] + s.allocation[i][j] <= s.existing[j]
  {
    TotalAdd(s.allocation, ActiveSet(s) - {i}, i, j, |s.allocation|);
    assert ActiveSet(s) - {i} + {i} == ActiveSet(s);
    TotalMonotone(s.allocation, ActiveSet(s) - {i}, ActiveSet(s), j, |s.allocation|);
  }

  lemma NeedAfterRelease(s: State, i: nat, r: Vec)
    requires Sound(s) && i < |s.active| && |r| == |s.existing| && Leq(r, s.allocation[i])
    ensures s.avoid ==> NonNeg(s.need[i]) && Leq(Plus(s.need[i], r), s.existing)
  {
    assert ProcessOk(s, i);
    if s.avoid {
      forall j | 0 <= j < |s.existing| ensures Plus(s.need[i], r)[j] <= s.existing[j] {
        assert Plus(s.allocation[i], s.need[i])[j] == s.maxDemand[i][j];
      }
    }
  }

  /** Serving one waiter: nobody refused before may be served after. */
  lemma WaiterIsServed(s: State, i: nat)
    requires Sound(s) && i < |s.active| && Grantable(s, i)
    ensures Sound(GrantWaiter(s, i)) && !Grantable(GrantWaiter(s, i), i)
    ensures s.avoid ==> Leq(s.request[i], s.need[i])
    ensures forall k :: 0 <= k < |s.active| && !Grantable(s, k) ==> !Grantable(GrantWaiter(s, i), k)
  {
    assert ProcessOk(s, i);
    GrantWaiterKeepsSound(s, i);
    var u, t := Grant(s, i, s.request[i]), GrantWaiter(s, i);
    assert ActiveSet(t) == ActiveSet(u);
    forall k | 0 <= k < |s.active| && !Grantable(s, k) ensures !Grantable(t, k) {
      RefusedStaysRefused(s, i, s.request[i], k);
      assert Pretend(t, k, t.request[k]) == Pretend(u, k, u.request[k]);
    }
  }

  lemma NeedsAreNonNeg(s: State)
    requires Sound(s)
    ensures NonNegRows(s.need)
  {
    forall i | 0 <= i < |s.need| ensures NonNeg(s.need[i]) {
      assert ProcessOk(s, i);
    }
  }

  lemma NotedIsBalanced(s: State, noted: State, p: nat, r: Vec)
    requires Balanced(s) && p < |s.active| && Amount(s, r)
    requires noted == s.(requestedOnce := s.requestedOnce[p := true], request := s.request[p := r])
    ensures Balanced(noted)
  {
    assert ActiveSet(noted) == ActiveSet(s);
  }

  /** During the safety test, `work` never leaves the range from nothing to what exists. */
  lemma PretendIsBounded(s: State, p: nat, r: Vec)
    requires Balanced(s) && p < |s.active| && s.active[p] && Amount(s, r) && Leq(r, s.available)
    ensures Bounded(Pretend(s, p, r), s.existing)
  {
    var y, z := Banker(s), Pretend(s, p, r);
    assert y.procs - {} == y.procs;
    forall D, j | 0 <= j < |s.existing| ensures 0 <= Left(z, D, j) <= s.existing[j] {
      LeftAfterMove(y, z, p, {}, j);
      LeftMonotone(z, {}, D, j);
      TotalMonotone(z.hold, z.procs - D, z.procs - D, j, |z.hold|);
    }
  }

  /** Nor does it during detection. */
  lemma PendingIsBounded(s: State)
    requires Balanced(s)
    ensures Bounded(Pending(s), s.existing)
  {
    forall D, j | 0 <= j < |s.existing| ensures 0 <= Left(Pending(s), D, j) <= s.existing[j] {
      TotalMonotone(s.allocation, Holders(s) - D, ActiveSet(s), j, |s.allocation|);
    }
  }

  lemma PendingCellsFit(s: State, i: nat)
    requires Balanced(s) && i < |s.active| && s.active[i] && Leq(s.request[i], s.available)
    ensures forall j :: 0 <= j < |s.existing| ==>
              0 <= s.request[i][j] <= s.available[j] && 0 <= s.allocation[i][j] + s.request[i][j] <= s.existing[j]
  {
    assert NonNeg(s.request[i]) && NonNeg(s.allocation[i]);
    forall j | 0 <= j < |s.existing| ensures s.allocation[i][j] + s.request[i][j] <= s.existing[j] {
      HeldWithinExisting(s, i, j);
    }
  }
}
