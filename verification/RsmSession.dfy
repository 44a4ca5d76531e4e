/** What a process does between starting and ending is undone by its ending. */
module RsmSession {
  import opened Vectors
  import opened Reduction
  import opened RsmState
  import opened RsmInvariant

  /** `t` is `s` with process `p` running beside the others: only its own rows differ. */
  ghost predicate Solo(s: State, t: State, p: nat) {
    && Formed(s) && Formed(t) && p < |s.active| && |t.active| == |s.active| && |t.existing| == |s.existing|
    && t == s.(available := t.available,
               allocation := s.allocation[p := t.allocation[p]],
               need := s.need[p := t.need[p]],
               maxDemand := s.maxDemand[p := t.maxDemand[p]],
               started := s.started[p := true],
               active := s.active[p := true],
               claimed := s.claimed[p := t.claimed[p]],
               requestedOnce := s.requestedOnce[p := t.requestedOnce[p]])
    && s.available == Plus(t.available, t.allocation[p])
  }

  ghost predicate OwnCalls(cs: seq<Call>, p: nat) {
    forall k :: 0 <= k < |cs| ==>
      (cs[k].CClaim? || cs[k].CRequest? || cs[k].CRelease?) && cs[k].apid == p
  }

  lemma JoinerKeepsUnsafe(y: Sys, z: Sys, p: nat)
    requires WellFormed(y) && WellFormed(z) && |z.avail| == |y.avail| && |z.demand| == |y.demand|
    requires p < |y.demand| && p !in y.procs && z.procs == y.procs + {p}
    requires forall k :: 0 <= k < |y.demand| && k != p ==> z.demand[k] == y.demand[k] && z.hold[k] == y.hold[k]
    requires forall j :: 0 <= j < |y.avail| ==> z.avail[j] + z.hold[p][j] == y.avail[j]
    ensures Safe(z) ==> Safe(y)
  {
    SafeIffNothingStuck(y);
    SafeIffNothingStuck(z);
    forall D | Stuck(y, D) ensures Stuck(z, D) {
      forall j | 0 <= j < |y.avail| ensures Left(z, D, j) == Left(y, D, j) {
        assert z.procs - D == (y.procs - D) + {p};
        TotalAdd(z.hold, y.procs - D, p, j, |z.hold|);
        TotalChange(y.hold, z.hold, y.procs - D, p, j, |y.hold|);
      }
      StuckTransfer(y, z, D);
    }
  }

  /** One process using the resources of a quiet state and giving some back wakes nobody. */
  lemma SoloIsQuiet(s: State, t: State, p: nat)
    requires Inv(s) && Solo(s, t, p) && !s.started[p]
    ensures Quiet(t)
  {
    assert ProcessOk(s, p);
    assert ActiveSet(t) == ActiveSet(s) + {p};
    forall k | 0 <= k < |t.active| ensures !Grantable(t, k) {
      var q := t.request[k];
      assert !Grantable(s, k);
      assert NonNeg(t.allocation[p]);
      if Grantable(t, k) {
        assert Leq(q, s.available) by {
          forall j | 0 <= j < |q| ensures q[j] <= s.available[j] {}
        }
        if s.avoid {
          JoinerKeepsUnsafe(Pretend(s, k, q), Pretend(t, k, q), p);
        }
      }
    }
  }

  lemma SoloStep(s: State, t: State, c: Call, p: nat)
    requires Inv(s) && Inv(t) && Solo(s, t, p) && !s.started[p]
    requires Enabled(t, c) && OwnCalls([c], p)
    ensures var u := Step(t, c).state; Solo(s, u, p) || u.waiting[p]
  {
    hide Safe, Quiet, Conserved;
    assert [c][0] == c;
    assert ProcessOk(s, p) && ProcessOk(t, p);
    var u := Step(t, c).state;
    match c {
      case CRequest(i, v) =>
        if AskIsValid(t, p, v) && !u.waiting[p] {
          assert t.request[p := v][p := Zero(|s.existing|)] == t.request;
          assert Plus(u.available, u.allocation[p]) == Plus(t.available, t.allocation[p]);
        }
      case CRelease(i, v) =>
        if Release(t, p, v).reply == Done {
          SoloGiveBack(s, t, p, v);
        }
      case CClaim(i, v) =>
    }
  }

  lemma SoloGiveBack(s: State, t: State, p: nat, v: Vec)
    requires Inv(s) && Formed(t) && Solo(s, t, p) && !s.started[p]
    requires |v| == |s.existing| && Leq(v, t.allocation[p])
    ensures Solo(s, Wake(GiveBack(t, p, v)), p)
  {
    var g := GiveBack(t, p, v);
    assert Plus(g.available, g.allocation[p]) == Plus(t.available, t.allocation[p]);
    SoloIsQuiet(s, g, p);
    QuietNeedsNoWake(g, 0);
  }

  lemma SoloEnd(s: State, t: State, p: nat)
    requires Inv(s) && Solo(s, t, p) && !s.started[p]
    ensures End(t, p) == Outcome(s, Done)
  {
    assert ProcessOk(s, p);
    var r := Retire(t, p);
    assert r.allocation == s.allocation && r.need == s.need && r.maxDemand == s.maxDemand && r.request == s.request;
    assert r == s;
    QuietNeedsNoWake(s, 0);
  }

  lemma {:induction false} SoloRun(s: State, t: State, p: nat, cs: seq<Call>)
    requires Inv(s) && Inv(t) && Solo(s, t, p) && !s.started[p]
    requires OwnCalls(cs, p) && LegalRun(t, cs + [CEnd(p)])
    ensures Run(t, cs + [CEnd(p)]) == s
    decreases |cs|
  {
    var all := cs + [CEnd(p)];
    if cs == [] {
      assert all[1..] == [];
      SoloEnd(s, t, p);
    } else {
      assert OwnCalls([cs[0]], p);
      assert all[1..] == cs[1..] + [CEnd(p)];
      SoloStep(s, t, cs[0], p);
      StepKeepsInv(t, cs[0]);
      var u := Step(t, cs[0]).state;
      assert !u.waiting[p] by {
        var next := all[1..][0];
        assert next.apid == p && (next == CEnd(p) || next.CClaim? || next.CRequest? || next.CRelease?);
        assert Enabled(u, next);
      }
      SoloRun(s, u, p, cs[1..]);
    }
  }

  /**
   * A process that starts, claims, requests and releases as it likes without anyone else
   * acting, and then ends, leaves the state exactly as it found it.
   */
  lemma SessionLeavesNoTrace(s: State, p: nat, cs: seq<Call>)
    requires Reachable(s) && p < |s.active| && !s.started[p] && OwnCalls(cs, p)
    requires LegalRun(s, [CStart(p)] + cs + [CEnd(p)])
    ensures Run(s, [CStart(p)] + cs + [CEnd(p)]) == s
  {
    hide Safe, Quiet, Conserved, Reachable;
    ReachableHasInv(s);
    assert ProcessOk(s, p);
    StartKeepsInv(s, p);
    var t := Start(s, p).state;
    assert t.request == s.request;
    assert Plus(t.available, t.allocation[p]) == s.available;
    assert ([CStart(p)] + cs + [CEnd(p)])[1..] == cs + [CEnd(p)];
    SoloRun(s, t, p, cs);
  }
}
