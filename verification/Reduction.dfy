/**
 * The theory behind both reduction loops of the resource manager.
 *
 * A system has a pool of free resources, and processes that each demand a vector and
 * hold a vector. A process whose demand fits the pool may finish and give back what it
 * holds. A set of processes is stuck when none of its members could finish even after
 * every process outside the set has.
 */
module Reduction {
  import opened Vectors

  datatype Sys = Sys(avail: Vec, demand: Matrix, hold: Matrix, procs: set<nat>)

  ghost predicate WellFormed(y: Sys) {
    && Shaped(y.demand, |y.demand|, |y.avail|)
    && Shaped(y.hold, |y.demand|, |y.avail|)
    && NonNegRows(y.hold)
    && forall i :: i in y.procs ==> i < |y.demand|
  }

  /** Resources of type `j` in the pool once every process outside `D` has finished. */
  ghost function Left(y: Sys, D: set<nat>, j: nat): int
    requires WellFormed(y) && j < |y.avail|
  {
    y.avail[j] + Total(y.hold, y.procs - D, j, |y.hold|)
  }

  ghost predicate CanRun(y: Sys, i: nat, D: set<nat>)
    requires WellFormed(y) && i < |y.demand|
  {
    forall j :: 0 <= j < |y.avail| ==> y.demand[i][j] <= Left(y, D, j)
  }

  ghost predicate Stuck(y: Sys, D: set<nat>)
    requires WellFormed(y)
  {
    D <= y.procs && forall i :: i in D ==> !CanRun(y, i, D)
  }

  /** The textbook reading: started with `work` free, the processes can finish in this order. */
  ghost predicate Completes(y: Sys, work: Vec, order: seq<nat>)
    requires WellFormed(y)
    requires forall k :: 0 <= k < |order| ==> order[k] in y.procs
    requires |work| == |y.avail|
    decreases |order|
  {
    order == [] ||
    (Leq(y.demand[order[0]], work) && Completes(y, Plus(work, y.hold[order[0]]), order[1..]))
  }

  /** `order` lists exactly the processes of `S`, each once. */
  ghost predicate Enumerates(order: seq<nat>, S: set<nat>) {
    && (forall k :: 0 <= k < |order| ==> order[k] in S)
    && (forall i :: i in S ==> i in order)
    && (forall k, l :: 0 <= k < l < |order| ==> order[k] != order[l])
  }

  ghost predicate SafeOrder(y: Sys, order: seq<nat>)
    requires WellFormed(y)
  {
    Enumerates(order, y.procs) && Completes(y, y.avail, order)
  }

  ghost predicate Safe(y: Sys)
    requires WellFormed(y)
  {
    exists order :: SafeOrder(y, order)
  }

  /** The processes that are in some stuck set. */
  ghost function Residue(y: Sys): set<nat>
    requires WellFormed(y)
  {
    set i | i in y.procs && exists D :: Stuck(y, D) && i in D
  }

  lemma LeftMonotone(y: Sys, D: set<nat>, E: set<nat>, j: nat)
    requires WellFormed(y) && j < |y.avail| && D <= E
    ensures Left(y, E, j) <= Left(y, D, j)
  {
    TotalMonotone(y.hold, y.procs - E, y.procs - D, j, |y.hold|);
  }

  lemma CanRunMonotone(y: Sys, i: nat, D: set<nat>, E: set<nat>)
    requires WellFormed(y) && i < |y.demand| && D <= E && CanRun(y, i, E)
    ensures CanRun(y, i, D)
  {
    forall j | 0 <= j < |y.avail| ensures y.demand[i][j] <= Left(y, D, j) {
      LeftMonotone(y, D, E, j);
    }
  }

  lemma LeftDrop(y: Sys, U: set<nat>, i: nat, j: nat)
    requires WellFormed(y) && j < |y.avail| && U <= y.procs && i in U
    ensures Left(y, U - {i}, j) == Left(y, U, j) + y.hold[i][j]
  {
    assert y.procs - (U - {i}) == (y.procs - U) + {i};
    TotalAdd(y.hold, y.procs - U, i, j, |y.hold|);
  }

  lemma {:induction false} TotalOfNone(hold: Matrix, j: nat, n: nat)
    requires n <= |hold| && forall i :: 0 <= i < |hold| ==> j < |hold[i]|
    ensures Total(hold, {}, j, n) == 0
  {
    if n == 0 {
    } else {
      TotalOfNone(hold, j, n - 1);
    }
  }

  lemma LeftOfAll(y: Sys, j: nat)
    requires WellFormed(y) && j < |y.avail|
    ensures Left(y, y.procs, j) == y.avail[j]
  {
    assert y.procs - y.procs == {};
    TotalOfNone(y.hold, j, |y.hold|);
  }

  /** The stuck sets have a largest one, which is what any complete reduction leaves. */
  lemma ResidueIsLargestStuck(y: Sys)
    requires WellFormed(y)
    ensures Stuck(y, Residue(y))
    ensures forall D :: Stuck(y, D) ==> D <= Residue(y)
  {
    forall i | i in Residue(y) ensures !CanRun(y, i, Residue(y)) {
      var D :| Stuck(y, D) && i in D;
      assert D <= Residue(y);
      if CanRun(y, i, Residue(y)) {
        CanRunMonotone(y, i, D, Residue(y));
      }
    }
  }

  /** Finishing a process whose demand fits never loses a member of a stuck set. */
  lemma StuckSurvivesFinish(y: Sys, U: set<nat>, i: nat, D: set<nat>)
    requires WellFormed(y) && i in U && U <= y.procs && CanRun(y, i, U)
    requires Stuck(y, D) && D <= U
    ensures D <= U - {i}
  {
    if i in D {
      CanRunMonotone(y, i, D, U);
    }
  }

  /** Whatever order the processes were finished in, only the largest stuck set remains. */
  lemma ReductionEndsAtResidue(y: Sys, U: set<nat>)
    requires WellFormed(y) && U <= y.procs
    requires forall i :: i in U ==> !CanRun(y, i, U)
    requires forall D :: Stuck(y, D) ==> D <= U
    ensures U == Residue(y)
  {
    ResidueIsLargestStuck(y);
    assert Stuck(y, U);
  }

  /** A safe order refutes every nonempty stuck set. */
  lemma {:induction false} CompletesLeavesNoStuck(y: Sys, work: Vec, order: seq<nat>, U: set<nat>, D: set<nat>)
    requires WellFormed(y) && |work| == |y.avail| && U <= y.procs
    requires Enumerates(order, U)
    requires forall j :: 0 <= j < |work| ==> work[j] == Left(y, U, j)
    requires Completes(y, work, order)
    requires Stuck(y, D) && D <= U
    ensures D == {}
    decreases |order|
  {
    if order == [] {
      assert forall i :: i in U ==> i in order;
    } else {
      var i := order[0];
      StuckSurvivesFinish(y, U, i, D);
      forall j | 0 <= j < |work| ensures Plus(work, y.hold[i])[j] == Left(y, U - {i}, j) {
        LeftDrop(y, U, i, j);
      }
      assert order == [i] + order[1..];
      CompletesLeavesNoStuck(y, Plus(work, y.hold[i]), order[1..], U - {i}, D);
    }
  }

  /** With no stuck set, a safe order of any remainder can be built greedily. */
  lemma {:induction false} BuildOrder(y: Sys, work: Vec, U: set<nat>) returns (order: seq<nat>)
    requires WellFormed(y) && |work| == |y.avail| && U <= y.procs
    requires forall j :: 0 <= j < |work| ==> work[j] == Left(y, U, j)
    requires forall D :: Stuck(y, D) ==> D == {}
    ensures Enumerates(order, U) && Completes(y, work, order)
    decreases U
  {
    if U == {} {
      order := [];
    } else {
      assert !Stuck(y, U);
      var i :| i in U && CanRun(y, i, U);
      forall j | 0 <= j < |work| ensures Plus(work, y.hold[i])[j] == Left(y, U - {i}, j) {
        LeftDrop(y, U, i, j);
      }
      var rest := BuildOrder(y, Plus(work, y.hold[i]), U - {i});
      order := [i] + rest;
      assert order[1..] == rest;
    }
  }

  /** Safety, stated three ways: a safe order, no stuck set, an empty residue. */
  lemma SafeIffNothingStuck(y: Sys)
    requires WellFormed(y)
    ensures Safe(y) <==> forall D :: Stuck(y, D) ==> D == {}
    ensures Safe(y) <==> Residue(y) == {}
  {
    ResidueIsLargestStuck(y);
    forall j | 0 <= j < |y.avail| ensures y.avail[j] == Left(y, y.procs, j) {
      LeftOfAll(y, j);
    }
    if Safe(y) {
      var order :| SafeOrder(y, order);
      forall D | Stuck(y, D) ensures D == {} {
        CompletesLeavesNoStuck(y, y.avail, order, y.procs, D);
      }
    }
    if forall D :: Stuck(y, D) ==> D == {} {
      var order := BuildOrder(y, y.avail, y.procs);
      assert SafeOrder(y, order);
    }
  }

  /**
   * If every member of `D` is at least as short of its demand in `z` as it is in `y`,
   * then `D` is stuck in `z` when it is stuck in `y`.
   */
  lemma StuckTransfer(y: Sys, z: Sys, D: set<nat>)
    requires WellFormed(y) && WellFormed(z) && |y.avail| == |z.avail| && |y.demand| == |z.demand|
    requires Stuck(y, D) && D <= z.procs
    requires forall i, j :: i in D && 0 <= j < |y.avail| ==>
                              y.demand[i][j] - Left(y, D, j) <= z.demand[i][j] - Left(z, D, j)
    ensures Stuck(z, D)
  {
    forall i | i in D ensures !CanRun(z, i, D) {
      var j :| 0 <= j < |y.avail| && y.demand[i][j] > Left(y, D, j);
      assert z.demand[i][j] > Left(z, D, j);
    }
  }

  /** `z` is `y` after some resources moved between the pool and process `i`. */
  ghost predicate Moved(y: Sys, z: Sys, i: nat)
    requires WellFormed(y) && WellFormed(z)
  {
    && |z.avail| == |y.avail| && |z.demand| == |y.demand| && z.procs == y.procs && i in y.procs
    && (forall k :: 0 <= k < |y.hold| && k != i ==> z.hold[k] == y.hold[k] && z.demand[k] == y.demand[k])
    && forall j :: 0 <= j < |y.avail| ==> z.avail[j] + z.hold[i][j] == y.avail[j] + y.hold[i][j]
  }

  lemma LeftAfterMove(y: Sys, z: Sys, i: nat, D: set<nat>, j: nat)
    requires WellFormed(y) && WellFormed(z) && Moved(y, z, i) && j < |y.avail|
    ensures Left(z, D, j) == Left(y, D, j) + if i in D then z.avail[j] - y.avail[j] else 0
  {
    TotalChange(y.hold, z.hold, y.procs - D, i, j, |y.hold|);
  }

  /**
   * Taking resources out of the pool for `i`, and no more off its demand than that, keeps
   * every stuck set stuck. Read backwards: giving resources back never unsticks less.
   */
  lemma MoveOutKeepsStuck(y: Sys, z: Sys, i: nat, D: set<nat>)
    requires WellFormed(y) && WellFormed(z) && Moved(y, z, i) && Stuck(y, D)
    requires forall j :: 0 <= j < |y.avail| ==> z.avail[j] <= y.avail[j]
    requires forall j :: 0 <= j < |y.avail| ==> z.demand[i][j] - y.demand[i][j] >= z.avail[j] - y.avail[j]
    ensures Stuck(z, D)
  {
    forall k, j | k in D && 0 <= j < |y.avail|
      ensures y.demand[k][j] - Left(y, D, j) <= z.demand[k][j] - Left(z, D, j)
    {
      LeftAfterMove(y, z, i, D, j);
    }
    StuckTransfer(y, z, D);
  }

  lemma MoveOutKeepsUnsafe(y: Sys, z: Sys, i: nat)
    requires WellFormed(y) && WellFormed(z) && Moved(y, z, i)
    requires forall j :: 0 <= j < |y.avail| ==> z.avail[j] <= y.avail[j]
    requires forall j :: 0 <= j < |y.avail| ==> z.demand[i][j] - y.demand[i][j] >= z.avail[j] - y.avail[j]
    ensures Safe(z) ==> Safe(y)
  {
    SafeIffNothingStuck(y);
    SafeIffNothingStuck(z);
    forall D | Stuck(y, D) ensures Stuck(z, D) {
      MoveOutKeepsStuck(y, z, i, D);
    }
  }

  /** A process that holds nothing makes no difference to what the others may get. */
  lemma LeftIgnoresEmptyHanded(y: Sys, p: nat, D: set<nat>, j: nat)
    requires WellFormed(y) && j < |y.avail| && p in y.procs && y.hold[p][j] == 0
    ensures Left(y.(procs := y.procs - {p}), D, j) == Left(y, D, j)
    ensures Left(y, D - {p}, j) == Left(y, D, j)
  {
    var procs := y.procs;
    if p in D {
      assert procs - {p} - D == procs - D;
      assert procs - (D - {p}) == (procs - D) + {p};
      TotalAdd(y.hold, procs - D, p, j, |y.hold|);
    } else {
      assert (procs - {p} - D) + {p} == procs - D;
      TotalAdd(y.hold, procs - {p} - D, p, j, |y.hold|);
      assert D - {p} == D;
    }
  }

  /** In a safe system that is not finished, some process needs no more than the pool has. */
  lemma SafeHasRunner(y: Sys) returns (i: nat)
    requires WellFormed(y) && Safe(y) && y.procs != {}
    ensures i in y.procs && Leq(y.demand[i], y.avail)
  {
    SafeIffNothingStuck(y);
    assert !Stuck(y, y.procs);
    i :| i in y.procs && CanRun(y, i, y.procs);
    forall j | 0 <= j < |y.avail| ensures y.demand[i][j] <= y.avail[j] {
      LeftOfAll(y, j);
    }
  }

  /** A process that could finish at once can safely be granted any part of its demand. */
  lemma RunnerMayBeGranted(y: Sys, z: Sys, i: nat)
    requires WellFormed(y) && WellFormed(z) && Moved(y, z, i)
    requires Safe(y) && Leq(y.demand[i], y.avail)
    requires forall j :: 0 <= j < |y.avail| ==> z.demand[i][j] - y.demand[i][j] == z.avail[j] - y.avail[j]
    ensures Safe(z)
  {
    SafeIffNothingStuck(y);
    SafeIffNothingStuck(z);
    forall D | Stuck(z, D) ensures D == {} {
      forall j | 0 <= j < |y.avail| ensures i in D ==> z.demand[i][j] <= Left(z, D, j) {
        LeftOfAll(z, j);
        LeftMonotone(z, D, z.procs, j);
      }
      assert i !in D by {
        if i in D {
          assert CanRun(z, i, D);
        }
      }
      forall k, j | k in D && 0 <= j < |y.avail|
        ensures z.demand[k][j] - Left(z, D, j) <= y.demand[k][j] - Left(y, D, j)
      {
        LeftAfterMove(y, z, i, D, j);
      }
      StuckTransfer(z, y, D);
    }
  }

  // ---- The state of a reduction loop ----

  ghost function Unfinished(finish: seq<bool>): set<nat> {
    set i | 0 <= i < |finish| && !finish[i]
  }

  /** `work` is the pool plus what finished processes gave back, and no stuck process has finished. */
  ghost predicate Reduced(y: Sys, work: Vec, finish: seq<bool>)
    requires WellFormed(y)
  {
    && |work| == |y.avail| && |finish| == |y.demand| && Unfinished(finish) <= y.procs
    && (forall j :: 0 <= j < |work| ==> work[j] == Left(y, Unfinished(finish), j))
    && forall D :: Stuck(y, D) ==> D <= Unfinished(finish)
  }

  /** Whoever finishes, the pool never exceeds `cap`. */
  ghost predicate Bounded(y: Sys, cap: Vec)
    requires WellFormed(y) && |cap| == |y.avail|
  {
    forall D, j :: 0 <= j < |cap| ==> 0 <= Left(y, D, j) <= cap[j]
  }

  lemma ReducedAtStart(y: Sys, finish: seq<bool>)
    requires WellFormed(y) && |finish| == |y.demand| && Unfinished(finish) == y.procs
    ensures Reduced(y, y.avail, finish)
  {
    forall j | 0 <= j < |y.avail| ensures y.avail[j] == Left(y, y.procs, j) {
      LeftOfAll(y, j);
    }
  }

  lemma ReducedAfterFinish(y: Sys, work: Vec, finish: seq<bool>, i: nat)
    requires WellFormed(y) && Reduced(y, work, finish)
    requires i < |finish| && !finish[i] && Leq(y.demand[i], work)
    ensures Reduced(y, Plus(work, y.hold[i]), finish[i := true])
    ensures Unfinished(finish[i := true]) < Unfinished(finish)
  {
    var U := Unfinished(finish);
    assert i in U && Unfinished(finish[i := true]) == U - {i};
    forall j | 0 <= j < |work| ensures Plus(work, y.hold[i])[j] == Left(y, U - {i}, j) {
      LeftDrop(y, U, i, j);
    }
    forall D | Stuck(y, D) ensures D <= U - {i} {
      StuckSurvivesFinish(y, U, i, D);
    }
  }

  lemma ReducedAtEnd(y: Sys, work: Vec, finish: seq<bool>)
    requires WellFormed(y) && Reduced(y, work, finish)
    requires forall i :: 0 <= i < |finish| && !finish[i] ==> !Leq(y.demand[i], work)
    ensures Unfinished(finish) == Residue(y)
  {
    ReductionEndsAtResidue(y, Unfinished(finish));
  }
}
