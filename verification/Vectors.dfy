/** Vectors of resource counts, matrices with one row per process, and column sums. */
module Vectors {

  type Vec = seq<int>
  type Matrix = seq<Vec>

  predicate Leq(a: Vec, b: Vec) {
    |a| == |b| && forall j :: 0 <= j < |a| ==> a[j] <= b[j]
  }

  predicate NonNeg(a: Vec) {
    forall j :: 0 <= j < |a| ==> 0 <= a[j]
  }

  predicate Shaped(a: Matrix, n: nat, m: nat) {
    |a| == n && forall i :: 0 <= i < n ==> |a[i]| == m
  }

  predicate NonNegRows(a: Matrix) {
    forall i :: 0 <= i < |a| ==> NonNeg(a[i])
  }

  function Zero(m: nat): Vec {
    seq(m, _ => 0)
  }

  function Zeros(n: nat, m: nat): Matrix {
    seq(n, _ => Zero(m))
  }

  function Nos(n: nat): seq<bool> {
    seq(n, _ => false)
  }

  function Plus(a: Vec, b: Vec): Vec
    requires |a| == |b|
  {
    seq(|a|, j requires 0 <= j < |a| => a[j] + b[j])
  }

  function Minus(a: Vec, b: Vec): Vec
    requires |a| == |b|
  {
    seq(|a|, j requires 0 <= j < |a| => a[j] - b[j])
  }

  /** What the processes of `S` among the first `n` hold together of resource type `j`. */
  ghost function Total(hold: Matrix, S: set<nat>, j: nat, n: nat): int
    requires n <= |hold| && forall i :: 0 <= i < |hold| ==> j < |hold[i]|
  {
    if n == 0 then 0
    else Total(hold, S, j, n - 1) + if n - 1 in S then hold[n - 1][j] else 0
  }

  lemma {:induction false} TotalAdd(hold: Matrix, S: set<nat>, i: nat, j: nat, n: nat)
    requires n <= |hold| && forall k :: 0 <= k < |hold| ==> j < |hold[k]|
    requires i !in S && i < |hold|
    ensures Total(hold, S + {i}, j, n) == Total(hold, S, j, n) + if i < n then hold[i][j] else 0
  {
    if n == 0 {
    } else {
      TotalAdd(hold, S, i, j, n - 1);
    }
  }

  /** Two matrices that agree on `S` except perhaps in row `i` differ in total by that row's difference. */
  lemma {:induction false} TotalChange(hold: Matrix, hold': Matrix, S: set<nat>, i: nat, j: nat, n: nat)
    requires n <= |hold| == |hold'| && i < |hold|
    requires forall k :: 0 <= k < |hold| ==> j < |hold[k]| && j < |hold'[k]|
    requires forall k :: 0 <= k < |hold| && k in S && k != i ==> hold[k][j] == hold'[k][j]
    ensures Total(hold', S, j, n) ==
            Total(hold, S, j, n) + if i in S && i < n then hold'[i][j] - hold[i][j] else 0
  {
    if n == 0 {
    } else {
      TotalChange(hold, hold', S, i, j, n - 1);
    }
  }

  lemma {:induction false} TotalMonotone(hold: Matrix, S: set<nat>, T: set<nat>, j: nat, n: nat)
    requires n <= |hold| && forall k :: 0 <= k < |hold| ==> j < |hold[k]|
    requires NonNegRows(hold)
    requires forall k :: k in S && k < |hold| && hold[k][j] != 0 ==> k in T
    ensures 0 <= Total(hold, S, j, n) <= Total(hold, T, j, n)
  {
    if n == 0 {
    } else {
      TotalMonotone(hold, S, T, j, n - 1);
    }
  }
}
