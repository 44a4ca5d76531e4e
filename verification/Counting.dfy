/** Counting by pigeonholes. */
module Counting {

  ghost predicate Distinct<T>(s: seq<T>) {
    forall i, j :: 0 <= i < j < |s| ==> s[i] != s[j]
  }

  /** Distinct numbers from a range are no more than the range has. */
  lemma {:induction false} DistinctFit(s: seq<int>, lo: int, hi: int)
    requires lo <= hi && forall i :: 0 <= i < |s| ==> lo <= s[i] < hi
    requires Distinct(s)
    ensures |s| <= hi - lo
    decreases hi - lo
  {
    if s == [] {
    } else {
      assert lo <= s[0] < hi;
      if hi - 1 in s {
        var i :| 0 <= i < |s| && s[i] == hi - 1;
        DistinctFit(s[..i] + s[i + 1..], lo, hi - 1);
      } else {
        DistinctFit(s, lo, hi - 1);
      }
    }
  }

  /** A set of numbers from a range is no larger than the range, and as large only if it is all of it. */
  lemma {:induction false} RangeFits(s: set<int>, lo: int, hi: int)
    requires lo <= hi && forall v :: v in s ==> lo <= v < hi
    ensures |s| <= hi - lo
    ensures |s| == hi - lo ==> forall v :: lo <= v < hi ==> v in s
    decreases hi - lo
  {
    if lo == hi {
      assert forall v :: v !in s;
      assert s == {};
    } else {
      var rest := s - {hi - 1};
      RangeFits(rest, lo, hi - 1);
      assert hi - 1 !in s ==> rest == s;
      if |s| == hi - lo {
        forall v | lo <= v < hi ensures v in s {
          assert v < hi - 1 ==> v in rest;
        }
      }
    }
  }

  function Range(lo: nat, hi: nat): (r: set<nat>)
    ensures forall v :: v in r <==> lo <= v < hi
  {
    if lo >= hi then {} else Range(lo, hi - 1) + {hi - 1}
  }

  lemma {:induction false} RangeSize(lo: nat, hi: nat)
    requires lo <= hi
    ensures |Range(lo, hi)| == hi - lo
    decreases hi - lo
  {
    if lo == hi {
    } else {
      RangeSize(lo, hi - 1);
    }
  }
}
