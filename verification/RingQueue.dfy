/** The ready queue: a ring buffer of thread ids. */
module RingQueue {

  const CAPACITY := 64

  const SUCCESS := 0
  const ERROR := -1

  /** `s` without the first occurrence of `x`. */
  function WithoutFirst(s: seq<int>, x: int): seq<int> {
    if s == [] then []
    else if s[0] == x then s[1..]
    else [s[0]] + WithoutFirst(s[1..], x)
  }

  lemma {:induction false} WithoutFirstSnoc(s: seq<int>, x: int, y: int)
    ensures WithoutFirst(s + [y], x) ==
            if x in s then WithoutFirst(s, x) + [y] else if x == y then s else s + [y]
    ensures x !in s ==> WithoutFirst(s, x) == s
  {
    if s == [] {
      assert [y][1..] == [];
    } else {
      assert (s + [y])[1..] == s[1..] + [y];
      WithoutFirstSnoc(s[1..], x, y);
      assert s == [s[0]] + s[1..];
    }
  }

  /** The cell `k` places after `head`. */
  function Cell(head: nat, k: nat): (c: nat)
    ensures c < CAPACITY
  {
    (head + k) % CAPACITY
  }

  class Queue {
    const data: array<int>
    var head: nat
    var tail: nat
    var size: nat

    ghost predicate Valid()
      reads this
    {
      && data.Length == CAPACITY && head < CAPACITY && size <= CAPACITY
      && tail == Cell(head, size)
    }

    /** The queued ids, the next to run first. */
    ghost function Contents(): (s: seq<int>)
      requires Valid()
      reads this, data
      ensures |s| == size && forall k :: 0 <= k < size ==> s[k] == data[Cell(head, k)]
    {
      seq(size, k requires 0 <= k < size && Valid() reads this, data => data[Cell(head, k)])
    }

    constructor ()
      ensures Valid() && fresh(data) && Contents() == []
    {
      data := new int[CAPACITY];
      head, tail, size := 0, 0, 0;
    }

    method Init()
      requires data.Length == CAPACITY
      modifies this
      ensures Valid() && Contents() == []
    {
      head, tail, size := 0, 0, 0;
    }

    method Empty() returns (empty: bool)
      requires Valid()
      ensures empty <==> Contents() == []
    {
      empty := size == 0;
    }

    method Push(tid: int) returns (r: int)
      requires Valid()
      modifies this, data
      ensures Valid()
      ensures |old(Contents())| < CAPACITY ==> r == SUCCESS && Contents() == old(Contents()) + [tid]
      ensures |old(Contents())| == CAPACITY ==> r == ERROR && Contents() == old(Contents())
    {
      hide Cell;
      if size >= CAPACITY {
        return ERROR;
      }
      ghost var s := Contents();
      CellsAround(head, size);
      data[tail] := tid;
      tail := (tail + 1) % CAPACITY;
      size := size + 1;
      assert Contents() == s + [tid];
      return SUCCESS;
    }

    method Pop() returns (r: int)
      requires Valid()
      modifies this
      ensures Valid()
      ensures old(Contents()) != [] ==> r == old(Contents())[0] && Contents() == old(Contents())[1..]
      ensures old(Contents()) == [] ==> r == ERROR && Contents() == []
    {
      hide Cell;
      if size == 0 {
        return ERROR;
      }
      ghost var s := Contents();
      CellsAround(head, size);
      CellsShift(head, size);
      r := data[head];
      head := (head + 1) % CAPACITY;
      size := size - 1;
      assert forall k :: 0 <= k < size ==> Contents()[k] == data[Cell(old(head), k + 1)];
      assert Contents() == s[1..];
    }

    method PushFront(tid: int) returns (r: int)
      requires Valid()
      modifies this, data
      ensures Valid()
      ensures |old(Contents())| < CAPACITY ==> r == SUCCESS && Contents() == [tid] + old(Contents())
      ensures |old(Contents())| == CAPACITY ==> r == ERROR && Contents() == old(Contents())
    {
      hide Cell;
      if size >= CAPACITY {
        return ERROR;
      }
      ghost var s := Contents();
      StepBack(head);
      head := (head - 1 + CAPACITY) % CAPACITY;
      CellsAround(head, size + 1);
      CellsShift(head, size + 1);
      data[head] := tid;
      size := size + 1;
      assert Contents() == [tid] + s;
      return SUCCESS;
    }

    /** Pops everything and pushes back all but the first occurrence of `tid`. */
    method Remove(tid: int) returns (r: int)
      requires Valid()
      modifies this, data
      ensures Valid()
      ensures Contents() == WithoutFirst(old(Contents()), tid)
      ensures r == if tid in old(Contents()) then SUCCESS else ERROR
    {
      WithoutFirstSize(Contents(), tid);
      var temp, found := DrainExcept(tid);
      for i := 0 to |temp|
        invariant Valid() && Contents() == temp[..i]
      {
        var pushed := Push(temp[i]);
        assert temp[..i + 1] == temp[..i] + [temp[i]];
      }
      return if found then SUCCESS else ERROR;
    }

    method DrainExcept(tid: int) returns (temp: seq<int>, found: bool)
      requires Valid()
      modifies this
      ensures Valid() && Contents() == []
      ensures temp == WithoutFirst(old(Contents()), tid) && (found <==> tid in old(Contents()))
    {
      hide Cell, WithoutFirst;
      ghost var s := Contents();
      var n := size;
      temp, found := [], false;
      NothingToRemove(tid);
      for i := 0 to n
        invariant Valid() && Contents() == s[i..]
        invariant temp == WithoutFirst(s[..i], tid) && (found <==> tid in s[..i])
      {
        hide Cell, WithoutFirst;
        var x := Pop();
        WithoutFirstSnoc(s[..i], tid, x);
        assert s[..i + 1] == s[..i] + [x];
        if x == tid && !found {
          found := true;
        } else {
          temp := temp + [x];
        }
      }
      assert s[..n] == s;
    }

    /** Pops everything, keeps the one at `idx`, and pushes back the others in order. */
    method Take(idx: nat) returns (picked: int)
      requires Valid() && idx < |Contents()|
      modifies this, data
      ensures Valid() && picked == old(Contents())[idx]
      ensures Contents() == old(Contents())[..idx] + old(Contents())[idx + 1..]
    {
      hide Cell;
      ghost var s := Contents();
      var n := size;
      var temp: seq<int> := [];
      for i := 0 to n
        invariant Valid() && Contents() == s[i..] && temp == s[..i]
      {
        hide Cell;
        var x := Pop();
        assert s[..i + 1] == s[..i] + [x];
        temp := temp + [x];
      }
      assert temp == s;
      picked := ERROR;
      for i := 0 to n
        invariant Valid() && Contents() == if i <= idx then s[..i] else s[..idx] + s[idx + 1..i]
        invariant i > idx ==> picked == s[idx]
      {
        hide Cell;
        if i == idx {
          picked := temp[i];
        } else {
          var pushed := Push(temp[i]);
        }
      }
      assert s[idx + 1..n] == s[idx + 1..];
    }
  }

  /** Fewer than a whole turn apart, two places in the ring are different cells. */
  lemma CellsDiffer(head: nat, a: nat, b: nat)
    requires head < CAPACITY && a < b < CAPACITY
    ensures Cell(head, a) != Cell(head, b)
  {
  }

  lemma CellsAround(head: nat, size: nat)
    requires head < CAPACITY && size <= CAPACITY
    ensures Cell(head, 0) == head && Cell(head, size + 1) == (Cell(head, size) + 1) % CAPACITY
    ensures size < CAPACITY ==> forall k :: 0 <= k < size ==> Cell(head, k) != Cell(head, size)
    ensures forall k :: 0 < k < size ==> Cell(head, k) != head
  {
    if size < CAPACITY {
      forall k | 0 <= k < size ensures Cell(head, k) != Cell(head, size) {
        CellsDiffer(head, k, size);
      }
    }
    forall k | 0 < k < size ensures Cell(head, k) != head {
      CellsDiffer(head, 0, k);
    }
  }

  lemma StepBack(head: nat)
    requires head < CAPACITY
    ensures 0 <= (head - 1 + CAPACITY) % CAPACITY < CAPACITY
    ensures ((head - 1 + CAPACITY) % CAPACITY + 1) % CAPACITY == head
  {
  }

  lemma CellsShift(head: nat, size: nat)
    requires head < CAPACITY
    ensures forall k :: 0 < k <= size ==> Cell((head + 1) % CAPACITY, k - 1) == Cell(head, k)
  {
  }

  lemma NothingToRemove(x: int)
    ensures WithoutFirst([], x) == []
  {
  }

  lemma {:induction false} WithoutFirstSize(s: seq<int>, x: int)
    ensures |WithoutFirst(s, x)| == |s| - if x in s then 1 else 0
  {
    if s == [] || s[0] == x {
    } else {
      WithoutFirstSize(s[1..], x);
    }
  }
}
