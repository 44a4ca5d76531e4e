/** A deadlock that can be reached: two processes, two resources, each holding what the other wants. */
module RsmExample {
  import opened Vectors
  import opened Reduction
  import opened RsmState
  import opened RsmInvariant
  import opened RsmFuture

  /** Two processes and one unit of each of two resources, without avoidance. */
  function TwoByTwo(available: Vec, held: Matrix, asked: Matrix, on: seq<bool>, once: seq<bool>, asleep: seq<bool>): State {
    State(false, [1, 1], available, held, asked, NONE, NONE, on, on, [false, false], once, asleep, [0, 0])
  }

  const NONE: Matrix := [[0, 0], [0, 0]]
  const LEFT: Vec := [1, 0]
  const RIGHT: Vec := [0, 1]
  const OFF := [false, false]
  const FIRST := [true, false]
  const BOTH := [true, true]

  const CROSSED := [CStart(0), CStart(1), CRequest(0, LEFT), CRequest(1, RIGHT), CRequest(0, RIGHT), CRequest(1, LEFT)]

  function Deadlock(): State {
    TwoByTwo([0, 0], [LEFT, RIGHT], [RIGHT, LEFT], BOTH, BOTH, BOTH)
  }

  function OneStarted(): State {
    TwoByTwo([1, 1], NONE, NONE, FIRST, OFF, OFF)
  }

  function Started(): State {
    TwoByTwo([1, 1], NONE, NONE, BOTH, OFF, OFF)
  }

  function OneHolds(): State {
    TwoByTwo([0, 1], [LEFT, [0, 0]], NONE, BOTH, FIRST, OFF)
  }

  function BothHold(): State {
    TwoByTwo([0, 0], [LEFT, RIGHT], NONE, BOTH, BOTH, OFF)
  }

  function OneWaits(): State {
    TwoByTwo([0, 0], [LEFT, RIGHT], [RIGHT, [0, 0]], BOTH, BOTH, FIRST)
  }

  lemma OneCall(s: State, c: Call, t: State, rest: seq<Call>)
    requires Formed(s) && Enabled(s, c) && Step(s, c).state == t && LegalRun(t, rest)
    ensures LegalRun(s, [c] + rest) && Run(s, [c] + rest) == Run(t, rest)
  {
    assert ([c] + rest)[1..] == rest;
  }

  lemma Starts()
    ensures var s0 := Init(2, [1, 1], false);
            && Enabled(s0, CStart(0)) && Step(s0, CStart(0)).state == OneStarted()
            && Formed(OneStarted()) && Enabled(OneStarted(), CStart(1))
            && Step(OneStarted(), CStart(1)).state == Started()
  {
    assert Zero(2) == [0, 0];
    assert Zeros(2, 2) == [Zero(2), Zero(2)] && Nos(2) == OFF;
  }

  lemma Takes()
    ensures Formed(Started()) && Enabled(Started(), CRequest(0, LEFT))
    ensures Step(Started(), CRequest(0, LEFT)).state == OneHolds()
    ensures Formed(OneHolds()) && Enabled(OneHolds(), CRequest(1, RIGHT))
    ensures Step(OneHolds(), CRequest(1, RIGHT)).state == BothHold()
  {
    assert Zero(2) == [0, 0];
    assert Minus([1, 1], LEFT) == [0, 1] && Plus([0, 0], LEFT) == LEFT;
    assert Minus([0, 1], RIGHT) == [0, 0] && Plus([0, 0], RIGHT) == RIGHT;
  }

  lemma Waits()
    ensures Formed(BothHold()) && Enabled(BothHold(), CRequest(0, RIGHT))
    ensures Step(BothHold(), CRequest(0, RIGHT)).state == OneWaits()
    ensures Formed(OneWaits()) && Enabled(OneWaits(), CRequest(1, LEFT))
    ensures Step(OneWaits(), CRequest(1, LEFT)).state == Deadlock() && Formed(Deadlock())
  {
    assert RIGHT[1] > [0, 0][1] && LEFT[0] > [0, 0][0];
    assert !Leq(RIGHT, [0, 0]) && !Leq(LEFT, [0, 0]);
    assert NONE[0 := RIGHT] == [RIGHT, [0, 0]] && [RIGHT, [0, 0]][1 := LEFT] == [RIGHT, LEFT];
    assert OFF[0 := true] == FIRST && FIRST[1 := true] == BOTH && BOTH[0 := true] == BOTH && BOTH[1 := true] == BOTH;
  }

  lemma CrossedRequestsRun()
    ensures LegalRun(Init(2, [1, 1], false), CROSSED) && Run(Init(2, [1, 1], false), CROSSED) == Deadlock()
  {
    hide Step, Init, Enabled, Formed, Run, LegalRun;
    Starts();
    Takes();
    Waits();
    NoCalls(Deadlock());
    var r5 := [CRequest(1, LEFT)] + [];
    var r4 := [CRequest(0, RIGHT)] + r5;
    var r3 := [CRequest(1, RIGHT)] + r4;
    var r2 := [CRequest(0, LEFT)] + r3;
    var r1 := [CStart(1)] + r2;
    OneCall(OneWaits(), CRequest(1, LEFT), Deadlock(), []);
    OneCall(BothHold(), CRequest(0, RIGHT), OneWaits(), r5);
    OneCall(OneHolds(), CRequest(1, RIGHT), BothHold(), r4);
    OneCall(Started(), CRequest(0, LEFT), OneHolds(), r3);
    OneCall(OneStarted(), CStart(1), Started(), r2);
    OneCall(Init(2, [1, 1], false), CStart(0), OneStarted(), r1);
    assert CROSSED == [CStart(0)] + r1;
  }

  lemma NobodyIsLeftToHelp()
    ensures Formed(Deadlock()) && MutuallyBlocked(Deadlock(), {0, 1}) && Holders(Deadlock()) == {0, 1}
  {
    var s := Deadlock();
    assert ActiveSet(s) - {0, 1} == {};
    assert s.allocation[0][0] > 0 && s.allocation[1][1] > 0;
    TotalOfNone(s.allocation, 0, 2);
    TotalOfNone(s.allocation, 1, 2);
    assert s.request[0][1] > s.available[1] && s.request[1][0] > s.available[0];
  }

  /** Deadlock does happen without avoidance, to both processes, and six calls are enough. */
  lemma DeadlockHappens()
    ensures Reachable(Deadlock()) && Deadlocked(Deadlock()) == {0, 1}
  {
    hide Run, LegalRun, MutuallyBlocked, Holders;
    var s := Deadlock();
    CrossedRequestsRun();
    assert ReachedBy(s, 2, [1, 1], false, CROSSED);
    ReachableHasInv(s);
    DeadlockedIsLargestBlockedSet(s);
    NobodyIsLeftToHelp();
    DeadlockedAreHolders(s);
  }

  lemma DeadlockedAreHolders(s: State)
    requires Sound(s)
    ensures Deadlocked(s) <= Holders(s)
  {
  }
}
