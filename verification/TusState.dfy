/** The thread library's state as a value, and what each call of the running thread does to it. */
module TusState {
  import opened RingQueue

  const MAX_THREADS := 64
  const ANY := 0

  datatype RunState = Ready | Running | Ended

  /** Where `setcontext` would continue: at the thread's start, or inside `tus_yield` after `getcontext`. */
  datatype Saved = Fresh | InYield

  datatype Thread = Thread(tid: int, state: RunState, saved: Saved, resumeFlag: bool, yieldResult: int)

  /** `fcfs` tells the two scheduling algorithms apart; `alive` ends when the process exits. */
  datatype Sched = Sched(threads: map<int, Thread>, queue: seq<int>, current: int, fcfs: bool, alive: bool)

  /** A call returns a value, or control goes to another thread, or the process exits. */
  datatype Outcome = Returned(value: int) | Switched(to: int) | Died

  ghost predicate Named(s: Sched) {
    s.current in s.threads && forall t :: t in s.queue ==> t in s.threads
  }

  function InitSched(fcfs: bool): Sched {
    Sched(map[1 := Thread(1, Running, Fresh, false, ERROR)], [], 1, fcfs, true)
  }

  /** First tid from `from` on that no thread has. */
  function LeastFree(threads: map<int, Thread>, from: nat): (tid: int)
    requires 1 <= from <= MAX_THREADS + 1
    ensures tid == ERROR || (from <= tid <= MAX_THREADS && tid !in threads)
    ensures tid == ERROR ==> forall t :: from <= t <= MAX_THREADS ==> t in threads
    ensures tid != ERROR ==> forall t :: from <= t < tid ==> t in threads
    decreases MAX_THREADS + 1 - from
  {
    if from > MAX_THREADS then ERROR
    else if from !in threads then from
    else LeastFree(threads, from + 1)
  }

  function Create(s: Sched): (Sched, Outcome) {
    var tid := LeastFree(s.threads, 1);
    if |s.threads| >= MAX_THREADS || tid == ERROR then (s, Returned(ERROR))
    else (s.(threads := s.threads[tid := Thread(tid, Ready, Fresh, false, ERROR)], queue := s.queue + [tid]), Returned(tid))
  }

  /** Which queued thread is next: the first, or any one. `pick` stands for `rand()`. */
  function PickIndex(s: Sched, q: seq<int>, pick: nat): (i: nat)
    requires q != []
    ensures i < |q|
  {
    if s.fcfs then 0 else pick % |q|
  }

  function Without(q: seq<int>, i: nat): seq<int>
    requires i < |q|
  {
    q[..i] + q[i + 1..]
  }

  /** The thread runs: a fresh one starts, one inside `tus_yield` sees its flag and returns. */
  function Resumed(t: Thread): Thread {
    t.(state := Running, resumeFlag := if t.saved.InYield? then false else t.resumeFlag)
  }

  function Dispatch(s: Sched, next: int): Sched
    requires next in s.threads
  {
    s.(threads := s.threads[next := Resumed(s.threads[next])], current := next)
  }

  /** The caller goes to sleep inside `tus_yield` in favour of `next`. */
  function Suspend(s: Sched, next: int): Sched
    requires s.current in s.threads
  {
    var c := s.threads[s.current];
    s.(threads := s.threads[s.current := c.(state := Ready, saved := InYield, resumeFlag := true, yieldResult := next)])
  }

  function Yield(s: Sched, tid: int, pick: nat): (Sched, Outcome)
    requires Named(s)
  {
    var c := s.threads[s.current];
    var noted := s.(threads := s.threads[s.current := c.(saved := InYield)]);
    if tid == ANY then
      var q := s.queue + [s.current];
      var i := PickIndex(s, q, pick);
      (Dispatch(Suspend(s, q[i]).(queue := Without(q, i)), q[i]), Switched(q[i]))
    else if tid < 0 then (noted, Returned(ERROR))
    else if tid == s.current then
      (s.(threads := s.threads[s.current := c.(saved := InYield, yieldResult := tid)]), Returned(tid))
    else if tid !in s.threads || !s.threads[tid].state.Ready? then (noted, Returned(ERROR))
    else (Dispatch(Suspend(s, tid).(queue := WithoutFirst(s.queue, tid) + [s.current]), tid), Switched(tid))
  }

  function Exit(s: Sched, pick: nat): (Sched, Outcome)
    requires Named(s)
  {
    var ended := s.(threads := s.threads[s.current := s.threads[s.current].(state := Ended, resumeFlag := false)]);
    if s.queue == [] then (ended.(alive := false), Died)
    else
      var i := PickIndex(s, s.queue, pick);
      (Dispatch(ended.(queue := Without(s.queue, i)), s.queue[i]), Switched(s.queue[i]))
  }

  /** One turn of `tus_join`: it ends, or yields and will take another turn when resumed. */
  function JoinTurn(s: Sched, tid: int, pick: nat): (Sched, Outcome)
    requires Named(s)
  {
    if tid <= 0 || tid == s.current || tid !in s.threads then (s, Returned(ERROR))
    else if s.threads[tid].state.Ended? then (s.(threads := s.threads - {tid}), Returned(tid))
    else Yield(s, ANY, pick)
  }

  function Cancel(s: Sched, tid: int): (Sched, Outcome)
    requires Named(s)
  {
    if tid <= 0 || tid == s.current || tid !in s.threads || s.threads[tid].state.Ended? then (s, Returned(ERROR))
    else
      var q := if s.threads[tid].state.Ready? then WithoutFirst(s.queue, tid) else s.queue;
      (s.(threads := s.threads[tid := s.threads[tid].(state := Ended, resumeFlag := false)], queue := q),
       Returned(SUCCESS))
  }

  datatype Op =
    | DoCreate
    | DoYield(tid: int, pick: nat)
    | DoExit(pick: nat)
    | DoJoin(tid: int, pick: nat)
    | DoCancel(tid: int)

  function Do(s: Sched, op: Op): (Sched, Outcome)
    requires Named(s)
  {
    match op
    case DoCreate => Create(s)
    case DoYield(tid, pick) => Yield(s, tid, pick)
    case DoExit(pick) => Exit(s, pick)
    case DoJoin(tid, pick) => JoinTurn(s, tid, pick)
    case DoCancel(tid) => Cancel(s, tid)
  }
}
