/** The crypt threads of one worker: threadManager.cpp hands jobs out in turn, crypt_thread_t.cpp works them off. The
    threads are interleaved at the points where they hold the queue's mutex. */
module Pool {

  datatype Phase = Idle | Busy(job: nat) | Exited

  /** `queue`, `phase` and `asked` are the thread's own state; `added` and `done` record what passed through it. */
  datatype Thread = Thread(queue: seq<nat>, phase: Phase, asked: bool, added: seq<nat>, done: seq<nat>)

  const STARTED := Thread([], Idle, false, [], [])

  /** `lazy` is lazy_job_counter; `wraps` counts its resets and `dispatched` records all jobs. */
  datatype Pool = Pool(threads: seq<Thread>, lazy: nat, wraps: nat, dispatched: seq<nat>)

  function Fresh(count: nat): Pool {
    Pool(seq(count, _ => STARTED), 0, 0, [])
  }

  // ---- Steps ------------------------------------------------------------------------------------------

  function Push(th: Thread, job: nat): Thread {
    th.(queue := th.queue + [job], added := th.added + [job])
  }

  function Dispatch(p: Pool, job: nat): Pool {
    if p.threads == [] then p else
      var wrapped := p.lazy >= |p.threads|;
      var turn := if wrapped then 0 else p.lazy;
      Pool(p.threads[turn := Push(p.threads[turn], job)], turn + 1, if wrapped then p.wraps + 1 else p.wraps,
           p.dispatched + [job])
  }

  predicate CanTake(th: Thread) {
    th.phase.Idle? && th.queue != []
  }

  /** The thread wakes up holding the mutex, and there is a job: shutdown does not stop it. */
  function TakeFront(th: Thread): Thread
    requires CanTake(th)
  {
    th.(queue := th.queue[1..], phase := Busy(th.queue[0]))
  }

  /** The job is finished and the loop condition is tested: shutdown ends the loop whatever is queued. */
  function FinishCurrent(th: Thread): Thread
    requires th.phase.Busy?
  {
    th.(phase := if th.asked then Exited else Idle, done := th.done + [th.phase.job])
  }

  predicate CanExit(th: Thread) {
    th.phase.Idle? && th.asked && th.queue == []
  }

  function LeaveLoop(th: Thread): Thread
    requires CanExit(th)
  {
    th.(phase := Exited)
  }

  function Ask(th: Thread): Thread {
    th.(asked := true)
  }

  datatype Move = Take | Finish | Exit

  /** One step of a thread; a move that is not possible changes nothing. */
  function AfterMove(th: Thread, move: Move): Thread {
    match move
    case Take => if CanTake(th) then TakeFront(th) else th
    case Finish => if th.phase.Busy? then FinishCurrent(th) else th
    case Exit => if CanExit(th) then LeaveLoop(th) else th
  }

  // ---- Conservation -----------------------------------------------------------------------------------

  function Current(th: Thread): seq<nat> {
    if th.phase.Busy? then [th.phase.job] else []
  }

  /** Everything added is done, in progress or queued, in that order: nothing is lost, doubled or overtaken. */
  predicate Conserved(th: Thread) {
    && th.added == th.done + Current(th) + th.queue
    && (th.phase.Exited? ==> th.asked)
  }

  lemma PushConserves(th: Thread, job: nat)
    requires Conserved(th)
    ensures Conserved(Push(th, job))
  {
    assert th.done + Current(th) + (th.queue + [job]) == th.done + Current(th) + th.queue + [job];
  }

  lemma MoveConserves(th: Thread, move: Move)
    requires Conserved(th)
    ensures Conserved(AfterMove(th, move))
  {
    if move.Take? && CanTake(th) {
      assert th.queue == [th.queue[0]] + th.queue[1..];
    }
  }

  // ---- Progress and shutdown --------------------------------------------------------------------------

  function Pending(th: Thread): nat {
    |Current(th)| + |th.queue|
  }

  /** How many steps the thread is away from having nothing to do. */
  function Rank(th: Thread): nat {
    |Current(th)| + 2 * |th.queue|
  }

  /** Until shutdown is asked for, a thread with work to do can always step, and each step brings it closer. */
  lemma Progress(th: Thread)
    requires !th.asked && Conserved(th) && Rank(th) > 0
    ensures exists move :: Rank(AfterMove(th, move)) == Rank(th) - 1
    ensures forall move :: AfterMove(th, move) == th || Rank(AfterMove(th, move)) == Rank(th) - 1
  {
    assert Rank(AfterMove(th, if th.phase.Busy? then Finish else Take)) == Rank(th) - 1;
  }

  function Work(th: Thread, moves: seq<Move>): Thread
    decreases |moves|
  {
    if moves == [] then th else AfterMove(Work(th, moves[..|moves| - 1]), moves[|moves| - 1])
  }

  lemma {:induction false} WorkConserves(th: Thread, moves: seq<Move>)
    requires Conserved(th)
    ensures Conserved(Work(th, moves)) && Work(th, moves).added == th.added && Work(th, moves).asked == th.asked
    decreases |moves|
  {
    if moves == [] {
    } else {
      WorkConserves(th, moves[..|moves| - 1]);
      MoveConserves(Work(th, moves[..|moves| - 1]), moves[|moves| - 1]);
    }
  }

  predicate Stuck(th: Thread) {
    forall move: Move :: AfterMove(th, move) == th
  }

  /** A thread left to itself, whatever order its moves are tried in, stops only when every job is done. */
  lemma AllDone(th: Thread, moves: seq<Move>)
    requires Conserved(th) && !th.asked
    ensures Stuck(Work(th, moves)) <==> Work(th, moves).done == th.added
  {
    WorkConserves(th, moves);
    var end := Work(th, moves);
    if Rank(end) > 0 {
      Progress(end);
      assert end.done != end.added by {
        assert |end.added| > |end.done|;
      }
    } else {
      assert end.added == end.done;
      assert end.phase.Idle? && Stuck(end);
    }
  }

  /** After shutdown was asked for, at most one more job is finished: the one in progress, or the next one. */
  lemma {:induction false} ShutdownFinishesOne(th: Thread, moves: seq<Move>)
    requires Conserved(th) && th.asked && !th.phase.Exited?
    ensures var end := Work(th, moves);
      && |end.done| <= |th.done| + 1
      && (end.phase.Exited? <==> Stuck(end))
      && (end.phase.Exited? ==> |end.done| == |th.done| + if Pending(th) > 0 then 1 else 0)
      && (!end.phase.Exited? ==> end.done == th.done)
    decreases |moves|
  {
    WorkConserves(th, moves);
    var end := Work(th, moves);
    ExitIsStuck(end);
    if moves == [] {
    } else {
      ShutdownFinishesOne(th, moves[..|moves| - 1]);
      WorkConserves(th, moves[..|moves| - 1]);
    }
  }

  lemma ExitIsStuck(th: Thread)
    requires Conserved(th) && th.asked
    ensures th.phase.Exited? <==> Stuck(th)
  {
    if !th.phase.Exited? {
      var move := if th.phase.Busy? then Finish else if th.queue != [] then Take else Exit;
      assert AfterMove(th, move) != th;
    }
  }

  /** So the join ends with the thread's exit, and loses jobs exactly when the thread has two or more pending: all but
      the first stay queued for good. */
  lemma JoinLosesAllButOne(th: Thread, moves: seq<Move>)
    requires Conserved(th) && !th.phase.Exited? && Stuck(Work(Ask(th), moves))
    ensures var end := Work(Ask(th), moves);
      && end.phase.Exited?
      && end.added == th.added && |end.done| <= |th.added| && end.queue == th.added[|end.done|..]
      && |end.queue| == (if Pending(th) <= 1 then 0 else Pending(th) - 1)
      && (end.done == th.added <==> Pending(th) <= 1)
  {
    WorkConserves(Ask(th), moves);
    ShutdownFinishesOne(Ask(th), moves);
  }

  // ---- Distribution -----------------------------------------------------------------------------------

  /** Job number `k * T + t` is the `k`-th job of thread `t`. */
  ghost predicate InTurn(p: Pool) {
    var T := |p.threads|;
    && p.lazy <= T && |p.dispatched| == p.wraps * T + p.lazy
    && (forall t :: 0 <= t < T ==> |p.threads[t].added| == p.wraps + if t < p.lazy then 1 else 0)
    && (forall t, k :: 0 <= t < T && 0 <= k < |p.threads[t].added| ==> Numbered(p, t, k))
  }

  ghost predicate Numbered(p: Pool, t: nat, k: nat)
    requires t < |p.threads| && k < |p.threads[t].added|
  {
    var n := k * |p.threads| + t;
    n < |p.dispatched| && p.dispatched[n] == p.threads[t].added[k]
  }

  lemma DispatchInTurn(p: Pool, job: nat)
    requires InTurn(p)
    ensures InTurn(Dispatch(p, job))
  {
    var T, q := |p.threads|, Dispatch(p, job);
    if T > 0 {
      var turn := q.lazy - 1;
      assert |p.dispatched| == q.wraps * T + turn;
      forall t, k | 0 <= t < T && 0 <= k < |q.threads[t].added|
        ensures Numbered(q, t, k)
      {
        if k < |p.threads[t].added| {
          assert Numbered(p, t, k);
        }
      }
    }
  }

  /** Every job has its place: number `n` is the `n / T`-th job of thread `n % T`, and loads differ by one at most. */
  lemma RoundRobin(p: Pool, n: nat)
    requires InTurn(p) && n < |p.dispatched|
    ensures var T := |p.threads|;
      && T > 0 && n / T < |p.threads[n % T].added| && p.threads[n % T].added[n / T] == p.dispatched[n]
    ensures forall s, t :: 0 <= s < |p.threads| && 0 <= t < |p.threads| ==>
              |p.threads[s].added| <= |p.threads[t].added| + 1
  {
    var T := |p.threads|;
    var k, t := n / T, n % T;
    assert n == k * T + t;
    SlotBounds(n, k, t, T, p.wraps, p.lazy);
    assert Numbered(p, t, k);
  }

  lemma SlotBounds(n: nat, k: nat, t: nat, T: nat, wraps: nat, lazy: nat)
    requires t < T && lazy <= T && n == k * T + t < wraps * T + lazy
    ensures k < wraps + if t < lazy then 1 else 0
  {
    TimesMonotone(wraps + 1, if k > wraps then k else wraps + 1, T);
  }

  lemma TimesMonotone(a: nat, b: nat, T: nat)
    requires a <= b
    ensures a * T <= b * T
  {
  }

  // ---- The classes --------------------------------------------------------------------------------------

  class CryptThread {
    var queueItems: seq<nat>
    var phase: Phase
    var shutdownRequested: bool
    ghost var added: seq<nat>
    ghost var done: seq<nat>

    ghost function State(): Thread
      reads this
    {
      Thread(queueItems, phase, shutdownRequested, added, done)
    }

    constructor ()
      ensures State() == STARTED
    {
      queueItems, phase, shutdownRequested, added, done := [], Idle, false, [], [];
    }

    method Add(job: nat)
      modifies this
      ensures State() == Push(old(State()), job)
    {
      queueItems := queueItems + [job];
      added := added + [job];
    }

    /** `join`, up to the wait for the thread itself. */
    method Join()
      modifies this
      ensures State() == Ask(old(State()))
    {
      shutdownRequested := true;
    }

    /** The first half of the loop body, entered when the wait condition holds. */
    method WakeUp()
      requires phase.Idle? && (queueItems != [] || shutdownRequested)
      modifies this
      ensures State() == if CanExit(old(State())) then LeaveLoop(old(State())) else AfterMove(old(State()), Take)
    {
      if shutdownRequested && queueItems == [] {
        phase := Exited;
        return;
      }
      var queueItem := queueItems[0];
      queueItems := queueItems[1..];
      phase := Busy(queueItem);
    }

    /** The second half: the job has been processed, and the loop condition is tested. */
    method JobDone()
      requires phase.Busy?
      modifies this
      ensures State() == FinishCurrent(old(State()))
    {
      done := done + [phase.job];
      phase := if shutdownRequested then Exited else Idle;
    }
  }

  class ThreadManager {
    const cryptThreads: seq<CryptThread>
    var lazyJobCounter: nat
    ghost var wraps: nat
    ghost var dispatched: seq<nat>

    ghost predicate Valid() {
      forall i, j :: 0 <= i < j < |cryptThreads| ==> cryptThreads[i] != cryptThreads[j]
    }

    ghost function State(): Pool
      reads this, cryptThreads
    {
      Pool(seq(|cryptThreads|, i requires 0 <= i < |cryptThreads| reads this, cryptThreads => cryptThreads[i].State()),
           lazyJobCounter, wraps, dispatched)
    }

    /** `start`. */
    constructor (maxCryptThreads: nat)
      ensures Valid() && State() == Fresh(maxCryptThreads) && |cryptThreads| == maxCryptThreads
    {
      var threads: seq<CryptThread> := [];
      for i := 0 to maxCryptThreads
        invariant |threads| == i && forall k :: 0 <= k < i ==> fresh(threads[k]) && threads[k].State() == STARTED
        invariant forall j, k :: 0 <= j < k < i ==> threads[j] != threads[k]
      {
        var thread := new CryptThread();
        threads := threads + [thread];
      }
      cryptThreads := threads;
      lazyJobCounter, wraps, dispatched := 0, 0, [];
    }

    /** A manager that has not been started has no threads, and drops the job. */
    method AddJob(job: nat)
      requires Valid()
      modifies this, cryptThreads
      ensures State() == Dispatch(old(State()), job)
    {
      if |cryptThreads| == 0 {
        return;
      }
      if lazyJobCounter >= |cryptThreads| {
        lazyJobCounter := 0;
        wraps := wraps + 1;
      }
      cryptThreads[lazyJobCounter].Add(job);
      dispatched := dispatched + [job];
      lazyJobCounter := lazyJobCounter + 1;
    }
  }
}
