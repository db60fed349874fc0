/** One worker process as a whole: the event loop with its listener, timer and connections (network.cpp,
    network_client.cpp), and the crypt threads it feeds. Every sequence of callbacks, signals and thread steps is a run;
    an action that is not possible changes nothing. */
module Worker {
  import opened Bytes
  import opened Cipher
  import opened Delivery
  import opened Pool
  import opened Runs

  /** Who may touch a client: the event loop, the job in slot `slot` of thread `thread`, or nobody. */
  datatype Place = Open | Job(thread: nat, slot: nat) | Dead

  /** What a client has queued, and the crypt instance its packets were encrypted for. */
  datatype Load = Load(p: Params, iv: Register, ciphers: seq<seq<byte>>)

  /** `frees` counts how often the object was deleted; `result` is what its packets decrypted to. */
  datatype Client = Client(place: Place, work: Load, frees: nat, result: Option<seq<seq<byte>>>)

  /** The event loop; `up` says whether `run` has made its base. */
  datatype EventLoop = EventLoop(up: bool, connections: nat, listening: bool, shutdown: bool, exiting: bool,
                                 timer: bool, left: bool)

  /** `registers` are the shift registers of the shared instances, one per thread; `register` is the worker's own. */
  datatype World = World(clients: seq<Client>, pool: Pool, registers: seq<Register>, register: Register,
                         loop: EventLoop)

  datatype Action =
    | Enter
    | Accept(work: Load)
    | CutOff(c: nat)
    | Close(c: nat, ready: bool)
    | Signal
    | Stop
    | Tick
    | Leave
    | Join(t: nat)
    | Step(t: nat, move: Move)

  predicate Proper(work: Load) {
    |work.p.transmittedIv| == IV_SIZE
  }

  function Started(threads: nat): World {
    World([], Fresh(threads), seq(threads, _ => []), [], EventLoop(false, 0, false, false, false, false, false))
  }

  // ---- Actions ----------------------------------------------------------------------------------------

  predicate IsOpen(w: World, c: nat) {
    c < |w.clients| && w.clients[c].place.Open? && !w.loop.left
  }

  /** `delete this`. */
  function Delete(clients: seq<Client>, c: nat, result: Option<seq<seq<byte>>>): (r: seq<Client>)
    requires c < |clients|
    ensures |r| == |clients|
  {
    clients[c := clients[c].(place := Dead, frees := clients[c].frees + 1, result := result)]
  }

  /** `process_queue` with an instance whose register reads `td`. */
  function Processed(work: Load, td: Register): (seq<seq<byte>>, Register)
    requires Proper(work)
  {
    Session(work.p, work.iv, td, [], true, work.ciphers)
  }

  /** `connection_closed`, after the connection count has gone down. */
  function Closed(w: World, c: nat, ready: bool): World
    requires c < |w.clients|
  {
    var work := w.clients[c].work;
    if !ready || work.ciphers == [] || !Proper(work) then w.(clients := Delete(w.clients, c, None))
    else if w.pool.threads == [] then
      var (plains, register) := Processed(work, w.register);
      w.(clients := Delete(w.clients, c, Some(plains)), register := register)
    else
      var pool := Dispatch(w.pool, c);
      var t := pool.lazy - 1;
      w.(clients := w.clients[c := w.clients[c].(place := Job(t, |w.pool.threads[t].added|))], pool := pool)
  }

  /** `network::stop`, with an event base. */
  function Stopped(l: EventLoop): EventLoop {
    if l.connections != 0 then l.(listening := false, shutdown := true) else l.(listening := false, exiting := true)
  }

  /** The timer: it comes back unless `stop` has scheduled the exit. */
  function Ticked(l: EventLoop): EventLoop {
    if l.shutdown then Stopped(l).(timer := l.connections != 0) else l
  }

  /** The connection count has gone down. */
  function Uncounted(w: World): World
    requires w.loop.connections > 0
  {
    w.(loop := w.loop.(connections := w.loop.connections - 1))
  }

  /** A step of thread `t`; with the end of a job its client is deleted and the register has moved. */
  function Stepped(w: World, t: nat, move: Move): World
    requires t < |w.pool.threads| && t < |w.registers|
  {
    var th := w.pool.threads[t];
    var next := w.(pool := w.pool.(threads := w.pool.threads[t := AfterMove(th, move)]));
    if move.Finish? && th.phase.Busy? && th.phase.job < |w.clients| && Proper(w.clients[th.phase.job].work) then
      var (plains, register) := Processed(w.clients[th.phase.job].work, w.registers[t]);
      next.(clients := Delete(w.clients, th.phase.job, Some(plains)), registers := w.registers[t := register])
    else next
  }

  function Asked(w: World, t: nat): World
    requires t < |w.pool.threads|
  {
    w.(pool := w.pool.(threads := w.pool.threads[t := Ask(w.pool.threads[t])]))
  }

  function Next(w: World, a: Action): World {
    match a
    case Enter => if w.loop.up then w else w.(loop := w.loop.(up := true, listening := true, timer := true))
    case Accept(work) =>
      if w.loop.listening && !w.loop.left && Proper(work)
      then w.(clients := w.clients + [Client(Open, work, 0, None)],
              loop := w.loop.(connections := w.loop.connections + 1))
      else w
    case CutOff(c) =>
      if IsOpen(w, c) && w.loop.connections > 0 then Uncounted(w).(clients := Delete(w.clients, c, None)) else w
    case Close(c, ready) => if IsOpen(w, c) && w.loop.connections > 0 then Closed(Uncounted(w), c, ready) else w
    case Signal => if w.loop.up then w.(loop := w.loop.(shutdown := true)) else w
    case Stop => if w.loop.up && !w.loop.left then w.(loop := Stopped(w.loop)) else w
    case Tick => if w.loop.timer && !w.loop.left then w.(loop := Ticked(w.loop)) else w
    case Leave => if w.loop.exiting then w.(loop := w.loop.(left := true)) else w
    case Join(t) => if w.loop.left && t < |w.pool.threads| then Asked(w, t) else w
    case Step(t, move) => if t < |w.pool.threads| && t < |w.registers| then Stepped(w, t, move) else w
  }

  // ---- Ownership ----------------------------------------------------------------------------------------

  /** Slot `k` of thread `t` holds a client that is dead once the job is done, and belongs to that very job before. */
  predicate SlotOwned(clients: seq<Client>, th: Thread, t: nat, k: nat)
    requires k < |th.added|
  {
    th.added[k] < |clients| && clients[th.added[k]].place == if k < |th.done| then Dead else Job(t, k)
  }

  /** A client that is a job is the job of its slot. */
  predicate JobOf(client: Client, c: nat, threads: seq<Thread>) {
    client.place.Job? ==>
      && client.place.thread < |threads|
      && |threads[client.place.thread].done| <= client.place.slot < |threads[client.place.thread].added|
      && threads[client.place.thread].added[client.place.slot] == c
  }

  predicate ClientOwned(client: Client, c: nat, threads: seq<Thread>) {
    && client.frees == (if client.place.Dead? then 1 else 0)
    && Proper(client.work)
    && JobOf(client, c, threads)
  }

  predicate ThreadOwned(clients: seq<Client>, th: Thread, t: nat) {
    Conserved(th) && forall k :: 0 <= k < |th.added| ==> SlotOwned(clients, th, t, k)
  }

  /** Every client has one owner, and has been deleted once if it is dead and never otherwise. */
  predicate Owned(clients: seq<Client>, threads: seq<Thread>) {
    && (forall t :: 0 <= t < |threads| ==> ThreadOwned(clients, threads[t], t))
    && (forall c :: 0 <= c < |clients| ==> ClientOwned(clients[c], c, threads))
  }

  /** Only clients that were no job have changed places. */
  predicate JobsStay(clients: seq<Client>, after: seq<Client>) {
    && |clients| <= |after|
    && forall c :: 0 <= c < |clients| && !clients[c].place.Open? ==> after[c].place == clients[c].place
  }

  lemma SlotsKept(clients: seq<Client>, after: seq<Client>, th: Thread, later: Thread, t: nat)
    requires ThreadOwned(clients, th, t) && JobsStay(clients, after)
    requires Conserved(later) && later.added == th.added && later.done == th.done
    ensures ThreadOwned(after, later, t)
  {
    forall k | 0 <= k < |th.added|
      ensures SlotOwned(after, later, t, k)
    {
      assert SlotOwned(clients, th, t, k);
    }
  }

  lemma DeleteOpenOwned(clients: seq<Client>, threads: seq<Thread>, c: nat, result: Option<seq<seq<byte>>>)
    requires Owned(clients, threads) && c < |clients| && clients[c].place.Open?
    ensures Owned(Delete(clients, c, result), threads)
  {
    forall t | 0 <= t < |threads|
      ensures ThreadOwned(Delete(clients, c, result), threads[t], t)
    {
      SlotsKept(clients, Delete(clients, c, result), threads[t], threads[t], t);
    }
    assert ClientOwned(clients[c], c, threads);
  }

  lemma AcceptOwned(clients: seq<Client>, threads: seq<Thread>, work: Load)
    requires Owned(clients, threads) && Proper(work)
    ensures Owned(clients + [Client(Open, work, 0, None)], threads)
  {
    forall t | 0 <= t < |threads|
      ensures ThreadOwned(clients + [Client(Open, work, 0, None)], threads[t], t)
    {
      SlotsKept(clients, clients + [Client(Open, work, 0, None)], threads[t], threads[t], t);
    }
  }

  /** A step that neither adds nor finishes a job leaves every client where it is. */
  lemma KeepOwned(clients: seq<Client>, threads: seq<Thread>, t: nat, th: Thread)
    requires Owned(clients, threads) && t < |threads| && Conserved(th)
    requires th.added == threads[t].added && th.done == threads[t].done
    ensures Owned(clients, threads[t := th])
  {
    SlotsKept(clients, clients, threads[t], th, t);
    forall c | 0 <= c < |clients|
      ensures ClientOwned(clients[c], c, threads[t := th])
    {
      assert ClientOwned(clients[c], c, threads);
    }
  }

  lemma DispatchOwned(clients: seq<Client>, threads: seq<Thread>, c: nat, t: nat)
    requires Owned(clients, threads) && c < |clients| && clients[c].place.Open? && t < |threads|
    ensures Owned(clients[c := clients[c].(place := Job(t, |threads[t].added|))], threads[t := Push(threads[t], c)])
  {
    var clients' := clients[c := clients[c].(place := Job(t, |threads[t].added|))];
    var threads' := threads[t := Push(threads[t], c)];
    forall s | 0 <= s < |threads|
      ensures ThreadOwned(clients', threads'[s], s)
    {
      assert ThreadOwned(clients, threads[s], s);
      PushConserves(threads[t], c);
      forall k | 0 <= k < |threads'[s].added|
        ensures SlotOwned(clients', threads'[s], s, k)
      {
        if k < |threads[s].added| { assert SlotOwned(clients, threads[s], s, k); }
      }
    }
    forall d | 0 <= d < |clients|
      ensures ClientOwned(clients'[d], d, threads')
    {
      assert ClientOwned(clients[d], d, threads);
    }
  }

  lemma FinishOwned(clients: seq<Client>, threads: seq<Thread>, t: nat, result: Option<seq<seq<byte>>>)
    requires Owned(clients, threads) && t < |threads| && threads[t].phase.Busy?
    ensures var c := threads[t].phase.job;
      && c < |clients| && clients[c].place == Job(t, |threads[t].done|) && Proper(clients[c].work)
      && Owned(Delete(clients, c, result), threads[t := FinishCurrent(threads[t])])
  {
    var th, c := threads[t], threads[t].phase.job;
    assert ThreadOwned(clients, th, t);
    assert th.added[|th.done|] == c;
    assert SlotOwned(clients, th, t, |th.done|) && ClientOwned(clients[c], c, threads);
    var clients', threads' := Delete(clients, c, result), threads[t := FinishCurrent(th)];
    forall s | 0 <= s < |threads|
      ensures ThreadOwned(clients', threads'[s], s)
    {
      assert ThreadOwned(clients, threads[s], s);
      MoveConserves(th, Finish);
      forall k | 0 <= k < |threads'[s].added|
        ensures SlotOwned(clients', threads'[s], s, k)
      {
        assert SlotOwned(clients, threads[s], s, k);
      }
    }
    forall d | 0 <= d < |clients|
      ensures ClientOwned(clients'[d], d, threads')
    {
      assert ClientOwned(clients[d], d, threads);
    }
  }

  // ---- Invariants of a run ------------------------------------------------------------------------------

  function OpenCount(clients: seq<Client>): nat
    decreases |clients|
  {
    if clients == [] then 0 else
      OpenCount(clients[..|clients| - 1]) + if clients[|clients| - 1].place.Open? then 1 else 0
  }

  lemma {:induction false} OpenCountUpdate(clients: seq<Client>, c: nat, client: Client)
    requires c < |clients|
    ensures OpenCount(clients[c := client]) == OpenCount(clients)
              - (if clients[c].place.Open? then 1 else 0) + (if client.place.Open? then 1 else 0)
    decreases |clients|
  {
    var n := |clients| - 1;
    if c == n {
      assert clients[c := client][..n] == clients[..n];
    } else {
      assert clients[c := client][..n] == clients[..n][c := client];
      OpenCountUpdate(clients[..n], c, client);
    }
  }

  lemma OpenCountAppend(clients: seq<Client>, client: Client)
    ensures OpenCount(clients + [client]) == OpenCount(clients) + if client.place.Open? then 1 else 0
  {
    assert (clients + [client])[..|clients|] == clients;
  }

  /** `connections` is exact, once the exit is scheduled there is no connection and no way to get one, and before the
      event base is made there is nothing at all. */
  predicate Draining(w: World) {
    && w.loop.connections == OpenCount(w.clients)
    && (w.loop.exiting ==> w.loop.connections == 0 && !w.loop.listening)
    && (w.loop.left ==> w.loop.exiting)
    && (!w.loop.timer ==> w.loop.exiting || !w.loop.up)
    && (!w.loop.up ==> !w.loop.listening && !w.loop.shutdown && !w.loop.exiting && w.loop.connections == 0)
  }

  predicate Sound(w: World) {
    && |w.registers| == |w.pool.threads|
    && Owned(w.clients, w.pool.threads)
    && Draining(w)
  }

  /** Is the closed connection left to a thread? */
  predicate Dispatches(w: World, c: nat, ready: bool)
    requires c < |w.clients|
  {
    ready && w.clients[c].work.ciphers != [] && Proper(w.clients[c].work) && w.pool.threads != []
  }

  lemma ClosedDeletes(w: World, c: nat, ready: bool)
    requires Owned(w.clients, w.pool.threads) && c < |w.clients| && w.clients[c].place.Open?
    requires !Dispatches(w, c, ready)
    ensures Owned(Closed(w, c, ready).clients, Closed(w, c, ready).pool.threads)
  {
    DeleteOpenOwned(w.clients, w.pool.threads, c, Closed(w, c, ready).clients[c].result);
  }

  lemma ClosedOwned(w: World, c: nat, ready: bool)
    requires Owned(w.clients, w.pool.threads) && c < |w.clients| && w.clients[c].place.Open?
    ensures Owned(Closed(w, c, ready).clients, Closed(w, c, ready).pool.threads)
  {
    if Dispatches(w, c, ready) {
      DispatchOwned(w.clients, w.pool.threads, c, Dispatch(w.pool, c).lazy - 1);
    } else {
      ClosedDeletes(w, c, ready);
    }
  }

  lemma ClosedCount(w: World, c: nat, ready: bool)
    requires c < |w.clients| && w.clients[c].place.Open?
    ensures OpenCount(Closed(w, c, ready).clients) == OpenCount(w.clients) - 1
  {
    OpenCountUpdate(w.clients, c, Closed(w, c, ready).clients[c]);
  }

  lemma CloseSound(w: World, c: nat, ready: bool)
    requires Sound(w) && IsOpen(w, c)
    ensures Sound(Next(w, Close(c, ready)))
  {
    OpenCountUpdate(w.clients, c, Delete(w.clients, c, None)[c]);
    ClosedOwned(Uncounted(w), c, ready);
    ClosedCount(Uncounted(w), c, ready);
  }

  lemma CutOffSound(w: World, c: nat)
    requires Sound(w) && IsOpen(w, c)
    ensures Sound(Next(w, CutOff(c)))
  {
    DeleteOpenOwned(w.clients, w.pool.threads, c, None);
    OpenCountUpdate(w.clients, c, Delete(w.clients, c, None)[c]);
  }

  lemma StepSound(w: World, t: nat, move: Move)
    requires Sound(w) && t < |w.pool.threads|
    ensures Sound(Next(w, Step(t, move)))
  {
    var th := w.pool.threads[t];
    assert ThreadOwned(w.clients, th, t);
    if move.Finish? && th.phase.Busy? {
      var c := th.phase.job;
      FinishOwned(w.clients, w.pool.threads, t, None);
      var result := Some(Processed(w.clients[c].work, w.registers[t]).0);
      FinishOwned(w.clients, w.pool.threads, t, result);
      OpenCountUpdate(w.clients, c, Delete(w.clients, c, result)[c]);
    } else {
      MoveConserves(th, move);
      KeepOwned(w.clients, w.pool.threads, t, AfterMove(th, move));
    }
  }

  lemma NextSound(w: World, a: Action)
    requires Sound(w)
    ensures Sound(Next(w, a))
  {
    match a
    case Accept(work) =>
      OpenCountAppend(w.clients, Client(Open, work, 0, None));
      if Proper(work) { AcceptOwned(w.clients, w.pool.threads, work); }
    case CutOff(c) => if IsOpen(w, c) { CutOffSound(w, c); }
    case Close(c, ready) => if IsOpen(w, c) { CloseSound(w, c, ready); }
    case Join(t) =>
      if t < |w.pool.threads| {
        assert ThreadOwned(w.clients, w.pool.threads[t], t);
        KeepOwned(w.clients, w.pool.threads, t, Ask(w.pool.threads[t]));
      }
    case Step(t, move) => if t < |w.pool.threads| { StepSound(w, t, move); }
    case _ =>
  }

  // ---- Results ------------------------------------------------------------------------------------------

  function Alone(work: Load): seq<seq<byte>>
    requires Proper(work)
  {
    DecryptList(work.p, work.iv, work.ciphers)
  }

  /** Whatever has been decrypted is what the connection would have decrypted to alone. */
  predicate Answered(client: Client) {
    client.result.Some? ==> Proper(client.work) && client.result.value == Alone(client.work)
  }

  predicate Finished(clients: seq<Client>, th: Thread) {
    |th.done| <= |th.added|
    && forall k :: 0 <= k < |th.done| ==> th.added[k] < |clients| && clients[th.added[k]].result.Some?
  }

  /** And every finished job has been decrypted. */
  predicate Results(clients: seq<Client>, threads: seq<Thread>) {
    && (forall c :: 0 <= c < |clients| ==> Answered(clients[c]))
    && (forall t :: 0 <= t < |threads| ==> Finished(clients, threads[t]))
  }

  lemma ProcessedAlone(work: Load, td: Register)
    requires Proper(work)
    ensures Processed(work, td).0 == Alone(work)
  {
    SessionForgetsRegister(work.p, work.iv, td, [], true, work.ciphers);
  }

  /** A client that is still open is not the job of any thread, so its fate changes no finished job. */
  lemma OpenResults(clients: seq<Client>, threads: seq<Thread>, c: nat, client: Client)
    requires Owned(clients, threads) && Results(clients, threads)
    requires c < |clients| && clients[c].place.Open? && Answered(client)
    ensures Results(clients[c := client], threads)
  {
    forall t | 0 <= t < |threads|
      ensures Finished(clients[c := client], threads[t])
    {
      assert ThreadOwned(clients, threads[t], t) && Finished(clients, threads[t]);
      forall k | 0 <= k < |threads[t].done|
        ensures threads[t].added[k] != c
      {
        assert SlotOwned(clients, threads[t], t, k);
      }
    }
  }

  lemma PushResults(clients: seq<Client>, threads: seq<Thread>, t: nat, th: Thread)
    requires Results(clients, threads) && t < |threads|
    requires th.done == threads[t].done && threads[t].added <= th.added
    ensures Results(clients, threads[t := th])
  {
    assert Finished(clients, threads[t]);
  }

  lemma FinishResults(clients: seq<Client>, threads: seq<Thread>, t: nat)
    requires Owned(clients, threads) && Results(clients, threads) && t < |threads| && threads[t].phase.Busy?
    ensures var c := threads[t].phase.job;
      && c < |clients| && Proper(clients[c].work)
      && Results(Delete(clients, c, Some(Alone(clients[c].work))), threads[t := FinishCurrent(threads[t])])
  {
    FinishOwned(clients, threads, t, None);
    assert ThreadOwned(clients, threads[t], t);
    var th, c := threads[t], threads[t].phase.job;
    var clients' := Delete(clients, c, Some(Alone(clients[c].work)));
    assert Answered(clients'[c]);
    assert th.added[|th.done|] == c;
    assert Finished(clients', FinishCurrent(th)) by {
      assert Finished(clients, th);
    }
    forall s | 0 <= s < |threads|
      ensures Finished(clients', threads[s])
    {
      assert Finished(clients, threads[s]);
    }
  }

  lemma ClosedResults(w: World, c: nat, ready: bool)
    requires Owned(w.clients, w.pool.threads) && Results(w.clients, w.pool.threads)
    requires c < |w.clients| && w.clients[c].place.Open?
    ensures Results(Closed(w, c, ready).clients, Closed(w, c, ready).pool.threads)
  {
    var client, v := w.clients[c], Closed(w, c, ready);
    if Proper(client.work) { ProcessedAlone(client.work, w.register); }
    OpenResults(w.clients, w.pool.threads, c, v.clients[c]);
    if v.pool != w.pool {
      var t := v.pool.lazy - 1;
      PushResults(v.clients, w.pool.threads, t, Push(w.pool.threads[t], c));
    }
  }

  lemma StepResults(w: World, t: nat, move: Move)
    requires Sound(w) && Results(w.clients, w.pool.threads) && t < |w.pool.threads|
    ensures Results(Stepped(w, t, move).clients, Stepped(w, t, move).pool.threads)
  {
    var th := w.pool.threads[t];
    if move.Finish? && th.phase.Busy? {
      FinishResults(w.clients, w.pool.threads, t);
      ProcessedAlone(w.clients[th.phase.job].work, w.registers[t]);
    } else {
      PushResults(w.clients, w.pool.threads, t, AfterMove(th, move));
    }
  }

  lemma AcceptResults(clients: seq<Client>, threads: seq<Thread>, work: Load)
    requires Results(clients, threads)
    ensures Results(clients + [Client(Open, work, 0, None)], threads)
  {
    forall t | 0 <= t < |threads|
      ensures Finished(clients + [Client(Open, work, 0, None)], threads[t])
    {
      assert Finished(clients, threads[t]);
    }
  }

  lemma CutOffResults(clients: seq<Client>, threads: seq<Thread>, c: nat)
    requires Owned(clients, threads) && Results(clients, threads) && c < |clients| && clients[c].place.Open?
    ensures Results(Delete(clients, c, None), threads)
  {
    OpenResults(clients, threads, c, Delete(clients, c, None)[c]);
  }

  lemma NextResults(w: World, a: Action)
    requires Sound(w) && Results(w.clients, w.pool.threads)
    ensures Results(Next(w, a).clients, Next(w, a).pool.threads)
  {
    match a
    case Accept(work) => AcceptResults(w.clients, w.pool.threads, work);
    case CutOff(c) =>
      if IsOpen(w, c) { CutOffResults(w.clients, w.pool.threads, c); }
    case Close(c, ready) =>
      if IsOpen(w, c) && w.loop.connections > 0 { ClosedResults(Uncounted(w), c, ready); }
    case Join(t) =>
      if t < |w.pool.threads| { PushResults(w.clients, w.pool.threads, t, Ask(w.pool.threads[t])); }
    case Step(t, move) => if t < |w.pool.threads| { StepResults(w, t, move); }
    case _ =>
  }

  // ---- Distribution -------------------------------------------------------------------------------------

  predicate SameJobs(p: Pool, q: Pool) {
    && |q.threads| == |p.threads| && q.lazy == p.lazy && q.wraps == p.wraps && q.dispatched == p.dispatched
    && forall t :: 0 <= t < |p.threads| ==> q.threads[t].added == p.threads[t].added
  }

  lemma SameJobsInTurn(p: Pool, q: Pool)
    requires InTurn(p) && SameJobs(p, q)
    ensures InTurn(q)
  {
    forall t, k | 0 <= t < |q.threads| && 0 <= k < |q.threads[t].added|
      ensures Numbered(q, t, k)
    {
      assert Numbered(p, t, k);
    }
  }

  lemma ClosedPool(w: World, c: nat, ready: bool)
    requires c < |w.clients|
    ensures var v := Closed(w, c, ready);
      && (v.pool == w.pool || v.pool == Dispatch(w.pool, c))
      && v.loop == w.loop
  {
  }

  lemma SteppedPool(w: World, t: nat, move: Move)
    requires t < |w.pool.threads| && t < |w.registers|
    ensures var v := Stepped(w, t, move);
      SameJobs(w.pool, v.pool) && v.loop == w.loop
  {
  }

  /** Jobs are dispatched by closing connections and in no other way; without the listener there are no newcomers. */
  lemma NextPool(w: World, a: Action)
    ensures var v := Next(w, a);
      && (SameJobs(w.pool, v.pool) || (a.Close? && v.pool == Dispatch(w.pool, a.c)))
      && (!w.loop.listening && w.loop.up ==>
            !v.loop.listening && v.loop.up && v.loop.connections <= w.loop.connections)
  {
    match a
    case Close(c, ready) =>
      if IsOpen(w, c) && w.loop.connections > 0 { ClosedPool(Uncounted(w), c, ready); }
    case Step(t, move) => if t < |w.pool.threads| && t < |w.registers| { SteppedPool(w, t, move); }
    case _ =>
  }

  lemma NextInTurn(p: Pool, q: Pool, c: nat)
    requires InTurn(p) && (SameJobs(p, q) || q == Dispatch(p, c))
    ensures InTurn(q)
  {
    if SameJobs(p, q) {
      SameJobsInTurn(p, q);
    } else {
      DispatchInTurn(p, c);
    }
  }

  // ---- Runs ---------------------------------------------------------------------------------------------

  function After(w: World, actions: seq<Action>): World {
    Fold(Next, w, actions)
  }

  function Run(threads: nat, actions: seq<Action>): World {
    After(Started(threads), actions)
  }

  ghost predicate Kept(w: World, threads: nat) {
    Sound(w) && Results(w.clients, w.pool.threads) && InTurn(w.pool) && |w.pool.threads| == threads
  }

  lemma NextKeeps(w: World, a: Action, threads: nat)
    requires Kept(w, threads)
    ensures Kept(Next(w, a), threads)
  {
    NextSound(w, a);
    NextResults(w, a);
    NextPool(w, a);
    NextInTurn(w.pool, Next(w, a).pool, if a.Close? then a.c else 0);
  }

  /** In every run: one owner per client, every deletion the only one, exact connection count, first-in first-out job
      queues without loss, jobs handed out in turn, and results that do not depend on the schedule. */
  lemma RunKeeps(threads: nat, actions: seq<Action>)
    ensures Kept(Run(threads, actions), threads)
  {
    forall w, a | Kept(w, threads)
      ensures Kept(Next(w, a), threads)
    {
      NextKeeps(w, a, threads);
    }
    FoldKeeps(Next, (w: World) => Kept(w, threads), Started(threads), actions);
  }

  /** Two connections with the same packets and secrets decrypt alike, whichever runs, threads and predecessors. */
  lemma ScheduleIndependent(threads: nat, actions: seq<Action>, c: nat, threads': nat, actions': seq<Action>, c': nat)
    requires c < |Run(threads, actions).clients| && c' < |Run(threads', actions').clients|
    requires Run(threads, actions).clients[c].work == Run(threads', actions').clients[c'].work
    requires Run(threads, actions).clients[c].result.Some? && Run(threads', actions').clients[c'].result.Some?
    ensures Run(threads, actions).clients[c].result == Run(threads', actions').clients[c'].result
  {
    RunKeeps(threads, actions);
    RunKeeps(threads', actions');
    assert Answered(Run(threads, actions).clients[c]) && Answered(Run(threads', actions').clients[c']);
  }

  /** A finished job has decrypted its client's packets as if alone, and deleted the client, once. */
  lemma JobsComplete(threads: nat, actions: seq<Action>, t: nat, k: nat)
    requires var w := Run(threads, actions); t < |w.pool.threads| && k < |w.pool.threads[t].done|
    ensures var w := Run(threads, actions); var c := w.pool.threads[t].done[k];
      && c < |w.clients| && w.clients[c].place.Dead? && w.clients[c].frees == 1
      && Proper(w.clients[c].work) && w.clients[c].result == Some(Alone(w.clients[c].work))
  {
    RunKeeps(threads, actions);
    var w := Run(threads, actions);
    var th := w.pool.threads[t];
    assert ThreadOwned(w.clients, th, t) && Finished(w.clients, th);
    assert th.added[k] == th.done[k];
    assert SlotOwned(w.clients, th, t, k);
    assert ClientOwned(w.clients[th.added[k]], th.added[k], w.pool.threads) && Answered(w.clients[th.added[k]]);
  }

  /** The timer schedules the exit exactly when no socket is open, and comes back exactly as long as it did not. */
  lemma TickDrains(w: World)
    requires Sound(w) && w.loop.shutdown && w.loop.timer && !w.loop.left
    ensures var v := Next(w, Tick);
      && !v.loop.listening
      && (v.loop.exiting <==> OpenCount(w.clients) == 0)
      && (v.loop.timer <==> OpenCount(w.clients) != 0)
  {
  }

  /** The exit is final: from then on there is never an open connection again, and no new client. */
  lemma ExitIsFinal(w: World, actions: seq<Action>)
    requires Sound(w) && w.loop.exiting
    ensures var v := After(w, actions);
      Sound(v) && v.loop.exiting && v.loop.connections == 0 && OpenCount(v.clients) == 0 && |v.clients| == |w.clients|
  {
    var inv := (v: World) => Sound(v) && v.loop.exiting && |v.clients| == |w.clients|;
    forall v, a | inv(v)
      ensures inv(Next(v, a))
    {
      NextSound(v, a);
      ExitStays(v, a);
    }
    FoldKeeps(Next, inv, w, actions);
  }

  lemma ExitStays(w: World, a: Action)
    requires Draining(w) && w.loop.exiting
    ensures Next(w, a).loop.exiting && |Next(w, a).clients| == |w.clients|
  {
  }

  /** Once the listener is off, the number of open sockets only goes down. */
  lemma DrainShrinks(w: World, actions: seq<Action>)
    requires Sound(w) && w.loop.up && !w.loop.listening
    ensures var v := After(w, actions); Sound(v) && !v.loop.listening && OpenCount(v.clients) <= OpenCount(w.clients)
  {
    var inv := (v: World) => Sound(v) && v.loop.up && !v.loop.listening && v.loop.connections <= w.loop.connections;
    forall v, a | inv(v)
      ensures inv(Next(v, a))
    {
      NextSound(v, a);
      NextPool(v, a);
    }
    FoldKeeps(Next, inv, w, actions);
  }

  /** `run` has made the event base. */
  predicate Entered(actions: seq<Action>) {
    exists i :: 0 <= i < |actions| && actions[i].Enter?
  }

  lemma EnteredSnoc(actions: seq<Action>)
    requires actions != []
    ensures Entered(actions) <==> Entered(actions[..|actions| - 1]) || actions[|actions| - 1].Enter?
  {
    var init := actions[..|actions| - 1];
    if Entered(init) {
      var i :| 0 <= i < |init| && init[i].Enter?;
      assert actions[i].Enter?;
    }
    if Entered(actions) && !actions[|actions| - 1].Enter? {
      var i :| 0 <= i < |actions| && actions[i].Enter?;
      assert init[i].Enter?;
    }
  }

  /** A signal or a SIGUSR1 that came when there was an event base. */
  predicate Asks(actions: seq<Action>) {
    exists i :: 0 <= i < |actions| && (actions[i].Stop? || actions[i].Signal?) && Entered(actions[..i])
  }

  lemma AsksSnoc(actions: seq<Action>)
    requires actions != []
    ensures var init, last := actions[..|actions| - 1], actions[|actions| - 1];
      Asks(actions) <==> Asks(init) || ((last.Stop? || last.Signal?) && Entered(init))
  {
    var init := actions[..|actions| - 1];
    forall i | 0 <= i < |init|
      ensures init[i] == actions[i] && init[..i] == actions[..i]
    {
    }
    if Asks(init) {
      var i :| 0 <= i < |init| && (init[i].Stop? || init[i].Signal?) && Entered(init[..i]);
      assert actions[i] == init[i];
    }
  }

  lemma NextAsked(w: World, a: Action)
    requires Sound(w)
    ensures var v := Next(w, a);
      && (v.loop.up <==> w.loop.up || a.Enter?)
      && (v.loop.shutdown || v.loop.exiting <==>
          w.loop.shutdown || w.loop.exiting || (w.loop.up && (a.Stop? || a.Signal?)))
      && (w.loop.up && w.loop.listening && !v.loop.listening ==> v.loop.shutdown || v.loop.exiting)
  {
  }

  /** A worker begins to shut down if and only if it is asked to once the event base exists. A SIGUSR1 that comes before
      that is lost: without another one the worker listens for good. */
  lemma {:induction false} StopsWhenAsked(threads: nat, actions: seq<Action>)
    ensures var w := Run(threads, actions);
      && (w.loop.up <==> Entered(actions))
      && (w.loop.shutdown || w.loop.exiting <==> Asks(actions))
      && (w.loop.up && !Asks(actions) ==> w.loop.listening && w.loop.timer && !w.loop.left)
    decreases |actions|
  {
    RunKeeps(threads, actions);
    if actions == [] {
    } else {
      var n := |actions| - 1;
      RunKeeps(threads, actions[..n]);
      StopsWhenAsked(threads, actions[..n]);
      EnteredSnoc(actions);
      AsksSnoc(actions);
      NextAsked(Run(threads, actions[..n]), actions[n]);
    }
  }

  lemma TickThenLeave(w: World)
    requires Sound(w) && (w.loop.shutdown || w.loop.exiting)
    ensures var v := Next(w, Tick);
      !v.loop.listening && (Next(v, Leave).loop.left <==> OpenCount(w.clients) == 0)
  {
  }

  /** Once it has been asked to, the next timer turns the listener off, and the worker leaves its loop behind that timer
      if and only if no socket is open. */
  lemma AskedLeaves(threads: nat, actions: seq<Action>)
    requires Asks(actions)
    ensures !Run(threads, actions + [Tick]).loop.listening
    ensures Run(threads, actions + [Tick] + [Leave]).loop.left <==> OpenCount(Run(threads, actions).clients) == 0
  {
    RunKeeps(threads, actions);
    StopsWhenAsked(threads, actions);
    TickThenLeave(Run(threads, actions));
    FoldSnoc(Next, Started(threads), actions, Tick);
    FoldSnoc(Next, Started(threads), actions + [Tick], Leave);
  }

  lemma StopThenStill(w: World)
    requires Sound(w) && w.loop.up
    ensures var v := Next(w, Stop); !v.loop.listening && (v.loop.exiting <==> OpenCount(w.clients) == 0)
  {
  }

  /** SIGUSR1 does not wait for the timer: the listener is off at once, and the exit is scheduled at once if and only if
      no socket is open. */
  lemma StopsAtOnce(threads: nat, actions: seq<Action>)
    requires Entered(actions)
    ensures var v := Run(threads, actions + [Stop]);
      !v.loop.listening && (v.loop.exiting <==> OpenCount(Run(threads, actions).clients) == 0)
  {
    RunKeeps(threads, actions);
    StopsWhenAsked(threads, actions);
    StopThenStill(Run(threads, actions));
    FoldSnoc(Next, Started(threads), actions, Stop);
  }

  // ---- What becomes of a connection -----------------------------------------------------------------------

  /** The connection is thrown away: cut off, closed without a usable instance, or closed with nothing queued. */
  predicate Drops(w: World, a: Action, c: nat) {
    && c < |w.clients| && w.clients[c].place.Open? && !w.loop.left
    && ((a.CutOff? && a.c == c) || (a.Close? && a.c == c && (!a.ready || w.clients[c].work.ciphers == [])))
  }

  /** It is closed with something to decrypt, and something to decrypt it with. */
  predicate Takes(w: World, a: Action, c: nat) {
    && c < |w.clients| && w.clients[c].place.Open? && !w.loop.left
    && a.Close? && a.c == c && a.ready && w.clients[c].work.ciphers != []
  }

  function Dropped(threads: nat, actions: seq<Action>, c: nat): bool
    decreases |actions|
  {
    actions != [] &&
    var init := actions[..|actions| - 1];
    Dropped(threads, init, c) || Drops(Run(threads, init), actions[|actions| - 1], c)
  }

  function Taken(threads: nat, actions: seq<Action>, c: nat): bool
    decreases |actions|
  {
    actions != [] &&
    var init := actions[..|actions| - 1];
    Taken(threads, init, c) || Takes(Run(threads, init), actions[|actions| - 1], c)
  }

  /** The connections taken, in order. */
  function Jobs(threads: nat, actions: seq<Action>): seq<nat>
    decreases |actions|
  {
    if actions == [] then [] else
      var init, last := actions[..|actions| - 1], actions[|actions| - 1];
      Jobs(threads, init) + if last.Close? && Takes(Run(threads, init), last, last.c) then [last.c] else []
  }

  /** What the accepted connections have queued, in order. */
  function Loads(threads: nat, actions: seq<Action>): seq<Load>
    decreases |actions|
  {
    if actions == [] then [] else
      var init, last := actions[..|actions| - 1], actions[|actions| - 1];
      var l := Run(threads, init).loop;
      Loads(threads, init) +
      if last.Accept? && l.listening && !l.left && |last.work.p.transmittedIv| == 128 then [last.work] else []
  }

  /** A dropped connection is dead and has been decrypted by nobody; a taken one is a job until it is dead and has been
      decrypted, at once if there are no threads; any other is open. */
  predicate Fated(w: World, c: nat, dropped: bool, taken: bool) {
    if c >= |w.clients| then !dropped && !taken else
      var client := w.clients[c];
      && !(dropped && taken)
      && (client.place.Open? <==> !dropped && !taken)
      && (dropped ==> client.place.Dead? && client.result.None?)
      && (taken ==> (client.place.Job? && w.pool.threads != [])
                    || (client.place.Dead? && Proper(client.work)
                        && client.result == Some(DecryptList(client.work.p, client.work.iv, client.work.ciphers))))
  }

  lemma CloseFates(w: World, c: nat, ready: bool, d: nat, dropped: bool, taken: bool)
    requires Sound(w) && IsOpen(w, c) && Fated(w, d, dropped, taken)
    ensures var a := Close(c, ready); Fated(Next(w, a), d, dropped || Drops(w, a, d), taken || Takes(w, a, d))
  {
    assert ClientOwned(w.clients[c], c, w.pool.threads);
    OpenCounted(w.clients, c);
    ProcessedAlone(w.clients[c].work, w.register);
  }

  lemma StepFates(w: World, t: nat, move: Move, d: nat, dropped: bool, taken: bool)
    requires Sound(w) && t < |w.pool.threads| && Fated(w, d, dropped, taken)
    ensures var a := Step(t, move); Fated(Next(w, a), d, dropped || Drops(w, a, d), taken || Takes(w, a, d))
  {
    var th := w.pool.threads[t];
    if move.Finish? && th.phase.Busy? {
      assert ThreadOwned(w.clients, th, t) && th.added[|th.done|] == th.phase.job;
      assert SlotOwned(w.clients, th, t, |th.done|);
      assert ClientOwned(w.clients[th.phase.job], th.phase.job, w.pool.threads);
      ProcessedAlone(w.clients[th.phase.job].work, w.registers[t]);
    }
  }

  lemma NextFates(w: World, a: Action, d: nat, dropped: bool, taken: bool)
    requires Sound(w) && Fated(w, d, dropped, taken)
    ensures Fated(Next(w, a), d, dropped || Drops(w, a, d), taken || Takes(w, a, d))
  {
    match a
    case Close(c, ready) => if IsOpen(w, c) { CloseFates(w, c, ready, d, dropped, taken); }
    case Step(t, move) => if t < |w.pool.threads| { StepFates(w, t, move, d, dropped, taken); }
    case CutOff(c) => if IsOpen(w, c) { OpenCounted(w.clients, c); }
    case _ =>
  }

  lemma {:induction false} OpenCounted(clients: seq<Client>, c: nat)
    requires c < |clients| && clients[c].place.Open?
    ensures OpenCount(clients) > 0
    decreases |clients|
  {
    if c == |clients| - 1 {
    } else {
      OpenCounted(clients[..|clients| - 1], c);
    }
  }

  /** What one action adds to the connections and to the jobs. */
  lemma NextJobs(w: World, a: Action)
    requires Sound(w)
    ensures var v := Next(w, a);
      && v.pool.dispatched == w.pool.dispatched +
           (if w.pool.threads != [] && a.Close? && Takes(w, a, a.c) then [a.c] else [])
      && Works(v.clients) == Works(w.clients) +
           (if a.Accept? && w.loop.listening && !w.loop.left && Proper(a.work) then [a.work] else [])
  {
    match a
    case Close(c, ready) =>
      if IsOpen(w, c) {
        OpenCounted(w.clients, c);
        assert ClientOwned(w.clients[c], c, w.pool.threads);
      }
    case _ =>
  }

  function Works(clients: seq<Client>): (r: seq<Load>)
    ensures |r| == |clients|
  {
    seq(|clients|, c requires 0 <= c < |clients| => clients[c].work)
  }

  /** In every run: the connections are those accepted, in order; the jobs handed out are those taken, in order, if
      there are threads; and every connection is dropped, taken, or still open, as its own actions say. */
  lemma {:induction false} RunFates(threads: nat, actions: seq<Action>)
    ensures var w := Run(threads, actions);
      && Works(w.clients) == Loads(threads, actions)
      && w.pool.dispatched == (if threads == 0 then [] else Jobs(threads, actions))
      && forall c :: Fated(w, c, Dropped(threads, actions, c), Taken(threads, actions, c))
    decreases |actions|
  {
    if actions == [] {
    } else {
      var init, last := actions[..|actions| - 1], actions[|actions| - 1];
      RunKeeps(threads, init);
      RunFates(threads, init);
      var before := Run(threads, init);
      NextJobs(before, last);
      forall c
        ensures Fated(Next(before, last), c, Dropped(threads, actions, c), Taken(threads, actions, c))
      {
        NextFates(before, last, c, Dropped(threads, init, c), Taken(threads, init, c));
      }
    }
  }

  /** A job in slot `k` of thread `t`, before and after it is done. */
  predicate Placed(client: Client, t: nat, k: nat, answered: bool) {
    if answered
    then client.place.Dead? && client.frees == 1 && Proper(client.work)
         && client.result == Some(DecryptList(client.work.p, client.work.iv, client.work.ciphers))
    else client.place == Job(t, k) && client.frees == 0
  }

  lemma SlotPlaced(clients: seq<Client>, threads: seq<Thread>, t: nat, k: nat)
    requires Owned(clients, threads) && Results(clients, threads) && t < |threads| && k < |threads[t].added|
    ensures var c := threads[t].added[k]; c < |clients| && Placed(clients[c], t, k, k < |threads[t].done|)
  {
    var th := threads[t];
    assert ThreadOwned(clients, th, t) && SlotOwned(clients, th, t, k);
    assert ClientOwned(clients[th.added[k]], th.added[k], threads);
    assert Finished(clients, th);
    if k < |th.done| {
      assert Answered(clients[th.added[k]]);
    }
  }

  lemma RunPlaced(threads: nat, actions: seq<Action>, n: nat, t: nat, k: nat)
    requires n < |Run(threads, actions).pool.dispatched| && threads > 0 && t == n % threads && k == n / threads
    ensures var w := Run(threads, actions);
      && Owned(w.clients, w.pool.threads) && Results(w.clients, w.pool.threads)
      && |w.pool.threads| == threads && k < |w.pool.threads[t].added|
      && w.pool.threads[t].added[k] == w.pool.dispatched[n]
  {
    RunKeeps(threads, actions);
    RoundRobin(Run(threads, actions).pool, n);
  }

  /** Job number `n` goes to thread `n % threads` as its job `n / threads`, and its connection has been decrypted as if
      alone and deleted exactly if that thread has done that many jobs. */
  lemma JobAnswered(threads: nat, actions: seq<Action>, n: nat, t: nat, k: nat)
    requires threads > 0 && n < |Jobs(threads, actions)| && t == n % threads && k == n / threads
    ensures var w, c := Run(threads, actions), Jobs(threads, actions)[n];
      && |w.pool.threads| == threads && c < |w.clients|
      && Placed(w.clients[c], t, k, k < |w.pool.threads[t].done|)
  {
    RunFates(threads, actions);
    RunPlaced(threads, actions, n, t, k);
    var w := Run(threads, actions);
    SlotPlaced(w.clients, w.pool.threads, t, k);
  }

  /** A step of a thread is a step of that thread and of no other; the worker leaves once its exit is scheduled, and
      after that joining asks one thread to end. */
  lemma NextThreads(w: World, a: Action)
    requires Sound(w)
    ensures a.Step? && a.t < |w.pool.threads| ==>
              Next(w, a).pool.threads == w.pool.threads[a.t := AfterMove(w.pool.threads[a.t], a.move)]
    ensures a.Join? && a.t < |w.pool.threads| && w.loop.left ==>
              Next(w, a).pool.threads == w.pool.threads[a.t := w.pool.threads[a.t].(asked := true)]
    ensures a.Leave? ==> Next(w, a).loop.left == (w.loop.left || w.loop.exiting)
  {
  }
}
