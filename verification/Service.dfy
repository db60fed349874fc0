/** One whole connection, from accept to the last free, and what correct clients can rely on. A clause `!A || B`, where
    `A` is known, says `B` as one fact, which the verifier need not take apart at every call. */
module Service {
  import opened Bytes
  import opened Packet
  import opened Cipher
  import opened Framing
  import opened Delivery
  import opened Server
  import opened Client
  import opened Wire

  /** A thread's instance carries the IV that clients are sent in shared mode, and its cipher is set up. */
  ghost predicate Agrees(parent: Network, instance: CryptInstance)
    reads instance
  {
    instance.Valid() && instance.transmittedIv == parent.sharedIv && parent.Fits(instance)
  }

  /** `threadManager::start`: one instance per thread, made from the shared IV. Whether `encrypt_init` failed is not
      looked at, so all of them agree with the clients if the algorithm is usable, and none if it is not. */
  method StartThreads(parent: Network) returns (instances: seq<CryptInstance>)
    requires parent.Valid()
    ensures |instances| == parent.threads
    ensures forall i :: 0 <= i < |instances| ==> fresh(instances[i])
    ensures forall i, j :: 0 <= i < j < |instances| ==> instances[i] != instances[j]
    ensures forall i :: 0 <= i < |instances| ==>
              (Agrees(parent, instances[i]) <==> Usable(parent.encryption, parent.algorithm))
  {
    instances := [];
    for n := 0 to parent.threads
      invariant |instances| == n && forall i :: 0 <= i < n ==> fresh(instances[i])
      invariant forall i, j :: 0 <= i < j < n ==> instances[i] != instances[j]
      invariant forall i :: 0 <= i < n ==>
                  (Agrees(parent, instances[i]) <==> Usable(parent.encryption, parent.algorithm))
    {
      var ok, instance := EncryptInit(parent.password, parent.encryption, parent.sharedIv, parent.algorithm);
      instances := instances + [instance];
    }
  }

  /** The instance of the crypt thread that will get the job; nothing is known about its register. In shared mode it has
      to be set up: the code would run the job on it all the same. */
  ghost predicate ThreadReady(parent: Network, instance: CryptInstance?)
    reads instance
  {
    parent.threads > 0 ==>
      instance != null
      && (parent.sharedMode ==> Usable(parent.encryption, parent.algorithm) && Agrees(parent, instance))
  }

  /** The worker can serve a connection, and so can the thread that will get its job. */
  ghost predicate InService(parent: Network, instance: CryptInstance?)
    reads parent, parent.ci, parent.crcTable, instance
  {
    parent.Valid() && parent.Started() && ThreadReady(parent, instance)
  }

  /** A worker starts: the instances of its threads, and its own. Unless the source throws, it can serve connections
      afterwards: without threads, with any of them in unshared mode, and in shared mode if there is a usable
      algorithm. */
  method StartUp(parent: Network) returns (ok: bool, instances: seq<CryptInstance>)
    requires parent.Valid() && parent.ci == null && !parent.useNetworkCi
    modifies parent`ci, parent`useNetworkCi
    ensures |instances| == parent.threads
    ensures ok && parent.threads == 0 ==> InService(parent, null)
    ensures ok && (!parent.sharedMode || Usable(parent.encryption, parent.algorithm)) ==>
              forall i :: 0 <= i < |instances| ==> InService(parent, instances[i])
  {
    instances := StartThreads(parent);
    ok := parent.SelectCryptInstance();
  }

  /** The connection has been sent its init packet, and its framing state is `c`. */
  ghost predicate Receiving(client: NetworkClient, c: Conn, others: nat)
    reads client, client.parent, client.parent.crcTable, client.packets
  {
    && client.Buffered() && client.IvAgreed() && client.NoCiYet() && client.View() == c
    && client.life == (if c.open then Connected else Deleted)
    && client.parent.connections == others + (if c.open then 1 else 0)
    && client.success == client.failed == 0
    && client.output == [InitPacket(client.AgreedIv(), client.parent.now)]
  }

  /** One read callback, as long as there is a connection to read from. */
  method Chunk(client: NetworkClient, chunk: seq<byte>, ghost c: Conn, ghost others: nat)
    requires Receiving(client, c, others)
    modifies client`life, client`packets, client`input, client`received, client`drained
    modifies client.parent`connections, client.packets
    ensures Receiving(client, Arrive(c, client.parent.maxChecks, chunk), others)
    ensures forall k :: |old(client.packets)| <= k < |client.packets| ==> fresh(client.packets[k])
    ensures client.packets == [] || old(client.packets) <= client.packets
  {
    if client.life == Connected {
      client.ReadCb(chunk);
    }
  }

  /** `chunks` arrive one after the other. */
  method Arrivals(client: NetworkClient, chunks: seq<seq<byte>>, ghost others: nat)
    requires client.packets == [] && Receiving(client, FRESH, others)
    modifies client`life, client`packets, client`input, client`received, client`drained, client.parent`connections
    ensures Receiving(client, Run(client.parent.maxChecks, chunks), others)
    ensures forall k :: 0 <= k < |client.packets| ==> fresh(client.packets[k])
  {
    for i := 0 to |chunks|
      invariant Receiving(client, Run(client.parent.maxChecks, chunks[..i]), others)
      invariant forall k :: 0 <= k < |client.packets| ==> fresh(client.packets[k])
    {
      assert chunks[..i + 1][..i] == chunks[..i];
      Chunk(client, chunks[i], Run(client.parent.maxChecks, chunks[..i]), others);
    }
    assert chunks[..|chunks|] == chunks;
  }

  /** A connection is accepted, sent its init packet, and receives `chunks`. */
  method Receive(parent: Network, iv: seq<byte>, clock: nat -> nat, chunks: seq<seq<byte>>)
    returns (client: NetworkClient)
    requires parent.Valid() && |iv| == IV_SIZE
    modifies parent`counter, parent`connections
    ensures fresh(client) && client.parent == parent && client.clock == clock
    ensures Receiving(client, Run(parent.maxChecks, chunks), old(parent.connections))
    ensures forall k :: 0 <= k < |client.packets| ==> fresh(client.packets[k])
    ensures client.AgreedIv() == if parent.sharedMode then parent.sharedIv else iv
  {
    client := new NetworkClient(parent, iv, clock);
    client.WriteCb();
    Arrivals(client, chunks, old(parent.connections));
  }

  /** The connection up to the end of its stream. */
  method Listen(parent: Network, iv: seq<byte>, clock: nat -> nat, chunks: seq<seq<byte>>, instance: CryptInstance?)
    returns (client: NetworkClient)
    requires |iv| == IV_SIZE
    requires |iv| != IV_SIZE || InService(parent, instance)
    modifies parent`counter, parent`connections
    ensures fresh(client) && client.parent == parent && client.clock == clock
    ensures forall k :: 0 <= k < |client.packets| ==> fresh(client.packets[k])
    ensures client.AgreedIv() == if parent.sharedMode then parent.sharedIv else iv
    ensures client.life == if Run(parent.maxChecks, chunks).open then Connected else Deleted
    ensures parent.connections == old(parent.connections) + if client.life == Connected then 1 else 0
    ensures client.life != Connected ||
            (client.Valid() && client.View() == Run(parent.maxChecks, chunks) && client.success == client.failed == 0)
    ensures |iv| != IV_SIZE || InService(parent, instance)
  {
    client := Receive(parent, iv, clock, chunks);
  }

  /** The stream ends, and whoever gets the job runs it. */
  method Finish(client: NetworkClient, instance: CryptInstance?, sinks: Sinks)
    requires client.life == Connected && client.parent.connections > 0
    requires client.life != Connected || (client.Valid() && InService(client.parent, instance))
    modifies client, client.packets, client.parent.ci, instance, sinks
    modifies client.parent`connections, client.parent`messageSuccess, client.parent`messageFailed
    ensures client.life == Deleted && client.parent.connections == old(client.parent.connections) - 1
    ensures client.parent.ci == null || client.parent.ci.Valid()
    ensures ThreadReady(client.parent, instance)
    ensures !Usable(client.parent.encryption, client.parent.algorithm) ||
            client.Settled(old(Close(client.View())), sinks, old(sinks.log), old(client.success), old(client.failed))
    ensures Usable(client.parent.encryption, client.parent.algorithm) || sinks.log == old(sinks.log)
  {
    var ending, all := client.EventCb(sinks);
    if ending == HandedToThread {
      client.RunJob(instance, sinks);
    }
  }

  lemma BackInService(parent: Network, instance: CryptInstance?)
    requires parent.Valid() && parent.Chosen() && (parent.ci == null || parent.ci.Valid())
    requires ThreadReady(parent, instance)
    ensures InService(parent, instance)
  {
  }

  /** Afterwards worker and thread are as ready as before. */
  method End(client: NetworkClient, instance: CryptInstance?, sinks: Sinks)
    requires client.life == Connected && client.parent.connections > 0
    requires client.life != Connected || (client.Valid() && InService(client.parent, instance))
    modifies client, client.packets, client.parent.ci, instance, sinks
    modifies client.parent`connections, client.parent`messageSuccess, client.parent`messageFailed
    ensures client.life == Deleted && client.parent.connections == old(client.parent.connections) - 1
    ensures client.life != Deleted || InService(client.parent, instance)
    ensures !Usable(client.parent.encryption, client.parent.algorithm) ||
            client.Settled(old(Close(client.View())), sinks, old(sinks.log), old(client.success), old(client.failed))
    ensures Usable(client.parent.encryption, client.parent.algorithm) || sinks.log == old(sinks.log)
  {
    Finish(client, instance, sinks);
    BackInService(client.parent, instance);
  }

  /** The whole life of a connection; a crypt thread takes the job if there are any. Connections that are cut off or
      have no usable algorithm leave no trace in the sinks, and whatever happens, worker and thread are ready for the
      next one. */
  method Serve(parent: Network, iv: seq<byte>, clock: nat -> nat, chunks: seq<seq<byte>>, instance: CryptInstance?,
               sinks: Sinks) returns (client: NetworkClient)
    requires |iv| == IV_SIZE
    requires |iv| != IV_SIZE || InService(parent, instance)
    modifies parent`counter, parent`connections, parent`messageSuccess, parent`messageFailed
    modifies parent.ci, instance, sinks
    ensures fresh(client) && client.parent == parent && client.clock == clock
    ensures client.life == Deleted && parent.connections == old(parent.connections)
    ensures client.life != Deleted || InService(parent, instance)
    ensures client.AgreedIv() == if parent.sharedMode then parent.sharedIv else iv
    ensures !Run(parent.maxChecks, chunks).open || !Usable(parent.encryption, parent.algorithm) ||
            client.Settled(Close(Run(parent.maxChecks, chunks)), sinks, old(sinks.log), 0, 0)
    ensures !Run(parent.maxChecks, chunks).open || !Usable(parent.encryption, parent.algorithm) ==>
              sinks.log == old(sinks.log)
  {
    client := Listen(parent, iv, clock, chunks, instance);
    if client.life == Connected {
      End(client, instance, sinks);
    }
  }

  function Told(log: seq<Attempt>): (r: seq<Report>)
    ensures |r| == |log|
  {
    seq(|log|, i requires 0 <= i < |log| => log[i].report)
  }

  /** The FIFO was tried exactly if there is one, and the spool exactly if there is one and the FIFO did not take it. */
  predicate AllRouted(sent: seq<Attempt>, hasFifo: bool, hasSpool: bool) {
    forall k :: 0 <= k < |sent| ==>
      && (sent[k].fifo.Some? <==> hasFifo)
      && (sent[k].spool.Some? <==> hasSpool && sent[k].fifo != Some(true))
  }

  lemma CountedIsHanded(sent: seq<Attempt>, v: seq<Verdict>, hasFifo: bool, hasSpool: bool, good: int, bad: int)
    requires Counted(sent, v, hasFifo, hasSpool, good, bad) && |sent| == GoodPrefix(v)
    ensures Told(sent) == Handed(v) && good == StoredCount(sent) && good + bad == |sent|
    ensures AllRouted(sent, hasFifo, hasSpool)
  {
    forall k | 0 <= k < |sent|
      ensures sent[k].report == v[k].report && Routed(sent[k], hasFifo, hasSpool)
    {
      assert MadeFor(sent[k], v[k], hasFifo, hasSpool);
    }
  }

  /** Any settled queue: the reports of its longest good prefix have been offered to the sinks once and in order,
      success is the number that a sink took, and failure counts the others, and one packet more if one was rejected. */
  lemma SettledMeans(client: NetworkClient, queue: seq<Pair>, sinks: Sinks, log: seq<Attempt>)
    requires |client.AgreedIv()| == IV_SIZE && client.Settled(queue, sinks, log, 0, 0)
    ensures var v := client.Expected(queue); var n := GoodPrefix(v);
      && log <= sinks.log && Told(sinks.log[|log|..]) == Handed(v) && |Handed(v)| == n
      && AllRouted(sinks.log[|log|..], sinks.hasFifo, sinks.hasSpool)
      && client.success == StoredCount(sinks.log[|log|..])
      && client.success + client.failed == n + if n < |queue| then 1 else 0
  {
    var v := client.Expected(queue);
    CountedIsHanded(sinks.log[|log|..], v, sinks.hasFifo, sinks.hasSpool, client.success,
                    client.failed - if GoodPrefix(v) < |v| then 1 else 0);
  }

  /** Since the log was `log`, each packet's report has been offered to the sinks once, in order; success counts those
      that a sink took, and failure the others. */
  ghost predicate AllOffered(client: NetworkClient, plains: seq<Plain>, sinks: Sinks, log: seq<Attempt>)
    reads client, sinks
  {
    && log <= sinks.log && Told(sinks.log[|log|..]) == ReportsOf(plains)
    && AllRouted(sinks.log[|log|..], sinks.hasFifo, sinks.hasSpool)
    && client.success == StoredCount(sinks.log[|log|..]) && client.success + client.failed == |plains|
  }

  /** The delivery guarantee. The client encrypted good packets from the IV it was sent: each one is offered to the
      sinks exactly once and in order, and success and failure add up to the number sent. */
  lemma Delivered(client: NetworkClient, plains: seq<Plain>, chunks: seq<seq<byte>>, sinks: Sinks, log: seq<Attempt>)
    requires |client.AgreedIv()| == IV_SIZE
    requires client.Settled(Close(Run(client.parent.maxChecks, chunks)), sinks, log, 0, 0)
    requires Sends(client.Conditions(), client.parent.ParamsFor(client.AgreedIv()),
                   IvOf(client.parent.encryption, client.AgreedIv(), client.parent.algorithm), plains, chunks)
    requires |plains| <= client.parent.maxChecks + 1
    ensures AllOffered(client, plains, sinks, log)
  {
    var iv := client.AgreedIv();
    var p, start := client.parent.ParamsFor(iv), IvOf(client.parent.encryption, iv, client.parent.algorithm);
    EndToEnd(client.Conditions(), p, start, plains, chunks, client.parent.maxChecks);
    var v := client.Expected(Close(Run(client.parent.maxChecks, chunks)));
    assert |Handed(v)| == |plains|;
    CutAll(client.parent.maxChecks, AsPackets(EncryptList(p, start, plains)), chunks);
    assert GoodPrefix(v) == |v|;
    CountedIsHanded(sinks.log[|log|..], v, sinks.hasFifo, sinks.hasSpool, client.success, client.failed);
  }

  /** What a correct client does: it encrypts `plains` from the IV it is sent, and its stream arrives as `chunks`. Each
      packet is good at the second at which it will be examined. */
  datatype Visit = Visit(iv: seq<byte>, plains: seq<Plain>, chunks: seq<seq<byte>>, clock: nat -> nat)

  ghost predicate Correct(parent: Network, visit: Visit) {
    var sent := if parent.sharedMode then parent.sharedIv else visit.iv;
    && |visit.iv| == |sent| == IV_SIZE
    && Sends(ConditionsOf(parent, visit.clock), parent.ParamsFor(sent), IvOf(parent.encryption, sent, parent.algorithm),
             visit.plains, visit.chunks)
  }

  /** It does not send more than the worker takes from one connection, and the worker has a cipher to read it. */
  predicate Welcome(parent: Network, visit: Visit) {
    Usable(parent.encryption, parent.algorithm) && |visit.plains| <= parent.maxChecks + 1
  }

  /** The connection of a correct client from accept to the last free. Within the limit every report is offered to the
      sinks exactly once and in order; beyond it none is. */
  method ServeClient(parent: Network, visit: Visit, instance: CryptInstance?, sinks: Sinks)
    returns (client: NetworkClient)
    requires Correct(parent, visit)
    requires |visit.iv| != IV_SIZE || InService(parent, instance)
    modifies parent`counter, parent`connections, parent`messageSuccess, parent`messageFailed
    modifies parent.ci, instance, sinks
    ensures client.life == Deleted && parent.connections == old(parent.connections)
    ensures client.life != Deleted || InService(parent, instance)
    ensures !Welcome(parent, visit) || AllOffered(client, visit.plains, sinks, old(sinks.log))
    ensures Welcome(parent, visit) || sinks.log == old(sinks.log)
  {
    ghost var sent := if parent.sharedMode then parent.sharedIv else visit.iv;
    OpenWithinLimit(ConditionsOf(parent, visit.clock), parent.ParamsFor(sent),
                    IvOf(parent.encryption, sent, parent.algorithm), visit.plains, visit.chunks, parent.maxChecks);
    client := Serve(parent, visit.iv, visit.clock, visit.chunks, instance, sinks);
    if Welcome(parent, visit) {
      Delivered(client, visit.plains, visit.chunks, sinks, old(sinks.log));
    }
  }

  // ---- In terms of what was said --------------------------------------------------------------------------

  /** A sender lays out `reports` byte by byte, dates and seals them, encrypts them from the IV it is sent, and sends
      them in any arrivals; no packet is too old when it is examined. */
  ghost predicate Sending(parent: Network, iv: seq<byte>, clock: nat -> nat, reports: seq<Report>, times: seq<nat>,
                          chunks: seq<seq<byte>>) {
    var sent := if parent.sharedMode then parent.sharedIv else iv;
    && |iv| == |sent| == IV_SIZE && |times| == |reports|
    && (forall i :: 0 <= i < |reports| ==> Sayable(reports[i], OUTPUT_FIELD) && times[i] < 0x1_0000_0000)
    && (forall i :: 0 <= i < |reports| ==>
          Passable(Policy(clock(i), parent.maxPacketAge, parent.maxPacketAgeEnabled), times[i]))
    && Bounded(chunks)
    && Concat(chunks) == Concat(EncryptList(parent.ParamsFor(sent),
                                            IvOf(parent.encryption, sent, parent.algorithm), Packs(reports, times)))
  }

  lemma SenderIsCorrect(parent: Network, iv: seq<byte>, clock: nat -> nat, reports: seq<Report>, times: seq<nat>,
                        chunks: seq<seq<byte>>)
    requires Sending(parent, iv, clock, reports, times, chunks)
    ensures Correct(parent, Visit(iv, Packs(reports, times), chunks, clock))
    ensures ReportsOf(Packs(reports, times)) == reports
  {
    PacksReported(ConditionsOf(parent, clock), reports, times);
  }

  /** One attempt for each of `reports`, in order, with its very values; `success` is the number of those that a sink
      has taken. */
  ghost predicate Arrived(attempts: seq<Attempt>, reports: seq<Report>, hasFifo: bool, hasSpool: bool, success: int,
                          failed: int) {
    && |attempts| == |reports| && (forall k :: 0 <= k < |reports| ==> attempts[k].report == reports[k])
    && AllRouted(attempts, hasFifo, hasSpool)
    && success == |set k | 0 <= k < |attempts| && (attempts[k].fifo == Some(true) || attempts[k].spool == Some(true))|
    && success + failed == |reports|
  }

  lemma OfferedArrived(client: NetworkClient, plains: seq<Plain>, sinks: Sinks, log: seq<Attempt>)
    requires AllOffered(client, plains, sinks, log)
    ensures Arrived(sinks.log[|log|..], ReportsOf(plains), sinks.hasFifo, sinks.hasSpool, client.success, client.failed)
  {
    var attempts := sinks.log[|log|..];
    forall k | 0 <= k < |attempts|
      ensures attempts[k].report == Told(attempts)[k]
    {
    }
    StoredCounts(attempts);
  }

  /** Host, service, return code and output of every report arrive at the sinks as they were said, once and in order. */
  method ServeSender(parent: Network, iv: seq<byte>, clock: nat -> nat, reports: seq<Report>, times: seq<nat>,
                     chunks: seq<seq<byte>>, instance: CryptInstance?, sinks: Sinks) returns (client: NetworkClient)
    requires Sending(parent, iv, clock, reports, times, chunks)
    requires Usable(parent.encryption, parent.algorithm) && |reports| <= parent.maxChecks + 1
    requires |iv| != IV_SIZE || InService(parent, instance)
    modifies parent`counter, parent`connections, parent`messageSuccess, parent`messageFailed
    modifies parent.ci, instance, sinks
    ensures client.life == Deleted && parent.connections == old(parent.connections)
    ensures client.life != Deleted || InService(parent, instance)
    ensures old(sinks.log) <= sinks.log
    ensures client.life != Deleted ||
            Arrived(sinks.log[|old(sinks.log)|..], reports, sinks.hasFifo, sinks.hasSpool, client.success,
                    client.failed)
  {
    SenderIsCorrect(parent, iv, clock, reports, times, chunks);
    client := ServeClient(parent, Visit(iv, Packs(reports, times), chunks, clock), instance, sinks);
    OfferedArrived(client, Packs(reports, times), sinks, old(sinks.log));
  }

  function ReportsFrom(parent: Network, visit: Visit): seq<Report> {
    if Welcome(parent, visit) then ReportsOf(visit.plains) else []
  }

  /** What these clients have to say, one after the other. */
  function Reports(parent: Network, visits: seq<Visit>): seq<Report>
    decreases |visits|
  {
    if visits == [] then [] else
      Reports(parent, visits[..|visits| - 1]) + ReportsFrom(parent, visits[|visits| - 1])
  }

  lemma ToldNext(base: seq<Attempt>, log: seq<Attempt>, longer: seq<Attempt>)
    requires base <= log <= longer
    ensures Told(longer[|base|..]) == Told(log[|base|..]) + Told(longer[|log|..])
  {
  }

  /** The totals one connection reports: packets taken by a sink, and packets lost. */
  datatype Totals = Totals(success: nat, failed: nat)

  /** The totals of the welcome clients add up to what they sent. */
  ghost predicate Complete(parent: Network, visits: seq<Visit>, totals: seq<Totals>) {
    && |totals| == |visits|
    && forall k :: 0 <= k < |visits| && Welcome(parent, visits[k]) ==>
         totals[k].success + totals[k].failed == |visits[k].plains|
  }

  /** Since the log was `base`, all reports of all welcome clients have been offered to the sinks, once and in order. */
  ghost predicate AllServed(parent: Network, visits: seq<Visit>, totals: seq<Totals>, log: seq<Attempt>,
                            base: seq<Attempt>) {
    base <= log && Told(log[|base|..]) == Reports(parent, visits) && Complete(parent, visits, totals)
  }

  lemma OneMoreComplete(parent: Network, visits: seq<Visit>, totals: seq<Totals>, last: Totals)
    requires visits != [] && Complete(parent, visits[..|visits| - 1], totals)
    requires Welcome(parent, visits[|visits| - 1]) ==> last.success + last.failed == |visits[|visits| - 1].plains|
    ensures Complete(parent, visits, totals + [last])
  {
    var init := visits[..|visits| - 1];
    forall k | 0 <= k < |init|
      ensures init[k] == visits[k]
    {
    }
  }

  lemma OneMoreServed(parent: Network, visits: seq<Visit>, totals: seq<Totals>, log: seq<Attempt>, base: seq<Attempt>,
                      last: Totals, longer: seq<Attempt>)
    requires visits != [] && AllServed(parent, visits[..|visits| - 1], totals, log, base)
    requires log <= longer
    requires Told(longer[|log|..]) == ReportsFrom(parent, visits[|visits| - 1])
    requires Welcome(parent, visits[|visits| - 1]) ==> last.success + last.failed == |visits[|visits| - 1].plains|
    ensures AllServed(parent, visits, totals + [last], longer, base)
  {
    OneMoreComplete(parent, visits, totals, last);
    ToldNext(base, log, longer);
  }

  /** The last of `visits`, after the others. */
  method ServeLast(parent: Network, visits: seq<Visit>, totals: seq<Totals>, instance: CryptInstance?, sinks: Sinks,
                   ghost base: seq<Attempt>) returns (more: seq<Totals>)
    requires visits != [] && Correct(parent, visits[|visits| - 1])
    requires visits == [] || InService(parent, instance)
    requires visits == [] || AllServed(parent, visits[..|visits| - 1], totals, sinks.log, base)
    modifies parent`counter, parent`connections, parent`messageSuccess, parent`messageFailed
    modifies parent.ci, instance, sinks
    ensures parent.connections == old(parent.connections)
    ensures visits == [] || InService(parent, instance)
    ensures visits == [] || AllServed(parent, visits, more, sinks.log, base)
  {
    var client := ServeClient(parent, visits[|visits| - 1], instance, sinks);
    var last := Totals(client.success, client.failed);
    OneMoreServed(parent, visits, totals, old(sinks.log), base, last, sinks.log);
    more := totals + [last];
  }

  /** Correct clients, served one after the other by the same worker and the same thread, whose instance keeps the
      register that each of them leaves behind: all reports of all clients within the limit are offered to the sinks
      exactly once and in order. */
  method ServeAll(parent: Network, visits: seq<Visit>, instance: CryptInstance?, sinks: Sinks)
    returns (totals: seq<Totals>)
    requires forall k :: 0 <= k < |visits| ==> Correct(parent, visits[k])
    requires InService(parent, instance)
    modifies parent`counter, parent`connections, parent`messageSuccess, parent`messageFailed
    modifies parent.ci, instance, sinks
    ensures |totals| == |visits| && parent.connections == old(parent.connections)
    ensures |totals| != |visits| || InService(parent, instance)
    ensures |totals| != |visits| || AllServed(parent, visits, totals, sinks.log, old(sinks.log))
    decreases |visits|
  {
    if visits == [] {
      totals := [];
    } else {
      totals := ServeAll(parent, visits[..|visits| - 1], instance, sinks);
      totals := ServeLast(parent, visits, totals, instance, sinks, old(sinks.log));
    }
  }
}
