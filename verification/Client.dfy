/** network_client.cpp: one accepted connection from its first byte to its last free. A clause `!A || B`, where `A` is
    known, says `B` as one fact, which the verifier need not take apart at every call. */
module Client {
  import opened Bytes
  import opened Crc
  import opened Packet
  import opened Cipher
  import opened Framing
  import opened Delivery
  import opened Server

  /** One heap-allocated `data_packet_pair_t`. */
  class PacketPair {
    var packet: Plain
    const length: nat
    var freed: bool

    constructor (bytes: seq<byte>)
      requires |bytes| <= PACKET_SIZE
      ensures !freed && length == |bytes| && packet == Filled(bytes)
    {
      packet := Filled(bytes);
      length := |bytes|;
      freed := false;
    }

    /** The buffer routines work on the packet's own memory: `Load` stands for its address taken. */
    method Load() returns (buffer: array<byte>)
      ensures fresh(buffer) && buffer[..] == packet && buffer.Length == PACKET_SIZE
    {
      var bytes := packet;
      buffer := new byte[PACKET_SIZE](i requires 0 <= i < PACKET_SIZE => bytes[i]);
    }

    /** `free`: calling it twice is a precondition violation. */
    method Free()
      requires !freed
      modifies this`freed
      ensures freed
    {
      freed := true;
    }
  }

  // ---- Sinks ----------------------------------------------------------------------------------------

  /** What happened to one report: the result of each sink that was tried. */
  datatype Attempt = Attempt(report: Report, fifo: Option<bool>, spool: Option<bool>)

  /** The FIFO is tried first; the spool only when there is no FIFO or the FIFO write failed. */
  predicate Routed(a: Attempt, hasFifo: bool, hasSpool: bool) {
    && (a.fifo.Some? <==> hasFifo)
    && (a.spool.Some? <==> hasSpool && a.fifo != Some(true))
  }

  predicate Stored(a: Attempt) {
    a.fifo == Some(true) || a.spool == Some(true)
  }

  function StoredCount(log: seq<Attempt>): nat {
    if log == [] then 0 else StoredCount(log[..|log| - 1]) + if Stored(log[|log| - 1]) then 1 else 0
  }

  lemma {:induction false} StoredCounts(log: seq<Attempt>)
    ensures StoredCount(log) ==
            |set k | 0 <= k < |log| && (log[k].fifo == Some(true) || log[k].spool == Some(true))|
    decreases |log|
  {
    if log == [] {
    } else {
      var init, last := log[..|log| - 1], log[|log| - 1];
      StoredCounts(init);
      var before := set k | 0 <= k < |init| && (init[k].fifo == Some(true) || init[k].spool == Some(true));
      assert (set k | 0 <= k < |log| && (log[k].fifo == Some(true) || log[k].spool == Some(true))) ==
             before + if Stored(last) then {|init|} else {};
    }
  }

  /** The attempt made for one good packet. */
  predicate MadeFor(a: Attempt, verdict: Verdict, hasFifo: bool, hasSpool: bool) {
    a.report == verdict.report && Routed(a, hasFifo, hasSpool)
  }

  /** `sent` is the log of the first packets judged in `v`, with `good` of them stored and `bad` of them lost. */
  ghost predicate Counted(sent: seq<Attempt>, v: seq<Verdict>, hasFifo: bool, hasSpool: bool, good: int, bad: int) {
    && |sent| <= |v|
    && (forall k {:trigger MadeFor(sent[k], v[k], hasFifo, hasSpool)} :: 0 <= k < |sent| ==>
          MadeFor(sent[k], v[k], hasFifo, hasSpool))
    && good == StoredCount(sent)
    && good + bad == |sent|
  }

  lemma CountedSnoc(sent: seq<Attempt>, a: Attempt, v: seq<Verdict>, hasFifo: bool, hasSpool: bool, good: int, bad: int)
    requires Counted(sent, v, hasFifo, hasSpool, good, bad) && |sent| < |v|
    requires MadeFor(a, v[|sent|], hasFifo, hasSpool)
    ensures Counted(sent + [a], v, hasFifo, hasSpool,
                    good + (if Stored(a) then 1 else 0), bad + (if Stored(a) then 0 else 1))
  {
    assert (sent + [a])[..|sent|] == sent;
  }

  class Sinks {
    const hasFifo: bool
    const hasSpool: bool
    var log: seq<Attempt>

    constructor (hasFifo: bool, hasSpool: bool)
      ensures this.hasFifo == hasFifo && this.hasSpool == hasSpool && log == []
    {
      this.hasFifo, this.hasSpool, log := hasFifo, hasSpool, [];
    }

    /** Both writes may succeed or fail at will. */
    method Deliver(report: Report) returns (ok: bool)
      modifies this
      ensures |log| == |old(log)| + 1 && log[..|old(log)|] == old(log)
      ensures var a := log[|old(log)|];
        && a.report == report
        && (a.fifo.Some? <==> hasFifo) && (a.spool.Some? <==> hasSpool && !(hasFifo && a.fifo.value))
        && ok == (a.fifo == Some(true) || a.spool == Some(true))
    {
      ok := false;
      var fifo, spool := None, None;
      if hasFifo {
        var wrote: bool := *;
        fifo := Some(wrote);
        ok := wrote;
      }
      if !ok && hasSpool {
        var wrote: bool := *;
        spool := Some(wrote);
        ok := wrote;
      }
      log := log + [Attempt(report, fifo, spool)];
    }
  }

  // ---- The connection -------------------------------------------------------------------------------

  datatype Life = Connected | Detached | Deleted

  datatype InitPacket = InitPacket(iv: seq<byte>, timestamp: nat)

  /** What `connection_closed` did: no crypt instance, a job for the crypt threads, or everything done on the spot. */
  datatype Ending = Refused | HandedToThread | Finished

  /** What is demanded of packets that are examined at the times of `clock`. */
  function ConditionsOf(parent: Network, clock: nat -> nat): Exam {
    Exam(clock, parent.maxPacketAge, parent.maxPacketAgeEnabled)
  }

  class NetworkClient {
    const parent: Network
    const transmissionIv: Option<seq<byte>>
    /** What the worker's clock shows when packet `k` is examined: other threads run meanwhile. */
    const clock: nat -> nat
    var life: Life
    var initSent: bool
    var writing: bool
    var ci: CryptInstance?
    var hasOwnCi: bool
    var mcryptState: seq<byte>
    var failed: nat
    var success: nat
    var received: nat
    var drained: nat
    var packets: seq<PacketPair>
    var input: seq<byte>
    var output: seq<InitPacket>

    ghost predicate Valid()
      reads this, parent`ci, parent`useNetworkCi, parent`ring, parent.crcTable, packets
    {
      Buffered() && IvAgreed() && (life == Connected ==> NoCiYet())
    }

    /** While the socket is open the connection has the worker's shared crypt instance or none. */
    ghost predicate NoCiYet()
      reads this`ci, this`hasOwnCi, parent`ci, parent`useNetworkCi
    {
      !hasOwnCi && ci == if parent.useNetworkCi then parent.ci else null
    }

    ghost predicate Buffered()
      reads this`life, this`packets, this`input, this`received, packets
    {
      Allocated(packets) && |input| <= received && (life == Deleted ==> packets == [])
    }

    /** Whatever crypt instance the connection has, it carries the IV that was or will be sent; at most one init
        packet is ever queued. */
    ghost predicate IvAgreed()
      reads this`initSent, this`output, this`hasOwnCi, this`ci
      reads parent`ci, parent`useNetworkCi, parent`ring, parent.crcTable
    {
      && parent.Valid()
      && (parent.sharedMode <==> transmissionIv.None?)
      && (transmissionIv.Some? ==> |transmissionIv.value| == IV_SIZE)
      && (initSent <==> output != []) && |output| <= 1
      && (initSent ==> output[0].iv == AgreedIv())
      && (hasOwnCi ==> ci != null && transmissionIv.Some?)
      && (ci != null ==> ci.transmittedIv == AgreedIv() && parent.Fits(ci))
      && (parent.useNetworkCi ==> ci == parent.ci)
    }

    function AgreedIv(): seq<byte> {
      if transmissionIv.Some? then transmissionIv.value else parent.sharedIv
    }

    ghost function Queue(): (q: seq<Pair>)
      requires Allocated(packets)
      reads this`packets, packets
      ensures |q| == |packets|
    {
      Snapshot(packets)
    }

    ghost function View(): Conn
      requires Allocated(packets)
      reads this, packets
    {
      Conn(life == Connected, Queue(), input, received, drained)
    }

    /** `take_variables`; `iv` is what the generator produced. */
    constructor (parent: Network, iv: seq<byte>, clock: nat -> nat)
      requires parent.Valid() && |iv| == IV_SIZE
      modifies parent`counter, parent`connections
      ensures Valid() && View() == FRESH && packets == [] && failed == success == 0 && !initSent && !hasOwnCi
      ensures parent.counter == old(parent.counter) + 1 && parent.connections == old(parent.connections) + 1
      ensures this.parent == parent && this.clock == clock
      ensures transmissionIv == if parent.sharedMode then None else Some(iv)
      ensures ci == if parent.useNetworkCi then parent.ci else null
    {
      this.parent, this.clock := parent, clock;
      life, initSent, writing, hasOwnCi := Connected, false, true, false;
      failed, success, received, drained := 0, 0, 0, 0;
      packets, input, output, mcryptState := [], [], [], [];
      ci := if parent.useNetworkCi then parent.ci else null;
      transmissionIv := if parent.sharedMode then None else Some(iv);
      new;
      parent.counter := parent.counter + 1;
      parent.connections := parent.connections + 1;
    }

    /** Output is possible: the first time the init packet is queued, afterwards writing is switched off. */
    method WriteCb()
      requires IvAgreed() && life == Connected
      modifies this`output, this`initSent, this`writing
      ensures IvAgreed() && initSent
      ensures output == if old(initSent) then old(output) else [InitPacket(AgreedIv(), parent.now)]
      ensures writing == (old(writing) && !old(initSent))
    {
      if !initSent {
        var iv := if transmissionIv.Some? then transmissionIv.value else parent.sharedIv;
        output := output + [InitPacket(iv, parent.now)];
        initSent := true;
      } else {
        writing := false;
      }
    }

    /** The destructor: every packet still queued is freed here. Of `all` the client ever queued, the first `done` were
        freed earlier. */
    method Destroy(ghost all: seq<PacketPair>, ghost done: nat)
      requires done <= |all| && packets == all[done..] && Freed(all, done) && Allocated(packets) && life != Deleted
      modifies this`life, this`packets, packets
      ensures life == Deleted && packets == [] && Freed(all, |all|)
    {
      ghost var n := done;
      while |packets| > 0
        invariant done <= n <= |all| && packets == all[n..] && Freed(all, n) && Allocated(packets)
        invariant life == old(life)
        decreases |packets|
      {
        var front := packets[0];
        front.Free();
        packets := packets[1..];
        n := n + 1;
      }
      life := Deleted;
    }

    method ProperDestroy()
      requires Allocated(packets) && life == Connected && parent.connections > 0
      modifies this`life, this`packets, parent`connections, packets
      ensures life == Deleted && packets == [] && Freed(old(packets), |old(packets)|)
      ensures parent.connections == old(parent.connections) - 1
    {
      parent.connections := parent.connections - 1;
      Destroy(packets, 0);
    }

    /** A new pair, zeroed and filled from the buffer, goes to the back of the queue. */
    method Push(bytes: seq<byte>)
      requires Allocated(packets) && |bytes| <= PACKET_SIZE
      modifies this`packets
      ensures Allocated(packets) && |packets| == |old(packets)| + 1 && packets[..|old(packets)|] == old(packets)
      ensures fresh(packets[|old(packets)|])
      ensures Queue() == old(Queue()) + [Pair(Filled(bytes), |bytes|)]
    {
      var pair := new PacketPair(bytes);
      packets := packets + [pair];
    }

    /** libevent has appended `chunk` to the input buffer. */
    method ReadCb(chunk: seq<byte>)
      requires Buffered() && life == Connected && parent.connections > 0
      modifies this`life, this`packets, this`input, this`received, this`drained, parent`connections, packets
      ensures Buffered() && View() == Arrive(old(View()), parent.maxChecks, chunk)
      ensures forall k :: |old(packets)| <= k < |packets| ==> fresh(packets[k])
      ensures life == Connected ==> old(packets) <= packets
      ensures life == if View().open then Connected else Deleted
      ensures parent.connections == old(parent.connections) - if life == Deleted then 1 else 0
      ensures life == Deleted ==> Freed(old(packets), |old(packets)|)
    {
      input := input + chunk;
      received := received + |input|;
      if |input| < PACKET_SIZE {
        return;
      }
      if |packets| > parent.maxChecks {
        input := [];
        ProperDestroy();
        return;
      }
      Push(input[..PACKET_SIZE]);
      input := input[PACKET_SIZE..];
      drained := drained + PACKET_SIZE;
    }

    /** What processing a queue leaves alone, and what it changes only at its end. */
    twostate predicate Untouched()
      reads this`ci, parent`ci, parent`connections
    {
      ci == old(ci) && parent.ci == old(parent.ci) && parent.connections == old(parent.connections)
    }

    twostate predicate Unreported()
      reads parent`messageSuccess, parent`messageFailed
    {
      parent.messageSuccess == old(parent.messageSuccess) && parent.messageFailed == old(parent.messageFailed)
    }

    // ---- Processing -----------------------------------------------------------------------------------

    method SetCi(instance: CryptInstance)
      requires IvAgreed() && !parent.useNetworkCi && (hasOwnCi || transmissionIv.None?)
      requires !hasOwnCi ==> instance.transmittedIv == parent.sharedIv && parent.Fits(instance)
      modifies this`ci
      ensures IvAgreed() && ci == if hasOwnCi then old(ci) else instance
    {
      if hasOwnCi {
        return;
      }
      ci := instance;
    }

    /** The conditions on the packets of this connection. */
    function Conditions(): Exam {
      ConditionsOf(parent, clock)
    }

    method ExamineAge(pair: PacketPair, k: nat) returns (accepted: bool)
      ensures accepted <==> FreshEnough(Policy(clock(k), parent.maxPacketAge, parent.maxPacketAgeEnabled),
                                        NetLong(pair.packet, TIMESTAMP_AT))
    {
      if parent.maxPacketAgeEnabled && parent.maxPacketAge > 0 {
        var timestamp := NetLong(pair.packet, TIMESTAMP_AT);
        var difference := ToInt32(Distance(timestamp, clock(k)));
        if difference > parent.maxPacketAge {
          return false;
        }
      }
      return true;
    }

    /** The tests of the queue loop on packet `k`, decrypted; the CRC field is cleared on the way. */
    method Examine(pair: PacketPair, k: nat) returns (accepted: bool)
      requires parent.Valid() && pair.length <= PACKET_SIZE
      modifies pair`packet
      ensures accepted <==> Accepted(Conditions().At(k), old(pair.packet), pair.length)
      ensures accepted ==> pair.packet == ClearCrc(old(pair.packet))
    {
      if NetShort(pair.packet, VERSION_AT) != VERSION_3 {
        return false;
      }
      var packetCrc := StoredWord(pair.packet);
      pair.packet := ClearCrc(pair.packet);
      var buffer := pair.Load();
      var crc := Calculate(parent.crcTable, buffer, pair.length);
      StoredWordIsCrc(old(pair.packet), crc);
      if crc != packetCrc {
        return false;
      }
      assert NetLong(pair.packet, TIMESTAMP_AT) == NetLong(old(pair.packet), TIMESTAMP_AT);
      accepted := ExamineAge(pair, k);
    }

    /** Terminate the three strings and try the sinks. */
    method SendReceiveMessage(pair: PacketPair, sinks: Sinks)
      modifies pair`packet, sinks, this`success, this`failed
      ensures |sinks.log| == |old(sinks.log)| + 1 && sinks.log[..|old(sinks.log)|] == old(sinks.log)
      ensures var a := sinks.log[|old(sinks.log)|];
        && a.report == ReportOf(old(pair.packet)) && Routed(a, sinks.hasFifo, sinks.hasSpool)
        && success == old(success) + (if Stored(a) then 1 else 0)
        && failed == old(failed) + (if Stored(a) then 0 else 1)
    {
      pair.packet := pair.packet[HOST_AT + HOST_SIZE - 1 := 0];
      pair.packet := pair.packet[SERVICE_AT + SERVICE_SIZE - 1 := 0];
      pair.packet := pair.packet[OUTPUT_AT + OUTPUT_SIZE - 1 := 0];
      var report := ReportOf(pair.packet);
      ReportIgnoresTerminators(old(pair.packet), pair.packet);
      var stored := sinks.Deliver(report);
      if stored {
        success := success + 1;
      } else {
        failed := failed + 1;
      }
    }

    /** What the sinks and the counters show since the log was `log` and the counters were as given. */
    ghost predicate Tally(sinks: Sinks, log: seq<Attempt>, v: seq<Verdict>, n: nat, success0: int, failed0: int)
      reads this`success, this`failed, sinks
    {
      && log <= sinks.log && |sinks.log| == |log| + n
      && Counted(sinks.log[|log|..], v, sinks.hasFifo, sinks.hasSpool, success - success0, failed - failed0)
    }

    lemma TallySnoc(sinks: Sinks, log: seq<Attempt>, before: seq<Attempt>, v: seq<Verdict>, n: nat,
                    success0: int, failed0: int, good: int, bad: int)
      requires log <= before && |before| == |log| + n < |log| + |v|
      requires Counted(before[|log|..], v, sinks.hasFifo, sinks.hasSpool, good - success0, bad - failed0)
      requires |sinks.log| == |before| + 1 && sinks.log[..|before|] == before
      requires MadeFor(sinks.log[|before|], v[n], sinks.hasFifo, sinks.hasSpool)
      requires success == good + (if Stored(sinks.log[|before|]) then 1 else 0)
      requires failed == bad + (if Stored(sinks.log[|before|]) then 0 else 1)
      ensures Tally(sinks, log, v, n + 1, success0, failed0)
    {
      SuffixSnoc(before, sinks.log, |log|);
      CountedSnoc(before[|log|..], sinks.log[|before|], v, sinks.hasFifo, sinks.hasSpool,
                  good - success0, bad - failed0);
    }

    /** A good packet at the front: send it, free it, pop it. */
    method SendFront(sinks: Sinks, ghost log: seq<Attempt>, ghost v: seq<Verdict>, ghost n: nat,
                     ghost success0: int, ghost failed0: int)
      requires packets != [] && n < |v| && !packets[0].freed && v[n].report == ReportOf(packets[0].packet)
      requires Tally(sinks, log, v, n, success0, failed0)
      modifies this`packets, this`success, this`failed, packets[0], sinks
      ensures packets == old(packets)[1..] && old(packets)[0].freed
      ensures Tally(sinks, log, v, n + 1, success0, failed0)
    {
      var pair := packets[0];
      SendReceiveMessage(pair, sinks);
      TallySnoc(sinks, log, old(sinks.log), v, n, success0, failed0, old(success), old(failed));
      pair.Free();
      packets := packets[1..];
    }

    /** The second half of a turn of the queue loop: test the decrypted front packet, and send it if it is good. */
    method FinishFront(sinks: Sinks, ghost log: seq<Attempt>, ghost v: seq<Verdict>, n: nat,
                       ghost success0: int, ghost failed0: int) returns (accepted: bool)
      requires packets != [] && parent.Valid() && n < |v|
      requires !packets[0].freed && packets[0].length <= PACKET_SIZE
      requires v[n] == Judge(Conditions().At(n), Pair(packets[0].packet, packets[0].length))
      requires Tally(sinks, log, v, n, success0, failed0)
      modifies this`packets, this`success, this`failed, packets[0], sinks
      ensures accepted == v[n].good == old(packets)[0].freed
      ensures packets == if accepted then old(packets)[1..] else old(packets)
      ensures Tally(sinks, log, v, if accepted then n + 1 else n, success0, if accepted then failed0 else failed0 + 1)
    {
      ghost var plain := packets[0].packet;
      accepted := Examine(packets[0], n);
      if accepted {
        ReportIgnoresTerminators(packets[0].packet, plain);
        SendFront(sinks, log, v, n, success0, failed0);
      } else {
        failed := failed + 1;
      }
    }

    function Secrets(): Params
      requires ci != null
      reads this`ci
    {
      ci.Parameters(parent.encryption, parent.password)
    }

    /** The first half of a turn: decrypt the front packet in place. */
    method DecryptFront()
      requires ci != null && ci.Valid() && packets != []
      modifies packets[0], ci
      ensures packets[0].freed == old(packets[0].freed)
      ensures ci.Valid() && packets[0].packet == Decrypted(Secrets(), old(ci.register), old(packets[0].packet))
      ensures ci.register == Moved(Secrets(), old(ci.register), old(packets[0].packet))
    {
      var buffer := packets[0].Load();
      assert buffer[..] == buffer[..PACKET_SIZE];
      DecryptBuffer(buffer, PACKET_SIZE, parent.password, parent.encryption, ci);
      assert buffer[..] == buffer[..PACKET_SIZE];
      packets[0].packet := buffer[..];
    }

    /** `queue` is what `all` held at the start and `v` how it is judged; `n` packets have been handed over, and the
        rest opens under `reg`. */
    ghost predicate AtTurn(all: seq<PacketPair>, queue: seq<Pair>, v: seq<Verdict>, n: nat, reg: Register,
                           sinks: Sinks, log: seq<Attempt>, success0: int, failed0: int)
      reads this, all, sinks
    {
      && n <= |all| && packets == all[n..] && Freed(all, n) && Holds(all, queue, n)
      && ci != null && OpensFrom(Conditions(), Secrets(), reg, queue, v, n)
      && n <= GoodPrefix(v)
      && Tally(sinks, log, v, n, success0, failed0)
    }

    /** What both queue loops leave behind: exactly the longest good prefix has been handed over and freed, one
        rejected packet at most has been counted, and the rest is still queued. */
    ghost predicate Processed(all: seq<PacketPair>, v: seq<Verdict>, sinks: Sinks, log: seq<Attempt>,
                              success0: int, failed0: int)
      reads this, all, packets, sinks
    {
      var n := GoodPrefix(v);
      && |all| == |v| && packets == all[n..] && Freed(all, n) && Allocated(packets)
      && Accounted(v, sinks, log, success0, failed0)
    }

    /** With mcrypt, there is a saved state of the size of the IV. */
    predicate StateFits()
      requires ci != null
      reads this`ci, this`mcryptState
    {
      parent.encryption > ENCRYPT_XOR ==> |mcryptState| == |ci.iv|
    }

    /** Decryption within a turn. With mcrypt the register is set from the IV for the first packet and from the saved
        state for the others, and saved again afterwards. */
    method OpenFront(first: bool)
      requires packets != [] && ci != null && ci.Valid() && StateFits()
      modifies this`mcryptState, packets[0], ci
      ensures ci.Valid() && StateFits() && packets[0].freed == old(packets[0].freed)
      ensures packets[0].packet == Decrypted(Secrets(), old(StartRegister(first)), old(packets[0].packet))
      ensures StartRegister(false) == Moved(Secrets(), old(StartRegister(first)), old(packets[0].packet))
    {
      if parent.encryption > ENCRYPT_XOR {
        ci.SetState(if first then ci.iv else mcryptState);
      }
      DecryptFront();
      if parent.encryption > ENCRYPT_XOR {
        mcryptState := ci.register;
      }
    }

    /** One turn of a queue loop, for the front packet alone. */
    method FrontTurn(first: bool, sinks: Sinks, ghost log: seq<Attempt>, ghost v: seq<Verdict>, n: nat,
                     ghost success0: int, ghost failed0: int) returns (accepted: bool)
      requires packets != [] && parent.Valid() && n < |v| && ci != null && ci.Valid()
      requires !packets[0].freed && packets[0].length <= PACKET_SIZE
      requires StateFits()
      requires v[n] == JudgeUnder(Conditions().At(n), Secrets(), StartRegister(first),
                                  Pair(packets[0].packet, packets[0].length))
      requires Tally(sinks, log, v, n, success0, failed0)
      modifies this`packets, this`success, this`failed, this`mcryptState, packets[0], ci, sinks
      ensures ci.Valid() && StateFits()
      ensures StartRegister(false) == Moved(Secrets(), old(StartRegister(first)), old(packets[0].packet))
      ensures accepted == v[n].good == old(packets)[0].freed
      ensures packets == if accepted then old(packets)[1..] else old(packets)
      ensures Tally(sinks, log, v, if accepted then n + 1 else n, success0, if accepted then failed0 else failed0 + 1)
    {
      OpenFront(first);
      accepted := FinishFront(sinks, log, v, n, success0, failed0);
    }

    /** The register the next packet will be decrypted with. */
    function StartRegister(first: bool): Register
      requires ci != null
      reads this, ci
    {
      if parent.encryption <= ENCRYPT_XOR then ci.register else if first then ci.iv else mcryptState
    }

    /** The `i`-th turn of a queue loop is next; it opens the front packet, if there is one. */
    ghost predicate BeforeTurn(i: nat, all: seq<PacketPair>, queue: seq<Pair>, v: seq<Verdict>, sinks: Sinks,
                               log: seq<Attempt>, success0: int, failed0: int)
      reads this, parent, parent.crcTable, ci, all, sinks
    {
      && parent.Valid() && ci != null && ci.Valid() && StateFits() && Distinct(all)
      && 1 <= i <= |all| + 1 && |packets| == |all| - i + 1
      && AtTurn(all, queue, v, i - 1, StartRegister(i == 1), sinks, log, success0, failed0)
    }

    /** The same turn seen from the whole queue. */
    method Turn(i: nat, sinks: Sinks, ghost all: seq<PacketPair>, ghost queue: seq<Pair>, ghost v: seq<Verdict>,
                ghost log: seq<Attempt>, ghost success0: int, ghost failed0: int)
      returns (accepted: bool)
      requires |packets| > 0
      requires |packets| == 0 || BeforeTurn(i, all, queue, v, sinks, log, success0, failed0)
      modifies this`packets, this`success, this`failed, this`mcryptState, all, ci, sinks
      ensures Untouched() && Unreported()
      ensures !accepted || BeforeTurn(i + 1, all, queue, v, sinks, log, success0, failed0)
      ensures accepted ==> |packets| < |old(packets)|
      ensures accepted || (ci != null && ci.Valid() && Processed(all, v, sinks, log, success0, failed0))
    {
      accepted := TurnAt(i == 1, sinks, all, queue, v, i - 1, log, success0, failed0);
    }

    /** Packet `n` of `all` is at the front. */
    method TurnAt(first: bool, sinks: Sinks, ghost all: seq<PacketPair>, ghost queue: seq<Pair>,
                  ghost v: seq<Verdict>, n: nat, ghost log: seq<Attempt>, ghost success0: int,
                  ghost failed0: int) returns (accepted: bool)
      requires parent.Valid() && ci != null && ci.Valid() && n < |all| && StateFits() && Distinct(all)
      requires n >= |all| || AtTurn(all, queue, v, n, StartRegister(first), sinks, log, success0, failed0)
      modifies this`packets, this`success, this`failed, this`mcryptState, all[n], ci, sinks
      ensures Untouched() && Unreported()
      ensures parent.Valid() && ci.Valid() && StateFits()
      ensures accepted ==> |packets| == |all| - n - 1
      ensures !accepted || AtTurn(all, queue, v, n + 1, StartRegister(false), sinks, log, success0, failed0)
      ensures accepted || Processed(all, v, sinks, log, success0, failed0)
    {
      OpensNext(Conditions(), Secrets(), StartRegister(first), queue, v, n);
      assert all[n..][1..] == all[n + 1..];
      accepted := FrontTurn(first, sinks, log, v, n, success0, failed0);
      TurnTaken(all, queue, v, n, StartRegister(false), sinks, log, success0, failed0, accepted);
    }

    /** One turn later: the front packet is gone if it was good, and the others are as they were. */
    ghost predicate AfterTurn(all: seq<PacketPair>, queue: seq<Pair>, v: seq<Verdict>, n: nat, reg: Register,
                              sinks: Sinks, log: seq<Attempt>, success0: int, failed0: int, accepted: bool)
      reads this, all, sinks
    {
      && n < |all| && n < |v| && accepted == v[n].good == all[n].freed
      && packets == all[if accepted then n + 1 else n..] && Freed(all, n) && Holds(all, queue, n + 1)
      && ci != null && OpensFrom(Conditions(), Secrets(), reg, queue, v, n + 1)
      && all[n].length <= PACKET_SIZE && n <= GoodPrefix(v)
      && Tally(sinks, log, v, if accepted then n + 1 else n, success0, if accepted then failed0 else failed0 + 1)
    }

    lemma TurnTaken(all: seq<PacketPair>, queue: seq<Pair>, v: seq<Verdict>, n: nat, reg: Register, sinks: Sinks,
                    log: seq<Attempt>, success0: int, failed0: int, accepted: bool)
      requires Distinct(all) && AfterTurn(all, queue, v, n, reg, sinks, log, success0, failed0, accepted)
      ensures accepted ==> AtTurn(all, queue, v, n + 1, reg, sinks, log, success0, failed0)
      ensures !accepted ==> Processed(all, v, sinks, log, success0, failed0)
    {
      GoodPrefixGrows(v, n);
    }

    lemma QueueEnded(i: nat, all: seq<PacketPair>, queue: seq<Pair>, v: seq<Verdict>, sinks: Sinks, log: seq<Attempt>,
                     success0: int, failed0: int)
      requires packets == []
      requires packets != [] || BeforeTurn(i, all, queue, v, sinks, log, success0, failed0)
      ensures ci != null && ci.Valid() && Processed(all, v, sinks, log, success0, failed0)
    {
    }

    lemma QueueStarts(queue: seq<Pair>, v: seq<Verdict>, sinks: Sinks)
      requires Allocated(packets) && queue == Queue() && parent.Valid() && ci != null && ci.Valid() && StateFits()
      requires v == Verdicts(Conditions(), Secrets(), StartRegister(true), queue)
      ensures packets == packets[0..] && BeforeTurn(1, packets, queue, v, sinks, sinks.log, success, failed)
    {
      assert queue[0..] == queue;
    }

    method ProcessQueueMcrypt(sinks: Sinks, ghost v: seq<Verdict>)
      requires Allocated(packets) && parent.Valid() && parent.encryption > ENCRYPT_XOR
      requires ci != null && ci.Valid() && v == Verdicts(Conditions(), Secrets(), ci.iv, Queue())
      modifies this`packets, this`success, this`failed, this`mcryptState, packets, ci, sinks
      ensures Untouched() && Unreported()
      ensures ci.Valid()
      ensures Processed(old(packets), v, sinks, old(sinks.log), old(success), old(failed))
    {
      mcryptState := ci.iv;
      QueueStarts(Queue(), v, sinks);
      QueueLoop(sinks, packets, Queue(), v, sinks.log);
    }

    /** Without mcrypt the register plays no part. */
    method ProcessQueueNomcrypt(sinks: Sinks, ghost v: seq<Verdict>)
      requires Allocated(packets) && parent.Valid() && parent.encryption <= ENCRYPT_XOR
      requires ci != null && ci.Valid() && v == Verdicts(Conditions(), Secrets(), ci.iv, Queue())
      modifies this`packets, this`success, this`failed, this`mcryptState, packets, ci, sinks
      ensures Untouched() && Unreported()
      ensures ci.Valid()
      ensures Processed(old(packets), v, sinks, old(sinks.log), old(success), old(failed))
    {
      VerdictsIgnoreRegister(Conditions(), Secrets(), ci.iv, ci.register, Queue());
      QueueStarts(Queue(), v, sinks);
      QueueLoop(sinks, packets, Queue(), v, sinks.log);
    }

    /** The loop both versions share. */
    method QueueLoop(sinks: Sinks, ghost all: seq<PacketPair>, ghost queue: seq<Pair>, ghost v: seq<Verdict>,
                     ghost log: seq<Attempt>)
      requires BeforeTurn(1, all, queue, v, sinks, log, success, failed)
      modifies this`packets, this`success, this`failed, this`mcryptState, all, ci, sinks
      ensures Untouched() && Unreported()
      ensures ci != null && ci.Valid() && Processed(all, v, sinks, log, old(success), old(failed))
    {
      var i := 1;
      while |packets| > 0
        invariant Untouched() && Unreported()
        invariant i < 1 || BeforeTurn(i, all, queue, v, sinks, log, old(success), old(failed))
        decreases |packets|
      {
        var accepted := Turn(i, sinks, all, queue, v, log, old(success), old(failed));
        if !accepted {
          return;
        }
        i := i + 1;
      }
      QueueEnded(i, all, queue, v, sinks, log, old(success), old(failed));
    }

    // ---- The end of the connection --------------------------------------------------------------------

    method WorkOff(sinks: Sinks, ghost v: seq<Verdict>)
      requires Allocated(packets) && parent.Valid()
      requires ci != null && ci.Valid() && v == Verdicts(Conditions(), Secrets(), ci.iv, Queue())
      modifies this`packets, this`success, this`failed, this`mcryptState, packets, ci, sinks
      ensures Untouched() && Unreported()
      ensures ci.Valid()
      ensures Processed(old(packets), v, sinks, old(sinks.log), old(success), old(failed))
    {
      if parent.encryption > ENCRYPT_XOR {
        ProcessQueueMcrypt(sinks, v);
      } else {
        ProcessQueueNomcrypt(sinks, v);
      }
    }

    /** The end of every processed connection: its totals are reported, and what is left of it is freed. */
    method ReportAndDestroy(ghost all: seq<PacketPair>, ghost v: seq<Verdict>, ghost sinks: Sinks,
                            ghost log: seq<Attempt>, ghost success0: int, ghost failed0: int)
      requires life != Deleted && ci != null && ci.Valid()
      requires life == Deleted || Processed(all, v, sinks, log, success0, failed0)
      modifies this`life, this`packets, all, parent`messageSuccess, parent`messageFailed
      ensures Untouched()
      ensures ci.Valid() && life == Deleted
      ensures life != Deleted || (Gone(all) && Accounted(v, sinks, log, success0, failed0))
      ensures Reported(old(parent.messageSuccess), old(parent.messageFailed))
    {
      parent.ReportSuccessFailed(success, failed);
      Destroy(all, GoodPrefix(v));
    }

    ghost predicate Reported(success0: nat, failed0: nat)
      reads this`success, this`failed, parent`messageSuccess, parent`messageFailed
    {
      parent.messageSuccess == success0 + success % 0x1_0000 && parent.messageFailed == failed0 + failed % 0x1_0000
    }

    /** The queue is worked off, the totals are reported, and the client and all its packets are freed. */
    method ProcessQueue(sinks: Sinks, ghost v: seq<Verdict>)
      requires Allocated(packets) && life == Detached && parent.Valid()
      requires ci != null && ci.Valid() && v == Verdicts(Conditions(), Secrets(), ci.iv, Queue())
      modifies this`packets, this`success, this`failed, this`mcryptState, this`life, packets, ci, sinks
      modifies parent`messageSuccess, parent`messageFailed
      ensures Untouched()
      ensures ci.Valid()
      ensures life == Deleted
      ensures life != Deleted ||
                (Gone(old(packets)) && Accounted(v, sinks, old(sinks.log), old(success), old(failed)))
      ensures life != Deleted || Reported(old(parent.messageSuccess), old(parent.messageFailed))
    {
      WorkOff(sinks, v);
      ReportAndDestroy(old(packets), v, sinks, old(sinks.log), old(success), old(failed));
    }

    /** What the sinks and the counters have to show for a queue judged as in `v`. */
    ghost predicate Accounted(v: seq<Verdict>, sinks: Sinks, log: seq<Attempt>, success0: int, failed0: int)
      reads this`success, this`failed, sinks
    {
      Tally(sinks, log, v, GoodPrefix(v), success0, failed0 + if GoodPrefix(v) < |v| then 1 else 0)
    }

    /** With one IV per connection, the connection needs a crypt instance of its own. */
    method PrepareCi() returns (ok: bool)
      requires IvAgreed()
      modifies this`ci, this`hasOwnCi
      ensures ok ==> IvAgreed()
      ensures ok <==> parent.sharedMode || Usable(parent.encryption, parent.algorithm)
      ensures !parent.sharedMode ==> hasOwnCi == ok && fresh(ci) && (ok ==> ci.Valid())
      ensures parent.sharedMode ==> ok && ci == old(ci) && hasOwnCi == old(hasOwnCi)
    {
      ok := true;
      if !parent.sharedMode {
        ok, ci := EncryptInit(parent.password, parent.encryption, transmissionIv.value, parent.algorithm);
        hasOwnCi := ok;
      }
    }

    /** The whole of `queue`, opened under the IV the client was sent, is accounted for. */
    ghost predicate Settled(queue: seq<Pair>, sinks: Sinks, log: seq<Attempt>, success0: int, failed0: int)
      reads this, sinks
    {
      && |AgreedIv()| == IV_SIZE
      && Accounted(Expected(queue), sinks, log, success0, failed0)
    }

    /** How `queue` has to be judged for a client that encrypts with the IV it was sent. */
    ghost function Expected(queue: seq<Pair>): (v: seq<Verdict>)
      requires |AgreedIv()| == IV_SIZE
    {
      Verdicts(Conditions(), parent.ParamsFor(AgreedIv()),
               IvOf(parent.encryption, AgreedIv(), parent.algorithm), queue)
    }

    /** Processing with the crypt instance at hand: the client is gone afterwards and its queue is settled. */
    method Process(sinks: Sinks)
      requires Allocated(packets) && IvAgreed() && life == Detached && ci != null && ci.Valid()
      modifies this`life, this`packets, this`success, this`failed, this`mcryptState
      modifies packets, ci, sinks, parent`messageSuccess, parent`messageFailed
      ensures Untouched()
      ensures ci.Valid()
      ensures Gone(old(packets)) && Settled(old(Queue()), sinks, old(sinks.log), old(success), old(failed))
    {
      assert Secrets() == parent.ParamsFor(AgreedIv());
      ProcessQueue(sinks, Expected(Queue()));
    }

    /** Nothing has been processed: the client goes with all its packets. */
    method Discard()
      requires Allocated(packets) && life == Detached
      modifies this`life, this`packets, packets
      ensures Untouched()
      ensures life == Deleted
      ensures life != Deleted || Gone(old(packets))
    {
      Destroy(packets, 0);
    }

    /** Process here, leave it to a thread, or find nothing to do. */
    method Settle(sinks: Sinks) returns (ending: Ending)
      requires Allocated(packets) && IvAgreed() && life == Detached && (hasOwnCi <==> !parent.sharedMode)
      requires (ci == null || ci.Valid()) && (parent.threads == 0 ==> ci != null) && (hasOwnCi ==> ci.Valid())
      modifies this`life, this`packets, this`success, this`failed, this`mcryptState
      modifies packets, ci, sinks, parent`messageSuccess, parent`messageFailed
      ensures Untouched()
      ensures ci == null || ci.Valid()
      ensures ending != HandedToThread ||
                (Waiting(old(packets), old(Queue()), old(success), old(failed)) && sinks.log == old(sinks.log))
      ensures ending != Finished ||
                (Gone(old(packets)) && Settled(old(Queue()), sinks, old(sinks.log), old(success), old(failed)))
      ensures ending != Refused
    {
      if |packets| > 0 {
        if parent.threads > 0 {
          return HandedToThread;
        }
        Process(sinks);
      } else {
        Discard();
      }
      return Finished;
    }

    method Detach() returns (ok: bool)
      requires Valid() && life == Connected && parent.connections > 0 && parent.Started()
      modifies this`life, this`ci, this`hasOwnCi, parent`connections
      ensures parent.connections == old(parent.connections) - 1 && life == Detached
      ensures parent.ci == null || (ok && parent.ci == ci)
      ensures Allocated(packets) && Queue() == old(Queue())
      ensures ok ==> IvAgreed() && (hasOwnCi <==> !parent.sharedMode)
      ensures ok ==> (ci == null || ci.Valid()) && (parent.threads == 0 ==> ci != null)
      ensures ci == null || ci == parent.ci || fresh(ci)
      ensures ok <==> parent.sharedMode || Usable(parent.encryption, parent.algorithm)
    {
      parent.connections := parent.connections - 1;
      life := Detached;
      ok := PrepareCi();
    }

    method ConnectionClosed(sinks: Sinks) returns (ending: Ending)
      requires Valid() && life == Connected && parent.connections > 0 && parent.Started()
      modifies this`life, this`ci, this`hasOwnCi, this`packets, this`success, this`failed, this`mcryptState
      modifies packets, parent.ci, sinks, parent`connections, parent`messageSuccess, parent`messageFailed
      ensures parent.ci == old(parent.ci) && parent.connections == old(parent.connections) - 1
      ensures parent.ci == null || parent.ci.Valid()
      ensures ci == null || ci == parent.ci || fresh(ci)
      ensures ending != HandedToThread ||
                (Waiting(old(packets), old(Queue()), old(success), old(failed)) && sinks.log == old(sinks.log))
      ensures ending != Finished ||
                (Gone(old(packets)) && Settled(old(Queue()), sinks, old(sinks.log), old(success), old(failed)))
      ensures ending == Refused <==> !parent.sharedMode && !Usable(parent.encryption, parent.algorithm)
      ensures ending != Refused || (Gone(old(packets)) && sinks.log == old(sinks.log))
    {
      var ok := Detach();
      assert packets == old(packets) && success == old(success) && failed == old(failed) && sinks.log == old(sinks.log);
      if !ok {
        Discard();
        return Refused;
      }
      ending := Settle(sinks);
    }

    /** Handed to the crypt threads with its packets `all`, which read `queue`, untouched. */
    ghost predicate Waiting(all: seq<PacketPair>, queue: seq<Pair>, success0: int, failed0: int)
      reads this, parent, parent.crcTable, packets, ci
    {
      && life == Detached && packets == all != [] && Allocated(packets) && Queue() == queue
      && IvAgreed() && (hasOwnCi <==> !parent.sharedMode) && (hasOwnCi ==> ci.Valid()) && parent.threads > 0
      && success == success0 && failed == failed0
    }

    /** Destroyed, and every packet it ever queued freed. */
    ghost predicate Gone(all: seq<PacketPair>)
      reads this`life, this`packets, all
    {
      life == Deleted && packets == [] && Freed(all, |all|)
    }

    /** What is buffered at the end of the stream is queued if the connection looks like one old-format packet. */
    method TakeOldPacket()
      requires Buffered() && life == Connected
      modifies this`packets, this`input
      ensures Buffered() && Queue() == Close(old(View())) && old(packets) <= packets
      ensures forall k :: |old(packets)| <= k < |packets| ==> fresh(packets[k])
    {
      if received == OLD_PACKET_SIZE && drained == 0 {
        Push(input);
        input := [];
      }
    }

    /** The event that ends the stream. `all` is every packet the connection ever queued, the old-format one
        included. */
    method EventCb(sinks: Sinks) returns (ending: Ending, ghost all: seq<PacketPair>)
      requires Valid() && life == Connected && parent.connections > 0 && parent.Started()
      modifies this`life, this`ci, this`hasOwnCi, this`packets, this`success, this`failed, this`mcryptState, this`input
      modifies packets, parent.ci, sinks, parent`connections, parent`messageSuccess, parent`messageFailed
      ensures parent.ci == old(parent.ci) && parent.connections == old(parent.connections) - 1
      ensures |all| == |Close(old(View()))| && old(packets) <= all
      ensures parent.ci == null || parent.ci.Valid()
      ensures ci == null || ci == parent.ci || fresh(ci)
      ensures forall k :: |old(packets)| <= k < |all| ==> fresh(all[k])
      ensures ending == Refused <==> !parent.sharedMode && !Usable(parent.encryption, parent.algorithm)
      ensures ending != Refused || (Gone(all) && sinks.log == old(sinks.log))
      ensures ending != HandedToThread ||
                (Waiting(all, Close(old(View())), old(success), old(failed)) && sinks.log == old(sinks.log))
      ensures ending != Finished ||
                (Gone(all) && Settled(Close(old(View())), sinks, old(sinks.log), old(success), old(failed)))
    {
      TakeOldPacket();
      all := packets;
      ending := ConnectionClosed(sinks);
    }

    /** What a crypt thread does with the job: it lends its instance, unless the connection has its own. */
    method RunJob(instance: CryptInstance, sinks: Sinks)
      requires Allocated(packets) && IvAgreed() && life == Detached && (hasOwnCi <==> !parent.sharedMode)
      requires !parent.useNetworkCi && (hasOwnCi ==> ci.Valid())
      requires !hasOwnCi ==> instance.Valid() && instance.transmittedIv == parent.sharedIv && parent.Fits(instance)
      modifies this`ci, this`life, this`packets, this`success, this`failed, this`mcryptState
      modifies packets, ci, instance, sinks, parent`messageSuccess, parent`messageFailed
      ensures parent.ci == old(parent.ci) && parent.connections == old(parent.connections)
      ensures ci != null && ci.Valid()
      ensures ci == if parent.sharedMode then instance else old(ci)
      ensures Gone(old(packets)) && Settled(old(Queue()), sinks, old(sinks.log), old(success), old(failed))
    {
      SetCi(instance);
      assert packets == old(packets) && Queue() == old(Queue());
      assert success == old(success) && failed == old(failed) && sinks.log == old(sinks.log);
      Process(sinks);
    }
  }

  ghost predicate Freed(all: seq<PacketPair>, n: nat)
    reads all
  {
    forall k :: 0 <= k < n && k < |all| ==> all[k].freed
  }

  ghost predicate Distinct(all: seq<PacketPair>) {
    forall i, j :: 0 <= i < j < |all| ==> all[i] != all[j]
  }

  /** From `n` on, the objects of `all` are live and as recorded in `queue`. */
  ghost predicate Holds(all: seq<PacketPair>, queue: seq<Pair>, n: nat)
    reads all
  {
    |all| == |queue| && forall k :: n <= k < |all| ==> Live(all[k], queue[k])
  }

  ghost predicate Live(pair: PacketPair, entry: Pair)
    reads pair
  {
    !pair.freed && pair.length == entry.length <= PACKET_SIZE && pair.packet == entry.bytes
  }

  /** Distinct live packets of full size. */
  ghost predicate Allocated(packets: seq<PacketPair>)
    reads packets
  {
    && (forall i :: 0 <= i < |packets| ==>
          !packets[i].freed && packets[i].length <= PACKET_SIZE)
    && Distinct(packets)
  }

  ghost function Snapshot(packets: seq<PacketPair>): (q: seq<Pair>)
    requires Allocated(packets)
    reads packets
    ensures |q| == |packets|
  {
    seq(|packets|, i requires 0 <= i < |packets| reads packets => Pair(packets[i].packet, packets[i].length))
  }
}
