/** The per-process state of network.cpp: configuration, the shared crypt instance, statistics and draining. */
module Server {
  import opened Bytes
  import opened Cipher
  import opened Packet
  import opened Crc
  import Rate
  import opened SpoolIndex

  class Network {
    const encryption: nat
    const password: seq<byte>
    const maxPacketAge: int
    const maxPacketAgeEnabled: bool
    const maxChecks: nat
    const threads: nat
    const sharedMode: bool
    const sharedIv: seq<byte>
    const algorithm: Option<Algorithm>
    const crcTable: array<bv64>
    const spool: ResultPathClient?

    var now: nat
    var connections: nat
    var counter: nat
    var counterPrev: nat
    var ring: seq<nat>
    var hasBase: bool
    var listening: bool
    var shutdownRequested: bool
    var exitScheduled: bool
    var timerArmed: bool
    var ci: CryptInstance?
    var useNetworkCi: bool
    var messageSuccess: nat
    var messageFailed: nat

    /** `constructor` and the configuration it reads; the CRC table was generated at start-up. */
    constructor (encryption: nat, password: seq<byte>, maxPacketAge: int, maxPacketAgeEnabled: bool, maxChecks: nat,
                 threads: nat, sharedMode: bool, sharedIv: seq<byte>, algorithm: Option<Algorithm>,
                 crcTable: array<bv64>, spool: ResultPathClient?, now: nat)
      requires |sharedIv| == IV_SIZE && IsTable(crcTable[..])
      ensures Valid() && ci == null && !useNetworkCi && connections == counter == counterPrev == 0
      ensures !hasBase && !listening && !shutdownRequested && !exitScheduled && !timerArmed
      ensures this.crcTable == crcTable && this.sharedMode == sharedMode && this.threads == threads
      ensures this.encryption == encryption && this.password == password && this.algorithm == algorithm
      ensures this.maxChecks == maxChecks && this.sharedIv == sharedIv
      ensures this.maxPacketAge == maxPacketAge && this.maxPacketAgeEnabled == maxPacketAgeEnabled && this.now == now
    {
      this.encryption, this.password, this.algorithm := encryption, password, algorithm;
      this.maxPacketAge, this.maxPacketAgeEnabled, this.maxChecks := maxPacketAge, maxPacketAgeEnabled, maxChecks;
      this.threads, this.sharedMode, this.sharedIv, this.crcTable := threads, sharedMode, sharedIv, crcTable;
      this.spool := spool;
      this.now, connections, counter, counterPrev := now, 0, 0, 0;
      ring := [0, 0, 0, 0, 0];
      hasBase, listening, shutdownRequested, exitScheduled, timerArmed := false, false, false, false, false;
      ci, useNetworkCi, messageSuccess, messageFailed := null, false, 0, 0;
    }

    ghost predicate Valid()
      reads this`ci, this`useNetworkCi, this`ring, crcTable
    {
      && |sharedIv| == IV_SIZE && IsTable(crcTable[..]) && |ring| == Rate.RPS_RESOLUTION
      && (useNetworkCi ==> ci != null && ci.transmittedIv == sharedIv && Fits(ci) && threads == 0 && sharedMode
                           && Usable(encryption, algorithm))
    }

    /** `instance` was initialised, and for this worker's method and password. */
    ghost predicate Fits(instance: CryptInstance) {
      && instance.ready
      && instance.iv == IvOf(encryption, instance.transmittedIv, algorithm)
      && instance.head == HeadOf(encryption, password, algorithm)
    }

    /** The secrets a client shares with this worker once it has been sent `iv`. */
    function ParamsFor(iv: seq<byte>): Params {
      Params(encryption, password, iv, HeadOf(encryption, password, algorithm))
    }

    /** The worker has an instance of its own exactly if it has no threads and shares one IV. */
    ghost predicate Chosen()
      reads this`ci, this`useNetworkCi
    {
      useNetworkCi == (threads == 0 && sharedMode) == (ci != null)
    }

    /** The state the constructor leaves when it does not throw. */
    ghost predicate Started()
      reads this`ci, this`useNetworkCi, ci
    {
      Chosen() && (ci != null ==> ci.Valid())
    }

    /** Only a worker without threads that shares one IV gets a crypt instance of its own; `ok` is false where the
        source throws. */
    method SelectCryptInstance() returns (ok: bool)
      requires Valid() && ci == null && !useNetworkCi
      modifies this`ci, this`useNetworkCi
      ensures Valid() && (ok ==> Started()) && (!ok ==> !useNetworkCi)
      ensures ok <==> threads > 0 || !sharedMode || Usable(encryption, algorithm)
      ensures ci != null ==> fresh(ci)
    {
      ok := true;
      if threads < 1 && sharedMode {
        ok, ci := EncryptInit(password, encryption, sharedIv, algorithm);
        useNetworkCi := ok;
      }
    }

    /** The parameters are 16 bits wide. */
    method ReportSuccessFailed(success: nat, failed: nat)
      modifies this`messageSuccess, this`messageFailed
      ensures messageSuccess == old(messageSuccess) + success % 0x1_0000
      ensures messageFailed == old(messageFailed) + failed % 0x1_0000
    {
      messageSuccess := messageSuccess + success % 0x1_0000;
      messageFailed := messageFailed + failed % 0x1_0000;
    }

    // ---- Timer and shutdown ---------------------------------------------------------------------------

    function Figures(): Rate.Rate
      reads this`counterPrev, this`ring
    {
      Rate.Rate(counterPrev, ring)
    }

    /** The figure written to the statistics file; the sum is a 64-bit one. */
    method SaveStatistics() returns (rps: nat)
      requires Valid()
      ensures rps == Rate.Sum(ring) % Rate.TWO_64 / Rate.RPS_RESOLUTION
    {
      var sum := 0;
      for i := 0 to Rate.RPS_RESOLUTION
        invariant sum == Rate.Sum(ring[..i]) % Rate.TWO_64
      {
        assert ring[..i + 1][..i] == ring[..i];
        sum := (sum + ring[i]) % Rate.TWO_64;
      }
      assert ring[..Rate.RPS_RESOLUTION] == ring;
      rps := sum / Rate.RPS_RESOLUTION;
    }

    /** The first half of `run`: the event base, the listener, the timer. */
    method Enter()
      modifies this`hasBase, this`listening, this`timerArmed
      ensures hasBase && listening && timerArmed
    {
      hasBase, listening := true, true;
      StartTimer();
    }

    method StartTimer()
      modifies this`timerArmed
      ensures timerArmed == (old(timerArmed) || hasBase)
    {
      if !hasBase {
        return;
      }
      timerArmed := true;
    }

    /** No new connections; leave if there is none, otherwise try again with the next tick. Without an event base
        nothing happens, and nothing is remembered. */
    method StopServer() returns (rc: int)
      modifies this`listening, this`shutdownRequested, this`exitScheduled
      ensures rc == 0 <==> hasBase && connections == 0
      ensures listening == (old(listening) && !hasBase)
      ensures exitScheduled == (old(exitScheduled) || (hasBase && connections == 0))
      ensures shutdownRequested == (old(shutdownRequested) || (hasBase && connections != 0))
    {
      if !hasBase {
        return 1;
      }
      listening := false;
      if connections != 0 {
        shutdownRequested := true;
        return 1;
      }
      exitScheduled := true;
      return 0;
    }

    method Sigint()
      modifies this`shutdownRequested
      ensures shutdownRequested
    {
      shutdownRequested := true;
    }

    /** The first half of the timer: the clock, the bucket whose turn it is, and every fifth second the statistics. */
    method Roll(time: nat) returns (saved: Option<nat>)
      requires Valid() && counterPrev <= counter
      modifies this`now, this`counterPrev, this`ring
      ensures Valid() && now == time && Figures() == Rate.Tick(old(Figures()), time, counter)
      ensures saved == if time % Rate.RPS_RESOLUTION == 0
                       then Some(Rate.Sum(ring) % Rate.TWO_64 / Rate.RPS_RESOLUTION) else None
    {
      now := time;
      var bucket := now % Rate.RPS_RESOLUTION;
      var diff := ToInt32(counter - counterPrev);
      counterPrev := counter;
      ring := ring[bucket := if diff < 0 then diff + Rate.TWO_64 else diff];
      saved := None;
      if bucket == 0 {
        var rps := SaveStatistics();
        saved := Some(rps);
      }
    }

    /** The timer fires once, at `time`, and is added again unless the exit has been scheduled. While the worker is not
        asked to shut down it also checks the spool; the other parameters are what that check finds. */
    method TimerTick(time: nat, inode: Option<nat>, entries: Option<seq<bool>>, rc: Option<nat>, seen: Option<nat>)
      returns (saved: Option<nat>)
      requires Valid() && hasBase && counterPrev <= counter
      modifies this`now, this`counterPrev, this`ring, this`timerArmed
      modifies this`listening, this`shutdownRequested, this`exitScheduled, spool
      ensures Valid() && now == time && Figures() == Rate.Tick(old(Figures()), time, counter)
      ensures saved == if time % Rate.RPS_RESOLUTION == 0
                       then Some(Rate.Sum(ring) % Rate.TWO_64 / Rate.RPS_RESOLUTION) else None
      ensures spool != null ==>
                spool.State() == if shutdownRequested || spool.maxFiles == 0 || spool.inotifyFd == -1
                                 then old(spool.State())
                                 else Examined(old(spool.State()), spool.maxFiles, inode,
                                               Attempt(Counted(entries), rc, seen))
      ensures shutdownRequested == old(shutdownRequested)
      ensures shutdownRequested ==> !listening && (timerArmed <==> connections != 0)
      ensures !shutdownRequested ==> listening == old(listening) && timerArmed
      ensures exitScheduled == (old(exitScheduled) || (shutdownRequested && connections == 0))
    {
      timerArmed := false;
      saved := Roll(time);
      if !shutdownRequested && spool != null {
        var asked := spool.Check(inode, entries, rc, seen);
      }
      if shutdownRequested {
        var stopped := StopServer();
        if stopped != 0 {
          timerArmed := true;
        }
      } else {
        timerArmed := true;
      }
    }
  }
}
