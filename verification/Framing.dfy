/** How a connection cuts the byte stream it receives into packets: what readcb and eventcb of network_client.cpp do
    to the packet queue, and why the result does not depend on how the stream was cut into arrivals. */
module Framing {
  import opened Bytes
  import opened Packet

  /** One queued `data_packet_pair_t`: a packet-sized buffer, of which `length` bytes were received. */
  datatype Pair = Pair(bytes: Plain, length: nat)

  /** The fields framing works on. `input` is the connection's input buffer. */
  datatype Conn = Conn(open: bool, queue: seq<Pair>, input: seq<byte>, received: nat, drained: nat)

  const FRESH := Conn(true, [], [], 0, 0)

  /** What `calloc` and `evbuffer_remove` leave in a packet buffer: what was received, and zeros. */
  function Filled(bytes: seq<byte>): (p: Plain)
    requires |bytes| <= PACKET_SIZE
    ensures bytes <= p && forall i :: |bytes| <= i < PACKET_SIZE ==> p[i] == 0
    ensures |bytes| == PACKET_SIZE ==> p == bytes
  {
    bytes + seq(PACKET_SIZE - |bytes|, _ => 0)
  }

  /** `chunk` reaches the input buffer and the read callback runs once. */
  function Arrive(c: Conn, limit: nat, chunk: seq<byte>): Conn {
    var input, received := c.input + chunk, c.received + |c.input + chunk|;
    if !c.open then c
    else if |input| < PACKET_SIZE then c.(input := input, received := received)
    else if |c.queue| > limit then Conn(false, [], [], received, c.drained)
    else Conn(true, c.queue + [Pair(input[..PACKET_SIZE], PACKET_SIZE)], input[PACKET_SIZE..], received,
              c.drained + PACKET_SIZE)
  }

  function Run(limit: nat, chunks: seq<seq<byte>>): (c: Conn)
    ensures |c.input| <= c.received
    decreases |chunks|
  {
    if chunks == [] then FRESH else Arrive(Run(limit, chunks[..|chunks| - 1]), limit, chunks[|chunks| - 1])
  }

  /** The end of the stream: a connection that looks like one old-format packet queues what it has buffered. */
  predicate LooksOld(c: Conn) {
    c.received == OLD_PACKET_SIZE && c.drained == 0
  }

  function Close(c: Conn): seq<Pair>
    requires |c.input| <= c.received
  {
    if LooksOld(c) then c.queue + [Pair(Filled(c.input), |c.input|)] else c.queue
  }

  // ---- The reference: the stream cut at multiples of the packet size --------------------------------

  function Frames(stream: seq<byte>): (f: seq<Plain>)
    ensures |f| == |stream| / PACKET_SIZE
    decreases |stream|
  {
    if |stream| < PACKET_SIZE then [] else [stream[..PACKET_SIZE]] + Frames(stream[PACKET_SIZE..])
  }

  function Rest(stream: seq<byte>): (r: seq<byte>)
    ensures |r| == |stream| % PACKET_SIZE
    decreases |stream|
  {
    if |stream| < PACKET_SIZE then stream else Rest(stream[PACKET_SIZE..])
  }

  function Full(frames: seq<Plain>): (q: seq<Pair>)
    ensures |q| == |frames|
  {
    seq(|frames|, i requires 0 <= i < |frames| => Pair(frames[i], PACKET_SIZE))
  }

  lemma FramesCons(head: Plain, tail: seq<byte>)
    ensures Frames(head + tail) == [head] + Frames(tail) && Rest(head + tail) == Rest(tail)
  {
    assert (head + tail)[..PACKET_SIZE] == head && (head + tail)[PACKET_SIZE..] == tail;
  }

  lemma ConcatCons(head: seq<byte>, rest: seq<seq<byte>>, end: seq<byte>)
    ensures Concat([head] + rest) + end == head + (Concat(rest) + end)
  {
    assert ([head] + rest)[1..] == rest;
  }

  lemma {:induction false} NothingLost(stream: seq<byte>)
    ensures Concat(Frames(stream)) + Rest(stream) == stream
    decreases |stream|
  {
    if |stream| < PACKET_SIZE {
    } else {
      var head, tail := stream[..PACKET_SIZE], stream[PACKET_SIZE..];
      assert head + tail == stream;
      NothingLost(tail);
      FramesCons(head, tail);
      ConcatCons(head, Frames(tail), Rest(tail));
    }
  }

  lemma {:induction false} FramesOfConcat(packets: seq<Plain>)
    ensures Frames(Concat(packets)) == packets && Rest(Concat(packets)) == []
    decreases |packets|
  {
    if packets == [] {
    } else {
      assert Concat(packets)[..PACKET_SIZE] == packets[0];
      assert Concat(packets)[PACKET_SIZE..] == Concat(packets[1..]);
      FramesOfConcat(packets[1..]);
    }
  }

  /** One bounded arrival completes at most one packet. */
  lemma {:induction false} FramesSnoc(stream: seq<byte>, chunk: seq<byte>)
    requires |chunk| <= PACKET_SIZE
    ensures var input := Rest(stream) + chunk;
      if |input| < PACKET_SIZE then Frames(stream + chunk) == Frames(stream) && Rest(stream + chunk) == input
      else Frames(stream + chunk) == Frames(stream) + [input[..PACKET_SIZE]]
           && Rest(stream + chunk) == input[PACKET_SIZE..]
    decreases |stream|
  {
    if |stream| < PACKET_SIZE {
      assert Frames(stream) == [] && Rest(stream) == stream;
    } else {
      var tail := stream[PACKET_SIZE..];
      assert (stream + chunk)[..PACKET_SIZE] == stream[..PACKET_SIZE];
      assert (stream + chunk)[PACKET_SIZE..] == tail + chunk;
      FramesSnoc(tail, chunk);
    }
  }

  predicate Bounded(chunks: seq<seq<byte>>) {
    forall i :: 0 <= i < |chunks| ==> |chunks[i]| <= PACKET_SIZE
  }

  /** The connection survives exactly while at most limit + 1 packets have been completed, and then its queue and
      buffer are the reference cut of the stream, however the stream arrived. */
  lemma {:induction false} ChunkingIndependent(limit: nat, chunks: seq<seq<byte>>)
    requires Bounded(chunks)
    ensures var c, stream := Run(limit, chunks), Concat(chunks);
      && (c.open <==> |stream| / PACKET_SIZE <= limit + 1)
      && (c.open ==> c.queue == Full(Frames(stream)) && c.input == Rest(stream)
                     && c.drained == |Frames(stream)| * PACKET_SIZE)
      && (!c.open ==> c.queue == [])
    decreases |chunks|
  {
    if chunks == [] {
    } else {
      var init, last := chunks[..|chunks| - 1], chunks[|chunks| - 1];
      ChunkingIndependent(limit, init);
      assert chunks == init + [last];
      ConcatSnoc(init, last);
      var c, stream := Run(limit, init), Concat(init);
      FramesSnoc(stream, last);
      if c.open && |c.input + last| >= PACKET_SIZE {
        assert Full(Frames(stream) + [(c.input + last)[..PACKET_SIZE]]) ==
               c.queue + [Pair((c.input + last)[..PACKET_SIZE], PACKET_SIZE)];
      }
    }
  }

  /** No queue ever holds more than limit + 1 packets, whatever arrives. */
  lemma {:induction false} QueueBounded(limit: nat, chunks: seq<seq<byte>>)
    ensures |Run(limit, chunks).queue| <= limit + 1
    decreases |chunks|
  {
    if chunks == [] {
    } else {
      QueueBounded(limit, chunks[..|chunks| - 1]);
    }
  }

  // ---- Arrivals of any size ---------------------------------------------------------------------------

  /** The packets that the first `k` arrivals complete. */
  function Completed(chunks: seq<seq<byte>>, k: nat): nat
    requires k <= |chunks|
  {
    |Concat(chunks[..k])| / PACKET_SIZE
  }

  /** The arrivals from number `k` on complete at most one packet each, and `spare` more. */
  predicate Within(chunks: seq<seq<byte>>, k: nat, spare: nat)
    requires k <= |chunks|
  {
    Completed(chunks, |chunks|) - Completed(chunks, k) <= |chunks| - k + spare
  }

  /** The complete packets that have not been queued are those in the buffer. */
  lemma {:induction false} Waiting(limit: nat, chunks: seq<seq<byte>>)
    requires Run(limit, chunks).open
    ensures var c := Run(limit, chunks);
      && |Concat(chunks)| == |c.input| + |c.queue| * PACKET_SIZE
      && |c.input| / PACKET_SIZE == Completed(chunks, |chunks|) - |c.queue|
    decreases |chunks|
  {
    var n, c := |chunks|, Run(limit, chunks);
    if n == 0 {
    } else {
      Waiting(limit, chunks[..n - 1]);
      assert chunks == chunks[..n - 1] + [chunks[n - 1]];
      ConcatSnoc(chunks[..n - 1], chunks[n - 1]);
    }
    assert chunks[..n] == chunks;
    assert (|c.input| + |c.queue| * PACKET_SIZE) / PACKET_SIZE == |c.input| / PACKET_SIZE + |c.queue|;
  }

  /** One arrival completes some packets and takes one away, if there is one. */
  lemma WaitingNext(limit: nat, chunks: seq<seq<byte>>)
    requires chunks != [] && Run(limit, chunks).open
    ensures var n := |chunks|;
      var before := |Run(limit, chunks[..n - 1]).input| / PACKET_SIZE;
      var all := before + Completed(chunks, n) - Completed(chunks, n - 1);
      all >= 0 && |Run(limit, chunks).input| / PACKET_SIZE == if all == 0 then 0 else all - 1
  {
    var n := |chunks|;
    Waiting(limit, chunks[..n - 1]);
    Waiting(limit, chunks);
    assert chunks[..n - 1][..n - 1] == chunks[..n - 1];
  }

  /** No stretch of arrivals up to the last one completes more than one packet each and `spare` more. */
  predicate AllWithin(chunks: seq<seq<byte>>, spare: nat) {
    forall k :: 0 <= k <= |chunks| ==> Within(chunks, k, spare)
  }

  lemma AllWithinInit(chunks: seq<seq<byte>>, spare: nat, less: nat)
    requires chunks != []
    requires Completed(chunks, |chunks|) - Completed(chunks, |chunks| - 1) + less == spare + 1
    ensures AllWithin(chunks, spare) <==> AllWithin(chunks[..|chunks| - 1], less)
  {
    var n, init := |chunks|, chunks[..|chunks| - 1];
    assert Within(chunks, n, spare);
    forall k | 0 <= k < n
      ensures Within(chunks, k, spare) <==> Within(init, k, less)
    {
      assert chunks[..k] == init[..k] && init[..n - 1] == init;
    }
  }

  /** At most `spare` complete packets wait in the buffer exactly under that condition. */
  lemma {:induction false} Backlog(limit: nat, chunks: seq<seq<byte>>, spare: nat)
    requires Run(limit, chunks).open
    ensures |Run(limit, chunks).input| / PACKET_SIZE <= spare <==> AllWithin(chunks, spare)
    decreases |chunks|
  {
    var n := |chunks|;
    if n > 0 {
      var a := Completed(chunks, n) - Completed(chunks, n - 1);
      WaitingNext(limit, chunks);
      if a <= spare + 1 {
        Backlog(limit, chunks[..n - 1], spare + 1 - a);
        AllWithinInit(chunks, spare, spare + 1 - a);
      } else {
        assert !Within(chunks, n - 1, spare);
      }
    } else {
      assert Within(chunks, 0, spare);
    }
  }

  /** No complete packet is left behind exactly if no stretch of arrivals up to the last completes more packets than it
      has arrivals. */
  lemma NothingStranded(limit: nat, chunks: seq<seq<byte>>)
    requires Run(limit, chunks).open
    ensures |Run(limit, chunks).input| < PACKET_SIZE <==> AllWithin(chunks, 0)
  {
    Backlog(limit, chunks, 0);
  }

  /** For instance two packets that arrive at once: the second stays in the buffer. */
  lemma DoubleArrivalStrands(limit: nat, both: seq<byte>)
    requires |both| == 2 * PACKET_SIZE
    ensures Run(limit, [both]).queue == [Pair(both[..PACKET_SIZE], PACKET_SIZE)]
    ensures Close(Run(limit, [both])) == Run(limit, [both]).queue
  {
    assert [both][..0] == [];
    assert FRESH.input + both == both;
  }

  // ---- The old-format packet ------------------------------------------------------------------------

  predicate NonEmpty(chunks: seq<seq<byte>>) {
    forall i :: 0 <= i < |chunks| ==> |chunks[i]| > 0
  }

  /** The lengths of the stream after each arrival, added up: what `received` adds up while nothing is drained. */
  function Prefixes(chunks: seq<seq<byte>>): nat
    decreases |chunks|
  {
    if chunks == [] then 0 else Prefixes(chunks[..|chunks| - 1]) + |Concat(chunks)|
  }

  lemma {:induction false} ReceivedIsPrefixes(limit: nat, chunks: seq<seq<byte>>)
    ensures var c := Run(limit, chunks);
      if |Concat(chunks)| < PACKET_SIZE
      then c.open && c.drained == 0 && c.queue == [] && c.input == Concat(chunks) && c.received == Prefixes(chunks)
      else c.drained > 0
    decreases |chunks|
  {
    if chunks == [] {
    } else {
      var init, last := chunks[..|chunks| - 1], chunks[|chunks| - 1];
      assert chunks == init + [last];
      ConcatSnoc(init, last);
      ReceivedIsPrefixes(limit, init);
    }
  }

  /** A stream is taken for an old-format packet exactly if it is shorter than a packet and its prefix lengths add up to
      the length of an old one. */
  lemma TakenForOld(limit: nat, chunks: seq<seq<byte>>)
    ensures LooksOld(Run(limit, chunks)) <==>
            |Concat(chunks)| < PACKET_SIZE && Prefixes(chunks) == OLD_PACKET_SIZE
    ensures LooksOld(Run(limit, chunks)) ==>
            Close(Run(limit, chunks)) == [Pair(Filled(Concat(chunks)), |Concat(chunks)|)]
  {
    ReceivedIsPrefixes(limit, chunks);
  }

  /** While no packet is complete the byte count is right for a single arrival and too high for more. */
  lemma {:induction false} PrefixesOvercount(chunks: seq<seq<byte>>)
    requires NonEmpty(chunks)
    ensures Prefixes(chunks) >= |Concat(chunks)| >= |chunks|
    ensures Prefixes(chunks) == |Concat(chunks)| <==> |chunks| <= 1
    decreases |chunks|
  {
    if chunks == [] {
    } else {
      var init, last := chunks[..|chunks| - 1], chunks[|chunks| - 1];
      assert chunks == init + [last];
      ConcatSnoc(init, last);
      PrefixesOvercount(init);
    }
  }

  /** A 720-byte packet from an old client is queued if and only if it arrives in one piece. */
  lemma OldPacketNeedsOneArrival(limit: nat, chunks: seq<seq<byte>>)
    requires NonEmpty(chunks) && |Concat(chunks)| == OLD_PACKET_SIZE
    ensures var c := Run(limit, chunks);
      && (|chunks| == 1 ==> Close(c) == [Pair(Filled(Concat(chunks)), OLD_PACKET_SIZE)])
      && (|chunks| != 1 ==> Close(c) == [])
  {
    TakenForOld(limit, chunks);
    PrefixesOvercount(chunks);
    ReceivedIsPrefixes(limit, chunks);
  }

  lemma {:induction false} PrefixesBounded(chunks: seq<seq<byte>>)
    requires NonEmpty(chunks)
    ensures 2 * Prefixes(chunks) <= |Concat(chunks)| * (|Concat(chunks)| + 1)
    decreases |chunks|
  {
    if chunks == [] {
    } else {
      var init, last := chunks[..|chunks| - 1], chunks[|chunks| - 1];
      assert chunks == init + [last];
      ConcatSnoc(init, last);
      PrefixesBounded(init);
      OneMore(Prefixes(init), |Concat(init)|, |Concat(chunks)|);
    }
  }

  lemma OneMore(sum: nat, before: nat, after: nat)
    requires 2 * sum <= before * (before + 1) && before < after
    ensures 2 * (sum + after) <= after * (after + 1)
  {
    Triangle(before, after - 1);
  }

  lemma Triangle(a: nat, b: nat)
    requires a <= b
    ensures a * (a + 1) <= b * (b + 1)
  {
  }

  /** What is taken for an old packet has from 38 to 720 bytes, so its CRC field has always been received. */
  lemma OldLengths(limit: nat, chunks: seq<seq<byte>>)
    requires NonEmpty(chunks) && LooksOld(Run(limit, chunks))
    ensures 38 <= |Concat(chunks)| <= OLD_PACKET_SIZE
  {
    TakenForOld(limit, chunks);
    PrefixesOvercount(chunks);
    PrefixesBounded(chunks);
    Triangle(if |Concat(chunks)| <= 37 then |Concat(chunks)| else 37, 37);
  }

  /** For instance a 480-byte stream in two equal halves. */
  lemma ShortStreamTakenForOld(limit: nat, a: seq<byte>, b: seq<byte>)
    requires |a| == |b| == 240
    ensures LooksOld(Run(limit, [a, b]))
    ensures |Close(Run(limit, [a, b]))| == 1 && Close(Run(limit, [a, b]))[0].length == 480
  {
    assert [a, b][..1] == [a] && [a][..0] == [];
    ConcatSnoc([], a);
    ConcatSnoc([a], b);
    assert [] + [a] == [a] && [a] + [b] == [a, b];
    assert Prefixes([a]) == 240;
    TakenForOld(limit, [a, b]);
  }
}
