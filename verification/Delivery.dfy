/** What queue processing must hand to the sinks, and the path of a check result from client to sink. */
module Delivery {
  import opened Bytes
  import opened Crc
  import opened Packet
  import opened Framing
  import opened Cipher

  // ---- Specification of queue processing --------------------------------------------------------------

  function CipherTexts(queue: seq<Pair>): (c: seq<seq<byte>>)
    ensures |c| == |queue| && forall i :: 0 <= i < |c| ==> |c[i]| == PACKET_SIZE
  {
    seq(|queue|, i requires 0 <= i < |queue| => queue[i].bytes)
  }

  /** The queue as it reads once every packet is decrypted, starting from the initial vector. */
  function Opened(p: Params, iv: seq<byte>, queue: seq<Pair>): (o: seq<Pair>)
    requires |p.transmittedIv| == IV_SIZE
    ensures |o| == |queue|
  {
    var plains := DecryptList(p, iv, CipherTexts(queue));
    seq(|queue|, i requires 0 <= i < |queue| => Pair(plains[i], queue[i].length))
  }

  /** The packets of one queue are examined one after the other, packet `k` at second `clock(k)`. */
  datatype Exam = Exam(clock: nat -> nat, maxAge: int, ageEnabled: bool) {
    function At(k: nat): Policy {
      Policy(clock(k), maxAge, ageEnabled)
    }
  }

  predicate Good(policy: Policy, pair: Pair) {
    pair.length <= PACKET_SIZE && Accepted(policy, pair.bytes, pair.length)
  }

  /** All that matters about one decrypted packet: does it pass the tests, and what does it report. */
  datatype Verdict = Verdict(good: bool, report: Report)

  function Judge(policy: Policy, pair: Pair): Verdict {
    Verdict(Good(policy, pair), ReportOf(pair.bytes))
  }

  /** `f` applied to the elements of a list, the first of which has number `n`. */
  function Each<A, B>(f: (nat, A) -> B, list: seq<A>, n: nat): (r: seq<B>)
    ensures |r| == |list|
  {
    seq(|list|, i requires 0 <= i < |list| => f(n + i, list[i]))
  }

  lemma EachCons<A, B>(f: (nat, A) -> B, head: A, rest: seq<A>, n: nat)
    ensures Each(f, [head] + rest, n) == [f(n, head)] + Each(f, rest, n + 1)
  {
    var all, tail := Each(f, [head] + rest, n), Each(f, rest, n + 1);
    forall i | 0 <= i < |rest|
      ensures all[i + 1] == tail[i]
    {
      assert n + (i + 1) == n + 1 + i && ([head] + rest)[i + 1] == rest[i];
    }
  }

  function Judging(exam: Exam): (nat, Pair) -> Verdict {
    (k: nat, pair: Pair) => Judge(exam.At(k), pair)
  }

  function Verdicts(exam: Exam, p: Params, iv: seq<byte>, queue: seq<Pair>): (v: seq<Verdict>)
    requires |p.transmittedIv| == IV_SIZE
    ensures |v| == |queue|
  {
    Each(Judging(exam), Opened(p, iv, queue), 0)
  }

  function JudgeUnder(policy: Policy, p: Params, reg: Register, pair: Pair): Verdict
    requires |p.transmittedIv| == IV_SIZE
  {
    Judge(policy, Pair(Decrypted(p, reg, pair.bytes), pair.length))
  }

  /** From packet `n` on, `queue` is judged as in `v` when the register is `reg`. */
  ghost predicate OpensFrom(exam: Exam, p: Params, reg: Register, queue: seq<Pair>, v: seq<Verdict>, n: nat) {
    && |p.transmittedIv| == IV_SIZE && n <= |queue| == |v|
    && v[n..] == Each(Judging(exam), Opened(p, reg, queue[n..]), n)
  }

  lemma OpenedNext(p: Params, reg: Register, queue: seq<Pair>)
    requires |p.transmittedIv| == IV_SIZE && queue != []
    ensures Opened(p, reg, queue) == [Pair(Decrypted(p, reg, queue[0].bytes), queue[0].length)]
                                     + Opened(p, Moved(p, reg, queue[0].bytes), queue[1..])
  {
    assert CipherTexts(queue)[1..] == CipherTexts(queue[1..]);
  }

  lemma JudgedNext(exam: Exam, p: Params, reg: Register, queue: seq<Pair>, n: nat)
    requires |p.transmittedIv| == IV_SIZE && queue != []
    ensures Each(Judging(exam), Opened(p, reg, queue), n) ==
            [JudgeUnder(exam.At(n), p, reg, queue[0])]
            + Each(Judging(exam), Opened(p, Moved(p, reg, queue[0].bytes), queue[1..]), n + 1)
  {
    OpenedNext(p, reg, queue);
    var first := Pair(Decrypted(p, reg, queue[0].bytes), queue[0].length);
    var rest := Opened(p, Moved(p, reg, queue[0].bytes), queue[1..]);
    EachCons(Judging(exam), first, rest, n);
  }

  /** A queue is opened one packet at a time, the register moving along. */
  lemma OpensNext(exam: Exam, p: Params, reg: Register, queue: seq<Pair>, v: seq<Verdict>, n: nat)
    requires OpensFrom(exam, p, reg, queue, v, n) && n < |queue|
    ensures |p.transmittedIv| == IV_SIZE && v[n] == JudgeUnder(exam.At(n), p, reg, queue[n])
    ensures OpensFrom(exam, p, Moved(p, reg, queue[n].bytes), queue, v, n + 1)
  {
    JudgedNext(exam, p, reg, queue[n..], n);
    assert queue[n..][1..] == queue[n + 1..] && v[n..][1..] == v[n + 1..];
  }

  /** The length of the longest prefix that passes every test. */
  function GoodPrefix(v: seq<Verdict>): (n: nat)
    ensures n <= |v|
  {
    if v == [] || !v[0].good then 0 else 1 + GoodPrefix(v[1..])
  }

  /** It is the longest: everything in it is good, and it stops only at a bad packet or at the end. */
  lemma {:induction false} GoodPrefixLongest(v: seq<Verdict>, n: nat)
    requires n <= |v|
    ensures n == GoodPrefix(v) <==> (forall i :: 0 <= i < n ==> v[i].good) && (n < |v| ==> !v[n].good)
    decreases |v|
  {
    if v == [] || !v[0].good || n == 0 {
    } else {
      GoodPrefixLongest(v[1..], n - 1);
      assert forall i :: 0 < i < n ==> v[i] == v[1..][i - 1];
      assert forall i :: 0 <= i < n - 1 ==> v[1..][i] == v[i + 1];
    }
  }

  lemma {:induction false} GoodPrefixGrows(v: seq<Verdict>, n: nat)
    requires n < |v| && n <= GoodPrefix(v)
    ensures if v[n].good then n + 1 <= GoodPrefix(v) else n == GoodPrefix(v)
    decreases n
  {
    if n == 0 {
    } else {
      GoodPrefixGrows(v[1..], n - 1);
    }
  }

  /** The reports that have to reach the sinks, in order. */
  function Handed(v: seq<Verdict>): (r: seq<Report>)
    ensures |r| == GoodPrefix(v)
  {
    seq(GoodPrefix(v), i requires 0 <= i < GoodPrefix(v) => v[i].report)
  }

  // ---- One session on a shared crypt instance -----------------------------------------------------------

  /** The cipher side of process_queue_mcrypt: `td` is the instance's register, `saved` the connection's copy. The
      register is overwritten before every packet, from the IV for the first one and from `saved` afterwards. */
  function Session(p: Params, iv: seq<byte>, td: Register, saved: Register, first: bool, queue: seq<seq<byte>>)
    : (r: (seq<seq<byte>>, Register))
    requires |p.transmittedIv| == IV_SIZE
    ensures |r.0| == |queue|
    decreases |queue|
  {
    if queue == [] then ([], td) else
      var reg := if p.encryption <= ENCRYPT_XOR then td else if first then iv else saved;
      var moved := Moved(p, reg, queue[0]);
      var (plains, last) := Session(p, iv, moved, moved, false, queue[1..]);
      ([Decrypted(p, reg, queue[0])] + plains, last)
  }

  /** Whatever earlier jobs left in the register, a session decrypts as if it were alone. */
  lemma {:induction false} SessionForgetsRegister(p: Params, iv: seq<byte>, td: Register, saved: Register, first: bool,
                                                   queue: seq<seq<byte>>)
    requires |p.transmittedIv| == IV_SIZE
    ensures Session(p, iv, td, saved, first, queue).0 == DecryptList(p, if first then iv else saved, queue)
    decreases |queue|
  {
    if queue == [] {
    } else {
      var reg := if p.encryption <= ENCRYPT_XOR then td else if first then iv else saved;
      var start := if first then iv else saved;
      var moved := Moved(p, reg, queue[0]);
      SessionForgetsRegister(p, iv, moved, moved, false, queue[1..]);
      if p.encryption <= ENCRYPT_XOR {
        RegisterUnused(p, moved, Moved(p, start, queue[0]), queue[1..]);
      }
    }
  }

  lemma {:induction false} RegisterUnused(p: Params, a: Register, b: Register, queue: seq<seq<byte>>)
    requires |p.transmittedIv| == IV_SIZE && p.encryption <= ENCRYPT_XOR
    ensures DecryptList(p, a, queue) == DecryptList(p, b, queue)
    decreases |queue|
  {
    if queue == [] {
    } else {
      RegisterUnused(p, a, b, queue[1..]);
    }
  }

  /** Without mcrypt a queue is judged the same whatever the register. */
  lemma VerdictsIgnoreRegister(exam: Exam, p: Params, a: Register, b: Register, queue: seq<Pair>)
    requires |p.transmittedIv| == IV_SIZE && p.encryption <= ENCRYPT_XOR
    ensures Verdicts(exam, p, a, queue) == Verdicts(exam, p, b, queue)
  {
    RegisterUnused(p, a, b, CipherTexts(queue));
  }

  // ---- End to end ---------------------------------------------------------------------------------------

  function AsPackets(ciphers: seq<seq<byte>>): (r: seq<Plain>)
    requires forall i :: 0 <= i < |ciphers| ==> |ciphers[i]| == PACKET_SIZE
    ensures r == ciphers
  {
    seq(|ciphers|, i requires 0 <= i < |ciphers| => ciphers[i])
  }

  predicate Passes(exam: Exam, plain: Plain, k: nat) {
    Accepted(exam.At(k), plain, PACKET_SIZE)
  }

  ghost predicate AllPass(exam: Exam, plains: seq<Plain>) {
    forall i {:trigger Passes(exam, plains[i], i)} :: 0 <= i < |plains| ==> Passes(exam, plains[i], i)
  }

  /** What a client sends: good packets, encrypted one after the other from the IV it was given. */
  ghost predicate Sends(exam: Exam, p: Params, iv: seq<byte>, plains: seq<Plain>, chunks: seq<seq<byte>>) {
    && |p.transmittedIv| == IV_SIZE
    && AllPass(exam, plains)
    && Bounded(chunks)
    && Concat(chunks) == Concat(EncryptList(p, iv, plains))
  }

  lemma OpenedAll(p: Params, iv: seq<byte>, plains: seq<Plain>)
    requires |p.transmittedIv| == IV_SIZE
    ensures Opened(p, iv, Full(AsPackets(EncryptList(p, iv, plains)))) == Full(plains)
  {
    assert CipherTexts(Full(AsPackets(EncryptList(p, iv, plains)))) == EncryptList(p, iv, plains);
    DecryptListInverts(p, iv, plains);
  }

  /** Processing the very queue the client encrypted hands over every packet. */
  lemma HandedAll(exam: Exam, p: Params, iv: seq<byte>, plains: seq<Plain>)
    requires |p.transmittedIv| == IV_SIZE
    requires AllPass(exam, plains)
    ensures Handed(Verdicts(exam, p, iv, Full(AsPackets(EncryptList(p, iv, plains))))) == ReportsOf(plains)
  {
    OpenedAll(p, iv, plains);
    JudgedAll(exam, plains);
  }

  lemma JudgedGood(exam: Exam, plains: seq<Plain>, i: nat)
    requires i < |plains| && Accepted(exam.At(i), plains[i], PACKET_SIZE)
    ensures Each(Judging(exam), Full(plains), 0)[i] == Verdict(true, ReportOf(plains[i]))
  {
    assert Full(plains)[i] == Pair(plains[i], PACKET_SIZE);
  }

  lemma JudgedAll(exam: Exam, plains: seq<Plain>)
    requires AllPass(exam, plains)
    ensures Handed(Each(Judging(exam), Full(plains), 0)) == ReportsOf(plains)
  {
    var v := Each(Judging(exam), Full(plains), 0);
    forall i | 0 <= i < |plains|
      ensures v[i] == Verdict(true, ReportOf(plains[i]))
    {
      assert Passes(exam, plains[i], i);
      JudgedGood(exam, plains, i);
    }
    GoodPrefixLongest(v, |plains|);
  }

  function ReportsOf(plains: seq<Plain>): (r: seq<Report>)
    ensures |r| == |plains|
  {
    seq(|plains|, i requires 0 <= i < |plains| => ReportOf(plains[i]))
  }

  lemma CutAll(limit: nat, packets: seq<Plain>, chunks: seq<seq<byte>>)
    requires Bounded(chunks) && Concat(chunks) == Concat(packets) && |packets| <= limit + 1
    ensures var c := Run(limit, chunks);
      c.open && c.input == [] && c.queue == Full(packets) && Close(c) == Full(packets)
  {
    FramesOfConcat(packets);
    ChunkingIndependent(limit, chunks);
    if packets == [] {
      ChunkedEmpty(limit, chunks);
    }
  }

  /** Every packet of such a client reaches the sinks, once and in order, however the stream was cut. */
  lemma EndToEnd(exam: Exam, p: Params, iv: seq<byte>, plains: seq<Plain>, chunks: seq<seq<byte>>, limit: nat)
    requires Sends(exam, p, iv, plains, chunks) && |plains| <= limit + 1
    ensures Run(limit, chunks).open && Run(limit, chunks).input == []
    ensures Handed(Verdicts(exam, p, iv, Close(Run(limit, chunks)))) == ReportsOf(plains)
  {
    CutAll(limit, AsPackets(EncryptList(p, iv, plains)), chunks);
    HandedAll(exam, p, iv, plains);
  }

  /** With nothing received at all the close path does not mistake the connection for an old packet. */
  lemma {:induction false} ChunkedEmpty(limit: nat, chunks: seq<seq<byte>>)
    requires Concat(chunks) == []
    ensures Run(limit, chunks).received == 0 && Run(limit, chunks).input == []
    decreases |chunks|
  {
    if chunks == [] {
    } else {
      var init, last := chunks[..|chunks| - 1], chunks[|chunks| - 1];
      assert chunks == init + [last];
      ConcatSnoc(init, last);
      ChunkedEmpty(limit, init);
    }
  }

  /** The connection of such a client survives exactly if it keeps to the limit. */
  lemma OpenWithinLimit(exam: Exam, p: Params, iv: seq<byte>, plains: seq<Plain>, chunks: seq<seq<byte>>,
                        limit: nat)
    requires Sends(exam, p, iv, plains, chunks)
    ensures Run(limit, chunks).open <==> |plains| <= limit + 1
  {
    FramesOfConcat(AsPackets(EncryptList(p, iv, plains)));
    ChunkingIndependent(limit, chunks);
  }

  /** One packet too many and the whole connection is thrown away, good packets included. */
  lemma OverlongConnectionLost(exam: Exam, p: Params, iv: seq<byte>, plains: seq<Plain>, chunks: seq<seq<byte>>,
                               limit: nat)
    requires Sends(exam, p, iv, plains, chunks) && |plains| > limit + 1
    ensures !Run(limit, chunks).open && Run(limit, chunks).queue == []
  {
    var ciphers := AsPackets(EncryptList(p, iv, plains));
    FramesOfConcat(ciphers);
    ChunkingIndependent(limit, chunks);
  }

  // ---- Damage on the wire -------------------------------------------------------------------------------

  /** The byte that decryption adds to position `k` when the cipher works byte by byte. */
  function Mask(p: Params, k: nat): byte
    requires |p.transmittedIv| == IV_SIZE
  {
    if p.encryption == ENCRYPT_NONE then 0 else p.transmittedIv[k % IV_SIZE] ^ PasswordByte(p.password, k)
  }

  lemma MaskApplied(p: Params, reg: Register, cipher: seq<byte>, k: nat)
    requires |p.transmittedIv| == IV_SIZE && p.encryption <= ENCRYPT_XOR && k < |cipher|
    ensures Decrypted(p, reg, cipher)[k] == cipher[k] ^ Mask(p, k)
  {
    if p.encryption == ENCRYPT_NONE {
      ZeroMask(cipher[k]);
    } else {
      MaskAssociates(cipher[k], p.transmittedIv[k % IV_SIZE], PasswordByte(p.password, k));
    }
  }

  lemma ZeroMask(b: byte)
    ensures b ^ 0 == b
  {
  }

  lemma MaskAssociates(b: byte, x: byte, y: byte)
    ensures b ^ x ^ y == b ^ (x ^ y)
  {
  }

  /** Adding the same bits to both sides changes no difference. */
  lemma SameMask(a: Bits, b: Bits, c: Bits, d: Bits, mask: Bits, start: nat, i: nat)
    requires |a| == |b| == |c| == |d| && |mask| == 8 && start <= i < start + 8 <= |a|
    requires c[start..start + 8] == Xor(a[start..start + 8], mask)
    requires d[start..start + 8] == Xor(b[start..start + 8], mask)
    ensures c[i] != d[i] <==> a[i] != b[i]
  {
    var j := i - start;
    assert a[start..start + 8][j] == a[i] && b[start..start + 8][j] == b[i];
    assert c[start..start + 8][j] == c[i] && d[start..start + 8][j] == d[i];
  }

  lemma ByteMasked(p: Params, reg: Register, cipher: Plain, k: nat)
    requires |p.transmittedIv| == IV_SIZE && p.encryption <= ENCRYPT_XOR && k < PACKET_SIZE
    ensures Message(Decrypted(p, reg, cipher))[8 * k..8 * k + 8] ==
            Xor(Message(cipher)[8 * k..8 * k + 8], ByteBits(Mask(p, k)))
  {
    var plain := Decrypted(p, reg, cipher);
    MessageAt(cipher, k);
    MessageAt(plain, k);
    MaskApplied(p, reg, cipher, k);
    ByteBitsXor(cipher[k], Mask(p, k));
  }

  /** Without mcrypt a bit damaged on the wire is that very bit damaged in the packet. */
  lemma FlipDecrypts(p: Params, reg: Register, good: Plain, bad: Plain, i: nat)
    requires |p.transmittedIv| == IV_SIZE && p.encryption <= ENCRYPT_XOR && i < 8 * PACKET_SIZE
    ensures Flipped(Decrypted(p, reg, good), Decrypted(p, reg, bad), i) <==> Flipped(good, bad, i)
  {
    var k := i / 8;
    ByteMasked(p, reg, good, k);
    ByteMasked(p, reg, bad, k);
    SameMask(Message(good), Message(bad), Message(Decrypted(p, reg, good)), Message(Decrypted(p, reg, bad)),
             ByteBits(Mask(p, k)), 8 * k, i);
  }

  /** A good packet damaged on the wire, within 32 consecutive bits of the part that was received and outside the CRC
      field, is not accepted. */
  lemma WireBurstRejected(policy: Policy, p: Params, reg: Register, good: Plain, bad: Plain, length: nat, start: nat)
    requires |p.transmittedIv| == IV_SIZE && p.encryption <= ENCRYPT_XOR && length <= PACKET_SIZE
    requires CrcMatches(Decrypted(p, reg, good), length) && good[..length] != bad[..length]
    requires BurstAt(good[..length], bad[..length], start) && CrcFieldIntact(good, bad)
    ensures !JudgeUnder(policy, p, reg, Pair(bad, length)).good
  {
    var x, y := Decrypted(p, reg, good), Decrypted(p, reg, bad);
    forall i | 0 <= i < 8 * PACKET_SIZE
      ensures Flipped(x, y, i) <==> Flipped(good, bad, i)
    {
      FlipDecrypts(p, reg, good, bad, i);
    }
    DecryptedBurst(p, reg, good, bad, length, start);
    BurstRejected(policy, x, y, length, start);
  }

  lemma DecryptedBurst(p: Params, reg: Register, good: Plain, bad: Plain, length: nat, start: nat)
    requires |p.transmittedIv| == IV_SIZE && p.encryption <= ENCRYPT_XOR && length <= PACKET_SIZE
    requires good[..length] != bad[..length] && BurstAt(good[..length], bad[..length], start)
    ensures var x, y := Decrypted(p, reg, good), Decrypted(p, reg, bad);
      x[..length] != y[..length] && BurstAt(x[..length], y[..length], start)
  {
    var x, y := Decrypted(p, reg, good), Decrypted(p, reg, bad);
    forall i | 0 <= i < 8 * length && Flipped(x[..length], y[..length], i)
      ensures start <= i < start + 32
    {
      FlippedPrefix(x, y, length, i);
      FlipDecrypts(p, reg, good, bad, i);
      FlippedPrefix(good, bad, length, i);
    }
    var k :| 0 <= k < length && good[k] != bad[k];
    MaskApplied(p, reg, good, k);
    MaskApplied(p, reg, bad, k);
    MaskInjective(good[k], bad[k], Mask(p, k));
    assert x[..length][k] != y[..length][k];
  }

  lemma MaskInjective(a: byte, b: byte, mask: byte)
    requires a != b
    ensures a ^ mask != b ^ mask
  {
  }
}
