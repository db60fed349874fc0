/** The wire format of nsca_common.h, and the checks every decrypted packet has to pass. */
module Packet {
  import opened Bytes
  import opened Crc
  import opened Numbers

  // Offsets of `data_packet` under the usual alignment of 2- and 4-byte integers.
  const VERSION_AT := 0
  const CRC_AT := 4
  const TIMESTAMP_AT := 8
  const RETURN_CODE_AT := 12
  const HOST_AT := 14
  const HOST_SIZE := 64
  const SERVICE_AT := HOST_AT + HOST_SIZE
  const SERVICE_SIZE := 128
  const OUTPUT_AT := SERVICE_AT + SERVICE_SIZE
  const OUTPUT_SIZE := 4096
  const PACKET_SIZE := 4304
  const OLD_PACKET_SIZE := PACKET_SIZE - (OUTPUT_SIZE - 512)
  const VERSION_3 := 3

  type Plain = p: seq<byte> | |p| == PACKET_SIZE witness seq(PACKET_SIZE, _ => 0)

  function NetShort(p: seq<byte>, at: nat): nat
    requires at + 2 <= |p|
  {
    p[at] as int * 0x100 + p[at + 1] as int
  }

  function NetLong(p: seq<byte>, at: nat): nat
    requires at + 4 <= |p|
  {
    NetShort(p, at) * 0x1_0000 + NetShort(p, at + 2)
  }

  /** The four CRC bytes as a machine word, and as the 32 coefficients they stand for. */
  function StoredWord(p: Plain): bv64 {
    (p[CRC_AT] as bv64 << 24) | (p[CRC_AT + 1] as bv64 << 16) | (p[CRC_AT + 2] as bv64 << 8) | p[CRC_AT + 3] as bv64
  }

  function StoredCrc(p: Plain): Bits {
    Join(p[CRC_AT + 3], p[CRC_AT + 2], p[CRC_AT + 1], p[CRC_AT])
  }

  function ClearCrc(p: Plain): Plain {
    p[CRC_AT := 0][CRC_AT + 1 := 0][CRC_AT + 2 := 0][CRC_AT + 3 := 0]
  }

  predicate CrcMatches(p: Plain, length: nat)
    requires length <= PACKET_SIZE
  {
    Crc32(ClearCrc(p)[..length]) == StoredCrc(p)
  }

  /** `(int)` of an unsigned 64-bit difference. */
  function ToInt32(d: nat): int {
    var w := d % 0x1_0000_0000;
    if w < 0x8000_0000 then w else w - 0x1_0000_0000
  }

  function Distance(a: nat, b: nat): nat {
    if a > b then a - b else b - a
  }

  datatype Policy = Policy(now: nat, maxAge: int, ageEnabled: bool)

  predicate FreshEnough(policy: Policy, timestamp: nat) {
    policy.ageEnabled && policy.maxAge > 0 ==> ToInt32(Distance(timestamp, policy.now)) <= policy.maxAge
  }

  /** The three tests of the queue loops. */
  predicate Accepted(policy: Policy, p: Plain, length: nat)
    requires length <= PACKET_SIZE
  {
    && NetShort(p, VERSION_AT) == VERSION_3
    && CrcMatches(p, length)
    && FreshEnough(policy, NetLong(p, TIMESTAMP_AT))
  }

  /** `s` is what a reader finds in `field`: it stops at the first zero or before the last character. */
  predicate IsText(s: seq<byte>, field: seq<byte>) {
    s <= field && 0 !in s && |s| < |field| && (|s| + 1 == |field| || field[|s|] == 0)
  }

  /** The characters of a C string field: up to the first zero, which is forced at the end of the field. */
  function CString(field: seq<byte>): (s: seq<byte>)
    ensures field != [] ==> IsText(s, field)
    ensures 0 !in s && |s| <= |field|
  {
    if |field| <= 1 || field[0] == 0 then [] else [field[0]] + CString(field[1..])
  }

  datatype Report = Report(host: seq<byte>, service: seq<byte>, code: nat, output: seq<byte>)

  function ReportOf(p: Plain): (r: Report)
    ensures IsText(r.host, p[HOST_AT..HOST_AT + HOST_SIZE])
    ensures IsText(r.service, p[SERVICE_AT..SERVICE_AT + SERVICE_SIZE])
    ensures IsText(r.output, p[OUTPUT_AT..OUTPUT_AT + OUTPUT_SIZE])
    ensures r.code == p[12] as int * 0x100 + p[13] as int
  {
    Report(CString(p[HOST_AT..HOST_AT + HOST_SIZE]),
           CString(p[SERVICE_AT..SERVICE_AT + SERVICE_SIZE]),
           NetShort(p, RETURN_CODE_AT),
           CString(p[OUTPUT_AT..OUTPUT_AT + OUTPUT_SIZE]))
  }

  predicate IsTerminator(i: nat) {
    i in {HOST_AT + HOST_SIZE - 1, SERVICE_AT + SERVICE_SIZE - 1, OUTPUT_AT + OUTPUT_SIZE - 1}
  }

  lemma {:induction false} CStringSame(f: seq<byte>, g: seq<byte>)
    requires |f| == |g| && forall i :: 0 <= i < |f| - 1 ==> f[i] == g[i]
    ensures CString(f) == CString(g)
    decreases |f|
  {
    if |f| <= 1 || f[0] == 0 {
    } else {
      CStringSame(f[1..], g[1..]);
    }
  }

  /** Clearing the CRC field and forcing the terminators does not change what a packet reports. */
  lemma ReportIgnoresTerminators(p: Plain, q: Plain)
    requires forall i :: 8 <= i < PACKET_SIZE && !IsTerminator(i) ==> p[i] == q[i]
    ensures ReportOf(p) == ReportOf(q)
  {
    CStringSame(p[HOST_AT..HOST_AT + HOST_SIZE], q[HOST_AT..HOST_AT + HOST_SIZE]);
    CStringSame(p[SERVICE_AT..SERVICE_AT + SERVICE_SIZE], q[SERVICE_AT..SERVICE_AT + SERVICE_SIZE]);
    CStringSame(p[OUTPUT_AT..OUTPUT_AT + OUTPUT_SIZE], q[OUTPUT_AT..OUTPUT_AT + OUTPUT_SIZE]);
  }

  lemma StoredOctets(p: Plain)
    ensures StoredWord(p) <= 0xFFFF_FFFF
    ensures Octet(StoredWord(p)) == p[CRC_AT + 3] && Octet(StoredWord(p) >> 8) == p[CRC_AT + 2]
    ensures Octet(StoredWord(p) >> 16) == p[CRC_AT + 1] && Octet(StoredWord(p) >> 24) == p[CRC_AT]
  {
  }

  lemma StoredWordIsCrc(p: Plain, crc: bv64)
    requires crc <= 0xFFFF_FFFF
    ensures crc == StoredWord(p) <==> Word(crc) == StoredCrc(p)
  {
    StoredOctets(p);
    if Word(crc) == StoredCrc(p) {
      WordInjective(crc, StoredWord(p));
    }
  }

  /** The three tests in terms of the bytes: the version is 3, most significant byte first; bytes 4 to 7 are the CRC of
      what was received, with zeros in their place; and bytes 8 to 11 are a date that is not too old. */
  lemma AcceptedMeans(policy: Policy, p: Plain, length: nat)
    requires length <= PACKET_SIZE
    ensures Accepted(policy, p, length) <==>
            && p[0] == 0 && p[1] == 3
            && Join(p[7], p[6], p[5], p[4]) == Crc32((p[..4] + [0, 0, 0, 0] + p[8..])[..length])
            && FreshEnough(policy, ((p[8] as int * 0x100 + p[9] as int) * 0x100 + p[10] as int) * 0x100 + p[11] as int)
  {
    SmallByte(p[0], 0);
    SmallByte(p[1], 3);
    assert ClearCrc(p) == p[..4] + [0, 0, 0, 0] + p[8..];
  }

  /** The age test accepts every date while it is switched off, and otherwise exactly the dates whose distance is at
      most the limit, modulo 2^32 and read as signed: below 2^31 it means what it says. */
  lemma AgeTest(policy: Policy, timestamp: nat)
    ensures var d := if timestamp > policy.now then timestamp - policy.now else policy.now - timestamp;
      && (!policy.ageEnabled || policy.maxAge <= 0 ==> FreshEnough(policy, timestamp))
      && (policy.ageEnabled && 0 < policy.maxAge < 0x8000_0000 ==>
            && (d < 0x8000_0000 ==> (FreshEnough(policy, timestamp) <==> d <= policy.maxAge))
            && (FreshEnough(policy, timestamp) <==>
                d % 0x1_0000_0000 <= policy.maxAge || d % 0x1_0000_0000 >= 0x8000_0000))
  {
  }

  /** A packet dated 2^31 seconds ahead of the server passes the age test, while such a date fits the field. */
  lemma AgeTestWraps(policy: Policy)
    requires policy.ageEnabled && 0 < policy.maxAge < 0x8000_0000
    requires policy.now + 0x8000_0000 < 0x1_0000_0000
    ensures FreshEnough(policy, policy.now + 0x8000_0000)
  {
  }

  lemma Sandwich(a: Bits, b: Bits, c: Bits)
    ensures (a + (b + c))[|a|..|a| + |b|] == b
  {
  }

  lemma MessageAt(buf: seq<byte>, k: nat)
    requires k < |buf|
    ensures Message(buf)[8 * k..8 * k + 8] == ByteBits(buf[k])
  {
    MessageConcat(buf[..k], buf[k..]);
    assert buf[..k] + buf[k..] == buf;
    MessageHead(buf[k..]);
    Sandwich(Message(buf[..k]), ByteBits(buf[k]), Message(buf[k..][1..]));
  }

  lemma MessageHead(buf: seq<byte>)
    requires buf != []
    ensures Message(buf) == ByteBits(buf[0]) + Message(buf[1..])
  {
  }

  /** Bits that differ between `c` and `d` differ between `a` and `b`, if the bytes around them agree pairwise. */
  lemma FlipTransfers(a: Bits, b: Bits, c: Bits, d: Bits, start: nat, i: nat)
    requires |a| == |b| == |c| == |d| && start <= i < start + 8 <= |a| && c[i] != d[i]
    requires c[start..start + 8] == d[start..start + 8] ||
             (c[start..start + 8] == a[start..start + 8] && d[start..start + 8] == b[start..start + 8])
    ensures a[i] != b[i]
  {
    var j := i - start;
    assert a[start..start + 8][j] == a[i] && b[start..start + 8][j] == b[i];
    assert c[start..start + 8][j] == c[i] && d[start..start + 8][j] == d[i];
  }

  /** Outside the CRC field, clearing the field changes nothing; inside, everything is zero. */
  lemma ClearedBit(p: Plain, q: Plain, i: nat)
    requires i < 8 * PACKET_SIZE && Flipped(ClearCrc(p), ClearCrc(q), i)
    ensures Flipped(p, q, i)
  {
    var k := i / 8;
    MessageAt(p, k);
    MessageAt(q, k);
    MessageAt(ClearCrc(p), k);
    MessageAt(ClearCrc(q), k);
    FlipTransfers(Message(p), Message(q), Message(ClearCrc(p)), Message(ClearCrc(q)), 8 * k, i);
  }

  /** No bit of the CRC field is flipped. */
  predicate CrcFieldIntact(p: Plain, q: Plain) {
    forall i :: 8 * CRC_AT <= i < 8 * (CRC_AT + 4) ==> !Flipped(p, q, i)
  }

  lemma SameByte(p: Plain, q: Plain, k: nat)
    requires k < PACKET_SIZE && forall i :: 8 * k <= i < 8 * k + 8 ==> !Flipped(p, q, i)
    ensures p[k] == q[k]
  {
    var x, y := Message(p)[8 * k..8 * k + 8], Message(q)[8 * k..8 * k + 8];
    forall j | 0 <= j < 8
      ensures x[j] == y[j]
    {
      assert !Flipped(p, q, 8 * k + j);
    }
    assert x == y;
    MessageAt(p, k);
    MessageAt(q, k);
    ByteBitsInjective(p[k], q[k]);
  }

  lemma SameCrcField(p: Plain, q: Plain, length: nat)
    requires CrcFieldIntact(p, q) && length <= PACKET_SIZE
    ensures StoredCrc(p) == StoredCrc(q)
    ensures p[..length] != q[..length] ==> ClearCrc(p)[..length] != ClearCrc(q)[..length]
  {
    forall k | CRC_AT <= k < CRC_AT + 4
      ensures p[k] == q[k]
    {
      SameByte(p, q, k);
    }
    if p[..length] != q[..length] {
      var k :| 0 <= k < length && p[k] != q[k];
      assert ClearCrc(p)[..length][k] != ClearCrc(q)[..length][k];
    }
  }

  /** The bits of a prefix are the first bits of the whole. */
  lemma FlippedPrefix(p: seq<byte>, q: seq<byte>, length: nat, i: nat)
    requires |p| == |q| && length <= |p| && i < 8 * length
    ensures Flipped(p[..length], q[..length], i) <==> Flipped(p, q, i)
  {
    PrefixBit(p, length, i);
    PrefixBit(q, length, i);
  }

  lemma PrefixBit(p: seq<byte>, length: nat, i: nat)
    requires length <= |p| && i < 8 * length
    ensures Message(p[..length])[i] == Message(p)[i]
  {
    MessageConcat(p[..length], p[length..]);
    assert p[..length] + p[length..] == p;
  }

  lemma ClearedBurst(p: Plain, q: Plain, length: nat, start: nat)
    requires length <= PACKET_SIZE && BurstAt(p[..length], q[..length], start)
    ensures BurstAt(ClearCrc(p)[..length], ClearCrc(q)[..length], start)
  {
    var a, b := ClearCrc(p), ClearCrc(q);
    forall i | 0 <= i < 8 * length && Flipped(a[..length], b[..length], i)
      ensures start <= i < start + 32
    {
      FlippedPrefix(a, b, length, i);
      ClearedBit(p, q, i);
      FlippedPrefix(p, q, length, i);
    }
  }

  /** A good packet damaged inside 32 consecutive bits of the part that was received, none of them in the CRC field, is
      rejected, whatever happened to the rest of its buffer. */
  lemma BurstRejected(policy: Policy, good: Plain, bad: Plain, length: nat, start: nat)
    requires length <= PACKET_SIZE && CrcMatches(good, length) && good[..length] != bad[..length]
    requires BurstAt(good[..length], bad[..length], start) && CrcFieldIntact(good, bad)
    ensures !Accepted(policy, bad, length)
  {
    SameCrcField(good, bad, length);
    ClearedBurst(good, bad, length, start);
    BurstDetected(ClearCrc(good)[..length], ClearCrc(bad)[..length], start);
  }
}
