/** A packet as a client lays it out, byte by byte after nsca_common.h, and what the server reads in it. */
module Wire {
  import opened Bytes
  import opened Crc
  import opened Numbers
  import opened Packet
  import opened Cipher
  import opened Framing
  import opened Delivery

  /** The output fields of the current packet and of the old one. */
  const OUTPUT_FIELD := 4096
  const OLD_OUTPUT_FIELD := 512

  function Nulls(n: nat): (z: seq<byte>)
    ensures |z| == n
  {
    seq(n, _ => 0)
  }

  /** A zero-terminated text in a field of `size` bytes. */
  function Padded(text: seq<byte>, size: nat): (f: seq<byte>)
    requires |text| <= size
    ensures |f| == size
  {
    text + Nulls(size - |text|)
  }

  /** Most significant byte first. */
  function Short(n: nat): (b: seq<byte>)
    requires n < 0x1_0000
    ensures |b| == 2
  {
    [(n / 0x100) as byte, (n % 0x100) as byte]
  }

  function Long(n: nat): (b: seq<byte>)
    requires n < 0x1_0000_0000
    ensures |b| == 4
  {
    Short(n / 0x1_0000) + Short(n % 0x1_0000)
  }

  /** What a client can say in a packet with an output field of `size` bytes. */
  predicate Sayable(r: Report, size: nat) {
    && 0 !in r.host && |r.host| < 64 && 0 !in r.service && |r.service| < 128
    && 0 !in r.output && |r.output| < size && r.code < 0x1_0000
  }

  /** `data_packet` with the alignment of its integers: version 3, two bytes to align, the CRC, the time, the return
      code, three texts, and two bytes that fill the structure up. */
  function Layout(r: Report, time: nat, crc: seq<byte>, size: nat): (p: seq<byte>)
    requires Sayable(r, size) && time < 0x1_0000_0000 && |crc| == 4
    ensures |p| == size + 208
  {
    [0, 3, 0, 0] + crc + Long(time) + Short(r.code)
    + Padded(r.host, 64) + Padded(r.service, 128) + Padded(r.output, size) + [0, 0]
  }

  // ---- Sealing ------------------------------------------------------------------------------------------

  /** The byte whose bits are the given ones, least significant bit first. */
  function ByteOf(bits: Bits): byte
    requires |bits| == 8
  {
    (if bits[0] then 0x01 else 0) | (if bits[1] then 0x02 else 0) | (if bits[2] then 0x04 else 0)
    | (if bits[3] then 0x08 else 0) | (if bits[4] then 0x10 else 0) | (if bits[5] then 0x20 else 0)
    | (if bits[6] then 0x40 else 0) | (if bits[7] then 0x80 else 0)
  }

  lemma ByteOfBits(bits: Bits)
    requires |bits| == 8
    ensures ByteBits(ByteOf(bits)) == bits
  {
    var b := ByteOf(bits);
    assert Bit(b, 0) == bits[0] && Bit(b, 1) == bits[1] && Bit(b, 2) == bits[2] && Bit(b, 3) == bits[3];
    assert Bit(b, 4) == bits[4] && Bit(b, 5) == bits[5] && Bit(b, 6) == bits[6] && Bit(b, 7) == bits[7];
  }

  /** The CRC of a buffer as a number, most significant byte first. */
  function Seal(buf: seq<byte>): (s: seq<byte>)
    ensures |s| == 4
  {
    var c := Crc32(buf);
    [ByteOf(c[24..]), ByteOf(c[16..24]), ByteOf(c[8..16]), ByteOf(c[..8])]
  }

  lemma SealIsCrc(buf: seq<byte>)
    ensures var s := Seal(buf); Join(s[3], s[2], s[1], s[0]) == Crc32(buf)
  {
    var c := Crc32(buf);
    ByteOfBits(c[..8]);
    ByteOfBits(c[8..16]);
    ByteOfBits(c[16..24]);
    ByteOfBits(c[24..]);
    assert c == c[..8] + c[8..16] + c[16..24] + c[24..];
  }

  /** What the client sends: the CRC is that of the packet with zeros in its place. */
  function Pack(r: Report, time: nat, size: nat): (p: seq<byte>)
    requires Sayable(r, size) && time < 0x1_0000_0000
    ensures |p| == size + 208
  {
    Layout(r, time, Seal(Layout(r, time, Nulls(4), size)), size)
  }

  // ---- Reading ------------------------------------------------------------------------------------------

  lemma {:induction false} CStringReads(text: seq<byte>, field: seq<byte>)
    requires 0 !in text && |text| < |field| && field[..|text|] == text && field[|text|] == 0
    ensures CString(field) == text
    decreases |text|
  {
    if text == [] {
    } else {
      assert field[0] == text[0] && field[1..][..|text| - 1] == text[1..];
      CStringReads(text[1..], field[1..]);
    }
  }

  /** Where each part of a packet stands. */
  lemma LaidOut(r: Report, time: nat, crc: seq<byte>, size: nat)
    requires Sayable(r, size) && time < 0x1_0000_0000 && |crc| == 4
    ensures var p := Layout(r, time, crc, size);
      && p[..4] == [0, 3, 0, 0] && p[4..8] == crc && p[8..12] == Long(time) && p[12..14] == Short(r.code)
      && p[14..78] == Padded(r.host, 64) && p[78..206] == Padded(r.service, 128)
      && p[206..206 + size] == Padded(r.output, size)
  {
  }

  /** `p` begins with a packet so laid out; behind an old one, anything may follow. */
  predicate Begins(p: Plain, r: Report, time: nat, crc: seq<byte>, size: nat) {
    && Sayable(r, size) && time < 0x1_0000_0000 && |crc| == 4 && size <= OUTPUT_FIELD
    && p[..size + 208] == Layout(r, time, crc, size)
  }

  lemma FieldReads(text: seq<byte>, field: seq<byte>, size: nat)
    requires 0 !in text && |text| < size <= |field| && field[..size] == Padded(text, size)
    ensures CString(field) == text
  {
    var f := field[..size];
    assert f[..|text|] == text && f[|text|] == 0;
    CStringReads(text, field);
  }

  lemma Inside(p: Plain, whole: seq<byte>, from: nat, to: nat, part: seq<byte>)
    requires |whole| <= PACKET_SIZE && p[..|whole|] == whole && from <= to <= |whole| && whole[from..to] == part
    ensures p[from..to] == part
  {
    assert p[from..to] == p[..|whole|][from..to];
  }

  lemma PackParts(p: Plain, r: Report, time: nat, crc: seq<byte>, size: nat)
    requires Begins(p, r, time, crc, size)
    ensures p[0..4] == [0, 3, 0, 0] && p[4..8] == crc && p[8..12] == Long(time) && p[12..14] == Short(r.code)
    ensures p[14..78] == Padded(r.host, 64) && p[78..206] == Padded(r.service, 128)
    ensures p[206..206 + size] == Padded(r.output, size)
  {
    var whole := Layout(r, time, crc, size);
    LaidOut(r, time, crc, size);
    Inside(p, whole, 0, 4, [0, 3, 0, 0]);
    Inside(p, whole, 4, 8, crc);
    Inside(p, whole, 8, 12, Long(time));
    Inside(p, whole, 12, 14, Short(r.code));
    Inside(p, whole, 14, 78, Padded(r.host, 64));
    Inside(p, whole, 78, 206, Padded(r.service, 128));
    Inside(p, whole, 206, 206 + size, Padded(r.output, size));
  }

  lemma ShortReads(p: seq<byte>, at: nat, n: nat)
    requires n < 0x1_0000 && at + 2 <= |p| && p[at..at + 2] == Short(n)
    ensures NetShort(p, at) == n
  {
    ByteValue(n / 0x100);
    ByteValue(n % 0x100);
    var part := p[at..at + 2];
    assert p[at] == part[0] && p[at + 1] == part[1];
  }

  lemma LongReads(p: seq<byte>, at: nat, n: nat)
    requires n < 0x1_0000_0000 && at + 4 <= |p| && p[at..at + 4] == Long(n)
    ensures NetLong(p, at) == n
  {
    var part := p[at..at + 4];
    assert p[at..at + 2] == part[..2] == Short(n / 0x1_0000);
    assert p[at + 2..at + 4] == part[2..] == Short(n % 0x1_0000);
    ShortReads(p, at, n / 0x1_0000);
    ShortReads(p, at + 2, n % 0x1_0000);
  }

  lemma NumbersRead(p: Plain, r: Report, time: nat, crc: seq<byte>, size: nat)
    requires Begins(p, r, time, crc, size)
    ensures NetShort(p, VERSION_AT) == 3 && NetLong(p, TIMESTAMP_AT) == time && NetShort(p, RETURN_CODE_AT) == r.code
    ensures StoredCrc(p) == Join(crc[3], crc[2], crc[1], crc[0])
  {
    PackParts(p, r, time, crc, size);
    ByteValue(0);
    ByteValue(3);
    assert p[0..2] == p[0..4][..2] == [0, 3] == Short(3);
    ShortReads(p, 0, 3);
    LongReads(p, 8, time);
    ShortReads(p, 12, r.code);
    var part := p[4..8];
    assert p[4] == part[0] && p[5] == part[1] && p[6] == part[2] && p[7] == part[3];
  }

  /** The server reports what the client said: host, service, return code and output. */
  lemma PackReported(p: Plain, r: Report, time: nat, crc: seq<byte>, size: nat)
    requires Begins(p, r, time, crc, size)
    ensures ReportOf(p) == r
  {
    NumbersRead(p, r, time, crc, size);
    PackParts(p, r, time, crc, size);
    FieldReads(r.host, p[HOST_AT..HOST_AT + HOST_SIZE], 64);
    FieldReads(r.service, p[SERVICE_AT..SERVICE_AT + SERVICE_SIZE], 128);
    assert p[OUTPUT_AT..OUTPUT_AT + OUTPUT_SIZE][..size] == p[206..206 + size];
    FieldReads(r.output, p[OUTPUT_AT..OUTPUT_AT + OUTPUT_SIZE], size);
  }

  lemma PackCleared(p: Plain, r: Report, time: nat, crc: seq<byte>, size: nat)
    requires Begins(p, r, time, crc, size)
    ensures ClearCrc(p)[..size + 208] == Layout(r, time, Nulls(4), size)
  {
    var n, whole, cleared := size + 208, Layout(r, time, crc, size), Layout(r, time, Nulls(4), size);
    LaidOut(r, time, crc, size);
    LaidOut(r, time, Nulls(4), size);
    forall k | 0 <= k < n
      ensures ClearCrc(p)[..n][k] == cleared[k]
    {
      assert k < 4 || k >= 8 ==> p[..n][k] == whole[k] == cleared[k];
      assert 4 <= k < 8 ==> cleared[k] == cleared[4..8][k - 4];
    }
  }

  /** The CRC test of a packet as the client sealed it. */
  lemma PackMatches(p: Plain, r: Report, time: nat, size: nat)
    requires Sayable(r, size) && time < 0x1_0000_0000 && size <= OUTPUT_FIELD
    requires p[..size + 208] == Pack(r, time, size)
    ensures CrcMatches(p, size + 208)
  {
    var bare := Layout(r, time, Nulls(4), size);
    PackCleared(p, r, time, Seal(bare), size);
    NumbersRead(p, r, time, Seal(bare), size);
    SealIsCrc(bare);
  }

  function Age(time: nat, now: nat): nat {
    if time > now then time - now else now - time
  }

  /** A packet dated with `time` is not too old, or 2^31 seconds or more away and taken for not too old. */
  predicate Passable(policy: Policy, time: nat) {
    var d := Age(time, policy.now) % 0x1_0000_0000;
    !policy.ageEnabled || policy.maxAge <= 0 || d <= policy.maxAge || d >= 0x8000_0000
  }

  lemma PassableIsFresh(policy: Policy, time: nat)
    ensures Passable(policy, time) <==> FreshEnough(policy, time)
  {
  }

  /** Such a packet is accepted exactly if it is not too old. */
  lemma PackAccepted(policy: Policy, p: Plain, r: Report, time: nat, size: nat)
    requires Sayable(r, size) && time < 0x1_0000_0000 && size <= OUTPUT_FIELD
    requires p[..size + 208] == Pack(r, time, size)
    ensures Accepted(policy, p, size + 208) <==> Passable(policy, time)
  {
    PackMatches(p, r, time, size);
    NumbersRead(p, r, time, Seal(Layout(r, time, Nulls(4), size)), size);
    PassableIsFresh(policy, time);
  }

  // ---- What a client sends, and what is reported ----------------------------------------------------------

  /** One packet for each report, dated with the times given. */
  function Packs(reports: seq<Report>, times: seq<nat>): (p: seq<Plain>)
    requires |times| == |reports|
    requires forall i :: 0 <= i < |reports| ==> Sayable(reports[i], OUTPUT_FIELD) && times[i] < 0x1_0000_0000
    ensures |p| == |reports|
  {
    seq(|reports|, i requires 0 <= i < |reports| => Pack(reports[i], times[i], OUTPUT_FIELD))
  }

  lemma PackWhole(policy: Policy, r: Report, time: nat)
    requires Sayable(r, OUTPUT_FIELD) && time < 0x1_0000_0000
    ensures ReportOf(Pack(r, time, OUTPUT_FIELD)) == r
    ensures Accepted(policy, Pack(r, time, OUTPUT_FIELD), PACKET_SIZE) <==> Passable(policy, time)
  {
    var p := Pack(r, time, OUTPUT_FIELD);
    assert p[..PACKET_SIZE] == p;
    PackAccepted(policy, p, r, time, OUTPUT_FIELD);
    PackReported(p, r, time, Seal(Layout(r, time, Nulls(4), OUTPUT_FIELD)), OUTPUT_FIELD);
  }

  /** The packets are good when they are examined if they are not too old then, and they report what was said. */
  lemma PacksReported(exam: Exam, reports: seq<Report>, times: seq<nat>)
    requires |times| == |reports|
    requires forall i :: 0 <= i < |reports| ==> Sayable(reports[i], OUTPUT_FIELD) && times[i] < 0x1_0000_0000
    requires forall i :: 0 <= i < |reports| ==> Passable(exam.At(i), times[i])
    ensures AllPass(exam, Packs(reports, times)) && ReportsOf(Packs(reports, times)) == reports
  {
    var packs := Packs(reports, times);
    forall i | 0 <= i < |reports|
      ensures Passes(exam, packs[i], i) && ReportsOf(packs)[i] == reports[i]
    {
      PackWhole(exam.At(i), reports[i], times[i]);
    }
  }

  // ---- An old packet, however it is encrypted -------------------------------------------------------------

  lemma DecryptedPrefix(p: Params, reg: Register, cipher: seq<byte>, n: nat)
    requires |p.transmittedIv| == IV_SIZE && n <= |cipher|
    ensures Decrypted(p, reg, cipher)[..n] == Decrypted(p, reg, cipher[..n])
  {
    assert cipher[..n] + cipher[n..] == cipher;
    if p.encryption > ENCRYPT_XOR {
      CfbDecryptConcat(p.head, reg, cipher[..n], cipher[n..]);
    }
  }

  lemma OldDecrypts(p: Params, iv: seq<byte>, plain: seq<byte>)
    requires |p.transmittedIv| == IV_SIZE && |plain| <= PACKET_SIZE
    ensures Decrypted(p, iv, Filled(Encrypted(p, iv, plain)))[..|plain|] == plain
  {
    var x := Encrypted(p, iv, plain);
    DecryptedPrefix(p, iv, Filled(x), |plain|);
    assert Filled(x)[..|plain|] == x;
    DecryptInvertsEncrypt(p, iv, plain);
  }

  /** An old client sends one packet of 720 bytes, and it arrives in one piece. Whatever the cipher makes of the rest of
      the buffer, the report is the one that was sent, and it is handed over exactly if it is not too old. */
  lemma OldPacketReported(exam: Exam, p: Params, iv: seq<byte>, r: Report, time: nat, limit: nat)
    requires |p.transmittedIv| == IV_SIZE && Sayable(r, OLD_OUTPUT_FIELD) && time < 0x1_0000_0000
    ensures var arrival := Encrypted(p, iv, Pack(r, time, OLD_OUTPUT_FIELD));
      && |arrival| == 720
      && Verdicts(exam, p, iv, Close(Run(limit, [arrival]))) == [Verdict(Passable(exam.At(0), time), r)]
  {
    var plain := Pack(r, time, OLD_OUTPUT_FIELD);
    var arrival := Encrypted(p, iv, plain);
    OldQueued(limit, arrival);
    var pair := Pair(Filled(arrival), 720);
    OldDecrypts(p, iv, plain);
    var q := Decrypted(p, iv, pair.bytes);
    PackAccepted(exam.At(0), q, r, time, OLD_OUTPUT_FIELD);
    PackReported(q, r, time, Seal(Layout(r, time, Nulls(4), OLD_OUTPUT_FIELD)), OLD_OUTPUT_FIELD);
    JudgedNext(exam, p, iv, [pair], 0);
    assert [pair][1..] == [];
  }

  lemma OldQueued(limit: nat, arrival: seq<byte>)
    requires |arrival| == 720
    ensures Close(Run(limit, [arrival])) == [Pair(Filled(arrival), 720)]
  {
    assert [arrival][..0] == [] && FRESH.input + arrival == arrival;
  }
}
