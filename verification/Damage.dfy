/** Which damage to a good packet the CRC test lets through. */
module Damage {
  import opened Bytes
  import opened Crc
  import opened Packet

  lemma CommonXor(a: Bits, b: Bits, c: Bits)
    requires |a| == |b| == |c|
    ensures a == c <==> Xor(b, c) == Xor(b, a)
  {
    if Xor(b, c) == Xor(b, a) {
      forall i | 0 <= i < |a|
        ensures a[i] == c[i]
      {
        assert Xor(b, c)[i] == Xor(b, a)[i];
      }
    }
  }

  /** Any damage at all to a good packet passes the CRC test if and only if the change of the CRC field is what the
      change of the other bytes leaves in an empty register. */
  lemma DamagePasses(good: Plain, bad: Plain, length: nat)
    requires length <= PACKET_SIZE && CrcMatches(good, length)
    ensures CrcMatches(bad, length) <==>
            Xor(StoredCrc(good), StoredCrc(bad)) ==
            Feed(Zeros(32), Xor(Message(ClearCrc(good)[..length]), Message(ClearCrc(bad)[..length])))
  {
    var x, y := ClearCrc(good)[..length], ClearCrc(bad)[..length];
    CrcDifference(x, y);
    CommonXor(Crc32(y), Crc32(x), StoredCrc(bad));
  }

  lemma StoredCrcInjective(p: Plain, q: Plain)
    requires StoredCrc(p) == StoredCrc(q)
    ensures forall k :: CRC_AT <= k < CRC_AT + 4 ==> p[k] == q[k]
  {
    var x, y := StoredCrc(p), StoredCrc(q);
    forall k | CRC_AT <= k < CRC_AT + 4
      ensures p[k] == q[k]
    {
      var i := 8 * (CRC_AT + 3 - k);
      assert ByteBits(p[k]) == x[i..i + 8] && ByteBits(q[k]) == y[i..i + 8];
      ByteBitsInjective(p[k], q[k]);
    }
  }

  /** Damage to the CRC field alone never passes. */
  lemma CrcFieldDamage(good: Plain, bad: Plain, length: nat, k: nat)
    requires length <= PACKET_SIZE && CrcMatches(good, length) && ClearCrc(good)[..length] == ClearCrc(bad)[..length]
    requires CRC_AT <= k < CRC_AT + 4 && good[k] != bad[k]
    ensures !CrcMatches(bad, length)
  {
    if StoredCrc(good) == StoredCrc(bad) { StoredCrcInjective(good, bad); }
  }

  // ---- A burst that goes unnoticed ----------------------------------------------------------------------

  /** Where `n` zero bits take the word `c`. */
  ghost predicate Leads(n: nat, c: bv64, d: bv64) {
    c <= 0xFFFF_FFFF && d <= 0xFFFF_FFFF && Word(d) == Steps(n, Word(c))
  }

  /** The polynomial 1 in the register. */
  const ONE: bv64 := 0x8000_0000

  /** One round of the method of Horner, which multiplies two polynomials by way of the bits of one of them; `odd` is
      the bit whose turn it is. */
  function Round(odd: bool, x: bv64, m: bv64): bv64 {
    if odd then Halved(m) ^ x else Halved(m)
  }

  function FourRounds(c: bv64, x: bv64, m: bv64): bv64 {
    Round(c & 8 != 0, x, Round(c & 4 != 0, x, Round(c & 2 != 0, x, Round(c & 1 != 0, x, m))))
  }

  function SixteenRounds(c: bv64, x: bv64, m: bv64): bv64 {
    FourRounds(c >> 12, x, FourRounds(c >> 8, x, FourRounds(c >> 4, x, FourRounds(c, x, m))))
  }

  /** The product of `c` and `x` modulo the generator. */
  function Product(c: bv64, x: bv64): bv64 {
    SixteenRounds(c >> 16, x, SixteenRounds(c, x, 0))
  }

  lemma HalvedLeads(n: nat, m: bv64, d: bv64)
    requires Leads(n, m, d)
    ensures Leads(n, Halved(m), Halved(d))
  {
    StepWord(m);
    StepWord(d);
    StepsCommute(n, Word(m));
  }

  lemma StepsCommute(n: nat, r: Bits)
    requires |r| == 32
    ensures Steps(n, Step(r)) == Step(Steps(n, r))
  {
    StepsSnoc(n, r);
  }

  /** Steps commute, and are linear. */
  lemma RoundLeads(n: nat, odd: bool, x: bv64, m: bv64, d: bv64)
    requires Leads(n, ONE, x) && Leads(n, m, d)
    ensures Leads(n, Round(odd, ONE, m), Round(odd, x, d))
  {
    HalvedLeads(n, m, d);
    if odd {
      XorLeads(n, Halved(m), Halved(d), ONE, x);
    }
  }

  lemma XorLeads(n: nat, c: bv64, d: bv64, e: bv64, f: bv64)
    requires Leads(n, c, d) && Leads(n, e, f)
    ensures Leads(n, c ^ e, d ^ f)
  {
    StepsLinear(n, Word(c), Word(e));
    WordXor(c, e);
    WordXor(d, f);
    XorWidth(c, e);
    XorWidth(d, f);
  }

  lemma FourLead(n: nat, c: bv64, x: bv64, m: bv64, d: bv64)
    requires Leads(n, ONE, x) && Leads(n, m, d)
    ensures Leads(n, FourRounds(c, ONE, m), FourRounds(c, x, d))
  {
    var m1, d1 := Round(c & 1 != 0, ONE, m), Round(c & 1 != 0, x, d);
    var m2, d2 := Round(c & 2 != 0, ONE, m1), Round(c & 2 != 0, x, d1);
    var m3, d3 := Round(c & 4 != 0, ONE, m2), Round(c & 4 != 0, x, d2);
    RoundLeads(n, c & 1 != 0, x, m, d);
    RoundLeads(n, c & 2 != 0, x, m1, d1);
    RoundLeads(n, c & 4 != 0, x, m2, d2);
    RoundLeads(n, c & 8 != 0, x, m3, d3);
  }

  lemma SixteenLead(n: nat, c: bv64, x: bv64, m: bv64, d: bv64)
    requires Leads(n, ONE, x) && Leads(n, m, d)
    ensures Leads(n, SixteenRounds(c, ONE, m), SixteenRounds(c, x, d))
  {
    var m1, d1 := FourRounds(c, ONE, m), FourRounds(c, x, d);
    var m2, d2 := FourRounds(c >> 4, ONE, m1), FourRounds(c >> 4, x, d1);
    var m3, d3 := FourRounds(c >> 8, ONE, m2), FourRounds(c >> 8, x, d2);
    FourLead(n, c, x, m, d);
    FourLead(n, c >> 4, x, m1, d1);
    FourLead(n, c >> 8, x, m2, d2);
    FourLead(n, c >> 12, x, m3, d3);
  }

  /** Stepping over `n` zero bits is multiplying by what they make of 1. */
  lemma ProductLeads(n: nat, c: bv64, x: bv64)
    requires Leads(n, ONE, x)
    ensures Leads(n, Product(c, ONE), Product(c, x))
  {
    StepsOfNothing(n);
    SixteenLead(n, c, x, 0, 0);
    SixteenLead(n, c >> 16, x, SixteenRounds(c, ONE, 0), SixteenRounds(c, x, 0));
  }

  lemma StepsOfNothing(n: nat)
    ensures Leads(n, 0, 0)
  {
    WordXor(0, 0);
    StepsLinear(n, Word(0), Word(0));
    assert Xor(Word(0), Word(0)) == Zeros(32) == Word(0);
    assert Xor(Steps(n, Word(0)), Steps(n, Word(0))) == Zeros(32);
  }

  lemma {:induction false} StepsAdd(m: nat, n: nat, r: Bits)
    requires |r| == 32
    ensures Steps(m + n, r) == Steps(n, Steps(m, r))
    decreases m
  {
    if m == 0 {
    } else {
      StepsAdd(m - 1, n, Step(r));
    }
  }

  /** Repeated squaring: twice as many zero bits, and possibly one more. */
  lemma Square(n: nat, x: bv64)
    requires Leads(n, ONE, x) && Product(x, ONE) == x
    ensures Leads(2 * n, ONE, Product(x, x)) && Leads(2 * n + 1, ONE, Halved(Product(x, x)))
  {
    ProductLeads(n, x, x);
    StepsAdd(n, n, Word(ONE));
    StepsSnoc(2 * n, Word(ONE));
    StepWord(Product(x, x));
  }

  /** The first 31 steps only shift. */
  lemma Shifting()
    ensures Word(ONE) == Zeros(31) + [true] && Word(1) == [true] + Zeros(31)
  {
    WordParts(ONE);
    SmallWord(1);
    assert ByteBits(1) == [true] + Zeros(7);
  }

  lemma FirstPower(n: nat)
    requires n == 31
    ensures Leads(n, ONE, 1)
  {
    Shifting();
    StepsShift(n, [true]);
  }

  lemma OneMore(n: nat, c: bv64, d: bv64)
    requires Leads(n, c, d)
    ensures Leads(n + 1, c, Halved(d))
  {
    StepsSnoc(n, Word(c));
    StepWord(d);
  }

  lemma FirstPowers(n: nat)
    requires Leads(n, ONE, 1)
    ensures Leads(n + 2, ONE, 0x76DC_4190)
  {
    OneMore(n, ONE, 1);
    OneMore(n + 1, ONE, 0xEDB8_8320);
  }

  lemma MiddlePowers(n: nat)
    requires Leads(n, ONE, 0x76DC_4190)
    ensures Leads(32 * n + 18, ONE, 0xEA8F_092B)
  {
    Square(n, 0x76DC_4190);
    Square(2 * n + 1, 0x60E0_9782);
    Square(4 * n + 2, 0x605C_B54B);
    Square(8 * n + 4, 0x3876_1E01);
    Square(16 * n + 9, 0x142C_DAB7);
  }

  lemma LastPowers(n: nat)
    requires Leads(n, ONE, 0xEA8F_092B)
    ensures Leads(32 * n, ONE, 0x02DF_53AF)
  {
    Square(n, 0xEA8F_092B);
    Square(2 * n, 0x2DCA_7D84);
    Square(4 * n, 0x0E2F_038B);
    Square(8 * n, 0x9996_ADFF);
    Square(16 * n, 0x0BE9_7686);
  }

  lemma LastProduct(n: nat)
    requires Leads(n, ONE, 0x02DF_53AF)
    ensures Leads(n, 0x17, 0x4080_AC39)
  {
    ProductLeads(n, 0x17, 0x02DF_53AF);
  }

  /** Where its own eight bits and the zero bits behind it take the byte 0x17 right after the CRC field. */
  lemma Trail(n: nat)
    requires n == 8 * (PACKET_SIZE - CRC_AT - 4)
    ensures Leads(n, 0x17, 0x4080_AC39)
  {
    FirstPower(31);
    FirstPowers(31);
    MiddlePowers(33);
    LastPowers(1074);
    LastProduct(n);
  }

  lemma {:induction false} QuietSteps(r: Bits, n: nat)
    requires |r| == 32
    ensures Feed(r, Zeros(n)) == Steps(n, r)
    decreases n
  {
    if n == 0 {
    } else {
      assert Zeros(n)[1..] == Zeros(n - 1) && r[0 := r[0] != false] == r;
      QuietSteps(Step(r), n - 1);
    }
  }

  lemma ByteInside(b: byte, before: nat, behind: nat, n: nat)
    requires n == behind + 8
    ensures Feed(Zeros(32), Zeros(before) + ByteBits(b) + Zeros(behind)) == Steps(n, Word(b as bv64))
  {
    var zero, eight := Zeros(32), n - behind;
    FeedConcat(zero, Zeros(before) + ByteBits(b), Zeros(behind));
    FeedConcat(zero, Zeros(before), ByteBits(b));
    FeedQuiet(Zeros(before));
    FeedSteps(zero, ByteBits(b));
    SmallWord(b);
    assert Xor(zero, Pad(ByteBits(b), 32)) == Word(b as bv64);
    QuietSteps(Steps(eight, Word(b as bv64)), behind);
    StepsAdd(eight, behind, Word(b as bv64));
  }

  lemma MessageAround(u: seq<byte>, a: byte, w: seq<byte>)
    ensures Message(u + [a] + w) == Message(u) + ByteBits(a) + Message(w)
  {
    MessageConcat(u + [a], w);
    MessageConcat(u, [a]);
    assert Message([a]) == ByteBits(a) + Message([]) == ByteBits(a);
  }

  lemma XorInside(u: Bits, x: Bits, y: Bits, w: Bits)
    requires |x| == |y|
    ensures Xor(u + x + w, u + y + w) == Zeros(|u|) + Xor(x, y) + Zeros(|w|)
  {
  }

  /** Two buffers that differ in one byte. */
  lemma OneByteDiffers(u: seq<byte>, a: byte, b: byte, w: seq<byte>)
    ensures Xor(Message(u + [a] + w), Message(u + [b] + w)) == Zeros(8 * |u|) + ByteBits(a ^ b) + Zeros(8 * |w|)
  {
    MessageAround(u, a, w);
    MessageAround(u, b, w);
    XorInside(Message(u), ByteBits(a), ByteBits(b), Message(w));
    ByteBitsXor(a, b);
  }

  lemma FlippedBit(p: Plain, q: Plain, k: nat, j: nat)
    requires k < PACKET_SIZE && j < 8
    ensures Flipped(p, q, 8 * k + j) <==> Bit(p[k] ^ q[k], j)
  {
    MessageAt(p, k);
    MessageAt(q, k);
    BitXor(p[k], q[k], j);
    assert Message(p)[8 * k..8 * k + 8][j] == Message(p)[8 * k + j];
    assert Message(q)[8 * k..8 * k + 8][j] == Message(q)[8 * k + j];
  }

  /** Fourteen bits flipped: ten in the CRC field, and four in the first byte of the timestamp behind it. */
  function Hit(p: Plain): Plain {
    p[CRC_AT := p[CRC_AT] ^ 0x40][CRC_AT + 1 := p[CRC_AT + 1] ^ 0x80][CRC_AT + 2 := p[CRC_AT + 2] ^ 0xAC]
     [CRC_AT + 3 := p[CRC_AT + 3] ^ 0x39][TIMESTAMP_AT := p[TIMESTAMP_AT] ^ 0x17]
  }

  lemma XorTwice(a: byte, b: byte)
    ensures a ^ (a ^ b) == b && a ^ a == 0
  {
  }

  /** What was flipped in byte `k`. */
  function Pattern(k: nat): byte {
    if k == CRC_AT then 0x40 else if k == CRC_AT + 1 then 0x80 else if k == CRC_AT + 2 then 0xAC
    else if k == CRC_AT + 3 then 0x39 else if k == TIMESTAMP_AT then 0x17 else 0
  }

  lemma HitPattern(p: Plain, k: nat)
    requires k < PACKET_SIZE
    ensures p[k] ^ Hit(p)[k] == Pattern(k)
  {
    XorTwice(p[k], Pattern(k));
  }

  lemma PatternBits(k: nat, j: nat)
    requires j < 8 && Bit(Pattern(k), j)
    ensures 38 <= 8 * k + j < 70
  {
  }

  lemma HitStored(p: Plain)
    ensures Xor(StoredCrc(p), StoredCrc(Hit(p))) == Word(0x4080_AC39)
  {
    var q := Hit(p);
    JoinXor(p[CRC_AT + 3], p[CRC_AT + 2], p[CRC_AT + 1], p[CRC_AT],
            q[CRC_AT + 3], q[CRC_AT + 2], q[CRC_AT + 1], q[CRC_AT]);
    HitPattern(p, CRC_AT);
    HitPattern(p, CRC_AT + 1);
    HitPattern(p, CRC_AT + 2);
    HitPattern(p, CRC_AT + 3);
  }

  lemma HitFed(p: Plain)
    ensures Feed(Zeros(32), Xor(Message(ClearCrc(p)), Message(ClearCrc(Hit(p))))) == Word(0x4080_AC39)
  {
    var x, y, n := ClearCrc(p), ClearCrc(Hit(p)), 8 * (PACKET_SIZE - CRC_AT - 4);
    var u, w := x[..TIMESTAMP_AT], x[TIMESTAMP_AT + 1..];
    assert x == u + [x[TIMESTAMP_AT]] + w && y == u + [y[TIMESTAMP_AT]] + w;
    OneByteDiffers(u, x[TIMESTAMP_AT], y[TIMESTAMP_AT], w);
    HitPattern(p, TIMESTAMP_AT);
    ByteInside(0x17, 8 * |u|, 8 * |w|, n);
    Trail(n);
  }

  lemma HitBurst(good: Plain)
    ensures BurstAt(good, Hit(good), 38) && Hit(good) != good
  {
    forall i | 0 <= i < 8 * PACKET_SIZE && Flipped(good, Hit(good), i)
      ensures 38 <= i < 70
    {
      FlippedBit(good, Hit(good), i / 8, i % 8);
      HitPattern(good, i / 8);
      PatternBits(i / 8, i % 8);
    }
    HitDiffers(good);
  }

  lemma HitDiffers(p: Plain)
    ensures Hit(p)[CRC_AT] != p[CRC_AT]
  {
  }

  /** A burst of 31 bits that starts in the CRC field and ends behind it, and that the CRC test does not see in any
      good packet of full size. */
  lemma BurstUnseen(good: Plain)
    requires CrcMatches(good, PACKET_SIZE)
    ensures Hit(good) != good && BurstAt(good, Hit(good), 38) && CrcMatches(Hit(good), PACKET_SIZE)
  {
    HitBurst(good);
    DamagePasses(good, Hit(good), PACKET_SIZE);
    assert ClearCrc(good)[..PACKET_SIZE] == ClearCrc(good);
    assert ClearCrc(Hit(good))[..PACKET_SIZE] == ClearCrc(Hit(good));
    HitStored(good);
    HitFed(good);
  }

  /** So with the age test switched off such a packet is accepted, with a wrong timestamp. */
  lemma BurstAccepted(policy: Policy, good: Plain)
    requires Accepted(policy, good, PACKET_SIZE) && !policy.ageEnabled
    ensures Accepted(policy, Hit(good), PACKET_SIZE) && Hit(good)[TIMESTAMP_AT] != good[TIMESTAMP_AT]
  {
    BurstUnseen(good);
    HitPattern(good, TIMESTAMP_AT);
    XorTwice(good[TIMESTAMP_AT], 0);
  }
}
