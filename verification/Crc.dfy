/** The CRC-32 of nsca_utils.cpp. Its register is compared with two references: polynomials over GF(2) divided
    the schoolbook way, and a register fed one message bit at a time. Coefficients are listed highest degree
    first; the code keeps them reflected, so coefficient 0 of a register is the low bit of the machine word. */
module Crc {
  import opened Bytes
  type Bits = seq<bool>

  // ---- Polynomials over GF(2) -------------------------------------------------------------------

  function Zeros(n: nat): (z: Bits)
    ensures |z| == n
  {
    seq(n, _ => false)
  }

  function Xor(a: Bits, b: Bits): (c: Bits)
    requires |a| == |b|
    ensures |c| == |a|
  {
    seq(|a|, i requires 0 <= i < |a| => a[i] != b[i])
  }

  predicate IsZero(a: Bits) {
    forall i :: 0 <= i < |a| ==> !a[i]
  }

  /** x^32 is implicit; the other terms of the generator of section 8.1.1.6.2 of ITU-T V.42. */
  function Generator(): (g: Bits)
    ensures |g| == 32
  {
    seq(32, i => 31 - i in {26, 23, 22, 16, 12, 11, 10, 8, 7, 5, 4, 2, 1, 0})
  }

  /** Schoolbook long division: the remainder of the dividend `d` by the generator. */
  function Remainder(d: Bits): (r: Bits)
    requires |d| >= 32
    ensures |r| == 32
    decreases |d|
  {
    if |d| == 32 then d
    else Remainder(if d[0] then Xor(d[1..], Generator() + Zeros(|d| - 33)) else d[1..])
  }

  function Ones(n: nat): (z: Bits)
    ensures |z| == n
  {
    seq(n, _ => true)
  }

  function Pad(a: Bits, n: nat): (p: Bits)
    requires |a| <= n
    ensures |p| == n
  {
    a + Zeros(n - |a|)
  }

  /** The CRC as V.42 words it: complement the first 32 bits, append 32 zeros, divide, complement the remainder. */
  function Division(message: Bits): (r: Bits)
    ensures |r| == 32
  {
    Xor(Remainder(Xor(message + Zeros(32), Pad(Ones(32), |message| + 32))), Ones(32))
  }

  // ---- The register, one bit at a time -----------------------------------------------------------

  function Shift(r: Bits): (s: Bits)
    requires |r| > 0
    ensures |s| == |r|
  {
    r[1..] + [false]
  }

  function Step(r: Bits): (s: Bits)
    requires |r| == 32
    ensures |s| == 32
  {
    if r[0] then Xor(Shift(r), Generator()) else Shift(r)
  }

  function StepBit(r: Bits, bit: bool): (s: Bits)
    requires |r| == 32
    ensures |s| == 32
  {
    Step(r[0 := r[0] != bit])
  }

  function Feed(r: Bits, bits: Bits): (s: Bits)
    requires |r| == 32
    ensures |s| == 32
    decreases |bits|
  {
    if bits == [] then r else Feed(StepBit(r, bits[0]), bits[1..])
  }

  function Steps(n: nat, r: Bits): (s: Bits)
    requires |r| == 32
    ensures |s| == 32
    decreases n
  {
    if n == 0 then r else Steps(n - 1, Step(r))
  }

  lemma {:induction false} FeedConcat(r: Bits, x: Bits, y: Bits)
    requires |r| == 32
    ensures Feed(r, x + y) == Feed(Feed(r, x), y)
    decreases |x|
  {
    if x == [] {
      assert x + y == y;
    } else {
      assert (x + y)[1..] == x[1..] + y;
      FeedConcat(StepBit(r, x[0]), x[1..], y);
    }
  }

  // ---- The two references agree -------------------------------------------------------------------

  /** A register `r` standing over the head of the dividend `m` followed by 32 zeros. */
  lemma {:induction false} FeedDivides(r: Bits, m: Bits)
    requires |r| == 32
    ensures Remainder(Xor(m + Zeros(32), Pad(r, |m| + 32))) == Feed(r, m)
    decreases |m|
  {
    var d := Xor(m + Zeros(32), Pad(r, |m| + 32));
    if m == [] {
      assert d == r;
    } else {
      var r' := StepBit(r, m[0]);
      var m' := m[1..];
      var d' := if d[0] then Xor(d[1..], Generator() + Zeros(|d| - 33)) else d[1..];
      assert d' == Xor(m' + Zeros(32), Pad(r', |m'| + 32)) by {
        var x, y := m' + Zeros(32), Pad(r', |m'| + 32);
        assert d[0] == (r[0] != m[0]);
        forall i | 0 <= i < |d'|
          ensures d'[i] == (x[i] != y[i])
        {
          assert d[1..][i] == ((m + Zeros(32))[i + 1] != Pad(r, |m| + 32)[i + 1]);
          assert (m + Zeros(32))[i + 1] == x[i];
        }
      }
      FeedDivides(r', m');
    }
  }

  lemma RegisterDivides(m: Bits)
    ensures Xor(Feed(Ones(32), m), Ones(32)) == Division(m)
  {
    FeedDivides(Ones(32), m);
  }

  // ---- Linearity and bursts -----------------------------------------------------------------------

  lemma StepLinear(a: Bits, b: Bits)
    requires |a| == |b| == 32
    ensures Step(Xor(a, b)) == Xor(Step(a), Step(b))
  {
    var g := Generator();
    assert Shift(Xor(a, b)) == Xor(Shift(a), Shift(b));
  }

  lemma {:induction false} FeedLinear(a: Bits, b: Bits, x: Bits, y: Bits)
    requires |a| == |b| == 32 && |x| == |y|
    ensures Feed(Xor(a, b), Xor(x, y)) == Xor(Feed(a, x), Feed(b, y))
    decreases |x|
  {
    if x == [] {
    } else {
      var a0, b0 := a[0 := a[0] != x[0]], b[0 := b[0] != y[0]];
      var z := Xor(x, y);
      assert Xor(a, b)[0 := Xor(a, b)[0] != z[0]] == Xor(a0, b0);
      assert z[1..] == Xor(x[1..], y[1..]);
      StepLinear(a0, b0);
      FeedLinear(StepBit(a, x[0]), StepBit(b, y[0]), x[1..], y[1..]);
    }
  }

  /** A step without input is invertible: only the zero register becomes zero. */
  lemma StepZero(r: Bits)
    requires |r| == 32
    ensures IsZero(Step(r)) <==> IsZero(r)
  {
    var g := Generator();
    assert g[31];
    if r[0] {
      assert Step(r)[31];
    } else {
      assert forall i :: 0 < i < 32 ==> Step(r)[i - 1] == r[i];
    }
  }

  /** The next 32 input bits. */
  function Ahead(e: Bits): (win: Bits)
    ensures |win| == 32
  {
    Pad(e, |e| + 32)[..32]
  }

  lemma AheadNext(e: Bits)
    requires e != [] && forall i :: 32 <= i < |e| ==> !e[i]
    ensures Ahead(e[1..]) == Ahead(e)[1..] + [false] && Ahead(e)[0] == e[0]
  {
    var now, next := Pad(e, |e| + 32), Pad(e[1..], |e| + 31);
    assert now[0] == e[0] && Ahead(e)[0] == now[0];
    forall i | 0 <= i < 32
      ensures Ahead(e[1..])[i] == (Ahead(e)[1..] + [false])[i]
    {
      assert next[i] == now[i + 1];
    }
  }

  lemma StepAhead(r: Bits, win: Bits)
    requires |r| == |win| == 32
    ensures Xor(StepBit(r, win[0]), win[1..] + [false]) == Step(Xor(r, win))
  {
    var x, y := Xor(StepBit(r, win[0]), win[1..] + [false]), Step(Xor(r, win));
    forall i | 0 <= i < 32
      ensures x[i] == y[i]
    {
      assert Xor(r, win)[0] == (r[0] != win[0]);
    }
  }

  /** The register keeps a difference iff it differs from the window of input still to come. */
  lemma {:induction false} FeedWindow(r: Bits, e: Bits)
    requires |r| == 32
    requires forall i :: 32 <= i < |e| ==> !e[i]
    ensures IsZero(Feed(r, e)) <==> IsZero(Xor(r, Ahead(e)))
    decreases |e|
  {
    if e == [] {
      assert Xor(r, Ahead(e)) == r;
    } else {
      AheadNext(e);
      StepAhead(r, Ahead(e));
      StepZero(Xor(r, Ahead(e)));
      FeedWindow(StepBit(r, e[0]), e[1..]);
    }
  }

  // ---- Bytes and machine words --------------------------------------------------------------------

  predicate Bit(b: byte, k: nat) {
    if k == 0 then b & 0x01 != 0 else if k == 1 then b & 0x02 != 0
    else if k == 2 then b & 0x04 != 0 else if k == 3 then b & 0x08 != 0
    else if k == 4 then b & 0x10 != 0 else if k == 5 then b & 0x20 != 0
    else if k == 6 then b & 0x40 != 0 else b & 0x80 != 0
  }

  /** A byte as the code feeds it: least significant bit first. */
  function ByteBits(b: byte): (bits: Bits)
    ensures |bits| == 8
  {
    seq(8, k requires 0 <= k < 8 => Bit(b, k))
  }

  function Message(buf: seq<byte>): (bits: Bits)
    ensures |bits| == 8 * |buf|
  {
    if buf == [] then [] else ByteBits(buf[0]) + Message(buf[1..])
  }

  /** The CRC of a buffer. */
  function Crc32(buf: seq<byte>): (r: Bits)
    ensures |r| == 32
  {
    Division(Message(buf))
  }

  lemma {:induction false} MessageConcat(a: seq<byte>, b: seq<byte>)
    ensures Message(a + b) == Message(a) + Message(b)
    decreases |a|
  {
    if a == [] {
      assert a + b == b;
    } else {
      assert (a + b)[1..] == a[1..] + b;
      MessageConcat(a[1..], b);
    }
  }

  lemma BitsDetermine(a: byte, b: byte)
    requires Bit(a, 0) == Bit(b, 0) && Bit(a, 1) == Bit(b, 1) && Bit(a, 2) == Bit(b, 2) && Bit(a, 3) == Bit(b, 3)
    requires Bit(a, 4) == Bit(b, 4) && Bit(a, 5) == Bit(b, 5) && Bit(a, 6) == Bit(b, 6) && Bit(a, 7) == Bit(b, 7)
    ensures a == b
  {
  }

  lemma ByteBitsInjective(a: byte, b: byte)
    requires ByteBits(a) == ByteBits(b)
    ensures a == b
  {
    var x, y := ByteBits(a), ByteBits(b);
    assert forall k :: 0 <= k < 8 ==> x[k] == Bit(a, k) && y[k] == Bit(b, k);
    BitsDetermine(a, b);
  }

  lemma {:induction false} MessageInjective(a: seq<byte>, b: seq<byte>)
    requires |a| == |b| && Message(a) == Message(b)
    ensures a == b
    decreases |a|
  {
    if a == [] {
    } else {
      assert ByteBits(a[0]) == Message(a)[..8] == Message(b)[..8] == ByteBits(b[0]);
      ByteBitsInjective(a[0], b[0]);
      assert Message(a[1..]) == Message(a)[8..] == Message(b)[8..] == Message(b[1..]);
      MessageInjective(a[1..], b[1..]);
    }
  }

  lemma DifferenceSurvives(d: Bits, start: nat, hit: nat)
    requires start <= hit < |d| && d[hit]
    requires forall i :: 0 <= i < |d| && d[i] ==> start <= i < start + 32
    ensures !IsZero(Feed(Zeros(32), d))
  {
    var zero, quiet, e := Zeros(32), d[..start], d[start..];
    FeedConcat(zero, quiet, e);
    FeedQuiet(quiet);
    assert d == quiet + e;
    BurstSurvives(e, hit - start);
  }

  lemma BurstSurvives(e: Bits, hit: nat)
    requires hit < |e| && e[hit]
    requires forall i :: 0 <= i < |e| && e[i] ==> i < 32
    ensures !IsZero(Feed(Zeros(32), e))
  {
    WindowVisible(e, hit);
    FeedWindow(Zeros(32), e);
  }

  lemma WindowVisible(e: Bits, j: nat)
    requires j < |e| && j < 32 && e[j]
    ensures !IsZero(Xor(Zeros(32), Ahead(e)))
  {
    assert Xor(Zeros(32), Ahead(e))[j];
  }

  lemma FeedQuiet(quiet: Bits)
    requires IsZero(quiet)
    ensures Feed(Zeros(32), quiet) == Zeros(32)
  {
    FeedWindow(Zeros(32), quiet);
    assert IsZero(Xor(Zeros(32), Ahead(quiet)));
  }

  predicate Flipped(a: seq<byte>, b: seq<byte>, i: nat)
    requires |a| == |b| && i < 8 * |a|
  {
    Message(a)[i] != Message(b)[i]
  }

  /** The two buffers differ at most in 32 consecutive bits. */
  predicate BurstAt(a: seq<byte>, b: seq<byte>, start: nat) {
    |a| == |b| && forall i :: 0 <= i < 8 * |a| && Flipped(a, b, i) ==> start <= i < start + 32
  }

  /** The CRCs of two buffers of one length differ by what the difference of the buffers leaves in an empty register. */
  lemma CrcDifference(a: seq<byte>, b: seq<byte>)
    requires |a| == |b|
    ensures Xor(Crc32(a), Crc32(b)) == Feed(Zeros(32), Xor(Message(a), Message(b)))
  {
    var x, y, ones := Message(a), Message(b), Ones(32);
    var fx, fy := Feed(ones, x), Feed(ones, y);
    FeedLinear(ones, ones, x, y);
    assert Xor(ones, ones) == Zeros(32);
    RegisterDivides(x);
    RegisterDivides(y);
    assert Xor(Xor(fx, ones), Xor(fy, ones)) == Xor(fx, fy);
  }

  /** Any damage confined to 32 consecutive bits changes the CRC. */
  lemma BurstDetected(a: seq<byte>, b: seq<byte>, start: nat)
    requires BurstAt(a, b, start) && a != b
    ensures Crc32(a) != Crc32(b)
  {
    var x, y := Message(a), Message(b);
    if x == y { MessageInjective(a, b); }
    var hit :| 0 <= hit < |x| && x[hit] != y[hit];
    assert Flipped(a, b, hit) && forall i :: 0 <= i < |x| && x[i] != y[i] ==> Flipped(a, b, i);
    DifferenceSurvives(Xor(x, y), start, hit);
    CrcDifference(a, b);
  }

  // ---- The table-driven code ----------------------------------------------------------------------

  function Octet(x: bv64): byte {
    (x & 0xFF) as bv8
  }

  /** The 32 coefficients held in the low half of the wide register. */
  function Word(x: bv64): (r: Bits)
    ensures |r| == 32
  {
    Join(Octet(x), Octet(x >> 8), Octet(x >> 16), Octet(x >> 24))
  }

  function Join(b0: byte, b1: byte, b2: byte, b3: byte): (r: Bits)
    ensures |r| == 32
  {
    ByteBits(b0) + ByteBits(b1) + ByteBits(b2) + ByteBits(b3)
  }

  lemma FourXor(x0: Bits, x1: Bits, x2: Bits, x3: Bits, y0: Bits, y1: Bits, y2: Bits, y3: Bits)
    requires |x0| == |x1| == |x2| == |x3| == |y0| == |y1| == |y2| == |y3| == 8
    ensures Xor(x0, y0) + Xor(x1, y1) + Xor(x2, y2) + Xor(x3, y3) == Xor(x0 + x1 + x2 + x3, y0 + y1 + y2 + y3)
  {
  }

  lemma FourShift(x0: Bits, x1: Bits, x2: Bits, x3: Bits)
    requires |x0| == |x1| == |x2| == |x3| == 8
    ensures (x0[1..] + [x1[0]]) + (x1[1..] + [x2[0]]) + (x2[1..] + [x3[0]]) + (x3[1..] + [false])
            == Shift(x0 + x1 + x2 + x3)
  {
  }

  lemma JoinXor(a0: byte, a1: byte, a2: byte, a3: byte, b0: byte, b1: byte, b2: byte, b3: byte)
    ensures Join(a0 ^ b0, a1 ^ b1, a2 ^ b2, a3 ^ b3) == Xor(Join(a0, a1, a2, a3), Join(b0, b1, b2, b3))
  {
    ByteBitsXor(a0, b0);
    ByteBitsXor(a1, b1);
    ByteBitsXor(a2, b2);
    ByteBitsXor(a3, b3);
    FourXor(ByteBits(a0), ByteBits(a1), ByteBits(a2), ByteBits(a3),
            ByteBits(b0), ByteBits(b1), ByteBits(b2), ByteBits(b3));
  }

  lemma WordParts(x: bv64)
    ensures Word(x)[..8] == ByteBits(Octet(x))
    ensures Word(x)[8..16] == ByteBits(Octet(x >> 8))
    ensures Word(x)[16..24] == ByteBits(Octet(x >> 16))
    ensures Word(x)[24..] == ByteBits(Octet(x >> 24))
  {
  }

  lemma OctetsDetermine(x: bv64, y: bv64)
    requires x <= 0xFFFF_FFFF && y <= 0xFFFF_FFFF
    requires Octet(x) == Octet(y) && Octet(x >> 8) == Octet(y >> 8)
    requires Octet(x >> 16) == Octet(y >> 16) && Octet(x >> 24) == Octet(y >> 24)
    ensures x == y
  {
  }

  lemma WordInjective(x: bv64, y: bv64)
    requires x <= 0xFFFF_FFFF && y <= 0xFFFF_FFFF && Word(x) == Word(y)
    ensures x == y
  {
    WordParts(x);
    WordParts(y);
    ByteBitsInjective(Octet(x), Octet(y));
    ByteBitsInjective(Octet(x >> 8), Octet(y >> 8));
    ByteBitsInjective(Octet(x >> 16), Octet(y >> 16));
    ByteBitsInjective(Octet(x >> 24), Octet(y >> 24));
    OctetsDetermine(x, y);
  }

  lemma MaskXor(a: byte, b: byte, m: byte)
    requires m in {0x01, 0x02, 0x04, 0x08, 0x10, 0x20, 0x40, 0x80}
    ensures ((a ^ b) & m != 0) == ((a & m != 0) != (b & m != 0))
  {
  }

  lemma BitXor(a: byte, b: byte, k: nat)
    ensures Bit(a ^ b, k) == (Bit(a, k) != Bit(b, k))
  {
    MaskXor(a, b, if k == 0 then 0x01 else if k == 1 then 0x02 else if k == 2 then 0x04 else if k == 3 then 0x08
      else if k == 4 then 0x10 else if k == 5 then 0x20 else if k == 6 then 0x40 else 0x80);
  }

  lemma ByteBitsXor(a: byte, b: byte)
    ensures ByteBits(a ^ b) == Xor(ByteBits(a), ByteBits(b))
  {
    var x, y, z := ByteBits(a), ByteBits(b), ByteBits(a ^ b);
    forall k | 0 <= k < 8
      ensures z[k] == (x[k] != y[k])
    {
      BitXor(a, b, k);
    }
  }

  ghost predicate OctetsXor(x: bv64, y: bv64, z: bv64) {
    && Octet(z) == Octet(x) ^ Octet(y)
    && Octet(z >> 8) == Octet(x >> 8) ^ Octet(y >> 8)
    && Octet(z >> 16) == Octet(x >> 16) ^ Octet(y >> 16)
    && Octet(z >> 24) == Octet(x >> 24) ^ Octet(y >> 24)
  }

  lemma OctetXor(x: bv64, y: bv64)
    ensures OctetsXor(x, y, x ^ y)
  {
  }

  lemma WordOctetsXor(x: bv64, y: bv64, z: bv64)
    requires OctetsXor(x, y, z)
    ensures Word(z) == Xor(Word(x), Word(y))
  {
    JoinXor(Octet(x), Octet(x >> 8), Octet(x >> 16), Octet(x >> 24),
            Octet(y), Octet(y >> 8), Octet(y >> 16), Octet(y >> 24));
  }

  lemma WordXor(x: bv64, y: bv64)
    ensures Word(x ^ y) == Xor(Word(x), Word(y))
  {
    OctetXor(x, y);
    WordOctetsXor(x, y, x ^ y);
  }

  /** One byte moved down a bit, taking in the low bit of the next byte. */
  function HalfByte(b: byte, next: byte): byte {
    (b >> 1) | (next << 7)
  }

  lemma BitHalf(b: byte, next: byte, k: nat)
    requires k < 8
    ensures Bit(HalfByte(b, next), k) == if k < 7 then Bit(b, k + 1) else Bit(next, 0)
  {
  }

  lemma ByteBitsHalf(b: byte, next: byte)
    ensures ByteBits(HalfByte(b, next)) == ByteBits(b)[1..] + [ByteBits(next)[0]]
  {
    var h, l := ByteBits(HalfByte(b, next)), ByteBits(b);
    forall k | 0 <= k < 8
      ensures h[k] == if k < 7 then l[k + 1] else ByteBits(next)[0]
    {
      BitHalf(b, next, k);
    }
  }

  ghost predicate OctetsHalf(x: bv64, h: bv64) {
    && Octet(h) == HalfByte(Octet(x), Octet(x >> 8))
    && Octet(h >> 8) == HalfByte(Octet(x >> 8), Octet(x >> 16))
    && Octet(h >> 16) == HalfByte(Octet(x >> 16), Octet(x >> 24))
    && Octet(h >> 24) == HalfByte(Octet(x >> 24), 0)
  }

  lemma OctetHalf(x: bv64)
    requires x <= 0xFFFF_FFFF
    ensures OctetsHalf(x, x >> 1)
  {
  }

  lemma JoinHalf(b0: byte, b1: byte, b2: byte, b3: byte)
    ensures Join(HalfByte(b0, b1), HalfByte(b1, b2), HalfByte(b2, b3), HalfByte(b3, 0)) == Shift(Join(b0, b1, b2, b3))
  {
    ByteBitsHalf(b0, b1);
    ByteBitsHalf(b1, b2);
    ByteBitsHalf(b2, b3);
    ByteBitsHalf(b3, 0);
    assert ByteBits(0)[0] == Bit(0, 0) == false;
    FourShift(ByteBits(b0), ByteBits(b1), ByteBits(b2), ByteBits(b3));
  }

  lemma WordOctetsHalf(x: bv64, h: bv64)
    requires OctetsHalf(x, h)
    ensures Word(h) == Shift(Word(x))
  {
    JoinHalf(Octet(x), Octet(x >> 8), Octet(x >> 16), Octet(x >> 24));
  }

  lemma WordHalf(x: bv64)
    requires x <= 0xFFFF_FFFF
    ensures Word(x >> 1) == Shift(Word(x))
  {
    OctetHalf(x);
    WordOctetsHalf(x, x >> 1);
  }

  lemma OctetShift(x: bv64)
    ensures var y := (x >> 8) & 0x00FF_FFFF;
      Octet(y) == Octet(x >> 8) && Octet(y >> 8) == Octet(x >> 16) && Octet(y >> 16) == Octet(x >> 24)
      && Octet(y >> 24) == 0
  {
  }

  lemma WordShiftByte(x: bv64)
    ensures Word((x >> 8) & 0x00FF_FFFF) == Word(x)[8..] + Zeros(8)
  {
    OctetShift(x);
    var z := ByteBits(0);
    assert forall k :: 0 <= k < 8 ==> z[k] == Bit(0, k);
  }

  lemma WordGenerator()
    ensures Word(0xEDB8_8320) == Generator()
  {
  }

  lemma WordComplement()
    ensures Word(0xFFFF_FFFF) == Ones(32)
  {}

  lemma {:induction false} StepsSnoc(n: nat, r: Bits)
    requires |r| == 32
    ensures Steps(n + 1, r) == Step(Steps(n, r))
    decreases n
  {
    if n == 0 {
    } else {
      StepsSnoc(n - 1, Step(r));
    }
  }

  lemma {:induction false} StepsLinear(n: nat, a: Bits, b: Bits)
    requires |a| == |b| == 32
    ensures Steps(n, Xor(a, b)) == Xor(Steps(n, a), Steps(n, b))
    decreases n
  {
    if n == 0 {
    } else {
      StepLinear(a, b);
      StepsLinear(n - 1, Step(a), Step(b));
    }
  }

  /** Stepping over zero coefficients only shifts. */
  lemma {:induction false} StepsShift(n: nat, t: Bits)
    requires n + |t| == 32
    ensures Steps(n, Zeros(n) + t) == t + Zeros(n)
    decreases n
  {
    if n == 0 {
      assert Zeros(0) + t == t == t + Zeros(0);
    } else {
      assert Step(Zeros(n) + t) == Zeros(n - 1) + (t + [false]);
      StepsShift(n - 1, t + [false]);
      assert t + [false] + Zeros(n - 1) == t + Zeros(n);
    }
  }

  /** A short input can be added to the register first and then only stepped over. */
  lemma {:induction false} FeedSteps(r: Bits, e: Bits)
    requires |r| == 32 && |e| <= 32
    ensures Feed(r, e) == Steps(|e|, Xor(r, Pad(e, 32)))
    decreases |e|
  {
    var w := Xor(r, Pad(e, 32));
    if e == [] {
      assert w == r;
    } else {
      var r', e' := StepBit(r, e[0]), e[1..];
      assert Xor(r', Pad(e', 32)) == Step(w) by {
        assert Pad(e', 32) == Pad(e, 32)[1..] + [false];
      }
      FeedSteps(r', e');
    }
  }

  function TableEntry(b: byte): (r: Bits)
    ensures |r| == 32
  {
    Steps(8, ByteBits(b) + Zeros(24))
  }

  lemma SplitRegister(r: Bits, e: Bits, index: Bits)
    requires |r| == 32 && |e| == 8 && index == Xor(r[..8], e)
    ensures Xor(r, Pad(e, 32)) == Xor(Zeros(8) + r[8..], index + Zeros(24))
  {
  }

  /** The identity behind the table: eight input bits at once. */
  lemma FeedOctet(r: Bits, e: Bits, index: Bits)
    requires |r| == 32 && |e| == 8 && index == Xor(r[..8], e)
    ensures Feed(r, e) == Xor(r[8..] + Zeros(8), Steps(8, index + Zeros(24)))
  {
    var high, low := Zeros(8) + r[8..], index + Zeros(24);
    FeedSteps(r, e);
    SplitRegister(r, e, index);
    StepsLinear(8, high, low);
    StepsShift(8, r[8..]);
  }

  lemma FeedByte(r: Bits, b: byte, index: byte)
    requires |r| == 32 && ByteBits(index) == Xor(r[..8], ByteBits(b))
    ensures Feed(r, ByteBits(b)) == Xor(r[8..] + Zeros(8), TableEntry(index))
  {
    FeedOctet(r, ByteBits(b), ByteBits(index));
  }

  ghost predicate HoldsEntry(t: bv64, b: byte) {
    t <= 0xFFFF_FFFF && Word(t) == TableEntry(b)
  }

  ghost predicate IsTable(table: seq<bv64>) {
    |table| == 256 && forall i :: 0 <= i < 256 ==> HoldsEntry(table[i], i as bv8)
  }

  lemma XorWidth(x: bv64, y: bv64)
    requires x <= 0xFFFF_FFFF && y <= 0xFFFF_FFFF
    ensures x ^ y <= 0xFFFF_FFFF
  {
  }

  /** The body of the inner loop that fills the table. */
  function Halved(crc: bv64): bv64 {
    if crc & 1 != 0 then (crc >> 1) ^ 0xEDB8_8320 else crc >> 1
  }

  lemma StepWord(crc: bv64)
    requires crc <= 0xFFFF_FFFF
    ensures Halved(crc) <= 0xFFFF_FFFF && Word(Halved(crc)) == Step(Word(crc))
  {
    WordHalf(crc);
    WordXor(crc >> 1, 0xEDB8_8320);
    WordGenerator();
    LowBit(crc);
  }

  ghost predicate Stepped(crc: bv64, n: nat, b: byte) {
    crc <= 0xFFFF_FFFF && Word(crc) == Steps(n, ByteBits(b) + Zeros(24))
  }

  lemma StepOnce(crc: bv64, n: nat, b: byte)
    requires Stepped(crc, n, b)
    ensures Stepped(Halved(crc), n + 1, b)
  {
    StepWord(crc);
    StepsSnoc(n, ByteBits(b) + Zeros(24));
  }

  lemma LowBit(x: bv64)
    ensures Word(x)[0] == (x & 1 != 0)
  {
    assert ByteBits(Octet(x))[0] == Bit(Octet(x), 0);
  }

  lemma SmallWord(b: byte)
    ensures b as bv64 <= 0xFFFF_FFFF && Word(b as bv64) == ByteBits(b) + Zeros(24)
  {
    assert Octet(b as bv64) == b && Octet(b as bv64 >> 8) == 0;
    assert Octet(b as bv64 >> 16) == 0 && Octet(b as bv64 >> 24) == 0;
    var z := ByteBits(0);
    assert forall k :: 0 <= k < 8 ==> z[k] == Bit(0, k);
  }

  method ComputeEntry(b: byte) returns (crc: bv64)
    ensures HoldsEntry(crc, b)
  {
    crc := b as bv64;
    SmallWord(b);
    var j := 8;
    while j > 0
      invariant 0 <= j <= 8
      invariant Stepped(crc, 8 - j, b)
    {
      StepOnce(crc, 8 - j, b);
      crc := Halved(crc);
      j := j - 1;
    }
  }

  method GenerateTable(table: array<bv64>)
    requires table.Length == 256
    modifies table
    ensures IsTable(table[..])
  {
    for i := 0 to 256
      invariant forall k :: 0 <= k < i ==> HoldsEntry(table[k], k as bv8)
    {
      var entry := ComputeEntry(i as bv8);
      table[i] := entry;
    }
  }

  /** `char` is signed: a byte with its top bit set reaches the wide register sign-extended. */
  function SignExtend(b: byte): bv64 {
    if b & 0x80 != 0 then 0xFFFF_FFFF_FFFF_FF00 | (b as bv64) else b as bv64
  }

  /** Which table slot the register and the next byte select. */
  function Slot(crc: bv64, b: byte): byte {
    Octet(crc ^ SignExtend(b))
  }

  function Index(crc: bv64, b: byte): (i: int)
    ensures 0 <= i < 256
  {
    ((crc ^ SignExtend(b)) & 0xFF) as int
  }

  function Next(crc: bv64, entry: bv64): bv64 {
    ((crc >> 8) & 0x00FF_FFFF) ^ entry
  }

  lemma SlotIsXor(crc: bv64, b: byte)
    ensures Slot(crc, b) == Octet(crc) ^ b
  {
  }

  lemma IndexIsSlot(crc: bv64, b: byte)
    ensures Index(crc, b) as bv8 == Slot(crc, b)
  {
  }

  lemma ShiftedWidth(crc: bv64)
    ensures (crc >> 8) & 0x00FF_FFFF <= 0xFFFF_FFFF
  {
  }

  /** One round of the fast loop: the wide register stays narrow and takes in one whole byte. */
  lemma FastStep(crc: bv64, b: byte, entry: bv64)
    requires crc <= 0xFFFF_FFFF && HoldsEntry(entry, Slot(crc, b))
    ensures Next(crc, entry) <= 0xFFFF_FFFF && Word(Next(crc, entry)) == Feed(Word(crc), ByteBits(b))
  {
    var shifted := (crc >> 8) & 0x00FF_FFFF;
    SlotIsXor(crc, b);
    ByteBitsXor(Octet(crc), b);
    WordParts(crc);
    FeedByte(Word(crc), b, Slot(crc, b));
    WordShiftByte(crc);
    WordXor(shifted, entry);
    ShiftedWidth(crc);
    XorWidth(shifted, entry);
  }

  lemma Lookup(table: seq<bv64>, crc: bv64, b: byte)
    requires IsTable(table)
    ensures HoldsEntry(table[Index(crc, b)], Slot(crc, b))
  {
    IndexIsSlot(crc, b);
  }

  ghost predicate Digested(crc: bv64, buf: seq<byte>) {
    crc <= 0xFFFF_FFFF && Word(crc) == Feed(Ones(32), Message(buf))
  }

  lemma FeedNext(r: Bits, done: seq<byte>, b: byte)
    requires r == Feed(Ones(32), Message(done))
    ensures Feed(r, ByteBits(b)) == Feed(Ones(32), Message(done + [b]))
  {
    MessageConcat(done, [b]);
    assert Message([b]) == ByteBits(b);
    FeedConcat(Ones(32), Message(done), ByteBits(b));
  }

  lemma FastRound(crc: bv64, done: seq<byte>, b: byte, table: seq<bv64>)
    requires IsTable(table) && Digested(crc, done)
    ensures Digested(Next(crc, table[Index(crc, b)]), done + [b])
  {
    Lookup(table, crc, b);
    FastStep(crc, b, table[Index(crc, b)]);
    FeedNext(Word(crc), done, b);
  }

  lemma FinalComplement(crc: bv64, buf: seq<byte>)
    requires Digested(crc, buf)
    ensures crc ^ 0xFFFF_FFFF <= 0xFFFF_FFFF && Word(crc ^ 0xFFFF_FFFF) == Crc32(buf)
  {
    XorWidth(crc, 0xFFFF_FFFF);
    WordXor(crc, 0xFFFF_FFFF);
    WordComplement();
    RegisterDivides(Message(buf));
  }

  method Calculate(table: array<bv64>, buffer: array?<byte>, size: int) returns (r: bv64)
    requires IsTable(table[..])
    requires buffer != null ==> size <= buffer.Length
    ensures r <= 0xFFFF_FFFF
    ensures buffer == null ==> r == 0
    ensures buffer != null ==> Word(r) == Crc32(if size < 0 then [] else buffer[..size])
  {
    if buffer == null { return 0; }
    var crc: bv64 := 0xFFFF_FFFF;
    var i := 0;
    WordComplement();
    while i < size
      invariant 0 <= i <= buffer.Length && (size >= 0 ==> i <= size) && (size < 0 ==> i == 0)
      invariant Digested(crc, buffer[..i])
    {
      FastRound(crc, buffer[..i], buffer[i], table[..]);
      assert buffer[..i + 1] == buffer[..i] + [buffer[i]];
      crc := Next(crc, table[Index(crc, buffer[i])]);
      i := i + 1;
    }
    FinalComplement(crc, buffer[..i]);
    return crc ^ 0xFFFF_FFFF;
  }

  // ---- The check value ----------------------------------------------------------------------------

  /** The register after one byte, on machine words. */
  function Byted(c: bv64, b: byte): bv64 {
    Halved(Halved(Halved(Halved(Halved(Halved(Halved(Halved(c ^ b as bv64))))))))
  }

  lemma HalvedTwice(c: bv64)
    requires c <= 0xFFFF_FFFF
    ensures Halved(Halved(c)) <= 0xFFFF_FFFF && Word(Halved(Halved(c))) == Step(Step(Word(c)))
  {
    StepWord(c);
    StepWord(Halved(c));
  }

  lemma EightSteps(c: bv64, d: bv64, e: bv64, f: bv64, g: bv64)
    requires c <= 0xFFFF_FFFF && d == Halved(Halved(c)) && e == Halved(Halved(d)) && f == Halved(Halved(e))
    requires g == Halved(Halved(f))
    ensures g <= 0xFFFF_FFFF && Word(g) == Steps(8, Word(c))
  {
    HalvedTwice(c);
    HalvedTwice(d);
    HalvedTwice(e);
    HalvedTwice(f);
    TwoSteps(8, Word(c));
    TwoSteps(6, Word(d));
    TwoSteps(4, Word(e));
    TwoSteps(2, Word(f));
  }

  lemma TwoSteps(n: nat, r: Bits)
    requires n >= 2 && |r| == 32
    ensures Steps(n, r) == Steps(n - 2, Step(Step(r)))
  {
  }

  lemma OneByte(c: bv64, b: byte)
    requires c <= 0xFFFF_FFFF
    ensures Byted(c, b) <= 0xFFFF_FFFF && Word(Byted(c, b)) == Feed(Word(c), ByteBits(b))
  {
    var x := c ^ b as bv64;
    SmallWord(b);
    XorWidth(c, b as bv64);
    WordXor(c, b as bv64);
    FeedSteps(Word(c), ByteBits(b));
    var d := Halved(Halved(x));
    var e := Halved(Halved(d));
    var f := Halved(Halved(e));
    EightSteps(x, d, e, f, Byted(c, b));
  }

  lemma DigestedNext(buf: seq<byte>, k: nat, b: byte, c: bv64, d: bv64)
    requires k < |buf| && b == buf[k] && Digested(c, buf[..k]) && d == Byted(c, b)
    ensures Digested(d, buf[..k + 1])
  {
    OneByte(c, b);
    FeedNext(Word(c), buf[..k], b);
    assert buf[..k] + [b] == buf[..k + 1];
  }

  /** The check value by which implementations of this CRC are compared: that of the digits 1 to 9. */
  lemma CheckValue()
    ensures Crc32([0x31, 0x32, 0x33, 0x34, 0x35, 0x36, 0x37, 0x38, 0x39]) == Word(0xCBF4_3926)
  {
    var buf: seq<byte> := [0x31, 0x32, 0x33, 0x34, 0x35, 0x36, 0x37, 0x38, 0x39];
    WordComplement();
    assert buf[..0] == [] && Digested(0xFFFF_FFFF, []);
    DigestedNext(buf, 0, 0x31, 0xFFFF_FFFF, 0x7C23_1048);
    DigestedNext(buf, 1, 0x32, 0x7C23_1048, 0xB0AC_BB32);
    DigestedNext(buf, 2, 0x33, 0xB0AC_BB32, 0x77B7_9C2D);
    DigestedNext(buf, 3, 0x34, 0x77B7_9C2D, 0x641C_1F5C);
    DigestedNext(buf, 4, 0x35, 0x641C_1F5C, 0x340A_C5E3);
    DigestedNext(buf, 5, 0x36, 0x340A_C5E3, 0xF68D_2C9E);
    DigestedNext(buf, 6, 0x37, 0xF68D_2C9E, 0xAFFC_9660);
    DigestedNext(buf, 7, 0x38, 0xAFFC_9660, 0x651F_2550);
    DigestedNext(buf, 8, 0x39, 0x651F_2550, 0x340B_C6D9);
    assert buf[..9] == buf;
    FinalComplement(0x340B_C6D9, buf);
  }
}
