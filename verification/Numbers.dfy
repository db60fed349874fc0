/** Bytes as numbers. */
module Numbers {
  lemma ByteValue(n: nat)
    requires n < 0x100
    ensures (n as bv8) as int == n
  {
  }

  lemma SmallByte(b: bv8, n: nat)
    requires n < 0x100
    ensures b as int == n <==> b == n as bv8
  {
    ByteValue(n);
  }
}
