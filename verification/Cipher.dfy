/** The two ciphers of nsca_utils.cpp: the rotating XOR and mcrypt's 8-bit CFB over an arbitrary block function. */
module Cipher {
  import opened Bytes

  const IV_SIZE := 128
  const ENCRYPT_NONE := 0
  const ENCRYPT_XOR := 1

  type Register = seq<byte>
  type Head = Register -> byte

  /** What libmcrypt supplies for a method: its sizes, and the first byte of the encrypted shift register. */
  datatype Algorithm = Algorithm(ivSize: nat, keySize: nat, head: (seq<byte>, Register) -> byte)

  // ---- Specifications -----------------------------------------------------------------------------

  function PasswordByte(password: seq<byte>, y: nat): byte {
    if password == [] then 0 else password[y % |password|]
  }

  function XorCipher(buf: seq<byte>, iv: seq<byte>, password: seq<byte>): (r: seq<byte>)
    requires |iv| == IV_SIZE
    ensures |r| == |buf|
  {
    seq(|buf|, y requires 0 <= y < |buf| => buf[y] ^ iv[y % IV_SIZE] ^ PasswordByte(password, y))
  }

  /** The shift register after the ciphertext `c` has gone through it. */
  function Absorb(reg: Register, c: seq<byte>): (r: Register)
    ensures |r| == |reg|
  {
    (reg + c)[|c|..]
  }

  function CfbEncrypt(head: Head, reg: Register, buf: seq<byte>): (r: seq<byte>)
    ensures |r| == |buf|
    decreases |buf|
  {
    if buf == [] then [] else
      var c := buf[0] ^ head(reg);
      [c] + CfbEncrypt(head, Absorb(reg, [c]), buf[1..])
  }

  function CfbDecrypt(head: Head, reg: Register, buf: seq<byte>): (r: seq<byte>)
    ensures |r| == |buf|
    decreases |buf|
  {
    if buf == [] then [] else
      [buf[0] ^ head(reg)] + CfbDecrypt(head, Absorb(reg, [buf[0]]), buf[1..])
  }

  /** `strncpy` into a zeroed key buffer. */
  function KeyOf(password: seq<byte>, size: nat): (k: seq<byte>)
    ensures |k| == size
  {
    seq(size, i requires 0 <= i < size => if i < |password| then password[i] else 0)
  }

  /** Everything about a crypt instance except its moving register. */
  datatype Params = Params(encryption: nat, password: seq<byte>, transmittedIv: seq<byte>, head: Head)

  function Encrypted(p: Params, reg: Register, buf: seq<byte>): (r: seq<byte>)
    requires |p.transmittedIv| == IV_SIZE
    ensures |r| == |buf|
  {
    if p.encryption == ENCRYPT_NONE then buf
    else if p.encryption == ENCRYPT_XOR then XorCipher(buf, p.transmittedIv, p.password)
    else CfbEncrypt(p.head, reg, buf)
  }

  function Decrypted(p: Params, reg: Register, buf: seq<byte>): (r: seq<byte>)
    requires |p.transmittedIv| == IV_SIZE
    ensures |r| == |buf|
  {
    if p.encryption == ENCRYPT_NONE then buf
    else if p.encryption == ENCRYPT_XOR then XorCipher(buf, p.transmittedIv, p.password)
    else CfbDecrypt(p.head, reg, buf)
  }

  /** Only CFB moves the register, and always by the ciphertext. */
  function Moved(p: Params, reg: Register, cipher: seq<byte>): (r: Register)
    ensures |r| == |reg|
  {
    if p.encryption > ENCRYPT_XOR then Absorb(reg, cipher) else reg
  }

  // ---- Laws ---------------------------------------------------------------------------------------

  lemma XorTwice(b: byte, x: byte, y: byte)
    ensures b ^ x ^ y ^ x ^ y == b
  {
  }

  lemma XorCancels(b: byte, x: byte)
    ensures b ^ x ^ x == b
  {
  }

  lemma XorInvolution(buf: seq<byte>, iv: seq<byte>, password: seq<byte>)
    requires |iv| == IV_SIZE
    ensures XorCipher(XorCipher(buf, iv, password), iv, password) == buf
  {
    var once := XorCipher(buf, iv, password);
    var twice := XorCipher(once, iv, password);
    forall y | 0 <= y < |buf|
      ensures twice[y] == buf[y]
    {
      XorTwice(buf[y], iv[y % IV_SIZE], PasswordByte(password, y));
    }
  }

  lemma AbsorbConcat(reg: Register, a: seq<byte>, b: seq<byte>)
    ensures Absorb(Absorb(reg, a), b) == Absorb(reg, a + b)
  {
    assert reg + (a + b) == reg + a + b;
  }

  lemma CfbDecryptCons(head: Head, reg: Register, b: byte, rest: seq<byte>)
    ensures var c := b ^ head(reg);
      CfbDecrypt(head, reg, [c] + rest) == [b] + CfbDecrypt(head, Absorb(reg, [c]), rest)
  {
    var c := b ^ head(reg);
    assert ([c] + rest)[1..] == rest;
    XorCancels(b, head(reg));
  }

  lemma {:induction false} CfbRoundTrip(head: Head, reg: Register, buf: seq<byte>)
    ensures CfbDecrypt(head, reg, CfbEncrypt(head, reg, buf)) == buf
    decreases |buf|
  {
    if buf == [] {
    } else {
      var c := buf[0] ^ head(reg);
      var rest := CfbEncrypt(head, Absorb(reg, [c]), buf[1..]);
      CfbDecryptCons(head, reg, buf[0], rest);
      CfbRoundTrip(head, Absorb(reg, [c]), buf[1..]);
    }
  }

  lemma {:induction false} CfbDecryptConcat(head: Head, reg: Register, a: seq<byte>, b: seq<byte>)
    ensures CfbDecrypt(head, reg, a + b) == CfbDecrypt(head, reg, a) + CfbDecrypt(head, Absorb(reg, a), b)
    decreases |a|
  {
    if a == [] {
      assert a + b == b && Absorb(reg, a) == reg;
    } else {
      assert (a + b)[1..] == a[1..] + b;
      CfbDecryptConcat(head, Absorb(reg, [a[0]]), a[1..], b);
      AbsorbConcat(reg, [a[0]], a[1..]);
      assert [a[0]] + a[1..] == a;
    }
  }

  /** Feedback: byte `k` is decrypted with the register into which the ciphertext before it has been shifted. */
  lemma {:induction false} CfbDecryptAt(head: Head, reg: Register, buf: seq<byte>, k: nat)
    requires k < |buf|
    ensures CfbDecrypt(head, reg, buf)[k] == buf[k] ^ head((reg + buf[..k])[k..])
    decreases k
  {
    if k == 0 {
      assert reg + buf[..0] == reg;
    } else {
      var next := (reg + [buf[0]])[1..];
      CfbDecryptAt(head, next, buf[1..], k - 1);
      ShiftedOn(reg, buf, k);
    }
  }

  lemma ShiftedOn(reg: Register, buf: seq<byte>, k: nat)
    requires 0 < k <= |buf|
    ensures ((reg + [buf[0]])[1..] + buf[1..][..k - 1])[k - 1..] == (reg + buf[..k])[k..]
  {
  }

  /** In encryption the register takes in what comes out. */
  lemma {:induction false} CfbEncryptAt(head: Head, reg: Register, buf: seq<byte>, k: nat)
    requires k < |buf|
    ensures var r := CfbEncrypt(head, reg, buf); r[k] == buf[k] ^ head((reg + r[..k])[k..])
    decreases k
  {
    var r := CfbEncrypt(head, reg, buf);
    if k == 0 {
      assert reg + r[..0] == reg;
    } else {
      var next := (reg + [r[0]])[1..];
      assert r[1..] == CfbEncrypt(head, next, buf[1..]);
      CfbEncryptAt(head, next, buf[1..], k - 1);
      ShiftedOn(reg, r, k);
    }
  }

  /** Self-synchronisation: behind the first bytes, as many as the register has, decryption does not depend on what the
      register held. */
  lemma CfbSynchronises(head: Head, a: Register, b: Register, buf: seq<byte>, k: nat)
    requires |a| == |b| <= k < |buf|
    ensures CfbDecrypt(head, a, buf)[k] == CfbDecrypt(head, b, buf)[k] == buf[k] ^ head(buf[k - |a|..k])
  {
    CfbDecryptAt(head, a, buf, k);
    CfbDecryptAt(head, b, buf, k);
    assert (a + buf[..k])[k..] == buf[k - |a|..k] == (b + buf[..k])[k..];
  }

  /** Decryption byte by byte, in every mode. */
  lemma DecryptedAt(p: Params, reg: Register, buf: seq<byte>, k: nat)
    requires |p.transmittedIv| == IV_SIZE && k < |buf|
    ensures Decrypted(p, reg, buf)[k] ==
            if p.encryption == 0 then buf[k]
            else if p.encryption == 1
            then buf[k] ^ p.transmittedIv[k % 128] ^ (if p.password == [] then 0 else p.password[k % |p.password|])
            else buf[k] ^ p.head((reg + buf[..k])[k..])
  {
    if p.encryption > ENCRYPT_XOR { CfbDecryptAt(p.head, reg, buf, k); }
  }

  lemma DecryptInvertsEncrypt(p: Params, reg: Register, buf: seq<byte>)
    requires |p.transmittedIv| == IV_SIZE
    ensures Decrypted(p, reg, Encrypted(p, reg, buf)) == buf
  {
    XorInvolution(buf, p.transmittedIv, p.password);
    CfbRoundTrip(p.head, reg, buf);
  }

  // ---- A connection's packets, one after the other --------------------------------------------------

  /** `encrypt_buffer` over a list, the client's register moving along. */
  function EncryptList(p: Params, reg: Register, plains: seq<seq<byte>>): (r: seq<seq<byte>>)
    requires |p.transmittedIv| == IV_SIZE
    ensures |r| == |plains| && forall i :: 0 <= i < |r| ==> |r[i]| == |plains[i]|
    decreases |plains|
  {
    if plains == [] then [] else
      var c := Encrypted(p, reg, plains[0]);
      [c] + EncryptList(p, Moved(p, reg, c), plains[1..])
  }

  function DecryptList(p: Params, reg: Register, ciphers: seq<seq<byte>>): (r: seq<seq<byte>>)
    requires |p.transmittedIv| == IV_SIZE
    ensures |r| == |ciphers| && forall i :: 0 <= i < |r| ==> |r[i]| == |ciphers[i]|
    decreases |ciphers|
  {
    if ciphers == [] then [] else
      [Decrypted(p, reg, ciphers[0])] + DecryptList(p, Moved(p, reg, ciphers[0]), ciphers[1..])
  }

  lemma {:induction false} DecryptListInverts(p: Params, reg: Register, plains: seq<seq<byte>>)
    requires |p.transmittedIv| == IV_SIZE
    ensures DecryptList(p, reg, EncryptList(p, reg, plains)) == plains
    decreases |plains|
  {
    if plains == [] {
    } else {
      var c := Encrypted(p, reg, plains[0]);
      var rest := EncryptList(p, Moved(p, reg, c), plains[1..]);
      assert ([c] + rest)[1..] == rest;
      DecryptInvertsEncrypt(p, reg, plains[0]);
      DecryptListInverts(p, Moved(p, reg, c), plains[1..]);
    }
  }

  /** Saving and restoring the register between packets loses nothing: the list is one CFB stream. */
  lemma {:induction false} DecryptListIsOneStream(p: Params, reg: Register, ciphers: seq<seq<byte>>)
    requires |p.transmittedIv| == IV_SIZE && p.encryption > ENCRYPT_XOR
    ensures Concat(DecryptList(p, reg, ciphers)) == CfbDecrypt(p.head, reg, Concat(ciphers))
    decreases |ciphers|
  {
    if ciphers == [] {
    } else {
      var next := Moved(p, reg, ciphers[0]);
      DecryptListIsOneStream(p, next, ciphers[1..]);
      CfbDecryptConcat(p.head, reg, ciphers[0], Concat(ciphers[1..]));
      var d := DecryptList(p, reg, ciphers);
      assert d[0] == CfbDecrypt(p.head, reg, ciphers[0]) && d[1..] == DecryptList(p, next, ciphers[1..]);
    }
  }

  /** The register that packet `n` is decrypted with. */
  function RegisterAt(p: Params, reg: Register, ciphers: seq<seq<byte>>, n: nat): Register
    requires n <= |ciphers|
  {
    if n == 0 then reg else Moved(p, RegisterAt(p, reg, ciphers, n - 1), ciphers[n - 1])
  }

  lemma DecryptListTail(p: Params, reg: Register, ciphers: seq<seq<byte>>, n: nat)
    requires |p.transmittedIv| == IV_SIZE && 0 < n < |ciphers|
    ensures DecryptList(p, reg, ciphers)[n] == DecryptList(p, Moved(p, reg, ciphers[0]), ciphers[1..])[n - 1]
  {
  }

  lemma {:induction false} DecryptListAt(p: Params, reg: Register, ciphers: seq<seq<byte>>, n: nat)
    requires |p.transmittedIv| == IV_SIZE && n < |ciphers|
    ensures DecryptList(p, reg, ciphers)[n] == Decrypted(p, RegisterAt(p, reg, ciphers, n), ciphers[n])
    decreases n
  {
    if n == 0 {
    } else {
      var next, rest := Moved(p, reg, ciphers[0]), ciphers[1..];
      DecryptListTail(p, reg, ciphers, n);
      DecryptListAt(p, next, rest, n - 1);
      RegisterAtTail(p, reg, ciphers, n);
      assert rest[n - 1] == ciphers[n] && RegisterAt(p, next, rest, n - 1) == RegisterAt(p, reg, ciphers, n);
    }
  }

  lemma {:induction false} RegisterAtTail(p: Params, reg: Register, ciphers: seq<seq<byte>>, n: nat)
    requires 0 < n <= |ciphers|
    ensures RegisterAt(p, reg, ciphers, n) == RegisterAt(p, Moved(p, reg, ciphers[0]), ciphers[1..], n - 1)
    decreases n
  {
    if n == 1 {
    } else {
      RegisterAtTail(p, reg, ciphers, n - 1);
    }
  }

  // ---- The code -----------------------------------------------------------------------------------

  class CryptInstance {
    const transmittedIv: seq<byte>
    const iv: seq<byte>
    const key: seq<byte>
    const head: Head
    const ready: bool
    var register: Register

    /** Initialised, and the IV copy fixed since then: only the register moves. */
    ghost predicate Valid()
      reads this
    {
      ready && |transmittedIv| == IV_SIZE && |register| == |iv|
    }

    function Parameters(encryption: nat, password: seq<byte>): Params {
      Params(encryption, password, transmittedIv, head)
    }

    constructor (receivedIv: seq<byte>, iv: seq<byte>, key: seq<byte>, head: Head, ready: bool)
      requires |receivedIv| == IV_SIZE
      ensures transmittedIv == receivedIv && this.iv == iv && this.key == key && this.head == head && register == iv
      ensures this.ready == ready && (Valid() <==> ready)
    {
      transmittedIv, this.iv, this.key, this.head, register := receivedIv, iv, key, head, iv;
      this.ready := ready;
    }

    method SetState(state: seq<byte>)
      requires Valid() && |state| == |iv|
      modifies this
      ensures Valid() && register == state
    {
      register := state;
    }
  }

  /** The start of every decryption: the first bytes of the IV the client was sent. `algorithm` is None when mcrypt
      cannot open the module. */
  function IvOf(encryption: nat, receivedIv: seq<byte>, algorithm: Option<Algorithm>): Register {
    if encryption <= ENCRYPT_XOR || algorithm.None? || algorithm.value.ivSize > |receivedIv| then []
    else receivedIv[..algorithm.value.ivSize]
  }

  /** The block function of an algorithm under a key. */
  function Keyed(algorithm: Algorithm, key: seq<byte>): Head {
    (r: Register) => algorithm.head(key, r)
  }

  function HeadOf(encryption: nat, password: seq<byte>, algorithm: Option<Algorithm>): Head {
    if encryption <= ENCRYPT_XOR || algorithm.None? then _ => 0
    else Keyed(algorithm.value, KeyOf(password, algorithm.value.keySize))
  }

  predicate Usable(encryption: nat, algorithm: Option<Algorithm>) {
    encryption <= ENCRYPT_XOR || (algorithm.Some? && algorithm.value.ivSize <= IV_SIZE)
  }

  /** `encrypt_init`: after a failure the instance exists, but its cipher was never set up. */
  method EncryptInit(password: seq<byte>, encryption: nat, receivedIv: seq<byte>, algorithm: Option<Algorithm>)
    returns (ok: bool, ci: CryptInstance)
    requires |receivedIv| == IV_SIZE
    ensures fresh(ci) && ci.transmittedIv == receivedIv && ci.register == ci.iv
    ensures ok <==> encryption <= 1 || (algorithm.Some? && algorithm.value.ivSize <= 128)
    ensures ok <==> ci.Valid()
    ensures ok ==> ci.iv == IvOf(encryption, receivedIv, algorithm)
    ensures ok ==> ci.head == HeadOf(encryption, password, algorithm)
    ensures ok && encryption > ENCRYPT_XOR ==>
              && ci.iv == receivedIv[..algorithm.value.ivSize] && |ci.key| == algorithm.value.keySize
              && (forall i :: 0 <= i < |ci.key| ==> ci.key[i] == if i < |password| then password[i] else 0)
              && (forall r :: ci.head(r) == algorithm.value.head(ci.key, r))
    ensures ok && encryption <= ENCRYPT_XOR ==> ci.iv == []
  {
    if encryption <= ENCRYPT_XOR || algorithm.None? || algorithm.value.ivSize > IV_SIZE {
      ci := new CryptInstance(receivedIv, [], [], HeadOf(encryption, password, algorithm), encryption <= ENCRYPT_XOR);
      return encryption <= ENCRYPT_XOR, ci;
    }
    var a := algorithm.value;
    var iv := [];
    for i := 0 to a.ivSize
      invariant iv == receivedIv[..i]
    {
      iv := iv + [receivedIv[i]];
    }
    var key := seq(a.keySize, _ => 0);
    var copied := if a.keySize < |password| then a.keySize else |password|;
    for i := 0 to copied
      invariant |key| == a.keySize
      invariant forall k :: 0 <= k < a.keySize ==> key[k] == if k < i then password[k] else 0
    {
      key := key[i := password[i]];
    }
    assert key == KeyOf(password, a.keySize);
    ci := new CryptInstance(receivedIv, iv, key, Keyed(a, key), true);
    ok := true;
  }

  lemma RotateIndex(y: nat, n: nat, x: nat)
    requires n > 0 && x == y % n
    ensures (y + 1) % n == if x + 1 == n then 0 else x + 1
  {
    var d := (y + 1) / n - y / n;
    assert n * d == 1 + x - (y + 1) % n;
  }

  /** One of the two rotating loops; `pattern` is the transmitted IV or the password with its terminating zero. */
  method RotateOver(buffer: array<byte>, size: nat, pattern: seq<byte>, length: nat)
    requires size <= buffer.Length && length <= |pattern| && (length == 0 ==> |pattern| > 0)
    modifies buffer
    ensures forall y :: 0 <= y < size ==>
              buffer[y] == old(buffer[y]) ^ (if length == 0 then pattern[0] else pattern[y % length])
    ensures forall y :: size <= y < buffer.Length ==> buffer[y] == old(buffer[y])
  {
    var y, x := 0, 0;
    while y < size
      invariant 0 <= y <= size && x <= length + 1
      invariant if length == 0 then x <= 1 else
                  x <= length && (if x == length then y % length == 0 else x == y % length)
      invariant forall k :: 0 <= k < y ==>
                  buffer[k] == old(buffer[k]) ^ (if length == 0 then pattern[0] else pattern[k % length])
      invariant forall k :: y <= k < buffer.Length ==> buffer[k] == old(buffer[k])
    {
      if x >= length {
        x := 0;
      }
      if length > 0 {
        RotateIndex(y, length, x);
      }
      buffer[y] := buffer[y] ^ pattern[x];
      y, x := y + 1, x + 1;
    }
  }

  /** Rotate over the IV, then over the password with the zero that ends it. */
  method XorBuffer(buffer: array<byte>, size: nat, password: seq<byte>, iv: seq<byte>)
    requires size <= buffer.Length && |iv| == IV_SIZE
    modifies buffer
    ensures buffer[..size] == XorCipher(old(buffer[..size]), iv, password)
    ensures forall y :: 0 <= y < size ==>
              buffer[y] == old(buffer[y]) ^ iv[y % 128] ^ (if password == [] then 0 else password[y % |password|])
    ensures buffer[size..] == old(buffer[size..])
  {
    RotateOver(buffer, size, iv, IV_SIZE);
    label Half:
    RotateOver(buffer, size, password + [0], |password|);
    forall y | 0 <= y < size
      ensures buffer[y] == old(buffer[y]) ^ iv[y % IV_SIZE] ^ PasswordByte(password, y)
    {
      assert old@Half(buffer[y]) == old(buffer[y]) ^ iv[y % IV_SIZE];
    }
  }

  lemma Associate(a: seq<byte>, b: seq<byte>, c: seq<byte>)
    ensures a + (b + c) == a + b + c
  {
  }

  ghost predicate EncryptedUpTo(head: Head, reg: Register, whole: seq<byte>, done: seq<byte>, now: Register) {
    && |done| <= |whole|
    && now == Absorb(reg, done)
    && CfbEncrypt(head, reg, whole) == done + CfbEncrypt(head, now, whole[|done|..])
  }

  lemma EncryptOne(head: Head, reg: Register, whole: seq<byte>, done: seq<byte>, now: Register)
    requires EncryptedUpTo(head, reg, whole, done, now) && |done| < |whole|
    ensures var c := whole[|done|] ^ head(now);
      EncryptedUpTo(head, reg, whole, done + [c], Absorb(now, [c]))
  {
    var c := whole[|done|] ^ head(now);
    AbsorbConcat(reg, done, [c]);
    assert whole[|done|..][1..] == whole[|done| + 1..];
    Associate(done, [c], CfbEncrypt(head, Absorb(now, [c]), whole[|done| + 1..]));
  }

  ghost predicate DecryptedUpTo(head: Head, reg: Register, whole: seq<byte>, done: seq<byte>, now: Register) {
    && |done| <= |whole|
    && now == Absorb(reg, whole[..|done|])
    && CfbDecrypt(head, reg, whole) == done + CfbDecrypt(head, now, whole[|done|..])
  }

  lemma DecryptOne(head: Head, reg: Register, whole: seq<byte>, done: seq<byte>, now: Register)
    requires DecryptedUpTo(head, reg, whole, done, now) && |done| < |whole|
    ensures var c := whole[|done|];
      DecryptedUpTo(head, reg, whole, done + [c ^ head(now)], Absorb(now, [c]))
  {
    var c := whole[|done|];
    assert whole[..|done| + 1] == whole[..|done|] + [c];
    AbsorbConcat(reg, whole[..|done|], [c]);
    assert whole[|done|..][1..] == whole[|done| + 1..];
    Associate(done, [c ^ head(now)], CfbDecrypt(head, Absorb(now, [c]), whole[|done| + 1..]));
  }

  /** `mcrypt_generic` on one byte: the register takes in the byte that comes out. */
  method McryptGeneric(buffer: array<byte>, x: nat, ci: CryptInstance)
    requires x < buffer.Length && ci.Valid()
    modifies buffer, ci
    ensures ci.Valid() && buffer[x] == old(buffer[x]) ^ ci.head(old(ci.register))
    ensures ci.register == (old(ci.register) + [buffer[x]])[1..]
    ensures forall k :: 0 <= k < buffer.Length && k != x ==> buffer[k] == old(buffer[k])
  {
    buffer[x] := buffer[x] ^ ci.head(ci.register);
    ci.register := Absorb(ci.register, [buffer[x]]);
  }

  /** `mdecrypt_generic` on one byte: the register takes in the byte that came in. */
  method MdecryptGeneric(buffer: array<byte>, x: nat, ci: CryptInstance)
    requires x < buffer.Length && ci.Valid()
    modifies buffer, ci
    ensures ci.Valid() && buffer[x] == old(buffer[x]) ^ ci.head(old(ci.register))
    ensures ci.register == (old(ci.register) + [old(buffer[x])])[1..]
    ensures forall k :: 0 <= k < buffer.Length && k != x ==> buffer[k] == old(buffer[k])
  {
    var c := buffer[x];
    buffer[x] := c ^ ci.head(ci.register);
    ci.register := Absorb(ci.register, [c]);
  }

  method CfbEncryptBuffer(buffer: array<byte>, size: nat, ci: CryptInstance)
    requires size <= buffer.Length && ci.Valid()
    modifies buffer, ci
    ensures ci.Valid() && buffer[size..] == old(buffer[size..])
    ensures buffer[..size] == CfbEncrypt(ci.head, old(ci.register), old(buffer[..size]))
    ensures ci.register == (old(ci.register) + buffer[..size])[size..]
  {
    ghost var reg, whole, done := ci.register, buffer[..size], [];
    for x := 0 to size
      invariant ci.Valid() && |done| == x && EncryptedUpTo(ci.head, reg, whole, done, ci.register)
      invariant forall k :: 0 <= k < x ==> buffer[k] == done[k]
      invariant forall k :: x <= k < size ==> buffer[k] == whole[k]
      invariant forall k :: size <= k < buffer.Length ==> buffer[k] == old(buffer[k])
    {
      EncryptOne(ci.head, reg, whole, done, ci.register);
      McryptGeneric(buffer, x, ci);
      done := done + [buffer[x]];
    }
    assert buffer[..size] == done;
  }

  method CfbDecryptBuffer(buffer: array<byte>, size: nat, ci: CryptInstance)
    requires size <= buffer.Length && ci.Valid()
    modifies buffer, ci
    ensures ci.Valid() && buffer[size..] == old(buffer[size..])
    ensures buffer[..size] == CfbDecrypt(ci.head, old(ci.register), old(buffer[..size]))
    ensures ci.register == (old(ci.register) + old(buffer[..size]))[size..]
  {
    ghost var reg, whole, done := ci.register, buffer[..size], [];
    for x := 0 to size
      invariant ci.Valid() && |done| == x && DecryptedUpTo(ci.head, reg, whole, done, ci.register)
      invariant forall k :: 0 <= k < x ==> buffer[k] == done[k]
      invariant forall k :: x <= k < size ==> buffer[k] == whole[k]
      invariant forall k :: size <= k < buffer.Length ==> buffer[k] == old(buffer[k])
    {
      DecryptOne(ci.head, reg, whole, done, ci.register);
      MdecryptGeneric(buffer, x, ci);
      done := done + [buffer[x]];
    }
    assert buffer[..size] == done && whole[..size] == whole;
  }

  method EncryptBuffer(buffer: array<byte>, size: nat, password: seq<byte>, encryption: nat, ci: CryptInstance?)
    requires size <= buffer.Length && (ci != null ==> ci.Valid())
    modifies buffer, ci
    ensures ci == null ==> buffer[..] == old(buffer[..])
    ensures ci != null ==>
              && ci.Valid()
              && buffer[size..] == old(buffer[size..])
              && buffer[..size] == Encrypted(ci.Parameters(encryption, password), old(ci.register), old(buffer[..size]))
              && ci.register == Moved(ci.Parameters(encryption, password), old(ci.register), buffer[..size])
  {
    if ci == null || encryption == ENCRYPT_NONE {
      return;
    }
    if encryption == ENCRYPT_XOR {
      XorBuffer(buffer, size, password, ci.transmittedIv);
    } else {
      CfbEncryptBuffer(buffer, size, ci);
    }
  }

  method DecryptBuffer(buffer: array<byte>, size: nat, password: seq<byte>, encryption: nat, ci: CryptInstance?)
    requires size <= buffer.Length && (ci != null ==> ci.Valid())
    modifies buffer, ci
    ensures ci == null ==> buffer[..] == old(buffer[..])
    ensures ci != null ==>
              && ci.Valid()
              && buffer[size..] == old(buffer[size..])
              && buffer[..size] == Decrypted(ci.Parameters(encryption, password), old(ci.register), old(buffer[..size]))
              && ci.register == Moved(ci.Parameters(encryption, password), old(ci.register), old(buffer[..size]))
  {
    if ci == null || encryption == ENCRYPT_NONE {
      return;
    }
    if encryption == ENCRYPT_XOR {
      EncryptBuffer(buffer, size, password, encryption, ci);
    } else {
      CfbDecryptBuffer(buffer, size, ci);
    }
  }
}
