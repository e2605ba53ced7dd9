/** CBC with PKCS#7 padding over an abstract block cipher (src/common.rs:911-1013):
    section 6.2 of NIST SP 800-38A and section 6.3 of RFC 5652. */
module Crypto {

  type Byte = b: nat | b < 256
  type Bytes = seq<Byte>

  const BLOCK_SIZE: nat := 16
  /** The header of an encrypted blob, "RAGF". */
  const MAGIC: Bytes := [0x52, 0x41, 0x47, 0x46]

  type Block = b: Bytes | |b| == BLOCK_SIZE witness seq(16, _ => 0)

  /** A keyed block cipher: two functions that undo each other. */
  datatype CipherPair = CipherPair(encrypt: Block -> Block, decrypt: Block -> Block)

  ghost predicate IsPermutation(c: CipherPair) {
    && (forall b: Block :: c.decrypt(c.encrypt(b)) == b)
    && (forall b: Block :: c.encrypt(c.decrypt(b)) == b)
  }

  type Cipher = c: CipherPair | IsPermutation(c) witness CipherPair((b: Block) => b, (b: Block) => b)

  datatype Result = Ok(data: Bytes) | InvalidData | PaddingError

  // ----- padding -----

  function Repeat(b: Byte, n: nat): (r: Bytes)
    ensures |r| == n && forall i :: 0 <= i < n ==> r[i] == b
  {
    seq(n, _ => b)
  }

  /** `pkcs7_pad`. */
  function Pad(data: Bytes, block: nat): (r: Bytes)
    requires 0 < block < 256
    ensures |r| % block == 0 && |data| < |r| <= |data| + block
  {
    var padLen := block - |data| % block;
    PaddedLength(|data|, block);
    data + Repeat(padLen, padLen)
  }

  lemma PaddedLength(n: nat, block: nat)
    requires 0 < block
    ensures (n + (block - n % block)) % block == 0
  {
    assert n == block * (n / block) + n % block;
    MultipleHasNoRemainder(n / block + 1, block);
  }

  lemma MultipleHasNoRemainder(k: nat, block: nat)
    requires 0 < block
    ensures (block * k) % block == 0
  {
    RemainderUnique(k, 0, block);
  }

  /** `pkcs7_unpad`. */
  function Unpad(data: Bytes, block: nat): Result
    requires 0 < block < 256
  {
    if |data| == 0 || |data| % block != 0 then InvalidData
    else
      var padLen := data[|data| - 1];
      if padLen == 0 || padLen > block || padLen > |data| then PaddingError
      else if exists i :: |data| - padLen <= i < |data| && data[i] != padLen then PaddingError
      else Ok(data[..|data| - padLen])
  }

  /** Padding is always taken off again. */
  lemma UnpadPad(data: Bytes, block: nat)
    requires 0 < block < 256
    ensures Unpad(Pad(data, block), block) == Ok(data)
  {
    PaddedLength(|data|, block);
    UnpadRepeated(data, block - |data| % block, block);
  }

  lemma UnpadRepeated(data: Bytes, padLen: nat, block: nat)
    requires 0 < padLen <= block < 256 && (|data| + padLen) % block == 0
    ensures Unpad(data + Repeat(padLen, padLen), block) == Ok(data)
  {
    var padded := data + Repeat(padLen, padLen);
    assert padded[|padded| - 1] == padLen;
    assert forall i :: |padded| - padLen <= i < |padded| ==> padded[i] == padLen;
    assert padded[..|padded| - padLen] == data;
  }

  /** Only exact paddings are accepted. */
  lemma PadUnpad(padded: Bytes, block: nat)
    requires 0 < block < 256 && Unpad(padded, block).Ok?
    ensures Pad(Unpad(padded, block).data, block) == padded
  {
    var padLen := padded[|padded| - 1];
    var data := Unpad(padded, block).data;
    PadLengthUnique(|data|, |padded|, padLen, block);
    assert padded == data + padded[|data|..];
    assert padded[|data|..] == Repeat(padLen, padLen);
  }

  lemma PadLengthUnique(n: nat, total: nat, padLen: nat, block: nat)
    requires 0 < padLen <= block && total == n + padLen && total % block == 0
    ensures block - n % block == padLen
  {
    var k := total / block;
    assert total == block * k;
    if padLen == block {
      assert n == block * (k - 1);
      MultipleHasNoRemainder(k - 1, block);
    } else {
      assert n == block * (k - 1) + (block - padLen);
      RemainderUnique(k - 1, block - padLen, block);
    }
  }

  lemma RemainderUnique(k: nat, r: nat, block: nat)
    requires r < block
    ensures (block * k + r) % block == r
  {
    var x := block * k + r;
    var q, m := x / block, x % block;
    assert x == block * q + m && 0 <= m < block;
    SmallMultiple(k - q, m - r, block);
  }

  lemma SmallMultiple(d: int, rest: int, block: int)
    requires 0 < block && -block < rest < block && exists k: int, q: int :: d == k - q && block * k - block * q == rest
    ensures rest == 0
  {
    var k: int, q: int :| d == k - q && block * k - block * q == rest;
    assert block * d == rest;
    MultipleBound(d, block);
  }

  lemma MultipleBound(d: int, block: int)
    requires 0 <= block
    ensures d >= 1 ==> block * d >= block
    ensures d <= -1 ==> block * d <= -block
  {
    if d >= 1 { assert block * (d - 1) >= 0; }
    if d <= -1 { assert block * (-1 - d) >= 0; }
  }

  // ----- cipher block chaining -----

  function Pow2(n: nat): (p: nat)
    ensures 0 < p
  {
    if n == 0 then 1 else 2 * Pow2(n - 1)
  }

  /** Exclusive or of the low `n` bits. */
  function XorBits(a: nat, b: nat, n: nat): (r: nat)
    ensures r < Pow2(n)
  {
    if n == 0 then 0 else 2 * XorBits(a / 2, b / 2, n - 1) + (a % 2 + b % 2) % 2
  }

  lemma Halves(half: nat, bit: nat)
    requires bit < 2
    ensures (2 * half + bit) / 2 == half && (2 * half + bit) % 2 == bit
  {
  }

  lemma BitTwice(a: nat, b: nat)
    requires a < 2 && b < 2
    ensures ((a + b) % 2 + b) % 2 == a
  {
  }

  lemma {:induction false} XorBitsTwice(a: nat, b: nat, n: nat)
    requires a < Pow2(n)
    ensures XorBits(XorBits(a, b, n), b, n) == a
  {
    if n > 0 {
      var half, bit := XorBits(a / 2, b / 2, n - 1), (a % 2 + b % 2) % 2;
      Halves(half, bit);
      XorBitsTwice(a / 2, b / 2, n - 1);
      BitTwice(a % 2, b % 2);
    }
  }

  lemma EightBits()
    ensures Pow2(8) == 256
  {
    assert Pow2(4) == 16;
  }

  /** The bit of weight 2^i. */
  function Bit(a: nat, i: nat): nat {
    if i == 0 then a % 2 else Bit(a / 2, i - 1)
  }

  /** Below `n` a bit of the exclusive or is set exactly when the two bits differ. */
  lemma {:induction false} XorBit(a: nat, b: nat, n: nat, i: nat)
    requires i < n
    ensures Bit(XorBits(a, b, n), i) == if Bit(a, i) != Bit(b, i) then 1 else 0
  {
    Halves(XorBits(a / 2, b / 2, n - 1), (a % 2 + b % 2) % 2);
    if i > 0 { XorBit(a / 2, b / 2, n - 1, i - 1); }
  }

  function XorByte(a: Byte, b: Byte): Byte {
    EightBits();
    XorBits(a, b, 8)
  }

  function Xor(a: Block, b: Block): Block {
    seq(BLOCK_SIZE, i requires 0 <= i < BLOCK_SIZE => XorByte(a[i], b[i]))
  }

  lemma XorTwice(a: Block, b: Block)
    ensures Xor(Xor(a, b), b) == a
  {
    EightBits();
    forall i | 0 <= i < BLOCK_SIZE ensures XorByte(XorByte(a[i], b[i]), b[i]) == a[i] {
      XorBitsTwice(a[i], b[i], 8);
    }
  }

  function EncryptBlocks(c: Cipher, iv: Block, padded: Bytes): (r: Bytes)
    requires |padded| % BLOCK_SIZE == 0
    ensures |r| == |padded|
    decreases |padded|
  {
    if padded == [] then []
    else
      var block := c.encrypt(Xor(padded[..BLOCK_SIZE], iv));
      block + EncryptBlocks(c, block, padded[BLOCK_SIZE..])
  }

  function DecryptBlocks(c: Cipher, iv: Block, ciphertext: Bytes): (r: Bytes)
    requires |ciphertext| % BLOCK_SIZE == 0
    ensures |r| == |ciphertext|
    decreases |ciphertext|
  {
    if ciphertext == [] then []
    else
      Xor(c.decrypt(ciphertext[..BLOCK_SIZE]), iv)
      + DecryptBlocks(c, ciphertext[..BLOCK_SIZE], ciphertext[BLOCK_SIZE..])
  }

  /** `cbc_encrypt`. */
  method CbcEncrypt(c: Cipher, iv: Block, padded: Bytes) returns (out: Bytes)
    requires |padded| % BLOCK_SIZE == 0
    ensures out == EncryptBlocks(c, iv, padded)
  {
    var prev: Block := iv;
    var rest := padded;
    out := [];
    while rest != []
      invariant |rest| % BLOCK_SIZE == 0
      invariant EncryptBlocks(c, iv, padded) == out + EncryptBlocks(c, prev, rest)
      decreases |rest|
    {
      var block := c.encrypt(Xor(rest[..BLOCK_SIZE], prev));
      prev := block;
      out := out + block;
      rest := rest[BLOCK_SIZE..];
    }
  }

  /** `cbc_decrypt`. */
  method CbcDecrypt(c: Cipher, iv: Block, ciphertext: Bytes) returns (out: Bytes)
    requires |ciphertext| % BLOCK_SIZE == 0
    ensures out == DecryptBlocks(c, iv, ciphertext)
  {
    var prev: Block := iv;
    var rest := ciphertext;
    out := [];
    while rest != []
      invariant |rest| % BLOCK_SIZE == 0
      invariant DecryptBlocks(c, iv, ciphertext) == out + DecryptBlocks(c, prev, rest)
      decreases |rest|
    {
      var block := Xor(c.decrypt(rest[..BLOCK_SIZE]), prev);
      prev := rest[..BLOCK_SIZE];
      out := out + block;
      rest := rest[BLOCK_SIZE..];
    }
  }

  /** CBC decryption inverts CBC encryption on every aligned text ... */
  lemma {:induction false} DecryptInvertsEncrypt(c: Cipher, iv: Block, padded: Bytes)
    requires |padded| % BLOCK_SIZE == 0
    ensures DecryptBlocks(c, iv, EncryptBlocks(c, iv, padded)) == padded
    decreases |padded|
  {
    if padded != [] {
      var first, rest := padded[..BLOCK_SIZE], padded[BLOCK_SIZE..];
      var block := c.encrypt(Xor(first, iv));
      var cipher := EncryptBlocks(c, iv, padded);
      DecryptInvertsEncrypt(c, block, rest);
      assert cipher[..BLOCK_SIZE] == block && cipher[BLOCK_SIZE..] == EncryptBlocks(c, block, rest);
      XorTwice(first, iv);
      assert padded == first + rest;
    }
  }

  /** ... and encryption inverts decryption, so every aligned ciphertext has one plaintext. */
  lemma {:induction false} EncryptInvertsDecrypt(c: Cipher, iv: Block, ciphertext: Bytes)
    requires |ciphertext| % BLOCK_SIZE == 0
    ensures EncryptBlocks(c, iv, DecryptBlocks(c, iv, ciphertext)) == ciphertext
    decreases |ciphertext|
  {
    if ciphertext != [] {
      var first, rest := ciphertext[..BLOCK_SIZE], ciphertext[BLOCK_SIZE..];
      var plain := DecryptBlocks(c, iv, ciphertext);
      EncryptInvertsDecrypt(c, first, rest);
      assert plain[..BLOCK_SIZE] == Xor(c.decrypt(first), iv) && plain[BLOCK_SIZE..] == DecryptBlocks(c, first, rest);
      XorTwice(c.decrypt(first), iv);
      assert ciphertext == first + rest;
    }
  }

  /** Every bit of `z` says whether the bits of `a` and `b` differ. */
  ghost predicate Differences(z: Block, a: Block, b: Block) {
    forall i, n: nat :: 0 <= i < BLOCK_SIZE && n < 8 ==> (Bit(z[i], n) == 1 <==> Bit(a[i], n) != Bit(b[i], n))
  }

  lemma XorDifferences(a: Block, b: Block)
    ensures Differences(Xor(a, b), a, b)
  {
    forall i, n: nat | 0 <= i < BLOCK_SIZE && n < 8
      ensures Bit(Xor(a, b)[i], n) == 1 <==> Bit(a[i], n) != Bit(b[i], n)
    {
      XorBit(a[i], b[i], 8, n);
    }
  }

  function BlockAt(s: Bytes, k: nat): Block
    requires BLOCK_SIZE * (k + 1) <= |s|
  {
    s[BLOCK_SIZE * k..BLOCK_SIZE * (k + 1)]
  }

  /** The block before the `k`-th one, the vector before the first. */
  function Before(iv: Block, s: Bytes, k: nat): Block
    requires BLOCK_SIZE * k <= |s|
  {
    if k == 0 then iv else BlockAt(s, k - 1)
  }

  lemma LaterBlock(first: Block, rest: Bytes, k: nat)
    requires BLOCK_SIZE * (k + 1) <= |rest|
    ensures BlockAt(first + rest, k + 1) == BlockAt(rest, k)
    ensures Before(first, rest, k) == BlockAt(first + rest, k)
  {
  }

  /** The `k`-th block of the ciphertext is the cipher applied to what the `k`-th block of the text and the block of
      the ciphertext before it, or the vector, differ in. */
  lemma {:induction false} ChainedBlock(c: Cipher, iv: Block, padded: Bytes, k: nat) returns (mixed: Block)
    requires |padded| % BLOCK_SIZE == 0 && BLOCK_SIZE * (k + 1) <= |padded|
    ensures var out := EncryptBlocks(c, iv, padded);
            && Differences(mixed, BlockAt(padded, k), Before(iv, out, k))
            && BlockAt(out, k) == c.encrypt(mixed)
    decreases k
  {
    var first, rest := padded[..BLOCK_SIZE], padded[BLOCK_SIZE..];
    var block := c.encrypt(Xor(first, iv));
    if k == 0 {
      mixed := Xor(first, iv);
      XorDifferences(first, iv);
    } else {
      mixed := ChainedBlock(c, block, rest, k - 1);
      assert padded == first + rest;
      LaterBlock(first, rest, k - 1);
      LaterBlock(block, EncryptBlocks(c, block, rest), k - 1);
    }
  }

  // ----- whole blobs -----

  /** The blob `encrypt` writes for a random `iv`. */
  function Sealed(c: Cipher, iv: Block, data: Bytes): (r: Bytes)
    ensures |r| == 4 + 16 + |Pad(data, BLOCK_SIZE)|
  {
    MAGIC + iv + EncryptBlocks(c, iv, Pad(data, BLOCK_SIZE))
  }

  function Opened(c: Cipher, blob: Bytes): Result {
    if !(MAGIC <= blob) then Ok(blob)
    else
      var body := blob[|MAGIC|..];
      if |body| < BLOCK_SIZE then InvalidData
      else
        var iv, ciphertext := body[..BLOCK_SIZE], body[BLOCK_SIZE..];
        if ciphertext == [] || |ciphertext| % BLOCK_SIZE != 0 then InvalidData
        else Unpad(DecryptBlocks(c, iv, ciphertext), BLOCK_SIZE)
  }

  /** `encrypt`, with the random initialisation vector as an input. */
  method Encrypt(c: Cipher, iv: Block, data: Bytes) returns (blob: Bytes)
    ensures blob == Sealed(c, iv, data)
  {
    var padded := Pad(data, BLOCK_SIZE);
    var ciphertext := CbcEncrypt(c, iv, padded);
    blob := MAGIC;
    blob := blob + iv;
    blob := blob + ciphertext;
  }

  /** `decrypt`: a blob without the header is already plain. */
  method Decrypt(c: Cipher, blob: Bytes) returns (r: Result)
    ensures r == Opened(c, blob)
  {
    if !(MAGIC <= blob) {
      return Ok(blob);
    }
    var body := blob[|MAGIC|..];
    if |body| < BLOCK_SIZE {
      return InvalidData;
    }
    var iv, ciphertext := body[..BLOCK_SIZE], body[BLOCK_SIZE..];
    if ciphertext == [] || |ciphertext| % BLOCK_SIZE != 0 {
      return InvalidData;
    }
    var padded := CbcDecrypt(c, iv, ciphertext);
    r := Unpad(padded, BLOCK_SIZE);
  }

  lemma SealedParts(c: Cipher, iv: Block, data: Bytes)
    ensures var blob := Sealed(c, iv, data);
            && MAGIC <= blob
            && blob[..4] == [82, 65, 71, 70]
            && blob[4..][..16] == iv
            && blob[4..][16..] == EncryptBlocks(c, iv, Pad(data, BLOCK_SIZE))
  {
    var blob := Sealed(c, iv, data);
    assert blob == MAGIC + (iv + EncryptBlocks(c, iv, Pad(data, BLOCK_SIZE)));
    assert blob[4..] == iv + EncryptBlocks(c, iv, Pad(data, BLOCK_SIZE));
  }

  /** Decryption returns what was encrypted, for every key, vector and text. */
  lemma OpenSealed(c: Cipher, iv: Block, data: Bytes)
    ensures Opened(c, Sealed(c, iv, data)) == Ok(data)
  {
    SealedParts(c, iv, data);
    DecryptInvertsEncrypt(c, iv, Pad(data, BLOCK_SIZE));
    UnpadPad(data, BLOCK_SIZE);
  }

  /** A blob with the header decrypts only if encryption writes it: nothing else is accepted. */
  lemma SealOpened(c: Cipher, blob: Bytes)
    requires MAGIC <= blob && Opened(c, blob).Ok?
    ensures |blob| >= 20 && blob == Sealed(c, blob[4..][..16], Opened(c, blob).data)
  {
    var iv, ciphertext := blob[4..][..16], blob[4..][16..];
    PadUnpad(DecryptBlocks(c, iv, ciphertext), BLOCK_SIZE);
    EncryptInvertsDecrypt(c, iv, ciphertext);
    assert blob == MAGIC + blob[4..];
    assert blob[4..] == iv + ciphertext;
  }
}
