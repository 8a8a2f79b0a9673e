/**
  The symmetric encryption of the Steam channel: cipher block chaining over PKCS #7 padding, with the
  initialisation vector either random or derived from an HMAC of the plain text.

  The block cipher and the HMAC are parameters; all that is assumed of them is in `Lawful`.
 */
module Crypto {
  import opened Prelude

  const BLOCK: nat := 16

  datatype Error = InvalidKeySize | HmacMismatch | Panic

  /** `encrypt` and `decrypt` take a key and one block, `hmac` a secret and a message. */
  datatype Primitives = Primitives(
    encrypt: (bytes, bytes) -> bytes,
    decrypt: (bytes, bytes) -> bytes,
    hmac: (bytes, bytes) -> bytes)

  /** The cipher turns blocks into blocks. */
  ghost predicate Sized(p: Primitives) {
    && (forall k, b :: |b| == BLOCK ==> |p.encrypt(k, b)| == BLOCK)
    && (forall k, b :: |b| == BLOCK ==> |p.decrypt(k, b)| == BLOCK)
  }

  /** The cipher is a permutation of blocks under every key; the HMAC is 20 bytes (SHA-1). */
  ghost predicate Lawful(p: Primitives) {
    && Sized(p)
    && (forall k, b :: |b| == BLOCK ==> p.decrypt(k, p.encrypt(k, b)) == b)
    && (forall k, b :: |b| == BLOCK ==> p.encrypt(k, p.decrypt(k, b)) == b)
    && (forall s, m :: |p.hmac(s, m)| == 20)
  }

  predicate ValidKey(key: bytes) {
    |key| == 16 || |key| == 24 || |key| == 32
  }

  // ----- exclusive or -----

  function Pow2(w: nat): (n: nat)
    ensures n > 0
  {
    if w == 0 then 1 else 2 * Pow2(w - 1)
  }

  function XorBits(a: nat, b: nat, w: nat): (x: nat)
    ensures x < Pow2(w)
  {
    if w == 0 then 0 else (if a % 2 == b % 2 then 0 else 1) + 2 * XorBits(a / 2, b / 2, w - 1)
  }

  lemma {:induction false} XorBitsTwice(a: nat, b: nat, w: nat)
    requires a < Pow2(w)
    ensures XorBits(XorBits(a, b, w), b, w) == a
  {
    if w == 0 {
    } else {
      var x, half := XorBits(a, b, w), XorBits(a / 2, b / 2, w - 1);
      XorBitsTwice(a / 2, b / 2, w - 1);
      assert x / 2 == half && x % 2 == if a % 2 == b % 2 then 0 else 1;
      assert XorBits(x, b, w) == (if x % 2 == b % 2 then 0 else 1) + 2 * XorBits(half, b / 2, w - 1);
    }
  }

  lemma Pow2Of8()
    ensures Pow2(8) == 0x100
  {}

  function Xor(a: byte, b: byte): byte {
    Pow2Of8();
    XorBits(a, b, 8)
  }

  function XorAll(a: bytes, b: bytes): (x: bytes)
    requires |a| == |b|
    ensures |x| == |a|
  {
    seq(|a|, i requires 0 <= i < |a| => Xor(a[i], b[i]))
  }

  lemma XorTwice(a: bytes, b: bytes)
    requires |a| == |b|
    ensures XorAll(XorAll(a, b), b) == a
  {
    Pow2Of8();
    forall i | 0 <= i < |a| ensures XorAll(XorAll(a, b), b)[i] == a[i] {
      XorBitsTwice(a[i], b[i], 8);
    }
  }

  predicate Bit(n: nat, k: nat) {
    if k == 0 then n % 2 == 1 else Bit(n / 2, k - 1)
  }

  /** Every bit of the result is set exactly if it is set in just one of the two numbers. */
  lemma {:induction false} XorBitsIs(a: nat, b: nat, w: nat, k: nat)
    requires k < w
    ensures Bit(XorBits(a, b, w), k) <==> (Bit(a, k) <==> !Bit(b, k))
  {
    var x := XorBits(a / 2, b / 2, w - 1);
    assert XorBits(a, b, w) == (if a % 2 == b % 2 then 0 else 1) + 2 * x;
    if k == 0 {
    } else {
      XorBitsIs(a / 2, b / 2, w - 1, k - 1);
      assert XorBits(a, b, w) / 2 == x;
    }
  }

  lemma XorIs(a: byte, b: byte, k: nat)
    requires k < 8
    ensures Bit(Xor(a, b), k) <==> (Bit(a, k) <==> !Bit(b, k))
  {
    XorBitsIs(a, b, 8, k);
  }

  // ----- padding -----

  /** The bytes that padding adds to data of some length. */
  function Padding(length: nat): (tail: bytes)
    ensures 0 < |tail| <= BLOCK && (length + |tail|) % BLOCK == 0
  {
    var pad := BLOCK - length % BLOCK;
    seq(pad, _ => pad)
  }

  function Pad(data: bytes): (padded: bytes)
    ensures |padded| % BLOCK == 0 && |padded| > 0
  {
    data + Padding(|data|)
  }

  /** Only the last byte is looked at; the other padding bytes are not checked. */
  function Trim(padded: bytes): Result<bytes, Error> {
    if padded == [] || padded[|padded| - 1] > |padded| then Err(Panic)
    else Ok(padded[..|padded| - padded[|padded| - 1]])
  }

  /** The tails that trimming takes off: their last byte is their length; none at all if the data ends in 0. */
  predicate IsTail(data: bytes, tail: bytes) {
    if tail == [] then data != [] && data[|data| - 1] == 0 else tail[|tail| - 1] == |tail|
  }

  /** Trimming gives exactly the data that such a tail follows. */
  lemma TrimIff(padded: bytes, data: bytes)
    ensures Trim(padded) == Ok(data) <==> data <= padded && IsTail(data, padded[|data|..])
  {
    if padded != [] {
      var n := padded[|padded| - 1];
      if data <= padded {
        var tail := padded[|data|..];
        assert padded == data + tail;
        assert tail != [] ==> tail[|tail| - 1] == n;
        assert tail == [] ==> data == padded;
        assert |tail| == n ==> padded[..|padded| - n] == data;
      }
      if n <= |padded| {
        assert padded[..|padded| - n] <= padded;
      }
    }
  }

  lemma TrimPad(data: bytes)
    ensures Trim(Pad(data)) == Ok(data)
  {
    var tail := Padding(|data|);
    assert tail[|tail| - 1] == |tail| && Pad(data)[|data|..] == tail;
    TrimIff(Pad(data), data);
  }

  // ----- chaining; the length guards only make the functions total -----

  function CbcEncrypt(p: Primitives, key: bytes, previous: bytes, data: bytes): bytes
    requires |data| % BLOCK == 0
    decreases |data|
  {
    if data == [] || |previous| != BLOCK then []
    else
      var block := p.encrypt(key, XorAll(data[..BLOCK], previous));
      block + CbcEncrypt(p, key, block, data[BLOCK..])
  }

  function CbcDecrypt(p: Primitives, key: bytes, previous: bytes, data: bytes): bytes
    requires |data| % BLOCK == 0
    decreases |data|
  {
    if data == [] || |previous| != BLOCK || |p.decrypt(key, data[..BLOCK])| != BLOCK then []
    else XorAll(p.decrypt(key, data[..BLOCK]), previous) + CbcDecrypt(p, key, data[..BLOCK], data[BLOCK..])
  }

  lemma {:induction false} CbcLengths(p: Primitives, key: bytes, previous: bytes, data: bytes)
    requires Lawful(p) && |previous| == BLOCK && |data| % BLOCK == 0
    ensures |CbcEncrypt(p, key, previous, data)| == |data| == |CbcDecrypt(p, key, previous, data)|
    decreases |data|
  {
    if data == [] {
    } else {
      CbcLengths(p, key, p.encrypt(key, XorAll(data[..BLOCK], previous)), data[BLOCK..]);
      CbcLengths(p, key, data[..BLOCK], data[BLOCK..]);
    }
  }

  /** Each block is the encryption of the data's block, added bit by bit to the cipher block before it. */
  lemma {:induction false} CbcIs(p: Primitives, key: bytes, previous: bytes, data: bytes, i: nat)
    requires Lawful(p) && |previous| == BLOCK && |data| % BLOCK == 0 == i % BLOCK && i < |data|
    ensures var out := CbcEncrypt(p, key, previous, data);
      && |out| == |data|
      && out[i..i + 16] == p.encrypt(key, XorAll(data[i..i + 16], if i == 0 then previous else out[i - 16..i]))
    decreases |data|
  {
    CbcLengths(p, key, previous, data);
    var out, block := CbcEncrypt(p, key, previous, data), p.encrypt(key, XorAll(data[..BLOCK], previous));
    assert out[..BLOCK] == block;
    if i == 0 {
    } else {
      var rest := CbcEncrypt(p, key, block, data[BLOCK..]);
      CbcIs(p, key, block, data[BLOCK..], i - BLOCK);
      assert out[BLOCK..] == rest;
      assert out[i..i + 16] == rest[i - BLOCK..i - BLOCK + 16];
      assert data[i..i + 16] == data[BLOCK..][i - BLOCK..i - BLOCK + 16];
      assert i > BLOCK ==> out[i - 16..i] == rest[i - BLOCK - 16..i - BLOCK];
    }
  }

  /** One block of the chain, at `i`. */
  lemma EncryptOneBlock(p: Primitives, key: bytes, previous: bytes, data: bytes, i: nat)
    requires |previous| == BLOCK && |data| % BLOCK == 0 == i % BLOCK && i < |data|
    ensures var block := p.encrypt(key, XorAll(data[i..i + BLOCK], previous));
      CbcEncrypt(p, key, previous, data[i..]) == block + CbcEncrypt(p, key, block, data[i + BLOCK..])
  {
    assert data[i..][..BLOCK] == data[i..i + BLOCK] && data[i..][BLOCK..] == data[i + BLOCK..];
  }

  lemma DecryptOneBlock(p: Primitives, key: bytes, previous: bytes, data: bytes, i: nat)
    requires |previous| == BLOCK && |data| % BLOCK == 0 == i % BLOCK && i < |data|
    requires |p.decrypt(key, data[i..i + BLOCK])| == BLOCK
    ensures var block := data[i..i + BLOCK];
      CbcDecrypt(p, key, previous, data[i..]) ==
      XorAll(p.decrypt(key, block), previous) + CbcDecrypt(p, key, block, data[i + BLOCK..])
  {
    assert data[i..][..BLOCK] == data[i..i + BLOCK] && data[i..][BLOCK..] == data[i + BLOCK..];
  }

  lemma {:induction false} DecryptEncrypt(p: Primitives, key: bytes, previous: bytes, data: bytes)
    requires Lawful(p) && |previous| == BLOCK && |data| % BLOCK == 0
    ensures |CbcEncrypt(p, key, previous, data)| == |data|
    ensures CbcDecrypt(p, key, previous, CbcEncrypt(p, key, previous, data)) == data
    decreases |data|
  {
    if data == [] {
    } else {
      var block := p.encrypt(key, XorAll(data[..BLOCK], previous));
      var out := CbcEncrypt(p, key, previous, data);
      DecryptEncrypt(p, key, block, data[BLOCK..]);
      assert out[..BLOCK] == block && out[BLOCK..] == CbcEncrypt(p, key, block, data[BLOCK..]);
      XorTwice(data[..BLOCK], previous);
      assert data == data[..BLOCK] + data[BLOCK..];
    }
  }

  lemma {:induction false} EncryptDecrypt(p: Primitives, key: bytes, previous: bytes, data: bytes)
    requires Lawful(p) && |previous| == BLOCK && |data| % BLOCK == 0
    ensures |CbcDecrypt(p, key, previous, data)| == |data|
    ensures CbcEncrypt(p, key, previous, CbcDecrypt(p, key, previous, data)) == data
    decreases |data|
  {
    if data == [] {
    } else {
      var block := data[..BLOCK];
      var plain := p.decrypt(key, block);
      var out := CbcDecrypt(p, key, previous, data);
      EncryptDecrypt(p, key, block, data[BLOCK..]);
      assert out[..BLOCK] == XorAll(plain, previous) && out[BLOCK..] == CbcDecrypt(p, key, block, data[BLOCK..]);
      XorTwice(plain, previous);
      assert data == block + data[BLOCK..];
    }
  }

  // ----- the four operations; `iv` and `prefix` are the random bytes drawn -----

  function EncryptWithIV(p: Primitives, data: bytes, key: bytes, iv: bytes): Result<bytes, Error> {
    if !ValidKey(key) then Err(InvalidKeySize)
    else Ok(p.encrypt(key, iv) + CbcEncrypt(p, key, iv, Pad(data)))
  }

  function DecryptIV(p: Primitives, block: bytes, key: bytes): Result<bytes, Error> {
    if !ValidKey(key) then Err(InvalidKeySize) else Ok(p.decrypt(key, block))
  }

  function DecryptWithIV(p: Primitives, data: bytes, key: bytes, iv: bytes): Result<bytes, Error> {
    if !ValidKey(key) then Err(InvalidKeySize)
    else if |data| % BLOCK != 0 then Err(Panic)
    else Trim(CbcDecrypt(p, key, iv, data))
  }

  function HmacIV(p: Primitives, data: bytes, secret: bytes, prefix: bytes): bytes {
    var h := p.hmac(secret, prefix + data);
    (if |h| < 13 then h else h[..13]) + prefix
  }

  function AESEncrypt(p: Primitives, key: bytes, data: bytes, iv: bytes): Result<bytes, Error> {
    EncryptWithIV(p, data, key, iv)
  }

  function AESDecrypt(p: Primitives, key: bytes, data: bytes): Result<bytes, Error> {
    if |data| < BLOCK then Err(Panic)
    else
      var iv :- DecryptIV(p, data[..BLOCK], key);
      DecryptWithIV(p, data[BLOCK..], key, iv)
  }

  function AESEncryptWithHMAC(p: Primitives, key: bytes, secret: bytes, data: bytes,
                              prefix: bytes): Result<bytes, Error> {
    EncryptWithIV(p, data, key, HmacIV(p, data, secret, prefix))
  }

  function AESDecryptWithHMAC(p: Primitives, key: bytes, secret: bytes, data: bytes): Result<bytes, Error> {
    if |data| < BLOCK then Err(Panic)
    else
      var iv :- DecryptIV(p, data[..BLOCK], key);
      var output :- DecryptWithIV(p, data[BLOCK..], key, iv);
      var prefix := if |iv| < 3 then iv else iv[|iv| - 3..];
      if iv != HmacIV(p, output, secret, prefix) then Err(HmacMismatch) else Ok(output)
  }

  // ----- the buffers the program fills -----

  lemma EncryptStep(p: Primitives, key: bytes, previous: bytes, src: bytes, i: nat, done: bytes, block: bytes)
    requires |previous| == BLOCK && |src| % BLOCK == 0 == i % BLOCK && i < |src|
    requires block == p.encrypt(key, XorAll(src[i..i + BLOCK], previous))
    ensures done + CbcEncrypt(p, key, previous, src[i..]) ==
            (done + block) + CbcEncrypt(p, key, block, src[i + BLOCK..])
  {
    EncryptOneBlock(p, key, previous, src, i);
    Associate(done, block, CbcEncrypt(p, key, block, src[i + BLOCK..]));
  }

  /** The chaining loop of the encrypter, block by block into `dst`. */
  method CryptBlocksEncrypt(p: Primitives, key: bytes, iv: bytes, dst: array<byte>, src: bytes)
    requires |iv| == BLOCK && |src| % BLOCK == 0 && dst.Length == |src|
    requires Sized(p)
    modifies dst
    ensures dst[..] == CbcEncrypt(p, key, iv, src)
  {
    var previous, i := iv, 0;
    ghost var all, done := CbcEncrypt(p, key, iv, src), [];
    assert src[0..] == src && all == done + all;
    while i < |src|
      invariant 0 <= i <= |src| && i % BLOCK == 0 && |previous| == BLOCK && dst[..i] == done
      invariant all == done + CbcEncrypt(p, key, previous, src[i..])
    {
      var block := p.encrypt(key, XorAll(src[i..i + BLOCK], previous));
      EncryptStep(p, key, previous, src, i, done, block);
      CopyBlock(dst, i, block);
      done := done + block;
      previous, i := block, i + BLOCK;
    }
    assert src[i..] == [] && all == done == dst[..];
  }

  lemma DecryptStep(p: Primitives, key: bytes, previous: bytes, src: bytes, i: nat, done: bytes, plain: bytes)
    requires |previous| == BLOCK && |src| % BLOCK == 0 == i % BLOCK && i < |src|
    requires |p.decrypt(key, src[i..i + BLOCK])| == BLOCK
    requires plain == XorAll(p.decrypt(key, src[i..i + BLOCK]), previous)
    ensures done + CbcDecrypt(p, key, previous, src[i..]) ==
            (done + plain) + CbcDecrypt(p, key, src[i..i + BLOCK], src[i + BLOCK..])
  {
    DecryptOneBlock(p, key, previous, src, i);
    Associate(done, plain, CbcDecrypt(p, key, src[i..i + BLOCK], src[i + BLOCK..]));
  }

  /** The chaining loop of the decrypter. */
  method CryptBlocksDecrypt(p: Primitives, key: bytes, iv: bytes, dst: array<byte>, src: bytes)
    requires |iv| == BLOCK && |src| % BLOCK == 0 && dst.Length == |src|
    requires Sized(p)
    modifies dst
    ensures dst[..] == CbcDecrypt(p, key, iv, src)
  {
    var previous, i := iv, 0;
    ghost var all, done := CbcDecrypt(p, key, iv, src), [];
    assert src[0..] == src && all == done + all;
    while i < |src|
      invariant 0 <= i <= |src| && i % BLOCK == 0 && |previous| == BLOCK && dst[..i] == done
      invariant all == done + CbcDecrypt(p, key, previous, src[i..])
    {
      var block := src[i..i + BLOCK];
      var plain := XorAll(p.decrypt(key, block), previous);
      DecryptStep(p, key, previous, src, i, done, plain);
      CopyBlock(dst, i, plain);
      done := done + plain;
      previous, i := block, i + BLOCK;
    }
    assert src[i..] == [] && all == done == dst[..];
  }

  method CopyBlock(dst: array<byte>, at: nat, block: bytes)
    requires |block| == BLOCK && at + BLOCK <= dst.Length
    modifies dst
    ensures dst[..at + BLOCK] == old(dst[..at]) + block
    ensures dst[at + BLOCK..] == old(dst[at + BLOCK..])
  {
    var j := 0;
    while j < BLOCK
      invariant 0 <= j <= BLOCK
      invariant forall k :: 0 <= k < dst.Length ==> dst[k] == if at <= k < at + j then block[k - at] else old(dst[k])
    {
      dst[at + j] := block[j];
      j := j + 1;
    }
  }

  method SymmetricEncryptWithIV(p: Primitives, data: bytes, key: bytes, iv: bytes) returns (r: Result<bytes, Error>)
    requires Lawful(p) && |iv| == BLOCK
    ensures r == EncryptWithIV(p, data, key, iv)
  {
    if !ValidKey(key) {
      return Err(InvalidKeySize);
    }
    var input := Pad(data);
    var cryptedInput := new byte[|input|];
    CryptBlocksEncrypt(p, key, iv, cryptedInput, input);
    return Ok(p.encrypt(key, iv) + cryptedInput[..]);
  }

  method SymmetricDecryptWithIV(p: Primitives, data: bytes, key: bytes, iv: bytes) returns (r: Result<bytes, Error>)
    requires Lawful(p) && |iv| == BLOCK
    ensures r == DecryptWithIV(p, data, key, iv)
  {
    if !ValidKey(key) {
      return Err(InvalidKeySize);
    }
    if |data| % BLOCK != 0 {
      return Err(Panic);
    }
    var result := new byte[|data|];
    CryptBlocksDecrypt(p, key, iv, result, data);
    return Trim(result[..]);
  }

  // ----- round trips -----

  lemma IVRoundTrip(p: Primitives, key: bytes, data: bytes, iv: bytes)
    requires Lawful(p) && ValidKey(key) && |iv| == BLOCK
    ensures var c := EncryptWithIV(p, data, key, iv).value;
      && |c| == BLOCK + |Pad(data)|
      && DecryptIV(p, c[..BLOCK], key) == Ok(iv)
      && DecryptWithIV(p, c[BLOCK..], key, iv) == Ok(data)
  {
    var c := EncryptWithIV(p, data, key, iv).value;
    DecryptEncrypt(p, key, iv, Pad(data));
    assert c[..BLOCK] == p.encrypt(key, iv) && c[BLOCK..] == CbcEncrypt(p, key, iv, Pad(data));
    TrimPad(data);
  }

  /** Whatever vector was drawn, decrypting an encryption returns data of every length. */
  lemma AESRoundTrip(p: Primitives, key: bytes, data: bytes, iv: bytes)
    requires Lawful(p) && ValidKey(key) && |iv| == BLOCK
    ensures AESEncrypt(p, key, data, iv).Ok?
    ensures AESDecrypt(p, key, AESEncrypt(p, key, data, iv).value) == Ok(data)
  {
    IVRoundTrip(p, key, data, iv);
  }

  /** Whatever prefix was drawn, the vector recovered from the first block passes its own check. */
  lemma HMACRoundTrip(p: Primitives, key: bytes, secret: bytes, data: bytes, prefix: bytes)
    requires Lawful(p) && ValidKey(key) && |prefix| == 3
    ensures AESEncryptWithHMAC(p, key, secret, data, prefix).Ok?
    ensures AESDecryptWithHMAC(p, key, secret, AESEncryptWithHMAC(p, key, secret, data, prefix).value) == Ok(data)
  {
    var iv := HmacIV(p, data, secret, prefix);
    assert |iv| == BLOCK && iv[13..] == prefix;
    IVRoundTrip(p, key, data, iv);
  }

  // ----- what is accepted -----

  /** Data with some tail, chained under the vector of its own HMAC. */
  ghost predicate IsEncryption(p: Primitives, key: bytes, secret: bytes, data: bytes, prefix: bytes, tail: bytes,
                               c: bytes) {
    && |prefix| == 3 && IsTail(data, tail) && (|data| + |tail|) % BLOCK == 0
    && var h := p.hmac(secret, prefix + data);
       var iv := (if |h| < 13 then h else h[..13]) + prefix;
       c == p.encrypt(key, iv) + CbcEncrypt(p, key, iv, data + tail)
  }

  lemma EncryptionIsAccepted(p: Primitives, key: bytes, secret: bytes, data: bytes, prefix: bytes, tail: bytes,
                             c: bytes)
    requires Lawful(p) && ValidKey(key) && IsEncryption(p, key, secret, data, prefix, tail, c)
    ensures AESDecryptWithHMAC(p, key, secret, c) == Ok(data)
  {
    var iv := HmacIV(p, data, secret, prefix);
    assert |iv| == BLOCK && iv[13..] == prefix;
    assert c[..BLOCK] == p.encrypt(key, iv) && c[BLOCK..] == CbcEncrypt(p, key, iv, data + tail);
    DecryptEncrypt(p, key, iv, data + tail);
    assert (data + tail)[|data|..] == tail;
    TrimIff(data + tail, data);
  }

  lemma AcceptedIsEncryption(p: Primitives, key: bytes, secret: bytes, data: bytes, c: bytes)
    returns (prefix: bytes, tail: bytes)
    requires Lawful(p) && AESDecryptWithHMAC(p, key, secret, c) == Ok(data)
    ensures ValidKey(key) && IsEncryption(p, key, secret, data, prefix, tail, c)
  {
    var iv := p.decrypt(key, c[..BLOCK]);
    var padded := CbcDecrypt(p, key, iv, c[BLOCK..]);
    prefix, tail := iv[13..], padded[|data|..];
    TrimIff(padded, data);
    EncryptDecrypt(p, key, iv, c[BLOCK..]);
    assert iv == HmacIV(p, data, secret, prefix) && padded == data + tail;
    assert c == c[..BLOCK] + c[BLOCK..];
  }

  /**
    The cipher texts accepted with some plain text are exactly the chainings of it, under its HMAC's
    vector for some prefix, with any tail whose last byte is the tail's length, or with none if the
    plain text ends in 0.
   */
  lemma AcceptedIff(p: Primitives, key: bytes, secret: bytes, c: bytes, data: bytes)
    requires Lawful(p)
    ensures AESDecryptWithHMAC(p, key, secret, c) == Ok(data) <==>
            ValidKey(key) && exists prefix, tail :: IsEncryption(p, key, secret, data, prefix, tail, c)
  {
    if AESDecryptWithHMAC(p, key, secret, c) == Ok(data) {
      var prefix, tail := AcceptedIsEncryption(p, key, secret, data, c);
    }
    forall prefix, tail | ValidKey(key) && IsEncryption(p, key, secret, data, prefix, tail, c)
      ensures AESDecryptWithHMAC(p, key, secret, c) == Ok(data)
    {
      EncryptionIsAccepted(p, key, secret, data, prefix, tail, c);
    }
  }

  /** Of these, the one that encrypting with that prefix gives is the one with the standard tail. */
  lemma AcceptedIsEncryptionIff(p: Primitives, key: bytes, secret: bytes, data: bytes, prefix: bytes, tail: bytes,
                                c: bytes)
    requires Lawful(p) && ValidKey(key) && IsEncryption(p, key, secret, data, prefix, tail, c)
    ensures var e := AESEncryptWithHMAC(p, key, secret, data, prefix);
      && e.Ok? && c[..BLOCK] == e.value[..BLOCK]
      && (c == e.value <==> tail == Padding(|data|))
  {
    var iv, e := HmacIV(p, data, secret, prefix), AESEncryptWithHMAC(p, key, secret, data, prefix).value;
    assert |p.encrypt(key, iv)| == BLOCK;
    assert c[BLOCK..] == CbcEncrypt(p, key, iv, data + tail) && e[BLOCK..] == CbcEncrypt(p, key, iv, Pad(data));
    DecryptEncrypt(p, key, iv, data + tail);
    DecryptEncrypt(p, key, iv, Pad(data));
    assert (data + tail)[|data|..] == tail && Pad(data)[|data|..] == Padding(|data|);
  }

  /** Every plain text is also accepted from a cipher text that no encryption of it makes. */
  lemma OtherPaddingIsAccepted(p: Primitives, key: bytes, secret: bytes, data: bytes, prefix: bytes) returns (c: bytes)
    requires Lawful(p) && ValidKey(key) && |prefix| == 3
    ensures AESDecryptWithHMAC(p, key, secret, c) == Ok(data)
    ensures forall other :: |other| == 3 ==> AESEncryptWithHMAC(p, key, secret, data, other) != Ok(c)
  {
    var n := |Padding(|data|)| + BLOCK;
    var tail: bytes := seq(n, _ => n);
    var iv := HmacIV(p, data, secret, prefix);
    c := p.encrypt(key, iv) + CbcEncrypt(p, key, iv, data + tail);
    EncryptionIsAccepted(p, key, secret, data, prefix, tail, c);
    CbcLengths(p, key, iv, data + tail);
    forall other: bytes | |other| == 3 ensures AESEncryptWithHMAC(p, key, secret, data, other) != Ok(c) {
      CbcLengths(p, key, HmacIV(p, data, secret, other), Pad(data));
    }
  }

  // ----- what panics -----

  /** The last byte of a plain text, which depends on the last two blocks of the cipher text alone. */
  ghost function LastPlain(p: Primitives, key: bytes, c: bytes): byte
    requires Sized(p) && |c| >= 2 * BLOCK
  {
    var n := |c| - BLOCK;
    var previous := if n == BLOCK then p.decrypt(key, c[..BLOCK]) else c[n - BLOCK..n];
    Xor(p.decrypt(key, c[n..])[BLOCK - 1], previous[BLOCK - 1])
  }

  lemma {:induction false} ChainedLast(p: Primitives, key: bytes, previous: bytes, c: bytes, i: nat)
    requires Sized(p) && |previous| == BLOCK && |c| % BLOCK == 0 == i % BLOCK && i < |c|
    ensures var n, out := |c| - BLOCK, CbcDecrypt(p, key, previous, c[i..]);
      && |out| == |c| - i
      && var before := if i == n then previous else c[n - BLOCK..n];
         out[|out| - 1] == Xor(p.decrypt(key, c[n..])[BLOCK - 1], before[BLOCK - 1])
    decreases |c| - i
  {
    DecryptOneBlock(p, key, previous, c, i);
    if i + BLOCK == |c| {
      assert c[i + BLOCK..] == [] && c[i..i + BLOCK] == c[i..];
    } else {
      ChainedLast(p, key, c[i..i + BLOCK], c, i + BLOCK);
    }
  }

  /**
    The cipher texts that the program does not reject but panics on, if they have no spare capacity
    behind them, like the packets that framing makes.
   */
  ghost predicate Panics(p: Primitives, key: bytes, c: bytes)
    requires Sized(p)
  {
    || |c| < BLOCK
    || (ValidKey(key) && (|c| < 2 * BLOCK || |c| % BLOCK != 0 || LastPlain(p, key, c) > |c| - BLOCK))
  }

  lemma DecryptPanicsIff(p: Primitives, key: bytes, secret: bytes, c: bytes)
    requires Sized(p)
    ensures AESDecrypt(p, key, c) == Err(Panic) <==> Panics(p, key, c)
    ensures AESDecryptWithHMAC(p, key, secret, c) == Err(Panic) <==> Panics(p, key, c)
  {
    if |c| >= 2 * BLOCK && |c| % BLOCK == 0 {
      ChainedLast(p, key, p.decrypt(key, c[..BLOCK]), c, BLOCK);
    }
  }

  /** Every operation takes exactly the keys of 16, 24 and 32 bytes, once it has a whole block to decrypt. */
  lemma KeyErrorIff(p: Primitives, key: bytes, secret: bytes, data: bytes, random: bytes)
    ensures var wrong := |key| != 16 && |key| != 24 && |key| != 32;
      && (AESEncrypt(p, key, data, random).Err? <==> wrong)
      && (AESEncryptWithHMAC(p, key, secret, data, random).Err? <==> wrong)
      && (AESDecrypt(p, key, data) == Err(InvalidKeySize) <==> wrong && 16 <= |data|)
      && (AESDecryptWithHMAC(p, key, secret, data) == Err(InvalidKeySize) <==> wrong && 16 <= |data|)
      && (wrong ==> AESEncrypt(p, key, data, random) == AESEncryptWithHMAC(p, key, secret, data, random))
      && (wrong ==> AESEncrypt(p, key, data, random) == Err(InvalidKeySize))
  {}
}
