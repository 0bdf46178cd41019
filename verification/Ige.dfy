/** IGE chaining over a block cipher (kosta-crypto/src/ige.rs). */
module Ige {
  import opened Wrappers
  import opened Sequences
  import opened Bytes

  const BLOCK := 16

  /** A block cipher under a fixed key. */
  datatype Cipher = Cipher(encrypt: bytes -> bytes, decrypt: bytes -> bytes)

  /** A 16-byte register or block. */
  ghost predicate IsBlock(b: bytes) { |b| == BLOCK }

  /** The cipher is a permutation of the blocks and decrypt is its inverse. */
  ghost predicate Permutation(cipher: Cipher) {
    && (forall b: bytes {:trigger IsBlock(b)} :: IsBlock(b) ==>
          |cipher.encrypt(b)| == BLOCK && cipher.decrypt(cipher.encrypt(b)) == b)
    && (forall b: bytes {:trigger IsBlock(b)} :: IsBlock(b) ==>
          |cipher.decrypt(b)| == BLOCK && cipher.encrypt(cipher.decrypt(b)) == b)
  }

  datatype IgeError = NotAligned

  function EncryptBlock(cipher: Cipher, c: bytes, m: bytes, block: bytes): (x: bytes)
    requires Permutation(cipher) && IsBlock(c) && IsBlock(m) && IsBlock(block)
    ensures IsBlock(x)
  {
    assert IsBlock(Xor(block, c));
    Xor(cipher.encrypt(Xor(block, c)), m)
  }

  function DecryptBlock(cipher: Cipher, c: bytes, m: bytes, block: bytes): (plain: bytes)
    requires Permutation(cipher) && IsBlock(c) && IsBlock(m) && IsBlock(block)
    ensures IsBlock(plain)
  {
    assert IsBlock(Xor(block, m));
    Xor(cipher.decrypt(Xor(block, m)), c)
  }

  lemma BlockInverse(cipher: Cipher, c: bytes, m: bytes, block: bytes)
    requires Permutation(cipher) && IsBlock(c) && IsBlock(m) && IsBlock(block)
    ensures DecryptBlock(cipher, c, m, EncryptBlock(cipher, c, m, block)) == block
    ensures EncryptBlock(cipher, c, m, DecryptBlock(cipher, c, m, block)) == block
  {
    assert IsBlock(Xor(block, c)) && IsBlock(Xor(block, m));
    XorCancels(cipher.encrypt(Xor(block, c)), m);
    XorCancels(cipher.decrypt(Xor(block, m)), c);
    XorCancels(block, c);
    XorCancels(block, m);
  }

  /** Ciphertext of a whole number of blocks; c and m are the previous ciphertext and plaintext block. */
  ghost function Encrypted(cipher: Cipher, c: bytes, m: bytes, plaintext: bytes): (r: bytes)
    requires Permutation(cipher) && IsBlock(c) && IsBlock(m) && |plaintext| % BLOCK == 0
    ensures |r| == |plaintext|
    decreases |plaintext|
  {
    if plaintext == [] then []
    else
      var block := plaintext[..BLOCK];
      var x := EncryptBlock(cipher, c, m, block);
      x + Encrypted(cipher, x, block, plaintext[BLOCK..])
  }

  ghost function Decrypted(cipher: Cipher, c: bytes, m: bytes, ciphertext: bytes): (r: bytes)
    requires Permutation(cipher) && IsBlock(c) && IsBlock(m) && |ciphertext| % BLOCK == 0
    ensures |r| == |ciphertext|
    decreases |ciphertext|
  {
    if ciphertext == [] then []
    else
      var block := ciphertext[..BLOCK];
      var plain := DecryptBlock(cipher, c, m, block);
      plain + Decrypted(cipher, block, plain, ciphertext[BLOCK..])
  }

  /** Decryption undoes encryption: both ends carry the same two registers from block to block. */
  lemma {:induction false} DecryptUndoesEncrypt(cipher: Cipher, c: bytes, m: bytes, plaintext: bytes)
    requires Permutation(cipher) && IsBlock(c) && IsBlock(m) && |plaintext| % BLOCK == 0
    ensures Decrypted(cipher, c, m, Encrypted(cipher, c, m, plaintext)) == plaintext
    decreases |plaintext|
  {
    if plaintext != [] {
      var block, rest := plaintext[..BLOCK], plaintext[BLOCK..];
      var x := EncryptBlock(cipher, c, m, block);
      var tail := Encrypted(cipher, x, block, rest);
      assert (x + tail)[..BLOCK] == x && (x + tail)[BLOCK..] == tail;
      BlockInverse(cipher, c, m, block);
      DecryptUndoesEncrypt(cipher, x, block, rest);
      assert plaintext == block + rest;
    }
  }

  /** And encryption undoes decryption. */
  lemma {:induction false} EncryptUndoesDecrypt(cipher: Cipher, c: bytes, m: bytes, ciphertext: bytes)
    requires Permutation(cipher) && IsBlock(c) && IsBlock(m) && |ciphertext| % BLOCK == 0
    ensures Encrypted(cipher, c, m, Decrypted(cipher, c, m, ciphertext)) == ciphertext
    decreases |ciphertext|
  {
    if ciphertext != [] {
      var block, rest := ciphertext[..BLOCK], ciphertext[BLOCK..];
      var plain := DecryptBlock(cipher, c, m, block);
      var tail := Decrypted(cipher, block, plain, rest);
      assert (plain + tail)[..BLOCK] == plain && (plain + tail)[BLOCK..] == tail;
      BlockInverse(cipher, c, m, block);
      EncryptUndoesDecrypt(cipher, block, plain, rest);
      assert ciphertext == block + rest;
    }
  }

  // ---------- what the chaining is ----------

  function Block(s: bytes, i: nat): bytes
    requires BLOCK * (i + 1) <= |s|
  {
    s[BLOCK * i..BLOCK * (i + 1)]
  }

  /** The block before block i: the register in front of the first one. */
  function Before(register: bytes, s: bytes, i: nat): bytes
    requires BLOCK * i <= |s|
  {
    if i == 0 then register else Block(s, i - 1)
  }

  /** Infinite garble extension: the cipher maps each plaintext block, xored with the ciphertext block before, to
      the ciphertext block, xored with the plaintext block before. */
  ghost predicate Chained(cipher: Cipher, c: bytes, m: bytes, plaintext: bytes, ciphertext: bytes)
    requires IsBlock(c) && IsBlock(m)
  {
    && |plaintext| == |ciphertext| && |plaintext| % BLOCK == 0
    && forall i: nat :: i < |plaintext| / BLOCK ==> Links(cipher, c, m, plaintext, ciphertext, i)
  }

  ghost predicate Links(cipher: Cipher, c: bytes, m: bytes, plaintext: bytes, ciphertext: bytes, i: nat)
    requires IsBlock(c) && IsBlock(m) && |plaintext| == |ciphertext| && BLOCK * (i + 1) <= |plaintext|
  {
    && |cipher.encrypt(Xor(Block(plaintext, i), Before(c, ciphertext, i)))| == BLOCK
    && Xor(Block(ciphertext, i), Before(m, plaintext, i)) == cipher.encrypt(Xor(Block(plaintext, i), Before(c, ciphertext, i)))
  }

  lemma LinksShift(cipher: Cipher, c: bytes, m: bytes, plaintext: bytes, ciphertext: bytes, i: nat)
    requires IsBlock(c) && IsBlock(m) && |plaintext| == |ciphertext| && BLOCK * (i + 2) <= |plaintext|
    ensures Links(cipher, c, m, plaintext, ciphertext, i + 1)
       <==> Links(cipher, ciphertext[..BLOCK], plaintext[..BLOCK], plaintext[BLOCK..], ciphertext[BLOCK..], i)
  {
    hide Xor;
    assert Block(plaintext[BLOCK..], i) == Block(plaintext, i + 1) && Block(ciphertext[BLOCK..], i) == Block(ciphertext, i + 1);
    if i > 0 {
      assert Block(plaintext[BLOCK..], i - 1) == Block(plaintext, i) && Block(ciphertext[BLOCK..], i - 1) == Block(ciphertext, i);
    }
  }

  lemma FirstLink(cipher: Cipher, c: bytes, m: bytes, plaintext: bytes, ciphertext: bytes)
    requires Permutation(cipher) && IsBlock(c) && IsBlock(m) && |plaintext| == |ciphertext| >= BLOCK
    ensures Links(cipher, c, m, plaintext, ciphertext, 0) <==> ciphertext[..BLOCK] == EncryptBlock(cipher, c, m, plaintext[..BLOCK])
  {
    assert Block(plaintext, 0) == plaintext[..BLOCK] && Block(ciphertext, 0) == ciphertext[..BLOCK];
    assert IsBlock(Xor(plaintext[..BLOCK], c));
    XorCancels(cipher.encrypt(Xor(plaintext[..BLOCK], c)), m);
    XorCancels(ciphertext[..BLOCK], m);
  }

  lemma ChainedStep(cipher: Cipher, c: bytes, m: bytes, plaintext: bytes, ciphertext: bytes)
    requires Permutation(cipher) && IsBlock(c) && IsBlock(m)
    requires |plaintext| == |ciphertext| >= BLOCK && |plaintext| % BLOCK == 0
    ensures Chained(cipher, c, m, plaintext, ciphertext) <==>
      && ciphertext[..BLOCK] == EncryptBlock(cipher, c, m, plaintext[..BLOCK])
      && Chained(cipher, ciphertext[..BLOCK], plaintext[..BLOCK], plaintext[BLOCK..], ciphertext[BLOCK..])
  {
    hide Links, EncryptBlock;
    FirstLink(cipher, c, m, plaintext, ciphertext);
    var n := |plaintext| / BLOCK;
    assert |plaintext[BLOCK..]| / BLOCK == n - 1;
    forall i: nat | i + 1 < n
      ensures Links(cipher, c, m, plaintext, ciphertext, i + 1)
         <==> Links(cipher, ciphertext[..BLOCK], plaintext[..BLOCK], plaintext[BLOCK..], ciphertext[BLOCK..], i)
    {
      LinksShift(cipher, c, m, plaintext, ciphertext, i);
    }
    if Chained(cipher, ciphertext[..BLOCK], plaintext[..BLOCK], plaintext[BLOCK..], ciphertext[BLOCK..])
      && Links(cipher, c, m, plaintext, ciphertext, 0) {
      forall i: nat | i < n ensures Links(cipher, c, m, plaintext, ciphertext, i) {
        if i > 0 { LinksShift(cipher, c, m, plaintext, ciphertext, i - 1); }
      }
    }
  }

  /** The ciphertext is the one string that is chained to the plaintext. */
  lemma {:induction false} EncryptedIffChained(cipher: Cipher, c: bytes, m: bytes, plaintext: bytes, ciphertext: bytes)
    requires Permutation(cipher) && IsBlock(c) && IsBlock(m) && |plaintext| % BLOCK == 0
    ensures ciphertext == Encrypted(cipher, c, m, plaintext) <==> Chained(cipher, c, m, plaintext, ciphertext)
    decreases |plaintext|
  {
    hide EncryptBlock, Links;
    if |plaintext| == |ciphertext| && plaintext != [] {
      var x := EncryptBlock(cipher, c, m, plaintext[..BLOCK]);
      ChainedStep(cipher, c, m, plaintext, ciphertext);
      EncryptedIffChained(cipher, x, plaintext[..BLOCK], plaintext[BLOCK..], ciphertext[BLOCK..]);
      assert ciphertext == ciphertext[..BLOCK] + ciphertext[BLOCK..];
      var whole := Encrypted(cipher, c, m, plaintext);
      assert whole == x + Encrypted(cipher, x, plaintext[..BLOCK], plaintext[BLOCK..]);
      assert whole[..BLOCK] == x && whole[BLOCK..] == Encrypted(cipher, x, plaintext[..BLOCK], plaintext[BLOCK..]);
    }
  }

  /** And the decrypted text the one string the ciphertext is chained to. */
  lemma DecryptedIffChained(cipher: Cipher, c: bytes, m: bytes, plaintext: bytes, ciphertext: bytes)
    requires Permutation(cipher) && IsBlock(c) && IsBlock(m) && |ciphertext| % BLOCK == 0
    ensures plaintext == Decrypted(cipher, c, m, ciphertext) <==> Chained(cipher, c, m, plaintext, ciphertext)
  {
    hide Chained;
    if |plaintext| % BLOCK == 0 {
      EncryptedIffChained(cipher, c, m, plaintext, ciphertext);
      EncryptUndoesDecrypt(cipher, c, m, ciphertext);
      DecryptUndoesEncrypt(cipher, c, m, plaintext);
    }
    if Chained(cipher, c, m, plaintext, ciphertext) { ChainedAligned(cipher, c, m, plaintext, ciphertext); }
  }

  lemma ChainedAligned(cipher: Cipher, c: bytes, m: bytes, plaintext: bytes, ciphertext: bytes)
    requires IsBlock(c) && IsBlock(m) && Chained(cipher, c, m, plaintext, ciphertext)
    ensures |plaintext| % BLOCK == 0
  {
  }

  method IgeEncrypt(cipher: Cipher, iv: bytes, plaintext: bytes) returns (r: Result<bytes, IgeError>)
    requires Permutation(cipher) && |iv| == 2 * BLOCK
    ensures |plaintext| % BLOCK == 0 ==> r == Ok(Encrypted(cipher, iv[..BLOCK], iv[BLOCK..], plaintext))
    ensures |plaintext| % BLOCK != 0 ==> r == Err(NotAligned)
  {
    var c, m := iv[..BLOCK], iv[BLOCK..];
    var encrypted: bytes := [];
    var rest := plaintext;
    while rest != []
      invariant IsBlock(c) && IsBlock(m) && |rest| % BLOCK == |plaintext| % BLOCK
      invariant |rest| % BLOCK == 0 ==>
        encrypted + Encrypted(cipher, c, m, rest) == Encrypted(cipher, iv[..BLOCK], iv[BLOCK..], plaintext)
      decreases |rest|
    {
      if |rest| < BLOCK { return Err(NotAligned); }
      var block := rest[..BLOCK];
      var x := EncryptBlock(cipher, c, m, block);
      if |rest| % BLOCK == 0 {
        Reassociate(encrypted, x, Encrypted(cipher, x, block, rest[BLOCK..]));
      }
      encrypted := encrypted + x;
      m := block;
      c := x;
      rest := rest[BLOCK..];
    }
    assert encrypted + [] == encrypted;
    return Ok(encrypted);
  }

  method IgeDecrypt(cipher: Cipher, iv: bytes, ciphertext: bytes) returns (r: Result<bytes, IgeError>)
    requires Permutation(cipher) && |iv| == 2 * BLOCK
    ensures |ciphertext| % BLOCK == 0 ==> r == Ok(Decrypted(cipher, iv[..BLOCK], iv[BLOCK..], ciphertext))
    ensures |ciphertext| % BLOCK != 0 ==> r == Err(NotAligned)
  {
    var c, m := iv[..BLOCK], iv[BLOCK..];
    var decrypted: bytes := [];
    var rest := ciphertext;
    while rest != []
      invariant IsBlock(c) && IsBlock(m) && |rest| % BLOCK == |ciphertext| % BLOCK
      invariant |rest| % BLOCK == 0 ==>
        decrypted + Decrypted(cipher, c, m, rest) == Decrypted(cipher, iv[..BLOCK], iv[BLOCK..], ciphertext)
      decreases |rest|
    {
      if |rest| < BLOCK { return Err(NotAligned); }
      var block := rest[..BLOCK];
      var plain := DecryptBlock(cipher, c, m, block);
      if |rest| % BLOCK == 0 {
        Reassociate(decrypted, plain, Decrypted(cipher, block, plain, rest[BLOCK..]));
      }
      decrypted := decrypted + plain;
      m := plain;
      c := block;
      rest := rest[BLOCK..];
    }
    assert decrypted + [] == decrypted;
    return Ok(decrypted);
  }
}
