/** Encryption of session traffic (kosta-crypto/src/session_crypto.rs, ctr.rs) and its packets. */
module Crypto {
  import opened Wrappers
  import opened Arithmetic
  import opened Bytes
  import opened TlTypes

  /** The primitives the code calls and this model does not look into. */
  datatype Primitives = Primitives(
    keystream: (bytes, bytes, nat) -> bytes,       // key, nonce, length
    hmac: (bytes, bytes) -> bytes,                 // key, data
    sha1: bytes -> bytes,
    sha256: bytes -> bytes,
    hkdf: (bytes, bytes) -> bytes,                 // salt, secret
    gcmSeal: (bytes, bytes, bytes) -> bytes,       // key, nonce, data
    gcmOpen: (bytes, bytes, bytes) -> Option<bytes>,
    sign: bytes -> bytes,
    verify: (bytes, bytes) -> bool)                // data, signature

  /** Output sizes, and that opening undoes sealing. */
  ghost predicate Lawful(prims: Primitives) {
    && (forall k, n, len :: |prims.keystream(k, n, len)| == len)
    && (forall k, d :: |prims.hmac(k, d)| == 32)
    && (forall d :: |prims.sha1(d)| == 20)
    && (forall d :: |prims.sha256(d)| == 32)
    && (forall s, d :: |prims.hkdf(s, d)| == 128)
    && (forall k, n, d :: |prims.gcmSeal(k, n, d)| == |d| + 16 && prims.gcmOpen(k, n, prims.gcmSeal(k, n, d)) == Some(d))
    && (forall d :: |prims.sign(d)| == 64)
  }

  /** Primitives that meet the assumptions, so they are consistent. */
  function Trivial(): Primitives {
    Primitives(
      (_, _, len) => Zeros(len), (_, _) => Zeros(32), _ => Zeros(20), _ => Zeros(32), (_, _) => Zeros(128),
      (_, _, data) => data + Zeros(16), (_, _, data) => if |data| < 16 then None else Some(data[..|data| - 16]),
      _ => Zeros(64), (_, _) => true)
  }

  lemma LawsAreConsistent()
    ensures Lawful(Trivial())
  {
    forall d: bytes ensures (d + Zeros(16))[..|d + Zeros(16)| - 16] == d { }
  }

  // ---------- counter mode and authentication ----------

  /** Counter mode (section 6.5 of NIST SP 800-38A): exclusive or with the keystream, both ways. */
  function ApplyKeystream(prims: Primitives, key: bytes, nonce: bytes, data: bytes): (r: bytes)
    requires Lawful(prims)
    ensures |r| == |data|
  {
    Xor(data, prims.keystream(key, nonce, |data|))
  }

  function Tag(prims: Primitives, macKey: bytes, nonce: bytes, ciphertext: bytes): (r: bytes)
    requires Lawful(prims)
    ensures |r| == 16
  {
    prims.hmac(macKey, nonce + ciphertext)[..16]
  }

  /** Ciphertext and tag. */
  function EncryptAndTag(prims: Primitives, aesKey: bytes, macKey: bytes, nonce: bytes, plaintext: bytes): (bytes, bytes)
    requires Lawful(prims)
  {
    var ciphertext := ApplyKeystream(prims, aesKey, nonce, plaintext);
    (ciphertext, Tag(prims, macKey, nonce, ciphertext))
  }

  function DecryptAndVerify(prims: Primitives, aesKey: bytes, macKey: bytes, nonce: bytes, ciphertext: bytes, tag: bytes): Option<bytes>
    requires Lawful(prims)
  {
    if Tag(prims, macKey, nonce, ciphertext) != tag then None
    else Some(ApplyKeystream(prims, aesKey, nonce, ciphertext))
  }

  /** What is accepted, and as what: exactly the encryption of the plaintext that comes out. */
  lemma AcceptsOnlyEncryptions(prims: Primitives, aesKey: bytes, macKey: bytes, nonce: bytes, ciphertext: bytes, tag: bytes, plaintext: bytes)
    requires Lawful(prims)
    ensures DecryptAndVerify(prims, aesKey, macKey, nonce, ciphertext, tag) == Some(plaintext)
       <==> EncryptAndTag(prims, aesKey, macKey, nonce, plaintext) == (ciphertext, tag)
  {
    XorCancels(plaintext, prims.keystream(aesKey, nonce, |plaintext|));
    XorCancels(ciphertext, prims.keystream(aesKey, nonce, |ciphertext|));
  }

  /** What sealing makes of a plaintext, in terms of the primitives: its exclusive or with the keystream of key
      and nonce, and the first 16 bytes of the HMAC over nonce and ciphertext. */
  lemma SealingIs(prims: Primitives, aesKey: bytes, macKey: bytes, nonce: bytes, plaintext: bytes)
    requires Lawful(prims)
    ensures var (ciphertext, tag) := EncryptAndTag(prims, aesKey, macKey, nonce, plaintext);
      && |ciphertext| == |plaintext| && Xor(ciphertext, prims.keystream(aesKey, nonce, |plaintext|)) == plaintext
      && (forall i, k: nat :: 0 <= i < |plaintext| && k < 8 ==>
            (Bit(ciphertext[i], k) == 1 <==> Bit(plaintext[i], k) != Bit(prims.keystream(aesKey, nonce, |plaintext|)[i], k)))
      && tag == prims.hmac(macKey, nonce + ciphertext)[..16]
  {
    var stream := prims.keystream(aesKey, nonce, |plaintext|);
    XorCancels(plaintext, stream);
    forall i, k: nat | 0 <= i < |plaintext| && k < 8
      ensures Bit(Xor(plaintext, stream)[i], k) == 1 <==> Bit(plaintext[i], k) != Bit(stream[i], k)
    {
      XorAt(plaintext, stream, i, k);
    }
  }

  /** And opening: refused exactly when the tag is not the HMAC of what came with it. */
  lemma OpeningIs(prims: Primitives, aesKey: bytes, macKey: bytes, nonce: bytes, ciphertext: bytes, tag: bytes)
    requires Lawful(prims)
    ensures DecryptAndVerify(prims, aesKey, macKey, nonce, ciphertext, tag) ==
      if tag == prims.hmac(macKey, nonce + ciphertext)[..16]
      then Some(Xor(ciphertext, prims.keystream(aesKey, nonce, |ciphertext|))) else None
  {
  }

  /** So a sealed message with another nonce or ciphertext but its old tag is refused exactly when the HMACs
      differ in their first 16 bytes, and with another tag always. */
  lemma AlteredIsRefused(prims: Primitives, aesKey: bytes, macKey: bytes, nonce: bytes, plaintext: bytes, nonce': bytes, ciphertext': bytes, tag': bytes)
    requires Lawful(prims)
    ensures var (ciphertext, tag) := EncryptAndTag(prims, aesKey, macKey, nonce, plaintext);
      && (DecryptAndVerify(prims, aesKey, macKey, nonce', ciphertext', tag).None? <==>
            prims.hmac(macKey, nonce' + ciphertext')[..16] != prims.hmac(macKey, nonce + ciphertext)[..16])
      && (DecryptAndVerify(prims, aesKey, macKey, nonce, ciphertext, tag').None? <==> tag' != tag)
  {
    var (ciphertext, tag) := EncryptAndTag(prims, aesKey, macKey, nonce, plaintext);
    SealingIs(prims, aesKey, macKey, nonce, plaintext);
    OpeningIs(prims, aesKey, macKey, nonce', ciphertext', tag);
    OpeningIs(prims, aesKey, macKey, nonce, ciphertext, tag');
  }

  // ---------- nonces ----------

  /** The random part of a nonce. */
  type Noise = b: bytes | |b| == 12 witness Zeros(12)

  /** Four big-endian counter bytes, then twelve random ones. */
  function GenerateNonce(counter: u32, noise: bytes): (r: bytes)
    requires |noise| == 12
    ensures |r| == 16
  {
    Reverse(LeBytes(counter, 4)) + noise
  }

  /** A nonce reads back as its counter, in network order, and its random part. */
  lemma NonceIs(counter: u32, noise: bytes)
    requires |noise| == 12
    ensures var nonce := GenerateNonce(counter, noise);
      FromBytesBe(nonce[..4]) == counter && nonce[4..] == noise
  {
    WordSizes();
    FromLeBytes(counter, 4);
    ReverseTwice(LeBytes(counter, 4));
    assert GenerateNonce(counter, noise)[..4] == Reverse(LeBytes(counter, 4));
  }

  /** Nonces of different counters differ, whatever the random part. */
  lemma NoncesDiffer(counter: u32, noise: bytes, counter': u32, noise': bytes)
    requires |noise| == |noise'| == 12 && counter != counter'
    ensures GenerateNonce(counter, noise) != GenerateNonce(counter', noise')
  {
    WordSizes();
    FromLeBytes(counter, 4);
    FromLeBytes(counter', 4);
    ReverseTwice(LeBytes(counter, 4));
    ReverseTwice(LeBytes(counter', 4));
    assert GenerateNonce(counter, noise)[..4] == Reverse(LeBytes(counter, 4));
    assert GenerateNonce(counter', noise')[..4] == Reverse(LeBytes(counter', 4));
  }

  // ---------- the context ----------

  /** A value: the server clones it with the session it belongs to. */
  datatype SessionCrypto = SessionCrypto(
    clientWriteKey: bytes, clientMacKey: bytes, serverWriteKey: bytes, serverMacKey: bytes,
    sendCounter: u32, recvCounter: u32)

  function Next(counter: u32): u32 { (counter + 1) % TWO_32 }

  /** The four directional keys of a fresh context. */
  function NewSessionCrypto(prims: Primitives, sharedSecret: bytes, clientNonce: bytes, serverNonce: bytes): SessionCrypto
    requires Lawful(prims)
  {
    var okm := prims.hkdf(prims.sha256(clientNonce + serverNonce), sharedSecret);
    SessionCrypto(okm[..32], okm[32..64], okm[64..96], okm[96..128], 0, 0)
  }

  /** The keys are the four consecutive 32-byte parts of the expansion of the secret, salted with the hash of
      both nonces, and the counters start at zero. */
  lemma DerivedKeys(prims: Primitives, sharedSecret: bytes, clientNonce: bytes, serverNonce: bytes)
    requires Lawful(prims)
    ensures var c := NewSessionCrypto(prims, sharedSecret, clientNonce, serverNonce);
      && |c.clientWriteKey| == |c.clientMacKey| == |c.serverWriteKey| == |c.serverMacKey| == 32
      && c.clientWriteKey + c.clientMacKey + c.serverWriteKey + c.serverMacKey
           == prims.hkdf(prims.sha256(clientNonce + serverNonce), sharedSecret)
      && c.sendCounter == c.recvCounter == 0
  {
  }

  datatype Sealed = Sealed(nonce: bytes, ciphertext: bytes, tag: bytes)

  function Seal(prims: Primitives, aesKey: bytes, macKey: bytes, counter: u32, plaintext: bytes, noise: bytes): (s: Sealed)
    requires Lawful(prims) && |noise| == 12
    ensures |s.nonce| == 16 && |s.tag| == 16 && |s.ciphertext| == |plaintext|
  {
    var nonce := GenerateNonce(counter, noise);
    var (ciphertext, tag) := EncryptAndTag(prims, aesKey, macKey, nonce, plaintext);
    Sealed(nonce, ciphertext, tag)
  }

  /** The client's sealing, under the client keys. */
  function EncryptOutgoing(prims: Primitives, crypto: SessionCrypto, plaintext: bytes, noise: bytes): (SessionCrypto, Sealed)
    requires Lawful(prims) && |noise| == 12
  {
    (crypto.(sendCounter := Next(crypto.sendCounter)),
     Seal(prims, crypto.clientWriteKey, crypto.clientMacKey, crypto.sendCounter, plaintext, noise))
  }

  /** The server's sealing, under the server keys. */
  function EncryptOutgoingServer(prims: Primitives, crypto: SessionCrypto, plaintext: bytes, noise: bytes): (SessionCrypto, Sealed)
    requires Lawful(prims) && |noise| == 12
  {
    (crypto.(sendCounter := Next(crypto.sendCounter)),
     Seal(prims, crypto.serverWriteKey, crypto.serverMacKey, crypto.sendCounter, plaintext, noise))
  }

  /** The server's opening; the counter moves only on success. */
  function DecryptIncomingServer(prims: Primitives, crypto: SessionCrypto, s: Sealed): Option<(SessionCrypto, bytes)>
    requires Lawful(prims)
  {
    var plaintext := DecryptAndVerify(prims, crypto.clientWriteKey, crypto.clientMacKey, s.nonce, s.ciphertext, s.tag);
    if plaintext.None? then None
    else Some((crypto.(recvCounter := Next(crypto.recvCounter)), plaintext.value))
  }

  function DecryptIncoming(prims: Primitives, crypto: SessionCrypto, s: Sealed): Option<(SessionCrypto, bytes)>
    requires Lawful(prims)
  {
    var plaintext := DecryptAndVerify(prims, crypto.serverWriteKey, crypto.serverMacKey, s.nonce, s.ciphertext, s.tag);
    if plaintext.None? then None
    else Some((crypto.(recvCounter := Next(crypto.recvCounter)), plaintext.value))
  }

  predicate SameKeys(a: SessionCrypto, b: SessionCrypto) {
    a.clientWriteKey == b.clientWriteKey && a.clientMacKey == b.clientMacKey
    && a.serverWriteKey == b.serverWriteKey && a.serverMacKey == b.serverMacKey
  }

  /** With equal keys at both ends, each side opens what the other seals. */
  lemma EndsAgree(prims: Primitives, client: SessionCrypto, server: SessionCrypto, plaintext: bytes, noise: bytes)
    requires Lawful(prims) && |noise| == 12 && SameKeys(client, server)
    ensures DecryptIncomingServer(prims, server, EncryptOutgoing(prims, client, plaintext, noise).1)
         == Some((server.(recvCounter := Next(server.recvCounter)), plaintext))
    ensures DecryptIncoming(prims, client, EncryptOutgoingServer(prims, server, plaintext, noise).1)
         == Some((client.(recvCounter := Next(client.recvCounter)), plaintext))
  {
    var s := EncryptOutgoing(prims, client, plaintext, noise).1;
    AcceptsOnlyEncryptions(prims, client.clientWriteKey, client.clientMacKey, s.nonce, s.ciphertext, s.tag, plaintext);
    var t := EncryptOutgoingServer(prims, server, plaintext, noise).1;
    AcceptsOnlyEncryptions(prims, client.serverWriteKey, client.serverMacKey, t.nonce, t.ciphertext, t.tag, plaintext);
  }

  /** s is the plaintext sealed under the keys with this counter and random part. */
  ghost predicate SealedUnder(prims: Primitives, aesKey: bytes, macKey: bytes, counter: u32, noise: bytes, plaintext: bytes, s: Sealed)
    requires Lawful(prims)
  {
    && |s.nonce| == 16 && FromBytesBe(s.nonce[..4]) == counter && s.nonce[4..] == noise
    && |s.ciphertext| == |plaintext| && Xor(s.ciphertext, prims.keystream(aesKey, s.nonce, |plaintext|)) == plaintext
    && s.tag == prims.hmac(macKey, s.nonce + s.ciphertext)[..16]
  }

  /** Each end seals under its own two keys, with its send counter, and moves it by one modulo 2^32. */
  lemma EachSealsUnderItsKeys(prims: Primitives, c: SessionCrypto, plaintext: bytes, noise: bytes)
    requires Lawful(prims) && |noise| == 12
    ensures var (c', s) := EncryptOutgoing(prims, c, plaintext, noise);
      && SealedUnder(prims, c.clientWriteKey, c.clientMacKey, c.sendCounter, noise, plaintext, s)
      && c' == c.(sendCounter := if c.sendCounter == 0xffff_ffff then 0 else c.sendCounter + 1)
    ensures var (c', s) := EncryptOutgoingServer(prims, c, plaintext, noise);
      && SealedUnder(prims, c.serverWriteKey, c.serverMacKey, c.sendCounter, noise, plaintext, s)
      && c' == c.(sendCounter := if c.sendCounter == 0xffff_ffff then 0 else c.sendCounter + 1)
  {
    hide EncryptAndTag;
    NonceIs(c.sendCounter, noise);
    var nonce := GenerateNonce(c.sendCounter, noise);
    SealingIs(prims, c.clientWriteKey, c.clientMacKey, nonce, plaintext);
    SealingIs(prims, c.serverWriteKey, c.serverMacKey, nonce, plaintext);
  }

  // ---------- packets ----------

  const OVERHEAD := 8 + 16 + 16

  /** auth_key_id, nonce, ciphertext, tag. */
  function EncodePacket(authKeyId: i64, s: Sealed): bytes {
    EncodeI64(authKeyId) + s.nonce + s.ciphertext + s.tag
  }

  function PacketKeyId(raw: bytes): i64
    requires |raw| >= 8
  {
    DecodeI64(raw[..8])
  }

  function PacketBody(raw: bytes): Sealed
    requires |raw| >= OVERHEAD
  {
    Sealed(raw[8..24], raw[24..|raw| - 16], raw[|raw| - 16..])
  }

  lemma PacketRoundTrip(authKeyId: i64, s: Sealed)
    requires |s.nonce| == |s.tag| == 16
    ensures var raw := EncodePacket(authKeyId, s);
      && |raw| == 40 + |s.ciphertext| && PacketKeyId(raw) == authKeyId && PacketBody(raw) == s
      && raw[..8] == EncodeI64(authKeyId) && raw[8..24] == s.nonce
      && raw[24..|raw| - 16] == s.ciphertext && raw[|raw| - 16..] == s.tag
  {
    IntegersRoundTrip(0, authKeyId);
    var raw := EncodePacket(authKeyId, s);
    assert raw[..8] == EncodeI64(authKeyId);
    assert raw[8..24] == s.nonce && raw[24..|raw| - 16] == s.ciphertext && raw[|raw| - 16..] == s.tag;
  }

  /** The clear text of a packet: message id, sequence number, object. */
  datatype Header = Header(msgId: i64, seqNo: i32, body: bytes)

  function EncodeHeader(h: Header): bytes {
    EncodeI64(h.msgId) + EncodeI32(h.seqNo) + h.body
  }

  function DecodeHeader(plaintext: bytes): Option<Header> {
    if |plaintext| < 12 then None
    else Some(Header(DecodeI64(plaintext[..8]), DecodeI32(plaintext[8..12]), plaintext[12..]))
  }

  lemma HeaderRoundTrip(h: Header)
    ensures DecodeHeader(EncodeHeader(h)) == Some(h)
    ensures |EncodeHeader(h)| == 12 + |h.body| && EncodeHeader(h)[12..] == h.body
    ensures EncodeHeader(h)[..8] == EncodeI64(h.msgId) && EncodeHeader(h)[8..12] == EncodeI32(h.seqNo)
  {
    IntegersRoundTrip(h.seqNo, h.msgId);
    var p := EncodeHeader(h);
    assert p[..8] == EncodeI64(h.msgId) && p[8..12] == EncodeI32(h.seqNo) && p[12..] == h.body;
  }
}
