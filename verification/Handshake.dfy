/** The key exchange as functions of the messages received (kosta/src/session.rs, authenticate;
    kosta-server/src/handlers.rs). Everything random is a parameter. */
module Handshake {
  import opened Wrappers
  import opened Sequences
  import opened Arithmetic
  import opened Bytes
  import opened TlTypes
  import opened TlObjects
  import opened Crypto
  import opened NumberTheory
  import opened DhChecks
  import opened Dh
  import opened ServerModel
  import opened Abridged
  import opened ClientModel

  // ---------- derived values ----------

  type Draws = s: seq<nat> | |s| == ROUNDS witness seq(ROUNDS, _ => 0)

  /** The temporary key and nonce of two public or secret nonces, in this order. */
  function TmpKey(prims: Primitives, first: bytes, second: bytes): (bytes, bytes)
    requires Lawful(prims)
  {
    (prims.sha256(first + second), prims.sha256(second + first)[..12])
  }

  function EncryptInner(prims: Primitives, key: (bytes, bytes), data: bytes): bytes { prims.gcmSeal(key.0, key.1, data) }

  function DecryptInner(prims: Primitives, key: (bytes, bytes), data: bytes): Option<bytes> { prims.gcmOpen(key.0, key.1, data) }

  /** Bytes 12 to 20 of a hash, as an integer. */
  function Fingerprint(prims: Primitives, data: bytes): i64
    requires Lawful(prims)
  {
    DecodeI64(prims.sha1(data)[12..20])
  }

  function AuthKeyId(prims: Primitives, secret: nat): i64
    requires Lawful(prims)
  {
    Fingerprint(prims, ToBytesLe(secret))
  }

  function SecretHash(prims: Primitives, secret: nat): Int128
    requires Lawful(prims)
  {
    prims.sha1(ToBytesLe(secret))[..16]
  }

  /** The i-th 32-byte block of an authorisation key: each hashes the one before with the secret. */
  function KeyBlock(prims: Primitives, secret: bytes, nonces: bytes, i: nat): (r: bytes)
    requires Lawful(prims)
    ensures |r| == 32
  {
    if i == 0 then prims.sha256(secret + nonces)
    else prims.sha256(KeyBlock(prims, secret, nonces, i - 1) + secret)
  }

  function KeyBlocks(prims: Primitives, secret: bytes, nonces: bytes, n: nat): (r: bytes)
    requires Lawful(prims)
    ensures |r| == 32 * n
  {
    if n == 0 then [] else KeyBlocks(prims, secret, nonces, n - 1) + KeyBlock(prims, secret, nonces, n - 1)
  }

  function AuthKeyOf(prims: Primitives, secret: nat, nonce: Int128, serverNonce: Int128): (r: bytes)
    requires Lawful(prims)
    ensures |r| == 256
  {
    KeyBlocks(prims, ToBytesLe(secret), nonce + serverNonce, 8)
  }

  /** Copies a block into its place and leaves everything before it alone. */
  method CopyBlock(key: array<byte>, i: nat, block: bytes)
    requires |block| == 32 && 32 * (i + 1) <= key.Length
    modifies key
    ensures key[..32 * (i + 1)] == old(key[..32 * i]) + block
  {
    forall j | 0 <= j < 32 { key[32 * i + j] := block[j]; }
    assert key[..32 * i] == old(key[..32 * i]) && key[32 * i..32 * (i + 1)] == block;
    assert key[..32 * (i + 1)] == key[..32 * i] + key[32 * i..32 * (i + 1)];
  }

  /** The key is built in place, block by block. */
  method AuthKeyFromSharedSecret(prims: Primitives, secret: nat, nonce: Int128, serverNonce: Int128) returns (key: array<byte>)
    requires Lawful(prims)
    ensures fresh(key) && key[..] == AuthKeyOf(prims, secret, nonce, serverNonce)
  {
    hide ToBytesLe;
    var secretBytes := ToBytesLe(secret);
    key := new byte[256](_ => 0);
    var hash := prims.sha256(secretBytes + nonce + serverNonce);
    Reassociate(secretBytes, nonce, serverNonce);
    CopyBlock(key, 0, hash);
    assert key[..32] == KeyBlocks(prims, secretBytes, nonce + serverNonce, 1);
    for i := 1 to 8
      invariant key[..32 * i] == KeyBlocks(prims, secretBytes, nonce + serverNonce, i)
    {
      LastBlock(prims, secretBytes, nonce + serverNonce, i);
      assert key[32 * (i - 1)..32 * i] == key[..32 * i][32 * (i - 1)..];
      CopyBlock(key, i, prims.sha256(key[32 * (i - 1)..32 * i] + secretBytes));
    }
    assert key[..] == key[..32 * 8];
  }

  lemma LastBlock(prims: Primitives, secret: bytes, nonces: bytes, n: nat)
    requires Lawful(prims) && n > 0
    ensures KeyBlocks(prims, secret, nonces, n)[32 * (n - 1)..] == KeyBlock(prims, secret, nonces, n - 1)
  {
  }

  // ---------- the server ----------

  const G := 2
  const TIMEOUT_NS := 60_000_000_000

  /** What the server remembers between the second and the third request. */
  datatype Pending = Pending(newNonce: Int256, a: bytes, since: nat)

  type Store = map<bytes, Pending>

  /** Entries less than a minute old. */
  function Cleaned(store: Store, now: nat): Store {
    map k | k in store && now - store[k].since < TIMEOUT_NS :: store[k]
  }

  datatype HandlerError =
    | NotDecrypted
    | Unparsed(error: TlError)
    | WrongInner
    | WrongNonces
    | NoHandshake
    | BadPublicValue(parameter: ParameterError)

  function ResPQOf(nonce: Int128, serverNonce: Int128, p: nat, q: nat, fingerprint: i64): TlObject {
    ResPQ(nonce, serverNonce, ToBytesBe(p * q), ToBytesBe(p), ToBytesBe(q), [fingerprint])
  }

  function ServerInner(nonce: Int128, serverNonce: Int128, prime: nat, a: nat): TlObject
    requires prime > 0
  {
    ServerDHInnerData(nonce, serverNonce, G, ToBytesBe(prime), ToBytesBe(ComputePublicKey(G, a, prime)), 0)
  }

  /** What the server signs: both nonces and the encrypted answer, as on the wire. */
  function SignedData(nonce: Int128, serverNonce: Int128, encryptedAnswer: bytes): bytes {
    nonce + serverNonce + EncodeBytes(encryptedAnswer)
  }

  /** The inner data of a request, opened and parsed. */
  function OpenInner(prims: Primitives, key: (bytes, bytes), data: bytes): Result<TlObject, HandlerError> {
    var decrypted := DecryptInner(prims, key, data);
    if decrypted.None? then Err(NotDecrypted)
    else
      match DecodeBoxed(decrypted.value)
      case Bad(e) => Err(Unparsed(e))
      case Got(o, _) => Ok(o)
  }

  /** The second request: the server draws its exponent, remembers it, and answers. */
  function AnswerReqDh(prims: Primitives, prime: nat, store: Store, req: TlObject, privateKey: nat, now: nat, padding: bytes)
      : Result<(Store, TlObject), HandlerError>
    requires Lawful(prims) && prime > 0 && req.ReqDHParams?
  {
    var contents := OpenInner(prims, TmpKey(prims, req.nonce, req.serverNonce), req.encryptedData);
    if contents.Err? then Err(contents.error)
    else if !contents.value.PqInnerData? then Err(WrongInner)
    else
      var inner := contents.value;
      if inner.nonce != req.nonce || inner.serverNonce != req.serverNonce then Err(WrongNonces)
      else
        var a := privateKey % prime;
        var store' := store[req.nonce + req.serverNonce := Pending(inner.newNonce, ToBytesBe(a), now)];
        var answer := EncryptInner(prims, TmpKey(prims, inner.newNonce, req.serverNonce),
          EncodeBoxed(ServerInner(req.nonce, req.serverNonce, prime, a)) + padding);
        Ok((store', ServerDHParamsOk(req.nonce, req.serverNonce, answer,
          prims.sign(SignedData(req.nonce, req.serverNonce, answer)))))
  }

  function NewSession(prims: Primitives, nonce: Int128, serverNonce: Int128, newNonce: Int256, secret: nat): SessionData
    requires Lawful(prims)
  {
    SessionData(AuthKeyOf(prims, secret, nonce, serverNonce), AuthKeyId(prims, secret), 0, 0, nonce, serverNonce, newNonce,
      NewSessionCrypto(prims, ToBytesLe(secret), nonce, serverNonce), -1, 0, 0, 0, -1, 0)
  }

  /** The secret, the session and the last answer, from the remembered exponent and the third request. */
  function FinishedSession(prims: Primitives, prime: nat, pending: Pending, req: TlObject): Result<(SessionData, TlObject), HandlerError>
    requires Lawful(prims) && prime > 0 && req.SetClientDHParams?
  {
    var contents := OpenInner(prims, TmpKey(prims, pending.newNonce, req.serverNonce), req.encryptedData);
    if contents.Err? then Err(contents.error)
    else if !contents.value.ClientDHInnerData? then Err(WrongInner)
    else
      var inner := contents.value;
      if inner.nonce != req.nonce || inner.serverNonce != req.serverNonce then Err(WrongNonces)
      else
        var gB := FromBytesBe(inner.gB);
        var checked := ValidatePublicValue(gB, prime);
        if checked.Err? then Err(BadPublicValue(checked.error))
        else
          var secret := ComputeSharedSecret(gB, FromBytesBe(pending.a), prime);
          Ok((NewSession(prims, req.nonce, req.serverNonce, pending.newNonce, secret),
              DHGenOk(req.nonce, req.serverNonce, SecretHash(prims, secret))))
  }

  /** The third request: only a recent exchange is finished, and then it is forgotten. */
  function AnswerSetClientDh(prims: Primitives, prime: nat, store: Store, req: TlObject, now: nat)
      : (Store, Result<(SessionData, TlObject), HandlerError>)
    requires Lawful(prims) && prime > 0 && req.SetClientDHParams?
  {
    var kept, key := Cleaned(store, now), req.nonce + req.serverNonce;
    if key !in kept then (kept, Err(NoHandshake))
    else
      var finished := FinishedSession(prims, prime, kept[key], req);
      (if finished.Ok? then kept - {key} else kept, finished)
  }

  // ---------- the client ----------

  /** The client's random choices: nonces, paddings, exponent, and the bases of its primality tests. */
  datatype Choices = Choices(
    nonce: Int128, newNonce: Int256, pqPadding: bytes, dhPadding: bytes, privateKey: nat,
    pDraws: Draws, qDraws: Draws, primeDraws: Draws)

  datatype AuthError =
    | NotReceived(error: RecvError)
    | FramePanics
    | Unexpected
    | NonceMismatch
    | WrongProduct
    | FactorsNotPrime
    | WrongFingerprint
    | BadSignature
    | BadInner(inner: HandlerError)
    | BadGroup(parameter: ParameterError)
    | HashMismatch

  function PqInner(ch: Choices, serverNonce: Int128, pq: bytes, p: bytes, q: bytes): TlObject {
    PqInnerData(pq, p, q, ch.nonce, serverNonce, ch.newNonce)
  }

  function ClientInner(ch: Choices, serverNonce: Int128, gB: nat): TlObject {
    ClientDHInnerData(ch.nonce, serverNonce, 0, ToBytesBe(gB))
  }

  /** The first answer, and the request it leads to. */
  ghost function OnResPQ(prims: Primitives, expected: i64, ch: Choices, resp: TlObject): Result<TlObject, AuthError>
    requires Lawful(prims)
  {
    if !resp.ResPQ? then Err(Unexpected)
    else if resp.nonce != ch.nonce then Err(NonceMismatch)
    else
      var p, q := FromBytesBe(resp.p), FromBytesBe(resp.q);
      if p * q != FromBytesBe(resp.pq) then Err(WrongProduct)
      else if !PassesMillerRabin(p, ch.pDraws) || !PassesMillerRabin(q, ch.qDraws) then Err(FactorsNotPrime)
      else if expected !in resp.fingerprints then Err(WrongFingerprint)
      else
        var data := EncryptInner(prims, TmpKey(prims, ch.nonce, resp.serverNonce),
          EncodeBoxed(PqInner(ch, resp.serverNonce, resp.pq, resp.p, resp.q)) + ch.pqPadding);
        Ok(ReqDHParams(ch.nonce, resp.serverNonce, resp.p, resp.q, resp.fingerprints[0], data))
  }

  ghost predicate GroupAccepted(ch: Choices, prime: nat, g: nat) {
    PassesMillerRabin(prime, ch.primeDraws) && Pow(2, 2047) <= prime && 1 < g < prime - 1
  }

  /** The second answer: the secret, and the request it leads to. */
  ghost function OnServerDh(prims: Primitives, ch: Choices, serverNonce: Int128, resp: TlObject): Result<(nat, TlObject), AuthError>
    requires Lawful(prims)
  {
    if !resp.ServerDHParamsOk? then Err(Unexpected)
    else if resp.nonce != ch.nonce || resp.serverNonce != serverNonce then Err(NonceMismatch)
    else if !prims.verify(SignedData(resp.nonce, resp.serverNonce, resp.encryptedAnswer), resp.signature) then Err(BadSignature)
    else
      var contents := OpenInner(prims, TmpKey(prims, ch.newNonce, serverNonce), resp.encryptedAnswer);
      if contents.Err? then Err(BadInner(contents.error))
      else if !contents.value.ServerDHInnerData? then Err(Unexpected)
      else
        var inner := contents.value;
        if inner.nonce != ch.nonce || inner.serverNonce != serverNonce then Err(NonceMismatch)
        else Agree(prims, ch, serverNonce, FromBytesBe(inner.dhPrime), Unsigned32(inner.g), FromBytesBe(inner.gA))
  }

  /** The group is checked, the client's half is drawn. */
  ghost function Agree(prims: Primitives, ch: Choices, serverNonce: Int128, prime: nat, g: nat, gA: nat): Result<(nat, TlObject), AuthError>
    requires Lawful(prims)
  {
    if !GroupAccepted(ch, prime, g) then Err(BadGroup(GroupError(prime, ch.primeDraws)))
    else
      var b := ch.privateKey % prime;
      var data := EncryptInner(prims, TmpKey(prims, ch.newNonce, serverNonce),
        EncodeBoxed(ClientInner(ch, serverNonce, ComputePublicKey(g, b, prime))) + ch.dhPadding);
      Ok((ComputeSharedSecret(gA, b, prime), SetClientDHParams(ch.nonce, serverNonce, data)))
  }

  /** The last answer proves that the server has the same secret. */
  function OnDhGen(prims: Primitives, nonce: Int128, serverNonce: Int128, secret: nat, resp: TlObject): Result<(), AuthError>
    requires Lawful(prims)
  {
    if !resp.DHGenOk? then Err(Unexpected)
    else if resp.nonce != nonce || resp.serverNonce != serverNonce then Err(NonceMismatch)
    else if resp.newNonceHash1 != SecretHash(prims, secret) then Err(HashMismatch)
    else Ok(())
  }

  /** The client once authenticated. */
  function Authenticated(prims: Primitives, c: ClientState, nonce: Int128, serverNonce: Int128, secret: nat): ClientState
    requires Lawful(prims)
  {
    c.(authKeyId := Some(AuthKeyId(prims, secret)),
       crypto := Some(NewSessionCrypto(prims, ToBytesLe(secret), nonce, serverNonce)),
       authKey := Some(AuthKeyOf(prims, secret, nonce, serverNonce)),
       serverSalt := DecodeI64(serverNonce[..8]), recvLastMsgId := 0)
  }

  // ---------- the client over its transport ----------

  /** The clock readings and the nonce part of one request and its answer. */
  datatype Moment = Moment(sendAt: nat, noise: Noise, recvAt: nat)

  /** The client's state, everything that has arrived or will arrive, and what has been sent. */
  datatype Link = Link(client: ClientState, incoming: bytes, outgoing: bytes)

  function Framed(payload: bytes): bytes { if |payload| < TWO_24 then EncodeFrame(payload) else [] }

  /** One request and its answer. A request that framing cannot carry panics. */
  function Exchange(prims: Primitives, link: Link, o: TlObject, m: Moment): (Link, Result<TlObject, AuthError>)
    requires Lawful(prims)
  {
    if PacketLength(link.client, o) >= TWO_24 then (link, Err(FramePanics))
    else
      var (client, packet) := ClientSend(prims, link.client, o, m.sendAt, m.noise);
      var outgoing := link.outgoing + Framed(packet);
      match DecodeFrame(link.incoming)
      case Failed(e) => (Link(client, link.incoming, outgoing), Err(NotReceived(Transport(e))))
      case Frame(raw, rest) =>
        var (client', r) := ClientRecv(prims, client, raw, m.recvAt);
        (Link(client', rest, outgoing), if r.Ok? then Ok(r.value) else Err(NotReceived(r.error)))
  }

  /** authenticate: three requests and their answers. */
  ghost function Authenticate(prims: Primitives, expected: i64, ch: Choices, moments: (Moment, Moment, Moment), link: Link)
      : (Link, Result<(), AuthError>)
    requires Lawful(prims)
  {
    var (link1, resp1) := Exchange(prims, link, ReqPq(ch.nonce), moments.0);
    if resp1.Err? then (link1, Err(resp1.error))
    else
      var req := OnResPQ(prims, expected, ch, resp1.value);
      if req.Err? then (link1, Err(req.error))
      else AuthenticateDh(prims, ch, resp1.value.serverNonce, req.value, moments, link1)
  }

  ghost function AuthenticateDh(prims: Primitives, ch: Choices, serverNonce: Int128, req: TlObject, moments: (Moment, Moment, Moment), link: Link)
      : (Link, Result<(), AuthError>)
    requires Lawful(prims)
  {
    var (link2, resp2) := Exchange(prims, link, req, moments.1);
    if resp2.Err? then (link2, Err(resp2.error))
    else
      var agreed := OnServerDh(prims, ch, serverNonce, resp2.value);
      if agreed.Err? then (link2, Err(agreed.error))
      else AuthenticateEnd(prims, ch, serverNonce, agreed.value.0, agreed.value.1, moments, link2)
  }

  function AuthenticateEnd(prims: Primitives, ch: Choices, serverNonce: Int128, secret: nat, req: TlObject, moments: (Moment, Moment, Moment), link: Link)
      : (Link, Result<(), AuthError>)
    requires Lawful(prims)
  {
    var (link3, resp3) := Exchange(prims, link, req, moments.2);
    if resp3.Err? then (link3, Err(resp3.error))
    else
      var done := OnDhGen(prims, ch.nonce, serverNonce, secret, resp3.value);
      if done.Err? then (link3, Err(done.error))
      else (link3.(client := Authenticated(prims, link3.client, ch.nonce, serverNonce, secret)), Ok(()))
  }
}
