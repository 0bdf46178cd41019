/** The client session object over its transport (kosta/src/session.rs). */
module ClientSession {
  import opened Wrappers
  import opened Arithmetic
  import opened Bytes
  import opened TlTypes
  import opened TlIo
  import opened TlObjects
  import opened Crypto
  import opened MsgId
  import opened Abridged
  import opened ClientModel
  import opened DhChecks
  import opened Dh
  import opened Handshake
  import opened Padding
  import Handlers

  class Session {
    var authKeyId: Option<i64>
    var crypto: Option<SessionCrypto>
    var authKey: Option<bytes>
    var serverSalt: i64
    var lastMsgId: i64
    var recvLastMsgId: i64
    var seqNo: i32
    var recvSeqNo: i32
    var msgIdCounter: u32
    const transport: MockTransport

    function State(): ClientState
      reads this
    {
      ClientState(authKeyId, crypto, authKey, serverSalt, lastMsgId, recvLastMsgId, seqNo, recvSeqNo, msgIdCounter)
    }

    constructor FromMockTransport(transport: MockTransport)
      ensures State() == DISCONNECTED && this.transport == transport
    {
      authKeyId, crypto, authKey := None, None, None;
      serverSalt, lastMsgId, recvLastMsgId := 0, 0, 0;
      seqNo, recvSeqNo, msgIdCounter := -1, -1, 0;
      this.transport := transport;
    }

    /** The bytes to seal or send: with its numbers in front once the session is authenticated. */
    method WritePlain(o: TlObject, now: nat) returns (plain: bytes)
      modifies this`msgIdCounter, this`lastMsgId, this`seqNo
      ensures crypto.None? ==> plain == EncodeBoxed(o) && State() == old(State())
      ensures crypto.Some? ==>
        var h := NextHeader(old(State()), o, now);
        && plain == EncodeHeader(h)
        && State() == old(State()).(msgIdCounter := Next(old(msgIdCounter)), lastMsgId := h.msgId, seqNo := h.seqNo)
    {
      hide EncodeBoxed, EncodeI64, EncodeI32, MakeMsgId;
      var writer := new Writer();
      if crypto.Some? {
        var msgId := MakeMsgId(now, msgIdCounter);
        msgIdCounter := Next(msgIdCounter);
        lastMsgId := msgId;
        seqNo := Wrap32(seqNo + 1);
        writer.WriteAll(EncodeI64(msgId));
        writer.WriteAll(EncodeI32(seqNo));
      }
      WriteBoxed(o, writer);
      plain := writer.out;
    }

    /** Sends an object, sealed once the session is authenticated. */
    method SendTl(prims: Primitives, o: TlObject, now: nat, noise: bytes)
      requires Lawful(prims) && |noise| == 12
      requires PacketLength(State(), o) < TWO_24               // framing panics beyond
      modifies this, transport`writer
      ensures State() == ClientSend(prims, old(State()), o, now, noise).0
      ensures |ClientSend(prims, old(State()), o, now, noise).1| < TWO_24
      ensures transport.writer == old(transport.writer) + EncodeFrame(ClientSend(prims, old(State()), o, now, noise).1)
    {
      ClientPacketLength(prims, State(), o, now, noise);
      var plain := WritePlain(o, now);
      if crypto.Some? {
        var (crypto', sealed) := EncryptOutgoing(prims, crypto.value, plain, noise);
        crypto := Some(crypto');
        var keyId := if authKeyId.Some? then authKeyId.value else 0;
        PacketRoundTrip(keyId, sealed);
        transport.Send(EncodePacket(keyId, sealed));
      } else {
        transport.Send(plain);
      }
    }

    /** Receives an object, opening it when the session is authenticated. */
    method RecvTl(prims: Primitives, now: nat) returns (r: Result<TlObject, RecvError>)
      requires Lawful(prims)
      modifies this, transport`reader
      ensures match DecodeFrame(old(transport.reader))
        case Failed(e) => r == Err(Transport(e)) && State() == old(State()) && transport.reader == old(transport.reader)
        case Frame(raw, rest) => (State(), r) == ClientRecv(prims, old(State()), raw, now) && transport.reader == rest
    {
      hide DiffMs, DecodeHeader, DecodeBoxed, DecryptIncoming, DecodeFrame, Wrap32;
      var frame := transport.Recv();
      if frame.Err? { return Err(Transport(frame.error)); }
      var raw := frame.value;
      if crypto.None? {
        r := ParseFrom(raw);
        return;
      }
      if |raw| < OVERHEAD { return Err(MessageTooShort); }
      var keyId := if authKeyId.Some? then authKeyId.value else 0;
      if PacketKeyId(raw) != keyId { return Err(KeyIdMismatch); }
      var decrypted := DecryptIncoming(prims, crypto.value, PacketBody(raw));
      if decrypted.None? { return Err(MacMismatch); }
      crypto := Some(decrypted.value.0);
      var header := DecodeHeader(decrypted.value.1);
      if header.None? { return Err(MissingHeader); }
      var h := header.value;
      if h.msgId <= recvLastMsgId { return Err(MsgIdNotIncreasing); }
      recvLastMsgId := h.msgId;
      if h.seqNo != Wrap32(recvSeqNo + 1) { return Err(UnexpectedSeqNo); }
      recvSeqNo := h.seqNo;
      if DiffMs(h.msgId, now) > MAX_SKEW_MS { return Err(TimestampOutOfRange); }
      r := ParseFrom(h.body);
    }

    method ParseFrom(b: bytes) returns (r: Result<TlObject, RecvError>)
      ensures r == Parse(b)
    {
      var reader := new Reader(b);
      var o := ReadBoxed(reader);
      r := if o.Ok? then Ok(o.value) else Err(BadObject(o.error));
    }

    function Wire(): Link
      reads this, transport
    {
      Link(State(), transport.reader, transport.writer)
    }

    /** A request and its answer. */
    method ExchangeTl(prims: Primitives, o: TlObject, m: Moment) returns (r: Result<TlObject, AuthError>)
      requires Lawful(prims)
      modifies this, transport`reader, transport`writer
      ensures (Wire(), r) == Exchange(prims, old(Wire()), o, m)
    {
      hide EncodeBoxed, ClientRecv, DecodeFrame, ClientSend;
      if PacketLength(State(), o) >= TWO_24 { return Err(FramePanics); }
      SendTl(prims, o, m.sendAt, m.noise);
      var answer := RecvTl(prims, m.recvAt);
      r := if answer.Ok? then Ok(answer.value) else Err(NotReceived(answer.error));
    }

    /** The checks on the first answer, and the second request. */
    method CheckResPQ(prims: Primitives, expected: i64, ch: Choices, resp: TlObject)
        returns (r: Result<TlObject, AuthError>, ghost padding: bytes)
      requires Lawful(prims)
      ensures r.Ok? <==> OnResPQ(prims, expected, ch, resp).Ok?
      ensures r == OnResPQ(prims, expected, ch.(pqPadding := padding), resp)
      ensures r.Ok? ==> resp.ResPQ? && Pads(padding, EncodeBoxed(PqInner(ch, resp.serverNonce, resp.pq, resp.p, resp.q)))
    {
      hide EncodeBoxed, PassesMillerRabin, FromBytesBe;
      padding := [];
      if !resp.ResPQ? { return Err(Unexpected), padding; }
      if resp.nonce != ch.nonce { return Err(NonceMismatch), padding; }
      var p, q := FromBytesBe(resp.p), FromBytesBe(resp.q);
      if p * q != FromBytesBe(resp.pq) { return Err(WrongProduct), padding; }
      var pPasses := IsPrimeTest(p, ch.pDraws);
      if !pPasses { return Err(FactorsNotPrime), padding; }
      var qPasses := IsPrimeTest(q, ch.qDraws);
      if !qPasses { return Err(FactorsNotPrime), padding; }
      if expected !in resp.fingerprints { return Err(WrongFingerprint), padding; }
      var inner := PqInnerData(resp.pq, resp.p, resp.q, ch.nonce, resp.serverNonce, ch.newNonce);
      var data;
      data, padding := Handlers.SealObject(prims, TmpKey(prims, ch.nonce, resp.serverNonce), inner);
      r := Ok(ReqDHParams(ch.nonce, resp.serverNonce, resp.p, resp.q, resp.fingerprints[0], data));
    }

    /** The checks on the second answer, the secret, and the third request. */
    method CheckServerDh(prims: Primitives, ch: Choices, serverNonce: Int128, resp: TlObject)
        returns (r: Result<(nat, TlObject), AuthError>, ghost padding: bytes)
      requires Lawful(prims)
      ensures var expected := OnServerDh(prims, ch, serverNonce, resp);
        (r.Ok? <==> expected.Ok?) && (r.Ok? ==> r.value.0 == expected.value.0)
      ensures r == OnServerDh(prims, ch.(dhPadding := padding), serverNonce, resp)
    {
      hide EncodeBytes, PassesMillerRabin;
      padding := [];
      if !resp.ServerDHParamsOk? { return Err(Unexpected), padding; }
      if resp.nonce != ch.nonce || resp.serverNonce != serverNonce { return Err(NonceMismatch), padding; }
      var signed := new Writer();
      signed.WriteAll(resp.nonce);
      signed.WriteAll(resp.serverNonce);
      signed.WriteAll(EncodeBytes(resp.encryptedAnswer));
      assert signed.out == SignedData(resp.nonce, resp.serverNonce, resp.encryptedAnswer);
      if !prims.verify(signed.out, resp.signature) { return Err(BadSignature), padding; }
      var o := Handlers.DecryptObject(prims, TmpKey(prims, ch.newNonce, serverNonce), resp.encryptedAnswer);
      if o.Err? { return Err(BadInner(o.error)), padding; }
      if !o.value.ServerDHInnerData? { return Err(Unexpected), padding; }
      var inner := o.value;
      if inner.nonce != ch.nonce || inner.serverNonce != serverNonce { return Err(NonceMismatch), padding; }
      r, padding := AgreeOnSecret(prims, ch, serverNonce, FromBytesBe(inner.dhPrime), Unsigned32(inner.g), FromBytesBe(inner.gA));
    }

    method AgreeOnSecret(prims: Primitives, ch: Choices, serverNonce: Int128, prime: nat, g: nat, gA: nat)
        returns (r: Result<(nat, TlObject), AuthError>, ghost padding: bytes)
      requires Lawful(prims)
      ensures r.Ok? <==> GroupAccepted(ch, prime, g)
      ensures r.Ok? ==> r.value.0 == ComputeSharedSecret(gA, ch.privateKey % prime, prime)
      ensures r == Agree(prims, ch.(dhPadding := padding), serverNonce, prime, g, gA)
      ensures r.Ok? ==>
        prime > 0 && Pads(padding, EncodeBoxed(ClientInner(ch, serverNonce, ComputePublicKey(g, ch.privateKey % prime, prime))))
    {
      hide EncodeBoxed, PassesMillerRabin, Pow;
      padding := [];
      var valid := ValidateDhParams(prime, g, ch.primeDraws);
      if valid.Err? { return Err(BadGroup(valid.error)), padding; }
      if g <= 1 || g >= prime - 1 { return Err(BadGroup(GeneratorOutOfRange)), padding; }
      var b := ch.privateKey % prime;
      var gB := ComputePublicKey(g, b, prime);
      var secret := ComputeSharedSecret(gA, b, prime);
      var data;
      data, padding := Handlers.SealObject(prims, TmpKey(prims, ch.newNonce, serverNonce),
        ClientDHInnerData(ch.nonce, serverNonce, 0, ToBytesBe(gB)));
      r := Ok((secret, SetClientDHParams(ch.nonce, serverNonce, data)));
    }

    /** The last answer, and the keys. */
    method Finish(prims: Primitives, nonce: Int128, serverNonce: Int128, secret: nat, resp: TlObject) returns (r: Result<(), AuthError>)
      requires Lawful(prims)
      modifies this
      ensures r == OnDhGen(prims, nonce, serverNonce, secret, resp)
      ensures State() == if r.Ok? then Authenticated(prims, old(State()), nonce, serverNonce, secret) else old(State())
    {
      hide NewSessionCrypto;
      if !resp.DHGenOk? { return Err(Unexpected); }
      if resp.nonce != nonce || resp.serverNonce != serverNonce { return Err(NonceMismatch); }
      if prims.sha1(ToBytesLe(secret))[..16] != resp.newNonceHash1 { return Err(HashMismatch); }
      var key := AuthKeyFromSharedSecret(prims, secret, nonce, serverNonce);
      crypto := Some(NewSessionCrypto(prims, ToBytesLe(secret), nonce, serverNonce));
      authKey := Some(key[..]);
      authKeyId := Some(AuthKeyId(prims, secret));
      serverSalt := DecodeI64(serverNonce[..8]);
      recvLastMsgId := 0;
      r := Ok(());
    }

    /** The key exchange. The paddings of the choices are drawn on the way. */
    method Authenticate(prims: Primitives, expected: i64, choices: Choices, moments: (Moment, Moment, Moment))
        returns (r: Result<(), AuthError>, ghost ch: Choices)
      requires Lawful(prims)
      modifies this, transport`reader, transport`writer
      ensures ch == choices.(pqPadding := ch.pqPadding, dhPadding := ch.dhPadding)
      ensures (Wire(), r) == Handshake.Authenticate(prims, expected, ch, moments, old(Wire()))
    {
      hide Exchange, OnResPQ, OnServerDh, Authenticated;
      ch := choices;
      var resp1 := ExchangeTl(prims, ReqPq(choices.nonce), moments.0);
      if resp1.Err? { return Err(resp1.error), ch; }
      var req, pqPadding := CheckResPQ(prims, expected, choices, resp1.value);
      ch := choices.(pqPadding := pqPadding);
      if req.Err? { return Err(req.error), ch; }
      var resp2 := ExchangeTl(prims, req.value, moments.1);
      if resp2.Err? { return Err(resp2.error), ch; }
      var serverNonce := resp1.value.serverNonce;
      var agreed, dhPadding := CheckServerDh(prims, choices, serverNonce, resp2.value);
      ch := ch.(dhPadding := dhPadding);
      PaddingIrrelevant(prims, expected, choices, ch, serverNonce, resp1.value, resp2.value);
      if agreed.Err? { return Err(agreed.error), ch; }
      var resp3 := ExchangeTl(prims, agreed.value.1, moments.2);
      if resp3.Err? { return Err(resp3.error), ch; }
      ghost var link := Wire();
      r := Finish(prims, choices.nonce, serverNonce, agreed.value.0, resp3.value);
      assert Wire() == if r.Ok? then link.(client := Authenticated(prims, link.client, ch.nonce, serverNonce, agreed.value.0)) else link;
    }

    static lemma PaddingIrrelevant(prims: Primitives, expected: i64, choices: Choices, ch: Choices, serverNonce: Int128, resp1: TlObject, resp2: TlObject)
      requires Lawful(prims) && ch == choices.(pqPadding := ch.pqPadding, dhPadding := ch.dhPadding)
      ensures OnResPQ(prims, expected, ch, resp1) == OnResPQ(prims, expected, choices.(pqPadding := ch.pqPadding), resp1)
      ensures OnServerDh(prims, ch, serverNonce, resp2) == OnServerDh(prims, choices.(dhPadding := ch.dhPadding), serverNonce, resp2)
    {
      hide PassesMillerRabin, EncodeBoxed;
    }
  }
}
