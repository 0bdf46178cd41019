/** Framing is lossless for what the protocol itself sends: no packet it emits is 127 bytes long. */
module ProtocolFrames {
  import opened Wrappers
  import opened Bytes
  import opened TlTypes
  import opened TlObjects
  import opened TlLengths
  import opened Crypto
  import opened Abridged
  import opened ServerModel
  import opened ServerInvariant
  import opened ClientModel

  /** A payload survives framing whatever follows it. */
  ghost predicate SurvivesFraming(payload: bytes) {
    |payload| < TWO_24 && forall tail: bytes :: DecodeFrame(EncodeFrame(payload) + tail) == Frame(payload, tail)
  }

  lemma SurvivesIffFramable(payload: bytes)
    ensures SurvivesFraming(payload) <==> Framable(payload)
  {
    if |payload| < TWO_24 {
      forall tail: bytes { FrameRoundTrip(payload, tail); }
      if SurvivesFraming(payload) { assert DecodeFrame(EncodeFrame(payload) + []) == Frame(payload, []); }
    }
  }

  /** An object survives being sent exactly when its packet is not 127 bytes long and fits the frame size:
      sealed, the object itself must not be 75 bytes long; in the clear, not 127. */
  lemma SentSurvivesIff(prims: Primitives, c: ClientState, o: TlObject, now: nat, noise: Noise)
    requires Lawful(prims)
    ensures SurvivesFraming(ClientSend(prims, c, o, now, noise).1) <==>
      |EncodeBoxed(o)| != (if c.crypto.Some? then 75 else 127) && PacketLength(c, o) <= MAX_FRAME_SIZE
  {
    ClientPacketLength(prims, c, o, now, noise);
    SurvivesIffFramable(ClientSend(prims, c, o, now, noise).1);
  }

  /** What the two ends send: handshake objects as they build them, and objects of the application. In the
      clear that includes every request, sent before authentication or not, but no list of dialogs, which
      the server only ever sends sealed. */
  predicate ProtocolObject(o: TlObject, sealed: bool) {
    BuiltHandshake(o) || (!HasThreeStrings(o) && (sealed || !o.DialogList?))
  }

  lemma AvoidsMarker(o: TlObject, sealed: bool)
    requires ProtocolObject(o, sealed)
    ensures |EncodeBoxed(o)| + (if sealed then OVERHEAD + HEADER else 0) != 127
  {
    if BuiltHandshake(o) {
      HandshakeAvoidsMarker(o);
    } else if |EncodeBoxed(o)| == 75 {
      Only75(o);
    } else if |EncodeBoxed(o)| == 127 {
      Only127(o);
    }
  }

  /** Everything the client sends survives framing, up to the frame size. */
  lemma ClientFramesSurvive(prims: Primitives, c: ClientState, o: TlObject, now: nat, noise: Noise)
    requires Lawful(prims) && ProtocolObject(o, c.crypto.Some?)
    ensures var packet := ClientSend(prims, c, o, now, noise).1;
      SurvivesFraming(packet) <==> |packet| <= MAX_FRAME_SIZE
  {
    AvoidsMarker(o, c.crypto.Some?);
    ClientPacketLength(prims, c, o, now, noise);
    SurvivesIffFramable(ClientSend(prims, c, o, now, noise).1);
  }

  lemma AnswerLength(prims: Primitives, row: FullSession, s: Sent)
    requires Lawful(prims)
    ensures |PacketOf(prims, row, s)| == OVERHEAD + HEADER + |s.header.body|
  {
    HeaderRoundTrip(s.header);
    PacketRoundTrip(s.id, Seal(prims, row.serverWriteKey, row.serverMacKey, s.counter, EncodeHeader(s.header), s.noise));
  }

  /** And so does everything a pass of the server loop sends, on any frame. */
  lemma ServerFramesSurvive(prims: Primitives, capacity: nat, st: ServerState, raw: bytes, env: Env)
    requires Lawful(prims) && Inv(capacity, st) && NoCollision(st, env.handled)
    requires var out := Step(prims, capacity, st, raw, env).1;
      ReplyOf(env.handled).Some? ==> ProtocolObject(ReplyOf(env.handled).value, out.sent.Some?)
    ensures var out := Step(prims, capacity, st, raw, env).1;
      && (out.sent.Some? ==> (SurvivesFraming(out.sent.value.packet) <==> |out.sent.value.packet| <= MAX_FRAME_SIZE))
      && (out.sent.None? && out.plain.Some? ==> (SurvivesFraming(out.plain.value) <==> |out.plain.value| <= MAX_FRAME_SIZE))
  {
    var out := Step(prims, capacity, st, raw, env).1;
    PlainIsReply(prims, capacity, st, raw, env);
    if out.sent.Some? {
      var s, o := out.sent.value, ReplyOf(env.handled);
      StepSeals(prims, capacity, st, raw, env);
      AnswerLength(prims, st.table[s.id], s);
      AvoidsMarker(o.value, true);
      SurvivesIffFramable(s.packet);
    } else if out.plain.Some? {
      AvoidsMarker(ReplyOf(env.handled).value, false);
      SurvivesIffFramable(out.plain.value);
    }
  }

  lemma PlainIsReply(prims: Primitives, capacity: nat, st: ServerState, raw: bytes, env: Env)
    requires Lawful(prims)
    ensures var out := Step(prims, capacity, st, raw, env).1;
      out.plain.Some? ==> ReplyOf(env.handled).Some? && out.plain.value == EncodeBoxed(ReplyOf(env.handled).value)
  {
  }

  /** The sizes matter: an object of another size, sealed, is 127 bytes long and is not read back. */
  lemma OtherSizesDoNotSurvive(prims: Primitives, c: ClientState, nonce: Int128, now: nat, noise: Noise)
    requires Lawful(prims) && c.crypto.Some?
    ensures !SurvivesFraming(ClientSend(prims, c, ResPQ(nonce, nonce, Zeros(32), [], [], []), now, noise).1)
  {
    OtherSizesReach75(nonce);
    SentSurvivesIff(prims, c, ResPQ(nonce, nonce, Zeros(32), [], [], []), now, noise);
  }

  /** Nor is a list of dialogs of 127 bytes sent in the clear. */
  lemma ClearDialogsDoNotSurvive(prims: Primitives, c: ClientState, now: nat, noise: Noise)
    requires Lawful(prims) && c.crypto.None?
    ensures !SurvivesFraming(ClientSend(prims, c, ThreeDialogs(), now, noise).1)
  {
    hide EncodeBoxed;
    DialogsReach127();
    SentSurvivesIff(prims, c, ThreeDialogs(), now, noise);
  }
}
