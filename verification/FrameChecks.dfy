/** What a frame leads to, read off its bytes: which check turns it down, what is remembered, handed over and
    answered, and when a pass of the loop ends the connection (kosta-server/src/server.rs, handle_client;
    kosta/src/session.rs, recv_tl). */
module FrameChecks {
  import opened Wrappers
  import opened Bytes
  import opened TlTypes
  import opened TlObjects
  import opened Crypto
  import opened MsgId
  import opened ServerModel
  import opened ServerInvariant
  import opened ServerRuns
  import opened ClientModel
  import opened Refinement

  // ---------- a packet and its clear text ----------

  /** The last 16 bytes of a packet are those of the HMAC over nonce and ciphertext. */
  predicate Authentic(prims: Primitives, macKey: bytes, raw: bytes)
    requires Lawful(prims) && |raw| >= 40
  {
    raw[|raw| - 16..] == prims.hmac(macKey, raw[8..|raw| - 16])[..16]
  }

  function ClearText(prims: Primitives, aesKey: bytes, raw: bytes): (r: bytes)
    requires Lawful(prims) && |raw| >= 40
    ensures |r| == |raw| - 40
  {
    Xor(raw[24..|raw| - 16], prims.keystream(aesKey, raw[8..24], |raw| - 40))
  }

  lemma PacketOpens(prims: Primitives, aesKey: bytes, macKey: bytes, raw: bytes)
    requires Lawful(prims) && |raw| >= 40
    ensures var s := PacketBody(raw);
      DecryptAndVerify(prims, aesKey, macKey, s.nonce, s.ciphertext, s.tag)
        == if Authentic(prims, macKey, raw) then Some(ClearText(prims, aesKey, raw)) else None
  {
    var s := PacketBody(raw);
    assert s.nonce + s.ciphertext == raw[8..|raw| - 16];
    OpeningIs(prims, aesKey, macKey, s.nonce, s.ciphertext, s.tag);
  }

  lemma HeaderIs(p: bytes)
    ensures DecodeHeader(p) ==
      if |p| < 12 then None else Some(Header(DecodeI64(p[..8]), DecodeI32(p[8..12]), p[12..]))
  {
  }

  // ---------- the server's verdict ----------

  /** The checks in turn: the first one that fails names the verdict. */
  ghost predicate JudgedByBytes(prims: Primitives, row: FullSession, recent: seq<i64>, raw: bytes, now: nat, r: Receipt)
    requires Lawful(prims)
  {
    if |raw| < 40 then r == Dropped(TooShort)
    else if !Authentic(prims, row.clientMacKey, raw) then r == Dropped(NotAuthentic)
    else
      var p := ClearText(prims, row.clientWriteKey, raw);
      if |p| < 12 then r == Broken
      else
        var m, s := DecodeI64(p[..8]), DecodeI32(p[8..12]);
        && (r == Dropped(StaleMsgId) <==> m <= row.lastMsgId)
        && (r == Dropped(Replayed) <==> m > row.lastMsgId && m in recent)
        && (r == Dropped(WrongSeqNo) <==> m > row.lastMsgId && m !in recent && s != Wrap32(row.recvSeqNo + 1))
        && (r == Dropped(OutOfTime) <==>
              m > row.lastMsgId && m !in recent && s == Wrap32(row.recvSeqNo + 1) && DiffMs(m, now) > 30_000)
        && (r.Received? <==>
              m > row.lastMsgId && m !in recent && s == Wrap32(row.recvSeqNo + 1) && DiffMs(m, now) <= 30_000)
        && (r.Received? ==> r.header == Header(m, s, p[12..]))
  }

  lemma VerdictByBytes(prims: Primitives, st: ServerState, raw: bytes, id: i64, now: nat)
    requires Lawful(prims) && id in st.table
    ensures JudgedByBytes(prims, st.table[id], Recents(st, id), raw, now, VerdictOn(prims, st, raw, id, now))
  {
    hide DecryptAndVerify, DecodeHeader, DiffMs, Wrap32, Authentic, ClearText, PacketBody;
    var row := st.table[id];
    if |raw| >= 40 {
      PacketOpens(prims, row.clientWriteKey, row.clientMacKey, raw);
      HeaderIs(ClearText(prims, row.clientWriteKey, raw));
    }
  }

  lemma SameJudgement(prims: Primitives, row: FullSession, recent: seq<i64>, raw: bytes, now: nat, a: Receipt, b: Receipt)
    requires Lawful(prims) && JudgedByBytes(prims, row, recent, raw, now, a) && SameVerdict(b, a)
    ensures JudgedByBytes(prims, row, recent, raw, now, b)
  {
    hide Authentic, ClearText, DiffMs, Wrap32;
  }

  /** Every frame of a known session is judged by its bytes, the session's row and its recent ids. */
  lemma StepJudges(prims: Primitives, capacity: nat, st: ServerState, raw: bytes, env: Env, id: i64)
    requires Lawful(prims) && Inv(capacity, st) && Addresses(st, raw, id)
    ensures var out := Step(prims, capacity, st, raw, env).1;
      && out.receipt.Some? && out.receipt.value.0 == id
      && JudgedByBytes(prims, st.table[id], Recents(st, id), raw, env.nowCheck, out.receipt.value.1)
  {
    hide Step, Inv, VerdictOn, JudgedByBytes;
    StepVerdict(prims, capacity, st, raw, env);
    VerdictByBytes(prims, st, raw, id, env.nowCheck);
    var out := Step(prims, capacity, st, raw, env).1;
    assert Judged(out, id, VerdictOn(prims, st, raw, id, env.nowCheck));
    SameJudgement(prims, st.table[id], Recents(st, id), raw, env.nowCheck,
                  VerdictOn(prims, st, raw, id, env.nowCheck), out.receipt.value.1);
  }

  // ---------- what a pass shows and when it ends the connection ----------

  /** An authentic packet without room for a header. */
  predicate Headerless(prims: Primitives, st: ServerState, raw: bytes, id: i64)
    requires Lawful(prims)
  {
    && Addresses(st, raw, id) && 40 <= |raw| < 52 && Authentic(prims, st.table[id].clientMacKey, raw)
  }

  /** The handler's answer to a request. */
  predicate Answers(handled: Handled, answer: TlObject) {
    handled == Reply(answer) || (handled.Established? && handled.answer == answer)
  }

  /** What an accepted frame shows: its object is handed to the handler if it parses, the handler's answer is
      sent sealed, and the pass ends the connection exactly when the handler fails. */
  ghost predicate AcceptedShows(out: Output, id: i64, h: Header, handled: Handled) {
    && out.plain.None?
    && match DecodeBoxed(h.body)
       case Bad(_) => out.request.None? && out.sent.None? && !out.closed
       case Got(o, _) =>
         && out.request == Some(o) && (out.closed <==> handled.Failed?)
         && (out.sent.Some? <==> exists answer :: Answers(handled, answer))
         && (out.sent.Some? ==> out.sent.value.id == id)
         && (out.sent.Some? ==> forall answer :: Answers(handled, answer) ==> out.sent.value.header.body == EncodeBoxed(answer))
  }

  lemma AcceptedShown(prims: Primitives, capacity: nat, st: ServerState, id: i64, h: Header, crypto: SessionCrypto, env: Env)
    requires Lawful(prims)
    ensures AcceptedShows(StepAccepted(prims, capacity, st, id, h, crypto, env).1, id, h, env.handled)
  {
    hide EncodeBoxed, DecodeBoxed, ApplyHandled, Seal, EncodeHeader, TakeNumbers, StoreCrypto, MakeMsgId;
    match env.handled
    case Reply(o) => assert Answers(env.handled, o);
    case Established(_, o) => assert Answers(env.handled, o);
    case _ =>
  }

  /** What a frame of a known session shows: nothing if it is turned down, and then the connection ends only if
      it is an authentic packet of less than 12 clear bytes. */
  ghost predicate SessionShows(out: Output, id: i64, headerless: bool, handled: Handled) {
    if AcceptedBy(out, id).Some? then !headerless && AcceptedShows(out, id, AcceptedBy(out, id).value, handled)
    else out.request.None? && out.sent.None? && out.plain.None? && (out.closed <==> headerless)
  }

  lemma SessionShown(prims: Primitives, capacity: nat, st: ServerState, id: i64, raw: bytes, env: Env)
    requires Lawful(prims) && Inv(capacity, st) && id in st.table
    ensures var out := StepSession(prims, capacity, st, id, raw, env).1;
      && out.receipt.Some? && out.receipt.value.0 == id
      && SessionShows(out, id, out.receipt.value.1.Broken?, env.handled)
  {
    hide Examine, AcceptedShows, StepAccepted, ApplyHandled;
    GetKeeps(capacity, st, id);
    var (st1, c) := Get(capacity, st, id);
    var (st2, receipt) := Receive(prims, capacity, st1, c.value, raw, env.nowCheck);
    if receipt.Received? {
      AcceptedShown(prims, capacity, st2, id, receipt.header, receipt.crypto, env);
      AcceptedReceipt(prims, capacity, st2, id, receipt.header, receipt.crypto, env);
    }
  }

  lemma AcceptedReceipt(prims: Primitives, capacity: nat, st: ServerState, id: i64, h: Header, crypto: SessionCrypto, env: Env)
    requires Lawful(prims)
    ensures StepAccepted(prims, capacity, st, id, h, crypto, env).1.receipt == Some((id, Received(h, crypto)))
  {
    hide EncodeBoxed, DecodeBoxed, ApplyHandled, Respond;
  }

  lemma StepShows(prims: Primitives, capacity: nat, st: ServerState, raw: bytes, env: Env, id: i64)
    requires Lawful(prims) && Inv(capacity, st) && Addresses(st, raw, id)
    ensures SessionShows(Step(prims, capacity, st, raw, env).1, id, Headerless(prims, st, raw, id), env.handled)
  {
    hide StepSession, Inv, SessionShows, ClearText, Authentic, DiffMs, Wrap32;
    StepJudges(prims, capacity, st, raw, env, id);
    GetKeeps(capacity, st, id);
    var st1 := Get(capacity, st, id).0;
    SessionShown(prims, capacity, st1, id, raw, env);
    BrokenIff(prims, st, raw, id, env.nowCheck, Step(prims, capacity, st, raw, env).1.receipt.value.1);
  }

  lemma BrokenIff(prims: Primitives, st: ServerState, raw: bytes, id: i64, now: nat, r: Receipt)
    requires Lawful(prims) && Addresses(st, raw, id) && JudgedByBytes(prims, st.table[id], Recents(st, id), raw, now, r)
    ensures r.Broken? <==> Headerless(prims, st, raw, id)
  {
    hide Authentic, DiffMs, Wrap32, Xor;
  }

  /** A frame of no known session is taken as an object in the clear, and answered in the clear. */
  lemma PlainShows(prims: Primitives, capacity: nat, st: ServerState, raw: bytes, env: Env)
    requires Lawful(prims) && Inv(capacity, st) && (|raw| >= 8 ==> !Addresses(st, raw, PacketKeyId(raw)))
    ensures var out := Step(prims, capacity, st, raw, env).1;
      && out.receipt.None? && out.sent.None?
      && match DecodeBoxed(raw)
         case Bad(_) => out.request.None? && out.plain.None? && !out.closed
         case Got(o, _) =>
           && out.request == Some(o) && (out.closed <==> env.handled.Failed?)
           && (out.plain.Some? <==> exists answer :: Answers(env.handled, answer))
           && (forall answer :: Answers(env.handled, answer) ==> out.plain == Some(EncodeBoxed(answer)))
  {
    hide EncodeBoxed, DecodeBoxed, ApplyHandled, Inv, StepSession;
    if |raw| >= 8 && PacketKeyId(raw) != 0 { GetKeeps(capacity, st, PacketKeyId(raw)); }
    match env.handled
    case Reply(o) => assert Answers(env.handled, o);
    case Established(_, o) => assert Answers(env.handled, o);
    case _ =>
  }

  /** A pass ends the connection exactly on an authentic packet without room for a header, or when the handler
      fails on what was handed to it. No frame that is stale, replayed, out of sequence or out of time does. */
  lemma StepCloses(prims: Primitives, capacity: nat, st: ServerState, raw: bytes, env: Env)
    requires Lawful(prims) && Inv(capacity, st)
    ensures var out := Step(prims, capacity, st, raw, env).1;
      out.closed <==> (|raw| >= 8 && Headerless(prims, st, raw, PacketKeyId(raw))) || (out.request.Some? && env.handled.Failed?)
  {
    hide Step, Inv, Authentic, DecodeBoxed, EncodeBoxed;
    if |raw| >= 8 && Addresses(st, raw, PacketKeyId(raw)) {
      StepShows(prims, capacity, st, raw, env, PacketKeyId(raw));
    } else {
      PlainShows(prims, capacity, st, raw, env);
    }
  }

  /** What is remembered: the id of every packet that passes the order and replay checks, whatever comes of it
      later, and of no other. */
  lemma RemembersByBytes(prims: Primitives, st: ServerState, raw: bytes, id: i64, now: nat)
    requires Lawful(prims) && Addresses(st, raw, id)
    ensures var row := st.table[id];
      Remembered(prims, st, raw, id, now) ==
        if |raw| < 52 || !Authentic(prims, row.clientMacKey, raw) then None
        else
          var m := DecodeI64(ClearText(prims, row.clientWriteKey, raw)[..8]);
          if m > row.lastMsgId && m !in Recents(st, id) then Some(m) else None
  {
    hide DecryptAndVerify, DecodeHeader, DiffMs, Wrap32, Authentic, PacketBody, Xor;
    var row := st.table[id];
    if |raw| >= 40 {
      PacketOpens(prims, row.clientWriteKey, row.clientMacKey, raw);
      HeaderIs(ClearText(prims, row.clientWriteKey, raw));
    }
  }

  // ---------- connections ----------

  /** No pass on these frames, served from this state, ends the connection. */
  ghost predicate NoneCloses(prims: Primitives, capacity: nat, st: ServerState, arrivals: seq<Arrival>)
    requires Lawful(prims)
    decreases |arrivals|
  {
    arrivals == [] ||
    var raw, env := arrivals[0].raw, arrivals[0].env;
    && !(|raw| >= 8 && Headerless(prims, st, raw, PacketKeyId(raw)))
    && !(Step(prims, capacity, st, raw, env).1.request.Some? && env.handled.Failed?)
    && NoneCloses(prims, capacity, Step(prims, capacity, st, raw, env).0, arrivals[1..])
  }

  ghost predicate AllUnused(prims: Primitives, capacity: nat, st: ServerState, arrivals: seq<Arrival>)
    requires Lawful(prims)
    decreases |arrivals|
  {
    arrivals == [] ||
    (NoCollision(st, arrivals[0].env.handled)
     && AllUnused(prims, capacity, Step(prims, capacity, st, arrivals[0].raw, arrivals[0].env).0, arrivals[1..]))
  }

  /** A connection is served to its end exactly when no frame before the last one is an authentic packet without
      a header and no handler fails on one; whatever else arrives, the frames behind it are served. */
  lemma {:induction false} ServedToTheEndIff(prims: Primitives, capacity: nat, st: ServerState, arrivals: seq<Arrival>)
    requires Lawful(prims) && Inv(capacity, st) && AllUnused(prims, capacity, st, arrivals) && arrivals != []
    ensures |Serve(prims, capacity, st, arrivals).1| == |arrivals|
       <==> NoneCloses(prims, capacity, st, arrivals[..|arrivals| - 1])
    decreases |arrivals|
  {
    hide Step, Inv, NoCollision, Headerless;
    var raw, env := arrivals[0].raw, arrivals[0].env;
    StepCloses(prims, capacity, st, raw, env);
    var (st', out) := Step(prims, capacity, st, raw, env);
    if |arrivals| > 1 {
      assert arrivals[..|arrivals| - 1][1..] == arrivals[1..][..|arrivals| - 2];
      assert arrivals[..|arrivals| - 1][0] == arrivals[0];
      StepKeeps(prims, capacity, st, raw, env);
      ServeCounts(prims, capacity, st, arrivals);
      if !out.closed { ServedToTheEndIff(prims, capacity, st', arrivals[1..]); }
    }
  }

  lemma ServeCounts(prims: Primitives, capacity: nat, st: ServerState, arrivals: seq<Arrival>)
    requires Lawful(prims) && arrivals != []
    ensures var (st', out) := Step(prims, capacity, st, arrivals[0].raw, arrivals[0].env);
      |Serve(prims, capacity, st, arrivals).1| == 1 + if out.closed then 0 else |Serve(prims, capacity, st', arrivals[1..]).1|
  {
    hide Step;
  }

  // ---------- the client's verdict ----------

  /** What the client makes of a packet: the first check that fails names the error, and the state has moved as
      far as the checks passed. */
  lemma ClientJudges(prims: Primitives, c: ClientState, raw: bytes, now: nat)
    requires Lawful(prims) && c.crypto.Some?
    ensures var keys := c.crypto.value;
      var (c', r) := ClientRecv(prims, c, raw, now);
      if |raw| < 40 then (c', r) == (c, Err(MessageTooShort))
      else if DecodeI64(raw[..8]) != (if c.authKeyId.Some? then c.authKeyId.value else 0) then (c', r) == (c, Err(KeyIdMismatch))
      else if !Authentic(prims, keys.serverMacKey, raw) then (c', r) == (c, Err(MacMismatch))
      else
        var p := ClearText(prims, keys.serverWriteKey, raw);
        var counted := c.(crypto := Some(keys.(recvCounter := if keys.recvCounter == 0xffff_ffff then 0 else keys.recvCounter + 1)));
        if |p| < 12 then (c', r) == (counted, Err(MissingHeader))
        else
          var m, s := DecodeI64(p[..8]), DecodeI32(p[8..12]);
          if m <= c.recvLastMsgId then (c', r) == (counted, Err(MsgIdNotIncreasing))
          else if s != Wrap32(c.recvSeqNo + 1) then (c', r) == (counted.(recvLastMsgId := m), Err(UnexpectedSeqNo))
          else
            c' == counted.(recvLastMsgId := m, recvSeqNo := s)
            && r == if DiffMs(m, now) > 30_000 then Err(TimestampOutOfRange)
                    else match DecodeBoxed(p[12..]) case Got(o, _) => Ok(o) case Bad(e) => Err(BadObject(e))
  {
    hide DecryptAndVerify, DecodeHeader, DiffMs, Wrap32, Authentic, ClearText, PacketBody, DecodeBoxed;
    if |raw| >= 40 {
      PacketOpens(prims, c.crypto.value.serverWriteKey, c.crypto.value.serverMacKey, raw);
      HeaderIs(ClearText(prims, c.crypto.value.serverWriteKey, raw));
    }
  }
}
