/** The client loop of the server (kosta-server/src/server.rs, handle_client), statement by statement over
    the cache and the table, proved against the functions of ServerModel. */
module Server {
  import opened Wrappers
  import opened Bytes
  import opened TlTypes
  import opened TlIo
  import opened TlObjects
  import opened Crypto
  import opened MsgId
  import opened ServerModel
  import opened ServerRuns
  import opened SessionCache

  /** Pushing onto the shared set of the front entry is seen through the cache. */
  method Remember(cache: Cache, id: i64, session: Session, msgId: i64)
    requires cache.Valid() && cache.entries != [] && cache.entries[0] == Entry(id, session)
    modifies session.recent
    ensures cache.Valid() && cache.Shared() == old(cache.Shared())
    ensures cache.View() == PushRecent(old(cache.View()), id, msgId)
    ensures session.recent.ids == Pushed(old(session.recent.ids), msgId)
  {
    ghost var entries := cache.entries;
    forall i | 0 <= i < |entries| { ViewAt(entries, i); }
    ghost var before := ViewOf(entries);
    session.recent.Put(msgId);
    forall i | 0 <= i < |entries| ensures ViewOf(entries)[i] == PushRecentIn(before, id, msgId)[i] {
      ViewAt(entries, i);
      assert i > 0 ==> Apart(entries[0], entries[i]);
    }
    assert ViewOf(entries) == PushRecentIn(before, id, msgId);
  }

  /** From decryption to the update of the session. */
  method ReceiveFrame(prims: Primitives, cache: Cache, id: i64, session: Session, raw: bytes, now: nat)
      returns (receipt: Receipt)
    requires Lawful(prims) && cache.Valid() && cache.entries != [] && cache.entries[0] == Entry(id, session)
    modifies cache`entries, cache.db, session.recent
    ensures cache.Valid() && cache.Shared() <= old(cache.Shared())
    ensures (cache.View(), receipt) ==
      Receive(prims, cache.capacity, old(cache.View()), Cached(id, session.data, old(session.recent.ids)), raw, now)
  {
    if |raw| < OVERHEAD { return Dropped(TooShort); }
    var sessionData := session.data;
    var decrypted := DecryptIncomingServer(prims, sessionData.crypto, PacketBody(raw));
    if decrypted.None? { return Dropped(NotAuthentic); }
    var (crypto, plaintext) := decrypted.value;
    var header := DecodeHeader(plaintext);
    if header.None? { return Broken; }
    var h := header.value;
    if h.msgId <= sessionData.lastRecvMsgId { return Dropped(StaleMsgId); }
    if h.msgId in session.recent.ids { return Dropped(Replayed); }
    Remember(cache, id, session, h.msgId);
    var expectedSeq := Wrap32(sessionData.recvSeqNo + 1);
    if h.seqNo != expectedSeq { return Dropped(WrongSeqNo); }
    if DiffMs(h.msgId, now) > MAX_SKEW_MS { return Dropped(OutOfTime); }
    AcceptFrame(cache, id, session, h, crypto);
    return Received(h, crypto);
  }

  /** The updates of an accepted frame: two columns at a time, then the whole session. */
  method AcceptFrame(cache: Cache, id: i64, session: Session, h: Header, crypto: SessionCrypto)
    requires cache.Valid() && cache.entries != [] && cache.entries[0] == Entry(id, session)
    modifies cache`entries, cache.db
    ensures cache.Valid() && cache.Shared() <= old(cache.Shared())
    ensures cache.View() ==
      Update(cache.capacity, old(cache.View()), id, AfterAccept(session.data, h, crypto), session.recent.ids)
  {
    var sessionData := session.data.(crypto := crypto, recvSeqNo := h.seqNo, lastRecvMsgId := h.msgId);
    cache.db.UpdateRecvSeqAndLastMsg(id, h.seqNo, h.msgId);
    cache.db.UpdateCounters(id, crypto.sendCounter, crypto.recvCounter);
    OnlyEntryShares(cache.entries, session.recent);
    assert session.recent in cache.Shared() by { assert cache.entries[0] in cache.entries; }
    cache.UpdateSession(id, Session(sessionData, session.recent));
    assert cache.View().table == old(cache.View()).table[id := RowOf(id, sessionData)];
  }

  lemma OnlyEntryShares(entries: seq<Entry>, recent: RecentIds)
    requires Separate(entries) && entries != [] && entries[0].session.recent == recent
    ensures forall e :: e in entries && e.session.recent == recent ==> e.id == entries[0].id
  {
    forall e | e in entries && e.session.recent == recent ensures e.id == entries[0].id {
      var i :| 0 <= i < |entries| && entries[i] == e;
      assert i > 0 ==> Apart(entries[0], entries[i]);
    }
  }

  method RecordUser(cache: Cache, id: i64, userId: i64)
    requires cache.Valid()
    modifies cache`entries, cache.db
    ensures cache.Valid() && fresh(cache.Shared() - old(cache.Shared()))
    ensures cache.View() == ApplyHandled(cache.capacity, old(cache.View()), Some(id), SignedUp(userId))
  {
    cache.db.UpdateUserId(id, userId);
    var session := cache.GetSession(id);
    if session.Some? {
      OnlyEntryShares(cache.entries, session.value.recent);
      cache.UpdateSession(id, session.value.(data := session.value.data.(userId := userId)));
    }
  }

  /** The sign-up handler and the end of a handshake, as far as sessions go. */
  method HandleSession(cache: Cache, key: Option<i64>, handled: Handled)
    requires cache.Valid()
    modifies cache`entries, cache.db
    ensures cache.Valid() && fresh(cache.Shared() - old(cache.Shared()))
    ensures cache.View() == ApplyHandled(cache.capacity, old(cache.View()), key, handled)
  {
    match handled {
      case SignedUp(userId) =>
        if key.Some? { RecordUser(cache, key.value, userId); }
      case Established(data, _) =>
        cache.db.SaveSessionFull(RowOf(data.authKeyId, data));
        var recent := new RecentIds();
        cache.UpdateSession(data.authKeyId, Session(data, recent));
        assert cache.View().table == old(cache.View()).table[data.authKeyId := RowOf(data.authKeyId, data)];
      case _ =>
    }
  }

  /** Numbering, sealing and recording an answer. */
  method Answer(prims: Primitives, cache: Cache, id: i64, crypto: SessionCrypto, data: bytes, now: nat, noise: Noise)
      returns (sent: Sent)
    requires Lawful(prims) && cache.Valid()
    modifies cache`entries, cache.db
    ensures cache.Valid() && fresh(cache.Shared() - old(cache.Shared()))
    ensures (cache.View(), sent) == Respond(prims, cache.capacity, old(cache.View()), id, crypto, data, now, noise)
  {
    var seqNo, counter := TakeNumbersFor(cache, id);
    var header := Header(MakeMsgId(now, counter), seqNo, data);
    var (crypto', sealed) := EncryptOutgoingServer(prims, crypto, EncodeHeader(header), noise);
    StoreCryptoFor(cache, id, crypto');
    return Sent(id, crypto.sendCounter, header, noise, EncodePacket(id, sealed));
  }

  method TakeNumbersFor(cache: Cache, id: i64) returns (seqNo: i32, counter: u32)
    requires cache.Valid()
    modifies cache`entries, cache.db
    ensures cache.Valid() && fresh(cache.Shared() - old(cache.Shared()))
    ensures (cache.View(), seqNo, counter) == TakeNumbers(cache.capacity, old(cache.View()), id)
  {
    hide Wrap32, Next, Load;
    var session := cache.GetSession(id);
    if session.None? { return -1, 0; }
    var data := session.value.data;
    seqNo := Wrap32(data.sendSeqNo + 1);
    counter := data.msgIdCounter;
    data := data.(sendSeqNo := seqNo, msgIdCounter := Next(counter));
    OnlyEntryShares(cache.entries, session.value.recent);
    cache.UpdateSession(id, session.value.(data := data));
    ghost var updated := cache.View();
    cache.db.UpdateSendState(id, seqNo, data.msgIdCounter);
    assert cache.View().table == updated.table;
  }

  method StoreCryptoFor(cache: Cache, id: i64, crypto: SessionCrypto)
    requires cache.Valid()
    modifies cache`entries, cache.db
    ensures cache.Valid() && fresh(cache.Shared() - old(cache.Shared()))
    ensures cache.View() == StoreCrypto(cache.capacity, old(cache.View()), id, crypto)
  {
    var session := cache.GetSession(id);
    if session.Some? {
      var data := session.value.data.(crypto := crypto, sendCounter := crypto.sendCounter, recvCounter := crypto.recvCounter);
      ghost var found := cache.View();
      cache.db.UpdateCounters(id, crypto.sendCounter, crypto.recvCounter);
      OnlyEntryShares(cache.entries, session.value.recent);
      cache.UpdateSession(id, session.value.(data := data));
      assert cache.View().table == found.table[id := RowOf(id, data)];
    }
  }

  method ParseObject(data: bytes) returns (o: Option<TlObject>)
    ensures o == match DecodeBoxed(data) case Got(x, _) => Some(x) case Bad(_) => None
  {
    var reader := new Reader(data);
    var parsed := ReadBoxed(reader);
    o := if parsed.Ok? then Some(parsed.value) else None;
  }

  method HandlePlain(cache: Cache, raw: bytes, env: Env) returns (out: Output)
    requires cache.Valid()
    modifies cache`entries, cache.db
    ensures cache.Valid() && fresh(cache.Shared() - old(cache.Shared()))
    ensures (cache.View(), out) == StepPlain(cache.capacity, old(cache.View()), raw, env)
  {
    var parsed := ParseObject(raw);
    if parsed.None? { return SILENT; }
    HandleSession(cache, None, env.handled);
    var reply := ReplyOf(env.handled);
    out := SILENT.(request := Some(parsed.value), closed := env.handled.Failed?,
                   plain := if reply.None? then None else Some(EncodeBoxed(reply.value)));
  }

  method HandleAccepted(prims: Primitives, cache: Cache, id: i64, h: Header, crypto: SessionCrypto, env: Env)
      returns (out: Output)
    requires Lawful(prims) && cache.Valid()
    modifies cache`entries, cache.db
    ensures cache.Valid() && fresh(cache.Shared() - old(cache.Shared()))
    ensures (cache.View(), out) == StepAccepted(prims, cache.capacity, old(cache.View()), id, h, crypto, env)
  {
    hide ApplyHandled, Respond, EncodeBoxed, DecodeBoxed;
    out := SILENT.(receipt := Some((id, Received(h, crypto))));
    var parsed := ParseObject(h.body);
    if parsed.None? { return; }
    HandleSession(cache, Some(id), env.handled);
    out := out.(request := Some(parsed.value), closed := env.handled.Failed?);
    var reply := ReplyOf(env.handled);
    if reply.Some? {
      var sent := Answer(prims, cache, id, crypto, EncodeBoxed(reply.value), env.nowReply, env.noise);
      out := out.(sent := Some(sent));
    }
  }

  method HandleEncrypted(prims: Primitives, cache: Cache, id: i64, raw: bytes, env: Env) returns (out: Output)
    requires Lawful(prims) && cache.Valid()
    modifies cache`entries, cache.db, cache.Shared()
    ensures cache.Valid() && fresh(cache.Shared() - old(cache.Shared()))
    ensures (cache.View(), out) == StepSession(prims, cache.capacity, old(cache.View()), id, raw, env)
  {
    var session := cache.GetSession(id);
    if session.None? { return SILENT.(closed := true); }
    assert session.value.recent in cache.Shared() by { assert cache.entries[0] in cache.entries; }
    var receipt := ReceiveFrame(prims, cache, id, session.value, raw, env.nowCheck);
    if receipt.Received? {
      out := HandleAccepted(prims, cache, id, receipt.header, receipt.crypto, env);
    } else {
      out := SILENT.(receipt := Some((id, receipt)), closed := receipt.Broken?);
    }
  }

  /** One pass of the loop. */
  method HandleFrame(prims: Primitives, cache: Cache, raw: bytes, env: Env) returns (out: Output)
    requires Lawful(prims) && cache.Valid()
    modifies cache`entries, cache.db, cache.Shared()
    ensures cache.Valid() && fresh(cache.Shared() - old(cache.Shared()))
    ensures (cache.View(), out) == Step(prims, cache.capacity, old(cache.View()), raw, env)
  {
    var authKeyId: Option<i64> := None;
    if |raw| >= 8 {
      var id := PacketKeyId(raw);
      if id != 0 {
        var session := cache.GetSession(id);
        if session.Some? { authKeyId := Some(id); }
      }
    }
    if authKeyId.None? {
      out := HandlePlain(cache, raw, env);
    } else {
      out := HandleEncrypted(prims, cache, authKeyId.value, raw, env);
    }
  }

  /** The loop over a connection's frames. */
  method HandleClient(prims: Primitives, cache: Cache, arrivals: seq<Arrival>) returns (outs: seq<Output>)
    requires Lawful(prims) && cache.Valid()
    modifies cache`entries, cache.db, cache.Shared()
    ensures cache.Valid()
    ensures (cache.View(), outs) == Serve(prims, cache.capacity, old(cache.View()), arrivals)
  {
    outs := [];
    ghost var whole := Serve(prims, cache.capacity, cache.View(), arrivals);
    assert [] + whole.1 == whole.1 && arrivals[0..] == arrivals;
    for i := 0 to |arrivals|
      invariant cache.Valid() && fresh(cache.Shared() - old(cache.Shared()))
      invariant var (st, rest) := Serve(prims, cache.capacity, cache.View(), arrivals[i..]);
        whole == (st, outs + rest)
    {
      assert arrivals[i..][1..] == arrivals[i + 1..];
      ghost var rest := Serve(prims, cache.capacity, cache.View(), arrivals[i..]).1;
      var out := HandleFrame(prims, cache, arrivals[i].raw, arrivals[i].env);
      ghost var prev := outs;
      outs := outs + [out];
      if out.closed {
        assert rest == [out];
        return;
      }
      ghost var more := Serve(prims, cache.capacity, cache.View(), arrivals[i + 1..]).1;
      assert prev + ([out] + more) == outs + more;
    }
    assert outs + [] == outs;
  }
}
