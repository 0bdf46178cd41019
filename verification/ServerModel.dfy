/** The server's session handling as functions on values: the LRU cache, the session table, and one
    pass of the client loop (kosta-server/src/server.rs, session_cache.rs, session_store.rs, db.rs).

    The classes of SessionCache and Server are proved against these functions; what the source promises
    is proved about them in ServerRuns, Refinement and EndToEnd. */
module ServerModel {
  import opened Wrappers
  import opened Bytes
  import opened TlTypes
  import opened TlObjects
  import opened Crypto
  import opened MsgId

  /** A row of the sessions table. */
  datatype FullSession = FullSession(
    authKeyId: i64, userId: i64, serverSalt: i64,
    nonce: bytes, serverNonce: bytes, newNonce: bytes,
    recvSeqNo: i32, authKey: bytes,
    clientWriteKey: bytes, clientMacKey: bytes, serverWriteKey: bytes, serverMacKey: bytes,
    lastMsgId: i64, sendCounter: u32, recvCounter: u32, sendSeqNo: i32, msgIdCounter: u32)

  /** The in-memory session, without the shared set of recent ids. */
  datatype SessionData = SessionData(
    authKey: bytes, authKeyId: i64, userId: i64, serverSalt: i64,
    nonce: bytes, serverNonce: bytes, newNonce: bytes, crypto: SessionCrypto,
    recvSeqNo: i32, lastRecvMsgId: i64, sendCounter: u32, recvCounter: u32,
    sendSeqNo: i32, msgIdCounter: u32)

  /** The row a session is saved as: its counters, not those of its crypto context. */
  function RowOf(id: i64, s: SessionData): FullSession {
    FullSession(id, s.userId, s.serverSalt, s.nonce, s.serverNonce, s.newNonce, s.recvSeqNo, s.authKey,
      s.crypto.clientWriteKey, s.crypto.clientMacKey, s.crypto.serverWriteKey, s.crypto.serverMacKey,
      s.lastRecvMsgId, s.sendCounter, s.recvCounter, s.sendSeqNo, s.msgIdCounter)
  }

  /** The session a row is loaded as. */
  function Load(id: i64, row: FullSession): SessionData {
    SessionData(row.authKey, id, row.userId, row.serverSalt, row.nonce, row.serverNonce, row.newNonce,
      SessionCrypto(row.clientWriteKey, row.clientMacKey, row.serverWriteKey, row.serverMacKey,
        row.sendCounter, row.recvCounter),
      row.recvSeqNo, row.lastMsgId, row.sendCounter, row.recvCounter, row.sendSeqNo, row.msgIdCounter)
  }

  const RECENT_CAPACITY := 1000

  /** Putting an id in the set of recent ids: newest first, the oldest falls out. */
  function Pushed(ids: seq<i64>, id: i64): (r: seq<i64>) {
    var all := [id] + Without(ids, id);
    if |all| <= RECENT_CAPACITY then all else all[..RECENT_CAPACITY]
  }

  function Without(ids: seq<i64>, id: i64): (r: seq<i64>) {
    if ids == [] then []
    else if ids[0] == id then Without(ids[1..], id)
    else [ids[0]] + Without(ids[1..], id)
  }

  /** A cached session with its recent ids. */
  datatype Cached = Cached(id: i64, data: SessionData, recent: seq<i64>)

  /** The cache, most recently used first, and the session table. */
  datatype ServerState = ServerState(lru: seq<Cached>, table: map<i64, FullSession>)

  // ---------- the LRU list ----------

  function Find(lru: seq<Cached>, id: i64): Option<Cached> {
    if lru == [] then None
    else if lru[0].id == id then Some(lru[0])
    else Find(lru[1..], id)
  }

  function Remove(lru: seq<Cached>, id: i64): (r: seq<Cached>)
    ensures |r| <= |lru|
  {
    if lru == [] then []
    else if lru[0].id == id then Remove(lru[1..], id)
    else [lru[0]] + Remove(lru[1..], id)
  }

  /** Putting an entry in front; beyond the capacity the least recently used one falls out. */
  function Put(capacity: nat, lru: seq<Cached>, c: Cached): seq<Cached> {
    var all := [c] + Remove(lru, c.id);
    if |all| <= capacity then all else all[..capacity]
  }

  // ---------- the cache over the table ----------

  /** get_session: the cached session moves to the front; otherwise the row is loaded and cached. */
  function Get(capacity: nat, st: ServerState, id: i64): (ServerState, Option<Cached>) {
    match Find(st.lru, id)
    case Some(c) => (st.(lru := [c] + Remove(st.lru, id)), Some(c))
    case None =>
      if id in st.table then
        var c := Cached(id, Load(id, st.table[id]), []);
        (st.(lru := Put(capacity, st.lru, c)), Some(c))
      else (st, None)
  }

  /** update_session: write through. */
  function Update(capacity: nat, st: ServerState, id: i64, data: SessionData, recent: seq<i64>): ServerState {
    ServerState(Put(capacity, st.lru, Cached(id, data, recent)), st.table[id := RowOf(id, data)])
  }

  /** The recent ids of a session are shared between the cache and every clone: pushing onto the
      clone's set is seen in the cache even when the clone is thrown away. */
  function PushRecent(st: ServerState, id: i64, msgId: i64): ServerState {
    st.(lru := PushRecentIn(st.lru, id, msgId))
  }

  function PushRecentIn(lru: seq<Cached>, id: i64, msgId: i64): (r: seq<Cached>)
    ensures |r| == |lru|
  {
    seq(|lru|, i requires 0 <= i < |lru| =>
      if lru[i].id == id then lru[i].(recent := Pushed(lru[i].recent, msgId)) else lru[i])
  }

  // ---------- one frame ----------

  /** What the request handler did: it may answer, change the session's user, or create a session. */
  datatype Handled =
    | NoReply
    | Reply(answer: TlObject)
    | Failed
    | SignedUp(userId: i64)
    | Established(session: SessionData, answer: TlObject)

  /** Everything a pass of the loop takes from outside: two clock readings in milliseconds, the random
      part of the nonce, and the handler's outcome. */
  datatype Env = Env(nowCheck: nat, nowReply: nat, noise: Noise, handled: Handled)

  datatype Drop = TooShort | NotAuthentic | StaleMsgId | Replayed | WrongSeqNo | OutOfTime

  /** What became of an encrypted frame. */
  datatype Receipt =
    | Dropped(reason: Drop)
    | Broken                                   // too short for a header: the connection ends
    | Received(header: Header, crypto: SessionCrypto)

  /** Opening a frame under a session's keys. */
  datatype Unsealed = Short | Forged | Headless | Clear(header: Header, crypto: SessionCrypto)

  function Unseal(prims: Primitives, crypto: SessionCrypto, raw: bytes): Unsealed
    requires Lawful(prims)
  {
    if |raw| < OVERHEAD then Short
    else
      var decrypted := DecryptIncomingServer(prims, crypto, PacketBody(raw));
      if decrypted.None? then Forged
      else
        var header := DecodeHeader(decrypted.value.1);
        if header.None? then Headless else Clear(header.value, decrypted.value.0)
  }

  /** The checks on a session's frame, in the order of the source, and the id to remember: an id that
      passes the order and replay checks is remembered whether or not the later checks pass. */
  function Examine(prims: Primitives, c: Cached, raw: bytes, now: nat): (Receipt, Option<i64>)
    requires Lawful(prims)
  {
    match Unseal(prims, c.data.crypto, raw)
    case Short => (Dropped(TooShort), None)
    case Forged => (Dropped(NotAuthentic), None)
    case Headless => (Broken, None)
    case Clear(h, crypto) =>
      if h.msgId <= c.data.lastRecvMsgId then (Dropped(StaleMsgId), None)
      else if h.msgId in c.recent then (Dropped(Replayed), None)
      else if h.seqNo != Wrap32(c.data.recvSeqNo + 1) then (Dropped(WrongSeqNo), Some(h.msgId))
      else if DiffMs(h.msgId, now) > MAX_SKEW_MS then (Dropped(OutOfTime), Some(h.msgId))
      else (Received(h, crypto), Some(h.msgId))
  }

  /** The session after an accepted frame. */
  function AfterAccept(data: SessionData, h: Header, crypto: SessionCrypto): SessionData {
    data.(crypto := crypto, recvSeqNo := h.seqNo, lastRecvMsgId := h.msgId)
  }

  /** Examining a frame of a cached session c and, if it is accepted, updating the session. */
  function Receive(prims: Primitives, capacity: nat, st: ServerState, c: Cached, raw: bytes, now: nat): (ServerState, Receipt)
    requires Lawful(prims)
  {
    var (receipt, remembered) := Examine(prims, c, raw, now);
    var st' := if remembered.None? then st else PushRecent(st, c.id, remembered.value);
    match receipt
    case Received(h, crypto) =>
      (Update(capacity, st', c.id, AfterAccept(c.data, h, crypto), Pushed(c.recent, h.msgId)), receipt)
    case _ => (st', receipt)
  }

  /** The session part of the handlers: sign-up records the user, a finished handshake saves a session. */
  function ApplyHandled(capacity: nat, st: ServerState, key: Option<i64>, handled: Handled): ServerState {
    match handled
    case SignedUp(userId) =>
      if key.None? then st
      else
        var id := key.value;
        var st' := if id in st.table then st.(table := st.table[id := st.table[id].(userId := userId)]) else st;
        var (st'', c) := Get(capacity, st', id);
        if c.None? then st''
        else Update(capacity, st'', id, c.value.data.(userId := userId), c.value.recent)
    case Established(session, _) => Update(capacity, st, session.authKeyId, session, [])
    case _ => st
  }

  function ReplyOf(handled: Handled): Option<TlObject> {
    match handled
    case Reply(o) => Some(o)
    case Established(_, o) => Some(o)
    case _ => None
  }

  /** An encrypted answer: the session, the nonce counter, the header it carries, the random part of its nonce, and its packet. */
  datatype Sent = Sent(id: i64, counter: u32, header: Header, noise: Noise, packet: bytes)

  /** The first half of answering: the session takes the next sequence number and message counter. */
  function TakeNumbers(capacity: nat, st: ServerState, id: i64): (ServerState, i32, u32) {
    var (st', c) := Get(capacity, st, id);
    if c.None? then (st', -1, 0)
    else
      var data := c.value.data;
      var seqNo := Wrap32(data.sendSeqNo + 1);
      (Update(capacity, st', id, data.(sendSeqNo := seqNo, msgIdCounter := Next(data.msgIdCounter)), c.value.recent),
       seqNo, data.msgIdCounter)
  }

  /** The second half: the crypto context that encrypted the answer is stored back. */
  function StoreCrypto(capacity: nat, st: ServerState, id: i64, crypto: SessionCrypto): ServerState {
    var (st', c) := Get(capacity, st, id);
    if c.None? then st'
    else Update(capacity, st', id,
      c.value.data.(crypto := crypto, sendCounter := crypto.sendCounter, recvCounter := crypto.recvCounter),
      c.value.recent)
  }

  function Respond(prims: Primitives, capacity: nat, st: ServerState, id: i64, crypto: SessionCrypto, body: bytes, now: nat, noise: Noise): (ServerState, Sent)
    requires Lawful(prims)
  {
    var (st', seqNo, counter) := TakeNumbers(capacity, st, id);
    var header := Header(MakeMsgId(now, counter), seqNo, body);
    var (crypto', sealed) := EncryptOutgoingServer(prims, crypto, EncodeHeader(header), noise);
    (StoreCrypto(capacity, st', id, crypto'), Sent(id, crypto.sendCounter, header, noise, EncodePacket(id, sealed)))
  }

  /** What one pass of the loop shows: a frame that decrypted and whether it was accepted, the object handed
      to the handler, the answer, and whether the connection ends. */
  datatype Output = Output(
    receipt: Option<(i64, Receipt)>,
    request: Option<TlObject>,
    sent: Option<Sent>,
    plain: Option<bytes>,
    closed: bool)

  const SILENT := Output(None, None, None, None, false)

  /** Which session a frame belongs to; a frame of no known session is a plain one. */
  function Classify(capacity: nat, st: ServerState, raw: bytes): (ServerState, Option<i64>) {
    if |raw| < 8 || PacketKeyId(raw) == 0 then (st, None)
    else
      var (st', c) := Get(capacity, st, PacketKeyId(raw));
      (st', if c.None? then None else Some(PacketKeyId(raw)))
  }

  function StepPlain(capacity: nat, st: ServerState, raw: bytes, env: Env): (ServerState, Output) {
    match DecodeBoxed(raw)
    case Bad(_) => (st, SILENT)
    case Got(o, _) =>
      var st' := ApplyHandled(capacity, st, None, env.handled);
      var reply := ReplyOf(env.handled);
      (st', SILENT.(request := Some(o), plain := if reply.None? then None else Some(EncodeBoxed(reply.value)),
                    closed := env.handled.Failed?))
  }

  /** After acceptance: parse, handle, answer. */
  function StepAccepted(prims: Primitives, capacity: nat, st: ServerState, id: i64, h: Header, crypto: SessionCrypto, env: Env): (ServerState, Output)
    requires Lawful(prims)
  {
    var seen := SILENT.(receipt := Some((id, Received(h, crypto))));
    match DecodeBoxed(h.body)
    case Bad(_) => (st, seen)
    case Got(o, _) =>
      var st' := ApplyHandled(capacity, st, Some(id), env.handled);
      var reply := ReplyOf(env.handled);
      var handled := seen.(request := Some(o), closed := env.handled.Failed?);
      if reply.None? then (st', handled)
      else
        var (st'', sent) := Respond(prims, capacity, st', id, crypto, EncodeBoxed(reply.value), env.nowReply, env.noise);
        (st'', handled.(sent := Some(sent)))
  }

  function StepSession(prims: Primitives, capacity: nat, st: ServerState, id: i64, raw: bytes, env: Env): (ServerState, Output)
    requires Lawful(prims)
  {
    var (st', c) := Get(capacity, st, id);
    if c.None? then (st', SILENT.(closed := true))
    else
      var (st'', receipt) := Receive(prims, capacity, st', c.value, raw, env.nowCheck);
      match receipt
      case Received(h, crypto) => StepAccepted(prims, capacity, st'', id, h, crypto, env)
      case _ => (st'', SILENT.(receipt := Some((id, receipt)), closed := receipt.Broken?))
  }

  /** One pass of the loop on one frame. */
  function Step(prims: Primitives, capacity: nat, st: ServerState, raw: bytes, env: Env): (ServerState, Output)
    requires Lawful(prims)
  {
    var (st', key) := Classify(capacity, st, raw);
    match key
    case None => StepPlain(capacity, st', raw, env)
    case Some(id) => StepSession(prims, capacity, st', id, raw, env)
  }
}
