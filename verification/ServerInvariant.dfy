/** What every operation on the cache and the table keeps, and what one pass of the loop does to a row. */
module ServerInvariant {
  import opened Wrappers
  import opened Bytes
  import opened TlTypes
  import opened TlObjects
  import opened Crypto
  import opened MsgId
  import opened ServerModel

  // ---------- the LRU list ----------

  ghost predicate Distinct(lru: seq<Cached>) {
    forall i, j :: 0 <= i < j < |lru| ==> lru[i].id != lru[j].id
  }

  lemma {:induction false} FindSound(lru: seq<Cached>, id: i64)
    ensures Find(lru, id).Some? ==> Find(lru, id).value in lru && Find(lru, id).value.id == id
    ensures Find(lru, id).None? ==> forall c :: c in lru ==> c.id != id
  {
    if lru != [] { FindSound(lru[1..], id); }
  }

  lemma {:induction false} FindComplete(lru: seq<Cached>, c: Cached)
    requires Distinct(lru) && c in lru
    ensures Find(lru, c.id) == Some(c)
  {
    if lru[0] != c {
      var i :| 0 <= i < |lru| && lru[i] == c;
      assert lru[1..][i - 1] == c;
      FindComplete(lru[1..], c);
    }
  }

  lemma {:induction false} RemoveMembers(lru: seq<Cached>, id: i64)
    ensures forall c :: c in Remove(lru, id) <==> c in lru && c.id != id
  {
    if lru != [] { RemoveMembers(lru[1..], id); }
  }

  lemma {:induction false} RemoveDistinct(lru: seq<Cached>, id: i64)
    requires Distinct(lru)
    ensures Distinct(Remove(lru, id))
    ensures Find(lru, id).Some? ==> |Remove(lru, id)| < |lru|
  {
    if lru != [] {
      RemoveDistinct(lru[1..], id);
      if lru[0].id != id {
        var rest := Remove(lru[1..], id);
        forall j | 0 <= j < |rest| ensures rest[j].id != lru[0].id {
          RemoveMembers(lru[1..], id);
          assert rest[j] in lru[1..];
        }
      }
    }
  }

  lemma {:induction false} FindAfterRemove(lru: seq<Cached>, id: i64, x: i64)
    ensures x != id ==> Find(Remove(lru, id), x) == Find(lru, x)
    ensures Find(Remove(lru, id), id) == None
  {
    if lru != [] { FindAfterRemove(lru[1..], id, x); }
  }

  /** Cutting the list off never invents or changes an entry. */
  lemma {:induction false} FindInPrefix(lru: seq<Cached>, n: nat, x: i64)
    requires n <= |lru|
    ensures Find(lru[..n], x).None? || Find(lru[..n], x) == Find(lru, x)
  {
    if n > 0 {
      assert lru[..n][1..] == lru[1..][..n - 1];
      FindInPrefix(lru[1..], n - 1, x);
    }
  }

  /** After a put the entry is there; every other one is as before or has fallen out. */
  lemma PutFinds(capacity: nat, lru: seq<Cached>, c: Cached, x: i64)
    requires capacity >= 1
    ensures Find(Put(capacity, lru, c), c.id) == Some(c)
    ensures x != c.id ==> Find(Put(capacity, lru, c), x).None? || Find(Put(capacity, lru, c), x) == Find(lru, x)
  {
    var all := [c] + Remove(lru, c.id);
    assert all[1..] == Remove(lru, c.id);
    FindAfterRemove(lru, c.id, x);
    if |all| > capacity { FindInPrefix(all, capacity, x); }
  }

  lemma PutDistinct(capacity: nat, lru: seq<Cached>, c: Cached)
    requires Distinct(lru)
    ensures Distinct(Put(capacity, lru, c)) && |Put(capacity, lru, c)| <= capacity
    ensures forall x :: x in Put(capacity, lru, c) ==> x == c || (x in lru && x.id != c.id)
  {
    var all := [c] + Remove(lru, c.id);
    RemoveMembers(lru, c.id);
    RemoveDistinct(lru, c.id);
    assert forall x :: x in all ==> x == c || x in Remove(lru, c.id);
    forall j | 0 < j < |all| ensures all[j].id != c.id {
      assert all[j] in Remove(lru, c.id);
    }
    assert forall x :: x in all[..if |all| <= capacity then |all| else capacity] ==> x in all;
  }

  // ---------- coherence ----------

  /** A cached session agrees with its row on every persisted field, and its nonce counter is the
      persisted one. Only the receive counter of the crypto context is free. */
  ghost predicate Coherent(table: map<i64, FullSession>, c: Cached) {
    c.id in table && RowOf(c.id, c.data) == table[c.id] && c.data.authKeyId == c.id
    && c.data.crypto.sendCounter == c.data.sendCounter
  }

  ghost predicate Inv(capacity: nat, st: ServerState) {
    && capacity >= 1 && |st.lru| <= capacity && Distinct(st.lru)
    && (forall c :: c in st.lru ==> Coherent(st.table, c))
    && (forall id :: id in st.table ==> st.table[id].authKeyId == id)
  }

  /** The recent ids a session has in memory. */
  function Recents(st: ServerState, id: i64): seq<i64> {
    var c := Find(st.lru, id);
    if c.None? then [] else c.value.recent
  }

  /** Sessions other than id are cached as before or not at all. */
  ghost predicate OthersKept(st: ServerState, st': ServerState, id: i64) {
    forall x: i64 :: x != id ==> Find(st'.lru, x).None? || Find(st'.lru, x) == Find(st.lru, x)
  }

  lemma OthersKeptTwice(st: ServerState, mid: ServerState, st': ServerState, id: i64)
    requires OthersKept(st, mid, id) && OthersKept(mid, st', id)
    ensures OthersKept(st, st', id)
  {
  }

  /** Looking a session up: it is found exactly when it has a row, and then it agrees with the row. */
  lemma GetKeeps(capacity: nat, st: ServerState, id: i64)
    requires Inv(capacity, st)
    ensures var (st', c) := Get(capacity, st, id);
      && Inv(capacity, st') && st'.table == st.table && OthersKept(st, st', id)
      && (c.Some? <==> id in st.table)
      && (c.Some? ==> (c.value.id == id && Coherent(st.table, c.value) && c.value.recent == Recents(st, id)))
      && (c.Some? ==> Find(st'.lru, id) == c)
      && (c.None? ==> st' == st)
  {
    FindSound(st.lru, id);
    var (st', c) := Get(capacity, st, id);
    if Find(st.lru, id).Some? {
      RemoveDistinct(st.lru, id);
      RemoveMembers(st.lru, id);
      var all := [c.value] + Remove(st.lru, id);
      assert all[1..] == Remove(st.lru, id);
      forall j | 0 < j < |all| ensures all[j].id != id { assert all[j] in Remove(st.lru, id); }
      forall x: i64 { FindAfterRemove(st.lru, id, x); }
    } else if id in st.table {
      PutDistinct(capacity, st.lru, c.value);
      forall x: i64 { PutFinds(capacity, st.lru, c.value, x); }
    }
  }

  lemma UpdateKeeps(capacity: nat, st: ServerState, id: i64, data: SessionData, recent: seq<i64>)
    requires Inv(capacity, st)
    requires data.authKeyId == id && data.crypto.sendCounter == data.sendCounter
    ensures var st' := Update(capacity, st, id, data, recent);
      && Inv(capacity, st') && st'.table == st.table[id := RowOf(id, data)] && OthersKept(st, st', id)
      && Find(st'.lru, id) == Some(Cached(id, data, recent))
  {
    var c := Cached(id, data, recent);
    PutDistinct(capacity, st.lru, c);
    forall x: i64 { PutFinds(capacity, st.lru, c, x); }
    PutFinds(capacity, st.lru, c, id);
  }

  lemma {:induction false} PushFinds(lru: seq<Cached>, id: i64, msgId: i64, x: i64)
    ensures Find(PushRecentIn(lru, id, msgId), x) ==
      var c := Find(lru, x);
      if c.Some? && x == id then Some(c.value.(recent := Pushed(c.value.recent, msgId))) else c
  {
    if lru != [] {
      assert PushRecentIn(lru, id, msgId)[1..] == PushRecentIn(lru[1..], id, msgId);
      PushFinds(lru[1..], id, msgId, x);
    }
  }

  lemma PushKeeps(capacity: nat, st: ServerState, id: i64, msgId: i64)
    requires Inv(capacity, st)
    ensures var st' := PushRecent(st, id, msgId);
      && Inv(capacity, st') && st'.table == st.table && OthersKept(st, st', id)
      && (Find(st.lru, id).Some? ==>
            Find(st'.lru, id) == Some(Find(st.lru, id).value.(recent := Pushed(Recents(st, id), msgId))))
  {
    forall x: i64 { PushFinds(st.lru, id, msgId, x); }
    PushFinds(st.lru, id, msgId, id);
    forall c | c in PushRecent(st, id, msgId).lru ensures Coherent(st.table, c) {
      var i :| 0 <= i < |st.lru| && PushRecentIn(st.lru, id, msgId)[i] == c;
      assert st.lru[i] in st.lru;
    }
  }

  // ---------- what one frame does ----------

  function AcceptedRow(row: FullSession, h: Header): FullSession {
    row.(recvSeqNo := h.seqNo, lastMsgId := h.msgId)
  }

  function AnsweredRow(row: FullSession, recvCounter: u32): FullSession {
    row.(sendSeqNo := Wrap32(row.sendSeqNo + 1), msgIdCounter := Next(row.msgIdCounter),
         sendCounter := Next(row.sendCounter), recvCounter := recvCounter)
  }

  /** A frame rejected after its id was remembered. */
  predicate Remembers(receipt: Receipt) {
    receipt == Dropped(WrongSeqNo) || receipt == Dropped(OutOfTime)
  }

  /** Examining a frame: acceptance moves the row by one sequence number to a later message id, and
      leaves the persisted receive counter where it was; rejection leaves the table untouched. */
  lemma ReceiveKeeps(prims: Primitives, capacity: nat, st: ServerState, c: Cached, raw: bytes, now: nat)
    requires Lawful(prims) && Inv(capacity, st) && Find(st.lru, c.id) == Some(c)
    ensures var (st', receipt) := Receive(prims, capacity, st, c, raw, now);
      && Inv(capacity, st') && OthersKept(st, st', c.id) && c.id in st.table
      && (receipt.Received? ==>
            var row, h := st.table[c.id], receipt.header;
            && st'.table == st.table[c.id := AcceptedRow(row, h)]
            && h.msgId > row.lastMsgId && h.seqNo == Wrap32(row.recvSeqNo + 1)
            && SameKeys(receipt.crypto, c.data.crypto) && receipt.crypto.sendCounter == row.sendCounter
            && Recents(st', c.id) == Pushed(c.recent, h.msgId))
      && (!receipt.Received? ==> st'.table == st.table)
      && (receipt.Received? || Remembers(receipt) || st' == st)
      && (var remembered := Examine(prims, c, raw, now).1;
          if remembered.Some? then Recents(st', c.id) == Pushed(c.recent, remembered.value) else st' == st)
  {
    hide DiffMs, Wrap32, DecodeHeader, Pushed;
    FindSound(st.lru, c.id);
    var (receipt, remembered) := Examine(prims, c, raw, now);
    if remembered.Some? {
      PushKeeps(capacity, st, c.id, remembered.value);
      if receipt.Received? {
        UpdateKeeps(capacity, PushRecent(st, c.id, remembered.value), c.id,
          AfterAccept(c.data, receipt.header, receipt.crypto), Pushed(c.recent, receipt.header.msgId));
      }
    }
  }

  /** A fresh session, as a handshake leaves it, under an id no row has. */
  ghost predicate FreshSession(s: SessionData) {
    s.recvSeqNo == -1 && s.lastRecvMsgId == 0 && s.sendSeqNo == -1 && s.msgIdCounter == 0
    && s.sendCounter == 0 && s.recvCounter == 0 && s.crypto.sendCounter == 0 && s.crypto.recvCounter == 0
  }

  ghost predicate NoCollision(st: ServerState, handled: Handled) {
    handled.Established? ==> FreshSession(handled.session) && handled.session.authKeyId !in st.table
  }

  function HandledTable(table: map<i64, FullSession>, key: Option<i64>, handled: Handled): map<i64, FullSession> {
    match handled
    case SignedUp(userId) =>
      if key.Some? && key.value in table then table[key.value := table[key.value].(userId := userId)] else table
    case Established(session, _) => table[session.authKeyId := RowOf(session.authKeyId, session)]
    case _ => table
  }

  lemma SignUpKeeps(capacity: nat, st: ServerState, id: i64, userId: i64)
    requires Inv(capacity, st) && id in st.table
    ensures var st' := ApplyHandled(capacity, st, Some(id), SignedUp(userId));
      && Inv(capacity, st') && st'.table == st.table[id := st.table[id].(userId := userId)]
      && OthersKept(st, st', id) && Recents(st', id) == Recents(st, id)
  {
    var renamed := st.(table := st.table[id := st.table[id].(userId := userId)]);
    FindSound(st.lru, id);
    GetKeeps(capacity, st, id);
    if Find(st.lru, id).None? {
      GetKeeps(capacity, renamed, id);
      var (st', c) := Get(capacity, renamed, id);
      UpdateKeeps(capacity, st', id, c.value.data.(userId := userId), c.value.recent);
    } else {
      var (st', c) := Get(capacity, st, id);
      var data := c.value.data.(userId := userId);
      UpdateKeeps(capacity, st', id, data, c.value.recent);
      assert ApplyHandled(capacity, st, Some(id), SignedUp(userId)).table
          == Update(capacity, st', id, data, c.value.recent).table;
    }
  }

  lemma HandledKeeps(capacity: nat, st: ServerState, key: Option<i64>, handled: Handled)
    requires Inv(capacity, st) && NoCollision(st, handled) && (key.Some? ==> key.value in st.table)
    ensures var st' := ApplyHandled(capacity, st, key, handled);
      && Inv(capacity, st') && st'.table == HandledTable(st.table, key, handled)
      && (forall x: i64 :: x in st.table ==> Find(st'.lru, x).None? || Recents(st', x) == Recents(st, x))
  {
    match handled
    case SignedUp(userId) => if key.Some? { SignUpKeeps(capacity, st, key.value, userId); }
    case Established(session, _) => UpdateKeeps(capacity, st, session.authKeyId, session, []);
    case _ =>
  }

  function NumberedRow(row: FullSession): FullSession {
    row.(sendSeqNo := Wrap32(row.sendSeqNo + 1), msgIdCounter := Next(row.msgIdCounter))
  }

  lemma TakeNumbersKeeps(capacity: nat, st: ServerState, id: i64)
    requires Inv(capacity, st) && id in st.table
    ensures var (st', seqNo, counter) := TakeNumbers(capacity, st, id);
      && Inv(capacity, st') && OthersKept(st, st', id) && Recents(st', id) == Recents(st, id)
      && st'.table == st.table[id := NumberedRow(st.table[id])]
      && seqNo == Wrap32(st.table[id].sendSeqNo + 1) && counter == st.table[id].msgIdCounter
  {
    hide Inv, Wrap32;
    GetKeeps(capacity, st, id);
    var (st1, c) := Get(capacity, st, id);
    var data := c.value.data;
    var numbered := data.(sendSeqNo := Wrap32(data.sendSeqNo + 1), msgIdCounter := Next(data.msgIdCounter));
    UpdateKeeps(capacity, st1, id, numbered, c.value.recent);
    OthersKeptTwice(st, st1, Update(capacity, st1, id, numbered, c.value.recent), id);
  }

  lemma StoreCryptoKeeps(capacity: nat, st: ServerState, id: i64, crypto: SessionCrypto)
    requires Inv(capacity, st) && id in st.table && SameKeys(crypto, Load(id, st.table[id]).crypto)
    ensures var st' := StoreCrypto(capacity, st, id, crypto);
      && Inv(capacity, st') && OthersKept(st, st', id) && Recents(st', id) == Recents(st, id)
      && st'.table == st.table[id := st.table[id].(sendCounter := crypto.sendCounter, recvCounter := crypto.recvCounter)]
  {
    hide Inv;
    GetKeeps(capacity, st, id);
    var (st1, c) := Get(capacity, st, id);
    var stored := c.value.data.(crypto := crypto, sendCounter := crypto.sendCounter, recvCounter := crypto.recvCounter);
    UpdateKeeps(capacity, st1, id, stored, c.value.recent);
    OthersKeptTwice(st, st1, Update(capacity, st1, id, stored, c.value.recent), id);
  }

  /** Answering moves the row by one answer: the next sequence number, message counter and nonce counter. */
  lemma RespondKeeps(prims: Primitives, capacity: nat, st: ServerState, id: i64, crypto: SessionCrypto, body: bytes, now: nat, noise: Noise)
    requires Lawful(prims) && Inv(capacity, st) && id in st.table
    requires SameKeys(crypto, Load(id, st.table[id]).crypto) && crypto.sendCounter == st.table[id].sendCounter
    ensures var (st', sent) := Respond(prims, capacity, st, id, crypto, body, now, noise);
      var row := st.table[id];
      && Inv(capacity, st') && OthersKept(st, st', id)
      && st'.table == st.table[id := AnsweredRow(row, crypto.recvCounter)]
      && sent.id == id && sent.counter == row.sendCounter
      && sent.header == Header(MakeMsgId(now, row.msgIdCounter), Wrap32(row.sendSeqNo + 1), body)
      && sent.noise == noise
      && sent.packet == EncodePacket(id, EncryptOutgoingServer(prims, crypto, EncodeHeader(sent.header), noise).1)
      && Recents(st', id) == Recents(st, id)
  {
    hide TakeNumbers, StoreCrypto, Inv, EncryptOutgoingServer, EncodePacket, EncodeHeader, MakeMsgId;
    TakeNumbersKeeps(capacity, st, id);
    var (st2, seqNo, counter) := TakeNumbers(capacity, st, id);
    var crypto' := crypto.(sendCounter := Next(crypto.sendCounter));
    StoreCryptoKeeps(capacity, st2, id, crypto');
    OthersKeptTwice(st, st2, StoreCrypto(capacity, st2, id, crypto'), id);
    assert EncryptOutgoingServer(prims, crypto, EncodeHeader(Header(MakeMsgId(now, counter), seqNo, body)), noise).0 == crypto' by {
      SealingCounts(prims, crypto, EncodeHeader(Header(MakeMsgId(now, counter), seqNo, body)), noise);
    }
  }

  lemma SealingCounts(prims: Primitives, crypto: SessionCrypto, plaintext: bytes, noise: Noise)
    requires Lawful(prims)
    ensures EncryptOutgoingServer(prims, crypto, plaintext, noise).0 == crypto.(sendCounter := Next(crypto.sendCounter))
  {
  }

  function AcceptedBy(out: Output, id: i64): Option<Header> {
    if out.receipt.Some? && out.receipt.value.0 == id && out.receipt.value.1.Received?
    then Some(out.receipt.value.1.header) else None
  }

  function SentTo(out: Output, id: i64): Option<Sent> {
    if out.sent.Some? && out.sent.value.id == id then out.sent else None
  }

  predicate SameKeyMaterial(row: FullSession, row': FullSession) {
    row.authKey == row'.authKey && row.nonce == row'.nonce && row.serverNonce == row'.serverNonce
    && row.clientWriteKey == row'.clientWriteKey && row.clientMacKey == row'.clientMacKey
    && row.serverWriteKey == row'.serverWriteKey && row.serverMacKey == row'.serverMacKey
  }

  /** The row moves by what the output shows and by nothing else. */
  ghost predicate ReceiveStep(row: FullSession, row': FullSession, accepted: Option<Header>) {
    match accepted
    case None => row'.recvSeqNo == row.recvSeqNo && row'.lastMsgId == row.lastMsgId
    case Some(h) =>
      h.seqNo == Wrap32(row.recvSeqNo + 1) && row'.recvSeqNo == h.seqNo
      && h.msgId > row.lastMsgId && row'.lastMsgId == h.msgId
  }

  ghost predicate SendStep(row: FullSession, row': FullSession, sent: Option<Sent>, now: nat) {
    match sent
    case None =>
      row'.sendSeqNo == row.sendSeqNo && row'.msgIdCounter == row.msgIdCounter && row'.sendCounter == row.sendCounter
    case Some(s) =>
      s.header.seqNo == Wrap32(row.sendSeqNo + 1) && row'.sendSeqNo == s.header.seqNo
      && s.header.msgId == MakeMsgId(now, row.msgIdCounter) && row'.msgIdCounter == Next(row.msgIdCounter)
      && s.counter == row.sendCounter && row'.sendCounter == Next(row.sendCounter)
  }

  ghost predicate RowStep(row: FullSession, row': FullSession, out: Output, id: i64, now: nat) {
    SameKeyMaterial(row, row') && ReceiveStep(row, row', AcceptedBy(out, id)) && SendStep(row, row', SentTo(out, id), now)
  }

  /** Every remembered id is one that was accepted or lies before the last accepted one. */
  ghost predicate RecentsBelow(st: ServerState, id: i64) {
    id in st.table && forall m :: m in Recents(st, id) ==> m <= st.table[id].lastMsgId
  }

  lemma {:induction false} PushedMembers(ids: seq<i64>, id: i64)
    ensures forall m :: m in Pushed(ids, id) ==> m == id || m in ids
  {
    WithoutMembers(ids, id);
    assert forall m :: m in [id] + Without(ids, id) ==> m == id || m in ids;
  }

  lemma {:induction false} WithoutMembers(ids: seq<i64>, id: i64)
    ensures forall m :: m in Without(ids, id) <==> m in ids && m != id
  {
    if ids != [] { WithoutMembers(ids[1..], id); }
  }

  /** What a pass of the loop does to the sessions it did not create. */
  ghost predicate SessionsStep(st: ServerState, st': ServerState, out: Output, now: nat) {
    && (forall id :: id in st.table ==> id in st'.table && RowStep(st.table[id], st'.table[id], out, id, now))
    && (forall id :: id in st.table && RecentsBelow(st, id)
          && !(out.receipt.Some? && out.receipt.value.0 == id && Remembers(out.receipt.value.1))
          ==> RecentsBelow(st', id))
  }

  ghost predicate FreshRow(row: FullSession) {
    row.recvSeqNo == -1 && row.lastMsgId == 0 && row.sendSeqNo == -1 && row.msgIdCounter == 0 && row.sendCounter == 0
  }

  /** And the ones it created are fresh. */
  ghost predicate CreatedFresh(st: ServerState, st': ServerState, out: Output) {
    forall id :: id !in st.table ==>
      AcceptedBy(out, id).None? && SentTo(out, id).None?
      && (id in st'.table ==> FreshRow(st'.table[id]) && RecentsBelow(st', id))
  }

  ghost predicate StepKept(capacity: nat, st: ServerState, st': ServerState, out: Output, now: nat) {
    Inv(capacity, st') && SessionsStep(st, st', out, now) && CreatedFresh(st, st', out)
  }

  lemma PlainKeeps(capacity: nat, st: ServerState, raw: bytes, env: Env)
    requires Inv(capacity, st) && NoCollision(st, env.handled)
    ensures var (st', out) := StepPlain(capacity, st, raw, env); StepKept(capacity, st, st', out, env.nowReply)
  {
    HandledKeeps(capacity, st, None, env.handled);
    NewSessionRecents(capacity, st, None, env.handled);
  }

  /** A session created by the handler starts with no recent ids. */
  lemma NewSessionRecents(capacity: nat, st: ServerState, key: Option<i64>, handled: Handled)
    requires Inv(capacity, st) && NoCollision(st, handled) && (key.Some? ==> key.value in st.table)
    ensures var st' := ApplyHandled(capacity, st, key, handled);
      forall id :: id !in st.table && id in st'.table ==> FreshRow(st'.table[id]) && Recents(st', id) == []
  {
    HandledKeeps(capacity, st, key, handled);
    if handled.Established? {
      UpdateKeeps(capacity, st, handled.session.authKeyId, handled.session, []);
    }
  }

  /** The recent ids of every session but one are as before or forgotten. */
  ghost predicate RecentsKept(st: ServerState, st': ServerState, id: i64) {
    forall x: i64 :: x != id ==> Recents(st', x) == [] || Recents(st', x) == Recents(st, x)
  }

  lemma OthersRecents(st: ServerState, st': ServerState, id: i64)
    requires OthersKept(st, st', id)
    ensures RecentsKept(st, st', id)
  {
    forall x: i64 | x != id ensures Recents(st', x) == [] || Recents(st', x) == Recents(st, x) {
      assert Find(st'.lru, x).None? || Find(st'.lru, x) == Find(st.lru, x);
    }
  }

  /** A row whose received side, numbers and keys are untouched. */
  ghost predicate Untouched(row: FullSession, row': FullSession) {
    SameKeyMaterial(row, row') && ReceiveStep(row, row', None) && SendStep(row, row', None, 0)
  }

  /** What a handler does: existing sessions keep their numbers, a created one is fresh. */
  ghost predicate HandledStep(capacity: nat, st: ServerState, st': ServerState) {
    && Inv(capacity, st')
    && (forall x :: x in st.table ==> x in st'.table && Untouched(st.table[x], st'.table[x]))
    && (forall x: i64 :: x in st.table ==> Recents(st', x) == [] || Recents(st', x) == Recents(st, x))
    && (forall x: i64 :: x !in st.table && x in st'.table ==> FreshRow(st'.table[x]) && Recents(st', x) == [])
  }

  lemma HandledSteps(capacity: nat, st: ServerState, key: Option<i64>, handled: Handled)
    requires Inv(capacity, st) && NoCollision(st, handled) && (key.Some? ==> key.value in st.table)
    ensures HandledStep(capacity, st, ApplyHandled(capacity, st, key, handled))
  {
    HandledKeeps(capacity, st, key, handled);
    NewSessionRecents(capacity, st, key, handled);
    var st' := ApplyHandled(capacity, st, key, handled);
    forall x: i64 | x in st.table ensures Recents(st', x) == [] || Recents(st', x) == Recents(st, x) {
      assert Find(st'.lru, x).None? || Recents(st', x) == Recents(st, x);
    }
  }

  /** A row that has at most sent an answer. */
  ghost predicate AnsweredStep(row: FullSession, row': FullSession, sent: Option<Sent>, now: nat) {
    SameKeyMaterial(row, row') && ReceiveStep(row, row', None) && SendStep(row, row', sent, now)
  }

  /** What handling and answering an accepted frame does: rows keep what they have received. */
  ghost predicate AnswerStep(capacity: nat, st: ServerState, st': ServerState, out: Output, now: nat) {
    && Inv(capacity, st')
    && (forall x :: x in st.table ==> x in st'.table && AnsweredStep(st.table[x], st'.table[x], SentTo(out, x), now))
    && (forall x: i64 :: x in st.table ==> Recents(st', x) == [] || Recents(st', x) == Recents(st, x))
    && (forall x: i64 :: x !in st.table ==> SentTo(out, x).None?)
    && (forall x: i64 :: x !in st.table && x in st'.table ==> FreshRow(st'.table[x]) && Recents(st', x) == [])
  }

  lemma HandledThenAnswered(row: FullSession, mid: FullSession, s: Sent, recvCounter: u32, now: nat)
    requires Untouched(row, mid) && s.counter == mid.sendCounter
    requires s.header.msgId == MakeMsgId(now, mid.msgIdCounter) && s.header.seqNo == Wrap32(mid.sendSeqNo + 1)
    ensures AnsweredStep(row, AnsweredRow(mid, recvCounter), Some(s), now)
  {
    hide MakeMsgId, Wrap32, Next;
  }

  lemma HandledOnly(row: FullSession, mid: FullSession, now: nat)
    requires Untouched(row, mid)
    ensures AnsweredStep(row, mid, None, now)
  {
    hide MakeMsgId, Wrap32, Next;
  }

  lemma ComposeAnswer(capacity: nat, st: ServerState, mid: ServerState, st': ServerState, id: i64, recvCounter: u32, out: Output, now: nat)
    requires Inv(capacity, st) && id in st.table && HandledStep(capacity, st, mid)
    requires Inv(capacity, st') && RecentsKept(mid, st', id) && Recents(st', id) == Recents(mid, id)
    requires st'.table == mid.table[id := AnsweredRow(mid.table[id], recvCounter)]
    requires out.sent.Some? && out.sent.value.id == id && out.sent.value.counter == mid.table[id].sendCounter
    requires out.sent.value.header.msgId == MakeMsgId(now, mid.table[id].msgIdCounter)
    requires out.sent.value.header.seqNo == Wrap32(mid.table[id].sendSeqNo + 1)
    ensures AnswerStep(capacity, st, st', out, now)
  {
    hide Inv, MakeMsgId, Wrap32, Next, Recents, AnsweredStep, Untouched, AnsweredRow, FreshRow;
    forall x | x in st.table ensures AnsweredStep(st.table[x], st'.table[x], SentTo(out, x), now) {
      if x == id {
        HandledThenAnswered(st.table[id], mid.table[id], out.sent.value, recvCounter, now);
      } else {
        HandledOnly(st.table[x], mid.table[x], now);
      }
    }
    forall x: i64 | x in st.table ensures Recents(st', x) == [] || Recents(st', x) == Recents(st, x) {
      assert Recents(st', x) == [] || Recents(st', x) == Recents(mid, x);
    }
    forall x: i64 | x !in st.table && x in st'.table ensures FreshRow(st'.table[x]) && Recents(st', x) == [] {
      assert x in mid.table && x != id;
    }
  }

  lemma AcceptedKeeps(prims: Primitives, capacity: nat, st: ServerState, id: i64, h: Header, crypto: SessionCrypto, env: Env)
    requires Lawful(prims) && Inv(capacity, st) && id in st.table && NoCollision(st, env.handled)
    requires SameKeys(crypto, Load(id, st.table[id]).crypto) && crypto.sendCounter == st.table[id].sendCounter
    ensures var (st', out) := StepAccepted(prims, capacity, st, id, h, crypto, env);
      AnswerStep(capacity, st, st', out, env.nowReply) && out.receipt == Some((id, Received(h, crypto)))
  {
    hide EncodeBoxed, Respond, ApplyHandled, Inv, AnsweredRow, MakeMsgId, Wrap32;
    HandledSteps(capacity, st, Some(id), env.handled);
    var mid := ApplyHandled(capacity, st, Some(id), env.handled);
    assert Untouched(st.table[id], mid.table[id]);
    var reply := ReplyOf(env.handled);
    if DecodeBoxed(h.body).Got? && reply.Some? {
      var body := EncodeBoxed(reply.value);
      RespondKeeps(prims, capacity, mid, id, crypto, body, env.nowReply, env.noise);
      var (st', out) := StepAccepted(prims, capacity, st, id, h, crypto, env);
      OthersRecents(mid, st', id);
      ComposeAnswer(capacity, st, mid, st', id, crypto.recvCounter, out, env.nowReply);
    }
  }

  lemma ComposeRows(capacity: nat, st: ServerState, mid: ServerState, st': ServerState, id: i64, out: Output, now: nat)
    requires Inv(capacity, st) && Inv(capacity, mid) && id in st.table && RecentsKept(st, mid, id)
    requires AcceptedBy(out, id).Some?
    requires var h := AcceptedBy(out, id).value;
      && mid.table == st.table[id := AcceptedRow(st.table[id], h)]
      && h.msgId > st.table[id].lastMsgId && h.seqNo == Wrap32(st.table[id].recvSeqNo + 1)
      && Recents(mid, id) == Pushed(Recents(st, id), h.msgId)
    requires AnswerStep(capacity, mid, st', out, now)
    ensures StepKept(capacity, st, st', out, now)
  {
    hide Inv, Pushed, Wrap32;
    ComposeRecents(capacity, st, mid, st', id, AcceptedBy(out, id).value, out, now);
    ComposeRowSteps(capacity, st, mid, st', id, AcceptedBy(out, id).value, out, now);
  }

  lemma ComposeRowSteps(capacity: nat, st: ServerState, mid: ServerState, st': ServerState, id: i64, h: Header, out: Output, now: nat)
    requires id in st.table && AcceptedBy(out, id) == Some(h) && AnswerStep(capacity, mid, st', out, now)
    requires mid.table == st.table[id := AcceptedRow(st.table[id], h)]
    requires h.msgId > st.table[id].lastMsgId && h.seqNo == Wrap32(st.table[id].recvSeqNo + 1)
    ensures forall x :: x in st.table ==> x in st'.table && RowStep(st.table[x], st'.table[x], out, x, now)
  {
    hide Inv, Wrap32, MakeMsgId;
  }

  lemma ComposeRecents(capacity: nat, st: ServerState, mid: ServerState, st': ServerState, id: i64, h: Header, out: Output, now: nat)
    requires id in st.table && RecentsKept(st, mid, id) && AnswerStep(capacity, mid, st', out, now)
    requires mid.table == st.table[id := AcceptedRow(st.table[id], h)] && h.msgId > st.table[id].lastMsgId
    requires Recents(mid, id) == Pushed(Recents(st, id), h.msgId)
    ensures forall x :: x in st.table && RecentsBelow(st, x) ==> RecentsBelow(st', x)
  {
    hide Inv, Pushed;
    PushedMembers(Recents(st, id), h.msgId);
    forall x | x in st.table && RecentsBelow(st, x)
      ensures RecentsBelow(st', x)
    {
      assert Recents(st', x) == [] || Recents(st', x) == Recents(mid, x);
      if x != id { assert Recents(mid, x) == [] || Recents(mid, x) == Recents(st, x); }
    }
  }

  /** A rejected frame leaves the table alone, and recent ids of other sessions too. */
  lemma ComposeRejected(capacity: nat, st: ServerState, st': ServerState, id: i64, receipt: Receipt, out: Output, now: nat)
    requires Inv(capacity, st) && Inv(capacity, st') && st'.table == st.table && id in st.table
    requires RecentsKept(st, st', id) && (Remembers(receipt) || Recents(st', id) == Recents(st, id))
    requires !receipt.Received? && out.receipt == Some((id, receipt)) && out.sent.None?
    ensures StepKept(capacity, st, st', out, now)
  {
    forall x | x in st.table && RecentsBelow(st, x) && !(x == id && Remembers(receipt))
      ensures RecentsBelow(st', x)
    {
      assert x != id ==> Recents(st', x) == [] || Recents(st', x) == Recents(st, x);
    }
  }

  lemma SessionKeeps(prims: Primitives, capacity: nat, st: ServerState, id: i64, raw: bytes, env: Env)
    requires Lawful(prims) && Inv(capacity, st) && NoCollision(st, env.handled) && id in st.table
    ensures var (st', out) := StepSession(prims, capacity, st, id, raw, env); StepKept(capacity, st, st', out, env.nowReply)
  {
    hide Examine, EncodeBoxed, Respond;
    GetKeeps(capacity, st, id);
    var (st1, c) := Get(capacity, st, id);
    ReceiveKeeps(prims, capacity, st1, c.value, raw, env.nowCheck);
    var (st2, receipt) := Receive(prims, capacity, st1, c.value, raw, env.nowCheck);
    OthersKeptTwice(st, st1, st2, id);
    OthersRecents(st, st2, id);
    var (st3, out) := StepSession(prims, capacity, st, id, raw, env);
    if receipt.Received? {
      AcceptedKeeps(prims, capacity, st2, id, receipt.header, receipt.crypto, env);
      ComposeRows(capacity, st, st2, st3, id, out, env.nowReply);
    } else {
      ComposeRejected(capacity, st, st2, id, receipt, out, env.nowReply);
    }
  }

  /** One pass of the loop, on any frame and any handler outcome: the invariant is kept, every row moves
      exactly by what was accepted and answered, and sessions created by the pass are fresh. */
  lemma StepKeeps(prims: Primitives, capacity: nat, st: ServerState, raw: bytes, env: Env)
    requires Lawful(prims) && Inv(capacity, st) && NoCollision(st, env.handled)
    ensures var (st', out) := Step(prims, capacity, st, raw, env); StepKept(capacity, st, st', out, env.nowReply)
  {
    var (st1, key) := Classify(capacity, st, raw);
    if |raw| >= 8 && PacketKeyId(raw) != 0 {
      GetKeeps(capacity, st, PacketKeyId(raw));
      RecentsAfterGet(capacity, st, PacketKeyId(raw));
    }
    if key.None? {
      PlainKeeps(capacity, st1, raw, env);
    } else {
      SessionKeeps(prims, capacity, st1, key.value, raw, env);
    }
  }

  lemma RecentsAfterGet(capacity: nat, st: ServerState, id: i64)
    requires Inv(capacity, st)
    ensures var st1 := Get(capacity, st, id).0; forall x :: RecentsBelow(st, x) ==> RecentsBelow(st1, x)
  {
    GetKeeps(capacity, st, id);
    var (st1, c) := Get(capacity, st, id);
    OthersRecents(st, st1, id);
    forall x | RecentsBelow(st, x) ensures RecentsBelow(st1, x) {
      assert x != id ==> Recents(st1, x) == [] || Recents(st1, x) == Recents(st, x);
    }
  }

  /** A saved session is loaded as it was, but for the counters of its crypto context, which are those saved. */
  lemma SavedSessionLoads(id: i64, s: SessionData)
    requires s.authKeyId == id
    ensures RowOf(id, s).authKeyId == id
    ensures Load(id, RowOf(id, s))
         == s.(crypto := s.crypto.(sendCounter := s.sendCounter, recvCounter := s.recvCounter))
  {
  }

  // ---------- verdicts and packets ----------

  /** The cached session a row and its recent ids stand for. */
  function Stored(row: FullSession, recent: seq<i64>): Cached {
    Cached(row.authKeyId, Load(row.authKeyId, row), recent)
  }

  /** Verdicts that differ at most in the receive counter of the crypto context. */
  predicate SameVerdict(a: Receipt, b: Receipt) {
    if a.Received? then b.Received? && a.header == b.header else a == b
  }

  /** The verdict on a session's frame depends on the persisted row and the recent ids alone. */
  lemma VerdictFromRow(prims: Primitives, table: map<i64, FullSession>, c: Cached, raw: bytes, now: nat)
    requires Lawful(prims) && Coherent(table, c) && table[c.id].authKeyId == c.id
    ensures var (a, m), (b, m') := Examine(prims, c, raw, now), Examine(prims, Stored(table[c.id], c.recent), raw, now);
      SameVerdict(a, b) && m == m'
  {
  }

  /** Which session a frame is for: the one its first eight bytes name, when that is known and not zero. */
  predicate Addresses(st: ServerState, raw: bytes, id: i64) {
    |raw| >= 8 && PacketKeyId(raw) == id && id != 0 && id in st.table
  }

  function VerdictOn(prims: Primitives, st: ServerState, raw: bytes, id: i64, now: nat): Receipt
    requires Lawful(prims) && id in st.table
  {
    Examine(prims, Stored(st.table[id], Recents(st, id)), raw, now).0
  }

  /** The output shows the verdict on a frame of session id. */
  predicate Judged(out: Output, id: i64, verdict: Receipt) {
    out.receipt.Some? && out.receipt.value.0 == id && SameVerdict(out.receipt.value.1, verdict)
  }

  lemma StepVerdict(prims: Primitives, capacity: nat, st: ServerState, raw: bytes, env: Env)
    requires Lawful(prims) && Inv(capacity, st)
    ensures var out := Step(prims, capacity, st, raw, env).1;
      && (forall id :: Addresses(st, raw, id) ==> Judged(out, id, VerdictOn(prims, st, raw, id, env.nowCheck)))
      && (forall id :: out.receipt.Some? && out.receipt.value.0 == id ==> Addresses(st, raw, id))
  {
    if |raw| >= 8 && PacketKeyId(raw) != 0 {
      var id := PacketKeyId(raw);
      GetKeeps(capacity, st, id);
      var (st1, c) := Get(capacity, st, id);
      if c.Some? {
        GetKeeps(capacity, st1, id);
        var (st2, c2) := Get(capacity, st1, id);
        VerdictFromRow(prims, st.table, c2.value, raw, env.nowCheck);
        ReceiptShown(prims, capacity, st1, id, raw, env);
      }
    }
  }

  lemma ReceiptShown(prims: Primitives, capacity: nat, st: ServerState, id: i64, raw: bytes, env: Env)
    requires Lawful(prims) && Inv(capacity, st) && id in st.table
    ensures var c := Get(capacity, st, id).1;
      c.Some? && StepSession(prims, capacity, st, id, raw, env).1.receipt
        == Some((id, Examine(prims, c.value, raw, env.nowCheck).0))
  {
    GetKeeps(capacity, st, id);
  }

  /** The packet of an answer: sealed under the server keys of the row, with the answer's own counter. */
  function PacketOf(prims: Primitives, row: FullSession, s: Sent): bytes
    requires Lawful(prims)
  {
    EncodePacket(s.id, Seal(prims, row.serverWriteKey, row.serverMacKey, s.counter, EncodeHeader(s.header), s.noise))
  }

  /** An answer is only ever sent to an accepted frame, and it is sealed under its session's keys. */
  ghost predicate SealedAnswer(prims: Primitives, table: map<i64, FullSession>, out: Output, handled: Handled)
    requires Lawful(prims)
  {
    out.sent.Some? ==>
      var s := out.sent.value;
      && s.id in table && AcceptedBy(out, s.id).Some? && s.packet == PacketOf(prims, table[s.id], s)
      && ReplyOf(handled).Some? && s.header.body == EncodeBoxed(ReplyOf(handled).value)
  }

  lemma AcceptedSeals(prims: Primitives, capacity: nat, st: ServerState, id: i64, h: Header, crypto: SessionCrypto, env: Env)
    requires Lawful(prims) && Inv(capacity, st) && id in st.table && NoCollision(st, env.handled)
    requires SameKeys(crypto, Load(id, st.table[id]).crypto) && crypto.sendCounter == st.table[id].sendCounter
    ensures SealedAnswer(prims, st.table, StepAccepted(prims, capacity, st, id, h, crypto, env).1, env.handled)
  {
    hide EncodeBoxed, Respond, ApplyHandled;
    var reply := ReplyOf(env.handled);
    if DecodeBoxed(h.body).Got? && reply.Some? {
      HandledSteps(capacity, st, Some(id), env.handled);
      var mid := ApplyHandled(capacity, st, Some(id), env.handled);
      assert Untouched(st.table[id], mid.table[id]);
      RespondKeeps(prims, capacity, mid, id, crypto, EncodeBoxed(reply.value), env.nowReply, env.noise);
    }
  }

  lemma StepSeals(prims: Primitives, capacity: nat, st: ServerState, raw: bytes, env: Env)
    requires Lawful(prims) && Inv(capacity, st) && NoCollision(st, env.handled)
    ensures SealedAnswer(prims, st.table, Step(prims, capacity, st, raw, env).1, env.handled)
  {
    var (st1, key) := Classify(capacity, st, raw);
    if key.Some? {
      GetKeeps(capacity, st, key.value);
      SessionSeals(prims, capacity, st1, key.value, raw, env);
    }
  }

  lemma SessionSeals(prims: Primitives, capacity: nat, st: ServerState, id: i64, raw: bytes, env: Env)
    requires Lawful(prims) && Inv(capacity, st) && NoCollision(st, env.handled) && id in st.table
    ensures SealedAnswer(prims, st.table, StepSession(prims, capacity, st, id, raw, env).1, env.handled)
  {
    hide EncodeBoxed, Examine, Respond;
    GetKeeps(capacity, st, id);
    var (st1, c) := Get(capacity, st, id);
    ReceiveKeeps(prims, capacity, st1, c.value, raw, env.nowCheck);
    var (st2, receipt) := Receive(prims, capacity, st1, c.value, raw, env.nowCheck);
    if receipt.Received? {
      AcceptedSeals(prims, capacity, st2, id, receipt.header, receipt.crypto, env);
    }
  }

  function ParsedBody(body: bytes): Option<TlObject> {
    match DecodeBoxed(body)
    case Got(o, _) => Some(o)
    case Bad(_) => None
  }

  /** An accepted frame hands its object, if it parses, to the handler, and is answered exactly when the
      handler answers. */
  predicate HandsOver(out: Output, id: i64, h: Header, handled: Handled) {
    && out.request == ParsedBody(h.body)
    && (out.sent.Some? <==> out.request.Some? && ReplyOf(handled).Some?)
    && (out.sent.Some? ==> out.sent.value.id == id)
  }

  lemma AcceptedHandsOver(prims: Primitives, capacity: nat, st: ServerState, id: i64, h: Header, crypto: SessionCrypto, env: Env)
    requires Lawful(prims)
    ensures HandsOver(StepAccepted(prims, capacity, st, id, h, crypto, env).1, id, h, env.handled)
  {
  }

  lemma StepHandsOver(prims: Primitives, capacity: nat, st: ServerState, raw: bytes, env: Env, id: i64)
    requires Lawful(prims)
    ensures var out := Step(prims, capacity, st, raw, env).1;
      AcceptedBy(out, id).Some? ==> HandsOver(out, id, AcceptedBy(out, id).value, env.handled)
  {
    var (st1, key) := Classify(capacity, st, raw);
    if key.Some? {
      var (st2, c) := Get(capacity, st1, key.value);
      if c.Some? {
        var (st3, receipt) := Receive(prims, capacity, st2, c.value, raw, env.nowCheck);
        if receipt.Received? { AcceptedHandsOver(prims, capacity, st3, key.value, receipt.header, receipt.crypto, env); }
      }
    }
  }
}
