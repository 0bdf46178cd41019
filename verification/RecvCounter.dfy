/** The receive counter of a session: the one its crypto context counts with, and the one its row keeps.
    The context moves with every accepted frame; the row is written from the session's own copy, which only
    an answer brings up to date (kosta-server/src/server.rs). */
module RecvCounter {
  import opened Wrappers
  import opened Bytes
  import opened TlObjects
  import opened Crypto
  import opened MsgId
  import opened ServerModel
  import opened ServerInvariant
  import opened ServerRuns

  predicate InCache(st: ServerState, id: i64) { Find(st.lru, id).Some? }

  /** The counter of the session's context: the cached one, or the row's when it is not cached. */
  function Live(st: ServerState, id: i64): u32
    requires id in st.table
  {
    var c := Find(st.lru, id);
    if c.Some? then c.value.data.crypto.recvCounter else st.table[id].recvCounter
  }

  /** It is what the next frame finds. */
  lemma LiveIsFound(capacity: nat, st: ServerState, id: i64)
    requires Inv(capacity, st) && id in st.table
    ensures var (st', c) := Get(capacity, st, id);
      c.Some? && c.value.data.crypto.recvCounter == Live(st, id)
      && id in st'.table && Live(st', id) == Live(st, id) && InCache(st', id)
  {
    GetKeeps(capacity, st, id);
  }

  // ---------- one frame ----------

  /** How a pass of the loop moves the two counters of a session. */
  ghost predicate CounterStep(st: ServerState, st': ServerState, out: Output, id: i64)
    requires id in st.table
  {
    && id in st'.table
    && if AcceptedBy(out, id).Some? then
         && Live(st', id) == Next(Live(st, id)) && InCache(st', id)
         && st'.table[id].recvCounter == if SentTo(out, id).Some? then Live(st', id) else st.table[id].recvCounter
       else
         st'.table[id].recvCounter == st.table[id].recvCounter && (InCache(st', id) ==> Live(st', id) == Live(st, id))
  }

  lemma ReceiveCounters(prims: Primitives, capacity: nat, st: ServerState, c: Cached, raw: bytes, now: nat)
    requires Lawful(prims) && Inv(capacity, st) && Find(st.lru, c.id) == Some(c)
    ensures var (st', receipt) := Receive(prims, capacity, st, c, raw, now);
      && c.id in st.table && c.id in st'.table && InCache(st', c.id)
      && st'.table[c.id].recvCounter == st.table[c.id].recvCounter
      && Live(st', c.id) == (if receipt.Received? then Next(c.data.crypto.recvCounter) else c.data.crypto.recvCounter)
      && (receipt.Received? ==> receipt.crypto.recvCounter == Next(c.data.crypto.recvCounter))
  {
    FindSound(st.lru, c.id);
    var (receipt, remembered) := Examine(prims, c, raw, now);
    if remembered.Some? {
      PushKeeps(capacity, st, c.id, remembered.value);
      if receipt.Received? {
        PutFinds(capacity, PushRecent(st, c.id, remembered.value).lru,
          Cached(c.id, AfterAccept(c.data, receipt.header, receipt.crypto), Pushed(c.recent, receipt.header.msgId)), c.id);
      }
    }
  }

  /** A handler leaves the counters alone; only a new session can push another one out of the cache. */
  lemma HandledCounters(capacity: nat, st: ServerState, key: Option<i64>, handled: Handled, x: i64)
    requires Inv(capacity, st) && NoCollision(st, handled) && (key.Some? ==> key.value in st.table) && x in st.table
    ensures var st' := ApplyHandled(capacity, st, key, handled);
      && x in st'.table && st'.table[x].recvCounter == st.table[x].recvCounter
      && (InCache(st', x) ==> Live(st', x) == Live(st, x))
      && (key == Some(x) && !handled.Established? && InCache(st, x) ==> InCache(st', x))
      && (key != Some(x) && InCache(st', x) ==> InCache(st, x))
  {
    HandledKeeps(capacity, st, key, handled);
    match handled
    case SignedUp(userId) => if key.Some? { SignUpCounters(capacity, st, key.value, userId, x); }
    case Established(session, _) =>
      UpdateKeeps(capacity, st, session.authKeyId, session, []);
    case _ =>
  }

  lemma SignUpCounters(capacity: nat, st: ServerState, id: i64, userId: i64, x: i64)
    requires Inv(capacity, st) && id in st.table && x in st.table
    ensures var st' := ApplyHandled(capacity, st, Some(id), SignedUp(userId));
      && (x != id ==> Find(st'.lru, x).None? || Find(st'.lru, x) == Find(st.lru, x))
      && (x == id ==> InCache(st', x) && Find(st'.lru, x).value.data.crypto.recvCounter == Live(st, x))
  {
    SignUpKeeps(capacity, st, id, userId);
    var renamed := st.(table := st.table[id := st.table[id].(userId := userId)]);
    FindSound(st.lru, id);
    var (st1, c) := Get(capacity, renamed, id);
    PutFinds(capacity, st1.lru, Cached(id, c.value.data.(userId := userId), c.value.recent), id);
  }

  lemma StoreCounters(capacity: nat, st: ServerState, id: i64, crypto: SessionCrypto)
    requires Inv(capacity, st) && id in st.table
    ensures var st' := StoreCrypto(capacity, st, id, crypto);
      && id in st'.table && InCache(st', id) && Live(st', id) == st'.table[id].recvCounter == crypto.recvCounter
  {
    GetKeeps(capacity, st, id);
    var (st1, c) := Get(capacity, st, id);
    PutFinds(capacity, st1.lru, Cached(id,
      c.value.data.(crypto := crypto, sendCounter := crypto.sendCounter, recvCounter := crypto.recvCounter), c.value.recent), id);
  }

  lemma RespondCounters(prims: Primitives, capacity: nat, st: ServerState, id: i64, crypto: SessionCrypto, body: bytes, now: nat, noise: Noise)
    requires Lawful(prims) && Inv(capacity, st) && id in st.table
    ensures var st' := Respond(prims, capacity, st, id, crypto, body, now, noise).0;
      && id in st'.table && InCache(st', id) && Live(st', id) == st'.table[id].recvCounter == crypto.recvCounter
  {
    hide Inv, Live, TakeNumbers, StoreCrypto, EncodeHeader, EncodePacket, Seal;
    TakeNumbersKeeps(capacity, st, id);
    StoreCounters(capacity, TakeNumbers(capacity, st, id).0, id, crypto.(sendCounter := Next(crypto.sendCounter)));
  }

  /** Handling and answering: an answer writes the context's counter to the row. */
  lemma AcceptedCounters(prims: Primitives, capacity: nat, st: ServerState, id: i64, h: Header, crypto: SessionCrypto, env: Env)
    requires Lawful(prims) && Inv(capacity, st) && id in st.table && InCache(st, id) && NoCollision(st, env.handled)
    requires Live(st, id) == crypto.recvCounter
    ensures var (st', out) := StepAccepted(prims, capacity, st, id, h, crypto, env);
      && id in st'.table && InCache(st', id) && Live(st', id) == crypto.recvCounter
      && st'.table[id].recvCounter == if out.sent.Some? then crypto.recvCounter else st.table[id].recvCounter
  {
    hide Inv, Live, ApplyHandled, Respond, EncodeBoxed;
    HandledKeeps(capacity, st, Some(id), env.handled);
    HandledCounters(capacity, st, Some(id), env.handled, id);
    var mid, reply := ApplyHandled(capacity, st, Some(id), env.handled), ReplyOf(env.handled);
    if DecodeBoxed(h.body).Got? && reply.Some? {
      RespondCounters(prims, capacity, mid, id, crypto, EncodeBoxed(reply.value), env.nowReply, env.noise);
    }
  }

  /** The session a frame is for. */
  lemma SessionCounters(prims: Primitives, capacity: nat, st: ServerState, id: i64, raw: bytes, env: Env)
    requires Lawful(prims) && Inv(capacity, st) && id in st.table && NoCollision(st, env.handled)
    ensures var (st', out) := StepSession(prims, capacity, st, id, raw, env); CounterStep(st, st', out, id)
  {
    LiveIsFound(capacity, st, id);
    GetKeeps(capacity, st, id);
    var (st1, c) := Get(capacity, st, id);
    ReceiveKeeps(prims, capacity, st1, c.value, raw, env.nowCheck);
    ReceiveCounters(prims, capacity, st1, c.value, raw, env.nowCheck);
    hide Inv, Live, Receive, Get, StepAccepted;
    var (st2, receipt) := Receive(prims, capacity, st1, c.value, raw, env.nowCheck);
    if receipt.Received? {
      AcceptedCounters(prims, capacity, st2, id, receipt.header, receipt.crypto, env);
      AcceptedShows(prims, capacity, st2, id, receipt.header, receipt.crypto, env);
    }
  }

  lemma AcceptedShows(prims: Primitives, capacity: nat, st: ServerState, id: i64, h: Header, crypto: SessionCrypto, env: Env)
    requires Lawful(prims)
    ensures var out := StepAccepted(prims, capacity, st, id, h, crypto, env).1;
      AcceptedBy(out, id) == Some(h) && SentTo(out, id) == out.sent && out.receipt == Some((id, Received(h, crypto)))
  {
    hide ApplyHandled, TakeNumbers, StoreCrypto, EncodeBoxed, EncodePacket, EncodeHeader, MakeMsgId;
  }

  // ---------- the other sessions ----------

  /** A session the frame is not for: its counters stay, and it is not loaded. */
  ghost predicate Bystander(st: ServerState, st': ServerState, x: i64)
    requires x in st.table
  {
    && x in st'.table && st'.table[x].recvCounter == st.table[x].recvCounter
    && (InCache(st', x) ==> InCache(st, x) && Live(st', x) == Live(st, x))
  }

  lemma BystanderTwice(st: ServerState, mid: ServerState, st': ServerState, x: i64)
    requires x in st.table && Bystander(st, mid, x) && Bystander(mid, st', x)
    ensures Bystander(st, st', x)
  {
    hide Live, InCache;
  }

  lemma KeptIsBystander(st: ServerState, st': ServerState, id: i64, x: i64)
    requires x in st.table && x != id && OthersKept(st, st', id)
    requires x in st'.table && st'.table[x].recvCounter == st.table[x].recvCounter
    ensures Bystander(st, st', x)
  {
  }

  lemma AcceptedBystander(prims: Primitives, capacity: nat, st: ServerState, id: i64, h: Header, crypto: SessionCrypto, env: Env, x: i64)
    requires Lawful(prims) && Inv(capacity, st) && id in st.table && NoCollision(st, env.handled) && x in st.table && x != id
    requires SameKeys(crypto, Load(id, st.table[id]).crypto) && crypto.sendCounter == st.table[id].sendCounter
    ensures Bystander(st, StepAccepted(prims, capacity, st, id, h, crypto, env).0, x)
  {
    hide Live, InCache, Respond, EncodeBoxed, ApplyHandled, Inv;
    HandledCounters(capacity, st, Some(id), env.handled, x);
    HandledSteps(capacity, st, Some(id), env.handled);
    var mid, reply := ApplyHandled(capacity, st, Some(id), env.handled), ReplyOf(env.handled);
    assert Untouched(st.table[id], mid.table[id]);
    if DecodeBoxed(h.body).Got? && reply.Some? {
      RespondKeeps(prims, capacity, mid, id, crypto, EncodeBoxed(reply.value), env.nowReply, env.noise);
      var st' := Respond(prims, capacity, mid, id, crypto, EncodeBoxed(reply.value), env.nowReply, env.noise).0;
      KeptIsBystander(mid, st', id, x);
      BystanderTwice(st, mid, st', x);
    }
  }

  lemma SessionBystander(prims: Primitives, capacity: nat, st: ServerState, id: i64, raw: bytes, env: Env, x: i64)
    requires Lawful(prims) && Inv(capacity, st) && id in st.table && NoCollision(st, env.handled) && x in st.table && x != id
    ensures Bystander(st, StepSession(prims, capacity, st, id, raw, env).0, x)
  {
    hide Live, InCache, Bystander, StepAccepted, Inv;
    GetKeeps(capacity, st, id);
    var (st1, c) := Get(capacity, st, id);
    ReceiveKeeps(prims, capacity, st1, c.value, raw, env.nowCheck);
    var (st2, receipt) := Receive(prims, capacity, st1, c.value, raw, env.nowCheck);
    KeptIsBystander(st, st1, id, x);
    KeptIsBystander(st1, st2, id, x);
    BystanderTwice(st, st1, st2, x);
    if receipt.Received? {
      AcceptedBystander(prims, capacity, st2, id, receipt.header, receipt.crypto, env, x);
      BystanderTwice(st, st2, StepAccepted(prims, capacity, st2, id, receipt.header, receipt.crypto, env).0, x);
    }
  }

  lemma BystanderSteps(st: ServerState, st': ServerState, out: Output, x: i64)
    requires x in st.table && Bystander(st, st', x) && AcceptedBy(out, x).None?
    ensures CounterStep(st, st', out, x)
  {
  }

  // ---------- the theorems ----------

  /** One pass of the loop, for every session: an accepted frame moves the context's counter by one, and the
      row's follows exactly when the frame is answered; no other frame moves either. */
  lemma StepCounters(prims: Primitives, capacity: nat, st: ServerState, raw: bytes, env: Env, x: i64)
    requires Lawful(prims) && Inv(capacity, st) && NoCollision(st, env.handled) && x in st.table
    ensures var (st', out) := Step(prims, capacity, st, raw, env); CounterStep(st, st', out, x)
  {
    hide Live, InCache, Inv, StepSession, CounterStep, Bystander;
    var (st1, key) := Classify(capacity, st, raw);
    var (st', out) := Step(prims, capacity, st, raw, env);
    if key.None? {
      PlainCounters(capacity, st, raw, env, x);
      if |raw| >= 8 && PacketKeyId(raw) != 0 { GetKeeps(capacity, st, PacketKeyId(raw)); }
    } else if key.value == x {
      GetKeeps(capacity, st, x);
      LiveIsFound(capacity, st, x);
      SessionCounters(prims, capacity, st1, x, raw, env);
      CounterStepFrom(st, st1, st', out, x);
    } else {
      GetKeeps(capacity, st, key.value);
      KeptIsBystander(st, st1, key.value, x);
      SessionBystander(prims, capacity, st1, key.value, raw, env, x);
      BystanderTwice(st, st1, st', x);
      ReceiptShown(prims, capacity, st1, key.value, raw, env);
      BystanderSteps(st, st', out, x);
    }
  }

  lemma CounterStepFrom(st: ServerState, st1: ServerState, st': ServerState, out: Output, x: i64)
    requires x in st.table && st1.table == st.table && Live(st1, x) == Live(st, x) && CounterStep(st1, st', out, x)
    ensures CounterStep(st, st', out, x)
  {
    hide Live;
  }

  lemma PlainCounters(capacity: nat, st: ServerState, raw: bytes, env: Env, x: i64)
    requires Inv(capacity, st) && NoCollision(st, env.handled) && x in st.table
    ensures var (st', out) := StepPlain(capacity, st, raw, env); CounterStep(st, st', out, x)
  {
    hide Live, ApplyHandled, EncodeBoxed;
    HandledCounters(capacity, st, None, env.handled, x);
  }

  /** An accepted frame: the context counts it, and the row is brought up to date exactly when it is answered. */
  lemma AcceptedCounts(prims: Primitives, capacity: nat, st: ServerState, raw: bytes, env: Env, id: i64)
    requires Lawful(prims) && Inv(capacity, st) && NoCollision(st, env.handled) && id in st.table
    requires AcceptedBy(Step(prims, capacity, st, raw, env).1, id).Some?
    ensures var (st', out) := Step(prims, capacity, st, raw, env);
      && id in st'.table && InCache(st', id) && Live(st', id) == Next(Live(st, id))
      && st'.table[id].recvCounter == if out.sent.Some? then Next(Live(st, id)) else st.table[id].recvCounter
  {
    hide Live, InCache, Inv;
    StepCounters(prims, capacity, st, raw, env, id);
    StepHandsOver(prims, capacity, st, raw, env, id);
  }

  /** After an accepted frame the row agrees with the context exactly when the frame was answered, or when the
      row lagged by 2^32 - 1 before it, so that counting wrapped round onto it. */
  lemma AgreesIffAnswered(prims: Primitives, capacity: nat, st: ServerState, raw: bytes, env: Env, id: i64)
    requires Lawful(prims) && Inv(capacity, st) && NoCollision(st, env.handled) && id in st.table
    requires AcceptedBy(Step(prims, capacity, st, raw, env).1, id).Some?
    ensures var (st', out) := Step(prims, capacity, st, raw, env);
      && id in st'.table
      && (st'.table[id].recvCounter == Live(st', id) <==>
            out.sent.Some? || (Live(st, id) - st.table[id].recvCounter) % TWO_32 == TWO_32 - 1)
  {
    hide Step, Live, InCache, Inv, AcceptedBy;
    AcceptedCounts(prims, capacity, st, raw, env, id);
    WrapsOnto(Live(st, id), st.table[id].recvCounter);
  }

  lemma WrapsOnto(live: u32, row: u32)
    ensures row == Next(live) <==> (live - row) % TWO_32 == TWO_32 - 1
  {
  }

  /** The persisted counter lags: after a frame accepted without an answer, whatever the reason, an eviction
      takes the counter back to the row's. */
  lemma RecvCounterLags(prims: Primitives, capacity: nat, st: ServerState, raw: bytes, env: Env, id: i64)
    requires Lawful(prims) && Inv(capacity, st) && NoCollision(st, env.handled) && id in st.table
    requires AcceptedBy(Step(prims, capacity, st, raw, env).1, id).Some? && Step(prims, capacity, st, raw, env).1.sent.None?
    ensures var st' := Step(prims, capacity, st, raw, env).0;
      var evicted := st'.(lru := Remove(st'.lru, id));
      && id in st'.table && Live(st', id) == Next(Live(st, id)) && Live(evicted, id) == st.table[id].recvCounter
  {
    AcceptedCounts(prims, capacity, st, raw, env, id);
    StepKeeps(prims, capacity, st, raw, env);
    hide Step, Inv, AcceptedBy;
    EvictKeeps(capacity, Step(prims, capacity, st, raw, env).0, id);
  }

  // ---------- whole runs ----------

  lemma EventCounters(prims: Primitives, capacity: nat, st: ServerState, event: Event, x: i64)
    requires Lawful(prims) && Inv(capacity, st) && x in st.table
    requires event.FrameIn? ==> NoCollision(st, event.env.handled)
    ensures var (st', out) := StepEvent(prims, capacity, st, event); CounterStep(st, st', out, x)
  {
    match event
    case FrameIn(raw, env) => StepCounters(prims, capacity, st, raw, env, x);
    case Evict(id) => EvictKeeps(capacity, st, id);
  }

  /** No such session yet, or both its counters are zero. */
  ghost predicate AtZero(st: ServerState, x: i64) {
    x in st.table ==> st.table[x].recvCounter == 0 && Live(st, x) == 0
  }

  lemma HandledCreates(capacity: nat, st: ServerState, key: Option<i64>, handled: Handled, x: i64)
    requires Inv(capacity, st) && NoCollision(st, handled) && (key.Some? ==> key.value in st.table) && x !in st.table
    ensures AtZero(ApplyHandled(capacity, st, key, handled), x)
  {
    HandledKeeps(capacity, st, key, handled);
    if handled.Established? {
      UpdateKeeps(capacity, st, handled.session.authKeyId, handled.session, []);
    }
  }

  lemma AcceptedCreates(prims: Primitives, capacity: nat, st: ServerState, id: i64, h: Header, crypto: SessionCrypto, env: Env, x: i64)
    requires Lawful(prims) && Inv(capacity, st) && id in st.table && NoCollision(st, env.handled) && x !in st.table
    requires SameKeys(crypto, Load(id, st.table[id]).crypto) && crypto.sendCounter == st.table[id].sendCounter
    ensures AtZero(StepAccepted(prims, capacity, st, id, h, crypto, env).0, x)
  {
    HandledCreates(capacity, st, Some(id), env.handled, x);
    HandledSteps(capacity, st, Some(id), env.handled);
    var mid, reply := ApplyHandled(capacity, st, Some(id), env.handled), ReplyOf(env.handled);
    assert Untouched(st.table[id], mid.table[id]) && Inv(capacity, mid);
    hide Live, InCache, Respond, EncodeBoxed, ApplyHandled, Inv;
    if DecodeBoxed(h.body).Got? && reply.Some? {
      RespondKeeps(prims, capacity, mid, id, crypto, EncodeBoxed(reply.value), env.nowReply, env.noise);
      var st' := Respond(prims, capacity, mid, id, crypto, EncodeBoxed(reply.value), env.nowReply, env.noise).0;
      if x in mid.table { KeptIsBystander(mid, st', id, x); }
    }
  }

  /** A session that a pass creates starts both counters at zero. */
  lemma CreatedCounters(prims: Primitives, capacity: nat, st: ServerState, raw: bytes, env: Env, x: i64)
    requires Lawful(prims) && Inv(capacity, st) && NoCollision(st, env.handled) && x !in st.table
    ensures AtZero(Step(prims, capacity, st, raw, env).0, x)
  {
    hide Live, InCache, Inv, StepAccepted, ApplyHandled, EncodeBoxed, Receive;
    if |raw| >= 8 && PacketKeyId(raw) != 0 { GetKeeps(capacity, st, PacketKeyId(raw)); }
    var (st1, key) := Classify(capacity, st, raw);
    if key.None? {
      HandledCreates(capacity, st1, None, env.handled, x);
    } else {
      var id := key.value;
      GetKeeps(capacity, st1, id);
      var (st2, c) := Get(capacity, st1, id);
      ReceiveKeeps(prims, capacity, st2, c.value, raw, env.nowCheck);
      var (st3, receipt) := Receive(prims, capacity, st2, c.value, raw, env.nowCheck);
      if receipt.Received? { AcceptedCreates(prims, capacity, st3, id, receipt.header, receipt.crypto, env, x); }
    }
  }

  /** The counter of the context, if there is such a session. */
  function Counted(st: ServerState, id: i64): u32 {
    if id in st.table then Live(st, id) else 0
  }

  /** What the context had counted at the last answer of a run. */
  function AtLastAnswer(prims: Primitives, capacity: nat, events: seq<Event>, id: i64): u32
    requires Lawful(prims)
  {
    if events == [] then 0
    else
      var (st, outs) := Run(prims, capacity, events);
      if SentTo(outs[|events| - 1], id).Some? then Counted(st, id)
      else AtLastAnswer(prims, capacity, events[..|events| - 1], id)
  }

  /** How many frames a session has accepted since its last answer, or since it was last out of the cache. */
  function Unanswered(prims: Primitives, capacity: nat, events: seq<Event>, id: i64): nat
    requires Lawful(prims)
  {
    if events == [] then 0
    else
      var (st, outs) := Run(prims, capacity, events);
      if SentTo(outs[|events| - 1], id).Some? || !InCache(st, id) then 0
      else
        Unanswered(prims, capacity, events[..|events| - 1], id)
        + if AcceptedBy(outs[|events| - 1], id).Some? then 1 else 0
  }

  ghost predicate CountersAre(st: ServerState, id: i64, persisted: u32, lag: nat) {
    if id in st.table then st.table[id].recvCounter == persisted && Live(st, id) == (persisted + lag) % TWO_32
    else persisted == 0 && lag == 0
  }

  lemma CountersMove(st: ServerState, st': ServerState, out: Output, id: i64, persisted: u32, lag: nat)
    requires id in st.table && CounterStep(st, st', out, id) && CountersAre(st, id, persisted, lag)
    requires SentTo(out, id).Some? ==> AcceptedBy(out, id).Some?
    ensures CountersAre(st', id,
      if SentTo(out, id).Some? then Counted(st', id) else persisted,
      if SentTo(out, id).Some? || !InCache(st', id) then 0 else lag + if AcceptedBy(out, id).Some? then 1 else 0)
  {
    NextCounter(persisted + lag);
  }

  lemma SentMeansAccepted(prims: Primitives, capacity: nat, st: ServerState, event: Event, id: i64)
    requires Lawful(prims) && Inv(capacity, st)
    requires event.FrameIn? ==> NoCollision(st, event.env.handled)
    ensures var out := StepEvent(prims, capacity, st, event).1;
      SentTo(out, id).Some? ==> AcceptedBy(out, id).Some?
  {
    if event.FrameIn? { StepSeals(prims, capacity, st, event.raw, event.env); }
  }

  lemma NewSessionCounters(prims: Primitives, capacity: nat, st: ServerState, event: Event, id: i64)
    requires Lawful(prims) && Inv(capacity, st) && id !in st.table
    requires event.FrameIn? ==> NoCollision(st, event.env.handled)
    ensures var (st', out) := StepEvent(prims, capacity, st, event);
      AtZero(st', id) && AcceptedBy(out, id).None? && SentTo(out, id).None? && (InCache(st', id) ==> id in st'.table)
  {
    EventKeeps(prims, capacity, st, event);
    if event.FrameIn? { CreatedCounters(prims, capacity, st, event.raw, event.env, id); }
    FindSound(StepEvent(prims, capacity, st, event).0.lru, id);
  }

  lemma NewCountersAre(st: ServerState, id: i64)
    requires AtZero(st, id)
    ensures CountersAre(st, id, 0, 0)
  {
  }

  /** The two logs of a run, one event further. */
  lemma CounterLogs(prims: Primitives, capacity: nat, before: seq<Event>, last: Event, id: i64)
    requires Lawful(prims)
    ensures var (st', out) := StepEvent(prims, capacity, Run(prims, capacity, before).0, last);
      var events := before + [last];
      && Run(prims, capacity, events).0 == st'
      && AtLastAnswer(prims, capacity, events, id)
           == (if SentTo(out, id).Some? then Counted(st', id) else AtLastAnswer(prims, capacity, before, id))
      && Unanswered(prims, capacity, events, id)
           == (if SentTo(out, id).Some? || !InCache(st', id) then 0
               else Unanswered(prims, capacity, before, id) + if AcceptedBy(out, id).Some? then 1 else 0)
  {
    hide StepEvent, AcceptedBy, SentTo, Live;
    assert (before + [last])[..|before|] == before;
  }

  /** In every run, with any evictions: the row's counter is what the context had counted at the last answer,
      and the context is ahead of it by the frames accepted since then, or since the session was last out of
      the cache. */
  lemma {:induction false} RunCounters(prims: Primitives, capacity: nat, events: seq<Event>, id: i64)
    requires Lawful(prims) && capacity >= 1 && Collisionless(prims, capacity, events)
    ensures var st := Run(prims, capacity, events).0;
      CountersAre(st, id, AtLastAnswer(prims, capacity, events, id), Unanswered(prims, capacity, events, id))
  {
    hide StepEvent, CountersAre, Inv, Logged, NoCollision;
    if events != [] {
      hide AtLastAnswer, Unanswered;
      var before, last := events[..|events| - 1], events[|events| - 1];
      RunCounters(prims, capacity, before, id);
      RunIsLogged(prims, capacity, before, id);
      assert events == before + [last];
      OneMoreEvent(prims, capacity, before, last, id);
    } else {
      NewCountersAre(EMPTY, id);
    }
  }

  lemma OneMoreEvent(prims: Primitives, capacity: nat, before: seq<Event>, last: Event, id: i64)
    requires Lawful(prims) && Inv(capacity, Run(prims, capacity, before).0)
    requires last.FrameIn? ==> NoCollision(Run(prims, capacity, before).0, last.env.handled)
    requires CountersAre(Run(prims, capacity, before).0, id,
      AtLastAnswer(prims, capacity, before, id), Unanswered(prims, capacity, before, id))
    ensures var events := before + [last];
      CountersAre(Run(prims, capacity, events).0, id,
        AtLastAnswer(prims, capacity, events, id), Unanswered(prims, capacity, events, id))
  {
    hide Run, StepEvent, Live, InCache, CountersAre, CounterStep, AcceptedBy, SentTo, AtLastAnswer, Unanswered, Inv, NoCollision;
    var st := Run(prims, capacity, before).0;
    var (st', out) := StepEvent(prims, capacity, st, last);
    CounterLogs(prims, capacity, before, last, id);
    if id in st.table {
      EventCounters(prims, capacity, st, last, id);
      SentMeansAccepted(prims, capacity, st, last, id);
      CountersMove(st, st', out, id, AtLastAnswer(prims, capacity, before, id), Unanswered(prims, capacity, before, id));
    } else {
      NewSessionCounters(prims, capacity, st, last, id);
      NoCounters(st, id, AtLastAnswer(prims, capacity, before, id), Unanswered(prims, capacity, before, id));
      NewCountersAre(st', id);
    }
  }

  lemma NoCounters(st: ServerState, id: i64, persisted: u32, lag: nat)
    requires id !in st.table && CountersAre(st, id, persisted, lag)
    ensures persisted == 0 && lag == 0
  {
  }
}
