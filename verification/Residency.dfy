/** How long a session stays in the server's cache (kosta-server/src/session_cache.rs): until as many other
    sessions have been used as the cache holds, or it is evicted. */
module Residency {
  import opened Wrappers
  import opened Bytes
  import opened TlTypes
  import opened TlObjects
  import opened Crypto
  import opened MsgId
  import opened ServerModel
  import opened ServerInvariant
  import opened ServerRuns
  import opened Recency

  function Ids(lru: seq<Cached>): (r: seq<i64>)
    ensures |r| == |lru|
  {
    seq(|lru|, i requires 0 <= i < |lru| => lru[i].id)
  }

  // ---------- the cache as a list of ids ----------

  lemma {:induction false} IdsRemove(lru: seq<Cached>, id: i64)
    ensures Ids(Remove(lru, id)) == Without(Ids(lru), id)
  {
    if lru != [] {
      IdsRemove(lru[1..], id);
      assert Ids(lru)[1..] == Ids(lru[1..]);
      assert Ids([lru[0]] + Remove(lru[1..], id)) == [lru[0].id] + Ids(Remove(lru[1..], id));
    }
  }

  lemma IdsPut(capacity: nat, lru: seq<Cached>, c: Cached)
    ensures Ids(Put(capacity, lru, c)) == Fronted(capacity, Ids(lru), c.id)
  {
    IdsRemove(lru, c.id);
    assert Ids([c] + Remove(lru, c.id)) == [c.id] + Without(Ids(lru), c.id);
  }

  lemma {:induction false} FoundIsIn(lru: seq<Cached>, id: i64)
    ensures Find(lru, id).Some? <==> id in Ids(lru)
  {
    if lru != [] {
      FoundIsIn(lru[1..], id);
      assert Ids(lru) == [lru[0].id] + Ids(lru[1..]);
    }
  }

  /** Looking a known session up moves it to the front of the list. */
  lemma IdsGet(capacity: nat, st: ServerState, id: i64)
    requires Inv(capacity, st) && id in st.table
    ensures Ids(Get(capacity, st, id).0.lru) == Fronted(capacity, Ids(st.lru), id)
  {
    FoundIsIn(st.lru, id);
    if Find(st.lru, id).Some? {
      var c := Find(st.lru, id).value;
      FindSound(st.lru, id);
      IdsRemove(st.lru, id);
      WithoutShorter(Ids(st.lru), id);
      assert Ids([c] + Remove(st.lru, id)) == [id] + Without(Ids(st.lru), id);
    } else {
      IdsPut(capacity, st.lru, Cached(id, Load(id, st.table[id]), []));
    }
  }

  lemma IdsUpdate(capacity: nat, st: ServerState, id: i64, data: SessionData, recent: seq<i64>)
    ensures Ids(Update(capacity, st, id, data, recent).lru) == Fronted(capacity, Ids(st.lru), id)
  {
    IdsPut(capacity, st.lru, Cached(id, data, recent));
  }

  lemma IdsPushRecent(st: ServerState, id: i64, m: i64)
    ensures Ids(PushRecent(st, id, m).lru) == Ids(st.lru)
  {
  }

  lemma {:induction false} WithoutTwice(ids: seq<i64>, id: i64)
    ensures Without(Without(ids, id), id) == Without(ids, id)
  {
    WithoutMembers(ids, id);
    WithoutAbsent(Without(ids, id), id);
  }

  lemma NotInPrefix(ids: seq<i64>, n: nat, id: i64)
    requires n <= |ids| && id !in ids
    ensures id !in ids[..n]
  {
  }

  /** Using a session twice in a row is using it once. */
  lemma FrontedTwice(capacity: nat, ids: seq<i64>, id: i64)
    requires capacity >= 1
    ensures Fronted(capacity, Fronted(capacity, ids, id), id) == Fronted(capacity, ids, id)
  {
    hide Without;
    var all := [id] + Without(ids, id);
    WithoutMembers(ids, id);
    var once := Fronted(capacity, ids, id);
    assert once[1..] == Without(ids, id)[..|once| - 1];
    assert once == [id] + once[1..];
    assert id !in once[1..] by { NotInPrefix(Without(ids, id), |once| - 1, id); }
    WithoutConcat([id], once[1..], id);
    WithoutOne(id, id);
    WithoutAbsent(once[1..], id);
  }

  // ---------- one pass ----------

  /** The sessions a pass uses: the one the frame is for, the one its handling establishes, and the first again
      when it is answered. */
  function Used(st: ServerState, raw: bytes, env: Env, out: Output): seq<i64> {
    var own := if |raw| >= 8 && Addresses(st, raw, PacketKeyId(raw)) then [PacketKeyId(raw)] else [];
    own + (if out.request.Some? && env.handled.Established? then [env.handled.session.authKeyId] else [])
        + (if out.sent.Some? then own else [])
  }

  lemma UseOne(capacity: nat, ids: seq<i64>, x: i64)
    ensures FrontAll(capacity, ids, [x]) == Fronted(capacity, ids, x)
  {
    assert FrontAll(capacity, Fronted(capacity, ids, x), []) == Fronted(capacity, ids, x);
  }

  lemma {:induction false} UseMore(capacity: nat, ids: seq<i64>, a: seq<i64>, b: seq<i64>)
    ensures FrontAll(capacity, ids, a + b) == FrontAll(capacity, FrontAll(capacity, ids, a), b)
    decreases |a|
  {
    if a == [] {
      assert a + b == b;
    } else {
      assert (a + b)[0] == a[0] && (a + b)[1..] == a[1..] + b;
      UseMore(capacity, Fronted(capacity, ids, a[0]), a[1..], b);
    }
  }

  /** Handling uses the session it establishes, and on sign-up the session of the frame. */
  lemma IdsHandled(capacity: nat, st: ServerState, key: Option<i64>, handled: Handled)
    requires Inv(capacity, st) && NoCollision(st, handled) && (key.Some? ==> key.value in st.table)
    ensures Ids(ApplyHandled(capacity, st, key, handled).lru) ==
      match handled
      case SignedUp(_) => (if key.Some? then Fronted(capacity, Ids(st.lru), key.value) else Ids(st.lru))
      case Established(session, _) => Fronted(capacity, Ids(st.lru), session.authKeyId)
      case _ => Ids(st.lru)
  {
    hide Inv;
    match handled
    case SignedUp(userId) => if key.Some? { IdsSignUp(capacity, st, key.value, userId); }
    case Established(session, _) => IdsUpdate(capacity, st, session.authKeyId, session, []);
    case _ =>
  }

  lemma IdsSignUp(capacity: nat, st: ServerState, id: i64, userId: i64)
    requires Inv(capacity, st) && id in st.table
    ensures Ids(ApplyHandled(capacity, st, Some(id), SignedUp(userId)).lru) == Fronted(capacity, Ids(st.lru), id)
  {
    var st' := st.(table := st.table[id := st.table[id].(userId := userId)]);
    GetIgnoresRows(capacity, st, st', id);
    IdsGet(capacity, st, id);
    CapacityPositive(capacity, st);
    var (st'', c) := Get(capacity, st', id);
    if c.Some? {
      IdsUpdate(capacity, st'', id, c.value.data.(userId := userId), c.value.recent);
      FrontedTwice(capacity, Ids(st.lru), id);
    }
  }

  lemma CapacityPositive(capacity: nat, st: ServerState)
    requires Inv(capacity, st)
    ensures capacity >= 1
  {
  }

  lemma GetIgnoresRows(capacity: nat, st: ServerState, st': ServerState, id: i64)
    requires st.lru == st'.lru && id in st.table && id in st'.table
    ensures Ids(Get(capacity, st', id).0.lru) == Ids(Get(capacity, st, id).0.lru)
  {
    if Find(st.lru, id).None? {
      IdsPut(capacity, st.lru, Cached(id, Load(id, st.table[id]), []));
      IdsPut(capacity, st.lru, Cached(id, Load(id, st'.table[id]), []));
    }
  }

  lemma IdsReceive(prims: Primitives, capacity: nat, st: ServerState, c: Cached, raw: bytes, now: nat)
    requires Lawful(prims)
    ensures var (st', receipt) := Receive(prims, capacity, st, c, raw, now);
      Ids(st'.lru) == if receipt.Received? then Fronted(capacity, Ids(st.lru), c.id) else Ids(st.lru)
  {
    hide Examine, Put, PushRecentIn;
    var (receipt, remembered) := Examine(prims, c, raw, now);
    if remembered.Some? { IdsPushRecent(st, c.id, remembered.value); }
    var st' := if remembered.None? then st else PushRecent(st, c.id, remembered.value);
    if receipt.Received? {
      IdsUpdate(capacity, st', c.id, AfterAccept(c.data, receipt.header, receipt.crypto), Pushed(c.recent, receipt.header.msgId));
    }
  }

  lemma IdsRespond(prims: Primitives, capacity: nat, st: ServerState, id: i64, crypto: SessionCrypto, body: bytes, now: nat, noise: Noise)
    requires Lawful(prims) && Inv(capacity, st) && id in st.table
    ensures Ids(Respond(prims, capacity, st, id, crypto, body, now, noise).0.lru) == Fronted(capacity, Ids(st.lru), id)
  {
    hide Put, Seal, EncodeHeader, MakeMsgId;
    CapacityPositive(capacity, st);
    IdsNumbers(capacity, st, id);
    var st' := TakeNumbers(capacity, st, id).0;
    IdsStore(capacity, st', id, EncryptOutgoingServer(prims, crypto, EncodeHeader(
      Header(MakeMsgId(now, TakeNumbers(capacity, st, id).2), TakeNumbers(capacity, st, id).1, body)), noise).0);
    FrontedTwice(capacity, Ids(st.lru), id);
  }

  lemma IdsNumbers(capacity: nat, st: ServerState, id: i64)
    requires Inv(capacity, st) && id in st.table
    ensures var st' := TakeNumbers(capacity, st, id).0;
      Ids(st'.lru) == Fronted(capacity, Ids(st.lru), id) && Inv(capacity, st') && id in st'.table
  {
    hide Put, Wrap32;
    CapacityPositive(capacity, st);
    IdsGet(capacity, st, id);
    GetKeeps(capacity, st, id);
    var (st', c) := Get(capacity, st, id);
    var data := c.value.data.(sendSeqNo := Wrap32(c.value.data.sendSeqNo + 1), msgIdCounter := Next(c.value.data.msgIdCounter));
    IdsUpdate(capacity, st', id, data, c.value.recent);
    UpdateKeeps(capacity, st', id, data, c.value.recent);
    FrontedTwice(capacity, Ids(st.lru), id);
  }

  lemma IdsStore(capacity: nat, st: ServerState, id: i64, crypto: SessionCrypto)
    requires Inv(capacity, st) && id in st.table
    ensures Ids(StoreCrypto(capacity, st, id, crypto).lru) == Fronted(capacity, Ids(st.lru), id)
  {
    hide Put;
    CapacityPositive(capacity, st);
    IdsGet(capacity, st, id);
    GetKeeps(capacity, st, id);
    var (st', c) := Get(capacity, st, id);
    IdsUpdate(capacity, st', id,
      c.value.data.(crypto := crypto, sendCounter := crypto.sendCounter, recvCounter := crypto.recvCounter), c.value.recent);
    FrontedTwice(capacity, Ids(st.lru), id);
  }

  lemma IdsAccepted(prims: Primitives, capacity: nat, st: ServerState, id: i64, h: Header, crypto: SessionCrypto, env: Env)
    requires Lawful(prims) && Inv(capacity, st) && id in st.table && NoCollision(st, env.handled)
    requires Ids(st.lru) == Fronted(capacity, Ids(st.lru), id)
    ensures var (st', out) := StepAccepted(prims, capacity, st, id, h, crypto, env);
      Ids(st'.lru) == FrontAll(capacity, Ids(st.lru), UsedAfter(id, env, out))
  {
    hide EncodeBoxed, Respond, ApplyHandled, Fronted, FrontAll, Put, Inv;
    var out := StepAccepted(prims, capacity, st, id, h, crypto, env).1;
    CapacityPositive(capacity, st);
    NoUse(capacity, Ids(st.lru));
    if DecodeBoxed(h.body).Got? {
      IdsHandled(capacity, st, Some(id), env.handled);
      HandledSteps(capacity, st, Some(id), env.handled);
      var mid := ApplyHandled(capacity, st, Some(id), env.handled);
      if env.handled.Established? {
        UseOne(capacity, Ids(st.lru), env.handled.session.authKeyId);
        UseTwo(capacity, Ids(st.lru), env.handled.session.authKeyId, id);
      }
      UseOne(capacity, Ids(st.lru), id);
      if ReplyOf(env.handled).Some? {
        IdsRespond(prims, capacity, mid, id, crypto, EncodeBoxed(ReplyOf(env.handled).value), env.nowReply, env.noise);
      }
    }
    UsedAfterIs(id, env, out);
  }

  lemma UsedAfterIs(id: i64, env: Env, out: Output)
    ensures !(out.request.Some? && env.handled.Established?) ==> UsedAfter(id, env, out) == if out.sent.Some? then [id] else []
    ensures out.sent.None? && out.request.Some? && env.handled.Established? ==> UsedAfter(id, env, out) == [env.handled.session.authKeyId]
  {
  }

  /** What is used after the frame's own session. */
  function UsedAfter(id: i64, env: Env, out: Output): seq<i64> {
    (if out.request.Some? && env.handled.Established? then [env.handled.session.authKeyId] else [])
    + (if out.sent.Some? then [id] else [])
  }

  lemma NoUse(capacity: nat, ids: seq<i64>)
    ensures FrontAll(capacity, ids, []) == ids
  {
  }

  lemma UseTwo(capacity: nat, ids: seq<i64>, x: i64, y: i64)
    ensures FrontAll(capacity, ids, [x] + [y]) == Fronted(capacity, Fronted(capacity, ids, x), y)
  {
    UseMore(capacity, ids, [x], [y]);
    UseOne(capacity, ids, x);
    UseOne(capacity, Fronted(capacity, ids, x), y);
  }

  lemma IdsSession(prims: Primitives, capacity: nat, st: ServerState, id: i64, raw: bytes, env: Env)
    requires Lawful(prims) && Inv(capacity, st) && id in st.table && NoCollision(st, env.handled)
    ensures var (st', out) := StepSession(prims, capacity, st, id, raw, env);
      Ids(st'.lru) == FrontAll(capacity, Ids(st.lru), [id] + UsedAfter(id, env, out))
  {
    hide EncodeBoxed, StepAccepted, Fronted, FrontAll, Put, Inv, Examine, Receive;
    CapacityPositive(capacity, st);
    IdsGet(capacity, st, id);
    GetKeeps(capacity, st, id);
    var (st1, c) := Get(capacity, st, id);
    ReceiveKeeps(prims, capacity, st1, c.value, raw, env.nowCheck);
    IdsReceive(prims, capacity, st1, c.value, raw, env.nowCheck);
    var (st2, receipt) := Receive(prims, capacity, st1, c.value, raw, env.nowCheck);
    FrontedTwice(capacity, Ids(st.lru), id);
    UseOne(capacity, Ids(st.lru), id);
    var out := StepSession(prims, capacity, st, id, raw, env).1;
    if receipt.Received? {
      IdsAccepted(prims, capacity, st2, id, receipt.header, receipt.crypto, env);
    } else {
      NoUse(capacity, Ids(st1.lru));
    }
    UsedAfterIs(id, env, out);
    UseMore(capacity, Ids(st.lru), [id], UsedAfter(id, env, out));
  }

  /** One pass of the loop on any frame brings the sessions it uses to the front, one after the other, and drops
      what exceeds the capacity from the other end. */
  lemma StepUses(prims: Primitives, capacity: nat, st: ServerState, raw: bytes, env: Env)
    requires Lawful(prims) && Inv(capacity, st) && NoCollision(st, env.handled)
    ensures var (st', out) := Step(prims, capacity, st, raw, env);
      Ids(st'.lru) == FrontAll(capacity, Ids(st.lru), Used(st, raw, env, out))
  {
    hide EncodeBoxed, StepSession, Fronted, FrontAll, Put, Inv, ApplyHandled;
    CapacityPositive(capacity, st);
    NoUse(capacity, Ids(st.lru));
    var (st', out) := Step(prims, capacity, st, raw, env);
    if |raw| >= 8 && PacketKeyId(raw) != 0 { GetKeeps(capacity, st, PacketKeyId(raw)); }
    if |raw| >= 8 && Addresses(st, raw, PacketKeyId(raw)) {
      var id := PacketKeyId(raw);
      IdsGet(capacity, st, id);
      var st1 := Get(capacity, st, id).0;
      IdsSession(prims, capacity, st1, id, raw, env);
      FrontedTwice(capacity, Ids(st.lru), id);
      UseMore(capacity, Ids(st.lru), [id], UsedAfter(id, env, out));
      UseMore(capacity, Ids(st1.lru), [id], UsedAfter(id, env, out));
      UseOne(capacity, Ids(st.lru), id);
      UseOne(capacity, Ids(st1.lru), id);
      assert Used(st, raw, env, out) == [id] + UsedAfter(id, env, out);
    } else if DecodeBoxed(raw).Got? {
      IdsHandled(capacity, st, None, env.handled);
      if env.handled.Established? {
        UseOne(capacity, Ids(st.lru), env.handled.session.authKeyId);
        assert Used(st, raw, env, out) == [env.handled.session.authKeyId];
      } else {
        assert Used(st, raw, env, out) == [];
      }
    } else {
      assert Used(st, raw, env, out) == [];
    }
  }

  // ---------- over a stretch of frames ----------

  /** The sessions used by frames served one after the other, from this state. */
  function UsedBy(prims: Primitives, capacity: nat, st: ServerState, frames: seq<Arrival>): seq<i64>
    requires Lawful(prims)
    decreases |frames|
  {
    if frames == [] then []
    else
      var (st', out) := Step(prims, capacity, st, frames[0].raw, frames[0].env);
      Used(st, frames[0].raw, frames[0].env, out) + UsedBy(prims, capacity, st', frames[1..])
  }

  function AfterFrames(prims: Primitives, capacity: nat, st: ServerState, frames: seq<Arrival>): ServerState
    requires Lawful(prims)
    decreases |frames|
  {
    if frames == [] then st
    else AfterFrames(prims, capacity, Step(prims, capacity, st, frames[0].raw, frames[0].env).0, frames[1..])
  }

  ghost predicate NoneCollides(prims: Primitives, capacity: nat, st: ServerState, frames: seq<Arrival>)
    requires Lawful(prims)
    decreases |frames|
  {
    frames == [] ||
    (NoCollision(st, frames[0].env.handled)
     && NoneCollides(prims, capacity, Step(prims, capacity, st, frames[0].raw, frames[0].env).0, frames[1..]))
  }

  lemma {:induction false} FramesUse(prims: Primitives, capacity: nat, st: ServerState, frames: seq<Arrival>)
    requires Lawful(prims) && Inv(capacity, st) && NoneCollides(prims, capacity, st, frames)
    ensures Ids(AfterFrames(prims, capacity, st, frames).lru) == FrontAll(capacity, Ids(st.lru), UsedBy(prims, capacity, st, frames))
    decreases |frames|
  {
    hide Step, Inv, FrontAll, NoCollision, Used;
    NoUse(capacity, Ids(st.lru));
    if frames != [] {
      var raw, env := frames[0].raw, frames[0].env;
      var (st', out) := Step(prims, capacity, st, raw, env);
      StepUses(prims, capacity, st, raw, env);
      StepKeeps(prims, capacity, st, raw, env);
      FramesUse(prims, capacity, st', frames[1..]);
      UseMore(capacity, Ids(st.lru), Used(st, raw, env, out), UsedBy(prims, capacity, st', frames[1..]));
    }
  }

  /** A session that was just used, and is not used by the frames that follow, is still in the cache after them
      if and only if they use fewer other sessions than the cache holds. */
  lemma CachedIffFewOthers(prims: Primitives, capacity: nat, st: ServerState, id: i64, frames: seq<Arrival>)
    requires Lawful(prims) && Inv(capacity, st) && NoneCollides(prims, capacity, st, frames)
    requires st.lru != [] && st.lru[0].id == id && id !in UsedBy(prims, capacity, st, frames)
    ensures Find(AfterFrames(prims, capacity, st, frames).lru, id).Some?
       <==> |Elements(UsedBy(prims, capacity, st, frames))| < capacity
  {
    hide UsedBy, AfterFrames, NoneCollides, FrontAll, Fronted;
    CapacityPositive(capacity, st);
    FramesUse(prims, capacity, st, frames);
    FrontStays(capacity, st, id);
    KeptIffFewOthers(capacity, Ids(st.lru), id, UsedBy(prims, capacity, st, frames));
    FoundIsIn(AfterFrames(prims, capacity, st, frames).lru, id);
  }

  lemma FrontStays(capacity: nat, st: ServerState, id: i64)
    requires Inv(capacity, st) && st.lru != [] && st.lru[0].id == id
    ensures Fronted(capacity, Ids(st.lru), id) == Ids(st.lru)
  {
    var rest := Ids(st.lru)[1..];
    assert Ids(st.lru) == [id] + rest;
    assert id !in rest by {
      forall i | 0 <= i < |rest| ensures rest[i] != id { assert rest[i] == st.lru[i + 1].id; }
    }
    WithoutConcat([id], rest, id);
    WithoutOne(id, id);
    WithoutAbsent(rest, id);
  }
}
