/** Client and server in lockstep: over channels that lose nothing, with clocks that agree, every object
    sent is handled exactly once and in order, and so is every answer. */
module Lockstep {
  import opened Wrappers
  import opened Arithmetic
  import opened Bytes
  import opened TlTypes
  import opened TlObjects
  import opened Crypto
  import opened MsgId
  import opened ServerModel
  import opened ServerInvariant
  import opened ServerRuns
  import opened ClientModel
  import opened EndToEnd

  /** Within the epoch the signed low 32 bits of the clock are positive and grow with it. */
  predicate InEpoch(epoch: nat, ms: nat) {
    epoch * TWO_32 + 1 <= ms < epoch * TWO_32 + TWO_31
  }

  predicate Near(sentAt: nat, now: nat) { sentAt - MAX_SKEW_MS <= now <= sentAt + MAX_SKEW_MS }

  function LastSentAt(ch: Channel): nat {
    if ch.flights == [] then 0 else ch.flights[|ch.flights| - 1].sentAt
  }

  /** Nothing is lost, each end's sending clock does not run backwards, skew and delay together stay within
      30 seconds, objects fit the wire format, and there are at most 2^32 messages each way. */
  ghost predicate Timely(prims: Primitives, epoch: nat, id: i64, w: World, a: Action)
    requires Lawful(prims)
  {
    && Admissible(prims, id, w, a)
    && match a
       case ClientSends(o, now, _) => InEpoch(epoch, now) && LastSentAt(w.up) <= now && EncodableObject(o)
       case ServerTakes(env) =>
         Waiting(w.up) ==>
           && InEpoch(epoch, env.nowCheck) && Near(Head(w.up).sentAt, env.nowCheck)
           && InEpoch(epoch, env.nowReply) && LastSentAt(w.down) <= env.nowReply
           && |w.down.flights| < TWO_32
           && (ReplyOf(env.handled).Some? ==> EncodableObject(ReplyOf(env.handled).value))
       case ClientTakes(now) => Waiting(w.down) ==> InEpoch(epoch, now) && Near(Head(w.down).sentAt, now)
       case RequestLost => false
       case AnswerLost => false
       case Elsewhere(_) => true
  }

  ghost predicate AllTimely(prims: Primitives, capacity: nat, epoch: nat, id: i64, w: World, actions: seq<Action>)
    requires Lawful(prims)
    decreases |actions|
  {
    actions == [] ||
    (Timely(prims, epoch, id, w, actions[0])
     && AllTimely(prims, capacity, epoch, id, Act(prims, capacity, id, w, actions[0]), actions[1..]))
  }

  // ---------- channels ----------

  ghost predicate Punctual(epoch: nat, ch: Channel) {
    && |ch.flights| <= TWO_32
    && (forall k :: 0 <= k < |ch.flights| ==> InEpoch(epoch, ch.flights[k].sentAt) && EncodableObject(ch.flights[k].what))
    && (forall j, k :: 0 <= j < k < |ch.flights| ==> ch.flights[j].sentAt <= ch.flights[k].sentAt)
  }

  /** The message id of the last flight taken. */
  function LastTaken(ch: Channel): i64
    requires ch.taken <= |ch.flights|
  {
    if ch.taken == 0 then 0 else HeaderOf(ch.flights[ch.taken - 1], ch.taken - 1).msgId
  }

  function Objects(flights: seq<Flight>): seq<TlObject> {
    seq(|flights|, i requires 0 <= i < |flights| => flights[i].what)
  }

  lemma PunctualPush(epoch: nat, ch: Channel, f: Flight)
    requires Punctual(epoch, ch) && |ch.flights| < TWO_32
    requires InEpoch(epoch, f.sentAt) && LastSentAt(ch) <= f.sentAt && EncodableObject(f.what)
    ensures Punctual(epoch, Push(ch, f))
  {
    var all := Push(ch, f).flights;
    forall j, k | 0 <= j < k < |all| ensures all[j].sentAt <= all[k].sentAt {
      if k == |ch.flights| && j < k - 1 { assert ch.flights[j].sentAt <= ch.flights[k - 1].sentAt; }
    }
  }

  lemma EpochClock(epoch: nat, ms: nat)
    requires InEpoch(epoch, ms)
    ensures Wrap32(ms) == ms - epoch * TWO_32
  {
    Wrap32Is(ms);
    DivModUnique(ms, TWO_32, epoch, ms - epoch * TWO_32);
  }

  lemma InTime(epoch: nat, sent: nat, now: nat, k: u32)
    requires InEpoch(epoch, sent) && InEpoch(epoch, now) && Near(sent, now)
    ensures MakeMsgId(sent, k) > 0 && DiffMs(MakeMsgId(sent, k), now) <= MAX_SKEW_MS
  {
    EpochClock(epoch, sent);
    EpochClock(epoch, now);
    MsgIdIs(sent, k);
    DiffIsClockDistance(sent, k, now);
  }

  lemma LaterId(epoch: nat, before: nat, sent: nat, j: u32, k: u32)
    requires InEpoch(epoch, before) && InEpoch(epoch, sent) && before <= sent && j < k
    ensures MakeMsgId(before, j) < MakeMsgId(sent, k)
  {
    EpochClock(epoch, before);
    EpochClock(epoch, sent);
    MsgIdOrder(before, j, sent, k);
  }

  lemma FlightId(f: Flight, k: u32)
    ensures HeaderOf(f, k).msgId == MakeMsgId(f.sentAt, k)
  {
    assert k % TWO_32 == k;
  }

  /** The next flight passes the order check and the age check. */
  lemma HeadInTime(epoch: nat, ch: Channel, now: nat)
    requires Punctual(epoch, ch) && Waiting(ch) && InEpoch(epoch, now) && Near(Head(ch).sentAt, now)
    ensures HeaderOf(Head(ch), ch.taken).msgId > LastTaken(ch)
    ensures DiffMs(HeaderOf(Head(ch), ch.taken).msgId, now) <= MAX_SKEW_MS
  {
    hide MakeMsgId, DiffMs, EncodeBoxed, Wrap32;
    FlightId(Head(ch), ch.taken);
    InTime(epoch, Head(ch).sentAt, now, ch.taken);
    HeadIsLater(epoch, ch);
  }

  lemma HeadIsLater(epoch: nat, ch: Channel)
    requires Punctual(epoch, ch) && Waiting(ch)
    ensures ch.taken > 0 ==> HeaderOf(Head(ch), ch.taken).msgId > HeaderOf(ch.flights[ch.taken - 1], ch.taken - 1).msgId
  {
    if ch.taken > 0 {
      var f := ch.flights[ch.taken - 1];
      FlightId(Head(ch), ch.taken);
      FlightId(f, ch.taken - 1);
      LaterId(epoch, f.sentAt, Head(ch).sentAt, ch.taken - 1, ch.taken);
    }
  }

  lemma ObjectsSnoc(flights: seq<Flight>, n: nat)
    requires n < |flights|
    ensures Objects(flights[..n + 1]) == Objects(flights[..n]) + [flights[n].what]
  {
  }

  lemma ObjectsPush(ch: Channel, f: Flight)
    requires ch.taken <= |ch.flights|
    ensures Objects(Push(ch, f).flights) == Objects(ch.flights) + [f.what]
    ensures Push(ch, f).flights[..ch.taken] == ch.flights[..ch.taken]
    ensures LastTaken(Push(ch, f)) == LastTaken(ch)
  {
  }

  // ---------- the invariant ----------

  /** The server has taken exactly what the client sent, as far as it has come. */
  ghost predicate Upward(epoch: nat, id: i64, w: World) {
    && Punctual(epoch, w.up) && w.up.taken <= |w.up.flights| && |w.accepted| == w.up.taken
    && RecentsBelow(w.server, id) && w.server.table[id].lastMsgId == LastTaken(w.up)
    && w.handled == Objects(w.up.flights[..w.up.taken])
  }

  /** The client has taken exactly what the server answered, as far as it has come. */
  ghost predicate Downward(prims: Primitives, epoch: nat, id: i64, keys: SessionCrypto, client: ClientState, row: FullSession, down: Channel)
    requires Lawful(prims)
  {
    && Flow(prims, keys.serverWriteKey, keys.serverMacKey, id, down) && Punctual(epoch, down)
    && row.sendSeqNo == Wrap32(|down.flights| - 1) && row.msgIdCounter == |down.flights| % TWO_32
    && client.recvSeqNo == Wrap32(down.taken - 1) && client.recvLastMsgId == LastTaken(down)
  }

  ghost predicate AnswersLogged(w: World) {
    && w.down.taken <= |w.down.flights|
    && w.answered == Objects(w.down.flights) && w.returned == Objects(w.down.flights[..w.down.taken])
  }

  ghost predicate InStep(prims: Primitives, capacity: nat, epoch: nat, id: i64, keys: SessionCrypto, w: World)
    requires Lawful(prims)
  {
    && Base(prims, capacity, id, keys, w) && Upward(epoch, id, w)
    && Downward(prims, epoch, id, keys, w.client, w.server.table[id], w.down) && AnswersLogged(w)
  }

  // ---------- a request is sent ----------

  lemma PushedInStep(prims: Primitives, capacity: nat, epoch: nat, id: i64, keys: SessionCrypto, w: World, client: ClientState, f: Flight)
    requires Lawful(prims) && InStep(prims, capacity, epoch, id, keys, w) && |w.up.flights| < TWO_32
    requires InEpoch(epoch, f.sentAt) && LastSentAt(w.up) <= f.sentAt && EncodableObject(f.what)
    requires client.recvSeqNo == w.client.recvSeqNo && client.recvLastMsgId == w.client.recvLastMsgId
    requires Base(prims, capacity, id, keys, w.(client := client, up := Push(w.up, f)))
    ensures InStep(prims, capacity, epoch, id, keys, w.(client := client, up := Push(w.up, f)))
  {
    hide HeaderOf, SealedAs, Inv, EncodableObject;
    assert Punctual(epoch, Push(w.up, f)) by { PunctualPush(epoch, w.up, f); }
    ObjectsPush(w.up, f);
  }

  lemma SendInStep(prims: Primitives, capacity: nat, epoch: nat, id: i64, keys: SessionCrypto, w: World, o: TlObject, now: nat, noise: Noise)
    requires Lawful(prims) && InStep(prims, capacity, epoch, id, keys, w)
    requires Timely(prims, epoch, id, w, ClientSends(o, now, noise))
    ensures InStep(prims, capacity, epoch, id, keys, Sends(prims, w, o, now, noise))
  {
    hide HeaderOf, SealedAs, Inv, EncodableObject;
    SendKeepsBase(prims, capacity, id, keys, w, o, now, noise);
    SendNumbers(prims, w.client, o, now, noise, |w.up.flights|);
    var (client, raw) := ClientSend(prims, w.client, o, now, noise);
    PushedInStep(prims, capacity, epoch, id, keys, w, client, Flight(raw, o, now));
  }

  // ---------- the server takes a request ----------

  /** The oldest request fits the row: a later id, in time, with the next number, not seen before. */
  ghost predicate Fits(st: ServerState, id: i64, h: Header, now: nat)
    requires id in st.table
  {
    var row := st.table[id];
    h.msgId > row.lastMsgId && h.msgId !in Recents(st, id)
    && h.seqNo == Wrap32(row.recvSeqNo + 1) && DiffMs(h.msgId, now) <= MAX_SKEW_MS
  }

  lemma HeadFits(prims: Primitives, capacity: nat, epoch: nat, id: i64, keys: SessionCrypto, w: World, now: nat)
    requires Lawful(prims) && Base(prims, capacity, id, keys, w) && Upward(epoch, id, w) && Waiting(w.up)
    requires InEpoch(epoch, now) && Near(Head(w.up).sentAt, now)
    ensures Fits(w.server, id, HeaderOf(Head(w.up), w.up.taken), now)
  {
    hide MakeMsgId, DiffMs, SealedAs, EncodeBoxed, Inv, Flow;
    HeadInTime(epoch, w.up, now);
    WrapStep(w.up.taken);
  }

  lemma FittingIsReceived(prims: Primitives, st: ServerState, raw: bytes, id: i64, h: Header, now: nat)
    requires Lawful(prims) && id in st.table && st.table[id].authKeyId == id && Fits(st, id, h, now)
    requires var u := Unseal(prims, Load(id, st.table[id]).crypto, raw); u.Clear? && u.header == h
    ensures VerdictOn(prims, st, raw, id, now).Received?
  {
    hide Unseal, VerdictOn, DiffMs, Wrap32, Recents;
    ClearVerdict(prims, st, raw, id, now, h);
  }

  lemma HeadVerdict(prims: Primitives, capacity: nat, epoch: nat, id: i64, keys: SessionCrypto, w: World, now: nat)
    requires Lawful(prims) && Base(prims, capacity, id, keys, w) && Upward(epoch, id, w) && Waiting(w.up)
    requires InEpoch(epoch, now) && Near(Head(w.up).sentAt, now)
    ensures VerdictOn(prims, w.server, Head(w.up).raw, id, now).Received?
  {
    hide Upward, Flow, HeaderOf, Unseal, VerdictOn, Fits, Load, Wrap32;
    HeadIsClear(prims, capacity, id, keys, w);
    HeadFits(prims, capacity, epoch, id, keys, w, now);
    FittingIsReceived(prims, w.server, Head(w.up).raw, id, HeaderOf(Head(w.up), w.up.taken), now);
  }

  lemma BodyParses(o: TlObject)
    requires EncodableObject(o)
    ensures ParsedBody(EncodeBoxed(o)) == Some(o) && Parse(EncodeBoxed(o)) == Ok(o)
  {
    DecodeEncodedObject(o, []);
    assert EncodeBoxed(o) + [] == EncodeBoxed(o);
  }

  /** The head of the channel is accepted, handed to the handler, and answered if the handler answers. */
  lemma HeadAccepted(prims: Primitives, capacity: nat, epoch: nat, id: i64, keys: SessionCrypto, w: World, env: Env)
    requires Lawful(prims) && Base(prims, capacity, id, keys, w) && Upward(epoch, id, w) && Waiting(w.up)
    requires InEpoch(epoch, env.nowCheck) && Near(Head(w.up).sentAt, env.nowCheck)
    ensures var out := Step(prims, capacity, w.server, Head(w.up).raw, env).1;
      && AcceptedBy(out, id) == Some(HeaderOf(Head(w.up), w.up.taken))
      && out.request == Some(Head(w.up).what)
      && (out.sent.Some? <==> ReplyOf(env.handled).Some?) && SentTo(out, id) == out.sent
  {
    HeadVerdict(prims, capacity, epoch, id, keys, w, env.nowCheck);
    HeadIsJudged(prims, capacity, id, keys, w, env);
    StepHandsOver(prims, capacity, w.server, Head(w.up).raw, env, id);
    BodyParses(Head(w.up).what);
  }

  lemma TakenUpward(epoch: nat, id: i64, w: World, server: ServerState, out: Output, env: Env)
    requires Upward(epoch, id, w) && id in w.server.table && Waiting(w.up)
    requires id in server.table && RowStep(w.server.table[id], server.table[id], out, id, env.nowReply)
    requires AcceptedBy(out, id) == Some(HeaderOf(Head(w.up), w.up.taken)) && out.request == Some(Head(w.up).what)
    requires RecentsBelow(server, id)
    ensures Upward(epoch, id, Taken(id, w, server, out, env))
  {
    ObjectsSnoc(w.up.flights, w.up.taken);
  }

  /** The answer in flight carries the next number of the way down. */
  lemma AnswerSealed(prims: Primitives, id: i64, row: FullSession, row': FullSession, s: Sent, n: nat, reply: TlObject, now: nat)
    requires Lawful(prims) && s.id == id && SendStep(row, row', Some(s), now)
    requires row.sendSeqNo == Wrap32(n - 1) && row.msgIdCounter == n % TWO_32
    requires s.packet == PacketOf(prims, row, s) && s.header.body == EncodeBoxed(reply)
    ensures SealedAs(prims, row.serverWriteKey, row.serverMacKey, id, s.packet, HeaderOf(Flight(s.packet, reply, now), n))
  {
    SealOpens(prims, row.serverWriteKey, row.serverMacKey, id, s.counter, s.header, s.noise);
    WrapStep(n);
    assert s.header == HeaderOf(Flight(s.packet, reply, now), n);
  }

  lemma AnswerCounts(row: FullSession, row': FullSession, s: Sent, n: nat, now: nat)
    requires SendStep(row, row', Some(s), now) && row.sendSeqNo == Wrap32(n - 1) && row.msgIdCounter == n % TWO_32
    ensures row'.sendSeqNo == Wrap32(n) && row'.msgIdCounter == (n + 1) % TWO_32
  {
    WrapStep(n);
    NextCounter(n);
  }

  lemma DownwardPush(prims: Primitives, epoch: nat, id: i64, keys: SessionCrypto, client: ClientState, row: FullSession, row': FullSession, down: Channel, f: Flight)
    requires Lawful(prims) && Downward(prims, epoch, id, keys, client, row, down) && |down.flights| < TWO_32
    requires SealedAs(prims, keys.serverWriteKey, keys.serverMacKey, id, f.raw, HeaderOf(f, |down.flights|))
    requires row'.sendSeqNo == Wrap32(|Push(down, f).flights| - 1) && row'.msgIdCounter == |Push(down, f).flights| % TWO_32
    requires InEpoch(epoch, f.sentAt) && LastSentAt(down) <= f.sentAt && EncodableObject(f.what)
    ensures Downward(prims, epoch, id, keys, client, row', Push(down, f))
  {
    hide HeaderOf, SealedAs, Inv, EncodableObject;
    assert Flow(prims, keys.serverWriteKey, keys.serverMacKey, id, Push(down, f)) by {
      FlowPush(prims, keys.serverWriteKey, keys.serverMacKey, id, down, f);
    }
    assert Punctual(epoch, Push(down, f)) by { PunctualPush(epoch, down, f); }
    assert LastTaken(Push(down, f)) == LastTaken(down) by { ObjectsPush(down, f); }
  }

  lemma TakenDownward(prims: Primitives, epoch: nat, id: i64, keys: SessionCrypto, w: World, server: ServerState, out: Output, env: Env)
    requires Lawful(prims) && id in w.server.table && id in server.table
    requires Downward(prims, epoch, id, keys, w.client, w.server.table[id], w.down) && AnswersLogged(w) && |w.down.flights| < TWO_32
    requires SameKeys(Load(id, w.server.table[id]).crypto, keys)
    requires RowStep(w.server.table[id], server.table[id], out, id, env.nowReply)
    requires out.request.Some? && (out.sent.Some? <==> ReplyOf(env.handled).Some?) && SentTo(out, id) == out.sent
    requires SealedAnswer(prims, w.server.table, out, env.handled)
    requires out.sent.Some? ==>
      && InEpoch(epoch, env.nowReply) && LastSentAt(w.down) <= env.nowReply && EncodableObject(ReplyOf(env.handled).value)
    ensures var w' := Taken(id, w, server, out, env);
      Downward(prims, epoch, id, keys, w'.client, server.table[id], w'.down) && AnswersLogged(w')
  {
    hide HeaderOf, SealedAs, Inv, EncodableObject, EncodeBoxed, PacketOf, Wrap32, MakeMsgId;
    var row, row' := w.server.table[id], server.table[id];
    if out.sent.Some? {
      var s, reply := out.sent.value, ReplyOf(env.handled).value;
      var f := Flight(s.packet, reply, env.nowReply);
      AnswerSealed(prims, id, row, row', s, |w.down.flights|, reply, env.nowReply);
      AnswerCounts(row, row', s, |w.down.flights|, env.nowReply);
      DownwardPush(prims, epoch, id, keys, w.client, row, row', w.down, f);
      ObjectsPush(w.down, f);
    }
  }

  lemma TakenInStep(prims: Primitives, capacity: nat, epoch: nat, id: i64, keys: SessionCrypto, w: World, server: ServerState, out: Output, env: Env)
    requires Lawful(prims) && InStep(prims, capacity, epoch, id, keys, w) && Waiting(w.up)
    requires Timely(prims, epoch, id, w, ServerTakes(env))
    requires id in server.table && RowStep(w.server.table[id], server.table[id], out, id, env.nowReply)
    requires RecentsBelow(server, id) && SealedAnswer(prims, w.server.table, out, env.handled)
    requires AcceptedBy(out, id) == Some(HeaderOf(Head(w.up), w.up.taken)) && out.request == Some(Head(w.up).what)
    requires (out.sent.Some? <==> ReplyOf(env.handled).Some?) && SentTo(out, id) == out.sent
    requires Base(prims, capacity, id, keys, Taken(id, w, server, out, env))
    ensures InStep(prims, capacity, epoch, id, keys, Taken(id, w, server, out, env))
  {
    TakenUpward(epoch, id, w, server, out, env);
    TakenDownward(prims, epoch, id, keys, w, server, out, env);
  }

  lemma TakeInStep(prims: Primitives, capacity: nat, epoch: nat, id: i64, keys: SessionCrypto, w: World, env: Env)
    requires Lawful(prims) && InStep(prims, capacity, epoch, id, keys, w) && Waiting(w.up)
    requires Timely(prims, epoch, id, w, ServerTakes(env))
    ensures InStep(prims, capacity, epoch, id, keys, Takes(prims, capacity, id, w, env))
  {
    hide Wrap32, MakeMsgId, Step;
    TakeKeepsBase(prims, capacity, id, keys, w, env);
    HeadAccepted(prims, capacity, epoch, id, keys, w, env);
    HeadMoves(prims, capacity, id, keys, w, env);
    var (server, out) := Step(prims, capacity, w.server, Head(w.up).raw, env);
    TakenInStep(prims, capacity, epoch, id, keys, w, server, out, env);
  }

  lemma HeadMoves(prims: Primitives, capacity: nat, id: i64, keys: SessionCrypto, w: World, env: Env)
    requires Lawful(prims) && Base(prims, capacity, id, keys, w) && Waiting(w.up)
    requires NoCollision(w.server, env.handled) && RecentsBelow(w.server, id)
    ensures var (server, out) := Step(prims, capacity, w.server, Head(w.up).raw, env);
      && id in server.table && RowStep(w.server.table[id], server.table[id], out, id, env.nowReply)
      && SealedAnswer(prims, w.server.table, out, env.handled)
      && (AcceptedBy(out, id).Some? ==> RecentsBelow(server, id))
  {
    StepKeeps(prims, capacity, w.server, Head(w.up).raw, env);
    StepSeals(prims, capacity, w.server, Head(w.up).raw, env);
  }

  // ---------- the client takes an answer ----------

  /** A packet that passes every check is returned as the object it carries. */
  lemma RecvReturns(prims: Primitives, c: ClientState, raw: bytes, now: nat, h: Header, o: TlObject)
    requires Lawful(prims) && c.crypto.Some? && EncodableObject(o) && h.body == EncodeBoxed(o)
    requires SealedAs(prims, c.crypto.value.serverWriteKey, c.crypto.value.serverMacKey, KeyIdOf(c), raw, h)
    requires h.msgId > c.recvLastMsgId && h.seqNo == Wrap32(c.recvSeqNo + 1) && DiffMs(h.msgId, now) <= MAX_SKEW_MS
    ensures var (c', r) := ClientRecv(prims, c, raw, now);
      r == Ok(o) && c'.recvLastMsgId == h.msgId && c'.recvSeqNo == h.seqNo
  {
    hide EncodeBoxed, DiffMs, Parse, ClientRecv, SealedAs, Wrap32;
    RecvSealed(prims, c, raw, now, h);
    BodyParses(o);
  }

  lemma ReturnDownward(prims: Primitives, epoch: nat, id: i64, keys: SessionCrypto, c: ClientState, row: FullSession, down: Channel, now: nat)
    requires Lawful(prims) && Downward(prims, epoch, id, keys, c, row, down) && Waiting(down)
    requires c.crypto.Some? && KeyIdOf(c) == id && SameKeys(c.crypto.value, keys)
    requires InEpoch(epoch, now) && Near(Head(down).sentAt, now)
    ensures var (c', r) := ClientRecv(prims, c, Head(down).raw, now);
      r == Ok(Head(down).what) && Downward(prims, epoch, id, keys, c', row, Pop(down))
  {
    var h := HeaderOf(Head(down), down.taken);
    HeadIsNext(prims, epoch, id, keys, c, row, down, now);
    RecvReturns(prims, c, Head(down).raw, now, h, Head(down).what);
    PoppedDownward(prims, epoch, id, keys, c, ClientRecv(prims, c, Head(down).raw, now).0, row, down);
  }

  lemma HeadIsNext(prims: Primitives, epoch: nat, id: i64, keys: SessionCrypto, c: ClientState, row: FullSession, down: Channel, now: nat)
    requires Lawful(prims) && Downward(prims, epoch, id, keys, c, row, down) && Waiting(down)
    requires InEpoch(epoch, now) && Near(Head(down).sentAt, now)
    ensures var h := HeaderOf(Head(down), down.taken);
      h.msgId > c.recvLastMsgId && DiffMs(h.msgId, now) <= MAX_SKEW_MS && h.seqNo == Wrap32(c.recvSeqNo + 1)
  {
    hide Flow, EncodableObject, EncodeBoxed, MakeMsgId, DiffMs, InEpoch;
    HeadInTime(epoch, down, now);
    WrapStep(down.taken);
  }

  lemma PoppedDownward(prims: Primitives, epoch: nat, id: i64, keys: SessionCrypto, c: ClientState, c': ClientState, row: FullSession, down: Channel)
    requires Lawful(prims) && Downward(prims, epoch, id, keys, c, row, down) && Waiting(down)
    requires c'.recvLastMsgId == HeaderOf(Head(down), down.taken).msgId && c'.recvSeqNo == Wrap32(down.taken)
    ensures Downward(prims, epoch, id, keys, c', row, Pop(down))
  {
    hide SealedAs, EncodableObject, EncodeBoxed, MakeMsgId;
  }

  lemma ReturnInStep(prims: Primitives, capacity: nat, epoch: nat, id: i64, keys: SessionCrypto, w: World, now: nat)
    requires Lawful(prims) && InStep(prims, capacity, epoch, id, keys, w) && Waiting(w.down)
    requires InEpoch(epoch, now) && Near(Head(w.down).sentAt, now)
    ensures InStep(prims, capacity, epoch, id, keys, Returns(prims, w, now))
  {
    ReturnDownward(prims, epoch, id, keys, w.client, w.server.table[id], w.down, now);
    ReturnKeepsClient(prims, w.client, Head(w.down).raw, now);
    ObjectsSnoc(w.down.flights, w.down.taken);
    var (client, r) := ClientRecv(prims, w.client, Head(w.down).raw, now);
    ReturnedInStep(prims, capacity, epoch, id, keys, w, client, Returns(prims, w, now).consumed);
  }

  lemma ReturnedInStep(prims: Primitives, capacity: nat, epoch: nat, id: i64, keys: SessionCrypto, w: World, client: ClientState, consumed: seq<nat>)
    requires Lawful(prims) && InStep(prims, capacity, epoch, id, keys, w) && Waiting(w.down)
    requires client.crypto.Some? && SameKeys(client.crypto.value, keys) && KeyIdOf(client) == id
    requires client.seqNo == w.client.seqNo && client.msgIdCounter == w.client.msgIdCounter
    requires Downward(prims, epoch, id, keys, client, w.server.table[id], Pop(w.down))
    ensures InStep(prims, capacity, epoch, id, keys,
      w.(client := client, down := Pop(w.down), consumed := consumed, returned := w.returned + [Head(w.down).what]))
  {
    hide HeaderOf, SealedAs, Inv, EncodableObject;
    ObjectsSnoc(w.down.flights, w.down.taken);
  }

  // ---------- every run ----------

  lemma ActInStep(prims: Primitives, capacity: nat, epoch: nat, id: i64, keys: SessionCrypto, w: World, a: Action)
    requires Lawful(prims) && InStep(prims, capacity, epoch, id, keys, w) && Timely(prims, epoch, id, w, a)
    ensures InStep(prims, capacity, epoch, id, keys, Act(prims, capacity, id, w, a))
  {
    match a
    case ClientSends(o, now, noise) => SendInStep(prims, capacity, epoch, id, keys, w, o, now, noise);
    case ServerTakes(env) => if Waiting(w.up) { TakeInStep(prims, capacity, epoch, id, keys, w, env); }
    case ClientTakes(now) => if Waiting(w.down) { ReturnInStep(prims, capacity, epoch, id, keys, w, now); }
    case Elsewhere(event) => ElsewhereInStep(prims, capacity, epoch, id, keys, w, event);
    case _ =>
  }

  lemma MovedDownward(prims: Primitives, epoch: nat, id: i64, keys: SessionCrypto, client: ClientState, row: FullSession, row': FullSession, down: Channel)
    requires Lawful(prims) && Downward(prims, epoch, id, keys, client, row, down) && Untouched(row, row')
    ensures Downward(prims, epoch, id, keys, client, row', down)
  {
  }

  lemma ElsewhereInStep(prims: Primitives, capacity: nat, epoch: nat, id: i64, keys: SessionCrypto, w: World, event: Event)
    requires Lawful(prims) && InStep(prims, capacity, epoch, id, keys, w) && Harmless(prims, w.server, id, event)
    ensures InStep(prims, capacity, epoch, id, keys, w.(server := StepEvent(prims, capacity, w.server, event).0))
  {
    ElsewhereKeepsRow(prims, capacity, w.server, id, event);
    MovedInStep(prims, capacity, epoch, id, keys, w, StepEvent(prims, capacity, w.server, event).0);
  }

  lemma MovedInStep(prims: Primitives, capacity: nat, epoch: nat, id: i64, keys: SessionCrypto, w: World, server: ServerState)
    requires Lawful(prims) && InStep(prims, capacity, epoch, id, keys, w)
    requires Inv(capacity, server) && id in server.table && Untouched(w.server.table[id], server.table[id])
    requires RecentsBelow(server, id)
    ensures InStep(prims, capacity, epoch, id, keys, w.(server := server))
  {
    MovedBase(prims, capacity, id, keys, w, server);
    MovedDownward(prims, epoch, id, keys, w.client, w.server.table[id], server.table[id], w.down);
  }

  lemma {:induction false} RunInStep(prims: Primitives, capacity: nat, epoch: nat, id: i64, keys: SessionCrypto, w: World, actions: seq<Action>)
    requires Lawful(prims) && InStep(prims, capacity, epoch, id, keys, w)
    requires AllTimely(prims, capacity, epoch, id, w, actions)
    ensures InStep(prims, capacity, epoch, id, keys, ActAll(prims, capacity, id, w, actions))
    decreases |actions|
  {
    if actions != [] {
      ActInStep(prims, capacity, epoch, id, keys, w, actions[0]);
      RunInStep(prims, capacity, epoch, id, keys, Act(prims, capacity, id, w, actions[0]), actions[1..]);
    }
  }

  function InFlight(ch: Channel): int { |ch.flights| - ch.taken }

  lemma CountsDiffer(taken: nat, sent: nat)
    requires taken <= sent
    ensures Wrap32(sent - 1) == Wrap32(Wrap32(taken - 1) + (sent - taken))
  {
    var q := (taken - 1 - Wrap32(taken - 1)) / TWO_32;
    assert taken - 1 == Wrap32(taken - 1) + q * TWO_32;
    ModShift(Wrap32(taken - 1) + (sent - taken) + TWO_31, q, TWO_32);
  }

  lemma ObjectsSplit(flights: seq<Flight>, n: nat)
    requires n <= |flights|
    ensures Objects(flights) == Objects(flights[..n]) + Objects(flights[n..])
  {
  }

  lemma LogsMean(epoch: nat, id: i64, w: World)
    requires id in w.server.table && Upward(epoch, id, w) && AnswersLogged(w)
    ensures Objects(w.up.flights) == w.handled + Objects(w.up.flights[w.up.taken..])
    ensures w.answered == w.returned + Objects(w.down.flights[w.down.taken..])
  {
    ObjectsSplit(w.up.flights, w.up.taken);
    ObjectsSplit(w.down.flights, w.down.taken);
  }

  lemma UpCounts(prims: Primitives, capacity: nat, epoch: nat, id: i64, keys: SessionCrypto, w: World)
    requires Lawful(prims) && Base(prims, capacity, id, keys, w) && Upward(epoch, id, w)
    ensures w.client.seqNo == Wrap32(w.server.table[id].recvSeqNo + InFlight(w.up))
  {
    hide Wrap32, SealedAs, HeaderOf, Inv, EncodableObject, RecentsBelow;
    CountsDiffer(w.up.taken, |w.up.flights|);
  }

  lemma DownCounts(prims: Primitives, epoch: nat, id: i64, keys: SessionCrypto, client: ClientState, row: FullSession, down: Channel)
    requires Lawful(prims) && Downward(prims, epoch, id, keys, client, row, down)
    ensures row.sendSeqNo == Wrap32(client.recvSeqNo + InFlight(down))
  {
    hide Wrap32, SealedAs, HeaderOf, EncodableObject;
    CountsDiffer(down.taken, |down.flights|);
  }

  lemma InStepMeans(prims: Primitives, capacity: nat, epoch: nat, id: i64, keys: SessionCrypto, w: World)
    requires Lawful(prims) && InStep(prims, capacity, epoch, id, keys, w)
    ensures id in w.server.table && InFlight(w.up) >= 0 && InFlight(w.down) >= 0
    ensures w.client.seqNo == Wrap32(w.server.table[id].recvSeqNo + InFlight(w.up))
    ensures w.server.table[id].sendSeqNo == Wrap32(w.client.recvSeqNo + InFlight(w.down))
    ensures Objects(w.up.flights) == w.handled + Objects(w.up.flights[w.up.taken..])
    ensures w.answered == w.returned + Objects(w.down.flights[w.down.taken..])
  {
    hide HeaderOf, SealedAs, Inv, EncodableObject, Wrap32;
    UpCounts(prims, capacity, epoch, id, keys, w);
    DownCounts(prims, epoch, id, keys, w.client, w.server.table[id], w.down);
    LogsMean(epoch, id, w);
  }

  lemma StartInStep(prims: Primitives, capacity: nat, epoch: nat, id: i64, start: World)
    requires Lawful(prims) && JustAuthenticated(capacity, id, start)
    ensures start.client.crypto.Some? && InStep(prims, capacity, epoch, id, start.client.crypto.value, start)
  {
    StartIsBase(prims, capacity, id, start);
  }

  /** Lockstep, in every run over lossless channels with agreeing clocks, whatever the cache evicts and
      whoever else is served in between: each end's sending number is the other end's receiving number plus
      the messages in flight; what reached the handler is what was sent, in order and exactly once, up to
      the requests in flight; what the client's caller was given is what the handler answered, up to the
      answers in flight. */
  lemma EndsInLockstep(prims: Primitives, capacity: nat, epoch: nat, id: i64, start: World, actions: seq<Action>)
    requires Lawful(prims) && JustAuthenticated(capacity, id, start)
    requires AllTimely(prims, capacity, epoch, id, start, actions)
    ensures var w := ActAll(prims, capacity, id, start, actions);
      && id in w.server.table && InFlight(w.up) >= 0 && InFlight(w.down) >= 0
      && w.client.seqNo == Wrap32(w.server.table[id].recvSeqNo + InFlight(w.up))
      && w.server.table[id].sendSeqNo == Wrap32(w.client.recvSeqNo + InFlight(w.down))
      && Objects(w.up.flights) == w.handled + Objects(w.up.flights[w.up.taken..])
      && w.answered == w.returned + Objects(w.down.flights[w.down.taken..])
  {
    hide InStep, JustAuthenticated, ActAll, AllTimely, Wrap32, Objects, InFlight;
    StartInStep(prims, capacity, epoch, id, start);
    RunInStep(prims, capacity, epoch, id, start.client.crypto.value, start, actions);
    InStepMeans(prims, capacity, epoch, id, start.client.crypto.value, ActAll(prims, capacity, id, start, actions));
  }
}
