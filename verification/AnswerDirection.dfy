/** The direction of the answers, over channels that may lose frames, with any clocks: when the client stops
    returning answers for good, and when it goes on (kosta/src/session.rs, recv_tl). */
module AnswerDirection {
  import opened Wrappers
  import opened Arithmetic
  import opened Bytes
  import opened TlTypes
  import opened TlObjects
  import opened Crypto
  import opened MsgId
  import opened ServerModel
  import opened ServerInvariant
  import opened ServerRuns
  import opened ClientModel
  import opened EndToEnd
  import opened Lockstep

  // ---------- the invariant ----------

  /** The answers are numbered, none without an accepted request; those consumed are the first ones, and
      until one is missed the client's last id is that of the last answer. */
  ghost predicate Answering(prims: Primitives, id: i64, keys: SessionCrypto, w: World)
    requires Lawful(prims)
  {
    && Flow(prims, keys.serverWriteKey, keys.serverMacKey, id, w.down)
    && |w.down.flights| <= |w.accepted| && Counted(id, w.server, w.down) && Consumed(w.client, w.consumed, w.down)
  }

  ghost predicate Counted(id: i64, server: ServerState, down: Channel) {
    && id in server.table
    && server.table[id].sendSeqNo == Wrap32(|down.flights| - 1)
    && server.table[id].msgIdCounter == |down.flights| % TWO_32
  }

  ghost predicate Consumed(client: ClientState, consumed: seq<nat>, down: Channel) {
    && down.taken <= |down.flights|
    && client.recvSeqNo == Wrap32(|consumed| - 1) && consumed == FirstNumbers(|consumed|)
    && |consumed| <= down.taken && (|consumed| == down.taken ==> client.recvLastMsgId == LastTaken(down))
  }

  /** The oldest answer in flight is next: all before it were consumed, and its id is above theirs. */
  predicate IsNext(consumed: seq<nat>, down: Channel)
    requires Waiting(down)
  {
    |consumed| == down.taken && HeaderOf(Head(down), down.taken).msgId > LastTaken(down)
  }

  lemma NextAdvances(client: ClientState, consumed: seq<nat>, down: Channel)
    requires Consumed(client, consumed, down) && Waiting(down) && |down.flights| <= TWO_32
    ensures Advances(client, HeaderOf(Head(down), down.taken)) <==> IsNext(consumed, down)
  {
    hide EncodeBoxed, MakeMsgId;
    WrapStep(|consumed|);
    if |consumed| < down.taken { NumbersDiffer(|consumed|, down.taken); }
  }

  /** The oldest answer is consumed exactly when it is next; it is returned exactly when, besides, it is in
      time and its object can be read. An answer that arrives too early or too late is consumed all the same. */
  lemma AnswerJudged(prims: Primitives, capacity: nat, id: i64, keys: SessionCrypto, w: World, now: nat)
    requires Lawful(prims) && Base(prims, capacity, id, keys, w) && Answering(prims, id, keys, w) && Waiting(w.down)
    ensures var w', f := Returns(prims, w, now), Head(w.down);
      var inTime := DiffMs(HeaderOf(f, w.down.taken).msgId, now) <= MAX_SKEW_MS;
      var next := IsNext(w.consumed, w.down);
      && w'.consumed == (if next then w.consumed + [w.down.taken] else w.consumed)
      && w'.returned == (if next && inTime && Parse(EncodeBoxed(f.what)).Ok?
                         then w.returned + [Parse(EncodeBoxed(f.what)).value] else w.returned)
  {
    hide EncodeBoxed, DiffMs, MakeMsgId, Parse, ClientRecv, SealedAs, Wrap32, Inv, LastTaken, Advances;
    var h := HeaderOf(Head(w.down), w.down.taken);
    RecvSealed(prims, w.client, Head(w.down).raw, now, h);
    NextAdvances(w.client, w.consumed, w.down);
  }

  // ---------- every action ----------

  lemma ConsumedStep(client: ClientState, client': ClientState, consumed: seq<nat>, down: Channel)
    requires Consumed(client, consumed, down) && Waiting(down) && |down.flights| <= TWO_32
    requires var h := HeaderOf(Head(down), down.taken);
      && client'.recvLastMsgId == (if h.msgId > client.recvLastMsgId then h.msgId else client.recvLastMsgId)
      && client'.recvSeqNo == (if IsNext(consumed, down) then h.seqNo else client.recvSeqNo)
    ensures Consumed(client', if IsNext(consumed, down) then consumed + [down.taken] else consumed, Pop(down))
    ensures |consumed| < down.taken ==> !IsNext(consumed, down)
  {
    hide EncodeBoxed, MakeMsgId, Wrap32;
  }

  lemma ReturnKeepsAnswering(prims: Primitives, capacity: nat, id: i64, keys: SessionCrypto, w: World, now: nat)
    requires Lawful(prims) && Base(prims, capacity, id, keys, w) && Answering(prims, id, keys, w) && Waiting(w.down)
    ensures var w' := Returns(prims, w, now);
      && Answering(prims, id, keys, w')
      && (|w.consumed| < w.down.taken ==> w'.consumed == w.consumed && w'.returned == w.returned)
  {
    hide EncodeBoxed, DiffMs, MakeMsgId, Parse, ClientRecv, SealedAs, Wrap32, Inv, LastTaken, Advances, Consumed, HeaderOf;
    var h := HeaderOf(Head(w.down), w.down.taken);
    RecvSealed(prims, w.client, Head(w.down).raw, now, h);
    NextAdvances(w.client, w.consumed, w.down);
    AnswerJudged(prims, capacity, id, keys, w, now);
    ConsumedStep(w.client, ClientRecv(prims, w.client, Head(w.down).raw, now).0, w.consumed, w.down);
  }

  lemma LossKeepsAnswering(prims: Primitives, id: i64, keys: SessionCrypto, w: World)
    requires Lawful(prims) && Answering(prims, id, keys, w) && Waiting(w.down)
    ensures Answering(prims, id, keys, w.(down := Pop(w.down)))
  {
    hide SealedAs, HeaderOf, Wrap32;
  }

  /** An answer joins the channel. */
  lemma AnswerPushed(prims: Primitives, id: i64, keys: SessionCrypto, w: World, server: ServerState, f: Flight)
    requires Lawful(prims) && Answering(prims, id, keys, w)
    requires SealedAs(prims, keys.serverWriteKey, keys.serverMacKey, id, f.raw, HeaderOf(f, |w.down.flights|))
    requires Counted(id, server, Push(w.down, f))
    ensures var down := Push(w.down, f);
      Flow(prims, keys.serverWriteKey, keys.serverMacKey, id, down) && Consumed(w.client, w.consumed, down)
  {
    hide SealedAs, HeaderOf, Wrap32;
    FlowPush(prims, keys.serverWriteKey, keys.serverMacKey, id, w.down, f);
    assert LastTaken(Push(w.down, f)) == LastTaken(w.down) by { ObjectsPush(w.down, f); }
  }

  /** Only an accepted request is answered, and the answer goes to its session. */
  lemma HeadAnswered(prims: Primitives, capacity: nat, id: i64, keys: SessionCrypto, w: World, env: Env)
    requires Lawful(prims) && Base(prims, capacity, id, keys, w) && Waiting(w.up) && NoCollision(w.server, env.handled)
    ensures var out := Step(prims, capacity, w.server, Head(w.up).raw, env).1;
      && SealedAnswer(prims, w.server.table, out, env.handled) && SentTo(out, id) == out.sent
      && (out.sent.Some? ==> AcceptedBy(out, id).Some? && ReplyOf(env.handled).Some?)
  {
    hide Step, Inv, Unseal, VerdictOn, PacketOf, HeaderOf, Flow;
    HeadIsClear(prims, capacity, id, keys, w);
    StepVerdict(prims, capacity, w.server, Head(w.up).raw, env);
    StepSeals(prims, capacity, w.server, Head(w.up).raw, env);
  }

  lemma TakenKeepsAnswering(prims: Primitives, capacity: nat, id: i64, keys: SessionCrypto, w: World, server: ServerState, out: Output, env: Env)
    requires Lawful(prims) && Base(prims, capacity, id, keys, w) && Answering(prims, id, keys, w) && Waiting(w.up)
    requires id in server.table && RowStep(w.server.table[id], server.table[id], out, id, env.nowReply)
    requires SealedAnswer(prims, w.server.table, out, env.handled) && SentTo(out, id) == out.sent
    requires out.sent.Some? ==> AcceptedBy(out, id).Some? && ReplyOf(env.handled).Some?
    ensures Answering(prims, id, keys, Taken(id, w, server, out, env))
  {
    hide HeaderOf, SealedAs, Inv, Flow, EncodeBoxed, PacketOf, Wrap32, MakeMsgId, Consumed;
    var row, row' := w.server.table[id], server.table[id];
    if out.sent.Some? {
      var s, reply := out.sent.value, ReplyOf(env.handled).value;
      var f := Flight(s.packet, reply, env.nowReply);
      AnswerSealed(prims, id, row, row', s, |w.down.flights|, reply, env.nowReply);
      AnswerCounts(row, row', s, |w.down.flights|, env.nowReply);
      AnswerPushed(prims, id, keys, w, server, f);
    }
  }

  lemma TakeKeepsAnswering(prims: Primitives, capacity: nat, id: i64, keys: SessionCrypto, w: World, env: Env)
    requires Lawful(prims) && Base(prims, capacity, id, keys, w) && Answering(prims, id, keys, w)
    requires Waiting(w.up) && NoCollision(w.server, env.handled)
    ensures Answering(prims, id, keys, Takes(prims, capacity, id, w, env))
  {
    hide Step, Inv, Flow, Answering, SealedAnswer, RowStep;
    StepKeeps(prims, capacity, w.server, Head(w.up).raw, env);
    HeadAnswered(prims, capacity, id, keys, w, env);
    var (server, out) := Step(prims, capacity, w.server, Head(w.up).raw, env);
    TakenKeepsAnswering(prims, capacity, id, keys, w, server, out, env);
  }

  lemma ElsewhereKeepsAnswering(prims: Primitives, capacity: nat, id: i64, keys: SessionCrypto, w: World, event: Event)
    requires Lawful(prims) && Base(prims, capacity, id, keys, w) && Answering(prims, id, keys, w)
    requires Harmless(prims, w.server, id, event)
    ensures Answering(prims, id, keys, w.(server := StepEvent(prims, capacity, w.server, event).0))
  {
    hide StepEvent, Inv, Flow, Consumed, Harmless;
    ElsewhereKeepsRow(prims, capacity, w.server, id, event);
  }

  lemma SendKeepsAnswering(prims: Primitives, capacity: nat, id: i64, keys: SessionCrypto, w: World, o: TlObject, now: nat, noise: Noise)
    requires Lawful(prims) && Base(prims, capacity, id, keys, w) && Answering(prims, id, keys, w)
    ensures Answering(prims, id, keys, Sends(prims, w, o, now, noise))
  {
    hide ClientSend, Inv, Flow;
    SendNumbers(prims, w.client, o, now, noise, |w.up.flights|);
  }

  /** Once an answer has been missed, no action makes the client take or return another. */
  lemma ActKeepsAnswering(prims: Primitives, capacity: nat, id: i64, keys: SessionCrypto, w: World, a: Action)
    requires Lawful(prims) && Base(prims, capacity, id, keys, w) && Answering(prims, id, keys, w)
    requires Admissible(prims, id, w, a)
    ensures var w' := Act(prims, capacity, id, w, a);
      && Answering(prims, id, keys, w') && w.down.taken <= w'.down.taken
      && (|w.consumed| < w.down.taken ==> w'.consumed == w.consumed && w'.returned == w.returned)
  {
    hide Answering, Base, StepEvent, Harmless;
    match a
    case ClientSends(o, now, noise) => SendKeepsAnswering(prims, capacity, id, keys, w, o, now, noise);
    case ServerTakes(env) => if Waiting(w.up) { TakeKeepsAnswering(prims, capacity, id, keys, w, env); }
    case ClientTakes(now) => if Waiting(w.down) { ReturnKeepsAnswering(prims, capacity, id, keys, w, now); }
    case RequestLost =>
      LostRequest(prims, id, keys, w);
    case AnswerLost => if Waiting(w.down) { LossKeepsAnswering(prims, id, keys, w); }
    case Elsewhere(event) => ElsewhereKeepsAnswering(prims, capacity, id, keys, w, event);
  }

  lemma LostRequest(prims: Primitives, id: i64, keys: SessionCrypto, w: World)
    requires Lawful(prims) && Answering(prims, id, keys, w)
    ensures Answering(prims, id, keys, w.(up := Pop(w.up)))
  {
  }

  lemma {:induction false} RunKeepsAnswering(prims: Primitives, capacity: nat, id: i64, keys: SessionCrypto, w: World, actions: seq<Action>)
    requires Lawful(prims) && Base(prims, capacity, id, keys, w) && Answering(prims, id, keys, w)
    requires AllAdmissible(prims, capacity, id, w, actions)
    ensures var w' := ActAll(prims, capacity, id, w, actions);
      && Base(prims, capacity, id, keys, w') && Answering(prims, id, keys, w')
      && (|w.consumed| < w.down.taken ==> w'.consumed == w.consumed && w'.returned == w.returned)
    decreases |actions|
  {
    hide Answering, Base, Act, Admissible;
    if actions != [] {
      ActKeepsBase(prims, capacity, id, keys, w, actions[0]);
      ActKeepsAnswering(prims, capacity, id, keys, w, actions[0]);
      RunKeepsAnswering(prims, capacity, id, keys, Act(prims, capacity, id, w, actions[0]), actions[1..]);
    }
  }

  lemma StartIsAnswering(prims: Primitives, capacity: nat, id: i64, start: World)
    requires Lawful(prims) && JustAuthenticated(capacity, id, start)
    ensures Answering(prims, id, start.client.crypto.value, start)
  {
  }

  // ---------- the theorems ----------

  /** In every run the answers consumed are exactly the first ones sent, without a gap. As soon as one that
      left the channel has not been consumed (it was lost, or its id did not rise), no later answer is
      consumed or returned. */
  lemma DeadAnswers(prims: Primitives, capacity: nat, id: i64, start: World, before: seq<Action>, after: seq<Action>)
    requires Lawful(prims) && JustAuthenticated(capacity, id, start)
    requires AllAdmissible(prims, capacity, id, start, before)
    requires AllAdmissible(prims, capacity, id, ActAll(prims, capacity, id, start, before), after)
    ensures var w := ActAll(prims, capacity, id, start, before);
      var later := ActAll(prims, capacity, id, w, after);
      && w.consumed == FirstNumbers(|w.consumed|) && |w.consumed| <= w.down.taken
      && (|w.consumed| < w.down.taken ==> later.consumed == w.consumed && later.returned == w.returned)
  {
    hide Base, Act, AllAdmissible, ActAll;
    var keys := start.client.crypto.value;
    StartIsBase(prims, capacity, id, start);
    StartIsAnswering(prims, capacity, id, start);
    RunKeepsAnswering(prims, capacity, id, keys, start, before);
    RunKeepsAnswering(prims, capacity, id, keys, ActAll(prims, capacity, id, start, before), after);
  }

  /** And until then the client goes on: at any point of a run the oldest answer in flight is consumed exactly
      when all before it were and its id is above theirs, whatever the clock says, and it is returned exactly
      when it is also within 30 seconds and can be read. So an answer that is turned down for its age is
      skipped, and the next one is returned. */
  lemma LiveAnswers(prims: Primitives, capacity: nat, id: i64, start: World, before: seq<Action>, now: nat)
    requires Lawful(prims) && JustAuthenticated(capacity, id, start)
    requires AllAdmissible(prims, capacity, id, start, before)
    ensures var w := ActAll(prims, capacity, id, start, before);
      w.down.taken <= |w.down.flights| && (Waiting(w.down) ==>
        var w', f, n := Act(prims, capacity, id, w, ClientTakes(now)), Head(w.down), w.down.taken;
        var next := |w.consumed| == n && HeaderOf(f, n).msgId > LastTaken(w.down);
        && w'.consumed == (if next then w.consumed + [n] else w.consumed)
        && w'.returned == (if next && DiffMs(HeaderOf(f, n).msgId, now) <= MAX_SKEW_MS && Parse(EncodeBoxed(f.what)).Ok?
                           then w.returned + [Parse(EncodeBoxed(f.what)).value] else w.returned))
  {
    hide Base, AllAdmissible, ActAll, HeaderOf, DiffMs, Parse, EncodeBoxed, Returns, LastTaken;
    var keys, w := start.client.crypto.value, ActAll(prims, capacity, id, start, before);
    StartIsBase(prims, capacity, id, start);
    StartIsAnswering(prims, capacity, id, start);
    RunKeepsAnswering(prims, capacity, id, keys, start, before);
    if Waiting(w.down) { AnswerJudged(prims, capacity, id, keys, w, now); }
  }
}
