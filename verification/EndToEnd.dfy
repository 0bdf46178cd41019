/** A client and a server joined by two first-in first-out channels (kosta/src/session.rs,
    kosta-server/src/server.rs). Frames may be lost but are neither duplicated nor reordered, clocks are
    arbitrary, and the cache may evict at any moment. */
module EndToEnd {
  import opened Wrappers
  import opened Arithmetic
  import opened Bytes
  import opened TlTypes
  import opened TlObjects
  import opened Crypto
  import opened MsgId
  import opened ServerModel
  import opened ServerInvariant
  import opened ServerRuns
  import opened ClientModel

  /** A packet under way, with the object it carries and the clock reading it was sealed at. */
  datatype Flight = Flight(raw: bytes, what: TlObject, sentAt: nat)

  /** Everything ever sent, and how much of it has left the channel again. */
  datatype Channel = Channel(flights: seq<Flight>, taken: nat)

  predicate Waiting(ch: Channel) { ch.taken < |ch.flights| }

  function Head(ch: Channel): Flight
    requires Waiting(ch)
  {
    ch.flights[ch.taken]
  }

  function Push(ch: Channel, f: Flight): Channel { ch.(flights := ch.flights + [f]) }

  function Pop(ch: Channel): Channel { ch.(taken := ch.taken + 1) }

  /** Both ends, the channels, and a log: which requests the session accepted (by their number), which
      objects reached the handler, which it answered, which answers (by their number) moved the client's
      receiving number, and which of them its caller was given. */
  datatype World = World(
    client: ClientState, server: ServerState, up: Channel, down: Channel,
    accepted: seq<nat>, handled: seq<TlObject>, answered: seq<TlObject>,
    consumed: seq<nat>, returned: seq<TlObject>)

  datatype Action =
    | ClientSends(o: TlObject, now: nat, noise: Noise)
    | ServerTakes(env: Env)
    | ClientTakes(now: nat)
    | RequestLost
    | AnswerLost
    | Elsewhere(event: Event)        // an eviction, or a frame of another connection

  function Sends(prims: Primitives, w: World, o: TlObject, now: nat, noise: Noise): World
    requires Lawful(prims)
  {
    var (client, raw) := ClientSend(prims, w.client, o, now, noise);
    w.(client := client, up := Push(w.up, Flight(raw, o, now)))
  }

  function Takes(prims: Primitives, capacity: nat, id: i64, w: World, env: Env): World
    requires Lawful(prims) && Waiting(w.up)
  {
    var (server, out) := Step(prims, capacity, w.server, Head(w.up).raw, env);
    Taken(id, w, server, out, env)
  }

  /** The world after a pass of the loop that left this server state and showed this output. */
  function Taken(id: i64, w: World, server: ServerState, out: Output, env: Env): World {
    var reply := ReplyOf(env.handled);
    w.(server := server, up := Pop(w.up),
       accepted := if AcceptedBy(out, id).Some? then w.accepted + [w.up.taken] else w.accepted,
       handled := Extended(w.handled, out.request),
       answered := if out.request.Some? then Extended(w.answered, reply) else w.answered,
       down := if out.sent.Some? && reply.Some? then Push(w.down, Flight(out.sent.value.packet, reply.value, env.nowReply))
               else w.down)
  }

  function Returns(prims: Primitives, w: World, now: nat): World
    requires Lawful(prims) && Waiting(w.down)
  {
    var (client, r) := ClientRecv(prims, w.client, Head(w.down).raw, now);
    Given(w, client, r)
  }

  /** The world after a receive call that left this client and gave its caller this. */
  function Given(w: World, client: ClientState, r: Result<TlObject, RecvError>): World {
    w.(client := client, down := Pop(w.down),
       consumed := if client.recvSeqNo != w.client.recvSeqNo then w.consumed + [w.down.taken] else w.consumed,
       returned := if r.Ok? then w.returned + [r.value] else w.returned)
  }

  /** One action; taking from an empty channel does nothing. A connection that has ended is one from which
      no more is taken. */
  function Act(prims: Primitives, capacity: nat, id: i64, w: World, a: Action): World
    requires Lawful(prims)
  {
    match a
    case ClientSends(o, now, noise) => Sends(prims, w, o, now, noise)
    case ServerTakes(env) => if Waiting(w.up) then Takes(prims, capacity, id, w, env) else w
    case ClientTakes(now) => if Waiting(w.down) then Returns(prims, w, now) else w
    case RequestLost => if Waiting(w.up) then w.(up := Pop(w.up)) else w
    case AnswerLost => if Waiting(w.down) then w.(down := Pop(w.down)) else w
    case Elsewhere(event) => w.(server := StepEvent(prims, capacity, w.server, event).0)
  }

  function ActAll(prims: Primitives, capacity: nat, id: i64, w: World, actions: seq<Action>): World
    requires Lawful(prims)
    decreases |actions|
  {
    if actions == [] then w
    else ActAll(prims, capacity, id, Act(prims, capacity, id, w, actions[0]), actions[1..])
  }

  // ---------- what is asked of the surroundings ----------

  /** Frames of other connections do not decrypt under the session's keys, and no handshake lands on an id
      in use. */
  ghost predicate Harmless(prims: Primitives, st: ServerState, id: i64, event: Event)
    requires Lawful(prims)
  {
    event.FrameIn? ==>
      && NoCollision(st, event.env.handled)
      && (Addresses(st, event.raw, id) ==> !Unseal(prims, Load(id, st.table[id]).crypto, event.raw).Clear?)
  }

  /** The client sends no more than 2^32 messages. */
  ghost predicate Admissible(prims: Primitives, id: i64, w: World, a: Action)
    requires Lawful(prims)
  {
    match a
    case ClientSends(_, _, _) => |w.up.flights| < TWO_32
    case ServerTakes(env) => NoCollision(w.server, env.handled)
    case Elsewhere(event) => Harmless(prims, w.server, id, event)
    case _ => true
  }

  ghost predicate AllAdmissible(prims: Primitives, capacity: nat, id: i64, w: World, actions: seq<Action>)
    requires Lawful(prims)
    decreases |actions|
  {
    actions == [] ||
    (Admissible(prims, id, w, actions[0])
     && AllAdmissible(prims, capacity, id, Act(prims, capacity, id, w, actions[0]), actions[1..]))
  }

  /** Just authenticated: a fresh row at the server, a fresh session with the same keys at the client. */
  ghost predicate JustAuthenticated(capacity: nat, id: i64, w: World) {
    && Inv(capacity, w.server) && id in w.server.table && id != 0 && RecentsBelow(w.server, id)
    && FreshRow(w.server.table[id])
    && w.client.crypto.Some? && w.client.authKeyId == Some(id)
    && w.client.seqNo == -1 && w.client.recvSeqNo == -1 && w.client.msgIdCounter == 0 && w.client.recvLastMsgId == 0
    && SameKeys(w.client.crypto.value, Load(id, w.server.table[id]).crypto)
    && w.up == w.down == Channel([], 0) && w.accepted == w.consumed == []
    && w.handled == w.answered == w.returned == []
  }

  // ---------- packets under way ----------

  /** A packet of session id that opens to the header. */
  ghost predicate SealedAs(prims: Primitives, aesKey: bytes, macKey: bytes, id: i64, raw: bytes, h: Header)
    requires Lawful(prims)
  {
    && |raw| >= OVERHEAD && PacketKeyId(raw) == id
    && var s := PacketBody(raw);
    DecryptAndVerify(prims, aesKey, macKey, s.nonce, s.ciphertext, s.tag) == Some(EncodeHeader(h))
  }

  /** The header of the k-th flight of a channel. */
  function HeaderOf(f: Flight, k: nat): Header {
    Header(MakeMsgId(f.sentAt, k % TWO_32), Wrap32(k), EncodeBoxed(f.what))
  }

  /** Every flight carries its own number. */
  ghost predicate Flow(prims: Primitives, aesKey: bytes, macKey: bytes, id: i64, ch: Channel)
    requires Lawful(prims)
  {
    && ch.taken <= |ch.flights|
    && forall k :: 0 <= k < |ch.flights| ==> SealedAs(prims, aesKey, macKey, id, ch.flights[k].raw, HeaderOf(ch.flights[k], k))
  }

  lemma SealOpens(prims: Primitives, aesKey: bytes, macKey: bytes, id: i64, counter: u32, h: Header, noise: bytes)
    requires Lawful(prims) && |noise| == 12
    ensures SealedAs(prims, aesKey, macKey, id, EncodePacket(id, Seal(prims, aesKey, macKey, counter, EncodeHeader(h), noise)), h)
  {
    var s := Seal(prims, aesKey, macKey, counter, EncodeHeader(h), noise);
    PacketRoundTrip(id, s);
    AcceptsOnlyEncryptions(prims, aesKey, macKey, s.nonce, s.ciphertext, s.tag, EncodeHeader(h));
  }

  lemma FlowPush(prims: Primitives, aesKey: bytes, macKey: bytes, id: i64, ch: Channel, f: Flight)
    requires Lawful(prims) && Flow(prims, aesKey, macKey, id, ch)
    requires SealedAs(prims, aesKey, macKey, id, f.raw, HeaderOf(f, |ch.flights|))
    ensures Flow(prims, aesKey, macKey, id, Push(ch, f))
  {
    var all := Push(ch, f).flights;
    forall k | 0 <= k < |all| ensures SealedAs(prims, aesKey, macKey, id, all[k].raw, HeaderOf(all[k], k)) {
      assert k < |ch.flights| ==> all[k] == ch.flights[k];
    }
  }

  // ---------- the client takes a packet ----------

  /** The header moves the client's receiving number: a later id and the next number. */
  predicate Advances(c: ClientState, h: Header) {
    h.msgId > c.recvLastMsgId && h.seqNo == Wrap32(c.recvSeqNo + 1)
  }

  /** What the client makes of an authentic packet. The clock is looked at, and the object parsed, only after
      the receiving number has moved. */
  lemma RecvSealed(prims: Primitives, c: ClientState, raw: bytes, now: nat, h: Header)
    requires Lawful(prims) && c.crypto.Some?
    requires SealedAs(prims, c.crypto.value.serverWriteKey, c.crypto.value.serverMacKey, KeyIdOf(c), raw, h)
    ensures var (c', r) := ClientRecv(prims, c, raw, now);
      && c'.recvLastMsgId == (if h.msgId > c.recvLastMsgId then h.msgId else c.recvLastMsgId)
      && (c'.recvSeqNo != c.recvSeqNo <==> Advances(c, h))
      && (Advances(c, h) ==> c'.recvSeqNo == h.seqNo)
      && (r.Ok? <==> Advances(c, h) && DiffMs(h.msgId, now) <= MAX_SKEW_MS && Parse(h.body).Ok?)
      && (r.Ok? ==> r == Parse(h.body))
  {
    hide EncodeHeader, DecodeHeader, DiffMs, Parse, DecryptAndVerify;
    HeaderRoundTrip(h);
    SuccessorDiffers(c.recvSeqNo);
  }

  // ---------- the invariant of every run ----------

  function FirstNumbers(n: nat): seq<nat> { seq(n, i => i) }

  /** The keys both ends hold, and the client's count of what it has sent. */
  ghost predicate Connected(capacity: nat, id: i64, keys: SessionCrypto, client: ClientState, server: ServerState) {
    && Inv(capacity, server) && id in server.table && id != 0
    && client.crypto.Some? && KeyIdOf(client) == id
    && SameKeys(client.crypto.value, keys) && SameKeys(Load(id, server.table[id]).crypto, keys)
  }

  ghost predicate Base(prims: Primitives, capacity: nat, id: i64, keys: SessionCrypto, w: World)
    requires Lawful(prims)
  {
    && Connected(capacity, id, keys, w.client, w.server)
    && Flow(prims, keys.clientWriteKey, keys.clientMacKey, id, w.up)
    && |w.up.flights| <= TWO_32
    && w.client.seqNo == Wrap32(|w.up.flights| - 1) && w.client.msgIdCounter == |w.up.flights| % TWO_32
    && w.server.table[id].recvSeqNo == Wrap32(|w.accepted| - 1)
    && w.accepted == FirstNumbers(|w.accepted|) && |w.accepted| <= w.up.taken
  }

  /** What sending does to the client. */
  lemma SendNumbers(prims: Primitives, c: ClientState, o: TlObject, now: nat, noise: Noise, n: nat)
    requires Lawful(prims) && c.crypto.Some? && c.seqNo == Wrap32(n - 1) && c.msgIdCounter == n % TWO_32
    ensures var c' := ClientSend(prims, c, o, now, noise).0;
      && c'.crypto.Some? && SameKeys(c'.crypto.value, c.crypto.value) && c'.authKeyId == c.authKeyId
      && c'.seqNo == Wrap32(n) && c'.msgIdCounter == (n + 1) % TWO_32
      && c'.recvSeqNo == c.recvSeqNo && c'.recvLastMsgId == c.recvLastMsgId
      && c'.lastMsgId == MakeMsgId(now, n % TWO_32) && c'.authKey == c.authKey && c'.serverSalt == c.serverSalt
  {
    WrapStep(n);
    NextCounter(n);
  }

  /** And the packet it makes. */
  lemma SendSeals(prims: Primitives, c: ClientState, o: TlObject, now: nat, noise: Noise, n: nat)
    requires Lawful(prims) && c.crypto.Some? && c.seqNo == Wrap32(n - 1) && c.msgIdCounter == n % TWO_32
    ensures var raw := ClientSend(prims, c, o, now, noise).1;
      SealedAs(prims, c.crypto.value.clientWriteKey, c.crypto.value.clientMacKey, KeyIdOf(c), raw,
               HeaderOf(Flight(raw, o, now), n))
  {
    var crypto, h, raw := c.crypto.value, NextHeader(c, o, now), ClientSend(prims, c, o, now, noise).1;
    WrapStep(n);
    assert h == HeaderOf(Flight(raw, o, now), n);
    assert raw == EncodePacket(KeyIdOf(c),
      Seal(prims, crypto.clientWriteKey, crypto.clientMacKey, crypto.sendCounter, EncodeHeader(h), noise));
    SealOpens(prims, crypto.clientWriteKey, crypto.clientMacKey, KeyIdOf(c), crypto.sendCounter, h, noise);
  }

  lemma SendKeepsBase(prims: Primitives, capacity: nat, id: i64, keys: SessionCrypto, w: World, o: TlObject, now: nat, noise: Noise)
    requires Lawful(prims) && Base(prims, capacity, id, keys, w) && |w.up.flights| < TWO_32
    ensures Base(prims, capacity, id, keys, Sends(prims, w, o, now, noise))
  {
    SendNumbers(prims, w.client, o, now, noise, |w.up.flights|);
    SendSeals(prims, w.client, o, now, noise, |w.up.flights|);
    var (client, raw) := ClientSend(prims, w.client, o, now, noise);
    PushKeepsBase(prims, capacity, id, keys, w, client, Flight(raw, o, now));
  }

  lemma PushKeepsBase(prims: Primitives, capacity: nat, id: i64, keys: SessionCrypto, w: World, client: ClientState, f: Flight)
    requires Lawful(prims) && Base(prims, capacity, id, keys, w) && |w.up.flights| < TWO_32
    requires client.crypto.Some? && SameKeys(client.crypto.value, keys) && client.authKeyId == w.client.authKeyId
    requires client.seqNo == Wrap32(|w.up.flights|) && client.msgIdCounter == (|w.up.flights| + 1) % TWO_32
    requires SealedAs(prims, keys.clientWriteKey, keys.clientMacKey, id, f.raw, HeaderOf(f, |w.up.flights|))
    ensures Base(prims, capacity, id, keys, w.(client := client, up := Push(w.up, f)))
  {
    FlowPush(prims, keys.clientWriteKey, keys.clientMacKey, id, w.up, f);
  }

  /** Numbers less than 2^32 apart stay apart as 32-bit numbers. */
  lemma NumbersDiffer(j: nat, k: nat)
    requires j < k && k - j < TWO_32
    ensures Wrap32(j) != Wrap32(k)
  {
    Wrap32Is(j);
    Wrap32Is(k);
    ModEqualIffDifference(k, j, TWO_32);
  }

  /** The head of the channel opens to its own header. */
  lemma HeadIsClear(prims: Primitives, capacity: nat, id: i64, keys: SessionCrypto, w: World)
    requires Lawful(prims) && Base(prims, capacity, id, keys, w) && Waiting(w.up)
    ensures Addresses(w.server, Head(w.up).raw, id)
    ensures var unsealed := Unseal(prims, Load(id, w.server.table[id]).crypto, Head(w.up).raw);
      unsealed.Clear? && unsealed.header == HeaderOf(Head(w.up), w.up.taken)
  {
    HeaderRoundTrip(HeaderOf(Head(w.up), w.up.taken));
  }

  /** A clear frame is accepted as what it is, and only with the next number. */
  lemma ClearVerdict(prims: Primitives, st: ServerState, raw: bytes, id: i64, now: nat, h: Header)
    requires Lawful(prims) && id in st.table && st.table[id].authKeyId == id
    requires var u := Unseal(prims, Load(id, st.table[id]).crypto, raw); u.Clear? && u.header == h
    ensures var v, row := VerdictOn(prims, st, raw, id, now), st.table[id];
      && (v.Received? ==> v.header == h)
      && (v.Received? <==> h.msgId > row.lastMsgId && h.msgId !in Recents(st, id)
                           && h.seqNo == Wrap32(row.recvSeqNo + 1) && DiffMs(h.msgId, now) <= MAX_SKEW_MS)
  {
  }

  lemma HeadIsJudged(prims: Primitives, capacity: nat, id: i64, keys: SessionCrypto, w: World, env: Env)
    requires Lawful(prims) && Base(prims, capacity, id, keys, w) && Waiting(w.up)
    ensures var out := Step(prims, capacity, w.server, Head(w.up).raw, env).1;
      AcceptedBy(out, id) == var v := VerdictOn(prims, w.server, Head(w.up).raw, id, env.nowCheck);
        if v.Received? then Some(HeaderOf(Head(w.up), w.up.taken)) else None
  {
    HeadIsClear(prims, capacity, id, keys, w);
    StepVerdict(prims, capacity, w.server, Head(w.up).raw, env);
    ClearVerdict(prims, w.server, Head(w.up).raw, id, env.nowCheck, HeaderOf(Head(w.up), w.up.taken));
    assert Judged(Step(prims, capacity, w.server, Head(w.up).raw, env).1, id,
                  VerdictOn(prims, w.server, Head(w.up).raw, id, env.nowCheck));
  }

  lemma TakenKeepsBase(prims: Primitives, capacity: nat, id: i64, keys: SessionCrypto, w: World, server: ServerState, out: Output, env: Env)
    requires Lawful(prims) && Base(prims, capacity, id, keys, w) && Waiting(w.up)
    requires Inv(capacity, server) && id in server.table
    requires RowStep(w.server.table[id], server.table[id], out, id, env.nowReply)
    requires AcceptedBy(out, id).None? || AcceptedBy(out, id) == Some(HeaderOf(Head(w.up), w.up.taken))
    ensures Base(prims, capacity, id, keys, Taken(id, w, server, out, env))
    ensures |w.accepted| < w.up.taken ==> AcceptedBy(out, id).None?
  {
    hide EncodeBoxed, MakeMsgId, SealedAs, Inv, Wrap32;
    WrapStep(|w.accepted|);
    if |w.accepted| < w.up.taken { NumbersDiffer(|w.accepted|, w.up.taken); }
  }

  lemma TakeKeepsBase(prims: Primitives, capacity: nat, id: i64, keys: SessionCrypto, w: World, env: Env)
    requires Lawful(prims) && Base(prims, capacity, id, keys, w) && Waiting(w.up) && NoCollision(w.server, env.handled)
    ensures Base(prims, capacity, id, keys, Takes(prims, capacity, id, w, env))
    ensures |w.accepted| < w.up.taken ==> Takes(prims, capacity, id, w, env).accepted == w.accepted
  {
    HeadIsJudged(prims, capacity, id, keys, w, env);
    StepKeeps(prims, capacity, w.server, Head(w.up).raw, env);
    var (server, out) := Step(prims, capacity, w.server, Head(w.up).raw, env);
    TakenKeepsBase(prims, capacity, id, keys, w, server, out, env);
  }

  /** An eviction or a foreign frame does not touch the session's numbers and keys. */
  lemma ElsewhereKeepsRow(prims: Primitives, capacity: nat, st: ServerState, id: i64, event: Event)
    requires Lawful(prims) && Inv(capacity, st) && id in st.table && Harmless(prims, st, id, event)
    ensures var st' := StepEvent(prims, capacity, st, event).0;
      && Inv(capacity, st') && id in st'.table && Untouched(st.table[id], st'.table[id])
      && (RecentsBelow(st, id) ==> RecentsBelow(st', id))
  {
    hide Step, Unseal, Inv;
    EventKeeps(prims, capacity, st, event);
    var (st', out) := StepEvent(prims, capacity, st, event);
    if event.FrameIn? {
      StepVerdict(prims, capacity, st, event.raw, event.env);
      StepSeals(prims, capacity, st, event.raw, event.env);
      assert out.receipt.Some? && out.receipt.value.0 == id ==> Addresses(st, event.raw, id);
    }
    assert AcceptedBy(out, id).None? && SentTo(out, id).None?;
    assert RowStep(st.table[id], st'.table[id], out, id, if event.FrameIn? then event.env.nowReply else 0);
  }

  lemma MovedBase(prims: Primitives, capacity: nat, id: i64, keys: SessionCrypto, w: World, server: ServerState)
    requires Lawful(prims) && Base(prims, capacity, id, keys, w)
    requires Inv(capacity, server) && id in server.table && Untouched(w.server.table[id], server.table[id])
    ensures Base(prims, capacity, id, keys, w.(server := server))
  {
  }

  lemma ReturnKeepsClient(prims: Primitives, c: ClientState, raw: bytes, now: nat)
    requires Lawful(prims) && c.crypto.Some?
    ensures var c' := ClientRecv(prims, c, raw, now).0;
      && c'.crypto.Some? && SameKeys(c'.crypto.value, c.crypto.value) && KeyIdOf(c') == KeyIdOf(c)
      && c'.seqNo == c.seqNo && c'.msgIdCounter == c.msgIdCounter
  {
  }

  /** Every action keeps the invariant; once a request has been lost or turned down, none is accepted. */
  lemma ActKeepsBase(prims: Primitives, capacity: nat, id: i64, keys: SessionCrypto, w: World, a: Action)
    requires Lawful(prims) && Base(prims, capacity, id, keys, w) && Admissible(prims, id, w, a)
    ensures Base(prims, capacity, id, keys, Act(prims, capacity, id, w, a))
    ensures |w.accepted| < w.up.taken ==>
      var w' := Act(prims, capacity, id, w, a); w'.accepted == w.accepted && w.up.taken <= w'.up.taken
  {
    match a
    case ClientSends(o, now, noise) => SendKeepsBase(prims, capacity, id, keys, w, o, now, noise);
    case ServerTakes(env) => if Waiting(w.up) { TakeKeepsBase(prims, capacity, id, keys, w, env); }
    case ClientTakes(now) => if Waiting(w.down) { ReturnKeepsClient(prims, w.client, Head(w.down).raw, now); }
    case RequestLost =>
    case AnswerLost =>
    case Elsewhere(event) =>
      ElsewhereKeepsRow(prims, capacity, w.server, id, event);
      MovedBase(prims, capacity, id, keys, w, StepEvent(prims, capacity, w.server, event).0);
  }

  lemma {:induction false} RunKeepsBase(prims: Primitives, capacity: nat, id: i64, keys: SessionCrypto, w: World, actions: seq<Action>)
    requires Lawful(prims) && Base(prims, capacity, id, keys, w) && AllAdmissible(prims, capacity, id, w, actions)
    ensures Base(prims, capacity, id, keys, ActAll(prims, capacity, id, w, actions))
    ensures |w.accepted| < w.up.taken ==> ActAll(prims, capacity, id, w, actions).accepted == w.accepted
    decreases |actions|
  {
    if actions != [] {
      ActKeepsBase(prims, capacity, id, keys, w, actions[0]);
      RunKeepsBase(prims, capacity, id, keys, Act(prims, capacity, id, w, actions[0]), actions[1..]);
    }
  }

  lemma StartIsBase(prims: Primitives, capacity: nat, id: i64, w: World)
    requires Lawful(prims) && JustAuthenticated(capacity, id, w)
    ensures w.client.crypto.Some? && Base(prims, capacity, id, w.client.crypto.value, w)
  {
  }

  /** The dead direction. In every run the accepted requests are exactly the first ones sent, without a
      gap. So as soon as one that left the channel has not been accepted (it was lost, or it was turned
      down after decryption, for whatever reason), no later request of the session is ever accepted. */
  lemma DeadDirection(prims: Primitives, capacity: nat, id: i64, start: World, before: seq<Action>, after: seq<Action>)
    requires Lawful(prims) && JustAuthenticated(capacity, id, start)
    requires AllAdmissible(prims, capacity, id, start, before)
    requires AllAdmissible(prims, capacity, id, ActAll(prims, capacity, id, start, before), after)
    ensures var w := ActAll(prims, capacity, id, start, before);
      && w.accepted == FirstNumbers(|w.accepted|) && |w.accepted| <= w.up.taken
      && (|w.accepted| < w.up.taken ==> ActAll(prims, capacity, id, w, after).accepted == w.accepted)
  {
    var keys := start.client.crypto.value;
    StartIsBase(prims, capacity, id, start);
    RunKeepsBase(prims, capacity, id, keys, start, before);
    RunKeepsBase(prims, capacity, id, keys, ActAll(prims, capacity, id, start, before), after);
  }
}
