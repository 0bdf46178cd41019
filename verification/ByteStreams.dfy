/** Both ends over byte streams: packets are framed, the network hands over the bytes in chunks of any size,
    and an end reads a packet once its frame is complete (kosta-transport/src/abridged.rs, mock.rs,
    kosta/src/session.rs, kosta-server/src/server.rs). The streams refine the channels of EndToEnd, so what
    is proved over channels holds over streams. */
module ByteStreams {
  import opened Wrappers
  import opened Sequences
  import opened Bytes
  import opened TlTypes
  import opened TlObjects
  import opened Crypto
  import opened Abridged
  import opened ServerModel
  import opened ServerInvariant
  import opened ServerRuns
  import opened ClientModel
  import opened ProtocolFrames
  import opened EndToEnd
  import opened Lockstep

  /** One direction: the bytes that have arrived and were not read yet, and those still on their way. */
  datatype Wire = Wire(arrived: bytes, coming: bytes)

  /** Both ends and the two streams between them. The ends read and write the streams; the channels of the
      world are a log. */
  datatype Wired = Wired(w: World, up: Wire, down: Wire)

  datatype Move =
    | ClientWrites(o: TlObject, now: nat, noise: Noise)
    | RequestBytes(n: nat)          // so many more bytes arrive at the server
    | ServerReads(env: Env)
    | AnswerBytes(n: nat)           // and at the client
    | ClientReads(now: nat)
    | Beside(event: ServerRuns.Event)

  function Write(wire: Wire, payload: bytes): Wire
    requires |payload| < TWO_24
  {
    wire.(coming := wire.coming + EncodeFrame(payload))
  }

  function Arrive(wire: Wire, n: nat): Wire {
    var k := if n <= |wire.coming| then n else |wire.coming|;
    Wire(wire.arrived + wire.coming[..k], wire.coming[k..])
  }

  /** What a pass of the loop writes: nothing, a sealed answer or a plain one. */
  function Written(out: Output): Option<bytes> {
    if out.sent.Some? then Some(out.sent.value.packet) else out.plain
  }

  /** Packets too long to frame are not written; the ends of a run that fits send none. */
  function WriteAll(wire: Wire, payload: Option<bytes>): Wire {
    if payload.Some? && |payload.value| < TWO_24 then Write(wire, payload.value) else wire
  }

  function Do(prims: Primitives, capacity: nat, id: i64, b: Wired, m: Move): Wired
    requires Lawful(prims)
  {
    match m
    case ClientWrites(o, now, noise) =>
      Wired(Sends(prims, b.w, o, now, noise), WriteAll(b.up, Some(ClientSend(prims, b.w.client, o, now, noise).1)), b.down)
    case RequestBytes(n) => b.(up := Arrive(b.up, n))
    case AnswerBytes(n) => b.(down := Arrive(b.down, n))
    case ServerReads(env) =>
      (match DecodeFrame(b.up.arrived)
       case Failed(_) => b
       case Frame(packet, rest) =>
         var (server, out) := Step(prims, capacity, b.w.server, packet, env);
         Wired(Taken(id, b.w, server, out, env), b.up.(arrived := rest), WriteAll(b.down, Written(out))))
    case ClientReads(now) =>
      (match DecodeFrame(b.down.arrived)
       case Failed(_) => b
       case Frame(packet, rest) =>
         var (client, r) := ClientRecv(prims, b.w.client, packet, now);
         Wired(Given(b.w, client, r), b.up, b.down.(arrived := rest)))
    case Beside(event) => b.(w := b.w.(server := StepEvent(prims, capacity, b.w.server, event).0))
  }

  function DoAll(prims: Primitives, capacity: nat, id: i64, b: Wired, moves: seq<Move>): Wired
    requires Lawful(prims)
    decreases |moves|
  {
    if moves == [] then b else DoAll(prims, capacity, id, Do(prims, capacity, id, b, moves[0]), moves[1..])
  }

  /** The action over channels that a move amounts to: none while bytes travel or a frame is incomplete. */
  function ActionOf(b: Wired, m: Move): Option<Action> {
    match m
    case ClientWrites(o, now, noise) => Some(ClientSends(o, now, noise))
    case ServerReads(env) => if DecodeFrame(b.up.arrived).Frame? then Some(ServerTakes(env)) else None
    case ClientReads(now) => if DecodeFrame(b.down.arrived).Frame? then Some(ClientTakes(now)) else None
    case Beside(event) => Some(Elsewhere(event))
    case _ => None
  }

  function ActionsOf(prims: Primitives, capacity: nat, id: i64, b: Wired, moves: seq<Move>): seq<Action>
    requires Lawful(prims)
    decreases |moves|
  {
    if moves == [] then []
    else
      var later := ActionsOf(prims, capacity, id, Do(prims, capacity, id, b, moves[0]), moves[1..]);
      match ActionOf(b, moves[0]) case Some(a) => [a] + later case None => later
  }

  // ---------- what may be sent ----------

  predicate FitsFrame(o: TlObject) {
    ProtocolObject(o, true) && |EncodeBoxed(o)| + OVERHEAD + HEADER <= MAX_FRAME_SIZE
  }

  /** Requests and answers are of the kinds the ends build, and no longer than a frame can be. */
  predicate Fit(m: Move) {
    match m
    case ClientWrites(o, _, _) => FitsFrame(o)
    case ServerReads(env) => ReplyOf(env.handled).Some? ==> FitsFrame(ReplyOf(env.handled).value)
    case _ => true
  }

  predicate AllFit(moves: seq<Move>) { forall i :: 0 <= i < |moves| ==> Fit(moves[i]) }

  lemma FittingPacket(o: TlObject, packet: bytes)
    requires FitsFrame(o) && |packet| == |EncodeBoxed(o)| + OVERHEAD + HEADER
    ensures Framable(packet) && |packet| < TWO_24
  {
    AvoidsMarker(o, true);
  }

  // ---------- a stream carries a channel ----------

  /** The packets under way. */
  function Payloads(ch: Channel): seq<bytes>
    requires ch.taken <= |ch.flights|
  {
    seq(|ch.flights| - ch.taken, i requires 0 <= i < |ch.flights| - ch.taken => ch.flights[ch.taken + i].raw)
  }

  /** The bytes of a stream are the frames of the packets under way. */
  ghost predicate Carries(wire: Wire, ch: Channel) {
    && ch.taken <= |ch.flights| && AllFramable(Payloads(ch))
    && wire.arrived + wire.coming == EncodeAll(Payloads(ch))
  }

  lemma {:induction false} EncodeAllSnoc(payloads: seq<bytes>, p: bytes)
    requires AllFramable(payloads) && Framable(p)
    ensures AllFramable(payloads + [p]) && EncodeAll(payloads + [p]) == EncodeAll(payloads) + EncodeFrame(p)
  {
    hide EncodeFrame;
    if payloads == [] {
      assert [] + [p] == [p];
      EncodeOne(p);
    } else {
      EncodeAllSnoc(payloads[1..], p);
      assert (payloads + [p])[1..] == payloads[1..] + [p];
      Reassociate(EncodeFrame(payloads[0]), EncodeAll(payloads[1..]), EncodeFrame(p));
    }
  }

  lemma EncodeOne(p: bytes)
    requires Framable(p)
    ensures EncodeAll([p]) == EncodeFrame(p) == EncodeAll([]) + EncodeFrame(p)
  {
  }

  lemma CarriesWrite(wire: Wire, ch: Channel, f: Flight)
    requires Carries(wire, ch) && Framable(f.raw)
    ensures Carries(Write(wire, f.raw), Push(ch, f))
  {
    hide EncodeFrame, EncodeAll;
    assert Payloads(Push(ch, f)) == Payloads(ch) + [f.raw];
    EncodeAllSnoc(Payloads(ch), f.raw);
    Reassociate(wire.arrived, wire.coming, EncodeFrame(f.raw));
  }

  lemma CarriesArrive(wire: Wire, ch: Channel, n: nat)
    requires Carries(wire, ch)
    ensures Carries(Arrive(wire, n), ch)
  {
    hide EncodeAll, AllFramable;
    var k := if n <= |wire.coming| then n else |wire.coming|;
    Reassociate(wire.arrived, wire.coming[..k], wire.coming[k..]);
  }

  lemma PayloadsPop(ch: Channel)
    requires Waiting(ch)
    ensures Payloads(ch) != [] && Payloads(ch)[0] == Head(ch).raw && Payloads(ch)[1..] == Payloads(Pop(ch))
  {
  }

  /** Reading yields the oldest packet under way, as soon as all of its frame has arrived. */
  lemma CarriesRead(wire: Wire, ch: Channel)
    requires Carries(wire, ch)
    ensures match DecodeFrame(wire.arrived)
      case Frame(packet, rest) => Waiting(ch) && packet == Head(ch).raw && Carries(wire.(arrived := rest), Pop(ch))
      case Failed(_) => wire.coming == [] ==> !Waiting(ch)
  {
    hide EncodeFrame, DecodeFrame, Framable;
    PrefixDecodes(Payloads(ch), wire.arrived, wire.coming);
    if Waiting(ch) {
      PayloadsPop(ch);
      if wire.coming == [] { LongEnough(wire.arrived, Payloads(ch)); }
    }
  }

  lemma LongEnough(buf: bytes, payloads: seq<bytes>)
    requires payloads != [] && AllFramable(payloads) && buf + [] == EncodeAll(payloads)
    ensures |EncodeFrame(payloads[0])| <= |buf|
  {
    assert buf + [] == buf;
  }

  /** An empty stream carries nothing. */
  lemma EmptyStream(wire: Wire, ch: Channel)
    requires Carries(wire, ch) && wire.arrived == wire.coming == []
    ensures ch.taken == |ch.flights|
  {
    if Waiting(ch) { LongEnough([], Payloads(ch)); }
  }

  ghost predicate Joined(b: Wired) { Carries(b.up, b.w.up) && Carries(b.down, b.w.down) }

  // ---------- the streams refine the channels ----------

  lemma WriteJoined(prims: Primitives, capacity: nat, id: i64, keys: SessionCrypto, b: Wired, o: TlObject, now: nat, noise: Noise)
    requires Lawful(prims) && Base(prims, capacity, id, keys, b.w) && Joined(b) && FitsFrame(o)
    ensures Joined(Do(prims, capacity, id, b, ClientWrites(o, now, noise)))
  {
    hide ClientSend, EncodeBoxed, ProtocolObject, Carries, EncodeFrame, Base, Framable;
    assert b.w.client.crypto.Some? by { BaseHasKeys(prims, capacity, id, keys, b.w); }
    var raw := ClientSend(prims, b.w.client, o, now, noise).1;
    ClientPacketLength(prims, b.w.client, o, now, noise);
    FittingPacket(o, raw);
    CarriesWrite(b.up, b.w.up, Flight(raw, o, now));
  }

  lemma BaseHasKeys(prims: Primitives, capacity: nat, id: i64, keys: SessionCrypto, w: World)
    requires Lawful(prims) && Base(prims, capacity, id, keys, w)
    ensures w.client.crypto.Some?
  {
  }

  /** A pass on a session's frame writes a sealed answer or nothing. */
  lemma SessionWritesSealed(prims: Primitives, capacity: nat, st: ServerState, raw: bytes, env: Env, id: i64)
    requires Lawful(prims) && Inv(capacity, st) && Addresses(st, raw, id)
    ensures Step(prims, capacity, st, raw, env).1.plain.None?
  {
    hide Respond, ApplyHandled, Receive, EncodeBoxed, DecodeBoxed, Inv;
    GetKeeps(capacity, st, id);
  }

  lemma AnswerJoins(prims: Primitives, capacity: nat, id: i64, keys: SessionCrypto, w: World, down: Wire, env: Env)
    requires Lawful(prims) && Base(prims, capacity, id, keys, w) && Waiting(w.up) && NoCollision(w.server, env.handled)
    requires Carries(down, w.down) && Fit(ServerReads(env))
    ensures var out := Step(prims, capacity, w.server, Head(w.up).raw, env).1;
      Carries(WriteAll(down, Written(out)), Takes(prims, capacity, id, w, env).down)
  {
    hide Step, Carries, EncodeBoxed, ProtocolObject, PacketOf, Inv, EncodeFrame, Framable;
    var (server, out) := Step(prims, capacity, w.server, Head(w.up).raw, env);
    HeadIsClear(prims, capacity, id, keys, w);
    SessionWritesSealed(prims, capacity, w.server, Head(w.up).raw, env, id);
    StepSeals(prims, capacity, w.server, Head(w.up).raw, env);
    if out.sent.Some? {
      var s, reply := out.sent.value, ReplyOf(env.handled).value;
      AnswerLength(prims, w.server.table[s.id], s);
      FittingPacket(reply, s.packet);
      CarriesWrite(down, w.down, Flight(s.packet, reply, env.nowReply));
    }
  }

  lemma ServerReadJoined(prims: Primitives, capacity: nat, id: i64, keys: SessionCrypto, b: Wired, env: Env)
    requires Lawful(prims) && Base(prims, capacity, id, keys, b.w) && Joined(b) && Fit(ServerReads(env))
    requires DecodeFrame(b.up.arrived).Frame? && NoCollision(b.w.server, env.handled)
    ensures var b' := Do(prims, capacity, id, b, ServerReads(env));
      Joined(b') && b'.w == Act(prims, capacity, id, b.w, ServerTakes(env))
  {
    hide Step, Carries, DecodeFrame, WriteAll, Written, Fit, Base;
    CarriesRead(b.up, b.w.up);
    AnswerJoins(prims, capacity, id, keys, b.w, b.down, env);
  }

  lemma ClientReadJoined(prims: Primitives, capacity: nat, id: i64, b: Wired, now: nat)
    requires Lawful(prims) && Joined(b) && DecodeFrame(b.down.arrived).Frame?
    ensures var b' := Do(prims, capacity, id, b, ClientReads(now));
      Joined(b') && b'.w == Act(prims, capacity, id, b.w, ClientTakes(now))
  {
    hide ClientRecv, Carries, DecodeFrame;
    CarriesRead(b.down, b.w.down);
  }

  /** Every move over streams is an action over channels, or no action. */
  lemma MoveRefines(prims: Primitives, capacity: nat, id: i64, keys: SessionCrypto, b: Wired, m: Move)
    requires Lawful(prims) && Base(prims, capacity, id, keys, b.w) && Joined(b) && Fit(m)
    requires ActionOf(b, m).Some? ==> Admissible(prims, id, b.w, ActionOf(b, m).value)
    ensures var b' := Do(prims, capacity, id, b, m);
      && Joined(b')
      && b'.w == (match ActionOf(b, m) case Some(a) => Act(prims, capacity, id, b.w, a) case None => b.w)
  {
    hide Base, Carries, DecodeFrame, Step, ClientRecv, ClientSend, StepEvent, Harmless, EncodeFrame;
    match m
    case ClientWrites(o, now, noise) => WriteJoined(prims, capacity, id, keys, b, o, now, noise);
    case RequestBytes(n) => CarriesArrive(b.up, b.w.up, n);
    case AnswerBytes(n) => CarriesArrive(b.down, b.w.down, n);
    case ServerReads(env) =>
      if DecodeFrame(b.up.arrived).Frame? { ServerReadJoined(prims, capacity, id, keys, b, env); }
    case ClientReads(now) =>
      if DecodeFrame(b.down.arrived).Frame? { ClientReadJoined(prims, capacity, id, b, now); }
    case Beside(event) =>
  }

  lemma ActAllCons(prims: Primitives, capacity: nat, id: i64, w: World, a: Action, later: seq<Action>)
    requires Lawful(prims)
    ensures ActAll(prims, capacity, id, w, [a] + later) == ActAll(prims, capacity, id, Act(prims, capacity, id, w, a), later)
    ensures AllAdmissible(prims, capacity, id, w, [a] + later) <==>
      Admissible(prims, id, w, a) && AllAdmissible(prims, capacity, id, Act(prims, capacity, id, w, a), later)
  {
    hide Act, Admissible;
    assert ([a] + later)[1..] == later;
  }

  /** However the streams are cut and whenever an end tries to read, the ends do what they do over channels:
      each run over streams is a run over channels, and the bytes under way are the frames of the packets
      under way. */
  lemma {:induction false} StreamsRefineChannels(prims: Primitives, capacity: nat, id: i64, keys: SessionCrypto, b: Wired, moves: seq<Move>)
    requires Lawful(prims) && Base(prims, capacity, id, keys, b.w) && Joined(b) && AllFit(moves)
    requires AllAdmissible(prims, capacity, id, b.w, ActionsOf(prims, capacity, id, b, moves))
    ensures var b' := DoAll(prims, capacity, id, b, moves);
      Joined(b') && b'.w == ActAll(prims, capacity, id, b.w, ActionsOf(prims, capacity, id, b, moves))
    decreases |moves|
  {
    hide Base, Joined, Do, ActionOf, Act, Admissible, Fit;
    if moves != [] {
      var a, b' := ActionOf(b, moves[0]), Do(prims, capacity, id, b, moves[0]);
      if a.Some? {
        ActAllCons(prims, capacity, id, b.w, a.value, ActionsOf(prims, capacity, id, b', moves[1..]));
        ActKeepsBase(prims, capacity, id, keys, b.w, a.value);
      }
      MoveRefines(prims, capacity, id, keys, b, moves[0]);
      StreamsRefineChannels(prims, capacity, id, keys, b', moves[1..]);
    }
  }

  // ---------- lockstep over streams ----------

  const EMPTY_WIRE := Wire([], [])

  lemma {:induction false} TimelyIsAdmissible(prims: Primitives, capacity: nat, epoch: nat, id: i64, w: World, actions: seq<Action>)
    requires Lawful(prims) && AllTimely(prims, capacity, epoch, id, w, actions)
    ensures AllAdmissible(prims, capacity, id, w, actions)
    decreases |actions|
  {
    hide Act, Admissible;
    if actions != [] {
      TimelyIsAdmissible(prims, capacity, epoch, id, Act(prims, capacity, id, w, actions[0]), actions[1..]);
    }
  }

  /** Lockstep over byte streams: under any chunking and any attempts to read, with agreeing clocks, each
      end's sending number is the other's receiving number plus the packets under way; what was handled is
      what was sent, in order and exactly once, up to the packets under way. If all bytes have arrived,
      whatever is left can be read, and once the streams are empty everything sent has been handled and
      every answer returned. */
  lemma StreamsInLockstep(prims: Primitives, capacity: nat, epoch: nat, id: i64, start: World, moves: seq<Move>)
    requires Lawful(prims) && JustAuthenticated(capacity, id, start) && AllFit(moves)
    requires AllTimely(prims, capacity, epoch, id, start, ActionsOf(prims, capacity, id, Wired(start, EMPTY_WIRE, EMPTY_WIRE), moves))
    ensures var Wired(w, up, down) := DoAll(prims, capacity, id, Wired(start, EMPTY_WIRE, EMPTY_WIRE), moves);
      && id in w.server.table && InFlight(w.up) >= 0 && InFlight(w.down) >= 0
      && w.client.seqNo == Wrap32(w.server.table[id].recvSeqNo + InFlight(w.up))
      && w.server.table[id].sendSeqNo == Wrap32(w.client.recvSeqNo + InFlight(w.down))
      && Objects(w.up.flights) == w.handled + Objects(w.up.flights[w.up.taken..])
      && w.answered == w.returned + Objects(w.down.flights[w.down.taken..])
      && AllFramable(Payloads(w.up)) && up.arrived + up.coming == EncodeAll(Payloads(w.up))
      && AllFramable(Payloads(w.down)) && down.arrived + down.coming == EncodeAll(Payloads(w.down))
      && (up.coming == [] && Waiting(w.up) ==> DecodeFrame(up.arrived).Frame?)
      && (down.coming == [] && Waiting(w.down) ==> DecodeFrame(down.arrived).Frame?)
      && (up == EMPTY_WIRE ==> w.handled == Objects(w.up.flights))
      && (down == EMPTY_WIRE ==> w.returned == w.answered)
  {
    hide Base, DoAll, ActionsOf, ActAll, AllTimely, AllAdmissible, AllFit, DecodeFrame, JustAuthenticated, EncodeAll, AllFramable, Payloads;
    var b := Wired(start, EMPTY_WIRE, EMPTY_WIRE);
    var actions := ActionsOf(prims, capacity, id, b, moves);
    StartIsBase(prims, capacity, id, start);
    StartIsJoined(capacity, id, start);
    TimelyIsAdmissible(prims, capacity, epoch, id, start, actions);
    StreamsRefineChannels(prims, capacity, id, start.client.crypto.value, b, moves);
    EndsInLockstep(prims, capacity, epoch, id, start, actions);
    var b' := DoAll(prims, capacity, id, b, moves);
    CarriesRead(b'.up, b'.w.up);
    CarriesRead(b'.down, b'.w.down);
    if b'.up == EMPTY_WIRE { EmptyStream(b'.up, b'.w.up); }
    if b'.down == EMPTY_WIRE { EmptyStream(b'.down, b'.w.down); }
  }

  lemma StartIsJoined(capacity: nat, id: i64, start: World)
    requires JustAuthenticated(capacity, id, start)
    ensures Joined(Wired(start, EMPTY_WIRE, EMPTY_WIRE))
  {
  }
}
