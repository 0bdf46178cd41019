/** The LRU cache refines a plain map: with any capacity and any evictions, the server behaves like one
    that keeps every session in memory for ever, until a replayed id is presented that an eviction has
    made it forget. */
module Refinement {
  import opened Wrappers
  import opened Bytes
  import opened TlTypes
  import opened TlObjects
  import opened Crypto
  import opened MsgId
  import opened ServerModel
  import opened ServerInvariant
  import opened ServerRuns

  /** Sessions and their recent ids in maps without bounds. The receive counter is not kept. */
  datatype Reference = Reference(rows: map<i64, FullSession>, recent: map<i64, seq<i64>>)

  function Normal(row: FullSession): FullSession { row.(recvCounter := 0) }

  function RecentOf(ref: Reference, id: i64): seq<i64> {
    if id in ref.recent then ref.recent[id] else []
  }

  function RefHandled(ref: Reference, key: Option<i64>, handled: Handled): Reference {
    match handled
    case SignedUp(userId) =>
      if key.Some? && key.value in ref.rows
      then ref.(rows := ref.rows[key.value := ref.rows[key.value].(userId := userId)]) else ref
    case Established(session, _) =>
      var id := session.authKeyId;
      Reference(ref.rows[id := Normal(RowOf(id, session))], ref.recent[id := []])
    case _ => ref
  }

  function RefAnswer(prims: Primitives, row: FullSession, id: i64, body: bytes, now: nat, noise: Noise): Sent
    requires Lawful(prims)
  {
    var header := Header(MakeMsgId(now, row.msgIdCounter), Wrap32(row.sendSeqNo + 1), body);
    Sent(id, row.sendCounter, header, noise,
      EncodePacket(id, Seal(prims, row.serverWriteKey, row.serverMacKey, row.sendCounter, EncodeHeader(header), noise)))
  }

  function RefAccepted(prims: Primitives, ref: Reference, id: i64, receipt: Receipt, env: Env): (Reference, Output)
    requires Lawful(prims) && receipt.Received?
  {
    var seen := SILENT.(receipt := Some((id, receipt)));
    match DecodeBoxed(receipt.header.body)
    case Bad(_) => (ref, seen)
    case Got(o, _) =>
      var ref' := RefHandled(ref, Some(id), env.handled);
      var out := seen.(request := Some(o), closed := env.handled.Failed?);
      var reply := ReplyOf(env.handled);
      if reply.None? || id !in ref'.rows then (ref', out)
      else
        var row := ref'.rows[id];
        (ref'.(rows := ref'.rows[id := AnsweredRow(row, 0)]),
         out.(sent := Some(RefAnswer(prims, row, id, EncodeBoxed(reply.value), env.nowReply, env.noise))))
  }

  function RefRemember(ref: Reference, id: i64, m: Option<i64>): Reference {
    if m.None? then ref else ref.(recent := ref.recent[id := Pushed(RecentOf(ref, id), m.value)])
  }

  function RefSession(prims: Primitives, ref: Reference, id: i64, raw: bytes, env: Env): (Reference, Output)
    requires Lawful(prims) && id in ref.rows
  {
    var (receipt, remembered) := Examine(prims, Stored(ref.rows[id], RecentOf(ref, id)), raw, env.nowCheck);
    var ref' := RefRemember(ref, id, remembered);
    if receipt.Received? then
      RefAccepted(prims, ref'.(rows := ref'.rows[id := AcceptedRow(ref'.rows[id], receipt.header)]), id, receipt, env)
    else (ref', SILENT.(receipt := Some((id, receipt)), closed := receipt.Broken?))
  }

  function RefPlain(ref: Reference, raw: bytes, env: Env): (Reference, Output) {
    match DecodeBoxed(raw)
    case Bad(_) => (ref, SILENT)
    case Got(o, _) =>
      var reply := ReplyOf(env.handled);
      (RefHandled(ref, None, env.handled),
       SILENT.(request := Some(o), plain := if reply.None? then None else Some(EncodeBoxed(reply.value)),
               closed := env.handled.Failed?))
  }

  function RefStep(prims: Primitives, ref: Reference, raw: bytes, env: Env): (Reference, Output)
    requires Lawful(prims)
  {
    if |raw| >= 8 && PacketKeyId(raw) != 0 && PacketKeyId(raw) in ref.rows
    then RefSession(prims, ref, PacketKeyId(raw), raw, env)
    else RefPlain(ref, raw, env)
  }

  // ---------- the rows ----------

  /** Same rows up to the receive counter. */
  ghost predicate Abreast(capacity: nat, st: ServerState, ref: Reference) {
    && Inv(capacity, st) && st.table.Keys == ref.rows.Keys
    && (forall id :: id in st.table ==> ref.rows[id] == Normal(st.table[id]))
  }

  /** Outputs that accept, hand over and answer the same; a frame that neither accepts may be dropped for
      different reasons. */
  ghost predicate SameOutcome(a: Output, b: Output) {
    && a.request == b.request && a.sent == b.sent && a.plain == b.plain && a.closed == b.closed
    && (if a.receipt.None? then b.receipt.None?
        else b.receipt.Some? && a.receipt.value.0 == b.receipt.value.0 && SameDecision(a.receipt.value.1, b.receipt.value.1))
  }

  predicate SameDecision(a: Receipt, b: Receipt) {
    && (a.Received? <==> b.Received?) && (a.Received? ==> a.header == b.header) && (a.Broken? <==> b.Broken?)
  }

  lemma AbreastHandled(capacity: nat, st: ServerState, ref: Reference, key: Option<i64>, handled: Handled)
    requires Abreast(capacity, st, ref) && NoCollision(st, handled) && (key.Some? ==> key.value in st.table)
    ensures Abreast(capacity, ApplyHandled(capacity, st, key, handled), RefHandled(ref, key, handled))
  {
    HandledKeeps(capacity, st, key, handled);
  }

  /** The handler leaves both machines abreast, and the session's keys and nonce counter alone. */
  lemma HandledAbreast(capacity: nat, st: ServerState, ref: Reference, id: i64, crypto: SessionCrypto, handled: Handled)
    requires Abreast(capacity, st, ref) && id in st.table && NoCollision(st, handled)
    requires SameKeys(crypto, Load(id, st.table[id]).crypto) && crypto.sendCounter == st.table[id].sendCounter
    ensures var mid, midRef := ApplyHandled(capacity, st, Some(id), handled), RefHandled(ref, Some(id), handled);
      && Abreast(capacity, mid, midRef) && id in mid.table && id in midRef.rows
      && SameKeys(crypto, Load(id, mid.table[id]).crypto) && crypto.sendCounter == mid.table[id].sendCounter
  {
    AbreastHandled(capacity, st, ref, Some(id), handled);
    HandledSteps(capacity, st, Some(id), handled);
    hide ApplyHandled, RefHandled;
    assert Untouched(st.table[id], ApplyHandled(capacity, st, Some(id), handled).table[id]);
  }

  lemma AbreastAnswered(prims: Primitives, capacity: nat, st: ServerState, ref: Reference, id: i64, crypto: SessionCrypto, body: bytes, now: nat, noise: Noise)
    requires Lawful(prims) && Abreast(capacity, st, ref) && id in st.table
    requires SameKeys(crypto, Load(id, st.table[id]).crypto) && crypto.sendCounter == st.table[id].sendCounter
    ensures var (st', sent) := Respond(prims, capacity, st, id, crypto, body, now, noise);
      && Abreast(capacity, st', ref.(rows := ref.rows[id := AnsweredRow(ref.rows[id], 0)]))
      && sent == RefAnswer(prims, ref.rows[id], id, body, now, noise)
  {
    hide EncodeBoxed, MakeMsgId, EncodePacket, Seal, Respond, Inv;
    RespondKeeps(prims, capacity, st, id, crypto, body, now, noise);
  }

  lemma AbreastAccepted(prims: Primitives, capacity: nat, st: ServerState, ref: Reference, id: i64, receipt: Receipt, receipt': Receipt, env: Env)
    requires Lawful(prims) && Abreast(capacity, st, ref) && id in st.table && NoCollision(st, env.handled)
    requires receipt.Received? && receipt'.Received? && receipt.header == receipt'.header
    requires SameKeys(receipt.crypto, Load(id, st.table[id]).crypto)
    requires receipt.crypto.sendCounter == st.table[id].sendCounter
    ensures var (st', out) := StepAccepted(prims, capacity, st, id, receipt.header, receipt.crypto, env);
      var (ref', out') := RefAccepted(prims, ref, id, receipt', env);
      Abreast(capacity, st', ref') && SameOutcome(out, out')
  {
    hide Abreast, EncodeBoxed, ApplyHandled, RefHandled, Respond, RefAnswer, Load;
    HandledAbreast(capacity, st, ref, id, receipt.crypto, env.handled);
    var mid, midRef := ApplyHandled(capacity, st, Some(id), env.handled), RefHandled(ref, Some(id), env.handled);
    var reply := ReplyOf(env.handled);
    if DecodeBoxed(receipt.header.body).Got? && reply.Some? {
      AbreastAnswered(prims, capacity, mid, midRef, id, receipt.crypto, EncodeBoxed(reply.value), env.nowReply, env.noise);
    }
  }

  function RefVerdictOn(prims: Primitives, ref: Reference, raw: bytes, id: i64, now: nat): Receipt
    requires Lawful(prims) && id in ref.rows
  {
    Examine(prims, Stored(ref.rows[id], RecentOf(ref, id)), raw, now).0
  }

  lemma AcceptedRowAbreast(capacity: nat, st: ServerState, st': ServerState, ref: Reference, ref1: Reference, id: i64, h: Header)
    requires Abreast(capacity, st, ref) && id in st.table && Inv(capacity, st') && ref1.rows == ref.rows
    requires st'.table == st.table[id := AcceptedRow(st.table[id], h)]
    ensures Abreast(capacity, st', ref1.(rows := ref1.rows[id := AcceptedRow(ref1.rows[id], h)]))
  {
  }

  lemma AbreastSession(prims: Primitives, capacity: nat, st: ServerState, ref: Reference, id: i64, raw: bytes, env: Env)
    requires Lawful(prims) && Abreast(capacity, st, ref) && id in st.table && NoCollision(st, env.handled)
    requires SameDecision(VerdictOn(prims, st, raw, id, env.nowCheck), RefVerdictOn(prims, ref, raw, id, env.nowCheck))
    ensures var (st', out) := StepSession(prims, capacity, st, id, raw, env);
      var (ref', out') := RefSession(prims, ref, id, raw, env);
      Abreast(capacity, st', ref') && SameOutcome(out, out')
  {
    hide Unseal, DiffMs, Wrap32, EncodeBoxed, DecodeBoxed;
    GetKeeps(capacity, st, id);
    var (st1, c) := Get(capacity, st, id);
    VerdictFromRow(prims, st.table, c.value, raw, env.nowCheck);
    ReceiveKeeps(prims, capacity, st1, c.value, raw, env.nowCheck);
    var (st2, receipt) := Receive(prims, capacity, st1, c.value, raw, env.nowCheck);
    var (receipt', m) := Examine(prims, Stored(ref.rows[id], RecentOf(ref, id)), raw, env.nowCheck);
    var ref1 := RefRemember(ref, id, m);
    if receipt.Received? {
      AcceptedRowAbreast(capacity, st, st2, ref, ref1, id, receipt.header);
      hide Abreast, StepAccepted, RefAccepted, Inv;
      var ref2 := ref1.(rows := ref1.rows[id := AcceptedRow(ref1.rows[id], receipt.header)]);
      AbreastAccepted(prims, capacity, st2, ref2, id, receipt, receipt', env);
    }
  }

  /** One frame on which both machines decide alike: the rows stay abreast and they show the same. */
  lemma AbreastStep(prims: Primitives, capacity: nat, st: ServerState, ref: Reference, raw: bytes, env: Env)
    requires Lawful(prims) && Abreast(capacity, st, ref) && NoCollision(st, env.handled)
    requires forall id: i64 :: Addresses(st, raw, id) ==>
      SameDecision(VerdictOn(prims, st, raw, id, env.nowCheck), RefVerdictOn(prims, ref, raw, id, env.nowCheck))
    ensures var (st', out) := Step(prims, capacity, st, raw, env);
      var (ref', out') := RefStep(prims, ref, raw, env);
      Abreast(capacity, st', ref') && SameOutcome(out, out')
  {
    hide Inv, Wrap32, DiffMs, Unseal;
    if |raw| >= 8 && PacketKeyId(raw) != 0 {
      var id := PacketKeyId(raw);
      GetKeeps(capacity, st, id);
      var (st1, c) := Get(capacity, st, id);
      if c.Some? {
        assert Recents(st1, id) == Recents(st, id);
        hide StepSession, RefSession, Examine;
        AbreastSession(prims, capacity, st1, ref, id, raw, env);
      } else {
        AbreastHandled(capacity, st1, ref, None, env.handled);
      }
    } else {
      AbreastHandled(capacity, st, ref, None, env.handled);
    }
  }

  // ---------- the recent ids ----------

  function Remember(ids: seq<i64>, m: Option<i64>): seq<i64> {
    if m.None? then ids else Pushed(ids, m.value)
  }

  /** The id a frame makes its session remember. */
  function Remembered(prims: Primitives, st: ServerState, raw: bytes, id: i64, now: nat): Option<i64>
    requires Lawful(prims)
  {
    if Addresses(st, raw, id) then Examine(prims, Stored(st.table[id], Recents(st, id)), raw, now).1 else None
  }

  function RefRemembered(prims: Primitives, ref: Reference, raw: bytes, id: i64, now: nat): Option<i64>
    requires Lawful(prims)
  {
    if |raw| >= 8 && PacketKeyId(raw) == id && id != 0 && id in ref.rows
    then Examine(prims, Stored(ref.rows[id], RecentOf(ref, id)), raw, now).1 else None
  }

  lemma AcceptedRecents(prims: Primitives, capacity: nat, st: ServerState, id: i64, h: Header, crypto: SessionCrypto, env: Env, x: i64)
    requires Lawful(prims) && Inv(capacity, st) && id in st.table && NoCollision(st, env.handled)
    requires SameKeys(crypto, Load(id, st.table[id]).crypto) && crypto.sendCounter == st.table[id].sendCounter
    ensures var st' := StepAccepted(prims, capacity, st, id, h, crypto, env).0;
      && (x in st.table ==> Recents(st', x) == [] || Recents(st', x) == Recents(st, x))
      && (x !in st.table && x in st'.table ==> Recents(st', x) == [])
  {
    hide StepAccepted, Inv;
    AcceptedKeeps(prims, capacity, st, id, h, crypto, env);
  }

  lemma SessionRecents(prims: Primitives, capacity: nat, st: ServerState, id: i64, raw: bytes, env: Env, x: i64)
    requires Lawful(prims) && Inv(capacity, st) && id in st.table && NoCollision(st, env.handled)
    ensures var st' := StepSession(prims, capacity, st, id, raw, env).0;
      var m := Examine(prims, Stored(st.table[id], Recents(st, id)), raw, env.nowCheck).1;
      && (x in st.table ==> Recents(st', x) == [] || Recents(st', x) == if x == id then Remember(Recents(st, id), m) else Recents(st, x))
      && (x !in st.table && x in st'.table ==> Recents(st', x) == [])
  {
    GetKeeps(capacity, st, id);
    var (st1, c) := Get(capacity, st, id);
    VerdictFromRow(prims, st.table, c.value, raw, env.nowCheck);
    ReceiveKeeps(prims, capacity, st1, c.value, raw, env.nowCheck);
    var (st2, receipt) := Receive(prims, capacity, st1, c.value, raw, env.nowCheck);
    OthersKeptTwice(st, st1, st2, id);
    OthersRecents(st, st2, id);
    hide Inv, Examine, StepAccepted;
    assert x != id ==> Recents(st2, x) == [] || Recents(st2, x) == Recents(st, x);
    if receipt.Received? {
      AcceptedRecents(prims, capacity, st2, id, receipt.header, receipt.crypto, env, x);
    }
  }

  /** What one pass of the loop does to the recent ids of a session: the frame's id is added if the frame gets
      that far, and all may be forgotten with the entry. */
  lemma StepRecents(prims: Primitives, capacity: nat, st: ServerState, raw: bytes, env: Env, x: i64)
    requires Lawful(prims) && Inv(capacity, st) && NoCollision(st, env.handled)
    ensures var st' := Step(prims, capacity, st, raw, env).0;
      && (x in st.table ==>
            Recents(st', x) == [] || Recents(st', x) == Remember(Recents(st, x), Remembered(prims, st, raw, x, env.nowCheck)))
      && (x !in st.table && x in st'.table ==> Recents(st', x) == [])
  {
    hide Inv, Examine, StepSession, ApplyHandled;
    if |raw| >= 8 && PacketKeyId(raw) != 0 {
      var id := PacketKeyId(raw);
      GetKeeps(capacity, st, id);
      var (st1, c) := Get(capacity, st, id);
      OthersRecents(st, st1, id);
      assert x != id ==> Recents(st1, x) == [] || Recents(st1, x) == Recents(st, x);
      if c.Some? {
        SessionRecents(prims, capacity, st1, id, raw, env, x);
      } else {
        HandledSteps(capacity, st1, None, env.handled);
      }
    } else {
      HandledSteps(capacity, st, None, env.handled);
    }
  }

  lemma RefHandledRecents(ref: Reference, key: Option<i64>, handled: Handled, x: i64)
    requires handled.Established? ==> handled.session.authKeyId !in ref.rows
    ensures var ref' := RefHandled(ref, key, handled);
      && (x in ref.rows ==> RecentOf(ref', x) == RecentOf(ref, x))
      && (x !in ref.rows && x in ref'.rows ==> RecentOf(ref', x) == [])
  {
  }

  /** The same for the reference, which forgets nothing but by its bound. */
  lemma RefRecents(prims: Primitives, ref: Reference, raw: bytes, env: Env, x: i64)
    requires Lawful(prims)
    requires env.handled.Established? ==> env.handled.session.authKeyId !in ref.rows
    ensures var ref' := RefStep(prims, ref, raw, env).0;
      && (x in ref.rows ==> RecentOf(ref', x) == Remember(RecentOf(ref, x), RefRemembered(prims, ref, raw, x, env.nowCheck)))
      && (x !in ref.rows && x in ref'.rows ==> RecentOf(ref', x) == [])
  {
    hide Examine, RefHandled, EncodeBoxed, RefAnswer, Pushed;
    if |raw| >= 8 && PacketKeyId(raw) != 0 && PacketKeyId(raw) in ref.rows {
      var id := PacketKeyId(raw);
      var (receipt, m) := Examine(prims, Stored(ref.rows[id], RecentOf(ref, id)), raw, env.nowCheck);
      var ref1 := RefRemember(ref, id, m);
      if receipt.Received? {
        RefHandledRecents(ref1.(rows := ref1.rows[id := AcceptedRow(ref1.rows[id], receipt.header)]), Some(id), env.handled, x);
      }
    } else {
      RefHandledRecents(ref, None, env.handled, x);
    }
  }

  // ---------- in step ----------

  /** Abreast, and in memory the newest of the reference's recent ids. */
  ghost predicate Sim(capacity: nat, st: ServerState, ref: Reference) {
    Abreast(capacity, st, ref) && forall id :: id in st.table ==> Recents(st, id) <= RecentOf(ref, id)
  }

  /** Outputs that also give the same reasons. */
  ghost predicate SameOutput(a: Output, b: Output) {
    SameOutcome(a, b) && (a.receipt.Some? ==> SameVerdict(a.receipt.value.1, b.receipt.value.1))
  }

  lemma {:induction false} WithoutAbsent(ids: seq<i64>, m: i64)
    requires m !in ids
    ensures Without(ids, m) == ids
  {
    if ids != [] { WithoutAbsent(ids[1..], m); }
  }

  lemma PushedPrefix(a: seq<i64>, b: seq<i64>, m: i64)
    requires a <= b && m !in b
    ensures Pushed(a, m) <= Pushed(b, m)
  {
    assert m !in a;
    WithoutAbsent(a, m);
    WithoutAbsent(b, m);
    assert [m] + a <= [m] + b;
  }

  /** The frame replays an id the reference remembers and the cache has lost with an eviction. */
  ghost predicate ForgottenReplay(prims: Primitives, st: ServerState, ref: Reference, raw: bytes)
    requires Lawful(prims)
  {
    |raw| >= 8 &&
    var id := PacketKeyId(raw);
    Addresses(st, raw, id) &&
    var unsealed := Unseal(prims, Load(id, st.table[id]).crypto, raw);
    unsealed.Clear? && unsealed.header.msgId > st.table[id].lastMsgId
    && unsealed.header.msgId in RecentOf(ref, id) && unsealed.header.msgId !in Recents(st, id)
  }

  /** But for a forgotten replay, both judge alike and remember alike. */
  lemma SimExamine(prims: Primitives, capacity: nat, st: ServerState, ref: Reference, raw: bytes, id: i64, now: nat)
    requires Lawful(prims) && Sim(capacity, st, ref) && Addresses(st, raw, id) && !ForgottenReplay(prims, st, ref, raw)
    ensures SameVerdict(VerdictOn(prims, st, raw, id, now), RefVerdictOn(prims, ref, raw, id, now))
    ensures SameDecision(VerdictOn(prims, st, raw, id, now), RefVerdictOn(prims, ref, raw, id, now))
    ensures var m := Remembered(prims, st, raw, id, now);
      m == RefRemembered(prims, ref, raw, id, now) && (m.Some? ==> m.value !in RecentOf(ref, id))
  {
  }

  lemma SimRecents(prims: Primitives, capacity: nat, st: ServerState, ref: Reference, raw: bytes, env: Env, x: i64)
    requires Lawful(prims) && Sim(capacity, st, ref) && NoCollision(st, env.handled) && !ForgottenReplay(prims, st, ref, raw)
    ensures var st', ref' := Step(prims, capacity, st, raw, env).0, RefStep(prims, ref, raw, env).0;
      x in st'.table && x in ref'.rows ==> Recents(st', x) <= RecentOf(ref', x)
  {
    hide Step, RefStep, ForgottenReplay, Examine, Inv;
    StepRecents(prims, capacity, st, raw, env, x);
    RefRecents(prims, ref, raw, env, x);
    if x in st.table {
      if Addresses(st, raw, x) {
        SimExamine(prims, capacity, st, ref, raw, x, env.nowCheck);
        var m := Remembered(prims, st, raw, x, env.nowCheck);
        if m.Some? { PushedPrefix(Recents(st, x), RecentOf(ref, x), m.value); }
      }
    }
  }

  /** The receipts shown are the verdicts. */
  lemma ShownVerdicts(prims: Primitives, capacity: nat, st: ServerState, ref: Reference, raw: bytes, env: Env)
    requires Lawful(prims) && Abreast(capacity, st, ref)
    ensures var out, out' := Step(prims, capacity, st, raw, env).1, RefStep(prims, ref, raw, env).1;
      && (out.receipt.Some? ==> Addresses(st, raw, out.receipt.value.0))
      && (forall id: i64 :: Addresses(st, raw, id) ==>
            && Judged(out, id, VerdictOn(prims, st, raw, id, env.nowCheck))
            && out'.receipt == Some((id, RefVerdictOn(prims, ref, raw, id, env.nowCheck))))
  {
    hide Step, RefStep, Inv;
    StepVerdict(prims, capacity, st, raw, env);
    forall id: i64 | Addresses(st, raw, id)
      ensures RefStep(prims, ref, raw, env).1.receipt == Some((id, RefVerdictOn(prims, ref, raw, id, env.nowCheck)))
    {
      RefReceipt(prims, ref, raw, env, id);
    }
  }

  /** One frame: the two machines stay in step and show the same. */
  lemma SimStep(prims: Primitives, capacity: nat, st: ServerState, ref: Reference, raw: bytes, env: Env)
    requires Lawful(prims) && Sim(capacity, st, ref) && NoCollision(st, env.handled)
    requires !ForgottenReplay(prims, st, ref, raw)
    ensures var (st', out) := Step(prims, capacity, st, raw, env);
      var (ref', out') := RefStep(prims, ref, raw, env);
      Sim(capacity, st', ref') && SameOutput(out, out')
  {
    hide Step, RefStep, ForgottenReplay, Inv, Recents, RecentOf, VerdictOn, RefVerdictOn;
    forall id: i64 | Addresses(st, raw, id)
      ensures SameDecision(VerdictOn(prims, st, raw, id, env.nowCheck), RefVerdictOn(prims, ref, raw, id, env.nowCheck))
      ensures SameVerdict(VerdictOn(prims, st, raw, id, env.nowCheck), RefVerdictOn(prims, ref, raw, id, env.nowCheck))
    {
      SimExamine(prims, capacity, st, ref, raw, id, env.nowCheck);
    }
    AbreastStep(prims, capacity, st, ref, raw, env);
    ShownVerdicts(prims, capacity, st, ref, raw, env);
    forall x: i64 { SimRecents(prims, capacity, st, ref, raw, env, x); }
  }

  /** The two verdicts on one frame: equal but for a forgotten replay. */
  lemma VerdictsDiverge(prims: Primitives, capacity: nat, st: ServerState, ref: Reference, raw: bytes, now: nat, id: i64)
    requires Lawful(prims) && Sim(capacity, st, ref) && Addresses(st, raw, id)
    ensures var a := VerdictOn(prims, st, raw, id, now);
      var b := Examine(prims, Stored(ref.rows[id], RecentOf(ref, id)), raw, now).0;
      if ForgottenReplay(prims, st, ref, raw)
      then b == Dropped(Replayed) && (a.Received? <==> NextInTime(prims, st, raw, id, now))
      else SameVerdict(a, b)
  {
    hide DiffMs, Wrap32, DecodeHeader;
  }

  /** The frame carries the expected sequence number and a recent enough message id. */
  ghost predicate NextInTime(prims: Primitives, st: ServerState, raw: bytes, id: i64, now: nat)
    requires Lawful(prims) && id in st.table
  {
    var unsealed := Unseal(prims, Load(id, st.table[id]).crypto, raw);
    unsealed.Clear? && unsealed.header.seqNo == Wrap32(st.table[id].recvSeqNo + 1)
    && DiffMs(unsealed.header.msgId, now) <= MAX_SKEW_MS
  }

  lemma RefReceipt(prims: Primitives, ref: Reference, raw: bytes, env: Env, id: i64)
    requires Lawful(prims) && |raw| >= 8 && PacketKeyId(raw) == id && id != 0 && id in ref.rows
    ensures RefStep(prims, ref, raw, env).1.receipt
         == Some((id, Examine(prims, Stored(ref.rows[id], RecentOf(ref, id)), raw, env.nowCheck).0))
  {
  }

  /** From machines in step, a frame is judged differently exactly when it is a forgotten replay that is
      next in sequence and in time: the reference drops it as a replay, the cached server accepts it. */
  lemma DivergesIffForgottenReplay(prims: Primitives, capacity: nat, st: ServerState, ref: Reference, raw: bytes, env: Env, id: i64)
    requires Lawful(prims) && Sim(capacity, st, ref) && Addresses(st, raw, id)
    ensures var out, out' := Step(prims, capacity, st, raw, env).1, RefStep(prims, ref, raw, env).1;
      AcceptedBy(out, id) != AcceptedBy(out', id) <==>
        ForgottenReplay(prims, st, ref, raw) && NextInTime(prims, st, raw, id, env.nowCheck)
  {
    StepVerdict(prims, capacity, st, raw, env);
    assert Judged(Step(prims, capacity, st, raw, env).1, id, VerdictOn(prims, st, raw, id, env.nowCheck));
    RefReceipt(prims, ref, raw, env, id);
    VerdictsDiverge(prims, capacity, st, ref, raw, env.nowCheck, id);
  }

  // ---------- how an eviction lets a replay through ----------

  /** The header a session's frame opens to. */
  ghost predicate Carries(prims: Primitives, st: ServerState, raw: bytes, id: i64, h: Header)
    requires Lawful(prims)
  {
    && Addresses(st, raw, id)
    && var unsealed := Unseal(prims, Load(id, st.table[id]).crypto, raw);
    unsealed.Clear? && unsealed.header == h
  }

  lemma PushedHolds(ids: seq<i64>, m: i64, m': i64)
    requires m != m'
    ensures m in Pushed(Pushed(ids, m), m')
  {
    var all := [m'] + Without(Pushed(ids, m), m');
    assert Pushed(ids, m)[0] == m;
    assert Without(Pushed(ids, m), m')[0] == m;
    assert Pushed(Pushed(ids, m), m')[1] == m;
  }

  lemma RefAcceptedRecents(prims: Primitives, ref: Reference, id: i64, receipt: Receipt, env: Env)
    requires Lawful(prims) && receipt.Received? && !env.handled.Established?
    ensures RefAccepted(prims, ref, id, receipt, env).0.recent == ref.recent
  {
  }

  /** The map remembers the id of a clear frame that is neither stale nor a replay, accepted or not. */
  lemma RefRemembersClear(prims: Primitives, capacity: nat, st: ServerState, ref: Reference, raw: bytes, env: Env, id: i64, h: Header)
    requires Lawful(prims) && Sim(capacity, st, ref) && !env.handled.Established?
    requires Carries(prims, st, raw, id, h) && h.msgId > st.table[id].lastMsgId && h.msgId !in RecentOf(ref, id)
    ensures RecentOf(RefStep(prims, ref, raw, env).0, id) == Pushed(RecentOf(ref, id), h.msgId)
  {
    hide Inv, Pushed, DiffMs, DecodeHeader, RefAccepted;
    var receipt := Examine(prims, Stored(ref.rows[id], RecentOf(ref, id)), raw, env.nowCheck).0;
    if receipt.Received? {
      var ref1 := RefRemember(ref, id, Some(h.msgId));
      RefAcceptedRecents(prims, ref1.(rows := ref1.rows[id := AcceptedRow(ref1.rows[id], receipt.header)]), id, receipt, env);
    }
  }

  /** A frame ahead of its turn is turned down but remembered, by both machines. */
  lemma EarlyFrame(prims: Primitives, capacity: nat, st: ServerState, ref: Reference, raw: bytes, env: Env, id: i64, h: Header)
    requires Lawful(prims) && Sim(capacity, st, ref) && env.handled.NoReply?
    requires Carries(prims, st, raw, id, h) && h.msgId > st.table[id].lastMsgId && h.msgId !in RecentOf(ref, id)
    requires h.seqNo != Wrap32(st.table[id].recvSeqNo + 1)
    ensures var st', ref' := Step(prims, capacity, st, raw, env).0, RefStep(prims, ref, raw, env).0;
      && Sim(capacity, st', ref') && st'.table == st.table
      && RecentOf(ref', id) == Pushed(RecentOf(ref, id), h.msgId)
  {
    hide Step, RefStep, Pushed, DiffMs, DecryptIncomingServer, DecodeHeader;
    SimStep(prims, capacity, st, ref, raw, env);
    RefRemembersClear(prims, capacity, st, ref, raw, env, id, h);
    StepVerdict(prims, capacity, st, raw, env);
    assert Judged(Step(prims, capacity, st, raw, env).1, id, VerdictOn(prims, st, raw, id, env.nowCheck));
    RejectedLeavesTable(prims, capacity, st, raw, env, id);
  }

  /** A session with nothing to remember remembers just the frame it accepts. */
  lemma NextFrame(prims: Primitives, capacity: nat, st: ServerState, raw: bytes, env: Env, id: i64, h: Header)
    requires Lawful(prims) && Inv(capacity, st) && env.handled.NoReply? && Recents(st, id) == []
    requires Carries(prims, st, raw, id, h) && h.msgId > st.table[id].lastMsgId
    requires h.seqNo == Wrap32(st.table[id].recvSeqNo + 1) && DiffMs(h.msgId, env.nowCheck) <= MAX_SKEW_MS
    ensures var st' := Step(prims, capacity, st, raw, env).0;
      st'.table == st.table[id := AcceptedRow(st.table[id], h)] && Recents(st', id) == [h.msgId]
  {
    hide Inv, Pushed, DiffMs, Wrap32;
    GetKeeps(capacity, st, id);
    var (st1, c1) := Get(capacity, st, id);
    GetKeeps(capacity, st1, id);
    var (st2, c) := Get(capacity, st1, id);
    ReceiveKeeps(prims, capacity, st2, c.value, raw, env.nowCheck);
    CachedVerdict(prims, st, c.value, raw, env.nowCheck, id, h);
    PushedAlone(h.msgId);
  }

  lemma PushedAlone(m: i64)
    ensures Pushed([], m) == [m]
  {
    assert [m] + [] == [m];
  }

  lemma CachedVerdict(prims: Primitives, st: ServerState, c: Cached, raw: bytes, now: nat, id: i64, h: Header)
    requires Lawful(prims) && Coherent(st.table, c) && c.id == id && c.recent == []
    requires Carries(prims, st, raw, id, h) && h.msgId > st.table[id].lastMsgId
    requires h.seqNo == Wrap32(st.table[id].recvSeqNo + 1) && DiffMs(h.msgId, now) <= MAX_SKEW_MS
    ensures var (receipt, m) := Examine(prims, c, raw, now);
      receipt.Received? && receipt.header == h && m == Some(h.msgId)
  {
    hide DiffMs, Wrap32;
  }

  /** After an eviction the frame whose turn it is gets accepted, and is all the server remembers. */
  lemma NextFrameAfterEviction(prims: Primitives, capacity: nat, st: ServerState, ref: Reference, raw: bytes, env: Env, id: i64, h: Header)
    requires Lawful(prims) && Sim(capacity, st, ref) && env.handled.NoReply? && Recents(st, id) == []
    requires Carries(prims, st, raw, id, h) && h.msgId > st.table[id].lastMsgId && h.msgId !in RecentOf(ref, id)
    requires h.seqNo == Wrap32(st.table[id].recvSeqNo + 1) && DiffMs(h.msgId, env.nowCheck) <= MAX_SKEW_MS
    ensures var st', ref' := Step(prims, capacity, st, raw, env).0, RefStep(prims, ref, raw, env).0;
      && Sim(capacity, st', ref') && st'.table == st.table[id := AcceptedRow(st.table[id], h)]
      && RecentOf(ref', id) == Pushed(RecentOf(ref, id), h.msgId) && Recents(st', id) == [h.msgId]
  {
    hide Step, RefStep, Pushed, DiffMs;
    SimStep(prims, capacity, st, ref, raw, env);
    RefRemembersClear(prims, capacity, st, ref, raw, env, id, h);
    NextFrame(prims, capacity, st, raw, env, id, h);
  }

  /** Transparency fails, for every session: a frame that comes one place early is turned down and
      remembered; the session is evicted; the frame before it arrives; then the early frame again. The
      cached server accepts the replay, the unbounded map does not. */
  lemma EvictionAdmitsReplay(prims: Primitives, capacity: nat, st: ServerState, ref: Reference, id: i64, early: bytes, next: bytes, he: Header, hn: Header, env: Env)
    requires Lawful(prims) && Sim(capacity, st, ref) && env.handled.NoReply?
    requires Carries(prims, st, early, id, he) && Carries(prims, st, next, id, hn)
    requires st.table[id].lastMsgId < hn.msgId < he.msgId && he.msgId !in RecentOf(ref, id) && hn.msgId !in RecentOf(ref, id)
    requires hn.seqNo == Wrap32(st.table[id].recvSeqNo + 1) && he.seqNo == Wrap32(hn.seqNo + 1)
    requires DiffMs(hn.msgId, env.nowCheck) <= MAX_SKEW_MS && DiffMs(he.msgId, env.nowCheck) <= MAX_SKEW_MS
    ensures var st1, ref1 := Step(prims, capacity, st, early, env).0, RefStep(prims, ref, early, env).0;
      var st2 := StepEvent(prims, capacity, st1, Evict(id)).0;
      var st3, ref3 := Step(prims, capacity, st2, next, env).0, RefStep(prims, ref1, next, env).0;
      && AcceptedBy(Step(prims, capacity, st3, early, env).1, id) == Some(he)
      && AcceptedBy(RefStep(prims, ref3, early, env).1, id) == None
  {
    hide Step, RefStep, Sim, Unseal;
    var st1, ref1 := Step(prims, capacity, st, early, env).0, RefStep(prims, ref, early, env).0;
    assert he.seqNo != hn.seqNo by { SuccessorDiffers(hn.seqNo); }
    EarlyFrame(prims, capacity, st, ref, early, env, id, he);
    SimEvict(prims, capacity, st1, ref1, id);
    var st2 := st1.(lru := Remove(st1.lru, id));
    PushedMembers(RecentOf(ref, id), he.msgId);
    NextFrameAfterEviction(prims, capacity, st2, ref1, next, env, id, hn);
    var st3, ref3 := Step(prims, capacity, st2, next, env).0, RefStep(prims, ref1, next, env).0;
    PushedHolds(RecentOf(ref, id), he.msgId, hn.msgId);
    ReplayDiverges(prims, capacity, st3, ref3, early, env, id, he);
  }

  lemma SimEvict(prims: Primitives, capacity: nat, st: ServerState, ref: Reference, id: i64)
    requires Sim(capacity, st, ref)
    ensures var st' := st.(lru := Remove(st.lru, id)); Sim(capacity, st', ref) && Recents(st', id) == []
  {
    EvictKeeps(capacity, st, id);
    var st' := st.(lru := Remove(st.lru, id));
    OthersRecents(st, st', id);
    forall x | x in st.table ensures Recents(st', x) <= RecentOf(ref, x) {
      assert x != id ==> Recents(st', x) == [] || Recents(st', x) == Recents(st, x);
    }
  }

  lemma ReplayDiverges(prims: Primitives, capacity: nat, st: ServerState, ref: Reference, raw: bytes, env: Env, id: i64, h: Header)
    requires Lawful(prims) && Sim(capacity, st, ref) && Carries(prims, st, raw, id, h)
    requires h.msgId > st.table[id].lastMsgId && h.msgId in RecentOf(ref, id) && h.msgId !in Recents(st, id)
    requires h.seqNo == Wrap32(st.table[id].recvSeqNo + 1) && DiffMs(h.msgId, env.nowCheck) <= MAX_SKEW_MS
    ensures AcceptedBy(Step(prims, capacity, st, raw, env).1, id) == Some(h)
    ensures AcceptedBy(RefStep(prims, ref, raw, env).1, id) == None
  {
    hide DecryptIncomingServer, DecodeHeader, DiffMs, Inv, Step, RefStep;
    StepVerdict(prims, capacity, st, raw, env);
    assert Judged(Step(prims, capacity, st, raw, env).1, id, VerdictOn(prims, st, raw, id, env.nowCheck));
    RefReceipt(prims, ref, raw, env, id);
    VerdictsDiverge(prims, capacity, st, ref, raw, env.nowCheck, id);
  }

  // ---------- whole runs ----------

  function RefRun(prims: Primitives, events: seq<Event>): (Reference, seq<Output>)
    requires Lawful(prims)
    ensures |RefRun(prims, events).1| == |events|
  {
    if events == [] then (Reference(map[], map[]), [])
    else
      var (ref, outs) := RefRun(prims, events[..|events| - 1]);
      match events[|events| - 1]
      case FrameIn(raw, env) =>
        var (ref', out) := RefStep(prims, ref, raw, env);
        (ref', outs + [out])
      case Evict(_) => (ref, outs + [SILENT])
  }

  /** At no point of the run is a forgotten id replayed. */
  ghost predicate NothingForgotten(prims: Primitives, capacity: nat, events: seq<Event>)
    requires Lawful(prims)
  {
    events == [] ||
    var before, last := events[..|events| - 1], events[|events| - 1];
    NothingForgotten(prims, capacity, before)
    && (last.FrameIn? ==>
          !ForgottenReplay(prims, Run(prims, capacity, before).0, RefRun(prims, before).0, last.raw))
  }

  /** An LRU of any capacity, under any evictions, shows what the unbounded map shows, frame by frame. */
  lemma {:induction false} CacheIsInvisible(prims: Primitives, capacity: nat, events: seq<Event>)
    requires Lawful(prims) && capacity >= 1 && Collisionless(prims, capacity, events)
    requires NothingForgotten(prims, capacity, events)
    ensures var (st, outs) := Run(prims, capacity, events);
      var (ref, outs') := RefRun(prims, events);
      Sim(capacity, st, ref) && forall i :: 0 <= i < |events| ==> SameOutput(outs[i], outs'[i])
  {
    hide ForgottenReplay, NoCollision;
    if events != [] {
      var before, last := events[..|events| - 1], events[|events| - 1];
      CacheIsInvisible(prims, capacity, before);
      var st, ref := Run(prims, capacity, before).0, RefRun(prims, before).0;
      match last
      case FrameIn(raw, env) => SimStep(prims, capacity, st, ref, raw, env);
      case Evict(id) => SimEvict(prims, capacity, st, ref, id);
    }
  }
}
