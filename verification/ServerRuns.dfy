/** Safety of the server over whole runs: any frames, any clocks, any handler outcomes, and evictions
    from the cache at any moment between frames. */
module ServerRuns {
  import opened Wrappers
  import opened Sequences
  import opened Arithmetic
  import opened Bytes
  import opened TlTypes
  import opened TlObjects
  import opened Crypto
  import opened MsgId
  import opened ServerModel
  import opened ServerInvariant

  datatype Event = FrameIn(raw: bytes, env: Env) | Evict(id: i64)

  const EMPTY := ServerState([], map[])

  function StepEvent(prims: Primitives, capacity: nat, st: ServerState, event: Event): (ServerState, Output)
    requires Lawful(prims)
  {
    match event
    case FrameIn(raw, env) => Step(prims, capacity, st, raw, env)
    case Evict(id) => (st.(lru := Remove(st.lru, id)), SILENT)
  }

  /** The state after a run from an empty table and cache, and what each event showed. */
  function Run(prims: Primitives, capacity: nat, events: seq<Event>): (ServerState, seq<Output>)
    requires Lawful(prims)
    ensures |Run(prims, capacity, events).1| == |events|
  {
    if events == [] then (EMPTY, [])
    else
      var (st, outs) := Run(prims, capacity, events[..|events| - 1]);
      var (st', out) := StepEvent(prims, capacity, st, events[|events| - 1]);
      (st', outs + [out])
  }

  /** No handshake of the run lands on an id already in use. */
  ghost predicate Collisionless(prims: Primitives, capacity: nat, events: seq<Event>)
    requires Lawful(prims)
  {
    events == [] ||
    var before, last := events[..|events| - 1], events[|events| - 1];
    Collisionless(prims, capacity, before)
    && (last.FrameIn? ==> NoCollision(Run(prims, capacity, before).0, last.env.handled))
  }

  /** The headers a session accepted in the course of the outputs. */
  function Accepted(outs: seq<Output>, id: i64): seq<Header> {
    if outs == [] then []
    else
      var earlier, h := Accepted(outs[..|outs| - 1], id), AcceptedBy(outs[|outs| - 1], id);
      if h.Some? then earlier + [h.value] else earlier
  }

  /** The answers a session sent. */
  function Answers(outs: seq<Output>, id: i64): seq<Sent> {
    if outs == [] then []
    else
      var earlier, s := Answers(outs[..|outs| - 1], id), SentTo(outs[|outs| - 1], id);
      if s.Some? then earlier + [s.value] else earlier
  }

  lemma EvictKeeps(capacity: nat, st: ServerState, id: i64)
    requires Inv(capacity, st)
    ensures var st' := st.(lru := Remove(st.lru, id));
      Inv(capacity, st') && OthersKept(st, st', id) && Find(st'.lru, id).None?
  {
    RemoveDistinct(st.lru, id);
    RemoveMembers(st.lru, id);
    forall x: i64 { FindAfterRemove(st.lru, id, x); }
  }

  /** Every event keeps the invariant and moves the sessions as its output says. */
  lemma EventKeeps(prims: Primitives, capacity: nat, st: ServerState, event: Event)
    requires Lawful(prims) && Inv(capacity, st)
    requires event.FrameIn? ==> NoCollision(st, event.env.handled)
    ensures var (st', out) := StepEvent(prims, capacity, st, event);
      StepKept(capacity, st, st', out, if event.FrameIn? then event.env.nowReply else 0)
  {
    match event
    case FrameIn(raw, env) => StepKeeps(prims, capacity, st, raw, env);
    case Evict(id) =>
      EvictKeeps(capacity, st, id);
      var st' := st.(lru := Remove(st.lru, id));
      OthersRecents(st, st', id);
      ComposeEvicted(capacity, st, st', id);
  }

  lemma ComposeEvicted(capacity: nat, st: ServerState, st': ServerState, id: i64)
    requires Inv(capacity, st) && Inv(capacity, st') && st'.table == st.table
    requires RecentsKept(st, st', id) && Recents(st', id) == []
    ensures StepKept(capacity, st, st', SILENT, 0)
  {
    forall x | RecentsBelow(st, x) ensures RecentsBelow(st', x) {
      assert x != id ==> Recents(st', x) == [] || Recents(st', x) == Recents(st, x);
    }
  }

  // ---------- the log of a session ----------

  /** Sequence numbers 0, 1, 2, ... (as 32-bit numbers) and strictly increasing positive message ids. */
  ghost predicate InOrder(acc: seq<Header>) {
    && (forall k :: 0 <= k < |acc| ==> acc[k].seqNo == Wrap32(k) && acc[k].msgId > 0)
    && (forall j, k :: 0 <= j < k < |acc| ==> acc[j].msgId < acc[k].msgId)
  }

  /** The k-th answer carries the k-th sequence number and the k-th nonce counter. */
  ghost predicate Numbered(ans: seq<Sent>) {
    forall k :: 0 <= k < |ans| ==> ans[k].header.seqNo == Wrap32(k) && ans[k].counter == k % TWO_32
  }

  /** The row is where the log says it is. */
  ghost predicate ReceivedUpTo(row: FullSession, acc: seq<Header>) {
    row.recvSeqNo == Wrap32(|acc| - 1) && row.lastMsgId == (if acc == [] then 0 else acc[|acc| - 1].msgId)
  }

  ghost predicate SentUpTo(row: FullSession, ans: seq<Sent>) {
    row.sendSeqNo == Wrap32(|ans| - 1) && row.msgIdCounter == |ans| % TWO_32 && row.sendCounter == |ans| % TWO_32
  }

  ghost predicate Logged(st: ServerState, outs: seq<Output>, id: i64) {
    var acc, ans := Accepted(outs, id), Answers(outs, id);
    InOrder(acc) && Numbered(ans)
    && (if id in st.table then ReceivedUpTo(st.table[id], acc) && SentUpTo(st.table[id], ans) else acc == [] && ans == [])
  }

  lemma WrapStep(n: nat)
    ensures Wrap32(Wrap32(n - 1) + 1) == Wrap32(n)
  {
    WrapSuccessor(n - 1);
  }

  lemma NextCounter(n: nat)
    ensures Next(n % TWO_32) == (n + 1) % TWO_32
  {
  }

  function Extended<T>(s: seq<T>, x: Option<T>): seq<T> {
    if x.Some? then s + [x.value] else s
  }

  lemma InOrderExtends(acc: seq<Header>, h: Header)
    requires InOrder(acc) && h.seqNo == Wrap32(|acc|) && h.msgId > 0
    requires acc != [] ==> h.msgId > acc[|acc| - 1].msgId
    ensures InOrder(acc + [h])
  {
    var all := acc + [h];
    forall j, k | 0 <= j < k < |all| ensures all[j].msgId < all[k].msgId {
      if k == |acc| && j < |acc| - 1 { assert acc[j].msgId < acc[|acc| - 1].msgId; }
    }
  }

  lemma ReceiveLogStep(row: FullSession, row': FullSession, acc: seq<Header>, accepted: Option<Header>)
    requires ReceivedUpTo(row, acc) && InOrder(acc) && ReceiveStep(row, row', accepted)
    ensures ReceivedUpTo(row', Extended(acc, accepted)) && InOrder(Extended(acc, accepted))
  {
    if accepted.Some? {
      WrapStep(|acc|);
      assert acc != [] ==> acc[|acc| - 1].msgId > 0;
      InOrderExtends(acc, accepted.value);
    }
  }

  lemma SendLogStep(row: FullSession, row': FullSession, ans: seq<Sent>, sent: Option<Sent>, now: nat)
    requires SentUpTo(row, ans) && Numbered(ans) && SendStep(row, row', sent, now)
    ensures SentUpTo(row', Extended(ans, sent)) && Numbered(Extended(ans, sent))
  {
    if sent.Some? {
      WrapStep(|ans|);
      NextCounter(|ans|);
    }
  }

  lemma LogsExtend(outs: seq<Output>, out: Output, id: i64)
    ensures Accepted(outs + [out], id) == Extended(Accepted(outs, id), AcceptedBy(out, id))
    ensures Answers(outs + [out], id) == Extended(Answers(outs, id), SentTo(out, id))
  {
    assert (outs + [out])[..|outs|] == outs;
  }

  lemma LogStep(capacity: nat, st: ServerState, st': ServerState, outs: seq<Output>, out: Output, id: i64, now: nat)
    requires Inv(capacity, st) && StepKept(capacity, st, st', out, now) && Logged(st, outs, id)
    ensures Logged(st', outs + [out], id)
  {
    LogsExtend(outs, out, id);
    var acc, ans := Accepted(outs, id), Answers(outs, id);
    if id in st.table {
      var row, row' := st.table[id], st'.table[id];
      assert RowStep(row, row', out, id, now);
      ReceiveLogStep(row, row', acc, AcceptedBy(out, id));
      SendLogStep(row, row', ans, SentTo(out, id), now);
    } else {
      Wrap32Is(-1);
    }
  }

  /** The log of every session, over every run. */
  lemma {:induction false} RunIsLogged(prims: Primitives, capacity: nat, events: seq<Event>, id: i64)
    requires Lawful(prims) && capacity >= 1 && Collisionless(prims, capacity, events)
    ensures var (st, outs) := Run(prims, capacity, events); Inv(capacity, st) && Logged(st, outs, id)
  {
    if events != [] {
      var before, last := events[..|events| - 1], events[|events| - 1];
      RunIsLogged(prims, capacity, before, id);
      var (st, outs) := Run(prims, capacity, before);
      EventKeeps(prims, capacity, st, last);
      var (st', out) := StepEvent(prims, capacity, st, last);
      LogStep(capacity, st, st', outs, out, id, if last.FrameIn? then last.env.nowReply else 0);
    }
  }

  lemma RunSnoc(prims: Primitives, capacity: nat, events: seq<Event>, event: Event)
    requires Lawful(prims)
    ensures var (st, outs) := Run(prims, capacity, events);
      var (st', out) := StepEvent(prims, capacity, st, event);
      Run(prims, capacity, events + [event]) == (st', outs + [out])
  {
    assert (events + [event])[..|events|] == events;
  }

  // ---------- the theorems ----------

  /** Accepted messages carry sequence numbers without gaps and strictly increasing message ids, so no
      message id is accepted twice, in every run. */
  lemma AcceptedInOrder(prims: Primitives, capacity: nat, events: seq<Event>, id: i64)
    requires Lawful(prims) && capacity >= 1 && Collisionless(prims, capacity, events)
    ensures InOrder(Accepted(Run(prims, capacity, events).1, id))
    ensures var acc := Accepted(Run(prims, capacity, events).1, id);
      forall j, k :: 0 <= j < |acc| && 0 <= k < |acc| && j != k ==> acc[j].msgId != acc[k].msgId
  {
    RunIsLogged(prims, capacity, events, id);
    var acc := Accepted(Run(prims, capacity, events).1, id);
    forall j, k | 0 <= j < |acc| && 0 <= k < |acc| && j != k ensures acc[j].msgId != acc[k].msgId {
      assert acc[if j < k then j else k].msgId < acc[if j < k then k else j].msgId;
    }
  }

  /** A frame of a known session that is not accepted leaves the whole table as it was. */
  lemma RejectedLeavesTable(prims: Primitives, capacity: nat, st: ServerState, raw: bytes, env: Env, id: i64)
    requires Lawful(prims) && Inv(capacity, st) && Addresses(st, raw, id)
    ensures var (st', out) := Step(prims, capacity, st, raw, env);
      AcceptedBy(out, id).None? ==> st'.table == st.table && out.request.None? && out.sent.None?
  {
    GetKeeps(capacity, st, id);
    var (st1, c) := Get(capacity, st, id);
    GetKeeps(capacity, st1, id);
    var (st2, c2) := Get(capacity, st1, id);
    ReceiveKeeps(prims, capacity, st2, c2.value, raw, env.nowCheck);
  }

  /** And so in every run: a frame of a known session that is not accepted changes no row of any session. */
  lemma RejectedInRun(prims: Primitives, capacity: nat, before: seq<Event>, raw: bytes, env: Env, id: i64)
    requires Lawful(prims) && capacity >= 1 && Collisionless(prims, capacity, before)
    requires Addresses(Run(prims, capacity, before).0, raw, id)
    ensures var (st, outs) := Run(prims, capacity, before);
      var (st', outs') := Run(prims, capacity, before + [FrameIn(raw, env)]);
      AcceptedBy(outs'[|before|], id).None? ==>
        && st'.table == st.table && Accepted(outs', id) == Accepted(outs, id) && Answers(outs', id) == Answers(outs, id)
        && outs'[|before|].request.None?
  {
    hide Step;
    RunIsLogged(prims, capacity, before, id);
    RunSnoc(prims, capacity, before, FrameIn(raw, env));
    var (st, outs) := Run(prims, capacity, before);
    RejectedLeavesTable(prims, capacity, st, raw, env, id);
    LogsExtend(outs, Step(prims, capacity, st, raw, env).1, id);
  }

  /** Every answer of a run carries the nonce of its own counter. */
  ghost predicate NonceOf(s: Sent) {
    |s.packet| >= OVERHEAD && PacketBody(s.packet).nonce == GenerateNonce(s.counter, s.noise)
  }

  lemma {:induction false} AnswersCarryNonces(prims: Primitives, capacity: nat, events: seq<Event>, id: i64)
    requires Lawful(prims) && capacity >= 1 && Collisionless(prims, capacity, events)
    ensures forall k :: 0 <= k < |Answers(Run(prims, capacity, events).1, id)| ==>
      NonceOf(Answers(Run(prims, capacity, events).1, id)[k])
  {
    if events != [] {
      var before, last := events[..|events| - 1], events[|events| - 1];
      AnswersCarryNonces(prims, capacity, before, id);
      RunIsLogged(prims, capacity, before, id);
      var (st, outs) := Run(prims, capacity, before);
      var (st', out) := StepEvent(prims, capacity, st, last);
      assert (outs + [out])[..|outs|] == outs;
      if SentTo(out, id).Some? {
        StepSeals(prims, capacity, st, last.raw, last.env);
        var s := SentTo(out, id).value;
        var row := st.table[s.id];
        PacketRoundTrip(s.id, Seal(prims, row.serverWriteKey, row.serverMacKey, s.counter, EncodeHeader(s.header), s.noise));
      }
    }
  }

  /** Across evictions and reloads, the k-th answer of a session uses counter k, and answers less than 2^32
      apart never share a nonce. */
  lemma NoncesNeverReused(prims: Primitives, capacity: nat, events: seq<Event>, id: i64, j: nat, k: nat)
    requires Lawful(prims) && capacity >= 1 && Collisionless(prims, capacity, events)
    requires j < k < |Answers(Run(prims, capacity, events).1, id)| && k - j < TWO_32
    ensures var ans := Answers(Run(prims, capacity, events).1, id);
      && ans[k].counter == k % TWO_32
      && |ans[j].packet| >= OVERHEAD && |ans[k].packet| >= OVERHEAD
      && PacketBody(ans[j].packet).nonce != PacketBody(ans[k].packet).nonce
  {
    RunIsLogged(prims, capacity, events, id);
    AnswersCarryNonces(prims, capacity, events, id);
    var ans := Answers(Run(prims, capacity, events).1, id);
    CountersDiffer(j, k);
    DifferentNonces(ans[j], ans[k]);
  }

  lemma CountersDiffer(j: nat, k: nat)
    requires j < k && k - j < TWO_32
    ensures j % TWO_32 != k % TWO_32
  {
    ModEqualIffDifference(k, j, TWO_32);
  }

  lemma DifferentNonces(s: Sent, t: Sent)
    requires NonceOf(s) && NonceOf(t) && s.counter != t.counter
    ensures PacketBody(s.packet).nonce != PacketBody(t.packet).nonce
  {
    NoncesDiffer(s.counter, s.noise, t.counter, t.noise);
  }

  // ---------- connections ----------

  /** The frames of one connection, with what each pass takes from outside. */
  datatype Arrival = Arrival(raw: bytes, env: Env)

  /** A connection's frames in turn, up to the one that ends it. */
  function Serve(prims: Primitives, capacity: nat, st: ServerState, arrivals: seq<Arrival>): (ServerState, seq<Output>)
    requires Lawful(prims)
    decreases |arrivals|
  {
    if arrivals == [] then (st, [])
    else
      var (st', out) := Step(prims, capacity, st, arrivals[0].raw, arrivals[0].env);
      if out.closed then (st', [out])
      else
        var (st'', outs) := Serve(prims, capacity, st', arrivals[1..]);
        (st'', [out] + outs)
  }

  function Frames(arrivals: seq<Arrival>): seq<Event> {
    seq(|arrivals|, i requires 0 <= i < |arrivals| => FrameIn(arrivals[i].raw, arrivals[i].env))
  }

  lemma FramesCons(events: seq<Event>, arrivals: seq<Arrival>, n: nat)
    requires arrivals != [] && n < |arrivals|
    ensures events + Frames(arrivals[..n + 1])
         == (events + [FrameIn(arrivals[0].raw, arrivals[0].env)]) + Frames(arrivals[1..][..n])
  {
    var first := FrameIn(arrivals[0].raw, arrivals[0].env);
    assert Frames(arrivals[..n + 1]) == [first] + Frames(arrivals[1..][..n]);
  }

  /** A connection is a stretch of a run: serving it extends any run by the frames it got to, so the
      theorems about runs hold of it. */
  lemma {:induction false} ServingExtendsRun(prims: Primitives, capacity: nat, events: seq<Event>, arrivals: seq<Arrival>)
    requires Lawful(prims)
    ensures var (st, outs) := Run(prims, capacity, events);
      var (st', more) := Serve(prims, capacity, st, arrivals);
      |more| <= |arrivals| && Run(prims, capacity, events + Frames(arrivals[..|more|])) == (st', outs + more)
    decreases |arrivals|
  {
    var (st, outs) := Run(prims, capacity, events);
    if arrivals == [] {
      assert events + Frames([]) == events && outs + [] == outs;
    } else {
      var first := FrameIn(arrivals[0].raw, arrivals[0].env);
      var (st1, out) := Step(prims, capacity, st, arrivals[0].raw, arrivals[0].env);
      RunSnoc(prims, capacity, events, first);
      if out.closed {
        FramesCons(events, arrivals, 0);
        assert (events + [first]) + [] == events + [first];
      } else {
        var tail := Serve(prims, capacity, st1, arrivals[1..]).1;
        ServingExtendsRun(prims, capacity, events + [first], arrivals[1..]);
        FramesCons(events, arrivals, |tail|);
        Reassociate(outs, [out], tail);
      }
    }
  }
}
