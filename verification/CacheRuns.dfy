/** Whole runs of the cached server beside the unbounded map: exactly when they can be told apart. */
module CacheRuns {
  import opened Wrappers
  import opened Bytes
  import opened TlTypes
  import opened TlObjects
  import opened Crypto
  import opened MsgId
  import opened ServerModel
  import opened ServerInvariant
  import opened ServerRuns
  import opened Recency
  import opened Refinement
  import EndToEnd

  // ---------- disputed frames ----------

  /** A frame that is next in sequence and in time, with a new message id, of which exactly one of the two
      machines remembers having seen it. */
  ghost predicate Disputed(prims: Primitives, st: ServerState, ref: Reference, raw: bytes, now: nat)
    requires Lawful(prims)
  {
    |raw| >= 8 &&
    var id := PacketKeyId(raw);
    Addresses(st, raw, id) && NextInTime(prims, st, raw, id, now) &&
    var h := Unseal(prims, Load(id, st.table[id]).crypto, raw).header;
    h.msgId > st.table[id].lastMsgId && (h.msgId in Recents(st, id) <==> h.msgId !in RecentOf(ref, id))
  }

  /** Such a frame is the only kind on which they decide differently: the one that remembers it drops it. */
  lemma DecideAlikeIff(prims: Primitives, capacity: nat, st: ServerState, ref: Reference, raw: bytes, now: nat, id: i64)
    requires Lawful(prims) && Abreast(capacity, st, ref) && Addresses(st, raw, id)
    ensures SameDecision(VerdictOn(prims, st, raw, id, now), RefVerdictOn(prims, ref, raw, id, now))
      <==> !Disputed(prims, st, ref, raw, now)
  {
  }

  /** Every frame of the run so far was undisputed when it came. */
  ghost predicate NeverDisputed(prims: Primitives, capacity: nat, events: seq<Event>)
    requires Lawful(prims)
  {
    events == [] ||
    var before, last := events[..|events| - 1], events[|events| - 1];
    NeverDisputed(prims, capacity, before)
    && (last.FrameIn? ==>
          !Disputed(prims, Run(prims, capacity, before).0, RefRun(prims, before).0, last.raw, last.env.nowCheck))
  }

  /** Event by event both machines accept, hand over and answer the same. */
  ghost predicate RunsAlike(prims: Primitives, capacity: nat, events: seq<Event>)
    requires Lawful(prims)
  {
    forall i :: 0 <= i < |events| ==> SameOutcome(Run(prims, capacity, events).1[i], RefRun(prims, events).1[i])
  }

  function RefEvent(prims: Primitives, ref: Reference, event: Event): (Reference, Output)
    requires Lawful(prims)
  {
    match event
    case FrameIn(raw, env) => RefStep(prims, ref, raw, env)
    case Evict(_) => (ref, SILENT)
  }

  lemma RefRunSnoc(prims: Primitives, before: seq<Event>, last: Event)
    requires Lawful(prims)
    ensures var (ref, outs) := RefRun(prims, before);
      var (ref', out) := RefEvent(prims, ref, last);
      RefRun(prims, before + [last]) == (ref', outs + [out])
  {
    hide RefStep;
    assert (before + [last])[..|before|] == before;
  }

  lemma AlikeSnoc(prims: Primitives, capacity: nat, before: seq<Event>, last: Event)
    requires Lawful(prims)
    ensures RunsAlike(prims, capacity, before + [last]) <==>
      RunsAlike(prims, capacity, before)
      && SameOutcome(StepEvent(prims, capacity, Run(prims, capacity, before).0, last).1, RefEvent(prims, RefRun(prims, before).0, last).1)
  {
    hide StepEvent, RefEvent, SameOutcome, Run, RefRun;
    RunSnoc(prims, capacity, before, last);
    RefRunSnoc(prims, before, last);
    var outs, outs' := Run(prims, capacity, before).1, RefRun(prims, before).1;
    var all, all' := Run(prims, capacity, before + [last]).1, RefRun(prims, before + [last]).1;
    assert forall i :: 0 <= i < |before| ==> all[i] == outs[i] && all'[i] == outs'[i];
    assert all[|before|] == StepEvent(prims, capacity, Run(prims, capacity, before).0, last).1;
    assert all'[|before|] == RefEvent(prims, RefRun(prims, before).0, last).1;
  }

  /** An undisputed event keeps the machines abreast. */
  lemma UndisputedEvent(prims: Primitives, capacity: nat, st: ServerState, ref: Reference, event: Event)
    requires Lawful(prims) && Abreast(capacity, st, ref)
    requires event.FrameIn? ==> NoCollision(st, event.env.handled)
    requires event.FrameIn? ==> !Disputed(prims, st, ref, event.raw, event.env.nowCheck)
    ensures var (st', out) := StepEvent(prims, capacity, st, event);
      var (ref', out') := RefEvent(prims, ref, event);
      Abreast(capacity, st', ref') && SameOutcome(out, out')
  {
    hide Step, RefStep, Disputed, VerdictOn, RefVerdictOn;
    match event
    case FrameIn(raw, env) =>
      forall id: i64 | Addresses(st, raw, id)
        ensures SameDecision(VerdictOn(prims, st, raw, id, env.nowCheck), RefVerdictOn(prims, ref, raw, id, env.nowCheck))
      {
        DecideAlikeIff(prims, capacity, st, ref, raw, env.nowCheck, id);
      }
      AbreastStep(prims, capacity, st, ref, raw, env);
    case Evict(id) => EvictKeeps(capacity, st, id);
  }

  /** A disputed one is seen. */
  lemma DisputedEvent(prims: Primitives, capacity: nat, st: ServerState, ref: Reference, raw: bytes, env: Env)
    requires Lawful(prims) && Abreast(capacity, st, ref) && Disputed(prims, st, ref, raw, env.nowCheck)
    ensures !SameOutcome(Step(prims, capacity, st, raw, env).1, RefStep(prims, ref, raw, env).1)
  {
    var id := PacketKeyId(raw);
    assert Addresses(st, raw, id);
    hide Step, RefStep, Disputed, VerdictOn, RefVerdictOn, Abreast;
    DecideAlikeIff(prims, capacity, st, ref, raw, env.nowCheck, id);
    ShownVerdicts(prims, capacity, st, ref, raw, env);
    assert Judged(Step(prims, capacity, st, raw, env).1, id, VerdictOn(prims, st, raw, id, env.nowCheck));
  }

  lemma EmptyAbreast(prims: Primitives, capacity: nat)
    requires Lawful(prims) && capacity >= 1
    ensures Abreast(capacity, Run(prims, capacity, []).0, RefRun(prims, []).0)
  {
  }

  lemma {:induction false} UndisputedRun(prims: Primitives, capacity: nat, events: seq<Event>)
    requires Lawful(prims) && capacity >= 1 && Collisionless(prims, capacity, events)
    requires NeverDisputed(prims, capacity, events)
    ensures Abreast(capacity, Run(prims, capacity, events).0, RefRun(prims, events).0)
  {
    hide StepEvent, RefEvent, Abreast, Disputed, NoCollision, Run, RefRun, SameOutcome;
    if events == [] {
      EmptyAbreast(prims, capacity);
    } else {
      var before, last := events[..|events| - 1], events[|events| - 1];
      UndisputedRun(prims, capacity, before);
      UndisputedEvent(prims, capacity, Run(prims, capacity, before).0, RefRun(prims, before).0, last);
      assert events == before + [last];
      RunSnoc(prims, capacity, before, last);
      RefRunSnoc(prims, before, last);
    }
  }

  /** Over every run, with any capacity and any evictions, the cached server and the unbounded map accept,
      hand over and answer the same, event by event, if and only if no disputed frame ever comes. */
  lemma {:induction false} AlikeIffUndisputed(prims: Primitives, capacity: nat, events: seq<Event>)
    requires Lawful(prims) && capacity >= 1 && Collisionless(prims, capacity, events)
    ensures RunsAlike(prims, capacity, events) <==> NeverDisputed(prims, capacity, events)
  {
    if events != [] {
      hide StepEvent, RefEvent, Abreast, Disputed, NoCollision, RunsAlike, SameOutcome, Run, RefRun;
      var before, last := events[..|events| - 1], events[|events| - 1];
      AlikeIffUndisputed(prims, capacity, before);
      assert events == before + [last];
      AlikeSnoc(prims, capacity, before, last);
      if NeverDisputed(prims, capacity, before) {
        UndisputedRun(prims, capacity, before);
        LastDecides(prims, capacity, Run(prims, capacity, before).0, RefRun(prims, before).0, last);
      }
    }
  }

  lemma LastDecides(prims: Primitives, capacity: nat, st: ServerState, ref: Reference, last: Event)
    requires Lawful(prims) && Abreast(capacity, st, ref)
    requires last.FrameIn? ==> NoCollision(st, last.env.handled)
    ensures SameOutcome(StepEvent(prims, capacity, st, last).1, RefEvent(prims, ref, last).1)
      <==> (last.FrameIn? ==> !Disputed(prims, st, ref, last.raw, last.env.nowCheck))
  {
    hide Step, RefStep, Abreast, Disputed, NoCollision, SameOutcome;
    if last.FrameIn? && Disputed(prims, st, ref, last.raw, last.env.nowCheck) {
      DisputedEvent(prims, capacity, st, ref, last.raw, last.env);
    } else {
      UndisputedEvent(prims, capacity, st, ref, last);
    }
  }

  // ---------- a condition on the frames alone ----------

  /** The message id of a frame that opens under its session's keys. */
  ghost function ClearId(prims: Primitives, st: ServerState, raw: bytes, id: i64): Option<i64>
    requires Lawful(prims)
  {
    if !Addresses(st, raw, id) then None
    else
      var unsealed := Unseal(prims, Load(id, st.table[id]).crypto, raw);
      if unsealed.Clear? then Some(unsealed.header.msgId) else None
  }

  ghost function EventId(prims: Primitives, st: ServerState, event: Event, id: i64): Option<i64>
    requires Lawful(prims)
  {
    if event.FrameIn? then ClearId(prims, st, event.raw, id) else None
  }

  /** All message ids a session has been shown in the clear. */
  ghost function Shown(prims: Primitives, capacity: nat, events: seq<Event>, id: i64): set<i64>
    requires Lawful(prims)
  {
    if events == [] then {}
    else
      var before, last := events[..|events| - 1], events[|events| - 1];
      var m := EventId(prims, Run(prims, capacity, before).0, last, id);
      Shown(prims, capacity, before, id) + if m.Some? then {m.value} else {}
  }

  /** No session is shown the same message id twice. */
  ghost predicate ShownOnce(prims: Primitives, capacity: nat, events: seq<Event>)
    requires Lawful(prims)
  {
    events == [] ||
    var before, last := events[..|events| - 1], events[|events| - 1];
    ShownOnce(prims, capacity, before)
    && forall id: i64 :: NotShown(prims, capacity, before, last, id)
  }

  ghost predicate NotShown(prims: Primitives, capacity: nat, before: seq<Event>, last: Event, id: i64)
    requires Lawful(prims)
  {
    var m := EventId(prims, Run(prims, capacity, before).0, last, id);
    m.Some? ==> m.value !in Shown(prims, capacity, before, id)
  }

  /** The unbounded map remembers only what was shown. */
  ghost predicate RemembersShown(ref: Reference, id: i64, shown: set<i64>) {
    id in ref.rows ==> forall m :: m in RecentOf(ref, id) ==> m in shown
  }

  lemma RememberedIsClear(prims: Primitives, capacity: nat, st: ServerState, ref: Reference, raw: bytes, id: i64, now: nat)
    requires Lawful(prims) && Abreast(capacity, st, ref)
    ensures var m := RefRemembered(prims, ref, raw, id, now); m.Some? ==> ClearId(prims, st, raw, id) == m
  {
  }

  lemma ShownStep(prims: Primitives, capacity: nat, st: ServerState, ref: Reference, event: Event, id: i64, shown: set<i64>)
    requires Lawful(prims) && Abreast(capacity, st, ref) && RemembersShown(ref, id, shown)
    requires event.FrameIn? ==> NoCollision(st, event.env.handled)
    ensures var m := EventId(prims, st, event, id);
      RemembersShown(RefEvent(prims, ref, event).0, id, shown + if m.Some? then {m.value} else {})
  {
    if event.FrameIn? {
      RefRecents(prims, ref, event.raw, event.env, id);
      RememberedIsClear(prims, capacity, st, ref, event.raw, id, event.env.nowCheck);
      hide RefStep, RefRemembered, ClearId, Pushed, Abreast;
      var m := RefRemembered(prims, ref, event.raw, id, event.env.nowCheck);
      if m.Some? { PushedMembers(RecentOf(ref, id), m.value); }
    }
  }

  lemma UnforgottenAbreast(prims: Primitives, capacity: nat, events: seq<Event>)
    requires Lawful(prims) && capacity >= 1 && Collisionless(prims, capacity, events) && NothingForgotten(prims, capacity, events)
    ensures Abreast(capacity, Run(prims, capacity, events).0, RefRun(prims, events).0)
  {
    hide Abreast, SameOutput, Run, RefRun;
    CacheIsInvisible(prims, capacity, events);
  }

  lemma ShownSnoc(prims: Primitives, capacity: nat, before: seq<Event>, last: Event, id: i64)
    requires Lawful(prims)
    ensures Shown(prims, capacity, before + [last], id) ==
      Shown(prims, capacity, before, id)
      + var m := EventId(prims, Run(prims, capacity, before).0, last, id); if m.Some? then {m.value} else {}
  {
    hide EventId, Run;
    assert (before + [last])[..|before|] == before;
  }

  lemma OneMoreShown(prims: Primitives, capacity: nat, before: seq<Event>, last: Event, id: i64)
    requires Lawful(prims) && Abreast(capacity, Run(prims, capacity, before).0, RefRun(prims, before).0)
    requires last.FrameIn? ==> NoCollision(Run(prims, capacity, before).0, last.env.handled)
    requires RemembersShown(RefRun(prims, before).0, id, Shown(prims, capacity, before, id))
    ensures RemembersShown(RefRun(prims, before + [last]).0, id, Shown(prims, capacity, before + [last], id))
  {
    hide Shown, RefRun, Run, RemembersShown, EventId, RefEvent, Abreast, NoCollision;
    ShownStep(prims, capacity, Run(prims, capacity, before).0, RefRun(prims, before).0, last, id, Shown(prims, capacity, before, id));
    RefRunSnoc(prims, before, last);
    ShownSnoc(prims, capacity, before, last, id);
  }

  lemma NothingRemembered(prims: Primitives, capacity: nat, id: i64)
    requires Lawful(prims)
    ensures RemembersShown(RefRun(prims, []).0, id, Shown(prims, capacity, [], id))
  {
  }

  lemma {:induction false} RunRemembersShown(prims: Primitives, capacity: nat, events: seq<Event>, id: i64)
    requires Lawful(prims) && capacity >= 1 && Collisionless(prims, capacity, events) && NothingForgotten(prims, capacity, events)
    ensures RemembersShown(RefRun(prims, events).0, id, Shown(prims, capacity, events, id))
  {
    hide Shown, RefRun, Run, ForgottenReplay, NoCollision, RemembersShown, Abreast;
    if events == [] {
      NothingRemembered(prims, capacity, id);
    } else {
      var before, last := events[..|events| - 1], events[|events| - 1];
      RunRemembersShown(prims, capacity, before, id);
      UnforgottenAbreast(prims, capacity, before);
      assert events == before + [last];
      OneMoreShown(prims, capacity, before, last, id);
    }
  }

  /** Then nothing is ever replayed, forgotten or not. */
  lemma {:induction false} ShownOnceForgetsNothing(prims: Primitives, capacity: nat, events: seq<Event>)
    requires Lawful(prims) && capacity >= 1 && Collisionless(prims, capacity, events) && ShownOnce(prims, capacity, events)
    ensures NothingForgotten(prims, capacity, events)
  {
    if events != [] {
      hide StepEvent, ForgottenReplay, NoCollision, RemembersShown, NotShown, Run, RefRun, Abreast;
      var before, last := events[..|events| - 1], events[|events| - 1];
      ShownOnceForgetsNothing(prims, capacity, before);
      if last.FrameIn? {
        var x: i64 := if |last.raw| >= 8 then PacketKeyId(last.raw) else 0;
        UnforgottenAbreast(prims, capacity, before);
        RunRemembersShown(prims, capacity, before, x);
        assert NotShown(prims, capacity, before, last, x);
        NotAReplay(prims, capacity, before, last, Run(prims, capacity, before).0, RefRun(prims, before).0, x);
      }
    }
  }

  lemma NotAReplay(prims: Primitives, capacity: nat, before: seq<Event>, last: Event, st: ServerState, ref: Reference, x: i64)
    requires Lawful(prims) && last.FrameIn? && st == Run(prims, capacity, before).0 && Abreast(capacity, st, ref)
    requires |last.raw| >= 8 ==> x == PacketKeyId(last.raw)
    requires NotShown(prims, capacity, before, last, x) && RemembersShown(ref, x, Shown(prims, capacity, before, x))
    ensures !ForgottenReplay(prims, st, ref, last.raw)
  {
    hide Run, Shown;
  }

  /** So when no session is shown the same message id twice, the LRU is invisible over the whole run, down to
      the reasons frames are dropped for. */
  lemma ShownOnceIsInvisible(prims: Primitives, capacity: nat, events: seq<Event>)
    requires Lawful(prims) && capacity >= 1 && Collisionless(prims, capacity, events) && ShownOnce(prims, capacity, events)
    ensures forall i :: 0 <= i < |events| ==> SameOutput(Run(prims, capacity, events).1[i], RefRun(prims, events).1[i])
  {
    ShownOnceForgetsNothing(prims, capacity, events);
    CacheIsInvisible(prims, capacity, events);
  }

  // ---------- the bound of a thousand ----------

  function PushAll(ids: seq<i64>, others: seq<i64>): seq<i64>
    decreases |others|
  {
    if others == [] then ids else PushAll(Pushed(ids, others[0]), others[1..])
  }

  lemma {:induction false} PushAllFronts(ids: seq<i64>, others: seq<i64>)
    ensures PushAll(ids, others) == FrontAll(1000, ids, others)
    decreases |others|
  {
    hide Without;
    if others != [] { PushAllFronts(Pushed(ids, others[0]), others[1..]); }
  }

  /** The exact bound: once remembered, an id is known until a thousand different other ids have been remembered
      after it, and no longer. */
  lemma RememberedForAThousand(ids: seq<i64>, m: i64, others: seq<i64>)
    requires m !in others
    ensures m in PushAll(Pushed(ids, m), others) <==> |Elements(others)| < 1000
  {
    hide Without, PushAll, FrontAll;
    PushAllFronts(Pushed(ids, m), others);
    KeptIffFewOthers(1000, ids, m, others);
  }

  // ---------- as long as no set is full ----------

  /** Before each event the map has room for one more id in every session. */
  ghost predicate Roomy(prims: Primitives, events: seq<Event>)
    requires Lawful(prims)
  {
    events == [] ||
    var before := events[..|events| - 1];
    Roomy(prims, before) && forall id: i64 :: |RecentOf(RefRun(prims, before).0, id)| < RECENT_CAPACITY
  }

  /** The server remembers no more than the map. */
  ghost predicate NoMore(st: ServerState, ref: Reference, id: i64) {
    id in st.table ==> forall m :: m in Recents(st, id) ==> m in RecentOf(ref, id)
  }

  lemma PushedKeepsAll(ids: seq<i64>, m: i64)
    requires |ids| < RECENT_CAPACITY
    ensures m in Pushed(ids, m) && forall x :: x in ids ==> x in Pushed(ids, m)
  {
    WithoutMembers(ids, m);
    WithoutShorter(ids, m);
    assert Pushed(ids, m) == [m] + Without(ids, m);
    assert Pushed(ids, m)[0] == m;
  }

  /** What the server remembers of a frame, the map remembers or knows already. */
  lemma RememberedByBoth(prims: Primitives, capacity: nat, st: ServerState, ref: Reference, raw: bytes, id: i64, now: nat)
    requires Lawful(prims) && Abreast(capacity, st, ref) && id in st.table
    ensures var m := Remembered(prims, st, raw, id, now);
      m.None? || RefRemembered(prims, ref, raw, id, now) == m
        || (RefRemembered(prims, ref, raw, id, now).None? && m.value in RecentOf(ref, id))
  {
  }

  lemma NoMoreStep(prims: Primitives, capacity: nat, st: ServerState, ref: Reference, event: Event, id: i64)
    requires Lawful(prims) && Abreast(capacity, st, ref) && NoMore(st, ref, id)
    requires event.FrameIn? ==> NoCollision(st, event.env.handled)
    requires |RecentOf(ref, id)| < RECENT_CAPACITY
    ensures NoMore(StepEvent(prims, capacity, st, event).0, RefEvent(prims, ref, event).0, id)
  {
    match event
    case FrameIn(raw, env) =>
      StepRecents(prims, capacity, st, raw, env, id);
      RefRecents(prims, ref, raw, env, id);
      if id in st.table {
        RememberedByBoth(prims, capacity, st, ref, raw, id, env.nowCheck);
        hide Step, RefStep, Remembered, RefRemembered, Pushed, Abreast;
        var m, m' := Remembered(prims, st, raw, id, env.nowCheck), RefRemembered(prims, ref, raw, id, env.nowCheck);
        if m.Some? { PushedMembers(Recents(st, id), m.value); }
        if m'.Some? { PushedKeepsAll(RecentOf(ref, id), m'.value); }
      }
    case Evict(x) =>
      EvictKeeps(capacity, st, x);
      OthersRecents(st, st.(lru := Remove(st.lru, x)), x);
      assert id != x ==> Recents(st.(lru := Remove(st.lru, x)), id) == [] || Recents(st.(lru := Remove(st.lru, x)), id) == Recents(st, id);
  }

  /** A replay that eviction lets through: the map remembers the id, the server has forgotten it, and the
      frame is next in sequence and in time. */
  ghost predicate AdmittedReplay(prims: Primitives, st: ServerState, ref: Reference, raw: bytes, now: nat)
    requires Lawful(prims)
  {
    ForgottenReplay(prims, st, ref, raw) && NextInTime(prims, st, raw, PacketKeyId(raw), now)
  }

  lemma DisputedIsAdmitted(prims: Primitives, st: ServerState, ref: Reference, raw: bytes, now: nat)
    requires Lawful(prims) && (|raw| >= 8 ==> NoMore(st, ref, PacketKeyId(raw)))
    ensures Disputed(prims, st, ref, raw, now) <==> AdmittedReplay(prims, st, ref, raw, now)
  {
  }

  ghost predicate NeverAdmitted(prims: Primitives, capacity: nat, events: seq<Event>)
    requires Lawful(prims)
  {
    events == [] ||
    var before, last := events[..|events| - 1], events[|events| - 1];
    NeverAdmitted(prims, capacity, before)
    && (last.FrameIn? ==>
          !AdmittedReplay(prims, Run(prims, capacity, before).0, RefRun(prims, before).0, last.raw, last.env.nowCheck))
  }

  lemma NoMoreAtFirst(prims: Primitives, capacity: nat, id: i64)
    requires Lawful(prims)
    ensures NoMore(Run(prims, capacity, []).0, RefRun(prims, []).0, id)
  {
  }

  lemma {:induction false} RoomyRun(prims: Primitives, capacity: nat, events: seq<Event>, id: i64)
    requires Lawful(prims) && capacity >= 1 && Collisionless(prims, capacity, events)
    requires NeverDisputed(prims, capacity, events) && Roomy(prims, events)
    ensures NoMore(Run(prims, capacity, events).0, RefRun(prims, events).0, id)
  {
    hide StepEvent, RefEvent, Abreast, Disputed, NoCollision, NoMore, RecentOf, Run, RefRun;
    if events == [] {
      NoMoreAtFirst(prims, capacity, id);
    } else {
      var before, last := events[..|events| - 1], events[|events| - 1];
      RoomyRun(prims, capacity, before, id);
      UndisputedRun(prims, capacity, before);
      NoMoreStep(prims, capacity, Run(prims, capacity, before).0, RefRun(prims, before).0, last, id);
      assert events == before + [last];
      RunSnoc(prims, capacity, before, last);
      RefRunSnoc(prims, before, last);
    }
  }

  lemma {:induction false} UndisputedIffNotAdmitted(prims: Primitives, capacity: nat, events: seq<Event>)
    requires Lawful(prims) && capacity >= 1 && Collisionless(prims, capacity, events) && Roomy(prims, events)
    ensures NeverDisputed(prims, capacity, events) <==> NeverAdmitted(prims, capacity, events)
  {
    if events != [] {
      hide StepEvent, RefEvent, Abreast, Disputed, AdmittedReplay, NoCollision, NoMore, RecentOf, Run, RefRun;
      var before, last := events[..|events| - 1], events[|events| - 1];
      UndisputedIffNotAdmitted(prims, capacity, before);
      if NeverDisputed(prims, capacity, before) && last.FrameIn? {
        if |last.raw| >= 8 { RoomyRun(prims, capacity, before, PacketKeyId(last.raw)); }
        DisputedIsAdmitted(prims, Run(prims, capacity, before).0, RefRun(prims, before).0, last.raw, last.env.nowCheck);
      }
    }
  }

  /** As long as no session has filled its set of recent ids, the two can be told apart exactly when an
      eviction lets a replay through. */
  lemma AlikeIffNoReplayAdmitted(prims: Primitives, capacity: nat, events: seq<Event>)
    requires Lawful(prims) && capacity >= 1 && Collisionless(prims, capacity, events) && Roomy(prims, events)
    ensures RunsAlike(prims, capacity, events) <==> NeverAdmitted(prims, capacity, events)
  {
    AlikeIffUndisputed(prims, capacity, events);
    UndisputedIffNotAdmitted(prims, capacity, events);
  }

  // ---------- a replay that gets through ----------

  /** A genuine frame of a session. */
  function GenuineFrame(prims: Primitives, row: FullSession, counter: u32, h: Header, noise: Noise): bytes
    requires Lawful(prims)
  {
    EncodePacket(row.authKeyId, Seal(prims, row.clientWriteKey, row.clientMacKey, counter, EncodeHeader(h), noise))
  }

  lemma GenuineFrameCarries(prims: Primitives, capacity: nat, st: ServerState, id: i64, counter: u32, h: Header, noise: Noise)
    requires Lawful(prims) && Inv(capacity, st) && id in st.table && id != 0
    ensures Carries(prims, st, GenuineFrame(prims, st.table[id], counter, h, noise), id, h)
  {
    var row := st.table[id];
    EndToEnd.SealOpens(prims, row.clientWriteKey, row.clientMacKey, id, counter, h, noise);
    HeaderRoundTrip(h);
  }

  function HeaderNext(row: FullSession, ms: nat, k: u32): Header {
    Header(MakeMsgId(ms, k), Wrap32(row.recvSeqNo + 1 + k), [])
  }

  lemma SameClock(ms: nat, k: u32)
    ensures DiffMs(MakeMsgId(ms, k), ms) == 0
  {
    DiffIsClockDistance(ms, k, ms);
  }

  /** In every session, at every clock reading above its last message id, there are frames for which the
      eviction lets the replay through: the session's next two, in the wrong order. */
  lemma ReplayGetsThrough(prims: Primitives, capacity: nat, st: ServerState, ref: Reference, id: i64, ms: nat, noise: Noise)
    requires Lawful(prims) && Sim(capacity, st, ref) && id in st.table && id != 0
    requires st.table[id].lastMsgId < MakeMsgId(ms, 0)
    requires MakeMsgId(ms, 0) !in RecentOf(ref, id) && MakeMsgId(ms, 1) !in RecentOf(ref, id)
    ensures var row, env := st.table[id], Env(ms, ms, noise, NoReply);
      var early := GenuineFrame(prims, row, 1, HeaderNext(row, ms, 1), noise);
      var next := GenuineFrame(prims, row, 0, HeaderNext(row, ms, 0), noise);
      var st1, ref1 := Step(prims, capacity, st, early, env).0, RefStep(prims, ref, early, env).0;
      var st2 := StepEvent(prims, capacity, st1, Evict(id)).0;
      var st3, ref3 := Step(prims, capacity, st2, next, env).0, RefStep(prims, ref1, next, env).0;
      && AcceptedBy(Step(prims, capacity, st3, early, env).1, id) == Some(HeaderNext(row, ms, 1))
      && AcceptedBy(RefStep(prims, ref3, early, env).1, id) == None
  {
    hide Step, RefStep, GenuineFrame, Carries, MakeMsgId, DiffMs;
    var row := st.table[id];
    var he, hn := HeaderNext(row, ms, 1), HeaderNext(row, ms, 0);
    GenuineFrameCarries(prims, capacity, st, id, 1, he, noise);
    GenuineFrameCarries(prims, capacity, st, id, 0, hn, noise);
    MsgIdOrder(ms, 0, ms, 1);
    SameClock(ms, 0);
    SameClock(ms, 1);
    WrapSuccessor(row.recvSeqNo + 1);
    EvictionAdmitsReplay(prims, capacity, st, ref, id, GenuineFrame(prims, row, 1, he, noise), GenuineFrame(prims, row, 0, hn, noise),
      he, hn, Env(ms, ms, noise, NoReply));
  }

  /** A fresh session, for one, at the first millisecond of the clock. */
  lemma FreshSessionReplays(prims: Primitives, capacity: nat, st: ServerState, ref: Reference, id: i64, noise: Noise)
    requires Lawful(prims) && Sim(capacity, st, ref) && id in st.table && id != 0
    requires FreshRow(st.table[id]) && RecentOf(ref, id) == []
    ensures var row, env := st.table[id], Env(1, 1, noise, NoReply);
      var early := GenuineFrame(prims, row, 1, Header(TWO_32 + 1, 1, []), noise);
      var next := GenuineFrame(prims, row, 0, Header(TWO_32, 0, []), noise);
      var st1, ref1 := Step(prims, capacity, st, early, env).0, RefStep(prims, ref, early, env).0;
      var st2 := StepEvent(prims, capacity, st1, Evict(id)).0;
      var st3, ref3 := Step(prims, capacity, st2, next, env).0, RefStep(prims, ref1, next, env).0;
      && AcceptedBy(Step(prims, capacity, st3, early, env).1, id) == Some(Header(TWO_32 + 1, 1, []))
      && AcceptedBy(RefStep(prims, ref3, early, env).1, id) == None
  {
    hide Step, RefStep, GenuineFrame, MakeMsgId;
    MsgIdIs(1, 0);
    MsgIdIs(1, 1);
    ReplayGetsThrough(prims, capacity, st, ref, id, 1, noise);
  }

  // ---------- a run on which the two differ ----------

  /** A plain frame whose handling establishes the session. */
  function FirstFrame(o: TlObject, session: SessionData, noise: Noise): Event {
    FrameIn(EncodeBoxed(o), Env(1, 1, noise, Established(session, o)))
  }

  /** A session is established; its second frame comes first; the session is evicted; its first frame comes,
      and its second one again. */
  function ReplayEvents(prims: Primitives, o: TlObject, session: SessionData, noise: Noise): seq<Event>
    requires Lawful(prims)
  {
    var row := RowOf(session.authKeyId, session);
    var env := Env(1, 1, noise, NoReply);
    var early := FrameIn(GenuineFrame(prims, row, 1, Header(TWO_32 + 1, 1, []), noise), env);
    var next := FrameIn(GenuineFrame(prims, row, 0, Header(TWO_32, 0, []), noise), env);
    [FirstFrame(o, session, noise), early, Evict(session.authKeyId), next, early]
  }

  lemma FirstFrameIsPlain(prims: Primitives, capacity: nat, o: TlObject, session: SessionData, noise: Noise)
    requires Lawful(prims) && EncodableObject(o)
    ensures var first, id := FirstFrame(o, session, noise), session.authKeyId;
      && Step(prims, capacity, EMPTY, first.raw, first.env).0.table == map[id := RowOf(id, session)]
      && id in RefStep(prims, Reference(map[], map[]), first.raw, first.env).0.rows
  {
    hide EncodeBoxed, DecodeBoxed, RowOf;
    DecodeEncodedObject(o, []);
    assert EncodeBoxed(o) + [] == EncodeBoxed(o);
  }

  lemma EmptyInStep(prims: Primitives, capacity: nat, event: Event)
    requires Lawful(prims) && capacity >= 1 && event.FrameIn?
    ensures Inv(capacity, EMPTY) && Sim(capacity, EMPTY, Reference(map[], map[]))
    ensures !ForgottenReplay(prims, EMPTY, Reference(map[], map[]), event.raw)
  {
  }

  lemma FirstFrameEstablishes(prims: Primitives, capacity: nat, o: TlObject, session: SessionData, noise: Noise)
    requires Lawful(prims) && capacity >= 1 && EncodableObject(o) && FreshSession(session)
    ensures var id, first := session.authKeyId, FirstFrame(o, session, noise);
      var st, ref := Step(prims, capacity, EMPTY, first.raw, first.env).0, RefStep(prims, Reference(map[], map[]), first.raw, first.env).0;
      && Sim(capacity, st, ref) && id in st.table && st.table[id] == RowOf(id, session) && FreshRow(st.table[id]) && RecentOf(ref, id) == []
  {
    hide Step, RefStep, Sim, EncodeBoxed, ForgottenReplay, Inv;
    var first := FirstFrame(o, session, noise);
    EmptyInStep(prims, capacity, first);
    FirstFrameIsPlain(prims, capacity, o, session, noise);
    SimStep(prims, capacity, EMPTY, Reference(map[], map[]), first.raw, first.env);
    RefRecents(prims, Reference(map[], map[]), first.raw, first.env, session.authKeyId);
  }

  /** Of two events run after each other. */
  lemma RunTwice(prims: Primitives, capacity: nat, before: seq<Event>, last: Event)
    requires Lawful(prims)
    ensures Run(prims, capacity, before + [last]).0 == StepEvent(prims, capacity, Run(prims, capacity, before).0, last).0
    ensures RefRun(prims, before + [last]).0 == RefEvent(prims, RefRun(prims, before).0, last).0
  {
    hide StepEvent, RefEvent;
    RunSnoc(prims, capacity, before, last);
    RefRunSnoc(prims, before, last);
  }

  /** Transparency does fail: for every capacity and every fresh session there is a run of five events that
      the cached server and the unbounded map show differently. */
  lemma SomeRunDiffers(prims: Primitives, capacity: nat, o: TlObject, session: SessionData, noise: Noise)
    requires Lawful(prims) && capacity >= 1 && EncodableObject(o) && FreshSession(session) && session.authKeyId != 0
    ensures !RunsAlike(prims, capacity, ReplayEvents(prims, o, session, noise))
  {
    hide Step, RefStep, Sim, GenuineFrame, RunsAlike, Run, RefRun, SameOutcome;
    var id, es := session.authKeyId, ReplayEvents(prims, o, session, noise);
    EmptyRuns(prims, capacity);
    FirstFrameEstablishes(prims, capacity, o, session, noise);
    RunTwice(prims, capacity, [], es[0]);
    RunTwice(prims, capacity, [es[0]], es[1]);
    RunTwice(prims, capacity, [es[0], es[1]], es[2]);
    RunTwice(prims, capacity, [es[0], es[1], es[2]], es[3]);
    assert [] + [es[0]] == [es[0]] && [es[0]] + [es[1]] == [es[0], es[1]] && [es[0], es[1]] + [es[2]] == [es[0], es[1], es[2]];
    assert [es[0], es[1], es[2]] + [es[3]] == es[..4] && es[..4] + [es[4]] == es;
    FreshSessionReplays(prims, capacity, Run(prims, capacity, [es[0]]).0, RefRun(prims, [es[0]]).0, id, noise);
    AlikeSnoc(prims, capacity, es[..4], es[4]);
    DifferentlyAccepted(StepEvent(prims, capacity, Run(prims, capacity, es[..4]).0, es[4]).1,
      RefEvent(prims, RefRun(prims, es[..4]).0, es[4]).1, id);
  }

  lemma EmptyRuns(prims: Primitives, capacity: nat)
    requires Lawful(prims)
    ensures Run(prims, capacity, []).0 == EMPTY && RefRun(prims, []).0 == Reference(map[], map[])
  {
  }

  lemma DifferentlyAccepted(out: Output, out': Output, id: i64)
    requires AcceptedBy(out, id) != AcceptedBy(out', id)
    ensures !SameOutcome(out, out')
  {
  }
}
