/** The session table, the shared sets of recent ids, and the write-through cache over the table
    (kosta-server/src/db.rs, session_store.rs, session_cache.rs). */
module SessionCache {
  import opened Wrappers
  import opened Bytes
  import opened Crypto
  import opened ServerModel

  class Database {
    var sessions: map<i64, FullSession>

    constructor ()
      ensures sessions == map[]
    {
      sessions := map[];
    }

    method SaveSessionFull(row: FullSession)
      modifies this
      ensures sessions == old(sessions)[row.authKeyId := row]
    {
      sessions := sessions[row.authKeyId := row];
    }

    method UpdateRecvSeqAndLastMsg(id: i64, recvSeqNo: i32, lastMsgId: i64)
      modifies this
      ensures id in old(sessions) ==>
        sessions == old(sessions)[id := old(sessions)[id].(recvSeqNo := recvSeqNo, lastMsgId := lastMsgId)]
      ensures id !in old(sessions) ==> sessions == old(sessions)
    {
      if id in sessions {
        sessions := sessions[id := sessions[id].(recvSeqNo := recvSeqNo, lastMsgId := lastMsgId)];
      }
    }

    method UpdateCounters(id: i64, sendCounter: u32, recvCounter: u32)
      modifies this
      ensures id in old(sessions) ==>
        sessions == old(sessions)[id := old(sessions)[id].(sendCounter := sendCounter, recvCounter := recvCounter)]
      ensures id !in old(sessions) ==> sessions == old(sessions)
    {
      if id in sessions {
        sessions := sessions[id := sessions[id].(sendCounter := sendCounter, recvCounter := recvCounter)];
      }
    }

    method UpdateSendState(id: i64, sendSeqNo: i32, msgIdCounter: u32)
      modifies this
      ensures id in old(sessions) ==>
        sessions == old(sessions)[id := old(sessions)[id].(sendSeqNo := sendSeqNo, msgIdCounter := msgIdCounter)]
      ensures id !in old(sessions) ==> sessions == old(sessions)
    {
      if id in sessions {
        sessions := sessions[id := sessions[id].(sendSeqNo := sendSeqNo, msgIdCounter := msgIdCounter)];
      }
    }

    method UpdateUserId(id: i64, userId: i64)
      modifies this
      ensures id in old(sessions) ==> sessions == old(sessions)[id := old(sessions)[id].(userId := userId)]
      ensures id !in old(sessions) ==> sessions == old(sessions)
    {
      if id in sessions {
        sessions := sessions[id := sessions[id].(userId := userId)];
      }
    }

    method GetFullSession(id: i64) returns (row: Option<FullSession>)
      ensures row == if id in sessions then Some(sessions[id]) else None
    {
      row := if id in sessions then Some(sessions[id]) else None;
    }
  }

  /** The recent message ids of one session, shared by the cached session and its clones. */
  class RecentIds {
    var ids: seq<i64>

    constructor ()
      ensures ids == []
    {
      ids := [];
    }

    method Put(id: i64)
      modifies this
      ensures ids == Pushed(old(ids), id)
    {
      ids := Pushed(ids, id);
    }
  }

  /** A session as the code clones it: its own data, and the shared set. */
  datatype Session = Session(data: SessionData, recent: RecentIds)

  datatype Entry = Entry(id: i64, session: Session)

  /** What a list of entries stands for. */
  ghost function ViewOf(entries: seq<Entry>): (v: seq<Cached>)
    reads set e | e in entries :: e.session.recent
    ensures |v| == |entries|
  {
    if entries == [] then []
    else [Cached(entries[0].id, entries[0].session.data, entries[0].session.recent.ids)] + ViewOf(entries[1..])
  }

  lemma {:induction false} ViewAt(entries: seq<Entry>, i: nat)
    requires i < |entries|
    ensures ViewOf(entries)[i] ==
      Cached(entries[i].id, entries[i].session.data, entries[i].session.recent.ids)
  {
    if i > 0 { ViewAt(entries[1..], i - 1); }
  }

  function FindEntry(entries: seq<Entry>, id: i64): Option<Session> {
    if entries == [] then None
    else if entries[0].id == id then Some(entries[0].session)
    else FindEntry(entries[1..], id)
  }

  function RemoveEntry(entries: seq<Entry>, id: i64): (r: seq<Entry>)
    ensures |r| <= |entries|
    ensures forall e :: e in r ==> e in entries && e.id != id
  {
    if entries == [] then []
    else if entries[0].id == id then RemoveEntry(entries[1..], id)
    else [entries[0]] + RemoveEntry(entries[1..], id)
  }

  lemma {:induction false} FindView(entries: seq<Entry>, id: i64)
    ensures var f := FindEntry(entries, id);
      Find(ViewOf(entries), id) == if f.None? then None else Some(Cached(id, f.value.data, f.value.recent.ids))
    ensures FindEntry(entries, id).Some? ==> Entry(id, FindEntry(entries, id).value) in entries
    ensures FindEntry(entries, id).None? ==> forall e :: e in entries ==> e.id != id
  {
    if entries != [] {
      assert ViewOf(entries)[1..] == ViewOf(entries[1..]);
      FindView(entries[1..], id);
    }
  }

  lemma {:induction false} RemoveView(entries: seq<Entry>, id: i64)
    ensures ViewOf(RemoveEntry(entries, id)) == Remove(ViewOf(entries), id)
  {
    if entries != [] {
      assert ViewOf(entries)[1..] == ViewOf(entries[1..]);
      RemoveView(entries[1..], id);
      if entries[0].id != id {
        var rest := RemoveEntry(entries[1..], id);
        assert ([entries[0]] + rest)[1..] == rest;
      }
    }
  }

  lemma {:induction false} TakeView(entries: seq<Entry>, n: nat)
    requires n <= |entries|
    ensures ViewOf(entries[..n]) == ViewOf(entries)[..n]
  {
    if n > 0 {
      assert entries[..n][1..] == entries[1..][..n - 1];
      TakeView(entries[1..], n - 1);
    }
  }

  /** No two entries are for the same session or share their recent ids. */
  ghost predicate Separate(entries: seq<Entry>) {
    forall i, j :: 0 <= i < j < |entries| ==> Apart(entries[i], entries[j])
  }

  ghost predicate Apart(e: Entry, f: Entry) {
    e.id != f.id && e.session.recent != f.session.recent
  }

  lemma SeparateCons(e: Entry, rest: seq<Entry>)
    requires Separate(rest) && forall f :: f in rest ==> Apart(e, f)
    ensures Separate([e] + rest)
  {
    forall i, j | 0 <= i < j < |[e] + rest| ensures Apart(([e] + rest)[i], ([e] + rest)[j]) {
      assert rest[j - 1] in rest;
    }
  }

  lemma {:induction false} RemoveSeparate(entries: seq<Entry>, id: i64)
    requires Separate(entries)
    ensures Separate(RemoveEntry(entries, id))
  {
    if entries != [] {
      RemoveSeparate(entries[1..], id);
      if entries[0].id != id {
        forall f | f in RemoveEntry(entries[1..], id) ensures Apart(entries[0], f) {
          assert f in entries[1..];
        }
        SeparateCons(entries[0], RemoveEntry(entries[1..], id));
      }
    }
  }

  /** An entry in front, the least recently used one out of a full cache. */
  function PutFront(capacity: nat, entries: seq<Entry>, e: Entry): seq<Entry> {
    var all := [e] + RemoveEntry(entries, e.id);
    if |all| <= capacity then all else all[..capacity]
  }

  lemma PutFrontSeparate(capacity: nat, entries: seq<Entry>, e: Entry)
    requires Separate(entries)
    requires forall f :: f in entries && f.session.recent == e.session.recent ==> f.id == e.id
    ensures Separate(PutFront(capacity, entries, e))
    ensures forall f :: f in PutFront(capacity, entries, e) ==> f == e || f in entries
  {
    RemoveSeparate(entries, e.id);
    SeparateCons(e, RemoveEntry(entries, e.id));
    var all := [e] + RemoveEntry(entries, e.id);
    assert forall f :: f in all ==> f == e || f in entries;
    assert forall f :: f in PutFront(capacity, entries, e) ==> f in all;
  }

  lemma PutFrontView(capacity: nat, entries: seq<Entry>, e: Entry)
    ensures ViewOf(PutFront(capacity, entries, e))
         == Put(capacity, ViewOf(entries), Cached(e.id, e.session.data, e.session.recent.ids))
  {
    var rest := RemoveEntry(entries, e.id);
    var all := [e] + rest;
    RemoveView(entries, e.id);
    assert all[1..] == rest;
    if |all| > capacity { TakeView(all, capacity); }
  }

  /** A hit moves its entry to the front; the list keeps its length, so nothing falls out. */
  lemma HitView(entries: seq<Entry>, id: i64)
    requires Separate(entries) && FindEntry(entries, id).Some?
    ensures var e := Entry(id, FindEntry(entries, id).value);
      var all := [e] + RemoveEntry(entries, id);
      && Separate(all) && (forall f :: f in all ==> f in entries)
      && ViewOf(all) == [Cached(id, e.session.data, e.session.recent.ids)] + Remove(ViewOf(entries), id)
  {
    var e := Entry(id, FindEntry(entries, id).value);
    var rest := RemoveEntry(entries, id);
    FindView(entries, id);
    RemoveSeparate(entries, id);
    forall f | f in rest ensures Apart(e, f) { SeparateMembers(entries, e, f); }
    SeparateCons(e, rest);
    RemoveView(entries, id);
    assert ([e] + rest)[1..] == rest;
  }

  lemma SeparateMembers(entries: seq<Entry>, e: Entry, f: Entry)
    requires Separate(entries) && e in entries && f in entries && e.id != f.id
    ensures Apart(e, f)
  {
    var i :| 0 <= i < |entries| && entries[i] == e;
    var j :| 0 <= j < |entries| && entries[j] == f;
    assert Apart(entries[if i < j then i else j], entries[if i < j then j else i]);
  }

  class Cache {
    const capacity: nat
    const db: Database
    var entries: seq<Entry>          // most recently used first

    ghost predicate Valid()
      reads this
    {
      capacity >= 1 && Separate(entries)
    }

    ghost function Shared(): set<RecentIds>
      reads this
    {
      set e | e in entries :: e.session.recent
    }

    /** The state the cache and its table stand for. */
    ghost function View(): ServerState
      reads this, db, Shared()
    {
      ServerState(ViewOf(entries), db.sessions)
    }

    constructor (capacity: nat, db: Database)
      requires capacity >= 1
      ensures Valid() && entries == [] && this.capacity == capacity && this.db == db
    {
      this.capacity := capacity;
      this.db := db;
      entries := [];
    }

    method PutEntry(id: i64, session: Session)
      requires Valid()
      requires forall e :: e in entries && e.session.recent == session.recent ==> e.id == id
      modifies this`entries
      ensures Valid() && entries == PutFront(capacity, old(entries), Entry(id, session))
      ensures View() == old(View()).(lru := Put(capacity, old(View()).lru, Cached(id, session.data, session.recent.ids)))
      ensures Shared() <= old(Shared()) + {session.recent}
    {
      PutFrontSeparate(capacity, entries, Entry(id, session));
      PutFrontView(capacity, entries, Entry(id, session));
      entries := PutFront(capacity, entries, Entry(id, session));
    }

    /** get_session: a clone of the cached session, or of the loaded row. */
    method GetSession(id: i64) returns (r: Option<Session>)
      requires Valid()
      modifies this`entries
      ensures Valid() && fresh(Shared() - old(Shared()))
      ensures var (st, c) := Get(capacity, old(View()), id);
        View() == st && (r.None? <==> c.None?)
        && (r.Some? ==> c == Some(Cached(id, r.value.data, r.value.recent.ids)))
      ensures r.Some? ==> entries != [] && entries[0] == Entry(id, r.value)
    {
      hide Load, FindEntry;
      FindView(entries, id);
      r := FindEntry(entries, id);
      if r.Some? {
        HitView(entries, id);
        entries := [Entry(id, r.value)] + RemoveEntry(entries, id);
        return;
      }
      var full := db.GetFullSession(id);
      if full.Some? {
        var recent := new RecentIds();
        var session := Session(Load(id, full.value), recent);
        PutEntry(id, session);
        return Some(session);
      }
      return None;
    }

    /** update_session: the row first, then the cache. */
    method UpdateSession(id: i64, session: Session)
      requires Valid()
      requires forall e :: e in entries && e.session.recent == session.recent ==> e.id == id
      modifies this`entries, db
      ensures Valid() && Shared() <= old(Shared()) + {session.recent}
      ensures View() == Update(capacity, old(View()), id, session.data, session.recent.ids)
      ensures entries != [] && entries[0] == Entry(id, session)
    {
      db.SaveSessionFull(RowOf(id, session.data));
      PutEntry(id, session);
    }
  }
}
