/** Bounded lists of the most recently used ids, newest first: the LRU cache of sessions
    (kosta-server/src/session_cache.rs) and each session's set of recent message ids are both of this kind. */
module Recency {
  import opened Wrappers
  import opened Bytes
  import opened ServerModel
  import opened ServerInvariant

  /** Using an id puts it in front; beyond the capacity the least recently used one falls out. */
  function Fronted(capacity: nat, ids: seq<i64>, id: i64): seq<i64> {
    var all := [id] + Without(ids, id);
    if |all| <= capacity then all else all[..capacity]
  }

  function FrontAll(capacity: nat, ids: seq<i64>, others: seq<i64>): seq<i64>
    decreases |others|
  {
    if others == [] then ids else FrontAll(capacity, Fronted(capacity, ids, others[0]), others[1..])
  }

  function Elements(ids: seq<i64>): set<i64> { set x | x in ids }

  ghost predicate NoRepeats(ids: seq<i64>) { forall i, j :: 0 <= i < j < |ids| ==> ids[i] != ids[j] }

  // ---------- lists without repeats ----------

  lemma {:induction false} WithoutConcat(a: seq<i64>, b: seq<i64>, x: i64)
    ensures Without(a + b, x) == Without(a, x) + Without(b, x)
  {
    if a == [] {
      assert a + b == b;
    } else {
      assert (a + b)[0] == a[0] && (a + b)[1..] == a[1..] + b;
      WithoutConcat(a[1..], b, x);
    }
  }

  lemma {:induction false} WithoutAbsent(ids: seq<i64>, x: i64)
    requires x !in ids
    ensures Without(ids, x) == ids
  {
    if ids != [] {
      assert ids[0] in ids;
      WithoutAbsent(ids[1..], x);
    }
  }

  lemma {:induction false} WithoutShorter(ids: seq<i64>, id: i64)
    ensures |Without(ids, id)| <= |ids| && (id in ids ==> |Without(ids, id)| < |ids|)
  {
    if ids != [] { WithoutShorter(ids[1..], id); }
  }

  /** Taking out an id that occurs once closes the gap. */
  lemma WithoutMiddle(a: seq<i64>, x: i64, c: seq<i64>)
    requires x !in a && x !in c
    ensures Without(a + ([x] + c), x) == a + c
  {
    hide Without;
    WithoutConcat(a, [x] + c, x);
    WithoutConcat([x], c, x);
    WithoutAbsent(a, x);
    WithoutAbsent(c, x);
    WithoutOne(x, x);
  }

  lemma WithoutOne(m: i64, x: i64)
    ensures Without([m], x) == if m == x then [] else [m]
  {
    assert Without([], x) == [];
  }

  lemma {:induction false} Counted(ids: seq<i64>)
    requires NoRepeats(ids)
    ensures |Elements(ids)| == |ids|
  {
    if ids != [] {
      var init, last := ids[..|ids| - 1], ids[|ids| - 1];
      Counted(init);
      assert last !in init;
      assert Elements(ids) == Elements(init) + {last};
    }
  }

  // ---------- where an id stands ----------

  /** m stands behind exactly the ids seen, and occurs nowhere else. */
  ghost predicate Behind(ids: seq<i64>, m: i64, seen: set<i64>) {
    var k := |seen|;
    && k < |ids| && ids[k] == m && Elements(ids[..k]) == seen && NoRepeats(ids[..k])
    && m !in seen && m !in ids[k + 1..]
  }

  lemma AtFront(ids: seq<i64>, m: i64)
    ensures Behind([m] + Without(ids, m), m, {})
  {
    WithoutMembers(ids, m);
    var all := [m] + Without(ids, m);
    assert all[..0] == [] && all[1..] == Without(ids, m);
  }

  /** Another id in front: one already seen changes places, a new one pushes m back by one. */
  lemma Pushes(ids: seq<i64>, m: i64, seen: set<i64>, x: i64)
    requires Behind(ids, m, seen) && x != m
    ensures Behind([x] + Without(ids, x), m, seen + {x})
  {
    hide Without;
    var k := |seen|;
    var init, tail := ids[..k], ids[k + 1..];
    assert ids == init + ([m] + tail);
    WithoutConcat(init, [m] + tail, x);
    WithoutConcat([m], tail, x);
    WithoutOne(m, x);
    WithoutMembers(tail, x);
    var front := [x] + Without(init, x);
    Fresh(init, seen, x);
    var all := [x] + Without(ids, x);
    assert all == front + ([m] + Without(tail, x));
    assert all[..|front|] == front && all[|front|] == m && all[|front| + 1..] == Without(tail, x);
  }

  /** The prefix with x in front has the ids seen and x, each once. */
  lemma Fresh(init: seq<i64>, seen: set<i64>, x: i64)
    requires NoRepeats(init) && Elements(init) == seen
    ensures var front := [x] + Without(init, x);
      NoRepeats(front) && Elements(front) == seen + {x} && |front| == |seen + {x}|
  {
    hide NoRepeats, Without;
    if x in init {
      var i :| 0 <= i < |init| && init[i] == x;
      var a, c := init[..i], init[i + 1..];
      assert init == a + ([x] + c);
      MiddleOut(a, x, c);
      WithoutMiddle(a, x, c);
    } else {
      WithoutAbsent(init, x);
    }
    InFront(x, Without(init, x));
    Counted([x] + Without(init, x));
  }

  lemma MiddleOut(a: seq<i64>, x: i64, c: seq<i64>)
    requires NoRepeats(a + ([x] + c))
    ensures x !in a && x !in c && NoRepeats(a + c) && Elements(a + c) + {x} == Elements(a + ([x] + c))
  {
    var all := a + ([x] + c);
    assert all[|a|] == x;
    forall i | 0 <= i < |a| ensures a[i] != x { assert all[i] == a[i]; }
    forall i | 0 <= i < |c| ensures c[i] != x { assert all[|a| + 1 + i] == c[i]; }
    forall i, j | 0 <= i < j < |a + c| ensures (a + c)[i] != (a + c)[j] {
      assert (a + c)[i] == all[if i < |a| then i else i + 1];
      assert (a + c)[j] == all[if j < |a| then j else j + 1];
    }
  }

  lemma InFront(x: i64, rest: seq<i64>)
    requires x !in rest && NoRepeats(rest)
    ensures NoRepeats([x] + rest) && Elements([x] + rest) == Elements(rest) + {x}
  {
  }

  lemma NotAmong(ids: seq<i64>, m: i64)
    requires m !in Elements(ids)
    ensures m !in ids
  {
  }

  lemma Cut(all: seq<i64>, m: i64, seen: set<i64>, n: nat)
    requires Behind(all, m, seen) && n <= |all|
    ensures if |seen| < n then Behind(all[..n], m, seen) else m !in all[..n]
  {
    var k := |seen|;
    if k < n {
      assert all[..n][..k] == all[..k];
      assert all[..n][k + 1..] == all[k + 1..][..n - k - 1];
    } else {
      NotAmong(all[..k], m);
      assert all[..n] == all[..k][..n];
    }
  }

  lemma FrontedMoves(capacity: nat, ids: seq<i64>, m: i64, seen: set<i64>, x: i64)
    requires Behind(ids, m, seen) && x != m
    ensures if |seen + {x}| < capacity then Behind(Fronted(capacity, ids, x), m, seen + {x})
            else m !in Fronted(capacity, ids, x)
  {
    hide Behind, Without;
    Pushes(ids, m, seen, x);
    var all := [x] + Without(ids, x);
    if |all| > capacity { Cut(all, m, seen + {x}, capacity); } else { BehindFits(all, m, seen + {x}); }
  }

  lemma BehindFits(ids: seq<i64>, m: i64, seen: set<i64>)
    requires Behind(ids, m, seen)
    ensures |seen| < |ids| && m in ids
  {
  }

  lemma {:induction false} StaysOut(capacity: nat, ids: seq<i64>, m: i64, others: seq<i64>)
    requires m !in ids && m !in others
    ensures m !in FrontAll(capacity, ids, others)
    decreases |others|
  {
    if others != [] {
      assert others[0] in others;
      WithoutMembers(ids, others[0]);
      StaysOut(capacity, Fronted(capacity, ids, others[0]), m, others[1..]);
    }
  }

  lemma {:induction false} FrontAllMoves(capacity: nat, ids: seq<i64>, m: i64, seen: set<i64>, others: seq<i64>)
    requires Behind(ids, m, seen) && |seen| < capacity && m !in others
    ensures m in FrontAll(capacity, ids, others) <==> |seen + Elements(others)| < capacity
    decreases |others|
  {
    hide Behind, Fronted;
    if others == [] {
      BehindFits(ids, m, seen);
      assert seen + Elements(others) == seen;
    } else {
      var x := others[0];
      assert x in others;
      FrontedMoves(capacity, ids, m, seen, x);
      assert seen + Elements(others) == (seen + {x}) + Elements(others[1..]);
      if |seen + {x}| < capacity {
        FrontAllMoves(capacity, Fronted(capacity, ids, x), m, seen + {x}, others[1..]);
      } else {
        StaysOut(capacity, Fronted(capacity, ids, x), m, others[1..]);
        Larger(seen + {x}, Elements(others[1..]));
      }
    }
  }

  lemma {:induction false} Larger(a: set<i64>, b: set<i64>)
    ensures |a + b| >= |a|
  {
    var rest := (a + b) - a;
    assert a + b == a + rest && a !! rest;
  }

  /** An id just used is still there after other ids have been used if and only if fewer different ones than the
      capacity were. */
  lemma KeptIffFewOthers(capacity: nat, ids: seq<i64>, m: i64, others: seq<i64>)
    requires capacity >= 1 && m !in others
    ensures m in FrontAll(capacity, Fronted(capacity, ids, m), others) <==> |Elements(others)| < capacity
  {
    hide Behind;
    AtFront(ids, m);
    var all := [m] + Without(ids, m);
    if |all| > capacity { Cut(all, m, {}, capacity); }
    FrontAllMoves(capacity, Fronted(capacity, ids, m), m, {}, others);
    assert {} + Elements(others) == Elements(others);
  }
}
