/** Reverse adjacency by counting sort, and backward reachability of acceptance: the trimming step
    shared by every materialization (automaton/byte_dfa.rs, automaton/product.rs). */
module Reachability {

  // --- edges listed by target ---------------------------------------------------------------------

  function RowPairs(s: nat, row: seq<nat>): (r: seq<(nat, nat)>)
    ensures |r| == |row|
  {
    seq(|row|, i requires 0 <= i < |row| => (s, row[i]))
  }

  /** All edges, as (source, target), in row order. */
  function Pairs(rows: seq<seq<nat>>): seq<(nat, nat)> {
    if rows == [] then []
    else Pairs(rows[..|rows| - 1]) + RowPairs(|rows| - 1, rows[|rows| - 1])
  }

  /** The sources of the edges into `t`, in edge order, one entry per edge. */
  function Into(pairs: seq<(nat, nat)>, t: nat): seq<nat> {
    if pairs == [] then []
    else
      var front, last := pairs[..|pairs| - 1], pairs[|pairs| - 1];
      if last.1 == t then Into(front, t) + [last.0] else Into(front, t)
  }

  ghost predicate TargetsBelow(rows: seq<seq<nat>>, n: nat) {
    forall s, i :: 0 <= s < |rows| && 0 <= i < |rows[s]| ==> rows[s][i] < n
  }

  lemma PairsStep(rows: seq<seq<nat>>, k: nat)
    requires k < |rows|
    ensures Pairs(rows[..k + 1]) == Pairs(rows[..k]) + RowPairs(k, rows[k])
  {
    assert rows[..k + 1][..k] == rows[..k];
  }

  lemma {:induction false} PairsPrefix(rows: seq<seq<nat>>, k: nat)
    requires k <= |rows|
    ensures Pairs(rows[..k]) <= Pairs(rows)
    decreases |rows| - k
  {
    if k == |rows| {
      assert rows[..k] == rows;
    } else {
      PairsStep(rows, k);
      PairsPrefix(rows, k + 1);
    }
  }

  lemma IntoSnoc(pairs: seq<(nat, nat)>, e: (nat, nat), t: nat)
    ensures Into(pairs + [e], t) == if e.1 == t then Into(pairs, t) + [e.0] else Into(pairs, t)
  {
    assert (pairs + [e])[..|pairs|] == pairs;
  }

  lemma {:induction false} IntoAppend(a: seq<(nat, nat)>, b: seq<(nat, nat)>, t: nat)
    ensures Into(a + b, t) == Into(a, t) + Into(b, t)
    decreases |b|
  {
    if b == [] {
      assert a + b == a;
    } else {
      var k := |b| - 1;
      assert (a + b)[..|a| + k] == a + b[..k];
      IntoAppend(a, b[..k], t);
    }
  }

  lemma {:induction false} IntoMember(pairs: seq<(nat, nat)>, s: nat, t: nat)
    ensures s in Into(pairs, t) <==> (s, t) in pairs
  {
    if pairs != [] {
      var k := |pairs| - 1;
      assert pairs == pairs[..k] + [pairs[k]];
      IntoMember(pairs[..k], s, t);
    }
  }

  lemma {:induction false} PairsMember(rows: seq<seq<nat>>, s: nat, t: nat)
    ensures (s, t) in Pairs(rows) <==> s < |rows| && t in rows[s]
  {
    if rows != [] {
      var k := |rows| - 1;
      PairsMember(rows[..k], s, t);
      var r := RowPairs(k, rows[k]);
      assert (s, t) in r <==> s == k && t in rows[k] by {
        if s == k && t in rows[k] {
          var i :| 0 <= i < |rows[k]| && rows[k][i] == t;
          assert r[i] == (s, t);
        }
      }
    }
  }

  /** A source is listed under exactly its targets. */
  lemma IntoIsEdge(rows: seq<seq<nat>>, s: nat, t: nat)
    ensures s in Into(Pairs(rows), t) <==> s < |rows| && t in rows[s]
  {
    IntoMember(Pairs(rows), s, t);
    PairsMember(rows, s, t);
  }

  function Sum(a: seq<nat>): nat {
    if a == [] then 0 else Sum(a[..|a| - 1]) + a[|a| - 1]
  }

  lemma {:induction false} SumBump(a: seq<nat>, i: nat)
    requires i < |a|
    ensures Sum(a[i := a[i] + 1]) == Sum(a) + 1
  {
    var k := |a| - 1;
    var b := a[i := a[i] + 1];
    if i == k {
      assert b[..k] == a[..k];
    } else {
      assert b[..k] == a[..k][i := a[i] + 1];
      SumBump(a[..k], i);
    }
  }

  lemma {:induction false} SumZero(n: nat)
    ensures Sum(seq(n, _ => 0)) == 0
  {
    if n > 0 {
      assert seq(n, _ => 0)[..n - 1] == seq(n - 1, _ => 0);
      SumZero(n - 1);
    }
  }

  ghost predicate Counted(counts: seq<nat>, done: seq<(nat, nat)>) {
    && Sum(counts) == |done|
    && forall t :: 0 <= t < |counts| ==> counts[t] == |Into(done, t)|
  }

  method CountRow(counts: seq<nat>, s: nat, row: seq<nat>, ghost done: seq<(nat, nat)>) returns (r: seq<nat>)
    requires Counted(counts, done)
    requires forall i :: 0 <= i < |row| ==> row[i] < |counts|
    ensures |r| == |counts| && Counted(r, done + RowPairs(s, row))
  {
    r := counts;
    assert done + RowPairs(s, row)[..0] == done;
    for i := 0 to |row|
      invariant |r| == |counts| && Counted(r, done + RowPairs(s, row)[..i])
    {
      var t := row[i];
      SumBump(r, t);
      r := r[t := r[t] + 1];
      assert done + RowPairs(s, row)[..i + 1] == done + RowPairs(s, row)[..i] + [(s, t)];
      forall u | 0 <= u < |r| ensures r[u] == |Into(done + RowPairs(s, row)[..i + 1], u)| {
        IntoSnoc(done + RowPairs(s, row)[..i], (s, t), u);
      }
    }
    assert RowPairs(s, row)[..|row|] == RowPairs(s, row);
  }

  method CountTargets(rows: seq<seq<nat>>, n: nat) returns (counts: seq<nat>)
    requires TargetsBelow(rows, n)
    ensures |counts| == n && Counted(counts, Pairs(rows))
  {
    counts := seq(n, _ => 0);
    SumZero(n);
    for s := 0 to |rows|
      invariant |counts| == n && Counted(counts, Pairs(rows[..s]))
    {
      counts := CountRow(counts, s, rows[s], Pairs(rows[..s]));
      PairsStep(rows, s);
    }
    assert rows[..|rows|] == rows;
  }

  ghost predicate Offsets(offsets: seq<nat>, pairs: seq<(nat, nat)>, n: nat) {
    && |offsets| == n + 1 && offsets[0] == 0 && offsets[n] == |pairs|
    && (forall t :: 0 <= t < n ==> offsets[t + 1] == offsets[t] + |Into(pairs, t)|)
    && (forall t, u :: 0 <= t <= u <= n ==> offsets[t] <= offsets[u])
  }

  method PrefixSums(counts: seq<nat>, ghost pairs: seq<(nat, nat)>) returns (offsets: seq<nat>)
    requires Counted(counts, pairs)
    ensures Offsets(offsets, pairs, |counts|)
  {
    hide Into;
    offsets := [0];
    for t := 0 to |counts|
      invariant |offsets| == t + 1 && offsets[0] == 0
      invariant offsets[t] == Sum(counts[..t])
      invariant forall u :: 0 <= u < t ==> offsets[u + 1] == offsets[u] + |Into(pairs, u)|
      invariant forall u, v :: 0 <= u <= v <= t ==> offsets[u] <= offsets[v]
    {
      assert counts[..t + 1][..t] == counts[..t];
      offsets := offsets + [offsets[t] + counts[t]];
    }
    assert counts[..|counts|] == counts;
  }

  /** The slots of every target hold its sources among the edges placed so far. */
  ghost predicate Placed(preds: seq<nat>, offsets: seq<nat>, cursor: seq<nat>, done: seq<(nat, nat)>, n: nat) {
    && |offsets| == n + 1 && |cursor| == n
    && forall t :: 0 <= t < n ==> SlotHolds(preds, offsets, cursor, done, t)
  }

  ghost predicate SlotHolds(preds: seq<nat>, offsets: seq<nat>, cursor: seq<nat>, done: seq<(nat, nat)>, t: nat)
    requires t < |cursor| && t < |offsets|
  {
    && cursor[t] == offsets[t] + |Into(done, t)|
    && cursor[t] <= |preds|
    && preds[offsets[t]..cursor[t]] == Into(done, t)
  }

  lemma SlotRoom(offsets: seq<nat>, done: seq<(nat, nat)>, rest: seq<(nat, nat)>, n: nat, u: nat)
    requires Offsets(offsets, done + rest, n) && u < n
    ensures offsets[u] + |Into(done, u)| <= offsets[u + 1] <= |done + rest|
  {
    IntoAppend(done, rest, u);
  }

  lemma SlotKept(preds: seq<nat>, offsets: seq<nat>, cursor: seq<nat>, done: seq<(nat, nat)>, e: (nat, nat), u: nat, at: nat)
    requires u < |cursor| && u < |offsets| && e.1 < |cursor| && e.1 != u && at < |preds|
    requires SlotHolds(preds, offsets, cursor, done, u)
    requires at < offsets[u] || cursor[u] <= at
    ensures SlotHolds(preds[at := e.0], offsets, cursor[e.1 := cursor[e.1] + 1], done + [e], u)
  {
    IntoSnoc(done, e, u);
    assert preds[at := e.0][offsets[u]..cursor[u]] == preds[offsets[u]..cursor[u]];
  }

  lemma PlaceOne(preds: seq<nat>, offsets: seq<nat>, cursor: seq<nat>, done: seq<(nat, nat)>,
                 e: (nat, nat), rest: seq<(nat, nat)>, n: nat)
    requires Offsets(offsets, done + [e] + rest, n) && |preds| == |done + [e] + rest|
    requires Placed(preds, offsets, cursor, done, n) && e.1 < n
    ensures cursor[e.1] < |preds|
    ensures Placed(preds[cursor[e.1] := e.0], offsets, cursor[e.1 := cursor[e.1] + 1], done + [e], n)
  {
    hide Into;
    var t := e.1;
    var at := cursor[t];
    assert SlotHolds(preds, offsets, cursor, done, t);
    IntoSnoc(done, e, t);
    SlotRoom(offsets, done + [e], rest, n, t);
    var preds', cursor' := preds[at := e.0], cursor[t := at + 1];
    assert preds'[offsets[t]..at + 1] == preds[offsets[t]..at] + [e.0];
    forall u | 0 <= u < n && u != t ensures SlotHolds(preds', offsets, cursor', done + [e], u) {
      assert SlotHolds(preds, offsets, cursor, done, u);
      IntoSnoc(done, e, u);
      SlotRoom(offsets, done + [e], rest, n, u);
      if u < t {
        assert offsets[u + 1] <= offsets[t];
      } else {
        assert offsets[t + 1] <= offsets[u];
      }
      SlotKept(preds, offsets, cursor, done, e, u, at);
    }
  }

  method PlaceRow(preds0: seq<nat>, cursor0: seq<nat>, offsets: seq<nat>, s: nat, row: seq<nat>, n: nat,
                  ghost done: seq<(nat, nat)>, ghost rest: seq<(nat, nat)>)
    returns (preds: seq<nat>, cursor: seq<nat>)
    requires Offsets(offsets, done + RowPairs(s, row) + rest, n)
    requires |preds0| == |done + RowPairs(s, row) + rest|
    requires Placed(preds0, offsets, cursor0, done, n)
    requires forall i :: 0 <= i < |row| ==> row[i] < n
    ensures |preds| == |preds0| && Placed(preds, offsets, cursor, done + RowPairs(s, row), n)
  {
    preds, cursor := preds0, cursor0;
    ghost var all := RowPairs(s, row);
    assert done + all[..0] == done;
    for i := 0 to |row|
      invariant |preds| == |preds0|
      invariant Placed(preds, offsets, cursor, done + all[..i], n)
    {
      var t := row[i];
      assert all == all[..i] + [all[i]] + all[i + 1..];
      assert (done + all[..i]) + [all[i]] + (all[i + 1..] + rest) == done + all + rest;
      PlaceOne(preds, offsets, cursor, done + all[..i], all[i], all[i + 1..] + rest, n);
      preds := preds[cursor[t] := s];
      cursor := cursor[t := cursor[t] + 1];
      assert done + all[..i + 1] == done + all[..i] + [all[i]];
    }
    assert all[..|row|] == all;
  }

  /** Counting sort of the edges by target, into one flat array with row offsets. */
  method ReverseRows(rows: seq<seq<nat>>, n: nat) returns (offsets: seq<nat>, preds: seq<nat>)
    requires TargetsBelow(rows, n)
    ensures Offsets(offsets, Pairs(rows), n) && |preds| == |Pairs(rows)|
    ensures forall t :: 0 <= t < n ==> preds[offsets[t]..offsets[t + 1]] == Into(Pairs(rows), t)
  {
    var counts := CountTargets(rows, n);
    ghost var all := Pairs(rows);
    offsets := PrefixSums(counts, all);
    preds := seq(offsets[n], _ => 0);
    var cursor := offsets[..n];
    assert Placed(preds, offsets, cursor, [], n);
    for s := 0 to |rows|
      invariant |preds| == |all| && Placed(preds, offsets, cursor, Pairs(rows[..s]), n)
    {
      PairsStep(rows, s);
      PairsPrefix(rows, s + 1);
      ghost var done := Pairs(rows[..s]);
      ghost var rest := all[|Pairs(rows[..s + 1])|..];
      assert done + RowPairs(s, rows[s]) + rest == all;
      preds, cursor := PlaceRow(preds, cursor, offsets, s, rows[s], n, done, rest);
    }
    assert rows[..|rows|] == rows;
    forall t | 0 <= t < n ensures preds[offsets[t]..offsets[t + 1]] == Into(all, t) {
      assert SlotHolds(preds, offsets, cursor, all, t);
    }
  }

  method PushSources(rev0: seq<seq<nat>>, s: nat, row: seq<nat>, ghost done: seq<(nat, nat)>) returns (rev: seq<seq<nat>>)
    requires forall i :: 0 <= i < |row| ==> row[i] < |rev0|
    requires forall t :: 0 <= t < |rev0| ==> rev0[t] == Into(done, t)
    ensures |rev| == |rev0|
    ensures forall t :: 0 <= t < |rev| ==> rev[t] == Into(done + RowPairs(s, row), t)
  {
    rev := rev0;
    ghost var all := RowPairs(s, row);
    assert done + all[..0] == done;
    for i := 0 to |row|
      invariant |rev| == |rev0|
      invariant forall t :: 0 <= t < |rev| ==> rev[t] == Into(done + all[..i], t)
    {
      assert done + all[..i + 1] == done + all[..i] + [all[i]];
      forall t: nat ensures Into(done + all[..i + 1], t) ==
          if row[i] == t then Into(done + all[..i], t) + [s] else Into(done + all[..i], t)
      {
        IntoSnoc(done + all[..i], all[i], t);
      }
      rev := rev[row[i] := rev[row[i]] + [s]];
    }
    assert all[..|row|] == all;
  }

  /** Reverse adjacency as one growing list per target. */
  method ReverseLists(rows: seq<seq<nat>>, n: nat) returns (rev: seq<seq<nat>>)
    requires TargetsBelow(rows, n)
    ensures |rev| == n && forall t :: 0 <= t < n ==> rev[t] == Into(Pairs(rows), t)
  {
    rev := seq(n, _ => []);
    for s := 0 to |rows|
      invariant |rev| == n && forall t :: 0 <= t < n ==> rev[t] == Into(Pairs(rows[..s]), t)
    {
      PairsStep(rows, s);
      rev := PushSources(rev, s, rows[s], Pairs(rows[..s]));
    }
    assert rows[..|rows|] == rows;
  }

  // --- backward reachability ------------------------------------------------------------------------

  /** Acceptance is `k` edges away from `s`. */
  ghost predicate Reaches(rows: seq<seq<nat>>, accepting: seq<bool>, s: nat, k: nat)
    decreases k
  {
    && s < |rows| == |accepting|
    && if k == 0 then accepting[s]
       else exists i :: 0 <= i < |rows[s]| && Reaches(rows, accepting, rows[s][i], k - 1)
  }

  ghost predicate CoReachable(rows: seq<seq<nat>>, accepting: seq<bool>, s: nat) {
    exists k: nat :: Reaches(rows, accepting, s, k)
  }

  function Unmarked(live: seq<bool>): nat {
    if live == [] then 0
    else Unmarked(live[..|live| - 1]) + if live[|live| - 1] then 0 else 1
  }

  lemma {:induction false} MarkOne(live: seq<bool>, i: nat)
    requires i < |live| && !live[i]
    ensures Unmarked(live) == Unmarked(live[i := true]) + 1
  {
    var k := |live| - 1;
    if i == k {
      assert live[i := true][..k] == live[..k];
    } else {
      assert live[i := true][..k] == live[..k][i := true];
      MarkOne(live[..k], i);
    }
  }

  /** One visited state: mark and enqueue its unmarked predecessors. */
  method MarkPredecessors(live0: seq<bool>, queue0: seq<nat>, preds: seq<nat>)
    returns (live: seq<bool>, queue: seq<nat>)
    requires forall i :: 0 <= i < |preds| ==> preds[i] < |live0|
    ensures |live| == |live0| && queue0 <= queue
    ensures Unmarked(live) + |queue| == Unmarked(live0) + |queue0|
    ensures forall s :: 0 <= s < |live| ==> (live[s] <==> live0[s] || s in preds)
    ensures forall s :: 0 <= s < |live| && live[s] && !live0[s] ==> s in queue
    ensures forall s: nat :: s in queue ==> s in queue0 || s in preds
  {
    live, queue := live0, queue0;
    for i := 0 to |preds|
      invariant |live| == |live0| && queue0 <= queue
      invariant Unmarked(live) + |queue| == Unmarked(live0) + |queue0|
      invariant forall s :: 0 <= s < |live| ==> (live[s] <==> live0[s] || s in preds[..i])
      invariant forall s :: 0 <= s < |live| && live[s] && !live0[s] ==> s in queue
      invariant forall s: nat :: s in queue ==> s in queue0 || s in preds
    {
      var p := preds[i];
      assert preds[..i + 1] == preds[..i] + [p];
      if !live[p] {
        MarkOne(live, p);
        live := live[p := true];
        queue := queue + [p];
      }
    }
    assert preds[..|preds|] == preds;
  }

  ghost predicate Sound(rows: seq<seq<nat>>, accepting: seq<bool>, live: seq<bool>) {
    forall s :: 0 <= s < |live| && live[s] ==> CoReachable(rows, accepting, s)
  }

  /** Marking is closed under predecessors except at the states still queued. */
  ghost predicate ClosedBut(rows: seq<seq<nat>>, live: seq<bool>, queue: seq<nat>)
    requires |live| == |rows| && TargetsBelow(rows, |rows|)
  {
    forall s, i :: 0 <= s < |rows| && 0 <= i < |rows[s]| && live[rows[s][i]] ==>
      live[s] || rows[s][i] in queue
  }

  lemma SoundStep(rows: seq<seq<nat>>, accepting: seq<bool>, s: nat, t: nat)
    requires |rows| == |accepting| && s < |rows| && t in rows[s]
    requires CoReachable(rows, accepting, t)
    ensures CoReachable(rows, accepting, s)
  {
    var k: nat :| Reaches(rows, accepting, t, k);
    assert Reaches(rows, accepting, s, k + 1);
  }

  lemma {:induction false} ClosedIsComplete(rows: seq<seq<nat>>, accepting: seq<bool>, live: seq<bool>, s: nat, k: nat)
    requires |live| == |rows| == |accepting| && TargetsBelow(rows, |rows|)
    requires ClosedBut(rows, live, []) && Reaches(rows, accepting, s, k)
    requires forall q :: 0 <= q < |rows| && accepting[q] ==> live[q]
    ensures live[s]
    decreases k
  {
    if k > 0 {
      var i :| 0 <= i < |rows[s]| && Reaches(rows, accepting, rows[s][i], k - 1);
      ClosedIsComplete(rows, accepting, live, rows[s][i], k - 1);
    }
  }

  method AcceptingStates(accepting: seq<bool>) returns (queue: seq<nat>)
    ensures forall s: nat :: s in queue <==> s < |accepting| && accepting[s]
  {
    queue := [];
    for i := 0 to |accepting|
      invariant forall s: nat :: s in queue <==> s < i && accepting[s]
    {
      if accepting[i] { queue := queue + [i]; }
    }
  }

  lemma PredecessorsOf(rows: seq<seq<nat>>, accepting: seq<bool>, preds: seq<nat>, t: nat)
    requires |rows| == |accepting| && preds == Into(Pairs(rows), t)
    ensures forall s: nat :: s in preds <==> s < |rows| && t in rows[s]
    ensures forall i :: 0 <= i < |preds| ==> preds[i] < |rows|
    ensures CoReachable(rows, accepting, t) ==> forall s: nat :: s in preds ==> CoReachable(rows, accepting, s)
  {
    forall s: nat ensures s in preds <==> s < |rows| && t in rows[s] { IntoIsEdge(rows, s, t); }
    forall i | 0 <= i < |preds| ensures preds[i] < |rows| { assert preds[i] in preds; }
    if CoReachable(rows, accepting, t) {
      forall s: nat | s in preds ensures CoReachable(rows, accepting, s) {
        SoundStep(rows, accepting, s, t);
      }
    }
  }

  lemma ClosedStep(rows: seq<seq<nat>>, live: seq<bool>, queue: seq<nat>, preds: seq<nat>, live': seq<bool>, queue': seq<nat>)
    requires |live| == |rows| == |live'| && TargetsBelow(rows, |rows|) && queue != [] && ClosedBut(rows, live, queue)
    requires forall s: nat :: s in preds <==> s < |rows| && queue[0] in rows[s]
    requires queue[1..] <= queue'
    requires forall s :: 0 <= s < |live'| ==> (live'[s] <==> live[s] || s in preds)
    requires forall s :: 0 <= s < |live'| && live'[s] && !live[s] ==> s in queue'
    ensures ClosedBut(rows, live', queue')
  {
    forall s, i | 0 <= s < |rows| && 0 <= i < |rows[s]| && live'[rows[s][i]]
      ensures live'[s] || rows[s][i] in queue'
    {
      var u := rows[s][i];
      if u == queue[0] { assert s in preds; }
      if u in queue && u != queue[0] { LaterQueued(queue, queue', u); }
    }
  }

  lemma LaterQueued(queue: seq<nat>, queue': seq<nat>, u: nat)
    requires queue != [] && queue[1..] <= queue' && u in queue && u != queue[0]
    ensures u in queue'
  {
    var k :| 0 <= k < |queue| && queue[k] == u;
    assert queue[1..][k - 1] == u && queue'[k - 1] == u;
  }

  /** The backward worklist: exactly the states from which acceptance can be reached are marked. */
  method LiveStates(rows: seq<seq<nat>>, accepting: seq<bool>, rev: seq<seq<nat>>) returns (live: seq<bool>)
    requires |rows| == |accepting| == |rev| && TargetsBelow(rows, |rows|)
    requires forall t :: 0 <= t < |rows| ==> rev[t] == Into(Pairs(rows), t)
    ensures |live| == |rows|
    ensures forall s :: 0 <= s < |rows| ==> (live[s] <==> CoReachable(rows, accepting, s))
  {
    live := accepting;
    var queue: seq<nat> := AcceptingStates(accepting);
    forall s | 0 <= s < |rows| && accepting[s] ensures CoReachable(rows, accepting, s) {
      assert Reaches(rows, accepting, s, 0);
    }
    while queue != []
      invariant |live| == |rows|
      invariant forall s: nat :: s in queue ==> s < |rows| && live[s]
      invariant forall s :: 0 <= s < |rows| && accepting[s] ==> live[s]
      invariant Sound(rows, accepting, live)
      invariant ClosedBut(rows, live, queue)
      decreases Unmarked(live) + |queue|
    {
      var t, rest := queue[0], queue[1..];
      assert queue == [t] + rest && t in queue;
      assert forall s: nat :: s in rest ==> s in queue;
      PredecessorsOf(rows, accepting, rev[t], t);
      var live', queue' := MarkPredecessors(live, rest, rev[t]);
      ClosedStep(rows, live, queue, rev[t], live', queue');
      live, queue := live', queue';
    }
    forall s: nat | s < |rows| && CoReachable(rows, accepting, s) ensures live[s] {
      var k: nat :| Reaches(rows, accepting, s, k);
      ClosedIsComplete(rows, accepting, live, s, k);
    }
  }
}
