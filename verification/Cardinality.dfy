/** Residual cardinalities (automaton/byte_dfa.rs): a topological pass from the leaves finds the
    states with finite residual languages and counts them; all others are infinite. */
module Cardinality {
  import opened Languages
  import opened Counting
  import opened Engine
  import Finite
  import Reachability

  function TargetRows(t: Table): (rows: seq<seq<nat>>)
    ensures |rows| == |t.accepting|
  {
    seq(|t.accepting|, s requires 0 <= s < |t.accepting| => Targets(t.Row(s)))
  }

  /** Edges of a row whose target is not yet resolved. */
  function Pending(row: seq<nat>, resolved: seq<nat>): nat {
    if row == [] then 0
    else Pending(row[..|row| - 1], resolved) + if row[|row| - 1] in resolved then 0 else 1
  }

  lemma {:induction false} PendingResolve(row: seq<nat>, resolved: seq<nat>, t: nat)
    requires t !in resolved
    ensures Pending(row, resolved) == Pending(row, resolved + [t]) + multiset(row)[t]
  {
    if row != [] {
      var k := |row| - 1;
      PendingResolve(row[..k], resolved, t);
      assert row == row[..k] + [row[k]];
    }
  }

  lemma {:induction false} PendingAll(row: seq<nat>)
    ensures Pending(row, []) == |row|
  {
    if row != [] { PendingAll(row[..|row| - 1]); }
  }

  lemma {:induction false} PendingZero(row: seq<nat>, resolved: seq<nat>)
    requires Pending(row, resolved) == 0
    ensures forall i :: 0 <= i < |row| ==> row[i] in resolved
  {
    if row != [] { PendingZero(row[..|row| - 1], resolved); }
  }

  lemma {:induction false} PendingSome(row: seq<nat>, resolved: seq<nat>) returns (i: nat)
    requires Pending(row, resolved) > 0
    ensures i < |row| && row[i] !in resolved
  {
    var k := |row| - 1;
    if row[k] in resolved { i := PendingSome(row[..k], resolved); } else { i := k; }
  }

  // --- edge multiplicities ------------------------------------------------------------------------

  lemma {:induction false} IntoMultiplicity(pairs: seq<(nat, nat)>, s: nat, t: nat)
    ensures multiset(Reachability.Into(pairs, t))[s] == multiset(pairs)[(s, t)]
  {
    if pairs != [] {
      var k := |pairs| - 1;
      assert pairs == pairs[..k] + [pairs[k]];
      IntoMultiplicity(pairs[..k], s, t);
    }
  }

  lemma {:induction false} RowMultiplicity(u: nat, row: seq<nat>, s: nat, t: nat)
    ensures multiset(Reachability.RowPairs(u, row))[(s, t)] == if s == u then multiset(row)[t] else 0
  {
    var r := Reachability.RowPairs(u, row);
    if row == [] {
      assert r == [];
    } else {
      var k := |row| - 1;
      assert row == row[..k] + [row[k]];
      assert r == Reachability.RowPairs(u, row[..k]) + [(u, row[k])];
      RowMultiplicity(u, row[..k], s, t);
    }
  }

  lemma {:induction false} PairsMultiplicity(rows: seq<seq<nat>>, s: nat, t: nat)
    ensures multiset(Reachability.Pairs(rows))[(s, t)] == if s < |rows| then multiset(rows[s])[t] else 0
  {
    if rows != [] {
      var k := |rows| - 1;
      PairsMultiplicity(rows[..k], s, t);
      RowMultiplicity(k, rows[k], s, t);
    }
  }

  /** A source occurs among the predecessors of `t` once per edge to `t`. */
  lemma PredecessorMultiplicity(rows: seq<seq<nat>>, s: nat, t: nat)
    requires s < |rows|
    ensures multiset(Reachability.Into(Reachability.Pairs(rows), t))[s] == multiset(rows[s])[t]
  {
    IntoMultiplicity(Reachability.Pairs(rows), s, t);
    PairsMultiplicity(rows, s, t);
  }

  // --- the topological pass -----------------------------------------------------------------------

  function Positive(a: seq<nat>): nat {
    if a == [] then 0 else Positive(a[..|a| - 1]) + if a[|a| - 1] > 0 then 1 else 0
  }

  lemma {:induction false} PositiveUpdate(a: seq<nat>, i: nat)
    requires i < |a| && a[i] > 0
    ensures Positive(a[i := a[i] - 1]) == Positive(a) - (if a[i] == 1 then 1 else 0)
  {
    var k := |a| - 1;
    if i == k {
      assert a[i := a[i] - 1][..k] == a[..k];
    } else {
      assert a[i := a[i] - 1][..k] == a[..k][i := a[i] - 1];
      PositiveUpdate(a[..k], i);
    }
  }

  ghost predicate Released(before: seq<nat>, after: seq<nat>, preds: seq<nat>) {
    && |after| == |before|
    && forall s: nat :: s < |after| ==> after[s] + multiset(preds)[s] == before[s]
  }

  ghost predicate Queued(before: seq<nat>, after: seq<nat>, queue0: seq<nat>, queue: seq<nat>)
    requires |after| == |before|
  {
    && Finite.Distinct(queue)
    && forall s: nat :: s in queue <==>
         s in queue0 || (DEAD < s < |after| && before[s] > 0 && after[s] == 0)
  }

  /** Resolving one target: every edge into it leaves the outdegree of its source. */
  method Release(remaining0: seq<nat>, queue0: seq<nat>, preds: seq<nat>)
    returns (remaining: seq<nat>, queue: seq<nat>)
    requires forall i :: 0 <= i < |preds| ==> preds[i] < |remaining0|
    requires forall s: nat :: s < |remaining0| ==> multiset(preds)[s] <= remaining0[s]
    requires forall s: nat :: s in queue0 ==> s < |remaining0| && remaining0[s] == 0
    requires Finite.Distinct(queue0)
    ensures Released(remaining0, remaining, preds)
    ensures Queued(remaining0, remaining, queue0, queue)
    ensures Positive(remaining) + |queue| <= Positive(remaining0) + |queue0|
  {
    hide Released, Queued;
    remaining, queue := remaining0, queue0;
    ReleaseStart(remaining0, queue0);
    for i := 0 to |preds|
      invariant Released(remaining0, remaining, preds[..i])
      invariant |remaining| == |remaining0| && Queued(remaining0, remaining, queue0, queue)
      invariant Positive(remaining) + |queue| <= Positive(remaining0) + |queue0|
    {
      var source := preds[i];
      assert preds[..i + 1] == preds[..i] + [source];
      assert preds == preds[..i] + [source] + preds[i + 1..];
      assert multiset(preds)[source] >= multiset(preds[..i])[source] + 1;
      ReleaseOne(remaining0, remaining, preds[..i], source);
      PositiveUpdate(remaining, source);
      QueueOne(remaining0, remaining, queue0, queue, source);
      remaining := remaining[source := remaining[source] - 1];
      if source != DEAD && remaining[source] == 0 {
        queue := queue + [source];
      }
    }
    assert preds[..|preds|] == preds;
  }

  lemma ReleaseStart(before: seq<nat>, queue: seq<nat>)
    requires Finite.Distinct(queue)
    ensures Released(before, before, []) && Queued(before, before, queue, queue)
  {}

  lemma ReleaseOne(before: seq<nat>, after: seq<nat>, preds: seq<nat>, s: nat)
    requires Released(before, after, preds) && s < |before| && multiset(preds)[s] < before[s]
    ensures s < |after| && 0 < after[s] <= before[s]
    ensures Released(before, after[s := after[s] - 1], preds + [s])
  {}

  lemma QueueOne(before: seq<nat>, after: seq<nat>, queue0: seq<nat>, queue: seq<nat>, s: nat)
    requires s < |after| == |before| && 0 < after[s] <= before[s]
    requires Queued(before, after, queue0, queue)
    requires forall q: nat :: q in queue0 ==> q < |before| && before[q] == 0
    ensures Queued(before, after[s := after[s] - 1], queue0,
                   if s != DEAD && after[s] == 1 then queue + [s] else queue)
  {}

  /** Each state of `order` has all its targets earlier in `order`. */
  ghost predicate Topological(rows: seq<seq<nat>>, order: seq<nat>) {
    && Finite.Distinct(order)
    && forall k :: 0 <= k < |order| ==>
         DEAD < order[k] < |rows| && forall i :: 0 <= i < |rows[order[k]]| ==> rows[order[k]][i] in order[..k]
  }

  /** Every state outside `order` keeps an edge to a state outside `order`. */
  ghost predicate Stuck(rows: seq<seq<nat>>, order: seq<nat>) {
    forall s :: DEAD < s < |rows| && s !in order ==> Pending(rows[s], order) > 0
  }

  ghost predicate PassState(rows: seq<seq<nat>>, remaining: seq<nat>, queue: seq<nat>, order: seq<nat>) {
    && |remaining| == |rows|
    && (forall s: nat :: s < |rows| ==> remaining[s] == Pending(rows[s], order))
    && (forall s: nat :: s in queue ==> s !in order)
    && (forall s: nat :: s in queue || s in order <==> DEAD < s < |rows| && remaining[s] == 0)
    && Finite.Distinct(queue)
  }

  method LeafStates(remaining: seq<nat>) returns (queue: seq<nat>)
    requires |remaining| > 0
    ensures forall s: nat :: s in queue <==> DEAD < s < |remaining| && remaining[s] == 0
    ensures Finite.Distinct(queue)
  {
    queue := [];
    for s := 1 to |remaining|
      invariant forall q: nat :: q in queue <==> DEAD < q < s && q < |remaining| && remaining[q] == 0
      invariant Finite.Distinct(queue)
    {
      if remaining[s] == 0 { queue := queue + [s]; }
    }
  }

  lemma ResolveStep(rows: seq<seq<nat>>, preds: seq<nat>, order: seq<nat>, t: nat)
    requires t < |rows| && t !in order && preds == Reachability.Into(Reachability.Pairs(rows), t)
    ensures forall i :: 0 <= i < |preds| ==> preds[i] < |rows|
    ensures forall s: nat :: s < |rows| ==>
              Pending(rows[s], order) == Pending(rows[s], order + [t]) + multiset(preds)[s]
  {
    forall i | 0 <= i < |preds| ensures preds[i] < |rows| {
      assert preds[i] in preds;
      Reachability.IntoIsEdge(rows, preds[i], t);
    }
    forall s: nat | s < |rows|
      ensures Pending(rows[s], order) == Pending(rows[s], order + [t]) + multiset(preds)[s]
    {
      PendingResolve(rows[s], order, t);
      PredecessorMultiplicity(rows, s, t);
    }
  }

  lemma TopologicalStep(rows: seq<seq<nat>>, order: seq<nat>, t: nat)
    requires Topological(rows, order) && DEAD < t < |rows| && t !in order
    requires Pending(rows[t], order) == 0
    ensures Topological(rows, order + [t])
  {
    PendingZero(rows[t], order);
    var order' := order + [t];
    forall k | 0 <= k < |order'|
      ensures DEAD < order'[k] < |rows|
      ensures forall i :: 0 <= i < |rows[order'[k]]| ==> rows[order'[k]][i] in order'[..k]
    {
      assert order'[..k] == order[..k];
    }
  }

  lemma PassStep(rows: seq<seq<nat>>, remaining: seq<nat>, queue: seq<nat>, order: seq<nat>,
                 slice: seq<nat>, remaining': seq<nat>, queue': seq<nat>)
    requires queue != [] && PassState(rows, remaining, queue, order)
    requires forall s: nat :: s < |rows| ==>
               Pending(rows[s], order) == Pending(rows[s], order + [queue[0]]) + multiset(slice)[s]
    requires Released(remaining, remaining', slice)
    requires Queued(remaining, remaining', queue[1..], queue')
    ensures PassState(rows, remaining', queue', order + [queue[0]])
  {
    var t, rest := queue[0], queue[1..];
    assert t in queue && t !in rest;
    assert forall s: nat :: s in queue <==> s == t || s in rest;
    assert forall s: nat :: s < |rows| ==> remaining[s] == Pending(rows[s], order);
  }

  lemma PassStarts(rows: seq<seq<nat>>, remaining: seq<nat>, queue: seq<nat>)
    requires |remaining| == |rows| && (forall s: nat :: s < |rows| ==> remaining[s] == |rows[s]|)
    requires Finite.Distinct(queue) && forall s: nat :: s in queue <==> DEAD < s < |remaining| && remaining[s] == 0
    ensures PassState(rows, remaining, queue, []) && Topological(rows, [])
  {
    forall s: nat | s < |rows| ensures Pending(rows[s], []) == |rows[s]| { PendingAll(rows[s]); }
  }

  lemma PassNext(rows: seq<seq<nat>>, remaining: seq<nat>, queue: seq<nat>, order: seq<nat>)
    requires queue != [] && PassState(rows, remaining, queue, order)
    ensures DEAD < queue[0] < |rows| == |remaining| && queue[0] !in order && Pending(rows[queue[0]], order) == 0
    ensures Finite.Distinct(queue[1..]) && forall s: nat :: s in queue[1..] ==> s < |rows| && remaining[s] == 0
    ensures forall s: nat :: s < |rows| ==> remaining[s] == Pending(rows[s], order)
  {
    assert queue[0] in queue && forall s: nat :: s in queue[1..] ==> s in queue;
  }

  lemma PassEnds(rows: seq<seq<nat>>, remaining: seq<nat>, order: seq<nat>)
    requires PassState(rows, remaining, [], order)
    ensures Stuck(rows, order)
  {}

  /** Kahn's pass from the leaves. It stops with every state resolved in topological order or stuck
      on an unresolved successor. */
  method TopologicalPass(rows: seq<seq<nat>>) returns (order: seq<nat>)
    requires |rows| > 0
    requires Reachability.TargetsBelow(rows, |rows|)
    ensures Topological(rows, order) && Stuck(rows, order)
  {
    hide PassState, Pending, Topological, Stuck, Reachability.Pairs, Reachability.Into, Reachability.TargetsBelow, Positive,
         Released, Queued;
    var offsets, preds := Reachability.ReverseRows(rows, |rows|);
    var remaining: seq<nat> := seq(|rows|, s requires 0 <= s < |rows| => |rows[s]|);
    var queue: seq<nat> := LeafStates(remaining);
    order := [];
    PassStarts(rows, remaining, queue);
    while queue != []
      invariant PassState(rows, remaining, queue, order)
      invariant Topological(rows, order)
      decreases Positive(remaining) + |queue|
    {
      var target, rest := queue[0], queue[1..];
      PassNext(rows, remaining, queue, order);
      var slice := preds[offsets[target]..offsets[target + 1]];
      ResolveStep(rows, slice, order, target);
      TopologicalStep(rows, order, target);
      var remaining', queue' := Release(remaining, rest, slice);
      PassStep(rows, remaining, queue, order, slice, remaining', queue');
      remaining, queue, order := remaining', queue', order + [target];
    }
    PassEnds(rows, remaining, order);
  }

  // --- counting -----------------------------------------------------------------------------------

  /** The words of state `s` whose first byte, if any, takes one of the first `j` edges of its row. */
  ghost function Part(t: Table, s: nat, j: nat): Lang
    requires j <= |t.Row(s)|
  {
    iset w: Word | if w == [] then t.IsAccepting(s) else TakesEdge(t, s, j, w)
  }

  ghost predicate TakesEdge(t: Table, s: nat, j: nat, w: Word)
    requires j <= |t.Row(s)| && w != []
  {
    exists i :: 0 <= i < j && t.Row(s)[i].0 == t.ofByte[w[0]] && t.Accepts(t.Row(s)[i].1, w[1..])
  }

  lemma PartStep(t: Table, s: nat, j: nat)
    requires t.ClassesOk() && j < |t.Row(s)| && t.Row(s)[j].0 < |t.members|
    ensures Part(t, s, j + 1) == Part(t, s, j) + PrefixedAny(t.members[t.Row(s)[j].0], t.From(t.Row(s)[j].1))
  {
    var (c, target) := t.Row(s)[j];
    assert t.IsClass(t.members[c], c);
    forall w: Word | w != []
      ensures TakesEdge(t, s, j + 1, w) <==>
              TakesEdge(t, s, j, w) || (w[0] in t.members[c] && w[1..] in t.From(target))
    {}
  }

  lemma PartDisjoint(t: Table, s: nat, j: nat)
    requires t.ClassesOk() && j < |t.Row(s)| && t.RowOk(t.Row(s))
    ensures forall w :: w in Part(t, s, j) ==>
              w !in PrefixedAny(t.members[t.Row(s)[j].0], t.From(t.Row(s)[j].1))
  {
    var c := t.Row(s)[j].0;
    assert t.IsClass(t.members[c], c);
  }

  lemma PartWhole(t: Table, s: nat)
    requires t.WellFormed() && s < |t.accepting|
    ensures Part(t, s, |t.Row(s)|) == t.From(s)
  {
    var row := t.Row(s);
    assert t.RowOk(row);
    forall w: Word ensures w in Part(t, s, |row|) <==> t.Accepts(s, w) {
      if w != [] {
        var next := t.Next(s, w[0]);
        if TakesEdge(t, s, |row|, w) {
          var i :| 0 <= i < |row| && row[i].0 == t.ofByte[w[0]] && t.Accepts(row[i].1, w[1..]);
          ScanFinds(row, i);
        }
        if t.Accepts(s, w) {
          if next == DEAD {
            t.DeadIsSink(w[1..]);
          } else {
            var i := ScanHits(row, t.ofByte[w[0]]);
            assert TakesEdge(t, s, |row|, w);
          }
        }
      }
    }
  }

  lemma PartStart(t: Table, s: nat)
    ensures Counts(Part(t, s, 0), if t.IsAccepting(s) then 1 else 0)
  {
    if t.IsAccepting(s) {
      assert Exactly({[]}, Part(t, s, 0));
    } else {
      assert Exactly({}, Part(t, s, 0));
    }
  }

  method CountState(t: Table, s: nat, cardinalities: seq<nat>) returns (count: nat)
    requires t.WellFormed() && s < |t.accepting| == |cardinalities|
    requires forall i :: 0 <= i < |t.Row(s)| ==>
               t.Row(s)[i].1 < |cardinalities| && Counts(t.From(t.Row(s)[i].1), cardinalities[t.Row(s)[i].1])
    ensures Counts(t.From(s), count)
  {
    var row := t.Row(s);
    count := if t.accepting[s] then 1 else 0;
    PartStart(t, s);
    assert t.RowOk(row);
    for j := 0 to |row|
      invariant Counts(Part(t, s, j), count)
    {
      var (class_, target) := row[j];
      var bytes := t.members[class_];
      var multiplicity := |bytes|;
      assert t.IsClass(bytes, class_);
      CountsPrefixedAny(bytes, t.From(target), cardinalities[target]);
      PartStep(t, s, j);
      PartDisjoint(t, s, j);
      var product := SaturatingMul(cardinalities[target], multiplicity);
      CountsUnion(Part(t, s, j), PrefixedAny(bytes, t.From(target)), count, product);
      count := SaturatingAdd(count, product);
    }
    PartWhole(t, s);
  }

  lemma EdgeExtends(t: Table, s: nat, i: nat, w: Word) returns (b: Byte)
    requires t.WellFormed() && s < |t.accepting| && i < |t.Row(s)|
    requires w in t.From(t.Row(s)[i].1)
    ensures [b] + w in t.From(s)
  {
    b := EdgeByte(t, s, i);
    hide Table.Next, Table.WellFormed;
    assert ([b] + w)[1..] == w;
  }

  lemma EdgeByte(t: Table, s: nat, i: nat) returns (b: Byte)
    requires t.WellFormed() && s < |t.accepting| && i < |t.Row(s)|
    ensures t.Next(s, b) == t.Row(s)[i].1
  {
    var c := t.Row(s)[i].0;
    assert t.RowOk(t.Row(s));
    assert t.IsClass(t.members[c], c);
    b := t.members[c][0];
    assert b in t.members[c];
    ScanFinds(t.Row(s), i);
  }

  /** An unresolved state reaches unresolved states forever, and each of those still accepts. */
  lemma {:induction false} UnresolvedIsUnbounded(t: Table, order: seq<nat>, s: nat, k: nat)
    requires t.WellFormed() && t.Trimmed() && Stuck(TargetRows(t), order)
    requires DEAD < s < |t.accepting| && s !in order
    ensures LongerWord(t.From(s), k)
    decreases k
  {
    if k == 0 {
      assert t.Live(s);
      var w :| t.Accepts(s, w);
      assert w in t.From(s);
    } else {
      var i := PendingSome(TargetRows(t)[s], order);
      assert t.RowOk(t.Row(s));
      UnresolvedIsUnbounded(t, order, t.Row(s)[i].1, k - 1);
      var w :| w in t.From(t.Row(s)[i].1) && |w| >= k - 1;
      var b := EdgeExtends(t, s, i, w);
      assert |[b] + w| >= k;
    }
  }

  lemma TargetRowsBelow(t: Table)
    requires t.WellFormed()
    ensures Reachability.TargetsBelow(TargetRows(t), |t.accepting|)
  {
    forall s | 0 <= s < |t.accepting| ensures t.RowOk(t.Row(s)) {}
  }

  ghost predicate CountedSoFar(t: Table, cardinalities: seq<nat>, order: seq<nat>, k: nat)
    requires k <= |order|
  {
    && |cardinalities| == |t.accepting|
    && forall s: nat :: s in order[..k] ==> s < |t.accepting| && Counts(t.From(s), cardinalities[s])
  }

  lemma EarlierTargets(t: Table, order: seq<nat>, k: nat)
    requires Topological(TargetRows(t), order) && k < |order|
    ensures DEAD < order[k] < |t.accepting| && order[k] !in order[..k]
    ensures forall i :: 0 <= i < |t.Row(order[k])| ==> t.Row(order[k])[i].1 in order[..k]
  {
    var s := order[k];
    assert TargetRows(t)[s] == Targets(t.Row(s));
    forall i | 0 <= i < |t.Row(s)| ensures t.Row(s)[i].1 in order[..k] {
      assert TargetRows(t)[s][i] == t.Row(s)[i].1;
    }
  }

  method CountInOrder(t: Table, order: seq<nat>) returns (cardinalities: seq<nat>)
    requires t.WellFormed() && Topological(TargetRows(t), order)
    ensures CountedSoFar(t, cardinalities, order, |order|)
    ensures forall s: nat :: s < |t.accepting| && s !in order ==>
              cardinalities[s] == if s == DEAD then 0 else U64_MAX
  {
    hide Counts;
    cardinalities := seq(|t.accepting|, _ => U64_MAX)[DEAD := 0];
    for k := 0 to |order|
      invariant CountedSoFar(t, cardinalities, order, k)
      invariant forall s: nat :: s < |t.accepting| && s !in order[..k] ==>
                  cardinalities[s] == if s == DEAD then 0 else U64_MAX
    {
      var state := order[k];
      EarlierTargets(t, order, k);
      var count := CountState(t, state, cardinalities);
      assert order[..k + 1] == order[..k] + [state];
      cardinalities := cardinalities[state := count];
    }
    assert order[..|order|] == order;
  }

  /** Every state's entry is min(number of words accepted from it, u64::MAX). */
  method ResidualCardinalities(t: Table) returns (cardinalities: seq<nat>)
    requires t.WellFormed() && t.Trimmed()
    ensures |cardinalities| == |t.accepting|
    ensures forall s :: 0 <= s < |t.accepting| ==> Counts(t.From(s), cardinalities[s])
  {
    TargetRowsBelow(t);
    var order := TopologicalPass(TargetRows(t));
    cardinalities := CountInOrder(t, order);
    assert order[..|order|] == order;
    forall s | 0 <= s < |t.accepting| ensures Counts(t.From(s), cardinalities[s]) {
      if s == DEAD {
        forall w: Word ensures w !in t.From(s) { t.DeadIsSink(w); }
        assert t.From(s) == NOTHING;
        CountsNothing();
        assert s !in order;
      } else if s !in order {
        forall k: nat ensures LongerWord(t.From(s), k) { UnresolvedIsUnbounded(t, order, s, k); }
        UnboundedCounts(t.From(s));
      }
    }
  }
}
