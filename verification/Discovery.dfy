/** Interning of discovered keys: the bookkeeping shared by the subset, product and shuffle
    constructions (intern, intern_tuple, intern_subset). */
module Discovery {
  import opened Outcome
  import opened Languages
  import opened Graph
  import Finite

  /** Ids are positions: `indexOf` inverts `keys`. */
  ghost predicate Interned<K>(keys: seq<K>, indexOf: map<K, nat>) {
    && (forall k :: k in indexOf ==> indexOf[k] < |keys| && keys[indexOf[k]] == k)
    && (forall i :: 0 <= i < |keys| ==> keys[i] in indexOf && indexOf[keys[i]] == i)
  }

  /** The consecutive ids `lo..hi`, as they wait in the queue. */
  function Range(lo: nat, hi: nat): (r: seq<nat>)
    ensures |r| == if lo <= hi then hi - lo else 0
  {
    if lo >= hi then [] else Range(lo, hi - 1) + [hi - 1]
  }

  lemma {:induction false} RangeHead(lo: nat, hi: nat)
    requires lo < hi
    ensures Range(lo, hi) == [lo] + Range(lo + 1, hi)
  {
    if lo + 1 < hi { RangeHead(lo, hi - 1); }
  }

  lemma InternedDistinct<K>(keys: seq<K>, indexOf: map<K, nat>)
    requires Interned(keys, indexOf)
    ensures Finite.Distinct(keys)
  {}

  /** The tables a discovery loop updates: the keys by id, their inverse, and the ids not yet expanded. */
  datatype Search<K> = Search(order: seq<K>, indexOf: map<K, nat>, queue: seq<nat>)

  /** Looks a key up, or gives it the next id and queues it. The row being expanded may be taken out of
      `order` meanwhile: only the length of `order` matters here. */
  method Intern<K(==)>(key: K, s: Search<K>, ghost keys: seq<K>)
    returns (id: nat, s': Search<K>, ghost keys': seq<K>)
    requires |s.order| == |keys| && Interned(keys, s.indexOf)
    ensures id == if key in s.indexOf then s.indexOf[key] else |s.order|
    ensures s'.indexOf == s.indexOf[key := id]
    ensures Interned(keys', s'.indexOf) && id < |keys'| && keys'[id] == key
    ensures keys' == if key in s.indexOf then keys else keys + [key]
    ensures s'.order == s.order + keys'[|keys|..]
    ensures s'.queue == s.queue + Range(|keys|, |keys'|)
  {
    if key in s.indexOf { return s.indexOf[key], s, keys; }
    id := |s.order|;
    s' := Search(s.order + [key], s.indexOf[key := id], s.queue + [id]);
    keys' := keys + [key];
    assert Range(id, id + 1) == Range(id, id) + [id];
  }

  // --- deterministic key automata -----------------------------------------------------------------

  /** Acceptance of a key automaton given by its successor function. */
  ghost predicate KeyAccepts<K>(next: (K, Byte) -> Option<K>, acc: K -> bool, k: K, w: Word)
    decreases |w|
  {
    if w == [] then acc(k)
    else match next(k, w[0])
      case None => false
      case Some(k') => KeyAccepts(next, acc, k', w[1..])
  }

  ghost predicate LeadsTo<K>(next: (K, Byte) -> Option<K>, from: K, w: Word, to: K)
    decreases |w|
  {
    if w == [] then from == to
    else match next(from, w[0])
      case None => false
      case Some(k) => LeadsTo(next, k, w[1..], to)
  }

  ghost predicate Reached<K>(next: (K, Byte) -> Option<K>, start: K, k: K) {
    exists w :: LeadsTo(next, start, w, k)
  }

  lemma {:induction false} LeadsOn<K>(next: (K, Byte) -> Option<K>, from: K, w: Word, k: K, b: Byte)
    requires LeadsTo(next, from, w, k) && next(k, b).Some?
    ensures LeadsTo(next, from, w + [b], next(k, b).value)
    decreases |w|
  {
    if w == [] {
      assert (w + [b])[1..] == [];
    } else {
      assert (w + [b])[1..] == w[1..] + [b];
      LeadsOn(next, next(from, w[0]).value, w[1..], k, b);
    }
  }

  lemma ReachedStep<K>(next: (K, Byte) -> Option<K>, start: K, k: K, b: Byte)
    requires Reached(next, start, k) && next(k, b).Some?
    ensures Reached(next, start, next(k, b).value)
  {
    var w :| LeadsTo(next, start, w, k);
    LeadsOn(next, start, w, k, b);
  }

  ghost function OutBelow<K>(next: (K, Byte) -> Option<K>, k: K, upTo: nat): nat
    requires upTo <= 256
  {
    if upTo == 0 then 0
    else OutBelow(next, k, upTo - 1) + if next(k, upTo - 1).Some? then 1 else 0
  }

  /** The number of edges leaving a list of keys. */
  ghost function OutDegree<K>(next: (K, Byte) -> Option<K>, ks: seq<K>): nat {
    if ks == [] then 0
    else OutDegree(next, ks[..|ks| - 1]) + OutBelow(next, ks[|ks| - 1], 256)
  }

  ghost predicate DistinctReached<K>(next: (K, Byte) -> Option<K>, start: K, ks: seq<K>) {
    Finite.Distinct(ks) && forall i :: 0 <= i < |ks| ==> Reached(next, start, ks[i])
  }

  ghost predicate ExceedsCaps<K>(next: (K, Byte) -> Option<K>, start: K, ks: seq<K>, maxStates: nat, maxEdges: nat) {
    DistinctReached(next, start, ks) && (|ks| > maxStates || OutDegree(next, ks) > maxEdges)
  }

  /** The reachable part of a key automaton has more states or more edges than the caps allow. */
  ghost predicate Oversized<K(!new)>(next: (K, Byte) -> Option<K>, start: K, maxStates: nat, maxEdges: nat) {
    exists ks: seq<K> :: ExceedsCaps(next, start, ks, maxStates, maxEdges)
  }

  // --- rows labelled by keys ------------------------------------------------------------------------

  /** One row of a table, expanded for the bytes below `upTo`: an edge exactly where the key has a
      successor, leading to the successor's id. */
  ghost predicate RowDone<K>(edges: seq<(Byte, nat)>, keys: seq<K>, next: (K, Byte) -> Option<K>, k: K, upTo: nat)
    requires upTo <= 256
  {
    && Deterministic(edges) && |edges| == OutBelow(next, k, upTo)
    && (forall i :: 0 <= i < |edges| ==> edges[i].0 < upTo)
    && RowFollows(edges, keys, next, k, upTo)
  }

  ghost predicate RowFollows<K>(edges: seq<(Byte, nat)>, keys: seq<K>, next: (K, Byte) -> Option<K>, k: K, upTo: nat) {
    forall b: Byte :: b < upTo ==> EdgeFollows(edges, keys, next, k, b)
  }

  ghost predicate EdgeFollows<K>(edges: seq<(Byte, nat)>, keys: seq<K>, next: (K, Byte) -> Option<K>, k: K, b: Byte) {
    match Lookup(edges, b)
    case None => next(k, b).None?
    case Some(t) => t < |keys| && next(k, b) == Some(keys[t])
  }

  lemma RowGrows<K>(edges: seq<(Byte, nat)>, keys: seq<K>, keys': seq<K>, next: (K, Byte) -> Option<K>, k: K, upTo: nat)
    requires upTo <= 256 && RowDone(edges, keys, next, k, upTo) && keys <= keys'
    ensures RowDone(edges, keys', next, k, upTo)
  {
    forall b: Byte | b < upTo ensures EdgeFollows(edges, keys', next, k, b) {
      assert EdgeFollows(edges, keys, next, k, b);
    }
  }

  lemma RowSkip<K>(edges: seq<(Byte, nat)>, keys: seq<K>, next: (K, Byte) -> Option<K>, k: K, b: Byte)
    requires RowDone(edges, keys, next, k, b) && next(k, b).None?
    ensures RowDone(edges, keys, next, k, b + 1)
  {
    LookupIsEdge(edges, b);
    assert EdgeFollows(edges, keys, next, k, b);
  }

  lemma RowPush<K>(edges: seq<(Byte, nat)>, keys: seq<K>, next: (K, Byte) -> Option<K>, k: K, b: Byte, target: nat)
    requires RowDone(edges, keys, next, k, b)
    requires target < |keys| && next(k, b) == Some(keys[target])
    ensures RowDone(edges + [(b, target)], keys, next, k, b + 1)
  {
    var edges' := edges + [(b, target)];
    LookupIsEdge(edges, b);
    forall x: Byte | x < b + 1 ensures EdgeFollows(edges', keys, next, k, x) {
      LookupAppend(edges, (b, target), x);
      if x < b { assert EdgeFollows(edges, keys, next, k, x); }
    }
  }

  /** The finished rows of a table carry its keys' acceptance and successors. */
  ghost predicate TableDone<K>(states: seq<ByteState>, keys: seq<K>, next: (K, Byte) -> Option<K>, acc: K -> bool) {
    |states| <= |keys| && forall i :: 0 <= i < |states| ==> StateDone(states[i], keys, next, acc, keys[i])
  }

  ghost predicate StateDone<K>(s: ByteState, keys: seq<K>, next: (K, Byte) -> Option<K>, acc: K -> bool, k: K) {
    s.accepting == acc(k) && RowDone(s.edges, keys, next, k, 256)
  }

  lemma TableGrows<K>(states: seq<ByteState>, keys: seq<K>, keys': seq<K>, next: (K, Byte) -> Option<K>, acc: K -> bool)
    requires TableDone(states, keys, next, acc) && keys <= keys'
    ensures TableDone(states, keys', next, acc)
  {
    forall i | 0 <= i < |states| ensures StateDone(states[i], keys', next, acc, keys'[i]) {
      assert StateDone(states[i], keys, next, acc, keys[i]);
      RowGrows(states[i].edges, keys, keys', next, keys[i], 256);
    }
  }

  /** A complete table accepts from id `i` what the automaton accepts from key `i`. */
  lemma {:induction false} TableAccepts<K>(states: seq<ByteState>, keys: seq<K>, next: (K, Byte) -> Option<K>,
                                           acc: K -> bool, i: nat, w: Word)
    requires TableDone(states, keys, next, acc) && |states| == |keys| && i < |keys|
    ensures Accepts(states, i, w) <==> KeyAccepts(next, acc, keys[i], w)
    decreases |w|
  {
    assert StateDone(states[i], keys, next, acc, keys[i]);
    if w != [] {
      assert EdgeFollows(states[i].edges, keys, next, keys[i], w[0]);
      match Lookup(states[i].edges, w[0]) {
        case None =>
        case Some(t) => TableAccepts(states, keys, next, acc, t, w[1..]);
      }
    }
  }

  lemma TableRowsOk<K>(states: seq<ByteState>, keys: seq<K>, next: (K, Byte) -> Option<K>, acc: K -> bool)
    requires TableDone(states, keys, next, acc) && |states| == |keys|
    ensures RowsOk(states, |states|)
  {
    forall q | 0 <= q < |states| ensures RowOk(states[q].edges, |states|) {
      assert StateDone(states[q], keys, next, acc, keys[q]);
      forall i | 0 <= i < |states[q].edges| ensures states[q].edges[i].1 < |states| {
        LookupUnique(states[q].edges, i);
        assert EdgeFollows(states[q].edges, keys, next, keys[q], states[q].edges[i].0);
      }
    }
  }

  lemma TablePrefix<K>(states: seq<ByteState>, keys: seq<K>, next: (K, Byte) -> Option<K>, acc: K -> bool, n: nat)
    requires TableDone(states, keys, next, acc) && n <= |states|
    ensures TableDone(states[..n], keys, next, acc)
  {
    hide StateDone;
    forall i | 0 <= i < n ensures StateDone(states[..n][i], keys, next, acc, keys[i]) {
      assert StateDone(states[i], keys, next, acc, keys[i]);
    }
  }

  lemma RowSize<K>(s: ByteState, keys: seq<K>, next: (K, Byte) -> Option<K>, acc: K -> bool, k: K)
    requires StateDone(s, keys, next, acc, k)
    ensures |RowEdges(s.edges)| == OutBelow(next, k, 256)
  {}

  lemma LastRowSize<K>(states: seq<ByteState>, keys: seq<K>, next: (K, Byte) -> Option<K>, acc: K -> bool)
    requires TableDone(states, keys, next, acc) && states != []
    ensures |states| <= |keys|
    ensures |RowEdges(states[|states| - 1].edges)| == OutBelow(next, keys[|states| - 1], 256)
  {
    RowSize(states[|states| - 1], keys, next, acc, keys[|states| - 1]);
  }

  lemma {:induction false} TableEdgeCount<K>(states: seq<ByteState>, keys: seq<K>, next: (K, Byte) -> Option<K>, acc: K -> bool)
    requires TableDone(states, keys, next, acc)
    ensures |FlatEdges(states)| == OutDegree(next, keys[..|states|])
    decreases |states|
  {
    hide StateDone, RowEdges, TableDone, OutBelow;
    if states != [] {
      var n := |states| - 1;
      LastRowSize(states, keys, next, acc);
      TablePrefix(states, keys, next, acc, n);
      TableEdgeCount(states[..n], keys, next, acc);
      assert keys[..n + 1][..n] == keys[..n];
    }
  }

  lemma OutDegreeStep<K>(next: (K, Byte) -> Option<K>, ks: seq<K>, i: nat)
    requires i < |ks|
    ensures OutDegree(next, ks[..i + 1]) == OutDegree(next, ks[..i]) + OutBelow(next, ks[i], 256)
  {
    assert ks[..i + 1][..i] == ks[..i];
  }

  lemma {:induction false} OutBelowBound<K>(next: (K, Byte) -> Option<K>, k: K, upTo: nat)
    requires upTo <= 256
    ensures OutBelow(next, k, upTo) <= upTo
  {
    if upTo > 0 { OutBelowBound(next, k, upTo - 1); }
  }

  lemma {:induction false} OutBelowMonotone<K>(next: (K, Byte) -> Option<K>, k: K, lo: nat, hi: nat)
    requires lo <= hi <= 256
    ensures OutBelow(next, k, lo) <= OutBelow(next, k, hi)
    decreases hi - lo
  {
    if lo < hi { OutBelowMonotone(next, k, lo, hi - 1); }
  }

  /** A key has at most one edge for each byte. */
  lemma {:induction false} OutDegreeBound<K>(next: (K, Byte) -> Option<K>, ks: seq<K>)
    ensures OutDegree(next, ks) <= 256 * |ks|
  {
    if ks != [] {
      OutDegreeBound(next, ks[..|ks| - 1]);
      OutBelowBound(next, ks[|ks| - 1], 256);
    }
  }

  // --- the state of a discovery loop ------------------------------------------------------------------

  /** Ids are handed out in discovery order and expanded in the same order, so the next row to be
      pushed is the one at the head of the queue. */
  ghost predicate LoopState<K>(keys: seq<K>, indexOf: map<K, nat>, queue: seq<nat>, processed: nat,
                               next: (K, Byte) -> Option<K>, start: K)
  {
    && Interned(keys, indexOf) && |keys| > 0 && keys[0] == start
    && processed <= |keys| && queue == Range(processed, |keys|)
    && DistinctReached(next, start, keys)
  }

  /** While row `index` is expanded its key is taken out of `order`. */
  ghost predicate RowState<K>(s: Search<K>, keys: seq<K>, index: nat, next: (K, Byte) -> Option<K>, start: K) {
    && index < |keys| == |s.order|
    && (forall j :: 0 <= j < |keys| && j != index ==> s.order[j] == keys[j])
    && LoopState(keys, s.indexOf, s.queue, index + 1, next, start)
  }

  /** The loop invariant: rows `0..|states|` are finished, `total` counts their edges. */
  ghost predicate Searching<K>(s: Search<K>, keys: seq<K>, states: seq<ByteState>, total: nat,
                               next: (K, Byte) -> Option<K>, acc: K -> bool, start: K)
  {
    && s.order == keys && |states| <= |keys|
    && LoopState(keys, s.indexOf, s.queue, |states|, next, start)
    && TableDone(states, keys, next, acc)
    && total == OutDegree(next, keys[..|states|])
  }

  lemma StartSearch<K>(key: K, next: (K, Byte) -> Option<K>, acc: K -> bool)
    ensures Searching(Search([key], map[key := 0], [0]), [key], [], 0, next, acc, key)
  {
    assert LeadsTo(next, key, [], key);
    assert Range(0, 1) == Range(0, 0) + [0];
  }

  /** Opening the next row: its id is its position, and its key leaves the table. */
  lemma OpenRow<K>(s: Search<K>, keys: seq<K>, states: seq<ByteState>, total: nat,
                   next: (K, Byte) -> Option<K>, acc: K -> bool, start: K, hole: K)
    requires Searching(s, keys, states, total, next, acc, start) && s.queue != []
    ensures s.queue[0] == |states| < |keys| == |s.order| && s.order[|states|] == keys[|states|]
    ensures Reached(next, start, keys[|states|])
    ensures RowState(Search(s.order[|states| := hole], s.indexOf, s.queue[1..]), keys, |states|, next, start)
    ensures TableDone(states, keys, next, acc) && total == OutDegree(next, keys[..|states|])
  {
    RangeHead(|states|, |keys|);
  }

  lemma TablePush<K>(states: seq<ByteState>, row: ByteState, keys: seq<K>, next: (K, Byte) -> Option<K>, acc: K -> bool)
    requires TableDone(states, keys, next, acc) && |states| < |keys|
    requires StateDone(row, keys, next, acc, keys[|states|])
    ensures TableDone(states + [row], keys, next, acc)
  {
    hide StateDone;
    forall i | 0 <= i < |states + [row]| ensures StateDone((states + [row])[i], keys, next, acc, keys[i]) {
      if i < |states| { assert StateDone(states[i], keys, next, acc, keys[i]); }
    }
  }

  lemma ExpandedSize<K>(s: Search<K>, keys: seq<K>, index: nat, edges: seq<(Byte, nat)>, total: nat,
                        next: (K, Byte) -> Option<K>, start: K)
    requires Expanding(s, keys, index, edges, total, 256, next, start)
    ensures index < |keys| && total == OutDegree(next, keys[..index]) + OutBelow(next, keys[index], 256)
  {}

  /** Putting the key back and pushing its row. */
  lemma CloseRow<K>(s: Search<K>, keys: seq<K>, keys0: seq<K>, states: seq<ByteState>, edges: seq<(Byte, nat)>,
                    accepting: bool, total: nat, next: (K, Byte) -> Option<K>, acc: K -> bool, start: K)
    requires |states| < |keys0| && keys0 <= keys && TableDone(states, keys0, next, acc)
    requires Expanding(s, keys, |states|, edges, total, 256, next, start)
    requires accepting == acc(keys[|states|])
    ensures |states| < |s.order|
    ensures Searching(s.(order := s.order[|states| := keys[|states|]]), keys, states + [ByteState(accepting, edges)],
                      total, next, acc, start)
  {
    hide Interned, DistinctReached, TableDone, OutDegree, OutBelow, Range;
    TableGrows(states, keys0, keys, next, acc);
    TablePush(states, ByteState(accepting, edges), keys, next, acc);
    OutDegreeStep(next, keys, |states|);
    ExpandedSize(s, keys, |states|, edges, total, next, start);
  }

  /** When the queue is empty every discovered key has its row. */
  lemma SearchDone<K>(s: Search<K>, keys: seq<K>, states: seq<ByteState>, total: nat,
                      next: (K, Byte) -> Option<K>, acc: K -> bool, start: K)
    requires Searching(s, keys, states, total, next, acc, start) && s.queue == []
    ensures Complete(states, keys, next, acc, start) && |FlatEdges(states)| == total
  {
    TableEdgeCount(states, keys, next, acc);
    assert keys[..|states|] == keys;
  }

  /** The finished table: one row per reachable key, the start first. */
  ghost predicate Complete<K>(states: seq<ByteState>, keys: seq<K>, next: (K, Byte) -> Option<K>, acc: K -> bool, start: K) {
    && |states| == |keys| > 0 && keys[0] == start
    && TableDone(states, keys, next, acc)
    && DistinctReached(next, start, keys)
  }

  lemma CompleteSize<K>(states: seq<ByteState>, keys: seq<K>, next: (K, Byte) -> Option<K>, acc: K -> bool, start: K)
    requires Complete(states, keys, next, acc, start)
    ensures |states| == |keys|
  {}

  /** A finished table is a deterministic graph for the language of the start key. */
  lemma CompleteAccepts<K>(states: seq<ByteState>, keys: seq<K>, next: (K, Byte) -> Option<K>, acc: K -> bool, start: K, w: Word)
    requires Complete(states, keys, next, acc, start)
    ensures RowsOk(states, |states|)
    ensures Accepts(states, 0, w) <==> KeyAccepts(next, acc, start, w)
  {
    TableRowsOk(states, keys, next, acc);
    TableAccepts(states, keys, next, acc, 0, w);
  }

  // --- a finished search fits its caps --------------------------------------------------------------

  /** A finished table has every reachable key. */
  lemma {:induction false} LeadsInside<K>(states: seq<ByteState>, keys: seq<K>, next: (K, Byte) -> Option<K>, acc: K -> bool,
                                          i: nat, w: Word, k: K)
    requires TableDone(states, keys, next, acc) && |states| == |keys| && i < |keys| && LeadsTo(next, keys[i], w, k)
    ensures k in keys
    decreases |w|
  {
    if w != [] {
      assert StateDone(states[i], keys, next, acc, keys[i]);
      assert EdgeFollows(states[i].edges, keys, next, keys[i], w[0]);
      LeadsInside(states, keys, next, acc, Lookup(states[i].edges, w[0]).value, w[1..], k);
    }
  }

  lemma {:induction false} OutDegreeDrop<K>(next: (K, Byte) -> Option<K>, ks: seq<K>, i: nat)
    requires i < |ks|
    ensures OutDegree(next, ks) == OutDegree(next, ks[..i] + ks[i + 1..]) + OutBelow(next, ks[i], 256)
  {
    hide OutBelow;
    var n := |ks| - 1;
    if i == n {
      assert ks[..i] + ks[i + 1..] == ks[..n];
    } else {
      var front, rest := ks[..n], ks[..i] + ks[i + 1..];
      OutDegreeDrop(next, front, i);
      assert rest[..n - 1] == front[..i] + front[i + 1..] && rest[n - 1] == ks[n];
    }
  }

  /** Distinct keys taken from a list are no more, and have no more edges, than the list. */
  lemma {:induction false} OutDegreeWithin<K>(next: (K, Byte) -> Option<K>, ks: seq<K>, all: seq<K>)
    requires Finite.Distinct(ks) && forall i :: 0 <= i < |ks| ==> ks[i] in all
    ensures |ks| <= |all| && OutDegree(next, ks) <= OutDegree(next, all)
    decreases |ks|
  {
    hide OutBelow;
    if ks != [] {
      var n := |ks| - 1;
      var i :| 0 <= i < |all| && all[i] == ks[n];
      var rest := all[..i] + all[i + 1..];
      forall j | 0 <= j < n ensures ks[..n][j] in rest {
        var x :| 0 <= x < |all| && all[x] == ks[j];
        assert ks[j] != ks[n];
        if x < i { assert rest[x] == ks[j]; } else { assert rest[x - 1] == ks[j]; }
      }
      OutDegreeWithin(next, ks[..n], rest);
      OutDegreeDrop(next, all, i);
    }
  }

  /** So a search that finished under its caps was never oversized. */
  lemma CompleteNotOversized<K(!new)>(states: seq<ByteState>, keys: seq<K>, next: (K, Byte) -> Option<K>, acc: K -> bool,
                                      start: K, maxStates: nat, maxEdges: nat)
    requires Complete(states, keys, next, acc, start)
    requires |states| <= maxStates && |FlatEdges(states)| <= maxEdges
    ensures !Oversized(next, start, maxStates, maxEdges)
  {
    hide OutDegree, TableDone, LeadsTo;
    TableEdgeCount(states, keys, next, acc);
    assert keys[..|states|] == keys;
    forall ks: seq<K> ensures !ExceedsCaps(next, start, ks, maxStates, maxEdges) {
      if DistinctReached(next, start, ks) {
        forall i | 0 <= i < |ks| ensures ks[i] in keys {
          var w :| LeadsTo(next, start, w, ks[i]);
          LeadsInside(states, keys, next, acc, 0, w, ks[i]);
        }
        OutDegreeWithin(next, ks, keys);
      }
    }
  }

  lemma RangeGrows(lo: nat, mid: nat, hi: nat)
    requires lo <= mid <= hi
    ensures Range(lo, hi) == Range(lo, mid) + Range(mid, hi)
    decreases hi - mid
  {
    if mid < hi { RangeGrows(lo, mid, hi - 1); }
  }

  /** Interning a successor of the expanded key keeps the row state. */
  lemma InternStep<K>(s: Search<K>, keys: seq<K>, s': Search<K>, keys': seq<K>, index: nat,
                      next: (K, Byte) -> Option<K>, start: K, b: Byte, key: K)
    requires RowState(s, keys, index, next, start) && next(keys[index], b) == Some(key)
    requires keys' == keys || keys' == keys + [key]
    requires Interned(keys', s'.indexOf)
    requires s'.order == s.order + keys'[|keys|..] && s'.queue == s.queue + Range(|keys|, |keys'|)
    ensures RowState(s', keys', index, next, start)
  {
    assert Reached(next, start, keys[index]);
    ReachedStep(next, start, keys[index], b);
    RangeGrows(index + 1, |keys|, |keys'|);
    InternedDistinct(keys', s'.indexOf);
  }

  /** More keys than the state cap. */
  lemma TooManyStates<K(!new)>(keys: seq<K>, next: (K, Byte) -> Option<K>, start: K, maxStates: nat, maxEdges: nat)
    requires DistinctReached(next, start, keys) && |keys| > maxStates
    ensures Oversized(next, start, maxStates, maxEdges)
  {
    assert ExceedsCaps(next, start, keys, maxStates, maxEdges);
  }

  /** More edges than the edge cap, counted over the finished rows and part of the current one. */
  lemma TooManyEdges<K(!new)>(keys: seq<K>, processed: nat, upTo: nat, next: (K, Byte) -> Option<K>, start: K,
                              maxStates: nat, maxEdges: nat)
    requires DistinctReached(next, start, keys) && processed < |keys| && upTo <= 256
    requires OutDegree(next, keys[..processed]) + OutBelow(next, keys[processed], upTo) > maxEdges
    ensures Oversized(next, start, maxStates, maxEdges)
  {
    hide OutBelow, Reached;
    var ks := keys[..processed + 1];
    assert ks[..processed] == keys[..processed];
    OutBelowMonotone(next, keys[processed], upTo, 256);
    assert DistinctReached(next, start, ks);
    assert ExceedsCaps(next, start, ks, maxStates, maxEdges);
  }

  /** The row under construction, with the running edge total of the whole table. */
  ghost predicate Expanding<K>(s: Search<K>, keys: seq<K>, index: nat, edges: seq<(Byte, nat)>, total: nat, upTo: nat,
                               next: (K, Byte) -> Option<K>, start: K)
    requires upTo <= 256
  {
    && RowState(s, keys, index, next, start)
    && RowDone(edges, keys, next, keys[index], upTo)
    && total == OutDegree(next, keys[..index]) + |edges|
  }

  lemma ExpandingParts<K>(s: Search<K>, keys: seq<K>, index: nat, edges: seq<(Byte, nat)>, total: nat, upTo: nat,
                          next: (K, Byte) -> Option<K>, start: K)
    requires upTo <= 256 && Expanding(s, keys, index, edges, total, upTo, next, start)
    ensures |s.order| == |keys| && Interned(keys, s.indexOf)
  {}

  /** One more edge: the interned target is appended to the row. */
  lemma ExpandEdge<K>(s: Search<K>, keys: seq<K>, s': Search<K>, keys': seq<K>, index: nat, edges: seq<(Byte, nat)>,
                      total: nat, b: Byte, next: (K, Byte) -> Option<K>, start: K, key: K, target: nat)
    requires index < |keys| && Expanding(s, keys, index, edges, total, b, next, start)
    requires next(keys[index], b) == Some(key)
    requires keys' == (if key in s.indexOf then keys else keys + [key])
    requires Interned(keys', s'.indexOf) && target < |keys'| && keys'[target] == key
    requires s'.order == s.order + keys'[|keys|..] && s'.queue == s.queue + Range(|keys|, |keys'|)
    ensures |s'.order| == |keys'| && keys <= keys'
    ensures Expanding(s', keys', index, edges + [(b, target)], total + 1, b + 1, next, start)
  {
    hide Interned, DistinctReached, RowDone;
    InternStep(s, keys, s', keys', index, next, start, b, key);
    RowGrows(edges, keys, keys', next, keys[index], b);
    RowPush(edges, keys', next, keys[index], b, target);
    assert keys'[..index] == keys[..index];
  }

  lemma ExceededStates<K(!new)>(s: Search<K>, keys: seq<K>, index: nat, edges: seq<(Byte, nat)>, total: nat, upTo: nat,
                                next: (K, Byte) -> Option<K>, start: K, maxStates: nat, maxEdges: nat)
    requires upTo <= 256 && Expanding(s, keys, index, edges, total, upTo, next, start) && |keys| > maxStates
    ensures Oversized(next, start, maxStates, maxEdges)
  {
    TooManyStates(keys, next, start, maxStates, maxEdges);
  }

  lemma ExceededEdges<K(!new)>(s: Search<K>, keys: seq<K>, index: nat, edges: seq<(Byte, nat)>, total: nat, upTo: nat,
                               next: (K, Byte) -> Option<K>, start: K, maxStates: nat, maxEdges: nat)
    requires upTo <= 256 && Expanding(s, keys, index, edges, total, upTo, next, start) && total > maxEdges
    ensures Oversized(next, start, maxStates, maxEdges)
  {
    TooManyEdges(keys, index, upTo, next, start, maxStates, maxEdges);
  }

  lemma StartExpanding<K>(s: Search<K>, keys: seq<K>, index: nat, total: nat, next: (K, Byte) -> Option<K>, start: K)
    requires RowState(s, keys, index, next, start) && total == OutDegree(next, keys[..index])
    ensures Expanding(s, keys, index, [], total, 0, next, start)
  {}

  /** The tail of the product's and the shuffle's byte loop: intern the successor, check both caps, push
      the edge. */
  method PushEdge<K(==, !new)>(key: K, byte: Byte, s: Search<K>, edges: seq<(Byte, nat)>, total: nat,
                               maxStates: nat, maxEdges: nat,
                               ghost keys: seq<K>, ghost index: nat, ghost next: (K, Byte) -> Option<K>, ghost start: K)
    returns (ok: bool, s': Search<K>, edges': seq<(Byte, nat)>, total': nat, ghost keys': seq<K>)
    requires index < |keys| && Expanding(s, keys, index, edges, total, byte, next, start)
    requires next(keys[index], byte) == Some(key)
    ensures ok ==> keys <= keys' && Expanding(s', keys', index, edges', total', byte + 1, next, start)
    ensures ok ==> |keys'| <= maxStates && total' <= maxEdges
    ensures !ok ==> Oversized(next, start, maxStates, maxEdges)
  {
    hide *;
    ExpandingParts(s, keys, index, edges, total, byte, next, start);
    var target;
    target, s', keys' := Intern(key, s, keys);
    ExpandEdge(s, keys, s', keys', index, edges, total, byte, next, start, key, target);
    edges', total' := edges + [(byte, target)], total + 1;
    if |s'.order| > maxStates {
      ExceededStates(s', keys', index, edges', total', byte + 1, next, start, maxStates, maxEdges);
      return false, s', edges', total', keys';
    }
    if total' > maxEdges {
      ExceededEdges(s', keys', index, edges', total', byte + 1, next, start, maxStates, maxEdges);
      return false, s', edges', total', keys';
    }
    ok := true;
  }

  /** A new key past the state cap. */
  lemma NewKeyTooMany<K(!new)>(s: Search<K>, keys: seq<K>, index: nat, edges: seq<(Byte, nat)>, total: nat, b: Byte,
                               next: (K, Byte) -> Option<K>, start: K, key: K, maxStates: nat, maxEdges: nat)
    requires index < |keys| && Expanding(s, keys, index, edges, total, b, next, start)
    requires next(keys[index], b) == Some(key) && key !in s.indexOf && |keys| >= maxStates
    ensures Oversized(next, start, maxStates, maxEdges)
  {
    assert Reached(next, start, keys[index]);
    ReachedStep(next, start, keys[index], b);
    TooManyStates(keys + [key], next, start, maxStates, maxEdges);
  }

  lemma ExpandingSkip<K>(s: Search<K>, keys: seq<K>, index: nat, edges: seq<(Byte, nat)>, total: nat, b: Byte,
                         next: (K, Byte) -> Option<K>, start: K)
    requires index < |keys| && Expanding(s, keys, index, edges, total, b, next, start) && next(keys[index], b).None?
    ensures Expanding(s, keys, index, edges, total, b + 1, next, start)
  {
    RowSkip(edges, keys, next, keys[index], b);
  }
}
