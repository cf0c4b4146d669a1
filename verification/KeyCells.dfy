/** The transition cells of a searched automaton, counted on its keys: what the cell cap of materialization asks of a
    subset construction, whatever order its keys were found in. */
module KeyCells {
  import opened Outcome
  import opened Languages
  import opened Graph
  import opened Discovery
  import Finite
  import Materialize

  ghost predicate LiveKey<K>(next: (K, Byte) -> Option<K>, acc: K -> bool, k: K) {
    exists w :: KeyAccepts(next, acc, k, w)
  }

  /** Where a byte leads from a live key, dead successors left out. */
  ghost function KeyMove<K>(next: (K, Byte) -> Option<K>, acc: K -> bool, k: K, b: Byte): Option<K> {
    if LiveKey(next, acc, k) && next(k, b).Some? && LiveKey(next, acc, next(k, b).value) then next(k, b) else None
  }

  ghost predicate SameMoves<K(!new)>(next: (K, Byte) -> Option<K>, acc: K -> bool, start: K, b: Byte, c: Byte) {
    forall k :: Reached(next, start, k) ==> KeyMove(next, acc, k, b) == KeyMove(next, acc, k, c)
  }

  /** A byte that moves the reachable keys as no smaller byte does. */
  ghost predicate First<K(!new)>(next: (K, Byte) -> Option<K>, acc: K -> bool, start: K, b: Byte) {
    forall c: Byte :: c < b ==> !SameMoves(next, acc, start, c, b)
  }

  /** One byte for each way in which bytes move the reachable keys. */
  ghost function FirstBytes<K(!new)>(next: (K, Byte) -> Option<K>, acc: K -> bool, start: K, upTo: nat): set<nat>
    requires upTo <= 256
  {
    if upTo == 0 then {}
    else FirstBytes(next, acc, start, upTo - 1) + if First(next, acc, start, upTo - 1) then {upTo - 1} else {}
  }

  /** Distinct reachable keys that accept something. */
  ghost predicate LiveKeys<K>(next: (K, Byte) -> Option<K>, acc: K -> bool, start: K, ks: seq<K>) {
    DistinctReached(next, start, ks) && forall i :: 0 <= i < |ks| ==> LiveKey(next, acc, ks[i])
  }

  ghost predicate OverCells(live: nat, classes: nat) {
    (live + 1) * classes > Materialize.MAX_TRANSITION_CELLS
  }

  /** The live reachable keys and DEAD, times the ways in which bytes move them, exceed the cell cap. */
  ghost predicate TooManyCells<K(!new)>(next: (K, Byte) -> Option<K>, acc: K -> bool, start: K) {
    exists ks: seq<K> :: LiveKeys(next, acc, start, ks) && OverCells(|ks|, |FirstBytes(next, acc, start, 256)|)
  }

  // --- a finished table has these cells ---------------------------------------------------------------------------

  lemma LiveIsLive<K>(states: seq<ByteState>, keys: seq<K>, next: (K, Byte) -> Option<K>, acc: K -> bool, i: nat)
    requires TableDone(states, keys, next, acc) && |states| == |keys| && i < |keys|
    ensures Materialize.AcceptsSomething(states, i) <==> LiveKey(next, acc, keys[i])
  {
    hide TableDone, Accepts, KeyAccepts;
    if w :| Accepts(states, i, w) { TableAccepts(states, keys, next, acc, i, w); }
    if w :| KeyAccepts(next, acc, keys[i], w) { TableAccepts(states, keys, next, acc, i, w); }
  }

  ghost function KeyOf<K>(keys: seq<K>, t: Option<nat>): Option<K> {
    if t.Some? && t.value < |keys| then Some(keys[t.value]) else None
  }

  lemma MoveIsMove<K>(states: seq<ByteState>, keys: seq<K>, next: (K, Byte) -> Option<K>, acc: K -> bool, i: nat, b: Byte)
    requires TableDone(states, keys, next, acc) && |states| == |keys| && i < |keys|
    ensures KeyOf(keys, Materialize.LiveMove(states, i, b)) == KeyMove(next, acc, keys[i], b)
    ensures Materialize.LiveMove(states, i, b).Some? ==> Materialize.LiveMove(states, i, b).value < |keys|
  {
    assert StateDone(states[i], keys, next, acc, keys[i]);
    assert EdgeFollows(states[i].edges, keys, next, keys[i], b);
    hide StateDone, TableDone, LiveKey, Materialize.AcceptsSomething;
    LiveIsLive(states, keys, next, acc, i);
    var t := Lookup(states[i].edges, b);
    if t.Some? { LiveIsLive(states, keys, next, acc, t.value); }
  }

  lemma SameId<K>(keys: seq<K>, s: Option<nat>, t: Option<nat>)
    requires Finite.Distinct(keys) && KeyOf(keys, s) == KeyOf(keys, t)
    requires (s.Some? ==> s.value < |keys|) && (t.Some? ==> t.value < |keys|)
    ensures s == t
  {}

  lemma CompleteKeys<K>(states: seq<ByteState>, keys: seq<K>, next: (K, Byte) -> Option<K>, acc: K -> bool, start: K, k: K)
    requires Complete(states, keys, next, acc, start) && Reached(next, start, k)
    ensures k in keys
  {
    hide LeadsTo, StateDone;
    var w :| LeadsTo(next, start, w, k);
    LeadsInside(states, keys, next, acc, 0, w, k);
  }

  /** Columns of the table agree exactly when the bytes move all reachable keys alike. */
  lemma ColumnIsMoves<K(!new)>(states: seq<ByteState>, keys: seq<K>, next: (K, Byte) -> Option<K>, acc: K -> bool, start: K,
                               b: Byte, c: Byte)
    requires Complete(states, keys, next, acc, start)
    ensures Materialize.LiveColumn(states, b) == Materialize.LiveColumn(states, c) <==> SameMoves(next, acc, start, b, c)
  {
    hide TableDone, Reached, KeyMove, Materialize.LiveMove;
    if Materialize.LiveColumn(states, b) == Materialize.LiveColumn(states, c) {
      forall k | Reached(next, start, k) ensures KeyMove(next, acc, k, b) == KeyMove(next, acc, k, c) {
        CompleteKeys(states, keys, next, acc, start, k);
        var i :| 0 <= i < |keys| && keys[i] == k;
        MoveIsMove(states, keys, next, acc, i, b);
        MoveIsMove(states, keys, next, acc, i, c);
        assert Materialize.LiveColumn(states, b)[i] == Materialize.LiveColumn(states, c)[i];
      }
    }
    if SameMoves(next, acc, start, b, c) {
      forall i | 0 <= i < |states| ensures Materialize.LiveMove(states, i, b) == Materialize.LiveMove(states, i, c) {
        assert Reached(next, start, keys[i]);
        MoveIsMove(states, keys, next, acc, i, b);
        MoveIsMove(states, keys, next, acc, i, c);
        SameId(keys, Materialize.LiveMove(states, i, b), Materialize.LiveMove(states, i, c));
      }
    }
  }

  /** A column is new to the image exactly when its byte is a first one. */
  lemma NewColumn<K(!new)>(states: seq<ByteState>, keys: seq<K>, next: (K, Byte) -> Option<K>, acc: K -> bool, start: K,
                           b: Byte)
    requires Complete(states, keys, next, acc, start)
    ensures Materialize.LiveColumn(states, b) in Materialize.Image(states, b) <==> !First(next, acc, start, b)
  {
    hide Complete, SameMoves, Materialize.LiveColumn;
    Materialize.ImageSize(states, b);
    var column := Materialize.LiveColumn(states, b);
    if First(next, acc, start, b) {
      forall c: Byte | c < b ensures Materialize.LiveColumn(states, c) != column {
        ColumnIsMoves(states, keys, next, acc, start, c, b);
      }
    } else {
      var c: Byte :| c < b && SameMoves(next, acc, start, c, b);
      ColumnIsMoves(states, keys, next, acc, start, c, b);
    }
  }

  lemma OneMore<T>(s: set<T>, x: T)
    ensures |s + {x}| == if x in s then |s| else |s| + 1
  {
    if x in s { assert s + {x} == s; }
  }

  lemma ImageStep(states: seq<ByteState>, b: Byte)
    ensures Materialize.Image(states, b + 1) == Materialize.Image(states, b) + {Materialize.LiveColumn(states, b)}
  {
    hide Materialize.LiveColumn;
  }

  lemma FirstStep<K(!new)>(next: (K, Byte) -> Option<K>, acc: K -> bool, start: K, b: Byte)
    ensures FirstBytes(next, acc, start, b + 1) ==
            if First(next, acc, start, b) then FirstBytes(next, acc, start, b) + {b as nat} else FirstBytes(next, acc, start, b)
  {
    hide First;
  }

  lemma {:induction false} FirstsBelow<K(!new)>(next: (K, Byte) -> Option<K>, acc: K -> bool, start: K, upTo: nat)
    requires upTo <= 256
    ensures forall x :: x in FirstBytes(next, acc, start, upTo) ==> x < upTo
  {
    hide First;
    if upTo > 0 { FirstsBelow(next, acc, start, upTo - 1); }
  }

  lemma {:induction false} ImageIsFirst<K(!new)>(states: seq<ByteState>, keys: seq<K>, next: (K, Byte) -> Option<K>,
                                                 acc: K -> bool, start: K, upTo: nat)
    requires Complete(states, keys, next, acc, start) && upTo <= 256
    ensures |Materialize.Image(states, upTo)| == |FirstBytes(next, acc, start, upTo)|
  {
    if upTo > 0 {
      hide Complete, First, Materialize.LiveColumn, FirstBytes, Materialize.Image;
      var b: Byte := upTo - 1;
      ImageIsFirst(states, keys, next, acc, start, b);
      NewColumn(states, keys, next, acc, start, b);
      ImageStep(states, b);
      FirstStep(next, acc, start, b);
      FirstsBelow(next, acc, start, b);
      OneMore(Materialize.Image(states, b), Materialize.LiveColumn(states, b));
      OneMore(FirstBytes(next, acc, start, b), b as nat);
    }
  }

  ghost function Pick<K>(keys: seq<K>, ids: seq<nat>): (ks: seq<K>)
    requires forall j :: 0 <= j < |ids| ==> ids[j] < |keys|
    ensures |ks| == |ids|
  {
    seq(|ids|, j requires 0 <= j < |ids| => keys[ids[j]])
  }

  /** The live keys are as many as the live rows. */
  lemma LiveCount<K(!new)>(states: seq<ByteState>, keys: seq<K>, next: (K, Byte) -> Option<K>, acc: K -> bool, start: K)
    returns (list: seq<K>)
    requires Complete(states, keys, next, acc, start)
    ensures LiveKeys(next, acc, start, list) && |list| == |Materialize.LiveSet(states)|
    ensures forall ks: seq<K> :: LiveKeys(next, acc, start, ks) ==> |ks| <= |list|
  {
    hide TableDone, Reached, LiveKey, Materialize.AcceptsSomething;
    var ids := Finite.Listing(Materialize.LiveSet(states));
    forall j | 0 <= j < |ids| ensures ids[j] < |keys| { assert ids[j] in ids; }
    list := Pick(keys, ids);
    forall j | 0 <= j < |list| ensures Reached(next, start, list[j]) && LiveKey(next, acc, list[j]) {
      assert ids[j] in ids;
      LiveIsLive(states, keys, next, acc, ids[j]);
    }
    forall ks: seq<K> | LiveKeys(next, acc, start, ks) ensures |ks| <= |list| {
      forall i | 0 <= i < |ks| ensures ks[i] in list {
        CompleteKeys(states, keys, next, acc, start, ks[i]);
        var q: nat :| q < |keys| && keys[q] == ks[i];
        LiveIsLive(states, keys, next, acc, q);
        assert q in ids;
        var j :| 0 <= j < |ids| && ids[j] == q;
        assert list[j] == ks[i];
      }
      Finite.DistinctWithin(ks, list);
    }
  }

  lemma OverCellsGrows(live: nat, more: nat, classes: nat)
    requires OverCells(live, classes) && live <= more
    ensures OverCells(more, classes)
  {
    assert (live + 1) * classes <= (more + 1) * classes;
  }

  /** A finished table exceeds the cell cap exactly when its keys do. */
  lemma CellsAreKeyCells<K(!new)>(states: seq<ByteState>, keys: seq<K>, next: (K, Byte) -> Option<K>, acc: K -> bool, start: K)
    requires Complete(states, keys, next, acc, start)
    ensures TooManyCells(next, acc, start) <==> Materialize.Cells(states) > Materialize.MAX_TRANSITION_CELLS
  {
    hide Complete, LiveKeys, FirstBytes, Materialize.LiveColumn, Materialize.LiveSet, OverCells, Materialize.Image;
    ImageIsFirst(states, keys, next, acc, start, 256);
    Materialize.ImageIsAll(states);
    var list := LiveCount(states, keys, next, acc, start);
    var classes := |FirstBytes(next, acc, start, 256)|;
    OverIsCells(states, classes);
    if ks: seq<K> :| LiveKeys(next, acc, start, ks) && OverCells(|ks|, classes) {
      OverCellsGrows(|ks|, |list|, classes);
    }
  }

  lemma OverIsCells(states: seq<ByteState>, classes: nat)
    requires classes == |Materialize.ByteClasses(states)|
    ensures OverCells(|Materialize.LiveSet(states)|, classes) <==>
            Materialize.Cells(states) > Materialize.MAX_TRANSITION_CELLS
  {}
}
