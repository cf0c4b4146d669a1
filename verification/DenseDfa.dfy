/** Materializing the regular-expression library's dense DFA (automaton/byte_dfa.rs:724-885). The library's
    automaton is an arbitrary transition function; states are named by their position of discovery. */
module DenseDfa {
  import opened Outcome
  import opened Languages
  import opened Graph
  import opened Engine
  import opened Materialize
  import Cardinality
  import Counting
  import Discovery
  import Finite
  import Reachability

  /** Transitions, dead and quit states, acceptance at the end of input, the anchored start and the byte classes. */
  datatype Dfa = Dfa(next: (nat, Byte) -> nat, dead: nat -> bool, quit: nat -> bool, matches: nat -> bool,
                     start: nat, classOf: Byte -> nat)
  {
    /** The library's own contract: bytes of a class are never told apart, and dead states stay dead. */
    ghost predicate Ok() {
      && (forall q: nat, a: Byte, b: Byte :: classOf(a) == classOf(b) ==> next(q, a) == next(q, b))
      && (forall q: nat :: dead(q) ==> !matches(q) && !quit(q))
      && (forall q: nat, b: Byte :: dead(q) ==> dead(next(q, b)))
    }

    ghost function Walk(q: nat, w: Word): nat
      decreases |w|
    {
      if w == [] then q else Walk(next(q, w[0]), w[1..])
    }

    ghost predicate Accepts(q: nat, w: Word) {
      matches(Walk(q, w))
    }

    ghost function Language(): Lang {
      iset w: Word | Accepts(start, w)
    }

    ghost predicate ReachedBy(q: nat, w: Word) {
      q == Walk(start, w)
    }

    ghost predicate Reached(q: nat) {
      exists w :: ReachedBy(q, w)
    }

    lemma {:induction false} WalkOn(q: nat, w: Word, b: Byte)
      ensures Walk(q, w + [b]) == next(Walk(q, w), b)
      decreases |w|
    {
      if w == [] {
        var one: Word := [b];
        assert one[1..] == [] && w + one == one;
      } else {
        assert (w + [b])[1..] == w[1..] + [b];
        WalkOn(next(q, w[0]), w[1..], b);
      }
    }

    lemma ReachedOn(q: nat, b: Byte)
      requires Reached(q)
      ensures Reached(next(q, b))
    {
      var w :| ReachedBy(q, w);
      WalkOn(start, w, b);
      assert ReachedBy(next(q, b), w + [b]);
    }

    lemma {:induction false} DeadRejects(q: nat, w: Word)
      requires Ok() && dead(q)
      ensures !Accepts(q, w)
      decreases |w|
    {
      if w != [] { DeadRejects(next(q, w[0]), w[1..]); }
    }
  }

  // --- byte classes ---------------------------------------------------------------------------------------------------

  /** Classes numbered by their first byte, which also represents them. */
  ghost predicate ClassesOk(d: Dfa, members: seq<seq<Byte>>, of: seq<nat>, reps: seq<Byte>) {
    && |of| <= 256 && |members| == |reps| && MembersHold(members, of)
    && (forall c :: 0 <= c < |reps| ==> reps[c] < |of| && of[reps[c]] == c)
    && (forall b: Byte :: b < |of| ==> of[b] < |reps| && d.classOf(b) == d.classOf(reps[of[b]]))
  }

  ghost predicate NumbersHold(d: Dfa, reps: seq<Byte>, numbers: map<nat, nat>) {
    && (forall g :: g in numbers ==> numbers[g] < |reps| && d.classOf(reps[numbers[g]]) == g)
    && (forall c :: 0 <= c < |reps| ==> d.classOf(reps[c]) in numbers && numbers[d.classOf(reps[c])] == c)
  }

  lemma ClassOld(d: Dfa, members: seq<seq<Byte>>, of: seq<nat>, reps: seq<Byte>, c: nat)
    requires |of| < 256 && ClassesOk(d, members, of, reps) && c < |reps| && d.classOf(|of|) == d.classOf(reps[c])
    ensures ClassesOk(d, members[c := members[c] + [|of|]], of + [c], reps)
  {
    hide MembersHold;
    MembersGrow(members, of, c);
  }

  lemma ClassNew(d: Dfa, members: seq<seq<Byte>>, of: seq<nat>, reps: seq<Byte>)
    requires |of| < 256 && ClassesOk(d, members, of, reps)
    ensures ClassesOk(d, members + [[|of|]], of + [|reps|], reps + [|of|])
  {
    hide MembersHold;
    var c := |reps|;
    NewClassIsEmpty(of, c);
    MembersNew(members, of);
    var more: seq<seq<Byte>> := members + [[]];
    MembersGrow(more, of, c);
    assert more[c] == [] && more[c] + [|of|] == [|of|];
    assert more[c := more[c] + [|of|]] == members + [[|of|]];
  }

  lemma MembersNew(members: seq<seq<Byte>>, of: seq<nat>)
    requires |of| <= 256 && MembersHold(members, of) && MembersOf(of, |members|) == []
    ensures MembersHold(members + [[]], of)
  {}

  ghost predicate FirstBytes(reps: seq<Byte>, n: nat) {
    (forall c :: 0 <= c < |reps| ==> reps[c] < n) && forall c, e :: 0 <= c < e < |reps| ==> reps[c] < reps[e]
  }

  ghost predicate ClassesApart(d: Dfa, reps: seq<Byte>) {
    forall c, e :: 0 <= c < e < |reps| ==> d.classOf(reps[c]) != d.classOf(reps[e])
  }

  lemma NumbersApart(d: Dfa, reps: seq<Byte>, numbers: map<nat, nat>)
    requires NumbersHold(d, reps, numbers)
    ensures ClassesApart(d, reps)
  {}

  /** `build_class_table`. */
  method BuildClassTable(d: Dfa) returns (members: seq<seq<Byte>>, ofByte: ByteTable, reps: seq<Byte>)
    ensures ClassesOk(d, members, ofByte, reps) && ClassesApart(d, reps) && |reps| <= 256
  {
    hide ClassesOk, NumbersHold;
    var numbers: map<nat, nat> := map[];
    var of: seq<nat> := [];
    members, reps := [], [];
    NoClasses(d);
    for byte := 0 to 256
      invariant |of| == byte && ClassesOk(d, members, of, reps) && NumbersHold(d, reps, numbers)
      invariant FirstBytes(reps, byte)
    {
      ClassSizes(d, members, of, reps);
      NumberOf(d, reps, numbers, byte);
      if d.classOf(byte) in numbers {
        var class_ := numbers[d.classOf(byte)];
        ClassOld(d, members, of, reps, class_);
        members := members[class_ := members[class_] + [byte]];
        of := of + [class_];
      } else {
        ClassNew(d, members, of, reps);
        numbers := numbers[d.classOf(byte) := |members|];
        of := of + [|members|];
        members, reps := members + [[byte]], reps + [byte];
      }
    }
    ofByte := of;
    NumbersApart(d, reps, numbers);
    Finite.Pigeonhole(reps, 256);
  }

  lemma NoClasses(d: Dfa)
    ensures ClassesOk(d, [], [], []) && NumbersHold(d, [], map[])
  {}

  lemma ClassSizes(d: Dfa, members: seq<seq<Byte>>, of: seq<nat>, reps: seq<Byte>)
    requires ClassesOk(d, members, of, reps)
    ensures |members| == |reps|
  {}

  lemma NumberOf(d: Dfa, reps: seq<Byte>, numbers: map<nat, nat>, b: Byte)
    requires NumbersHold(d, reps, numbers)
    ensures d.classOf(b) in numbers ==>
              numbers[d.classOf(b)] < |reps| && d.classOf(b) == d.classOf(reps[numbers[d.classOf(b)]])
    ensures d.classOf(b) !in numbers ==> NumbersHold(d, reps + [b], numbers[d.classOf(b) := |reps|])
  {}

  // --- discovery --------------------------------------------------------------------------------------------------------

  /** One discovered state: its edges by class, ascending, into positions. */
  datatype RawState = RawState(edges: seq<(nat, nat)>, accepting: bool)

  lemma {:induction false} NoTarget(edges: seq<(nat, nat)>, c: nat)
    requires forall i :: 0 <= i < |edges| ==> edges[i].0 < c
    ensures Lookup<nat>(edges, c).None?
  {
    if edges != [] { NoTarget(edges[1..], c); }
  }

  ghost predicate ClassRead(edges: seq<(nat, nat)>, d: Dfa, reps: seq<Byte>, order: seq<nat>, e: nat, c: nat)
    requires c < |reps|
  {
    match Lookup<nat>(edges, c)
    case None => d.dead(d.next(e, reps[c]))
    case Some(j) => j < |order| && order[j] == d.next(e, reps[c])
  }

  /** The edges of `e` over the first `k` classes: one exactly where the successor is not dead. */
  ghost predicate EdgesRead(edges: seq<(nat, nat)>, d: Dfa, reps: seq<Byte>, order: seq<nat>, e: nat, k: nat)
    requires k <= |reps|
  {
    && Ascending(edges) && (forall i :: 0 <= i < |edges| ==> edges[i].0 < k && edges[i].1 < |order|)
    && forall c :: 0 <= c < k ==> ClassRead(edges, d, reps, order, e, c)
  }

  lemma EdgesGrow(edges: seq<(nat, nat)>, d: Dfa, reps: seq<Byte>, order: seq<nat>, order': seq<nat>, e: nat, k: nat)
    requires k <= |reps| && EdgesRead(edges, d, reps, order, e, k) && order <= order'
    ensures EdgesRead(edges, d, reps, order', e, k)
  {
    forall c | 0 <= c < k ensures ClassRead(edges, d, reps, order', e, c) {
      assert ClassRead(edges, d, reps, order, e, c);
    }
  }

  lemma EdgesSkip(edges: seq<(nat, nat)>, d: Dfa, reps: seq<Byte>, order: seq<nat>, e: nat, k: nat)
    requires k < |reps| && EdgesRead(edges, d, reps, order, e, k) && d.dead(d.next(e, reps[k]))
    ensures EdgesRead(edges, d, reps, order, e, k + 1)
  {
    NoTarget(edges, k);
  }

  lemma EdgesPush(edges: seq<(nat, nat)>, d: Dfa, reps: seq<Byte>, order: seq<nat>, e: nat, k: nat, j: nat)
    requires k < |reps| && EdgesRead(edges, d, reps, order, e, k) && j < |order| && order[j] == d.next(e, reps[k])
    ensures EdgesRead(edges + [(k, j)], d, reps, order, e, k + 1)
  {
    var edges' := edges + [(k, j)];
    forall c: nat | c < k + 1 ensures ClassRead(edges', d, reps, order, e, c) {
      LookupAppend(edges, (k, j), c);
      if c < k { assert ClassRead(edges, d, reps, order, e, c); } else { NoTarget(edges, k); }
    }
  }

  ghost predicate QuitReached(d: Dfa) {
    exists q: nat :: d.Reached(q) && d.quit(q)
  }

  /** What the search may put in its queue: the start, and reachable states that are not dead. */
  ghost predicate Explored(d: Dfa, q: nat) {
    d.Reached(q) && (q == d.start || !d.dead(q))
  }

  ghost predicate AllExplored(d: Dfa, order: seq<nat>) {
    forall i :: 0 <= i < |order| ==> Explored(d, order[i])
  }

  /** There is more to explore than the state cap allows. */
  ghost predicate TooManyStates(d: Dfa) {
    exists order: seq<nat> :: |order| > MAX_MATERIALIZE_STATES && Finite.Distinct(order) && AllExplored(d, order)
  }

  ghost function Classes(d: Dfa): set<nat> {
    set b: Byte | 0 <= b < 256 :: d.classOf(b)
  }

  ghost predicate AcceptsSome(d: Dfa, q: nat) {
    exists w :: d.Accepts(q, w)
  }

  ghost predicate LiveStates(d: Dfa, states: seq<nat>) {
    Finite.Distinct(states) && forall i :: 0 <= i < |states| ==> d.Reached(states[i]) && AcceptsSome(d, states[i])
  }

  /** The reachable states that accept something, and DEAD, have more cells than the cap allows. */
  ghost predicate TooManyCells(d: Dfa) {
    exists states :: LiveStates(d, states) && OverCells(|states|, |Classes(d)|)
  }

  /** The live states and DEAD, times the classes. */
  ghost predicate OverCells(live: nat, classes: nat) {
    (live + 1) * classes > MAX_TRANSITION_CELLS
  }

  lemma OverCellsGrows(m: nat, n: nat, classes: nat)
    requires m <= n && OverCells(m, classes)
    ensures OverCells(n, classes)
  {
    Scaled(m + 1, n + 1, classes);
  }

  ghost predicate NoneQuits(d: Dfa, order: seq<nat>) {
    forall i :: 0 <= i < |order| ==> !d.quit(order[i])
  }

  /** Every position is named once, and every named state may be explored and does not quit. */
  ghost predicate Known(d: Dfa, order: seq<nat>, indexOf: map<nat, nat>) {
    Discovery.Interned(order, indexOf) && AllExplored(d, order) && NoneQuits(d, order)
  }

  lemma KnownDistinct(d: Dfa, order: seq<nat>, indexOf: map<nat, nat>)
    requires Known(d, order, indexOf)
    ensures Finite.Distinct(order)
  {}

  lemma KnownReached(d: Dfa, order: seq<nat>, indexOf: map<nat, nat>, e: nat)
    requires Known(d, order, indexOf) && e in order
    ensures d.Reached(e)
  {
    var i :| 0 <= i < |order| && order[i] == e;
    assert Explored(d, order[i]);
  }

  /** The successors of one state, class by class. */
  method ReadRow(d: Dfa, reps: seq<Byte>, e: nat, order0: seq<nat>, indexOf0: map<nat, nat>)
    returns (ok: bool, edges: seq<(nat, nat)>, order: seq<nat>, indexOf: map<nat, nat>)
    requires Known(d, order0, indexOf0) && e in order0
    ensures ok ==> Known(d, order, indexOf) && order0 <= order && EdgesRead(edges, d, reps, order, e, |reps|)
    ensures !ok ==> QuitReached(d)
  {
    hide EdgesRead, Dfa.Reached;
    ok, edges, order, indexOf := true, [], order0, indexOf0;
    NoEdges(d, reps, order0, e);
    for c := 0 to |reps|
      invariant ok && Known(d, order, indexOf) && order0 <= order && EdgesRead(edges, d, reps, order, e, c)
    {
      var t := d.next(e, reps[c]);
      KnownReached(d, order, indexOf, e);
      d.ReachedOn(e, reps[c]);
      if d.quit(t) { return false, edges, order, indexOf; }
      if d.dead(t) {
        EdgesSkip(edges, d, reps, order, e, c);
      } else {
        ghost var before := order;
        assert Explored(d, t);
        if t !in indexOf {
          indexOf := indexOf[t := |order|];
          order := order + [t];
        }
        EdgesGrow(edges, d, reps, before, order, e, c);
        EdgesPush(edges, d, reps, order, e, c, indexOf[t]);
        edges := edges + [(c, indexOf[t])];
      }
    }
  }

  lemma NoEdges(d: Dfa, reps: seq<Byte>, order: seq<nat>, e: nat)
    ensures EdgesRead([], d, reps, order, e, 0)
  {}

  ghost predicate RowRead(row: RawState, d: Dfa, reps: seq<Byte>, order: seq<nat>, e: nat) {
    row.accepting == d.matches(e) && EdgesRead(row.edges, d, reps, order, e, |reps|)
  }

  ghost predicate RowsRead(rows: seq<RawState>, d: Dfa, reps: seq<Byte>, order: seq<nat>) {
    |rows| <= |order| && forall i :: 0 <= i < |rows| ==> RowRead(rows[i], d, reps, order, order[i])
  }

  lemma RowsGrow(rows: seq<RawState>, d: Dfa, reps: seq<Byte>, order: seq<nat>, order': seq<nat>)
    requires RowsRead(rows, d, reps, order) && order <= order'
    ensures RowsRead(rows, d, reps, order')
  {
    hide EdgesRead;
    forall i | 0 <= i < |rows| ensures RowRead(rows[i], d, reps, order', order'[i]) {
      assert RowRead(rows[i], d, reps, order, order[i]);
      EdgesGrow(rows[i].edges, d, reps, order, order', order[i], |reps|);
    }
  }

  /** The breadth-first search from the start. Quit states and more than 2^16 states end it. */
  method Discover(d: Dfa, reps: seq<Byte>) returns (r: Result<seq<RawState>>, ghost order: seq<nat>)
    ensures r.Ok? ==> |r.value| == |order| > 0 && order[0] == d.start && RowsRead(r.value, d, reps, order)
    ensures r.Ok? ==> Finite.Distinct(order) && AllExplored(d, order) && NoneQuits(d, order)
    ensures r.Ok? ==> |order| <= MAX_MATERIALIZE_STATES
    ensures r.Err? ==> (r.error == LimitExceeded && TooManyStates(d)) || (r.error == Unsupported && QuitReached(d))
  {
    hide EdgesRead, RowsRead, Dfa.Reached;
    StartReached(d);
    if d.quit(d.start) { return Err(Unsupported), []; }
    var found: seq<nat> := [d.start];
    var indexOf: map<nat, nat> := map[d.start := 0];
    var rows: seq<RawState> := [];
    NoRows(d, reps, found);
    while |rows| < |found|
      invariant Known(d, found, indexOf) && |rows| <= |found| && |found| > 0 && found[0] == d.start
      invariant RowsRead(rows, d, reps, found) && |rows| <= MAX_MATERIALIZE_STATES
      decreases MAX_MATERIALIZE_STATES - |rows|
    {
      if |rows| >= MAX_MATERIALIZE_STATES {
        KnownDistinct(d, found, indexOf);
        return Err(LimitExceeded), [];
      }
      var e := found[|rows|];
      ghost var before := found;
      var ok, edges;
      ok, edges, found, indexOf := ReadRow(d, reps, e, found, indexOf);
      if !ok { return Err(Unsupported), []; }
      RowsGrow(rows, d, reps, before, found);
      RowsPush(rows, d, reps, found, RawState(edges, d.matches(e)));
      rows := rows + [RawState(edges, d.matches(e))];
    }
    KnownDistinct(d, found, indexOf);
    r, order := Ok(rows), found;
  }

  lemma StartReached(d: Dfa)
    ensures d.Reached(d.start)
  {
    assert d.ReachedBy(d.start, []);
  }

  lemma NoRows(d: Dfa, reps: seq<Byte>, order: seq<nat>)
    ensures RowsRead([], d, reps, order)
  {}

  lemma RowsPush(rows: seq<RawState>, d: Dfa, reps: seq<Byte>, order: seq<nat>, row: RawState)
    requires RowsRead(rows, d, reps, order) && |rows| < |order| && RowRead(row, d, reps, order, order[|rows|])
    ensures RowsRead(rows + [row], d, reps, order)
  {
    hide RowRead;
  }

  // --- the same rows by byte ------------------------------------------------------------------------------------------

  ghost function ByteEdges(edges: seq<(nat, nat)>, of: seq<nat>, k: nat): seq<(Byte, nat)>
    requires k <= |of| <= 256
  {
    if k == 0 then []
    else
      var front := ByteEdges(edges, of, k - 1);
      var t := Lookup<nat>(edges, of[k - 1]);
      if t.Some? then front + [((k - 1) as Byte, t.value)] else front
  }

  lemma {:induction false} ByteLookup(edges: seq<(nat, nat)>, of: seq<nat>, k: nat, b: Byte)
    requires k <= |of| <= 256
    ensures Lookup<Byte>(ByteEdges(edges, of, k), b) == if b < k then Lookup<nat>(edges, of[b]) else None
  {
    if k > 0 {
      ByteLookup(edges, of, k - 1, b);
      var t := Lookup<nat>(edges, of[k - 1]);
      if t.Some? { LookupAppend(ByteEdges(edges, of, k - 1), ((k - 1) as Byte, t.value), b); }
    }
  }

  lemma {:induction false} ByteRowOk(edges: seq<(nat, nat)>, of: seq<nat>, k: nat, n: nat)
    requires k <= |of| <= 256 && forall i :: 0 <= i < |edges| ==> edges[i].1 < n
    ensures RowOk(ByteEdges(edges, of, k), n)
    ensures forall i :: 0 <= i < |ByteEdges(edges, of, k)| ==> ByteEdges(edges, of, k)[i].0 < k
  {
    if k > 0 {
      ByteRowOk(edges, of, k - 1, n);
      LookupIsEdge(edges, of[k - 1]);
    }
  }

  ghost function ByteStates(rows: seq<RawState>, of: ByteTable): (s: seq<ByteState>)
    ensures |s| == |rows|
  {
    seq(|rows|, i requires 0 <= i < |rows| => ByteState(rows[i].accepting, ByteEdges(rows[i].edges, of, 256)))
  }

  /** A finished search, with the class table it used. */
  ghost predicate Searched(d: Dfa, members: seq<seq<Byte>>, of: ByteTable, reps: seq<Byte>, rows: seq<RawState>, order: seq<nat>) {
    && d.Ok() && ClassesOk(d, members, of, reps) && |reps| <= 256
    && |rows| == |order| > 0 && order[0] == d.start && RowsRead(rows, d, reps, order)
  }

  lemma {:induction false} BytesAccept(d: Dfa, members: seq<seq<Byte>>, of: ByteTable, reps: seq<Byte>, rows: seq<RawState>,
                                       order: seq<nat>, i: nat, w: Word)
    requires Searched(d, members, of, reps, rows, order) && i < |rows|
    ensures Graph.Accepts(ByteStates(rows, of), i, w) <==> d.Accepts(order[i], w)
    decreases |w|
  {
    hide MembersHold, ByteEdges;
    assert RowRead(rows[i], d, reps, order, order[i]);
    if w != [] {
      var c := of[w[0]];
      ByteLookup(rows[i].edges, of, 256, w[0]);
      assert ClassRead(rows[i].edges, d, reps, order, order[i], c);
      assert d.next(order[i], w[0]) == d.next(order[i], reps[c]);
      match Lookup<nat>(rows[i].edges, c) {
        case None => d.DeadRejects(d.next(order[i], w[0]), w[1..]);
        case Some(j) => BytesAccept(d, members, of, reps, rows, order, j, w[1..]);
      }
    }
  }

  /** A finished search saw every reachable state that is not dead. */
  lemma {:induction false} WalkSeen(d: Dfa, members: seq<seq<Byte>>, of: ByteTable, reps: seq<Byte>, rows: seq<RawState>,
                                    order: seq<nat>, i: nat, w: Word)
    requires Searched(d, members, of, reps, rows, order) && i < |rows|
    ensures d.dead(d.Walk(order[i], w)) || d.Walk(order[i], w) in order
    decreases |w|
  {
    hide MembersHold, ByteEdges;
    assert RowRead(rows[i], d, reps, order, order[i]);
    if w != [] {
      var c := of[w[0]];
      assert ClassRead(rows[i].edges, d, reps, order, order[i], c);
      assert d.next(order[i], w[0]) == d.next(order[i], reps[c]);
      match Lookup<nat>(rows[i].edges, c) {
        case None => DeadWalk(d, d.next(order[i], w[0]), w[1..]);
        case Some(j) => WalkSeen(d, members, of, reps, rows, order, j, w[1..]);
      }
    }
  }

  lemma {:induction false} DeadWalk(d: Dfa, q: nat, w: Word)
    requires d.Ok() && d.dead(q)
    ensures d.dead(d.Walk(q, w))
    decreases |w|
  {
    if w != [] { DeadWalk(d, d.next(q, w[0]), w[1..]); }
  }

  lemma ReachedSeen(d: Dfa, members: seq<seq<Byte>>, of: ByteTable, reps: seq<Byte>, rows: seq<RawState>, order: seq<nat>, q: nat)
    requires Searched(d, members, of, reps, rows, order) && d.Reached(q)
    ensures d.dead(q) || q in order
  {
    hide Searched, ClassesOk, RowsRead, Dfa.Walk;
    var w :| d.ReachedBy(q, w);
    SearchedStart(d, members, of, reps, rows, order);
    WalkSeen(d, members, of, reps, rows, order, 0, w);
  }

  lemma NoQuit(d: Dfa, members: seq<seq<Byte>>, of: ByteTable, reps: seq<Byte>, rows: seq<RawState>, order: seq<nat>)
    requires Searched(d, members, of, reps, rows, order) && NoneQuits(d, order)
    ensures !QuitReached(d)
  {
    forall q: nat | d.Reached(q) ensures !d.quit(q) {
      ReachedSeen(d, members, of, reps, rows, order, q);
      hide Dfa.Reached, ClassesOk, RowsRead;
    }
  }

  /** Everything that may be explored was. */
  lemma NotTooManyStates(d: Dfa, members: seq<seq<Byte>>, of: ByteTable, reps: seq<Byte>, rows: seq<RawState>, order: seq<nat>)
    requires Searched(d, members, of, reps, rows, order) && |order| <= MAX_MATERIALIZE_STATES
    ensures !TooManyStates(d)
  {
    hide ClassesOk, RowsRead, Dfa.Reached, Dfa.Ok;
    forall ks: seq<nat> | Finite.Distinct(ks) && AllExplored(d, ks) ensures |ks| <= |order| {
      forall i | 0 <= i < |ks| ensures ks[i] in order {
        assert Explored(d, ks[i]);
        ReachedSeen(d, members, of, reps, rows, order, ks[i]);
      }
      Finite.DistinctWithin(ks, order);
    }
  }

  /** The live states by name. */
  ghost function LiveNames(order: seq<nat>, origin: seq<nat>): (r: seq<nat>)
    requires forall k :: 0 <= k < |origin| ==> origin[k] < |order|
    ensures |r| == |origin|
  {
    seq(|origin|, k requires 0 <= k < |origin| => order[origin[k]])
  }

  /** The live rows are the reachable states that accept something. */
  lemma LiveNamesAre(d: Dfa, members: seq<seq<Byte>>, of: ByteTable, reps: seq<Byte>, rows: seq<RawState>, order: seq<nat>,
                     live: seq<bool>, remap: seq<nat>, origin: seq<nat>)
    requires Searched(d, members, of, reps, rows, order) && Finite.Distinct(order) && AllExplored(d, order)
    requires |live| == |rows| && Renumbers(live, remap, origin)
    requires forall q :: 0 <= q < |rows| ==> (live[q] <==> AcceptsSomething(ByteStates(rows, of), q))
    ensures LiveStates(d, LiveNames(order, origin))
    ensures forall states: seq<nat> :: LiveStates(d, states) ==> |states| <= |origin|
  {
    hide RowsRead, Dfa.Reached, Dfa.Ok, ClassesOk, Dfa.Walk, ByteStates;
    var names := LiveNames(order, origin);
    forall k, l | 0 <= k < l < |names| ensures names[k] != names[l] {
      assert remap[origin[k]] == k + 1 && remap[origin[l]] == l + 1;
    }
    forall k | 0 <= k < |names| ensures d.Reached(names[k]) && AcceptsSome(d, names[k]) {
      var q := origin[k];
      assert remap[q] == k + 1 && live[q] && Explored(d, order[q]);
      SameLive(d, members, of, reps, rows, order, q);
    }
    forall states: seq<nat> | LiveStates(d, states) ensures |states| <= |origin| {
      forall i | 0 <= i < |states| ensures states[i] in names {
        LiveSeen(d, members, of, reps, rows, order, states[i]);
        var q :| 0 <= q < |order| && order[q] == states[i];
        SameLive(d, members, of, reps, rows, order, q);
        assert origin[remap[q] - 1] == q;
        assert names[remap[q] - 1] == states[i];
      }
      Finite.DistinctWithin(states, names);
    }
  }

  lemma LiveSeen(d: Dfa, members: seq<seq<Byte>>, of: ByteTable, reps: seq<Byte>, rows: seq<RawState>, order: seq<nat>, q: nat)
    requires Searched(d, members, of, reps, rows, order) && d.Reached(q) && AcceptsSome(d, q)
    ensures q in order
  {
    ReachedSeen(d, members, of, reps, rows, order, q);
    var w :| d.Accepts(q, w);
    if d.dead(q) { d.DeadRejects(q, w); }
  }

  lemma SameLive(d: Dfa, members: seq<seq<Byte>>, of: ByteTable, reps: seq<Byte>, rows: seq<RawState>, order: seq<nat>, q: nat)
    requires Searched(d, members, of, reps, rows, order) && q < |rows|
    ensures AcceptsSomething(ByteStates(rows, of), q) <==> AcceptsSome(d, order[q])
  {
    SearchedStart(d, members, of, reps, rows, order);
    hide Searched, ByteStates, Dfa.Accepts, Graph.Accepts;
    if w :| Graph.Accepts(ByteStates(rows, of), q, w) { BytesAccept(d, members, of, reps, rows, order, q, w); }
    if w :| d.Accepts(order[q], w) { BytesAccept(d, members, of, reps, rows, order, q, w); }
  }

  /** One representative for each of the library's classes. */
  lemma ClassCount(d: Dfa, members: seq<seq<Byte>>, of: ByteTable, reps: seq<Byte>)
    requires ClassesOk(d, members, of, reps) && ClassesApart(d, reps)
    ensures |Classes(d)| == |reps|
  {
    hide MembersHold;
    var numbers: seq<nat> := seq(|reps|, c requires 0 <= c < |reps| => d.classOf(reps[c]));
    Finite.DistinctElements(numbers);
    forall b: Byte ensures d.classOf(b) in numbers { assert numbers[of[b]] == d.classOf(reps[of[b]]); }
    forall x: nat | x in numbers ensures x in Classes(d) {
      var c :| 0 <= c < |numbers| && numbers[c] == x;
      assert x == d.classOf(reps[c]);
    }
    assert Classes(d) == set x: nat | x in numbers;
  }

  lemma CellsOfLive(d: Dfa, n: nat, names: seq<nat>)
    requires LiveStates(d, names) && |names| == n && forall states: seq<nat> :: LiveStates(d, states) ==> |states| <= n
    ensures TooManyCells(d) <==> OverCells(n, |Classes(d)|)
  {
    hide LiveStates, OverCells, Classes;
    if states :| LiveStates(d, states) && OverCells(|states|, |Classes(d)|) {
      OverCellsGrows(|states|, n, |Classes(d)|);
    }
  }

  /** The cap on cells asks for the live states of the search. */
  lemma CellCap(d: Dfa, members: seq<seq<Byte>>, of: ByteTable, reps: seq<Byte>, rows: seq<RawState>, order: seq<nat>,
                live: seq<bool>, remap: seq<nat>, origin: seq<nat>)
    requires Searched(d, members, of, reps, rows, order) && Finite.Distinct(order) && AllExplored(d, order)
    requires ClassesApart(d, reps) && |live| == |rows| && Renumbers(live, remap, origin)
    requires forall q :: 0 <= q < |rows| ==> (live[q] <==> AcceptsSomething(ByteStates(rows, of), q))
    ensures TooManyCells(d) <==> OverCells(|origin|, |reps|)
  {
    ClassCount(d, members, of, reps);
    LiveNamesAre(d, members, of, reps, rows, order, live, remap, origin);
    assert |LiveNames(order, origin)| == |origin|;
    hide *;
    CellsOfLive(d, |origin|, LiveNames(order, origin));
  }

  lemma SearchedStart(d: Dfa, members: seq<seq<Byte>>, of: ByteTable, reps: seq<Byte>, rows: seq<RawState>, order: seq<nat>)
    requires Searched(d, members, of, reps, rows, order)
    ensures 0 < |rows| == |order| && order[0] == d.start
  {}

  lemma BytesRowsOk(d: Dfa, members: seq<seq<Byte>>, of: ByteTable, reps: seq<Byte>, rows: seq<RawState>, order: seq<nat>)
    requires Searched(d, members, of, reps, rows, order)
    ensures RowsOk(ByteStates(rows, of), |rows|)
  {
    hide MembersHold, ByteEdges, ClassRead;
    forall i | 0 <= i < |rows| ensures RowOk(ByteStates(rows, of)[i].edges, |rows|) {
      assert RowRead(rows[i], d, reps, order, order[i]);
      ByteRowOk(rows[i].edges, of, 256, |rows|);
    }
  }

  // --- liveness -------------------------------------------------------------------------------------------------------

  function TargetRows(rows: seq<RawState>): (r: seq<seq<nat>>)
    ensures |r| == |rows|
  {
    seq(|rows|, q requires 0 <= q < |rows| => Targets(rows[q].edges))
  }

  function Flags(rows: seq<RawState>): (r: seq<bool>)
    ensures |r| == |rows|
  {
    seq(|rows|, q requires 0 <= q < |rows| => rows[q].accepting)
  }

  /** By byte or by class, a state has the same successors. */
  lemma SameTargets(d: Dfa, members: seq<seq<Byte>>, of: ByteTable, reps: seq<Byte>, rows: seq<RawState>, order: seq<nat>,
                    q: nat, t: nat)
    requires Searched(d, members, of, reps, rows, order) && q < |rows|
    ensures t in EdgeTargets(ByteStates(rows, of)[q].edges) <==> t in Targets(rows[q].edges)
  {
    hide MembersHold, ByteEdges, RowsOk;
    var edges, bytes := rows[q].edges, ByteStates(rows, of)[q].edges;
    assert RowRead(rows[q], d, reps, order, order[q]);
    BytesRowsOk(d, members, of, reps, rows, order);
    if t in EdgeTargets(bytes) {
      var i :| 0 <= i < |bytes| && EdgeTargets(bytes)[i] == t;
      assert RowOk(bytes, |rows|) by { RowOkAt(ByteStates(rows, of), q); }
      LookupUnique(bytes, i);
      ByteLookup(edges, of, 256, bytes[i].0);
      LookupIsEdge(edges, of[bytes[i].0]);
      var j :| 0 <= j < |edges| && edges[j] == (of[bytes[i].0], t);
      assert Targets(edges)[j] == t;
    }
    if t in Targets(edges) {
      var j :| 0 <= j < |edges| && Targets(edges)[j] == t;
      var c := edges[j].0;
      OnlyEdge(edges, j);
      ByteLookup(edges, of, 256, reps[c]);
      LookupIsEdge(bytes, reps[c]);
      var i :| 0 <= i < |bytes| && bytes[i] == (reps[c], t);
      assert EdgeTargets(bytes)[i] == t;
    }
  }

  lemma RowOkAt(states: seq<ByteState>, q: nat)
    requires RowsOk(states, |states|) && q < |states|
    ensures RowOk(states[q].edges, |states|)
  {}

  lemma OnlyEdge(edges: seq<(nat, nat)>, j: nat)
    requires Ascending(edges) && j < |edges|
    ensures Lookup<nat>(edges, edges[j].0) == Some(edges[j].1)
  {
    LookupIsEdge(edges, edges[j].0);
    var i :| 0 <= i < |edges| && edges[i] == (edges[j].0, Lookup<nat>(edges, edges[j].0).value);
    assert i == j;
  }

  lemma {:induction false} SamePaths(d: Dfa, members: seq<seq<Byte>>, of: ByteTable, reps: seq<Byte>, rows: seq<RawState>,
                                     order: seq<nat>, q: nat, k: nat)
    requires Searched(d, members, of, reps, rows, order) && q < |rows|
    ensures Reachability.Reaches(StateRows(ByteStates(rows, of)), AcceptFlags(ByteStates(rows, of)), q, k)
            <==> Reachability.Reaches(TargetRows(rows), Flags(rows), q, k)
    decreases k
  {
    hide Searched, EdgeTargets, Targets, ByteEdges;
    var a, b := StateRows(ByteStates(rows, of)), TargetRows(rows);
    var fa, fb := AcceptFlags(ByteStates(rows, of)), Flags(rows);
    if k > 0 {
      if i :| 0 <= i < |a[q]| && Reachability.Reaches(a, fa, a[q][i], k - 1) {
        SameTargets(d, members, of, reps, rows, order, q, a[q][i]);
        var j :| 0 <= j < |b[q]| && b[q][j] == a[q][i];
        SamePaths(d, members, of, reps, rows, order, a[q][i], k - 1);
      }
      if i :| 0 <= i < |b[q]| && Reachability.Reaches(b, fb, b[q][i], k - 1) {
        SameTargets(d, members, of, reps, rows, order, q, b[q][i]);
        var j :| 0 <= j < |a[q]| && a[q][j] == b[q][i];
        SamePaths(d, members, of, reps, rows, order, b[q][i], k - 1);
      }
    }
  }

  lemma TargetsInRange(d: Dfa, members: seq<seq<Byte>>, of: ByteTable, reps: seq<Byte>, rows: seq<RawState>, order: seq<nat>)
    requires Searched(d, members, of, reps, rows, order)
    ensures Reachability.TargetsBelow(TargetRows(rows), |rows|)
  {
    hide MembersHold, ClassRead;
    forall q | 0 <= q < |rows| ensures forall i :: 0 <= i < |rows[q].edges| ==> rows[q].edges[i].1 < |rows| {
      assert RowRead(rows[q], d, reps, order, order[q]);
    }
  }

  /** The states that can still reach acceptance. */
  method LiveRows(d: Dfa, rows: seq<RawState>, ghost members: seq<seq<Byte>>, ghost of: ByteTable, ghost reps: seq<Byte>,
                  ghost order: seq<nat>)
    returns (live: seq<bool>)
    requires Searched(d, members, of, reps, rows, order)
    ensures |live| == |rows|
    ensures forall q :: 0 <= q < |rows| ==> (live[q] <==> AcceptsSomething(ByteStates(rows, of), q))
  {
    hide Searched, AcceptsSomething, ByteStates, RowsOk;
    TargetsInRange(d, members, of, reps, rows, order);
    var rev := Reachability.ReverseLists(TargetRows(rows), |rows|);
    live := Reachability.LiveStates(TargetRows(rows), Flags(rows), rev);
    BytesRowsOk(d, members, of, reps, rows, order);
    forall q | 0 <= q < |rows| ensures live[q] <==> AcceptsSomething(ByteStates(rows, of), q) {
      LiveIffAccepts(ByteStates(rows, of), q);
      SameCoReachable(d, members, of, reps, rows, order, q);
    }
  }

  lemma SameCoReachable(d: Dfa, members: seq<seq<Byte>>, of: ByteTable, reps: seq<Byte>, rows: seq<RawState>,
                        order: seq<nat>, q: nat)
    requires Searched(d, members, of, reps, rows, order) && q < |rows|
    ensures Reachability.CoReachable(StateRows(ByteStates(rows, of)), AcceptFlags(ByteStates(rows, of)), q)
            <==> Reachability.CoReachable(TargetRows(rows), Flags(rows), q)
  {
    hide Searched, ByteStates, Reachability.Reaches;
    forall k: nat { SamePaths(d, members, of, reps, rows, order, q, k); }
  }

  // --- packing --------------------------------------------------------------------------------------------------------

  /** The edges into live states, renumbered. */
  function Kept(edges: seq<(nat, nat)>, remap: seq<nat>): seq<(nat, nat)> {
    if edges == [] then []
    else
      var k := |edges| - 1;
      var front := Kept(edges[..k], remap);
      var t := Mapped(remap, Some(edges[k].1));
      if t != DEAD then front + [(edges[k].0, t)] else front
  }

  /** The byte matrix that the packed rows stand for. */
  ghost function Matrix(states: seq<ByteState>, remap: seq<nat>, origin: seq<nat>): (m: seq<nat>)
    ensures |m| == (|origin| + 1) * 256
  {
    seq((|origin| + 1) * 256, k requires 0 <= k < (|origin| + 1) * 256 => MatrixCell(states, remap, origin, k / 256, k % 256))
  }

  ghost function MatrixCell(states: seq<ByteState>, remap: seq<nat>, origin: seq<nat>, s: nat, b: nat): nat {
    if s == 0 || s > |origin| || origin[s - 1] >= |states| || b > 255 then DEAD
    else Mapped(remap, Lookup<Byte>(states[origin[s - 1]].edges, b))
  }

  lemma MatrixReads(states: seq<ByteState>, remap: seq<nat>, origin: seq<nat>, s: nat, b: Byte)
    ensures Cell(Matrix(states, remap, origin), s, b) == MatrixCell(states, remap, origin, s, b)
  {
    hide MatrixCell;
    var k := s * 256 + b;
    assert k / 256 == s && k % 256 == b;
    if s > |origin| { OutsideMatrix(states, remap, origin, s, b); }
  }

  lemma OutsideMatrix(states: seq<ByteState>, remap: seq<nat>, origin: seq<nat>, s: nat, b: Byte)
    requires s > |origin|
    ensures MatrixCell(states, remap, origin, s, b) == DEAD
  {}

  lemma MatrixIsOk(states: seq<ByteState>, live: seq<bool>, remap: seq<nat>, origin: seq<nat>)
    requires |live| == |states| && Renumbers(live, remap, origin)
    ensures MatrixOk(states, remap, Matrix(states, remap, origin), |states|)
  {
    hide Matrix;
    var m := Matrix(states, remap, origin);
    forall q | 0 <= q < |states| && remap[q] != DEAD ensures RowFilled(states, remap, m, q, 256) {
      forall b: Byte ensures Cell(m, remap[q], b) == Mapped(remap, Lookup<Byte>(states[q].edges, b)) {
        MatrixReads(states, remap, origin, remap[q], b);
      }
    }
    forall b: Byte ensures Cell(m, DEAD, b) == DEAD { MatrixReads(states, remap, origin, DEAD, b); }
  }

  lemma LastTarget(edges: seq<(nat, nat)>, k: nat)
    requires Ascending(edges) && edges != [] && edges[|edges| - 1].0 == k - 1
    ensures forall e: nat :: e < k ==>
              Lookup<nat>(edges, e) == if e == k - 1 then Some(edges[|edges| - 1].1) else Lookup<nat>(edges[..|edges| - 1], e)
  {
    var front, last := edges[..|edges| - 1], edges[|edges| - 1];
    assert edges == front + [last];
    forall e: nat | e < k
      ensures Lookup<nat>(edges, e) == if e == k - 1 then Some(last.1) else Lookup<nat>(front, e)
    {
      LookupAppend(front, last, e);
      if e == k - 1 { NoTarget(front, e); }
    }
  }

  /** Class by class, the kept edges are the packed row. */
  lemma {:induction false} KeptIsRow(edges: seq<(nat, nat)>, remap: seq<nat>, matrix: seq<nat>, reps: seq<Byte>, s: nat, k: nat)
    requires k <= |reps| && Ascending(edges) && forall i :: 0 <= i < |edges| ==> edges[i].0 < k
    requires forall c :: 0 <= c < k ==> Cell(matrix, s, reps[c]) == Mapped(remap, Lookup<nat>(edges, c))
    ensures Kept(edges, remap) == ClassRow(matrix, reps, s, k)
    decreases k
  {
    if k > 0 {
      var c := k - 1;
      if edges != [] && edges[|edges| - 1].0 == c {
        var front, last := edges[..|edges| - 1], edges[|edges| - 1];
        LastTarget(edges, k);
        hide Lookup, Cell, Mapped;
        KeptIsRow(front, remap, matrix, reps, s, c);
      } else {
        forall i | 0 <= i < |edges| ensures edges[i].0 < c { if i < |edges| - 1 { assert edges[i].0 < edges[|edges| - 1].0; } }
        NoTarget(edges, c);
        KeptIsRow(edges, remap, matrix, reps, s, c);
      }
    }
  }

  /** The ghost side of packing. */
  ghost predicate Packing(d: Dfa, members: seq<seq<Byte>>, of: ByteTable, reps: seq<Byte>, rows: seq<RawState>, order: seq<nat>,
                          live: seq<bool>, remap: seq<nat>, origin: seq<nat>)
  {
    && Searched(d, members, of, reps, rows, order)
    && |live| == |rows| && Renumbers(live, remap, origin)
    && (forall k, l :: 0 <= k < l < |origin| ==> origin[k] < origin[l])
  }

  ghost function PackedMatrix(rows: seq<RawState>, of: ByteTable, remap: seq<nat>, origin: seq<nat>): seq<nat> {
    Matrix(ByteStates(rows, of), remap, origin)
  }

  lemma KeptRow(d: Dfa, members: seq<seq<Byte>>, of: ByteTable, reps: seq<Byte>, rows: seq<RawState>, order: seq<nat>,
                live: seq<bool>, remap: seq<nat>, origin: seq<nat>, q: nat)
    requires Packing(d, members, of, reps, rows, order, live, remap, origin) && q < |rows| && live[q]
    ensures Kept(rows[q].edges, remap) == ClassRow(PackedMatrix(rows, of, remap, origin), reps, remap[q], |reps|)
  {
    hide MembersHold, ClassRead, Matrix, ByteEdges, Kept, ClassRow;
    var m := PackedMatrix(rows, of, remap, origin);
    assert RowRead(rows[q], d, reps, order, order[q]);
    forall c | 0 <= c < |reps| ensures Cell(m, remap[q], reps[c]) == Mapped(remap, Lookup<nat>(rows[q].edges, c)) {
      MatrixReads(ByteStates(rows, of), remap, origin, remap[q], reps[c]);
      ByteLookup(rows[q].edges, of, 256, reps[c]);
    }
    KeptIsRow(rows[q].edges, remap, m, reps, remap[q], |reps|);
  }

  lemma ColumnsAgree(d: Dfa, members: seq<seq<Byte>>, of: ByteTable, reps: seq<Byte>, rows: seq<RawState>, order: seq<nat>,
                     live: seq<bool>, remap: seq<nat>, origin: seq<nat>)
    requires Packing(d, members, of, reps, rows, order, live, remap, origin)
    ensures RepsHold(PackedMatrix(rows, of, remap, origin), |origin| + 1, reps, of)
  {
    hide MembersHold, RowsRead, Matrix, ByteEdges;
    var m, states := PackedMatrix(rows, of, remap, origin), ByteStates(rows, of);
    forall b: Byte ensures Column(m, |origin| + 1, b) == Column(m, |origin| + 1, reps[of[b]]) {
      var r := reps[of[b]];
      forall s | 0 <= s < |origin| + 1 ensures Cell(m, s, b) == Cell(m, s, r) {
        MatrixReads(states, remap, origin, s, b);
        MatrixReads(states, remap, origin, s, r);
        if s > 0 && origin[s - 1] < |rows| {
          ByteLookup(rows[origin[s - 1]].edges, of, 256, b);
          ByteLookup(rows[origin[s - 1]].edges, of, 256, r);
        }
      }
    }
  }

  /** The kept edges of one row, with the mask of their classes. */
  method KeepEdges(edges: seq<(nat, nat)>, remap: seq<nat>, flat0: seq<(nat, nat)>)
    returns (flat: seq<(nat, nat)>, mask: ClassMask)
    requires forall i :: 0 <= i < |edges| ==> edges[i].0 < 256
    ensures flat == flat0 + Kept(edges, remap) && MaskHolds(mask, Kept(edges, remap))
  {
    hide MaskHolds;
    flat, mask := flat0, EMPTY_MASK;
    EmptyMaskHolds();
    for i := 0 to |edges|
      invariant flat == flat0 + Kept(edges[..i], remap) && MaskHolds(mask, Kept(edges[..i], remap))
    {
      assert edges[..i + 1][..i] == edges[..i];
      var target := Mapped(remap, Some(edges[i].1));
      if target != DEAD {
        MaskGrows(mask, Kept(edges[..i], remap), (edges[i].0, target));
        flat := flat + [(edges[i].0, target)];
        mask := MaskSet(mask, edges[i].0);
      }
    }
    assert edges[..|edges|] == edges;
  }

  lemma EmptyMaskHolds()
    ensures MaskHolds(EMPTY_MASK, [])
  {
    forall c: nat | c < 256 ensures !MaskContains(EMPTY_MASK, c) { MaskEmptyContains(c); }
  }

  lemma MaskGrows(mask: ClassMask, row: seq<(nat, nat)>, e: (nat, nat))
    requires MaskHolds(mask, row) && e.0 < 256
    ensures MaskHolds(MaskSet(mask, e.0), row + [e])
  {
    hide MaskContains, MaskSet, HasClass;
    forall c: nat | c < 256 ensures MaskContains(MaskSet(mask, e.0), c) <==> c == e.0 || MaskContains(mask, c) {
      MaskSetContains(mask, e.0, c);
    }
    MaskSetFits(mask, e.0);
    HasClassAppend(row, e);
  }

  /** Rows `0..next` are packed. */
  ghost predicate PackedTo(offsets: seq<nat>, flat: seq<(nat, nat)>, masks: seq<ClassMask>, matrix: seq<nat>, reps: seq<Byte>, next: nat) {
    && |offsets| == next && RowLaid(offsets, matrix, reps) && flat == FlatRows(matrix, reps, next)
    && |masks| == next && MasksHold(masks, matrix, reps)
  }

  lemma PackOne(offsets: seq<nat>, flat: seq<(nat, nat)>, masks: seq<ClassMask>, matrix: seq<nat>, reps: seq<Byte>, next: nat,
                row: seq<(nat, nat)>, mask: ClassMask)
    requires PackedTo(offsets, flat, masks, matrix, reps, next)
    requires row == ClassRow(matrix, reps, next, |reps|) && MaskHolds(mask, row)
    ensures PackedTo(offsets + [|flat|], flat + row, masks + [mask], matrix, reps, next + 1)
  {
    hide ClassRow, MaskHolds;
    RowLaidSnoc(offsets, matrix, reps, |flat|);
    FlatRowsStep(matrix, reps, next);
  }

  /** Ids below `next` belong to live states before `q`, the others to those from `q` on. */
  ghost predicate IdsSplit(live: seq<bool>, remap: seq<nat>, q: nat, next: nat)
    requires |remap| == |live|
  {
    && (forall p :: 0 <= p < q && p < |live| && live[p] ==> remap[p] < next)
    && (forall p :: q <= p < |live| && live[p] ==> remap[p] >= next)
  }

  lemma NextId(live: seq<bool>, remap: seq<nat>, origin: seq<nat>, q: nat, next: nat)
    requires Renumbers(live, remap, origin) && (forall k, l :: 0 <= k < l < |origin| ==> origin[k] < origin[l])
    requires q < |live| && live[q] && 0 < next && IdsSplit(live, remap, q, next)
    ensures remap[q] == next <= |origin| && IdsSplit(live, remap, q + 1, next + 1)
  {
    assert next <= remap[q] <= |origin| && origin[remap[q] - 1] == q;
    var p := origin[next - 1];
    assert remap[p] == next && live[p];
    assert p >= q;
    forall p | q < p < |live| && live[p] ensures remap[p] >= next + 1 { RemapInjective(live, remap, origin, p, q); }
  }

  method PackRows(d: Dfa, rows: seq<RawState>, remap: seq<nat>, ghost live: seq<bool>, ghost members: seq<seq<Byte>>,
                  ghost of: ByteTable, ghost reps: seq<Byte>, ghost order: seq<nat>, ghost origin: seq<nat>)
    returns (offsets: seq<nat>, flat: seq<(nat, nat)>, masks: seq<ClassMask>)
    requires Packing(d, members, of, reps, rows, order, live, remap, origin)
    ensures |offsets| == |origin| + 2 && RowLaid(offsets, PackedMatrix(rows, of, remap, origin), reps)
    ensures flat == FlatRows(PackedMatrix(rows, of, remap, origin), reps, |origin| + 1)
    ensures |masks| == |origin| + 1 && MasksHold(masks, PackedMatrix(rows, of, remap, origin), reps)
  {
    hide Searched, Renumbers, PackedTo, PackedMatrix, FlatRows, RowLaid, MasksHold, Kept, MaskHolds, IdsSplit;
    ghost var m := PackedMatrix(rows, of, remap, origin);
    offsets, flat, masks := [0], [], [EMPTY_MASK];
    DeadRow(d, members, of, reps, rows, order, live, remap, origin);
    ghost var next: nat := 1;
    PackingSizes(d, members, of, reps, rows, order, live, remap, origin);
    for q := 0 to |rows|
      invariant PackedTo(offsets, flat, masks, m, reps, next) && 0 < next <= |origin| + 1 && IdsSplit(live, remap, q, next)
    {
      LiveIs(live, remap, origin, q);
      if remap[q] != DEAD {
        NextId(live, remap, origin, q, next);
        KeptRow(d, members, of, reps, rows, order, live, remap, origin, q);
        ClassesBelow(d, members, of, reps, rows, order, q);
        var start := |flat|;
        ghost var before := flat;
        var mask;
        flat, mask := KeepEdges(rows[q].edges, remap, flat);
        PackOne(offsets, before, masks, m, reps, next, Kept(rows[q].edges, remap), mask);
        offsets, masks, next := offsets + [start], masks + [mask], next + 1;
      } else {
        SkipId(live, remap, q, next);
      }
    }
    LastId(live, remap, origin, next);
    PackLast(offsets, flat, masks, m, reps, next);
    offsets := offsets + [|flat|];
  }

  lemma PackingSizes(d: Dfa, members: seq<seq<Byte>>, of: ByteTable, reps: seq<Byte>, rows: seq<RawState>, order: seq<nat>,
                     live: seq<bool>, remap: seq<nat>, origin: seq<nat>)
    requires Packing(d, members, of, reps, rows, order, live, remap, origin)
    ensures |live| == |rows| == |remap| && IdsSplit(live, remap, 0, 1)
  {}

  lemma LiveIs(live: seq<bool>, remap: seq<nat>, origin: seq<nat>, q: nat)
    requires Renumbers(live, remap, origin) && q < |live|
    ensures q < |remap| && (remap[q] != DEAD <==> live[q])
  {}

  lemma SkipId(live: seq<bool>, remap: seq<nat>, q: nat, next: nat)
    requires q < |live| == |remap| && !live[q] && IdsSplit(live, remap, q, next)
    ensures IdsSplit(live, remap, q + 1, next)
  {}

  lemma LastId(live: seq<bool>, remap: seq<nat>, origin: seq<nat>, next: nat)
    requires Renumbers(live, remap, origin) && 0 < next && IdsSplit(live, remap, |live|, next)
    ensures |origin| + 1 <= next
  {
    if |origin| > 0 {
      var p := origin[|origin| - 1];
      assert remap[p] == |origin| && live[p];
    }
  }

  lemma ClassesBelow(d: Dfa, members: seq<seq<Byte>>, of: ByteTable, reps: seq<Byte>, rows: seq<RawState>, order: seq<nat>, q: nat)
    requires Searched(d, members, of, reps, rows, order) && q < |rows|
    ensures forall i :: 0 <= i < |rows[q].edges| ==> rows[q].edges[i].0 < 256
  {
    hide MembersHold, ClassRead;
    assert RowRead(rows[q], d, reps, order, order[q]);
  }

  lemma DeadRow(d: Dfa, members: seq<seq<Byte>>, of: ByteTable, reps: seq<Byte>, rows: seq<RawState>, order: seq<nat>,
                live: seq<bool>, remap: seq<nat>, origin: seq<nat>)
    requires Packing(d, members, of, reps, rows, order, live, remap, origin)
    ensures PackedTo([0], [], [EMPTY_MASK], PackedMatrix(rows, of, remap, origin), reps, 1)
  {
    hide Searched, Renumbers, Matrix;
    var m := PackedMatrix(rows, of, remap, origin);
    forall b: Byte ensures Cell(m, DEAD, b) == DEAD { MatrixReads(ByteStates(rows, of), remap, origin, DEAD, b); }
    EmptyClassRow(m, reps, DEAD, |reps|);
    EmptyMaskHolds();
    FlatRowsStep(m, reps, 0);
  }

  lemma PackLast(offsets: seq<nat>, flat: seq<(nat, nat)>, masks: seq<ClassMask>, matrix: seq<nat>, reps: seq<Byte>, next: nat)
    requires PackedTo(offsets, flat, masks, matrix, reps, next)
    ensures |offsets| == next && RowLaid(offsets + [|flat|], matrix, reps) && flat == FlatRows(matrix, reps, next)
    ensures |masks| == next && MasksHold(masks, matrix, reps)
  {
    hide FlatRows, MaskHolds;
    RowLaidSnoc(offsets, matrix, reps, |flat|);
  }

  // --- the engine -----------------------------------------------------------------------------------------------------

  method AcceptingFlags(rows: seq<RawState>, remap: seq<nat>, n: nat, ghost live: seq<bool>, ghost origin: seq<nat>)
    returns (accepting: seq<bool>)
    requires |live| == |rows| && Renumbers(live, remap, origin) && n == |origin| + 1
    ensures |accepting| == n && !accepting[DEAD]
    ensures forall q :: 0 <= q < |rows| && live[q] ==> accepting[remap[q]] == rows[q].accepting
  {
    accepting := seq(n, _ => false);
    for q := 0 to |rows|
      invariant |accepting| == n && !accepting[DEAD]
      invariant forall p :: 0 <= p < q && live[p] ==> accepting[remap[p]] == rows[p].accepting
    {
      if remap[q] != DEAD {
        accepting := accepting[remap[q] := rows[q].accepting];
        forall p | 0 <= p < q && live[p] ensures remap[p] != remap[q] { RemapInjective(live, remap, origin, p, q); }
      }
    }
  }

  /** The table built from a search is a trimmed refinement of the library's automaton. */
  lemma PackedRefines(d: Dfa, t: Table, rows: seq<RawState>, order: seq<nat>, live: seq<bool>, remap: seq<nat>,
                      origin: seq<nat>, reps: seq<Byte>)
    requires Packing(d, t.members, t.ofByte, reps, rows, order, live, remap, origin)
    requires forall q :: 0 <= q < |rows| ==> (live[q] <==> AcceptsSomething(ByteStates(rows, t.ofByte), q))
    requires |t.accepting| == |origin| + 1 && !t.accepting[DEAD]
    requires forall q :: 0 <= q < |rows| && live[q] ==> t.accepting[remap[q]] == rows[q].accepting
    requires |t.rowOffsets| == |origin| + 2 && RowLaid(t.rowOffsets, PackedMatrix(rows, t.ofByte, remap, origin), reps)
    requires t.edges == FlatRows(PackedMatrix(rows, t.ofByte, remap, origin), reps, |origin| + 1)
    ensures t.WellFormed() && t.Trimmed() && t.From(remap[0]) == d.Language()
    ensures Packed(t, PackedMatrix(rows, t.ofByte, remap, origin), reps, |origin| + 1)
  {
    hide AcceptsSomething, FlatRows, RowLaid, Table.WellFormed, Matrix, ByteEdges, RowsRead, MembersHold, RepsHold, RowsOk, MatrixOk,
         Graph.Accepts, Dfa.Accepts;
    var states, m := ByteStates(rows, t.ofByte), PackedMatrix(rows, t.ofByte, remap, origin);
    ColumnsAgree(d, t.members, t.ofByte, reps, rows, order, live, remap, origin);
    MatrixIsOk(states, live, remap, origin);
    BytesRowsOk(d, t.members, t.ofByte, reps, rows, order);
    CellsInRange(states, live, remap, origin, m);
    DeadCells(states, remap, m);
    PackedWellFormed(t, m, reps, |origin| + 1);
    assert BuiltFrom(t, states, live, remap, origin, m, reps);
    PackedTrimmed(t, states, live, remap, origin, m, reps);
    PackedLanguage(t, states, live, remap, origin, m, reps, 0);
    forall w: Word ensures Graph.Accepts(states, 0, w) <==> d.Accepts(d.start, w) {
      BytesAccept(d, t.members, t.ofByte, reps, rows, order, 0, w);
    }
  }

  /** `bfs_materialize`: the engine accepts what the library's automaton accepts, is trimmed, and counts its residual
      languages. It succeeds exactly when no reachable state quits and both caps hold; a quit state and an exceeded
      cap are told apart by whichever the search meets first. */
  method BfsMaterialize(d: Dfa) returns (r: Result<RefEngine>)
    requires d.Ok()
    ensures r.Ok? ==> r.value.Valid() && r.value.Language() == d.Language()
    ensures r.Ok? <==> !QuitReached(d) && !TooManyStates(d) && !TooManyCells(d)
    ensures r.Err? ==> (r.error == LimitExceeded && (TooManyStates(d) || TooManyCells(d)))
                       || (r.error == Unsupported && QuitReached(d))
  {
    hide QuitReached, TooManyStates, TooManyCells, ClassesOk, RowsRead, Dfa.Ok, Renumbers, FlatRows, RowLaid, MasksHold,
         AcceptsSomething, Table.WellFormed, Table.Trimmed, Packed, PackedMatrix, Dfa.Language, ByteStates, Table.From,
         AllExplored, NoneQuits;
    var members, ofByte, reps := BuildClassTable(d);
    var found, order := Discover(d, reps);
    if found.Err? { return Err(found.error); }
    var rows := found.value;
    NotTooManyStates(d, members, ofByte, reps, rows, order);
    NoQuit(d, members, ofByte, reps, rows, order);
    var live := LiveRows(d, rows, members, ofByte, reps, order);
    var remap, n, origin := RemapLive(live);
    RemapSize(live, remap, origin);
    CellCap(d, members, ofByte, reps, rows, order, live, remap, origin);
    if n * |reps| > MAX_TRANSITION_CELLS { return Err(LimitExceeded); }
    var accepting := AcceptingFlags(rows, remap, n, live, origin);
    var offsets, flat, masks := PackRows(d, rows, remap, live, members, ofByte, reps, order, origin);
    var t := Table(offsets, flat, accepting, members, ofByte);
    PackedRefines(d, t, rows, order, live, remap, origin, reps);
    var residual := Cardinality.ResidualCardinalities(t);
    var e := RefEngine(t, residual, masks, remap[0]);
    MasksAreLive(e, PackedMatrix(rows, ofByte, remap, origin), reps);
    EngineValid(e, live, remap, origin);
    r := Ok(e);
  }

  lemma RemapSize(live: seq<bool>, remap: seq<nat>, origin: seq<nat>)
    requires Renumbers(live, remap, origin)
    ensures |remap| == |live|
  {}

  lemma EngineValid(e: RefEngine, live: seq<bool>, remap: seq<nat>, origin: seq<nat>)
    requires |live| > 0 && Renumbers(live, remap, origin) && e.start == remap[0] && e.StateCount() == |origin| + 1
    requires e.table.WellFormed() && e.table.Trimmed() && e.MasksOk() && |e.residual| == e.StateCount()
    requires forall s :: 0 <= s < e.StateCount() ==> Counting.Counts(e.table.From(s), e.residual[s])
    ensures e.Valid()
  {
    hide Table.WellFormed, Table.Trimmed, RefEngine.MasksOk;
  }
}
