/** The deterministic byte graph every composed automaton passes through before materialization
    (automaton/graph.rs). */
module Graph {
  import opened Outcome
  import opened Languages
  import Bits

  const MAX_GRAPH_STATES: nat := 65536
  const MAX_GRAPH_EDGES: nat := 1048576

  /** One output row of a construction: acceptance and byte-labelled edges. */
  datatype ByteState = ByteState(accepting: bool, edges: seq<(Byte, nat)>)

  /** The target of the first edge labelled `k`. */
  function Lookup<K(==)>(edges: seq<(K, nat)>, k: K): Option<nat> {
    if edges == [] then None
    else if edges[0].0 == k then Some(edges[0].1)
    else Lookup(edges[1..], k)
  }

  /** Acceptance of a table of rows from row `q`, following the first edge for each byte. */
  ghost predicate Accepts(states: seq<ByteState>, q: nat, w: Word)
    decreases |w|
  {
    q < |states| &&
    if w == [] then states[q].accepting
    else match Lookup(states[q].edges, w[0])
      case None => false
      case Some(t) => Accepts(states, t, w[1..])
  }

  ghost function StatesLanguage(states: seq<ByteState>, start: nat): Lang {
    iset w: Word | Accepts(states, start, w)
  }

  ghost predicate Deterministic(edges: seq<(Byte, nat)>) {
    forall i, j :: 0 <= i < j < |edges| ==> edges[i].0 != edges[j].0
  }

  ghost predicate InRange(edges: seq<(Byte, nat)>, n: nat) {
    forall i :: 0 <= i < |edges| ==> edges[i].1 < n
  }

  ghost predicate RowOk(edges: seq<(Byte, nat)>, n: nat) {
    InRange(edges, n) && Deterministic(edges)
  }

  ghost predicate RowsOk(states: seq<ByteState>, upTo: nat)
    requires upTo <= |states|
  {
    forall q :: 0 <= q < upTo ==> RowOk(states[q].edges, |states|)
  }

  ghost predicate Admissible(states: seq<ByteState>, start: nat) {
    && start < |states| <= MAX_GRAPH_STATES
    && |FlatEdges(states)| <= MAX_GRAPH_EDGES
    && RowsOk(states, |states|)
  }

  lemma LookupIsEdge<K>(edges: seq<(K, nat)>, k: K)
    ensures Lookup(edges, k).None? <==> forall i :: 0 <= i < |edges| ==> edges[i].0 != k
    ensures Lookup(edges, k).Some? ==> exists i :: 0 <= i < |edges| && edges[i] == (k, Lookup(edges, k).value)
  {
    if edges != [] {
      LookupIsEdge(edges[1..], k);
      if edges[0].0 != k && Lookup(edges, k).Some? {
        var i :| 0 <= i < |edges[1..]| && edges[1..][i] == (k, Lookup(edges, k).value);
        assert edges[i + 1] == (k, Lookup(edges, k).value);
      }
    }
  }

  /** The same, as membership. */
  lemma LookupIn<K>(edges: seq<(K, nat)>, k: K)
    ensures Lookup(edges, k).Some? ==> (k, Lookup(edges, k).value) in edges
    ensures Lookup(edges, k).None? ==> forall t: nat :: (k, t) !in edges
  {
    LookupIsEdge(edges, k);
  }

  lemma LookupUnique(edges: seq<(Byte, nat)>, i: nat)
    requires i < |edges| && Deterministic(edges)
    ensures Lookup(edges, edges[i].0) == Some(edges[i].1)
  {
    LookupIsEdge(edges, edges[i].0);
  }

  lemma LookupAppend<K>(edges: seq<(K, nat)>, e: (K, nat), k: K)
    ensures Lookup(edges + [e], k) ==
            if Lookup(edges, k).Some? then Lookup(edges, k) else if e.0 == k then Some(e.1) else None
  {
    if edges != [] {
      assert (edges + [e])[1..] == edges[1..] + [e];
      LookupAppend(edges[1..], e, k);
    }
  }

  // --- byte classes and the flattened graph ------------------------------------------------------

  /** A 256-bit set held as four 64-bit words. */
  type ByteClass = seq<nat>

  function Singleton(b: Byte): (c: ByteClass)
    ensures |c| == 4
  {
    [0, 0, 0, 0][b / 64 := Bits.SetBit(0, b % 64)]
  }

  predicate ClassContains(c: ByteClass, b: Byte)
    requires |c| == 4
  {
    Bits.Bit(c[b / 64], b % 64)
  }

  lemma SingletonContains(b: Byte, x: Byte)
    ensures ClassContains(Singleton(b), x) <==> x == b
  {
    Bits.BitOfSetBit(0, b % 64, x % 64);
    Bits.ZeroHasNoBit(x % 64);
  }

  datatype GraphState = GraphState(edgeStart: nat, edgeLen: nat, accepting: bool)
  datatype GraphEdge = GraphEdge(class_: ByteClass, target: nat)
  datatype AutomatonGraph = AutomatonGraph(states: seq<GraphState>, edges: seq<GraphEdge>, start: nat)

  function RowEdges(edges: seq<(Byte, nat)>): (r: seq<GraphEdge>)
    ensures |r| == |edges|
  {
    seq(|edges|, i requires 0 <= i < |edges| => GraphEdge(Singleton(edges[i].0), edges[i].1))
  }

  function FlatEdges(states: seq<ByteState>): seq<GraphEdge> {
    if states == [] then []
    else FlatEdges(states[..|states| - 1]) + RowEdges(states[|states| - 1].edges)
  }

  lemma FlatStep(states: seq<ByteState>, i: nat)
    requires i < |states|
    ensures FlatEdges(states[..i + 1]) == FlatEdges(states[..i]) + RowEdges(states[i].edges)
  {
    assert states[..i + 1][..i] == states[..i];
  }

  lemma FlatSnoc(states: seq<ByteState>, row: ByteState)
    ensures FlatEdges(states + [row]) == FlatEdges(states) + RowEdges(row.edges)
  {
    assert (states + [row])[..|states|] == states;
  }

  lemma FlatNone(states: seq<ByteState>)
    ensures FlatEdges(states[..0]) == []
  {}

  lemma FlatPrefix(states: seq<ByteState>, i: nat)
    requires i <= |states|
    ensures FlatEdges(states[..i]) <= FlatEdges(states)
    decreases |states| - i
  {
    if i < |states| {
      FlatStep(states, i);
      FlatPrefix(states, i + 1);
    } else {
      assert states[..i] == states;
    }
  }

  /** The rows of the graph tile its edge array. */
  ghost predicate Tiled(g: AutomatonGraph) {
    && g.start < |g.states|
    && g.states[0].edgeStart == 0
    && (forall i :: 0 <= i < |g.states| - 1 ==>
          g.states[i + 1].edgeStart == g.states[i].edgeStart + g.states[i].edgeLen)
    && g.states[|g.states| - 1].edgeStart + g.states[|g.states| - 1].edgeLen == |g.edges|
    && (forall k :: 0 <= k < |g.edges| ==> g.edges[k].target < |g.states| && |g.edges[k].class_| == 4)
  }

  function FindEdge(edges: seq<GraphEdge>, b: Byte): Option<nat> {
    if edges == [] then None
    else if |edges[0].class_| == 4 && ClassContains(edges[0].class_, b) then Some(edges[0].target)
    else FindEdge(edges[1..], b)
  }

  function Transition(g: AutomatonGraph, q: nat, b: Byte): Option<nat> {
    if q >= |g.states| then None
    else
      var row := g.states[q];
      if row.edgeStart + row.edgeLen > |g.edges| then None
      else FindEdge(g.edges[row.edgeStart..row.edgeStart + row.edgeLen], b)
  }

  ghost predicate GraphAccepts(g: AutomatonGraph, q: nat, w: Word)
    decreases |w|
  {
    q < |g.states| &&
    if w == [] then g.states[q].accepting
    else match Transition(g, q, w[0])
      case None => false
      case Some(t) => GraphAccepts(g, t, w[1..])
  }

  ghost function GraphLanguage(g: AutomatonGraph): Lang {
    iset w: Word | GraphAccepts(g, g.start, w)
  }

  ghost predicate Represents(g: AutomatonGraph, states: seq<ByteState>) {
    && |g.states| == |states|
    && g.edges == FlatEdges(states)
    && forall i :: 0 <= i < |states| ==>
         g.states[i] == GraphState(|FlatEdges(states[..i])|, |states[i].edges|, states[i].accepting)
  }

  lemma FindEdgeIsLookup(edges: seq<(Byte, nat)>, b: Byte)
    ensures FindEdge(RowEdges(edges), b) == Lookup(edges, b)
  {
    if edges != [] {
      assert RowEdges(edges)[1..] == RowEdges(edges[1..]);
      SingletonContains(edges[0].0, b);
      FindEdgeIsLookup(edges[1..], b);
    }
  }

  lemma RowSlice(g: AutomatonGraph, states: seq<ByteState>, q: nat)
    requires Represents(g, states) && q < |states|
    ensures g.states[q].edgeStart + g.states[q].edgeLen <= |g.edges|
    ensures g.edges[g.states[q].edgeStart..g.states[q].edgeStart + g.states[q].edgeLen] == RowEdges(states[q].edges)
  {
    FlatStep(states, q);
    FlatPrefix(states, q + 1);
  }

  lemma TransitionIsLookup(g: AutomatonGraph, states: seq<ByteState>, q: nat, b: Byte)
    requires Represents(g, states) && q < |states|
    ensures Transition(g, q, b) == Lookup(states[q].edges, b)
  {
    RowSlice(g, states, q);
    FindEdgeIsLookup(states[q].edges, b);
  }

  lemma {:induction false} FlatteningKeepsRuns(g: AutomatonGraph, states: seq<ByteState>, q: nat, w: Word)
    requires Represents(g, states)
    ensures GraphAccepts(g, q, w) <==> Accepts(states, q, w)
    decreases |w|
  {
    if q < |states| && w != [] {
      TransitionIsLookup(g, states, q, w[0]);
      match Lookup(states[q].edges, w[0]) {
        case None =>
        case Some(t) => FlatteningKeepsRuns(g, states, t, w[1..]);
      }
    }
  }

  /** The inner loop: one row, refused at its first repeated byte or out-of-range target. */
  method FlattenRow(row: seq<(Byte, nat)>, n: nat) returns (ok: bool, out: seq<GraphEdge>)
    ensures ok <==> RowOk(row, n)
    ensures ok ==> out == RowEdges(row)
  {
    var seen := new bool[256](_ => false);
    out := [];
    for j := 0 to |row|
      invariant out == RowEdges(row)[..j]
      invariant RowOk(row[..j], n)
      invariant forall b: Byte :: seen[b] <==> exists k :: 0 <= k < j && row[k].0 == b
    {
      var (byte, target) := row[j];
      if target >= n || seen[byte] { return false, []; }
      seen[byte] := true;
      out := out + [GraphEdge(Singleton(byte), target)];
    }
    assert row[..|row|] == row;
    ok := true;
  }

  ghost predicate Laid(graphStates: seq<GraphState>, states: seq<ByteState>)
    requires |graphStates| <= |states|
  {
    forall k :: 0 <= k < |graphStates| ==>
      graphStates[k] == GraphState(|FlatEdges(states[..k])|, |states[k].edges|, states[k].accepting)
  }

  lemma FlatTargets(states: seq<ByteState>, n: nat)
    requires forall q :: 0 <= q < |states| ==> InRange(states[q].edges, n)
    ensures forall k :: 0 <= k < |FlatEdges(states)| ==>
              FlatEdges(states)[k].target < n && |FlatEdges(states)[k].class_| == 4
  {
    if states != [] { FlatTargets(states[..|states| - 1], n); }
  }

  lemma LaidIsTiled(g: AutomatonGraph, states: seq<ByteState>)
    requires Represents(g, states) && RowsOk(states, |states|) && g.start < |states|
    ensures Tiled(g)
  {
    forall i | 0 <= i < |states| - 1
      ensures g.states[i + 1].edgeStart == g.states[i].edgeStart + g.states[i].edgeLen
    {
      FlatStep(states, i);
    }
    FlatStep(states, |states| - 1);
    assert states[..|states|] == states;
    FlatTargets(states, |states|);
  }

  lemma FlatteningKeepsLanguage(g: AutomatonGraph, states: seq<ByteState>)
    requires Represents(g, states)
    ensures GraphLanguage(g) == StatesLanguage(states, g.start)
  {
    forall w: Word ensures GraphAccepts(g, g.start, w) <==> Accepts(states, g.start, w) {
      FlatteningKeepsRuns(g, states, g.start, w);
    }
  }

  method CountEdges(states: seq<ByteState>) returns (total: nat)
    ensures total == |FlatEdges(states)|
  {
    total := 0;
    for i := 0 to |states|
      invariant total == |FlatEdges(states[..i])|
    {
      FlatStep(states, i);
      total := total + |states[i].edges|;
    }
    assert states[..|states|] == states;
  }

  method FlattenRows(states: seq<ByteState>) returns (ok: bool, gs: seq<GraphState>, ge: seq<GraphEdge>)
    ensures ok <==> RowsOk(states, |states|)
    ensures ok ==> |gs| == |states| && Laid(gs, states) && ge == FlatEdges(states)
  {
    hide FlatEdges, RowOk, RowEdges;
    gs, ge := [], [];
    FlatNone(states);
    for i := 0 to |states|
      invariant |gs| == i && RowsOk(states, i)
      invariant ge == FlatEdges(states[..i])
      invariant Laid(gs, states)
    {
      var edgeStart := |ge|;
      var ok', out := FlattenRow(states[i].edges, |states|);
      if !ok' { return false, gs, ge; }
      FlatStep(states, i);
      ge := ge + out;
      gs := gs + [GraphState(edgeStart, |states[i].edges|, states[i].accepting)];
    }
    assert states[..|states|] == states;
    ok := true;
  }

  /** A graph as validation leaves it: the flattening of well-formed rows. */
  ghost predicate Validated(g: AutomatonGraph) {
    Tiled(g) && exists states :: Flattens(g, states)
  }

  ghost predicate Flattens(g: AutomatonGraph, states: seq<ByteState>) {
    Represents(g, states) && RowsOk(states, |states|)
  }

  /** Validates and flattens a table of rows. It succeeds exactly on the admissible tables, and the
      graph accepts what the table accepts. */
  method FromByteStates(states: seq<ByteState>, start: nat) returns (r: Result<AutomatonGraph>)
    ensures r.Ok? <==> Admissible(states, start)
    ensures r.Ok? ==> Validated(r.value) && Flattens(r.value, states) && r.value.start == start
    ensures r.Ok? ==> GraphLanguage(r.value) == StatesLanguage(states, start)
    ensures r.Err? ==> (r.error ==
              if start < |states| && (|states| > MAX_GRAPH_STATES || |FlatEdges(states)| > MAX_GRAPH_EDGES)
              then LimitExceeded else Malformed)
  {
    if |states| == 0 || start >= |states| { return Err(Malformed); }
    if |states| > MAX_GRAPH_STATES { return Err(LimitExceeded); }
    var total := CountEdges(states);
    if total > MAX_GRAPH_EDGES { return Err(LimitExceeded); }
    var ok, graphStates, graphEdges := FlattenRows(states);
    if !ok { return Err(Malformed); }
    var g := AutomatonGraph(graphStates, graphEdges, start);
    LaidIsTiled(g, states);
    FlatteningKeepsLanguage(g, states);
    assert Flattens(g, states);
    r := Ok(g);
  }
}
