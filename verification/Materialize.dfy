/** From a byte graph to the packed engine (automaton/byte_dfa.rs): co-accessibility trimming,
    renumbering with DEAD = 0, byte-class compression and CSR rows. */
module Materialize {
  import opened Outcome
  import opened Languages
  import opened Graph
  import opened Engine
  import Finite
  import Reachability
  import Cardinality

  const MAX_MATERIALIZE_STATES: nat := 65536
  const MAX_TRANSITION_CELLS: nat := 4194304

  // --- trimming -----------------------------------------------------------------------------------

  function EdgeTargets(edges: seq<(Byte, nat)>): (r: seq<nat>)
    ensures |r| == |edges|
  {
    seq(|edges|, i requires 0 <= i < |edges| => edges[i].1)
  }

  function StateRows(states: seq<ByteState>): (rows: seq<seq<nat>>)
    ensures |rows| == |states|
  {
    seq(|states|, q requires 0 <= q < |states| => EdgeTargets(states[q].edges))
  }

  function AcceptFlags(states: seq<ByteState>): (r: seq<bool>)
    ensures |r| == |states|
  {
    seq(|states|, q requires 0 <= q < |states| => states[q].accepting)
  }

  ghost predicate AcceptsSomething(states: seq<ByteState>, q: nat) {
    exists w :: Accepts(states, q, w)
  }

  lemma {:induction false} PathHasWord(states: seq<ByteState>, q: nat, k: nat)
    requires RowsOk(states, |states|) && Reachability.Reaches(StateRows(states), AcceptFlags(states), q, k)
    ensures AcceptsSomething(states, q)
    decreases k
  {
    if k == 0 {
      assert Accepts(states, q, []);
    } else {
      var edges := states[q].edges;
      assert RowOk(edges, |states|);
      var i :| 0 <= i < |edges| && Reachability.Reaches(StateRows(states), AcceptFlags(states), edges[i].1, k - 1);
      PathHasWord(states, edges[i].1, k - 1);
      var w :| Accepts(states, edges[i].1, w);
      LookupUnique(edges, i);
      assert ([edges[i].0] + w)[1..] == w;
      assert Accepts(states, q, [edges[i].0] + w);
    }
  }

  lemma {:induction false} WordHasPath(states: seq<ByteState>, q: nat, w: Word)
    requires Accepts(states, q, w)
    ensures Reachability.Reaches(StateRows(states), AcceptFlags(states), q, |w|)
    decreases |w|
  {
    if w != [] {
      var edges := states[q].edges;
      LookupIsEdge(edges, w[0]);
      var i :| 0 <= i < |edges| && edges[i] == (w[0], Lookup(edges, w[0]).value);
      WordHasPath(states, edges[i].1, w[1..]);
      assert StateRows(states)[q][i] == edges[i].1;
    }
  }

  /** Backward reachability of acceptance is exactly having an accepted word. */
  lemma LiveIffAccepts(states: seq<ByteState>, q: nat)
    requires RowsOk(states, |states|)
    ensures Reachability.CoReachable(StateRows(states), AcceptFlags(states), q) <==> AcceptsSomething(states, q)
  {
    if k: nat :| Reachability.Reaches(StateRows(states), AcceptFlags(states), q, k) {
      PathHasWord(states, q, k);
    }
    if w :| Accepts(states, q, w) { WordHasPath(states, q, w); }
  }

  /** The targets of each row of the flattened graph. */
  function GraphRows(g: AutomatonGraph): (rows: seq<seq<nat>>)
    requires Tiled(g)
    ensures |rows| == |g.states|
  {
    seq(|g.states|, q requires 0 <= q < |g.states| => GraphRow(g, g.states[q]))
  }

  function ClassTargets(edges: seq<GraphEdge>): (r: seq<nat>)
    ensures |r| == |edges|
  {
    seq(|edges|, i requires 0 <= i < |edges| => edges[i].target)
  }

  function GraphRow(g: AutomatonGraph, row: GraphState): seq<nat> {
    if row.edgeStart + row.edgeLen > |g.edges| then []
    else ClassTargets(g.edges[row.edgeStart..row.edgeStart + row.edgeLen])
  }

  lemma GraphRowsAreStateRows(g: AutomatonGraph, states: seq<ByteState>)
    requires Represents(g, states) && Tiled(g)
    ensures GraphRows(g) == StateRows(states)
  {
    forall q | 0 <= q < |states| ensures GraphRow(g, g.states[q]) == EdgeTargets(states[q].edges) {
      RowSlice(g, states, q);
      RowTargets(states[q].edges);
    }
  }

  lemma RowTargets(edges: seq<(Byte, nat)>)
    ensures ClassTargets(RowEdges(edges)) == EdgeTargets(edges)
  {}

  lemma LiveInputs(g: AutomatonGraph, states: seq<ByteState>)
    requires Represents(g, states) && Tiled(g) && RowsOk(states, |states|)
    ensures |g.states| == |states| && Reachability.TargetsBelow(StateRows(states), |states|)
    ensures forall q :: 0 <= q < |states| ==> g.states[q].accepting == states[q].accepting
  {
    forall q | 0 <= q < |states| ensures RowOk(states[q].edges, |states|) {}
  }

  /** `graph_live_states`: exactly the states with an accepted word. */
  method GraphLiveStates(g: AutomatonGraph, ghost states: seq<ByteState>) returns (live: seq<bool>)
    requires Represents(g, states) && Tiled(g) && RowsOk(states, |states|)
    ensures |live| == |states|
    ensures forall q :: 0 <= q < |states| ==> (live[q] <==> AcceptsSomething(states, q))
  {
    hide Represents, Tiled, RowsOk, GraphRow, EdgeTargets, AcceptsSomething, Reachability.Pairs, Reachability.Into,
         Reachability.CoReachable;
    LiveInputs(g, states);
    var rows := GraphRows(g);
    GraphRowsAreStateRows(g, states);
    var offsets, preds := Reachability.ReverseRows(rows, |rows|);
    var rev: seq<seq<nat>> :=
      seq(|rows|, t requires 0 <= t < |rows| => preds[offsets[t]..offsets[t + 1]]);
    var accepting := seq(|g.states|, q requires 0 <= q < |g.states| => g.states[q].accepting);
    assert accepting == AcceptFlags(states);
    live := Reachability.LiveStates(rows, accepting, rev);
    forall q | 0 <= q < |states| ensures live[q] <==> AcceptsSomething(states, q) {
      LiveIffAccepts(states, q);
    }
  }

  // --- renumbering --------------------------------------------------------------------------------

  /** Live states get the ids 1, 2, ... in order; `origin` lists them. */
  ghost predicate Renumbers(live: seq<bool>, remap: seq<nat>, origin: seq<nat>) {
    && |remap| == |live|
    && (forall i :: 0 <= i < |live| ==> (remap[i] != DEAD <==> live[i]))
    && (forall i :: 0 <= i < |live| && live[i] ==> remap[i] <= |origin| && origin[remap[i] - 1] == i)
    && (forall k :: 0 <= k < |origin| ==> origin[k] < |live| && remap[origin[k]] == k + 1)
  }

  lemma RemapInjective(live: seq<bool>, remap: seq<nat>, origin: seq<nat>, p: nat, q: nat)
    requires Renumbers(live, remap, origin) && p < |live| && q < |live| && p != q
    ensures remap[p] == remap[q] ==> remap[p] == DEAD
  {
    if remap[p] != DEAD && remap[q] != DEAD {
      assert origin[remap[p] - 1] == p;
      assert origin[remap[q] - 1] == q;
    }
  }

  method RemapLive(live: seq<bool>) returns (remap: seq<nat>, next: nat, ghost origin: seq<nat>)
    ensures Renumbers(live, remap, origin) && next == |origin| + 1 && |origin| <= |live|
    ensures forall k, l :: 0 <= k < l < |origin| ==> origin[k] < origin[l]
  {
    hide Numbered, Renumbers;
    remap := seq(|live|, _ => DEAD);
    NumberedNone(live, remap);
    next := 1;
    origin := [];
    for i := 0 to |live|
      invariant |remap| == |live| && next == |origin| + 1 && |origin| <= i && Numbered(live, remap, origin, i)
    {
      if live[i] {
        NumberNext(live, remap, origin, i);
        remap := remap[i := next];
        next := next + 1;
        origin := origin + [i];
      } else {
        NumberNone(live, remap, origin, i);
      }
    }
    NumberedAll(live, remap, origin);
  }

  /** The live states below `i` have their ids; `origin` lists them in order. */
  ghost predicate Numbered(live: seq<bool>, remap: seq<nat>, origin: seq<nat>, i: nat) {
    && i <= |remap| == |live|
    && (forall j :: i <= j < |live| ==> remap[j] == DEAD)
    && (forall j :: 0 <= j < i ==> (remap[j] != DEAD <==> live[j]))
    && (forall j :: 0 <= j < i && live[j] ==> remap[j] <= |origin| && origin[remap[j] - 1] == j)
    && (forall k :: 0 <= k < |origin| ==> origin[k] < i && remap[origin[k]] == k + 1)
    && (forall k, l :: 0 <= k < l < |origin| ==> origin[k] < origin[l])
  }

  lemma NumberedNone(live: seq<bool>, remap: seq<nat>)
    requires |remap| == |live| && forall j :: 0 <= j < |remap| ==> remap[j] == DEAD
    ensures Numbered(live, remap, [], 0)
  {}

  lemma NumberNext(live: seq<bool>, remap: seq<nat>, origin: seq<nat>, i: nat)
    requires Numbered(live, remap, origin, i) && i < |live| && live[i]
    ensures Numbered(live, remap[i := |origin| + 1], origin + [i], i + 1)
  {}

  lemma NumberNone(live: seq<bool>, remap: seq<nat>, origin: seq<nat>, i: nat)
    requires Numbered(live, remap, origin, i) && i < |live| && !live[i]
    ensures Numbered(live, remap, origin, i + 1)
  {}

  lemma NumberedAll(live: seq<bool>, remap: seq<nat>, origin: seq<nat>)
    requires Numbered(live, remap, origin, |live|)
    ensures Renumbers(live, remap, origin) && forall k, l :: 0 <= k < l < |origin| ==> origin[k] < origin[l]
  {}

  function Cell(matrix: seq<nat>, s: nat, b: Byte): nat {
    if s * 256 + b < |matrix| then matrix[s * 256 + b] else DEAD
  }

  function Mapped(remap: seq<nat>, t: Option<nat>): nat {
    if t.Some? && t.value < |remap| then remap[t.value] else DEAD
  }

  ghost predicate RowFilled(states: seq<ByteState>, remap: seq<nat>, matrix: seq<nat>, q: nat, upTo: nat)
    requires q < |states| && q < |remap|
  {
    forall b: Byte :: b < upTo ==> Cell(matrix, remap[q], b) == Mapped(remap, Lookup(states[q].edges, b))
  }

  /** One mapped row of the byte matrix, written cell by cell. */
  method FillRow(g: AutomatonGraph, ghost states: seq<ByteState>, remap: seq<nat>, matrix0: seq<nat>, q: nat)
    returns (matrix: seq<nat>)
    requires Represents(g, states) && q < |states| == |remap|
    requires remap[q] * 256 + 256 <= |matrix0|
    ensures |matrix| == |matrix0| && RowFilled(states, remap, matrix, q, 256)
    ensures forall s: nat, b: Byte :: s != remap[q] ==> Cell(matrix, s, b) == Cell(matrix0, s, b)
  {
    matrix := matrix0;
    for byte := 0 to 256
      invariant |matrix| == |matrix0| && RowFilled(states, remap, matrix, q, byte)
      invariant forall s: nat, b: Byte :: s != remap[q] ==> Cell(matrix, s, b) == Cell(matrix0, s, b)
    {
      TransitionIsLookup(g, states, q, byte);
      var target := Mapped(remap, Transition(g, q, byte));
      matrix := matrix[remap[q] * 256 + byte := target];
    }
  }

  ghost predicate MatrixOk(states: seq<ByteState>, remap: seq<nat>, matrix: seq<nat>, upTo: nat)
    requires upTo <= |states| == |remap|
  {
    && (forall q :: 0 <= q < upTo && remap[q] != DEAD ==> RowFilled(states, remap, matrix, q, 256))
    && (forall b: Byte :: Cell(matrix, DEAD, b) == DEAD)
  }

  lemma NoRowsFilled(states: seq<ByteState>, remap: seq<nat>, matrix: seq<nat>)
    requires |states| == |remap| && forall i :: 0 <= i < |matrix| ==> matrix[i] == DEAD
    ensures MatrixOk(states, remap, matrix, 0)
  {}

  method ByteMatrix(g: AutomatonGraph, ghost states: seq<ByteState>, live: seq<bool>, remap: seq<nat>, n: nat,
                    ghost origin: seq<nat>)
    returns (matrix: seq<nat>)
    requires Represents(g, states) && |states| == |remap| && Renumbers(live, remap, origin) && n == |origin| + 1
    ensures |matrix| == n * 256 && MatrixOk(states, remap, matrix, |states|)
  {
    hide Represents, Renumbers, MatrixOk, RowFilled;
    matrix := seq(n * 256, _ => DEAD);
    NoRowsFilled(states, remap, matrix);
    for q := 0 to |remap|
      invariant |matrix| == n * 256 && MatrixOk(states, remap, matrix, q)
    {
      if remap[q] != DEAD {
        ghost var before := matrix;
        RowInside(live, remap, origin, q, n);
        matrix := FillRow(g, states, remap, matrix, q);
        MatrixFills(states, live, remap, origin, before, matrix, q);
      } else {
        MatrixSkips(states, remap, matrix, q);
      }
    }
  }

  lemma MatrixSkips(states: seq<ByteState>, remap: seq<nat>, matrix: seq<nat>, q: nat)
    requires q < |states| == |remap| && remap[q] == DEAD && MatrixOk(states, remap, matrix, q)
    ensures MatrixOk(states, remap, matrix, q + 1)
  {
    hide RowFilled;
  }

  lemma RowInside(live: seq<bool>, remap: seq<nat>, origin: seq<nat>, q: nat, n: nat)
    requires Renumbers(live, remap, origin) && q < |remap| && n == |origin| + 1
    ensures remap[q] * 256 + 256 <= n * 256
  {}

  lemma MatrixFills(states: seq<ByteState>, live: seq<bool>, remap: seq<nat>, origin: seq<nat>, before: seq<nat>, matrix: seq<nat>,
                    q: nat)
    requires q < |states| == |remap| && remap[q] != DEAD && Renumbers(live, remap, origin) && MatrixOk(states, remap, before, q)
    requires RowFilled(states, remap, matrix, q, 256)
    requires forall s: nat, b: Byte :: s != remap[q] ==> Cell(matrix, s, b) == Cell(before, s, b)
    ensures MatrixOk(states, remap, matrix, q + 1)
  {
    hide Cell, Mapped;
    forall p | 0 <= p < q && remap[p] != DEAD ensures RowFilled(states, remap, matrix, p, 256) {
      assert RowFilled(states, remap, before, p, 256);
      RemapInjective(live, remap, origin, p, q);
    }
  }

  // --- byte classes -------------------------------------------------------------------------------

  function Column(matrix: seq<nat>, n: nat, b: Byte): (c: seq<nat>)
    ensures |c| == n
  {
    seq(n, s requires 0 <= s < n => Cell(matrix, s, b))
  }

  /** The bytes of class `c`, ascending, among the first |of| bytes. */
  function MembersOf(of: seq<nat>, c: nat): seq<Byte>
    requires |of| <= 256
  {
    if of == [] then []
    else
      var k := |of| - 1;
      if of[k] == c then MembersOf(of[..k], c) + [k] else MembersOf(of[..k], c)
  }

  lemma MembersSnoc(of: seq<nat>, d: nat, c: nat)
    requires |of| < 256
    ensures MembersOf(of + [d], c) == if d == c then MembersOf(of, c) + [|of|] else MembersOf(of, c)
  {
    assert (of + [d])[..|of|] == of;
  }

  lemma {:induction false} MembersShape(of: seq<nat>, c: nat)
    requires |of| <= 256
    ensures forall i, j :: 0 <= i < j < |MembersOf(of, c)| ==> MembersOf(of, c)[i] < MembersOf(of, c)[j]
    ensures forall b: Byte :: b in MembersOf(of, c) <==> b < |of| && of[b] == c
  {
    if of != [] {
      var front := MembersOf(of[..|of| - 1], c);
      MembersShape(of[..|of| - 1], c);
      forall i | 0 <= i < |front| ensures front[i] < |of| - 1 { assert front[i] in front; }
    }
  }

  ghost predicate MembersHold(members: seq<seq<Byte>>, of: seq<nat>)
    requires |of| <= 256
  {
    forall c :: 0 <= c < |members| ==> members[c] == MembersOf(of, c)
  }

  /** Each class is represented by a byte of its own, and a byte has its representative's column. */
  ghost predicate RepsHold(matrix: seq<nat>, n: nat, reps: seq<Byte>, of: seq<nat>)
    requires |of| <= 256
  {
    && (forall c :: 0 <= c < |reps| ==> reps[c] < |of| && of[reps[c]] == c)
    && (forall b: Byte :: b < |of| ==> of[b] < |reps| && Column(matrix, n, b) == Column(matrix, n, reps[of[b]]))
  }

  ghost predicate KeysHold(matrix: seq<nat>, n: nat, reps: seq<Byte>, signatures: map<seq<nat>, nat>) {
    && (forall g :: g in signatures ==> signatures[g] < |reps| && Column(matrix, n, reps[signatures[g]]) == g)
    && (forall c :: 0 <= c < |reps| ==>
          Column(matrix, n, reps[c]) in signatures && signatures[Column(matrix, n, reps[c])] == c)
  }

  lemma MembersGrow(members: seq<seq<Byte>>, of: seq<nat>, d: nat)
    requires |of| < 256 && d < |members| && MembersHold(members, of)
    ensures MembersHold(members[d := members[d] + [|of|]], of + [d])
  {
    forall c | 0 <= c < |members|
      ensures members[d := members[d] + [|of|]][c] == MembersOf(of + [d], c)
    {
      MembersSnoc(of, d, c);
    }
  }

  method GraphClassTable(matrix: seq<nat>, n: nat)
    returns (members: seq<seq<Byte>>, ofByte: ByteTable, reps: seq<Byte>)
    ensures |members| == |reps| <= 256 && MembersHold(members, ofByte) && RepsHold(matrix, n, reps, ofByte)
    ensures forall c, d :: 0 <= c < d < |reps| ==> Column(matrix, n, reps[c]) != Column(matrix, n, reps[d])
  {
    var signatures: map<seq<nat>, nat> := map[];
    var of: seq<nat> := [];
    members, reps := [], [];
    hide MembersHold, RepsHold, KeysHold, Column;
    NoReps(matrix, n);
    for byte := 0 to 256
      invariant |of| == byte && |members| == |reps|
      invariant MembersHold(members, of) && RepsHold(matrix, n, reps, of) && KeysHold(matrix, n, reps, signatures)
    {
      var signature := Column(matrix, n, byte);
      var class_: nat;
      if signature in signatures {
        class_ := signatures[signature];
        OldSignature(matrix, n, reps, of, signatures);
      } else {
        class_ := |members|;
        NewSignature(matrix, n, members, reps, of, signatures);
        signatures := signatures[signature := class_];
        members := members + [[]];
        reps := reps + [byte];
      }
      MembersGrow(members, of, class_);
      members := members[class_ := members[class_] + [byte]];
      of := of + [class_];
    }
    ofByte := of;
    RepsDistinct(matrix, n, reps, of, signatures);
    Finite.Pigeonhole(reps, 256);
  }

  lemma NoReps(matrix: seq<nat>, n: nat)
    ensures MembersHold([], []) && RepsHold(matrix, n, [], []) && KeysHold(matrix, n, [], map[])
  {}

  lemma OldSignature(matrix: seq<nat>, n: nat, reps: seq<Byte>, of: seq<nat>, signatures: map<seq<nat>, nat>)
    requires |of| < 256 && RepsHold(matrix, n, reps, of) && KeysHold(matrix, n, reps, signatures)
    requires Column(matrix, n, |of|) in signatures
    ensures signatures[Column(matrix, n, |of|)] < |reps|
    ensures RepsHold(matrix, n, reps, of + [signatures[Column(matrix, n, |of|)]])
  {
    hide Column;
  }

  lemma NewSignature(matrix: seq<nat>, n: nat, members: seq<seq<Byte>>, reps: seq<Byte>, of: seq<nat>,
                     signatures: map<seq<nat>, nat>)
    requires |of| < 256 && |members| == |reps| && MembersHold(members, of) && RepsHold(matrix, n, reps, of)
    requires KeysHold(matrix, n, reps, signatures) && Column(matrix, n, |of|) !in signatures
    ensures MembersHold(members + [[]], of) && RepsHold(matrix, n, reps + [|of|], of + [|reps|])
    ensures KeysHold(matrix, n, reps + [|of|], signatures[Column(matrix, n, |of|) := |reps|])
  {
    hide Column;
    NewClassIsEmpty(of, |reps|);
  }

  lemma RepsDistinct(matrix: seq<nat>, n: nat, reps: seq<Byte>, of: seq<nat>, signatures: map<seq<nat>, nat>)
    requires |of| <= 256 && RepsHold(matrix, n, reps, of) && KeysHold(matrix, n, reps, signatures)
    ensures Finite.Distinct(reps)
    ensures forall c, d :: 0 <= c < d < |reps| ==> Column(matrix, n, reps[c]) != Column(matrix, n, reps[d])
  {
    hide Column;
  }

  lemma {:induction false} NewClassIsEmpty(of: seq<nat>, c: nat)
    requires |of| <= 256 && forall b :: 0 <= b < |of| ==> of[b] < c
    ensures MembersOf(of, c) == []
  {
    if of != [] { NewClassIsEmpty(of[..|of| - 1], c); }
  }

  // --- CSR rows -----------------------------------------------------------------------------------

  /** The live edges of one state over the first `k` classes. */
  function ClassRow(matrix: seq<nat>, reps: seq<Byte>, s: nat, k: nat): seq<(nat, nat)>
    requires k <= |reps|
  {
    if k == 0 then []
    else
      var front := ClassRow(matrix, reps, s, k - 1);
      var target := Cell(matrix, s, reps[k - 1]);
      if target != DEAD then front + [(k - 1, target)] else front
  }

  function FlatRows(matrix: seq<nat>, reps: seq<Byte>, n: nat): seq<(nat, nat)> {
    if n == 0 then [] else FlatRows(matrix, reps, n - 1) + ClassRow(matrix, reps, n - 1, |reps|)
  }

  lemma {:induction false} FlatRowsPrefix(matrix: seq<nat>, reps: seq<Byte>, m: nat, n: nat)
    requires m <= n
    ensures FlatRows(matrix, reps, m) <= FlatRows(matrix, reps, n)
    decreases n - m
  {
    if m < n { FlatRowsPrefix(matrix, reps, m, n - 1); }
  }

  ghost predicate RowLaid(offsets: seq<nat>, matrix: seq<nat>, reps: seq<Byte>) {
    forall s :: 0 <= s < |offsets| ==> offsets[s] == |FlatRows(matrix, reps, s)|
  }

  lemma FlatRowsStep(matrix: seq<nat>, reps: seq<Byte>, s: nat)
    ensures FlatRows(matrix, reps, 0) == []
    ensures FlatRows(matrix, reps, s + 1) == FlatRows(matrix, reps, s) + ClassRow(matrix, reps, s, |reps|)
  {}

  lemma RowLaidSnoc(offsets: seq<nat>, matrix: seq<nat>, reps: seq<Byte>, end: nat)
    requires RowLaid(offsets, matrix, reps) && end == |FlatRows(matrix, reps, |offsets|)|
    ensures RowLaid(offsets + [end], matrix, reps)
  {}

  ghost predicate MaskHolds(m: ClassMask, row: seq<(nat, nat)>) {
    MaskFits(m) && forall c :: 0 <= c < 256 ==> (MaskContains(m, c) <==> HasClass(row, c))
  }

  method MaterializeRow(matrix: seq<nat>, reps: seq<Byte>, s: nat, edges0: seq<(nat, nat)>)
    returns (edges: seq<(nat, nat)>, mask: ClassMask)
    requires |reps| <= 256
    ensures edges == edges0 + ClassRow(matrix, reps, s, |reps|)
    ensures MaskHolds(mask, ClassRow(matrix, reps, s, |reps|))
  {
    edges, mask := edges0, EMPTY_MASK;
    forall c: nat | c < 256 ensures !MaskContains(EMPTY_MASK, c) { MaskEmptyContains(c); }
    for class_ := 0 to |reps|
      invariant edges == edges0 + ClassRow(matrix, reps, s, class_)
      invariant MaskHolds(mask, ClassRow(matrix, reps, s, class_))
    {
      var target := Cell(matrix, s, reps[class_]);
      if target != DEAD {
        edges := edges + [(class_, target)];
        forall c: nat | c < 256
          ensures MaskContains(MaskSet(mask, class_), c) <==> c == class_ || MaskContains(mask, c)
        {
          MaskSetContains(mask, class_, c);
        }
        MaskSetFits(mask, class_);
        HasClassAppend(ClassRow(matrix, reps, s, class_), (class_, target));
        mask := MaskSet(mask, class_);
      }
    }
  }

  lemma HasClassAppend(row: seq<(nat, nat)>, e: (nat, nat))
    ensures forall c :: HasClass(row + [e], c) <==> HasClass(row, c) || c == e.0
  {
    var r := row + [e];
    forall c ensures HasClass(r, c) <==> HasClass(row, c) || c == e.0 {
      if HasClass(row, c) {
        var i :| 0 <= i < |row| && row[i].0 == c;
        assert r[i].0 == c;
      }
      if c == e.0 { assert r[|row|].0 == c; }
    }
  }

  ghost predicate MasksHold(masks: seq<ClassMask>, matrix: seq<nat>, reps: seq<Byte>) {
    forall s :: 0 <= s < |masks| ==> MaskHolds(masks[s], ClassRow(matrix, reps, s, |reps|))
  }

  method MaterializeRows(matrix: seq<nat>, reps: seq<Byte>, n: nat)
    returns (offsets: seq<nat>, edges: seq<(nat, nat)>, masks: seq<ClassMask>)
    requires |reps| <= 256
    ensures |offsets| == n + 1 && RowLaid(offsets, matrix, reps) && edges == FlatRows(matrix, reps, n)
    ensures |masks| == n && MasksHold(masks, matrix, reps)
  {
    hide MaskHolds, FlatRows;
    offsets, edges, masks := [], [], [];
    FlatRowsStep(matrix, reps, 0);
    for s := 0 to n
      invariant |offsets| == s && RowLaid(offsets, matrix, reps) && edges == FlatRows(matrix, reps, s)
      invariant |masks| == s && MasksHold(masks, matrix, reps)
    {
      RowLaidSnoc(offsets, matrix, reps, |edges|);
      FlatRowsStep(matrix, reps, s);
      offsets := offsets + [|edges|];
      var mask: ClassMask;
      edges, mask := MaterializeRow(matrix, reps, s, edges);
      masks := masks + [mask];
    }
    RowLaidSnoc(offsets, matrix, reps, |edges|);
    offsets := offsets + [|edges|];
  }

  lemma {:induction false} ClassRowShape(matrix: seq<nat>, reps: seq<Byte>, s: nat, k: nat)
    requires k <= |reps|
    ensures Ascending(ClassRow(matrix, reps, s, k))
    ensures forall i :: 0 <= i < |ClassRow(matrix, reps, s, k)| ==>
              var e := ClassRow(matrix, reps, s, k)[i];
              e.0 < k && e.1 == Cell(matrix, s, reps[e.0]) && e.1 != DEAD
  {
    if k > 0 {
      ClassRowShape(matrix, reps, s, k - 1);
      hide Cell;
      ClassRowStep(matrix, reps, s, k);
    }
  }

  lemma ClassRowStep(matrix: seq<nat>, reps: seq<Byte>, s: nat, k: nat)
    requires 0 < k <= |reps|
    ensures var front := ClassRow(matrix, reps, s, k - 1);
            var target := Cell(matrix, s, reps[k - 1]);
            ClassRow(matrix, reps, s, k) == if target == DEAD then front else front + [(k - 1, target)]
  {}

  lemma {:induction false} ClassRowComplete(matrix: seq<nat>, reps: seq<Byte>, s: nat, k: nat, c: nat)
    requires c < k <= |reps| && Cell(matrix, s, reps[c]) != DEAD
    ensures (c, Cell(matrix, s, reps[c])) in ClassRow(matrix, reps, s, k)
  {
    if c < k - 1 { ClassRowComplete(matrix, reps, s, k - 1, c); }
  }

  /** Scanning a packed row reads the byte matrix at the representative of the class. */
  lemma ScanReadsMatrix(matrix: seq<nat>, reps: seq<Byte>, s: nat, c: nat)
    requires c < |reps|
    ensures Scan(ClassRow(matrix, reps, s, |reps|), c) == Cell(matrix, s, reps[c])
  {
    var row := ClassRow(matrix, reps, s, |reps|);
    ClassRowShape(matrix, reps, s, |reps|);
    if Cell(matrix, s, reps[c]) != DEAD {
      ClassRowComplete(matrix, reps, s, |reps|, c);
      var i :| 0 <= i < |row| && row[i] == (c, Cell(matrix, s, reps[c]));
      ScanFinds(row, i);
    } else {
      ScanMisses(row, c);
    }
  }

  // --- the packed table refines the byte rows -------------------------------------------------------

  /** The pieces the construction hands over. */
  ghost predicate Packed(t: Table, matrix: seq<nat>, reps: seq<Byte>, n: nat) {
    && n > 0 && |t.accepting| == n
    && |t.rowOffsets| == n + 1 && RowLaid(t.rowOffsets, matrix, reps) && t.edges == FlatRows(matrix, reps, n)
    && |t.members| == |reps| <= 256 && MembersHold(t.members, t.ofByte) && RepsHold(matrix, n, reps, t.ofByte)
  }

  lemma PackedOffsets(t: Table, matrix: seq<nat>, reps: seq<Byte>, n: nat)
    requires Packed(t, matrix, reps, n)
    ensures t.OffsetsOk()
  {
    forall i, j | 0 <= i <= j < |t.rowOffsets| ensures t.rowOffsets[i] <= t.rowOffsets[j] {
      FlatRowsPrefix(matrix, reps, i, j);
    }
  }

  lemma PackedClasses(t: Table, matrix: seq<nat>, reps: seq<Byte>, n: nat)
    requires Packed(t, matrix, reps, n)
    ensures t.ClassesOk()
  {
    forall c | 0 <= c < |t.members| ensures t.IsClass(t.members[c], c) {
      MembersShape(t.ofByte, c);
      assert reps[c] in MembersOf(t.ofByte, c);
    }
  }

  lemma PackedRow(t: Table, matrix: seq<nat>, reps: seq<Byte>, n: nat, s: nat)
    requires Packed(t, matrix, reps, n) && s < n
    ensures t.Row(s) == ClassRow(matrix, reps, s, |reps|)
  {
    hide MembersHold, RepsHold, FlatRows, ClassRow;
    FlatRowsSlice(matrix, reps, s, n);
  }

  lemma FlatRowsSlice(matrix: seq<nat>, reps: seq<Byte>, s: nat, n: nat)
    requires s < n
    ensures |FlatRows(matrix, reps, s)| <= |FlatRows(matrix, reps, s + 1)| <= |FlatRows(matrix, reps, n)|
    ensures FlatRows(matrix, reps, n)[|FlatRows(matrix, reps, s)|..|FlatRows(matrix, reps, s + 1)|]
            == ClassRow(matrix, reps, s, |reps|)
  {
    hide FlatRows, ClassRow;
    FlatRowsPrefix(matrix, reps, s + 1, n);
    FlatRowsStep(matrix, reps, s);
    SliceOfPrefix(FlatRows(matrix, reps, s), ClassRow(matrix, reps, s, |reps|), FlatRows(matrix, reps, n));
  }

  lemma SliceOfPrefix(front: seq<(nat, nat)>, row: seq<(nat, nat)>, all: seq<(nat, nat)>)
    requires front + row <= all
    ensures all[|front|..|front + row|] == row
  {
    assert all[..|front + row|] == front + row;
  }

  /** The packed step is the byte matrix. */
  lemma PackedNext(t: Table, matrix: seq<nat>, reps: seq<Byte>, n: nat, s: nat, b: Byte)
    requires Packed(t, matrix, reps, n) && s < n
    ensures t.Next(s, b) == Cell(matrix, s, b)
  {
    PackedRow(t, matrix, reps, n, s);
    var c := t.ofByte[b];
    ScanReadsMatrix(matrix, reps, s, c);
    assert Column(matrix, n, b)[s] == Column(matrix, n, reps[c])[s];
  }

  lemma {:induction false} EmptyClassRow(matrix: seq<nat>, reps: seq<Byte>, s: nat, k: nat)
    requires k <= |reps| && forall b: Byte :: Cell(matrix, s, b) == DEAD
    ensures ClassRow(matrix, reps, s, k) == []
  {
    if k > 0 { EmptyClassRow(matrix, reps, s, k - 1); }
  }

  lemma PackedWellFormed(t: Table, matrix: seq<nat>, reps: seq<Byte>, n: nat)
    requires Packed(t, matrix, reps, n) && !t.accepting[DEAD]
    requires forall s: nat, b: Byte :: Cell(matrix, s, b) < n
    requires forall b: Byte :: Cell(matrix, DEAD, b) == DEAD
    ensures t.WellFormed()
  {
    PackedOffsets(t, matrix, reps, n);
    PackedClasses(t, matrix, reps, n);
    forall s: nat | s < n ensures t.RowOk(t.Row(s)) {
      PackedRow(t, matrix, reps, n, s);
      ClassRowShape(matrix, reps, s, |reps|);
    }
    PackedRow(t, matrix, reps, n, DEAD);
    EmptyClassRow(matrix, reps, DEAD, |reps|);
  }

  /** Everything known about a table built from `states`. */
  ghost predicate BuiltFrom(t: Table, states: seq<ByteState>, live: seq<bool>, remap: seq<nat>, origin: seq<nat>,
                            matrix: seq<nat>, reps: seq<Byte>)
  {
    && |live| == |states| && RowsOk(states, |states|)
    && (forall q :: 0 <= q < |states| ==> (live[q] <==> AcceptsSomething(states, q)))
    && Renumbers(live, remap, origin)
    && MatrixOk(states, remap, matrix, |states|)
    && Packed(t, matrix, reps, |origin| + 1)
    && (forall q :: 0 <= q < |states| && live[q] ==> t.accepting[remap[q]] == states[q].accepting)
    && t.WellFormed()
  }

  lemma {:induction false} PackedAccepts(t: Table, states: seq<ByteState>, live: seq<bool>, remap: seq<nat>,
                                         origin: seq<nat>, matrix: seq<nat>, reps: seq<Byte>, q: nat, w: Word)
    requires BuiltFrom(t, states, live, remap, origin, matrix, reps) && q < |states| && live[q]
    ensures t.Accepts(remap[q], w) <==> Accepts(states, q, w)
    decreases |w|
  {
    if w != [] {
      PackedNext(t, matrix, reps, |origin| + 1, remap[q], w[0]);
      assert RowFilled(states, remap, matrix, q, 256);
      match Lookup(states[q].edges, w[0]) {
        case None => t.DeadIsSink(w[1..]);
        case Some(p) =>
          LookupIsEdge(states[q].edges, w[0]);
          assert RowOk(states[q].edges, |states|);
          if live[p] {
            PackedAccepts(t, states, live, remap, origin, matrix, reps, p, w[1..]);
          } else {
            t.DeadIsSink(w[1..]);
            assert !AcceptsSomething(states, p);
          }
      }
    }
  }

  lemma PackedLive(t: Table, states: seq<ByteState>, live: seq<bool>, remap: seq<nat>,
                   origin: seq<nat>, matrix: seq<nat>, reps: seq<Byte>, q: nat)
    requires BuiltFrom(t, states, live, remap, origin, matrix, reps) && q < |states| && live[q]
    ensures t.Live(remap[q])
  {
    assert AcceptsSomething(states, q);
    var w :| Accepts(states, q, w);
    PackedAccepts(t, states, live, remap, origin, matrix, reps, q, w);
  }

  lemma PackedTrimmed(t: Table, states: seq<ByteState>, live: seq<bool>, remap: seq<nat>,
                      origin: seq<nat>, matrix: seq<nat>, reps: seq<Byte>)
    requires BuiltFrom(t, states, live, remap, origin, matrix, reps)
    ensures t.Trimmed()
  {
    forall s | 1 <= s < |t.accepting| ensures t.Live(s) {
      var q := origin[s - 1];
      assert remap[q] == s;
      PackedLive(t, states, live, remap, origin, matrix, reps, q);
    }
  }

  lemma PackedLanguage(t: Table, states: seq<ByteState>, live: seq<bool>, remap: seq<nat>,
                       origin: seq<nat>, matrix: seq<nat>, reps: seq<Byte>, q: nat)
    requires BuiltFrom(t, states, live, remap, origin, matrix, reps) && q < |states|
    ensures t.From(remap[q]) == StatesLanguage(states, q)
  {
    forall w: Word ensures t.Accepts(remap[q], w) <==> Accepts(states, q, w) {
      if live[q] {
        PackedAccepts(t, states, live, remap, origin, matrix, reps, q, w);
      } else {
        t.DeadIsSink(w);
        assert !AcceptsSomething(states, q);
      }
    }
  }

  method AcceptingRow(g: AutomatonGraph, ghost states: seq<ByteState>, live: seq<bool>, remap: seq<nat>, n: nat,
                      ghost origin: seq<nat>)
    returns (accepting: seq<bool>)
    requires Represents(g, states) && |states| == |live| && Renumbers(live, remap, origin) && n == |origin| + 1
    ensures |accepting| == n && !accepting[DEAD]
    ensures forall q :: 0 <= q < |states| && live[q] ==> accepting[remap[q]] == states[q].accepting
  {
    hide FlatEdges;
    accepting := seq(n, _ => false);
    for source := 0 to |remap|
      invariant |accepting| == n && !accepting[DEAD]
      invariant forall q :: 0 <= q < source && live[q] ==> accepting[remap[q]] == states[q].accepting
    {
      if remap[source] != DEAD {
        accepting := accepting[remap[source] := g.states[source].accepting];
        forall q | 0 <= q < source && live[q] ensures remap[q] != remap[source] {
          RemapInjective(live, remap, origin, q, source);
        }
      }
    }
  }

  lemma CellsInRange(states: seq<ByteState>, live: seq<bool>, remap: seq<nat>, origin: seq<nat>, matrix: seq<nat>)
    requires |states| == |live| && Renumbers(live, remap, origin)
    requires |matrix| == (|origin| + 1) * 256 && MatrixOk(states, remap, matrix, |states|)
    ensures forall s: nat, b: Byte :: Cell(matrix, s, b) < |origin| + 1
  {
    forall s: nat, b: Byte ensures Cell(matrix, s, b) < |origin| + 1 {
      if s != DEAD && s <= |origin| {
        assert RowFilled(states, remap, matrix, origin[s - 1], 256);
      }
    }
  }

  lemma MasksAreLive(e: RefEngine, matrix: seq<nat>, reps: seq<Byte>)
    requires Packed(e.table, matrix, reps, e.StateCount())
    requires |e.liveClasses| == e.StateCount() && MasksHold(e.liveClasses, matrix, reps)
    ensures e.MasksOk()
  {
    forall s, c | 0 <= s < e.StateCount() && 0 <= c < 256
      ensures MaskFits(e.liveClasses[s])
      ensures MaskContains(e.liveClasses[s], c) <==> HasClass(e.table.Row(s), c)
    {
      PackedRow(e.table, matrix, reps, e.StateCount(), s);
      assert MaskHolds(e.liveClasses[s], ClassRow(matrix, reps, s, |reps|));
    }
    forall s | 0 <= s < e.StateCount() ensures MaskFits(e.liveClasses[s]) {
      assert MaskHolds(e.liveClasses[s], ClassRow(matrix, reps, s, |reps|));
    }
  }

  lemma PackInputs(g: AutomatonGraph, states: seq<ByteState>)
    requires Tiled(g) && Represents(g, states)
    ensures |g.states| == |states| && g.start < |states|
  {}

  lemma Scaled(x: nat, y: nat, k: nat)
    ensures x <= y ==> x * k <= y * k
  {}

  // --- the size of the result ---------------------------------------------------------------------------

  ghost function LiveSet(states: seq<ByteState>): set<nat> {
    set q: nat | q < |states| && AcceptsSomething(states, q)
  }

  /** Where one byte leads from one live state, dead targets left out. */
  ghost function LiveMove(states: seq<ByteState>, q: nat, b: Byte): Option<nat>
    requires q < |states|
  {
    var t := Lookup(states[q].edges, b);
    if AcceptsSomething(states, q) && t.Some? && t.value < |states| && AcceptsSomething(states, t.value) then t else None
  }

  ghost function LiveColumn(states: seq<ByteState>, b: Byte): (c: seq<Option<nat>>)
    ensures |c| == |states|
  {
    seq(|states|, q requires 0 <= q < |states| => LiveMove(states, q, b))
  }

  /** Bytes fall into one class when they lead every live state to the same place. */
  ghost function ByteClasses(states: seq<ByteState>): set<seq<Option<nat>>> {
    set b: Byte | 0 <= b < 256 :: LiveColumn(states, b)
  }

  /** The transition cells of the trimmed engine: the live states and DEAD, times the byte classes. */
  ghost function Cells(states: seq<ByteState>): nat {
    (|LiveSet(states)| + 1) * |ByteClasses(states)|
  }

  lemma LiveCounted(states: seq<ByteState>, live: seq<bool>, remap: seq<nat>, origin: seq<nat>)
    requires |live| == |states| && Renumbers(live, remap, origin)
    requires forall q :: 0 <= q < |states| ==> (live[q] <==> AcceptsSomething(states, q))
    ensures |LiveSet(states)| == |origin|
  {
    hide AcceptsSomething;
    assert Finite.Distinct(origin) by {
      forall i, j | 0 <= i < j < |origin| ensures origin[i] != origin[j] { assert remap[origin[i]] == i + 1; }
    }
    Finite.DistinctElements(origin);
    forall q: nat ensures q in LiveSet(states) <==> q in origin {
      if q in LiveSet(states) { assert origin[remap[q] - 1] == q; }
      if q in origin {
        var k :| 0 <= k < |origin| && origin[k] == q;
        assert remap[q] == k + 1;
      }
    }
    assert LiveSet(states) == set x: nat | x in origin;
  }

  /** Equal matrix columns are equal moves of the live states. */
  lemma ColumnsAreMoves(states: seq<ByteState>, live: seq<bool>, remap: seq<nat>, origin: seq<nat>, matrix: seq<nat>,
                        b: Byte, c: Byte)
    requires |live| == |states| && Renumbers(live, remap, origin) && MatrixOk(states, remap, matrix, |states|)
    requires forall q :: 0 <= q < |states| ==> (live[q] <==> AcceptsSomething(states, q))
    ensures Column(matrix, |origin| + 1, b) == Column(matrix, |origin| + 1, c) <==> LiveColumn(states, b) == LiveColumn(states, c)
  {
    assert |remap| == |live|;
    hide AcceptsSomething, Cell, Lookup, Renumbers;
    var n := |origin| + 1;
    if Column(matrix, n, b) == Column(matrix, n, c) {
      forall q: nat | q < |states| ensures LiveMove(states, q, b) == LiveMove(states, q, c) {
        if live[q] {
          RowOfLive(live, remap, origin, q);
          assert Column(matrix, n, b)[remap[q]] == Column(matrix, n, c)[remap[q]];
          MoveIsCell(states, live, remap, origin, matrix, q, b);
          MoveIsCell(states, live, remap, origin, matrix, q, c);
          SameMapped(states, live, remap, origin, LiveMove(states, q, b), LiveMove(states, q, c));
        }
      }
    }
    if LiveColumn(states, b) == LiveColumn(states, c) {
      forall s: nat | s < n ensures Cell(matrix, s, b) == Cell(matrix, s, c) {
        if s > 0 {
          var q := origin[s - 1];
          LiveOfRow(live, remap, origin, s);
          MoveIsCell(states, live, remap, origin, matrix, q, b);
          MoveIsCell(states, live, remap, origin, matrix, q, c);
          assert LiveColumn(states, b)[q] == LiveColumn(states, c)[q];
        } else {
          DeadCells(states, remap, matrix);
        }
      }
    }
  }

  lemma RowOfLive(live: seq<bool>, remap: seq<nat>, origin: seq<nat>, q: nat)
    requires Renumbers(live, remap, origin) && q < |live| && live[q]
    ensures q < |remap| && 0 < remap[q] <= |origin|
  {}

  lemma LiveOfRow(live: seq<bool>, remap: seq<nat>, origin: seq<nat>, s: nat)
    requires Renumbers(live, remap, origin) && 0 < s <= |origin|
    ensures origin[s - 1] < |live| == |remap| && live[origin[s - 1]] && remap[origin[s - 1]] == s
  {}

  /** The id a move leads to, DEAD for none. */
  ghost function MoveId(remap: seq<nat>, t: Option<nat>): nat {
    if t.Some? && t.value < |remap| then remap[t.value] else DEAD
  }

  lemma MoveIsCell(states: seq<ByteState>, live: seq<bool>, remap: seq<nat>, origin: seq<nat>, matrix: seq<nat>, q: nat, b: Byte)
    requires |live| == |states| && Renumbers(live, remap, origin) && MatrixOk(states, remap, matrix, |states|)
    requires forall p :: 0 <= p < |states| ==> (live[p] <==> AcceptsSomething(states, p))
    requires q < |states| && live[q]
    ensures q < |remap| && Cell(matrix, remap[q], b) == MoveId(remap, LiveMove(states, q, b))
  {
    hide AcceptsSomething, Cell, Lookup;
    assert RowFilled(states, remap, matrix, q, 256);
  }

  lemma SameMapped(states: seq<ByteState>, live: seq<bool>, remap: seq<nat>, origin: seq<nat>, s: Option<nat>, t: Option<nat>)
    requires |live| == |states| && Renumbers(live, remap, origin) && MoveId(remap, s) == MoveId(remap, t)
    requires (s.Some? ==> s.value < |live| && live[s.value]) && (t.Some? ==> t.value < |live| && live[t.value])
    ensures s == t
  {
    if s.Some? && t.Some? && s.value != t.value { RemapInjective(live, remap, origin, s.value, t.value); }
  }

  lemma ClassesCounted(states: seq<ByteState>, live: seq<bool>, remap: seq<nat>, origin: seq<nat>, matrix: seq<nat>,
                       reps: seq<Byte>, of: ByteTable)
    requires |live| == |states| && Renumbers(live, remap, origin) && MatrixOk(states, remap, matrix, |states|)
    requires forall q :: 0 <= q < |states| ==> (live[q] <==> AcceptsSomething(states, q))
    requires RepsHold(matrix, |origin| + 1, reps, of)
    requires forall c, d :: 0 <= c < d < |reps| ==>
               Column(matrix, |origin| + 1, reps[c]) != Column(matrix, |origin| + 1, reps[d])
    ensures |ByteClasses(states)| == |reps|
  {
    hide AcceptsSomething, Column, LiveColumn, Renumbers, MatrixOk;
    var columns := seq(|reps|, c requires 0 <= c < |reps| => LiveColumn(states, reps[c]));
    assert Finite.Distinct(columns) by {
      forall c, d | 0 <= c < d < |columns| ensures columns[c] != columns[d] {
        ColumnsAreMoves(states, live, remap, origin, matrix, reps[c], reps[d]);
      }
    }
    Finite.DistinctElements(columns);
    forall b: Byte ensures LiveColumn(states, b) in columns {
      var c := of[b];
      ColumnsAreMoves(states, live, remap, origin, matrix, b, reps[c]);
      assert columns[c] == LiveColumn(states, reps[c]);
    }
    assert ByteClasses(states) == set x | x in columns;
  }

  /** A table under 2^14 states has room for all its cells. */
  lemma SmallCells(states: seq<ByteState>)
    ensures |LiveSet(states)| <= |states|
    ensures Cells(states) > MAX_TRANSITION_CELLS ==> |states| >= 16384
  {
    hide AcceptsSomething, LiveColumn;
    assert LiveSet(states) <= Finite.Below(|states|);
    Finite.SubsetSize(LiveSet(states), Finite.Below(|states|));
    AtMostAllBytes(states);
    if Cells(states) > MAX_TRANSITION_CELLS { CellsNeedStates(|LiveSet(states)| + 1, |ByteClasses(states)|); }
  }

  lemma AtMostAllBytes(states: seq<ByteState>)
    ensures |ByteClasses(states)| <= 256
  {
    hide LiveColumn;
    ImageSize(states, 256);
    ImageIsAll(states);
  }

  lemma ImageIsAll(states: seq<ByteState>)
    ensures ByteClasses(states) == Image(states, 256)
  {
    hide LiveColumn;
    ImageSize(states, 256);
  }

  ghost function Image(states: seq<ByteState>, k: nat): set<seq<Option<nat>>>
    requires k <= 256
  {
    if k == 0 then {} else Image(states, k - 1) + {LiveColumn(states, (k - 1) as Byte)}
  }

  lemma {:induction false} ImageSize(states: seq<ByteState>, k: nat)
    requires k <= 256
    ensures |Image(states, k)| <= k
    ensures forall c :: c in Image(states, k) <==> exists b: Byte :: b < k && c == LiveColumn(states, b)
  {
    hide LiveColumn;
    if k > 0 {
      ImageSize(states, k - 1);
      var b: Byte := k - 1;
      assert LiveColumn(states, b) in Image(states, k);
    }
  }

  /** Only 2^14 states and more can trip the cell cap. */
  lemma CellsNeedStates(n: nat, classes: nat)
    requires classes <= 256 && n * classes > MAX_TRANSITION_CELLS
    ensures n > 16384
  {
    Scaled(n, 16384, classes);
  }

  lemma StartRemapped(live: seq<bool>, remap: seq<nat>, origin: seq<nat>, start: nat)
    requires Renumbers(live, remap, origin) && start < |live|
    ensures |remap| == |live| && remap[start] <= |origin|
  {}

  lemma DeadCells(states: seq<ByteState>, remap: seq<nat>, matrix: seq<nat>)
    requires |states| == |remap| && MatrixOk(states, remap, matrix, |states|)
    ensures forall b: Byte :: Cell(matrix, DEAD, b) == DEAD
  {}

  /** The whole pipeline on a table of rows. Its size is that of the live part, and only the caps refuse it. */
  method PackRows(g: AutomatonGraph, ghost states: seq<ByteState>) returns (r: Result<RefEngine>)
    requires Tiled(g) && Represents(g, states) && RowsOk(states, |states|)
    ensures r.Ok? ==> r.value.Valid() && r.value.Language() == StatesLanguage(states, g.start)
    ensures r.Ok? ==> r.value.StateCount() == |LiveSet(states)| + 1 && r.value.ClassCount() == |ByteClasses(states)|
    ensures r.Err? ==> r.error == LimitExceeded
    ensures r.Ok? <==> |states| <= MAX_MATERIALIZE_STATES && Cells(states) <= MAX_TRANSITION_CELLS
  {
    hide Represents, MatrixOk, RepsHold, MembersHold, RowLaid, MasksHold, FlatRows, AcceptsSomething, RowsOk, Renumbers,
         StatesLanguage, Table.WellFormed, Table.Trimmed, RefEngine.MasksOk, Column, LiveSet, ByteClasses, MembersOf;
    PackInputs(g, states);
    if |g.states| > MAX_MATERIALIZE_STATES { return Err(LimitExceeded); }
    var live := GraphLiveStates(g, states);
    var remap, n, origin := RemapLive(live);
    StartRemapped(live, remap, origin, g.start);
    var matrix := ByteMatrix(g, states, live, remap, n, origin);
    var members, ofByte, reps := GraphClassTable(matrix, n);
    LiveCounted(states, live, remap, origin);
    ClassesCounted(states, live, remap, origin, matrix, reps, ofByte);
    if n * |members| > MAX_TRANSITION_CELLS { return Err(LimitExceeded); }
    var accepting := AcceptingRow(g, states, live, remap, n, origin);
    var offsets, edges, masks := MaterializeRows(matrix, reps, n);
    var start := remap[g.start];
    var t := Table(offsets, edges, accepting, members, ofByte);
    CellsInRange(states, live, remap, origin, matrix);
    DeadCells(states, remap, matrix);
    PackedWellFormed(t, matrix, reps, n);
    PackedTrimmed(t, states, live, remap, origin, matrix, reps);
    PackedLanguage(t, states, live, remap, origin, matrix, reps, g.start);
    var residual := Cardinality.ResidualCardinalities(t);
    var e := RefEngine(t, residual, masks, start);
    MasksAreLive(e, matrix, reps);
    r := Ok(e);
  }

  /** The rows behind a validated graph. */
  ghost function RowsOf(g: AutomatonGraph): (states: seq<ByteState>)
    requires Validated(g)
    ensures Flattens(g, states)
  {
    var states :| Flattens(g, states);
    states
  }

  /** The live states of the graph and DEAD, times its byte classes, exceed the cell cap. */
  ghost predicate Crowded(g: AutomatonGraph)
    requires Validated(g)
  {
    Cells(RowsOf(g)) > MAX_TRANSITION_CELLS
  }

  lemma SmallGraph(g: AutomatonGraph)
    requires Validated(g) && |g.states| < 16384
    ensures !Crowded(g)
  {
    FlattenedSize(g, RowsOf(g));
    SmallCells(RowsOf(g));
  }

  /** Materializes a validated graph: the engine accepts the graph's language, is trimmed, and carries
      exact residual counts. Only the cell cap refuses a graph, and never one under 2^14 states. */
  method GraphToEngine(g: AutomatonGraph) returns (r: Result<RefEngine>)
    requires Validated(g)
    ensures r.Ok? ==> r.value.Valid() && r.value.Language() == GraphLanguage(g)
    ensures r.Ok? ==> r.value.StateCount() * r.value.ClassCount() == Cells(RowsOf(g)) && r.value.StateCount() <= |g.states| + 1
    ensures r.Err? ==> r.error == LimitExceeded && |g.states| >= 16384
    ensures r.Ok? <==> |g.states| <= MAX_MATERIALIZE_STATES && !Crowded(g)
  {
    hide RefEngine.Valid, ByteClasses;
    ghost var states := RowsOf(g);
    FlatteningKeepsLanguage(g, states);
    FlattenedSize(g, states);
    SmallCells(states);
    r := PackRows(g, states);
  }

  /** The cells are those of the graph, whichever rows it was flattened from. */
  lemma SameCells(g: AutomatonGraph, s: seq<ByteState>, t: seq<ByteState>)
    requires Represents(g, s) && Represents(g, t)
    ensures Cells(s) == Cells(t)
  {
    hide Represents, Accepts, GraphAccepts, Transition, Lookup;
    SameCount(g, s, t);
    forall q: nat ensures AcceptsSomething(s, q) <==> AcceptsSomething(t, q) {
      forall w: Word ensures Accepts(s, q, w) <==> Accepts(t, q, w) {
        FlatteningKeepsRuns(g, s, q, w);
        FlatteningKeepsRuns(g, t, q, w);
      }
    }
    hide AcceptsSomething;
    assert LiveSet(s) == LiveSet(t);
    forall b: Byte ensures LiveColumn(s, b) == LiveColumn(t, b) {
      forall q: nat | q < |s| ensures LiveMove(s, q, b) == LiveMove(t, q, b) {
        TransitionIsLookup(g, s, q, b);
        TransitionIsLookup(g, t, q, b);
      }
    }
    hide LiveColumn;
    assert ByteClasses(s) == ByteClasses(t);
  }

  lemma SameCount(g: AutomatonGraph, s: seq<ByteState>, t: seq<ByteState>)
    requires Represents(g, s) && Represents(g, t)
    ensures |s| == |t| == |g.states|
  {}

  lemma FlattenedSize(g: AutomatonGraph, states: seq<ByteState>)
    requires Validated(g) && Flattens(g, states)
    ensures |g.states| == |states|
  {}

  /** `RefEngine::from_graph(&AutomatonGraph::from_byte_states(..))`, the last step of every builder. */
  method StatesToEngine(states: seq<ByteState>, start: nat) returns (r: Result<RefEngine>)
    ensures r.Ok? <==> Admissible(states, start) && Cells(states) <= MAX_TRANSITION_CELLS
    ensures r.Ok? ==> r.value.Valid() && r.value.Language() == StatesLanguage(states, start)
    ensures r.Ok? ==> r.value.StateCount() == |LiveSet(states)| + 1 <= |states| + 1
    ensures r.Ok? ==> r.value.ClassCount() == |ByteClasses(states)|
    ensures Admissible(states, start) && |states| < 16384 ==> r.Ok?
    ensures Admissible(states, start) && r.Err? ==> r.error == LimitExceeded
  {
    hide LiveSet, ByteClasses;
    var graph := FromByteStates(states, start);
    if graph.Err? { return Err(graph.error); }
    SmallCells(states);
    r := PackRows(graph.value, states);
  }
}
