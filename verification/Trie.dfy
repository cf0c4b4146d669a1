/** The prefix trees that collect finite string sets (automaton/graph.rs): bytes in `ByteTrie`, Unicode
    scalars in `DecodedTrie`. */
module Trie {
  import opened Outcome
  import opened Languages
  import opened Graph
  import Finite

  datatype Node<S> = Node(edges: seq<(S, nat)>, accepting: bool)

  /** The node that spells `v` below `from`. */
  ghost function Descend<S>(nodes: seq<Node<S>>, from: nat, v: seq<S>): Option<nat>
    decreases |v|
  {
    if v == [] then Some(from)
    else if from >= |nodes| then None
    else match Lookup(nodes[from].edges, v[0])
      case None => None
      case Some(t) => Descend(nodes, t, v[1..])
  }

  ghost predicate Contains<S>(nodes: seq<Node<S>>, v: seq<S>) {
    match Descend(nodes, 0, v)
    case None => false
    case Some(t) => t < |nodes| && nodes[t].accepting
  }

  ghost predicate EdgesSpell<S(!new)>(edges: seq<(S, nat)>, paths: seq<seq<S>>, path: seq<S>) {
    && (forall s, t: nat :: (s, t) in edges ==> t < |paths| && paths[t] == path + [s])
    && forall i, j :: 0 <= i < j < |edges| ==> edges[i].0 != edges[j].0
  }

  /** Every node is reached by exactly one string: its path. */
  ghost predicate Labelled<S(!new)>(nodes: seq<Node<S>>, paths: seq<seq<S>>) {
    && |paths| == |nodes| > 0 && paths[0] == []
    && (forall i :: 0 <= i < |nodes| ==> Descend(nodes, 0, paths[i]) == Some(i))
    && forall i :: 0 <= i < |nodes| ==> EdgesSpell(nodes[i].edges, paths, paths[i])
  }

  lemma {:induction false} DescendPath<S(!new)>(nodes: seq<Node<S>>, paths: seq<seq<S>>, from: nat, v: seq<S>)
    requires Labelled(nodes, paths) && from < |nodes|
    ensures match Descend(nodes, from, v)
            case None => true
            case Some(t) => t < |nodes| && paths[t] == paths[from] + v
    decreases |v|
  {
    if v == [] {
      assert paths[from] + v == paths[from];
    } else {
      LookupIn(nodes[from].edges, v[0]);
      assert EdgesSpell(nodes[from].edges, paths, paths[from]);
      match Lookup(nodes[from].edges, v[0]) {
        case None =>
        case Some(t) =>
          DescendPath(nodes, paths, t, v[1..]);
          assert paths[from] + [v[0]] + v[1..] == paths[from] + v;
      }
    }
  }

  lemma {:induction false} DescendJoin<S>(nodes: seq<Node<S>>, from: nat, u: seq<S>, v: seq<S>)
    ensures Descend(nodes, from, u + v) ==
            match Descend(nodes, from, u) case None => None case Some(m) => Descend(nodes, m, v)
    decreases |u|
  {
    if u == [] {
      assert u + v == v;
    } else if from < |nodes| {
      assert (u + v)[1..] == u[1..] + v;
      match Lookup(nodes[from].edges, u[0]) {
        case None =>
        case Some(t) => DescendJoin(nodes, t, u[1..], v);
      }
    }
  }

  // --- the prefixes of a list ----------------------------------------------------------------------------

  ghost predicate IsPrefix<S(!new)>(values: seq<seq<S>>, v: seq<S>) {
    v == [] || exists k :: 0 <= k < |values| && v <= values[k]
  }

  ghost predicate ArePrefixes<S(!new)>(values: seq<seq<S>>, vs: seq<seq<S>>) {
    forall i :: 0 <= i < |vs| ==> IsPrefix(values, vs[i])
  }

  /** A tree for the list needs more nodes than a graph may have states. */
  ghost predicate TooManyPrefixes<S(!new)>(values: seq<seq<S>>) {
    exists vs: seq<seq<S>> :: Finite.Distinct(vs) && ArePrefixes(values, vs) && |vs| > MAX_GRAPH_STATES
  }

  lemma PathsDistinct<S(!new)>(nodes: seq<Node<S>>, paths: seq<seq<S>>)
    requires Labelled(nodes, paths)
    ensures Finite.Distinct(paths)
  {
    hide Descend, EdgesSpell;
    forall i, j | 0 <= i < j < |paths| ensures paths[i] != paths[j] {
      assert Descend(nodes, 0, paths[i]) == Some(i) && Descend(nodes, 0, paths[j]) == Some(j);
    }
  }

  /** The prefixes of a string in the tree have their nodes. */
  lemma PrefixNode<S(!new)>(nodes: seq<Node<S>>, paths: seq<seq<S>>, v: seq<S>, u: seq<S>)
    requires Labelled(nodes, paths) && Contains(nodes, v) && u <= v
    ensures u in paths
  {
    hide Descend, EdgesSpell;
    assert v == u + v[|u|..];
    DescendJoin(nodes, 0, u, v[|u|..]);
    DescendPath(nodes, paths, 0, u);
    var t := Descend(nodes, 0, u).value;
    assert paths[0] + u == u;
    assert paths[t] == u;
  }

  /** A symbol without an edge leads to no node. */
  lemma MissingNode<S(!new)>(nodes: seq<Node<S>>, paths: seq<seq<S>>, node: nat, s: S)
    requires Labelled(nodes, paths) && node < |nodes| && Lookup(nodes[node].edges, s).None?
    ensures paths[node] + [s] !in paths
  {
    hide EdgesSpell;
    if j :| 0 <= j < |paths| && paths[j] == paths[node] + [s] {
      assert Descend(nodes, 0, paths[j]) == Some(j) && Descend(nodes, 0, paths[node]) == Some(node);
      DescendJoin(nodes, 0, paths[node], [s]);
    }
  }

  /** A tree that spells prefixes only. */
  ghost predicate TreeOf<S(!new)>(nodes: seq<Node<S>>, paths: seq<seq<S>>, values: seq<seq<S>>) {
    && Labelled(nodes, paths) && ArePrefixes(values, paths)
    && forall v :: Contains(nodes, v) <==> v in values
  }

  /** It has exactly the prefixes as its nodes. */
  lemma PrefixesAre<S(!new)>(nodes: seq<Node<S>>, paths: seq<seq<S>>, values: seq<seq<S>>, v: seq<S>)
    requires TreeOf(nodes, paths, values)
    ensures IsPrefix(values, v) <==> v in paths
  {
    hide Labelled, Contains;
    if IsPrefix(values, v) {
      if v == [] { RootPath(nodes, paths); } else {
        var k :| 0 <= k < |values| && v <= values[k];
        assert values[k] in values;
        PrefixNode(nodes, paths, values[k], v);
      }
    }
    if v in paths { var i :| 0 <= i < |paths| && paths[i] == v; }
  }

  lemma RootPath<S(!new)>(nodes: seq<Node<S>>, paths: seq<seq<S>>)
    requires Labelled(nodes, paths)
    ensures [] in paths && |paths| == |nodes|
  {
    assert paths[0] == [];
  }

  lemma PrefixesFit<S(!new)>(nodes: seq<Node<S>>, paths: seq<seq<S>>, values: seq<seq<S>>, vs: seq<seq<S>>)
    requires TreeOf(nodes, paths, values) && Finite.Distinct(vs) && ArePrefixes(values, vs)
    ensures |vs| <= |nodes|
  {
    hide Labelled, Contains, IsPrefix;
    RootPath(nodes, paths);
    forall i | 0 <= i < |vs| ensures vs[i] in paths { PrefixesAre(nodes, paths, values, vs[i]); }
    Finite.DistinctWithin(vs, paths);
  }

  /** A full tree that lacks one prefix. */
  lemma PrefixMissing<S(!new)>(nodes: seq<Node<S>>, paths: seq<seq<S>>, values: seq<seq<S>>, u: seq<S>)
    requires Labelled(nodes, paths) && ArePrefixes(values, paths) && IsPrefix(values, u)
    requires u !in paths && |nodes| >= MAX_GRAPH_STATES
    ensures TooManyPrefixes(values)
  {
    PathsDistinct(nodes, paths);
    RootPath(nodes, paths);
    hide Labelled, IsPrefix;
    var vs := paths + [u];
    assert Finite.Distinct(vs) && ArePrefixes(values, vs);
  }

  /** More values have more prefixes. */
  lemma PrefixesGrow<S(!new)>(values: seq<seq<S>>, i: nat, paths: seq<seq<S>>, paths': seq<seq<S>>)
    requires i < |values| && ArePrefixes(values[..i], paths)
    requires forall j :: 0 <= j < |paths'| ==> paths'[j] in paths || paths'[j] <= values[i]
    ensures ArePrefixes(values[..i + 1], paths')
  {
    forall j | 0 <= j < |paths'| ensures IsPrefix(values[..i + 1], paths'[j]) {
      if paths'[j] in paths {
        var k :| 0 <= k < |paths| && paths[k] == paths'[j];
        assert IsPrefix(values[..i], paths[k]);
        if paths[k] != [] {
          var l :| 0 <= l < i && paths[k] <= values[..i][l];
          assert paths[k] <= values[..i + 1][l];
        }
      } else {
        assert paths'[j] <= values[..i + 1][i];
      }
    }
  }

  lemma PrefixesOfAll<S(!new)>(values: seq<seq<S>>, i: nat, paths: seq<seq<S>>)
    requires i <= |values| && ArePrefixes(values[..i], paths)
    ensures ArePrefixes(values, paths)
  {
    forall j | 0 <= j < |paths| ensures IsPrefix(values, paths[j]) {
      assert IsPrefix(values[..i], paths[j]);
      if paths[j] != [] {
        var l :| 0 <= l < i && paths[j] <= values[..i][l];
        assert paths[j] <= values[l];
      }
    }
  }

  // --- growing the tree ----------------------------------------------------------------------------------

  /** One new leaf below `node`. */
  function Grown<S>(nodes: seq<Node<S>>, node: nat, s: S): seq<Node<S>>
    requires node < |nodes|
  {
    nodes[node := Node(nodes[node].edges + [(s, |nodes|)], nodes[node].accepting)] + [Node([], false)]
  }

  lemma {:induction false} GrownDescend<S>(nodes: seq<Node<S>>, node: nat, s: S, from: nat, v: seq<S>)
    requires node < |nodes| && Lookup(nodes[node].edges, s).None? && from < |nodes|
    ensures Descend(nodes, from, v).Some? ==> Descend(Grown(nodes, node, s), from, v) == Descend(nodes, from, v)
    ensures match Descend(Grown(nodes, node, s), from, v)
            case None => true
            case Some(t) => t == |nodes| || Descend(nodes, from, v) == Some(t)
    decreases |v|
  {
    var grown := Grown(nodes, node, s);
    if v != [] {
      LookupAppend(nodes[node].edges, (s, |nodes|), v[0]);
      match Lookup(nodes[from].edges, v[0]) {
        case None =>
          if from == node && v[0] == s { LeafDescend(grown, |nodes|, v[1..]); }
        case Some(t) =>
          if t < |nodes| { GrownDescend(nodes, node, s, t, v[1..]); } else { OutsideDescend(nodes, node, s, t, v[1..]); }
      }
    }
  }

  lemma LeafDescend<S>(nodes: seq<Node<S>>, leaf: nat, v: seq<S>)
    requires leaf < |nodes| && nodes[leaf].edges == []
    ensures Descend(nodes, leaf, v) == if v == [] then Some(leaf) else None
  {}

  lemma OutsideDescend<S>(nodes: seq<Node<S>>, node: nat, s: S, t: nat, v: seq<S>)
    requires node < |nodes| && t >= |nodes|
    ensures Descend(nodes, t, v) == Descend(Grown(nodes, node, s), t, v) == if v == [] then Some(t) else None
  {}

  lemma GrownContains<S>(nodes: seq<Node<S>>, node: nat, s: S, v: seq<S>)
    requires node < |nodes| && Lookup(nodes[node].edges, s).None?
    ensures Contains(Grown(nodes, node, s), v) <==> Contains(nodes, v)
  {
    GrownDescend(nodes, node, s, 0, v);
  }

  lemma GrownEdges<S(!new)>(nodes: seq<Node<S>>, paths: seq<seq<S>>, node: nat, s: S, i: nat)
    requires Labelled(nodes, paths) && node < |nodes| && Lookup(nodes[node].edges, s).None? && i < |nodes|
    ensures EdgesSpell(Grown(nodes, node, s)[i].edges, paths + [paths[node] + [s]], paths[i])
  {
    var edges := Grown(nodes, node, s)[i].edges;
    assert EdgesSpell(nodes[i].edges, paths, paths[i]);
    if i == node {
      LookupIn(nodes[i].edges, s);
      forall j, k | 0 <= j < k < |edges| ensures edges[j].0 != edges[k].0 {
        assert nodes[i].edges[j] in nodes[i].edges;
      }
    }
  }

  lemma GrownLabelled<S(!new)>(nodes: seq<Node<S>>, paths: seq<seq<S>>, node: nat, s: S)
    requires Labelled(nodes, paths) && node < |nodes| && Lookup(nodes[node].edges, s).None?
    ensures Labelled(Grown(nodes, node, s), paths + [paths[node] + [s]])
    ensures Descend(Grown(nodes, node, s), 0, paths[node] + [s]) == Some(|nodes|)
  {
    hide Descend, EdgesSpell;
    var grown, path := Grown(nodes, node, s), paths[node] + [s];
    forall i | 0 <= i < |nodes| ensures Descend(grown, 0, paths[i]) == Some(i) { GrownDescend(nodes, node, s, 0, paths[i]); }
    forall i | 0 <= i < |nodes| ensures EdgesSpell(grown[i].edges, paths + [path], paths[i]) {
      GrownEdges(nodes, paths, node, s, i);
    }
    LeafSpells(paths + [path], path);
    DescendJoin(grown, 0, paths[node], [s]);
    NewEdge(nodes, node, s);
  }

  lemma LeafSpells<S(!new)>(paths: seq<seq<S>>, path: seq<S>)
    ensures EdgesSpell([], paths, path)
  {}

  lemma NewEdge<S>(nodes: seq<Node<S>>, node: nat, s: S)
    requires node < |nodes| && Lookup(nodes[node].edges, s).None?
    ensures Descend(Grown(nodes, node, s), node, [s]) == Some(|nodes|)
  {
    LookupAppend(nodes[node].edges, (s, |nodes|), s);
  }

  function Marked<S>(nodes: seq<Node<S>>, node: nat): seq<Node<S>>
    requires node < |nodes|
  {
    nodes[node := Node(nodes[node].edges, true)]
  }

  lemma {:induction false} MarkedDescend<S>(nodes: seq<Node<S>>, node: nat, from: nat, v: seq<S>)
    requires node < |nodes|
    ensures Descend(Marked(nodes, node), from, v) == Descend(nodes, from, v)
    decreases |v|
  {
    if v != [] && from < |nodes| {
      match Lookup(nodes[from].edges, v[0]) {
        case None =>
        case Some(t) => MarkedDescend(nodes, node, t, v[1..]);
      }
    }
  }

  lemma MarkedLabelled<S(!new)>(nodes: seq<Node<S>>, paths: seq<seq<S>>, node: nat)
    requires Labelled(nodes, paths) && node < |nodes|
    ensures Labelled(Marked(nodes, node), paths)
  {
    hide EdgesSpell, Descend;
    var marked := Marked(nodes, node);
    forall i | 0 <= i < |nodes| ensures Descend(marked, 0, paths[i]) == Some(i) { MarkedDescend(nodes, node, 0, paths[i]); }
    forall i | 0 <= i < |nodes| ensures EdgesSpell(marked[i].edges, paths, paths[i]) {
      assert EdgesSpell(nodes[i].edges, paths, paths[i]);
    }
  }

  /** Marking a node adds exactly its path. */
  lemma MarkedContains<S(!new)>(nodes: seq<Node<S>>, paths: seq<seq<S>>, node: nat, v: seq<S>)
    requires Labelled(nodes, paths) && node < |nodes|
    ensures Contains(Marked(nodes, node), v) <==> Contains(nodes, v) || v == paths[node]
  {
    hide Descend, EdgesSpell;
    MarkedDescend(nodes, node, 0, v);
    DescendPath(nodes, paths, 0, v);
    assert [] + v == v;
  }

  /** Every node but the root has one edge into it. */
  function EdgeTotal<S>(nodes: seq<Node<S>>): nat {
    if nodes == [] then 0 else EdgeTotal(nodes[..|nodes| - 1]) + |nodes[|nodes| - 1].edges|
  }

  lemma {:induction false} TotalUpdate<S>(nodes: seq<Node<S>>, i: nat, node: Node<S>)
    requires i < |nodes|
    ensures EdgeTotal(nodes[i := node]) == EdgeTotal(nodes) - |nodes[i].edges| + |node.edges|
  {
    var k := |nodes| - 1;
    if i == k {
      assert nodes[i := node][..k] == nodes[..k];
    } else {
      assert nodes[i := node][..k] == nodes[..k][i := node];
      TotalUpdate(nodes[..k], i, node);
    }
  }

  lemma GrownTotal<S>(nodes: seq<Node<S>>, node: nat, s: S)
    requires node < |nodes|
    ensures EdgeTotal(Grown(nodes, node, s)) == EdgeTotal(nodes) + 1
  {
    var parent := Node(nodes[node].edges + [(s, |nodes|)], nodes[node].accepting);
    TotalUpdate(nodes, node, parent);
    assert Grown(nodes, node, s)[..|nodes|] == nodes[node := parent];
  }

  lemma MarkedTotal<S>(nodes: seq<Node<S>>, node: nat)
    requires node < |nodes|
    ensures EdgeTotal(Marked(nodes, node)) == EdgeTotal(nodes)
  {
    TotalUpdate(nodes, node, Node(nodes[node].edges, true));
  }

  // --- the tree object -----------------------------------------------------------------------------------

  class Trie<S(==, !new)> {
    var nodes: seq<Node<S>>
    ghost var paths: seq<seq<S>>

    ghost predicate Valid()
      reads this
    {
      Labelled(nodes, paths) && EdgeTotal(nodes) + 1 == |nodes| <= MAX_GRAPH_STATES
    }

    /** The strings inserted so far. */
    ghost predicate Has(v: seq<S>)
      reads this
    {
      Contains(nodes, v)
    }

    constructor ()
      ensures Valid() && |nodes| == 1 && forall v :: !Has(v)
    {
      nodes, paths := [Node([], false)], [[]];
      new;
      LeafSpells(paths, []);
      assert nodes[..0] == [];
      forall v ensures !Has(v) { LeafDescend(nodes, 0, v); }
    }

    /** Follows the edge, or adds one to a new leaf unless the state cap is reached. */
    method NextOrInsert(node: nat, s: S) returns (r: Option<nat>)
      requires Valid() && node < |nodes|
      modifies this
      ensures Valid() && (forall v :: Has(v) <==> old(Has(v)))
      ensures r.Some? ==> r.value < |nodes| <= old(|nodes|) + 1 && paths[r.value] == old(paths[node]) + [s]
      ensures r.None? ==> |nodes| == MAX_GRAPH_STATES && nodes == old(nodes) && old(paths[node]) + [s] !in paths
      ensures forall i :: 0 <= i < |paths| ==> paths[i] in old(paths) || paths[i] == old(paths[node]) + [s]
    {
      hide EdgeTotal, Descend, EdgesSpell, Grown, Contains, Labelled;
      LabelledSize(nodes, paths);
      var existing := Lookup(nodes[node].edges, s);
      if existing.Some? {
        EdgePath(nodes, paths, node, s);
        return existing;
      }
      MissingNode(nodes, paths, node, s);
      if |nodes| >= MAX_GRAPH_STATES { return None; }
      GrownLabelled(nodes, paths, node, s);
      GrownSize(nodes, node, s);
      GrownTotal(nodes, node, s);
      forall v ensures Contains(Grown(nodes, node, s), v) <==> Contains(nodes, v) { GrownContains(nodes, node, s, v); }
      r := Some(|nodes|);
      nodes, paths := Grown(nodes, node, s), paths + [paths[node] + [s]];
    }

    /** Adds one string and nodes for its prefixes only. Meeting the state cap leaves the set as it was, and one prefix
        without a node. */
    method Insert(value: seq<S>) returns (ok: bool)
      requires Valid()
      modifies this
      ensures Valid()
      ensures ok ==> |nodes| <= old(|nodes|) + |value| && forall v :: Has(v) <==> old(Has(v)) || v == value
      ensures forall i :: 0 <= i < |paths| ==> paths[i] in old(paths) || paths[i] <= value
      ensures !ok ==> |nodes| == MAX_GRAPH_STATES && exists u :: u <= value && u !in paths
      ensures !ok ==> old(|nodes|) + |value| > MAX_GRAPH_STATES && forall v :: Has(v) <==> old(Has(v))
    {
      hide EdgeTotal, Descend, EdgesSpell, Marked, Contains, Labelled;
      LabelledSize(nodes, paths);
      var node: nat := 0;
      for i := 0 to |value|
        invariant Valid() && node < |nodes| == |paths| && paths[node] == value[..i]
        invariant |nodes| <= old(|nodes|) + i && forall v :: Has(v) <==> old(Has(v))
        invariant forall j :: 0 <= j < |paths| ==> paths[j] in old(paths) || paths[j] <= value
      {
        var next := NextOrInsert(node, value[i]);
        assert value[..i] + [value[i]] <= value;
        if next.None? { return false; }
        LabelledSize(nodes, paths);
        assert value[..i] + [value[i]] == value[..i + 1];
        node := next.value;
      }
      assert value[..|value|] == value;
      MarkedLabelled(nodes, paths, node);
      MarkedSize(nodes, node);
      MarkedTotal(nodes, node);
      forall v ensures Contains(Marked(nodes, node), v) <==> Contains(nodes, v) || v == value {
        MarkedContains(nodes, paths, node, v);
      }
      nodes := Marked(nodes, node);
      ok := true;
    }
  }

  lemma LabelledSize<S(!new)>(nodes: seq<Node<S>>, paths: seq<seq<S>>)
    requires Labelled(nodes, paths)
    ensures |paths| == |nodes| > 0 && paths[0] == []
  {}

  lemma EdgePath<S(!new)>(nodes: seq<Node<S>>, paths: seq<seq<S>>, node: nat, s: S)
    requires Labelled(nodes, paths) && node < |nodes| && Lookup(nodes[node].edges, s).Some?
    ensures Lookup(nodes[node].edges, s).value < |nodes| == |paths|
    ensures paths[Lookup(nodes[node].edges, s).value] == paths[node] + [s]
  {
    LookupIn(nodes[node].edges, s);
    assert EdgesSpell(nodes[node].edges, paths, paths[node]);
  }

  lemma GrownSize<S>(nodes: seq<Node<S>>, node: nat, s: S)
    requires node < |nodes|
    ensures |Grown(nodes, node, s)| == |nodes| + 1
  {}

  lemma MarkedSize<S>(nodes: seq<Node<S>>, node: nat)
    requires node < |nodes|
    ensures |Marked(nodes, node)| == |nodes|
  {}

  // --- byte tries ------------------------------------------------------------------------------------------

  ghost predicate SameRows(nodes: seq<Node<Byte>>, states: seq<ByteState>) {
    |states| == |nodes| && forall i :: 0 <= i < |nodes| ==> states[i] == ByteState(nodes[i].accepting, nodes[i].edges)
  }

  lemma {:induction false} TrieAccepts(nodes: seq<Node<Byte>>, states: seq<ByteState>, from: nat, w: Word)
    requires SameRows(nodes, states)
    ensures Accepts(states, from, w) <==>
            match Descend(nodes, from, w) case None => false case Some(t) => t < |nodes| && nodes[t].accepting
    decreases |w|
  {
    if w != [] && from < |nodes| {
      match Lookup(nodes[from].edges, w[0]) {
        case None =>
        case Some(t) => TrieAccepts(nodes, states, t, w[1..]);
      }
    }
  }

  lemma TrieRowsOk(nodes: seq<Node<Byte>>, paths: seq<Word>, states: seq<ByteState>)
    requires Labelled(nodes, paths) && SameRows(nodes, states)
    ensures RowsOk(states, |states|)
  {
    hide Descend;
    forall i | 0 <= i < |states| ensures RowOk(states[i].edges, |states|) {
      var edges := nodes[i].edges;
      assert EdgesSpell(edges, paths, paths[i]);
      forall k | 0 <= k < |edges| ensures edges[k].1 < |states| { assert (edges[k].0, edges[k].1) in edges; }
    }
  }

  lemma {:induction false} TrieEdges(nodes: seq<Node<Byte>>, states: seq<ByteState>)
    requires SameRows(nodes, states)
    ensures |FlatEdges(states)| == EdgeTotal(nodes)
  {
    if nodes != [] {
      var k := |nodes| - 1;
      TrieEdges(nodes[..k], states[..k]);
    }
  }

  /** `ByteTrie::into_graph`. A tree always fits the graph caps. */
  method IntoGraph(trie: Trie<Byte>) returns (r: Result<AutomatonGraph>)
    requires trie.Valid()
    ensures r.Ok? && Validated(r.value) && GraphLanguage(r.value) == iset w: Word | trie.Has(w)
  {
    hide Descend, EdgesSpell, Contains, Validated;
    var states := [];
    for i := 0 to |trie.nodes|
      invariant |states| == i
      invariant forall k :: 0 <= k < i ==> states[k] == ByteState(trie.nodes[k].accepting, trie.nodes[k].edges)
    {
      states := states + [ByteState(trie.nodes[i].accepting, trie.nodes[i].edges)];
    }
    TrieRowsOk(trie.nodes, trie.paths, states);
    TrieEdges(trie.nodes, states);
    LabelledSize(trie.nodes, trie.paths);
    forall w: Word ensures Accepts(states, 0, w) <==> Contains(trie.nodes, w) { TrieStart(trie.nodes, states, w); }
    r := FromByteStates(states, 0);
  }

  lemma TrieStart(nodes: seq<Node<Byte>>, states: seq<ByteState>, w: Word)
    requires SameRows(nodes, states)
    ensures Accepts(states, 0, w) <==> Contains(nodes, w)
  {
    TrieAccepts(nodes, states, 0, w);
  }

  function TotalLength<S>(values: seq<seq<S>>): nat {
    if values == [] then 0 else TotalLength(values[..|values| - 1]) + |values[|values| - 1]|
  }

  lemma {:induction false} TotalLengthPrefix<S>(values: seq<seq<S>>, i: nat)
    requires i <= |values|
    ensures TotalLength(values[..i]) <= TotalLength(values)
    decreases |values| - i
  {
    if i == |values| {
      assert values[..i] == values;
    } else {
      assert values[..i + 1][..i] == values[..i];
      TotalLengthPrefix(values, i + 1);
    }
  }

  lemma EmptyTotal<S>(values: seq<seq<S>>)
    ensures TotalLength(values[..0]) == 0
  {}

  lemma TotalLengthStep<S>(values: seq<seq<S>>, i: nat)
    requires i < |values|
    ensures TotalLength(values[..i + 1]) == TotalLength(values[..i]) + |values[i]|
  {
    assert values[..i + 1][..i] == values[..i];
  }

  /** `byte_string_set`: the language is exactly the listed strings. A list is refused exactly when it has more
      prefixes than a graph may have states, which takes 2^16 bytes. */
  method ByteStringSet(values: seq<Word>) returns (r: Result<AutomatonGraph>)
    ensures r.Ok? ==> Validated(r.value) && GraphLanguage(r.value) == iset w: Word | w in values
    ensures r.Err? ==> r.error == LimitExceeded && TotalLength(values) >= MAX_GRAPH_STATES
    ensures r.Err? <==> TooManyPrefixes(values)
  {
    hide Labelled, Contains, Validated, TotalLength, EdgeTotal, IsPrefix, ArePrefixes, TooManyPrefixes;
    EmptyTotal(values);
    var trie := new Trie<Byte>();
    RootIsPrefix(values[..0], trie.nodes, trie.paths);
    for i := 0 to |values|
      invariant trie.Valid() && fresh(trie) && ArePrefixes(values[..i], trie.paths)
      invariant |trie.nodes| <= 1 + TotalLength(values[..i]) && forall w :: trie.Has(w) <==> w in values[..i]
    {
      TotalLengthStep(values, i);
      TotalLengthPrefix(values, i + 1);
      ghost var before := trie.paths;
      var ok := trie.Insert(values[i]);
      PrefixesGrow(values, i, before, trie.paths);
      if !ok {
        InsertRefused(trie.nodes, trie.paths, values, i);
        return Err(LimitExceeded);
      }
      assert values[..i + 1] == values[..i] + [values[i]];
    }
    assert values[..|values|] == values;
    assert forall w: Word :: trie.Has(w) <==> w in values;
    AllInserted(trie.nodes, trie.paths, values);
    r := IntoGraph(trie);
  }

  lemma RootIsPrefix<S(!new)>(values: seq<seq<S>>, nodes: seq<Node<S>>, paths: seq<seq<S>>)
    requires Labelled(nodes, paths) && |nodes| == 1
    ensures ArePrefixes(values, paths)
  {}

  lemma InsertRefused<S(!new)>(nodes: seq<Node<S>>, paths: seq<seq<S>>, values: seq<seq<S>>, i: nat)
    requires Labelled(nodes, paths) && i < |values| && ArePrefixes(values[..i + 1], paths)
    requires |nodes| >= MAX_GRAPH_STATES && exists u :: u <= values[i] && u !in paths
    ensures TooManyPrefixes(values)
  {
    hide Labelled, ArePrefixes, TooManyPrefixes;
    PrefixesOfAll(values, i + 1, paths);
    var u :| u <= values[i] && u !in paths;
    PrefixMissing(nodes, paths, values, u);
  }

  lemma AllInserted<S(!new)>(nodes: seq<Node<S>>, paths: seq<seq<S>>, values: seq<seq<S>>)
    requires Labelled(nodes, paths) && ArePrefixes(values, paths) && |nodes| <= MAX_GRAPH_STATES
    requires forall v :: Contains(nodes, v) <==> v in values
    ensures TreeOf(nodes, paths, values) && !TooManyPrefixes(values)
  {
    hide Labelled, ArePrefixes, Contains;
    forall vs: seq<seq<S>> | Finite.Distinct(vs) && ArePrefixes(values, vs) ensures |vs| <= |nodes| {
      PrefixesFit(nodes, paths, values, vs);
    }
  }
}
