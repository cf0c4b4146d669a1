/** Adding labelled paths between fixed states of a byte table (automaton/graph.rs:400-441). As long as the paths
    from one state form a prefix code, they share states only along common prefixes. */
module PathGraph {
  import opened Outcome
  import opened Languages
  import opened Graph
  import Finite

  /** A byte string that leads from one fixed state to another. */
  datatype Path = Path(source: nat, bytes: Word, target: nat)

  /** Where a state lies: what has been read since the last fixed state. */
  datatype Place = Place(anchor: nat, read: Word)

  /** No path from a state is a prefix of another one from it. */
  ghost predicate PrefixFree(paths: set<Path>) {
    forall p, q :: p in paths && q in paths && p.source == q.source && p.bytes <= q.bytes ==> p == q
  }

  ghost predicate Inside(place: Place, paths: set<Path>, anchors: nat) {
    place.read != [] && place.anchor < anchors && exists p :: OnPath(place, paths, p)
  }

  ghost predicate OnPath(place: Place, paths: set<Path>, p: Path) {
    p in paths && p.source == place.anchor && place.read < p.bytes
  }

  ghost predicate EdgeFits(place: Place, b: Byte, t: nat, places: seq<Place>, paths: set<Path>, anchors: nat) {
    && t < |places|
    && if t < anchors then Path(place.anchor, place.read + [b], t) in paths
       else places[t] == Place(place.anchor, place.read + [b])
  }

  ghost predicate RowFits(edges: seq<(Byte, nat)>, place: Place, places: seq<Place>, paths: set<Path>, anchors: nat) {
    && Deterministic(edges)
    && forall b: Byte, t: nat :: (b, t) in edges ==> EdgeFits(place, b, t, places, paths, anchors)
  }

  /** The states past the fixed ones lie properly inside paths, and every edge continues a path. */
  ghost predicate Threaded(states: seq<ByteState>, places: seq<Place>, paths: set<Path>, anchors: nat) {
    && |places| == |states| && anchors <= |states|
    && (forall q :: 0 <= q < anchors ==> places[q] == Place(q, []))
    && (forall q :: anchors <= q < |states| ==> !states[q].accepting && Inside(places[q], paths, anchors))
    && (forall q :: 0 <= q < |states| ==> RowFits(states[q].edges, places[q], places, paths, anchors))
  }

  ghost function Walk(states: seq<ByteState>, q: nat, w: Word): Option<nat>
    decreases |w|
  {
    if w == [] then Some(q)
    else if q >= |states| then None
    else match Lookup(states[q].edges, w[0])
      case None => None
      case Some(t) => Walk(states, t, w[1..])
  }

  /** The paths are there. */
  ghost predicate Present(states: seq<ByteState>, paths: set<Path>) {
    forall p :: p in paths ==> Walk(states, p.source, p.bytes) == Some(p.target)
  }

  lemma {:induction false} WalkSnoc(states: seq<ByteState>, q: nat, u: Word, b: Byte)
    ensures Walk(states, q, u + [b]) ==
            match Walk(states, q, u)
            case None => None
            case Some(t) => if t >= |states| then None else Lookup(states[t].edges, b)
    decreases |u|
  {
    if u == [] {
      assert [] + [b] == [b] && [b][1..] == [];
      if q < |states| && Lookup(states[q].edges, b).Some? {
        assert Walk(states, Lookup(states[q].edges, b).value, []) == Lookup(states[q].edges, b);
      }
    } else if q < |states| {
      assert (u + [b])[1..] == u[1..] + [b];
      match Lookup(states[q].edges, u[0]) {
        case None =>
        case Some(t) => WalkSnoc(states, t, u[1..], b);
      }
    }
  }

  lemma {:induction false} WalkAccepts(states: seq<ByteState>, q: nat, u: Word, v: Word)
    requires Walk(states, q, u).Some?
    ensures Accepts(states, q, u + v) <==> Accepts(states, Walk(states, q, u).value, v)
    decreases |u|
  {
    if u == [] {
      assert u + v == v;
    } else {
      assert (u + v)[1..] == u[1..] + v;
      WalkAccepts(states, Lookup(states[q].edges, u[0]).value, u[1..], v);
    }
  }

  // --- growing the table ------------------------------------------------------------------------------------------------

  /** The table with one more edge, and one more state when `fresh`. */
  function Extended(states: seq<ByteState>, q: nat, b: Byte, t: nat, extra: bool): seq<ByteState>
    requires q < |states|
  {
    var more := if extra then states + [ByteState(false, [])] else states;
    more[q := ByteState(states[q].accepting, states[q].edges + [(b, t)])]
  }

  lemma {:induction false} WalkExtended(states: seq<ByteState>, q: nat, b: Byte, t: nat, extra: bool, from: nat, w: Word)
    requires q < |states| && Lookup(states[q].edges, b).None? && Walk(states, from, w).Some?
    ensures Walk(Extended(states, q, b, t, extra), from, w) == Walk(states, from, w)
    decreases |w|
  {
    if w != [] {
      LookupAppend(states[q].edges, (b, t), w[0]);
      WalkExtended(states, q, b, t, extra, Lookup(states[from].edges, w[0]).value, w[1..]);
    }
  }

  lemma PresentExtended(states: seq<ByteState>, q: nat, b: Byte, t: nat, extra: bool, paths: set<Path>)
    requires q < |states| && Lookup(states[q].edges, b).None? && Present(states, paths)
    ensures Present(Extended(states, q, b, t, extra), paths)
  {
    hide Extended, Walk;
    forall p | p in paths ensures Walk(Extended(states, q, b, t, extra), p.source, p.bytes) == Some(p.target) {
      WalkExtended(states, q, b, t, extra, p.source, p.bytes);
    }
  }

  lemma RowFitsGrows(edges: seq<(Byte, nat)>, place: Place, places: seq<Place>, places': seq<Place>, paths: set<Path>,
                     paths': set<Path>, anchors: nat)
    requires RowFits(edges, place, places, paths, anchors) && places <= places' && paths <= paths'
    ensures RowFits(edges, place, places', paths', anchors)
  {
    forall b: Byte, t: nat | (b, t) in edges ensures EdgeFits(place, b, t, places', paths', anchors) {
      assert EdgeFits(place, b, t, places, paths, anchors);
    }
  }

  lemma RowFitsSnoc(edges: seq<(Byte, nat)>, place: Place, b: Byte, t: nat, places: seq<Place>, paths: set<Path>, anchors: nat)
    requires RowFits(edges, place, places, paths, anchors) && Lookup(edges, b).None?
    requires EdgeFits(place, b, t, places, paths, anchors)
    ensures RowFits(edges + [(b, t)], place, places, paths, anchors)
  {
    LookupIsEdge(edges, b);
    hide EdgeFits;
  }

  lemma InsideGrows(place: Place, paths: set<Path>, paths': set<Path>, anchors: nat)
    requires Inside(place, paths, anchors) && paths <= paths'
    ensures Inside(place, paths', anchors)
  {
    var p :| OnPath(place, paths, p);
    assert OnPath(place, paths', p);
  }

  /** Announcing one more path leaves the layout intact. */
  lemma ThreadedGrows(states: seq<ByteState>, places: seq<Place>, paths: set<Path>, paths': set<Path>, anchors: nat)
    requires Threaded(states, places, paths, anchors) && paths <= paths'
    ensures Threaded(states, places, paths', anchors)
  {
    hide Inside, RowFits;
    forall q | 0 <= q < |states| ensures RowFits(states[q].edges, places[q], places, paths', anchors) {
      RowFitsGrows(states[q].edges, places[q], places, places, paths, paths', anchors);
    }
    forall q | anchors <= q < |states| ensures Inside(places[q], paths', anchors) {
      InsideGrows(places[q], paths, paths', anchors);
    }
  }

  lemma ThreadedExtended(states: seq<ByteState>, places: seq<Place>, paths: set<Path>, anchors: nat, q: nat, b: Byte, t: nat, extra: bool)
    requires Threaded(states, places, paths, anchors) && q < |states| && Lookup(states[q].edges, b).None?
    requires if extra then t == |states| && Inside(Place(places[q].anchor, places[q].read + [b]), paths, anchors)
             else t < anchors && Path(places[q].anchor, places[q].read + [b], t) in paths
    ensures Threaded(Extended(states, q, b, t, extra),
                 if extra then places + [Place(places[q].anchor, places[q].read + [b])] else places, paths, anchors)
  {
    hide Inside, RowFits;
    var states' := Extended(states, q, b, t, extra);
    var places' := if extra then places + [Place(places[q].anchor, places[q].read + [b])] else places;
    forall r | 0 <= r < |states'| ensures RowFits(states'[r].edges, places'[r], places', paths, anchors) {
      if r < |states| {
        RowFitsGrows(states[r].edges, places[r], places, places', paths, paths, anchors);
        if r == q { RowFitsSnoc(states[q].edges, places[q], b, t, places', paths, anchors); }
      } else {
        EmptyRowFits(places'[r], places', paths, anchors);
      }
    }
  }

  lemma EmptyRowFits(place: Place, places: seq<Place>, paths: set<Path>, anchors: nat)
    ensures RowFits([], place, places, paths, anchors)
  {}

  // --- how large the table is -------------------------------------------------------------------------------------------

  /** Every state is where its place says, so no place has two states. */
  ghost predicate Rooted(states: seq<ByteState>, places: seq<Place>) {
    |places| == |states| &&
    forall q :: 0 <= q < |states| ==> Walk(states, places[q].anchor, places[q].read) == Some(q)
  }

  ghost predicate RowArrives(edges: seq<(Byte, nat)>, place: Place, paths: set<Path>, anchors: nat) {
    forall b: Byte, t: nat :: (b, t) in edges && t < anchors ==> Path(place.anchor, place.read + [b], t) in paths
  }

  /** An edge into a fixed state ends one of the paths. */
  ghost predicate Arrived(states: seq<ByteState>, places: seq<Place>, paths: set<Path>, anchors: nat) {
    |places| == |states| && forall q :: 0 <= q < |states| ==> RowArrives(states[q].edges, places[q], paths, anchors)
  }

  /** Every edge discovers a state or ends a path. */
  ghost predicate Measured(states: seq<ByteState>, places: seq<Place>, paths: set<Path>, anchors: nat) {
    && Rooted(states, places) && Arrived(states, places, paths, anchors)
    && |FlatEdges(states)| + anchors == |states| + |paths|
  }

  lemma RootedExtended(states: seq<ByteState>, places: seq<Place>, q: nat, b: Byte, t: nat, extra: bool)
    requires Rooted(states, places) && q < |states| && Lookup(states[q].edges, b).None? && (extra ==> t == |states|)
    ensures Rooted(Extended(states, q, b, t, extra),
                   if extra then places + [Place(places[q].anchor, places[q].read + [b])] else places)
  {
    hide Walk;
    var states' := Extended(states, q, b, t, extra);
    forall r | 0 <= r < |states| ensures Walk(states', places[r].anchor, places[r].read) == Some(r) {
      WalkExtended(states, q, b, t, extra, places[r].anchor, places[r].read);
    }
    if extra {
      WalkSnoc(states', places[q].anchor, places[q].read, b);
      LookupAppend(states[q].edges, (b, t), b);
    }
  }

  lemma ArrivedExtended(states: seq<ByteState>, places: seq<Place>, paths: set<Path>, paths': set<Path>, anchors: nat,
                        q: nat, b: Byte, t: nat, extra: bool)
    requires Arrived(states, places, paths, anchors) && q < |states| && paths <= paths'
    requires if extra then t >= anchors else Path(places[q].anchor, places[q].read + [b], t) in paths'
    ensures Arrived(Extended(states, q, b, t, extra),
                    if extra then places + [Place(places[q].anchor, places[q].read + [b])] else places, paths', anchors)
  {
    var states' := Extended(states, q, b, t, extra);
    forall r | 0 <= r < |states| ensures RowArrives(states'[r].edges, places[r], paths', anchors) {
      assert RowArrives(states[r].edges, places[r], paths, anchors);
    }
  }

  lemma {:induction false} FlatExtended(states: seq<ByteState>, q: nat, b: Byte, t: nat)
    requires q < |states|
    ensures |FlatEdges(Extended(states, q, b, t, false))| == |FlatEdges(states)| + 1
  {
    var k := |states| - 1;
    var states' := Extended(states, q, b, t, false);
    if q < k {
      FlatExtended(states[..k], q, b, t);
      assert states'[..k] == Extended(states[..k], q, b, t, false);
    } else {
      assert states'[..k] == states[..k];
    }
  }

  lemma EdgesExtended(states: seq<ByteState>, q: nat, b: Byte, t: nat, extra: bool)
    requires q < |states|
    ensures |FlatEdges(Extended(states, q, b, t, extra))| == |FlatEdges(states)| + 1
  {
    hide FlatEdges;
    if extra {
      FlatExtended(states + [ByteState(false, [])], q, b, t);
      FlatSnoc(states, ByteState(false, []));
      assert Extended(states, q, b, t, true) == Extended(states + [ByteState(false, [])], q, b, t, false);
    } else {
      FlatExtended(states, q, b, t);
    }
  }

  /** A new edge to a new state. */
  lemma MeasuredInner(states: seq<ByteState>, places: seq<Place>, paths: set<Path>, anchors: nat, q: nat, b: Byte)
    requires Measured(states, places, paths, anchors) && anchors <= |states| && q < |states|
    requires Lookup(states[q].edges, b).None?
    ensures Measured(Extended(states, q, b, |states|, true), places + [Place(places[q].anchor, places[q].read + [b])],
                     paths, anchors)
  {
    hide Rooted, Arrived, FlatEdges;
    AnchorsKept(states, q, b, |states|, true);
    MeasuredParts(states, places, paths, anchors);
    RootedExtended(states, places, q, b, |states|, true);
    ArrivedExtended(states, places, paths, paths, anchors, q, b, |states|, true);
    EdgesExtended(states, q, b, |states|, true);
  }

  /** A new edge that ends a new path. */
  lemma MeasuredLast(states: seq<ByteState>, places: seq<Place>, paths: set<Path>, anchors: nat, q: nat, b: Byte, p: Path)
    requires Measured(states, places, paths, anchors) && q < |states| && Lookup(states[q].edges, b).None?
    requires p !in paths && p == Path(places[q].anchor, places[q].read + [b], p.target)
    ensures Measured(Extended(states, q, b, p.target, false), places, paths + {p}, anchors)
  {
    hide Rooted, Arrived, FlatEdges;
    AnchorsKept(states, q, b, p.target, false);
    MeasuredParts(states, places, paths, anchors);
    RootedExtended(states, places, q, b, p.target, false);
    ArrivedExtended(states, places, paths, paths + {p}, anchors, q, b, p.target, false);
    EdgesExtended(states, q, b, p.target, false);
  }

  lemma MeasuredParts(states: seq<ByteState>, places: seq<Place>, paths: set<Path>, anchors: nat)
    requires Measured(states, places, paths, anchors)
    ensures |places| == |states|
  {}

  /** Distinct places inside the paths. */
  ghost predicate Inner(places: seq<Place>, paths: set<Path>, anchors: nat) {
    Finite.Distinct(places) && forall k :: 0 <= k < |places| ==> Inside(places[k], paths, anchors)
  }

  ghost predicate Exceeds(inner: nat, paths: nat, anchors: nat) {
    anchors + inner > MAX_GRAPH_STATES || inner + paths > MAX_GRAPH_EDGES
  }

  /** The fixed states, the prefixes of the paths and the paths themselves are more than a graph may have. */
  ghost predicate TooLarge(paths: set<Path>, anchors: nat) {
    exists places :: Inner(places, paths, anchors) && Exceeds(|places|, |paths|, anchors)
  }

  lemma TooLargeGrows(paths: set<Path>, paths': set<Path>, anchors: nat)
    requires TooLarge(paths, anchors) && paths <= paths'
    ensures TooLarge(paths', anchors)
  {
    hide Inside;
    var places :| Inner(places, paths, anchors) && Exceeds(|places|, |paths|, anchors);
    forall k | 0 <= k < |places| ensures Inside(places[k], paths', anchors) {
      InsideGrows(places[k], paths, paths', anchors);
    }
    Finite.SubsetSize(paths, paths');
    assert Inner(places, paths', anchors) && Exceeds(|places|, |paths'|, anchors);
  }

  lemma InnerPlaces(states: seq<ByteState>, places: seq<Place>, paths: set<Path>, anchors: nat)
    requires Threaded(states, places, paths, anchors) && Rooted(states, places)
    ensures anchors <= |places| == |states| && Inner(places[anchors..], paths, anchors)
  {
    hide Walk, Inside, RowFits;
    var inner := places[anchors..];
    forall i, j | 0 <= i < j < |inner| ensures inner[i] != inner[j] {
      assert inner[i] == places[anchors + i] && inner[j] == places[anchors + j];
    }
  }

  // --- add_path -----------------------------------------------------------------------------------------------------------

  /** The state of the byte loop: `current` has read the first `i` bytes of the path. */
  ghost predicate Adding(states: seq<ByteState>, places: seq<Place>, paths: set<Path>, anchors: nat, p: Path, i: nat, current: nat) {
    && Threaded(states, places, paths, anchors) && PrefixFree(paths) && p in paths && i <= |p.bytes|
    && current < |states| && Walk(states, p.source, p.bytes[..i]) == Some(current)
    && (i < |p.bytes| ==> places[current] == Place(p.source, p.bytes[..i]))
    && (i == |p.bytes| ==> current == p.target)
  }

  lemma FollowEdge(states: seq<ByteState>, places: seq<Place>, paths: set<Path>, anchors: nat, p: Path, i: nat, current: nat)
    requires Adding(states, places, paths, anchors, p, i, current) && i < |p.bytes|
    requires Lookup(states[current].edges, p.bytes[i]).Some?
    ensures Adding(states, places, paths, anchors, p, i + 1, Lookup(states[current].edges, p.bytes[i]).value)
  {
    hide PrefixFree, Walk;
    var b, t := p.bytes[i], Lookup(states[current].edges, p.bytes[i]).value;
    LookupIsEdge(states[current].edges, b);
    assert RowFits(states[current].edges, places[current], places, paths, anchors);
    assert EdgeFits(places[current], b, t, places, paths, anchors);
    assert p.bytes[..i] + [b] == p.bytes[..i + 1];
    WalkSnoc(states, p.source, p.bytes[..i], b);
    SharedPrefix(paths, p, i + 1, t);
    if t >= anchors { NotInsideOwnEnd(paths, p, places[t], anchors); }
  }

  /** A path already present that ends within this one is this one. */
  lemma SharedPrefix(paths: set<Path>, p: Path, k: nat, t: nat)
    requires PrefixFree(paths) && p in paths && k <= |p.bytes|
    ensures Path(p.source, p.bytes[..k], t) in paths ==> k == |p.bytes| && t == p.target
  {
    var q := Path(p.source, p.bytes[..k], t);
    if q in paths {
      assert q.bytes <= p.bytes;
      assert q == p;
    }
  }

  /** No state lies inside another path at the end of this one. */
  lemma NotInsideOwnEnd(paths: set<Path>, p: Path, place: Place, anchors: nat)
    requires PrefixFree(paths) && p in paths && Inside(place, paths, anchors) && place.anchor == p.source
    ensures place.read != p.bytes
  {
    var q :| OnPath(place, paths, q);
    assert p.bytes <= q.bytes ==> p == q;
  }

  lemma NewEdge(states: seq<ByteState>, places: seq<Place>, paths: set<Path>, anchors: nat, p: Path, i: nat, current: nat)
    requires Adding(states, places, paths, anchors, p, i, current) && i < |p.bytes|
    requires p.source < anchors && p.target < anchors
    requires Lookup(states[current].edges, p.bytes[i]).None?
    ensures var last := i + 1 == |p.bytes|;
            var t := if last then p.target else |states|;
            var place := Place(p.source, p.bytes[..i + 1]);
            Adding(Extended(states, current, p.bytes[i], t, !last), if last then places else places + [place],
                   paths, anchors, p, i + 1, t)
  {
    hide PrefixFree, Walk, RowFits, Inside;
    var b := p.bytes[i];
    var last := i + 1 == |p.bytes|;
    var t := if last then p.target else |states|;
    assert p.bytes[..i] + [b] == p.bytes[..i + 1];
    if last { assert p.bytes[..i + 1] == p.bytes && Path(p.source, p.bytes, p.target) == p; } else {
      InsidePath(paths, p, i + 1, anchors);
    }
    ThreadedExtended(states, places, paths, anchors, current, b, t, !last);
    WalkExtended(states, current, b, t, !last, p.source, p.bytes[..i]);
    WalkSnoc(Extended(states, current, b, t, !last), p.source, p.bytes[..i], b);
    LookupAppend(states[current].edges, (b, t), b);
  }

  lemma InsidePath(paths: set<Path>, p: Path, k: nat, anchors: nat)
    requires p in paths && 0 < k < |p.bytes| && p.source < anchors
    ensures Inside(Place(p.source, p.bytes[..k]), paths, anchors)
  {
    assert OnPath(Place(p.source, p.bytes[..k]), paths, p);
  }

  lemma AnchorsKept(states: seq<ByteState>, q: nat, b: Byte, t: nat, extra: bool)
    requires q < |states|
    ensures |Extended(states, q, b, t, extra)| == if extra then |states| + 1 else |states|
    ensures forall r :: 0 <= r < |states| ==> Extended(states, q, b, t, extra)[r].accepting == states[r].accepting
  {}

  ghost predicate SameFlags(states: seq<ByteState>, states': seq<ByteState>) {
    |states| <= |states'| && forall r :: 0 <= r < |states| ==> states'[r].accepting == states[r].accepting
  }

  lemma AddingParts(states: seq<ByteState>, places: seq<Place>, paths: set<Path>, anchors: nat, p: Path, i: nat, current: nat)
    requires Adding(states, places, paths, anchors, p, i, current)
    ensures current < |states|
    ensures i == |p.bytes| ==> current == p.target && Threaded(states, places, paths, anchors)
    ensures i == |p.bytes| ==> Walk(states, p.source, p.bytes) == Some(p.target)
  {
    if i == |p.bytes| { assert p.bytes[..i] == p.bytes; }
  }

  lemma StartAdding(states: seq<ByteState>, places: seq<Place>, paths: set<Path>, anchors: nat, p: Path)
    requires Threaded(states, places, paths, anchors) && p.source < anchors && p.bytes != []
    requires PrefixFree(paths + {p})
    ensures Adding(states, places, paths + {p}, anchors, p, 0, p.source)
  {
    ThreadedGrows(states, places, paths, paths + {p}, anchors);
  }

  /** Where a path leaves the table it was not there before. */
  lemma NotYetThere(states: seq<ByteState>, places: seq<Place>, paths: set<Path>, all: set<Path>, anchors: nat, p: Path, current: nat)
    requires p.bytes != [] && Adding(states, places, all, anchors, p, |p.bytes| - 1, current) && Present(states, paths)
    requires Lookup(states[current].edges, p.bytes[|p.bytes| - 1]).None?
    ensures p !in paths
    ensures p == Path(places[current].anchor, places[current].read + [p.bytes[|p.bytes| - 1]], p.target)
  {
    hide Threaded, PrefixFree, Walk;
    var k := |p.bytes| - 1;
    assert p.bytes[..k] + [p.bytes[k]] == p.bytes;
    WalkSnoc(states, p.source, p.bytes[..k], p.bytes[k]);
  }

  /** A last edge that is there already ends this very path. */
  lemma AlreadyThere(states: seq<ByteState>, places: seq<Place>, paths: set<Path>, all: set<Path>, anchors: nat, p: Path, current: nat)
    requires p.bytes != [] && p.target < anchors && Adding(states, places, all, anchors, p, |p.bytes| - 1, current)
    requires Measured(states, places, paths, anchors)
    requires Lookup(states[current].edges, p.bytes[|p.bytes| - 1]) == Some(p.target)
    ensures paths + {p} == paths
  {
    hide Threaded, PrefixFree, Walk;
    var k := |p.bytes| - 1;
    assert p.bytes[..k] + [p.bytes[k]] == p.bytes;
    LookupIsEdge(states[current].edges, p.bytes[k]);
    assert RowArrives(states[current].edges, places[current], paths, anchors);
  }

  /** At the state cap the next state would be one too many. */
  lemma CapMet(states: seq<ByteState>, places: seq<Place>, paths: set<Path>, anchors: nat, p: Path, i: nat, current: nat)
    requires Adding(states, places, paths, anchors, p, i, current) && i + 1 < |p.bytes| && p.source < anchors
    requires Rooted(states, places) && Lookup(states[current].edges, p.bytes[i]).None? && |states| >= MAX_GRAPH_STATES
    ensures TooLarge(paths, anchors)
  {
    hide Walk, PrefixFree, Inside, RowFits;
    var place := Place(p.source, p.bytes[..i + 1]);
    InnerPlaces(states, places, paths, anchors);
    InsidePath(paths, p, i + 1, anchors);
    assert p.bytes[..i] + [p.bytes[i]] == p.bytes[..i + 1];
    WalkSnoc(states, p.source, p.bytes[..i], p.bytes[i]);
    assert place !in places;
    var more := places[anchors..] + [place];
    assert Inner(more, paths, anchors) && Exceeds(|more|, |paths|, anchors);
  }

  /** `add_path`: it never meets an edge that contradicts the path. Only the state cap stops it, and only when the fixed
      states and the prefixes of the paths are more than the cap. */
  method AddPath(states0: seq<ByteState>, p: Path, ghost places0: seq<Place>, ghost paths: set<Path>, ghost anchors: nat)
    returns (ok: bool, states: seq<ByteState>, ghost places: seq<Place>)
    requires Threaded(states0, places0, paths, anchors) && Present(states0, paths) && PrefixFree(paths + {p})
    requires p.source < anchors && p.target < anchors && p.bytes != [] && Measured(states0, places0, paths, anchors)
    ensures SameFlags(states0, states)
    ensures ok ==> Threaded(states, places, paths + {p}, anchors) && Present(states, paths + {p})
    ensures ok ==> Measured(states, places, paths + {p}, anchors)
    ensures !ok ==> TooLarge(paths + {p}, anchors)
  {
    hide Threaded, Present, PrefixFree, Walk, Adding, Extended, Measured, TooLarge, Rooted;
    ghost var all := paths + {p};
    states, places := states0, places0;
    var current: nat := p.source;
    StartAdding(states, places, paths, anchors, p);
    for index := 0 to |p.bytes|
      invariant Adding(states, places, all, anchors, p, index, current) && Present(states, paths)
      invariant SameFlags(states0, states)
      invariant Measured(states, places, if index < |p.bytes| then paths else all, anchors)
    {
      MeasuredIsRooted(states, places, paths, anchors);
      AddingParts(states, places, all, anchors, p, index, current);
      var last := index + 1 == |p.bytes|;
      var byte := p.bytes[index];
      var existing := Lookup(states[current].edges, byte);
      if existing.Some? {
        FollowEdge(states, places, all, anchors, p, index, current);
        AddingParts(states, places, all, anchors, p, index + 1, existing.value);
        assert !(last && existing.value != p.target);
        if last { AlreadyThere(states, places, paths, all, anchors, p, current); }
        current := existing.value;
        continue;
      }
      if !last && |states| >= MAX_GRAPH_STATES {
        CapMet(states, places, all, anchors, p, index, current);
        return false, states, places;
      }
      var next: nat := if last then p.target else |states|;
      NewEdge(states, places, all, anchors, p, index, current);
      PresentExtended(states, current, byte, next, !last, paths);
      AnchorsKept(states, current, byte, next, !last);
      if last {
        NotYetThere(states, places, paths, all, anchors, p, current);
        MeasuredLast(states, places, paths, anchors, current, byte, p);
      } else {
        AddingPlace(states, places, all, anchors, p, index, current);
        MeasuredInner(states, places, paths, anchors, current, byte);
      }
      places := if last then places else places + [Place(p.source, p.bytes[..index + 1])];
      states := Extended(states, current, byte, next, !last);
      current := next;
    }
    AddingParts(states, places, all, anchors, p, |p.bytes|, current);
    PresentMore(states, paths, p);
    ok := true;
  }

  lemma MeasuredIsRooted(states: seq<ByteState>, places: seq<Place>, paths: set<Path>, anchors: nat)
    requires Measured(states, places, paths, anchors)
    ensures Rooted(states, places)
  {}

  lemma AddingPlace(states: seq<ByteState>, places: seq<Place>, paths: set<Path>, anchors: nat, p: Path, i: nat, current: nat)
    requires Adding(states, places, paths, anchors, p, i, current) && i < |p.bytes|
    ensures |places| == |states| && anchors <= |states|
    ensures Place(places[current].anchor, places[current].read + [p.bytes[i]]) == Place(p.source, p.bytes[..i + 1])
  {
    assert p.bytes[..i] + [p.bytes[i]] == p.bytes[..i + 1];
  }

  lemma PresentMore(states: seq<ByteState>, paths: set<Path>, p: Path)
    requires Present(states, paths) && Walk(states, p.source, p.bytes) == Some(p.target)
    ensures Present(states, paths + {p})
  {}

  // --- the size of the finished table ---------------------------------------------------------------------------------------

  lemma {:induction false} WalkPrefix(states: seq<ByteState>, q: nat, u: Word, v: Word)
    requires Walk(states, q, u + v).Some?
    ensures Walk(states, q, u).Some?
    decreases |u|
  {
    if u != [] {
      assert (u + v)[1..] == u[1..] + v;
      WalkPrefix(states, Lookup(states[q].edges, u[0]).value, u[1..], v);
    }
  }

  /** Every prefix of a path has its state. */
  lemma {:induction false} Placed(states: seq<ByteState>, places: seq<Place>, paths: set<Path>, anchors: nat, p: Path, i: nat)
    returns (current: nat)
    requires Threaded(states, places, paths, anchors) && Present(states, paths) && PrefixFree(paths)
    requires p in paths && p.source < anchors && i < |p.bytes|
    ensures Adding(states, places, paths, anchors, p, i, current)
  {
    hide RowFits, Inside, PrefixFree, Walk;
    if i == 0 {
      current := p.source;
      WalkNothing(states, p.source);
    } else {
      var before := Placed(states, places, paths, anchors, p, i - 1);
      assert p.bytes[..i] + p.bytes[i..] == p.bytes && p.bytes[..i - 1] + [p.bytes[i - 1]] == p.bytes[..i];
      WalkPrefix(states, p.source, p.bytes[..i], p.bytes[i..]);
      WalkSnoc(states, p.source, p.bytes[..i - 1], p.bytes[i - 1]);
      FollowEdge(states, places, paths, anchors, p, i - 1, before);
      current := Lookup(states[before].edges, p.bytes[i - 1]).value;
    }
  }

  lemma WalkNothing(states: seq<ByteState>, q: nat)
    ensures Walk(states, q, []) == Some(q)
  {}

  lemma PlaceFound(states: seq<ByteState>, places: seq<Place>, paths: set<Path>, anchors: nat, place: Place)
    requires Threaded(states, places, paths, anchors) && Present(states, paths) && PrefixFree(paths)
    requires Inside(place, paths, anchors)
    ensures anchors <= |places| && place in places[anchors..]
  {
    hide PrefixFree, Walk, RowFits;
    var p :| OnPath(place, paths, p);
    var k := |place.read|;
    assert p.bytes[..k] == place.read;
    var q := Placed(states, places, paths, anchors, p, k);
    assert places[q] == place && q >= anchors;
    assert places[anchors..][q - anchors] == place;
  }

  /** The table exceeds the graph caps exactly when the paths do. */
  lemma TableSize(states: seq<ByteState>, places: seq<Place>, paths: set<Path>, anchors: nat)
    requires Threaded(states, places, paths, anchors) && Present(states, paths) && PrefixFree(paths)
    requires Measured(states, places, paths, anchors)
    ensures TooLarge(paths, anchors) <==> |states| > MAX_GRAPH_STATES || |FlatEdges(states)| > MAX_GRAPH_EDGES
  {
    hide Threaded, Present, PrefixFree, Rooted, Arrived, Inside, FlatEdges;
    InnerPlaces(states, places, paths, anchors);
    var inner := places[anchors..];
    if TooLarge(paths, anchors) {
      var more :| Inner(more, paths, anchors) && Exceeds(|more|, |paths|, anchors);
      forall k | 0 <= k < |more| ensures more[k] in inner { PlaceFound(states, places, paths, anchors, more[k]); }
      Finite.DistinctWithin(more, inner);
    }
    if Exceeds(|inner|, |paths|, anchors) { assert TooLarge(paths, anchors); }
  }

  // --- what the finished table accepts --------------------------------------------------------------------------------------

  ghost predicate Leaves(states: seq<ByteState>, paths: set<Path>, a: nat, w: Word, p: Path) {
    && p in paths && p.source == a && p.bytes <= w
    && Accepts(states, p.target, w[|p.bytes|..])
  }

  lemma {:induction false} FirstPath(states: seq<ByteState>, places: seq<Place>, paths: set<Path>, anchors: nat, q: nat, w: Word)
    returns (p: Path, k: nat)
    requires Threaded(states, places, paths, anchors) && q < |states| && Accepts(states, q, w)
    requires w != [] || q >= anchors
    ensures 0 < k <= |w| && p in paths && p.source == places[q].anchor && p.bytes == places[q].read + w[..k]
    ensures Accepts(states, p.target, w[k..])
    decreases |w|
  {
    hide Inside, Deterministic;
    var edges := states[q].edges;
    LookupIsEdge(edges, w[0]);
    var t := Lookup(edges, w[0]).value;
    assert RowFits(edges, places[q], places, paths, anchors);
    assert EdgeFits(places[q], w[0], t, places, paths, anchors);
    assert w[..1] == [w[0]];
    if t < anchors {
      p, k := Path(places[q].anchor, places[q].read + [w[0]], t), 1;
    } else {
      var j;
      p, j := FirstPath(states, places, paths, anchors, t, w[1..]);
      k := j + 1;
      Rejoin(places[q].read, w, j);
    }
  }

  lemma Rejoin(read: Word, w: Word, j: nat)
    requires j < |w|
    ensures read + [w[0]] + w[1..][..j] == read + w[..j + 1] && w[1..][j..] == w[j + 1..]
  {
    assert [w[0]] + w[1..][..j] == w[..j + 1];
  }

  /** A fixed state accepts by stopping there, or along one of its paths. */
  lemma AnchorAccepts(states: seq<ByteState>, places: seq<Place>, paths: set<Path>, anchors: nat, a: nat, w: Word)
    requires Threaded(states, places, paths, anchors) && Present(states, paths) && a < anchors
    ensures Accepts(states, a, w) <==>
              (w == [] && states[a].accepting) || exists p :: Leaves(states, paths, a, w, p)
  {
    hide Inside, RowFits, Walk;
    if Accepts(states, a, w) && w != [] {
      var p, k := FirstPath(states, places, paths, anchors, a, w);
      assert p.bytes == w[..k];
      assert Leaves(states, paths, a, w, p);
    }
    if p :| Leaves(states, paths, a, w, p) {
      WalkAccepts(states, a, p.bytes, w[|p.bytes|..]);
      assert w == p.bytes + w[|p.bytes|..];
    }
  }

  lemma ThreadedRowsOk(states: seq<ByteState>, places: seq<Place>, paths: set<Path>, anchors: nat)
    requires Threaded(states, places, paths, anchors)
    ensures RowsOk(states, |states|)
  {
    hide Inside;
    forall q | 0 <= q < |states| ensures RowOk(states[q].edges, |states|) {
      var edges := states[q].edges;
      assert RowFits(edges, places[q], places, paths, anchors);
      forall i | 0 <= i < |edges| ensures edges[i].1 < |states| {
        assert (edges[i].0, edges[i].1) in edges;
        assert EdgeFits(places[q], edges[i].0, edges[i].1, places, paths, anchors);
      }
    }
  }
}
