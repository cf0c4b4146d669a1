/** Product automata over reference engines (automaton/product.rs): allOf, anyOf, oneOf and
    difference as one breadth-first construction over tuples of states. */
module Product {
  import opened Outcome
  import opened Languages
  import opened Graph
  import opened Engine
  import opened Discovery
  import Finite
  import Materialize
  import Reachability

  const MAX_PRODUCT_STATES: nat := 65536
  const MAX_PRODUCT_BRANCHES: nat := 256
  const MAX_PRODUCT_EDGES: nat := 1048576
  const USIZE_MAX: nat := 0xFFFF_FFFF_FFFF_FFFF

  datatype Combinator = All | Any | ExactlyOne | Difference

  function CountTrue(v: seq<bool>): nat {
    if v == [] then 0 else (if v[0] then 1 else 0) + CountTrue(v[1..])
  }

  /** What a combinator asks of the verdicts of its branches. */
  ghost predicate Holds(c: Combinator, v: seq<bool>) {
    match c
    case All => forall i :: 0 <= i < |v| ==> v[i]
    case Any => exists i :: 0 <= i < |v| && v[i]
    case ExactlyOne => exists i :: 0 <= i < |v| && v[i] && forall j :: 0 <= j < |v| && j != i ==> !v[j]
    case Difference => |v| > 0 && v[0] && forall i :: 1 <= i < |v| ==> !v[i]
  }

  type Tuple = seq<nat>

  function ComponentFlags(engines: seq<RefEngine>, t: Tuple): (v: seq<bool>)
    requires |t| == |engines|
    ensures |v| == |engines|
  {
    seq(|engines|, i requires 0 <= i < |engines| => engines[i].table.IsAccepting(t[i]))
  }

  /** `accepts_states`, as iterator expressions over the flags. */
  predicate AcceptsStates(c: Combinator, engines: seq<RefEngine>, t: Tuple)
    requires |t| == |engines|
  {
    var v := ComponentFlags(engines, t);
    match c
    case All => false !in v
    case Any => true in v
    case ExactlyOne => CountTrue(v) == 1
    case Difference => v != [] && v[0] && true !in v[1..]
  }

  lemma {:induction false} CountTrueZero(v: seq<bool>)
    ensures CountTrue(v) == 0 <==> true !in v
  {
    if v != [] { CountTrueZero(v[1..]); assert v == [v[0]] + v[1..]; }
  }

  lemma {:induction false} CountTrueOne(v: seq<bool>)
    ensures CountTrue(v) == 1 <==> Holds(ExactlyOne, v)
  {
    if v != [] {
      CountTrueZero(v[1..]);
      CountTrueOne(v[1..]);
      if v[0] {
        if CountTrue(v) == 1 {
          forall j | 0 <= j < |v| && j != 0 ensures !v[j] { assert v[1..][j - 1] == v[j]; }
          assert Holds(ExactlyOne, v);
        }
        if Holds(ExactlyOne, v) {
          forall j | 0 <= j < |v[1..]| ensures !v[1..][j] { assert v[1..][j] == v[j + 1]; }
        }
      } else {
        if Holds(ExactlyOne, v[1..]) {
          var i :| 0 <= i < |v[1..]| && v[1..][i] && forall j :: 0 <= j < |v[1..]| && j != i ==> !v[1..][j];
          assert v[i + 1];
          forall j | 0 <= j < |v| && j != i + 1 ensures !v[j] { if j > 0 { assert v[1..][j - 1] == v[j]; } }
        }
        if Holds(ExactlyOne, v) {
          var i :| 0 <= i < |v| && v[i] && forall j :: 0 <= j < |v| && j != i ==> !v[j];
          assert v[1..][i - 1];
        }
      }
    }
  }

  /** The combinator expressions decide exactly `Holds`. */
  lemma AcceptsStatesHolds(c: Combinator, engines: seq<RefEngine>, t: Tuple)
    requires |t| == |engines|
    ensures AcceptsStates(c, engines, t) <==> Holds(c, ComponentFlags(engines, t))
  {
    var v := ComponentFlags(engines, t);
    match c {
      case All => if false !in v { forall i | 0 <= i < |v| ensures v[i] { assert v[i] in v; } }
      case Any =>
      case ExactlyOne => CountTrueOne(v);
      case Difference =>
        if v != [] {
          if true !in v[1..] { forall i | 1 <= i < |v| ensures !v[i] { assert v[1..][i - 1] == v[i]; } }
        }
    }
  }

  // --- the tuple automaton ----------------------------------------------------------------------------

  ghost predicate TupleOk(engines: seq<RefEngine>, t: Tuple) {
    |t| == |engines| && forall i :: 0 <= i < |t| ==> t[i] < engines[i].StateCount()
  }

  function Successor(engines: seq<RefEngine>, t: Tuple, b: Byte): (t': Tuple)
    requires |t| == |engines|
    ensures |t'| == |t|
  {
    seq(|t|, i requires 0 <= i < |t| => engines[i].table.Next(t[i], b))
  }

  predicate AllDead(t: Tuple) {
    forall i :: 0 <= i < |t| ==> t[i] == DEAD
  }

  function TupleNext(engines: seq<RefEngine>, t: Tuple, b: Byte): Option<Tuple> {
    if |t| != |engines| || AllDead(Successor(engines, t, b)) then None else Some(Successor(engines, t, b))
  }

  ghost function NextOf(engines: seq<RefEngine>): (Tuple, Byte) -> Option<Tuple> {
    (t, b) => TupleNext(engines, t, b)
  }

  ghost function AccOf(c: Combinator, engines: seq<RefEngine>): Tuple -> bool {
    t => |t| == |engines| && AcceptsStates(c, engines, t)
  }

  ghost predicate AllValid(engines: seq<RefEngine>) {
    forall i :: 0 <= i < |engines| ==> engines[i].Valid()
  }

  /** The verdicts of the branches on one word. */
  ghost function Verdicts(engines: seq<RefEngine>, t: Tuple, w: Word): (v: seq<bool>)
    requires |t| == |engines|
    ensures |v| == |engines|
  {
    seq(|engines|, i requires 0 <= i < |engines| => engines[i].table.Accepts(t[i], w))
  }

  function Starts(engines: seq<RefEngine>): (t: Tuple)
    ensures |t| == |engines|
  {
    seq(|engines|, i requires 0 <= i < |engines| => engines[i].start)
  }

  ghost predicate InProduct(c: Combinator, engines: seq<RefEngine>, w: Word) {
    exists v: seq<bool> :: BranchVerdicts(engines, w, v) && Holds(c, v)
  }

  /** `v[i]` says whether branch `i` accepts `w`. */
  ghost predicate BranchVerdicts(engines: seq<RefEngine>, w: Word, v: seq<bool>) {
    |v| == |engines| && forall i :: 0 <= i < |v| ==> (v[i] <==> w in engines[i].Language())
  }

  /** The words on which the combinator holds of the branches' verdicts. */
  ghost function ProductLanguage(c: Combinator, engines: seq<RefEngine>): Lang {
    iset w: Word | InProduct(c, engines, w)
  }

  lemma SuccessorOk(engines: seq<RefEngine>, t: Tuple, b: Byte)
    requires AllValid(engines) && TupleOk(engines, t)
    ensures TupleOk(engines, Successor(engines, t, b))
  {
    forall i | 0 <= i < |t| ensures Successor(engines, t, b)[i] < engines[i].StateCount() {
      engines[i].table.NextInRange(t[i], b);
    }
  }

  lemma NobodyAccepts(c: Combinator, v: seq<bool>)
    requires |v| > 0 && forall i :: 0 <= i < |v| ==> !v[i]
    ensures !Holds(c, v)
  {
    assert !v[0];
  }

  lemma DeadVerdicts(engines: seq<RefEngine>, t: Tuple, w: Word)
    requires AllValid(engines) && |t| == |engines| && AllDead(t)
    ensures forall i :: 0 <= i < |engines| ==> !Verdicts(engines, t, w)[i]
  {
    forall i | 0 <= i < |engines| ensures !Verdicts(engines, t, w)[i] { engines[i].table.DeadIsSink(w); }
  }

  /** A tuple accepts a word exactly when the combinator holds of its components' verdicts; leaving out
      the all-dead tuples loses nothing. */
  lemma {:induction false} TupleAccepts(c: Combinator, engines: seq<RefEngine>, t: Tuple, w: Word)
    requires AllValid(engines) && |engines| > 0 && TupleOk(engines, t)
    ensures KeyAccepts(NextOf(engines), AccOf(c, engines), t, w) <==> Holds(c, Verdicts(engines, t, w))
    decreases |w|
  {
    hide Holds, RefEngine.Valid, AcceptsStates;
    if w == [] {
      AcceptsStatesHolds(c, engines, t);
      assert Verdicts(engines, t, w) == ComponentFlags(engines, t);
    } else {
      var t' := Successor(engines, t, w[0]);
      SuccessorOk(engines, t, w[0]);
      assert Verdicts(engines, t, w) == Verdicts(engines, t', w[1..]);
      if AllDead(t') {
        DeadVerdicts(engines, t', w[1..]);
        NobodyAccepts(c, Verdicts(engines, t', w[1..]));
      } else {
        TupleAccepts(c, engines, t', w[1..]);
      }
    }
  }

  lemma StartAccepts(c: Combinator, engines: seq<RefEngine>, w: Word)
    requires AllValid(engines) && |engines| > 0
    ensures KeyAccepts(NextOf(engines), AccOf(c, engines), Starts(engines), w) <==> InProduct(c, engines, w)
  {
    TupleAccepts(c, engines, Starts(engines), w);
    var v := Verdicts(engines, Starts(engines), w);
    assert BranchVerdicts(engines, w, v);
    hide KeyAccepts, Verdicts, RefEngine.Language, Holds, Starts;
    forall u | BranchVerdicts(engines, w, u) ensures u == v { SameVerdicts(engines, w, u, v); }
  }

  lemma SameVerdicts(engines: seq<RefEngine>, w: Word, u: seq<bool>, v: seq<bool>)
    requires BranchVerdicts(engines, w, u) && BranchVerdicts(engines, w, v)
    ensures u == v
  {
    hide RefEngine.Language;
  }

  // --- the admission bound ----------------------------------------------------------------------------

  ghost function StateProduct(engines: seq<RefEngine>): nat {
    if engines == [] then 1 else StateProduct(engines[..|engines| - 1]) * engines[|engines| - 1].StateCount()
  }

  /** Mixed-radix number of a tuple. */
  ghost function Encode(engines: seq<RefEngine>, t: Tuple): nat
    requires |t| == |engines|
  {
    if engines == [] then 0
    else
      var k := |engines| - 1;
      Encode(engines[..k], t[..k]) * engines[k].StateCount() + t[k]
  }

  lemma {:induction false} MulGap(a: nat, k: nat, n: nat)
    ensures (a + k) * n >= a * n + (if k > 0 then n else 0)
  {
    if k > 0 {
      MulGap(a, k - 1, n);
      assert (a + k) * n == (a + k - 1) * n + n;
    }
  }

  lemma DigitsDiffer(a: nat, d: nat, a': nat, d': nat, n: nat)
    requires d < n && a < a'
    ensures a * n + d < a' * n + d'
  {
    MulGap(a, a' - a, n);
  }

  lemma MixedRadix(a: nat, d: nat, a': nat, d': nat, n: nat)
    requires d < n && d' < n && a * n + d == a' * n + d'
    ensures a == a' && d == d'
  {
    if a < a' { DigitsDiffer(a, d, a', d', n); }
    if a' < a { DigitsDiffer(a', d', a, d, n); }
  }

  lemma {:induction false} EncodeInjective(engines: seq<RefEngine>, t: Tuple, u: Tuple)
    requires TupleOk(engines, t) && TupleOk(engines, u) && Encode(engines, t) == Encode(engines, u)
    ensures t == u
  {
    if engines != [] {
      var k := |engines| - 1;
      MixedRadix(Encode(engines[..k], t[..k]), t[k], Encode(engines[..k], u[..k]), u[k], engines[k].StateCount());
      EncodeInjective(engines[..k], t[..k], u[..k]);
      assert t == t[..k] + [t[k]] && u == u[..k] + [u[k]];
    }
  }

  lemma {:induction false} EncodeBelow(engines: seq<RefEngine>, t: Tuple)
    requires TupleOk(engines, t)
    ensures Encode(engines, t) < StateProduct(engines)
  {
    if engines != [] {
      var k := |engines| - 1;
      EncodeBelow(engines[..k], t[..k]);
      var n := engines[k].StateCount();
      assert (Encode(engines[..k], t[..k]) + 1) * n <= StateProduct(engines[..k]) * n;
    }
  }

  /** Distinct tuples of states never outnumber the product of the state counts. */
  lemma TuplesBounded(engines: seq<RefEngine>, keys: seq<Tuple>)
    requires Finite.Distinct(keys) && forall i :: 0 <= i < |keys| ==> TupleOk(engines, keys[i])
    ensures |keys| <= StateProduct(engines)
  {
    var codes := seq(|keys|, i requires 0 <= i < |keys| => Encode(engines, keys[i]));
    forall i, j | 0 <= i < j < |keys| ensures codes[i] != codes[j] {
      if codes[i] == codes[j] { EncodeInjective(engines, keys[i], keys[j]); }
    }
    forall i | 0 <= i < |codes| ensures codes[i] < StateProduct(engines) { EncodeBelow(engines, keys[i]); }
    Finite.Pigeonhole(codes, StateProduct(engines));
  }

  lemma {:induction false} LeadsToOk(engines: seq<RefEngine>, t: Tuple, w: Word, u: Tuple)
    requires AllValid(engines) && TupleOk(engines, t) && LeadsTo(NextOf(engines), t, w, u)
    ensures TupleOk(engines, u)
    decreases |w|
  {
    if w != [] {
      SuccessorOk(engines, t, w[0]);
      LeadsToOk(engines, Successor(engines, t, w[0]), w[1..], u);
    }
  }

  lemma StartsOk(engines: seq<RefEngine>)
    requires AllValid(engines)
    ensures TupleOk(engines, Starts(engines))
  {}

  /** A product that fits its Cartesian bound never exceeds the caps. */
  lemma FittingProductNotOversized(engines: seq<RefEngine>, maxStates: nat, maxEdges: nat)
    requires AllValid(engines)
    requires StateProduct(engines) <= maxStates && StateProduct(engines) * 256 <= maxEdges
    ensures !Oversized(NextOf(engines), Starts(engines), maxStates, maxEdges)
  {
    forall ks: seq<Tuple> ensures !ExceedsCaps(NextOf(engines), Starts(engines), ks, maxStates, maxEdges) {
      if DistinctReached(NextOf(engines), Starts(engines), ks) {
        StartsOk(engines);
        forall i | 0 <= i < |ks| ensures TupleOk(engines, ks[i]) {
          var w :| LeadsTo(NextOf(engines), Starts(engines), w, ks[i]);
          LeadsToOk(engines, Starts(engines), w, ks[i]);
        }
        TuplesBounded(engines, ks);
        OutDegreeBound(NextOf(engines), ks);
      }
    }
  }

  lemma AtLeastOne(x: nat, y: nat)
    requires x >= 1 && y >= 1
    ensures x * y >= 1
  {}

  lemma {:induction false} StateProductPositive(engines: seq<RefEngine>)
    requires AllValid(engines)
    ensures StateProduct(engines) >= 1
  {
    if engines != [] {
      var k := |engines| - 1;
      hide RefEngine.Valid;
      StateProductPositive(engines[..k]);
      AtLeastOne(StateProduct(engines[..k]), engines[k].StateCount());
    }
  }

  /** The checked product of the state counts, or the machine maximum once it overflows. */
  method WorstCaseStates(engines: seq<RefEngine>) returns (worst: nat)
    requires AllValid(engines)
    ensures StateProduct(engines) <= USIZE_MAX ==> worst == StateProduct(engines)
    ensures StateProduct(engines) > USIZE_MAX ==> worst == USIZE_MAX
  {
    worst := 1;
    for i := 0 to |engines|
      invariant worst == StateProduct(engines[..i]) <= USIZE_MAX
    {
      assert engines[..i + 1][..i] == engines[..i];
      if worst * engines[i].StateCount() > USIZE_MAX {
        StateProductGrows(engines, i + 1);
        return USIZE_MAX;
      }
      worst := worst * engines[i].StateCount();
    }
    assert engines[..|engines|] == engines;
  }

  lemma {:induction false} StateProductGrows(engines: seq<RefEngine>, i: nat)
    requires AllValid(engines) && i <= |engines|
    ensures StateProduct(engines[..i]) <= StateProduct(engines)
    decreases |engines| - i
  {
    if i == |engines| {
      assert engines[..i] == engines;
    } else {
      assert engines[..i + 1][..i] == engines[..i];
      var p, n := StateProduct(engines[..i]), engines[i].StateCount();
      assert p * n >= p;
      StateProductGrows(engines, i + 1);
    }
  }

  // --- the construction ---------------------------------------------------------------------------------

  /** One component over one byte; a component that is already dead stays dead. */
  method StepComponent(e: RefEngine, s: nat, byte: Byte) returns (t: nat)
    requires e.Valid() && s < e.StateCount()
    ensures t == e.table.Next(s, byte) && (e.IsDead(t) <==> t == DEAD)
  {
    e.table.NextInRange(s, byte);
    assert e.table.Walk(s, [byte]) == e.table.Next(s, byte);
    if e.IsDead(s) {
      e.table.DeadIsSink([byte]);
      t := DEAD;
    } else {
      var consumed := e.ConsumeToken(s, [byte]);
      t := if consumed.Some? then consumed.value else DEAD;
    }
  }

  lemma AllDeadNone()
    ensures AllDead([])
  {}

  lemma AllDeadSnoc(t: Tuple, s: nat)
    ensures AllDead(t + [s]) <==> AllDead(t) && s == DEAD
  {
    var u := t + [s];
    assert u[|t|] == s && forall i :: 0 <= i < |t| ==> u[i] == t[i];
  }

  method StepTuple(engines: seq<RefEngine>, tuple: Tuple, byte: Byte) returns (next: Tuple, allDead: bool)
    requires AllValid(engines) && TupleOk(engines, tuple)
    ensures next == Successor(engines, tuple, byte) && allDead == AllDead(next)
  {
    hide RefEngine.Valid, AllDead;
    next, allDead := [], true;
    AllDeadNone();
    for i := 0 to |tuple|
      invariant next == Successor(engines, tuple, byte)[..i]
      invariant allDead == AllDead(next)
    {
      var t := StepComponent(engines[i], tuple[i], byte);
      AllDeadSnoc(next, t);
      if !engines[i].IsDead(t) { allDead := false; }
      next := next + [t];
    }
  }

  lemma KeyOk(engines: seq<RefEngine>, t: Tuple)
    requires AllValid(engines) && Reached(NextOf(engines), Starts(engines), t)
    ensures TupleOk(engines, t) && |t| == |engines|
  {
    var w :| LeadsTo(NextOf(engines), Starts(engines), w, t);
    StartsOk(engines);
    LeadsToOk(engines, Starts(engines), w, t);
  }

  lemma AcceptsTuple(c: Combinator, engines: seq<RefEngine>, t: Tuple)
    requires |t| == |engines|
    ensures AcceptsStates(c, engines, t) == AccOf(c, engines)(t)
  {}

  method ExpandByte(engines: seq<RefEngine>, tuple: Tuple, byte: Byte, s0: Search<Tuple>, edges0: seq<(Byte, nat)>,
                    total0: nat, maxStates: nat, maxEdges: nat, ghost keys0: seq<Tuple>, ghost index: nat)
    returns (ok: bool, s: Search<Tuple>, edges: seq<(Byte, nat)>, total: nat, ghost keys: seq<Tuple>)
    requires AllValid(engines) && TupleOk(engines, tuple)
    requires Expanding(s0, keys0, index, edges0, total0, byte, NextOf(engines), Starts(engines))
    requires tuple == keys0[index]
    ensures ok ==> keys0 <= keys
    ensures ok ==> Expanding(s, keys, index, edges, total, byte + 1, NextOf(engines), Starts(engines))
    ensures ok ==> (keys == keys0 && total == total0) || (|keys| <= maxStates && total <= maxEdges)
    ensures !ok ==> Oversized(NextOf(engines), Starts(engines), maxStates, maxEdges)
  {
    var successor, allDead := StepTuple(engines, tuple, byte);
    if allDead {
      RowSkip(edges0, keys0, NextOf(engines), tuple, byte);
      return true, s0, edges0, total0, keys0;
    }
    ok, s, edges, total, keys := PushEdge(successor, byte, s0, edges0, total0, maxStates, maxEdges,
                                          keys0, index, NextOf(engines), Starts(engines));
  }

  /** The 256 successors of one tuple, while its own row is taken out of the table. */
  method ExpandRow(engines: seq<RefEngine>, tuple: Tuple, s0: Search<Tuple>, total0: nat, maxStates: nat, maxEdges: nat,
                   ghost keys0: seq<Tuple>, ghost index: nat)
    returns (ok: bool, edges: seq<(Byte, nat)>, s: Search<Tuple>, total: nat, ghost keys: seq<Tuple>)
    requires AllValid(engines) && TupleOk(engines, tuple)
    requires index < |keys0| && tuple == keys0[index]
    requires RowState(s0, keys0, index, NextOf(engines), Starts(engines))
    requires total0 == OutDegree(NextOf(engines), keys0[..index]) <= maxEdges
    requires |keys0| <= maxStates || |keys0| == 1
    ensures ok ==> keys0 <= keys && Expanding(s, keys, index, edges, total, 256, NextOf(engines), Starts(engines))
    ensures ok ==> total <= maxEdges && (|keys| <= maxStates || |keys| == 1)
    ensures !ok ==> Oversized(NextOf(engines), Starts(engines), maxStates, maxEdges)
  {
    hide *;
    edges, s, total, keys, ok := [], s0, total0, keys0, true;
    StartExpanding(s0, keys0, index, total0, NextOf(engines), Starts(engines));
    for byte := 0 to 256
      invariant keys0 <= keys && keys[index] == tuple
      invariant Expanding(s, keys, index, edges, total, byte, NextOf(engines), Starts(engines))
      invariant ok && total <= maxEdges && (|keys| <= maxStates || |keys| == 1)
    {
      ok, s, edges, total, keys :=
        ExpandByte(engines, tuple, byte, s, edges, total, maxStates, maxEdges, keys, index);
      if !ok { return; }
    }
  }

  /** The forward search over tuples. */
  method Explore(c: Combinator, engines: seq<RefEngine>, maxStates: nat, maxEdges: nat)
    returns (ok: bool, states: seq<ByteState>, ghost keys: seq<Tuple>)
    requires AllValid(engines) && |engines| > 0
    ensures ok ==> Complete(states, keys, NextOf(engines), AccOf(c, engines), Starts(engines))
    ensures ok ==> |FlatEdges(states)| <= maxEdges && (|states| <= maxStates || |states| == 1)
    ensures !ok ==> Oversized(NextOf(engines), Starts(engines), maxStates, maxEdges)
  {
    hide *;
    ghost var next, acc := NextOf(engines), AccOf(c, engines);
    var start := Starts(engines);
    var s := Search([start], map[start := 0], [0]);
    var total: nat := 0;
    ok, states, keys := true, [], [start];
    StartSearch(start, next, acc);
    while s.queue != []
      invariant ok && Searching(s, keys, states, total, next, acc, start)
      invariant total <= maxEdges && (|keys| <= maxStates || |keys| == 1)
      decreases maxStates + 1 - |states|
    {
      OpenRow(s, keys, states, total, next, acc, start, []);
      var index := s.queue[0];
      var tuple := s.order[index];
      KeyOk(engines, tuple);
      ghost var before := keys;
      var edges;
      ok, edges, s, total, keys := ExpandRow(engines, tuple, Search(s.order[index := []], s.indexOf, s.queue[1..]),
                                             total, maxStates, maxEdges, keys, index);
      if !ok { return; }
      var accepting := AcceptsStates(c, engines, tuple);
      AcceptsTuple(c, engines, tuple);
      CloseRow(s, keys, before, states, edges, accepting, total, next, acc, start);
      s := s.(order := s.order[index := tuple]);
      states := states + [ByteState(accepting, edges)];
    }
    SearchDone(s, keys, states, total, next, acc, start);
    CompleteSize(states, keys, next, acc, start);
  }

  // --- trimming -------------------------------------------------------------------------------------------

  /** Live states get the ids 0, 1, ... in order; `origin` lists them. */
  ghost predicate Compacts(live: seq<bool>, finalId: seq<Option<nat>>, origin: seq<nat>) {
    && |finalId| == |live|
    && (forall i :: 0 <= i < |live| ==> (finalId[i].Some? <==> live[i]))
    && (forall i :: 0 <= i < |live| && live[i] ==> finalId[i].value < |origin| && origin[finalId[i].value] == i)
    && (forall k :: 0 <= k < |origin| ==> origin[k] < |live| && finalId[origin[k]] == Some(k))
  }

  ghost predicate Increasing(live: seq<bool>, finalId: seq<Option<nat>>)
    requires |finalId| == |live|
    requires forall i :: 0 <= i < |live| && live[i] ==> finalId[i].Some?
  {
    forall j, l :: 0 <= j < l < |live| && live[j] && live[l] ==> finalId[j].value < finalId[l].value
  }

  method CompactIds(live: seq<bool>) returns (finalId: seq<Option<nat>>, next: nat, ghost origin: seq<nat>)
    ensures Compacts(live, finalId, origin) && next == |origin| <= |live|
    ensures Increasing(live, finalId)
  {
    finalId := seq(|live|, _ => None);
    next := 0;
    origin := [];
    for i := 0 to |live|
      invariant |finalId| == |live| && next == |origin| <= i
      invariant forall j :: i <= j < |live| ==> finalId[j] == None
      invariant forall j :: 0 <= j < i ==> (finalId[j].Some? <==> live[j])
      invariant forall j :: 0 <= j < i && live[j] ==> finalId[j].value < |origin| && origin[finalId[j].value] == j
      invariant forall k :: 0 <= k < |origin| ==> origin[k] < i && finalId[origin[k]] == Some(k)
      invariant forall j, l :: 0 <= j < l < i && live[j] && live[l] ==> finalId[j].value < finalId[l].value
    {
      if live[i] {
        finalId := finalId[i := Some(next)];
        next := next + 1;
        origin := origin + [i];
      }
    }
  }

  /** Keeps the edges into live states, renumbered. */
  function TrimEdges(edges: seq<(Byte, nat)>, finalId: seq<Option<nat>>): (r: seq<(Byte, nat)>)
    ensures |r| <= |edges|
  {
    if edges == [] then []
    else
      var rest := TrimEdges(edges[1..], finalId);
      if edges[0].1 < |finalId| && finalId[edges[0].1].Some? then [(edges[0].0, finalId[edges[0].1].value)] + rest
      else rest
  }

  lemma {:induction false} TrimLookup(edges: seq<(Byte, nat)>, finalId: seq<Option<nat>>, b: Byte)
    requires Deterministic(edges)
    ensures Lookup(TrimEdges(edges, finalId), b) ==
            match Lookup(edges, b)
            case None => None
            case Some(t) => if t < |finalId| then finalId[t] else None
  {
    if edges != [] {
      TrimLookup(edges[1..], finalId, b);
      if edges[0].0 == b { LookupIsEdge(edges[1..], b); }
    }
  }

  lemma {:induction false} TrimKeepsAbsence(edges: seq<(Byte, nat)>, finalId: seq<Option<nat>>, b: Byte)
    requires Lookup(edges, b) == None
    ensures Lookup(TrimEdges(edges, finalId), b) == None
  {
    if edges != [] { TrimKeepsAbsence(edges[1..], finalId, b); }
  }

  lemma DeterministicCons(e: (Byte, nat), rest: seq<(Byte, nat)>)
    requires Deterministic(rest) && Lookup(rest, e.0) == None
    ensures Deterministic([e] + rest)
  {
    LookupIsEdge(rest, e.0);
  }

  lemma {:induction false} TrimRowOk(edges: seq<(Byte, nat)>, finalId: seq<Option<nat>>, n: nat)
    requires Deterministic(edges)
    requires forall i :: 0 <= i < |finalId| && finalId[i].Some? ==> finalId[i].value < n
    ensures RowOk(TrimEdges(edges, finalId), n)
  {
    if edges != [] {
      TrimRowOk(edges[1..], finalId, n);
      LookupIsEdge(edges[1..], edges[0].0);
      TrimKeepsAbsence(edges[1..], finalId, edges[0].0);
      if edges[0].1 < |finalId| && finalId[edges[0].1].Some? {
        DeterministicCons((edges[0].0, finalId[edges[0].1].value), TrimEdges(edges[1..], finalId));
      }
    }
  }

  ghost predicate TrimmedRows(states: seq<ByteState>, finalId: seq<Option<nat>>, origin: seq<nat>, out: seq<ByteState>) {
    && |out| <= |origin|
    && (forall k :: 0 <= k < |out| ==> origin[k] < |states|)
    && (forall k :: 0 <= k < |out| ==>
          out[k] == ByteState(states[origin[k]].accepting, TrimEdges(states[origin[k]].edges, finalId)))
  }

  lemma {:induction false} TrimAccepts(states: seq<ByteState>, live: seq<bool>, finalId: seq<Option<nat>>,
                                       origin: seq<nat>, out: seq<ByteState>, i: nat, w: Word)
    requires RowsOk(states, |states|) && |live| == |states| && Compacts(live, finalId, origin)
    requires forall q :: 0 <= q < |states| ==> (live[q] <==> Materialize.AcceptsSomething(states, q))
    requires TrimmedRows(states, finalId, origin, out) && |out| == |origin|
    requires i < |states| && live[i]
    ensures Accepts(out, finalId[i].value, w) <==> Accepts(states, i, w)
    decreases |w|
  {
    if w != [] {
      assert RowOk(states[i].edges, |states|);
      TrimLookup(states[i].edges, finalId, w[0]);
      match Lookup(states[i].edges, w[0]) {
        case None =>
        case Some(t) =>
          LookupIsEdge(states[i].edges, w[0]);
          if live[t] {
            TrimAccepts(states, live, finalId, origin, out, t, w[1..]);
          } else {
            assert !Materialize.AcceptsSomething(states, t);
          }
      }
    }
  }

  method TrimStates(states: seq<ByteState>, live: seq<bool>, finalId: seq<Option<nat>>, ghost origin: seq<nat>)
    returns (out: seq<ByteState>)
    requires |live| == |states| && Compacts(live, finalId, origin) && Increasing(live, finalId)
    ensures TrimmedRows(states, finalId, origin, out) && |out| == |origin|
    ensures |FlatEdges(out)| <= |FlatEdges(states)|
  {
    hide FlatEdges, TrimEdges;
    out := [];
    FlatNone(out);
    for i := 0 to |states|
      invariant TrimmedRows(states, finalId, origin, out)
      invariant forall j :: 0 <= j < i && live[j] ==> finalId[j].value < |out|
      invariant forall j :: i <= j < |states| && live[j] ==> finalId[j].value >= |out|
      invariant |FlatEdges(out)| <= |FlatEdges(states[..i])|
    {
      FlatStep(states, i);
      if live[i] {
        var row := ByteState(states[i].accepting, TrimEdges(states[i].edges, finalId));
        NextLive(live, finalId, origin, |out|, i);
        FlatSnoc(out, row);
        out := out + [row];
      }
    }
    assert states[..|states|] == states;
    AllPlaced(live, finalId, origin, |out|);
  }

  lemma AllPlaced(live: seq<bool>, finalId: seq<Option<nat>>, origin: seq<nat>, n: nat)
    requires Compacts(live, finalId, origin)
    requires forall j :: 0 <= j < |live| && live[j] ==> finalId[j].value < n
    ensures |origin| <= n
  {
    if origin != [] {
      var q := origin[|origin| - 1];
      assert live[q] && finalId[q].value == |origin| - 1;
    }
  }

  lemma NextLive(live: seq<bool>, finalId: seq<Option<nat>>, origin: seq<nat>, k: nat, i: nat)
    requires Compacts(live, finalId, origin) && Increasing(live, finalId) && i < |live| && live[i]
    requires forall j :: 0 <= j < i && live[j] ==> finalId[j].value < k
    requires finalId[i].value >= k
    ensures finalId[i].value == k < |origin| && origin[k] == i
    ensures forall j :: i < j < |live| && live[j] ==> finalId[j].value > k
  {
    var q := origin[k];
    assert finalId[q] == Some(k) && live[q];
  }

  lemma {:induction false} AcceptsAfter<K>(next: (K, Byte) -> Option<K>, acc: K -> bool, from: K, u: Word, to: K, v: Word)
    requires LeadsTo(next, from, u, to) && KeyAccepts(next, acc, to, v)
    ensures KeyAccepts(next, acc, from, u + v)
    decreases |u|
  {
    if u == [] {
      assert u + v == v;
    } else {
      assert (u + v)[1..] == u[1..] + v;
      AcceptsAfter(next, acc, next(from, u[0]).value, u[1..], to, v);
    }
  }

  /** Every discovered tuple comes from the start, so a dead start means a dead table. */
  lemma StartLiveIfAnyLive(c: Combinator, engines: seq<RefEngine>, states: seq<ByteState>, keys: seq<Tuple>, i: nat)
    requires Complete(states, keys, NextOf(engines), AccOf(c, engines), Starts(engines))
    requires i < |states| && Materialize.AcceptsSomething(states, i)
    ensures Materialize.AcceptsSomething(states, 0)
  {
    var next, acc := NextOf(engines), AccOf(c, engines);
    var v :| Accepts(states, i, v);
    TableAccepts(states, keys, next, acc, i, v);
    assert Reached(next, Starts(engines), keys[i]);
    var u :| LeadsTo(next, Starts(engines), u, keys[i]);
    AcceptsAfter(next, acc, Starts(engines), u, keys[i], v);
    TableAccepts(states, keys, next, acc, 0, u + v);
  }

  // --- the builder ----------------------------------------------------------------------------------------

  datatype ProductAutomaton = ProductAutomaton(states: seq<ByteState>, start: nat)

  /** Backward liveness over the raw rows. */
  method LiveTuples(states: seq<ByteState>) returns (live: seq<bool>)
    requires RowsOk(states, |states|)
    ensures |live| == |states|
    ensures forall q :: 0 <= q < |states| ==> (live[q] <==> Materialize.AcceptsSomething(states, q))
  {
    var rows := Materialize.StateRows(states);
    forall q | 0 <= q < |states| ensures RowOk(states[q].edges, |states|) {}
    var rev := Reachability.ReverseLists(rows, |rows|);
    live := Reachability.LiveStates(rows, Materialize.AcceptFlags(states), rev);
    forall q | 0 <= q < |states| ensures live[q] <==> Materialize.AcceptsSomething(states, q) {
      Materialize.LiveIffAccepts(states, q);
    }
  }

  lemma TrimmedRowsOk(states: seq<ByteState>, live: seq<bool>, finalId: seq<Option<nat>>, origin: seq<nat>, out: seq<ByteState>)
    requires RowsOk(states, |states|) && |live| == |states| && Compacts(live, finalId, origin)
    requires TrimmedRows(states, finalId, origin, out) && |out| == |origin|
    ensures RowsOk(out, |out|)
  {
    forall k | 0 <= k < |out| ensures RowOk(out[k].edges, |out|) {
      assert RowOk(states[origin[k]].edges, |states|);
      TrimRowOk(states[origin[k]].edges, finalId, |out|);
    }
  }

  /** Drops the rows that accept nothing. Row 0 survives unless every row is dropped, so falling back to
      row 0 never picks a wrong start. */
  method Trim(states: seq<ByteState>) returns (p: ProductAutomaton)
    requires RowsOk(states, |states|) && |states| > 0
    requires forall q :: 0 <= q < |states| && Materialize.AcceptsSomething(states, q) ==> Materialize.AcceptsSomething(states, 0)
    ensures 0 < |p.states| <= |states| && p.start < |p.states| && RowsOk(p.states, |p.states|)
    ensures |FlatEdges(p.states)| <= |FlatEdges(states)|
    ensures forall w :: Accepts(p.states, p.start, w) <==> Accepts(states, 0, w)
  {
    var live := LiveTuples(states);
    var finalId, next, origin := CompactIds(live);
    var out := TrimStates(states, live, finalId, origin);
    TrimmedRowsOk(states, live, finalId, origin, out);
    var start := if finalId[0].Some? then finalId[0].value else 0;
    if out == [] {
      assert !live[0] && !Materialize.AcceptsSomething(states, 0);
      assert FlatEdges([ByteState(false, [])]) == [];
      return ProductAutomaton([ByteState(false, [])], 0);
    }
    assert live[origin[0]];
    forall w: Word ensures Accepts(out, start, w) <==> Accepts(states, 0, w) {
      TrimAccepts(states, live, finalId, origin, out, 0, w);
    }
    p := ProductAutomaton(out, start);
  }

  ghost predicate Fits(engines: seq<RefEngine>, maxStates: nat, maxEdges: nat) {
    StateProduct(engines) <= maxStates && StateProduct(engines) * 256 <= maxEdges
  }

  /** What a finished product promises. */
  ghost predicate Implements(p: ProductAutomaton, c: Combinator, engines: seq<RefEngine>) {
    && p.start < |p.states| && RowsOk(p.states, |p.states|)
    && StatesLanguage(p.states, p.start) == ProductLanguage(c, engines)
  }

  lemma TrimmedImplements(p: ProductAutomaton, c: Combinator, engines: seq<RefEngine>, states: seq<ByteState>, keys: seq<Tuple>)
    requires AllValid(engines) && |engines| > 0
    requires Complete(states, keys, NextOf(engines), AccOf(c, engines), Starts(engines))
    requires p.start < |p.states| && RowsOk(p.states, |p.states|)
    requires forall w :: Accepts(p.states, p.start, w) <==> Accepts(states, 0, w)
    ensures Implements(p, c, engines)
  {
    forall w: Word ensures Accepts(p.states, p.start, w) <==> InProduct(c, engines, w) {
      CompleteAccepts(states, keys, NextOf(engines), AccOf(c, engines), Starts(engines), w);
      StartAccepts(c, engines, w);
    }
  }

  /** The whole builder. With the Cartesian pre-check on, it succeeds exactly when the product of the
      state counts fits both caps: past the pre-check the search never meets a cap. With it off, it fails
      exactly when the reachable tuples themselves exceed a cap. */
  method BuildCapped(c: Combinator, engines: seq<RefEngine>, maxStates: nat, maxEdges: nat, rejectOverCap: bool)
    returns (r: Result<ProductAutomaton>)
    requires AllValid(engines) && maxStates < USIZE_MAX && maxEdges < USIZE_MAX
    ensures engines == [] ==> r == Err(Malformed)
    ensures |engines| > MAX_PRODUCT_BRANCHES ==> r == Err(LimitExceeded)
    ensures r.Ok? ==> engines != [] && Implements(r.value, c, engines)
    ensures r.Ok? ==> |FlatEdges(r.value.states)| <= maxEdges && (|r.value.states| <= maxStates || |r.value.states| == 1)
    ensures r.Ok? ==> |r.value.states| <= StateProduct(engines)
    ensures 1 <= |engines| <= MAX_PRODUCT_BRANCHES && Fits(engines, maxStates, maxEdges) ==> r.Ok?
    ensures 1 <= |engines| <= MAX_PRODUCT_BRANCHES && rejectOverCap && r.Ok? ==> Fits(engines, maxStates, maxEdges)
    ensures r.Err? && engines != [] ==> r.error == LimitExceeded
    ensures 1 <= |engines| <= MAX_PRODUCT_BRANCHES && !rejectOverCap && maxStates > 0 ==>
              (r.Err? <==> Oversized(NextOf(engines), Starts(engines), maxStates, maxEdges))
  {
    hide Implements, Complete, Oversized, AllValid;
    if |engines| == 0 { return Err(Malformed); }
    if |engines| > MAX_PRODUCT_BRANCHES { return Err(LimitExceeded); }
    var worst := WorstCaseStates(engines);
    if rejectOverCap && worst > maxStates { return Err(LimitExceeded); }
    var worstEdges := if worst * 256 > USIZE_MAX then USIZE_MAX else worst * 256;
    if rejectOverCap && worstEdges > maxEdges { return Err(LimitExceeded); }
    var ok, states, keys := Explore(c, engines, maxStates, maxEdges);
    if !ok {
      if Fits(engines, maxStates, maxEdges) { FittingProductNotOversized(engines, maxStates, maxEdges); }
      return Err(LimitExceeded);
    }
    TableUsable(c, engines, states, keys);
    if maxStates > 0 { TuplesFit(c, engines, states, keys, maxStates, maxEdges); }
    var p := Trim(states);
    TrimmedImplements(p, c, engines, states, keys);
    r := Ok(p);
  }

  lemma TuplesFit(c: Combinator, engines: seq<RefEngine>, states: seq<ByteState>, keys: seq<Tuple>, maxStates: nat, maxEdges: nat)
    requires Complete(states, keys, NextOf(engines), AccOf(c, engines), Starts(engines))
    requires |FlatEdges(states)| <= maxEdges && (|states| <= maxStates || |states| == 1) && maxStates > 0
    ensures !Oversized(NextOf(engines), Starts(engines), maxStates, maxEdges)
  {
    hide NextOf, AccOf, Starts, Oversized, Complete;
    CompleteNotOversized(states, keys, NextOf(engines), AccOf(c, engines), Starts(engines), maxStates, maxEdges);
  }

  lemma TableUsable(c: Combinator, engines: seq<RefEngine>, states: seq<ByteState>, keys: seq<Tuple>)
    requires AllValid(engines) && Complete(states, keys, NextOf(engines), AccOf(c, engines), Starts(engines))
    ensures RowsOk(states, |states|) && |states| > 0
    ensures |states| <= StateProduct(engines)
    ensures forall q :: 0 <= q < |states| && Materialize.AcceptsSomething(states, q) ==> Materialize.AcceptsSomething(states, 0)
  {
    CompleteAccepts(states, keys, NextOf(engines), AccOf(c, engines), Starts(engines), []);
    forall i | 0 <= i < |keys| ensures TupleOk(engines, keys[i]) {
      assert Reached(NextOf(engines), Starts(engines), keys[i]);
      KeyOk(engines, keys[i]);
    }
    TuplesBounded(engines, keys);
    forall q | 0 <= q < |states| && Materialize.AcceptsSomething(states, q) ensures Materialize.AcceptsSomething(states, 0) {
      StartLiveIfAnyLive(c, engines, states, keys, q);
    }
  }

  /** `ProductAutomaton::build(..).into_engine()`. */
  method BuildEngine(c: Combinator, engines: seq<RefEngine>) returns (r: Result<RefEngine>)
    requires AllValid(engines)
    ensures engines == [] ==> r == Err(Malformed)
    ensures r.Ok? ==> engines != [] && r.value.Valid() && r.value.Language() == ProductLanguage(c, engines)
    ensures 1 <= |engines| <= MAX_PRODUCT_BRANCHES ==>
              (r.Ok? <==> Fits(engines, MAX_PRODUCT_STATES, MAX_PRODUCT_EDGES))
  {
    hide Implements, AllValid, RefEngine.Valid;
    var p := BuildCapped(c, engines, MAX_PRODUCT_STATES, MAX_PRODUCT_EDGES, true);
    if p.Err? { return Err(p.error); }
    ImplementsAdmissible(p.value, c, engines);
    r := Materialize.StatesToEngine(p.value.states, p.value.start);
  }

  lemma ImplementsAdmissible(p: ProductAutomaton, c: Combinator, engines: seq<RefEngine>)
    requires Implements(p, c, engines)
    requires |FlatEdges(p.states)| <= MAX_PRODUCT_EDGES && (|p.states| <= MAX_PRODUCT_STATES || |p.states| == 1)
    ensures Admissible(p.states, p.start)
    ensures StatesLanguage(p.states, p.start) == ProductLanguage(c, engines)
  {}
}
