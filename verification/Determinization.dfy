/** The byte NFA behind concatenation, union and repetition: silent closure, subset interning and
    determinization (automaton/graph.rs). */
module Determinization {
  import opened Outcome
  import opened Languages
  import opened Graph
  import opened Discovery
  import opened NfaTheory
  import Bits
  import Finite
  import KeyCells
  import Materialize
  import Sorting
  import SubsetKeys

  datatype NfaState = NfaState(edges: seq<(Byte, nat)>, epsilon: seq<nat>, accepting: bool)
  datatype ByteNfa = ByteNfa(states: seq<NfaState>, start: nat)

  ghost predicate StateOk(s: NfaState, n: nat) {
    && (forall i :: 0 <= i < |s.edges| ==> s.edges[i].1 < n)
    && (forall i :: 0 <= i < |s.epsilon| ==> s.epsilon[i] < n)
  }

  ghost predicate NfaOk(n: ByteNfa) {
    n.start < |n.states| && forall q :: 0 <= q < |n.states| ==> StateOk(n.states[q], |n.states|)
  }

  ghost predicate EpsOf(n: ByteNfa, q: nat, p: nat) {
    q < |n.states| && p in n.states[q].epsilon
  }

  ghost predicate StepOf(n: ByteNfa, q: nat, b: Byte, p: nat) {
    q < |n.states| && (b, p) in n.states[q].edges
  }

  ghost predicate AccOfState(n: ByteNfa, q: nat) {
    q < |n.states| && n.states[q].accepting
  }

  ghost function View(n: ByteNfa): Nfa<nat> {
    Nfa((q, p) => EpsOf(n, q, p), (q, b, p) => StepOf(n, q, b, p), q => AccOfState(n, q))
  }

  ghost function NfaLanguage(n: ByteNfa): Lang {
    iset w: Word | NfaAccepts(View(n), n.start, w)
  }

  ghost predicate IdsOk(n: ByteNfa, s: seq<nat>) {
    forall i :: 0 <= i < |s| ==> s[i] < |n.states|
  }

  // --- silent closure -----------------------------------------------------------------------------------

  function AddMissing(closure: seq<nat>, targets: seq<nat>): (r: seq<nat>)
    ensures closure <= r
    ensures forall p :: p in r <==> p in closure || p in targets
    decreases |targets|
  {
    if targets == [] then closure
    else
      var c := if targets[0] in closure then closure else closure + [targets[0]];
      assert targets == [targets[0]] + targets[1..];
      AddMissing(c, targets[1..])
  }

  ghost function Missing(n: ByteNfa, closure: seq<nat>): (s: set<nat>)
  {
    Finite.Below(|n.states|) - (set p | p in closure)
  }

  lemma MissingShrinks(n: ByteNfa, closure: seq<nat>, p: nat)
    requires p !in closure && p < |n.states|
    ensures |Missing(n, closure + [p])| < |Missing(n, closure)|
  {
    assert forall q :: q in closure + [p] <==> q in closure || q == p;
    assert Missing(n, closure) == Missing(n, closure + [p]) + {p};
  }

  lemma {:induction false} AddMissingShrinks(n: ByteNfa, closure: seq<nat>, targets: seq<nat>)
    requires forall i :: 0 <= i < |targets| ==> targets[i] < |n.states|
    ensures AddMissing(closure, targets) == closure || |Missing(n, AddMissing(closure, targets))| < |Missing(n, closure)|
    decreases |targets|
  {
    hide Missing;
    if targets != [] {
      var c := if targets[0] in closure then closure else closure + [targets[0]];
      AddMissingShrinks(n, c, targets[1..]);
      if targets[0] !in closure { MissingShrinks(n, closure, targets[0]); }
    }
  }

  lemma AddMissingOk(n: ByteNfa, closure: seq<nat>, targets: seq<nat>)
    requires IdsOk(n, closure) && forall i :: 0 <= i < |targets| ==> targets[i] < |n.states|
    ensures IdsOk(n, AddMissing(closure, targets))
  {
    var r := AddMissing(closure, targets);
    forall i | 0 <= i < |r| ensures r[i] < |n.states| { assert r[i] in r; }
  }

  /** The closure worklist: every listed state from `cursor` on still has its silent moves to add. */
  function Close(n: ByteNfa, closure: seq<nat>, cursor: nat): (r: seq<nat>)
    requires NfaOk(n) && IdsOk(n, closure) && cursor <= |closure|
    ensures IdsOk(n, r) && closure <= r
    decreases |Missing(n, closure)|, |closure| - cursor
  {
    if cursor == |closure| then closure
    else
      var targets := n.states[closure[cursor]].epsilon;
      assert StateOk(n.states[closure[cursor]], |n.states|);
      AddMissingShrinks(n, closure, targets);
      AddMissingOk(n, closure, targets);
      Close(n, AddMissing(closure, targets), cursor + 1)
  }

  ghost predicate FromSeeds(n: ByteNfa, seeds: seq<nat>, p: nat) {
    exists s :: s in seeds && Reaches(View(n), s, [], p)
  }

  lemma {:induction false} CloseSound(n: ByteNfa, seeds: seq<nat>, closure: seq<nat>, cursor: nat)
    requires NfaOk(n) && IdsOk(n, closure) && cursor <= |closure|
    requires forall p :: p in closure ==> FromSeeds(n, seeds, p)
    ensures forall p :: p in Close(n, closure, cursor) ==> FromSeeds(n, seeds, p)
    decreases |Missing(n, closure)|, |closure| - cursor
  {
    hide FromSeeds, Missing;
    if cursor < |closure| {
      var q := closure[cursor];
      var targets := n.states[q].epsilon;
      assert StateOk(n.states[q], |n.states|);
      AddMissingShrinks(n, closure, targets);
      AddMissingOk(n, closure, targets);
      SilentFromSeeds(n, seeds, q);
      CloseSound(n, seeds, AddMissing(closure, targets), cursor + 1);
    }
  }

  lemma SilentFromSeeds(n: ByteNfa, seeds: seq<nat>, q: nat)
    requires NfaOk(n) && q < |n.states| && FromSeeds(n, seeds, q)
    ensures forall p :: p in n.states[q].epsilon ==> FromSeeds(n, seeds, p)
  {
    hide Reaches;
    forall p | p in n.states[q].epsilon ensures FromSeeds(n, seeds, p) {
      var s :| s in seeds && Reaches(View(n), s, [], q);
      EpsReaches(n, s, q, p);
    }
  }

  lemma EpsReaches(n: ByteNfa, s: nat, q: nat, p: nat)
    requires Reaches(View(n), s, [], q) && q < |n.states| && p in n.states[q].epsilon
    ensures Reaches(View(n), s, [], p)
  {
    ReachesRefl(View(n), p);
    ReachesSilent(View(n), q, p, [], p);
    ReachesJoin(View(n), s, [], q, [], p);
    var e: Word := [];
    assert e + e == e;
  }

  ghost predicate EpsClosedUpTo(n: ByteNfa, closure: seq<nat>, cursor: nat)
    requires cursor <= |closure|
  {
    forall i, p :: 0 <= i < cursor && EpsOf(n, closure[i], p) ==> p in closure
  }

  lemma {:induction false} CloseComplete(n: ByteNfa, closure: seq<nat>, cursor: nat)
    requires NfaOk(n) && IdsOk(n, closure) && cursor <= |closure| && EpsClosedUpTo(n, closure, cursor)
    ensures EpsClosedUpTo(n, Close(n, closure, cursor), |Close(n, closure, cursor)|)
    decreases |Missing(n, closure)|, |closure| - cursor
  {
    if cursor < |closure| {
      var targets := n.states[closure[cursor]].epsilon;
      assert StateOk(n.states[closure[cursor]], |n.states|);
      AddMissingShrinks(n, closure, targets);
      AddMissingOk(n, closure, targets);
      CloseComplete(n, AddMissing(closure, targets), cursor + 1);
    }
  }

  lemma {:induction false} ClosedUnderRuns(n: ByteNfa, c: seq<nat>, q: nat, p: nat, k: nat)
    requires EpsClosedUpTo(n, c, |c|) && q in c && Run(View(n), q, [], p, k)
    ensures p in c
    decreases k
  {
    if k > 0 {
      var m :| View(n).eps(q, m) && Run(View(n), m, [], p, k - 1);
      assert EpsOf(n, q, m);
      ClosedUnderRuns(n, c, m, p, k - 1);
    }
  }

  lemma ClosureComplete(n: ByteNfa, seeds: seq<nat>, p: nat)
    requires NfaOk(n) && IdsOk(n, seeds) && FromSeeds(n, seeds, p)
    ensures p in Close(n, seeds, 0)
  {
    hide NfaOk, IdsOk;
    CloseComplete(n, seeds, 0);
    var c := Close(n, seeds, 0);
    var s :| s in seeds && Reaches(View(n), s, [], p);
    var k: nat :| Run(View(n), s, [], p, k);
    assert s in c;
    ClosedUnderRuns(n, c, s, p, k);
  }

  /** The worklist computes exactly the silently reachable states. */
  lemma CloseIsClosure(n: ByteNfa, seeds: seq<nat>)
    requires NfaOk(n) && IdsOk(n, seeds)
    ensures forall p: nat :: p in Close(n, seeds, 0) <==> FromSeeds(n, seeds, p)
  {
    forall p: nat | p in seeds ensures FromSeeds(n, seeds, p) { ReachesRefl(View(n), p); }
    CloseSound(n, seeds, seeds, 0);
    forall p: nat | FromSeeds(n, seeds, p) ensures p in Close(n, seeds, 0) { ClosureComplete(n, seeds, p); }
  }

  function ClosureKey(n: ByteNfa, seeds: seq<nat>): (key: seq<nat>)
    requires NfaOk(n) && IdsOk(n, seeds)
    ensures IdsOk(n, key)
  {
    var c := Close(n, seeds, 0);
    var key := Sorting.SortUnique(c, Sorting.NatLess);
    assert forall i :: 0 <= i < |key| ==> key[i] in key;
    key
  }

  method AddTargets(closure0: seq<nat>, targets: seq<nat>) returns (closure: seq<nat>)
    ensures closure == AddMissing(closure0, targets)
  {
    closure := closure0;
    for i := 0 to |targets|
      invariant AddMissing(closure, targets[i..]) == AddMissing(closure0, targets)
    {
      assert targets[i..][0] == targets[i] && targets[i..][1..] == targets[i + 1..];
      if targets[i] !in closure { closure := closure + [targets[i]]; }
    }
  }

  lemma CloseStep(n: ByteNfa, closure: seq<nat>, cursor: nat)
    requires NfaOk(n) && IdsOk(n, closure) && cursor < |closure|
    ensures closure[cursor] < |n.states|
    ensures var next := AddMissing(closure, n.states[closure[cursor]].epsilon);
            && IdsOk(n, next) && |closure| <= |next|
            && Close(n, closure, cursor) == Close(n, next, cursor + 1)
            && (next == closure || |Missing(n, next)| < |Missing(n, closure)|)
  {
    var targets := n.states[closure[cursor]].epsilon;
    assert StateOk(n.states[closure[cursor]], |n.states|);
    AddMissingShrinks(n, closure, targets);
    AddMissingOk(n, closure, targets);
  }

  /** `epsilon_closure`: a cursor over a growing list, then sorted and stripped of repeats. */
  method EpsilonClosure(n: ByteNfa, seeds: seq<nat>) returns (key: seq<nat>)
    requires NfaOk(n) && IdsOk(n, seeds)
    ensures key == ClosureKey(n, seeds)
  {
    hide NfaOk, IdsOk, AddMissing, Missing, Close;
    var closure := seeds;
    var cursor: nat := 0;
    while cursor < |closure|
      invariant cursor <= |closure| && IdsOk(n, closure)
      invariant Close(n, closure, cursor) == Close(n, seeds, 0)
      decreases |Missing(n, closure)|, |closure| - cursor
    {
      CloseStep(n, closure, cursor);
      closure := AddTargets(closure, n.states[closure[cursor]].epsilon);
      cursor := cursor + 1;
    }
    CloseEnd(n, closure);
    key := Sorting.SortUnique(closure, Sorting.NatLess);
  }

  lemma CloseEnd(n: ByteNfa, closure: seq<nat>)
    requires NfaOk(n) && IdsOk(n, closure)
    ensures Close(n, closure, |closure|) == closure
  {}

  // --- determinization ------------------------------------------------------------------------------------

  /** The targets of the edges labelled `b`, in order. */
  function Labelled(edges: seq<(Byte, nat)>, b: Byte): (r: seq<nat>)
    ensures forall p: nat :: p in r <==> (b, p) in edges
    decreases |edges|
  {
    if edges == [] then []
    else
      var k := |edges| - 1;
      var front := Labelled(edges[..k], b);
      assert edges == edges[..k] + [edges[k]];
      if edges[k].0 == b then front + [edges[k].1] else front
  }

  function RawTargets(n: ByteNfa, subset: seq<nat>, b: Byte): (r: seq<nat>)
    requires IdsOk(n, subset)
    decreases |subset|
  {
    if subset == [] then []
    else
      var k := |subset| - 1;
      RawTargets(n, subset[..k], b) + Labelled(n.states[subset[k]].edges, b)
  }

  lemma {:induction false} RawTargetsAre(n: ByteNfa, subset: seq<nat>, b: Byte)
    requires IdsOk(n, subset)
    ensures forall p: nat :: p in RawTargets(n, subset, b) <==> exists q :: q in subset && StepOf(n, q, b, p)
    decreases |subset|
  {
    if subset != [] {
      var k := |subset| - 1;
      RawTargetsAre(n, subset[..k], b);
      assert subset == subset[..k] + [subset[k]];
      forall p: nat ensures p in RawTargets(n, subset, b) <==> exists q :: q in subset && StepOf(n, q, b, p) {
        if p in Labelled(n.states[subset[k]].edges, b) { assert StepOf(n, subset[k], b, p); }
      }
    }
  }

  lemma RawTargetsOk(n: ByteNfa, subset: seq<nat>, b: Byte)
    requires NfaOk(n) && IdsOk(n, subset)
    ensures IdsOk(n, RawTargets(n, subset, b))
  {
    var r := RawTargets(n, subset, b);
    RawTargetsAre(n, subset, b);
    forall i | 0 <= i < |r| ensures r[i] < |n.states| {
      assert r[i] in r;
      var q :| q in subset && StepOf(n, q, b, r[i]);
      assert StateOk(n.states[q], |n.states|);
    }
  }

  function SubsetNext(n: ByteNfa, s: seq<nat>, b: Byte): Option<seq<nat>>
    requires NfaOk(n)
  {
    if exists i :: 0 <= i < |s| && s[i] >= |n.states| then None
    else
      RawTargetsOk(n, s, b);
      if RawTargets(n, s, b) == [] then None else Some(ClosureKey(n, RawTargets(n, s, b)))
  }

  ghost function NextOf(n: ByteNfa): (seq<nat>, Byte) -> Option<seq<nat>>
    requires NfaOk(n)
  {
    (s, b) => SubsetNext(n, s, b)
  }

  predicate AnyAccepting(n: ByteNfa, s: seq<nat>) {
    exists i :: 0 <= i < |s| && s[i] < |n.states| && n.states[s[i]].accepting
  }

  ghost function AccOf(n: ByteNfa): seq<nat> -> bool {
    s => AnyAccepting(n, s)
  }

  ghost function StartKey(n: ByteNfa): seq<nat>
    requires NfaOk(n)
  {
    ClosureKey(n, [n.start])
  }

  lemma SubsetStepOk(n: ByteNfa, s: seq<nat>, b: Byte)
    requires NfaOk(n) && IdsOk(n, s)
    ensures SubsetStep(View(n), NextOf(n), s, b)
    ensures SubsetNext(n, s, b).Some? ==> IdsOk(n, SubsetNext(n, s, b).value)
  {
    hide Reaches;
    var v, raw := View(n), RawTargets(n, s, b);
    RawTargetsAre(n, s, b);
    RawTargetsOk(n, s, b);
    if raw == [] {
      forall q, m ensures q in s ==> !v.step(q, b, m) {
        assert v.step(q, b, m) <==> StepOf(n, q, b, m);
        assert q in s && StepOf(n, q, b, m) ==> m in raw;
      }
    } else {
      var t := ClosureKey(n, raw);
      CloseIsClosure(n, raw);
      forall p: nat ensures p in t <==> StepReaches(v, s, b, p) {
        if p in t {
          var m :| m in raw && Reaches(v, m, [], p);
          var q :| q in s && StepOf(n, q, b, m);
          assert v.step(q, b, m);
        }
        if StepReaches(v, s, b, p) {
          var q, m :| q in s && v.step(q, b, m) && Reaches(v, m, [], p);
          assert StepOf(n, q, b, m) && m in raw;
        }
      }
      assert HasStep(v, s, b) by {
        assert raw[0] in raw;
        var q :| q in s && StepOf(n, q, b, raw[0]);
        assert v.step(q, b, raw[0]);
      }
    }
  }

  lemma ByteNfaSubsets(n: ByteNfa)
    requires NfaOk(n)
    ensures IsSubsetAutomaton(View(n), NextOf(n), AccOf(n), s => IdsOk(n, s))
  {
    forall s: seq<nat>, b: Byte | IdsOk(n, s)
      ensures SubsetStep(View(n), NextOf(n), s, b)
      ensures SubsetNext(n, s, b).Some? ==> IdsOk(n, SubsetNext(n, s, b).value)
    {
      SubsetStepOk(n, s, b);
    }
    forall s: seq<nat> | IdsOk(n, s) ensures AnyAccepting(n, s) <==> SubsetAcc(View(n), s) {
      if SubsetAcc(View(n), s) {
        var q :| q in s && View(n).acc(q);
        assert AccOfState(n, q);
      }
      if i :| 0 <= i < |s| && s[i] < |n.states| && n.states[s[i]].accepting { assert s[i] in s && View(n).acc(s[i]); }
    }
  }

  lemma ClosureAccepts(n: ByteNfa, q0: nat, key: seq<nat>, w: Word)
    requires forall p: nat :: p in key <==> FromSeeds(n, [q0], p)
    ensures SomeAccepts(View(n), key, w) <==> NfaAccepts(View(n), q0, w)
  {
    var v := View(n);
    if SomeAccepts(v, key, w) {
      var q :| q in key && NfaAccepts(v, q, w);
      assert Reaches(v, q0, [], q);
      var p :| Reaches(v, q, w, p) && v.acc(p);
      ReachesJoin(v, q0, [], q, w, p);
      assert [] + w == w;
    }
    if NfaAccepts(v, q0, w) {
      ReachesRefl(v, q0);
      assert FromSeeds(n, [q0], q0);
      assert q0 in key;
    }
  }

  /** The subset automaton accepts the language of the NFA. */
  lemma StartKeyAccepts(n: ByteNfa, w: Word)
    requires NfaOk(n)
    ensures KeyAccepts(NextOf(n), AccOf(n), StartKey(n), w) <==> NfaAccepts(View(n), n.start, w)
  {
    hide IsSubsetAutomaton, KeyAccepts, Closed, View, Close;
    var key := StartKey(n);
    CloseIsClosure(n, [n.start]);
    ClosureIsClosed(n, [n.start], key);
    ByteNfaSubsets(n);
    SubsetAccepts(View(n), NextOf(n), AccOf(n), s => IdsOk(n, s), key, w);
    ClosureAccepts(n, n.start, key, w);
  }

  lemma ClosureIsClosed(n: ByteNfa, seeds: seq<nat>, key: seq<nat>)
    requires forall p: nat :: p in key <==> FromSeeds(n, seeds, p)
    ensures Closed(View(n), key)
  {
    forall q: nat, p: nat | q in key && Reaches(View(n), q, [], p) ensures p in key {
      var s :| s in seeds && Reaches(View(n), s, [], q);
      ReachesJoin(View(n), s, [], q, [], p);
      var e: Word := [];
      assert e + e == e;
    }
  }

  lemma {:induction false} LeadsToIdsOk(n: ByteNfa, s: seq<nat>, w: Word, t: seq<nat>)
    requires NfaOk(n) && IdsOk(n, s) && LeadsTo(NextOf(n), s, w, t)
    ensures IdsOk(n, t)
    decreases |w|
  {
    if w != [] {
      SubsetStepOk(n, s, w[0]);
      LeadsToIdsOk(n, SubsetNext(n, s, w[0]).value, w[1..], t);
    }
  }

  lemma ReachedIdsOk(n: ByteNfa, t: seq<nat>)
    requires NfaOk(n) && Reached(NextOf(n), StartKey(n), t)
    ensures IdsOk(n, t)
  {
    var w :| LeadsTo(NextOf(n), StartKey(n), w, t);
    LeadsToIdsOk(n, StartKey(n), w, t);
  }

  lemma {:induction false} LeadsToSorted(n: ByteNfa, s: seq<nat>, w: Word, t: seq<nat>)
    requires NfaOk(n) && IdsOk(n, s) && Sorting.Sorted(s, Sorting.NatLess) && LeadsTo(NextOf(n), s, w, t)
    ensures Sorting.Sorted(t, Sorting.NatLess)
    decreases |w|
  {
    hide Sorting.Sorted, IdsOk, ClosureKey, RawTargets;
    if w != [] {
      SubsetStepOk(n, s, w[0]);
      StepSorted(n, s, w[0]);
      LeadsToSorted(n, SubsetNext(n, s, w[0]).value, w[1..], t);
    }
  }

  lemma StepSorted(n: ByteNfa, s: seq<nat>, b: Byte)
    requires NfaOk(n) && SubsetNext(n, s, b).Some?
    ensures Sorting.Sorted(SubsetNext(n, s, b).value, Sorting.NatLess)
  {
    RawTargetsOk(n, s, b);
    ClosureKeySorted(n, RawTargets(n, s, b));
  }

  lemma ClosureKeySorted(n: ByteNfa, seeds: seq<nat>)
    requires NfaOk(n) && IdsOk(n, seeds)
    ensures Sorting.Sorted(ClosureKey(n, seeds), Sorting.NatLess)
  {
    Sorting.SortUniqueSorted(Close(n, seeds, 0), Sorting.NatLess);
  }

  /** An NFA of k states has at most 2^k reachable subsets. */
  lemma SubsetsBounded(n: ByteNfa, keys: seq<seq<nat>>)
    requires NfaOk(n) && DistinctReached(NextOf(n), StartKey(n), keys)
    ensures |keys| <= Bits.Pow2(|n.states|)
  {
    hide ClosureKey, Bits.Pow2, Sorting.Sorted;
    assert IdsOk(n, [n.start]);
    ClosureKeySorted(n, [n.start]);
    forall i | 0 <= i < |keys| ensures SubsetKeys.Key(keys[i], |n.states|) {
      assert Reached(NextOf(n), StartKey(n), keys[i]);
      ReachedIdsOk(n, keys[i]);
      var w :| LeadsTo(NextOf(n), StartKey(n), w, keys[i]);
      LeadsToSorted(n, StartKey(n), w, keys[i]);
    }
    SubsetKeys.KeysBounded(keys, |n.states|);
  }

  /** Twelve states never exceed a cap: 2^12 subsets with 256 edges each are exactly the edge cap. */
  lemma SmallNfaFits(n: ByteNfa)
    requires NfaOk(n) && |n.states| <= 12
    ensures !TooManySubsets(n)
  {
    hide NextOf, StartKey, OutDegree, DistinctReached, Bits.Pow2;
    forall ks: seq<seq<nat>> ensures !ExceedsCaps(NextOf(n), StartKey(n), ks, MAX_GRAPH_STATES, MAX_GRAPH_EDGES) {
      if DistinctReached(NextOf(n), StartKey(n), ks) {
        SubsetsBounded(n, ks);
        TwelveBits(|n.states|);
        OutDegreeBound(NextOf(n), ks);
      }
    }
  }

  lemma TwelveBits(k: nat)
    requires k <= 12
    ensures Bits.Pow2(k) <= 4096
  {
    Bits.Pow2Grows(k, 12);
    assert Bits.Pow2(6) == 64;
    assert Bits.Pow2(12) == 4096;
  }

  method CollectTargets(n: ByteNfa, subset: seq<nat>, b: Byte) returns (raw: seq<nat>)
    requires NfaOk(n) && IdsOk(n, subset)
    ensures raw == RawTargets(n, subset, b)
  {
    raw := [];
    for i := 0 to |subset|
      invariant IdsOk(n, subset[..i]) && raw == RawTargets(n, subset[..i], b)
    {
      var edges := n.states[subset[i]].edges;
      for j := 0 to |edges|
        invariant raw == RawTargets(n, subset[..i], b) + Labelled(edges[..j], b)
      {
        assert edges[..j + 1][..j] == edges[..j];
        if edges[j].0 == b { raw := raw + [edges[j].1]; }
      }
      assert edges[..|edges|] == edges;
      assert subset[..i + 1][..i] == subset[..i];
    }
    assert subset[..|subset|] == subset;
  }

  method SubsetByte(n: ByteNfa, subset: seq<nat>, byte: Byte) returns (r: Option<seq<nat>>)
    requires NfaOk(n) && IdsOk(n, subset)
    ensures r == SubsetNext(n, subset, byte)
  {
    var raw := CollectTargets(n, subset, byte);
    RawTargetsOk(n, subset, byte);
    if raw == [] { return None; }
    var key := EpsilonClosure(n, raw);
    return Some(key);
  }

  /** The live reachable subsets and DEAD, times the ways in which bytes move them, exceed the cell cap. */
  ghost predicate TooManyCells(n: ByteNfa)
    requires NfaOk(n)
  {
    KeyCells.TooManyCells(NextOf(n), AccOf(n), StartKey(n))
  }

  ghost predicate TooManySubsets(n: ByteNfa)
    requires NfaOk(n)
  {
    Oversized(NextOf(n), StartKey(n), MAX_GRAPH_STATES, MAX_GRAPH_EDGES)
  }

  ghost predicate Row(n: ByteNfa, s: Search<seq<nat>>, keys: seq<seq<nat>>, index: nat, edges: seq<(Byte, nat)>,
                      total: nat, upTo: nat)
    requires NfaOk(n) && upTo <= 256
  {
    index < |keys| && Expanding(s, keys, index, edges, total, upTo, NextOf(n), StartKey(n))
  }

  /** One byte of `subset_edges`, with the cap inside `intern_subset`. */
  method SubsetEdge(n: ByteNfa, subset: seq<nat>, byte: Byte, s0: Search<seq<nat>>, edges0: seq<(Byte, nat)>,
                    ghost total0: nat, ghost keys0: seq<seq<nat>>, ghost index: nat)
    returns (ok: bool, s: Search<seq<nat>>, edges: seq<(Byte, nat)>, ghost total: nat, ghost keys: seq<seq<nat>>)
    requires NfaOk(n) && IdsOk(n, subset) && |keys0| <= MAX_GRAPH_STATES
    requires Row(n, s0, keys0, index, edges0, total0, byte) && keys0[index] == subset
    ensures ok ==> Row(n, s, keys, index, edges, total, byte + 1) && keys0 <= keys && |keys| <= MAX_GRAPH_STATES
    ensures ok ==> total - total0 == |edges| - |edges0|
    ensures !ok ==> TooManySubsets(n)
  {
    hide NfaOk, IdsOk, Expanding;
    ghost var next, start := NextOf(n), StartKey(n);
    s, edges, total, keys := s0, edges0, total0, keys0;
    var key := SubsetByte(n, subset, byte);
    assert key == next(subset, byte);
    if key.None? {
      ExpandingSkip(s0, keys0, index, edges0, total0, byte, next, start);
      return true, s0, edges0, total0, keys0;
    }
    ExpandingParts(s0, keys0, index, edges0, total0, byte, next, start);
    if key.value !in s0.indexOf && |s0.order| >= MAX_GRAPH_STATES {
      NewKeyTooMany(s0, keys0, index, edges0, total0, byte, next, start, key.value, MAX_GRAPH_STATES, MAX_GRAPH_EDGES);
      return false, s, edges, total, keys;
    }
    var target;
    target, s, keys := Intern(key.value, s0, keys0);
    ExpandEdge(s0, keys0, s, keys, index, edges0, total0, byte, next, start, key.value, target);
    edges, total := edges0 + [(byte, target)], total0 + 1;
    ok := true;
  }

  method SubsetEdges(n: ByteNfa, subset: seq<nat>, s0: Search<seq<nat>>, ghost total0: nat, ghost keys0: seq<seq<nat>>,
                     ghost index: nat)
    returns (ok: bool, s: Search<seq<nat>>, edges: seq<(Byte, nat)>, ghost total: nat, ghost keys: seq<seq<nat>>)
    requires NfaOk(n) && IdsOk(n, subset) && |keys0| <= MAX_GRAPH_STATES
    requires index < |keys0| && keys0[index] == subset && RowState(s0, keys0, index, NextOf(n), StartKey(n))
    requires total0 == OutDegree(NextOf(n), keys0[..index])
    ensures ok ==> Row(n, s, keys, index, edges, total, 256) && keys0 <= keys && |keys| <= MAX_GRAPH_STATES
    ensures ok ==> total == total0 + |edges|
    ensures !ok ==> TooManySubsets(n)
  {
    hide *;
    ok, s, edges, total, keys := true, s0, [], total0, keys0;
    StartRowOf(n, s0, keys0, index, total0);
    for byte := 0 to 256
      invariant ok && Row(n, s, keys, index, edges, total, byte)
      invariant index < |keys| && keys[index] == subset && keys0 <= keys && |keys| <= MAX_GRAPH_STATES
      invariant total == total0 + |edges|
    {
      ok, s, edges, total, keys := SubsetEdge(n, subset, byte, s, edges, total, keys, index);
      if !ok { return; }
    }
  }

  lemma StartRowOf(n: ByteNfa, s: Search<seq<nat>>, keys: seq<seq<nat>>, index: nat, total: nat)
    requires NfaOk(n) && RowState(s, keys, index, NextOf(n), StartKey(n)) && total == OutDegree(NextOf(n), keys[..index])
    ensures Row(n, s, keys, index, [], total, 0)
  {
    StartExpanding(s, keys, index, total, NextOf(n), StartKey(n));
  }

  /** The subset worklist. It fails exactly when the reachable subsets, or the edges between them, exceed
      the graph caps. */
  method Subsets(n: ByteNfa) returns (ok: bool, output: seq<ByteState>, ghost keys: seq<seq<nat>>)
    requires NfaOk(n)
    ensures ok ==> Complete(output, keys, NextOf(n), AccOf(n), StartKey(n))
    ensures ok ==> |output| <= MAX_GRAPH_STATES && |FlatEdges(output)| <= MAX_GRAPH_EDGES
    ensures ok <==> !TooManySubsets(n)
  {
    hide *;
    ghost var next, acc, start := NextOf(n), AccOf(n), StartKey(n);
    SeedOk(n);
    var startKey := EpsilonClosure(n, [n.start]);
    StartKeyIs(n);
    var s := Search([startKey], map[startKey := 0], [0]);
    var edgeCount: nat := 0;
    ok, output, keys := true, [], [startKey];
    StartSearch(startKey, next, acc);
    while s.queue != []
      invariant ok && Searching(s, keys, output, edgeCount, next, acc, start)
      invariant edgeCount <= MAX_GRAPH_EDGES && |keys| <= MAX_GRAPH_STATES
      invariant |output| <= |keys|
      decreases MAX_GRAPH_STATES - |output|
    {
      OpenRow(s, keys, output, edgeCount, next, acc, start, []);
      var index := s.queue[0];
      var subset := s.order[index];
      ReachedIdsOk(n, subset);
      var accepting := AnyAccepting(n, subset);
      AccOfIs(n, subset);
      ghost var before := keys;
      ghost var total: nat;
      var edges;
      ok, s, edges, total, keys := SubsetEdges(n, subset, Search(s.order[index := []], s.indexOf, s.queue[1..]),
                                               edgeCount, keys, index);
      if !ok { return; }
      edgeCount := edgeCount + |edges|;
      RowIsExpanding(n, s, keys, index, edges, total);
      if edgeCount > MAX_GRAPH_EDGES {
        ExceededEdges(s, keys, index, edges, edgeCount, 256, next, start, MAX_GRAPH_STATES, MAX_GRAPH_EDGES);
        OversizedSubsets(n);
        return false, output, keys;
      }
      CloseRow(s, keys, before, output, edges, accepting, edgeCount, next, acc, start);
      s := s.(order := s.order[index := subset]);
      output := output + [ByteState(accepting, edges)];
    }
    SearchDone(s, keys, output, edgeCount, next, acc, start);
    SubsetsFit(n, output, keys);
  }

  lemma SubsetsFit(n: ByteNfa, output: seq<ByteState>, keys: seq<seq<nat>>)
    requires NfaOk(n) && Complete(output, keys, NextOf(n), AccOf(n), StartKey(n))
    requires |keys| <= MAX_GRAPH_STATES && |FlatEdges(output)| <= MAX_GRAPH_EDGES
    ensures !TooManySubsets(n) && |output| <= MAX_GRAPH_STATES
  {
    hide NextOf, AccOf, StartKey, Oversized, TableDone, DistinctReached;
    CompleteNotOversized(output, keys, NextOf(n), AccOf(n), StartKey(n), MAX_GRAPH_STATES, MAX_GRAPH_EDGES);
  }

  lemma SeedOk(n: ByteNfa)
    requires NfaOk(n)
    ensures IdsOk(n, [n.start])
  {}

  lemma StartKeyIs(n: ByteNfa)
    requires NfaOk(n)
    ensures IdsOk(n, [n.start]) && StartKey(n) == ClosureKey(n, [n.start]) && 1 <= MAX_GRAPH_STATES
  {}

  lemma AccOfIs(n: ByteNfa, s: seq<nat>)
    ensures AccOf(n)(s) == AnyAccepting(n, s)
  {}

  lemma RowIsExpanding(n: ByteNfa, s: Search<seq<nat>>, keys: seq<seq<nat>>, index: nat, edges: seq<(Byte, nat)>, total: nat)
    requires NfaOk(n) && Row(n, s, keys, index, edges, total, 256)
    ensures index < |keys| && Expanding(s, keys, index, edges, total, 256, NextOf(n), StartKey(n))
  {}

  lemma OversizedSubsets(n: ByteNfa)
    requires NfaOk(n) && Oversized(NextOf(n), StartKey(n), MAX_GRAPH_STATES, MAX_GRAPH_EDGES)
    ensures TooManySubsets(n)
  {}

  /** `ByteNfa::determinize`: a validated graph for the language of the NFA. */
  method Determinize(n: ByteNfa) returns (r: Result<AutomatonGraph>)
    requires NfaOk(n)
    ensures r.Ok? ==> Validated(r.value) && GraphLanguage(r.value) == NfaLanguage(n)
    ensures r.Err? ==> r.error == LimitExceeded
    ensures r.Err? <==> TooManySubsets(n)
    ensures r.Ok? ==> |r.value.states| <= Bits.Pow2(|n.states|) && |r.value.states| <= MAX_GRAPH_STATES
    ensures r.Ok? ==> (TooManyCells(n) <==> Materialize.Crowded(r.value))
  {
    hide NfaOk, TooManySubsets, TooManyCells, Complete, Validated, Materialize.Crowded;
    var ok, output, keys := Subsets(n);
    if !ok { return Err(LimitExceeded); }
    SubsetsAdmissible(n, output, keys);
    OutputBounded(n, output, keys);
    r := FromByteStates(output, 0);
    if r.Ok? { OutputCells(n, output, keys, r.value); }
  }

  lemma OutputCells(n: ByteNfa, output: seq<ByteState>, keys: seq<seq<nat>>, g: AutomatonGraph)
    requires NfaOk(n) && Complete(output, keys, NextOf(n), AccOf(n), StartKey(n)) && Validated(g) && Flattens(g, output)
    ensures |g.states| == |output| && (TooManyCells(n) <==> Materialize.Crowded(g))
  {
    hide Complete, NextOf, AccOf, StartKey, Materialize.Cells, KeyCells.TooManyCells, RowsOk;
    KeyCells.CellsAreKeyCells(output, keys, NextOf(n), AccOf(n), StartKey(n));
    Materialize.SameCells(g, output, Materialize.RowsOf(g));
  }

  lemma OutputBounded(n: ByteNfa, output: seq<ByteState>, keys: seq<seq<nat>>)
    requires NfaOk(n) && Complete(output, keys, NextOf(n), AccOf(n), StartKey(n))
    ensures |output| <= Bits.Pow2(|n.states|)
  {
    SubsetsBounded(n, keys);
  }

  lemma SubsetsAdmissible(n: ByteNfa, output: seq<ByteState>, keys: seq<seq<nat>>)
    requires NfaOk(n) && Complete(output, keys, NextOf(n), AccOf(n), StartKey(n))
    requires |output| <= MAX_GRAPH_STATES && |FlatEdges(output)| <= MAX_GRAPH_EDGES
    ensures Admissible(output, 0) && StatesLanguage(output, 0) == NfaLanguage(n)
  {
    CompleteAccepts(output, keys, NextOf(n), AccOf(n), StartKey(n), []);
    forall w: Word ensures Accepts(output, 0, w) <==> NfaAccepts(View(n), n.start, w) {
      CompleteAccepts(output, keys, NextOf(n), AccOf(n), StartKey(n), w);
      StartKeyAccepts(n, w);
    }
  }
}
