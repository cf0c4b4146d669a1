/** Nondeterministic automata with silent moves, and the subset construction over them: shared by the
    byte NFA of concatenation, union and repetition and by the shuffle automaton. */
module NfaTheory {
  import opened Outcome
  import opened Languages
  import opened Discovery

  datatype Nfa<!C> = Nfa(eps: (C, C) -> bool, step: (C, Byte, C) -> bool, acc: C -> bool)

  /** A run of exactly `k` moves from `q` to `p`, reading `w`. */
  ghost predicate Run<C(!new)>(n: Nfa<C>, q: C, w: Word, p: C, k: nat)
    decreases k
  {
    if k == 0 then q == p && w == []
    else SilentMove(n, q, w, p, k) || (w != [] && ByteMove(n, q, w, p, k))
  }

  ghost predicate SilentMove<C(!new)>(n: Nfa<C>, q: C, w: Word, p: C, k: nat)
    requires k > 0
    decreases k, 0
  {
    exists m :: n.eps(q, m) && Run(n, m, w, p, k - 1)
  }

  ghost predicate ByteMove<C(!new)>(n: Nfa<C>, q: C, w: Word, p: C, k: nat)
    requires k > 0 && w != []
    decreases k, 0
  {
    exists m :: n.step(q, w[0], m) && Run(n, m, w[1..], p, k - 1)
  }

  ghost predicate Reaches<C(!new)>(n: Nfa<C>, q: C, w: Word, p: C) {
    exists k: nat :: Run(n, q, w, p, k)
  }

  ghost predicate NfaAccepts<C(!new)>(n: Nfa<C>, q: C, w: Word) {
    exists p :: Reaches(n, q, w, p) && n.acc(p)
  }

  lemma ReachesRefl<C(!new)>(n: Nfa<C>, q: C)
    ensures Reaches(n, q, [], q)
  {
    assert Run(n, q, [], q, 0);
  }

  lemma ReachesSilent<C(!new)>(n: Nfa<C>, q: C, m: C, w: Word, p: C)
    requires n.eps(q, m) && Reaches(n, m, w, p)
    ensures Reaches(n, q, w, p)
  {
    var k: nat :| Run(n, m, w, p, k);
    assert SilentMove(n, q, w, p, k + 1);
    assert Run(n, q, w, p, k + 1);
  }

  lemma ReachesByte<C(!new)>(n: Nfa<C>, q: C, b: Byte, m: C, w: Word, p: C)
    requires n.step(q, b, m) && Reaches(n, m, w, p)
    ensures Reaches(n, q, [b] + w, p)
  {
    var k: nat :| Run(n, m, w, p, k);
    var v := [b] + w;
    assert v[1..] == w;
    assert n.step(q, v[0], m) && Run(n, m, v[1..], p, k + 1 - 1);
    assert ByteMove(n, q, v, p, k + 1);
    assert Run(n, q, v, p, k + 1);
  }

  lemma {:induction false} RunJoin<C(!new)>(n: Nfa<C>, a: C, u: Word, b: C, j: nat, v: Word, c: C)
    requires Run(n, a, u, b, j) && Reaches(n, b, v, c)
    ensures Reaches(n, a, u + v, c)
    decreases j
  {
    if j == 0 {
      assert u + v == v;
    } else if SilentMove(n, a, u, b, j) {
      var m :| n.eps(a, m) && Run(n, m, u, b, j - 1);
      RunJoin(n, m, u, b, j - 1, v, c);
      ReachesSilent(n, a, m, u + v, c);
    } else {
      var m :| n.step(a, u[0], m) && Run(n, m, u[1..], b, j - 1);
      RunJoin(n, m, u[1..], b, j - 1, v, c);
      ReachesByte(n, a, u[0], m, u[1..] + v, c);
      assert [u[0]] + (u[1..] + v) == u + v;
    }
  }

  lemma ReachesJoin<C(!new)>(n: Nfa<C>, a: C, u: Word, b: C, v: Word, c: C)
    requires Reaches(n, a, u, b) && Reaches(n, b, v, c)
    ensures Reaches(n, a, u + v, c)
  {
    var j: nat :| Run(n, a, u, b, j);
    RunJoin(n, a, u, b, j, v, c);
  }

  /** A silent run stays where it is or makes a silent move. */
  lemma SilentRun<C(!new)>(n: Nfa<C>, q: C, w: Word, p: C, k: nat)
    requires w == [] && Run(n, q, w, p, k)
    ensures q == p || exists m :: n.eps(q, m) && Reaches(n, m, w, p)
  {
    if k > 0 {
      assert SilentMove(n, q, w, p, k);
      var m :| n.eps(q, m) && Run(n, m, w, p, k - 1);
      assert Reaches(n, m, w, p);
    }
  }

  /** A run over a non-empty word is silent up to its first byte. */
  lemma {:induction false} FirstByte<C(!new)>(n: Nfa<C>, q: C, w: Word, p: C, k: nat) returns (r: C, m: C)
    requires w != [] && Run(n, q, w, p, k)
    ensures Reaches(n, q, [], r) && n.step(r, w[0], m) && Reaches(n, m, w[1..], p)
    decreases k
  {
    if SilentMove(n, q, w, p, k) {
      var s :| n.eps(q, s) && Run(n, s, w, p, k - 1);
      r, m := FirstByte(n, s, w, p, k - 1);
      ReachesSilent(n, q, s, [], r);
    } else {
      m :| n.step(q, w[0], m) && Run(n, m, w[1..], p, k - 1);
      r := q;
      ReachesRefl(n, q);
    }
  }

  /** A state without byte moves starts every longer run silently. */
  lemma FirstSilent<C(!new)>(n: Nfa<C>, q: C, w: Word, p: C, k: nat) returns (m: C)
    requires k > 0 && Run(n, q, w, p, k) && forall b, m :: !n.step(q, b, m)
    ensures n.eps(q, m) && Reaches(n, m, w, p)
  {
    m :| n.eps(q, m) && Run(n, m, w, p, k - 1);
  }

  // --- the subset construction --------------------------------------------------------------------------

  /** Closed under silent moves. */
  ghost predicate Closed<C(!new)>(n: Nfa<C>, s: seq<C>) {
    forall q, p :: q in s && Reaches(n, q, [], p) ==> p in s
  }

  ghost predicate StepReaches<C(!new)>(n: Nfa<C>, s: seq<C>, b: Byte, p: C) {
    exists q, m :: q in s && n.step(q, b, m) && Reaches(n, m, [], p)
  }

  ghost predicate HasStep<C(!new)>(n: Nfa<C>, s: seq<C>, b: Byte) {
    exists q, m :: q in s && n.step(q, b, m)
  }

  /** `next` moves a subset over a byte and closes the result; it is undefined exactly when no member
      can move. */
  ghost predicate SubsetStep<C(!new)>(n: Nfa<C>, next: (seq<C>, Byte) -> Option<seq<C>>, s: seq<C>, b: Byte) {
    match next(s, b)
    case None => !HasStep(n, s, b)
    case Some(t) => forall p :: p in t <==> StepReaches(n, s, b, p)
  }

  ghost predicate SomeAccepts<C(!new)>(n: Nfa<C>, s: seq<C>, w: Word) {
    exists q :: q in s && NfaAccepts(n, q, w)
  }

  ghost predicate SubsetAcc<C(!new)>(n: Nfa<C>, s: seq<C>) {
    exists q :: q in s && n.acc(q)
  }

  /** The subset automaton over the keys satisfying `ok`. */
  ghost predicate IsSubsetAutomaton<C(!new)>(n: Nfa<C>, next: (seq<C>, Byte) -> Option<seq<C>>, acc: seq<C> -> bool,
                                             ok: seq<C> -> bool)
  {
    && (forall s :: ok(s) ==> (acc(s) <==> SubsetAcc(n, s)))
    && (forall s, b :: ok(s) ==> SubsetStep(n, next, s, b))
    && (forall s, b :: ok(s) && next(s, b).Some? ==> ok(next(s, b).value))
  }

  lemma SuccessorClosed<C(!new)>(n: Nfa<C>, s: seq<C>, b: Byte, t: seq<C>)
    requires forall p :: p in t <==> StepReaches(n, s, b, p)
    ensures Closed(n, t)
  {
    forall q, p | q in t && Reaches(n, q, [], p) ensures p in t {
      assert StepReaches(n, s, b, q);
      var r, m :| r in s && n.step(r, b, m) && Reaches(n, m, [], q);
      ReachesJoin(n, m, [], q, [], p);
      assert StepReaches(n, s, b, p) by { var e: Word := []; assert e + e == e; }
    }
  }

  lemma SubsetMoveComplete<C(!new)>(n: Nfa<C>, s: seq<C>, w: Word, q: C) returns (m: C)
    requires Closed(n, s) && q in s && w != [] && NfaAccepts(n, q, w)
    ensures HasStep(n, s, w[0]) && StepReaches(n, s, w[0], m) && NfaAccepts(n, m, w[1..])
  {
    var p :| Reaches(n, q, w, p) && n.acc(p);
    var k: nat :| Run(n, q, w, p, k);
    var r;
    r, m := FirstByte(n, q, w, p, k);
    ReachesRefl(n, m);
  }

  lemma SubsetMoveSound<C(!new)>(n: Nfa<C>, s: seq<C>, w: Word, t: C)
    requires w != [] && StepReaches(n, s, w[0], t) && NfaAccepts(n, t, w[1..])
    ensures SomeAccepts(n, s, w)
  {
    var q, m :| q in s && n.step(q, w[0], m) && Reaches(n, m, [], t);
    var p :| Reaches(n, t, w[1..], p) && n.acc(p);
    ReachesJoin(n, m, [], t, w[1..], p);
    assert [] + w[1..] == w[1..];
    ReachesByte(n, q, w[0], m, w[1..], p);
    assert [w[0]] + w[1..] == w;
    assert NfaAccepts(n, q, w);
  }

  lemma SubsetEnd<C(!new)>(n: Nfa<C>, s: seq<C>)
    requires Closed(n, s)
    ensures SubsetAcc(n, s) <==> SomeAccepts(n, s, [])
  {
    if SubsetAcc(n, s) {
      var q :| q in s && n.acc(q);
      ReachesRefl(n, q);
      assert NfaAccepts(n, q, []);
    }
    if SomeAccepts(n, s, []) {
      var q :| q in s && NfaAccepts(n, q, []);
      var p :| Reaches(n, q, [], p) && n.acc(p);
      assert p in s;
    }
  }

  /** The subset automaton accepts from a closed subset what some member accepts. */
  lemma {:induction false} SubsetAccepts<C(!new)>(n: Nfa<C>, next: (seq<C>, Byte) -> Option<seq<C>>, acc: seq<C> -> bool,
                                                  ok: seq<C> -> bool, s: seq<C>, w: Word)
    requires IsSubsetAutomaton(n, next, acc, ok) && ok(s) && Closed(n, s)
    ensures KeyAccepts(next, acc, s, w) <==> SomeAccepts(n, s, w)
    decreases |w|
  {
    if w == [] {
      SubsetEnd(n, s);
    } else {
      assert SubsetStep(n, next, s, w[0]);
      if SomeAccepts(n, s, w) {
        var q :| q in s && NfaAccepts(n, q, w);
        var m := SubsetMoveComplete(n, s, w, q);
        var t := next(s, w[0]).value;
        assert m in t;
        SuccessorClosed(n, s, w[0], t);
        SubsetAccepts(n, next, acc, ok, t, w[1..]);
      }
      if next(s, w[0]).Some? && KeyAccepts(next, acc, next(s, w[0]).value, w[1..]) {
        var t := next(s, w[0]).value;
        SuccessorClosed(n, s, w[0], t);
        SubsetAccepts(n, next, acc, ok, t, w[1..]);
        var p :| p in t && NfaAccepts(n, p, w[1..]);
        SubsetMoveSound(n, s, w, p);
      }
    }
  }

  // --- proving what an NFA accepts ------------------------------------------------------------------------

  /** A family of languages is at least as large as what each state accepts if it contains every
      one-move prediction. */
  ghost predicate Absorbs<C(!new)>(n: Nfa<C>, d: (C, Word) -> bool) {
    && (forall q :: n.acc(q) ==> d(q, []))
    && (forall q, m, w :: n.eps(q, m) && d(m, w) ==> d(q, w))
    && (forall q, b, m, w :: n.step(q, b, m) && d(m, w) ==> d(q, [b] + w))
  }

  lemma {:induction false} RunAbsorbed<C(!new)>(n: Nfa<C>, d: (C, Word) -> bool, q: C, w: Word, p: C, k: nat)
    requires Absorbs(n, d) && Run(n, q, w, p, k) && n.acc(p)
    ensures d(q, w)
    decreases k
  {
    if k == 0 {
    } else if SilentMove(n, q, w, p, k) {
      var m :| n.eps(q, m) && Run(n, m, w, p, k - 1);
      RunAbsorbed(n, d, m, w, p, k - 1);
    } else {
      var m :| n.step(q, w[0], m) && Run(n, m, w[1..], p, k - 1);
      RunAbsorbed(n, d, m, w[1..], p, k - 1);
      assert [w[0]] + w[1..] == w;
    }
  }

  lemma AcceptedAbsorbed<C(!new)>(n: Nfa<C>, d: (C, Word) -> bool, q: C, w: Word)
    requires Absorbs(n, d) && NfaAccepts(n, q, w)
    ensures d(q, w)
  {
    var p :| Reaches(n, q, w, p) && n.acc(p);
    var k: nat :| Run(n, q, w, p, k);
    RunAbsorbed(n, d, q, w, p, k);
  }

  lemma AcceptsEmpty<C(!new)>(n: Nfa<C>, q: C)
    requires n.acc(q)
    ensures NfaAccepts(n, q, [])
  {
    ReachesRefl(n, q);
  }

  lemma AcceptsSilent<C(!new)>(n: Nfa<C>, q: C, m: C, w: Word)
    requires n.eps(q, m) && NfaAccepts(n, m, w)
    ensures NfaAccepts(n, q, w)
  {
    var p :| Reaches(n, m, w, p) && n.acc(p);
    ReachesSilent(n, q, m, w, p);
  }

  lemma AcceptsByte<C(!new)>(n: Nfa<C>, q: C, b: Byte, m: C, w: Word)
    requires n.step(q, b, m) && NfaAccepts(n, m, w)
    ensures NfaAccepts(n, q, [b] + w)
  {
    var p :| Reaches(n, m, w, p) && n.acc(p);
    ReachesByte(n, q, b, m, w, p);
  }
}
