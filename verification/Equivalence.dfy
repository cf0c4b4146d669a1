/** Deciding whether two engines accept the same byte strings (correctness/compile_differential.rs). */
module Equivalence {
  import opened Outcome
  import opened Languages
  import opened Engine
  import Finite

  type Pair = (nat, nat)

  ghost function Moved(a: RefEngine, b: RefEngine, p: Pair, byte: Byte): Pair {
    (a.table.Next(p.0, byte), b.table.Next(p.1, byte))
  }

  ghost predicate InRange(a: RefEngine, b: RefEngine, p: Pair) {
    p.0 < a.StateCount() && p.1 < b.StateCount()
  }

  /** Some word leads the engines to the pair. */
  ghost predicate LedTo(a: RefEngine, b: RefEngine, p: Pair, w: Word) {
    p == (a.table.Walk(a.start, w), b.table.Walk(b.start, w))
  }

  ghost predicate Met(a: RefEngine, b: RefEngine, p: Pair) {
    exists w :: LedTo(a, b, p, w)
  }

  predicate Agree(a: RefEngine, b: RefEngine, p: Pair) {
    && a.table.IsAccepting(p.0) == b.table.IsAccepting(p.1)
    && a.IsDead(p.0) == b.IsDead(p.1)
    && a.CanContinue(p.0) == b.CanContinue(p.1)
  }

  /** The pair agrees and the moves on the bytes below `upTo` are known. */
  ghost predicate Settled(a: RefEngine, b: RefEngine, p: Pair, seen: set<Pair>, upTo: nat) {
    Agree(a, b, p) && forall byte: Byte :: byte < upTo ==> Moved(a, b, p, byte) in seen
  }

  ghost predicate AllMet(a: RefEngine, b: RefEngine, seen: set<Pair>) {
    forall p :: p in seen ==> Met(a, b, p) && InRange(a, b, p)
  }

  ghost predicate Waiting(queue: seq<Pair>, seen: set<Pair>) {
    forall i :: 0 <= i < |queue| ==> queue[i] in seen
  }

  /** Every known pair waits in the queue or is settled. */
  ghost predicate Progress(a: RefEngine, b: RefEngine, seen: set<Pair>, queue: seq<Pair>, pending: set<Pair>) {
    forall p :: p in seen && p !in queue && p !in pending ==> Settled(a, b, p, seen, 256)
  }

  ghost function AllPairs(a: RefEngine, b: RefEngine): set<Pair> {
    set x, y | x in Finite.Below(a.StateCount()) && y in Finite.Below(b.StateCount()) :: (x, y)
  }

  ghost function Unseen(a: RefEngine, b: RefEngine, seen: set<Pair>): set<Pair> {
    AllPairs(a, b) - seen
  }

  lemma UnseenShrinks(a: RefEngine, b: RefEngine, seen: set<Pair>, p: Pair)
    requires InRange(a, b, p) && p !in seen
    ensures |Unseen(a, b, seen + {p})| < |Unseen(a, b, seen)|
  {
    assert Unseen(a, b, seen) == Unseen(a, b, seen + {p}) + {p};
  }

  lemma MetMoves(a: RefEngine, b: RefEngine, p: Pair, byte: Byte)
    requires a.Valid() && b.Valid() && Met(a, b, p)
    ensures Met(a, b, Moved(a, b, p, byte)) && InRange(a, b, Moved(a, b, p, byte))
  {
    assert a.table.WellFormed() && b.table.WellFormed();
    hide RefEngine.Valid, Table.WellFormed, Table.Walk, Table.Next;
    var w :| LedTo(a, b, p, w);
    a.table.WalkAppend(a.start, w, [byte]);
    b.table.WalkAppend(b.start, w, [byte]);
    OneByte(a.table, p.0, byte);
    OneByte(b.table, p.1, byte);
    assert LedTo(a, b, Moved(a, b, p, byte), w + [byte]);
    a.table.NextInRange(p.0, byte);
    b.table.NextInRange(p.1, byte);
  }

  lemma OneByte(t: Table, s: nat, byte: Byte)
    ensures t.Walk(s, [byte]) == t.Next(s, byte)
  {
    assert [byte][1..] == [];
  }

  // --- completeness: equal languages agree everywhere ---------------------------------------------------------

  lemma MetLanguages(a: RefEngine, b: RefEngine, p: Pair)
    requires Met(a, b, p) && a.Language() == b.Language()
    ensures a.table.From(p.0) == b.table.From(p.1)
  {
    var w :| LedTo(a, b, p, w);
    forall v: Word ensures a.table.Accepts(p.0, v) <==> b.table.Accepts(p.1, v) {
      a.table.WalkAppend(a.start, w, v);
      b.table.WalkAppend(b.start, w, v);
      assert w + v in a.Language() <==> w + v in b.Language();
    }
  }

  /** A live byte move shows in the language. */
  lemma ContinuesIffLonger(e: RefEngine, s: nat)
    requires e.Valid() && s < e.StateCount()
    ensures e.CanContinue(s) <==> exists v :: v in e.table.From(s) && v != []
  {
    hide RefEngine.CanContinue, RefEngine.MasksOk;
    CanContinueIffSomeByte(e, s);
    if byte: Byte :| e.table.Next(s, byte) != DEAD {
      e.table.NextInRange(s, byte);
      assert e.table.Live(e.table.Next(s, byte));
      var v :| e.table.Accepts(e.table.Next(s, byte), v);
      PrependByte(e.table, s, byte, v);
    }
    if v :| v in e.table.From(s) && v != [] {
      e.table.DeadIsSink(v[1..]);
      assert e.table.Next(s, v[0]) != DEAD;
    }
  }

  lemma AcceptsEmptyWord(t: Table, s: nat)
    ensures t.IsAccepting(s) <==> [] in t.From(s)
  {}

  /** A state is dead exactly when it neither accepts nor can continue. */
  lemma DeadIffStuck(e: RefEngine, s: nat)
    requires e.Valid() && s < e.StateCount()
    ensures e.IsDead(s) <==> !e.table.IsAccepting(s) && !e.CanContinue(s)
  {
    hide RefEngine.Valid, RefEngine.IsDead, RefEngine.CanContinue, Table.From, Table.IsAccepting;
    DeadIffEmpty(e, s);
    AcceptsEmptyWord(e.table, s);
    ContinuesIffLonger(e, s);
    if !e.IsDead(s) {
      var w :| w in e.table.From(s);
    }
  }

  lemma EqualLanguagesAgree(a: RefEngine, b: RefEngine, p: Pair)
    requires a.Valid() && b.Valid() && Met(a, b, p) && InRange(a, b, p) && a.Language() == b.Language()
    ensures Agree(a, b, p)
  {
    hide RefEngine.Valid, RefEngine.IsDead, RefEngine.CanContinue, RefEngine.Language, Table.From, Table.IsAccepting;
    MetLanguages(a, b, p);
    AcceptsEmptyWord(a.table, p.0);
    AcceptsEmptyWord(b.table, p.1);
    DeadIffEmpty(a, p.0);
    DeadIffEmpty(b, p.1);
    ContinuesIffLonger(a, p.0);
    ContinuesIffLonger(b, p.1);
  }

  // --- soundness: a settled set of pairs is a bisimulation ------------------------------------------------------

  ghost predicate Bisimulation(a: RefEngine, b: RefEngine, seen: set<Pair>) {
    forall p :: p in seen ==> Settled(a, b, p, seen, 256)
  }

  lemma {:induction false} BisimilarAccept(a: RefEngine, b: RefEngine, seen: set<Pair>, p: Pair, w: Word)
    requires Bisimulation(a, b, seen) && p in seen
    ensures a.table.Accepts(p.0, w) <==> b.table.Accepts(p.1, w)
    decreases |w|
  {
    assert Settled(a, b, p, seen, 256);
    if w != [] { BisimilarAccept(a, b, seen, Moved(a, b, p, w[0]), w[1..]); }
  }

  // --- the search -------------------------------------------------------------------------------------------------

  /** `consume_token(s, [byte])`, with DEAD for a refusal. */
  method Move(e: RefEngine, s: nat, byte: Byte) returns (t: nat)
    requires e.Valid() && s < e.StateCount()
    ensures t == e.table.Next(s, byte)
  {
    OneByte(e.table, s, byte);
    var consumed := e.ConsumeToken(s, [byte]);
    t := if consumed.Some? then consumed.value else DEAD;
  }

  /** The state of the byte loop: everything but `p` is settled or waiting, and the moves of `p` below
      `upTo` are known. */
  ghost predicate Expanding(a: RefEngine, b: RefEngine, p: Pair, seen: set<Pair>, queue: seq<Pair>, upTo: nat) {
    && AllMet(a, b, seen) && Waiting(queue, seen) && p in seen
    && Progress(a, b, seen, queue, {p}) && Settled(a, b, p, seen, upTo)
  }

  lemma ExpandKnown(a: RefEngine, b: RefEngine, p: Pair, seen: set<Pair>, queue: seq<Pair>, byte: Byte)
    requires Expanding(a, b, p, seen, queue, byte) && Moved(a, b, p, byte) in seen
    ensures Expanding(a, b, p, seen, queue, byte + 1)
  {}

  lemma ExpandNew(a: RefEngine, b: RefEngine, p: Pair, seen: set<Pair>, queue: seq<Pair>, byte: Byte)
    requires a.Valid() && b.Valid()
    requires Expanding(a, b, p, seen, queue, byte) && Moved(a, b, p, byte) !in seen
    ensures var q := Moved(a, b, p, byte);
            Expanding(a, b, p, seen + {q}, queue + [q], byte + 1)
            && |Unseen(a, b, seen + {q})| < |Unseen(a, b, seen)|
  {
    hide RefEngine.Valid, Agree, Met, InRange, Unseen, Moved;
    var q := Moved(a, b, p, byte);
    MetMoves(a, b, p, byte);
    UnseenShrinks(a, b, seen, q);
    forall r | r in seen + {q} && r !in queue + [q] && r !in {p} ensures Settled(a, b, r, seen + {q}, 256) {
      assert q in queue + [q] && r !in queue;
      assert Settled(a, b, r, seen, 256);
    }
  }

  lemma StartExpanding(a: RefEngine, b: RefEngine, p: Pair, seen: set<Pair>, queue: seq<Pair>)
    requires AllMet(a, b, seen) && Waiting(queue, seen) && p in seen && Agree(a, b, p) && Progress(a, b, seen, queue, {p})
    ensures Expanding(a, b, p, seen, queue, 0) && p.0 < a.StateCount() && p.1 < b.StateCount()
  {
    hide Agree, Met;
  }

  lemma ExpandedAll(a: RefEngine, b: RefEngine, p: Pair, seen: set<Pair>, queue: seq<Pair>)
    requires Expanding(a, b, p, seen, queue, 256)
    ensures AllMet(a, b, seen) && Waiting(queue, seen) && Progress(a, b, seen, queue, {})
  {
    hide Settled, Met;
  }

  lemma MovedIs(a: RefEngine, b: RefEngine, p: Pair, byte: Byte)
    ensures Moved(a, b, p, byte) == (a.table.Next(p.0, byte), b.table.Next(p.1, byte))
  {}

  /** The 256 moves of one pair. */
  method Expand(a: RefEngine, b: RefEngine, p: Pair, seen0: set<Pair>, queue0: seq<Pair>)
    returns (seen: set<Pair>, queue: seq<Pair>)
    requires a.Valid() && b.Valid() && AllMet(a, b, seen0) && Waiting(queue0, seen0) && p in seen0 && Agree(a, b, p)
    requires Progress(a, b, seen0, queue0, {p})
    ensures AllMet(a, b, seen) && Waiting(queue, seen) && seen0 <= seen
    ensures Progress(a, b, seen, queue, {})
    ensures (seen == seen0 && queue == queue0) || |Unseen(a, b, seen)| < |Unseen(a, b, seen0)|
  {
    hide *;
    seen, queue := seen0, queue0;
    StartExpanding(a, b, p, seen, queue);
    for byte := 0 to 256
      invariant Expanding(a, b, p, seen, queue, byte) && seen0 <= seen
      invariant (seen == seen0 && queue == queue0) || |Unseen(a, b, seen)| < |Unseen(a, b, seen0)|
    {
      MovedIs(a, b, p, byte);
      var na := Move(a, p.0, byte);
      var nb := Move(b, p.1, byte);
      if (na, nb) !in seen {
        ExpandNew(a, b, p, seen, queue, byte);
        seen := seen + {(na, nb)};
        queue := queue + [(na, nb)];
      } else {
        ExpandKnown(a, b, p, seen, queue, byte);
      }
    }
    ExpandedAll(a, b, p, seen, queue);
  }

  /** The pair search terminates, and answers true exactly when the engines accept the same strings. */
  method Equivalent(a: RefEngine, b: RefEngine) returns (same: bool)
    requires a.Valid() && b.Valid()
    ensures same <==> a.Language() == b.Language()
  {
    hide RefEngine.Valid, RefEngine.Language, Unseen, AllMet, Settled, Agree, Waiting;
    var start := (a.start, b.start);
    var seen := {start};
    var queue := [start];
    StartMet(a, b);
    while queue != []
      invariant AllMet(a, b, seen) && Waiting(queue, seen) && Progress(a, b, seen, queue, {}) && start in seen
      decreases |Unseen(a, b, seen)|, |queue|
    {
      var p := queue[0];
      PopPair(a, b, seen, queue);
      queue := queue[1..];
      AgreeIs(a, b, p);
      if a.table.IsAccepting(p.0) != b.table.IsAccepting(p.1)
         || a.IsDead(p.0) != b.IsDead(p.1)
         || a.CanContinue(p.0) != b.CanContinue(p.1) {
        Disagree(a, b, seen, p);
        return false;
      }
      seen, queue := Expand(a, b, p, seen, queue);
    }
    SameLanguage(a, b, seen);
    same := true;
  }

  lemma StartMet(a: RefEngine, b: RefEngine)
    requires a.Valid() && b.Valid()
    ensures AllMet(a, b, {(a.start, b.start)}) && Waiting([(a.start, b.start)], {(a.start, b.start)})
  {
    assert LedTo(a, b, (a.start, b.start), []);
  }

  lemma PopPair(a: RefEngine, b: RefEngine, seen: set<Pair>, queue: seq<Pair>)
    requires queue != [] && Waiting(queue, seen) && Progress(a, b, seen, queue, {})
    ensures queue[0] in seen && Waiting(queue[1..], seen) && Progress(a, b, seen, queue[1..], {queue[0]})
  {
    hide Settled;
    assert queue == [queue[0]] + queue[1..];
  }

  lemma AgreeIs(a: RefEngine, b: RefEngine, p: Pair)
    ensures Agree(a, b, p) <==>
              && a.table.IsAccepting(p.0) == b.table.IsAccepting(p.1)
              && a.IsDead(p.0) == b.IsDead(p.1)
              && a.CanContinue(p.0) == b.CanContinue(p.1)
  {}

  lemma Disagree(a: RefEngine, b: RefEngine, seen: set<Pair>, p: Pair)
    requires a.Valid() && b.Valid() && AllMet(a, b, seen) && p in seen && !Agree(a, b, p)
    ensures a.Language() != b.Language()
  {
    hide RefEngine.Valid, Agree;
    if a.Language() == b.Language() { EqualLanguagesAgree(a, b, p); }
  }

  lemma SameLanguage(a: RefEngine, b: RefEngine, seen: set<Pair>)
    requires Progress(a, b, seen, [], {}) && (a.start, b.start) in seen
    ensures a.Language() == b.Language()
  {
    hide Settled;
    forall w: Word ensures a.table.Accepts(a.start, w) <==> b.table.Accepts(b.start, w) {
      BisimilarAccept(a, b, seen, (a.start, b.start), w);
    }
  }
}
