/** Concatenation, union and repetition of engines, as chains of engine copies in one byte NFA
    (automaton/graph.rs). */
module Combine {
  import opened Outcome
  import opened Languages
  import opened Graph
  import opened Engine
  import opened NfaTheory
  import opened Determinization
  import Bits
  import Finite
  import Materialize

  const U32_MAX: nat := 0xFFFF_FFFF

  // --- copies of engines ----------------------------------------------------------------------------------

  /** The live transitions of engine state `s` over the bytes below `k`, shifted to base `base`. */
  function CopyEdges(e: RefEngine, s: nat, base: nat, k: nat): seq<(Byte, nat)>
    requires k <= 256
  {
    if k == 0 then []
    else
      var front := CopyEdges(e, s, base, k - 1);
      var t := e.table.Next(s, k - 1);
      if t != DEAD then front + [(k - 1, base + t - 1)] else front
  }

  lemma {:induction false} CopyEdgesAre(e: RefEngine, s: nat, base: nat, k: nat, b: Byte, p: nat)
    requires k <= 256
    ensures (b, p) in CopyEdges(e, s, base, k) <==>
            b < k && e.table.Next(s, b) != DEAD && p == base + e.table.Next(s, b) - 1
  {
    if k > 0 { CopyEdgesAre(e, s, base, k - 1, b, p); }
  }

  function CopyState(e: RefEngine, s: nat, base: nat): NfaState {
    NfaState(CopyEdges(e, s, base, 256), [], e.table.IsAccepting(s))
  }

  function LiveCount(e: RefEngine): nat
    requires e.StateCount() > 0
  {
    e.StateCount() - 1
  }

  /** The copies of states `1..=k`, and the ids of the accepting ones. */
  function CopyStates(e: RefEngine, base: nat, k: nat): (r: seq<NfaState>)
    ensures |r| == k
  {
    seq(k, i requires 0 <= i < k => CopyState(e, i + 1, base))
  }

  function AcceptIds(e: RefEngine, base: nat, k: nat): (r: seq<nat>)
    ensures forall q: nat :: q in r <==> base <= q < base + k && e.table.IsAccepting(q - base + 1)
  {
    if k == 0 then []
    else if e.table.IsAccepting(k) then AcceptIds(e, base, k - 1) + [base + k - 1]
    else AcceptIds(e, base, k - 1)
  }

  method CopyRow(e: RefEngine, s: nat, base: nat) returns (edges: seq<(Byte, nat)>)
    ensures edges == CopyEdges(e, s, base, 256)
  {
    edges := [];
    for byte := 0 to 256
      invariant edges == CopyEdges(e, s, base, byte)
    {
      var target := e.table.Next(s, byte);
      if target != DEAD { edges := edges + [(byte, base + target - 1)]; }
    }
  }

  lemma NoCopies(e: RefEngine, base: nat)
    ensures CopyStates(e, base, 0) == [] && AcceptIds(e, base, 0) == []
  {}

  lemma CopyOneMore(e: RefEngine, base: nat, raw: nat)
    requires raw > 0
    ensures CopyStates(e, base, raw) ==
            CopyStates(e, base, raw - 1) + [NfaState(CopyEdges(e, raw, base, 256), [], e.table.IsAccepting(raw))]
    ensures AcceptIds(e, base, raw) ==
            AcceptIds(e, base, raw - 1) + if e.table.IsAccepting(raw) then [base + raw - 1] else []
  {
    hide CopyEdges;
    assert CopyStates(e, base, raw) == CopyStates(e, base, raw - 1) + [CopyState(e, raw, base)];
  }

  /** `append_engine`: every state but DEAD is copied behind the existing states. */
  method AppendEngine(states0: seq<NfaState>, e: RefEngine)
    returns (ok: bool, states: seq<NfaState>, start: nat, accepting: seq<nat>)
    requires e.StateCount() > 0 && e.start != DEAD
    ensures ok <==> |states0| + LiveCount(e) <= MAX_GRAPH_STATES
    ensures ok ==> states == states0 + CopyStates(e, |states0|, LiveCount(e))
    ensures ok ==> start == |states0| + e.start - 1 && accepting == AcceptIds(e, |states0|, LiveCount(e))
  {
    hide CopyState, CopyStates, CopyEdges, AcceptIds;
    var base := |states0|;
    states, start, accepting := states0, base + e.start - 1, [];
    NoCopies(e, base);
    if base + e.StateCount() - 1 > MAX_GRAPH_STATES { return false, states, start, accepting; }
    for raw := 1 to e.StateCount()
      invariant states == states0 + CopyStates(e, base, raw - 1)
      invariant accepting == AcceptIds(e, base, raw - 1)
    {
      var edges := CopyRow(e, raw, base);
      var isAccepting := e.table.IsAccepting(raw);
      if isAccepting { accepting := accepting + [base + raw - 1]; }
      states := states + [NfaState(edges, [], isAccepting)];
      CopyOneMore(e, base, raw);
    }
    ok := true;
  }

  /** What linking does to an accepting state: an optional silent move, and a new acceptance flag. */
  function Linked(s: NfaState, next: Option<nat>, flag: bool): NfaState {
    NfaState(s.edges, if next.Some? then s.epsilon + [next.value] else s.epsilon, flag)
  }

  method LinkRun(states0: seq<NfaState>, ids: seq<nat>, next: Option<nat>, flag: bool) returns (states: seq<NfaState>)
    requires forall i :: 0 <= i < |ids| ==> ids[i] < |states0|
    requires Finite.Distinct(ids)
    ensures |states| == |states0|
    ensures forall q: nat :: q < |states| ==>
              states[q] == if q in ids then Linked(states0[q], next, flag) else states0[q]
  {
    states := states0;
    for i := 0 to |ids|
      invariant |states| == |states0|
      invariant forall q: nat :: q < |states| ==>
                  states[q] == if q in ids[..i] then Linked(states0[q], next, flag) else states0[q]
    {
      var q := ids[i];
      assert q !in ids[..i];
      assert ids[..i + 1] == ids[..i] + [q];
      states := states[q := Linked(states[q], next, flag)];
    }
    assert ids[..|ids|] == ids;
  }

  lemma {:induction false} AcceptIdsDistinct(e: RefEngine, base: nat, k: nat)
    ensures Finite.Distinct(AcceptIds(e, base, k))
  {
    if k > 0 {
      AcceptIdsDistinct(e, base, k - 1);
      var front := AcceptIds(e, base, k - 1);
      forall i | 0 <= i < |front| ensures front[i] < base + k - 1 { assert front[i] in front; }
    }
  }

  // --- chains of copies -------------------------------------------------------------------------------------

  /** Copies of engines laid out in one NFA. After accepting in copy `j` a run may move silently to the
      start of copy `next[j]`; the accepting states of copy `j` accept when `flag[j]`. */
  datatype Chain = Chain(engines: seq<RefEngine>, bases: seq<nat>, next: seq<Option<nat>>, flag: seq<bool>)
  {
    ghost predicate Ok() {
      && |engines| == |bases| == |next| == |flag|
      && (forall j :: 0 <= j < |engines| ==> engines[j].Valid() && engines[j].start != DEAD)
      && (forall j :: 0 <= j < |engines| && next[j].Some? ==> next[j].value < |engines|)
    }

    ghost function StartId(j: nat): nat
      requires Ok() && j < |engines|
    {
      bases[j] + engines[j].start - 1
    }

    ghost function NextId(j: nat): Option<nat>
      requires Ok() && j < |engines|
    {
      if next[j].Some? then Some(StartId(next[j].value)) else None
    }

    ghost function StateOf(j: nat, s: nat): NfaState
      requires Ok() && j < |engines| && 1 <= s < engines[j].StateCount()
    {
      var c := CopyState(engines[j], s, bases[j]);
      if engines[j].table.IsAccepting(s) then Linked(c, NextId(j), flag[j]) else c
    }

    ghost predicate HasCopy(n: ByteNfa, j: nat, s: nat)
      requires Ok() && j < |engines| && 1 <= s < engines[j].StateCount()
    {
      bases[j] + s - 1 < |n.states| && n.states[bases[j] + s - 1] == StateOf(j, s)
    }

    ghost predicate In(n: ByteNfa) {
      && Ok()
      && forall j, s :: 0 <= j < |engines| && 1 <= s < engines[j].StateCount() ==> HasCopy(n, j, s)
    }

    /** What may follow copy `j` when `m` more copies are passed. */
    ghost function After(j: nat, m: nat): Lang
      requires Ok() && j < |engines|
      decreases m
    {
      if m == 0 then (if flag[j] then EPSILON else NOTHING)
      else match next[j]
        case None => NOTHING
        case Some(i) => Cat(engines[i].Language(), After(i, m - 1))
    }

    ghost predicate TailFrom(j: nat, s: nat, m: nat, w: Word)
      requires Ok() && j < |engines|
    {
      w in Cat(engines[j].table.From(s), After(j, m))
    }

    /** The words read from state `s` of copy `j` to acceptance. */
    ghost predicate Tail(j: nat, s: nat, w: Word)
      requires Ok() && j < |engines|
    {
      exists m: nat :: TailFrom(j, s, m, w)
    }

    /** A prediction for every NFA state that is a copy. */
    ghost predicate Predicts(q: nat, w: Word)
      requires Ok()
    {
      forall j, s :: 0 <= j < |engines| && 1 <= s < engines[j].StateCount() && bases[j] + s - 1 == q ==> Tail(j, s, w)
    }
  }

  lemma TailEmpty(c: Chain, j: nat, s: nat)
    requires c.Ok() && j < |c.engines| && c.flag[j] && c.engines[j].table.IsAccepting(s)
    ensures c.Tail(j, s, [])
  {
    CatIntro(c.engines[j].table.From(s), c.After(j, 0), [], []);
    var e: Word := [];
    assert e + e == e;
    assert c.TailFrom(j, s, 0, []);
  }

  lemma TailLink(c: Chain, j: nat, s: nat, i: nat, w: Word)
    requires c.Ok() && j < |c.engines| && c.next[j] == Some(i) && c.engines[j].table.IsAccepting(s)
    requires c.Tail(i, c.engines[i].start, w)
    ensures c.Tail(j, s, w)
  {
    hide RefEngine.Valid, Cat;
    var m: nat :| c.TailFrom(i, c.engines[i].start, m, w);
    CatIntro(c.engines[j].table.From(s), c.After(j, m + 1), [], w);
    assert [] + w == w;
    assert c.TailFrom(j, s, m + 1, w);
  }

  lemma TailByte(c: Chain, j: nat, s: nat, b: Byte, w: Word)
    requires c.Ok() && j < |c.engines| && c.Tail(j, c.engines[j].table.Next(s, b), w)
    ensures c.Tail(j, s, [b] + w)
  {
    hide RefEngine.Valid, Table.Walk, Table.Next, Table.Accepts, Chain.After;
    var table := c.engines[j].table;
    var m: nat :| c.TailFrom(j, table.Next(s, b), m, w);
    var u, v := CatElim(table.From(table.Next(s, b)), c.After(j, m), w);
    PrependByte(table, s, b, u);
    CatIntro(table.From(s), c.After(j, m), [b] + u, v);
    assert ([b] + u) + v == [b] + w;
    assert c.TailFrom(j, s, m, [b] + w);
  }

  lemma PredictAcc(c: Chain, n: ByteNfa, q: nat)
    requires c.In(n) && AccOfState(n, q)
    ensures c.Predicts(q, [])
  {
    forall j, s | 0 <= j < |c.engines| && 1 <= s < c.engines[j].StateCount() && c.bases[j] + s - 1 == q
      ensures c.Tail(j, s, [])
    {
      assert c.HasCopy(n, j, s);
      TailEmpty(c, j, s);
    }
  }

  lemma PredictEps(c: Chain, n: ByteNfa, q: nat, m: nat, w: Word)
    requires c.In(n) && EpsOf(n, q, m) && c.Predicts(m, w)
    ensures c.Predicts(q, w)
  {
    forall j, s | 0 <= j < |c.engines| && 1 <= s < c.engines[j].StateCount() && c.bases[j] + s - 1 == q
      ensures c.Tail(j, s, w)
    {
      var i := SilentMove(c, n, j, s, m);
      hide *;
      StartTail(c, i, w);
      TailLink(c, j, s, i, w);
    }
  }

  /** The only silent move of a copied state leads to the start of the next copy. */
  lemma SilentMove(c: Chain, n: ByteNfa, j: nat, s: nat, m: nat) returns (i: nat)
    requires c.In(n) && j < |c.engines| && 1 <= s < c.engines[j].StateCount() && EpsOf(n, c.bases[j] + s - 1, m)
    ensures c.next[j] == Some(i) && i < |c.engines| && m == c.StartId(i) && c.engines[j].table.IsAccepting(s)
  {
    hide RefEngine.Valid, CopyEdges;
    assert c.HasCopy(n, j, s);
    i := c.next[j].value;
  }

  lemma StartTail(c: Chain, i: nat, w: Word)
    requires c.Ok() && i < |c.engines| && c.Predicts(c.StartId(i), w)
    ensures c.Tail(i, c.engines[i].start, w)
  {
    hide Chain.Tail;
    ChainEngine(c, i);
    StartInRange(c.engines[i]);
  }

  lemma PredictStep(c: Chain, n: ByteNfa, q: nat, b: Byte, m: nat, w: Word)
    requires c.In(n) && StepOf(n, q, b, m) && c.Predicts(m, w)
    ensures c.Predicts(q, [b] + w)
  {
    forall j, s | 0 <= j < |c.engines| && 1 <= s < c.engines[j].StateCount() && c.bases[j] + s - 1 == q
      ensures c.Tail(j, s, [b] + w)
    {
      ByteMove(c, n, j, s, b, m);
      hide RefEngine.Valid, Chain.Tail, Table.Next, StepOf, Chain.In;
      assert c.Tail(j, c.engines[j].table.Next(s, b), w);
      TailByte(c, j, s, b, w);
    }
  }

  /** The only move of a copied state over a byte is the copy of the engine's move. */
  lemma ByteMove(c: Chain, n: ByteNfa, j: nat, s: nat, b: Byte, m: nat)
    requires c.In(n) && j < |c.engines| && 1 <= s < c.engines[j].StateCount() && StepOf(n, c.bases[j] + s - 1, b, m)
    ensures var t := c.engines[j].table.Next(s, b); 1 <= t < c.engines[j].StateCount() && m == c.bases[j] + t - 1
  {
    hide CopyEdges, Table.Next;
    assert c.HasCopy(n, j, s);
    CopyEdgesAre(c.engines[j], s, c.bases[j], 256, b, m);
    assert c.engines[j].Valid();
    c.engines[j].table.NextInRange(s, b);
  }

  /** Soundness: an accepting run from a copied state passes through copies as the chain allows. */
  lemma ChainSound(c: Chain, n: ByteNfa, j: nat, s: nat, w: Word)
    requires c.In(n) && j < |c.engines| && 1 <= s < c.engines[j].StateCount()
    requires NfaAccepts(View(n), c.bases[j] + s - 1, w)
    ensures c.Tail(j, s, w)
  {
    var v := View(n);
    var d := (q: nat, x: Word) => c.Predicts(q, x);
    forall q | v.acc(q) ensures d(q, []) { PredictAcc(c, n, q); }
    forall q, m, x | v.eps(q, m) && d(m, x) ensures d(q, x) { PredictEps(c, n, q, m, x); }
    forall q, b, m, x | v.step(q, b, m) && d(m, x) ensures d(q, [b] + x) { PredictStep(c, n, q, b, m, x); }
    AcceptedAbsorbed(v, d, c.bases[j] + s - 1, w);
  }

  lemma CopyStep(c: Chain, n: ByteNfa, j: nat, s: nat, b: Byte)
    requires c.In(n) && j < |c.engines| && 1 <= s < c.engines[j].StateCount()
    requires c.engines[j].table.Next(s, b) != DEAD
    ensures View(n).step(c.bases[j] + s - 1, b, c.bases[j] + c.engines[j].table.Next(s, b) - 1)
  {
    hide RefEngine.Valid, CopyEdges, Table.Next;
    assert c.HasCopy(n, j, s);
    CopyEdgesAre(c.engines[j], s, c.bases[j], 256, b, c.bases[j] + c.engines[j].table.Next(s, b) - 1);
  }

  /** Reading a live word inside one copy. */
  lemma {:induction false} CopyWalk(c: Chain, n: ByteNfa, j: nat, s: nat, u: Word, v: Word)
    requires c.In(n) && j < |c.engines| && 1 <= s < c.engines[j].StateCount()
    requires c.engines[j].table.Walk(s, u) != DEAD
    requires NfaAccepts(View(n), c.bases[j] + c.engines[j].table.Walk(s, u) - 1, v)
    ensures NfaAccepts(View(n), c.bases[j] + s - 1, u + v)
    decreases |u|
  {
    hide RefEngine.Valid, View, NfaAccepts, Table.Next;
    if u == [] {
      assert u + v == v;
    } else {
      LiveStep(c.engines[j], s, u);
      var s' := c.engines[j].table.Next(s, u[0]);
      CopyWalk(c, n, j, s', u[1..], v);
      CopyStep(c, n, j, s, u[0]);
      AcceptsByte(View(n), c.bases[j] + s - 1, u[0], c.bases[j] + s' - 1, u[1..] + v);
      assert [u[0]] + (u[1..] + v) == u + v;
    }
  }

  lemma CopyAccepts(c: Chain, n: ByteNfa, j: nat, t: nat)
    requires c.In(n) && j < |c.engines| && 1 <= t < c.engines[j].StateCount() && c.engines[j].table.IsAccepting(t)
    ensures c.flag[j] ==> View(n).acc(c.bases[j] + t - 1)
    ensures c.next[j].Some? ==> View(n).eps(c.bases[j] + t - 1, c.StartId(c.next[j].value))
  {
    hide RefEngine.Valid;
    assert c.HasCopy(n, j, t);
  }

  /** Completeness: everything the chain allows is accepted. */
  lemma {:induction false} ChainComplete(c: Chain, n: ByteNfa, j: nat, s: nat, m: nat, w: Word)
    requires c.In(n) && j < |c.engines| && 1 <= s < c.engines[j].StateCount()
    requires c.TailFrom(j, s, m, w)
    ensures NfaAccepts(View(n), c.bases[j] + s - 1, w)
    decreases m
  {
    hide RefEngine.Valid, View, NfaAccepts, Table.Walk;
    var table := c.engines[j].table;
    var u, v := CatElim(table.From(s), c.After(j, m), w);
    AcceptedEnd(c.engines[j], s, u);
    var q := c.bases[j] + table.Walk(s, u) - 1;
    CopyAccepts(c, n, j, table.Walk(s, u));
    if m == 0 {
      AcceptsEmpty(View(n), q);
    } else {
      var i := c.next[j].value;
      StartInRange(c.engines[i]);
      assert c.TailFrom(i, c.engines[i].start, m - 1, v);
      ChainComplete(c, n, i, c.engines[i].start, m - 1, v);
      AcceptsSilent(View(n), q, c.StartId(i), v);
    }
    CopyWalk(c, n, j, s, u, v);
  }

  lemma ChainEngine(c: Chain, j: nat)
    requires c.Ok() && j < |c.engines|
    ensures c.engines[j].Valid() && c.engines[j].start >= 1
  {
    hide RefEngine.Valid;
  }

  /** A chain accepts from the start of copy `j` its engine's words followed by what may come after. */
  lemma ChainAccepts(c: Chain, n: ByteNfa, j: nat, w: Word)
    requires c.Ok() && c.In(n) && j < |c.engines|
    ensures NfaAccepts(View(n), c.StartId(j), w) <==> c.Tail(j, c.engines[j].start, w)
  {
    hide RefEngine.Valid, View, NfaAccepts, Chain.In, Chain.TailFrom;
    ChainEngine(c, j);
    StartInRange(c.engines[j]);
    if NfaAccepts(View(n), c.StartId(j), w) { ChainSound(c, n, j, c.engines[j].start, w); }
    if c.Tail(j, c.engines[j].start, w) {
      var m: nat :| c.TailFrom(j, c.engines[j].start, m, w);
      ChainComplete(c, n, j, c.engines[j].start, m, w);
    }
  }

  // --- laying out a chain -----------------------------------------------------------------------------------

  ghost predicate Usable(engines: seq<RefEngine>) {
    forall j :: 0 <= j < |engines| ==> engines[j].Valid() && engines[j].start != DEAD
  }

  ghost predicate StatesOk(states: seq<NfaState>) {
    forall q :: 0 <= q < |states| ==> StateOk(states[q], |states|)
  }

  function TotalLive(engines: seq<RefEngine>): nat {
    if engines == [] then 0
    else TotalLive(engines[..|engines| - 1]) +
         if engines[|engines| - 1].StateCount() > 0 then engines[|engines| - 1].StateCount() - 1 else 0
  }

  function RawEdges(t: Table, k: nat): nat
    requires k <= |t.edges|
  {
    if k == 0 then 0
    else RawEdges(t, k - 1) + if t.edges[k - 1].0 < |t.members| then |t.members[t.edges[k - 1].0]| else 0
  }

  function TotalEdges(engines: seq<RefEngine>): nat {
    if engines == [] then 0
    else TotalEdges(engines[..|engines| - 1]) + RawEdges(engines[|engines| - 1].table, |engines[|engines| - 1].table.edges|)
  }

  ghost predicate Admitted(engines: seq<RefEngine>) {
    TotalLive(engines) <= MAX_GRAPH_STATES && TotalEdges(engines) <= MAX_GRAPH_EDGES
  }

  method RawByteTransitionCount(t: Table) returns (total: nat)
    ensures total == RawEdges(t, |t.edges|)
  {
    total := 0;
    for k := 0 to |t.edges|
      invariant total == RawEdges(t, k)
    {
      var c := t.edges[k].0;
      total := total + if c < |t.members| then |t.members[c]| else 0;
    }
  }

  /** `admit_engine_copies`. */
  method AdmitEngineCopies(engines: seq<RefEngine>) returns (ok: bool)
    ensures ok <==> Admitted(engines)
  {
    var states, edges := 0, 0;
    for i := 0 to |engines|
      invariant states == TotalLive(engines[..i]) && edges == TotalEdges(engines[..i])
    {
      assert engines[..i + 1][..i] == engines[..i];
      var raw := RawByteTransitionCount(engines[i].table);
      states := states + if engines[i].StateCount() > 0 then engines[i].StateCount() - 1 else 0;
      edges := edges + raw;
    }
    assert engines[..|engines|] == engines;
    ok := states <= MAX_GRAPH_STATES && edges <= MAX_GRAPH_EDGES;
  }

  // --- small operands -----------------------------------------------------------------------------------

  lemma {:induction false} AscendingRow(row: seq<(nat, nat)>, k: nat)
    requires Ascending(row) && k < |row|
    ensures row[k].0 >= k
  {
    if k > 0 { AscendingRow(row, k - 1); }
  }

  lemma {:induction false} AscendingBytes(bytes: seq<Byte>, k: nat)
    requires k < |bytes| && forall i, j :: 0 <= i < j < |bytes| ==> bytes[i] < bytes[j]
    ensures bytes[k] >= k
  {
    if k > 0 { AscendingBytes(bytes, k - 1); }
  }

  /** A state has at most one edge for each of the 256 classes. */
  lemma {:induction false} OffsetAtMost(t: Table, s: nat)
    requires t.WellFormed() && s < |t.rowOffsets|
    ensures t.rowOffsets[s] <= 256 * s
  {
    if s > 0 {
      OffsetAtMost(t, s - 1);
      var row := t.Row(s - 1);
      assert t.RowOk(row);
      if row != [] { AscendingRow(row, |row| - 1); }
    }
  }

  /** A class has at most 256 bytes. */
  lemma ClassAtMost(t: Table, c: nat)
    requires t.ClassesOk() && c < |t.members|
    ensures |t.members[c]| <= 256
  {
    var bytes := t.members[c];
    assert t.IsClass(bytes, c);
    AscendingBytes(bytes, |bytes| - 1);
  }

  lemma {:induction false} RawEdgesAtMost(t: Table, k: nat)
    requires t.WellFormed() && k <= |t.edges|
    ensures RawEdges(t, k) <= 256 * k
  {
    hide Table.WellFormed, Table.ClassesOk;
    if k > 0 {
      RawEdgesAtMost(t, k - 1);
      WellFormedClasses(t);
      var c := t.edges[k - 1].0;
      if c < |t.members| { ClassAtMost(t, c); }
    }
  }

  lemma WellFormedClasses(t: Table)
    requires t.WellFormed()
    ensures t.ClassesOk()
  {}

  lemma EngineEdgesAtMost(e: RefEngine)
    requires e.Valid()
    ensures RawEdges(e.table, |e.table.edges|) <= 65536 * e.StateCount()
  {
    OffsetAtMost(e.table, e.StateCount());
    RawEdgesAtMost(e.table, |e.table.edges|);
  }

  lemma PairLive(a: RefEngine, b: RefEngine)
    requires a.Valid() && b.Valid()
    ensures a.StateCount() >= 1 && b.StateCount() >= 1
    ensures TotalLive([a, b]) == a.StateCount() + b.StateCount() - 2
  {
    assert [a, b][..1] == [a] && [a][..0] == [];
    assert TotalLive([a]) == a.StateCount() - 1;
  }

  /** Two engines of at most fourteen states together fit the copy caps. */
  lemma SmallPairAdmitted(a: RefEngine, b: RefEngine)
    requires a.Valid() && b.Valid() && a.StateCount() + b.StateCount() <= 14
    ensures Admitted([a, b]) && TotalLive([a, b]) <= 12
  {
    EngineEdgesAtMost(a);
    EngineEdgesAtMost(b);
    PairLive(a, b);
    hide RefEngine.Valid, RawEdges;
    assert [a, b][..1] == [a] && [a][..0] == [];
    assert TotalEdges([a]) == RawEdges(a.table, |a.table.edges|);
    assert TotalEdges([a, b]) == TotalEdges([a]) + RawEdges(b.table, |b.table.edges|);
  }

  ghost predicate CopyAt(states: seq<NfaState>, e: RefEngine, base: nat) {
    && base + e.StateCount() <= |states| + 1
    && forall s :: 1 <= s < e.StateCount() ==> states[base + s - 1] == CopyState(e, s, base)
  }

  /** The copies occupy disjoint ranges, one behind the other from `base0` on. */
  ghost predicate Laid(engines: seq<RefEngine>, bases: seq<nat>, base0: nat, size: nat) {
    && |bases| == |engines|
    && (forall j :: 0 <= j < |engines| ==> engines[j].StateCount() > 0 && base0 <= bases[j])
    && (forall j :: 0 <= j < |engines| ==> bases[j] + LiveCount(engines[j]) <= size)
    && (forall i, j :: 0 <= i < j < |engines| ==> bases[i] + LiveCount(engines[i]) <= bases[j])
  }

  ghost predicate Copied(states: seq<NfaState>, engines: seq<RefEngine>, bases: seq<nat>, base0: nat) {
    && Laid(engines, bases, base0, |states|)
    && forall j :: 0 <= j < |engines| ==> CopyAt(states, engines[j], bases[j])
  }

  ghost predicate Indexed(engines: seq<RefEngine>, bases: seq<nat>, starts: seq<nat>, runs: seq<seq<nat>>) {
    && |engines| == |bases| == |starts| == |runs|
    && (forall j :: 0 <= j < |engines| ==> engines[j].StateCount() > 0 && engines[j].start > 0)
    && (forall j :: 0 <= j < |engines| ==> starts[j] == bases[j] + engines[j].start - 1)
    && (forall j :: 0 <= j < |engines| ==> runs[j] == AcceptIds(engines[j], bases[j], LiveCount(engines[j])))
  }

  lemma StateOkGrows(s: NfaState, n: nat, n': nat)
    requires StateOk(s, n) && n <= n'
    ensures StateOk(s, n')
  {}

  lemma CopyStateOk(e: RefEngine, s: nat, base: nat)
    requires e.Valid() && s < e.StateCount()
    ensures StateOk(CopyState(e, s, base), base + LiveCount(e))
  {
    var edges := CopyEdges(e, s, base, 256);
    forall i | 0 <= i < |edges| ensures edges[i].1 < base + LiveCount(e) {
      CopyEdgesAre(e, s, base, 256, edges[i].0, edges[i].1);
      assert edges[i] in edges;
      e.table.NextInRange(s, edges[i].0);
    }
  }

  lemma AppendOk(states0: seq<NfaState>, e: RefEngine)
    requires e.Valid() && StatesOk(states0)
    ensures StatesOk(states0 + CopyStates(e, |states0|, LiveCount(e)))
    ensures CopyAt(states0 + CopyStates(e, |states0|, LiveCount(e)), e, |states0|)
  {
    hide RefEngine.Valid, CopyState, StateOk;
    StartInRange(e);
    var states := states0 + CopyStates(e, |states0|, LiveCount(e));
    forall q | 0 <= q < |states| ensures StateOk(states[q], |states|) {
      if q < |states0| {
        StateOkGrows(states0[q], |states0|, |states|);
      } else {
        CopyStateOk(e, q - |states0| + 1, |states0|);
      }
    }
  }

  lemma CopyAtGrows(states: seq<NfaState>, states': seq<NfaState>, e: RefEngine, base: nat)
    requires CopyAt(states, e, base) && states <= states'
    ensures CopyAt(states', e, base)
  {}

  lemma CopiedSnoc(states: seq<NfaState>, states': seq<NfaState>, engines: seq<RefEngine>, bases: seq<nat>, base0: nat, e: RefEngine)
    requires Copied(states, engines, bases, base0) && base0 <= |states| && states <= states'
    requires e.StateCount() > 0 && |states'| == |states| + LiveCount(e) && CopyAt(states', e, |states|)
    ensures Copied(states', engines + [e], bases + [|states|], base0)
  {
    hide CopyAt;
    var engines', bases' := engines + [e], bases + [|states|];
    forall j | 0 <= j < |engines'| ensures CopyAt(states', engines'[j], bases'[j]) {
      if j < |engines| { CopyAtGrows(states, states', engines[j], bases[j]); }
    }
    LaidSnoc(engines, bases, base0, e, |states|);
  }

  lemma LaidSnoc(engines: seq<RefEngine>, bases: seq<nat>, base0: nat, e: RefEngine, size: nat)
    requires Laid(engines, bases, base0, size) && base0 <= size && e.StateCount() > 0
    ensures Laid(engines + [e], bases + [size], base0, size + LiveCount(e))
  {}

  lemma TotalLiveSnoc(engines: seq<RefEngine>, i: nat)
    requires i < |engines| && engines[i].StateCount() > 0
    ensures TotalLive(engines[..i + 1]) == TotalLive(engines[..i]) + LiveCount(engines[i])
  {
    assert engines[..i + 1][..i] == engines[..i];
  }

  lemma {:induction false} TotalLivePrefix(engines: seq<RefEngine>, i: nat)
    requires i <= |engines|
    ensures TotalLive(engines[..i]) <= TotalLive(engines)
    decreases |engines| - i
  {
    if i == |engines| {
      assert engines[..i] == engines;
    } else {
      assert engines[..i + 1][..i] == engines[..i];
      TotalLivePrefix(engines, i + 1);
    }
  }

  lemma EngineParts(engines: seq<RefEngine>, i: nat)
    requires Usable(engines) && i < |engines|
    ensures engines[i].Valid() && engines[i].StateCount() > 0 && engines[i].start > 0 && engines[i].start != DEAD
  {}

  lemma CopiedNone(states: seq<NfaState>, base0: nat)
    ensures Copied(states, [], [], base0) && Indexed([], [], [], [])
  {}

  lemma IndexedSnoc(engines: seq<RefEngine>, bases: seq<nat>, starts: seq<nat>, runs: seq<seq<nat>>, e: RefEngine, base: nat)
    requires Indexed(engines, bases, starts, runs) && e.StateCount() > 0 && e.start > 0
    ensures Indexed(engines + [e], bases + [base], starts + [base + e.start - 1],
                    runs + [AcceptIds(e, base, LiveCount(e))])
  {}

  /** Where the copies start when they are laid out one behind the other. */
  ghost function Bases(engines: seq<RefEngine>, base0: nat): (r: seq<nat>)
    ensures |r| == |engines|
  {
    seq(|engines|, j requires 0 <= j < |engines| => base0 + TotalLive(engines[..j]))
  }

  lemma BasesAre(engines: seq<RefEngine>, base0: nat, bases: seq<nat>)
    requires |bases| == |engines| && forall j :: 0 <= j < |engines| ==> bases[j] == base0 + TotalLive(engines[..j])
    ensures bases == Bases(engines, base0)
  {}

  /** Every state behind the first `base0` is a copy. */
  lemma {:induction false} SlotOf(engines: seq<RefEngine>, base0: nat, q: nat) returns (j: nat, s: nat)
    requires forall i :: 0 <= i < |engines| ==> engines[i].StateCount() > 0
    requires base0 <= q < base0 + TotalLive(engines)
    ensures j < |engines| && 1 <= s < engines[j].StateCount() && base0 + TotalLive(engines[..j]) + s - 1 == q
    decreases |engines|
  {
    var k := |engines| - 1;
    if q >= base0 + TotalLive(engines[..k]) {
      j, s := k, q - (base0 + TotalLive(engines[..k])) + 1;
    } else {
      j, s := SlotOf(engines[..k], base0, q);
      assert engines[..k][..j] == engines[..j];
    }
  }

  /** A chain laid out without gaps determines its NFA. */
  lemma ChainDetermines(c: Chain, n: ByteNfa, n': ByteNfa, base0: nat)
    requires c.In(n) && c.In(n') && c.bases == Bases(c.engines, base0) && n.start == n'.start
    requires |n.states| == |n'.states| == base0 + TotalLive(c.engines)
    requires forall q :: 0 <= q < base0 ==> n.states[q] == n'.states[q]
    ensures n == n'
  {
    hide RefEngine.Valid, CopyState, Linked;
    assert forall i :: 0 <= i < |c.engines| ==> c.engines[i].Valid();
    ChainSizes(c);
    forall q | 0 <= q < |n.states| ensures n.states[q] == n'.states[q] {
      if q >= base0 {
        var j, s := SlotOf(c.engines, base0, q);
        assert c.HasCopy(n, j, s) && c.HasCopy(n', j, s);
      }
    }
  }

  lemma ChainSizes(c: Chain)
    requires c.Ok()
    ensures forall i :: 0 <= i < |c.engines| ==> c.engines[i].StateCount() > 0
  {}

  /** The copying loop of the three operations. */
  method CopyEngines(hub: seq<NfaState>, engines: seq<RefEngine>)
    returns (ok: bool, states: seq<NfaState>, starts: seq<nat>, runs: seq<seq<nat>>, ghost bases: seq<nat>)
    requires Usable(engines) && StatesOk(hub) && |hub| <= MAX_GRAPH_STATES
    ensures ok <==> |hub| + TotalLive(engines) <= MAX_GRAPH_STATES
    ensures ok ==> hub <= states && StatesOk(states)
    ensures ok ==> Copied(states, engines, bases, |hub|) && Indexed(engines, bases, starts, runs)
    ensures ok ==> bases == Bases(engines, |hub|) && |states| == |hub| + TotalLive(engines)
  {
    hide *;
    states, starts, runs, bases := hub, [], [], [];
    CopiedNone(states, |hub|);
    TotalLiveNone(engines);
    for i := 0 to |engines|
      invariant hub <= states && StatesOk(states)
      invariant |states| == |hub| + TotalLive(engines[..i]) <= MAX_GRAPH_STATES
      invariant Copied(states, engines[..i], bases, |hub|) && Indexed(engines[..i], bases, starts, runs)
      invariant |bases| == i && forall j :: 0 <= j < i ==> bases[j] == |hub| + TotalLive(engines[..j])
    {
      var e := engines[i];
      EngineParts(engines, i);
      TotalLiveSnoc(engines, i);
      TotalLivePrefix(engines, i + 1);
      ghost var before := states;
      var fits, grown, start, run := AppendEngine(states, e);
      if !fits { return false, states, starts, runs, bases; }
      AppendOk(before, e);
      CopySize(e, |before|);
      CopiedSnoc(before, grown, engines[..i], bases, |hub|, e);
      IndexedSnoc(engines[..i], bases, starts, runs, e, |before|);
      assert engines[..i + 1] == engines[..i] + [e];
      states, starts, runs, bases := grown, starts + [start], runs + [run], bases + [|before|];
    }
    assert engines[..|engines|] == engines;
    BasesAre(engines, |hub|, bases);
    ok := true;
  }

  lemma CopySize(e: RefEngine, base: nat)
    requires e.StateCount() > 0
    ensures |CopyStates(e, base, LiveCount(e))| == LiveCount(e)
  {}

  lemma TotalLiveNone(engines: seq<RefEngine>)
    ensures engines[..0] == [] && TotalLive([]) == 0
  {}

  // --- linking ----------------------------------------------------------------------------------------------

  ghost predicate CopyLinked(n: ByteNfa, c: Chain, j: nat)
    requires c.Ok() && j < |c.engines|
  {
    forall s :: 1 <= s < c.engines[j].StateCount() ==> c.HasCopy(n, j, s)
  }

  /** Copies before `k` are linked, the others are plain. */
  ghost predicate LinkedUpTo(states: seq<NfaState>, c: Chain, k: nat)
    requires c.Ok() && k <= |c.engines|
  {
    && (forall j :: 0 <= j < k ==> CopyLinked(ByteNfa(states, 0), c, j))
    && (forall j :: k <= j < |c.engines| ==> CopyAt(states, c.engines[j], c.bases[j]))
  }

  lemma LinkOne(states: seq<NfaState>, states': seq<NfaState>, c: Chain, base0: nat, k: nat, ids: seq<nat>)
    requires c.Ok() && k < |c.engines| && LinkedUpTo(states, c, k) && Laid(c.engines, c.bases, base0, |states|)
    requires ids == AcceptIds(c.engines[k], c.bases[k], LiveCount(c.engines[k]))
    requires |states'| == |states|
    requires forall q: nat :: q < |states| ==>
               states'[q] == if q in ids then Linked(states[q], c.NextId(k), c.flag[k]) else states[q]
    ensures LinkedUpTo(states', c, k + 1)
  {
    hide RefEngine.Valid, CopyState, Linked;
    var n, n' := ByteNfa(states, 0), ByteNfa(states', 0);
    forall j, s | 0 <= j <= k && 1 <= s < c.engines[j].StateCount() ensures c.HasCopy(n', j, s) {
      if j == k {
        assert CopyAt(states, c.engines[k], c.bases[k]);
      } else {
        assert CopyLinked(n, c, j);
        assert c.HasCopy(n, j, s);
      }
    }
    forall j | k < j < |c.engines| ensures CopyAt(states', c.engines[j], c.bases[j]) {
      assert CopyAt(states, c.engines[j], c.bases[j]);
    }
  }

  lemma LinkedIsIn(states: seq<NfaState>, start: nat, c: Chain)
    requires c.Ok() && LinkedUpTo(states, c, |c.engines|)
    ensures c.In(ByteNfa(states, start))
  {
    forall j, s | 0 <= j < |c.engines| && 1 <= s < c.engines[j].StateCount()
      ensures c.HasCopy(ByteNfa(states, start), j, s)
    {
      assert CopyLinked(ByteNfa(states, 0), c, j);
      assert c.HasCopy(ByteNfa(states, 0), j, s);
    }
  }

  /** A copy without a successor whose accepting states accept needs no linking. */
  lemma PlainIsLinked(states: seq<NfaState>, c: Chain, k: nat)
    requires c.Ok() && k < |c.engines| && LinkedUpTo(states, c, k) && c.next[k] == None && c.flag[k]
    ensures LinkedUpTo(states, c, k + 1)
  {
    hide RefEngine.Valid;
    forall s | 1 <= s < c.engines[k].StateCount() ensures c.HasCopy(ByteNfa(states, 0), k, s) {
      assert CopyAt(states, c.engines[k], c.bases[k]);
      var copy := CopyState(c.engines[k], s, c.bases[k]);
      assert c.bases[k] + s - 1 < |states| && states[c.bases[k] + s - 1] == copy;
      assert c.StateOf(k, s) == copy;
    }
  }

  lemma LinkedOk(s: NfaState, next: Option<nat>, flag: bool, n: nat)
    requires StateOk(s, n) && (next.Some? ==> next.value < n)
    ensures StateOk(Linked(s, next, flag), n)
  {}

  lemma StatesLinked(states: seq<NfaState>, states': seq<NfaState>, ids: seq<nat>, next: Option<nat>, flag: bool)
    requires StatesOk(states) && |states'| == |states| && (next.Some? ==> next.value < |states|)
    requires forall q: nat :: q < |states| ==>
               states'[q] == if q in ids then Linked(states[q], next, flag) else states[q]
    ensures StatesOk(states')
  {
    hide StateOk, Linked;
    forall q | 0 <= q < |states'| ensures StateOk(states'[q], |states'|) {
      LinkedOk(states[q], next, flag, |states|);
    }
  }

  /** Links the accepting states of one copy; the states before the copies are untouched. */
  method LinkCopy(states0: seq<NfaState>, ids: seq<nat>, next: Option<nat>, flag: bool,
                  ghost c: Chain, ghost k: nat, ghost base0: nat)
    returns (states: seq<NfaState>)
    requires c.Ok() && k < |c.engines| && LinkedUpTo(states0, c, k) && StatesOk(states0)
    requires Laid(c.engines, c.bases, base0, |states0|)
    requires ids == AcceptIds(c.engines[k], c.bases[k], LiveCount(c.engines[k]))
    requires next == c.NextId(k) && flag == c.flag[k] && (next.Some? ==> next.value < |states0|)
    ensures |states| == |states0| && StatesOk(states) && LinkedUpTo(states, c, k + 1)
    ensures forall q: nat :: q < base0 && q < |states| ==> states[q] == states0[q]
  {
    hide RefEngine.Valid, StatesOk, LinkedUpTo, Linked, StateOk;
    AcceptIdsDistinct(c.engines[k], c.bases[k], LiveCount(c.engines[k]));
    forall i | 0 <= i < |ids| ensures ids[i] < |states0| && ids[i] >= base0 { assert ids[i] in ids; }
    states := LinkRun(states0, ids, next, flag);
    StatesLinked(states0, states, ids, next, flag);
    LinkOne(states0, states, c, base0, k, ids);
  }

  // --- concatenation --------------------------------------------------------------------------------------

  ghost function Langs(engines: seq<RefEngine>): (ls: seq<Lang>)
    ensures |ls| == |engines|
  {
    seq(|engines|, i requires 0 <= i < |engines| => engines[i].Language())
  }

  function OneStateGraph(accepting: bool): seq<ByteState> {
    [ByteState(accepting, [])]
  }

  lemma OneStateLanguage(accepting: bool)
    ensures Admissible(OneStateGraph(accepting), 0)
    ensures StatesLanguage(OneStateGraph(accepting), 0) == if accepting then EPSILON else NOTHING
  {
    assert FlatEdges(OneStateGraph(accepting)) == [] by {
      FlatSnoc([], ByteState(accepting, []));
      assert [] + OneStateGraph(accepting) == OneStateGraph(accepting);
    }
    forall w: Word ensures Accepts(OneStateGraph(accepting), 0, w) <==> (accepting && w == []) {}
  }

  method SingleState(accepting: bool) returns (r: Result<AutomatonGraph>)
    ensures r.Ok? && Validated(r.value) && |r.value.states| == 1 && !Materialize.Crowded(r.value)
    ensures r.Ok? && GraphLanguage(r.value) == if accepting then EPSILON else NOTHING
  {
    OneStateLanguage(accepting);
    r := FromByteStates(OneStateGraph(accepting), 0);
    Materialize.SmallGraph(r.value);
  }

  ghost function ConcatNext(m: nat): seq<Option<nat>> {
    seq(m, j => if j + 1 < m then Some(j + 1) else None)
  }

  ghost function ConcatFlags(m: nat): seq<bool> {
    seq(m, j => j + 1 == m)
  }

  ghost function ConcatChain(engines: seq<RefEngine>, bases: seq<nat>): Chain {
    Chain(engines, bases, ConcatNext(|engines|), ConcatFlags(|engines|))
  }

  /** The NFA the concatenation builds: there is at most one. */
  ghost predicate ConcatShape(n: ByteNfa, engines: seq<RefEngine>) {
    NfaOk(n) && |n.states| == TotalLive(engines) && ConcatLaid(n, engines, Bases(engines, 0))
  }

  lemma ConcatShapeUnique(n: ByteNfa, n': ByteNfa, engines: seq<RefEngine>)
    requires ConcatShape(n, engines) && ConcatShape(n', engines)
    ensures n == n'
  {
    hide NfaOk, Chain.In, TotalLive;
    ChainDetermines(ConcatChain(engines, Bases(engines, 0)), n, n', 0);
  }

  ghost predicate ConcatLaid(n: ByteNfa, engines: seq<RefEngine>, bases: seq<nat>) {
    && engines != [] && |bases| == |engines|
    && ConcatChain(engines, bases).Ok() && ConcatChain(engines, bases).In(n)
    && n.start == ConcatChain(engines, bases).StartId(0)
  }

  lemma {:induction false} ConcatAfter(c: Chain, j: nat, m: nat)
    requires c.Ok() && j < |c.engines| && c == ConcatChain(c.engines, c.bases)
    ensures c.After(j, m) == if m + j + 1 == |c.engines| then CatAll(Langs(c.engines)[j + 1..]) else NOTHING
    decreases m
  {
    hide RefEngine.Valid, RefEngine.Language;
    if m > 0 && j + 1 < |c.engines| {
      ConcatAfter(c, j + 1, m - 1);
      var rest := Langs(c.engines)[j + 1..];
      assert rest[0] == c.engines[j + 1].Language() && rest[1..] == Langs(c.engines)[j + 2..];
      if m + j + 1 != |c.engines| { CatNothing(c.engines[j + 1].Language()); }
    }
  }

  lemma ConcatLanguage(n: ByteNfa, engines: seq<RefEngine>, bases: seq<nat>)
    requires ConcatLaid(n, engines, bases)
    ensures NfaLanguage(n) == CatAll(Langs(engines))
  {
    hide RefEngine.Valid, RefEngine.Language;
    var c := ConcatChain(engines, bases);
    var ls := Langs(engines);
    forall w: Word ensures NfaAccepts(View(n), n.start, w) <==> w in CatAll(ls) {
      ChainAccepts(c, n, 0, w);
      forall m: nat ensures c.After(0, m) == if m + 1 == |engines| then CatAll(ls[1..]) else NOTHING {
        ConcatAfter(c, 0, m);
      }
      LanguageIsFrom(engines[0]);
      CatNothing(ls[0]);
      assert w in CatAll(ls) ==> c.TailFrom(0, engines[0].start, |engines| - 1, w);
    }
  }

  lemma LanguageIsFrom(e: RefEngine)
    ensures e.Language() == e.table.From(e.start)
  {}

  lemma {:induction false} CatAllDead(engines: seq<RefEngine>, i: nat)
    requires i < |engines| && engines[i].Valid() && engines[i].start == DEAD
    ensures CatAll(Langs(engines)) == NOTHING
    decreases |engines|
  {
    hide RefEngine.Valid;
    var ls := Langs(engines);
    assert ls[1..] == Langs(engines[1..]);
    if i == 0 {
      DeadStart(engines[0]);
      CatNothing(CatAll(ls[1..]));
    } else {
      CatAllDead(engines[1..], i - 1);
      CatNothing(ls[0]);
    }
  }

  lemma DeadStart(e: RefEngine)
    requires e.Valid() && e.start == DEAD
    ensures e.Language() == NOTHING
  {
    DeadIffEmpty(e, DEAD);
  }

  method LinkConcat(states0: seq<NfaState>, starts: seq<nat>, runs: seq<seq<nat>>, ghost engines: seq<RefEngine>, ghost bases: seq<nat>)
    returns (states: seq<NfaState>)
    requires engines != [] && Usable(engines) && StatesOk(states0)
    requires Copied(states0, engines, bases, 0) && Indexed(engines, bases, starts, runs)
    ensures StatesOk(states) && |states| == |states0|
    ensures ConcatLaid(ByteNfa(states, starts[0]), engines, bases)
  {
    hide *;
    ghost var c := ConcatChain(engines, bases);
    states := states0;
    ConcatStart(states0, engines, bases, starts, runs);
    for index := 0 to |starts| - 1
      invariant |states| == |states0| && StatesOk(states) && Laid(engines, bases, 0, |states|)
      invariant c.Ok() && |starts| == |runs| == |c.engines| && LinkedUpTo(states, c, index)
    {
      ConcatLink(|states|, engines, bases, starts, runs, index);
      states := LinkCopy(states, runs[index], Some(starts[index + 1]), false, c, index, 0);
    }
    ConcatFinish(states, engines, bases, starts);
  }

  lemma ConcatStart(states: seq<NfaState>, engines: seq<RefEngine>, bases: seq<nat>, starts: seq<nat>, runs: seq<seq<nat>>)
    requires engines != [] && Usable(engines) && Copied(states, engines, bases, 0) && Indexed(engines, bases, starts, runs)
    ensures ConcatChain(engines, bases).Ok() && LinkedUpTo(states, ConcatChain(engines, bases), 0)
    ensures |starts| == |runs| == |bases| == |engines| > 0 && |ConcatChain(engines, bases).engines| == |engines|
    ensures Laid(engines, bases, 0, |states|) && starts[0] == bases[0] + engines[0].start - 1
  {}

  lemma ConcatLink(size: nat, engines: seq<RefEngine>, bases: seq<nat>, starts: seq<nat>, runs: seq<seq<nat>>, k: nat)
    requires Usable(engines) && Laid(engines, bases, 0, size) && Indexed(engines, bases, starts, runs) && k + 1 < |engines|
    requires ConcatChain(engines, bases).Ok()
    ensures var c := ConcatChain(engines, bases);
            && Laid(c.engines, c.bases, 0, size)
            && c.NextId(k) == Some(starts[k + 1]) && c.flag[k] == false && starts[k + 1] < size
            && c.engines[k].StateCount() > 0 && runs[k] == AcceptIds(c.engines[k], c.bases[k], LiveCount(c.engines[k]))
  {
    StartInRange(engines[k + 1]);
  }

  lemma ConcatFinish(states: seq<NfaState>, engines: seq<RefEngine>, bases: seq<nat>, starts: seq<nat>)
    requires engines != [] && |starts| == |engines| == |bases| && ConcatChain(engines, bases).Ok()
    requires starts[0] == bases[0] + engines[0].start - 1
    requires LinkedUpTo(states, ConcatChain(engines, bases), |engines| - 1)
    ensures ConcatLaid(ByteNfa(states, starts[0]), engines, bases)
  {
    hide RefEngine.Valid, LinkedUpTo;
    var c := ConcatChain(engines, bases);
    PlainIsLinked(states, c, |engines| - 1);
    LinkedIsIn(states, starts[0], c);
  }

  /** Why a concatenation is refused: no operand is dead, and the copies do not fit or their subset automaton
      exceeds the graph caps. */
  ghost predicate ConcatRefused(engines: seq<RefEngine>) {
    engines != [] && Usable(engines) &&
    (!Admitted(engines) || exists n :: ConcatShape(n, engines) && TooManySubsets(n))
  }

  /** A concatenation that is built has too many cells: those of its subset automaton. */
  ghost predicate ConcatCrowded(engines: seq<RefEngine>) {
    engines != [] && Usable(engines) && exists n :: ConcatShape(n, engines) && TooManyCells(n)
  }

  lemma ConcatBuilt(n: ByteNfa, engines: seq<RefEngine>)
    requires ConcatShape(n, engines) && Admitted(engines) && Usable(engines) && engines != []
    ensures ConcatRefused(engines) <==> TooManySubsets(n)
    ensures ConcatCrowded(engines) <==> TooManyCells(n)
  {
    hide TooManyCells, TooManySubsets, ConcatShape, Admitted, Usable;
    forall m | ConcatShape(m, engines) ensures m == n { ConcatShapeUnique(m, n, engines); }
  }

  /** `concatenate`: exactly L1 L2 ... Ln, also with empty or dead operands, refused exactly past the caps. */
  method Concatenate(engines: seq<RefEngine>) returns (r: Result<AutomatonGraph>)
    requires forall j :: 0 <= j < |engines| ==> engines[j].Valid()
    ensures r.Ok? ==> Validated(r.value) && GraphLanguage(r.value) == CatAll(Langs(engines))
    ensures r.Err? ==> r.error == LimitExceeded
    ensures r.Err? <==> ConcatRefused(engines)
    ensures r.Ok? ==> |r.value.states| <= Bits.Pow2(TotalLive(engines)) && |r.value.states| <= MAX_GRAPH_STATES
    ensures r.Ok? ==> (Materialize.Crowded(r.value) <==> ConcatCrowded(engines))
  {
    hide Materialize.Crowded, TooManyCells, RefEngine.Valid, Validated, TooManySubsets, StatesOk, Copied, ConcatLaid,
         StateOk, Admitted, TotalLive, NfaOk;
    if engines == [] {
      r := SingleState(true);
      return;
    }
    if i :| 0 <= i < |engines| && engines[i].start == DEAD {
      CatAllDead(engines, i);
      r := SingleState(false);
      return;
    }
    var admitted := AdmitEngineCopies(engines);
    if !admitted { return Err(LimitExceeded); }
    NoStatesOk();
    AdmittedTotal(engines);
    var ok, states, starts, runs, bases := CopyEngines([], engines);
    var linked := LinkConcat(states, starts, runs, engines, bases);
    var n := ByteNfa(linked, starts[0]);
    ConcatNfaOk(n, engines, bases);
    ConcatLanguage(n, engines, bases);
    ConcatBuilt(n, engines);
    r := Determinize(n);
  }

  /** A concatenation of small operands is never refused. */
  lemma SmallConcatFits(a: RefEngine, b: RefEngine)
    requires a.Valid() && b.Valid() && a.StateCount() + b.StateCount() <= 14
    ensures !ConcatRefused([a, b])
  {
    hide RefEngine.Valid, TooManySubsets, ConcatLaid, Usable, Admitted, TotalLive;
    SmallPairAdmitted(a, b);
    forall n | ConcatShape(n, [a, b]) ensures !TooManySubsets(n) { SmallNfaFits(n); }
  }

  lemma NoStatesOk()
    ensures StatesOk([])
  {}

  lemma ConcatNfaOk(n: ByteNfa, engines: seq<RefEngine>, bases: seq<nat>)
    requires StatesOk(n.states) && ConcatLaid(n, engines, bases)
    ensures NfaOk(n)
  {
    var c := ConcatChain(engines, bases);
    assert c.HasCopy(n, 0, engines[0].start);
  }

  // --- union ------------------------------------------------------------------------------------------------

  ghost function UnionChain(engines: seq<RefEngine>, bases: seq<nat>): Chain {
    Chain(engines, bases, seq(|engines|, _ => None), seq(|engines|, _ => true))
  }

  ghost predicate HubLaid(n: ByteNfa, targets: seq<nat>, accepting: bool) {
    n.start == 0 && |n.states| > 0 && n.states[0] == NfaState([], targets, accepting)
  }

  ghost predicate UnionLaid(n: ByteNfa, engines: seq<RefEngine>, bases: seq<nat>) {
    && |bases| == |engines|
    && UnionChain(engines, bases).Ok() && UnionChain(engines, bases).In(n)
    && HubLaid(n, StartIds(engines, bases), false)
  }

  ghost function StartIds(engines: seq<RefEngine>, bases: seq<nat>): (r: seq<nat>)
    requires |bases| == |engines| && forall j :: 0 <= j < |engines| ==> engines[j].start > 0
    ensures |r| == |engines|
  {
    seq(|engines|, j requires 0 <= j < |engines| => bases[j] + engines[j].start - 1)
  }

  /** The NFA the union builds from the engines that accept anything. */
  ghost predicate UnionShape(n: ByteNfa, engines: seq<RefEngine>) {
    && NfaOk(n) && |n.states| == 1 + TotalLive(Alive(engines))
    && UnionLaid(n, Alive(engines), Bases(Alive(engines), 1))
  }

  lemma UnionShapeUnique(n: ByteNfa, n': ByteNfa, engines: seq<RefEngine>)
    requires UnionShape(n, engines) && UnionShape(n', engines)
    ensures n == n'
  {
    hide NfaOk, Chain.In, TotalLive, Alive;
    ChainDetermines(UnionChain(Alive(engines), Bases(Alive(engines), 1)), n, n', 1);
  }

  function Alive(engines: seq<RefEngine>): seq<RefEngine>
    decreases |engines|
  {
    if engines == [] then []
    else
      var k := |engines| - 1;
      if engines[k].start == DEAD then Alive(engines[..k]) else Alive(engines[..k]) + [engines[k]]
  }

  /** Only the hub's silent moves leave it. */
  lemma HubAccepts(n: ByteNfa, targets: seq<nat>, accepting: bool, w: Word)
    requires HubLaid(n, targets, accepting)
    ensures NfaAccepts(View(n), 0, w) <==>
            (accepting && w == []) || exists p :: p in targets && NfaAccepts(View(n), p, w)
  {
    var v := View(n);
    if NfaAccepts(v, 0, w) {
      var q :| Reaches(v, 0, w, q) && v.acc(q);
      var k: nat :| Run(v, 0, w, q, k);
      if k > 0 {
        forall b, m ensures !v.step(0, b, m) { assert !StepOf(n, 0, b, m); }
        var p := FirstSilent(v, 0, w, q, k);
        assert p in targets && NfaAccepts(v, p, w);
      }
    }
    if accepting && w == [] { AcceptsEmpty(v, 0); }
    if p :| p in targets && NfaAccepts(v, p, w) {
      assert v.eps(0, p);
      AcceptsSilent(v, 0, p, w);
    }
  }

  lemma UnionTail(c: Chain, j: nat, w: Word)
    requires c.Ok() && j < |c.engines| && c == UnionChain(c.engines, c.bases)
    ensures c.Tail(j, c.engines[j].start, w) <==> w in c.engines[j].Language()
  {
    hide RefEngine.Valid;
    var l := c.engines[j].Language();
    LanguageIsFrom(c.engines[j]);
    CatUnit(l);
    CatNothing(l);
    forall m: nat ensures c.TailFrom(j, c.engines[j].start, m, w) <==> m == 0 && w in l {}
    assert c.TailFrom(j, c.engines[j].start, 0, w) <==> w in l;
  }

  lemma UnionLanguage(n: ByteNfa, engines: seq<RefEngine>, bases: seq<nat>)
    requires UnionLaid(n, engines, bases)
    ensures NfaLanguage(n) == UnionAll(Langs(engines))
  {
    hide RefEngine.Valid, RefEngine.Language, View, NfaAccepts, Chain.Tail;
    var c := UnionChain(engines, bases);
    var ids := StartIds(engines, bases);
    forall w: Word ensures NfaAccepts(View(n), 0, w) <==> InUnion(Langs(engines), w) {
      HubAccepts(n, ids, false, w);
      forall j: nat | j < |engines| ensures NfaAccepts(View(n), ids[j], w) <==> w in Langs(engines)[j] {
        ChainAccepts(c, n, j, w);
        UnionTail(c, j, w);
      }
      if InUnion(Langs(engines), w) {
        var j: nat :| InSome(Langs(engines), j, w);
        assert ids[j] in ids;
      }
      if p :| p in ids && NfaAccepts(View(n), p, w) {
        var j :| 0 <= j < |ids| && ids[j] == p;
        assert InSome(Langs(engines), j, w);
      }
    }
  }

  lemma {:induction false} UnionIgnoresDead(engines: seq<RefEngine>)
    requires forall j :: 0 <= j < |engines| ==> engines[j].Valid()
    ensures UnionAll(Langs(Alive(engines))) == UnionAll(Langs(engines))
    decreases |engines|
  {
    hide RefEngine.Valid, RefEngine.Language;
    if engines != [] {
      var k := |engines| - 1;
      UnionIgnoresDead(engines[..k]);
      UnionSnoc(engines[..k], engines[k]);
      UnionSnoc(Alive(engines[..k]), engines[k]);
      assert engines == engines[..k] + [engines[k]];
      if engines[k].start == DEAD { DeadStart(engines[k]); }
    }
  }

  lemma UnionSnoc(engines: seq<RefEngine>, e: RefEngine)
    ensures UnionAll(Langs(engines + [e])) == UnionAll(Langs(engines)) + e.Language()
  {
    hide RefEngine.Language;
    var ls, ls' := Langs(engines), Langs(engines + [e]);
    forall w: Word ensures InUnion(ls', w) <==> InUnion(ls, w) || w in e.Language() {
      if InUnion(ls, w) {
        var i: nat :| InSome(ls, i, w);
        assert InSome(ls', i, w);
      }
      if w in e.Language() { assert InSome(ls', |engines|, w); }
      if InUnion(ls', w) {
        var i: nat :| InSome(ls', i, w);
        if i < |engines| { assert InSome(ls, i, w); }
      }
    }
  }

  lemma {:induction false} AliveUsable(engines: seq<RefEngine>)
    requires forall j :: 0 <= j < |engines| ==> engines[j].Valid()
    ensures Usable(Alive(engines)) && |Alive(engines)| <= |engines|
    decreases |engines|
  {
    hide RefEngine.Valid;
    if engines != [] { AliveUsable(engines[..|engines| - 1]); }
  }

  lemma UnionLinked(states: seq<NfaState>, engines: seq<RefEngine>, bases: seq<nat>, starts: seq<nat>, runs: seq<seq<nat>>)
    requires Usable(engines) && StatesOk(states) && |states| > 0 && states[0] == NfaState([], [], false)
    requires Copied(states, engines, bases, 1) && Indexed(engines, bases, starts, runs)
    ensures var n := ByteNfa(states[0 := NfaState([], starts, false)], 0);
            UnionLaid(n, engines, bases) && NfaOk(n)
  {
    hide RefEngine.Valid, CopyState, StateOk;
    var hub := states[0 := NfaState([], starts, false)];
    var c := UnionChain(engines, bases);
    forall j, s | 0 <= j < |engines| && 1 <= s < engines[j].StateCount() ensures c.HasCopy(ByteNfa(hub, 0), j, s) {
      assert CopyAt(states, engines[j], bases[j]);
      UnionCopy(hub, c, j, s);
    }
    forall j | 0 <= j < |engines| ensures starts[j] < |states| { StartInRange(engines[j]); }
    assert StartIds(engines, bases) == starts;
    forall q | 0 <= q < |hub| ensures StateOk(hub[q], |hub|) {
      if q == 0 { HubStarts(starts, |hub|); } else { assert hub[q] == states[q]; }
    }
  }

  lemma HubStarts(starts: seq<nat>, n: nat)
    requires forall j :: 0 <= j < |starts| ==> starts[j] < n
    ensures StateOk(NfaState([], starts, false), n)
  {}

  lemma UnionCopy(states: seq<NfaState>, c: Chain, j: nat, s: nat)
    requires c.Ok() && j < |c.engines| && c == UnionChain(c.engines, c.bases) && 1 <= s < c.engines[j].StateCount()
    requires c.bases[j] + s - 1 < |states| && states[c.bases[j] + s - 1] == CopyState(c.engines[j], s, c.bases[j])
    ensures c.HasCopy(ByteNfa(states, 0), j, s)
  {
    hide RefEngine.Valid;
    assert c.StateOf(j, s) == CopyState(c.engines[j], s, c.bases[j]);
  }

  /** The copying loop of the union, which passes over dead operands. */
  method CopyAlive(engines: seq<RefEngine>) returns (alive: seq<RefEngine>)
    ensures alive == Alive(engines)
  {
    alive := [];
    for i := 0 to |engines|
      invariant alive == Alive(engines[..i])
    {
      assert engines[..i + 1][..i] == engines[..i];
      if engines[i].start != DEAD { alive := alive + [engines[i]]; }
    }
    assert engines[..|engines|] == engines;
  }

  lemma HubOk(accepting: bool)
    ensures StatesOk([NfaState([], [], accepting)])
  {}

  /** Why a union is refused: the operands do not fit, the live ones leave no room for the hub, or their subset
      automaton exceeds the graph caps. */
  ghost predicate UnionRefused(engines: seq<RefEngine>) {
    engines != [] &&
    (!Admitted(engines) || TotalLive(Alive(engines)) == MAX_GRAPH_STATES
     || exists n :: UnionShape(n, engines) && TooManySubsets(n))
  }

  ghost predicate UnionCrowded(engines: seq<RefEngine>) {
    engines != [] && exists n :: UnionShape(n, engines) && TooManyCells(n)
  }

  lemma UnionBuilt(n: ByteNfa, engines: seq<RefEngine>)
    requires UnionShape(n, engines) && Admitted(engines) && TotalLive(Alive(engines)) < MAX_GRAPH_STATES && engines != []
    ensures UnionRefused(engines) <==> TooManySubsets(n)
    ensures UnionCrowded(engines) <==> TooManyCells(n)
  {
    hide TooManyCells, TooManySubsets, UnionShape, Admitted, TotalLive, Alive;
    forall m | UnionShape(m, engines) ensures m == n { UnionShapeUnique(m, n, engines); }
  }

  /** `union`: exactly the union of the operands, refused exactly past the caps. */
  method Union(engines: seq<RefEngine>) returns (r: Result<AutomatonGraph>)
    requires forall j :: 0 <= j < |engines| ==> engines[j].Valid()
    ensures r.Ok? ==> Validated(r.value) && GraphLanguage(r.value) == UnionAll(Langs(engines))
    ensures r.Err? ==> r.error == LimitExceeded
    ensures r.Err? <==> UnionRefused(engines)
    ensures r.Ok? ==> |r.value.states| <= MAX_GRAPH_STATES && (Materialize.Crowded(r.value) <==> UnionCrowded(engines))
  {
    hide Materialize.Crowded, TooManyCells, RefEngine.Valid, Validated, TooManySubsets, StatesOk, Copied, UnionLaid,
         StateOk, NfaOk, Alive, Indexed, Admitted, GraphLanguage, NfaLanguage, UnionAll, Langs, TotalLive;
    if engines == [] {
      r := SingleState(false);
      UnionOfNone(engines);
      return;
    }
    var admitted := AdmitEngineCopies(engines);
    if !admitted { return Err(LimitExceeded); }
    AdmittedTotal(engines);
    var alive := CopyAlive(engines);
    AliveUsable(engines);
    AliveLive(engines);
    HubOk(false);
    var ok, states, starts, runs, bases := CopyEngines([NfaState([], [], false)], alive);
    if !ok { return Err(LimitExceeded); }
    var n := ByteNfa(states[0 := NfaState([], starts, false)], 0);
    UnionLinked(states, alive, bases, starts, runs);
    UnionLanguage(n, alive, bases);
    UnionIgnoresDead(engines);
    UnionBuilt(n, engines);
    r := Determinize(n);
  }

  lemma UnionOfNone(engines: seq<RefEngine>)
    requires engines == []
    ensures UnionAll(Langs(engines)) == NOTHING
  {}

  lemma {:induction false} AliveLive(engines: seq<RefEngine>)
    ensures TotalLive(Alive(engines)) <= TotalLive(engines)
    decreases |engines|
  {
    if engines != [] {
      var k := |engines| - 1;
      AliveLive(engines[..k]);
      var alive := Alive(engines[..k]) + [engines[k]];
      assert alive[..|alive| - 1] == Alive(engines[..k]);
    }
  }

  // --- repetition -------------------------------------------------------------------------------------------

  /** After `j + 1` repetitions a run may stop or go on; the last copy loops when there is no upper bound. */
  ghost function RepeatNext(copies: nat, max: Option<nat>): seq<Option<nat>> {
    seq(copies, j requires 0 <= j < copies => if j + 1 < copies then Some(j + 1) else if max.None? then Some(copies - 1) else None)
  }

  ghost function RepeatFlags(copies: nat, min: nat): seq<bool> {
    seq(copies, j requires 0 <= j < copies => j + 1 >= min)
  }

  ghost function RepeatChain(e: RefEngine, bases: seq<nat>, min: nat, max: Option<nat>): Chain {
    Chain(seq(|bases|, _ => e), bases, RepeatNext(|bases|, max), RepeatFlags(|bases|, min))
  }

  /** The number of copies: the maximum, or one more than the minimum. */
  function Copies(min: nat, max: Option<nat>): nat {
    var c := if max.Some? then max.value else if min + 1 > U32_MAX then U32_MAX else min + 1;
    if c < 1 then 1 else c
  }

  ghost predicate RepeatLaid(n: ByteNfa, e: RefEngine, bases: seq<nat>, min: nat, max: Option<nat>) {
    && |bases| == Copies(min, max)
    && RepeatChain(e, bases, min, max).Ok() && RepeatChain(e, bases, min, max).In(n)
    && HubLaid(n, [RepeatChain(e, bases, min, max).StartId(0)], min == 0)
  }

  /** The NFA the repetition builds. */
  ghost predicate RepeatShape(n: ByteNfa, e: RefEngine, min: nat, max: Option<nat>) {
    var engines := seq(Copies(min, max), _ => e);
    NfaOk(n) && |n.states| == 1 + TotalLive(engines) && RepeatLaid(n, e, Bases(engines, 1), min, max)
  }

  lemma RepeatShapeUnique(n: ByteNfa, n': ByteNfa, e: RefEngine, min: nat, max: Option<nat>)
    requires RepeatShape(n, e, min, max) && RepeatShape(n', e, min, max)
    ensures n == n'
  {
    hide NfaOk, Chain.In, TotalLive;
    var engines := seq(Copies(min, max), _ => e);
    var c := RepeatChain(e, Bases(engines, 1), min, max);
    assert c.engines == engines;
    ChainDetermines(c, n, n', 1);
  }

  /** Passing `m` more copies after the `j`-th reads exactly `m` more words, and may stop when the total is
      within bounds. Looping in the last copy stands for all further repetitions. */
  lemma {:induction false} RepeatAfter(e: RefEngine, bases: seq<nat>, min: nat, max: Option<nat>, j: nat, m: nat)
    requires min <= U32_MAX - 1 && (max.Some? ==> min <= max.value && max.value > 0)
    requires |bases| == Copies(min, max) && RepeatChain(e, bases, min, max).Ok() && j < |bases|
    ensures RepeatChain(e, bases, min, max).After(j, m) ==
            if Within(j + m + 1, min, max) then Power(e.Language(), m) else NOTHING
    decreases m
  {
    hide RefEngine.Valid, RefEngine.Language;
    var c := RepeatChain(e, bases, min, max);
    if m > 0 && c.next[j].Some? {
      var i := c.next[j].value;
      RepeatAfter(e, bases, min, max, i, m - 1);
      CatNothing(e.Language());
    }
  }

  lemma RepeatTail(e: RefEngine, bases: seq<nat>, min: nat, max: Option<nat>, w: Word)
    requires min <= U32_MAX - 1 && (max.Some? ==> min <= max.value && max.value > 0)
    requires |bases| == Copies(min, max) && RepeatChain(e, bases, min, max).Ok()
    ensures RepeatChain(e, bases, min, max).Tail(0, e.start, w) || (min == 0 && w == [])
            <==> w in Repeated(e.Language(), min, max)
  {
    hide RefEngine.Valid, Table.Accepts;
    var c := RepeatChain(e, bases, min, max);
    var l := e.Language();
    LanguageIsFrom(e);
    CatNothing(l);
    forall m: nat ensures c.TailFrom(0, e.start, m, w) <==> InPower(l, min, max, m + 1, w) {
      RepeatAfter(e, bases, min, max, 0, m);
    }
    if c.Tail(0, e.start, w) {
      var m: nat :| c.TailFrom(0, e.start, m, w);
      assert InPower(l, min, max, m + 1, w);
    }
    if min == 0 && w == [] { assert InPower(l, min, max, 0, w); }
    if w in Repeated(l, min, max) {
      var k: nat :| InPower(l, min, max, k, w);
      if k > 0 { assert c.TailFrom(0, e.start, k - 1, w); }
    }
  }

  /** The repetition NFA accepts L^k for exactly the k within bounds. */
  lemma RepeatLanguage(n: ByteNfa, e: RefEngine, bases: seq<nat>, min: nat, max: Option<nat>)
    requires min <= U32_MAX - 1 && (max.Some? ==> min <= max.value && max.value > 0)
    requires RepeatLaid(n, e, bases, min, max)
    ensures NfaLanguage(n) == Repeated(e.Language(), min, max)
  {
    hide RefEngine.Valid, RefEngine.Language, View, NfaAccepts, Chain.Tail, Chain.In;
    var c := RepeatChain(e, bases, min, max);
    forall w: Word ensures NfaAccepts(View(n), 0, w) <==> InRepeated(e.Language(), min, max, w) {
      HubAccepts(n, [c.StartId(0)], min == 0, w);
      ChainAccepts(c, n, 0, w);
      RepeatTail(e, bases, min, max, w);
    }
  }

  lemma RepeatedNothing(min: nat, max: Option<nat>)
    requires max.Some? ==> min <= max.value
    ensures Repeated(NOTHING, min, max) == if min == 0 then EPSILON else NOTHING
  {
    forall k: nat | k > 0 ensures Power(NOTHING, k) == NOTHING { CatNothing(Power(NOTHING, k - 1)); }
    assert InPower(NOTHING, 0, max, 0, []);
  }

  lemma RepeatedZero(l: Lang)
    ensures Repeated(l, 0, Some(0)) == EPSILON
  {
    assert InPower(l, 0, Some(0), 0, []);
  }

  /** The bookkeeping of `link_repeat_runs` while copy `k` is linked. */
  ghost predicate Linking(states: seq<NfaState>, c: Chain, k: nat, starts: seq<nat>, runs: seq<seq<nat>>) {
    && c.Ok() && k <= |c.engines| == |starts| == |runs|
    && Laid(c.engines, c.bases, 1, |states|) && Indexed(c.engines, c.bases, starts, runs)
    && StatesOk(states) && LinkedUpTo(states, c, k)
  }

  lemma LinkingParts(states: seq<NfaState>, c: Chain, k: nat, starts: seq<nat>, runs: seq<seq<nat>>)
    requires Linking(states, c, k, starts, runs) && k < |c.engines|
    ensures c.Ok() && k < |c.engines| == |starts| == |runs|
    ensures Laid(c.engines, c.bases, 1, |states|) && StatesOk(states) && LinkedUpTo(states, c, k)
    ensures c.engines[k].StateCount() > 0 && runs[k] == AcceptIds(c.engines[k], c.bases[k], LiveCount(c.engines[k]))
    ensures c.next[k].Some? ==> c.NextId(k) == Some(starts[c.next[k].value]) && starts[c.next[k].value] < |states|
    ensures c.next[k].None? ==> c.NextId(k) == None
  {
    if c.next[k].Some? { StartInRange(c.engines[c.next[k].value]); }
  }

  lemma LinkingStep(states: seq<NfaState>, states': seq<NfaState>, c: Chain, k: nat, starts: seq<nat>, runs: seq<seq<nat>>)
    requires Linking(states, c, k, starts, runs) && k < |c.engines| && |states'| == |states| && StatesOk(states')
    requires LinkedUpTo(states', c, k + 1)
    ensures Linking(states', c, k + 1, starts, runs)
  {
    hide StatesOk, LinkedUpTo, Indexed, Chain.Ok;
  }

  lemma RepeatChainAt(e: RefEngine, bases: seq<nat>, min: nat, max: Option<nat>, k: nat)
    requires k < |bases|
    ensures var c := RepeatChain(e, bases, min, max);
            && |c.engines| == |bases| && c.bases == bases && |c.next| == |c.flag| == |bases|
            && c.flag[k] == (k + 1 >= min)
            && c.next[k] == if k + 1 < |bases| then Some(k + 1) else if max.None? then Some(|bases| - 1) else None
  {}

  /** `link_repeat_runs`. */
  method LinkRepeatRuns(states0: seq<NfaState>, starts: seq<nat>, runs: seq<seq<nat>>, min: nat, max: Option<nat>,
                        ghost e: RefEngine, ghost bases: seq<nat>)
    returns (states: seq<NfaState>)
    requires |bases| == |starts| == |runs|
    requires Linking(states0, RepeatChain(e, bases, min, max), 0, starts, runs)
    ensures |states| == |states0|
    ensures Linking(states, RepeatChain(e, bases, min, max), |bases|, starts, runs)
    ensures |states| > 0 ==> states[0] == states0[0]
  {
    hide *;
    states := states0;
    ghost var c := RepeatChain(e, bases, min, max);
    for index := 0 to |runs|
      invariant |states| == |states0| && Linking(states, c, index, starts, runs)
      invariant |states| > 0 ==> states[0] == states0[0]
    {
      var completed := index + 1;
      RepeatChainAt(e, bases, min, max, index);
      LinkingParts(states, c, index, starts, runs);
      var next := if index + 1 < |starts| then Some(starts[index + 1])
                  else if max.None? then Some(starts[|starts| - 1])
                  else None;
      var linked := LinkCopy(states, runs[index], next, completed >= min, c, index, 1);
      LinkingStep(states, linked, c, index, starts, runs);
      states := linked;
    }
  }

  lemma RepeatStart(states: seq<NfaState>, e: RefEngine, bases: seq<nat>, starts: seq<nat>, runs: seq<seq<nat>>,
                    min: nat, max: Option<nat>)
    requires e.Valid() && e.start != DEAD && bases != [] && StatesOk(states)
    requires Copied(states, seq(|bases|, _ => e), bases, 1) && Indexed(seq(|bases|, _ => e), bases, starts, runs)
    ensures |starts| == |runs| == |bases| && starts[0] == RepeatChain(e, bases, min, max).bases[0] + e.start - 1
    ensures starts[0] < |states|
    ensures Linking(states, RepeatChain(e, bases, min, max), 0, starts, runs)
  {
    hide StatesOk;
    StartInRange(e);
  }

  lemma HubPushed(states: seq<NfaState>, hub: NfaState, target: nat, c: Chain, starts: seq<nat>, runs: seq<seq<nat>>)
    requires Linking(states, c, 0, starts, runs) && |states| > 0 && states[0] == hub && target < |states|
    requires hub.edges == [] && hub.epsilon == []
    ensures Linking(states[0 := NfaState([], [target], hub.accepting)], c, 0, starts, runs)
  {
    hide RefEngine.Valid, CopyState;
    var states' := states[0 := NfaState([], [target], hub.accepting)];
    forall j | 0 <= j < |c.engines| ensures CopyAt(states', c.engines[j], c.bases[j]) {
      assert CopyAt(states, c.engines[j], c.bases[j]);
    }
  }

  lemma RepeatFinish(states: seq<NfaState>, e: RefEngine, bases: seq<nat>, starts: seq<nat>, runs: seq<seq<nat>>,
                     min: nat, max: Option<nat>)
    requires |bases| == Copies(min, max) && |states| > 0
    requires Linking(states, RepeatChain(e, bases, min, max), |bases|, starts, runs)
    requires states[0] == NfaState([], [starts[0]], min == 0)
    ensures RepeatLaid(ByteNfa(states, 0), e, bases, min, max) && NfaOk(ByteNfa(states, 0))
  {
    hide RefEngine.Valid, CopyState;
    LinkedIsIn(states, 0, RepeatChain(e, bases, min, max));
  }

  lemma {:induction false} RepeatedTotal(e: RefEngine, k: nat)
    requires e.StateCount() > 0
    ensures TotalLive(seq(k, _ => e)) == k * LiveCount(e)
  {
    if k > 0 {
      RepeatedTotal(e, k - 1);
      assert seq(k, _ => e)[..k - 1] == seq(k - 1, _ => e);
    }
  }

  lemma CopiesFit(e: RefEngine, k: nat)
    requires e.Valid() && e.start != DEAD && Admitted(seq(k, _ => e))
    ensures k <= MAX_GRAPH_STATES
  {
    hide RefEngine.Valid, Admitted, TotalLive;
    StartInRange(e);
    RepeatedTotal(e, k);
    AdmittedTotal(seq(k, _ => e));
    AtLeastOnce(k, LiveCount(e));
  }

  lemma AtLeastOnce(k: nat, n: nat)
    requires n >= 1
    ensures k * n >= k
  {}

  lemma RepeatUsable(e: RefEngine, k: nat)
    requires e.Valid() && e.start != DEAD
    ensures Usable(seq(k, _ => e))
  {}

  /** Why a repetition is refused: the copies do not fit, leave no room for the hub, or their subset automaton
      exceeds the graph caps. */
  ghost predicate RepeatRefused(e: RefEngine, min: nat, max: Option<nat>) {
    var engines := seq(Copies(min, max), _ => e);
    max != Some(0) && e.start != DEAD &&
    (!Admitted(engines) || TotalLive(engines) == MAX_GRAPH_STATES
     || exists n :: RepeatShape(n, e, min, max) && TooManySubsets(n))
  }

  ghost predicate RepeatCrowded(e: RefEngine, min: nat, max: Option<nat>) {
    max != Some(0) && e.start != DEAD && exists n :: RepeatShape(n, e, min, max) && TooManyCells(n)
  }

  lemma RepeatBuilt(n: ByteNfa, e: RefEngine, min: nat, max: Option<nat>)
    requires RepeatShape(n, e, min, max) && max != Some(0) && e.start != DEAD
    requires Admitted(seq(Copies(min, max), _ => e)) && TotalLive(seq(Copies(min, max), _ => e)) < MAX_GRAPH_STATES
    ensures RepeatRefused(e, min, max) <==> TooManySubsets(n)
    ensures RepeatCrowded(e, min, max) <==> TooManyCells(n)
  {
    hide TooManyCells, TooManySubsets, RepeatShape, Admitted, TotalLive, Copies;
    forall m | RepeatShape(m, e, min, max) ensures m == n { RepeatShapeUnique(m, n, e, min, max); }
  }

  /** `repeat(min, max)`: the union of L^k over min <= k <= max, without upper bound when `max` is absent,
      also when L contains the empty word or nothing. */
  method Repeat(e: RefEngine, min: nat, max: Option<nat>) returns (r: Result<AutomatonGraph>)
    requires e.Valid() && min <= U32_MAX && (max.Some? ==> max.value <= U32_MAX)
    ensures r == Err(Malformed) <==> max.Some? && max.value < min
    ensures r.Ok? ==> Validated(r.value) && GraphLanguage(r.value) == Repeated(e.Language(), min, max)
    ensures r.Err? ==> r.error == Malformed || r.error == LimitExceeded
    ensures (max.Some? ==> min <= max.value) ==> (r.Err? <==> RepeatRefused(e, min, max))
    ensures r.Ok? ==> |r.value.states| <= MAX_GRAPH_STATES && (Materialize.Crowded(r.value) <==> RepeatCrowded(e, min, max))
  {
    hide Materialize.Crowded, TooManyCells, RefEngine.Valid, RefEngine.Language, Validated, TooManySubsets, StatesOk,
         Copied, RepeatLaid, StateOk, NfaOk, Linking, Indexed, Admitted, TotalLive, Repeated, NfaLanguage, GraphLanguage,
         RepeatChain, RefEngine.StateCount, Bits.Pow2;
    if max.Some? && max.value < min { return Err(Malformed); }
    if max == Some(0) {
      RepeatedZero(e.Language());
      r := SingleState(true);
      return;
    }
    if e.start == DEAD {
      DeadStart(e);
      RepeatedNothing(min, max);
      r := SingleState(min == 0);
      return;
    }
    var copies := Copies(min, max);
    var engines := seq(copies, _ => e);
    var admitted := AdmitEngineCopies(engines);
    if !admitted { return Err(LimitExceeded); }
    CopiesFit(e, copies);
    AdmittedTotal(engines);
    RepeatUsable(e, copies);
    HubOk(min == 0);
    var hub := NfaState([], [], min == 0);
    var ok, states, starts, runs, bases := CopyEngines([hub], engines);
    if !ok { return Err(LimitExceeded); }
    CopiedSize(states, engines, bases);
    RepeatStart(states, e, bases, starts, runs, min, max);
    HubPushed(states, hub, starts[0], RepeatChain(e, bases, min, max), starts, runs);
    var linked := LinkRepeatRuns(states[0 := NfaState([], [starts[0]], min == 0)], starts, runs, min, max, e, bases);
    RepeatFinish(linked, e, bases, starts, runs, min, max);
    var n := ByteNfa(linked, 0);
    RepeatLanguage(n, e, bases, min, max);
    RepeatBuilt(n, e, min, max);
    r := Determinize(n);
  }

  lemma AdmittedTotal(engines: seq<RefEngine>)
    requires Admitted(engines)
    ensures TotalLive(engines) <= MAX_GRAPH_STATES
  {}

  lemma CopiedSize(states: seq<NfaState>, engines: seq<RefEngine>, bases: seq<nat>)
    requires Copied(states, engines, bases, 1)
    ensures |bases| == |engines|
  {}

  // --- engine forms -----------------------------------------------------------------------------------------

  /** `concat_engine`. It is refused exactly when the concatenation is, or when its subset automaton has too many cells. */
  method ConcatEngine(engines: seq<RefEngine>) returns (r: Result<RefEngine>)
    requires forall j :: 0 <= j < |engines| ==> engines[j].Valid()
    ensures r.Ok? ==> r.value.Valid() && r.value.Language() == CatAll(Langs(engines))
    ensures r.Err? ==> r.error == LimitExceeded
    ensures r.Err? <==> ConcatRefused(engines) || ConcatCrowded(engines)
    ensures r.Err? && !ConcatRefused(engines) ==> Bits.Pow2(TotalLive(engines)) >= 16384
    ensures r.Ok? ==> r.value.StateCount() <= Bits.Pow2(TotalLive(engines)) + 1
  {
    hide RefEngine.Valid, Validated, ConcatCrowded, ConcatRefused, CatAll, Materialize.Crowded;
    var graph := Concatenate(engines);
    if graph.Err? { return Err(graph.error); }
    r := Materialize.GraphToEngine(graph.value);
  }

  method UnionEngine(engines: seq<RefEngine>) returns (r: Result<RefEngine>)
    requires forall j :: 0 <= j < |engines| ==> engines[j].Valid()
    ensures r.Ok? ==> r.value.Valid() && r.value.Language() == UnionAll(Langs(engines))
    ensures r.Err? ==> r.error == LimitExceeded
    ensures r.Err? <==> UnionRefused(engines) || UnionCrowded(engines)
  {
    hide RefEngine.Valid, Validated, UnionCrowded, UnionRefused, UnionAll, Materialize.Crowded;
    var graph := Union(engines);
    if graph.Err? { return Err(graph.error); }
    r := Materialize.GraphToEngine(graph.value);
  }

  method RepeatEngine(e: RefEngine, min: nat, max: Option<nat>) returns (r: Result<RefEngine>)
    requires e.Valid() && min <= U32_MAX && (max.Some? ==> max.value <= U32_MAX)
    ensures r == Err(Malformed) <==> max.Some? && max.value < min
    ensures r.Ok? ==> r.value.Valid() && r.value.Language() == Repeated(e.Language(), min, max)
    ensures r.Err? ==> r.error == Malformed || r.error == LimitExceeded
    ensures (max.Some? ==> min <= max.value) ==>
              (r.Err? <==> RepeatRefused(e, min, max) || RepeatCrowded(e, min, max))
  {
    hide RefEngine.Valid, Validated, RepeatCrowded, RepeatRefused, Repeated, Materialize.Crowded;
    var graph := Repeat(e, min, max);
    if graph.Err? { return Err(graph.error); }
    r := Materialize.GraphToEngine(graph.value);
  }

  // --- two operands --------------------------------------------------------------------------------------------

  method ConcatPair(a: RefEngine, b: RefEngine) returns (r: Result<RefEngine>)
    requires a.Valid() && b.Valid()
    ensures r.Ok? ==> r.value.Valid() && r.value.Language() == Cat(a.Language(), b.Language())
    ensures r.Err? ==> r.error == LimitExceeded
    ensures a.StateCount() + b.StateCount() <= 14 ==> r.Ok?
    ensures r.Ok? ==> r.value.StateCount() <= Bits.Pow2(a.StateCount() + b.StateCount() - 2) + 1
  {
    hide RefEngine.Valid, RefEngine.Language, Cat, CatAll, TotalLive, ConcatRefused, Bits.Pow2;
    PairLangs(a, b);
    PairLive(a, b);
    if a.StateCount() + b.StateCount() <= 14 {
      SmallConcatFits(a, b);
      SmallPairAdmitted(a, b);
      TwelveBits(TotalLive([a, b]));
    }
    r := ConcatEngine([a, b]);
  }

  lemma PairLangs(a: RefEngine, b: RefEngine)
    ensures CatAll(Langs([a, b])) == Cat(a.Language(), b.Language())
    ensures UnionAll(Langs([a, b])) == a.Language() + b.Language()
  {
    hide RefEngine.Language, Cat;
    var ls, one := Langs([a, b]), [b.Language()];
    assert ls == [a.Language(), b.Language()];
    assert ls[1..] == one && one[1..] == [];
    assert CatAll(one) == Cat(b.Language(), CatAll([])) && CatAll(ls) == Cat(a.Language(), CatAll(one));
    CatUnit(b.Language());
    forall w: Word ensures InUnion(ls, w) <==> w in a.Language() || w in b.Language() {
      assert InSome(ls, 0, w) <==> w in a.Language();
      assert InSome(ls, 1, w) <==> w in b.Language();
    }
  }

  method UnionPair(a: RefEngine, b: RefEngine) returns (r: Result<RefEngine>)
    requires a.Valid() && b.Valid()
    ensures r.Ok? ==> r.value.Valid() && r.value.Language() == a.Language() + b.Language()
    ensures r.Err? ==> r.error == LimitExceeded
  {
    hide RefEngine.Valid, RefEngine.Language, UnionAll;
    PairLangs(a, b);
    r := UnionEngine([a, b]);
  }
}
