/** The materialized reference engine (automaton/byte_dfa.rs): CSR rows over byte classes, state 0
    the canonical DEAD. */
module Engine {
  import opened Outcome
  import opened Languages
  import opened Counting
  import Bits

  const DEAD: nat := 0

  type ByteTable = s: seq<nat> | |s| == 256 witness seq(256, _ => 0)

  /** A set of class ids below 256, held as four 64-bit words. */
  type ClassMask = s: seq<nat> | |s| == 4 witness [0, 0, 0, 0]

  const EMPTY_MASK: ClassMask := [0, 0, 0, 0]

  function MaskSet(m: ClassMask, c: nat): ClassMask
    requires c < 256
  {
    m[c / 64 := Bits.SetBit(m[c / 64], c % 64)]
  }

  predicate MaskContains(m: ClassMask, c: nat)
    requires c < 256
  {
    Bits.Bit(m[c / 64], c % 64)
  }

  lemma MaskSetContains(m: ClassMask, c: nat, d: nat)
    requires c < 256 && d < 256
    ensures MaskContains(MaskSet(m, c), d) <==> c == d || MaskContains(m, d)
  {
    Bits.BitOfSetBit(m[c / 64], c % 64, d % 64);
  }

  ghost predicate MaskFits(m: ClassMask) {
    forall k :: 0 <= k < 4 ==> m[k] < Bits.Pow2(64)
  }

  lemma MaskSetFits(m: ClassMask, c: nat)
    requires MaskFits(m) && c < 256
    ensures MaskFits(MaskSet(m, c))
  {
    hide Bits.Pow2, Bits.SetBit;
    Bits.SetBitFits(m[c / 64], c % 64, 64);
  }

  lemma MaskEmptyContains(d: nat)
    requires d < 256
    ensures !MaskContains(EMPTY_MASK, d)
  {
    Bits.ZeroHasNoBit(d % 64);
  }

  /** The first edge labelled `c` in a row sorted by class; the scan stops at the first larger class. */
  function Scan(row: seq<(nat, nat)>, c: nat): nat {
    if row == [] then DEAD
    else if row[0].0 == c then row[0].1
    else if row[0].0 > c then DEAD
    else Scan(row[1..], c)
  }

  /** The targets along a row. */
  function Targets(row: seq<(nat, nat)>): (r: seq<nat>)
    ensures |r| == |row|
  {
    seq(|row|, i requires 0 <= i < |row| => row[i].1)
  }

  ghost predicate Ascending(row: seq<(nat, nat)>) {
    forall i, j :: 0 <= i < j < |row| ==> row[i].0 < row[j].0
  }

  lemma {:induction false} ScanFinds(row: seq<(nat, nat)>, i: nat)
    requires Ascending(row) && i < |row|
    ensures Scan(row, row[i].0) == row[i].1
  {
    if i != 0 { ScanFinds(row[1..], i - 1); }
  }

  lemma {:induction false} ScanMisses(row: seq<(nat, nat)>, c: nat)
    requires forall i :: 0 <= i < |row| ==> row[i].0 != c
    ensures Scan(row, c) == DEAD
  {
    if row != [] { ScanMisses(row[1..], c); }
  }

  lemma {:induction false} ScanHits(row: seq<(nat, nat)>, c: nat) returns (i: nat)
    requires Scan(row, c) != DEAD
    ensures i < |row| && row[i] == (c, Scan(row, c))
  {
    if row[0].0 == c {
      i := 0;
    } else {
      var j := ScanHits(row[1..], c);
      i := j + 1;
    }
  }

  datatype Table = Table(
    rowOffsets: seq<nat>,
    edges: seq<(nat, nat)>,
    accepting: seq<bool>,
    members: seq<seq<Byte>>,
    ofByte: ByteTable)
  {
    function Row(s: nat): seq<(nat, nat)> {
      if s + 1 < |rowOffsets| && rowOffsets[s] <= rowOffsets[s + 1] <= |edges|
      then edges[rowOffsets[s]..rowOffsets[s + 1]] else []
    }

    function Step(s: nat, c: nat): nat {
      if s >= |accepting| || c >= |members| then DEAD else Scan(Row(s), c)
    }

    function Next(s: nat, b: Byte): nat {
      Step(s, ofByte[b])
    }

    function Walk(s: nat, w: Word): nat
      decreases |w|
    {
      if w == [] then s else Walk(Next(s, w[0]), w[1..])
    }

    predicate IsAccepting(s: nat) {
      s < |accepting| && accepting[s]
    }

    predicate Accepts(s: nat, w: Word) {
      IsAccepting(Walk(s, w))
    }

    ghost function From(s: nat): Lang {
      iset w: Word | Accepts(s, w)
    }

    ghost predicate OffsetsOk() {
      && |rowOffsets| == |accepting| + 1
      && rowOffsets[0] == 0
      && (forall i, j :: 0 <= i <= j < |rowOffsets| ==> rowOffsets[i] <= rowOffsets[j])
      && rowOffsets[|accepting|] == |edges|
    }

    /** `members` lists each class in ascending byte order, and the classes partition the bytes. */
    ghost predicate ClassesOk() {
      && |members| <= 256
      && (forall b: Byte :: ofByte[b] < |members|)
      && (forall c :: 0 <= c < |members| ==> IsClass(members[c], c))
    }

    ghost predicate IsClass(bytes: seq<Byte>, c: nat) {
      && bytes != []
      && (forall i, j :: 0 <= i < j < |bytes| ==> bytes[i] < bytes[j])
      && (forall b: Byte :: b in bytes <==> ofByte[b] == c)
    }

    ghost predicate RowOk(row: seq<(nat, nat)>) {
      && Ascending(row)
      && (forall i :: 0 <= i < |row| ==> row[i].0 < |members| && 1 <= row[i].1 < |accepting|)
    }

    ghost predicate WellFormed() {
      && |accepting| > 0 && !accepting[DEAD]
      && OffsetsOk() && ClassesOk()
      && Row(DEAD) == []
      && forall s :: 0 <= s < |accepting| ==> RowOk(Row(s))
    }

    /** Every state but DEAD can still reach acceptance. */
    ghost predicate Trimmed() {
      forall s :: 1 <= s < |accepting| ==> Live(s)
    }

    ghost predicate Live(s: nat) {
      exists w :: Accepts(s, w)
    }

    lemma NextInRange(s: nat, b: Byte)
      requires WellFormed()
      ensures Next(s, b) < |accepting|
      ensures Next(s, b) != DEAD ==> 1 <= s < |accepting|
    {
      if Next(s, b) != DEAD {
        var i := ScanHits(Row(s), ofByte[b]);
      }
    }

    lemma {:induction false} DeadIsSink(w: Word)
      requires WellFormed()
      ensures Walk(DEAD, w) == DEAD && !Accepts(DEAD, w)
      decreases |w|
    {
      if w != [] {
        NextInRange(DEAD, w[0]);
        DeadIsSink(w[1..]);
      }
    }

    lemma {:induction false} WalkInRange(s: nat, w: Word)
      requires WellFormed() && s < |accepting|
      ensures Walk(s, w) < |accepting|
      decreases |w|
    {
      if w != [] {
        NextInRange(s, w[0]);
        WalkInRange(Next(s, w[0]), w[1..]);
      }
    }

    lemma {:induction false} WalkAppend(s: nat, u: Word, v: Word)
      ensures Walk(s, u + v) == Walk(Walk(s, u), v)
      decreases |u|
    {
      if u == [] {
        assert u + v == v;
      } else {
        assert (u + v)[1..] == u[1..] + v;
        WalkAppend(Next(s, u[0]), u[1..], v);
      }
    }

    /** A word keeps a trimmed engine alive exactly when it extends to an accepted one. */
    lemma AliveIffExtendable(s: nat, u: Word)
      requires WellFormed() && Trimmed() && s < |accepting|
      ensures Walk(s, u) != DEAD <==> exists v :: Accepts(s, u + v)
    {
      var t := Walk(s, u);
      WalkInRange(s, u);
      if t != DEAD {
        assert Live(t);
        var v :| Accepts(t, v);
        WalkAppend(s, u, v);
        assert Accepts(s, u + v);
      } else {
        forall v ensures !Accepts(s, u + v) {
          WalkAppend(s, u, v);
          DeadIsSink(v);
        }
      }
    }
  }

  datatype RefEngine = RefEngine(
    table: Table,
    residual: seq<nat>,
    liveClasses: seq<ClassMask>,
    start: nat)
  {
    function StateCount(): nat {
      |table.accepting|
    }

    function ClassCount(): nat {
      |table.members|
    }

    predicate IsDead(s: nat) {
      s == DEAD || s >= StateCount()
    }

    predicate CanContinue(s: nat) {
      s < |liveClasses| && liveClasses[s] != EMPTY_MASK
    }

    ghost function Language(): Lang {
      table.From(start)
    }

    ghost predicate MasksOk() {
      && |liveClasses| == StateCount()
      && (forall s :: 0 <= s < StateCount() ==> MaskFits(liveClasses[s]))
      && forall s, c :: 0 <= s < StateCount() && 0 <= c < 256 ==>
           (MaskContains(liveClasses[s], c) <==> HasClass(table.Row(s), c))
    }

    /** What materialization promises: a well-formed trimmed table, exact residual counts and exact
        live-class masks. */
    ghost predicate Valid() {
      && table.WellFormed() && table.Trimmed() && start < StateCount()
      && MasksOk()
      && |residual| == StateCount()
      && forall s :: 0 <= s < StateCount() ==> Counts(table.From(s), residual[s])
    }

    /** `step`: the row scan with its early exit. */
    method StepLoop(state: nat, class_: nat) returns (t: nat)
      requires Valid()
      ensures t == table.Step(state, class_)
    {
      if state >= StateCount() || class_ >= ClassCount() { return DEAD; }
      var hi := table.rowOffsets[state + 1];
      var i := table.rowOffsets[state];
      ghost var row := table.Row(state);
      ghost var lo := i;
      while i < hi
        invariant lo <= i <= hi <= |table.edges| && row == table.edges[lo..hi]
        invariant Scan(row, class_) == Scan(row[i - lo..], class_)
      {
        assert row[i - lo..][0] == table.edges[i] && row[i - lo..][1..] == row[i + 1 - lo..];
        if table.edges[i].0 == class_ { return table.edges[i].1; }
        if table.edges[i].0 > class_ { break; }
        i := i + 1;
      }
      return DEAD;
    }

    function Consumed(s: nat, bytes: Word): Option<nat> {
      if bytes == [] then Some(s)
      else if table.Walk(s, bytes) == DEAD then None
      else Some(table.Walk(s, bytes))
    }

    /** `consume_token`: all bytes or none. */
    method ConsumeToken(s: nat, bytes: Word) returns (r: Option<nat>)
      requires Valid()
      ensures r == Consumed(s, bytes)
    {
      var cur := s;
      for i := 0 to |bytes|
        invariant table.Walk(s, bytes) == table.Walk(cur, bytes[i..])
        invariant i > 0 ==> cur != DEAD
        invariant i == 0 ==> cur == s
      {
        if cur == DEAD {
          table.DeadIsSink(bytes[i..]);
          return None;
        }
        assert bytes[i..][0] == bytes[i] && bytes[i..][1..] == bytes[i + 1..];
        cur := table.Next(cur, bytes[i]);
        if cur == DEAD {
          table.DeadIsSink(bytes[i + 1..]);
          return None;
        }
      }
      return Some(cur);
    }

    /** `accepts`, with its early exit on DEAD. */
    method AcceptsLoop(instance: Word) returns (r: bool)
      requires Valid()
      ensures r <==> instance in Language()
    {
      var cur := start;
      for i := 0 to |instance|
        invariant table.Walk(start, instance) == table.Walk(cur, instance[i..])
      {
        if cur == DEAD {
          table.DeadIsSink(instance[i..]);
          return false;
        }
        assert instance[i..][0] == instance[i] && instance[i..][1..] == instance[i + 1..];
        cur := table.Next(cur, instance[i]);
      }
      return table.IsAccepting(cur);
    }
  }

  ghost predicate HasClass(row: seq<(nat, nat)>, c: nat) {
    exists i :: 0 <= i < |row| && row[i].0 == c
  }

  lemma NonzeroMaskHasClass(m: ClassMask) returns (c: nat)
    requires MaskFits(m) && m != EMPTY_MASK
    ensures c < 256 && MaskContains(m, c)
  {
    hide Bits.Pow2, Bits.Bit;
    var k: nat :| k < 4 && m[k] != 0;
    var i := Bits.NonzeroHasBit(m[k]);
    Bits.BitBelowWidth(m[k], i, 64);
    c := 64 * k + i;
    assert c / 64 == k && c % 64 == i;
  }

  /** `can_continue` tells whether some byte leads to a live state. */
  lemma CanContinueIffSomeByte(e: RefEngine, s: nat)
    requires e.Valid()
    ensures e.CanContinue(s) <==> exists b: Byte :: e.table.Next(s, b) != DEAD
  {
    if s < e.StateCount() {
      if e.CanContinue(s) {
        var b := MaskHasByte(e, s);
      }
      if b: Byte :| e.table.Next(s, b) != DEAD { ByteInMask(e, s, b); }
    }
  }

  lemma MaskHasByte(e: RefEngine, s: nat) returns (b: Byte)
    requires e.Valid() && s < e.StateCount() && e.liveClasses[s] != EMPTY_MASK
    ensures e.table.Next(s, b) != DEAD
  {
    hide MaskContains, MaskFits;
    var row := e.table.Row(s);
    assert e.table.RowOk(row);
    var c := NonzeroMaskHasClass(e.liveClasses[s]);
    assert HasClass(row, c);
    var i :| 0 <= i < |row| && row[i].0 == c;
    ScanFinds(row, i);
    assert e.table.IsClass(e.table.members[c], c);
    b := e.table.members[c][0];
    assert b in e.table.members[c];
  }

  lemma ByteInMask(e: RefEngine, s: nat, b: Byte)
    requires e.Valid() && s < e.StateCount() && e.table.Next(s, b) != DEAD
    ensures e.liveClasses[s] != EMPTY_MASK
  {
    hide MaskContains, MaskFits;
    var row := e.table.Row(s);
    assert e.table.RowOk(row);
    var i := ScanHits(row, e.table.ofByte[b]);
    assert HasClass(row, row[i].0);
    assert MaskContains(e.liveClasses[s], row[i].0);
    MaskEmptyContains(row[i].0);
  }

  /** On a valid engine, a state is dead exactly when nothing can be accepted from it. */
  lemma DeadIffEmpty(e: RefEngine, s: nat)
    requires e.Valid()
    ensures e.IsDead(s) <==> e.table.From(s) == NOTHING
  {
    if s == DEAD {
      forall w: Word ensures !e.table.Accepts(s, w) { e.table.DeadIsSink(w); }
    } else if s < e.StateCount() {
      assert e.table.Live(s);
      var w :| e.table.Accepts(s, w);
      assert w in e.table.From(s);
    } else {
      forall w: Word ensures !e.table.Accepts(s, w) {
        if w != [] { e.table.DeadIsSink(w[1..]); }
      }
    }
  }

  lemma PrependByte(t: Table, s: nat, b: Byte, w: Word)
    requires w in t.From(t.Next(s, b))
    ensures [b] + w in t.From(s)
  {
    assert ([b] + w)[1..] == w;
  }

  /** The first step of a walk that stays alive. */
  lemma LiveStep(e: RefEngine, s: nat, u: Word)
    requires e.Valid() && s < e.StateCount() && u != [] && e.table.Walk(s, u) != DEAD
    ensures 1 <= e.table.Next(s, u[0]) < e.StateCount()
    ensures e.table.Walk(e.table.Next(s, u[0]), u[1..]) == e.table.Walk(s, u)
  {
    e.table.DeadIsSink(u[1..]);
    e.table.NextInRange(s, u[0]);
  }

  /** An accepted word ends in a live accepting state. */
  lemma AcceptedEnd(e: RefEngine, s: nat, u: Word)
    requires e.Valid() && s < e.StateCount() && u in e.table.From(s)
    ensures 1 <= e.table.Walk(s, u) < e.StateCount() && e.table.IsAccepting(e.table.Walk(s, u))
  {
    e.table.WalkInRange(s, u);
  }

  lemma StartInRange(e: RefEngine)
    requires e.Valid()
    ensures e.start < e.StateCount()
  {}
}
