/** State elimination (automaton/elimination.rs): the test oracle that turns a byte automaton back into a
    regular expression. Labels are regular-expression text in the structured form of `RegexText`: the
    alternatives between the bars. */
module Elimination {
  import opened Outcome
  import opened Languages
  import opened Graph
  import opened RegexText
  import Bits
  import Counting
  import Finite
  import Sorting

  const USIZE_MAX: nat := Counting.U64_MAX
  const MAX_ELIMINATION_BYTES: nat := 1048576

  type Label = seq<Fragment>
  type EdgeMap = map<nat, Label>

  // --- the length of label text ----------------------------------------------------------------------------------

  /** A literal byte is written `\xNN`, a group `(?:...)`, a star one character after its group. */
  function ItemLen(i: Item): (n: nat)
    ensures n >= 4
  {
    match i
    case Class(lo, hi) => if lo == hi then 4 else 11
    case Nothing => 12
    case Group(alts) => 4 + LabelLen(alts)
    case Rep(x, _, _) => ItemLen(x) + 1
  }

  function ItemsLen(items: seq<Item>): (n: nat)
    ensures n == 0 <==> items == []
    ensures items != [] ==> n >= 4
  {
    if items == [] then 0 else ItemLen(items[0]) + ItemsLen(items[1..])
  }

  function FragmentLen(f: Fragment): nat {
    ItemsLen(f.items)
  }

  /** The alternatives and the bars between them. */
  function LabelLen(l: Label): (n: nat) {
    if l == [] then 0
    else if |l| == 1 then FragmentLen(l[0])
    else FragmentLen(l[0]) + 1 + LabelLen(l[1..])
  }

  predicate IsLiteral(i: Item) {
    i.Class? && i.lo == i.hi
  }

  /** One character, or four that begin with `\x`. */
  predicate IsSingleAtom(l: Label) {
    LabelLen(l) == 1 || (LabelLen(l) == 4 && l != [] && l[0].items != [] && IsLiteral(l[0].items[0]))
  }

  /** A label into an ordinary state: no alternative is empty. */
  ghost predicate Solid(l: Label) {
    l != [] && forall i :: 0 <= i < |l| ==> l[i].items != []
  }

  /** A label into the sink: only the first alternative may be empty. */
  ghost predicate SinkLabel(l: Label) {
    l != [] && forall i :: 1 <= i < |l| ==> l[i].items != []
  }

  lemma {:induction false} SolidLong(l: Label)
    requires Solid(l)
    ensures LabelLen(l) >= 4
  {
    if |l| > 1 { SolidLong(l[1..]); }
  }

  /** The text of one bar alone, which `is_single_atom` would take for an atom, never occurs. */
  lemma NoLoneBar(l: Label)
    requires SinkLabel(l)
    ensures LabelLen(l) != 1
    ensures LabelLen(l) == 0 ==> |l| == 1 && l[0].items == []
  {
    if |l| > 1 { SolidLong(l[1..]); }
  }

  /** `wrap`: text that is empty or one atom stands as it is, other text is grouped. */
  function Wrap(l: Label): seq<Item>
    requires LabelLen(l) != 1 && l != []
  {
    if LabelLen(l) == 0 || IsSingleAtom(l) then l[0].items else [Group(l)]
  }

  /** Wrapping keeps the meaning, so wrapped labels can be written side by side. */
  lemma WrapDen(l: Label)
    requires SinkLabel(l)
    ensures LabelLen(l) != 1 && DenItems(Wrap(l)) == DenAlts(l)
  {
    hide Cat, ItemsLen, ItemLen;
    NoLoneBar(l);
    if LabelLen(l) == 0 {
    } else if IsSingleAtom(l) {
      assert |l| == 1;
    } else {
      DenOne(Group(l));
    }
  }

  lemma WrapSolid(l: Label)
    requires Solid(l)
    ensures LabelLen(l) != 1 && Wrap(l) != []
  {
    SolidLong(l);
  }

  // --- generalized automata ----------------------------------------------------------------------------------------

  ghost function RowLang(m: EdgeMap, t: nat): Lang {
    if t in m then DenAlts(m[t]) else NOTHING
  }

  ghost function EdgeLang(out: seq<EdgeMap>, p: nat, t: nat): Lang {
    if p < |out| then RowLang(out[p], t) else NOTHING
  }

  /** A run of `k` edges from `q` to the sink reads `w`. */
  ghost predicate Path(out: seq<EdgeMap>, sink: nat, q: nat, w: Word, k: nat)
    decreases k
  {
    if k == 0 then q == sink && w == [] else exists t: nat, i :: FirstEdge(out, sink, q, w, k, t, i)
  }

  ghost predicate FirstEdge(out: seq<EdgeMap>, sink: nat, q: nat, w: Word, k: nat, t: nat, i: int)
    requires k > 0
    decreases k, 0
  {
    0 <= i <= |w| && w[..i] in EdgeLang(out, q, t) && Path(out, sink, t, w[i..], k - 1)
  }

  ghost predicate Spells(out: seq<EdgeMap>, sink: nat, q: nat, w: Word) {
    exists k: nat :: Path(out, sink, q, w, k)
  }

  /** What the generalized automaton accepts from `q`. */
  ghost function PathLang(out: seq<EdgeMap>, sink: nat, q: nat): Lang {
    iset w: Word | Spells(out, sink, q, w)
  }

  lemma TakeEdge(out: seq<EdgeMap>, sink: nat, q: nat, t: nat, u: Word, v: Word)
    requires u in EdgeLang(out, q, t) && Spells(out, sink, t, v)
    ensures Spells(out, sink, q, u + v)
  {
    hide EdgeLang;
    var k: nat :| Path(out, sink, t, v, k);
    assert (u + v)[..|u|] == u && (u + v)[|u|..] == v;
    assert FirstEdge(out, sink, q, u + v, k + 1, t, |u|);
    assert Path(out, sink, q, u + v, k + 1);
  }

  /** Going around a state any number of times. */
  lemma {:induction false} TakeLoops(out: seq<EdgeMap>, sink: nat, e: nat, j: nat, x: Word, v: Word)
    requires x in Power(EdgeLang(out, e, e), j) && Spells(out, sink, e, v)
    ensures Spells(out, sink, e, x + v)
  {
    hide EdgeLang, Spells;
    if j == 0 {
      assert x + v == v;
    } else {
      var y, z := CatElim(EdgeLang(out, e, e), Power(EdgeLang(out, e, e), j - 1), x);
      TakeLoops(out, sink, e, j - 1, z, v);
      TakeEdge(out, sink, e, e, y, z + v);
      assert x + v == y + (z + v);
    }
  }

  /** A path through `e` goes around `e` some number of times and then leaves it. */
  lemma {:induction false} LeaveState(out: seq<EdgeMap>, sink: nat, e: nat, w: Word, k: nat)
    returns (x: Word, y: Word, z: Word, j: nat, t: nat, r: nat)
    requires e != sink && Path(out, sink, e, w, k)
    ensures w == x + y + z && x in Power(EdgeLang(out, e, e), j) && y in EdgeLang(out, e, t) && t != e
    ensures r < k && Path(out, sink, t, z, r)
    decreases k
  {
    hide EdgeLang;
    assert k > 0;
    var t0: nat, i :| FirstEdge(out, sink, e, w, k, t0, i);
    var u, v := w[..i], w[i..];
    assert w == u + v;
    if t0 != e {
      x, y, z, j, t, r := [], u, v, 0, t0, k - 1;
      assert w == x + y + z;
    } else {
      var x0, j0;
      x0, y, z, j0, t, r := LeaveState(out, sink, e, v, k - 1);
      x, j := u + x0, j0 + 1;
      CatIntro(EdgeLang(out, e, e), Power(EdgeLang(out, e, e), j0), u, x0);
      assert w == x + y + z;
    }
  }

  // --- one elimination step ------------------------------------------------------------------------------------------

  ghost function Through(out: seq<EdgeMap>, e: nat, p: nat, t: nat): Lang {
    Cat(EdgeLang(out, p, e), Cat(Star(EdgeLang(out, e, e)), EdgeLang(out, e, t)))
  }

  /** `out'` bypasses `e`: what went through it is on the direct edges, and no edge touches it. */
  ghost predicate Bypassed(out: seq<EdgeMap>, out': seq<EdgeMap>, e: nat) {
    && (forall p: nat, t: nat :: p != e && t != e ==> EdgeLang(out', p, t) == EdgeLang(out, p, t) + Through(out, e, p, t))
    && (forall p: nat :: EdgeLang(out', p, e) == NOTHING)
    && (forall t: nat :: EdgeLang(out', e, t) == NOTHING)
  }

  lemma ThroughIntro(out: seq<EdgeMap>, e: nat, p: nat, t: nat, u: Word, x: Word, j: nat, y: Word)
    requires u in EdgeLang(out, p, e) && x in Power(EdgeLang(out, e, e), j) && y in EdgeLang(out, e, t)
    ensures u + (x + y) in Through(out, e, p, t)
  {
    hide EdgeLang, Star;
    StarIntro(EdgeLang(out, e, e), j, x);
    CatIntro(Star(EdgeLang(out, e, e)), EdgeLang(out, e, t), x, y);
    CatIntro(EdgeLang(out, p, e), Cat(Star(EdgeLang(out, e, e)), EdgeLang(out, e, t)), u, x + y);
  }

  lemma {:induction false} BypassComplete(out: seq<EdgeMap>, out': seq<EdgeMap>, e: nat, sink: nat, q: nat, w: Word, k: nat)
    requires Bypassed(out, out', e) && q != e && e != sink && Path(out, sink, q, w, k)
    ensures Spells(out', sink, q, w)
    decreases k
  {
    hide EdgeLang, Through;
    if k == 0 {
      assert Path(out', sink, q, w, 0);
      return;
    }
    var t: nat, i :| FirstEdge(out, sink, q, w, k, t, i);
    var u, v := w[..i], w[i..];
    assert w == u + v;
    if t != e {
      BypassComplete(out, out', e, sink, t, v, k - 1);
      TakeEdge(out', sink, q, t, u, v);
    } else {
      var x, y, z, j, t', r := LeaveState(out, sink, e, v, k - 1);
      BypassComplete(out, out', e, sink, t', z, r);
      ThroughIntro(out, e, q, t', u, x, j, y);
      TakeEdge(out', sink, q, t', u + (x + y), z);
      assert w == (u + (x + y)) + z;
    }
  }

  lemma {:induction false} BypassSound(out: seq<EdgeMap>, out': seq<EdgeMap>, e: nat, sink: nat, q: nat, w: Word, k: nat)
    requires Bypassed(out, out', e) && q != e && Path(out', sink, q, w, k)
    ensures Spells(out, sink, q, w)
    decreases k
  {
    hide EdgeLang, Through;
    if k == 0 {
      assert Path(out, sink, q, w, 0);
      return;
    }
    var t: nat, i :| FirstEdge(out', sink, q, w, k, t, i);
    var u, v := w[..i], w[i..];
    assert w == u + v;
    assert t != e;
    BypassSound(out, out', e, sink, t, v, k - 1);
    if u in EdgeLang(out, q, t) {
      TakeEdge(out, sink, q, t, u, v);
    } else {
      DetourSound(out, e, sink, q, t, u, v);
    }
  }

  lemma DetourSound(out: seq<EdgeMap>, e: nat, sink: nat, q: nat, t: nat, u: Word, v: Word)
    requires u in Through(out, e, q, t) && Spells(out, sink, t, v)
    ensures Spells(out, sink, q, u + v)
  {
    hide EdgeLang, Spells;
    var l := EdgeLang(out, e, e);
    var a, b := CatElim(EdgeLang(out, q, e), Cat(Star(l), EdgeLang(out, e, t)), u);
    var x, y := CatElim(Star(l), EdgeLang(out, e, t), b);
    var j: nat :| InPower(l, 0, None, j, x);
    TakeEdge(out, sink, e, t, y, v);
    TakeLoops(out, sink, e, j, x, y + v);
    TakeEdge(out, sink, q, e, a, x + (y + v));
    assert a + (x + (y + v)) == u + v;
  }

  /** Eliminating a state keeps what every other state accepts. */
  lemma BypassKeepsLanguage(out: seq<EdgeMap>, out': seq<EdgeMap>, e: nat, sink: nat, q: nat)
    requires Bypassed(out, out', e) && q != e && e != sink
    ensures PathLang(out', sink, q) == PathLang(out, sink, q)
  {
    hide Path, Bypassed;
    forall w: Word ensures Spells(out', sink, q, w) <==> Spells(out, sink, q, w) {
      if k: nat :| Path(out, sink, q, w, k) { BypassComplete(out, out', e, sink, q, w, k); }
      if k: nat :| Path(out', sink, q, w, k) { BypassSound(out, out', e, sink, q, w, k); }
    }
  }

  /** With only the start and the sink left, the language is the loop on the start, then the last edge. */
  lemma TwoStates(out: seq<EdgeMap>, sink: nat, start: nat)
    requires start != sink && forall t: nat :: t != start && t != sink ==> EdgeLang(out, start, t) == NOTHING
    requires forall t: nat :: EdgeLang(out, sink, t) == NOTHING
    ensures PathLang(out, sink, start) == Cat(Star(EdgeLang(out, start, start)), EdgeLang(out, start, sink))
  {
    hide EdgeLang;
    var loop, last := EdgeLang(out, start, start), EdgeLang(out, start, sink);
    forall w: Word ensures Spells(out, sink, start, w) <==> w in Cat(Star(loop), last) {
      if k: nat :| Path(out, sink, start, w, k) {
        var x, y, z, j, t, r := LeaveState(out, sink, start, w, k);
        SinkEnds(out, sink, z, r);
        StarIntro(loop, j, x);
        CatIntro(Star(loop), last, x, y);
        assert w == x + y;
      }
      if w in Cat(Star(loop), last) {
        var x, y := CatElim(Star(loop), last, w);
        var j: nat :| InPower(loop, 0, None, j, x);
        assert Path(out, sink, sink, [], 0);
        TakeEdge(out, sink, start, sink, y, []);
        assert y + [] == y;
        TakeLoops(out, sink, start, j, x, y);
      }
    }
  }

  lemma SinkEnds(out: seq<EdgeMap>, sink: nat, z: Word, r: nat)
    requires Path(out, sink, sink, z, r) && forall t: nat :: EdgeLang(out, sink, t) == NOTHING
    ensures z == []
  {
    hide EdgeLang;
  }

  // --- building the labels -------------------------------------------------------------------------------------------

  function SaturatingSub(a: nat, b: nat): nat {
    if a < b then 0 else a - b
  }

  /** `union_edge`: the label joins the alternatives already there. The running text length is capped. */
  method UnionEdge(m: EdgeMap, target: nat, text: Label, work: nat, max: nat) returns (ok: bool, m': EdgeMap, work': nat)
    ensures ok ==> m' == m[target := if target in m then m[target] + text else text]
    ensures ok <==> work' <= max
    ensures work' <= USIZE_MAX && work' <= work + LabelLen(text) + if target in m then 1 else 0
  {
    var oldLen, newLen := 0, LabelLen(text);
    if target in m {
      oldLen := LabelLen(m[target]);
      newLen := oldLen + 1 + LabelLen(text);
    }
    work' := SaturatingSub(Counting.SaturatingAdd(work, newLen), oldLen);
    if work' > max { return false, m, work'; }
    ok, m' := true, m[target := if target in m then m[target] + text else text];
  }

  // --- how long the labels get -------------------------------------------------------------------------------------

  ghost predicate Short(m: EdgeMap, bound: nat) {
    forall t :: t in m ==> LabelLen(m[t]) <= bound
  }

  ghost predicate AllShort(out: seq<EdgeMap>, bound: nat) {
    forall q :: 0 <= q < |out| ==> Short(out[q], bound)
  }

  /** What one detour can add to a label, the bar included. */
  function Growth(bound: nat): nat {
    3 * bound + 18
  }

  lemma {:induction false} JoinLen(a: Label, b: Label)
    ensures LabelLen(a + b) <= LabelLen(a) + 1 + LabelLen(b)
  {
    hide FragmentLen;
    if a == [] {
      assert a + b == b;
    } else {
      assert (a + b)[1..] == a[1..] + b;
      JoinLen(a[1..], b);
      if |a| == 1 { assert a[1..] + b == b; }
    }
  }

  lemma {:induction false} ItemsJoinLen(a: seq<Item>, b: seq<Item>)
    ensures ItemsLen(a + b) == ItemsLen(a) + ItemsLen(b)
  {
    hide ItemLen;
    if a == [] {
      assert a + b == b;
    } else {
      assert (a + b)[1..] == a[1..] + b;
      ItemsJoinLen(a[1..], b);
    }
  }

  lemma OneItemLen(i: Item)
    ensures ItemsLen([i]) == ItemLen(i)
  {
    assert [i][1..] == [];
  }

  lemma WrapLen(l: Label)
    requires LabelLen(l) != 1 && l != []
    ensures ItemsLen(Wrap(l)) <= LabelLen(l) + 4
  {
    hide ItemsLen, ItemLen;
    OneItemLen(Group(l));
    GroupLen(l);
  }

  lemma GroupLen(l: Label)
    ensures ItemLen(Group(l)) == 4 + LabelLen(l)
  {}

  lemma StarLen(loop: Label)
    requires LabelLen(loop) != 1 && loop != []
    ensures ItemsLen([Rep(Group([Fragment(Wrap(loop))]), 0, None)]) <= LabelLen(loop) + 9
  {
    hide Wrap, ItemsLen;
    WrapLen(loop);
    GroupLen([Fragment(Wrap(loop))]);
    OneItemLen(Rep(Group([Fragment(Wrap(loop))]), 0, None));
  }

  lemma PieceLen(into: Label, loop: Option<Label>, onward: Label, bound: nat)
    requires into != [] && 1 != LabelLen(into) <= bound && onward != [] && 1 != LabelLen(onward) <= bound
    requires loop.Some? ==> loop.value != [] && 1 != LabelLen(loop.value) <= bound
    ensures LabelLen(Piece(into, loop, onward)) + 1 <= Growth(bound)
  {
    hide Wrap, ItemsLen;
    var star := if loop.Some? then [Rep(Group([Fragment(Wrap(loop.value))]), 0, None)] else [];
    if loop.Some? { StarLen(loop.value); }
    NoItemsLen();
    WrapLen(into);
    WrapLen(onward);
    ItemsJoinLen(Wrap(into) + star, Wrap(onward));
    ItemsJoinLen(Wrap(into), star);
  }

  lemma NoItemsLen()
    ensures ItemsLen([]) == 0
  {}

  lemma JoinedShort(m: EdgeMap, target: nat, text: Label, bound: nat, more: nat)
    requires Short(m, bound) && LabelLen(text) + 1 <= more
    ensures Short(Joined(m, target, text), bound + more)
  {
    hide LabelLen;
    if target in m { JoinLen(m[target], text); }
  }

  /** The text of `k` detours, and of `k` rows of `n` detours. */
  function RowCost(k: nat, bound: nat): nat {
    k * Growth(bound)
  }

  function RowsCost(k: nat, n: nat, bound: nat): nat {
    k * RowCost(n, bound)
  }

  /** The length of a label after `k` eliminations. */
  function LabelBound(first: nat, k: nat): nat {
    if k == 0 then first else LabelBound(first, k - 1) + Growth(LabelBound(first, k - 1))
  }

  /** The text written in `k` eliminations among `n` states and the sink. */
  function WorkBound(n: nat, first: nat, k: nat): nat {
    if k == 0 then first else WorkBound(n, first, k - 1) + RowsCost(n + 1, n + 1, LabelBound(first, k - 1))
  }

  /** The bytes that suffice for every machine of this size, whatever order the hash maps are read in. */
  function Budget(states: seq<ByteState>): nat {
    WorkBound(|states|, 5 * |FlatEdges(states)|, |states|)
  }

  lemma {:induction false} LabelBoundClosed(first: nat, k: nat)
    ensures LabelBound(first, k) + 6 == Bits.Pow2(2 * k) * (first + 6)
  {
    if k > 0 {
      LabelBoundClosed(first, k - 1);
      assert Bits.Pow2(2 * k) == 4 * Bits.Pow2(2 * (k - 1));
      Quadruple(Bits.Pow2(2 * (k - 1)), first + 6);
    }
  }

  lemma Quadruple(p: nat, x: nat)
    ensures (4 * p) * x == 4 * (p * x)
  {}

  lemma {:induction false} WorkBoundClosed(n: nat, first: nat, k: nat)
    ensures WorkBound(n, first, k) == first + (n + 1) * ((n + 1) * ((Bits.Pow2(2 * k) - 1) * (first + 6)))
  {
    hide LabelBound;
    if k == 0 {
      assert Bits.Pow2(2 * k) - 1 == 0;
    } else {
      WorkBoundClosed(n, first, k - 1);
      LabelBoundClosed(first, k - 1);
      assert Bits.Pow2(2 * k) == 4 * Bits.Pow2(2 * (k - 1));
      ClosedStep(n + 1, Bits.Pow2(2 * (k - 1)), first + 6);
    }
  }

  lemma ClosedStep(m: nat, p: nat, x: nat)
    requires p > 0
    ensures m * (m * ((p - 1) * x)) + m * (m * (3 * (p * x))) == m * (m * ((4 * p - 1) * x))
  {
    assert (p - 1) * x + 3 * (p * x) == (4 * p - 1) * x;
    SumTimes(m, (p - 1) * x, 3 * (p * x));
    SumTimes(m, m * ((p - 1) * x), m * (3 * (p * x)));
  }

  lemma SumTimes(m: nat, x: nat, y: nat)
    ensures m * x + m * y == m * (x + y)
  {}

  /** The budget in closed form: exponential in the states, linear in the edges. */
  lemma BudgetClosed(states: seq<ByteState>)
    ensures var n, first := |states|, 5 * |FlatEdges(states)|;
            Budget(states) == first + (n + 1) * ((n + 1) * ((Bits.Pow2(2 * n) - 1) * (first + 6)))
  {
    WorkBoundClosed(|states|, 5 * |FlatEdges(states)|, |states|);
  }

  /** Machines that the cap of the test oracle never refuses. */
  lemma CapSuffices(states: seq<ByteState>)
    requires (|states| <= 3 && |FlatEdges(states)| <= 206) || (|states| == 4 && |FlatEdges(states)| <= 31)
    ensures Budget(states) <= MAX_ELIMINATION_BYTES
  {
    hide FlatEdges, LabelBound, WorkBound;
    BudgetClosed(states);
    assert Bits.Pow2(4) == 16;
    assert Bits.Pow2(6) == 64;
    Bits.Pow2Of8();
    assert Bits.Pow2(2) == 4 && Bits.Pow2(0) == 1;
  }

  lemma {:induction false} WorkBoundGrows(n: nat, first: nat, j: nat, k: nat)
    requires j <= k
    ensures WorkBound(n, first, j) <= WorkBound(n, first, k)
    decreases k - j
  {
    hide LabelBound, RowsCost;
    if j < k { WorkBoundGrows(n, first, j, k - 1); }
  }

  lemma {:induction false} JoinDen(a: Label, b: Label)
    requires a != [] && b != []
    ensures DenAlts(a + b) == DenAlts(a) + DenAlts(b)
  {
    if |a| == 1 {
      assert (a + b)[1..] == b;
    } else {
      assert (a + b)[1..] == a[1..] + b;
      JoinDen(a[1..], b);
    }
  }

  /** Every label suits its target. */
  ghost predicate LabelsOk(m: EdgeMap, sink: nat) {
    forall t :: t in m ==> t <= sink && (if t == sink then SinkLabel(m[t]) else Solid(m[t]))
  }

  ghost function Joined(m: EdgeMap, target: nat, text: Label): EdgeMap {
    m[target := if target in m then m[target] + text else text]
  }

  lemma JoinedLang(m: EdgeMap, target: nat, text: Label, sink: nat)
    requires LabelsOk(m, sink) && target <= sink
    requires Solid(text) || (target == sink && target !in m && SinkLabel(text))
    ensures LabelsOk(Joined(m, target, text), sink)
    ensures forall t :: RowLang(Joined(m, target, text), t) ==
                        if t == target then RowLang(m, t) + DenAlts(text) else RowLang(m, t)
  {
    if target in m { JoinDen(m[target], text); }
  }

  function Literal(b: Byte): Label {
    [Fragment([Class(b, b)])]
  }

  lemma LiteralDen(b: Byte)
    ensures Solid(Literal(b)) && DenAlts(Literal(b)) == iset{[b]}
  {
    DenOne(Class(b, b));
    forall w: Word ensures w in DenItem(Class(b, b)) <==> w == [b] {}
  }

  ghost predicate EdgeByte(edges: seq<(Byte, nat)>, t: nat, w: Word) {
    |w| == 1 && (w[0], t) in edges
  }

  /** The labels of a row spell exactly the given edges, and the empty label leads to the sink when the row
      accepts. */
  ghost predicate RowSpells(m: EdgeMap, edges: seq<(Byte, nat)>, accepting: bool, sink: nat) {
    forall t: nat, w: Word :: w in RowLang(m, t) <==> EdgeByte(edges, t, w) || (accepting && t == sink && w == [])
  }

  lemma RowMore(m: EdgeMap, edges: seq<(Byte, nat)>, e: (Byte, nat), sink: nat)
    requires LabelsOk(m, sink) && RowSpells(m, edges, false, sink) && e.1 < sink
    ensures LabelsOk(Joined(m, e.1, Literal(e.0)), sink)
    ensures RowSpells(Joined(m, e.1, Literal(e.0)), edges + [e], false, sink)
    ensures sink !in m ==> sink !in Joined(m, e.1, Literal(e.0))
  {
    hide RowLang, DenAlts;
    LiteralDen(e.0);
    JoinedLang(m, e.1, Literal(e.0), sink);
    forall t: nat, w: Word ensures w in RowLang(Joined(m, e.1, Literal(e.0)), t) <==> EdgeByte(edges + [e], t, w) {
      assert w in RowLang(m, t) <==> EdgeByte(edges, t, w);
      assert w in DenAlts(Literal(e.0)) <==> w == [e.0];
    }
  }

  const EMPTY_LABEL: Label := [Fragment([])]

  lemma RowAccepts(m: EdgeMap, edges: seq<(Byte, nat)>, sink: nat)
    requires LabelsOk(m, sink) && RowSpells(m, edges, false, sink) && sink !in m
    ensures LabelsOk(Joined(m, sink, EMPTY_LABEL), sink)
    ensures RowSpells(Joined(m, sink, EMPTY_LABEL), edges, true, sink)
  {
    hide RowLang, Joined, DenAlts;
    EmptyDen();
    JoinedLang(m, sink, EMPTY_LABEL, sink);
    forall t: nat, w: Word
      ensures w in RowLang(Joined(m, sink, EMPTY_LABEL), t) <==> EdgeByte(edges, t, w) || (t == sink && w == [])
    {
      assert w in RowLang(m, t) <==> EdgeByte(edges, t, w);
    }
  }

  lemma EmptyDen()
    ensures SinkLabel(EMPTY_LABEL) && DenAlts(EMPTY_LABEL) == EPSILON
  {}

  // --- the automaton to convert -----------------------------------------------------------------------------------

  /** Acceptance over all edges of a row, which need not be deterministic. */
  ghost predicate Runs(states: seq<ByteState>, q: nat, w: Word)
    decreases |w|
  {
    q < |states| &&
    if w == [] then states[q].accepting else exists t: nat :: RunsOn(states, q, w, t)
  }

  ghost predicate RunsOn(states: seq<ByteState>, q: nat, w: Word, t: nat)
    requires q < |states| && w != []
    decreases |w|, 0
  {
    (w[0], t) in states[q].edges && Runs(states, t, w[1..])
  }

  ghost function RunsLanguage(states: seq<ByteState>, start: nat): Lang {
    iset w: Word | Runs(states, start, w)
  }

  /** On deterministic rows this is the usual language. */
  lemma {:induction false} RunsIsAccepts(states: seq<ByteState>, q: nat, w: Word)
    requires RowsOk(states, |states|)
    ensures Runs(states, q, w) <==> Accepts(states, q, w)
    decreases |w|
  {
    if q < |states| && w != [] {
      var edges := states[q].edges;
      assert RowOk(edges, |states|);
      LookupIsEdge(edges, w[0]);
      if t: nat :| RunsOn(states, q, w, t) {
        var i :| 0 <= i < |edges| && edges[i] == (w[0], t);
        LookupUnique(edges, i);
        RunsIsAccepts(states, t, w[1..]);
      }
      if Lookup(edges, w[0]).Some? && Accepts(states, Lookup(edges, w[0]).value, w[1..]) {
        RunsIsAccepts(states, Lookup(edges, w[0]).value, w[1..]);
        assert RunsOn(states, q, w, Lookup(edges, w[0]).value);
      }
    }
  }

  /** The labelled automaton as first built: byte edges, and an empty edge to the sink from accepting rows. */
  ghost predicate Initial(out: seq<EdgeMap>, states: seq<ByteState>) {
    && |out| == |states| + 1 && out[|states|] == map[]
    && forall q :: 0 <= q < |states| ==> RowSpells(out[q], states[q].edges, states[q].accepting, |states|)
  }

  lemma InitialEdge(out: seq<EdgeMap>, states: seq<ByteState>, q: nat, t: nat, w: Word)
    requires Initial(out, states)
    ensures w in EdgeLang(out, q, t) <==>
              q < |states| && (EdgeByte(states[q].edges, t, w) || (states[q].accepting && t == |states| && w == []))
  {
    if q < |states| { assert RowSpells(out[q], states[q].edges, states[q].accepting, |states|); }
  }

  lemma {:induction false} InitialComplete(out: seq<EdgeMap>, states: seq<ByteState>, q: nat, w: Word)
    requires Initial(out, states) && Runs(states, q, w)
    ensures Spells(out, |states|, q, w)
    decreases |w|
  {
    hide EdgeLang, Initial, Spells;
    var sink := |states|;
    if w == [] {
      InitialEdge(out, states, q, sink, []);
      SinkSpells(out, sink);
      TakeEdge(out, sink, q, sink, [], []);
      assert w + w == w;
    } else {
      var t: nat :| RunsOn(states, q, w, t);
      InitialComplete(out, states, t, w[1..]);
      InitialEdge(out, states, q, t, [w[0]]);
      TakeEdge(out, sink, q, t, [w[0]], w[1..]);
      assert [w[0]] + w[1..] == w;
    }
  }

  lemma SinkSpells(out: seq<EdgeMap>, sink: nat)
    ensures Spells(out, sink, sink, [])
  {
    assert Path(out, sink, sink, [], 0);
  }

  lemma InitialSound(out: seq<EdgeMap>, states: seq<ByteState>, q: nat, w: Word, k: nat)
    requires Initial(out, states) && q < |states| && Path(out, |states|, q, w, k)
    requires forall i :: 0 <= i < |states| ==> InRange(states[i].edges, |states|)
    ensures Runs(states, q, w)
    decreases k
  {
    hide EdgeLang, Initial;
    var sink := |states|;
    var t: nat, i :| FirstEdge(out, sink, q, w, k, t, i);
    InitialEdge(out, states, q, t, w[..i]);
    if EdgeByte(states[q].edges, t, w[..i]) {
      assert InRange(states[q].edges, |states|);
      InitialSound(out, states, t, w[i..], k - 1);
      assert w[i..] == w[1..] && w[..i][0] == w[0];
      assert RunsOn(states, q, w, t);
    } else {
      forall u: nat, x: Word ensures x !in EdgeLang(out, sink, u) { InitialEdge(out, states, sink, u, x); }
      forall u: nat ensures EdgeLang(out, sink, u) == NOTHING {}
      SinkEnds(out, sink, w[i..], k - 1);
      assert w == w[..i] + w[i..];
    }
  }

  lemma InitialLanguage(out: seq<EdgeMap>, states: seq<ByteState>, start: nat)
    requires Initial(out, states) && start < |states|
    requires forall i :: 0 <= i < |states| ==> InRange(states[i].edges, |states|)
    ensures PathLang(out, |states|, start) == RunsLanguage(states, start)
  {
    hide Initial, Runs, Path, InRange;
    forall w: Word ensures Spells(out, |states|, start, w) <==> Runs(states, start, w) {
      if Runs(states, start, w) { InitialComplete(out, states, start, w); }
      if k: nat :| Path(out, |states|, start, w, k) { InitialSound(out, states, start, w, k); }
    }
  }

  /** The labels of one row: its byte edges, then the mark of acceptance. */
  method BuildRow(state: ByteState, sink: nat, work0: nat, max: nat) returns (ok: bool, m: EdgeMap, work: nat)
    requires InRange(state.edges, sink)
    ensures ok ==> LabelsOk(m, sink) && RowSpells(m, state.edges, state.accepting, sink)
    ensures !ok ==> max < work <= USIZE_MAX
    ensures ok ==> Short(m, 5 * |state.edges|)
    ensures work <= work0 + 5 * |state.edges|
  {
    hide LabelsOk, RowSpells, LabelLen, Short;
    ok, m, work := true, map[], work0;
    RowEmpty(sink);
    NoLabels();
    for i := 0 to |state.edges|
      invariant ok && LabelsOk(m, sink) && RowSpells(m, state.edges[..i], false, sink) && sink !in m
      invariant Short(m, 5 * i) && work <= work0 + 5 * i
    {
      var e := state.edges[i];
      LiteralLen(e.0);
      JoinedShort(m, e.1, Literal(e.0), 5 * i, 5);
      RowMore(m, state.edges[..i], e, sink);
      assert state.edges[..i + 1] == state.edges[..i] + [e];
      ok, m, work := UnionEdge(m, e.1, Literal(e.0), work, max);
      if !ok { return; }
    }
    assert state.edges[..|state.edges|] == state.edges;
    if state.accepting {
      RowAccepts(m, state.edges, sink);
      AcceptShort(m, sink, 5 * |state.edges|);
      ok, m, work := UnionEdge(m, sink, EMPTY_LABEL, work, max);
    }
  }

  lemma LiteralLen(b: Byte)
    ensures LabelLen(Literal(b)) == 4
  {
    OneItemLen(Class(b, b));
  }

  lemma NoLabels()
    ensures Short(map[], 0)
  {}

  lemma AcceptShort(m: EdgeMap, sink: nat, bound: nat)
    requires Short(m, bound) && sink !in m
    ensures LabelLen(EMPTY_LABEL) == 0 && Short(Joined(m, sink, EMPTY_LABEL), bound)
  {
    NoItemsLen();
  }

  lemma RowEmpty(sink: nat)
    ensures LabelsOk(map[], sink) && RowSpells(map[], [], false, sink)
  {}

  method BuildRows(states: seq<ByteState>, max: nat) returns (ok: bool, out: seq<EdgeMap>, work: nat)
    requires forall i :: 0 <= i < |states| ==> InRange(states[i].edges, |states|)
    ensures ok ==> Initial(out, states) && forall p :: 0 <= p < |out| ==> LabelsOk(out[p], |states|)
    ensures !ok ==> max < work <= USIZE_MAX
    ensures ok ==> AllShort(out, 5 * |FlatEdges(states)|)
    ensures work <= 5 * |FlatEdges(states)|
  {
    hide LabelsOk, RowSpells, InRange, Short, FlatEdges;
    FlatNone(states);
    ok, out, work := true, [], 0;
    for i := 0 to |states|
      invariant ok && |out| == i
      invariant forall p :: 0 <= p < i ==> LabelsOk(out[p], |states|)
      invariant forall p :: 0 <= p < i ==> RowSpells(out[p], states[p].edges, states[p].accepting, |states|)
      invariant AllShort(out, 5 * |FlatEdges(states)|) && work <= 5 * |FlatEdges(states[..i])|
    {
      RowEdgesWithin(states, i);
      var row;
      ok, row, work := BuildRow(states[i], |states|, work, max);
      if !ok { return; }
      ShortGrows(row, 5 * |states[i].edges|, 5 * |FlatEdges(states)|);
      out := out + [row];
    }
    assert states[..|states|] == states;
    NoLabels();
    ShortGrows(map[], 0, 5 * |FlatEdges(states)|);
    RowEmpty(|states|);
    out := out + [map[]];
  }

  lemma RowEdgesWithin(states: seq<ByteState>, i: nat)
    requires i < |states|
    ensures |FlatEdges(states[..i])| + |states[i].edges| == |FlatEdges(states[..i + 1])| <= |FlatEdges(states)|
  {
    FlatStep(states, i);
    FlatPrefix(states, i + 1);
  }

  lemma ShortGrows(m: EdgeMap, bound: nat, bound': nat)
    requires Short(m, bound) && bound <= bound'
    ensures Short(m, bound')
  {}

  // --- the tables --------------------------------------------------------------------------------------------------

  /** `incoming` lists at least the predecessors. */
  ghost predicate Indexed(out: seq<EdgeMap>, incoming: seq<seq<nat>>) {
    forall p: nat, t :: p < |out| && t in out[p] ==> t < |incoming| && p in incoming[t]
  }

  ghost predicate Grows(incoming: seq<seq<nat>>, incoming': seq<seq<nat>>) {
    |incoming'| == |incoming| && forall t: nat, p :: t < |incoming| && p in incoming[t] ==> p in incoming'[t]
  }

  ghost predicate ListsAll(incoming: seq<seq<nat>>, p: nat, ts: set<nat>) {
    forall t :: t in ts ==> t < |incoming| && p in incoming[t]
  }

  /** Records `p` as a predecessor of each target. Keys come in no particular order. */
  method Record(incoming0: seq<seq<nat>>, p: nat, targets: set<nat>) returns (incoming: seq<seq<nat>>)
    requires forall t :: t in targets ==> t < |incoming0|
    ensures Grows(incoming0, incoming) && ListsAll(incoming, p, targets)
  {
    incoming := incoming0;
    var left := targets;
    while left != {}
      invariant left <= targets && Grows(incoming0, incoming) && ListsAll(incoming, p, targets - left)
      decreases left
    {
      var t :| t in left;
      incoming := incoming[t := incoming[t] + [p]];
      left := left - {t};
    }
    assert targets - left == targets;
  }

  method BuildIncoming(out: seq<EdgeMap>) returns (incoming: seq<seq<nat>>)
    requires forall p, t :: 0 <= p < |out| && t in out[p] ==> t < |out|
    ensures |incoming| == |out| && Indexed(out, incoming)
  {
    incoming := seq(|out|, _ => []);
    for p := 0 to |out|
      invariant |incoming| == |out|
      invariant forall q: nat, t :: q < p && t in out[q] ==> q in incoming[t]
    {
      incoming := Record(incoming, p, out[p].Keys);
      assert forall t :: t in out[p] ==> t in out[p].Keys;
    }
  }

  /** Removed states have no edges, and no edge leads to them. */
  ghost predicate RowPresent(m: EdgeMap, removed: seq<bool>, gone: bool) {
    forall t :: t in m ==> !gone && t < |removed| && !removed[t]
  }

  ghost predicate Tables(out: seq<EdgeMap>, incoming: seq<seq<nat>>, removed: seq<bool>, sink: nat, start: nat) {
    && |out| == |incoming| == |removed| == sink + 1 && start < sink
    && !removed[start] && !removed[sink] && out[sink] == map[]
    && (forall p :: 0 <= p <= sink ==> LabelsOk(out[p], sink))
    && Indexed(out, incoming)
    && forall p :: 0 <= p <= sink ==> RowPresent(out[p], removed, removed[p])
  }

  // --- rewriting one row -------------------------------------------------------------------------------------------

  ghost function LoopLang(loop: Option<Label>): Lang {
    if loop.Some? then Star(DenAlts(loop.value)) else EPSILON
  }

  lemma PowerNothing(k: nat)
    requires k > 0
    ensures Power(NOTHING, k) == NOTHING
  {
    CatNothing(Power(NOTHING, k - 1));
  }

  lemma StarNothing()
    ensures Star(NOTHING) == EPSILON
  {
    hide Power;
    forall w: Word ensures w in Star(NOTHING) <==> w == [] {
      PowerZero(NOTHING);
      assert InPower(NOTHING, 0, None, 0, []);
      if k: nat :| InPower(NOTHING, 0, None, k, w) {
        if k > 0 { PowerNothing(k); }
      }
    }
  }

  lemma PowerZero(l: Lang)
    ensures Power(l, 0) == EPSILON
  {}

  /** The text of a detour: into the state, around it, and out again. */
  function Piece(into: Label, loop: Option<Label>, onward: Label): Label
    requires into != [] && LabelLen(into) != 1 && onward != [] && LabelLen(onward) != 1
    requires loop.Some? ==> loop.value != [] && LabelLen(loop.value) != 1
  {
    var star := if loop.Some? then [Rep(Group([Fragment(Wrap(loop.value))]), 0, None)] else [];
    [Fragment(Wrap(into) + star + Wrap(onward))]
  }

  lemma StarDen(loop: Label)
    requires Solid(loop)
    ensures LabelLen(loop) != 1
    ensures DenItems([Rep(Group([Fragment(Wrap(loop))]), 0, None)]) == Star(DenAlts(loop))
  {
    hide Wrap, LabelLen;
    WrapDen(loop);
    var f := Fragment(Wrap(loop));
    DenOne(Rep(Group([f]), 0, None));
    assert DenItem(Group([f])) == DenAlts([f]) == Den(f);
  }

  lemma PieceDen(into: Label, loop: Option<Label>, onward: Label)
    requires Solid(into) && SinkLabel(onward) && (loop.Some? ==> Solid(loop.value))
    ensures LabelLen(into) != 1 && LabelLen(onward) != 1 && (loop.Some? ==> LabelLen(loop.value) != 1)
    ensures Solid(Piece(into, loop, onward))
    ensures DenAlts(Piece(into, loop, onward)) == Cat(DenAlts(into), Cat(LoopLang(loop), DenAlts(onward)))
  {
    hide Wrap, LabelLen, Cat, Star;
    WrapDen(into);
    WrapDen(onward);
    WrapSolid(into);
    var star: seq<Item> := [];
    if loop.Some? {
      StarDen(loop.value);
      star := [Rep(Group([Fragment(Wrap(loop.value))]), 0, None)];
    }
    assert DenItems(star) == LoopLang(loop);
    var a, c := Wrap(into), Wrap(onward);
    assert Piece(into, loop, onward) == [Fragment(a + star + c)];
    hide DenItems, DenAlts, LoopLang, SinkLabel;
    ThreeJoined(a, star, c);
  }

  lemma ThreeJoined(a: seq<Item>, b: seq<Item>, c: seq<Item>)
    ensures DenAlts([Fragment(a + b + c)]) == Cat(DenItems(a), Cat(DenItems(b), DenItems(c)))
  {
    hide Cat, DenItem;
    DenItemsJoin(a, b + c);
    DenItemsJoin(b, c);
    assert a + (b + c) == a + b + c;
  }

  ghost function Detour(m: EdgeMap, e: nat, loop: Option<Label>, succs: EdgeMap, t: nat): Lang {
    Cat(RowLang(m, e), Cat(LoopLang(loop), RowLang(succs, t)))
  }

  /** The row after the detours to the targets in `done` have been added. */
  ghost predicate RowJoined(m: EdgeMap, m': EdgeMap, e: nat, loop: Option<Label>, succs: EdgeMap, done: set<nat>, sink: nat) {
    && LabelsOk(m', sink) && m'.Keys <= m.Keys + succs.Keys
    && forall t: nat :: RowLang(m', t) == RowLang(m, t) + if t in done then Detour(m, e, loop, succs, t) else NOTHING
  }

  lemma JoinOne(m: EdgeMap, m': EdgeMap, e: nat, loop: Option<Label>, succs: EdgeMap, done: set<nat>, sink: nat, t: nat)
    requires LabelsOk(m, sink) && LabelsOk(succs, sink) && e < sink && e in m && (loop.Some? ==> Solid(loop.value))
    requires RowJoined(m, m', e, loop, succs, done, sink) && t in succs && t !in done
    ensures Solid(m[e]) && SinkLabel(succs[t])
    ensures LabelLen(m[e]) != 1 && LabelLen(succs[t]) != 1 && (loop.Some? ==> LabelLen(loop.value) != 1)
    ensures RowJoined(m, Joined(m', t, Piece(m[e], loop, succs[t])), e, loop, succs, done + {t}, sink)
  {
    hide RowLang, LabelLen, DenAlts, Cat, LoopLang, Piece;
    PieceDen(m[e], loop, succs[t]);
    var piece := Piece(m[e], loop, succs[t]);
    JoinedLang(m', t, piece, sink);
    DetourIs(m, e, loop, succs, t);
  }

  lemma DetourIs(m: EdgeMap, e: nat, loop: Option<Label>, succs: EdgeMap, t: nat)
    requires e in m && t in succs
    ensures Detour(m, e, loop, succs, t) == Cat(DenAlts(m[e]), Cat(LoopLang(loop), DenAlts(succs[t])))
  {}

  lemma JoinNone(m: EdgeMap, e: nat, loop: Option<Label>, succs: EdgeMap, sink: nat)
    requires LabelsOk(m, sink)
    ensures RowJoined(m, m, e, loop, succs, {}, sink)
  {}

  /** Targets outside `succs` have no detour. */
  lemma JoinedEverywhere(m: EdgeMap, m': EdgeMap, e: nat, loop: Option<Label>, succs: EdgeMap, sink: nat)
    requires RowJoined(m, m', e, loop, succs, succs.Keys, sink)
    ensures forall t: nat :: RowLang(m', t) == RowLang(m, t) + Detour(m, e, loop, succs, t)
  {
    hide Cat, LoopLang, DenAlts;
    forall t: nat ensures RowLang(m', t) == RowLang(m, t) + Detour(m, e, loop, succs, t) {
      if t !in succs.Keys {
        assert RowLang(succs, t) == NOTHING;
        CatNothing(LoopLang(loop));
        CatNothing(RowLang(m, e));
      }
    }
  }

  /** Labels off the detours added so far are as they were. */
  ghost predicate JoinedShortly(m: EdgeMap, m': EdgeMap, done: set<nat>, bound: nat) {
    forall t :: t in m' ==>
      if t in done then LabelLen(m'[t]) <= bound + Growth(bound) else t in m && m'[t] == m[t]
  }

  lemma JoinShortly(m: EdgeMap, m': EdgeMap, done: set<nat>, bound: nat, t: nat, piece: Label)
    requires JoinedShortly(m, m', done, bound) && Short(m, bound) && t !in done && LabelLen(piece) + 1 <= Growth(bound)
    ensures JoinedShortly(m, Joined(m', t, piece), done + {t}, bound)
  {
    hide LabelLen, Growth;
    if t in m' { JoinLen(m'[t], piece); }
  }

  lemma ShortlyShort(m: EdgeMap, m': EdgeMap, done: set<nat>, bound: nat)
    requires JoinedShortly(m, m', done, bound) && Short(m, bound)
    ensures Short(m', bound + Growth(bound))
  {
    hide LabelLen;
  }

  ghost predicate LoopShort(loop: Option<Label>, bound: nat) {
    loop.Some? ==> LabelLen(loop.value) <= bound
  }

  lemma DetourLen(m: EdgeMap, e: nat, loop: Option<Label>, succs: EdgeMap, t: nat, bound: nat)
    requires e in m && t in succs && Short(m, bound) && Short(succs, bound) && LoopShort(loop, bound)
    requires m[e] != [] && succs[t] != [] && (loop.Some? ==> loop.value != [])
    requires LabelLen(m[e]) != 1 && LabelLen(succs[t]) != 1 && (loop.Some? ==> LabelLen(loop.value) != 1)
    ensures LabelLen(Piece(m[e], loop, succs[t])) + 1 <= Growth(bound)
  {
    hide LabelLen, Piece, Growth;
    PieceLen(m[e], loop, succs[t], bound);
  }

  /** The row while detours are being added: what it spells, and how long its labels are. */
  ghost predicate Joins(m: EdgeMap, m': EdgeMap, e: nat, loop: Option<Label>, succs: EdgeMap, done: set<nat>, sink: nat,
                        bound: nat) {
    RowJoined(m, m', e, loop, succs, done, sink) && JoinedShortly(m, m', done, bound)
  }

  lemma JoinsOne(m: EdgeMap, m': EdgeMap, e: nat, loop: Option<Label>, succs: EdgeMap, done: set<nat>, sink: nat,
                 bound: nat, t: nat)
    requires LabelsOk(m, sink) && LabelsOk(succs, sink) && e < sink && e in m && (loop.Some? ==> Solid(loop.value))
    requires Short(m, bound) && Short(succs, bound) && LoopShort(loop, bound)
    requires Joins(m, m', e, loop, succs, done, sink, bound) && t in succs && t !in done
    ensures m[e] != [] && succs[t] != [] && (loop.Some? ==> loop.value != [])
    ensures LabelLen(m[e]) != 1 && LabelLen(succs[t]) != 1 && (loop.Some? ==> LabelLen(loop.value) != 1)
    ensures LabelLen(Piece(m[e], loop, succs[t])) + 1 <= Growth(bound)
    ensures Joins(m, Joined(m', t, Piece(m[e], loop, succs[t])), e, loop, succs, done + {t}, sink, bound)
  {
    hide LabelsOk, RowJoined, Piece, Solid, SinkLabel, LabelLen, Growth, Short, LoopShort, JoinedShortly, Joined;
    JoinOne(m, m', e, loop, succs, done, sink, t);
    SolidNonempty(m[e], succs[t], loop);
    DetourLen(m, e, loop, succs, t, bound);
    JoinShortly(m, m', done, bound, t, Piece(m[e], loop, succs[t]));
  }

  lemma JoinsEnds(m: EdgeMap, m': EdgeMap, e: nat, loop: Option<Label>, succs: EdgeMap, done: set<nat>, sink: nat, bound: nat)
    requires Joins(m, m', e, loop, succs, done, sink, bound) && Short(m, bound)
    ensures RowJoined(m, m', e, loop, succs, done, sink) && Short(m', bound + Growth(bound))
  {
    hide RowJoined;
    ShortlyShort(m, m', done, bound);
  }

  lemma JoinsNone(m: EdgeMap, e: nat, loop: Option<Label>, succs: EdgeMap, sink: nat, bound: nat)
    requires LabelsOk(m, sink)
    ensures Joins(m, m, e, loop, succs, {}, sink, bound)
  {
    hide RowJoined;
    JoinNone(m, e, loop, succs, sink);
  }

  lemma OneMoreWrite(done: set<nat>, t: nat, all: set<nat>, bound: nat)
    requires t !in done && done + {t} <= all
    ensures RowCost(|done|, bound) + Growth(bound) == RowCost(|done + {t}|, bound) <= RowCost(|all|, bound)
  {
    hide Growth;
    Finite.SubsetSize(done + {t}, all);
    TimesGrows(|done + {t}|, |all|, Growth(bound));
  }

  lemma NoCost(n: nat, bound: nat)
    ensures RowCost(0, bound) == 0 && RowsCost(0, n, bound) == 0
  {}

  lemma TimesGrows(x: nat, y: nat, c: nat)
    requires x <= y
    ensures x * c <= y * c
  {}

  /** Adds to the row of a predecessor the detours through `e`. */
  method JoinRow(m: EdgeMap, e: nat, loop: Option<Label>, succs: EdgeMap, sink: nat, work0: nat, max: nat, ghost bound: nat)
    returns (ok: bool, m': EdgeMap, work: nat)
    requires LabelsOk(m, sink) && LabelsOk(succs, sink) && e < sink && e in m && (loop.Some? ==> Solid(loop.value))
    requires Short(m, bound) && Short(succs, bound) && LoopShort(loop, bound)
    ensures ok ==> RowJoined(m, m', e, loop, succs, succs.Keys, sink)
    ensures !ok ==> max < work <= USIZE_MAX
    ensures ok ==> Short(m', bound + Growth(bound))
    ensures work <= work0 + RowCost(|succs.Keys|, bound)
  {
    hide LabelsOk, RowJoined, Piece, Solid, SinkLabel, LabelLen, Growth, Short, LoopShort, Joins, RowCost;
    ok, m', work := true, m, work0;
    var left := succs.Keys;
    ghost var done: set<nat> := {};
    JoinsNone(m, e, loop, succs, sink, bound);
    NoCost(0, bound);
    while left != {}
      invariant ok && left !! done && left + done == succs.Keys && Joins(m, m', e, loop, succs, done, sink, bound)
      invariant work <= work0 + RowCost(|done|, bound)
      decreases left
    {
      var t :| t in left;
      JoinsOne(m, m', e, loop, succs, done, sink, bound, t);
      OneMoreWrite(done, t, succs.Keys, bound);
      ok, m', work := UnionEdge(m', t, Piece(m[e], loop, succs[t]), work, max);
      if !ok { return; }
      left, done := left - {t}, done + {t};
    }
    JoinsEnds(m, m', e, loop, succs, done, sink, bound);
  }

  lemma SolidNonempty(a: Label, b: Label, loop: Option<Label>)
    requires Solid(a) && SinkLabel(b) && (loop.Some? ==> Solid(loop.value))
    ensures a != [] && b != [] && (loop.Some? ==> loop.value != [])
  {}

  // --- eliminating one state ---------------------------------------------------------------------------------------

  /** The listed predecessors still present, other than `e` itself. */
  function Present(listed: seq<nat>, removed: seq<bool>, e: nat): (r: seq<nat>)
    ensures forall p :: p in r <==> p in listed && p < |removed| && !removed[p] && p != e
  {
    if listed == [] then []
    else
      var rest := Present(listed[1..], removed, e);
      assert listed == [listed[0]] + listed[1..];
      if listed[0] < |removed| && !removed[listed[0]] && listed[0] != e then [listed[0]] + rest else rest
  }

  lemma SortedDistinct(s: seq<nat>)
    ensures Finite.Distinct(Sorting.SortUnique(s, Sorting.NatLess))
  {
    Sorting.SortUniqueSorted(s, Sorting.NatLess);
  }

  /** What the first pass leaves in row `q`: predecessors have their detours, other rows are untouched. */
  ghost predicate RowAfter(m: EdgeMap, m': EdgeMap, joined: bool, e: nat, loop: Option<Label>, succs: EdgeMap, sink: nat) {
    if joined && e in m then RowJoined(m, m', e, loop, succs, succs.Keys, sink) else m' == m
  }

  ghost predicate Joining(out: seq<EdgeMap>, out': seq<EdgeMap>, preds: seq<nat>, i: nat, e: nat, loop: Option<Label>,
                          succs: EdgeMap, sink: nat)
    requires i <= |preds|
  {
    |out'| == |out| && forall q: nat :: q < |out| ==> RowAfter(out[q], out'[q], q in preds[..i], e, loop, succs, sink)
  }

  lemma JoiningStep(out: seq<EdgeMap>, out': seq<EdgeMap>, preds: seq<nat>, i: nat, e: nat, loop: Option<Label>,
                    succs: EdgeMap, sink: nat, row: EdgeMap)
    requires Finite.Distinct(preds) && i < |preds| && preds[i] < |out|
    requires Joining(out, out', preds, i, e, loop, succs, sink)
    requires RowAfter(out[preds[i]], row, true, e, loop, succs, sink)
    ensures |out'| == |out|
    ensures Joining(out, out'[preds[i] := row], preds, i + 1, e, loop, succs, sink)
  {
    hide RowJoined;
    var p := preds[i];
    assert preds[..i + 1] == preds[..i] + [p];
    forall q: nat | q < |out|
      ensures RowAfter(out[q], out'[p := row][q], q in preds[..i + 1], e, loop, succs, sink)
    {
      assert RowAfter(out[q], out'[q], q in preds[..i], e, loop, succs, sink);
    }
  }

  lemma NotYetJoined(out: seq<EdgeMap>, out': seq<EdgeMap>, preds: seq<nat>, i: nat, e: nat, loop: Option<Label>,
                     succs: EdgeMap, sink: nat)
    requires Finite.Distinct(preds) && i < |preds| && preds[i] < |out|
    requires Joining(out, out', preds, i, e, loop, succs, sink)
    ensures |out'| == |out| && out'[preds[i]] == out[preds[i]]
  {
    hide RowJoined;
    assert preds[i] !in preds[..i];
    assert RowAfter(out[preds[i]], out'[preds[i]], false, e, loop, succs, sink);
  }

  lemma ListsGrow(incoming: seq<seq<nat>>, incoming': seq<seq<nat>>, p: nat, ts: set<nat>)
    requires Grows(incoming, incoming') && ListsAll(incoming, p, ts)
    ensures ListsAll(incoming', p, ts)
  {}

  lemma SuccsInRange(succs: EdgeMap, sink: nat)
    requires LabelsOk(succs, sink)
    ensures forall t :: t in succs.Keys ==> t <= sink
  {}

  /** First pass over the predecessors. */
  method JoinRows(out: seq<EdgeMap>, incoming0: seq<seq<nat>>, preds: seq<nat>, e: nat, loop: Option<Label>,
                  succs: EdgeMap, sink: nat, work0: nat, max: nat, ghost bound: nat)
    returns (ok: bool, out': seq<EdgeMap>, incoming: seq<seq<nat>>, work: nat)
    requires Finite.Distinct(preds) && |out| == |incoming0| == sink + 1 && e < sink
    requires forall i :: 0 <= i < |preds| ==> preds[i] <= sink
    requires forall q :: 0 <= q <= sink ==> LabelsOk(out[q], sink)
    requires LabelsOk(succs, sink) && (loop.Some? ==> Solid(loop.value))
    ensures ok ==> Joining(out, out', preds, |preds|, e, loop, succs, sink) && Grows(incoming0, incoming)
    requires AllShort(out, bound) && Short(succs, bound) && LoopShort(loop, bound)
    ensures ok ==> forall i :: 0 <= i < |preds| && e in out[preds[i]] ==> ListsAll(incoming, preds[i], succs.Keys)
    ensures !ok ==> max < work <= USIZE_MAX
    ensures ok ==> AllShort(out', bound + Growth(bound))
    ensures work <= work0 + RowsCost(sink + 1, sink + 1, bound)
  {
    hide LabelsOk, RowJoined, Solid, Short, LoopShort, Growth, RowCost, RowsCost;
    ok, out', incoming, work := true, out, incoming0, work0;
    SuccsInRange(succs, sink);
    NoCost(sink + 1, bound);
    SuccsCount(succs, sink, bound);
    RowsWithin(preds, sink, bound);
    AllShortGrows(out, bound, bound + Growth(bound));
    for i := 0 to |preds|
      invariant ok && Joining(out, out', preds, i, e, loop, succs, sink) && Grows(incoming0, incoming)
      invariant forall j :: 0 <= j < i && e in out[preds[j]] ==> ListsAll(incoming, preds[j], succs.Keys)
      invariant AllShort(out', bound + Growth(bound)) && work <= work0 + RowsCost(i, sink + 1, bound)
    {
      var p := preds[i];
      OneMoreRow(preds, i, sink, bound);
      ghost var before := incoming;
      NotYetJoined(out, out', preds, i, e, loop, succs, sink);
      if e in out'[p] {
        var row;
        ok, row, work := JoinRow(out'[p], e, loop, succs, sink, work, max, bound);
        if !ok { return; }
        JoiningStep(out, out', preds, i, e, loop, succs, sink, row);
        out' := out'[p := row];
        incoming := Record(incoming, p, succs.Keys);
        forall j | 0 <= j < i && e in out[preds[j]] ensures ListsAll(incoming, preds[j], succs.Keys) {
          ListsGrow(before, incoming, preds[j], succs.Keys);
        }
      } else {
        JoiningStep(out, out', preds, i, e, loop, succs, sink, out[p]);
        assert out'[p := out[p]] == out';
      }
    }
  }

  lemma SuccsCount(succs: EdgeMap, sink: nat, bound: nat)
    requires forall t :: t in succs.Keys ==> t <= sink
    ensures RowCost(|succs.Keys|, bound) <= RowCost(sink + 1, bound)
  {
    hide Growth;
    assert succs.Keys <= Finite.Below(sink + 1);
    Finite.SubsetSize(succs.Keys, Finite.Below(sink + 1));
    TimesGrows(|succs.Keys|, sink + 1, Growth(bound));
  }

  lemma OneMoreRow(preds: seq<nat>, i: nat, sink: nat, bound: nat)
    requires Finite.Distinct(preds) && i < |preds| && forall j :: 0 <= j < |preds| ==> preds[j] <= sink
    ensures RowsCost(i, sink + 1, bound) + RowCost(sink + 1, bound) == RowsCost(i + 1, sink + 1, bound)
    ensures RowsCost(i + 1, sink + 1, bound) <= RowsCost(sink + 1, sink + 1, bound)
  {
    hide RowCost;
    Finite.Pigeonhole(preds, sink + 1);
    TimesGrows(i + 1, sink + 1, RowCost(sink + 1, bound));
  }

  lemma RowsWithin(preds: seq<nat>, sink: nat, bound: nat)
    requires Finite.Distinct(preds) && forall j :: 0 <= j < |preds| ==> preds[j] <= sink
    ensures RowsCost(|preds|, sink + 1, bound) <= RowsCost(sink + 1, sink + 1, bound)
  {
    if preds == [] { NoCost(sink + 1, bound); } else { OneMoreRow(preds, |preds| - 1, sink, bound); }
  }

  lemma AllShortGrows(out: seq<EdgeMap>, bound: nat, bound': nat)
    requires AllShort(out, bound) && bound <= bound'
    ensures AllShort(out, bound')
  {
    hide Short;
    forall q | 0 <= q < |out| ensures Short(out[q], bound') { ShortGrows(out[q], bound, bound'); }
  }

  /** Second pass: no row leads to `e` any more, and `e` leads nowhere. */
  ghost predicate Cleared(out: seq<EdgeMap>, out': seq<EdgeMap>, preds: seq<nat>, e: nat) {
    && |out'| == |out|
    && forall q: nat :: q < |out| ==>
         out'[q] == if q == e then map[] else if q in preds then out[q] - {e} else out[q]
  }

  method ClearRows(out: seq<EdgeMap>, preds: seq<nat>, e: nat) returns (out': seq<EdgeMap>)
    requires e < |out| && forall i :: 0 <= i < |preds| ==> preds[i] < |out|
    ensures Cleared(out, out', preds, e)
  {
    out' := out;
    for i := 0 to |preds|
      invariant |out'| == |out|
      invariant forall q: nat :: q < |out| ==> out'[q] == if q in preds[..i] then out[q] - {e} else out[q]
    {
      assert preds[..i + 1] == preds[..i] + [preds[i]];
      out' := out'[preds[i] := out'[preds[i]] - {e}];
    }
    assert preds[..|preds|] == preds;
    out' := out'[e := map[]];
  }

  /** The successors of `e` still present, without the loop on it. */
  ghost predicate Onward(m: EdgeMap, succs: EdgeMap, removed: seq<bool>, e: nat) {
    forall t: nat :: t in succs <==> t in m && t != e && t < |removed| && !removed[t]
  }

  ghost predicate SameLabels(m: EdgeMap, succs: EdgeMap) {
    forall t :: t in succs ==> t in m && succs[t] == m[t]
  }

  lemma OnwardLang(m: EdgeMap, succs: EdgeMap, e: nat)
    requires SameLabels(m, succs) && forall t: nat :: t in m && t != e ==> t in succs
    ensures forall t: nat :: t != e ==> RowLang(succs, t) == RowLang(m, t)
  {}

  ghost predicate LoopOf(m: EdgeMap, e: nat, loop: Option<Label>) {
    loop == if e in m then Some(m[e]) else None
  }

  lemma LoopStar(m: EdgeMap, e: nat, loop: Option<Label>)
    requires LoopOf(m, e, loop)
    ensures LoopLang(loop) == Star(RowLang(m, e))
  {
    hide Star;
    StarNothing();
  }

  /** One row of the rewritten table. */
  lemma BypassedRow(out: seq<EdgeMap>, mid: seq<EdgeMap>, out': seq<EdgeMap>, preds: seq<nat>, e: nat, loop: Option<Label>,
                    succs: EdgeMap, sink: nat, p: nat, t: nat)
    requires e < |out| && p < |out| && p != e && t != e && LoopOf(out[e], e, loop)
    requires Joining(out, mid, preds, |preds|, e, loop, succs, sink) && Cleared(mid, out', preds, e)
    requires RowLang(succs, t) == RowLang(out[e], t)
    requires e in out[p] ==> p in preds
    ensures EdgeLang(out', p, t) == EdgeLang(out, p, t) + Through(out, e, p, t)
  {
    hide Cat, Star, DenAlts, LabelsOk;
    assert preds[..|preds|] == preds;
    assert RowAfter(out[p], mid[p], p in preds, e, loop, succs, sink);
    LoopStar(out[e], e, loop);
    assert Through(out, e, p, t) == Detour(out[p], e, loop, succs, t);
    if e in out[p] {
      JoinedEverywhere(out[p], mid[p], e, loop, succs, sink);
      assert RowLang(mid[p] - {e}, t) == RowLang(mid[p], t);
    } else {
      CatNothing(Cat(LoopLang(loop), RowLang(succs, t)));
      assert RowLang(out'[p], t) == RowLang(out[p], t);
    }
  }

  lemma RowsAreBypassed(out: seq<EdgeMap>, mid: seq<EdgeMap>, out': seq<EdgeMap>, preds: seq<nat>, e: nat,
                        loop: Option<Label>, succs: EdgeMap, sink: nat)
    requires e < |out| && LoopOf(out[e], e, loop)
    requires Joining(out, mid, preds, |preds|, e, loop, succs, sink) && Cleared(mid, out', preds, e)
    requires forall t: nat :: t != e ==> RowLang(succs, t) == RowLang(out[e], t)
    requires forall p: nat :: p < |out| && p != e && e in out[p] ==> p in preds
    ensures Bypassed(out, out', e)
  {
    hide Cat, Star, DenAlts, LabelsOk, RowJoined, RowAfter, Detour;
    forall p: nat, t: nat | p != e && t != e ensures EdgeLang(out', p, t) == EdgeLang(out, p, t) + Through(out, e, p, t) {
      if p < |out| {
        BypassedRow(out, mid, out', preds, e, loop, succs, sink, p, t);
      } else {
        CatNothing(Cat(Star(EdgeLang(out, e, e)), EdgeLang(out, e, t)));
      }
    }
    forall p: nat ensures EdgeLang(out', p, e) == NOTHING { ClearedColumn(out, mid, out', preds, e, loop, succs, sink, p); }
    assert forall t: nat :: EdgeLang(out', e, t) == NOTHING;
  }

  lemma ClearedColumn(out: seq<EdgeMap>, mid: seq<EdgeMap>, out': seq<EdgeMap>, preds: seq<nat>, e: nat,
                      loop: Option<Label>, succs: EdgeMap, sink: nat, p: nat)
    requires e < |out| && Joining(out, mid, preds, |preds|, e, loop, succs, sink) && Cleared(mid, out', preds, e)
    requires forall p: nat :: p < |out| && p != e && e in out[p] ==> p in preds
    ensures EdgeLang(out', p, e) == NOTHING
  {
    hide RowJoined;
    assert preds[..|preds|] == preds;
    if p < |out| { assert RowAfter(out[p], mid[p], p in preds, e, loop, succs, sink); }
  }

  lemma ClearedLabels(m: EdgeMap, e: nat, sink: nat)
    requires LabelsOk(m, sink)
    ensures LabelsOk(m - {e}, sink)
  {}

  lemma RowStaysOk(m: EdgeMap, m': EdgeMap, joined: bool, e: nat, loop: Option<Label>, succs: EdgeMap, sink: nat)
    requires LabelsOk(m, sink) && RowAfter(m, m', joined, e, loop, succs, sink)
    ensures LabelsOk(m', sink)
    ensures m'.Keys <= m.Keys + if joined && e in m then succs.Keys else {}
  {}

  lemma AfterSizes(out: seq<EdgeMap>, mid: seq<EdgeMap>, out': seq<EdgeMap>, preds: seq<nat>, e: nat, loop: Option<Label>,
                   succs: EdgeMap, sink: nat)
    requires Joining(out, mid, preds, |preds|, e, loop, succs, sink) && Cleared(mid, out', preds, e)
    ensures |out'| == |mid| == |out|
  {}

  /** What elimination leaves behind is a table again, with one state fewer. */
  lemma TablesAfter(out: seq<EdgeMap>, incoming: seq<seq<nat>>, removed: seq<bool>, sink: nat, start: nat,
                    mid: seq<EdgeMap>, out': seq<EdgeMap>, incoming': seq<seq<nat>>, preds: seq<nat>, e: nat,
                    loop: Option<Label>, succs: EdgeMap)
    requires Tables(out, incoming, removed, sink, start) && e < sink && e != start
    requires Joining(out, mid, preds, |preds|, e, loop, succs, sink) && Cleared(mid, out', preds, e)
    requires Grows(incoming, incoming') && Onward(out[e], succs, removed[e := true], e)
    requires forall i :: 0 <= i < |preds| ==> preds[i] <= sink && !removed[preds[i]] && preds[i] != e
    requires forall p: nat :: p <= sink && p != e && e in out[p] ==> p in preds
    requires forall i :: 0 <= i < |preds| && e in out[preds[i]] ==> ListsAll(incoming', preds[i], succs.Keys)
    ensures Tables(out', incoming', removed[e := true], sink, start)
  {
    hide LabelsOk, RowJoined, Joining, Cleared;
    AfterSizes(out, mid, out', preds, e, loop, succs, sink);
    forall p: nat | p <= sink
      ensures LabelsOk(out'[p], sink)
      ensures forall t: nat :: t in out'[p] ==> t != e && (t in out[p] || (p in preds && e in out[p] && t in succs))
    {
      RowAfterClearing(out, mid, out', preds, e, loop, succs, sink, p);
    }
    assert out'[sink] == map[] by {
      assert e !in out[sink];
      RowAfterClearing(out, mid, out', preds, e, loop, succs, sink, sink);
    }
    forall p: nat, t: nat | p <= sink && t in out'[p] ensures EdgeOk(incoming', removed[e := true], p, t) {
      RowAfterClearing(out, mid, out', preds, e, loop, succs, sink, p);
      EdgeAfter(out, incoming, removed, sink, start, incoming', preds, e, succs, p, t);
    }
    hide Onward, ListsAll;
    AreTables(out', incoming', removed[e := true], sink, start);
  }

  /** The edge joins states still present, and its source is recorded at its target. */
  ghost predicate EdgeOk(incoming: seq<seq<nat>>, removed: seq<bool>, p: nat, t: nat) {
    t < |incoming| == |removed| && p in incoming[t] && p < |removed| && !removed[p] && !removed[t]
  }

  lemma AreTables(out: seq<EdgeMap>, incoming: seq<seq<nat>>, removed: seq<bool>, sink: nat, start: nat)
    requires |out| == |incoming| == |removed| == sink + 1 && start < sink
    requires !removed[start] && !removed[sink] && out[sink] == map[]
    requires forall p: nat :: p <= sink ==> LabelsOk(out[p], sink)
    requires forall p: nat, t: nat :: p <= sink && t in out[p] ==> EdgeOk(incoming, removed, p, t)
    ensures Tables(out, incoming, removed, sink, start)
  {
    hide LabelsOk;
    forall p: nat, t: nat | p < |out| && t in out[p] ensures t < |incoming| && p in incoming[t] {
      assert EdgeOk(incoming, removed, p, t);
    }
    forall p: nat | p <= sink ensures RowPresent(out[p], removed, removed[p]) {
      forall t: nat | t in out[p] ensures !removed[p] && t < |removed| && !removed[t] {
        assert EdgeOk(incoming, removed, p, t);
      }
    }
  }

  /** An edge of the rewritten table joins states still present, and its source is recorded at its target. */
  lemma EdgeAfter(out: seq<EdgeMap>, incoming: seq<seq<nat>>, removed: seq<bool>, sink: nat, start: nat,
                  incoming': seq<seq<nat>>, preds: seq<nat>, e: nat, succs: EdgeMap, p: nat, t: nat)
    requires Tables(out, incoming, removed, sink, start) && e < sink && p <= sink && p != e && t != e
    requires Grows(incoming, incoming') && Onward(out[e], succs, removed[e := true], e)
    requires t in out[p] || (p in preds && e in out[p] && t in succs)
    requires forall i :: 0 <= i < |preds| ==> preds[i] <= sink
    requires forall i :: 0 <= i < |preds| && e in out[preds[i]] ==> ListsAll(incoming', preds[i], succs.Keys)
    ensures EdgeOk(incoming', removed[e := true], p, t)
  {
    hide LabelsOk;
    assert RowPresent(out[p], removed, removed[p]);
    if t !in out[p] {
      var i :| 0 <= i < |preds| && preds[i] == p;
      assert ListsAll(incoming', p, succs.Keys) && t in succs.Keys;
    }
  }

  lemma RowAfterClearing(out: seq<EdgeMap>, mid: seq<EdgeMap>, out': seq<EdgeMap>, preds: seq<nat>, e: nat,
                         loop: Option<Label>, succs: EdgeMap, sink: nat, p: nat)
    requires |out| == sink + 1 && e < sink && p <= sink && LabelsOk(out[p], sink)
    requires Joining(out, mid, preds, |preds|, e, loop, succs, sink) && Cleared(mid, out', preds, e)
    requires forall p: nat :: p <= sink && p != e && e in out[p] ==> p in preds
    ensures LabelsOk(out'[p], sink)
    ensures forall t: nat :: t in out'[p] ==> t != e && (t in out[p] || (p in preds && e in out[p] && t in succs))
    ensures e !in out[p] && p != e ==> out'[p] == out[p]
    ensures p == e ==> out'[p] == map[]
  {
    hide RowJoined;
    assert preds[..|preds|] == preds;
    assert RowAfter(out[p], mid[p], p in preds, e, loop, succs, sink);
    RowStaysOk(out[p], mid[p], p in preds, e, loop, succs, sink);
    if p == e { RowEmpty(sink); } else if p in preds { ClearedLabels(mid[p], e, sink); }
  }

  /** Removes one state: its predecessors get the detours through it, then every trace of it is cleared. The
      language from the start, and from every other state, stays the same. */
  method EliminateState(out: seq<EdgeMap>, incoming: seq<seq<nat>>, removed: seq<bool>, sink: nat, start: nat, e: nat,
                        work0: nat, max: nat, ghost bound: nat)
    returns (ok: bool, out': seq<EdgeMap>, incoming': seq<seq<nat>>, work: nat)
    requires Tables(out, incoming, removed, sink, start) && e < sink && e != start && !removed[e] && AllShort(out, bound)
    ensures ok ==> Tables(out', incoming', removed[e := true], sink, start)
    ensures ok ==> forall q: nat :: q != e ==> PathLang(out', sink, q) == PathLang(out, sink, q)
    ensures !ok ==> max < work <= USIZE_MAX
    ensures ok ==> AllShort(out', bound + Growth(bound))
    ensures work <= work0 + RowsCost(sink + 1, sink + 1, bound)
  {
    hide LabelsOk, RowJoined, Joining, Cleared, PathLang, Indexed, Solid, Growth, Short, LoopShort, RowsCost;
    var removed' := removed[e := true];
    var loop: Option<Label> := if e in out[e] then Some(out[e][e]) else None;
    var present := Present(incoming[e], removed', e);
    var preds := Sorting.SortUnique(present, Sorting.NatLess);
    SortedDistinct(present);
    var succs := map t | t in out[e] && t != e && t < |removed'| && !removed'[t] :: out[e][t];
    PredsCover(out, incoming, removed, sink, start, e, preds);
    SuccsCover(out, incoming, removed, sink, start, e, succs, loop);
    out' := out;
    var mid;
    SuccsShort(out, e, succs, loop, bound);
    ok, mid, incoming', work := JoinRows(out, incoming, preds, e, loop, succs, sink, work0, max, bound);
    if !ok { return; }
    JoiningSize(out, mid, preds, e, loop, succs, sink);
    out' := ClearRows(mid, preds, e);
    ClearedShort(mid, out', preds, e, bound + Growth(bound));
    TablesAfter(out, incoming, removed, sink, start, mid, out', incoming', preds, e, loop, succs);
    RowsAreBypassed(out, mid, out', preds, e, loop, succs, sink);
    forall q: nat | q != e ensures PathLang(out', sink, q) == PathLang(out, sink, q) {
      BypassKeepsLanguage(out, out', e, sink, q);
    }
  }

  lemma SuccsShort(out: seq<EdgeMap>, e: nat, succs: EdgeMap, loop: Option<Label>, bound: nat)
    requires AllShort(out, bound) && e < |out| && LoopOf(out[e], e, loop) && SameLabels(out[e], succs)
    ensures Short(succs, bound) && LoopShort(loop, bound)
  {
    hide LabelLen;
    assert Short(out[e], bound);
  }

  lemma ClearedShort(out: seq<EdgeMap>, out': seq<EdgeMap>, preds: seq<nat>, e: nat, bound: nat)
    requires Cleared(out, out', preds, e) && AllShort(out, bound)
    ensures AllShort(out', bound)
  {
    hide LabelLen;
    forall q | 0 <= q < |out'| ensures Short(out'[q], bound) { assert Short(out[q], bound); }
  }

  lemma JoiningSize(out: seq<EdgeMap>, mid: seq<EdgeMap>, preds: seq<nat>, e: nat, loop: Option<Label>, succs: EdgeMap, sink: nat)
    requires Joining(out, mid, preds, |preds|, e, loop, succs, sink)
    ensures |mid| == |out|
  {}

  /** The recorded predecessors are all there are. */
  lemma PredsCover(out: seq<EdgeMap>, incoming: seq<seq<nat>>, removed: seq<bool>, sink: nat, start: nat, e: nat, preds: seq<nat>)
    requires Tables(out, incoming, removed, sink, start) && e < sink
    requires forall p :: p in preds <==> p in Present(incoming[e], removed[e := true], e)
    ensures forall i :: 0 <= i < |preds| ==> preds[i] <= sink && !removed[preds[i]] && preds[i] != e
    ensures forall p: nat :: p <= sink && p != e && e in out[p] ==> p in preds
    ensures forall q :: 0 <= q <= sink ==> LabelsOk(out[q], sink)
  {
    hide LabelsOk;
    var present := Present(incoming[e], removed[e := true], e);
    forall i | 0 <= i < |preds| ensures preds[i] <= sink && !removed[preds[i]] && preds[i] != e {
      assert preds[i] in preds && preds[i] in present;
    }
    forall p: nat | p <= sink && p != e && e in out[p] ensures p in preds {
      assert RowPresent(out[p], removed, removed[p]);
      assert p in incoming[e];
      assert p in present;
    }
  }

  lemma SuccsCover(out: seq<EdgeMap>, incoming: seq<seq<nat>>, removed: seq<bool>, sink: nat, start: nat, e: nat,
                   succs: EdgeMap, loop: Option<Label>)
    requires Tables(out, incoming, removed, sink, start) && e < sink && LoopOf(out[e], e, loop)
    requires SameLabels(out[e], succs) && Onward(out[e], succs, removed[e := true], e)
    ensures LabelsOk(succs, sink) && (loop.Some? ==> Solid(loop.value))
    ensures forall t: nat :: t != e ==> RowLang(succs, t) == RowLang(out[e], t)
  {
    OnwardLang(out[e], succs, e);
  }

  // --- the whole conversion ------------------------------------------------------------------------------------------

  predicate Candidate(removed: seq<bool>, start: nat, i: nat) {
    i < |removed| && !removed[i] && i != start
  }

  /** The heuristic: predecessors still present times outgoing labels. */
  function Score(out: seq<EdgeMap>, incoming: seq<seq<nat>>, removed: seq<bool>, i: nat): nat
    requires i < |out| && i < |incoming|
  {
    |Present(incoming[i], removed, i)| * |out[i]|
  }

  /** The first candidate of least score. */
  method PickState(out: seq<EdgeMap>, incoming: seq<seq<nat>>, removed: seq<bool>, sink: nat, start: nat)
    returns (r: Option<nat>)
    requires |out| == |incoming| == |removed| == sink + 1
    ensures r.None? <==> forall i: nat :: i < sink ==> !Candidate(removed, start, i)
    ensures r.Some? ==> r.value < sink && Candidate(removed, start, r.value)
    ensures r.Some? ==> forall i: nat :: i < sink && Candidate(removed, start, i) ==>
              var best, other := Score(out, incoming, removed, r.value), Score(out, incoming, removed, i);
              best < other || (best == other && r.value <= i)
  {
    hide Score;
    r := None;
    for i := 0 to sink
      invariant r.None? <==> forall j: nat :: j < i ==> !Candidate(removed, start, j)
      invariant r.Some? ==> r.value < i && Candidate(removed, start, r.value)
      invariant r.Some? ==> forall j: nat :: j < i && Candidate(removed, start, j) ==>
                  var best, other := Score(out, incoming, removed, r.value), Score(out, incoming, removed, j);
                  best < other || (best == other && r.value <= j)
    {
      if Candidate(removed, start, i) {
        if r.None? || Score(out, incoming, removed, i) < Score(out, incoming, removed, r.value) { r := Some(i); }
      }
    }
  }

  ghost function Remaining(removed: seq<bool>, start: nat): set<nat> {
    set i | i in Finite.Below(|removed|) && Candidate(removed, start, i)
  }

  lemma RemainingShrinks(removed: seq<bool>, start: nat, e: nat)
    requires Candidate(removed, start, e)
    ensures |Remaining(removed[e := true], start)| < |Remaining(removed, start)|
  {
    assert Remaining(removed, start) == Remaining(removed[e := true], start) + {e};
  }

  /** When no candidate is left, only the start row has labels, to itself and to the sink. */
  lemma OnlyStart(out: seq<EdgeMap>, incoming: seq<seq<nat>>, removed: seq<bool>, sink: nat, start: nat)
    requires Tables(out, incoming, removed, sink, start)
    requires forall i: nat :: i < sink ==> !Candidate(removed, start, i)
    ensures forall t: nat :: t != start && t != sink ==> EdgeLang(out, start, t) == NOTHING
    ensures forall t: nat :: EdgeLang(out, sink, t) == NOTHING
    ensures start in out[start] ==> Solid(out[start][start])
    ensures sink in out[start] ==> SinkLabel(out[start][sink])
  {
    forall t: nat | t != start && t != sink ensures t !in out[start] {
      assert RowPresent(out[start], removed, removed[start]);
      assert t < sink ==> !Candidate(removed, start, t);
    }
  }

  /** The text of a loop, then the last label. */
  function LoopThen(loop: Label, last: Label): Label
    requires loop != [] && LabelLen(loop) != 1 && last != [] && LabelLen(last) != 1
  {
    [Fragment([Rep(Group([Fragment(Wrap(loop))]), 0, None)] + Wrap(last))]
  }

  lemma LoopThenDen(loop: Label, last: Label)
    requires Solid(loop) && SinkLabel(last)
    ensures LabelLen(loop) != 1 && LabelLen(last) != 1
    ensures DenAlts(LoopThen(loop, last)) == Cat(Star(DenAlts(loop)), DenAlts(last))
  {
    hide Wrap, LabelLen, Cat, Star;
    StarDen(loop);
    WrapDen(last);
    DenItemsJoin([Rep(Group([Fragment(Wrap(loop))]), 0, None)], Wrap(last));
  }

  lemma NothingDen()
    ensures DenAlts([Fragment([Nothing])]) == NOTHING
  {
    DenOne(Nothing);
  }

  /** The start row as text. */
  method StartRow(m: EdgeMap, start: nat, sink: nat) returns (text: Label)
    requires start in m ==> Solid(m[start])
    requires sink in m ==> SinkLabel(m[sink])
    ensures DenAlts(text) == Cat(Star(RowLang(m, start)), RowLang(m, sink))
  {
    hide LabelLen, Wrap, DenAlts, Cat, Star, Piece, LoopThen;
    if sink !in m {
      NothingDen();
      CatNothing(Star(RowLang(m, start)));
      return [Fragment([Nothing])];
    }
    var last := m[sink];
    if start !in m {
      StarNothing();
      CatUnit(DenAlts(last));
      return last;
    }
    LoopThenDen(m[start], last);
    text := LoopThen(m[start], last);
  }

  /** `to_regex_via_state_elimination`: the returned text denotes exactly the language of the automaton, with
      loops on the start, accepting starts and the empty language included, and whatever order the heuristic
      picks. It fails only when the running text length passes the cap, which takes more text than the cap allows within
      `Budget`, and never happens with the largest cap. */
  method ToRegexViaStateElimination(states: seq<ByteState>, start: nat, maxBytes: nat) returns (r: Result<Label>)
    requires start < |states| && forall i :: 0 <= i < |states| ==> InRange(states[i].edges, |states|)
    ensures r.Ok? ==> DenAlts(r.value) == RunsLanguage(states, start)
    ensures r.Ok? && RowsOk(states, |states|) ==> DenAlts(r.value) == StatesLanguage(states, start)
    ensures r.Err? ==> r.error == LimitExceeded && maxBytes < USIZE_MAX && maxBytes < Budget(states)
  {
    hide Remaining, WorkBound, LabelBound, RowsCost, AllShort, Growth, FlatEdges, InRange, Initial, LabelsOk, PathLang,
         RunsLanguage, Indexed, DenAlts, RowPresent, Candidate;
    var sink := |states|;
    ghost var first := 5 * |FlatEdges(states)|;
    ghost var done: nat := 0;
    BoundsBegin(sink, first);
    var ok, out, work: nat := BuildRows(states, maxBytes);
    if !ok { return Err(LimitExceeded); }
    InitialLanguage(out, states, start);
    InitialSize(out, states);
    var incoming := BuildIncoming(out);
    var removed := seq(sink + 1, _ => false);
    StartTables(out, incoming, removed, sink, start);
    RemainingBegin(removed, sink, start);
    while true
      invariant Tables(out, incoming, removed, sink, start)
      invariant done + |Remaining(removed, start)| <= sink
      invariant AllShort(out, LabelBound(first, done)) && work <= WorkBound(sink, first, done)
      invariant PathLang(out, sink, start) == RunsLanguage(states, start)
      decreases |Remaining(removed, start)|
    {
      var elim := PickState(out, incoming, removed, sink, start);
      if elim.None? { break; }
      CandidateIs(removed, start, elim.value);
      RemainingShrinks(removed, start, elim.value);
      BoundsStep(sink, first, done);
      ok, out, incoming, work :=
        EliminateState(out, incoming, removed, sink, start, elim.value, work, maxBytes, LabelBound(first, done));
      if !ok { return Err(LimitExceeded); }
      done := done + 1;
      removed := removed[elim.value := true];
    }
    OnlyStart(out, incoming, removed, sink, start);
    TwoStates(out, sink, start);
    var text := StartRow(out[start], start, sink);
    RunsIsStates(states, start);
    r := Ok(text);
  }

  lemma BoundsBegin(n: nat, first: nat)
    ensures LabelBound(first, 0) == first == WorkBound(n, first, 0) <= WorkBound(n, first, n)
  {
    WorkBoundGrows(n, first, 0, n);
  }

  lemma BoundsStep(n: nat, first: nat, k: nat)
    requires k < n
    ensures LabelBound(first, k + 1) == LabelBound(first, k) + Growth(LabelBound(first, k))
    ensures WorkBound(n, first, k) + RowsCost(n + 1, n + 1, LabelBound(first, k)) == WorkBound(n, first, k + 1)
    ensures WorkBound(n, first, k + 1) <= WorkBound(n, first, n)
  {
    WorkBoundGrows(n, first, k + 1, n);
  }

  lemma RemainingBegin(removed: seq<bool>, sink: nat, start: nat)
    requires |removed| == sink + 1 && start < sink
    ensures |Remaining(removed, start)| <= sink
  {
    assert Remaining(removed, start) <= Finite.Below(sink + 1) - {start};
    Finite.SubsetSize(Remaining(removed, start), Finite.Below(sink + 1) - {start});
  }

  lemma CandidateIs(removed: seq<bool>, start: nat, i: nat)
    requires Candidate(removed, start, i)
    ensures i < |removed| && !removed[i] && i != start
  {}

  lemma InitialSize(out: seq<EdgeMap>, states: seq<ByteState>)
    requires Initial(out, states) && forall p :: 0 <= p < |out| ==> LabelsOk(out[p], |states|)
    ensures |out| == |states| + 1 && out[|states|] == map[]
    ensures forall p, t :: 0 <= p < |out| && t in out[p] ==> t < |out|
  {
    hide RowSpells;
    forall p, t | 0 <= p < |out| && t in out[p] ensures t < |out| { assert LabelsOk(out[p], |states|); }
  }

  lemma StartTables(out: seq<EdgeMap>, incoming: seq<seq<nat>>, removed: seq<bool>, sink: nat, start: nat)
    requires |out| == |incoming| == sink + 1 && removed == seq(sink + 1, _ => false) && start < sink
    requires out[sink] == map[] && Indexed(out, incoming) && forall p :: 0 <= p < |out| ==> LabelsOk(out[p], sink)
    requires forall p, t :: 0 <= p < |out| && t in out[p] ==> t < |out|
    ensures Tables(out, incoming, removed, sink, start)
  {
    hide LabelsOk;
  }

  lemma RunsIsStates(states: seq<ByteState>, start: nat)
    ensures RowsOk(states, |states|) ==> RunsLanguage(states, start) == StatesLanguage(states, start)
  {
    hide Runs, Accepts;
    if RowsOk(states, |states|) {
      forall w: Word ensures Runs(states, start, w) <==> Accepts(states, start, w) { RunsIsAccepts(states, start, w); }
    }
  }
}
