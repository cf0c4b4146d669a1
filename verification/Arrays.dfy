/** Array and tuple bodies (compile.rs:479-605, 1005-1087): comma-joined lists, once built from engines and once
    written as a regular expression. */
module Arrays {
  import opened Outcome
  import opened Languages
  import opened Engine
  import opened RegexText
  import Combine

  // --- the declared language ---------------------------------------------------------------------------------------

  /** `k` items joined by separators. */
  ghost function Joined(item: nat -> Lang, comma: Lang, k: nat): Lang {
    if k == 0 then EPSILON
    else if k == 1 then item(0)
    else Cat(Joined(item, comma, k - 1), Cat(comma, item(k - 1)))
  }

  ghost predicate ListOf(item: nat -> Lang, comma: Lang, k: nat, min: nat, max: Option<nat>, w: Word) {
    Within(k, min, max) && w in Joined(item, comma, k)
  }

  ghost predicate IsList(item: nat -> Lang, comma: Lang, min: nat, max: Option<nat>, w: Word) {
    exists k: nat :: ListOf(item, comma, k, min, max, w)
  }

  /** The lists of between `min` and `max` items. */
  ghost function Lists(item: nat -> Lang, comma: Lang, min: nat, max: Option<nat>): Lang {
    iset w: Word | IsList(item, comma, min, max, w)
  }

  /** Every position draws from the same language. */
  ghost function Same(l: Lang): nat -> Lang {
    (i: nat) => l
  }

  /** The prefix positions, then the tail; past a closed tail there is no item. */
  ghost function Position(prefix: seq<Lang>, tail: Option<Lang>): nat -> Lang {
    (i: nat) => if i < |prefix| then prefix[i] else if tail.Some? then tail.value else NOTHING
  }

  lemma {:induction false} JoinedPower(item: nat -> Lang, comma: Lang, base: nat, t: Lang, j: nat)
    requires base > 0 && forall i: nat :: base <= i < base + j ==> item(i) == t
    ensures Joined(item, comma, base + j) == Cat(Joined(item, comma, base), Power(Cat(comma, t), j))
  {
    hide Cat;
    var head, l := Joined(item, comma, base), Cat(comma, t);
    if j == 0 {
      CatUnit(head);
    } else {
      JoinedPower(item, comma, base, t, j - 1);
      JoinedStep(item, comma, base + j);
      CatAssoc(head, Power(l, j - 1), l);
      PowerSum(l, j - 1, 1);
      PowerOne(l);
    }
  }

  lemma PowerOne(l: Lang)
    ensures Power(l, 1) == l
  {
    hide Cat;
    CatUnit(l);
    assert Power(l, 1) == Cat(l, Power(l, 0));
  }

  lemma JoinedStep(item: nat -> Lang, comma: Lang, k: nat)
    requires k > 1
    ensures Joined(item, comma, k) == Cat(Joined(item, comma, k - 1), Cat(comma, item(k - 1)))
  {}

  ghost predicate CatPower(head: Lang, l: Lang, j: nat, min: nat, max: Option<nat>, w: Word) {
    Within(j, min, max) && w in Cat(head, Power(l, j))
  }

  /** A head and some repetitions. */
  lemma CatRepeated(head: Lang, l: Lang, min: nat, max: Option<nat>, w: Word)
    ensures w in Cat(head, Repeated(l, min, max)) <==> exists j: nat :: CatPower(head, l, j, min, max, w)
  {
    hide Power;
    if w in Cat(head, Repeated(l, min, max)) {
      var u, v := CatElim(head, Repeated(l, min, max), w);
      var j: nat :| InPower(l, min, max, j, v);
      CatIntro(head, Power(l, j), u, v);
      assert CatPower(head, l, j, min, max, w);
    }
    if j: nat :| CatPower(head, l, j, min, max, w) {
      var u, v := CatElim(head, Power(l, j), w);
      assert InPower(l, min, max, j, v);
      CatIntro(head, Repeated(l, min, max), u, v);
    }
  }

  function Less(max: Option<nat>, n: nat): Option<nat>
    requires max.Some? ==> max.value >= n
  {
    if max.Some? then Some(max.value - n) else None
  }

  /** A full head of `base` items and `lo` to `hi` more are the lists of base + lo to base + hi items. */
  lemma HeadAndMore(item: nat -> Lang, comma: Lang, base: nat, t: Lang, lo: nat, hi: Option<nat>, top: Option<nat>)
    requires base > 0 && forall i: nat :: i >= base ==> item(i) == t
    requires top == if hi.Some? then Some(base + hi.value) else None
    ensures Cat(Joined(item, comma, base), Repeated(Cat(comma, t), lo, hi)) == Lists(item, comma, base + lo, top)
  {
    hide Cat, Joined, Repeated, Power;
    var head, l, low: nat := Joined(item, comma, base), Cat(comma, t), base + lo;
    forall w: Word ensures w in Cat(head, Repeated(l, lo, hi)) <==> IsList(item, comma, low, top, w) {
      CatRepeated(head, l, lo, hi, w);
      if j: nat :| CatPower(head, l, j, lo, hi, w) {
        JoinedPower(item, comma, base, t, j);
        assert ListOf(item, comma, base + j, low, top, w);
      }
      if k: nat :| ListOf(item, comma, k, low, top, w) {
        JoinedPower(item, comma, base, t, k - base);
        assert CatPower(head, l, k - base, lo, hi, w);
      }
    }
  }

  /** Zero items, or one and more. */
  lemma OneOrMore(l: Lang, comma: Lang, min: nat, max: Option<nat>)
    requires max.Some? ==> min <= max.value && max.value > 0
    ensures var more := Cat(l, Repeated(Cat(comma, l), if min == 0 then 0 else min - 1, Less(max, 1)));
            Lists(Same(l), comma, min, max) == if min == 0 then EPSILON + more else more
  {
    hide Cat, Repeated, Joined;
    var lo: nat := if min == 0 then 0 else min - 1;
    var first: nat := 1 + lo;
    JoinedOne(Same(l), comma);
    HeadAndMore(Same(l), comma, 1, l, lo, Less(max, 1), max);
    if min == 0 {
      forall w: Word ensures IsList(Same(l), comma, 0, max, w) <==> w == [] || IsList(Same(l), comma, first, max, w) {
        SplitFirst(Same(l), comma, max, w);
      }
    }
  }

  lemma JoinedOne(item: nat -> Lang, comma: Lang)
    ensures Joined(item, comma, 1) == item(0)
    ensures Joined(item, comma, 0) == EPSILON
  {}

  lemma SplitFirst(item: nat -> Lang, comma: Lang, max: Option<nat>, w: Word)
    ensures IsList(item, comma, 0, max, w) <==> w == [] || IsList(item, comma, 1, max, w)
  {
    hide Joined;
    JoinedOne(item, comma);
    assert ListOf(item, comma, 0, 0, max, w) <==> w == [];
    if k: nat :| ListOf(item, comma, k, 0, max, w) {
      if k > 0 { assert ListOf(item, comma, k, 1, max, w); }
    }
    if k: nat :| ListOf(item, comma, k, 1, max, w) { assert ListOf(item, comma, k, 0, max, w); }
  }

  /** Only the empty list. */
  lemma NoItems(item: nat -> Lang, comma: Lang)
    ensures Lists(item, comma, 0, Some(0)) == EPSILON
  {
    forall w: Word ensures IsList(item, comma, 0, Some(0), w) <==> w == [] {
      assert ListOf(item, comma, 0, 0, Some(0), w) <==> w == [];
    }
  }

  // --- arrays --------------------------------------------------------------------------------------------------------

  /** The list body inside the brackets of `compile_array_node`: exactly the comma-joined lists of between `min`
      and `max` items. */
  method ArrayBodyEngine(item: RefEngine, comma: RefEngine, empty: RefEngine, min: nat, max: Option<nat>)
    returns (r: Result<RefEngine>)
    requires item.Valid() && comma.Valid() && empty.Valid() && empty.Language() == EPSILON
    requires min <= Combine.U32_MAX && (max.Some? ==> min <= max.value <= Combine.U32_MAX)
    ensures r.Ok? ==> r.value.Valid() && r.value.Language() == Lists(Same(item.Language()), comma.Language(), min, max)
    ensures r.Err? ==> r.error == LimitExceeded
  {
    hide RefEngine.Valid, RefEngine.Language, Lists, Cat, Repeated;
    var commaItem := Combine.ConcatPair(comma, item);
    if commaItem.Err? { return commaItem; }
    if max == Some(0) {
      NoItems(Same(item.Language()), comma.Language());
      return Ok(empty);
    }
    OneOrMore(item.Language(), comma.Language(), min, max);
    if min == 0 {
      var tail := Combine.RepeatEngine(commaItem.value, 0, Less(max, 1));
      if tail.Err? { return tail; }
      var nonempty := Combine.ConcatPair(item, tail.value);
      if nonempty.Err? { return nonempty; }
      r := Combine.UnionPair(empty, nonempty.value);
    } else {
      var tail := Combine.RepeatEngine(commaItem.value, min - 1, Less(max, 1));
      if tail.Err? { return tail; }
      r := Combine.ConcatPair(item, tail.value);
    }
  }

  // --- array_body ------------------------------------------------------------------------------------------------------

  /** `(?:{element})`. */
  function Element(element: seq<Fragment>): Fragment {
    Fragment([Group(element)])
  }

  /** `(?:{c}{e})`. */
  function CommaElement(c: Fragment, e: Fragment): Item {
    Group([Then(c, e)])
  }

  function Optional(f: Fragment): Fragment {
    Fragment([Rep(Group([f]), 0, Some(1))])
  }

  /** `array_body`. */
  function ArrayBody(element: seq<Fragment>, c: Fragment, min: nat, max: Option<nat>): Fragment
    requires max.Some? ==> min <= max.value
  {
    var e := Element(element);
    if max == Some(0) then Fragment([])
    else if min == 0 then Optional(Then(e, Fragment([Rep(CommaElement(c, e), 0, Less(max, 1))])))
    else Then(e, Fragment([Rep(CommaElement(c, e), min - 1, Less(max, 1))]))
  }

  lemma RepeatedOptional(l: Lang)
    ensures Repeated(l, 0, Some(1)) == EPSILON + l
  {
    hide Cat, Power;
    PowerOne(l);
    PowerNone(l);
    forall w: Word ensures InRepeated(l, 0, Some(1), w) <==> w == [] || w in l {
      assert InPower(l, 0, Some(1), 0, w) <==> w == [];
      assert InPower(l, 0, Some(1), 1, w) <==> w in l;
      if k: nat :| InPower(l, 0, Some(1), k, w) { assert k == 0 || k == 1; }
    }
  }

  lemma PowerNone(l: Lang)
    ensures Power(l, 0) == EPSILON
  {}

  lemma OptionalDen(f: Fragment)
    ensures Den(Optional(f)) == EPSILON + Den(f)
  {
    hide Den, Cat, Repeated;
    DenOne(Rep(Group([f]), 0, Some(1)));
    assert DenItem(Group([f])) == DenAlts([f]) == Den(f);
    RepeatedOptional(Den(f));
  }

  lemma ElementDen(element: seq<Fragment>)
    ensures Den(Element(element)) == DenAlts(element)
  {
    DenOne(Group(element));
  }

  lemma CommaElementDen(c: Fragment, e: Fragment)
    ensures DenItem(CommaElement(c, e)) == Cat(Den(c), Den(e))
  {
    hide Cat, Then, Den;
    DenThen(c, e);
    GroupDen([Then(c, e)]);
    assert DenAlts([Then(c, e)]) == Den(Then(c, e));
  }

  /** The written body denotes the lists that the engine accepts. */
  lemma ArrayBodyDen(element: seq<Fragment>, c: Fragment, min: nat, max: Option<nat>)
    requires max.Some? ==> min <= max.value
    ensures Den(ArrayBody(element, c, min, max)) == Lists(Same(DenAlts(element)), Den(c), min, max)
  {
    hide Den, DenAlts, DenItem, Lists, Cat, Repeated, Element, CommaElement, Optional, Then;
    var l, e := DenAlts(element), Element(element);
    if max == Some(0) {
      NoItems(Same(l), Den(c));
      EmptyDen();
    } else {
      OneOrMore(l, Den(c), min, max);
      ElementDen(element);
      CommaElementDen(c, e);
      var rep := Rep(CommaElement(c, e), if min == 0 then 0 else min - 1, Less(max, 1));
      RepFragmentDen(CommaElement(c, e), if min == 0 then 0 else min - 1, Less(max, 1));
      DenThen(e, Fragment([rep]));
      OptionalDen(Then(e, Fragment([rep])));
    }
  }

  lemma EmptyDen()
    ensures Den(Fragment([])) == EPSILON
  {}

  // --- tuples ----------------------------------------------------------------------------------------------------------

  ghost predicate TupleOf(prefix: seq<Lang>, tail: Option<Lang>, comma: Lang, min: nat, max: Option<nat>, k: nat, w: Word) {
    && Within(k, min, max) && (tail.None? ==> k <= |prefix|)
    && w in Joined(Position(prefix, tail), comma, k)
  }

  ghost predicate IsTuple(prefix: seq<Lang>, tail: Option<Lang>, comma: Lang, min: nat, max: Option<nat>, w: Word) {
    exists k: nat :: TupleOf(prefix, tail, comma, min, max, k, w)
  }

  /** The tuples of between `min` and `max` items, no longer than the prefix when the tail is closed. */
  ghost function Tuples(prefix: seq<Lang>, tail: Option<Lang>, comma: Lang, min: nat, max: Option<nat>): Lang {
    iset w: Word | IsTuple(prefix, tail, comma, min, max, w)
  }

  /** What IR validation guarantees (ir.rs:978-1017). */
  ghost predicate Validated(n: nat, closed: bool, min: nat, max: Option<nat>) {
    n > 0 && (max.Some? ==> min <= max.value) && (closed ==> min <= n)
  }

  ghost function TailLang(tail: Option<RefEngine>): Option<Lang> {
    if tail.Some? then Some(tail.value.Language()) else None
  }

  ghost predicate AllValid(engines: seq<RefEngine>) {
    forall i :: 0 <= i < |engines| ==> engines[i].Valid()
  }

  ghost function Items(prefix: seq<RefEngine>, tail: Option<RefEngine>): nat -> Lang {
    Position(Combine.Langs(prefix), TailLang(tail))
  }

  lemma {:induction false} CatAllSnoc(ls: seq<Lang>, l: Lang)
    ensures CatAll(ls + [l]) == Cat(CatAll(ls), l)
  {
    hide Cat;
    if ls == [] {
      assert [] + [l] == [l] && [l][1..] == [];
      CatUnit(l);
      assert CatAll([l]) == Cat(l, CatAll([]));
    } else {
      assert (ls + [l])[1..] == ls[1..] + [l];
      CatAllSnoc(ls[1..], l);
      CatAssoc(ls[0], CatAll(ls[1..]), l);
    }
  }

  lemma LangsSnoc(engines: seq<RefEngine>, e: RefEngine)
    ensures Combine.Langs(engines + [e]) == Combine.Langs(engines) + [e.Language()]
  {
    hide RefEngine.Language;
  }

  /** The sequence spells the first `k` items with separators between them. */
  ghost predicate SpellsItems(sequence: seq<RefEngine>, item: nat -> Lang, comma: Lang, k: nat) {
    AllValid(sequence) && CatAll(Combine.Langs(sequence)) == Joined(item, comma, k)
  }

  lemma AppendFirst(item: nat -> Lang, comma: Lang, e: RefEngine)
    requires e.Valid() && e.Language() == item(0)
    ensures SpellsItems([e], item, comma, 1)
  {
    hide RefEngine.Valid, RefEngine.Language, Cat;
    LangsSnoc([], e);
    assert [] + [e] == [e] && Combine.Langs([]) == [];
    CatAllSnoc([], e.Language());
    CatUnit(e.Language());
    assert CatAll([]) == EPSILON;
  }

  lemma AppendItem(sequence: seq<RefEngine>, item: nat -> Lang, comma: RefEngine, k: nat, e: RefEngine)
    requires k > 0 && SpellsItems(sequence, item, comma.Language(), k)
    requires comma.Valid() && e.Valid() && e.Language() == item(k)
    ensures SpellsItems(sequence + [comma] + [e], item, comma.Language(), k + 1)
  {
    hide RefEngine.Valid, RefEngine.Language, Cat, CatAll;
    LangsSnoc(sequence, comma);
    LangsSnoc(sequence + [comma], e);
    var ls := Combine.Langs(sequence);
    CatAllSnoc(ls, comma.Language());
    CatAllSnoc(ls + [comma.Language()], e.Language());
    CatAssoc(CatAll(ls), comma.Language(), e.Language());
    JoinedStep(item, comma.Language(), k + 1);
  }

  lemma ItemIs(prefix: seq<RefEngine>, tail: Option<RefEngine>, i: nat)
    ensures i < |prefix| ==> Items(prefix, tail)(i) == prefix[i].Language()
    ensures i >= |prefix| && tail.Some? ==> Items(prefix, tail)(i) == tail.value.Language()
  {}

  /** `tuple_exact_engine`: exactly `count` items; a count past a closed tail is malformed. */
  method TupleExactEngine(prefix: seq<RefEngine>, tail: Option<RefEngine>, comma: RefEngine, empty: RefEngine, count: nat)
    returns (r: Result<RefEngine>)
    requires AllValid(prefix) && (tail.Some? ==> tail.value.Valid()) && comma.Valid()
    requires empty.Valid() && empty.Language() == EPSILON
    ensures r == Err(Malformed) <==> tail.None? && count > |prefix|
    ensures r.Ok? ==> r.value.Valid() && r.value.Language() == Joined(Items(prefix, tail), comma.Language(), count)
    ensures r.Err? ==> r.error == Malformed || r.error == LimitExceeded
  {
    hide RefEngine.Valid, RefEngine.Language, CatAll, SpellsItems, Joined, Items;
    var items := Items(prefix, tail);
    JoinedOne(items, comma.Language());
    if count == 0 { return Ok(empty); }
    var sequence: seq<RefEngine> := [];
    for index := 0 to count
      invariant tail.None? ==> index <= |prefix|
      invariant if index == 0 then sequence == [] else SpellsItems(sequence, items, comma.Language(), index)
    {
      if index >= |prefix| && tail.None? { return Err(Malformed); }
      var item := if index < |prefix| then prefix[index] else tail.value;
      ItemIs(prefix, tail, index);
      if index > 0 {
        AppendItem(sequence, items, comma, index, item);
        sequence := sequence + [comma] + [item];
      } else {
        AppendFirst(items, comma.Language(), item);
        sequence := [item];
      }
    }
    SpellsAre(sequence, items, comma.Language(), count);
    r := Combine.ConcatEngine(sequence);
  }

  lemma SpellsAre(sequence: seq<RefEngine>, item: nat -> Lang, comma: Lang, k: nat)
    requires SpellsItems(sequence, item, comma, k)
    ensures forall i :: 0 <= i < |sequence| ==> sequence[i].Valid()
    ensures CatAll(Combine.Langs(sequence)) == Joined(item, comma, k)
  {}

  // --- alternatives over lengths -----------------------------------------------------------------------------------------

  ghost predicate LengthBetween(item: nat -> Lang, comma: Lang, lo: nat, hi: nat, w: Word, k: nat) {
    lo <= k < hi && w in Joined(item, comma, k)
  }

  /** The alternatives cover exactly the lengths from `lo` up to but not including `hi`. */
  ghost predicate Covers(ls: seq<Lang>, item: nat -> Lang, comma: Lang, lo: nat, hi: nat) {
    forall w: Word :: InUnion(ls, w) <==> exists k: nat :: LengthBetween(item, comma, lo, hi, w, k)
  }

  lemma CoversNone(item: nat -> Lang, comma: Lang, lo: nat)
    ensures Covers([], item, comma, lo, lo)
  {}

  lemma UnionSnoc(ls: seq<Lang>, l: Lang, w: Word)
    ensures InUnion(ls + [l], w) <==> InUnion(ls, w) || w in l
  {
    if i: nat :| InSome(ls, i, w) { assert InSome(ls + [l], i, w); }
    if w in l { assert InSome(ls + [l], |ls|, w); }
    if i: nat :| InSome(ls + [l], i, w) {
      if i < |ls| { assert InSome(ls, i, w); }
    }
  }

  lemma CoversMore(ls: seq<Lang>, item: nat -> Lang, comma: Lang, lo: nat, hi: nat)
    requires lo <= hi && Covers(ls, item, comma, lo, hi)
    ensures Covers(ls + [Joined(item, comma, hi)], item, comma, lo, hi + 1)
  {
    hide Joined, InUnion;
    var next: nat := hi + 1;
    forall w: Word
      ensures InUnion(ls + [Joined(item, comma, hi)], w) <==> exists k: nat :: LengthBetween(item, comma, lo, next, w, k)
    {
      UnionSnoc(ls, Joined(item, comma, hi), w);
      if k: nat :| LengthBetween(item, comma, lo, hi, w, k) { assert LengthBetween(item, comma, lo, next, w, k); }
      if w in Joined(item, comma, hi) { assert LengthBetween(item, comma, lo, next, w, hi); }
      if k: nat :| LengthBetween(item, comma, lo, next, w, k) {
        if k < hi { assert LengthBetween(item, comma, lo, hi, w, k); }
      }
    }
  }

  /** Lengths up to the limit are the whole tuple language when nothing longer is allowed. */
  lemma CoversBounded(ls: seq<Lang>, prefix: seq<Lang>, tail: Option<Lang>, comma: Lang, min: nat, max: Option<nat>, hi: nat)
    requires Covers(ls, Position(prefix, tail), comma, min, hi)
    requires forall k: nat :: k < hi && min <= k <==> Within(k, min, max) && (tail.None? ==> k <= |prefix|)
    ensures UnionAll(ls) == Tuples(prefix, tail, comma, min, max)
  {
    hide Joined, InUnion, Within;
    var item := Position(prefix, tail);
    forall w: Word ensures InUnion(ls, w) <==> IsTuple(prefix, tail, comma, min, max, w) {
      if k: nat :| LengthBetween(item, comma, min, hi, w, k) {
        assert Within(k, min, max);
        assert TupleOf(prefix, tail, comma, min, max, k, w);
      }
      if k: nat :| TupleOf(prefix, tail, comma, min, max, k, w) { assert LengthBetween(item, comma, min, hi, w, k); }
    }
  }

  /** Lengths below `hi`, then a full head with `lo` or more tails: together every length within the bounds. */
  lemma CoversAndMore(ls: seq<Lang>, prefix: seq<Lang>, t: Lang, comma: Lang, min: nat, max: Option<nat>, hi: nat,
                      base: nat, lo: nat, top: Option<nat>)
    requires base > 0 && base >= |prefix| && Covers(ls, Position(prefix, Some(t)), comma, min, hi)
    requires max == if top.Some? then Some(base + top.value) else None
    requires min <= base + lo && (base + lo <= hi || min == base + lo) && (max.Some? ==> hi <= max.value + 1)
    ensures UnionAll(ls + [Cat(Joined(Position(prefix, Some(t)), comma, base), Repeated(Cat(comma, t), lo, top))])
            == Tuples(prefix, Some(t), comma, min, max)
  {
    hide Joined, InUnion, Cat, Repeated, Lists;
    var item := Position(prefix, Some(t));
    var more := Cat(Joined(item, comma, base), Repeated(Cat(comma, t), lo, top));
    HeadAndMore(item, comma, base, t, lo, top, max);
    forall w: Word ensures InUnion(ls + [more], w) <==> IsTuple(prefix, Some(t), comma, min, max, w) {
      UnionSnoc(ls, more, w);
      LengthsMeet(ls, prefix, t, comma, min, max, hi, base + lo, w);
    }
  }

  lemma LengthsMeet(ls: seq<Lang>, prefix: seq<Lang>, t: Lang, comma: Lang, min: nat, max: Option<nat>, hi: nat,
                    low: nat, w: Word)
    requires Covers(ls, Position(prefix, Some(t)), comma, min, hi)
    requires min <= low && (low <= hi || min == low) && (max.Some? ==> hi <= max.value + 1)
    ensures InUnion(ls, w) || w in Lists(Position(prefix, Some(t)), comma, low, max)
            <==> IsTuple(prefix, Some(t), comma, min, max, w)
  {
    hide Joined, InUnion;
    var item := Position(prefix, Some(t));
    if k: nat :| LengthBetween(item, comma, min, hi, w, k) { assert TupleOf(prefix, Some(t), comma, min, max, k, w); }
    if k: nat :| ListOf(item, comma, k, low, max, w) { assert TupleOf(prefix, Some(t), comma, min, max, k, w); }
    if k: nat :| TupleOf(prefix, Some(t), comma, min, max, k, w) {
      assert if k >= low then ListOf(item, comma, k, low, max, w) else LengthBetween(item, comma, min, hi, w, k);
    }
  }

  // --- tuple_body_engine -------------------------------------------------------------------------------------------------

  /** The longest length that gets an alternative of its own. */
  function FiniteUpper(n: nat, open: bool, max: Option<nat>): nat {
    var upper := if max.Some? then max.value else n;
    if open || upper <= n then upper else n
  }

  /** One alternative for each length. */
  method ExactAlternatives(prefix: seq<RefEngine>, tail: Option<RefEngine>, comma: RefEngine, empty: RefEngine,
                           min: nat, upper: nat)
    returns (r: Result<seq<RefEngine>>)
    requires AllValid(prefix) && (tail.Some? ==> tail.value.Valid()) && comma.Valid()
    requires empty.Valid() && empty.Language() == EPSILON
    requires tail.None? ==> upper <= |prefix|
    ensures r.Err? ==> r.error == LimitExceeded
    ensures r.Ok? ==> AllValid(r.value)
    ensures r.Ok? ==> Covers(Combine.Langs(r.value), Items(prefix, tail), comma.Language(), min,
                             if min <= upper + 1 then upper + 1 else min)
  {
    hide RefEngine.Valid, RefEngine.Language, Covers, Items, Joined, AllValid;
    var items := Items(prefix, tail);
    var alternatives: seq<RefEngine> := [];
    NoneValid();
    CoversNone(items, comma.Language(), min);
    var stop := if min <= upper + 1 then upper + 1 else min;
    for count := min to stop
      invariant AllValid(alternatives) && Covers(Combine.Langs(alternatives), items, comma.Language(), min, count)
    {
      var exact := TupleExactEngine(prefix, tail, comma, empty, count);
      if exact.Err? { return Err(exact.error); }
      CoversMore(Combine.Langs(alternatives), items, comma.Language(), min, count);
      LangsSnoc(alternatives, exact.value);
      ValidSnoc(alternatives, exact.value);
      alternatives := alternatives + [exact.value];
    }
    r := Ok(alternatives);
  }

  lemma NoneValid()
    ensures AllValid([]) && Combine.Langs([]) == []
  {}

  lemma ValidSnoc(engines: seq<RefEngine>, e: RefEngine)
    requires AllValid(engines) && e.Valid()
    ensures AllValid(engines + [e])
  {
    hide RefEngine.Valid;
  }

  ghost function OpenLang(prefix: seq<RefEngine>, tail: RefEngine, comma: RefEngine, base: nat): Lang {
    Cat(Joined(Items(prefix, Some(tail)), comma.Language(), base), Repeated(Cat(comma.Language(), tail.Language()), 0, None))
  }

  /** Every longer length at once: a full head, then any number of tails. */
  method OpenAlternative(prefix: seq<RefEngine>, tail: RefEngine, comma: RefEngine, empty: RefEngine, base: nat)
    returns (r: Result<RefEngine>)
    requires AllValid(prefix) && tail.Valid() && comma.Valid() && empty.Valid() && empty.Language() == EPSILON
    ensures r.Err? ==> r.error == LimitExceeded
    ensures r.Ok? ==> r.value.Valid()
    ensures r.Ok? ==> r.value.Language() == OpenLang(prefix, tail, comma, base)
  {
    hide RefEngine.Valid, RefEngine.Language, Items, Joined, Cat, Repeated, AllValid;
    var head := TupleExactEngine(prefix, Some(tail), comma, empty, base);
    if head.Err? { return head; }
    var commaTail := Combine.ConcatPair(comma, tail);
    if commaTail.Err? { return commaTail; }
    var rest := Combine.RepeatEngine(commaTail.value, 0, None);
    if rest.Err? { return rest; }
    r := Combine.ConcatPair(head.value, rest.value);
  }

  lemma AllAre(engines: seq<RefEngine>)
    requires AllValid(engines)
    ensures forall i :: 0 <= i < |engines| ==> engines[i].Valid()
  {}

  lemma ItemsArePositions(prefix: seq<RefEngine>, tail: Option<RefEngine>)
    ensures Items(prefix, tail) == Position(Combine.Langs(prefix), TailLang(tail))
    ensures |Combine.Langs(prefix)| == |prefix|
  {}

  /** `tuple_body_engine`: exactly the declared tuples, given what validation guarantees. */
  method TupleBodyEngine(prefix: seq<RefEngine>, tail: Option<RefEngine>, comma: RefEngine, empty: RefEngine,
                         min: nat, max: Option<nat>)
    returns (r: Result<RefEngine>)
    requires AllValid(prefix) && (tail.Some? ==> tail.value.Valid()) && comma.Valid()
    requires empty.Valid() && empty.Language() == EPSILON
    requires Validated(|prefix|, tail.None?, min, max)
    ensures r.Ok? ==> r.value.Valid()
    ensures r.Ok? ==> r.value.Language() == Tuples(Combine.Langs(prefix), TailLang(tail), comma.Language(), min, max)
    ensures r.Err? ==> r.error == LimitExceeded
  {
    hide RefEngine.Valid, RefEngine.Language, Covers, Joined, Cat, Repeated, Tuples, UnionAll, AllValid, Items, Position;
    var n := |prefix|;
    var upper := FiniteUpper(n, tail.Some?, max);
    var exact := ExactAlternatives(prefix, tail, comma, empty, min, upper);
    if exact.Err? { return Err(exact.error); }
    var alternatives := exact.value;
    ItemsArePositions(prefix, tail);
    ghost var ls, hi := Combine.Langs(alternatives), if min <= upper + 1 then upper + 1 else min;
    if max.None? && tail.Some? {
      var base := if min >= n then min else n;
      var open := OpenAlternative(prefix, tail.value, comma, empty, base);
      if open.Err? { return open; }
      CoversAndMore(ls, Combine.Langs(prefix), tail.value.Language(), comma.Language(), min, max, hi, base, 0, None);
      LangsSnoc(alternatives, open.value);
      ValidSnoc(alternatives, open.value);
      alternatives := alternatives + [open.value];
    } else {
      CoversBounded(ls, Combine.Langs(prefix), TailLang(tail), comma.Language(), min, max, hi);
    }
    AllAre(alternatives);
    r := Combine.UnionEngine(alternatives);
  }

  // --- tuple_body --------------------------------------------------------------------------------------------------------

  ghost function ElementLangs(elems: seq<seq<Fragment>>): seq<Lang> {
    seq(|elems|, i requires 0 <= i < |elems| => DenAlts(elems[i]))
  }

  ghost function TextTail(tail: Option<seq<Fragment>>): Option<Lang> {
    if tail.Some? then Some(DenAlts(tail.value)) else None
  }

  ghost function TextItems(elems: seq<seq<Fragment>>, tail: Option<seq<Fragment>>): nat -> Lang {
    Position(ElementLangs(elems), TextTail(tail))
  }

  /** `at(i)`: the element, or the tail past the prefix. */
  function At(elems: seq<seq<Fragment>>, tail: Option<seq<Fragment>>, i: nat): Fragment {
    if i < |elems| then Element(elems[i]) else if tail.Some? then Element(tail.value) else Element([Fragment([])])
  }

  /** `join(k)`. */
  function JoinText(elems: seq<seq<Fragment>>, tail: Option<seq<Fragment>>, c: Fragment, k: nat): Fragment {
    if k == 0 then Fragment([])
    else if k == 1 then At(elems, tail, 0)
    else Then(JoinText(elems, tail, c, k - 1), Then(c, At(elems, tail, k - 1)))
  }

  lemma AtDen(elems: seq<seq<Fragment>>, tail: Option<seq<Fragment>>, i: nat)
    requires tail.None? ==> i < |elems|
    ensures Den(At(elems, tail, i)) == TextItems(elems, tail)(i)
  {
    hide Den, DenAlts, Element;
    ElementDen(if i < |elems| then elems[i] else tail.value);
  }

  lemma {:induction false} JoinTextDen(elems: seq<seq<Fragment>>, tail: Option<seq<Fragment>>, c: Fragment, k: nat)
    requires tail.None? ==> k <= |elems|
    ensures Den(JoinText(elems, tail, c, k)) == Joined(TextItems(elems, tail), Den(c), k)
  {
    hide Den, Then, Cat, At, TextItems;
    if k == 0 {
      EmptyDen();
    } else {
      AtDen(elems, tail, k - 1);
      if k > 1 {
        JoinTextDen(elems, tail, c, k - 1);
        DenThen(c, At(elems, tail, k - 1));
        DenThen(JoinText(elems, tail, c, k - 1), Then(c, At(elems, tail, k - 1)));
      }
    }
  }

  ghost function Dens(alts: seq<Fragment>): seq<Lang> {
    seq(|alts|, i requires 0 <= i < |alts| => Den(alts[i]))
  }

  lemma DensUnion(alts: seq<Fragment>)
    requires alts != []
    ensures DenAlts(alts) == UnionAll(Dens(alts))
  {
    hide Den, DenAlts;
    forall w: Word ensures w in DenAlts(alts) <==> InUnion(Dens(alts), w) {
      DenAltsAny(alts, w);
      if i: nat :| AltHas(alts, i, w) { assert InSome(Dens(alts), i, w); }
      if i: nat :| InSome(Dens(alts), i, w) { assert AltHas(alts, i, w); }
    }
  }

  lemma DensSnoc(alts: seq<Fragment>, f: Fragment)
    ensures Dens(alts + [f]) == Dens(alts) + [Den(f)]
  {
    hide Den;
  }

  /** The lengths from `min` below `stop`, one alternative each. */
  method JoinAlternatives(elems: seq<seq<Fragment>>, tail: Option<seq<Fragment>>, c: Fragment, min: nat, stop: nat)
    returns (alts: seq<Fragment>)
    requires tail.None? ==> stop <= |elems| + 1
    ensures min <= stop ==> |alts| == stop - min
    ensures Covers(Dens(alts), TextItems(elems, tail), Den(c), min, if min <= stop then stop else min)
  {
    hide Den, Covers, JoinText, TextItems, Joined;
    alts := [];
    NoDens();
    CoversNone(TextItems(elems, tail), Den(c), min);
    for k := min to if min <= stop then stop else min
      invariant |alts| == k - min && Covers(Dens(alts), TextItems(elems, tail), Den(c), min, k)
    {
      JoinTextDen(elems, tail, c, k);
      CoversMore(Dens(alts), TextItems(elems, tail), Den(c), min, k);
      DensSnoc(alts, JoinText(elems, tail, c, k));
      alts := alts + [JoinText(elems, tail, c, k)];
    }
  }

  lemma NoDens()
    ensures Dens([]) == []
  {}

  /** The full prefix, then the tail between `lo` and `hi` more times. */
  function TailText(elems: seq<seq<Fragment>>, tail: seq<Fragment>, c: Fragment, lo: nat, hi: Option<nat>): Fragment {
    var head := JoinText(elems, Some(tail), c, |elems|);
    if hi == Some(0) then head else Then(head, Fragment([Rep(CommaElement(c, Element(tail)), lo, hi)]))
  }

  lemma TailTextDen(elems: seq<seq<Fragment>>, tail: seq<Fragment>, c: Fragment, lo: nat, hi: Option<nat>)
    requires hi == Some(0) ==> lo == 0
    ensures Den(TailText(elems, tail, c, lo, hi)) ==
            Cat(Joined(TextItems(elems, Some(tail)), Den(c), |elems|), Repeated(Cat(Den(c), DenAlts(tail)), lo, hi))
  {
    hide Den, DenAlts, DenItem, Then, Cat, JoinText, TextItems, Joined, Repeated, CommaElement, Element;
    var head, e := JoinText(elems, Some(tail), c, |elems|), Element(tail);
    JoinTextDen(elems, Some(tail), c, |elems|);
    if hi == Some(0) {
      RepeatedNone(Cat(Den(c), DenAlts(tail)));
      CatUnit(Joined(TextItems(elems, Some(tail)), Den(c), |elems|));
    } else {
      ElementDen(tail);
      CommaElementDen(c, e);
      RepFragmentDen(CommaElement(c, e), lo, hi);
      DenThen(head, Fragment([Rep(CommaElement(c, e), lo, hi)]));
    }
  }

  lemma RepeatedNone(l: Lang)
    ensures Repeated(l, 0, Some(0)) == EPSILON
  {
    hide Power;
    PowerNone(l);
    forall w: Word ensures InRepeated(l, 0, Some(0), w) <==> w == [] {
      assert InPower(l, 0, Some(0), 0, w) <==> w == [];
      if k: nat :| InPower(l, 0, Some(0), k, w) { assert k == 0; }
    }
  }

  /** `tuple_body`: the written body denotes the declared tuples, so what the engine accepts. */
  method TupleBody(elems: seq<seq<Fragment>>, tail: Option<seq<Fragment>>, c: Fragment, min: nat, max: Option<nat>)
    returns (f: Fragment)
    requires Validated(|elems|, tail.None?, min, max)
    ensures Den(f) == Tuples(ElementLangs(elems), TextTail(tail), Den(c), min, max)
  {
    hide Den, DenAlts, Covers, Joined, Cat, Repeated, Tuples, JoinText, TailText, TextItems, Position;
    var n := |elems|;
    ghost var ls: seq<Lang>;
    var alts: seq<Fragment>;
    TextItemsArePositions(elems, tail);
    if tail.None? || (max.Some? && max.value < n) {
      var hi := if max.Some? && max.value <= n then max.value else n;
      alts := JoinAlternatives(elems, tail, c, min, hi + 1);
      CoversBounded(Dens(alts), ElementLangs(elems), TextTail(tail), Den(c), min, max, hi + 1);
    } else {
      alts := JoinAlternatives(elems, tail, c, min, n);
      var lo := if min >= n then min - n else 0;
      var top := Less(max, n);
      var last := TailText(elems, tail.value, c, lo, top);
      TailTextDen(elems, tail.value, c, lo, top);
      CoversAndMore(Dens(alts), ElementLangs(elems), DenAlts(tail.value), Den(c), min, max,
                    if min <= n then n else min, n, lo, top);
      DensSnoc(alts, last);
      alts := alts + [last];
    }
    DensUnion(alts);
    f := Fragment([Group(alts)]);
    DenOne(Group(alts));
    GroupDen(alts);
  }

  lemma TextItemsArePositions(elems: seq<seq<Fragment>>, tail: Option<seq<Fragment>>)
    ensures TextItems(elems, tail) == Position(ElementLangs(elems), TextTail(tail)) && |ElementLangs(elems)| == |elems|
  {}
}
