/** Regular expressions in the shape of their text: a fragment has no bar at its top level, a group holds
    the bar-separated alternatives. Building text out of these pieces therefore cannot lose a pair of
    parentheses, and what remains to prove is what the text denotes. */
module RegexText {
  import opened Outcome
  import opened Languages

  datatype Item =
    | Class(lo: Byte, hi: Byte)                           // one byte, or a byte range
    | Nothing                                             // the negated class of all bytes
    | Group(alts: seq<Fragment>)                          // (?:a|b|...)
    | Rep(item: Item, min: nat, max: Option<nat>)         // {min,max}, *, ?

  datatype Fragment = Fragment(items: seq<Item>)

  /** Alternatives joined by bars. Joining none yields the empty text, which matches the empty word. */
  ghost function DenAlts(alts: seq<Fragment>): Lang {
    if alts == [] then EPSILON
    else if |alts| == 1 then Den(alts[0])
    else Den(alts[0]) + DenAlts(alts[1..])
  }

  ghost function Den(f: Fragment): Lang {
    DenItems(f.items)
  }

  ghost function DenItems(items: seq<Item>): Lang {
    if items == [] then EPSILON else Cat(DenItem(items[0]), DenItems(items[1..]))
  }

  ghost function DenItem(i: Item): Lang {
    match i
    case Class(lo, hi) => iset w: Word | |w| == 1 && lo <= w[0] <= hi
    case Nothing => NOTHING
    case Group(alts) => DenAlts(alts)
    case Rep(x, min, max) => Repeated(DenItem(x), min, max)
  }

  function Then(f: Fragment, g: Fragment): Fragment {
    Fragment(f.items + g.items)
  }

  lemma {:induction false} DenItemsJoin(a: seq<Item>, b: seq<Item>)
    ensures DenItems(a + b) == Cat(DenItems(a), DenItems(b))
  {
    if a == [] {
      assert a + b == b;
      CatUnit(DenItems(b));
    } else {
      assert (a + b)[1..] == a[1..] + b;
      DenItemsJoin(a[1..], b);
      CatAssoc(DenItem(a[0]), DenItems(a[1..]), DenItems(b));
    }
  }

  /** Writing one fragment after another concatenates. */
  lemma DenThen(f: Fragment, g: Fragment)
    ensures Den(Then(f, g)) == Cat(Den(f), Den(g))
  {
    DenItemsJoin(f.items, g.items);
  }

  lemma DenOne(i: Item)
    ensures Den(Fragment([i])) == DenItem(i)
  {
    assert DenItems([i][1..]) == EPSILON;
    CatUnit(DenItem(i));
  }

  lemma GroupDen(alts: seq<Fragment>)
    ensures DenItem(Group(alts)) == DenAlts(alts)
  {}

  lemma RepDen(i: Item, lo: nat, hi: Option<nat>)
    ensures DenItem(Rep(i, lo, hi)) == Repeated(DenItem(i), lo, hi)
  {}

  lemma RepFragmentDen(i: Item, lo: nat, hi: Option<nat>)
    ensures Den(Fragment([Rep(i, lo, hi)])) == Repeated(DenItem(i), lo, hi)
  {
    DenOne(Rep(i, lo, hi));
  }

  ghost predicate AltHas(alts: seq<Fragment>, i: nat, w: Word) {
    i < |alts| && w in Den(alts[i])
  }

  /** A word matches an alternation exactly when it matches one of the alternatives. */
  lemma {:induction false} DenAltsAny(alts: seq<Fragment>, w: Word)
    requires alts != []
    ensures w in DenAlts(alts) <==> exists i: nat :: AltHas(alts, i, w)
  {
    if |alts| == 1 {
      assert AltHas(alts, 0, w) <==> w in Den(alts[0]);
    } else {
      DenAltsAny(alts[1..], w);
      if i: nat :| AltHas(alts[1..], i, w) { assert AltHas(alts, i + 1, w); }
      if i: nat :| AltHas(alts, i, w) {
        if i > 0 { assert AltHas(alts[1..], i - 1, w); }
      }
      if w in Den(alts[0]) { assert AltHas(alts, 0, w); }
    }
  }

  lemma {:induction false} DenAltsSnoc(alts: seq<Fragment>, f: Fragment)
    requires alts != []
    ensures DenAlts(alts + [f]) == DenAlts(alts) + Den(f)
  {
    if |alts| > 1 {
      assert (alts + [f])[1..] == alts[1..] + [f];
      DenAltsSnoc(alts[1..], f);
    } else {
      assert (alts + [f])[1..] == [f];
    }
  }
}
