/** Byte languages: what every automaton and every regular expression of the project denotes. */
module Languages {
  import opened Outcome

  type Byte = b: int | 0 <= b < 256
  type Word = seq<Byte>
  type Lang = iset<Word>

  ghost const NOTHING: Lang := iset{}
  ghost const EPSILON: Lang := iset{[]}

  ghost predicate Splits(w: Word, i: int, a: Lang, b: Lang) {
    0 <= i <= |w| && w[..i] in a && w[i..] in b
  }

  ghost predicate InCat(a: Lang, b: Lang, w: Word) {
    exists i :: Splits(w, i, a, b)
  }

  /** Concatenation of two languages. */
  ghost function Cat(a: Lang, b: Lang): Lang {
    iset w: Word | InCat(a, b, w)
  }

  lemma CatIntro(a: Lang, b: Lang, u: Word, v: Word)
    requires u in a && v in b
    ensures u + v in Cat(a, b)
  {
    assert (u + v)[..|u|] == u && (u + v)[|u|..] == v;
    assert Splits(u + v, |u|, a, b);
  }

  lemma CatElim(a: Lang, b: Lang, w: Word) returns (u: Word, v: Word)
    requires w in Cat(a, b)
    ensures w == u + v && u in a && v in b
  {
    var i :| Splits(w, i, a, b);
    u, v := w[..i], w[i..];
  }

  lemma CatUnit(a: Lang)
    ensures Cat(a, EPSILON) == a && Cat(EPSILON, a) == a
  {
    forall w: Word ensures w in Cat(a, EPSILON) <==> w in a {
      if w in a { CatIntro(a, EPSILON, w, []); assert w + [] == w; }
      if w in Cat(a, EPSILON) { var u, v := CatElim(a, EPSILON, w); assert w == u; }
    }
    forall w: Word ensures w in Cat(EPSILON, a) <==> w in a {
      if w in a { CatIntro(EPSILON, a, [], w); assert [] + w == w; }
      if w in Cat(EPSILON, a) { var u, v := CatElim(EPSILON, a, w); assert w == v; }
    }
  }

  lemma CatAssoc(a: Lang, b: Lang, c: Lang)
    ensures Cat(Cat(a, b), c) == Cat(a, Cat(b, c))
  {
    forall w: Word ensures w in Cat(Cat(a, b), c) <==> w in Cat(a, Cat(b, c)) {
      if w in Cat(Cat(a, b), c) {
        var uv, x := CatElim(Cat(a, b), c, w);
        var u, v := CatElim(a, b, uv);
        CatIntro(b, c, v, x);
        CatIntro(a, Cat(b, c), u, v + x);
        assert w == u + (v + x);
      }
      if w in Cat(a, Cat(b, c)) {
        var u, vx := CatElim(a, Cat(b, c), w);
        var v, x := CatElim(b, c, vx);
        CatIntro(a, b, u, v);
        CatIntro(Cat(a, b), c, u + v, x);
        assert w == (u + v) + x;
      }
    }
  }

  ghost function Power(l: Lang, k: nat): Lang {
    if k == 0 then EPSILON else Cat(l, Power(l, k - 1))
  }

  lemma {:induction false} PowerSum(l: Lang, j: nat, k: nat)
    ensures Cat(Power(l, j), Power(l, k)) == Power(l, j + k)
  {
    if j == 0 {
      CatUnit(Power(l, k));
    } else {
      CatAssoc(l, Power(l, j - 1), Power(l, k));
      PowerSum(l, j - 1, k);
    }
  }

  ghost predicate Within(k: nat, min: nat, max: Option<nat>) {
    min <= k && (max.Some? ==> k <= max.value)
  }

  ghost predicate InPower(l: Lang, min: nat, max: Option<nat>, k: nat, w: Word) {
    Within(k, min, max) && w in Power(l, k)
  }

  ghost predicate InRepeated(l: Lang, min: nat, max: Option<nat>, w: Word) {
    exists k: nat :: InPower(l, min, max, k, w)
  }

  /** Between `min` and `max` repetitions; no upper bound when `max` is absent. */
  ghost function Repeated(l: Lang, min: nat, max: Option<nat>): Lang {
    iset w: Word | InRepeated(l, min, max, w)
  }

  ghost function Star(l: Lang): Lang {
    Repeated(l, 0, None)
  }

  lemma StarIntro(l: Lang, k: nat, w: Word)
    requires w in Power(l, k)
    ensures w in Star(l)
  {
    assert InPower(l, 0, None, k, w);
  }

  ghost predicate InSome(ls: seq<Lang>, i: nat, w: Word) {
    i < |ls| && w in ls[i]
  }

  ghost predicate InUnion(ls: seq<Lang>, w: Word) {
    exists i: nat :: InSome(ls, i, w)
  }

  ghost function UnionAll(ls: seq<Lang>): Lang {
    iset w: Word | InUnion(ls, w)
  }

  ghost function CatAll(ls: seq<Lang>): Lang {
    if ls == [] then EPSILON else Cat(ls[0], CatAll(ls[1..]))
  }

  /** The words of `l` other than the empty one. */
  ghost function NonEmpty(l: Lang): Lang {
    iset w: Word | w in l && w != []
  }

  lemma CatNothing(a: Lang)
    ensures Cat(a, NOTHING) == NOTHING && Cat(NOTHING, a) == NOTHING
  {
    forall w: Word ensures w !in Cat(a, NOTHING) && w !in Cat(NOTHING, a) {}
  }
}
