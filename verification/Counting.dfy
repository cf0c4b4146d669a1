/** How many words a language has, with everything from 2^64 - 1 up collapsed to that cap. */
module Counting {
  import opened Languages
  import Finite

  const U64_MAX: nat := 0xFFFF_FFFF_FFFF_FFFF

  ghost predicate Inside(s: set<Word>, l: Lang) {
    forall w :: w in s ==> w in l
  }

  ghost predicate Exactly(s: set<Word>, l: Lang) {
    forall w :: w in s <==> w in l
  }

  ghost predicate HasExactly(l: Lang, n: nat) {
    exists s: set<Word> :: Exactly(s, l) && |s| == n
  }

  ghost predicate HasAtLeast(l: Lang, n: nat) {
    exists s: set<Word> :: Inside(s, l) && |s| == n
  }

  /** `c` is min(number of words of `l`, U64_MAX). */
  ghost predicate Counts(l: Lang, c: nat) {
    if c < U64_MAX then HasExactly(l, c) else c == U64_MAX && HasAtLeast(l, U64_MAX)
  }

  function SaturatingAdd(a: nat, b: nat): nat {
    if a + b > U64_MAX then U64_MAX else a + b
  }

  function SaturatingMul(a: nat, b: nat): nat {
    if a * b > U64_MAX then U64_MAX else a * b
  }

  lemma {:induction false} Subset(s: set<Word>, n: nat) returns (t: set<Word>)
    requires n <= |s|
    ensures t <= s && |t| == n
  {
    if n == |s| {
      t := s;
    } else {
      var x :| x in s;
      t := Subset(s - {x}, n);
    }
  }

  lemma BothExactly(s: set<Word>, a: Lang, t: set<Word>, b: Lang)
    requires Exactly(s, a) && Exactly(t, b)
    ensures Exactly(s + t, a + b)
  {}

  lemma DisjointSize(s: set<Word>, t: set<Word>)
    requires forall w :: w in s ==> w !in t
    ensures |s + t| == |s| + |t|
  {
    assert s !! t;
  }

  /** The cap is never exceeded by a finite count that the sum of two counts reaches. */
  lemma CountsUnion(a: Lang, b: Lang, m: nat, n: nat)
    requires Counts(a, m) && Counts(b, n)
    requires forall w :: w in a ==> w !in b
    ensures Counts(a + b, SaturatingAdd(m, n))
  {
    var s: set<Word> :| (if m < U64_MAX then Exactly(s, a) else Inside(s, a)) && |s| == m;
    var t: set<Word> :| (if n < U64_MAX then Exactly(t, b) else Inside(t, b)) && |t| == n;
    DisjointSize(s, t);
    if m + n < U64_MAX {
      BothExactly(s, a, t, b);
    } else {
      var u := Subset(s + t, U64_MAX);
      assert Inside(u, a + b);
    }
  }

  ghost function Prefixed(b: Byte, l: Lang): Lang {
    iset w: Word | w != [] && w[0] == b && w[1..] in l
  }

  lemma {:induction false} PrefixedSet(b: Byte, s: set<Word>) returns (t: set<Word>)
    ensures |t| == |s|
    ensures forall w: Word :: w in t <==> w != [] && w[0] == b && w[1..] in s
  {
    if s == {} {
      t := {};
    } else {
      var x :| x in s;
      var u := PrefixedSet(b, s - {x});
      t := u + {[b] + x};
      assert ([b] + x)[1..] == x;
      forall w: Word ensures w in t <==> w != [] && w[0] == b && w[1..] in s {
        if w != [] && w[0] == b && w[1..] == x { assert w == [b] + x; }
      }
    }
  }

  lemma CountsPrefixed(b: Byte, l: Lang, n: nat)
    requires Counts(l, n)
    ensures Counts(Prefixed(b, l), n)
  {
    if n < U64_MAX {
      var s: set<Word> :| Exactly(s, l) && |s| == n;
      var t := PrefixedSet(b, s);
      assert Exactly(t, Prefixed(b, l));
    } else {
      var s: set<Word> :| Inside(s, l) && |s| == n;
      var t := PrefixedSet(b, s);
      assert Inside(t, Prefixed(b, l));
    }
  }

  ghost function PrefixedAny(bs: seq<Byte>, l: Lang): Lang {
    iset w: Word | w != [] && w[0] in bs && w[1..] in l
  }

  lemma CountsNothing()
    ensures Counts(NOTHING, 0)
  {
    assert Exactly({}, NOTHING);
  }

  lemma SaturatingMulStep(n: nat, k: nat)
    requires n <= U64_MAX
    ensures SaturatingAdd(SaturatingMul(n, k), n) == SaturatingMul(n, k + 1)
  {
    assert n * (k + 1) == n * k + n;
  }

  lemma PrefixedAnySplit(bs: seq<Byte>, b: Byte, l: Lang)
    ensures PrefixedAny(bs + [b], l) == PrefixedAny(bs, l) + Prefixed(b, l)
  {}

  /** A saturating product counts one copy of the language per leading byte. */
  lemma {:induction false} CountsPrefixedAny(bs: seq<Byte>, l: Lang, n: nat)
    requires Counts(l, n)
    requires forall i, j :: 0 <= i < j < |bs| ==> bs[i] != bs[j]
    ensures Counts(PrefixedAny(bs, l), SaturatingMul(n, |bs|))
  {
    if bs == [] {
      assert PrefixedAny(bs, l) == NOTHING;
      CountsNothing();
    } else {
      var k := |bs| - 1;
      var front := bs[..k];
      assert bs == front + [bs[k]] && bs[k] !in front;
      CountsPrefixedAny(front, l, n);
      CountsPrefixed(bs[k], l, n);
      PrefixedAnySplit(front, bs[k], l);
      CountsUnion(PrefixedAny(front, l), Prefixed(bs[k], l), SaturatingMul(n, k), n);
      SaturatingMulStep(n, k);
    }
  }

  /** A language with words of every length past any bound reaches the cap. */
  lemma {:induction false} UnboundedHasAtLeast(l: Lang, n: nat) returns (s: set<Word>, longest: nat)
    requires forall k: nat :: LongerWord(l, k)
    ensures Inside(s, l) && |s| == n
    ensures forall w :: w in s ==> |w| <= longest
  {
    if n == 0 {
      s, longest := {}, 0;
    } else {
      s, longest := UnboundedHasAtLeast(l, n - 1);
      assert LongerWord(l, longest + 1);
      var w :| w in l && |w| >= longest + 1;
      s, longest := s + {w}, |w|;
    }
  }

  ghost predicate LongerWord(l: Lang, k: nat) {
    exists w :: w in l && |w| >= k
  }

  lemma UnboundedCounts(l: Lang)
    requires forall k: nat :: LongerWord(l, k)
    ensures Counts(l, U64_MAX)
  {
    var s, longest := UnboundedHasAtLeast(l, U64_MAX);
  }

  /** The count is a function of the language. */
  lemma CountsUnique(l: Lang, m: nat, n: nat)
    requires Counts(l, m) && Counts(l, n)
    ensures m == n
  {
    var s: set<Word> :| (if m < U64_MAX then Exactly(s, l) else Inside(s, l)) && |s| == m;
    var t: set<Word> :| (if n < U64_MAX then Exactly(t, l) else Inside(t, l)) && |t| == n;
    if m < n { assert t <= s; Finite.SubsetSize(t, s); }
    if n < m { assert s <= t; Finite.SubsetSize(s, t); }
  }
}
