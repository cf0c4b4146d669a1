/** Counting arguments over finite ranges. */
module Finite {

  ghost function Below(n: nat): (s: set<nat>)
    ensures |s| == n && forall x: nat :: x in s <==> x < n
  {
    if n == 0 then {} else Below(n - 1) + {n - 1}
  }

  ghost predicate Distinct<T>(s: seq<T>) {
    forall i, j :: 0 <= i < j < |s| ==> s[i] != s[j]
  }

  lemma {:induction false} DistinctElements<T>(s: seq<T>)
    requires Distinct(s)
    ensures |set x | x in s| == |s|
  {
    if s != [] {
      var k := |s| - 1;
      DistinctElements(s[..k]);
      assert (set x | x in s) == (set x | x in s[..k]) + {s[k]};
    }
  }

  /** The elements of a set in some order. */
  lemma {:induction false} Listing<T>(s: set<T>) returns (list: seq<T>)
    ensures Distinct(list) && |list| == |s| && forall x :: x in list <==> x in s
    decreases |s|
  {
    if s == {} {
      list := [];
    } else {
      var x :| x in s;
      var rest := Listing(s - {x});
      list := rest + [x];
    }
  }

  lemma SubsetSize<T>(a: set<T>, b: set<T>)
    requires a <= b
    ensures |a| <= |b|
  {
    assert b == a + (b - a);
  }

  /** Distinct elements of a list are no more than the list. */
  lemma {:induction false} DistinctWithin<T>(s: seq<T>, all: seq<T>)
    requires Distinct(s) && forall i :: 0 <= i < |s| ==> s[i] in all
    ensures |s| <= |all|
  {
    DistinctElements(s);
    ElementsAtMost(all);
    SubsetSize((set x | x in s), (set x | x in all));
  }

  lemma {:induction false} ElementsAtMost<T>(s: seq<T>)
    ensures |set x | x in s| <= |s|
  {
    if s != [] {
      var k := |s| - 1;
      ElementsAtMost(s[..k]);
      assert (set x | x in s) == (set x | x in s[..k]) + {s[k]};
    }
  }

  /** Distinct naturals below `n` number at most `n`. */
  lemma Pigeonhole(s: seq<nat>, n: nat)
    requires Distinct(s) && forall i :: 0 <= i < |s| ==> s[i] < n
    ensures |s| <= n
  {
    DistinctElements(s);
    SubsetSize((set x | x in s), Below(n));
  }
}
