/** How many keys a subset construction can have: at most two to the number of states. */
module SubsetKeys {
  import Bits
  import Finite
  import Sorting

  /** The subsets of the naturals below `k`. */
  ghost function Below(k: nat): set<set<nat>> {
    if k == 0 then {{}} else Below(k - 1) + With(Below(k - 1), k - 1)
  }

  ghost function With(family: set<set<nat>>, x: nat): set<set<nat>> {
    set s | s in family :: s + {x}
  }

  lemma {:induction false} WithSize(family: set<set<nat>>, x: nat)
    ensures |With(family, x)| <= |family|
    decreases |family|
  {
    if family != {} {
      var s :| s in family;
      WithSize(family - {s}, x);
      assert With(family, x) == With(family - {s}, x) + {s + {x}};
    }
  }

  lemma UnionAtMost(a: set<set<nat>>, b: set<set<nat>>)
    ensures |a + b| <= |a| + |b|
  {
    assert a + b == a + (b - a);
    Finite.SubsetSize(b - a, b);
  }

  lemma {:induction false} BelowSize(k: nat)
    ensures |Below(k)| <= Bits.Pow2(k)
  {
    hide With;
    if k > 0 {
      BelowSize(k - 1);
      WithSize(Below(k - 1), k - 1);
      UnionAtMost(Below(k - 1), With(Below(k - 1), k - 1));
    }
  }

  lemma {:induction false} IsBelow(s: set<nat>, k: nat)
    requires forall x :: x in s ==> x < k
    ensures s in Below(k)
    decreases k
  {
    if k == 0 {
      assert s == {};
    } else if k - 1 in s {
      IsBelow(s - {k - 1}, k - 1);
      assert s == s - {k - 1} + {k - 1};
    } else {
      IsBelow(s, k - 1);
    }
  }

  ghost function Members(key: seq<nat>): set<nat> {
    set x | x in key
  }

  ghost predicate Key(key: seq<nat>, k: nat) {
    Sorting.Sorted(key, Sorting.NatLess) && forall i :: 0 <= i < |key| ==> key[i] < k
  }

  lemma NatLessIsTotal()
    ensures Sorting.StrictTotal(Sorting.NatLess)
  {}

  /** Distinct sorted lists of ids below `k` number at most two to the `k`. */
  lemma KeysBounded(keys: seq<seq<nat>>, k: nat)
    requires Finite.Distinct(keys) && forall i :: 0 <= i < |keys| ==> Key(keys[i], k)
    ensures |keys| <= Bits.Pow2(k)
  {
    hide Bits.Pow2, Below, Sorting.StrictTotal;
    NatLessIsTotal();
    var sets: seq<set<nat>> := seq(|keys|, i requires 0 <= i < |keys| => Members(keys[i]));
    forall i, j | 0 <= i < j < |sets| ensures sets[i] != sets[j] {
      if sets[i] == sets[j] {
        forall x ensures x in keys[i] <==> x in keys[j] { assert x in keys[i] <==> x in sets[i]; }
        Sorting.SortedCanonical(keys[i], keys[j], Sorting.NatLess);
      }
    }
    Finite.DistinctElements(sets);
    forall i | 0 <= i < |sets| ensures sets[i] in Below(k) {
      assert Key(keys[i], k);
      IsBelow(sets[i], k);
    }
    BelowSize(k);
    Finite.SubsetSize((set s | s in sets), Below(k));
  }
}
