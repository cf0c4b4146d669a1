/** Canonical keys: a list sorted and stripped of repeats. */
module Sorting {

  ghost predicate StrictTotal<T(!new)>(less: (T, T) -> bool) {
    && (forall x :: !less(x, x))
    && (forall x, y :: x != y ==> less(x, y) || less(y, x))
    && (forall x, y, z :: less(x, y) && less(y, z) ==> less(x, z))
  }

  /** The order of the keys made of ids. */
  predicate NatLess(x: nat, y: nat) {
    x < y
  }

  ghost predicate Sorted<T>(s: seq<T>, less: (T, T) -> bool) {
    forall i, j :: 0 <= i < j < |s| ==> less(s[i], s[j])
  }

  function InsertUnique<T(==, !new)>(x: T, s: seq<T>, less: (T, T) -> bool): (r: seq<T>)
    ensures forall y :: y in r <==> y == x || y in s
  {
    if s == [] then [x]
    else if x == s[0] then s
    else if less(x, s[0]) then [x] + s
    else
      var r := InsertUnique(x, s[1..], less);
      assert s == [s[0]] + s[1..];
      [s[0]] + r
  }

  /** `sort_unstable` followed by `dedup`. */
  function SortUnique<T(==, !new)>(s: seq<T>, less: (T, T) -> bool): (r: seq<T>)
    ensures forall y :: y in r <==> y in s
  {
    if s == [] then []
    else
      assert s == [s[0]] + s[1..];
      InsertUnique(s[0], SortUnique(s[1..], less), less)
  }

  lemma {:induction false} InsertSorted<T(!new)>(x: T, s: seq<T>, less: (T, T) -> bool)
    requires StrictTotal(less) && Sorted(s, less)
    ensures Sorted(InsertUnique(x, s, less), less)
  {
    if s != [] && x != s[0] {
      if less(x, s[0]) {
        var r := [x] + s;
        forall i, j | 0 <= i < j < |r| ensures less(r[i], r[j]) {
          if i == 0 && j > 1 { assert less(s[0], s[j - 1]); }
        }
      } else {
        var t := InsertUnique(x, s[1..], less);
        InsertSorted(x, s[1..], less);
        var r := [s[0]] + t;
        forall i, j | 0 <= i < j < |r| ensures less(r[i], r[j]) {
          if i == 0 {
            assert t[j - 1] in t;
            if t[j - 1] in s[1..] {
              var k :| 0 <= k < |s[1..]| && s[1..][k] == t[j - 1];
              assert less(s[0], s[k + 1]);
            }
          }
        }
      }
    }
  }

  lemma {:induction false} SortUniqueSorted<T(!new)>(s: seq<T>, less: (T, T) -> bool)
    requires StrictTotal(less)
    ensures Sorted(SortUnique(s, less), less)
  {
    if s != [] {
      SortUniqueSorted(s[1..], less);
      InsertSorted(s[0], SortUnique(s[1..], less), less);
    }
  }

  lemma HeadIsLeast<T(!new)>(s: seq<T>, t: seq<T>, less: (T, T) -> bool)
    requires StrictTotal(less) && Sorted(s, less) && Sorted(t, less) && s != [] && t != []
    requires forall x :: x in s <==> x in t
    ensures s[0] == t[0]
  {
    assert s[0] in t && t[0] in s;
    var i :| 0 <= i < |t| && t[i] == s[0];
    var j :| 0 <= j < |s| && s[j] == t[0];
    var x, y := s[0], t[0];
    assert j > 0 ==> less(x, y);
    assert i > 0 ==> less(y, x);
  }

  /** Two sorted lists with the same members are the same list, so keys stand for sets. */
  lemma {:induction false} SortedCanonical<T(!new)>(s: seq<T>, t: seq<T>, less: (T, T) -> bool)
    requires StrictTotal(less) && Sorted(s, less) && Sorted(t, less)
    requires forall x :: x in s <==> x in t
    ensures s == t
  {
    if s != [] { assert s[0] in t; }
    if t != [] { assert t[0] in s; }
    if s != [] {
      HeadIsLeast(s, t, less);
      forall x ensures x in s[1..] <==> x in t[1..] {
        TailMembers(s, less, x);
        TailMembers(t, less, x);
      }
      SortedCanonical(s[1..], t[1..], less);
      assert s == [s[0]] + s[1..] && t == [t[0]] + t[1..];
    }
  }

  lemma TailMembers<T(!new)>(s: seq<T>, less: (T, T) -> bool, x: T)
    requires StrictTotal(less) && Sorted(s, less) && s != []
    ensures x in s[1..] <==> x in s && x != s[0]
  {
    if x in s && x != s[0] {
      var i :| 0 <= i < |s| && s[i] == x;
      assert s[1..][i - 1] == x;
    }
    if x in s[1..] {
      var i :| 0 <= i < |s[1..]| && s[1..][i] == x;
      assert less(s[0], s[i + 1]);
    }
  }

  /** Lists with the same members get the same key. */
  lemma SameMembersSameKey<T(!new)>(s: seq<T>, t: seq<T>, less: (T, T) -> bool)
    requires StrictTotal(less) && forall x :: x in s <==> x in t
    ensures SortUnique(s, less) == SortUnique(t, less)
  {
    SortUniqueSorted(s, less);
    SortUniqueSorted(t, less);
    SortedCanonical(SortUnique(s, less), SortUnique(t, less), less);
  }
}
