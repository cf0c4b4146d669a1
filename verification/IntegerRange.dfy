/** Digit patterns for integer bounds (compile.rs): `integer_regex`, `pos_range`, `pos_ge`, `flrange`. */
module IntegerRange {
  import opened Outcome
  import opened Languages
  import opened Decimal
  import opened RegexText

  const I64_MIN: int := -0x8000_0000_0000_0000
  const I64_MAX: int := 0x7FFF_FFFF_FFFF_FFFF

  const ANY_DIGIT: Item := Class(ZERO, NINE)
  const NONZERO_DIGIT: Item := Class(49, NINE)

  // --- what the patterns should denote ---------------------------------------------------------------------

  ghost predicate InBand(w: Word, len: nat, lo: nat, hi: nat) {
    Digits(w) && |w| == len && lo <= Value(w) <= hi
  }

  /** The digit strings of length `len`, leading zeros allowed, with value in [lo, hi]. */
  ghost function Band(len: nat, lo: nat, hi: nat): Lang {
    iset w: Word | InBand(w, len, lo, hi)
  }

  ghost predicate SpelledBy(w: Word, lo: nat, hi: Option<nat>, n: nat) {
    lo <= n && (hi.Some? ==> n <= hi.value) && w == Spell(n)
  }

  ghost predicate IsSpelled(w: Word, lo: nat, hi: Option<nat>) {
    exists n: nat :: SpelledBy(w, lo, hi, n)
  }

  /** The spellings of the naturals from `lo` to `hi`. */
  ghost function Spelled(lo: nat, hi: Option<nat>): Lang {
    iset w: Word | IsSpelled(w, lo, hi)
  }

  predicate Bounds(lo: Option<int>, hi: Option<int>, n: int) {
    (lo.Some? ==> lo.value <= n) && (hi.Some? ==> n <= hi.value)
  }

  ghost predicate IntSpelledBy(w: Word, lo: Option<int>, hi: Option<int>, n: int) {
    Bounds(lo, hi, n) && w == SpellInt(n)
  }

  ghost predicate IsIntSpelled(w: Word, lo: Option<int>, hi: Option<int>) {
    exists n: int :: IntSpelledBy(w, lo, hi, n)
  }

  /** The JSON spellings of the integers within the bounds. */
  ghost function Integers(lo: Option<int>, hi: Option<int>): Lang {
    iset w: Word | IsIntSpelled(w, lo, hi)
  }

  ghost predicate I64Bound(b: Option<int>) {
    b.Some? ==> I64_MIN <= b.value <= I64_MAX
  }

  // --- digits ------------------------------------------------------------------------------------------------

  function AnyDigits(k: nat): Fragment {
    if k == 0 then Fragment([]) else if k == 1 then Fragment([ANY_DIGIT]) else Fragment([Rep(ANY_DIGIT, k, Some(k))])
  }

  /** `digit` and `digit_class`: one digit, or a range of digits. */
  function DigitClass(lo: nat, hi: nat): Item
    requires lo <= 9 && hi <= 9
  {
    Class(ZERO + lo, ZERO + hi)
  }

  function Alt(parts: seq<Fragment>): Fragment {
    if |parts| == 1 then parts[0] else Fragment([Group(parts)])
  }

  lemma AltDen(parts: seq<Fragment>)
    ensures Den(Alt(parts)) == DenAlts(parts)
  {
    if |parts| != 1 { DenOne(Group(parts)); }
  }

  lemma RepeatedExactly(l: Lang, k: nat)
    ensures Repeated(l, k, Some(k)) == Power(l, k)
  {
    forall w: Word ensures w in Repeated(l, k, Some(k)) <==> w in Power(l, k) {
      assert InPower(l, k, Some(k), k, w) <==> w in Power(l, k);
    }
  }

  ghost predicate DigitString(w: Word, k: nat) {
    Digits(w) && |w| == k
  }

  lemma {:induction false} DigitPower(k: nat, w: Word)
    ensures w in Power(DenItem(ANY_DIGIT), k) <==> DigitString(w, k)
  {
    var l := DenItem(ANY_DIGIT);
    if k > 0 {
      if w in Power(l, k) {
        var u, v := CatElim(l, Power(l, k - 1), w);
        DigitPower(k - 1, v);
      }
      if DigitString(w, k) {
        DigitPower(k - 1, w[1..]);
        CatIntro(l, Power(l, k - 1), w[..1], w[1..]);
        assert w == w[..1] + w[1..];
      }
    }
  }

  lemma AnyDigitsPower(k: nat)
    ensures Den(AnyDigits(k)) == Power(DenItem(ANY_DIGIT), k)
  {
    hide DenItem, Repeated;
    var l := DenItem(ANY_DIGIT);
    if k >= 2 {
      DenOne(Rep(ANY_DIGIT, k, Some(k)));
      RepDen(ANY_DIGIT, k, Some(k));
      RepeatedExactly(l, k);
    } else if k == 1 {
      DenOne(ANY_DIGIT);
      CatUnit(l);
      assert Power(l, 1) == Cat(l, Power(l, 0));
    }
  }

  lemma AnyDigitsDen(k: nat)
    ensures Den(AnyDigits(k)) == Band(k, 0, Ten(k) - 1)
  {
    hide Den, DenItem, Power, Value, AnyDigits;
    AnyDigitsPower(k);
    forall w: Word ensures w in Power(DenItem(ANY_DIGIT), k) <==> InBand(w, k, 0, Ten(k) - 1) {
      DigitPower(k, w);
      if DigitString(w, k) { ValueBound(w); }
    }
  }

  /** A leading digit between dl and dh, then k digits with value in [lo, hi]. */
  ghost predicate HeadThenBand(w: Word, dl: nat, dh: nat, k: nat, lo: nat, hi: nat) {
    |w| == k + 1 && Digits(w) && ZERO + dl <= w[0] <= ZERO + dh && lo <= Value(w[1..]) <= hi
  }

  lemma HeadDen(dl: nat, dh: nat, k: nat, lo: nat, hi: nat, f: Fragment, w: Word)
    requires dl <= 9 && dh <= 9 && Den(f) == Band(k, lo, hi)
    ensures w in Den(Then(Fragment([DigitClass(dl, dh)]), f)) <==> HeadThenBand(w, dl, dh, k, lo, hi)
  {
    hide Value;
    var head := DenItem(DigitClass(dl, dh));
    DenThen(Fragment([DigitClass(dl, dh)]), f);
    DenOne(DigitClass(dl, dh));
    if w in Cat(head, Den(f)) {
      var u, v := CatElim(head, Den(f), w);
      assert w[1..] == v;
    }
    if HeadThenBand(w, dl, dh, k, lo, hi) {
      CatIntro(head, Den(f), w[..1], w[1..]);
      assert w == w[..1] + w[1..];
    }
  }

  /** Comparing two-part numbers compares the leading parts first. */
  lemma LeadingPart(d: nat, r: nat, e: nat, s: nat, p: nat)
    requires r < p && s < p
    ensures d * p + r <= e * p + s <==> d < e || (d == e && r <= s)
  {
    if d < e { TimesAtLeast(e - d, p); assert (e - d) * p == e * p - d * p; }
    if e < d { TimesAtLeast(d - e, p); assert (d - e) * p == d * p - e * p; }
  }

  /** The leading digit of a number of k + 1 digits, and the rest of it. */
  function Lead(n: nat, k: nat): nat {
    Quotient(n, Ten(k))
  }

  function Rest(n: nat, k: nat): nat {
    n % Ten(k)
  }

  function Quotient(n: nat, p: nat): nat
    requires p > 0
  {
    n / p
  }

  lemma AtMostNine(q: nat, r: nat, p: nat)
    requires q * p + r < 10 * p
    ensures q <= 9
  {
    if q >= 10 { TimesAtLeast(q - 9, p); }
  }

  lemma LeadingDigit(n: nat, k: nat)
    requires n < Ten(k + 1)
    ensures Lead(n, k) <= 9 && Rest(n, k) < Ten(k) && n == Lead(n, k) * Ten(k) + Rest(n, k)
  {
    var p := Ten(k);
    assert n == n / p * p + n % p;
    AtMostNine(n / p, n % p, p);
  }

  lemma BandHead(w: Word, k: nat)
    requires Digits(w) && |w| == k + 1
    ensures Digits(w[1..]) && Value(w[1..]) < Ten(k) && w[0] - ZERO <= 9
    ensures Value(w) == (w[0] - ZERO) * Ten(k) + Value(w[1..])
  {
    hide Value;
    assert w == [w[0]] + w[1..];
    ValueCons(w[0], w[1..]);
    ValueBound(w[1..]);
  }

  /** Which words the parts cover when a band is split at the leading digit. */
  ghost predicate InParts(w: Word, k: nat, lo: nat, hi: nat)
    requires Lead(lo, k) <= Lead(hi, k)
  {
    if Lead(lo, k) == Lead(hi, k) then HeadThenBand(w, Lead(lo, k), Lead(lo, k), k, Rest(lo, k), Rest(hi, k))
    else (|| HeadThenBand(w, Lead(lo, k), Lead(lo, k), k, Rest(lo, k), Ten(k) - 1)
          || HeadThenBand(w, Lead(lo, k) + 1, Lead(hi, k) - 1, k, 0, Ten(k) - 1)
          || HeadThenBand(w, Lead(hi, k), Lead(hi, k), k, 0, Rest(hi, k)))
  }

  lemma SplitBounds(lo: nat, hi: nat, k: nat)
    requires lo <= hi < Ten(k + 1)
    ensures Lead(lo, k) <= Lead(hi, k) <= 9 && Rest(lo, k) < Ten(k) && Rest(hi, k) < Ten(k)
    ensures Lead(lo, k) == Lead(hi, k) ==> Rest(lo, k) <= Rest(hi, k)
  {
    hide Lead, Rest, Ten;
    LeadingDigit(lo, k);
    LeadingDigit(hi, k);
    LeadingPart(Lead(lo, k), Rest(lo, k), Lead(hi, k), Rest(hi, k), Ten(k));
  }

  /** A band is what its parts cover. */
  lemma BandSplits(w: Word, k: nat, lo: nat, hi: nat)
    requires lo <= hi < Ten(k + 1) && Lead(lo, k) <= Lead(hi, k)
    ensures InBand(w, k + 1, lo, hi) <==> InParts(w, k, lo, hi)
  {
    hide Value, Ten, Lead, Rest, InParts;
    if Digits(w) && |w| == k + 1 {
      BandHead(w, k);
      LeadingDigit(lo, k);
      LeadingDigit(hi, k);
      var d, r := w[0] - ZERO, Value(w[1..]);
      LeadingPart(Lead(lo, k), Rest(lo, k), d, r, Ten(k));
      LeadingPart(d, r, Lead(hi, k), Rest(hi, k), Ten(k));
      PartsOf(w, k, lo, hi, d, r);
    } else {
      NotInParts(w, k, lo, hi);
    }
  }

  lemma NotInParts(w: Word, k: nat, lo: nat, hi: nat)
    requires Lead(lo, k) <= Lead(hi, k) && !(Digits(w) && |w| == k + 1)
    ensures !InParts(w, k, lo, hi)
  {
    hide Lead, Rest, Ten;
  }

  lemma PartsOf(w: Word, k: nat, lo: nat, hi: nat, d: nat, r: nat)
    requires Lead(lo, k) <= Lead(hi, k) && Rest(lo, k) < Ten(k) && Rest(hi, k) < Ten(k)
    requires Digits(w) && |w| == k + 1 && d == w[0] - ZERO && r == Value(w[1..]) < Ten(k)
    ensures InParts(w, k, lo, hi) <==>
              (Lead(lo, k) < d || (Lead(lo, k) == d && Rest(lo, k) <= r))
              && (d < Lead(hi, k) || (d == Lead(hi, k) && r <= Rest(hi, k)))
  {
    hide Lead, Rest, Ten, Value;
  }

  // --- flrange -------------------------------------------------------------------------------------------------

  lemma DigitOfBand(lo: nat, hi: nat)
    requires lo <= hi <= 9
    ensures Den(Fragment([DigitClass(lo, hi)])) == Band(1, lo, hi)
  {
    DenOne(DigitClass(lo, hi));
    forall w: Word ensures w in DenItem(DigitClass(lo, hi)) <==> InBand(w, 1, lo, hi) {
      if |w| == 1 && IsDigit(w[0]) {
        ValueOne(w[0]);
        assert w == [w[0]];
      }
    }
  }

  /** The three bands of a range whose bounds differ in the leading digit. */
  function SplitParts(ld: nat, hd: nat, k: nat, low: Fragment, high: Fragment): seq<Fragment>
    requires ld < hd <= 9
  {
    [Then(Fragment([DigitClass(ld, ld)]), low)]
    + (if hd >= ld + 2 then [Then(Fragment([DigitClass(ld + 1, hd - 1)]), AnyDigits(k))] else [])
    + [Then(Fragment([DigitClass(hd, hd)]), high)]
  }

  /** `flrange`. Lengths stay below 20, so every power it asks for fits a u64. */
  function FlRange(lo: nat, hi: nat, len: nat): (f: Fragment)
    requires lo <= hi < Ten(len) && 0 < len <= 19
    decreases len
  {
    if lo == 0 && hi == Ten(len) - 1 then AnyDigits(len)
    else if len == 1 then
      assert Ten(1) == 10 * Ten(0);
      Fragment([DigitClass(lo, hi)])
    else
      SplitBounds(lo, hi, len - 1);
      var k := len - 1;
      var ld, hd, lr, hr := Lead(lo, k), Lead(hi, k), Rest(lo, k), Rest(hi, k);
      if ld == hd then Then(Fragment([DigitClass(ld, ld)]), FlRange(lr, hr, k))
      else Alt(SplitParts(ld, hd, k, FlRange(lr, Ten(k) - 1, k), FlRange(0, hr, k)))
  }

  lemma FlRangeCases(lo: nat, hi: nat, len: nat)
    requires lo <= hi < Ten(len) && 1 < len <= 19 && !(lo == 0 && hi == Ten(len) - 1)
    ensures var k := len - 1;
            && Lead(lo, k) <= Lead(hi, k) <= 9 && Rest(lo, k) < Ten(k) && Rest(hi, k) < Ten(k)
            && (Lead(lo, k) == Lead(hi, k) ==> Rest(lo, k) <= Rest(hi, k))
            && FlRange(lo, hi, len) ==
               if Lead(lo, k) == Lead(hi, k)
               then Then(Fragment([DigitClass(Lead(lo, k), Lead(lo, k))]), FlRange(Rest(lo, k), Rest(hi, k), k))
               else Alt(SplitParts(Lead(lo, k), Lead(hi, k), k, FlRange(Rest(lo, k), Ten(k) - 1, k), FlRange(0, Rest(hi, k), k)))
  {
    hide Ten, SplitParts, Then, Alt;
    SplitBounds(lo, hi, len - 1);
  }

  /** `flrange` denotes exactly the `len`-digit strings with value in [lo, hi]. */
  lemma {:induction false} FlRangeDen(lo: nat, hi: nat, len: nat)
    requires lo <= hi < Ten(len) && 0 < len <= 19
    ensures Den(FlRange(lo, hi, len)) == Band(len, lo, hi)
    decreases len
  {
    hide *;
    if (lo == 0 && hi == Ten(len) - 1) || len == 1 {
      FlRangeSimple(lo, hi, len);
    } else {
      var k := len - 1;
      FlRangeCases(lo, hi, len);
      if Lead(lo, k) == Lead(hi, k) {
        FlRangeDen(Rest(lo, k), Rest(hi, k), k);
        FlRangeOneHead(lo, hi, k, FlRange(Rest(lo, k), Rest(hi, k), k));
      } else {
        FlRangeDen(Rest(lo, k), Ten(k) - 1, k);
        FlRangeDen(0, Rest(hi, k), k);
        FlRangeSplit(lo, hi, k, FlRange(Rest(lo, k), Ten(k) - 1, k), FlRange(0, Rest(hi, k), k));
      }
    }
  }

  lemma FlRangeSimple(lo: nat, hi: nat, len: nat)
    requires lo <= hi < Ten(len) && 0 < len <= 19
    requires (lo == 0 && hi == Ten(len) - 1) || len == 1
    ensures Den(FlRange(lo, hi, len)) == Band(len, lo, hi)
  {
    hide Den, Band, AnyDigits, DigitClass;
    if lo == 0 && hi == Ten(len) - 1 {
      AnyDigitsDen(len);
    } else {
      assert Ten(1) == 10 * Ten(0);
      DigitOfBand(lo, hi);
    }
  }

  lemma FlRangeOneHead(lo: nat, hi: nat, k: nat, rest: Fragment)
    requires lo <= hi < Ten(k + 1) && Lead(lo, k) == Lead(hi, k) <= 9
    requires Den(rest) == Band(k, Rest(lo, k), Rest(hi, k))
    ensures Den(Then(Fragment([DigitClass(Lead(lo, k), Lead(lo, k))]), rest)) == Band(k + 1, lo, hi)
  {
    hide Den, Then, InBand, HeadThenBand, Ten, Lead, Rest;
    var d := Lead(lo, k);
    forall w: Word ensures w in Den(Then(Fragment([DigitClass(d, d)]), rest)) <==> InBand(w, k + 1, lo, hi) {
      BandSplits(w, k, lo, hi);
      HeadDen(d, d, k, Rest(lo, k), Rest(hi, k), rest, w);
    }
  }

  lemma SplitDen(ld: nat, hd: nat, k: nat, low: Fragment, high: Fragment, w: Word)
    requires ld < hd <= 9
    ensures w in Den(Alt(SplitParts(ld, hd, k, low, high))) <==>
              || w in Den(Then(Fragment([DigitClass(ld, ld)]), low))
              || (hd >= ld + 2 && w in Den(Then(Fragment([DigitClass(ld + 1, hd - 1)]), AnyDigits(k))))
              || w in Den(Then(Fragment([DigitClass(hd, hd)]), high))
  {
    hide Den, Then, AnyDigits, Alt;
    var parts := SplitParts(ld, hd, k, low, high);
    AltDen(parts);
    if hd >= ld + 2 {
      assert parts[1..] == [parts[1], parts[2]] && parts[1..][1..] == [parts[2]];
      assert DenAlts(parts[1..]) == Den(parts[1]) + DenAlts([parts[2]]);
    } else {
      assert parts[1..] == [parts[1]];
    }
  }

  lemma FlRangeSplit(lo: nat, hi: nat, k: nat, low: Fragment, high: Fragment)
    requires lo <= hi < Ten(k + 1) && Lead(lo, k) < Lead(hi, k) <= 9
    requires Den(low) == Band(k, Rest(lo, k), Ten(k) - 1) && Den(high) == Band(k, 0, Rest(hi, k))
    ensures Den(Alt(SplitParts(Lead(lo, k), Lead(hi, k), k, low, high))) == Band(k + 1, lo, hi)
  {
    hide Den, Then, Alt, SplitParts, InBand, HeadThenBand, Ten, Lead, Rest;
    var ld, hd, lr, hr := Lead(lo, k), Lead(hi, k), Rest(lo, k), Rest(hi, k);
    AnyDigitsDen(k);
    forall w: Word ensures w in Den(Alt(SplitParts(ld, hd, k, low, high))) <==> InBand(w, k + 1, lo, hi) {
      BandSplits(w, k, lo, hi);
      SplitDen(ld, hd, k, low, high, w);
      HeadDen(ld, ld, k, lr, Ten(k) - 1, low, w);
      HeadDen(hd, hd, k, 0, hr, high, w);
      if hd >= ld + 2 {
        HeadDen(ld + 1, hd - 1, k, 0, Ten(k) - 1, AnyDigits(k), w);
      } else {
        EmptyHead(w, ld + 1, hd - 1, k, 0, Ten(k) - 1);
      }
    }
  }

  lemma EmptyHead(w: Word, dl: nat, dh: nat, k: nat, lo: nat, hi: nat)
    requires dh < dl
    ensures !HeadThenBand(w, dl, dh, k, lo, hi)
  {}

  // --- positive ranges ---------------------------------------------------------------------------------------------

  /** A band within one digit length is the spellings of its values. */
  lemma BandIsSpelled(len: nat, lo: nat, hi: nat)
    requires len > 0 && 0 < lo && Ten(len - 1) <= lo && hi < Ten(len)
    ensures Band(len, lo, hi) == Spelled(lo, Some(hi))
  {
    hide Value, Spell, Ten;
    forall w: Word ensures InBand(w, len, lo, hi) <==> IsSpelled(w, lo, Some(hi)) {
      if InBand(w, len, lo, hi) {
        FirstDigitMagnitude(w);
        SpellUnique(w);
        assert SpelledBy(w, lo, Some(hi), Value(w));
      }
      if n: nat :| SpelledBy(w, lo, Some(hi), n) {
        SpellShape(n);
        SpellLength(n);
        SameLength(n, |w|, len);
      }
    }
  }

  lemma SameLength(n: nat, j: nat, k: nat)
    requires j > 0 && k > 0 && Ten(j - 1) <= n < Ten(j) && Ten(k - 1) <= n < Ten(k)
    ensures j == k
  {
    if j < k { TenMonotone(j, k - 1); }
    if k < j { TenMonotone(k, j - 1); }
  }

  /** The spellings with more than d digits. */
  lemma LongerSpelled(d: nat, w: Word)
    requires d > 0
    ensures IsSpelled(w, Ten(d), None) <==> Digits(w) && |w| > d && w[0] != ZERO
  {
    hide Value, Spell, Ten;
    if n: nat :| SpelledBy(w, Ten(d), None, n) {
      SpellShape(n);
      SpellLength(n);
      if |w| <= d { TenMonotone(|w|, d); }
    }
    if Digits(w) && |w| > d && w[0] != ZERO {
      FirstDigitMagnitude(w);
      SpellUnique(w);
      TenMonotone(d, |w| - 1);
      assert SpelledBy(w, Ten(d), None, Value(w));
    }
  }

  lemma SpelledUnion(lo: nat, mid: nat, hi: Option<nat>)
    requires lo <= mid && (hi.Some? ==> mid <= hi.value + 1)
    ensures mid > 0 ==> Spelled(lo, Some(mid - 1)) + Spelled(mid, hi) == Spelled(lo, hi)
  {
    hide Spell;
    if mid > 0 {
      var below: Option<nat> := Some(mid - 1);
      forall w: Word ensures IsSpelled(w, lo, hi) <==> IsSpelled(w, lo, below) || IsSpelled(w, mid, hi) {
        if n: nat :| SpelledBy(w, lo, hi, n) {
          assert if n < mid then SpelledBy(w, lo, below, n) else SpelledBy(w, mid, hi, n);
        }
        if n: nat :| SpelledBy(w, lo, below, n) { assert SpelledBy(w, lo, hi, n); }
        if n: nat :| SpelledBy(w, mid, hi, n) { assert SpelledBy(w, lo, hi, n); }
      }
    }
  }

  /** A nonzero digit and then at least `d` digits. */
  function MoreDigits(d: nat): Fragment {
    Fragment([NONZERO_DIGIT, Rep(ANY_DIGIT, d, None)])
  }

  lemma MoreDigitsDen(d: nat)
    requires d > 0
    ensures Den(MoreDigits(d)) == Spelled(Ten(d), None)
  {
    hide Value, Ten, Spelled, IsSpelled, DenItem;
    var f := MoreDigits(d);
    var head, tail := DenItem(NONZERO_DIGIT), DenItem(Rep(ANY_DIGIT, d, None));
    assert f == Then(Fragment([NONZERO_DIGIT]), Fragment([Rep(ANY_DIGIT, d, None)]));
    DenThen(Fragment([NONZERO_DIGIT]), Fragment([Rep(ANY_DIGIT, d, None)]));
    DenOne(NONZERO_DIGIT);
    DenOne(Rep(ANY_DIGIT, d, None));
    forall w: Word ensures w in Cat(head, tail) <==> IsSpelled(w, Ten(d), None) {
      LongerSpelled(d, w);
      if w in Cat(head, tail) {
        var u, v := CatElim(head, tail, w);
        NonzeroDigitDen(u);
        AtLeastDigits(d, v);
      }
      if Digits(w) && |w| > d && w[0] != ZERO {
        NonzeroDigitDen(w[..1]);
        AtLeastDigits(d, w[1..]);
        CatIntro(head, tail, w[..1], w[1..]);
        assert w == w[..1] + w[1..];
      }
    }
    SpelledMembers(Ten(d), None);
  }

  lemma SpelledMembers(lo: nat, hi: Option<nat>)
    ensures forall w: Word :: w in Spelled(lo, hi) <==> IsSpelled(w, lo, hi)
  {}

  lemma NonzeroDigitDen(u: Word)
    ensures u in DenItem(NONZERO_DIGIT) <==> |u| == 1 && IsDigit(u[0]) && u[0] != ZERO
  {}

  lemma AtLeastDigits(d: nat, v: Word)
    ensures v in DenItem(Rep(ANY_DIGIT, d, None)) <==> Digits(v) && |v| >= d
  {
    var l := DenItem(ANY_DIGIT);
    assert DenItem(Rep(ANY_DIGIT, d, None)) == Repeated(l, d, None);
    if Digits(v) && |v| >= d {
      DigitPower(|v|, v);
      assert InPower(l, d, None, |v|, v);
    }
    if v in Repeated(l, d, None) {
      var k: nat :| InPower(l, d, None, k, v);
      DigitPower(k, v);
    }
  }

  /** `pos_ge`: the positive integers from `a` up. */
  method PosGe(a: nat) returns (f: Fragment)
    requires 1 <= a <= -I64_MIN
    ensures Den(f) == Spelled(a, None)
  {
    hide Den, DenAlts, Spelled, Ten, FlRange, MoreDigits;
    MagnitudeDigits(a);
    SpellLength(a);
    SpellShape(a);
    var d := NumDigits(a);
    var top := Pow10(d);
    var same := FlRange(a, top - 1, d);
    FlRangeDen(a, top - 1, d);
    BandIsSpelled(d, a, top - 1);
    var more := MoreDigits(d);
    MoreDigitsDen(d);
    f := Fragment([Group([more, same])]);
    DenOne(Group([more, same]));
    PairDen(more, same);
    SpelledUnion(a, top, None);
  }

  lemma PairDen(f: Fragment, g: Fragment)
    ensures DenItem(Group([f, g])) == Den(f) + Den(g)
  {
    var pair := [f, g];
    assert pair[1..] == [g];
    assert DenAlts(pair) == Den(f) + DenAlts([g]);
  }

  function AllDigits(d: nat): Fragment
    requires d > 0
  {
    if d == 1 then Fragment([NONZERO_DIGIT]) else Fragment([NONZERO_DIGIT, Rep(ANY_DIGIT, d - 1, Some(d - 1))])
  }

  lemma AllDigitsDen(d: nat)
    requires d >= 2
    ensures Den(AllDigits(d)) == Spelled(Ten(d - 1), Some(Ten(d) - 1))
  {
    hide Value, Ten, Spelled, IsSpelled, DenItem;
    var k := d - 1;
    var head, rep := DenItem(NONZERO_DIGIT), Rep(ANY_DIGIT, k, Some(k));
    assert AllDigits(d) == Then(Fragment([NONZERO_DIGIT]), Fragment([rep]));
    DenThen(Fragment([NONZERO_DIGIT]), Fragment([rep]));
    DenOne(NONZERO_DIGIT);
    DenOne(rep);
    RepDen(ANY_DIGIT, k, Some(k));
    RepeatedExactly(DenItem(ANY_DIGIT), k);
    TenSteps(d);
    BandIsSpelled(d, Ten(k), Ten(d) - 1);
    forall w: Word ensures w in Cat(head, DenItem(rep)) <==> InBand(w, d, Ten(k), Ten(d) - 1) {
      HeadAndDigits(k, w);
    }
  }

  /** A nonzero digit and k more digits are the numbers of k + 1 digits. */
  lemma HeadAndDigits(k: nat, w: Word)
    requires k > 0
    ensures w in Cat(DenItem(NONZERO_DIGIT), Power(DenItem(ANY_DIGIT), k)) <==> InBand(w, k + 1, Ten(k), Ten(k + 1) - 1)
  {
    hide Value, Ten, DenItem, Power, Cat;
    var head, tail := DenItem(NONZERO_DIGIT), Power(DenItem(ANY_DIGIT), k);
    if w in Cat(head, tail) {
      var u, v := CatElim(head, tail, w);
      NonzeroDigitDen(u);
      DigitPower(k, v);
      FirstDigitMagnitude(w);
      ValueBound(w);
    }
    if InBand(w, k + 1, Ten(k), Ten(k + 1) - 1) {
      FirstDigitMagnitude(w);
      NonzeroDigitDen(w[..1]);
      DigitPower(k, w[1..]);
      CatIntro(head, tail, w[..1], w[1..]);
      assert w == w[..1] + w[1..];
    }
  }

  lemma TenSteps(d: nat)
    requires d > 0
    ensures 0 < Ten(d - 1) < Ten(d) && Ten(d) == 10 * Ten(d - 1)
  {}

  function Reversed<T>(s: seq<T>): (r: seq<T>)
    ensures |r| == |s|
  {
    if s == [] then [] else Reversed(s[1..]) + [s[0]]
  }

  /** The order of alternatives does not matter. */
  lemma {:induction false} ReversedDen(parts: seq<Fragment>)
    requires parts != []
    ensures DenAlts(Reversed(parts)) == DenAlts(parts)
  {
    if |parts| == 1 {
      assert Reversed(parts[1..]) == [] && [] + [parts[0]] == parts;
    } else {
      ReversedDen(parts[1..]);
      DenAltsSnoc(Reversed(parts[1..]), parts[0]);
    }
  }

  lemma NextBand(a: nat, d: nat, parts: seq<Fragment>)
    requires d >= 2 && parts != [] && a < Ten(d - 1) && DenAlts(parts) == Spelled(a, Some(Ten(d - 1) - 1))
    ensures a < Ten(d) && DenAlts(parts + [AllDigits(d)]) == Spelled(a, Some(Ten(d) - 1))
  {
    hide Den, DenAlts, Spelled, Ten, AllDigits;
    AllDigitsDen(d);
    TenSteps(d);
    SpelledUnion(a, Ten(d - 1), Some(Ten(d) - 1));
    DenAltsSnoc(parts, AllDigits(d));
  }

  lemma LastBand(a: nat, b: nat, db: nat, parts: seq<Fragment>)
    requires 0 < db <= 19 && Ten(db - 1) <= b < Ten(db) && a < Ten(db - 1)
    requires parts != [] && DenAlts(parts) == Spelled(a, Some(Ten(db - 1) - 1))
    ensures DenAlts(parts + [FlRange(Ten(db - 1), b, db)]) == Spelled(a, Some(b))
  {
    hide Den, DenAlts, Spelled, Ten, FlRange;
    var low := Ten(db - 1);
    FlRangeDen(low, b, db);
    BandIsSpelled(db, low, b);
    SpelledUnion(a, low, Some(b));
    DenAltsSnoc(parts, FlRange(low, b, db));
  }

  /** `pos_range`: the positive integers from `a` to `b`, one band for each digit length. */
  method PosRange(a: nat, b: nat) returns (f: Fragment)
    requires 1 <= a <= b <= -I64_MIN
    ensures Den(f) == Spelled(a, Some(b))
  {
    hide Den, DenAlts, Spelled, Ten, FlRange, AllDigits, Alt;
    MagnitudeDigits(a);
    MagnitudeDigits(b);
    SpellLength(a);
    SpellLength(b);
    SpellShape(a);
    SpellShape(b);
    var da := NumDigits(a);
    var db := NumDigits(b);
    if da == db {
      f := FlRange(a, b, da);
      FlRangeDen(a, b, da);
      BandIsSpelled(da, a, b);
      return;
    }
    DigitsGrow(a, b, da, db);
    var top := Pow10(da);
    var parts := [FlRange(a, top - 1, da)];
    FlRangeDen(a, top - 1, da);
    BandIsSpelled(da, a, top - 1);
    OneAlt(parts[0]);
    for d := da + 1 to db
      invariant parts != [] && a < Ten(d - 1) && DenAlts(parts) == Spelled(a, Some(Ten(d - 1) - 1))
    {
      NextBand(a, d, parts);
      parts := parts + [AllDigits(d)];
    }
    var low := Pow10(db - 1);
    var last := FlRange(low, b, db);
    LastBand(a, b, db, parts);
    parts := parts + [last];
    ReversedDen(parts);
    f := Alt(Reversed(parts));
    AltDen(Reversed(parts));
  }

  lemma DigitsGrow(a: nat, b: nat, da: nat, db: nat)
    requires 0 < da && 0 < db && da != db && a <= b
    requires Ten(da - 1) <= a < Ten(da) && Ten(db - 1) <= b < Ten(db)
    ensures da < db
  {
    if db < da { TenMonotone(db, da - 1); }
  }

  lemma OneAlt(f: Fragment)
    ensures DenAlts([f]) == Den(f)
  {}

  // --- integer_regex -------------------------------------------------------------------------------------------------

  /** The integers from `lo` to `hi` split at zero. */
  lemma {:induction false} SignSplit(lo: Option<int>, hi: Option<int>, w: Word)
    ensures IsIntSpelled(w, lo, hi) <==>
              || IsIntSpelled(w, lo, Some(if hi.Some? && hi.value < -1 then hi.value else -1))
              || (Bounds(lo, hi, 0) && w == [ZERO])
              || IsIntSpelled(w, Some(if lo.Some? && lo.value > 1 then lo.value else 1), hi)
  {
    hide Spell;
    var below, above := Some(if hi.Some? && hi.value < -1 then hi.value else -1), Some(if lo.Some? && lo.value > 1 then lo.value else 1);
    ZeroSpelled();
    if n :| IntSpelledBy(w, lo, hi, n) {
      assert n < 0 ==> IntSpelledBy(w, lo, below, n);
      assert n > 0 ==> IntSpelledBy(w, above, hi, n);
    }
    if n :| IntSpelledBy(w, lo, below, n) { assert IntSpelledBy(w, lo, hi, n); }
    if n :| IntSpelledBy(w, above, hi, n) { assert IntSpelledBy(w, lo, hi, n); }
    if Bounds(lo, hi, 0) && w == [ZERO] { assert IntSpelledBy(w, lo, hi, 0); }
  }

  lemma ZeroSpelled()
    ensures SpellInt(0) == [ZERO]
  {}

  lemma PositiveSpelled(lo: nat, hi: Option<int>)
    requires lo >= 1 && (hi.Some? ==> hi.value >= 0)
    ensures Integers(Some(lo), hi) == Spelled(lo, if hi.Some? then Some(hi.value as nat) else None)
  {
    hide Spell;
    var top: Option<nat> := if hi.Some? then Some(hi.value as nat) else None;
    forall w: Word ensures IsIntSpelled(w, Some(lo), hi) <==> IsSpelled(w, lo, top) {
      if n :| IntSpelledBy(w, Some(lo), hi, n) { assert SpelledBy(w, lo, top, n); }
      if n: nat :| SpelledBy(w, lo, top, n) { assert IntSpelledBy(w, Some(lo), hi, n); }
    }
  }

  lemma NegativeSpelled(lo: Option<int>, a: nat, hi: Option<int>)
    requires a >= 1 && (lo.Some? ==> lo.value <= 0) && hi == Some(-(a as int))
    ensures Integers(lo, hi) == Cat(iset{[MINUS]}, Spelled(a, if lo.Some? then Some(-lo.value as nat) else None))
  {
    hide Spell;
    var top: Option<nat> := if lo.Some? then Some(-lo.value as nat) else None;
    var sign: Lang := iset{[MINUS]};
    forall w: Word ensures IsIntSpelled(w, lo, hi) <==> w in Cat(sign, Spelled(a, top)) {
      if n :| IntSpelledBy(w, lo, hi, n) {
        assert SpelledBy(Spell(-n), a, top, -n);
        CatIntro(sign, Spelled(a, top), [MINUS], Spell(-n));
      }
      if w in Cat(sign, Spelled(a, top)) {
        var u, v := CatElim(sign, Spelled(a, top), w);
        var n: nat :| SpelledBy(v, a, top, n);
        assert IntSpelledBy(w, lo, hi, -(n as int));
      }
    }
  }

  lemma ByteDen(b: Byte)
    ensures Den(Fragment([Class(b, b)])) == iset{[b]}
  {
    DenOne(Class(b, b));
    forall w: Word ensures w in DenItem(Class(b, b)) <==> w == [b] {}
  }

  lemma MinusDen(f: Fragment)
    ensures Den(Then(Fragment([Class(MINUS, MINUS)]), f)) == Cat(iset{[MINUS]}, Den(f))
  {
    DenThen(Fragment([Class(MINUS, MINUS)]), f);
    ByteDen(MINUS);
  }

  /** The union of the alternatives collected so far; nothing before the first. */
  ghost function Collected(alts: seq<Fragment>): Lang {
    if alts == [] then NOTHING else DenAlts(alts)
  }

  lemma CollectedSnoc(alts: seq<Fragment>, f: Fragment)
    ensures Collected(alts + [f]) == Collected(alts) + Den(f)
  {
    if alts != [] { DenAltsSnoc(alts, f); }
  }

  method NegativeSide(lo: Option<int>, hi: Option<int>) returns (alts: seq<Fragment>)
    requires I64Bound(lo) && I64Bound(hi)
    ensures Collected(alts) == Integers(lo, Some(if hi.Some? && hi.value < -1 then hi.value else -1))
    ensures lo.Some? && hi.Some? && lo.value > hi.value ==> alts == []
  {
    hide Den, Spelled, Then, DenAlts;
    alts := [];
    var negHi := if hi.Some? && hi.value < -1 then hi.value else -1;
    if lo.Some? && lo.value > negHi {
      NoIntegers(lo, Some(negHi));
      return;
    }
    var f;
    if lo.Some? { f := PosRange(-negHi, -lo.value); } else { f := PosGe(-negHi); }
    MinusDen(f);
    NegativeSpelled(lo, -negHi, Some(negHi));
    alts := [Then(Fragment([Class(MINUS, MINUS)]), f)];
    OneAlt(alts[0]);
  }

  method PositiveSide(lo: Option<int>, hi: Option<int>) returns (alts: seq<Fragment>)
    requires I64Bound(lo) && I64Bound(hi)
    ensures |alts| <= 1
    ensures lo.Some? && hi.Some? && lo.value > hi.value ==> alts == []
    ensures Collected(alts) == Integers(Some(if lo.Some? && lo.value > 1 then lo.value else 1), hi)
  {
    hide Den, Spelled, Then, DenAlts;
    alts := [];
    var posLo := if lo.Some? && lo.value > 1 then lo.value else 1;
    if hi.Some? && posLo > hi.value {
      NoIntegers(Some(posLo), hi);
      return;
    }
    var f;
    if hi.Some? { f := PosRange(posLo, hi.value); } else { f := PosGe(posLo); }
    PositiveSpelled(posLo, hi);
    alts := [f];
    OneAlt(f);
  }

  lemma NoIntegers(lo: Option<int>, hi: Option<int>)
    requires lo.Some? && hi.Some? && lo.value > hi.value
    ensures Integers(lo, hi) == NOTHING
  {}

  lemma SomeInteger(lo: Option<int>, hi: Option<int>)
    requires lo.Some? && hi.Some? ==> lo.value <= hi.value
    ensures Integers(lo, hi) != NOTHING
  {
    hide Spell;
    var n := if lo.Some? then lo.value else if hi.Some? then hi.value else 0;
    assert IntSpelledBy(SpellInt(n), lo, hi, n);
    assert SpellInt(n) in Integers(lo, hi);
  }

  /** `integer_regex`: exactly the JSON spellings of the integers within the bounds. With no integer within
      them the alternation is empty, and the text `(?:)` matches the empty word. */
  method IntegerRegex(lo: Option<int>, hi: Option<int>) returns (f: Fragment)
    requires I64Bound(lo) && I64Bound(hi)
    ensures (lo.Some? && hi.Some? ==> lo.value <= hi.value) <==> Den(f) == Integers(lo, hi)
    ensures lo.Some? && hi.Some? && lo.value > hi.value ==> Den(f) == EPSILON
  {
    hide Integers, Den, DenAlts, Collected;
    var alts := NegativeSide(lo, hi);
    ghost var negative := Collected(alts);
    if Bounds(lo, hi, 0) {
      CollectedSnoc(alts, Fragment([Class(ZERO, ZERO)]));
      ByteDen(ZERO);
      alts := alts + [Fragment([Class(ZERO, ZERO)])];
    }
    ghost var nonpositive := Collected(alts);
    var positive := PositiveSide(lo, hi);
    AppendOne(alts, positive);
    alts := alts + positive;
    AllSides(lo, hi);
    assert Collected(alts) == Integers(lo, hi);
    f := Fragment([Group(alts)]);
    DenOne(Group(alts));
    CollectedGroup(alts);
    if lo.Some? && hi.Some? && lo.value > hi.value {
      NoIntegers(lo, hi);
      EpsilonIsSomething();
    } else {
      SomeInteger(lo, hi);
      NothingCollected();
    }
  }

  lemma EpsilonIsSomething()
    ensures EPSILON != NOTHING
  {
    var e: Word := [];
    assert e in EPSILON;
  }

  lemma NothingCollected()
    ensures Collected([]) == NOTHING
  {}

  lemma CollectedGroup(alts: seq<Fragment>)
    ensures DenItem(Group(alts)) == if alts == [] then EPSILON else Collected(alts)
  {}

  lemma AppendOne(alts: seq<Fragment>, more: seq<Fragment>)
    requires |more| <= 1
    ensures Collected(alts + more) == Collected(alts) + Collected(more)
  {
    if more == [] { assert alts + more == alts; } else {
      CollectedSnoc(alts, more[0]);
      OneAlt(more[0]);
      assert more == [more[0]];
    }
  }

  lemma AllSides(lo: Option<int>, hi: Option<int>)
    ensures Integers(lo, hi) ==
            Integers(lo, Some(if hi.Some? && hi.value < -1 then hi.value else -1))
            + (if Bounds(lo, hi, 0) then iset{[ZERO]} else NOTHING)
            + Integers(Some(if lo.Some? && lo.value > 1 then lo.value else 1), hi)
  {
    hide IsIntSpelled;
    forall w: Word { SignSplit(lo, hi, w); }
  }
}
