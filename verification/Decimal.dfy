/** Decimal spellings of integers and the u64 helpers that the digit patterns are built from. */
module Decimal {
  import opened Languages
  import opened Counting

  const ZERO: Byte := 48
  const NINE: Byte := 57
  const MINUS: Byte := 45

  function Ten(k: nat): (p: nat)
    ensures p >= 1
  {
    if k == 0 then 1 else 10 * Ten(k - 1)
  }

  predicate IsDigit(b: Byte) {
    ZERO <= b <= NINE
  }

  predicate Digits(w: Word) {
    forall i :: 0 <= i < |w| ==> IsDigit(w[i])
  }

  /** The value of a digit string, leading zeros allowed. */
  function Value(w: Word): nat
    requires Digits(w)
  {
    if w == [] then 0 else 10 * Value(w[..|w| - 1]) + (w[|w| - 1] - ZERO)
  }

  /** The spelling of a natural number without leading zeros. */
  function Spell(n: nat): (w: Word) {
    if n < 10 then [(ZERO + n) as Byte] else Spell(n / 10) + [(ZERO + n % 10) as Byte]
  }

  /** The JSON spelling of an integer. */
  function SpellInt(n: int): (w: Word) {
    if n < 0 then [MINUS] + Spell(-n) else Spell(n)
  }

  lemma {:induction false} SpellShape(n: nat)
    ensures Digits(Spell(n)) && Value(Spell(n)) == n && Spell(n) != []
    ensures Spell(n)[0] == ZERO ==> Spell(n) == [ZERO]
    ensures n > 0 ==> Spell(n)[0] != ZERO
  {
    if n < 10 {
      assert Spell(n)[..0] == [];
    } else {
      SpellShape(n / 10);
      var w := Spell(n);
      assert w[..|w| - 1] == Spell(n / 10);
    }
  }

  /** Digit strings without leading zeros are exactly the spellings. */
  lemma {:induction false} SpellUnique(w: Word)
    requires Digits(w) && w != [] && (w[0] == ZERO ==> |w| == 1)
    ensures w == Spell(Value(w))
  {
    var k := |w| - 1;
    if k == 0 {
      assert w[..0] == [];
    } else {
      SpellUnique(w[..k]);
      ValuePositive(w[..k]);
      assert w == w[..k] + [w[k]];
    }
  }

  lemma {:induction false} ValuePositive(w: Word)
    requires Digits(w) && w != [] && w[0] != ZERO
    ensures Value(w) > 0
  {
    if |w| > 1 { ValuePositive(w[..|w| - 1]); } else { assert w[..0] == []; }
  }

  lemma {:induction false} ValueBound(w: Word)
    requires Digits(w)
    ensures Value(w) < Ten(|w|)
  {
    if w != [] { ValueBound(w[..|w| - 1]); }
  }

  lemma TimesTen(x: nat, p: nat)
    ensures x * (10 * p) == 10 * (x * p)
  {}

  lemma TimesAtLeast(d: nat, p: nat)
    ensures d == 0 ==> d * p == 0
    ensures d >= 1 ==> d * p >= p
  {}

  /** The value of a split digit string. */
  lemma {:induction false} ValueJoin(u: Word, v: Word)
    requires Digits(u) && Digits(v)
    ensures Digits(u + v) && Value(u + v) == Value(u) * Ten(|v|) + Value(v)
    decreases |v|
  {
    if v == [] {
      assert u + v == u;
    } else {
      var k := |v| - 1;
      ValueJoin(u, v[..k]);
      assert (u + v)[..|u + v| - 1] == u + v[..k];
      TimesTen(Value(u), Ten(k));
    }
  }

  lemma ValueOne(d: Byte)
    requires IsDigit(d)
    ensures Digits([d]) && Value([d]) == d - ZERO
  {
    assert [d][..0] == [];
  }

  lemma ValueCons(d: Byte, v: Word)
    requires IsDigit(d) && Digits(v)
    ensures Digits([d] + v) && Value([d] + v) == (d - ZERO) * Ten(|v|) + Value(v)
  {
    hide Value, Ten;
    ValueOne(d);
    ValueJoin([d], v);
  }

  /** Without a leading zero, the length of a digit string gives the magnitude of its value. */
  lemma FirstDigitMagnitude(w: Word)
    requires Digits(w) && w != []
    ensures w[0] != ZERO <==> Value(w) >= Ten(|w| - 1)
  {
    hide Value, Ten;
    var v := w[1..];
    assert w == [w[0]] + v;
    ValueCons(w[0], v);
    ValueBound(v);
    TimesAtLeast(w[0] - ZERO, Ten(|v|));
  }

  lemma {:induction false} TenMonotone(j: nat, k: nat)
    requires j <= k
    ensures Ten(j) <= Ten(k)
  {
    if j < k { TenMonotone(j, k - 1); }
  }

  lemma {:induction false} TenSum(j: nat, k: nat)
    ensures Ten(j + k) == Ten(j) * Ten(k)
  {
    if j > 0 { TenSum(j - 1, k); }
  }

  /** 10^19 still fits a u64 and 10^20 does not. */
  lemma LargestPower()
    ensures Ten(19) <= U64_MAX < Ten(20)
    ensures forall k: nat :: k <= 19 <==> Ten(k) <= U64_MAX
  {
    assert Ten(10) == 10000000000;
    TenSum(10, 9);
    assert Ten(9) == 1000000000;
    TenSum(10, 10);
    forall k: nat ensures k <= 19 <==> Ten(k) <= U64_MAX {
      if k <= 19 { TenMonotone(k, 19); } else { TenMonotone(20, k); }
    }
  }

  /** `pow10`: its products stay within u64 for exponents up to 19. */
  method Pow10(k: nat) returns (v: nat)
    requires k <= 19
    ensures v == Ten(k) <= U64_MAX
  {
    LargestPower();
    v := 1;
    for i := 0 to k
      invariant v == Ten(i)
    {
      assert Ten(i + 1) == 10 * v;
      assert v * 10 <= U64_MAX;
      v := v * 10;
    }
  }

  /** `num_digits`: the length of the spelling. */
  method NumDigits(n: nat) returns (d: nat)
    ensures d == |Spell(n)|
  {
    d := 1;
    var v := n;
    while v >= 10
      invariant d + |Spell(v)| == |Spell(n)| + 1
    {
      v := v / 10;
      d := d + 1;
    }
  }

  /** A positive number has d digits exactly when it lies between the powers of ten. */
  lemma {:induction false} SpellLength(n: nat)
    requires n > 0
    ensures Ten(|Spell(n)| - 1) <= n < Ten(|Spell(n)|)
  {
    if n >= 10 {
      SpellLength(n / 10);
      var p := Ten(|Spell(n / 10)| - 1);
      assert Ten(|Spell(n / 10)|) == 10 * p;
    } else {
      assert Ten(0) == 1 && Ten(1) == 10;
    }
  }

  /** Every magnitude of an i64 has at most 19 digits, so no power above 10^19 is asked for. */
  lemma MagnitudeDigits(n: nat)
    requires n <= 0x8000_0000_0000_0000
    ensures |Spell(n)| <= 19
  {
    assert Ten(10) == 10000000000 && Ten(9) == 1000000000;
    TenSum(10, 9);
    if n > 0 {
      SpellLength(n);
      if |Spell(n)| >= 20 { TenMonotone(19, |Spell(n)| - 1); }
    }
  }
}
