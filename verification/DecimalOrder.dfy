/** The order of decimals given as a coefficient and a scale (ir.rs:1796-1834), decided on left-aligned digit
    arrays instead of scaled integers. */
module DecimalOrder {
  import opened Decimal

  const WIDTH: nat := 39
  const I128_MIN: int := -0x8000_0000_0000_0000_0000_0000_0000_0000
  const I128_MAX: int := 0x7FFF_FFFF_FFFF_FFFF_FFFF_FFFF_FFFF_FFFF
  const U32_MAX: nat := 0xFFFF_FFFF

  /** The decimal `coef` / 10^`scale`. */
  datatype Dec = Dec(coef: int, scale: nat)
  {
    ghost predicate Ok() {
      I128_MIN <= coef <= I128_MAX && scale <= U32_MAX
    }
  }

  datatype Ordering = Less | Equal | Greater

  function Cmp(x: int, y: int): Ordering {
    if x < y then Less else if x == y then Equal else Greater
  }

  function Reverse(o: Ordering): Ordering {
    match o case Less => Greater case Equal => Equal case Greater => Less
  }

  /** The exact order: a / 10^s against b / 10^t is a * 10^t against b * 10^s. */
  ghost function Order(a: Dec, b: Dec): Ordering {
    Cmp(a.coef * Ten(b.scale), b.coef * Ten(a.scale))
  }

  function Signum(x: int): int {
    if x < 0 then -1 else if x == 0 then 0 else 1
  }

  // --- digit strings ---------------------------------------------------------------------------------------------------

  ghost predicate AllDigits(d: seq<nat>) {
    forall i :: 0 <= i < |d| ==> d[i] < 10
  }

  /** The value of digits, most significant first. */
  function DigitValue(d: seq<nat>): nat {
    if d == [] then 0 else d[0] * Ten(|d| - 1) + DigitValue(d[1..])
  }

  /** The value of digits, least significant first. */
  function LowValue(r: seq<nat>): nat {
    if r == [] then 0 else r[|r| - 1] * Ten(|r| - 1) + LowValue(r[..|r| - 1])
  }

  lemma {:induction false} DigitBound(d: seq<nat>)
    requires AllDigits(d)
    ensures DigitValue(d) < Ten(|d|)
  {
    if d != [] {
      DigitBound(d[1..]);
      AtMostNineTimes(d[0], Ten(|d| - 1));
    }
  }

  lemma AtMostNineTimes(x: nat, p: nat)
    requires x <= 9
    ensures x * p + p <= 10 * p
  {}

  lemma {:induction false} ReversedValue(d: seq<nat>, r: seq<nat>)
    requires |d| == |r| && forall i :: 0 <= i < |d| ==> d[i] == r[|r| - 1 - i]
    ensures DigitValue(d) == LowValue(r)
  {
    if d != [] { ReversedValue(d[1..], r[..|r| - 1]); }
  }

  lemma ScaleSum(x: nat, p: nat, y: nat, q: nat)
    ensures (x * p + y) * q == x * (p * q) + y * q
  {}

  /** Zeros on the right scale the value. */
  lemma {:induction false} PaddedValue(d: seq<nat>, k: nat)
    requires k <= |d| && forall i :: k <= i < |d| ==> d[i] == 0
    ensures DigitValue(d) == DigitValue(d[..k]) * Ten(|d| - k)
  {
    hide Ten;
    if k == 0 {
      ZeroValue(d);
    } else {
      PaddedValue(d[1..], k - 1);
      assert d[1..][..k - 1] == d[..k][1..];
      TenSum(k - 1, |d| - k);
      ScaleSum(d[0], Ten(k - 1), DigitValue(d[..k][1..]), Ten(|d| - k));
    }
  }

  lemma {:induction false} ZeroValue(d: seq<nat>)
    requires forall i :: 0 <= i < |d| ==> d[i] == 0
    ensures DigitValue(d) == 0
  {
    if d != [] { ZeroValue(d[1..]); }
  }

  function Lex(a: seq<nat>, b: seq<nat>): Ordering
    requires |a| == |b|
  {
    if a == [] then Equal
    else if a[0] != b[0] then Cmp(a[0], b[0])
    else Lex(a[1..], b[1..])
  }

  /** Digit by digit comparison is numeric comparison. */
  lemma {:induction false} LexIsNumeric(a: seq<nat>, b: seq<nat>)
    requires |a| == |b| && AllDigits(a) && AllDigits(b)
    ensures Lex(a, b) == Cmp(DigitValue(a), DigitValue(b))
  {
    if a != [] {
      LexIsNumeric(a[1..], b[1..]);
      DigitBound(a[1..]);
      DigitBound(b[1..]);
      LeadingDecides(a[0], DigitValue(a[1..]), b[0], DigitValue(b[1..]), Ten(|a| - 1));
    }
  }

  lemma LeadingDecides(x: nat, r: nat, y: nat, s: nat, p: nat)
    requires r < p && s < p
    ensures x < y ==> x * p + r < y * p + s
    ensures y < x ==> y * p + s < x * p + r
  {
    if x < y { TimesAtLeast(y - x, p); assert (y - x) * p == y * p - x * p; }
    if y < x { TimesAtLeast(x - y, p); assert (x - y) * p == x * p - y * p; }
  }

  lemma {:induction false} LexZeros(a: seq<nat>, b: seq<nat>)
    requires |a| == |b| && forall i :: 0 <= i < |a| ==> a[i] == b[i]
    ensures Lex(a, b) == Equal
  {
    if a != [] { LexZeros(a[1..], b[1..]); }
  }

  // --- decimal_digits --------------------------------------------------------------------------------------------------

  /** Digits of `value`, left-aligned in an array of 39, zeros to the right. */
  ghost predicate Aligned(digits: seq<nat>, length: nat, value: nat) {
    && |digits| == WIDTH && length <= WIDTH && AllDigits(digits)
    && (forall i :: length <= i < WIDTH ==> digits[i] == 0)
    && DigitValue(digits[..length]) == value
    && (value > 0 ==> length > 0 && Ten(length - 1) <= value < Ten(length))
  }

  lemma Magnitude()
    ensures -I128_MIN < Ten(WIDTH)
  {
    assert Ten(9) == 1000000000 && Ten(10) == 10000000000;
    TenSum(10, 10);
    TenSum(20, 10);
    TenSum(30, 9);
  }

  lemma LowSnoc(r: seq<nat>, k: nat)
    requires k < |r|
    ensures LowValue(r[..k + 1]) == r[k] * Ten(k) + LowValue(r[..k])
  {
    assert r[..k + 1][..k] == r[..k];
  }

  lemma TenFold(q: nat, p: nat)
    ensures q * p == q / 10 * (10 * p) + q % 10 * p
  {
    var x, y := q / 10, q % 10;
    assert q == 10 * x + y;
    TimesTen(x, p);
    ScaleSum(10, x, y, p);
  }

  lemma StillRoom(q: nat, k: nat, low: nat)
    requires q > 0 && q * Ten(k) + low < Ten(WIDTH)
    ensures k < WIDTH
  {
    hide Ten;
    TimesAtLeast(q, Ten(k));
    if k >= WIDTH { TenMonotone(WIDTH, k); }
  }

  /** The low digits first, in the places below `length`. */
  ghost predicate Reversed(reverse: seq<nat>, length: nat, value: nat) {
    && |reverse| == WIDTH && length <= WIDTH && AllDigits(reverse)
    && LowValue(reverse[..length]) == value
    && (length > 0 ==> reverse[length - 1] > 0)
  }

  /** The state of the division loop. */
  ghost predicate Dividing(reverse: seq<nat>, length: nat, rest: nat, value: nat) {
    && |reverse| == WIDTH && length <= WIDTH && AllDigits(reverse)
    && value == rest * Ten(length) + LowValue(reverse[..length])
    && (length > 0 && rest == 0 ==> reverse[length - 1] > 0)
  }

  lemma DivideOnce(reverse: seq<nat>, length: nat, rest: nat, value: nat)
    requires Dividing(reverse, length, rest, value) && rest > 0 && value < Ten(WIDTH)
    ensures length < WIDTH && Dividing(reverse[length := rest % 10], length + 1, rest / 10, value)
  {
    hide Ten, LowValue;
    StillRoom(rest, length, LowValue(reverse[..length]));
    var next := reverse[length := rest % 10];
    assert next[..length] == reverse[..length];
    LowSnoc(next, length);
    TenFold(rest, Ten(length));
    TenNext(length);
  }

  method LowDigits(value: nat) returns (reverse: array<nat>, length: nat)
    requires value <= -I128_MIN
    ensures fresh(reverse) && Reversed(reverse[..], length, value)
  {
    hide Ten, LowValue, Dividing;
    Magnitude();
    var rest: nat := value;
    reverse := new nat[WIDTH](_ => 0);
    length := 0;
    StartDividing(reverse[..], value);
    while rest > 0
      invariant reverse.Length == WIDTH && Dividing(reverse[..], length, rest, value)
      decreases rest
    {
      DivideOnce(reverse[..], length, rest, value);
      ghost var next := reverse[..][length := rest % 10];
      reverse[length] := rest % 10;
      assert reverse[..] == next;
      rest := rest / 10;
      length := length + 1;
    }
    Divided(reverse[..], length, value);
  }

  lemma StartDividing(reverse: seq<nat>, value: nat)
    requires |reverse| == WIDTH && forall i :: 0 <= i < WIDTH ==> reverse[i] == 0
    ensures Dividing(reverse, 0, value, value)
  {
    LowEmpty();
    assert reverse[..0] == [];
  }

  lemma Divided(reverse: seq<nat>, length: nat, value: nat)
    requires Dividing(reverse, length, 0, value)
    ensures Reversed(reverse, length, value)
  {
    hide Ten, LowValue;
    assert 0 * Ten(length) == 0;
  }

  /** `decimal_digits`: a magnitude of an i128 never fills more than the 39 places. */
  method DecimalDigits(value: nat) returns (digits: seq<nat>, length: nat)
    requires value <= -I128_MIN
    ensures Aligned(digits, length, value)
  {
    hide Aligned, Reversed;
    var reverse;
    reverse, length := LowDigits(value);
    ghost var low := reverse[..];
    ReversedSize(low, length, value);
    var out := new nat[WIDTH](_ => 0);
    for index := 0 to length
      invariant reverse[..] == low
      invariant forall i :: 0 <= i < index ==> out[i] == low[length - i - 1]
      invariant forall i :: index <= i < WIDTH ==> out[i] == 0
    {
      out[index] := reverse[length - index - 1];
    }
    digits := out[..];
    AlignedFrom(digits, low, length, value);
  }

  lemma ReversedSize(reverse: seq<nat>, length: nat, value: nat)
    requires Reversed(reverse, length, value)
    ensures |reverse| == WIDTH && length <= WIDTH
  {}

  lemma AlignedFrom(digits: seq<nat>, reverse: seq<nat>, length: nat, value: nat)
    requires Reversed(reverse, length, value) && |digits| == WIDTH
    requires forall i :: 0 <= i < length ==> digits[i] == reverse[length - i - 1]
    requires forall i :: length <= i < WIDTH ==> digits[i] == 0
    ensures Aligned(digits, length, value)
  {
    hide Ten, DigitValue, LowValue;
    ReversedValue(digits[..length], reverse[..length]);
    LengthOf(digits[..length], value);
  }

  lemma LowEmpty()
    ensures LowValue([]) == 0 && Ten(0) == 1
  {}

  lemma TenNext(k: nat)
    ensures Ten(k + 1) == 10 * Ten(k)
  {}

  lemma LengthOf(d: seq<nat>, value: nat)
    requires AllDigits(d) && DigitValue(d) == value && (d != [] ==> d[0] > 0)
    ensures value > 0 ==> d != [] && Ten(|d| - 1) <= value < Ten(|d|)
  {
    DigitBound(d);
    if d != [] { TimesAtLeast(d[0], Ten(|d| - 1)); }
  }

  // --- decimal_cmp -----------------------------------------------------------------------------------------------------

  lemma Grow(x: nat, y: nat, p: nat)
    requires p > 0
    ensures x < y ==> x * p < y * p
    ensures x == y ==> x * p == y * p
  {
    if x < y { TimesAtLeast(y - x, p); assert (y - x) * p == y * p - x * p; }
  }

  lemma CmpScaled(x: nat, y: nat, p: nat)
    requires p > 0
    ensures Cmp(x * p, y * p) == Cmp(x, y)
  {
    Grow(x, y, p);
    Grow(y, x, p);
  }

  lemma Regroup(x: nat, p: nat, q: nat)
    ensures (x * p) * q == x * (p * q)
  {}

  /** A larger exponent means a larger magnitude. */
  lemma ExponentDecides(a: nat, la: nat, s: nat, b: nat, lb: nat, t: nat)
    requires la > 0 && lb > 0 && Ten(la - 1) <= a < Ten(la) && Ten(lb - 1) <= b < Ten(lb)
    requires la + t < lb + s
    ensures a * Ten(t) < b * Ten(s)
  {
    hide Ten;
    TenSum(la, t);
    TenMonotone(la + t, lb - 1 + s);
    TenSum(lb - 1, s);
    Between(a, Ten(la), Ten(t), Ten(lb - 1), b, Ten(s));
  }

  lemma Between(a: nat, top: nat, p: nat, low: nat, b: nat, q: nat)
    requires a < top && low <= b && p > 0 && q > 0 && top * p <= low * q
    ensures a * p < b * q
  {
    Grow(a, top, p);
    Grow(low, b, q);
  }

  /** With equal exponents the left-aligned digits decide. */
  lemma DigitsDecide(a: nat, la: nat, s: nat, da: seq<nat>, b: nat, lb: nat, t: nat, db: seq<nat>)
    requires Aligned(da, la, a) && Aligned(db, lb, b) && la + t == lb + s
    ensures Cmp(a * Ten(t), b * Ten(s)) == Lex(da, db)
  {
    hide Ten, DigitValue, Lex;
    PaddedValue(da, la);
    PaddedValue(db, lb);
    LexIsNumeric(da, db);
    var n := la + t;
    Restore(a, la, t, DigitValue(da));
    Restore(b, lb, s, DigitValue(db));
    hide Cmp, Aligned;
    CmpThrough(DigitValue(da), DigitValue(db), Ten(n), a * Ten(t), b * Ten(s), Ten(WIDTH));
  }

  lemma CmpThrough(x: nat, y: nat, p: nat, u: nat, v: nat, q: nat)
    requires p > 0 && q > 0 && x * p == u * q && y * p == v * q
    ensures Cmp(u, v) == Cmp(x, y)
  {
    hide Cmp;
    CmpScaled(x, y, p);
    CmpScaled(u, v, q);
  }

  lemma Restore(a: nat, la: nat, t: nat, aligned: nat)
    requires la <= WIDTH && aligned == a * Ten(WIDTH - la)
    ensures aligned * Ten(la + t) == (a * Ten(t)) * Ten(WIDTH)
  {
    hide Ten;
    TenSum(WIDTH - la, la + t);
    TenSum(t, WIDTH);
    Regroup(a, Ten(WIDTH - la), Ten(la + t));
    Regroup(a, Ten(t), Ten(WIDTH));
  }

  lemma SignDecides(a: Dec, b: Dec)
    requires a.coef == 0 || b.coef == 0 || (a.coef < 0) != (b.coef < 0)
    ensures Order(a, b) == Cmp(Signum(a.coef), Signum(b.coef))
  {
    SignOf(a.coef, Ten(b.scale));
    SignOf(b.coef, Ten(a.scale));
  }

  lemma SignOf(x: int, p: nat)
    requires p > 0
    ensures Signum(x * p) == Signum(x)
  {}

  lemma NegateOrder(a: Dec, b: Dec)
    requires a.coef < 0 && b.coef < 0
    ensures Order(a, b) == Reverse(Cmp((-a.coef) * Ten(b.scale), (-b.coef) * Ten(a.scale)))
  {
    NegateTimes(a.coef, Ten(b.scale));
    NegateTimes(b.coef, Ten(a.scale));
  }

  lemma NegateTimes(x: int, p: nat)
    ensures (-x) * p == -(x * p)
  {}

  function Abs(x: int): nat {
    if x < 0 then -x else x
  }

  method CompareDigits(da: seq<nat>, la: nat, db: seq<nat>, lb: nat, ghost a: nat, ghost b: nat) returns (r: Ordering)
    requires Aligned(da, la, a) && Aligned(db, lb, b)
    ensures r == Lex(da, db)
  {
    hide Ten, DigitValue;
    r := Equal;
    var stop := if la >= lb then la else lb;
    for index := 0 to stop
      invariant r == Equal && Lex(da, db) == Lex(da[index..], db[index..])
    {
      r := Cmp(da[index], db[index]);
      if r != Equal { return; }
      assert da[index..][1..] == da[index + 1..] && db[index..][1..] == db[index + 1..];
    }
    LexZeros(da[stop..], db[stop..]);
  }

  /** `decimal_cmp`: the exact order of a * 10^t and b * 10^s, for every pair of i128 coefficients and u32 scales,
      without ever scaling a coefficient. */
  method DecimalCmp(a: Dec, b: Dec) returns (r: Ordering)
    requires a.Ok() && b.Ok()
    ensures r == Order(a, b)
  {
    hide Order, Aligned, Lex, Ten;
    if a.coef == 0 || b.coef == 0 || (a.coef < 0) != (b.coef < 0) {
      SignDecides(a, b);
      return Cmp(Signum(a.coef), Signum(b.coef));
    }
    var aDigits, aLen := DecimalDigits(Abs(a.coef));
    var bDigits, bLen := DecimalDigits(Abs(b.coef));
    var aExponent: int := aLen - a.scale;
    var bExponent: int := bLen - b.scale;
    var magnitude := Cmp(aExponent, bExponent);
    if magnitude == Equal {
      magnitude := CompareDigits(aDigits, aLen, bDigits, bLen, Abs(a.coef), Abs(b.coef));
    }
    MagnitudeIs(a, aDigits, aLen, b, bDigits, bLen, magnitude);
    if a.coef < 0 {
      NegateOrder(a, b);
      r := Reverse(magnitude);
    } else {
      SameOrder(a, b);
      r := magnitude;
    }
  }

  lemma SameOrder(a: Dec, b: Dec)
    requires a.coef > 0 && b.coef > 0
    ensures Order(a, b) == Cmp(Abs(a.coef) * Ten(b.scale), Abs(b.coef) * Ten(a.scale))
  {}

  lemma MagnitudeIs(a: Dec, da: seq<nat>, la: nat, b: Dec, db: seq<nat>, lb: nat, magnitude: Ordering)
    requires a.coef != 0 && b.coef != 0 && Aligned(da, la, Abs(a.coef)) && Aligned(db, lb, Abs(b.coef))
    requires magnitude == if la - a.scale == lb - b.scale then Lex(da, db) else Cmp(la - a.scale, lb - b.scale)
    ensures magnitude == Cmp(Abs(a.coef) * Ten(b.scale), Abs(b.coef) * Ten(a.scale))
  {
    hide Ten, DigitValue, Lex;
    var x, y := Abs(a.coef), Abs(b.coef);
    if la + b.scale < lb + a.scale {
      ExponentDecides(x, la, a.scale, y, lb, b.scale);
    } else if lb + a.scale < la + b.scale {
      ExponentDecides(y, lb, b.scale, x, la, a.scale);
    } else {
      DigitsDecide(x, la, a.scale, da, y, lb, b.scale, db);
    }
  }

  /** The order is a total preorder. */
  lemma OrderIsTotal(a: Dec, b: Dec)
    ensures Order(b, a) == Reverse(Order(a, b))
  {}

  lemma CancelLe(x: int, y: int, p: nat)
    requires p > 0
    ensures x * p <= y * p <==> x <= y
  {
    if x <= y { assert (y - x) * p >= 0; assert (y - x) * p == y * p - x * p; }
    if y < x { assert (x - y) * p >= p by { TimesAtLeast(x - y, p); } assert (x - y) * p == x * p - y * p; }
  }

  lemma Swap(x: int, p: nat, q: nat)
    ensures (x * p) * q == (x * q) * p
  {}

  lemma OrderIsTransitive(a: Dec, b: Dec, c: Dec)
    requires Order(a, b) != Greater && Order(b, c) != Greater
    ensures Order(a, c) != Greater
    ensures Order(a, b) == Less || Order(b, c) == Less ==> Order(a, c) == Less
  {
    hide Ten;
    var p, q, r := Ten(a.scale), Ten(b.scale), Ten(c.scale);
    CancelLe(a.coef * q, b.coef * p, r);
    CancelLe(b.coef * p, a.coef * q, r);
    CancelLe(b.coef * r, c.coef * q, p);
    CancelLe(c.coef * q, b.coef * r, p);
    Swap(a.coef, q, r);
    Swap(b.coef, p, r);
    Swap(c.coef, q, p);
    CancelLe(a.coef * r, c.coef * p, q);
    CancelLe(c.coef * p, a.coef * r, q);
  }
}
