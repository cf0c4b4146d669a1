/** Automata for integers constrained by `multipleOf` (automaton/multiple_of.rs, compile.rs:383-391). */
module MultipleOf {
  import opened Outcome
  import opened Languages
  import opened Graph
  import opened Engine
  import opened Decimal
  import opened Counting
  import Bits
  import Combine
  import Finite
  import IntegerRange
  import Materialize
  import Product
  import Trie

  const MAX_MULTIPLE_OF_MODULUS: nat := 1048576
  const MAX_SUFFIX_ENDINGS: nat := 65536
  const MAX_ENGINE_REMAINDER_MODULUS: nat := 4096

  // --- arithmetic ----------------------------------------------------------------------------------------------

  lemma DivUnique(x: int, q: int, r: nat, m: nat)
    requires m > 0 && r < m && x == q * m + r
    ensures x / m == q && x % m == r
  {
    var q', r' := x / m, x % m;
    assert x == q' * m + r';
    SameQuotient(q, q', r, r', m);
  }

  lemma SameQuotient(q: int, p: int, r: nat, s: nat, m: nat)
    requires r < m && s < m && q * m + r == p * m + s
    ensures q == p && r == s
  {
    if q < p { TimesAtLeast(p - q, m); Distribute(p, q, m); }
    if p < q { TimesAtLeast(q - p, m); Distribute(q, p, m); }
  }

  lemma Distribute(p: int, q: int, m: int)
    ensures (p - q) * m == p * m - q * m
  {}

  /** Adding a multiple of the modulus does not change the remainder. */
  lemma ModShift(q: int, m: nat, y: int)
    requires m > 0
    ensures (q * m + y) % m == y % m
  {
    var k, r := y / m, y % m;
    assert y == k * m + r;
    assert q * m + y == (q + k) * m + r;
    DivUnique(q * m + y, q + k, r, m);
  }

  lemma ModNeg(n: int, m: nat)
    requires m > 0
    ensures n % m == 0 <==> (-n) % m == 0
  {
    if n % m == 0 { DivUnique(-n, -(n / m), 0, m); }
    if (-n) % m == 0 { DivUnique(n, -((-n) / m), 0, m); }
  }

  // --- the remainder automaton -----------------------------------------------------------------------------------

  /** The edges of the first `k` digits from remainder `r`; remainder x has state x + 2. */
  function DigitEdges(m: nat, r: nat, k: nat): seq<(Byte, nat)>
    requires m > 0 && k <= 10
  {
    if k == 0 then [] else DigitEdges(m, r, k - 1) + [((ZERO + k - 1) as Byte, (r * 10 + (k - 1)) % m + 2)]
  }

  function RemainderRow(m: nat, i: nat): ByteState
    requires m > 0
  {
    if i == 0 then ByteState(false, [(MINUS, 1)] + DigitEdges(m, 0, 10))
    else if i == 1 then ByteState(false, DigitEdges(m, 0, 10))
    else ByteState(i == 2, DigitEdges(m, i - 2, 10))
  }

  ghost predicate IsRemainderTable(states: seq<ByteState>, m: nat)
    requires m > 0
  {
    |states| == m + 2 && forall i :: 0 <= i < |states| ==> states[i] == RemainderRow(m, i)
  }

  lemma DigitEdgesStep(m: nat, r: nat, d: nat)
    requires m > 0 && d < 10
    ensures DigitEdges(m, r, 0) == []
    ensures DigitEdges(m, r, d + 1) == DigitEdges(m, r, d) + [(ZERO + d, (r * 10 + d) % m + 2)]
  {}

  /** `remainder_dfa_states`. */
  method RemainderDfaStates(m: nat) returns (states: seq<ByteState>)
    requires m > 0
    ensures IsRemainderTable(states, m)
  {
    hide DigitEdges;
    states := [];
    for i := 0 to m + 2
      invariant |states| == i && forall j :: 0 <= j < i ==> states[j] == RemainderRow(m, j)
    {
      var edges: seq<(Byte, nat)> := if i == 0 then [(MINUS, 1)] else [];
      ghost var sign := edges;
      var r: nat := if i < 2 then 0 else i - 2;
      DigitEdgesStep(m, r, 0);
      for d := 0 to 10
        invariant edges == sign + DigitEdges(m, r, d)
      {
        DigitEdgesStep(m, r, d);
        edges := edges + [(ZERO + d, (r * 10 + d) % m + 2)];
      }
      states := states + [ByteState(i == 2, edges)];
    }
  }

  lemma {:induction false} LookupDigit(m: nat, r: nat, k: nat, b: Byte)
    requires m > 0 && k <= 10
    ensures Lookup(DigitEdges(m, r, k), b) ==
            if ZERO <= b < ZERO + k then Some((r * 10 + (b - ZERO)) % m + 2) else None
  {
    if k > 0 {
      LookupDigit(m, r, k - 1, b);
      LookupAppend(DigitEdges(m, r, k - 1), ((ZERO + k - 1) as Byte, (r * 10 + (k - 1)) % m + 2), b);
    }
  }

  /** The remainder of the number r followed by digits of value `value`, where `t` is their power of ten. */
  function Extended(m: nat, r: nat, t: nat, value: nat): nat
    requires m > 0
  {
    (r * t + value) % m
  }

  /** Reading digits from remainder `r` computes the remainder of the extended number. */
  ghost predicate Divides(m: nat, r: nat, w: Word)
    requires m > 0
  {
    Digits(w) && Extended(m, r, Ten(|w|), Value(w)) == 0
  }

  lemma RemainderStep(m: nat, r: nat, w: Word)
    requires m > 0 && w != [] && IsDigit(w[0])
    ensures Divides(m, (r * 10 + (w[0] - ZERO)) % m, w[1..]) <==> Divides(m, r, w)
  {
    var d, v := w[0] - ZERO, w[1..];
    assert w == [w[0]] + v;
    if Digits(v) {
      hide Value, Ten, Extended;
      ValueCons(w[0], v);
      TenStep(|v|);
      SameRemainder(m, r, d, Ten(|v|), Value(v));
    }
  }

  lemma SameRemainder(m: nat, r: nat, d: nat, t: nat, value: nat)
    requires m > 0
    ensures Extended(m, (r * 10 + d) % m, t, value) == Extended(m, r, 10 * t, d * t + value)
  {
    var x := r * 10 + d;
    ExpandStep(m, r, d, t, value);
    ModShift(x / m * t, m, x % m * t + value);
  }

  lemma TenStep(k: nat)
    ensures Ten(k + 1) == 10 * Ten(k)
  {}

  lemma ExpandStep(m: nat, r: nat, d: nat, t: nat, v: nat)
    requires m > 0
    ensures var x := r * 10 + d;
            r * (10 * t) + (d * t + v) == (x / m * t) * m + (x % m * t + v)
  {
    var x := r * 10 + d;
    Regroup(x / m, x % m, m, t);
    assert x == x / m * m + x % m;
    assert r * (10 * t) + d * t == x * t;
  }

  lemma Regroup(q: nat, s: nat, m: nat, t: nat)
    ensures (q * m + s) * t == (q * t) * m + s * t
  {}

  lemma {:induction false} RemainderAccepts(states: seq<ByteState>, m: nat, r: nat, w: Word)
    requires m > 0 && IsRemainderTable(states, m) && r < m
    ensures Accepts(states, r + 2, w) <==> Divides(m, r, w)
    decreases |w|
  {
    hide Value, Ten, Divides, DigitEdges;
    if w == [] {
      RemainderEnd(m, r);
    } else {
      LookupDigit(m, r, 10, w[0]);
      if IsDigit(w[0]) {
        RemainderStep(m, r, w);
        RemainderAccepts(states, m, (r * 10 + (w[0] - ZERO)) % m, w[1..]);
      } else {
        NotDigits(m, r, w);
      }
    }
  }

  lemma NotDigits(m: nat, r: nat, w: Word)
    requires m > 0 && w != [] && !IsDigit(w[0])
    ensures !Divides(m, r, w)
  {
    hide Value, Ten;
  }

  lemma RemainderEnd(m: nat, r: nat)
    requires r < m
    ensures Divides(m, r, []) <==> r == 0
  {
    assert Ten(0) == 1 && Value([]) == 0;
    DivUnique(r, 0, r, m);
  }

  /** A non-empty digit string, leading zeros allowed, whose value the modulus divides. */
  ghost predicate Unsigned(m: nat, w: Word)
    requires m > 0
  {
    w != [] && Divides(m, 0, w)
  }

  lemma UnsignedAccepts(states: seq<ByteState>, m: nat, w: Word)
    requires m > 0 && IsRemainderTable(states, m)
    ensures Accepts(states, 1, w) <==> Unsigned(m, w)
    ensures Accepts(states, 0, w) <==> Unsigned(m, w) || (w != [] && w[0] == MINUS && Unsigned(m, w[1..]))
  {
    hide Value, Ten, Divides, DigitEdges;
    FirstDigit(states, m, w);
    if w != [] {
      LookupDigit(m, 0, 10, w[0]);
      FirstDigit(states, m, w[1..]);
      var edges := [(MINUS, 1)] + DigitEdges(m, 0, 10);
      assert edges[1..] == DigitEdges(m, 0, 10);
      if w[0] == MINUS { NotDigits(m, 0, w); }
    }
  }

  lemma FirstDigit(states: seq<ByteState>, m: nat, w: Word)
    requires m > 0 && IsRemainderTable(states, m)
    ensures Accepts(states, 1, w) <==> Unsigned(m, w)
  {
    hide Value, Ten, Divides, DigitEdges;
    if w != [] {
      LookupDigit(m, 0, 10, w[0]);
      if IsDigit(w[0]) {
        RemainderStep(m, 0, w);
        RemainderAccepts(states, m, (0 * 10 + (w[0] - ZERO)) % m, w[1..]);
      } else {
        NotDigits(m, 0, w);
      }
    }
  }

  /** What every engine for a modulus promises: on the canonical spelling of an integer it decides
      divisibility. */
  ghost predicate DecidesMultiples(l: Lang, m: nat)
    requires m > 0
  {
    forall n: int :: SpellInt(n) in l <==> n % m == 0
  }

  lemma SpellDivides(m: nat, n: nat)
    requires m > 0
    ensures Unsigned(m, Spell(n)) <==> n % m == 0
    ensures Spell(n) != [] && Spell(n)[0] != MINUS
  {
    hide Value, Spell, Ten;
    SpellShape(n);
  }

  lemma RemainderDecides(states: seq<ByteState>, m: nat)
    requires m > 0 && IsRemainderTable(states, m)
    ensures DecidesMultiples(StatesLanguage(states, 0), m)
  {
    hide Accepts, Unsigned, Spell;
    forall n: int ensures Accepts(states, 0, SpellInt(n)) <==> n % m == 0 {
      var w := SpellInt(n);
      UnsignedAccepts(states, m, w);
      ModNeg(n, m);
      if n < 0 {
        SpellDivides(m, -n);
        assert w[1..] == Spell(-n);
        MinusIsNotUnsigned(m, w);
      } else {
        SpellDivides(m, n);
      }
    }
  }

  lemma MinusIsNotUnsigned(m: nat, w: Word)
    requires m > 0 && w != [] && w[0] == MINUS
    ensures !Unsigned(m, w)
  {
    NotDigits(m, 0, w);
  }

  lemma {:induction false} DigitEdgeAt(m: nat, r: nat, k: nat, j: nat)
    requires m > 0 && j < k <= 10
    ensures |DigitEdges(m, r, k)| == k && DigitEdges(m, r, k)[j] == (ZERO + j, (r * 10 + j) % m + 2)
  {
    if k > 1 { DigitEdgeAt(m, r, k - 1, if j < k - 1 then j else 0); }
  }

  lemma DigitRowOk(m: nat, r: nat)
    requires m > 0
    ensures |DigitEdges(m, r, 10)| == 10 && RowOk(DigitEdges(m, r, 10), m + 2)
    ensures forall i :: 0 <= i < 10 ==> IsDigit(DigitEdges(m, r, 10)[i].0)
  {
    hide DigitEdges;
    var edges := DigitEdges(m, r, 10);
    DigitEdgeAt(m, r, 10, 0);
    forall j: nat | j < 10 ensures edges[j].0 == ZERO + j && edges[j].1 < m + 2 {
      DigitEdgeAt(m, r, 10, j);
      assert 0 <= (r * 10 + j) % m < m;
    }
  }

  lemma {:induction false} FlatBound(states: seq<ByteState>, c: nat)
    requires forall i :: 0 <= i < |states| ==> |states[i].edges| <= c
    ensures |FlatEdges(states)| <= c * |states|
  {
    if states != [] {
      var k := |states| - 1;
      FlatBound(states[..k], c);
      assert c * |states| == c * k + c;
    }
  }

  lemma RemainderAdmissible(states: seq<ByteState>, m: nat)
    requires 0 < m <= MAX_ENGINE_REMAINDER_MODULUS && IsRemainderTable(states, m)
    ensures Admissible(states, 0)
  {
    hide DigitEdges, FlatEdges;
    forall i | 0 <= i < |states| ensures RowOk(states[i].edges, m + 2) && |states[i].edges| <= 11 {
      DigitRowOk(m, if i < 2 then 0 else i - 2);
      assert states[i] == RemainderRow(m, i);
    }
    FlatBound(states, 11);
  }

  // --- every remainder can still be completed --------------------------------------------------------------

  lemma {:induction false} DigitsFor(x: nat, k: nat) returns (w: Word)
    requires x < Ten(k)
    ensures Digits(w) && |w| == k && Value(w) == x
  {
    if k == 0 {
      w := [];
    } else {
      var front := DigitsFor(x / 10, k - 1);
      w := front + [(ZERO + x % 10) as Byte];
      assert w[..k - 1] == front;
    }
  }

  lemma {:induction false} TenAbove(k: nat)
    ensures Ten(k) > k
  {
    if k > 0 { TenAbove(k - 1); }
  }

  lemma Complement(n: nat, m: nat) returns (x: nat)
    requires m > 0
    ensures x < m && (n + x) % m == 0
  {
    if n % m == 0 {
      x := 0;
    } else {
      x := m - n % m;
      assert n == n / m * m + n % m;
      assert n + x == (n / m + 1) * m;
      DivUnique(n + x, n / m + 1, 0, m);
    }
  }

  lemma RemainderCompletes(m: nat, r: nat) returns (w: Word)
    requires r < m
    ensures w != [] && Divides(m, r, w)
  {
    hide Ten, Value;
    TenAbove(m);
    var x := Complement(r * Ten(m), m);
    w := DigitsFor(x, m);
  }

  /** No state of the remainder table is dropped when it is trimmed. */
  lemma RemainderAlive(states: seq<ByteState>, m: nat)
    requires m > 0 && IsRemainderTable(states, m)
    ensures |Materialize.LiveSet(states)| == m + 2
  {
    hide Divides, Accepts, RemainderRow, Unsigned;
    forall q: nat | q < m + 2 ensures Materialize.AcceptsSomething(states, q) { StateAlive(states, m, q); }
    assert Materialize.LiveSet(states) == Finite.Below(m + 2);
  }

  lemma StateAlive(states: seq<ByteState>, m: nat, q: nat)
    requires m > 0 && IsRemainderTable(states, m) && q < m + 2
    ensures Materialize.AcceptsSomething(states, q)
  {
    hide Divides, Accepts, RemainderRow;
    var r: nat := if q < 2 then 0 else q - 2;
    var w := RemainderCompletes(m, r);
    if q < 2 { UnsignedAccepts(states, m, w); } else { RemainderAccepts(states, m, r, w); }
    assert Accepts(states, q, w);
  }

  /** `remainder_dfa_engine`: one state for each remainder, two before the first digit, and DEAD. */
  method RemainderDfaEngine(m: nat) returns (r: Result<RefEngine>)
    requires 0 < m <= MAX_ENGINE_REMAINDER_MODULUS
    ensures r.Ok? && r.value.Valid() && DecidesMultiples(r.value.Language(), m)
    ensures r.value.StateCount() == m + 3
  {
    hide RefEngine.Valid, RefEngine.Language, StatesLanguage, DecidesMultiples, Admissible, Materialize.LiveSet;
    var states := RemainderDfaStates(m);
    RemainderAlive(states, m);
    RemainderAdmissible(states, m);
    RemainderDecides(states, m);
    r := Materialize.StatesToEngine(states, 0);
  }

  // --- small engines -----------------------------------------------------------------------------------------------

  ghost predicate IsSign(w: Word) {
    w == [] || w == [MINUS]
  }

  ghost function OptionalSign(): Lang {
    iset w: Word | IsSign(w)
  }

  ghost function DigitStar(): Lang {
    iset w: Word | Digits(w)
  }

  lemma SignAdmissible(states: seq<ByteState>)
    requires states == [ByteState(true, [(MINUS, 1)]), ByteState(true, [])]
    ensures Admissible(states, 0)
  {
    hide FlatEdges;
    FlatBound(states, 1);
  }

  method OptionalSignEngine() returns (r: Result<RefEngine>)
    ensures r.Ok? && r.value.Valid() && r.value.Language() == OptionalSign() && r.value.StateCount() <= 3
  {
    hide RefEngine.Valid, RefEngine.Language;
    var states := [ByteState(true, [(MINUS, 1)]), ByteState(true, [])];
    SignAdmissible(states);
    forall w: Word ensures Accepts(states, 0, w) <==> IsSign(w) {
      if w != [] {
        assert w == [w[0]] + w[1..];
        assert Lookup(states[1].edges, 0) == None && Accepts(states, 1, w[1..]) <==> w[1..] == [];
        assert Lookup(states[0].edges, w[0]) == if w[0] == MINUS then Some(1) else Lookup([], w[0]);
      }
    }
    r := Materialize.StatesToEngine(states, 0);
  }

  function DigitLoops(k: nat): seq<(Byte, nat)>
    requires k <= 10
  {
    if k == 0 then [] else DigitLoops(k - 1) + [((ZERO + k - 1) as Byte, 0)]
  }

  lemma {:induction false} LookupLoop(k: nat, b: Byte)
    requires k <= 10
    ensures Lookup(DigitLoops(k), b) == if ZERO <= b < ZERO + k then Some(0) else None
  {
    if k > 0 {
      LookupLoop(k - 1, b);
      LookupAppend(DigitLoops(k - 1), ((ZERO + k - 1) as Byte, 0), b);
    }
  }

  lemma DigitsCons(w: Word)
    requires w != []
    ensures Digits(w) <==> IsDigit(w[0]) && Digits(w[1..])
  {
    assert w == [w[0]] + w[1..];
  }

  lemma {:induction false} LoopAccepts(states: seq<ByteState>, w: Word)
    requires states == [ByteState(true, DigitLoops(10))]
    ensures Accepts(states, 0, w) <==> Digits(w)
    decreases |w|
  {
    hide DigitLoops;
    if w != [] {
      LookupLoop(10, w[0]);
      DigitsCons(w);
      LoopAccepts(states, w[1..]);
    }
  }

  lemma {:induction false} LoopRow(k: nat)
    requires k <= 10
    ensures |DigitLoops(k)| == k && forall i :: 0 <= i < k ==> DigitLoops(k)[i] == ((ZERO + i) as Byte, 0)
  {
    if k > 0 { LoopRow(k - 1); }
  }

  lemma LoopAdmissible(states: seq<ByteState>)
    requires states == [ByteState(true, DigitLoops(10))]
    ensures Admissible(states, 0)
  {
    hide DigitLoops, FlatEdges;
    LoopRow(10);
    FlatBound(states, 10);
  }

  method DigitStarEngine() returns (r: Result<RefEngine>)
    ensures r.Ok? && r.value.Valid() && r.value.Language() == DigitStar() && r.value.StateCount() <= 2
  {
    hide RefEngine.Valid, RefEngine.Language, DigitLoops;
    var states := [ByteState(true, DigitLoops(10))];
    LoopAdmissible(states);
    forall w: Word ensures Accepts(states, 0, w) <==> Digits(w) { LoopAccepts(states, w); }
    r := Materialize.StatesToEngine(states, 0);
  }

  lemma SignedDecides(body: Lang, m: nat)
    requires m > 0
    requires forall w :: w in body ==> Digits(w)
    requires forall n: nat :: Spell(n) in body <==> n % m == 0
    ensures DecidesMultiples(Cat(OptionalSign(), body), m)
  {
    hide Spell;
    forall n: int ensures SpellInt(n) in Cat(OptionalSign(), body) <==> n % m == 0 {
      var w := SpellInt(n);
      var k: nat := if n < 0 then -n else n;
      ModNeg(n, m);
      SpellShape(k);
      var sign: Word := if n < 0 then [MINUS] else [];
      assert w == sign + Spell(k);
      if k % m == 0 { CatIntro(OptionalSign(), body, sign, Spell(k)); }
      if w in Cat(OptionalSign(), body) {
        var u, v := CatElim(OptionalSign(), body, w);
        SignSplit(u, v, n < 0, Spell(k));
      }
    }
  }

  lemma SignSplit(u: Word, v: Word, negative: bool, digits: Word)
    requires (u == [] || u == [MINUS]) && Digits(v) && Digits(digits) && digits != []
    requires u + v == (if negative then [MINUS] else []) + digits
    ensures v == digits
  {
    if negative {
      assert (u + v)[0] == MINUS && !Digits(u + v);
      assert u == [] ==> u + v == v;
      assert v == (u + v)[1..];
    } else {
      assert [] + digits == digits;
      assert (u + v)[0] == digits[0];
      assert u == [];
      assert u + v == v;
    }
  }

  /** `signed_digit_star_engine`: every integer is a multiple of one. It is always built. */
  method SignedDigitStarEngine() returns (r: Result<RefEngine>)
    ensures r.Ok? && r.value.Valid() && DecidesMultiples(r.value.Language(), 1) && r.value.StateCount() <= 9
  {
    hide RefEngine.Valid, RefEngine.Language, DecidesMultiples, Spell, Cat, Combine.TotalLive;
    var sign := OptionalSignEngine();
    var digits := DigitStarEngine();
    Combine.PairLive(sign.value, digits.value);
    Bits.Pow2Grows(sign.value.StateCount() + digits.value.StateCount() - 2, 3);
    forall n: nat ensures Spell(n) in DigitStar() <==> n % 1 == 0 { SpellShape(n); }
    SignedDecides(DigitStar(), 1);
    r := Combine.ConcatPair(sign.value, digits.value);
  }

  // --- the suffix construction ---------------------------------------------------------------------------------------

  function Pow(base: nat, k: nat): (p: nat)
    requires base > 0
    ensures p > 0
  {
    if k == 0 then 1 else base * Pow(base, k - 1)
  }

  /** The twos and fives of a modulus and what is left without them. */
  ghost predicate Factored(m: nat, a: nat, b: nat, rest: nat) {
    m == rest * Pow(2, a) * Pow(5, b) && rest % 2 != 0 && rest % 5 != 0
  }

  function Max(a: nat, b: nat): nat {
    if a >= b then a else b
  }

  lemma {:induction false} TenIsTwosAndFives(k: nat)
    ensures Ten(k) == Pow(2, k) * Pow(5, k)
  {
    if k > 0 {
      TenIsTwosAndFives(k - 1);
      assert (2 * Pow(2, k - 1)) * (5 * Pow(5, k - 1)) == 10 * (Pow(2, k - 1) * Pow(5, k - 1));
    }
  }

  lemma {:induction false} PowSum(base: nat, j: nat, k: nat)
    requires base > 0
    ensures Pow(base, j + k) == Pow(base, j) * Pow(base, k)
  {
    if j > 0 {
      PowSum(base, j - 1, k);
      assert base * (Pow(base, j - 1) * Pow(base, k)) == (base * Pow(base, j - 1)) * Pow(base, k);
    }
  }

  lemma Rearrange(x: nat, y: nat, z: nat, t: nat)
    ensures (x * y) * (z * t) == (x * z) * (y * t)
  {}

  /** A modulus of twos and fives divides the power of ten of the larger exponent. */
  lemma DividesTen(a: nat, b: nat)
    ensures exists c: nat :: c > 0 && Ten(Max(a, b)) == c * (Pow(2, a) * Pow(5, b))
  {
    var l := Max(a, b);
    TenIsTwosAndFives(l);
    PowSum(2, l - a, a);
    PowSum(5, l - b, b);
    var c := Pow(2, l - a) * Pow(5, l - b);
    Rearrange(Pow(2, l - a), Pow(2, a), Pow(5, l - b), Pow(5, b));
    Positive(Pow(2, l - a), Pow(5, l - b));
    assert c > 0 && Ten(l) == c * (Pow(2, a) * Pow(5, b));
  }

  lemma Positive(x: nat, y: nat)
    requires x > 0 && y > 0
    ensures x * y > 0
  {}

  /** The guard of the suffix path: only twos and fives, a power of ten within u64, few enough endings. */
  ghost predicate SuffixPath(m: nat, a: nat, b: nat, rest: nat)
    requires m > 0
  {
    rest == 1 && Max(a, b) <= 19 && Ten(Max(a, b)) / m <= MAX_SUFFIX_ENDINGS
  }

  ghost predicate Suffix(m: nat, len: nat, count: nat) {
    len <= 19 && 0 < count <= MAX_SUFFIX_ENDINGS && Ten(len) == count * m
  }

  lemma PullTwo(rest: nat, x: nat, y: nat)
    requires rest % 2 == 0
    ensures rest * x * y == (rest / 2) * (2 * x) * y
  {
    assert rest == 2 * (rest / 2);
  }

  lemma PullFive(rest: nat, x: nat, y: nat)
    requires rest % 5 == 0
    ensures rest * x * y == (rest / 5) * x * (5 * y)
  {
    assert rest == 5 * (rest / 5);
  }

  lemma SmallerQuotient(rest: nat)
    requires rest > 0
    ensures rest % 2 == 0 ==> 0 < rest / 2 < rest
    ensures rest % 5 == 0 ==> 0 < rest / 5 < rest
  {}

  lemma StaysOdd(rest: nat)
    requires rest % 2 != 0 && rest % 5 == 0
    ensures (rest / 5) % 2 != 0
  {
    var fifth := rest / 5;
    if fifth % 2 == 0 { EvenFifth(rest, fifth); }
  }

  lemma EvenFifth(rest: nat, fifth: nat)
    requires rest == 5 * fifth && fifth % 2 == 0
    ensures rest % 2 == 0
  {
    var tenth := fifth / 2;
    assert fifth == 2 * tenth;
    assert rest == 2 * (5 * tenth);
    DoubleIsEven(5 * tenth);
  }

  lemma DoubleIsEven(k: nat)
    ensures (2 * k) % 2 == 0
  {}

  /** `power_of_ten_factor_suffix`. The power 10^19 is the largest that `checked_pow` returns. */
  method PowerOfTenFactorSuffix(m: nat) returns (r: Option<(nat, nat)>, ghost a: nat, ghost b: nat, ghost rest: nat)
    requires m > 0
    ensures rest > 0 && Factored(m, a, b, rest)
    ensures r.Some? <==> SuffixPath(m, a, b, rest)
    ensures r.Some? ==> r.value.0 == Max(a, b) && Suffix(m, r.value.0, r.value.1)
  {
    hide Pow, Ten;
    var left := m;
    var twos: nat := 0;
    PowZero();
    while left % 2 == 0
      invariant left > 0 && m == left * Pow(2, twos) * Pow(5, 0)
      decreases left
    {
      PullTwo(left, Pow(2, twos), Pow(5, 0));
      PowStep(2, twos);
      SmallerQuotient(left);
      left := left / 2;
      twos := twos + 1;
    }
    var fives: nat := 0;
    while left % 5 == 0
      invariant left > 0 && left % 2 != 0 && m == left * Pow(2, twos) * Pow(5, fives)
      decreases left
    {
      PullFive(left, Pow(2, twos), Pow(5, fives));
      PowStep(5, fives);
      SmallerQuotient(left);
      StaysOdd(left);
      left := left / 5;
      fives := fives + 1;
    }
    a, b, rest := twos, fives, left;
    if left != 1 { return None, a, b, rest; }
    var suffixLen := Max(twos, fives);
    if suffixLen > 19 { return None, a, b, rest; }
    var power := Pow10(suffixLen);
    DividesTen(a, b);
    var endings := power / m;
    ghost var c: nat :| c > 0 && Ten(suffixLen) == c * (Pow(2, a) * Pow(5, b));
    assert m == Pow(2, a) * Pow(5, b);
    DivUnique(power, c, 0, m);
    if endings > MAX_SUFFIX_ENDINGS { return None, a, b, rest; }
    r := Some((suffixLen, endings));
  }

  lemma PowZero()
    ensures Pow(2, 0) == 1 && Pow(5, 0) == 1
  {}

  lemma PowStep(base: nat, k: nat)
    requires base > 0
    ensures Pow(base, k + 1) == base * Pow(base, k)
  {}

  /** `value` in at least `width` digits, padded with zeros on the left. */
  ghost predicate IsPadded(w: Word, value: nat, width: nat) {
    Digits(w) && |w| == Max(width, |Spell(value)|) && Value(w) == value
  }

  lemma {:induction false} SpellFits(n: nat)
    ensures n < Ten(|Spell(n)|)
  {
    if n > 0 { SpellLength(n); } else { assert Ten(1) == 10 * Ten(0); }
  }

  /** `decimal_bytes`: the buffer is filled from the last digit back. */
  method DecimalBytes(value: nat, width: nat) returns (w: Word)
    ensures IsPadded(w, value, width)
  {
    hide Spell, Value, Ten;
    var natural := NumDigits(value);
    var len := if width >= natural then width else natural;
    var bytes := new Byte[len](_ => ZERO);
    var remaining: nat := value;
    var index := len;
    EmptyValue(value);
    assert bytes[len..] == [];
    while index > 0
      invariant 0 <= index <= len && Digits(bytes[index..])
      invariant value == remaining * Ten(len - index) + Value(bytes[index..])
    {
      ghost var tail := bytes[index..];
      index := index - 1;
      var digit := (ZERO + remaining % 10) as Byte;
      bytes[index] := digit;
      assert bytes[index..] == [digit] + tail;
      ValueCons(digit, tail);
      TenStep(|tail|);
      NextDigit(remaining, Ten(|tail|));
      remaining := remaining / 10;
    }
    w := bytes[..];
    assert bytes[0..] == w;
    SpellFits(value);
    TenMonotone(natural, len);
    NoneRemaining(remaining, Ten(len), Value(w), value);
  }

  lemma EmptyValue(n: nat)
    ensures Digits([]) && n == n * Ten(0) + Value([])
  {}

  lemma NextDigit(n: nat, p: nat)
    ensures n * p == (n / 10) * (10 * p) + n % 10 * p
  {
    assert n == 10 * (n / 10) + n % 10;
    Regroup(n / 10, n % 10, 10, p);
    TimesTen(n / 10, p);
  }

  lemma NoneRemaining(q: nat, p: nat, r: nat, n: nat)
    requires n == q * p + r && n < p
    ensures q * p == 0 && r == n
  {
    TimesAtLeast(q, p);
  }

  /** Digit strings of the same length and value are the same. */
  lemma {:induction false} SameDigits(u: Word, v: Word)
    requires Digits(u) && Digits(v) && |u| == |v| && Value(u) == Value(v)
    ensures u == v
  {
    if u != [] {
      var k := |u| - 1;
      SameDigits(u[..k], v[..k]);
      assert u == u[..k] + [u[k]] && v == v[..k] + [v[k]];
    }
  }

  ghost predicate PaddedEnding(m: nat, width: nat, upTo: nat, w: Word, j: nat) {
    j < upTo && IsPadded(w, j * m, width)
  }

  ghost predicate ShortEnding(m: nat, threshold: nat, upTo: nat, w: Word, j: nat) {
    j < upTo && j * m < threshold && w == Spell(j * m)
  }

  /** The endings listed so far, padded, and those short enough to stand alone. */
  ghost predicate Listed(m: nat, width: nat, threshold: nat, upTo: nat, padded: seq<Word>, short: seq<Word>) {
    && (forall w: Word :: w in padded <==> exists j: nat :: PaddedEnding(m, width, upTo, w, j))
    && (forall w: Word :: w in short <==> exists j: nat :: ShortEnding(m, threshold, upTo, w, j))
  }

  lemma NoEndings(m: nat, width: nat, threshold: nat)
    ensures Listed(m, width, threshold, 0, [], [])
  {}

  lemma PaddedUnique(u: Word, v: Word, n: nat, width: nat)
    requires IsPadded(u, n, width) && IsPadded(v, n, width)
    ensures u == v
  {
    SameDigits(u, v);
  }

  lemma ListMore(m: nat, width: nat, threshold: nat, upTo: nat, padded: seq<Word>, short: seq<Word>, p: Word)
    requires Listed(m, width, threshold, upTo, padded, short) && IsPadded(p, upTo * m, width)
    ensures Listed(m, width, threshold, upTo + 1, padded + [p],
                   if upTo * m < threshold then short + [Spell(upTo * m)] else short)
  {
    hide IsPadded, Spell;
    var next: nat := upTo + 1;
    var padded' := padded + [p];
    var short' := if upTo * m < threshold then short + [Spell(upTo * m)] else short;
    forall w: Word ensures w in padded' <==> exists j: nat :: PaddedEnding(m, width, next, w, j) {
      if w in padded' {
        if w == p { assert PaddedEnding(m, width, next, w, upTo); } else {
          var j: nat :| PaddedEnding(m, width, upTo, w, j);
          assert PaddedEnding(m, width, next, w, j);
        }
      }
      if j: nat :| PaddedEnding(m, width, next, w, j) {
        if j == upTo { PaddedUnique(w, p, upTo * m, width); } else { assert PaddedEnding(m, width, upTo, w, j); }
      }
    }
    forall w: Word ensures w in short' <==> exists j: nat :: ShortEnding(m, threshold, next, w, j) {
      if w in short' {
        if w in short {
          var j: nat :| ShortEnding(m, threshold, upTo, w, j);
          assert ShortEnding(m, threshold, next, w, j);
        } else {
          assert ShortEnding(m, threshold, next, w, upTo);
        }
      }
      if j: nat :| ShortEnding(m, threshold, next, w, j) {
        if j < upTo { assert ShortEnding(m, threshold, upTo, w, j); }
      }
    }
  }

  lemma UnpaddedIsSpelling(w: Word, n: nat)
    requires IsPadded(w, n, 0)
    ensures w == Spell(n)
  {
    SpellShape(n);
    SameDigits(w, Spell(n));
  }

  /** The endings below 10^len that the modulus divides, in both forms. No product leaves u64. */
  method Endings(m: nat, len: nat, count: nat) returns (short: seq<Word>, padded: seq<Word>)
    requires m > 0 && len > 0 && Suffix(m, len, count)
    ensures Listed(m, len, Ten(len - 1), count, padded, short)
  {
    hide Listed, IsPadded, Ten, Spell;
    var threshold := Pow10(len - 1);
    ghost var top := Pow10(len);
    short, padded := [], [];
    NoEndings(m, len, threshold);
    for index := 0 to count
      invariant Listed(m, len, threshold, index, padded, short)
    {
      EndingBelow(index, count, m);
      var ending := index * m;
      assert ending <= U64_MAX;
      var long := DecimalBytes(ending, len);
      ListMore(m, len, threshold, index, padded, short, long);
      padded := padded + [long];
      if ending < threshold {
        var brief := DecimalBytes(ending, 0);
        UnpaddedIsSpelling(brief, ending);
        short := short + [brief];
      }
    }
  }

  lemma EndingBelow(j: nat, count: nat, m: nat)
    requires j < count && m > 0
    ensures j * m < count * m
  {
    TimesAtLeast(count - j, m);
    Distribute(count, j, m);
  }

  // --- which numbers the endings describe ------------------------------------------------------------------------

  ghost function Among(list: seq<Word>): Lang {
    iset w: Word | w in list
  }

  /** Short endings, or any digits before a padded ending. */
  ghost function SuffixBody(short: seq<Word>, padded: seq<Word>): Lang {
    Among(short) + Cat(DigitStar(), Among(padded))
  }

  lemma FindMultiple(n: nat, m: nat, count: nat)
    requires m > 0 && n % m == 0 && n < count * m
    ensures n / m < count && n / m * m == n
  {
    assert n == n / m * m;
    if n / m >= count { TimesAtLeast(n / m - count, m); Distribute(n / m, count, m); TimesGrow(count, n / m, m); }
  }

  lemma TimesGrow(a: nat, b: nat, m: nat)
    requires a <= b
    ensures a * m <= b * m
  {}

  /** A long number is divisible exactly when its last digits are. */
  lemma LastDigits(m: nat, len: nat, count: nat, u: Word, v: Word)
    requires m > 0 && Suffix(m, len, count) && Digits(u) && Digits(v) && |v| == len
    ensures Digits(u + v) && (Value(u + v) % m == 0 <==> Value(v) % m == 0)
  {
    hide Value, Ten;
    ValueJoin(u, v);
    var x, y := Value(u), Value(v);
    Associate(x, count, m);
    ModShift(x * count, m, y);
  }

  lemma Associate(x: nat, y: nat, z: nat)
    ensures x * (y * z) == (x * y) * z
  {}

  lemma SuffixListed(m: nat, len: nat, count: nat, short: seq<Word>, padded: seq<Word>, n: nat)
    requires m > 0 && len > 0 && Suffix(m, len, count) && Listed(m, len, Ten(len - 1), count, padded, short)
    requires n % m == 0
    ensures Spell(n) in SuffixBody(short, padded)
  {
    hide Value, Ten, Spell;
    var w := Spell(n);
    SpellShape(n);
    if n < Ten(len - 1) {
      TenMonotone(len - 1, len);
      FindMultiple(n, m, count);
      assert ShortEnding(m, Ten(len - 1), count, w, n / m);
    } else {
      SpellFits(n);
      LongEnough(n, |w|, len);
      var u, v := w[..|w| - len], w[|w| - len..];
      assert w == u + v;
      LastDigits(m, len, count, u, v);
      ValueBound(v);
      FindMultiple(Value(v), m, count);
      PaddedValue(v, len);
      assert PaddedEnding(m, len, count, v, Value(v) / m);
      CatIntro(DigitStar(), Among(padded), u, v);
    }
  }

  lemma LongEnough(n: nat, k: nat, len: nat)
    requires len > 0 && Ten(len - 1) <= n < Ten(k)
    ensures k >= len
  {
    if k < len { TenMonotone(k, len - 1); }
  }

  lemma PaddedValue(v: Word, len: nat)
    requires Digits(v) && |v| == len && len > 0
    ensures IsPadded(v, Value(v), len)
  {
    hide Spell;
    var n := Value(v);
    ValueBound(v);
    if n == 0 {
      SpellZero();
    } else {
      SpellLength(n);
      if |Spell(n)| > len { TenMonotone(len, |Spell(n)| - 1); }
    }
  }

  lemma SpellZero()
    ensures |Spell(0)| == 1
  {}

  lemma MultipleMod(j: nat, m: nat)
    requires m > 0
    ensures (j * m) % m == 0
  {
    DivUnique(j * m, j, 0, m);
  }

  lemma SuffixBodyIs(m: nat, len: nat, count: nat, short: seq<Word>, padded: seq<Word>, w: Word)
    requires m > 0 && len > 0 && Suffix(m, len, count) && Listed(m, len, Ten(len - 1), count, padded, short)
    requires w in SuffixBody(short, padded)
    ensures Digits(w) && Value(w) % m == 0
  {
    hide Value, Ten, Spell;
    if w in short {
      var j: nat :| ShortEnding(m, Ten(len - 1), count, w, j);
      SpellShape(j * m);
      MultipleMod(j, m);
    } else {
      var u, v := CatElim(DigitStar(), Among(padded), w);
      var j: nat :| PaddedEnding(m, len, count, v, j);
      MultipleMod(j, m);
      EndingBelow(j, count, m);
      EndingLength(j * m, len);
      LastDigits(m, len, count, u, v);
    }
  }

  lemma EndingLength(n: nat, len: nat)
    requires len > 0 && n < Ten(len)
    ensures |Spell(n)| <= len
  {
    hide Spell;
    if n == 0 { SpellZero(); } else {
      SpellLength(n);
      if |Spell(n)| > len { TenMonotone(len, |Spell(n)| - 1); }
    }
  }

  lemma SuffixDecides(m: nat, len: nat, count: nat, short: seq<Word>, padded: seq<Word>)
    requires m > 0 && len > 0 && Suffix(m, len, count) && Listed(m, len, Ten(len - 1), count, padded, short)
    ensures DecidesMultiples(Cat(OptionalSign(), SuffixBody(short, padded)), m)
  {
    hide Value, Ten, Spell, Listed, SuffixBody, DecidesMultiples, Suffix;
    var body := SuffixBody(short, padded);
    forall w | w in body ensures Digits(w) { SuffixBodyIs(m, len, count, short, padded, w); }
    forall n: nat ensures Spell(n) in body <==> n % m == 0 {
      SpellShape(n);
      if Spell(n) in body { SuffixBodyIs(m, len, count, short, padded, Spell(n)); }
      if n % m == 0 { SuffixListed(m, len, count, short, padded, n); }
    }
    SignedDecides(body, m);
  }

  method ListEngine(values: seq<Word>) returns (r: Result<RefEngine>)
    ensures r.Ok? ==> r.value.Valid() && r.value.Language() == Among(values)
    ensures r.Err? ==> r.error == LimitExceeded
  {
    hide RefEngine.Valid, RefEngine.Language, Validated;
    var graph := Trie.ByteStringSet(values);
    if graph.Err? { return Err(graph.error); }
    r := Materialize.GraphToEngine(graph.value);
  }

  /** `suffix_parts_engine`: an optional sign, then a short ending or digits before a padded ending. */
  method SuffixPartsEngine(short: seq<Word>, padded: seq<Word>) returns (r: Result<RefEngine>)
    ensures r.Ok? ==> r.value.Valid() && r.value.Language() == Cat(OptionalSign(), SuffixBody(short, padded))
    ensures r.Err? ==> r.error == LimitExceeded
  {
    hide RefEngine.Valid, RefEngine.Language, Cat, OptionalSign, DigitStar, Among;
    var shortEngine := ListEngine(short);
    if shortEngine.Err? { return shortEngine; }
    var paddedEngine := ListEngine(padded);
    if paddedEngine.Err? { return paddedEngine; }
    var digitStar := DigitStarEngine();
    var long := Combine.ConcatPair(digitStar.value, paddedEngine.value);
    if long.Err? { return long; }
    var body := Combine.UnionPair(shortEngine.value, long.value);
    if body.Err? { return body; }
    var sign := OptionalSignEngine();
    r := Combine.ConcatPair(sign.value, body.value);
  }

  method SuffixEngine(m: nat, len: nat, count: nat) returns (r: Result<RefEngine>)
    requires m > 1 && Suffix(m, len, count)
    ensures r.Ok? ==> r.value.Valid() && DecidesMultiples(r.value.Language(), m)
    ensures r.Err? ==> r.error == LimitExceeded
  {
    hide RefEngine.Valid, RefEngine.Language, Listed, DecidesMultiples, SuffixBody, Ten;
    LenPositive(m, len, count);
    var short, padded := Endings(m, len, count);
    SuffixDecides(m, len, count, short, padded);
    r := SuffixPartsEngine(short, padded);
  }

  lemma LenPositive(m: nat, len: nat, count: nat)
    requires m > 1 && Suffix(m, len, count)
    ensures len > 0
  {
    if len == 0 { TimesAtLeast(count, m); }
  }

  // --- multiple_of_engine ------------------------------------------------------------------------------------------

  /** `multiple_of_engine`: an engine that accepts the canonical spelling of an integer exactly when the
      modulus divides it. Both constructions therefore agree on canonical spellings. Moduli up to 4096
      never fail; larger ones need to have no factors but two and five. */
  method MultipleOfEngine(m: nat) returns (r: Result<RefEngine>)
    ensures r == Err(Malformed) <==> m == 0
    ensures m > MAX_MULTIPLE_OF_MODULUS ==> r == Err(LimitExceeded)
    ensures r.Err? ==> r.error == Malformed || r.error == LimitExceeded
    ensures 1 <= m <= MAX_ENGINE_REMAINDER_MODULUS ==> r.Ok?
    ensures r.Ok? ==> 0 < m && r.value.Valid() && DecidesMultiples(r.value.Language(), m)
    ensures 1 < m <= MAX_ENGINE_REMAINDER_MODULUS ==> r.value.StateCount() == m + 3
    ensures m == 1 ==> r.value.StateCount() <= 9
    ensures r.Ok? && m > MAX_ENGINE_REMAINDER_MODULUS ==> exists a, b :: Factored(m, a, b, 1) && SuffixPath(m, a, b, 1)
  {
    hide RefEngine.Valid, RefEngine.Language, DecidesMultiples, Factored, SuffixPath, Suffix;
    if m == 0 { return Err(Malformed); }
    if m > MAX_MULTIPLE_OF_MODULUS { return Err(LimitExceeded); }
    if m == 1 {
      r := SignedDigitStarEngine();
      return;
    }
    if m <= MAX_ENGINE_REMAINDER_MODULUS {
      r := RemainderDfaEngine(m);
      return;
    }
    var suffix, a, b, rest := PowerOfTenFactorSuffix(m);
    if suffix.Some? {
      RestIsOne(m, a, b, rest);
      r := SuffixEngine(m, suffix.value.0, suffix.value.1);
      return;
    }
    r := Err(LimitExceeded);
  }

  lemma RestIsOne(m: nat, a: nat, b: nat, rest: nat)
    requires m > 0 && SuffixPath(m, a, b, rest)
    ensures rest == 1
  {}

  // --- compile_integer_multiple --------------------------------------------------------------------------------------

  ghost predicate MultipleSpelled(w: Word, lo: Option<int>, hi: Option<int>, m: nat, n: int)
    requires m > 0
  {
    IntegerRange.Bounds(lo, hi, n) && n % m == 0 && w == SpellInt(n)
  }

  ghost predicate IsMultipleSpelled(w: Word, lo: Option<int>, hi: Option<int>, m: nat)
    requires m > 0
  {
    exists n: int :: MultipleSpelled(w, lo, hi, m, n)
  }

  /** The JSON spellings of the multiples of `m` within the bounds. */
  ghost function Multiples(lo: Option<int>, hi: Option<int>, m: nat): Lang
    requires m > 0
  {
    iset w: Word | IsMultipleSpelled(w, lo, hi, m)
  }

  lemma RangeAndMultiple(range: RefEngine, multiple: RefEngine, lo: Option<int>, hi: Option<int>, m: nat)
    requires m > 0 && range.Language() == IntegerRange.Integers(lo, hi) && DecidesMultiples(multiple.Language(), m)
    ensures Product.ProductLanguage(Product.All, [range, multiple]) == Multiples(lo, hi, m)
  {
    hide RefEngine.Language, SpellInt;
    forall w: Word ensures Product.InProduct(Product.All, [range, multiple], w) <==> IsMultipleSpelled(w, lo, hi, m) {
      BothAccept(range, multiple, w);
      if IsMultipleSpelled(w, lo, hi, m) {
        var n :| MultipleSpelled(w, lo, hi, m, n);
        assert IntegerRange.IntSpelledBy(w, lo, hi, n);
      }
      if w in range.Language() && w in multiple.Language() {
        var n :| IntegerRange.IntSpelledBy(w, lo, hi, n);
        assert MultipleSpelled(w, lo, hi, m, n);
      }
    }
  }

  lemma BothAccept(a: RefEngine, b: RefEngine, w: Word)
    ensures Product.InProduct(Product.All, [a, b], w) <==> w in a.Language() && w in b.Language()
  {
    if w in a.Language() && w in b.Language() {
      assert Product.BranchVerdicts([a, b], w, [true, true]);
      assert Product.Holds(Product.All, [true, true]);
    }
    if Product.InProduct(Product.All, [a, b], w) {
      var v: seq<bool> :| Product.BranchVerdicts([a, b], w, v) && Product.Holds(Product.All, v);
      assert v[0] && v[1];
    }
  }

  lemma PairFits(a: RefEngine, b: RefEngine)
    ensures Product.Fits([a, b], Product.MAX_PRODUCT_STATES, Product.MAX_PRODUCT_EDGES) <==>
            a.StateCount() * b.StateCount() <= 4096
  {
    assert [a, b][..1] == [a] && [a][..0] == [];
    assert Product.StateProduct([a]) == a.StateCount();
  }

  lemma TimesAtMost(x: nat, y: nat, z: nat)
    requires y <= z
    ensures x * y <= x * z
  {}

  /** `compile_integer_multiple`, given the engine of the range pattern: exactly the spellings of the
      integers that are within the bounds and multiples of the modulus. */
  method CompileIntegerMultiple(minimum: Option<int>, maximum: Option<int>, modulus: nat, range: RefEngine)
    returns (r: Result<RefEngine>)
    requires range.Valid() && range.Language() == IntegerRange.Integers(minimum, maximum)
    ensures modulus == 0 ==> r == Err(Malformed)
    ensures r.Ok? ==> modulus > 0 && r.value.Valid() && r.value.Language() == Multiples(minimum, maximum, modulus)
    ensures 1 < modulus <= MAX_ENGINE_REMAINDER_MODULUS ==> (r.Ok? <==> range.StateCount() * (modulus + 3) <= 4096)
    ensures modulus == 1 && range.StateCount() * 9 <= 4096 ==> r.Ok?
  {
    hide RefEngine.Valid, RefEngine.Language, DecidesMultiples, IntegerRange.Integers, Multiples, Product.ProductLanguage,
         Factored, SuffixPath;
    var multiple := MultipleOfEngine(modulus);
    if multiple.Err? { return multiple; }
    RangeAndMultiple(range, multiple.value, minimum, maximum, modulus);
    PairFits(range, multiple.value);
    if modulus == 1 { TimesAtMost(range.StateCount(), multiple.value.StateCount(), 9); }
    r := Product.BuildEngine(Product.All, [range, multiple.value]);
  }
}
