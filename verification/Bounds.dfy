/** The bounded arithmetic behind the router's cost estimates (routing.rs:10-52, 105-122, 359-473): numbers that are
    either known or past a cap. What is proved is that nothing is lost short of the cap. */
module Bounds {
  import opened Outcome
  import opened Counting
  import Bits

  const STATE_CAP: nat := 65536
  const CELL_CAP: nat := 4194304
  const PRODUCT_CELL_CAP: nat := 16777216
  const SHUFFLE_CELL_CAP: nat := 1048576
  const MEMORY_CAP: nat := 268435456

  datatype Bound = Known(value: nat) | ExceedsLimit

  /** A machine sum or product, absent when it overflows. */
  function Checked(x: nat): Option<nat> {
    if x > U64_MAX then None else Some(x)
  }

  function Capped(x: Option<nat>, cap: nat): Bound {
    if x.Some? && x.value <= cap then Known(x.value) else ExceedsLimit
  }

  function AddBound(a: Bound, b: Bound, cap: nat): Bound {
    if a.Known? && b.Known? then Capped(Checked(a.value + b.value), cap) else ExceedsLimit
  }

  function MulBound(a: Bound, b: Bound, cap: nat): Bound {
    if a.Known? && b.Known? then Capped(Checked(a.value * b.value), cap) else ExceedsLimit
  }

  /** A shift by 64 and more has no value. */
  function Pow2Bound(n: nat, cap: nat): Bound {
    Capped(if n < 64 then Some(Bits.Pow2(n)) else None, cap)
  }

  /** The bound is exact: the value when it is under the cap, and past the cap otherwise. */
  ghost predicate Tells(b: Bound, value: nat, cap: nat) {
    b == if value <= cap then Known(value) else ExceedsLimit
  }

  /** What is known is right, and what is not is past the cap. */
  ghost predicate Agrees(b: Bound, value: nat, cap: nat) {
    if b.Known? then b.value == value else value > cap
  }

  // --- the three operations ---------------------------------------------------------------------------------------------

  lemma AddExact(a: Bound, x: nat, b: Bound, y: nat, cap: nat)
    requires cap <= U64_MAX && Agrees(a, x, cap) && Agrees(b, y, cap)
    ensures Tells(AddBound(a, b, cap), x + y, cap)
  {}

  /** A product is exact unless one factor is zero and the other unknown. */
  lemma MulExact(a: Bound, x: nat, b: Bound, y: nat, cap: nat)
    requires cap <= U64_MAX && Agrees(a, x, cap) && Agrees(b, y, cap)
    ensures Tells(MulBound(a, b, cap), x * y, cap) <==>
            !(x == 0 && b == ExceedsLimit) && !(y == 0 && a == ExceedsLimit)
  {
    if x > 0 { AtLeast(x, y); }
    if y > 0 { AtLeast(y, x); }
    if x == 0 || y == 0 { assert x * y == 0; }
    assert x * y == y * x;
  }

  lemma AtLeast(x: nat, y: nat)
    requires x > 0
    ensures x * y >= y
  {}

  lemma Pow2Of64()
    ensures Bits.Pow2(64) == U64_MAX + 1
  {
    Bits.Pow2Of8();
    hide Bits.Pow2;
    Pow2Sum(8, 8);
    assert Bits.Pow2(16) == 65536;
    Pow2Sum(16, 16);
    assert Bits.Pow2(32) == 65536 * 65536;
    Pow2Sum(32, 32);
  }

  lemma {:induction false} Pow2Sum(m: nat, n: nat)
    ensures Bits.Pow2(m + n) == Bits.Pow2(m) * Bits.Pow2(n)
  {
    if m > 0 {
      Pow2Sum(m - 1, n);
      assert Bits.Pow2(m + n) == 2 * Bits.Pow2(m - 1 + n);
      Regroup(Bits.Pow2(m - 1), Bits.Pow2(n));
    }
  }

  lemma Regroup(x: nat, y: nat)
    ensures 2 * (x * y) == (2 * x) * y
  {}

  lemma Pow2Exact(n: nat, cap: nat)
    requires cap <= U64_MAX
    ensures Tells(Pow2Bound(n, cap), Bits.Pow2(n), cap)
  {
    if n >= 64 {
      Pow2Of64();
      Bits.Pow2Grows(64, n);
    }
  }

  // --- folds over the children ------------------------------------------------------------------------------------------

  function SumBound(start: Bound, parts: seq<Bound>, cap: nat): Bound {
    if parts == [] then start else AddBound(SumBound(start, parts[..|parts| - 1], cap), parts[|parts| - 1], cap)
  }

  function ProductBound(start: Bound, parts: seq<Bound>, cap: nat): Bound {
    if parts == [] then start else MulBound(ProductBound(start, parts[..|parts| - 1], cap), parts[|parts| - 1], cap)
  }

  ghost function Sum(values: seq<nat>): nat {
    if values == [] then 0 else Sum(values[..|values| - 1]) + values[|values| - 1]
  }

  ghost function Product(values: seq<nat>): nat {
    if values == [] then 1 else Product(values[..|values| - 1]) * values[|values| - 1]
  }

  ghost predicate AllAgree(parts: seq<Bound>, values: seq<nat>, cap: nat) {
    |parts| == |values| && forall i :: 0 <= i < |parts| ==> Agrees(parts[i], values[i], cap)
  }

  /** However many terms there are and wherever they stop being known, the sum is exact. */
  lemma {:induction false} SumExact(start: Bound, x: nat, parts: seq<Bound>, values: seq<nat>, cap: nat)
    requires cap <= U64_MAX && Tells(start, x, cap) && AllAgree(parts, values, cap)
    ensures Tells(SumBound(start, parts, cap), x + Sum(values), cap)
    decreases |parts|
  {
    if parts != [] {
      var k := |parts| - 1;
      SumExact(start, x, parts[..k], values[..k], cap);
      AddExact(SumBound(start, parts[..k], cap), x + Sum(values[..k]), parts[k], values[k], cap);
    }
  }

  /** The product of positive factors is exact. */
  lemma {:induction false} ProductExact(parts: seq<Bound>, values: seq<nat>, cap: nat)
    requires 1 <= cap <= U64_MAX && AllAgree(parts, values, cap)
    requires forall i :: 0 <= i < |values| ==> values[i] > 0
    ensures Product(values) > 0 && Tells(ProductBound(Known(1), parts, cap), Product(values), cap)
    decreases |parts|
  {
    if parts != [] {
      var k := |parts| - 1;
      ProductExact(parts[..k], values[..k], cap);
      hide Tells;
      MulExact(ProductBound(Known(1), parts[..k], cap), Product(values[..k]), parts[k], values[k], cap);
      AtLeast(values[k], Product(values[..k]));
      assert values[k] * Product(values[..k]) == Product(values[..k]) * values[k];
    }
  }

  // --- the estimates ----------------------------------------------------------------------------------------------------

  /** What the estimates of a node are made of. Leaves carry their state estimate, long enumerations of strings the
      number of their literals. */
  datatype Shape =
    | Leaf(states: Bound)
    | StringList(literals: nat)
    | Alternatives(branches: seq<Bound>)            // unions
    | Combination(branches: seq<Bound>)             // intersections and exactly-one
    | AnyOrder(fields: seq<Bound>)                  // objects with closed fields
    | Repetition(item: Bound, max: Option<nat>)     // arrays and tuples; one state for an item without a schema

  /** The states of the regular estimate. */
  function States(s: Shape): Bound {
    match s
    case Leaf(b) => b
    case StringList(n) => AddBound(Known(n), Known(1), STATE_CAP)
    case Alternatives(bs) => SumBound(Known(1), bs, STATE_CAP)
    case Combination(bs) => ProductBound(Known(1), bs, STATE_CAP)
    case AnyOrder(fs) =>
      if fs == [] then Known(1)
      else AddBound(Pow2Bound(|fs|, STATE_CAP),
                    MulBound(Pow2Bound(|fs| - 1, STATE_CAP), SumBound(Known(0), fs, STATE_CAP), STATE_CAP), STATE_CAP)
    case Repetition(item, max) =>
      if max.None? then AddBound(item, Known(16), STATE_CAP)
      else AddBound(Known(1), MulBound(Known(max.value), item, STATE_CAP), STATE_CAP)
  }

  /** The transition cells, each kind with its own cap. */
  function CellsOf(s: Shape): Bound {
    match s
    case Combination(_) => MulBound(States(s), Known(256), PRODUCT_CELL_CAP)
    case StringList(_) => MulBound(States(s), Known(1), CELL_CAP)
    case AnyOrder(fs) => if fs == [] then Known(64) else MulBound(States(s), Known(256), SHUFFLE_CELL_CAP)
    case _ => MulBound(States(s), Known(64), CELL_CAP)
  }

  predicate Affordable(s: Shape) {
    States(s).Known? && CellsOf(s).Known?
  }

  /** Why a node is routed the way it is. */
  datatype Reason =
    | CheapRegular | DynamicReference | EvaluationAnnotations | OpenObjectReason | UserPattern | ShuffleCost
    | ProductCost | RepetitionCost | AutomatonMemory | StructuredOnlySemantics

  /** A long enumeration is never called expensive here; its memory estimate says so. */
  function ReasonOf(s: Shape): Reason {
    if Affordable(s) || s.StringList? then CheapRegular
    else match s
      case Combination(_) => ProductCost
      case AnyOrder(_) => ShuffleCost
      case _ => AutomatonMemory
  }

  /** The number that the state estimate stands for, given those of the children. */
  ghost function Formula(s: Shape, values: seq<nat>): nat {
    match s
    case Leaf(_) => if |values| == 1 then values[0] else 0
    case StringList(n) => n + 1
    case Alternatives(_) => 1 + Sum(values)
    case Combination(_) => Product(values)
    case AnyOrder(fs) => if fs == [] then 1 else Bits.Pow2(|fs|) + Bits.Pow2(|fs| - 1) * Sum(values)
    case Repetition(_, max) =>
      if |values| != 1 then 0 else if max.None? then values[0] + 16 else 1 + max.value * values[0]
  }

  function Inputs(s: Shape): seq<Bound> {
    match s
    case Leaf(b) => [b]
    case StringList(_) => []
    case Alternatives(bs) => bs
    case Combination(bs) => bs
    case AnyOrder(fs) => fs
    case Repetition(item, _) => [item]
  }

  /** The estimates of the children are exact, and positive where they are multiplied. */
  ghost predicate Informed(s: Shape, values: seq<nat>) {
    && AllAgree(Inputs(s), values, STATE_CAP)
    && (s.Leaf? ==> Tells(s.states, values[0], STATE_CAP))
    && (s.Combination? || s.Repetition? ==> forall i :: 0 <= i < |values| ==> values[i] > 0)
  }

  /** A count times a positive bound is exact unless the count is zero and the bound unknown. */
  lemma CountTimes(n: nat, b: Bound, y: nat, cap: nat)
    requires cap <= U64_MAX && Agrees(b, y, cap) && y > 0
    ensures Tells(MulBound(Known(n), b, cap), n * y, cap) <==> !(n == 0 && b == ExceedsLimit)
  {
    MulExact(Known(n), n, b, y, cap);
  }

  lemma AnyOrderExact(fields: seq<Bound>, values: seq<nat>)
    requires fields != [] && AllAgree(fields, values, STATE_CAP)
    ensures Tells(States(AnyOrder(fields)), Formula(AnyOrder(fields), values), STATE_CAP)
  {
    var n := |fields|;
    var subsets, half, sum := Pow2Bound(n, STATE_CAP), Pow2Bound(n - 1, STATE_CAP), SumBound(Known(0), fields, STATE_CAP);
    Pow2Exact(n, STATE_CAP);
    Pow2Exact(n - 1, STATE_CAP);
    SumExact(Known(0), 0, fields, values, STATE_CAP);
    MulExact(half, Bits.Pow2(n - 1), sum, Sum(values), STATE_CAP);
    if Sum(values) == 0 && Bits.Pow2(n - 1) > STATE_CAP {
      Bits.Pow2Grows(n - 1, n);
    } else {
      AddExact(subsets, Bits.Pow2(n), MulBound(half, sum, STATE_CAP), Bits.Pow2(n - 1) * Sum(values), STATE_CAP);
    }
  }

  /** The one shape that is overestimated: no repetitions of an item past the cap. */
  predicate ZeroTimesTooMuch(s: Shape) {
    s.Repetition? && s.max == Some(0) && s.item == ExceedsLimit
  }

  lemma RepetitionExact(item: Bound, max: Option<nat>, y: nat)
    requires Agrees(item, y, STATE_CAP) && y > 0
    ensures Tells(States(Repetition(item, max)), Formula(Repetition(item, max), [y]), STATE_CAP)
            <==> !ZeroTimesTooMuch(Repetition(item, max))
  {
    if max.None? {
      AddExact(item, y, Known(16), 16, STATE_CAP);
    } else {
      CountTimes(max.value, item, y, STATE_CAP);
      var product := MulBound(Known(max.value), item, STATE_CAP);
      if max.value == 0 {
        assert max.value * y == 0;
      } else {
        AddExact(Known(1), 1, product, max.value * y, STATE_CAP);
      }
    }
  }

  /** The state estimate is its formula under the cap, and past the cap exactly when the formula is, but for that shape. */
  lemma StatesExact(s: Shape, values: seq<nat>)
    requires Informed(s, values)
    ensures Tells(States(s), Formula(s, values), STATE_CAP) <==> !ZeroTimesTooMuch(s)
  {
    match s {
      case Leaf(b) =>
      case StringList(n) =>
      case Alternatives(bs) => SumExact(Known(1), 1, bs, values, STATE_CAP);
      case Combination(bs) => ProductExact(bs, values, STATE_CAP);
      case AnyOrder(fs) => if fs != [] { AnyOrderExact(fs, values); }
      case Repetition(item, max) =>
        assert values == [values[0]];
        RepetitionExact(item, max, values[0]);
    }
  }

  /** So the positive estimates the products rely on stay positive on the way up. */
  lemma FormulaPositive(s: Shape, values: seq<nat>)
    requires Informed(s, values) && (s.Leaf? ==> values[0] > 0)
    ensures Formula(s, values) > 0
  {
    if s.Combination? { ProductExact(s.branches, values, STATE_CAP); }
    if s.Repetition? { assert |Inputs(s)| == 1; }
  }

  // --- which caps decide ------------------------------------------------------------------------------------------------

  /** Leaves come with estimates under the cap. */
  ghost predicate WithinCap(s: Shape) {
    s.Leaf? && s.states.Known? ==> s.states.value <= STATE_CAP
  }

  lemma KnownIsCapped(s: Shape)
    requires WithinCap(s)
    ensures States(s).Known? ==> States(s).value <= STATE_CAP
  {}

  /** The cell caps of products and of all other shapes never decide, since they are the state cap times the cells of a
      state. The one of objects does: from 4097 states on. */
  lemma CellsFollow(s: Shape)
    requires WithinCap(s)
    ensures CellsOf(s).Known? <==>
            (s.AnyOrder? && s.fields == []) ||
            (States(s).Known? && (s.AnyOrder? ==> States(s).value <= 4096))
  {
    KnownIsCapped(s);
    hide States;
  }

  function Retained(states: Bound, cells: Bound): Bound {
    AddBound(MulBound(states, Known(64), MEMORY_CAP), MulBound(cells, Known(8), MEMORY_CAP), MEMORY_CAP)
  }

  function Peak(states: Bound, cells: Bound): Bound {
    AddBound(Retained(states, cells), MulBound(states, Known(96), MEMORY_CAP), MEMORY_CAP)
  }

  /** The memory caps never decide: memory is known exactly when states and cells are, and is then 64 bytes a state and
      8 a cell retained, 96 more a state at the peak. */
  lemma MemoryFollows(s: Shape)
    requires WithinCap(s)
    ensures var n, c := States(s), CellsOf(s);
            && (Retained(n, c).Known? <==> Affordable(s))
            && (Peak(n, c).Known? <==> Affordable(s))
            && (Affordable(s) ==>
                  Retained(n, c).value == 64 * n.value + 8 * c.value && Peak(n, c).value == 160 * n.value + 8 * c.value)
  {
    KnownIsCapped(s);
    hide States;
  }
}
