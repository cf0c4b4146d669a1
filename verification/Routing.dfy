/** Which schema nodes compile to one automaton (routing.rs), and whether the compiler can then compile them
    (compile.rs:258-381, 642-942). The pass is proved for every cost model; `Costs` is the program's. */
module Routing {
  import opened Bounds
  import opened Counting
  import opened Outcome
  import Bits
  import Finite

  const MAX_SAFE_SHUFFLE_FIELDS: nat := 4
  const MAX_UNROLLED_ARRAY_ITEMS: nat := 64
  const MAX_UNROLLED_ENUM: nat := 128

  // --- the schema arena -----------------------------------------------------------------------------------------------

  datatype ItemsPolicy = SchemaItems(item: nat) | AllowAnyItem
  datatype ContainsPolicy = NeverContains | AlwaysContains | ContainsSchema(element: nat)
  datatype AdditionalPolicy = Forbid | AllowAny | AdditionalSchema(value: nat) | Open

  /** One arena node; children are indices. A pattern says whether it is a user's, whether its length was unrolled too
      far, its largest length, whether it counts code points and the bytes of its text; an enumeration lists the bytes
      of its literals, none for one that is not a string. */
  datatype Node =
    | Null | Boolean | Never | StringConst | LexicalNumber(textLen: nat)
    | StringPattern(userPattern: bool, unrolled: bool, maxLen: Option<nat>, counted: bool, patternLen: nat)
    | Integer(multipleOf: bool)
    | Number(restricted: bool, hasMultiple: bool)
    | Enum(literals: seq<Option<nat>>)
    | Array(items: ItemsPolicy, minItems: nat, maxItems: Option<nat>, uniqueItems: bool, contains: Option<ContainsPolicy>)
    | Tuple(prefix: seq<nat>, tail: Option<nat>, minItems: nat, maxItems: Option<nat>, uniqueItems: bool, contains: Option<ContainsPolicy>)
    | Object(fields: seq<nat>, dependent: seq<nat>, dependentRequired: nat)
    | OpenObject(known: seq<nat>, patterns: seq<nat>, additional: AdditionalPolicy, propertyNames: Option<nat>, dependentSchemas: seq<nat>)
    | Union(branches: seq<nat>) | Intersection(branches: seq<nat>) | ExactlyOne(branches: seq<nat>)
    | Not(inner: nat) | Ref(def: nat) | DynamicRef(target: nat)
    | Unevaluated(scope: nat, unevaluated: nat)
    | Unsupported

  datatype Ir = Ir(nodes: seq<Node>, defTargets: seq<nat>, root: nat)

  function Maybe(id: Option<nat>): seq<nat> {
    if id.Some? then [id.value] else []
  }

  function ContainsChild(contains: Option<ContainsPolicy>): seq<nat> {
    if contains.Some? && contains.value.ContainsSchema? then [contains.value.element] else []
  }

  /** `for_each_child`: every edge the router follows. */
  function Children(ir: Ir, id: nat): seq<nat> {
    if id >= |ir.nodes| then []
    else match ir.nodes[id]
      case Object(fields, dependent, _) => fields + dependent
      case OpenObject(known, patterns, additional, names, dependent) =>
        known + patterns + (if additional.AdditionalSchema? then [additional.value] else []) + Maybe(names) + dependent
      case Array(items, _, _, _, contains) => (if items.SchemaItems? then [items.item] else []) + ContainsChild(contains)
      case Tuple(prefix, tail, _, _, _, contains) => prefix + Maybe(tail) + ContainsChild(contains)
      case Union(branches) => branches
      case Intersection(branches) => branches
      case ExactlyOne(branches) => branches
      case Not(inner) => [inner]
      case Ref(def) => if def < |ir.defTargets| then [ir.defTargets[def]] else []
      case DynamicRef(target) => [target]
      case Unevaluated(scope, unevaluated) => [scope, unevaluated]
      case _ => []
  }

  // --- reachability ---------------------------------------------------------------------------------------------------

  ghost predicate Steps(next: nat -> seq<nat>, a: nat, b: nat, k: nat)
    decreases k
  {
    if k == 0 then a == b else exists m: nat :: m in next(a) && Steps(next, m, b, k - 1)
  }

  ghost predicate Reaches(next: nat -> seq<nat>, a: nat, b: nat) {
    exists k: nat :: Steps(next, a, b, k)
  }

  lemma ReachesSelf(next: nat -> seq<nat>, a: nat)
    ensures Reaches(next, a, a)
  {
    assert Steps(next, a, a, 0);
  }

  lemma {:induction false} StepsOn(next: nat -> seq<nat>, a: nat, b: nat, c: nat, k: nat)
    requires Steps(next, a, b, k) && c in next(b)
    ensures Steps(next, a, c, k + 1)
    decreases k
  {
    if k == 0 {
      assert Steps(next, c, c, 0);
    } else {
      var m: nat :| m in next(a) && Steps(next, m, b, k - 1);
      StepsOn(next, m, b, c, k - 1);
    }
  }

  lemma ReachesOn(next: nat -> seq<nat>, a: nat, b: nat, c: nat)
    requires Reaches(next, a, b) && c in next(b)
    ensures Reaches(next, a, c)
  {
    var k: nat :| Steps(next, a, b, k);
    StepsOn(next, a, b, c, k);
  }

  /** A property that every edge passes on holds of everything reachable. */
  lemma {:induction false} Inherited(next: nat -> seq<nat>, a: nat, b: nat, k: nat, holds: nat -> bool)
    requires Steps(next, a, b, k) && holds(a)
    requires forall x: nat, y: nat :: holds(x) && y in next(x) ==> holds(y)
    ensures holds(b)
    decreases k
  {
    if k > 0 {
      var m: nat :| m in next(a) && Steps(next, m, b, k - 1);
      Inherited(next, m, b, k - 1, holds);
    }
  }

  ghost function NextOf(ir: Ir): nat -> seq<nat> {
    (id: nat) => Children(ir, id)
  }

  // --- verdicts ---------------------------------------------------------------------------------------------------------

  datatype Kind = Regular | Structured | Hybrid

  datatype CostEstimate = CostEstimate(states: Bound, cells: Bound, retained: Bound, peak: Bound)

  /** `CostEstimate::regular`. */
  function Estimate(states: Bound, cells: Bound): CostEstimate {
    CostEstimate(states, cells, Retained(states, cells), Peak(states, cells))
  }

  datatype NodeRoute = NodeRoute(kind: Kind, reason: Reason, regular: CostEstimate)

  /** `regular_cost`, from the node and the routes of its resolved children. */
  type CostModel = (Node, seq<NodeRoute>) -> (CostEstimate, Reason)

  predicate AllStrings(literals: seq<Option<nat>>) {
    forall i :: 0 <= i < |literals| ==> literals[i].Some?
  }

  predicate LargeStringEnum(node: Node) {
    node.Enum? && AllStrings(node.literals) && |node.literals| > MAX_UNROLLED_ENUM
  }

  predicate ExpensiveBranch(ir: Ir, id: nat) {
    id < |ir.nodes| &&
    match ir.nodes[id]
    case Integer(multipleOf) => multipleOf
    case Number(_, hasMultiple) => hasMultiple
    case Object(fields, _, _) => |fields| >= 2
    case OpenObject(known, _, _, _, _) => |known| >= 2
    case Array(_, _, maxItems, _, _) => maxItems.None? || maxItems.value > 5
    case Tuple(_, _, _, maxItems, _, _) => maxItems.None? || maxItems.value > 5
    case _ => LargeStringEnum(ir.nodes[id])
  }

  predicate LongArray(minItems: nat, maxItems: Option<nat>) {
    minItems > MAX_UNROLLED_ARRAY_ITEMS || (maxItems.Some? && maxItems.value > MAX_UNROLLED_ARRAY_ITEMS)
  }

  function Memory(regular: CostEstimate): Option<Reason> {
    if regular.retained == ExceedsLimit || regular.peak == ExceedsLimit then Some(AutomatonMemory) else None
  }

  function Combined(ir: Ir, branches: seq<nat>, regular: CostEstimate): Option<Reason> {
    if (exists i :: 0 <= i < |branches| && ExpensiveBranch(ir, branches[i])) || regular.states == ExceedsLimit || regular.cells == ExceedsLimit
    then Some(ProductCost) else Memory(regular)
  }

  /** `local_structured_reason`. */
  function LocalReason(ir: Ir, node: Node, regular: CostEstimate): Option<Reason> {
    match node
    case OpenObject(_, _, _, _, _) => Some(OpenObjectReason)
    case StringPattern(userPattern, unrolled, _, _, _) =>
      if userPattern then Some(UserPattern) else if unrolled then Some(RepetitionCost) else Memory(regular)
    case Object(fields, dependent, dependentRequired) =>
      if dependent != [] || dependentRequired > 0 then Some(EvaluationAnnotations)
      else if |fields| > MAX_SAFE_SHUFFLE_FIELDS || regular.states == ExceedsLimit || regular.cells == ExceedsLimit then Some(ShuffleCost)
      else None
    case Array(items, minItems, maxItems, uniqueItems, contains) =>
      if uniqueItems || items.AllowAnyItem? || contains.Some? then Some(StructuredOnlySemantics)
      else if LongArray(minItems, maxItems) || regular.states == ExceedsLimit then Some(RepetitionCost)
      else None
    case Tuple(_, _, minItems, maxItems, uniqueItems, contains) =>
      if uniqueItems || contains.Some? then Some(StructuredOnlySemantics)
      else if LongArray(minItems, maxItems) || regular.states == ExceedsLimit then Some(RepetitionCost)
      else None
    case Intersection(branches) => Combined(ir, branches, regular)
    case ExactlyOne(branches) => Combined(ir, branches, regular)
    case Number(restricted, hasMultiple) =>
      if restricted || hasMultiple then Some(StructuredOnlySemantics) else Memory(regular)
    case Not(_) => Some(StructuredOnlySemantics)
    case Unsupported => Some(StructuredOnlySemantics)
    case Ref(_) => Some(DynamicReference)
    case DynamicRef(_) => Some(DynamicReference)
    case Unevaluated(_, _) => Some(EvaluationAnnotations)
    case _ => Memory(regular)
  }

  type Routes = seq<Option<NodeRoute>>

  /** The routes of the children that have one yet. */
  function Resolved(children: seq<nat>, routes: Routes): (r: seq<NodeRoute>)
    ensures |r| <= |children|
  {
    if children == [] then []
    else
      var rest := Resolved(children[1..], routes);
      var c := children[0];
      if c < |routes| && routes[c].Some? then [routes[c].value] + rest else rest
  }

  function FirstNonRegular(routes: seq<NodeRoute>): Option<NodeRoute> {
    if routes == [] then None
    else if routes[0].kind != Regular then Some(routes[0])
    else FirstNonRegular(routes[1..])
  }

  predicate SomeRegular(routes: seq<NodeRoute>) {
    exists i :: 0 <= i < |routes| && routes[i].kind == Regular
  }

  /** `estimate_node`. */
  function EstimateNode(ir: Ir, cost: CostModel, id: nat, routes: Routes): NodeRoute
    requires id < |ir.nodes|
  {
    var node, children := ir.nodes[id], Children(ir, id);
    var childRoutes := Resolved(children, routes);
    var (regular, costReason) := cost(node, childRoutes);
    var local := LocalReason(ir, node, regular);
    if local.Some? then NodeRoute(if SomeRegular(childRoutes) then Hybrid else Structured, local.value, regular)
    else if |childRoutes| != |children| then NodeRoute(Hybrid, DynamicReference, regular)
    else if FirstNonRegular(childRoutes).Some? then NodeRoute(Hybrid, FirstNonRegular(childRoutes).value.reason, regular)
    else if costReason != CheapRegular then NodeRoute(Hybrid, costReason, regular)
    else NodeRoute(Regular, CheapRegular, regular)
  }

  lemma {:induction false} AllResolved(children: seq<nat>, routes: Routes)
    requires |Resolved(children, routes)| == |children|
    ensures forall i :: 0 <= i < |children| ==>
              children[i] < |routes| && routes[children[i]] == Some(Resolved(children, routes)[i])
  {
    if children != [] { AllResolved(children[1..], routes); }
  }

  lemma {:induction false} NoneNonRegular(routes: seq<NodeRoute>)
    requires FirstNonRegular(routes).None?
    ensures forall i :: 0 <= i < |routes| ==> routes[i].kind == Regular
  {
    if routes != [] { NoneNonRegular(routes[1..]); }
  }

  /** What a Regular verdict says about the node and its children at the time it is given. */
  lemma RegularMeans(ir: Ir, cost: CostModel, id: nat, routes: Routes)
    requires id < |ir.nodes| && EstimateNode(ir, cost, id, routes).kind == Regular
    ensures LocalReason(ir, ir.nodes[id], EstimateNode(ir, cost, id, routes).regular).None?
    ensures forall c :: c in Children(ir, id) ==> c < |routes| && routes[c].Some? && routes[c].value.kind == Regular
  {
    hide LocalReason;
    var children := Children(ir, id);
    AllResolved(children, routes);
    NoneNonRegular(Resolved(children, routes));
    forall c | c in children ensures c < |routes| && routes[c].Some? && routes[c].value.kind == Regular {
      var i :| 0 <= i < |children| && children[i] == c;
    }
  }

  // --- the program's cost model -----------------------------------------------------------------------------------------

  /** What IR validation guarantees: the parts of a node come before it. */
  ghost predicate BackEdges(ir: Ir) {
    forall id: nat, c: nat :: id < |ir.nodes| && c in Parts(ir.nodes[id]) ==> c < id
  }

  ghost predicate Before(cs: seq<nat>, id: nat) {
    forall i :: 0 <= i < |cs| ==> cs[i] < id
  }

  lemma PartsBefore(ir: Ir, id: nat, cs: seq<nat>)
    requires BackEdges(ir) && id < |ir.nodes| && forall c :: c in cs ==> c in Parts(ir.nodes[id])
    ensures Before(cs, id)
  {
    forall i | 0 <= i < |cs| ensures cs[i] < id { assert cs[i] in cs; }
  }

  /** A literal takes its bytes and one more, sixteen when it is not a string. */
  function LiteralSizes(literals: seq<Option<nat>>): (r: seq<Bound>)
    ensures |r| == |literals|
  {
    seq(|literals|, i requires 0 <= i < |literals| => Known((if literals[i].Some? then literals[i].value else 16) + 1))
  }

  ghost function LiteralValues(literals: seq<Option<nat>>): (r: seq<nat>)
    ensures |r| == |literals|
  {
    seq(|literals|, i requires 0 <= i < |literals| => (if literals[i].Some? then literals[i].value else 16) + 1)
  }

  /** The largest of the bounds, anything unknown counting as the machine maximum. */
  function Rank(b: Bound): nat {
    if b.Known? then b.value else U64_MAX
  }

  function Largest(bs: seq<Bound>): Bound {
    if bs == [] then Known(1)
    else if |bs| == 1 then bs[0]
    else
      var front, last := Largest(bs[..|bs| - 1]), bs[|bs| - 1];
      if Rank(last) >= Rank(front) then last else front
  }

  /** `shuffle_child_states`: the states of a field's value in an object of any order. */
  function FieldStates(ir: Ir, id: nat): Bound
    requires BackEdges(ir)
    decreases id, 1
  {
    if id >= |ir.nodes| then ExceedsLimit
    else match ir.nodes[id]
      case StringPattern(_, _, maxLen, _, patternLen) =>
        if maxLen.None? then Known(512)
        else AddBound(MulBound(Known(maxLen.value), Known(if patternLen <= 8 then 8 else 96), STATE_CAP), Known(16), STATE_CAP)
      case Union(branches) =>
        PartsBefore(ir, id, branches);
        Largest(FieldBounds(ir, id, branches))
      case Enum(literals) => MulBound(SumBound(Known(1), LiteralSizes(literals), STATE_CAP), Known(8), STATE_CAP)
      case Boolean => Known(1)
      case Null => Known(1)
      case Never => Known(1)
      case Integer(_) => Known(512)
      case Number(_, _) => Known(512)
      case Array(items, _, _, _, _) =>
        if items.AllowAnyItem? then Known(2048)
        else
          PartsBefore(ir, id, [items.item]);
          assert [items.item][0] < id;
          AddBound(FieldStates(ir, items.item), Known(32), STATE_CAP)
      case Tuple(prefix, tail, _, _, _, _) =>
        PartsBefore(ir, id, prefix + Maybe(tail));
        SumBound(Known(32), FieldBounds(ir, id, prefix + Maybe(tail)), STATE_CAP)
      case LexicalNumber(textLen) => Known(textLen)
      case _ => Known(2048)
  }

  function FieldBounds(ir: Ir, id: nat, cs: seq<nat>): (r: seq<Bound>)
    requires BackEdges(ir) && Before(cs, id)
    ensures |r| == |cs|
    decreases id, 0
  {
    seq(|cs|, i requires 0 <= i < |cs| => FieldStates(ir, cs[i]))
  }

  function LeafStates(node: Node): Bound {
    match node
    case StringPattern(_, _, maxLen, counted, _) =>
      if maxLen.None? then Known(64)
      else if counted then AddBound(MulBound(Known(maxLen.value), Known(8), STATE_CAP), Known(16), STATE_CAP)
      else Known(32)
    case LexicalNumber(textLen) => AddBound(Known(textLen), Known(16), STATE_CAP)
    case Enum(literals) => SumBound(Known(1), LiteralSizes(literals), STATE_CAP)
    case _ => Known(32)
  }

  function StatesOf(children: seq<NodeRoute>): (r: seq<Bound>)
    ensures |r| == |children|
  {
    seq(|children|, i requires 0 <= i < |children| => children[i].regular.states)
  }

  function FirstStates(children: seq<NodeRoute>): Bound {
    if children == [] then Known(1) else children[0].regular.states
  }

  /** The arms of `regular_cost`. */
  function ShapeOf(ir: Ir, node: Node, children: seq<NodeRoute>): Shape
    requires BackEdges(ir)
  {
    if LargeStringEnum(node) then StringList(|node.literals|)
    else match node
      case Union(_) => Alternatives(StatesOf(children))
      case Intersection(_) => Combination(StatesOf(children))
      case ExactlyOne(_) => Combination(StatesOf(children))
      case Object(fields, _, _) => AnyOrder(seq(|fields|, i requires 0 <= i < |fields| => FieldStates(ir, fields[i])))
      case Array(_, _, maxItems, _, _) => Repetition(FirstStates(children), maxItems)
      case Tuple(_, _, _, maxItems, _, _) => Repetition(FirstStates(children), maxItems)
      case _ => Leaf(LeafStates(node))
  }

  /** `regular_cost`. */
  function RegularCost(ir: Ir, node: Node, children: seq<NodeRoute>): (CostEstimate, Reason)
    requires BackEdges(ir)
  {
    var s := ShapeOf(ir, node, children);
    (Estimate(States(s), CellsOf(s)), ReasonOf(s))
  }

  function Costs(ir: Ir): CostModel
    requires BackEdges(ir)
  {
    (node, children) => RegularCost(ir, node, children)
  }

  // --- the numbers the estimates stand for ---------------------------------------------------------------------------------

  ghost function Most(values: seq<nat>): nat {
    if values == [] then 1
    else if |values| == 1 then values[0]
    else
      var front, last := Most(values[..|values| - 1]), values[|values| - 1];
      if last >= front then last else front
  }

  /** The unbounded number behind `FieldStates`. */
  ghost function FieldValue(ir: Ir, id: nat): nat
    requires BackEdges(ir) && id < |ir.nodes|
    decreases id, 1
  {
    match ir.nodes[id]
    case StringPattern(_, _, maxLen, _, patternLen) =>
      if maxLen.None? then 512 else maxLen.value * (if patternLen <= 8 then 8 else 96) + 16
    case Union(branches) =>
      PartsBefore(ir, id, branches);
      Most(FieldValues(ir, id, branches))
    case Enum(literals) => (1 + Sum(LiteralValues(literals))) * 8
    case Boolean => 1
    case Null => 1
    case Never => 1
    case Integer(_) => 512
    case Number(_, _) => 512
    case Array(items, _, _, _, _) =>
      if items.AllowAnyItem? then 2048
      else
        PartsBefore(ir, id, [items.item]);
        assert [items.item][0] < id;
        FieldValue(ir, items.item) + 32
    case Tuple(prefix, tail, _, _, _, _) =>
      PartsBefore(ir, id, prefix + Maybe(tail));
      32 + Sum(FieldValues(ir, id, prefix + Maybe(tail)))
    case LexicalNumber(textLen) => textLen
    case _ => 2048
  }

  ghost function FieldValues(ir: Ir, id: nat, cs: seq<nat>): (r: seq<nat>)
    requires BackEdges(ir) && id <= |ir.nodes| && Before(cs, id)
    ensures |r| == |cs|
    decreases id, 0
  {
    seq(|cs|, i requires 0 <= i < |cs| => FieldValue(ir, cs[i]))
  }

  ghost function LeafValue(node: Node): nat {
    match node
    case StringPattern(_, _, maxLen, counted, _) =>
      if maxLen.None? then 64 else if counted then maxLen.value * 8 + 16 else 32
    case LexicalNumber(textLen) => textLen + 16
    case Enum(literals) => 1 + Sum(LiteralValues(literals))
    case _ => 32
  }

  ghost function RepeatValue(item: nat, max: Option<nat>): nat {
    if max.None? then item + 16 else 1 + max.value * item
  }

  /** The unbounded number behind the state estimate of a node. */
  ghost function Value(ir: Ir, id: nat): nat
    requires BackEdges(ir) && id < |ir.nodes|
    decreases id, 1
  {
    var node := ir.nodes[id];
    PartsBefore(ir, id, Parts(node));
    if LargeStringEnum(node) then |node.literals| + 1
    else match node
      case Union(branches) => 1 + Sum(Values(ir, id, branches))
      case Intersection(branches) => Product(Values(ir, id, branches))
      case ExactlyOne(branches) => Product(Values(ir, id, branches))
      case Object(fields, _, _) =>
        if fields == [] then 1 else Bits.Pow2(|fields|) + Bits.Pow2(|fields| - 1) * Sum(FieldValues(ir, id, fields))
      case Array(_, _, maxItems, _, _) => RepeatValue(FirstValue(ir, id, Parts(node)), maxItems)
      case Tuple(_, _, _, maxItems, _, _) => RepeatValue(FirstValue(ir, id, Parts(node)), maxItems)
      case _ => LeafValue(node)
  }

  ghost function Values(ir: Ir, id: nat, cs: seq<nat>): (r: seq<nat>)
    requires BackEdges(ir) && id <= |ir.nodes| && Before(cs, id)
    ensures |r| == |cs|
    decreases id, 0
  {
    seq(|cs|, i requires 0 <= i < |cs| => Value(ir, cs[i]))
  }

  ghost function FirstValue(ir: Ir, id: nat, cs: seq<nat>): nat
    requires BackEdges(ir) && id <= |ir.nodes| && Before(cs, id)
    decreases id, 0
  {
    if cs == [] then 1 else Value(ir, cs[0])
  }

  /** Texts have lengths below the machine maximum. */
  ghost predicate Sized(ir: Ir) {
    forall i :: 0 <= i < |ir.nodes| && ir.nodes[i].LexicalNumber? ==> ir.nodes[i].textLen < U64_MAX
  }

  ghost predicate Fair(b: Bound, value: nat) {
    Agrees(b, value, STATE_CAP) && (b.Known? ==> b.value < U64_MAX)
  }

  lemma {:induction false} LargestAgrees(bs: seq<Bound>, values: seq<nat>)
    requires |bs| == |values| && forall i :: 0 <= i < |bs| ==> Fair(bs[i], values[i])
    ensures Fair(Largest(bs), Most(values))
  {
    if |bs| > 1 { LargestAgrees(bs[..|bs| - 1], values[..|bs| - 1]); }
  }

  lemma LiteralsAgree(literals: seq<Option<nat>>)
    ensures Tells(SumBound(Known(1), LiteralSizes(literals), STATE_CAP), 1 + Sum(LiteralValues(literals)), STATE_CAP)
  {
    hide SumBound, Sum;
    SumExact(Known(1), 1, LiteralSizes(literals), LiteralValues(literals), STATE_CAP);
  }

  /** The estimate of a field is its number under the cap, and past the cap otherwise. */
  lemma {:induction false} FieldAgrees(ir: Ir, id: nat)
    requires BackEdges(ir) && Sized(ir) && id < |ir.nodes|
    ensures Fair(FieldStates(ir, id), FieldValue(ir, id))
    decreases id, 1
  {
    hide SumBound, Sum, Largest, Most, Parts;
    match ir.nodes[id] {
      case StringPattern(_, _, maxLen, _, patternLen) =>
        if maxLen.Some? {
          var k := if patternLen <= 8 then 8 else 96;
          MulExact(Known(maxLen.value), maxLen.value, Known(k), k, STATE_CAP);
        }
      case Union(branches) =>
        BranchesBefore(ir, id);
        FieldsAgree(ir, id, branches);
        LargestAgrees(FieldBounds(ir, id, branches), FieldValues(ir, id, branches));
      case Enum(literals) =>
        LiteralsAgree(literals);
        MulExact(SumBound(Known(1), LiteralSizes(literals), STATE_CAP), 1 + Sum(LiteralValues(literals)), Known(8), 8, STATE_CAP);
      case Array(items, _, _, _, _) =>
        if items.SchemaItems? {
          ItemBefore(ir, id);
          FieldAgrees(ir, items.item);
        }
      case Tuple(prefix, tail, _, _, _, _) =>
        PositionsBefore(ir, id);
        FieldsAgree(ir, id, prefix + Maybe(tail));
        SumExact(Known(32), 32, FieldBounds(ir, id, prefix + Maybe(tail)), FieldValues(ir, id, prefix + Maybe(tail)), STATE_CAP);
      case LexicalNumber(textLen) =>
      case _ =>
    }
  }

  lemma BranchesBefore(ir: Ir, id: nat)
    requires BackEdges(ir) && id < |ir.nodes| && ir.nodes[id].Union?
    ensures Before(ir.nodes[id].branches, id)
  {
    PartsBefore(ir, id, ir.nodes[id].branches);
  }

  lemma ItemBefore(ir: Ir, id: nat)
    requires BackEdges(ir) && id < |ir.nodes| && ir.nodes[id].Array? && ir.nodes[id].items.SchemaItems?
    ensures ir.nodes[id].items.item < id
  {
    assert ir.nodes[id].items.item in Parts(ir.nodes[id]);
  }

  lemma PositionsBefore(ir: Ir, id: nat)
    requires BackEdges(ir) && id < |ir.nodes| && ir.nodes[id].Tuple?
    ensures Before(ir.nodes[id].prefix + Maybe(ir.nodes[id].tail), id)
  {
    PartsBefore(ir, id, ir.nodes[id].prefix + Maybe(ir.nodes[id].tail));
  }

  lemma FieldsAgree(ir: Ir, id: nat, cs: seq<nat>)
    requires BackEdges(ir) && Sized(ir) && id <= |ir.nodes| && Before(cs, id)
    ensures forall i :: 0 <= i < |cs| ==> Fair(FieldBounds(ir, id, cs)[i], FieldValues(ir, id, cs)[i])
    ensures AllAgree(FieldBounds(ir, id, cs), FieldValues(ir, id, cs), STATE_CAP)
    decreases id, 0
  {
    hide FieldStates, FieldValue;
    forall i | 0 <= i < |cs| ensures Fair(FieldBounds(ir, id, cs)[i], FieldValues(ir, id, cs)[i]) {
      FieldAgrees(ir, cs[i]);
    }
  }

  // --- the post-order pass ----------------------------------------------------------------------------------------------

  /** The routes known once the nodes in `done` have theirs. */
  ghost function View(routes: Routes, done: seq<nat>): (v: Routes)
    ensures |v| == |routes|
  {
    seq(|routes|, c requires 0 <= c < |routes| => if c in done then routes[c] else None)
  }

  /** The `k`-th finished node was judged on the nodes finished before it; any child missing then lies on a
      cycle through the node. */
  ghost predicate JudgedAt(ir: Ir, cost: CostModel, routes: Routes, order: seq<nat>, k: nat)
    requires k < |order|
  {
    && order[k] < |ir.nodes| == |routes|
    && routes[order[k]] == Some(EstimateNode(ir, cost, order[k], View(routes, order[..k])))
    && forall c :: c in Children(ir, order[k]) && c < |ir.nodes| ==> c in order[..k] || Reaches(NextOf(ir), c, order[k])
  }

  ghost predicate Judged(ir: Ir, cost: CostModel, routes: Routes, order: seq<nat>) {
    && |routes| == |ir.nodes| && Finite.Distinct(order)
    && (forall i :: 0 <= i < |routes| ==> (routes[i].Some? <==> i in order))
    && forall k :: 0 <= k < |order| ==> JudgedAt(ir, cost, routes, order, k)
  }

  /** The explicit stack: an entry marked done waits for everything above it. */
  type Stack = seq<(nat, bool)>

  ghost predicate Opened(stack: Stack, i: nat) {
    exists j :: 0 <= j < |stack| && stack[j] == (i, true)
  }

  ghost predicate Queued(stack: Stack, i: nat, above: int) {
    exists j :: above < j < |stack| && j >= 0 && stack[j] == (i, false)
  }

  ghost predicate Chained(ir: Ir, stack: Stack) {
    forall j, k :: 0 <= j < k < |stack| && stack[j].1 ==> Reaches(NextOf(ir), stack[j].0, stack[k].0)
  }

  ghost predicate Awaits(ir: Ir, visit: seq<nat>, stack: Stack, j: nat)
    requires j < |stack|
  {
    forall c :: c in Children(ir, stack[j].0) && c < |visit| ==> visit[c] != 0 || Queued(stack, c, j)
  }

  /** The invariant of the pass: 0 unseen, 1 open, 2 finished. */
  ghost predicate Passing(ir: Ir, visit: seq<nat>, stack: Stack, order: seq<nat>) {
    && |visit| == |ir.nodes|
    && (forall j :: 0 <= j < |stack| ==> stack[j].0 < |visit|)
    && (forall i :: 0 <= i < |visit| ==> (visit[i] == 2 <==> i in order) && visit[i] <= 2)
    && (forall i :: 0 <= i < |visit| ==> (visit[i] == 1 <==> Opened(stack, i)))
    && (forall j, k :: 0 <= j < k < |stack| && stack[j].1 && stack[k].1 ==> stack[j].0 != stack[k].0)
    && Chained(ir, stack)
    && (forall j :: 0 <= j < |stack| && stack[j].1 ==> Awaits(ir, visit, stack, j))
    && (forall i :: 0 <= i < |visit| ==> visit[i] != 0 || Queued(stack, i, -1))
  }

  ghost function Unseen(visit: seq<nat>): set<nat> {
    set i | i in Finite.Below(|visit|) && visit[i] == 0
  }

  function Pushes(children: seq<nat>, visit: seq<nat>): (r: Stack)
    ensures forall j :: 0 <= j < |r| ==> !r[j].1 && r[j].0 in children && r[j].0 < |visit|
    ensures forall c :: c in children && c < |visit| && visit[c] == 0 ==> (c, false) in r
  {
    if children == [] then []
    else
      assert children == [children[0]] + children[1..];
      var rest := Pushes(children[1..], visit);
      var c := children[0];
      if c < |visit| && visit[c] == 0 then [(c, false)] + rest else rest
  }

  // The last entry of the stack is taken.

  lemma StillQueued(stack: Stack, i: nat, above: int)
    requires stack != [] && Queued(stack, i, above) && stack[|stack| - 1] != (i, false)
    ensures Queued(stack[..|stack| - 1], i, above)
  {
    var j :| above < j < |stack| && j >= 0 && stack[j] == (i, false);
    assert stack[..|stack| - 1][j] == stack[j];
  }

  /** An entry for a node already seen is dropped. */
  lemma DropSeen(ir: Ir, visit: seq<nat>, stack: Stack, order: seq<nat>)
    requires Passing(ir, visit, stack, order) && stack != []
    requires !stack[|stack| - 1].1 && visit[stack[|stack| - 1].0] != 0
    ensures Passing(ir, visit, stack[..|stack| - 1], order)
  {
    hide Reaches;
    var t := |stack| - 1;
    var rest := stack[..t];
    forall i | 0 <= i < |visit| ensures Opened(stack, i) <==> Opened(rest, i) { OpenedBelow(stack, i); }
    forall j | 0 <= j < |rest| && rest[j].1 ensures Awaits(ir, visit, rest, j) {
      assert Awaits(ir, visit, stack, j);
      forall c | c in Children(ir, rest[j].0) && c < |visit| && visit[c] == 0 ensures Queued(rest, c, j) {
        StillQueued(stack, c, j);
      }
    }
    forall i | 0 <= i < |visit| && visit[i] == 0 ensures Queued(rest, i, -1) { StillQueued(stack, i, -1); }
  }

  lemma OpenedBelow(stack: Stack, i: nat)
    requires stack != []
    ensures Opened(stack, i) <==> Opened(stack[..|stack| - 1], i) || stack[|stack| - 1] == (i, true)
  {
    var rest := stack[..|stack| - 1];
    if j :| 0 <= j < |rest| && rest[j] == (i, true) { assert stack[j] == (i, true); }
    if j :| 0 <= j < |stack| && stack[j] == (i, true) {
      if j < |rest| { assert rest[j] == (i, true); }
    }
  }

  /** A finished node leaves the stack. */
  lemma CloseNode(ir: Ir, visit: seq<nat>, stack: Stack, order: seq<nat>)
    requires Passing(ir, visit, stack, order) && stack != [] && stack[|stack| - 1].1
    ensures var id := stack[|stack| - 1].0;
            id < |visit| && visit[id] == 1 && Passing(ir, visit[id := 2], stack[..|stack| - 1], order + [id])
  {
    hide Reaches;
    var t := |stack| - 1;
    var rest, id := stack[..t], stack[t].0;
    var visit' := visit[id := 2];
    assert Opened(stack, id);
    forall i | 0 <= i < |visit| ensures visit'[i] == 1 <==> Opened(rest, i) {
      OpenedBelow(stack, i);
    }
    forall j | 0 <= j < |rest| && rest[j].1 ensures Awaits(ir, visit', rest, j) {
      assert Awaits(ir, visit, stack, j);
      forall c | c in Children(ir, rest[j].0) && c < |visit| && visit'[c] == 0 ensures Queued(rest, c, j) {
        StillQueued(stack, c, j);
      }
    }
    forall i | 0 <= i < |visit| && visit'[i] == 0 ensures Queued(rest, i, -1) { StillQueued(stack, i, -1); }
  }

  /** When a node is finished, its children are finished or lead back to it. */
  lemma ChildrenAtClose(ir: Ir, visit: seq<nat>, stack: Stack, order: seq<nat>, c: nat)
    requires Passing(ir, visit, stack, order) && stack != [] && stack[|stack| - 1].1
    requires c in Children(ir, stack[|stack| - 1].0) && c < |visit|
    ensures c in order || Reaches(NextOf(ir), c, stack[|stack| - 1].0)
  {
    var t := |stack| - 1;
    assert Awaits(ir, visit, stack, t);
    assert !Queued(stack, c, t);
    if visit[c] == 1 {
      assert Opened(stack, c);
      var j :| 0 <= j < |stack| && stack[j] == (c, true);
      if j < t { assert Reaches(NextOf(ir), stack[j].0, stack[t].0); } else { ReachesSelf(NextOf(ir), c); }
    }
  }

  ghost function Grown(ir: Ir, visit: seq<nat>, stack: Stack): Stack
    requires stack != []
  {
    var id := stack[|stack| - 1].0;
    stack[..|stack| - 1] + [(id, true)] + Pushes(Children(ir, id), visit)
  }

  lemma QueuedInGrown(ir: Ir, visit: seq<nat>, stack: Stack, i: nat, above: int)
    requires stack != [] && Queued(stack[..|stack| - 1], i, above)
    ensures Queued(Grown(ir, visit, stack), i, above)
  {
    var rest := stack[..|stack| - 1];
    var j :| above < j < |rest| && j >= 0 && rest[j] == (i, false);
    assert Grown(ir, visit, stack)[j] == rest[j];
  }

  lemma PushedIsQueued(ir: Ir, visit: seq<nat>, stack: Stack, c: nat)
    requires stack != [] && c in Children(ir, stack[|stack| - 1].0) && c < |visit| && visit[c] == 0
    ensures Queued(Grown(ir, visit, stack), c, |stack| - 1)
  {
    var pushes := Pushes(Children(ir, stack[|stack| - 1].0), visit);
    var j :| 0 <= j < |pushes| && pushes[j] == (c, false);
    assert Grown(ir, visit, stack)[|stack| + j] == (c, false);
  }

  lemma GrownEntries(ir: Ir, visit: seq<nat>, stack: Stack, k: nat)
    requires stack != [] && k < |Grown(ir, visit, stack)|
    ensures var g, t := Grown(ir, visit, stack), |stack| - 1;
            if k < t then g[k] == stack[k]
            else if k == t then g[k] == (stack[t].0, true)
            else !g[k].1 && g[k].0 in Children(ir, stack[t].0) && g[k].0 < |visit|
  {
    var g, t := Grown(ir, visit, stack), |stack| - 1;
    if k > t { assert g[k] == Pushes(Children(ir, stack[t].0), visit)[k - t - 1]; }
  }

  /** A node seen for the first time is opened, and its unseen children queue above it. */
  lemma OpenNode(ir: Ir, visit: seq<nat>, stack: Stack, order: seq<nat>)
    requires Passing(ir, visit, stack, order) && stack != []
    requires !stack[|stack| - 1].1 && visit[stack[|stack| - 1].0] == 0
    ensures var visit' := visit[stack[|stack| - 1].0 := 1];
            Passing(ir, visit', Grown(ir, visit', stack), order)
  {
    hide Reaches, Grown, Pushes;
    var t := |stack| - 1;
    var rest, id := stack[..t], stack[t].0;
    var visit' := visit[id := 1];
    var g := Grown(ir, visit', stack);
    GrownSize(ir, visit', stack);
    forall k: nat | k < |g| { GrownEntries(ir, visit', stack, k); }
    forall i | 0 <= i < |visit| ensures visit'[i] == 1 <==> Opened(g, i) {
      OpenedBelow(stack, i);
      OpenedInGrown(ir, visit', stack, i);
    }
    OpenChain(ir, visit', stack);
    forall j | 0 <= j < |g| && g[j].1 ensures Awaits(ir, visit', g, j) {
      forall c | c in Children(ir, g[j].0) && c < |visit| && visit'[c] == 0 ensures Queued(g, c, j) {
        if j == t {
          PushedIsQueued(ir, visit', stack, c);
        } else {
          assert Awaits(ir, visit, stack, j);
          StillQueued(stack, c, j);
          QueuedInGrown(ir, visit', stack, c, j);
        }
      }
    }
    forall i | 0 <= i < |visit| && visit'[i] == 0 ensures Queued(g, i, -1) {
      StillQueued(stack, i, -1);
      QueuedInGrown(ir, visit', stack, i, -1);
    }
    forall j, k | 0 <= j < k < |g| && g[j].1 && g[k].1 ensures g[j].0 != g[k].0 {
      if k == t { assert Opened(stack, g[j].0); }
    }
  }

  lemma GrownSize(ir: Ir, visit: seq<nat>, stack: Stack)
    requires stack != []
    ensures |Grown(ir, visit, stack)| >= |stack|
  {}

  lemma OpenedInGrown(ir: Ir, visit: seq<nat>, stack: Stack, i: nat)
    requires stack != []
    ensures Opened(Grown(ir, visit, stack), i) <==> Opened(stack[..|stack| - 1], i) || i == stack[|stack| - 1].0
  {
    hide Pushes;
    var g, rest, t := Grown(ir, visit, stack), stack[..|stack| - 1], |stack| - 1;
    GrownSize(ir, visit, stack);
    if j :| 0 <= j < |rest| && rest[j] == (i, true) { assert g[j] == (i, true); }
    if j :| 0 <= j < |g| && g[j] == (i, true) {
      GrownEntries(ir, visit, stack, j);
      if j < t { assert rest[j] == (i, true); }
    }
    GrownEntries(ir, visit, stack, t);
  }

  lemma OpenChain(ir: Ir, visit: seq<nat>, stack: Stack)
    requires stack != [] && Chained(ir, stack)
    ensures Chained(ir, Grown(ir, visit, stack))
  {
    hide Reaches, Grown;
    var g, t, id := Grown(ir, visit, stack), |stack| - 1, stack[|stack| - 1].0;
    GrownSize(ir, visit, stack);
    forall j, k | 0 <= j < k < |g| && g[j].1 ensures Reaches(NextOf(ir), g[j].0, g[k].0) {
      GrownEntries(ir, visit, stack, j);
      GrownEntries(ir, visit, stack, k);
      if k > t {
        if j < t { assert Reaches(NextOf(ir), stack[j].0, id); } else { ReachesSelf(NextOf(ir), id); }
        ReachesOn(NextOf(ir), g[j].0, id, g[k].0);
      }
    }
  }

  lemma UnseenShrinks(visit: seq<nat>, id: nat)
    requires id < |visit| && visit[id] == 0
    ensures |Unseen(visit[id := 1])| < |Unseen(visit)|
  {
    assert Unseen(visit) == Unseen(visit[id := 1]) + {id};
  }

  lemma UnseenSame(visit: seq<nat>, id: nat)
    requires id < |visit| && visit[id] == 1
    ensures Unseen(visit[id := 2]) == Unseen(visit)
  {}

  /** Recording a verdict leaves the earlier ones as they were judged. */
  lemma Record(ir: Ir, cost: CostModel, routes: Routes, order: seq<nat>, id: nat)
    requires Judged(ir, cost, routes, order) && id < |routes| && id !in order
    requires forall c :: c in Children(ir, id) && c < |ir.nodes| ==> c in order || Reaches(NextOf(ir), c, id)
    ensures Judged(ir, cost, routes[id := Some(EstimateNode(ir, cost, id, routes))], order + [id])
  {
    hide Reaches, EstimateNode;
    var routes', order' := routes[id := Some(EstimateNode(ir, cost, id, routes))], order + [id];
    forall k | 0 <= k < |order'| ensures JudgedAt(ir, cost, routes', order', k) {
      if k < |order| {
        assert JudgedAt(ir, cost, routes, order, k);
        assert order'[..k] == order[..k];
        assert View(routes', order[..k]) == View(routes, order[..k]);
      } else {
        assert order'[..k] == order;
        assert View(routes', order) == routes;
      }
    }
  }

  lemma StartPass(ir: Ir, stack: Stack)
    requires |stack| == |ir.nodes|
    requires forall j :: 0 <= j < |stack| ==> stack[j] == (|stack| - 1 - j, false)
    ensures Passing(ir, seq(|ir.nodes|, _ => 0), stack, [])
  {
    forall i: nat | i < |ir.nodes| ensures Queued(stack, i, -1) { assert stack[|stack| - 1 - i] == (i, false); }
  }

  /** `analyze`: every node gets the verdict of `estimate_node` on the routes of the nodes finished before it. */
  method Analyze(ir: Ir, cost: CostModel) returns (routes: Routes, ghost order: seq<nat>)
    ensures Judged(ir, cost, routes, order)
    ensures forall i :: 0 <= i < |ir.nodes| ==> routes[i].Some?
  {
    hide Judged, Passing, EstimateNode, Pushes;
    var n := |ir.nodes|;
    routes := seq(n, _ => None);
    var visit: seq<nat> := seq(n, _ => 0);
    var stack: Stack := seq(n, j requires 0 <= j < n => (n - 1 - j, false));
    order := [];
    NoVerdicts(ir, cost);
    StartPass(ir, stack);
    while stack != []
      invariant Passing(ir, visit, stack, order) && Judged(ir, cost, routes, order)
      decreases |Unseen(visit)|, |stack|
    {
      PassingParts(ir, visit, stack, order);
      JudgedParts(ir, cost, routes, order);
      var t := |stack| - 1;
      var (id, done) := stack[t];
      if done {
        CloseNode(ir, visit, stack, order);
        forall c | c in Children(ir, id) && c < n ensures c in order || Reaches(NextOf(ir), c, id) {
          ChildrenAtClose(ir, visit, stack, order, c);
        }
        Record(ir, cost, routes, order, id);
        UnseenSame(visit, id);
        routes := routes[id := Some(EstimateNode(ir, cost, id, routes))];
        visit := visit[id := 2];
        stack, order := stack[..t], order + [id];
      } else if visit[id] != 0 {
        DropSeen(ir, visit, stack, order);
        stack := stack[..t];
      } else {
        OpenNode(ir, visit, stack, order);
        UnseenShrinks(visit, id);
        visit := visit[id := 1];
        GrownIs(ir, visit, stack);
        stack := stack[..t] + [(id, true)] + Pushes(Children(ir, id), visit);
      }
    }
    AllSeen(ir, cost, visit, routes, order);
  }

  lemma GrownIs(ir: Ir, visit: seq<nat>, stack: Stack)
    requires stack != []
    ensures Grown(ir, visit, stack) ==
            stack[..|stack| - 1] + [(stack[|stack| - 1].0, true)] + Pushes(Children(ir, stack[|stack| - 1].0), visit)
  {}

  lemma NoVerdicts(ir: Ir, cost: CostModel)
    ensures Judged(ir, cost, seq(|ir.nodes|, _ => None), [])
  {}

  lemma PassingParts(ir: Ir, visit: seq<nat>, stack: Stack, order: seq<nat>)
    requires Passing(ir, visit, stack, order) && stack != []
    ensures |visit| == |ir.nodes| && stack[|stack| - 1].0 < |visit|
    ensures forall i :: 0 <= i < |visit| && visit[i] != 2 ==> i !in order
  {}

  lemma JudgedParts(ir: Ir, cost: CostModel, routes: Routes, order: seq<nat>)
    requires Judged(ir, cost, routes, order)
    ensures |routes| == |ir.nodes|
  {}

  lemma AllSeen(ir: Ir, cost: CostModel, visit: seq<nat>, routes: Routes, order: seq<nat>)
    requires Passing(ir, visit, [], order) && Judged(ir, cost, routes, order)
    ensures forall i :: 0 <= i < |ir.nodes| ==> routes[i].Some?
  {
    forall i: nat | i < |visit| ensures visit[i] == 2 {
      assert !Queued([], i, -1) && !Opened([], i);
    }
  }

  // --- what the verdicts imply ----------------------------------------------------------------------------------------

  ghost predicate IsRegular(routes: Routes, id: nat) {
    id < |routes| && routes[id].Some? && routes[id].value.kind == Regular
  }

  /** When a node finishes. */
  ghost function Finish(order: seq<nat>, id: nat): (k: nat)
    ensures id in order ==> k < |order| && order[k] == id
  {
    if id !in order then 0 else
      var k: nat :| k < |order| && order[k] == id;
      k
  }

  /** A Regular node has only Regular children, all finished before it, and no local reason against it. */
  lemma RegularChildren(ir: Ir, cost: CostModel, routes: Routes, order: seq<nat>, id: nat)
    requires Judged(ir, cost, routes, order) && IsRegular(routes, id)
    ensures forall c :: c in Children(ir, id) ==> IsRegular(routes, c) && Finish(order, c) < Finish(order, id)
    ensures LocalReason(ir, ir.nodes[id], routes[id].value.regular).None?
  {
    hide LocalReason, Reaches, EstimateNode;
    var k := Finish(order, id);
    assert JudgedAt(ir, cost, routes, order, k);
    var view := View(routes, order[..k]);
    RegularMeans(ir, cost, id, view);
    forall c | c in Children(ir, id) ensures IsRegular(routes, c) && Finish(order, c) < k {
      assert view[c] == routes[c] && c in order[..k];
      var j :| 0 <= j < k && order[..k][j] == c;
      assert order[j] == order[Finish(order, c)];
    }
  }

  /** A Regular verdict covers every descendant. */
  lemma RegularDescendants(ir: Ir, cost: CostModel, routes: Routes, order: seq<nat>, a: nat, b: nat)
    requires Judged(ir, cost, routes, order) && IsRegular(routes, a) && Reaches(NextOf(ir), a, b)
    ensures IsRegular(routes, b)
  {
    hide Judged, LocalReason;
    var holds := (id: nat) => IsRegular(routes, id);
    forall x: nat, y: nat | holds(x) && y in NextOf(ir)(x) ensures holds(y) {
      RegularChildren(ir, cost, routes, order, x);
    }
    var k: nat :| Steps(NextOf(ir), a, b, k);
    Inherited(NextOf(ir), a, b, k, holds);
  }

  lemma {:induction false} FinishFalls(ir: Ir, cost: CostModel, routes: Routes, order: seq<nat>, a: nat, b: nat, k: nat)
    requires Judged(ir, cost, routes, order) && IsRegular(routes, a) && Steps(NextOf(ir), a, b, k)
    ensures k == 0 || Finish(order, b) < Finish(order, a)
    decreases k
  {
    hide Judged, LocalReason;
    if k > 0 {
      var m: nat :| m in NextOf(ir)(a) && Steps(NextOf(ir), m, b, k - 1);
      RegularChildren(ir, cost, routes, order, a);
      FinishFalls(ir, cost, routes, order, m, b, k - 1);
    }
  }

  /** No Regular node lies on a cycle, whatever the shape of the arena. */
  lemma RegularAcyclic(ir: Ir, cost: CostModel, routes: Routes, order: seq<nat>, a: nat, c: nat)
    requires Judged(ir, cost, routes, order) && IsRegular(routes, a) && c in Children(ir, a)
    ensures !Reaches(NextOf(ir), c, a)
  {
    hide Judged, LocalReason;
    RegularChildren(ir, cost, routes, order, a);
    if k: nat :| Steps(NextOf(ir), c, a, k) { FinishFalls(ir, cost, routes, order, c, a, k); }
  }

  // --- what the numbers of a Regular node say --------------------------------------------------------------------------

  /** A node without a local reason has no children but its parts. */
  lemma ChildrenAreParts(ir: Ir, id: nat, regular: CostEstimate)
    requires id < |ir.nodes| && LocalReason(ir, ir.nodes[id], regular).None?
    ensures Children(ir, id) == Parts(ir.nodes[id])
  {}

  /** The children's estimates are their numbers. */
  ghost predicate Settled(ir: Ir, id: nat, children: seq<NodeRoute>)
    requires BackEdges(ir) && id < |ir.nodes|
  {
    var parts := Parts(ir.nodes[id]);
    && |children| == |parts| && Before(parts, id)
    && forall i :: 0 <= i < |parts| ==> children[i].regular.states == Known(Value(ir, parts[i])) && Value(ir, parts[i]) > 0
  }

  /** The values behind the inputs of the node's shape. */
  ghost function InputsOf(ir: Ir, id: nat): seq<nat>
    requires BackEdges(ir) && id < |ir.nodes| && Before(Parts(ir.nodes[id]), id)
  {
    var node := ir.nodes[id];
    if LargeStringEnum(node) then []
    else match node
      case Union(branches) => Values(ir, id, branches)
      case Intersection(branches) => Values(ir, id, branches)
      case ExactlyOne(branches) => Values(ir, id, branches)
      case Object(fields, _, _) => FieldValues(ir, id, fields)
      case Array(_, _, _, _, _) => [FirstValue(ir, id, Parts(node))]
      case Tuple(_, _, _, _, _, _) => [FirstValue(ir, id, Parts(node))]
      case _ => [LeafValue(node)]
  }

  lemma LeafTells(node: Node)
    ensures Tells(LeafStates(node), LeafValue(node), STATE_CAP) && LeafValue(node) > 0
  {
    hide SumBound, Sum;
    match node {
      case StringPattern(_, _, maxLen, counted, _) =>
        if maxLen.Some? { MulExact(Known(maxLen.value), maxLen.value, Known(8), 8, STATE_CAP); }
      case Enum(literals) => LiteralsAgree(literals);
      case _ =>
    }
  }

  lemma ShapeInformed(ir: Ir, id: nat, children: seq<NodeRoute>)
    requires BackEdges(ir) && Sized(ir) && id < |ir.nodes| && Settled(ir, id, children)
    ensures Before(Parts(ir.nodes[id]), id)
    ensures var s, values := ShapeOf(ir, ir.nodes[id], children), InputsOf(ir, id);
            Informed(s, values) && !ZeroTimesTooMuch(s) && (s.Leaf? ==> values[0] > 0) && WithinCap(s)
  {
    hide FieldStates, FieldValue, FieldBounds, LeafStates, LeafValue, Sized, AllStrings, BackEdges, Value;
    var node := ir.nodes[id];
    LeafTells(node);
    if node.Object? { ObjectFields(ir, id); }
  }

  lemma ShapeFormula(ir: Ir, id: nat, children: seq<NodeRoute>)
    requires BackEdges(ir) && id < |ir.nodes| && Settled(ir, id, children)
    ensures Before(Parts(ir.nodes[id]), id)
    ensures Formula(ShapeOf(ir, ir.nodes[id], children), InputsOf(ir, id)) == Value(ir, id)
  {
    hide Sum, Product, FieldStates, FieldValue, LeafValue, AllStrings, BackEdges, Bits.Pow2, Values, FirstValue, FieldValues,
         StatesOf, FirstStates, LeafStates, Before;
  }

  lemma ObjectFields(ir: Ir, id: nat)
    requires BackEdges(ir) && Sized(ir) && id < |ir.nodes| && ir.nodes[id].Object?
    ensures var fields := ir.nodes[id].fields;
            && Before(fields, id) && AllAgree(FieldBounds(ir, id, fields), FieldValues(ir, id, fields), STATE_CAP)
            && seq(|fields|, i requires 0 <= i < |fields| => FieldStates(ir, fields[i])) == FieldBounds(ir, id, fields)
  {
    hide FieldStates, FieldValue, AllAgree;
    PartsBefore(ir, id, ir.nodes[id].fields);
    FieldsAgree(ir, id, ir.nodes[id].fields);
  }

  lemma EstimateIs(ir: Ir, id: nat, children: seq<NodeRoute>)
    requires BackEdges(ir) && Sized(ir) && id < |ir.nodes| && Settled(ir, id, children)
    requires RegularCost(ir, ir.nodes[id], children).1 == CheapRegular
    requires LocalReason(ir, ir.nodes[id], RegularCost(ir, ir.nodes[id], children).0).None?
    ensures var e := RegularCost(ir, ir.nodes[id], children).0;
            && e.states == Known(Value(ir, id)) && 0 < Value(ir, id) <= STATE_CAP && e.cells.Known?
            && e.retained == Known(64 * Value(ir, id) + 8 * e.cells.value)
            && e.peak == Known(160 * Value(ir, id) + 8 * e.cells.value)
  {
    hide Value, ShapeOf, States, CellsOf, Informed, Formula, Sized, Settled, BackEdges;
    var s := ShapeOf(ir, ir.nodes[id], children);
    ShapeInformed(ir, id, children);
    ShapeFormula(ir, id, children);
    StatesExact(s, InputsOf(ir, id));
    FormulaPositive(s, InputsOf(ir, id));
    MemoryFollows(s);
    if s.StringList? { ListIsEnum(ir, id, children); }
  }

  lemma ListIsEnum(ir: Ir, id: nat, children: seq<NodeRoute>)
    requires BackEdges(ir) && id < |ir.nodes| && ShapeOf(ir, ir.nodes[id], children).StringList?
    ensures ir.nodes[id].Enum?
  {}

  /** On the program's estimates: the state estimate of a Regular node is exactly its unbounded number, so nothing under
      it saturated; its cells and memory are known too. */
  lemma {:induction false} RegularExact(ir: Ir, routes: Routes, order: seq<nat>, id: nat)
    requires BackEdges(ir) && Sized(ir) && Judged(ir, Costs(ir), routes, order) && IsRegular(routes, id)
    ensures id < |ir.nodes|
    ensures var e := routes[id].value.regular;
            && e.states == Known(Value(ir, id)) && 0 < Value(ir, id) <= STATE_CAP && e.cells.Known?
            && e.retained == Known(64 * Value(ir, id) + 8 * e.cells.value)
            && e.peak == Known(160 * Value(ir, id) + 8 * e.cells.value)
    decreases id
  {
    hide LocalReason, Reaches, EstimateNode, RegularCost, Value, Parts, Children, Sized;
    var cost := Costs(ir);
    var k := Finish(order, id);
    JudgedParts(ir, cost, routes, order);
    assert JudgedAt(ir, cost, routes, order, k);
    var view := View(routes, order[..k]);
    RegularChildren(ir, cost, routes, order, id);
    ChildrenAreParts(ir, id, routes[id].value.regular);
    var parts := Parts(ir.nodes[id]);
    PartsBefore(ir, id, parts);
    RegularMeans(ir, cost, id, view);
    JudgedOn(ir, id, view);
    var children := Resolved(parts, view);
    forall i | 0 <= i < |parts|
      ensures children[i].regular.states == Known(Value(ir, parts[i])) && Value(ir, parts[i]) > 0
    {
      assert parts[i] in Children(ir, id);
      RegularExact(ir, routes, order, parts[i]);
      assert view[parts[i]] == routes[parts[i]];
    }
    EstimateIs(ir, id, children);
  }

  /** A Regular verdict comes with all children resolved and a cheap cost. */
  lemma JudgedOn(ir: Ir, id: nat, view: Routes)
    requires BackEdges(ir) && id < |ir.nodes| && EstimateNode(ir, Costs(ir), id, view).kind == Regular
    ensures var children := Resolved(Children(ir, id), view);
            && |children| == |Children(ir, id)|
            && (forall i :: 0 <= i < |children| ==>
                  Children(ir, id)[i] < |view| && view[Children(ir, id)[i]] == Some(children[i]))
            && EstimateNode(ir, Costs(ir), id, view).regular == RegularCost(ir, ir.nodes[id], children).0
            && RegularCost(ir, ir.nodes[id], children).1 == CheapRegular
  {
    hide LocalReason, RegularCost;
    AllResolved(Children(ir, id), view);
  }

  // --- the compiler -----------------------------------------------------------------------------------------------------

  /** A construction fails when it meets a limit, or a pattern that the library refuses. */
  datatype Refusal = StructuredBackendRequired | InternalError | ConstructionFailed

  datatype Compiled = Built | Refused(why: Refusal)

  /** `uses_direct_compilation`, the same conditions as the arms of `compile_unwrapped`. */
  predicate Direct(node: Node) {
    match node
    case Integer(multipleOf) => multipleOf
    case Intersection(_) => true
    case ExactlyOne(_) => true
    case Union(_) => true
    case Enum(literals) => AllStrings(literals)
    case Object(_, dependent, dependentRequired) => dependent == [] && dependentRequired == 0
    case Array(items, _, _, uniqueItems, contains) => items.SchemaItems? && !uniqueItems && contains.None?
    case Tuple(_, _, _, _, uniqueItems, contains) => !uniqueItems && contains.None?
    case _ => false
  }

  /** The children whose engines a direct arm composes. */
  function Parts(node: Node): seq<nat> {
    match node
    case Intersection(branches) => branches
    case ExactlyOne(branches) => branches
    case Union(branches) => branches
    case Object(fields, _, _) => fields
    case Array(items, _, _, _, _) => if items.SchemaItems? then [items.item] else []
    case Tuple(prefix, tail, _, _, _, _) => prefix + Maybe(tail)
    case _ => []
  }

  /** `node_children`: the edges that text lowering follows. */
  function TextChildren(ir: Ir, id: nat): seq<nat> {
    if id >= |ir.nodes| then []
    else match ir.nodes[id]
      case Array(items, _, _, _, _) => if items.SchemaItems? then [items.item] else []
      case Tuple(prefix, tail, _, _, _, _) => prefix + Maybe(tail)
      case Object(fields, _, _) => fields
      case OpenObject(known, patterns, additional, names, _) =>
        known + patterns + (if additional.AdditionalSchema? then [additional.value] else []) + Maybe(names)
      case Union(branches) => branches
      case Intersection(branches) => branches
      case ExactlyOne(branches) => branches
      case Not(inner) => [inner]
      case DynamicRef(target) => [target]
      case Unevaluated(scope, unevaluated) => [scope, unevaluated]
      case _ => []
  }

  ghost function TextNext(ir: Ir): nat -> seq<nat> {
    (id: nat) => TextChildren(ir, id)
  }

  /** `lower_node`: which nodes have a text form. */
  function LowerNode(node: Node): Compiled {
    match node
    case Integer(multipleOf) => if multipleOf then Refused(InternalError) else Built
    case Number(restricted, hasMultiple) => if restricted || hasMultiple then Refused(StructuredBackendRequired) else Built
    case Array(items, _, _, uniqueItems, contains) =>
      if uniqueItems || items.AllowAnyItem? || contains.Some? then Refused(StructuredBackendRequired) else Built
    case Tuple(_, _, _, _, uniqueItems, contains) =>
      if uniqueItems || contains.Some? then Refused(StructuredBackendRequired) else Built
    case Object(_, dependent, dependentRequired) =>
      if dependent != [] || dependentRequired > 0 then Refused(StructuredBackendRequired) else Refused(InternalError)
    case OpenObject(_, _, _, _, _) => Refused(StructuredBackendRequired)
    case Union(_) => Refused(InternalError)
    case Intersection(_) => Refused(InternalError)
    case ExactlyOne(_) => Refused(InternalError)
    case Not(_) => Refused(StructuredBackendRequired)
    case Ref(_) => Refused(StructuredBackendRequired)
    case DynamicRef(_) => Refused(StructuredBackendRequired)
    case Unevaluated(_, _) => Refused(StructuredBackendRequired)
    case Unsupported => Refused(InternalError)
    case _ => Built
  }

  ghost predicate Marked(reached: seq<bool>, stack: seq<nat>, c: nat) {
    c < |reached| ==> reached[c] || c in stack
  }

  ghost predicate Marks(ir: Ir, root: nat, reached: seq<bool>, stack: seq<nat>) {
    && |reached| == |ir.nodes|
    && (forall i :: 0 <= i < |reached| && reached[i] ==> Reaches(TextNext(ir), root, i))
    && (forall i :: 0 <= i < |stack| ==> Reaches(TextNext(ir), root, stack[i]))
    && (root < |reached| ==> reached[root] || root in stack)
    && (forall i, c :: 0 <= i < |reached| && reached[i] && c in TextChildren(ir, i) ==> Marked(reached, stack, c))
  }

  ghost function Unmarked(reached: seq<bool>): set<nat> {
    set i | i in Finite.Below(|reached|) && !reached[i]
  }

  lemma UnmarkedShrinks(reached: seq<bool>, i: nat)
    requires i < |reached| && !reached[i]
    ensures |Unmarked(reached[i := true])| < |Unmarked(reached)|
  {
    assert Unmarked(reached) == Unmarked(reached[i := true]) + {i};
  }

  lemma SkipMarked(ir: Ir, root: nat, reached: seq<bool>, stack: seq<nat>)
    requires Marks(ir, root, reached, stack) && stack != []
    requires stack[|stack| - 1] >= |reached| || reached[stack[|stack| - 1]]
    ensures Marks(ir, root, reached, stack[..|stack| - 1])
  {
    hide Reaches, TextChildren;
    var rest := stack[..|stack| - 1];
    assert stack == rest + [stack[|stack| - 1]];
    forall i, c | 0 <= i < |reached| && reached[i] && c in TextChildren(ir, i) ensures Marked(reached, rest, c) {
      assert Marked(reached, stack, c);
    }
  }

  lemma MarkNode(ir: Ir, root: nat, reached: seq<bool>, stack: seq<nat>)
    requires Marks(ir, root, reached, stack) && stack != []
    requires stack[|stack| - 1] < |reached| && !reached[stack[|stack| - 1]]
    ensures var id := stack[|stack| - 1];
            Marks(ir, root, reached[id := true], stack[..|stack| - 1] + TextChildren(ir, id))
  {
    hide Reaches, TextChildren;
    var t := |stack| - 1;
    var id, rest := stack[t], stack[..t];
    var more := TextChildren(ir, id);
    assert stack == rest + [id];
    forall i | 0 <= i < |rest + more| ensures Reaches(TextNext(ir), root, (rest + more)[i]) {
      if i >= |rest| { ReachesOn(TextNext(ir), root, id, more[i - |rest|]); }
    }
    var reached' := reached[id := true];
    forall i, c | 0 <= i < |reached| && reached'[i] && c in TextChildren(ir, i) ensures Marked(reached', rest + more, c) {
      if i != id { assert Marked(reached, stack, c); }
    }
  }

  /** `reachable_from`: every node id in range that the text edges reach. */
  method ReachableFrom(ir: Ir, root: nat) returns (reached: seq<bool>)
    requires root < |ir.nodes|
    ensures |reached| == |ir.nodes|
    ensures reached[root] && forall i :: 0 <= i < |reached| && reached[i] ==> Reaches(TextNext(ir), root, i)
    ensures forall i, c :: 0 <= i < |reached| && reached[i] && c in TextChildren(ir, i) ==> Marked(reached, [], c)
  {
    hide TextChildren, Reaches;
    reached := seq(|ir.nodes|, _ => false);
    var stack := [root];
    ReachesSelf(TextNext(ir), root);
    while stack != []
      invariant Marks(ir, root, reached, stack)
      decreases |Unmarked(reached)|, |stack|
    {
      var t := |stack| - 1;
      var id := stack[t];
      if id >= |reached| || reached[id] {
        SkipMarked(ir, root, reached, stack);
        stack := stack[..t];
        continue;
      }
      MarkNode(ir, root, reached, stack);
      UnmarkedShrinks(reached, id);
      reached := reached[id := true];
      stack := stack[..t] + TextChildren(ir, id);
    }
  }

  ghost predicate Lowers(ir: Ir, root: nat, id: nat) {
    id < |ir.nodes| && Reaches(TextNext(ir), root, id) ==> LowerNode(ir.nodes[id]).Built?
  }

  /** `lower_reachable`: lowers the reachable nodes in arena order and stops at the first refusal. */
  method LowerReachable(ir: Ir, root: nat) returns (r: Compiled)
    requires root < |ir.nodes|
    ensures r.Built? ==> LowerNode(ir.nodes[root]).Built?
    ensures (forall id: nat :: Lowers(ir, root, id)) ==> r.Built?
    ensures r.Refused? ==> exists id: nat :: id < |ir.nodes| && Reaches(TextNext(ir), root, id) && LowerNode(ir.nodes[id]) == r
    ensures r != Refused(ConstructionFailed)
  {
    hide Reaches, TextChildren;
    var reached := ReachableFrom(ir, root);
    for i := 0 to |ir.nodes|
      invariant forall j :: 0 <= j < i && reached[j] ==> LowerNode(ir.nodes[j]).Built?
    {
      if reached[i] {
        var lowered := LowerNode(ir.nodes[i]);
        if lowered.Refused? {
          assert !Lowers(ir, root, i);
          return lowered;
        }
      }
    }
    r := Built;
  }

  /** Which nodes compile: direct ones through their parts, the rest as text. */
  ghost predicate Compiles(ir: Ir, id: nat)
    requires BackEdges(ir)
    decreases id
  {
    id < |ir.nodes| &&
    if Direct(ir.nodes[id]) then forall c :: c in Parts(ir.nodes[id]) ==> CompilesPart(ir, id, c)
    else LowerNode(ir.nodes[id]).Built?
  }

  ghost predicate CompilesPart(ir: Ir, id: nat, c: nat)
    requires BackEdges(ir) && id < |ir.nodes| && c in Parts(ir.nodes[id])
    decreases id, 0
  {
    Compiles(ir, c)
  }

  /** Nodes with a text form and no direct arm have no children to lower. */
  lemma TextLeaf(ir: Ir, id: nat)
    requires id < |ir.nodes| && !Direct(ir.nodes[id]) && LowerNode(ir.nodes[id]).Built?
    ensures TextChildren(ir, id) == []
  {}

  lemma LeafReaches(ir: Ir, id: nat, m: nat)
    requires TextChildren(ir, id) == [] && Reaches(TextNext(ir), id, m)
    ensures m == id
  {
    var k: nat :| Steps(TextNext(ir), id, m, k);
    assert k > 0 ==> TextNext(ir)(id) != [];
  }

  /** Whether the construction at a node, from the engines of its parts or from its text, succeeds. */
  type Constructions = nat -> bool

  /** All constructions under the direct arms succeed. */
  ghost predicate AllFit(ir: Ir, id: nat, fits: Constructions)
    requires BackEdges(ir)
    decreases id
  {
    id < |ir.nodes| && fits(id) && (Direct(ir.nodes[id]) ==> forall c :: c in Parts(ir.nodes[id]) ==> PartFits(ir, id, c, fits))
  }

  ghost predicate PartFits(ir: Ir, id: nat, c: nat, fits: Constructions)
    requires BackEdges(ir) && id < |ir.nodes| && c in Parts(ir.nodes[id])
    decreases id, 0
  {
    AllFit(ir, c, fits)
  }

  /** `compile_unwrapped`: it terminates, and succeeds exactly when every node under the direct arms has a direct arm or a
      text form and every construction there succeeds. A failed construction is never reported without one. */
  method CompileUnwrapped(ir: Ir, id: nat, fits: Constructions) returns (r: Compiled)
    requires BackEdges(ir)
    ensures r.Built? <==> Compiles(ir, id) && AllFit(ir, id, fits)
    ensures r == Refused(ConstructionFailed) ==> !AllFit(ir, id, fits)
    ensures r.Refused? && r.why != ConstructionFailed ==> !Compiles(ir, id)
    decreases id
  {
    hide LowerNode, Parts, Direct, TextChildren, Reaches, BackEdges;
    if id >= |ir.nodes| { return Refused(InternalError); }
    var node := ir.nodes[id];
    if !Direct(node) {
      r := LowerReachable(ir, id);
      if LowerNode(node).Built? { AloneLowers(ir, id); }
      if r.Built? && !fits(id) { r := Refused(ConstructionFailed); }
      return;
    }
    var parts := Parts(node);
    for i := 0 to |parts|
      invariant forall j :: 0 <= j < i ==> Compiles(ir, parts[j]) && AllFit(ir, parts[j], fits)
    {
      PartBefore(ir, id, parts[i]);
      r := CompileUnwrapped(ir, parts[i], fits);
      if r.Refused? {
        assert !CompilesPart(ir, id, parts[i]) || !PartFits(ir, id, parts[i], fits);
        return;
      }
    }
    forall c | c in parts ensures CompilesPart(ir, id, c) && PartFits(ir, id, c, fits) {
      var j :| 0 <= j < |parts| && parts[j] == c;
    }
    r := if fits(id) then Built else Refused(ConstructionFailed);
  }

  lemma PartBefore(ir: Ir, id: nat, c: nat)
    requires BackEdges(ir) && id < |ir.nodes| && c in Parts(ir.nodes[id])
    ensures c < id
  {}

  lemma AloneLowers(ir: Ir, id: nat)
    requires id < |ir.nodes| && !Direct(ir.nodes[id]) && LowerNode(ir.nodes[id]).Built?
    ensures forall m: nat :: Lowers(ir, id, m)
  {
    hide Reaches;
    TextLeaf(ir, id);
    forall m: nat ensures Lowers(ir, id, m) {
      if Reaches(TextNext(ir), id, m) { LeafReaches(ir, id, m); }
    }
  }

  /** No local reason against a node means it has a direct arm or a text form, and the router follows its parts. */
  lemma NoReasonCompiles(ir: Ir, id: nat, regular: CostEstimate)
    requires id < |ir.nodes| && LocalReason(ir, ir.nodes[id], regular).None?
    ensures Direct(ir.nodes[id]) || LowerNode(ir.nodes[id]).Built?
    ensures forall c :: c in Parts(ir.nodes[id]) ==> c in Children(ir, id)
  {}

  /** Router and compiler agree: a node judged Regular compiles, whatever the cost estimates were. */
  lemma {:induction false} RegularCompiles(ir: Ir, cost: CostModel, routes: Routes, order: seq<nat>, id: nat)
    requires BackEdges(ir) && Judged(ir, cost, routes, order) && IsRegular(routes, id)
    ensures Compiles(ir, id)
    decreases id
  {
    hide LowerNode, Parts, Direct, Children, LocalReason;
    JudgedParts(ir, cost, routes, order);
    RegularChildren(ir, cost, routes, order, id);
    NoReasonCompiles(ir, id, routes[id].value.regular);
    forall c | c in Parts(ir.nodes[id]) ensures CompilesPart(ir, id, c) {
      RegularCompiles(ir, cost, routes, order, c);
    }
  }

  /** Everything `compile_node` constructs for a node: the engines of a direct arm, and the result with whitespace around
      it (`wraps`). */
  ghost predicate NodeFits(ir: Ir, id: nat, fits: Constructions, wraps: Constructions)
    requires BackEdges(ir)
  {
    id < |ir.nodes| && wraps(id) && (Direct(ir.nodes[id]) ==> AllFit(ir, id, fits))
  }

  /** `compile_node`: text with whitespace around it, or a direct engine surrounded by whitespace. */
  method CompileNode(ir: Ir, id: nat, fits: Constructions, wraps: Constructions) returns (r: Compiled)
    requires BackEdges(ir)
    ensures r.Built? <==> Compiles(ir, id) && NodeFits(ir, id, fits, wraps)
    ensures r == Refused(ConstructionFailed) ==> !NodeFits(ir, id, fits, wraps)
    ensures r.Refused? && r.why != ConstructionFailed ==> !Compiles(ir, id)
  {
    hide LowerNode, Parts, Direct, TextChildren, Reaches, BackEdges, AllFit;
    if id >= |ir.nodes| { return Refused(InternalError); }
    if !Direct(ir.nodes[id]) {
      r := LowerReachable(ir, id);
      if LowerNode(ir.nodes[id]).Built? { AloneLowers(ir, id); }
    } else {
      r := CompileUnwrapped(ir, id, fits);
    }
    if r.Built? && !wraps(id) { r := Refused(ConstructionFailed); }
  }

  /** `compile_ir` on an IR without diagnostics: it refuses up front exactly the roots that are not Regular, and a Regular
      one later only because a construction fails. */
  method CompileIr(ir: Ir, fits: Constructions, wraps: Constructions)
    returns (r: Compiled, ghost routes: Routes, ghost order: seq<nat>)
    requires BackEdges(ir)
    ensures Judged(ir, Costs(ir), routes, order)
    ensures r.Built? <==> IsRegular(routes, ir.root) && NodeFits(ir, ir.root, fits, wraps)
    ensures r == Refused(StructuredBackendRequired) <==> !IsRegular(routes, ir.root)
    ensures r != Refused(InternalError)
  {
    hide Judged, Compiles, BackEdges, Costs, NodeFits;
    var table;
    table, order := Analyze(ir, Costs(ir));
    routes := table;
    JudgedParts(ir, Costs(ir), routes, order);
    if ir.root >= |table| || table[ir.root].None? || table[ir.root].value.kind != Regular {
      return Refused(StructuredBackendRequired), routes, order;
    }
    RegularCompiles(ir, Costs(ir), routes, order, ir.root);
    r := CompileNode(ir, ir.root, fits, wraps);
  }
}
