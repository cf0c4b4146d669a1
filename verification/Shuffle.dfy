/** Objects with their fields in any order (automaton/shuffle.rs). */
module Shuffle {
  import opened Outcome
  import opened Languages
  import opened Graph
  import opened Engine
  import opened Discovery
  import opened NfaTheory
  import Bits
  import Finite
  import KeyCells
  import Materialize
  import Sorting

  const MAX_SHUFFLE_FIELDS: nat := 32
  const MAX_SHUFFLE_STATES: nat := 65536
  const MAX_SHUFFLE_EDGES: nat := 1048576

  /** Where a run stands: `bits` are the fields already finished. */
  datatype Config =
    | Ready(bits: nat)
    | InComma(bits: nat, s: nat)
    | AfterComma(bits: nat)
    | Active(bits: nat, field: nat, s: nat)

  /** The independent fragments, the separator between them, and which fields must occur. */
  datatype Parts = Parts(fields: seq<RefEngine>, required: seq<bool>, separator: RefEngine)
  {
    ghost predicate Ok() {
      |fields| == |required| && separator.Valid() && forall i :: 0 <= i < |fields| ==> fields[i].Valid()
    }
  }

  // --- the declared language --------------------------------------------------------------------------------

  ghost function FieldWords(p: Parts, i: nat): Lang
    requires i < |p.fields|
  {
    NonEmpty(p.fields[i].Language())
  }

  ghost function SeparatorWords(p: Parts): Lang {
    NonEmpty(p.separator.Language())
  }

  ghost predicate Indices(p: Parts, order: seq<nat>) {
    Finite.Distinct(order) && forall k :: 0 <= k < |order| ==> order[k] < |p.fields|
  }

  /** w1 s1 w2 ... wk with w_j a non-empty word of field order[j] and s_j a non-empty separator. */
  ghost function Joined(p: Parts, order: seq<nat>): Lang
    requires order != [] && Indices(p, order)
    decreases |order|
  {
    var first := FieldWords(p, order[0]);
    if |order| == 1 then first
    else
      assert Indices(p, order[1..]);
      Cat(first, Cat(SeparatorWords(p), Joined(p, order[1..])))
  }

  ghost predicate CoversRequired(p: Parts, order: seq<nat>) {
    forall r :: 0 <= r < |p.required| && p.required[r] ==> r in order
  }

  ghost predicate Spells(p: Parts, order: seq<nat>, w: Word) {
    && Indices(p, order) && CoversRequired(p, order)
    && if order == [] then w == [] else w in Joined(p, order)
  }

  ghost predicate InShuffle(p: Parts, w: Word) {
    exists order :: Spells(p, order, w)
  }

  /** Every selection of distinct fields that contains the required ones, in every order. */
  ghost function ShuffleLanguage(p: Parts): Lang {
    iset w: Word | InShuffle(p, w)
  }

  // --- configurations ---------------------------------------------------------------------------------------

  function RequiredMask(required: seq<bool>): nat {
    if required == [] then 0
    else
      var k := |required| - 1;
      if required[k] then Bits.SetBit(RequiredMask(required[..k]), k) else RequiredMask(required[..k])
  }

  lemma {:induction false} MaskBits(required: seq<bool>, i: nat)
    ensures Bits.Bit(RequiredMask(required), i) <==> i < |required| && required[i]
  {
    if required == [] {
      Bits.ZeroHasNoBit(i);
    } else {
      var k := |required| - 1;
      MaskBits(required[..k], i);
      Bits.BitOfSetBit(RequiredMask(required[..k]), k, i);
    }
  }

  predicate Covers(p: Parts, bits: nat) {
    Bits.And(bits, RequiredMask(p.required)) == RequiredMask(p.required)
  }

  /** The mask test asks that every required field is finished. */
  lemma CoversMeans(p: Parts, bits: nat)
    ensures Covers(p, bits) <==> forall r :: 0 <= r < |p.required| && p.required[r] ==> Bits.Bit(bits, r)
  {
    var mask := RequiredMask(p.required);
    Bits.CoversIsInclusion(bits, mask);
    forall i: nat ensures Bits.Bit(mask, i) <==> i < |p.required| && p.required[i] { MaskBits(p.required, i); }
  }

  function Silent(p: Parts, c: Config): Option<Config> {
    match c
    case InComma(bits, s) => if p.separator.table.IsAccepting(s) then Some(AfterComma(bits)) else None
    case Active(bits, i, s) =>
      if i < |p.fields| && p.fields[i].table.IsAccepting(s) then Some(Ready(Bits.SetBit(bits, i))) else None
    case _ => None
  }

  /** The configurations that start one of the first `k` fields not yet finished. */
  function FieldStarts(p: Parts, bits: nat, b: Byte, k: nat): seq<Config>
    requires k <= |p.fields|
  {
    if k == 0 then []
    else
      var front := FieldStarts(p, bits, b, k - 1);
      var t := p.fields[k - 1].table.Next(p.fields[k - 1].start, b);
      if !Bits.Bit(bits, k - 1) && t != DEAD then front + [Active(bits, k - 1, t)] else front
  }

  function ByteMoves(p: Parts, c: Config, b: Byte): seq<Config> {
    match c
    case Ready(bits) =>
      if bits == 0 then FieldStarts(p, 0, b, |p.fields|)
      else
        var t := p.separator.table.Next(p.separator.start, b);
        if t != DEAD then [InComma(bits, t)] else []
    case InComma(bits, s) =>
      var t := p.separator.table.Next(s, b);
      if t != DEAD then [InComma(bits, t)] else []
    case AfterComma(bits) => FieldStarts(p, bits, b, |p.fields|)
    case Active(bits, i, s) =>
      if i >= |p.fields| then []
      else
        var t := p.fields[i].table.Next(s, b);
        if t != DEAD then [Active(bits, i, t)] else []
  }

  lemma {:induction false} FieldStartsAre(p: Parts, bits: nat, b: Byte, k: nat, c: Config)
    requires k <= |p.fields|
    ensures c in FieldStarts(p, bits, b, k) <==>
            c.Active? && c.bits == bits && c.field < k && !Bits.Bit(bits, c.field) && c.s != DEAD
            && c.s == p.fields[c.field].table.Next(p.fields[c.field].start, b)
  {
    hide Table.Next, Bits.Bit;
    if k > 0 { FieldStartsAre(p, bits, b, k - 1, c); }
  }

  predicate Finished(p: Parts, c: Config) {
    c.Ready? && Covers(p, c.bits)
  }

  ghost function View(p: Parts): Nfa<Config> {
    Nfa((c: Config, d: Config) => Silent(p, c) == Some(d),
        (c: Config, b: Byte, d: Config) => d in ByteMoves(p, c, b),
        (c: Config) => Finished(p, c))
  }

  // --- what each configuration still has to read -------------------------------------------------------------

  /** `order` finishes the object when `bits` are already done. */
  ghost predicate Completes(p: Parts, bits: nat, order: seq<nat>) {
    && order != [] && Indices(p, order)
    && (forall k :: 0 <= k < |order| ==> !Bits.Bit(bits, order[k]))
    && (forall r: nat :: r < |p.required| && p.required[r] ==> Bits.Bit(bits, r) || r in order)
  }

  ghost predicate MoreVia(p: Parts, bits: nat, order: seq<nat>, w: Word) {
    Completes(p, bits, order) && w in Joined(p, order)
  }

  ghost predicate HasMore(p: Parts, bits: nat, w: Word) {
    exists order :: MoreVia(p, bits, order, w)
  }

  /** One or more further fields. */
  ghost function More(p: Parts, bits: nat): Lang {
    iset w: Word | HasMore(p, bits, w)
  }

  ghost predicate MayClose(p: Parts, bits: nat, w: Word) {
    (w == [] && Covers(p, bits)) || w in Cat(SeparatorWords(p), More(p, bits))
  }

  /** Nothing, or a separator and further fields. */
  ghost function Closing(p: Parts, bits: nat): Lang {
    iset w: Word | MayClose(p, bits, w)
  }

  ghost predicate FieldFirst(p: Parts, bits: nat, i: nat, w: Word) {
    i < |p.fields| && !Bits.Bit(bits, i) && w in Cat(FieldWords(p, i), Closing(p, Bits.SetBit(bits, i)))
  }

  lemma SetBitNonzero(bits: nat, i: nat)
    ensures Bits.SetBit(bits, i) != 0
  {
    Bits.BitOfSetBit(bits, i, i);
    Bits.ZeroHasNoBit(i);
  }

  lemma CompletesTail(p: Parts, bits: nat, order: seq<nat>)
    requires Completes(p, bits, order)
    ensures |order| > 1 ==> Completes(p, Bits.SetBit(bits, order[0]), order[1..])
    ensures |order| == 1 ==> Covers(p, Bits.SetBit(bits, order[0]))
  {
    var bits', rest := Bits.SetBit(bits, order[0]), order[1..];
    assert order == [order[0]] + rest;
    forall i: nat ensures Bits.Bit(bits', i) <==> order[0] == i || Bits.Bit(bits, i) {
      Bits.BitOfSetBit(bits, order[0], i);
    }
    CoversMeans(p, bits');
  }

  lemma CompletesCons(p: Parts, bits: nat, i: nat, rest: seq<nat>)
    requires i < |p.fields| && !Bits.Bit(bits, i)
    requires if rest == [] then Covers(p, Bits.SetBit(bits, i)) else Completes(p, Bits.SetBit(bits, i), rest)
    ensures Completes(p, bits, [i] + rest)
  {
    hide Bits.Bit, Bits.SetBit, Bits.And, Covers, RequiredMask;
    var bits', order := Bits.SetBit(bits, i), [i] + rest;
    forall k: nat ensures Bits.Bit(bits', k) <==> i == k || Bits.Bit(bits, k) { Bits.BitOfSetBit(bits, i, k); }
    CoversMeans(p, bits');
    UnfinishedOrder(p, bits, i, rest);
  }

  lemma UnfinishedOrder(p: Parts, bits: nat, i: nat, rest: seq<nat>)
    requires i < |p.fields| && !Bits.Bit(bits, i) && Indices(p, rest)
    requires forall k :: 0 <= k < |rest| ==> rest[k] != i && !Bits.Bit(bits, rest[k])
    ensures Indices(p, [i] + rest)
    ensures forall k :: 0 <= k < |[i] + rest| ==> !Bits.Bit(bits, ([i] + rest)[k])
  {
    hide Bits.Bit;
    var order := [i] + rest;
    forall k | 0 <= k < |order| ensures k > 0 ==> order[k] == rest[k - 1] {}
  }

  /** Further fields begin with one unfinished field. */
  lemma MoreSplits(p: Parts, bits: nat, w: Word) returns (i: nat)
    requires w in More(p, bits)
    ensures FieldFirst(p, bits, i, w)
  {
    var order :| MoreVia(p, bits, order, w);
    i := order[0];
    var bits' := Bits.SetBit(bits, i);
    CompletesTail(p, bits, order);
    if |order| == 1 {
      CatIntro(FieldWords(p, i), Closing(p, bits'), w, []);
      assert w + [] == w;
    } else {
      var u, v := CatElim(FieldWords(p, i), Cat(SeparatorWords(p), Joined(p, order[1..])), w);
      var x, y := CatElim(SeparatorWords(p), Joined(p, order[1..]), v);
      assert MoreVia(p, bits', order[1..], y);
      CatIntro(SeparatorWords(p), More(p, bits'), x, y);
      CatIntro(FieldWords(p, i), Closing(p, bits'), u, v);
    }
  }

  lemma MoreJoins(p: Parts, bits: nat, i: nat, w: Word)
    requires FieldFirst(p, bits, i, w)
    ensures w in More(p, bits)
  {
    hide Covers, FieldWords, SeparatorWords, Bits.Bit, Bits.SetBit;
    var bits' := Bits.SetBit(bits, i);
    var u, v := CatElim(FieldWords(p, i), Closing(p, bits'), w);
    if v == [] && Covers(p, bits') {
      CompletesCons(p, bits, i, []);
      assert [i] + [] == [i] && u + v == u;
      assert MoreVia(p, bits, [i], w);
    } else {
      var x, y := CatElim(SeparatorWords(p), More(p, bits'), v);
      var rest :| MoreVia(p, bits', rest, y);
      CompletesCons(p, bits, i, rest);
      var order := [i] + rest;
      assert order[1..] == rest;
      CatIntro(SeparatorWords(p), Joined(p, rest), x, y);
      CatIntro(FieldWords(p, i), Cat(SeparatorWords(p), Joined(p, rest)), u, v);
      assert MoreVia(p, bits, order, w);
    }
  }

  /** The words a configuration reads to acceptance. */
  ghost predicate Reads(p: Parts, c: Config, w: Word) {
    match c
    case Ready(bits) => if bits == 0 then (w == [] && Covers(p, 0)) || w in More(p, 0) else w in Closing(p, bits)
    case InComma(bits, s) => w in Cat(p.separator.table.From(s), More(p, bits))
    case AfterComma(bits) => w in More(p, bits)
    case Active(bits, i, s) =>
      i < |p.fields| && !Bits.Bit(bits, i) && w in Cat(p.fields[i].table.From(s), Closing(p, Bits.SetBit(bits, i)))
  }

  lemma {:induction false} StartReads(p: Parts, w: Word)
    requires |p.fields| == |p.required|
    ensures Reads(p, Ready(0), w) <==> InShuffle(p, w)
  {
    CoversMeans(p, 0);
    forall i: nat ensures !Bits.Bit(0, i) { Bits.ZeroHasNoBit(i); }
    if w == [] && Covers(p, 0) { assert Spells(p, [], w); }
    if order :| MoreVia(p, 0, order, w) { assert Spells(p, order, w); }
    if order :| Spells(p, order, w) {
      if order != [] { assert MoreVia(p, 0, order, w); }
    }
  }

  // --- the configurations read exactly what they should -------------------------------------------------------

  /** An active field is one not yet finished. */
  ghost predicate Consistent(p: Parts, c: Config) {
    c.Active? ==> c.field < |p.fields| && !Bits.Bit(c.bits, c.field)
  }

  lemma PrependCat(t: Table, s: nat, b: Byte, l: Lang, w: Word)
    requires w in Cat(t.From(t.Next(s, b)), l)
    ensures [b] + w in Cat(NonEmpty(t.From(s)), l) && [b] + w in Cat(t.From(s), l)
  {
    var u, v := CatElim(t.From(t.Next(s, b)), l, w);
    PrependByte(t, s, b, u);
    CatIntro(NonEmpty(t.From(s)), l, [b] + u, v);
    CatIntro(t.From(s), l, [b] + u, v);
    assert [b] + w == ([b] + u) + v;
  }

  /** The first byte of a word that starts with a non-empty fragment keeps the fragment alive. */
  lemma TakeByte(t: Table, s: nat, l: Lang, u: Word, v: Word)
    requires t.WellFormed() && u != [] && u in t.From(s) && v in l
    ensures t.Next(s, u[0]) != DEAD
    ensures (u + v) != [] && (u + v)[0] == u[0] && (u + v)[1..] in Cat(t.From(t.Next(s, u[0])), l)
  {
    hide Table.WellFormed, Table.Accepts, Table.Next, Table.From, Cat;
    FirstStep(t, s, u);
    CatIntro(t.From(t.Next(s, u[0])), l, u[1..], v);
    assert (u + v)[1..] == u[1..] + v;
  }

  lemma FirstStep(t: Table, s: nat, u: Word)
    requires t.WellFormed() && u != [] && u in t.From(s)
    ensures t.Next(s, u[0]) != DEAD && u[1..] in t.From(t.Next(s, u[0]))
  {
    hide Table.WellFormed, Table.Next;
    t.DeadIsSink(u[1..]);
  }

  lemma EmptyFirst(t: Table, s: nat, l: Lang, w: Word)
    requires t.IsAccepting(s) && w in l
    ensures w in Cat(t.From(s), l)
  {
    CatIntro(t.From(s), l, [], w);
    assert [] + w == w;
  }

  ghost function Predicted(p: Parts): (Config, Word) -> bool {
    (c: Config, w: Word) => Consistent(p, c) ==> Reads(p, c, w)
  }

  lemma SilentAbsorbed(p: Parts, c: Config, d: Config, w: Word)
    requires Silent(p, c) == Some(d) && Consistent(p, c)
    ensures Consistent(p, d)
    ensures Reads(p, d, w) ==> Reads(p, c, w)
  {
    hide Bits.SetBit, Table.IsAccepting, Cat, More, Closing;
    if Reads(p, d, w) {
      match c {
        case InComma(bits, s) => EmptyFirst(p.separator.table, s, More(p, bits), w);
        case Active(bits, i, s) =>
          SetBitNonzero(bits, i);
          EmptyFirst(p.fields[i].table, s, Closing(p, Bits.SetBit(bits, i)), w);
      }
    }
  }

  lemma FieldStartAbsorbed(p: Parts, bits: nat, b: Byte, d: Config, w: Word)
    requires d in FieldStarts(p, bits, b, |p.fields|)
    ensures Consistent(p, d)
    ensures Reads(p, d, w) ==> [b] + w in More(p, bits)
  {
    hide Bits.SetBit, Bits.Bit, Cat, More, Closing, FieldStarts;
    FieldStartsAre(p, bits, b, |p.fields|, d);
    if Reads(p, d, w) {
      var e := p.fields[d.field];
      PrependCat(e.table, e.start, b, Closing(p, Bits.SetBit(bits, d.field)), w);
      FieldLanguage(p, d.field);
      MoreJoins(p, bits, d.field, [b] + w);
    }
  }

  lemma FieldLanguage(p: Parts, i: nat)
    requires i < |p.fields|
    ensures FieldWords(p, i) == NonEmpty(p.fields[i].table.From(p.fields[i].start))
  {}

  lemma ByteAbsorbed(p: Parts, c: Config, b: Byte, d: Config, w: Word)
    requires d in ByteMoves(p, c, b) && Consistent(p, c)
    ensures Consistent(p, d)
    ensures Reads(p, d, w) ==> Reads(p, c, [b] + w)
  {
    hide Bits.SetBit, Bits.Bit, Cat, More, FieldStarts, Covers;
    match c {
      case Ready(bits) =>
        if bits == 0 {
          FieldStartAbsorbed(p, 0, b, d, w);
        } else if Reads(p, d, w) {
          PrependCat(p.separator.table, p.separator.start, b, More(p, bits), w);
        }
      case InComma(bits, s) =>
        if Reads(p, d, w) { PrependCat(p.separator.table, s, b, More(p, bits), w); }
      case AfterComma(bits) => FieldStartAbsorbed(p, bits, b, d, w);
      case Active(bits, i, s) =>
        if Reads(p, d, w) { PrependCat(p.fields[i].table, s, b, Closing(p, Bits.SetBit(bits, i)), w); }
    }
  }

  /** Nothing beyond the declared language is accepted. */
  lemma ShuffleSound(p: Parts, c: Config, w: Word)
    requires Consistent(p, c) && NfaAccepts(View(p), c, w)
    ensures Reads(p, c, w)
  {
    var d := Predicted(p);
    assert Absorbs(View(p), d) by {
      hide Reads;
      forall q | Finished(p, q) ensures d(q, []) { FinishedReads(p, q); }
      forall q, m, v | Silent(p, q) == Some(m) && d(m, v) ensures d(q, v) {
        if Consistent(p, q) { SilentAbsorbed(p, q, m, v); }
      }
      forall q, b: Byte, m, v | m in ByteMoves(p, q, b) && d(m, v) ensures d(q, [b] + v) {
        if Consistent(p, q) { ByteAbsorbed(p, q, b, m, v); }
      }
    }
    AcceptedAbsorbed(View(p), d, c, w);
  }

  lemma FinishedReads(p: Parts, c: Config)
    requires Finished(p, c)
    ensures Reads(p, c, [])
  {}

  lemma StartField(p: Parts, c: Config, w: Word) returns (d: Config)
    requires p.Ok() && (c == Ready(0) || c.AfterComma?) && w in More(p, c.bits)
    ensures w != [] && d in ByteMoves(p, c, w[0]) && Consistent(p, d) && Reads(p, d, w[1..])
  {
    hide Bits.SetBit, Bits.Bit, Cat, More, Closing, FieldStarts;
    var i := MoreSplits(p, c.bits, w);
    var e, rest := p.fields[i], Closing(p, Bits.SetBit(c.bits, i));
    var u, v := CatElim(FieldWords(p, i), rest, w);
    FieldLanguage(p, i);
    TakeByte(e.table, e.start, rest, u, v);
    d := Active(c.bits, i, e.table.Next(e.start, w[0]));
    FieldStartsAre(p, c.bits, w[0], |p.fields|, d);
  }

  lemma StartSeparator(p: Parts, bits: nat, w: Word) returns (d: Config)
    requires p.Ok() && bits != 0 && w in Cat(SeparatorWords(p), More(p, bits))
    ensures w != [] && d in ByteMoves(p, Ready(bits), w[0]) && Consistent(p, d) && Reads(p, d, w[1..])
  {
    hide Cat, More;
    var e := p.separator;
    var u, v := CatElim(SeparatorWords(p), More(p, bits), w);
    TakeByte(e.table, e.start, More(p, bits), u, v);
    d := InComma(bits, e.table.Next(e.start, w[0]));
  }

  /** A fragment in progress either ends here, silently, or takes a byte. */
  lemma InFragment(p: Parts, c: Config, w: Word) returns (silent: bool, d: Config)
    requires p.Ok() && Consistent(p, c) && Reads(p, c, w) && (c.InComma? || c.Active?)
    ensures Consistent(p, d)
    ensures silent ==> Silent(p, c) == Some(d) && (d.AfterComma? || d.Ready?) && Reads(p, d, w)
    ensures !silent ==> w != [] && d in ByteMoves(p, c, w[0]) && Reads(p, d, w[1..])
  {
    hide Bits.SetBit, Bits.Bit, Cat, More, Closing;
    var t, s := (if c.InComma? then p.separator.table else p.fields[c.field].table), c.s;
    var rest := if c.InComma? then More(p, c.bits) else Closing(p, Bits.SetBit(c.bits, c.field));
    var u, v := CatElim(t.From(s), rest, w);
    silent := u == [];
    if silent {
      d := if c.InComma? then AfterComma(c.bits) else Ready(Bits.SetBit(c.bits, c.field));
      assert w == v;
      if c.Active? { SetBitNonzero(c.bits, c.field); }
    } else {
      TakeByte(t, s, rest, u, v);
      d := c.(s := t.Next(s, w[0]));
    }
  }

  /** Everything in the declared language is accepted. */
  lemma {:induction false} ShuffleComplete(p: Parts, c: Config, w: Word)
    requires p.Ok() && Consistent(p, c) && Reads(p, c, w)
    ensures NfaAccepts(View(p), c, w)
    decreases |w|, if c.InComma? || c.Active? then 1 else 0
  {
    hide NfaAccepts, Cat, Bits.And, Bits.Bit, Bits.SetBit, More, Silent, ByteMoves, Consistent, Parts.Ok;
    if w == [] && Finished(p, c) {
      AcceptsEmpty(View(p), c);
      return;
    }
    var d;
    if c.InComma? || c.Active? {
      var silent;
      silent, d := InFragment(p, c, w);
      if silent {
        ShuffleComplete(p, d, w);
        AcceptsSilent(View(p), c, d, w);
        return;
      }
    } else if c == Ready(0) || c.AfterComma? {
      d := StartField(p, c, w);
    } else {
      d := StartSeparator(p, c.bits, w);
    }
    ShuffleComplete(p, d, w[1..]);
    ByteComplete(p, c, w, d);
  }

  lemma ByteComplete(p: Parts, c: Config, w: Word, d: Config)
    requires w != [] && d in ByteMoves(p, c, w[0]) && NfaAccepts(View(p), d, w[1..])
    ensures NfaAccepts(View(p), c, w)
  {
    hide NfaAccepts, ByteMoves;
    AcceptsByte(View(p), c, w[0], d, w[1..]);
    assert [w[0]] + w[1..] == w;
  }

  /** The configurations, run from the start, accept exactly the declared language. */
  lemma ShuffleAccepts(p: Parts, w: Word)
    requires p.Ok()
    ensures NfaAccepts(View(p), Ready(0), w) <==> InShuffle(p, w)
  {
    hide NfaAccepts, InShuffle, Reads, View;
    StartReads(p, w);
    if NfaAccepts(View(p), Ready(0), w) { ShuffleSound(p, Ready(0), w); }
    if InShuffle(p, w) { ShuffleComplete(p, Ready(0), w); }
  }

  // --- silent closure -------------------------------------------------------------------------------------------

  function Rank(c: Config): nat {
    match c case Ready(_) => 0 case InComma(_, _) => 1 case AfterComma(_) => 2 case Active(_, _, _) => 3
  }

  /** The derived order: by constructor, then by fields left to right. */
  predicate ConfigLess(c: Config, d: Config) {
    Rank(c) < Rank(d) || (Rank(c) == Rank(d) &&
    (c.bits < d.bits || (c.bits == d.bits &&
    match c
    case InComma(_, s) => s < d.s
    case Active(_, i, s) => i < d.field || (i == d.field && s < d.s)
    case _ => false)))
  }

  lemma ConfigOrder()
    ensures Sorting.StrictTotal(ConfigLess)
  {}

  /** What one closure pass adds, looking at the first `k` configurations. */
  function Additions(p: Parts, configs: seq<Config>, k: nat): (r: seq<Config>)
    requires k <= |configs|
    ensures forall d :: d in r ==> d !in configs && (d.Ready? || d.AfterComma?)
    ensures forall i :: 0 <= i < k && Silent(p, configs[i]).Some? ==>
              Silent(p, configs[i]).value in configs || Silent(p, configs[i]).value in r
    ensures forall d :: d in r ==> SilentFrom(p, configs, d)
  {
    if k == 0 then []
    else
      var front := Additions(p, configs, k - 1);
      match Silent(p, configs[k - 1])
      case None => front
      case Some(d) =>
        assert configs[k - 1] in configs && SilentFrom(p, configs, d);
        if d in configs || d in front then front else front + [d]
  }

  ghost predicate SilentFrom(p: Parts, configs: seq<Config>, d: Config) {
    exists c :: c in configs && Silent(p, c) == Some(d)
  }

  ghost predicate InClosure(p: Parts, configs: seq<Config>, d: Config) {
    d in configs || SilentFrom(p, configs, d)
  }

  function ClosureKey(p: Parts, configs: seq<Config>): (key: seq<Config>)
    ensures forall d :: d in key <==> InClosure(p, configs, d)
  {
    var added := Additions(p, configs, |configs|);
    Sorting.SortUnique(configs + added, ConfigLess)
  }

  /** The key depends only on which configurations are present. */
  lemma ClosureKeyCanonical(p: Parts, a: seq<Config>, b: seq<Config>)
    requires forall c :: c in a <==> c in b
    ensures ClosureKey(p, a) == ClosureKey(p, b)
  {
    ConfigOrder();
    var x, y := a + Additions(p, a, |a|), b + Additions(p, b, |b|);
    forall d ensures d in x <==> d in y {
      assert d in x <==> d in ClosureKey(p, a);
      assert d in y <==> d in ClosureKey(p, b);
    }
    Sorting.SameMembersSameKey(x, y, ConfigLess);
  }

  lemma {:induction false} NothingToAdd(p: Parts, configs: seq<Config>, k: nat)
    requires k <= |configs|
    requires forall c :: c in configs && Silent(p, c).Some? ==> Silent(p, c).value in configs
    ensures Additions(p, configs, k) == []
  {
    if k > 0 {
      NothingToAdd(p, configs, k - 1);
      assert configs[k - 1] in configs;
    }
  }

  /** One pass reaches the closure: what it adds makes no silent move of its own. */
  lemma SecondPassAddsNothing(p: Parts, configs: seq<Config>)
    ensures var all := configs + Additions(p, configs, |configs|); Additions(p, all, |all|) == []
  {
    var all := configs + Additions(p, configs, |configs|);
    forall c | c in all && Silent(p, c).Some? ensures Silent(p, c).value in all {
      assert c in configs;
      var i :| 0 <= i < |configs| && configs[i] == c;
    }
    NothingToAdd(p, all, |all|);
  }

  lemma AdditionsStep(p: Parts, configs: seq<Config>, k: nat)
    requires k < |configs|
    ensures Additions(p, configs, 0) == []
    ensures var r, added := Additions(p, configs, k), Silent(p, configs[k]);
            Additions(p, configs, k + 1) ==
            if added.Some? && added.value !in configs && added.value !in r then r + [added.value] else r
  {
    hide Silent;
  }

  method ClosurePass(p: Parts, configs: seq<Config>) returns (additions: seq<Config>)
    ensures additions == Additions(p, configs, |configs|)
  {
    hide Silent;
    additions := [];
    for k := 0 to |configs|
      invariant additions == Additions(p, configs, k)
    {
      AdditionsStep(p, configs, k);
      var added := Silent(p, configs[k]);
      if added.Some? && added.value !in configs && added.value !in additions {
        additions := additions + [added.value];
      }
    }
  }

  /** `epsilon_closure`: passes over the growing list until one adds nothing, then sort and dedup. */
  method EpsilonClosure(p: Parts, initial: seq<Config>) returns (key: seq<Config>)
    ensures key == ClosureKey(p, initial)
  {
    hide Silent;
    var configs := initial;
    ghost var passes := 0;
    SecondPassAddsNothing(p, initial);
    ghost var all := initial + Additions(p, initial, |initial|);
    while true
      invariant (passes == 0 && configs == initial) || (passes == 1 && configs == all)
      invariant passes == 0 ==> configs + Additions(p, configs, |configs|) == all
      decreases 1 - passes
    {
      var additions := ClosurePass(p, configs);
      if additions == [] {
        assert configs + [] == configs;
        break;
      }
      configs := configs + additions;
      passes := passes + 1;
    }
    assert configs == all;
    key := Sorting.SortUnique(configs, ConfigLess);
  }

  lemma SilentReach(p: Parts, c: Config, d: Config)
    ensures Reaches(View(p), c, [], d) <==> c == d || Silent(p, c) == Some(d)
  {
    var n := View(p);
    var none: Word := [];
    ReachesRefl(n, d);
    if Silent(p, c) == Some(d) { ReachesSilent(n, c, d, none, d); }
    if Reaches(n, c, none, d) {
      var k: nat :| Run(n, c, none, d, k);
      SilentRun(n, c, none, d, k);
      if c != d {
        var m :| n.eps(c, m) && Reaches(n, m, none, d);
        var j: nat :| Run(n, m, none, d, j);
        SilentRun(n, m, none, d, j);
        SilentOnce(p, c, m);
      }
    }
  }

  lemma SilentOnce(p: Parts, c: Config, m: Config)
    requires Silent(p, c) == Some(m)
    ensures Silent(p, m) == None
  {}

  // --- the subset automaton -------------------------------------------------------------------------------------

  /** The successors of the first `k` configurations, in order. */
  function StepAll(p: Parts, configs: seq<Config>, b: Byte): seq<Config> {
    if configs == [] then []
    else StepAll(p, configs[..|configs| - 1], b) + ByteMoves(p, configs[|configs| - 1], b)
  }

  lemma {:induction false} StepAllAre(p: Parts, configs: seq<Config>, b: Byte, d: Config)
    ensures d in StepAll(p, configs, b) <==> exists c :: c in configs && d in ByteMoves(p, c, b)
  {
    hide ByteMoves;
    if configs != [] {
      var k := |configs| - 1;
      StepAllAre(p, configs[..k], b, d);
      assert configs == configs[..k] + [configs[k]];
    }
  }

  function SubsetNext(p: Parts, key: seq<Config>, b: Byte): Option<seq<Config>> {
    var raw := StepAll(p, key, b);
    if raw == [] then None else Some(ClosureKey(p, raw))
  }

  predicate AnyFinished(p: Parts, key: seq<Config>) {
    exists c :: c in key && Finished(p, c)
  }

  ghost function NextOf(p: Parts): (seq<Config>, Byte) -> Option<seq<Config>> {
    (key: seq<Config>, b: Byte) => SubsetNext(p, key, b)
  }

  ghost function AccOf(p: Parts): seq<Config> -> bool {
    (key: seq<Config>) => AnyFinished(p, key)
  }

  function StartKey(p: Parts): seq<Config> {
    ClosureKey(p, [Ready(0)])
  }

  lemma SubsetStepOk(p: Parts, key: seq<Config>, b: Byte)
    ensures SubsetStep(View(p), NextOf(p), key, b)
  {
    hide Silent, ByteMoves, Reaches, ClosureKey;
    var n, raw := View(p), StepAll(p, key, b);
    forall d ensures d in raw <==> exists c :: c in key && d in ByteMoves(p, c, b) { StepAllAre(p, key, b, d); }
    if raw == [] {
      forall c, d ensures c in key ==> !n.step(c, b, d) {
        assert c in key && d in ByteMoves(p, c, b) ==> d in raw;
      }
    } else {
      assert HasStep(n, key, b) by {
        assert raw[0] in raw;
        var c :| c in key && raw[0] in ByteMoves(p, c, b);
        assert n.step(c, b, raw[0]);
      }
      forall d ensures InClosure(p, raw, d) <==> StepReaches(n, key, b, d) { ClosureOfStep(p, key, b, d); }
      KeyMembers(p, raw);
    }
  }

  lemma KeyMembers(p: Parts, configs: seq<Config>)
    ensures forall d :: d in ClosureKey(p, configs) <==> InClosure(p, configs, d)
  {}

  lemma ClosureOfStep(p: Parts, key: seq<Config>, b: Byte, d: Config)
    ensures InClosure(p, StepAll(p, key, b), d) <==> StepReaches(View(p), key, b, d)
  {
    hide Silent, ByteMoves, Reaches, StepAll;
    var n, raw := View(p), StepAll(p, key, b);
    if InClosure(p, raw, d) {
      var m :| m in raw && (m == d || Silent(p, m) == Some(d));
      StepAllAre(p, key, b, m);
      var c :| c in key && m in ByteMoves(p, c, b);
      SilentReach(p, m, d);
      assert n.step(c, b, m);
    }
    if StepReaches(n, key, b, d) {
      var c, m :| c in key && n.step(c, b, m) && Reaches(n, m, [], d);
      StepAllAre(p, key, b, m);
      SilentReach(p, m, d);
    }
  }

  lemma ShuffleSubsets(p: Parts)
    ensures IsSubsetAutomaton(View(p), NextOf(p), AccOf(p), (key: seq<Config>) => true)
  {
    hide SubsetNext, SubsetStep, Finished;
    forall key, b: Byte ensures SubsetStep(View(p), NextOf(p), key, b) { SubsetStepOk(p, key, b); }
    forall key ensures AccOf(p)(key) <==> SubsetAcc(View(p), key) {
      if SubsetAcc(View(p), key) {
        var c :| c in key && View(p).acc(c);
        assert Finished(p, c);
      }
      if AnyFinished(p, key) {
        var c :| c in key && Finished(p, c);
        assert View(p).acc(c);
      }
    }
  }

  /** The subset automaton accepts the declared language. */
  lemma StartKeyAccepts(p: Parts, w: Word)
    requires p.Ok()
    ensures KeyAccepts(NextOf(p), AccOf(p), StartKey(p), w) <==> InShuffle(p, w)
  {
    hide NfaAccepts, KeyAccepts, IsSubsetAutomaton, NextOf, AccOf, InShuffle, View, Closed;
    ShuffleSubsets(p);
    StartKeyIs(p);
    SubsetAccepts(View(p), NextOf(p), AccOf(p), (key: seq<Config>) => true, [Ready(0)], w);
    ShuffleAccepts(p, w);
  }

  lemma StartKeyIs(p: Parts)
    ensures StartKey(p) == [Ready(0)] && Closed(View(p), [Ready(0)])
  {
    var start := [Ready(0)];
    assert Additions(p, start, 1) == Additions(p, start, 0) == [];
    assert start + [] == start;
    assert Sorting.SortUnique(start[1..], ConfigLess) == [];
    forall c, d | c in [Ready(0)] && Reaches(View(p), c, [], d) ensures d in [Ready(0)] { SilentReach(p, c, d); }
  }

  // --- the construction -----------------------------------------------------------------------------------------

  /** Every active field is one of the given ones. */
  ghost predicate FieldsOk(p: Parts, configs: seq<Config>) {
    forall c :: c in configs && c.Active? ==> c.field < |p.fields|
  }

  lemma NextFieldsOk(p: Parts, key: seq<Config>, b: Byte)
    requires FieldsOk(p, key) && SubsetNext(p, key, b).Some?
    ensures FieldsOk(p, SubsetNext(p, key, b).value)
  {
    hide FieldStarts, ClosureKey;
    var raw := StepAll(p, key, b);
    KeyMembers(p, raw);
    forall d | d in ClosureKey(p, raw) && d.Active? ensures d.field < |p.fields| {
      assert d in raw;
      StepAllAre(p, key, b, d);
      var c :| c in key && d in ByteMoves(p, c, b);
      if c == Ready(0) || c.AfterComma? { FieldStartsAre(p, c.bits, b, |p.fields|, d); }
    }
  }

  lemma {:induction false} LeadsToFieldsOk(p: Parts, key: seq<Config>, w: Word, to: seq<Config>)
    requires FieldsOk(p, key) && LeadsTo(NextOf(p), key, w, to)
    ensures FieldsOk(p, to)
    decreases |w|
  {
    hide FieldsOk, SubsetNext;
    if w != [] {
      NextFieldsOk(p, key, w[0]);
      LeadsToFieldsOk(p, SubsetNext(p, key, w[0]).value, w[1..], to);
    }
  }

  lemma ReachedFieldsOk(p: Parts, key: seq<Config>)
    requires Reached(NextOf(p), StartKey(p), key)
    ensures FieldsOk(p, key)
  {
    var w :| LeadsTo(NextOf(p), StartKey(p), w, key);
    StartKeyIs(p);
    LeadsToFieldsOk(p, StartKey(p), w, key);
  }

  /** One configuration over one byte, by whole-token consumption of that byte. */
  method LiveStep(e: RefEngine, from: nat, byte: Byte) returns (r: Option<nat>)
    requires e.Valid()
    ensures r == if e.table.Next(from, byte) != DEAD then Some(e.table.Next(from, byte)) else None
  {
    e.table.NextInRange(from, byte);
    assert e.table.Walk(from, [byte]) == e.table.Walk(e.table.Next(from, byte), []);
    var t := e.ConsumeToken(from, [byte]);
    r := if t.Some? && !e.IsDead(t.value) then t else None;
  }

  method StartFields(p: Parts, bits: nat, byte: Byte) returns (next: seq<Config>)
    requires p.Ok()
    ensures next == FieldStarts(p, bits, byte, |p.fields|)
  {
    hide RefEngine.Valid, Table.Next;
    next := [];
    for i := 0 to |p.fields|
      invariant next == FieldStarts(p, bits, byte, i)
    {
      if !Bits.Bit(bits, i) {
        var t := LiveStep(p.fields[i], p.fields[i].start, byte);
        if t.Some? { next := next + [Active(bits, i, t.value)]; }
      }
    }
  }

  method StepConfig(p: Parts, c: Config, byte: Byte) returns (next: seq<Config>)
    requires p.Ok() && (c.Active? ==> c.field < |p.fields|)
    ensures next == ByteMoves(p, c, byte)
  {
    hide RefEngine.Valid, Table.Next, FieldStarts;
    next := [];
    match c {
      case Ready(bits) =>
        if bits == 0 {
          next := StartFields(p, 0, byte);
        } else {
          var t := LiveStep(p.separator, p.separator.start, byte);
          if t.Some? { next := [InComma(bits, t.value)]; }
        }
      case InComma(bits, s) =>
        var t := LiveStep(p.separator, s, byte);
        if t.Some? { next := [InComma(bits, t.value)]; }
      case AfterComma(bits) => next := StartFields(p, bits, byte);
      case Active(bits, i, s) =>
        var t := LiveStep(p.fields[i], s, byte);
        if t.Some? { next := [Active(bits, i, t.value)]; }
    }
  }

  /** `step_configs`. */
  method StepConfigs(p: Parts, configs: seq<Config>, byte: Byte) returns (next: seq<Config>)
    requires p.Ok() && FieldsOk(p, configs)
    ensures next == StepAll(p, configs, byte)
  {
    hide RefEngine.Valid, ByteMoves;
    next := [];
    for k := 0 to |configs|
      invariant next == StepAll(p, configs[..k], byte)
    {
      assert configs[..k + 1][..k] == configs[..k];
      var moves := StepConfig(p, configs[k], byte);
      next := next + moves;
    }
    assert configs[..|configs|] == configs;
  }

  method ExpandByte(p: Parts, configs: seq<Config>, byte: Byte, s0: Search<seq<Config>>, edges0: seq<(Byte, nat)>,
                    total0: nat, ghost keys0: seq<seq<Config>>, ghost index: nat)
    returns (ok: bool, s: Search<seq<Config>>, edges: seq<(Byte, nat)>, total: nat, ghost keys: seq<seq<Config>>)
    requires p.Ok() && FieldsOk(p, configs) && index < |keys0| && configs == keys0[index]
    requires Expanding(s0, keys0, index, edges0, total0, byte, NextOf(p), StartKey(p))
    ensures ok ==> keys0 <= keys && Expanding(s, keys, index, edges, total, byte + 1, NextOf(p), StartKey(p))
    ensures ok ==> (keys == keys0 && total == total0) || (|keys| <= MAX_SHUFFLE_STATES && total <= MAX_SHUFFLE_EDGES)
    ensures !ok ==> TooManySubsets(p)
  {
    hide FieldsOk, Parts.Ok, StepAll, Expanding, ClosureKey, TooManySubsets;
    var raw := StepConfigs(p, configs, byte);
    if raw == [] {
      ExpandingSkip(s0, keys0, index, edges0, total0, byte, NextOf(p), StartKey(p));
      return true, s0, edges0, total0, keys0;
    }
    var next := EpsilonClosure(p, raw);
    assert NextOf(p)(configs, byte) == Some(next);
    ok, s, edges, total, keys := PushEdge(next, byte, s0, edges0, total0, MAX_SHUFFLE_STATES, MAX_SHUFFLE_EDGES,
                                          keys0, index, NextOf(p), StartKey(p));
    if !ok { OversizedSubsets(p); }
  }

  ghost predicate TooManySubsets(p: Parts) {
    Oversized(NextOf(p), StartKey(p), MAX_SHUFFLE_STATES, MAX_SHUFFLE_EDGES)
  }

  lemma OversizedSubsets(p: Parts)
    requires Oversized(NextOf(p), StartKey(p), MAX_SHUFFLE_STATES, MAX_SHUFFLE_EDGES)
    ensures TooManySubsets(p)
  {}

  method ExpandRow(p: Parts, configs: seq<Config>, s0: Search<seq<Config>>, total0: nat, ghost keys0: seq<seq<Config>>,
                   ghost index: nat)
    returns (ok: bool, edges: seq<(Byte, nat)>, s: Search<seq<Config>>, total: nat, ghost keys: seq<seq<Config>>)
    requires p.Ok() && FieldsOk(p, configs) && index < |keys0| && configs == keys0[index]
    requires RowState(s0, keys0, index, NextOf(p), StartKey(p))
    requires total0 == OutDegree(NextOf(p), keys0[..index])
    requires |keys0| <= MAX_SHUFFLE_STATES && total0 <= MAX_SHUFFLE_EDGES
    ensures ok ==> keys0 <= keys && Expanding(s, keys, index, edges, total, 256, NextOf(p), StartKey(p))
    ensures ok ==> |keys| <= MAX_SHUFFLE_STATES && total <= MAX_SHUFFLE_EDGES
    ensures !ok ==> TooManySubsets(p)
  {
    hide *;
    edges, s, total, keys, ok := [], s0, total0, keys0, true;
    StartExpanding(s0, keys0, index, total0, NextOf(p), StartKey(p));
    for byte := 0 to 256
      invariant keys0 <= keys && keys[index] == configs
      invariant Expanding(s, keys, index, edges, total, byte, NextOf(p), StartKey(p))
      invariant ok && |keys| <= MAX_SHUFFLE_STATES && total <= MAX_SHUFFLE_EDGES
    {
      ok, s, edges, total, keys := ExpandByte(p, configs, byte, s, edges, total, keys, index);
      if !ok { return; }
    }
  }

  lemma AccOfIs(p: Parts, key: seq<Config>)
    ensures AccOf(p)(key) == AnyFinished(p, key)
  {}

  lemma StartKeySpelled(p: Parts)
    ensures StartKey(p) == ClosureKey(p, [Ready(0)]) && 1 <= MAX_SHUFFLE_STATES && 0 <= MAX_SHUFFLE_EDGES
  {}

  /** The breadth-first subset search. A row's position is its id; its key leaves the table meanwhile. */
  method Explore(p: Parts) returns (ok: bool, states: seq<ByteState>, ghost keys: seq<seq<Config>>)
    requires p.Ok()
    ensures ok ==> Complete(states, keys, NextOf(p), AccOf(p), StartKey(p))
    ensures ok ==> |FlatEdges(states)| <= MAX_SHUFFLE_EDGES && |states| <= MAX_SHUFFLE_STATES
    ensures ok <==> !TooManySubsets(p)
  {
    hide *;
    ghost var next, acc := NextOf(p), AccOf(p);
    var start := EpsilonClosure(p, [Ready(0)]);
    StartKeySpelled(p);
    var s := Search([start], map[start := 0], [0]);
    var total: nat := 0;
    ok, states, keys := true, [], [start];
    StartSearch(start, next, acc);
    while s.queue != []
      invariant ok && Searching(s, keys, states, total, next, acc, start)
      invariant total <= MAX_SHUFFLE_EDGES && |keys| <= MAX_SHUFFLE_STATES
      decreases MAX_SHUFFLE_STATES - |states|
    {
      OpenRow(s, keys, states, total, next, acc, start, []);
      var index := s.queue[0];
      var configs := s.order[index];
      ReachedFieldsOk(p, configs);
      var accepting := AnyFinished(p, configs);
      AccOfIs(p, configs);
      ghost var before := keys;
      var edges;
      ok, edges, s, total, keys := ExpandRow(p, configs, Search(s.order[index := []], s.indexOf, s.queue[1..]),
                                             total, keys, index);
      if !ok { return; }
      CloseRow(s, keys, before, states, edges, accepting, total, next, acc, start);
      s := s.(order := s.order[index := configs]);
      states := states + [ByteState(accepting, edges)];
    }
    SearchDone(s, keys, states, total, next, acc, start);
    CompleteSize(states, keys, next, acc, start);
    SubsetsFit(p, states, keys);
  }

  lemma SubsetsFit(p: Parts, states: seq<ByteState>, keys: seq<seq<Config>>)
    requires Complete(states, keys, NextOf(p), AccOf(p), StartKey(p))
    requires |FlatEdges(states)| <= MAX_SHUFFLE_EDGES && |states| <= MAX_SHUFFLE_STATES
    ensures !TooManySubsets(p)
  {
    hide NextOf, AccOf, StartKey, Oversized, Complete;
    CompleteNotOversized(states, keys, NextOf(p), AccOf(p), StartKey(p), MAX_SHUFFLE_STATES, MAX_SHUFFLE_EDGES);
  }

  function MostStates(fields: seq<RefEngine>): (m: nat)
    ensures forall i :: 0 <= i < |fields| ==> fields[i].StateCount() <= m
    ensures fields == [] ==> m == 0
    ensures fields != [] ==> exists i :: 0 <= i < |fields| && fields[i].StateCount() == m
  {
    if fields == [] then 0
    else
      var k := |fields| - 1;
      var m, n := MostStates(fields[..k]), fields[k].StateCount();
      if n >= m then n else
        assert fields[..k] != [];
        var j :| 0 <= j < |fields[..k]| && fields[..k][j].StateCount() == m;
        assert fields[j].StateCount() == m;
        m
  }

  /** The admission estimate: the largest field times the number of field subsets. */
  function Estimate(p: Parts): nat {
    MostStates(p.fields) * Bits.Pow2(|p.fields|)
  }

  /** Which inputs the builder admits: both estimates under their caps. */
  predicate Admits(p: Parts) {
    && |p.fields| == |p.required| && |p.fields| <= MAX_SHUFFLE_FIELDS
    && Estimate(p) <= MAX_SHUFFLE_STATES && Estimate(p) * 256 <= MAX_SHUFFLE_EDGES
  }

  lemma TableUsable(p: Parts, states: seq<ByteState>, keys: seq<seq<Config>>)
    requires p.Ok() && Complete(states, keys, NextOf(p), AccOf(p), StartKey(p))
    requires |FlatEdges(states)| <= MAX_SHUFFLE_EDGES && |states| <= MAX_SHUFFLE_STATES
    ensures Admissible(states, 0) && StatesLanguage(states, 0) == ShuffleLanguage(p)
  {
    hide KeyAccepts, NextOf, AccOf, StartKey, InShuffle;
    CompleteAccepts(states, keys, NextOf(p), AccOf(p), StartKey(p), []);
    forall w: Word ensures Accepts(states, 0, w) <==> InShuffle(p, w) {
      CompleteAccepts(states, keys, NextOf(p), AccOf(p), StartKey(p), w);
      StartKeyAccepts(p, w);
    }
  }

  /** The live configuration sets and DEAD, times the ways in which bytes move them, exceed the cell cap. */
  ghost predicate TooManyCells(p: Parts) {
    KeyCells.TooManyCells(NextOf(p), AccOf(p), StartKey(p))
  }

  lemma TableCells(p: Parts, states: seq<ByteState>, keys: seq<seq<Config>>)
    requires Complete(states, keys, NextOf(p), AccOf(p), StartKey(p))
    ensures TooManyCells(p) <==> Materialize.Cells(states) > Materialize.MAX_TRANSITION_CELLS
  {
    hide Complete, NextOf, AccOf, StartKey, Materialize.Cells, KeyCells.TooManyCells;
    KeyCells.CellsAreKeyCells(states, keys, NextOf(p), AccOf(p), StartKey(p));
  }

  /** `ShuffleAutomaton::build`. Whatever it returns accepts every selection of distinct fields that
      contains the required ones, in every order, and nothing else. Past admission it fails exactly when the
      reachable configuration sets themselves exceed a cap. */
  method Build(p: Parts) returns (r: Result<seq<ByteState>>)
    requires p.separator.Valid() && forall i :: 0 <= i < |p.fields| ==> p.fields[i].Valid()
    ensures r == Err(Malformed) <==> |p.fields| != |p.required|
    ensures r.Ok? ==> Admits(p) && Admissible(r.value, 0) && StatesLanguage(r.value, 0) == ShuffleLanguage(p)
    ensures r.Ok? <==> Admits(p) && !TooManySubsets(p)
    ensures r.Err? ==> r.error == Malformed || r.error == LimitExceeded
    ensures r.Ok? ==> (TooManyCells(p) <==> Materialize.Cells(r.value) > Materialize.MAX_TRANSITION_CELLS)
  {
    hide RefEngine.Valid, ShuffleLanguage, TooManySubsets, Admissible, StatesLanguage, FlatEdges, Complete, Bits.Pow2,
         NextOf, AccOf, StartKey, RefEngine.StateCount, TooManyCells, Materialize.Cells;
    if |p.fields| != |p.required| { return Err(Malformed); }
    if |p.fields| > MAX_SHUFFLE_FIELDS { return Err(LimitExceeded); }
    var worst := MostStates(p.fields) * Bits.Pow2(|p.fields|);
    if worst > MAX_SHUFFLE_STATES { return Err(LimitExceeded); }
    if worst * 256 > MAX_SHUFFLE_EDGES { return Err(LimitExceeded); }
    var ok, states, keys := Explore(p);
    if !ok { return Err(LimitExceeded); }
    TableUsable(p, states, keys);
    TableCells(p, states, keys);
    r := Ok(states);
  }

  /** `into_engine`: built exactly when the object is admitted and its configuration sets fit the state, edge and cell
      caps. */
  method BuildEngine(p: Parts) returns (r: Result<RefEngine>)
    requires p.separator.Valid() && forall i :: 0 <= i < |p.fields| ==> p.fields[i].Valid()
    ensures r == Err(Malformed) <==> |p.fields| != |p.required|
    ensures r.Ok? ==> r.value.Valid() && r.value.Language() == ShuffleLanguage(p)
    ensures r.Ok? <==> Admits(p) && !TooManySubsets(p) && !TooManyCells(p)
    ensures r.Err? ==> r.error == Malformed || r.error == LimitExceeded
  {
    hide RefEngine.Valid, ShuffleLanguage, Admissible, StatesLanguage, TooManySubsets, TooManyCells, Materialize.Cells;
    var table := Build(p);
    if table.Err? { return Err(table.error); }
    r := Materialize.StatesToEngine(table.value, 0);
  }
}
