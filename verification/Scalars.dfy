/** Which Unicode scalars an engine can consume from a state (automaton/byte_dfa.rs:930-1023): a search over
    the UTF-8 encodings between two bounds, section 3 of RFC 3629. */
module Scalars {
  import opened Outcome
  import opened Languages
  import opened Engine

  // --- UTF-8 --------------------------------------------------------------------------------------------------------

  const MAX_CODE: nat := 0x10FFFF

  type Code = c: nat | c <= MAX_CODE

  predicate IsSurrogate(c: nat) {
    0xD800 <= c <= 0xDFFF
  }

  function Width(c: Code): (n: nat)
    ensures 1 <= n <= 4
  {
    if c <= 0x7F then 1 else if c <= 0x7FF then 2 else if c <= 0xFFFF then 3 else 4
  }

  /** The encoding of a code point; on scalars this is UTF-8. */
  function Utf8(c: Code): (w: Word)
    ensures |w| == Width(c)
  {
    if c <= 0x7F then [c]
    else if c <= 0x7FF then [0xC0 + c / 64, 0x80 + c % 64]
    else if c <= 0xFFFF then [0xE0 + c / 4096, 0x80 + c / 64 % 64, 0x80 + c % 64]
    else [0xF0 + c / 262144, 0x80 + c / 4096 % 64, 0x80 + c / 64 % 64, 0x80 + c % 64]
  }

  predicate IsContinuation(b: Byte) {
    0x80 <= b <= 0xBF
  }

  /** A lead byte and continuation bytes. */
  ghost predicate Shaped(u: Word) {
    forall i :: 1 <= i < |u| ==> IsContinuation(u[i])
  }

  /** The lead byte and the payloads of the continuation bytes as one number. */
  ghost function Number(u: Word): int
    requires u != []
  {
    if |u| == 1 then u[0] else Number(u[..|u| - 1]) * 64 + (u[|u| - 1] as int - 0x80)
  }

  function Offset(width: nat): nat {
    if width == 1 then 0 else if width == 2 then 0xC0 * 64 else if width == 3 then 0xE0 * 4096 else 0xF0 * 262144
  }

  lemma NumberSnoc(u: Word, b: Byte)
    requires u != []
    ensures Number(u + [b]) == Number(u) * 64 + (b as int - 0x80)
  {
    assert (u + [b])[..|u|] == u;
  }

  lemma NumberPair(a: Byte, b: Byte)
    ensures Number([a, b]) == a * 64 + (b as int - 0x80)
  {
    NumberSnoc([a], b);
    assert [a] + [b] == [a, b];
  }

  lemma NumberTriple(a: Byte, b: Byte, c: Byte)
    ensures Number([a, b, c]) == (a * 64 + (b as int - 0x80)) * 64 + (c as int - 0x80)
  {
    NumberPair(a, b);
    NumberSnoc([a, b], c);
    assert [a, b] + [c] == [a, b, c];
  }

  lemma NumberQuad(a: Byte, b: Byte, c: Byte, d: Byte)
    ensures Number([a, b, c, d]) == ((a * 64 + (b as int - 0x80)) * 64 + (c as int - 0x80)) * 64 + (d as int - 0x80)
  {
    NumberTriple(a, b, c);
    NumberSnoc([a, b, c], d);
    assert [a, b, c] + [d] == [a, b, c, d];
  }

  lemma SixBits(c: nat)
    ensures c / 64 == c / 4096 * 64 + c / 64 % 64
    ensures c / 4096 == c / 262144 * 64 + c / 4096 % 64
    ensures c == c / 64 * 64 + c % 64
  {
    Sextet(c);
    Sextet(c / 64);
    Sextet(c / 4096);
    assert c / 64 / 64 == c / 4096;
    assert c / 4096 / 64 == c / 262144;
  }

  lemma Sextet(x: nat)
    ensures x == x / 64 * 64 + x % 64
  {}

  lemma Utf8Number(c: Code)
    ensures Shaped(Utf8(c)) && Number(Utf8(c)) == c + Offset(Width(c))
  {
    hide Number;
    SixBits(c);
    if c > 0xFFFF {
      NumberQuad(0xF0 + c / 262144, 0x80 + c / 4096 % 64, 0x80 + c / 64 % 64, 0x80 + c % 64);
    } else if c > 0x7FF {
      NumberTriple(0xE0 + c / 4096, 0x80 + c / 64 % 64, 0x80 + c % 64);
    } else if c > 0x7F {
      NumberPair(0xC0 + c / 64, 0x80 + c % 64);
    } else {
      NumberOne(c);
    }
  }

  lemma NumberOne(b: Byte)
    ensures Number([b]) == b
  {}

  /** Encodings of one width are told apart by their numbers. */
  lemma {:induction false} NumberInjective(u: Word, v: Word)
    requires |u| == |v| > 0 && Shaped(u) && Shaped(v) && Number(u) == Number(v)
    ensures u == v
  {
    var k := |u| - 1;
    if k > 0 {
      NumberInjective(u[..k], v[..k]);
      assert u == u[..k] + [u[k]] && v == v[..k] + [v[k]];
    }
  }

  // --- the window -----------------------------------------------------------------------------------------------------

  function Low(lower: Word, position: nat, tight: bool): Byte
    requires position < |lower|
  {
    if tight then lower[position] else if position == 0 then lower[0] else 0x80
  }

  function High(upper: Word, position: nat, tight: bool): Byte
    requires position < |upper|
  {
    if tight then upper[position] else if position == 0 then upper[0] else 0xBF
  }

  /** At each byte the lower bound binds only while everything before it equals the bound. */
  ghost predicate AboveLower(u: Word, lower: Word) {
    |u| <= |lower| && forall i :: 0 <= i < |u| ==> Low(lower, i, u[..i] == lower[..i]) <= u[i]
  }

  ghost predicate BelowUpper(u: Word, upper: Word) {
    |u| <= |upper| && forall i :: 0 <= i < |u| ==> u[i] <= High(upper, i, u[..i] == upper[..i])
  }

  lemma LastByte(a: int, x: int, b: int, y: int)
    requires 0 <= x < 64 && 0 <= y < 64
    ensures a * 64 + x <= b * 64 + y <==> a < b || (a == b && x <= y)
  {}

  lemma AboveSnoc(u: Word, lower: Word, k: nat)
    requires |u| == k + 1 && |lower| >= k + 1
    ensures AboveLower(u, lower) <==> AboveLower(u[..k], lower) && Low(lower, k, u[..k] == lower[..k]) <= u[k]
  {
    forall i | 0 <= i < k ensures u[..k][..i] == u[..i] {}
  }

  lemma BelowSnoc(u: Word, upper: Word, k: nat)
    requires |u| == k + 1 && |upper| >= k + 1
    ensures BelowUpper(u, upper) <==> BelowUpper(u[..k], upper) && u[k] <= High(upper, k, u[..k] == upper[..k])
  {
    forall i | 0 <= i < k ensures u[..k][..i] == u[..i] {}
  }

  /** The byte-by-byte lower bound is the numeric one. */
  lemma {:induction false} AboveIsNumeric(u: Word, lower: Word)
    requires |u| == |lower| > 0 && Shaped(u) && Shaped(lower)
    ensures AboveLower(u, lower) <==> Number(lower) <= Number(u)
  {
    hide AboveLower;
    var k := |u| - 1;
    if k == 0 {
      AboveOne(u, lower);
    } else {
      AboveSnoc(u, lower, k);
      AboveIsNumeric(u[..k], lower[..k]);
      AboveTrimmed(u[..k], lower, k);
      if Number(u[..k]) == Number(lower[..k]) { NumberInjective(u[..k], lower[..k]); }
      LastByte(Number(lower[..k]), lower[k] - 0x80, Number(u[..k]), u[k] - 0x80);
    }
  }

  lemma AboveOne(u: Word, lower: Word)
    requires |u| == |lower| == 1
    ensures AboveLower(u, lower) <==> Number(lower) <= Number(u)
  {
    assert u[..0] == lower[..0];
  }

  lemma AboveTrimmed(v: Word, lower: Word, k: nat)
    requires |v| <= k <= |lower|
    ensures AboveLower(v, lower) <==> AboveLower(v, lower[..k])
  {
    forall i | 0 <= i < |v| ensures lower[..k][..i] == lower[..i] {}
  }

  lemma BelowOne(u: Word, upper: Word)
    requires |u| == |upper| == 1
    ensures BelowUpper(u, upper) <==> Number(u) <= Number(upper)
  {
    assert u[..0] == upper[..0];
  }

  lemma BelowTrimmed(v: Word, upper: Word, k: nat)
    requires |v| <= k <= |upper|
    ensures BelowUpper(v, upper) <==> BelowUpper(v, upper[..k])
  {
    forall i | 0 <= i < |v| ensures upper[..k][..i] == upper[..i] {}
  }

  lemma {:induction false} BelowIsNumeric(u: Word, upper: Word)
    requires |u| == |upper| > 0 && Shaped(u) && Shaped(upper)
    ensures BelowUpper(u, upper) <==> Number(u) <= Number(upper)
  {
    hide BelowUpper;
    var k := |u| - 1;
    if k == 0 {
      BelowOne(u, upper);
    } else {
      BelowSnoc(u, upper, k);
      BelowIsNumeric(u[..k], upper[..k]);
      BelowTrimmed(u[..k], upper, k);
      if Number(u[..k]) == Number(upper[..k]) { NumberInjective(u[..k], upper[..k]); }
      LastByte(Number(u[..k]), u[k] - 0x80, Number(upper[..k]), upper[k] - 0x80);
    }
  }

  ghost predicate Window(u: Word, lower: Word, upper: Word) {
    AboveLower(u, lower) && BelowUpper(u, upper)
  }

  /** Inside the window every byte after the first is a continuation byte. */
  lemma WindowShaped(u: Word, lower: Word, upper: Word)
    requires Window(u, lower, upper) && Shaped(lower) && Shaped(upper)
    ensures Shaped(u)
  {
    forall i | 1 <= i < |u| ensures IsContinuation(u[i]) {
      assert Low(lower, i, u[..i] == lower[..i]) <= u[i] <= High(upper, i, u[..i] == upper[..i]);
    }
  }

  /** The full-length words of the window are exactly the encodings of the interval. */
  lemma WindowIsInterval(start: Code, end: Code, u: Word)
    requires start <= end && Width(start) == Width(end)
    ensures |u| == Width(start) && Window(u, Utf8(start), Utf8(end)) <==>
            exists c: Code :: start <= c <= end && u == Utf8(c)
  {
    hide Utf8, Number, AboveLower, BelowUpper, Shaped;
    Utf8Number(start);
    Utf8Number(end);
    if |u| == Width(start) && Window(u, Utf8(start), Utf8(end)) {
      WindowShaped(u, Utf8(start), Utf8(end));
      AboveIsNumeric(u, Utf8(start));
      BelowIsNumeric(u, Utf8(end));
      var c: Code := Number(u) - Offset(Width(start));
      Utf8Number(c);
      NumberInjective(u, Utf8(c));
    }
    if c: Code :| start <= c <= end && u == Utf8(c) {
      Utf8Number(c);
      AboveIsNumeric(u, Utf8(start));
      BelowIsNumeric(u, Utf8(end));
    }
  }

  // --- the frontier -----------------------------------------------------------------------------------------------------

  /** A live state, and whether the bytes read so far equal the bounds. */
  type Entry = (nat, bool, bool)

  ghost function EntryOf(e: RefEngine, s: nat, u: Word, lower: Word, upper: Word): Entry
    requires |u| <= |lower| && |u| <= |upper|
  {
    (e.table.Walk(s, u), u == lower[..|u|], u == upper[..|u|])
  }

  function Successor(e: RefEngine, x: Entry, byte: Byte, lower: Word, upper: Word, position: nat): Entry
    requires position < |lower| && position < |upper|
  {
    (e.table.Next(x.0, byte), x.1 && byte == lower[position], x.2 && byte == upper[position])
  }

  ghost predicate ReadBy(e: RefEngine, s: nat, lower: Word, upper: Word, position: nat, x: Entry, u: Word)
    requires position <= |lower| && position <= |upper|
  {
    |u| == position && Window(u, lower, upper) && x == EntryOf(e, s, u, lower, upper) && x.0 != DEAD
  }

  ghost predicate Read(e: RefEngine, s: nat, lower: Word, upper: Word, position: nat, x: Entry)
    requires position <= |lower| && position <= |upper|
  {
    exists u :: ReadBy(e, s, lower, upper, position, x, u)
  }

  /** The frontier holds exactly the live outcomes of the window's words of the current length. */
  ghost predicate IsFrontier(e: RefEngine, s: nat, lower: Word, upper: Word, position: nat, frontier: seq<Entry>)
    requires position <= |lower| && position <= |upper|
  {
    forall x: Entry :: x in frontier <==> Read(e, s, lower, upper, position, x)
  }

  predicate Admits(lower: Word, upper: Word, position: nat, x: Entry, byte: Byte)
    requires position < |lower| && position < |upper|
  {
    Low(lower, position, x.1) <= byte <= High(upper, position, x.2)
  }

  ghost predicate StepsTo(e: RefEngine, lower: Word, upper: Word, position: nat, x: Entry, byte: Byte, y: Entry)
    requires position < |lower| && position < |upper|
  {
    Admits(lower, upper, position, x, byte) && y == Successor(e, x, byte, lower, upper, position) && y.0 != DEAD
  }

  /** The live successors of one entry over the bytes below `upTo`. */
  ghost predicate FromEntry(e: RefEngine, lower: Word, upper: Word, position: nat, x: Entry, upTo: int, y: Entry)
    requires position < |lower| && position < |upper|
  {
    exists byte: Byte :: byte < upTo && StepsTo(e, lower, upper, position, x, byte, y)
  }

  ghost predicate FromFrontier(e: RefEngine, lower: Word, upper: Word, position: nat, frontier: seq<Entry>, y: Entry)
    requires position < |lower| && position < |upper|
  {
    exists x :: x in frontier && FromEntry(e, lower, upper, position, x, 256, y)
  }

  lemma ExtendEntry(e: RefEngine, s: nat, u: Word, byte: Byte, lower: Word, upper: Word)
    requires |u| < |lower| && |u| < |upper|
    ensures EntryOf(e, s, u + [byte], lower, upper) ==
            Successor(e, EntryOf(e, s, u, lower, upper), byte, lower, upper, |u|)
  {
    e.table.WalkAppend(s, u, [byte]);
    assert e.table.Walk(e.table.Walk(s, u), [byte]) == e.table.Next(e.table.Walk(s, u), byte);
    hide Table.Walk, Table.Next;
    PrefixGrows(u, byte, lower);
    PrefixGrows(u, byte, upper);
  }

  lemma PrefixGrows(u: Word, byte: Byte, bound: Word)
    requires |u| < |bound|
    ensures u + [byte] == bound[..|u| + 1] <==> u == bound[..|u|] && byte == bound[|u|]
  {
    var k := |u|;
    assert bound[..k + 1] == bound[..k] + [bound[k]];
    assert (u + [byte])[..k] == u && (u + [byte])[k] == byte;
    if u + [byte] == bound[..k + 1] { assert bound[..k + 1][..k] == bound[..k]; }
  }

  lemma ExtendWindow(u: Word, byte: Byte, lower: Word, upper: Word)
    requires |u| < |lower| && |u| < |upper|
    ensures Window(u + [byte], lower, upper) <==>
              Window(u, lower, upper) && Low(lower, |u|, u == lower[..|u|]) <= byte <= High(upper, |u|, u == upper[..|u|])
  {
    assert (u + [byte])[..|u|] == u;
    AboveSnoc(u + [byte], lower, |u|);
    BelowSnoc(u + [byte], upper, |u|);
  }

  lemma WalkStaysDead(e: RefEngine, s: nat, byte: Byte)
    requires e.Valid()
    ensures s == DEAD ==> e.table.Next(s, byte) == DEAD
  {
    if s == DEAD {
      e.table.DeadIsSink([byte]);
      assert e.table.Walk(s, [byte]) == e.table.Walk(e.table.Next(s, byte), []);
    }
  }

  /** One more byte takes the frontier to the next frontier. */
  lemma Advance(e: RefEngine, s: nat, lower: Word, upper: Word, position: nat, frontier: seq<Entry>, y: Entry)
    requires e.Valid() && position < |lower| && position < |upper| && IsFrontier(e, s, lower, upper, position, frontier)
    ensures FromFrontier(e, lower, upper, position, frontier, y) <==> Read(e, s, lower, upper, position + 1, y)
  {
    hide RefEngine.Valid, Window, Low, High, EntryOf, Successor;
    if FromFrontier(e, lower, upper, position, frontier, y) {
      var x :| x in frontier && FromEntry(e, lower, upper, position, x, 256, y);
      var byte: Byte :| StepsTo(e, lower, upper, position, x, byte, y);
      assert Read(e, s, lower, upper, position, x);
      var u :| ReadBy(e, s, lower, upper, position, x, u);
      EntryFlags(e, s, u, lower, upper);
      ExtendEntry(e, s, u, byte, lower, upper);
      ExtendWindow(u, byte, lower, upper);
      assert ReadBy(e, s, lower, upper, position + 1, y, u + [byte]);
    }
    if Read(e, s, lower, upper, position + 1, y) {
      var v :| ReadBy(e, s, lower, upper, position + 1, y, v);
      var u, byte := v[..position], v[position];
      assert v == u + [byte];
      ExtendEntry(e, s, u, byte, lower, upper);
      ExtendWindow(u, byte, lower, upper);
      var x := EntryOf(e, s, u, lower, upper);
      EntryFlags(e, s, u, lower, upper);
      SuccessorState(e, x, byte, lower, upper, position);
      WalkStaysDead(e, x.0, byte);
      assert ReadBy(e, s, lower, upper, position, x, u);
      assert Read(e, s, lower, upper, position, x);
      assert StepsTo(e, lower, upper, position, x, byte, y);
      assert FromEntry(e, lower, upper, position, x, 256, y);
    }
  }

  lemma EntryFlags(e: RefEngine, s: nat, u: Word, lower: Word, upper: Word)
    requires |u| <= |lower| && |u| <= |upper|
    ensures EntryOf(e, s, u, lower, upper).1 == (u == lower[..|u|])
    ensures EntryOf(e, s, u, lower, upper).2 == (u == upper[..|u|])
  {}

  lemma SuccessorState(e: RefEngine, x: Entry, byte: Byte, lower: Word, upper: Word, position: nat)
    requires position < |lower| && position < |upper|
    ensures Successor(e, x, byte, lower, upper, position).0 == e.table.Next(x.0, byte)
  {}

  /** One row of the frontier: the live successors of an entry, each listed once. */
  method ExpandEntry(e: RefEngine, lower: Word, upper: Word, position: nat, x: Entry, next0: seq<Entry>)
    returns (next: seq<Entry>)
    requires e.Valid() && position < |lower| && position < |upper|
    ensures forall y :: y in next <==> y in next0 || FromEntry(e, lower, upper, position, x, 256, y)
  {
    hide RefEngine.Valid, Low, High, Table.Next;
    next := next0;
    var lo: int := Low(lower, position, x.1);
    var hi: int := High(upper, position, x.2);
    var stop := if lo <= hi then hi + 1 else lo;
    for byte: int := lo to stop
      invariant forall y :: y in next <==> y in next0 || FromEntry(e, lower, upper, position, x, byte, y)
    {
      ghost var before := next;
      var target := e.table.Next(x.0, byte);
      var candidate := (target, x.1 && byte == lower[position], x.2 && byte == upper[position]);
      StepRange(e, x.0, byte);
      if !e.IsDead(target) && candidate !in next { next := next + [candidate]; }
      forall y ensures y in next <==> y in next0 || FromEntry(e, lower, upper, position, x, byte + 1, y) {
        NextByte(e, lower, upper, position, x, byte, y);
      }
    }
    forall y ensures FromEntry(e, lower, upper, position, x, stop, y) <==> FromEntry(e, lower, upper, position, x, 256, y) {
      PastWindow(e, lower, upper, position, x, stop, y);
    }
  }

  lemma StepRange(e: RefEngine, s: nat, byte: Byte)
    requires e.Valid()
    ensures e.IsDead(e.table.Next(s, byte)) <==> e.table.Next(s, byte) == DEAD
  {
    e.table.NextInRange(s, byte);
  }

  lemma NextByte(e: RefEngine, lower: Word, upper: Word, position: nat, x: Entry, byte: Byte, y: Entry)
    requires position < |lower| && position < |upper|
    ensures FromEntry(e, lower, upper, position, x, byte + 1, y) <==>
              FromEntry(e, lower, upper, position, x, byte, y) || StepsTo(e, lower, upper, position, x, byte, y)
  {
    hide StepsTo;
  }

  lemma PastWindow(e: RefEngine, lower: Word, upper: Word, position: nat, x: Entry, stop: int, y: Entry)
    requires position < |lower| && position < |upper| && stop <= 256
    requires stop == Low(lower, position, x.1) || High(upper, position, x.2) < stop
    requires stop == Low(lower, position, x.1) ==> High(upper, position, x.2) < stop
    ensures FromEntry(e, lower, upper, position, x, stop, y) <==> FromEntry(e, lower, upper, position, x, 256, y)
  {
    hide Low, High, Successor;
    if byte: Byte :| byte < 256 && StepsTo(e, lower, upper, position, x, byte, y) { assert byte < stop; }
    if byte: Byte :| byte < stop && StepsTo(e, lower, upper, position, x, byte, y) { assert byte < 256; }
  }

  method ExpandFrontier(e: RefEngine, lower: Word, upper: Word, position: nat, frontier: seq<Entry>)
    returns (next: seq<Entry>)
    requires e.Valid() && position < |lower| && position < |upper|
    ensures forall y :: y in next <==> FromFrontier(e, lower, upper, position, frontier, y)
  {
    hide RefEngine.Valid, FromEntry;
    next := [];
    for i := 0 to |frontier|
      invariant forall y :: y in next <==> FromFrontier(e, lower, upper, position, frontier[..i], y)
    {
      assert frontier[..i + 1] == frontier[..i] + [frontier[i]];
      next := ExpandEntry(e, lower, upper, position, frontier[i], next);
    }
    assert frontier[..|frontier|] == frontier;
  }

  // --- intervals -------------------------------------------------------------------------------------------------------

  /** `consume_token` accepts these bytes. */
  ghost predicate Consumable(e: RefEngine, s: nat, bytes: Word) {
    e.Consumed(s, bytes).Some?
  }

  ghost predicate ConsumesWithin(e: RefEngine, s: nat, start: nat, end: nat, c: Code) {
    start <= c <= end && Consumable(e, s, Utf8(c))
  }

  ghost predicate SomeWithin(e: RefEngine, s: nat, start: nat, end: nat) {
    exists c: Code :: ConsumesWithin(e, s, start, end, c)
  }

  lemma DeadConsumesNothing(e: RefEngine, s: nat, u: Word)
    requires e.Valid() && e.IsDead(s) && u != []
    ensures !Consumable(e, s, u)
  {
    e.table.DeadIsSink(u);
    e.table.DeadIsSink(u[1..]);
  }

  /** The frontier at full length is inhabited exactly when a code point of the interval is consumable. */
  lemma FrontierDecides(e: RefEngine, s: nat, start: Code, end: Code, frontier: seq<Entry>)
    requires start <= end && Width(start) == Width(end)
    requires IsFrontier(e, s, Utf8(start), Utf8(end), Width(start), frontier)
    ensures frontier != [] <==> SomeWithin(e, s, start, end)
  {
    hide Utf8, Window;
    var lower, upper, width := Utf8(start), Utf8(end), Width(start);
    if frontier != [] {
      assert frontier[0] in frontier;
      var u :| ReadBy(e, s, lower, upper, width, frontier[0], u);
      WindowIsInterval(start, end, u);
      var c: Code :| start <= c <= end && u == Utf8(c);
      assert ConsumesWithin(e, s, start, end, c);
    }
    if c: Code :| ConsumesWithin(e, s, start, end, c) {
      var u := Utf8(c);
      WindowIsInterval(start, end, u);
      assert ReadBy(e, s, lower, upper, width, EntryOf(e, s, u, lower, upper), u);
      assert Read(e, s, lower, upper, width, EntryOf(e, s, u, lower, upper));
    }
  }

  lemma DeadAfter(e: RefEngine, s: nat, u: Word, v: Word)
    requires e.Valid() && e.table.Walk(s, u) == DEAD
    ensures e.table.Walk(s, u + v) == DEAD
  {
    e.table.WalkAppend(s, u, v);
    e.table.DeadIsSink(v);
  }

  /** An empty frontier stays empty. */
  lemma {:induction false} EmptyFrontier(e: RefEngine, s: nat, lower: Word, upper: Word, position: nat, u: Word)
    requires e.Valid() && 0 < position <= |lower| && |upper| == |lower| && IsFrontier(e, s, lower, upper, position, [])
    requires |u| == |lower| && Window(u, lower, upper)
    ensures e.table.Walk(s, u) == DEAD
  {
    hide Window, RefEngine.Valid, Table.Walk;
    var v := u[..position];
    PrefixWindow(u, lower, upper, position);
    var x := EntryOf(e, s, v, lower, upper);
    assert !Read(e, s, lower, upper, position, x) && !ReadBy(e, s, lower, upper, position, x, v);
    assert u == v + u[position..];
    DeadAfter(e, s, v, u[position..]);
  }

  lemma PrefixWindow(u: Word, lower: Word, upper: Word, k: nat)
    requires k <= |u| == |lower| == |upper| && Window(u, lower, upper)
    ensures Window(u[..k], lower, upper)
  {
    forall i | 0 <= i < k ensures u[..k][..i] == u[..i] {}
  }

  /** `encoded`: surrogates have no encoding. */
  function Encoded(value: nat): Option<Word> {
    if value > MAX_CODE || IsSurrogate(value) then None else Some(Utf8(value))
  }

  lemma NoneWithin(e: RefEngine, s: nat, start: Code, end: Code, position: nat)
    requires e.Valid() && start <= end && Width(start) == Width(end) && 0 < position <= Width(start)
    requires IsFrontier(e, s, Utf8(start), Utf8(end), position, [])
    ensures !SomeWithin(e, s, start, end)
  {
    hide Utf8, Window;
    if c: Code :| ConsumesWithin(e, s, start, end, c) {
      WindowIsInterval(start, end, Utf8(c));
      EmptyFrontier(e, s, Utf8(start), Utf8(end), position, Utf8(c));
    }
  }

  lemma DeadWithin(e: RefEngine, s: nat, start: nat, end: nat)
    requires e.Valid() && (start > end || e.IsDead(s))
    ensures !SomeWithin(e, s, start, end)
  {
    hide RefEngine.Valid, RefEngine.IsDead, Utf8, Consumable;
    forall c: Code ensures !ConsumesWithin(e, s, start, end, c) {
      if e.IsDead(s) { DeadConsumesNothing(e, s, Utf8(c)); }
    }
  }

  lemma FirstFrontier(e: RefEngine, s: nat, lower: Word, upper: Word)
    requires !e.IsDead(s)
    ensures IsFrontier(e, s, lower, upper, 0, [(s, true, true)])
  {
    forall x: Entry ensures x in [(s, true, true)] <==> Read(e, s, lower, upper, 0, x) {
      assert ReadBy(e, s, lower, upper, 0, x, []) <==> x == (s, true, true);
      if Read(e, s, lower, upper, 0, x) {
        var u :| ReadBy(e, s, lower, upper, 0, x, u);
        assert u == [];
      }
    }
  }

  lemma NextFrontier(e: RefEngine, s: nat, lower: Word, upper: Word, position: nat, frontier: seq<Entry>, next: seq<Entry>)
    requires e.Valid() && position < |lower| && position < |upper| && IsFrontier(e, s, lower, upper, position, frontier)
    requires forall y :: y in next <==> FromFrontier(e, lower, upper, position, frontier, y)
    ensures IsFrontier(e, s, lower, upper, position + 1, next)
  {
    hide RefEngine.Valid, FromFrontier, Read;
    forall y: Entry ensures y in next <==> Read(e, s, lower, upper, position + 1, y) {
      Advance(e, s, lower, upper, position, frontier, y);
    }
  }

  /** `can_consume_scalar_interval`. The search answers for every code point of the interval, so for scalars
      when the interval holds no surrogate; it gives up on bounds that are surrogates or differ in width. */
  method CanConsumeScalarInterval(e: RefEngine, s: nat, start: nat, end: nat) returns (r: Option<bool>)
    requires e.Valid()
    ensures start > end || end > MAX_CODE || e.IsDead(s) ==> r == Some(false)
    ensures start <= end <= MAX_CODE && !e.IsDead(s) ==>
              (r.None? <==> IsSurrogate(start) || IsSurrogate(end) || Width(start) != Width(end))
    ensures start <= end <= MAX_CODE && r.Some? ==> (r.value <==> SomeWithin(e, s, start, end))
  {
    hide RefEngine.Valid, Utf8, IsFrontier, SomeWithin;
    if start > end || end > MAX_CODE || e.IsDead(s) {
      if start > end || e.IsDead(s) { DeadWithin(e, s, start, end); }
      return Some(false);
    }
    var lower := Encoded(start);
    if lower.None? { return None; }
    var upper := Encoded(end);
    if upper.None? { return None; }
    var width := |lower.value|;
    if width != |upper.value| { return None; }
    var frontier := [(s, true, true)];
    FirstFrontier(e, s, lower.value, upper.value);
    for position := 0 to width
      invariant IsFrontier(e, s, lower.value, upper.value, position, frontier) && frontier != []
    {
      var next := ExpandFrontier(e, lower.value, upper.value, position, frontier);
      NextFrontier(e, s, lower.value, upper.value, position, frontier, next);
      if next == [] {
        NoneWithin(e, s, start, end, position + 1);
        return Some(false);
      }
      frontier := next;
    }
    FrontierDecides(e, s, start, end, frontier);
    r := Some(true);
  }

  /** `can_consume_supplementary_range`: beyond the surrogates the search answers for every bound. */
  method CanConsumeSupplementaryRange(e: RefEngine, s: nat, start: nat, end: nat) returns (r: Option<bool>)
    requires e.Valid()
    ensures r.Some?
    ensures r.value <==> 0x10000 <= start && end <= MAX_CODE && SomeWithin(e, s, start, end)
  {
    hide RefEngine.Valid, SomeWithin, Utf8;
    if start < 0x10000 || end > MAX_CODE { return Some(false); }
    r := CanConsumeScalarInterval(e, s, start, end);
    if e.IsDead(s) || start > end { DeadWithin(e, s, start, end); }
  }

  const INTERVALS: seq<(nat, nat)> :=
    [(0, 0x7F), (0x80, 0x7FF), (0x800, 0xD7FF), (0xE000, 0xFFFF), (0x10000, 0x10FFFF)]

  ghost predicate ConsumesScalar(e: RefEngine, s: nat, c: Code) {
    !IsSurrogate(c) && Consumable(e, s, Utf8(c))
  }

  /** The five intervals are the scalars. */
  lemma IntervalsAreScalars(e: RefEngine, s: nat, c: Code)
    ensures ConsumesScalar(e, s, c) <==>
              exists i :: 0 <= i < 5 && ConsumesWithin(e, s, INTERVALS[i].0, INTERVALS[i].1, c)
  {
    hide Utf8, Consumable;
    if ConsumesScalar(e, s, c) {
      var i := if c <= 0x7F then 0 else if c <= 0x7FF then 1 else if c <= 0xD7FF then 2 else if c <= 0xFFFF then 3 else 4;
      assert ConsumesWithin(e, s, INTERVALS[i].0, INTERVALS[i].1, c);
    }
  }

  lemma IntervalOk(i: nat)
    requires i < 5
    ensures |INTERVALS| == 5 && INTERVALS[i].0 <= INTERVALS[i].1 <= MAX_CODE
    ensures !IsSurrogate(INTERVALS[i].0) && !IsSurrogate(INTERVALS[i].1)
    ensures Width(INTERVALS[i].0) == Width(INTERVALS[i].1)
  {}

  /** `can_consume_any_scalar`: never unknown, and true exactly when some Unicode scalar's encoding can be
      consumed. */
  method CanConsumeAnyScalar(e: RefEngine, s: nat) returns (r: Option<bool>)
    requires e.Valid()
    ensures r.Some? && (r.value <==> exists c: Code :: ConsumesScalar(e, s, c))
  {
    hide RefEngine.Valid, Utf8, Consumable, ConsumesWithin, ConsumesScalar, RefEngine.IsDead, INTERVALS, MAX_CODE, IsSurrogate, Width;
    IntervalOk(0);
    var unknown := false;
    for i := 0 to |INTERVALS|
      invariant !unknown
      invariant forall j :: 0 <= j < i ==> !SomeWithin(e, s, INTERVALS[j].0, INTERVALS[j].1)
    {
      IntervalOk(i);
      var found := CanConsumeScalarInterval(e, s, INTERVALS[i].0, INTERVALS[i].1);
      if found == Some(true) {
        ghost var c: Code :| ConsumesWithin(e, s, INTERVALS[i].0, INTERVALS[i].1, c);
        IntervalsAreScalars(e, s, c);
        return Some(true);
      }
      if found.None? { unknown := true; }
    }
    forall c: Code ensures !ConsumesScalar(e, s, c) { IntervalsAreScalars(e, s, c); }
    r := if unknown then None else Some(false);
  }
}
