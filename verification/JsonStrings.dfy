/** The automaton of a set of JSON strings in every spelling (automaton/graph.rs:131-138, 222-398). */
module JsonStrings {
  import opened Outcome
  import opened Languages
  import opened Graph
  import opened JsonText
  import opened PathGraph
  import Finite
  import Scalars
  import Trie

  // --- all spellings of one character ---------------------------------------------------------------------------------

  function Nibble(unit: nat, j: nat): (n: nat)
    requires unit <= 0xFFFF && j < 4
    ensures n < 16
  {
    if j == 0 then unit / 16 / 16 / 16
    else if j == 1 then unit / 16 / 16 % 16
    else if j == 2 then unit / 16 % 16
    else unit % 16
  }

  /** A hexadecimal digit as `{:04x}` writes it. */
  function HexDigit(n: nat): Byte
    requires n < 16
  {
    if n < 10 then 48 + n else 87 + n
  }

  function Upper(b: Byte): Byte {
    if 97 <= b <= 122 then b - 32 else b
  }

  /** `\u` and the first `j` digits, each in either case. */
  ghost predicate PartEscape(w: Word, unit: nat, j: nat)
    requires unit <= 0xFFFF && j <= 4
  {
    && |w| == 2 + j && w[0] == BACKSLASH && w[1] == LETTER_U
    && forall i :: 0 <= i < j ==> HexValue(w[2 + i]) == Some(Nibble(unit, i))
  }

  lemma HexCases(b: Byte, n: nat)
    requires n < 16
    ensures HexValue(b) == Some(n) <==> b == HexDigit(n) || b == Upper(HexDigit(n))
    ensures !(97 <= HexDigit(n) <= 122) ==> HexDigit(n) == Upper(HexDigit(n))
  {}

  ghost predicate AreParts(paths: seq<Word>, unit: nat, j: nat)
    requires unit <= 0xFFFF && j <= 4
  {
    forall w: Word :: w in paths <==> PartEscape(w, unit, j)
  }

  function PushAll(paths: seq<Word>, b: Byte): (r: seq<Word>) {
    seq(|paths|, i requires 0 <= i < |paths| => paths[i] + [b])
  }

  lemma PushedMembers(paths: seq<Word>, b: Byte, w: Word)
    ensures w in PushAll(paths, b) <==> w != [] && w[|w| - 1] == b && w[..|w| - 1] in paths
  {
    if w in PushAll(paths, b) {
      var i :| 0 <= i < |paths| && PushAll(paths, b)[i] == w;
      assert w[..|w| - 1] == paths[i];
    }
    if w != [] && w[|w| - 1] == b && w[..|w| - 1] in paths {
      var i :| 0 <= i < |paths| && paths[i] == w[..|w| - 1];
      assert PushAll(paths, b)[i] == w;
    }
  }

  lemma PartSnoc(w: Word, unit: nat, j: nat)
    requires unit <= 0xFFFF && j < 4
    ensures PartEscape(w, unit, j + 1) <==>
              w != [] && PartEscape(w[..|w| - 1], unit, j) && HexValue(w[|w| - 1]) == Some(Nibble(unit, j))
  {
    hide HexValue, Nibble;
  }

  lemma MoreParts(paths: seq<Word>, paths': seq<Word>, unit: nat, j: nat)
    requires unit <= 0xFFFF && j < 4 && AreParts(paths, unit, j)
    requires forall w: Word :: w in paths' <==>
               w in PushAll(paths, HexDigit(Nibble(unit, j))) || w in PushAll(paths, Upper(HexDigit(Nibble(unit, j))))
    ensures AreParts(paths', unit, j + 1)
  {
    hide HexValue, Nibble, HexDigit, Upper, PartEscape, PushAll;
    var n := Nibble(unit, j);
    forall w: Word ensures w in paths' <==> PartEscape(w, unit, j + 1) {
      PushedMembers(paths, HexDigit(n), w);
      PushedMembers(paths, Upper(HexDigit(n)), w);
      PartSnoc(w, unit, j);
      if w != [] { HexCases(w[|w| - 1], n); }
    }
  }

  /** Doubling the alternatives: the lower-case letter in place, the upper-case one appended. */
  method BothCases(paths0: seq<Word>, byte: Byte) returns (paths: seq<Word>)
    ensures paths == PushAll(paths0, byte) + PushAll(paths0, Upper(byte))
  {
    paths := paths0;
    var existing := |paths0|;
    for index := 0 to existing
      invariant |paths| == existing + index
      invariant forall i :: 0 <= i < index ==> paths[i] == paths0[i] + [byte]
      invariant forall i :: index <= i < existing ==> paths[i] == paths0[i]
      invariant forall i :: 0 <= i < index ==> paths[existing + i] == paths0[i] + [Upper(byte)]
    {
      paths := paths + [paths[index] + [Upper(byte)]];
      paths := paths[index := paths[index] + [byte]];
    }
  }

  lemma EscapeIsFull(w: Word, unit: nat)
    requires unit <= 0xFFFF
    ensures IsEscape(w, unit) <==> PartEscape(w, unit, 4)
  {
    NibblesBack(unit);
    if PartEscape(w, unit, 4) {
      assert w[2..][0] == w[2] && w[2..][1] == w[2 + 1] && w[2..][2] == w[2 + 2] && w[2..][3] == w[2 + 3];
    }
    if IsEscape(w, unit) {
      assert w[2..][0] == w[2] && w[2..][1] == w[3] && w[2..][2] == w[4] && w[2..][3] == w[5];
      NibblesForth(HexValue(w[2]).value, HexValue(w[3]).value, HexValue(w[4]).value, HexValue(w[5]).value);
    }
  }

  lemma NibblesBack(unit: nat)
    requires unit <= 0xFFFF
    ensures Nibble(unit, 0) * 4096 + Nibble(unit, 1) * 256 + Nibble(unit, 2) * 16 + Nibble(unit, 3) == unit
  {
    var x := unit / 16;
    var y := x / 16;
    assert unit == x * 16 + unit % 16 && x == y * 16 + x % 16 && y == y / 16 * 16 + y % 16;
  }

  lemma SplitSixteen(x: nat, t: nat)
    requires t < 16
    ensures (x * 16 + t) / 16 == x && (x * 16 + t) % 16 == t
  {}

  lemma NibblesForth(a: nat, b: nat, c: nat, d: nat)
    requires a < 16 && b < 16 && c < 16 && d < 16
    ensures var u := a * 4096 + b * 256 + c * 16 + d;
            u <= 0xFFFF && Nibble(u, 0) == a && Nibble(u, 1) == b && Nibble(u, 2) == c && Nibble(u, 3) == d
  {
    SplitSixteen((a * 16 + b) * 16 + c, d);
    SplitSixteen(a * 16 + b, c);
    SplitSixteen(a, b);
  }

  /** `unicode_escape_paths`: every way of writing `\uXXXX` for a code unit. */
  method UnicodeEscapePaths(unit: nat) returns (paths: seq<Word>)
    requires unit <= 0xFFFF
    ensures forall w: Word :: w in paths <==> IsEscape(w, unit)
  {
    hide PartEscape, Nibble, HexDigit, Upper, IsEscape, PushAll;
    paths := [[BACKSLASH, LETTER_U]];
    FirstPart(unit);
    for j := 0 to 4
      invariant AreParts(paths, unit, j)
    {
      var byte := HexDigit(Nibble(unit, j));
      ghost var before := paths;
      if 97 <= byte <= 122 {
        paths := BothCases(paths, byte);
      } else {
        HexCases(byte, Nibble(unit, j));
        paths := PushAll(paths, byte);
      }
      MoreParts(before, paths, unit, j);
    }
    forall w: Word ensures PartEscape(w, unit, 4) <==> IsEscape(w, unit) { EscapeIsFull(w, unit); }
  }

  lemma FirstPart(unit: nat)
    requires unit <= 0xFFFF
    ensures AreParts([[BACKSLASH, LETTER_U]], unit, 0)
  {
    var first: Word := [BACKSLASH, LETTER_U];
    forall w: Word ensures w in [first] <==> PartEscape(w, unit, 0) {
      if PartEscape(w, unit, 0) { assert w == first; }
    }
  }

  // --- which paths the table may hold --------------------------------------------------------------------------------

  type Nodes = seq<Trie.Node<Scalar>>

  ghost predicate EdgeSpelling(edges: seq<(Scalar, nat)>, p: Path, c: Scalar, t: nat) {
    (c, t) in edges && p.target == t + 1 && IsSpelling(c, p.bytes)
  }

  ghost predicate EdgePath(edges: seq<(Scalar, nat)>, p: Path) {
    exists c: Scalar, t: nat :: EdgeSpelling(edges, p, c, t)
  }

  /** The paths from the state of node `i`: the closing quote, and the spellings of its edges. */
  ghost predicate NodePath(nodes: Nodes, i: nat, p: Path) {
    && i < |nodes| && p.source == i + 1
    && ((nodes[i].accepting && p.bytes == [QUOTE] && p.target == |nodes| + 1) || EdgePath(nodes[i].edges, p))
  }

  /** The opening quote, or a path from a node. Node `i` has state `i` + 1. */
  ghost predicate Allowed(nodes: Nodes, p: Path) {
    p == Path(0, [QUOTE], 1) || (p.source > 0 && NodePath(nodes, p.source - 1, p))
  }

  ghost predicate AllAllowed(nodes: Nodes, paths: set<Path>) {
    forall p :: p in paths ==> Allowed(nodes, p)
  }

  ghost predicate NodesOk(nodes: Nodes) {
    |nodes| > 0 && forall i :: 0 <= i < |nodes| ==> EdgesOk(nodes[i].edges, |nodes|)
  }

  ghost predicate EdgesOk(edges: seq<(Scalar, nat)>, n: nat) {
    && (forall k :: 0 <= k < |edges| ==> edges[k].1 < n)
    && forall j, k :: 0 <= j < k < |edges| ==> edges[j].0 != edges[k].0
  }

  lemma AllowedInRange(nodes: Nodes, p: Path)
    requires NodesOk(nodes) && Allowed(nodes, p)
    ensures p.source < |nodes| + 2 && p.target < |nodes| + 2 && p.bytes != []
  {
    hide IsSpelling;
    if p.source > 0 && EdgePath(nodes[p.source - 1].edges, p) {
      var edges := nodes[p.source - 1].edges;
      var c: Scalar, t: nat :| EdgeSpelling(edges, p, c, t);
      SpellingsNotQuote(c, p.bytes);
      assert EdgesOk(edges, |nodes|);
      var k :| 0 <= k < |edges| && edges[k] == (c, t);
    }
  }

  lemma SameEdge(edges: seq<(Scalar, nat)>, n: nat, c: Scalar, t: nat, u: nat)
    requires EdgesOk(edges, n) && (c, t) in edges && (c, u) in edges
    ensures t == u
  {
    var j :| 0 <= j < |edges| && edges[j] == (c, t);
    var k :| 0 <= k < |edges| && edges[k] == (c, u);
    assert j == k;
  }

  /** The spellings and the closing quote form a prefix code at every node. */
  lemma AllowedApart(nodes: Nodes, p: Path, q: Path)
    requires NodesOk(nodes) && Allowed(nodes, p) && Allowed(nodes, q) && p.source == q.source && p.bytes <= q.bytes
    ensures p == q
  {
    hide IsSpelling;
    if p.source > 0 {
      var i := p.source - 1;
      var edges := nodes[i].edges;
      if EdgePath(edges, p) {
        var c: Scalar, t: nat :| EdgeSpelling(edges, p, c, t);
        SpellingsNotQuote(c, p.bytes);
        assert q.bytes[0] == p.bytes[0];
        var d: Scalar, u: nat :| EdgeSpelling(edges, q, d, u);
        SpellingsPrefixFree(c, p.bytes, d, q.bytes);
        assert EdgesOk(edges, |nodes|);
        SameEdge(edges, |nodes|, c, t, u);
      } else {
        if EdgePath(edges, q) {
          var d: Scalar, u: nat :| EdgeSpelling(edges, q, d, u);
          SpellingsNotQuote(d, q.bytes);
        }
      }
    }
  }

  lemma AllowedPrefixFree(nodes: Nodes, paths: set<Path>)
    requires NodesOk(nodes) && AllAllowed(nodes, paths)
    ensures PrefixFree(paths)
  {
    hide Allowed;
    forall p, q | p in paths && q in paths && p.source == q.source && p.bytes <= q.bytes ensures p == q {
      AllowedApart(nodes, p, q);
    }
  }

  // --- building ---------------------------------------------------------------------------------------------------------

  /** The table while paths are being added. */
  ghost predicate Built(states: seq<ByteState>, places: seq<Place>, paths: set<Path>, nodes: Nodes) {
    && NodesOk(nodes) && Threaded(states, places, paths, |nodes| + 2) && Present(states, paths) && AllAllowed(nodes, paths)
    && Measured(states, places, paths, |nodes| + 2)
    && |nodes| + 2 <= |states|
    && forall a :: 0 <= a < |nodes| + 2 ==> states[a].accepting == (a == |nodes| + 1)
  }

  /** A tree is too large when its nodes, two more states and the proper prefixes of its paths are over the state cap,
      or these prefixes and the paths over the edge cap. */
  ghost predicate Overfull(nodes: Nodes) {
    exists paths :: AllAllowed(nodes, paths) && TooLarge(paths, |nodes| + 2)
  }

  /** `paths'` has exactly the words of `l` more, from `source` to `target`. */
  ghost predicate Added(paths: set<Path>, paths': set<Path>, source: nat, target: nat, l: Lang) {
    forall p :: p in paths' <==> p in paths || (p.source == source && p.target == target && p.bytes in l)
  }

  lemma AddedBoth(paths: set<Path>, mid: set<Path>, paths': set<Path>, source: nat, target: nat, k: Lang, l: Lang)
    requires Added(paths, mid, source, target, k) && Added(mid, paths', source, target, l)
    ensures Added(paths, paths', source, target, k + l)
  {}

  ghost predicate Fits(nodes: Nodes, source: nat, target: nat, l: Lang) {
    forall w :: w in l ==> Allowed(nodes, Path(source, w, target))
  }

  ghost function Listed(list: seq<Word>): Lang {
    iset w: Word | w in list
  }

  method AddOne(states0: seq<ByteState>, p: Path, ghost places0: seq<Place>, ghost paths0: set<Path>, ghost nodes: Nodes)
    returns (ok: bool, states: seq<ByteState>, ghost places: seq<Place>, ghost paths: set<Path>)
    requires Built(states0, places0, paths0, nodes) && Allowed(nodes, p)
    ensures ok ==> Built(states, places, paths, nodes) && paths == paths0 + {p}
    ensures !ok ==> Overfull(nodes)
  {
    hide Threaded, Present, Allowed, PrefixFree, Measured, TooLarge;
    AllowedInRange(nodes, p);
    paths := paths0 + {p};
    AllowedPrefixFree(nodes, paths);
    ok, states, places := AddPath(states0, p, places0, paths0, |nodes| + 2);
    if ok { ThreadedSize(states, places, paths, |nodes| + 2); }
  }

  lemma ThreadedSize(states: seq<ByteState>, places: seq<Place>, paths: set<Path>, anchors: nat)
    requires Threaded(states, places, paths, anchors)
    ensures anchors <= |states|
  {}

  method AddAll(states0: seq<ByteState>, source: nat, target: nat, list: seq<Word>,
                ghost places0: seq<Place>, ghost paths0: set<Path>, ghost nodes: Nodes)
    returns (ok: bool, states: seq<ByteState>, ghost places: seq<Place>, ghost paths: set<Path>)
    requires Built(states0, places0, paths0, nodes) && Fits(nodes, source, target, Listed(list))
    ensures ok ==> Built(states, places, paths, nodes) && Added(paths0, paths, source, target, Listed(list))
    ensures !ok ==> Overfull(nodes)
  {
    hide Built, Allowed, Overfull;
    ok, states, places, paths := true, states0, places0, paths0;
    for i := 0 to |list|
      invariant ok && Built(states, places, paths, nodes) && Added(paths0, paths, source, target, Listed(list[..i]))
    {
      assert list[..i + 1] == list[..i] + [list[i]];
      assert list[i] in Listed(list);
      ok, states, places, paths := AddOne(states, Path(source, list[i], target), places, paths, nodes);
      if !ok { return; }
    }
    assert list[..|list|] == list;
  }

  // --- the spellings of one edge ------------------------------------------------------------------------------------------

  ghost function Spellings(c: Scalar): Lang {
    iset s: Word | IsSpelling(c, s)
  }

  /** The letter of the two-byte escape, for the characters that have one. */
  function ShortLetter(c: Scalar): Option<Byte> {
    if c == 34 || c == 92 || c == 47 then Some(c)
    else if c == 8 then Some(98)
    else if c == 12 then Some(102)
    else if c == 10 then Some(110)
    else if c == 13 then Some(114)
    else if c == 9 then Some(116)
    else None
  }

  function RawSpellings(c: Scalar): seq<Word> {
    if c >= 0x20 && c != QUOTE && c != BACKSLASH then [Scalars.Utf8(c)] else []
  }

  function ShortSpellings(c: Scalar): seq<Word> {
    if ShortLetter(c).Some? then [[BACKSLASH, ShortLetter(c).value]] else []
  }

  lemma RawListed(c: Scalar, w: Word)
    ensures w in RawSpellings(c) <==> IsRaw(w, c)
  {}

  lemma ShortListed(c: Scalar, w: Word)
    ensures w in ShortSpellings(c) <==> IsShort(w, c)
  {
    if IsShort(w, c) { assert w == [w[0], w[1]]; }
  }

  ghost predicate EscapesOf(c: Scalar, escapes: seq<Word>) {
    forall w: Word :: w in escapes <==> if c <= 0xFFFF then IsEscape(w, c) else IsPair(w, c)
  }

  function PrependAll(high: Word, lows: seq<Word>): seq<Word> {
    seq(|lows|, i requires 0 <= i < |lows| => high + lows[i])
  }

  lemma PrependedMembers(high: Word, lows: seq<Word>, w: Word)
    ensures w in PrependAll(high, lows) <==> high <= w && w[|high|..] in lows
  {
    if w in PrependAll(high, lows) {
      var i :| 0 <= i < |lows| && PrependAll(high, lows)[i] == w;
      assert w[|high|..] == lows[i];
    }
    if high <= w && w[|high|..] in lows {
      var i :| 0 <= i < |lows| && lows[i] == w[|high|..];
      assert PrependAll(high, lows)[i] == w;
    }
  }

  /** Every high half before every low half. */
  method PairPaths(highs: seq<Word>, lows: seq<Word>, ghost high: nat, ghost low: nat) returns (paths: seq<Word>)
    requires forall w: Word :: w in highs <==> IsEscape(w, high)
    requires forall w: Word :: w in lows <==> IsEscape(w, low)
    ensures forall w: Word :: w in paths <==> |w| == 12 && IsEscape(w[..6], high) && IsEscape(w[6..], low)
  {
    hide UnitAt;
    paths := [];
    for i := 0 to |highs|
      invariant forall w: Word :: w in paths <==> |w| == 12 && w[..6] in highs[..i] && w[6..] in lows
    {
      assert highs[..i + 1] == highs[..i] + [highs[i]];
      assert IsEscape(highs[i], high);
      forall w: Word
        ensures w in PrependAll(highs[i], lows) <==> |w| == 12 && w[..6] == highs[i] && w[6..] in lows
      {
        PrependedMembers(highs[i], lows, w);
      }
      paths := paths + PrependAll(highs[i], lows);
    }
    assert highs[..|highs|] == highs;
  }

  /** The unicode escapes: one for the basic plane, a surrogate pair beyond it. */
  method EscapePaths(c: Scalar) returns (paths: seq<Word>)
    ensures EscapesOf(c, paths)
  {
    hide IsEscape, IsPair;
    if c <= 0xFFFF {
      paths := UnicodeEscapePaths(c);
    } else {
      HalvesFit(c);
      var highs := UnicodeEscapePaths(HighHalf(c));
      var lows := UnicodeEscapePaths(LowHalf(c));
      paths := PairPaths(highs, lows, HighHalf(c), LowHalf(c));
      forall w: Word ensures w in paths <==> IsPair(w, c) { PairIs(w, c); }
    }
  }

  lemma HalvesFit(c: Scalar)
    requires c > 0xFFFF
    ensures HighHalf(c) <= 0xFFFF && LowHalf(c) <= 0xFFFF
  {}

  lemma PairIs(w: Word, c: Scalar)
    requires c > 0xFFFF
    ensures IsPair(w, c) <==> |w| == 12 && IsEscape(w[..6], HighHalf(c)) && IsEscape(w[6..], LowHalf(c))
  {}

  lemma AllSpellings(c: Scalar, escapes: seq<Word>)
    requires EscapesOf(c, escapes)
    ensures Listed(RawSpellings(c)) + Listed(ShortSpellings(c)) + Listed(escapes) == Spellings(c)
  {
    hide IsRaw, IsShort, IsEscape, RawSpellings, ShortSpellings;
    forall w: Word ensures w in RawSpellings(c) || w in ShortSpellings(c) || w in escapes <==> IsSpelling(c, w) {
      RawListed(c, w);
      ShortListed(c, w);
      PairNeedsRoom(w, c);
    }
  }

  lemma PairNeedsRoom(w: Word, c: Scalar)
    ensures IsPair(w, c) ==> c > 0xFFFF
  {}

  lemma EdgeFitsAll(nodes: Nodes, source: nat, target: nat, c: Scalar, l: Lang)
    requires 0 < source <= |nodes| && target > 0 && (c, target - 1) in nodes[source - 1].edges && l <= Spellings(c)
    ensures Fits(nodes, source, target, l)
  {
    hide IsSpelling;
    var t: nat := target - 1;
    forall w | w in l ensures Allowed(nodes, Path(source, w, target)) {
      assert EdgeSpelling(nodes[source - 1].edges, Path(source, w, target), c, t);
    }
  }

  /** `add_scalar_spellings`: adds exactly the spellings of the character. */
  method AddScalarSpellings(states0: seq<ByteState>, source: nat, target: nat, c: Scalar,
                            ghost places0: seq<Place>, ghost paths0: set<Path>, ghost nodes: Nodes)
    returns (ok: bool, states: seq<ByteState>, ghost places: seq<Place>, ghost paths: set<Path>)
    requires Built(states0, places0, paths0, nodes)
    requires 0 < source <= |nodes| && target > 0 && (c, target - 1) in nodes[source - 1].edges
    ensures ok ==> Built(states, places, paths, nodes) && Added(paths0, paths, source, target, Spellings(c))
    ensures !ok ==> Overfull(nodes)
  {
    hide Overfull, Built, Fits, Added, Listed, Spellings, RawSpellings, ShortSpellings, EscapesOf;
    var raw, short := RawSpellings(c), ShortSpellings(c);
    var escapes := EscapePaths(c);
    AllSpellings(c, escapes);
    EdgeFitsAll(nodes, source, target, c, Listed(raw));
    EdgeFitsAll(nodes, source, target, c, Listed(short));
    EdgeFitsAll(nodes, source, target, c, Listed(escapes));
    ok, states, places, paths := AddAll(states0, source, target, raw, places0, paths0, nodes);
    if !ok { return; }
    ghost var first := paths;
    ok, states, places, paths := AddAll(states, source, target, short, places, paths, nodes);
    if !ok { return; }
    AddedBoth(paths0, first, paths, source, target, Listed(raw), Listed(short));
    ghost var second := paths;
    ok, states, places, paths := AddAll(states, source, target, escapes, places, paths, nodes);
    if !ok { return; }
    AddedBoth(paths0, second, paths, source, target, Listed(raw) + Listed(short), Listed(escapes));
  }

  // --- the whole table ------------------------------------------------------------------------------------------------

  /** Everything allowed from the first `i` + 1 states is there, and nothing else. */
  ghost predicate DoneNodes(nodes: Nodes, paths: set<Path>, i: nat) {
    forall p: Path :: p in paths <==> Allowed(nodes, p) && p.source <= i
  }

  /** Node `i` is under way: its closing quote and its first `k` edges are there. */
  ghost predicate DoneEdges(nodes: Nodes, paths: set<Path>, i: nat, k: nat)
    requires i < |nodes| && k <= |nodes[i].edges|
  {
    forall p: Path :: p in paths <==> (Allowed(nodes, p) && p.source <= i) || PartPath(nodes, i, k, p)
  }

  ghost predicate PartPath(nodes: Nodes, i: nat, k: nat, p: Path)
    requires i < |nodes| && k <= |nodes[i].edges|
  {
    p.source == i + 1 &&
    ((nodes[i].accepting && p.bytes == [QUOTE] && p.target == |nodes| + 1) || EdgePath(nodes[i].edges[..k], p))
  }

  lemma EdgesBegin(nodes: Nodes, paths: set<Path>, paths': set<Path>, i: nat)
    requires NodesOk(nodes) && i < |nodes| && DoneNodes(nodes, paths, i)
    requires paths' == if nodes[i].accepting then paths + {Path(i + 1, [QUOTE], |nodes| + 1)} else paths
    ensures DoneEdges(nodes, paths', i, 0)
  {
    hide Allowed;
    forall p: Path ensures PartPath(nodes, i, 0, p) <==> nodes[i].accepting && p == Path(i + 1, [QUOTE], |nodes| + 1) {}
  }

  lemma EdgesStep(nodes: Nodes, paths: set<Path>, paths': set<Path>, i: nat, k: nat)
    requires NodesOk(nodes) && i < |nodes| && k < |nodes[i].edges| && DoneEdges(nodes, paths, i, k)
    requires Added(paths, paths', i + 1, nodes[i].edges[k].1 + 1, Spellings(nodes[i].edges[k].0))
    ensures DoneEdges(nodes, paths', i, k + 1)
  {
    hide Allowed, IsSpelling;
    var edges := nodes[i].edges;
    var c, t := edges[k].0, edges[k].1;
    var more, fewer := edges[..k + 1], edges[..k];
    assert more == fewer + [(c, t)];
    forall p: Path ensures EdgePath(more, p) <==> EdgePath(fewer, p) || EdgeSpelling([(c, t)], p, c, t) {
      if d: Scalar, u: nat :| EdgeSpelling(more, p, d, u) {
        assert EdgeSpelling(fewer, p, d, u) || EdgeSpelling([(c, t)], p, c, t);
      }
      if d: Scalar, u: nat :| EdgeSpelling(fewer, p, d, u) { assert EdgeSpelling(more, p, d, u); }
      if EdgeSpelling([(c, t)], p, c, t) { assert EdgeSpelling(more, p, c, t); }
    }
  }

  lemma EdgesEnd(nodes: Nodes, paths: set<Path>, i: nat)
    requires i < |nodes| && DoneEdges(nodes, paths, i, |nodes[i].edges|)
    ensures DoneNodes(nodes, paths, i + 1)
  {
    hide EdgePath;
    var all := nodes[i].edges;
    assert all[..|all|] == all;
    forall p: Path ensures p in paths <==> Allowed(nodes, p) && p.source <= i + 1 {
      if p.source == i + 1 { assert PartPath(nodes, i, |all|, p) <==> Allowed(nodes, p); }
    }
  }

  method AddNode(states0: seq<ByteState>, trie: Trie.Trie<Scalar>, i: nat,
                 ghost places0: seq<Place>, ghost paths0: set<Path>)
    returns (ok: bool, states: seq<ByteState>, ghost places: seq<Place>, ghost paths: set<Path>)
    requires Built(states0, places0, paths0, trie.nodes) && i < |trie.nodes| && DoneNodes(trie.nodes, paths0, i)
    ensures ok ==> Built(states, places, paths, trie.nodes) && DoneNodes(trie.nodes, paths, i + 1)
    ensures !ok ==> Overfull(trie.nodes)
  {
    hide Threaded, Present, Measured, Overfull, AllAllowed, DoneNodes, DoneEdges, Added, Spellings, Allowed;
    var node := trie.nodes[i];
    var source: nat := i + 1;
    ok, states, places, paths := true, states0, places0, paths0;
    if node.accepting {
      QuoteAllowed(trie.nodes, i);
      ok, states, places, paths := AddOne(states, Path(source, [QUOTE], |trie.nodes| + 1), places, paths, trie.nodes);
      if !ok { return; }
    }
    EdgesBegin(trie.nodes, paths0, paths, i);
    for k := 0 to |node.edges|
      invariant ok && Built(states, places, paths, trie.nodes) && DoneEdges(trie.nodes, paths, i, k)
    {
      ghost var before := paths;
      assert node.edges[k] in node.edges && node.edges[k] == (node.edges[k].0, node.edges[k].1);
      ok, states, places, paths :=
        AddScalarSpellings(states, source, node.edges[k].1 + 1, node.edges[k].0, places, paths, trie.nodes);
      if !ok { return; }
      EdgesStep(trie.nodes, before, paths, i, k);
    }
    EdgesEnd(trie.nodes, paths, i);
  }

  lemma QuoteAllowed(nodes: Nodes, i: nat)
    requires i < |nodes| && nodes[i].accepting
    ensures Allowed(nodes, Path(i + 1, [QUOTE], |nodes| + 1))
  {}

  function Blank(n: nat): seq<ByteState> {
    seq(n + 1, _ => ByteState(false, [])) + [ByteState(true, [])]
  }

  ghost function Anchored(n: nat): seq<Place> {
    seq(n, q requires 0 <= q < n => Place(q, []))
  }

  lemma BlankBuilt(nodes: Nodes)
    requires NodesOk(nodes)
    ensures Built(Blank(|nodes|), Anchored(|nodes| + 2), {}, nodes)
    ensures Allowed(nodes, Path(0, [QUOTE], 1))
  {
    hide Measured, Threaded, Anchored;
    var n := |nodes|;
    BlankThreaded(Blank(n), Anchored(n + 2));
    BlankMeasured(Blank(n), Anchored(n + 2));
  }

  lemma BlankThreaded(states: seq<ByteState>, places: seq<Place>)
    requires places == Anchored(|states|) && forall q :: 0 <= q < |states| ==> states[q].edges == []
    ensures Threaded(states, places, {}, |states|)
  {
    forall q | 0 <= q < |states| ensures RowFits(states[q].edges, places[q], places, {}, |states|) {
      EmptyRowFits(places[q], places, {}, |states|);
    }
  }

  lemma BlankMeasured(states: seq<ByteState>, places: seq<Place>)
    requires places == Anchored(|states|) && forall q :: 0 <= q < |states| ==> states[q].edges == []
    ensures Measured(states, places, {}, |states|)
  {
    BlankFlat(states);
    hide FlatEdges;
    forall q | 0 <= q < |states| ensures Walk(states, places[q].anchor, places[q].read) == Some(q) {
      WalkNothing(states, q);
    }
  }

  lemma {:induction false} BlankFlat(states: seq<ByteState>)
    requires forall q :: 0 <= q < |states| ==> states[q].edges == []
    ensures FlatEdges(states) == []
  {
    if states != [] { BlankFlat(states[..|states| - 1]); }
  }

  lemma OpeningDone(nodes: Nodes)
    ensures DoneNodes(nodes, {Path(0, [QUOTE], 1)}, 0)
  {}

  lemma TrieNodesOk(nodes: Nodes, paths: seq<seq<Scalar>>)
    requires Trie.Labelled(nodes, paths)
    ensures NodesOk(nodes)
  {
    hide Trie.Descend;
    forall i | 0 <= i < |nodes| ensures EdgesOk(nodes[i].edges, |nodes|) {
      var edges := nodes[i].edges;
      assert Trie.EdgesSpell(edges, paths, paths[i]);
      forall k | 0 <= k < |edges| ensures edges[k].1 < |nodes| { assert (edges[k].0, edges[k].1) in edges; }
    }
  }

  // --- what it accepts ------------------------------------------------------------------------------------------------

  ghost predicate AcceptsFrom(nodes: Nodes, i: nat, v: seq<Scalar>) {
    match Trie.Descend(nodes, i, v)
    case None => false
    case Some(j) => j < |nodes| && nodes[j].accepting
  }

  /** String text that decodes to a value below node `i`, then the closing quote. */
  ghost predicate Closes(nodes: Nodes, i: nat, w: Word, v: seq<Scalar>) {
    w != [] && w[|w| - 1] == QUOTE && DecodeBody(w[..|w| - 1]) == Some(v) && AcceptsFrom(nodes, i, v)
  }

  ghost predicate Finished(states: seq<ByteState>, places: seq<Place>, paths: set<Path>, nodes: Nodes) {
    Built(states, places, paths, nodes) && forall p: Path :: p in paths <==> Allowed(nodes, p)
  }

  lemma AllDone(states: seq<ByteState>, places: seq<Place>, paths: set<Path>, nodes: Nodes)
    requires Built(states, places, paths, nodes) && DoneNodes(nodes, paths, |nodes|)
    ensures Finished(states, places, paths, nodes)
  {
    forall p: Path | Allowed(nodes, p) ensures p.source <= |nodes| {}
  }

  lemma AtAnchor(states: seq<ByteState>, places: seq<Place>, paths: set<Path>, nodes: Nodes, a: nat, w: Word)
    requires Finished(states, places, paths, nodes) && a < |nodes| + 2
    ensures Accepts(states, a, w) <==>
              (w == [] && a == |nodes| + 1) || exists p :: Leaves(states, paths, a, w, p)
  {
    hide Threaded, Present, Allowed, Leaves, Accepts;
    AnchorAccepts(states, places, paths, |nodes| + 2, a, w);
  }

  lemma AcceptEnds(states: seq<ByteState>, places: seq<Place>, paths: set<Path>, nodes: Nodes, w: Word)
    requires Finished(states, places, paths, nodes)
    ensures Accepts(states, |nodes| + 1, w) <==> w == []
  {
    hide Threaded, Present, Accepts;
    var accept := |nodes| + 1;
    AtAnchor(states, places, paths, nodes, accept, w);
    forall p ensures !Leaves(states, paths, accept, w, p) {
      assert p in paths ==> Allowed(nodes, p);
    }
  }

  lemma {:induction false} NodeSound(states: seq<ByteState>, places: seq<Place>, paths: set<Path>, nodes: Nodes, i: nat, w: Word)
    returns (v: seq<Scalar>)
    requires Finished(states, places, paths, nodes) && i < |nodes| && Accepts(states, i + 1, w)
    ensures Closes(nodes, i, w, v)
    decreases |w|
  {
    hide Threaded, Present, Accepts, IsSpelling, Built, EdgesOk;
    FinishedParts(states, places, paths, nodes);
    AtAnchor(states, places, paths, nodes, i + 1, w);
    var p :| Leaves(states, paths, i + 1, w, p);
    assert NodePath(nodes, i, p);
    if EdgePath(nodes[i].edges, p) {
      var c: Scalar, t: nat :| EdgeSpelling(nodes[i].edges, p, c, t);
      EdgeTarget(nodes, i, c, t);
      SpellingsNotQuote(c, p.bytes);
      var rest := NodeSound(states, places, paths, nodes, t, w[|p.bytes|..]);
      v := [c] + rest;
      ClosesCons(nodes, i, w, c, p.bytes, t, rest);
    } else {
      AcceptEnds(states, places, paths, nodes, w[1..]);
      assert w == [QUOTE] && w[..|w| - 1] == [];
      v := [];
      assert DecodeBody([]) == Some([]);
      assert Trie.Descend(nodes, i, v) == Some(i);
    }
  }

  lemma FinishedParts(states: seq<ByteState>, places: seq<Place>, paths: set<Path>, nodes: Nodes)
    requires Finished(states, places, paths, nodes)
    ensures NodesOk(nodes) && forall p: Path :: p in paths <==> Allowed(nodes, p)
  {
    hide Threaded, Present, Allowed;
  }

  lemma EdgeTarget(nodes: Nodes, i: nat, c: Scalar, t: nat)
    requires NodesOk(nodes) && i < |nodes| && (c, t) in nodes[i].edges
    ensures t < |nodes| && Lookup(nodes[i].edges, c) == Some(t)
  {
    var edges := nodes[i].edges;
    assert EdgesOk(edges, |nodes|);
    var k :| 0 <= k < |edges| && edges[k] == (c, t);
    LookupIn(edges, c);
    SameEdge(edges, |nodes|, c, t, Lookup(edges, c).value);
  }

  lemma ClosesCons(nodes: Nodes, i: nat, w: Word, c: Scalar, s: Word, t: nat, rest: seq<Scalar>)
    requires i < |nodes| && IsSpelling(c, s) && s <= w && Lookup(nodes[i].edges, c) == Some(t)
    requires Closes(nodes, t, w[|s|..], rest)
    ensures Closes(nodes, i, w, [c] + rest)
  {
    hide IsSpelling, DecodeBody, Trie.Descend;
    var tail := w[|s|..];
    var body := tail[..|tail| - 1];
    assert w == s + tail && w[..|w| - 1] == s + body;
    assert w[|w| - 1] == tail[|tail| - 1];
    BodyCons(c, s, body);
    DescendCons(nodes, i, c, t, rest);
  }

  lemma DescendCons(nodes: Nodes, i: nat, c: Scalar, t: nat, rest: seq<Scalar>)
    requires i < |nodes| && Lookup(nodes[i].edges, c) == Some(t)
    ensures Trie.Descend(nodes, i, [c] + rest) == Trie.Descend(nodes, t, rest)
  {
    assert ([c] + rest)[1..] == rest;
  }

  lemma {:induction false} NodeComplete(states: seq<ByteState>, places: seq<Place>, paths: set<Path>, nodes: Nodes, i: nat,
                                        w: Word, v: seq<Scalar>)
    requires Finished(states, places, paths, nodes) && i < |nodes| && Closes(nodes, i, w, v)
    ensures Accepts(states, i + 1, w)
    decreases |w|
  {
    hide Threaded, Present, Accepts, IsSpelling, Built, DecodeOne;
    FinishedParts(states, places, paths, nodes);
    AtAnchor(states, places, paths, nodes, i + 1, w);
    var body := w[..|w| - 1];
    if body == [] {
      assert w == [QUOTE] && v == [];
      QuoteAllowed(nodes, i);
      AcceptEnds(states, places, paths, nodes, w[1..]);
      assert Leaves(states, paths, i + 1, w, Path(i + 1, [QUOTE], |nodes| + 1));
    } else {
      var n, t := ChildCloses(nodes, i, w, v);
      NodeComplete(states, places, paths, nodes, t, w[n..], v[1..]);
      assert Leaves(states, paths, i + 1, w, Path(i + 1, w[..n], t + 1));
    }
  }

  /** The first character of the text leads along an edge, and the rest closes below it. */
  lemma ChildCloses(nodes: Nodes, i: nat, w: Word, v: seq<Scalar>) returns (n: nat, t: nat)
    requires NodesOk(nodes) && i < |nodes| && Closes(nodes, i, w, v) && w[..|w| - 1] != []
    ensures 0 < n <= |w| && t < |nodes| && v != [] && Allowed(nodes, Path(i + 1, w[..n], t + 1))
    ensures Closes(nodes, t, w[n..], v[1..])
  {
    hide IsSpelling, DecodeOne, Scalars.Utf8;
    var body := w[..|w| - 1];
    var c: Scalar := DecodeOne(body).value.0;
    n := DecodeOne(body).value.1;
    DecodedIsSpelling(body);
    t := Lookup(nodes[i].edges, c).value;
    LookupIn(nodes[i].edges, c);
    EdgeTarget(nodes, i, c, t);
    var tail := w[n..];
    assert tail[..|tail| - 1] == body[n..] && body[..n] == w[..n];
    assert EdgeSpelling(nodes[i].edges, Path(i + 1, w[..n], t + 1), c, t);
  }

  /** From the start the table accepts exactly the quoted spellings of the strings in the tree. */
  lemma StartAccepts(states: seq<ByteState>, places: seq<Place>, paths: set<Path>, nodes: Nodes, w: Word)
    requires Finished(states, places, paths, nodes)
    ensures Accepts(states, 0, w) <==> DecodeString(w).Some? && Trie.Contains(nodes, DecodeString(w).value)
  {
    hide Threaded, Present, Accepts, Built, DecodeBody;
    FinishedParts(states, places, paths, nodes);
    AtAnchor(states, places, paths, nodes, 0, w);
    var opening := Path(0, [QUOTE], 1);
    if Accepts(states, 0, w) {
      var p :| Leaves(states, paths, 0, w, p);
      assert p == opening;
      var v := NodeSound(states, places, paths, nodes, 0, w[1..]);
      QuotedBody(w);
    }
    if DecodeString(w).Some? && Trie.Contains(nodes, DecodeString(w).value) {
      QuotedBody(w);
      NodeComplete(states, places, paths, nodes, 0, w[1..], DecodeString(w).value);
      assert Leaves(states, paths, 0, w, opening);
    }
  }

  lemma QuotedBody(w: Word)
    ensures w != [] && w[1..] != [] ==> w[1..][..|w[1..]| - 1] == w[1..|w| - 1]
  {}

  // --- string_set -----------------------------------------------------------------------------------------------------

  /** `into_json_graph`: states for the opening, every node, and the end; then every path. */
  method IntoJsonGraph(trie: Trie.Trie<Scalar>) returns (r: Result<AutomatonGraph>)
    requires trie.Valid()
    ensures r.Ok? ==> Validated(r.value)
    ensures r.Ok? ==> GraphLanguage(r.value) == iset w: Word | DecodesInto(trie.nodes, w)
    ensures r.Err? ==> r.error == LimitExceeded
    ensures r.Err? <==> Overfull(trie.nodes)
  {
    hide Built, Allowed, DoneNodes, Validated, Trie.Contains, Finished, DecodeString, Overfull, FlatEdges;
    TrieNodesOk(trie.nodes, trie.paths);
    var states := Blank(|trie.nodes|);
    BlankBuilt(trie.nodes);
    ghost var places, paths := Anchored(|trie.nodes| + 2), {};
    var ok;
    ok, states, places, paths := AddOne(states, Path(0, [QUOTE], 1), places, paths, trie.nodes);
    if !ok { return Err(LimitExceeded); }
    assert paths == {Path(0, [QUOTE], 1)};
    OpeningDone(trie.nodes);
    for i := 0 to |trie.nodes|
      invariant ok && Built(states, places, paths, trie.nodes) && DoneNodes(trie.nodes, paths, i)
    {
      ok, states, places, paths := AddNode(states, trie, i, places, paths);
      if !ok { return Err(LimitExceeded); }
    }
    AllDone(states, places, paths, trie.nodes);
    FinishedRows(states, places, paths, trie.nodes);
    FinishedSize(states, places, paths, trie.nodes);
    forall w: Word ensures Accepts(states, 0, w) <==> DecodesInto(trie.nodes, w) {
      StartAccepts(states, places, paths, trie.nodes, w);
    }
    r := FromByteStates(states, 0);
  }

  ghost predicate DecodesInto(nodes: Nodes, w: Word) {
    DecodeString(w).Some? && Trie.Contains(nodes, DecodeString(w).value)
  }

  lemma FinishedRows(states: seq<ByteState>, places: seq<Place>, paths: set<Path>, nodes: Nodes)
    requires Finished(states, places, paths, nodes)
    ensures RowsOk(states, |states|) && 0 < |states|
  {
    hide Threaded, Present, Allowed;
    ThreadedRowsOk(states, places, paths, |nodes| + 2);
  }

  /** The finished table is over the caps exactly when the tree is too large. */
  lemma FinishedSize(states: seq<ByteState>, places: seq<Place>, paths: set<Path>, nodes: Nodes)
    requires Finished(states, places, paths, nodes)
    ensures Overfull(nodes) <==> |states| > MAX_GRAPH_STATES || |FlatEdges(states)| > MAX_GRAPH_EDGES
  {
    hide Threaded, Present, Allowed, Measured, TooLarge, PrefixFree, NodesOk, FlatEdges;
    AllowedPrefixFree(nodes, paths);
    TableSize(states, places, paths, |nodes| + 2);
    forall some | AllAllowed(nodes, some) && TooLarge(some, |nodes| + 2) ensures TooLarge(paths, |nodes| + 2) {
      TooLargeGrows(some, paths, |nodes| + 2);
    }
  }

  // --- the size in terms of the values --------------------------------------------------------------------------------

  /** A point in the text of a string: what has been decoded, and text that follows it. */
  datatype Spot = Spot(before: seq<Scalar>, text: Word)

  ghost predicate WritesChar(values: seq<seq<Scalar>>, s: Spot, c: Scalar) {
    Trie.IsPrefix(values, s.before + [c]) && IsSpelling(c, s.text)
  }

  /** The text is the closing quote of a value, or a spelling of the next character of one. */
  ghost predicate Writes(values: seq<seq<Scalar>>, s: Spot) {
    (s.before in values && s.text == [QUOTE]) || exists c: Scalar :: WritesChar(values, s, c)
  }

  ghost predicate WritesAll(values: seq<seq<Scalar>>, s: Spot, w: Word) {
    s.text < w && Writes(values, Spot(s.before, w))
  }

  /** The text is such a piece without its end. */
  ghost predicate WritesPart(values: seq<seq<Scalar>>, s: Spot) {
    s.text != [] && exists w :: WritesAll(values, s, w)
  }

  /** Different prefixes of the values, unfinished pieces of their text, and finished ones. */
  ghost predicate Tally(values: seq<seq<Scalar>>, prefixes: seq<seq<Scalar>>, parts: seq<Spot>, pieces: seq<Spot>) {
    && Finite.Distinct(prefixes) && Trie.ArePrefixes(values, prefixes)
    && Finite.Distinct(parts) && (forall k :: 0 <= k < |parts| ==> WritesPart(values, parts[k]))
    && Finite.Distinct(pieces) && (forall k :: 0 <= k < |pieces| ==> Writes(values, pieces[k]))
  }

  /** A state for each prefix and each unfinished piece, for the opening and for the end; an edge into each unfinished
      piece, out of each finished one, and for the opening quote. */
  ghost predicate OverCaps(prefixes: nat, parts: nat, pieces: nat) {
    prefixes + 2 + parts > MAX_GRAPH_STATES || parts + 1 + pieces > MAX_GRAPH_EDGES
  }

  ghost predicate TooManySpellings(values: seq<seq<Scalar>>) {
    exists prefixes, parts, pieces ::
      Tally(values, prefixes, parts, pieces) && OverCaps(|prefixes|, |parts|, |pieces|)
  }

  lemma EdgeIsPrefix(nodes: Nodes, labels: seq<seq<Scalar>>, values: seq<seq<Scalar>>, i: nat, c: Scalar)
    requires Trie.TreeOf(nodes, labels, values) && i < |nodes|
    ensures |labels| == |nodes|
    ensures Trie.IsPrefix(values, labels[i] + [c]) <==> Lookup(nodes[i].edges, c).Some?
  {
    hide Trie.Labelled, Trie.Contains, Trie.IsPrefix, Lookup;
    Trie.RootPath(nodes, labels);
    Trie.PrefixesAre(nodes, labels, values, labels[i] + [c]);
    if Lookup(nodes[i].edges, c).Some? {
      Trie.EdgePath(nodes, labels, i, c);
      assert labels[Lookup(nodes[i].edges, c).value] in labels;
    } else {
      Trie.MissingNode(nodes, labels, i, c);
    }
  }

  lemma AcceptingIsValue(nodes: Nodes, labels: seq<seq<Scalar>>, values: seq<seq<Scalar>>, i: nat)
    requires Trie.TreeOf(nodes, labels, values) && i < |nodes|
    ensures |labels| == |nodes| && (nodes[i].accepting <==> labels[i] in values)
  {
    hide Trie.EdgesSpell, Trie.ArePrefixes, Trie.Descend;
    assert Trie.Contains(nodes, labels[i]) <==> labels[i] in values;
  }

  /** The paths from a node are the pieces of text that follow its prefix. */
  lemma PathWrites(nodes: Nodes, labels: seq<seq<Scalar>>, values: seq<seq<Scalar>>, p: Path)
    requires Trie.TreeOf(nodes, labels, values) && Allowed(nodes, p) && p.source > 0
    ensures p.source <= |nodes| == |labels| && Writes(values, Spot(labels[p.source - 1], p.bytes))
  {
    hide Trie.TreeOf, IsSpelling, Trie.IsPrefix;
    var i := p.source - 1;
    AcceptingIsValue(nodes, labels, values, i);
    if EdgePath(nodes[i].edges, p) {
      var c: Scalar, t: nat :| EdgeSpelling(nodes[i].edges, p, c, t);
      LookupIsEdge(nodes[i].edges, c);
      EdgeIsPrefix(nodes, labels, values, i, c);
      assert WritesChar(values, Spot(labels[i], p.bytes), c);
    }
  }

  /** The path that writes a piece. */
  ghost predicate Serves(nodes: Nodes, labels: seq<seq<Scalar>>, s: Spot, p: Path) {
    && Allowed(nodes, p) && 0 < p.source <= |nodes| == |labels|
    && labels[p.source - 1] == s.before && p.bytes == s.text
  }

  lemma ShorterPrefix(values: seq<seq<Scalar>>, u: seq<Scalar>, c: Scalar)
    requires Trie.IsPrefix(values, u + [c])
    ensures Trie.IsPrefix(values, u)
  {
    var k :| 0 <= k < |values| && u + [c] <= values[k];
    assert u <= values[k];
  }

  lemma ValueIsPrefix(values: seq<seq<Scalar>>, v: seq<Scalar>)
    requires v in values
    ensures Trie.IsPrefix(values, v)
  {
    var k :| 0 <= k < |values| && values[k] == v;
    assert v <= values[k];
  }

  lemma SomePathServes(nodes: Nodes, labels: seq<seq<Scalar>>, values: seq<seq<Scalar>>, s: Spot)
    requires Trie.TreeOf(nodes, labels, values) && Writes(values, s)
    ensures exists p :: Serves(nodes, labels, s, p)
  {
    hide Trie.TreeOf, IsSpelling, Trie.IsPrefix, Lookup;
    if s.before in values && s.text == [QUOTE] {
      ValueIsPrefix(values, s.before);
      Trie.PrefixesAre(nodes, labels, values, s.before);
      var i: nat :| i < |labels| && labels[i] == s.before;
      TreeSize(nodes, labels, values);
      AcceptingIsValue(nodes, labels, values, i);
      assert Serves(nodes, labels, s, Path(i + 1, s.text, |nodes| + 1));
    } else {
      var c: Scalar :| WritesChar(values, s, c);
      ShorterPrefix(values, s.before, c);
      Trie.PrefixesAre(nodes, labels, values, s.before);
      var i: nat :| i < |labels| && labels[i] == s.before;
      TreeSize(nodes, labels, values);
      EdgeIsPrefix(nodes, labels, values, i, c);
      LookupIn(nodes[i].edges, c);
      var t := Lookup(nodes[i].edges, c).value;
      var p := Path(i + 1, s.text, t + 1);
      assert EdgeSpelling(nodes[i].edges, p, c, t);
      assert Serves(nodes, labels, s, p);
    }
  }

  lemma TreeSize(nodes: Nodes, labels: seq<seq<Scalar>>, values: seq<seq<Scalar>>)
    requires Trie.TreeOf(nodes, labels, values)
    ensures |labels| == |nodes| && Finite.Distinct(labels) && Trie.ArePrefixes(values, labels)
  {
    hide Trie.Labelled, Trie.Contains, Trie.ArePrefixes;
    Trie.RootPath(nodes, labels);
    Trie.PathsDistinct(nodes, labels);
  }

  // --- from the tree to the values ----------------------------------------------------------------------------------------

  ghost predicate InTree(labels: seq<seq<Scalar>>, anchor: nat) {
    0 < anchor <= |labels|
  }

  ghost function SpotOf(labels: seq<seq<Scalar>>, anchor: nat, text: Word): Spot
    requires InTree(labels, anchor)
  {
    Spot(labels[anchor - 1], text)
  }

  lemma PlaceWrites(nodes: Nodes, labels: seq<seq<Scalar>>, values: seq<seq<Scalar>>, paths: set<Path>, place: Place)
    requires Trie.TreeOf(nodes, labels, values) && AllAllowed(nodes, paths) && Inside(place, paths, |nodes| + 2)
    ensures InTree(labels, place.anchor) && WritesPart(values, SpotOf(labels, place.anchor, place.read))
  {
    hide Trie.TreeOf, Writes, NodePath;
    var p :| OnPath(place, paths, p);
    assert Allowed(nodes, p);
    PathWrites(nodes, labels, values, p);
    assert WritesAll(values, SpotOf(labels, place.anchor, place.read), p.bytes);
  }

  ghost function Spots(labels: seq<seq<Scalar>>, places: seq<Place>): (r: seq<Spot>)
    requires forall k :: 0 <= k < |places| ==> InTree(labels, places[k].anchor)
    ensures |r| == |places|
  {
    seq(|places|, k requires 0 <= k < |places| => SpotOf(labels, places[k].anchor, places[k].read))
  }

  lemma SpotsDistinct(labels: seq<seq<Scalar>>, places: seq<Place>)
    requires Finite.Distinct(labels) && Finite.Distinct(places)
    requires forall k :: 0 <= k < |places| ==> InTree(labels, places[k].anchor)
    ensures Finite.Distinct(Spots(labels, places))
  {
    forall j, k | 0 <= j < k < |places| ensures Spots(labels, places)[j] != Spots(labels, places)[k] {
      var a, b := places[j].anchor, places[k].anchor;
      if a != b { assert labels[a - 1] != labels[b - 1]; }
    }
  }

  lemma PartsOf(nodes: Nodes, labels: seq<seq<Scalar>>, values: seq<seq<Scalar>>, paths: set<Path>, places: seq<Place>)
    returns (parts: seq<Spot>)
    requires Trie.TreeOf(nodes, labels, values) && AllAllowed(nodes, paths) && Inner(places, paths, |nodes| + 2)
    ensures |parts| == |places| && Finite.Distinct(parts)
    ensures forall k :: 0 <= k < |parts| ==> WritesPart(values, parts[k])
  {
    hide Trie.TreeOf, WritesPart, Allowed, Inside;
    forall k | 0 <= k < |places|
      ensures InTree(labels, places[k].anchor) && WritesPart(values, SpotOf(labels, places[k].anchor, places[k].read))
    {
      PlaceWrites(nodes, labels, values, paths, places[k]);
    }
    TreeSize(nodes, labels, values);
    parts := Spots(labels, places);
    SpotsDistinct(labels, places);
  }

  lemma NotOpening(nodes: Nodes, p: Path)
    requires Allowed(nodes, p) && p != Path(0, [QUOTE], 1)
    ensures p.source > 0
  {}

  lemma PiecesApart(nodes: Nodes, labels: seq<seq<Scalar>>, p: Path, q: Path)
    requires NodesOk(nodes) && Allowed(nodes, p) && Allowed(nodes, q) && Finite.Distinct(labels) && p != q
    requires InTree(labels, p.source) && InTree(labels, q.source)
    ensures SpotOf(labels, p.source, p.bytes) != SpotOf(labels, q.source, q.bytes)
  {
    hide Allowed, NodesOk;
    if p.source == q.source && p.bytes == q.bytes { AllowedApart(nodes, p, q); }
  }

  /** All paths but the opening one are pieces. */
  lemma PiecesOf(nodes: Nodes, labels: seq<seq<Scalar>>, values: seq<seq<Scalar>>, paths: set<Path>)
    returns (pieces: seq<Spot>)
    requires Trie.TreeOf(nodes, labels, values) && NodesOk(nodes) && AllAllowed(nodes, paths)
    ensures |paths| <= |pieces| + 1 && Finite.Distinct(pieces)
    ensures forall k :: 0 <= k < |pieces| ==> Writes(values, pieces[k])
  {
    hide Trie.TreeOf, Writes, Allowed, NodesOk;
    var opening := Path(0, [QUOTE], 1);
    var rest := paths - {opening};
    Finite.SubsetSize(paths, rest + {opening});
    var list := Finite.Listing(rest);
    forall k | 0 <= k < |list|
      ensures InTree(labels, list[k].source) && Writes(values, SpotOf(labels, list[k].source, list[k].bytes))
    {
      assert list[k] in list;
      assert Allowed(nodes, list[k]);
      NotOpening(nodes, list[k]);
      PathWrites(nodes, labels, values, list[k]);
    }
    TreeSize(nodes, labels, values);
    pieces := seq(|list|, k requires 0 <= k < |list| => SpotOf(labels, list[k].source, list[k].bytes));
    forall j, k | 0 <= j < k < |pieces| ensures pieces[j] != pieces[k] {
      assert list[j] in list && list[k] in list;
      assert Allowed(nodes, list[j]) && Allowed(nodes, list[k]);
      PiecesApart(nodes, labels, list[j], list[k]);
    }
  }

  lemma OverfullSpells(nodes: Nodes, labels: seq<seq<Scalar>>, values: seq<seq<Scalar>>)
    requires Trie.TreeOf(nodes, labels, values) && NodesOk(nodes) && Overfull(nodes)
    ensures TooManySpellings(values)
  {
    hide Trie.TreeOf, Allowed, Inside, NodesOk, WritesPart, Writes, Trie.ArePrefixes;
    var paths :| AllAllowed(nodes, paths) && TooLarge(paths, |nodes| + 2);
    var places :| Inner(places, paths, |nodes| + 2) && Exceeds(|places|, |paths|, |nodes| + 2);
    var parts := PartsOf(nodes, labels, values, paths, places);
    var pieces := PiecesOf(nodes, labels, values, paths);
    TreeSize(nodes, labels, values);
    assert Tally(values, labels, parts, pieces) && OverCaps(|labels|, |parts|, |pieces|);
  }

  // --- from the values to the tree ----------------------------------------------------------------------------------------

  ghost function PathFor(nodes: Nodes, labels: seq<seq<Scalar>>, s: Spot): (p: Path)
    requires exists p :: Serves(nodes, labels, s, p)
    ensures Serves(nodes, labels, s, p)
  {
    var p :| Serves(nodes, labels, s, p);
    p
  }

  /** Paths for all pieces. */
  lemma PathsFor(nodes: Nodes, labels: seq<seq<Scalar>>, values: seq<seq<Scalar>>, pieces: seq<Spot>)
    returns (paths: seq<Path>)
    requires Trie.TreeOf(nodes, labels, values) && forall k :: 0 <= k < |pieces| ==> Writes(values, pieces[k])
    ensures |paths| == |pieces| && forall k :: 0 <= k < |pieces| ==> Serves(nodes, labels, pieces[k], paths[k])
  {
    hide Trie.TreeOf, Writes, Serves;
    forall k | 0 <= k < |pieces| ensures exists p :: Serves(nodes, labels, pieces[k], p) {
      SomePathServes(nodes, labels, values, pieces[k]);
    }
    paths := seq(|pieces|, k requires 0 <= k < |pieces| => PathFor(nodes, labels, pieces[k]));
  }

  ghost function Whole(values: seq<seq<Scalar>>, s: Spot): (r: Spot)
    requires WritesPart(values, s)
    ensures r.before == s.before && s.text < r.text && Writes(values, r)
  {
    var w :| WritesAll(values, s, w);
    Spot(s.before, w)
  }

  /** Distinct pieces, and the opening, have distinct paths. */
  lemma ServedDistinct(nodes: Nodes, labels: seq<seq<Scalar>>, pieces: seq<Spot>, paths: seq<Path>)
    requires Finite.Distinct(pieces) && |paths| == |pieces|
    requires forall k :: 0 <= k < |pieces| ==> Serves(nodes, labels, pieces[k], paths[k])
    ensures Finite.Distinct([Path(0, [QUOTE], 1)] + paths)
  {
    hide Allowed;
    var all := [Path(0, [QUOTE], 1)] + paths;
    forall j, k | 0 <= j < k < |all| ensures all[j] != all[k] {
      assert Serves(nodes, labels, pieces[k - 1], paths[k - 1]);
      if j > 0 { assert Serves(nodes, labels, pieces[j - 1], paths[j - 1]); }
    }
  }

  ghost function Elements(list: seq<Path>): set<Path> {
    set p | p in list
  }

  lemma ServedAllowed(nodes: Nodes, labels: seq<seq<Scalar>>, pieces: seq<Spot>, paths: seq<Path>)
    requires |paths| == |pieces| && forall k :: 0 <= k < |pieces| ==> Serves(nodes, labels, pieces[k], paths[k])
    ensures AllAllowed(nodes, Elements(paths))
  {
    hide Allowed;
    forall p | p in Elements(paths) ensures Allowed(nodes, p) {
      var k :| 0 <= k < |paths| && paths[k] == p;
      assert Serves(nodes, labels, pieces[k], paths[k]);
    }
  }

  /** Unfinished pieces lie inside the paths of their wholes. */
  lemma PlacesFor(nodes: Nodes, labels: seq<seq<Scalar>>, parts: seq<Spot>, wholes: seq<Spot>, paths: seq<Path>, all: set<Path>)
    returns (places: seq<Place>)
    requires Finite.Distinct(parts) && |parts| == |wholes| == |paths| && Elements(paths) <= all
    requires forall k :: 0 <= k < |parts| ==> Serves(nodes, labels, wholes[k], paths[k])
    requires forall k :: 0 <= k < |parts| ==>
               parts[k].text != [] && wholes[k].before == parts[k].before && parts[k].text < wholes[k].text
    ensures |places| == |parts| && Inner(places, all, |nodes| + 2)
  {
    hide Allowed;
    places := seq(|parts|, k requires 0 <= k < |parts| => Place(paths[k].source, parts[k].text));
    forall k | 0 <= k < |places| ensures Inside(places[k], all, |nodes| + 2) {
      assert Serves(nodes, labels, wholes[k], paths[k]) && paths[k] in Elements(paths);
      assert OnPath(places[k], all, paths[k]);
    }
    forall j, k | 0 <= j < k < |places| ensures places[j] != places[k] {
      assert Serves(nodes, labels, wholes[j], paths[j]) && Serves(nodes, labels, wholes[k], paths[k]);
      assert parts[j] != parts[k];
    }
  }

  lemma SpellsOverfull(nodes: Nodes, labels: seq<seq<Scalar>>, values: seq<seq<Scalar>>)
    requires Trie.TreeOf(nodes, labels, values) && TooManySpellings(values)
    ensures Overfull(nodes)
  {
    hide Trie.TreeOf, Allowed, Inner, WritesPart, Writes, Trie.ArePrefixes, Serves;
    var prefixes, parts, pieces :| Tally(values, prefixes, parts, pieces) && OverCaps(|prefixes|, |parts|, |pieces|);
    Trie.PrefixesFit(nodes, labels, values, prefixes);
    var ends := PathsFor(nodes, labels, values, pieces);
    var wholes := seq(|parts|, k requires 0 <= k < |parts| => Whole(values, parts[k]));
    var inner := PathsFor(nodes, labels, values, wholes);
    ServedDistinct(nodes, labels, pieces, ends);
    ServedAllowed(nodes, labels, pieces, ends);
    ServedAllowed(nodes, labels, wholes, inner);
    var list := [Path(0, [QUOTE], 1)] + ends;
    var all := Elements(list) + Elements(inner);
    OpeningAllowed(nodes);
    assert AllAllowed(nodes, all);
    Finite.DistinctElements(list);
    Finite.SubsetSize(Elements(list), all);
    PartText(values, parts);
    var places := PlacesFor(nodes, labels, parts, wholes, inner, all);
    assert Exceeds(|places|, |all|, |nodes| + 2);
    assert TooLarge(all, |nodes| + 2);
  }

  lemma OpeningAllowed(nodes: Nodes)
    ensures Allowed(nodes, Path(0, [QUOTE], 1))
  {}

  lemma PartText(values: seq<seq<Scalar>>, parts: seq<Spot>)
    requires forall k :: 0 <= k < |parts| ==> WritesPart(values, parts[k])
    ensures forall k :: 0 <= k < |parts| ==> parts[k].text != []
  {
    forall k | 0 <= k < |parts| ensures parts[k].text != [] { assert WritesPart(values, parts[k]); }
  }

  /** The tree of the values is too large exactly when the values have too many spellings. */
  lemma TreeIsValues(nodes: Nodes, labels: seq<seq<Scalar>>, values: seq<seq<Scalar>>)
    requires Trie.TreeOf(nodes, labels, values) && NodesOk(nodes)
    ensures Overfull(nodes) <==> TooManySpellings(values)
  {
    hide Trie.TreeOf, Overfull, TooManySpellings, NodesOk;
    if Overfull(nodes) { OverfullSpells(nodes, labels, values); }
    if TooManySpellings(values) { SpellsOverfull(nodes, labels, values); }
  }

  /** Too many prefixes are too many already. */
  lemma PrefixesAlone(values: seq<seq<Scalar>>)
    requires Trie.TooManyPrefixes(values)
    ensures TooManySpellings(values)
  {
    hide Trie.ArePrefixes, WritesPart, Writes;
    var vs: seq<seq<Scalar>> :| Finite.Distinct(vs) && Trie.ArePrefixes(values, vs) && |vs| > MAX_GRAPH_STATES;
    assert Tally(values, vs, [], []) && OverCaps(|vs|, 0, 0);
  }

  ghost predicate Decodes(values: seq<seq<Scalar>>, w: Word) {
    DecodeString(w).Some? && DecodeString(w).value in values
  }

  /** `string_set`: exactly the quoted JSON strings whose decoding is one of the values, in every spelling. It
      never reports conflicting spellings: a set is refused exactly when its prefixes, with the unfinished and finished
      pieces of its text, are more than a graph may have. */
  method StringSet(values: seq<seq<Scalar>>) returns (r: Result<AutomatonGraph>)
    ensures r.Ok? ==> Validated(r.value) && GraphLanguage(r.value) == iset w: Word | Decodes(values, w)
    ensures r.Err? ==> r.error == LimitExceeded
    ensures r.Err? <==> TooManySpellings(values)
  {
    hide Validated, Trie.Contains, Trie.Labelled, DecodeString, Overfull, NodesOk, Trie.IsPrefix, Trie.ArePrefixes,
         TooManySpellings, Trie.TooManyPrefixes;
    var trie := new Trie.Trie<Scalar>();
    Trie.RootIsPrefix(values[..0], trie.nodes, trie.paths);
    for i := 0 to |values|
      invariant trie.Valid() && fresh(trie) && Trie.ArePrefixes(values[..i], trie.paths)
      invariant forall v :: trie.Has(v) <==> v in values[..i]
    {
      ghost var before := trie.paths;
      var ok := trie.Insert(values[i]);
      Trie.PrefixesGrow(values, i, before, trie.paths);
      if !ok {
        Trie.InsertRefused(trie.nodes, trie.paths, values, i);
        PrefixesAlone(values);
        return Err(LimitExceeded);
      }
      assert values[..i + 1] == values[..i] + [values[i]];
    }
    assert values[..|values|] == values;
    TrieNodesOk(trie.nodes, trie.paths);
    r := IntoJsonGraph(trie);
    assert forall v :: Trie.Contains(trie.nodes, v) <==> v in values;
    Trie.AllInserted(trie.nodes, trie.paths, values);
    TreeIsValues(trie.nodes, trie.paths, values);
  }
}
