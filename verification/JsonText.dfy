/** JSON string text: a decoder for one character after section 7 of RFC 8259, and the spellings it undoes. */
module JsonText {
  import opened Outcome
  import opened Languages
  import Scalars

  const QUOTE: Byte := 34
  const BACKSLASH: Byte := 92
  const LETTER_U: Byte := 117

  type Scalar = c: nat | c <= Scalars.MAX_CODE && !Scalars.IsSurrogate(c)

  // --- the decoder -----------------------------------------------------------------------------------------------------

  /** A hexadecimal digit in either case. */
  function HexValue(b: Byte): Option<nat> {
    if 48 <= b <= 57 then Some(b - 48)
    else if 97 <= b <= 102 then Some(b - 87)
    else if 65 <= b <= 70 then Some(b - 55)
    else None
  }

  function Hex4(w: Word): Option<nat> {
    if |w| < 4 then None
    else match (HexValue(w[0]), HexValue(w[1]), HexValue(w[2]), HexValue(w[3]))
      case (Some(a), Some(b), Some(c), Some(d)) => Some(a * 4096 + b * 256 + c * 16 + d)
      case _ => None
  }

  /** The character after a backslash, other than `u`. */
  function ShortEscape(b: Byte): Option<Scalar> {
    if b == 34 || b == 92 || b == 47 then Some(b)
    else if b == 98 then Some(8)
    else if b == 102 then Some(12)
    else if b == 110 then Some(10)
    else if b == 114 then Some(13)
    else if b == 116 then Some(9)
    else None
  }

  /** The code unit of `\uXXXX` at the front of the text. */
  function UnitAt(w: Word): Option<nat> {
    if |w| >= 6 && w[0] == BACKSLASH && w[1] == LETTER_U then Hex4(w[2..]) else None
  }

  function IsHighHalf(u: nat): bool {
    0xD800 <= u < 0xDC00
  }

  function IsLowHalf(u: nat): bool {
    0xDC00 <= u < 0xE000
  }

  function DecodeEscape(w: Word): Option<(Scalar, nat)>
    requires w != [] && w[0] == BACKSLASH
  {
    if |w| < 2 then None
    else if w[1] != LETTER_U then
      if ShortEscape(w[1]).Some? then Some((ShortEscape(w[1]).value, 2)) else None
    else match UnitAt(w)
      case None => None
      case Some(u) =>
        if IsHighHalf(u) then
          match UnitAt(w[6..])
          case None => None
          case Some(v) => if IsLowHalf(v) then Some((0x10000 + (u - 0xD800) * 1024 + (v - 0xDC00), 12)) else None
        else if u > 0xFFFF || IsLowHalf(u) then None
        else Some((u, 6))
  }

  function LeadWidth(b: Byte): nat {
    if b < 0x80 then 1
    else if b < 0xC0 then 0
    else if b < 0xE0 then 2
    else if b < 0xF0 then 3
    else if b < 0xF8 then 4
    else 0
  }

  function Payload(w: Word): int
    requires |w| >= 1 && |w| >= LeadWidth(w[0])
  {
    match LeadWidth(w[0])
    case 1 => w[0]
    case 2 => (w[0] - 0xC0) * 64 + (w[1] as int - 0x80)
    case 3 => (w[0] - 0xE0) * 4096 + (w[1] as int - 0x80) * 64 + (w[2] as int - 0x80)
    case 4 => (w[0] - 0xF0) * 262144 + (w[1] as int - 0x80) * 4096 + (w[2] as int - 0x80) * 64 + (w[3] as int - 0x80)
    case _ => -1
  }

  predicate Continued(w: Word, n: nat)
    requires n <= |w|
  {
    forall i :: 1 <= i < n ==> Scalars.IsContinuation(w[i])
  }

  /** One UTF-8 character in its shortest form, no surrogates. */
  function DecodeRaw(w: Word): Option<(Scalar, nat)>
    requires w != []
  {
    var n := LeadWidth(w[0]);
    if n == 0 || |w| < n || !Continued(w, n) then None
    else
      var c := Payload(w);
      if 0 <= c <= Scalars.MAX_CODE && !Scalars.IsSurrogate(c) && Scalars.Width(c) == n then Some((c, n)) else None
  }

  /** The first character of string text and how many bytes spell it. Quotes and control characters spell none. */
  function DecodeOne(w: Word): Option<(Scalar, nat)> {
    if w == [] || w[0] == QUOTE || w[0] < 0x20 then None
    else if w[0] == BACKSLASH then DecodeEscape(w)
    else DecodeRaw(w)
  }

  /** The characters of string text. */
  ghost function DecodeBody(w: Word): Option<seq<Scalar>>
    decreases |w|
  {
    if w == [] then Some([])
    else match DecodeOne(w)
      case None => None
      case Some((c, n)) =>
        if n == 0 || n > |w| then None
        else match DecodeBody(w[n..])
          case None => None
          case Some(rest) => Some([c] + rest)
  }

  /** The characters of a quoted string. */
  ghost function DecodeString(w: Word): Option<seq<Scalar>> {
    if |w| >= 2 && w[0] == QUOTE && w[|w| - 1] == QUOTE then DecodeBody(w[1..|w| - 1]) else None
  }

  // --- the spellings ---------------------------------------------------------------------------------------------------

  /** `\uXXXX` for a code unit, in any case. */
  predicate IsEscape(s: Word, unit: nat) {
    |s| == 6 && UnitAt(s) == Some(unit)
  }

  predicate IsShort(s: Word, c: Scalar) {
    |s| == 2 && s[0] == BACKSLASH && ShortEscape(s[1]) == Some(c)
  }

  function HighHalf(c: Scalar): nat
    requires c > 0xFFFF
  {
    0xD800 + (c - 0x10000) / 1024
  }

  function LowHalf(c: Scalar): nat
    requires c > 0xFFFF
  {
    0xDC00 + (c - 0x10000) % 1024
  }

  predicate IsPair(s: Word, c: Scalar) {
    c > 0xFFFF && |s| == 12 && IsEscape(s[..6], HighHalf(c)) && IsEscape(s[6..], LowHalf(c))
  }

  predicate IsRaw(s: Word, c: Scalar) {
    c >= 0x20 && c != QUOTE && c != BACKSLASH && s == Scalars.Utf8(c)
  }

  /** Every way of writing a character inside a string. */
  predicate IsSpelling(c: Scalar, s: Word) {
    IsRaw(s, c) || IsShort(s, c) || (c <= 0xFFFF && IsEscape(s, c)) || IsPair(s, c)
  }

  lemma UnitAtFront(s: Word, rest: Word)
    requires |s| >= 6
    ensures UnitAt(s + rest) == UnitAt(s)
  {
    hide HexValue;
    var w := s + rest;
    assert w[2..][0] == s[2..][0] && w[2..][1] == s[2..][1] && w[2..][2] == s[2..][2] && w[2..][3] == s[2..][3];
  }

  lemma UnitBound(w: Word)
    ensures UnitAt(w).Some? ==> UnitAt(w).value <= 0xFFFF
  {
    if UnitAt(w).Some? {
      forall b: Byte ensures HexValue(b).Some? ==> HexValue(b).value < 16 {}
      hide HexValue;
      assert UnitAt(w) == Hex4(w[2..]);
    }
  }

  lemma HalvesBack(c: Scalar)
    requires c > 0xFFFF
    ensures IsHighHalf(HighHalf(c)) && IsLowHalf(LowHalf(c))
    ensures 0x10000 + (HighHalf(c) - 0xD800) * 1024 + (LowHalf(c) - 0xDC00) == c
  {}

  lemma HalvesForth(u: nat, v: nat)
    requires IsHighHalf(u) && IsLowHalf(v)
    ensures var c := 0x10000 + (u - 0xD800) * 1024 + (v - 0xDC00);
            c <= Scalars.MAX_CODE && !Scalars.IsSurrogate(c) && c > 0xFFFF && HighHalf(c) == u && LowHalf(c) == v
  {}

  /** Decoding six-bit groups puts the number back together. */
  lemma Assemble(c: nat)
    ensures c == c / 64 * 64 + c % 64
    ensures c == c / 4096 * 4096 + c / 64 % 64 * 64 + c % 64
    ensures c == c / 262144 * 262144 + c / 4096 % 64 * 4096 + c / 64 % 64 * 64 + c % 64
  {
    Scalars.SixBits(c);
  }

  lemma LeadOf(c: Scalar)
    ensures LeadWidth(Scalars.Utf8(c)[0]) == Scalars.Width(c)
  {}

  lemma PayloadOf(c: Scalar)
    ensures |Scalars.Utf8(c)| >= LeadWidth(Scalars.Utf8(c)[0]) && Payload(Scalars.Utf8(c)) == c
  {
    Assemble(c);
  }

  lemma ContinuedOf(c: Scalar)
    ensures Continued(Scalars.Utf8(c), Scalars.Width(c))
  {}

  lemma SameFront(s: Word, w: Word)
    requires s != [] && |s| == LeadWidth(s[0]) && |w| >= |s| && w[..|s|] == s
    ensures |w| >= LeadWidth(w[0]) && Payload(w) == Payload(s) && (Continued(w, |s|) <==> Continued(s, |s|))
  {
    assert forall i :: 0 <= i < |s| ==> w[i] == s[i];
  }

  lemma RawFront(c: Scalar, rest: Word)
    ensures DecodeRaw(Scalars.Utf8(c) + rest) == Some((c, |Scalars.Utf8(c)|))
  {
    hide Scalars.Utf8, Payload, LeadWidth, Continued, Scalars.Width;
    var s := Scalars.Utf8(c);
    LeadOf(c);
    PayloadOf(c);
    ContinuedOf(c);
    WidthPositive(c);
    assert (s + rest)[..|s|] == s && (s + rest)[0] == s[0];
    SameFront(s, s + rest);
  }

  lemma WidthPositive(c: Scalar)
    ensures Scalars.Width(c) > 0
  {}

  lemma SplitSix(x: nat, t: nat)
    requires t < 64
    ensures (x * 64 + t) / 64 == x && (x * 64 + t) % 64 == t
  {}

  lemma QuotientTwice(c: nat)
    ensures c / 64 / 64 == c / 4096 && c / 4096 / 64 == c / 262144
  {}

  /** Reassembling six-bit groups. */
  lemma Quads(x: nat, y: nat, z: nat, t: nat, c: nat)
    requires y < 64 && z < 64 && t < 64 && c == ((x * 64 + y) * 64 + z) * 64 + t
    ensures c % 64 == t && c / 64 % 64 == z && c / 4096 % 64 == y && c / 262144 == x
  {
    SplitSix((x * 64 + y) * 64 + z, t);
    SplitSix(x * 64 + y, z);
    SplitSix(x, y);
    QuotientTwice(c);
  }

  lemma RawBack(w: Word)
    requires w != [] && DecodeRaw(w).Some?
    ensures var (c, n) := DecodeRaw(w).value; 0 < n <= |w| && w[..n] == Scalars.Utf8(c)
  {
    var n := LeadWidth(w[0]);
    if n == 4 { RawBack4(w); }
    if n == 3 { RawBack3(w); }
    if n == 2 { RawBack2(w); }
  }

  lemma RawBack4(w: Word)
    requires w != [] && DecodeRaw(w).Some? && LeadWidth(w[0]) == 4
    ensures w[..4] == Scalars.Utf8(DecodeRaw(w).value.0)
  {
    var c := DecodeRaw(w).value.0;
    assert Scalars.IsContinuation(w[1]) && Scalars.IsContinuation(w[2]) && Scalars.IsContinuation(w[3]);
    Quads(w[0] - 0xF0, w[1] - 0x80, w[2] - 0x80, w[3] - 0x80, c);
  }

  lemma RawBack3(w: Word)
    requires w != [] && DecodeRaw(w).Some? && LeadWidth(w[0]) == 3
    ensures w[..3] == Scalars.Utf8(DecodeRaw(w).value.0)
  {
    var c := DecodeRaw(w).value.0;
    assert Scalars.IsContinuation(w[1]) && Scalars.IsContinuation(w[2]);
    Quads(0, w[0] - 0xE0, w[1] - 0x80, w[2] - 0x80, c);
  }

  lemma RawBack2(w: Word)
    requires w != [] && DecodeRaw(w).Some? && LeadWidth(w[0]) == 2
    ensures w[..2] == Scalars.Utf8(DecodeRaw(w).value.0)
  {
    var c := DecodeRaw(w).value.0;
    assert Scalars.IsContinuation(w[1]);
    SplitSix(w[0] - 0xC0, w[1] - 0x80);
  }

  lemma RawDecodes(c: Scalar, s: Word, rest: Word)
    requires IsRaw(s, c)
    ensures s != [] && DecodeOne(s + rest) == Some((c, |s|))
  {
    hide DecodeRaw;
    RawStart(c);
    RawFront(c, rest);
    assert (s + rest)[0] == s[0];
  }

  lemma ShortDecodes(c: Scalar, s: Word, rest: Word)
    requires IsShort(s, c)
    ensures s != [] && DecodeOne(s + rest) == Some((c, |s|))
  {
    var w := s + rest;
    assert w[0] == s[0] && w[1] == s[1];
  }

  lemma EscapeDecodes(c: Scalar, s: Word, rest: Word)
    requires c <= 0xFFFF && IsEscape(s, c)
    ensures s != [] && DecodeOne(s + rest) == Some((c, |s|))
  {
    hide Hex4;
    var w := s + rest;
    UnitAtFront(s, rest);
    assert w[0] == s[0] && w[1] == s[1];
    assert !Scalars.IsSurrogate(c);
    assert !IsHighHalf(c) && !IsLowHalf(c);
  }

  lemma PairDecodes(c: Scalar, s: Word, rest: Word)
    requires IsPair(s, c)
    ensures s != [] && DecodeOne(s + rest) == Some((c, |s|))
  {
    hide Hex4, HighHalf, LowHalf;
    HalvesBack(c);
    var w := s + rest;
    var high, low := s[..6], s[6..];
    assert w == high + (low + rest) && w[6..] == low + rest;
    UnitAtFront(high, low + rest);
    UnitAtFront(low, rest);
    assert w[0] == high[0] && w[1] == high[1];
  }

  /** Whatever follows, a spelling decodes to its character and no further. */
  lemma SpellingDecodes(c: Scalar, s: Word, rest: Word)
    requires IsSpelling(c, s)
    ensures s != [] && DecodeOne(s + rest) == Some((c, |s|))
  {
    hide IsRaw, IsShort, IsEscape, IsPair, DecodeOne;
    if IsRaw(s, c) {
      RawDecodes(c, s, rest);
    } else if IsShort(s, c) {
      ShortDecodes(c, s, rest);
    } else if c <= 0xFFFF && IsEscape(s, c) {
      EscapeDecodes(c, s, rest);
    } else {
      PairDecodes(c, s, rest);
    }
  }

  lemma RawStart(c: Scalar)
    requires c >= 0x20 && c != QUOTE && c != BACKSLASH
    ensures var b := Scalars.Utf8(c)[0]; b != QUOTE && b >= 0x20 && b != BACKSLASH
  {}

  /** What the decoder reads is a spelling of what it returns. */
  lemma DecodedIsSpelling(w: Word)
    requires DecodeOne(w).Some?
    ensures var (c, n) := DecodeOne(w).value; 0 < n <= |w| && IsSpelling(c, w[..n])
  {
    hide Hex4, HexValue;
    if w[0] == BACKSLASH {
      EscapeIsSpelling(w);
    } else {
      RawBack(w);
      RawAbove(w);
    }
  }

  lemma RawAbove(w: Word)
    requires w != [] && w[0] != QUOTE && w[0] != BACKSLASH && w[0] >= 0x20 && DecodeRaw(w).Some?
    ensures var c := DecodeRaw(w).value.0; c >= 0x20 && c != QUOTE && c != BACKSLASH
  {
    RawBack(w);
  }

  lemma EscapeIsSpelling(w: Word)
    requires w != [] && w[0] == BACKSLASH && DecodeEscape(w).Some?
    ensures var (c, n) := DecodeEscape(w).value; 0 < n <= |w| && IsSpelling(c, w[..n])
  {
    hide Hex4, HexValue;
    if w[1] == LETTER_U {
      UnitAtFront(w[..6], w[6..]);
      assert w == w[..6] + w[6..];
      UnitBound(w);
      var u := UnitAt(w).value;
      if IsHighHalf(u) {
        var tail := w[6..];
        UnitAtFront(tail[..6], tail[6..]);
        assert tail == tail[..6] + tail[6..];
        HalvesForth(u, UnitAt(tail).value);
        assert w[..12][..6] == w[..6] && w[..12][6..] == tail[..6];
      }
    }
  }

  /** Spellings form a prefix code: one is a prefix of another only if they are the same spelling of the same
      character. */
  lemma SpellingsPrefixFree(c: Scalar, s: Word, d: Scalar, t: Word)
    requires IsSpelling(c, s) && IsSpelling(d, t) && s <= t
    ensures s == t && c == d
  {
    hide IsSpelling, DecodeOne;
    var rest := t[|s|..];
    assert t == s + rest && t + [] == t;
    SpellingDecodes(c, s, rest);
    SpellingDecodes(d, t, []);
  }

  /** No spelling starts with the closing quote. */
  lemma SpellingsNotQuote(c: Scalar, s: Word)
    requires IsSpelling(c, s)
    ensures s != [] && s[0] != QUOTE
  {
    SpellingDecodes(c, s, []);
    assert s + [] == s;
  }

  /** Reading one spelled character off the front. */
  lemma BodyCons(c: Scalar, s: Word, rest: Word)
    requires IsSpelling(c, s)
    ensures DecodeBody(s + rest) == if DecodeBody(rest).Some? then Some([c] + DecodeBody(rest).value) else None
  {
    hide IsSpelling, DecodeOne;
    SpellingDecodes(c, s, rest);
    assert (s + rest)[|s|..] == rest;
  }
}
