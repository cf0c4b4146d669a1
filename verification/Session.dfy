/** One generation sequence over the regular backend (api.rs, runtime/mod.rs, mask/bitmask.rs): the mask
    tells exactly which tokens `advance` would take. */
module Session {
  import opened Outcome
  import opened Languages
  import opened Engine
  import Bits

  /** Token bytes and the ids that stand for them. */
  datatype Record = Record(bytes: Word, ids: seq<nat>)

  datatype Artifact = Artifact(engine: RefEngine, records: seq<Record>, eos: nat, maskVocabSize: nat)
  {
    ghost predicate Ok() {
      engine.Valid() && eos < maskVocabSize
    }

    /** No id stands for two different byte strings. */
    ghost predicate Unambiguous() {
      forall i, id :: 0 <= i < |records| && id in records[i].ids ==> BytesOf(records, id) == Some(records[i].bytes)
    }

    /** The end-of-sequence id is not an ordinary token. */
    ghost predicate EosApart() {
      forall i :: 0 <= i < |records| ==> eos !in records[i].ids
    }
  }

  /** The bytes of an id: those of the first record that lists it. */
  function BytesOf(records: seq<Record>, id: nat): Option<Word> {
    if records == [] then None
    else if id in records[0].ids then Some(records[0].bytes)
    else BytesOf(records[1..], id)
  }

  lemma {:induction false} BytesOfIsRecord(records: seq<Record>, id: nat)
    ensures BytesOf(records, id).None? ==> forall i :: 0 <= i < |records| ==> id !in records[i].ids
    ensures BytesOf(records, id).Some? ==>
              exists i :: 0 <= i < |records| && id in records[i].ids && records[i].bytes == BytesOf(records, id).value
  {
    if records != [] && id !in records[0].ids {
      BytesOfIsRecord(records[1..], id);
      if BytesOf(records, id).Some? {
        var i :| 0 <= i < |records[1..]| && id in records[1..][i].ids && records[1..][i].bytes == BytesOf(records, id).value;
        assert id in records[i + 1].ids;
      }
    }
  }

  // --- positions: what a session is, apart from its object -----------------------------------------------------------

  datatype Lifecycle = Active | Stopped

  datatype Position = Position(state: nat, lifecycle: Lifecycle, committed: Word)

  function Start(a: Artifact): Position {
    Position(a.engine.start, Active, [])
  }

  /** The tokens `advance` takes. */
  predicate Legal(a: Artifact, p: Position, token: nat) {
    && p.lifecycle == Active
    && if token == a.eos then a.engine.table.IsAccepting(p.state)
       else BytesOf(a.records, token).Some? && a.engine.Consumed(p.state, BytesOf(a.records, token).value).Some?
  }

  /** A token is committed whole or not at all. */
  function Advanced(a: Artifact, p: Position, token: nat): Position {
    if !Legal(a, p, token) then p
    else if token == a.eos then p.(lifecycle := Stopped)
    else
      var bytes := BytesOf(a.records, token).value;
      Position(a.engine.Consumed(p.state, bytes).value, Active, p.committed + bytes)
  }

  function Run(a: Artifact, p: Position, tokens: seq<nat>): Position
    decreases |tokens|
  {
    if tokens == [] then p else Run(a, Advanced(a, p, tokens[0]), tokens[1..])
  }

  /** What holds of a position after every run from the start. */
  ghost predicate Sound(a: Artifact, p: Position) {
    && p.state == a.engine.table.Walk(a.engine.start, p.committed) && p.state < a.engine.StateCount()
    && (p.lifecycle == Stopped ==> p.committed in a.engine.Language())
    && (a.engine.start != DEAD ==> p.state != DEAD)
  }

  lemma AdvancedSound(a: Artifact, p: Position, token: nat)
    requires a.Ok() && Sound(a, p)
    ensures Sound(a, Advanced(a, p, token))
  {
    if Legal(a, p, token) && token != a.eos {
      var bytes := BytesOf(a.records, token).value;
      a.engine.table.WalkAppend(a.engine.start, p.committed, bytes);
      a.engine.table.WalkInRange(a.engine.start, p.committed + bytes);
    }
  }

  lemma {:induction false} RunSound(a: Artifact, p: Position, tokens: seq<nat>)
    requires a.Ok() && Sound(a, p)
    ensures Sound(a, Run(a, p, tokens))
    decreases |tokens|
  {
    hide Sound, Advanced, Artifact.Ok;
    if tokens != [] {
      AdvancedSound(a, p, tokens[0]);
      RunSound(a, Advanced(a, p, tokens[0]), tokens[1..]);
    }
  }

  /** After any run whatsoever the committed bytes still extend to a valid instance, unless nothing is valid
      at all; a stopped session has committed a valid instance. */
  lemma CommittedExtends(a: Artifact, tokens: seq<nat>)
    requires a.Ok() && a.engine.Language() != NOTHING
    ensures var p := Run(a, Start(a), tokens);
            && (exists v :: p.committed + v in a.engine.Language())
            && (p.lifecycle == Stopped ==> p.committed in a.engine.Language())
  {
    hide Run, Advanced;
    StartSound(a);
    RunSound(a, Start(a), tokens);
    var p := Run(a, Start(a), tokens);
    a.engine.table.AliveIffExtendable(a.engine.start, p.committed);
    var v :| a.engine.table.Accepts(a.engine.start, p.committed + v);
    assert p.committed + v in a.engine.Language();
  }

  lemma StartSound(a: Artifact)
    requires a.Ok()
    ensures Sound(a, Start(a))
    ensures a.engine.Language() == NOTHING <==> a.engine.start == DEAD
  {
    DeadIffEmpty(a.engine, a.engine.start);
  }

  /** Stopped is absorbing. */
  lemma {:induction false} StoppedStays(a: Artifact, p: Position, tokens: seq<nat>)
    requires p.lifecycle == Stopped
    ensures Run(a, p, tokens) == p
    decreases |tokens|
  {
    if tokens != [] { StoppedStays(a, p, tokens[1..]); }
  }

  /** The bytes of a list of ordinary tokens. */
  function Spelled(a: Artifact, tokens: seq<nat>): Option<Word> {
    if tokens == [] then Some([])
    else if tokens[0] == a.eos || BytesOf(a.records, tokens[0]).None? || Spelled(a, tokens[1..]).None? then None
    else Some(BytesOf(a.records, tokens[0]).value + Spelled(a, tokens[1..]).value)
  }

  ghost predicate AllLegal(a: Artifact, p: Position, tokens: seq<nat>)
    decreases |tokens|
  {
    tokens == [] || (Legal(a, p, tokens[0]) && AllLegal(a, Advanced(a, p, tokens[0]), tokens[1..]))
  }

  lemma {:induction false} AllLegalWalk(a: Artifact, p: Position, tokens: seq<nat>)
    requires a.Ok() && Sound(a, p) && p.lifecycle == Active && p.state != DEAD && Spelled(a, tokens).Some?
    ensures AllLegal(a, p, tokens) <==> a.engine.table.Walk(p.state, Spelled(a, tokens).value) != DEAD
    decreases |tokens|
  {
    hide RefEngine.Valid, RefEngine.Language, Sound;
    if tokens != [] {
      var bytes, rest := BytesOf(a.records, tokens[0]).value, Spelled(a, tokens[1..]).value;
      a.engine.table.WalkAppend(p.state, bytes, rest);
      if Legal(a, p, tokens[0]) {
        AdvancedSound(a, p, tokens[0]);
        AllLegalWalk(a, Advanced(a, p, tokens[0]), tokens[1..]);
      } else {
        DeadWalk(a, rest);
      }
    }
  }

  lemma DeadWalk(a: Artifact, w: Word)
    requires a.Ok()
    ensures a.engine.table.Walk(DEAD, w) == DEAD
  {
    a.engine.table.DeadIsSink(w);
  }

  /** A list of ordinary tokens is committed in full exactly when its bytes begin some valid instance. */
  lemma CommitsExactlyPrefixes(a: Artifact, tokens: seq<nat>)
    requires a.Ok() && a.engine.Language() != NOTHING && Spelled(a, tokens).Some?
    ensures AllLegal(a, Start(a), tokens) <==> exists v :: Spelled(a, tokens).value + v in a.engine.Language()
  {
    hide AllLegal, Spelled;
    StartSound(a);
    AllLegalWalk(a, Start(a), tokens);
    var u := Spelled(a, tokens).value;
    a.engine.table.AliveIffExtendable(a.engine.start, u);
    if v :| a.engine.table.Accepts(a.engine.start, u + v) { assert u + v in a.engine.Language(); }
    if v :| u + v in a.engine.Language() { assert a.engine.table.Accepts(a.engine.start, u + v); }
  }

  // --- masks -----------------------------------------------------------------------------------------------------------

  const WORD_BITS: nat := 32

  function DivCeil(n: nat, d: nat): nat
    requires d > 0
  {
    (n + d - 1) / d
  }

  /** Allowed tokens packed into 32-bit words. */
  datatype Bitmask = Bitmask(words: seq<nat>, vocabSize: nat)
  {
    ghost predicate Ok() {
      |words| == DivCeil(vocabSize, WORD_BITS) && forall i :: 0 <= i < |words| ==> words[i] < Bits.Pow2(32)
    }

    predicate Has(id: nat) {
      id / WORD_BITS < |words| && Bits.Bit(words[id / WORD_BITS], id % WORD_BITS)
    }

    function Set(id: nat): Option<Bitmask> {
      if id >= vocabSize || id / WORD_BITS >= |words| then None
      else Some(Bitmask(words[id / WORD_BITS := Bits.SetBit(words[id / WORD_BITS], id % WORD_BITS)], vocabSize))
    }
  }

  function Zeros(vocabSize: nat): Bitmask {
    Bitmask(seq(DivCeil(vocabSize, WORD_BITS), _ => 0), vocabSize)
  }

  lemma InsideWord(id: nat, size: nat)
    requires id < size
    ensures id / WORD_BITS < DivCeil(size, WORD_BITS)
  {}

  lemma SetGets(m: Bitmask, id: nat)
    requires m.Ok() && id < m.vocabSize
    ensures m.Set(id).Some? && m.Set(id).value.Ok() && m.Set(id).value.vocabSize == m.vocabSize
    ensures forall k: nat :: m.Set(id).value.Has(k) <==> k == id || m.Has(k)
  {
    hide Bits.Bit, Bits.SetBit, Bits.Pow2;
    InsideWord(id, m.vocabSize);
    Bits.SetBitFits(m.words[id / WORD_BITS], id % WORD_BITS, 32);
    var r := m.Set(id).value;
    forall k: nat ensures r.Has(k) <==> k == id || m.Has(k) {
      if k / WORD_BITS == id / WORD_BITS {
        Bits.BitOfSetBit(m.words[id / WORD_BITS], id % WORD_BITS, k % WORD_BITS);
        assert k == id <==> k % WORD_BITS == id % WORD_BITS;
      }
    }
  }

  lemma ZerosGet(size: nat)
    ensures Zeros(size).Ok() && forall k: nat :: !Zeros(size).Has(k)
  {
    hide Bits.Bit, Bits.Pow2;
    assert Bits.Pow2(32) >= 1;
    forall k: nat ensures !Bits.Bit(0, k % WORD_BITS) { Bits.ZeroHasNoBit(k % WORD_BITS); }
  }

  /** Some record whose bytes are consumable lists the id. */
  ghost predicate Offered(a: Artifact, s: nat, records: seq<Record>, id: nat) {
    exists i :: 0 <= i < |records| && id in records[i].ids && a.engine.Consumed(s, records[i].bytes).Some?
  }

  ghost predicate OfferedTooLarge(a: Artifact, s: nat, size: nat) {
    exists id: nat :: Offered(a, s, a.records, id) && id >= size
  }

  method AddIds(mask0: Bitmask, ids: seq<nat>) returns (mask: Option<Bitmask>)
    requires mask0.Ok()
    ensures mask.Some? ==> mask.value.Ok() && mask.value.vocabSize == mask0.vocabSize
    ensures mask.Some? ==> forall k: nat :: mask.value.Has(k) <==> mask0.Has(k) || k in ids
    ensures mask.None? <==> exists k :: k in ids && k >= mask0.vocabSize
  {
    hide Bitmask.Ok, Bitmask.Has, Bitmask.Set;
    mask := Some(mask0);
    for i := 0 to |ids|
      invariant mask.Some? && mask.value.Ok() && mask.value.vocabSize == mask0.vocabSize
      invariant forall k: nat :: mask.value.Has(k) <==> mask0.Has(k) || k in ids[..i]
      invariant forall j :: 0 <= j < i ==> ids[j] < mask0.vocabSize
    {
      if ids[i] >= mask0.vocabSize {
        assert ids[i] in ids;
        SetRefused(mask.value, ids[i]);
        return mask.value.Set(ids[i]);
      }
      SetGets(mask.value, ids[i]);
      assert ids[..i + 1] == ids[..i] + [ids[i]];
      mask := mask.value.Set(ids[i]);
    }
    assert ids[..|ids|] == ids;
  }

  lemma SetRefused(m: Bitmask, id: nat)
    requires id >= m.vocabSize
    ensures m.Set(id).None?
  {}

  /** `allowed_tokens_from_records`: exactly the ids of the consumable records. */
  method AllowedTokens(a: Artifact, s: nat) returns (mask: Option<Bitmask>)
    requires a.Ok()
    ensures mask.None? <==> OfferedTooLarge(a, s, a.maskVocabSize)
    ensures mask.Some? ==> mask.value.Ok() && mask.value.vocabSize == a.maskVocabSize
    ensures mask.Some? ==> forall id: nat :: mask.value.Has(id) <==> Offered(a, s, a.records, id)
  {
    hide Bitmask.Ok, Bitmask.Has, RefEngine.Valid, RefEngine.Consumed;
    ZerosGet(a.maskVocabSize);
    mask := Some(Zeros(a.maskVocabSize));
    for i := 0 to |a.records|
      invariant mask.Some? && mask.value.Ok() && mask.value.vocabSize == a.maskVocabSize
      invariant forall id: nat :: mask.value.Has(id) <==> Offered(a, s, a.records[..i], id)
      invariant forall id: nat :: Offered(a, s, a.records[..i], id) ==> id < a.maskVocabSize
    {
      var record := a.records[i];
      forall id: nat { OfferedStep(a, s, i, id); }
      var consumed := a.engine.ConsumeToken(s, record.bytes);
      if consumed.Some? {
        mask := AddIds(mask.value, record.ids);
        if mask.None? {
          OfferedAll(a, s, i + 1);
          return;
        }
      }
    }
    assert a.records[..|a.records|] == a.records;
  }

  lemma OfferedStep(a: Artifact, s: nat, i: nat, id: nat)
    requires i < |a.records|
    ensures Offered(a, s, a.records[..i + 1], id) <==>
              Offered(a, s, a.records[..i], id)
              || (id in a.records[i].ids && a.engine.Consumed(s, a.records[i].bytes).Some?)
  {
    hide RefEngine.Consumed;
    var more, fewer := a.records[..i + 1], a.records[..i];
    if j :| 0 <= j < |fewer| && id in fewer[j].ids && a.engine.Consumed(s, fewer[j].bytes).Some? {
      assert more[j] == fewer[j];
    }
    if id in a.records[i].ids && a.engine.Consumed(s, a.records[i].bytes).Some? { assert more[i] == a.records[i]; }
  }

  lemma OfferedAll(a: Artifact, s: nat, i: nat)
    requires i <= |a.records|
    ensures forall id: nat :: Offered(a, s, a.records[..i], id) ==> Offered(a, s, a.records, id)
  {
    hide RefEngine.Consumed;
    forall id: nat | Offered(a, s, a.records[..i], id) ensures Offered(a, s, a.records, id) {
      var j :| 0 <= j < i && id in a.records[..i][j].ids && a.engine.Consumed(s, a.records[..i][j].bytes).Some?;
      assert a.records[j] == a.records[..i][j];
    }
  }

  /** On an unambiguous vocabulary the offered ids are the legal ordinary tokens. */
  lemma OfferedIsLegal(a: Artifact, p: Position, id: nat)
    requires a.Unambiguous() && p.lifecycle == Active && id != a.eos
    ensures Offered(a, p.state, a.records, id) <==> Legal(a, p, id)
  {
    hide RefEngine.Consumed;
    BytesOfIsRecord(a.records, id);
  }

  // --- packed bytes ------------------------------------------------------------------------------------------------------

  predicate BitAt(bytes: seq<Byte>, id: nat) {
    id / 8 < |bytes| && Bits.Bit(bytes[id / 8], id % 8)
  }

  lemma ByteBits(b: Byte, i: nat)
    requires i < 8
    ensures Bits.SetBit(b, i) < 256
  {
    Bits.Pow2Of8();
    Bits.SetBitFits(b, i, 8);
  }

  /** `set_bit_le`. */
  method SetBitLe(mask: array<Byte>, id: nat)
    requires id / 8 < mask.Length
    modifies mask
    ensures forall k: nat :: BitAt(mask[..], k) <==> k == id || BitAt(old(mask[..]), k)
  {
    hide Bits.SetBit, Bits.Bit;
    var b := mask[id / 8];
    ByteBits(b, id % 8);
    mask[id / 8] := Bits.SetBit(b, id % 8);
    forall k: nat ensures BitAt(mask[..], k) <==> k == id || BitAt(old(mask[..]), k) {
      if k / 8 == id / 8 {
        Bits.BitOfSetBit(b, id % 8, k % 8);
        assert k == id <==> k % 8 == id % 8;
      }
    }
  }

  /** Byte `k` of a word, least significant first. */
  function ByteOf(word: nat, k: nat): Byte
    requires k < 4
  {
    Bits.Pow2Of8();
    Bits.Low(Bits.ShiftRight(word, 8 * k), 8)
  }

  lemma ByteOfBits(word: nat, k: nat, j: nat)
    requires k < 4 && j < 8
    ensures Bits.Bit(ByteOf(word, k), j) <==> Bits.Bit(word, 8 * k + j)
  {
    hide Bits.Bit, Bits.Low, Bits.ShiftRight;
    Bits.Pow2Of8();
    Bits.BitOfLow(Bits.ShiftRight(word, 8 * k), 8, j);
    Bits.BitOfShift(word, 8 * k, j);
  }

  lemma BytePosition(id: nat)
    ensures id / 8 / 4 == id / WORD_BITS && 8 * (id / 8 % 4) + id % 8 == id % WORD_BITS
  {}

  /** The words written out as little-endian bytes hold the same bits. */
  method WriteWords(mask: Bitmask, out: array<Byte>)
    requires out.Length == 4 * |mask.words|
    modifies out
    ensures forall id: nat :: BitAt(out[..], id) <==> mask.Has(id)
  {
    hide Bits.Bit, ByteOf;
    for at := 0 to out.Length
      invariant forall i :: 0 <= i < at ==> out[i] == ByteOf(mask.words[i / 4], i % 4)
    {
      out[at] := ByteOf(mask.words[at / 4], at % 4);
    }
    forall id: nat ensures BitAt(out[..], id) <==> mask.Has(id) {
      BytePosition(id);
      if id / 8 < out.Length { ByteOfBits(mask.words[id / WORD_BITS], id / 8 % 4, id % 8); }
    }
  }

  // --- the session object ------------------------------------------------------------------------------------------------

  datatype Reply = Taken | SessionStopped | IllegalToken(token: nat)

  datatype MaskReply = Written | WrongLength(expected: nat, actual: nat) | OutOfBounds

  class Session {
    const artifact: Artifact
    var state: nat
    var bytesSeen: nat
    var lifecycle: Lifecycle
    ghost var committed: Word

    ghost function Pos(): Position
      reads this
    {
      Position(state, lifecycle, committed)
    }

    ghost predicate Valid()
      reads this
    {
      artifact.Ok() && Sound(artifact, Pos()) && bytesSeen == |committed|
    }

    constructor (a: Artifact)
      requires a.Ok()
      ensures Valid() && artifact == a && Pos() == Start(a)
    {
      artifact := a;
      state, bytesSeen, lifecycle, committed := a.engine.start, 0, Active, [];
      StartSound(a);
    }

    predicate IsAccepting()
      reads this
    {
      artifact.engine.table.IsAccepting(state)
    }

    /** `advance`: a legal token is committed whole, any other leaves the session exactly as it was. */
    method Advance(token: nat) returns (r: Reply)
      requires Valid()
      modifies this
      ensures Valid() && Pos() == Advanced(artifact, old(Pos()), token)
      ensures r.Taken? <==> Legal(artifact, old(Pos()), token)
      ensures r.SessionStopped? <==> old(lifecycle) == Stopped
      ensures r.IllegalToken? ==> r.token == token
    {
      hide Artifact.Ok, Sound, RefEngine.Consumed;
      AdvancedSound(artifact, Pos(), token);
      if lifecycle == Stopped { return SessionStopped; }
      if token == artifact.eos {
        if !IsAccepting() { return IllegalToken(token); }
        lifecycle := Stopped;
        return Taken;
      }
      var bytes := BytesOf(artifact.records, token);
      if bytes.None? { return IllegalToken(token); }
      EngineValid(artifact);
      var next := artifact.engine.ConsumeToken(state, bytes.value);
      if next.None? { return IllegalToken(token); }
      state, bytesSeen, committed := next.value, bytesSeen + |bytes.value|, committed + bytes.value;
      r := Taken;
    }

    /** `reset`. */
    method Reset()
      requires Valid()
      modifies this
      ensures Valid() && Pos() == Start(artifact)
    {
      StartSound(artifact);
      state, bytesSeen, lifecycle, committed := artifact.engine.start, 0, Active, [];
    }

    /** `write_mask_le_bytes`. A buffer of the wrong length is left alone; an id beyond the mask leaves it zeroed. */
    method WriteMaskLeBytes(out: array<Byte>) returns (r: MaskReply)
      requires Valid()
      modifies out
      ensures r.WrongLength? <==> out.Length != 4 * DivCeil(artifact.maskVocabSize, WORD_BITS)
      ensures r.WrongLength? ==> out[..] == old(out[..])
      ensures r.OutOfBounds? ==> forall id: nat :: !BitAt(out[..], id)
      ensures r.OutOfBounds? ==> lifecycle == Active && OfferedTooLarge(artifact, state, artifact.maskVocabSize)
      ensures r.Written? && lifecycle == Stopped ==> forall id: nat :: BitAt(out[..], id) <==> id == artifact.eos
      ensures r.Written? && lifecycle == Active ==> forall id: nat ::
                BitAt(out[..], id) <==> MaskBit(artifact, Pos(), id)
    {
      hide RefEngine.Valid, Offered, BitAt, Sound, Bitmask.Has;
      var expected := 4 * DivCeil(artifact.maskVocabSize, WORD_BITS);
      if out.Length != expected { return WrongLength(expected, out.Length); }
      EosInside(artifact);
      ZeroFill(out);
      if lifecycle == Stopped {
        SetBitLe(out, artifact.eos);
        return Written;
      }
      var mask := AllowedTokens(artifact, state);
      if mask.None? { return OutOfBounds; }
      WriteWords(mask.value, out);
      if IsAccepting() { SetBitLe(out, artifact.eos); }
      r := Written;
    }
  }

  lemma EngineValid(a: Artifact)
    requires a.Ok()
    ensures a.engine.Valid()
  {}

  lemma EosInside(a: Artifact)
    requires a.Ok()
    ensures a.eos / 8 < 4 * DivCeil(a.maskVocabSize, WORD_BITS)
  {}

  method ZeroFill(out: array<Byte>)
    modifies out
    ensures forall id: nat :: !BitAt(out[..], id)
  {
    hide Bits.Bit;
    for i := 0 to out.Length
      invariant forall k :: 0 <= k < i ==> out[k] == 0
    {
      out[i] := 0;
    }
    forall id: nat ensures !BitAt(out[..], id) { Bits.ZeroHasNoBit(id % 8); }
  }

  /** The bit a successful write sets for an id in an active session. */
  ghost predicate MaskBit(a: Artifact, p: Position, id: nat) {
    Offered(a, p.state, a.records, id) || (id == a.eos && a.engine.table.IsAccepting(p.state))
  }

  /** The contract of the README: the mask bit of a token is set exactly when `advance` would take it. Vocabularies
      keep the end-of-sequence id out of the ordinary tokens (vocab/vocabulary.rs:181-182, 302-303, 328-329), which
      is the condition. */
  lemma MaskIsAdvance(a: Artifact, p: Position, id: nat)
    requires a.Unambiguous() && p.lifecycle == Active
    ensures a.EosApart() ==> (MaskBit(a, p, id) <==> Legal(a, p, id))
  {
    MaskWithoutGuard(a, p, id);
  }

  /** What that guard buys: without it the two would part exactly on an end-of-sequence id whose ordinary bytes are
      consumable where nothing is complete yet. */
  lemma MaskWithoutGuard(a: Artifact, p: Position, id: nat)
    requires a.Unambiguous() && p.lifecycle == Active
    ensures (MaskBit(a, p, id) <==> Legal(a, p, id)) <==>
              !(id == a.eos && Offered(a, p.state, a.records, id) && !a.engine.table.IsAccepting(p.state))
  {
    hide Artifact.Unambiguous, RefEngine.Consumed;
    if id != a.eos { OfferedIsLegal(a, p, id); }
  }

  /** Some guard is needed: a vocabulary that lists the end-of-sequence id under the bytes of an instance offers it
      at a start that is not accepting. */
  lemma GuardNeeded(e: RefEngine, w: Word, other: nat, eos: nat) returns (a: Artifact)
    requires e.Valid() && w in e.Language() && !e.table.IsAccepting(e.start) && other != eos
    ensures a.engine == e && a.records == [Record(w, [other, eos])] && a.eos == eos && a.Ok()
    ensures a.Unambiguous() && !a.EosApart()
    ensures MaskBit(a, Start(a), eos) && !Legal(a, Start(a), eos)
  {
    hide RefEngine.Valid;
    a := Artifact(e, [Record(w, [other, eos])], eos, eos + 1);
    assert a.records[0].ids == [other, eos] && eos in a.records[0].ids;
    assert BytesOf(a.records, eos) == Some(w) && BytesOf(a.records, other) == Some(w);
    AcceptedConsumable(e, w);
  }

  lemma AcceptedConsumable(e: RefEngine, w: Word)
    requires e.Valid() && w in e.Language()
    ensures e.Consumed(e.start, w).Some?
  {
    StartInRange(e);
    AcceptedEnd(e, e.start, w);
  }
}
