/** Fixed-width bit sets as the naturals their words hold: `Bit` reads one bit, `SetBit` ors one in,
    `And` is the bitwise conjunction. */
module Bits {

  predicate Bit(m: nat, i: nat) {
    if i == 0 then m % 2 == 1 else Bit(m / 2, i - 1)
  }

  function SetBit(m: nat, i: nat): (r: nat) {
    if i == 0 then m - m % 2 + 1 else m % 2 + 2 * SetBit(m / 2, i - 1)
  }

  function And(a: nat, b: nat): (r: nat)
    decreases a
  {
    if a == 0 || b == 0 then 0
    else (a % 2) * (b % 2) + 2 * And(a / 2, b / 2)
  }

  function Pow2(k: nat): (p: nat)
    ensures p >= 1
  {
    if k == 0 then 1 else 2 * Pow2(k - 1)
  }

  lemma Pow2Of8()
    ensures Pow2(8) == 256
  {
    assert Pow2(4) == 16;
  }

  lemma {:induction false} Pow2Grows(m: nat, n: nat)
    requires m <= n
    ensures Pow2(m) <= Pow2(n)
    decreases n - m
  {
    if m < n { Pow2Grows(m, n - 1); }
  }

  lemma {:induction false} BitOfSetBit(m: nat, i: nat, j: nat)
    ensures Bit(SetBit(m, i), j) <==> i == j || Bit(m, j)
  {
    if i == 0 {
      assert SetBit(m, 0) / 2 == m / 2;
    } else {
      var r := SetBit(m / 2, i - 1);
      assert SetBit(m, i) % 2 == m % 2 && SetBit(m, i) / 2 == r;
      if j != 0 { BitOfSetBit(m / 2, i - 1, j - 1); }
    }
  }

  lemma {:induction false} ZeroHasNoBit(i: nat)
    ensures !Bit(0, i)
  {
    if i != 0 { ZeroHasNoBit(i - 1); }
  }

  lemma {:induction false} NonzeroHasBit(m: nat) returns (i: nat)
    requires m != 0
    ensures Bit(m, i)
    decreases m
  {
    if m % 2 == 1 {
      i := 0;
    } else {
      var j := NonzeroHasBit(m / 2);
      i := j + 1;
    }
  }

  lemma {:induction false} BitOfAnd(a: nat, b: nat, i: nat)
    ensures Bit(And(a, b), i) <==> Bit(a, i) && Bit(b, i)
    decreases i
  {
    if a == 0 || b == 0 {
      ZeroHasNoBit(i);
    } else {
      var r := And(a / 2, b / 2);
      assert (a % 2) * (b % 2) == if a % 2 == 1 && b % 2 == 1 then 1 else 0;
      assert And(a, b) / 2 == r;
      if i != 0 { BitOfAnd(a / 2, b / 2, i - 1); }
    }
  }

  /** A bit set is determined by its bits. */
  lemma {:induction false} SameBitsSameSet(a: nat, b: nat)
    requires forall i: nat :: Bit(a, i) <==> Bit(b, i)
    ensures a == b
    decreases a + b
  {
    if a == 0 && b == 0 {
    } else {
      assert Bit(a, 0) <==> Bit(b, 0);
      forall i: nat ensures Bit(a / 2, i) <==> Bit(b / 2, i) {
        assert Bit(a, i + 1) <==> Bit(b, i + 1);
      }
      SameBitsSameSet(a / 2, b / 2);
    }
  }

  ghost predicate Included(need: nat, have: nat) {
    forall i: nat {:induction false} :: Bit(need, i) ==> Bit(have, i)
  }

  /** The test `have & need == need` asks for inclusion. */
  lemma {:induction false} CoversIsInclusion(have: nat, need: nat)
    ensures And(have, need) == need <==> Included(need, have)
  {
    if And(have, need) == need {
      forall i: nat | Bit(need, i) ensures Bit(have, i) { BitOfAnd(have, need, i); }
    }
    if Included(need, have) {
      forall i: nat ensures Bit(And(have, need), i) <==> Bit(need, i) { BitOfAnd(have, need, i); }
      SameBitsSameSet(And(have, need), need);
    }
  }

  /** Oring in a bit below the width stays inside the width. */
  lemma {:induction false} SetBitFits(m: nat, i: nat, width: nat)
    requires m < Pow2(width) && i < width
    ensures SetBit(m, i) < Pow2(width)
  {
    assert Pow2(width) == 2 * Pow2(width - 1);
    assert m / 2 < Pow2(width - 1);
    if i == 0 {
      assert m - m % 2 == 2 * (m / 2);
    } else {
      SetBitFits(m / 2, i - 1, width - 1);
    }
  }

  lemma {:induction false} BitBelowWidth(m: nat, i: nat, width: nat)
    requires m < Pow2(width) && Bit(m, i)
    ensures i < width
  {
    if width == 0 {
      ZeroHasNoBit(i);
    } else if i != 0 {
      assert m / 2 < Pow2(width - 1);
      BitBelowWidth(m / 2, i - 1, width - 1);
    }
  }

  /** `m >> k`. */
  function ShiftRight(m: nat, k: nat): nat
    decreases k
  {
    if k == 0 then m else ShiftRight(m / 2, k - 1)
  }

  /** The low `width` bits. */
  function Low(m: nat, width: nat): (r: nat)
    ensures r < Pow2(width)
    decreases width
  {
    if width == 0 then 0 else m % 2 + 2 * Low(m / 2, width - 1)
  }

  lemma {:induction false} BitOfShift(m: nat, k: nat, i: nat)
    ensures Bit(ShiftRight(m, k), i) <==> Bit(m, k + i)
    decreases k
  {
    if k > 0 { BitOfShift(m / 2, k - 1, i); }
  }

  lemma {:induction false} BitOfLow(m: nat, width: nat, j: nat)
    ensures Bit(Low(m, width), j) <==> j < width && Bit(m, j)
    decreases width
  {
    if width == 0 {
      ZeroHasNoBit(j);
    } else {
      var r := Low(m / 2, width - 1);
      assert Low(m, width) % 2 == m % 2 && Low(m, width) / 2 == r;
      if j > 0 { BitOfLow(m / 2, width - 1, j - 1); }
    }
  }
}
