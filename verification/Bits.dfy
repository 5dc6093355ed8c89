/** Single bits of a byte, as the label bitset uses them. */
module Bits {
  import opened Distance
  import opened Quotients

  function Pow2(w: nat): (p: nat)
    ensures p > 0
  {
    if w == 0 then 1 else 2 * Pow2(w - 1)
  }

  /** b & (1 << k) != 0. */
  predicate TestBit(b: nat, k: nat) {
    if k == 0 then b % 2 == 1 else TestBit(b / 2, k - 1)
  }

  /** Bit k is the k-th binary digit. */
  lemma {:induction false} TestBitIsDigit(b: nat, k: nat)
    ensures TestBit(b, k) <==> (b / Pow2(k)) % 2 == 1
  {
    if k > 0 {
      TestBitIsDigit(b / 2, k - 1);
      QuotientTwice(b, 2, Pow2(k - 1));
    }
  }

  /** b | (1 << k). */
  function OrBit(b: nat, k: nat): nat {
    if k == 0 then b - b % 2 + 1 else 2 * OrBit(b / 2, k - 1) + b % 2
  }

  /** b &^ (1 << k). */
  function AndNotBit(b: nat, k: nat): nat {
    if k == 0 then b - b % 2 else 2 * AndNotBit(b / 2, k - 1) + b % 2
  }

  lemma {:induction false} OrBitFits(b: nat, k: nat, w: nat)
    requires b < Pow2(w) && k < w
    ensures OrBit(b, k) < Pow2(w)
  {
    if k > 0 {
      OrBitFits(b / 2, k - 1, w - 1);
    }
  }

  lemma {:induction false} AndNotBitFits(b: nat, k: nat)
    ensures AndNotBit(b, k) <= b
  {
    if k > 0 {
      AndNotBitFits(b / 2, k - 1);
    }
  }

  /** Setting bit k makes it one and leaves the others. */
  lemma {:induction false} OrBitBits(b: nat, k: nat, j: nat)
    ensures TestBit(OrBit(b, k), j) <==> j == k || TestBit(b, j)
  {
    if j > 0 && k > 0 {
      OrBitBits(b / 2, k - 1, j - 1);
    }
  }

  /** Clearing bit k makes it zero and leaves the others. */
  lemma {:induction false} AndNotBitBits(b: nat, k: nat, j: nat)
    ensures TestBit(AndNotBit(b, k), j) <==> j != k && TestBit(b, j)
  {
    if j > 0 && k > 0 {
      AndNotBitBits(b / 2, k - 1, j - 1);
    }
  }

  function SetBit(b: Byte, k: nat): Byte
    requires k < 8
  {
    OrBitFits(b, k, 8);
    OrBit(b, k)
  }

  function ClearBit(b: Byte, k: nat): Byte
    requires k < 8
  {
    AndNotBitFits(b, k);
    AndNotBit(b, k)
  }

  lemma {:induction false} ZeroHasNoBits(j: nat)
    ensures !TestBit(0, j)
  {
    if j > 0 {
      ZeroHasNoBits(j - 1);
    }
  }

  /** A number of w bits is determined by its bits. */
  lemma {:induction false} SameBits(x: nat, y: nat, w: nat)
    requires x < Pow2(w) && y < Pow2(w) && forall j: nat :: j < w ==> (TestBit(x, j) <==> TestBit(y, j))
    ensures x == y
  {
    if w > 0 {
      assert TestBit(x, 0) <==> TestBit(y, 0);
      forall j: nat | j < w - 1 ensures TestBit(x / 2, j) <==> TestBit(y / 2, j) {
        assert TestBit(x, j + 1) <==> TestBit(y, j + 1);
      }
      SameBits(x / 2, y / 2, w - 1);
    }
  }
}
