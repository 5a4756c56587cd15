/** Single bits of 64-bit words. */
module BitWords {
  import opened BitStream

  /** A 64-bit word, held as its unsigned value. */
  type Word64 = w: int | 0 <= w < 0x1_0000_0000_0000_0000

  function Bit(w: nat, i: nat): bool {
    if i == 0 then w % 2 == 1 else Bit(w / 2, i - 1)
  }

  /** The word with a bit set or cleared, the bits below it kept. */
  function WithBit(w: nat, i: nat, b: bool): nat {
    if i == 0 then w - w % 2 + (if b then 1 else 0) else w % 2 + 2 * WithBit(w / 2, i - 1, b)
  }

  lemma {:induction false} BitOfWithBit(w: nat, i: nat, b: bool, j: nat)
    ensures Bit(WithBit(w, i, b), j) == if i == j then b else Bit(w, j)
  {
    if i == 0 {
      assert WithBit(w, 0, b) / 2 == w / 2;
    } else {
      assert WithBit(w, i, b) / 2 == WithBit(w / 2, i - 1, b);
      if j > 0 { BitOfWithBit(w / 2, i - 1, b, j - 1); }
    }
  }

  lemma {:induction false} WithBitFits(w: nat, i: nat, b: bool, n: nat)
    requires i < n && w < Pow2(n)
    ensures WithBit(w, i, b) < Pow2(n)
  {
    assert Pow2(n) == 2 * Pow2(n - 1);
    if i > 0 {
      WithBitFits(w / 2, i - 1, b, n - 1);
      assert WithBit(w, i, b) == w % 2 + 2 * WithBit(w / 2, i - 1, b);
    }
  }

  lemma {:induction false} WordPower()
    ensures Pow2(64) == 0x1_0000_0000_0000_0000
  {
    Pow2Eight();
    Pow2Sum(8, 8);
    Pow2Sum(16, 16);
    Pow2Sum(32, 32);
  }

  method SetBit(w: Word64, i: nat, b: bool) returns (r: Word64)
    requires i < 64
    ensures forall j: nat :: Bit(r, j) == if i == j then b else Bit(w, j)
  {
    WordPower();
    WithBitFits(w, i, b, 64);
    r := WithBit(w, i, b);
    forall j: nat ensures Bit(r, j) == if i == j then b else Bit(w, j) {
      BitOfWithBit(w, i, b, j);
    }
  }
}
