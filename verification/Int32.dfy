/** Two's-complement 32-bit arithmetic on words (section 4.3.2 of the WebAssembly
    Core Specification). */
module Int32 {
  import opened Bytes

  const MODULUS := 0x1_0000_0000

  function Wrap(x: int): Word { x % MODULUS }

  function Signed(w: Word): int { if w < 0x8000_0000 then w else w - MODULUS }

  predicate FitsI32(x: int) { -0x8000_0000 <= x < 0x8000_0000 }

  function Bool(b: bool): Word { if b then 1 else 0 }

  function Abs(x: int): nat { if x < 0 then -x else x }

  /** Division that truncates toward zero. */
  function TruncDiv(a: int, b: int): int
    requires b != 0
  {
    if (a < 0) == (b < 0) then Abs(a) / Abs(b) else -(Abs(a) / Abs(b))
  }

  function DivS(a: Word, b: Word): Option<Word> {
    if b == 0 || (a == 0x8000_0000 && b == MODULUS - 1) then None
    else Some(Wrap(TruncDiv(Signed(a), Signed(b))))
  }

  function RemS(a: Word, b: Word): Option<Word> {
    if b == 0 then None
    else Some(Wrap(Signed(a) - Signed(b) * TruncDiv(Signed(a), Signed(b))))
  }

  function And(a: nat, b: nat): (r: nat)
    ensures r <= a && r <= b
  {
    if a == 0 || b == 0 then 0
    else (if a % 2 == 1 && b % 2 == 1 then 1 else 0) + 2 * And(a / 2, b / 2)
  }

  function Complement(a: Word): Word { MODULUS - 1 - a }

  /** Bitwise or, by De Morgan. */
  function Or(a: Word, b: Word): Word { Complement(And(Complement(a), Complement(b))) }

  // ----- clearing low bits -----

  /** The word of `k` one bits. */
  function Ones(k: nat): nat { if k == 0 then 0 else 2 * Ones(k - 1) + 1 }

  lemma {:induction false} AndOnes(a: nat, k: nat)
    requires a <= Ones(k)
    ensures And(a, Ones(k)) == a
    decreases k
  {
    if a != 0 {
      AndOnes(a / 2, k - 1);
    }
  }

  /** Masking with -4 rounds a word down to a multiple of four. */
  lemma {:induction false} MaskLowTwoBits(a: Word)
    ensures And(a, Wrap(-4)) == a - a % 4
  {
    assert Wrap(-4) == 0xFFFF_FFFC;
    assert Ones(2) == 0x3; assert Ones(4) == 0xF; assert Ones(6) == 0x3F; assert Ones(8) == 0xFF;
    assert Ones(10) == 0x3FF; assert Ones(12) == 0xFFF; assert Ones(14) == 0x3FFF; assert Ones(16) == 0xFFFF;
    assert Ones(18) == 0x3FFFF; assert Ones(20) == 0xFFFFF;
    assert Ones(22) == 0x3FFFFF; assert Ones(24) == 0xFFFFFF; assert Ones(26) == 0x3FFFFFF;
    assert Ones(28) == 0xFFFFFFF; assert Ones(30) == 0x3FFFFFFF;
    AndOnes(a / 4, 30);
    assert a / 4 == a / 2 / 2;
    assert And(a / 2, 0x7FFF_FFFE) == 2 * And(a / 4, 0x3FFF_FFFF);
  }
}
