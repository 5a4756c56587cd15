/** Numbers written in base 16. */
module Hexadecimal {
  import opened Bytes

  const SMALL := "0123456789abcdef"
  const CAPITAL := "0123456789ABCDEF"

  /** The byte of a digit, small or capital. */
  function DigitByte(d: nat, capital: bool): (b: Byte)
    requires d < 16
  {
    DigitBytes(d);
    (if capital then CAPITAL else SMALL)[d] as int
  }

  lemma {:induction false} DigitBytes(d: nat)
    requires d < 16
    ensures SMALL[d] as int == if d < 10 then 48 + d else 87 + d
    ensures CAPITAL[d] as int == if d < 10 then 48 + d else 55 + d
  {
  }

  /** A number in as many digits as `capitals` has, leading zeros included. */
  function Spelled(n: nat, capitals: seq<bool>): (s: seq<Byte>)
    ensures |s| == |capitals|
  {
    if capitals == [] then []
    else
      var k := |capitals| - 1;
      Spelled(n / 16, capitals[..k]) + [DigitByte(n % 16, capitals[k])]
  }

  /** `k` digits are enough for the number. */
  predicate Fits(n: nat, k: nat) { if k == 0 then n == 0 else Fits(n / 16, k - 1) }

  ghost predicate Spells(s: seq<nat>, n: nat) {
    s != [] && Fits(n, |s|) && exists capitals :: |capitals| == |s| && s == Spelled(n, capitals)
  }
}
