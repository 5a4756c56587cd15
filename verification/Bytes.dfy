/** Bytes, words and the option type shared by the whole project. */
module Bytes {

  type Byte = b: int | 0 <= b < 256

  /** A 32-bit word, held as its unsigned value. */
  type Word = w: int | 0 <= w < 0x1_0000_0000

  datatype Option<+T> = None | Some(value: T)

  /** The four bytes of a word, least significant first. */
  function LittleEndian(w: Word): (bs: seq<Byte>)
    ensures |bs| == 4
  {
    [w % 0x100, (w / 0x100) % 0x100, (w / 0x1_0000) % 0x100, w / 0x100_0000]
  }

  function FromLittleEndian(bs: seq<Byte>): Word
    requires |bs| == 4
  {
    var b0: int, b1: int, b2: int, b3: int := bs[0], bs[1], bs[2], bs[3];
    b0 + 0x100 * b1 + 0x1_0000 * b2 + 0x100_0000 * b3
  }

  lemma {:induction false} LittleEndianRoundTrip(w: Word)
    ensures FromLittleEndian(LittleEndian(w)) == w
  {
    assert w / 0x1_0000 == (w / 0x100) / 0x100;
    assert w / 0x100_0000 == (w / 0x1_0000) / 0x100;
  }

  lemma {:induction false} MulMonotone(x: nat, y: nat, d: nat)
    requires x <= y
    ensures x * d <= y * d
  {
  }

  function Zeros(n: nat): (r: seq<Byte>)
    ensures |r| == n && forall i | 0 <= i < n :: r[i] == 0
  {
    seq(n, _ => 0)
  }

  lemma {:induction false} Regroup<T>(a: seq<T>, b: seq<T>, c: seq<T>)
    ensures a + (b + c) == a + b + c
  {
  }

  /** Subtraction that stops at zero. */
  function Monus(a: nat, b: nat): nat { if a >= b then a - b else 0 }
}
