/** Bits packed into bytes, least significant first. */
module BitStream {
  import opened Bytes

  function Pow2(n: nat): (r: nat)
    ensures r >= 1
  {
    if n == 0 then 1 else 2 * Pow2(n - 1)
  }

  /** The low `n` bits of a number, least significant first. */
  function LowBits(v: nat, n: nat): (bs: seq<bool>)
    ensures |bs| == n
  {
    if n == 0 then [] else [v % 2 == 1] + LowBits(v / 2, n - 1)
  }

  function Value(bs: seq<bool>): nat {
    if bs == [] then 0 else (if bs[0] then 1 else 0) + 2 * Value(bs[1..])
  }

  /** The bits of a byte string. */
  function Unpack(bytes: seq<Byte>): (bs: seq<bool>)
    ensures |bs| == 8 * |bytes|
  {
    if bytes == [] then [] else LowBits(bytes[0], 8) + Unpack(bytes[1..])
  }

  function ZeroBits(n: nat): (bs: seq<bool>)
    ensures |bs| == n && forall i | 0 <= i < n :: !bs[i]
  {
    if n == 0 then [] else [false] + ZeroBits(n - 1)
  }

  lemma {:induction false} ValueLowBits(v: nat, n: nat)
    requires v < Pow2(n)
    ensures Value(LowBits(v, n)) == v
  {
    if n > 0 {
      assert LowBits(v, n)[1..] == LowBits(v / 2, n - 1);
      ValueLowBits(v / 2, n - 1);
    }
  }

  lemma {:induction false} ValueZeroExtend(bs: seq<bool>)
    ensures Value(bs + [false]) == Value(bs)
  {
    if bs == [] {
      assert [false][1..] == [];
      assert bs + [false] == [false];
    } else {
      assert (bs + [false])[1..] == bs[1..] + [false];
      ValueZeroExtend(bs[1..]);
    }
  }

  lemma {:induction false} LowBitsOfSum(a: nat, b: nat, n: nat)
    ensures LowBits(a + b * Pow2(n), n) == LowBits(a, n)
  {
    if n > 0 {
      var half := b * Pow2(n - 1);
      assert b * Pow2(n) == 2 * half;
      assert (a + 2 * half) / 2 == a / 2 + half;
      LowBitsOfSum(a / 2, b, n - 1);
    }
  }

  /** The number without its low `n` bits. */
  function Shift(v: nat, n: nat): nat {
    if n == 0 then v else Shift(v / 2, n - 1)
  }

  lemma {:induction false} ShiftSum(a: nat, b: nat, n: nat)
    requires a < Pow2(n)
    ensures Shift(a + b * Pow2(n), n) == b
  {
    if n > 0 {
      var half := b * Pow2(n - 1);
      assert b * Pow2(n) == 2 * half;
      assert (a + 2 * half) / 2 == a / 2 + half;
      ShiftSum(a / 2, b, n - 1);
    }
  }

  lemma {:induction false} LowBitsSplit(v: nat, n: nat, m: nat)
    ensures LowBits(v, n + m) == LowBits(v, n) + LowBits(Shift(v, n), m)
  {
    if n == 0 {
      assert LowBits(v, 0) + LowBits(v, m) == LowBits(v, m);
    } else {
      LowBitsSplit(v / 2, n - 1, m);
      Regroup([v % 2 == 1], LowBits(v / 2, n - 1), LowBits(Shift(v, n), m));
    }
  }

  /** A number put above `n` bits: its bits follow theirs. */
  lemma {:induction false} LowBitsJoin(a: nat, n: nat, b: nat, m: nat)
    requires a < Pow2(n)
    ensures LowBits(a + b * Pow2(n), n + m) == LowBits(a, n) + LowBits(b, m)
  {
    LowBitsSplit(a + b * Pow2(n), n, m);
    LowBitsOfSum(a, b, n);
    ShiftSum(a, b, n);
  }

  lemma {:induction false} JoinBound(a: nat, n: nat, b: nat, m: nat)
    requires a < Pow2(n) && b < Pow2(m)
    ensures a + b * Pow2(n) < Pow2(n + m)
  {
    Pow2Sum(n, m);
    MulMonotone(b + 1, Pow2(m), Pow2(n));
  }

  lemma {:induction false} Pow2Sum(n: nat, m: nat)
    ensures Pow2(n + m) == Pow2(n) * Pow2(m)
  {
    if n > 0 { Pow2Sum(n - 1, m); }
  }

  lemma {:induction false} Pow2Monotone(n: nat, m: nat)
    requires n <= m
    ensures Pow2(n) <= Pow2(m)
  {
    if n < m { Pow2Monotone(n, m - 1); }
  }

  lemma {:induction false} Pow2Eight()
    ensures Pow2(8) == 256
  {
    assert Pow2(4) == 16;
  }

  /** The lowest byte of a number holds its first eight bits. */
  lemma {:induction false} FirstByte(v: nat, n: nat)
    ensures LowBits(v, 8 + n) == LowBits(v % 256, 8) + LowBits(v / 256, n)
  {
    Pow2Eight();
    LowBitsJoin(v % 256, 8, v / 256, n);
    assert v == v % 256 + v / 256 * 256;
  }

  lemma {:induction false} UnpackSnoc(bytes: seq<Byte>, b: Byte)
    ensures Unpack(bytes + [b]) == Unpack(bytes) + LowBits(b, 8)
  {
    if bytes == [] {
      assert bytes + [b] == [b];
      assert Unpack([b]) == LowBits(b, 8) + Unpack([b][1..]);
    } else {
      assert (bytes + [b])[1..] == bytes[1..] + [b];
      UnpackSnoc(bytes[1..], b);
    }
  }

  /** Bytes are given by their bits. */
  lemma {:induction false} UnpackUnique(a: seq<Byte>, b: seq<Byte>)
    requires Unpack(a) == Unpack(b)
    ensures a == b
  {
    assert |a| == |b|;
    if a != [] {
      Pow2Eight();
      assert LowBits(a[0], 8) == Unpack(a)[..8] == LowBits(b[0], 8);
      ValueLowBits(a[0], 8);
      ValueLowBits(b[0], 8);
      assert Unpack(a[1..]) == Unpack(a)[8..] == Unpack(b[1..]);
      UnpackUnique(a[1..], b[1..]);
    }
  }

  /** A number below 2^n has zeros above its `n` bits. */
  lemma {:induction false} LowBitsPad(v: nat, n: nat, m: nat)
    requires v < Pow2(n)
    ensures LowBits(v, n + m) == LowBits(v, n) + ZeroBits(m)
  {
    LowBitsJoin(v, n, 0, m);
    LowBitsOfZero(m);
  }

  lemma {:induction false} LowBitsOfZero(n: nat)
    ensures LowBits(0, n) == ZeroBits(n)
  {
    if n > 0 { LowBitsOfZero(n - 1); }
  }

  /** The encoder's output buffer: whole bytes, and the bits not yet a byte. */
  class BitWriter {
    var out: seq<Byte>
    var bitbuf: nat
    var bitcnt: nat

    ghost predicate Valid()
      reads this
    {
      bitcnt < 8 && bitbuf < Pow2(bitcnt)
    }

    /** Every bit written so far. */
    ghost function Bits(): (bs: seq<bool>)
      reads this
      ensures |bs| == 8 * |out| + bitcnt
    {
      Unpack(out) + LowBits(bitbuf, bitcnt)
    }

    constructor ()
      ensures Valid() && Bits() == []
    {
      out := [];
      bitbuf := 0;
      bitcnt := 0;
    }

    /** Append the `size` low bits of `code`. The bits already waiting lie below them, so the
        bitwise or of the original is a sum. */
    method Emit(code: nat, size: nat)
      requires Valid() && code < Pow2(size)
      modifies this
      ensures Valid() && Bits() == old(Bits()) + LowBits(code, size)
    {
      JoinBound(bitbuf, bitcnt, code, size);
      LowBitsJoin(bitbuf, bitcnt, code, size);
      Regroup(Unpack(out), LowBits(bitbuf, bitcnt), LowBits(code, size));
      bitbuf := bitbuf + code * Pow2(bitcnt);
      bitcnt := bitcnt + size;
      while bitcnt >= 8
        invariant bitbuf < Pow2(bitcnt)
        invariant Bits() == old(Bits()) + LowBits(code, size)
      {
        ByteOut(out, bitbuf, bitcnt);
        out := out + [bitbuf % 256];
        bitbuf := bitbuf / 256;
        bitcnt := bitcnt - 8;
      }
    }

    /** Write out the waiting bits, zero-padded to a byte. */
    method Flush() returns (bytes: seq<Byte>)
      requires Valid()
      modifies this
      ensures Unpack(bytes) == old(Bits()) + ZeroBits(if old(bitcnt) > 0 then 8 - old(bitcnt) else 0)
    {
      if bitcnt > 0 {
        LastByte(out, bitbuf, bitcnt);
        out := out + [bitbuf % 256];
      }
      bytes := out;
    }
  }

  lemma {:induction false} LastByte(out: seq<Byte>, v: nat, n: nat)
    requires v < Pow2(n) && n < 8
    ensures Unpack(out + [v % 256]) == Unpack(out) + LowBits(v, n) + ZeroBits(8 - n)
  {
    hide LowBits, Unpack, Pow2, ZeroBits;
    Pow2Monotone(n, 8);
    Pow2Eight();
    LowBitsPad(v, n, 8 - n);
    UnpackSnoc(out, v % 256);
    Regroup(Unpack(out), LowBits(v, n), ZeroBits(8 - n));
  }

  /** Moving the lowest byte to the output keeps the bits. */
  lemma {:induction false} ByteOut(out: seq<Byte>, v: nat, n: nat)
    requires v < Pow2(n) && n >= 8
    ensures Unpack(out + [v % 256]) + LowBits(v / 256, n - 8) == Unpack(out) + LowBits(v, n)
    ensures v / 256 < Pow2(n - 8)
  {
    FirstByte(v, n - 8);
    UnpackSnoc(out, v % 256);
    HighPart(v, n);
    Regroup(Unpack(out), LowBits(v % 256, 8), LowBits(v / 256, n - 8));
  }

  lemma {:induction false} HighPart(v: nat, n: nat)
    requires v < Pow2(n) && n >= 8
    ensures v / 256 < Pow2(n - 8)
  {
    Pow2Eight();
    Pow2Sum(8, n - 8);
  }
}
