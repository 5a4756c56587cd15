/** What the operations on 32-bit words mean. */
module Int32Laws {
  import opened Bytes
  import opened BitWords
  import opened Int32

  /** The signed values are those from -2^31 to 2^31 - 1, each of one word; wrapping keeps the number up to a
      multiple of 2^32. */
  lemma {:induction false} SignedExactly(w: Word, x: int)
    ensures FitsI32(x) <==> -2147483648 <= x <= 2147483647
    ensures FitsI32(Signed(w)) && Wrap(Signed(w)) == w && (Signed(w) - w) % 4294967296 == 0
    ensures FitsI32(x) ==> Signed(Wrap(x)) == x
    ensures (Wrap(x) - x) % 4294967296 == 0
  {
  }

  /** The quotient is rounded toward zero: the remainder is smaller than the divisor and has the dividend's sign. */
  lemma {:induction false} TruncDivExactly(a: int, b: int, q: int)
    requires b != 0
    ensures q == TruncDiv(a, b) <==>
            Abs(a - b * q) < Abs(b) && (a >= 0 ==> a - b * q >= 0) && (a <= 0 ==> a - b * q <= 0)
  {
    hide TruncDiv;
    var t := TruncDiv(a, b);
    DivideBy(Abs(a), Abs(b));
    SignOfQuotient(a, b);
    Remainders(a, b, q, t);
  }

  /** What remains after a quotient as the law wants it. */
  predicate Remains(a: int, b: int, r: int) { Abs(r) < Abs(b) && (a >= 0 ==> r >= 0) && (a <= 0 ==> r <= 0) }

  lemma {:induction false} Remainders(a: int, b: int, q: int, t: int)
    requires b != 0 && Remains(a, b, a - b * t)
    ensures Remains(a, b, a - b * q) <==> q == t
  {
    assert b * (t - q) == b * t - b * q;
    if q != t { FarApart(b, t - q); }
  }

  lemma {:induction false} DivideBy(a: nat, b: nat)
    requires b > 0
    ensures 0 <= a - b * (a / b) < b
  {
  }

  lemma {:induction false} SignedProduct(b: int, t: int, q: nat)
    requires t == q || t == -(q as int)
    ensures b * t == if (b < 0) == (t == q) && q != 0 then -(Abs(b) * q) else Abs(b) * q
  {
  }

  lemma {:induction false} SignOfQuotient(a: int, b: int)
    requires b != 0
    ensures var t := TruncDiv(a, b);
            a - b * t == if a < 0 then -(Abs(a) - Abs(b) * (Abs(a) / Abs(b))) else Abs(a) - Abs(b) * (Abs(a) / Abs(b))
  {
    var q := Abs(a) / Abs(b);
    SignedProduct(b, TruncDiv(a, b), q);
    SameQuotient(a, b, q, TruncDiv(a, b));
  }

  lemma {:induction false} SameQuotient(a: int, b: int, q: nat, t: int)
    requires b != 0 && q == Abs(a) / Abs(b) && t == TruncDiv(a, b)
    ensures t == if (a < 0) == (b < 0) then q else -(q as int)
  {
  }

  lemma {:induction false} FarApart(b: int, d: int)
    requires b != 0 && d != 0
    ensures Abs(b * d) >= Abs(b)
  {
    if d > 0 { MulMonotone(1, d, Abs(b)); } else { MulMonotone(1, -d, Abs(b)); }
    assert b * d == if (b < 0) == (d < 0) then Abs(b) * Abs(d) else -(Abs(b) * Abs(d));
  }

  /** `&&` and `||` on words are bit by bit. */
  lemma {:induction false} AndBits(a: nat, b: nat, i: nat)
    ensures Bit(And(a, b), i) <==> Bit(a, i) && Bit(b, i)
  {
    var r := And(a, b);
    if a == 0 || b == 0 {
      ZeroBits(i);
    } else {
      assert r % 2 == (if a % 2 == 1 && b % 2 == 1 then 1 else 0) && r / 2 == And(a / 2, b / 2);
      if i > 0 { AndBits(a / 2, b / 2, i - 1); }
    }
  }

  lemma {:induction false} ZeroBits(i: nat)
    ensures !Bit(0, i)
  {
    if i > 0 { ZeroBits(i - 1); }
  }

  lemma {:induction false} ComplementBits(a: nat, k: nat, i: nat)
    requires a <= Ones(k) && i < k
    ensures Bit(Ones(k) - a, i) <==> !Bit(a, i)
  {
    if i > 0 { ComplementBits(a / 2, k - 1, i - 1); }
  }

  lemma {:induction false} OrBits(a: Word, b: Word, i: nat)
    requires i < 32
    ensures Bit(Or(a, b), i) <==> Bit(a, i) || Bit(b, i)
  {
    hide Bit, And, Ones;
    Ones32();
    var c, d := Complement(a), Complement(b);
    ComplementBits(a, 32, i);
    ComplementBits(b, 32, i);
    AndBits(c, d, i);
    ComplementBits(And(c, d), 32, i);
  }

  lemma {:induction false} Ones32()
    ensures Ones(32) == 0xFFFF_FFFF
  {
    assert Ones(8) == 0xFF;
    assert Ones(16) == 0xFFFF;
    assert Ones(24) == 0xFF_FFFF;
  }
}
