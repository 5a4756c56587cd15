/** Strings in UTF-8: which byte strings are one, and the characters they spell. */
module Utf8 {
  import opened Bytes

  predicate Between(s: seq<Byte>, i: nat, lo: Byte, hi: Byte) { i < |s| && lo <= s[i] <= hi }

  predicate Cont(s: seq<Byte>, i: nat) { Between(s, i, 0x80, 0xbf) }

  /** What a byte adds to the one that announces it. */
  function Low(s: seq<Byte>, i: nat, base: Byte): nat
    requires i < |s| && base <= s[i]
  {
    var b: int := s[i];
    b - base
  }

  /** The first character and the number of its bytes, as in table 3-7 of the Unicode Standard. */
  function First(s: seq<Byte>): (r: Option<(nat, nat)>)
    requires s != []
    ensures r.Some? ==> 1 <= r.value.1 <= |s|
    ensures s[0] < 0x80 ==> r == Some((s[0], 1))
  {
    var b := s[0];
    if b < 0x80 then Some((b, 1))
    else if 0xc2 <= b <= 0xdf then
      if Cont(s, 1) then Some((Low(s, 0, 0xc0) * 0x40 + Low(s, 1, 0x80), 2)) else None
    else if 0xe0 <= b <= 0xef then
      if Between(s, 1, if b == 0xe0 then 0xa0 else 0x80, if b == 0xed then 0x9f else 0xbf) && Cont(s, 2)
      then Some((Low(s, 0, 0xe0) * 0x1000 + Low(s, 1, 0x80) * 0x40 + Low(s, 2, 0x80), 3)) else None
    else if 0xf0 <= b <= 0xf4 then
      if Between(s, 1, if b == 0xf0 then 0x90 else 0x80, if b == 0xf4 then 0x8f else 0xbf) && Cont(s, 2) && Cont(s, 3)
      then Some((Low(s, 0, 0xf0) * 0x4_0000 + Low(s, 1, 0x80) * 0x1000 + Low(s, 2, 0x80) * 0x40 + Low(s, 3, 0x80), 4))
      else None
    else None
  }

  /** The characters, if the bytes are well-formed UTF-8. */
  function Chars(s: seq<Byte>): (r: Option<seq<nat>>)
    ensures r.Some? ==> (r.value == [] <==> s == [])
    decreases |s|
  {
    if s == [] then Some([])
    else
      match First(s)
      case None => None
      case Some((c, n)) => match Chars(s[n..]) case None => None case Some(cs) => Some([c] + cs)
  }

  predicate Ascii(s: seq<Byte>) { forall i | 0 <= i < |s| :: s[i] < 128 }

  /** ASCII in front stands for itself. */
  lemma {:induction false} CharsAscii(a: seq<Byte>, b: seq<Byte>)
    requires Ascii(a)
    ensures Chars(a + b) == match Chars(b) case None => None case Some(cs) => Some(a + cs)
  {
    if a == [] {
      assert a + b == b;
      if Chars(b).Some? { assert [] + Chars(b).value == Chars(b).value; }
    } else {
      var s := a + b;
      assert s[0] == a[0] && s[1..] == a[1..] + b;
      CharsAscii(a[1..], b);
      if Chars(b).Some? { assert [a[0]] + (a[1..] + Chars(b).value) == a + Chars(b).value; }
    }
  }

  /** White space, as the Unicode property of that name has it. */
  predicate White(c: nat) {
    9 <= c <= 13 || c == 32 || c == 0x85 || c == 0xa0 || c == 0x1680 || 0x2000 <= c <= 0x200a
    || c == 0x2028 || c == 0x2029 || c == 0x202f || c == 0x205f || c == 0x3000
  }

  function TrimStart(s: seq<nat>): seq<nat> { if s != [] && White(s[0]) then TrimStart(s[1..]) else s }

  function TrimEnd(s: seq<nat>): seq<nat> { if s != [] && White(s[|s| - 1]) then TrimEnd(s[..|s| - 1]) else s }

  /** Trimming the end of a line keeps what ends in something else than white space. */
  lemma {:induction false} TrimKeeps(s: seq<nat>, t: seq<nat>)
    requires s != [] && !White(s[|s| - 1])
    ensures exists k :: 0 <= k <= |t| && TrimEnd(s + t) == s + t[..k]
    ensures (forall i | 0 <= i < |t| :: White(t[i])) ==> TrimEnd(s + t) == s
    decreases |t|
  {
    if t == [] || !White(t[|t| - 1]) {
      assert (s + t)[|s + t| - 1] == if t == [] then s[|s| - 1] else t[|t| - 1];
      assert TrimEnd(s + t) == s + t[..|t|];
    } else {
      var shorter := t[..|t| - 1];
      assert (s + t)[..|s + t| - 1] == s + shorter;
      TrimKeeps(s, shorter);
      var k :| 0 <= k <= |shorter| && TrimEnd(s + shorter) == s + shorter[..k];
      assert shorter[..k] == t[..k];
    }
  }

  // ----- parts of strings -----

  lemma {:induction false} Nothing()
    ensures Chars([]) == Some([]) && Trimmed([]) == []
  {
  }

  lemma {:induction false} FirstAppend(a: seq<Byte>, b: seq<Byte>)
    requires a != [] && First(a).Some?
    ensures First(a + b) == First(a)
  {
    var s := a + b;
    assert forall i | 0 <= i < |a| :: s[i] == a[i];
  }

  /** Strings joined spell their characters joined. */
  lemma {:induction false} CharsAppend(a: seq<Byte>, b: seq<Byte>)
    requires Chars(a).Some?
    ensures Chars(a + b) == match Chars(b) case None => None case Some(cs) => Some(Chars(a).value + cs)
    decreases |a|
  {
    hide First;
    if a == [] {
      assert a + b == b;
      if Chars(b).Some? { assert [] + Chars(b).value == Chars(b).value; }
    } else {
      var (c, n) := First(a).value;
      FirstAppend(a, b);
      assert (a + b)[n..] == a[n..] + b;
      CharsAppend(a[n..], b);
      if Chars(b).Some? { Regroup([c], Chars(a[n..]).value, Chars(b).value); }
    }
  }

  /** In front of an ASCII byte stands a string of its own. */
  lemma {:induction false} FirstBefore(a: seq<Byte>, b: seq<Byte>)
    requires a != [] && First(a + b).Some? && (b != [] ==> b[0] < 0x80)
    ensures First(a) == First(a + b)
  {
    var s, n := a + b, First(a + b).value.1;
    assert forall i | 0 <= i < |a| :: s[i] == a[i];
    if n > |a| {
      assert false;
    }
  }

  lemma {:induction false} CharsBefore(a: seq<Byte>, b: seq<Byte>)
    requires Chars(a + b).Some? && (b != [] ==> b[0] < 0x80)
    ensures Chars(a).Some? && Chars(b).Some?
    decreases |a|
  {
    hide First;
    if a == [] {
      assert a + b == b;
    } else {
      FirstBefore(a, b);
      var (c, n) := First(a).value;
      assert (a + b)[n..] == a[n..] + b;
      CharsBefore(a[n..], b);
    }
  }

  /** The string without the white space at its end. */
  function Trimmed(s: seq<Byte>): (r: seq<Byte>)
    requires Chars(s).Some?
    ensures |r| <= |s| && r == s[..|r|] && Chars(r).Some?
    decreases |s|
  {
    if s == [] then []
    else
      var (c, n) := First(s).value;
      var rest := Trimmed(s[n..]);
      if rest == [] && White(c) then []
      else
        FirstAppend(s[..n], rest);
        FirstOwn(s);
        assert (s[..n] + rest)[n..] == rest;
        s[..n] + rest
  }

  lemma {:induction false} FirstOwn(s: seq<Byte>)
    requires s != [] && First(s).Some?
    ensures var n := First(s).value.1; First(s[..n]) == First(s)
  {
    var n := First(s).value.1;
    assert forall i | 0 <= i < n :: s[..n][i] == s[i];
  }

  predicate AllWhite(cs: seq<nat>) { forall i | 0 <= i < |cs| :: White(cs[i]) }

  /** Nothing but white space: nothing is left. */
  lemma {:induction false} TrimmedEmpty(s: seq<Byte>)
    requires Chars(s).Some?
    ensures Trimmed(s) == [] <==> AllWhite(Chars(s).value)
    decreases |s|
  {
    hide First;
    if s != [] {
      var (c, n) := First(s).value;
      TrimmedEmpty(s[n..]);
      var rest := Chars(s[n..]).value;
      assert Chars(s).value == [c] + rest;
      if AllWhite(Chars(s).value) {
        assert forall i | 0 <= i < |rest| :: rest[i] == ([c] + rest)[i + 1];
        assert ([c] + rest)[0] == c;
      }
    }
  }

  /** White space behind a string is trimmed with the string's own. */
  lemma {:induction false} TrimmedPadded(s: seq<Byte>, pad: seq<Byte>)
    requires Chars(s).Some? && Chars(pad).Some? && AllWhite(Chars(pad).value)
    ensures Chars(s + pad).Some? && Trimmed(s + pad) == Trimmed(s)
    decreases |s|
  {
    hide First, White;
    CharsAppend(s, pad);
    TrimmedEmpty(pad);
    if s == [] {
      assert s + pad == pad;
    } else {
      var (c, n) := First(s).value;
      FirstAppend(s, pad);
      assert (s + pad)[n..] == s[n..] + pad && (s + pad)[..n] == s[..n];
      TrimmedPadded(s[n..], pad);
    }
  }

  /** Trimming twice is trimming once. */
  lemma {:induction false} TrimmedTwice(s: seq<Byte>)
    requires Chars(s).Some?
    ensures Trimmed(Trimmed(s)) == Trimmed(s)
    decreases |s|
  {
    hide First, White;
    if s != [] {
      var (c, n) := First(s).value;
      var rest := Trimmed(s[n..]);
      TrimmedTwice(s[n..]);
      if Trimmed(s) != [] {
        FirstOwn(s);
        FirstAppend(s[..n], rest);
        assert (s[..n] + rest)[n..] == rest && (s[..n] + rest)[..n] == s[..n];
      }
    }
  }

  /** The rest of a string that nothing is to be trimmed from. */
  lemma {:induction false} TrimmedRest(p: seq<Byte>, q: seq<Byte>)
    requires Chars(p).Some? && Chars(p + q).Some? && Trimmed(p + q) == p + q && Chars(q).Some?
    ensures Trimmed(q) == q
    decreases |p|
  {
    hide First, White;
    if p == [] {
      assert p + q == q;
    } else {
      var (c, n) := First(p).value;
      FirstAppend(p, q);
      CharsAppend(p[n..], q);
      var s := p + q;
      assert s[n..] == p[n..] + q;
      assert s == s[..n] + s[n..];
      assert |Trimmed(s[n..])| == |s[n..]|;
      TrimmedRest(p[n..], q);
    }
  }

  // ----- the encoding -----

  /** The numbers of characters. */
  predicate Scalar(c: nat) { c < 0xd800 || 0xe000 <= c < 0x11_0000 }

  /** Section 3 of RFC 3629: six bits to each byte behind the first. */
  function Encoded(c: nat): (s: seq<Byte>)
    requires Scalar(c)
    ensures s != []
  {
    if c < 0x80 then [c]
    else if c < 0x800 then [0xc0 + c / 0x40, 0x80 + c % 0x40]
    else if c < 0x1_0000 then [0xe0 + c / 0x40 / 0x40, 0x80 + c / 0x40 % 0x40, 0x80 + c % 0x40]
    else [0xf0 + c / 0x40 / 0x40 / 0x40, 0x80 + c / 0x40 / 0x40 % 0x40, 0x80 + c / 0x40 % 0x40, 0x80 + c % 0x40]
  }

  lemma {:induction false} SixBits(a: nat, b: nat)
    requires b < 0x40
    ensures (a * 0x40 + b) / 0x40 == a && (a * 0x40 + b) % 0x40 == b
  {
  }

  lemma {:induction false} FirstTwo(s: seq<Byte>)
    requires |s| >= 2 && 0xc2 <= s[0] <= 0xdf && Cont(s, 1)
    ensures First(s) == Some((Low(s, 0, 0xc0) * 0x40 + Low(s, 1, 0x80), 2))
    ensures var c := Low(s, 0, 0xc0) * 0x40 + Low(s, 1, 0x80); 0x80 <= c < 0x800 && Encoded(c) == s[..2]
  {
    SixBits(Low(s, 0, 0xc0), Low(s, 1, 0x80));
  }

  predicate ThreeOk(s: seq<Byte>) {
    && |s| >= 3 && 0xe0 <= s[0] <= 0xef
    && Between(s, 1, if s[0] == 0xe0 then 0xa0 else 0x80, if s[0] == 0xed then 0x9f else 0xbf) && Cont(s, 2)
  }

  function ThreeValue(s: seq<Byte>): nat
    requires ThreeOk(s)
  {
    (Low(s, 0, 0xe0) * 0x40 + Low(s, 1, 0x80)) * 0x40 + Low(s, 2, 0x80)
  }

  lemma {:induction false} FirstThree(s: seq<Byte>)
    requires ThreeOk(s)
    ensures First(s) == Some((ThreeValue(s), 3))
    ensures var c := ThreeValue(s); Scalar(c) && 0x800 <= c < 0x1_0000 && Encoded(c) == s[..3]
  {
    var a, b, d := Low(s, 0, 0xe0), Low(s, 1, 0x80), Low(s, 2, 0x80);
    SixBits(a, b);
    SixBits(a * 0x40 + b, d);
  }

  predicate FourOk(s: seq<Byte>) {
    && |s| >= 4 && 0xf0 <= s[0] <= 0xf4
    && Between(s, 1, if s[0] == 0xf0 then 0x90 else 0x80, if s[0] == 0xf4 then 0x8f else 0xbf) && Cont(s, 2)
    && Cont(s, 3)
  }

  function FourValue(s: seq<Byte>): nat
    requires FourOk(s)
  {
    ((Low(s, 0, 0xf0) * 0x40 + Low(s, 1, 0x80)) * 0x40 + Low(s, 2, 0x80)) * 0x40 + Low(s, 3, 0x80)
  }

  lemma {:induction false} FirstFour(s: seq<Byte>)
    requires FourOk(s)
    ensures First(s) == Some((FourValue(s), 4))
    ensures var c := FourValue(s); Scalar(c) && 0x1_0000 <= c && Encoded(c) == s[..4]
  {
    var a, b, d, e := Low(s, 0, 0xf0), Low(s, 1, 0x80), Low(s, 2, 0x80), Low(s, 3, 0x80);
    SixBits(a, b);
    SixBits(a * 0x40 + b, d);
    SixBits((a * 0x40 + b) * 0x40 + d, e);
  }

  lemma {:induction false} EncodedFirst(s: seq<Byte>)
    requires s != [] && First(s).Some?
    ensures var (c, n) := First(s).value; Scalar(c) && Encoded(c) == s[..n]
  {
    hide Encoded, Low;
    if s[0] < 0x80 {
      EncodedOne(s[0]);
      assert s[..1] == [s[0]];
    } else if s[0] <= 0xdf {
      FirstTwo(s);
    } else if s[0] <= 0xef {
      FirstThree(s);
    } else {
      FirstFour(s);
    }
  }

  lemma {:induction false} EncodedOne(c: Byte)
    requires c < 0x80
    ensures Encoded(c) == [c]
  {
  }

  lemma {:induction false} TwoEncoded(c: nat, s: seq<Byte>)
    requires 0x80 <= c < 0x800 && Encoded(c) <= s
    ensures First(s) == Some((c, 2))
  {
    assert s[0] == Encoded(c)[0] && s[1] == Encoded(c)[1];
    FirstTwo(s);
  }

  lemma {:induction false} ThreeEncoded(c: nat, s: seq<Byte>)
    requires Scalar(c) && 0x800 <= c < 0x1_0000 && Encoded(c) <= s
    ensures First(s) == Some((c, 3))
  {
    hide First;
    var e := Encoded(c);
    assert s[0] == e[0] && s[1] == e[1] && s[2] == e[2];
    assert c / 0x40 / 0x40 == 0 ==> c / 0x40 % 0x40 >= 0x20;
    assert c / 0x40 / 0x40 == 13 ==> c / 0x40 % 0x40 < 0x20;
    FirstThree(s);
  }

  lemma {:induction false} FourEncoded(c: nat, s: seq<Byte>)
    requires Scalar(c) && 0x1_0000 <= c && Encoded(c) <= s
    ensures First(s) == Some((c, 4))
  {
    hide First;
    var e, top := Encoded(c), c / 0x40 / 0x40;
    assert s[0] == e[0] && s[1] == e[1] && s[2] == e[2] && s[3] == e[3];
    assert 0x10 <= top <= 0x10f;
    assert top / 0x40 == 0 ==> top % 0x40 >= 0x10;
    assert top / 0x40 == 4 ==> top % 0x40 < 0x10;
    FirstFour(s);
  }

  lemma {:induction false} FirstEncoded(c: nat, s: seq<Byte>)
    requires Scalar(c) && Encoded(c) <= s
    ensures First(s) == Some((c, |Encoded(c)|))
  {
    hide First;
    if c < 0x80 {
      FirstOfAscii(s, c);
    } else if c < 0x800 {
      TwoEncoded(c, s);
    } else if c < 0x1_0000 {
      ThreeEncoded(c, s);
    } else {
      FourEncoded(c, s);
    }
  }

  lemma {:induction false} FirstOfAscii(s: seq<Byte>, c: Byte)
    requires c < 0x80 && [c] <= s
    ensures First(s) == Some((c, 1))
  {
  }

  ghost predicate Encodes(s: seq<Byte>, cs: seq<nat>)
    decreases |cs|
  {
    if cs == [] then s == []
    else Scalar(cs[0]) && Encoded(cs[0]) <= s && Encodes(s[|Encoded(cs[0])|..], cs[1..])
  }

  /** A string is decoded if and only if it is the encoding of some characters, and to these. */
  lemma {:induction false} CharsExactly(s: seq<Byte>, cs: seq<nat>)
    ensures Chars(s) == Some(cs) <==> Encodes(s, cs)
    decreases |s|
  {
    hide First, Encoded;
    if s != [] && cs != [] {
      if First(s).Some? {
        var (c, n) := First(s).value;
        EncodedFirst(s);
        CharsExactly(s[n..], cs[1..]);
        if Chars(s) == Some(cs) { assert cs == [c] + Chars(s[n..]).value; }
      }
      if Scalar(cs[0]) && Encoded(cs[0]) <= s {
        var e := Encoded(cs[0]);
        FirstEncoded(cs[0], s);
        CharsExactly(s[|e|..], cs[1..]);
        assert cs == [cs[0]] + cs[1..];
      }
    }
  }

  /** The characters with the Unicode property White_Space. */
  lemma {:induction false} WhiteExactly(c: nat)
    ensures White(c) <==>
            c in {0x9, 0xa, 0xb, 0xc, 0xd, 0x20, 0x85, 0xa0, 0x1680, 0x2000, 0x2001, 0x2002, 0x2003, 0x2004, 0x2005,
                  0x2006, 0x2007, 0x2008, 0x2009, 0x200a, 0x2028, 0x2029, 0x202f, 0x205f, 0x3000}
  {
  }
}
