/** Size lines: exactly which ones are read, and as what. */
module ChunkedSizes {
  import opened Bytes
  import opened Utf8
  import opened Hexadecimal
  import opened Chunked

  // ----- digits -----

  lemma {:induction false} HexSnoc(s: seq<nat>, acc: nat)
    requires s != [] && Hex(s)
    ensures Hex(s[..|s| - 1]) && Digit(s[|s| - 1]).Some?
    ensures HexValue(s, acc) == 16 * HexValue(s[..|s| - 1], acc) + Digit(s[|s| - 1]).value
    decreases |s|
  {
    if |s| == 1 {
      assert s[1..] == [];
    } else {
      HexSnoc(s[1..], 16 * acc + Digit(s[0]).value);
      assert s[1..][..|s| - 2] == s[..|s| - 1][1..];
    }
  }

  lemma {:induction false} DigitOfByte(d: nat, capital: bool)
    requires d < 16
    ensures Digit(DigitByte(d, capital)) == Some(d)
  {
    DigitBytes(d);
  }

  /** A digit of either case is read as its place among the sixteen. */
  lemma {:induction false} ByteOfDigit(c: nat) returns (capital: bool)
    requires Digit(c).Some?
    ensures Digit(c).value < 16 && DigitByte(Digit(c).value, capital) == c
  {
    DigitBytes(Digit(c).value);
    capital := c < 97;
  }

  lemma {:induction false} SpelledHex(n: nat, capitals: seq<bool>)
    requires Fits(n, |capitals|)
    ensures Hex(Spelled(n, capitals)) && HexValue(Spelled(n, capitals), 0) == n
    decreases |capitals|
  {
    if capitals != [] {
      var k := |capitals| - 1;
      var front, s: seq<nat> := Spelled(n / 16, capitals[..k]), Spelled(n, capitals);
      SpelledHex(n / 16, capitals[..k]);
      DigitOfByte(n % 16, capitals[k]);
      assert s[..k] == front && s[k] == DigitByte(n % 16, capitals[k]);
      assert forall i | 0 <= i < k :: s[i] == front[i];
      HexSnoc(s, 0);
    }
  }

  lemma {:induction false} HexSpelled(s: seq<nat>) returns (capitals: seq<bool>)
    requires Hex(s)
    ensures |capitals| == |s| && Fits(HexValue(s, 0), |s|) && s == Spelled(HexValue(s, 0), capitals)
  {
    if s == [] {
      capitals := [];
    } else {
      var k := |s| - 1;
      HexSnoc(s, 0);
      var front := HexSpelled(s[..k]);
      var capital := ByteOfDigit(s[k]);
      capitals := front + [capital];
      assert capitals[..k] == front && s == s[..k] + [s[k]];
    }
  }

  /** What is read as a number is what spells it, in digits of either case and with any leading zeros. */
  lemma {:induction false} HexExactly(s: seq<nat>, n: nat)
    ensures Spells(s, n) <==> s != [] && Hex(s) && HexValue(s, 0) == n
  {
    if Spells(s, n) {
      var capitals :| |capitals| == |s| && s == Spelled(n, capitals);
      SpelledHex(n, capitals);
    }
    if Hex(s) {
      var capitals := HexSpelled(s);
    }
  }

  // ----- lines -----

  ghost predicate Whites(s: seq<nat>) { forall i | 0 <= i < |s| :: White(s[i]) }

  /** A line in characters: white space, an optional plus sign, the digits, and then white space to the end or
      a semicolon and anything. */
  ghost predicate SizeLine(cs: seq<nat>, n: nat, pre: seq<nat>, plus: seq<nat>, digits: seq<nat>, post: seq<nat>) {
    && cs == pre + plus + digits + post && Whites(pre) && (plus == [] || plus == [43])
    && Spells(digits, n) && n < 0x1_0000_0000_0000_0000
    && (Whites(post) || (post != [] && post[0] == 59))
  }

  ghost predicate ReadsAs(cs: seq<nat>, n: nat) {
    exists pre, plus, digits, post :: SizeLine(cs, n, pre, plus, digits, post)
  }

  lemma {:induction false} TrimStartParts(s: seq<nat>) returns (pre: seq<nat>)
    ensures s == pre + TrimStart(s) && Whites(pre)
  {
    if s != [] && White(s[0]) {
      var p := TrimStartParts(s[1..]);
      pre := [s[0]] + p;
    } else {
      pre := [];
    }
  }

  lemma {:induction false} TrimStartOf(pre: seq<nat>, s: seq<nat>)
    requires Whites(pre) && s != [] && !White(s[0])
    ensures TrimStart(pre + s) == s
  {
    if pre == [] {
      assert pre + s == s;
    } else {
      assert (pre + s)[1..] == pre[1..] + s;
      TrimStartOf(pre[1..], s);
    }
  }

  lemma {:induction false} TrimEndParts(s: seq<nat>) returns (post: seq<nat>)
    ensures s == TrimEnd(s) + post && Whites(post)
  {
    if s != [] && White(s[|s| - 1]) {
      var p := TrimEndParts(s[..|s| - 1]);
      post := p + [s[|s| - 1]];
    } else {
      post := [];
    }
  }

  lemma {:induction false} UpToParts(s: seq<nat>, b: nat) returns (rest: seq<nat>)
    ensures s == UpTo(s, b) + rest && (rest == [] || rest[0] == b)
  {
    if s == [] || s[0] == b {
      rest := s;
    } else {
      rest := UpToParts(s[1..], b);
    }
  }

  lemma {:induction false} UpToOf(s: seq<nat>, t: seq<nat>, b: nat)
    requires b !in s && (t == [] || t[0] == b)
    ensures UpTo(s + t, b) == s
  {
    if s == [] {
      assert s + t == t;
    } else {
      assert (s + t)[1..] == s[1..] + t;
      UpToOf(s[1..], t, b);
    }
  }

  lemma {:induction false} DigitsPlain(digits: seq<nat>, n: nat)
    requires Spells(digits, n)
    ensures forall i | 0 <= i < |digits| :: digits[i] < 128 && !White(digits[i]) && digits[i] != 59 && digits[i] != 43
  {
    HexExactly(digits, n);
    forall i | 0 <= i < |digits|
      ensures digits[i] < 128 && !White(digits[i]) && digits[i] != 59 && digits[i] != 43
    {
      assert Digit(digits[i]).Some?;
    }
  }

  lemma {:induction false} NumberRead(plus: seq<nat>, digits: seq<nat>, n: nat)
    requires (plus == [] || plus == [43]) && Spells(digits, n) && n < 0x1_0000_0000_0000_0000
    ensures ParseHex(plus + digits) == Some(n)
  {
    HexExactly(digits, n);
    DigitsPlain(digits, n);
    if plus == [] {
      assert plus + digits == digits;
    } else {
      assert (plus + digits)[1..] == digits;
    }
  }

  lemma {:induction false} LineRead(cs: seq<nat>, n: nat, pre: seq<nat>, plus: seq<nat>, digits: seq<nat>,
      post: seq<nat>)
    requires SizeLine(cs, n, pre, plus, digits, post)
    ensures ParseHex(UpTo(TrimEnd(TrimStart(cs)), 59)) == Some(n)
  {
    hide TrimStart, TrimEnd, UpTo, ParseHex, White, Spells;
    DigitsPlain(digits, n);
    NumberRead(plus, digits, n);
    SignsPlain();
    var u := plus + digits;
    var t := u + post;
    assert digits != [] by { HexExactly(digits, n); }
    assert u[|u| - 1] == digits[|digits| - 1] && (u[0] == 43 || u[0] == digits[0]);
    assert cs == pre + t && t[0] == u[0];
    TrimStartOf(pre, t);
    if Whites(post) {
      TrimKeeps(u, post);
      UpToOf(u, [], 59);
      assert u + [] == u;
    } else {
      var rest := post[1..];
      TrimKeeps(u + [59], rest);
      assert t == u + [59] + rest;
      var k :| 0 <= k <= |rest| && TrimEnd(t) == u + [59] + rest[..k];
      assert u + [59] + rest[..k] == u + ([59] + rest[..k]);
      UpToOf(u, [59] + rest[..k], 59);
    }
  }

  lemma {:induction false} SignsPlain()
    ensures !White(43) && !White(59)
  {
  }

  lemma {:induction false} NumberParts(u: seq<nat>, n: nat) returns (plus: seq<nat>, digits: seq<nat>)
    requires ParseHex(u) == Some(n)
    ensures u == plus + digits && (plus == [] || plus == [43])
    ensures Spells(digits, n) && n < 0x1_0000_0000_0000_0000
  {
    if u != [] && u[0] == PLUS {
      plus, digits := [u[0]], u[1..];
    } else {
      plus, digits := [], u;
    }
    HexExactly(digits, n);
  }

  lemma {:induction false} Regroup5(pre: seq<nat>, plus: seq<nat>, digits: seq<nat>, ext: seq<nat>, white: seq<nat>)
    ensures pre + (plus + digits + ext + white) == pre + plus + digits + (ext + white)
  {
  }

  lemma {:induction false} ReadLine(cs: seq<nat>, n: nat)
    requires ParseHex(UpTo(TrimEnd(TrimStart(cs)), 59)) == Some(n)
    ensures ReadsAs(cs, n)
  {
    hide TrimStart, TrimEnd, UpTo, White, Spells, ParseHex, Whites;
    var t := TrimStart(cs);
    var pre := TrimStartParts(cs);
    var white := TrimEndParts(t);
    var ext := UpToParts(TrimEnd(t), 59);
    var plus, digits := NumberParts(UpTo(TrimEnd(t), 59), n);
    Regroup5(pre, plus, digits, ext, white);
    var post := ext + white;
    if ext == [] {
      assert post == white;
    } else {
      assert post[0] == ext[0];
    }
    assert SizeLine(cs, n, pre, plus, digits, post);
  }

  /** A line is read as `n` if and only if it is UTF-8 and has this form. */
  lemma {:induction false} SizeExactly(line: seq<Byte>, n: nat)
    ensures ParseSize(line) == Some(n) <==> Chars(line).Some? && ReadsAs(Chars(line).value, n)
  {
    if Chars(line).Some? {
      var cs := Chars(line).value;
      if ReadsAs(cs, n) {
        var pre, plus, digits, post :| SizeLine(cs, n, pre, plus, digits, post);
        LineRead(cs, n, pre, plus, digits, post);
      }
      if ParseSize(line) == Some(n) { ReadLine(cs, n); }
    }
  }
}
