/** Short bodies on which the two walks do not do what their caller expects. */
module ChunkedExamples {
  import opened Bytes
  import opened Utf8
  import opened Hexadecimal
  import opened Chunked
  import opened ChunkedSizes
  import opened ChunkedCoding

  lemma {:induction false} HexFour(s: seq<nat>, acc: nat)
    requires Hex(s) && |s| >= 4
    ensures HexValue(s, acc) ==
            HexValue(s[4..], 0x1_0000 * acc + 0x1000 * Digit(s[0]).value + 0x100 * Digit(s[1]).value
                             + 0x10 * Digit(s[2]).value + Digit(s[3]).value)
  {
    hide HexValue;
    var a, b, c := s[1..], s[2..], s[3..];
    var v := 16 * acc + Digit(s[0]).value;
    var w := 16 * v + Digit(s[1]).value;
    HexOne(s, acc);
    HexOne(a, v);
    HexOne(b, w);
    HexOne(c, 16 * w + Digit(s[2]).value);
    assert a[1..] == b && b[1..] == c && c[1..] == s[4..];
  }

  lemma {:induction false} HexOne(s: seq<nat>, acc: nat)
    requires Hex(s) && s != []
    ensures HexValue(s, acc) == HexValue(s[1..], 16 * acc + Digit(s[0]).value)
  {
  }

  /** Fourteen digits F and two more. */
  function Huge(a: Byte, b: Byte): seq<Byte> { [70, 70, 70, 70, 70, 70, 70, 70, 70, 70, 70, 70, 70, 70, a, b] }

  lemma {:induction false} HugeValue(a: Byte, b: Byte)
    requires Digit(a).Some? && Digit(b).Some?
    ensures Hex(Huge(a, b)) && HexValue(Huge(a, b), 0) == WORD_LIMIT - 256 + 16 * Digit(a).value + Digit(b).value
  {
    hide HexValue;
    var s: seq<nat> := Huge(a, b);
    HexFour(s, 0);
    HexFour(s[4..], 0xffff);
    HexFour(s[8..], 0xffff_ffff);
    HexFour(s[12..], 0xffff_ffff_ffff);
    assert s[4..][4..] == s[8..] && s[8..][4..] == s[12..] && s[12..][4..] == [];
    NoDigits(0x1_0000 * 0xffff_ffff_ffff + 0xff00 + 16 * Digit(a).value + Digit(b).value);
  }

  lemma {:induction false} HugeSpells(a: Byte, b: Byte)
    requires Digit(a).Some? && Digit(b).Some?
    ensures Spells(Huge(a, b), 0x1_0000_0000_0000_0000 - 256 + 16 * Digit(a).value + Digit(b).value)
  {
    HugeValue(a, b);
    HexExactly(Huge(a, b), WORD_LIMIT - 256 + 16 * Digit(a).value + Digit(b).value);
  }

  lemma {:induction false} NoDigits(acc: nat)
    ensures HexValue([], acc) == acc
  {
  }

  lemma {:induction false} AsciiChars(s: seq<Byte>)
    requires Ascii(s)
    ensures Chars(s) == Some(s)
  {
    CharsAscii(s, []);
    assert s + [] == s;
  }

  /** A size line of such digits at the start of a body. */
  lemma {:induction false} HugeLine(a: Byte, b: Byte, ext: seq<Byte>, tail: seq<Byte>, body: Body)
    requires Digit(a).Some? && Digit(b).Some? && Ascii(ext) && NoCrlf(ext) && (ext == [] || ext[0] == SEMI)
    requires body == Huge(a, b) + ext + [CR, LF] + tail
    ensures LineEnd(body, 0) == 16 + |ext|
    ensures ParseSize(body[0..16 + |ext|]) == Some(WORD_LIMIT - 256 + 16 * Digit(a).value + Digit(b).value)
  {
    hide LineEnd, ParseSize, HexValue;
    var digits := Huge(a, b);
    HugeSpells(a, b);
    AsciiChars(ext);
    LineNoCrlf(digits, [], ext, WORD_LIMIT - 256 + 16 * Digit(a).value + Digit(b).value);
    ReadableExactly(digits, [], ext, WORD_LIMIT - 256 + 16 * Digit(a).value + Digit(b).value);
    assert digits + [] + ext == digits + ext && body[0..] == body;
    LineEndAt(body, 0, digits + ext, tail);
  }

  /** `FFFFFFFFFFFFFFEC` and a line end. */
  function Endless(): seq<Byte> { Huge(69, 67) + [] + [CR, LF] + [] }

  /** The sum of the offset and this size is 2^64: the loop is back where it was, for ever. A build that
      checks for overflow panics. */
  lemma {:induction false} EndlessBody(passes: nat)
    ensures Walk(Endless(), 0, false, passes) == Running && Completes(Endless(), true) == Panicked
  {
    hide LineEnd, ParseSize;
    var body: Body := Endless();
    HugeLine(69, 67, [], [], body);
    assert OnePass(body, 0, false) == Go(0);
    if passes > 0 { EndlessBody(passes - 1); }
  }

  /** `FFFFFFFFFFFFFFFB;0` and a line end. */
  function JumpsBack(): seq<Byte> { Huge(70, 66) + [SEMI, 48] + [CR, LF] + [] }

  lemma {:induction false} ZeroLine(body: Body)
    requires body == JumpsBack()
    ensures LineEnd(body, 17) == 18 && ParseSize(body[17..18]) == Some(0)
  {
    hide LineEnd, ParseSize;
    assert body[17..] == [48] + [CR, LF] + [];
    OneDigit(48, 0);
    ReadableExactly([48], [], [], 0);
    LineNoCrlf([48], [], [], 0);
    assert [48] + [] + [] == [48];
    LineEndAt(body, 17, [48], []);
  }

  /** The sum falls on the `0` of the line itself, which is read as the last chunk: the body counts as
      complete, and decoding it slices backwards. */
  lemma {:induction false} JumpsBackPanics()
    ensures Completes(JumpsBack(), false) == Complete && DechunkFrom(JumpsBack(), 0, false) == None
    ensures Completes(JumpsBack(), true) == Panicked
  {
    hide LineEnd, ParseSize;
    var body: Body := JumpsBack();
    NoCrlfShort();
    HugeLine(70, 66, [SEMI, 48], [], body);
    ZeroLine(body);
    assert OnePass(body, 0, false) == Go(17);
    assert OnePass(body, 17, false) == Stop(Complete);
    assert Walk(body, 17, false, 20) == Complete;
    TakesAll(body, 0, 18, WORD_LIMIT - 5);
  }

  lemma {:induction false} NoCrlfShort()
    ensures NoCrlf([SEMI, 48])
  {
    var s: seq<Byte> := [SEMI, 48];
    assert forall k | 0 <= k < |s| :: s[k] != CR;
  }

  lemma {:induction false} OneDigit(digit: Byte, n: nat)
    requires Digit(digit) == Some(n)
    ensures Spells([digit], n)
  {
    assert HexValue([digit][1..], n) == n;
    HexExactly([digit], n);
  }

  /** Two digits: the shortest body on which the decoder slices beyond the end. */
  lemma {:induction false} CutPanics(checked: bool)
    ensures DechunkFrom([49, 97], 0, checked) == None
  {
    hide Spells, ParseSize, Completes, DechunkFrom, AllCoded, Data;
    var t: seq<Byte> := [49, 97];
    OneDigit(49, 1);
    Nothing();
    ReadableExactly([49], [], [], 1);
    assert [49] + [] + [] == [49] && t[..1] == [49];
    NothingCoded();
    CutInLine([], t, t, checked);
  }

  lemma {:induction false} NothingCoded()
    ensures AllCoded([]) == [] && Data([]) == []
  {
  }

  lemma {:induction false} OneCoded(c: Chunk)
    ensures AllCoded([c]) == Coded(c)
  {
    assert [c][1..] == [];
  }

  /** `1 ;x`, one byte of data, and the last chunk: nothing is decoded and the body never completes. */
  lemma {:induction false} SpaceEndsBody(checked: bool)
    ensures var body := [49, 32, SEMI, 120, CR, LF, 65, CR, LF, 48, CR, LF];
            Completes(body, checked) == Incomplete && DechunkFrom(body, 0, checked) == Some([])
  {
    hide Spells, Completes, DechunkFrom, AllCoded, Data, Chars;
    var c := Chunk([49], [32], [SEMI, 120], [65]);
    var body: Body := [49, 32, SEMI, 120, CR, LF, 65, CR, LF, 48, CR, LF];
    OneDigit(49, 1);
    OneDigit(48, 0);
    OneCoded(c);
    assert body == AllCoded([c]) + ([48] + [] + [] + [13, 10] + []);
    Decodes([c], [48], [], [], [], body, checked);
    assert ReadableCount([c]) == 0 && [c][..0] == [];
    NoData();
  }

  lemma {:induction false} NoData()
    ensures Data([]) == []
  {
  }

  /** `a`, ten bytes and the last chunk. */
  lemma {:induction false} SmallLetter(checked: bool)
    ensures var ten := [48, 49, 50, 51, 52, 53, 54, 55, 56, 57];
            var body := [97, 13, 10] + ten + [13, 10, 48, 13, 10, 13, 10];
            Completes(body, checked) == Complete && DechunkFrom(body, 0, checked) == Some(ten)
  {
    hide Spells, Completes, DechunkFrom, AllCoded, Data;
    var ten: seq<Byte> := [48, 49, 50, 51, 52, 53, 54, 55, 56, 57];
    var c := Chunk([97], [], [], ten);
    var body: Body := [97, 13, 10] + ten + [13, 10, 48, 13, 10, 13, 10];
    OneDigit(97, 10);
    OneDigit(48, 0);
    OneCoded(c);
    Nothing();
    assert body == AllCoded([c]) + ([48] + [] + [] + [13, 10] + [13, 10]);
    Decodes([c], [48], [], [], [13, 10], body, checked);
    assert ReadableCount([c]) == 1 && [c][..1] == [c];
    OneData(c);
  }

  lemma {:induction false} OneData(c: Chunk)
    ensures Data([c]) == c.data
  {
    assert [c][1..] == [];
  }
}
