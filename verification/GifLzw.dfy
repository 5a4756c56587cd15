/** The LZW encoder of the GIF writer, and a decoder in the manner of Appendix F of the
    GIF89a specification. */
module GifLzw {
  import opened Bytes
  import opened BitStream

  datatype Code = Code(value: nat, width: nat)

  function CodeBits(cs: seq<Code>): seq<bool> {
    if cs == [] then [] else LowBits(cs[0].value, cs[0].width) + CodeBits(cs[1..])
  }

  predicate CodeSize(m: nat) { 2 <= m <= 8 }

  function ClearCode(m: nat): nat { Pow2(m) }

  function EoiCode(m: nat): nat { Pow2(m) + 1 }

  lemma {:induction false} Sizes(m: nat)
    requires CodeSize(m)
    ensures 4 <= Pow2(m) <= 256 && Pow2(m + 1) == 2 * Pow2(m)
  {
    Pow2Eight();
    Pow2Monotone(2, m);
    Pow2Monotone(m, 8);
    assert Pow2(2) == 4;
  }

  lemma {:induction false} Pow2Twelve()
    ensures Pow2(12) == 4096
  {
    Pow2Eight();
    Pow2Sum(8, 4);
    assert Pow2(4) == 16;
  }

  predicate Pixels(m: nat, xs: seq<Byte>) { forall i :: 0 <= i < |xs| ==> xs[i] < Pow2(m) }

  // ----- the codes the encoder emits -----

  /** The encoder's table, its next free code and the current code width. */
  datatype Enc = Enc(table: map<seq<Byte>, nat>, next: nat, width: nat)

  function Singles(n: nat): map<seq<Byte>, nat>
    requires n <= 256
  {
    if n == 0 then map[] else Singles(n - 1)[[n - 1] := n - 1]
  }

  lemma {:induction false} SinglesAt(n: nat, s: seq<Byte>)
    requires n <= 256
    ensures s in Singles(n) <==> |s| == 1 && s[0] < n
    ensures s in Singles(n) ==> Singles(n)[s] == s[0]
  {
    if n > 0 {
      SinglesAt(n - 1, s);
      if |s| == 1 {
        assert s == [s[0]];
      }
    }
  }

  function Fresh(m: nat): Enc
    requires CodeSize(m)
  {
    Sizes(m);
    Enc(Singles(Pow2(m)), Pow2(m) + 2, m + 1)
  }

  function CodeOf(e: Enc, s: seq<Byte>): nat { if s in e.table then e.table[s] else 0 }

  function Added(e: Enc, s: seq<Byte>): Enc {
    Enc(e.table[s := e.next], e.next + 1,
        if e.next + 1 == Pow2(e.width) + 1 && e.width < 12 then e.width + 1 else e.width)
  }

  /** Codes for the pixels in `buf`, a string of the table, and the pixels after them. */
  function Emitted(m: nat, e: Enc, buf: seq<Byte>, rest: seq<Byte>): seq<Code>
    requires CodeSize(m)
    decreases |rest|
  {
    var code := Code(CodeOf(e, buf), e.width);
    if rest == [] then [code, Code(EoiCode(m), e.width)]
    else
      var nb := buf + [rest[0]];
      if nb in e.table then Emitted(m, e, nb, rest[1..])
      else if e.next < 4096 then [code] + Emitted(m, Added(e, nb), [rest[0]], rest[1..])
      else [code, Code(ClearCode(m), e.width)] + Emitted(m, Fresh(m), [rest[0]], rest[1..])
  }

  /** The encoder's state at its last data code. */
  function Final(m: nat, e: Enc, buf: seq<Byte>, rest: seq<Byte>): Enc
    requires CodeSize(m)
    decreases |rest|
  {
    if rest == [] then e
    else
      var nb := buf + [rest[0]];
      if nb in e.table then Final(m, e, nb, rest[1..])
      else Final(m, if e.next < 4096 then Added(e, nb) else Fresh(m), [rest[0]], rest[1..])
  }

  function LzwCodes(m: nat, xs: seq<Byte>): seq<Code>
    requires CodeSize(m) && xs != []
  {
    [Code(ClearCode(m), m + 1)] + Emitted(m, Fresh(m), [xs[0]], xs[1..])
  }

  function Padding(bits: nat): nat { (8 - bits % 8) % 8 }

  /** The whole stream of bits, padded to a byte. */
  function LzwBits(m: nat, xs: seq<Byte>): seq<bool>
    requires CodeSize(m) && xs != []
  {
    var bits := CodeBits(LzwCodes(m, xs));
    bits + BitStream.ZeroBits(Padding(|bits|))
  }

  // ----- the decoder -----

  datatype End = SawEoi | OutOfBits | BadCode

  /** The string of a code: a pixel, a table entry, or the entry about to be made. */
  function CodeString(m: nat, dict: seq<seq<Byte>>, prev: Option<seq<Byte>>, c: nat): Option<seq<Byte>> {
    var first := Pow2(m) + 2;
    if c < Pow2(m) then (if c < 256 then Some([c]) else None)
    else if first <= c < first + |dict| then Some(dict[c - first])
    else if prev.Some? && |prev.value| > 0 && c == first + |dict| && c < 4096 then Some(prev.value + [prev.value[0]])
    else None
  }

  /** After a code for `s`, the previous string gets an entry with the first pixel of `s`. */
  function DictAfter(m: nat, dict: seq<seq<Byte>>, prev: Option<seq<Byte>>, s: seq<Byte>): seq<seq<Byte>> {
    if prev.Some? && s != [] && Pow2(m) + 2 + |dict| < 4096 then dict + [prev.value + [s[0]]] else dict
  }

  function WidthAfter(m: nat, before: seq<seq<Byte>>, after: seq<seq<Byte>>, width: nat): nat {
    if |after| > |before| && Pow2(m) + 2 + |after| == Pow2(width) && width < 12 then width + 1 else width
  }

  /** The pixels of a bit stream from a decoder state, and how the stream ends. */
  function Decode(m: nat, dict: seq<seq<Byte>>, prev: Option<seq<Byte>>, width: nat, bits: seq<bool>): (seq<Byte>, End)
    requires width > 0
    decreases |bits|
  {
    if |bits| < width then ([], OutOfBits)
    else
      var c, tail := Value(bits[..width]), bits[width..];
      if c == Pow2(m) then Decode(m, [], None, m + 1, tail)
      else if c == Pow2(m) + 1 then ([], SawEoi)
      else match CodeString(m, dict, prev, c)
        case None => ([], BadCode)
        case Some(s) =>
          var after := DictAfter(m, dict, prev, s);
          var (xs, end) := Decode(m, after, Some(s), WidthAfter(m, dict, after, width), tail);
          (s + xs, end)
  }

  // ----- lock step -----

  /** The single pixels and the strings `strs`, numbered in order. */
  function TableOf(m: nat, strs: seq<seq<Byte>>): map<seq<Byte>, nat>
    requires CodeSize(m)
  {
    Sizes(m);
    if strs == [] then Singles(Pow2(m))
    else
      var k := |strs| - 1;
      TableOf(m, strs[..k])[strs[k] := Pow2(m) + 2 + k]
  }

  /** Each string was new to the table when it was added. */
  ghost predicate AllNew(m: nat, strs: seq<seq<Byte>>)
    requires CodeSize(m)
  {
    strs != [] ==>
      var k := |strs| - 1;
      AllNew(m, strs[..k]) && |strs[k]| > 1 && strs[k] !in TableOf(m, strs[..k])
  }

  lemma {:induction false} SingleIn(m: nat, strs: seq<seq<Byte>>, x: Byte)
    requires CodeSize(m) && AllNew(m, strs) && x < Pow2(m)
    ensures [x] in TableOf(m, strs) && TableOf(m, strs)[[x]] == x
  {
    Sizes(m);
    if strs == [] {
      SinglesAt(Pow2(m), [x]);
    } else {
      SingleIn(m, strs[..|strs| - 1], x);
    }
  }

  /** A string of the table is a pixel or stands at the place its code says. */
  lemma {:induction false} TableAt(m: nat, strs: seq<seq<Byte>>, s: seq<Byte>)
    requires CodeSize(m) && AllNew(m, strs) && s in TableOf(m, strs)
    ensures var c, first := TableOf(m, strs)[s], Pow2(m) + 2;
            (|s| == 1 && s[0] < Pow2(m) && c == s[0]) || (first <= c < first + |strs| && strs[c - first] == s)
  {
    Sizes(m);
    if strs == [] {
      SinglesAt(Pow2(m), s);
    } else if s != strs[|strs| - 1] {
      TableAt(m, strs[..|strs| - 1], s);
    }
  }

  /** The encoder is one entry ahead of the decoder, and that entry starts with the string
      of the last code and ends with the first pixel still to be coded. */
  ghost predicate InStep(m: nat, e: Enc, strs: seq<seq<Byte>>, prev: Option<seq<Byte>>, buf: seq<Byte>) {
    && CodeSize(m) && AllNew(m, strs) && e.table == TableOf(m, strs) && buf in e.table && |buf| > 0
    && e.next == Pow2(m) + 2 + |strs| <= 4096
    && m + 1 <= e.width <= 12 && e.next <= Pow2(e.width)
    && (prev.None? ==> strs == [] && e.width == m + 1)
    && (prev.Some? ==> |prev.value| > 0 && |strs| > 0 && strs[|strs| - 1] == prev.value + [buf[0]])
  }

  function Behind(strs: seq<seq<Byte>>): seq<seq<Byte>> {
    if strs == [] then [] else strs[..|strs| - 1]
  }

  lemma {:induction false} ReadCode(c: nat, w: nat, tail: seq<bool>)
    requires c < Pow2(w)
    ensures var bits := LowBits(c, w) + tail;
            |bits| >= w && Value(bits[..w]) == c && bits[w..] == tail
  {
    ValueLowBits(c, w);
    assert (LowBits(c, w) + tail)[..w] == LowBits(c, w);
  }

  /** Reading the code of `buf`, the decoder recovers `buf`, catches up with the table and
      changes width exactly when the encoder is about to. */
  lemma {:induction false} DataStep(m: nat, e: Enc, strs: seq<seq<Byte>>, prev: Option<seq<Byte>>, buf: seq<Byte>,
      tail: seq<bool>)
    requires InStep(m, e, strs, prev, buf)
    ensures CodeOf(e, buf) < Pow2(e.width)
    ensures var width := if e.next == Pow2(e.width) && e.width < 12 then e.width + 1 else e.width;
            var (xs, end) := Decode(m, strs, Some(buf), width, tail);
            Decode(m, Behind(strs), prev, e.width, LowBits(CodeOf(e, buf), e.width) + tail) == (buf + xs, end)
  {
    Sizes(m);
    Pow2Monotone(m + 1, e.width);
    var c := CodeOf(e, buf);
    var dict := Behind(strs);
    CodeInTable(m, e, strs, prev, buf);
    ReadCode(c, e.width, tail);
    assert DictAfter(m, dict, prev, buf) == strs;
  }

  lemma {:induction false} CodeInTable(m: nat, e: Enc, strs: seq<seq<Byte>>, prev: Option<seq<Byte>>, buf: seq<Byte>)
    requires InStep(m, e, strs, prev, buf)
    ensures var c := CodeOf(e, buf);
            c < e.next && c != Pow2(m) && c != Pow2(m) + 1 &&
            CodeString(m, Behind(strs), prev, c) == Some(buf)
  {
    Sizes(m);
    TableAt(m, strs, buf);
    var c, first := CodeOf(e, buf), Pow2(m) + 2;
    if c == first + |strs| - 1 && strs != [] {
      assert buf == prev.value + [buf[0]];
      assert buf[0] == prev.value[0];
    } else if c >= first {
      assert Behind(strs)[c - first] == buf;
    } else {
      assert buf == [buf[0]];
    }
  }

  lemma {:induction false} TableGrows(m: nat, e: Enc, strs: seq<seq<Byte>>, prev: Option<seq<Byte>>, buf: seq<Byte>,
      x: Byte)
    requires InStep(m, e, strs, prev, buf) && e.next < 4096 && x < Pow2(m) && buf + [x] !in e.table
    ensures InStep(m, Added(e, buf + [x]), strs + [buf + [x]], Some(buf), [x])
  {
    hide Decode;
    Sizes(m);
    Pow2Twelve();
    var nb := buf + [x];
    assert (strs + [nb])[..|strs|] == strs;
    SingleIn(m, strs, x);
  }

  lemma {:induction false} FreshInStep(m: nat, x: Byte)
    requires CodeSize(m) && x < Pow2(m)
    ensures InStep(m, Fresh(m), [], None, [x])
  {
    Sizes(m);
    Pow2Twelve();
    SinglesAt(Pow2(m), [x]);
  }

  function EndOf(f: Enc, pad: nat): End {
    if f.next == Pow2(f.width) && f.width < 12 && pad == 0 then OutOfBits else SawEoi
  }

  lemma {:induction false} CodeBitsCons(c: Code, cs: seq<Code>, tail: seq<bool>)
    ensures CodeBits([c] + cs) + tail == LowBits(c.value, c.width) + (CodeBits(cs) + tail)
  {
    assert ([c] + cs)[1..] == cs;
  }

  /** The bits still to be written from an encoder state, with `pad` zeros after them. */
  function Stream(m: nat, e: Enc, buf: seq<Byte>, rest: seq<Byte>, pad: nat): seq<bool>
    requires CodeSize(m)
  {
    CodeBits(Emitted(m, e, buf, rest)) + BitStream.ZeroBits(pad)
  }

  lemma {:induction false} AddedStream(m: nat, e: Enc, buf: seq<Byte>, rest: seq<Byte>, pad: nat)
    requires CodeSize(m) && rest != [] && buf + [rest[0]] !in e.table && e.next < 4096
    ensures Stream(m, e, buf, rest, pad) ==
            LowBits(CodeOf(e, buf), e.width) + Stream(m, Added(e, buf + [rest[0]]), [rest[0]], rest[1..], pad)
  {
    CodeBitsCons(Code(CodeOf(e, buf), e.width),
      Emitted(m, Added(e, buf + [rest[0]]), [rest[0]], rest[1..]), BitStream.ZeroBits(pad));
  }

  lemma {:induction false} ResetStream(m: nat, e: Enc, buf: seq<Byte>, rest: seq<Byte>, pad: nat)
    requires CodeSize(m) && rest != [] && buf + [rest[0]] !in e.table && e.next >= 4096
    ensures Stream(m, e, buf, rest, pad) ==
            LowBits(CodeOf(e, buf), e.width) +
            (LowBits(ClearCode(m), e.width) + Stream(m, Fresh(m), [rest[0]], rest[1..], pad))
  {
    var code, clear := Code(CodeOf(e, buf), e.width), Code(ClearCode(m), e.width);
    var codes := Emitted(m, Fresh(m), [rest[0]], rest[1..]);
    assert [code, clear] + codes == [code] + ([clear] + codes);
    CodeBitsCons(code, [clear] + codes, BitStream.ZeroBits(pad));
    CodeBitsCons(clear, codes, BitStream.ZeroBits(pad));
  }

  lemma {:induction false} ClearStep(m: nat, dict: seq<seq<Byte>>, prev: Option<seq<Byte>>, width: nat, tail: seq<bool>)
    requires CodeSize(m) && m + 1 <= width
    ensures Decode(m, dict, prev, width, LowBits(ClearCode(m), width) + tail) == Decode(m, [], None, m + 1, tail)
  {
    Sizes(m);
    Pow2Monotone(m + 1, width);
    ReadCode(ClearCode(m), width, tail);
  }

  lemma {:induction false} Rotate(buf: seq<Byte>, rest: seq<Byte>)
    requires rest != []
    ensures (buf + [rest[0]]) + rest[1..] == buf + rest
    ensures buf + ([rest[0]] + rest[1..]) == buf + rest
  {
  }

  /** From states in lock step the decoder recovers everything still to be coded. */
  lemma {:induction false} LockStep(m: nat, e: Enc, strs: seq<seq<Byte>>, prev: Option<seq<Byte>>, buf: seq<Byte>,
      rest: seq<Byte>, pad: nat)
    requires InStep(m, e, strs, prev, buf) && Pixels(m, rest)
    ensures Decode(m, Behind(strs), prev, e.width, Stream(m, e, buf, rest, pad)) ==
            (buf + rest, EndOf(Final(m, e, buf, rest), pad))
    decreases |rest|
  {
    hide Decode, AllNew, TableOf, Pow2, CodeBits, LowBits;
    if rest == [] {
      assert buf + rest == buf;
      LastStep(m, e, strs, prev, buf, pad);
    } else {
      Rotate(buf, rest);
      var x, more := rest[0], rest[1..];
      var nb := buf + [x];
      assert Pixels(m, more);
      if nb in e.table {
        LockStep(m, e, strs, prev, nb, more, pad);
      } else if e.next < 4096 {
        TableGrows(m, e, strs, prev, buf, x);
        LockStep(m, Added(e, nb), strs + [nb], Some(buf), [x], more, pad);
        AddedStream(m, e, buf, rest, pad);
        DataStep(m, e, strs, prev, buf, Stream(m, Added(e, nb), [x], more, pad));
        assert Behind(strs + [nb]) == strs;
      } else {
        FreshInStep(m, x);
        LockStep(m, Fresh(m), [], None, [x], more, pad);
        ResetStep(m, e, strs, prev, buf, rest, pad);
      }
    }
  }

  /** A full table: the data code, then the clear code at the same width. */
  lemma {:induction false} ResetStep(m: nat, e: Enc, strs: seq<seq<Byte>>, prev: Option<seq<Byte>>, buf: seq<Byte>,
      rest: seq<Byte>, pad: nat)
    requires InStep(m, e, strs, prev, buf) && rest != [] && e.next == 4096
    requires buf + [rest[0]] !in e.table
    ensures var (xs, end) := Decode(m, [], None, m + 1, Stream(m, Fresh(m), [rest[0]], rest[1..], pad));
            Decode(m, Behind(strs), prev, e.width, Stream(m, e, buf, rest, pad)) == (buf + xs, end)
  {
    var tail := Stream(m, Fresh(m), [rest[0]], rest[1..], pad);
    WidthTwelve(e);
    ResetStream(m, e, buf, rest, pad);
    DataStep(m, e, strs, prev, buf, LowBits(ClearCode(m), e.width) + tail);
    ClearStep(m, strs, Some(buf), e.width, tail);
  }

  lemma {:induction false} WidthTwelve(e: Enc)
    requires e.next == 4096 <= Pow2(e.width) && e.width <= 12
    ensures e.width == 12
  {
    Pow2Twelve();
    assert Pow2(12) == 2 * Pow2(11);
    if e.width < 12 {
      Pow2Monotone(e.width, 11);
      assert false;
    }
  }

  /** The last data code and the end code: the decoder may have widened before the latter. */
  lemma {:induction false} LastStep(m: nat, e: Enc, strs: seq<seq<Byte>>, prev: Option<seq<Byte>>, buf: seq<Byte>,
      pad: nat)
    requires InStep(m, e, strs, prev, buf)
    ensures Decode(m, Behind(strs), prev, e.width, Stream(m, e, buf, [], pad)) ==
            (buf, EndOf(e, pad))
  {
    var zeros := BitStream.ZeroBits(pad);
    LastStream(m, e, buf, pad);
    DataStep(m, e, strs, prev, buf, LowBits(EoiCode(m), e.width) + zeros);
    Sizes(m);
    Pow2Monotone(m + 1, e.width);
    ReadCode(EoiCode(m), e.width, zeros);
    if e.next == Pow2(e.width) && e.width < 12 && pad > 0 {
      WiderEoi(EoiCode(m), e.width, pad);
    }
    assert buf + [] == buf;
  }

  /** One padding bit is enough for the end code to be read at the wider width. */
  lemma {:induction false} WiderEoi(c: nat, w: nat, pad: nat)
    requires c < Pow2(w) && pad > 0
    ensures var bits := LowBits(c, w) + BitStream.ZeroBits(pad);
            |bits| >= w + 1 && Value(bits[..w + 1]) == c
  {
    var bits := LowBits(c, w) + BitStream.ZeroBits(pad);
    assert bits[..w + 1] == LowBits(c, w) + [false];
    ValueZeroExtend(LowBits(c, w));
    ValueLowBits(c, w);
  }

  /** Decoding the encoder's bits gives exactly the pixels, for every code size and every
      image, through all width changes and table resets. The end code is found too, unless
      the decoder widens after the last pixel code and no padding bit follows the end code. */
  lemma {:induction false} RoundTrip(m: nat, xs: seq<Byte>)
    requires 2 <= m <= 8 && Pixels(m, xs) && xs != []
    ensures var f := Final(m, Fresh(m), [xs[0]], xs[1..]);
            var (ys, end) := Decode(m, [], None, m + 1, LzwBits(m, xs));
            ys == xs &&
            (end == OutOfBits || end == SawEoi) &&
            (end == SawEoi <==> !(f.next == Pow2(f.width) && f.width < 12 && |CodeBits(LzwCodes(m, xs))| % 8 == 0))
  {
    var pad := Padding(|CodeBits(LzwCodes(m, xs))|);
    FirstStream(m, xs);
    ReadBack(m, xs, pad);
    PaddingZero(|CodeBits(LzwCodes(m, xs))|);
  }

  lemma {:induction false} PaddingZero(bits: nat)
    ensures Padding(bits) == 0 <==> bits % 8 == 0
  {
  }

  lemma {:induction false} ReadBack(m: nat, xs: seq<Byte>, pad: nat)
    requires CodeSize(m) && Pixels(m, xs) && xs != []
    ensures Decode(m, [], None, m + 1, LowBits(ClearCode(m), m + 1) + Stream(m, Fresh(m), [xs[0]], xs[1..], pad)) ==
            (xs, EndOf(Final(m, Fresh(m), [xs[0]], xs[1..]), pad))
  {
    hide Stream, Fresh, Decode, Final, EndOf;
    FreshInStep(m, xs[0]);
    ClearStep(m, [], None, m + 1, Stream(m, Fresh(m), [xs[0]], xs[1..], pad));
    LockStep(m, Fresh(m), [], None, [xs[0]], xs[1..], pad);
    assert [xs[0]] + xs[1..] == xs;
  }

  lemma {:induction false} FirstStream(m: nat, xs: seq<Byte>)
    requires CodeSize(m) && xs != []
    ensures var pad := Padding(|CodeBits(LzwCodes(m, xs))|);
            LzwBits(m, xs) == LowBits(ClearCode(m), m + 1) + Stream(m, Fresh(m), [xs[0]], xs[1..], pad)
  {
    CodeBitsCons(Code(ClearCode(m), m + 1), Emitted(m, Fresh(m), [xs[0]], xs[1..]),
      BitStream.ZeroBits(Padding(|CodeBits(LzwCodes(m, xs))|)));
  }

  lemma {:induction false} LastStream(m: nat, e: Enc, buf: seq<Byte>, pad: nat)
    requires CodeSize(m)
    ensures Stream(m, e, buf, [], pad) ==
            LowBits(CodeOf(e, buf), e.width) + (LowBits(EoiCode(m), e.width) + BitStream.ZeroBits(pad))
  {
    var code, eoi, zeros := Code(CodeOf(e, buf), e.width), Code(EoiCode(m), e.width), BitStream.ZeroBits(pad);
    assert [code, eoi] == [code] + ([eoi] + []);
    CodeBitsCons(code, [eoi] + [], zeros);
    CodeBitsCons(eoi, [], zeros);
    assert CodeBits([]) + zeros == zeros;
  }

  // ----- what every stream looks like -----

  lemma {:induction false} FinalWidth(m: nat, e: Enc, buf: seq<Byte>, rest: seq<Byte>)
    requires CodeSize(m) && m + 1 <= e.width <= 12
    ensures m + 1 <= Final(m, e, buf, rest).width <= 12
    decreases |rest|
  {
    if rest != [] {
      var nb := buf + [rest[0]];
      if nb in e.table {
        FinalWidth(m, e, nb, rest[1..]);
      } else {
        FinalWidth(m, if e.next < 4096 then Added(e, nb) else Fresh(m), [rest[0]], rest[1..]);
      }
    }
  }

  lemma {:induction false} CodesCons(c: Code, cs: seq<Code>)
    ensures CodeBits([c] + cs) == LowBits(c.value, c.width) + CodeBits(cs)
  {
    assert ([c] + cs)[1..] == cs;
  }

  /** The codes end with the end code, as wide as the encoder's codes are by then. */
  lemma {:induction false} EndsWithEoi(m: nat, e: Enc, buf: seq<Byte>, rest: seq<Byte>) returns (init: seq<Code>)
    requires CodeSize(m)
    ensures Emitted(m, e, buf, rest) == init + [Code(Pow2(m) + 1, Final(m, e, buf, rest).width)]
    decreases |rest|
  {
    hide Pow2, Fresh, Added, CodeOf;
    var code := Code(CodeOf(e, buf), e.width);
    if rest == [] {
      init := [code];
    } else {
      var nb, more := buf + [rest[0]], rest[1..];
      if nb in e.table {
        init := EndsWithEoi(m, e, nb, more);
      } else {
        init := EndsWithEoi(m, if e.next < 4096 then Added(e, nb) else Fresh(m), [rest[0]], more);
        init := (if e.next < 4096 then [code] else [code, Code(ClearCode(m), e.width)]) + init;
      }
    }
  }

  lemma {:induction false} CodesSnoc(cs: seq<Code>, c: Code)
    ensures CodeBits(cs + [c]) == CodeBits(cs) + LowBits(c.value, c.width)
  {
    if cs == [] {
      assert cs + [c] == [c] + [];
      CodesCons(c, []);
    } else {
      assert cs + [c] == [cs[0]] + (cs[1..] + [c]);
      CodesSnoc(cs[1..], c);
      CodesCons(cs[0], cs[1..] + [c]);
    }
  }

  /** The bits of a stream: whole bytes, which begin with the code 2^m in m + 1 bits and end with the code 2^m + 1,
      in at most 12 bits, and fewer than eight zeros. */
  ghost predicate Framed(m: nat, bits: seq<bool>, w: nat, pad: nat) {
    && |bits| % 8 == 0 && m + 1 <= w <= 12 && pad < 8 && m + 1 + w + pad <= |bits|
    && Value(bits[..m + 1]) == Pow2(m)
    && Value(bits[|bits| - pad - w..|bits| - pad]) == Pow2(m) + 1
    && bits[|bits| - pad..] == BitStream.ZeroBits(pad)
  }

  lemma {:induction false} EveryStreamFramed(m: nat, xs: seq<Byte>)
    requires 2 <= m <= 8 && xs != []
    ensures Framed(m, LzwBits(m, xs), Final(m, Fresh(m), [xs[0]], xs[1..]).width, Padding(|CodeBits(LzwCodes(m, xs))|))
  {
    hide Pow2, LowBits, CodeBits, Emitted, Final, Fresh, Value;
    var e, w := Fresh(m), Final(m, Fresh(m), [xs[0]], xs[1..]).width;
    FreshWidth(m);
    FinalWidth(m, e, [xs[0]], xs[1..]);
    var init := EndsWithEoi(m, e, [xs[0]], xs[1..]);
    CodesCons(Code(ClearCode(m), m + 1), Emitted(m, e, [xs[0]], xs[1..]));
    CodesSnoc(init, Code(Pow2(m) + 1, w));
    ClearIsPow2(m);
    FramedBits(m, CodeBits(init), w, Padding(|CodeBits(LzwCodes(m, xs))|), LzwBits(m, xs));
  }

  lemma {:induction false} ClearIsPow2(m: nat)
    ensures ClearCode(m) == Pow2(m)
  {
  }

  lemma {:induction false} FreshWidth(m: nat)
    requires CodeSize(m)
    ensures Fresh(m).width == m + 1
  {
  }

  lemma {:induction false} FramedBits(m: nat, init: seq<bool>, w: nat, pad: nat, bits: seq<bool>)
    requires CodeSize(m) && m + 1 <= w <= 12 && pad < 8
    requires bits == LowBits(Pow2(m), m + 1) + (init + LowBits(Pow2(m) + 1, w)) + BitStream.ZeroBits(pad)
    requires |bits| % 8 == 0
    ensures Framed(m, bits, w, pad)
  {
    hide Pow2, LowBits, Value, BitStream.ZeroBits;
    var clear, eoi, zeros := LowBits(Pow2(m), m + 1), LowBits(Pow2(m) + 1, w), BitStream.ZeroBits(pad);
    assert bits[..m + 1] == clear;
    assert bits[|bits| - pad - w..|bits| - pad] == eoi;
    assert bits[|bits| - pad..] == zeros;
    CodesBelow(m, w);
    ValueLowBits(Pow2(m), m + 1);
    ValueLowBits(Pow2(m) + 1, w);
  }

  lemma {:induction false} CodesBelow(m: nat, w: nat)
    requires CodeSize(m) && m + 1 <= w
    ensures Pow2(m) < Pow2(m + 1) && Pow2(m) + 1 < Pow2(w)
  {
    Sizes(m);
    Pow2Monotone(m + 1, w);
  }

  /** Read by the decoder, no data code could have stood for one pixel more, and the table is given up only
      when it is full. */
  ghost predicate Thrifty(m: nat, dict: seq<seq<Byte>>, prev: Option<seq<Byte>>, width: nat, bits: seq<bool>)
    requires width > 0
    decreases |bits|
  {
    if |bits| < width then true
    else
      var c, tail := Value(bits[..width]), bits[width..];
      if c == Pow2(m) then
        (prev.Some? ==> Pow2(m) + 2 + |dict| == 4096) && Thrifty(m, [], None, m + 1, tail)
      else if c == Pow2(m) + 1 then true
      else match CodeString(m, dict, prev, c)
        case None => true
        case Some(s) =>
          var after := DictAfter(m, dict, prev, s);
          var w := WidthAfter(m, dict, after, width);
          var more := Decode(m, after, Some(s), w, tail).0;
          (more != [] ==> s + [more[0]] !in after) && Thrifty(m, after, Some(s), w, tail)
  }

  lemma {:induction false} InTable(m: nat, strs: seq<seq<Byte>>, s: seq<Byte>)
    requires CodeSize(m) && s in strs
    ensures s in TableOf(m, strs)
  {
    var k := |strs| - 1;
    if s != strs[k] {
      assert s in strs[..k];
      InTable(m, strs[..k], s);
    }
  }

  lemma {:induction false} ThriftyStep(m: nat, e: Enc, strs: seq<seq<Byte>>, prev: Option<seq<Byte>>, buf: seq<Byte>,
      tail: seq<bool>)
    requires InStep(m, e, strs, prev, buf)
    requires var width := if e.next == Pow2(e.width) && e.width < 12 then e.width + 1 else e.width;
             var more := Decode(m, strs, Some(buf), width, tail).0;
             (more != [] ==> buf + [more[0]] !in strs) && Thrifty(m, strs, Some(buf), width, tail)
    ensures Thrifty(m, Behind(strs), prev, e.width, LowBits(CodeOf(e, buf), e.width) + tail)
  {
    hide Decode, Thrifty, AllNew, TableOf, LowBits;
    Sizes(m);
    Pow2Monotone(m + 1, e.width);
    var c := CodeOf(e, buf);
    CodeInTable(m, e, strs, prev, buf);
    ReadCode(c, e.width, tail);
    assert DictAfter(m, Behind(strs), prev, buf) == strs;
    ThriftyCode(m, Behind(strs), prev, e.width, LowBits(c, e.width) + tail, c, tail, buf);
  }

  /** What the definition says of a data code. */
  lemma {:induction false} ThriftyCode(m: nat, dict: seq<seq<Byte>>, prev: Option<seq<Byte>>, width: nat,
      bits: seq<bool>, c: nat, tail: seq<bool>, s: seq<Byte>)
    requires 0 < width <= |bits| && c == Value(bits[..width]) && tail == bits[width..]
    requires c != Pow2(m) && c != Pow2(m) + 1 && CodeString(m, dict, prev, c) == Some(s)
    requires var after := DictAfter(m, dict, prev, s);
             var w := WidthAfter(m, dict, after, width);
             var more := Decode(m, after, Some(s), w, tail).0;
             (more != [] ==> s + [more[0]] !in after) && Thrifty(m, after, Some(s), w, tail)
    ensures Thrifty(m, dict, prev, width, bits)
  {
    hide Decode, CodeString, DictAfter, WidthAfter, Value;
  }

  /** The encoder always takes the longest string of its table, and starts afresh only with a full one. */
  lemma {:induction false} LongestMatch(m: nat, e: Enc, strs: seq<seq<Byte>>, prev: Option<seq<Byte>>, buf: seq<Byte>,
      rest: seq<Byte>, pad: nat)
    requires InStep(m, e, strs, prev, buf) && Pixels(m, rest)
    ensures Thrifty(m, Behind(strs), prev, e.width, Stream(m, e, buf, rest, pad))
    decreases |rest|
  {
    hide Decode, Thrifty, AllNew, TableOf, Pow2, CodeBits, LowBits;
    if rest == [] {
      LastThrifty(m, e, strs, prev, buf, pad);
    } else {
      var x, more := rest[0], rest[1..];
      var nb := buf + [x];
      assert Pixels(m, more);
      if nb in e.table {
        LongestMatch(m, e, strs, prev, nb, more, pad);
      } else {
        if nb in strs { InTable(m, strs, nb); }
        if e.next < 4096 {
          var tail := Stream(m, Added(e, nb), [x], more, pad);
          TableGrows(m, e, strs, prev, buf, x);
          LongestMatch(m, Added(e, nb), strs + [nb], Some(buf), [x], more, pad);
          LockStep(m, Added(e, nb), strs + [nb], Some(buf), [x], more, pad);
          AddedStream(m, e, buf, rest, pad);
          assert Behind(strs + [nb]) == strs;
          ThriftyStep(m, e, strs, prev, buf, tail);
        } else {
          var tail := Stream(m, Fresh(m), [x], more, pad);
          FreshInStep(m, x);
          LongestMatch(m, Fresh(m), [], None, [x], more, pad);
          LockStep(m, Fresh(m), [], None, [x], more, pad);
          WidthTwelve(e);
          ResetStream(m, e, buf, rest, pad);
          FreshWidth(m);
          ClearStep(m, strs, Some(buf), e.width, tail);
          ClearThrifty(m, strs, Some(buf), e.width, tail);
          ThriftyStep(m, e, strs, prev, buf, LowBits(ClearCode(m), e.width) + tail);
        }
      }
    }
  }

  lemma {:induction false} ClearThrifty(m: nat, dict: seq<seq<Byte>>, prev: Option<seq<Byte>>, width: nat,
      tail: seq<bool>)
    requires CodeSize(m) && m + 1 <= width && (prev.Some? ==> Pow2(m) + 2 + |dict| == 4096)
    requires Thrifty(m, [], None, m + 1, tail)
    ensures Thrifty(m, dict, prev, width, LowBits(ClearCode(m), width) + tail)
  {
    hide Decode;
    Sizes(m);
    Pow2Monotone(m + 1, width);
    ReadCode(ClearCode(m), width, tail);
  }

  lemma {:induction false} EoiThrifty(m: nat, dict: seq<seq<Byte>>, prev: Option<seq<Byte>>, w: nat, width: nat,
      pad: nat)
    requires CodeSize(m) && m + 1 <= w && (width == w || width == w + 1)
    ensures Thrifty(m, dict, prev, width, LowBits(Pow2(m) + 1, w) + BitStream.ZeroBits(pad))
    ensures Decode(m, dict, prev, width, LowBits(Pow2(m) + 1, w) + BitStream.ZeroBits(pad)).0 == []
  {
    Sizes(m);
    Pow2Monotone(m + 1, w);
    ReadCode(Pow2(m) + 1, w, BitStream.ZeroBits(pad));
    if width == w + 1 && pad > 0 { WiderEoi(Pow2(m) + 1, w, pad); }
  }

  lemma {:induction false} LastThrifty(m: nat, e: Enc, strs: seq<seq<Byte>>, prev: Option<seq<Byte>>, buf: seq<Byte>,
      pad: nat)
    requires InStep(m, e, strs, prev, buf)
    ensures Thrifty(m, Behind(strs), prev, e.width, Stream(m, e, buf, [], pad))
  {
    hide Decode, Thrifty, AllNew, TableOf, Pow2, CodeBits, LowBits;
    LastStream(m, e, buf, pad);
    var width := if e.next == Pow2(e.width) && e.width < 12 then e.width + 1 else e.width;
    EoiThrifty(m, strs, Some(buf), e.width, width, pad);
    ThriftyStep(m, e, strs, prev, buf, LowBits(EoiCode(m), e.width) + BitStream.ZeroBits(pad));
  }

  lemma {:induction false} StreamThrifty(m: nat, xs: seq<Byte>)
    requires 2 <= m <= 8 && Pixels(m, xs) && xs != []
    ensures Thrifty(m, [], None, m + 1, LzwBits(m, xs))
  {
    hide Thrifty, Stream;
    FirstStream(m, xs);
    FreshWidth(m);
    FreshInStep(m, xs[0]);
    var pad := Padding(|CodeBits(LzwCodes(m, xs))|);
    LongestMatch(m, Fresh(m), [], None, [xs[0]], xs[1..], pad);
    ClearThrifty(m, [], None, m + 1, Stream(m, Fresh(m), [xs[0]], xs[1..], pad));
  }

  /** One pixel of the first of four colours: the codes 4, 0 and 5 of three bits each. */
  lemma {:induction false} OnePixel(bytes: seq<Byte>)
    requires Unpack(bytes) == LzwBits(2, [0])
    ensures bytes == [0x44, 0x01]
  {
    SinglesAt(4, [0]);
    var codes := [Code(4, 3), Code(0, 3), Code(5, 3)];
    assert Pow2(2) == 4;
    assert LzwCodes(2, [0]) == codes;
    assert LowBits(4, 3) == [false, false, true] && LowBits(0, 3) == [false, false, false]
           && LowBits(5, 3) == [true, false, true];
    var bits := [false, false, true, false, false, false, true, false, true];
    assert codes[1..] == [Code(0, 3), Code(5, 3)] && codes[1..][1..] == [Code(5, 3)];
    assert CodeBits(codes) == bits;
    OnePixelBytes();
    UnpackUnique(bytes, [0x44, 0x01]);
  }

  lemma {:induction false} OnePixelBytes()
    ensures Unpack([0x44, 0x01]) ==
            [false, false, true, false, false, false, true, false, true] + BitStream.ZeroBits(7)
  {
    assert LowBits(0x44, 4) == [false, false, true, false];
    LowBitsSplit(0x44, 4, 4);
    assert Shift(0x44, 4) == 4;
    assert LowBits(4, 4) == [false, false, true, false];
    LowBitsPad(1, 1, 7);
    assert Pow2(1) == 2 && LowBits(1, 1) == [true];
    assert Unpack([0x44, 0x01]) == LowBits(0x44, 8) + Unpack([0x01]);
    assert Unpack([0x01]) == LowBits(1, 8) + Unpack([]);
  }

  // ----- a stream whose end code is not seen -----

  /** The pixels k, k+1, ..., 126. */
  function Ramp(k: nat): (xs: seq<Byte>)
    requires k <= 127
    ensures |xs| == 127 - k && forall i | 0 <= i < |xs| :: xs[i] == k + i
    decreases 127 - k
  {
    if k == 127 then [] else [k] + Ramp(k + 1)
  }

  function Pair(j: Byte): (s: seq<Byte>)
    requires j < 255
  {
    [j, j + 1]
  }

  lemma {:induction false} RampMisses(m: nat, e: Enc, k: nat)
    requires m == 7 && k < 127 && e.next == 130 + k && e.width == 8
    requires forall j: Byte | k <= j < 127 :: Pair(j) !in e.table
    ensures var f := Final(m, e, [k], Ramp(k + 1)); f.next == 256 && f.width == 8
    ensures |CodeBits(Emitted(m, e, [k], Ramp(k + 1)))| == 8 * (128 - k)
    decreases 127 - k
  {
    Pow2Eight();
    var code, eoi := Code(CodeOf(e, [k]), 8), Code(EoiCode(m), 8);
    if k == 126 {
      assert [code, eoi] == [code] + ([eoi] + []);
      CodeBitsCons(code, [eoi] + [], []);
      CodeBitsCons(eoi, [], []);
    } else {
      var rest := Ramp(k + 1);
      var e2 := Added(e, Pair(k));
      assert [k] + [rest[0]] == Pair(k);
      assert rest[1..] == Ramp(k + 2);
      forall j: Byte | k + 1 <= j < 127 ensures Pair(j) !in e2.table {
        assert Pair(j)[0] != Pair(k)[0];
      }
      RampMisses(m, e2, k + 1);
      CodeBitsCons(code, Emitted(m, e2, [k + 1], Ramp(k + 2)), []);
    }
  }

  lemma {:induction false} RampCodes(m: nat, xs: seq<Byte>)
    requires m == 7 && |xs| == 127 && forall i | 0 <= i < 127 :: xs[i] == i
    ensures Pixels(m, xs)
    ensures var f := Final(m, Fresh(m), [xs[0]], xs[1..]); f.next == Pow2(f.width) && f.width == 8
    ensures |CodeBits(LzwCodes(m, xs))| == 8 * 129
  {
    hide Emitted, Final, CodeBits, LowBits;
    Pow2Eight();
    assert Pow2(8) == 2 * Pow2(m);
    var codes := Emitted(m, Fresh(m), [0], Ramp(1));
    assert xs[1..] == Ramp(1);
    forall j: Byte | 0 <= j < 127 ensures Pair(j) !in Fresh(m).table {
      SinglesAt(Pow2(m), Pair(j));
    }
    RampMisses(m, Fresh(m), 0);
    CodeBitsCons(Code(ClearCode(m), m + 1), codes, []);
  }

  /** With 7-bit pixels every code of the ramp 0, 1, ..., 126 is 8 bits wide, the last pixel
      code widens the decoder, and no padding follows: the decoder has every pixel, but runs
      out of bits in the end code. */
  lemma {:induction false} EndCodeMissed(m: nat, xs: seq<Byte>)
    requires m == 7 && |xs| == 127 && forall i | 0 <= i < 127 :: xs[i] == i
    ensures Pixels(m, xs)
    ensures Decode(m, [], None, m + 1, LzwBits(m, xs)) == (xs, OutOfBits)
  {
    hide Decode, Emitted, Final, CodeBits, LzwBits;
    RampCodes(m, xs);
    RoundTrip(m, xs);
  }

  // ----- the encoder -----

  /** The decoder is one entry behind, and the bits written and those to come make `all`. */
  ghost predicate OnTrack(m: nat, all: seq<bool>, pad: nat, e: Enc, strs: seq<seq<Byte>>, prev: Option<seq<Byte>>,
                          buf: seq<Byte>, rest: seq<Byte>, bits: seq<bool>) {
    InStep(m, e, strs, prev, buf) && Pixels(m, rest) && bits + Stream(m, e, buf, rest, pad) == all
  }

  lemma {:induction false} ExtendOnTrack(m: nat, all: seq<bool>, pad: nat, e: Enc, strs: seq<seq<Byte>>,
      prev: Option<seq<Byte>>, buf: seq<Byte>, rest: seq<Byte>, bits: seq<bool>)
    requires OnTrack(m, all, pad, e, strs, prev, buf, rest, bits) && rest != [] && buf + [rest[0]] in e.table
    ensures OnTrack(m, all, pad, e, strs, prev, buf + [rest[0]], rest[1..], bits)
  {
  }

  lemma {:induction false} CodeFits(m: nat, all: seq<bool>, pad: nat, e: Enc, strs: seq<seq<Byte>>,
      prev: Option<seq<Byte>>, buf: seq<Byte>, rest: seq<Byte>, bits: seq<bool>)
    requires OnTrack(m, all, pad, e, strs, prev, buf, rest, bits)
    ensures buf in e.table && CodeOf(e, buf) == e.table[buf] < Pow2(e.width)
  {
    DataStep(m, e, strs, prev, buf, []);
  }

  lemma {:induction false} AddOnTrack(m: nat, all: seq<bool>, pad: nat, e: Enc, strs: seq<seq<Byte>>,
      prev: Option<seq<Byte>>, buf: seq<Byte>, rest: seq<Byte>, bits: seq<bool>)
    requires OnTrack(m, all, pad, e, strs, prev, buf, rest, bits) && rest != [] && buf + [rest[0]] !in e.table &&
             e.next < 4096
    ensures var nb := buf + [rest[0]];
            OnTrack(m, all, pad, Added(e, nb), strs + [nb], Some(buf), [rest[0]], rest[1..],
                    bits + LowBits(CodeOf(e, buf), e.width))
  {
    var x, nb := rest[0], buf + [rest[0]];
    DataStep(m, e, strs, prev, buf, []);
    TableGrows(m, e, strs, prev, buf, x);
    AddedStream(m, e, buf, rest, pad);
    Regroup(bits, LowBits(CodeOf(e, buf), e.width), Stream(m, Added(e, nb), [x], rest[1..], pad));
  }

  lemma {:induction false} ResetOnTrack(m: nat, all: seq<bool>, pad: nat, e: Enc, strs: seq<seq<Byte>>,
      prev: Option<seq<Byte>>, buf: seq<Byte>, rest: seq<Byte>, bits: seq<bool>)
    requires OnTrack(m, all, pad, e, strs, prev, buf, rest, bits) && rest != [] && buf + [rest[0]] !in e.table &&
             e.next >= 4096
    ensures ClearCode(m) < Pow2(e.width)
    ensures OnTrack(m, all, pad, Fresh(m), [], None, [rest[0]], rest[1..],
                    bits + LowBits(CodeOf(e, buf), e.width) + LowBits(ClearCode(m), e.width))
  {
    var x := rest[0];
    DataStep(m, e, strs, prev, buf, []);
    ClearFits(m, e.width);
    FreshInStep(m, x);
    ResetStream(m, e, buf, rest, pad);
    Regroup4(bits, LowBits(CodeOf(e, buf), e.width), LowBits(ClearCode(m), e.width),
      Stream(m, Fresh(m), [x], rest[1..], pad));
  }

  lemma {:induction false} EndOnTrack(m: nat, all: seq<bool>, pad: nat, e: Enc, strs: seq<seq<Byte>>,
      prev: Option<seq<Byte>>, buf: seq<Byte>, bits: seq<bool>)
    requires OnTrack(m, all, pad, e, strs, prev, buf, [], bits)
    ensures CodeOf(e, buf) < Pow2(e.width) && EoiCode(m) < Pow2(e.width)
    ensures bits + LowBits(CodeOf(e, buf), e.width) + LowBits(EoiCode(m), e.width) + BitStream.ZeroBits(pad) == all
  {
    DataStep(m, e, strs, prev, buf, []);
    ClearFits(m, e.width);
    LastStream(m, e, buf, pad);
    Regroup4(bits, LowBits(CodeOf(e, buf), e.width), LowBits(EoiCode(m), e.width), BitStream.ZeroBits(pad));
  }

  lemma {:induction false} StartOnTrack(m: nat, xs: seq<Byte>)
    requires CodeSize(m) && Pixels(m, xs) && xs != []
    ensures ClearCode(m) < Pow2(m + 1)
    ensures OnTrack(m, LzwBits(m, xs), Padding(|CodeBits(LzwCodes(m, xs))|), Fresh(m), [], None, [xs[0]], xs[1..],
                    LowBits(ClearCode(m), m + 1))
  {
    ClearFits(m, m + 1);
    FirstStream(m, xs);
    FreshInStep(m, xs[0]);
  }

  /** The padding that `all` was given is the one that fills the last byte. */
  lemma {:induction false} FinalPadding(m: nat, xs: seq<Byte>, bits: seq<bool>, whole: nat, count: nat)
    requires CodeSize(m) && xs != []
    requires var pad := Padding(|CodeBits(LzwCodes(m, xs))|);
             bits + BitStream.ZeroBits(pad) == LzwBits(m, xs)
    requires count < 8 && |bits| == 8 * whole + count
    ensures bits + BitStream.ZeroBits(if count > 0 then 8 - count else 0) == LzwBits(m, xs)
  {
    var coded := CodeBits(LzwCodes(m, xs));
    assert |bits| + |BitStream.ZeroBits(Padding(|coded|))| == |LzwBits(m, xs)|;
    PaddingOf(|bits|, whole, count);
  }

  lemma {:induction false} PaddingOf(bits: nat, whole: nat, count: nat)
    requires count < 8 && bits == 8 * whole + count
    ensures Padding(bits) == if count > 0 then 8 - count else 0
  {
  }

  /** The code for `buf`, and the table change, when `buf` and the next pixel are not in the table. */
  method Miss(w: BitWriter, m: nat, e: Enc, buf: seq<Byte>, idx: Byte, ghost all: seq<bool>, ghost pad: nat,
              ghost strs: seq<seq<Byte>>, ghost prev: Option<seq<Byte>>, ghost rest: seq<Byte>)
    returns (e2: Enc, ghost strs2: seq<seq<Byte>>, ghost prev2: Option<seq<Byte>>)
    requires w.Valid() && OnTrack(m, all, pad, e, strs, prev, buf, rest, w.Bits())
    requires rest != [] && rest[0] == idx && buf + [idx] !in e.table
    modifies w
    ensures w.Valid() && OnTrack(m, all, pad, e2, strs2, prev2, [idx], rest[1..], w.Bits())
  {
    hide AllNew, TableOf, Stream, LowBits, Unpack, CodeBits;
    ghost var bits := w.Bits();
    CodeFits(m, all, pad, e, strs, prev, buf, rest, bits);
    w.Emit(e.table[buf], e.width);
    if e.next < 4096 {
      AddOnTrack(m, all, pad, e, strs, prev, buf, rest, bits);
      e2 := Enc(e.table[buf + [idx] := e.next], e.next + 1, e.width);
      if e2.next == Pow2(e2.width) + 1 && e2.width < 12 {
        e2 := e2.(width := e2.width + 1);
      }
      strs2, prev2 := strs + [buf + [idx]], Some(buf);
    } else {
      ResetOnTrack(m, all, pad, e, strs, prev, buf, rest, bits);
      w.Emit(ClearCode(m), e.width);
      e2, strs2, prev2 := Fresh(m), [], None;
    }
  }

  /** The last data code and the end code. */
  method Finish(w: BitWriter, m: nat, e: Enc, buf: seq<Byte>, ghost xs: seq<Byte>,
                ghost strs: seq<seq<Byte>>, ghost prev: Option<seq<Byte>>) returns (bytes: seq<Byte>)
    requires CodeSize(m) && xs != [] && w.Valid()
    requires OnTrack(m, LzwBits(m, xs), Padding(|CodeBits(LzwCodes(m, xs))|), e, strs, prev, buf, [], w.Bits())
    modifies w
    ensures Unpack(bytes) == LzwBits(m, xs)
  {
    EndOnTrack(m, LzwBits(m, xs), Padding(|CodeBits(LzwCodes(m, xs))|), e, strs, prev, buf, w.Bits());
    w.Emit(e.table[buf], e.width);
    w.Emit(EoiCode(m), e.width);
    FinalPadding(m, xs, w.Bits(), |w.out|, w.bitcnt);
    bytes := w.Flush();
  }

  /** The clear code and the first pixel. */
  method Start(m: nat, indices: seq<Byte>) returns (w: BitWriter, e: Enc)
    requires CodeSize(m) && Pixels(m, indices) && indices != []
    ensures fresh(w) && w.Valid()
    ensures OnTrack(m, LzwBits(m, indices), Padding(|CodeBits(LzwCodes(m, indices))|), e, [], None,
                    [indices[0]], indices[1..], w.Bits())
  {
    hide LzwBits, Padding, LzwCodes, CodeBits, Stream, OnTrack, LowBits, Unpack, Pow2;
    StartOnTrack(m, indices);
    w := new BitWriter();
    e := Fresh(m);
    w.Emit(ClearCode(m), e.width);
    assert [] + LowBits(ClearCode(m), m + 1) == LowBits(ClearCode(m), m + 1);
  }

  method EncodeGif(m: nat, indices: seq<Byte>) returns (bytes: seq<Byte>)
    requires 2 <= m <= 8 && Pixels(m, indices) && indices != []
    ensures Unpack(bytes) == LzwBits(m, indices)
    ensures Decode(m, [], None, m + 1, Unpack(bytes)).0 == indices
  {
    RoundTrip(m, indices);
    ghost var pad := Padding(|CodeBits(LzwCodes(m, indices))|);
    ghost var all, strs: seq<seq<Byte>>, prev := LzwBits(m, indices), [], None;
    var w, e := Start(m, indices);
    var buf := [indices[0]];
    for i := 1 to |indices|
      invariant fresh(w) && w.Valid()
      invariant OnTrack(m, all, pad, e, strs, prev, buf, indices[i..], w.Bits())
    {
      ghost var rest := indices[i..];
      var idx := indices[i];
      assert rest[0] == idx && rest[1..] == indices[i + 1..];
      if buf + [idx] in e.table {
        ExtendOnTrack(m, all, pad, e, strs, prev, buf, rest, w.Bits());
        buf := buf + [idx];
      } else {
        e, strs, prev := Miss(w, m, e, buf, idx, all, pad, strs, prev, rest);
        buf := [idx];
      }
    }
    assert indices[|indices|..] == [];
    bytes := Finish(w, m, e, buf, indices, strs, prev);
  }

  lemma {:induction false} ClearFits(m: nat, w: nat)
    requires CodeSize(m) && m + 1 <= w
    ensures EoiCode(m) < Pow2(w)
  {
    Sizes(m);
    Pow2Monotone(m + 1, w);
  }

  lemma {:induction false} Regroup4(a: seq<bool>, b: seq<bool>, c: seq<bool>, d: seq<bool>)
    ensures a + (b + (c + d)) == a + b + c + d
  {
  }

  // ----- sub-blocks -----

  /** Blocks of at most 255 bytes, each after its length, and an empty block. */
  function SubBlocks(data: seq<Byte>): seq<Byte>
    decreases |data|
  {
    if data == [] then [0]
    else if |data| <= 255 then [|data|] + data + [0]
    else [255] + data[..255] + SubBlocks(data[255..])
  }

  /** The data of the blocks at the front of a byte string, and the bytes after them. */
  function ReadSubBlocks(bytes: seq<Byte>): Option<(seq<Byte>, seq<Byte>)>
    decreases |bytes|
  {
    if bytes == [] then None
    else if bytes[0] == 0 then Some(([], bytes[1..]))
    else if |bytes| <= bytes[0] then None
    else match ReadSubBlocks(bytes[bytes[0] + 1..])
      case None => None
      case Some((data, rest)) => Some((bytes[1..bytes[0] + 1] + data, rest))
  }

  lemma {:induction false} SubBlocksRoundTrip(data: seq<Byte>, tail: seq<Byte>)
    ensures ReadSubBlocks(SubBlocks(data) + tail) == Some((data, tail))
    decreases |data|
  {
    var n := if |data| <= 255 then |data| else 255;
    var bytes := SubBlocks(data) + tail;
    if data == [] {
      assert bytes[1..] == tail;
    } else {
      var more := SubBlocks(data[n..]) + tail;
      assert |data| <= 255 ==> data[..n] == data && SubBlocks(data[n..]) == [0];
      assert bytes == [n as Byte] + data[..n] + more;
      assert bytes[1..n + 1] == data[..n];
      assert bytes[n + 1..] == more;
      SubBlocksRoundTrip(data[n..], tail);
      assert data[..n] + data[n..] == data;
    }
  }

  /** As few blocks as can be: one length byte for every 255 bytes begun. */
  lemma {:induction false} SubBlocksSize(data: seq<Byte>)
    ensures |SubBlocks(data)| == |data| + (|data| + 254) / 255 + 1
    decreases |data|
  {
    if |data| > 255 {
      SubBlocksSize(data[255..]);
    }
  }

  lemma {:induction false} SubBlocksCons(out: seq<Byte>, data: seq<Byte>, n: nat)
    requires data != [] && n == if |data| <= 255 then |data| else 255
    ensures out + SubBlocks(data) == out + [n as Byte] + data[..n] + SubBlocks(data[n..])
  {
    var chunk, rest := data[..n], SubBlocks(data[n..]);
    if |data| <= 255 {
      assert chunk == data;
      assert rest == [0];
    }
    assert SubBlocks(data) == [n as Byte] + chunk + rest;
    assert out + ([n as Byte] + chunk + rest) == out + [n as Byte] + chunk + rest;
  }

  method EncodeSubBlocks(data: seq<Byte>) returns (out: seq<Byte>)
    ensures out == SubBlocks(data)
    ensures forall tail: seq<Byte> :: ReadSubBlocks(out + tail) == Some((data, tail))
  {
    out := [];
    var off := 0;
    while off < |data|
      invariant off <= |data|
      invariant out + SubBlocks(data[off..]) == SubBlocks(data)
    {
      ghost var left := data[off..];
      var chunk := data[off..if off + 255 <= |data| then off + 255 else |data|];
      SubBlocksCons(out, left, |chunk|);
      assert left[..|chunk|] == chunk && left[|chunk|..] == data[off + |chunk|..];
      out := out + [|chunk|];
      out := out + chunk;
      off := off + |chunk|;
    }
    assert data[off..] == [];
    out := out + [0];
    forall tail: seq<Byte> ensures ReadSubBlocks(out + tail) == Some((data, tail)) {
      SubBlocksRoundTrip(data, tail);
    }
  }
}
