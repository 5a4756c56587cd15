/** LEB128 integers and section framing, as emitted by the compiler
    (sections 5.2.2 and 5.5.2 of the WebAssembly Core Specification). */
module Leb128 {
  import opened Bytes

  function EncodeU(v: nat): (bs: seq<Byte>)
    ensures |bs| > 0
  {
    if v < 128 then [v] else [128 + v % 128] + EncodeU(v / 128)
  }

  function EncodeS(v: int): (bs: seq<Byte>)
    ensures |bs| > 0
    decreases if v < 0 then -v else v
  {
    if -64 <= v < 64 then [v % 128] else [128 + v % 128] + EncodeS(v / 128)
  }

  /** The value read from the front of `bs` and the bytes after it. */
  function DecodeU(bs: seq<Byte>): (r: Option<(nat, seq<Byte>)>)
    ensures r.Some? ==> |r.value.1| < |bs|
  {
    if bs == [] then None
    else if bs[0] < 128 then Some((bs[0], bs[1..]))
    else match DecodeU(bs[1..])
      case None => None
      case Some((v, rest)) => Some((bs[0] - 128 + 128 * v, rest))
  }

  function DecodeS(bs: seq<Byte>): (r: Option<(int, seq<Byte>)>)
    ensures r.Some? ==> |r.value.1| < |bs|
  {
    if bs == [] then None
    else if bs[0] < 64 then Some((bs[0], bs[1..]))
    else if bs[0] < 128 then var low: int := bs[0]; Some((low - 128, bs[1..]))
    else match DecodeS(bs[1..])
      case None => None
      case Some((v, rest)) => Some((bs[0] - 128 + 128 * v, rest))
  }

  lemma {:induction false} UnsignedRoundTrip(v: nat, rest: seq<Byte>)
    ensures DecodeU(EncodeU(v) + rest) == Some((v, rest))
  {
    var bs := EncodeU(v) + rest;
    if v < 128 {
      assert bs[1..] == rest;
    } else {
      UnsignedRoundTrip(v / 128, rest);
      assert bs[1..] == EncodeU(v / 128) + rest;
    }
  }

  lemma {:induction false} SignedRoundTrip(v: int, rest: seq<Byte>)
    ensures DecodeS(EncodeS(v) + rest) == Some((v, rest))
    decreases if v < 0 then -v else v
  {
    var bs := EncodeS(v) + rest;
    if -64 <= v < 64 {
      assert bs[1..] == rest;
    } else {
      SignedRoundTrip(v / 128, rest);
      assert bs[1..] == EncodeS(v / 128) + rest;
    }
  }

  // ----- sections -----

  /** The examples of section 7.6 of the DWARF Debugging Information Format, version 4, and two more. */
  lemma {:induction false} StandardExamples()
    ensures EncodeU(2) == [2] && EncodeU(127) == [127] && EncodeU(128) == [0x80, 1] && EncodeU(129) == [0x81, 1]
    ensures EncodeU(624485) == [0xe5, 0x8e, 0x26]
    ensures EncodeS(2) == [2] && EncodeS(-2) == [0x7e] && EncodeS(127) == [0xff, 0] && EncodeS(-127) == [0x81, 0x7f]
    ensures EncodeS(128) == [0x80, 1] && EncodeS(-128) == [0x80, 0x7f] && EncodeS(-123456) == [0xc0, 0xbb, 0x78]
  {
    assert EncodeU(38) == [0x26] && EncodeU(4878) == [0x8e] + EncodeU(38);
    assert EncodeS(-8) == [0x78] && EncodeS(-965) == [0xbb] + EncodeS(-8);
  }

  datatype Section = Section(id: Byte, body: seq<Byte>)

  function EncodeSections(ss: seq<Section>): seq<Byte> {
    if ss == [] then [] else
      [ss[0].id] + EncodeU(|ss[0].body|) + ss[0].body + EncodeSections(ss[1..])
  }

  /** Split a module body into its sections, or fail when a section is cut short. */
  function DecodeSections(bs: seq<Byte>): Option<seq<Section>>
    decreases |bs|
  {
    if bs == [] then Some([])
    else match DecodeU(bs[1..])
      case None => None
      case Some((n, rest)) =>
        if n > |rest| then None
        else match DecodeSections(rest[n..])
          case None => None
          case Some(tail) => Some([Section(bs[0], rest[..n])] + tail)
  }

  lemma {:induction false} SectionsRoundTrip(ss: seq<Section>)
    ensures DecodeSections(EncodeSections(ss)) == Some(ss)
  {
    if ss != [] {
      var s, tail := ss[0], EncodeSections(ss[1..]);
      var bs := EncodeSections(ss);
      assert bs[1..] == EncodeU(|s.body|) + (s.body + tail);
      UnsignedRoundTrip(|s.body|, s.body + tail);
      assert (s.body + tail)[..|s.body|] == s.body;
      assert (s.body + tail)[|s.body|..] == tail;
      SectionsRoundTrip(ss[1..]);
      assert [s] + ss[1..] == ss;
    }
  }

  lemma {:induction false} FourParts(a: seq<Byte>, b: seq<Byte>, c: seq<Byte>, d: seq<Byte>)
    ensures a + b + c + d == a + (b + c + d)
  {
  }

  lemma {:induction false} EncodeSectionsAppend(ss: seq<Section>, s: Section)
    ensures EncodeSections(ss + [s]) == EncodeSections(ss) + [s.id] + EncodeU(|s.body|) + s.body
  {
    hide EncodeU;
    var tail := [s.id] + EncodeU(|s.body|) + s.body;
    if ss == [] {
      assert ss + [s] == [s];
    } else {
      var first, rest := [ss[0].id] + EncodeU(|ss[0].body|) + ss[0].body, EncodeSections(ss[1..]);
      EncodeSectionsAppend(ss[1..], s);
      assert (ss + [s])[1..] == ss[1..] + [s];
      FourParts(rest, [s.id], EncodeU(|s.body|), s.body);
      Regroup(first, rest, tail);
      FourParts(first + rest, [s.id], EncodeU(|s.body|), s.body);
    }
  }

  /** A growable byte buffer: the `Vec<u8>` the compiler pushes into. */
  class ByteVec {
    var bytes: seq<Byte>

    constructor ()
      ensures bytes == []
    {
      bytes := [];
    }

    method Push(b: Byte)
      modifies this
      ensures bytes == old(bytes) + [b]
    {
      bytes := bytes + [b];
    }

    method Extend(bs: seq<Byte>)
      modifies this
      ensures bytes == old(bytes) + bs
    {
      bytes := bytes + bs;
    }

    method Uleb(value: nat)
      modifies this
      ensures bytes == old(bytes) + EncodeU(value)
    {
      var v := value;
      while true
        invariant bytes + EncodeU(v) == old(bytes) + EncodeU(value)
        decreases v
      {
        var b := v % 128;
        var more := v / 128;
        if more != 0 {
          b := b + 128;
        }
        ghost var before := bytes;
        Push(b);
        if more == 0 {
          assert EncodeU(v) == [b];
          break;
        }
        assert before + EncodeU(v) == bytes + EncodeU(more);
        v := more;
      }
    }

    method Sleb(value: int)
      modifies this
      ensures bytes == old(bytes) + EncodeS(value)
    {
      var v := value;
      while true
        invariant bytes + EncodeS(v) == old(bytes) + EncodeS(value)
        decreases if v < 0 then -v else v
      {
        var b := v % 128;
        var more := v / 128;  // the arithmetic shift rounds down
        var sign := b >= 64;
        ghost var before := bytes;
        if (more == 0 && !sign) || (more == -1 && sign) {
          assert EncodeS(v) == [b];
          Push(b);
          break;
        }
        Push(b + 128);
        assert before + EncodeS(v) == bytes + EncodeS(more);
        v := more;
      }
    }

    method I32Const(v: int)
      modifies this
      ensures bytes == old(bytes) + [0x41] + EncodeS(v)
    {
      Push(0x41);
      Sleb(v);
    }

    method PushSection(id: Byte, body: seq<Byte>, ghost before: seq<Section>)
      requires bytes == EncodeSections(before)
      modifies this
      ensures bytes == EncodeSections(before + [Section(id, body)])
    {
      Push(id);
      var len := new ByteVec();
      len.Uleb(|body|);
      Extend(len.bytes);
      Extend(body);
      EncodeSectionsAppend(before, Section(id, body));
    }
  }
}
