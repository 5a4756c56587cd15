/** The device-tree walker: offset arithmetic over a serialised tree. */
module DeviceTree {
  import opened Bytes
  import opened Results

  const BEGIN_NODE: Word := 1
  const END_NODE: Word := 2
  const PROP: Word := 3
  const NOP: Word := 4
  const END: Word := 9

  /** The structure block and the strings block. */
  datatype Fdt = Fdt(structure: seq<Byte>, strings: seq<Byte>)

  function Be32(w: Word): (bs: seq<Byte>)
    ensures |bs| == 4
  {
    [w / 0x100_0000, (w / 0x1_0000) % 0x100, (w / 0x100) % 0x100, w % 0x100]
  }

  function FromBe32(bs: seq<Byte>): Word
    requires |bs| == 4
  {
    var b0: int, b1: int, b2: int, b3: int := bs[0], bs[1], bs[2], bs[3];
    0x100_0000 * b0 + 0x1_0000 * b1 + 0x100 * b2 + b3
  }

  lemma {:induction false} Be32RoundTrip(w: Word)
    ensures FromBe32(Be32(w)) == w
  {
    assert w / 0x1_0000 == (w / 0x100) / 0x100;
    assert w / 0x100_0000 == (w / 0x1_0000) / 0x100;
  }

  // ----- the walker; an index out of bounds and a bad token are errors -----

  function Token(s: seq<Byte>, off: nat): Result<Word> {
    if off + 4 <= |s| then Ok(FromBe32(s[off..off + 4])) else Err
  }

  /** The place of the first zero byte. */
  function ZeroAt(s: seq<Byte>): (r: Option<nat>)
    ensures r.Some? ==> r.value < |s| && s[r.value] == 0 && forall i | 0 <= i < r.value :: s[i] != 0
    ensures r.None? ==> forall i | 0 <= i < |s| :: s[i] != 0
  {
    if s == [] then None
    else if s[0] == 0 then Some(0)
    else
      var tail := s[1..];
      assert forall i | 1 <= i < |s| :: s[i] == tail[i - 1];
      match ZeroAt(tail)
      case None => None
      case Some(i) => Some(i + 1)
  }

  /** Rounded up to a multiple of four. */
  function Align(n: nat): (r: nat)
    ensures n <= r < n + 4
  {
    if n == 0 then 0 else if n <= 4 then 4 else 4 + Align(n - 4)
  }

  /** The original's mask: add three, clear the two low bits. */
  lemma {:induction false} AlignMasks(n: nat)
    ensures Align(n) == n + 3 - (n + 3) % 4
  {
    if n > 4 { AlignMasks(n - 4); }
  }

  /** A multiple of four. */
  ghost predicate Whole(n: nat) { n == 0 || (n >= 4 && Whole(n - 4)) }

  lemma {:induction false} WholeSum(a: nat, b: nat)
    requires Whole(a) && Whole(b)
    ensures Whole(a + b)
  {
    if a > 0 { WholeSum(a - 4, b); }
  }

  lemma {:induction false} WholeAlign(n: nat)
    ensures Whole(Align(n))
  {
    if n > 4 { WholeAlign(n - 4); }
  }

  lemma {:induction false} AlignSum(off: nat, n: nat)
    requires Whole(off)
    ensures Align(off + n) == off + Align(n)
  {
    if off > 0 && n > 0 {
      AlignSum(off - 4, n);
    } else if off > 0 {
      AlignSum(off - 4, 0);
    }
  }

  /** The token at an offset and the offset of the next one. */
  function Next(s: seq<Byte>, off: nat): (r: Result<(nat, Word)>)
    ensures r.Ok? ==> off + 4 <= |s| && r.value.0 >= off + 4
  {
    match Token(s, off)
    case Err => Err
    case Ok(tok) =>
      if tok == BEGIN_NODE then
        match ZeroAt(s[off + 4..])
        case None => Err
        case Some(n) => Ok((Align(off + 4 + n + 1), tok))
      else if tok == PROP then
        match Token(s, off + 4)
        case Err => Err
        case Ok(len) => Ok((Align(off + 4 + 8 + len), tok))
      else Ok((off + 4, tok))
  }

  /** The string at an offset of the strings block; without a zero byte it is empty. */
  function PropName(strings: seq<Byte>, nameOff: nat): Result<seq<Byte>> {
    if nameOff > |strings| then Err
    else
      var rest := strings[nameOff..];
      match ZeroAt(rest)
      case None => Ok([])
      case Some(n) => Ok(rest[..n])
  }

  /** A name ends before the first zero byte behind its offset; without one it is empty, and an offset behind the
      block is an error. */
  lemma {:induction false} NameExactly(strings: seq<Byte>, off: nat, name: seq<Byte>)
    ensures PropName(strings, off) == Ok(name) <==>
            off <= |strings| &&
            if 0 in strings[off..]
            then 0 !in name && off + |name| < |strings| && strings[off..off + |name|] == name
                 && strings[off + |name|] == 0
            else name == []
    ensures PropName(strings, off).Err? <==> off > |strings|
  {
    if off <= |strings| {
      var rest := strings[off..];
      if off + |name| < |strings| {
        assert rest[..|name|] == strings[off..off + |name|] && rest[|name|] == strings[off + |name|];
        if 0 !in name && rest[..|name|] == name && rest[|name|] == 0 {
          forall i | 0 <= i < |name| ensures rest[i] != 0 {
            assert rest[i] == name[i];
          }
          assert ZeroAt(rest) == Some(|name|);
        }
      }
      if 0 in rest {
        var n := ZeroAt(rest).value;
        assert rest[..n] == strings[off..off + n];
      }
    }
  }

  /** The pieces between zero bytes. */
  function Pieces(data: seq<Byte>): (r: seq<seq<Byte>>)
    ensures r != []
    decreases |data|
  {
    match ZeroAt(data)
    case None => [data]
    case Some(n) => [data[..n]] + Pieces(data[n + 1..])
  }

  /** The data of the property token at an offset. */
  function PropData(s: seq<Byte>, off: nat): Result<seq<Byte>> {
    match Token(s, off + 4)
    case Err => Err
    case Ok(len) => if off + 12 + len <= |s| then Ok(s[off + 12..off + 12 + len]) else Err
  }

  function NameAt(f: Fdt, off: nat): Result<seq<Byte>> {
    match Token(f.structure, off + 8)
    case Err => Err
    case Ok(nameOff) => PropName(f.strings, nameOff)
  }

  /** Whether the property token at an offset is `prop` and lists `value`. */
  function Hit(f: Fdt, off: nat, prop: seq<Byte>, value: seq<Byte>): Result<bool> {
    match NameAt(f, off)
    case Err => Err
    case Ok(name) =>
      if name != prop then Ok(false)
      else match PropData(f.structure, off)
        case Err => Err
        case Ok(data) => Ok(value in Pieces(data))
  }

  /** The search from a token on, inside the node `current`. */
  function FindFrom(f: Fdt, prop: seq<Byte>, value: seq<Byte>, min: nat, off: nat, current: nat): Result<Option<nat>>
    decreases |f.structure| - off
  {
    match Next(f.structure, off)
    case Err => Err
    case Ok((next, tok)) =>
      if tok == BEGIN_NODE then FindFrom(f, prop, value, min, next, off)
      else if tok == PROP then
        if current >= min then
          match Hit(f, off, prop, value)
          case Err => Err
          case Ok(true) => Ok(Some(current))
          case Ok(false) => FindFrom(f, prop, value, min, next, current)
        else FindFrom(f, prop, value, min, next, current)
      else if tok == END_NODE || tok == NOP then FindFrom(f, prop, value, min, next, current)
      else if tok == END then Ok(None)
      else Err
  }

  /** The first node after `after`, if given, that has the property with the value. */
  function Find(f: Fdt, prop: seq<Byte>, value: seq<Byte>, after: Option<nat>): Result<Option<nat>> {
    FindFrom(f, prop, value, if after.Some? then after.value + 1 else 0, 0, 0)
  }

  method FindByPropAfter(f: Fdt, prop: seq<Byte>, value: seq<Byte>, after: Option<nat>) returns (r: Result<Option<nat>>)
    ensures r == Find(f, prop, value, after)
  {
    var minOff := if after.Some? then after.value + 1 else 0;
    var off, current := 0, 0;
    while true
      invariant FindFrom(f, prop, value, minOff, off, current) == Find(f, prop, value, after)
      decreases |f.structure| - off
    {
      var tokOff := off;
      var step :- Next(f.structure, off);
      var (next, tok) := step;
      off := next;
      if tok == BEGIN_NODE {
        current := tokOff;
      } else if tok == PROP {
        if current >= minOff {
          var hit :- Hit(f, tokOff, prop, value);
          if hit { return Ok(Some(current)); }
        }
      } else if tok == END_NODE || tok == NOP {
      } else if tok == END {
        return Ok(None);
      } else {
        return Err;
      }
    }
  }

  /** The first property token with the name, before anything that is not a property. */
  function PropFrom(f: Fdt, name: seq<Byte>, off: nat): Result<Option<seq<Byte>>>
    decreases |f.structure| - off
  {
    match Next(f.structure, off)
    case Err => Err
    case Ok((next, tok)) =>
      if tok == PROP then
        match NameAt(f, off)
        case Err => Err
        case Ok(n) =>
          if n == name then
            match PropData(f.structure, off)
            case Err => Err
            case Ok(data) => Ok(Some(data))
          else PropFrom(f, name, next)
      else if tok == NOP then PropFrom(f, name, next)
      else Ok(None)
  }

  function PropOf(f: Fdt, node: nat, name: seq<Byte>): Result<Option<seq<Byte>>> {
    match Next(f.structure, node)
    case Err => Err
    case Ok((off, _)) => PropFrom(f, name, off)
  }

  method GetProp(f: Fdt, node: nat, name: seq<Byte>) returns (r: Result<Option<seq<Byte>>>)
    ensures r == PropOf(f, node, name)
  {
    var first :- Next(f.structure, node);
    var off := first.0;
    while true
      invariant PropFrom(f, name, off) == PropOf(f, node, name)
      decreases |f.structure| - off
    {
      var tokOff := off;
      var step :- Next(f.structure, off);
      var (next, tok) := step;
      off := next;
      if tok == PROP {
        var n :- NameAt(f, tokOff);
        if n == name {
          var data :- PropData(f.structure, tokOff);
          return Ok(Some(data));
        }
      } else if tok != NOP {
        return Ok(None);
      }
    }
  }

  function RootFrom(s: seq<Byte>, off: nat): Result<nat>
    decreases |s| - off
  {
    match Token(s, off)
    case Err => Err
    case Ok(tok) => if tok == BEGIN_NODE then Ok(off) else if tok == NOP then RootFrom(s, off + 4) else Err
  }

  method Root(f: Fdt) returns (r: Result<nat>)
    ensures r == RootFrom(f.structure, 0)
  {
    var off := 0;
    while true
      invariant RootFrom(f.structure, off) == RootFrom(f.structure, 0)
      decreases |f.structure| - off
    {
      var tok :- Token(f.structure, off);
      if tok == BEGIN_NODE {
        return Ok(off);
      } else if tok == NOP {
        off := off + 4;
      } else {
        return Err;
      }
    }
  }

  function BigEndian(bs: seq<Byte>): nat {
    if bs == [] then 0 else 256 * BigEndian(bs[..|bs| - 1]) + bs[|bs| - 1]
  }

  const TWO64: nat := 0x1_0000_0000_0000_0000

  lemma {:induction false} OneCell(bs: seq<Byte>, cell: seq<Byte>)
    requires |cell| == 4
    ensures BigEndian(bs + cell) == 0x1_0000_0000 * BigEndian(bs) + FromBe32(cell)
  {
    var s1, s2, s3 := bs + [cell[0]], bs + [cell[0], cell[1]], bs + [cell[0], cell[1], cell[2]];
    assert (bs + cell)[..|bs| + 3] == s3 && s3[..|bs| + 2] == s2 && s2[..|bs| + 1] == s1 && s1[..|bs|] == bs;
    assert BigEndian(s1) == 256 * BigEndian(bs) + cell[0];
    assert BigEndian(s2) == 256 * BigEndian(s1) + cell[1];
    assert BigEndian(s3) == 256 * BigEndian(s2) + cell[2];
    assert BigEndian(bs + cell) == 256 * BigEndian(s3) + cell[3];
  }

  /** A number of `n` cells, as far as 64 bits hold it: the shift drops what is above. */
  method Cells(data: seq<Byte>, off: nat, n: nat) returns (value: nat)
    requires off + 4 * n <= |data|
    ensures value == BigEndian(data[off..off + 4 * n]) % TWO64
  {
    value := 0;
    for i := 0 to n
      invariant value == BigEndian(data[off..off + 4 * i]) % TWO64
    {
      var cell := data[off + i * 4..off + i * 4 + 4];
      OneCell(data[off..off + 4 * i], cell);
      assert data[off..off + 4 * i] + cell == data[off..off + 4 * (i + 1)];
      ShiftMod(BigEndian(data[off..off + 4 * i]), FromBe32(cell));
      value := (value * 0x1_0000_0000) % TWO64 + FromBe32(cell);
    }
  }

  lemma {:induction false} ModUnique(x: nat, q: nat, r: nat)
    requires x == TWO64 * q + r && r < TWO64
    ensures x % TWO64 == r
  {
  }

  lemma {:induction false} ShiftMod(v: nat, w: Word)
    ensures ((v % TWO64) * 0x1_0000_0000) % TWO64 + w == (0x1_0000_0000 * v + w) % TWO64
  {
    var u := v % TWO64;
    var q, q2, r := v / 0x1_0000_0000, u / 0x1_0000_0000, v % 0x1_0000_0000;
    assert u % 0x1_0000_0000 == r;
    assert v == 0x1_0000_0000 * q + r && u == 0x1_0000_0000 * q2 + r;
    ModUnique(0x1_0000_0000 * v + w, q, 0x1_0000_0000 * r + w);
    ModUnique(u * 0x1_0000_0000, q2, 0x1_0000_0000 * r);
  }
}
