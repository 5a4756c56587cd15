/** Reading instructions back from their binary form. */
module WasmDecode {
  import opened Bytes
  import opened Int32
  import opened Wasm
  import Leb128

  function OpOfByte(b: Byte): Option<NumOp> {
    match b
    case 0x6a => Some(I32Add)
    case 0x6b => Some(I32Sub)
    case 0x6c => Some(I32Mul)
    case 0x6d => Some(I32DivS)
    case 0x6f => Some(I32RemS)
    case 0x46 => Some(I32Eq)
    case 0x47 => Some(I32Ne)
    case 0x48 => Some(I32LtS)
    case 0x4a => Some(I32GtS)
    case 0x4c => Some(I32LeS)
    case 0x4e => Some(I32GeS)
    case 0x71 => Some(I32And)
    case 0x72 => Some(I32Or)
    case _ => None
  }

  /** Instructions that are an opcode and one index. */
  function Indexed(op: Byte, x: nat): Option<Instr> {
    match op
    case 0x20 => Some(LocalGet(x))
    case 0x21 => Some(LocalSet(x))
    case 0x23 => Some(GlobalGet(x))
    case 0x24 => Some(GlobalSet(x))
    case 0x10 => Some(Call(x))
    case 0x0c => Some(Br(x))
    case 0x0d => Some(BrIf(x))
    case _ => None
  }

  /** Instructions that are fixed bytes. */
  function Plain(bs: seq<Byte>): Option<(Instr, seq<Byte>)>
    requires bs != []
  {
    if bs[0] == 0x45 then Some((Eqz, bs[1..]))
    else if bs[0] == 0x1a then Some((Drop, bs[1..]))
    else if bs[0] == 0x0f then Some((Return, bs[1..]))
    else if [0x28, 0x02, 0x00] <= bs then Some((I32Load, bs[3..]))
    else if [0x2d, 0x00, 0x00] <= bs then Some((I32Load8U, bs[3..]))
    else if [0x36, 0x02, 0x00] <= bs then Some((I32Store, bs[3..]))
    else if [0x3a, 0x00, 0x00] <= bs then Some((I32Store8, bs[3..]))
    else match OpOfByte(bs[0])
      case Some(op) => Some((Num(op), bs[1..]))
      case None => None
  }

  function DecodeInstr(bs: seq<Byte>): (r: Option<(Instr, seq<Byte>)>)
    ensures r.Some? ==> |r.value.1| < |bs|
    decreases |bs|, 0
  {
    if bs == [] then None
    else if bs[0] == 0x41 then
      match Leb128.DecodeS(bs[1..])
      case Some((v, rest)) => if FitsI32(v) then Some((Const(v), rest)) else None
      case None => None
    else if Indexed(bs[0], 0).Some? then
      match Leb128.DecodeU(bs[1..])
      case Some((x, rest)) => Some((Indexed(bs[0], x).value, rest))
      case None => None
    else if [0x02, 0x40] <= bs then
      match DecodeSeq(bs[2..])
      case Some((body, 0x0b, rest)) => Some((Block(body), rest))
      case _ => None
    else if [0x03, 0x40] <= bs then
      match DecodeSeq(bs[2..])
      case Some((body, 0x0b, rest)) => Some((Loop(body), rest))
      case _ => None
    else if [0x04, 0x40] <= bs then
      match DecodeSeq(bs[2..])
      case Some((thn, 0x0b, rest)) => Some((IfThen(thn), rest))
      case Some((thn, _, rest)) =>
        (match DecodeSeq(rest)
         case Some((els, 0x0b, rest2)) => Some((IfElse(thn, els), rest2))
         case _ => None)
      case None => None
    else Plain(bs)
  }

  /** Instructions up to an `end` or `else`; that byte; and the bytes after it. */
  function DecodeSeq(bs: seq<Byte>): (r: Option<(seq<Instr>, Byte, seq<Byte>)>)
    ensures r.Some? ==> |r.value.2| < |bs| && (r.value.1 == 0x0b || r.value.1 == 0x05)
    decreases |bs|, 1
  {
    if bs == [] then None
    else if bs[0] == 0x0b || bs[0] == 0x05 then Some(([], bs[0], bs[1..]))
    else match DecodeInstr(bs)
      case None => None
      case Some((i, rest)) =>
        match DecodeSeq(rest)
        case None => None
        case Some((tail, term, rest2)) => Some(([i] + tail, term, rest2))
  }

  /** Every constant is a valid i32 immediate. */
  predicate Encodable(i: Instr)
    decreases i, 0
  {
    match i
    case Const(v) => FitsI32(v)
    case Block(body) => AllEncodable(body)
    case Loop(body) => AllEncodable(body)
    case IfThen(thn) => AllEncodable(thn)
    case IfElse(thn, els) => AllEncodable(thn) && AllEncodable(els)
    case _ => true
  }

  predicate AllEncodable(body: seq<Instr>)
    decreases body, 1
  {
    body == [] || (Encodable(body[0]) && AllEncodable(body[1..]))
  }

  lemma {:induction false} AllEncodableAppend(a: seq<Instr>, b: seq<Instr>)
    ensures AllEncodable(a + b) <==> AllEncodable(a) && AllEncodable(b)
  {
    if a == [] {
      assert a + b == b;
    } else {
      assert (a + b)[1..] == a[1..] + b;
      AllEncodableAppend(a[1..], b);
    }
  }

  lemma {:induction false} IndexedRoundTrip(i: Instr, op: Byte, x: nat, rest: seq<Byte>)
    requires Indexed(op, x) == Some(i) && EncodeInstr(i) == [op] + Leb128.EncodeU(x)
    ensures DecodeInstr(EncodeInstr(i) + rest) == Some((i, rest))
  {
    var bs := EncodeInstr(i) + rest;
    assert bs[1..] == Leb128.EncodeU(x) + rest;
    Leb128.UnsignedRoundTrip(x, rest);
  }

  lemma {:induction false} PlainRoundTrip(i: Instr, rest: seq<Byte>)
    requires i.Eqz? || i.Drop? || i.Return? || i.I32Load? || i.I32Load8U? || i.I32Store? || i.I32Store8? || i.Num?
    ensures DecodeInstr(EncodeInstr(i) + rest) == Some((i, rest))
  {
    var code := EncodeInstr(i);
    var bs := code + rest;
    assert bs[|code|..] == rest;
    assert code <= bs;
    if i.Num? {
      assert OpOfByte(Opcode(i.op)) == Some(i.op);
    }
  }

  /** Decoding gives back the instruction and stops right behind its bytes. */
  lemma {:induction false} InstrRoundTrip(i: Instr, rest: seq<Byte>)
    requires Encodable(i)
    ensures DecodeInstr(EncodeInstr(i) + rest) == Some((i, rest))
    decreases i, 1
  {
    match i
    case Const(v) =>
      assert (EncodeInstr(i) + rest)[1..] == Leb128.EncodeS(v) + rest;
      Leb128.SignedRoundTrip(v, rest);
    case LocalGet(x) => IndexedRoundTrip(i, 0x20, x, rest);
    case LocalSet(x) => IndexedRoundTrip(i, 0x21, x, rest);
    case GlobalGet(x) => IndexedRoundTrip(i, 0x23, x, rest);
    case GlobalSet(x) => IndexedRoundTrip(i, 0x24, x, rest);
    case Call(x) => IndexedRoundTrip(i, 0x10, x, rest);
    case Br(x) => IndexedRoundTrip(i, 0x0c, x, rest);
    case BrIf(x) => IndexedRoundTrip(i, 0x0d, x, rest);
    case Block(_) => BlockRoundTrip(i, rest);
    case Loop(_) => BlockRoundTrip(i, rest);
    case IfThen(_) => IfRoundTrip(i, rest);
    case IfElse(_, _) => IfRoundTrip(i, rest);
    case _ => PlainRoundTrip(i, rest);
  }

  lemma {:induction false} BlockRoundTrip(i: Instr, rest: seq<Byte>)
    requires Encodable(i) && (i.Block? || i.Loop?)
    ensures DecodeInstr(EncodeInstr(i) + rest) == Some((i, rest))
    decreases i, 0
  {
    var bs := EncodeInstr(i) + rest;
    SeqRoundTrip(i.body, 0x0b, rest);
    assert bs[2..] == Encode(i.body) + [0x0b] + rest;
    assert bs[1] == 0x40;
  }

  lemma {:induction false} IfRoundTrip(i: Instr, rest: seq<Byte>)
    requires Encodable(i) && (i.IfThen? || i.IfElse?)
    ensures DecodeInstr(EncodeInstr(i) + rest) == Some((i, rest))
    decreases i, 0
  {
    var thn := Encode(i.thn);
    if i.IfThen? {
      SeqRoundTrip(i.thn, 0x0b, rest);
      assert [0x04, 0x40] + thn + [0x0b] + rest == [0x04, 0x40] + (thn + [0x0b] + rest);
      DecodeIf(thn + [0x0b] + rest);
    } else {
      var els := Encode(i.els);
      SeqRoundTrip(i.thn, 0x05, els + [0x0b] + rest);
      SeqRoundTrip(i.els, 0x0b, rest);
      IfRegrouped([0x04, 0x40], thn, [0x05], els, [0x0b], rest);
      DecodeIf(thn + [0x05] + (els + [0x0b] + rest));
    }
  }

  lemma {:induction false} IfRegrouped(a: seq<Byte>, b: seq<Byte>, c: seq<Byte>, d: seq<Byte>, e: seq<Byte>,
      f: seq<Byte>)
    ensures a + b + c + d + e + f == a + (b + c + (d + e + f))
  {
  }

  lemma {:induction false} DecodeIf(tail: seq<Byte>)
    ensures DecodeInstr([0x04, 0x40] + tail) ==
            match DecodeSeq(tail)
            case Some((thn, 0x0b, rest)) => Some((IfThen(thn), rest))
            case Some((thn, _, rest)) =>
              (match DecodeSeq(rest)
               case Some((els, 0x0b, rest2)) => Some((IfElse(thn, els), rest2))
               case _ => None)
            case None => None
  {
    var bs := [0x04, 0x40] + tail;
    assert bs[2..] == tail;
  }

  lemma {:induction false} SeqRoundTrip(body: seq<Instr>, term: Byte, rest: seq<Byte>)
    requires AllEncodable(body) && (term == 0x0b || term == 0x05)
    ensures DecodeSeq(Encode(body) + [term] + rest) == Some((body, term, rest))
    decreases body, 1
  {
    var bs := Encode(body) + [term] + rest;
    if body == [] {
      assert bs == [term] + rest;
    } else {
      var tail := Encode(body[1..]) + [term] + rest;
      assert bs == EncodeInstr(body[0]) + tail;
      InstrRoundTrip(body[0], tail);
      SeqRoundTrip(body[1..], term, rest);
      assert [body[0]] + body[1..] == body;
    }
  }
}
