/** Assembling a module from compiled functions, and loading a module back. */
module CcModule {
  import opened Bytes
  import opened CcGen
  import opened Leb128
  import WasmDecode
  import W = Wasm

  const HEAP_BASE := 32768
  const PAGES: nat := 16

  // ----- vectors -----

  function Concat(bss: seq<seq<Byte>>): seq<Byte> {
    if bss == [] then [] else bss[0] + Concat(bss[1..])
  }

  lemma {:induction false} ConcatSnoc(bss: seq<seq<Byte>>, bs: seq<Byte>)
    ensures Concat(bss + [bs]) == Concat(bss) + bs
  {
    if bss == [] {
      assert bss + [bs] == [bs];
    } else {
      assert (bss + [bs])[1..] == bss[1..] + [bs];
      ConcatSnoc(bss[1..], bs);
    }
  }

  /** A vector: the count, then the items (section 5.1.3 of the WebAssembly Core Specification). */
  function EncodeVec(items: seq<seq<Byte>>): seq<Byte> {
    EncodeU(|items|) + Concat(items)
  }

  type Reader<T> = seq<Byte> -> Option<(T, seq<Byte>)>

  function ReadN<T>(read: Reader<T>, n: nat, bs: seq<Byte>): Option<(seq<T>, seq<Byte>)> {
    if n == 0 then Some(([], bs))
    else match read(bs)
      case None => None
      case Some((x, rest)) =>
        match ReadN(read, n - 1, rest)
        case None => None
        case Some((xs, rest2)) => Some(([x] + xs, rest2))
  }

  function ReadVec<T>(read: Reader<T>, bs: seq<Byte>): Option<(seq<T>, seq<Byte>)> {
    match DecodeU(bs)
    case None => None
    case Some((n, rest)) => ReadN(read, n, rest)
  }

  /** The reader gives back `x` from its bytes, whatever follows them. */
  ghost predicate Reads<T(!new)>(read: Reader<T>, bs: seq<Byte>, x: T) {
    forall rest :: read(bs + rest) == Some((x, rest))
  }

  lemma {:induction false} ReadNRoundTrip<T(!new)>(read: Reader<T>, items: seq<seq<Byte>>, xs: seq<T>, rest: seq<Byte>)
    requires |items| == |xs| && forall i | 0 <= i < |xs| :: Reads(read, items[i], xs[i])
    ensures ReadN(read, |xs|, Concat(items) + rest) == Some((xs, rest))
    decreases |xs|
  {
    if xs == [] {
      assert Concat(items) + rest == rest;
    } else {
      var tail := Concat(items[1..]) + rest;
      assert Concat(items) + rest == items[0] + tail;
      assert Reads(read, items[0], xs[0]);
      ReadNRoundTrip(read, items[1..], xs[1..], rest);
      assert [xs[0]] + xs[1..] == xs;
    }
  }

  lemma {:induction false} ReadVecRoundTrip<T(!new)>(read: Reader<T>, items: seq<seq<Byte>>, xs: seq<T>,
      rest: seq<Byte>)
    requires |items| == |xs| && forall i | 0 <= i < |xs| :: Reads(read, items[i], xs[i])
    ensures ReadVec(read, EncodeVec(items) + rest) == Some((xs, rest))
  {
    UnsignedRoundTrip(|items|, Concat(items) + rest);
    assert EncodeVec(items) + rest == EncodeU(|items|) + (Concat(items) + rest);
    ReadNRoundTrip(read, items, xs, rest);
  }

  // ----- what a loader reads from a module -----

  datatype FuncType = FuncType(params: nat, results: nat)

  datatype Export = Export(name: seq<Byte>, kind: Byte, idx: nat)

  datatype Data = Data(offset: int, bytes: seq<Byte>)

  function ReadU(bs: seq<Byte>): Option<(nat, seq<Byte>)> { DecodeU(bs) }

  function ReadByte(bs: seq<Byte>): Option<(Byte, seq<Byte>)> {
    if bs == [] then None else Some((bs[0], bs[1..]))
  }

  /** A function type over i32. */
  function ReadType(bs: seq<Byte>): Option<(FuncType, seq<Byte>)> {
    if bs == [] || bs[0] != 0x60 then None
    else match ReadVec(ReadByte, bs[1..])
      case None => None
      case Some((ps, rest)) =>
        match ReadVec(ReadByte, rest)
        case None => None
        case Some((rs, rest2)) =>
          if (forall b | b in ps :: b == 0x7f) && (forall b | b in rs :: b == 0x7f)
          then Some((FuncType(|ps|, |rs|), rest2)) else None
  }

  function ReadName(bs: seq<Byte>): Option<(seq<Byte>, seq<Byte>)> { ReadVec(ReadByte, bs) }

  function ReadExport(bs: seq<Byte>): Option<(Export, seq<Byte>)> {
    match ReadName(bs)
    case None => None
    case Some((name, rest)) =>
      if rest == [] then None
      else match DecodeU(rest[1..])
        case None => None
        case Some((idx, rest2)) => Some((Export(name, rest[0], idx), rest2))
  }

  /** A code entry: its size, and in those bytes the locals and the instructions. */
  function ReadCode(bs: seq<Byte>): Option<((nat, seq<W.Instr>), seq<Byte>)> {
    match DecodeU(bs)
    case None => None
    case Some((size, rest)) =>
      if size > |rest| then None
      else match ReadBody(rest[..size])
        case None => None
        case Some(c) => Some((c, rest[size..]))
  }

  function ReadBody(bs: seq<Byte>): Option<(nat, seq<W.Instr>)> {
    match ReadLocals(bs)
    case None => None
    case Some((extra, rest)) =>
      match WasmDecode.DecodeSeq(rest)
      case Some((body, 0x0b, end)) => if end == [] then Some((extra, body)) else None
      case _ => None
  }

  /** No locals, or one group of i32 locals. */
  function ReadLocals(bs: seq<Byte>): Option<(nat, seq<Byte>)> {
    match DecodeU(bs)
    case Some((0, rest)) => Some((0, rest))
    case Some((1, rest)) =>
      (match DecodeU(rest)
       case Some((n, rest2)) => if rest2 != [] && rest2[0] == 0x7f then Some((n, rest2[1..])) else None
       case None => None)
    case _ => None
  }

  lemma {:induction false} BytesRead(bs: seq<Byte>, rest: seq<Byte>)
    ensures ReadVec(ReadByte, EncodeU(|bs|) + bs + rest) == Some((bs, rest))
  {
    var items := seq(|bs|, i requires 0 <= i < |bs| => [bs[i]]);
    forall i | 0 <= i < |bs| ensures Reads(ReadByte, items[i], bs[i]) {
      assert forall rest: seq<Byte> :: ([bs[i]] + rest)[1..] == rest;
    }
    SingletonsConcat(bs, items);
    ReadVecRoundTrip(ReadByte, items, bs, rest);
  }

  lemma {:induction false} SingletonsConcat(bs: seq<Byte>, items: seq<seq<Byte>>)
    requires |items| == |bs| && forall i | 0 <= i < |bs| :: items[i] == [bs[i]]
    ensures Concat(items) == bs
    decreases |bs|
  {
    if bs != [] {
      SingletonsConcat(bs[1..], items[1..]);
    }
  }

  lemma {:induction false} CodeRead(c: W.Code, rest: seq<Byte>)
    requires WasmDecode.AllEncodable(c.body)
    ensures ReadCode(EncodeU(|CodeBytes(c)|) + CodeBytes(c) + rest) == Some(((c.extra, c.body), rest))
  {
    var bs := CodeBytes(c);
    UnsignedRoundTrip(|bs|, bs + rest);
    assert EncodeU(|bs|) + bs + rest == EncodeU(|bs|) + (bs + rest);
    assert (bs + rest)[..|bs|] == bs && (bs + rest)[|bs|..] == rest;
    BodyRead(c);
  }

  lemma {:induction false} BodyRead(c: W.Code)
    requires WasmDecode.AllEncodable(c.body)
    ensures ReadBody(CodeBytes(c)) == Some((c.extra, c.body))
  {
    var code := W.Encode(c.body) + [0x0b];
    LocalsRead(c.extra, code);
    WasmDecode.SeqRoundTrip(c.body, 0x0b, []);
    assert code + [] == code;
  }

  lemma {:induction false} LocalsRead(extra: nat, code: seq<Byte>)
    ensures ReadLocals((if extra > 0 then [0x01] + EncodeU(extra) + [0x7f] else [0x00]) + code) ==
            Some((extra, code))
  {
    if extra > 0 {
      var tail := [0x7f] + code;
      UnsignedRoundTrip(1, EncodeU(extra) + tail);
      assert [0x01] + EncodeU(extra) + [0x7f] + code == EncodeU(1) + (EncodeU(extra) + tail);
      UnsignedRoundTrip(extra, tail);
      assert tail[1..] == code;
    } else {
      UnsignedRoundTrip(0, code);
      assert [0x00] + code == EncodeU(0) + code;
    }
  }

  lemma {:induction false} ExportRead(e: Export, rest: seq<Byte>)
    ensures ReadExport(ExportBytes(e) + rest) == Some((e, rest))
  {
    var tail := [e.kind] + EncodeU(e.idx) + rest;
    assert ExportBytes(e) + rest == EncodeU(|e.name|) + e.name + tail;
    BytesRead(e.name, tail);
    assert tail[1..] == EncodeU(e.idx) + rest;
    UnsignedRoundTrip(e.idx, rest);
  }

  function ExportBytes(e: Export): seq<Byte> {
    EncodeU(|e.name|) + e.name + [e.kind] + EncodeU(e.idx)
  }

  function TypeBytes(t: FuncType): seq<Byte> {
    [0x60] + EncodeU(t.params) + I32s(t.params) + EncodeU(t.results) + I32s(t.results)
  }

  function I32s(n: nat): (bs: seq<Byte>)
    ensures |bs| == n && forall b | b in bs :: b == 0x7f
  {
    seq(n, i => 0x7f)
  }

  lemma {:induction false} TypeRead(t: FuncType, rest: seq<Byte>)
    ensures ReadType(TypeBytes(t) + rest) == Some((t, rest))
  {
    var mid := EncodeU(t.results) + I32s(t.results) + rest;
    var bs := TypeBytes(t) + rest;
    assert bs[1..] == EncodeU(t.params) + I32s(t.params) + mid;
    BytesRead(I32s(t.params), mid);
    BytesRead(I32s(t.results), rest);
  }

  // ----- loading a module -----

  datatype Import = Import(from: seq<Byte>, name: seq<Byte>, kind: Byte, typ: nat)

  function ImportBytes(i: Import): seq<Byte> {
    EncodeU(|i.from|) + i.from + (EncodeU(|i.name|) + i.name + [i.kind] + EncodeU(i.typ))
  }

  function ReadImport(bs: seq<Byte>): Option<(Import, seq<Byte>)> {
    match ReadName(bs)
    case None => None
    case Some((from, rest)) =>
      match ReadExport(rest)
      case None => None
      case Some((e, rest2)) => Some((Import(from, e.name, e.kind, e.idx), rest2))
  }

  lemma {:induction false} ImportRead(i: Import, rest: seq<Byte>)
    ensures ReadImport(ImportBytes(i) + rest) == Some((i, rest))
  {
    var e := Export(i.name, i.kind, i.typ);
    assert ImportBytes(i) + rest == EncodeU(|i.from|) + i.from + (ExportBytes(e) + rest);
    BytesRead(i.from, ExportBytes(e) + rest);
    ExportRead(e, rest);
  }

  /** The memory limits: a minimum and no maximum. */
  function ReadLimits(bs: seq<Byte>): Option<(nat, seq<Byte>)> {
    if bs == [] || bs[0] != 0x00 then None else DecodeU(bs[1..])
  }

  /** A constant expression: one i32.const and `end`. */
  function ReadConst(bs: seq<Byte>): Option<(int, seq<Byte>)> {
    if bs == [] || bs[0] != 0x41 then None
    else match DecodeS(bs[1..])
      case None => None
      case Some((v, rest)) => if rest != [] && rest[0] == 0x0b then Some((v, rest[1..])) else None
  }

  /** A mutable i32 global. */
  function ReadGlobal(bs: seq<Byte>): Option<(int, seq<Byte>)> {
    if |bs| < 2 || bs[..2] != [0x7f, 0x01] then None else ReadConst(bs[2..])
  }

  /** An active data segment of memory 0. */
  function ReadData(bs: seq<Byte>): Option<(Data, seq<Byte>)> {
    if bs == [] || bs[0] != 0x00 then None
    else match ReadConst(bs[1..])
      case None => None
      case Some((off, rest)) =>
        match ReadVec(ReadByte, rest)
        case None => None
        case Some((bytes, rest2)) => Some((Data(off, bytes), rest2))
  }

  datatype Loaded = Loaded(
    types: seq<FuncType>, imports: seq<Import>, funcs: seq<nat>, pages: seq<nat>, globals: seq<int>,
    exports: seq<Export>, codes: seq<(nat, seq<W.Instr>)>, data: seq<Data>)

  /** The whole of a section body as a vector. */
  function Whole<T>(read: Reader<T>, body: seq<Byte>): Option<seq<T>> {
    match ReadVec(read, body)
    case Some((xs, rest)) => if rest == [] then Some(xs) else None
    case None => None
  }

  const HEADER: seq<Byte> := [0x00, 0x61, 0x73, 0x6d, 0x01, 0x00, 0x00, 0x00]

  /** The sections the compiler emits, in their order; the data section may be missing. */
  predicate Expected(ss: seq<Section>) {
    && 7 <= |ss| <= 8
    && ss[0].id == 1 && ss[1].id == 2 && ss[2].id == 3 && ss[3].id == 5
    && ss[4].id == 6 && ss[5].id == 7 && ss[6].id == 10 && (|ss| == 8 ==> ss[7].id == 11)
  }

  function LoadModule(bs: seq<Byte>): Option<Loaded> {
    if !(HEADER <= bs) then None
    else match DecodeSections(bs[8..])
      case None => None
      case Some(ss) => LoadSections(ss)
  }

  function LoadSections(ss: seq<Section>): Option<Loaded> {
    if !Expected(ss) then None
    else
      var types := Whole(ReadType, ss[0].body);
      var imports := Whole(ReadImport, ss[1].body);
      var funcs := Whole(ReadU, ss[2].body);
      var pages := Whole(ReadLimits, ss[3].body);
      var globals := Whole(ReadGlobal, ss[4].body);
      var exports := Whole(ReadExport, ss[5].body);
      var codes := Whole(ReadCode, ss[6].body);
      var data := if |ss| == 8 then Whole(ReadData, ss[7].body) else Some([]);
      if types.Some? && imports.Some? && funcs.Some? && pages.Some? && globals.Some? && exports.Some? &&
         codes.Some? && data.Some?
      then Some(Loaded(types.value, imports.value, funcs.value, pages.value, globals.value, exports.value,
                       codes.value, data.value))
      else None
  }

  /** The functions of a loaded module in executable form. */
  function CodesOf(m: Loaded): Option<W.Module> {
    if |m.funcs| == |m.codes| && forall i | 0 <= i < |m.funcs| :: m.funcs[i] < |m.types|
    then Some(seq(|m.funcs|, i requires 0 <= i < |m.funcs| =>
                W.Code(m.types[m.funcs[i]].params, m.codes[i].0, m.codes[i].1)))
    else None
  }

  // ----- the module for an image -----

  function Items<T>(xs: seq<T>, enc: T -> seq<Byte>): (items: seq<seq<Byte>>)
    ensures |items| == |xs| && forall i | 0 <= i < |xs| :: items[i] == enc(xs[i])
  {
    seq(|xs|, i requires 0 <= i < |xs| => enc(xs[i]))
  }

  function VecOf<T>(xs: seq<T>, enc: T -> seq<Byte>): seq<Byte> { EncodeVec(Items(xs, enc)) }

  function LimitsBytes(pages: nat): seq<Byte> { [0x00] + EncodeU(pages) }

  function ConstBytes(v: int): seq<Byte> { [0x41] + EncodeS(v) + [0x0b] }

  function GlobalBytes(v: int): seq<Byte> { [0x7f, 0x01] + ConstBytes(v) }

  function DataBytes(d: Data): seq<Byte> {
    [0x00] + ConstBytes(d.offset) + EncodeU(|d.bytes|) + d.bytes
  }

  function EntryBytes(c: (nat, seq<W.Instr>)): seq<Byte> {
    var bs := CodeBytes(W.Code(0, c.0, c.1));
    EncodeU(|bs|) + bs
  }

  function UBytes(n: nat): seq<Byte> { EncodeU(n) }

  function SectionsOf(m: Loaded): seq<Section> {
    [Section(1, VecOf(m.types, TypeBytes)), Section(2, VecOf(m.imports, ImportBytes)),
     Section(3, VecOf(m.funcs, UBytes)), Section(5, VecOf(m.pages, LimitsBytes)),
     Section(6, VecOf(m.globals, GlobalBytes)), Section(7, VecOf(m.exports, ExportBytes)),
     Section(10, VecOf(m.codes, EntryBytes))]
    + if m.data == [] then [] else [Section(11, VecOf(m.data, DataBytes))]
  }

  lemma {:induction false} WholeRead<T(!new)>(read: Reader<T>, xs: seq<T>, enc: T -> seq<Byte>)
    requires forall i | 0 <= i < |xs| :: Reads(read, enc(xs[i]), xs[i])
    ensures Whole(read, VecOf(xs, enc)) == Some(xs)
  {
    ReadVecRoundTrip(read, Items(xs, enc), xs, []);
    assert VecOf(xs, enc) + [] == VecOf(xs, enc);
  }

  lemma {:induction false} ConstRead(v: int, rest: seq<Byte>)
    ensures ReadConst(ConstBytes(v) + rest) == Some((v, rest))
  {
    var tail := [0x0b] + rest;
    assert (ConstBytes(v) + rest)[1..] == EncodeS(v) + tail;
    SignedRoundTrip(v, tail);
    assert tail[1..] == rest;
  }

  lemma {:induction false} LimitsRead(n: nat, rest: seq<Byte>)
    ensures ReadLimits(LimitsBytes(n) + rest) == Some((n, rest))
  {
    assert (LimitsBytes(n) + rest)[1..] == EncodeU(n) + rest;
    UnsignedRoundTrip(n, rest);
  }

  lemma {:induction false} GlobalRead(v: int, rest: seq<Byte>)
    ensures ReadGlobal(GlobalBytes(v) + rest) == Some((v, rest))
  {
    assert (GlobalBytes(v) + rest)[2..] == ConstBytes(v) + rest;
    ConstRead(v, rest);
  }

  lemma {:induction false} DataRead(d: Data, rest: seq<Byte>)
    ensures ReadData(DataBytes(d) + rest) == Some((d, rest))
  {
    var tail := EncodeU(|d.bytes|) + d.bytes + rest;
    assert (DataBytes(d) + rest)[1..] == ConstBytes(d.offset) + tail;
    ConstRead(d.offset, tail);
    BytesRead(d.bytes, rest);
  }

  /** Loading gives back everything a module was assembled from. */
  lemma {:induction false} LoadRoundTrip(m: Loaded)
    requires forall i | 0 <= i < |m.codes| :: WasmDecode.AllEncodable(m.codes[i].1)
    ensures LoadModule(HEADER + EncodeSections(SectionsOf(m))) == Some(m)
  {
    var ss := SectionsOf(m);
    var bs := HEADER + EncodeSections(ss);
    assert bs[8..] == EncodeSections(ss);
    SectionsRoundTrip(ss);
    SectionBodies(m, ss);
  }

  lemma {:induction false} SectionBodies(m: Loaded, ss: seq<Section>)
    requires ss == SectionsOf(m)
    requires forall i | 0 <= i < |m.codes| :: WasmDecode.AllEncodable(m.codes[i].1)
    ensures LoadSections(ss) == Some(m)
  {
    SectionShape(m, ss);
    VectorsRead(m);
    CodesRead(m);
    Assembled(m, ss);
  }

  lemma {:induction false} SectionShape(m: Loaded, ss: seq<Section>)
    requires ss == SectionsOf(m)
    ensures Expected(ss) && |ss| == if m.data == [] then 7 else 8
    ensures ss[0].body == VecOf(m.types, TypeBytes) && ss[1].body == VecOf(m.imports, ImportBytes)
    ensures ss[2].body == VecOf(m.funcs, UBytes) && ss[3].body == VecOf(m.pages, LimitsBytes)
    ensures ss[4].body == VecOf(m.globals, GlobalBytes) && ss[5].body == VecOf(m.exports, ExportBytes)
    ensures ss[6].body == VecOf(m.codes, EntryBytes)
    ensures |ss| == 8 ==> ss[7].body == VecOf(m.data, DataBytes)
  {
  }

  lemma {:induction false} Assembled(m: Loaded, ss: seq<Section>)
    requires Expected(ss)
    requires Whole(ReadType, ss[0].body) == Some(m.types) && Whole(ReadImport, ss[1].body) == Some(m.imports)
    requires Whole(ReadU, ss[2].body) == Some(m.funcs) && Whole(ReadLimits, ss[3].body) == Some(m.pages)
    requires Whole(ReadGlobal, ss[4].body) == Some(m.globals) && Whole(ReadExport, ss[5].body) == Some(m.exports)
    requires Whole(ReadCode, ss[6].body) == Some(m.codes)
    requires if |ss| == 8 then Whole(ReadData, ss[7].body) == Some(m.data) else m.data == []
    ensures LoadSections(ss) == Some(m)
  {
  }

  lemma {:induction false} VectorsRead(m: Loaded)
    ensures Whole(ReadType, VecOf(m.types, TypeBytes)) == Some(m.types)
    ensures Whole(ReadImport, VecOf(m.imports, ImportBytes)) == Some(m.imports)
    ensures Whole(ReadU, VecOf(m.funcs, UBytes)) == Some(m.funcs)
    ensures Whole(ReadLimits, VecOf(m.pages, LimitsBytes)) == Some(m.pages)
    ensures Whole(ReadGlobal, VecOf(m.globals, GlobalBytes)) == Some(m.globals)
    ensures Whole(ReadExport, VecOf(m.exports, ExportBytes)) == Some(m.exports)
    ensures Whole(ReadData, VecOf(m.data, DataBytes)) == Some(m.data)
  {
    forall x: FuncType ensures Reads(ReadType, TypeBytes(x), x) {
      forall rest ensures ReadType(TypeBytes(x) + rest) == Some((x, rest)) { TypeRead(x, rest); }
    }
    forall x: Import ensures Reads(ReadImport, ImportBytes(x), x) {
      forall rest ensures ReadImport(ImportBytes(x) + rest) == Some((x, rest)) { ImportRead(x, rest); }
    }
    forall x: nat ensures Reads(ReadU, UBytes(x), x) {
      forall rest ensures ReadU(UBytes(x) + rest) == Some((x, rest)) { UnsignedRoundTrip(x, rest); }
    }
    forall x: nat ensures Reads(ReadLimits, LimitsBytes(x), x) {
      forall rest ensures ReadLimits(LimitsBytes(x) + rest) == Some((x, rest)) { LimitsRead(x, rest); }
    }
    forall x: int ensures Reads(ReadGlobal, GlobalBytes(x), x) {
      forall rest ensures ReadGlobal(GlobalBytes(x) + rest) == Some((x, rest)) { GlobalRead(x, rest); }
    }
    forall x: Export ensures Reads(ReadExport, ExportBytes(x), x) {
      forall rest ensures ReadExport(ExportBytes(x) + rest) == Some((x, rest)) { ExportRead(x, rest); }
    }
    forall x: Data ensures Reads(ReadData, DataBytes(x), x) {
      forall rest ensures ReadData(DataBytes(x) + rest) == Some((x, rest)) { DataRead(x, rest); }
    }
    WholeRead(ReadType, m.types, TypeBytes);
    WholeRead(ReadImport, m.imports, ImportBytes);
    WholeRead(ReadU, m.funcs, UBytes);
    WholeRead(ReadLimits, m.pages, LimitsBytes);
    WholeRead(ReadGlobal, m.globals, GlobalBytes);
    WholeRead(ReadExport, m.exports, ExportBytes);
    WholeRead(ReadData, m.data, DataBytes);
  }

  lemma {:induction false} CodesRead(m: Loaded)
    requires forall i | 0 <= i < |m.codes| :: WasmDecode.AllEncodable(m.codes[i].1)
    ensures Whole(ReadCode, VecOf(m.codes, EntryBytes)) == Some(m.codes)
  {
    forall i | 0 <= i < |m.codes| ensures Reads(ReadCode, EntryBytes(m.codes[i]), m.codes[i]) {
      var c := W.Code(0, m.codes[i].0, m.codes[i].1);
      forall rest ensures ReadCode(EntryBytes(m.codes[i]) + rest) == Some((m.codes[i], rest)) {
        CodeRead(c, rest);
      }
    }
    WholeRead(ReadCode, m.codes, EntryBytes);
  }
}
