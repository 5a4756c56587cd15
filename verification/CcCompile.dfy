/** The whole compiler back end: from functions to the bytes of a module. */
module CcCompile {
  import opened Bytes
  import opened CcAst
  import opened CcCode
  import opened CcGen
  import opened CcModule
  import opened Leb128
  import opened Results
  import CcSource
  import CcCorrect
  import CcFuel
  import WasmDecode
  import W = Wasm
  import opened Int32

  // ----- the module a program compiles to -----

  /** Identifiers are ASCII, so a name's bytes are its characters. */
  predicate Ascii(s: string) { forall i | 0 <= i < |s| :: s[i] < 128 as char }

  function NameBytes(s: string): (bs: seq<Byte>)
    requires Ascii(s)
    ensures |bs| == |s|
  {
    seq(|s|, i requires 0 <= i < |s| => s[i] as int)
  }

  function MaxParams(fs: seq<Func>): nat {
    if fs == [] then 0
    else
      var n, rest := |fs[|fs| - 1].params|, MaxParams(fs[..|fs| - 1]);
      if n > rest then n else rest
  }

  lemma {:induction false} MaxParamsBound(fs: seq<Func>, i: nat)
    requires i < |fs|
    ensures |fs[i].params| <= MaxParams(fs)
  {
    if i < |fs| - 1 {
      assert fs[..|fs| - 1][i] == fs[i];
      MaxParamsBound(fs[..|fs| - 1], i);
    }
  }

  /** The types of functions of fewer than `n` parameters. */
  function Arities(n: nat): (ts: seq<FuncType>)
    ensures |ts| == n && forall k | 0 <= k < n :: ts[k] == FuncType(k, 1)
  {
    if n == 0 then [] else Arities(n - 1) + [FuncType(n - 1, 1)]
  }

  function Types(maxParams: nat): seq<FuncType> {
    [FuncType(2, 0), FuncType(1, 0)] + Arities(maxParams + 1)
  }

  const IMPORTS := [Import(ENV_NAME, LOG_NAME, 0, 0), Import(ENV_NAME, PRINT_INT_NAME, 0, 1)]
  const ENV_NAME: seq<Byte> := [101, 110, 118]
  const LOG_NAME: seq<Byte> := [118, 101, 105, 108, 95, 108, 111, 103]
  const PRINT_INT_NAME: seq<Byte> := [118, 101, 105, 108, 95, 112, 114, 105, 110, 116, 95, 105, 110, 116]
  const START_NAME: seq<Byte> := [95, 115, 116, 97, 114, 116]
  const MEMORY_NAME: seq<Byte> := [109, 101, 109, 111, 114, 121]

  function FuncTypes(fs: seq<Func>): seq<nat> {
    seq(|fs|, i requires 0 <= i < |fs| => 2 + |fs[i].params|)
  }

  function Exports(fs: seq<Func>, g: Globals): seq<Export>
    requires forall i | 0 <= i < |fs| :: Ascii(fs[i].name)
  {
    seq(|fs|, i requires 0 <= i < |fs| => Export(NameBytes(fs[i].name), 0, FuncAt(g, fs[i].name)))
    + [Export(START_NAME, 0, FuncAt(g, "main")), Export(MEMORY_NAME, 2, 0)]
  }

  function Entries(fs: seq<Func>, g: Globals): seq<(nat, seq<W.Instr>)> {
    seq(|fs|, i requires 0 <= i < |fs| => (FuncCode(fs[i], g).extra, FuncCode(fs[i], g).body))
  }

  function ImageOf(fs: seq<Func>, g: Globals, data: seq<Byte>): Loaded
    requires forall i | 0 <= i < |fs| :: Ascii(fs[i].name)
  {
    Loaded(Types(MaxParams(fs)), IMPORTS, FuncTypes(fs), [PAGES], [HEAP_BASE], Exports(fs, g),
           Entries(fs, g), if data == [] then [] else [Data(DATA_BASE, data)])
  }

  predicate AcceptsAll(fs: seq<Func>, funcs: map<string, (nat, nat)>) {
    forall i | 0 <= i < |fs| :: AcceptsFunc(fs[i], funcs)
  }

  // ----- assembling -----

  /** Adding one more item to a partly written vector. */
  lemma {:induction false} NextItem<T>(start: seq<Byte>, xs: seq<T>, enc: T -> seq<Byte>, i: nat, bs: seq<Byte>)
    requires i < |xs| && bs == enc(xs[i])
    ensures start + Concat(Items(xs, enc)[..i]) + bs == start + Concat(Items(xs, enc)[..i + 1])
  {
    var items := Items(xs, enc);
    assert items[..i + 1] == items[..i] + [items[i]];
    ConcatSnoc(items[..i], items[i]);
  }

  lemma {:induction false} AllItems<T>(xs: seq<T>, enc: T -> seq<Byte>)
    ensures EncodeU(|xs|) + Concat(Items(xs, enc)[..|xs|]) == VecOf(xs, enc)
    ensures EncodeU(|xs|) + Concat(Items(xs, enc)[..0]) == EncodeU(|xs|)
  {
    assert Items(xs, enc)[..|xs|] == Items(xs, enc);
  }

  method TypeSection(maxParams: nat) returns (bs: seq<Byte>)
    ensures bs == VecOf(Types(maxParams), TypeBytes)
  {
    ghost var types := Types(maxParams);
    ghost var n := EncodeU(|types|);
    var out := new ByteVec();
    out.Uleb(2 + maxParams + 1);
    out.Extend([0x60, 2, 0x7f, 0x7f, 0]);
    out.Extend([0x60, 1, 0x7f, 0]);
    assert TypeBytes(FuncType(2, 0)) == [0x60, 2, 0x7f, 0x7f, 0];
    assert TypeBytes(FuncType(1, 0)) == [0x60, 1, 0x7f, 0];
    AllItems(types, TypeBytes);
    NextItem(n, types, TypeBytes, 0, [0x60, 2, 0x7f, 0x7f, 0]);
    NextItem(n, types, TypeBytes, 1, [0x60, 1, 0x7f, 0]);
    for k := 0 to maxParams + 1
      invariant out.bytes == n + Concat(Items(types, TypeBytes)[..2 + k])
    {
      PushType(k, out);
      NextItem(n, types, TypeBytes, 2 + k, TypeBytes(FuncType(k, 1)));
    }
    bs := out.bytes;
  }

  method PushType(k: nat, out: ByteVec)
    modifies out
    ensures out.bytes == old(out.bytes) + TypeBytes(FuncType(k, 1))
  {
    ghost var before := out.bytes;
    out.Push(0x60);
    out.Uleb(k);
    for j := 0 to k
      invariant out.bytes == before + [0x60] + EncodeU(k) + I32s(j)
    {
      out.Push(0x7f);
      assert I32s(j) + [0x7f] == I32s(j + 1);
    }
    ghost var front := [0x60] + EncodeU(k) + I32s(k);
    assert out.bytes == before + front;
    out.Uleb(1);
    out.Push(0x7f);
    assert I32s(1) == [0x7f];
    assert TypeBytes(FuncType(k, 1)) == front + EncodeU(1) + [0x7f];
  }

  method PushSized(bs: seq<Byte>, out: ByteVec)
    modifies out
    ensures out.bytes == old(out.bytes) + (EncodeU(|bs|) + bs)
  {
    out.Uleb(|bs|);
    out.Extend(bs);
  }

  method ImportSection() returns (bs: seq<Byte>)
    ensures bs == VecOf(IMPORTS, ImportBytes)
  {
    var out := new ByteVec();
    out.Uleb(2);
    AllItems(IMPORTS, ImportBytes);
    PushImport(ENV_NAME, LOG_NAME, 0, out);
    NextItem(EncodeU(2), IMPORTS, ImportBytes, 0, ImportBytes(Import(ENV_NAME, LOG_NAME, 0, 0)));
    PushImport(ENV_NAME, PRINT_INT_NAME, 1, out);
    NextItem(EncodeU(2), IMPORTS, ImportBytes, 1, ImportBytes(Import(ENV_NAME, PRINT_INT_NAME, 0, 1)));
    bs := out.bytes;
  }

  method PushImport(from: seq<Byte>, name: seq<Byte>, typ: nat, out: ByteVec)
    modifies out
    ensures out.bytes == old(out.bytes) + ImportBytes(Import(from, name, 0, typ))
  {
    PushSized(from, out);
    PushExport(name, 0x00, typ, out);
  }

  method FunctionSection(fs: seq<Func>) returns (bs: seq<Byte>)
    ensures bs == VecOf(FuncTypes(fs), UBytes)
  {
    var out := new ByteVec();
    out.Uleb(|fs|);
    AllItems(FuncTypes(fs), UBytes);
    for i := 0 to |fs|
      invariant out.bytes == EncodeU(|fs|) + Concat(Items(FuncTypes(fs), UBytes)[..i])
    {
      out.Uleb(2 + |fs[i].params|);
      NextItem(EncodeU(|fs|), FuncTypes(fs), UBytes, i, EncodeU(2 + |fs[i].params|));
    }
    bs := out.bytes;
  }

  lemma {:induction false} SingleItem<T>(x: T, enc: T -> seq<Byte>)
    ensures VecOf([x], enc) == [1] + enc(x)
  {
    var items := Items([x], enc);
    assert items == [enc(x)] && items[1..] == [];
    assert Concat(items) == enc(x) + Concat([]);
  }

  method MemorySection() returns (bs: seq<Byte>)
    ensures bs == VecOf([PAGES], LimitsBytes)
  {
    var out := new ByteVec();
    out.Uleb(1);
    out.Push(0x00);
    out.Uleb(PAGES);
    SingleItem(PAGES as nat, LimitsBytes);
    bs := out.bytes;
  }

  method GlobalSection() returns (bs: seq<Byte>)
    ensures bs == VecOf([HEAP_BASE], GlobalBytes)
  {
    var out := new ByteVec();
    out.Uleb(1);
    out.Push(0x7f);
    out.Push(0x01);
    out.I32Const(HEAP_BASE);
    out.Push(0x0b);
    SingleItem(HEAP_BASE, GlobalBytes);
    bs := out.bytes;
  }

  method DataSection(data: seq<Byte>) returns (bs: seq<Byte>)
    ensures bs == VecOf([Data(DATA_BASE, data)], DataBytes)
  {
    var out := new ByteVec();
    out.Uleb(1);
    out.Uleb(0);
    out.I32Const(DATA_BASE);
    out.Push(0x0b);
    out.Uleb(|data|);
    out.Extend(data);
    SingleItem(Data(DATA_BASE, data), DataBytes);
    assert out.bytes == [1] + DataBytes(Data(DATA_BASE, data));
    bs := out.bytes;
  }

  method ExportSection(fs: seq<Func>, funcs: map<string, (nat, nat)>, ghost g: Globals) returns (bs: seq<Byte>)
    requires forall i | 0 <= i < |fs| :: Ascii(fs[i].name) && fs[i].name in funcs
    requires "main" in funcs && g.funcs == funcs
    ensures bs == VecOf(Exports(fs, g), ExportBytes)
  {
    ghost var exports := Exports(fs, g);
    var out := new ByteVec();
    out.Uleb(|fs| + 1 + 1);
    AllItems(exports, ExportBytes);
    for i := 0 to |fs|
      invariant out.bytes == EncodeU(|fs| + 2) + Concat(Items(exports, ExportBytes)[..i])
    {
      var name, idx := NameBytes(fs[i].name), funcs[fs[i].name].0;
      PushExport(name, 0x00, idx, out);
      NextItem(EncodeU(|fs| + 2), exports, ExportBytes, i, ExportBytes(Export(name, 0x00, idx)));
    }
    PushExport(START_NAME, 0x00, funcs["main"].0, out);
    NextItem(EncodeU(|fs| + 2), exports, ExportBytes, |fs|, ExportBytes(Export(START_NAME, 0x00, funcs["main"].0)));
    PushExport(MEMORY_NAME, 0x02, 0, out);
    NextItem(EncodeU(|fs| + 2), exports, ExportBytes, |fs| + 1, ExportBytes(Export(MEMORY_NAME, 0x02, 0)));
    bs := out.bytes;
  }

  method PushExport(name: seq<Byte>, kind: Byte, idx: nat, out: ByteVec)
    modifies out
    ensures out.bytes == old(out.bytes) + ExportBytes(Export(name, kind, idx))
  {
    PushSized(name, out);
    out.Push(kind);
    out.Uleb(idx);
  }

  method CodeSection(codes: seq<seq<Byte>>, ghost fs: seq<Func>, ghost g: Globals) returns (bs: seq<Byte>)
    requires |codes| == |fs| && forall i | 0 <= i < |fs| :: codes[i] == CodeBytes(FuncCode(fs[i], g))
    ensures bs == VecOf(Entries(fs, g), EntryBytes)
  {
    var out := new ByteVec();
    out.Uleb(|codes|);
    AllItems(Entries(fs, g), EntryBytes);
    for i := 0 to |codes|
      invariant out.bytes == EncodeU(|fs|) + Concat(Items(Entries(fs, g), EntryBytes)[..i])
    {
      PushSized(codes[i], out);
      EntryOf(fs, g, i);
      NextItem(EncodeU(|fs|), Entries(fs, g), EntryBytes, i, EncodeU(|codes[i]|) + codes[i]);
    }
    bs := out.bytes;
  }

  lemma {:induction false} EntryOf(fs: seq<Func>, g: Globals, i: nat)
    requires i < |fs|
    ensures var bs := CodeBytes(FuncCode(fs[i], g));
            EntryBytes(Entries(fs, g)[i]) == EncodeU(|bs|) + bs
  {
    var c := FuncCode(fs[i], g);
    assert CodeBytes(c) == CodeBytes(W.Code(0, c.extra, c.body));
  }

  /** Lay the sections out one after the other. */
  method Assemble(fs: seq<Func>, funcs: map<string, (nat, nat)>, codes: seq<seq<Byte>>, data: seq<Byte>,
      ghost g: Globals)
    returns (bs: seq<Byte>)
    requires forall i | 0 <= i < |fs| :: Ascii(fs[i].name) && fs[i].name in funcs
    requires "main" in funcs && g.funcs == funcs
    requires |codes| == |fs| && forall i | 0 <= i < |fs| :: codes[i] == CodeBytes(FuncCode(fs[i], g))
    ensures bs == HEADER + EncodeSections(SectionsOf(ImageOf(fs, g, data)))
  {
    var maxParams := 0;
    for i := 0 to |fs|
      invariant maxParams == MaxParams(fs[..i])
    {
      maxParams := if |fs[i].params| > maxParams then |fs[i].params| else maxParams;
      assert fs[..i + 1][..i] == fs[..i];
    }
    assert fs[..|fs|] == fs;
    var types := TypeSection(maxParams);
    var imports := ImportSection();
    var functions := FunctionSection(fs);
    var memory := MemorySection();
    var globals := GlobalSection();
    var exports := ExportSection(fs, funcs, g);
    var code := CodeSection(codes, fs, g);
    var out := PushSeven(types, imports, functions, memory, globals, exports, code);
    ghost var seven := Seven(types, imports, functions, memory, globals, exports, code);
    ImageSections(fs, g, data, seven);
    if data != [] {
      var segment := DataSection(data);
      out.PushSection(11, segment, seven);
    }
    bs := HEADER + out.bytes;
  }

  function Seven(types: seq<Byte>, imports: seq<Byte>, functions: seq<Byte>, memory: seq<Byte>,
                 globals: seq<Byte>, exports: seq<Byte>, code: seq<Byte>): seq<Section> {
    [Section(1, types), Section(2, imports), Section(3, functions), Section(5, memory)]
    + [Section(6, globals), Section(7, exports), Section(10, code)]
  }

  lemma {:induction false} ImageSections(fs: seq<Func>, g: Globals, data: seq<Byte>, seven: seq<Section>)
    requires forall i | 0 <= i < |fs| :: Ascii(fs[i].name)
    requires seven == Seven(VecOf(Types(MaxParams(fs)), TypeBytes), VecOf(IMPORTS, ImportBytes),
                            VecOf(FuncTypes(fs), UBytes), VecOf([PAGES], LimitsBytes),
                            VecOf([HEAP_BASE], GlobalBytes), VecOf(Exports(fs, g), ExportBytes),
                            VecOf(Entries(fs, g), EntryBytes))
    ensures SectionsOf(ImageOf(fs, g, data)) ==
            if data == [] then seven else seven + [Section(11, VecOf([Data(DATA_BASE, data)], DataBytes))]
  {
  }

  method PushSeven(types: seq<Byte>, imports: seq<Byte>, functions: seq<Byte>, memory: seq<Byte>,
                   globals: seq<Byte>, exports: seq<Byte>, code: seq<Byte>) returns (out: ByteVec)
    ensures fresh(out)
    ensures out.bytes == EncodeSections(Seven(types, imports, functions, memory, globals, exports, code))
  {
    out := new ByteVec();
    PushFour(types, imports, functions, memory, out);
    ghost var front := [Section(1, types), Section(2, imports), Section(3, functions), Section(5, memory)];
    PushThree(globals, exports, code, front, out);
  }

  method PushFour(types: seq<Byte>, imports: seq<Byte>, functions: seq<Byte>, memory: seq<Byte>, out: ByteVec)
    requires out.bytes == []
    modifies out
    ensures out.bytes ==
            EncodeSections([Section(1, types), Section(2, imports), Section(3, functions), Section(5, memory)])
  {
    ghost var a, b, c, d := Section(1, types), Section(2, imports), Section(3, functions), Section(5, memory);
    out.PushSection(1, types, []);
    assert [] + [a] == [a] && [a] + [b] == [a, b] && [a, b] + [c] == [a, b, c] && [a, b, c] + [d] == [a, b, c, d];
    out.PushSection(2, imports, [a]);
    out.PushSection(3, functions, [a, b]);
    out.PushSection(5, memory, [a, b, c]);
  }

  method PushThree(globals: seq<Byte>, exports: seq<Byte>, code: seq<Byte>, ghost ss: seq<Section>, out: ByteVec)
    requires out.bytes == EncodeSections(ss)
    modifies out
    ensures out.bytes == EncodeSections(ss + [Section(6, globals), Section(7, exports), Section(10, code)])
  {
    ghost var a, b, c := Section(6, globals), Section(7, exports), Section(10, code);
    out.PushSection(6, globals, ss);
    assert ss + [a] + [b] == ss + [a, b] && ss + [a, b] + [c] == ss + [a, b, c];
    out.PushSection(7, exports, ss + [a]);
    out.PushSection(10, code, ss + [a, b]);
  }

  /** Compile a program, or report an error. `order` lists its literals as they were met. */
  method Compile(fs: seq<Func>) returns (r: Result<seq<Byte>>, ghost order: seq<seq<Byte>>)
    requires forall i | 0 <= i < |fs| :: Ascii(fs[i].name)
    ensures r.Ok? <==> CcSource.Lookup(fs, "main").Some? && AcceptsAll(fs, FuncTable(fs))
    ensures r.Ok? ==>
            var g := Globals(FuncTable(fs), OffsetsOf(order));
            (forall i | 0 <= i < |fs| :: KnownStmts(fs[i].body, g.strs.Keys)) &&
            r.value == HEADER + EncodeSections(SectionsOf(ImageOf(fs, g, DataOf(order))))
  {
    order := [];
    var hasMain := HasMain(fs);
    if !hasMain { return Err, order; }
    var gen := new Gen();
    RegisterAll(fs, gen);
    var codes := GenAll(fs, gen);
    if codes.Err? { return Err, order; }
    NamesRegistered(fs);
    CcCorrect.FuncTableLookup(fs, "main");
    var bs := Assemble(fs, gen.funcs, codes.value, gen.data, gen.View());
    return Ok(bs), gen.order;
  }

  method HasMain(fs: seq<Func>) returns (b: bool)
    ensures b <==> CcSource.Lookup(fs, "main").Some?
  {
    b := false;
    for i := 0 to |fs|
      invariant b <==> exists j :: 0 <= j < i && fs[j].name == "main"
    {
      if fs[i].name == "main" { b := true; }
    }
    LookupNone(fs, "main");
  }

  /** Functions get the indices after the two imports; a repeated name keeps the last. */
  method RegisterAll(fs: seq<Func>, gen: Gen)
    requires gen.Valid() && gen.funcs == map[]
    modifies gen
    ensures gen.Valid() && gen.funcs == FuncTable(fs) && gen.order == old(gen.order)
  {
    for i := 0 to |fs|
      invariant gen.Valid() && gen.funcs == FuncTable(fs[..i]) && gen.order == old(gen.order)
    {
      gen.funcs := gen.funcs[fs[i].name := (2 + i, |fs[i].params|)];
      assert fs[..i + 1][..i] == fs[..i];
    }
    assert fs[..|fs|] == fs;
  }

  method GenAll(fs: seq<Func>, gen: Gen) returns (r: Result<seq<seq<Byte>>>)
    requires gen.Valid()
    modifies gen
    ensures gen.Since(old(gen.View()))
    ensures r.Ok? <==> AcceptsAll(fs, gen.funcs)
    ensures r.Ok? ==> |r.value| == |fs|
    ensures r.Ok? ==> forall i | 0 <= i < |fs| :: KnownStmts(fs[i].body, gen.View().strs.Keys)
    ensures r.Ok? ==> forall i | 0 <= i < |fs| :: r.value[i] == CodeBytes(FuncCode(fs[i], gen.View()))
  {
    var codes: seq<seq<Byte>> := [];
    ghost var funcs := gen.funcs;
    for i := 0 to |fs|
      invariant gen.Since(old(gen.View())) && gen.funcs == funcs && |codes| == i
      invariant forall j | 0 <= j < i :: AcceptsFunc(fs[j], funcs)
      invariant forall j | 0 <= j < i :: KnownStmts(fs[j].body, gen.View().strs.Keys)
      invariant forall j | 0 <= j < i :: codes[j] == CodeBytes(FuncCode(fs[j], gen.View()))
    {
      ghost var g1 := gen.View();
      var rf := gen.GenFunc(fs[i]);
      if rf.Err? { return Err; }
      CodesStable(fs, i, g1, gen.View());
      codes := codes + [rf.value];
    }
    r := Ok(codes);
  }

  lemma {:induction false} NamesRegistered(fs: seq<Func>)
    ensures forall i | 0 <= i < |fs| :: fs[i].name in FuncTable(fs)
  {
    forall i | 0 <= i < |fs| ensures fs[i].name in FuncTable(fs) {
      CcCorrect.FuncTableLookup(fs, fs[i].name);
      LookupNone(fs, fs[i].name);
    }
  }

  lemma {:induction false} LookupNone(fs: seq<Func>, name: string)
    ensures CcSource.Lookup(fs, name).Some? <==> exists j :: 0 <= j < |fs| && fs[j].name == name
  {
    if fs != [] {
      LookupNone(fs[..|fs| - 1], name);
      if j :| 0 <= j < |fs| - 1 && fs[j].name == name {
        assert fs[..|fs| - 1][j].name == name;
      }
    }
  }

  lemma {:induction false} CodesStable(fs: seq<Func>, n: nat, g: Globals, h: Globals)
    requires n <= |fs| && Grows(g, h) && forall j | 0 <= j < n :: KnownStmts(fs[j].body, g.strs.Keys)
    ensures forall j | 0 <= j < n :: KnownStmts(fs[j].body, h.strs.Keys)
    ensures forall j | 0 <= j < n :: FuncCode(fs[j], g) == FuncCode(fs[j], h)
  {
    forall j | 0 <= j < n
      ensures KnownStmts(fs[j].body, h.strs.Keys) && FuncCode(fs[j], g) == FuncCode(fs[j], h)
    {
      StmtsStable(fs[j].body, AllocOf(fs[j]).locals, g, h);
    }
  }

  // ----- immediates -----

  /** Offsets of literals are valid i32 immediates. */
  predicate StrsFit(g: Globals) { forall s | s in g.strs :: FitsI32(g.strs[s]) }

  /** Sizes of arrays are valid i32 immediates. */
  predicate ArraysFit(l: Locals) {
    forall i | 0 <= i < |l| && l[i].value.decl.arrLen.Some? ::
      FitsI32(l[i].value.decl.arrLen.value * ElemSize(l[i].value.decl.kind))
  }

  lemma {:induction false} ExprFits(e: Expr, l: Locals, g: Globals)
    requires CcCorrect.ExprOk(e, l, g) && StrsFit(g)
    ensures WasmDecode.AllEncodable(ExprCode(e, l, g))
    ensures IsLval(e) ==> WasmDecode.AllEncodable(AddrCode(e, l, g))
    decreases e, 1
  {
    match e
    case Bin(op, a, b) =>
      ExprFits(a, l, g);
      ExprFits(b, l, g);
      SingleFits(W.Num(OpOf(op)));
      Join3(ExprCode(a, l, g), ExprCode(b, l, g), [W.Num(OpOf(op))]);
    case Neg(a) =>
      ExprFits(a, l, g);
      SingleFits(W.Const(0));
      SingleFits(W.Num(W.I32Sub));
      Join3([W.Const(0)], ExprCode(a, l, g), [W.Num(W.I32Sub)]);
    case Not(a) =>
      ExprFits(a, l, g);
      SingleFits(W.Eqz);
      WasmDecode.AllEncodableAppend(ExprCode(a, l, g), [W.Eqz]);
    case Index(a, i) =>
      var k := LvalKind(e, DeclsIn(l));
      ExprFits(a, l, g);
      ExprFits(i, l, g);
      ScaleFits(k);
      Join3(ExprCode(a, l, g), ExprCode(i, l, g), ScaleCode(k));
      SingleFits(LoadOp(k));
      WasmDecode.AllEncodableAppend(AddrCode(e, l, g), [LoadOp(k)]);
    case Deref(a) =>
      ExprFits(a, l, g);
      SingleFits(LoadOp(LvalKind(e, DeclsIn(l))));
      WasmDecode.AllEncodableAppend(AddrCode(e, l, g), [LoadOp(LvalKind(e, DeclsIn(l)))]);
    case Call(_, _) => CallFits(e, l, g);
    case Int(v) => SingleFits(W.Const(v));
    case Str(s) => SingleFits(W.Const(StrAt(g, s)));
    case Var(x) => SingleFits(W.LocalGet(SlotOf(l, x)));
  }

  lemma {:induction false} SingleFits(i: W.Instr)
    requires WasmDecode.Encodable(i)
    ensures WasmDecode.AllEncodable([i])
  {
    assert [i][1..] == [];
    assert WasmDecode.AllEncodable([]);
  }

  lemma {:induction false} ScaleFits(k: Kind)
    ensures WasmDecode.AllEncodable(ScaleCode(k))
  {
    SingleFits(W.Const(4));
    SingleFits(W.Num(W.I32Mul));
    SingleFits(W.Num(W.I32Add));
    Join3([W.Const(4)], [W.Num(W.I32Mul)], [W.Num(W.I32Add)]);
    if ElemSize(k) != 1 {
      assert ScaleCode(k) == [W.Const(4)] + [W.Num(W.I32Mul)] + [W.Num(W.I32Add)];
    } else {
      assert ScaleCode(k) == [W.Num(W.I32Add)];
    }
  }

  lemma {:induction false} BumpFits()
    ensures WasmDecode.AllEncodable(BUMP_TAIL)
  {
    var a, b := [W.Num(W.I32Add), W.Const(3)], [W.Num(W.I32Add), W.Const(-4)];
    var c := [W.Num(W.I32And), W.GlobalSet(0)];
    assert a[1..] == [W.Const(3)] && b[1..] == [W.Const(-4)] && c[1..] == [W.GlobalSet(0)];
    assert BUMP_TAIL == a + b + c;
    Join3(a, b, c);
  }

  lemma {:induction false} Join3(a: seq<W.Instr>, b: seq<W.Instr>, c: seq<W.Instr>)
    requires WasmDecode.AllEncodable(a) && WasmDecode.AllEncodable(b) && WasmDecode.AllEncodable(c)
    ensures WasmDecode.AllEncodable(a + b) && WasmDecode.AllEncodable(a + b + c)
  {
    WasmDecode.AllEncodableAppend(a, b);
    WasmDecode.AllEncodableAppend(a + b, c);
  }

  lemma {:induction false} NothingFits()
    ensures WasmDecode.AllEncodable([])
  {
  }

  lemma {:induction false} CallFits(e: Expr, l: Locals, g: Globals)
    requires CcCorrect.ExprOk(e, l, g) && StrsFit(g) && e.Call?
    ensures WasmDecode.AllEncodable(ExprCode(e, l, g))
    decreases e, 0
  {
    hide WasmDecode.AllEncodable;
    var args := e.args;
    if e.name == "print" {
      var s := args[0].text;
      SingleFits(W.Const(StrAt(g, s)));
      SingleFits(W.Const(|s|));
      SingleFits(W.Call(0));
      Join3([W.Const(StrAt(g, s))], [W.Const(|s|)], [W.Call(0)]);
      assert [W.Const(StrAt(g, s))] + [W.Const(|s|)] + [W.Call(0)] == ExprCode(e, l, g);
    } else if e.name == "print_int" || e.name == "putchar" {
      ExprFits(args[0], l, g);
      SingleFits(W.Call(1));
      WasmDecode.AllEncodableAppend(ExprCode(args[0], l, g), [W.Call(1)]);
    } else if e.name == "malloc" {
      ExprFits(args[0], l, g);
      BumpFits();
      SingleFits(W.GlobalGet(0));
      WasmDecode.AllEncodableAppend([W.GlobalGet(0)], [W.GlobalGet(0)]);
      assert [W.GlobalGet(0)] + [W.GlobalGet(0)] == [W.GlobalGet(0), W.GlobalGet(0)];
      Join3([W.GlobalGet(0), W.GlobalGet(0)], ExprCode(args[0], l, g), BUMP_TAIL);
    } else if e.name == "free" {
      if args != [] { ExprFits(args[0], l, g); }
      var code := if args == [] then [] else ExprCode(args[0], l, g);
      var drop := if args != [] && Pushes(args[0]) then [W.Drop] else [];
      NothingFits();
      SingleFits(W.Drop);
      SingleFits(W.Const(0));
      Join3(code, drop, [W.Const(0)]);
      assert ExprCode(e, l, g) == code + drop + [W.Const(0)];
    } else if e.name == "print_str" && |args| == 1 {
      ExprFits(args[0], l, g);
      var strlen := W.Call(if "strlen" in g.funcs then g.funcs["strlen"].0 else 0);
      SingleFits(strlen);
      SingleFits(W.Const(0));
      SingleFits(W.Call(0));
      WasmDecode.AllEncodableAppend(ExprCode(args[0], l, g), [strlen]);
      Join3(ExprCode(args[0], l, g), LenCode(args[0], l, g), [W.Call(0)]);
    } else {
      ArgsFit(args, l, g);
      SingleFits(W.Call(FuncAt(g, e.name)));
      WasmDecode.AllEncodableAppend(ArgsCode(args, l, g), [W.Call(FuncAt(g, e.name))]);
    }
  }

  lemma {:induction false} ArgsFit(es: seq<Expr>, l: Locals, g: Globals)
    requires CcCorrect.ArgsOk(es, l, g) && StrsFit(g)
    ensures WasmDecode.AllEncodable(ArgsCode(es, l, g))
    decreases es, 0
  {
    if es != [] {
      ExprFits(es[0], l, g);
      ArgsFit(es[1..], l, g);
      WasmDecode.AllEncodableAppend(ExprCode(es[0], l, g), ArgsCode(es[1..], l, g));
    }
  }

  lemma {:induction false} StmtFits(s: Stmt, l: Locals, g: Globals)
    requires CcCorrect.StmtOk(s, l, g) && StrsFit(g)
    ensures WasmDecode.AllEncodable(StmtCode(s, l, g))
    decreases s, 0
  {
    match s
    case Decl(x, _, init, _) =>
      if init.Some? { SetFits(init.value, SlotOf(l, x), l, g); }
    case Assign(x, e) => SetFits(e, SlotOf(l, x), l, g);
    case StoreLval(lval, e) =>
      ExprFits(lval, l, g);
      ExprFits(e, l, g);
      SingleFits(StoreOp(LvalKind(lval, DeclsIn(l))));
      Join3(AddrCode(lval, l, g), ExprCode(e, l, g), [StoreOp(LvalKind(lval, DeclsIn(l)))]);
    case ExprStmt(e) =>
      ExprFits(e, l, g);
      SingleFits(W.Drop);
      WasmDecode.AllEncodableAppend(ExprCode(e, l, g), if Pushes(e) then [W.Drop] else []);
    case Return(r) =>
      SingleFits(W.Return);
      SingleFits(W.Const(0));
      if r.Some? { ExprFits(r.value, l, g); }
      WasmDecode.AllEncodableAppend(if r.Some? then ExprCode(r.value, l, g) else [W.Const(0)], [W.Return]);
      assert [W.Const(0)] + [W.Return] == [W.Const(0), W.Return];
    case If(c, thn, els) =>
      ExprFits(c, l, g);
      StmtsFit(thn, l, g);
      StmtsFit(els, l, g);
      SingleFits(BranchCode(s, l, g));
      WasmDecode.AllEncodableAppend(ExprCode(c, l, g), [BranchCode(s, l, g)]);
    case While(c, body) =>
      ExprFits(c, l, g);
      StmtsFit(body, l, g);
      LoopFits(ExprCode(c, l, g), StmtsCode(body, l, g));
    case For(init, c, step, body) =>
      StmtFits(init, l, g);
      ExprFits(c, l, g);
      StmtFits(step, l, g);
      StmtsFit(body, l, g);
      WasmDecode.AllEncodableAppend(StmtsCode(body, l, g), StmtCode(step, l, g));
      LoopFits(ExprCode(c, l, g), StmtsCode(body, l, g) + StmtCode(step, l, g));
      WasmDecode.AllEncodableAppend(StmtCode(init, l, g), ForCode(s, l, g));
  }

  lemma {:induction false} SetFits(e: Expr, slot: nat, l: Locals, g: Globals)
    requires CcCorrect.ExprOk(e, l, g) && StrsFit(g)
    ensures WasmDecode.AllEncodable(ExprCode(e, l, g) + [W.LocalSet(slot)])
  {
    ExprFits(e, l, g);
    SingleFits(W.LocalSet(slot));
    WasmDecode.AllEncodableAppend(ExprCode(e, l, g), [W.LocalSet(slot)]);
  }

  lemma {:induction false} LoopFits(cond: seq<W.Instr>, body: seq<W.Instr>)
    requires WasmDecode.AllEncodable(cond) && WasmDecode.AllEncodable(body)
    ensures WasmDecode.AllEncodable(LoopCode(cond, body))
  {
    SingleFits(W.Eqz);
    SingleFits(W.BrIf(1));
    SingleFits(W.Br(0));
    assert [W.Eqz, W.BrIf(1)] == [W.Eqz] + [W.BrIf(1)];
    WasmDecode.AllEncodableAppend([W.Eqz], [W.BrIf(1)]);
    Join3(cond, [W.Eqz, W.BrIf(1)], body);
    WasmDecode.AllEncodableAppend(cond + [W.Eqz, W.BrIf(1)] + body, [W.Br(0)]);
    SingleFits(W.Loop(LoopBody(cond, body)));
    SingleFits(W.Block([W.Loop(LoopBody(cond, body))]));
  }

  lemma {:induction false} StmtsFit(ss: seq<Stmt>, l: Locals, g: Globals)
    requires CcCorrect.StmtsOk(ss, l, g) && StrsFit(g)
    ensures WasmDecode.AllEncodable(StmtsCode(ss, l, g))
    decreases ss, 1
  {
    if ss != [] {
      StmtFits(ss[0], l, g);
      StmtsFit(ss[1..], l, g);
      WasmDecode.AllEncodableAppend(StmtCode(ss[0], l, g), StmtsCode(ss[1..], l, g));
    }
  }

  lemma {:induction false} PrologueFits(l: Locals)
    requires ArraysFit(l)
    ensures WasmDecode.AllEncodable(Prologue(l))
  {
    if l != [] {
      var vi := l[0].value;
      assert forall i | 0 <= i < |l[1..]| :: l[1..][i] == l[i + 1];
      PrologueFits(l[1..]);
      if vi.decl.arrLen.Some? {
        var bytes := vi.decl.arrLen.value * ElemSize(vi.decl.kind);
        SingleFits(W.Const(bytes));
        SingleFits(W.GlobalGet(0));
        SingleFits(W.LocalSet(vi.slot));
        BumpFits();
        Join3([W.GlobalGet(0)], [W.GlobalGet(0)], [W.Const(bytes)]);
        assert [W.GlobalGet(0)] + [W.GlobalGet(0)] + [W.Const(bytes)] ==
          [W.GlobalGet(0), W.GlobalGet(0), W.Const(bytes)];
        Join3([W.GlobalGet(0), W.GlobalGet(0), W.Const(bytes)], BUMP_TAIL, [W.LocalSet(vi.slot)]);
        WasmDecode.AllEncodableAppend(ArrayCode(bytes, vi.slot), Prologue(l[1..]));
      } else {
        assert Prologue(l) == Prologue(l[1..]);
      }
    }
  }

  lemma {:induction false} FuncFits(f: Func, g: Globals)
    requires CcCorrect.FuncOk(f, g) && StrsFit(g) && ArraysFit(AllocOf(f).locals)
    ensures WasmDecode.AllEncodable(FuncCode(f, g).body)
  {
    PrologueFits(AllocOf(f).locals);
    StmtsFit(f.body, AllocOf(f).locals, g);
    SingleFits(W.Const(0));
    Join3(Prologue(AllocOf(f).locals), StmtsCode(f.body, AllocOf(f).locals, g), [W.Const(0)]);
  }

  // ----- from source text to execution -----

  /** What the end-to-end theorem asks of a program. */
  ghost predicate Supported(fs: seq<Func>, order: seq<seq<Byte>>) {
    var g := Globals(FuncTable(fs), OffsetsOf(order));
    && (forall i | 0 <= i < |fs| :: Ascii(fs[i].name) && ArraysFit(AllocOf(fs[i]).locals))
    && CcSource.Lookup(fs, "main").Some?
    && CcCorrect.ProgramOk(fs, OffsetsOf(order))
    && StrsFit(g)
  }

  /** The functions read back from the module bytes are the compiled functions. */
  lemma {:induction false} LoadedCodes(fs: seq<Func>, g: Globals, data: seq<Byte>)
    requires forall i | 0 <= i < |fs| :: Ascii(fs[i].name)
    ensures CodesOf(ImageOf(fs, g, data)) == Some(ModuleCode(fs, g))
  {
    var m := ImageOf(fs, g, data);
    forall i | 0 <= i < |fs|
      ensures m.funcs[i] < |m.types| && m.types[m.funcs[i]].params == |fs[i].params|
      ensures i < |ModuleCode(fs, g)| && ModuleCode(fs, g)[i] == FuncCode(fs[i], g)
    {
      MaxParamsBound(fs, i);
      CcCorrect.ModuleCodeAt(fs, g, i);
    }
    if fs != [] { CcCorrect.ModuleCodeAt(fs, g, 0); }
    assert CodesOf(m).value == ModuleCode(fs, g);
  }

  /** The bytes of a compiled program load, and calling any function of the loaded module
      does what the source function does: same result, memory, heap and output, for every
      argument list, starting state and amount of fuel. */
  lemma {:induction false} EndToEnd(fs: seq<Func>, order: seq<seq<Byte>>, fuel: nat, k: nat, args: seq<Word>,
      st: W.Store)
    requires Supported(fs, order) && k < |fs| && |args| == |fs[k].params|
    ensures var g := Globals(FuncTable(fs), OffsetsOf(order));
            var bytes := HEADER + EncodeSections(SectionsOf(ImageOf(fs, g, DataOf(order))));
            var p := CcSource.Program(fs, OffsetsOf(order));
            LoadModule(bytes).Some? &&
            var m := LoadModule(bytes).value;
            CodesOf(m).Some? && k < |CodesOf(m).value| &&
            CcSource.EvalFunc(fuel, k, args, st, p) != CcSource.Wrong &&
            W.Invoke(fuel, k, args, st, CodesOf(m).value) ==
            CcCorrect.LiftCall(CcSource.EvalFunc(fuel, k, args, st, p))
  {
    var g := Globals(FuncTable(fs), OffsetsOf(order));
    var m := ImageOf(fs, g, DataOf(order));
    forall i | 0 <= i < |m.codes| ensures WasmDecode.AllEncodable(m.codes[i].1) {
      FuncFits(fs[i], g);
    }
    LoadRoundTrip(m);
    LoadedCodes(fs, g, DataOf(order));
    CcCorrect.FuncSim(fuel, k, args, st, CcSource.Program(fs, OffsetsOf(order)), g, ModuleCode(fs, g));
  }

  /** The executable functions of the compiled module, read back from its bytes. */
  function ReadBack(fs: seq<Func>, order: seq<seq<Byte>>): Option<W.Module>
    requires forall i | 0 <= i < |fs| :: Ascii(fs[i].name)
  {
    var g := Globals(FuncTable(fs), OffsetsOf(order));
    match LoadModule(HEADER + EncodeSections(SectionsOf(ImageOf(fs, g, DataOf(order)))))
    case Some(m) => CodesOf(m)
    case None => None
  }

  /** The module call ends with what corresponds to the source result `r`. */
  ghost predicate ModuleEnds(k: nat, args: seq<Word>, st: W.Store, m: W.Module, r: CcSource.Res<Word>)
    requires k < |m|
  {
    CcFuel.Finished(r) && r != CcSource.Wrong && exists fuel :: W.Invoke(fuel, k, args, st, m) == CcCorrect.LiftCall(r)
  }

  ghost predicate ModuleDiverges(k: nat, args: seq<Word>, st: W.Store, m: W.Module)
    requires k < |m|
  {
    forall fuel :: W.Invoke(fuel, k, args, st, m).Timeout?
  }

  /** Source and module agree at one amount of fuel. */
  ghost predicate InStep(fuel: nat, k: nat, args: seq<Word>, st: W.Store, p: CcSource.Program, m: W.Module)
    requires k < |p.funcs| && k < |m|
  {
    var r := CcSource.EvalFunc(fuel, k, args, st, p);
    r != CcSource.Wrong && W.Invoke(fuel, k, args, st, m) == CcCorrect.LiftCall(r)
  }

  /** Without fuel: a call of the module read back from the bytes ends with a result exactly
      when the source call does, and never ends exactly when the source call never ends. */
  lemma {:induction false} BehaviourPreserved(fs: seq<Func>, order: seq<seq<Byte>>, k: nat, args: seq<Word>,
      st: W.Store, r: CcSource.Res<Word>)
    requires Supported(fs, order) && k < |fs| && |args| == |fs[k].params|
    ensures var p := CcSource.Program(fs, OffsetsOf(order));
            var m := ReadBack(fs, order);
            m.Some? && k < |m.value| &&
            (CcFuel.Ends(k, args, st, p, r) <==> ModuleEnds(k, args, st, m.value, r)) &&
            (CcFuel.Diverges(k, args, st, p) <==> ModuleDiverges(k, args, st, m.value))
  {
    var p := CcSource.Program(fs, OffsetsOf(order));
    EndToEnd(fs, order, 0, k, args, st);
    var m := ReadBack(fs, order).value;
    forall fuel: nat ensures InStep(fuel, k, args, st, p, m) {
      EndToEnd(fs, order, fuel, k, args, st);
    }
    SameEnds(k, args, st, p, m, r);
    SameDivergence(k, args, st, p, m);
  }

  lemma {:induction false} SameEnds(k: nat, args: seq<Word>, st: W.Store, p: CcSource.Program, m: W.Module,
      r: CcSource.Res<Word>)
    requires k < |p.funcs| && k < |m| && forall fuel :: InStep(fuel, k, args, st, p, m)
    ensures CcFuel.Ends(k, args, st, p, r) <==> ModuleEnds(k, args, st, m, r)
  {
    if CcFuel.Ends(k, args, st, p, r) {
      var fuel: nat :| CcSource.EvalFunc(fuel, k, args, st, p) == r;
      assert InStep(fuel, k, args, st, p, m);
    }
    if ModuleEnds(k, args, st, m, r) {
      var fuel: nat :| W.Invoke(fuel, k, args, st, m) == CcCorrect.LiftCall(r);
      assert InStep(fuel, k, args, st, p, m);
      assert CcSource.EvalFunc(fuel, k, args, st, p) == r;
    }
  }

  lemma {:induction false} SameDivergence(k: nat, args: seq<Word>, st: W.Store, p: CcSource.Program, m: W.Module)
    requires k < |p.funcs| && k < |m| && forall fuel :: InStep(fuel, k, args, st, p, m)
    ensures CcFuel.Diverges(k, args, st, p) <==> ModuleDiverges(k, args, st, m)
  {
    forall fuel: nat
      ensures !CcFuel.Finished(CcSource.EvalFunc(fuel, k, args, st, p)) <==> W.Invoke(fuel, k, args, st, m).Timeout?
    {
      assert InStep(fuel, k, args, st, p, m);
    }
  }

  /** `_start` names the function that calls of `main` reach. */
  lemma {:induction false} StartIsMain(fs: seq<Func>, order: seq<seq<Byte>>)
    requires Supported(fs, order)
    ensures var g := Globals(FuncTable(fs), OffsetsOf(order));
            Export(START_NAME, 0, 2 + CcSource.Lookup(fs, "main").value) in ImageOf(fs, g, DataOf(order)).exports
  {
    var g := Globals(FuncTable(fs), OffsetsOf(order));
    CcCorrect.FuncTableLookup(fs, "main");
    assert Exports(fs, g)[|fs|] == Export(START_NAME, 0, FuncAt(g, "main"));
  }

  // ----- literals and the heap -----

  /** A fresh instance: zeroed pages with the data segment copied in, heap at its base. */
  function Instance(data: seq<Byte>): W.Store
    requires DATA_BASE + |data| <= PAGES * 65536
  {
    W.Store(Zeros(DATA_BASE) + data + Zeros(PAGES * 65536 - DATA_BASE - |data|), HEAP_BASE, [])
  }

  /** At start every literal is in memory at the address its expression evaluates to,
      followed by a NUL. */
  lemma {:induction false} LiteralInMemory(order: seq<seq<Byte>>, s: seq<Byte>)
    requires s in OffsetsOf(order) && DATA_BASE + |DataOf(order)| <= PAGES * 65536
    ensures var a, mem := OffsetsOf(order)[s], Instance(DataOf(order)).mem;
            a + |s| + 1 <= |mem| && mem[a..a + |s| + 1] == s + [0]
  {
    LiteralAt(order, s);
    var a, data := OffsetsOf(order)[s], DataOf(order);
    var mem := Instance(data).mem;
    assert mem[DATA_BASE..DATA_BASE + |data|] == data;
    assert mem[a..a + |s| + 1] == data[a - DATA_BASE..a - DATA_BASE + |s| + 1];
  }
}
