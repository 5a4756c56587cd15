/** What a host finds in a compiled module, and the bytes of the smallest one. */
module CcHost {
  import opened Bytes
  import opened SortedTable
  import opened Leb128
  import opened CcAst
  import opened CcCode
  import opened CcGen
  import opened CcModule
  import opened CcCompile
  import W = Wasm
  import WasmDecode
  import CcSource
  import CcCorrect
  import Utf8

  lemma {:induction false} ImageLoads(fs: seq<Func>, order: seq<seq<Byte>>)
    requires Supported(fs, order)
    ensures var g := Globals(FuncTable(fs), OffsetsOf(order));
            LoadModule(HEADER + EncodeSections(SectionsOf(ImageOf(fs, g, DataOf(order)))))
            == Some(ImageOf(fs, g, DataOf(order)))
  {
    var g := Globals(FuncTable(fs), OffsetsOf(order));
    var m := ImageOf(fs, g, DataOf(order));
    forall i | 0 <= i < |m.codes| ensures WasmDecode.AllEncodable(m.codes[i].1) {
      FuncFits(fs[i], g);
    }
    LoadRoundTrip(m);
  }

  /** The names, spelled out. */
  lemma {:induction false} HostNames()
    ensures ENV_NAME == NameBytes("env") && LOG_NAME == NameBytes("veil_log")
    ensures PRINT_INT_NAME == NameBytes("veil_print_int")
    ensures START_NAME == NameBytes("_start") && MEMORY_NAME == NameBytes("memory")
  {
  }

  /** What the host relies on: the two imports and their types, 16 pages of memory, a heap that starts at 32768 and
      literals from 1024 on. */
  predicate Hosted(m: Loaded, data: seq<Byte>) {
    && m.imports == [Import(NameBytes("env"), NameBytes("veil_log"), 0, 0),
                     Import(NameBytes("env"), NameBytes("veil_print_int"), 0, 1)]
    && |m.types| > 2 && m.types[0] == FuncType(2, 0) && m.types[1] == FuncType(1, 0)
    && m.pages == [16] && m.globals == [32768]
    && m.data == if data == [] then [] else [Data(1024, data)]
  }

  /** Every function under its name, the start function and the memory; a name stands for its last function. */
  predicate Exported(fs: seq<Func>, es: seq<Export>)
    requires forall i | 0 <= i < |fs| :: Ascii(fs[i].name)
  {
    && |es| == |fs| + 2 && CcSource.Lookup(fs, "main").Some?
    && (forall i | 0 <= i < |fs| ::
          CcSource.Lookup(fs, fs[i].name).Some? &&
          es[i] == Export(NameBytes(fs[i].name), 0, 2 + CcSource.Lookup(fs, fs[i].name).value))
    && es[|fs|] == Export(NameBytes("_start"), 0, 2 + CcSource.Lookup(fs, "main").value)
    && es[|fs| + 1] == Export(NameBytes("memory"), 2, 0)
  }

  lemma {:induction false} HostContract(fs: seq<Func>, order: seq<seq<Byte>>)
    requires Supported(fs, order)
    ensures var g := Globals(FuncTable(fs), OffsetsOf(order));
            var bytes := HEADER + EncodeSections(SectionsOf(ImageOf(fs, g, DataOf(order))));
            && [0x00, 'a' as int, 's' as int, 'm' as int, 1, 0, 0, 0] <= bytes
            && LoadModule(bytes).Some? && Hosted(LoadModule(bytes).value, DataOf(order))
            && Exported(fs, LoadModule(bytes).value.exports)
  {
    hide LoadModule, CcCorrect.ProgramOk, NameBytes, Hosted, Exported, ImageOf;
    var g := Globals(FuncTable(fs), OffsetsOf(order));
    ImageLoads(fs, order);
    assert HEADER == [0x00, 'a' as int, 's' as int, 'm' as int, 1, 0, 0, 0];
    ImageHosted(fs, g, DataOf(order));
    ImageExported(fs, g, DataOf(order));
  }

  lemma {:induction false} ImageHosted(fs: seq<Func>, g: Globals, data: seq<Byte>)
    requires forall i | 0 <= i < |fs| :: Ascii(fs[i].name)
    ensures Hosted(ImageOf(fs, g, data), data)
  {
    hide NameBytes, Entries, Exports;
    HostNames();
    HostTypes(MaxParams(fs));
  }

  lemma {:induction false} ImageExported(fs: seq<Func>, g: Globals, data: seq<Byte>)
    requires (forall i | 0 <= i < |fs| :: Ascii(fs[i].name)) && g.funcs == FuncTable(fs)
    requires CcSource.Lookup(fs, "main").Some?
    ensures Exported(fs, ImageOf(fs, g, data).exports)
  {
    hide NameBytes, Entries;
    HostNames();
    CcCorrect.FuncTableLookup(fs, "main");
    forall i | 0 <= i < |fs|
      ensures CcSource.Lookup(fs, fs[i].name).Some?
      ensures FuncAt(g, fs[i].name) == 2 + CcSource.Lookup(fs, fs[i].name).value
    {
      CcCorrect.FuncTableLookup(fs, fs[i].name);
      IsListed(fs, i);
    }
  }

  lemma {:induction false} IsListed(fs: seq<Func>, i: nat)
    requires i < |fs|
    ensures CcSource.Lookup(fs, fs[i].name).Some?
    decreases |fs|
  {
    var n := |fs| - 1;
    if fs[n].name != fs[i].name { IsListed(fs[..n], i); }
  }

  lemma {:induction false} HostTypes(n: nat)
    ensures |Types(n)| > 2 && Types(n)[0] == FuncType(2, 0) && Types(n)[1] == FuncType(1, 0)
  {
  }

  /** The numbers of the characters of a string. */
  function Characters(s: string): seq<nat> { seq(|s|, i requires 0 <= i < |s| => s[i] as int) }

  /** The bytes of a name are its encoding. */
  lemma {:induction false} NamesEncoded(s: string)
    requires Ascii(s)
    ensures Utf8.Chars(NameBytes(s)) == Some(Characters(s))
  {
    var bs := NameBytes(s);
    Utf8.CharsAscii(bs, []);
    Utf8.Nothing();
    assert bs + [] == bs;
    assert Characters(s) == bs;
  }

  /** A fresh instance has 1048576 bytes of memory, all zero but the literals from 1024 on. */
  lemma {:induction false} FreshInstance(data: seq<Byte>)
    requires 1024 + |data| <= 1048576
    ensures var st := Instance(data);
            && |st.mem| == 1048576 && st.heap == 32768 && st.trace == []
            && st.mem[1024..1024 + |data|] == data
            && forall i | 0 <= i < 1048576 && !(1024 <= i < 1024 + |data|) :: st.mem[i] == 0
  {
    hide Zeros;
    var a, b := Zeros(1024), Zeros(1048576 - 1024 - |data|);
    assert Instance(data).mem == a + data + b;
    assert (a + data + b)[1024..1024 + |data|] == data;
  }

  /** The sections of a module in order, and the data segment of the literals: memory 0, `i32.const 1024`, end. */
  lemma {:induction false} SectionsInOrder(m: Loaded, d: seq<Byte>)
    ensures var ss := SectionsOf(m);
            && |ss| == (if m.data == [] then 7 else 8)
            && ss[0].id == 1 && ss[1].id == 2 && ss[2].id == 3 && ss[3].id == 5 && ss[4].id == 6 && ss[5].id == 7
            && ss[6].id == 10 && (m.data != [] ==> ss[7].id == 11)
    ensures DataBytes(Data(1024, d)) == [0x00, 0x41, 0x80, 0x08, 0x0b] + EncodeU(|d|) + d
  {
    assert EncodeS(8) == [8];
    assert EncodeS(1024) == [0x80] + EncodeS(8);
  }

  /** The emitted instructions as sections 5.4.1 to 5.4.8 of the WebAssembly Core Specification number them. */
  lemma {:induction false} PlainBytes(x: Byte, v: int)
    requires x < 128 && -64 <= v < 64
    ensures W.EncodeInstr(W.Const(v)) == [0x41, v % 128]
    ensures W.EncodeInstr(W.Call(x)) == [0x10, x] && W.EncodeInstr(W.Br(x)) == [0x0c, x]
            && W.EncodeInstr(W.BrIf(x)) == [0x0d, x]
    ensures W.EncodeInstr(W.LocalGet(x)) == [0x20, x] && W.EncodeInstr(W.LocalSet(x)) == [0x21, x]
    ensures W.EncodeInstr(W.GlobalGet(x)) == [0x23, x] && W.EncodeInstr(W.GlobalSet(x)) == [0x24, x]
  {
    hide W.Encode;
    assert EncodeU(x) == [x] && EncodeS(v) == [v % 128];
  }

  lemma {:induction false} MemoryBytes()
    ensures W.EncodeInstr(W.Return) == [0x0f] && W.EncodeInstr(W.Drop) == [0x1a] && W.EncodeInstr(W.Eqz) == [0x45]
    ensures W.EncodeInstr(W.I32Load) == [0x28, 2, 0] && W.EncodeInstr(W.I32Load8U) == [0x2d, 0, 0]
    ensures W.EncodeInstr(W.I32Store) == [0x36, 2, 0] && W.EncodeInstr(W.I32Store8) == [0x3a, 0, 0]
  {
    hide W.Encode;
  }

  lemma {:induction false} ControlBytes(body: seq<W.Instr>, els: seq<W.Instr>)
    ensures W.EncodeInstr(W.Block(body)) == [0x02, 0x40] + W.Encode(body) + [0x0b]
    ensures W.EncodeInstr(W.Loop(body)) == [0x03, 0x40] + W.Encode(body) + [0x0b]
    ensures W.EncodeInstr(W.IfThen(body)) == [0x04, 0x40] + W.Encode(body) + [0x0b]
    ensures W.EncodeInstr(W.IfElse(body, els)) == [0x04, 0x40] + W.Encode(body) + [0x05] + W.Encode(els) + [0x0b]
  {
    hide W.Encode;
  }

  lemma {:induction false} NumberBytes()
    ensures forall op :: W.EncodeInstr(W.Num(op)) == [W.Opcode(op)]
    ensures [W.Opcode(W.I32Eq), W.Opcode(W.I32Ne), W.Opcode(W.I32LtS), W.Opcode(W.I32GtS)] == [0x46, 0x47, 0x48, 0x4a]
    ensures [W.Opcode(W.I32LeS), W.Opcode(W.I32GeS), W.Opcode(W.I32And), W.Opcode(W.I32Or)] == [0x4c, 0x4e, 0x71, 0x72]
    ensures [W.Opcode(W.I32Add), W.Opcode(W.I32Sub), W.Opcode(W.I32Mul)] == [0x6a, 0x6b, 0x6c]
    ensures [W.Opcode(W.I32DivS), W.Opcode(W.I32RemS)] == [0x6d, 0x6f]
  {
  }

  // ----- the smallest program -----

  /** `int main() { return 7; }` */
  const SMALLEST := Func("main", [], [CcAst.Return(Some(Int(7)))])

  lemma {:induction false} ConcatOne(a: seq<Byte>)
    ensures Concat([a]) == a
  {
    assert [a][1..] == [];
    assert a + [] == a;
  }

  lemma {:induction false} VecOne<T>(a: T, enc: T -> seq<Byte>)
    ensures VecOf([a], enc) == [1] + enc(a)
  {
    ConcatOne(enc(a));
    assert Items([a], enc) == [enc(a)];
  }

  lemma {:induction false} VecTwo<T>(a: T, b: T, enc: T -> seq<Byte>)
    ensures VecOf([a, b], enc) == [2] + (enc(a) + enc(b))
  {
    ConcatOne(enc(b));
    assert [enc(a), enc(b)][1..] == [enc(b)];
    assert Items([a, b], enc) == [enc(a), enc(b)];
  }

  lemma {:induction false} VecThree<T>(a: T, b: T, c: T, enc: T -> seq<Byte>)
    ensures VecOf([a, b, c], enc) == [3] + (enc(a) + (enc(b) + enc(c)))
  {
    ConcatOne(enc(c));
    assert [enc(b), enc(c)][1..] == [enc(c)];
    assert Concat([enc(b), enc(c)]) == enc(b) + Concat([enc(c)]);
    assert [enc(a), enc(b), enc(c)][1..] == [enc(b), enc(c)];
    assert Items([a, b, c], enc) == [enc(a), enc(b), enc(c)];
  }

  lemma {:induction false} SmallestTypes()
    ensures VecOf([FuncType(2, 0), FuncType(1, 0), FuncType(0, 1)], TypeBytes) ==
            [3] + ([0x60, 2, 0x7f, 0x7f, 0] + ([0x60, 1, 0x7f, 0] + [0x60, 0, 1, 0x7f]))
  {
    VecThree(FuncType(2, 0), FuncType(1, 0), FuncType(0, 1), TypeBytes);
    assert I32s(2) == [0x7f, 0x7f] && I32s(1) == [0x7f] && I32s(0) == [];
    assert TypeBytes(FuncType(2, 0)) == [0x60, 2, 0x7f, 0x7f, 0];
    assert TypeBytes(FuncType(1, 0)) == [0x60, 1, 0x7f, 0];
    assert TypeBytes(FuncType(0, 1)) == [0x60, 0, 1, 0x7f];
  }

  /** `env`, `veil_log`; `env`, `veil_print_int`. */
  lemma {:induction false} ImportBody()
    ensures VecOf(IMPORTS, ImportBytes) ==
            [2] + ([3, 101, 110, 118, 8, 118, 101, 105, 108, 95, 108, 111, 103, 0, 0]
                   + [3, 101, 110, 118, 14, 118, 101, 105, 108, 95, 112, 114, 105, 110, 116, 95, 105, 110, 116, 0, 1])
  {
    hide VecOf, ImportBytes;
    VecTwo(Import(ENV_NAME, LOG_NAME, 0, 0), Import(ENV_NAME, PRINT_INT_NAME, 0, 1), ImportBytes);
    LogImport();
    PrintIntImport();
  }

  lemma {:induction false} LogImport()
    ensures ImportBytes(Import(ENV_NAME, LOG_NAME, 0, 0)) ==
            [3, 101, 110, 118, 8, 118, 101, 105, 108, 95, 108, 111, 103, 0, 0]
  {
  }

  lemma {:induction false} PrintIntImport()
    ensures ImportBytes(Import(ENV_NAME, PRINT_INT_NAME, 0, 1)) ==
            [3, 101, 110, 118, 14, 118, 101, 105, 108, 95, 112, 114, 105, 110, 116, 95, 105, 110, 116, 0, 1]
  {
  }

  lemma {:induction false} SmallestMiddle()
    ensures VecOf<nat>([2], UBytes) == [1, 2] && VecOf<nat>([PAGES], LimitsBytes) == [1, 0, 16]
    ensures VecOf([HEAP_BASE], GlobalBytes) == [1, 0x7f, 1, 0x41, 0x80, 0x80, 2, 0x0b]
  {
    VecOne<nat>(2, UBytes);
    VecOne<nat>(PAGES, LimitsBytes);
    VecOne(HEAP_BASE, GlobalBytes);
    assert EncodeS(2) == [2];
    assert EncodeS(256) == [0x80] + EncodeS(2);
    assert EncodeS(32768) == [0x80] + EncodeS(256);
  }

  lemma {:induction false} SmallestExports()
    ensures VecOf([Export(NameBytes("main"), 0, 2), Export(START_NAME, 0, 2), Export(MEMORY_NAME, 2, 0)], ExportBytes)
            == [3] + ([4, 109, 97, 105, 110, 0, 2]
                   + ([6, 95, 115, 116, 97, 114, 116, 0, 2] + [6, 109, 101, 109, 111, 114, 121, 2, 0]))
  {
    hide VecOf;
    VecThree(Export(NameBytes("main"), 0, 2), Export(START_NAME, 0, 2), Export(MEMORY_NAME, 2, 0), ExportBytes);
    assert NameBytes("main") == [109, 97, 105, 110];
    assert ExportBytes(Export(NameBytes("main"), 0, 2)) == [4, 109, 97, 105, 110, 0, 2];
    assert ExportBytes(Export(START_NAME, 0, 2)) == [6, 95, 115, 116, 97, 114, 116, 0, 2];
    assert ExportBytes(Export(MEMORY_NAME, 2, 0)) == [6, 109, 101, 109, 111, 114, 121, 2, 0];
  }

  /** `i32.const 7`, `return`, and the zero every function ends with. */
  lemma {:induction false} SmallestCode(g: Globals)
    ensures FuncCode(SMALLEST, g) == W.Code(0, 0, [W.Const(7), W.Return, W.Const(0)])
    ensures VecOf([(0, [W.Const(7), W.Return, W.Const(0)])], EntryBytes) == [1, 7, 0, 0x41, 7, 0x0f, 0x41, 0, 0x0b]
  {
    var body := SMALLEST.body;
    assert body[1..] == [];
    assert StmtsCode([], [], g) == [];
    assert StmtsCode(body, [], g) == StmtCode(body[0], [], g) + StmtsCode(body[1..], [], g);
    assert AllocOf(SMALLEST) == Alloc([], 0);
    var code := [W.Const(7), W.Return, W.Const(0)];
    VecOne((0, code), EntryBytes);
    assert code[1..] == [W.Return, W.Const(0)] && code[1..][1..] == [W.Const(0)] && [W.Const(0)][1..] == [];
    assert W.Encode([W.Const(0)]) == [0x41, 0];
    assert W.Encode([W.Return, W.Const(0)]) == [0x0f] + [0x41, 0];
    assert W.Encode(code) == [0x41, 7] + [0x0f, 0x41, 0];
    assert CodeBytes(W.Code(0, 0, code)) == [0, 0x41, 7, 0x0f, 0x41, 0, 0x0b];
  }

  lemma {:induction false} SmallestImage(g: Globals)
    requires g == Globals(FuncTable([SMALLEST]), OffsetsOf([]))
    ensures ImageOf([SMALLEST], g, []) ==
            Loaded([FuncType(2, 0), FuncType(1, 0), FuncType(0, 1)], IMPORTS, [2], [PAGES], [HEAP_BASE],
                   [Export(NameBytes("main"), 0, 2), Export(START_NAME, 0, 2), Export(MEMORY_NAME, 2, 0)],
                   [(0, [W.Const(7), W.Return, W.Const(0)])], [])
  {
    SmallestCode(g);
    var fs := [SMALLEST];
    assert fs[..0] == [];
    assert MaxParams(fs[..0]) == 0;
    assert MaxParams(fs) == 0;
    assert Types(0) == [FuncType(2, 0), FuncType(1, 0), FuncType(0, 1)] by {
      assert Arities(1) == Arities(0) + [FuncType(0, 1)];
    }
    assert FuncTable(fs[..0]) == map[];
    assert FuncTable(fs) == map["main" := (2, 0)];
    assert FuncAt(g, "main") == 2;
  }

  lemma {:induction false} SectionsCons(s: Section, n: nat, rest: seq<Section>)
    requires |s.body| == n < 128
    ensures EncodeSections([s] + rest) == [s.id, n] + s.body + EncodeSections(rest)
  {
    assert ([s] + rest)[1..] == rest;
    assert [s.id] + EncodeU(n) == [s.id, n];
  }

  /** The module of the smallest program, byte for byte. */
  lemma {:induction false} SmallestModule()
    ensures var g := Globals(FuncTable([SMALLEST]), OffsetsOf([]));
            HEADER + EncodeSections(SectionsOf(ImageOf([SMALLEST], g, DataOf([])))) ==
            [0x00, 0x61, 0x73, 0x6d, 1, 0, 0, 0] + (
            [1, 14] + ([3] + ([0x60, 2, 0x7f, 0x7f, 0] + ([0x60, 1, 0x7f, 0] + [0x60, 0, 1, 0x7f]))) + (
            [2, 37] + ([2] + ([3, 101, 110, 118, 8, 118, 101, 105, 108, 95, 108, 111, 103, 0, 0]
              + [3, 101, 110, 118, 14, 118, 101, 105, 108, 95, 112, 114, 105, 110, 116, 95, 105, 110, 116, 0, 1])) + (
            [3, 2] + [1, 2] + (
            [5, 3] + [1, 0, 16] + (
            [6, 8] + [1, 0x7f, 1, 0x41, 0x80, 0x80, 2, 0x0b] + (
            [7, 26] + ([3] + ([4, 109, 97, 105, 110, 0, 2]
                   + ([6, 95, 115, 116, 97, 114, 116, 0, 2] + [6, 109, 101, 109, 111, 114, 121, 2, 0]))) + (
            [10, 9] + [1, 7, 0, 0x41, 7, 0x0f, 0x41, 0, 0x0b])))))))
  {
    hide ImageOf, VecOf, FuncTable, NameBytes, EncodeSections;
    var g := Globals(FuncTable([SMALLEST]), OffsetsOf([]));
    SmallestImage(g);
    SmallestTypes();
    ImportBody();
    SmallestMiddle();
    SmallestExports();
    SmallestCode(g);
    var m := ImageOf([SMALLEST], g, DataOf([]));
    var ss := SectionsOf(m);
    var s6, s5, s4, s3, s2, s1 := ss[6..], ss[5..], ss[4..], ss[3..], ss[2..], ss[1..];
    assert s6 == [ss[6]] + [] && s5 == [ss[5]] + s6 && s4 == [ss[4]] + s5 && s3 == [ss[3]] + s4;
    assert s2 == [ss[2]] + s3 && s1 == [ss[1]] + s2 && ss == [ss[0]] + s1;
    SectionsCons(ss[6], 9, []);
    SectionsCons(ss[5], 26, s6);
    SectionsCons(ss[4], 8, s5);
    SectionsCons(ss[3], 3, s4);
    SectionsCons(ss[2], 2, s3);
    SectionsCons(ss[1], 37, s2);
    SectionsCons(ss[0], 14, s1);
    NoSections();
    assert EncodeSections(s6) == [10, 9] + [1, 7, 0, 0x41, 7, 0x0f, 0x41, 0, 0x0b];
  }

  lemma {:induction false} NoSections()
    ensures EncodeSections([]) == []
  {
  }
}
