# Veil OS: verified models of its algorithmic cores

Veil OS is a small operating system written in Rust, with a companion site written in Python.
This project models eight of its algorithmic cores in Dafny and proves what they promise: a
C-subset compiler that emits WebAssembly, a FAT16 driver, a GIF LZW encoder, three browser
algorithms, a frame allocator, a device-tree walker, two raster loops and an editor's undo
history. `dafny verify dfyconfig.toml` checks everything.

Code that the original writes as functions over trees is functions here. Code that changes
things step by step is methods with loops and classes with fields; each such method is proved
equal to a function of its input or of the old state, and the theorems are about that function.

**The compiler** (`Leb128`, `Int32`, `SortedTable`, `Wasm`, `WasmDecode`, and the modules that
start with `Cc`). `CcSource` is a big-step semantics of the source with the compiler's own
choices: `&&` and `||` are bitwise and evaluate both sides, pointer addition is not scaled,
variables are hoisted to the function. `Wasm` is a stack machine for the emitted opcodes
(section 4.4 of the WebAssembly Core Specification), `CcCode` the code each tree gets, and
`CcGen` the class whose methods push the bytes of exactly that code. `CcCorrect` relates the two
semantics; `CcCompile` joins that with encoding, section framing and a module reader, so that its
main theorem starts from the bytes. Fuel bounds both semantics alike; `CcFuel` removes it.
`CcGrammar` is the grammar as functions on token lists, `CcParser` the parser class, `CcPrinter`
a printer and the round trips for expressions, `CcProgramPrinter` those for whole programs. The
modules that start with `CcSpelling` are about every other way to write a program: trees that keep
what the parser throws away, and the proof that a token list parses if and only if it spells one.
`Int32Laws` says what the operations on words mean, `CcLaws` how loops unroll, `CcElements` where the elements of arrays are
and what a store leaves of them, `CcPrelude` what programs print, and `CcHost` what a host finds in
the module.
`CcHeap` collects the blocks of every run of the bump heap, and `CcMemory` puts them next to the
string literals. `CcValues` says when the emitted code leaves the operand stack balanced,
`WasmValid` is a validator for modules of that kind, and `CcValid` says which programs pass it.

**The FAT16 driver** (modules that start with `Fat`). `FatVolume` holds the operations on a
table, a directory and clusters, `FatImage` says where those lie on the disk, and `FatDriver` is
the class that reads and writes sectors. A disk may end before its table does, as most do, since
tables fill whole sectors. `FatTheorems`, `FatConservation`, `FatFailures`, `FatRuns` and
`FatSpace` prove what single calls, failing calls and whole runs keep, `FatCounter` what the
16-bit counter of the allocation loop does, and `FatExamples` shows volumes on which a call does
not do what its caller expects; by `FatFormat` every volume lies on some disk. Names are UTF-8
(`Utf8`). `FatBytes` says where everything is in the bytes of the disk, and `FatSpelling` which
names are the same file.

**The GIF encoder** (`BitStream`, `GifLzw`) against a decoder in the manner of Appendix F of the
GIF89a specification. **The device tree** (`DeviceTree`, `DeviceTreeFlat`, `DeviceTreeWalk`)
against trees flattened as in section 5.4 of the Devicetree Specification. **Frames**
(`BitWords`, `Frames`, `FrameRuns`), **raster loops** (`Raster`), **browser** (`Hexadecimal`,
`Chunked`, `ChunkedSizes`, `ChunkedCoding`, `ChunkedExamples`, `FlexRow`, `PageBand`) and **editor**
(`EditorText`, `EditorMeaning`, `Editor`).

Where the code and a promise part, the code is modelled and the exact condition is proved:

- An overwrite that finds the table full has already freed the old chain: the volume stays well
  formed if and only if the old file had no clusters (`FatFailures.DiskFullExactly`). The
  next save can then take a cluster that the old file still reads
  (`FatExamples.OverwrittenFileReadsAnother`).
- The allocation loop counts table entries, not the clusters of the disk. A write that gets a
  cluster past the disk's end fails after its chain is linked, and an overwrite that does leaves
  the volume malformed (`FatFailures.PastEndExactly`, `FatExamples.PastEndOverwrites`).
- A full root directory is noticed only after the chain is written, too. The clusters are lost
  (`FatFailures.DirectoryFull`, `FatExamples.FullDirectoryLosesCluster`), and no later call gives
  them back (`FatSpace.RunConserves`).
- On tables of 256 sectors and more the loop's 16-bit counter runs over when there are too few
  free entries: it panics, never ends, or takes a cluster twice (`FatCounter.WideTable`).
- A name whose first byte is 0x00 or 0xE5 is accepted and written into a slot that then reads as
  vacant: the file is not found (`FatTheorems.ReadBackExactly`) and its clusters are nobody's
  (`FatConservation.WriteLeaks`). With 0x00 the entry is also an end mark, and every file behind
  it is gone (`FatTheorems.WriteReads`, `FatExamples.HiddenNameHidesFiles`).
- Some listed names do not open the file they are shown for (`FatNames.ListedNameOpens`,
  `FatExamples.ListedNameOfAnother`).
- The GIF decoder may have widened its codes before the end code is read
  (`GifLzw.RoundTrip`, `GifLzw.EndCodeMissed`).
- A chunk size near 2^64 makes the sum of offset and size wrap around. A reader that stops at a
  complete body is right to if and only if no size line met does that (`Chunked.EarlyStopSafe`). A
  body of 18 bytes makes the loop run for ever, one of 20 counts as complete and makes the decoder
  panic (`ChunkedExamples.EndlessBody`, `ChunkedExamples.JumpsBackPanics`).
- A chunked body cut inside a size line can make the decoder slice past its end
  (`ChunkedCoding.CutInLine`, `ChunkedExamples.CutPanics`).
- A size line with white space between the size and an extension, which section 7.1.1 of RFC 9112
  tells recipients to accept, or with an extension that is not UTF-8, is not read: such a body is
  never complete, and nothing behind the line is decoded (`ChunkedCoding.ReadableExactly`,
  `ChunkedCoding.Decodes`).
- `malloc` whose size expression itself allocates gives overlapping blocks
  (`CcHeap.BlocksSeparated`, `CcHeap.NestedMallocOverlaps`); a check on the program's text rules
  it out (`CcHeap.FlatProgramsSeparate`).
- A built-in without a value, used as a value, leaves the operand stack one short, and so does
  `print_str` for every parameter beyond the first that a program's own `strlen` has: its arity is
  never looked at (`CcValues.BalancedExactly`, `CcValues.StrlenArityIgnored`).
- Literals may run into the heap: they stay clear of it if and only if the data segment ends at or
  below 32768, which nothing checks (`CcMemory.LiteralsClear`).
- A function called `memory` or `_start`, or one defined twice, compiles to a module that is not
  valid, as two exports have one name (`CcValid.ValidExactly`, `CcValid.MemoryFunction`).
- A reserved range that ends at or below the memory's start reserves frame 0; the frames used are
  those touched if and only if there is none such, or frame 0 is touched anyway
  (`Frames.ReservesExactly`, `Frames.BelowReservesFirst`). In a memory of less than one frame any
  range makes the set-up panic, or leaves a counter near 2^64 (`Frames.Allocator.Init`). Asked for
  no frames, the allocator fails if all are free (`Frames.Allocator.AllocContiguous`).
- With less heap than a full band needs, the last rows in view can be missing, and every paint
  repaints; a view that reaches below the document is repainted every time, too
  (`PageBand.RepaintCovers`, `PageBand.RepaintAgain`, `PageBand.ShortBand`).
- Typing a bracket at the size limit inserts the closing one only (`Editor.TypingFits`,
  `Editor.FullTextGrows`), and a box of width zero can lie under the next one
  (`FlexRow.BoxesApart`, `FlexRow.EmptyBoxesCoincide`).

## Model

| member | source | states |
|---|---|---|
| `Leb128.UnsignedRoundTrip` | src/cc.rs:696-707 | decoding the unsigned LEB128 bytes of any number gives it back and consumes exactly those bytes |
| `Leb128.SignedRoundTrip` | src/cc.rs:709-719 | the same for signed LEB128 and any integer |
| `Leb128.SectionsRoundTrip` | src/cc.rs:725-730 | a list of framed sections is recovered from its concatenation |
| `Leb128.ByteVec.Uleb` | src/cc.rs:696-707 | the loop appends exactly the unsigned encoding |
| `Leb128.ByteVec.Sleb` | src/cc.rs:709-719 | the loop appends exactly the signed encoding |
| `Leb128.ByteVec.PushSection` | src/cc.rs:725-730 | the buffer holds the sections so far and the new one, framed |
| `Leb128.StandardExamples` | src/cc.rs:696-719 | the bytes that the standard gives for some numbers |
| `Int32Laws.SignedExactly` | src/cc.rs:1216-1231 | every word is one signed value from -2^31 to 2^31 - 1, and wrapping keeps a number up to a multiple of 2^32 |
| `Int32Laws.TruncDivExactly` | src/cc.rs:1216-1231 | a number is the quotient if and only if what remains is smaller than the divisor and has the sign of the dividend |
| `Int32Laws.AndBits` | src/cc.rs:1228-1229 | `&&` on words is bit by bit |
| `Int32Laws.OrBits` | src/cc.rs:1228-1229 | and so is double bar |
| `Int32.MaskLowTwoBits` | src/cc.rs:1000-1001 | the emitted mask clears exactly the two low bits |
| `SortedTable.GetPut` | src/cc.rs:752 | lookup after insertion, for every key, in a table kept sorted by key |
| `SortedTable.PutSorted` | src/cc.rs:752 | insertion keeps the table sorted and without duplicate keys |
| `CcAst.SymbolsMeaning` | src/cc.rs:1005-1028 | a name means the last parameter of that name, or without one its first declaration anywhere in the body |
| `CcParser.Parser.ParseProgram` | src/cc.rs:333-340 | on any token list with one final end marker the parser stops, never reads past the marker, and gives exactly what the grammar gives, or an error exactly when the grammar has none |
| `CcParser.Parser.ParseStmt` | src/cc.rs:439-513 | result and position after a statement agree with the grammar, errors included |
| `CcParser.Parser.ParseExpr` | src/cc.rs:561-563 | result and position after an expression agree with the grammar, errors included |
| `CcParser.Parser.ParsePrimary` | src/cc.rs:662-690 | the same for a primary expression, calls and parentheses included |
| `CcParser.Parser.ParseFunc` | src/cc.rs:341-365 | the same for a function |
| `CcSpellingReads.ExprRead` | src/cc.rs:561-690 | every spelling of an expression, with any parentheses, `sizeof` of types and expressions, and commas or none between arguments, is read as what it means wherever it stands, unless the token behind it continues it |
| `CcSpellingPrograms.StmtRead` | src/cc.rs:439-557 | every spelling of a statement, `++` and `+=`, qualifiers and single statements as blocks included, is read as what it means, unless an `else` behind it belongs to it |
| `CcSpellingExactly.ParsesExactly` | src/cc.rs:333-690 | a token list parses to a program if and only if it is one of the spellings of that program |
| `CcSpellingPlain.ReadAlike` | src/cc.rs:515-557 | a program and the one with `x += 1` wherever it has `x++`, and blocks wherever it has single statements, parse to the same |
| `CcSpellingPlain.IncrementIsAddOne` | src/cc.rs:537-549 | an increment, as a statement and in both clauses of a `for`, is the assignment of `x + 1` |
| `CcSpellingPlain.SizeofMeans` | src/cc.rs:634-646 | `sizeof` is one for `char` and four for all else |
| `CcSpellingPlain.CommasIgnored` | src/cc.rs:672-681 | arguments mean the same with commas and without |
| `CcPrinter.FullRoundTrip` | src/cc.rs:561-689 | inside any token list, printing an expression at any precedence level and parsing there gives the same tree and stops right behind it |
| `CcPrinter.PrintParse` | src/cc.rs:561-689 | printing a tree and parsing the tokens gives the same tree: precedence and left association |
| `CcPrinter.PrintableExactly` | src/cc.rs:561-689 | a tree is the parse of some token list if and only if it is printable, so the round trip covers all trees the grammar can produce |
| `CcProgramPrinter.StmtRoundTrip` | src/cc.rs:439-513 | a printed statement, nested blocks included, is parsed back and the parser stops right behind it, whatever follows |
| `CcProgramPrinter.FuncRoundTrip` | src/cc.rs:341-365 | the same for a function |
| `CcProgramPrinter.ProgramRoundTrip` | src/cc.rs:333-340 | printing a program and parsing the tokens gives the same program |
| `CcProgramPrinter.PrintableProgramExactly` | src/cc.rs:333-557 | a program is the parse of some token list if and only if it is printable, so the round trip covers everything the parser can produce |
| `CcGen.Gen.Intern` | src/cc.rs:1318-1329 | a literal keeps the offset it first got; a new one, and nothing else, is appended with its terminator |
| `CcGen.LiteralAt` | src/cc.rs:1318-1329 | at a literal's offset the data holds its bytes and a zero byte |
| `CcGen.Gen.BumpAlloc` | src/cc.rs:993-1003 | the bytes pushed are those of the bump allocation |
| `CcGen.Gen.GenExpr` | src/cc.rs:1171-1314 | it succeeds exactly on accepted expressions, the bytes pushed are those of the expression's code under the final literal offsets, and it says whether a value is left |
| `CcGen.Gen.GenAddr` | src/cc.rs:1048-1069 | the same for the address of an element, with the element kind |
| `CcGen.Gen.GenCall` | src/cc.rs:1235-1312 | the same for calls and all built-ins |
| `CcGen.Gen.GenStmt` | src/cc.rs:1071-1168 | the same for statements, nested loops and branches included |
| `CcGen.Gen.GenFunc` | src/cc.rs:951-989 | the same for a function with its prologue and local declarations |
| `CcGen.CollectLocals` | src/cc.rs:1005-1028 | the traversal gives the slots of the specification's hoisting |
| `CcGen.ExprStable` | src/cc.rs:1318-1329 | interning more literals later does not change code already emitted |
| `WasmDecode.InstrRoundTrip` | src/cc.rs:1071-1314 | an instruction, nested blocks included, is read back from its bytes |
| `WasmDecode.SeqRoundTrip` | src/cc.rs:1071-1314 | an instruction sequence is read back up to its end or else byte |
| `CcCorrect.OperatorSim` | src/cc.rs:1216-1231 | each opcode computes what the source operator means, division traps included |
| `CcCorrect.ExprSim` | src/cc.rs:1171-1314 | running an expression's code pushes exactly the source value, or traps when the source does, with the same memory, heap and output, and leaves the stack below alone |
| `CcCorrect.AddrSim` | src/cc.rs:1048-1069 | the same for addresses: the index is scaled by the element size |
| `CcCorrect.CallSim` | src/cc.rs:1235-1312 | the same for calls |
| `CcCorrect.MallocSim` | src/cc.rs:1259-1273 | `malloc` returns the old heap pointer and rounds the new one up to four |
| `CcCorrect.PrintStrSim` | src/cc.rs:1284-1298 | `print_str` evaluates its argument twice and logs what `strlen` says |
| `CcCorrect.StmtSim` | src/cc.rs:1071-1168 | running a statement's code keeps locals, memory, heap, output and a pending return in step with the source |
| `CcCorrect.WhileSim` | src/cc.rs:1130-1146 | the emitted loop makes the passes of the source loop, for any number of passes, early returns and traps |
| `CcCorrect.ForSim` | src/cc.rs:1147-1165 | the same for `for` |
| `CcCorrect.FuncSim` | src/cc.rs:951-989 | calling a compiled function gives the source function's result, memory, heap and output |
| `CcCorrect.AllocSound` | src/cc.rs:953-960 | slots are distinct, in range, and cover exactly the function's symbols |
| `CcCorrect.PrologueSim` | src/cc.rs:963-972 | the prologue allocates the arrays as the source does, in name order |
| `CcCorrect.FuncTableLookup` | src/cc.rs:806-815 | a name's index is that of the last function of that name, after the two imports |
| `CcElements.ElementAddress` | src/cc.rs:1048-1069 | element i of a char pointer is i bytes behind it, and 4 i bytes behind any other |
| `CcElements.StoreLoad` | src/cc.rs:1086-1102 | a store to an element is read back there, cut to a byte behind a char pointer, and every other element of the array stays as it was |
| `CcElements.AssignElement` | src/cc.rs:1086-1102 | the same for the statement `x[i] = v;` and the expression `x[j]`, by the kind `x` is declared with |
| `CcElements.PointerSum` | src/cc.rs:1031-1069 | pointer sums are not scaled and reach elements of the pointer's kind, on either side of the sum |
| `CcElements.LiteralElement` | src/cc.rs:1031-1069 | the elements of a literal are its bytes and a zero |
| `CcElements.WordPointers` | src/cc.rs:1031-1045 | what is loaded, counted or returned by a function of the program points to words |
| `CcElements.ArraysClaim` | src/cc.rs:962-972 | an array of n ints claims 4 n bytes of the heap, one of n chars n bytes, rounded up to four |
| `CcElements.ArrayPlaces` | src/cc.rs:962-972 | each array begins where those before it end |
| `CcElements.PairGivesFirst` | src/cc.rs:962-1102 | a program that writes both elements of an array and returns the first |
| `CcPrelude.PrintsLiteral` | src/cc.rs:1237-1248 | `print` logs exactly the bytes of its literal |
| `CcPrelude.PrintsNumber` | src/cc.rs:1249-1257 | `print_int` and `putchar` print the signed value |
| `CcPrelude.StrlenCounts` | src/cc.rs:769 | the prelude's `strlen` gives the length of the text at its argument |
| `CcPrelude.PrintsText` | src/cc.rs:1284-1298 | with it, `print_str` logs exactly the text at an address |
| `CcModule.LoadRoundTrip` | src/cc.rs:823-922 | a module image is recovered from the bytes of its sections |
| `CcCompile.Compile` | src/cc.rs:777-923 | compilation succeeds exactly when there is a `main` and every function is accepted, and the bytes are the header and the sections of the program's image |
| `CcCompile.EndToEnd` | src/cc.rs:777-923 | for every supported program, function, argument list, state and amount of fuel, loading the compiled bytes and calling the function does what the source does |
| `CcCompile.BehaviourPreserved` | src/cc.rs:777-923 | without fuel: the loaded module ends with a result if and only if the source does, and runs forever if and only if the source does |
| `CcCompile.StartIsMain` | src/cc.rs:887-899 | `_start` is exported as the function that calls of `main` reach |
| `CcHost.HostContract` | src/cc.rs:823-920 | what a host finds in every compiled module: the two imports by name and type, 16 pages, a heap from 32768 on, literals from 1024 on, and the exports |
| `CcHost.NamesEncoded` | src/cc.rs:732-735 | the bytes of an exported name are its encoding |
| `CcHost.FreshInstance` | src/cc.rs:868-920 | the memory, the heap pointer and the literals of a fresh instance, byte for byte |
| `CcHost.SmallestModule` | src/cc.rs:777-923 | the module of `int main() { return 7; }`, byte for byte |
| `CcCompile.LiteralInMemory` | src/cc.rs:910-920 | in a fresh instance every literal is in memory at the address its expression evaluates to, with its terminator |
| `CcHost.SectionsInOrder` | src/cc.rs:823-920 | the numbers of the sections, and the head of the data segment |
| `CcLaws.ForIsWhile` | src/cc.rs:1147-1165 | a `for` is its first clause and then the `while` with the step at the end of its body, with the same result, effects and fuel |
| `CcLaws.WhileUnrolls` | src/cc.rs:1130-1146 | while its condition holds, a `while` is its body and itself once more |
| `CcMemory.LiteralsClear` | src/cc.rs:878-920 | all literals end at or below the heap base if and only if the data segment does |
| `CcMemory.BlocksMissLiterals` | src/cc.rs:878-920 | then no block of any run of a fresh instance overlaps a literal, in programs that pass the check below |
| `CcFuel.FuncMore` | src/cc.rs:951-989 | a run that ends with some fuel ends the same way with more |
| `CcFuel.OneBehaviour` | src/cc.rs:951-989 | every source call either ends, with exactly one result, or never ends |
| `CcValues.CompiledIsSupported` | src/cc.rs:777-923 | a compiled program is one the theorem covers if and only if a syntactic check passes: no built-in without a value used as one, and literals in range |
| `CcValues.ExprOkExactly` | src/cc.rs:1237-1257 | the same check decides it for an expression |
| `CcValues.DeltaIsEffect` | src/cc.rs:1171-1314 | what an instruction is counted to push is what running it does to the height of the stack |
| `CcValues.NetPushExpr` | src/cc.rs:1171-1314 | the code of every accepted expression pushes what the generator says, less one for each use of a built-in without a value as one, and less the extra parameters of `strlen` for each `print_str` |
| `CcValues.BalancedExactly` | src/cc.rs:1171-1314 | so it pushes what the generator says if and only if that deficit is zero; when `strlen` takes one argument, if and only if no built-in without a value is used as one |
| `CcValues.StrlenArityIgnored` | src/cc.rs:1284-1298 | `print_str(0)` is accepted with a `strlen` of any arity, and is balanced for one parameter only |
| `CcValues.VoidValueSticks` | src/cc.rs:1249-1257 | `x = print_int(1);` is accepted and its code gets stuck |
| `CcValid.ExprChecks` | src/cc.rs:1171-1314 | the code of every supported expression passes validation on any operand stack and pushes what the generator says |
| `CcValid.StmtChecks` | src/cc.rs:1071-1168 | the code of every supported statement passes validation and leaves its block's stack empty, dead code behind a return included |
| `CcValid.ValidExactly` | src/cc.rs:823-922 | the module of a supported program is valid if and only if no function is defined twice and none is called `_start` or `memory` |
| `CcValid.MemoryFunction` | src/cc.rs:887-899 | a supported program whose module is not valid |
| `CcValid.VoidValueInvalid` | src/cc.rs:1249-1257 | no function body that begins with `x = print_int(1);` passes validation |
| `CcHeap.BlocksSeparated` | src/cc.rs:962-972 | over every run, recursion included, blocks in range are aligned, ascending and pairwise disjoint if and only if no `malloc` has a size expression that allocates |
| `CcHeap.FlatProgramsSeparate` | src/cc.rs:962-972 | and they are, in every run, of every program in which no `malloc` size contains a `malloc` or calls a function that may claim heap space |
| `CcHeap.NestedMallocOverlaps` | src/cc.rs:1259-1273 | `malloc(malloc(4))` gives overlapping blocks |
| `FatSpelling.EntryName` | src/fs.rs:91-107 | the eleven bytes of a name, byte for byte: no small letter is among them, nothing but small letters is changed, and spaces fill both fields; none if and only if a part does not fit |
| `FatSpelling.SameEntryExactly` | src/fs.rs:91-107 | two names have the same entry name if and only if their parts differ in the case of letters and in spaces at the end only |
| `FatSpelling.CaseIgnored` | src/fs.rs:91-119 | names that differ in the case of ASCII letters have the same key |
| `FatSpelling.SameFile` | src/fs.rs:181-287 | reading, writing and deleting do the same under either spelling |
| `FatSpelling.OtherSpelling` | src/fs.rs:181-266 | a file written under one spelling is read, and replaced, under the other |
| `FatNames.ListedNameOpens` | src/fs.rs:91-119 | a listed name opens the file it is shown for if and only if it splits back into the fields it was joined from, for all names in UTF-8 |
| `FatExamples.ListedNameOfAnother` | src/fs.rs:91-119 | the file saved as `A..` is listed as `A.`, which opens `A` |
| `FatVolume.ClustersFound` | src/fs.rs:219-230 | the scan finds free clusters in ascending order and misses none while it needs more |
| `FatChains.FreesChain` | src/fs.rs:211-217 | freeing a file's chain zeroes exactly its clusters |
| `FatChains.Links` | src/fs.rs:235-238 | linking makes exactly the allocated chain and changes no other entry |
| `FatChains.Fills` | src/fs.rs:240-248 | each cluster of the chain gets its chunk of the data, no other cluster changes |
| `FatChains.ReadsChain` | src/fs.rs:188-196 | reading follows the chain, cluster by cluster |
| `FatChains.FindsEnough` | src/fs.rs:221-230 | the scan finds as many clusters as are needed or as are free |
| `FatImage.ViewPutFat` | src/fs.rs:121-137 | writing an entry of a copy of the table changes nothing else on the volume |
| `FatImage.ViewPutDir` | src/fs.rs:255-264 | writing a directory entry changes nothing else |
| `FatImage.ViewPutData` | src/fs.rs:139-141 | writing a cluster changes nothing else |
| `FatBytes.TableBytes` | src/fs.rs:121-137 | where an entry of the table is on the disk, in bytes |
| `FatBytes.DirectoryBytes` | src/fs.rs:144-155 | where a directory entry is |
| `FatBytes.ClusterOnDisk` | src/fs.rs:139-141 | where a cluster is |
| `FatBytes.EntryFields` | src/fs.rs:155-170 | the fields of a directory entry, and which entries are files, bit by bit |
| `FatBytes.NewEntryBytes` | src/fs.rs:259-263 | a new entry, byte for byte |
| `FatBytes.DeletedByte` | src/fs.rs:284 | a deleted one has 0xe5 for its first byte and is otherwise as it was |
| `FatBytes.ListedAs` | src/fs.rs:110-119 | a listed name is the two fields without the spaces that fill them, and a dot if there is an extension |
| `FatBytes.FirstFound` | src/fs.rs:186-187 | the file found is the first one listed under the name |
| `Utf8.CharsExactly` | src/fs.rs:110-112 | a string is decoded if and only if it is the encoding of some characters, and to these (section 3 of RFC 3629) |
| `FatFormat.Realised` | src/fs.rs:22-31 | every volume of a layout's shape is what some disk holds, with equal copies of the table and any end of the disk |
| `FatDriver.Driver.ReadFat` | src/fs.rs:121-126 | the entry of the first copy is read from its sector |
| `FatDriver.Driver.WriteFat` | src/fs.rs:128-137 | every copy gets the entry, and equal copies stay equal |
| `FatDriver.Driver.FreeOld` | src/fs.rs:211-217 | on every table whose entries are in range, cyclic or cross-linked ones included, the loop ends, because each step zeroes an entry |
| `FatDriver.Driver.FindClusters` | src/fs.rs:219-230 | the loop gives the first free clusters |
| `FatDriver.Driver.LinkClusters` | src/fs.rs:235-238 | the loop writes the links of the chain |
| `FatDriver.Driver.FillClusters` | src/fs.rs:240-248 | the loop writes the data, zero-padded, up to the first cluster the disk does not have, and says whether there was one |
| `FatDriver.Driver.ScanRoot` | src/fs.rs:144-172 | the nested loops list the plain files up to the first slot never used |
| `FatDriver.Driver.FindFreeSlot` | src/fs.rs:289-300 | the first vacant slot |
| `FatDriver.Driver.PutEntry` | src/fs.rs:255-264 | one directory entry is changed inside its sector |
| `FatDriver.Driver.ReadFile` | src/fs.rs:181-200 | reading on the disk is reading on the volume |
| `FatDriver.Driver.WriteFile` | src/fs.rs:203-266 | writing on the disk is writing on the volume, in every failure too, and equal table copies stay equal |
| `FatDriver.Driver.DeleteFile` | src/fs.rs:270-287 | the same for deleting; both leave what every later call needs |
| `FatTheorems.WriteKeeps` | src/fs.rs:203-266 | a successful write keeps the volume well formed (chains in range, acyclic, disjoint and long enough, names unique, nothing behind the directory's end) if and only if it does not put an end mark in front of an entry; an entry that shows reads back |
| `FatTheorems.WriteReads` | src/fs.rs:203-266 | after a successful write every other name reads as before if and only if the new entry is not an end mark in front of a file |
| `FatExamples.HiddenNameHidesFiles` | src/fs.rs:251-264 | volumes of any size on which saving a name of one zero byte succeeds and makes another file disappear |
| `FatExamples.RealDisk` | src/fs.rs:251-264 | one of them on a disk of 104 sectors |
| `FatTheorems.ReadBackExactly` | src/fs.rs:181-266 | after a successful write the name reads back exactly the data if and only if its first byte is not 0x00 or 0xE5 and the data is shorter than 2^32 bytes |
| `FatTheorems.DeleteKeeps` | src/fs.rs:270-287 | a delete succeeds exactly when the name reads, frees exactly that file's clusters and keeps the volume well formed; a failing one changes nothing |
| `FatTheorems.DeleteReads` | src/fs.rs:270-287 | after a delete the name is gone and every other name reads as before |
| `FatConservation.InUseExactly` | src/fs.rs:210-238 | on a volume without leaks the entries in use are exactly the files' clusters |
| `FatConservation.WriteLeaks` | src/fs.rs:203-266 | a successful write on a volume without leaks leaves none if and only if the name's first byte is neither 0x00 nor 0xE5 |
| `FatConservation.DeleteLeaks` | src/fs.rs:270-287 | nor does a delete |
| `FatConservation.WriteThenDelete` | src/fs.rs:203-287 | writing a new name and deleting it restores the whole table if and only if the name's first byte is neither 0x00 nor 0xE5 |
| `FatFailures.WriteSucceedsExactly` | src/fs.rs:203-266 | a write succeeds if and only if the name fits 8.3, the free clusters that the disk has and those of the replaced file suffice, and the name exists or a slot is vacant |
| `FatFailures.DiskFullExactly` | src/fs.rs:210-234 | a full table leaves the volume alone if the name is new; otherwise the volume stays well formed if and only if the old file had no clusters |
| `FatExamples.OverwriteFreesFirst` | src/fs.rs:210-234 | a volume that a full disk leaves malformed |
| `FatExamples.OverwrittenFileReadsAnother` | src/fs.rs:203-266 | on it the next save makes the old file read the new file's bytes |
| `FatFailures.DirectoryFull` | src/fs.rs:251-254 | a full directory leaves a well-formed volume whose new chain is in use and nobody's |
| `FatExamples.FullDirectoryLosesCluster` | src/fs.rs:251-254 | a volume on which that happens: no assignment of clusters to files covers the table afterwards |
| `FatFailures.PastEndExactly` | src/fs.rs:240-248 | a write past the end of the disk leaves the volume well formed if and only if the name had no clusters |
| `FatExamples.PastEndOverwrites` | src/fs.rs:203-266 | a volume that such an overwrite leaves malformed, with the old file's byte replaced |
| `FatFailures.LateFailure` | src/fs.rs:240-254 | in both cases a name without clusters leaves a chain that is in use and nobody's |
| `FatFailures.LateFailureReads` | src/fs.rs:240-254 | and every name still reads as before |
| `FatCounter.NarrowTable` | src/fs.rs:219-230 | on a table of fewer than 2^16 entries the 16-bit loop finds what the scan finds |
| `FatCounter.WideTable` | src/fs.rs:219-230 | on a larger one, if and only if that is enough before the last number; otherwise it panics, or runs for ever, or takes a cluster twice |
| `FatRuns.RunsLikeATable` | src/fs.rs:181-287 | after any run of writes and deletes, failing ones included, that avoids the cases above, every name reads as in a plain table of names to bytes |
| `FatSpace.WriteTight` | src/fs.rs:219-238 | a write keeps every chain exactly as long as its file's size needs, unless the size recorded, cut to 32 bits, needs fewer |
| `FatSpace.FreeSpace` | src/fs.rs:219-238 | on such a volume without leaks the number of free clusters is what the sizes of the files leave |
| `FatSpace.RunConserves` | src/fs.rs:203-287 | a guarded run ends on such a volume if and only if no save failed after writing its chain: a lost cluster is never given back |
| `BitStream.BitWriter.Emit` | scripts/mksite.py:597-604 | the bits written are those before and the code's, low bits first |
| `BitStream.BitWriter.Flush` | scripts/mksite.py:633-635 | the last byte is filled up with zeros |
| `GifLzw.LockStep` | scripts/mksite.py:613-631 | from any point of the encoding, a decoder one entry behind recovers everything still to come: same widths, the code just being defined, and resets at 4096 entries |
| `GifLzw.RoundTrip` | scripts/mksite.py:589-635 | for code sizes 2 to 8 and every non-empty pixel list the decoder recovers exactly the pixels, and it sees the end code unless its width has just grown and no padding follows |
| `GifLzw.EveryStreamFramed` | scripts/mksite.py:594-635 | every stream is whole bytes, begins with the code 2^m in m + 1 bits, and ends with the code 2^m + 1 in at most 12 bits and fewer than eight zeros |
| `GifLzw.LongestMatch` | scripts/mksite.py:613-629 | no code could have stood for one pixel more, and the table is given up only when it is full |
| `GifLzw.OnePixel` | scripts/mksite.py:589-635 | the two bytes of an image of one pixel |
| `BitStream.UnpackUnique` | scripts/mksite.py:597-604 | the bits of a stream determine its bytes |
| `GifLzw.EndCodeMissed` | scripts/mksite.py:631-632 | with 7-bit pixels the ramp from 0 to 126 is such a case |
| `GifLzw.EncodeGif` | scripts/mksite.py:589-635 | the encoder's bytes are those bits, and decoding them gives the pixels |
| `GifLzw.SubBlocksRoundTrip` | scripts/mksite.py:638-646 | the blocks are read back to the data, whatever follows them |
| `GifLzw.SubBlocksSize` | scripts/mksite.py:638-646 | there are as few blocks as can be |
| `GifLzw.EncodeSubBlocks` | scripts/mksite.py:638-646 | the loop makes those blocks |
| `DeviceTree.FindByPropAfter` | src/dtb.rs:122-147 | on any blob, malformed ones included, the loop ends and gives the result of the search function |
| `DeviceTree.GetProp` | src/dtb.rs:161-180 | the same for the property search |
| `DeviceTree.Root` | src/dtb.rs:94-103 | the same for the root node |
| `DeviceTreeWalk.RootFound` | src/dtb.rs:94-103 | on the flattening of any tree the root found is that tree's node, behind the NOP tokens before it |
| `DeviceTree.AlignMasks` | src/dtb.rs:82-86 | stepping to the next word boundary is adding three and clearing the two low bits |
| `DeviceTree.Cells` | src/dtb.rs:22-28 | the big-endian number of the cells, modulo 2^64 |
| `DeviceTree.NameExactly` | src/dtb.rs:69-73 | a name ends before the first zero byte behind its offset, and is empty without one |
| `DeviceTreeFlat.WireFormat` | src/dtb.rs:10-20 | the tokens of a flattened tree, byte for byte |
| `DeviceTreeFlat.ScanTree` | src/dtb.rs:122-147 | through the tokens of a whole tree the search finds the first match at or behind the offset asked for |
| `DeviceTreeWalk.NextTok` | src/dtb.rs:76-91 | every token of a flattened tree is stepped over as a whole |
| `DeviceTreeWalk.Enumerates` | src/dtb.rs:111-157 | on the flattening of any tree, finding and finding again gives exactly the nodes that list the value, once each, in preorder, and then none |
| `DeviceTreeWalk.ReadsOwnProperties` | src/dtb.rs:161-180 | for every node of any flattened tree the property read is the node's own first one of that name, or none |
| `DeviceTreeWalk.PiecesExactly` | src/dtb.rs:136-139 | a value matches exactly when it stands between two boundaries of the data |
| `BitWords.SetBit` | src/frames.rs:29-41 | a bit of a word is set or cleared, all others stay |
| `Frames.NextFitExactly` | src/frames.rs:79-106 | the search succeeds if and only if some run of that many free frames exists, for any cursor |
| `Frames.NextFitLowest` | src/frames.rs:79-106 | the run found is the lowest from the cursor on, and only without one there the lowest of all |
| `Frames.FrameCountExactly` | src/frames.rs:49-51 | all whole frames of 4096 bytes that are in the memory, but no more than 4 GiB have |
| `Frames.Allocator.Mark` | src/frames.rs:29-41 | exactly one frame's bit changes |
| `Frames.Allocator.Init` | src/frames.rs:49-72 | used frames are exactly those that a reserved range touches, and frame 0 for a range that ends below the memory; the counter is the number of clear bits; with no frame at all, what each build does |
| `Frames.ReservesExactly` | src/frames.rs:59-69 | the used frames are exactly the touched ones if and only if no range ends at or below the memory, or frame 0 is touched anyway |
| `Frames.BelowReservesFirst` | src/frames.rs:49-72 | a byte far below the memory is such a range |
| `Frames.Allocator.AllocContiguous` | src/frames.rs:79-106 | the scan gives the lowest free run from the cursor on, or else the lowest of all, marks exactly it, and keeps the counter equal to the number of clear bits; asked for none, it stops behind the next used frame |
| `Frames.Allocator.Free` | src/frames.rs:119-128 | exactly those frames are clear again, and the counter is right if and only if all were in use; a build with assertions stops at one that is not |
| `Frames.MarkUnmark` | src/frames.rs:79-128 | freeing what was just allocated restores the bitmap |
| `FrameRuns.RunsSound` | src/frames.rs:79-128 | after any run of allocations and frees, live blocks are disjoint from each other and from reserved frames, and are all that is in use besides |
| `FrameRuns.BlocksInMemory` | src/frames.rs:49-106 | every byte handed out is in the memory and in no reserved range |
| `FrameRuns.BytesApart` | src/frames.rs:79-106 | no byte is handed out twice |
| `FrameRuns.RunsConserve` | src/frames.rs:79-128 | free frames and live frames together stay constant, and when all is given back the bitmap is as at the start |
| `Raster.Framebuffer.PutPixel` | src/fb.rs:28-32 | exactly one pixel changes, if it is on the screen |
| `Raster.Framebuffer.FillRect` | src/fb.rs:114-126 | exactly the rectangle's pixels on the screen change |
| `Raster.Framebuffer.DrawLine` | src/fb.rs:214-238 | the loop paints exactly the line's points, each given in closed form, and stops |
| `Raster.LineExact` | src/fb.rs:214-238 | each point is within half a step of the true line; the ends are exact and reached only at the first and last point |
| `Raster.LineSteps` | src/fb.rs:214-238 | each point is one step of the longer axis after the one before |
| `Raster.Framebuffer.DrawCircle` | src/fb.rs:241-264 | exactly the pixels within half a pixel of the circle, in their longer direction, are painted, in all octants; for radius zero the centre, below that none |
| `Raster.RingUnique` | src/fb.rs:241-264 | on every row of an octant there is at most one such pixel |
| `Raster.SweepStep` | src/fb.rs:255-262 | one step keeps the error term exact and the point on the ring |
| `PageBand.PaintBand` | src/browser.rs:557-580 | every pixel of the band has the colour of the last rectangle over it in the document |
| `PageBand.TopItem` | src/browser.rs:557-580 | a pixel under a rectangle and under no later one has its colour |
| `PageBand.Page.RepaintBand` | src/browser.rs:524-637 | the band is an image of the document rows from its top on, of the height the heap allows; it fails if and only if the heap has no room for the least height tried |
| `PageBand.Page.EnsureBand` | src/browser.rs:641-661 | nothing changes if the view is inside the band; otherwise the band is repainted around the view, and its top and height are these |
| `PageBand.RepaintCovers` | src/browser.rs:641-661 | after a repaint the rows in view are in the band if and only if they end where it does or before, which is always so at full height |
| `PageBand.Centred` | src/browser.rs:654-657 | between the ends of the document a full band has as many rows above the view as below, or one less |
| `PageBand.RepaintAgain` | src/browser.rs:651-653 | the next paint of the same view repaints if and only if the view ends behind the band, as it always does below the document's end |
| `PageBand.AllocatedFits` | src/browser.rs:541-555 | the height the shrinking loop ends with fits the heap, or is at most 300 and not zero |
| `PageBand.ShortBand` | src/browser.rs:541-660 | with room for 1333 rows, a view whose last 17 rows are not in the band |
| `PageBand.Page.PaintView` | src/browser.rs:4314-4331 | every row of the view shows what the band has of the document, and the background where it has nothing |
| `Chunked.ChunkedComplete` | src/browser.rs:728-749 | any number of passes of the loop gives what as many steps of the walk over size lines give, in 64-bit arithmetic |
| `Chunked.EndsOrLoops` | src/browser.rs:728-749 | the loop ends within one pass more than the body has bytes, or never |
| `Chunked.Dechunk` | src/browser.rs:937-956 | the loop is the decoding walk, with overflow and slices that end before they start as errors |
| `Chunked.EarlyStopSafe` | src/browser.rs:728-749 | a complete body stays so and decodes to the same bytes without a panic, whatever follows, if and only if no size line met makes the sum of offset and size reach 2^64 |
| `Chunked.PanicsExactly` | src/browser.rs:741 | a build that checks for overflow panics on exactly the bodies with such a line, and always ends |
| `Chunked.SameAnswer` | src/browser.rs:728-749 | on all other bodies both builds give the same answer |
| `ChunkedExamples.EndlessBody` | src/browser.rs:741 | on `FFFFFFFFFFFFFFEC` and a line end the loop never ends |
| `ChunkedExamples.JumpsBackPanics` | src/browser.rs:741-951 | `FFFFFFFFFFFFFFFB;0` and a line end counts as complete, and decoding it panics |
| `ChunkedSizes.HexExactly` | src/browser.rs:739 | what is read as a number is what spells it, in digits of either case, leading zeros included |
| `ChunkedSizes.SizeExactly` | src/browser.rs:738-739 | a line is read as a size if and only if it is white space, an optional plus sign, digits that spell it, and white space or a semicolon and anything |
| `ChunkedCoding.ReadableExactly` | src/browser.rs:738-739 | a size line is read if and only if its extension is UTF-8 and it does not have both white space behind the size and an extension |
| `ChunkedCoding.Decodes` | src/browser.rs:937-956 | a body in the coding of section 7.1 of RFC 9112, with white space, extensions and trailers, decodes to the data of the chunks before the first line that is not read, so to all of it if and only if there is none, and is complete if and only if the last line is read, too |
| `ChunkedCoding.BadLineStops` | src/browser.rs:737-744 | from such a line on a body is not complete and nothing is decoded |
| `ChunkedExamples.SpaceEndsBody` | src/browser.rs:738-739 | a body with one space before the semicolon |
| `ChunkedExamples.SmallLetter` | src/browser.rs:739-946 | a body with the size `a` decodes to its ten bytes |
| `ChunkedCoding.CutInData` | src/browser.rs:937-956 | a body cut in a chunk's data is not complete and decodes to what has arrived |
| `ChunkedCoding.CutInLine` | src/browser.rs:942-951 | a body cut in a size line is not complete; decoding it fails exactly when what is left of the line, without its last byte, reads as a size |
| `ChunkedExamples.CutPanics` | src/browser.rs:942-951 | two digits are such a body |
| `FlexRow.Break` | src/browser.rs:3463-3480 | lines hold all items in order; a wrapping line fits or is a single item, and the next item would not have fitted |
| `FlexRow.JustifyFits` | src/browser.rs:3394-3408 | leading and inner spaces never exceed the free space, and even sharing leaves less than one pixel per share |
| `FlexRow.SharesFit` | src/browser.rs:3500-3504 | grow shares, each rounded down, never exceed the free space, and leave less than one pixel per item |
| `FlexRow.ShareExactly` | src/browser.rs:3500-3504 | each share is in proportion to its grow factor, rounded down |
| `FlexRow.WidthExactly` | src/browser.rs:3502 | an item is as wide as it was measured, and its share wider; one that is to have no width has its share only |
| `FlexRow.PlaceLine` | src/browser.rs:3482-3510 | the loop places item by item at the specified offsets |
| `FlexRow.BoxesApart` | src/browser.rs:3494-3510 | of any two items of a line the later starts behind the earlier one's box if and only if that item or one between has a width, or something is put between items |
| `FlexRow.EmptyBoxesCoincide` | src/browser.rs:3482-3510 | two items of width zero in a row of 102 pixels whose boxes coincide |
| `FlexRow.RowFits` | src/browser.rs:3482-3510 | every item of a line that fits lies inside the row, for all justifications and grow factors |
| `FlexRow.RowFilled` | src/browser.rs:3482-3510 | a line that fits begins and ends where its justification says; growing items fill the row up to less than one pixel each |
| `Editor.EditorState.Snapshot` | src/editor.rs:111-117 | the history gains the state, loses its oldest entry above 200, and nothing is left to redo |
| `Editor.EditorState.TypeChar` | src/editor.rs:129-149 | the whole new state after a typed character, brackets closed |
| `Editor.EditorState.Newline` | src/editor.rs:151-163 | the whole new state after a new line with its indent |
| `Editor.EditorState.UndoOp` | src/editor.rs:195-203 | the whole new state after undo |
| `Editor.EditorState.RedoOp` | src/editor.rs:205-213 | the whole new state after redo |
| `Editor.EditorState.MoveVert` | src/editor.rs:239-258 | the whole new state after a vertical move |
| `EditorMeaning.InsertExactly` | src/editor.rs:119-127 | text is inserted at the cursor if the whole then has at most 65536 characters, and otherwise not at all |
| `EditorMeaning.TypedText` | src/editor.rs:129-149 | the text after a typed character: an opening bracket or a quote brings its partner |
| `EditorMeaning.NewlineText` | src/editor.rs:151-163 | the text after a new line: the indent of the line left, and four spaces more behind an opening bracket or a colon |
| `EditorMeaning.IndentExactly` | src/editor.rs:154-159 | the indent is all spaces and tabs that a line begins with |
| `EditorMeaning.CleanedExactly` | src/editor.rs:188-193 | of what is pasted, line ends, tabs and the characters from space to tilde stay, in order |
| `EditorMeaning.SearchExactly` | src/editor.rs:279-288 | the cursor goes behind the first occurrence from a place on, or else behind the first of all |
| `EditorMeaning.ReplacedFirst` | src/editor.rs:290-300 | occurrences are replaced from left to right, and none twice |
| `EditorMeaning.GotoLineExactly` | src/editor.rs:268-277 | the cursor goes to the start of the line with that number, or of the last one |
| `EditorMeaning.SnapshotExactly` | src/editor.rs:111-117 | the history keeps its last 200 entries |
| `EditorMeaning.MovesExactly` | src/editor.rs:227-262 | one step to a side and back, and the ends of the line |
| `Editor.NthCol` | src/editor.rs:328-337 | the place of a column, clamped to the line's end |
| `Editor.SessionsValid` | src/editor.rs:111-300 | after any session every stored cursor is within its text, undo and redo together hold at most 200 entries, and pending typing means nothing to redo |
| `Editor.UndosRedos` | src/editor.rs:195-213 | as many redos as undos restore text, cursor and both stacks |
| `Editor.EditUndone` | src/editor.rs:111-203 | undoing any edit restores text and cursor exactly |
| `Editor.TypingUndone` | src/editor.rs:129-203 | a whole run of typed characters is undone at once |
| `Editor.TypingFits` | src/editor.rs:119-149 | typing keeps the size limit if and only if no closing bracket is added at it |
| `Editor.FullTextGrows` | src/editor.rs:119-149 | at the end of a full text, typing an opening bracket adds the closing one only |
| `Editor.VertKeepsColumn` | src/editor.rs:239-258 | a vertical move goes to the neighbouring line and the same column, or its end |

## Left out

- The preprocessor, the character lexer and the prelude insertion of `src/cc.rs`: parsing starts from tokens, compilation from the functions after insertion; of the prelude's functions only `strlen` is looked at.
- Error messages: an error is one value everywhere.
- CcCompile.Compile: function names are ASCII; the 32-bit counter of literal offsets is an unbounded number.
- CcCompile.EndToEnd: literals' offsets and array sizes fit 32 bits, a built-in without a value is not used as one (`CcValues` says what happens then), memory does not grow, and the host reads logged bytes as they are.
- WasmValid.ValidModule: types other than i32, tables, element segments and start functions, which are not emitted; calls of other imports are not part of the machine.
- The boot sector, mounting and interrupt masking; block devices fail past their end only: the driver starts from a layout, and each operation is one step.
- FatImage.Geometry: tables of at most 255 sectors; `FatCounter` says what the allocation loop does on larger ones.
- FatVolume.Sound: table entries from 2 to 0xfff7 are numbers of the table, so that bad-cluster marks are not in it, and the following of entries beyond it is not modelled.
- GifLzw.EncodeGif: an empty image and pixels outside the palette, on which the original raises an error, are not inputs; palettes and frames are not modelled.
- DeviceTree: the header check, whose result is the two blocks the model starts from.
- Frames.Allocator.AllocContiguous: the zeroing of a frame's contents is not modelled.
- Raster: coordinates are unbounded integers; text, blits, blending and rounded rectangles are not modelled.
- PageBand: text, images, rounded rectangles and form fields.
- Chunked.Body: a body has fewer than 2^63 bytes, as every slice of the language does.
- FlexRow: the cross axis, columns and measuring; gaps and widths asked for are not negative.
- Editor: the status line, scrolling, search bars, files and drawing; text is ASCII, as everything opened, pasted or typed is.
- Hardware drivers, the window manager, networking, fonts and the WebAssembly runtime are not part of this model.
