/** Where a compiled program's data lies: string literals below the heap base, blocks above it. */
module CcMemory {
  import opened Bytes
  import opened CcGen
  import opened CcModule
  import opened CcCompile
  import CcSource
  import CcHeap

  /** The literals all end at or below the heap base exactly when the data segment does. */
  lemma {:induction false} LiteralsClear(order: seq<seq<Byte>>)
    ensures (forall s | s in OffsetsOf(order) :: OffsetsOf(order)[s] + |s| + 1 <= HEAP_BASE) <==>
            DATA_BASE + |DataOf(order)| <= HEAP_BASE
  {
    forall s | s in OffsetsOf(order) ensures OffsetsOf(order)[s] + |s| + 1 <= DATA_BASE + |DataOf(order)| {
      LiteralAt(order, s);
    }
    if order != [] {
      var last := order[|order| - 1];
      assert last in OffsetsOf(order) && OffsetsOf(order)[last] + |last| + 1 == DATA_BASE + |DataOf(order)|;
    }
  }

  /** In a fresh instance whose data segment ends below the heap base, no block that any run of a
      program with flat sizes hands out overlaps a literal. */
  lemma {:induction false} BlocksMissLiterals(order: seq<seq<Byte>>, fuel: nat, k: nat, args: seq<Word>,
      p: CcSource.Program, quiet: set<string>, s: seq<Byte>)
    requires DATA_BASE + |DataOf(order)| <= HEAP_BASE && s in OffsetsOf(order)
    requires CcHeap.FlatProgram(p.funcs, quiet) && k < |p.funcs|
    requires CcSource.EvalFunc(fuel, k, args, Instance(DataOf(order)), p) != CcSource.Wrong
    requires CcHeap.InRange(CcHeap.FuncBlocks(fuel, k, args, Instance(DataOf(order)), p))
    ensures var bs := CcHeap.FuncBlocks(fuel, k, args, Instance(DataOf(order)), p);
            forall i :: 0 <= i < |bs| ==> OffsetsOf(order)[s] + |s| + 1 <= bs[i].base
  {
    LiteralsClear(order);
    CcHeap.FlatProgramsSeparate(fuel, k, args, Instance(DataOf(order)), p, quiet);
  }
}
