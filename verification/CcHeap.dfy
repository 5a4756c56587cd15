/** Blocks of the bump heap: what arrays and `malloc` hand out over a whole run. */
module CcHeap {
  import opened Bytes
  import opened Int32
  import opened CcAst
  import opened CcSource

  /** A region handed out. `nested` is set when the size expression of a `malloc` itself
      claimed a block of positive size. */
  datatype Block = Block(base: Word, size: Word, nested: bool)

  // ----- the blocks of a run, in order -----

  predicate Claims(bs: seq<Block>) { exists i :: 0 <= i < |bs| && bs[i].size > 0 }

  function ExprBlocks(fuel: nat, e: Expr, env: Env, st: Store, t: Symbols, p: Program): seq<Block>
    decreases fuel, e, 1
  {
    match e
    case Bin(_, a, b) => PairBlocks(fuel, e, a, b, env, st, t, p)
    case Neg(a) => ExprBlocks(fuel, a, env, st, t, p)
    case Not(a) => ExprBlocks(fuel, a, env, st, t, p)
    case Index(a, b) => PairBlocks(fuel, e, a, b, env, st, t, p)
    case Deref(a) => ExprBlocks(fuel, a, env, st, t, p)
    case Call(_, _) => CallBlocks(fuel, e, env, st, t, p)
    case _ => []
  }

  function PairBlocks(fuel: nat, e: Expr, a: Expr, b: Expr, env: Env, st: Store, t: Symbols, p: Program): seq<Block>
    requires a < e && b < e
    decreases fuel, e, 0
  {
    var ra := Value(EvalExpr(fuel, a, env, st, t, p));
    ExprBlocks(fuel, a, env, st, t, p) + if ra.Ok? then ExprBlocks(fuel, b, env, ra.st, t, p) else []
  }

  function CallBlocks(fuel: nat, e: Expr, env: Env, st: Store, t: Symbols, p: Program): seq<Block>
    requires e.Call?
    decreases fuel, e, 0
  {
    var args := e.args;
    if e.name == "print" then []
    else if e.name == "print_int" || e.name == "putchar" || e.name == "free" then
      if |args| == 0 then [] else ExprBlocks(fuel, args[0], env, st, t, p)
    else if e.name == "malloc" then
      if |args| == 0 then []
      else
        var inner := ExprBlocks(fuel, args[0], env, st, t, p);
        var r := Value(EvalExpr(fuel, args[0], env, st, t, p));
        inner + if r.Ok? then [Block(st.heap, r.value, Claims(inner))] else []
    else if e.name == "print_str" && |args| == 1 then
      var ra := Value(EvalExpr(fuel, args[0], env, st, t, p));
      ExprBlocks(fuel, args[0], env, st, t, p)
      + if !ra.Ok? then []
        else match Lookup(p.funcs, "strlen")
          case None => []
          case Some(k) =>
            var rb := Value(EvalExpr(fuel, args[0], env, ra.st, t, p));
            ExprBlocks(fuel, args[0], env, ra.st, t, p)
            + if rb.Ok? && fuel > 0 then FuncBlocks(fuel - 1, k, [rb.value], rb.st, p) else []
    else
      var ra := EvalArgs(fuel, args, env, st, t, p);
      ArgsBlocks(fuel, args, env, st, t, p)
      + match Lookup(p.funcs, e.name)
        case None => []
        case Some(k) => if ra.Ok? && fuel > 0 then FuncBlocks(fuel - 1, k, ra.value, ra.st, p) else []
  }

  function ArgsBlocks(fuel: nat, es: seq<Expr>, env: Env, st: Store, t: Symbols, p: Program): seq<Block>
    decreases fuel, es, 1
  {
    if es == [] then []
    else
      var r := Value(EvalExpr(fuel, es[0], env, st, t, p));
      ExprBlocks(fuel, es[0], env, st, t, p) + if r.Ok? then ArgsBlocks(fuel, es[1..], env, r.st, t, p) else []
  }

  function OptBlocks(fuel: nat, s: Stmt, e: Option<Expr>, env: Env, st: Store, t: Symbols, p: Program): seq<Block>
    requires e.Some? ==> e.value < s
    decreases fuel, s, 0
  {
    match e
    case None => []
    case Some(x) => ExprBlocks(fuel, x, env, st, t, p)
  }

  function StmtBlocks(fuel: nat, s: Stmt, env: Env, st: Store, t: Symbols, p: Program): seq<Block>
    decreases fuel, s, 1
  {
    match s
    case Decl(_, _, init, _) => OptBlocks(fuel, s, init, env, st, t, p)
    case Assign(_, e) => ExprBlocks(fuel, e, env, st, t, p)
    case StoreLval(lval, e) =>
      var ra := EvalAddr(fuel, lval, env, st, t, p);
      ExprBlocks(fuel, lval, env, st, t, p) + if ra.Ok? then ExprBlocks(fuel, e, env, ra.st, t, p) else []
    case ExprStmt(e) => ExprBlocks(fuel, e, env, st, t, p)
    case Return(e) => OptBlocks(fuel, s, e, env, st, t, p)
    case If(c, thn, els) =>
      var r := Value(EvalExpr(fuel, c, env, st, t, p));
      ExprBlocks(fuel, c, env, st, t, p)
      + if r.Ok? then StmtsBlocks(fuel, if r.value != 0 then thn else els, env, r.st, t, p) else []
    case While(c, body) =>
      var r := Value(EvalExpr(fuel, c, env, st, t, p));
      ExprBlocks(fuel, c, env, st, t, p)
      + if !r.Ok? || r.value == 0 then []
        else
          var rb := EvalStmts(fuel, body, env, r.st, t, p);
          StmtsBlocks(fuel, body, env, r.st, t, p)
          + if rb.Ok? && rb.value.Next? && fuel > 0 then StmtBlocks(fuel - 1, s, rb.value.env, rb.st, t, p) else []
    case For(init, _, _, _) =>
      var r := EvalStmt(fuel, init, env, st, t, p);
      StmtBlocks(fuel, init, env, st, t, p)
      + if r.Ok? && r.value.Next? then ForBlocks(fuel, s, r.value.env, r.st, t, p) else []
  }

  function ForBlocks(fuel: nat, s: Stmt, env: Env, st: Store, t: Symbols, p: Program): seq<Block>
    requires s.For?
    decreases fuel, s, 0
  {
    var r := Value(EvalExpr(fuel, s.cond, env, st, t, p));
    ExprBlocks(fuel, s.cond, env, st, t, p)
    + if !r.Ok? || r.value == 0 then []
      else
        var rb := EvalStmts(fuel, s.body, env, r.st, t, p);
        StmtsBlocks(fuel, s.body, env, r.st, t, p)
        + if !rb.Ok? || rb.value.Ret? then []
          else
            var rs := EvalStmt(fuel, s.step, rb.value.env, rb.st, t, p);
            StmtBlocks(fuel, s.step, rb.value.env, rb.st, t, p)
            + if rs.Ok? && rs.value.Next? && fuel > 0 then ForBlocks(fuel - 1, s, rs.value.env, rs.st, t, p) else []
  }

  function StmtsBlocks(fuel: nat, ss: seq<Stmt>, env: Env, st: Store, t: Symbols, p: Program): seq<Block>
    decreases fuel, ss, 2
  {
    if ss == [] then []
    else
      var r := EvalStmt(fuel, ss[0], env, st, t, p);
      StmtBlocks(fuel, ss[0], env, st, t, p)
      + if r.Ok? && r.value.Next? then StmtsBlocks(fuel, ss[1..], r.value.env, r.st, t, p) else []
  }

  function ArrayBlocks(t: Symbols, heap: Word): seq<Block> {
    if t == [] then []
    else match t[0].value.arrLen
      case None => ArrayBlocks(t[1..], heap)
      case Some(n) =>
        var bytes := Wrap(n * ElemSize(t[0].value.kind));
        [Block(heap, bytes, false)] + ArrayBlocks(t[1..], Bump(heap, bytes))
  }

  function FuncBlocks(fuel: nat, k: nat, args: seq<Word>, st: Store, p: Program): seq<Block>
    requires k < |p.funcs|
    decreases fuel, p.funcs[k].body, 3
  {
    var f := p.funcs[k];
    if |args| != |f.params| then []
    else
      var t := SymbolsOf(f);
      var (env, st1) := AllocArrays(t, EntryEnv(f.params, args, t), st);
      ArrayBlocks(t, st.heap) + StmtsBlocks(fuel, f.body, env, st1, t, p)
  }

  // ----- separation -----

  /** Sizes are not negative and no address computation wraps around. */
  predicate InRange(bs: seq<Block>) {
    forall i :: 0 <= i < |bs| ==> bs[i].size < 0x8000_0000 && bs[i].base + bs[i].size + 3 < MODULUS
  }

  predicate Nested(bs: seq<Block>) { exists i :: 0 <= i < |bs| && bs[i].nested }

  /** Blocks are word-aligned, ascending and pairwise disjoint. */
  predicate Separated(bs: seq<Block>) {
    && (forall i :: 0 <= i < |bs| ==> bs[i].base % 4 == 0)
    && forall i, j :: 0 <= i < j < |bs| ==> bs[i].base + bs[i].size <= bs[j].base
  }

  /** Each block starts at the heap pointer left by the one before. */
  predicate Chain(lo: Word, bs: seq<Block>, hi: Word)
    decreases |bs|
  {
    if bs == [] then lo == hi
    else bs[0].base == lo && Chain(Bump(lo, bs[0].size), bs[1..], hi)
  }

  /** From an aligned heap pointer, blocks in range either chain from `lo` to `hi`, or a
      `malloc` with a size expression that allocates made two of them overlap. */
  predicate Good(lo: Word, bs: seq<Block>, hi: Word) {
    lo % 4 == 0 && InRange(bs) ==> if Nested(bs) then !Separated(bs) else Chain(lo, bs, hi)
  }

  lemma {:induction false} ChainAppend(lo: Word, a: seq<Block>, mid: Word, b: seq<Block>, hi: Word)
    requires Chain(lo, a, mid) && Chain(mid, b, hi)
    ensures Chain(lo, a + b, hi)
    decreases |a|
  {
    hide Bump;
    if a == [] {
      assert a + b == b;
    } else {
      assert (a + b)[1..] == a[1..] + b;
      ChainAppend(Bump(lo, a[0].size), a[1..], mid, b, hi);
    }
  }

  lemma {:induction false} BumpRange(lo: Word, n: Word)
    requires lo + n + 3 < MODULUS
    ensures lo + n <= Bump(lo, n) < lo + n + 4 && Bump(lo, n) % 4 == 0
    ensures lo % 4 == 0 && n == 0 ==> Bump(lo, n) == lo
  {
  }

  /** Chained blocks in range are separated, and lie between the two heap pointers. */
  lemma {:induction false} ChainSeparated(lo: Word, bs: seq<Block>, hi: Word)
    requires lo % 4 == 0 && InRange(bs) && Chain(lo, bs, hi)
    ensures Separated(bs) && lo <= hi && hi % 4 == 0
    ensures forall i :: 0 <= i < |bs| ==> lo <= bs[i].base && bs[i].base + bs[i].size <= hi
    ensures !Claims(bs) ==> hi == lo
    decreases |bs|
  {
    if bs != [] {
      var next := Bump(lo, bs[0].size);
      var tail := bs[1..];
      BumpRange(lo, bs[0].size);
      assert forall i | 0 <= i < |tail| :: tail[i] == bs[i + 1];
      ChainSeparated(next, tail, hi);
      assert forall i | 1 <= i < |bs| :: bs[i] == tail[i - 1];
    }
  }

  lemma {:induction false} SeparatedParts(a: seq<Block>, b: seq<Block>)
    ensures InRange(a + b) <==> InRange(a) && InRange(b)
    ensures Nested(a + b) <==> Nested(a) || Nested(b)
    ensures Separated(a + b) ==> Separated(a) && Separated(b)
  {
    var ab := a + b;
    assert forall i | 0 <= i < |a| :: ab[i] == a[i];
    assert forall i | 0 <= i < |b| :: ab[|a| + i] == b[i];
    assert forall i | |a| <= i < |ab| :: ab[i] == b[i - |a|];
  }

  lemma {:induction false} GoodAppend(lo: Word, a: seq<Block>, mid: Word, b: seq<Block>, hi: Word)
    requires Good(lo, a, mid) && Good(mid, b, hi)
    ensures Good(lo, a + b, hi)
  {
    SeparatedParts(a, b);
    if lo % 4 == 0 && InRange(a + b) && !Nested(a) {
      ChainSeparated(lo, a, mid);
      if !Nested(b) {
        ChainAppend(lo, a, mid, b, hi);
      }
    }
  }

  lemma {:induction false} GoodNil(lo: Word)
    ensures Good(lo, [], lo)
  {
  }

  lemma {:induction false} GoodPadded(lo: Word, a: seq<Block>, hi: Word)
    requires Good(lo, a, hi)
    ensures Good(lo, a + [], hi)
  {
    assert a + [] == a;
  }

  /** `malloc` after its size: fine when the size claimed nothing, an overlap when it did. */
  lemma {:induction false} GoodMalloc(lo: Word, inner: seq<Block>, mid: Word, n: Word)
    requires Good(lo, inner, mid)
    ensures Good(lo, inner + [Block(lo, n, Claims(inner))], Bump(lo, n))
  {
    var b := Block(lo, n, Claims(inner));
    var all := inner + [b];
    SeparatedParts(inner, [b]);
    if lo % 4 == 0 && InRange(all) && !Nested(inner) {
      ChainSeparated(lo, inner, mid);
      if Claims(inner) {
        var i :| 0 <= i < |inner| && inner[i].size > 0;
        assert [b][0].nested;
        assert all[i] == inner[i] && all[|inner|] == b;
        assert all[i].base + all[i].size > all[|inner|].base;
      } else {
        assert Chain(lo, [b], Bump(lo, n)) by { assert [b][1..] == []; }
        ChainAppend(lo, inner, lo, [b], Bump(lo, n));
      }
    }
  }

  // ----- every run -----

  /** The heap pointer where a run ended or stopped. */
  function EndHeap<T>(r: Res<T>): Word
    requires r != Wrong
  {
    r.st.heap
  }

  lemma {:induction false} ExprGood(fuel: nat, e: Expr, env: Env, st: Store, t: Symbols, p: Program)
    requires EvalExpr(fuel, e, env, st, t, p) != Wrong
    ensures Good(st.heap, ExprBlocks(fuel, e, env, st, t, p), EndHeap(EvalExpr(fuel, e, env, st, t, p)))
    decreases fuel, e, 2
  {
    match e
    case Bin(_, a, b) => PairGood(fuel, e, a, b, env, st, t, p);
    case Neg(a) => ExprGood(fuel, a, env, st, t, p);
    case Not(a) => ExprGood(fuel, a, env, st, t, p);
    case Index(_, _) => AddrGood(fuel, e, env, st, t, p);
    case Deref(_) => AddrGood(fuel, e, env, st, t, p);
    case Call(_, _) => CallGood(fuel, e, env, st, t, p);
    case _ =>
  }

  /** Two operands, left to right. */
  lemma {:induction false} PairGood(fuel: nat, e: Expr, a: Expr, b: Expr, env: Env, st: Store, t: Symbols, p: Program)
    requires a < e && b < e
    requires var ra := Value(EvalExpr(fuel, a, env, st, t, p));
             ra != Wrong && (ra.Ok? ==> Value(EvalExpr(fuel, b, env, ra.st, t, p)) != Wrong)
    ensures var ra := Value(EvalExpr(fuel, a, env, st, t, p));
            Good(st.heap, PairBlocks(fuel, e, a, b, env, st, t, p),
                 EndHeap(if ra.Ok? then Value(EvalExpr(fuel, b, env, ra.st, t, p)) else ra))
    decreases fuel, e, 0
  {
    var ra := Value(EvalExpr(fuel, a, env, st, t, p));
    var first := ExprBlocks(fuel, a, env, st, t, p);
    ExprGood(fuel, a, env, st, t, p);
    if ra.Ok? {
      ExprGood(fuel, b, env, ra.st, t, p);
      var rb := Value(EvalExpr(fuel, b, env, ra.st, t, p));
      GoodAppend(st.heap, first, ra.st.heap, ExprBlocks(fuel, b, env, ra.st, t, p), EndHeap(rb));
    } else {
      GoodPadded(st.heap, first, EndHeap(ra));
    }
  }

  lemma {:induction false} AddrGood(fuel: nat, e: Expr, env: Env, st: Store, t: Symbols, p: Program)
    requires EvalAddr(fuel, e, env, st, t, p) != Wrong
    ensures Good(st.heap, ExprBlocks(fuel, e, env, st, t, p), EndHeap(EvalAddr(fuel, e, env, st, t, p)))
    decreases fuel, e, 1
  {
    match e
    case Index(a, b) => PairGood(fuel, e, a, b, env, st, t, p);
    case Deref(a) => ExprGood(fuel, a, env, st, t, p);
  }

  lemma {:induction false} CallGood(fuel: nat, e: Expr, env: Env, st: Store, t: Symbols, p: Program)
    requires e.Call? && EvalExpr(fuel, e, env, st, t, p) != Wrong
    ensures Good(st.heap, CallBlocks(fuel, e, env, st, t, p), EndHeap(EvalExpr(fuel, e, env, st, t, p)))
    decreases fuel, e, 1
  {
    if e.name == "print" {
    } else if e.name == "print_int" || e.name == "putchar" || e.name == "free" {
      if |e.args| > 0 { ExprGood(fuel, e.args[0], env, st, t, p); }
    } else if e.name == "malloc" {
      MallocGood(fuel, e, env, st, t, p);
    } else if e.name == "print_str" && |e.args| == 1 {
      PrintStrGood(fuel, e, env, st, t, p);
    } else {
      UserCallGood(fuel, e, env, st, t, p);
    }
  }

  lemma {:induction false} MallocGood(fuel: nat, e: Expr, env: Env, st: Store, t: Symbols, p: Program)
    requires e.Call? && e.name == "malloc" && EvalExpr(fuel, e, env, st, t, p) != Wrong
    ensures Good(st.heap, CallBlocks(fuel, e, env, st, t, p), EndHeap(EvalExpr(fuel, e, env, st, t, p)))
    decreases fuel, e, 0
  {
    var inner := ExprBlocks(fuel, e.args[0], env, st, t, p);
    var r := Value(EvalExpr(fuel, e.args[0], env, st, t, p));
    ExprGood(fuel, e.args[0], env, st, t, p);
    if r.Ok? {
      GoodMalloc(st.heap, inner, r.st.heap, r.value);
    } else {
      GoodPadded(st.heap, inner, EndHeap(r));
    }
  }

  lemma {:induction false} PrintStrGood(fuel: nat, e: Expr, env: Env, st: Store, t: Symbols, p: Program)
    requires e.Call? && e.name == "print_str" && |e.args| == 1 && EvalExpr(fuel, e, env, st, t, p) != Wrong
    ensures Good(st.heap, CallBlocks(fuel, e, env, st, t, p), EndHeap(EvalExpr(fuel, e, env, st, t, p)))
    decreases fuel, e, 0
  {
    hide Good;
    var a := e.args[0];
    var first := ExprBlocks(fuel, a, env, st, t, p);
    var ra := Value(EvalExpr(fuel, a, env, st, t, p));
    ExprGood(fuel, a, env, st, t, p);
    if ra.Ok? && Lookup(p.funcs, "strlen").Some? {
      var k := Lookup(p.funcs, "strlen").value;
      var rb := Value(EvalExpr(fuel, a, env, ra.st, t, p));
      var second := ExprBlocks(fuel, a, env, ra.st, t, p);
      ExprGood(fuel, a, env, ra.st, t, p);
      if rb.Ok? && fuel > 0 {
        var third := FuncBlocks(fuel - 1, k, [rb.value], rb.st, p);
        var rn := EvalFunc(fuel - 1, k, [rb.value], rb.st, p);
        FuncGood(fuel - 1, k, [rb.value], rb.st, p);
        GoodAppend(ra.st.heap, second, rb.st.heap, third, EndHeap(rn));
        GoodAppend(st.heap, first, ra.st.heap, second + third, EndHeap(rn));
      } else {
        GoodPadded(ra.st.heap, second, EndHeap(rb));
        GoodAppend(st.heap, first, ra.st.heap, second + [], EndHeap(rb));
      }
    } else {
      GoodPadded(st.heap, first, EndHeap(ra));
    }
  }

  lemma {:induction false} UserCallGood(fuel: nat, e: Expr, env: Env, st: Store, t: Symbols, p: Program)
    requires e.Call? && !IsPrint(e.name, e.args) && e.name != "malloc" && e.name != "free"
    requires EvalExpr(fuel, e, env, st, t, p) != Wrong
    ensures Good(st.heap, CallBlocks(fuel, e, env, st, t, p), EndHeap(EvalExpr(fuel, e, env, st, t, p)))
    decreases fuel, e, 0
  {
    var args := ArgsBlocks(fuel, e.args, env, st, t, p);
    var ra := EvalArgs(fuel, e.args, env, st, t, p);
    ArgsGood(fuel, e.args, env, st, t, p);
    GoodPadded(st.heap, args, EndHeap(ra));
    if ra.Ok? && fuel > 0 {
      var k := Lookup(p.funcs, e.name).value;
      FuncGood(fuel - 1, k, ra.value, ra.st, p);
      GoodAppend(st.heap, args, ra.st.heap, FuncBlocks(fuel - 1, k, ra.value, ra.st, p),
                 EndHeap(EvalFunc(fuel - 1, k, ra.value, ra.st, p)));
    }
  }

  lemma {:induction false} ArgsGood(fuel: nat, es: seq<Expr>, env: Env, st: Store, t: Symbols, p: Program)
    requires EvalArgs(fuel, es, env, st, t, p) != Wrong
    ensures Good(st.heap, ArgsBlocks(fuel, es, env, st, t, p), EndHeap(EvalArgs(fuel, es, env, st, t, p)))
    decreases fuel, es, 1
  {
    hide Good;
    GoodNil(st.heap);
    if es != [] {
      var r := Value(EvalExpr(fuel, es[0], env, st, t, p));
      var first := ExprBlocks(fuel, es[0], env, st, t, p);
      ExprGood(fuel, es[0], env, st, t, p);
      GoodPadded(st.heap, first, EndHeap(r));
      if r.Ok? {
        ArgsGood(fuel, es[1..], env, r.st, t, p);
        GoodAppend(st.heap, first, r.st.heap, ArgsBlocks(fuel, es[1..], env, r.st, t, p),
                   EndHeap(EvalArgs(fuel, es[1..], env, r.st, t, p)));
      }
    }
  }

  lemma {:induction false} StmtGood(fuel: nat, s: Stmt, env: Env, st: Store, t: Symbols, p: Program)
    requires EvalStmt(fuel, s, env, st, t, p) != Wrong
    ensures Good(st.heap, StmtBlocks(fuel, s, env, st, t, p), EndHeap(EvalStmt(fuel, s, env, st, t, p)))
    decreases fuel, s, 2
  {
    hide Good;
    match s
    case Decl(_, _, init, _) =>
      GoodNil(st.heap);
      if init.Some? { ExprGood(fuel, init.value, env, st, t, p); }
    case Assign(_, e) => ExprGood(fuel, e, env, st, t, p);
    case StoreLval(_, _) => StoreGood(fuel, s, env, st, t, p);
    case ExprStmt(e) => ExprGood(fuel, e, env, st, t, p);
    case Return(_) => ReturnGood(fuel, s, env, st, t, p);
    case If(_, _, _) => IfGood(fuel, s, env, st, t, p);
    case While(_, _) => WhileGood(fuel, s, env, st, t, p);
    case For(init, _, _, _) =>
      var r := EvalStmt(fuel, init, env, st, t, p);
      var first := StmtBlocks(fuel, init, env, st, t, p);
      StmtGood(fuel, init, env, st, t, p);
      GoodPadded(st.heap, first, EndHeap(r));
      if r.Ok? && r.value.Next? {
        ForGood(fuel, s, r.value.env, r.st, t, p);
        GoodAppend(st.heap, first, r.st.heap, ForBlocks(fuel, s, r.value.env, r.st, t, p),
                   EndHeap(EvalFor(fuel, s, r.value.env, r.st, t, p)));
      }
  }

  lemma {:induction false} ReturnGood(fuel: nat, s: Stmt, env: Env, st: Store, t: Symbols, p: Program)
    requires s.Return? && EvalStmt(fuel, s, env, st, t, p) != Wrong
    ensures Good(st.heap, StmtBlocks(fuel, s, env, st, t, p), EndHeap(EvalStmt(fuel, s, env, st, t, p)))
    decreases fuel, s, 0
  {
    hide Good;
    match s.result {
      case None =>
        GoodNil(st.heap);
        assert StmtBlocks(fuel, s, env, st, t, p) == [];
        assert EvalStmt(fuel, s, env, st, t, p) == Ok(Ret(0), st);
      case Some(e) =>
        ExprGood(fuel, e, env, st, t, p);
        assert StmtBlocks(fuel, s, env, st, t, p) == ExprBlocks(fuel, e, env, st, t, p);
        assert EndHeap(EvalStmt(fuel, s, env, st, t, p)) == EndHeap(Value(EvalExpr(fuel, e, env, st, t, p)));
    }
  }

  lemma {:induction false} StoreGood(fuel: nat, s: Stmt, env: Env, st: Store, t: Symbols, p: Program)
    requires s.StoreLval? && EvalStmt(fuel, s, env, st, t, p) != Wrong
    ensures Good(st.heap, StmtBlocks(fuel, s, env, st, t, p), EndHeap(EvalStmt(fuel, s, env, st, t, p)))
    decreases fuel, s, 0
  {
    var ra := EvalAddr(fuel, s.lval, env, st, t, p);
    var first := ExprBlocks(fuel, s.lval, env, st, t, p);
    AddrGood(fuel, s.lval, env, st, t, p);
    GoodPadded(st.heap, first, EndHeap(ra));
    if ra.Ok? {
      ExprGood(fuel, s.value, env, ra.st, t, p);
      GoodAppend(st.heap, first, ra.st.heap, ExprBlocks(fuel, s.value, env, ra.st, t, p),
                 EndHeap(Value(EvalExpr(fuel, s.value, env, ra.st, t, p))));
    }
  }

  lemma {:induction false} IfGood(fuel: nat, s: Stmt, env: Env, st: Store, t: Symbols, p: Program)
    requires s.If? && EvalStmt(fuel, s, env, st, t, p) != Wrong
    ensures Good(st.heap, StmtBlocks(fuel, s, env, st, t, p), EndHeap(EvalStmt(fuel, s, env, st, t, p)))
    decreases fuel, s, 0
  {
    var r := Value(EvalExpr(fuel, s.cond, env, st, t, p));
    var first := ExprBlocks(fuel, s.cond, env, st, t, p);
    ExprGood(fuel, s.cond, env, st, t, p);
    GoodPadded(st.heap, first, EndHeap(r));
    if r.Ok? {
      var ss := if r.value != 0 then s.thn else s.els;
      StmtsGood(fuel, ss, env, r.st, t, p);
      GoodAppend(st.heap, first, r.st.heap, StmtsBlocks(fuel, ss, env, r.st, t, p),
                 EndHeap(EvalStmts(fuel, ss, env, r.st, t, p)));
    }
  }

  lemma {:induction false} WhileGood(fuel: nat, s: Stmt, env: Env, st: Store, t: Symbols, p: Program)
    requires s.While? && EvalStmt(fuel, s, env, st, t, p) != Wrong
    ensures Good(st.heap, StmtBlocks(fuel, s, env, st, t, p), EndHeap(EvalStmt(fuel, s, env, st, t, p)))
    decreases fuel, s, 1
  {
    var r := Value(EvalExpr(fuel, s.cond, env, st, t, p));
    var first := ExprBlocks(fuel, s.cond, env, st, t, p);
    ExprGood(fuel, s.cond, env, st, t, p);
    GoodPadded(st.heap, first, EndHeap(r));
    if r.Ok? && r.value != 0 {
      var rb := EvalStmts(fuel, s.body, env, r.st, t, p);
      var second := StmtsBlocks(fuel, s.body, env, r.st, t, p);
      StmtsGood(fuel, s.body, env, r.st, t, p);
      if rb.Ok? && rb.value.Next? && fuel > 0 {
        var r3 := EvalStmt(fuel - 1, s, rb.value.env, rb.st, t, p);
        var third := StmtBlocks(fuel - 1, s, rb.value.env, rb.st, t, p);
        StmtGood(fuel - 1, s, rb.value.env, rb.st, t, p);
        GoodAppend(r.st.heap, second, rb.st.heap, third, EndHeap(r3));
        GoodAppend(st.heap, first, r.st.heap, second + third, EndHeap(r3));
      } else {
        GoodPadded(r.st.heap, second, EndHeap(rb));
        GoodAppend(st.heap, first, r.st.heap, second + [], EndHeap(rb));
      }
    }
  }

  lemma {:induction false} ForGood(fuel: nat, s: Stmt, env: Env, st: Store, t: Symbols, p: Program)
    requires s.For? && EvalFor(fuel, s, env, st, t, p) != Wrong
    ensures Good(st.heap, ForBlocks(fuel, s, env, st, t, p), EndHeap(EvalFor(fuel, s, env, st, t, p)))
    decreases fuel, s, 1
  {
    var r := Value(EvalExpr(fuel, s.cond, env, st, t, p));
    var first := ExprBlocks(fuel, s.cond, env, st, t, p);
    ExprGood(fuel, s.cond, env, st, t, p);
    GoodPadded(st.heap, first, EndHeap(r));
    if r.Ok? && r.value != 0 {
      var rb := EvalStmts(fuel, s.body, env, r.st, t, p);
      var second := StmtsBlocks(fuel, s.body, env, r.st, t, p);
      StmtsGood(fuel, s.body, env, r.st, t, p);
      if rb.Ok? && rb.value.Next? {
        var rest := EvalFor(fuel, s, env, st, t, p);
        var third := PassBlocks(fuel, s, rb.value.env, rb.st, t, p);
        PassGood(fuel, s, rb.value.env, rb.st, t, p);
        GoodAppend(r.st.heap, second, rb.st.heap, third, EndHeap(rest));
        GoodAppend(st.heap, first, r.st.heap, second + third, EndHeap(rest));
      } else {
        GoodPadded(r.st.heap, second, EndHeap(rb));
        GoodAppend(st.heap, first, r.st.heap, second + [], EndHeap(rb));
      }
    }
  }

  /** What follows the body in one pass of a `for`: its step, then the next pass. */
  function Pass(fuel: nat, s: Stmt, env: Env, st: Store, t: Symbols, p: Program): Res<Flow>
    requires s.For?
  {
    var (fl, st1) :- EvalStmt(fuel, s.step, env, st, t, p);
    match fl
    case Ret(_) => Ok(fl, st1)
    case Next(env1) => if fuel == 0 then OutOfFuel(st1) else EvalFor(fuel - 1, s, env1, st1, t, p)
  }

  function PassBlocks(fuel: nat, s: Stmt, env: Env, st: Store, t: Symbols, p: Program): seq<Block>
    requires s.For?
  {
    var rs := EvalStmt(fuel, s.step, env, st, t, p);
    StmtBlocks(fuel, s.step, env, st, t, p)
    + if rs.Ok? && rs.value.Next? && fuel > 0 then ForBlocks(fuel - 1, s, rs.value.env, rs.st, t, p) else []
  }

  lemma {:induction false} PassGood(fuel: nat, s: Stmt, env: Env, st: Store, t: Symbols, p: Program)
    requires s.For? && Pass(fuel, s, env, st, t, p) != Wrong
    ensures Good(st.heap, PassBlocks(fuel, s, env, st, t, p), EndHeap(Pass(fuel, s, env, st, t, p)))
    decreases fuel, s, 0
  {
    var rs := EvalStmt(fuel, s.step, env, st, t, p);
    var first := StmtBlocks(fuel, s.step, env, st, t, p);
    StmtGood(fuel, s.step, env, st, t, p);
    GoodPadded(st.heap, first, EndHeap(rs));
    if rs.Ok? && rs.value.Next? && fuel > 0 {
      ForGood(fuel - 1, s, rs.value.env, rs.st, t, p);
      GoodAppend(st.heap, first, rs.st.heap, ForBlocks(fuel - 1, s, rs.value.env, rs.st, t, p),
                 EndHeap(EvalFor(fuel - 1, s, rs.value.env, rs.st, t, p)));
    }
  }

  lemma {:induction false} StmtsGood(fuel: nat, ss: seq<Stmt>, env: Env, st: Store, t: Symbols, p: Program)
    requires EvalStmts(fuel, ss, env, st, t, p) != Wrong
    ensures Good(st.heap, StmtsBlocks(fuel, ss, env, st, t, p), EndHeap(EvalStmts(fuel, ss, env, st, t, p)))
    decreases fuel, ss, 3
  {
    if ss != [] {
      var r := EvalStmt(fuel, ss[0], env, st, t, p);
      var first := StmtBlocks(fuel, ss[0], env, st, t, p);
      StmtGood(fuel, ss[0], env, st, t, p);
      GoodPadded(st.heap, first, EndHeap(r));
      if r.Ok? && r.value.Next? {
        StmtsGood(fuel, ss[1..], r.value.env, r.st, t, p);
        GoodAppend(st.heap, first, r.st.heap, StmtsBlocks(fuel, ss[1..], r.value.env, r.st, t, p),
                   EndHeap(EvalStmts(fuel, ss[1..], r.value.env, r.st, t, p)));
      }
    }
  }

  lemma {:induction false} ArraysGood(t: Symbols, env: Env, st: Store)
    ensures Good(st.heap, ArrayBlocks(t, st.heap), AllocArrays(t, env, st).1.heap)
  {
    if t != [] {
      match t[0].value.arrLen
      case None => ArraysGood(t[1..], env, st);
      case Some(n) =>
        var bytes := Wrap(n * ElemSize(t[0].value.kind));
        var next := Bump(st.heap, bytes);
        var st1 := st.(heap := next);
        var b := Block(st.heap, bytes, false);
        ArraysGood(t[1..], env[t[0].key := st.heap], st1);
        assert Good(st.heap, [b], next) by { assert [b][1..] == []; }
        GoodAppend(st.heap, [b], next, ArrayBlocks(t[1..], next),
          AllocArrays(t[1..], env[t[0].key := st.heap], st1).1.heap);
    }
  }

  /** A call: the arrays of the function, then its body, including everything it calls. */
  lemma {:induction false} FuncGood(fuel: nat, k: nat, args: seq<Word>, st: Store, p: Program)
    requires k < |p.funcs| && EvalFunc(fuel, k, args, st, p) != Wrong
    ensures Good(st.heap, FuncBlocks(fuel, k, args, st, p), EndHeap(EvalFunc(fuel, k, args, st, p)))
    decreases fuel, p.funcs[k].body, 4
  {
    var f := p.funcs[k];
    var t := SymbolsOf(f);
    var env0 := EntryEnv(f.params, args, t);
    var (env, st1) := AllocArrays(t, env0, st);
    ArraysGood(t, env0, st);
    StmtsGood(fuel, f.body, env, st1, t, p);
    GoodAppend(st.heap, ArrayBlocks(t, st.heap), st1.heap, StmtsBlocks(fuel, f.body, env, st1, t, p),
               EndHeap(EvalStmts(fuel, f.body, env, st1, t, p)));
  }

  /** Over a whole run, recursion included and however it ends: when sizes are not negative
      and addresses do not wrap, the blocks are aligned, ascending and disjoint if and only
      if no `malloc` was given a size that itself claimed heap space. */
  lemma {:induction false} BlocksSeparated(fuel: nat, k: nat, args: seq<Word>, st: Store, p: Program)
    requires k < |p.funcs| && EvalFunc(fuel, k, args, st, p) != Wrong
    requires st.heap % 4 == 0 && InRange(FuncBlocks(fuel, k, args, st, p))
    ensures var bs := FuncBlocks(fuel, k, args, st, p);
            Separated(bs) <==> !Nested(bs)
    ensures var bs := FuncBlocks(fuel, k, args, st, p);
            !Nested(bs) ==>
            forall i :: 0 <= i < |bs| ==>
              st.heap <= bs[i].base && bs[i].base + bs[i].size <= EndHeap(EvalFunc(fuel, k, args, st, p))
  {
    var bs := FuncBlocks(fuel, k, args, st, p);
    FuncGood(fuel, k, args, st, p);
    if !Nested(bs) {
      ChainSeparated(st.heap, bs, EndHeap(EvalFunc(fuel, k, args, st, p)));
    }
  }

  // ----- a check on the program that keeps blocks apart -----

  /** With `q`, nothing that is evaluated claims heap space: no `malloc`, and calls only of functions
      in `quiet`. Without `q`, that is asked of the size of each `malloc` only. */
  predicate FlatExpr(e: Expr, fs: seq<Func>, quiet: set<string>, q: bool)
    decreases e
  {
    match e
    case Bin(_, a, b) => FlatExpr(a, fs, quiet, q) && FlatExpr(b, fs, quiet, q)
    case Neg(a) => FlatExpr(a, fs, quiet, q)
    case Not(a) => FlatExpr(a, fs, quiet, q)
    case Index(a, b) => FlatExpr(a, fs, quiet, q) && FlatExpr(b, fs, quiet, q)
    case Deref(a) => FlatExpr(a, fs, quiet, q)
    case Call(name, args) =>
      if name == "print" then true
      else if name == "print_int" || name == "putchar" || name == "free" then
        args == [] || FlatExpr(args[0], fs, quiet, q)
      else if name == "malloc" then !q && (args == [] || FlatExpr(args[0], fs, quiet, true))
      else if name == "print_str" && |args| == 1 then
        FlatExpr(args[0], fs, quiet, q) && FlatCall("strlen", fs, quiet, q)
      else FlatArgs(args, fs, quiet, q) && FlatCall(name, fs, quiet, q)
    case _ => true
  }

  predicate FlatCall(name: string, fs: seq<Func>, quiet: set<string>, q: bool) {
    q && Lookup(fs, name).Some? ==> name in quiet
  }

  predicate FlatArgs(es: seq<Expr>, fs: seq<Func>, quiet: set<string>, q: bool)
    decreases es
  {
    es == [] || (FlatExpr(es[0], fs, quiet, q) && FlatArgs(es[1..], fs, quiet, q))
  }

  predicate FlatStmt(s: Stmt, fs: seq<Func>, quiet: set<string>, q: bool)
    decreases s
  {
    match s
    case Decl(_, _, init, _) => init.Some? ==> FlatExpr(init.value, fs, quiet, q)
    case Assign(_, e) => FlatExpr(e, fs, quiet, q)
    case StoreLval(lval, e) => FlatExpr(lval, fs, quiet, q) && FlatExpr(e, fs, quiet, q)
    case ExprStmt(e) => FlatExpr(e, fs, quiet, q)
    case Return(e) => e.Some? ==> FlatExpr(e.value, fs, quiet, q)
    case If(c, thn, els) =>
      FlatExpr(c, fs, quiet, q) && FlatStmts(thn, fs, quiet, q) && FlatStmts(els, fs, quiet, q)
    case While(c, body) => FlatExpr(c, fs, quiet, q) && FlatStmts(body, fs, quiet, q)
    case For(init, c, step, body) =>
      FlatStmt(init, fs, quiet, q) && FlatExpr(c, fs, quiet, q) && FlatStmt(step, fs, quiet, q)
      && FlatStmts(body, fs, quiet, q)
  }

  predicate FlatStmts(ss: seq<Stmt>, fs: seq<Func>, quiet: set<string>, q: bool)
    decreases ss
  {
    ss == [] || (FlatStmt(ss[0], fs, quiet, q) && FlatStmts(ss[1..], fs, quiet, q))
  }

  /** No size given to a `malloc` contains a `malloc`, or calls a defined function outside `quiet`;
      and the functions in `quiet` have no arrays and no `malloc` and call functions in `quiet` only. */
  predicate FlatProgram(fs: seq<Func>, quiet: set<string>) {
    forall k :: 0 <= k < |fs| ==>
      FlatStmts(fs[k].body, fs, quiet, fs[k].name in quiet) && (fs[k].name in quiet ==> NoArrays(SymbolsOf(fs[k])))
  }

  predicate NoArrays(t: Symbols) { forall i :: 0 <= i < |t| ==> t[i].value.arrLen.None? }

  /** No overlap in the making, and no blocks at all where none may be claimed. */
  predicate Calm(bs: seq<Block>, q: bool) { !Nested(bs) && (q ==> bs == []) }

  lemma {:induction false} CalmAppend(a: seq<Block>, b: seq<Block>, q: bool)
    requires Calm(a, q) && Calm(b, q)
    ensures Calm(a + b, q)
  {
    SeparatedParts(a, b);
  }

  lemma {:induction false} ExprFlat(fuel: nat, e: Expr, env: Env, st: Store, t: Symbols, p: Program,
      quiet: set<string>, q: bool)
    requires FlatProgram(p.funcs, quiet) && FlatExpr(e, p.funcs, quiet, q)
    ensures Calm(ExprBlocks(fuel, e, env, st, t, p), q)
    decreases fuel, e, 1
  {
    hide EvalExpr, EvalAddr, FlatProgram, Nested;
    assert Calm([], q) by { EmptyCalm(q); }
    match e
    case Bin(_, a, b) => PairFlat(fuel, e, a, b, env, st, t, p, quiet, q);
    case Neg(a) => ExprFlat(fuel, a, env, st, t, p, quiet, q);
    case Not(a) => ExprFlat(fuel, a, env, st, t, p, quiet, q);
    case Index(a, b) => PairFlat(fuel, e, a, b, env, st, t, p, quiet, q);
    case Deref(a) => ExprFlat(fuel, a, env, st, t, p, quiet, q);
    case Call(_, _) => CallFlat(fuel, e, env, st, t, p, quiet, q);
    case _ =>
  }

  lemma {:induction false} EmptyCalm(q: bool)
    ensures Calm([], q)
  {
  }

  lemma {:induction false} PairFlat(fuel: nat, e: Expr, a: Expr, b: Expr, env: Env, st: Store, t: Symbols, p: Program,
      quiet: set<string>, q: bool)
    requires a < e && b < e && FlatProgram(p.funcs, quiet)
    requires FlatExpr(a, p.funcs, quiet, q) && FlatExpr(b, p.funcs, quiet, q)
    ensures Calm(PairBlocks(fuel, e, a, b, env, st, t, p), q)
    decreases fuel, e, 0
  {
    hide EvalExpr, FlatProgram, FlatExpr, Calm;
    var ra := Value(EvalExpr(fuel, a, env, st, t, p));
    ExprFlat(fuel, a, env, st, t, p, quiet, q);
    EmptyCalm(q);
    if ra.Ok? { ExprFlat(fuel, b, env, ra.st, t, p, quiet, q); }
    CalmAppend(ExprBlocks(fuel, a, env, st, t, p),
               if ra.Ok? then ExprBlocks(fuel, b, env, ra.st, t, p) else [], q);
  }

  lemma {:induction false} CallFlat(fuel: nat, e: Expr, env: Env, st: Store, t: Symbols, p: Program,
      quiet: set<string>, q: bool)
    requires e.Call? && FlatProgram(p.funcs, quiet) && FlatExpr(e, p.funcs, quiet, q)
    ensures Calm(CallBlocks(fuel, e, env, st, t, p), q)
    decreases fuel, e, 0
  {
    hide EvalExpr, EvalArgs, FlatProgram, Calm;
    var args := e.args;
    EmptyCalm(q);
    if e.name == "print" {
    } else if e.name == "print_int" || e.name == "putchar" || e.name == "free" {
      if args != [] { ExprFlat(fuel, args[0], env, st, t, p, quiet, q); }
    } else if e.name == "malloc" {
      if args != [] {
        ExprFlat(fuel, args[0], env, st, t, p, quiet, true);
        var r := Value(EvalExpr(fuel, args[0], env, st, t, p));
        MallocFlat(ExprBlocks(fuel, args[0], env, st, t, p), st.heap, if r.Ok? then r.value else 0);
        assert ExprBlocks(fuel, args[0], env, st, t, p) + [] == ExprBlocks(fuel, args[0], env, st, t, p);
      }
    } else if e.name == "print_str" && |args| == 1 {
      ExprFlat(fuel, args[0], env, st, t, p, quiet, q);
      var ra := Value(EvalExpr(fuel, args[0], env, st, t, p));
      var first := ExprBlocks(fuel, args[0], env, st, t, p);
      CalmAppend(first, [], q);
      if ra.Ok? && Lookup(p.funcs, "strlen").Some? {
        var k := Lookup(p.funcs, "strlen").value;
        var rb := Value(EvalExpr(fuel, args[0], env, ra.st, t, p));
        ExprFlat(fuel, args[0], env, ra.st, t, p, quiet, q);
        var third := if rb.Ok? && fuel > 0 then FuncBlocks(fuel - 1, k, [rb.value], rb.st, p) else [];
        if rb.Ok? && fuel > 0 { FuncFlat(fuel - 1, k, [rb.value], rb.st, p, quiet, q); }
        CalmAppend(ExprBlocks(fuel, args[0], env, ra.st, t, p), third, q);
        CalmAppend(first, ExprBlocks(fuel, args[0], env, ra.st, t, p) + third, q);
      }
    } else {
      var ra := EvalArgs(fuel, args, env, st, t, p);
      ArgsFlat(fuel, args, env, st, t, p, quiet, q);
      var first := ArgsBlocks(fuel, args, env, st, t, p);
      CalmAppend(first, [], q);
      if Lookup(p.funcs, e.name).Some? && ra.Ok? && fuel > 0 {
        var k := Lookup(p.funcs, e.name).value;
        FuncFlat(fuel - 1, k, ra.value, ra.st, p, quiet, q);
        CalmAppend(first, FuncBlocks(fuel - 1, k, ra.value, ra.st, p), q);
      }
    }
  }

  /** A `malloc` behind a size that claimed nothing. */
  lemma {:induction false} MallocFlat(inner: seq<Block>, lo: Word, n: Word)
    requires Calm(inner, true)
    ensures Calm(inner, false) && Calm(inner + [Block(lo, n, Claims(inner))], false)
  {
    assert inner + [Block(lo, n, Claims(inner))] == [Block(lo, n, false)];
  }

  lemma {:induction false} ArgsFlat(fuel: nat, es: seq<Expr>, env: Env, st: Store, t: Symbols, p: Program,
      quiet: set<string>, q: bool)
    requires FlatProgram(p.funcs, quiet) && FlatArgs(es, p.funcs, quiet, q)
    ensures Calm(ArgsBlocks(fuel, es, env, st, t, p), q)
    decreases fuel, es, 1
  {
    hide EvalExpr, FlatProgram, FlatExpr, Calm;
    EmptyCalm(q);
    if es != [] {
      var r := Value(EvalExpr(fuel, es[0], env, st, t, p));
      ExprFlat(fuel, es[0], env, st, t, p, quiet, q);
      if r.Ok? { ArgsFlat(fuel, es[1..], env, r.st, t, p, quiet, q); }
      CalmAppend(ExprBlocks(fuel, es[0], env, st, t, p),
                 if r.Ok? then ArgsBlocks(fuel, es[1..], env, r.st, t, p) else [], q);
    }
  }

  lemma {:induction false} StmtFlat(fuel: nat, s: Stmt, env: Env, st: Store, t: Symbols, p: Program,
      quiet: set<string>, q: bool)
    requires FlatProgram(p.funcs, quiet) && FlatStmt(s, p.funcs, quiet, q)
    ensures Calm(StmtBlocks(fuel, s, env, st, t, p), q)
    decreases fuel, s, 2
  {
    hide EvalExpr, EvalAddr, EvalStmt, EvalStmts, FlatProgram, FlatExpr, Calm;
    EmptyCalm(q);
    match s
    case Decl(_, _, init, _) => if init.Some? { ExprFlat(fuel, init.value, env, st, t, p, quiet, q); }
    case Assign(_, e) => ExprFlat(fuel, e, env, st, t, p, quiet, q);
    case StoreLval(lval, e) =>
      var ra := EvalAddr(fuel, lval, env, st, t, p);
      ExprFlat(fuel, lval, env, st, t, p, quiet, q);
      if ra.Ok? { ExprFlat(fuel, e, env, ra.st, t, p, quiet, q); }
      CalmAppend(ExprBlocks(fuel, lval, env, st, t, p),
                 if ra.Ok? then ExprBlocks(fuel, e, env, ra.st, t, p) else [], q);
    case ExprStmt(e) => ExprFlat(fuel, e, env, st, t, p, quiet, q);
    case Return(e) => if e.Some? { ExprFlat(fuel, e.value, env, st, t, p, quiet, q); }
    case If(c, thn, els) =>
      var r := Value(EvalExpr(fuel, c, env, st, t, p));
      ExprFlat(fuel, c, env, st, t, p, quiet, q);
      CalmAppend(ExprBlocks(fuel, c, env, st, t, p), [], q);
      if r.Ok? {
        var branch := if r.value != 0 then thn else els;
        StmtsFlat(fuel, branch, env, r.st, t, p, quiet, q);
        CalmAppend(ExprBlocks(fuel, c, env, st, t, p), StmtsBlocks(fuel, branch, env, r.st, t, p), q);
      }
    case While(_, _) => WhileFlat(fuel, s, env, st, t, p, quiet, q);
    case For(init, _, _, _) =>
      var r := EvalStmt(fuel, init, env, st, t, p);
      StmtFlat(fuel, init, env, st, t, p, quiet, q);
      if r.Ok? && r.value.Next? { ForFlat(fuel, s, r.value.env, r.st, t, p, quiet, q); }
      CalmAppend(StmtBlocks(fuel, init, env, st, t, p),
                 if r.Ok? && r.value.Next? then ForBlocks(fuel, s, r.value.env, r.st, t, p) else [], q);
  }

  lemma {:induction false} WhileFlat(fuel: nat, s: Stmt, env: Env, st: Store, t: Symbols, p: Program,
      quiet: set<string>, q: bool)
    requires s.While? && FlatProgram(p.funcs, quiet) && FlatStmt(s, p.funcs, quiet, q)
    ensures Calm(StmtBlocks(fuel, s, env, st, t, p), q)
    decreases fuel, s, 1
  {
    hide EvalExpr, EvalStmts, FlatProgram, FlatExpr, FlatStmts, Calm;
    EmptyCalm(q);
    var r := Value(EvalExpr(fuel, s.cond, env, st, t, p));
    var first := ExprBlocks(fuel, s.cond, env, st, t, p);
    ExprFlat(fuel, s.cond, env, st, t, p, quiet, q);
    CalmAppend(first, [], q);
    if r.Ok? && r.value != 0 {
      var rb := EvalStmts(fuel, s.body, env, r.st, t, p);
      var second := StmtsBlocks(fuel, s.body, env, r.st, t, p);
      StmtsFlat(fuel, s.body, env, r.st, t, p, quiet, q);
      var more := rb.Ok? && rb.value.Next? && fuel > 0;
      if more { StmtFlat(fuel - 1, s, rb.value.env, rb.st, t, p, quiet, q); }
      var third := if more then StmtBlocks(fuel - 1, s, rb.value.env, rb.st, t, p) else [];
      CalmAppend(second, third, q);
      CalmAppend(first, second + third, q);
    }
  }

  lemma {:induction false} ForFlat(fuel: nat, s: Stmt, env: Env, st: Store, t: Symbols, p: Program,
      quiet: set<string>, q: bool)
    requires s.For? && FlatProgram(p.funcs, quiet) && FlatStmt(s, p.funcs, quiet, q)
    ensures Calm(ForBlocks(fuel, s, env, st, t, p), q)
    decreases fuel, s, 1
  {
    hide EvalExpr, EvalStmt, EvalStmts, FlatProgram, FlatExpr, FlatStmts, Calm;
    EmptyCalm(q);
    var r := Value(EvalExpr(fuel, s.cond, env, st, t, p));
    var first := ExprBlocks(fuel, s.cond, env, st, t, p);
    ExprFlat(fuel, s.cond, env, st, t, p, quiet, q);
    CalmAppend(first, [], q);
    if r.Ok? && r.value != 0 {
      var rb := EvalStmts(fuel, s.body, env, r.st, t, p);
      var second := StmtsBlocks(fuel, s.body, env, r.st, t, p);
      StmtsFlat(fuel, s.body, env, r.st, t, p, quiet, q);
      CalmAppend(second, [], q);
      if rb.Ok? && !rb.value.Ret? {
        var rest := PassBlocks(fuel, s, rb.value.env, rb.st, t, p);
        PassFlat(fuel, s, rb.value.env, rb.st, t, p, quiet, q);
        CalmAppend(second, rest, q);
        CalmAppend(first, second + rest, q);
      } else {
        CalmAppend(first, second + [], q);
      }
    }
  }

  lemma {:induction false} PassFlat(fuel: nat, s: Stmt, env: Env, st: Store, t: Symbols, p: Program,
      quiet: set<string>, q: bool)
    requires s.For? && FlatProgram(p.funcs, quiet) && FlatStmt(s, p.funcs, quiet, q)
    ensures Calm(PassBlocks(fuel, s, env, st, t, p), q)
    decreases fuel, s, 0
  {
    hide EvalStmt, FlatProgram, Calm;
    EmptyCalm(q);
    var rs := EvalStmt(fuel, s.step, env, st, t, p);
    StmtFlat(fuel, s.step, env, st, t, p, quiet, q);
    var more := rs.Ok? && rs.value.Next? && fuel > 0;
    if more { ForFlat(fuel - 1, s, rs.value.env, rs.st, t, p, quiet, q); }
    CalmAppend(StmtBlocks(fuel, s.step, env, st, t, p),
               if more then ForBlocks(fuel - 1, s, rs.value.env, rs.st, t, p) else [], q);
  }

  lemma {:induction false} StmtsFlat(fuel: nat, ss: seq<Stmt>, env: Env, st: Store, t: Symbols, p: Program,
      quiet: set<string>, q: bool)
    requires FlatProgram(p.funcs, quiet) && FlatStmts(ss, p.funcs, quiet, q)
    ensures Calm(StmtsBlocks(fuel, ss, env, st, t, p), q)
    decreases fuel, ss, 3
  {
    hide EvalStmt, FlatProgram, FlatStmt, Calm;
    EmptyCalm(q);
    if ss != [] {
      var r := EvalStmt(fuel, ss[0], env, st, t, p);
      StmtFlat(fuel, ss[0], env, st, t, p, quiet, q);
      var more := r.Ok? && r.value.Next?;
      if more { StmtsFlat(fuel, ss[1..], r.value.env, r.st, t, p, quiet, q); }
      CalmAppend(StmtBlocks(fuel, ss[0], env, st, t, p),
                 if more then StmtsBlocks(fuel, ss[1..], r.value.env, r.st, t, p) else [], q);
    }
  }

  lemma {:induction false} ArraysFlat(t: Symbols, heap: Word)
    ensures !Nested(ArrayBlocks(t, heap))
    ensures NoArrays(t) ==> ArrayBlocks(t, heap) == []
  {
    if t != [] {
      assert forall i | 0 <= i < |t[1..]| :: t[1..][i] == t[i + 1];
      match t[0].value.arrLen
      case None => ArraysFlat(t[1..], heap);
      case Some(n) =>
        var bytes := Wrap(n * ElemSize(t[0].value.kind));
        ArraysFlat(t[1..], Bump(heap, bytes));
        SeparatedParts([Block(heap, bytes, false)], ArrayBlocks(t[1..], Bump(heap, bytes)));
    }
  }

  lemma {:induction false} FuncFlat(fuel: nat, k: nat, args: seq<Word>, st: Store, p: Program, quiet: set<string>,
      q: bool)
    requires FlatProgram(p.funcs, quiet) && k < |p.funcs| && (q ==> p.funcs[k].name in quiet)
    ensures Calm(FuncBlocks(fuel, k, args, st, p), q)
    decreases fuel, p.funcs[k].body, 4
  {
    hide EvalStmts, FlatStmts, Nested;
    var f := p.funcs[k];
    EmptyCalm(q);
    if |args| == |f.params| {
      var t := SymbolsOf(f);
      var (env, st1) := AllocArrays(t, EntryEnv(f.params, args, t), st);
      var strict := f.name in quiet;
      ArraysFlat(t, st.heap);
      StmtsFlat(fuel, f.body, env, st1, t, p, quiet, strict);
      CalmAppend(ArrayBlocks(t, st.heap), StmtsBlocks(fuel, f.body, env, st1, t, p), strict);
    }
  }

  /** A program that passes the check hands out separate blocks in every run: any function, any
      arguments, any store, any amount of fuel, recursion included and however the run ends. */
  lemma {:induction false} FlatProgramsSeparate(fuel: nat, k: nat, args: seq<Word>, st: Store, p: Program,
      quiet: set<string>)
    requires FlatProgram(p.funcs, quiet) && k < |p.funcs|
    ensures var bs := FuncBlocks(fuel, k, args, st, p);
            !Nested(bs)
            && (EvalFunc(fuel, k, args, st, p) != Wrong && st.heap % 4 == 0 && InRange(bs) ==>
                Separated(bs)
                && forall i :: 0 <= i < |bs| ==>
                     st.heap <= bs[i].base && bs[i].base + bs[i].size <= EndHeap(EvalFunc(fuel, k, args, st, p)))
  {
    hide EvalFunc, FuncBlocks, FlatProgram, Separated, Nested;
    var bs := FuncBlocks(fuel, k, args, st, p);
    FuncFlat(fuel, k, args, st, p, quiet, false);
    if EvalFunc(fuel, k, args, st, p) != Wrong && st.heap % 4 == 0 && InRange(bs) {
      BlocksSeparated(fuel, k, args, st, p);
    }
  }

  /** `malloc(malloc(4))` hands out the same address twice. */
  lemma {:induction false} NestedMallocOverlaps(env: Env, st: Store, t: Symbols, p: Program)
    requires st.heap == 32768
    ensures var e := Call("malloc", [Call("malloc", [Int(4)])]);
            var bs := ExprBlocks(0, e, env, st, t, p);
            bs == [Block(32768, 4, false), Block(32768, 32768, true)] && InRange(bs) && !Separated(bs)
  {
    var inner := Call("malloc", [Int(4)]);
    var e := Call("malloc", [inner]);
    assert EvalExpr(0, inner, env, st, t, p) == Ok(Some(32768), st.(heap := 32772));
    var one := ExprBlocks(0, inner, env, st, t, p);
    assert one == CallBlocks(0, inner, env, st, t, p) == [Block(32768, 4, false)];
    assert one[0].size > 0;
    var bs := ExprBlocks(0, e, env, st, t, p);
    assert bs == CallBlocks(0, e, env, st, t, p) == one + [Block(32768, 32768, true)];
    assert bs[0].base + bs[0].size > bs[1].base;
  }
}
