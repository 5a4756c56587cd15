/** The code generator: methods that push bytes, proved to emit exactly the encoding of the
    instructions of `CcCode`. */
module CcGen {
  import opened Bytes
  import opened SortedTable
  import opened CcAst
  import opened CcCode
  import opened Leb128
  import opened Results
  import CcSource
  import W = Wasm
  import CcCorrect

  const DATA_BASE := 1024

  // ----- what the generator accepts -----

  /** The generator reports no error. Void built-ins used as values pass this test. */
  predicate Accepts(e: Expr, l: Locals, funcs: map<string, (nat, nat)>)
    decreases e
  {
    match e
    case Int(_) => true
    case Str(_) => true
    case Var(x) => Get(l, x).Some?
    case Bin(_, a, b) => Accepts(a, l, funcs) && Accepts(b, l, funcs)
    case Neg(a) => Accepts(a, l, funcs)
    case Not(a) => Accepts(a, l, funcs)
    case Index(a, i) => Accepts(a, l, funcs) && Accepts(i, l, funcs)
    case Deref(a) => Accepts(a, l, funcs)
    case Call(name, args) =>
      if name == "print" then |args| == 1 && args[0].Str?
      else if name == "print_int" || name == "putchar" || name == "malloc" then
        |args| == 1 && Accepts(args[0], l, funcs)
      else if name == "free" then args == [] || Accepts(args[0], l, funcs)
      else if name == "print_str" && |args| == 1 then Accepts(args[0], l, funcs)
      else name in funcs && |args| == funcs[name].1 && AcceptsArgs(args, l, funcs)
  }

  predicate AcceptsArgs(es: seq<Expr>, l: Locals, funcs: map<string, (nat, nat)>)
    decreases es
  {
    es == [] || (Accepts(es[0], l, funcs) && AcceptsArgs(es[1..], l, funcs))
  }

  predicate AcceptsStmt(s: Stmt, l: Locals, funcs: map<string, (nat, nat)>)
    decreases s
  {
    match s
    case Decl(_, _, init, _) => init.Some? ==> Accepts(init.value, l, funcs)
    case Assign(x, e) => Accepts(e, l, funcs) && Get(l, x).Some?
    case StoreLval(lval, e) => IsLval(lval) && Accepts(lval, l, funcs) && Accepts(e, l, funcs)
    case ExprStmt(e) => Accepts(e, l, funcs)
    case Return(e) => e.Some? ==> Accepts(e.value, l, funcs)
    case If(c, thn, els) =>
      Accepts(c, l, funcs) &&
      AcceptsStmts(thn, l, funcs) &&
      AcceptsStmts(els, l, funcs)
    case While(c, body) =>
      Accepts(c, l, funcs) && AcceptsStmts(body, l, funcs)
    case For(init, c, step, body) =>
      AcceptsStmt(init, l, funcs) && Accepts(c, l, funcs) && AcceptsStmt(step, l, funcs) &&
      AcceptsStmts(body, l, funcs)
  }

  predicate AcceptsStmts(ss: seq<Stmt>, l: Locals, funcs: map<string, (nat, nat)>)
    decreases ss
  {
    ss == [] || (AcceptsStmt(ss[0], l, funcs) && AcceptsStmts(ss[1..], l, funcs))
  }

  predicate AcceptsFunc(f: Func, funcs: map<string, (nat, nat)>) {
    AcceptsStmts(f.body, AllocOf(f).locals, funcs)
  }

  // ----- string literals in the generated code -----

  /** Every literal the code of the expression mentions has an offset. */
  predicate Known(e: Expr, strs: set<seq<Byte>>)
    decreases e
  {
    match e
    case Str(s) => s in strs
    case Bin(_, a, b) => Known(a, strs) && Known(b, strs)
    case Neg(a) => Known(a, strs)
    case Not(a) => Known(a, strs)
    case Index(a, i) => Known(a, strs) && Known(i, strs)
    case Deref(a) => Known(a, strs)
    case Call(name, args) =>
      if name == "free" then args == [] || Known(args[0], strs)
      else KnownArgs(args, strs)
    case _ => true
  }

  predicate KnownArgs(es: seq<Expr>, strs: set<seq<Byte>>)
    decreases es
  {
    es == [] || (Known(es[0], strs) && KnownArgs(es[1..], strs))
  }

  predicate KnownStmt(s: Stmt, strs: set<seq<Byte>>)
    decreases s
  {
    match s
    case Decl(_, _, init, _) => init.Some? ==> Known(init.value, strs)
    case Assign(_, e) => Known(e, strs)
    case StoreLval(lval, e) => Known(lval, strs) && Known(e, strs)
    case ExprStmt(e) => Known(e, strs)
    case Return(e) => e.Some? ==> Known(e.value, strs)
    case If(c, thn, els) =>
      Known(c, strs) &&
      KnownStmts(thn, strs) &&
      KnownStmts(els, strs)
    case While(c, body) => Known(c, strs) && KnownStmts(body, strs)
    case For(init, c, step, body) =>
      KnownStmt(init, strs) && Known(c, strs) && KnownStmt(step, strs) &&
      KnownStmts(body, strs)
  }

  predicate KnownStmts(ss: seq<Stmt>, strs: set<seq<Byte>>)
    decreases ss
  {
    ss == [] || (KnownStmt(ss[0], strs) && KnownStmts(ss[1..], strs))
  }

  /** `h` knows every literal of `g`, at the same offset. */
  ghost predicate Grows(g: Globals, h: Globals) {
    g.funcs == h.funcs && forall s | s in g.strs :: s in h.strs && h.strs[s] == g.strs[s]
  }

  /** Later literals do not change code already emitted. */
  lemma {:induction false} ExprStable(e: Expr, l: Locals, g: Globals, h: Globals)
    requires Grows(g, h) && Known(e, g.strs.Keys)
    ensures Known(e, h.strs.Keys) && ExprCode(e, l, g) == ExprCode(e, l, h)
    ensures IsLval(e) ==> AddrCode(e, l, g) == AddrCode(e, l, h)
    decreases e, 1
  {
    match e
    case Bin(_, a, b) => ExprStable(a, l, g, h); ExprStable(b, l, g, h);
    case Neg(a) => ExprStable(a, l, g, h);
    case Not(a) => ExprStable(a, l, g, h);
    case Index(a, i) => ExprStable(a, l, g, h); ExprStable(i, l, g, h);
    case Deref(a) => ExprStable(a, l, g, h);
    case Call(name, args) => CallStable(e, l, g, h);
    case _ =>
  }

  lemma {:induction false} CallStable(e: Expr, l: Locals, g: Globals, h: Globals)
    requires Grows(g, h) && e.Call? && Known(e, g.strs.Keys)
    ensures Known(e, h.strs.Keys) && ExprCode(e, l, g) == ExprCode(e, l, h)
    decreases e, 0
  {
    if e.name == "free" {
      if e.args != [] { ExprStable(e.args[0], l, g, h); }
    } else {
      ArgsStable(e.args, l, g, h);
      if |e.args| == 1 { ExprStable(e.args[0], l, g, h); }
    }
  }

  lemma {:induction false} ArgsStable(es: seq<Expr>, l: Locals, g: Globals, h: Globals)
    requires Grows(g, h) && KnownArgs(es, g.strs.Keys)
    ensures KnownArgs(es, h.strs.Keys) && ArgsCode(es, l, g) == ArgsCode(es, l, h)
    decreases es, 0
  {
    if es != [] {
      ExprStable(es[0], l, g, h);
      ArgsStable(es[1..], l, g, h);
    }
  }

  lemma {:induction false} StmtStable(s: Stmt, l: Locals, g: Globals, h: Globals)
    requires Grows(g, h) && KnownStmt(s, g.strs.Keys)
    ensures KnownStmt(s, h.strs.Keys) && StmtCode(s, l, g) == StmtCode(s, l, h)
    decreases s, 0
  {
    match s
    case Decl(_, _, init, _) => if init.Some? { ExprStable(init.value, l, g, h); }
    case Assign(_, e) => ExprStable(e, l, g, h);
    case StoreLval(lval, e) => ExprStable(lval, l, g, h); ExprStable(e, l, g, h);
    case ExprStmt(e) => ExprStable(e, l, g, h);
    case Return(e) => if e.Some? { ExprStable(e.value, l, g, h); }
    case If(c, thn, els) => ExprStable(c, l, g, h); StmtsStable(thn, l, g, h); StmtsStable(els, l, g, h);
    case While(c, body) => ExprStable(c, l, g, h); StmtsStable(body, l, g, h);
    case For(init, c, step, body) =>
      StmtStable(init, l, g, h);
      ExprStable(c, l, g, h);
      StmtStable(step, l, g, h);
      StmtsStable(body, l, g, h);
  }

  lemma {:induction false} StmtsStable(ss: seq<Stmt>, l: Locals, g: Globals, h: Globals)
    requires Grows(g, h) && KnownStmts(ss, g.strs.Keys)
    ensures KnownStmts(ss, h.strs.Keys) && StmtsCode(ss, l, g) == StmtsCode(ss, l, h)
    decreases ss, 1
  {
    if ss != [] {
      StmtStable(ss[0], l, g, h);
      StmtsStable(ss[1..], l, g, h);
    }
  }

  lemma {:induction false} AcceptsArgsAt(es: seq<Expr>, i: nat, l: Locals, funcs: map<string, (nat, nat)>)
    requires i < |es| && AcceptsArgs(es[..i], l, funcs)
    ensures AcceptsArgs(es[..i + 1], l, funcs) <==> Accepts(es[i], l, funcs)
    ensures AcceptsArgs(es, l, funcs) ==> Accepts(es[i], l, funcs)
    decreases i
  {
    assert es[..i + 1][1..] == es[1..][..i];
    if i > 0 {
      assert es[..i][1..] == es[1..][..i - 1];
      AcceptsArgsAt(es[1..], i - 1, l, funcs);
    }
  }

  lemma {:induction false} AcceptsStmtsAt(ss: seq<Stmt>, i: nat, l: Locals, funcs: map<string, (nat, nat)>)
    requires i < |ss| && AcceptsStmts(ss[..i], l, funcs)
    ensures AcceptsStmts(ss[..i + 1], l, funcs) <==> AcceptsStmt(ss[i], l, funcs)
    ensures AcceptsStmts(ss, l, funcs) ==> AcceptsStmt(ss[i], l, funcs)
    decreases i
  {
    assert ss[..i + 1][1..] == ss[1..][..i];
    if i > 0 {
      assert ss[..i][1..] == ss[1..][..i - 1];
      AcceptsStmtsAt(ss[1..], i - 1, l, funcs);
    }
  }

  lemma {:induction false} KnownArgsSnoc(es: seq<Expr>, e: Expr, strs: set<seq<Byte>>)
    requires KnownArgs(es, strs) && Known(e, strs)
    ensures KnownArgs(es + [e], strs)
    decreases |es|
  {
    if es != [] {
      assert (es + [e])[1..] == es[1..] + [e];
      KnownArgsSnoc(es[1..], e, strs);
    }
  }

  lemma {:induction false} KnownStmtsSnoc(ss: seq<Stmt>, s: Stmt, strs: set<seq<Byte>>)
    requires KnownStmts(ss, strs) && KnownStmt(s, strs)
    ensures KnownStmts(ss + [s], strs)
    decreases |ss|
  {
    if ss != [] {
      assert (ss + [s])[1..] == ss[1..] + [s];
      KnownStmtsSnoc(ss[1..], s, strs);
    }
  }

  lemma {:induction false} ArgsSnoc(es: seq<Expr>, e: Expr, l: Locals, g: Globals)
    ensures ArgsCode(es + [e], l, g) == ArgsCode(es, l, g) + ExprCode(e, l, g)
    decreases |es|
  {
    if es == [] {
      assert es + [e] == [e];
    } else {
      assert (es + [e])[1..] == es[1..] + [e];
      ArgsSnoc(es[1..], e, l, g);
    }
  }

  lemma {:induction false} StmtsSnoc(ss: seq<Stmt>, s: Stmt, l: Locals, g: Globals)
    ensures StmtsCode(ss + [s], l, g) == StmtsCode(ss, l, g) + StmtCode(s, l, g)
    decreases |ss|
  {
    if ss == [] {
      assert ss + [s] == [s];
    } else {
      assert (ss + [s])[1..] == ss[1..] + [s];
      StmtsSnoc(ss[1..], s, l, g);
    }
  }

  // ----- the generator -----

  /** The data segment and the table after interning the literals in order. */
  function DataOf(order: seq<seq<Byte>>): seq<Byte> {
    if order == [] then [] else DataOf(order[..|order| - 1]) + order[|order| - 1] + [0]
  }

  function OffsetsOf(order: seq<seq<Byte>>): map<seq<Byte>, nat> {
    if order == [] then map[]
    else
      var n := |order| - 1;
      OffsetsOf(order[..n])[order[n] := DATA_BASE + |DataOf(order[..n])|]
  }

  function StringsOf(order: seq<seq<Byte>>): map<seq<Byte>, (nat, nat)> {
    if order == [] then map[]
    else
      var n := |order| - 1;
      StringsOf(order[..n])[order[n] := (DATA_BASE + |DataOf(order[..n])|, |order[n]|)]
  }

  lemma {:induction false} StringsOffsets(order: seq<seq<Byte>>, s: seq<Byte>)
    ensures s in StringsOf(order) <==> s in OffsetsOf(order)
    ensures s in StringsOf(order) ==> StringsOf(order)[s] == (OffsetsOf(order)[s], |s|)
  {
    if order != [] {
      StringsOffsets(order[..|order| - 1], s);
    }
  }

  /** Every literal lies NUL-terminated at its offset in the data segment, in range. */
  lemma {:induction false} LiteralAt(order: seq<seq<Byte>>, s: seq<Byte>)
    requires s in OffsetsOf(order)
    ensures var i := OffsetsOf(order)[s] - DATA_BASE;
            0 <= i && i + |s| + 1 <= |DataOf(order)| && DataOf(order)[i..i + |s| + 1] == s + [0]
  {
    var n := |order| - 1;
    var before := DataOf(order[..n]);
    assert DataOf(order) == before + (order[n] + [0]);
    if s != order[n] {
      LiteralAt(order[..n], s);
      var i := OffsetsOf(order)[s] - DATA_BASE;
      assert DataOf(order)[i..i + |s| + 1] == before[i..i + |s| + 1];
    } else {
      assert DataOf(order)[|before|..] == s + [0];
    }
  }

  function OpByte(op: BinOp): (b: Byte)
    ensures b == W.Opcode(OpOf(op))
  {
    match op
    case Add => 0x6a
    case Sub => 0x6b
    case Mul => 0x6c
    case Div => 0x6d
    case Rem => 0x6f
    case Eq => 0x46
    case Ne => 0x47
    case Lt => 0x48
    case Gt => 0x4a
    case Le => 0x4c
    case Ge => 0x4e
    case AndAnd => 0x71
    case OrOr => 0x72
  }

  /** Append one instruction to encoded code. */
  lemma {:induction false} Emit(before: seq<Byte>, code: seq<W.Instr>, i: W.Instr)
    ensures before + W.Encode(code + [i]) == before + W.Encode(code) + W.EncodeInstr(i)
  {
    W.EncodeAppend(code, [i]);
    assert W.Encode([i]) == W.EncodeInstr(i) + W.Encode([]);
  }

  lemma {:induction false} EmitAll(before: seq<Byte>, code: seq<W.Instr>, more: seq<W.Instr>)
    ensures before + W.Encode(code + more) == before + W.Encode(code) + W.Encode(more)
  {
    W.EncodeAppend(code, more);
  }

  lemma {:induction false} EncodeCons(i: W.Instr, rest: seq<W.Instr>)
    ensures W.Encode([i] + rest) == W.EncodeInstr(i) + W.Encode(rest)
  {
    assert ([i] + rest)[1..] == rest;
  }

  lemma {:induction false} MaskBytes(t1: seq<W.Instr>)
    requires t1 == [W.Num(W.I32And)] + ([W.GlobalSet(0)] + [])
    ensures W.Encode(t1) == [0x71, 0x24, 0x00]
  {
    EncodeCons(W.GlobalSet(0), []);
    EncodeCons(W.Num(W.I32And), [W.GlobalSet(0)] + []);
  }

  lemma {:induction false} BumpTailBytes()
    ensures W.Encode(BUMP_TAIL) == [0x6a, 0x41, 0x03, 0x6a, 0x41, 0x7c, 0x71, 0x24, 0x00]
  {
    var t1 := [W.Num(W.I32And)] + ([W.GlobalSet(0)] + []);
    var t2 := [W.Num(W.I32Add)] + ([W.Const(-4)] + t1);
    assert BUMP_TAIL == [W.Num(W.I32Add)] + ([W.Const(3)] + t2);
    MaskBytes(t1);
    EncodeCons(W.Const(-4), t1);
    EncodeCons(W.Num(W.I32Add), [W.Const(-4)] + t1);
    EncodeCons(W.Const(3), t2);
    EncodeCons(W.Num(W.I32Add), [W.Const(3)] + t2);
  }

  class Gen {
    var funcs: map<string, (nat, nat)>           // name -> (index, arity)
    var data: seq<Byte>
    var strings: map<seq<Byte>, (nat, nat)>      // literal -> (offset, length)
    var dataOff: nat
    ghost var order: seq<seq<Byte>>              // the literals in the order they were met

    ghost predicate Valid()
      reads this
    {
      && dataOff == DATA_BASE + |data|
      && data == DataOf(order)
      && strings == StringsOf(order)
    }

    ghost function View(): Globals
      reads this
    {
      Globals(funcs, OffsetsOf(order))
    }

    /** Later states keep the literals of earlier ones. */
    ghost predicate Since(g: Globals)
      reads this
    {
      Valid() && Grows(g, View())
    }

    constructor ()
      ensures Valid() && View() == Globals(map[], map[]) && data == [] && strings == map[]
    {
      funcs := map[];
      data := [];
      strings := map[];
      order := [];
      dataOff := DATA_BASE;
    }

    /** Offset and length of a literal, laid down in the data segment on first use. */
    method Intern(s: seq<Byte>) returns (off: nat, len: nat)
      requires Valid()
      modifies this
      ensures Since(old(View()))
      ensures s in View().strs && View().strs[s] == off && len == |s|
      ensures order == if s in old(View()).strs then old(order) else old(order) + [s]
    {
      StringsOffsets(order, s);
      if s in strings {
        return strings[s].0, strings[s].1;
      }
      off := dataOff;
      data := data + s + [0];
      dataOff := dataOff + |s| + 1;
      strings := strings[s := (off, |s|)];
      len := |s|;
      ghost var before := order;
      order := order + [s];
      assert order[..|order| - 1] == before;
    }

    method BumpAlloc(bytes: nat, out: ByteVec)
      modifies out
      ensures out.bytes ==
              old(out.bytes) + W.Encode([W.GlobalGet(0), W.GlobalGet(0), W.Const(bytes)] + BUMP_TAIL)
    {
      ghost var start := out.bytes;
      out.Push(0x23); out.Uleb(0);
      out.Push(0x23); out.Uleb(0);
      assert out.bytes == start + W.Encode([W.GlobalGet(0), W.GlobalGet(0)]);
      out.I32Const(bytes);
      Emit(start, [W.GlobalGet(0), W.GlobalGet(0)], W.Const(bytes));
      assert [W.GlobalGet(0), W.GlobalGet(0)] + [W.Const(bytes)] == [W.GlobalGet(0), W.GlobalGet(0), W.Const(bytes)];
      EmitAll(start, [W.GlobalGet(0), W.GlobalGet(0), W.Const(bytes)], BUMP_TAIL);
      BumpBytes(out);
    }

    method BumpBytes(out: ByteVec)
      modifies out
      ensures out.bytes == old(out.bytes) + W.Encode(BUMP_TAIL)
    {
      ghost var start := out.bytes;
      out.Push(0x6a);
      out.I32Const(3);
      out.Push(0x6a);
      out.I32Const(-4);
      out.Push(0x71);
      out.Push(0x24); out.Uleb(0);
      BumpTailBytes();
      assert out.bytes == start + [0x6a, 0x41, 0x03, 0x6a, 0x41, 0x7c, 0x71, 0x24, 0x00];
    }

    /** Emit an expression; the result says whether it leaves a value on the stack. */
    method GenExpr(e: Expr, l: Locals, out: ByteVec) returns (r: Result<bool>)
      requires Valid()
      modifies this, out
      ensures Since(old(View()))
      ensures r.Ok? <==> Accepts(e, l, funcs)
      ensures r.Ok? ==> r.value == Pushes(e) && Known(e, View().strs.Keys)
      ensures r.Ok? ==> out.bytes == old(out.bytes) + W.Encode(ExprCode(e, l, View()))
      decreases e, 3
    {
      ghost var start := out.bytes;
      match e
      case Int(v) =>
        out.I32Const(v);
        Emit(start, [], W.Const(v));
        r := Ok(true);
      case Str(s) =>
        var off, _ := Intern(s);
        out.I32Const(off);
        Emit(start, [], W.Const(off));
        r := Ok(true);
      case Var(x) =>
        var vi := Get(l, x);
        if vi.None? { return Err; }
        out.Push(0x20);
        out.Uleb(vi.value.slot);
        Emit(start, [], W.LocalGet(vi.value.slot));
        r := Ok(true);
      case Bin(op, a, b) => r := GenBin(e, l, out);
      case Neg(_) => r := GenNeg(e, l, out);
      case Not(_) => r := GenNot(e, l, out);
      case Index(_, _) => r := GenLoad(e, l, out);
      case Deref(_) => r := GenLoad(e, l, out);
      case Call(_, _) => r := GenCall(e, l, out);
    }

    method GenNeg(e: Expr, l: Locals, out: ByteVec) returns (r: Result<bool>)
      requires Valid() && e.Neg?
      modifies this, out
      ensures Since(old(View()))
      ensures r.Ok? <==> Accepts(e, l, funcs)
      ensures r.Ok? ==> r.value == Pushes(e) && Known(e, View().strs.Keys)
      ensures r.Ok? ==> out.bytes == old(out.bytes) + W.Encode(ExprCode(e, l, View()))
      decreases e, 0
    {
      ghost var start := out.bytes;
      out.I32Const(0);
      Emit(start, [], W.Const(0));
      var ra := GenExpr(e.arg, l, out);
      if ra.Err? { return Err; }
      out.Push(0x6b);
      EmitAll(start, [W.Const(0)], ExprCode(e.arg, l, View()));
      Emit(start, [W.Const(0)] + ExprCode(e.arg, l, View()), W.Num(W.I32Sub));
      r := Ok(true);
    }

    method GenNot(e: Expr, l: Locals, out: ByteVec) returns (r: Result<bool>)
      requires Valid() && e.Not?
      modifies this, out
      ensures Since(old(View()))
      ensures r.Ok? <==> Accepts(e, l, funcs)
      ensures r.Ok? ==> r.value == Pushes(e) && Known(e, View().strs.Keys)
      ensures r.Ok? ==> out.bytes == old(out.bytes) + W.Encode(ExprCode(e, l, View()))
      decreases e, 0
    {
      ghost var start := out.bytes;
      var ra := GenExpr(e.arg, l, out);
      if ra.Err? { return Err; }
      out.Push(0x45);
      Emit(start, ExprCode(e.arg, l, View()), W.Eqz);
      r := Ok(true);
    }

    method GenBin(e: Expr, l: Locals, out: ByteVec) returns (r: Result<bool>)
      requires Valid() && e.Bin?
      modifies this, out
      ensures Since(old(View()))
      ensures r.Ok? <==> Accepts(e, l, funcs)
      ensures r.Ok? ==> r.value == Pushes(e) && Known(e, View().strs.Keys)
      ensures r.Ok? ==> out.bytes == old(out.bytes) + W.Encode(ExprCode(e, l, View()))
      decreases e, 0
    {
      ghost var start := out.bytes;
      var ra := GenExpr(e.left, l, out);
      if ra.Err? { return Err; }
      ghost var g1 := View();
      var rb := GenExpr(e.right, l, out);
      if rb.Err? { return Err; }
      var opcode := OpByte(e.op);
      out.Push(opcode);
      ExprStable(e.left, l, g1, View());
      EmitAll(start, ExprCode(e.left, l, View()), ExprCode(e.right, l, View()));
      Emit(start, ExprCode(e.left, l, View()) + ExprCode(e.right, l, View()), W.Num(OpOf(e.op)));
      r := Ok(true);
    }

    /** Emit the address of an lvalue; the result is the kind of its elements. */
    method GenAddr(e: Expr, l: Locals, out: ByteVec) returns (r: Result<Kind>)
      requires Valid()
      modifies this, out
      ensures Since(old(View()))
      ensures r.Ok? <==> IsLval(e) && Accepts(e, l, funcs)
      ensures r.Ok? ==> r.value == LvalKind(e, DeclsIn(l)) && Known(e, View().strs.Keys)
      ensures r.Ok? ==> out.bytes == old(out.bytes) + W.Encode(AddrCode(e, l, View()))
      decreases e, 0
    {
      ghost var start := out.bytes;
      match e
      case Index(base, idx) =>
        var bk := ExprKind(base, DeclsIn(l));
        var rb := GenExpr(base, l, out);
        if rb.Err? { return Err; }
        ghost var g1 := View();
        var ri := GenExpr(idx, l, out);
        if ri.Err? { return Err; }
        ExprStable(base, l, g1, View());
        ghost var code := ExprCode(base, l, View()) + ExprCode(idx, l, View());
        EmitAll(start, ExprCode(base, l, View()), ExprCode(idx, l, View()));
        GenScale(ElemSize(bk), bk, out);
        EmitAll(start, code, ScaleCode(bk));
        r := Ok(bk);
      case Deref(p) =>
        var pk := ExprKind(p, DeclsIn(l));
        var rp := GenExpr(p, l, out);
        if rp.Err? { return Err; }
        r := Ok(pk);
      case _ => r := Err;
    }

    method GenScale(es: nat, ghost k: Kind, out: ByteVec)
      requires es == ElemSize(k)
      modifies out
      ensures out.bytes == old(out.bytes) + W.Encode(ScaleCode(k))
    {
      ghost var start := out.bytes;
      if es != 1 {
        out.I32Const(es);
        out.Push(0x6c);
        Emit(start, [], W.Const(es));
        Emit(start, [W.Const(es)], W.Num(W.I32Mul));
        assert [W.Const(es)] + [W.Num(W.I32Mul)] == [W.Const(es), W.Num(W.I32Mul)];
      }
      out.Push(0x6a);
      Emit(start, if es != 1 then [W.Const(es), W.Num(W.I32Mul)] else [], W.Num(W.I32Add));
    }

    method GenLoad(e: Expr, l: Locals, out: ByteVec) returns (r: Result<bool>)
      requires Valid() && IsLval(e)
      modifies this, out
      ensures Since(old(View()))
      ensures r.Ok? <==> Accepts(e, l, funcs)
      ensures r.Ok? ==> r.value == Pushes(e) && Known(e, View().strs.Keys)
      ensures r.Ok? ==> out.bytes == old(out.bytes) + W.Encode(ExprCode(e, l, View()))
      decreases e, 1
    {
      ghost var start := out.bytes;
      var rk := GenAddr(e, l, out);
      if rk.Err? { return Err; }
      EmitLoad(rk.value, out);
      Emit(start, AddrCode(e, l, View()), LoadOp(rk.value));
      r := Ok(true);
    }

    static method EmitLoad(k: Kind, out: ByteVec)
      modifies out
      ensures out.bytes == old(out.bytes) + W.EncodeInstr(LoadOp(k))
    {
      if ElemSize(k) == 1 {
        out.Push(0x2d);
        out.Push(0x00);
        out.Push(0x00);
      } else {
        out.Push(0x28);
        out.Push(0x02);
        out.Push(0x00);
      }
    }

    static method EmitStore(k: Kind, out: ByteVec)
      modifies out
      ensures out.bytes == old(out.bytes) + W.EncodeInstr(StoreOp(k))
    {
      if ElemSize(k) == 1 {
        out.Push(0x3a);
        out.Push(0x00);
        out.Push(0x00);
      } else {
        out.Push(0x36);
        out.Push(0x02);
        out.Push(0x00);
      }
    }

    method GenCall(e: Expr, l: Locals, out: ByteVec) returns (r: Result<bool>)
      requires Valid() && e.Call?
      modifies this, out
      ensures Since(old(View()))
      ensures r.Ok? <==> Accepts(e, l, funcs)
      ensures r.Ok? ==> r.value == Pushes(e) && Known(e, View().strs.Keys)
      ensures r.Ok? ==> out.bytes == old(out.bytes) + W.Encode(ExprCode(e, l, View()))
      decreases e, 2
    {
      var name, args := e.name, e.args;
      if name == "print" {
        if |args| == 1 && args[0].Str? {
          GenPrint(args[0].text, out);
          return Ok(false);
        }
        return Err;
      }
      if name == "print_int" || name == "putchar" {
        if |args| != 1 { return Err; }
        r := GenPrintInt(args[0], l, out);
        return;
      }
      if name == "malloc" {
        if |args| != 1 { return Err; }
        r := GenMalloc(args[0], l, out);
        return;
      }
      if name == "free" {
        r := GenFree(e, l, out);
        return;
      }
      if name == "print_str" && |args| == 1 {
        r := GenPrintStr(e, l, out);
        return;
      }
      r := GenUserCall(e, l, out);
    }

    method GenPrint(s: seq<Byte>, out: ByteVec)
      requires Valid()
      modifies this, out
      ensures Since(old(View())) && s in View().strs
      ensures out.bytes ==
              old(out.bytes) + W.Encode([W.Const(StrAt(View(), s)), W.Const(|s|), W.Call(0)])
    {
      ghost var start := out.bytes;
      var off, len := Intern(s);
      out.I32Const(off);
      out.I32Const(len);
      out.Push(0x10);
      out.Uleb(0);
      Emit(start, [], W.Const(off));
      Emit(start, [W.Const(off)], W.Const(len));
      assert [W.Const(off)] + [W.Const(len)] == [W.Const(off), W.Const(len)];
      Emit(start, [W.Const(off), W.Const(len)], W.Call(0));
      assert [W.Const(off), W.Const(len)] + [W.Call(0)] == [W.Const(off), W.Const(len), W.Call(0)];
    }

    method GenPrintInt(a: Expr, l: Locals, out: ByteVec) returns (r: Result<bool>)
      requires Valid()
      modifies this, out
      ensures Since(old(View()))
      ensures r.Ok? <==> Accepts(a, l, funcs)
      ensures r.Ok? ==> !r.value && Known(a, View().strs.Keys)
      ensures r.Ok? ==> out.bytes == old(out.bytes) + W.Encode(ExprCode(a, l, View()) + [W.Call(1)])
      decreases a, 4
    {
      ghost var start := out.bytes;
      var ra := GenExpr(a, l, out);
      if ra.Err? { return Err; }
      out.Push(0x10);
      out.Uleb(1);
      Emit(start, ExprCode(a, l, View()), W.Call(1));
      r := Ok(false);
    }

    method GenMalloc(a: Expr, l: Locals, out: ByteVec) returns (r: Result<bool>)
      requires Valid()
      modifies this, out
      ensures Since(old(View()))
      ensures r.Ok? <==> Accepts(a, l, funcs)
      ensures r.Ok? ==> r.value && Known(a, View().strs.Keys)
      ensures r.Ok? ==>
              out.bytes == old(out.bytes) +
                W.Encode([W.GlobalGet(0), W.GlobalGet(0)] + ExprCode(a, l, View()) + BUMP_TAIL)
      decreases a, 4
    {
      ghost var start := out.bytes;
      out.Push(0x23); out.Uleb(0);
      out.Push(0x23); out.Uleb(0);
      assert out.bytes == start + W.Encode([W.GlobalGet(0), W.GlobalGet(0)]);
      var ra := GenExpr(a, l, out);
      if ra.Err? { return Err; }
      EmitAll(start, [W.GlobalGet(0), W.GlobalGet(0)], ExprCode(a, l, View()));
      BumpBytes(out);
      EmitAll(start, [W.GlobalGet(0), W.GlobalGet(0)] + ExprCode(a, l, View()), BUMP_TAIL);
      r := Ok(true);
    }

    /** `free` evaluates its first argument for effect and is worth zero. */
    method GenFree(e: Expr, l: Locals, out: ByteVec) returns (r: Result<bool>)
      requires Valid() && e.Call? && e.name == "free"
      modifies this, out
      ensures Since(old(View()))
      ensures r.Ok? <==> Accepts(e, l, funcs)
      ensures r.Ok? ==> r.value && Known(e, View().strs.Keys)
      ensures r.Ok? ==> out.bytes == old(out.bytes) + W.Encode(ExprCode(e, l, View()))
      decreases e, 0
    {
      ghost var start := out.bytes;
      if e.args != [] {
        var ra := GenExpr(e.args[0], l, out);
        if ra.Err? { return Err; }
        if ra.value {
          out.Push(0x1a);
          Emit(start, ExprCode(e.args[0], l, View()), W.Drop);
        }
      }
      ghost var code := if e.args == [] then []
                        else ExprCode(e.args[0], l, View()) + (if Pushes(e.args[0]) then [W.Drop] else []);
      assert out.bytes == start + W.Encode(code) by {
        if e.args != [] && !Pushes(e.args[0]) {
          assert ExprCode(e.args[0], l, View()) + [] == ExprCode(e.args[0], l, View());
        }
      }
      out.I32Const(0);
      Emit(start, code, W.Const(0));
      r := Ok(true);
    }

    /** The length comes from calling `strlen` on the argument, emitted a second time. */
    method GenPrintStr(e: Expr, l: Locals, out: ByteVec) returns (r: Result<bool>)
      requires Valid() && e.Call? && e.name == "print_str" && |e.args| == 1
      modifies this, out
      ensures Since(old(View()))
      ensures r.Ok? <==> Accepts(e, l, funcs)
      ensures r.Ok? ==> r.value == Pushes(e) && Known(e, View().strs.Keys)
      ensures r.Ok? ==> out.bytes == old(out.bytes) + W.Encode(ExprCode(e, l, View()))
      decreases e, 0
    {
      ghost var start := out.bytes;
      var a := e.args[0];
      var ra := GenExpr(a, l, out);
      if ra.Err? { return Err; }
      ghost var g1 := View();
      var rb := GenLen(a, l, out);
      if rb.Err? { return Err; }
      ExprStable(a, l, g1, View());
      EmitAll(start, ExprCode(a, l, View()), LenCode(a, l, View()));
      out.Push(0x10);
      out.Uleb(0);
      Emit(start, ExprCode(a, l, View()) + LenCode(a, l, View()), W.Call(0));
      r := Ok(false);
    }

    method GenLen(a: Expr, l: Locals, out: ByteVec) returns (r: Result<()>)
      requires Valid()
      modifies this, out
      ensures Since(old(View()))
      ensures Accepts(a, l, funcs) ==> r.Ok?
      ensures r.Ok? ==> out.bytes == old(out.bytes) + W.Encode(LenCode(a, l, View()))
      decreases a, 4
    {
      ghost var start := out.bytes;
      if "strlen" in funcs {
        var rb := GenExpr(a, l, out);
        if rb.Err? { return Err; }
        out.Push(0x10);
        out.Uleb(funcs["strlen"].0);
        Emit(start, ExprCode(a, l, View()), W.Call(funcs["strlen"].0));
      } else {
        out.I32Const(0);
        Emit(start, [], W.Const(0));
      }
      r := Ok(());
    }

    method GenUserCall(e: Expr, l: Locals, out: ByteVec) returns (r: Result<bool>)
      requires Valid() && e.Call? && !CcSource.IsPrint(e.name, e.args) && e.name != "malloc" && e.name != "free"
      modifies this, out
      ensures Since(old(View()))
      ensures r.Ok? <==> Accepts(e, l, funcs)
      ensures r.Ok? ==> r.value == Pushes(e) && Known(e, View().strs.Keys)
      ensures r.Ok? ==> out.bytes == old(out.bytes) + W.Encode(ExprCode(e, l, View()))
      decreases e, 1
    {
      ghost var start := out.bytes;
      if e.name !in funcs { return Err; }
      var (idx, np) := funcs[e.name];
      if |e.args| != np { return Err; }
      var ra := GenArgs(e.args, l, out);
      if ra.Err? { return Err; }
      out.Push(0x10);
      out.Uleb(idx);
      Emit(start, ArgsCode(e.args, l, View()), W.Call(idx));
      r := Ok(true);
    }

    method GenArgs(es: seq<Expr>, l: Locals, out: ByteVec) returns (r: Result<()>)
      requires Valid()
      modifies this, out
      ensures Since(old(View()))
      ensures r.Ok? <==> AcceptsArgs(es, l, funcs)
      ensures r.Ok? ==> KnownArgs(es, View().strs.Keys)
      ensures r.Ok? ==> out.bytes == old(out.bytes) + W.Encode(ArgsCode(es, l, View()))
      decreases es, 0
    {
      ghost var start := out.bytes;
      ghost var fs := funcs;
      assert es[..0] == [];
      for i := 0 to |es|
        invariant Since(old(View())) && funcs == fs
        invariant AcceptsArgs(es[..i], l, fs)
        invariant KnownArgs(es[..i], View().strs.Keys)
        invariant out.bytes == start + W.Encode(ArgsCode(es[..i], l, View()))
      {
        ghost var g1 := View();
        AcceptsArgsAt(es, i, l, fs);
        var ra := GenExpr(es[i], l, out);
        if ra.Err? { return Err; }
        ArgsStable(es[..i], l, g1, View());
        ArgsStep(start, es, i, l, View());
      }
      assert es[..|es|] == es;
      r := Ok(());
    }

    method GenStmt(s: Stmt, l: Locals, out: ByteVec) returns (r: Result<()>)
      requires Valid() && HasLocals(s, l)
      modifies this, out
      ensures Since(old(View()))
      ensures r.Ok? <==> AcceptsStmt(s, l, funcs)
      ensures r.Ok? ==> KnownStmt(s, View().strs.Keys)
      ensures r.Ok? ==> out.bytes == old(out.bytes) + W.Encode(StmtCode(s, l, View()))
      decreases s, 3
    {
      match s
      case Decl(x, _, init, _) =>
        if init.Some? {
          r := GenSet(s, x, init.value, l, out);
        } else {
          r := Ok(());
        }
      case Assign(x, e) => r := GenSet(s, x, e, l, out);
      case StoreLval(_, _) => r := GenStore(s, l, out);
      case ExprStmt(e) =>
        ghost var start := out.bytes;
        var re := GenExpr(e, l, out);
        if re.Err? { return Err; }
        if re.value {
          out.Push(0x1a);
          Emit(start, ExprCode(e, l, View()), W.Drop);
        } else {
          assert ExprCode(e, l, View()) + [] == ExprCode(e, l, View());
        }
        r := Ok(());
      case Return(_) => r := GenReturn(s, l, out);
      case If(_, _, _) => r := GenIf(s, l, out);
      case While(_, _) => r := GenWhile(s, l, out);
      case For(_, _, _, _) => r := GenFor(s, l, out);
    }

    /** `x = e`, for an assignment or an initialiser. */
    method GenSet(ghost s: Stmt, x: string, e: Expr, l: Locals, out: ByteVec) returns (r: Result<()>)
      requires Valid()
      requires s == Assign(x, e) || (s.Decl? && s.name == x && s.init == Some(e) && Get(l, x).Some?)
      modifies this, out
      ensures Since(old(View()))
      ensures r.Ok? <==> AcceptsStmt(s, l, funcs)
      ensures r.Ok? ==> KnownStmt(s, View().strs.Keys)
      ensures r.Ok? ==> out.bytes == old(out.bytes) + W.Encode(StmtCode(s, l, View()))
      decreases s, 0
    {
      hide Accepts, Known;
      ghost var start := out.bytes;
      var re := GenExpr(e, l, out);
      if re.Err? { return Err; }
      var vi := Get(l, x);
      if vi.None? { return Err; }
      out.Push(0x21);
      out.Uleb(vi.value.slot);
      Emit(start, ExprCode(e, l, View()), W.LocalSet(vi.value.slot));
      r := Ok(());
    }

    method GenStore(s: Stmt, l: Locals, out: ByteVec) returns (r: Result<()>)
      requires Valid() && s.StoreLval?
      modifies this, out
      ensures Since(old(View()))
      ensures r.Ok? <==> AcceptsStmt(s, l, funcs)
      ensures r.Ok? ==> KnownStmt(s, View().strs.Keys)
      ensures r.Ok? ==> out.bytes == old(out.bytes) + W.Encode(StmtCode(s, l, View()))
      decreases s, 0
    {
      ghost var start := out.bytes;
      var rk := GenAddr(s.lval, l, out);
      if rk.Err? { return Err; }
      ghost var g1 := View();
      var re := GenExpr(s.value, l, out);
      if re.Err? { return Err; }
      EmitStore(rk.value, out);
      ExprStable(s.lval, l, g1, View());
      EmitAll(start, AddrCode(s.lval, l, View()), ExprCode(s.value, l, View()));
      Emit(start, AddrCode(s.lval, l, View()) + ExprCode(s.value, l, View()), StoreOp(rk.value));
      r := Ok(());
    }

    method GenReturn(s: Stmt, l: Locals, out: ByteVec) returns (r: Result<()>)
      requires Valid() && s.Return?
      modifies this, out
      ensures Since(old(View()))
      ensures r.Ok? <==> AcceptsStmt(s, l, funcs)
      ensures r.Ok? ==> KnownStmt(s, View().strs.Keys)
      ensures r.Ok? ==> out.bytes == old(out.bytes) + W.Encode(StmtCode(s, l, View()))
      decreases s, 0
    {
      ghost var start := out.bytes;
      if s.result.None? {
        out.I32Const(0);
        out.Push(0x0f);
        Emit(start, [], W.Const(0));
        Emit(start, [W.Const(0)], W.Return);
        assert [W.Const(0)] + [W.Return] == StmtCode(s, l, View());
      } else {
        var re := GenExpr(s.result.value, l, out);
        if re.Err? { return Err; }
        out.Push(0x0f);
        Emit(start, ExprCode(s.result.value, l, View()), W.Return);
      }
      r := Ok(());
    }

    /** The statements of a block, in order. */
    method GenStmts(ss: seq<Stmt>, l: Locals, out: ByteVec) returns (r: Result<()>)
      requires Valid()
      requires AllHaveLocals(ss, l)
      modifies this, out
      ensures Since(old(View()))
      ensures r.Ok? <==> AcceptsStmts(ss, l, funcs)
      ensures r.Ok? ==> KnownStmts(ss, View().strs.Keys)
      ensures r.Ok? ==> out.bytes == old(out.bytes) + W.Encode(StmtsCode(ss, l, View()))
      decreases ss, 3
    {
      ghost var start := out.bytes;
      ghost var fs := funcs;
      assert ss[..0] == [];
      for i := 0 to |ss|
        invariant Since(old(View())) && funcs == fs
        invariant AcceptsStmts(ss[..i], l, fs)
        invariant KnownStmts(ss[..i], View().strs.Keys)
        invariant out.bytes == start + W.Encode(StmtsCode(ss[..i], l, View()))
      {
        ghost var g1 := View();
        AcceptsStmtsAt(ss, i, l, fs);
        HasLocalsAt(ss, i, l);
        var rs := GenStmt(ss[i], l, out);
        if rs.Err? { return Err; }
        StmtsStable(ss[..i], l, g1, View());
        StmtsStep(start, ss, i, l, View());
      }
      assert ss[..|ss|] == ss;
      r := Ok(());
    }

    method GenIf(s: Stmt, l: Locals, out: ByteVec) returns (r: Result<()>)
      requires Valid() && HasLocals(s, l) && s.If?
      modifies this, out
      ensures Since(old(View()))
      ensures r.Ok? <==> AcceptsStmt(s, l, funcs)
      ensures r.Ok? ==> KnownStmt(s, View().strs.Keys)
      ensures r.Ok? ==> out.bytes == old(out.bytes) + W.Encode(StmtCode(s, l, View()))
      decreases s, 2
    {
      ghost var start := out.bytes;
      var rc := GenExpr(s.cond, l, out);
      if rc.Err? { return Err; }
      ghost var g1 := View();
      r := GenBranches(s, l, out);
      if r.Err? { return Err; }
      ExprStable(s.cond, l, g1, View());
      Emit(start, ExprCode(s.cond, l, View()), BranchCode(s, l, View()));
    }

    method GenBranches(s: Stmt, l: Locals, out: ByteVec) returns (r: Result<()>)
      requires Valid() && HasLocals(s, l) && s.If?
      modifies this, out
      ensures Since(old(View()))
      ensures r.Ok? <==>
              AcceptsStmts(s.thn, l, funcs) &&
              AcceptsStmts(s.els, l, funcs)
      ensures r.Ok? ==>
              KnownStmts(s.thn, View().strs.Keys) &&
              KnownStmts(s.els, View().strs.Keys)
      ensures r.Ok? ==> out.bytes == old(out.bytes) + W.EncodeInstr(BranchCode(s, l, View()))
      decreases s, 1
    {
      ghost var start := out.bytes;
      out.Push(0x04);
      out.Push(0x40);
      assert out.bytes == start + [0x04, 0x40];
      var rt := GenStmts(s.thn, l, out);
      if rt.Err? { return Err; }
      r := GenElse(s, l, start, out);
    }

    method GenElse(s: Stmt, l: Locals, ghost start: seq<Byte>, out: ByteVec) returns (r: Result<()>)
      requires Valid() && HasLocals(s, l) && s.If? && KnownStmts(s.thn, View().strs.Keys)
      requires out.bytes == start + [0x04, 0x40] + W.Encode(StmtsCode(s.thn, l, View()))
      modifies this, out
      ensures Since(old(View()))
      ensures r.Ok? <==> AcceptsStmts(s.els, l, funcs)
      ensures r.Ok? ==> KnownStmts(s.thn, View().strs.Keys) && KnownStmts(s.els, View().strs.Keys)
      ensures r.Ok? ==> out.bytes == start + W.EncodeInstr(BranchCode(s, l, View()))
      decreases s, 0
    {
      ghost var g1 := View();
      if s.els != [] {
        out.Push(0x05);
        var re := GenStmts(s.els, l, out);
        if re.Err? { return Err; }
        StmtsStable(s.thn, l, g1, View());
      }
      out.Push(0x0b);
      BranchBytes(start, s, l, View());
      r := Ok(());
    }

    method GenWhile(s: Stmt, l: Locals, out: ByteVec) returns (r: Result<()>)
      requires Valid() && HasLocals(s, l) && s.While?
      modifies this, out
      ensures Since(old(View()))
      ensures r.Ok? <==> AcceptsStmt(s, l, funcs)
      ensures r.Ok? ==> KnownStmt(s, View().strs.Keys)
      ensures r.Ok? ==> out.bytes == old(out.bytes) + W.Encode(StmtCode(s, l, View()))
      decreases s, 1
    {
      ghost var start := out.bytes;
      OpenLoop(out);
      var rc := GenExpr(s.cond, l, out);
      if rc.Err? { return Err; }
      ghost var g1 := View();
      LoopExit(out);
      var rb := GenStmts(s.body, l, out);
      if rb.Err? { return Err; }
      ExprStable(s.cond, l, g1, View());
      CloseLoop(out);
      LoopBytes(start, ExprCode(s.cond, l, View()), StmtsCode(s.body, l, View()));
      r := Ok(());
    }

    method GenFor(s: Stmt, l: Locals, out: ByteVec) returns (r: Result<()>)
      requires Valid() && HasLocals(s, l) && s.For?
      modifies this, out
      ensures Since(old(View()))
      ensures r.Ok? <==> AcceptsStmt(s, l, funcs)
      ensures r.Ok? ==> KnownStmt(s, View().strs.Keys)
      ensures r.Ok? ==> out.bytes == old(out.bytes) + W.Encode(StmtCode(s, l, View()))
      decreases s, 1
    {
      ghost var start := out.bytes;
      var ri := GenStmt(s.init_, l, out);
      if ri.Err? { return Err; }
      ghost var g0 := View();
      r := GenForLoop(s, l, out);
      if r.Err? { return Err; }
      StmtStable(s.init_, l, g0, View());
      EmitAll(start, StmtCode(s.init_, l, View()), ForCode(s, l, View()));
    }

    method GenForLoop(s: Stmt, l: Locals, out: ByteVec) returns (r: Result<()>)
      requires Valid() && HasLocals(s, l) && s.For?
      modifies this, out
      ensures Since(old(View()))
      ensures r.Ok? <==> Accepts(s.cond, l, funcs) && AcceptsStmt(s.step, l, funcs) &&
                         AcceptsStmts(s.body, l, funcs)
      ensures r.Ok? ==> Known(s.cond, View().strs.Keys) && KnownStmt(s.step, View().strs.Keys) &&
                        KnownStmts(s.body, View().strs.Keys)
      ensures r.Ok? ==> out.bytes == old(out.bytes) + W.Encode(ForCode(s, l, View()))
      decreases s, 0
    {
      ghost var start := out.bytes;
      OpenLoop(out);
      var rc := GenExpr(s.cond, l, out);
      if rc.Err? { return Err; }
      ghost var g1 := View();
      LoopExit(out);
      var rb := GenStmts(s.body, l, out);
      if rb.Err? { return Err; }
      ghost var g2 := View();
      var rs := GenStmt(s.step, l, out);
      if rs.Err? { return Err; }
      CloseLoop(out);
      ExprStable(s.cond, l, g1, View());
      StmtsStable(s.body, l, g2, View());
      ForBytes(start, ExprCode(s.cond, l, View()), StmtsCode(s.body, l, View()), StmtCode(s.step, l, View()));
      r := Ok(());
    }

    /** Claim heap space for every array local and keep its base in the local. */
    method GenPrologue(l: Locals, out: ByteVec)
      modifies out
      ensures out.bytes == old(out.bytes) + W.Encode(Prologue(l))
    {
      ghost var start := out.bytes;
      for i := 0 to |l|
        invariant out.bytes + W.Encode(Prologue(l[i..])) == start + W.Encode(Prologue(l))
      {
        var vi := l[i].value;
        ghost var before := out.bytes;
        assert l[i..][1..] == l[i + 1..];
        if vi.decl.arrLen.Some? {
          var bytes := vi.decl.arrLen.value * ElemSize(vi.decl.kind);
          BumpAlloc(bytes, out);
          out.Push(0x21);
          out.Uleb(vi.slot);
          ArrayBytes(before, bytes, vi.slot);
          EmitAll(before, ArrayCode(bytes, vi.slot), Prologue(l[i + 1..]));
        } else {
          assert Prologue(l[i..]) == Prologue(l[i + 1..]);
        }
      }
      assert l[|l|..] == [];
    }

    /** The body of a function in the code section, or an error. */
    method GenFunc(f: Func) returns (r: Result<seq<Byte>>)
      requires Valid()
      modifies this
      ensures Since(old(View()))
      ensures r.Ok? <==> AcceptsFunc(f, funcs)
      ensures r.Ok? ==> KnownStmts(f.body, View().strs.Keys) && r.value == CodeBytes(FuncCode(f, View()))
    {
      var locals := GenParams(f.params);
      var all, next := CollectLocals(f.body, locals, |f.params|);
      CcCorrect.AllocSound(f);
      CollectHas(f.body, Alloc(locals, |f.params|), all);
      var body := new ByteVec();
      r := GenBody(f, all, body);
      if r.Err? { return Err; }
      var code := WithHeader(next - |f.params|, r.value);
      r := Ok(code);
    }

    /** The instructions of a function, up to and with the final `end`. */
    method GenBody(f: Func, l: Locals, body: ByteVec) returns (r: Result<seq<Byte>>)
      requires Valid() && body.bytes == [] && AllHaveLocals(f.body, l)
      modifies this, body
      ensures Since(old(View()))
      ensures r.Ok? <==> AcceptsStmts(f.body, l, funcs)
      ensures r.Ok? ==> KnownStmts(f.body, View().strs.Keys)
      ensures r.Ok? ==> r.value == W.Encode(Prologue(l) + StmtsCode(f.body, l, View()) + [W.Const(0)]) + [0x0b]
    {
      GenPrologue(l, body);
      var rb := GenStmts(f.body, l, body);
      if rb.Err? { return Err; }
      body.I32Const(0);
      body.Push(0x0b);
      FuncBytes(Prologue(l), StmtsCode(f.body, l, View()));
      assert [] + W.Encode(Prologue(l)) == W.Encode(Prologue(l));
      r := Ok(body.bytes);
    }

    static method OpenLoop(out: ByteVec)
      modifies out
      ensures out.bytes == old(out.bytes) + [0x02, 0x40, 0x03, 0x40]
    {
      out.Push(0x02);
      out.Push(0x40);
      out.Push(0x03);
      out.Push(0x40);
    }

    static method LoopExit(out: ByteVec)
      modifies out
      ensures out.bytes == old(out.bytes) + [0x45, 0x0d, 0x01]
    {
      out.Push(0x45);
      out.Push(0x0d);
      out.Uleb(1);
    }

    static method CloseLoop(out: ByteVec)
      modifies out
      ensures out.bytes == old(out.bytes) + [0x0c, 0x00, 0x0b, 0x0b]
    {
      out.Push(0x0c);
      out.Uleb(0);
      out.Push(0x0b);
      out.Push(0x0b);
    }
  }

  /** A function body in the code section: its locals, then its instructions. */
  function CodeBytes(c: W.Code): seq<Byte> {
    (if c.extra > 0 then [0x01] + EncodeU(c.extra) + [0x7f] else [0x00]) + (W.Encode(c.body) + [0x0b])
  }

  lemma {:induction false} FuncBytes(prologue: seq<W.Instr>, body: seq<W.Instr>)
    ensures W.Encode(prologue) + W.Encode(body) + [0x41] + EncodeS(0) + [0x0b] ==
            W.Encode(prologue + body + [W.Const(0)]) + [0x0b]
  {
    W.EncodeAppend(prologue, body);
    var front := W.Encode(prologue + body);
    Emit([], prologue + body, W.Const(0));
    assert [] + W.Encode(prologue + body + [W.Const(0)]) == W.Encode(prologue + body + [W.Const(0)]);
    assert [] + front == front;
    assert W.EncodeInstr(W.Const(0)) == [0x41] + EncodeS(0);
    assert front + [0x41] + EncodeS(0) == front + ([0x41] + EncodeS(0));
  }

  method WithHeader(extra: nat, body: seq<Byte>) returns (bs: seq<Byte>)
    ensures bs == (if extra > 0 then [0x01] + EncodeU(extra) + [0x7f] else [0x00]) + body
  {
    var out := new ByteVec();
    if extra > 0 {
      out.Uleb(1);
      out.Uleb(extra);
      out.Push(0x7f);
      assert out.bytes == [0x01] + EncodeU(extra) + [0x7f];
    } else {
      out.Uleb(0);
      assert out.bytes == [0x00];
    }
    out.Extend(body);
    bs := out.bytes;
  }

  lemma {:induction false} ArrayBytes(start: seq<Byte>, bytes: nat, slot: nat)
    ensures start + W.Encode([W.GlobalGet(0), W.GlobalGet(0), W.Const(bytes)] + BUMP_TAIL) + [0x21] + EncodeU(slot) ==
            start + W.Encode(ArrayCode(bytes, slot))
  {
    Emit(start, [W.GlobalGet(0), W.GlobalGet(0), W.Const(bytes)] + BUMP_TAIL, W.LocalSet(slot));
  }

  // ----- local variables -----

  method GenParams(ps: seq<Param>) returns (l: Locals)
    ensures l == ParamLocals(ps)
  {
    l := [];
    for i := 0 to |ps|
      invariant l == ParamLocals(ps[..i])
    {
      l := Put(l, ps[i].name, VarInfo(i, VarDecl(ps[i].kind, None)));
      assert ps[..i + 1][..i] == ps[..i];
    }
    assert ps[..|ps|] == ps;
  }

  /** Walk the statements and number every name declared for the first time. */
  method CollectLocals(ss: seq<Stmt>, l0: Locals, next0: nat) returns (l: Locals, next: nat)
    ensures Alloc(l, next) == Collect(ss, Alloc(l0, next0))
    decreases ss, 1
  {
    l, next := l0, next0;
    for i := 0 to |ss|
      invariant Collect(ss[i..], Alloc(l, next)) == Collect(ss, Alloc(l0, next0))
    {
      assert ss[i..][0] == ss[i] && ss[i..][1..] == ss[i + 1..];
      l, next := CollectStmtLocals(ss[i], l, next);
    }
  }

  method CollectStmtLocals(s: Stmt, l0: Locals, next0: nat) returns (l: Locals, next: nat)
    ensures Alloc(l, next) == CollectStmt(s, Alloc(l0, next0))
    decreases s, 0
  {
    l, next := l0, next0;
    match s
    case Decl(x, arrLen, _, kind) =>
      if Get(l, x).None? {
        l, next := Put(l, x, VarInfo(next, VarDecl(kind, arrLen))), next + 1;
      }
    case If(_, thn, els) =>
      l, next := CollectLocals(thn, l, next);
      l, next := CollectLocals(els, l, next);
    case While(_, body) =>
      l, next := CollectLocals(body, l, next);
    case For(init, _, step, body) =>
      l, next := CollectStmtLocals(init, l, next);
      l, next := CollectStmtLocals(step, l, next);
      l, next := CollectLocals(body, l, next);
    case _ =>
  }

  /** Names in `a` stay, and every declaration in the statements is in the result. */
  lemma {:induction false} CollectHas(ss: seq<Stmt>, a: Alloc, l: Locals)
    requires forall x :: Get(Collect(ss, a).locals, x).Some? ==> Get(l, x).Some?
    ensures forall x :: Get(a.locals, x).Some? ==> Get(l, x).Some?
    ensures AllHaveLocals(ss, l)
    decreases ss, 1
  {
    if ss != [] {
      CollectHas(ss[1..], CollectStmt(ss[0], a), l);
      CollectStmtHas(ss[0], a, l);
    }
  }

  lemma {:induction false} CollectStmtHas(s: Stmt, a: Alloc, l: Locals)
    requires forall x :: Get(CollectStmt(s, a).locals, x).Some? ==> Get(l, x).Some?
    ensures forall x :: Get(a.locals, x).Some? ==> Get(l, x).Some?
    ensures HasLocals(s, l)
    decreases s, 0
  {
    match s
    case Decl(x, arrLen, _, kind) =>
      forall y ensures Get(a.locals, y).Some? ==> Get(l, y).Some? {
        GetPut(a.locals, x, VarInfo(a.next, VarDecl(kind, arrLen)), y);
      }
      GetPut(a.locals, x, VarInfo(a.next, VarDecl(kind, arrLen)), x);
    case If(_, thn, els) =>
      CollectHas(els, Collect(thn, a), l);
      CollectHas(thn, a, l);
    case While(_, body) => CollectHas(body, a, l);
    case For(init, _, step, body) =>
      CollectHas(body, CollectStmt(step, CollectStmt(init, a)), l);
      CollectStmtHas(step, CollectStmt(init, a), l);
      CollectStmtHas(init, a, l);
    case _ =>
  }

  /** Every declaration in the statement has been given a local. */
  predicate HasLocals(s: Stmt, l: Locals)
    decreases s
  {
    match s
    case Decl(x, _, _, _) => Get(l, x).Some?
    case If(_, thn, els) =>
      AllHaveLocals(thn, l) && AllHaveLocals(els, l)
    case While(_, body) => AllHaveLocals(body, l)
    case For(init, _, step, body) =>
      HasLocals(init, l) && HasLocals(step, l) && AllHaveLocals(body, l)
    case _ => true
  }

  predicate AllHaveLocals(ss: seq<Stmt>, l: Locals)
    decreases ss
  {
    ss == [] || (HasLocals(ss[0], l) && AllHaveLocals(ss[1..], l))
  }

  lemma {:induction false} HasLocalsAt(ss: seq<Stmt>, i: nat, l: Locals)
    requires AllHaveLocals(ss, l) && i < |ss|
    ensures HasLocals(ss[i], l)
  {
    if i > 0 { HasLocalsAt(ss[1..], i - 1, l); }
  }

  lemma {:induction false} StmtsStep(start: seq<Byte>, ss: seq<Stmt>, i: nat, l: Locals, g: Globals)
    requires i < |ss|
    requires KnownStmts(ss[..i], g.strs.Keys) && KnownStmt(ss[i], g.strs.Keys)
    ensures KnownStmts(ss[..i + 1], g.strs.Keys)
    ensures start + W.Encode(StmtsCode(ss[..i], l, g)) + W.Encode(StmtCode(ss[i], l, g)) ==
            start + W.Encode(StmtsCode(ss[..i + 1], l, g))
  {
    KnownStmtsSnoc(ss[..i], ss[i], g.strs.Keys);
    EmitAll(start, StmtsCode(ss[..i], l, g), StmtCode(ss[i], l, g));
    StmtsSnoc(ss[..i], ss[i], l, g);
    assert ss[..i + 1] == ss[..i] + [ss[i]];
  }

  lemma {:induction false} LoopBodyBytes(cond: seq<W.Instr>, body: seq<W.Instr>)
    ensures W.Encode(LoopBody(cond, body)) ==
            W.Encode(cond) + [0x45, 0x0d, 0x01] + W.Encode(body) + [0x0c, 0x00]
  {
    var exit := [W.Eqz, W.BrIf(1)];
    assert W.Encode(exit) == [0x45, 0x0d, 0x01] by {
      EncodeCons(W.Eqz, [W.BrIf(1)] + []);
      EncodeCons(W.BrIf(1), []);
      assert exit == [W.Eqz] + ([W.BrIf(1)] + []);
    }
    assert W.Encode([W.Br(0)]) == [0x0c, 0x00] by {
      EncodeCons(W.Br(0), []);
    }
    W.EncodeAppend(cond, exit);
    W.EncodeAppend(cond + exit, body);
    W.EncodeAppend(cond + exit + body, [W.Br(0)]);
  }

  lemma {:induction false} NestedBytes(body: seq<W.Instr>)
    ensures W.Encode([W.Block([W.Loop(body)])]) == [0x02, 0x40, 0x03, 0x40] + W.Encode(body) + [0x0b, 0x0b]
  {
    assert W.Encode([W.Loop(body)]) == W.EncodeInstr(W.Loop(body)) + W.Encode([]);
    assert W.Encode([W.Block([W.Loop(body)])]) == W.EncodeInstr(W.Block([W.Loop(body)])) + W.Encode([]);
  }

  lemma {:induction false} LoopBytes(start: seq<Byte>, cond: seq<W.Instr>, body: seq<W.Instr>)
    ensures start + [0x02, 0x40, 0x03, 0x40] + W.Encode(cond) + [0x45, 0x0d, 0x01] + W.Encode(body) +
            [0x0c, 0x00, 0x0b, 0x0b] ==
            start + W.Encode(LoopCode(cond, body))
  {
    LoopBodyBytes(cond, body);
    NestedBytes(LoopBody(cond, body));
    LoopRegrouped(start, W.Encode(cond), W.Encode(body));
  }

  lemma {:induction false} ForBytes(start: seq<Byte>, cond: seq<W.Instr>, body: seq<W.Instr>, step: seq<W.Instr>)
    ensures start + [0x02, 0x40, 0x03, 0x40] + W.Encode(cond) + [0x45, 0x0d, 0x01] + W.Encode(body) + W.Encode(step) +
            [0x0c, 0x00, 0x0b, 0x0b] ==
            start + W.Encode(LoopCode(cond, body + step))
  {
    W.EncodeAppend(body, step);
    LoopBytes(start, cond, body + step);
    var front := start + [0x02, 0x40, 0x03, 0x40] + W.Encode(cond) + [0x45, 0x0d, 0x01];
    assert front + W.Encode(body) + W.Encode(step) == front + (W.Encode(body) + W.Encode(step));
  }

  lemma {:induction false} BranchBytes(start: seq<Byte>, s: Stmt, l: Locals, g: Globals)
    requires s.If?
    ensures start + [0x04, 0x40] + W.Encode(StmtsCode(s.thn, l, g))
            + (if s.els != [] then [0x05] + W.Encode(StmtsCode(s.els, l, g)) else []) + [0x0b] ==
            start + W.EncodeInstr(BranchCode(s, l, g))
    ensures s.els != [] ==>
            start + [0x04, 0x40] + W.Encode(StmtsCode(s.thn, l, g)) + [0x05] + W.Encode(StmtsCode(s.els, l, g)) +
              [0x0b] ==
            start + W.EncodeInstr(BranchCode(s, l, g))
  {
    var thn, els := W.Encode(StmtsCode(s.thn, l, g)), W.Encode(StmtsCode(s.els, l, g));
    if s.els != [] {
      assert start + [0x04, 0x40] + thn + ([0x05] + els) == start + [0x04, 0x40] + thn + [0x05] + els;
      assert start + ([0x04, 0x40] + thn + [0x05] + els + [0x0b]) == start + [0x04, 0x40] + thn + [0x05] + els + [0x0b];
    } else {
      assert start + [0x04, 0x40] + thn + [] == start + [0x04, 0x40] + thn;
      assert start + ([0x04, 0x40] + thn + [0x0b]) == start + [0x04, 0x40] + thn + [0x0b];
    }
  }

  lemma {:induction false} LoopRegrouped(start: seq<Byte>, cond: seq<Byte>, body: seq<Byte>)
    ensures start + [0x02, 0x40, 0x03, 0x40] + cond + [0x45, 0x0d, 0x01] + body + [0x0c, 0x00, 0x0b, 0x0b] ==
            start + ([0x02, 0x40, 0x03, 0x40] + (cond + [0x45, 0x0d, 0x01] + body + [0x0c, 0x00]) + [0x0b, 0x0b])
  {
  }

  lemma {:induction false} ArgsStep(start: seq<Byte>, es: seq<Expr>, i: nat, l: Locals, g: Globals)
    requires i < |es|
    requires KnownArgs(es[..i], g.strs.Keys) && Known(es[i], g.strs.Keys)
    ensures KnownArgs(es[..i + 1], g.strs.Keys)
    ensures start + W.Encode(ArgsCode(es[..i], l, g)) + W.Encode(ExprCode(es[i], l, g)) ==
            start + W.Encode(ArgsCode(es[..i + 1], l, g))
  {
    KnownArgsSnoc(es[..i], es[i], g.strs.Keys);
    EmitAll(start, ArgsCode(es[..i], l, g), ExprCode(es[i], l, g));
    ArgsSnoc(es[..i], es[i], l, g);
    assert es[..i + 1] == es[..i] + [es[i]];
  }
}
