/** The emitted module is valid, up to the names of its exports. */
module CcValid {
  import opened Bytes
  import opened Int32
  import opened SortedTable
  import opened CcAst
  import opened CcCode
  import opened CcGen
  import opened CcModule
  import opened CcCompile
  import opened WasmValid
  import CcSource
  import CcCorrect
  import W = Wasm

  /** Slots and function indices are what the context says. */
  ghost predicate Fits(l: Locals, g: Globals, c: Context) {
    && (forall x :: Get(l, x).Some? ==> SlotOf(l, x) < c.locals)
    && StrsFit(g)
    && forall f | f in g.funcs ::
         g.funcs[f].0 >= 2 && g.funcs[f].0 - 2 < |c.params| && c.params[g.funcs[f].0 - 2] == g.funcs[f].1
  }

  // ----- expressions -----

  /** The code of an expression pushes one value, or none, on any stack. */
  lemma {:induction false} ExprChecks(e: Expr, l: Locals, g: Globals, h: Height, labels: nat, c: Context)
    requires CcCorrect.ExprOk(e, l, g) && Fits(l, g, c)
    ensures Check(ExprCode(e, l, g), h, labels, c) == Some(Push(h, if Pushes(e) then 1 else 0))
    decreases e, 3
  {
    hide Check, Fits;
    match e
    case Int(v) => CheckOne(W.Const(v), h, labels, c);
    case Str(s) => TextChecks(s, l, g, h, labels, c);
    case Var(x) => VarChecks(x, l, g, h, labels, c);
    case Bin(op, a, b) =>
      ExprChecks(a, l, g, h, labels, c);
      ExprChecks(b, l, g, Push(h, 1), labels, c);
      CheckTwoOne(ExprCode(a, l, g), ExprCode(b, l, g), W.Num(OpOf(op)), h, labels, c);
    case Neg(a) =>
      CheckOne(W.Const(0), h, labels, c);
      ExprChecks(a, l, g, Push(h, 1), labels, c);
      CheckTwoOne([W.Const(0)], ExprCode(a, l, g), W.Num(W.I32Sub), h, labels, c);
    case Not(a) =>
      ExprChecks(a, l, g, h, labels, c);
      CheckAppend(ExprCode(a, l, g), [W.Eqz], h, labels, c);
      CheckOne(W.Eqz, Push(h, 1), labels, c);
    case Index(_, _) =>
      AddrChecks(e, l, g, h, labels, c);
      LoadChecks(e, l, g, h, labels, c);
    case Deref(_) =>
      AddrChecks(e, l, g, h, labels, c);
      LoadChecks(e, l, g, h, labels, c);
    case Call(_, _) => CallChecks(e, l, g, h, labels, c);
  }

  lemma {:induction false} TextChecks(s: seq<Byte>, l: Locals, g: Globals, h: Height, labels: nat, c: Context)
    requires Fits(l, g, c) && s in g.strs
    ensures Check([W.Const(StrAt(g, s))], h, labels, c) == Some(Push(h, 1))
  {
    CheckOne(W.Const(StrAt(g, s)), h, labels, c);
  }

  lemma {:induction false} VarChecks(x: string, l: Locals, g: Globals, h: Height, labels: nat, c: Context)
    requires Fits(l, g, c) && Get(l, x).Some?
    ensures SlotOf(l, x) < c.locals
    ensures Check([W.LocalGet(SlotOf(l, x))], h, labels, c) == Some(Push(h, 1))
  {
    CheckOne(W.LocalGet(SlotOf(l, x)), h, labels, c);
  }

  lemma {:induction false} LoadChecks(e: Expr, l: Locals, g: Globals, h: Height, labels: nat, c: Context)
    requires IsLval(e) && Check(AddrCode(e, l, g), h, labels, c) == Some(Push(h, 1))
    ensures Check(AddrCode(e, l, g) + [LoadOp(LvalKind(e, DeclsIn(l)))], h, labels, c) == Some(Push(h, 1))
  {
    hide Check;
    var load := LoadOp(LvalKind(e, DeclsIn(l)));
    CheckAppend(AddrCode(e, l, g), [load], h, labels, c);
    CheckOne(load, Push(h, 1), labels, c);
  }

  /** The code of an address pushes one value. */
  lemma {:induction false} AddrChecks(e: Expr, l: Locals, g: Globals, h: Height, labels: nat, c: Context)
    requires IsLval(e) && CcCorrect.ExprOk(e, l, g) && Fits(l, g, c)
    ensures Check(AddrCode(e, l, g), h, labels, c) == Some(Push(h, 1))
    decreases e, 2
  {
    hide Check, Fits;
    match e
    case Index(a, i) =>
      var k := LvalKind(e, DeclsIn(l));
      ExprChecks(a, l, g, h, labels, c);
      ExprChecks(i, l, g, Push(h, 1), labels, c);
      ScaleChecks(k, h, labels, c);
      CheckAppend(ExprCode(a, l, g) + ExprCode(i, l, g), ScaleCode(k), h, labels, c);
      CheckAppend(ExprCode(a, l, g), ExprCode(i, l, g), h, labels, c);
    case Deref(q) => ExprChecks(q, l, g, h, labels, c);
  }

  lemma {:induction false} ScaleChecks(k: Kind, h: Height, labels: nat, c: Context)
    ensures Check(ScaleCode(k), Push(Push(h, 1), 1), labels, c) == Some(Push(h, 1))
  {
    var two := Push(Push(h, 1), 1);
    CheckOne(W.Num(W.I32Add), two, labels, c);
    if ElemSize(k) != 1 {
      CheckOne(W.Const(4), two, labels, c);
      CheckOne(W.Num(W.I32Mul), Push(two, 1), labels, c);
      CheckAppend([W.Const(4)] + [W.Num(W.I32Mul)], [W.Num(W.I32Add)], two, labels, c);
      CheckAppend([W.Const(4)], [W.Num(W.I32Mul)], two, labels, c);
      assert ScaleCode(k) == [W.Const(4)] + [W.Num(W.I32Mul)] + [W.Num(W.I32Add)];
    } else {
      assert ScaleCode(k) == [W.Num(W.I32Add)];
    }
  }

  lemma {:induction false} BumpChecks(h: Height, labels: nat, c: Context)
    ensures Check(BUMP_TAIL, Push(h, 2), labels, c) == Some(h)
  {
    hide Check;
    var a := [W.Num(W.I32Add)] + [W.Const(3)] + [W.Num(W.I32Add)];
    var b := [W.Const(-4)] + [W.Num(W.I32And)] + [W.GlobalSet(0)];
    assert BUMP_TAIL == a + b;
    CheckAppend(a, b, Push(h, 2), labels, c);
    CheckOne(W.Num(W.I32Add), Push(h, 2), labels, c);
    CheckOne(W.Const(3), Push(h, 1), labels, c);
    CheckTwoOne([W.Num(W.I32Add)], [W.Const(3)], W.Num(W.I32Add), Push(h, 2), labels, c);
    CheckOne(W.Const(-4), Push(h, 1), labels, c);
    CheckOne(W.Num(W.I32And), Push(h, 2), labels, c);
    CheckTwoOne([W.Const(-4)], [W.Num(W.I32And)], W.GlobalSet(0), Push(h, 1), labels, c);
  }

  lemma {:induction false} HeapTwice(h: Height, labels: nat, c: Context)
    ensures Check([W.GlobalGet(0), W.GlobalGet(0)], h, labels, c) == Some(Push(h, 2))
  {
    hide Check;
    CheckAppend([W.GlobalGet(0)], [W.GlobalGet(0)], h, labels, c);
    CheckOne(W.GlobalGet(0), h, labels, c);
    CheckOne(W.GlobalGet(0), Push(h, 1), labels, c);
    assert [W.GlobalGet(0)] + [W.GlobalGet(0)] == [W.GlobalGet(0), W.GlobalGet(0)];
  }

  lemma {:induction false} CallChecks(e: Expr, l: Locals, g: Globals, h: Height, labels: nat, c: Context)
    requires e.Call? && CcCorrect.ExprOk(e, l, g) && Fits(l, g, c)
    ensures Check(ExprCode(e, l, g), h, labels, c) == Some(Push(h, if Pushes(e) then 1 else 0))
    decreases e, 2
  {
    hide Check, Fits;
    var args := e.args;
    if e.name == "print" {
      PrintChecks(args[0].text, l, g, h, labels, c);
    } else if e.name == "print_int" || e.name == "putchar" {
      ExprChecks(args[0], l, g, h, labels, c);
      CheckAppend(ExprCode(args[0], l, g), [W.Call(1)], h, labels, c);
      CheckOne(W.Call(1), Push(h, 1), labels, c);
    } else if e.name == "malloc" {
      HeapTwice(h, labels, c);
      ExprChecks(args[0], l, g, Push(h, 2), labels, c);
      BumpChecks(Push(h, 1), labels, c);
      CheckAppend([W.GlobalGet(0), W.GlobalGet(0)] + ExprCode(args[0], l, g), BUMP_TAIL, h, labels, c);
      CheckAppend([W.GlobalGet(0), W.GlobalGet(0)], ExprCode(args[0], l, g), h, labels, c);
    } else if e.name == "free" {
      FreeChecks(e, l, g, h, labels, c);
    } else if e.name == "print_str" && |args| == 1 {
      ExprChecks(args[0], l, g, h, labels, c);
      LenChecks(args[0], l, g, Push(h, 1), labels, c);
      CheckTwoOne(ExprCode(args[0], l, g), LenCode(args[0], l, g), W.Call(0), h, labels, c);
    } else {
      ArgsCheck(args, l, g, h, labels, c);
      UserChecks(e.name, l, g, h, labels, c);
      CheckAppend(ArgsCode(args, l, g), [W.Call(FuncAt(g, e.name))], h, labels, c);
    }
  }

  lemma {:induction false} UserChecks(name: string, l: Locals, g: Globals, h: Height, labels: nat, c: Context)
    requires Fits(l, g, c) && name in g.funcs
    ensures Check([W.Call(g.funcs[name].0)], Push(h, g.funcs[name].1), labels, c) == Some(Push(h, 1))
  {
    CheckOne(W.Call(g.funcs[name].0), Push(h, g.funcs[name].1), labels, c);
  }

  lemma {:induction false} PrintChecks(s: seq<Byte>, l: Locals, g: Globals, h: Height, labels: nat, c: Context)
    requires Fits(l, g, c) && s in g.strs && FitsI32(|s|)
    ensures Check([W.Const(StrAt(g, s)), W.Const(|s|), W.Call(0)], h, labels, c) == Some(h)
  {
    hide Check;
    TextChecks(s, l, g, h, labels, c);
    CheckOne(W.Const(|s|), Push(h, 1), labels, c);
    CheckTwoOne([W.Const(StrAt(g, s))], [W.Const(|s|)], W.Call(0), h, labels, c);
    assert [W.Const(StrAt(g, s))] + [W.Const(|s|)] + [W.Call(0)] == [W.Const(StrAt(g, s)), W.Const(|s|), W.Call(0)];
  }

  lemma {:induction false} FreeChecks(e: Expr, l: Locals, g: Globals, h: Height, labels: nat, c: Context)
    requires e.Call? && e.name == "free" && CcCorrect.ExprOk(e, l, g) && Fits(l, g, c)
    ensures Check(ExprCode(e, l, g), h, labels, c) == Some(Push(h, 1))
    decreases e, 1
  {
    hide Check, Fits;
    CheckOne(W.Const(0), h, labels, c);
    if e.args == [] {
      assert ExprCode(e, l, g) == [W.Const(0)];
    } else {
      var a := e.args[0];
      var code, drop := ExprCode(a, l, g), if Pushes(a) then [W.Drop] else [];
      ExprChecks(a, l, g, h, labels, c);
      DropChecks(code, drop, h, labels, c);
      CheckAppend(code + drop, [W.Const(0)], h, labels, c);
    }
  }

  lemma {:induction false} DropChecks(code: seq<W.Instr>, drop: seq<W.Instr>, h: Height, labels: nat, c: Context)
    requires (drop == [] && Check(code, h, labels, c) == Some(h))
             || (drop == [W.Drop] && Check(code, h, labels, c) == Some(Push(h, 1)))
    ensures Check(code + drop, h, labels, c) == Some(h)
  {
    if drop == [] {
      assert code + drop == code;
    } else {
      CheckAppend(code, drop, h, labels, c);
      CheckOne(W.Drop, Push(h, 1), labels, c);
    }
  }

  lemma {:induction false} LenChecks(a: Expr, l: Locals, g: Globals, h: Height, labels: nat, c: Context)
    requires CcCorrect.ValueOk(a, l, g) && Fits(l, g, c) && ("strlen" in g.funcs ==> g.funcs["strlen"].1 == 1)
    ensures Check(LenCode(a, l, g), h, labels, c) == Some(Push(h, 1))
    decreases a, 4
  {
    hide Check, Fits;
    CheckOne(W.Const(0), h, labels, c);
    if "strlen" in g.funcs {
      ExprChecks(a, l, g, h, labels, c);
      UserChecks("strlen", l, g, h, labels, c);
      CheckAppend(ExprCode(a, l, g), [W.Call(g.funcs["strlen"].0)], h, labels, c);
    }
  }

  lemma {:induction false} ArgsCheck(es: seq<Expr>, l: Locals, g: Globals, h: Height, labels: nat, c: Context)
    requires CcCorrect.ArgsOk(es, l, g) && Fits(l, g, c)
    ensures Check(ArgsCode(es, l, g), h, labels, c) == Some(Push(h, |es|))
    decreases es, 0
  {
    hide Fits;
    if es != [] {
      ExprChecks(es[0], l, g, h, labels, c);
      ArgsCheck(es[1..], l, g, Push(h, 1), labels, c);
      CheckAppend(ExprCode(es[0], l, g), ArgsCode(es[1..], l, g), h, labels, c);
    }
  }

  // ----- statements -----

  /** The code of a statement starts and ends at the height of its block. */
  lemma {:induction false} StmtChecks(s: Stmt, l: Locals, g: Globals, h: Height, labels: nat, c: Context)
    requires CcCorrect.StmtOk(s, l, g) && Fits(l, g, c) && h.n == 0
    ensures Closed(Check(StmtCode(s, l, g), h, labels, c))
    decreases s, 1
  {
    hide Check, Fits, ExprCode, AddrCode, StmtsCode, CcCorrect.ExprOk;
    match s
    case Decl(x, _, init, _) =>
      if init.Some? { SetChecks(x, init.value, l, g, h, labels, c); } else { NothingChecks(h, labels, c); }
    case Assign(x, e) => SetChecks(x, e, l, g, h, labels, c);
    case StoreLval(lval, e) =>
      AddrChecks(lval, l, g, h, labels, c);
      ExprChecks(e, l, g, Push(h, 1), labels, c);
      CheckTwoOne(AddrCode(lval, l, g), ExprCode(e, l, g), StoreOp(LvalKind(lval, DeclsIn(l))), h, labels, c);
    case ExprStmt(e) =>
      ExprChecks(e, l, g, h, labels, c);
      DropChecks(ExprCode(e, l, g), if Pushes(e) then [W.Drop] else [], h, labels, c);
    case Return(e) => ReturnChecks(e, l, g, h, labels, c);
    case If(_, _, _) => IfChecks(s, l, g, h, labels, c);
    case While(cond, body) =>
      StmtsCheck(body, l, g, Exact(0), labels + 2, c);
      LoopChecks(cond, StmtsCode(body, l, g), l, g, h, labels, c);
    case For(init, _, _, _) =>
      StmtChecks(init, l, g, h, labels, c);
      ForChecks(s, l, g, Check(StmtCode(init, l, g), h, labels, c).value, labels, c);
      CheckAppend(StmtCode(init, l, g), ForCode(s, l, g), h, labels, c);
  }

  lemma {:induction false} NothingChecks(h: Height, labels: nat, c: Context)
    ensures Check([], h, labels, c) == Some(h)
  {
  }

  lemma {:induction false} SetChecks(x: string, e: Expr, l: Locals, g: Globals, h: Height, labels: nat, c: Context)
    requires Get(l, x).Some? && CcCorrect.ValueOk(e, l, g) && Fits(l, g, c)
    ensures Check(ExprCode(e, l, g) + [W.LocalSet(SlotOf(l, x))], h, labels, c) == Some(h)
  {
    hide Check, Fits;
    ExprChecks(e, l, g, h, labels, c);
    VarChecks(x, l, g, h, labels, c);
    CheckAppend(ExprCode(e, l, g), [W.LocalSet(SlotOf(l, x))], h, labels, c);
    CheckOne(W.LocalSet(SlotOf(l, x)), Push(h, 1), labels, c);
  }

  lemma {:induction false} ReturnChecks(e: Option<Expr>, l: Locals, g: Globals, h: Height, labels: nat, c: Context)
    requires (e.Some? ==> CcCorrect.ValueOk(e.value, l, g)) && Fits(l, g, c)
    ensures Closed(Check(StmtCode(Return(e), l, g), h, labels, c))
  {
    hide Check, Fits;
    CheckOne(W.Return, Push(h, 1), labels, c);
    match e
    case None =>
      CheckOne(W.Const(0), h, labels, c);
      CheckAppend([W.Const(0)], [W.Return], h, labels, c);
      assert [W.Const(0)] + [W.Return] == [W.Const(0), W.Return];
    case Some(v) =>
      ExprChecks(v, l, g, h, labels, c);
      CheckAppend(ExprCode(v, l, g), [W.Return], h, labels, c);
  }

  lemma {:induction false} IfChecks(s: Stmt, l: Locals, g: Globals, h: Height, labels: nat, c: Context)
    requires s.If? && CcCorrect.StmtOk(s, l, g) && Fits(l, g, c) && h.n == 0
    ensures Closed(Check(StmtCode(s, l, g), h, labels, c))
    decreases s, 0
  {
    hide Check, Fits;
    ExprChecks(s.cond, l, g, h, labels, c);
    StmtsCheck(s.thn, l, g, Exact(0), labels + 1, c);
    StmtsCheck(s.els, l, g, Exact(0), labels + 1, c);
    CheckAppend(ExprCode(s.cond, l, g), [BranchCode(s, l, g)], h, labels, c);
    CheckOne(BranchCode(s, l, g), Push(h, 1), labels, c);
  }

  /** A loop is valid at any height when its condition gives a value and its body none. */
  lemma {:induction false} LoopChecks(cond: Expr, body: seq<W.Instr>, l: Locals, g: Globals, h: Height, labels: nat,
      c: Context)
    requires CcCorrect.ValueOk(cond, l, g) && Fits(l, g, c) && Closed(Check(body, Exact(0), labels + 2, c))
    ensures Check(LoopCode(ExprCode(cond, l, g), body), h, labels, c) == Some(h)
  {
    hide Check, Fits;
    var code, test, n := ExprCode(cond, l, g), [W.Eqz, W.BrIf(1)], labels + 2;
    ExprChecks(cond, l, g, Exact(0), n, c);
    TestChecks(n, c);
    CheckAppend(code + test + body, [W.Br(0)], Exact(0), n, c);
    CheckAppend(code + test, body, Exact(0), n, c);
    CheckAppend(code, test, Exact(0), n, c);
    CheckOne(W.Br(0), Check(body, Exact(0), n, c).value, n, c);
    CheckOne(W.Loop(LoopBody(code, body)), Exact(0), labels + 1, c);
    CheckOne(W.Block([W.Loop(LoopBody(code, body))]), h, labels, c);
  }

  lemma {:induction false} TestChecks(labels: nat, c: Context)
    requires labels >= 2
    ensures Check([W.Eqz, W.BrIf(1)], Exact(1), labels, c) == Some(Exact(0))
  {
    CheckOne(W.Eqz, Exact(1), labels, c);
    CheckOne(W.BrIf(1), Exact(1), labels, c);
    CheckAppend([W.Eqz], [W.BrIf(1)], Exact(1), labels, c);
    assert [W.Eqz] + [W.BrIf(1)] == [W.Eqz, W.BrIf(1)];
  }

  lemma {:induction false} ForChecks(s: Stmt, l: Locals, g: Globals, h: Height, labels: nat, c: Context)
    requires s.For? && CcCorrect.StmtOk(s, l, g) && Fits(l, g, c) && h.n == 0
    ensures Check(ForCode(s, l, g), h, labels, c) == Some(h)
    decreases s, 0
  {
    hide Check, Fits;
    var body, step := StmtsCode(s.body, l, g), StmtCode(s.step, l, g);
    StmtsCheck(s.body, l, g, Exact(0), labels + 2, c);
    StmtChecks(s.step, l, g, Check(body, Exact(0), labels + 2, c).value, labels + 2, c);
    CheckAppend(body, step, Exact(0), labels + 2, c);
    LoopChecks(s.cond, body + step, l, g, h, labels, c);
  }

  lemma {:induction false} StmtsCheck(ss: seq<Stmt>, l: Locals, g: Globals, h: Height, labels: nat, c: Context)
    requires CcCorrect.StmtsOk(ss, l, g) && Fits(l, g, c) && h.n == 0
    ensures Closed(Check(StmtsCode(ss, l, g), h, labels, c))
    decreases ss, 2
  {
    hide Fits, StmtCode, CcCorrect.StmtOk;
    if ss != [] {
      StmtChecks(ss[0], l, g, h, labels, c);
      StmtsCheck(ss[1..], l, g, Check(StmtCode(ss[0], l, g), h, labels, c).value, labels, c);
      CheckAppend(StmtCode(ss[0], l, g), StmtsCode(ss[1..], l, g), h, labels, c);
    }
  }

  // ----- functions -----

  lemma {:induction false} PrologueChecks(l: Locals, i: nat, labels: nat, c: Context)
    requires i <= |l| && Sorted(l) && ArraysFit(l) && forall x :: Get(l, x).Some? ==> SlotOf(l, x) < c.locals
    ensures Check(Prologue(l[i..]), Exact(0), labels, c) == Some(Exact(0))
    decreases |l| - i
  {
    hide Check;
    if i == |l| {
      NothingChecks(Exact(0), labels, c);
    } else {
      var vi, rest := l[i].value, l[i + 1..];
      assert l[i..][1..] == rest;
      PrologueChecks(l, i + 1, labels, c);
      if vi.decl.arrLen.None? {
        assert Prologue(l[i..]) == Prologue(rest);
      } else {
        var bytes := vi.decl.arrLen.value * ElemSize(vi.decl.kind);
        GetAt(l, i);
        ArrayChecks(bytes, vi.slot, labels, c);
        CheckAppend(ArrayCode(bytes, vi.slot), Prologue(rest), Exact(0), labels, c);
      }
    }
  }

  lemma {:induction false} ArrayChecks(bytes: nat, slot: nat, labels: nat, c: Context)
    requires FitsI32(bytes) && slot < c.locals
    ensures Check(ArrayCode(bytes, slot), Exact(0), labels, c) == Some(Exact(0))
  {
    hide Check;
    var heap, size := [W.GlobalGet(0), W.GlobalGet(0)], [W.Const(bytes)];
    assert ArrayCode(bytes, slot) == (heap + size + BUMP_TAIL) + [W.LocalSet(slot)] by {
      assert heap + size == [W.GlobalGet(0), W.GlobalGet(0), W.Const(bytes)];
    }
    HeapTwice(Exact(0), labels, c);
    CheckOne(W.Const(bytes), Exact(2), labels, c);
    BumpChecks(Exact(1), labels, c);
    CheckAppend(heap + size + BUMP_TAIL, [W.LocalSet(slot)], Exact(0), labels, c);
    CheckAppend(heap + size, BUMP_TAIL, Exact(0), labels, c);
    CheckAppend(heap, size, Exact(0), labels, c);
    CheckOne(W.LocalSet(slot), Exact(1), labels, c);
  }

  lemma {:induction false} FuncChecks(f: Func, g: Globals, c: Context)
    requires CcCorrect.FuncOk(f, g) && ArraysFit(AllocOf(f).locals) && c.locals >= AllocOf(f).next
    requires Fits([], g, c)
    ensures ValidBody(FuncCode(f, g).body, c)
  {
    hide Check, StmtsCode, Prologue, CcCorrect.StmtsOk;
    var l := AllocOf(f).locals;
    CcCorrect.AllocSound(f);
    assert Fits(l, g, c);
    PrologueChecks(l, 0, 0, c);
    assert l[0..] == l;
    StmtsCheck(f.body, l, g, Exact(0), 0, c);
    CheckAppend(Prologue(l) + StmtsCode(f.body, l, g), [W.Const(0)], Exact(0), 0, c);
    CheckAppend(Prologue(l), StmtsCode(f.body, l, g), Exact(0), 0, c);
    CheckOne(W.Const(0), Check(StmtsCode(f.body, l, g), Exact(0), 0, c).value, 0, c);
  }

  // ----- the module -----

  /** No name is defined twice, and none is one of the two names that are exported besides. */
  ghost predicate ExportableNames(fs: seq<Func>) {
    && (forall i, j | 0 <= i < j < |fs| :: fs[i].name != fs[j].name)
    && forall i | 0 <= i < |fs| :: fs[i].name != "_start" && fs[i].name != "memory"
  }

  lemma {:induction false} NamesAlike(a: string, b: string)
    requires Ascii(a) && Ascii(b)
    ensures NameBytes(a) == NameBytes(b) <==> a == b
  {
    if NameBytes(a) == NameBytes(b) {
      forall i | 0 <= i < |a| ensures a[i] == b[i] {
        assert NameBytes(a)[i] == NameBytes(b)[i];
      }
    }
  }

  lemma {:induction false} OwnNames()
    ensures Ascii("_start") && Ascii("memory")
    ensures NameBytes("_start") == START_NAME && NameBytes("memory") == MEMORY_NAME
  {
    assert NameBytes("_start") == START_NAME;
    assert NameBytes("memory") == MEMORY_NAME;
  }

  /** The exported names are distinct exactly when the functions' names can be exported. */
  lemma {:induction false} DistinctExactly(fs: seq<Func>, g: Globals)
    requires forall i | 0 <= i < |fs| :: Ascii(fs[i].name)
    ensures DistinctNames(Exports(fs, g)) <==> ExportableNames(fs)
  {
    var es, n := Exports(fs, g), |fs|;
    OwnNames();
    assert es[n].name == START_NAME && es[n + 1].name == MEMORY_NAME;
    forall i, j | 0 <= i < j < n ensures es[i].name == es[j].name <==> fs[i].name == fs[j].name {
      NamesAlike(fs[i].name, fs[j].name);
    }
    forall i | 0 <= i < n
      ensures es[i].name == es[n].name <==> fs[i].name == "_start"
      ensures es[i].name == es[n + 1].name <==> fs[i].name == "memory"
    {
      NamesAlike(fs[i].name, "_start");
      NamesAlike(fs[i].name, "memory");
    }
    assert START_NAME[0] != MEMORY_NAME[0];
    if DistinctNames(es) {
      forall i, j | 0 <= i < j < n ensures fs[i].name != fs[j].name {
        assert es[i].name != es[j].name;
      }
      forall i | 0 <= i < n ensures fs[i].name != "_start" && fs[i].name != "memory" {
        assert es[i].name != es[n].name && es[i].name != es[n + 1].name;
      }
    }
  }

  lemma {:induction false} TypeAt(n: nat, k: nat)
    requires k <= n
    ensures 2 + k < |Types(n)| && Types(n)[2 + k] == FuncType(k, 1)
  {
  }

  /** The context the functions of a program are checked in. */
  function ProgramContext(fs: seq<Func>, locals: nat): Context {
    Context(locals, seq(|fs|, i requires 0 <= i < |fs| => |fs[i].params|))
  }

  lemma {:induction false} ProgramFits(fs: seq<Func>, order: seq<seq<Byte>>, locals: nat)
    requires StrsFit(Globals(FuncTable(fs), OffsetsOf(order)))
    ensures Fits([], Globals(FuncTable(fs), OffsetsOf(order)), ProgramContext(fs, locals))
  {
    forall f | f in FuncTable(fs)
      ensures FuncTable(fs)[f].0 >= 2 && FuncTable(fs)[f].0 - 2 < |fs|
              && |fs[FuncTable(fs)[f].0 - 2].params| == FuncTable(fs)[f].1
    {
      CcCorrect.FuncTableLookup(fs, f);
    }
  }

  lemma {:induction false} ImageTypes(fs: seq<Func>, g: Globals, data: seq<Byte>)
    requires forall i | 0 <= i < |fs| :: Ascii(fs[i].name)
    ensures var m := ImageOf(fs, g, data);
            && HostImports(m) && |m.codes| == |m.funcs| == |fs|
            && (forall i | 0 <= i < |fs| ::
                  m.funcs[i] < |m.types| && m.types[m.funcs[i]] == FuncType(|fs[i].params|, 1))
            && Context(0, ParamsOf(m)) == ProgramContext(fs, 0)
  {
    var m := ImageOf(fs, g, data);
    forall i | 0 <= i < |fs|
      ensures m.funcs[i] < |m.types| && m.types[m.funcs[i]] == FuncType(|fs[i].params|, 1)
    {
      MaxParamsBound(fs, i);
      TypeAt(MaxParams(fs), |fs[i].params|);
    }
  }

  /** The body of every function of a supported program is valid. */
  lemma {:induction false} CodeValid(fs: seq<Func>, order: seq<seq<Byte>>, i: nat)
    requires Supported(fs, order) && i < |fs|
    ensures var g := Globals(FuncTable(fs), OffsetsOf(order));
            var code := FuncCode(fs[i], g);
            ValidBody(code.body, ProgramContext(fs, |fs[i].params| + code.extra))
  {
    hide ValidBody;
    var g := Globals(FuncTable(fs), OffsetsOf(order));
    var code := FuncCode(fs[i], g);
    CcCorrect.AllocSound(fs[i]);
    ProgramFits(fs, order, |fs[i].params| + code.extra);
    FuncChecks(fs[i], g, ProgramContext(fs, |fs[i].params| + code.extra));
  }

  lemma {:induction false} ExportsExist(fs: seq<Func>, g: Globals, i: nat)
    requires forall k | 0 <= k < |fs| :: Ascii(fs[k].name)
    requires g.funcs == FuncTable(fs) && CcSource.Lookup(fs, "main").Some? && i < |Exports(fs, g)|
    ensures var e := Exports(fs, g)[i]; (e.kind == 0 && e.idx < 2 + |fs|) || (e.kind == 2 && e.idx == 0)
  {
    CcCorrect.FuncTableLookup(fs, if i < |fs| then fs[i].name else "main");
  }

  /** The module of a supported program is valid if and only if no function is defined twice and none is
      called `_start` or `memory`. */
  lemma {:induction false} ValidExactly(fs: seq<Func>, order: seq<seq<Byte>>)
    requires Supported(fs, order)
    ensures var g := Globals(FuncTable(fs), OffsetsOf(order));
            ValidModule(ImageOf(fs, g, DataOf(order))) <==> ExportableNames(fs)
  {
    hide ValidBody, FuncCode, Exports, DistinctNames, ExportableNames, Types;
    var g := Globals(FuncTable(fs), OffsetsOf(order));
    var m := ImageOf(fs, g, DataOf(order));
    ImageTypes(fs, g, DataOf(order));
    DistinctExactly(fs, g);
    forall i | 0 <= i < |fs| ensures ValidCode(m, i, Context(0, ParamsOf(m))) {
      CodeValid(fs, order, i);
      CodeAt(fs, g, DataOf(order), i);
    }
    forall i | 0 <= i < |m.exports| ensures ValidExport(m, m.exports[i]) {
      ExportsExist(fs, g, i);
    }
  }

  lemma {:induction false} CodeAt(fs: seq<Func>, g: Globals, data: seq<Byte>, i: nat)
    requires (forall k | 0 <= k < |fs| :: Ascii(fs[k].name)) && i < |fs|
    ensures ImageOf(fs, g, data).codes[i] == (FuncCode(fs[i], g).extra, FuncCode(fs[i], g).body)
  {
    hide FuncCode;
  }

  /** A program with a function called `memory`: it compiles, and its module is not valid. */
  lemma {:induction false} MemoryFunction()
    ensures var fs := [Func("main", [], []), Func("memory", [], [])];
            Supported(fs, []) && !ValidModule(ImageOf(fs, Globals(FuncTable(fs), map[]), []))
  {
    var fs := [Func("main", [], []), Func("memory", [], [])];
    assert fs[..1] == [fs[0]] && fs[..1][..0] == [];
    assert CcSource.Lookup(fs[..1], "main") == Some(0);
    assert fs[1].name == "memory";
    ValidExactly(fs, []);
  }

  /** `x = print_int(1);` is accepted, and no function whose body begins with it is valid. */
  lemma {:induction false} VoidValueInvalid(rest: seq<W.Instr>, c: Context)
    ensures var l := [Entry("x", VarInfo(0, VarDecl(Scalar, None)))];
            var s := Assign("x", Call("print_int", [Int(1)]));
            AcceptsStmt(s, l, map[]) && !ValidBody(StmtCode(s, l, Globals(map[], map[])) + rest, c)
  {
    hide Check;
    var l := [Entry("x", VarInfo(0, VarDecl(Scalar, None)))];
    var g := Globals(map[], map[]);
    var s := Assign("x", Call("print_int", [Int(1)]));
    assert SlotOf(l, "x") == 0;
    assert StmtCode(s, l, g) == [W.Const(1)] + [W.Call(1)] + [W.LocalSet(0)];
    CheckOne(W.Const(1), Exact(0), 0, c);
    CheckOne(W.Call(1), Exact(1), 0, c);
    CheckTwoOne([W.Const(1)], [W.Call(1)], W.LocalSet(0), Exact(0), 0, c);
    CheckAppend(StmtCode(s, l, g), rest, Exact(0), 0, c);
  }
}
