/** When generated code is well formed: the built-ins without a value must not be used for one. */
module CcValues {
  import opened Bytes
  import opened Int32
  import opened SortedTable
  import opened CcAst
  import opened CcCode
  import opened CcGen
  import opened CcCompile
  import CcSource
  import CcCorrect
  import W = Wasm

  // ----- the check on the source -----

  /** Built-ins without a value stand only where no value is used, immediates fit an i32, and
      `strlen` takes one argument where `print_str` calls it. */
  predicate Clean(e: Expr, funcs: map<string, (nat, nat)>)
    decreases e, 0
  {
    match e
    case Int(v) => FitsI32(v)
    case Bin(_, a, b) => CleanValue(a, funcs) && CleanValue(b, funcs)
    case Neg(a) => CleanValue(a, funcs)
    case Not(a) => CleanValue(a, funcs)
    case Index(a, i) => CleanValue(a, funcs) && CleanValue(i, funcs)
    case Deref(a) => CleanValue(a, funcs)
    case Call(name, args) =>
      if name == "print" then |args| == 1 && args[0].Str? ==> FitsI32(|args[0].text|)
      else if name == "free" then args == [] || Clean(args[0], funcs)
      else if name == "print_str" && |args| == 1 then
        CleanValue(args[0], funcs) && ("strlen" in funcs ==> funcs["strlen"].1 == 1)
      else CleanArgs(args, funcs)
    case _ => true
  }

  predicate CleanValue(e: Expr, funcs: map<string, (nat, nat)>)
    decreases e, 1
  {
    Pushes(e) && Clean(e, funcs)
  }

  predicate CleanArgs(es: seq<Expr>, funcs: map<string, (nat, nat)>)
    decreases es, 0
  {
    es == [] || (CleanValue(es[0], funcs) && CleanArgs(es[1..], funcs))
  }

  predicate CleanStmt(s: Stmt, funcs: map<string, (nat, nat)>)
    decreases s
  {
    match s
    case Decl(_, _, init, _) => init.Some? ==> CleanValue(init.value, funcs)
    case Assign(_, e) => CleanValue(e, funcs)
    case StoreLval(lval, e) => Clean(lval, funcs) && CleanValue(e, funcs)
    case ExprStmt(e) => Clean(e, funcs)
    case Return(e) => e.Some? ==> CleanValue(e.value, funcs)
    case If(c, thn, els) => CleanValue(c, funcs) && CleanStmts(thn, funcs) && CleanStmts(els, funcs)
    case While(c, body) => CleanValue(c, funcs) && CleanStmts(body, funcs)
    case For(init, c, step, body) =>
      CleanStmt(init, funcs) && CleanValue(c, funcs) && CleanStmt(step, funcs) && CleanStmts(body, funcs)
  }

  predicate CleanStmts(ss: seq<Stmt>, funcs: map<string, (nat, nat)>)
    decreases ss
  {
    ss == [] || (CleanStmt(ss[0], funcs) && CleanStmts(ss[1..], funcs))
  }

  // ----- what the compiler accepts, and the check, make up the theorem's condition -----

  lemma {:induction false} ExprOkExactly(e: Expr, l: Locals, g: Globals)
    ensures CcCorrect.ExprOk(e, l, g) <==>
            Accepts(e, l, g.funcs) && Known(e, g.strs.Keys) && Clean(e, g.funcs)
    decreases e, 0
  {
    match e
    case Bin(_, a, b) => ExprOkExactly(a, l, g); ExprOkExactly(b, l, g);
    case Neg(a) => ExprOkExactly(a, l, g);
    case Not(a) => ExprOkExactly(a, l, g);
    case Index(a, i) => ExprOkExactly(a, l, g); ExprOkExactly(i, l, g);
    case Deref(a) => ExprOkExactly(a, l, g);
    case Call(_, args) =>
      ArgsOkExactly(args, l, g);
      if args != [] {
        ExprOkExactly(args[0], l, g);
        if |args| == 1 { assert args[1..] == []; }
      }
    case _ =>
  }

  lemma {:induction false} ArgsOkExactly(es: seq<Expr>, l: Locals, g: Globals)
    ensures CcCorrect.ArgsOk(es, l, g) <==>
            AcceptsArgs(es, l, g.funcs) && KnownArgs(es, g.strs.Keys) && CleanArgs(es, g.funcs)
    decreases es, 0
  {
    if es != [] {
      ExprOkExactly(es[0], l, g);
      ArgsOkExactly(es[1..], l, g);
    }
  }

  lemma {:induction false} StmtOkExactly(s: Stmt, l: Locals, g: Globals)
    requires HasLocals(s, l)
    ensures CcCorrect.StmtOk(s, l, g) <==>
            AcceptsStmt(s, l, g.funcs) && KnownStmt(s, g.strs.Keys) && CleanStmt(s, g.funcs)
    decreases s, 0
  {
    match s
    case Decl(_, _, init, _) => if init.Some? { ExprOkExactly(init.value, l, g); }
    case Assign(_, e) => ExprOkExactly(e, l, g);
    case StoreLval(lval, e) => ExprOkExactly(lval, l, g); ExprOkExactly(e, l, g);
    case ExprStmt(e) => ExprOkExactly(e, l, g);
    case Return(e) => if e.Some? { ExprOkExactly(e.value, l, g); }
    case If(c, thn, els) => ExprOkExactly(c, l, g); StmtsOkExactly(thn, l, g); StmtsOkExactly(els, l, g);
    case While(c, body) => ExprOkExactly(c, l, g); StmtsOkExactly(body, l, g);
    case For(init, c, step, body) =>
      StmtOkExactly(init, l, g);
      ExprOkExactly(c, l, g);
      StmtOkExactly(step, l, g);
      StmtsOkExactly(body, l, g);
  }

  lemma {:induction false} StmtsOkExactly(ss: seq<Stmt>, l: Locals, g: Globals)
    requires AllHaveLocals(ss, l)
    ensures CcCorrect.StmtsOk(ss, l, g) <==>
            AcceptsStmts(ss, l, g.funcs) && KnownStmts(ss, g.strs.Keys) && CleanStmts(ss, g.funcs)
    decreases ss, 1
  {
    if ss != [] {
      StmtOkExactly(ss[0], l, g);
      StmtsOkExactly(ss[1..], l, g);
    }
  }

  /** What `Compile` promises about a program it accepts, plus the check, is what the
      end-to-end theorem asks for. */
  lemma {:induction false} CompiledIsSupported(fs: seq<Func>, order: seq<seq<Byte>>)
    requires forall i | 0 <= i < |fs| :: Ascii(fs[i].name)
    requires CcSource.Lookup(fs, "main").Some? && AcceptsAll(fs, FuncTable(fs))
    requires forall i | 0 <= i < |fs| :: KnownStmts(fs[i].body, OffsetsOf(order).Keys)
    ensures Supported(fs, order) <==>
            (forall i | 0 <= i < |fs| :: CleanStmts(fs[i].body, FuncTable(fs)) && ArraysFit(AllocOf(fs[i]).locals)) &&
            StrsFit(Globals(FuncTable(fs), OffsetsOf(order)))
  {
    var g := Globals(FuncTable(fs), OffsetsOf(order));
    forall i | 0 <= i < |fs|
      ensures CcCorrect.FuncOk(fs[i], g) <==> CleanStmts(fs[i].body, FuncTable(fs))
    {
      var f := fs[i];
      CcCorrect.AllocSound(f);
      CollectHas(f.body, Alloc(ParamLocals(f.params), |f.params|), AllocOf(f).locals);
      assert AcceptsFunc(f, FuncTable(fs));
      StmtsOkExactly(f.body, AllocOf(f).locals, g);
    }
  }

  // ----- why the check is needed: the operand stack -----

  /** Net number of values an instruction pushes; `ar` gives the arity of a function index. */
  function Delta(i: W.Instr, ar: nat -> nat): int {
    match i
    case Const(_) => 1
    case LocalGet(_) => 1
    case GlobalGet(_) => 1
    case LocalSet(_) => -1
    case GlobalSet(_) => -1
    case Num(_) => -1
    case I32Store => -2
    case I32Store8 => -2
    case Drop => -1
    case Call(k) => if k == 0 then -2 else if k == 1 then -1 else 1 - ar(k)
    case _ => 0
  }

  /** An instruction that does not change the control flow makes the stack as much higher when it runs. */
  lemma {:induction false} DeltaIsEffect(fuel: nat, i: W.Instr, f: W.Frame, m: W.Module, ar: nat -> nat)
    requires !(i.Return? || i.Br? || i.BrIf? || i.Block? || i.Loop? || i.IfThen? || i.IfElse?)
    requires (forall k | 2 <= k < |m| + 2 :: ar(k) == m[k - 2].params) && W.Step(fuel, i, f, m).Normal?
    ensures |W.Step(fuel, i, f, m).f.stack| == |f.stack| + Delta(i, ar)
  {
  }

  function NetPush(code: seq<W.Instr>, ar: nat -> nat): int {
    if code == [] then 0 else Delta(code[0], ar) + NetPush(code[1..], ar)
  }

  lemma {:induction false} NetPushAppend(a: seq<W.Instr>, b: seq<W.Instr>, ar: nat -> nat)
    ensures NetPush(a + b, ar) == NetPush(a, ar) + NetPush(b, ar)
  {
    if a == [] {
      assert a + b == b;
    } else {
      assert (a + b)[1..] == a[1..] + b;
      NetPushAppend(a[1..], b, ar);
    }
  }

  lemma {:induction false} NetPush3(a: seq<W.Instr>, b: seq<W.Instr>, c: seq<W.Instr>, ar: nat -> nat)
    ensures NetPush(a + b + c, ar) == NetPush(a, ar) + NetPush(b, ar) + NetPush(c, ar)
  {
    NetPushAppend(a + b, c, ar);
    NetPushAppend(a, b, ar);
  }

  lemma {:induction false} NetPushOne(i: W.Instr, ar: nat -> nat)
    ensures NetPush([i], ar) == Delta(i, ar)
  {
    assert [i][1..] == [];
    assert NetPush([], ar) == 0;
  }

  /** Uses of a built-in without a value where a value is wanted, plus, for every use of `print_str`
      that calls `strlen`, the parameters of `strlen` beyond the one that is passed. */
  function Deficit(e: Expr, funcs: map<string, (nat, nat)>): int
    decreases e, 0
  {
    match e
    case Bin(_, a, b) => ValueDeficit(a, funcs) + ValueDeficit(b, funcs)
    case Neg(a) => ValueDeficit(a, funcs)
    case Not(a) => ValueDeficit(a, funcs)
    case Index(a, i) => ValueDeficit(a, funcs) + ValueDeficit(i, funcs)
    case Deref(a) => ValueDeficit(a, funcs)
    case Call(name, args) =>
      if name == "print" then 0
      else if name == "free" then (if args == [] then 0 else Deficit(args[0], funcs))
      else if name == "print_str" && |args| == 1 then
        if "strlen" in funcs then 2 * ValueDeficit(args[0], funcs) + funcs["strlen"].1 - 1
        else ValueDeficit(args[0], funcs)
      else ArgDeficit(args, funcs)
    case _ => 0
  }

  function ValueDeficit(e: Expr, funcs: map<string, (nat, nat)>): int
    decreases e, 1
  {
    (if Pushes(e) then 0 else 1) + Deficit(e, funcs)
  }

  function ArgDeficit(es: seq<Expr>, funcs: map<string, (nat, nat)>): int
    decreases es, 0
  {
    if es == [] then 0 else ValueDeficit(es[0], funcs) + ArgDeficit(es[1..], funcs)
  }

  /** The arities agree with the function table. */
  ghost predicate Arities(ar: nat -> nat, funcs: map<string, (nat, nat)>) {
    forall f | f in funcs :: funcs[f].0 >= 2 && ar(funcs[f].0) == funcs[f].1
  }

  /** Accepted code pushes one value, or none for a built-in without a value, less the deficit. */
  lemma {:induction false} NetPushExpr(e: Expr, l: Locals, g: Globals, ar: nat -> nat)
    requires Accepts(e, l, g.funcs) && Arities(ar, g.funcs)
    ensures NetPush(ExprCode(e, l, g), ar) == (if Pushes(e) then 1 else 0) - Deficit(e, g.funcs)
    decreases e, 1
  {
    hide NetPush;
    match e
    case Int(v) => NetPushOne(W.Const(v), ar);
    case Str(s) => NetPushOne(W.Const(StrAt(g, s)), ar);
    case Var(x) => NetPushOne(W.LocalGet(SlotOf(l, x)), ar);
    case Bin(op, a, b) =>
      NetPushExpr(a, l, g, ar);
      NetPushExpr(b, l, g, ar);
      NetPush3(ExprCode(a, l, g), ExprCode(b, l, g), [W.Num(OpOf(op))], ar);
      NetPushOne(W.Num(OpOf(op)), ar);
    case Neg(a) =>
      NetPushExpr(a, l, g, ar);
      NetPush3([W.Const(0)], ExprCode(a, l, g), [W.Num(W.I32Sub)], ar);
      NetPushOne(W.Const(0), ar);
      NetPushOne(W.Num(W.I32Sub), ar);
    case Not(a) =>
      NetPushExpr(a, l, g, ar);
      NetPushAppend(ExprCode(a, l, g), [W.Eqz], ar);
      NetPushOne(W.Eqz, ar);
    case Index(a, i) =>
      var k := LvalKind(e, DeclsIn(l));
      NetPushExpr(a, l, g, ar);
      NetPushExpr(i, l, g, ar);
      NetPushScale(k, ar);
      NetPush3(ExprCode(a, l, g), ExprCode(i, l, g), ScaleCode(k), ar);
      NetPushAppend(AddrCode(e, l, g), [LoadOp(k)], ar);
      NetPushOne(LoadOp(k), ar);
    case Deref(a) =>
      NetPushExpr(a, l, g, ar);
      NetPushAppend(AddrCode(e, l, g), [LoadOp(LvalKind(e, DeclsIn(l)))], ar);
      NetPushOne(LoadOp(LvalKind(e, DeclsIn(l))), ar);
    case Call(_, _) => NetPushCall(e, l, g, ar);
  }

  lemma {:induction false} NetPushScale(k: Kind, ar: nat -> nat)
    ensures NetPush(ScaleCode(k), ar) == -1
  {
    NetPushOne(W.Num(W.I32Add), ar);
    NetPushOne(W.Num(W.I32Mul), ar);
    NetPushOne(W.Const(4), ar);
    NetPush3([W.Const(4)], [W.Num(W.I32Mul)], [W.Num(W.I32Add)], ar);
    assert ScaleCode(k) == if ElemSize(k) != 1 then [W.Const(4)] + [W.Num(W.I32Mul)] + [W.Num(W.I32Add)]
      else [W.Num(W.I32Add)];
  }

  lemma {:induction false} NetPushBump(ar: nat -> nat)
    ensures NetPush(BUMP_TAIL, ar) == -2
  {
    NetPushOne(W.Num(W.I32Add), ar);
    NetPushOne(W.Num(W.I32And), ar);
    NetPushOne(W.Const(3), ar);
    NetPushOne(W.Const(-4), ar);
    NetPushOne(W.GlobalSet(0), ar);
    var a := [W.Num(W.I32Add)] + [W.Const(3)] + [W.Num(W.I32Add)];
    var b := [W.Const(-4)] + [W.Num(W.I32And)] + [W.GlobalSet(0)];
    assert BUMP_TAIL == a + b;
    NetPush3([W.Num(W.I32Add)], [W.Const(3)], [W.Num(W.I32Add)], ar);
    NetPush3([W.Const(-4)], [W.Num(W.I32And)], [W.GlobalSet(0)], ar);
    NetPushAppend(a, b, ar);
  }

  lemma {:induction false} NetPushCall(e: Expr, l: Locals, g: Globals, ar: nat -> nat)
    requires Accepts(e, l, g.funcs) && Arities(ar, g.funcs) && e.Call?
    ensures NetPush(ExprCode(e, l, g), ar) == (if Pushes(e) then 1 else 0) - Deficit(e, g.funcs)
    decreases e, 0
  {
    hide NetPush;
    var args := e.args;
    if e.name == "print" {
      NetPushPrint(StrAt(g, args[0].text), |args[0].text|, ar);
    } else if e.name == "print_int" || e.name == "putchar" {
      OneArgDeficit(args, g.funcs);
      NetPushExpr(args[0], l, g, ar);
      NetPushOne(W.Call(1), ar);
      NetPushAppend(ExprCode(args[0], l, g), [W.Call(1)], ar);
    } else if e.name == "malloc" {
      OneArgDeficit(args, g.funcs);
      NetPushExpr(args[0], l, g, ar);
      NetPushMalloc(ExprCode(args[0], l, g), ar);
    } else if e.name == "free" {
      if args != [] { NetPushExpr(args[0], l, g, ar); }
      NetPushNone(ar);
      NetPushOne(W.Drop, ar);
      NetPushFree(if args == [] then [] else ExprCode(args[0], l, g),
                  if args != [] && Pushes(args[0]) then [W.Drop] else [], ar);
      assert ExprCode(e, l, g) == (if args == [] then [] else ExprCode(args[0], l, g)) +
        (if args != [] && Pushes(args[0]) then [W.Drop] else []) + [W.Const(0)];
    } else if e.name == "print_str" && |args| == 1 {
      NetPushExpr(args[0], l, g, ar);
      NetPushLen(args[0], l, g, ar);
      NetPushOne(W.Call(0), ar);
      NetPush3(ExprCode(args[0], l, g), LenCode(args[0], l, g), [W.Call(0)], ar);
    } else {
      NetPushArgs(args, l, g, ar);
      NetPushAppend(ArgsCode(args, l, g), [W.Call(FuncAt(g, e.name))], ar);
      NetPushOne(W.Call(FuncAt(g, e.name)), ar);
    }
  }

  lemma {:induction false} NetPushNone(ar: nat -> nat)
    ensures NetPush([], ar) == 0
  {
  }

  lemma {:induction false} NetPushPrint(off: int, len: int, ar: nat -> nat)
    ensures NetPush([W.Const(off), W.Const(len), W.Call(0)], ar) == 0
  {
    NetPushOne(W.Call(0), ar);
    NetPushOne(W.Const(off), ar);
    NetPushOne(W.Const(len), ar);
    assert [W.Const(off), W.Const(len), W.Call(0)] == [W.Const(off)] + [W.Const(len)] + [W.Call(0)];
    NetPush3([W.Const(off)], [W.Const(len)], [W.Call(0)], ar);
  }

  lemma {:induction false} NetPushMalloc(size: seq<W.Instr>, ar: nat -> nat)
    ensures NetPush([W.GlobalGet(0), W.GlobalGet(0)] + size + BUMP_TAIL, ar) == NetPush(size, ar)
  {
    NetPushBump(ar);
    NetPushOne(W.GlobalGet(0), ar);
    NetPushAppend([W.GlobalGet(0)], [W.GlobalGet(0)], ar);
    assert [W.GlobalGet(0)] + [W.GlobalGet(0)] == [W.GlobalGet(0), W.GlobalGet(0)];
    NetPush3([W.GlobalGet(0), W.GlobalGet(0)], size, BUMP_TAIL, ar);
  }

  lemma {:induction false} NetPushFree(code: seq<W.Instr>, drop: seq<W.Instr>, ar: nat -> nat)
    requires drop == [] || drop == [W.Drop]
    ensures NetPush(code + drop + [W.Const(0)], ar) == NetPush(code, ar) - |drop| + 1
  {
    NetPushOne(W.Drop, ar);
    NetPushOne(W.Const(0), ar);
    NetPush3(code, drop, [W.Const(0)], ar);
  }

  lemma {:induction false} NetPushLen(a: Expr, l: Locals, g: Globals, ar: nat -> nat)
    requires Arities(ar, g.funcs)
    ensures NetPush(LenCode(a, l, g), ar) ==
            if "strlen" in g.funcs then NetPush(ExprCode(a, l, g), ar) + 1 - g.funcs["strlen"].1 else 1
  {
    NetPushOne(W.Const(0), ar);
    if "strlen" in g.funcs {
      NetPushAppend(ExprCode(a, l, g), [W.Call(g.funcs["strlen"].0)], ar);
      NetPushOne(W.Call(g.funcs["strlen"].0), ar);
    }
  }

  lemma {:induction false} OneArgDeficit(args: seq<Expr>, funcs: map<string, (nat, nat)>)
    requires |args| == 1
    ensures ArgDeficit(args, funcs) == ValueDeficit(args[0], funcs)
  {
    assert args[1..] == [];
  }

  lemma {:induction false} NetPushArgs(es: seq<Expr>, l: Locals, g: Globals, ar: nat -> nat)
    requires AcceptsArgs(es, l, g.funcs) && Arities(ar, g.funcs)
    ensures NetPush(ArgsCode(es, l, g), ar) == |es| - ArgDeficit(es, g.funcs)
    decreases es, 0
  {
    if es != [] {
      NetPushExpr(es[0], l, g, ar);
      NetPushArgs(es[1..], l, g, ar);
      NetPushAppend(ExprCode(es[0], l, g), ArgsCode(es[1..], l, g), ar);
    }
  }

  /** The generator accepts expressions whose code is not balanced: the code of an accepted
      expression leaves the number of values the generator reports if and only if the deficit is
      zero. Where `strlen` is missing or takes one argument, that is: no built-in without a value is
      used as one, at any depth that is compiled. */
  lemma {:induction false} BalancedExactly(e: Expr, l: Locals, g: Globals, ar: nat -> nat)
    requires Accepts(e, l, g.funcs) && Arities(ar, g.funcs)
    ensures NetPush(ExprCode(e, l, g), ar) == (if Pushes(e) then 1 else 0) <==> Deficit(e, g.funcs) == 0
    ensures ("strlen" in g.funcs ==> g.funcs["strlen"].1 == 1) ==> Deficit(e, g.funcs) >= 0
    ensures ("strlen" in g.funcs ==> g.funcs["strlen"].1 == 1) ==> (Deficit(e, g.funcs) == 0 <==> NoVoids(e))
  {
    NetPushExpr(e, l, g, ar);
    if "strlen" in g.funcs ==> g.funcs["strlen"].1 == 1 { VoidsExactly(e, l, g.funcs); }
  }

  /** No built-in without a value stands where a value is wanted, in the parts that are compiled. */
  predicate NoVoids(e: Expr)
    decreases e, 0
  {
    match e
    case Bin(_, a, b) => ValueNoVoids(a) && ValueNoVoids(b)
    case Neg(a) => ValueNoVoids(a)
    case Not(a) => ValueNoVoids(a)
    case Index(a, i) => ValueNoVoids(a) && ValueNoVoids(i)
    case Deref(a) => ValueNoVoids(a)
    case Call(name, args) =>
      if name == "print" then true
      else if name == "free" then args == [] || NoVoids(args[0])
      else forall i | 0 <= i < |args| :: ValueNoVoids(args[i])
    case _ => true
  }

  predicate ValueNoVoids(e: Expr)
    decreases e, 1
  {
    Pushes(e) && NoVoids(e)
  }

  lemma {:induction false} VoidsExactly(e: Expr, l: Locals, funcs: map<string, (nat, nat)>)
    requires Accepts(e, l, funcs) && ("strlen" in funcs ==> funcs["strlen"].1 == 1)
    ensures Deficit(e, funcs) >= 0
    ensures Deficit(e, funcs) == 0 <==> NoVoids(e)
    decreases e, 0
  {
    match e
    case Bin(_, a, b) => VoidsExactly(a, l, funcs); VoidsExactly(b, l, funcs);
    case Neg(a) => VoidsExactly(a, l, funcs);
    case Not(a) => VoidsExactly(a, l, funcs);
    case Index(a, i) => VoidsExactly(a, l, funcs); VoidsExactly(i, l, funcs);
    case Deref(a) => VoidsExactly(a, l, funcs);
    case Call(name, args) =>
      if name == "print" {
      } else if name == "free" {
        if args != [] { VoidsExactly(args[0], l, funcs); }
      } else if name == "print_str" && |args| == 1 {
        VoidsExactly(args[0], l, funcs);
      } else {
        if |args| == 1 { OneArgAccepted(args, l, funcs); }
        ArgVoidsExactly(args, l, funcs);
      }
    case _ =>
  }

  lemma {:induction false} OneArgAccepted(args: seq<Expr>, l: Locals, funcs: map<string, (nat, nat)>)
    requires |args| == 1
    ensures AcceptsArgs(args, l, funcs) == Accepts(args[0], l, funcs)
  {
    assert args[1..] == [];
  }

  lemma {:induction false} ArgVoidsExactly(es: seq<Expr>, l: Locals, funcs: map<string, (nat, nat)>)
    requires AcceptsArgs(es, l, funcs) && ("strlen" in funcs ==> funcs["strlen"].1 == 1)
    ensures ArgDeficit(es, funcs) >= 0
    ensures ArgDeficit(es, funcs) == 0 <==> forall i | 0 <= i < |es| :: ValueNoVoids(es[i])
    decreases es, 0
  {
    if es != [] {
      VoidsExactly(es[0], l, funcs);
      ArgVoidsExactly(es[1..], l, funcs);
      assert forall i | 1 <= i < |es| :: es[i] == es[1..][i - 1];
      assert forall i | 0 <= i < |es| - 1 :: es[1..][i] == es[i + 1];
    }
  }

  /** `print_str(0)` is accepted whatever `strlen` takes: with two parameters its code takes one value
      too many, with none it leaves one behind. */
  lemma {:induction false} StrlenArityIgnored(params: nat, l: Locals, ar: nat -> nat)
    ensures var g := Globals(map["strlen" := (2, params)], map[]);
            var e := Call("print_str", [Int(0)]);
            Accepts(e, l, g.funcs) && !Pushes(e) && NoVoids(e) &&
            (ar(2) == params ==> NetPush(ExprCode(e, l, g), ar) == 1 - params)
  {
    var g := Globals(map["strlen" := (2, params)], map[]);
    var e := Call("print_str", [Int(0)]);
    OneArgAccepted([Int(0)], l, g.funcs);
    if ar(2) == params { NetPushExpr(e, l, g, ar); }
  }

  /** `x = print_int(1);` is accepted, and its code stops on an empty operand stack. */
  lemma {:induction false} VoidValueSticks(fuel: nat, m: W.Module)
    ensures var l := [Entry("x", VarInfo(0, VarDecl(Scalar, None)))];
            var g := Globals(map[], map[]);
            var s := Assign("x", Call("print_int", [Int(1)]));
            AcceptsStmt(s, l, g.funcs) && !CleanStmt(s, g.funcs) &&
            W.Exec(fuel, StmtCode(s, l, g), W.Frame([], [0], W.Store([], 0, [])), m) == W.Stuck
  {
    var l := [Entry("x", VarInfo(0, VarDecl(Scalar, None)))];
    var g := Globals(map[], map[]);
    var f := W.Frame([], [0], W.Store([], 0, []));
    var code := [W.Const(1)] + [W.Call(1)] + [W.LocalSet(0)];
    assert ExprCode(Call("print_int", [Int(1)]), l, g) == [W.Const(1)] + [W.Call(1)];
    assert SlotOf(l, "x") == 0;
    CcCorrect.Three(fuel, [W.Const(1)], [W.Call(1)], [W.LocalSet(0)], f, m);
    CcCorrect.ConstStep(fuel, 1, f, m);
    var f1 := f.(stack := [1]);
    assert f.stack + [Wrap(1)] == [1];
    CcCorrect.One(fuel, W.Call(1), f1, m);
    assert f1.stack[..0] == [];
    var f2 := W.Frame([], [0], W.HostPrintInt(f.st, 1));
    CcCorrect.One(fuel, W.LocalSet(0), f2, m);
  }
}
