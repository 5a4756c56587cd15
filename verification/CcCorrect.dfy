/** Compiler correctness: the generated code does exactly what the source program does. */
module CcCorrect {
  import opened Bytes
  import opened Int32
  import opened SortedTable
  import opened CcAst
  import opened CcSource
  import opened CcCode
  import opened W = Wasm

  // ----- programs the theorem speaks about -----

  /** The expression is one the generator accepts, literals fit a word, and the built-ins
      without a value are not used for their value. */
  predicate ExprOk(e: Expr, l: Locals, g: Globals)
    decreases e, 1
  {
    match e
    case Int(v) => FitsI32(v)
    case Str(s) => s in g.strs
    case Var(x) => Get(l, x).Some?
    case Bin(_, a, b) => ValueOk(a, l, g) && ValueOk(b, l, g)
    case Neg(a) => ValueOk(a, l, g)
    case Not(a) => ValueOk(a, l, g)
    case Index(a, i) => ValueOk(a, l, g) && ValueOk(i, l, g)
    case Deref(a) => ValueOk(a, l, g)
    case Call(name, args) =>
      if name == "print" then |args| == 1 && args[0].Str? && args[0].text in g.strs && FitsI32(|args[0].text|)
      else if name == "print_int" || name == "putchar" || name == "malloc" then
        |args| == 1 && ValueOk(args[0], l, g)
      else if name == "free" then args == [] || ExprOk(args[0], l, g)
      else if name == "print_str" && |args| == 1 then
        ValueOk(args[0], l, g) && ("strlen" in g.funcs ==> g.funcs["strlen"].1 == 1)
      else name in g.funcs && |args| == g.funcs[name].1 && ArgsOk(args, l, g)
  }

  predicate ValueOk(e: Expr, l: Locals, g: Globals)
    decreases e, 2
  {
    Pushes(e) && ExprOk(e, l, g)
  }

  predicate ArgsOk(es: seq<Expr>, l: Locals, g: Globals)
    decreases es, 1
  {
    es == [] || (ValueOk(es[0], l, g) && ArgsOk(es[1..], l, g))
  }

  predicate StmtOk(s: Stmt, l: Locals, g: Globals)
    decreases s, 0
  {
    match s
    case Decl(x, _, init, _) => init.Some? ==> Get(l, x).Some? && ValueOk(init.value, l, g)
    case Assign(x, e) => Get(l, x).Some? && ValueOk(e, l, g)
    case StoreLval(lval, e) => IsLval(lval) && ExprOk(lval, l, g) && ValueOk(e, l, g)
    case ExprStmt(e) => ExprOk(e, l, g)
    case Return(e) => e.Some? ==> ValueOk(e.value, l, g)
    case If(c, thn, els) => ValueOk(c, l, g) && StmtsOk(thn, l, g) && StmtsOk(els, l, g)
    case While(c, body) => ValueOk(c, l, g) && StmtsOk(body, l, g)
    case For(init, c, step, body) =>
      StmtOk(init, l, g) && ValueOk(c, l, g) && StmtOk(step, l, g) && StmtsOk(body, l, g)
  }

  predicate StmtsOk(ss: seq<Stmt>, l: Locals, g: Globals)
    decreases ss, 1
  {
    ss == [] || (StmtOk(ss[0], l, g) && StmtsOk(ss[1..], l, g))
  }

  predicate FuncOk(f: Func, g: Globals) {
    StmtsOk(f.body, AllocOf(f).locals, g)
  }

  predicate ProgramOk(fs: seq<Func>, strs: map<seq<Byte>, nat>) {
    forall i :: 0 <= i < |fs| ==> FuncOk(fs[i], Globals(FuncTable(fs), strs))
  }

  // ----- operators -----

  lemma {:induction false} WrapShift(x: int, k: int)
    ensures Wrap(x + k * MODULUS) == Wrap(x)
  {
  }

  lemma {:induction false} MulExpand(x: int, y: int, i: int, j: int)
    ensures (x + i * MODULUS) * (y + j * MODULUS) == x * y + (x * j + i * y + i * j * MODULUS) * MODULUS
  {
  }

  /** Multiplying the signed values wraps to the same word as multiplying the unsigned ones. */
  lemma {:induction false} MulSigned(a: Word, b: Word)
    ensures Wrap(Signed(a) * Signed(b)) == Wrap(a * b)
  {
    var x, y := Signed(a), Signed(b);
    var i, j := if a == x then 0 else 1, if b == y then 0 else 1;
    MulExpand(x, y, i, j);
    WrapShift(x * y, x * j + i * y + i * j * MODULUS);
  }

  lemma {:induction false} SumSigned(a: Word, b: Word)
    ensures Wrap(Signed(a) + Signed(b)) == Wrap(a + b)
    ensures Wrap(Signed(a) - Signed(b)) == Wrap(a - b)
  {
  }

  lemma {:induction false} NegSigned(a: Word)
    ensures Wrap(-Signed(a)) == Wrap(0 - a)
  {
  }

  lemma {:induction false} OperatorSim(op: BinOp, a: Word, b: Word)
    ensures NumEval(OpOf(op), a, b) == BinEval(op, a, b)
  {
    match op
    case Add => SumSigned(a, b);
    case Sub => SumSigned(a, b);
    case Mul => MulSigned(a, b);
    case Div => assert Signed(a) == -0x8000_0000 <==> a == 0x8000_0000;
    case Rem =>
    case _ =>
  }

  // ----- the simulation relation -----

  ghost predicate Rel(l: Locals, env: Env, locals: seq<Word>) {
    && (forall x :: x in env <==> Get(l, x).Some?)
    && (forall x | x in env :: SlotOf(l, x) < |locals| && locals[SlotOf(l, x)] == env[x])
    && (forall x, y | x in env && y in env && x != y :: SlotOf(l, x) != SlotOf(l, y))
  }

  lemma {:induction false} RelUpdate(l: Locals, env: Env, locals: seq<Word>, x: string, w: Word)
    requires Rel(l, env, locals) && x in env
    ensures Rel(l, env[x := w], locals[SlotOf(l, x) := w])
  {
  }

  /** What running the code of an expression must give for a source result. */
  function LiftExpr(r: Res<Option<Word>>, f: Frame): Outcome {
    match r
    case Ok(Some(w), st) => Normal(Frame(f.stack + [w], f.locals, st))
    case Ok(None, st) => Normal(Frame(f.stack, f.locals, st))
    case Trapped(st) => Trap(st)
    case OutOfFuel(st) => Timeout(st)
    case Wrong => Stuck
  }

  function LiftValue(r: Res<Word>, f: Frame): Outcome {
    match r
    case Ok(w, st) => Normal(Frame(f.stack + [w], f.locals, st))
    case Trapped(st) => Trap(st)
    case OutOfFuel(st) => Timeout(st)
    case Wrong => Stuck
  }

  function LiftArgs(r: Res<seq<Word>>, f: Frame): Outcome {
    match r
    case Ok(ws, st) => Normal(Frame(f.stack + ws, f.locals, st))
    case Trapped(st) => Trap(st)
    case OutOfFuel(st) => Timeout(st)
    case Wrong => Stuck
  }

  function LiftCall(r: Res<Word>): Outcome {
    match r
    case Ok(w, st) => Returned(w, st)
    case Trapped(st) => Trap(st)
    case OutOfFuel(st) => Timeout(st)
    case Wrong => Stuck
  }

  /** Statements leave the operand stack as it was and keep variables and locals in step. */
  ghost predicate Agree(r: Res<Flow>, o: Outcome, stack: seq<Word>, l: Locals) {
    match r
    case Ok(Next(env), st) =>
      o.Normal? && o.f.stack == stack && o.f.st == st && Rel(l, env, o.f.locals)
    case Ok(Ret(w), st) => o == Returned(w, st)
    case Trapped(st) => o == Trap(st)
    case OutOfFuel(st) => o == Timeout(st)
    case Wrong => false
  }

  /** Code `m` is the compiled form of `p`, and `g` the tables it was compiled with. */
  ghost predicate Linked(p: Program, g: Globals, m: Module) {
    && g == Globals(FuncTable(p.funcs), p.strs)
    && m == ModuleCode(p.funcs, g)
    && ProgramOk(p.funcs, p.strs)
  }

  lemma {:induction false} ModuleCodeAt(fs: seq<Func>, g: Globals, i: nat)
    requires i < |fs|
    ensures |ModuleCode(fs, g)| == |fs|
    ensures ModuleCode(fs, g)[i] == FuncCode(fs[i], g)
  {
    if |fs| > 1 {
      ModuleCodeAt(fs[1..], g, if i == 0 then 0 else i - 1);
    }
  }

  lemma {:induction false} FuncTableLookup(fs: seq<Func>, name: string)
    ensures name in FuncTable(fs) <==> Lookup(fs, name).Some?
    ensures Lookup(fs, name).Some? ==>
            FuncTable(fs)[name] == (2 + Lookup(fs, name).value, |fs[Lookup(fs, name).value].params|)
  {
    if fs != [] && fs[|fs| - 1].name != name {
      FuncTableLookup(fs[..|fs| - 1], name);
    }
  }

  /** Run `a`, then `b` when `a` ends normally. */
  function Then(fuel: nat, o: Outcome, b: seq<Instr>, m: Module): Outcome {
    match o
    case Normal(f) => Exec(fuel, b, f, m)
    case r => r
  }

  lemma {:induction false} Sequence(fuel: nat, a: seq<Instr>, b: seq<Instr>, f: Frame, m: Module)
    ensures Exec(fuel, a + b, f, m) == Then(fuel, Exec(fuel, a, f, m), b, m)
  {
    ExecAppend(fuel, a, b, f, m);
  }

  lemma {:induction false} One(fuel: nat, i: Instr, f: Frame, m: Module)
    ensures Exec(fuel, [i], f, m) == Step(fuel, i, f, m)
  {
    assert [i][1..] == [];
    match Step(fuel, i, f, m)
    case Normal(h) => assert Exec(fuel, [], h, m) == Normal(h);
    case _ =>
  }

  lemma {:induction false} Three(fuel: nat, a: seq<Instr>, b: seq<Instr>, c: seq<Instr>, f: Frame, m: Module)
    ensures Exec(fuel, a + b + c, f, m) ==
            Then(fuel, Then(fuel, Exec(fuel, a, f, m), b, m), c, m)
  {
    Sequence(fuel, a + b, c, f, m);
    Sequence(fuel, a, b, f, m);
  }

  // ----- single instructions -----

  lemma {:induction false} ConstStep(fuel: nat, v: int, f: Frame, m: Module)
    ensures Exec(fuel, [Const(v)], f, m) == Normal(f.(stack := f.stack + [Wrap(v)]))
  {
    One(fuel, Const(v), f, m);
  }

  lemma {:induction false} NumStep(fuel: nat, op: NumOp, below: seq<Word>, a: Word, b: Word, f: Frame, m: Module)
    requires f.stack == below + [a] + [b]
    ensures Exec(fuel, [Num(op)], f, m) ==
            match NumEval(op, a, b)
            case Some(w) => Normal(f.(stack := below + [w]))
            case None => Trap(f.st)
  {
    One(fuel, Num(op), f, m);
    assert f.stack[..|f.stack| - 2] == below;
  }

  lemma {:induction false} EqzStep(fuel: nat, below: seq<Word>, a: Word, f: Frame, m: Module)
    requires f.stack == below + [a]
    ensures Exec(fuel, [Eqz], f, m) == Normal(f.(stack := below + [Bool(a == 0)]))
  {
    One(fuel, Eqz, f, m);
    assert f.stack[..|f.stack| - 1] == below;
  }

  // ----- expressions -----

  /** Expression code pushes the value, keeps the stack below it and the locals, and makes
      the same changes to memory, heap and output; it traps and runs out of fuel together
      with the source. */
  lemma {:induction false} ExprSim(fuel: nat, e: Expr, env: Env, f: Frame, l: Locals, p: Program, g: Globals, m: Module)
    requires Linked(p, g, m) && Rel(l, env, f.locals) && ExprOk(e, l, g)
    ensures var r := EvalExpr(fuel, e, env, f.st, DeclsIn(l), p);
            r != Wrong && (r.Ok? ==> r.value.Some? == Pushes(e)) &&
            Exec(fuel, ExprCode(e, l, g), f, m) == LiftExpr(r, f)
    decreases fuel, e, 4
  {
    match e
    case Int(_) => LeafSim(fuel, e, env, f, l, p, g, m);
    case Str(_) => LeafSim(fuel, e, env, f, l, p, g, m);
    case Var(_) => LeafSim(fuel, e, env, f, l, p, g, m);
    case Bin(_, _, _) => BinSim(fuel, e, env, f, l, p, g, m);
    case Neg(_) => NegSim(fuel, e, env, f, l, p, g, m);
    case Not(_) => NotSim(fuel, e, env, f, l, p, g, m);
    case Index(_, _) => LoadSim(fuel, e, env, f, l, p, g, m);
    case Deref(_) => LoadSim(fuel, e, env, f, l, p, g, m);
    case Call(_, _) => CallSim(fuel, e, env, f, l, p, g, m);
  }

  lemma {:induction false} LeafSim(fuel: nat, e: Expr, env: Env, f: Frame, l: Locals, p: Program, g: Globals, m: Module)
    requires Linked(p, g, m) && Rel(l, env, f.locals) && ExprOk(e, l, g) && (e.Int? || e.Str? || e.Var?)
    ensures var r := EvalExpr(fuel, e, env, f.st, DeclsIn(l), p);
            r != Wrong && (r.Ok? ==> r.value.Some?) && Exec(fuel, ExprCode(e, l, g), f, m) == LiftExpr(r, f)
  {
    match e
    case Int(v) => ConstStep(fuel, v, f, m);
    case Str(s) => ConstStep(fuel, StrAt(g, s), f, m);
    case Var(x) => One(fuel, LocalGet(SlotOf(l, x)), f, m);
  }

  lemma {:induction false} NegSim(fuel: nat, e: Expr, env: Env, f: Frame, l: Locals, p: Program, g: Globals, m: Module)
    requires Linked(p, g, m) && Rel(l, env, f.locals) && ExprOk(e, l, g) && e.Neg?
    ensures var r := EvalExpr(fuel, e, env, f.st, DeclsIn(l), p);
            r != Wrong && (r.Ok? ==> r.value.Some?) && Exec(fuel, ExprCode(e, l, g), f, m) == LiftExpr(r, f)
    decreases fuel, e, 0
  {
    hide Exec, Linked, Rel;
    var f0 := f.(stack := f.stack + [Wrap(0)]);
    ConstStep(fuel, 0, f, m);
    Three(fuel, [Const(0)], ExprCode(e.arg, l, g), [Num(I32Sub)], f, m);
    ValueSim(fuel, e.arg, env, f0, l, p, g, m);
    var r := Value(EvalExpr(fuel, e.arg, env, f.st, DeclsIn(l), p));
    if r.Ok? {
      SubZeroStep(fuel, f.stack, r.value, Frame(f0.stack + [r.value], f.locals, r.st), m);
    }
  }

  lemma {:induction false} SubZeroStep(fuel: nat, below: seq<Word>, a: Word, f: Frame, m: Module)
    requires f.stack == below + [Wrap(0)] + [a]
    ensures Exec(fuel, [Num(I32Sub)], f, m) == Normal(f.(stack := below + [Wrap(-Signed(a))]))
  {
    NumStep(fuel, I32Sub, below, Wrap(0), a, f, m);
    NegSigned(a);
  }

  lemma {:induction false} NotSim(fuel: nat, e: Expr, env: Env, f: Frame, l: Locals, p: Program, g: Globals, m: Module)
    requires Linked(p, g, m) && Rel(l, env, f.locals) && ExprOk(e, l, g) && e.Not?
    ensures var r := EvalExpr(fuel, e, env, f.st, DeclsIn(l), p);
            r != Wrong && (r.Ok? ==> r.value.Some?) && Exec(fuel, ExprCode(e, l, g), f, m) == LiftExpr(r, f)
    decreases fuel, e, 0
  {
    Sequence(fuel, ExprCode(e.arg, l, g), [Eqz], f, m);
    ValueSim(fuel, e.arg, env, f, l, p, g, m);
    var r := Value(EvalExpr(fuel, e.arg, env, f.st, DeclsIn(l), p));
    if r.Ok? {
      EqzStep(fuel, f.stack, r.value, Frame(f.stack + [r.value], f.locals, r.st), m);
    }
  }

  lemma {:induction false} ValueSim(fuel: nat, e: Expr, env: Env, f: Frame, l: Locals, p: Program, g: Globals,
      m: Module)
    requires Linked(p, g, m) && Rel(l, env, f.locals) && ValueOk(e, l, g)
    ensures var r := Value(EvalExpr(fuel, e, env, f.st, DeclsIn(l), p));
            r != Wrong && Exec(fuel, ExprCode(e, l, g), f, m) == LiftValue(r, f)
    decreases fuel, e, 5
  {
    ExprSim(fuel, e, env, f, l, p, g, m);
  }

  lemma {:induction false} BinSim(fuel: nat, e: Expr, env: Env, f: Frame, l: Locals, p: Program, g: Globals, m: Module)
    requires Linked(p, g, m) && Rel(l, env, f.locals) && ExprOk(e, l, g) && e.Bin?
    ensures var r := EvalExpr(fuel, e, env, f.st, DeclsIn(l), p);
            r != Wrong && (r.Ok? ==> r.value.Some?) && Exec(fuel, ExprCode(e, l, g), f, m) == LiftExpr(r, f)
    decreases fuel, e, 0
  {
    Three(fuel, ExprCode(e.left, l, g), ExprCode(e.right, l, g), [Num(OpOf(e.op))], f, m);
    ValueSim(fuel, e.left, env, f, l, p, g, m);
    match Value(EvalExpr(fuel, e.left, env, f.st, DeclsIn(l), p))
    case Ok(x, st1) =>
      var f1 := Frame(f.stack + [x], f.locals, st1);
      ValueSim(fuel, e.right, env, f1, l, p, g, m);
      var rb := Value(EvalExpr(fuel, e.right, env, st1, DeclsIn(l), p));
      if rb.Ok? {
        var f2 := Frame(f.stack + [x] + [rb.value], f.locals, rb.st);
        NumStep(fuel, OpOf(e.op), f.stack, x, rb.value, f2, m);
        OperatorSim(e.op, x, rb.value);
      }
    case _ =>
  }

  lemma {:induction false} AddrSim(fuel: nat, e: Expr, env: Env, f: Frame, l: Locals, p: Program, g: Globals, m: Module)
    requires Linked(p, g, m) && Rel(l, env, f.locals) && ExprOk(e, l, g) && IsLval(e)
    ensures var r := EvalAddr(fuel, e, env, f.st, DeclsIn(l), p);
            r != Wrong && Exec(fuel, AddrCode(e, l, g), f, m) == LiftValue(r, f)
    decreases fuel, e, 0
  {
    hide Exec, Linked, Rel;
    match e
    case Index(base, idx) =>
      var k := LvalKind(e, DeclsIn(l));
      Three(fuel, ExprCode(base, l, g), ExprCode(idx, l, g), ScaleCode(k), f, m);
      ValueSim(fuel, base, env, f, l, p, g, m);
      var rb := Value(EvalExpr(fuel, base, env, f.st, DeclsIn(l), p));
      if rb.Ok? {
        var f1 := Frame(f.stack + [rb.value], f.locals, rb.st);
        ValueSim(fuel, idx, env, f1, l, p, g, m);
        var ri := Value(EvalExpr(fuel, idx, env, rb.st, DeclsIn(l), p));
        if ri.Ok? {
          ScaleSim(fuel, k, rb.value, ri.value, f.stack, Frame(f1.stack + [ri.value], f.locals, ri.st), m);
        }
      }
    case Deref(q) => ValueSim(fuel, q, env, f, l, p, g, m);
  }

  /** The index is scaled by the element size and added to the base. */
  lemma {:induction false} ScaleSim(fuel: nat, k: Kind, b: Word, i: Word, below: seq<Word>, f: Frame, m: Module)
    requires f.stack == below + [b] + [i]
    ensures Exec(fuel, ScaleCode(k), f, m) ==
            Normal(f.(stack := below + [Wrap(b + Signed(i) * ElemSize(k))]))
  {
    ScaledIndex(b, i, ElemSize(k));
    if ElemSize(k) == 1 {
      assert ScaleCode(k) == [Num(I32Add)];
      NumStep(fuel, I32Add, below, b, i, f, m);
    } else {
      var v := Wrap(i * 4);
      assert ScaleCode(k) == [Const(4)] + [Num(I32Mul)] + [Num(I32Add)];
      Three(fuel, [Const(4)], [Num(I32Mul)], [Num(I32Add)], f, m);
      ConstStep(fuel, 4, f, m);
      NumStep(fuel, I32Mul, below + [b], i, 4, f.(stack := f.stack + [4]), m);
      NumStep(fuel, I32Add, below, b, v, f.(stack := below + [b] + [v]), m);
    }
  }

  lemma {:induction false} WrapInner(b: int, x: int)
    ensures Wrap(b + Wrap(x)) == Wrap(b + x)
  {
    WrapShift(b + Wrap(x), x / MODULUS);
    assert x == Wrap(x) + (x / MODULUS) * MODULUS;
  }

  lemma {:induction false} ScaledIndex(b: Word, i: Word, size: nat)
    ensures Wrap(b + Signed(i) * size) == Wrap(b + Wrap(i * size)) == Wrap(b + i * size)
  {
    WrapInner(b, i * size);
    if Signed(i) != i {
      assert i * size == Signed(i) * size + size * MODULUS by {
        assert i == Signed(i) + MODULUS;
      }
      WrapShift(b + Signed(i) * size, size);
    }
  }

  lemma {:induction false} LoadSim(fuel: nat, e: Expr, env: Env, f: Frame, l: Locals, p: Program, g: Globals, m: Module)
    requires Linked(p, g, m) && Rel(l, env, f.locals) && ExprOk(e, l, g) && IsLval(e)
    ensures var r := EvalExpr(fuel, e, env, f.st, DeclsIn(l), p);
            r != Wrong && (r.Ok? ==> r.value.Some?) && Exec(fuel, ExprCode(e, l, g), f, m) == LiftExpr(r, f)
    decreases fuel, e, 1
  {
    hide Exec, Linked, Rel;
    var k := LvalKind(e, DeclsIn(l));
    Sequence(fuel, AddrCode(e, l, g), [LoadOp(k)], f, m);
    AddrSim(fuel, e, env, f, l, p, g, m);
    match EvalAddr(fuel, e, env, f.st, DeclsIn(l), p)
    case Ok(a, st1) => One(fuel, LoadOp(k), Frame(f.stack + [a], f.locals, st1), m);
    case _ =>
  }

  // ----- calls -----

  lemma {:induction false} ArgsSim(fuel: nat, es: seq<Expr>, env: Env, f: Frame, l: Locals, p: Program, g: Globals,
      m: Module)
    requires Linked(p, g, m) && Rel(l, env, f.locals) && ArgsOk(es, l, g)
    ensures var r := EvalArgs(fuel, es, env, f.st, DeclsIn(l), p);
            r != Wrong && (r.Ok? ==> |r.value| == |es|) &&
            Exec(fuel, ArgsCode(es, l, g), f, m) == LiftArgs(r, f)
    decreases fuel, es, 1
  {
    hide Rel, Linked;
    if es == [] {
      assert f.stack + [] == f.stack;
    } else {
      Sequence(fuel, ExprCode(es[0], l, g), ArgsCode(es[1..], l, g), f, m);
      ValueSim(fuel, es[0], env, f, l, p, g, m);
      var r0 := Value(EvalExpr(fuel, es[0], env, f.st, DeclsIn(l), p));
      if r0.Ok? {
        var f1 := Frame(f.stack + [r0.value], f.locals, r0.st);
        ArgsSim(fuel, es[1..], env, f1, l, p, g, m);
        var r1 := EvalArgs(fuel, es[1..], env, r0.st, DeclsIn(l), p);
        if r1.Ok? {
          assert f.stack + ([r0.value] + r1.value) == f1.stack + r1.value;
        }
      }
    }
  }

  /** A call instruction on evaluated arguments. */
  lemma {:induction false} InvokeSim(fuel: nat, e: Expr, k: nat, ws: seq<Word>, f: Frame, p: Program, g: Globals,
      m: Module)
    requires Linked(p, g, m) && k < |p.funcs| && |ws| == |p.funcs[k].params|
    ensures var r := if fuel == 0 then OutOfFuel(f.st) else EvalFunc(fuel - 1, k, ws, f.st, p);
            r != Wrong &&
            Exec(fuel, [Instr.Call(2 + k)], f.(stack := f.stack + ws), m) == LiftValue(r, f)
    decreases fuel, e, 0
  {
    hide Exec, EvalFunc;
    ModuleCodeAt(p.funcs, g, k);
    var f1 := f.(stack := f.stack + ws);
    One(fuel, Instr.Call(2 + k), f1, m);
    assert f1.stack[..|f1.stack| - |ws|] == f.stack;
    assert f1.stack[|f1.stack| - |ws|..] == ws;
    if fuel > 0 {
      FuncSim(fuel - 1, k, ws, f.st, p, g, m);
    }
  }

  lemma {:induction false} CallSim(fuel: nat, e: Expr, env: Env, f: Frame, l: Locals, p: Program, g: Globals, m: Module)
    requires Linked(p, g, m) && Rel(l, env, f.locals) && ExprOk(e, l, g) && e.Call?
    ensures var r := EvalExpr(fuel, e, env, f.st, DeclsIn(l), p);
            r != Wrong && (r.Ok? ==> r.value.Some? == Pushes(e)) &&
            Exec(fuel, ExprCode(e, l, g), f, m) == LiftExpr(r, f)
    decreases fuel, e, 3
  {
    hide Exec, Rel;
    if e.name == "print" {
      PrintSim(fuel, StrAt(g, e.args[0].text), |e.args[0].text|, f, m);
    } else if e.name == "print_int" || e.name == "putchar" {
      PrintIntSim(fuel, e.args[0], env, f, l, p, g, m);
    } else if e.name == "malloc" {
      MallocSim(fuel, e.args[0], env, f, l, p, g, m);
    } else if e.name == "free" {
      FreeSim(fuel, e, env, f, l, p, g, m);
    } else if e.name == "print_str" && |e.args| == 1 {
      PrintStrSim(fuel, e, env, f, l, p, g, m);
    } else {
      UserCallSim(fuel, e, env, f, l, p, g, m);
    }
  }

  lemma {:induction false} PrintIntSim(fuel: nat, a: Expr, env: Env, f: Frame, l: Locals, p: Program, g: Globals,
      m: Module)
    requires Linked(p, g, m) && Rel(l, env, f.locals) && ValueOk(a, l, g)
    ensures var r := Value(EvalExpr(fuel, a, env, f.st, DeclsIn(l), p));
            r != Wrong &&
            Exec(fuel, ExprCode(a, l, g) + [Instr.Call(1)], f, m) ==
            LiftExpr(if r.Ok? then Ok(None, W.HostPrintInt(r.st, r.value)) else r.PropagateFailure(), f)
    decreases fuel, a, 6
  {
    Sequence(fuel, ExprCode(a, l, g), [Instr.Call(1)], f, m);
    ValueSim(fuel, a, env, f, l, p, g, m);
    var r := Value(EvalExpr(fuel, a, env, f.st, DeclsIn(l), p));
    if r.Ok? {
      One(fuel, Instr.Call(1), Frame(f.stack + [r.value], f.locals, r.st), m);
    }
  }

  /** A call of a defined function, given the result of its arguments. */
  function FinishCall(fuel: nat, k: nat, ra: Res<seq<Word>>, p: Program): Res<Word>
    requires k < |p.funcs|
  {
    var (ws, st1) :- ra;
    if |ws| != |p.funcs[k].params| then Wrong
    else if fuel == 0 then OutOfFuel(st1)
    else EvalFunc(fuel - 1, k, ws, st1, p)
  }

  lemma {:induction false} UserCallSim(fuel: nat, e: Expr, env: Env, f: Frame, l: Locals, p: Program, g: Globals,
      m: Module)
    requires Linked(p, g, m) && Rel(l, env, f.locals) && ExprOk(e, l, g) && e.Call?
    requires !IsPrint(e.name, e.args) && e.name != "malloc" && e.name != "free"
    ensures var r := EvalExpr(fuel, e, env, f.st, DeclsIn(l), p);
            r != Wrong && (r.Ok? ==> r.value.Some?) && Exec(fuel, ExprCode(e, l, g), f, m) == LiftExpr(r, f)
    decreases fuel, e, 2
  {
    FuncTableLookup(p.funcs, e.name);
    FinishCallSim(fuel, e, Lookup(p.funcs, e.name).value, env, f, l, p, g, m);
    UserCallEval(fuel, e, env, f.st, DeclsIn(l), p);
    UserCallCode(e, l, g);
  }

  lemma {:induction false} FinishCallSim(fuel: nat, e: Expr, k: nat, env: Env, f: Frame, l: Locals, p: Program,
      g: Globals, m: Module)
    requires Linked(p, g, m) && Rel(l, env, f.locals) && e.Call? && ArgsOk(e.args, l, g)
    requires k < |p.funcs| && |e.args| == |p.funcs[k].params|
    ensures var r := FinishCall(fuel, k, EvalArgs(fuel, e.args, env, f.st, DeclsIn(l), p), p);
            r != Wrong && Exec(fuel, ArgsCode(e.args, l, g) + [Instr.Call(2 + k)], f, m) == LiftValue(r, f)
    decreases fuel, e, 1
  {
    Sequence(fuel, ArgsCode(e.args, l, g), [Instr.Call(2 + k)], f, m);
    ArgsSim(fuel, e.args, env, f, l, p, g, m);
    var ra := EvalArgs(fuel, e.args, env, f.st, DeclsIn(l), p);
    if ra.Ok? {
      InvokeSim(fuel, e, k, ra.value, Frame(f.stack, f.locals, ra.st), p, g, m);
    }
  }

  lemma {:induction false} UserCallCode(e: Expr, l: Locals, g: Globals)
    requires e.Call? && !IsPrint(e.name, e.args) && e.name != "malloc" && e.name != "free"
    ensures ExprCode(e, l, g) == ArgsCode(e.args, l, g) + [Instr.Call(FuncAt(g, e.name))]
  {
  }

  lemma {:induction false} UserCallEval(fuel: nat, e: Expr, env: Env, st: Store, t: Symbols, p: Program)
    requires e.Call? && !IsPrint(e.name, e.args) && e.name != "malloc" && e.name != "free"
    requires Lookup(p.funcs, e.name).Some?
    ensures var r := FinishCall(fuel, Lookup(p.funcs, e.name).value, EvalArgs(fuel, e.args, env, st, t, p), p);
            EvalExpr(fuel, e, env, st, t, p) == if r.Ok? then Ok(Some(r.value), r.st) else r.PropagateFailure()
  {
  }

  lemma {:induction false} PrintSim(fuel: nat, off: int, len: int, f: Frame, m: Module)
    ensures Exec(fuel, [Const(off), Const(len), Instr.Call(0)], f, m) ==
            LiftExpr(PrintText(Wrap(off), Wrap(len), f.st), f)
  {
    assert [Const(off), Const(len), Instr.Call(0)] == [Const(off)] + [Const(len)] + [Instr.Call(0)];
    Three(fuel, [Const(off)], [Const(len)], [Instr.Call(0)], f, m);
    var f1 := f.(stack := f.stack + [Wrap(off)]);
    var f2 := f.(stack := f.stack + [Wrap(off)] + [Wrap(len)]);
    One(fuel, Const(off), f, m);
    One(fuel, Const(len), f1, m);
    LogSim(fuel, Wrap(off), Wrap(len), f, m);
    assert f2.stack == f.stack + [Wrap(off), Wrap(len)];
  }

  lemma {:induction false} LogSim(fuel: nat, ptr: Word, len: Word, f: Frame, m: Module)
    ensures Exec(fuel, [Instr.Call(0)], f.(stack := f.stack + [ptr, len]), m) ==
            LiftExpr(PrintText(ptr, len, f.st), f)
  {
    var f2 := f.(stack := f.stack + [ptr, len]);
    One(fuel, Instr.Call(0), f2, m);
    assert f2.stack[..|f2.stack| - 2] == f.stack;
  }

  /** With the old heap pointer and the pointer to advance on the stack, the tail adds the
      size, rounds up and stores the new heap pointer. */
  lemma {:induction false} BumpSim(fuel: nat, base: Word, n: Word, f: Frame, m: Module)
    ensures Exec(fuel, BUMP_TAIL, f.(stack := f.stack + [base, n]), m) ==
            Normal(f.(st := f.st.(heap := Bump(base, n))))
  {
    var add := [Num(I32Add)] + [Const(3)] + [Num(I32Add)];
    var mask := [Const(-4)] + [Num(I32And)] + [GlobalSet(0)];
    assert BUMP_TAIL == add + mask;
    Sequence(fuel, add, mask, f.(stack := f.stack + [base, n]), m);
    BumpAdd(fuel, base, n, f, m);
    BumpMask(fuel, Wrap(Wrap(base + n) + 3), f, m);
  }

  lemma {:induction false} BumpAdd(fuel: nat, base: Word, n: Word, f: Frame, m: Module)
    ensures Exec(fuel, [Num(I32Add)] + [Const(3)] + [Num(I32Add)], f.(stack := f.stack + [base, n]), m) ==
            Normal(f.(stack := f.stack + [Wrap(Wrap(base + n) + 3)]))
  {
    var sum := Wrap(base + n);
    var f0, f1 := f.(stack := f.stack + [base, n]), f.(stack := f.stack + [sum]);
    assert f0.stack == f.stack + [base] + [n];
    Three(fuel, [Num(I32Add)], [Const(3)], [Num(I32Add)], f0, m);
    NumStep(fuel, I32Add, f.stack, base, n, f0, m);
    ConstStep(fuel, 3, f1, m);
    NumStep(fuel, I32Add, f.stack, sum, 3, f.(stack := f1.stack + [3]), m);
  }

  lemma {:induction false} BumpMask(fuel: nat, top: Word, f: Frame, m: Module)
    ensures Exec(fuel, [Const(-4)] + [Num(I32And)] + [GlobalSet(0)], f.(stack := f.stack + [top]), m) ==
            Normal(f.(st := f.st.(heap := top - top % 4)))
  {
    var f0, f1 := f.(stack := f.stack + [top]), f.(stack := f.stack + [top - top % 4]);
    Three(fuel, [Const(-4)], [Num(I32And)], [GlobalSet(0)], f0, m);
    ConstStep(fuel, -4, f0, m);
    NumStep(fuel, I32And, f.stack, top, Wrap(-4), f.(stack := f0.stack + [Wrap(-4)]), m);
    MaskLowTwoBits(top);
    One(fuel, GlobalSet(0), f1, m);
    assert f1.stack[..|f1.stack| - 1] == f.stack;
  }

  lemma {:induction false} MallocSim(fuel: nat, n: Expr, env: Env, f: Frame, l: Locals, p: Program, g: Globals,
      m: Module)
    requires Linked(p, g, m) && Rel(l, env, f.locals) && ValueOk(n, l, g)
    ensures var r := Value(EvalExpr(fuel, n, env, f.st, DeclsIn(l), p));
            r != Wrong &&
            Exec(fuel, [GlobalGet(0), GlobalGet(0)] + ExprCode(n, l, g) + BUMP_TAIL, f, m) ==
            LiftValue(if r.Ok? then Ok(f.st.heap, r.st.(heap := Bump(f.st.heap, r.value))) else r, f)
    decreases fuel, n, 6
  {
    var h := f.st.heap;
    var f1 := f.(stack := f.stack + [h]);
    var f2 := f.(stack := f.stack + [h] + [h]);
    Three(fuel, [GlobalGet(0), GlobalGet(0)], ExprCode(n, l, g), BUMP_TAIL, f, m);
    assert [GlobalGet(0), GlobalGet(0)] == [GlobalGet(0)] + [GlobalGet(0)];
    Sequence(fuel, [GlobalGet(0)], [GlobalGet(0)], f, m);
    One(fuel, GlobalGet(0), f, m);
    One(fuel, GlobalGet(0), f1, m);
    ValueSim(fuel, n, env, f2, l, p, g, m);
    var r := Value(EvalExpr(fuel, n, env, f.st, DeclsIn(l), p));
    if r.Ok? {
      BumpSim(fuel, h, r.value, Frame(f.stack + [h], f.locals, r.st), m);
      assert f2.stack + [r.value] == f.stack + [h] + [h, r.value];
    }
  }

  lemma {:induction false} FreeSim(fuel: nat, e: Expr, env: Env, f: Frame, l: Locals, p: Program, g: Globals, m: Module)
    requires Linked(p, g, m) && Rel(l, env, f.locals) && ExprOk(e, l, g) && e.Call? && e.name == "free"
    ensures var r := EvalExpr(fuel, e, env, f.st, DeclsIn(l), p);
            r != Wrong && (r.Ok? ==> r.value.Some?) && Exec(fuel, ExprCode(e, l, g), f, m) == LiftExpr(r, f)
    decreases fuel, e, 0
  {
    if e.args == [] {
      assert ExprCode(e, l, g) == [Const(0)];
      One(fuel, Const(0), f, m);
    } else {
      var a := e.args[0];
      DiscardSim(fuel, a, env, f, l, p, g, m);
      Sequence(fuel, ExprCode(a, l, g) + (if Pushes(a) then [Drop] else []), [Const(0)], f, m);
      var r := EvalExpr(fuel, a, env, f.st, DeclsIn(l), p);
      if r.Ok? {
        One(fuel, Const(0), Frame(f.stack, f.locals, r.st), m);
      }
    }
  }

  /** An expression evaluated for its effect leaves the stack as it was. */
  lemma {:induction false} DiscardSim(fuel: nat, e: Expr, env: Env, f: Frame, l: Locals, p: Program, g: Globals,
      m: Module)
    requires Linked(p, g, m) && Rel(l, env, f.locals) && ExprOk(e, l, g)
    ensures var r := EvalExpr(fuel, e, env, f.st, DeclsIn(l), p);
            r != Wrong &&
            Exec(fuel, ExprCode(e, l, g) + (if Pushes(e) then [Drop] else []), f, m) ==
            LiftExpr(if r.Ok? then Ok(None, r.st) else r, f)
    decreases fuel, e, 6
  {
    ExprSim(fuel, e, env, f, l, p, g, m);
    Sequence(fuel, ExprCode(e, l, g), if Pushes(e) then [Drop] else [], f, m);
    var r := EvalExpr(fuel, e, env, f.st, DeclsIn(l), p);
    if r.Ok? && Pushes(e) {
      One(fuel, Drop, Frame(f.stack + [r.value.value], f.locals, r.st), m);
    }
  }

  lemma {:induction false} PrintStrSim(fuel: nat, e: Expr, env: Env, f: Frame, l: Locals, p: Program, g: Globals,
      m: Module)
    requires Linked(p, g, m) && Rel(l, env, f.locals) && ExprOk(e, l, g)
    requires e.Call? && e.name == "print_str" && |e.args| == 1
    ensures var r := EvalExpr(fuel, e, env, f.st, DeclsIn(l), p);
            r != Wrong && (r.Ok? ==> r.value.None?) && Exec(fuel, ExprCode(e, l, g), f, m) == LiftExpr(r, f)
    decreases fuel, e, 0
  {
    FuncTableLookup(p.funcs, "strlen");
    PrintStrEval(fuel, e, env, f.st, DeclsIn(l), p);
    PrintStrCode(e, l, g);
    if "strlen" in g.funcs {
      PrintStrlenSim(fuel, e.args[0], Lookup(p.funcs, "strlen").value, env, f, l, p, g, m);
    } else {
      PrintEmptySim(fuel, e.args[0], env, f, l, p, g, m);
    }
  }

  lemma {:induction false} PrintStrEval(fuel: nat, e: Expr, env: Env, st: Store, t: Symbols, p: Program)
    requires e.Call? && e.name == "print_str" && |e.args| == 1
    ensures var ra := Value(EvalExpr(fuel, e.args[0], env, st, t, p));
            var rb := if ra.Ok? then Value(EvalExpr(fuel, e.args[0], env, ra.st, t, p)) else ra;
            EvalExpr(fuel, e, env, st, t, p) ==
            match Lookup(p.funcs, "strlen")
            case Some(k) => FinishPrint(fuel, k, ra, rb, p)
            case None => if ra.Ok? then PrintText(ra.value, 0, ra.st) else ra.PropagateFailure()
  {
  }

  lemma {:induction false} PrintStrCode(e: Expr, l: Locals, g: Globals)
    requires e.Call? && e.name == "print_str" && |e.args| == 1
    ensures var code := ExprCode(e.args[0], l, g);
            ExprCode(e, l, g) ==
            if "strlen" in g.funcs then code + (code + [Instr.Call(g.funcs["strlen"].0)]) + [Instr.Call(0)]
            else code + [Const(0)] + [Instr.Call(0)]
  {
  }

  lemma {:induction false} PrintEmptySim(fuel: nat, a: Expr, env: Env, f: Frame, l: Locals, p: Program, g: Globals,
      m: Module)
    requires Linked(p, g, m) && Rel(l, env, f.locals) && ValueOk(a, l, g)
    ensures var ra := Value(EvalExpr(fuel, a, env, f.st, DeclsIn(l), p));
            ra != Wrong &&
            Exec(fuel, ExprCode(a, l, g) + [Const(0)] + [Instr.Call(0)], f, m) ==
            LiftExpr(if ra.Ok? then PrintText(ra.value, 0, ra.st) else ra.PropagateFailure(), f)
    decreases fuel, a, 6
  {
    Three(fuel, ExprCode(a, l, g), [Const(0)], [Instr.Call(0)], f, m);
    ValueSim(fuel, a, env, f, l, p, g, m);
    var ra := Value(EvalExpr(fuel, a, env, f.st, DeclsIn(l), p));
    if ra.Ok? {
      ConstStep(fuel, 0, Frame(f.stack + [ra.value], f.locals, ra.st), m);
      PushedLogSim(fuel, ra.value, 0, f, ra.st, m);
    }
  }

  /** Print the text at the value of `ra`, with the length that `strlen` gives for `rb`. */
  function FinishPrint(fuel: nat, k: nat, ra: Res<Word>, rb: Res<Word>, p: Program): Res<Option<Word>>
    requires k < |p.funcs|
  {
    var (a, _) :- ra;
    var (b, st2) :- rb;
    var (n, st3) :- if fuel == 0 then OutOfFuel(st2) else EvalFunc(fuel - 1, k, [b], st2, p);
    PrintText(a, n, st3)
  }

  lemma {:induction false} PrintStrlenSim(fuel: nat, a: Expr, k: nat, env: Env, f: Frame, l: Locals, p: Program,
      g: Globals, m: Module)
    requires Linked(p, g, m) && Rel(l, env, f.locals) && ValueOk(a, l, g)
    requires k < |p.funcs| && |p.funcs[k].params| == 1
    ensures var ra := Value(EvalExpr(fuel, a, env, f.st, DeclsIn(l), p));
            ra != Wrong &&
            var rb := if ra.Ok? then Value(EvalExpr(fuel, a, env, ra.st, DeclsIn(l), p)) else ra;
            var r := FinishPrint(fuel, k, ra, rb, p);
            r != Wrong && (r.Ok? ==> r.value.None?) &&
            Exec(fuel, ExprCode(a, l, g) + (ExprCode(a, l, g) + [Instr.Call(2 + k)]) + [Instr.Call(0)], f, m) ==
            LiftExpr(r, f)
    decreases fuel, a, 7
  {
    var code := ExprCode(a, l, g);
    Three(fuel, code, code + [Instr.Call(2 + k)], [Instr.Call(0)], f, m);
    ValueSim(fuel, a, env, f, l, p, g, m);
    var ra := Value(EvalExpr(fuel, a, env, f.st, DeclsIn(l), p));
    if ra.Ok? {
      StrlenSim(fuel, a, k, env, Frame(f.stack + [ra.value], f.locals, ra.st), l, p, g, m);
      var rb := Value(EvalExpr(fuel, a, env, ra.st, DeclsIn(l), p));
      if rb.Ok? && fuel > 0 {
        var rn := EvalFunc(fuel - 1, k, [rb.value], rb.st, p);
        if rn.Ok? {
          PushedLogSim(fuel, ra.value, rn.value, f, rn.st, m);
        }
      }
    }
  }

  lemma {:induction false} PushedLogSim(fuel: nat, ptr: Word, len: Word, f: Frame, st: Store, m: Module)
    ensures Exec(fuel, [Instr.Call(0)], Frame(f.stack + [ptr] + [len], f.locals, st), m) ==
            LiftExpr(PrintText(ptr, len, st), f)
  {
    LogSim(fuel, ptr, len, f.(st := st), m);
    assert f.stack + [ptr] + [len] == f.stack + [ptr, len];
  }

  /** The argument of `print_str` is evaluated again for its length. */
  lemma {:induction false} StrlenSim(fuel: nat, a: Expr, k: nat, env: Env, f: Frame, l: Locals, p: Program,
      g: Globals, m: Module)
    requires Linked(p, g, m) && Rel(l, env, f.locals) && ValueOk(a, l, g)
    requires k < |p.funcs| && |p.funcs[k].params| == 1
    ensures var ra := Value(EvalExpr(fuel, a, env, f.st, DeclsIn(l), p));
            ra != Wrong &&
            var r := if !ra.Ok? then ra
                     else if fuel == 0 then OutOfFuel(ra.st) else EvalFunc(fuel - 1, k, [ra.value], ra.st, p);
            r != Wrong && Exec(fuel, ExprCode(a, l, g) + [Instr.Call(2 + k)], f, m) == LiftValue(r, f)
    decreases fuel, a, 6
  {
    Sequence(fuel, ExprCode(a, l, g), [Instr.Call(2 + k)], f, m);
    ValueSim(fuel, a, env, f, l, p, g, m);
    var ra := Value(EvalExpr(fuel, a, env, f.st, DeclsIn(l), p));
    if ra.Ok? {
      InvokeSim(fuel, a, k, [ra.value], f.(st := ra.st), p, g, m);
    }
  }

  // ----- statements -----

  lemma {:induction false} StmtsSim(fuel: nat, ss: seq<Stmt>, env: Env, f: Frame, l: Locals, p: Program, g: Globals,
      m: Module)
    requires Linked(p, g, m) && Rel(l, env, f.locals) && StmtsOk(ss, l, g)
    ensures Agree(EvalStmts(fuel, ss, env, f.st, DeclsIn(l), p), Exec(fuel, StmtsCode(ss, l, g), f, m), f.stack, l)
    decreases fuel, ss, 2
  {
    if ss != [] {
      Sequence(fuel, StmtCode(ss[0], l, g), StmtsCode(ss[1..], l, g), f, m);
      StmtSim(fuel, ss[0], env, f, l, p, g, m);
      var r := EvalStmt(fuel, ss[0], env, f.st, DeclsIn(l), p);
      if r.Ok? && r.value.Next? {
        var o := Exec(fuel, StmtCode(ss[0], l, g), f, m);
        StmtsSim(fuel, ss[1..], r.value.env, o.f, l, p, g, m);
      }
    }
  }

  lemma {:induction false} StmtSim(fuel: nat, s: Stmt, env: Env, f: Frame, l: Locals, p: Program, g: Globals, m: Module)
    requires Linked(p, g, m) && Rel(l, env, f.locals) && StmtOk(s, l, g)
    ensures Agree(EvalStmt(fuel, s, env, f.st, DeclsIn(l), p), Exec(fuel, StmtCode(s, l, g), f, m), f.stack, l)
    decreases fuel, s, 3
  {
    match s
    case Decl(x, _, init, _) =>
      if init.Some? { SetSim(fuel, s, x, init.value, env, f, l, p, g, m); }
    case Assign(x, e) => SetSim(fuel, s, x, e, env, f, l, p, g, m);
    case StoreLval(_, _) => StoreSim(fuel, s, env, f, l, p, g, m);
    case ExprStmt(e) => DiscardSim(fuel, e, env, f, l, p, g, m);
    case Return(_) => ReturnSim(fuel, s, env, f, l, p, g, m);
    case If(_, _, _) => IfSim(fuel, s, env, f, l, p, g, m);
    case While(c, body) =>
      WhileSim(fuel, s, env, Frame([], f.locals, f.st), l, p, g, m);
      LoopCodeRun(fuel, ExprCode(c, l, g), StmtsCode(body, l, g), f, m);
    case For(_, _, _, _) => ForStmtSim(fuel, s, env, f, l, p, g, m);
  }

  lemma {:induction false} ReturnSim(fuel: nat, s: Stmt, env: Env, f: Frame, l: Locals, p: Program, g: Globals,
      m: Module)
    requires Linked(p, g, m) && Rel(l, env, f.locals) && StmtOk(s, l, g) && s.Return?
    ensures Agree(EvalStmt(fuel, s, env, f.st, DeclsIn(l), p), Exec(fuel, StmtCode(s, l, g), f, m), f.stack, l)
    decreases fuel, s, 0
  {
    if s.result.None? {
      assert StmtCode(s, l, g) == [Const(0)] + [W.Return];
      Sequence(fuel, [Const(0)], [W.Return], f, m);
      ConstStep(fuel, 0, f, m);
      One(fuel, W.Return, f.(stack := f.stack + [0]), m);
    } else {
      var e := s.result.value;
      Sequence(fuel, ExprCode(e, l, g), [W.Return], f, m);
      ValueSim(fuel, e, env, f, l, p, g, m);
      var r := Value(EvalExpr(fuel, e, env, f.st, DeclsIn(l), p));
      if r.Ok? {
        One(fuel, W.Return, Frame(f.stack + [r.value], f.locals, r.st), m);
      }
    }
  }

  lemma {:induction false} IfStep(fuel: nat, thn: seq<Instr>, hasElse: bool, els: seq<Instr>, w: Word,
      below: seq<Word>, f: Frame, m: Module)
    requires f.stack == below + [w]
    ensures Exec(fuel, [IfCode(thn, hasElse, els)], f, m) ==
            if w != 0 then Leave(Exec(fuel, thn, f.(stack := []), m), below)
            else if hasElse then Leave(Exec(fuel, els, f.(stack := []), m), below)
            else Normal(f.(stack := below))
  {
    One(fuel, IfCode(thn, hasElse, els), f, m);
    assert f.stack[..|f.stack| - 1] == below;
  }

  lemma {:induction false} IfSim(fuel: nat, s: Stmt, env: Env, f: Frame, l: Locals, p: Program, g: Globals, m: Module)
    requires Linked(p, g, m) && Rel(l, env, f.locals) && StmtOk(s, l, g) && s.If?
    ensures Agree(EvalStmt(fuel, s, env, f.st, DeclsIn(l), p), Exec(fuel, StmtCode(s, l, g), f, m), f.stack, l)
    decreases fuel, s, 0
  {
    var thn, els := StmtsCode(s.thn, l, g), StmtsCode(s.els, l, g);
    Sequence(fuel, ExprCode(s.cond, l, g), [IfCode(thn, s.els != [], els)], f, m);
    ValueSim(fuel, s.cond, env, f, l, p, g, m);
    var r := Value(EvalExpr(fuel, s.cond, env, f.st, DeclsIn(l), p));
    if r.Ok? {
      IfStep(fuel, thn, s.els != [], els, r.value, f.stack, Frame(f.stack + [r.value], f.locals, r.st), m);
      assert f.stack + [] == f.stack;
      StmtsSim(fuel, if r.value != 0 then s.thn else s.els, env, Frame([], f.locals, r.st), l, p, g, m);
    }
  }

  lemma {:induction false} ForStmtSim(fuel: nat, s: Stmt, env: Env, f: Frame, l: Locals, p: Program, g: Globals,
      m: Module)
    requires Linked(p, g, m) && Rel(l, env, f.locals) && StmtOk(s, l, g) && s.For?
    ensures Agree(EvalStmt(fuel, s, env, f.st, DeclsIn(l), p), Exec(fuel, StmtCode(s, l, g), f, m), f.stack, l)
    decreases fuel, s, 2
  {
    var cond, pass := ExprCode(s.cond, l, g), StmtsCode(s.body, l, g) + StmtCode(s.step, l, g);
    Sequence(fuel, StmtCode(s.init_, l, g), LoopCode(cond, pass), f, m);
    StmtSim(fuel, s.init_, env, f, l, p, g, m);
    var r := EvalStmt(fuel, s.init_, env, f.st, DeclsIn(l), p);
    if r.Ok? && r.value.Next? {
      var f1 := Exec(fuel, StmtCode(s.init_, l, g), f, m).f;
      ForSim(fuel, s, r.value.env, Frame([], f1.locals, f1.st), l, p, g, m);
      LoopCodeRun(fuel, cond, pass, f1, m);
    }
  }

  lemma {:induction false} SetSim(fuel: nat, s: Stmt, x: string, e: Expr, env: Env, f: Frame, l: Locals, p: Program,
      g: Globals, m: Module)
    requires Linked(p, g, m) && Rel(l, env, f.locals) && Get(l, x).Some? && ValueOk(e, l, g) && e < s
    ensures var r := Value(EvalExpr(fuel, e, env, f.st, DeclsIn(l), p));
            Agree(if r.Ok? then Ok(Next(env[x := r.value]), r.st) else r.PropagateFailure(),
                  Exec(fuel, ExprCode(e, l, g) + [LocalSet(SlotOf(l, x))], f, m), f.stack, l)
    decreases fuel, s, 0
  {
    Sequence(fuel, ExprCode(e, l, g), [LocalSet(SlotOf(l, x))], f, m);
    ValueSim(fuel, e, env, f, l, p, g, m);
    var r := Value(EvalExpr(fuel, e, env, f.st, DeclsIn(l), p));
    if r.Ok? {
      One(fuel, LocalSet(SlotOf(l, x)), Frame(f.stack + [r.value], f.locals, r.st), m);
      RelUpdate(l, env, f.locals, x, r.value);
    }
  }

  lemma {:induction false} StoreSim(fuel: nat, s: Stmt, env: Env, f: Frame, l: Locals, p: Program, g: Globals,
      m: Module)
    requires Linked(p, g, m) && Rel(l, env, f.locals) && StmtOk(s, l, g) && s.StoreLval?
    ensures Agree(EvalStmt(fuel, s, env, f.st, DeclsIn(l), p), Exec(fuel, StmtCode(s, l, g), f, m), f.stack, l)
    decreases fuel, s, 0
  {
    hide Exec, Linked, Rel;
    var op := StoreOp(LvalKind(s.lval, DeclsIn(l)));
    Three(fuel, AddrCode(s.lval, l, g), ExprCode(s.value, l, g), [op], f, m);
    AddrSim(fuel, s.lval, env, f, l, p, g, m);
    var ra := EvalAddr(fuel, s.lval, env, f.st, DeclsIn(l), p);
    if ra.Ok? {
      var f1 := Frame(f.stack + [ra.value], f.locals, ra.st);
      ValueSim(fuel, s.value, env, f1, l, p, g, m);
      var rv := Value(EvalExpr(fuel, s.value, env, ra.st, DeclsIn(l), p));
      if rv.Ok? {
        var f2 := Frame(f.stack + [ra.value] + [rv.value], f.locals, rv.st);
        One(fuel, op, f2, m);
        assert f2.stack[..|f2.stack| - 2] == f.stack;
      }
    }
  }

  // ----- loops -----

  /** One pass through a loop body: leave the block when the condition is zero. */
  lemma {:induction false} LoopOnce(fuel: nat, cond: seq<Instr>, body: seq<Instr>, w: Word, f: Frame, st: Store,
      m: Module)
    requires f.stack == [] && Exec(fuel, cond, f, m) == Normal(Frame([w], f.locals, st))
    ensures Exec(fuel, LoopBody(cond, body), f, m) ==
            if w == 0 then Branch(1, Frame([], f.locals, st))
            else Then(fuel, Exec(fuel, body, Frame([], f.locals, st), m), [Br(0)], m)
  {
    var f1 := Frame([], f.locals, st);
    assert LoopBody(cond, body) == cond + [Eqz, BrIf(1)] + (body + [Br(0)]);
    Three(fuel, cond, [Eqz, BrIf(1)], body + [Br(0)], f, m);
    LoopTest(fuel, w, f1, m);
    assert f1.stack + [w] == [w];
    Sequence(fuel, body, [Br(0)], f1, m);
  }

  lemma {:induction false} LoopFails(fuel: nat, cond: seq<Instr>, body: seq<Instr>, f: Frame, m: Module)
    requires !Exec(fuel, cond, f, m).Normal?
    ensures Exec(fuel, LoopBody(cond, body), f, m) == Exec(fuel, cond, f, m)
  {
    assert LoopBody(cond, body) == cond + ([Eqz, BrIf(1)] + (body + [Br(0)]));
    Sequence(fuel, cond, [Eqz, BrIf(1)] + (body + [Br(0)]), f, m);
  }

  /** What a loop does once it has run a pass that started from a true condition. */
  function NextPass(fuel: nat, o: Outcome, loop: Instr, m: Module): Outcome {
    match o
    case Normal(f) => if fuel == 0 then Timeout(f.st) else Step(fuel - 1, loop, f.(stack := []), m)
    case Branch(_, _) => Stuck
    case r => r
  }

  lemma {:induction false} LoopStep(fuel: nat, cond: seq<Instr>, body: seq<Instr>, w: Word, f: Frame, st: Store,
      m: Module)
    requires f.stack == [] && Exec(fuel, cond, f, m) == Normal(Frame([w], f.locals, st))
    requires w != 0 ==> !Exec(fuel, body, Frame([], f.locals, st), m).Branch?
    ensures Step(fuel, Loop(LoopBody(cond, body)), f, m) ==
            if w == 0 then Branch(0, Frame([], f.locals, st))
            else NextPass(fuel, Exec(fuel, body, Frame([], f.locals, st), m), Loop(LoopBody(cond, body)), m)
  {
    LoopOnce(fuel, cond, body, w, f, st, m);
    assert f.(stack := []) == f;
    if w != 0 {
      var o := Exec(fuel, body, Frame([], f.locals, st), m);
      if o.Normal? {
        One(fuel, Br(0), o.f, m);
      }
    }
  }

  lemma {:induction false} LoopTest(fuel: nat, w: Word, f: Frame, m: Module)
    ensures Exec(fuel, [Eqz, BrIf(1)], f.(stack := f.stack + [w]), m) ==
            if w == 0 then Branch(1, f) else Normal(f)
  {
    var f1, f2 := f.(stack := f.stack + [w]), f.(stack := f.stack + [Bool(w == 0)]);
    assert [Eqz, BrIf(1)] == [Eqz] + [BrIf(1)];
    Sequence(fuel, [Eqz], [BrIf(1)], f1, m);
    One(fuel, Eqz, f1, m);
    assert f1.stack[..|f1.stack| - 1] == f.stack == f2.stack[..|f2.stack| - 1];
    One(fuel, BrIf(1), f2, m);
  }

  /** The block around a loop is left by the branch that the loop passes on. */
  lemma {:induction false} LoopCodeRun(fuel: nat, cond: seq<Instr>, body: seq<Instr>, f: Frame, m: Module)
    ensures Exec(fuel, LoopCode(cond, body), f, m) ==
            Leave(Step(fuel, Loop(LoopBody(cond, body)), f.(stack := []), m), f.stack)
  {
    One(fuel, Block([Loop(LoopBody(cond, body))]), f, m);
    One(fuel, Loop(LoopBody(cond, body)), f.(stack := []), m);
  }

  /** A loop instruction ends by branching to its block, or by what ends the function. */
  ghost predicate AgreeLoop(r: Res<Flow>, o: Outcome, l: Locals) {
    match r
    case Ok(Next(env), st) => o.Branch? && o.depth == 0 && o.f.st == st && Rel(l, env, o.f.locals)
    case Ok(Ret(w), st) => o == Returned(w, st)
    case Trapped(st) => o == Trap(st)
    case OutOfFuel(st) => o == Timeout(st)
    case Wrong => false
  }

  lemma {:induction false} WhileSim(fuel: nat, s: Stmt, env: Env, f: Frame, l: Locals, p: Program, g: Globals,
      m: Module)
    requires Linked(p, g, m) && Rel(l, env, f.locals) && StmtOk(s, l, g) && s.While? && f.stack == []
    ensures AgreeLoop(EvalStmt(fuel, s, env, f.st, DeclsIn(l), p),
                      Step(fuel, Loop(LoopBody(ExprCode(s.cond, l, g), StmtsCode(s.body, l, g))), f, m), l)
    decreases fuel, s, 0
  {
    hide Exec, Linked, Rel;
    var cond, body := ExprCode(s.cond, l, g), StmtsCode(s.body, l, g);
    ValueSim(fuel, s.cond, env, f, l, p, g, m);
    var r := Value(EvalExpr(fuel, s.cond, env, f.st, DeclsIn(l), p));
    if !r.Ok? {
      LoopFails(fuel, cond, body, f, m);
      assert f.(stack := []) == f;
    } else {
      var f1 := Frame([], f.locals, r.st);
      assert f.stack + [r.value] == [r.value];
      if r.value != 0 {
        StmtsSim(fuel, s.body, env, f1, l, p, g, m);
      }
      LoopStep(fuel, cond, body, r.value, f, r.st, m);
      var rb := EvalStmts(fuel, s.body, env, r.st, DeclsIn(l), p);
      if r.value != 0 && rb.Ok? && rb.value.Next? && fuel > 0 {
        WhileSim(fuel - 1, s, rb.value.env, Exec(fuel, body, f1, m).f, l, p, g, m);
      }
    }
  }

  /** The body of a `for` and its step, run as one pass. */
  lemma {:induction false} PassSim(fuel: nat, s: Stmt, env: Env, f: Frame, l: Locals, p: Program, g: Globals, m: Module)
    requires Linked(p, g, m) && Rel(l, env, f.locals) && StmtOk(s, l, g) && s.For?
    ensures var rb := EvalStmts(fuel, s.body, env, f.st, DeclsIn(l), p);
            var r := if rb.Ok? && rb.value.Next? then EvalStmt(fuel, s.step, rb.value.env, rb.st, DeclsIn(l), p)
              else rb;
            Agree(r, Exec(fuel, StmtsCode(s.body, l, g) + StmtCode(s.step, l, g), f, m), f.stack, l)
    decreases fuel, s, 0
  {
    StmtsSim(fuel, s.body, env, f, l, p, g, m);
    Sequence(fuel, StmtsCode(s.body, l, g), StmtCode(s.step, l, g), f, m);
    var rb := EvalStmts(fuel, s.body, env, f.st, DeclsIn(l), p);
    if rb.Ok? && rb.value.Next? {
      StmtSim(fuel, s.step, rb.value.env, Exec(fuel, StmtsCode(s.body, l, g), f, m).f, l, p, g, m);
    }
  }

  lemma {:induction false} ForSim(fuel: nat, s: Stmt, env: Env, f: Frame, l: Locals, p: Program, g: Globals, m: Module)
    requires Linked(p, g, m) && Rel(l, env, f.locals) && StmtOk(s, l, g) && s.For? && f.stack == []
    ensures AgreeLoop(EvalFor(fuel, s, env, f.st, DeclsIn(l), p),
                      Step(fuel, Loop(LoopBody(ExprCode(s.cond, l, g),
                                               StmtsCode(s.body, l, g) + StmtCode(s.step, l, g))), f, m), l)
    decreases fuel, s, 1
  {
    hide Exec, Linked, Rel, ExprCode, StmtsCode;
    var cond, pass := ExprCode(s.cond, l, g), StmtsCode(s.body, l, g) + StmtCode(s.step, l, g);
    ValueSim(fuel, s.cond, env, f, l, p, g, m);
    var r := Value(EvalExpr(fuel, s.cond, env, f.st, DeclsIn(l), p));
    if !r.Ok? {
      LoopFails(fuel, cond, pass, f, m);
      assert f.(stack := []) == f;
    } else {
      var f1 := Frame([], f.locals, r.st);
      assert f.stack + [r.value] == [r.value];
      if r.value != 0 {
        PassSim(fuel, s, env, f1, l, p, g, m);
      }
      LoopStep(fuel, cond, pass, r.value, f, r.st, m);
      var rb := EvalStmts(fuel, s.body, env, r.st, DeclsIn(l), p);
      if r.value != 0 && rb.Ok? && rb.value.Next? && fuel > 0 {
        var rs := EvalStmt(fuel, s.step, rb.value.env, rb.st, DeclsIn(l), p);
        if rs.Ok? && rs.value.Next? {
          ForSim(fuel - 1, s, rs.value.env, Exec(fuel, pass, f1, m).f, l, p, g, m);
        }
      }
    }
  }

  // ----- functions -----

  lemma {:induction false} FuncSim(fuel: nat, k: nat, args: seq<Word>, st: Store, p: Program, g: Globals, m: Module)
    requires Linked(p, g, m) && k < |p.funcs| && |args| == |p.funcs[k].params|
    ensures k < |m|
    ensures var r := EvalFunc(fuel, k, args, st, p);
            r != Wrong && Invoke(fuel, k, args, st, m) == LiftCall(r)
    decreases fuel, p.funcs[k].body, 3
  {
    ModuleCodeAt(p.funcs, g, k);
    var f := p.funcs[k];
    var l, t := AllocOf(f).locals, SymbolsOf(f);
    AllocSound(f);
    var f0 := Frame([], args + Zeros(m[k].extra), st);
    var env0 := EntryEnv(f.params, args, t);
    EntrySim(f, args);
    Three(fuel, Prologue(l), StmtsCode(f.body, l, g), [Const(0)], f0, m);
    PrologueSim(fuel, l, 0, env0, f0, m);
    assert l[0..] == l;
    var (env1, st1) := AllocArrays(t, env0, st);
    var f1 := Exec(fuel, Prologue(l), f0, m).f;
    StmtsSim(fuel, f.body, env1, f1, l, p, g, m);
    var r := EvalStmts(fuel, f.body, env1, st1, t, p);
    if r.Ok? && r.value.Next? {
      One(fuel, Const(0), Exec(fuel, StmtsCode(f.body, l, g), f1, m).f, m);
    }
  }

  /** The prologue gives every array the block the source semantics gives it. */
  lemma {:induction false} PrologueSim(fuel: nat, l: Locals, i: nat, env: Env, f: Frame, m: Module)
    requires i <= |l| && Sorted(l) && Rel(l, env, f.locals)
    ensures var (env1, st1) := AllocArrays(DeclsIn(l[i..]), env, f.st);
            var o := Exec(fuel, Prologue(l[i..]), f, m);
            o.Normal? && o.f.stack == f.stack && o.f.st == st1 && Rel(l, env1, o.f.locals)
    decreases |l| - i
  {
    if i < |l| {
      var x, vi := l[i].key, l[i].value;
      var rest := l[i + 1..];
      assert l[i..][1..] == rest;
      if vi.decl.arrLen.None? {
        PrologueSim(fuel, l, i + 1, env, f, m);
        assert Prologue(l[i..]) == Prologue(rest);
      } else {
        var bytes := vi.decl.arrLen.value * ElemSize(vi.decl.kind);
        GetAt(l, i);
        ArraySim(fuel, bytes, vi.slot, f, m);
        Sequence(fuel, ArrayCode(bytes, vi.slot), Prologue(rest), f, m);
        RelUpdate(l, env, f.locals, x, f.st.heap);
        var f1 := Frame(f.stack, f.locals[vi.slot := f.st.heap], f.st.(heap := Bump(f.st.heap, Wrap(bytes))));
        PrologueSim(fuel, l, i + 1, env[x := f.st.heap], f1, m);
      }
    }
  }

  lemma {:induction false} ArraySim(fuel: nat, bytes: nat, slot: nat, f: Frame, m: Module)
    requires slot < |f.locals|
    ensures Exec(fuel, ArrayCode(bytes, slot), f, m) ==
            Normal(Frame(f.stack, f.locals[slot := f.st.heap], f.st.(heap := Bump(f.st.heap, Wrap(bytes)))))
  {
    var h := f.st.heap;
    var start := [GlobalGet(0)] + [GlobalGet(0)] + [Const(bytes)];
    assert [GlobalGet(0), GlobalGet(0), Const(bytes)] == start;
    Three(fuel, start, BUMP_TAIL, [LocalSet(slot)], f, m);
    Three(fuel, [GlobalGet(0)], [GlobalGet(0)], [Const(bytes)], f, m);
    var f1, f2 := f.(stack := f.stack + [h]), f.(stack := f.stack + [h] + [h]);
    One(fuel, GlobalGet(0), f, m);
    One(fuel, GlobalGet(0), f1, m);
    One(fuel, Const(bytes), f2, m);
    assert f2.stack + [Wrap(bytes)] == f1.stack + [h, Wrap(bytes)];
    BumpSim(fuel, h, Wrap(bytes), f1, m);
    var f3 := f1.(st := f.st.(heap := Bump(h, Wrap(bytes))));
    One(fuel, LocalSet(slot), f3, m);
    assert f3.stack[..|f3.stack| - 1] == f.stack;
  }

  // ----- the locals table -----

  lemma {:induction false} SymbolsGet(l: Locals, x: string)
    ensures Get(DeclsIn(l), x) == match Get(l, x) case Some(vi) => Some(vi.decl) case None => None
  {
    if l != [] { SymbolsGet(l[1..], x); }
  }

  lemma {:induction false} SymbolsPut(l: Locals, x: string, vi: VarInfo)
    ensures DeclsIn(Put(l, x, vi)) == Put(DeclsIn(l), x, vi.decl)
  {
    if l == [] || l[0].key == x {
    } else if Less(x, l[0].key) {
      assert Put(l, x, vi)[1..] == l;
    } else {
      assert Put(l, x, vi)[1..] == Put(l[1..], x, vi);
      SymbolsPut(l[1..], x, vi);
    }
  }

  lemma {:induction false} SymbolsAt(l: Locals, i: nat)
    requires i < |l|
    ensures |DeclsIn(l)| == |l| && DeclsIn(l)[i].key == l[i].key
  {
    if |l| > 1 { SymbolsAt(l[1..], if i == 0 then 0 else i - 1); }
  }

  lemma {:induction false} SymbolsSorted(l: Locals)
    requires Sorted(DeclsIn(l))
    ensures Sorted(l)
  {
    forall i, j | 0 <= i < j < |l| ensures Less(l[i].key, l[j].key) {
      SymbolsAt(l, i);
      SymbolsAt(l, j);
    }
  }

  lemma {:induction false} AddDeclsAppend(t: Symbols, a: seq<Entry<VarDecl>>, b: seq<Entry<VarDecl>>)
    ensures AddDecls(t, a + b) == AddDecls(AddDecls(t, a), b)
    decreases |a|
  {
    if a == [] {
      assert a + b == b;
    } else {
      assert (a + b)[1..] == a[1..] + b;
      AddDeclsAppend(if Get(t, a[0].key).None? then Put(t, a[0].key, a[0].value) else t, a[1..], b);
    }
  }

  /** Local indices are in use at most once, and all below `next`. */
  ghost predicate Distinct(a: Alloc) {
    && (forall x :: Get(a.locals, x).Some? ==> SlotOf(a.locals, x) < a.next)
    && (forall x, y :: Get(a.locals, x).Some? && Get(a.locals, y).Some? && x != y
                       ==> SlotOf(a.locals, x) != SlotOf(a.locals, y))
  }

  /** `b` keeps every entry of `a`; what it adds is numbered from `a.next`. */
  ghost predicate Extends(a: Alloc, b: Alloc) {
    && a.next <= b.next
    && (forall x :: Get(a.locals, x).Some? ==> Get(b.locals, x) == Get(a.locals, x))
    && (forall x :: Get(a.locals, x).None? && Get(b.locals, x).Some? ==> SlotOf(b.locals, x) >= a.next)
  }

  lemma {:induction false} PutDistinct(a: Alloc, x: string, d: VarDecl)
    requires Distinct(a) && Get(a.locals, x).None?
    ensures var b := Alloc(Put(a.locals, x, VarInfo(a.next, d)), a.next + 1);
            Distinct(b) && Extends(a, b)
  {
    forall y {
      GetPut(a.locals, x, VarInfo(a.next, d), y);
    }
  }

  lemma {:induction false} CollectStmtSound(s: Stmt, a: Alloc)
    requires Distinct(a)
    ensures var b := CollectStmt(s, a);
            Distinct(b) && Extends(a, b) && DeclsIn(b.locals) == AddDecls(DeclsIn(a.locals), StmtDecls(s))
    decreases s, 0
  {
    match s
    case Decl(x, arrLen, _, kind) =>
      SymbolsGet(a.locals, x);
      if Get(a.locals, x).None? {
        PutDistinct(a, x, VarDecl(kind, arrLen));
        SymbolsPut(a.locals, x, VarInfo(a.next, VarDecl(kind, arrLen)));
      }
    case If(_, thn, els) =>
      CollectSound(thn, a);
      CollectSound(els, Collect(thn, a));
      AddDeclsAppend(DeclsIn(a.locals), DeclsOf(thn), DeclsOf(els));
    case While(_, body) => CollectSound(body, a);
    case For(init, _, step, body) =>
      CollectStmtSound(init, a);
      CollectStmtSound(step, CollectStmt(init, a));
      CollectSound(body, CollectStmt(step, CollectStmt(init, a)));
      AddDeclsAppend(DeclsIn(a.locals), StmtDecls(init), StmtDecls(step));
      AddDeclsAppend(DeclsIn(a.locals), StmtDecls(init) + StmtDecls(step), DeclsOf(body));
    case _ =>
  }

  lemma {:induction false} CollectSound(ss: seq<Stmt>, a: Alloc)
    requires Distinct(a)
    ensures var b := Collect(ss, a);
            Distinct(b) && Extends(a, b) && DeclsIn(b.locals) == AddDecls(DeclsIn(a.locals), DeclsOf(ss))
    decreases ss, 1
  {
    if ss != [] {
      CollectStmtSound(ss[0], a);
      CollectSound(ss[1..], CollectStmt(ss[0], a));
      AddDeclsAppend(DeclsIn(a.locals), StmtDecls(ss[0]), DeclsOf(ss[1..]));
    }
  }

  lemma {:induction false} ParamsSound(ps: seq<Param>)
    ensures Distinct(Alloc(ParamLocals(ps), |ps|))
    ensures DeclsIn(ParamLocals(ps)) == ParamSymbols(ps)
  {
    if ps != [] {
      var n := |ps| - 1;
      var vi := VarInfo(n, VarDecl(ps[n].kind, None));
      ParamsSound(ps[..n]);
      SymbolsPut(ParamLocals(ps[..n]), ps[n].name, vi);
      forall y {
        GetPut(ParamLocals(ps[..n]), ps[n].name, vi, y);
      }
    }
  }

  /** The locals table is the symbol table with distinct local indices. */
  lemma {:induction false} AllocSound(f: Func)
    ensures var a := AllocOf(f);
            Distinct(a) && DeclsIn(a.locals) == SymbolsOf(f) && Sorted(a.locals) &&
            Extends(Alloc(ParamLocals(f.params), |f.params|), a)
  {
    ParamsSound(f.params);
    CollectSound(f.body, Alloc(ParamLocals(f.params), |f.params|));
    SymbolsMeaning(f, "");
    SymbolsSorted(AllocOf(f).locals);
  }

  lemma {:induction false} GetSome<V>(t: Table<V>, x: string)
    ensures Get(t, x).Some? <==> exists e :: e in t && e.key == x
  {
    if t != [] {
      GetSome(t[1..], x);
      if e :| e in t && e.key == x && t[0].key != x {
        assert e in t[1..];
      }
    }
  }

  lemma {:induction false} EntryEnvAt(ps: seq<Param>, args: seq<Word>, t: Symbols, x: string)
    requires |args| == |ps|
    ensures var env := EntryEnv(ps, args, t);
            var vi := Get(ParamLocals(ps), x);
            (x in env <==> vi.Some? || Get(t, x).Some?) &&
            (vi.Some? ==> vi.value.slot < |ps| && env[x] == args[vi.value.slot]) &&
            (vi.None? && x in env ==> env[x] == 0)
  {
    GetSome(t, x);
    if ps != [] {
      var n := |ps| - 1;
      GetPut(ParamLocals(ps[..n]), ps[n].name, VarInfo(n, VarDecl(ps[n].kind, None)), x);
      EntryEnvAt(ps[..n], args[..n], t, x);
    }
  }

  /** On entry the locals hold the arguments and zeros, like the variables. */
  lemma {:induction false} EntrySim(f: Func, args: seq<Word>)
    requires |args| == |f.params|
    ensures var a := AllocOf(f);
            a.next >= |f.params| &&
            Rel(a.locals, EntryEnv(f.params, args, SymbolsOf(f)), args + Zeros(a.next - |f.params|))
  {
    AllocSound(f);
    var a, env := AllocOf(f), EntryEnv(f.params, args, SymbolsOf(f));
    forall x
      ensures x in env <==> Get(a.locals, x).Some?
      ensures x in env ==> SlotOf(a.locals, x) < a.next
      ensures x in env ==> (args + Zeros(a.next - |f.params|))[SlotOf(a.locals, x)] == env[x]
    {
      EntryEnvAt(f.params, args, SymbolsOf(f), x);
      SymbolsGet(a.locals, x);
    }
  }
}
