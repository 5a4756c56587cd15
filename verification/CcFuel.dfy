/** More fuel never changes a finished run, so results do not depend on the fuel chosen. */
module CcFuel {
  import opened Bytes
  import opened CcAst
  import opened CcSource

  /** The run did not stop for lack of fuel. */
  predicate Finished<T>(r: Res<T>) { !r.OutOfFuel? }

  lemma {:induction false} ExprMore(fuel: nat, e: Expr, env: Env, st: Store, t: Symbols, p: Program)
    requires Finished(EvalExpr(fuel, e, env, st, t, p))
    ensures EvalExpr(fuel + 1, e, env, st, t, p) == EvalExpr(fuel, e, env, st, t, p)
    decreases fuel, e, 2
  {
    match e
    case Bin(_, a, b) =>
      ExprMore(fuel, a, env, st, t, p);
      var ra := Value(EvalExpr(fuel, a, env, st, t, p));
      if ra.Ok? { ExprMore(fuel, b, env, ra.st, t, p); }
    case Neg(a) => ExprMore(fuel, a, env, st, t, p);
    case Not(a) => ExprMore(fuel, a, env, st, t, p);
    case Index(_, _) => AddrMore(fuel, e, env, st, t, p);
    case Deref(_) => AddrMore(fuel, e, env, st, t, p);
    case Call(_, _) => CallMore(fuel, e, env, st, t, p);
    case _ =>
  }

  lemma {:induction false} AddrMore(fuel: nat, e: Expr, env: Env, st: Store, t: Symbols, p: Program)
    requires Finished(EvalAddr(fuel, e, env, st, t, p))
    ensures EvalAddr(fuel + 1, e, env, st, t, p) == EvalAddr(fuel, e, env, st, t, p)
    decreases fuel, e, 0
  {
    match e
    case Index(a, b) =>
      ExprMore(fuel, a, env, st, t, p);
      var ra := Value(EvalExpr(fuel, a, env, st, t, p));
      if ra.Ok? { ExprMore(fuel, b, env, ra.st, t, p); }
    case Deref(a) => ExprMore(fuel, a, env, st, t, p);
    case _ =>
  }

  lemma {:induction false} CallMore(fuel: nat, e: Expr, env: Env, st: Store, t: Symbols, p: Program)
    requires e.Call? && Finished(EvalExpr(fuel, e, env, st, t, p))
    ensures EvalExpr(fuel + 1, e, env, st, t, p) == EvalExpr(fuel, e, env, st, t, p)
    decreases fuel, e, 1
  {
    var args := e.args;
    if e.name == "print" {
    } else if e.name == "print_int" || e.name == "putchar" || e.name == "malloc" {
      if |args| == 1 { ExprMore(fuel, args[0], env, st, t, p); }
    } else if e.name == "free" {
      if args != [] { ExprMore(fuel, args[0], env, st, t, p); }
    } else if e.name == "print_str" && |args| == 1 {
      PrintStrMore(fuel, e, env, st, t, p);
    } else {
      ArgsMore(fuel, args, env, st, t, p);
      var ra := EvalArgs(fuel, args, env, st, t, p);
      if ra.Ok? && Lookup(p.funcs, e.name).Some? && fuel > 0 {
        var k := Lookup(p.funcs, e.name).value;
        if |ra.value| == |p.funcs[k].params| {
          FuncMore(fuel - 1, k, ra.value, ra.st, p);
        }
      }
    }
  }

  lemma {:induction false} PrintStrMore(fuel: nat, e: Expr, env: Env, st: Store, t: Symbols, p: Program)
    requires e.Call? && e.name == "print_str" && |e.args| == 1
    requires Finished(EvalExpr(fuel, e, env, st, t, p))
    ensures EvalExpr(fuel + 1, e, env, st, t, p) == EvalExpr(fuel, e, env, st, t, p)
    decreases fuel, e, 0
  {
    var a := e.args[0];
    ExprMore(fuel, a, env, st, t, p);
    var ra := Value(EvalExpr(fuel, a, env, st, t, p));
    if ra.Ok? && Lookup(p.funcs, "strlen").Some? {
      ExprMore(fuel, a, env, ra.st, t, p);
      var rb := Value(EvalExpr(fuel, a, env, ra.st, t, p));
      if rb.Ok? && fuel > 0 {
        FuncMore(fuel - 1, Lookup(p.funcs, "strlen").value, [rb.value], rb.st, p);
      }
    }
  }

  lemma {:induction false} ArgsMore(fuel: nat, es: seq<Expr>, env: Env, st: Store, t: Symbols, p: Program)
    requires Finished(EvalArgs(fuel, es, env, st, t, p))
    ensures EvalArgs(fuel + 1, es, env, st, t, p) == EvalArgs(fuel, es, env, st, t, p)
    decreases fuel, es, 1
  {
    if es != [] {
      ExprMore(fuel, es[0], env, st, t, p);
      var r := Value(EvalExpr(fuel, es[0], env, st, t, p));
      if r.Ok? { ArgsMore(fuel, es[1..], env, r.st, t, p); }
    }
  }

  lemma {:induction false} StmtMore(fuel: nat, s: Stmt, env: Env, st: Store, t: Symbols, p: Program)
    requires Finished(EvalStmt(fuel, s, env, st, t, p))
    ensures EvalStmt(fuel + 1, s, env, st, t, p) == EvalStmt(fuel, s, env, st, t, p)
    decreases fuel, s, 2
  {
    match s
    case Decl(_, _, init, _) => if init.Some? { ExprMore(fuel, init.value, env, st, t, p); }
    case Assign(_, e) => ExprMore(fuel, e, env, st, t, p);
    case StoreLval(lval, e) =>
      AddrMore(fuel, lval, env, st, t, p);
      var ra := EvalAddr(fuel, lval, env, st, t, p);
      if ra.Ok? { ExprMore(fuel, e, env, ra.st, t, p); }
    case ExprStmt(e) => ExprMore(fuel, e, env, st, t, p);
    case Return(None) =>
    case Return(Some(e)) => ExprMore(fuel, e, env, st, t, p);
    case If(c, thn, els) =>
      ExprMore(fuel, c, env, st, t, p);
      var r := Value(EvalExpr(fuel, c, env, st, t, p));
      if r.Ok? { StmtsMore(fuel, if r.value != 0 then thn else els, env, r.st, t, p); }
    case While(_, _) => WhileMore(fuel, s, env, st, t, p);
    case For(init, _, _, _) =>
      StmtMore(fuel, init, env, st, t, p);
      var r := EvalStmt(fuel, init, env, st, t, p);
      if r.Ok? && r.value.Next? { ForMore(fuel, s, r.value.env, r.st, t, p); }
  }

  lemma {:induction false} WhileMore(fuel: nat, s: Stmt, env: Env, st: Store, t: Symbols, p: Program)
    requires s.While? && Finished(EvalStmt(fuel, s, env, st, t, p))
    ensures EvalStmt(fuel + 1, s, env, st, t, p) == EvalStmt(fuel, s, env, st, t, p)
    decreases fuel, s, 1
  {
    ExprMore(fuel, s.cond, env, st, t, p);
    var r := Value(EvalExpr(fuel, s.cond, env, st, t, p));
    if r.Ok? && r.value != 0 {
      StmtsMore(fuel, s.body, env, r.st, t, p);
      var rb := EvalStmts(fuel, s.body, env, r.st, t, p);
      if rb.Ok? && rb.value.Next? && fuel > 0 {
        StmtMore(fuel - 1, s, rb.value.env, rb.st, t, p);
      }
    }
  }

  lemma {:induction false} ForMore(fuel: nat, s: Stmt, env: Env, st: Store, t: Symbols, p: Program)
    requires s.For? && Finished(EvalFor(fuel, s, env, st, t, p))
    ensures EvalFor(fuel + 1, s, env, st, t, p) == EvalFor(fuel, s, env, st, t, p)
    decreases fuel, s, 1
  {
    ExprMore(fuel, s.cond, env, st, t, p);
    var r := Value(EvalExpr(fuel, s.cond, env, st, t, p));
    if r.Ok? && r.value != 0 {
      StmtsMore(fuel, s.body, env, r.st, t, p);
      var rb := EvalStmts(fuel, s.body, env, r.st, t, p);
      if rb.Ok? && rb.value.Next? {
        StmtMore(fuel, s.step, rb.value.env, rb.st, t, p);
        var rs := EvalStmt(fuel, s.step, rb.value.env, rb.st, t, p);
        if rs.Ok? && rs.value.Next? && fuel > 0 {
          ForMore(fuel - 1, s, rs.value.env, rs.st, t, p);
        }
      }
    }
  }

  lemma {:induction false} StmtsMore(fuel: nat, ss: seq<Stmt>, env: Env, st: Store, t: Symbols, p: Program)
    requires Finished(EvalStmts(fuel, ss, env, st, t, p))
    ensures EvalStmts(fuel + 1, ss, env, st, t, p) == EvalStmts(fuel, ss, env, st, t, p)
    decreases fuel, ss, 3
  {
    if ss != [] {
      StmtMore(fuel, ss[0], env, st, t, p);
      var r := EvalStmt(fuel, ss[0], env, st, t, p);
      if r.Ok? && r.value.Next? { StmtsMore(fuel, ss[1..], r.value.env, r.st, t, p); }
    }
  }

  lemma {:induction false} FuncMore(fuel: nat, k: nat, args: seq<Word>, st: Store, p: Program)
    requires k < |p.funcs| && Finished(EvalFunc(fuel, k, args, st, p))
    ensures EvalFunc(fuel + 1, k, args, st, p) == EvalFunc(fuel, k, args, st, p)
    decreases fuel, p.funcs[k].body, 4
  {
    var f := p.funcs[k];
    if |args| == |f.params| {
      var t := SymbolsOf(f);
      var (env, st1) := AllocArrays(t, EntryEnv(f.params, args, t), st);
      StmtsMore(fuel, f.body, env, st1, t, p);
    }
  }

  lemma {:induction false} FuncUpTo(fuel: nat, more: nat, k: nat, args: seq<Word>, st: Store, p: Program)
    requires k < |p.funcs| && Finished(EvalFunc(fuel, k, args, st, p)) && fuel <= more
    ensures EvalFunc(more, k, args, st, p) == EvalFunc(fuel, k, args, st, p)
    decreases more - fuel
  {
    if fuel < more {
      FuncMore(fuel, k, args, st, p);
      FuncUpTo(fuel + 1, more, k, args, st, p);
    }
  }

  // ----- behaviour without fuel -----

  /** The call ends, by returning or by trapping, with result `r`. */
  ghost predicate Ends(k: nat, args: seq<Word>, st: Store, p: Program, r: Res<Word>)
    requires k < |p.funcs|
  {
    Finished(r) && exists fuel :: EvalFunc(fuel, k, args, st, p) == r
  }

  ghost predicate Diverges(k: nat, args: seq<Word>, st: Store, p: Program)
    requires k < |p.funcs|
  {
    forall fuel :: !Finished(EvalFunc(fuel, k, args, st, p))
  }

  /** Every call either ends in exactly one way or diverges. */
  lemma {:induction false} OneBehaviour(k: nat, args: seq<Word>, st: Store, p: Program)
    requires k < |p.funcs|
    ensures Diverges(k, args, st, p) <==> !exists r :: Ends(k, args, st, p, r)
    ensures forall r1, r2 :: Ends(k, args, st, p, r1) && Ends(k, args, st, p, r2) ==> r1 == r2
  {
    if fuel: nat :| Finished(EvalFunc(fuel, k, args, st, p)) {
      assert Ends(k, args, st, p, EvalFunc(fuel, k, args, st, p));
    }
    forall r1, r2 | Ends(k, args, st, p, r1) && Ends(k, args, st, p, r2) ensures r1 == r2 {
      var a: nat :| EvalFunc(a, k, args, st, p) == r1;
      var b: nat :| EvalFunc(b, k, args, st, p) == r2;
      if a <= b { FuncUpTo(a, b, k, args, st, p); } else { FuncUpTo(b, a, k, args, st, p); }
    }
  }
}
