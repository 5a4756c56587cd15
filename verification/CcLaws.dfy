/** Laws that programs of the language obey. */
module CcLaws {
  import opened Bytes
  import opened Int32
  import opened CcAst
  import opened CcSource

  lemma {:induction false} StmtsAppend(fuel: nat, a: seq<Stmt>, b: seq<Stmt>, env: Env, st: Store, t: Symbols,
      p: Program)
    ensures EvalStmts(fuel, a + b, env, st, t, p) ==
            match EvalStmts(fuel, a, env, st, t, p)
            case Ok(Next(env1), st1) => EvalStmts(fuel, b, env1, st1, t, p)
            case r => r
    decreases |a|
  {
    hide EvalStmt;
    if a == [] {
      assert a + b == b;
    } else {
      assert (a + b)[0] == a[0] && (a + b)[1..] == a[1..] + b;
      match EvalStmt(fuel, a[0], env, st, t, p)
      case Ok(Next(env1), st1) => StmtsAppend(fuel, a[1..], b, env1, st1, t, p);
      case _ =>
    }
  }

  lemma {:induction false} OneStmt(fuel: nat, s: Stmt, env: Env, st: Store, t: Symbols, p: Program)
    ensures EvalStmts(fuel, [s], env, st, t, p) == EvalStmt(fuel, s, env, st, t, p)
  {
    hide EvalStmt;
    assert [s][1..] == [];
    match EvalStmt(fuel, s, env, st, t, p)
    case Ok(Next(env1), st1) => assert EvalStmts(fuel, [], env1, st1, t, p) == Ok(Next(env1), st1);
    case _ =>
  }

  /** The passes of a `for` are those of a `while` whose body ends with the step. */
  lemma {:induction false} ForPasses(fuel: nat, s: Stmt, env: Env, st: Store, t: Symbols, p: Program)
    requires s.For?
    ensures EvalFor(fuel, s, env, st, t, p) == EvalStmt(fuel, While(s.cond, s.body + [s.step]), env, st, t, p)
  {
    hide EvalExpr, EvalStmts;
    match Value(EvalExpr(fuel, s.cond, env, st, t, p))
    case Ok(w, st1) =>
      StmtsAppend(fuel, s.body, [s.step], env, st1, t, p);
      match EvalStmts(fuel, s.body, env, st1, t, p) {
        case Ok(Next(env1), st2) =>
          OneStmt(fuel, s.step, env1, st2, t, p);
          var r := EvalStmt(fuel, s.step, env1, st2, t, p);
          if fuel > 0 && r.Ok? && r.value.Next? {
            ForPasses(fuel - 1, s, r.value.env, r.st, t, p);
          }
        case _ =>
      }
    case _ =>
  }

  /** A `for` is its first clause and then the `while` with the step at the end of its body: the same result, the
      same effects, and the same fuel. */
  lemma {:induction false} ForIsWhile(fuel: nat, s: Stmt, env: Env, st: Store, t: Symbols, p: Program)
    requires s.For?
    ensures EvalStmt(fuel, s, env, st, t, p) ==
            EvalStmts(fuel, [s.init_, While(s.cond, s.body + [s.step])], env, st, t, p)
  {
    hide EvalExpr, EvalFor;
    var loop := While(s.cond, s.body + [s.step]);
    assert [s.init_, loop][1..] == [loop];
    match EvalStmt(fuel, s.init_, env, st, t, p)
    case Ok(Next(env1), st1) =>
      ForPasses(fuel, s, env1, st1, t, p);
      OneStmt(fuel, loop, env1, st1, t, p);
    case _ =>
  }

  /** While the condition holds, a `while` is its body and itself once more, for one unit of fuel. */
  lemma {:induction false} WhileUnrolls(fuel: nat, c: Expr, body: seq<Stmt>, env: Env, st: Store, t: Symbols,
      p: Program)
    requires var r := Value(EvalExpr(fuel, c, env, st, t, p)); fuel > 0 && r.Ok? && r.value != 0
    ensures var st1 := Value(EvalExpr(fuel, c, env, st, t, p)).st;
            EvalStmt(fuel, While(c, body), env, st, t, p) ==
            match EvalStmts(fuel, body, env, st1, t, p)
            case Ok(Next(env1), st2) => EvalStmt(fuel - 1, While(c, body), env1, st2, t, p)
            case r => r
  {
    hide EvalExpr, EvalStmts;
  }
}
