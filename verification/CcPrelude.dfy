/** What programs print, and the prelude's `strlen` that `print_str` relies on. */
module CcPrelude {
  import opened Bytes
  import opened Int32
  import opened SortedTable
  import opened CcAst
  import opened CcSource
  import opened CcElements
  import Wasm

  // ----- what is printed -----

  /** The bytes and a zero are in memory at an address. */
  ghost predicate TextAt(mem: seq<Byte>, a: nat, s: seq<Byte>) {
    |mem| <= 0x1_0000_0000 && a + |s| < |mem| && mem[a..a + |s| + 1] == s + [0]
  }

  lemma {:induction false} TextBytes(mem: seq<Byte>, a: nat, s: seq<Byte>, i: nat)
    requires TextAt(mem, a, s) && i <= |s|
    ensures mem[a + i] == if i < |s| then s[i] else 0
  {
    assert mem[a..a + |s| + 1][i] == mem[a + i];
  }

  lemma {:induction false} TextLogged(st: Store, a: Word, s: seq<Byte>)
    requires TextAt(st.mem, a, s)
    ensures |s| < 0x1_0000_0000 && PrintText(a, |s|, st) == Ok(None, st.(trace := st.trace + [Wasm.Log(s)]))
  {
    var t := st.mem[a..a + |s|];
    forall i | 0 <= i < |s| ensures t[i] == s[i] {
      TextBytes(st.mem, a, s, i);
    }
    assert t == s;
  }

  /** `print("...")` logs the bytes of the literal. */
  lemma {:induction false} PrintsLiteral(fuel: nat, s: seq<Byte>, env: Env, st: Store, t: Symbols, p: Program)
    requires s in p.strs && TextAt(st.mem, p.strs[s], s)
    ensures EvalExpr(fuel, Expr.Call("print", [Str(s)]), env, st, t, p) ==
            Ok(None, st.(trace := st.trace + [Wasm.Log(s)]))
  {
    TextLogged(st, p.strs[s], s);
  }

  /** `print_int` and `putchar` print the signed value. */
  lemma {:induction false} PrintsNumber(fuel: nat, f: string, v: int, env: Env, st: Store, t: Symbols, p: Program)
    requires (f == "print_int" || f == "putchar") && -0x8000_0000 <= v < 0x8000_0000
    ensures EvalExpr(fuel, Expr.Call(f, [Int(v)]), env, st, t, p) ==
            Ok(None, st.(trace := st.trace + [Wasm.PrintInt(v)]))
  {
    LiteralValue(v);
    assert Value(EvalExpr(fuel, Int(v), env, st, t, p)) == Ok(Wrap(v), st);
  }

  // ----- strlen -----

  /** `int strlen(char *s) { int n = 0; while (s[n] != 0) { n = n + 1; } return n; }` */
  const STRLEN := Func("strlen", [Param("s", CharPtr)],
    [Decl("n", None, Some(Int(0)), Scalar), While(AT_END, [NEXT]), Return(Some(Var("n")))])

  const AT_END := Bin(Ne, Index(Var("s"), Var("n")), Int(0))
  const NEXT := Assign("n", Bin(Add, Var("n"), Int(1)))

  lemma {:induction false} StrlenSymbols()
    ensures SymbolsOf(STRLEN) == [Entry("n", VarDecl(Scalar, None)), Entry("s", VarDecl(CharPtr, None))]
  {
    var ps := STRLEN.params;
    assert ps[..0] == [];
    assert ParamSymbols(ps[..0]) == [];
    assert ParamSymbols(ps) == [Entry("s", VarDecl(CharPtr, None))];
    var ds := [Entry("n", VarDecl(Scalar, None))];
    DeclsOfStrlen();
    assert Less("n", "s");
    assert ds[1..] == [];
    var u: Symbols := [Entry("s", VarDecl(CharPtr, None))];
    assert u[1..] == [];
    assert Get(u[1..], "n") == None;
    assert "s"[0] != "n"[0];
    assert Get(u, "n") == None;
    assert AddDecls(u, ds) == AddDecls(Put(u, "n", ds[0].value), []);
  }

  lemma {:induction false} DeclsOfStrlen()
    ensures DeclsOf(STRLEN.body) == [Entry("n", VarDecl(Scalar, None))]
  {
    var b := STRLEN.body;
    assert [NEXT][1..] == [];
    assert DeclsOf([NEXT]) == [];
    assert b[1..][1..] == [b[2]] && b[1..][0] == b[1] && [b[2]][1..] == [];
    assert DeclsOf([b[2]]) == [];
    assert DeclsOf(b[1..]) == [];
  }

  function At(a: Word, i: Word): Env { map["n" := i, "s" := a] }

  lemma {:induction false} EntryOfStrlen(a: Word)
    ensures EntryEnv(STRLEN.params, [a], SymbolsOf(STRLEN)) == At(a, 0)
  {
    StrlenSymbols();
    var t := SymbolsOf(STRLEN);
    assert STRLEN.params[..0] == [] && [a][..0] == [];
    assert EntryEnv([], [], t) == map["n" := 0, "s" := 0] by {
      assert t[0] in t && t[1] in t;
    }
  }

  /** The test of the loop sees the byte at `n`. */
  lemma {:induction false} TestOf(fuel: nat, a: Word, s: seq<Byte>, i: Word, st: Store, p: Program)
    requires TextAt(st.mem, a, s) && i <= |s| < 0x8000_0000
    ensures Value(EvalExpr(fuel, AT_END, At(a, i), st, SymbolsOf(STRLEN), p)) ==
            Ok(if i < |s| && s[i] != 0 then 1 else 0, st)
  {
    var t, env := SymbolsOf(STRLEN), At(a, i);
    StrlenSymbols();
    TextBytes(st.mem, a, s, i);
    assert Get(t[1..], "s") == Some(VarDecl(CharPtr, None)) && "n"[0] != "s"[0];
    assert KindOf(t, "s") == CharPtr;
    assert ExprKind(Var("s"), t) == CharPtr;
    assert Value(EvalExpr(fuel, Var("s"), env, st, t, p)) == Ok(a, st);
    assert Value(EvalExpr(fuel, Var("n"), env, st, t, p)) == Ok(i, st);
    ElementAddress(fuel, Var("s"), Var("n"), env, st, t, p);
    Loads(CharPtr, a + i, st);
    assert Value(EvalExpr(fuel, Index(Var("s"), Var("n")), env, st, t, p)) == Ok(st.mem[a + i], st);
    assert Value(EvalExpr(fuel, Int(0), env, st, t, p)) == Ok(0, st);
  }

  lemma {:induction false} NextOf(fuel: nat, a: Word, i: Word, st: Store, t: Symbols, p: Program)
    requires i + 1 < 0x8000_0000
    ensures EvalStmts(fuel, [NEXT], At(a, i), st, t, p) == Ok(Next(At(a, i + 1)), st)
  {
    var env := At(a, i);
    assert Value(EvalExpr(fuel, Var("n"), env, st, t, p)) == Ok(i, st);
    assert Value(EvalExpr(fuel, Int(1), env, st, t, p)) == Ok(1, st);
    assert Value(EvalExpr(fuel, NEXT.value, env, st, t, p)) == Ok(i + 1, st);
    assert env["n" := i + 1] == At(a, i + 1);
    assert EvalStmt(fuel, NEXT, env, st, t, p) == Ok(Next(At(a, i + 1)), st);
    assert [NEXT][1..] == [];
  }

  lemma {:induction false} LoopOf(fuel: nat, a: Word, s: seq<Byte>, i: Word, st: Store, p: Program)
    requires TextAt(st.mem, a, s) && 0 !in s && i <= |s| < 0x8000_0000 && fuel >= |s| - i
    ensures EvalStmt(fuel, While(AT_END, [NEXT]), At(a, i), st, SymbolsOf(STRLEN), p) == Ok(Next(At(a, |s|)), st)
    decreases |s| - i
  {
    hide SymbolsOf;
    TestOf(fuel, a, s, i, st, p);
    if i < |s| {
      NextOf(fuel, a, i, st, SymbolsOf(STRLEN), p);
      LoopOf(fuel - 1, a, s, i + 1, st, p);
    }
  }

  /** The prelude's `strlen` gives the length of the text at its argument, given one unit of fuel for each byte. */
  lemma {:induction false} StrlenCounts(fuel: nat, k: nat, a: Word, s: seq<Byte>, st: Store, p: Program)
    requires k < |p.funcs| && p.funcs[k] == STRLEN
    requires TextAt(st.mem, a, s) && 0 !in s && |s| < 0x8000_0000 && fuel >= |s|
    ensures EvalFunc(fuel, k, [a], st, p) == Ok(|s|, st)
  {
    var t := SymbolsOf(STRLEN);
    StrlenSymbols();
    EntryOfStrlen(a);
    assert AllocArrays(t, At(a, 0), st) == (At(a, 0), st) by {
      var last := t[1..];
      assert last[1..] == [];
      assert AllocArrays([], At(a, 0), st) == (At(a, 0), st);
      assert AllocArrays(last, At(a, 0), st) == (At(a, 0), st);
    }
    BodyOf(fuel, a, s, st, p);
  }

  lemma {:induction false} BodyOf(fuel: nat, a: Word, s: seq<Byte>, st: Store, p: Program)
    requires TextAt(st.mem, a, s) && 0 !in s && |s| < 0x8000_0000 && fuel >= |s|
    ensures EvalStmts(fuel, STRLEN.body, At(a, 0), st, SymbolsOf(STRLEN), p) == Ok(Ret(|s|), st)
  {
    hide SymbolsOf;
    var b, t := STRLEN.body, SymbolsOf(STRLEN);
    assert Value(EvalExpr(fuel, Int(0), At(a, 0), st, t, p)) == Ok(0, st);
    assert At(a, 0)["n" := 0] == At(a, 0);
    assert EvalStmt(fuel, b[0], At(a, 0), st, t, p) == Ok(Next(At(a, 0)), st);
    LoopOf(fuel, a, s, 0, st, p);
    assert b[1..][0] == b[1] && b[1..][1..] == [b[2]];
    assert Value(EvalExpr(fuel, Var("n"), At(a, |s|), st, t, p)) == Ok(|s|, st);
    assert EvalStmt(fuel, b[2], At(a, |s|), st, t, p) == Ok(Ret(|s|), st);
    assert EvalStmts(fuel, [b[2]], At(a, |s|), st, t, p) == Ok(Ret(|s|), st);
    assert EvalStmts(fuel, b[1..], At(a, 0), st, t, p) == Ok(Ret(|s|), st);
  }

  /** With the prelude's `strlen`, `print_str` of an address logs the text there. */
  lemma {:induction false} PrintsText(fuel: nat, x: string, s: seq<Byte>, env: Env, st: Store, t: Symbols, p: Program)
    requires Lookup(p.funcs, "strlen").Some? && p.funcs[Lookup(p.funcs, "strlen").value] == STRLEN
    requires x in env && TextAt(st.mem, env[x], s) && 0 !in s && |s| < 0x8000_0000 && fuel > |s|
    ensures EvalExpr(fuel, Expr.Call("print_str", [Var(x)]), env, st, t, p) ==
            Ok(None, st.(trace := st.trace + [Wasm.Log(s)]))
  {
    hide EvalFunc, PrintText;
    var k := Lookup(p.funcs, "strlen").value;
    assert Value(EvalExpr(fuel, Var(x), env, st, t, p)) == Ok(env[x], st);
    StrlenCounts(fuel - 1, k, env[x], s, st, p);
    TextLogged(st, env[x], s);
  }
}
