/** Printing statements, functions and programs, and parsing them back. */
module CcProgramPrinter {
  import opened Bytes
  import opened CcAst
  import opened CcGrammar
  import opened CcPrinter

  const KEYWORDS := ["return", "if", "while", "for"]

  // ----- the printer -----

  function TypeToks(k: Kind): seq<Tok> {
    match k
    case Scalar => [Ident("int")]
    case CharPtr => [Ident("char"), Punct("*")]
    case IntPtr => [Ident("int"), Punct("*")]
  }

  function DimToks(dim: Option<nat>): seq<Tok> {
    match dim
    case None => []
    case Some(n) => [Punct("["), IntTok(n), Punct("]")]
  }

  function InitToks(init: Option<Expr>): seq<Tok> {
    match init
    case None => []
    case Some(e) => [Punct("=")] + Print(e, 0)
  }

  /** `x += e` is the sum `x + e` assigned to `x`. */
  predicate Adds(x: string, e: Expr) { e.Bin? && e.op == Add && e.left == Var(x) }

  /** A declaration, an assignment or an expression, in parentheses so that nothing else starts it. */
  function PrintSimple(s: Stmt): seq<Tok> {
    match s
    case Decl(x, dim, init, kind) => TypeToks(kind) + ([Ident(x)] + (DimToks(dim) + InitToks(init)))
    case Assign(x, e) =>
      if Adds(x, e) then [Ident(x), Punct("+=")] + Print(e.right, 0) else [Ident(x), Punct("=")] + Print(e, 0)
    case ExprStmt(e) => [Punct("(")] + Print(e, 0) + [Punct(")")]
    case _ => []
  }

  function CondToks(c: Expr): seq<Tok> { [Punct("(")] + (Print(c, 0) + [Punct(")")]) }

  function PrintStmt(s: Stmt): seq<Tok>
    decreases s, 0
  {
    match s
    case StoreLval(l, e) => Print(l, 5) + ([Punct("=")] + (Print(e, 0) + [Punct(";")]))
    case Return(None) => [Ident("return"), Punct(";")]
    case Return(Some(e)) => [Ident("return")] + (Print(e, 0) + [Punct(";")])
    case If(c, thn, els) => [Ident("if")] + (CondToks(c) + (PrintBlock(thn) + ([Ident("else")] + PrintBlock(els))))
    case While(c, body) => [Ident("while")] + (CondToks(c) + PrintBlock(body))
    case For(init, c, step, body) =>
      [Ident("for"), Punct("(")] + (PrintSimple(init) + ([Punct(";")] + (Print(c, 0) + ([Punct(";")]
      + (PrintSimple(step) + ([Punct(")")] + PrintBlock(body)))))))
    case _ => PrintSimple(s) + [Punct(";")]
  }

  function PrintStmts(ss: seq<Stmt>): seq<Tok>
    decreases ss, 0
  {
    if ss == [] then [] else PrintStmt(ss[0]) + PrintStmts(ss[1..])
  }

  function PrintBlock(ss: seq<Stmt>): seq<Tok>
    decreases ss, 1
  {
    [Punct("{")] + (PrintStmts(ss) + [Punct("}")])
  }

  function PrintParams(ps: seq<Param>): seq<Tok> {
    if ps == [] then []
    else
      TypeToks(ps[0].kind) + ([Ident(ps[0].name)]
      + (if |ps| == 1 then [] else [Punct(",")] + PrintParams(ps[1..])))
  }

  function PrintFunc(f: Func): seq<Tok> {
    [Ident("int"), Ident(f.name), Punct("(")] + (PrintParams(f.params) + ([Punct(")")] + PrintBlock(f.body)))
  }

  function PrintFuncs(fs: seq<Func>): seq<Tok> {
    if fs == [] then [] else PrintFunc(fs[0]) + PrintFuncs(fs[1..])
  }

  function PrintProgram(fs: seq<Func>): seq<Tok> { PrintFuncs(fs) + [Eof] }

  // ----- what the grammar can produce -----

  predicate TypeName(x: string) { IsType(Ident(x)) }

  predicate PrintableSimple(s: Stmt) {
    match s
    case Decl(_, dim, init, kind) => (dim.Some? ==> kind != Scalar) && (init.Some? ==> Printable(init.value))
    case Assign(x, e) => !TypeName(x) && Printable(if Adds(x, e) then e.right else e)
    case ExprStmt(e) => Printable(e)
    case _ => false
  }

  /** Subscripts of a name that is not a type. */
  predicate Rooted(e: Expr)
    decreases e
  {
    (e.Var? && !TypeName(e.name)) || (e.Index? && Rooted(e.base))
  }

  predicate PrintableStmt(s: Stmt)
    decreases s
  {
    match s
    case StoreLval(l, e) => Printable(l) && Printable(e) && (l.Deref? || (l.Index? && Rooted(l)))
    case Return(e) => e.Some? ==> Printable(e.value)
    case If(c, thn, els) => Printable(c) && PrintableStmts(thn) && PrintableStmts(els)
    case While(c, body) => Printable(c) && PrintableStmts(body)
    case For(init, c, step, body) =>
      PrintableSimple(init) && Printable(c) && PrintableSimple(step) && PrintableStmts(body)
    case Assign(x, _) => x !in KEYWORDS && PrintableSimple(s)
    case _ => PrintableSimple(s)
  }

  predicate PrintableStmts(ss: seq<Stmt>)
    decreases ss
  {
    ss == [] || (PrintableStmt(ss[0]) && PrintableStmts(ss[1..]))
  }

  predicate PrintableProgram(fs: seq<Func>) {
    forall i :: 0 <= i < |fs| ==> PrintableStmts(fs[i].body)
  }

  // ----- round trips -----

  /** What ends a statement or a clause of a `for`. */
  predicate Ender(k: Tok) { k == Punct(";") || k == Punct(")") }

  lemma {:induction false} EnderStops(k: Tok)
    requires Ender(k)
    ensures Stops(k, 0)
  {
  }

  lemma {:induction false} ExprRoundTrip(e: Expr, t: seq<Tok>, p: nat)
    requires Ended(t) && Printable(e) && Occurs(t, p, Print(e, 0)) && Ender(t[p + |Print(e, 0)|])
    ensures ParseExpr(t, p) == Some((e, p + |Print(e, 0)|))
  {
    EnderStops(t[p + |Print(e, 0)|]);
    FullRoundTrip(e, 0, t, p);
  }

  /** An expression in parentheses, read at any level. */
  lemma {:induction false} ParenAtLevel(e: Expr, level: nat, t: seq<Tok>, p: nat, q: nat)
    requires Ended(t) && p < |t| && level <= 5 && t[p] == Punct("(") &&
             ParsePrimary(t, p) == Some((e, q)) && Ender(t[q])
    ensures ParseLevel(t, p, level) == Some((e, q))
    decreases 5 - level
  {
    EnderStops(t[q]);
    if level == 5 {
      assert ParsePostfix(t, p) == Some((e, q));
    } else {
      assert ParseRest(t, q, level, e) == Some((e, q));
      ParenAtLevel(e, level + 1, t, p, q);
    }
  }

  lemma {:induction false} TypeRoundTrip(k: Kind, t: seq<Tok>, p: nat)
    requires Ended(t) && Occurs(t, p, TypeToks(k)) && t[p + |TypeToks(k)|].Ident?
    ensures IsType(t[p]) && t[p] != Ident("void")
    ensures ParseType(t, p) == Some(((k == CharPtr, |TypeToks(k)| - 1), p + |TypeToks(k)|))
  {
    var w := TypeToks(k);
    assert t[p] == w[0] && (|w| == 2 ==> t[p + 1] == w[1]);
    assert SkipQualifiers(t, p) == p;
    if |w| == 2 {
      assert SkipStars(t, p + 2) == p + 2;
      assert SkipStars(t, p + 1) == p + 2;
    } else {
      assert SkipStars(t, p + 1) == p + 1;
    }
  }

  lemma {:induction false} DimRoundTrip(dim: Option<nat>, t: seq<Tok>, p: nat)
    requires Ended(t) && Occurs(t, p, DimToks(dim)) && t[p + |DimToks(dim)|] != Punct("[")
    ensures ParseDim(t, p) == Some((dim, p + |DimToks(dim)|))
  {
    if dim.Some? {
      var w := DimToks(dim);
      assert t[p] == w[0] && t[p + 1] == w[1] && t[p + 2] == w[2];
    }
  }

  lemma {:induction false} InitRoundTrip(init: Option<Expr>, t: seq<Tok>, p: nat)
    requires Ended(t) && (init.Some? ==> Printable(init.value))
    requires Occurs(t, p, InitToks(init)) && Ender(t[p + |InitToks(init)|])
    ensures t[p] != Punct("[")
    ensures ParseInit(t, p) == Some((init, p + |InitToks(init)|))
  {
    if init.Some? {
      OccursParts(t, p, [Punct("=")], Print(init.value, 0));
      ExprRoundTrip(init.value, t, p + 1);
    }
  }

  lemma {:induction false} DeclRoundTrip(s: Stmt, t: seq<Tok>, p: nat)
    requires Ended(t) && s.Decl? && PrintableSimple(s) && Occurs(t, p, PrintSimple(s)) && Ender(t[p + |PrintSimple(s)|])
    ensures IsType(t[p]) && ParseDecl(t, p) == Some((s, p + |PrintSimple(s)|))
  {
    var ty, dim, init := TypeToks(s.kind), DimToks(s.arrLen), InitToks(s.init);
    var x := [Ident(s.name)];
    var q := p + |ty|;
    OccursParts(t, p, ty, x + (dim + init));
    OccursParts(t, q, x, dim + init);
    OccursParts(t, q + 1, dim, init);
    TypeRoundTrip(s.kind, t, p);
    InitRoundTrip(s.init, t, q + 1 + |dim|);
    DimRoundTrip(s.arrLen, t, q + 1);
  }

  /** A simple statement is read back from its tokens, before `;` or `)`. */
  lemma {:induction false} SimpleRoundTrip(s: Stmt, t: seq<Tok>, p: nat)
    requires Ended(t) && PrintableSimple(s) && Occurs(t, p, PrintSimple(s)) && Ender(t[p + |PrintSimple(s)|])
    ensures ParseSimple(t, p) == Some((s, p + |PrintSimple(s)|))
  {
    match s
    case Decl(_, _, _, _) => DeclRoundTrip(s, t, p);
    case Assign(x, e) =>
      var head := [Ident(x), Punct(if Adds(x, e) then "+=" else "=")];
      var right := if Adds(x, e) then e.right else e;
      OccursParts(t, p, head, Print(right, 0));
      assert t[p + 1] == head[1];
      ExprRoundTrip(right, t, p + 2);
    case ExprStmt(e) =>
      assert t[p] == PrintSimple(s)[0];
      ParenRoundTrip(e, t, p);
      ParenAtLevel(e, 0, t, p, p + |PrintSimple(s)|);
  }

  lemma {:induction false} CondRoundTrip(c: Expr, t: seq<Tok>, p: nat)
    requires Ended(t) && Printable(c) && Occurs(t, p, CondToks(c))
    ensures t[p] == Punct("(") && ParseCond(t, p) == Some((c, p + |CondToks(c)|))
  {
    OccursParts(t, p, [Punct("(")], Print(c, 0) + [Punct(")")]);
    OccursParts(t, p + 1, Print(c, 0), [Punct(")")]);
    ExprRoundTrip(c, t, p + 1);
  }

  /** A subscripted name starts with the name and a bracket. */
  lemma {:induction false} RootedStart(e: Expr)
    requires e.Index? && Rooted(e)
    ensures var w := Print(e, 6); |w| > 1 && w[0].Ident? && !IsType(w[0]) && w[1] == Punct("[")
    decreases e
  {
    if e.base.Index? {
      RootedStart(e.base);
    } else {
      assert Print(e.base, 6) == [Ident(e.base.name)];
    }
  }

  lemma {:induction false} StoreRoundTrip(s: Stmt, t: seq<Tok>, p: nat)
    requires Ended(t) && s.StoreLval? && PrintableStmt(s) && Occurs(t, p, PrintStmt(s))
    ensures ParseStmt(t, p) == Some((s, p + |PrintStmt(s)|))
  {
    var l, eq, e := Print(s.lval, 5), [Punct("=")], Print(s.value, 0);
    var q := p + |l|;
    OccursParts(t, p, l, eq + (e + [Punct(";")]));
    OccursParts(t, q, eq, e + [Punct(";")]);
    OccursParts(t, q + 1, e, [Punct(";")]);
    UnaryRoundTrip(s.lval, t, p);
    ExprRoundTrip(s.value, t, q + 1);
    if s.lval.Index? {
      RootedStart(s.lval);
      assert t[p] == l[0] && t[p + 1] == l[1];
    } else {
      assert t[p] == l[0];
    }
  }

  lemma {:induction false} ReturnRoundTrip(s: Stmt, t: seq<Tok>, p: nat)
    requires Ended(t) && s.Return? && PrintableStmt(s) && Occurs(t, p, PrintStmt(s))
    ensures ParseStmt(t, p) == Some((s, p + |PrintStmt(s)|))
  {
    if s.result.None? {
      assert t[p] == PrintStmt(s)[0] && t[p + 1] == PrintStmt(s)[1];
    } else {
      var e := Print(s.result.value, 0);
      OccursParts(t, p, [Ident("return")], e + [Punct(";")]);
      OccursParts(t, p + 1, e, [Punct(";")]);
      ExprRoundTrip(s.result.value, t, p + 1);
      ExprStart(s.result.value, 0);
    }
  }

  lemma {:induction false} ExprStart(e: Expr, level: nat)
    requires Printable(e) && level <= 6
    ensures Print(e, level) != [] && Print(e, level)[0] != Punct(";") && Print(e, level)[0] != Punct("[")
    decreases e
  {
    match e
    case Bin(op, a, _) => ExprStart(a, OpLevel(op));
    case Index(a, _) => ExprStart(a, 6);
    case _ =>
  }

  lemma {:induction false} PlainStep(t: seq<Tok>, p: nat, s: Stmt, q: nat)
    requires Ended(t) && p < |t| && q < |t| - 1 && ParseSimple(t, p) == Some((s, q)) && t[q] == Punct(";")
    requires IsType(t[p]) || t[p] == Punct("(")
             || (t[p].Ident? && t[p].name !in KEYWORDS && t[p + 1] != Punct("["))
    ensures ParseStmt(t, p) == Some((s, q + 1))
  {
    hide ParseDecl, ParseExpr;
  }

  lemma {:induction false} PlainStart(s: Stmt)
    requires s.Assign? || s.ExprStmt?
    ensures var w := PrintSimple(s);
            if s.ExprStmt? then |w| > 0 && w[0] == Punct("(")
            else |w| > 1 && w[0] == Ident(s.name) && w[1] != Punct("[")
  {
  }

  lemma {:induction false} PlainRoundTrip(s: Stmt, t: seq<Tok>, p: nat)
    requires Ended(t) && PrintableStmt(s) && (s.Decl? || s.Assign? || s.ExprStmt?) && Occurs(t, p, PrintStmt(s))
    ensures ParseStmt(t, p) == Some((s, p + |PrintStmt(s)|))
  {
    hide PrintSimple, ParseStmt, ParseSimple, ParseDecl, PrintableSimple;
    var w := PrintSimple(s);
    OccursParts(t, p, w, [Punct(";")]);
    SimpleRoundTrip(s, t, p);
    if s.Decl? {
      DeclRoundTrip(s, t, p);
    } else {
      PlainStart(s);
      assert t[p] == w[0] && (s.Assign? ==> t[p + 1] == w[1]);
    }
    PlainStep(t, p, s, p + |w|);
  }

  /** A statement is read back from its tokens, whatever follows. */
  lemma {:induction false} StmtRoundTrip(s: Stmt, t: seq<Tok>, p: nat)
    requires Ended(t) && PrintableStmt(s) && Occurs(t, p, PrintStmt(s))
    ensures ParseStmt(t, p) == Some((s, p + |PrintStmt(s)|))
    decreases s, 2
  {
    match s
    case StoreLval(_, _) => StoreRoundTrip(s, t, p);
    case Return(_) => ReturnRoundTrip(s, t, p);
    case If(_, _, _) => IfRoundTrip(s, t, p);
    case While(_, _) => WhileRoundTrip(s, t, p);
    case For(_, _, _, _) => ForRoundTrip(s, t, p);
    case _ => PlainRoundTrip(s, t, p);
  }

  lemma {:induction false} WhileRoundTrip(s: Stmt, t: seq<Tok>, p: nat)
    requires Ended(t) && s.While? && PrintableStmt(s) && Occurs(t, p, PrintStmt(s))
    ensures ParseStmt(t, p) == Some((s, p + |PrintStmt(s)|))
    decreases s, 1
  {
    hide Print, PrintBlock, Occurs, ParseBody, ParseCond, CondToks;
    Split3(t, p, [Ident("while")], CondToks(s.cond), PrintBlock(s.body));
    CondRoundTrip(s.cond, t, p + 1);
    BlockRoundTrip(s.body, t, p + 1 + |CondToks(s.cond)|);
  }

  lemma {:induction false} IfRoundTrip(s: Stmt, t: seq<Tok>, p: nat)
    requires Ended(t) && s.If? && PrintableStmt(s) && Occurs(t, p, PrintStmt(s))
    ensures ParseStmt(t, p) == Some((s, p + |PrintStmt(s)|))
    decreases s, 1
  {
    hide Print, PrintBlock, Occurs, ParseBody, ParseCond, CondToks;
    var c, thn, other, els := CondToks(s.cond), PrintBlock(s.thn), [Ident("else")], PrintBlock(s.els);
    var q := p + 1 + |c|;
    assert PrintStmt(s) == [Ident("if")] + (c + (thn + (other + els)));
    Split3(t, p, [Ident("if")], c, thn + (other + els));
    OccursParts(t, q, thn, other + els);
    OccursParts(t, q + |thn|, other, els);
    CondRoundTrip(s.cond, t, p + 1);
    BlockRoundTrip(s.thn, t, q);
    BlockRoundTrip(s.els, t, q + |thn| + 1);
    IfStep(t, p, s, q, q + |thn|, q + |thn| + 1 + |els|);
  }

  lemma {:induction false} IfStep(t: seq<Tok>, p: nat, s: Stmt, q: nat, q2: nat, q3: nat)
    requires Ended(t) && s.If? && p + 1 < |t| && q < |t| && q2 + 1 < |t| && t[p] == Ident("if") &&
             t[q2] == Ident("else")
    requires ParseCond(t, p + 1) == Some((s.cond, q))
    requires ParseBody(t, q) == Some((s.thn, q2)) && ParseBody(t, q2 + 1) == Some((s.els, q3))
    requires t[p + 1] == Punct("(")
    ensures ParseStmt(t, p) == Some((s, q3))
  {
    hide ParseCond, ParseBody;
  }

  /** Where the parts of a printed `for` stand. */
  lemma {:induction false} ForParts(s: Stmt, t: seq<Tok>, p: nat)
    requires s.For? && Occurs(t, p, PrintStmt(s))
    ensures var init, c, step, body := PrintSimple(s.init_), Print(s.cond, 0), PrintSimple(s.step), PrintBlock(s.body);
            var q := p + 2 + |init|;
            var q2 := q + 1 + |c|;
            var q3 := q2 + 1 + |step|;
            && q3 + 1 + |body| == p + |PrintStmt(s)| && q3 + 1 + |body| < |t|
            && t[p] == Ident("for") && t[p + 1] == Punct("(") && Occurs(t, p + 2, init) && t[q] == Punct(";")
            && Occurs(t, q + 1, c) && t[q2] == Punct(";") && Occurs(t, q2 + 1, step) && t[q3] == Punct(")")
            && Occurs(t, q3 + 1, body)
  {
    hide Occurs, PrintSimple, Print, PrintBlock;
    var init, c, step, body := PrintSimple(s.init_), Print(s.cond, 0), PrintSimple(s.step), PrintBlock(s.body);
    var head, semi, close := [Ident("for"), Punct("(")], [Punct(";")], [Punct(")")];
    var tail := semi + (step + (close + body));
    var q := p + 2 + |init|;
    assert PrintStmt(s) == head + (init + (semi + (c + tail)));
    Split3(t, p, head, init, semi + (c + tail));
    Split3(t, q, semi, c, tail);
    Split3(t, q + 1 + |c|, semi, step, close + body);
    OccursParts(t, q + 2 + |c| + |step|, close, body);
    assert t[p + 1] == head[1];
  }

  lemma {:induction false} Split3(t: seq<Tok>, p: nat, a: seq<Tok>, b: seq<Tok>, c: seq<Tok>)
    requires Occurs(t, p, a + (b + c)) && a != []
    ensures Occurs(t, p, a) && t[p] == a[0] && Occurs(t, p + |a|, b) && Occurs(t, p + |a| + |b|, c)
  {
    OccursParts(t, p, a, b + c);
    OccursParts(t, p + |a|, b, c);
  }

  lemma {:induction false} ForStep(t: seq<Tok>, p: nat, s: Stmt, q: nat, q2: nat, q3: nat, q4: nat)
    requires Ended(t) && s.For? && p + 2 < |t| && q < |t| - 1 && q2 < |t| - 1 && q3 < |t| - 1
    requires t[p] == Ident("for") && t[p + 1] == Punct("(")
    requires ParseSimple(t, p + 2) == Some((s.init_, q)) && t[q] == Punct(";")
    requires ParseExpr(t, q + 1) == Some((s.cond, q2)) && t[q2] == Punct(";")
    requires ParseSimple(t, q2 + 1) == Some((s.step, q3)) && t[q3] == Punct(")")
    requires ParseBody(t, q3 + 1) == Some((s.body, q4))
    ensures ParseStmt(t, p) == Some((s, q4))
  {
    hide ParseSimple, ParseExpr, ParseBody;
    assert WithSemi(t, ParseSimple(t, p + 2)) == Some((s.init_, q + 1));
    assert ParseForTail(t, q2 + 1, s.init_, s.cond) == Some((s, q4));
    assert ParseFor(t, p + 1) == Some((s, q4));
  }

  lemma {:induction false} ForRoundTrip(s: Stmt, t: seq<Tok>, p: nat)
    requires Ended(t) && s.For? && PrintableStmt(s) && Occurs(t, p, PrintStmt(s))
    ensures ParseStmt(t, p) == Some((s, p + |PrintStmt(s)|))
    decreases s, 1
  {
    hide PrintStmt, PrintSimple, Print, PrintBlock, Occurs, ParseStmt, ParseSimple, ParseExpr, ParseBody;
    var q := p + 2 + |PrintSimple(s.init_)|;
    var q2 := q + 1 + |Print(s.cond, 0)|;
    var q3 := q2 + 1 + |PrintSimple(s.step)|;
    ForParts(s, t, p);
    SimpleRoundTrip(s.init_, t, p + 2);
    ExprRoundTrip(s.cond, t, q + 1);
    SimpleRoundTrip(s.step, t, q2 + 1);
    BlockRoundTrip(s.body, t, q3 + 1);
    ForStep(t, p, s, q, q2, q3, q3 + 1 + |PrintBlock(s.body)|);
  }

  lemma {:induction false} BlockRoundTrip(ss: seq<Stmt>, t: seq<Tok>, p: nat)
    requires Ended(t) && PrintableStmts(ss) && Occurs(t, p, PrintBlock(ss))
    ensures ParseBody(t, p) == Some((ss, p + |PrintBlock(ss)|))
    ensures t[p] == Punct("{") && ParseStmts(t, p + 1) == Some((ss, p + |PrintBlock(ss)|))
    decreases ss, 1
  {
    hide Occurs, PrintStmts, PrintableStmts, ParseStmts;
    OccursParts(t, p, [Punct("{")], PrintStmts(ss) + [Punct("}")]);
    StmtsRoundTrip(ss, t, p + 1);
  }

  lemma {:induction false} StmtsRoundTrip(ss: seq<Stmt>, t: seq<Tok>, p: nat)
    requires Ended(t) && PrintableStmts(ss) && Occurs(t, p, PrintStmts(ss) + [Punct("}")])
    ensures ParseStmts(t, p) == Some((ss, p + |PrintStmts(ss)| + 1))
    decreases ss, 0
  {
    hide Occurs, PrintStmt, PrintableStmt, ParseStmt;
    var close := [Punct("}")];
    OccursParts(t, p, PrintStmts(ss), close);
    if ss != [] {
      var first, rest := PrintStmt(ss[0]), PrintStmts(ss[1..]);
      assert PrintStmts(ss) + close == first + (rest + close);
      OccursParts(t, p, first, rest + close);
      StmtStart(ss[0]);
      StmtRoundTrip(ss[0], t, p);
      StmtsRoundTrip(ss[1..], t, p + |first|);
      assert ss == [ss[0]] + ss[1..];
    }
  }

  lemma {:induction false} StmtStart(s: Stmt)
    requires PrintableStmt(s)
    ensures PrintStmt(s) != [] && PrintStmt(s)[0] != Punct("}")
  {
    if s.StoreLval? && s.lval.Index? { RootedStart(s.lval); }
  }

  /** Where the parts of a printed parameter list stand. */
  lemma {:induction false} ParamsParts(ps: seq<Param>, t: seq<Tok>, p: nat)
    requires ps != [] && Occurs(t, p, PrintParams(ps) + [Punct(")")])
    ensures var ty := TypeToks(ps[0].kind);
            var q := p + |ty|;
            && q + 1 < |t| && Occurs(t, p, ty) && t[q] == Ident(ps[0].name)
            && (if |ps| == 1 then t[q + 1] == Punct(")") && |PrintParams(ps)| == |ty| + 1
                else t[q + 1] == Punct(",") && Occurs(t, q + 2, PrintParams(ps[1..]) + [Punct(")")])
                     && |PrintParams(ps)| == |ty| + 2 + |PrintParams(ps[1..])|)
  {
    var close, ty, name := [Punct(")")], TypeToks(ps[0].kind), [Ident(ps[0].name)];
    var rest := if |ps| == 1 then [] else [Punct(",")] + PrintParams(ps[1..]);
    assert ty != [];
    hide Occurs, TypeToks;
    assert PrintParams(ps) + close == ty + (name + (rest + close));
    Split3(t, p, ty, name, rest + close);
    assert t[p + |ty|] == name[0];
    if |ps| == 1 {
      assert rest + close == close;
      assert t[p + |ty| + 1] == close[0];
    } else {
      assert rest + close == [Punct(",")] + (PrintParams(ps[1..]) + close);
      OccursParts(t, p + |ty| + 1, [Punct(",")], PrintParams(ps[1..]) + close);
    }
  }

  lemma {:induction false} OneParam(x: Param, t: seq<Tok>, p: nat)
    requires Ended(t) && Occurs(t, p, TypeToks(x.kind)) && p + |TypeToks(x.kind)| + 1 < |t|
    requires t[p + |TypeToks(x.kind)|] == Ident(x.name) && t[p + |TypeToks(x.kind)| + 1] != Punct("[")
    ensures t[p] != Punct(")") && t[p] != Ident("void")
    ensures ParseParam(t, p) == Some((x, p + |TypeToks(x.kind)| + 1))
  {
    TypeRoundTrip(x.kind, t, p);
  }

  lemma {:induction false} ParamsRoundTrip(ps: seq<Param>, t: seq<Tok>, p: nat)
    requires Ended(t) && Occurs(t, p, PrintParams(ps) + [Punct(")")])
    ensures t[p + |PrintParams(ps)|] == Punct(")") && ParseParams(t, p) == Some((ps, p + |PrintParams(ps)|))
  {
    hide ParseParam, TypeToks, Occurs;
    OccursParts(t, p, PrintParams(ps), [Punct(")")]);
    if ps == [] {
      assert ParseParams(t, p) == Some(([], p));
    } else {
      var q := p + |TypeToks(ps[0].kind)|;
      ParamsParts(ps, t, p);
      OneParam(ps[0], t, p);
      if |ps| == 1 {
        assert ParseParams(t, q + 1) == Some(([], q + 1));
        assert ps == [ps[0]] + [];
      } else {
        ParamsRoundTrip(ps[1..], t, q + 2);
        assert ps == [ps[0]] + ps[1..];
      }
    }
  }

  lemma {:induction false} FuncRoundTrip(f: Func, t: seq<Tok>, p: nat)
    requires Ended(t) && PrintableStmts(f.body) && Occurs(t, p, PrintFunc(f))
    ensures ParseFunc(t, p) == Some((f, p + |PrintFunc(f)|))
  {
    hide PrintParams, PrintBlock, ParseParams, ParseStmts, PrintableStmts, TypeToks;
    var head, ps, close, body := [Ident("int"), Ident(f.name), Punct("(")], PrintParams(f.params), [Punct(")")],
      PrintBlock(f.body);
    var q := p + 3 + |ps|;
    assert PrintFunc(f) == head + ((ps + close) + body);
    Split3(t, p, head, ps + close, body);
    assert t[p + 1] == head[1] && t[p + 2] == head[2];
    ParamsRoundTrip(f.params, t, p + 3);
    BlockRoundTrip(f.body, t, q + 1);
    IntType(t, p);
  }

  lemma {:induction false} IntType(t: seq<Tok>, p: nat)
    requires Ended(t) && p + 1 < |t| && t[p] == Ident("int") && t[p + 1].Ident?
    ensures ParseType(t, p) == Some(((false, 0), p + 1))
  {
    assert Occurs(t, p, TypeToks(Scalar));
    TypeRoundTrip(Scalar, t, p);
  }

  lemma {:induction false} FuncsRoundTrip(fs: seq<Func>, t: seq<Tok>, p: nat)
    requires Ended(t) && PrintableProgram(fs) && Occurs(t, p, PrintFuncs(fs)) && p + |PrintFuncs(fs)| == |t| - 1
    ensures ParseProgram(t, p) == Some(fs)
    decreases |fs|
  {
    hide Occurs, PrintFunc, ParseFunc, PrintableStmts;
    if fs != [] {
      OccursParts(t, p, PrintFunc(fs[0]), PrintFuncs(fs[1..]));
      assert forall i | 0 <= i < |fs[1..]| :: fs[1..][i] == fs[i + 1];
      FuncRoundTrip(fs[0], t, p);
      FuncsRoundTrip(fs[1..], t, p + |PrintFunc(fs[0])|);
      assert fs == [fs[0]] + fs[1..];
    }
  }

  // ----- the grammar produces printable programs only -----

  lemma {:induction false} DeclPrintable(t: seq<Tok>, p: nat)
    requires Ended(t) && p < |t| && ParseDecl(t, p).Some?
    ensures ParseDecl(t, p).value.0.Decl? && PrintableSimple(ParseDecl(t, p).value.0)
  {
    var ((isChar, stars), q) := ParseType(t, p).value;
    var (dim, q2) := ParseDim(t, q + 1).value;
    if t[q2] == Punct("=") { LevelPrintable(t, q2 + 1, 0); }
  }

  lemma {:induction false} SimplePrintable(t: seq<Tok>, p: nat)
    requires Ended(t) && p < |t| && ParseSimple(t, p).Some?
    ensures var s := ParseSimple(t, p).value.0;
            PrintableSimple(s) && (s.Assign? ==> t[p] == Ident(s.name))
  {
    if IsType(t[p]) {
      DeclPrintable(t, p);
    } else if t[p].Ident? && (t[p + 1] == Punct("=") || t[p + 1] == Punct("+=")) {
      LevelPrintable(t, p + 2, 0);
    } else if !(t[p].Ident? && t[p + 1] == Punct("++")) {
      LevelPrintable(t, p, 0);
    }
  }

  lemma {:induction false} SubscriptsRooted(t: seq<Tok>, p: nat, e: Expr)
    requires Ended(t) && p < |t| && Rooted(e) && ParseSubscripts(t, p, e).Some?
    ensures Rooted(ParseSubscripts(t, p, e).value.0)
    ensures e.Index? || t[p] == Punct("[") ==> ParseSubscripts(t, p, e).value.0.Index?
    decreases |t| - p
  {
    if t[p] == Punct("[") {
      var (idx, q) := ParseExpr(t, p + 1).value;
      SubscriptsRooted(t, q + 1, Index(e, idx));
    }
  }

  /** What the parser takes for the target of a store is one. */
  lemma {:induction false} TargetPrintable(t: seq<Tok>, p: nat)
    requires Ended(t) && p < |t| && !IsType(t[p]) && ParseUnary(t, p).Some?
    requires t[p] == Punct("*") || (t[p].Ident? && t[p + 1] == Punct("["))
    ensures var l := ParseUnary(t, p).value.0;
            Printable(l) && (l.Deref? || (l.Index? && Rooted(l)))
  {
    UnaryPrintable(t, p);
    if t[p].Ident? {
      if t[p] == Ident("sizeof") {
        NoSizeofBracket(t, p + 1);
      } else {
        assert ParsePrimary(t, p) == Some((Var(t[p].name), p + 1));
        SubscriptsRooted(t, p + 1, Var(t[p].name));
      }
    }
  }

  lemma {:induction false} NoSizeofBracket(t: seq<Tok>, p: nat)
    requires Ended(t) && p < |t| && t[p] == Punct("[")
    ensures ParseSizeof(t, p).None?
  {
    assert ParsePrimary(t, p).None?;
    assert ParseUnary(t, p).None?;
  }

  lemma {:induction false} StorePrintable(t: seq<Tok>, p: nat)
    requires Ended(t) && p < |t| && !IsType(t[p]) && ParseStore(t, p).Some?
    requires t[p] == Punct("*") || (t[p].Ident? && t[p + 1] == Punct("["))
    ensures PrintableStmt(ParseStore(t, p).value.0)
  {
    TargetPrintable(t, p);
    var (l, q) := ParseUnary(t, p).value;
    if t[q] == Punct("=") { LevelPrintable(t, q + 1, 0); }
  }

  lemma {:induction false} CondPrintable(t: seq<Tok>, p: nat)
    requires Ended(t) && p < |t| && ParseCond(t, p).Some?
    ensures Printable(ParseCond(t, p).value.0)
  {
    LevelPrintable(t, p + 1, 0);
  }

  lemma {:induction false} StmtPrintable(t: seq<Tok>, p: nat)
    requires Ended(t) && p < |t| && ParseStmt(t, p).Some?
    ensures PrintableStmt(ParseStmt(t, p).value.0)
    decreases |t| - p, 1
  {
    hide ParseExpr, ParseUnary, ParseDecl, ParseStore, ParseSimple, Printable, PrintableSimple;
    if IsType(t[p]) {
      DeclPrintable(t, p);
    } else if t[p] == Punct("*") || (t[p].Ident? && t[p + 1] == Punct("[")) {
      StorePrintable(t, p);
    } else if t[p] == Ident("return") {
      ReturnPrintable(t, p + 1);
    } else if t[p] == Ident("if") || t[p] == Ident("while") || t[p] == Ident("for") {
      ControlPrintable(t, p);
    } else {
      SimplePrintable(t, p);
      SimpleIsStmt(ParseSimple(t, p).value.0);
    }
  }

  lemma {:induction false} ReturnPrintable(t: seq<Tok>, p: nat)
    requires Ended(t) && p < |t| && ParseReturn(t, p).Some?
    ensures PrintableStmt(ParseReturn(t, p).value.0)
  {
    if t[p] != Punct(";") { LevelPrintable(t, p, 0); }
  }

  lemma {:induction false} SimpleIsStmt(s: Stmt)
    requires PrintableSimple(s) && (s.Assign? ==> s.name !in KEYWORDS)
    ensures PrintableStmt(s)
  {
  }

  lemma {:induction false} ControlPrintable(t: seq<Tok>, p: nat)
    requires Ended(t) && p < |t| && ParseStmt(t, p).Some?
    requires t[p] == Ident("if") || t[p] == Ident("while") || t[p] == Ident("for")
    requires t[p + 1] != Punct("[")
    ensures PrintableStmt(ParseStmt(t, p).value.0)
    decreases |t| - p, 0
  {
    hide ParseExpr, ParseSimple, ParseCond, ParseBody, Printable, PrintableSimple;
    if t[p] == Ident("for") {
      ForPrintable(t, p + 1);
    } else {
      CondPrintable(t, p + 1);
      var (c, q) := ParseCond(t, p + 1).value;
      BodyPrintable(t, q);
      var (first, q2) := ParseBody(t, q).value;
      if t[p] == Ident("if") && t[q2] == Ident("else") { BodyPrintable(t, q2 + 1); }
    }
  }

  lemma {:induction false} ForPrintable(t: seq<Tok>, p: nat)
    requires Ended(t) && p < |t| && ParseFor(t, p).Some?
    ensures PrintableStmt(ParseFor(t, p).value.0)
    decreases |t| - p, 3
  {
    hide ParseSimple, ParseBody, Printable, PrintableSimple;
    SimplePrintable(t, p + 1);
    var (init, q) := WithSemi(t, ParseSimple(t, p + 1)).value;
    LevelPrintable(t, q, 0);
    var (c, q2) := ParseExpr(t, q).value;
    SimplePrintable(t, q2 + 1);
    var (step, q3) := ParseSimple(t, q2 + 1).value;
    BodyPrintable(t, q3 + 1);
  }

  lemma {:induction false} BodyPrintable(t: seq<Tok>, p: nat)
    requires Ended(t) && p < |t| && ParseBody(t, p).Some?
    ensures PrintableStmts(ParseBody(t, p).value.0)
    decreases |t| - p, 2
  {
    if t[p] == Punct("{") {
      StmtsPrintable(t, p + 1);
    } else {
      StmtPrintable(t, p);
      var s := ParseStmt(t, p).value.0;
      assert [s][1..] == [];
      assert PrintableStmts([s]);
    }
  }

  lemma {:induction false} StmtsPrintable(t: seq<Tok>, p: nat)
    requires Ended(t) && p < |t| && ParseStmts(t, p).Some?
    ensures PrintableStmts(ParseStmts(t, p).value.0)
    decreases |t| - p, 2
  {
    if t[p] != Punct("}") {
      StmtPrintable(t, p);
      var (s, q) := ParseStmt(t, p).value;
      StmtsPrintable(t, q);
      var ss := ParseStmts(t, q).value.0;
      assert ([s] + ss)[1..] == ss;
    }
  }

  lemma {:induction false} ProgramPrintable(t: seq<Tok>, p: nat)
    requires Ended(t) && p < |t| && ParseProgram(t, p).Some?
    ensures PrintableProgram(ParseProgram(t, p).value)
    decreases |t| - p
  {
    if t[p] != Eof {
      var (f, q) := ParseFunc(t, p).value;
      FuncPrintable(t, p);
      ProgramPrintable(t, q);
    }
  }

  lemma {:induction false} FuncPrintable(t: seq<Tok>, p: nat)
    requires Ended(t) && p < |t| && ParseFunc(t, p).Some?
    ensures PrintableStmts(ParseFunc(t, p).value.0.body)
  {
    var (_, q) := ParseType(t, p).value;
    var (ps, q2) := ParseParams(t, q + 2).value;
    StmtsPrintable(t, q2 + 2);
  }

  // ----- no end marker inside -----

  lemma {:induction false} ExprEofFree(e: Expr, level: nat)
    ensures Eof !in Print(e, level)
  {
    forall i | 0 <= i < |Print(e, level)| ensures Print(e, level)[i] != Eof { PrintNoEof(e, level, i); }
  }

  lemma {:induction false} SimpleEofFree(s: Stmt)
    ensures Eof !in PrintSimple(s)
  {
    match s
    case Decl(_, _, init, _) => if init.Some? { ExprEofFree(init.value, 0); }
    case Assign(x, e) => ExprEofFree(if Adds(x, e) then e.right else e, 0);
    case ExprStmt(e) => ExprEofFree(e, 0);
    case _ =>
  }

  lemma {:induction false} StmtEofFree(s: Stmt)
    ensures Eof !in PrintStmt(s)
    decreases s, 0
  {
    hide Print, PrintSimple;
    match s
    case StoreLval(l, e) => ExprEofFree(l, 5); ExprEofFree(e, 0);
    case Return(e) => if e.Some? { ExprEofFree(e.value, 0); }
    case If(c, thn, els) => ExprEofFree(c, 0); StmtsEofFree(thn); StmtsEofFree(els);
    case While(c, body) => ExprEofFree(c, 0); StmtsEofFree(body);
    case For(init, c, step, body) =>
      SimpleEofFree(init);
      ExprEofFree(c, 0);
      SimpleEofFree(step);
      StmtsEofFree(body);
    case _ => SimpleEofFree(s);
  }

  lemma {:induction false} StmtsEofFree(ss: seq<Stmt>)
    ensures Eof !in PrintStmts(ss) && Eof !in PrintBlock(ss)
    decreases ss, 0
  {
    if ss != [] {
      StmtEofFree(ss[0]);
      StmtsEofFree(ss[1..]);
    }
  }

  lemma {:induction false} ParamsEofFree(ps: seq<Param>)
    ensures Eof !in PrintParams(ps)
  {
    if ps != [] { ParamsEofFree(ps[1..]); }
  }

  lemma {:induction false} FuncsEofFree(fs: seq<Func>)
    ensures Eof !in PrintFuncs(fs)
  {
    if fs != [] {
      ParamsEofFree(fs[0].params);
      StmtsEofFree(fs[0].body);
      FuncsEofFree(fs[1..]);
    }
  }

  // ----- both directions -----

  /** Parsing what was printed gives the whole program back. */
  lemma {:induction false} ProgramRoundTrip(fs: seq<Func>)
    requires PrintableProgram(fs)
    ensures Ended(PrintProgram(fs)) && ParseProgram(PrintProgram(fs), 0) == Some(fs)
  {
    var w, t := PrintFuncs(fs), PrintProgram(fs);
    FuncsEofFree(fs);
    assert forall i | 0 <= i < |t| - 1 :: t[i] == w[i] && w[i] in w;
    assert Occurs(t, 0, w);
    FuncsRoundTrip(fs, t, 0);
  }

  /** A program is printable if and only if some token list parses to it, so the round trip covers
      every program the parser can produce. */
  lemma {:induction false} PrintableProgramExactly(fs: seq<Func>)
    ensures PrintableProgram(fs) <==> exists t :: Ended(t) && ParseProgram(t, 0) == Some(fs)
  {
    if PrintableProgram(fs) {
      ProgramRoundTrip(fs);
      assert ParseProgram(PrintProgram(fs), 0) == Some(fs);
    }
    if t :| Ended(t) && ParseProgram(t, 0) == Some(fs) {
      ProgramPrintable(t, 0);
    }
  }
}
