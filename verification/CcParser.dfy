/** The parser as it runs: a token list and a position that moves. */
module CcParser {
  import opened Bytes
  import opened Results
  import opened CcAst
  import G = CcGrammar
  import opened CcGrammar

  /** The outcome of a parse method is the one the grammar gives. */
  ghost predicate Agrees<T>(spec: Parsed<T>, r: Result<T>, p: nat) {
    match spec
    case None => r.Err?
    case Some((x, q)) => r == Ok(x) && p == q
  }

  class Parser {
    const t: seq<Tok>
    var p: nat

    /** The position is on a token. Every read of the token list needs this. */
    ghost predicate Valid()
      reads this
    {
      Ended(t) && p < |t|
    }

    constructor (tokens: seq<Tok>)
      requires Ended(tokens)
      ensures t == tokens && p == 0 && Valid()
    {
      t := tokens;
      p := 0;
    }

    method Next() returns (k: Tok)
      requires Valid()
      modifies this`p
      ensures k == t[old(p)] && p == old(p) + 1 <= |t|
    {
      k := t[p];
      p := p + 1;
    }

    function IsPunct(m: string): bool
      requires Valid()
      reads this
    {
      t[p] == Punct(m)
    }

    function IsKw(w: string): bool
      requires Valid()
      reads this
    {
      t[p] == Ident(w)
    }

    method EatPunct(m: string) returns (r: Result<()>)
      requires Valid()
      modifies this`p
      ensures r.Ok? <==> t[old(p)] == Punct(m)
      ensures p == if r.Ok? then old(p) + 1 else old(p)
    {
      if t[p] == Punct(m) {
        p := p + 1;
        return Ok(());
      }
      return Err;
    }

    // ----- types -----

    method ParseType() returns (r: Result<(bool, nat)>)
      requires Valid()
      modifies this`p
      ensures Agrees(G.ParseType(t, old(p)), r, p)
    {
      while t[p].Ident? && t[p].name in QUALIFIERS
        invariant Valid() && SkipQualifiers(t, p) == SkipQualifiers(t, old(p))
        decreases |t| - p
      {
        p := p + 1;
      }
      if !t[p].Ident? || t[p].name !in BASE_TYPES { return Err; }
      var isChar := t[p].name == "char";
      ghost var b := p;
      p := p + 1;
      var stars := 0;
      while IsPunct("*")
        invariant Valid() && p == b + 1 + stars && SkipStars(t, p) == SkipStars(t, b + 1)
        decreases |t| - p
      {
        p := p + 1;
        stars := stars + 1;
      }
      return Ok((isChar, stars));
    }

    method ParseDim() returns (r: Result<Option<nat>>)
      requires Valid()
      modifies this`p
      ensures Agrees(G.ParseDim(t, old(p)), r, p)
    {
      if IsPunct("[") {
        var _ := Next();
        var k := Next();
        if !k.IntTok? { return Err; }
        var _ :- EatPunct("]");
        return Ok(Some(k.v));
      }
      return Ok(None);
    }

    // ----- expressions -----

    method ParseExpr() returns (r: Result<Expr>)
      requires Valid()
      modifies this`p
      ensures Agrees(G.ParseExpr(t, old(p)), r, p)
      decreases |t| - p, 13
    {
      r := ParseOr();
    }

    method ParseOr() returns (r: Result<Expr>)
      requires Valid()
      modifies this`p
      ensures Agrees(G.ParseLevel(t, old(p), 0), r, p)
      decreases |t| - p, 12
    {
      var l :- ParseAnd();
      while IsPunct("||")
        invariant old(p) < p && Valid() && ParseRest(t, p, 0, l) == ParseLevel(t, old(p), 0)
        decreases |t| - p
      {
        var _ := Next();
        var right :- ParseAnd();
        l := Bin(OrOr, l, right);
      }
      r := Ok(l);
    }

    method ParseAnd() returns (r: Result<Expr>)
      requires Valid()
      modifies this`p
      ensures Agrees(G.ParseLevel(t, old(p), 1), r, p)
      decreases |t| - p, 11
    {
      var l :- ParseCmp();
      while IsPunct("&&")
        invariant old(p) < p && Valid() && ParseRest(t, p, 1, l) == ParseLevel(t, old(p), 1)
        decreases |t| - p
      {
        var _ := Next();
        var right :- ParseCmp();
        l := Bin(AndAnd, l, right);
      }
      r := Ok(l);
    }

    method ParseCmp() returns (r: Result<Expr>)
      requires Valid()
      modifies this`p
      ensures Agrees(G.ParseLevel(t, old(p), 2), r, p)
      decreases |t| - p, 10
    {
      var l :- ParseAdd();
      while true
        invariant old(p) < p && Valid() && ParseRest(t, p, 2, l) == ParseLevel(t, old(p), 2)
        decreases |t| - p
      {
        var op := OpAt(t[p], 2);
        if op.None? { break; }
        var _ := Next();
        var right :- ParseAdd();
        l := Bin(op.value, l, right);
      }
      r := Ok(l);
    }

    method ParseAdd() returns (r: Result<Expr>)
      requires Valid()
      modifies this`p
      ensures Agrees(G.ParseLevel(t, old(p), 3), r, p)
      decreases |t| - p, 9
    {
      var l :- ParseMul();
      while true
        invariant old(p) < p && Valid() && ParseRest(t, p, 3, l) == ParseLevel(t, old(p), 3)
        decreases |t| - p
      {
        var op := OpAt(t[p], 3);
        if op.None? { break; }
        var _ := Next();
        var right :- ParseMul();
        l := Bin(op.value, l, right);
      }
      r := Ok(l);
    }

    method ParseMul() returns (r: Result<Expr>)
      requires Valid()
      modifies this`p
      ensures Agrees(G.ParseLevel(t, old(p), 4), r, p)
      decreases |t| - p, 8
    {
      var l :- ParseUnary();
      while true
        invariant old(p) < p && Valid() && ParseRest(t, p, 4, l) == ParseLevel(t, old(p), 4)
        decreases |t| - p
      {
        var op := OpAt(t[p], 4);
        if op.None? { break; }
        var _ := Next();
        var right :- ParseUnary();
        l := Bin(op.value, l, right);
      }
      r := Ok(l);
    }

    method ParseUnary() returns (r: Result<Expr>)
      requires Valid()
      modifies this`p
      ensures Agrees(G.ParseUnary(t, old(p)), r, p)
      decreases |t| - p, 7
    {
      if IsPunct("-") {
        var _ := Next();
        var e :- ParseUnary();
        return Ok(Neg(e));
      }
      if IsPunct("!") {
        var _ := Next();
        var e :- ParseUnary();
        return Ok(Not(e));
      }
      if IsPunct("*") {
        var _ := Next();
        var e :- ParseUnary();
        return Ok(Deref(e));
      }
      if IsKw("sizeof") {
        var _ := Next();
        r := ParseSizeof();
        return;
      }
      r := ParsePostfix();
    }

    /** The operand of `sizeof`, after the keyword. */
    method ParseSizeof() returns (r: Result<Expr>)
      requires Valid()
      modifies this`p
      ensures Agrees(G.ParseSizeof(t, old(p)), r, p)
      decreases |t| - p, 8
    {
      var paren := IsPunct("(");
      if paren { var _ := Next(); }
      var size := 4;
      if IsType(t[p]) {
        var ty :- ParseType();
        size := if ty.1 > 0 then 4 else if ty.0 then 1 else 4;
      } else {
        var _ :- ParseUnary();
      }
      if paren { var _ :- EatPunct(")"); }
      return Ok(Int(size));
    }

    /** A primary with trailing subscripts. */
    method ParsePostfix() returns (r: Result<Expr>)
      requires Valid()
      modifies this`p
      ensures Agrees(G.ParsePostfix(t, old(p)), r, p)
      decreases |t| - p, 6
    {
      var e :- ParsePrimary();
      while IsPunct("[")
        invariant old(p) < p && Valid() && ParseSubscripts(t, p, e) == G.ParsePostfix(t, old(p))
        decreases |t| - p
      {
        var _ := Next();
        var idx :- ParseExpr();
        var _ :- EatPunct("]");
        e := Index(e, idx);
      }
      r := Ok(e);
    }

    method ParsePrimary() returns (r: Result<Expr>)
      requires Valid()
      modifies this`p
      ensures Agrees(G.ParsePrimary(t, old(p)), r, p)
      decreases |t| - p, 5
    {
      var k := Next();
      match k
      case IntTok(v) => return Ok(Int(v));
      case StrTok(s) => return Ok(Str(s));
      case Punct(m) =>
        if m != "(" { return Err; }
        var e :- ParseExpr();
        var _ :- EatPunct(")");
        return Ok(e);
      case Ident(name) =>
        if !IsPunct("(") { return Ok(Var(name)); }
        var _ := Next();
        var args :- ParseCallArgs();
        return Ok(Call(name, args));
      case Eof => return Err;
    }

    method ParseCallArgs() returns (r: Result<seq<Expr>>)
      requires Valid()
      modifies this`p
      ensures Agrees(G.ParseArgs(t, old(p)), r, p)
      decreases |t| - p, 14
    {
      var args: seq<Expr> := [];
      AfterNil(ParseArgs(t, p));
      while !IsPunct(")")
        invariant Valid() && ParseArgs(t, old(p)) == After(args, ParseArgs(t, p)) && old(p) <= p
        decreases |t| - p
      {
        ghost var before, rest := args, ParseArgs(t, p);
        var e :- ParseExpr();
        args := args + [e];
        if IsPunct(",") { var _ := Next(); }
        AfterSnoc(before, e, ParseArgs(t, p));
      }
      var _ := EatPunct(")");
      assert args + [] == args;
      return Ok(args);
    }

    // ----- statements -----

    /** An optional `= expr`. */
    method ParseInit() returns (r: Result<Option<Expr>>)
      requires Valid()
      modifies this`p
      ensures Agrees(G.ParseInit(t, old(p)), r, p)
    {
      if IsPunct("=") {
        var _ := Next();
        var e :- ParseExpr();
        return Ok(Some(e));
      }
      return Ok(None);
    }

    method ParseDecl() returns (r: Result<Stmt>)
      requires Valid()
      modifies this`p
      ensures Agrees(G.ParseDecl(t, old(p)), r, p)
    {
      var ty :- ParseType();
      var name := Next();
      if !name.Ident? { return Err; }
      var dim :- ParseDim();
      var init :- ParseInit();
      return Ok(Decl(name.name, dim, init, KindFor(ty.0, ty.1 > 0 || dim.Some?)));
    }

    /** A statement with no trailing semicolon, as in the clauses of `for`. */
    method ParseSimple() returns (r: Result<Stmt>)
      requires Valid()
      modifies this`p
      ensures Agrees(G.ParseSimple(t, old(p)), r, p)
    {
      if IsType(t[p]) {
        r := ParseDecl();
        return;
      }
      if t[p].Ident? {
        var name := t[p].name;
        if t[p + 1] == Punct("=") {
          p := p + 2;
          var e :- ParseExpr();
          return Ok(Assign(name, e));
        }
        if t[p + 1] == Punct("++") {
          p := p + 2;
          return Ok(Assign(name, Bin(Add, Var(name), Int(1))));
        }
        if t[p + 1] == Punct("+=") {
          p := p + 2;
          var e :- ParseExpr();
          return Ok(Assign(name, Bin(Add, Var(name), e)));
        }
      }
      var e :- ParseExpr();
      return Ok(ExprStmt(e));
    }

    method ParseStmt() returns (r: Result<Stmt>)
      requires Valid()
      modifies this`p
      ensures Agrees(G.ParseStmt(t, old(p)), r, p)
      decreases |t| - p, 1
    {
      if IsType(t[p]) {
        var s :- ParseDecl();
        var _ :- EatPunct(";");
        return Ok(s);
      }
      if IsPunct("*") || (t[p].Ident? && t[p + 1] == Punct("[")) {
        r := ParseStoreStmt();
        return;
      }
      if IsKw("return") {
        r := ParseReturnStmt();
        return;
      }
      if IsKw("if") {
        var _ := Next();
        r := ParseIfStmt();
        return;
      }
      if IsKw("while") {
        var _ := Next();
        r := ParseWhileStmt();
        return;
      }
      if IsKw("for") {
        var _ := Next();
        r := ParseForStmt();
        return;
      }
      var s :- ParseSimple();
      var _ :- EatPunct(";");
      return Ok(s);
    }

    /** A store `*p = e;` or `a[i] = e;`, or after all an expression statement. */
    method ParseStoreStmt() returns (r: Result<Stmt>)
      requires Valid()
      modifies this`p
      ensures Agrees(WithSemi(t, ParseStore(t, old(p))), r, p)
    {
      var lval :- ParseUnary();
      if IsPunct("=") {
        var _ := Next();
        var e :- ParseExpr();
        var _ :- EatPunct(";");
        return Ok(StoreLval(lval, e));
      }
      var _ :- EatPunct(";");
      return Ok(ExprStmt(lval));
    }

    method ParseReturnStmt() returns (r: Result<Stmt>)
      requires Valid() && t[p] == Ident("return")
      modifies this`p
      ensures Agrees(WithSemi(t, ParseReturn(t, old(p) + 1)), r, p)
    {
      var _ := Next();
      var result := None;
      if !IsPunct(";") {
        var e :- ParseExpr();
        result := Some(e);
      }
      var _ :- EatPunct(";");
      return Ok(Return(result));
    }

    method ParseCondition() returns (r: Result<Expr>)
      requires Valid()
      modifies this`p
      ensures Agrees(ParseCond(t, old(p)), r, p)
    {
      var _ :- EatPunct("(");
      var c :- ParseExpr();
      var _ :- EatPunct(")");
      return Ok(c);
    }

    method ParseIfStmt() returns (r: Result<Stmt>)
      requires Valid()
      modifies this`p
      ensures Agrees(ParseIf(t, old(p)), r, p)
      decreases |t| - p, 3
    {
      var c :- ParseCondition();
      var thn :- ParseBlockOrStmt();
      var els: seq<Stmt> := [];
      if IsKw("else") {
        var _ := Next();
        els :- ParseBlockOrStmt();
      }
      return Ok(If(c, thn, els));
    }

    method ParseWhileStmt() returns (r: Result<Stmt>)
      requires Valid()
      modifies this`p
      ensures Agrees(ParseWhile(t, old(p)), r, p)
      decreases |t| - p, 3
    {
      var c :- ParseCondition();
      var body :- ParseBlockOrStmt();
      return Ok(While(c, body));
    }

    method ParseForStmt() returns (r: Result<Stmt>)
      requires Valid()
      modifies this`p
      ensures Agrees(ParseFor(t, old(p)), r, p)
      decreases |t| - p, 3
    {
      var _ :- EatPunct("(");
      var init :- ParseSimple();
      var _ :- EatPunct(";");
      var c :- ParseExpr();
      var _ :- EatPunct(";");
      r := ParseForRest(init, c);
    }

    method ParseForRest(init: Stmt, c: Expr) returns (r: Result<Stmt>)
      requires Valid()
      modifies this`p
      ensures Agrees(ParseForTail(t, old(p), init, c), r, p)
      decreases |t| - p, 3
    {
      var step :- ParseSimple();
      var _ :- EatPunct(")");
      var body :- ParseBlockOrStmt();
      return Ok(For(init, c, step, body));
    }

    method ParseBlockOrStmt() returns (r: Result<seq<Stmt>>)
      requires Valid()
      modifies this`p
      ensures Agrees(ParseBody(t, old(p)), r, p)
      decreases |t| - p, 2
    {
      if IsPunct("{") {
        r := ParseBlock();
        return;
      }
      var s :- ParseStmt();
      return Ok([s]);
    }

    method ParseBlock() returns (r: Result<seq<Stmt>>)
      requires Valid()
      modifies this`p
      ensures Agrees(if t[old(p)] == Punct("{") then ParseStmts(t, old(p) + 1) else None, r, p)
      decreases |t| - p, 1
    {
      var _ :- EatPunct("{");
      var ss: seq<Stmt> := [];
      ghost var start := p;
      AfterNil(ParseStmts(t, p));
      while !IsPunct("}")
        invariant Valid() && old(p) < p && ParseStmts(t, start) == After(ss, ParseStmts(t, p))
        decreases |t| - p
      {
        ghost var before := ss;
        var s :- ParseStmt();
        ss := ss + [s];
        AfterSnoc(before, s, ParseStmts(t, p));
      }
      var _ := EatPunct("}");
      assert ss + [] == ss;
      return Ok(ss);
    }

    // ----- functions -----

    method ParseParamList() returns (r: Result<seq<Param>>)
      requires Valid()
      modifies this`p
      ensures Agrees(ParseParams(t, old(p)), r, p)
    {
      hide G.ParseParam;
      var ps: seq<Param> := [];
      AfterNil(ParseParams(t, p));
      while !IsPunct(")")
        invariant Valid() && ParseParams(t, old(p)) == After(ps, ParseParams(t, p))
        decreases |t| - p
      {
        if IsKw("void") {
          var _ := Next();
          AfterLast(ps, p);
          return Ok(ps);
        }
        ghost var before := ps;
        var x :- ParseParam();
        ps := ps + [x];
        if IsPunct(",") { var _ := Next(); }
        AfterSnoc(before, x, ParseParams(t, p));
      }
      AfterLast(ps, p);
      return Ok(ps);
    }

    method ParseParam() returns (r: Result<Param>)
      requires Valid()
      modifies this`p
      ensures Agrees(G.ParseParam(t, old(p)), r, p)
    {
      var ty :- ParseType();
      var name := Next();
      if !name.Ident? { return Err; }
      var dim :- ParseDim();
      return Ok(Param(name.name, KindFor(ty.0, ty.1 > 0 || dim.Some?)));
    }

    method ParseFunc() returns (r: Result<Func>)
      requires Valid()
      modifies this`p
      ensures Agrees(G.ParseFunc(t, old(p)), r, p)
    {
      hide G.ParseParams, G.ParseParam, G.ParseType;
      var _ :- ParseType();
      var name := Next();
      if !name.Ident? { return Err; }
      var _ :- EatPunct("(");
      var ps :- ParseParamList();
      var _ :- EatPunct(")");
      var body :- ParseBlock();
      return Ok(Func(name.name, ps, body));
    }

    /** All functions up to the end marker. On any token list that a lexer can give, this
        ends without reading past the marker and returns exactly what the grammar gives. */
    method ParseProgram() returns (r: Result<seq<Func>>)
      requires Valid()
      modifies this`p
      ensures match G.ParseProgram(t, old(p)) case Some(fs) => r == Ok(fs) case None => r.Err?
    {
      hide G.ParseFunc, G.ParseParams;
      var fs: seq<Func> := [];
      ghost var all := G.ParseProgram(t, p);
      assert all.Some? ==> [] + all.value == all.value;
      while t[p] != Eof
        invariant Valid()
        invariant match G.ParseProgram(t, p) case Some(gs) => all == Some(fs + gs) case None => all == None
        decreases |t| - p
      {
        ghost var before := fs;
        var f :- ParseFunc();
        fs := fs + [f];
        ghost var rest := G.ParseProgram(t, p);
        if rest.Some? {
          assert before + ([f] + rest.value) == fs + rest.value;
        }
      }
      assert fs + [] == fs;
      return Ok(fs);
    }
  }

  /** Items already collected in front of the items still to come. */
  ghost function After<T>(xs: seq<T>, r: Parsed<seq<T>>): Parsed<seq<T>> {
    match r
    case None => None
    case Some((ys, q)) => Some((xs + ys, q))
  }

  lemma {:induction false} AfterNil<T>(r: Parsed<seq<T>>)
    ensures After([], r) == r
  {
    if r.Some? {
      assert [] + r.value.0 == r.value.0;
    }
  }

  lemma {:induction false} AfterLast<T>(xs: seq<T>, q: nat)
    ensures After(xs, Some(([], q))) == Some((xs, q))
  {
    assert xs + [] == xs;
  }

  lemma {:induction false} AfterSnoc<T>(xs: seq<T>, x: T, r: Parsed<seq<T>>)
    ensures After(xs + [x], r) == After(xs, After([x], r))
  {
    if r.Some? {
      assert xs + [x] + r.value.0 == xs + ([x] + r.value.0);
    }
  }
}
