/** Every way to write a program: trees that keep what the parser throws away, their tokens, and the programs
    they stand for. */
module CcSpelling {
  import opened Bytes
  import opened CcAst
  import opened CcGrammar
  import opened CcPrinter

  // ----- types -----

  /** Qualifiers, a base type and stars. */
  datatype CType = CType(quals: seq<string>, base: string, stars: nat)

  function Idents(names: seq<string>): (w: seq<Tok>)
    ensures |w| == |names| && forall i | 0 <= i < |w| :: w[i] == Ident(names[i])
  {
    seq(|names|, i requires 0 <= i < |names| => Ident(names[i]))
  }

  function Stars(n: nat): (w: seq<Tok>)
    ensures |w| == n && forall i | 0 <= i < n :: w[i] == Punct("*")
  {
    seq(n, _ => Punct("*"))
  }

  function TypeToks(ty: CType): (w: seq<Tok>)
    ensures |w| == |ty.quals| + 1 + ty.stars
  {
    Idents(ty.quals) + ([Ident(ty.base)] + Stars(ty.stars))
  }

  predicate TypeOk(ty: CType) {
    && (forall i | 0 <= i < |ty.quals| ::
          ty.quals[i] == "unsigned" || ty.quals[i] == "signed" || ty.quals[i] == "const")
    && (ty.base == "int" || ty.base == "char" || ty.base == "void" || ty.base == "long")
  }

  /** Pointers and arrays of `char` have elements of one byte, all others of four. */
  function KindOfType(ty: CType, isArray: bool): Kind {
    if ty.stars == 0 && !isArray then Scalar else if ty.base == "char" then CharPtr else IntPtr
  }

  // ----- expressions -----

  datatype CExpr =
    | Number(v: nat)
    | Text(s: seq<Byte>)
    | Name(x: string)
    | Paren(inner: CExpr)
    | CallOf(f: string, args: seq<Arg>)
    | Subscript(base: CExpr, idx: CExpr)
    | Minus(arg: CExpr)
    | Bang(arg: CExpr)
    | Star(arg: CExpr)
    | SizeofType(ty: CType, paren: bool)
    | SizeofExpr(arg: CExpr, paren: bool)
    | Binary(op: BinOp, left: CExpr, right: CExpr)

  /** An argument, and whether a comma follows it. */
  datatype Arg = Arg(e: CExpr, comma: bool)

  function Wrapped(w: seq<Tok>, paren: bool): seq<Tok> {
    if paren then [Punct("(")] + (w + [Punct(")")]) else w
  }

  function Comma(comma: bool): seq<Tok> { if comma then [Punct(",")] else [] }

  function Spell(c: CExpr): (w: seq<Tok>)
    ensures w != []
    decreases c
  {
    match c
    case Number(v) => [IntTok(v)]
    case Text(s) => [StrTok(s)]
    case Name(x) => [Ident(x)]
    case Paren(e) => [Punct("(")] + (Spell(e) + [Punct(")")])
    case CallOf(f, args) => [Ident(f), Punct("(")] + (SpellArgs(args) + [Punct(")")])
    case Subscript(base, idx) => Spell(base) + ([Punct("[")] + (Spell(idx) + [Punct("]")]))
    case Minus(e) => [Punct("-")] + Spell(e)
    case Bang(e) => [Punct("!")] + Spell(e)
    case Star(e) => [Punct("*")] + Spell(e)
    case SizeofType(ty, paren) => [Ident("sizeof")] + Wrapped(TypeToks(ty), paren)
    case SizeofExpr(e, paren) => [Ident("sizeof")] + Wrapped(Spell(e), paren)
    case Binary(op, l, r) => Spell(l) + ([Punct(Mark(op))] + Spell(r))
  }

  function SpellArgs(args: seq<Arg>): seq<Tok>
    decreases args
  {
    if args == [] then []
    else
      assert args[0].e < args[0];
      Spell(args[0].e) + (Comma(args[0].comma) + SpellArgs(args[1..]))
  }

  /** The expression that a tree stands for: `sizeof` of `char` is one, of anything else four. */
  function Meaning(c: CExpr): Expr
    decreases c
  {
    match c
    case Number(v) => Int(v)
    case Text(s) => Str(s)
    case Name(x) => Var(x)
    case Paren(e) => Meaning(e)
    case CallOf(f, args) => Expr.Call(f, Meanings(args))
    case Subscript(base, idx) => Index(Meaning(base), Meaning(idx))
    case Minus(e) => Neg(Meaning(e))
    case Bang(e) => Not(Meaning(e))
    case Star(e) => Deref(Meaning(e))
    case SizeofType(ty, _) => Int(if ty.base == "char" && ty.stars == 0 then 1 else 4)
    case SizeofExpr(_, _) => Int(4)
    case Binary(op, l, r) => Bin(op, Meaning(l), Meaning(r))
  }

  function Meanings(args: seq<Arg>): seq<Expr>
    decreases args
  {
    if args == [] then []
    else
      assert args[0].e < args[0];
      [Meaning(args[0].e)] + Meanings(args[1..])
  }

  /** How tightly a tree binds: the operators' levels, 5 prefix, 6 subscript, 7 primary. */
  function Binding(c: CExpr): (k: nat)
    ensures k <= 7
  {
    match c
    case Binary(op, _, _) => OpLevel(op)
    case Minus(_) => 5
    case Bang(_) => 5
    case Star(_) => 5
    case SizeofType(_, _) => 5
    case SizeofExpr(_, _) => 5
    case Subscript(_, _) => 6
    case _ => 7
  }

  /** The token behind a tree is not taken for a part of it: a name is not followed by `(`, nothing by `[`, and a
      bare type not by a star. */
  predicate Edge(c: CExpr, k: Tok)
    decreases c
  {
    match c
    case Name(_) => k != Punct("[") && k != Punct("(")
    case Minus(e) => Edge(e, k)
    case Bang(e) => Edge(e, k)
    case Star(e) => Edge(e, k)
    case SizeofType(_, paren) => paren || k != Punct("*")
    case SizeofExpr(e, paren) => paren || Edge(e, k)
    case Binary(_, _, r) => Edge(r, k)
    case _ => k != Punct("[")
  }

  /** The token is no operator of a level or a tighter one. */
  predicate NoOp(k: Tok, level: nat) { forall j | level <= j <= 4 :: OpAt(k, j).None? }

  predicate ExprOk(c: CExpr)
    decreases c
  {
    match c
    case Name(x) => x != "sizeof"
    case Paren(e) => ExprOk(e)
    case CallOf(f, args) => f != "sizeof" && ArgsOk(args)
    case Subscript(base, idx) => ExprOk(base) && Binding(base) >= 6 && ExprOk(idx)
    case Minus(e) => ExprOk(e) && Binding(e) >= 5
    case Bang(e) => ExprOk(e) && Binding(e) >= 5
    case Star(e) => ExprOk(e) && Binding(e) >= 5
    case SizeofType(ty, _) => TypeOk(ty)
    case SizeofExpr(e, paren) =>
      ExprOk(e) && Binding(e) >= 5 && !IsType(Spell(e)[0]) && (paren || Spell(e)[0] != Punct("("))
    case Binary(op, l, r) =>
      ExprOk(l) && Binding(l) >= OpLevel(op) && Edge(l, Punct(Mark(op))) && ExprOk(r) && Binding(r) > OpLevel(op)
    case _ => true
  }

  /** Without a comma, what follows an argument does not continue it. */
  predicate ArgsOk(args: seq<Arg>)
    decreases args
  {
    if args == [] then true
    else
      assert args[0].e < args[0];
      && ExprOk(args[0].e) && ArgsOk(args[1..])
      && (!args[0].comma && |args| > 1 ==> var k := Spell(args[1].e)[0]; Edge(args[0].e, k) && NoOp(k, 0))
  }

  // ----- statements -----

  datatype CStmt =
    | DeclOf(ty: CType, x: string, dim: Option<nat>, init: Option<CExpr>)
    | Set(x: string, e: CExpr)
    | Increment(x: string)
    | AddTo(x: string, e: CExpr)
    | Just(e: CExpr)
    | StoreTo(lval: CExpr, e: CExpr)
    | JustLval(lval: CExpr)
    | ReturnOf(result: Option<CExpr>)
    | IfOf(cond: CExpr, thn: CBody, els: Option<CBody>)
    | WhileOf(cond: CExpr, body: CBody)
    | ForOf(init_: CStmt, cond: CExpr, step: CStmt, body: CBody)

  /** A block, or a statement in place of one. */
  datatype CBody = Block(ss: seq<CStmt>) | Single(s: CStmt)

  function DimToks(dim: Option<nat>): seq<Tok> {
    match dim
    case None => []
    case Some(n) => [Punct("["), IntTok(n), Punct("]")]
  }

  function InitToks(init: Option<CExpr>): seq<Tok> {
    match init
    case None => []
    case Some(e) => [Punct("=")] + Spell(e)
  }

  /** The statements that may stand in the clauses of a `for`. */
  function SpellSimple(s: CStmt): seq<Tok> {
    match s
    case DeclOf(ty, x, dim, init) => TypeToks(ty) + ([Ident(x)] + (DimToks(dim) + InitToks(init)))
    case Set(x, e) => [Ident(x), Punct("=")] + Spell(e)
    case Increment(x) => [Ident(x), Punct("++")]
    case AddTo(x, e) => [Ident(x), Punct("+=")] + Spell(e)
    case Just(e) => Spell(e)
    case _ => []
  }

  function SpellCond(c: CExpr): seq<Tok> { [Punct("(")] + (Spell(c) + [Punct(")")]) }

  function SpellStmt(s: CStmt): seq<Tok>
    decreases s, 1
  {
    match s
    case StoreTo(l, e) => Spell(l) + ([Punct("=")] + (Spell(e) + [Punct(";")]))
    case JustLval(l) => Spell(l) + [Punct(";")]
    case ReturnOf(None) => [Ident("return")] + [Punct(";")]
    case ReturnOf(Some(e)) => [Ident("return")] + (Spell(e) + [Punct(";")])
    case IfOf(c, thn, els) => [Ident("if")] + (SpellCond(c) + (SpellBody(thn) + SpellElse(s)))
    case WhileOf(c, body) => [Ident("while")] + (SpellCond(c) + SpellBody(body))
    case ForOf(init, c, step, body) =>
      [Ident("for"), Punct("(")] + (SpellSimple(init) + ([Punct(";")] + (Spell(c) + ([Punct(";")]
      + (SpellSimple(step) + ([Punct(")")] + SpellBody(body)))))))
    case _ => SpellSimple(s) + [Punct(";")]
  }

  function SpellElse(s: CStmt): seq<Tok>
    requires s.IfOf?
    decreases s, 0
  {
    match s.els
    case None => []
    case Some(b) => [Ident("else")] + SpellBody(b)
  }

  function SpellBody(b: CBody): seq<Tok>
    decreases b
  {
    match b
    case Block(ss) => [Punct("{")] + (SpellStmts(ss) + [Punct("}")])
    case Single(s) => SpellStmt(s)
  }

  function SpellStmts(ss: seq<CStmt>): seq<Tok>
    decreases ss
  {
    if ss == [] then [] else SpellStmt(ss[0]) + SpellStmts(ss[1..])
  }

  function MeaningOf(e: Option<CExpr>): Option<Expr> {
    match e
    case None => None
    case Some(c) => Some(Meaning(c))
  }

  /** `x++` is `x = x + 1`, and `x += e` is `x = x + e`. */
  function StmtMeaning(s: CStmt): Stmt
    decreases s, 1
  {
    match s
    case DeclOf(ty, x, dim, init) => Decl(x, dim, MeaningOf(init), KindOfType(ty, dim.Some?))
    case Set(x, e) => Assign(x, Meaning(e))
    case Increment(x) => Assign(x, Bin(Add, Var(x), Int(1)))
    case AddTo(x, e) => Assign(x, Bin(Add, Var(x), Meaning(e)))
    case Just(e) => ExprStmt(Meaning(e))
    case StoreTo(l, e) => StoreLval(Meaning(l), Meaning(e))
    case JustLval(l) => ExprStmt(Meaning(l))
    case ReturnOf(e) => Return(MeaningOf(e))
    case IfOf(c, thn, els) => If(Meaning(c), BodyMeaning(thn), ElseMeaning(s))
    case WhileOf(c, body) => While(Meaning(c), BodyMeaning(body))
    case ForOf(init, c, step, body) => For(StmtMeaning(init), Meaning(c), StmtMeaning(step), BodyMeaning(body))
  }

  function ElseMeaning(s: CStmt): seq<Stmt>
    requires s.IfOf?
    decreases s, 0
  {
    match s.els
    case None => []
    case Some(b) => BodyMeaning(b)
  }

  function BodyMeaning(b: CBody): seq<Stmt>
    decreases b
  {
    match b
    case Block(ss) => StmtsMeaning(ss)
    case Single(s) => [StmtMeaning(s)]
  }

  function StmtsMeaning(ss: seq<CStmt>): seq<Stmt>
    decreases ss
  {
    if ss == [] then [] else [StmtMeaning(ss[0])] + StmtsMeaning(ss[1..])
  }

  // ----- which statements are read as they are meant -----

  predicate InitOk(init: Option<CExpr>) { init.Some? ==> ExprOk(init.value) }

  predicate SimpleOk(s: CStmt) {
    match s
    case DeclOf(ty, _, _, init) => TypeOk(ty) && InitOk(init)
    case Set(x, e) => !IsType(Ident(x)) && ExprOk(e)
    case Increment(x) => !IsType(Ident(x))
    case AddTo(x, e) => !IsType(Ident(x)) && ExprOk(e)
    case Just(e) => ExprOk(e) && !IsType(Spell(e)[0])
    case _ => false
  }

  /** The tokens begin like a store: with a star, or with a name and a bracket. */
  predicate StoreLike(w: seq<Tok>) { w != [] && (w[0] == Punct("*") || (|w| > 1 && w[0].Ident? && w[1] == Punct("["))) }

  predicate Keyword(k: Tok) { k == Ident("return") || k == Ident("if") || k == Ident("while") || k == Ident("for") }

  predicate StmtOk(s: CStmt)
    decreases s, 0
  {
    match s
    case StoreTo(l, e) => LvalOk(l) && ExprOk(e)
    case JustLval(l) => LvalOk(l)
    case ReturnOf(e) => InitOk(e)
    case IfOf(c, thn, els) =>
      ExprOk(c) && BodyOk(thn) && (els.Some? ==> BodyOk(els.value) && !OpenBody(thn))
    case WhileOf(c, body) => ExprOk(c) && BodyOk(body)
    case ForOf(init, c, step, body) => SimpleOk(init) && ExprOk(c) && SimpleOk(step) && BodyOk(body)
    case DeclOf(_, _, _, _) => SimpleOk(s)
    case _ => SimpleOk(s) && !Keyword(SpellSimple(s)[0]) && !StoreLike(SpellSimple(s))
  }

  predicate LvalOk(l: CExpr) { ExprOk(l) && Binding(l) >= 5 && StoreLike(Spell(l)) && !IsType(Spell(l)[0]) }

  predicate BodyOk(b: CBody)
    decreases b
  {
    match b
    case Block(ss) => StmtsOk(ss)
    case Single(s) => StmtOk(s)
  }

  predicate StmtsOk(ss: seq<CStmt>)
    decreases ss
  {
    ss == [] || (StmtOk(ss[0]) && StmtsOk(ss[1..]) && (OpenStmt(ss[0]) && |ss| > 1 ==> !StartsElse(ss[1])))
  }

  /** The statement ends with an `if` that an `else` behind it would belong to. */
  predicate OpenStmt(s: CStmt)
    decreases s
  {
    match s
    case IfOf(_, _, els) => els.None? || OpenBody(els.value)
    case WhileOf(_, body) => OpenBody(body)
    case ForOf(_, _, _, body) => OpenBody(body)
    case _ => false
  }

  predicate OpenBody(b: CBody)
    decreases b
  {
    b.Single? && OpenStmt(b.s)
  }

  predicate StartsElse(s: CStmt) { SpellStmt(s) != [] && SpellStmt(s)[0] == Ident("else") }

  // ----- functions and programs -----

  datatype CParam = CParam(ty: CType, x: string, dim: Option<nat>, comma: bool)

  /** `closed` parameter lists end with `void`. */
  datatype CFunc = CFunc(ty: CType, name: string, params: seq<CParam>, closed: bool, body: seq<CStmt>)

  function SpellParam(q: CParam): seq<Tok> { TypeToks(q.ty) + ([Ident(q.x)] + DimToks(q.dim)) }

  function SpellParams(ps: seq<CParam>): seq<Tok> {
    if ps == [] then [] else SpellParam(ps[0]) + (Comma(ps[0].comma) + SpellParams(ps[1..]))
  }

  function SpellFunc(f: CFunc): seq<Tok> {
    TypeToks(f.ty) + ([Ident(f.name), Punct("(")]
    + (SpellParams(f.params) + ((if f.closed then [Ident("void")] else [])
    + ([Punct(")"), Punct("{")] + (SpellStmts(f.body) + [Punct("}")])))))
  }

  function SpellFuncs(fs: seq<CFunc>): seq<Tok> {
    if fs == [] then [] else SpellFunc(fs[0]) + SpellFuncs(fs[1..])
  }

  function ParamMeanings(ps: seq<CParam>): seq<Param> {
    if ps == [] then []
    else [Param(ps[0].x, KindOfType(ps[0].ty, ps[0].dim.Some?))] + ParamMeanings(ps[1..])
  }

  function FuncMeaning(f: CFunc): Func { Func(f.name, ParamMeanings(f.params), StmtsMeaning(f.body)) }

  function FuncMeanings(fs: seq<CFunc>): seq<Func> {
    if fs == [] then [] else [FuncMeaning(fs[0])] + FuncMeanings(fs[1..])
  }

  predicate ParamsOk(ps: seq<CParam>) {
    forall i | 0 <= i < |ps| :: TypeOk(ps[i].ty) && (ps[i].ty.quals == [] ==> ps[i].ty.base != "void")
  }

  predicate FuncOk(f: CFunc) { TypeOk(f.ty) && ParamsOk(f.params) && StmtsOk(f.body) }

  predicate ProgramOk(fs: seq<CFunc>) { forall i | 0 <= i < |fs| :: FuncOk(fs[i]) }
}
