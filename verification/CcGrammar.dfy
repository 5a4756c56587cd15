/** The grammar of the C subset as recursive functions on a token list. */
module CcGrammar {
  import opened Bytes
  import opened CcAst

  datatype Tok = IntTok(v: nat) | StrTok(text: seq<Byte>) | Ident(name: string) | Punct(mark: string) | Eof

  /** A lexer's output: one end marker, at the end. */
  ghost predicate Ended(t: seq<Tok>) {
    && |t| > 0 && t[|t| - 1] == Eof
    && forall i | 0 <= i < |t| - 1 :: t[i] != Eof
  }

  const TYPES := ["int", "char", "void", "long", "unsigned", "signed", "const"]
  const QUALIFIERS := ["unsigned", "signed", "const"]
  const BASE_TYPES := ["int", "char", "void", "long"]

  predicate IsType(k: Tok) { k.Ident? && k.name in TYPES }

  /** A parse: the tree and the position after it, or an error. */
  type Parsed<+T> = Option<(T, nat)>

  // ----- types -----

  function SkipQualifiers(t: seq<Tok>, p: nat): (q: nat)
    requires Ended(t) && p < |t|
    ensures p <= q < |t|
    decreases |t| - p
  {
    if t[p].Ident? && t[p].name in QUALIFIERS then SkipQualifiers(t, p + 1) else p
  }

  function SkipStars(t: seq<Tok>, p: nat): (q: nat)
    requires Ended(t) && p < |t|
    ensures p <= q < |t|
    decreases |t| - p
  {
    if t[p] == Punct("*") then SkipStars(t, p + 1) else p
  }

  /** A base type and its pointer depth. */
  function ParseType(t: seq<Tok>, p: nat): (r: Parsed<(bool, nat)>)
    requires Ended(t) && p < |t|
    ensures r.Some? ==> p < r.value.1 < |t|
  {
    var b := SkipQualifiers(t, p);
    if t[b].Ident? && t[b].name in BASE_TYPES then
      var q := SkipStars(t, b + 1);
      Some(((t[b].name == "char", q - (b + 1)), q))
    else None
  }

  function KindFor(isChar: bool, ptr: bool): Kind {
    if !ptr then Scalar else if isChar then CharPtr else IntPtr
  }

  /** An optional array length in brackets. */
  function ParseDim(t: seq<Tok>, p: nat): (r: Parsed<Option<nat>>)
    requires Ended(t) && p < |t|
    ensures r.Some? ==> p <= r.value.1 < |t|
  {
    if t[p] != Punct("[") then Some((None, p))
    else if t[p + 1].IntTok? && t[p + 2] == Punct("]") then Some((Some(t[p + 1].v), p + 3))
    else None
  }

  // ----- expressions -----

  /** Binary operators by level, loosest first: ||, &&, comparisons, sums, products. */
  function OpAt(k: Tok, level: nat): Option<BinOp> {
    if !k.Punct? then None
    else match level
      case 0 => if k.mark == "||" then Some(OrOr) else None
      case 1 => if k.mark == "&&" then Some(AndAnd) else None
      case 2 =>
        if k.mark == "==" then Some(Eq) else if k.mark == "!=" then Some(Ne)
        else if k.mark == "<" then Some(Lt) else if k.mark == ">" then Some(Gt)
        else if k.mark == "<=" then Some(Le) else if k.mark == ">=" then Some(Ge) else None
      case 3 => if k.mark == "+" then Some(Add) else if k.mark == "-" then Some(Sub) else None
      case 4 =>
        if k.mark == "*" then Some(Mul) else if k.mark == "/" then Some(Div)
        else if k.mark == "%" then Some(Rem) else None
      case _ => None
  }

  /** Operands of one level joined by its operators, grouped to the left. */
  function ParseLevel(t: seq<Tok>, p: nat, level: nat): (r: Parsed<Expr>)
    requires Ended(t) && p < |t| && level <= 5
    ensures r.Some? ==> p < r.value.1 < |t|
    decreases |t| - p, 12 - level
  {
    if level == 5 then ParseUnary(t, p)
    else match ParseLevel(t, p, level + 1)
      case None => None
      case Some((left, q)) => ParseRest(t, q, level, left)
  }

  function ParseRest(t: seq<Tok>, p: nat, level: nat, left: Expr): (r: Parsed<Expr>)
    requires Ended(t) && p < |t| && level < 5
    ensures r.Some? ==> p <= r.value.1 < |t|
    decreases |t| - p, 6
  {
    match OpAt(t[p], level)
    case None => Some((left, p))
    case Some(op) =>
      match ParseLevel(t, p + 1, level + 1)
      case None => None
      case Some((right, q)) => ParseRest(t, q, level, Bin(op, left, right))
  }

  function ParseExpr(t: seq<Tok>, p: nat): (r: Parsed<Expr>)
    requires Ended(t) && p < |t|
    ensures r.Some? ==> p < r.value.1 < |t|
    decreases |t| - p, 13
  {
    ParseLevel(t, p, 0)
  }

  function ParseUnary(t: seq<Tok>, p: nat): (r: Parsed<Expr>)
    requires Ended(t) && p < |t|
    ensures r.Some? ==> p < r.value.1 < |t|
    decreases |t| - p, 5
  {
    if t[p] == Punct("-") then
      (match ParseUnary(t, p + 1) case None => None case Some((e, q)) => Some((Neg(e), q)))
    else if t[p] == Punct("!") then
      (match ParseUnary(t, p + 1) case None => None case Some((e, q)) => Some((Not(e), q)))
    else if t[p] == Punct("*") then
      (match ParseUnary(t, p + 1) case None => None case Some((e, q)) => Some((Deref(e), q)))
    else if t[p] == Ident("sizeof") then ParseSizeof(t, p + 1)
    else ParsePostfix(t, p)
  }

  /** `sizeof`, folded to a number: by type, or four for any expression. */
  function ParseSizeof(t: seq<Tok>, p: nat): (r: Parsed<Expr>)
    requires Ended(t) && p < |t|
    ensures r.Some? ==> p < r.value.1 < |t|
    decreases |t| - p, 6
  {
    var paren := t[p] == Punct("(");
    var b := if paren then p + 1 else p;
    var size: Parsed<int> :=
      if IsType(t[b]) then
        (match ParseType(t, b)
         case None => None
         case Some(((isChar, stars), q)) => Some((if stars > 0 then 4 else if isChar then 1 else 4, q)))
      else (match ParseUnary(t, b) case None => None case Some((_, q)) => Some((4, q)));
    match size
    case None => None
    case Some((n, q)) =>
      if !paren then Some((Int(n), q))
      else if t[q] == Punct(")") then Some((Int(n), q + 1)) else None
  }

  function ParsePostfix(t: seq<Tok>, p: nat): (r: Parsed<Expr>)
    requires Ended(t) && p < |t|
    ensures r.Some? ==> p < r.value.1 < |t|
    decreases |t| - p, 4
  {
    match ParsePrimary(t, p)
    case None => None
    case Some((e, q)) => ParseSubscripts(t, q, e)
  }

  function ParseSubscripts(t: seq<Tok>, p: nat, e: Expr): (r: Parsed<Expr>)
    requires Ended(t) && p < |t|
    ensures r.Some? ==> p <= r.value.1 < |t|
    decreases |t| - p, 2
  {
    if t[p] != Punct("[") then Some((e, p))
    else match ParseExpr(t, p + 1)
      case None => None
      case Some((idx, q)) =>
        if t[q] == Punct("]") then ParseSubscripts(t, q + 1, Index(e, idx)) else None
  }

  function ParsePrimary(t: seq<Tok>, p: nat): (r: Parsed<Expr>)
    requires Ended(t) && p < |t|
    ensures r.Some? ==> p < r.value.1 < |t|
    decreases |t| - p, 3
  {
    match t[p]
    case IntTok(v) => Some((Int(v), p + 1))
    case StrTok(s) => Some((Str(s), p + 1))
    case Punct(m) =>
      if m != "(" then None
      else (match ParseExpr(t, p + 1)
            case None => None
            case Some((e, q)) => if t[q] == Punct(")") then Some((e, q + 1)) else None)
    case Ident(name) =>
      if t[p + 1] == Punct("(") then
        (match ParseArgs(t, p + 2) case None => None case Some((args, q)) => Some((Call(name, args), q)))
      else Some((Var(name), p + 1))
    case Eof => None
  }

  /** Arguments up to the closing parenthesis; the commas between them may be missing. */
  function ParseArgs(t: seq<Tok>, p: nat): (r: Parsed<seq<Expr>>)
    requires Ended(t) && p < |t|
    ensures r.Some? ==> p < r.value.1 < |t|
    decreases |t| - p, 14
  {
    if t[p] == Punct(")") then Some(([], p + 1))
    else match ParseExpr(t, p)
      case None => None
      case Some((e, q)) =>
        match ParseArgs(t, if t[q] == Punct(",") then q + 1 else q)
        case None => None
        case Some((es, q2)) => Some(([e] + es, q2))
  }

  // ----- statements -----

  /** An optional `= expr`. */
  function ParseInit(t: seq<Tok>, p: nat): (r: Parsed<Option<Expr>>)
    requires Ended(t) && p < |t|
    ensures r.Some? ==> p <= r.value.1 < |t|
  {
    if t[p] != Punct("=") then Some((None, p))
    else match ParseExpr(t, p + 1)
      case None => None
      case Some((e, q)) => Some((Some(e), q))
  }

  function ParseDecl(t: seq<Tok>, p: nat): (r: Parsed<Stmt>)
    requires Ended(t) && p < |t|
    ensures r.Some? ==> p < r.value.1 < |t|
  {
    match ParseType(t, p)
    case None => None
    case Some(((isChar, stars), q)) =>
      if !t[q].Ident? then None
      else match ParseDim(t, q + 1)
        case None => None
        case Some((dim, q2)) =>
          match ParseInit(t, q2)
          case None => None
          case Some((init, q3)) =>
            Some((Decl(t[q].name, dim, init, KindFor(isChar, stars > 0 || dim.Some?)), q3))
  }

  /** A declaration, an assignment or an expression, with no semicolon after it. */
  function ParseSimple(t: seq<Tok>, p: nat): (r: Parsed<Stmt>)
    requires Ended(t) && p < |t|
    ensures r.Some? ==> p < r.value.1 < |t|
  {
    if IsType(t[p]) then ParseDecl(t, p)
    else if t[p].Ident? && t[p + 1] == Punct("=") then
      (match ParseExpr(t, p + 2) case None => None case Some((e, q)) => Some((Assign(t[p].name, e), q)))
    else if t[p].Ident? && t[p + 1] == Punct("++") then
      Some((Assign(t[p].name, Bin(Add, Var(t[p].name), Int(1))), p + 2))
    else if t[p].Ident? && t[p + 1] == Punct("+=") then
      (match ParseExpr(t, p + 2)
       case None => None
       case Some((e, q)) => Some((Assign(t[p].name, Bin(Add, Var(t[p].name), e)), q)))
    else
      match ParseExpr(t, p) case None => None case Some((e, q)) => Some((ExprStmt(e), q))
  }

  function WithSemi(t: seq<Tok>, r: Parsed<Stmt>): (s: Parsed<Stmt>)
    requires Ended(t) && (r.Some? ==> r.value.1 < |t|)
    ensures s.Some? ==> r.Some? && s.value.1 == r.value.1 + 1 < |t|
  {
    match r
    case None => None
    case Some((s, q)) => if t[q] == Punct(";") then Some((s, q + 1)) else None
  }

  function ParseStmt(t: seq<Tok>, p: nat): (r: Parsed<Stmt>)
    requires Ended(t) && p < |t|
    ensures r.Some? ==> p < r.value.1 < |t|
    decreases |t| - p, 1
  {
    if IsType(t[p]) then WithSemi(t, ParseDecl(t, p))
    else if t[p] == Punct("*") || (t[p].Ident? && t[p + 1] == Punct("[")) then
      WithSemi(t, ParseStore(t, p))
    else if t[p] == Ident("return") then WithSemi(t, ParseReturn(t, p + 1))
    else if t[p] == Ident("if") then ParseIf(t, p + 1)
    else if t[p] == Ident("while") then ParseWhile(t, p + 1)
    else if t[p] == Ident("for") then ParseFor(t, p + 1)
    else WithSemi(t, ParseSimple(t, p))
  }

  /** A store through a pointer or an array element, or just that expression. */
  function ParseStore(t: seq<Tok>, p: nat): (r: Parsed<Stmt>)
    requires Ended(t) && p < |t|
    ensures r.Some? ==> p < r.value.1 < |t|
  {
    match ParseUnary(t, p)
    case None => None
    case Some((lval, q)) =>
      if t[q] != Punct("=") then Some((ExprStmt(lval), q))
      else match ParseExpr(t, q + 1)
        case None => None
        case Some((e, q2)) => Some((StoreLval(lval, e), q2))
  }

  function ParseReturn(t: seq<Tok>, p: nat): (r: Parsed<Stmt>)
    requires Ended(t) && p < |t|
    ensures r.Some? ==> p <= r.value.1 < |t|
  {
    if t[p] == Punct(";") then Some((Return(None), p))
    else match ParseExpr(t, p) case None => None case Some((e, q)) => Some((Return(Some(e)), q))
  }

  /** A condition in parentheses. */
  function ParseCond(t: seq<Tok>, p: nat): (r: Parsed<Expr>)
    requires Ended(t) && p < |t|
    ensures r.Some? ==> p < r.value.1 < |t|
  {
    if t[p] != Punct("(") then None
    else match ParseExpr(t, p + 1)
      case None => None
      case Some((c, q)) => if t[q] == Punct(")") then Some((c, q + 1)) else None
  }

  function ParseIf(t: seq<Tok>, p: nat): (r: Parsed<Stmt>)
    requires Ended(t) && p < |t|
    ensures r.Some? ==> p < r.value.1 < |t|
    decreases |t| - p, 3
  {
    match ParseCond(t, p)
    case None => None
    case Some((c, q)) =>
      match ParseBody(t, q)
      case None => None
      case Some((thn, q2)) =>
        if t[q2] != Ident("else") then Some((If(c, thn, []), q2))
        else match ParseBody(t, q2 + 1)
          case None => None
          case Some((els, q3)) => Some((If(c, thn, els), q3))
  }

  function ParseWhile(t: seq<Tok>, p: nat): (r: Parsed<Stmt>)
    requires Ended(t) && p < |t|
    ensures r.Some? ==> p < r.value.1 < |t|
    decreases |t| - p, 3
  {
    match ParseCond(t, p)
    case None => None
    case Some((c, q)) =>
      match ParseBody(t, q) case None => None case Some((body, q2)) => Some((While(c, body), q2))
  }

  function ParseFor(t: seq<Tok>, p: nat): (r: Parsed<Stmt>)
    requires Ended(t) && p < |t|
    ensures r.Some? ==> p < r.value.1 < |t|
    decreases |t| - p, 3
  {
    if t[p] != Punct("(") then None
    else match WithSemi(t, ParseSimple(t, p + 1))
      case None => None
      case Some((init, q)) =>
        match ParseExpr(t, q)
        case None => None
        case Some((c, q2)) => if t[q2] == Punct(";") then ParseForTail(t, q2 + 1, init, c) else None
  }

  /** A `for` statement from its step on. */
  function ParseForTail(t: seq<Tok>, p: nat, init: Stmt, c: Expr): (r: Parsed<Stmt>)
    requires Ended(t) && p < |t|
    ensures r.Some? ==> p < r.value.1 < |t|
    decreases |t| - p, 3
  {
    match ParseSimple(t, p)
    case None => None
    case Some((step, q)) =>
      if t[q] != Punct(")") then None
      else match ParseBody(t, q + 1)
        case None => None
        case Some((body, q2)) => Some((For(init, c, step, body), q2))
  }

  /** A block, or one statement standing for a block. */
  function ParseBody(t: seq<Tok>, p: nat): (r: Parsed<seq<Stmt>>)
    requires Ended(t) && p < |t|
    ensures r.Some? ==> p < r.value.1 < |t|
    decreases |t| - p, 2
  {
    if t[p] == Punct("{") then ParseStmts(t, p + 1)
    else match ParseStmt(t, p) case None => None case Some((s, q)) => Some(([s], q))
  }

  /** Statements up to and with the closing brace. */
  function ParseStmts(t: seq<Tok>, p: nat): (r: Parsed<seq<Stmt>>)
    requires Ended(t) && p < |t|
    ensures r.Some? ==> p < r.value.1 < |t|
    decreases |t| - p, 2
  {
    if t[p] == Punct("}") then Some(([], p + 1))
    else match ParseStmt(t, p)
      case None => None
      case Some((s, q)) =>
        match ParseStmts(t, q) case None => None case Some((ss, q2)) => Some(([s] + ss, q2))
  }

  // ----- functions -----

  /** Parameters; `void` ends the list, and the commas between them may be missing. */
  function ParseParams(t: seq<Tok>, p: nat): (r: Parsed<seq<Param>>)
    requires Ended(t) && p < |t|
    ensures r.Some? ==> p <= r.value.1 < |t|
    decreases |t| - p
  {
    if t[p] == Punct(")") then Some(([], p))
    else if t[p] == Ident("void") then Some(([], p + 1))
    else match ParseParam(t, p)
      case None => None
      case Some((x, q)) =>
        match ParseParams(t, if t[q] == Punct(",") then q + 1 else q)
        case None => None
        case Some((ps, q2)) => Some(([x] + ps, q2))
  }

  function ParseParam(t: seq<Tok>, p: nat): (r: Parsed<Param>)
    requires Ended(t) && p < |t|
    ensures r.Some? ==> p < r.value.1 < |t|
  {
    match ParseType(t, p)
    case None => None
    case Some(((isChar, stars), q)) =>
      if !t[q].Ident? then None
      else match ParseDim(t, q + 1)
        case None => None
        case Some((dim, q2)) => Some((Param(t[q].name, KindFor(isChar, stars > 0 || dim.Some?)), q2))
  }

  function ParseFunc(t: seq<Tok>, p: nat): (r: Parsed<Func>)
    requires Ended(t) && p < |t|
    ensures r.Some? ==> p < r.value.1 < |t|
  {
    match ParseType(t, p)
    case None => None
    case Some((_, q)) =>
      if !t[q].Ident? || t[q + 1] != Punct("(") then None
      else match ParseParams(t, q + 2)
        case None => None
        case Some((ps, q2)) =>
          if t[q2] != Punct(")") || t[q2 + 1] != Punct("{") then None
          else match ParseStmts(t, q2 + 2)
            case None => None
            case Some((body, q3)) => Some((Func(t[q].name, ps, body), q3))
  }

  function ParseProgram(t: seq<Tok>, p: nat): Option<seq<Func>>
    requires Ended(t) && p < |t|
    decreases |t| - p
  {
    if t[p] == Eof then Some([])
    else match ParseFunc(t, p)
      case None => None
      case Some((f, q)) =>
        match ParseProgram(t, q) case None => None case Some(fs) => Some([f] + fs)
  }
}
