/** Syntax of the C subset, and the symbol table of a function. */
module CcAst {
  import opened Bytes
  import opened SortedTable

  datatype BinOp =
    | Add | Sub | Mul | Div | Rem
    | Eq | Ne | Lt | Gt | Le | Ge
    | AndAnd | OrOr

  datatype Expr =
    | Int(value: int)
    | Str(text: seq<Byte>)
    | Var(name: string)
    | Bin(op: BinOp, left: Expr, right: Expr)
    | Neg(arg: Expr)
    | Not(arg: Expr)
    | Call(name: string, args: seq<Expr>)
    | Index(base: Expr, idx: Expr)
    | Deref(ptr: Expr)

  /** A scalar, or the address of byte-sized or word-sized elements. */
  datatype Kind = Scalar | CharPtr | IntPtr

  datatype Stmt =
    | Decl(name: string, arrLen: Option<nat>, init: Option<Expr>, kind: Kind)
    | Assign(name: string, value: Expr)
    | StoreLval(lval: Expr, value: Expr)
    | ExprStmt(expr: Expr)
    | If(cond: Expr, thn: seq<Stmt>, els: seq<Stmt>)
    | While(cond: Expr, body: seq<Stmt>)
    | For(init_: Stmt, cond: Expr, step: Stmt, body: seq<Stmt>)
    | Return(result: Option<Expr>)

  datatype Param = Param(name: string, kind: Kind)

  datatype Func = Func(name: string, params: seq<Param>, body: seq<Stmt>)

  function ElemSize(k: Kind): nat { if k == CharPtr then 1 else 4 }

  // ----- symbol table -----

  /** What a name stands for: `arrLen` is set for a local array. */
  datatype VarDecl = VarDecl(kind: Kind, arrLen: Option<nat>)

  type Symbols = Table<VarDecl>

  /** Declarations of a body in textual order; nested blocks do not open a scope. */
  function DeclsOf(ss: seq<Stmt>): seq<Entry<VarDecl>>
    decreases ss, 1
  {
    if ss == [] then [] else StmtDecls(ss[0]) + DeclsOf(ss[1..])
  }

  function StmtDecls(s: Stmt): seq<Entry<VarDecl>>
    decreases s, 0
  {
    match s
    case Decl(name, arrLen, _, kind) => [Entry(name, VarDecl(kind, arrLen))]
    case If(_, thn, els) => DeclsOf(thn) + DeclsOf(els)
    case While(_, body) => DeclsOf(body)
    case For(init, _, step, body) => StmtDecls(init) + StmtDecls(step) + DeclsOf(body)
    case _ => []
  }

  /** Parameters: a repeated name takes its last position. */
  function ParamSymbols(ps: seq<Param>): Symbols {
    if ps == [] then []
    else
      var last := ps[|ps| - 1];
      Put(ParamSymbols(ps[..|ps| - 1]), last.name, VarDecl(last.kind, None))
  }

  /** Locals: the first declaration of a name wins. */
  function AddDecls(t: Symbols, ds: seq<Entry<VarDecl>>): Symbols
    decreases |ds|
  {
    if ds == [] then t
    else AddDecls(if Get(t, ds[0].key).None? then Put(t, ds[0].key, ds[0].value) else t, ds[1..])
  }

  function SymbolsOf(f: Func): Symbols {
    AddDecls(ParamSymbols(f.params), DeclsOf(f.body))
  }

  function KindOf(t: Symbols, x: string): Kind {
    match Get(t, x)
    case Some(d) => d.kind
    case None => Scalar
  }

  /** The kind an expression evaluates to, for element sizing. */
  function ExprKind(e: Expr, t: Symbols): Kind {
    match e
    case Var(x) => KindOf(t, x)
    case Str(_) => CharPtr
    case Bin(_, a, b) => if ExprKind(a, t) != Scalar then ExprKind(a, t) else ExprKind(b, t)
    case Call(f, _) => if f == "malloc" then CharPtr else Scalar
    case _ => Scalar
  }

  predicate IsLval(e: Expr) { e.Index? || e.Deref? }

  /** The kind of the elements an lvalue addresses. */
  function LvalKind(e: Expr, t: Symbols): Kind
    requires IsLval(e)
  {
    match e
    case Index(base, _) => ExprKind(base, t)
    case Deref(p) => ExprKind(p, t)
  }

  // ----- properties of the symbol table -----

  lemma {:induction false} ParamSymbolsSorted(ps: seq<Param>)
    ensures Sorted(ParamSymbols(ps))
  {
    if ps != [] {
      var last := ps[|ps| - 1];
      ParamSymbolsSorted(ps[..|ps| - 1]);
      PutSorted(ParamSymbols(ps[..|ps| - 1]), last.name, VarDecl(last.kind, None));
    }
  }

  lemma {:induction false} AddDeclsSorted(t: Symbols, ds: seq<Entry<VarDecl>>)
    requires Sorted(t)
    ensures Sorted(AddDecls(t, ds))
    decreases |ds|
  {
    if ds != [] {
      if Get(t, ds[0].key).None? {
        PutSorted(t, ds[0].key, ds[0].value);
        AddDeclsSorted(Put(t, ds[0].key, ds[0].value), ds[1..]);
      } else {
        AddDeclsSorted(t, ds[1..]);
      }
    }
  }

  /** The first entry for a name in a list of declarations. */
  lemma {:induction false} AddDeclsGet(t: Symbols, ds: seq<Entry<VarDecl>>, x: string)
    ensures Get(AddDecls(t, ds), x) == if Get(t, x).Some? then Get(t, x) else Get(ds, x)
    decreases |ds|
  {
    if ds != [] {
      if Get(t, ds[0].key).None? {
        GetPut(t, ds[0].key, ds[0].value, x);
        AddDeclsGet(Put(t, ds[0].key, ds[0].value), ds[1..], x);
      } else {
        AddDeclsGet(t, ds[1..], x);
      }
    }
  }

  predicate LastNamed(ps: seq<Param>, i: nat, x: string) {
    i < |ps| && ps[i].name == x && forall j :: i < j < |ps| ==> ps[j].name != x
  }

  lemma {:induction false} LastParam(ps: seq<Param>, i: nat, x: string)
    requires LastNamed(ps, i, x)
    ensures Get(ParamSymbols(ps), x) == Some(VarDecl(ps[i].kind, None))
  {
    var n := |ps| - 1;
    GetPut(ParamSymbols(ps[..n]), ps[n].name, VarDecl(ps[n].kind, None), x);
    if i < n { LastParam(ps[..n], i, x); }
  }

  lemma {:induction false} NoParam(ps: seq<Param>, x: string)
    requires forall i :: 0 <= i < |ps| ==> ps[i].name != x
    ensures Get(ParamSymbols(ps), x) == None
  {
    if ps != [] {
      var n := |ps| - 1;
      GetPut(ParamSymbols(ps[..n]), ps[n].name, VarDecl(ps[n].kind, None), x);
      NoParam(ps[..n], x);
    }
  }

  /** Variables are function-scoped: the last parameter of a name hides the others and every
      declaration of the name; without one, the first declaration in the text counts, whatever
      block it is in. */
  lemma {:induction false} SymbolsMeaning(f: Func, x: string)
    ensures Sorted(SymbolsOf(f))
    ensures forall i: nat :: LastNamed(f.params, i, x) ==> Get(SymbolsOf(f), x) == Some(VarDecl(f.params[i].kind, None))
    ensures (forall i :: 0 <= i < |f.params| ==> f.params[i].name != x) ==>
              Get(SymbolsOf(f), x) == Get(DeclsOf(f.body), x)
  {
    ParamSymbolsSorted(f.params);
    AddDeclsSorted(ParamSymbols(f.params), DeclsOf(f.body));
    AddDeclsGet(ParamSymbols(f.params), DeclsOf(f.body), x);
    forall i: nat | LastNamed(f.params, i, x)
      ensures Get(SymbolsOf(f), x) == Some(VarDecl(f.params[i].kind, None))
    {
      LastParam(f.params, i, x);
    }
    if forall i :: 0 <= i < |f.params| ==> f.params[i].name != x { NoParam(f.params, x); }
  }
}
