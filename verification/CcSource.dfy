/** Big-step semantics of the C subset, as its compiler reads it: 32-bit wrap-around
    arithmetic, `&&` and `||` that evaluate both sides and combine them bitwise, unscaled
    pointer addition, function-scoped variables and a bump heap. */
module CcSource {
  import opened Bytes
  import opened Int32
  import opened CcAst
  import Wasm

  type Store = Wasm.Store
  type Env = map<string, Word>

  /** Fuel bounds loop iterations and nested calls; the state reached so far is kept when a
      run traps or the fuel is spent, so that output made before that is comparable. */
  datatype Res<+T> =
    | Ok(value: T, st: Store)
    | Trapped(st: Store)
    | OutOfFuel(st: Store)
    | Wrong
  {
    predicate IsFailure() { !Ok? }

    function PropagateFailure<U>(): Res<U>
      requires IsFailure()
    {
      match this
      case Trapped(s) => Trapped(s)
      case OutOfFuel(s) => OutOfFuel(s)
      case Wrong => Wrong
    }

    function Extract(): (T, Store)
      requires Ok?
    {
      (value, st)
    }
  }

  datatype Flow = Next(env: Env) | Ret(value: Word)

  /** A program and the addresses of its string literals. */
  datatype Program = Program(funcs: seq<Func>, strs: map<seq<Byte>, nat>)

  /** The last function with the name is the one calls reach. */
  function Lookup(fs: seq<Func>, name: string): (r: Option<nat>)
    ensures r.Some? ==> r.value < |fs| && fs[r.value].name == name
  {
    if fs == [] then None
    else if fs[|fs| - 1].name == name then Some(|fs| - 1)
    else Lookup(fs[..|fs| - 1], name)
  }

  function BinEval(op: BinOp, a: Word, b: Word): Option<Word> {
    var x, y := Signed(a), Signed(b);
    match op
    case Add => Some(Wrap(x + y))
    case Sub => Some(Wrap(x - y))
    case Mul => Some(Wrap(x * y))
    case Div => if y == 0 || (x == -0x8000_0000 && y == -1) then None else Some(Wrap(TruncDiv(x, y)))
    case Rem => if y == 0 then None else Some(Wrap(x - y * TruncDiv(x, y)))
    case Eq => Some(Bool(x == y))
    case Ne => Some(Bool(x != y))
    case Lt => Some(Bool(x < y))
    case Gt => Some(Bool(x > y))
    case Le => Some(Bool(x <= y))
    case Ge => Some(Bool(x >= y))
    case AndAnd => Some(And(a, b))
    case OrOr => Some(Or(a, b))
  }

  /** The heap pointer after `bytes` more bytes, rounded up to a multiple of four. */
  function Bump(heap: Word, bytes: Word): Word {
    var top := Wrap(Wrap(heap + bytes) + 3);
    top - top % 4
  }

  function LoadElem(k: Kind, a: Word, st: Store): Res<Word> {
    match if ElemSize(k) == 1 then Wasm.LoadByte(st.mem, a) else Wasm.LoadWord(st.mem, a)
    case Some(v) => Ok(v, st)
    case None => Trapped(st)
  }

  function StoreElem(k: Kind, a: Word, v: Word, st: Store): Res<()> {
    match if ElemSize(k) == 1 then Wasm.StoreByte(st.mem, a, v) else Wasm.StoreWord(st.mem, a, v)
    case Some(mem) => Ok((), st.(mem := mem))
    case None => Trapped(st)
  }

  function PrintText(ptr: Word, len: Word, st: Store): Res<Option<Word>> {
    match Wasm.HostLog(st, ptr, len)
    case Some(st1) => Ok(None, st1)
    case None => Trapped(st)
  }

  /** The value of an expression that has one. */
  function Value(r: Res<Option<Word>>): Res<Word> {
    match r
    case Ok(Some(w), st) => Ok(w, st)
    case Ok(None, _) => Wrong
    case Trapped(st) => Trapped(st)
    case OutOfFuel(st) => OutOfFuel(st)
    case Wrong => Wrong
  }

  predicate IsPrint(name: string, args: seq<Expr>) {
    name == "print" || name == "print_int" || name == "putchar" || (name == "print_str" && |args| == 1)
  }

  /** Evaluate an expression; the built-ins that print have no value. */
  function EvalExpr(fuel: nat, e: Expr, env: Env, st: Store, t: Symbols, p: Program): Res<Option<Word>>
    decreases fuel, e, 1
  {
    match e
    case Int(v) => Ok(Some(Wrap(v)), st)
    case Str(s) => if s in p.strs then Ok(Some(Wrap(p.strs[s])), st) else Wrong
    case Var(x) => if x in env then Ok(Some(env[x]), st) else Wrong
    case Bin(op, a, b) =>
      var (x, st1) :- Value(EvalExpr(fuel, a, env, st, t, p));
      var (y, st2) :- Value(EvalExpr(fuel, b, env, st1, t, p));
      (match BinEval(op, x, y)
       case Some(w) => Ok(Some(w), st2)
       case None => Trapped(st2))
    case Neg(a) =>
      var (x, st1) :- Value(EvalExpr(fuel, a, env, st, t, p));
      Ok(Some(Wrap(-Signed(x))), st1)
    case Not(a) =>
      var (x, st1) :- Value(EvalExpr(fuel, a, env, st, t, p));
      Ok(Some(Bool(x == 0)), st1)
    case Index(_, _) =>
      var (a, st1) :- EvalAddr(fuel, e, env, st, t, p);
      var (w, st2) :- LoadElem(LvalKind(e, t), a, st1);
      Ok(Some(w), st2)
    case Deref(_) =>
      var (a, st1) :- EvalAddr(fuel, e, env, st, t, p);
      var (w, st2) :- LoadElem(LvalKind(e, t), a, st1);
      Ok(Some(w), st2)
    case Call(name, args) =>
      if name == "print" then
        if |args| == 1 && args[0].Str? && args[0].text in p.strs
        then PrintText(Wrap(p.strs[args[0].text]), Wrap(|args[0].text|), st)
        else Wrong
      else if name == "print_int" || name == "putchar" then
        if |args| != 1 then Wrong
        else
          var (x, st1) :- Value(EvalExpr(fuel, args[0], env, st, t, p));
          Ok(None, Wasm.HostPrintInt(st1, x))
      else if name == "malloc" then
        if |args| != 1 then Wrong
        else
          var (n, st1) :- Value(EvalExpr(fuel, args[0], env, st, t, p));
          // the old heap pointer is read before the size is evaluated
          Ok(Some(st.heap), st1.(heap := Bump(st.heap, n)))
      else if name == "free" then
        if args == [] then Ok(Some(0), st)
        else
          var (_, st1) :- EvalExpr(fuel, args[0], env, st, t, p);
          Ok(Some(0), st1)
      else if name == "print_str" && |args| == 1 then
        var (a, st1) :- Value(EvalExpr(fuel, args[0], env, st, t, p));
        (match Lookup(p.funcs, "strlen")
         case None => PrintText(a, 0, st1)
         case Some(k) =>
           // the argument is evaluated a second time for its length
           var (b, st2) :- Value(EvalExpr(fuel, args[0], env, st1, t, p));
           var (n, st3) :- if fuel == 0 then OutOfFuel(st2) else EvalFunc(fuel - 1, k, [b], st2, p);
           PrintText(a, n, st3))
      else
        var (ws, st1) :- EvalArgs(fuel, args, env, st, t, p);
        (match Lookup(p.funcs, name)
         case None => Wrong
         case Some(k) =>
           if |ws| != |p.funcs[k].params| then Wrong
           else if fuel == 0 then OutOfFuel(st1)
           else
             var (w, st2) :- EvalFunc(fuel - 1, k, ws, st1, p);
             Ok(Some(w), st2))
  }

  function EvalArgs(fuel: nat, es: seq<Expr>, env: Env, st: Store, t: Symbols, p: Program): Res<seq<Word>>
    decreases fuel, es, 1
  {
    if es == [] then Ok([], st)
    else
      var (w, st1) :- Value(EvalExpr(fuel, es[0], env, st, t, p));
      var (ws, st2) :- EvalArgs(fuel, es[1..], env, st1, t, p);
      Ok([w] + ws, st2)
  }

  function EvalAddr(fuel: nat, e: Expr, env: Env, st: Store, t: Symbols, p: Program): Res<Word>
    decreases fuel, e, 0
  {
    match e
    case Index(base, idx) =>
      var (b, st1) :- Value(EvalExpr(fuel, base, env, st, t, p));
      var (i, st2) :- Value(EvalExpr(fuel, idx, env, st1, t, p));
      Ok(Wrap(b + Signed(i) * ElemSize(LvalKind(e, t))), st2)
    case Deref(q) => Value(EvalExpr(fuel, q, env, st, t, p))
    case _ => Wrong
  }

  function EvalStmt(fuel: nat, s: Stmt, env: Env, st: Store, t: Symbols, p: Program): Res<Flow>
    decreases fuel, s, 1
  {
    match s
    case Decl(x, _, init, _) =>
      (match init
       case None => Ok(Next(env), st)
       case Some(e) =>
         var (w, st1) :- Value(EvalExpr(fuel, e, env, st, t, p));
         Ok(Next(env[x := w]), st1))
    case Assign(x, e) =>
      var (w, st1) :- Value(EvalExpr(fuel, e, env, st, t, p));
      if x in env then Ok(Next(env[x := w]), st1) else Wrong
    case StoreLval(lval, e) =>
      var (a, st1) :- EvalAddr(fuel, lval, env, st, t, p);
      var (w, st2) :- Value(EvalExpr(fuel, e, env, st1, t, p));
      if !IsLval(lval) then Wrong
      else
        var (_, st3) :- StoreElem(LvalKind(lval, t), a, w, st2);
        Ok(Next(env), st3)
    case ExprStmt(e) =>
      var (_, st1) :- EvalExpr(fuel, e, env, st, t, p);
      Ok(Next(env), st1)
    case Return(None) => Ok(Ret(0), st)
    case Return(Some(e)) =>
      var (w, st1) :- Value(EvalExpr(fuel, e, env, st, t, p));
      Ok(Ret(w), st1)
    case If(c, thn, els) =>
      var (w, st1) :- Value(EvalExpr(fuel, c, env, st, t, p));
      EvalStmts(fuel, if w != 0 then thn else els, env, st1, t, p)
    case While(c, body) =>
      var (w, st1) :- Value(EvalExpr(fuel, c, env, st, t, p));
      if w == 0 then Ok(Next(env), st1)
      else
        var (fl, st2) :- EvalStmts(fuel, body, env, st1, t, p);
        (match fl
         case Ret(_) => Ok(fl, st2)
         case Next(env1) =>
           if fuel == 0 then OutOfFuel(st2) else EvalStmt(fuel - 1, s, env1, st2, t, p))
    case For(init, _, _, _) =>
      var (fl, st1) :- EvalStmt(fuel, init, env, st, t, p);
      (match fl
       case Ret(_) => Ok(fl, st1)
       case Next(env1) => EvalFor(fuel, s, env1, st1, t, p))
  }

  /** The iterations of a `for` statement after its first clause. */
  function EvalFor(fuel: nat, s: Stmt, env: Env, st: Store, t: Symbols, p: Program): Res<Flow>
    requires s.For?
    decreases fuel, s, 0
  {
    var (w, st1) :- Value(EvalExpr(fuel, s.cond, env, st, t, p));
    if w == 0 then Ok(Next(env), st1)
    else
      var (fl, st2) :- EvalStmts(fuel, s.body, env, st1, t, p);
      match fl
      case Ret(_) => Ok(fl, st2)
      case Next(env1) =>
        var (fl2, st3) :- EvalStmt(fuel, s.step, env1, st2, t, p);
        match fl2
        case Ret(_) => Ok(fl2, st3)
        case Next(env2) =>
          if fuel == 0 then OutOfFuel(st3) else EvalFor(fuel - 1, s, env2, st3, t, p)
  }

  function EvalStmts(fuel: nat, ss: seq<Stmt>, env: Env, st: Store, t: Symbols, p: Program): Res<Flow>
    decreases fuel, ss, 2
  {
    if ss == [] then Ok(Next(env), st)
    else
      var (fl, st1) :- EvalStmt(fuel, ss[0], env, st, t, p);
      match fl
      case Ret(_) => Ok(fl, st1)
      case Next(env1) => EvalStmts(fuel, ss[1..], env1, st1, t, p)
  }

  /** Parameters get the arguments, every other variable starts at zero. */
  function EntryEnv(ps: seq<Param>, args: seq<Word>, t: Symbols): Env
    requires |args| == |ps|
  {
    if ps == [] then map e | e in t :: e.key := 0
    else
      var n := |ps| - 1;
      EntryEnv(ps[..n], args[..n], t)[ps[n].name := args[n]]
  }

  /** Give each array its block of the heap, in the order of the names. */
  function AllocArrays(t: Symbols, env: Env, st: Store): (Env, Store) {
    if t == [] then (env, st)
    else match t[0].value.arrLen
      case None => AllocArrays(t[1..], env, st)
      case Some(n) =>
        var bytes := n * ElemSize(t[0].value.kind);
        AllocArrays(t[1..], env[t[0].key := st.heap], st.(heap := Bump(st.heap, Wrap(bytes))))
  }

  function EvalFunc(fuel: nat, k: nat, args: seq<Word>, st: Store, p: Program): Res<Word>
    requires k < |p.funcs|
    decreases fuel, p.funcs[k].body, 3
  {
    var f := p.funcs[k];
    if |args| != |f.params| then Wrong
    else
      var t := SymbolsOf(f);
      var (env, st1) := AllocArrays(t, EntryEnv(f.params, args, t), st);
      var (fl, st2) :- EvalStmts(fuel, f.body, env, st1, t, p);
      match fl
      case Ret(w) => Ok(w, st2)
      case Next(_) => Ok(0, st2)
  }
}
