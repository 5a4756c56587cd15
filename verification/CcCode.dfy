/** The code the compiler generates, as instructions. */
module CcCode {
  import opened Bytes
  import opened SortedTable
  import opened CcAst
  import CcSource
  import opened Wasm

  /** A variable's local index beside its declaration. */
  datatype VarInfo = VarInfo(slot: nat, decl: VarDecl)

  type Locals = Table<VarInfo>

  /** Function names with index and arity, and the offset of every literal. */
  datatype Globals = Globals(funcs: map<string, (nat, nat)>, strs: map<seq<Byte>, nat>)

  function DeclsIn(l: Locals): Symbols {
    if l == [] then [] else [Entry(l[0].key, l[0].value.decl)] + DeclsIn(l[1..])
  }

  // ----- allocation of local indices -----

  datatype Alloc = Alloc(locals: Locals, next: nat)

  function ParamLocals(ps: seq<Param>): Locals {
    if ps == [] then []
    else
      var n := |ps| - 1;
      Put(ParamLocals(ps[..n]), ps[n].name, VarInfo(n, VarDecl(ps[n].kind, None)))
  }

  /** Give every newly declared name the next index; control flow opens no scope. */
  function CollectStmt(s: Stmt, a: Alloc): Alloc
    decreases s, 0
  {
    match s
    case Decl(x, arrLen, _, kind) =>
      if Get(a.locals, x).Some? then a
      else Alloc(Put(a.locals, x, VarInfo(a.next, VarDecl(kind, arrLen))), a.next + 1)
    case If(_, thn, els) => Collect(els, Collect(thn, a))
    case While(_, body) => Collect(body, a)
    case For(init, _, step, body) => Collect(body, CollectStmt(step, CollectStmt(init, a)))
    case _ => a
  }

  function Collect(ss: seq<Stmt>, a: Alloc): Alloc
    decreases ss, 1
  {
    if ss == [] then a else Collect(ss[1..], CollectStmt(ss[0], a))
  }

  function AllocOf(f: Func): Alloc {
    Collect(f.body, Alloc(ParamLocals(f.params), |f.params|))
  }

  // ----- code -----

  function OpOf(op: BinOp): NumOp {
    match op
    case Add => I32Add
    case Sub => I32Sub
    case Mul => I32Mul
    case Div => I32DivS
    case Rem => I32RemS
    case Eq => I32Eq
    case Ne => I32Ne
    case Lt => I32LtS
    case Gt => I32GtS
    case Le => I32LeS
    case Ge => I32GeS
    case AndAnd => I32And
    case OrOr => I32Or
  }

  function SlotOf(l: Locals, x: string): nat {
    match Get(l, x)
    case Some(vi) => vi.slot
    case None => 0
  }

  function StrAt(g: Globals, s: seq<Byte>): nat { if s in g.strs then g.strs[s] else 0 }

  function FuncAt(g: Globals, name: string): nat { if name in g.funcs then g.funcs[name].0 else 0 }

  /** Add the size on the stack to the heap pointer under it and round up to four. */
  const BUMP_TAIL := [Num(I32Add), Const(3), Num(I32Add), Const(-4), Num(I32And), GlobalSet(0)]

  function LoadOp(k: Kind): Instr { if ElemSize(k) == 1 then I32Load8U else I32Load }

  function StoreOp(k: Kind): Instr { if ElemSize(k) == 1 then I32Store8 else I32Store }

  function ScaleCode(k: Kind): seq<Instr> {
    (if ElemSize(k) != 1 then [Const(ElemSize(k)), Num(I32Mul)] else []) + [Num(I32Add)]
  }

  function ExprCode(e: Expr, l: Locals, g: Globals): seq<Instr>
    decreases e, 1
  {
    match e
    case Int(v) => [Const(v)]
    case Str(s) => [Const(StrAt(g, s))]
    case Var(x) => [LocalGet(SlotOf(l, x))]
    case Bin(op, a, b) => ExprCode(a, l, g) + ExprCode(b, l, g) + [Num(OpOf(op))]
    case Neg(a) => [Const(0)] + ExprCode(a, l, g) + [Num(I32Sub)]
    case Not(a) => ExprCode(a, l, g) + [Eqz]
    case Index(_, _) => AddrCode(e, l, g) + [LoadOp(LvalKind(e, DeclsIn(l)))]
    case Deref(_) => AddrCode(e, l, g) + [LoadOp(LvalKind(e, DeclsIn(l)))]
    case Call(name, args) =>
      if name == "print" then
        if |args| == 1 && args[0].Str?
        then [Const(StrAt(g, args[0].text)), Const(|args[0].text|), Instr.Call(0)]
        else []
      else if name == "print_int" || name == "putchar" then
        if |args| != 1 then [] else ExprCode(args[0], l, g) + [Instr.Call(1)]
      else if name == "malloc" then
        if |args| != 1 then []
        else [GlobalGet(0), GlobalGet(0)] + ExprCode(args[0], l, g) + BUMP_TAIL
      else if name == "free" then
        (if args == [] then []
         else ExprCode(args[0], l, g) + (if Pushes(args[0]) then [Drop] else [])) + [Const(0)]
      else if name == "print_str" && |args| == 1 then
        ExprCode(args[0], l, g) + LenCode(args[0], l, g) + [Instr.Call(0)]
      else ArgsCode(args, l, g) + [Instr.Call(FuncAt(g, name))]
  }

  /** The length `print_str` passes on: `strlen` of the argument, or zero without a `strlen`. */
  function LenCode(a: Expr, l: Locals, g: Globals): seq<Instr>
    decreases a, 2
  {
    if "strlen" in g.funcs then ExprCode(a, l, g) + [Instr.Call(g.funcs["strlen"].0)] else [Const(0)]
  }

  function AddrCode(e: Expr, l: Locals, g: Globals): seq<Instr>
    decreases e, 0
  {
    match e
    case Index(base, idx) =>
      ExprCode(base, l, g) + ExprCode(idx, l, g) + ScaleCode(LvalKind(e, DeclsIn(l)))
    case Deref(q) => ExprCode(q, l, g)
    case _ => []
  }

  function ArgsCode(es: seq<Expr>, l: Locals, g: Globals): seq<Instr>
    decreases es, 1
  {
    if es == [] then [] else ExprCode(es[0], l, g) + ArgsCode(es[1..], l, g)
  }

  /** True if the code of the expression leaves a value on the stack. */
  predicate Pushes(e: Expr) { !(e.Call? && CcSource.IsPrint(e.name, e.args)) }

  function StmtCode(s: Stmt, l: Locals, g: Globals): seq<Instr>
    decreases s, 1
  {
    match s
    case Decl(x, _, init, _) =>
      (match init
       case None => []
       case Some(e) => ExprCode(e, l, g) + [LocalSet(SlotOf(l, x))])
    case Assign(x, e) => ExprCode(e, l, g) + [LocalSet(SlotOf(l, x))]
    case StoreLval(lval, e) =>
      AddrCode(lval, l, g) + ExprCode(e, l, g)
      + [StoreOp(if IsLval(lval) then LvalKind(lval, DeclsIn(l)) else Scalar)]
    case ExprStmt(e) => ExprCode(e, l, g) + (if Pushes(e) then [Drop] else [])
    case Return(None) => [Const(0), Wasm.Return]
    case Return(Some(e)) => ExprCode(e, l, g) + [Wasm.Return]
    case If(c, _, _) => ExprCode(c, l, g) + [BranchCode(s, l, g)]
    case While(c, body) => LoopCode(ExprCode(c, l, g), StmtsCode(body, l, g))
    case For(init, _, _, _) => StmtCode(init, l, g) + ForCode(s, l, g)
  }

  function BranchCode(s: Stmt, l: Locals, g: Globals): Instr
    requires s.If?
    decreases s, 0
  {
    IfCode(StmtsCode(s.thn, l, g), s.els != [], StmtsCode(s.els, l, g))
  }

  function ForCode(s: Stmt, l: Locals, g: Globals): seq<Instr>
    requires s.For?
    decreases s, 0
  {
    LoopCode(ExprCode(s.cond, l, g), StmtsCode(s.body, l, g) + StmtCode(s.step, l, g))
  }

  function StmtsCode(ss: seq<Stmt>, l: Locals, g: Globals): seq<Instr>
    decreases ss, 2
  {
    if ss == [] then [] else StmtCode(ss[0], l, g) + StmtsCode(ss[1..], l, g)
  }

  function IfCode(thn: seq<Instr>, hasElse: bool, els: seq<Instr>): Instr {
    if hasElse then IfElse(thn, els) else IfThen(thn)
  }

  function LoopBody(cond: seq<Instr>, body: seq<Instr>): seq<Instr> {
    cond + [Eqz, BrIf(1)] + body + [Br(0)]
  }

  function LoopCode(cond: seq<Instr>, body: seq<Instr>): seq<Instr> {
    [Block([Loop(LoopBody(cond, body))])]
  }

  /** Claim a block of the heap for every array. */
  function Prologue(l: Locals): seq<Instr> {
    if l == [] then []
    else
      (match l[0].value.decl.arrLen
       case None => []
       case Some(n) => ArrayCode(n * ElemSize(l[0].value.decl.kind), l[0].value.slot))
      + Prologue(l[1..])
  }

  function ArrayCode(bytes: nat, slot: nat): seq<Instr> {
    [GlobalGet(0), GlobalGet(0), Const(bytes)] + BUMP_TAIL + [LocalSet(slot)]
  }

  function FuncCode(f: Func, g: Globals): Code {
    var a := AllocOf(f);
    Code(|f.params|, if a.next >= |f.params| then a.next - |f.params| else 0,
         Prologue(a.locals) + StmtsCode(f.body, a.locals, g) + [Const(0)])
  }

  function ModuleCode(fs: seq<Func>, g: Globals): seq<Code> {
    if fs == [] then [] else [FuncCode(fs[0], g)] + ModuleCode(fs[1..], g)
  }

  /** Every function name with its index after the two imports and its arity. */
  function FuncTable(fs: seq<Func>): map<string, (nat, nat)> {
    if fs == [] then map[]
    else
      var n := |fs| - 1;
      FuncTable(fs[..n])[fs[n].name := (2 + n, |fs[n].params|)]
  }
}
