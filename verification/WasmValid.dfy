/** Validation of the emitted part of WebAssembly, in the manner of section 3 and of the algorithm in the
    appendix of the WebAssembly Core Specification. Every value is an i32, so a type is a number. */
module WasmValid {
  import opened Bytes
  import opened Int32
  import opened Wasm
  import opened CcModule

  /** The height of the operand stack above the enclosing block's; behind an unconditional branch there
      may be any number of values under the `n` known ones. */
  datatype Height = Exact(n: nat) | Any(n: nat)

  /** The local variables of a function and the parameters of each defined function. */
  datatype Context = Context(locals: nat, params: seq<nat>)

  function Push(h: Height, k: nat): Height { h.(n := h.n + k) }

  /** Take some values and leave some. */
  function Take(h: Height, pops: nat, pushes: nat): Option<Height> {
    if h.n >= pops then Some(h.(n := h.n - pops + pushes))
    else if h.Any? then Some(Any(pushes))
    else None
  }

  /** A block whose label and end take no values. */
  predicate Closed(h: Option<Height>) { h.Some? && h.value.n == 0 }

  /** The height after an instruction under `labels` blocks, if it is valid there. */
  function CheckInstr(i: Instr, h: Height, labels: nat, c: Context): Option<Height>
    decreases i, 0
  {
    match i
    case Const(v) => if FitsI32(v) then Take(h, 0, 1) else None
    case LocalGet(x) => if x < c.locals then Take(h, 0, 1) else None
    case LocalSet(x) => if x < c.locals then Take(h, 1, 0) else None
    case GlobalGet(x) => if x == 0 then Take(h, 0, 1) else None
    case GlobalSet(x) => if x == 0 then Take(h, 1, 0) else None
    case Num(_) => Take(h, 2, 1)
    case Eqz => Take(h, 1, 1)
    case I32Load => Take(h, 1, 1)
    case I32Load8U => Take(h, 1, 1)
    case I32Store => Take(h, 2, 0)
    case I32Store8 => Take(h, 2, 0)
    case Call(k) =>
      if k == 0 then Take(h, 2, 0)
      else if k == 1 then Take(h, 1, 0)
      else if k - 2 < |c.params| then Take(h, c.params[k - 2], 1)
      else None
    case Drop => Take(h, 1, 0)
    case Return => if Take(h, 1, 0).Some? then Some(Any(0)) else None
    case Br(l) =>
      // the outermost label is the function's, with its result
      if l < labels || (l == labels && Take(h, 1, 0).Some?) then Some(Any(0)) else None
    case BrIf(l) => if l < labels then Take(h, 1, 0) else if l == labels then Take(h, 2, 1) else None
    case Block(body) => if Closed(Check(body, Exact(0), labels + 1, c)) then Some(h) else None
    case Loop(body) => if Closed(Check(body, Exact(0), labels + 1, c)) then Some(h) else None
    case IfThen(thn) => if Closed(Check(thn, Exact(0), labels + 1, c)) then Take(h, 1, 0) else None
    case IfElse(thn, els) =>
      if Closed(Check(thn, Exact(0), labels + 1, c)) && Closed(Check(els, Exact(0), labels + 1, c))
      then Take(h, 1, 0) else None
  }

  function Check(body: seq<Instr>, h: Height, labels: nat, c: Context): Option<Height>
    decreases body, 1
  {
    if body == [] then Some(h)
    else match CheckInstr(body[0], h, labels, c)
      case None => None
      case Some(h2) => Check(body[1..], h2, labels, c)
  }

  /** A function body leaves exactly its result. */
  predicate ValidBody(body: seq<Instr>, c: Context) {
    match Check(body, Exact(0), 0, c)
    case None => false
    case Some(Exact(n)) => n == 1
    case Some(Any(n)) => n <= 1
  }

  // ----- modules -----

  predicate ValidCode(m: Loaded, i: nat, c: Context)
    requires |m.codes| == |m.funcs| && i < |m.funcs|
  {
    && m.funcs[i] < |m.types| && m.types[m.funcs[i]].results == 1
    && ValidBody(m.codes[i].1, c.(locals := m.types[m.funcs[i]].params + m.codes[i].0))
  }

  /** What exists to be exported: functions after the imported ones, and memories. */
  predicate ValidExport(m: Loaded, e: Export) {
    || (e.kind == 0 && e.idx < |m.imports| + |m.funcs|)
    || (e.kind == 2 && e.idx < |m.pages|)
  }

  predicate DistinctNames(es: seq<Export>) { forall i, j | 0 <= i < j < |es| :: es[i].name != es[j].name }

  /** Parameters of each defined function, as its type says. */
  function ParamsOf(m: Loaded): seq<nat>
    requires forall i | 0 <= i < |m.funcs| :: m.funcs[i] < |m.types|
  {
    seq(|m.funcs|, i requires 0 <= i < |m.funcs| && m.funcs[i] < |m.types| => m.types[m.funcs[i]].params)
  }

  /** The two host functions, with the types that calls of them are checked against. */
  predicate HostImports(m: Loaded) {
    && |m.imports| == 2 && m.imports[0].typ < |m.types| && m.imports[1].typ < |m.types|
    && m.types[m.imports[0].typ] == FuncType(2, 0) && m.types[m.imports[1].typ] == FuncType(1, 0)
    && m.imports[0].kind == 0 && m.imports[1].kind == 0
  }

  predicate ValidModule(m: Loaded) {
    && HostImports(m) && |m.codes| == |m.funcs|
    && (forall i | 0 <= i < |m.funcs| :: m.funcs[i] < |m.types|)
    && (forall i | 0 <= i < |m.funcs| :: ValidCode(m, i, Context(0, ParamsOf(m))))
    && |m.pages| <= 1 && (forall i | 0 <= i < |m.pages| :: m.pages[i] <= 65536)
    && |m.globals| == 1 && FitsI32(m.globals[0])
    && (forall i | 0 <= i < |m.data| :: |m.pages| == 1 && FitsI32(m.data[i].offset))
    && (forall i | 0 <= i < |m.exports| :: ValidExport(m, m.exports[i]))
    && DistinctNames(m.exports)
  }

  // ----- sequences -----

  lemma {:induction false} CheckAppend(a: seq<Instr>, b: seq<Instr>, h: Height, labels: nat, c: Context)
    ensures Check(a + b, h, labels, c) ==
            match Check(a, h, labels, c) case None => None case Some(h2) => Check(b, h2, labels, c)
    decreases |a|
  {
    hide CheckInstr;
    if a == [] {
      assert a + b == b;
    } else {
      assert (a + b)[1..] == a[1..] + b;
      var next := CheckInstr(a[0], h, labels, c);
      if next.Some? { CheckAppend(a[1..], b, next.value, labels, c); }
    }
  }

  lemma {:induction false} CheckOne(i: Instr, h: Height, labels: nat, c: Context)
    ensures Check([i], h, labels, c) == CheckInstr(i, h, labels, c)
  {
    hide CheckInstr;
    assert [i][1..] == [];
  }

  /** Two pieces of code and one instruction. */
  lemma {:induction false} CheckTwoOne(a: seq<Instr>, b: seq<Instr>, i: Instr, h: Height, labels: nat, c: Context)
    ensures Check(a + b + [i], h, labels, c) ==
            match Check(a, h, labels, c)
            case None => None
            case Some(h2) =>
              match Check(b, h2, labels, c) case None => None case Some(h3) => CheckInstr(i, h3, labels, c)
  {
    hide CheckInstr, Check;
    CheckAppend(a + b, [i], h, labels, c);
    CheckAppend(a, b, h, labels, c);
    if Check(a, h, labels, c).Some? {
      var h2 := Check(a, h, labels, c).value;
      if Check(b, h2, labels, c).Some? { CheckOne(i, Check(b, h2, labels, c).value, labels, c); }
    }
  }
}
