/** The part of WebAssembly the compiler emits: instructions, their binary form
    (section 5.4) and their execution (section 4.4 of the WebAssembly Core Specification). */
module Wasm {
  import opened Bytes
  import opened Int32
  import Leb128

  datatype NumOp =
    | I32Add | I32Sub | I32Mul | I32DivS | I32RemS
    | I32Eq | I32Ne | I32LtS | I32GtS | I32LeS | I32GeS
    | I32And | I32Or

  datatype Instr =
    | Const(value: int)
    | LocalGet(idx: nat)
    | LocalSet(idx: nat)
    | GlobalGet(idx: nat)
    | GlobalSet(idx: nat)
    | Num(op: NumOp)
    | Eqz
    | I32Load
    | I32Load8U
    | I32Store
    | I32Store8
    | Call(func: nat)
    | Drop
    | Return
    | Br(label_: nat)
    | BrIf(label_: nat)
    | Block(body: seq<Instr>)
    | Loop(body: seq<Instr>)
    | IfThen(thn: seq<Instr>)
    | IfElse(thn: seq<Instr>, els: seq<Instr>)

  /** What the two host imports append to the output. */
  datatype Event = Log(text: seq<Byte>) | PrintInt(n: int)

  /** Everything outside the running function: memory, global 0 and the output so far. */
  datatype Store = Store(mem: seq<Byte>, heap: Word, trace: seq<Event>)

  datatype Frame = Frame(stack: seq<Word>, locals: seq<Word>, st: Store)

  datatype Code = Code(params: nat, extra: nat, body: seq<Instr>)

  /** Functions in index order; index 0 and 1 are the imports. */
  type Module = seq<Code>

  datatype Outcome =
    | Normal(f: Frame)
    | Branch(depth: nat, f: Frame)
    | Returned(value: Word, st: Store)
    | Trap(st: Store)
    | Timeout(st: Store)
    | Stuck

  // ----- memory -----

  function LoadWord(mem: seq<Byte>, a: Word): Option<Word> {
    if a + 4 <= |mem| then Some(FromLittleEndian(mem[a..a + 4])) else None
  }

  function LoadByte(mem: seq<Byte>, a: Word): Option<Word> {
    if a < |mem| then Some(mem[a]) else None
  }

  function StoreWord(mem: seq<Byte>, a: Word, v: Word): Option<seq<Byte>> {
    if a + 4 <= |mem| then Some(mem[..a] + LittleEndian(v) + mem[a + 4..]) else None
  }

  function StoreByte(mem: seq<Byte>, a: Word, v: Word): Option<seq<Byte>> {
    if a < |mem| then Some(mem[a := v % 256]) else None
  }

  // ----- execution -----

  function NumEval(op: NumOp, a: Word, b: Word): Option<Word> {
    match op
    case I32Add => Some(Wrap(a + b))
    case I32Sub => Some(Wrap(a - b))
    case I32Mul => Some(Wrap(a * b))
    case I32DivS => DivS(a, b)
    case I32RemS => RemS(a, b)
    case I32Eq => Some(Bool(a == b))
    case I32Ne => Some(Bool(a != b))
    case I32LtS => Some(Bool(Signed(a) < Signed(b)))
    case I32GtS => Some(Bool(Signed(a) > Signed(b)))
    case I32LeS => Some(Bool(Signed(a) <= Signed(b)))
    case I32GeS => Some(Bool(Signed(a) >= Signed(b)))
    case I32And => Some(And(a, b))
    case I32Or => Some(Or(a, b))
  }

  function Push(f: Frame, w: Word): Outcome { Normal(f.(stack := f.stack + [w])) }

  /** The host functions: veil_log(ptr, len) and veil_print_int(n). */
  function HostLog(st: Store, ptr: Word, len: Word): Option<Store> {
    if ptr + len <= |st.mem| then Some(st.(trace := st.trace + [Log(st.mem[ptr..ptr + len])]))
    else None
  }

  function HostPrintInt(st: Store, n: Word): Store {
    st.(trace := st.trace + [PrintInt(Signed(n))])
  }

  /** Run one instruction. Fuel is spent on back edges and calls only. */
  function Step(fuel: nat, i: Instr, f: Frame, m: Module): Outcome
    decreases fuel, i, 0
  {
    var n := |f.stack|;
    match i
    case Const(v) => Push(f, Wrap(v))
    case LocalGet(x) => if x < |f.locals| then Push(f, f.locals[x]) else Stuck
    case LocalSet(x) =>
      if n >= 1 && x < |f.locals|
      then Normal(f.(stack := f.stack[..n - 1], locals := f.locals[x := f.stack[n - 1]]))
      else Stuck
    case GlobalGet(x) => if x == 0 then Push(f, f.st.heap) else Stuck
    case GlobalSet(x) =>
      if n >= 1 && x == 0
      then Normal(f.(stack := f.stack[..n - 1], st := f.st.(heap := f.stack[n - 1])))
      else Stuck
    case Num(op) =>
      if n < 2 then Stuck
      else (match NumEval(op, f.stack[n - 2], f.stack[n - 1])
            case Some(w) => Push(f.(stack := f.stack[..n - 2]), w)
            case None => Trap(f.st))
    case Eqz =>
      if n < 1 then Stuck
      else Push(f.(stack := f.stack[..n - 1]), Bool(f.stack[n - 1] == 0))
    case I32Load =>
      if n < 1 then Stuck
      else (match LoadWord(f.st.mem, f.stack[n - 1])
            case Some(w) => Push(f.(stack := f.stack[..n - 1]), w)
            case None => Trap(f.st))
    case I32Load8U =>
      if n < 1 then Stuck
      else (match LoadByte(f.st.mem, f.stack[n - 1])
            case Some(w) => Push(f.(stack := f.stack[..n - 1]), w)
            case None => Trap(f.st))
    case I32Store =>
      if n < 2 then Stuck
      else (match StoreWord(f.st.mem, f.stack[n - 2], f.stack[n - 1])
            case Some(mem) => Normal(f.(stack := f.stack[..n - 2], st := f.st.(mem := mem)))
            case None => Trap(f.st))
    case I32Store8 =>
      if n < 2 then Stuck
      else (match StoreByte(f.st.mem, f.stack[n - 2], f.stack[n - 1])
            case Some(mem) => Normal(f.(stack := f.stack[..n - 2], st := f.st.(mem := mem)))
            case None => Trap(f.st))
    case Call(k) =>
      if k == 0 then
        if n < 2 then Stuck
        else (match HostLog(f.st, f.stack[n - 2], f.stack[n - 1])
              case Some(st) => Normal(f.(stack := f.stack[..n - 2], st := st))
              case None => Trap(f.st))
      else if k == 1 then
        if n < 1 then Stuck
        else Normal(f.(stack := f.stack[..n - 1], st := HostPrintInt(f.st, f.stack[n - 1])))
      else if k - 2 >= |m| || n < m[k - 2].params then Stuck
      else if fuel == 0 then Timeout(f.st)
      else
        var p := m[k - 2].params;
        (match Invoke(fuel - 1, k - 2, f.stack[n - p..], f.st, m)
         case Returned(w, st) => Push(f.(stack := f.stack[..n - p], st := st), w)
         case r => r)
    case Drop => if n >= 1 then Normal(f.(stack := f.stack[..n - 1])) else Stuck
    case Return => if n >= 1 then Returned(f.stack[n - 1], f.st) else Stuck
    case Br(l) => Branch(l, f)
    case BrIf(l) =>
      if n < 1 then Stuck
      else
        var g := f.(stack := f.stack[..n - 1]);
        if f.stack[n - 1] != 0 then Branch(l, g) else Normal(g)
    case Block(body) => Leave(Exec(fuel, body, f.(stack := []), m), f.stack)
    case Loop(body) =>
      (match Exec(fuel, body, f.(stack := []), m)
       case Branch(0, g) =>
         if fuel == 0 then Timeout(g.st) else Step(fuel - 1, i, g.(stack := f.stack), m)
       case r => Leave(r, f.stack))
    case IfThen(thn) =>
      if n < 1 then Stuck
      else
        var below := f.stack[..n - 1];
        if f.stack[n - 1] != 0 then Leave(Exec(fuel, thn, f.(stack := []), m), below)
        else Normal(f.(stack := below))
    case IfElse(thn, els) =>
      if n < 1 then Stuck
      else
        var below := f.stack[..n - 1];
        Leave(Exec(fuel, if f.stack[n - 1] != 0 then thn else els, f.(stack := []), m), below)
  }

  /** Leave a block whose label takes no values; `below` is the operand stack under it. */
  function Leave(r: Outcome, below: seq<Word>): Outcome {
    match r
    case Normal(g) => Normal(g.(stack := below + g.stack))
    case Branch(l, g) =>
      if l == 0 then Normal(g.(stack := below)) else Branch(l - 1, g.(stack := below))
    case _ => r
  }

  function Exec(fuel: nat, body: seq<Instr>, f: Frame, m: Module): Outcome
    decreases fuel, body, 1
  {
    if body == [] then Normal(f)
    else match Step(fuel, body[0], f, m)
      case Normal(g) => Exec(fuel, body[1..], g, m)
      case r => r
  }

  /** Call a defined function: arguments then zeroed locals, one result. */
  function Invoke(fuel: nat, k: nat, args: seq<Word>, st: Store, m: Module): Outcome
    requires k < |m|
    decreases fuel, m[k].body, 2
  {
    match Exec(fuel, m[k].body, Frame([], args + Zeros(m[k].extra), st), m)
    case Normal(g) =>
      if |g.stack| == 1 then Returned(g.stack[0], g.st) else Stuck
    case Branch(_, _) => Stuck
    case r => r
  }

  lemma {:induction false} ExecAppend(fuel: nat, a: seq<Instr>, b: seq<Instr>, f: Frame, m: Module)
    ensures Exec(fuel, a + b, f, m) ==
            match Exec(fuel, a, f, m)
            case Normal(g) => Exec(fuel, b, g, m)
            case r => r
    decreases |a|
  {
    if a == [] {
      assert a + b == b;
    } else {
      assert (a + b)[1..] == a[1..] + b;
      match Step(fuel, a[0], f, m)
      case Normal(g) => ExecAppend(fuel, a[1..], b, g, m);
      case _ =>
    }
  }

  // ----- binary form -----

  function Opcode(op: NumOp): Byte {
    match op
    case I32Add => 0x6a
    case I32Sub => 0x6b
    case I32Mul => 0x6c
    case I32DivS => 0x6d
    case I32RemS => 0x6f
    case I32Eq => 0x46
    case I32Ne => 0x47
    case I32LtS => 0x48
    case I32GtS => 0x4a
    case I32LeS => 0x4c
    case I32GeS => 0x4e
    case I32And => 0x71
    case I32Or => 0x72
  }

  function EncodeInstr(i: Instr): (bs: seq<Byte>)
    ensures |bs| > 0 && bs[0] != 0x0b && bs[0] != 0x05
    decreases i, 0
  {
    match i
    case Const(v) => [0x41] + Leb128.EncodeS(v)
    case LocalGet(x) => [0x20] + Leb128.EncodeU(x)
    case LocalSet(x) => [0x21] + Leb128.EncodeU(x)
    case GlobalGet(x) => [0x23] + Leb128.EncodeU(x)
    case GlobalSet(x) => [0x24] + Leb128.EncodeU(x)
    case Num(op) => [Opcode(op)]
    case Eqz => [0x45]
    case I32Load => [0x28, 0x02, 0x00]
    case I32Load8U => [0x2d, 0x00, 0x00]
    case I32Store => [0x36, 0x02, 0x00]
    case I32Store8 => [0x3a, 0x00, 0x00]
    case Call(k) => [0x10] + Leb128.EncodeU(k)
    case Drop => [0x1a]
    case Return => [0x0f]
    case Br(l) => [0x0c] + Leb128.EncodeU(l)
    case BrIf(l) => [0x0d] + Leb128.EncodeU(l)
    case Block(body) => [0x02, 0x40] + Encode(body) + [0x0b]
    case Loop(body) => [0x03, 0x40] + Encode(body) + [0x0b]
    case IfThen(thn) => [0x04, 0x40] + Encode(thn) + [0x0b]
    case IfElse(thn, els) => [0x04, 0x40] + Encode(thn) + [0x05] + Encode(els) + [0x0b]
  }

  function Encode(body: seq<Instr>): seq<Byte>
    decreases body, 1
  {
    if body == [] then [] else EncodeInstr(body[0]) + Encode(body[1..])
  }

  lemma {:induction false} EncodeAppend(a: seq<Instr>, b: seq<Instr>)
    ensures Encode(a + b) == Encode(a) + Encode(b)
    decreases |a|
  {
    if a == [] {
      assert a + b == b;
    } else {
      assert (a + b)[1..] == a[1..] + b;
      EncodeAppend(a[1..], b);
    }
  }
}
