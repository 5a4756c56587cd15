/** Elements of arrays: where they are, and what a store to one leaves of the others. */
module CcElements {
  import opened Bytes
  import opened Int32
  import opened SortedTable
  import opened CcAst
  import opened CcSource
  import Wasm

  // ----- addresses -----

  /** The index counts bytes behind a char pointer and words of four bytes behind any other; the sum wraps. */
  lemma {:induction false} ElementAddress(fuel: nat, base: Expr, idx: Expr, env: Env, st: Store, t: Symbols, p: Program)
    ensures var b := Value(EvalExpr(fuel, base, env, st, t, p));
            b.Ok? ==>
              var i := Value(EvalExpr(fuel, idx, env, b.st, t, p));
              i.Ok? ==>
                EvalAddr(fuel, Index(base, idx), env, st, t, p) ==
                Ok(Wrap(b.value + if ExprKind(base, t) == CharPtr then Signed(i.value) else 4 * Signed(i.value)), i.st)
  {
  }

  /** The elements of a pointer: `size` bytes each. */
  ghost predicate Elements(k: Kind, size: nat) { (k == CharPtr && size == 1) || (k == IntPtr && size == 4) }

  /** Element `i` behind the address `b` is in memory. */
  ghost predicate InMemory(st: Store, b: Word, i: int, size: nat) {
    |st.mem| <= 0x1_0000_0000 && 0 <= b + size * i && b + size * i + size <= |st.mem|
  }

  // ----- a store and a load -----

  lemma {:induction false} WordBack(mem: seq<Byte>, a: Word, v: Word)
    requires a + 4 <= |mem|
    ensures var mem2 := Wasm.StoreWord(mem, a, v).value;
            && Wasm.LoadWord(mem2, a) == Some(v) && |mem2| == |mem|
            && forall k | 0 <= k < |mem| && !(a <= k < a + 4) :: mem2[k] == mem[k]
  {
    LittleEndianRoundTrip(v);
    var mem2 := Wasm.StoreWord(mem, a, v).value;
    assert mem2[a..a + 4] == LittleEndian(v);
  }

  /** A store to element `i` is read back there and leaves every other element as it was: the loads are of whole
      words for an int pointer, and of bytes for a char pointer. */
  lemma {:induction false} StoreLoad(k: Kind, size: nat, b: Word, i: int, j: int, v: Word, st: Store)
    requires Elements(k, size) && InMemory(st, b, i, size) && InMemory(st, b, j, size)
    ensures var s := StoreElem(k, b + size * i, v, st);
            && s.Ok? && |s.st.mem| == |st.mem| && s.st == st.(mem := s.st.mem)
            && LoadElem(k, b + size * j, st).Ok?
            && LoadElem(k, b + size * j, s.st) ==
               Ok(if i == j then (if k == CharPtr then v % 256 else v) else LoadElem(k, b + size * j, st).value, s.st)
  {
    var a, c := b + size * i, b + size * j;
    if k == IntPtr {
      WordBack(st.mem, a, v);
      var mem2 := Wasm.StoreWord(st.mem, a, v).value;
      if i != j {
        assert c + 4 <= a || a + 4 <= c;
        assert mem2[c..c + 4] == st.mem[c..c + 4];
      }
    }
  }

  /** The two bytes and words a pointer can reach. */
  lemma {:induction false} Loads(k: Kind, a: Word, st: Store)
    requires k == CharPtr ==> a < |st.mem|
    requires k != CharPtr ==> a + 4 <= |st.mem|
    ensures LoadElem(k, a, st) ==
            if k == CharPtr then Ok(st.mem[a], st)
            else Ok(st.mem[a] as int + 256 * (st.mem[a + 1] as int + 256 * (st.mem[a + 2] as int
                                                                            + 256 * st.mem[a + 3] as int)), st)
  {
    if k != CharPtr {
      var w := st.mem[a..a + 4];
      assert w[0] == st.mem[a] && w[1] == st.mem[a + 1] && w[2] == st.mem[a + 2] && w[3] == st.mem[a + 3];
    }
  }

  // ----- assignments to elements -----

  lemma {:induction false} LiteralValue(v: int)
    requires FitsI32(v)
    ensures Signed(Wrap(v)) == v
  {
  }

  /** The variable is declared with this kind. */
  ghost predicate Declared(t: Symbols, x: string, k: Kind) { Get(t, x).Some? && Get(t, x).value.kind == k }

  lemma {:induction false} ElementOf(fuel: nat, x: string, k: Kind, size: nat, i: int, env: Env, st: Store,
      t: Symbols, p: Program)
    requires x in env && Declared(t, x, k) && Elements(k, size) && FitsI32(i) && InMemory(st, env[x], i, size)
    ensures EvalAddr(fuel, Index(Var(x), Int(i)), env, st, t, p) == Ok(env[x] + size * i, st)
  {
    LiteralValue(i);
    assert ExprKind(Var(x), t) == k;
    assert Value(EvalExpr(fuel, Var(x), env, st, t, p)) == Ok(env[x], st);
    assert Value(EvalExpr(fuel, Int(i), env, st, t, p)) == Ok(Wrap(i), st);
    ElementAddress(fuel, Var(x), Int(i), env, st, t, p);
  }

  /** After `x[i] = v;` the element `x[i]` has the value, cut to a byte behind a char pointer, and every other
      element the value it had. */
  lemma {:induction false} AssignElement(fuel: nat, x: string, k: Kind, size: nat, i: int, j: int, v: int, env: Env,
      st: Store, t: Symbols, p: Program)
    requires x in env && Declared(t, x, k) && Elements(k, size) && FitsI32(i) && FitsI32(j) && FitsI32(v)
    requires InMemory(st, env[x], i, size) && InMemory(st, env[x], j, size)
    ensures var s := EvalStmt(fuel, StoreLval(Index(Var(x), Int(i)), Int(v)), env, st, t, p);
            && s.Ok? && s.value == Next(env) && |s.st.mem| == |st.mem| && s.st == st.(mem := s.st.mem)
            && EvalExpr(fuel, Index(Var(x), Int(j)), env, st, t, p).Ok?
            && EvalExpr(fuel, Index(Var(x), Int(j)), env, s.st, t, p) ==
               Ok(if i != j then EvalExpr(fuel, Index(Var(x), Int(j)), env, st, t, p).value
                  else Some(if k == CharPtr then v % 256 else Wrap(v)), s.st)
  {
    hide EvalAddr, StoreElem, LoadElem;
    var b := env[x];
    var lval, read := Index(Var(x), Int(i)), Index(Var(x), Int(j));
    ElementOf(fuel, x, k, size, i, env, st, t, p);
    ElementOf(fuel, x, k, size, j, env, st, t, p);
    StoreLoad(k, size, b, i, j, Wrap(v), st);
    var s := StoreElem(k, b + size * i, Wrap(v), st);
    ElementOf(fuel, x, k, size, j, env, s.st, t, p);
    assert ExprKind(Var(x), t) == k && LvalKind(lval, t) == k && LvalKind(read, t) == k;
    assert Value(EvalExpr(fuel, Int(v), env, st, t, p)) == Ok(Wrap(v), st);
    assert EvalStmt(fuel, StoreLval(lval, Int(v)), env, st, t, p) == Ok(Next(env), s.st);
    assert Wrap(v) % 256 == v % 256;
  }

  // ----- kinds -----

  /** Whether `e` is the variable or a sum with it. */
  ghost predicate SumWith(e: Expr, x: string, n: int) {
    || (e == Var(x) && n == 0)
    || e == Bin(Add, Var(x), Int(n)) || e == Bin(Add, Int(n), Var(x))
  }

  /** Pointer sums are not scaled, and reach elements of the pointer's kind, on either side. */
  lemma {:induction false} PointerSum(fuel: nat, e: Expr, x: string, k: Kind, n: int, env: Env, st: Store, t: Symbols,
      p: Program)
    requires SumWith(e, x, n) && x in env && Declared(t, x, k) && k != Scalar
    ensures EvalExpr(fuel, Deref(e), env, st, t, p) ==
            match LoadElem(k, Wrap(env[x] + n), st)
            case Ok(w, st2) => Ok(Some(w), st2)
            case _ => Trapped(st)
  {
    SumWraps(env[x], n);
    assert ExprKind(Int(n), t) == Scalar && ExprKind(Var(x), t) == k;
    assert Value(EvalExpr(fuel, Var(x), env, st, t, p)) == Ok(env[x], st);
    assert Value(EvalExpr(fuel, Int(n), env, st, t, p)) == Ok(Wrap(n), st);
    assert Value(EvalExpr(fuel, e, env, st, t, p)) == Ok(Wrap(env[x] + n), st);
    assert LvalKind(Deref(e), t) == k;
  }

  lemma {:induction false} SumWraps(b: Word, n: int)
    ensures BinEval(Add, b, Wrap(n)) == Some(Wrap(b + n)) && BinEval(Add, Wrap(n), b) == Some(Wrap(b + n))
  {
  }

  /** The elements of a literal, and of what `malloc` gives, are bytes. */
  lemma {:induction false} BytePointers(s: seq<Byte>, args: seq<Expr>, t: Symbols)
    ensures ExprKind(Str(s), t) == CharPtr && ExprKind(Expr.Call("malloc", args), t) == CharPtr
  {
  }

  /** What is loaded from memory, counted or returned by a function of the program points to words. */
  lemma {:induction false} WordPointers(e: Expr, t: Symbols)
    requires e.Int? || e.Neg? || e.Not? || e.Index? || e.Deref? || (e.Call? && e.name != "malloc")
    ensures ExprKind(e, t) == Scalar
  {
  }

  /** A literal's elements are its bytes and the zero behind them. */
  lemma {:induction false} LiteralElement(fuel: nat, s: seq<Byte>, i: nat, env: Env, st: Store, t: Symbols, p: Program)
    requires s in p.strs && i <= |s| < 0x8000_0000 && p.strs[s] + |s| < |st.mem| <= 0x1_0000_0000
    requires st.mem[p.strs[s]..p.strs[s] + |s| + 1] == s + [0]
    ensures EvalExpr(fuel, Index(Str(s), Int(i)), env, st, t, p) == Ok(Some(if i < |s| then s[i] else 0), st)
  {
    var a := p.strs[s];
    LiteralValue(i);
    BytePointers(s, [], t);
    assert Value(EvalExpr(fuel, Str(s), env, st, t, p)) == Ok(a, st);
    assert Value(EvalExpr(fuel, Int(i), env, st, t, p)) == Ok(Wrap(i), st);
    ElementAddress(fuel, Str(s), Int(i), env, st, t, p);
    assert st.mem[a..a + |s| + 1][i] == st.mem[a + i];
    Loads(CharPtr, a + i, st);
  }

  // ----- local arrays -----

  /** The bytes of an array, rounded up to a multiple of four. */
  function ArrayBytes(d: VarDecl): nat {
    match d.arrLen
    case None => 0
    case Some(n) => if d.kind == CharPtr then (n + 3) / 4 * 4 else 4 * n
  }

  function Claimed(t: Symbols): nat { if t == [] then 0 else ArrayBytes(t[0].value) + Claimed(t[1..]) }

  lemma {:induction false} ArrayRounded(d: VarDecl)
    ensures ArrayBytes(d) % 4 == 0
    ensures d.arrLen.Some? ==> (d.arrLen.value * ElemSize(d.kind) + 3) / 4 * 4 == ArrayBytes(d)
  {
    if d.arrLen.Some? && d.kind != CharPtr { FourTimes(d.arrLen.value); }
  }

  lemma {:induction false} FourTimes(n: nat)
    ensures (4 * n + 3) / 4 * 4 == 4 * n && n * 4 == 4 * n
  {
  }

  lemma {:induction false} BumpExactly(heap: Word, bytes: nat)
    requires heap % 4 == 0 && heap + (bytes + 3) / 4 * 4 < 0x1_0000_0000
    ensures bytes < 0x1_0000_0000 && Bump(heap, Wrap(bytes)) == heap + (bytes + 3) / 4 * 4
  {
  }

  lemma {:induction false} NoArray(d: VarDecl)
    requires d.arrLen.None?
    ensures ArrayBytes(d) == 0
  {
  }

  /** The heap pointer after the arrays of a function are given their blocks. */
  lemma {:induction false} ArraysClaim(t: Symbols, env: Env, st: Store)
    requires st.heap % 4 == 0 && st.heap + Claimed(t) < 0x1_0000_0000
    ensures AllocArrays(t, env, st).1 == st.(heap := st.heap + Claimed(t))
    decreases |t|
  {
    hide Bump, ArrayBytes, ElemSize, Wrap;
    if t != [] && t[0].value.arrLen.Some? {
      ArrayStep(t, env, st);
      ArraysClaim(t[1..], env[t[0].key := st.heap], st.(heap := st.heap + ArrayBytes(t[0].value)));
    } else if t != [] {
      NoArray(t[0].value);
      ArraysClaim(t[1..], env, st);
    }
  }

  lemma {:induction false} ArrayStep(t: Symbols, env: Env, st: Store)
    requires t != [] && t[0].value.arrLen.Some?
    requires st.heap % 4 == 0 && st.heap + ArrayBytes(t[0].value) < 0x1_0000_0000
    ensures AllocArrays(t, env, st) ==
            AllocArrays(t[1..], env[t[0].key := st.heap], st.(heap := st.heap + ArrayBytes(t[0].value)))
    ensures ArrayBytes(t[0].value) % 4 == 0
  {
    hide Bump, ArrayBytes, Wrap, ElemSize;
    var n, k := t[0].value.arrLen.value, t[0].value.kind;
    ArrayRounded(t[0].value);
    BumpExactly(st.heap, n * ElemSize(k));
  }

  lemma {:induction false} KeptVariable(t: Symbols, env: Env, st: Store, x: string)
    requires x in env && forall i | 0 <= i < |t| :: t[i].key != x
    ensures x in AllocArrays(t, env, st).0 && AllocArrays(t, env, st).0[x] == env[x]
    decreases |t|
  {
    if t != [] {
      match t[0].value.arrLen
      case None => KeptVariable(t[1..], env, st, x);
      case Some(n) =>
        var bytes := n * ElemSize(t[0].value.kind);
        KeptVariable(t[1..], env[t[0].key := st.heap], st.(heap := Bump(st.heap, Wrap(bytes))), x);
    }
  }

  /** Each array begins where those before it in the table end, so no two arrays have a byte in common. */
  lemma {:induction false} ArrayPlaces(t: Symbols, env: Env, st: Store, m: nat)
    requires Sorted(t) && m < |t| && t[m].value.arrLen.Some?
    requires st.heap % 4 == 0 && st.heap + Claimed(t) < 0x1_0000_0000
    ensures var env2 := AllocArrays(t, env, st).0;
            t[m].key in env2 && env2[t[m].key] == st.heap + Claimed(t[..m])
    decreases |t|
  {
    hide Bump, ArrayBytes, ElemSize, Wrap, Less;
    forall i | 0 < i < |t| ensures t[i].key != t[0].key {
      LessIrreflexive(t[0].key);
    }
    var rest := t[1..];
    if t[0].value.arrLen.Some? {
      ArrayStep(t, env, st);
      var env1, st1 := env[t[0].key := st.heap], st.(heap := st.heap + ArrayBytes(t[0].value));
      if m == 0 {
        KeptVariable(rest, env1, st1, t[0].key);
      } else {
        ArrayPlaces(rest, env1, st1, m - 1);
      }
    } else {
      NoArray(t[0].value);
      ArrayPlaces(rest, env, st, m - 1);
    }
    if m > 0 { assert t[..m][1..] == rest[..m - 1] && t[..m][0] == t[0]; }
  }

  // ----- an example -----

  function Element(i: int): Expr { Index(Var("a"), Int(i)) }

  /** `int main() { int a[2]; a[0] = 1; a[1] = 2; return a[0]; }` */
  const PAIR := Func("main", [], [Decl("a", Some(2), None, IntPtr), StoreLval(Element(0), Int(1)),
                                  StoreLval(Element(1), Int(2)), Return(Some(Element(0)))])

  lemma {:induction false} PairSymbols()
    ensures SymbolsOf(PAIR) == [Entry("a", VarDecl(IntPtr, Some(2)))]
  {
    var b := PAIR.body;
    var d := [Entry("a", VarDecl(IntPtr, Some(2)))];
    assert b[1..][0] == b[1] && b[1..][1..] == b[2..] && b[2..][0] == b[2] && b[2..][1..] == b[3..];
    assert b[3..][1..] == [];
    assert DeclsOf(b[3..]) == [] && DeclsOf(b[2..]) == [] && DeclsOf(b[1..]) == [];
    assert DeclsOf(b) == d;
    assert d[1..] == [];
    assert AddDecls([], d) == AddDecls(d, []);
  }

  lemma {:induction false} PairStarts(st: Store)
    requires st.heap % 4 == 0 && st.heap + 8 < 0x1_0000_0000
    ensures SymbolsOf(PAIR) == [Entry("a", VarDecl(IntPtr, Some(2)))]
    ensures AllocArrays(SymbolsOf(PAIR), EntryEnv(PAIR.params, [], SymbolsOf(PAIR)), st) ==
            (map["a" := st.heap], st.(heap := st.heap + 8))
  {
    PairSymbols();
    var t := SymbolsOf(PAIR);
    var env := EntryEnv(PAIR.params, [], t);
    assert t[1..] == [];
    assert t[0] in t;
    assert env == map["a" := 0];
    ArrayStep(t, env, st);
    assert env["a" := st.heap] == map["a" := st.heap];
  }

  /** The second element does not overwrite the first. */
  lemma {:induction false} PairGivesFirst(fuel: nat, st: Store, p: Program, k: nat)
    requires k < |p.funcs| && p.funcs[k] == PAIR
    requires st.heap % 4 == 0 && st.heap + 8 <= |st.mem| < 0x1_0000_0000
    ensures EvalFunc(fuel, k, [], st, p).Ok? && EvalFunc(fuel, k, [], st, p).value == 1
  {
    PairStarts(st);
    PairBody(fuel, st.(heap := st.heap + 8), SymbolsOf(PAIR), st.heap, p);
  }

  lemma {:induction false} PairBody(fuel: nat, st: Store, t: Symbols, a: Word, p: Program)
    requires t == [Entry("a", VarDecl(IntPtr, Some(2)))] && a + 8 <= |st.mem| < 0x1_0000_0000
    ensures var r := EvalStmts(fuel, PAIR.body, map["a" := a], st, t, p); r.Ok? && r.value == Ret(1)
  {
    hide EvalExpr, AllocArrays, SymbolsOf;
    var b, env := PAIR.body, map["a" := a];
    AssignElement(fuel, "a", IntPtr, 4, 0, 0, 1, env, st, t, p);
    var st1 := EvalStmt(fuel, b[1], env, st, t, p).st;
    AssignElement(fuel, "a", IntPtr, 4, 1, 0, 2, env, st1, t, p);
    var st2 := EvalStmt(fuel, b[2], env, st1, t, p).st;
    assert b[1..][0] == b[1] && b[1..][1..] == b[2..] && b[2..][0] == b[2] && b[2..][1..] == b[3..];
    assert EvalStmt(fuel, b[0], env, st, t, p) == Ok(Next(env), st);
    assert EvalStmt(fuel, b[3], env, st2, t, p) == Ok(Ret(1), st2);
    assert EvalStmts(fuel, b[3..], env, st2, t, p) == Ok(Ret(1), st2);
    assert EvalStmts(fuel, b[2..], env, st1, t, p) == Ok(Ret(1), st2);
    assert EvalStmts(fuel, b[1..], env, st, t, p) == Ok(Ret(1), st2);
  }
}
