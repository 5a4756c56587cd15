/** Printing expressions with as few parentheses as the grammar allows, and parsing them back. */
module CcPrinter {
  import opened Bytes
  import opened CcAst
  import opened CcGrammar

  function Mark(op: BinOp): string {
    match op
    case Add => "+"
    case Sub => "-"
    case Mul => "*"
    case Div => "/"
    case Rem => "%"
    case Eq => "=="
    case Ne => "!="
    case Lt => "<"
    case Gt => ">"
    case Le => "<="
    case Ge => ">="
    case AndAnd => "&&"
    case OrOr => "||"
  }

  function OpLevel(op: BinOp): (k: nat)
    ensures k <= 4 && OpAt(Punct(Mark(op)), k) == Some(op)
  {
    match op
    case OrOr => 0
    case AndAnd => 1
    case Add => 3
    case Sub => 3
    case Mul => 4
    case Div => 4
    case Rem => 4
    case _ => 2
  }

  /** How tightly an expression binds: 0 to 4 for operators, 5 prefix, 6 subscript, 7 primary. */
  function Level(e: Expr): (k: nat)
    ensures k <= 7
  {
    match e
    case Bin(op, _, _) => OpLevel(op)
    case Neg(_) => 5
    case Not(_) => 5
    case Deref(_) => 5
    case Index(_, _) => 6
    case _ => 7
  }

  /** Tokens of an expression where something of at least the given level is wanted. */
  function Print(e: Expr, level: nat): seq<Tok>
    decreases e, 1
  {
    if Level(e) < level then [Punct("(")] + Body(e) + [Punct(")")] else Body(e)
  }

  function Body(e: Expr): seq<Tok>
    decreases e, 0
  {
    match e
    case Int(v) => if v >= 0 then [IntTok(v)] else []
    case Str(s) => [StrTok(s)]
    case Var(x) => [Ident(x)]
    case Bin(op, a, b) => Print(a, OpLevel(op)) + [Punct(Mark(op))] + Print(b, OpLevel(op) + 1)
    case Neg(a) => [Punct("-")] + Print(a, 5)
    case Not(a) => [Punct("!")] + Print(a, 5)
    case Deref(a) => [Punct("*")] + Print(a, 5)
    case Index(a, i) => Print(a, 6) + [Punct("[")] + Print(i, 0) + [Punct("]")]
    case Call(f, args) => [Ident(f), Punct("(")] + PrintArgs(args) + [Punct(")")]
  }

  function PrintArgs(es: seq<Expr>): seq<Tok>
    decreases es
  {
    if es == [] then []
    else Print(es[0], 0) + (if |es| == 1 then [] else [Punct(",")] + PrintArgs(es[1..]))
  }

  /** Expressions the grammar can produce: no negative literal, and `sizeof` is no name. */
  predicate Printable(e: Expr)
    decreases e
  {
    match e
    case Int(v) => v >= 0
    case Str(_) => true
    case Var(x) => x != "sizeof"
    case Bin(_, a, b) => Printable(a) && Printable(b)
    case Neg(a) => Printable(a)
    case Not(a) => Printable(a)
    case Deref(a) => Printable(a)
    case Index(a, i) => Printable(a) && Printable(i)
    case Call(f, args) => f != "sizeof" && AllPrintable(args)
  }

  predicate AllPrintable(es: seq<Expr>)
    decreases es
  {
    es == [] || (Printable(es[0]) && AllPrintable(es[1..]))
  }

  // ----- what may follow -----

  /** The token does not extend an expression of the level. */
  predicate Stops(k: Tok, level: nat) {
    && k != Punct("(")
    && (level <= 6 ==> k != Punct("["))
    && (forall j | level <= j <= 4 :: OpAt(k, j).None?)
  }

  lemma {:induction false} OpStops(op: BinOp, level: nat)
    requires OpLevel(op) < level
    ensures Stops(Punct(Mark(op)), level)
  {
  }

  lemma {:induction false} CloserStops(m: string)
    requires m == ")" || m == "]" || m == ","
    ensures Stops(Punct(m), 0)
  {
  }

  /** The tokens `w` stand at position `p`, with a token after them. */
  ghost predicate Occurs(t: seq<Tok>, p: nat, w: seq<Tok>) {
    p + |w| < |t| && forall i {:trigger w[i]} | 0 <= i < |w| :: w[i] == t[p + i]
  }

  lemma {:induction false} OccursParts(t: seq<Tok>, p: nat, a: seq<Tok>, b: seq<Tok>)
    requires Occurs(t, p, a + b)
    ensures Occurs(t, p, a) && Occurs(t, p + |a|, b)
    ensures a != [] ==> t[p] == a[0]
    ensures b != [] ==> t[p + |a|] == b[0]
  {
    var w := a + b;
    assert forall i | 0 <= i < |a| :: a[i] == w[i];
    assert forall i | 0 <= i < |b| :: b[i] == w[|a| + i];
  }

  // ----- round trip -----

  /** Printing at a level and parsing at that level: the parser stands behind the printed
      tokens with the expression as its left operand. */
  lemma {:induction false} LevelRoundTrip(e: Expr, level: nat, t: seq<Tok>, p: nat)
    requires Ended(t) && Printable(e) && level <= 4 && Occurs(t, p, Print(e, level))
    requires Stops(t[p + |Print(e, level)|], level + 1)
    ensures ParseLevel(t, p, level) == ParseRest(t, p + |Print(e, level)|, level, e)
    decreases e, if Level(e) < level then 1 else 0, 20 - 2 * level
  {
    if Level(e) == level {
      BinRoundTrip(e, t, p);
    } else {
      assert Print(e, level) == Print(e, level + 1);
      FullRoundTrip(e, level + 1, t, p);
    }
  }

  lemma {:induction false} BinRoundTrip(e: Expr, t: seq<Tok>, p: nat)
    requires Ended(t) && Printable(e) && e.Bin? && Occurs(t, p, Body(e))
    requires Stops(t[p + |Body(e)|], OpLevel(e.op) + 1)
    ensures ParseLevel(t, p, OpLevel(e.op)) == ParseRest(t, p + |Body(e)|, OpLevel(e.op), e)
    decreases e, 0, 0
  {
    var level := OpLevel(e.op);
    var left, mark, right := Print(e.left, level), [Punct(Mark(e.op))], Print(e.right, level + 1);
    var q := p + |left|;
    OccursParts(t, p, left + mark, right);
    OccursParts(t, p, left, mark);
    OpStops(e.op, level + 1);
    LevelRoundTrip(e.left, level, t, p);
    FullRoundTrip(e.right, level + 1, t, q + 1);
    RestStep(t, q, level, e.left, e.op, e.right, q + 1 + |right|);
  }

  lemma {:induction false} RestStep(t: seq<Tok>, p: nat, level: nat, left: Expr, op: BinOp, right: Expr, q: nat)
    requires Ended(t) && p < |t| && level < 5 && OpAt(t[p], level) == Some(op)
    requires ParseLevel(t, p + 1, level + 1) == Some((right, q))
    ensures ParseRest(t, p, level, left) == ParseRest(t, q, level, Bin(op, left, right))
  {
  }

  lemma {:induction false} FullRoundTrip(e: Expr, level: nat, t: seq<Tok>, p: nat)
    requires Ended(t) && Printable(e) && level <= 5 && Occurs(t, p, Print(e, level))
    requires Stops(t[p + |Print(e, level)|], level)
    ensures ParseLevel(t, p, level) == Some((e, p + |Print(e, level)|))
    decreases e, if Level(e) < level then 1 else 0, 21 - 2 * level
  {
    if level <= 4 {
      LevelRoundTrip(e, level, t, p);
    } else {
      UnaryRoundTrip(e, t, p);
    }
  }

  lemma {:induction false} UnaryRoundTrip(e: Expr, t: seq<Tok>, p: nat)
    requires Ended(t) && Printable(e) && Occurs(t, p, Print(e, 5))
    requires Stops(t[p + |Print(e, 5)|], 5)
    ensures ParseUnary(t, p) == Some((e, p + |Print(e, 5)|))
    decreases e, if Level(e) < 5 then 1 else 0, 8
  {
    if Level(e) == 5 {
      var arg := if e.Deref? then e.ptr else e.arg;
      var op := Punct(if e.Neg? then "-" else if e.Not? then "!" else "*");
      assert Print(e, 5) == [op] + Print(arg, 5);
      OccursParts(t, p, [op], Print(arg, 5));
      FullRoundTrip(arg, 5, t, p + 1);
    } else {
      assert Print(e, 5) == Print(e, 6);
      PostfixRoundTrip(e, t, p);
      FirstToken(e);
      assert t[p] == Print(e, 6)[0];
    }
  }

  /** No prefix operator and no `sizeof` starts a subscript or primary expression. */
  lemma {:induction false} FirstToken(e: Expr)
    requires Printable(e)
    ensures Print(e, 6) != []
    ensures var k := Print(e, 6)[0];
            k != Punct("-") && k != Punct("!") && k != Punct("*") && k != Ident("sizeof")
    decreases e
  {
    if e.Index? { FirstToken(e.base); }
  }

  lemma {:induction false} PostfixRoundTrip(e: Expr, t: seq<Tok>, p: nat)
    requires Ended(t) && Printable(e) && Occurs(t, p, Print(e, 6))
    requires t[p + |Print(e, 6)|] != Punct("(")
    ensures ParsePostfix(t, p) == ParseSubscripts(t, p + |Print(e, 6)|, e)
    decreases e, if Level(e) < 6 then 1 else 0, 7
  {
    if e.Index? {
      var base, idx := Print(e.base, 6), Print(e.idx, 0);
      var q := p + |base|;
      IndexParts(e, t, p);
      PostfixRoundTrip(e.base, t, p);
      CloserStops("]");
      FullRoundTrip(e.idx, 0, t, q + 1);
      SubscriptStep(t, q, e.base, e.idx, q + 1 + |idx|);
    } else {
      assert Print(e, 6) == Print(e, 7);
      PrimaryRoundTrip(e, t, p);
    }
  }

  /** Where the parts of a printed subscript stand. */
  lemma {:induction false} IndexParts(e: Expr, t: seq<Tok>, p: nat)
    requires e.Index? && Occurs(t, p, Print(e, 6))
    ensures var base, idx := Print(e.base, 6), Print(e.idx, 0);
            var q := p + |base|;
            && |Print(e, 6)| == |base| + |idx| + 2 && q + |idx| + 1 < |t|
            && Occurs(t, p, base) && t[q] == Punct("[") && Occurs(t, q + 1, idx) && t[q + 1 + |idx|] == Punct("]")
  {
    var base, idx := Print(e.base, 6), Print(e.idx, 0);
    var q := p + |base|;
    assert Print(e, 6) == base + ([Punct("[")] + (idx + [Punct("]")]));
    OccursParts(t, p, base, [Punct("[")] + (idx + [Punct("]")]));
    OccursParts(t, q, [Punct("[")], idx + [Punct("]")]);
    OccursParts(t, q + 1, idx, [Punct("]")]);
  }

  lemma {:induction false} SubscriptStep(t: seq<Tok>, p: nat, e: Expr, idx: Expr, q: nat)
    requires Ended(t) && p < |t| && t[p] == Punct("[") && ParseExpr(t, p + 1) == Some((idx, q)) && t[q] == Punct("]")
    ensures ParseSubscripts(t, p, e) == ParseSubscripts(t, q + 1, Index(e, idx))
  {
  }

  lemma {:induction false} PrimaryRoundTrip(e: Expr, t: seq<Tok>, p: nat)
    requires Ended(t) && Printable(e) && Occurs(t, p, Print(e, 7))
    requires t[p + |Print(e, 7)|] != Punct("(")
    ensures ParsePrimary(t, p) == Some((e, p + |Print(e, 7)|))
    decreases e, if Level(e) < 7 then 1 else 0, 6
  {
    if Level(e) < 7 {
      ParenRoundTrip(e, t, p);
    } else if e.Call? {
      CallRoundTrip(e, t, p);
    } else {
      assert t[p] == Print(e, 7)[0];
    }
  }

  lemma {:induction false} ParenRoundTrip(e: Expr, t: seq<Tok>, p: nat)
    requires Ended(t) && Printable(e) && Occurs(t, p, [Punct("(")] + Print(e, 0) + [Punct(")")])
    ensures ParsePrimary(t, p) == Some((e, p + |Print(e, 0)| + 2))
    decreases e, 1, 0
  {
    var close := [Punct(")")];
    OccursParts(t, p, [Punct("(")] + Print(e, 0), close);
    OccursParts(t, p, [Punct("(")], Print(e, 0));
    CloserStops(")");
    FullRoundTrip(e, 0, t, p + 1);
  }

  lemma {:induction false} CallRoundTrip(e: Expr, t: seq<Tok>, p: nat)
    requires Ended(t) && Printable(e) && e.Call? && Occurs(t, p, Body(e))
    ensures ParsePrimary(t, p) == Some((e, p + |Body(e)|))
    decreases e, 0, 5
  {
    var args := PrintArgs(e.args) + [Punct(")")];
    assert Body(e) == [Ident(e.name), Punct("(")] + args;
    OccursParts(t, p, [Ident(e.name), Punct("(")], args);
    assert t[p + 1] == [Ident(e.name), Punct("(")][1];
    ArgsRoundTrip(e.args, t, p + 2);
  }

  /** Where the parts of a printed argument list stand. */
  lemma {:induction false} ArgsParts(es: seq<Expr>, t: seq<Tok>, p: nat)
    requires es != [] && Occurs(t, p, PrintArgs(es) + [Punct(")")])
    ensures var q := p + |Print(es[0], 0)|;
            && q < |t| && Occurs(t, p, Print(es[0], 0))
            && (if |es| == 1 then t[q] == Punct(")") && |PrintArgs(es)| == |Print(es[0], 0)|
                else t[q] == Punct(",") && Occurs(t, q + 1, PrintArgs(es[1..]) + [Punct(")")])
                     && |PrintArgs(es)| == |Print(es[0], 0)| + 1 + |PrintArgs(es[1..])|)
  {
    var close, first := [Punct(")")], Print(es[0], 0);
    var rest := if |es| == 1 then [] else [Punct(",")] + PrintArgs(es[1..]);
    assert PrintArgs(es) + close == first + (rest + close);
    OccursParts(t, p, first, rest + close);
    if |es| == 1 {
      assert rest + close == close;
    } else {
      assert rest + close == [Punct(",")] + (PrintArgs(es[1..]) + close);
      OccursParts(t, p + |first|, [Punct(",")], PrintArgs(es[1..]) + close);
    }
  }

  lemma {:induction false} ArgsRoundTrip(es: seq<Expr>, t: seq<Tok>, p: nat)
    requires Ended(t) && AllPrintable(es) && Occurs(t, p, PrintArgs(es) + [Punct(")")])
    ensures ParseArgs(t, p) == Some((es, p + |PrintArgs(es)| + 1))
    decreases es, 0, 0
  {
    if es == [] {
      assert PrintArgs(es) + [Punct(")")] == [] + [Punct(")")];
      OccursParts(t, p, [], [Punct(")")]);
    } else {
      var q := p + |Print(es[0], 0)|;
      ArgsParts(es, t, p);
      CloserStops(")");
      CloserStops(",");
      FullRoundTrip(es[0], 0, t, p);
      FirstOfPrint(es[0], 0);
      if |es| == 1 {
        assert es[1..] == [];
        assert ParseArgs(t, q) == Some(([], q + 1));
        ArgsStep(t, p, es[0], q, [], q + 1);
      } else {
        ArgsRoundTrip(es[1..], t, q + 1);
        ArgsStep(t, p, es[0], q, es[1..], q + 1 + |PrintArgs(es[1..])| + 1);
      }
      assert [es[0]] + es[1..] == es;
    }
  }

  lemma {:induction false} ArgsStep(t: seq<Tok>, p: nat, e: Expr, q: nat, es: seq<Expr>, q2: nat)
    requires Ended(t) && p < |t| && t[p] != Punct(")") && ParseExpr(t, p) == Some((e, q))
    requires ParseArgs(t, if t[q] == Punct(",") then q + 1 else q) == Some((es, q2))
    ensures ParseArgs(t, p) == Some(([e] + es, q2))
  {
  }

  lemma {:induction false} FirstOfPrint(e: Expr, level: nat)
    requires Printable(e) && level <= 6
    ensures Print(e, level) != [] && Print(e, level)[0] != Punct(")")
    decreases e
  {
    match e
    case Bin(op, a, _) => FirstOfPrint(a, OpLevel(op));
    case Index(a, _) => FirstOfPrint(a, 6);
    case _ =>
  }

  // ----- the grammar produces printable expressions only -----

  lemma {:induction false} LevelPrintable(t: seq<Tok>, p: nat, level: nat)
    requires Ended(t) && p < |t| && level <= 5 && ParseLevel(t, p, level).Some?
    ensures Printable(ParseLevel(t, p, level).value.0)
    decreases |t| - p, 12 - level
  {
    if level == 5 {
      UnaryPrintable(t, p);
    } else {
      LevelPrintable(t, p, level + 1);
      var (left, q) := ParseLevel(t, p, level + 1).value;
      RestPrintable(t, q, level, left);
    }
  }

  lemma {:induction false} RestPrintable(t: seq<Tok>, p: nat, level: nat, left: Expr)
    requires Ended(t) && p < |t| && level < 5 && Printable(left) && ParseRest(t, p, level, left).Some?
    ensures Printable(ParseRest(t, p, level, left).value.0)
    decreases |t| - p, 6
  {
    if OpAt(t[p], level).Some? {
      LevelPrintable(t, p + 1, level + 1);
      var (right, q) := ParseLevel(t, p + 1, level + 1).value;
      RestPrintable(t, q, level, Bin(OpAt(t[p], level).value, left, right));
    }
  }

  lemma {:induction false} UnaryPrintable(t: seq<Tok>, p: nat)
    requires Ended(t) && p < |t| && ParseUnary(t, p).Some?
    ensures Printable(ParseUnary(t, p).value.0)
    decreases |t| - p, 5
  {
    if t[p] == Punct("-") || t[p] == Punct("!") || t[p] == Punct("*") {
      UnaryPrintable(t, p + 1);
    } else if t[p] != Ident("sizeof") {
      PrimaryPrintable(t, p);
      var (e, q) := ParsePrimary(t, p).value;
      SubscriptsPrintable(t, q, e);
    }
  }

  lemma {:induction false} SubscriptsPrintable(t: seq<Tok>, p: nat, e: Expr)
    requires Ended(t) && p < |t| && Printable(e) && ParseSubscripts(t, p, e).Some?
    ensures Printable(ParseSubscripts(t, p, e).value.0)
    decreases |t| - p, 2
  {
    if t[p] == Punct("[") {
      LevelPrintable(t, p + 1, 0);
      var (idx, q) := ParseExpr(t, p + 1).value;
      SubscriptsPrintable(t, q + 1, Index(e, idx));
    }
  }

  lemma {:induction false} PrimaryPrintable(t: seq<Tok>, p: nat)
    requires Ended(t) && p < |t| && t[p] != Ident("sizeof") && ParsePrimary(t, p).Some?
    ensures Printable(ParsePrimary(t, p).value.0)
    decreases |t| - p, 3
  {
    match t[p]
    case Punct(_) => LevelPrintable(t, p + 1, 0);
    case Ident(_) => if t[p + 1] == Punct("(") { ArgsPrintable(t, p + 2); }
    case _ =>
  }

  lemma {:induction false} ArgsPrintable(t: seq<Tok>, p: nat)
    requires Ended(t) && p < |t| && ParseArgs(t, p).Some?
    ensures AllPrintable(ParseArgs(t, p).value.0)
    decreases |t| - p, 14
  {
    if t[p] != Punct(")") {
      LevelPrintable(t, p, 0);
      var (e, q) := ParseExpr(t, p).value;
      var q2 := if t[q] == Punct(",") then q + 1 else q;
      ArgsPrintable(t, q2);
      var es := ParseArgs(t, q2).value.0;
      assert ParseArgs(t, p).value.0 == [e] + es;
      assert ([e] + es)[1..] == es;
    }
  }

  // ----- both directions -----

  lemma {:induction false} PrintNoEof(e: Expr, level: nat, i: nat)
    requires i < |Print(e, level)|
    ensures Print(e, level)[i] != Eof
    decreases e, 1
  {
    var body := Body(e);
    if Level(e) < level {
      if 0 < i <= |body| { BodyNoEof(e, i - 1); }
    } else {
      BodyNoEof(e, i);
    }
  }

  lemma {:induction false} BodyNoEof(e: Expr, i: nat)
    requires i < |Body(e)|
    ensures Body(e)[i] != Eof
    decreases e, 0
  {
    match e
    case Bin(op, a, b) =>
      var n := |Print(a, OpLevel(op))|;
      if i < n { PrintNoEof(a, OpLevel(op), i); } else if i > n { PrintNoEof(b, OpLevel(op) + 1, i - n - 1); }
    case Neg(a) => if i > 0 { PrintNoEof(a, 5, i - 1); }
    case Not(a) => if i > 0 { PrintNoEof(a, 5, i - 1); }
    case Deref(a) => if i > 0 { PrintNoEof(a, 5, i - 1); }
    case Index(a, x) =>
      var n := |Print(a, 6)|;
      if i < n { PrintNoEof(a, 6, i); } else if n < i <= n + |Print(x, 0)| { PrintNoEof(x, 0, i - n - 1); }
    case Call(f, args) => if 2 <= i < 2 + |PrintArgs(args)| { ArgsNoEof(args, i - 2); }
    case _ =>
  }

  lemma {:induction false} ArgsNoEof(es: seq<Expr>, i: nat)
    requires i < |PrintArgs(es)|
    ensures PrintArgs(es)[i] != Eof
    decreases es, 0
  {
    var n := |Print(es[0], 0)|;
    if i < n { PrintNoEof(es[0], 0, i); } else if i > n { ArgsNoEof(es[1..], i - n - 1); }
  }

  function Tokens(e: Expr): seq<Tok> { Print(e, 0) + [Eof] }

  /** Parsing what was printed gives the expression back, whole. */
  lemma {:induction false} PrintParse(e: Expr)
    requires Printable(e)
    ensures Ended(Tokens(e))
    ensures ParseExpr(Tokens(e), 0) == Some((e, |Print(e, 0)|))
  {
    var t := Tokens(e);
    forall i | 0 <= i < |t| - 1 ensures t[i] != Eof { PrintNoEof(e, 0, i); }
    assert Occurs(t, 0, Print(e, 0));
    FullRoundTrip(e, 0, t, 0);
  }

  /** An expression is printable if and only if some token list parses to it; printing it
      then keeps precedence and grouping. */
  lemma {:induction false} PrintableExactly(e: Expr)
    ensures Printable(e) <==> exists t, p: nat, q :: Ended(t) && p < |t| && ParseExpr(t, p) == Some((e, q))
  {
    if Printable(e) {
      PrintParse(e);
      assert ParseExpr(Tokens(e), 0) == Some((e, |Print(e, 0)|));
    }
    if t, p: nat, q :| Ended(t) && p < |t| && ParseExpr(t, p) == Some((e, q)) {
      LevelPrintable(t, p, 0);
    }
  }
}
