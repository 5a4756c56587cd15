/** Every spelling is read as what it means. */
module CcSpellingReads {
  import opened Bytes
  import opened CcAst
  import opened CcGrammar
  import opened CcPrinter
  import opened CcSpelling

  // ----- types -----

  lemma {:induction false} StarsRead(t: seq<Tok>, p: nat, n: nat)
    requires Ended(t) && Occurs(t, p, Stars(n)) && t[p + n] != Punct("*")
    ensures SkipStars(t, p) == p + n
    decreases n
  {
    if n > 0 {
      assert t[p] == Stars(n)[0];
      assert Stars(n) == [Punct("*")] + Stars(n - 1);
      OccursParts(t, p, [Punct("*")], Stars(n - 1));
      StarsRead(t, p + 1, n - 1);
    }
  }

  lemma {:induction false} QualifiersRead(t: seq<Tok>, p: nat, quals: seq<string>)
    requires Ended(t) && Occurs(t, p, Idents(quals)) && !(t[p + |quals|].Ident? && t[p + |quals|].name in QUALIFIERS)
    requires forall i | 0 <= i < |quals| :: quals[i] in QUALIFIERS
    ensures SkipQualifiers(t, p) == p + |quals|
    decreases |quals|
  {
    if quals != [] {
      assert t[p] == Idents(quals)[0];
      var rest := quals[1..];
      assert Idents(quals) == [Ident(quals[0])] + Idents(rest);
      OccursParts(t, p, [Ident(quals[0])], Idents(rest));
      QualifiersRead(t, p + 1, rest);
    }
  }

  lemma {:induction false} TypeRead(ty: CType, t: seq<Tok>, p: nat)
    requires Ended(t) && TypeOk(ty) && Occurs(t, p, TypeToks(ty)) && t[p + |TypeToks(ty)|] != Punct("*")
    ensures IsType(t[p]) && (t[p] == Ident("void") <==> ty.quals == [] && ty.base == "void")
    ensures ParseType(t, p) == Some(((ty.base == "char", ty.stars), p + |TypeToks(ty)|))
  {
    var quals, base, stars := Idents(ty.quals), [Ident(ty.base)], Stars(ty.stars);
    var b := p + |quals|;
    OccursParts(t, p, quals, base + stars);
    OccursParts(t, b, base, stars);
    assert t[b] == base[0];
    QualifiersRead(t, p, ty.quals);
    StarsRead(t, b + 1, ty.stars);
    if ty.quals != [] { assert t[p] == quals[0]; }
  }

  // ----- how expressions begin -----

  /** The first token of an expression. */
  lemma {:induction false} FirstOf(c: CExpr)
    requires ExprOk(c)
    ensures var k := Spell(c)[0];
            || k.IntTok? || k.StrTok? || k.Ident?
            || k == Punct("(") || k == Punct("-") || k == Punct("!") || k == Punct("*")
    decreases c
  {
    match c
    case Subscript(b, _) => FirstOf(b);
    case Binary(_, l, _) => FirstOf(l);
    case _ =>
  }

  /** A subscript or primary expression begins with no prefix operator. */
  lemma {:induction false} PostfixFirst(c: CExpr)
    requires ExprOk(c) && Binding(c) >= 6
    ensures var k := Spell(c)[0]; k != Punct("-") && k != Punct("!") && k != Punct("*") && k != Ident("sizeof")
    decreases c
  {
    if c.Subscript? { PostfixFirst(c.base); }
  }

  /** What can stand behind a name that begins an expression. */
  lemma {:induction false} SecondOf(c: CExpr)
    requires ExprOk(c) && |Spell(c)| > 1 && Spell(c)[0].Ident?
    ensures var k := Spell(c)[1]; k != Punct("=") && k != Punct("++") && k != Punct("+=")
    decreases c
  {
    match c
    case CallOf(f, args) => assert Spell(c)[1] == Punct("(");
    case Subscript(b, i) =>
      if |Spell(b)| > 1 { SecondOf(b); } else { assert Spell(c)[1] == Punct("["); }
    case Binary(op, l, r) =>
      if |Spell(l)| > 1 { SecondOf(l); } else { assert Spell(c)[1] == Punct(Mark(op)); }
    case SizeofType(ty, paren) => WrappedFirst(TypeToks(ty), paren); TypeFirst(ty);
    case SizeofExpr(e, paren) => WrappedFirst(Spell(e), paren); FirstOf(e);
    case _ =>
  }

  lemma {:induction false} WrappedFirst(w: seq<Tok>, paren: bool)
    requires w != []
    ensures Wrapped(w, paren) != [] && Wrapped(w, paren)[0] == if paren then Punct("(") else w[0]
  {
  }

  lemma {:induction false} TypeFirst(ty: CType)
    ensures TypeToks(ty)[0].Ident? && (TypeOk(ty) ==> IsType(TypeToks(ty)[0]))
  {
    if ty.quals == [] {
      assert TypeToks(ty)[0] == Ident(ty.base);
    } else {
      assert TypeToks(ty)[0] == Ident(ty.quals[0]);
    }
  }

  // ----- expressions -----

  lemma {:induction false} NoOpTighter(k: Tok, level: nat)
    requires NoOp(k, level)
    ensures NoOp(k, level + 1)
  {
  }

  lemma {:induction false} MarkOnce(op: BinOp, level: nat)
    requires OpLevel(op) < level
    ensures NoOp(Punct(Mark(op)), level)
  {
  }

  /** Closers end any expression. */
  lemma {:induction false} Closes(c: CExpr, m: string)
    requires m == ")" || m == "]" || m == "," || m == ";" || m == "="
    ensures Edge(c, Punct(m)) && NoOp(Punct(m), 0)
    decreases c
  {
    match c
    case Minus(e) => Closes(e, m);
    case Bang(e) => Closes(e, m);
    case Star(e) => Closes(e, m);
    case SizeofExpr(e, _) => Closes(e, m);
    case Binary(_, _, r) => Closes(r, m);
    case _ =>
  }

  lemma {:induction false} LevelRead(c: CExpr, level: nat, t: seq<Tok>, p: nat)
    requires Ended(t) && ExprOk(c) && level <= 4 && Binding(c) >= level && Occurs(t, p, Spell(c))
    requires Edge(c, t[p + |Spell(c)|]) && NoOp(t[p + |Spell(c)|], level + 1)
    ensures ParseLevel(t, p, level) == ParseRest(t, p + |Spell(c)|, level, Meaning(c))
    decreases c, 0, 20 - 2 * level
  {
    if Binding(c) == level {
      BinaryRead(c, t, p);
    } else {
      ExprRead(c, level + 1, t, p);
    }
  }

  /** Where the operands of an operator stand. */
  lemma {:induction false} BinaryParts(c: CExpr, t: seq<Tok>, p: nat)
    requires c.Binary? && ExprOk(c) && Occurs(t, p, Spell(c))
    ensures var left, right := Spell(c.left), Spell(c.right);
            var q := p + |left|;
            && |Spell(c)| == |left| + 1 + |right| && q + 1 + |right| < |t|
            && Occurs(t, p, left) && OpAt(t[q], OpLevel(c.op)) == Some(c.op) && Occurs(t, q + 1, right)
            && Edge(c.left, t[q]) && NoOp(t[q], OpLevel(c.op) + 1)
  {
    var left, mark, right := Spell(c.left), [Punct(Mark(c.op))], Spell(c.right);
    OccursParts(t, p, left, mark + right);
    OccursParts(t, p + |left|, mark, right);
    MarkOnce(c.op, OpLevel(c.op) + 1);
  }

  lemma {:induction false} BinaryRead(c: CExpr, t: seq<Tok>, p: nat)
    requires Ended(t) && ExprOk(c) && c.Binary? && Occurs(t, p, Spell(c))
    requires Edge(c, t[p + |Spell(c)|]) && NoOp(t[p + |Spell(c)|], OpLevel(c.op) + 1)
    ensures ParseLevel(t, p, OpLevel(c.op)) == ParseRest(t, p + |Spell(c)|, OpLevel(c.op), Meaning(c))
    decreases c, 0, 0
  {
    hide Spell, OpAt, Mark;
    var level, q := OpLevel(c.op), p + |Spell(c.left)|;
    BinaryParts(c, t, p);
    LevelRead(c.left, level, t, p);
    ExprRead(c.right, level + 1, t, q + 1);
    RestStep(t, q, level, Meaning(c.left), c.op, Meaning(c.right), q + 1 + |Spell(c.right)|);
  }

  /** A tree is read, as what it means, wherever its tokens stand and the token behind them does not continue it. */
  lemma {:induction false} ExprRead(c: CExpr, level: nat, t: seq<Tok>, p: nat)
    requires Ended(t) && ExprOk(c) && level <= 5 && Binding(c) >= level && Occurs(t, p, Spell(c))
    requires Edge(c, t[p + |Spell(c)|]) && NoOp(t[p + |Spell(c)|], level)
    ensures ParseLevel(t, p, level) == Some((Meaning(c), p + |Spell(c)|))
    decreases c, 0, 21 - 2 * level
  {
    if level <= 4 {
      NoOpTighter(t[p + |Spell(c)|], level);
      LevelRead(c, level, t, p);
    } else {
      UnaryRead(c, t, p);
    }
  }

  lemma {:induction false} UnaryRead(c: CExpr, t: seq<Tok>, p: nat)
    requires Ended(t) && ExprOk(c) && Binding(c) >= 5 && Occurs(t, p, Spell(c)) && Edge(c, t[p + |Spell(c)|])
    ensures ParseUnary(t, p) == Some((Meaning(c), p + |Spell(c)|))
    decreases c, 0, 8
  {
    if c.SizeofType? {
      SizeofTypeRead(c, t, p);
    } else if c.SizeofExpr? {
      SizeofExprRead(c, t, p);
    } else if Binding(c) == 5 {
      PrefixRead(c, t, p);
    } else {
      PostfixRead(c, t, p);
      PostfixFirst(c);
      assert t[p] == Spell(c)[0];
      EdgeOfPostfix(c, t[p + |Spell(c)|]);
    }
  }

  lemma {:induction false} PrefixRead(c: CExpr, t: seq<Tok>, p: nat)
    requires Ended(t) && ExprOk(c) && (c.Minus? || c.Bang? || c.Star?) && Occurs(t, p, Spell(c))
    requires Edge(c, t[p + |Spell(c)|])
    ensures ParseUnary(t, p) == Some((Meaning(c), p + |Spell(c)|))
    decreases c, 0, 7
  {
    hide Occurs;
    OccursParts(t, p, [Punct(if c.Minus? then "-" else if c.Bang? then "!" else "*")], Spell(c.arg));
    UnaryRead(c.arg, t, p + 1);
  }

  lemma {:induction false} EdgeOfPostfix(c: CExpr, k: Tok)
    requires Binding(c) >= 6 && Edge(c, k)
    ensures k != Punct("[")
  {
  }

  /** Where a word in parentheses, or without, stands behind `sizeof`. */
  lemma {:induction false} WrappedParts(w: seq<Tok>, paren: bool, t: seq<Tok>, p: nat)
    requires w != [] && Occurs(t, p, [Ident("sizeof")] + Wrapped(w, paren))
    ensures t[p] == Ident("sizeof")
    ensures var b := if paren then p + 2 else p + 1;
            && Occurs(t, b, w) && t[b] == w[0] && |Wrapped(w, paren)| == |w| + (if paren then 2 else 0)
            && (paren ==> t[p + 1] == Punct("(") && t[b + |w|] == Punct(")") && b + |w| + 1 < |t|)
  {
    OccursParts(t, p, [Ident("sizeof")], Wrapped(w, paren));
    if paren {
      OccursParts(t, p + 1, [Punct("(")], w + [Punct(")")]);
      OccursParts(t, p + 2, w, [Punct(")")]);
    } else {
      OccursParts(t, p + 1, w, []);
      assert w + [] == w;
    }
  }

  lemma {:induction false} SizeofTypeRead(c: CExpr, t: seq<Tok>, p: nat)
    requires Ended(t) && ExprOk(c) && c.SizeofType? && Occurs(t, p, Spell(c)) && Edge(c, t[p + |Spell(c)|])
    ensures ParseUnary(t, p) == Some((Meaning(c), p + |Spell(c)|))
  {
    var w := TypeToks(c.ty);
    WrappedParts(w, c.paren, t, p);
    TypeFirst(c.ty);
    TypeRead(c.ty, t, if c.paren then p + 2 else p + 1);
    assert ParseSizeof(t, p + 1) == Some((Meaning(c), p + |Spell(c)|));
  }

  lemma {:induction false} SizeofExprRead(c: CExpr, t: seq<Tok>, p: nat)
    requires Ended(t) && ExprOk(c) && c.SizeofExpr? && Occurs(t, p, Spell(c)) && Edge(c, t[p + |Spell(c)|])
    ensures ParseUnary(t, p) == Some((Meaning(c), p + |Spell(c)|))
    decreases c, 0, 0
  {
    hide Occurs, ParseType;
    var w := Spell(c.arg);
    WrappedParts(w, c.paren, t, p);
    if c.paren { Closes(c.arg, ")"); }
    UnaryRead(c.arg, t, if c.paren then p + 2 else p + 1);
    assert ParseSizeof(t, p + 1) == Some((Meaning(c), p + |Spell(c)|));
  }

  lemma {:induction false} PostfixRead(c: CExpr, t: seq<Tok>, p: nat)
    requires Ended(t) && ExprOk(c) && Binding(c) >= 6 && Occurs(t, p, Spell(c))
    requires c.Name? ==> t[p + |Spell(c)|] != Punct("(")
    ensures ParsePostfix(t, p) == ParseSubscripts(t, p + |Spell(c)|, Meaning(c))
    decreases c, 0, 7
  {
    if c.Subscript? {
      SubParts(c, t, p);
      SubRead(c, t, p);
    } else {
      PrimaryRead(c, t, p);
    }
  }

  /** Where the parts of a subscript stand. */
  lemma {:induction false} SubParts(c: CExpr, t: seq<Tok>, p: nat)
    requires c.Subscript? && Occurs(t, p, Spell(c))
    ensures var base, idx := Spell(c.base), Spell(c.idx);
            var q := p + |base|;
            && |Spell(c)| == |base| + |idx| + 2 && q + |idx| + 1 < |t|
            && Occurs(t, p, base) && t[q] == Punct("[") && Occurs(t, q + 1, idx) && t[q + 1 + |idx|] == Punct("]")
  {
    var base, idx := Spell(c.base), Spell(c.idx);
    var q := p + |base|;
    OccursParts(t, p, base, [Punct("[")] + (idx + [Punct("]")]));
    OccursParts(t, q, [Punct("[")], idx + [Punct("]")]);
    OccursParts(t, q + 1, idx, [Punct("]")]);
  }

  lemma {:induction false} SubRead(c: CExpr, t: seq<Tok>, p: nat)
    requires Ended(t) && ExprOk(c) && c.Subscript?
    requires var base, idx := Spell(c.base), Spell(c.idx);
             var q := p + |base|;
             && |Spell(c)| == |base| + |idx| + 2 && q + |idx| + 1 < |t|
             && Occurs(t, p, base) && t[q] == Punct("[") && Occurs(t, q + 1, idx) && t[q + 1 + |idx|] == Punct("]")
    ensures ParsePostfix(t, p) == ParseSubscripts(t, p + |Spell(c)|, Meaning(c))
    decreases c, 0, 0
  {
    hide Spell, Edge, Occurs;
    var q := p + |Spell(c.base)|;
    PostfixRead(c.base, t, p);
    Closes(c.idx, "]");
    ExprRead(c.idx, 0, t, q + 1);
    SubscriptStep(t, q, Meaning(c.base), Meaning(c.idx), q + 1 + |Spell(c.idx)|);
  }

  lemma {:induction false} PrimaryRead(c: CExpr, t: seq<Tok>, p: nat)
    requires Ended(t) && ExprOk(c) && Binding(c) == 7 && Occurs(t, p, Spell(c))
    requires c.Name? ==> t[p + |Spell(c)|] != Punct("(")
    ensures ParsePrimary(t, p) == Some((Meaning(c), p + |Spell(c)|))
    decreases c, 0, 6
  {
    if c.Paren? {
      ParenRead(c, t, p);
    } else if c.CallOf? {
      var head, tail := [Ident(c.f), Punct("(")], SpellArgs(c.args) + [Punct(")")];
      OccursParts(t, p, head, tail);
      assert t[p + 1] == head[1];
      ArgsRead(c.args, t, p + 2);
    } else {
      assert t[p] == Spell(c)[0];
    }
  }

  lemma {:induction false} ParenRead(c: CExpr, t: seq<Tok>, p: nat)
    requires Ended(t) && ExprOk(c) && c.Paren? && Occurs(t, p, Spell(c))
    ensures ParsePrimary(t, p) == Some((Meaning(c), p + |Spell(c)|))
    decreases c, 0, 5
  {
    hide ExprOk, Edge;
    var e := c.inner;
    assert ExprOk(e) by { ParenOk(c); }
    OccursParts(t, p, [Punct("(")], Spell(e) + [Punct(")")]);
    OccursParts(t, p + 1, Spell(e), [Punct(")")]);
    Closes(e, ")");
    ExprRead(e, 0, t, p + 1);
  }

  lemma {:induction false} ParenOk(c: CExpr)
    requires c.Paren? && ExprOk(c)
    ensures ExprOk(c.inner)
  {
  }

  /** Where the parts of an argument list stand. */
  lemma {:induction false} ArgsParts(args: seq<Arg>, t: seq<Tok>, p: nat)
    requires args != [] && Occurs(t, p, SpellArgs(args) + [Punct(")")])
    ensures var w, n := Spell(args[0].e), |Comma(args[0].comma)|;
            var q := p + |w|;
            && Occurs(t, p, w) && t[p] == w[0] && Occurs(t, q + n, SpellArgs(args[1..]) + [Punct(")")])
            && (if args[0].comma then t[q] == Punct(",") else n == 0)
            && |SpellArgs(args)| == |w| + n + |SpellArgs(args[1..])|
            && t[q + n] == if |args| == 1 then Punct(")") else Spell(args[1].e)[0]
  {
    hide Spell;
    var w, comma, rest, close := Spell(args[0].e), Comma(args[0].comma), SpellArgs(args[1..]), [Punct(")")];
    assert SpellArgs(args) + close == w + (comma + (rest + close));
    OccursParts(t, p, w, comma + (rest + close));
    OccursParts(t, p + |w|, comma, rest + close);
    if |args| > 1 {
      assert args[1..][0] == args[1];
      assert rest == Spell(args[1].e) + (Comma(args[1].comma) + SpellArgs(args[1..][1..]));
      assert (rest + close)[0] == Spell(args[1].e)[0];
    } else {
      assert rest + close == close;
    }
  }

  lemma {:induction false} ArgsRead(args: seq<Arg>, t: seq<Tok>, p: nat)
    requires Ended(t) && ArgsOk(args) && Occurs(t, p, SpellArgs(args) + [Punct(")")])
    ensures ParseArgs(t, p) == Some((Meanings(args), p + |SpellArgs(args)| + 1))
    decreases args, 0, 0
  {
    hide Spell, Edge, ExprOk, NoOp;
    if args == [] {
      assert SpellArgs(args) + [Punct(")")] == [Punct(")")];
      assert t[p] == [Punct(")")][0];
    } else {
      var c, n := args[0].e, |Comma(args[0].comma)|;
      assert c < args[0];
      var q := p + |Spell(c)|;
      ArgsParts(args, t, p);
      ArgEnds(args, t, q);
      FirstOf(c);
      ExprRead(c, 0, t, p);
      ArgsRead(args[1..], t, q + n);
      ArgsStep(t, p, Meaning(c), q, Meanings(args[1..]), q + n + |SpellArgs(args[1..])| + 1);
    }
  }

  /** What stands behind the first argument does not continue it, and is a comma only if one was written. */
  lemma {:induction false} ArgEnds(args: seq<Arg>, t: seq<Tok>, q: nat)
    requires args != [] && ArgsOk(args) && q + |Comma(args[0].comma)| < |t|
    requires args[0].comma ==> t[q] == Punct(",")
    requires t[q + |Comma(args[0].comma)|] == if |args| == 1 then Punct(")") else Spell(args[1].e)[0]
    ensures Edge(args[0].e, t[q]) && NoOp(t[q], 0) && (t[q] == Punct(",") <==> args[0].comma)
  {
    hide Spell, Edge, ExprOk;
    if args[0].comma {
      Closes(args[0].e, ",");
    } else if |args| == 1 {
      Closes(args[0].e, ")");
    } else {
      assert args[1..][0] == args[1];
      FirstOf(args[1].e);
    }
  }
}
