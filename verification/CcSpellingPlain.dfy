/** Spellings that are read alike: `x++` and `x += 1`, a statement and the block around it. */
module CcSpellingPlain {
  import opened Bytes
  import opened CcAst
  import opened CcGrammar
  import opened CcPrinter
  import opened CcSpelling
  import opened CcSpellingReads
  import opened CcSpellingPrograms

  /** The statement with `x += 1` wherever it has `x++`, and blocks wherever it has single statements. */
  function Plain(s: CStmt): CStmt
    decreases s
  {
    match s
    case Increment(x) => AddTo(x, Number(1))
    case IfOf(c, thn, els) => IfOf(c, PlainBody(thn), match els case None => None case Some(b) => Some(PlainBody(b)))
    case WhileOf(c, body) => WhileOf(c, PlainBody(body))
    case ForOf(init, c, step, body) => ForOf(Plain(init), c, Plain(step), PlainBody(body))
    case _ => s
  }

  function PlainBody(b: CBody): CBody
    decreases b
  {
    match b
    case Block(ss) => Block(AllPlain(ss))
    case Single(s) => Block([Plain(s)])
  }

  function AllPlain(ss: seq<CStmt>): (r: seq<CStmt>)
    ensures |r| == |ss|
    decreases ss
  {
    if ss == [] then [] else [Plain(ss[0])] + AllPlain(ss[1..])
  }

  function PlainFunc(f: CFunc): CFunc { f.(body := AllPlain(f.body)) }

  function PlainProgram(fs: seq<CFunc>): seq<CFunc> {
    if fs == [] then [] else [PlainFunc(fs[0])] + PlainProgram(fs[1..])
  }

  // ----- plain spellings mean the same -----

  lemma {:induction false} PlainMeans(s: CStmt)
    ensures StmtMeaning(Plain(s)) == StmtMeaning(s)
    decreases s
  {
    match s
    case IfOf(c, thn, els) =>
      PlainBodyMeans(thn);
      if els.Some? { PlainBodyMeans(els.value); }
    case WhileOf(c, body) => PlainBodyMeans(body);
    case ForOf(init, c, step, body) => PlainMeans(init); PlainMeans(step); PlainBodyMeans(body);
    case _ =>
  }

  lemma {:induction false} PlainBodyMeans(b: CBody)
    ensures BodyMeaning(PlainBody(b)) == BodyMeaning(b)
    decreases b
  {
    match b
    case Block(ss) => AllPlainMean(ss);
    case Single(s) => PlainMeans(s); OneMeans(Plain(s));
  }

  lemma {:induction false} OneMeans(s: CStmt)
    ensures StmtsMeaning([s]) == [StmtMeaning(s)]
  {
    assert [s][1..] == [];
  }

  lemma {:induction false} AllPlainMean(ss: seq<CStmt>)
    ensures StmtsMeaning(AllPlain(ss)) == StmtsMeaning(ss)
    decreases ss
  {
    if ss != [] {
      PlainMeans(ss[0]);
      AllPlainMean(ss[1..]);
      assert AllPlain(ss)[1..] == AllPlain(ss[1..]);
    }
  }

  // ----- and are spellings -----

  lemma {:induction false} PlainSimple(s: CStmt)
    requires SimpleOk(s)
    ensures SimpleOk(Plain(s))
  {
  }

  lemma {:induction false} PlainStmtOk(s: CStmt)
    requires StmtOk(s)
    ensures StmtOk(Plain(s)) && !OpenPlain(s) && SpellStmt(Plain(s)) != [] && SpellStmt(Plain(s))[0] == SpellStmt(s)[0]
    decreases s, 1
  {
    if s.Increment? {
      assert SpellSimple(Plain(s)) == [Ident(s.x), Punct("+="), IntTok(1)];
    } else if s.IfOf? {
      PlainIfOk(s);
    } else if s.WhileOf? {
      PlainBodyOk(s.body);
    } else if s.ForOf? {
      PlainForOk(s);
    } else {
      StmtFirst(s);
    }
  }

  lemma {:induction false} PlainIfOk(s: CStmt)
    requires StmtOk(s) && s.IfOf?
    ensures StmtOk(Plain(s)) && !OpenPlain(s) && SpellStmt(Plain(s)) != [] && SpellStmt(Plain(s))[0] == SpellStmt(s)[0]
    decreases s, 0
  {
    hide SpellBody, BodyOk, SpellCond;
    PlainBodyOk(s.thn);
    if s.els.Some? { PlainBodyOk(s.els.value); }
  }

  lemma {:induction false} PlainForOk(s: CStmt)
    requires StmtOk(s) && s.ForOf?
    ensures StmtOk(Plain(s)) && !OpenPlain(s) && SpellStmt(Plain(s)) != [] && SpellStmt(Plain(s))[0] == SpellStmt(s)[0]
    decreases s, 0
  {
    hide SpellBody, BodyOk, SpellSimple, SimpleOk, Spell;
    PlainSimple(s.init_);
    PlainSimple(s.step);
    PlainBodyOk(s.body);
  }

  /** With blocks, only an `if` without an `else` can be continued by one. */
  predicate OpenPlain(s: CStmt) { OpenStmt(Plain(s)) && !OpenStmt(s) }

  lemma {:induction false} PlainBodyOk(b: CBody)
    requires BodyOk(b)
    ensures BodyOk(PlainBody(b)) && !OpenBody(PlainBody(b))
    decreases b
  {
    match b
    case Block(ss) => AllPlainOk(ss);
    case Single(s) => PlainStmtOk(s); OneOk(Plain(s));
  }

  lemma {:induction false} OneOk(s: CStmt)
    requires StmtOk(s)
    ensures StmtsOk([s])
  {
    assert [s][1..] == [];
  }

  lemma {:induction false} AllPlainOk(ss: seq<CStmt>)
    requires StmtsOk(ss)
    ensures StmtsOk(AllPlain(ss))
    decreases ss
  {
    hide StmtOk, SpellStmt, OpenStmt;
    if ss != [] {
      PlainStmtOk(ss[0]);
      AllPlainOk(ss[1..]);
      var r := AllPlain(ss);
      assert r[1..] == AllPlain(ss[1..]) && r[0] == Plain(ss[0]);
      if |ss| > 1 {
        assert ss[1..][0] == ss[1] && r[1] == r[1..][0] == Plain(ss[1]);
        PlainStmtOk(ss[1]);
        StmtFirst(ss[1]);
      }
    }
  }

  lemma {:induction false} PlainProgramOk(fs: seq<CFunc>)
    requires ProgramOk(fs)
    ensures |PlainProgram(fs)| == |fs| && ProgramOk(PlainProgram(fs))
    ensures FuncMeanings(PlainProgram(fs)) == FuncMeanings(fs)
  {
    hide StmtsOk, ParamsOk, ParamMeanings, AllPlain;
    if fs != [] {
      PlainProgramOk(fs[1..]);
      AllPlainOk(fs[0].body);
      AllPlainMean(fs[0].body);
      assert PlainProgram(fs)[1..] == PlainProgram(fs[1..]);
      assert FuncOk(fs[0]);
      assert FuncMeaning(PlainFunc(fs[0])) == FuncMeaning(fs[0]);
    }
  }

  // ----- spellings are token lists -----

  ghost predicate NoEof(w: seq<Tok>) { forall i | 0 <= i < |w| :: w[i] != Eof }

  lemma {:induction false} NoEofAround(a: Tok, w: seq<Tok>, b: Tok)
    requires a != Eof && NoEof(w) && b != Eof
    ensures NoEof([a] + (w + [b]))
  {
  }

  lemma {:induction false} NoEofSum(a: seq<Tok>, b: seq<Tok>)
    requires NoEof(a) && NoEof(b)
    ensures NoEof(a + b)
  {
  }

  lemma {:induction false} NoEofOne(k: Tok)
    requires k != Eof
    ensures NoEof([k])
  {
  }

  lemma {:induction false} WrappedNoEof(w: seq<Tok>, paren: bool)
    requires NoEof(w)
    ensures NoEof(Wrapped(w, paren))
  {
    NoEofAround(Punct("("), w, Punct(")"));
  }

  lemma {:induction false} TypeNoEof(ty: CType)
    ensures NoEof(TypeToks(ty))
  {
  }

  lemma {:induction false} ExprNoEof(c: CExpr)
    ensures NoEof(Spell(c))
    decreases c, 1
  {
    hide NoEof, TypeToks, Wrapped;
    match c
    case Number(v) => NoEofOne(IntTok(v));
    case Text(s) => NoEofOne(StrTok(s));
    case Name(x) => NoEofOne(Ident(x));
    case Paren(e) =>
      ExprNoEof(e);
      NoEofAround(Punct("("), Spell(e), Punct(")"));
    case CallOf(f, args) =>
      ArgsNoEof(args);
      NoEofOne(Ident(f));
      NoEofAround(Punct("("), SpellArgs(args), Punct(")"));
      NoEofSum([Ident(f)], [Punct("(")] + (SpellArgs(args) + [Punct(")")]));
      assert Spell(c) == [Ident(f)] + ([Punct("(")] + (SpellArgs(args) + [Punct(")")]));
    case Subscript(b, i) =>
      ExprNoEof(b);
      ExprNoEof(i);
      NoEofAround(Punct("["), Spell(i), Punct("]"));
      NoEofSum(Spell(b), [Punct("[")] + (Spell(i) + [Punct("]")]));
    case Minus(e) => PrefixNoEof(Punct("-"), e, c);
    case Bang(e) => PrefixNoEof(Punct("!"), e, c);
    case Star(e) => PrefixNoEof(Punct("*"), e, c);
    case SizeofType(ty, paren) =>
      TypeNoEof(ty);
      WrappedNoEof(TypeToks(ty), paren);
      NoEofOne(Ident("sizeof"));
      NoEofSum([Ident("sizeof")], Wrapped(TypeToks(ty), paren));
    case SizeofExpr(e, paren) =>
      ExprNoEof(e);
      WrappedNoEof(Spell(e), paren);
      NoEofOne(Ident("sizeof"));
      NoEofSum([Ident("sizeof")], Wrapped(Spell(e), paren));
    case Binary(op, l, r) =>
      ExprNoEof(l);
      PrefixNoEof(Punct(Mark(op)), r, c);
      NoEofSum(Spell(l), [Punct(Mark(op))] + Spell(r));
  }

  lemma {:induction false} PrefixNoEof(k: Tok, e: CExpr, c: CExpr)
    requires k != Eof && e < c
    ensures NoEof([k] + Spell(e))
    decreases c, 0
  {
    ExprNoEof(e);
  }

  lemma {:induction false} ArgsNoEof(args: seq<Arg>)
    ensures NoEof(SpellArgs(args))
    decreases args
  {
    if args != [] {
      assert args[0].e < args[0];
      ExprNoEof(args[0].e);
      ArgsNoEof(args[1..]);
    }
  }

  lemma {:induction false} InitNoEof(init: Option<CExpr>)
    ensures NoEof(InitToks(init))
  {
    if init.Some? { ExprNoEof(init.value); }
  }

  lemma {:induction false} SimpleNoEof(s: CStmt)
    ensures NoEof(SpellSimple(s))
  {
    hide Spell, InitToks;
    match s
    case DeclOf(_, _, _, init) => InitNoEof(init);
    case Set(_, e) => ExprNoEof(e);
    case AddTo(_, e) => ExprNoEof(e);
    case Just(e) => ExprNoEof(e);
    case _ =>
  }

  lemma {:induction false} StmtNoEof(s: CStmt)
    ensures NoEof(SpellStmt(s))
    decreases s, 1
  {
    hide Spell, SpellSimple, SpellBody;
    SimpleNoEof(s);
    match s
    case StoreTo(l, e) => ExprNoEof(l); ExprNoEof(e);
    case JustLval(l) => ExprNoEof(l);
    case ReturnOf(e) => if e.Some? { ExprNoEof(e.value); }
    case IfOf(c, thn, els) =>
      ExprNoEof(c); BodyNoEof(thn);
      if els.Some? { BodyNoEof(els.value); }
    case WhileOf(c, body) => ExprNoEof(c); BodyNoEof(body);
    case ForOf(init, c, step, body) => SimpleNoEof(init); ExprNoEof(c); SimpleNoEof(step); BodyNoEof(body);
    case _ =>
  }

  lemma {:induction false} BodyNoEof(b: CBody)
    ensures NoEof(SpellBody(b))
    decreases b
  {
    match b
    case Block(ss) => StmtsNoEof(ss);
    case Single(s) => StmtNoEof(s);
  }

  lemma {:induction false} StmtsNoEof(ss: seq<CStmt>)
    ensures NoEof(SpellStmts(ss))
    decreases ss
  {
    if ss != [] {
      StmtNoEof(ss[0]);
      StmtsNoEof(ss[1..]);
    }
  }

  lemma {:induction false} ParamNoEof(q: CParam)
    ensures NoEof(SpellParam(q)) && NoEof(Comma(q.comma))
  {
    hide TypeToks;
    TypeNoEof(q.ty);
  }

  lemma {:induction false} ParamsNoEof(ps: seq<CParam>)
    ensures NoEof(SpellParams(ps))
  {
    hide SpellParam;
    if ps != [] {
      ParamNoEof(ps[0]);
      ParamsNoEof(ps[1..]);
    }
  }

  lemma {:induction false} FuncsNoEof(fs: seq<CFunc>)
    ensures NoEof(SpellFuncs(fs))
  {
    hide SpellParams, SpellStmts;
    if fs != [] {
      ParamsNoEof(fs[0].params);
      StmtsNoEof(fs[0].body);
      FuncsNoEof(fs[1..]);
    }
  }

  lemma {:induction false} SpellingEnds(fs: seq<CFunc>)
    ensures Ended(SpellFuncs(fs) + [Eof])
  {
    FuncsNoEof(fs);
  }

  /** The parser makes the same of a program and of its plain spelling. */
  lemma {:induction false} ReadAlike(fs: seq<CFunc>, t: seq<Tok>, plain: seq<Tok>)
    requires ProgramOk(fs) && t == SpellFuncs(fs) + [Eof] && plain == SpellFuncs(PlainProgram(fs)) + [Eof]
    ensures Ended(t) && Ended(plain)
    ensures ParseProgram(t, 0) == ParseProgram(plain, 0)
  {
    PlainProgramOk(fs);
    SpellingEnds(fs);
    SpellingEnds(PlainProgram(fs));
    ProgramRead(fs, t);
    ProgramRead(PlainProgram(fs), plain);
  }

  /** An increment, as a statement and in both clauses of a `for`, token by token. */
  lemma {:induction false} IncrementIsAddOne(x: string, y: string, c: CExpr, body: CBody)
    ensures SpellStmt(Increment(x)) == [Ident(x), Punct("++"), Punct(";")]
    ensures SpellStmt(Plain(Increment(x))) == [Ident(x), Punct("+="), IntTok(1), Punct(";")]
    ensures StmtMeaning(Increment(x)) == StmtMeaning(AddTo(x, Number(1)))
    ensures StmtMeaning(Increment(x)) == StmtMeaning(Set(x, Binary(Add, Name(x), Number(1))))
    ensures StmtMeaning(ForOf(Increment(x), c, Increment(y), body)) ==
            StmtMeaning(ForOf(AddTo(x, Number(1)), c, AddTo(y, Number(1)), body))
  {
    assert SpellSimple(AddTo(x, Number(1))) == [Ident(x), Punct("+="), IntTok(1)];
    assert Meaning(Number(1)) == Int(1);
    assert Meaning(Binary(Add, Name(x), Number(1))) == Bin(Add, Var(x), Int(1));
    assert StmtMeaning(Increment(y)) == StmtMeaning(AddTo(y, Number(1)));
  }

  // ----- what else may be left out, or put in -----

  /** Arguments mean the same with commas and without. */
  lemma {:induction false} CommasIgnored(f: string, xs: seq<Arg>, ys: seq<Arg>)
    requires |xs| == |ys| && forall i | 0 <= i < |xs| :: xs[i].e == ys[i].e
    ensures Meaning(CallOf(f, xs)) == Meaning(CallOf(f, ys))
  {
    ArgsAlike(xs, ys);
  }

  lemma {:induction false} ArgsAlike(xs: seq<Arg>, ys: seq<Arg>)
    requires |xs| == |ys| && forall i | 0 <= i < |xs| :: xs[i].e == ys[i].e
    ensures Meanings(xs) == Meanings(ys)
    decreases |xs|
  {
    if xs != [] { ArgsAlike(xs[1..], ys[1..]); }
  }

  /** Qualifiers change nothing, and neither do parentheses. */
  lemma {:induction false} QualifiersIgnored(qs: seq<string>, base: string, stars: nat, x: string, dim: Option<nat>,
      init: Option<CExpr>, e: CExpr)
    ensures StmtMeaning(DeclOf(CType(qs, base, stars), x, dim, init)) ==
            StmtMeaning(DeclOf(CType([], base, stars), x, dim, init))
    ensures Meaning(Paren(e)) == Meaning(e)
  {
  }

  /** `sizeof`: one for `char`, four for other types, for pointers and for any expression, in parentheses or not. */
  lemma {:induction false} SizeofMeans(qs: seq<string>, stars: nat, e: CExpr, paren: bool)
    ensures Meaning(SizeofType(CType(qs, "char", 0), paren)) == Int(1)
    ensures Meaning(SizeofType(CType(qs, "int", 0), paren)) == Int(4)
    ensures Meaning(SizeofType(CType(qs, "long", 0), paren)) == Int(4)
    ensures Meaning(SizeofType(CType(qs, "void", 0), paren)) == Int(4)
    ensures stars > 0 ==> forall base :: Meaning(SizeofType(CType(qs, base, stars), paren)) == Int(4)
    ensures Meaning(SizeofExpr(e, paren)) == Int(4)
  {
  }
}
