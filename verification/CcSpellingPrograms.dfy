/** Every spelling of a statement, a function and a program is read as what it means. */
module CcSpellingPrograms {
  import opened Bytes
  import opened CcAst
  import opened CcGrammar
  import opened CcPrinter
  import opened CcSpelling
  import opened CcSpellingReads
  import CcProgramPrinter

  predicate Ender(k: Tok) { k == Punct(";") || k == Punct(")") }

  lemma {:induction false} EndRead(c: CExpr, t: seq<Tok>, p: nat)
    requires Ended(t) && ExprOk(c) && Occurs(t, p, Spell(c)) && Ender(t[p + |Spell(c)|])
    ensures ParseExpr(t, p) == Some((Meaning(c), p + |Spell(c)|))
  {
    Closes(c, t[p + |Spell(c)|].mark);
    ExprRead(c, 0, t, p);
  }

  lemma {:induction false} Split3(t: seq<Tok>, p: nat, a: seq<Tok>, b: seq<Tok>, c: seq<Tok>)
    requires Occurs(t, p, a + (b + c))
    ensures Occurs(t, p, a) && Occurs(t, p + |a|, b) && Occurs(t, p + |a| + |b|, c)
    ensures (a != [] ==> t[p] == a[0]) && (b != [] ==> t[p + |a|] == b[0]) && (c != [] ==> t[p + |a| + |b|] == c[0])
  {
    OccursParts(t, p, a, b + c);
    OccursParts(t, p + |a|, b, c);
  }

  // ----- simple statements -----

  lemma {:induction false} DimRead(dim: Option<nat>, t: seq<Tok>, p: nat)
    requires Ended(t) && Occurs(t, p, DimToks(dim)) && t[p + |DimToks(dim)|] != Punct("[")
    ensures ParseDim(t, p) == Some((dim, p + |DimToks(dim)|))
  {
    if dim.Some? {
      var w := DimToks(dim);
      assert t[p] == w[0] && t[p + 1] == w[1] && t[p + 2] == w[2];
    }
  }

  lemma {:induction false} InitRead(init: Option<CExpr>, t: seq<Tok>, p: nat)
    requires Ended(t) && InitOk(init) && Occurs(t, p, InitToks(init)) && Ender(t[p + |InitToks(init)|])
    ensures t[p] != Punct("[") && ParseInit(t, p) == Some((MeaningOf(init), p + |InitToks(init)|))
  {
    if init.Some? {
      OccursParts(t, p, [Punct("=")], Spell(init.value));
      EndRead(init.value, t, p + 1);
    }
  }

  lemma {:induction false} KindAlike(ty: CType, isArray: bool)
    ensures KindFor(ty.base == "char", ty.stars > 0 || isArray) == KindOfType(ty, isArray)
  {
  }

  lemma {:induction false} DeclRead(s: CStmt, t: seq<Tok>, p: nat)
    requires Ended(t) && s.DeclOf? && SimpleOk(s) && Occurs(t, p, SpellSimple(s)) && Ender(t[p + |SpellSimple(s)|])
    ensures IsType(t[p]) && ParseDecl(t, p) == Some((StmtMeaning(s), p + |SpellSimple(s)|))
  {
    hide TypeToks, InitToks, DimToks, ParseType, ParseDim, ParseInit, TypeOk, Occurs;
    var ty, x, dim, init := TypeToks(s.ty), [Ident(s.x)], DimToks(s.dim), InitToks(s.init);
    var q := p + |ty|;
    OccursParts(t, p, ty, x + (dim + init));
    Split3(t, q, x, dim, init);
    TypeRead(s.ty, t, p);
    InitRead(s.init, t, q + 1 + |dim|);
    DimRead(s.dim, t, q + 1);
    KindAlike(s.ty, s.dim.Some?);
  }

  /** A simple statement is read before `;` and before `)`. */
  lemma {:induction false} SimpleRead(s: CStmt, t: seq<Tok>, p: nat)
    requires Ended(t) && SimpleOk(s) && Occurs(t, p, SpellSimple(s)) && Ender(t[p + |SpellSimple(s)|])
    ensures ParseSimple(t, p) == Some((StmtMeaning(s), p + |SpellSimple(s)|))
  {
    if s.DeclOf? {
      DeclRead(s, t, p);
    } else if s.Just? {
      JustRead(s, t, p);
    } else if s.Increment? {
      var w := SpellSimple(s);
      assert t[p] == w[0] && t[p + 1] == w[1];
    } else {
      var head := [Ident(s.x), Punct(if s.Set? then "=" else "+=")];
      OccursParts(t, p, head, Spell(s.e));
      assert t[p + 1] == head[1];
      EndRead(s.e, t, p + 2);
    }
  }

  lemma {:induction false} JustRead(s: CStmt, t: seq<Tok>, p: nat)
    requires Ended(t) && s.Just? && SimpleOk(s) && Occurs(t, p, SpellSimple(s)) && Ender(t[p + |SpellSimple(s)|])
    ensures ParseSimple(t, p) == Some((StmtMeaning(s), p + |SpellSimple(s)|))
  {
    hide Spell, ExprOk, ParseExpr;
    var w := Spell(s.e);
    EndRead(s.e, t, p);
    assert t[p] == w[0];
    if t[p].Ident? {
      if |w| > 1 {
        SecondOf(s.e);
        assert t[p + 1] == w[1];
      }
    }
  }

  // ----- statements -----

  lemma {:induction false} StoreRead(s: CStmt, t: seq<Tok>, p: nat)
    requires Ended(t) && (s.StoreTo? || s.JustLval?) && StmtOk(s) && Occurs(t, p, SpellStmt(s))
    ensures ParseStmt(t, p) == Some((StmtMeaning(s), p + |SpellStmt(s)|))
  {
    hide Spell, ExprOk, Occurs;
    var l := Spell(s.lval);
    var q := p + |l|;
    if s.StoreTo? {
      var e := Spell(s.e);
      Split3(t, p, l, [Punct("=")], e + [Punct(";")]);
      OccursParts(t, q + 1, e, [Punct(";")]);
      Closes(s.lval, "=");
      EndRead(s.e, t, q + 1);
    } else {
      OccursParts(t, p, l, [Punct(";")]);
      Closes(s.lval, ";");
    }
    UnaryRead(s.lval, t, p);
    StoreStart(l, t, p);
    StoreStep(t, p, s, q);
  }

  lemma {:induction false} StoreStart(w: seq<Tok>, t: seq<Tok>, p: nat)
    requires Occurs(t, p, w) && StoreLike(w) && !IsType(w[0])
    ensures !IsType(t[p]) && (t[p] == Punct("*") || (t[p].Ident? && t[p + 1] == Punct("[")))
  {
    assert t[p] == w[0];
    if |w| > 1 { assert t[p + 1] == w[1]; }
  }

  lemma {:induction false} StoreStep(t: seq<Tok>, p: nat, s: CStmt, q: nat)
    requires Ended(t) && p + 1 < |t| && q + 1 < |t| && (s.StoreTo? || s.JustLval?)
    requires !IsType(t[p]) && (t[p] == Punct("*") || (t[p].Ident? && t[p + 1] == Punct("[")))
    requires ParseUnary(t, p) == Some((Meaning(s.lval), q))
    requires s.JustLval? ==> t[q] == Punct(";")
    requires s.StoreTo? ==> t[q] == Punct("=")
                            && ParseExpr(t, q + 1) == Some((Meaning(s.e), q + 1 + |Spell(s.e)|))
                            && q + 1 + |Spell(s.e)| < |t| && t[q + 1 + |Spell(s.e)|] == Punct(";")
    ensures ParseStmt(t, p) == Some((StmtMeaning(s), if s.StoreTo? then q + 2 + |Spell(s.e)| else q + 1))
  {
    hide ParseUnary, ParseExpr, Spell;
  }

  lemma {:induction false} ReturnRead(s: CStmt, t: seq<Tok>, p: nat)
    requires Ended(t) && s.ReturnOf? && StmtOk(s) && Occurs(t, p, SpellStmt(s))
    ensures ParseStmt(t, p) == Some((StmtMeaning(s), p + |SpellStmt(s)|))
  {
    hide Spell, ExprOk;
    if s.result.None? {
      OccursParts(t, p, [Ident("return")], [Punct(";")]);
    } else {
      var e := Spell(s.result.value);
      Split3(t, p, [Ident("return")], e, [Punct(";")]);
      EndRead(s.result.value, t, p + 1);
      FirstOf(s.result.value);
    }
  }

  lemma {:induction false} PlainRead(s: CStmt, t: seq<Tok>, p: nat)
    requires Ended(t) && (s.DeclOf? || s.Set? || s.Increment? || s.AddTo? || s.Just?)
    requires StmtOk(s) && Occurs(t, p, SpellStmt(s))
    ensures ParseStmt(t, p) == Some((StmtMeaning(s), p + |SpellStmt(s)|))
  {
    hide SpellSimple, ParseStmt, ParseSimple, ParseDecl, SimpleOk;
    var w := SpellSimple(s);
    OccursParts(t, p, w, [Punct(";")]);
    SimpleRead(s, t, p);
    if s.DeclOf? {
      DeclRead(s, t, p);
      DeclStep(t, p, StmtMeaning(s), p + |w|);
    } else {
      PlainStart(s);
      assert t[p] == w[0];
      if |w| > 1 { assert t[p + 1] == w[1]; }
      PlainStep(t, p, StmtMeaning(s), p + |w|);
    }
  }

  lemma {:induction false} PlainStart(s: CStmt)
    requires (s.Set? || s.Increment? || s.AddTo? || s.Just?) && SimpleOk(s)
    ensures SpellSimple(s) != [] && !IsType(SpellSimple(s)[0])
  {
  }

  lemma {:induction false} DeclStep(t: seq<Tok>, p: nat, s: Stmt, q: nat)
    requires Ended(t) && p < |t| && q < |t| - 1 && IsType(t[p]) && ParseDecl(t, p) == Some((s, q)) && t[q] == Punct(";")
    ensures ParseStmt(t, p) == Some((s, q + 1))
  {
    hide ParseDecl;
  }

  lemma {:induction false} PlainStep(t: seq<Tok>, p: nat, s: Stmt, q: nat)
    requires Ended(t) && p + 1 < |t| && q < |t| - 1 && ParseSimple(t, p) == Some((s, q)) && t[q] == Punct(";")
    requires !IsType(t[p]) && !Keyword(t[p]) && t[p] != Punct("*") && !(t[p].Ident? && t[p + 1] == Punct("["))
    ensures ParseStmt(t, p) == Some((s, q + 1))
  {
    hide ParseSimple;
  }

  lemma {:induction false} CondRead(c: CExpr, t: seq<Tok>, p: nat)
    requires Ended(t) && ExprOk(c) && Occurs(t, p, SpellCond(c))
    ensures t[p] == Punct("(") && ParseCond(t, p) == Some((Meaning(c), p + |SpellCond(c)|))
  {
    hide Spell, ExprOk;
    Split3(t, p, [Punct("(")], Spell(c), [Punct(")")]);
    EndRead(c, t, p + 1);
  }

  /** An `else` behind the tokens would not be taken for a part of them. */
  predicate NotElse(open: bool, k: Tok) { open ==> k != Ident("else") }

  /** A statement is read from its tokens, whatever follows but an `else` that belongs to it. */
  lemma {:induction false} StmtRead(s: CStmt, t: seq<Tok>, p: nat)
    requires Ended(t) && StmtOk(s) && Occurs(t, p, SpellStmt(s)) && NotElse(OpenStmt(s), t[p + |SpellStmt(s)|])
    ensures ParseStmt(t, p) == Some((StmtMeaning(s), p + |SpellStmt(s)|))
    decreases s, 2
  {
    if s.StoreTo? || s.JustLval? {
      StoreRead(s, t, p);
    } else if s.ReturnOf? {
      ReturnRead(s, t, p);
    } else if s.IfOf? {
      IfRead(s, t, p);
    } else if s.WhileOf? {
      WhileRead(s, t, p);
    } else if s.ForOf? {
      ForRead(s, t, p);
    } else {
      PlainRead(s, t, p);
    }
  }

  lemma {:induction false} WhileRead(s: CStmt, t: seq<Tok>, p: nat)
    requires Ended(t) && s.WhileOf? && StmtOk(s) && Occurs(t, p, SpellStmt(s))
    requires NotElse(OpenStmt(s), t[p + |SpellStmt(s)|])
    ensures ParseStmt(t, p) == Some((StmtMeaning(s), p + |SpellStmt(s)|))
    decreases s, 1
  {
    hide SpellBody, Occurs, ParseBody, ParseCond, SpellCond, BodyMeaning;
    Split3(t, p, [Ident("while")], SpellCond(s.cond), SpellBody(s.body));
    CondRead(s.cond, t, p + 1);
    BodyRead(s.body, t, p + 1 + |SpellCond(s.cond)|);
  }

  /** Where the parts of an `if` stand. */
  lemma {:induction false} IfParts(s: CStmt, t: seq<Tok>, p: nat)
    requires s.IfOf? && StmtOk(s) && Occurs(t, p, SpellStmt(s)) && NotElse(OpenStmt(s), t[p + |SpellStmt(s)|])
    ensures var c, thn := SpellCond(s.cond), SpellBody(s.thn);
            var q := p + 1 + |c| + |thn|;
            && q < |t| && t[p] == Ident("if") && Occurs(t, p + 1, c) && Occurs(t, p + 1 + |c|, thn)
            && NotElse(OpenBody(s.thn), t[q]) && (t[q] == Ident("else") <==> s.els.Some?)
            && (s.els.Some? ==> Occurs(t, q + 1, SpellBody(s.els.value))
                                && p + |SpellStmt(s)| == q + 1 + |SpellBody(s.els.value)|)
            && (s.els.None? ==> p + |SpellStmt(s)| == q)
  {
    hide SpellBody, SpellCond, BodyOk, ExprOk;
    var c, thn, els := SpellCond(s.cond), SpellBody(s.thn), SpellElse(s);
    Split3(t, p, [Ident("if")], c, thn + els);
    OccursParts(t, p + 1 + |c|, thn, els);
    if s.els.Some? {
      OccursParts(t, p + 1 + |c| + |thn|, [Ident("else")], SpellBody(s.els.value));
    } else {
      assert els == [];
    }
  }

  lemma {:induction false} IfRead(s: CStmt, t: seq<Tok>, p: nat)
    requires Ended(t) && s.IfOf? && StmtOk(s) && Occurs(t, p, SpellStmt(s))
    requires NotElse(OpenStmt(s), t[p + |SpellStmt(s)|])
    ensures ParseStmt(t, p) == Some((StmtMeaning(s), p + |SpellStmt(s)|))
    decreases s, 1
  {
    hide SpellStmt, SpellBody, Occurs, ParseBody, ParseCond, SpellCond, BodyMeaning, SpellElse, ParseStmt;
    var q := p + 1 + |SpellCond(s.cond)|;
    var q2 := q + |SpellBody(s.thn)|;
    IfParts(s, t, p);
    CondRead(s.cond, t, p + 1);
    BodyRead(s.thn, t, q);
    if s.els.Some? {
      BodyRead(s.els.value, t, q2 + 1);
      IfElseStep(t, p, s, q, q2, q2 + 1 + |SpellBody(s.els.value)|);
    } else {
      IfThenStep(t, p, s, q, q2);
    }
  }

  lemma {:induction false} IfElseStep(t: seq<Tok>, p: nat, s: CStmt, q: nat, q2: nat, q3: nat)
    requires Ended(t) && s.IfOf? && s.els.Some? && p + 1 < |t| && q < |t| && q2 + 1 < |t|
    requires t[p] == Ident("if") && t[p + 1] == Punct("(") && ParseCond(t, p + 1) == Some((Meaning(s.cond), q))
    requires ParseBody(t, q) == Some((BodyMeaning(s.thn), q2)) && t[q2] == Ident("else")
    requires ParseBody(t, q2 + 1) == Some((BodyMeaning(s.els.value), q3))
    ensures ParseStmt(t, p) == Some((StmtMeaning(s), q3))
  {
    hide ParseCond, ParseBody, BodyMeaning;
  }

  lemma {:induction false} IfThenStep(t: seq<Tok>, p: nat, s: CStmt, q: nat, q2: nat)
    requires Ended(t) && s.IfOf? && s.els.None? && p + 1 < |t| && q < |t| && q2 < |t|
    requires t[p] == Ident("if") && t[p + 1] == Punct("(") && ParseCond(t, p + 1) == Some((Meaning(s.cond), q))
    requires ParseBody(t, q) == Some((BodyMeaning(s.thn), q2)) && t[q2] != Ident("else")
    ensures ParseStmt(t, p) == Some((StmtMeaning(s), q2))
  {
    hide ParseCond, ParseBody, BodyMeaning;
  }

  /** Where the parts of a `for` stand. */
  lemma {:induction false} ForParts(s: CStmt, t: seq<Tok>, p: nat)
    requires s.ForOf? && Occurs(t, p, SpellStmt(s))
    ensures var init, c, step, body := SpellSimple(s.init_), Spell(s.cond), SpellSimple(s.step), SpellBody(s.body);
            var q := p + 2 + |init|;
            var q2 := q + 1 + |c|;
            var q3 := q2 + 1 + |step|;
            && q3 + 1 + |body| == p + |SpellStmt(s)| && q3 + 1 + |body| < |t|
            && t[p] == Ident("for") && t[p + 1] == Punct("(") && Occurs(t, p + 2, init) && t[q] == Punct(";")
            && Occurs(t, q + 1, c) && t[q2] == Punct(";") && Occurs(t, q2 + 1, step) && t[q3] == Punct(")")
            && Occurs(t, q3 + 1, body)
  {
    hide Occurs, SpellSimple, Spell, SpellBody;
    var init, c, step, body := SpellSimple(s.init_), Spell(s.cond), SpellSimple(s.step), SpellBody(s.body);
    var head, semi, close := [Ident("for"), Punct("(")], [Punct(";")], [Punct(")")];
    var tail := semi + (step + (close + body));
    var q := p + 2 + |init|;
    assert SpellStmt(s) == head + (init + (semi + (c + tail)));
    Split3(t, p, head, init, semi + (c + tail));
    Split3(t, q, semi, c, tail);
    Split3(t, q + 1 + |c|, semi, step, close + body);
    OccursParts(t, q + 2 + |c| + |step|, close, body);
    SecondTok(t, p, head);
  }

  lemma {:induction false} SecondTok(t: seq<Tok>, p: nat, w: seq<Tok>)
    requires Occurs(t, p, w) && |w| == 2
    ensures t[p + 1] == w[1]
  {
  }

  lemma {:induction false} ForRead(s: CStmt, t: seq<Tok>, p: nat)
    requires Ended(t) && s.ForOf? && StmtOk(s) && Occurs(t, p, SpellStmt(s))
    requires NotElse(OpenStmt(s), t[p + |SpellStmt(s)|])
    ensures ParseStmt(t, p) == Some((StmtMeaning(s), p + |SpellStmt(s)|))
    decreases s, 1
  {
    hide SpellStmt, SpellSimple, Spell, SpellBody, Occurs, ParseStmt, ParseSimple, ParseExpr, ParseBody;
    var q := p + 2 + |SpellSimple(s.init_)|;
    var q2 := q + 1 + |Spell(s.cond)|;
    var q3 := q2 + 1 + |SpellSimple(s.step)|;
    ForParts(s, t, p);
    SimpleRead(s.init_, t, p + 2);
    EndRead(s.cond, t, q + 1);
    SimpleRead(s.step, t, q2 + 1);
    BodyRead(s.body, t, q3 + 1);
    CcProgramPrinter.ForStep(t, p, StmtMeaning(s), q, q2, q3, q3 + 1 + |SpellBody(s.body)|);
  }

  lemma {:induction false} BodyRead(b: CBody, t: seq<Tok>, p: nat)
    requires Ended(t) && BodyOk(b) && Occurs(t, p, SpellBody(b)) && NotElse(OpenBody(b), t[p + |SpellBody(b)|])
    ensures ParseBody(t, p) == Some((BodyMeaning(b), p + |SpellBody(b)|))
    decreases b
  {
    hide SpellStmts, SpellStmt, StmtOk, StmtsOk, ParseStmt, ParseStmts, StmtMeaning, StmtsMeaning, OpenStmt;
    if b.Block? {
      OccursParts(t, p, [Punct("{")], SpellStmts(b.ss) + [Punct("}")]);
      StmtsRead(b.ss, t, p + 1);
    } else {
      StmtRead(b.s, t, p);
      StmtFirst(b.s);
      assert t[p] == SpellStmt(b.s)[0];
    }
  }

  lemma {:induction false} StmtFirst(s: CStmt)
    requires StmtOk(s)
    ensures SpellStmt(s) != [] && SpellStmt(s)[0] != Punct("{") && SpellStmt(s)[0] != Punct("}")
  {
    if s.StoreTo? || s.JustLval? {
      FirstOf(s.lval);
    } else if s.DeclOf? {
      TypeFirst(s.ty);
    } else if s.Just? {
      FirstOf(s.e);
    }
  }

  lemma {:induction false} StmtsRead(ss: seq<CStmt>, t: seq<Tok>, p: nat)
    requires Ended(t) && StmtsOk(ss) && Occurs(t, p, SpellStmts(ss) + [Punct("}")])
    ensures t[p + |SpellStmts(ss)|] == Punct("}")
    ensures ParseStmts(t, p) == Some((StmtsMeaning(ss), p + |SpellStmts(ss)| + 1))
    decreases ss
  {
    hide Occurs, SpellStmt, StmtOk, ParseStmt, ParseStmts, OpenStmt, StmtMeaning, StmtsMeaning;
    var close := [Punct("}")];
    OccursParts(t, p, SpellStmts(ss), close);
    if ss == [] {
      NoStmts(t, p);
    } else {
      var first, rest := SpellStmt(ss[0]), SpellStmts(ss[1..]);
      assert SpellStmts(ss) + close == first + (rest + close);
      OccursParts(t, p, first, rest + close);
      StmtFirst(ss[0]);
      NextFirst(ss[1..], close);
      assert |ss| > 1 ==> ss[1..][0] == ss[1];
      StmtRead(ss[0], t, p);
      StmtsRead(ss[1..], t, p + |first|);
      StmtsStep(t, p, ss, p + |first|, p + |SpellStmts(ss)| + 1);
    }
  }

  lemma {:induction false} NoStmts(t: seq<Tok>, p: nat)
    requires Ended(t) && p < |t| && t[p] == Punct("}")
    ensures ParseStmts(t, p) == Some((StmtsMeaning([]), p + 1))
  {
  }

  lemma {:induction false} StmtsStep(t: seq<Tok>, p: nat, ss: seq<CStmt>, q: nat, r: nat)
    requires Ended(t) && p < |t| && q < |t| && ss != [] && t[p] != Punct("}")
    requires ParseStmt(t, p) == Some((StmtMeaning(ss[0]), q))
    requires ParseStmts(t, q) == Some((StmtsMeaning(ss[1..]), r))
    ensures ParseStmts(t, p) == Some((StmtsMeaning(ss), r))
  {
    hide ParseStmt, StmtMeaning;
  }

  lemma {:induction false} NextFirst(ss: seq<CStmt>, close: seq<Tok>)
    requires StmtsOk(ss) && close != []
    ensures (SpellStmts(ss) + close)[0] == if ss == [] then close[0] else SpellStmt(ss[0])[0]
    ensures ss != [] ==> SpellStmt(ss[0]) != []
  {
    hide SpellStmt, StmtOk;
    if ss != [] { StmtFirst(ss[0]); }
  }

  // ----- functions -----

  lemma {:induction false} ParamRead(q: CParam, t: seq<Tok>, p: nat)
    requires Ended(t) && TypeOk(q.ty) && (q.ty.quals == [] ==> q.ty.base != "void")
    requires Occurs(t, p, SpellParam(q)) && t[p + |SpellParam(q)|] != Punct("[")
    ensures t[p] != Punct(")") && t[p] != Ident("void")
    ensures ParseParam(t, p) ==
            Some((Param(q.x, KindOfType(q.ty, q.dim.Some?)), p + |SpellParam(q)|))
  {
    hide TypeToks, DimToks, ParseType, ParseDim, TypeOk, Occurs;
    Split3(t, p, TypeToks(q.ty), [Ident(q.x)], DimToks(q.dim));
    TypeRead(q.ty, t, p);
    DimRead(q.dim, t, p + |TypeToks(q.ty)| + 1);
    KindAlike(q.ty, q.dim.Some?);
  }

  function Void(closed: bool): seq<Tok> { if closed then [Ident("void")] else [] }

  /** How the rest of a parameter list begins. */
  lemma {:induction false} ParamsFirst(ps: seq<CParam>, closed: bool)
    ensures var w := SpellParams(ps) + (Void(closed) + [Punct(")")]);
            w != [] && (w[0].Ident? || w[0] == Punct(")"))
  {
    var w := SpellParams(ps) + (Void(closed) + [Punct(")")]);
    if ps != [] {
      TypeFirst(ps[0].ty);
      assert w[0] == TypeToks(ps[0].ty)[0];
    }
  }

  lemma {:induction false} ParamsRead(ps: seq<CParam>, closed: bool, t: seq<Tok>, p: nat)
    requires Ended(t) && ParamsOk(ps) && Occurs(t, p, SpellParams(ps) + (Void(closed) + [Punct(")")]))
    ensures ParseParams(t, p) == Some((ParamMeanings(ps), p + |SpellParams(ps)| + |Void(closed)|))
    decreases |ps|
  {
    hide Occurs, SpellParam, ParseParam, ParseParams, ParamMeanings;
    var close := Void(closed) + [Punct(")")];
    if ps == [] {
      assert SpellParams(ps) + close == close;
      OccursParts(t, p, Void(closed), [Punct(")")]);
      NoParams(t, p, closed);
    } else {
      var first, comma, rest := SpellParam(ps[0]), Comma(ps[0].comma), SpellParams(ps[1..]);
      var q := p + |first|;
      assert SpellParams(ps) + close == first + (comma + (rest + close));
      Split3(t, p, first, comma, rest + close);
      ParamsFirst(ps[1..], closed);
      ParamRead(ps[0], t, p);
      ParamsRead(ps[1..], closed, t, q + |comma|);
      ParamsStep(t, p, ps, q, p + |SpellParams(ps)| + |Void(closed)|);
    }
  }

  lemma {:induction false} NoParams(t: seq<Tok>, p: nat, closed: bool)
    requires Ended(t) && p < |t| && t[p] == if closed then Ident("void") else Punct(")")
    ensures ParseParams(t, p) == Some((ParamMeanings([]), p + |Void(closed)|))
  {
  }

  lemma {:induction false} ParamsStep(t: seq<Tok>, p: nat, ps: seq<CParam>, q: nat, r: nat)
    requires Ended(t) && p < |t| && ps != [] && t[p] != Punct(")") && t[p] != Ident("void") && q < |t|
    requires ParseParam(t, p) == Some((Param(ps[0].x, KindOfType(ps[0].ty, ps[0].dim.Some?)), q))
    requires (t[q] == Punct(",") <==> ps[0].comma) && q + |Comma(ps[0].comma)| < |t|
    requires ParseParams(t, q + |Comma(ps[0].comma)|) == Some((ParamMeanings(ps[1..]), r))
    ensures ParseParams(t, p) == Some((ParamMeanings(ps), r))
  {
    hide ParseParam, KindOfType;
  }

  /** Where the parts of a function stand. */
  lemma {:induction false} FuncParts(f: CFunc, t: seq<Tok>, p: nat)
    requires Occurs(t, p, SpellFunc(f))
    ensures var ty, ps, void := TypeToks(f.ty), SpellParams(f.params), Void(f.closed);
            var q := p + |ty|;
            var q2 := q + 2 + |ps| + |void|;
            && q2 + 2 < |t| && Occurs(t, p, ty) && t[q] == Ident(f.name) && t[q + 1] == Punct("(")
            && Occurs(t, q + 2, ps + (void + [Punct(")")])) && t[q2] == Punct(")") && t[q2 + 1] == Punct("{")
            && Occurs(t, q2 + 2, SpellStmts(f.body) + [Punct("}")])
            && p + |SpellFunc(f)| == q2 + 2 + |SpellStmts(f.body)| + 1
  {
    hide Occurs, TypeToks, SpellParams, SpellStmts;
    var ty, head, ps, void := TypeToks(f.ty), [Ident(f.name), Punct("(")], SpellParams(f.params), Void(f.closed);
    var mid, body := [Punct(")"), Punct("{")], SpellStmts(f.body) + [Punct("}")];
    var q := p + |ty|;
    var q2 := q + 2 + |ps| + |void|;
    assert SpellFunc(f) == ty + (head + (ps + (void + (mid + body))));
    Split3(t, p, ty, head, ps + (void + (mid + body)));
    SecondTok(t, q, head);
    assert ps + (void + (mid + body)) == (ps + (void + [Punct(")")])) + ([Punct("{")] + body);
    OccursParts(t, q + 2, ps + (void + [Punct(")")]), [Punct("{")] + body);
    Split3(t, q + 2, ps, void, mid + body);
    OccursParts(t, q2, mid, body);
    SecondTok(t, q2, mid);
  }

  lemma {:induction false} FuncRead(f: CFunc, t: seq<Tok>, p: nat)
    requires Ended(t) && FuncOk(f) && Occurs(t, p, SpellFunc(f))
    ensures ParseFunc(t, p) == Some((FuncMeaning(f), p + |SpellFunc(f)|))
  {
    hide Occurs, SpellFunc, TypeToks, SpellParams, SpellStmts, ParamsOk, StmtsOk, TypeOk, ParseType, ParseParams,
      ParseStmts;
    var q := p + |TypeToks(f.ty)|;
    FuncParts(f, t, p);
    TypeRead(f.ty, t, p);
    ParamsRead(f.params, f.closed, t, q + 2);
    StmtsRead(f.body, t, q + 4 + |SpellParams(f.params)| + |Void(f.closed)|);
  }

  lemma {:induction false} FuncsRead(fs: seq<CFunc>, t: seq<Tok>, p: nat)
    requires Ended(t) && ProgramOk(fs) && p + |SpellFuncs(fs)| == |t| - 1
    requires forall i {:trigger SpellFuncs(fs)[i]} | 0 <= i < |SpellFuncs(fs)| :: SpellFuncs(fs)[i] == t[p + i]
    ensures ParseProgram(t, p) == Some(FuncMeanings(fs))
    decreases |fs|
  {
    hide SpellFunc, FuncOk, ParseFunc;
    assert Occurs(t, p, SpellFuncs(fs));
    if fs != [] {
      var first, rest := SpellFunc(fs[0]), SpellFuncs(fs[1..]);
      OccursParts(t, p, first, rest);
      FuncRead(fs[0], t, p);
      assert t[p] != Eof;
      FuncsRead(fs[1..], t, p + |first|);
    }
  }

  /** A program is read from any of its spellings. */
  lemma {:induction false} ProgramRead(fs: seq<CFunc>, t: seq<Tok>)
    requires Ended(t) && ProgramOk(fs) && t == SpellFuncs(fs) + [Eof]
    ensures ParseProgram(t, 0) == Some(FuncMeanings(fs))
  {
    FuncsRead(fs, t, 0);
  }
}
