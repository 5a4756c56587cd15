/** The language of the parser: a program is parsed from its spellings and from nothing else. */
module CcSpellingExactly {
  import opened Bytes
  import opened CcAst
  import opened CcGrammar
  import opened CcPrinter
  import opened CcSpelling
  import opened CcSpellingReads
  import opened CcSpellingPrograms
  import opened CcSpellingFinds
  import CcProgramPrinter

  // ----- simple statements -----

  lemma {:induction false} ExprFound(t: seq<Tok>, p: nat) returns (c: CExpr)
    requires Ended(t) && p < |t| && ParseExpr(t, p).Some?
    ensures var (e, q) := ParseExpr(t, p).value;
            ExprOk(c) && Slice(t, p, q, Spell(c)) && Meaning(c) == e && p < q && Spell(c)[0] == t[p]
  {
    c := LevelFound(t, p, 0);
    FoundMeans(t, p, ParseLevel(t, p, 0), c, 0);
  }

  lemma {:induction false} DimFound(t: seq<Tok>, p: nat)
    requires Ended(t) && p < |t| && ParseDim(t, p).Some?
    ensures var (dim, q) := ParseDim(t, p).value; Slice(t, p, q, DimToks(dim))
  {
    if t[p] == Punct("[") { assert t[p..p + 3] == [t[p], t[p + 1], t[p + 2]]; }
  }

  lemma {:induction false} InitFound(t: seq<Tok>, p: nat) returns (init: Option<CExpr>)
    requires Ended(t) && p < |t| && ParseInit(t, p).Some?
    ensures var (e, q) := ParseInit(t, p).value; InitOk(init) && MeaningOf(init) == e && Slice(t, p, q, InitToks(init))
  {
    hide Spell, ParseExpr, ExprOk;
    if t[p] == Punct("=") {
      var e := ExprFound(t, p + 1);
      OneTok(t, p);
      Joined(t, p, p + 1, ParseInit(t, p).value.1, [t[p]], Spell(e));
      init := Some(e);
    } else {
      init := None;
    }
  }

  /** What the parser found at `p` is the simple statement `s`. */
  ghost predicate FoundSimple(t: seq<Tok>, p: nat, r: Parsed<Stmt>, s: CStmt) {
    r.Some? && SimpleOk(s) && StmtMeaning(s) == r.value.0 && Slice(t, p, r.value.1, SpellSimple(s))
  }

  lemma {:induction false} DeclFound(t: seq<Tok>, p: nat) returns (s: CStmt)
    requires Ended(t) && p < |t| && ParseDecl(t, p).Some?
    ensures FoundSimple(t, p, ParseDecl(t, p), s) && s.DeclOf?
  {
    hide ParseType, ParseDim, ParseInit, TypeToks, DimToks, InitToks, Slice, TypeOk, InitOk;
    var ty := TypeFound(t, p);
    var q := ParseType(t, p).value.1;
    NotLast(t, q);
    OneTok(t, q);
    DimFound(t, q + 1);
    var (dim, q2) := ParseDim(t, q + 1).value;
    var init := InitFound(t, q2);
    var q3 := ParseInit(t, q2).value.1;
    s := DeclOf(ty, t[q].name, dim, init);
    KindAlike(ty, dim.Some?);
    Joined(t, q + 1, q2, q3, DimToks(dim), InitToks(init));
    Joined(t, q, q + 1, q3, [t[q]], DimToks(dim) + InitToks(init));
    Joined(t, p, q, q3, TypeToks(ty), [t[q]] + (DimToks(dim) + InitToks(init)));
  }

  lemma {:induction false} SimpleFound(t: seq<Tok>, p: nat) returns (s: CStmt)
    requires Ended(t) && p < |t| && ParseSimple(t, p).Some?
    ensures FoundSimple(t, p, ParseSimple(t, p), s) && (s.DeclOf? <==> IsType(t[p]))
  {
    if IsType(t[p]) {
      s := DeclFound(t, p);
    } else if t[p].Ident? && (t[p + 1] == Punct("=") || t[p + 1] == Punct("+=")) {
      s := SetFound(t, p);
    } else if t[p].Ident? && t[p + 1] == Punct("++") {
      s := Increment(t[p].name);
      NotLast(t, p + 1);
      TwoToks(t, p);
    } else {
      var e := ExprFound(t, p);
      s := Just(e);
    }
  }

  lemma {:induction false} SetFound(t: seq<Tok>, p: nat) returns (s: CStmt)
    requires Ended(t) && p + 1 < |t| && t[p].Ident? && !IsType(t[p]) && ParseSimple(t, p).Some?
    requires t[p + 1] == Punct("=") || t[p + 1] == Punct("+=")
    ensures FoundSimple(t, p, ParseSimple(t, p), s) && !s.DeclOf?
  {
    hide Spell, ParseExpr, ExprOk, Meaning;
    NotLast(t, p + 1);
    var e := ExprFound(t, p + 2);
    TwoToks(t, p);
    Joined(t, p, p + 2, ParseExpr(t, p + 2).value.1, [t[p], t[p + 1]], Spell(e));
    s := if t[p + 1] == Punct("=") then Set(t[p].name, e) else AddTo(t[p].name, e);
  }

  // ----- statements -----

  /** What the parser found at `p` is the statement `s`, and no `else` behind it would be taken for a part of it. */
  ghost predicate FoundStmt(t: seq<Tok>, p: nat, r: Parsed<Stmt>, s: CStmt) {
    && r.Some? && StmtOk(s) && StmtMeaning(s) == r.value.0 && Slice(t, p, r.value.1, SpellStmt(s))
    && NotElse(OpenStmt(s), t[r.value.1])
  }

  lemma {:induction false} StmtFound(t: seq<Tok>, p: nat) returns (s: CStmt)
    requires Ended(t) && p < |t| && ParseStmt(t, p).Some?
    ensures FoundStmt(t, p, ParseStmt(t, p), s)
    decreases |t| - p, 1
  {
    if IsType(t[p]) {
      s := PlainDeclFound(t, p);
    } else if t[p] == Punct("*") || (t[p].Ident? && t[p + 1] == Punct("[")) {
      s := StoreFound(t, p);
    } else if t[p] == Ident("return") {
      s := ReturnFound(t, p);
    } else if t[p] == Ident("if") {
      s := IfFound(t, p);
    } else if t[p] == Ident("while") {
      s := WhileFound(t, p);
    } else if t[p] == Ident("for") {
      s := ForFound(t, p);
    } else {
      s := PlainFound(t, p);
    }
  }

  lemma {:induction false} Closed(t: seq<Tok>, p: nat, q: nat, w: seq<Tok>)
    requires Ended(t) && Slice(t, p, q, w) && t[q] == Punct(";")
    ensures Slice(t, p, q + 1, w + [Punct(";")])
  {
    NotLast(t, q);
    OneTok(t, q);
    Joined(t, p, q, q + 1, w, [t[q]]);
  }

  lemma {:induction false} PlainDeclFound(t: seq<Tok>, p: nat) returns (s: CStmt)
    requires Ended(t) && p < |t| && IsType(t[p]) && ParseStmt(t, p).Some?
    ensures FoundStmt(t, p, ParseStmt(t, p), s)
  {
    hide ParseDecl, SpellSimple, SimpleOk;
    s := DeclFound(t, p);
    Closed(t, p, ParseDecl(t, p).value.1, SpellSimple(s));
  }

  lemma {:induction false} PlainFound(t: seq<Tok>, p: nat) returns (s: CStmt)
    requires Ended(t) && p < |t| && ParseStmt(t, p).Some? && !IsType(t[p]) && !Keyword(t[p])
    requires t[p] != Punct("*") && !(t[p].Ident? && t[p + 1] == Punct("["))
    ensures FoundStmt(t, p, ParseStmt(t, p), s)
  {
    hide ParseSimple, SpellSimple, SimpleOk;
    s := SimpleFound(t, p);
    var q := ParseSimple(t, p).value.1;
    Closed(t, p, q, SpellSimple(s));
    var w := SpellSimple(s);
    assert w[0] == t[p..q][0] == t[p];
    if |w| > 1 { assert w[1] == t[p..q][1] == t[p + 1]; }
    PlainMeaning(s);
    assert StmtOk(s);
  }

  lemma {:induction false} PlainMeaning(s: CStmt)
    requires SimpleOk(s) && !s.DeclOf?
    ensures s.Set? || s.Increment? || s.AddTo? || s.Just?
    ensures SpellStmt(s) == SpellSimple(s) + [Punct(";")] && !OpenStmt(s)
    ensures StmtOk(s) <==> !Keyword(SpellSimple(s)[0]) && !StoreLike(SpellSimple(s))
  {
  }

  lemma {:induction false} StoreFound(t: seq<Tok>, p: nat) returns (s: CStmt)
    requires Ended(t) && p < |t| && !IsType(t[p]) && ParseStmt(t, p).Some?
    requires t[p] == Punct("*") || (t[p].Ident? && t[p + 1] == Punct("["))
    ensures FoundStmt(t, p, ParseStmt(t, p), s)
  {
    hide ParseUnary, ParseExpr, Spell, ExprOk, Found, Meaning;
    var l := UnaryFound(t, p);
    var q := ParseUnary(t, p).value.1;
    LvalFound(t, p, l);
    if t[q] == Punct("=") {
      var e := ExprFound(t, q + 1);
      s := StoreTo(l, e);
      StoreJoined(t, p, q, ParseExpr(t, q + 1).value.1, l, e);
    } else {
      s := JustLval(l);
      Closed(t, p, q, Spell(l));
    }
  }

  lemma {:induction false} StoreJoined(t: seq<Tok>, p: nat, q: nat, q2: nat, l: CExpr, e: CExpr)
    requires Ended(t) && Slice(t, p, q, Spell(l)) && t[q] == Punct("=") && Slice(t, q + 1, q2, Spell(e))
    requires t[q2] == Punct(";")
    ensures Slice(t, p, q2 + 1, SpellStmt(StoreTo(l, e)))
  {
    hide Spell;
    NotLast(t, q);
    OneTok(t, q);
    Closed(t, q + 1, q2, Spell(e));
    Joined(t, q, q + 1, q2 + 1, [t[q]], Spell(e) + [Punct(";")]);
    Joined(t, p, q, q2 + 1, Spell(l), [t[q]] + (Spell(e) + [Punct(";")]));
  }

  lemma {:induction false} LvalFound(t: seq<Tok>, p: nat, l: CExpr)
    requires Ended(t) && p < |t| && !IsType(t[p]) && Found(t, p, ParseUnary(t, p), l, 5)
    requires t[p] == Punct("*") || (t[p].Ident? && t[p + 1] == Punct("["))
    requires t[ParseUnary(t, p).value.1] != Punct("[")
    ensures LvalOk(l) && Meaning(l) == ParseUnary(t, p).value.0 && Slice(t, p, ParseUnary(t, p).value.1, Spell(l))
  {
    hide ParseUnary, Spell, ExprOk;
    var q := ParseUnary(t, p).value.1;
    FoundMeans(t, p, ParseUnary(t, p), l, 5);
    var w := Spell(l);
    if |w| > 1 { assert w[1] == t[p..q][1] == t[p + 1]; }
  }

  lemma {:induction false} ReturnFound(t: seq<Tok>, p: nat) returns (s: CStmt)
    requires Ended(t) && p < |t| && t[p] == Ident("return") && t[p + 1] != Punct("[") && ParseStmt(t, p).Some?
    ensures FoundStmt(t, p, ParseStmt(t, p), s)
  {
    hide ParseExpr, Spell, ExprOk, Meaning;
    NotLast(t, p);
    OneTok(t, p);
    if t[p + 1] == Punct(";") {
      s := ReturnOf(None);
      Closed(t, p, p + 1, [t[p]]);
    } else {
      var e := ExprFound(t, p + 1);
      var q := ParseExpr(t, p + 1).value.1;
      s := ReturnOf(Some(e));
      Closed(t, p + 1, q, Spell(e));
      Joined(t, p, p + 1, q + 1, [t[p]], Spell(e) + [Punct(";")]);
    }
  }

  lemma {:induction false} CondFound(t: seq<Tok>, p: nat) returns (c: CExpr)
    requires Ended(t) && p < |t| && ParseCond(t, p).Some?
    ensures t[p] == Punct("(")
    ensures var (e, q) := ParseCond(t, p).value; ExprOk(c) && Meaning(c) == e && Slice(t, p, q, SpellCond(c))
  {
    hide ParseExpr, Spell, ExprOk, Meaning;
    c := ExprFound(t, p + 1);
    var q := ParseExpr(t, p + 1).value.1;
    NotLast(t, q);
    Around(t, p + 1, q, Spell(c));
  }

  /** A block or a statement in place of one. */
  ghost predicate FoundBody(t: seq<Tok>, p: nat, r: Parsed<seq<Stmt>>, b: CBody) {
    && r.Some? && BodyOk(b) && BodyMeaning(b) == r.value.0 && Slice(t, p, r.value.1, SpellBody(b))
    && NotElse(OpenBody(b), t[r.value.1])
  }

  lemma {:induction false} IfFound(t: seq<Tok>, p: nat) returns (s: CStmt)
    requires Ended(t) && p < |t| && t[p] == Ident("if") && t[p + 1] != Punct("[") && ParseStmt(t, p).Some?
    ensures FoundStmt(t, p, ParseStmt(t, p), s)
    decreases |t| - p, 0
  {
    hide ParseCond, ParseBody, FoundBody, FoundStmt;
    NotLast(t, p);
    assert ParseStmt(t, p) == ParseIf(t, p + 1);
    var c := CondFound(t, p + 1);
    var q := ParseCond(t, p + 1).value.1;
    var thn := BodyFound(t, q);
    var q2 := ParseBody(t, q).value.1;
    if t[q2] == Ident("else") {
      NotLast(t, q2);
      var els := BodyFound(t, q2 + 1);
      s := IfElseFound(t, p, q, q2, c, thn, els);
    } else {
      s := IfThenFound(t, p, q, q2, c, thn);
    }
  }

  lemma {:induction false} IfElseFound(t: seq<Tok>, p: nat, q: nat, q2: nat, c: CExpr, thn: CBody, els: CBody)
      returns (s: CStmt)
    requires Ended(t) && p + 1 < |t| && q < |t| && q2 + 1 < |t| && t[p] == Ident("if") && t[p + 1] == Punct("(")
    requires ExprOk(c) && ParseCond(t, p + 1) == Some((Meaning(c), q)) && Slice(t, p + 1, q, SpellCond(c))
    requires FoundBody(t, q, ParseBody(t, q), thn) && ParseBody(t, q).value.1 == q2 && t[q2] == Ident("else")
    requires FoundBody(t, q2 + 1, ParseBody(t, q2 + 1), els)
    ensures FoundStmt(t, p, ParseStmt(t, p), s)
  {
    hide ParseCond, ParseBody, SpellCond, SpellBody, ExprOk, BodyOk, BodyMeaning, Slice;
    s := IfOf(c, thn, Some(els));
    var q3 := ParseBody(t, q2 + 1).value.1;
    OneTok(t, p);
    OneTok(t, q2);
    assert SpellElse(s) == [Ident("else")] + SpellBody(els);
    Joined(t, q2, q2 + 1, q3, [t[q2]], SpellBody(els));
    Joined(t, q, q2, q3, SpellBody(thn), SpellElse(s));
    Joined(t, p + 1, q, q3, SpellCond(c), SpellBody(thn) + SpellElse(s));
    Joined(t, p, p + 1, q3, [t[p]], SpellCond(c) + (SpellBody(thn) + SpellElse(s)));
    IfElseStep(t, p, s, q, q2, q3);
  }

  lemma {:induction false} IfThenFound(t: seq<Tok>, p: nat, q: nat, q2: nat, c: CExpr, thn: CBody) returns (s: CStmt)
    requires Ended(t) && p + 1 < |t| && q < |t| && q2 < |t| && t[p] == Ident("if") && t[p + 1] == Punct("(")
    requires ExprOk(c) && ParseCond(t, p + 1) == Some((Meaning(c), q)) && Slice(t, p + 1, q, SpellCond(c))
    requires FoundBody(t, q, ParseBody(t, q), thn) && ParseBody(t, q).value.1 == q2 && t[q2] != Ident("else")
    ensures FoundStmt(t, p, ParseStmt(t, p), s)
  {
    hide ParseCond, ParseBody, SpellCond, SpellBody, ExprOk, BodyOk, BodyMeaning, Slice;
    s := IfOf(c, thn, None);
    OneTok(t, p);
    assert SpellBody(thn) + SpellElse(s) == SpellBody(thn);
    Joined(t, p + 1, q, q2, SpellCond(c), SpellBody(thn));
    Joined(t, p, p + 1, q2, [t[p]], SpellCond(c) + SpellBody(thn));
    IfThenStep(t, p, s, q, q2);
  }

  lemma {:induction false} WhileFound(t: seq<Tok>, p: nat) returns (s: CStmt)
    requires Ended(t) && p < |t| && t[p] == Ident("while") && t[p + 1] != Punct("[") && ParseStmt(t, p).Some?
    ensures FoundStmt(t, p, ParseStmt(t, p), s)
    decreases |t| - p, 0
  {
    hide ParseCond, ParseBody, SpellCond, SpellBody, ExprOk, BodyOk, BodyMeaning, Slice;
    NotLast(t, p);
    OneTok(t, p);
    var c := CondFound(t, p + 1);
    var q := ParseCond(t, p + 1).value.1;
    var body := BodyFound(t, q);
    var q2 := ParseBody(t, q).value.1;
    s := WhileOf(c, body);
    Joined(t, p + 1, q, q2, SpellCond(c), SpellBody(body));
    Joined(t, p, p + 1, q2, [t[p]], SpellCond(c) + SpellBody(body));
  }

  lemma {:induction false} ForFound(t: seq<Tok>, p: nat) returns (s: CStmt)
    requires Ended(t) && p < |t| && t[p] == Ident("for") && t[p + 1] != Punct("[") && ParseStmt(t, p).Some?
    ensures FoundStmt(t, p, ParseStmt(t, p), s)
    decreases |t| - p, 0
  {
    hide ParseSimple, ParseExpr, ParseBody, FoundSimple, FoundBody, FoundStmt, Spell, Slice;
    NotLast(t, p);
    assert ParseStmt(t, p) == ParseFor(t, p + 1);
    assert t[p + 1] == Punct("(");
    NotLast(t, p + 1);
    var init := SimpleFound(t, p + 2);
    var q := ParseSimple(t, p + 2).value.1;
    NotLast(t, q);
    var c := ExprFound(t, q + 1);
    var q2 := ParseExpr(t, q + 1).value.1;
    NotLast(t, q2);
    var step := SimpleFound(t, q2 + 1);
    var q3 := ParseSimple(t, q2 + 1).value.1;
    NotLast(t, q3);
    var body := BodyFound(t, q3 + 1);
    s := ForFoundAt(t, p, q, q2, q3, init, c, step, body);
  }

  lemma {:induction false} ForFoundAt(t: seq<Tok>, p: nat, q: nat, q2: nat, q3: nat, init: CStmt, c: CExpr, step: CStmt,
      body: CBody) returns (s: CStmt)
    requires Ended(t) && p + 2 < |t| && q + 1 < |t| && q2 + 1 < |t| && q3 + 1 < |t|
    requires t[p] == Ident("for") && t[p + 1] == Punct("(")
    requires FoundSimple(t, p + 2, ParseSimple(t, p + 2), init) && ParseSimple(t, p + 2).value.1 == q
    requires t[q] == Punct(";") && ExprOk(c) && Slice(t, q + 1, q2, Spell(c))
    requires ParseExpr(t, q + 1) == Some((Meaning(c), q2)) && t[q2] == Punct(";")
    requires FoundSimple(t, q2 + 1, ParseSimple(t, q2 + 1), step) && ParseSimple(t, q2 + 1).value.1 == q3
    requires t[q3] == Punct(")") && FoundBody(t, q3 + 1, ParseBody(t, q3 + 1), body)
    ensures FoundStmt(t, p, ParseStmt(t, p), s)
  {
    hide ParseSimple, ParseExpr, ParseBody, ParseStmt, SpellSimple, Spell, SpellBody, ExprOk, SimpleOk, BodyOk, Slice,
      BodyMeaning, Meaning;
    s := ForOf(init, c, step, body);
    var q4 := ParseBody(t, q3 + 1).value.1;
    var a, b, d, e := SpellSimple(init), Spell(c), SpellSimple(step), SpellBody(body);
    OneTok(t, q); OneTok(t, q2); OneTok(t, q3);
    TwoToks(t, p);
    Joined(t, q3, q3 + 1, q4, [t[q3]], e);
    Joined(t, q2 + 1, q3, q4, d, [t[q3]] + e);
    Joined(t, q2, q2 + 1, q4, [t[q2]], d + ([t[q3]] + e));
    Joined(t, q + 1, q2, q4, b, [t[q2]] + (d + ([t[q3]] + e)));
    Joined(t, q, q + 1, q4, [t[q]], b + ([t[q2]] + (d + ([t[q3]] + e))));
    Joined(t, p + 2, q, q4, a, [t[q]] + (b + ([t[q2]] + (d + ([t[q3]] + e)))));
    Joined(t, p, p + 2, q4, [t[p], t[p + 1]], a + ([t[q]] + (b + ([t[q2]] + (d + ([t[q3]] + e))))));
    CcProgramPrinter.ForStep(t, p, StmtMeaning(s), q, q2, q3, q4);
  }

  lemma {:induction false} BodyFound(t: seq<Tok>, p: nat) returns (b: CBody)
    requires Ended(t) && p < |t| && ParseBody(t, p).Some?
    ensures FoundBody(t, p, ParseBody(t, p), b)
    decreases |t| - p, 2
  {
    hide ParseStmts, ParseStmt, SpellStmts, StmtsOk;
    if t[p] == Punct("{") {
      var ss := StmtsFound(t, p + 1);
      b := Block(ss);
      OneTok(t, p);
      Joined(t, p, p + 1, ParseStmts(t, p + 1).value.1, [t[p]], SpellStmts(ss) + [Punct("}")]);
    } else {
      var s := StmtFound(t, p);
      b := Single(s);
    }
  }

  ghost predicate FoundStmts(t: seq<Tok>, p: nat, r: Parsed<seq<Stmt>>, ss: seq<CStmt>) {
    r.Some? && StmtsOk(ss) && StmtsMeaning(ss) == r.value.0 && Slice(t, p, r.value.1, SpellStmts(ss) + [Punct("}")])
  }

  lemma {:induction false} StmtsFound(t: seq<Tok>, p: nat) returns (ss: seq<CStmt>)
    requires Ended(t) && p < |t| && ParseStmts(t, p).Some?
    ensures FoundStmts(t, p, ParseStmts(t, p), ss)
    decreases |t| - p, 2
  {
    hide ParseStmt, FoundStmt;
    if t[p] == Punct("}") {
      ss := [];
      NotLast(t, p);
      OneTok(t, p);
      assert SpellStmts(ss) + [Punct("}")] == [Punct("}")];
    } else {
      var s := StmtFound(t, p);
      var rest := StmtsFound(t, ParseStmt(t, p).value.1);
      ss := MoreFound(t, p, s, rest);
    }
  }

  lemma {:induction false} MoreFound(t: seq<Tok>, p: nat, s: CStmt, rest: seq<CStmt>) returns (ss: seq<CStmt>)
    requires Ended(t) && p < |t| && t[p] != Punct("}") && ParseStmts(t, p).Some?
    requires FoundStmt(t, p, ParseStmt(t, p), s)
    requires FoundStmts(t, ParseStmt(t, p).value.1, ParseStmts(t, ParseStmt(t, p).value.1), rest)
    ensures FoundStmts(t, p, ParseStmts(t, p), ss)
  {
    hide ParseStmt, SpellStmt, StmtOk, OpenStmt, StmtMeaning;
    var q, r, close := ParseStmt(t, p).value.1, ParseStmts(t, p).value.1, [Punct("}")];
    ss := [s] + rest;
    assert ss[1..] == rest;
    Joined(t, p, q, r, SpellStmt(s), SpellStmts(rest) + close);
    assert SpellStmts(ss) + close == SpellStmt(s) + (SpellStmts(rest) + close);
    if rest != [] {
      NextFirst(rest, close);
      assert t[q..r][0] == t[q];
    }
  }

  // ----- functions -----

  lemma {:induction false} ParamFound(t: seq<Tok>, p: nat, comma: bool) returns (x: CParam)
    requires Ended(t) && p < |t| && t[p] != Ident("void") && ParseParam(t, p).Some?
    ensures TypeOk(x.ty) && (x.ty.quals == [] ==> x.ty.base != "void") && x.comma == comma
    ensures var (y, q) := ParseParam(t, p).value;
            y == Param(x.x, KindOfType(x.ty, x.dim.Some?)) && p < q && Slice(t, p, q, SpellParam(x))
  {
    hide ParseDim, DimToks, TypeToks, ParseType;
    var ty := TypeFound(t, p);
    var q := ParseType(t, p).value.1;
    NotLast(t, q);
    OneTok(t, q);
    DimFound(t, q + 1);
    var (dim, q2) := ParseDim(t, q + 1).value;
    x := CParam(ty, t[q].name, dim, comma);
    KindAlike(ty, dim.Some?);
    Joined(t, q, q + 1, q2, [t[q]], DimToks(dim));
    Joined(t, p, q, q2, TypeToks(ty), [t[q]] + DimToks(dim));
    BaseFirst(ty);
    assert t[p..q][0] == t[p];
  }

  lemma {:induction false} BaseFirst(ty: CType)
    ensures ty.quals == [] ==> TypeToks(ty)[0] == Ident(ty.base)
  {
  }

  lemma {:induction false} ParamsFound(t: seq<Tok>, p: nat) returns (ps: seq<CParam>, closed: bool)
    requires Ended(t) && p < |t| && ParseParams(t, p).Some?
    ensures var (xs, q) := ParseParams(t, p).value;
            ParamsOk(ps) && ParamMeanings(ps) == xs && Slice(t, p, q, SpellParams(ps) + Void(closed))
    decreases |t| - p
  {
    hide ParseParam, SpellParam, TypeOk;
    if t[p] == Punct(")") {
      ps, closed := [], false;
    } else if t[p] == Ident("void") {
      ps, closed := [], true;
      NotLast(t, p);
      OneTok(t, p);
      assert SpellParams(ps) + Void(closed) == [Ident("void")];
    } else {
      var q := ParseParam(t, p).value.1;
      var comma := t[q] == Punct(",");
      var x := ParamFound(t, p, comma);
      if comma { NotLast(t, q); }
      var rest;
      rest, closed := ParamsFound(t, if comma then q + 1 else q);
      ps := [x] + rest;
      assert ps[1..] == rest;
      ParamJoined(t, p, q, ParseParams(t, p).value.1, x, rest, closed);
    }
  }

  lemma {:induction false} ParamJoined(t: seq<Tok>, p: nat, q: nat, r: nat, x: CParam, rest: seq<CParam>, closed: bool)
    requires q + 1 < |t| && Slice(t, p, q, SpellParam(x)) && (x.comma ==> t[q] == Punct(","))
    requires Slice(t, if x.comma then q + 1 else q, r, SpellParams(rest) + Void(closed))
    ensures Slice(t, p, r, SpellParams([x] + rest) + Void(closed))
  {
    hide SpellParam;
    var ps, b := [x] + rest, if x.comma then q + 1 else q;
    assert ps[1..] == rest;
    if x.comma { OneTok(t, q); }
    Joined(t, q, b, r, Comma(x.comma), SpellParams(rest) + Void(closed));
    Joined(t, p, q, r, SpellParam(x), Comma(x.comma) + (SpellParams(rest) + Void(closed)));
    assert SpellParams(ps) + Void(closed) == SpellParam(x) + (Comma(x.comma) + (SpellParams(rest) + Void(closed)));
  }

  lemma {:induction false} FuncFound(t: seq<Tok>, p: nat) returns (f: CFunc)
    requires Ended(t) && p < |t| && ParseFunc(t, p).Some?
    ensures var (g, q) := ParseFunc(t, p).value; FuncOk(f) && FuncMeaning(f) == g && Slice(t, p, q, SpellFunc(f))
  {
    hide ParseType, ParseParams, ParseStmts, TypeToks, SpellParams, SpellStmts, TypeOk, ParamsOk, StmtsOk, Slice,
      ParamMeanings, StmtsMeaning;
    var ty := TypeFound(t, p);
    var q := ParseType(t, p).value.1;
    NotLast(t, q);
    NotLast(t, q + 1);
    TwoToks(t, q);
    var ps, closed := ParamsFound(t, q + 2);
    var q2 := ParseParams(t, q + 2).value.1;
    NotLast(t, q2);
    NotLast(t, q2 + 1);
    TwoToks(t, q2);
    var body := StmtsFound(t, q2 + 2);
    var q3 := ParseStmts(t, q2 + 2).value.1;
    f := CFunc(ty, t[q].name, ps, closed, body);
    var rest := [t[q2], t[q2 + 1]] + (SpellStmts(body) + [Punct("}")]);
    Joined(t, q2, q2 + 2, q3, [t[q2], t[q2 + 1]], SpellStmts(body) + [Punct("}")]);
    Joined(t, q + 2, q2, q3, SpellParams(ps) + Void(closed), rest);
    Joined(t, q, q + 2, q3, [t[q], t[q + 1]], SpellParams(ps) + Void(closed) + rest);
    Joined(t, p, q, q3, TypeToks(ty), [t[q], t[q + 1]] + (SpellParams(ps) + Void(closed) + rest));
    assert SpellParams(ps) + Void(closed) + rest == SpellParams(ps) + (Void(closed) + rest);
  }

  lemma {:induction false} FuncsFound(t: seq<Tok>, p: nat) returns (fs: seq<CFunc>)
    requires Ended(t) && p < |t| && ParseProgram(t, p).Some?
    ensures ProgramOk(fs) && FuncMeanings(fs) == ParseProgram(t, p).value && t[p..] == SpellFuncs(fs) + [Eof]
    decreases |t| - p
  {
    hide ParseFunc, SpellFunc, FuncOk, FuncMeaning;
    if t[p] == Eof {
      fs := [];
      assert t[p..] == [Eof];
    } else {
      var f := FuncFound(t, p);
      var q := ParseFunc(t, p).value.1;
      var rest := FuncsFound(t, q);
      fs := [f] + rest;
      assert fs[1..] == rest;
      assert t[p..] == t[p..q] + t[q..];
      assert SpellFuncs(fs) == SpellFunc(f) + SpellFuncs(rest);
    }
  }

  /** A token list is a program if and only if it is one of the program's spellings. */
  lemma {:induction false} ParsesExactly(t: seq<Tok>, fs: seq<Func>)
    requires Ended(t)
    ensures ParseProgram(t, 0) == Some(fs) <==>
            exists cs :: ProgramOk(cs) && t == SpellFuncs(cs) + [Eof] && FuncMeanings(cs) == fs
  {
    if ParseProgram(t, 0) == Some(fs) {
      var cs := FuncsFound(t, 0);
      assert t[0..] == t;
    }
    if cs :| ProgramOk(cs) && t == SpellFuncs(cs) + [Eof] && FuncMeanings(cs) == fs {
      ProgramRead(cs, t);
    }
  }
}
