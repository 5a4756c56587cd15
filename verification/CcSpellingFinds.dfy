/** Whatever is parsed is a spelling of what it is parsed to: expressions. */
module CcSpellingFinds {
  import opened Bytes
  import opened CcAst
  import opened CcGrammar
  import opened CcPrinter
  import opened CcSpelling
  import opened CcSpellingReads

  /** The tokens from `p` on, before `q`. */
  ghost predicate Slice(t: seq<Tok>, p: nat, q: nat, w: seq<Tok>) { p <= q < |t| && t[p..q] == w }

  lemma {:induction false} Joined(t: seq<Tok>, p: nat, q: nat, r: nat, a: seq<Tok>, b: seq<Tok>)
    requires Slice(t, p, q, a) && Slice(t, q, r, b)
    ensures Slice(t, p, r, a + b)
  {
    assert t[p..r] == t[p..q] + t[q..r];
  }

  lemma {:induction false} OneTok(t: seq<Tok>, p: nat)
    requires p + 1 < |t|
    ensures Slice(t, p, p + 1, [t[p]])
  {
  }

  lemma {:induction false} TwoToks(t: seq<Tok>, p: nat)
    requires p + 2 < |t|
    ensures Slice(t, p, p + 2, [t[p], t[p + 1]])
  {
  }

  /** A token on either side. */
  lemma {:induction false} Around(t: seq<Tok>, p: nat, q: nat, w: seq<Tok>)
    requires 0 < p && Slice(t, p, q, w) && q + 1 < |t|
    ensures Slice(t, p - 1, q + 1, [t[p - 1]] + (w + [t[q]]))
  {
    OneTok(t, p - 1);
    OneTok(t, q);
    Joined(t, p, q, q + 1, w, [t[q]]);
    Joined(t, p - 1, p, q + 1, [t[p - 1]], w + [t[q]]);
  }

  lemma {:induction false} NotLast(t: seq<Tok>, p: nat)
    requires Ended(t) && p < |t| && t[p] != Eof
    ensures p + 1 < |t|
  {
  }

  // ----- types -----

  lemma {:induction false} QualifiersFound(t: seq<Tok>, p: nat) returns (quals: seq<string>)
    requires Ended(t) && p < |t|
    ensures Slice(t, p, SkipQualifiers(t, p), Idents(quals))
    ensures forall i | 0 <= i < |quals| :: quals[i] in QUALIFIERS
    decreases |t| - p
  {
    if t[p].Ident? && t[p].name in QUALIFIERS {
      var rest := QualifiersFound(t, p + 1);
      quals := [t[p].name] + rest;
      OneTok(t, p);
      Joined(t, p, p + 1, SkipQualifiers(t, p), [t[p]], Idents(rest));
      assert Idents(quals) == [t[p]] + Idents(rest);
    } else {
      quals := [];
    }
  }

  lemma {:induction false} StarsFound(t: seq<Tok>, p: nat)
    requires Ended(t) && p < |t|
    ensures var q := SkipStars(t, p); Slice(t, p, q, Stars(q - p)) && t[q] != Punct("*")
    decreases |t| - p
  {
    if t[p] == Punct("*") {
      StarsFound(t, p + 1);
      var q := SkipStars(t, p);
      OneTok(t, p);
      Joined(t, p, p + 1, q, [t[p]], Stars(q - p - 1));
      assert Stars(q - p) == [Punct("*")] + Stars(q - p - 1);
    }
  }

  lemma {:induction false} TypeFound(t: seq<Tok>, p: nat) returns (ty: CType)
    requires Ended(t) && p < |t| && ParseType(t, p).Some?
    ensures TypeOk(ty)
    ensures var q := ParseType(t, p).value.1;
            ParseType(t, p) == Some(((ty.base == "char", ty.stars), q)) && Slice(t, p, q, TypeToks(ty))
            && t[q] != Punct("*")
  {
    var b, q := SkipQualifiers(t, p), ParseType(t, p).value.1;
    var quals := QualifiersFound(t, p);
    StarsFound(t, b + 1);
    ty := CType(quals, t[b].name, q - (b + 1));
    NotLast(t, b);
    OneTok(t, b);
    Joined(t, b, b + 1, q, [t[b]], Stars(ty.stars));
    Joined(t, p, b, q, Idents(quals), [t[b]] + Stars(ty.stars));
  }

  // ----- expressions -----

  /** What the parser found at `p` is the tree `c`, and nothing behind it continues it. */
  ghost predicate Found(t: seq<Tok>, p: nat, r: Parsed<Expr>, c: CExpr, binding: nat) {
    && r.Some? && ExprOk(c) && Binding(c) >= binding && Slice(t, p, r.value.1, Spell(c)) && Meaning(c) == r.value.0
    && Edge(c, t[r.value.1])
  }

  lemma {:induction false} OpFound(k: Tok, level: nat)
    requires level <= 4 && OpAt(k, level).Some?
    ensures var op := OpAt(k, level).value; k == Punct(Mark(op)) && OpLevel(op) == level
  {
  }

  lemma {:induction false} LevelFound(t: seq<Tok>, p: nat, level: nat) returns (c: CExpr)
    requires Ended(t) && p < |t| && level <= 5 && ParseLevel(t, p, level).Some?
    ensures Found(t, p, ParseLevel(t, p, level), c, level) && NoOp(t[ParseLevel(t, p, level).value.1], level)
    decreases |t| - p, 12 - level
  {
    hide Found;
    if level == 5 {
      c := UnaryFound(t, p);
    } else {
      var left := LevelFound(t, p, level + 1);
      var (e, q) := ParseLevel(t, p, level + 1).value;
      FoundMeans(t, p, ParseLevel(t, p, level + 1), left, level + 1);
      c := RestFound(t, p, q, level, left);
    }
  }

  lemma {:induction false} FoundMeans(t: seq<Tok>, p: nat, r: Parsed<Expr>, c: CExpr, binding: nat)
    requires Found(t, p, r, c, binding)
    ensures r.Some? && Meaning(c) == r.value.0 && Slice(t, p, r.value.1, Spell(c)) && ExprOk(c) && Binding(c) >= binding
    ensures Edge(c, t[r.value.1])
    ensures r.value.1 > p && Spell(c)[0] == t[p]
  {
    assert Spell(c)[0] == t[p..r.value.1][0];
  }

  lemma {:induction false} RestFound(t: seq<Tok>, p: nat, q: nat, level: nat, left: CExpr) returns (c: CExpr)
    requires Ended(t) && p <= q < |t| && level < 5 && ExprOk(left) && Binding(left) >= level
    requires Slice(t, p, q, Spell(left)) && Edge(left, t[q]) && NoOp(t[q], level + 1)
    requires ParseRest(t, q, level, Meaning(left)).Some?
    ensures Found(t, p, ParseRest(t, q, level, Meaning(left)), c, level)
    ensures NoOp(t[ParseRest(t, q, level, Meaning(left)).value.1], level)
    decreases |t| - q, 6
  {
    if OpAt(t[q], level).None? {
      c := left;
    } else {
      hide Found;
      NotLast(t, q);
      var right := LevelFound(t, q + 1, level + 1);
      var both := BothFound(t, p, q, level, left, right);
      c := RestFound(t, p, ParseLevel(t, q + 1, level + 1).value.1, level, both);
    }
  }

  /** An operator with both its operands. */
  lemma {:induction false} BothFound(t: seq<Tok>, p: nat, q: nat, level: nat, left: CExpr, right: CExpr)
      returns (c: CExpr)
    requires Ended(t) && p <= q && q + 1 < |t| && level < 5 && ExprOk(left) && Binding(left) >= level
    requires Slice(t, p, q, Spell(left)) && Edge(left, t[q]) && OpAt(t[q], level).Some?
    requires Found(t, q + 1, ParseLevel(t, q + 1, level + 1), right, level + 1)
    ensures ExprOk(c) && Binding(c) == level
    ensures Meaning(c) == Bin(OpAt(t[q], level).value, Meaning(left), ParseLevel(t, q + 1, level + 1).value.0)
    ensures var r := ParseLevel(t, q + 1, level + 1).value.1; p <= r < |t| && Slice(t, p, r, Spell(c)) && Edge(c, t[r])
  {
    hide Found, ParseLevel, OpAt;
    var op, r := OpAt(t[q], level).value, ParseLevel(t, q + 1, level + 1);
    OpFound(t[q], level);
    FoundMeans(t, q + 1, r, right, level + 1);
    c := Binary(op, left, right);
    OneTok(t, q);
    Joined(t, q, q + 1, r.value.1, [t[q]], Spell(right));
    Joined(t, p, q, r.value.1, Spell(left), [t[q]] + Spell(right));
  }

  lemma {:induction false} UnaryFound(t: seq<Tok>, p: nat) returns (c: CExpr)
    requires Ended(t) && p < |t| && ParseUnary(t, p).Some?
    ensures Found(t, p, ParseUnary(t, p), c, 5)
    decreases |t| - p, 5
  {
    if t[p] == Punct("-") || t[p] == Punct("!") || t[p] == Punct("*") {
      var e := UnaryFound(t, p + 1);
      c := PrefixFound(t, p, e);
    } else if t[p] == Ident("sizeof") {
      c := SizeofFound(t, p);
    } else {
      var base := PrimaryFound(t, p);
      var (e, q) := ParsePrimary(t, p).value;
      c := SubscriptsFound(t, p, q, base);
    }
  }

  lemma {:induction false} PrefixFound(t: seq<Tok>, p: nat, e: CExpr) returns (c: CExpr)
    requires Ended(t) && p < |t| && (t[p] == Punct("-") || t[p] == Punct("!") || t[p] == Punct("*"))
    requires Found(t, p + 1, ParseUnary(t, p + 1), e, 5)
    ensures Found(t, p, ParseUnary(t, p), c, 5)
  {
    c := if t[p] == Punct("-") then Minus(e) else if t[p] == Punct("!") then Bang(e) else Star(e);
    NotLast(t, p);
    OneTok(t, p);
    Joined(t, p, p + 1, ParseUnary(t, p).value.1, [t[p]], Spell(e));
  }

  lemma {:induction false} SizeofFound(t: seq<Tok>, p: nat) returns (c: CExpr)
    requires Ended(t) && p < |t| && t[p] == Ident("sizeof") && ParseUnary(t, p).Some?
    ensures Found(t, p, ParseUnary(t, p), c, 5)
    decreases |t| - p, 4
  {
    NotLast(t, p);
    var paren := t[p + 1] == Punct("(");
    var b := if paren then p + 2 else p + 1;
    if paren { NotLast(t, p + 1); }
    if IsType(t[b]) {
      c := SizeofTypeFound(t, p, b, paren);
    } else {
      var e := UnaryFound(t, b);
      c := SizeofExprFound(t, p, b, paren, e);
    }
  }

  lemma {:induction false} SizeofTypeFound(t: seq<Tok>, p: nat, b: nat, paren: bool) returns (c: CExpr)
    requires Ended(t) && p + 1 < |t| && t[p] == Ident("sizeof") && ParseUnary(t, p).Some?
    requires paren == (t[p + 1] == Punct("(")) && b == (if paren then p + 2 else p + 1) && b < |t| && IsType(t[b])
    ensures Found(t, p, ParseUnary(t, p), c, 5)
  {
    hide ParseType, TypeToks, TypeOk;
    var ty := TypeFound(t, b);
    c := SizeofType(ty, paren);
    WrappedFound(t, p, b, ParseType(t, b).value.1, TypeToks(ty), paren);
  }

  lemma {:induction false} SizeofExprFound(t: seq<Tok>, p: nat, b: nat, paren: bool, e: CExpr) returns (c: CExpr)
    requires Ended(t) && p + 1 < |t| && t[p] == Ident("sizeof") && ParseUnary(t, p).Some?
    requires paren == (t[p + 1] == Punct("(")) && b == (if paren then p + 2 else p + 1) && b < |t| && !IsType(t[b])
    requires Found(t, b, ParseUnary(t, b), e, 5)
    ensures Found(t, p, ParseUnary(t, p), c, 5)
  {
    FoundMeans(t, b, ParseUnary(t, b), e, 5);
    c := SizeofExpr(e, paren);
    WrappedFound(t, p, b, ParseUnary(t, b).value.1, Spell(e), paren);
  }

  lemma {:induction false} WrappedFound(t: seq<Tok>, p: nat, b: nat, q: nat, w: seq<Tok>, paren: bool)
    requires Ended(t) && p + 1 < |t| && b == (if paren then p + 2 else p + 1) && Slice(t, b, q, w)
    requires paren ==> t[p + 1] == Punct("(") && t[q] == Punct(")")
    ensures Slice(t, p, if paren then q + 1 else q, [t[p]] + Wrapped(w, paren))
  {
    if paren { Around(t, b, q, w); }
    OneTok(t, p);
    Joined(t, p, p + 1, if paren then q + 1 else q, [t[p]], Wrapped(w, paren));
  }

  lemma {:induction false} SubscriptsFound(t: seq<Tok>, p: nat, q: nat, base: CExpr) returns (c: CExpr)
    requires Ended(t) && p <= q < |t| && ExprOk(base) && Binding(base) >= 6 && Slice(t, p, q, Spell(base))
    requires (base.Name? ==> t[q] != Punct("(")) && ParseSubscripts(t, q, Meaning(base)).Some?
    ensures Found(t, p, ParseSubscripts(t, q, Meaning(base)), c, 6)
    decreases |t| - q, 2
  {
    hide Spell, Slice;
    if t[q] != Punct("[") {
      c := base;
      BareEdge(base, t[q]);
    } else {
      var idx := LevelFound(t, q + 1, 0);
      SubscriptFound(t, p, q, base, idx);
      c := SubscriptsFound(t, p, ParseExpr(t, q + 1).value.1 + 1, Subscript(base, idx));
    }
  }

  lemma {:induction false} SubscriptFound(t: seq<Tok>, p: nat, q: nat, base: CExpr, idx: CExpr)
    requires Ended(t) && p <= q < |t| && t[q] == Punct("[") && Slice(t, p, q, Spell(base))
    requires Found(t, q + 1, ParseExpr(t, q + 1), idx, 0) && t[ParseExpr(t, q + 1).value.1] == Punct("]")
    ensures Slice(t, p, ParseExpr(t, q + 1).value.1 + 1, Spell(Subscript(base, idx)))
    ensures Meaning(Subscript(base, idx)) == Index(Meaning(base), ParseExpr(t, q + 1).value.0)
  {
    hide ParseExpr, Found, ExprOk, Edge;
    var r := ParseExpr(t, q + 1);
    FoundMeans(t, q + 1, r, idx, 0);
    NotLast(t, r.value.1);
    Around(t, q + 1, r.value.1, Spell(idx));
    Joined(t, p, q, r.value.1 + 1, Spell(base), [t[q]] + (Spell(idx) + [t[r.value.1]]));
  }

  lemma {:induction false} BareEdge(c: CExpr, k: Tok)
    requires Binding(c) >= 6 && k != Punct("[") && (c.Name? ==> k != Punct("("))
    ensures Edge(c, k)
  {
  }

  lemma {:induction false} PrimaryFound(t: seq<Tok>, p: nat) returns (c: CExpr)
    requires Ended(t) && p < |t| && t[p] != Ident("sizeof") && ParsePrimary(t, p).Some?
    ensures var (e, q) := ParsePrimary(t, p).value;
            && ExprOk(c) && Binding(c) == 7 && Slice(t, p, q, Spell(c)) && Meaning(c) == e
            && (c.Name? ==> t[q] != Punct("("))
    decreases |t| - p, 3
  {
    NotLast(t, p);
    OneTok(t, p);
    if t[p].Punct? {
      var e := LevelFound(t, p + 1, 0);
      c := ParenFound(t, p, e);
    } else if t[p].Ident? && t[p + 1] == Punct("(") {
      NotLast(t, p + 1);
      var args := ArgsFound(t, p + 2);
      c := CallFound(t, p, args);
    } else {
      c := if t[p].IntTok? then Number(t[p].v) else if t[p].StrTok? then Text(t[p].text) else Name(t[p].name);
    }
  }

  lemma {:induction false} ParenFound(t: seq<Tok>, p: nat, e: CExpr) returns (c: CExpr)
    requires Ended(t) && p + 1 < |t| && t[p] == Punct("(") && Found(t, p + 1, ParseExpr(t, p + 1), e, 0)
    requires t[ParseExpr(t, p + 1).value.1] == Punct(")")
    ensures ExprOk(c) && c.Paren? && Meaning(c) == ParseExpr(t, p + 1).value.0
    ensures Slice(t, p, ParseExpr(t, p + 1).value.1 + 1, Spell(c))
  {
    hide ParseExpr, Found, Edge;
    var r := ParseExpr(t, p + 1);
    FoundMeans(t, p + 1, r, e, 0);
    NotLast(t, r.value.1);
    Around(t, p + 1, r.value.1, Spell(e));
    c := Paren(e);
  }

  lemma {:induction false} CallFound(t: seq<Tok>, p: nat, args: seq<Arg>) returns (c: CExpr)
    requires Ended(t) && p + 2 < |t| && t[p].Ident? && t[p] != Ident("sizeof") && t[p + 1] == Punct("(")
    requires FoundArgs(t, p + 2, ParseArgs(t, p + 2), args)
    ensures ExprOk(c) && c.CallOf? && Meaning(c) == Expr.Call(t[p].name, ParseArgs(t, p + 2).value.0)
    ensures Slice(t, p, ParseArgs(t, p + 2).value.1, Spell(c))
  {
    hide ParseArgs;
    TwoToks(t, p);
    Joined(t, p, p + 2, ParseArgs(t, p + 2).value.1, [t[p], t[p + 1]], SpellArgs(args) + [Punct(")")]);
    c := CallOf(t[p].name, args);
  }

  ghost predicate FoundArgs(t: seq<Tok>, p: nat, r: Parsed<seq<Expr>>, args: seq<Arg>) {
    r.Some? && ArgsOk(args) && Meanings(args) == r.value.0 && Slice(t, p, r.value.1, SpellArgs(args) + [Punct(")")])
  }

  lemma {:induction false} ArgsFound(t: seq<Tok>, p: nat) returns (args: seq<Arg>)
    requires Ended(t) && p < |t| && ParseArgs(t, p).Some?
    ensures FoundArgs(t, p, ParseArgs(t, p), args)
    decreases |t| - p, 14
  {
    if t[p] == Punct(")") {
      args := [];
      NotLast(t, p);
      OneTok(t, p);
      assert SpellArgs(args) + [Punct(")")] == [Punct(")")];
    } else {
      var e := LevelFound(t, p, 0);
      var q := ParseExpr(t, p).value.1;
      var comma := t[q] == Punct(",");
      if comma { NotLast(t, q); }
      var rest := ArgsFound(t, if comma then q + 1 else q);
      args := ArgFound(t, p, q, e, rest);
    }
  }

  lemma {:induction false} ArgFound(t: seq<Tok>, p: nat, q: nat, e: CExpr, rest: seq<Arg>) returns (args: seq<Arg>)
    requires Ended(t) && p < |t| && t[p] != Punct(")") && ParseArgs(t, p).Some?
    requires Found(t, p, ParseExpr(t, p), e, 0) && q == ParseExpr(t, p).value.1 < |t| && NoOp(t[q], 0)
    requires var b := if t[q] == Punct(",") then q + 1 else q; b < |t| && FoundArgs(t, b, ParseArgs(t, b), rest)
    ensures FoundArgs(t, p, ParseArgs(t, p), args)
  {
    hide Spell, ExprOk, Edge, NoOp, ParseExpr, Found;
    var comma, r := t[q] == Punct(","), ParseArgs(t, p).value.1;
    args := [Arg(e, comma)] + rest;
    assert args[1..] == rest;
    FoundMeans(t, p, ParseExpr(t, p), e, 0);
    ArgJoined(t, p, q, r, e, comma, rest);
    if rest != [] && !comma { NextArg(t, q, r, rest); }
  }

  lemma {:induction false} ArgJoined(t: seq<Tok>, p: nat, q: nat, r: nat, e: CExpr, comma: bool, rest: seq<Arg>)
    requires q + 1 < |t| && Slice(t, p, q, Spell(e)) && (comma ==> t[q] == Punct(","))
    requires Slice(t, if comma then q + 1 else q, r, SpellArgs(rest) + [Punct(")")])
    ensures Slice(t, p, r, SpellArgs([Arg(e, comma)] + rest) + [Punct(")")])
  {
    hide Spell;
    var args, close, b := [Arg(e, comma)] + rest, [Punct(")")], if comma then q + 1 else q;
    if comma { OneTok(t, q); }
    Joined(t, q, b, r, Comma(comma), SpellArgs(rest) + close);
    Joined(t, p, q, r, Spell(e), Comma(comma) + (SpellArgs(rest) + close));
    assert args[1..] == rest;
    assert SpellArgs(args) + close == Spell(e) + (Comma(comma) + (SpellArgs(rest) + close));
  }

  lemma {:induction false} NextArg(t: seq<Tok>, q: nat, r: nat, rest: seq<Arg>)
    requires rest != [] && Slice(t, q, r, SpellArgs(rest) + [Punct(")")])
    ensures q < |t| && t[q] == Spell(rest[0].e)[0]
  {
    hide Spell;
    ArgFirst(rest);
    assert t[q..r][0] == t[q];
  }

  lemma {:induction false} ArgFirst(args: seq<Arg>)
    requires args != []
    ensures SpellArgs(args) != [] && SpellArgs(args)[0] == Spell(args[0].e)[0]
  {
    hide Spell;
  }
}
