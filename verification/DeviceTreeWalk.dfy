/** The walker on flattened trees: it finds each matching node once, in preorder, and reads a
    node's own properties only. */
module DeviceTreeWalk {
  import opened Bytes
  import opened Results
  import opened DeviceTree
  import opened DeviceTreeFlat

  /** The bytes `e` stand at `off`. */
  ghost predicate At(s: seq<Byte>, off: nat, e: seq<Byte>)
    decreases |e|
  {
    off <= |s| && (e != [] ==> off < |s| && s[off] == e[0] && At(s, off + 1, e[1..]))
  }

  lemma {:induction false} AtSlice(s: seq<Byte>, off: nat, e: seq<Byte>)
    ensures At(s, off, e) <==> off + |e| <= |s| && s[off..off + |e|] == e
    decreases |e|
  {
    if e != [] && off < |s| {
      AtSlice(s, off + 1, e[1..]);
      assert e == [e[0]] + e[1..];
      if off + |e| <= |s| {
        assert s[off..off + |e|][0] == s[off];
        assert s[off..off + |e|][1..] == s[off + 1..off + 1 + |e[1..]|];
      }
    }
  }

  lemma {:induction false} AtParts(s: seq<Byte>, off: nat, a: seq<Byte>, b: seq<Byte>)
    requires At(s, off, a + b)
    ensures At(s, off, a) && At(s, off + |a|, b)
    decreases |a|
  {
    if a == [] {
      assert a + b == b;
    } else {
      assert (a + b)[1..] == a[1..] + b;
      AtParts(s, off + 1, a[1..], b);
    }
  }

  lemma {:induction false} TokenAt(s: seq<Byte>, off: nat, w: Word)
    requires At(s, off, Be32(w))
    ensures Token(s, off) == Ok(w)
  {
    AtSlice(s, off, Be32(w));
    Be32RoundTrip(w);
  }

  function Tag(tok: Tok): Word {
    match tok
    case Begin(_) => BEGIN_NODE
    case Property(_) => PROP
    case Nop => NOP
    case EndNode => END_NODE
  }

  lemma {:induction false} TokenLength(f: Fdt, tok: Tok)
    requires TokOk(f, tok)
    ensures |TokBytes(tok)| == TokSize(tok) && Whole(TokSize(tok))
  {
    match tok {
      case Begin(name) =>
        WholeAlign(|name| + 1);
        WholeSum(4, Align(|name| + 1));
      case Property(p) =>
        WholeAlign(|p.data|);
        assert Whole(4) && Whole(8) && Whole(12);
        WholeSum(12, Align(|p.data|));
      case _ =>
    }
  }

  lemma {:induction false} ZeroFound(s: seq<Byte>, n: nat)
    requires n < |s| && s[n] == 0 && forall i | 0 <= i < n :: s[i] != 0
    ensures ZeroAt(s) == Some(n)
  {
  }

  lemma {:induction false} NameEnds(s: seq<Byte>, off: nat, name: seq<Byte>)
    requires off <= |s| && At(s, off, Aligned(name + [0])) && 0 !in name
    ensures ZeroAt(s[off..]) == Some(|name|)
  {
    hide ZeroAt, At;
    var bytes, named, rest := Aligned(name + [0]), name + [0], s[off..];
    AtSlice(s, off, bytes);
    forall i | 0 <= i <= |name| ensures rest[i] == named[i] {
      assert rest[i] == s[off..off + |bytes|][i] == bytes[..|named|][i];
    }
    assert forall i | 0 <= i < |name| :: named[i] == name[i] && name[i] in name;
    ZeroFound(rest, |name|);
  }

  /** Where the parts of a begin token stand. */
  lemma {:induction false} BeginParts(s: seq<Byte>, off: nat, name: seq<Byte>)
    requires At(s, off, TokBytes(Begin(name)))
    ensures At(s, off, Be32(BEGIN_NODE)) && At(s, off + 4, Aligned(name + [0])) && off + 4 <= |s|
  {
    hide At, Be32, Aligned;
    AtParts(s, off, Be32(BEGIN_NODE), Aligned(name + [0]));
    AtBound(s, off + 4, Aligned(name + [0]));
  }

  lemma {:induction false} AtBound(s: seq<Byte>, off: nat, e: seq<Byte>)
    requires At(s, off, e)
    ensures off + |e| <= |s|
  {
    AtSlice(s, off, e);
  }

  lemma {:induction false} NextBegin(s: seq<Byte>, off: nat, name: seq<Byte>)
    requires At(s, off, TokBytes(Begin(name))) && 0 !in name && Whole(off)
    ensures Next(s, off) == Ok((off + TokSize(Begin(name)), BEGIN_NODE))
  {
    hide At, Token, Align, ZeroAt, TokBytes, Be32, Aligned, Whole;
    BeginParts(s, off, name);
    TokenAt(s, off, BEGIN_NODE);
    NameEnds(s, off + 4, name);
    WholeNext(off, 4);
    AlignSum(off + 4, |name| + 1);
  }

  lemma {:induction false} WholeNext(off: nat, n: nat)
    requires Whole(off) && (n == 4 || n == 8 || n == 12)
    ensures Whole(off + n)
  {
    assert Whole(off + 4);
    assert Whole(off + 8);
  }

  /** Where the parts of a property token stand. */
  lemma {:induction false} PropParts(s: seq<Byte>, off: nat, p: Prop)
    requires |p.data| < 0x1_0000_0000 && At(s, off, TokBytes(Property(p)))
    ensures At(s, off, Be32(PROP)) && At(s, off + 4, Be32(|p.data|)) && At(s, off + 8, Be32(p.nameOff))
    ensures At(s, off + 12, Aligned(p.data)) && off + 12 <= |s|
  {
    hide At, Be32, Aligned;
    var len, name, data := Be32(|p.data|), Be32(p.nameOff), Aligned(p.data);
    AtParts(s, off, Be32(PROP) + len + name, data);
    AtParts(s, off, Be32(PROP) + len, name);
    AtParts(s, off, Be32(PROP), len);
    AtBound(s, off + 12, data);
  }

  /** The data of a property stands in front of its padding. */
  lemma {:induction false} DataAt(s: seq<Byte>, off: nat, data: seq<Byte>)
    requires At(s, off, Aligned(data))
    ensures off + |data| <= |s| && s[off..off + |data|] == data
  {
    hide At;
    var padded := Aligned(data);
    AtSlice(s, off, padded);
    assert s[off..off + |data|] == s[off..off + |padded|][..|data|];
  }

  lemma {:induction false} NextProp(f: Fdt, off: nat, p: Prop)
    requires TokOk(f, Property(p)) && At(f.structure, off, TokBytes(Property(p))) && Whole(off)
    ensures Next(f.structure, off) == Ok((off + TokSize(Property(p)), PROP))
    ensures PropData(f.structure, off) == Ok(p.data) && NameAt(f, off) == PropName(f.strings, p.nameOff)
  {
    hide At, Token, Align, Be32, Aligned, TokBytes, Whole, PropName, ZeroAt;
    var s := f.structure;
    PropParts(s, off, p);
    TokenAt(s, off, PROP);
    TokenAt(s, off + 4, |p.data|);
    TokenAt(s, off + 8, p.nameOff);
    DataAt(s, off + 12, p.data);
    WholeNext(off, 12);
    AlignSum(off + 12, |p.data|);
  }

  /** Every token is stepped over as a whole. */
  lemma {:induction false} NextTok(f: Fdt, off: nat, tok: Tok)
    requires TokOk(f, tok) && At(f.structure, off, TokBytes(tok)) && Whole(off)
    ensures Next(f.structure, off) == Ok((off + TokSize(tok), Tag(tok)))
  {
    match tok {
      case Begin(name) => NextBegin(f.structure, off, name);
      case Property(p) => NextProp(f, off, p);
      case Nop => TokenAt(f.structure, off, NOP);
      case EndNode => TokenAt(f.structure, off, END_NODE);
    }
  }

  lemma {:induction false} FlatLength(f: Fdt, toks: seq<Tok>)
    requires ToksOk(f, toks)
    ensures |Flat(f, toks)| == Size(toks) && Whole(Size(toks))
  {
    if toks != [] {
      TokenLength(f, toks[0]);
      FlatLength(f, toks[1..]);
      WholeSum(TokSize(toks[0]), Size(toks[1..]));
    }
  }

  lemma {:induction false} FlatAppend(f: Fdt, a: seq<Tok>, b: seq<Tok>)
    requires ToksOk(f, a) && ToksOk(f, b)
    ensures ToksOk(f, a + b) && Flat(f, a + b) == Flat(f, a) + Flat(f, b)
  {
    if a == [] {
      assert a + b == b;
    } else {
      assert (a + b)[1..] == a[1..] + b;
      FlatAppend(f, a[1..], b);
    }
  }

  lemma {:induction false} FindTok(f: Fdt, name: seq<Byte>, value: seq<Byte>, min: nat, off: nat, current: nat,
      tok: Tok)
    requires TokOk(f, tok) && At(f.structure, off, TokBytes(tok)) && Whole(off)
    ensures FindFrom(f, name, value, min, off, current) ==
            if tok.Property? && current >= min && Lists(f, tok.p, name, value) then Ok(Some(current))
            else FindFrom(f, name, value, min, off + TokSize(tok), if tok.Begin? then off else current)
  {
    hide At, Whole, TokBytes, TokSize, Pieces, Next;
    NextTok(f, off, tok);
    if tok.Property? { NextProp(f, off, tok.p); }
  }

  /** The first token of a run and the run behind it. */
  lemma {:induction false} FirstTok(f: Fdt, toks: seq<Tok>, off: nat)
    requires ToksOk(f, toks) && toks != [] && At(f.structure, off, Flat(f, toks)) && Whole(off)
    ensures At(f.structure, off, TokBytes(toks[0])) && ToksOk(f, toks[1..])
    ensures At(f.structure, off + TokSize(toks[0]), Flat(f, toks[1..])) && Whole(off + TokSize(toks[0]))
  {
    hide At, Whole, TokSize, TokBytes;
    TokenLength(f, toks[0]);
    WholeSum(off, TokSize(toks[0]));
    AtParts(f.structure, off, TokBytes(toks[0]), Flat(f, toks[1..]));
  }

  /** The search over bytes is the search over the tokens they spell. */
  lemma {:induction false} FindToks(f: Fdt, name: seq<Byte>, value: seq<Byte>, min: nat, toks: seq<Tok>, off: nat,
      current: nat)
    requires ToksOk(f, toks) && At(f.structure, off, Flat(f, toks)) && Whole(off)
    ensures var r := ScanToks(f, name, value, min, toks, off, current);
            FindFrom(f, name, value, min, off, current) ==
            if r.Found? then Ok(Some(r.node)) else FindFrom(f, name, value, min, off + Size(toks), r.current)
    decreases |toks|
  {
    hide FindFrom, TokBytes, TokSize;
    if toks != [] {
      FirstTok(f, toks, off);
      FindTok(f, name, value, min, off, current, toks[0]);
      FindToks(f, name, value, min, toks[1..], off + TokSize(toks[0]), if toks[0].Begin? then off else current);
    }
  }

  lemma {:induction false} FindEnds(f: Fdt, name: seq<Byte>, value: seq<Byte>, min: nat, off: nat, current: nat)
    requires At(f.structure, off, Be32(END))
    ensures FindFrom(f, name, value, min, off, current) == Ok(None)
  {
    TokenAt(f.structure, off, END);
  }

  lemma {:induction false} FindFlattened(f: Fdt, t: Tree, name: seq<Byte>, value: seq<Byte>, after: Option<nat>)
    requires Flattened(f, t)
    ensures Find(f, name, value, after) ==
            Ok(FirstFrom(Matches(f, t, 0, name, value), if after.Some? then after.value + 1 else 0))
  {
    hide FindFrom, At, Flat, Toks, Be32, ScanToks, FirstFrom, Matches;
    var nops: nat :| FlattenedWith(f, t, nops);
    var min := if after.Some? then after.value + 1 else 0;
    var toks := Toks(t) + Nops(nops);
    var flat := Flat(f, toks);
    AtSlice(f.structure, 0, flat + Be32(END));
    AtParts(f.structure, 0, flat, Be32(END));
    FlatLength(f, toks);
    ScanAppend(f, name, value, min, Toks(t), Nops(nops), 0, 0);
    ScanTree(f, name, value, min, t, 0, 0);
    ScanNops(f, name, value, min, nops, Size(Toks(t)), LastNode(t, 0));
    FindToks(f, name, value, min, toks, 0, 0);
    FindEnds(f, name, value, min, |flat|, LastNode(t, 0));
  }

  // ----- the root -----

  lemma {:induction false} RootNops(f: Fdt, n: nat, off: nat)
    requires ToksOk(f, Nops(n)) && At(f.structure, off, Flat(f, Nops(n))) && Whole(off)
    ensures RootFrom(f.structure, off) == RootFrom(f.structure, off + 4 * n)
  {
    hide At, Whole, Token;
    if n > 0 {
      FirstTok(f, Nops(n), off);
      assert Nops(n)[1..] == Nops(n - 1);
      TokenAt(f.structure, off, NOP);
      TokenBounds(f.structure, off);
      RootNops(f, n - 1, off + 4);
    }
  }

  lemma {:induction false} TokenBounds(s: seq<Byte>, off: nat)
    requires Token(s, off).Ok?
    ensures off + 4 <= |s|
  {
  }

  /** The root found is the node the tree was flattened from, whatever NOP tokens stand before it. */
  lemma {:induction false} RootFound(f: Fdt, t: Tree)
    requires Flattened(f, t)
    ensures RootFrom(f.structure, 0) == Ok(NodeOff(t, 0))
  {
    hide At, Flat, Token, RootFrom, Be32, PropToks, ForestToks;
    var nops: nat :| FlattenedWith(f, t, nops);
    var a, b := Nops(t.nops), [Begin(t.name)];
    var c := PropToks(t.props) + ForestToks(t.children) + Nops(t.endNops) + [EndNode] + Nops(nops);
    assert Toks(t) + Nops(nops) == a + (b + c);
    AtSlice(f.structure, 0, Flat(f, a + (b + c)) + Be32(END));
    AtParts(f.structure, 0, Flat(f, a + (b + c)), Be32(END));
    FlatMiddle(f, a, b + c, 0);
    NopsSize(t.nops);
    FirstTok(f, b + c, 4 * t.nops);
    RootNops(f, t.nops, 0);
    RootHere(f, t.name, 4 * t.nops);
  }

  lemma {:induction false} RootHere(f: Fdt, name: seq<Byte>, off: nat)
    requires At(f.structure, off, TokBytes(Begin(name)))
    ensures RootFrom(f.structure, off) == Ok(off)
  {
    AtParts(f.structure, off, Be32(BEGIN_NODE), Aligned(name + [0]));
    TokenAt(f.structure, off, BEGIN_NODE);
  }

  // ----- enumeration -----

  ghost predicate Ascending(ms: seq<nat>, lo: nat, hi: nat) {
    && (forall i | 0 <= i < |ms| :: lo <= ms[i] < hi)
    && (forall i, j | 0 <= i < j < |ms| :: ms[i] < ms[j])
  }

  lemma {:induction false} AscendingAppend(a: seq<nat>, b: seq<nat>, lo: nat, mid: nat, hi: nat)
    requires lo <= mid <= hi && Ascending(a, lo, mid) && Ascending(b, mid, hi)
    ensures Ascending(a + b, lo, hi)
  {
  }

  lemma {:induction false} MatchesAscend(f: Fdt, t: Tree, off: nat, name: seq<Byte>, value: seq<Byte>)
    ensures Ascending(Matches(f, t, off, name, value), off, off + Size(Toks(t)))
    decreases t, 1
  {
    var node, kids := NodeOff(t, off), ChildrenOff(t, off);
    var own := if AnyLists(f, t.props, name, value) then [node] else [];
    ForestAscends(f, t.children, kids, name, value);
    TreeSize(t, off);
    AscendingAppend(own, ForestMatches(f, t.children, kids, name, value), off, kids, off + Size(Toks(t)));
  }

  lemma {:induction false} ForestAscends(f: Fdt, ts: seq<Tree>, off: nat, name: seq<Byte>, value: seq<Byte>)
    ensures Ascending(ForestMatches(f, ts, off, name, value), off, off + Size(ForestToks(ts)))
    decreases ts, 0
  {
    if ts != [] {
      var next := off + Size(Toks(ts[0]));
      MatchesAscend(f, ts[0], off, name, value);
      ForestAscends(f, ts[1..], next, name, value);
      SizeAppend(Toks(ts[0]), ForestToks(ts[1..]));
      AscendingAppend(Matches(f, ts[0], off, name, value), ForestMatches(f, ts[1..], next, name, value),
        off, next, off + Size(ForestToks(ts)));
    }
  }

  lemma {:induction false} FirstFromAt(ms: seq<nat>, i: nat, min: nat)
    requires i <= |ms| && (forall j | 0 <= j < i :: ms[j] < min) && (i < |ms| ==> ms[i] >= min)
    ensures FirstFrom(ms, min) == if i < |ms| then Some(ms[i]) else None
  {
    if ms != [] && i > 0 {
      assert ms[0] < min;
      assert forall j | 0 <= j < i - 1 :: ms[1..][j] == ms[j + 1];
      FirstFromAt(ms[1..], i - 1, min);
    }
  }

  /** Finding, and finding again after each result, gives every node that lists the value,
      once, in preorder, and then nothing. */
  lemma {:induction false} Enumerates(f: Fdt, t: Tree, name: seq<Byte>, value: seq<Byte>, i: nat)
    requires Flattened(f, t) && i <= |Matches(f, t, 0, name, value)|
    ensures var ms := Matches(f, t, 0, name, value);
            && (forall j, k | 0 <= j < k < |ms| :: ms[j] < ms[k])
            && Find(f, name, value, if i == 0 then None else Some(ms[i - 1])) ==
               Ok(if i < |ms| then Some(ms[i]) else None)
  {
    var ms := Matches(f, t, 0, name, value);
    MatchesAscend(f, t, 0, name, value);
    FindFlattened(f, t, name, value, if i == 0 then None else Some(ms[i - 1]));
    FirstFromAt(ms, i, if i == 0 then 0 else ms[i - 1] + 1);
  }

  // ----- a node's properties -----

  /** The property search over tokens: none when they run out. */
  function PropScan(f: Fdt, name: seq<Byte>, toks: seq<Tok>): Option<Option<seq<Byte>>> {
    if toks == [] then None
    else match toks[0]
      case Property(p) => if Named(f, p, name) then Some(Some(p.data)) else PropScan(f, name, toks[1..])
      case Nop => PropScan(f, name, toks[1..])
      case _ => Some(None)
  }

  lemma {:induction false} PropScanAppend(f: Fdt, name: seq<Byte>, a: seq<Tok>, b: seq<Tok>)
    ensures PropScan(f, name, a + b) == if PropScan(f, name, a).Some? then PropScan(f, name, a)
            else PropScan(f, name, b)
  {
    if a == [] {
      assert a + b == b;
    } else {
      assert (a + b)[1..] == a[1..] + b;
      PropScanAppend(f, name, a[1..], b);
    }
  }

  lemma {:induction false} PropScanNops(f: Fdt, name: seq<Byte>, n: nat)
    ensures PropScan(f, name, Nops(n)) == None
  {
    if n > 0 {
      assert Nops(n)[1..] == Nops(n - 1);
      PropScanNops(f, name, n - 1);
    }
  }

  lemma {:induction false} PropScanOwn(f: Fdt, name: seq<Byte>, ps: seq<(nat, Prop)>)
    ensures PropScan(f, name, PropToks(ps)) == if FirstNamed(f, ps, name).Some? then Some(FirstNamed(f, ps, name))
            else None
  {
    if ps != [] {
      var nops, own, rest := Nops(ps[0].0), [Property(ps[0].1)], PropToks(ps[1..]);
      PropScanAppend(f, name, nops + own, rest);
      PropScanAppend(f, name, nops, own);
      PropScanNops(f, name, ps[0].0);
      assert own[1..] == [];
      PropScanOwn(f, name, ps[1..]);
    }
  }

  /** Behind a node's own properties comes a child or the node's end. */
  lemma {:induction false} PropScanBehind(f: Fdt, name: seq<Byte>, t: Tree, post: seq<Tok>)
    ensures PropScan(f, name, ForestToks(t.children) + (Nops(t.endNops) + [EndNode] + post)) == Some(None)
  {
    if t.children == [] {
      PropScanAppend(f, name, Nops(t.endNops), [EndNode] + post);
      PropScanNops(f, name, t.endNops);
      assert Nops(t.endNops) + [EndNode] + post == Nops(t.endNops) + ([EndNode] + post);
      assert ForestToks(t.children) + (Nops(t.endNops) + [EndNode] + post) == Nops(t.endNops) + ([EndNode] + post);
    } else {
      var kid := t.children[0];
      var after := PropToks(kid.props) + ForestToks(kid.children) + Nops(kid.endNops) + [EndNode];
      PropScanAppend(f, name, ForestToks(t.children), Nops(t.endNops) + [EndNode] + post);
      PropScanAppend(f, name, Toks(kid), ForestToks(t.children[1..]));
      assert Toks(kid) == Nops(kid.nops) + ([Begin(kid.name)] + after);
      PropScanAppend(f, name, Nops(kid.nops), [Begin(kid.name)] + after);
      PropScanNops(f, name, kid.nops);
    }
  }

  lemma {:induction false} PropBytes(f: Fdt, name: seq<Byte>, toks: seq<Tok>, off: nat)
    requires ToksOk(f, toks) && At(f.structure, off, Flat(f, toks)) && Whole(off) && PropScan(f, name, toks).Some?
    ensures PropFrom(f, name, off) == Ok(PropScan(f, name, toks).value)
    decreases |toks|
  {
    hide PropFrom, TokBytes, TokSize;
    FirstTok(f, toks, off);
    PropTok(f, name, off, toks[0]);
    if toks[0].Nop? || (toks[0].Property? && !Named(f, toks[0].p, name)) {
      PropBytes(f, name, toks[1..], off + TokSize(toks[0]));
    }
  }

  lemma {:induction false} PropTok(f: Fdt, name: seq<Byte>, off: nat, tok: Tok)
    requires TokOk(f, tok) && At(f.structure, off, TokBytes(tok)) && Whole(off)
    ensures PropFrom(f, name, off) ==
            match tok
            case Property(p) => if Named(f, p, name) then Ok(Some(p.data)) else PropFrom(f, name, off + TokSize(tok))
            case Nop => PropFrom(f, name, off + TokSize(tok))
            case _ => Ok(None)
  {
    NextTok(f, off, tok);
    if tok.Property? { NextProp(f, off, tok.p); }
  }

  /** The nodes in preorder, each with the offset of its first token. */
  function Nodes(t: Tree, off: nat): seq<(nat, Tree)>
    decreases t, 1
  {
    [(off, t)] + ForestNodes(t.children, ChildrenOff(t, off))
  }

  function ForestNodes(ts: seq<Tree>, off: nat): seq<(nat, Tree)>
    decreases ts, 0
  {
    if ts == [] then [] else Nodes(ts[0], off) + ForestNodes(ts[1..], off + Size(Toks(ts[0])))
  }

  /** `toks` holds the tokens of `sub` after `pre`. */
  ghost predicate Inside(toks: seq<Tok>, pre: seq<Tok>, sub: Tree, post: seq<Tok>) { toks == pre + Toks(sub) + post }

  lemma {:induction false} Append(a: seq<Tok>, b: seq<Tok>, c: seq<Tok>, d: seq<Tok>)
    ensures (a + b + c) + d == a + b + (c + d)
  {
  }

  lemma {:induction false} Prepend(a: seq<Tok>, b: seq<Tok>, c: seq<Tok>, d: seq<Tok>)
    ensures a + (b + c + d) == (a + b) + c + d
  {
  }

  lemma {:induction false} NodeInside(t: Tree, off: nat, n: (nat, Tree)) returns (pre: seq<Tok>, post: seq<Tok>)
    requires n in Nodes(t, off)
    ensures Inside(Toks(t), pre, n.1, post) && off + Size(pre) == n.0
    decreases t, 1
  {
    if n == (off, t) {
      pre, post := [], [];
    } else {
      assert n in ForestNodes(t.children, ChildrenOff(t, off));
      var head, e := Nops(t.nops) + [Begin(t.name)] + PropToks(t.props), Nops(t.endNops) + [EndNode];
      var pre1, post1 := ForestInside(t.children, ChildrenOff(t, off), n);
      pre, post := head + pre1, post1 + e;
      assert Toks(t) == head + ForestToks(t.children) + e;
      Prepend(head, pre1, Toks(n.1), post1);
      Append(pre, Toks(n.1), post1, e);
      HeadSize(t, off);
      SizeAppend(head, pre1);
    }
  }

  lemma {:induction false} HeadSize(t: Tree, off: nat)
    ensures off + Size(Nops(t.nops) + [Begin(t.name)] + PropToks(t.props)) == ChildrenOff(t, off)
  {
    SizeAppend(Nops(t.nops) + [Begin(t.name)], PropToks(t.props));
    SizeAppend(Nops(t.nops), [Begin(t.name)]);
    NopsSize(t.nops);
    assert [Begin(t.name)][1..] == [];
  }

  lemma {:induction false} ForestInside(ts: seq<Tree>, off: nat, n: (nat, Tree)) returns (pre: seq<Tok>, post: seq<Tok>)
    requires n in ForestNodes(ts, off)
    ensures Inside(ForestToks(ts), pre, n.1, post) && off + Size(pre) == n.0
    decreases ts, 0
  {
    var first, rest := Toks(ts[0]), ForestToks(ts[1..]);
    if n in Nodes(ts[0], off) {
      var post1;
      pre, post1 := NodeInside(ts[0], off, n);
      post := post1 + rest;
      Append(pre, Toks(n.1), post1, rest);
    } else {
      var pre1;
      pre1, post := ForestInside(ts[1..], off + Size(first), n);
      pre := first + pre1;
      Prepend(first, pre1, Toks(n.1), post);
      SizeAppend(first, pre1);
    }
  }

  /** What follows a node's begin token. */
  function Behind(n: Tree, post: seq<Tok>): seq<Tok> {
    PropToks(n.props) + (ForestToks(n.children) + (Nops(n.endNops) + [EndNode] + post))
  }

  lemma {:induction false} TreeSplit(pre: seq<Tok>, n: Tree, post: seq<Tok>)
    ensures pre + Toks(n) + post == (pre + Nops(n.nops)) + ([Begin(n.name)] + Behind(n, post))
  {
    var a, b, c, d, e := Nops(n.nops), [Begin(n.name)], PropToks(n.props), ForestToks(n.children),
      Nops(n.endNops) + [EndNode];
    assert Toks(n) == a + b + c + d + e;
    assert (a + b + c + d + e) + post == a + (b + (c + (d + (e + post))));
    assert pre + (a + (b + Behind(n, post))) == (pre + a) + (b + Behind(n, post));
  }

  /** Tokens in the middle of a structure block stand at the size of those before them. */
  lemma {:induction false} FlatMiddle(f: Fdt, a: seq<Tok>, b: seq<Tok>, off: nat)
    requires ToksOk(f, a + b) && At(f.structure, off, Flat(f, a + b)) && Whole(off)
    ensures ToksOk(f, a) && ToksOk(f, b) && At(f.structure, off, Flat(f, a)) &&
            At(f.structure, off + Size(a), Flat(f, b))
    ensures Whole(off + Size(a))
  {
    hide At, Flat, Whole;
    Parts(f, a, b);
    FlatAppend(f, a, b);
    FlatLength(f, a);
    WholeSum(off, Size(a));
    AtParts(f.structure, off, Flat(f, a), Flat(f, b));
  }

  lemma {:induction false} PropScanNode(f: Fdt, name: seq<Byte>, n: Tree, post: seq<Tok>)
    ensures PropScan(f, name, Behind(n, post)) == Some(FirstNamed(f, n.props, name))
  {
    PropScanAppend(f, name, PropToks(n.props), ForestToks(n.children) + (Nops(n.endNops) + [EndNode] + post));
    PropScanOwn(f, name, n.props);
    PropScanBehind(f, name, n, post);
  }

  lemma {:induction false} PropOfNode(f: Fdt, name: seq<Byte>, n: Tree, post: seq<Tok>, off: nat)
    requires ToksOk(f, [Begin(n.name)] + Behind(n, post)) && Whole(off)
    requires At(f.structure, off, Flat(f, [Begin(n.name)] + Behind(n, post)))
    ensures PropOf(f, off, name) == Ok(FirstNamed(f, n.props, name))
  {
    hide At, Whole, PropScan, TokBytes, TokSize, Behind;
    var begin := [Begin(n.name)];
    FlatMiddle(f, begin, Behind(n, post), off);
    FirstTok(f, begin, off);
    assert begin[1..] == [] && Size(begin) == TokSize(begin[0]);
    NextTok(f, off, begin[0]);
    PropScanNode(f, name, n, post);
    PropBytes(f, name, Behind(n, post), off + Size(begin));
  }

  /** A node's properties, read from the offset of its begin token, are its own: the first
      with the name, or none, whatever its children and the nodes around it have. */
  lemma {:induction false} ReadsOwnProperties(f: Fdt, t: Tree, n: (nat, Tree), name: seq<Byte>)
    requires Flattened(f, t) && n in Nodes(t, 0)
    ensures PropOf(f, NodeOff(n.1, n.0), name) == Ok(FirstNamed(f, n.1.props, name))
  {
    hide At, Flat, Toks, PropOf, FirstNamed, Be32, Behind, Nodes, Size;
    var nops: nat :| FlattenedWith(f, t, nops);
    var pre, post := NodeInside(t, 0, n);
    var all, before := Toks(t) + Nops(nops), pre + Nops(n.1.nops);
    assert all == pre + Toks(n.1) + (post + Nops(nops));
    TreeSplit(pre, n.1, post + Nops(nops));
    AtSlice(f.structure, 0, Flat(f, all) + Be32(END));
    AtParts(f.structure, 0, Flat(f, all), Be32(END));
    FlatMiddle(f, before, [Begin(n.1.name)] + Behind(n.1, post + Nops(nops)), 0);
    SizeAppend(pre, Nops(n.1.nops));
    NopsSize(n.1.nops);
    PropOfNode(f, name, n.1, post + Nops(nops), NodeOff(n.1, n.0));
  }

  lemma {:induction false} Parts(f: Fdt, a: seq<Tok>, b: seq<Tok>)
    requires ToksOk(f, a + b)
    ensures ToksOk(f, a) && ToksOk(f, b)
  {
    assert forall i | 0 <= i < |a| :: a[i] == (a + b)[i];
    assert forall i | 0 <= i < |b| :: b[i] == (a + b)[|a| + i];
  }

  // ----- the pieces of a property -----

  /** `value` stands between two boundaries of the data: its ends or zero bytes. */
  ghost predicate PieceAt(data: seq<Byte>, value: seq<Byte>, i: nat) {
    && i + |value| <= |data| && data[i..i + |value|] == value && 0 !in value
    && (i == 0 || data[i - 1] == 0) && (i + |value| == |data| || data[i + |value|] == 0)
  }

  lemma {:induction false} OnlyPiece(data: seq<Byte>, value: seq<Byte>)
    requires ZeroAt(data) == None
    ensures value == data <==> exists i: nat :: PieceAt(data, value, i)
  {
    if value == data {
      assert data[0..0 + |data|] == data;
      assert PieceAt(data, value, 0);
    }
    forall i: nat | PieceAt(data, value, i) ensures value == data {
      assert i == 0;
      assert |value| == |data|;
    }
  }

  lemma {:induction false} LaterPiece(data: seq<Byte>, n: nat, value: seq<Byte>, i: nat)
    requires n < |data| && data[n] == 0 && PieceAt(data[n + 1..], value, i)
    ensures PieceAt(data, value, n + 1 + i)
  {
    assert data[n + 1 + i..n + 1 + i + |value|] == data[n + 1..][i..i + |value|];
  }

  lemma {:induction false} FirstPiece(data: seq<Byte>, n: nat)
    requires ZeroAt(data) == Some(n)
    ensures PieceAt(data, data[..n], 0)
  {
  }

  /** The pieces of a property's data are what stands between zero bytes. */
  lemma {:induction false} PiecesExactly(data: seq<Byte>, value: seq<Byte>)
    ensures value in Pieces(data) <==> exists i: nat :: PieceAt(data, value, i)
    decreases |data|
  {
    hide PieceAt, ZeroAt;
    match ZeroAt(data) {
      case None => OnlyPiece(data, value);
      case Some(n) =>
        var tail := data[n + 1..];
        PiecesExactly(tail, value);
        FirstPiece(data, n);
        forall i: nat | PieceAt(tail, value, i) ensures PieceAt(data, value, n + 1 + i) {
          LaterPiece(data, n, value, i);
        }
        forall i: nat | PieceAt(data, value, i) ensures value in Pieces(data) {
          PieceSplit(data, n, value, i);
        }
    }
  }

  lemma {:induction false} PieceLength(data: seq<Byte>, n: nat, value: seq<Byte>)
    requires ZeroAt(data) == Some(n) && |value| <= |data| && data[..|value|] == value
    ensures |value| > n ==> 0 in value
    ensures |value| < n ==> data[|value|] != 0
  {
    if |value| > n { assert value[n] == 0; }
  }

  lemma {:induction false} PieceSplit(data: seq<Byte>, n: nat, value: seq<Byte>, i: nat)
    requires ZeroAt(data) == Some(n) && PieceAt(data, value, i)
    ensures value == data[..n] || (i > n && PieceAt(data[n + 1..], value, i - n - 1))
  {
    var tail := data[n + 1..];
    if i <= n {
      assert i == 0;
      PieceLength(data, n, value);
    } else {
      assert tail[i - n - 1..i - n - 1 + |value|] == data[i..i + |value|];
    }
  }
}
