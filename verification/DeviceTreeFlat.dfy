/** Flattened trees, in the manner of section 5.4 of the Devicetree Specification, and what
    the walker finds in them. */
module DeviceTreeFlat {
  import opened Bytes
  import opened Results
  import opened DeviceTree

  datatype Prop = Prop(nameOff: Word, data: seq<Byte>)

  /** Every token may have NOP tokens before it. */
  datatype Tree = Tree(nops: nat, name: seq<Byte>, props: seq<(nat, Prop)>, children: seq<Tree>, endNops: nat)

  datatype Tok = Begin(name: seq<Byte>) | Property(p: Prop) | Nop | EndNode

  // ----- trees to tokens -----

  function Nops(n: nat): (r: seq<Tok>)
    ensures |r| == n && forall i | 0 <= i < n :: r[i] == Nop
  {
    seq(n, _ => Nop)
  }

  function PropToks(ps: seq<(nat, Prop)>): seq<Tok> {
    if ps == [] then [] else Nops(ps[0].0) + [Property(ps[0].1)] + PropToks(ps[1..])
  }

  function Toks(t: Tree): seq<Tok>
    decreases t, 1
  {
    Nops(t.nops) + [Begin(t.name)] + PropToks(t.props) + ForestToks(t.children) + Nops(t.endNops) + [EndNode]
  }

  function ForestToks(ts: seq<Tree>): seq<Tok>
    decreases ts, 0
  {
    if ts == [] then [] else Toks(ts[0]) + ForestToks(ts[1..])
  }

  // ----- tokens to bytes -----

  predicate TokOk(f: Fdt, tok: Tok) {
    match tok
    case Begin(name) => 0 !in name
    case Property(p) => p.nameOff <= |f.strings| && |p.data| < 0x1_0000_0000
    case _ => true
  }

  predicate ToksOk(f: Fdt, toks: seq<Tok>) { forall i | 0 <= i < |toks| :: TokOk(f, toks[i]) }

  function Aligned(bs: seq<Byte>): (r: seq<Byte>)
    ensures |r| == Align(|bs|) && |r| >= |bs| && r[..|bs|] == bs
  {
    bs + seq(Align(|bs|) - |bs|, _ => 0)
  }

  function TokBytes(tok: Tok): seq<Byte>
    requires tok.Property? ==> |tok.p.data| < 0x1_0000_0000
  {
    match tok
    case Begin(name) => Be32(BEGIN_NODE) + Aligned(name + [0])
    case Property(p) => Be32(PROP) + Be32(|p.data|) + Be32(p.nameOff) + Aligned(p.data)
    case Nop => Be32(NOP)
    case EndNode => Be32(END_NODE)
  }

  /** Data, and fewer than four zeros up to a multiple of four. */
  ghost predicate Filled(w: seq<Byte>, data: seq<Byte>) {
    |data| <= |w| < |data| + 4 && |w| % 4 == 0 && w[..|data|] == data && forall i | |data| <= i < |w| :: w[i] == 0
  }

  /** The tokens of section 5.4.1 of the Devicetree Specification, byte for byte. */
  lemma {:induction false} WireFormat(name: seq<Byte>, p: Prop)
    requires |p.data| < 0x1_0000_0000
    ensures var w := TokBytes(Begin(name)); |w| >= 4 && w[..4] == [0, 0, 0, 1] && Filled(w[4..], name + [0])
    ensures TokBytes(EndNode) == [0, 0, 0, 2] && TokBytes(Nop) == [0, 0, 0, 4] && Be32(END) == [0, 0, 0, 9]
    ensures var w := TokBytes(Property(p));
            && |w| >= 12 && w[..4] == [0, 0, 0, 3] && BigEndian(w[4..8]) == |p.data| && BigEndian(w[8..12]) == p.nameOff
            && Filled(w[12..], p.data)
  {
    hide BigEndian, Align, Filled;
    AlignedFills(name + [0]);
    AlignedFills(p.data);
    assert TokBytes(Begin(name))[4..] == Aligned(name + [0]);
    var w, len, off := TokBytes(Property(p)), Be32(|p.data|), Be32(p.nameOff);
    assert w[12..] == Aligned(p.data) && w[4..8] == len && w[8..12] == off;
    NumberOf(|p.data|);
    NumberOf(p.nameOff);
  }

  lemma {:induction false} AlignedFills(data: seq<Byte>)
    ensures Filled(Aligned(data), data)
  {
    AlignMasks(|data|);
  }

  lemma {:induction false} NumberOf(w: Word)
    ensures BigEndian(Be32(w)) == w
  {
    OneCell([], Be32(w));
    Be32RoundTrip(w);
    assert [] + Be32(w) == Be32(w);
  }

  function Flat(f: Fdt, toks: seq<Tok>): seq<Byte>
    requires ToksOk(f, toks)
  {
    if toks == [] then [] else TokBytes(toks[0]) + Flat(f, toks[1..])
  }

  function TokSize(tok: Tok): nat {
    match tok
    case Begin(name) => 4 + Align(|name| + 1)
    case Property(p) => 12 + Align(|p.data|)
    case _ => 4
  }

  function Size(toks: seq<Tok>): nat { if toks == [] then 0 else TokSize(toks[0]) + Size(toks[1..]) }

  /** The structure block is the flattening of `t`, NOP tokens and the end token. */
  ghost predicate Flattened(f: Fdt, t: Tree) {
    exists nops: nat :: FlattenedWith(f, t, nops)
  }

  ghost predicate FlattenedWith(f: Fdt, t: Tree, nops: nat) {
    ToksOk(f, Toks(t)) && ToksOk(f, Toks(t) + Nops(nops)) && f.structure == Flat(f, Toks(t) + Nops(nops)) + Be32(END)
  }

  // ----- what a property says -----

  function Named(f: Fdt, p: Prop, name: seq<Byte>): bool { PropName(f.strings, p.nameOff) == Ok(name) }

  function Lists(f: Fdt, p: Prop, name: seq<Byte>, value: seq<Byte>): bool {
    Named(f, p, name) && value in Pieces(p.data)
  }

  function AnyLists(f: Fdt, ps: seq<(nat, Prop)>, name: seq<Byte>, value: seq<Byte>): bool {
    ps != [] && (Lists(f, ps[0].1, name, value) || AnyLists(f, ps[1..], name, value))
  }

  function FirstNamed(f: Fdt, ps: seq<(nat, Prop)>, name: seq<Byte>): Option<seq<Byte>> {
    if ps == [] then None else if Named(f, ps[0].1, name) then Some(ps[0].1.data) else FirstNamed(f, ps[1..], name)
  }

  // ----- where the nodes are -----

  function NodeOff(t: Tree, off: nat): nat { off + 4 * t.nops }

  function ChildrenOff(t: Tree, off: nat): nat {
    NodeOff(t, off) + TokSize(Begin(t.name)) + Size(PropToks(t.props))
  }

  /** The offsets of the nodes that list the value, in preorder, in a tree that starts at `off`. */
  function Matches(f: Fdt, t: Tree, off: nat, name: seq<Byte>, value: seq<Byte>): seq<nat>
    decreases t, 1
  {
    (if AnyLists(f, t.props, name, value) then [NodeOff(t, off)] else [])
    + ForestMatches(f, t.children, ChildrenOff(t, off), name, value)
  }

  function ForestMatches(f: Fdt, ts: seq<Tree>, off: nat, name: seq<Byte>, value: seq<Byte>): seq<nat>
    decreases ts, 0
  {
    if ts == [] then []
    else Matches(f, ts[0], off, name, value) + ForestMatches(f, ts[1..], off + Size(Toks(ts[0])), name, value)
  }

  function FirstFrom(ms: seq<nat>, min: nat): Option<nat> {
    if ms == [] then None else if ms[0] >= min then Some(ms[0]) else FirstFrom(ms[1..], min)
  }

  /** The last node begun. */
  function LastNode(t: Tree, off: nat): nat
    decreases t, 1
  {
    LastOf(t.children, ChildrenOff(t, off), NodeOff(t, off))
  }

  function LastOf(ts: seq<Tree>, off: nat, current: nat): nat
    decreases ts, 0
  {
    if ts == [] then current else LastOf(ts[1..], off + Size(Toks(ts[0])), LastNode(ts[0], off))
  }

  // ----- the search over tokens -----

  datatype Sweep = Found(node: nat) | Through(current: nat)

  function ScanToks(f: Fdt, name: seq<Byte>, value: seq<Byte>, min: nat, toks: seq<Tok>, off: nat,
      current: nat): Sweep {
    if toks == [] then Through(current)
    else
      var tok, next := toks[0], off + TokSize(toks[0]);
      if tok.Property? && current >= min && Lists(f, tok.p, name, value) then Found(current)
      else ScanToks(f, name, value, min, toks[1..], next, if tok.Begin? then off else current)
  }

  lemma {:induction false} SizeAppend(a: seq<Tok>, b: seq<Tok>)
    ensures Size(a + b) == Size(a) + Size(b)
  {
    if a == [] {
      assert a + b == b;
    } else {
      assert (a + b)[1..] == a[1..] + b;
      SizeAppend(a[1..], b);
    }
  }

  lemma {:induction false} NopsSize(n: nat)
    ensures Size(Nops(n)) == 4 * n
  {
    if n > 0 {
      assert Nops(n)[1..] == Nops(n - 1);
      NopsSize(n - 1);
    }
  }

  lemma {:induction false} ScanAppend(f: Fdt, name: seq<Byte>, value: seq<Byte>, min: nat, a: seq<Tok>, b: seq<Tok>,
      off: nat, current: nat)
    ensures var r := ScanToks(f, name, value, min, a, off, current);
            ScanToks(f, name, value, min, a + b, off, current) ==
            if r.Found? then r else ScanToks(f, name, value, min, b, off + Size(a), r.current)
    decreases |a|
  {
    if a == [] {
      assert a + b == b;
    } else {
      assert (a + b)[1..] == a[1..] + b;
      ScanAppend(f, name, value, min, a[1..], b, off + TokSize(a[0]), if a[0].Begin? then off else current);
    }
  }

  lemma {:induction false} ScanNops(f: Fdt, name: seq<Byte>, value: seq<Byte>, min: nat, n: nat, off: nat, current: nat)
    ensures ScanToks(f, name, value, min, Nops(n), off, current) == Through(current)
  {
    if n > 0 {
      assert Nops(n)[1..] == Nops(n - 1);
      ScanNops(f, name, value, min, n - 1, off + 4, current);
    }
  }

  lemma {:induction false} ScanProps(f: Fdt, name: seq<Byte>, value: seq<Byte>, min: nat, ps: seq<(nat, Prop)>,
      off: nat, current: nat)
    ensures ScanToks(f, name, value, min, PropToks(ps), off, current) ==
            if current >= min && AnyLists(f, ps, name, value) then Found(current) else Through(current)
    decreases |ps|
  {
    if ps != [] {
      var nops, own, rest := Nops(ps[0].0), [Property(ps[0].1)], PropToks(ps[1..]);
      var at := off + Size(nops);
      ScanAppend(f, name, value, min, nops + own, rest, off, current);
      ScanAppend(f, name, value, min, nops, own, off, current);
      ScanNops(f, name, value, min, ps[0].0, off, current);
      assert own[1..] == [];
      ScanProps(f, name, value, min, ps[1..], off + Size(nops + own), current);
    }
  }

  lemma {:induction false} FirstFromAppend(a: seq<nat>, b: seq<nat>, min: nat)
    ensures FirstFrom(a + b, min) == if FirstFrom(a, min).Some? then FirstFrom(a, min) else FirstFrom(b, min)
  {
    if a == [] {
      assert a + b == b;
    } else {
      assert (a + b)[1..] == a[1..] + b;
      FirstFromAppend(a[1..], b, min);
    }
  }

  function Result0(m: Option<nat>, last: nat): Sweep { if m.Some? then Found(m.value) else Through(last) }

  /** From the start of a tree to its children: the node's own properties. */
  lemma {:induction false} ScanOwn(f: Fdt, name: seq<Byte>, value: seq<Byte>, min: nat, t: Tree, off: nat, current: nat)
    ensures var head := Nops(t.nops) + [Begin(t.name)] + PropToks(t.props);
            Size(head) == ChildrenOff(t, off) - off &&
            ScanToks(f, name, value, min, head, off, current) ==
            if NodeOff(t, off) >= min && AnyLists(f, t.props, name, value) then Found(NodeOff(t, off))
              else Through(NodeOff(t, off))
  {
    var a, b, c := Nops(t.nops), [Begin(t.name)], PropToks(t.props);
    ScanAppend(f, name, value, min, a + b, c, off, current);
    ScanAppend(f, name, value, min, a, b, off, current);
    ScanNops(f, name, value, min, t.nops, off, current);
    SizeAppend(a + b, c);
    SizeAppend(a, b);
    NopsSize(t.nops);
    assert b[1..] == [] && Size(b) == TokSize(b[0]);
    ScanProps(f, name, value, min, t.props, off + Size(a + b), NodeOff(t, off));
  }

  lemma {:induction false} TreeSize(t: Tree, off: nat)
    ensures off + Size(Toks(t)) == ChildrenOff(t, off) + Size(ForestToks(t.children)) + 4 * t.endNops + 4
  {
    var head, kids, e := Nops(t.nops) + [Begin(t.name)] + PropToks(t.props), ForestToks(t.children), Nops(t.endNops);
    SizeAppend(head + kids + e, [EndNode]);
    SizeAppend(head + kids, e);
    SizeAppend(head, kids);
    SizeAppend(Nops(t.nops) + [Begin(t.name)], PropToks(t.props));
    SizeAppend(Nops(t.nops), [Begin(t.name)]);
    NopsSize(t.nops);
    NopsSize(t.endNops);
    assert [EndNode][1..] == [] && [Begin(t.name)][1..] == [];
  }

  /** Through a whole tree: the first match from `min` on, if there is one. */
  lemma {:induction false} ScanTree(f: Fdt, name: seq<Byte>, value: seq<Byte>, min: nat, t: Tree, off: nat,
      current: nat)
    ensures ScanToks(f, name, value, min, Toks(t), off, current) ==
            Result0(FirstFrom(Matches(f, t, off, name, value), min), LastNode(t, off))
    decreases t, 1
  {
    hide ScanToks, FirstFrom, PropToks, Size, ForestToks, AnyLists;
    var head, kids, e := Nops(t.nops) + [Begin(t.name)] + PropToks(t.props), ForestToks(t.children),
      Nops(t.endNops) + [EndNode];
    var node, at := NodeOff(t, off), ChildrenOff(t, off);
    var own := if AnyLists(f, t.props, name, value) then [node] else [];
    assert Toks(t) == (head + kids) + e;
    ScanAppend(f, name, value, min, head + kids, e, off, current);
    ScanAppend(f, name, value, min, head, kids, off, current);
    ScanOwn(f, name, value, min, t, off, current);
    ScanForest(f, name, value, min, t.children, at, node);
    FirstFromAppend(own, ForestMatches(f, t.children, at, name, value), min);
    ScanEnd(f, name, value, min, t.endNops, off + Size(head + kids), LastNode(t, off));
    OwnOrNext(own, node, min);
  }

  lemma {:induction false} ScanEnd(f: Fdt, name: seq<Byte>, value: seq<Byte>, min: nat, n: nat, off: nat, current: nat)
    ensures ScanToks(f, name, value, min, Nops(n) + [EndNode], off, current) == Through(current)
  {
    ScanAppend(f, name, value, min, Nops(n), [EndNode], off, current);
    ScanNops(f, name, value, min, n, off, current);
    assert [EndNode][1..] == [];
  }

  lemma {:induction false} OwnOrNext(own: seq<nat>, node: nat, min: nat)
    requires own == [] || own == [node]
    ensures FirstFrom(own, min) == if own != [] && node >= min then Some(node) else None
  {
  }

  lemma {:induction false} ScanForest(f: Fdt, name: seq<Byte>, value: seq<Byte>, min: nat, ts: seq<Tree>, off: nat,
      current: nat)
    ensures ScanToks(f, name, value, min, ForestToks(ts), off, current) ==
            Result0(FirstFrom(ForestMatches(f, ts, off, name, value), min), LastOf(ts, off, current))
    decreases ts, 0
  {
    if ts != [] {
      var next := off + Size(Toks(ts[0]));
      ScanAppend(f, name, value, min, Toks(ts[0]), ForestToks(ts[1..]), off, current);
      ScanTree(f, name, value, min, ts[0], off, current);
      ScanForest(f, name, value, min, ts[1..], next, LastNode(ts[0], off));
      FirstFromAppend(Matches(f, ts[0], off, name, value), ForestMatches(f, ts[1..], next, name, value), min);
    }
  }
}
