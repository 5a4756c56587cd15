/** Rows of flexible boxes: breaking items into lines and sharing out the free space. */
module FlexRow {
  import opened Bytes

  datatype Justify = Start | End | Center | SpaceBetween | SpaceAround

  /** The natural size along the row, the grow factor and the width the style asks for. */
  datatype Item = Item(main: int, grow: nat, width: Option<int>)

  /** An item as it is measured: at least one pixel wide, and as wide as the style asks. */
  predicate Measured(fi: Item) {
    fi.main >= 1
    && (fi.width.Some? ==> 0 <= fi.width.value && fi.main == if fi.width.value > 1 then fi.width.value else 1)
  }

  predicate AllMeasured(fis: seq<Item>) { forall i | 0 <= i < |fis| :: Measured(fis[i]) }

  predicate Indices(fis: seq<Item>, line: seq<nat>) { forall k | 0 <= k < |line| :: line[k] < |fis| }

  function MainSum(fis: seq<Item>, line: seq<nat>): (r: int)
    requires Indices(fis, line)
  {
    if line == [] then 0 else MainSum(fis, line[..|line| - 1]) + fis[line[|line| - 1]].main
  }

  function GrowSum(fis: seq<Item>, line: seq<nat>): (r: nat)
    requires Indices(fis, line)
  {
    if line == [] then 0 else GrowSum(fis, line[..|line| - 1]) + fis[line[|line| - 1]].grow
  }

  /** The width a line takes before any free space is shared out. */
  function Natural(fis: seq<Item>, line: seq<nat>, gap: nat): int
    requires Indices(fis, line)
  {
    MainSum(fis, line) + if line == [] then 0 else gap * (|line| - 1)
  }

  // ----- breaking into lines -----

  function Flatten(lines: seq<seq<nat>>): seq<nat> {
    if lines == [] then [] else Flatten(lines[..|lines| - 1]) + lines[|lines| - 1]
  }

  function Upto(n: nat): (r: seq<nat>)
    ensures |r| == n && forall i | 0 <= i < n :: r[i] == i
  {
    seq(n, i => i)
  }

  /** A finished line: it is not empty, it fits or is a single item, and the item `next` that
      starts the line behind it would not have fitted. */
  ghost predicate Full(fis: seq<Item>, line: seq<nat>, next: nat, gap: nat, w: int) {
    && line != [] && Indices(fis, line) && next < |fis|
    && (|line| > 1 ==> Natural(fis, line, gap) <= w)
    && Natural(fis, line, gap) + gap + fis[next].main > w
  }

  lemma {:induction false} NaturalSnoc(fis: seq<Item>, line: seq<nat>, i: nat, gap: nat)
    requires Indices(fis, line) && i < |fis|
    ensures Indices(fis, line + [i])
    ensures Natural(fis, line + [i], gap) == Natural(fis, line, gap) + fis[i].main + if line == [] then 0 else gap
  {
    assert (line + [i])[..|line|] == line;
    if line != [] {
      assert gap * |line| == gap * (|line| - 1) + gap;
    }
  }

  lemma {:induction false} FlattenSnoc(lines: seq<seq<nat>>, line: seq<nat>)
    ensures Flatten(lines + [line]) == Flatten(lines) + line
  {
    assert (lines + [line])[..|lines|] == lines;
  }

  /** Lines that fit, each of them full before the next one starts. */
  ghost predicate LinesOk(fis: seq<Item>, lines: seq<seq<nat>>, gap: nat, w: int, wrap: bool) {
    && (forall k | 0 <= k < |lines| :: lines[k] != [] && Indices(fis, lines[k]))
    && (!wrap ==> |lines| <= 1)
    && (wrap ==> forall k | 0 <= k < |lines| && |lines[k]| > 1 :: Natural(fis, lines[k], gap) <= w)
    && (wrap ==> forall k | 0 <= k < |lines| - 1 :: Full(fis, lines[k], lines[k + 1][0], gap, w))
  }

  /** The line being filled, behind the finished ones. */
  ghost predicate Filling(fis: seq<Item>, lines: seq<seq<nat>>, cur: seq<nat>, gap: nat, w: int, wrap: bool) {
    && LinesOk(fis, lines, gap, w, wrap) && Indices(fis, cur) && (!wrap ==> lines == [])
    && (wrap && |cur| > 1 ==> Natural(fis, cur, gap) <= w)
    && (wrap && lines != [] ==> cur != [] && Full(fis, lines[|lines| - 1], cur[0], gap, w))
  }

  lemma {:induction false} LineDone(fis: seq<Item>, lines: seq<seq<nat>>, cur: seq<nat>, gap: nat, w: int, wrap: bool)
    requires Filling(fis, lines, cur, gap, w, wrap) && cur != []
    ensures LinesOk(fis, lines + [cur], gap, w, wrap)
  {
    var all := lines + [cur];
    assert forall k | 0 <= k < |lines| :: all[k] == lines[k];
  }

  /** Item `i` goes on the line if it fits or nothing is there yet. */
  lemma {:induction false} ItemJoins(fis: seq<Item>, lines: seq<seq<nat>>, cur: seq<nat>, i: nat, gap: nat, w: int,
      wrap: bool)
    requires Filling(fis, lines, cur, gap, w, wrap) && i < |fis|
    requires wrap && cur != [] ==> Natural(fis, cur, gap) + gap + fis[i].main <= w
    requires cur == [] ==> lines == []
    ensures Filling(fis, lines, cur + [i], gap, w, wrap)
  {
    NaturalSnoc(fis, cur, i, gap);
    if cur != [] { assert (cur + [i])[0] == cur[0]; }
  }

  lemma {:induction false} ItemStarts(fis: seq<Item>, lines: seq<seq<nat>>, cur: seq<nat>, i: nat, gap: nat, w: int)
    requires Filling(fis, lines, cur, gap, w, true) && i < |fis| && cur != []
    requires Natural(fis, cur, gap) + gap + fis[i].main > w
    ensures Filling(fis, lines + [cur], [i], gap, w, true)
  {
    LineDone(fis, lines, cur, gap, w, true);
  }

  /** The items in lines: all of them, in order, and a new line only where the wrapping row is
      full. */
  method Break(fis: seq<Item>, gap: nat, w: int, wrap: bool) returns (lines: seq<seq<nat>>)
    requires AllMeasured(fis)
    ensures Flatten(lines) == Upto(|fis|) && LinesOk(fis, lines, gap, w, wrap)
  {
    hide LinesOk, Full, Flatten, Filling, Natural, MainSum;
    lines := [];
    var cur: seq<nat> := [];
    var curMain := 0;
    NothingYet(fis, gap, w, wrap);
    for i := 0 to |fis|
      invariant Indices(fis, cur) && Filling(fis, lines, cur, gap, w, wrap) &&
                curMain == Natural(fis, cur, gap) && (i > 0 ==> cur != [])
      invariant Flatten(lines) + cur == Upto(i) && (i == 0 ==> lines == [])
    {
      ghost var before := Flatten(lines) + cur;
      var add := fis[i].main + if cur == [] then 0 else gap;
      NaturalSnoc(fis, cur, i, gap);
      if wrap && cur != [] && curMain + add > w {
        ItemStarts(fis, lines, cur, i, gap, w);
        FlattenSnoc(lines, cur);
        lines := lines + [cur];
        cur := [];
        curMain := 0;
      } else {
        ItemJoins(fis, lines, cur, i, gap, w, wrap);
      }
      NaturalSnoc(fis, cur, i, gap);
      assert Flatten(lines) + (cur + [i]) == before + [i] == Upto(i + 1);
      assert cur == [] ==> cur + [i] == [i];
      curMain := curMain + fis[i].main + if cur == [] then 0 else gap;
      cur := cur + [i];
    }
    if cur != [] {
      LineDone(fis, lines, cur, gap, w, wrap);
      FlattenSnoc(lines, cur);
      lines := lines + [cur];
    }
  }

  lemma {:induction false} NothingYet(fis: seq<Item>, gap: nat, w: int, wrap: bool)
    ensures Filling(fis, [], [], gap, w, wrap) && LinesOk(fis, [], gap, w, wrap) && Flatten([]) == [] &&
            Natural(fis, [], gap) == 0
  {
  }

  // ----- sharing out the free space -----

  /** The offset before the first item and the space added after each one. */
  function JustifyLayout(j: Justify, free: int, n: int): (r: (int, int))
    ensures n >= 1 && free >= 0 ==> r.0 >= 0 && r.1 >= 0
  {
    if free <= 0 || n <= 0 then (0, 0)
    else match j
      case Start => (0, 0)
      case End => (free, 0)
      case Center => (free / 2, 0)
      case SpaceBetween => (0, if n > 1 then free / (n - 1) else 0)
      case SpaceAround => (free / n / 2, free / n)
  }

  lemma {:induction false} DivideUp(a: nat, n: nat)
    requires n > 0
    ensures n * (a / n) <= a < n * (a / n) + n
  {
  }

  /** The spaces of a line fit into the free space, and those that are shared evenly leave
      less than one pixel per share. */
  lemma {:induction false} JustifyFits(j: Justify, free: nat, n: nat)
    requires n > 0
    ensures var (lead, between) := JustifyLayout(j, free, n);
            && lead + (n - 1) * between <= free
            && (j == SpaceBetween && n > 1 ==> free < (n - 1) * between + (n - 1))
            && (j == SpaceAround ==> free < n * between + n && lead == between / 2)
            && (j == End ==> lead == free) && (j == Center ==> lead == free / 2)
            && (j == Start || j == SpaceBetween ==> lead == 0)
            && (j == Start || j == End || j == Center ==> between == 0)
  {
    var (lead, between) := JustifyLayout(j, free, n);
    if free > 0 {
      DivideUp(free, n);
      if n > 1 { DivideUp(free, n - 1); }
      if j == SpaceAround { assert n * between == (n - 1) * between + between; }
    }
  }

  /** An item's share of the free space. */
  function Extra(free: nat, grow: nat, total: nat): nat { if total > 0 then free * grow / total else 0 }

  /** The share is in proportion to the grow factor, rounded down. */
  lemma {:induction false} ShareExactly(free: nat, grow: nat, total: nat)
    requires total > 0
    ensures total * Extra(free, grow, total) <= free * grow < total * Extra(free, grow, total) + total
  {
    DivideUp(free * grow, total);
  }

  function ExtraSum(fis: seq<Item>, line: seq<nat>, free: nat, total: nat): nat
    requires Indices(fis, line)
  {
    if line == [] then 0
    else ExtraSum(fis, line[..|line| - 1], free, total) + Extra(free, fis[line[|line| - 1]].grow, total)
  }

  /** The shares, each rounded down, never exceed the free space, and all but less than one
      pixel per item of it is used. */
  lemma {:induction false} SharesFit(fis: seq<Item>, line: seq<nat>, free: nat, total: nat)
    requires Indices(fis, line) && total > 0
    ensures total * ExtraSum(fis, line, free, total) <= free * GrowSum(fis, line)
    ensures free * GrowSum(fis, line) <= total * ExtraSum(fis, line, free, total) + |line| * (total - 1)
    decreases |line|
  {
    if line != [] {
      var init, g := line[..|line| - 1], fis[line[|line| - 1]].grow;
      var e, e1, g1, n := Extra(free, g, total), ExtraSum(fis, init, free, total), GrowSum(fis, init), |init|;
      SharesFit(fis, init, free, total);
      DivideUp(free * g, total);
      Distribute(total, e1, e);
      Distribute(free, g1, g);
      assert (n + 1) * (total - 1) == n * (total - 1) + (total - 1);
    }
  }

  lemma {:induction false} Distribute(a: nat, b: nat, c: nat)
    ensures a * (b + c) == a * b + a * c
  {
  }

  // ----- placing a line -----

  function Width(fi: Item, extra: nat): int { (if fi.width.Some? then fi.width.value else fi.main) + extra }

  /** How the free space of a line is used: before it, between its items, and per grow factor. */
  datatype Sharing = Sharing(free: nat, total: nat, lead: nat, between: nat)

  function Shared(fis: seq<Item>, line: seq<nat>, gap: nat, w: int, j: Justify): Sharing
    requires Indices(fis, line) && line != []
  {
    var left := w - Natural(fis, line, gap);
    var free: nat, total := if left > 0 then left else 0, GrowSum(fis, line);
    var (lead, between) := if total > 0 then (0, 0) else JustifyLayout(j, free, |line|);
    Sharing(free, total, lead, between)
  }

  /** How far the item after the first `k` of a line is from the start of the row. */
  function Offset(fis: seq<Item>, line: seq<nat>, gap: nat, sh: Sharing, k: nat): int
    requires Indices(fis, line) && k <= |line|
  {
    if k == 0 then sh.lead
    else Offset(fis, line, gap, sh, k - 1) + Width(fis[line[k - 1]], Extra(sh.free, fis[line[k - 1]].grow, sh.total))
         + gap + sh.between
  }

  /** Where an item of a line starts, and the width it gets. */
  function Spot(fis: seq<Item>, line: seq<nat>, gap: nat, sh: Sharing, x: int, k: nat): (int, int)
    requires Indices(fis, line) && k < |line|
  {
    (x + Offset(fis, line, gap, sh, k), Width(fis[line[k]], Extra(sh.free, fis[line[k]].grow, sh.total)))
  }

  lemma {:induction false} NextSpot(fis: seq<Item>, line: seq<nat>, gap: nat, sh: Sharing, x: int, k: nat)
    requires Indices(fis, line) && k < |line|
    ensures var width := Width(fis[line[k]], Extra(sh.free, fis[line[k]].grow, sh.total));
            && Spot(fis, line, gap, sh, x, k) == (x + Offset(fis, line, gap, sh, k), width)
            && Offset(fis, line, gap, sh, k + 1) == Offset(fis, line, gap, sh, k) + width + gap + sh.between
  {
  }

  /** The items of a line, from left to right. */
  method PlaceLine(fis: seq<Item>, line: seq<nat>, gap: nat, w: int, x: int, j: Justify)
    returns (spots: seq<(int, int)>)
    requires AllMeasured(fis) && Indices(fis, line) && line != []
    ensures |spots| == |line|
    ensures forall k | 0 <= k < |line| :: spots[k] == Spot(fis, line, gap, Shared(fis, line, gap, w, j), x, k)
  {
    var natural := MainSum(fis, line);
    var gaps := gap * (|line| - 1);
    var totalGrow := GrowSum(fis, line);
    var free := if w - natural - gaps > 0 then w - natural - gaps else 0;
    var (lead, between) := if totalGrow > 0 then (0, 0) else JustifyLayout(j, free, |line|);
    ghost var sh := Shared(fis, line, gap, w, j);
    assert sh == Sharing(free, totalGrow, lead, between);
    spots := PlaceItems(fis, line, gap, x, sh, free, totalGrow, lead, between);
  }

  method PlaceItems(fis: seq<Item>, line: seq<nat>, gap: nat, x: int, ghost sh: Sharing, free: nat, totalGrow: nat,
      lead: nat, between: nat)
    returns (spots: seq<(int, int)>)
    requires Indices(fis, line) && sh == Sharing(free, totalGrow, lead, between)
    ensures |spots| == |line| && forall k | 0 <= k < |line| :: spots[k] == Spot(fis, line, gap, sh, x, k)
  {
    hide Spot, Width, Extra;
    var px := x + lead;
    spots := [];
    for k := 0 to |line|
      invariant px == x + Offset(fis, line, gap, sh, k) - if k > 0 then gap + between else 0
      invariant |spots| == k && forall i | 0 <= i < k :: spots[i] == Spot(fis, line, gap, sh, x, i)
    {
      NextSpot(fis, line, gap, sh, x, k);
      if k > 0 {
        px := px + gap + between;
      }
      var itemW := WidthOf(fis[line[k]], free, totalGrow);
      spots := spots + [(px, itemW)];
      px := px + itemW;
    }
  }

  method WidthOf(fi: Item, free: nat, totalGrow: nat) returns (itemW: int)
    ensures itemW == Width(fi, Extra(free, fi.grow, totalGrow))
  {
    var extra := if totalGrow > 0 then free * fi.grow / totalGrow else 0;
    itemW := (if fi.width.Some? then fi.width.value else fi.main) + extra;
  }

  function Box(width: int): int { if width > 1 then width else 1 }

  /** Widths are never negative, and each box is at most the item's measure and its share. */
  lemma {:induction false} WidthBounds(fi: Item, extra: nat)
    requires Measured(fi)
    ensures 0 <= Width(fi, extra) <= Box(Width(fi, extra)) <= fi.main + extra
    ensures Width(fi, extra) == 0 <==> fi.width == Some(0) && extra == 0
  {
  }

  /** The width an item of a line gets. */
  function WidthAt(fis: seq<Item>, line: seq<nat>, sh: Sharing, k: nat): int
    requires Indices(fis, line) && k < |line|
  {
    Width(fis[line[k]], Extra(sh.free, fis[line[k]].grow, sh.total))
  }

  /** Offsets do not go down, and stay where they are exactly over items of no width with nothing put
      between them. */
  lemma {:induction false} OffsetsAscend(fis: seq<Item>, line: seq<nat>, gap: nat, sh: Sharing, k: nat, m: nat)
    requires AllMeasured(fis) && Indices(fis, line) && k <= m <= |line|
    ensures Offset(fis, line, gap, sh, k) <= Offset(fis, line, gap, sh, m)
    ensures Offset(fis, line, gap, sh, k) == Offset(fis, line, gap, sh, m) <==>
            k == m || (gap + sh.between == 0 && forall i | k <= i < m :: WidthAt(fis, line, sh, i) == 0)
    decreases m - k
  {
    if k < m {
      OffsetsAscend(fis, line, gap, sh, k, m - 1);
      WidthBounds(fis[line[m - 1]], Extra(sh.free, fis[line[m - 1]].grow, sh.total));
      assert WidthAt(fis, line, sh, m - 1) >= 0;
    }
  }

  /** Of any two items of a line the later one starts behind the box of the earlier one, unless that one
      and all between them have no width at all and nothing is put between. */
  lemma {:induction false} BoxesApart(fis: seq<Item>, line: seq<nat>, gap: nat, sh: Sharing, k: nat, m: nat)
    requires AllMeasured(fis) && Indices(fis, line) && k < m < |line|
    ensures Offset(fis, line, gap, sh, k) + Box(WidthAt(fis, line, sh, k)) <= Offset(fis, line, gap, sh, m) <==>
            !(gap + sh.between == 0 && forall i | k <= i < m :: WidthAt(fis, line, sh, i) == 0)
    ensures WidthAt(fis, line, sh, k) == 0 <==>
            fis[line[k]].width == Some(0) && Extra(sh.free, fis[line[k]].grow, sh.total) == 0
  {
    OffsetsAscend(fis, line, gap, sh, k, k + 1);
    OffsetsAscend(fis, line, gap, sh, k + 1, m);
    OffsetsAscend(fis, line, gap, sh, k, m);
    WidthBounds(fis[line[k]], Extra(sh.free, fis[line[k]].grow, sh.total));
  }

  /** Two items of width zero in a row of 102 pixels, without a gap: both one-pixel boxes stand in the
      same place. */
  lemma {:induction false} EmptyBoxesCoincide()
    ensures var fis, line := seq(2, _ => Item(1, 0, Some(0))), [0, 1];
            AllMeasured(fis) && Indices(fis, line) &&
            var sh := Shared(fis, line, 0, 102, Start);
            Box(WidthAt(fis, line, sh, 0)) == 1
            && Offset(fis, line, 0, sh, 0) == Offset(fis, line, 0, sh, 1) == 0
  {
    var fis, line := seq(2, _ => Item(1, 0, Some(0))), [0, 1];
    assert line[0] == 0 && line[1] == 1;
    assert line[..1] == [0] && [0][..0] == [];
    assert GrowSum(fis, []) == 0 && GrowSum(fis, [0]) == 0 && GrowSum(fis, line) == 0;
    var sh := Shared(fis, line, 0, 102, Start);
    assert sh.total == 0 && sh.lead == 0;
    assert Offset(fis, line, 0, sh, 0) == 0;
  }

  lemma {:induction false} OffsetBound(fis: seq<Item>, line: seq<nat>, gap: nat, sh: Sharing, k: nat)
    requires AllMeasured(fis) && Indices(fis, line) && k <= |line|
    ensures Indices(fis, line[..k])
    ensures sh.lead <= Offset(fis, line, gap, sh, k) <=
            sh.lead + MainSum(fis, line[..k]) + ExtraSum(fis, line[..k], sh.free, sh.total) + k * gap + k * sh.between
  {
    if k > 0 {
      OffsetBound(fis, line, gap, sh, k - 1);
      WidthBounds(fis[line[k - 1]], Extra(sh.free, fis[line[k - 1]].grow, sh.total));
      assert line[..k][..k - 1] == line[..k - 1];
      assert k * gap == (k - 1) * gap + gap && k * sh.between == (k - 1) * sh.between + sh.between;
    }
  }

  lemma {:induction false} SharingFits(fis: seq<Item>, line: seq<nat>, gap: nat, w: int, j: Justify)
    requires Indices(fis, line) && line != []
    ensures var sh := Shared(fis, line, gap, w, j);
            sh.lead + (|line| - 1) * sh.between + ExtraSum(fis, line, sh.free, sh.total) <= sh.free
  {
    var sh := Shared(fis, line, gap, w, j);
    if sh.total > 0 {
      SharesFit(fis, line, sh.free, sh.total);
      Cancel(sh.total, ExtraSum(fis, line, sh.free, sh.total), sh.free);
    } else {
      JustifyFits(j, sh.free, |line|);
      NoShares(fis, line, sh.free);
    }
  }

  lemma {:induction false} Cancel(t: nat, a: nat, b: nat)
    requires t > 0 && t * a <= b * t
    ensures a <= b
  {
    if a > b {
      MulMonotone(b + 1, a, t);
      assert false;
    }
  }

  lemma {:induction false} NoShares(fis: seq<Item>, line: seq<nat>, free: nat)
    requires Indices(fis, line)
    ensures ExtraSum(fis, line, free, 0) == 0
  {
    if line != [] { NoShares(fis, line[..|line| - 1], free); }
  }

  /** Every item of a line that fits lies inside the row, whatever the justification and the
      grow factors. */
  lemma {:induction false} RowFits(fis: seq<Item>, line: seq<nat>, gap: nat, w: int, j: Justify, k: nat)
    requires AllMeasured(fis) && Indices(fis, line) && k < |line| && Natural(fis, line, gap) <= w
    ensures var sh := Shared(fis, line, gap, w, j);
            0 <= Offset(fis, line, gap, sh, k) &&
            Offset(fis, line, gap, sh, k) + Box(Width(fis[line[k]], Extra(sh.free, fis[line[k]].grow, sh.total))) <= w
  {
    var sh := Shared(fis, line, gap, w, j);
    var n := |line|;
    OffsetBound(fis, line, gap, sh, k);
    WidthBounds(fis[line[k]], Extra(sh.free, fis[line[k]].grow, sh.total));
    SharingFits(fis, line, gap, w, j);
    PartBound(fis, line, sh.free, sh.total, k + 1);
    assert line[..k + 1][..k] == line[..k];
    MulMonotone(k, n - 1, gap);
    MulMonotone(k, n - 1, sh.between);
  }

  lemma {:induction false} PartBound(fis: seq<Item>, line: seq<nat>, free: nat, total: nat, k: nat)
    requires AllMeasured(fis) && Indices(fis, line) && k <= |line|
    ensures Indices(fis, line[..k])
    ensures MainSum(fis, line[..k]) <= MainSum(fis, line) &&
            ExtraSum(fis, line[..k], free, total) <= ExtraSum(fis, line, free, total)
    decreases |line| - k
  {
    if k < |line| {
      PartBound(fis, line, free, total, k + 1);
      assert line[..k + 1][..k] == line[..k];
    } else {
      assert line[..k] == line;
    }
  }

  // ----- where a line ends -----

  /** An item is as wide as it was measured, and its share wider; only one that is to have no width has just that. */
  lemma {:induction false} WidthExactly(fi: Item, extra: nat)
    requires Measured(fi)
    ensures Width(fi, extra) == if fi.width == Some(0) then extra else fi.main + extra
  {
  }

  /** No item of the line is to have no width. */
  ghost predicate AllWide(fis: seq<Item>, line: seq<nat>)
    requires Indices(fis, line)
  {
    forall k | 0 <= k < |line| :: fis[line[k]].width != Some(0)
  }

  lemma {:induction false} OffsetExactly(fis: seq<Item>, line: seq<nat>, gap: nat, sh: Sharing, k: nat)
    requires AllMeasured(fis) && Indices(fis, line) && k <= |line| && AllWide(fis, line)
    ensures Indices(fis, line[..k])
    ensures Offset(fis, line, gap, sh, k) ==
            sh.lead + MainSum(fis, line[..k]) + ExtraSum(fis, line[..k], sh.free, sh.total) + k * gap + k * sh.between
  {
    if k > 0 {
      OffsetExactly(fis, line, gap, sh, k - 1);
      WidthExactly(fis[line[k - 1]], Extra(sh.free, fis[line[k - 1]].grow, sh.total));
      assert line[..k][..k - 1] == line[..k - 1];
      assert k * gap == (k - 1) * gap + gap && k * sh.between == (k - 1) * sh.between + sh.between;
    }
  }

  /** Where the last item of a line ends. */
  function LineEnd(fis: seq<Item>, line: seq<nat>, gap: nat, sh: Sharing): int
    requires Indices(fis, line) && line != []
  {
    Offset(fis, line, gap, sh, |line| - 1) + WidthAt(fis, line, sh, |line| - 1)
  }

  lemma {:induction false} LineEndExactly(fis: seq<Item>, line: seq<nat>, gap: nat, sh: Sharing)
    requires AllMeasured(fis) && Indices(fis, line) && line != [] && AllWide(fis, line)
    ensures LineEnd(fis, line, gap, sh) ==
            sh.lead + Natural(fis, line, gap) + ExtraSum(fis, line, sh.free, sh.total) + (|line| - 1) * sh.between
  {
    var n := |line|;
    OffsetExactly(fis, line, gap, sh, n);
    assert line[..n] == line;
    assert n * gap == (n - 1) * gap + gap && n * sh.between == (n - 1) * sh.between + sh.between;
    assert gap * (n - 1) == (n - 1) * gap;
  }

  /** A line that fits begins and ends where its justification says: growing items fill the row up to less than one
      pixel each; without any, the items stand at its start, at its end, in its middle, or as far apart as whole
      pixels allow. */
  lemma {:induction false} RowFilled(fis: seq<Item>, line: seq<nat>, gap: nat, w: int, j: Justify)
    requires AllMeasured(fis) && Indices(fis, line) && line != [] && AllWide(fis, line) && Natural(fis, line, gap) <= w
    ensures var sh, n := Shared(fis, line, gap, w, j), |line|;
            var start, end := Offset(fis, line, gap, sh, 0), LineEnd(fis, line, gap, sh);
            if GrowSum(fis, line) > 0 then start == 0 && w - n < end <= w
            else
              match j
              case Start => start == 0 && end == Natural(fis, line, gap)
              case End => end == w && end - start == Natural(fis, line, gap)
              case Center => start <= w - end <= start + 1 && end - start == Natural(fis, line, gap)
              case SpaceBetween => start == 0 && (n > 1 ==> w - (n - 1) < end <= w)
              case SpaceAround => start == sh.between / 2 && w - n < end - start + sh.between <= w
  {
    var sh, n := Shared(fis, line, gap, w, j), |line|;
    LineEndExactly(fis, line, gap, sh);
    if sh.total > 0 {
      Filled(fis, line, sh.free, sh.total);
    } else {
      NoShares(fis, line, sh.free);
      JustifyFits(j, sh.free, n);
      assert n * sh.between == (n - 1) * sh.between + sh.between;
      if j == SpaceAround && sh.free > 0 { DivideUp(sh.free, n); }
      if j == SpaceBetween && n > 1 && sh.free > 0 { DivideUp(sh.free, n - 1); }
    }
  }

  lemma {:induction false} Filled(fis: seq<Item>, line: seq<nat>, free: nat, total: nat)
    requires Indices(fis, line) && line != [] && total == GrowSum(fis, line) > 0
    ensures free - |line| < ExtraSum(fis, line, free, total) <= free
  {
    var e, n := ExtraSum(fis, line, free, total), |line|;
    SharesFit(fis, line, free, total);
    Cancel(total, e, free);
    assert (e + n) * total == total * e + n * total;
    assert n * (total - 1) == n * total - n;
    if e + n <= free {
      MulMonotone(e + n, free, total);
      assert false;
    }
  }
}
