/** Whole runs of the frame allocator: no frame is handed out twice, none is lost. */
module FrameRuns {
  import opened Bytes
  import opened Frames

  datatype Block = Block(first: nat, count: nat)

  /** The bits and the cursor, and the blocks handed out and not yet given back. */
  datatype Ledger = Ledger(bits: seq<bool>, cursor: nat, live: seq<Block>)

  datatype Op = Take(count: nat) | Give(index: nat)

  ghost predicate In(b: Block, f: nat) { b.first <= f < b.first + b.count }

  ghost predicate Callable(l: Ledger, op: Op) {
    match op
    case Take(count) => count > 0
    case Give(index) => index < |l.live| && l.live[index].first + l.live[index].count <= |l.bits|
  }

  function Without<T>(s: seq<T>, i: nat): (r: seq<T>)
    requires i < |s|
  {
    s[..i] + s[i + 1..]
  }

  ghost function Step(l: Ledger, op: Op): Ledger
    requires Callable(l, op)
  {
    match op
    case Take(count) =>
      NextFitExactly(l.bits, l.cursor, count);
      (match NextFit(l.bits, l.cursor, count)
       case None => l
       case Some(first) =>
         Ledger(Marked(l.bits, first, count, true), first + count, l.live + [Block(first, count)]))
    case Give(index) =>
      var b := l.live[index];
      Ledger(Marked(l.bits, b.first, b.count, false), l.cursor, Without(l.live, index))
  }

  ghost predicate Held(live: seq<Block>, f: nat) { exists i :: 0 <= i < |live| && In(live[i], f) }

  /** A frame is in use if it is reserved or belongs to exactly one live block, never both. */
  ghost predicate Sound(l: Ledger, reserved: seq<bool>) {
    && |l.bits| == |reserved| && l.cursor <= |l.bits|
    && (forall i | 0 <= i < |l.live| :: l.live[i].count > 0 && l.live[i].first + l.live[i].count <= |l.bits|)
    && (forall i, j, f: nat | 0 <= i < j < |l.live| && In(l.live[i], f) :: !In(l.live[j], f))
    && (forall i, f: nat | 0 <= i < |l.live| && f < |reserved| && In(l.live[i], f) :: !reserved[f])
    && (forall f | 0 <= f < |l.bits| :: l.bits[f] <==> reserved[f] || Held(l.live, f))
  }

  lemma {:induction false} TakeSound(l: Ledger, reserved: seq<bool>, count: nat)
    requires Sound(l, reserved) && count > 0
    ensures Sound(Step(l, Take(count)), reserved)
  {
    NextFitExactly(l.bits, l.cursor, count);
    var r := NextFit(l.bits, l.cursor, count);
    if r.Some? {
      var b, l2 := Block(r.value, count), Step(l, Take(count));
      forall i, f: nat | 0 <= i < |l.live| && In(l.live[i], f) ensures !In(b, f) {
        if In(b, f) {
          assert Held(l.live, f);
          assert false;
        }
      }
      forall f | 0 <= f < |l.bits| ensures l2.bits[f] <==> reserved[f] || Held(l2.live, f) {
        HeldSnoc(l.live, b, f);
      }
    }
  }

  lemma {:induction false} HeldSnoc(live: seq<Block>, b: Block, f: nat)
    ensures Held(live + [b], f) <==> Held(live, f) || In(b, f)
  {
    if i :| 0 <= i < |live| && In(live[i], f) {
      assert In((live + [b])[i], f);
    }
    if In(b, f) { assert In((live + [b])[|live|], f); }
    if j :| 0 <= j < |live + [b]| && In((live + [b])[j], f) {
      assert j == |live| || In(live[j], f);
    }
  }

  lemma {:induction false} GiveSound(l: Ledger, reserved: seq<bool>, index: nat)
    requires Sound(l, reserved) && index < |l.live|
    ensures Callable(l, Give(index)) && Sound(Step(l, Give(index)), reserved)
  {
    var b, rest, l2 := l.live[index], Without(l.live, index), Step(l, Give(index));
    forall f | 0 <= f < |l.bits| ensures l2.bits[f] <==> reserved[f] || Held(rest, f) {
      if !In(b, f) {
        HeldWithout(l.live, index, f);
      } else {
        forall j | 0 <= j < |rest| ensures !In(rest[j], f) {
          assert rest[j] == l.live[if j < index then j else j + 1];
        }
      }
    }
    forall i, j, f: nat | 0 <= i < j < |rest| && In(rest[i], f) ensures !In(rest[j], f) {
      assert rest[i] == l.live[if i < index then i else i + 1] && rest[j] == l.live[if j < index then j else j + 1];
    }
    assert forall i | 0 <= i < |rest| :: rest[i] == l.live[if i < index then i else i + 1];
  }

  lemma {:induction false} HeldWithout(live: seq<Block>, index: nat, f: nat)
    requires index < |live| && !In(live[index], f)
    ensures Held(Without(live, index), f) <==> Held(live, f)
  {
    var rest := Without(live, index);
    if i :| 0 <= i < |live| && In(live[i], f) {
      assert In(rest[if i < index then i else i - 1], f);
    }
    if j :| 0 <= j < |rest| && In(rest[j], f) {
      assert In(live[if j < index then j else j + 1], f);
    }
  }

  ghost predicate CallableRun(l: Ledger, ops: seq<Op>)
    decreases |ops|
  {
    ops != [] ==> Callable(l, ops[0]) && CallableRun(Step(l, ops[0]), ops[1..])
  }

  ghost function Run(l: Ledger, ops: seq<Op>): Ledger
    requires CallableRun(l, ops)
    decreases |ops|
  {
    if ops == [] then l else Run(Step(l, ops[0]), ops[1..])
  }

  function Total(live: seq<Block>): nat { if live == [] then 0 else live[0].count + Total(live[1..]) }

  /** After any run of allocations and frees from an empty ledger, live blocks are disjoint
      from each other and from the reserved frames, and cover all other frames in use. */
  lemma {:induction false} RunsSound(l: Ledger, reserved: seq<bool>, ops: seq<Op>)
    requires Sound(l, reserved) && CallableRun(l, ops)
    ensures Sound(Run(l, ops), reserved)
    decreases |ops|
  {
    if ops != [] {
      match ops[0] {
        case Take(count) => TakeSound(l, reserved, count);
        case Give(index) => GiveSound(l, reserved, index);
      }
      RunsSound(Step(l, ops[0]), reserved, ops[1..]);
    }
  }

  /** The free frames and those of the live blocks together are always as many. */
  lemma {:induction false} StepConserves(l: Ledger, reserved: seq<bool>, op: Op)
    requires Sound(l, reserved) && Callable(l, op)
    ensures Clear(Step(l, op).bits) + Total(Step(l, op).live) == Clear(l.bits) + Total(l.live)
  {
    match op {
      case Take(count) =>
        NextFitExactly(l.bits, l.cursor, count);
        var r := NextFit(l.bits, l.cursor, count);
        if r.Some? {
          ClearMarked(l.bits, r.value, count, true);
          TotalSplit(l.live, [Block(r.value, count)]);
          assert [Block(r.value, count)][1..] == [];
        }
      case Give(index) =>
        var b := l.live[index];
        forall f | b.first <= f < b.first + b.count ensures l.bits[f] {
          assert In(b, f);
          assert Held(l.live, f);
        }
        ClearMarked(l.bits, b.first, b.count, false);
        TotalSplit(l.live[..index], l.live[index + 1..]);
        TotalSplit(l.live[..index], l.live[index..]);
        assert l.live == l.live[..index] + l.live[index..];
        assert l.live[index..][1..] == l.live[index + 1..];
    }
  }

  lemma {:induction false} TotalSplit(a: seq<Block>, b: seq<Block>)
    ensures Total(a + b) == Total(a) + Total(b)
  {
    if a == [] {
      assert a + b == b;
    } else {
      assert (a + b)[1..] == a[1..] + b;
      TotalSplit(a[1..], b);
    }
  }

  lemma {:induction false} RunsConserve(l: Ledger, reserved: seq<bool>, ops: seq<Op>)
    requires Sound(l, reserved) && CallableRun(l, ops)
    ensures Clear(Run(l, ops).bits) + Total(Run(l, ops).live) == Clear(l.bits) + Total(l.live)
    ensures Run(l, ops).live == [] ==> Run(l, ops).bits == reserved
    decreases |ops|
  {
    RunsSound(l, reserved, ops);
    if ops != [] {
      StepConserves(l, reserved, ops[0]);
      match ops[0] {
        case Take(count) => TakeSound(l, reserved, count);
        case Give(index) => GiveSound(l, reserved, index);
      }
      RunsConserve(Step(l, ops[0]), reserved, ops[1..]);
    }
  }

  // ----- addresses -----

  /** The bytes of a block in a memory that starts at `base`. */
  ghost predicate Holds(base: nat, b: Block, x: nat) { base + 4096 * b.first <= x < base + 4096 * (b.first + b.count) }

  lemma {:induction false} FrameOf(base: nat, b: Block, x: nat) returns (f: nat)
    requires Holds(base, b, x)
    ensures In(b, f) && base + 4096 * f <= x < base + 4096 * (f + 1)
  {
    f := (x - base) / 4096;
  }

  /** The frames in use at the start are those of the reserved ranges. */
  ghost predicate Reserving(reserved: seq<bool>, base: nat, ranges: seq<Range>) {
    forall f | 0 <= f < |reserved| :: reserved[f] <==> AnyReserves(base, ranges, f)
  }

  /** Every byte handed out is in the memory, and in no reserved range. */
  lemma {:induction false} BlocksInMemory(l: Ledger, reserved: seq<bool>, base: nat, size: nat, ranges: seq<Range>,
      i: nat, x: nat)
    requires Sound(l, reserved) && |l.bits| == FrameCount(size) && Reserving(reserved, base, ranges)
    requires i < |l.live| && Holds(base, l.live[i], x)
    ensures base <= x < base + size
    ensures forall k | 0 <= k < |ranges| :: !(ranges[k].start <= x < ranges[k].end)
  {
    var f := FrameOf(base, l.live[i], x);
    FrameCountExactly(size);
    assert l.live[i].first + l.live[i].count <= |l.bits|;
    assert !AnyReserves(base, ranges, f);
    forall k | 0 <= k < |ranges| ensures !(ranges[k].start <= x < ranges[k].end) {
      NotTouched(base, ranges, k, f);
    }
  }

  lemma {:induction false} NotTouched(base: nat, ranges: seq<Range>, k: nat, f: nat)
    requires k < |ranges| && !AnyReserves(base, ranges, f)
    ensures !Touches(base, ranges[k], f)
  {
    assert !Reserves(base, ranges[k], f);
  }

  /** No byte is handed out twice. */
  lemma {:induction false} BytesApart(l: Ledger, reserved: seq<bool>, base: nat, i: nat, j: nat, x: nat)
    requires Sound(l, reserved) && i < j < |l.live| && Holds(base, l.live[i], x)
    ensures !Holds(base, l.live[j], x)
  {
    if Holds(base, l.live[j], x) {
      var f := FrameOf(base, l.live[i], x);
      var g := FrameOf(base, l.live[j], x);
      assert false;
    }
  }
}
