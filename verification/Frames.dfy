/** The physical frame allocator: one bit per frame, next-fit search with wraparound. */
module Frames {
  import opened Bytes
  import opened BitWords

  const FRAME_SIZE: nat := 4096
  const MAX_FRAMES: nat := 0x10_0000

  /** The counter of free frames has 64 bits. */
  const COUNTER_LIMIT: nat := 0x1_0000_0000_0000_0000

  // ----- runs of free frames -----

  ghost predicate FreeRun(bits: seq<bool>, s: nat, k: nat) {
    s + k <= |bits| && forall f | s <= f < s + k :: !bits[f]
  }

  /** The lowest run of `k` free frames that starts at `s` or above. */
  ghost function Lowest(bits: seq<bool>, s: nat, k: nat): (r: Option<nat>)
    decreases |bits| - s
  {
    if s + k > |bits| then None
    else if FreeRun(bits, s, k) then Some(s)
    else if s == |bits| then None
    else Lowest(bits, s + 1, k)
  }

  /** The lowest run from the cursor on, or else the lowest of all. */
  ghost function NextFit(bits: seq<bool>, cursor: nat, k: nat): Option<nat> {
    var r := Lowest(bits, cursor, k);
    if r.Some? then r else Lowest(bits, 0, k)
  }

  lemma {:induction false} LowestIs(bits: seq<bool>, s: nat, k: nat, first: nat)
    requires s <= first && FreeRun(bits, first, k) && forall i | s <= i < first :: !FreeRun(bits, i, k)
    ensures Lowest(bits, s, k) == Some(first)
    decreases first - s
  {
    if s < first { LowestIs(bits, s + 1, k, first); }
  }

  lemma {:induction false} LowestNone(bits: seq<bool>, s: nat, k: nat)
    requires forall i: nat | s <= i :: !FreeRun(bits, i, k)
    ensures Lowest(bits, s, k) == None
    decreases |bits| - s
  {
    if s + k <= |bits| {
      assert !FreeRun(bits, s, k);
      if s < |bits| { LowestNone(bits, s + 1, k); }
    }
  }

  lemma {:induction false} LowestFound(bits: seq<bool>, s: nat, k: nat)
    ensures var r := Lowest(bits, s, k);
            if r.Some? then
              s <= r.value && FreeRun(bits, r.value, k) && forall i | s <= i < r.value :: !FreeRun(bits, i, k)
            else forall i: nat | s <= i :: !FreeRun(bits, i, k)
    decreases |bits| - s
  {
    if s + k <= |bits| && !FreeRun(bits, s, k) && s < |bits| { LowestFound(bits, s + 1, k); }
  }

  /** The search succeeds exactly when there is a run of that many free frames. */
  lemma {:induction false} NextFitExactly(bits: seq<bool>, cursor: nat, k: nat)
    ensures NextFit(bits, cursor, k).Some? <==> exists s: nat :: FreeRun(bits, s, k)
    ensures NextFit(bits, cursor, k).Some? ==> FreeRun(bits, NextFit(bits, cursor, k).value, k)
  {
    LowestFound(bits, cursor, k);
    LowestFound(bits, 0, k);
  }

  /** What is found is the lowest run from the cursor on, and only without one there the lowest of all. */
  lemma {:induction false} NextFitLowest(bits: seq<bool>, cursor: nat, k: nat, first: nat)
    ensures NextFit(bits, cursor, k) == Some(first) <==>
            && FreeRun(bits, first, k)
            && if first >= cursor then forall s: nat | cursor <= s < first :: !FreeRun(bits, s, k)
               else (forall s: nat | cursor <= s :: !FreeRun(bits, s, k))
                    && forall s: nat | s < first :: !FreeRun(bits, s, k)
  {
    LowestFound(bits, cursor, k);
    LowestFound(bits, 0, k);
  }

  // ----- counting and marking -----

  function Clear(bits: seq<bool>): nat {
    if bits == [] then 0 else Clear(bits[..|bits| - 1]) + if bits[|bits| - 1] then 0 else 1
  }

  lemma {:induction false} ClearOne(bits: seq<bool>, f: nat, b: bool)
    requires f < |bits|
    ensures Clear(bits[f := b]) == Clear(bits) + (if bits[f] then 1 else 0) - (if b then 1 else 0)
  {
    var n := |bits| - 1;
    if f < n {
      ClearOne(bits[..n], f, b);
      assert bits[f := b][..n] == bits[..n][f := b];
    } else {
      assert bits[f := b][..n] == bits[..n];
    }
  }

  /** The frames from `s` to `s + k` set or cleared. */
  function Marked(bits: seq<bool>, s: nat, k: nat, b: bool): (r: seq<bool>)
    requires s + k <= |bits|
    ensures |r| == |bits| && forall f | 0 <= f < |bits| :: r[f] == if s <= f < s + k then b else bits[f]
  {
    if k == 0 then bits else Marked(bits, s, k - 1, b)[s + k - 1 := b]
  }

  lemma {:induction false} ClearMarked(bits: seq<bool>, s: nat, k: nat, b: bool)
    requires s + k <= |bits| && forall f | s <= f < s + k :: bits[f] != b
    ensures Clear(Marked(bits, s, k, b)) == if b then Clear(bits) - k else Clear(bits) + k
  {
    if k > 0 {
      ClearMarked(bits, s, k - 1, b);
      ClearOne(Marked(bits, s, k - 1, b), s + k - 1, b);
    }
  }

  /** Freeing a run that was just marked gives the old bits back. */
  lemma {:induction false} MarkUnmark(bits: seq<bool>, s: nat, k: nat)
    requires FreeRun(bits, s, k)
    ensures Marked(Marked(bits, s, k, true), s, k, false) == bits
  {
  }

  // ----- reserved ranges -----

  datatype Range = Range(start: nat, end: nat)

  /** The frame holds a byte of the range. */
  predicate Touches(ramBase: nat, r: Range, f: nat) {
    r.start < r.end && ramBase + FRAME_SIZE * f < r.end && r.start < ramBase + FRAME_SIZE * (f + 1)
  }

  /** The frames a range takes: those it touches, and frame 0 for one that ends below the
      memory. */
  predicate Reserves(ramBase: nat, r: Range, f: nat) {
    Touches(ramBase, r, f) || (r.start < r.end <= ramBase && f == 0)
  }

  predicate AnyRange(rs: seq<Range>) { exists i :: 0 <= i < |rs| && rs[i].start < rs[i].end }

  function LastFrame(ramBase: nat, r: Range): nat {
    if r.start < r.end then Monus(r.end - 1, ramBase) / FRAME_SIZE else 0
  }

  function FrameCount(size: nat): nat {
    if size / FRAME_SIZE < MAX_FRAMES then size / FRAME_SIZE else MAX_FRAMES
  }

  /** All whole frames of 4096 bytes that are in the memory, but no more than 4 GiB have. */
  lemma {:induction false} FrameCountExactly(size: nat)
    ensures 4096 * FrameCount(size) <= size && 4096 * FrameCount(size) <= 0x1_0000_0000
    ensures 4096 * FrameCount(size) < 0x1_0000_0000 ==> size < 4096 * (FrameCount(size) + 1)
  {
  }

  predicate AnyTouches(ramBase: nat, rs: seq<Range>, f: nat) {
    exists i :: 0 <= i < |rs| && Touches(ramBase, rs[i], f)
  }

  lemma {:induction false} FirstReserved(ramBase: nat, rs: seq<Range>, i: nat)
    requires i < |rs| && rs[i].start < rs[i].end
    ensures Monus(rs[i].start, ramBase) / FRAME_SIZE <= LastFrame(ramBase, rs[i])
    ensures AnyReserves(ramBase, rs, Monus(rs[i].start, ramBase) / FRAME_SIZE)
  {
    RangeFrames(ramBase, rs[i], Monus(rs[i].start, ramBase) / FRAME_SIZE);
  }

  /** The frames reserved are exactly those touched if and only if no range that is not empty ends at or
      below the memory, or frame 0 is touched anyway. */
  lemma {:induction false} ReservesExactly(ramBase: nat, rs: seq<Range>, n: nat)
    requires n > 0
    ensures (forall f | 0 <= f < n :: AnyReserves(ramBase, rs, f) <==> AnyTouches(ramBase, rs, f)) <==>
            (AnyTouches(ramBase, rs, 0) || forall i | 0 <= i < |rs| :: !(rs[i].start < rs[i].end <= ramBase))
  {
    forall f | 0 <= f < n ensures AnyReserves(ramBase, rs, f) <==>
        AnyTouches(ramBase, rs, f) || (f == 0 && exists i :: 0 <= i < |rs| && rs[i].start < rs[i].end <= ramBase)
    {
      if i :| 0 <= i < |rs| && Touches(ramBase, rs[i], f) { assert Reserves(ramBase, rs[i], f); }
      if f == 0 {
        if i :| 0 <= i < |rs| && rs[i].start < rs[i].end <= ramBase { assert Reserves(ramBase, rs[i], 0); }
      }
    }
    assert 0 < n;
  }

  /** One byte far below the memory reserves frame 0 without touching it. */
  lemma {:induction false} BelowReservesFirst()
    ensures var ramBase, r := 0x4000_0000, Range(0, 1);
            Reserves(ramBase, r, 0) && forall f: nat :: !Touches(ramBase, r, f)
  {
  }

  lemma {:induction false} RangeFrames(ramBase: nat, r: Range, f: nat)
    requires r.start < r.end
    ensures Monus(r.start, ramBase) / FRAME_SIZE <= f <= Monus(r.end - 1, ramBase) / FRAME_SIZE <==>
            Reserves(ramBase, r, f)
  {
    var a, b := Monus(r.start, ramBase), Monus(r.end - 1, ramBase);
    assert a / FRAME_SIZE <= f <==> a < FRAME_SIZE * (f + 1);
    assert f <= b / FRAME_SIZE <==> FRAME_SIZE * f <= b;
  }

  // ----- the allocator -----

  ghost function BitsOf(bitmap: array<Word64>, n: nat): (r: seq<bool>)
    reads bitmap
    requires bitmap.Length == MAX_FRAMES / 64 && n <= MAX_FRAMES
    ensures |r| == n
  {
    seq(n, f requires 0 <= f < n && bitmap.Length == MAX_FRAMES / 64 && n <= MAX_FRAMES reads bitmap =>
      Bit(bitmap[f / 64], f % 64))
  }

  class Allocator {
    const bitmap: array<Word64>
    var ramBase: nat
    var nframes: nat
    var cursor: nat
    var free: nat

    /** One bit per frame of the memory. */
    ghost function Bits(): (r: seq<bool>)
      reads this`nframes, bitmap
      requires Shape()
      ensures |r| == nframes
    {
      BitsOf(bitmap, nframes)
    }

    /** One bit per frame of the largest memory. */
    ghost function AllBits(): (r: seq<bool>)
      reads this`nframes, bitmap
      requires Shape()
      ensures |r| == MAX_FRAMES && forall f | 0 <= f < nframes :: r[f] == Bits()[f]
    {
      BitsOf(bitmap, MAX_FRAMES)
    }

    ghost predicate Shape()
      reads this`nframes
    {
      bitmap.Length == MAX_FRAMES / 64 && nframes <= MAX_FRAMES
    }

    ghost predicate Valid()
      reads this, bitmap
    {
      Shape() && cursor <= nframes && free == Clear(Bits())
    }

    constructor ()
      ensures Shape() && cursor == 0 && nframes == 0 && fresh(bitmap)
      ensures forall k | 0 <= k < bitmap.Length :: bitmap[k] == 0
    {
      bitmap := new Word64[MAX_FRAMES / 64](_ => 0);
      nframes, ramBase, cursor, free := 0, 0, 0, 0;
    }

    method IsUsed(frame: nat) returns (used: bool)
      requires Shape() && frame < MAX_FRAMES
      ensures used == AllBits()[frame]
    {
      used := Bit(bitmap[frame / 64], frame % 64);
    }

    method Mark(frame: nat, used: bool)
      requires Shape() && frame < MAX_FRAMES
      modifies bitmap
      ensures AllBits() == old(AllBits())[frame := used]
      ensures Bits() == if frame < nframes then old(Bits())[frame := used] else old(Bits())
    {
      var word := SetBit(bitmap[frame / 64], frame % 64, used);
      bitmap[frame / 64] := word;
      forall f | 0 <= f < MAX_FRAMES ensures AllBits()[f] == old(AllBits())[frame := used][f] {
        SameBit(f, frame);
      }
      assert AllBits() == old(AllBits())[frame := used];
      forall f | 0 <= f < nframes
        ensures Bits()[f] == (if frame < nframes then old(Bits())[frame := used] else old(Bits()))[f]
      {
        assert Bits()[f] == AllBits()[f];
      }
    }

    /** Set up the frames of the memory; every frame of a reserved range is used from then on. A memory
        of less than one frame is different as soon as a range is not empty: the number of the last
        frame is below zero. A build that checks for that panics. One that does not takes every frame
        of the range, panics beyond the bitmap, and counts down from zero. */
    method Init(base: nat, size: nat, reserved: seq<Range>, checked: bool) returns (ok: bool)
      requires Shape() && cursor == 0 && forall k | 0 <= k < bitmap.Length :: bitmap[k] == 0
      modifies this, bitmap
      ensures ramBase == base && cursor == 0 && nframes == FrameCount(size)
      ensures nframes > 0 || !AnyRange(reserved) ==>
                ok && Valid() && forall f | 0 <= f < nframes :: Bits()[f] <==> AnyReserves(base, reserved, f)
      ensures nframes == 0 && AnyRange(reserved) && checked ==> !ok
      ensures nframes == 0 && AnyRange(reserved) && !checked ==>
                && (ok <==> forall i | 0 <= i < |reserved| :: LastFrame(base, reserved[i]) < MAX_FRAMES)
                && (ok ==> (forall f | 0 <= f < MAX_FRAMES :: AllBits()[f] <==> AnyReserves(base, reserved, f))
                           && free == 0x1_0000_0000_0000_0000 - (MAX_FRAMES - Clear(AllBits()))
                           && Clear(AllBits()) < MAX_FRAMES)
    {
      hide BitsOf, Clear;
      nframes := FrameCount(size);
      ramBase := base;
      free := nframes;
      ZeroBits();
      AllClear(Bits());
      AllClear(AllBits());
      for i := 0 to |reserved|
        invariant Shape() && ramBase == base && cursor == 0 && nframes == FrameCount(size)
        invariant nframes == 0 ==> Wrapped() && (AnyRange(reserved[..i]) ==> !checked)
        invariant nframes > 0 ==> Valid()
        invariant forall f | 0 <= f < Reach() :: AllBits()[f] <==> AnyReserves(base, reserved[..i], f)
        invariant nframes == 0 ==> forall k | 0 <= k < i :: LastFrame(base, reserved[k]) < MAX_FRAMES
      {
        var r := reserved[i];
        assert reserved[..i + 1] == reserved[..i] + [r];
        if r.start < r.end {
          ok := Reserve(r, checked);
          if !ok { return false; }
        }
      }
      assert reserved[..|reserved|] == reserved;
      if nframes == 0 {
        if i :| 0 <= i < |reserved| && reserved[i].start < reserved[i].end {
          FirstReserved(base, reserved, i);
          ClearSome(AllBits(), Monus(reserved[i].start, base) / FRAME_SIZE);
        } else {
          AllClear(AllBits());
        }
        NoFrames();
      }
      return true;
    }

    lemma {:induction false} NoFrames()
      requires Shape() && nframes == 0
      ensures Clear(Bits()) == 0
    {
    }

    /** The frames that marks can reach: those of the memory, or all of the bitmap's. */
    function Reach(): nat
      reads this`nframes
    {
      if nframes > 0 then nframes else MAX_FRAMES
    }

    /** With no frames at all, the counter is what 64 bits keep of minus the number of marks. */
    ghost predicate Wrapped()
      reads this`nframes, this`free, bitmap
    {
      Shape() && nframes == 0 && free == (COUNTER_LIMIT - (MAX_FRAMES - Clear(AllBits()))) % COUNTER_LIMIT
    }

    /** Mark a frame unless it is marked, and count it. */
    method MarkUsed(frame: nat)
      requires frame < MAX_FRAMES && if nframes > 0 then Valid() && frame < nframes else Wrapped()
      modifies `free, bitmap
      ensures if nframes > 0 then Valid() else Wrapped()
      ensures AllBits() == old(AllBits())[frame := true]
    {
      hide BitsOf, Clear;
      var used := IsUsed(frame);
      if !used {
        ClearOne(AllBits(), frame, true);
        if nframes > 0 {
          ClearOne(Bits(), frame, true);
          ClearSome(Bits(), frame);
        }
        ClearSome(AllBits(), frame);
        Mark(frame, true);
        free := (free + COUNTER_LIMIT - 1) % COUNTER_LIMIT;
      }
    }

    /** Mark the frames of one range, those already marked excepted. */
    method Reserve(r: Range, checked: bool) returns (ok: bool)
      requires if nframes > 0 then Valid() else Wrapped()
      requires r.start < r.end
      modifies `free, bitmap
      ensures Shape()
      ensures nframes > 0 ==> ok && Valid()
      ensures nframes == 0 ==> (ok <==> !checked && LastFrame(ramBase, r) < MAX_FRAMES) && (ok ==> Wrapped())
      ensures ok ==> forall f | 0 <= f < Reach() :: AllBits()[f] <==> old(AllBits())[f] || Reserves(ramBase, r, f)
    {
      hide BitsOf, Clear;
      var first := Monus(r.start, ramBase) / FRAME_SIZE;
      var last := LastFrame(ramBase, r);
      if nframes == 0 && checked { return false; }
      var stop := if nframes > 0 && last >= nframes then nframes - 1 else last;
      var frame := first;
      ghost var were := AllBits();
      while frame <= stop
        invariant first <= frame && (frame <= stop + 1 || frame == first) && (frame > first ==> frame <= MAX_FRAMES)
        invariant if nframes > 0 then Valid() else Wrapped()
        invariant forall f | 0 <= f < MAX_FRAMES :: AllBits()[f] <==> were[f] || first <= f < frame
        decreases stop + 1 - frame
      {
        if frame >= MAX_FRAMES {
          assert nframes == 0;
          return false;
        }
        MarkUsed(frame);
        frame := frame + 1;
      }
      forall f | 0 <= f < Reach() ensures first <= f < frame <==> Reserves(ramBase, r, f) {
        RangeFrames(ramBase, r, f);
      }
      FirstNotLast(r);
      return true;
    }

    lemma {:induction false} FirstNotLast(r: Range)
      requires r.start < r.end
      ensures Monus(r.start, ramBase) / FRAME_SIZE <= LastFrame(ramBase, r)
    {
    }

    lemma {:induction false} ZeroBits()
      requires Shape() && forall k | 0 <= k < bitmap.Length :: bitmap[k] == 0
      ensures forall f | 0 <= f < MAX_FRAMES :: !AllBits()[f]
      ensures forall f | 0 <= f < nframes :: !Bits()[f]
    {
      forall f | 0 <= f < MAX_FRAMES ensures !AllBits()[f] {
        ZeroBit(f % 64);
      }
      forall f | 0 <= f < nframes ensures !Bits()[f] {
        assert Bits()[f] == AllBits()[f];
      }
    }

    /** Allocate `count` frames in a row: the next fit from the cursor. Asked for none, the search stops
        behind the next frame in use, and fails if every frame is free. */
    method AllocContiguous(count: nat) returns (r: Option<nat>)
      requires Valid()
      modifies this, bitmap
      ensures Valid() && ramBase == old(ramBase) && nframes == old(nframes)
      ensures count > 0 ==>
              match NextFit(old(Bits()), old(cursor), count)
              case None => r == None && Bits() == old(Bits()) && cursor == old(cursor)
              case Some(first) =>
                && r == Some(ramBase + first * 4096) && cursor == first + count
                && first + count <= nframes && Bits() == Marked(old(Bits()), first, count, true)
      ensures count == 0 ==> Bits() == old(Bits())
      ensures count == 0 ==>
              match NextUsed(old(Bits()), old(cursor))
              case None => r == None && cursor == old(cursor)
              case Some(f) => r == Some(ramBase + (f + 1) * 4096) && cursor == f + 1 <= nframes
    {
      hide Scanning, NextFit, NextUsed, FreeRun, Clear, BitsOf, Marked, AllFree;
      ghost var bits, start: nat, passes: nat, lo: nat, done: nat := Bits(), cursor, 0, cursor, 0;
      var run: nat, scanned: nat, frame: nat := 0, 0, cursor;
      if count > 0 { ScanStarts(bits, start, count); } else { NoneStarts(bits, start); }
      while scanned < 2 * nframes
        invariant Valid() && Bits() == bits && cursor == start && nframes == |bits|
        invariant unchanged(this) && unchanged(bitmap) && lo <= frame <= nframes
        invariant count > 0 ==> Scanning(bits, start, lo, passes, frame, run, count)
        invariant count == 0 ==> AllFree(bits, start, lo, passes, frame)
        invariant scanned == done + frame - lo && (passes == 0 ==> done == 0 && lo == start)
        invariant passes == 1 ==> done == nframes - start && lo == 0
        decreases 2 * nframes - scanned
      {
        if frame >= nframes {
          if count > 0 { PassDone(bits, start, lo, passes, run, count); } else { NoneDone(bits, start, lo, passes); }
          frame := 0;
          run := 0;
          passes, done, lo := passes + 1, scanned, 0;
        }
        var used := IsUsed(frame);
        assert used == bits[frame];
        if count > 0 {
          ScanOne(bits, start, lo, passes, frame, run, count);
        } else {
          NoneOne(bits, start, lo, passes, frame);
        }
        run := if used then 0 else run + 1;
        frame := frame + 1;
        scanned := scanned + 1;
        if run == count {
          var first := frame - count;
          if count > 0 {
            RunIsClear(bits, first, count);
          }
          ClearMarked(bits, first, count, true);
          MarkNothing(bits, first);
          MarkAll(first, count, true);
          free := free - count;
          cursor := frame;
          return Some(ramBase + first * FRAME_SIZE);
        }
      }
      if count > 0 {
        NothingFound(bits, start, lo, passes, frame, run, count);
      } else {
        NoneFound(bits, start, lo, passes, frame);
      }
      return None;
    }

    method MarkAll(first: nat, count: nat, used: bool)
      requires Shape() && first + count <= nframes
      modifies bitmap
      ensures Bits() == Marked(old(Bits()), first, count, used)
    {
      for f := first to first + count
        invariant Bits() == Marked(old(Bits()), first, f - first, used)
      {
        Mark(f, used);
      }
    }

    /** Give back frames. A build with assertions stops at a frame that is not in use; one without them
        counts it all the same, so that the counter stays right if and only if all were in use. */
    method Free(pa: nat, count: nat, checked: bool) returns (ok: bool)
      requires Valid() && pa >= ramBase && (pa - ramBase) / 4096 + count <= nframes
      modifies `free, bitmap
      ensures ok <==> !checked || AllUsed(old(Bits()), (pa - ramBase) / 4096, count)
      ensures ok ==> Shape() && Bits() == Marked(old(Bits()), (pa - ramBase) / 4096, count, false)
      ensures ok ==> free == old(free) + count
      ensures ok ==> (Valid() <==> AllUsed(old(Bits()), (pa - ramBase) / 4096, count))
    {
      hide BitsOf, Clear;
      var first := (pa - ramBase) / FRAME_SIZE;
      ghost var were := Bits();
      for f := first to first + count
        invariant Shape() && Bits() == Marked(were, first, f - first, false)
        invariant checked ==> AllUsed(were, first, f - first)
        invariant cursor <= nframes && free == Clear(were)
      {
        var used := IsUsed(f);
        assert used == were[f];
        if checked && !used { return false; }
        Mark(f, false);
      }
      ClearAny(were, first, count);
      assert Clear(Bits()) == Clear(Marked(were, first, count, false));
      free := free + count;
      return true;
    }
  }

  ghost predicate AllUsed(bits: seq<bool>, s: nat, k: nat)
    requires s + k <= |bits|
  {
    forall f | s <= f < s + k :: bits[f]
  }

  /** Clearing a run makes as many more frames free as it has, if and only if all of them were used. */
  lemma {:induction false} ClearAny(bits: seq<bool>, s: nat, k: nat)
    requires s + k <= |bits|
    ensures Clear(Marked(bits, s, k, false)) <= Clear(bits) + k
    ensures Clear(Marked(bits, s, k, false)) == Clear(bits) + k <==> AllUsed(bits, s, k)
  {
    if k > 0 {
      ClearAny(bits, s, k - 1);
      ClearOne(Marked(bits, s, k - 1, false), s + k - 1, false);
      assert AllUsed(bits, s, k) <==> AllUsed(bits, s, k - 1) && bits[s + k - 1];
    }
  }

  // ----- the scan -----

  ghost predicate NoRun(bits: seq<bool>, lo: nat, hi: nat, k: nat) {
    forall s: nat | lo <= s && s + k <= hi :: !FreeRun(bits, s, k)
  }

  /** In pass 0 the scan goes from the cursor to the end, then again and again over all
      frames. `run` counts the free frames just behind `frame`, as far as the pass goes. */
  ghost predicate Scanning(bits: seq<bool>, start: nat, lo: nat, passes: nat, frame: nat, run: nat, k: nat) {
    && lo == (if passes == 0 then start else 0)
    && lo <= frame <= |bits| && run < k && run <= frame - lo && FreeRun(bits, frame - run, run)
    && (frame - run > lo ==> bits[frame - run - 1])
    && NoRun(bits, lo, frame, k)
    && (passes > 0 ==> NoRun(bits, start, |bits|, k))
    && (passes > 1 ==> NoRun(bits, 0, |bits|, k))
  }

  lemma {:induction false} ScanStarts(bits: seq<bool>, start: nat, k: nat)
    requires start <= |bits| && k > 0
    ensures Scanning(bits, start, start, 0, start, 0, k)
  {
  }

  // ----- the scan for nothing -----

  /** The lowest used frame from `s` on. */
  ghost function FirstUsed(bits: seq<bool>, s: nat): (r: Option<nat>)
    ensures r.Some? ==> s <= r.value < |bits| && bits[r.value] && forall f | s <= f < r.value :: !bits[f]
    ensures r.None? ==> forall f | s <= f < |bits| :: !bits[f]
    decreases |bits| - s
  {
    if s >= |bits| then None else if bits[s] then Some(s) else FirstUsed(bits, s + 1)
  }

  /** The lowest used frame from the cursor on, or else the lowest of all. */
  ghost function NextUsed(bits: seq<bool>, cursor: nat): Option<nat> {
    var r := FirstUsed(bits, cursor);
    if r.Some? then r else FirstUsed(bits, 0)
  }

  ghost predicate AllFree(bits: seq<bool>, start: nat, lo: nat, passes: nat, frame: nat) {
    && lo == (if passes == 0 then start else 0) && lo <= frame <= |bits|
    && (forall f | lo <= f < frame :: !bits[f])
    && (passes > 0 ==> forall f | start <= f < |bits| :: !bits[f])
    && (passes > 1 ==> forall f | 0 <= f < |bits| :: !bits[f])
  }

  lemma {:induction false} NoneStarts(bits: seq<bool>, start: nat)
    requires start <= |bits|
    ensures AllFree(bits, start, start, 0, start)
  {
  }

  lemma {:induction false} NoneDone(bits: seq<bool>, start: nat, lo: nat, passes: nat)
    requires AllFree(bits, start, lo, passes, |bits|)
    ensures AllFree(bits, start, 0, passes + 1, 0)
  {
  }

  lemma {:induction false} NoneOne(bits: seq<bool>, start: nat, lo: nat, passes: nat, frame: nat)
    requires AllFree(bits, start, lo, passes, frame) && frame < |bits|
    ensures if bits[frame] then NextUsed(bits, start) == Some(frame) else AllFree(bits, start, lo, passes, frame + 1)
  {
  }

  lemma {:induction false} NoneFound(bits: seq<bool>, start: nat, lo: nat, passes: nat, frame: nat)
    requires AllFree(bits, start, lo, passes, frame) && start <= |bits|
    requires passes == 0 ==> frame - start >= 2 * |bits|
    requires passes == 1 ==> (|bits| - start) + frame >= 2 * |bits|
    ensures NextUsed(bits, start) == None
  {
  }

  lemma {:induction false} MarkNothing(bits: seq<bool>, s: nat)
    requires s <= |bits|
    ensures Marked(bits, s, 0, true) == bits
  {
  }

  lemma {:induction false} RunIsClear(bits: seq<bool>, s: nat, k: nat)
    requires FreeRun(bits, s, k)
    ensures s + k <= |bits| && forall f | s <= f < s + k :: bits[f] != true
  {
  }

  lemma {:induction false} PassDone(bits: seq<bool>, start: nat, lo: nat, passes: nat, run: nat, k: nat)
    requires Scanning(bits, start, lo, passes, |bits|, run, k) && k > 0
    ensures Scanning(bits, start, 0, passes + 1, 0, 0, k)
  {
  }

  lemma {:induction false} ScanOne(bits: seq<bool>, start: nat, lo: nat, passes: nat, frame: nat, run: nat, k: nat)
    requires Scanning(bits, start, lo, passes, frame, run, k) && frame < |bits| && k > 0
    ensures var next := if bits[frame] then 0 else run + 1;
            lo <= frame && if next < k then Scanning(bits, start, lo, passes, frame + 1, next, k)
            else
              next == k <= frame + 1 && FreeRun(bits, frame + 1 - k, k)
              && NextFit(bits, start, k) == Some(frame + 1 - k)
  {
    var next := if bits[frame] then 0 else run + 1;
    if next < k {
      forall s: nat | lo <= s && s + k <= frame + 1 ensures !FreeRun(bits, s, k) {
        if s + k == frame + 1 {
          assert if bits[frame] then s <= frame < s + k else s <= frame - run - 1 < s + k;
        }
      }
    } else {
      RunFound(bits, start, lo, passes, frame + 1, k);
    }
  }

  lemma {:induction false} RunFound(bits: seq<bool>, start: nat, lo: nat, passes: nat, frame: nat, k: nat)
    requires k > 0 && lo == (if passes == 0 then start else 0) && lo + k <= frame <= |bits|
    requires FreeRun(bits, frame - k, k) && NoRun(bits, lo, frame - 1, k)
    requires passes > 0 ==> NoRun(bits, start, |bits|, k)
    ensures NextFit(bits, start, k) == Some(frame - k)
  {
    forall i | lo <= i < frame - k ensures !FreeRun(bits, i, k) {
    }
    LowestIs(bits, lo, k, frame - k);
    if passes > 0 {
      forall i: nat | start <= i ensures !FreeRun(bits, i, k) {
      }
      LowestNone(bits, start, k);
    }
  }

  /** After twice as many frames as there are, a whole pass has found nothing. */
  lemma {:induction false} NothingFound(bits: seq<bool>, start: nat, lo: nat, passes: nat, frame: nat, run: nat, k: nat)
    requires Scanning(bits, start, lo, passes, frame, run, k) && start <= |bits| && k > 0
    requires passes == 0 ==> frame - start >= 2 * |bits|
    requires passes == 1 ==> (|bits| - start) + frame >= 2 * |bits|
    ensures NextFit(bits, start, k) == None
  {
    assert NoRun(bits, 0, |bits|, k);
    forall i: nat ensures !FreeRun(bits, i, k) {
    }
    LowestNone(bits, start, k);
    LowestNone(bits, 0, k);
  }

  predicate AnyReserves(ramBase: nat, rs: seq<Range>, f: nat) {
    exists i :: 0 <= i < |rs| && Reserves(ramBase, rs[i], f)
  }

  lemma {:induction false} ClearSome(bits: seq<bool>, f: nat)
    requires f < |bits|
    ensures Clear(bits) <= |bits| && (bits[f] ==> Clear(bits) < |bits|) && (!bits[f] ==> Clear(bits) > 0)
  {
    var n := |bits| - 1;
    if n > 0 { ClearSome(bits[..n], if f < n then f else 0); }
  }

  lemma {:induction false} AllClear(bits: seq<bool>)
    requires forall f | 0 <= f < |bits| :: !bits[f]
    ensures Clear(bits) == |bits|
  {
    if bits != [] { AllClear(bits[..|bits| - 1]); }
  }

  lemma {:induction false} ZeroBit(i: nat)
    ensures !Bit(0, i)
  {
    if i > 0 { ZeroBit(i - 1); }
  }

  lemma {:induction false} SameBit(f: nat, g: nat)
    ensures f / 64 == g / 64 && f % 64 == g % 64 <==> f == g
  {
  }
}
