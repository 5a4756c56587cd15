/** How many clusters are free: the sizes of the files say it, unless a save failed after writing its chain. */
module FatSpace {
  import opened Bytes
  import opened Utf8
  import opened FatNames
  import opened FatVolume
  import opened FatChains
  import opened FatTheorems
  import opened FatConservation
  import opened FatFailures
  import opened FatRuns

  /** Every file has as many clusters as its size needs, an empty one has one. */
  ghost predicate Tight(v: Volume, cb: nat, cs: seq<seq<nat>>)
    requires 0 < cb && Entries(v.dir) && |cs| == |v.dir|
  {
    forall s | 0 <= s < |v.dir| && Used(v.dir[s]) :: |cs[s]| == Needed(SizeOf(v.dir[s]), cb)
  }

  /** A write whose entry shows keeps the chains as long as the sizes say, unless the size is cut
      to 32 bits and then needs fewer clusters. */
  lemma {:induction false} WriteTight(v: Volume, cb: nat, cs: seq<seq<nat>>, name: Name, bytes: seq<Byte>)
    requires WellFormed(v, cb, cs) && Tight(v, cb, cs) && Write(v, cb, name, bytes).ok && Keeps(To83(name).value)
    ensures var v2 := Write(v, cb, name, bytes).vol;
            Sound(v2, cb) && |v2.dir| == |v.dir| &&
            (Tight(v2, cb, ChainsAfter(v, cb, cs, name, |bytes|)) <==>
             Needed(|bytes| % 0x1_0000_0000, cb) == Needed(|bytes|, cb))
  {
    hide Find, FreeChain, FreeClusters, Link, Fill;
    var raw, want := To83(name).value, Key(name).value;
    var v2, slot, chain := Write(v, cb, name, bytes).vol, Slot(v.dir, want).value, NewChain(v, cb, want, |bytes|);
    WriteSound(v, cb, name, bytes);
    NewEntryUsed(raw, chain[0], |bytes| % 0x1_0000_0000);
    assert v2.dir[slot] == NewEntry(raw, chain[0], |bytes| % 0x1_0000_0000);
    assert forall t | 0 <= t < |v.dir| && t != slot :: v2.dir[t] == v.dir[t];
  }

  lemma {:induction false} DeleteTight(v: Volume, cb: nat, cs: seq<seq<nat>>, name: Name)
    requires WellFormed(v, cb, cs) && Tight(v, cb, cs) && Delete(v, cb, name).ok
    ensures var v2, slot := Delete(v, cb, name).vol, Find(v.dir, Key(name).value).value.slot;
            slot < |cs| && Sound(v2, cb) && Tight(v2, cb, cs[slot := []])
  {
    DeleteSound(v, cb, name);
    FoundUsed(v.dir, 0, Key(name).value);
  }

  // ----- counting -----

  /** The clusters that the files in a directory need. */
  function Demand(dir: seq<seq<Byte>>, cb: nat): nat
    requires 0 < cb && Entries(dir)
  {
    if dir == [] then 0 else (if Used(dir[0]) then Needed(SizeOf(dir[0]), cb) else 0) + Demand(dir[1..], cb)
  }

  function Union(cs: seq<seq<nat>>): set<int> { if cs == [] then {} else Elements(cs[0]) + Union(cs[1..]) }

  ghost predicate Disjoint(cs: seq<seq<nat>>) {
    && (forall s | 0 <= s < |cs| :: Distinct(cs[s]))
    && forall s, t | 0 <= s < t < |cs| :: Apart(cs[s], cs[t])
  }

  lemma {:induction false} UnionOwned(cs: seq<seq<nat>>, k: int)
    ensures k in Union(cs) <==> exists s :: 0 <= s < |cs| && k in cs[s]
  {
    if cs != [] {
      var rest := cs[1..];
      UnionOwned(rest, k);
      ElementsOf(cs[0], k);
      if k in Union(rest) {
        var s :| 0 <= s < |rest| && k in rest[s];
        assert k in cs[s + 1];
      }
      if s :| 0 <= s < |cs| && k in cs[s] {
        assert s > 0 ==> k in rest[s - 1];
      }
    }
  }

  lemma {:induction false} ElementsOf(cs: seq<nat>, k: int)
    ensures k in Elements(cs) <==> k in cs
  {
    if cs != [] { ElementsOf(cs[1..], k); }
  }

  lemma {:induction false} FirstApart(cs: seq<seq<nat>>)
    requires cs != [] && Disjoint(cs)
    ensures Elements(cs[0]) !! Union(cs[1..]) && Disjoint(cs[1..])
  {
    var rest := cs[1..];
    forall k | k in Elements(cs[0]) ensures k !in Union(rest) {
      ElementsOf(cs[0], k);
      UnionOwned(rest, k);
      forall s | 0 <= s < |rest| ensures k !in rest[s] {
        assert Apart(cs[0], cs[s + 1]);
      }
    }
    forall s, t | 0 <= s < t < |rest| ensures Apart(rest[s], rest[t]) {
      assert Apart(cs[s + 1], cs[t + 1]);
    }
  }

  /** The number of clusters the slots of a directory need. */
  lemma {:induction false} UnionSize(dir: seq<seq<Byte>>, cb: nat, cs: seq<seq<nat>>)
    requires 0 < cb && Entries(dir) && |cs| == |dir| && Disjoint(cs)
    requires forall s | 0 <= s < |dir| :: |cs[s]| == if Used(dir[s]) then Needed(SizeOf(dir[s]), cb) else 0
    ensures |Union(cs)| == Demand(dir, cb)
  {
    hide Needed;
    if cs != [] {
      var rest := cs[1..];
      assert forall s | 0 <= s < |rest| :: rest[s] == cs[s + 1] && dir[1..][s] == dir[s + 1];
      FirstApart(cs);
      UnionSize(dir[1..], cb, rest);
      DistinctElements(cs[0]);
    }
  }

  function Range(lo: nat, hi: nat): (r: set<int>)
    requires lo <= hi
    ensures |r| == hi - lo && forall k :: k in r <==> lo <= k < hi
    decreases hi - lo
  {
    if lo == hi then {} else {lo} + Range(lo + 1, hi)
  }

  lemma {:induction false} ChainSizes(v: Volume, cb: nat, cs: seq<seq<nat>>)
    requires WellFormed(v, cb, cs) && Tight(v, cb, cs)
    ensures Disjoint(cs)
    ensures forall s | 0 <= s < |v.dir| :: |cs[s]| == if Used(v.dir[s]) then Needed(SizeOf(v.dir[s]), cb) else 0
    ensures forall s, k | 0 <= s < |cs| && k in cs[s] :: 2 <= k < |v.fat|
  {
    hide Needed;
    forall s | 0 <= s < |cs|
      ensures Distinct(cs[s]) && |cs[s]| == if Used(v.dir[s]) then Needed(SizeOf(v.dir[s]), cb) else 0
      ensures forall k | k in cs[s] :: 2 <= k < |v.fat|
    {
      assert FileOk(v, cb, v.dir[s], cs[s]);
      if cs[s] != [] { ChainRange(v.fat, FirstOf(v.dir[s]), cs[s]); }
    }
  }

  /** On a volume without leaks the free clusters are those that the sizes of the files leave. */
  lemma {:induction false} FreeSpace(v: Volume, cb: nat, cs: seq<seq<nat>>)
    requires WellFormed(v, cb, cs) && NoLeak(v, cs) && Tight(v, cb, cs) && |v.fat| >= 2
    ensures |FreeFrom(v.fat, 2)| == |v.fat| - 2 - Demand(v.dir, cb)
  {
    hide Needed, Demand, Union, Tight, Used;
    var owned, free, all := Union(cs), FreeFrom(v.fat, 2), Range(2, |v.fat|);
    ChainSizes(v, cb, cs);
    UnionSize(v.dir, cb, cs);
    forall k ensures (k in owned <==> 2 <= k < |v.fat| && v.fat[k] != 0) {
      UnionOwned(cs, k);
      if 2 <= k < |v.fat| { InUseExactly(v, cb, cs, k); }
    }
    assert owned + free == all;
    assert owned !! free;
  }

  // ----- whole runs -----

  ghost predicate Conserved(v: Volume, cb: nat, cs: seq<seq<nat>>) {
    WellFormed(v, cb, cs) && NoLeak(v, cs) && Tight(v, cb, cs)
  }

  ghost predicate Balanced(v: Volume, cb: nat) { exists cs :: Conserved(v, cb, cs) }

  /** A save that fails only after its chain is written. */
  predicate WritesForNothing(v: Volume, cb: nat, op: Op)
    requires Sound(v, cb)
  {
    op.Save? && FailsLate(v, cb, op.name, op.bytes)
  }

  ghost predicate LosesChain(v: Volume, cb: nat, ops: seq<Op>)
    requires GuardedRun(v, cb, ops)
    decreases |ops|
  {
    ops != [] && (WritesForNothing(v, cb, ops[0]) || LosesChain(Step(v, cb, ops[0]).vol, cb, ops[1..]))
  }

  /** A cluster in use that belongs to no file. */
  ghost predicate Lost(v: Volume, cb: nat, cs: seq<seq<nat>>, k: nat) {
    WellFormed(v, cb, cs) && 2 <= k < |v.fat| && v.fat[k] != 0 && !Owned(cs, k)
  }

  ghost predicate LostIn(v: Volume, cb: nat, k: nat) { exists cs :: Lost(v, cb, cs, k) }

  lemma {:induction false} LostLeaks(v: Volume, cb: nat, cs: seq<seq<nat>>, k: nat, cs2: seq<seq<nat>>)
    requires Lost(v, cb, cs, k) && WellFormed(v, cb, cs2)
    ensures !NoLeak(v, cs2)
  {
    forall s | 0 <= s < |cs2| ensures cs2[s] == cs[s] {
      assert FileOk(v, cb, v.dir[s], cs[s]) && FileOk(v, cb, v.dir[s], cs2[s]);
      if Used(v.dir[s]) { ChainsUnique(v.fat, FirstOf(v.dir[s]), cs[s], cs2[s]); }
    }
    assert cs2 == cs;
    assert !Owned(cs2, k);
  }

  lemma {:induction false} SaveOkConserves(v: Volume, cb: nat, cs: seq<seq<nat>>, name: Name, bytes: seq<Byte>)
    requires Conserved(v, cb, cs) && Write(v, cb, name, bytes).ok && Keeps(To83(name).value) && |bytes| < 0x1_0000_0000
    ensures Conserved(Write(v, cb, name, bytes).vol, cb, ChainsAfter(v, cb, cs, name, |bytes|))
  {
    hide Link, Fill, FreeClusters, FreeChain, Scan, FreeSlot, Sound, Chars, From83, Shown, Field, NewEntry;
    KeptWrite(v, cb, cs, name, bytes);
    ListedLeaks(v, cb, cs, name, bytes);
    WriteTight(v, cb, cs, name, bytes);
  }

  lemma {:induction false} SaveConserves(v: Volume, cb: nat, cs: seq<seq<nat>>, name: Name, bytes: seq<Byte>)
    requires Conserved(v, cb, cs) && Guarded(v, cb, Save(name, bytes)) && !WritesForNothing(v, cb, Save(name, bytes))
    ensures Balanced(Write(v, cb, name, bytes).vol, cb)
  {
    var v2 := Write(v, cb, name, bytes).vol;
    if Write(v, cb, name, bytes).ok {
      SaveOkConserves(v, cb, cs, name, bytes);
      assert Conserved(v2, cb, ChainsAfter(v, cb, cs, name, |bytes|));
    } else {
      SaveFailsAlone(v, cb, cs, name, bytes);
      assert Conserved(v2, cb, cs);
    }
  }

  lemma {:induction false} SaveFailsAlone(v: Volume, cb: nat, cs: seq<seq<nat>>, name: Name, bytes: seq<Byte>)
    requires WellFormed(v, cb, cs) && Guarded(v, cb, Save(name, bytes)) && !WritesForNothing(v, cb, Save(name, bytes))
    requires !Write(v, cb, name, bytes).ok
    ensures Write(v, cb, name, bytes).vol == v
  {
    hide ReadKey, NewChain, Store;
    if Key(name).Some? {
      NothingReplaced(v, cb, cs, name, bytes);
      DiskFullExactly(v, cb, cs, name, bytes);
    }
  }

  lemma {:induction false} RemoveConserves(v: Volume, cb: nat, cs: seq<seq<nat>>, name: Name)
    requires Conserved(v, cb, cs)
    ensures Balanced(Delete(v, cb, name).vol, cb)
  {
    var v2 := Delete(v, cb, name).vol;
    DeleteKeeps(v, cb, cs, name);
    if Delete(v, cb, name).ok {
      DeleteLeaks(v, cb, cs, name);
      DeleteTight(v, cb, cs, name);
      assert Conserved(v2, cb, cs[Find(v.dir, Key(name).value).value.slot := []]);
    } else {
      assert Conserved(v2, cb, cs);
    }
  }

  /** A lost cluster stays lost. */
  lemma {:induction false} LostStays(v: Volume, cb: nat, cs: seq<seq<nat>>, k: nat, op: Op)
    requires Lost(v, cb, cs, k) && Guarded(v, cb, op)
    ensures LostIn(Step(v, cb, op).vol, cb, k)
  {
    match op
    case Save(name, bytes) => LostAfterSave(v, cb, cs, k, name, bytes);
    case Remove(name) =>
      DeleteKeeps(v, cb, cs, name);
      if Delete(v, cb, name).ok {
        var slot := Find(v.dir, Key(name).value).value.slot;
        NotOwned(cs, slot, [], k);
        assert Lost(Step(v, cb, op).vol, cb, cs[slot := []], k);
      } else {
        assert Lost(Step(v, cb, op).vol, cb, cs, k);
      }
  }

  lemma {:induction false} NotOwned(cs: seq<seq<nat>>, slot: nat, chain: seq<nat>, k: nat)
    requires slot < |cs| && !Owned(cs, k) && k !in chain
    ensures k !in cs[slot] && !Owned(cs[slot := chain], k)
  {
    var cs2 := cs[slot := chain];
    forall s | 0 <= s < |cs2| ensures k !in cs2[s] {
      assert k !in cs[s];
    }
  }

  lemma {:induction false} LostAfterSave(v: Volume, cb: nat, cs: seq<seq<nat>>, k: nat, name: Name,
      bytes: seq<Byte>)
    requires Lost(v, cb, cs, k) && Guarded(v, cb, Save(name, bytes))
    ensures LostIn(Write(v, cb, name, bytes).vol, cb, k)
  {
    hide ReadKey, Store, FreeClusters, FreeChain, Link, Fill;
    var v2 := Write(v, cb, name, bytes).vol;
    if Write(v, cb, name, bytes).ok {
      var want := Key(name).value;
      LostAfterStore(v, cb, cs, k, name, bytes);
      KeptWrite(v, cb, cs, name, bytes);
      NotOwned(cs, Slot(v.dir, want).value, NewChain(v, cb, want, |bytes|), k);
      assert Lost(v2, cb, ChainsAfter(v, cb, cs, name, |bytes|), k);
    } else if Key(name).None? {
      assert Lost(v2, cb, cs, k);
    } else {
      NothingReplaced(v, cb, cs, name, bytes);
      if DiskFull(v, cb, name, bytes) {
        DiskFullExactly(v, cb, cs, name, bytes);
      } else {
        LostAfterStore(v, cb, cs, k, name, bytes);
        LateFailure(v, cb, cs, name, bytes);
      }
      assert Lost(v2, cb, cs, k);
    }
  }

  lemma {:induction false} LostAfterStore(v: Volume, cb: nat, cs: seq<seq<nat>>, k: nat, name: Name,
      bytes: seq<Byte>)
    requires Lost(v, cb, cs, k) && Key(name).Some? && !DiskFull(v, cb, name, bytes)
    ensures k !in NewChain(v, cb, Key(name).value, |bytes|)
    ensures |Write(v, cb, name, bytes).vol.fat| == |v.fat| && Write(v, cb, name, bytes).vol.fat[k] == v.fat[k]
  {
    StoredKeepsLost(v, cb, cs, k, Key(name).value, |bytes|);
  }

  /** Freeing the old chain and linking the new one pass by a lost cluster. */
  lemma {:induction false} StoredKeepsLost(v: Volume, cb: nat, cs: seq<seq<nat>>, k: nat, want: seq<Byte>, size: nat)
    requires Lost(v, cb, cs, k)
    ensures k !in NewChain(v, cb, want, size)
    ensures Link(FreedFor(v, cb, want), NewChain(v, cb, want, size), 0)[k] == v.fat[k]
  {
    var chain := NewChain(v, cb, want, size);
    FreedExactly(v, cb, cs, want);
    if Find(v.dir, want).Some? { assert k !in cs[Find(v.dir, want).value.slot]; }
    Links(FreedFor(v, cb, want), chain, 0);
    assert k !in chain;
    if chain != [] { assert chain[0..] == chain; }
  }

  lemma {:induction false} LostForever(v: Volume, cb: nat, k: nat, ops: seq<Op>)
    requires LostIn(v, cb, k) && GuardedRun(v, cb, ops)
    ensures LostIn(RunVolume(v, cb, ops), cb, k)
    decreases |ops|
  {
    if ops != [] {
      var cs :| Lost(v, cb, cs, k);
      LostStays(v, cb, cs, k, ops[0]);
      LostForever(Step(v, cb, ops[0]).vol, cb, k, ops[1..]);
    }
  }

  /** A guarded run leaves a volume where the clusters in use are exactly the files', each file with
      as many as its size needs, if and only if no save met a full directory on the way: what is
      lost once is never given back. */
  lemma {:induction false} RunConserves(v: Volume, cb: nat, ops: seq<Op>)
    requires Balanced(v, cb) && GuardedRun(v, cb, ops)
    ensures Balanced(RunVolume(v, cb, ops), cb) <==> !LosesChain(v, cb, ops)
    decreases |ops|
  {
    if ops != [] {
      var cs :| Conserved(v, cb, cs);
      var op, v2 := ops[0], Step(v, cb, ops[0]).vol;
      if WritesForNothing(v, cb, op) {
        RunLoses(v, cb, cs, ops);
      } else {
        if op.Save? {
          SaveConserves(v, cb, cs, op.name, op.bytes);
        } else {
          RemoveConserves(v, cb, cs, op.name);
        }
        RunConserves(v2, cb, ops[1..]);
      }
    }
  }

  lemma {:induction false} RunLoses(v: Volume, cb: nat, cs: seq<seq<nat>>, ops: seq<Op>)
    requires WellFormed(v, cb, cs) && GuardedRun(v, cb, ops) && ops != [] && WritesForNothing(v, cb, ops[0])
    ensures !Balanced(RunVolume(v, cb, ops), cb)
  {
    var op, v2 := ops[0], Step(v, cb, ops[0]).vol;
    var k := NewChain(v, cb, Key(op.name).value, |op.bytes|)[0];
    NothingReplaced(v, cb, cs, op.name, op.bytes);
    LateFailure(v, cb, cs, op.name, op.bytes);
    assert k in NewChain(v, cb, Key(op.name).value, |op.bytes|);
    assert Lost(v2, cb, cs, k);
    LostForever(v2, cb, k, ops[1..]);
    var cs3 :| Lost(RunVolume(v2, cb, ops[1..]), cb, cs3, k);
    forall cs2 ensures !Conserved(RunVolume(v, cb, ops), cb, cs2) {
      if WellFormed(RunVolume(v, cb, ops), cb, cs2) { LostLeaks(RunVolume(v, cb, ops), cb, cs3, k, cs2); }
    }
  }
}
