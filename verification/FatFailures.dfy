/** When a write fails, and what it leaves behind: a full table, a disk that ends before its table does,
    a full directory. */
module FatFailures {
  import opened Bytes
  import opened Utf8
  import opened FatNames
  import opened FatVolume
  import opened FatChains
  import opened FatTheorems
  import opened FatConservation

  // ----- room -----

  lemma {:induction false} FreedCount(fat: seq<Word16>, fat2: seq<Word16>, cs: seq<nat>, data: seq<seq<Byte>>)
    requires |fat| == |fat2| == |data| && Distinct(cs) && AllBacked(data, cs)
    requires forall k | k in cs :: 2 <= k < |fat| && fat[k] != 0
    requires forall k | 0 <= k < |fat| :: fat2[k] == if k in cs then 0 else fat[k]
    ensures |FreeOnDisk(fat2, data)| == |FreeOnDisk(fat, data)| + |cs|
  {
    DistinctElements(cs);
    assert forall k | k in cs :: Backed(data, k);
    assert FreeOnDisk(fat2, data) == FreeOnDisk(fat, data) + Elements(cs);
    assert FreeOnDisk(fat, data) !! Elements(cs);
  }

  /** The free clusters that the disk has. */
  function FreeOnDisk(fat: seq<Word16>, data: seq<seq<Byte>>): set<int>
    requires |data| == |fat|
  {
    set c | 2 <= c < |fat| && fat[c] == 0 && Backed(data, c)
  }

  /** The clusters of the file a write of `want` replaces. */
  ghost function Replaced(v: Volume, cs: seq<seq<nat>>, want: seq<Byte>): seq<nat>
    requires Entries(v.dir) && |cs| == |v.dir|
  {
    FoundUsed(v.dir, 0, want);
    var f := Find(v.dir, want);
    if f.Some? then cs[f.value.slot] else []
  }

  /** The first cluster from `c` on that the disk does not have. */
  function DiskEnd(data: seq<seq<Byte>>, c: nat): (r: nat)
    requires c <= |data|
    ensures c <= r <= |data| && (forall k | c <= k < r :: Backed(data, k)) && (r < |data| ==> !Backed(data, r))
    decreases |data| - c
  {
    if c == |data| || !Backed(data, c) then c else DiskEnd(data, c + 1)
  }

  /** A scan goes over the first part of the table and then over the rest. */
  lemma {:induction false} ScanParts(fat: seq<Word16>, limit: nat, c: nat, n: nat)
    requires c <= limit <= |fat|
    ensures var r := FreeClusters(fat[..limit], c, n);
            |r| <= n && FreeClusters(fat, c, n) == r + FreeClusters(fat, limit, n - |r|)
    decreases limit - c
  {
    ClustersFound(fat[..limit], c, n);
    if n > 0 && c < limit {
      ScanParts(fat, limit, c + 1, if fat[c] == 0 then n - 1 else n);
    }
  }

  /** The scan finds enough clusters that the disk has if and only if there are enough. */
  lemma {:induction false} ScanExactly(fat: seq<Word16>, data: seq<seq<Byte>>, n: nat)
    requires |fat| == |data| && 2 <= |fat|
    requires forall c, k | 2 <= c < k < |data| && Backed(data, k) :: Backed(data, c)
    ensures |FreeClusters(fat, 2, n)| == n && AllBacked(data, FreeClusters(fat, 2, n)) <==> |FreeOnDisk(fat, data)| >= n
  {
    hide FreeClusters;
    var limit := DiskEnd(data, 2);
    var front := fat[..limit];
    var r, all := FreeClusters(front, 2, n), FreeClusters(fat, 2, n);
    ScanParts(fat, limit, 2, n);
    ClustersFound(front, 2, n);
    ClustersFound(fat, limit, n - |r|);
    FindsEnough(front, 2, n);
    assert FreeOnDisk(fat, data) == FreeFrom(front, 2);
    if |r| == n {
      assert all == r;
    } else if |all| == n {
      assert all[|r|] == FreeClusters(fat, limit, n - |r|)[0];
      assert !Backed(data, all[|r|]);
    }
  }

  lemma {:induction false} RoomExactly(v: Volume, cb: nat, cs: seq<seq<nat>>, want: seq<Byte>, size: nat)
    requires WellFormed(v, cb, cs) && |v.fat| >= 2
    ensures var chain := NewChain(v, cb, want, size);
            |chain| == Needed(size, cb) && AllBacked(v.data, chain) <==>
            |FreeOnDisk(v.fat, v.data)| + |Replaced(v, cs, want)| >= Needed(size, cb)
  {
    hide FreeClusters, FreeChain, FreeOnDisk, Needed;
    var fat, f := FreedFor(v, cb, want), Find(v.dir, want);
    FreedExactly(v, cb, cs, want);
    FindExact(v.dir, want);
    if f.Some? {
      assert FileOk(v, cb, v.dir[f.value.slot], cs[f.value.slot]);
      if cs[f.value.slot] != [] { ChainRange(v.fat, f.value.first, cs[f.value.slot]); }
      FreedCount(v.fat, fat, cs[f.value.slot], v.data);
    }
    ScanExactly(fat, v.data, Needed(size, cb));
  }

  /** A write succeeds exactly when the name fits 8.3, the free clusters that the disk has and those of the
      file it replaces are enough, and the name is there already or a slot is vacant. */
  lemma {:induction false} WriteSucceedsExactly(v: Volume, cb: nat, cs: seq<seq<nat>>, name: Name,
      bytes: seq<Byte>)
    requires WellFormed(v, cb, cs) && |v.fat| >= 2
    ensures Write(v, cb, name, bytes).ok <==>
            && Key(name).Some?
            && |FreeOnDisk(v.fat, v.data)| + |Replaced(v, cs, Key(name).value)| >= Needed(|bytes|, cb)
            && (Read(v, cb, name).Some? || exists s :: 0 <= s < |v.dir| && Vacant(v.dir[s]))
  {
    ReadsExactly(v, cb, cs, name);
    if Key(name).Some? { RoomExactly(v, cb, cs, Key(name).value, |bytes|); }
  }

  // ----- a full table -----

  /** The table has too few free entries. */
  predicate DiskFull(v: Volume, cb: nat, name: Name, bytes: seq<Byte>)
    requires Sound(v, cb)
  {
    Key(name).Some? && |NewChain(v, cb, Key(name).value, |bytes|)| < Needed(|bytes|, cb)
  }

  /** A full disk leaves the volume alone when the name is new. When it is not, the old file's
      chain is already free while its entry still points to it: the volume stays well formed
      exactly when the old file had no clusters. */
  lemma {:induction false} DiskFullExactly(v: Volume, cb: nat, cs: seq<seq<nat>>, name: Name, bytes: seq<Byte>)
    requires WellFormed(v, cb, cs) && DiskFull(v, cb, name, bytes)
    ensures var r, gone := Write(v, cb, name, bytes), Replaced(v, cs, Key(name).value);
            && !r.ok && r.vol.dir == v.dir && r.vol.data == v.data
            && (r.vol == v <==> gone == [])
            && ((exists cs2 :: WellFormed(r.vol, cb, cs2)) <==> gone == [])
  {
    var want := Key(name).value;
    var v2, f, gone := Write(v, cb, name, bytes).vol, Find(v.dir, want), Replaced(v, cs, want);
    FindExact(v.dir, want);
    FreedExactly(v, cb, cs, want);
    if gone == [] {
      assert v2.fat == v.fat;
      assert WellFormed(v2, cb, cs);
    } else {
      var slot := f.value.slot;
      assert FileOk(v, cb, v.dir[slot], cs[slot]);
      ChainRange(v.fat, f.value.first, gone);
      assert f.value.first in gone;
      forall cs2 ensures !WellFormed(v2, cb, cs2) {
        if WellFormed(v2, cb, cs2) { Dangling(v2, cb, cs2, slot); }
      }
    }
  }

  /** An entry cannot point to a free cluster. */
  lemma {:induction false} Dangling(v: Volume, cb: nat, cs: seq<seq<nat>>, slot: nat)
    requires WellFormed(v, cb, cs) && slot < |v.dir| && Used(v.dir[slot]) && Follows(FirstOf(v.dir[slot]))
    ensures FirstOf(v.dir[slot]) < |v.fat| && v.fat[FirstOf(v.dir[slot])] != 0
  {
    assert FileOk(v, cb, v.dir[slot], cs[slot]);
    ChainRange(v.fat, FirstOf(v.dir[slot]), cs[slot]);
    assert cs[slot][0] in cs[slot];
  }

  // ----- chains that are written for nothing -----

  /** There are enough free entries, and one of those chosen is of a cluster that the disk does not have. */
  predicate PastEnd(v: Volume, cb: nat, name: Name, bytes: seq<Byte>)
    requires Sound(v, cb)
  {
    && Key(name).Some? && !DiskFull(v, cb, name, bytes)
    && !AllBacked(v.data, NewChain(v, cb, Key(name).value, |bytes|))
  }

  /** A write that fails only after its chain is written. */
  predicate FailsLate(v: Volume, cb: nat, name: Name, bytes: seq<Byte>)
    requires Sound(v, cb)
  {
    && Key(name).Some? && !DiskFull(v, cb, name, bytes)
    && (PastEnd(v, cb, name, bytes) || Slot(v.dir, Key(name).value).None?)
  }

  /** A chain linked for a name that had no clusters: every file is as it was, and the chain's clusters,
      free until then, are in use and nobody's. */
  lemma {:induction false} StoredForNothing(v: Volume, cb: nat, cs: seq<seq<nat>>, want: seq<Byte>, bytes: seq<Byte>)
    requires WellFormed(v, cb, cs) && Replaced(v, cs, want) == []
    requires |NewChain(v, cb, want, |bytes|)| == Needed(|bytes|, cb)
    ensures var v2, chain := Store(v, cb, want, bytes), NewChain(v, cb, want, |bytes|);
            && WellFormed(v2, cb, cs) && v2.dir == v.dir
            && (forall t | 0 <= t < |cs| :: SameAt(v, v2, cs[t]))
            && chain != [] && forall k | k in chain :: v.fat[k] == 0 && v2.fat[k] != 0 && !Owned(cs, k)
  {
    hide Chars, Shown, From83, FreeChain, FreeClusters, Scan, Link, Fill, FreeSlot;
    var v2, fat, chain := Store(v, cb, want, bytes), FreedFor(v, cb, want), NewChain(v, cb, want, |bytes|);
    StoreSound(v, cb, want, bytes);
    FindExact(v.dir, want);
    FreedExactly(v, cb, cs, want);
    Links(fat, chain, 0);
    FillsOnly(v.data, chain, bytes, cb, 0);
    assert chain[0..] == chain;
    ChainRange(v2.fat, chain[0], chain);
    forall t | 0 <= t < |cs| ensures Apart(cs[t], chain) && SameAt(v, v2, cs[t]) && FileOk(v2, cb, v2.dir[t], cs[t]) {
      if cs[t] != [] { NewChainApart(v, cb, cs, want, |bytes|, t); }
      assert FileOk(v, cb, v.dir[t], cs[t]);
      if Used(v.dir[t]) { HasChainFrame(v.fat, v2.fat, FirstOf(v.dir[t]), cs[t]); }
    }
  }

  /** A write that fails after its chain is written, of a name without clusters. */
  lemma {:induction false} LateFailure(v: Volume, cb: nat, cs: seq<seq<nat>>, name: Name, bytes: seq<Byte>)
    requires WellFormed(v, cb, cs) && FailsLate(v, cb, name, bytes) && Replaced(v, cs, Key(name).value) == []
    ensures var r, chain := Write(v, cb, name, bytes), NewChain(v, cb, Key(name).value, |bytes|);
            && !r.ok && r.vol.dir == v.dir && WellFormed(r.vol, cb, cs)
            && (forall t | 0 <= t < |cs| :: SameAt(v, r.vol, cs[t]))
            && chain != [] && forall k | k in chain :: v.fat[k] == 0 && r.vol.fat[k] != 0 && !Owned(cs, k)
  {
    StoredForNothing(v, cb, cs, Key(name).value, bytes);
  }

  lemma {:induction false} NoneReplaced(v: Volume, cs: seq<seq<nat>>, want: seq<Byte>)
    requires Entries(v.dir) && |cs| == |v.dir| && Slot(v.dir, want).None?
    ensures Replaced(v, cs, want) == []
  {
  }

  /** A full directory is noticed only after the chain is written: every file is as before, but the
      chain's clusters, free until then, are in use and nobody's. */
  lemma {:induction false} DirectoryFull(v: Volume, cb: nat, cs: seq<seq<nat>>, name: Name, bytes: seq<Byte>)
    requires WellFormed(v, cb, cs) && Key(name).Some? && !DiskFull(v, cb, name, bytes) &&
             Slot(v.dir, Key(name).value).None?
    ensures var r, chain := Write(v, cb, name, bytes), NewChain(v, cb, Key(name).value, |bytes|);
            && !r.ok && r.vol.dir == v.dir && WellFormed(r.vol, cb, cs)
            && chain != [] && forall k | k in chain :: v.fat[k] == 0 && r.vol.fat[k] != 0 && !Owned(cs, k)
  {
    NoneReplaced(v, cs, Key(name).value);
    LateFailure(v, cb, cs, name, bytes);
  }

  /** After such a failure every name reads as before. */
  lemma {:induction false} LateFailureReads(v: Volume, cb: nat, cs: seq<seq<nat>>, name: Name, bytes: seq<Byte>,
      other: Name)
    requires WellFormed(v, cb, cs) && FailsLate(v, cb, name, bytes) && Replaced(v, cs, Key(name).value) == []
    ensures Sound(Write(v, cb, name, bytes).vol, cb)
    ensures Read(Write(v, cb, name, bytes).vol, cb, other) == Read(v, cb, other)
  {
    hide Write, ReadKey;
    var v2 := Write(v, cb, name, bytes).vol;
    LateFailure(v, cb, cs, name, bytes);
    if t :| 0 <= t < |v.dir| && Used(v.dir[t]) && Key(other) == Some(NameOf(v.dir[t])) {
      assert FileOk(v, cb, v.dir[t], cs[t]);
      BytesFrame(v, v2, cb, v.dir[t], cs[t]);
      ReadSlot(v, cb, cs, t);
      ReadSlot(v2, cb, cs, t);
    } else if Key(other).Some? {
      ReadNone(v, cb, cs, Key(other).value);
      ReadNone(v2, cb, cs, Key(other).value);
    }
  }

  // ----- past the end of the disk -----

  lemma {:induction false} ChainTail(fat: seq<Word16>, cs: seq<nat>, i: nat)
    requires i < |cs| && |fat| <= 0xfff8 && (forall k | 0 <= k < |cs| :: cs[k] < |fat|) && Chain(fat, cs[0], cs)
    ensures Chain(fat, cs[i], cs[i..])
    decreases i
  {
    if i == 0 {
      assert cs[0..] == cs;
    } else {
      assert cs[1..][i - 1..] == cs[i..];
      assert fat[cs[0]] == cs[1];
      ChainTail(fat, cs[1..], i - 1);
    }
  }

  /** If one cluster of a chain in ascending order is not on the disk, the last one is not. */
  lemma {:induction false} LastPastEnd(data: seq<seq<Byte>>, chain: seq<nat>)
    requires forall c, k | 2 <= c < k < |data| && Backed(data, k) :: Backed(data, c)
    requires forall i | 0 <= i < |chain| :: 2 <= chain[i] < |data|
    requires (forall i, j | 0 <= i < j < |chain| :: chain[i] < chain[j]) && !AllBacked(data, chain)
    ensures chain != [] && !Backed(data, chain[|chain| - 1])
  {
    var i :| 0 <= i < |chain| && !Backed(data, chain[i]);
  }

  /** What an entry that still points into a freed or reused chain cannot be. */
  lemma {:induction false} PointsPastEnd(v: Volume, cb: nat, cs2: seq<seq<nat>>, slot: nat, chain: seq<nat>)
    requires Sound(v, cb) && slot < |v.dir| && Used(v.dir[slot]) && Follows(FirstOf(v.dir[slot]))
    requires chain != [] && (forall i | 0 <= i < |chain| :: chain[i] < |v.fat|) && Distinct(chain)
    requires Chain(v.fat, chain[0], chain) && !Backed(v.data, chain[|chain| - 1])
    requires FirstOf(v.dir[slot]) < |v.fat| && (v.fat[FirstOf(v.dir[slot])] == 0 || FirstOf(v.dir[slot]) in chain)
    ensures !WellFormed(v, cb, cs2)
  {
    var first := FirstOf(v.dir[slot]);
    if WellFormed(v, cb, cs2) {
      Dangling(v, cb, cs2, slot);
      var i :| 0 <= i < |chain| && chain[i] == first;
      ChainTail(v.fat, chain, i);
      assert FileOk(v, cb, v.dir[slot], cs2[slot]);
      ChainsUnique(v.fat, first, cs2[slot], chain[i..]);
    }
  }

  /** A write that runs past the end of the disk fails. The volume stays well formed if and only if the name
      had no clusters; otherwise its entry points to a free cluster or into the new chain. */
  lemma {:induction false} PastEndExactly(v: Volume, cb: nat, cs: seq<seq<nat>>, name: Name, bytes: seq<Byte>)
    requires WellFormed(v, cb, cs) && PastEnd(v, cb, name, bytes)
    ensures var r := Write(v, cb, name, bytes);
            && !r.ok && r.vol.dir == v.dir
            && ((exists cs2 :: WellFormed(r.vol, cb, cs2)) <==> Replaced(v, cs, Key(name).value) == [])
  {
    hide Chars, Shown, From83, FreeChain, FreeClusters, Scan, Link, Fill, FreeSlot;
    var want := Key(name).value;
    var v2, chain, gone := Write(v, cb, name, bytes).vol, NewChain(v, cb, want, |bytes|), Replaced(v, cs, want);
    if gone == [] {
      LateFailure(v, cb, cs, name, bytes);
    } else {
      var slot := Find(v.dir, want).value.slot;
      FindExact(v.dir, want);
      FreedExactly(v, cb, cs, want);
      StoreSound(v, cb, want, bytes);
      StoredFirst(v, cb, cs, want, bytes);
      forall cs2 ensures !WellFormed(v2, cb, cs2) {
        PointsPastEnd(v2, cb, cs2, slot, chain);
      }
    }
  }

  lemma {:induction false} StoredFirst(v: Volume, cb: nat, cs: seq<seq<nat>>, want: seq<Byte>, bytes: seq<Byte>)
    requires WellFormed(v, cb, cs) && Replaced(v, cs, want) != []
    requires !AllBacked(v.data, NewChain(v, cb, want, |bytes|))
    ensures var v2, chain, f := Store(v, cb, want, bytes), NewChain(v, cb, want, |bytes|), Find(v.dir, want).value;
            && chain != [] && Chain(v2.fat, chain[0], chain) && !Backed(v2.data, chain[|chain| - 1])
            && f.slot < |v.dir| && Used(v.dir[f.slot]) && FirstOf(v.dir[f.slot]) == f.first
            && Follows(f.first) && f.first < |v.fat| && (v2.fat[f.first] == 0 || f.first in chain)
  {
    var v2, chain, f := Store(v, cb, want, bytes), NewChain(v, cb, want, |bytes|), Find(v.dir, want).value;
    FindExact(v.dir, want);
    FreedExactly(v, cb, cs, want);
    assert FileOk(v, cb, v.dir[f.slot], cs[f.slot]);
    ChainRange(v.fat, f.first, cs[f.slot]);
    assert cs[f.slot][0] in cs[f.slot];
    Links(FreedFor(v, cb, want), chain, 0);
    assert chain[0..] == chain;
    LastPastEnd(v.data, chain);
    FillShape(v.data, chain, bytes, cb, 0);
  }
}
