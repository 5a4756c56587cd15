/** What writing and deleting files keep on a well-formed volume. */
module FatTheorems {
  import opened Bytes
  import opened Utf8
  import opened FatNames
  import opened FatVolume
  import opened FatChains

  /** Nothing but vacant slots after the first slot that was never used. */
  ghost predicate TailClean(dir: seq<seq<Byte>>)
    requires Entries(dir)
  {
    forall i, j | 0 <= i < j < |dir| && dir[i][0] == FREE_AHEAD :: Vacant(dir[j])
  }

  ghost predicate UniqueNames(dir: seq<seq<Byte>>)
    requires Entries(dir)
  {
    forall i, j | 0 <= i < j < |dir| && Used(dir[i]) && Used(dir[j]) :: NameOf(dir[i]) != NameOf(dir[j])
  }

  /** A file's chain is on the disk and long enough for its size; a slot without a file has no clusters. */
  ghost predicate FileOk(v: Volume, cb: nat, e: seq<Byte>, cs: seq<nat>)
    requires |e| == 32
  {
    if Used(e) then HasChain(v.fat, FirstOf(e), cs) && AllBacked(v.data, cs) && SizeOf(e) <= |cs| * cb
    else cs == []
  }

  /** `cs` holds the clusters of every directory slot. */
  ghost predicate WellFormed(v: Volume, cb: nat, cs: seq<seq<nat>>) {
    && Sound(v, cb) && TailClean(v.dir) && UniqueNames(v.dir) && |cs| == |v.dir|
    && (forall s | 0 <= s < |cs| :: FileOk(v, cb, v.dir[s], cs[s]))
    && (forall s, t | 0 <= s < |cs| && 0 <= t < |cs| && s != t :: Apart(cs[s], cs[t]))
  }

  // ----- looking files up -----

  lemma {:induction false} FindsNamed(dir: seq<seq<Byte>>, s: nat, want: seq<Byte>, t: nat)
    requires Entries(dir) && TailClean(dir) && s <= t < |dir| && Used(dir[t]) && NameOf(dir[t]) == want
    ensures Named(Scan(dir, s), want).Some?
    decreases t - s
  {
    assert dir[s][0] != FREE_AHEAD;
    if Used(dir[s]) {
      assert Scan(dir, s)[1..] == Scan(dir, s + 1);
    }
    if s < t { FindsNamed(dir, s + 1, want, t); }
  }

  /** The file of a name is the one used slot that carries it. */
  lemma {:induction false} FindExact(dir: seq<seq<Byte>>, want: seq<Byte>)
    requires Entries(dir) && TailClean(dir) && UniqueNames(dir)
    ensures var r := Find(dir, want);
            if r.Some? then r.value.slot < |dir| && Used(dir[r.value.slot]) && NameOf(dir[r.value.slot]) == want
                            && r.value == FileAt(dir, r.value.slot)
            else forall t | 0 <= t < |dir| && Used(dir[t]) :: NameOf(dir[t]) != want
  {
    FoundUsed(dir, 0, want);
    if Find(dir, want).None? {
      forall t | 0 <= t < |dir| && Used(dir[t]) ensures NameOf(dir[t]) != want {
        if NameOf(dir[t]) == want { FindsNamed(dir, 0, want, t); }
      }
    }
  }

  lemma {:induction false} FindAt(dir: seq<seq<Byte>>, t: nat)
    requires Entries(dir) && TailClean(dir) && UniqueNames(dir) && t < |dir| && Used(dir[t])
    ensures Find(dir, NameOf(dir[t])) == Some(FileAt(dir, t))
  {
    FindExact(dir, NameOf(dir[t]));
  }

  /** The bytes of the file in a slot. */
  ghost function FileBytes(v: Volume, cb: nat, e: seq<Byte>, cs: seq<nat>): seq<Byte>
    requires Sound(v, cb) && |e| == 32 && Used(e) && FileOk(v, cb, e, cs)
  {
    var n := Clusters(SizeOf(e), cb);
    EnoughClusters(v, cb, e, cs);
    FileReadable(v, cb, e, cs);
    ReadFrom(v, cb, FirstOf(e), n).value[..SizeOf(e)]
  }

  /** All of a file is on the disk. */
  lemma {:induction false} FileReadable(v: Volume, cb: nat, e: seq<Byte>, cs: seq<nat>)
    requires Sound(v, cb) && |e| == 32 && Used(e) && FileOk(v, cb, e, cs)
    requires Follows(FirstOf(e)) ==> FirstOf(e) < |v.fat|
    ensures ReadFrom(v, cb, FirstOf(e), Clusters(SizeOf(e), cb)).Some?
  {
    EnoughClusters(v, cb, e, cs);
    if cs != [] { ReadsChain(v, cb, FirstOf(e), cs, Clusters(SizeOf(e), cb)); }
  }

  lemma {:induction false} EnoughClusters(v: Volume, cb: nat, e: seq<Byte>, cs: seq<nat>)
    requires 0 < cb && |e| == 32 && Used(e) && FileOk(v, cb, e, cs)
    ensures var n := Clusters(SizeOf(e), cb); n <= |cs| && SizeOf(e) <= n * cb
    ensures Follows(FirstOf(e)) ==> FirstOf(e) < |v.fat|
  {
    CoverSize(SizeOf(e), cb);
    LeastCover(SizeOf(e), |cs|, cb);
    if cs != [] { ChainRange(v.fat, FirstOf(e), cs); }
  }

  lemma {:induction false} LeastCover(size: nat, n: nat, cb: nat)
    requires 0 < cb && size <= n * cb
    ensures Clusters(size, cb) <= n
  {
    CoverSize(size, cb);
    if n < Clusters(size, cb) {
      MulMonotone(n, Clusters(size, cb) - 1, cb);
      assert false;
    }
  }

  lemma {:induction false} ReadSlot(v: Volume, cb: nat, cs: seq<seq<nat>>, t: nat)
    requires WellFormed(v, cb, cs) && t < |v.dir| && Used(v.dir[t])
    ensures ReadKey(v, cb, NameOf(v.dir[t])) == Some(FileBytes(v, cb, v.dir[t], cs[t]))
  {
    FindAt(v.dir, t);
    assert FileOk(v, cb, v.dir[t], cs[t]);
    FileReadable(v, cb, v.dir[t], cs[t]);
  }

  lemma {:induction false} ReadNone(v: Volume, cb: nat, cs: seq<seq<nat>>, want: seq<Byte>)
    requires WellFormed(v, cb, cs)
    requires forall t | 0 <= t < |v.dir| && Used(v.dir[t]) :: want != NameOf(v.dir[t])
    ensures ReadKey(v, cb, want) == None
  {
    FindExact(v.dir, want);
  }

  /** Two volumes agree on some clusters, links and data. */
  ghost predicate SameAt(v: Volume, v2: Volume, cs: seq<nat>) {
    && |v.fat| == |v2.fat| == |v.data| == |v2.data|
    && forall k | k in cs && k < |v.fat| :: v.fat[k] == v2.fat[k] && v.data[k] == v2.data[k]
  }

  /** A file's bytes depend on its entry and its own clusters only. */
  lemma {:induction false} BytesFrame(v: Volume, v2: Volume, cb: nat, e: seq<Byte>, cs: seq<nat>)
    requires Sound(v, cb) && Sound(v2, cb) && |v.fat| == |v2.fat| && |e| == 32 && Used(e) && FileOk(v, cb, e, cs)
    requires SameAt(v, v2, cs)
    ensures FileOk(v2, cb, e, cs) && FileBytes(v, cb, e, cs) == FileBytes(v2, cb, e, cs)
  {
    HasChainFrame(v.fat, v2.fat, FirstOf(e), cs);
    EnoughClusters(v, cb, e, cs);
    if cs == [] {
    } else {
      var n := Clusters(SizeOf(e), cb);
      ChainRange(v.fat, FirstOf(e), cs);
      ReadsChain(v, cb, FirstOf(e), cs, n);
      ReadsChain(v2, cb, FirstOf(e), cs, n);
      assert forall k | k in cs[..n] :: k in cs;
      JoinFrame(v.data, v2.data, cs[..n]);
    }
  }

  // ----- replacing one slot -----

  /** Give slot `slot` the entry `e` and the clusters `chain`, leaving every other file's
      clusters alone: the volume stays well formed. */
  lemma {:induction false} Install(v: Volume, v2: Volume, cb: nat, cs: seq<seq<nat>>, slot: nat, chain: seq<nat>)
    requires WellFormed(v, cb, cs) && slot < |v.dir| && Sound(v2, cb) && |v2.fat| == |v.fat| && |v2.dir| == |v.dir|
    requires forall t | 0 <= t < |v.dir| && t != slot :: v2.dir[t] == v.dir[t]
    requires TailClean(v2.dir) && UniqueNames(v2.dir) && FileOk(v2, cb, v2.dir[slot], chain)
    requires forall t | 0 <= t < |cs| && t != slot :: SameAt(v, v2, cs[t]) && Apart(cs[t], chain)
    ensures WellFormed(v2, cb, cs[slot := chain])
  {
    var cs2 := cs[slot := chain];
    forall t | 0 <= t < |cs2| ensures FileOk(v2, cb, v2.dir[t], cs2[t]) {
      if t != slot {
        assert FileOk(v, cb, v.dir[t], cs[t]);
        if Used(v.dir[t]) { HasChainFrame(v.fat, v2.fat, FirstOf(v.dir[t]), cs[t]); }
      }
    }
    forall s, t | 0 <= s < |cs2| && 0 <= t < |cs2| && s != t ensures Apart(cs2[s], cs2[t]) {
      assert s != slot && t != slot ==> Apart(cs[s], cs[t]);
      assert s != slot ==> Apart(cs[s], chain);
      assert t != slot ==> Apart(cs[t], chain);
    }
  }

  /** A name that neither the old nor the new entry of the slot carries reads as before. */
  lemma {:induction false} OthersRead(v: Volume, v2: Volume, cb: nat, cs: seq<seq<nat>>, slot: nat, chain: seq<nat>,
      other: seq<Byte>)
    requires WellFormed(v, cb, cs) && slot < |v.dir| && |v2.dir| == |v.dir| && |v2.fat| == |v.fat|
    requires WellFormed(v2, cb, cs[slot := chain])
    requires forall t | 0 <= t < |v.dir| && t != slot :: v2.dir[t] == v.dir[t]
    requires forall t | 0 <= t < |cs| && t != slot :: SameAt(v, v2, cs[t])
    requires Used(v.dir[slot]) ==> other != NameOf(v.dir[slot])
    requires Used(v2.dir[slot]) ==> other != NameOf(v2.dir[slot])
    ensures ReadKey(v2, cb, other) == ReadKey(v, cb, other)
  {
    if t :| 0 <= t < |v.dir| && Used(v.dir[t]) && other == NameOf(v.dir[t]) {
      assert FileOk(v, cb, v.dir[t], cs[t]);
      BytesFrame(v, v2, cb, v.dir[t], cs[t]);
      ReadSlot(v, cb, cs, t);
      ReadSlot(v2, cb, cs[slot := chain], t);
    } else {
      ReadNone(v, cb, cs, other);
      ReadNone(v2, cb, cs[slot := chain], other);
    }
  }

  // ----- deleting -----

  lemma {:induction false} DeleteDir(dir: seq<seq<Byte>>, slot: nat)
    requires Entries(dir) && TailClean(dir) && UniqueNames(dir) && slot < |dir| && Used(dir[slot])
    ensures var dir2 := dir[slot := Erased(dir[slot])];
            Entries(dir2) && TailClean(dir2) && UniqueNames(dir2) && !Used(dir2[slot])
  {
  }

  /** On a well-formed volume a name reads if and only if an entry carries it. */
  lemma {:induction false} ReadsExactly(v: Volume, cb: nat, cs: seq<seq<nat>>, name: Name)
    requires WellFormed(v, cb, cs)
    ensures Read(v, cb, name).Some? <==> Key(name).Some? && Find(v.dir, Key(name).value).Some?
  {
    if Key(name).Some? {
      FindExact(v.dir, Key(name).value);
      var f := Find(v.dir, Key(name).value);
      if f.Some? { ReadSlot(v, cb, cs, f.value.slot); }
    }
  }

  /** Deleting a file frees exactly its clusters and keeps the volume well formed; the name
      is gone and every other name reads as before. A name that is not there changes nothing. */
  lemma {:induction false} DeleteKeeps(v: Volume, cb: nat, cs: seq<seq<nat>>, name: Name)
    requires WellFormed(v, cb, cs)
    ensures var r := Delete(v, cb, name);
            && (r.ok <==> Read(v, cb, name).Some?)
            && (!r.ok ==> r.vol == v)
            && (r.ok ==>
                var slot := Find(v.dir, Key(name).value).value.slot;
                && slot < |cs| && WellFormed(r.vol, cb, cs[slot := []])
                && (forall k | 0 <= k < |v.fat| :: r.vol.fat[k] == if k in cs[slot] then 0 else v.fat[k])
                && r.vol.data == v.data)
  {
    hide ReadKey, Scan, FreeChain, Chain, Chars, Shown, From83, FreeClusters, Link, Fill, FreeSlot;
    ReadsExactly(v, cb, cs, name);
    if Delete(v, cb, name).ok {
      var want := Key(name).value;
      FindExact(v.dir, want);
      var f := Find(v.dir, want).value;
      var v2 := Delete(v, cb, name).vol;
      assert FileOk(v, cb, v.dir[f.slot], cs[f.slot]);
      FreesChain(v.fat, f.first, cs[f.slot]);
      DeleteDir(v.dir, f.slot);
      forall t | 0 <= t < |cs| && t != f.slot ensures SameAt(v, v2, cs[t]) {
        assert Apart(cs[t], cs[f.slot]);
      }
      Install(v, v2, cb, cs, f.slot, []);
    }
  }

  lemma {:induction false} DeleteReads(v: Volume, cb: nat, cs: seq<seq<nat>>, name: Name, other: Name)
    requires WellFormed(v, cb, cs) && Delete(v, cb, name).ok
    ensures var v2 := Delete(v, cb, name).vol;
            Sound(v2, cb) && Read(v2, cb, other) == if Key(other) == Key(name) then None else Read(v, cb, other)
  {
    hide Chars, Shown, From83, FreeChain, FreeClusters, Scan, Link, Fill, FreeSlot;
    DeleteKeeps(v, cb, cs, name);
    FindExact(v.dir, Key(name).value);
    var v2, slot := Delete(v, cb, name).vol, Find(v.dir, Key(name).value).value.slot;
    DeleteDir(v.dir, slot);
    if Key(other) == Key(name) {
      ReadNone(v2, cb, cs[slot := []], Key(name).value);
    } else if Key(other).Some? {
      forall t | 0 <= t < |cs| && t != slot ensures SameAt(v, v2, cs[t]) {
        assert Apart(cs[t], cs[slot]);
      }
      OthersRead(v, v2, cb, cs, slot, [], Key(other).value);
    }
  }

  // ----- writing -----

  /** Only the old file's clusters change in the table. */
  lemma {:induction false} FreedExactly(v: Volume, cb: nat, cs: seq<seq<nat>>, want: seq<Byte>)
    requires WellFormed(v, cb, cs)
    ensures var f, fat := Find(v.dir, want), FreedFor(v, cb, want);
            if f.Some? then f.value.slot < |cs| && forall k | 0 <= k < |fat| ::
              fat[k] == if k in cs[f.value.slot] then 0 else v.fat[k]
            else fat == v.fat
  {
    FindExact(v.dir, want);
    var f := Find(v.dir, want);
    if f.Some? {
      assert FileOk(v, cb, v.dir[f.value.slot], cs[f.value.slot]);
      FreesChain(v.fat, f.value.first, cs[f.value.slot]);
    }
  }

  /** The clusters found are the old file's or nobody's. */
  lemma {:induction false} NewChainApart(v: Volume, cb: nat, cs: seq<seq<nat>>, want: seq<Byte>, size: nat, t: nat)
    requires WellFormed(v, cb, cs) && t < |cs|
    requires Find(v.dir, want).Some? ==> t != Find(v.dir, want).value.slot
    ensures Apart(cs[t], NewChain(v, cb, want, size))
  {
    FreedExactly(v, cb, cs, want);
    var fat, chain, f := FreedFor(v, cb, want), NewChain(v, cb, want, size), Find(v.dir, want);
    forall k | k in cs[t] ensures k !in chain {
      assert FileOk(v, cb, v.dir[t], cs[t]);
      ChainRange(v.fat, FirstOf(v.dir[t]), cs[t]);
      if f.Some? { assert Apart(cs[t], cs[f.value.slot]); }
      assert fat[k] != 0;
    }
  }

  /** What a file of `bytes` looks like once its clusters are linked and filled. */
  lemma {:induction false} Stored(fat: seq<Word16>, data: seq<seq<Byte>>, cb: nat, chain: seq<nat>, bytes: seq<Byte>,
      v2: Volume, e: seq<Byte>)
    requires 0 < cb && |data| == |fat| <= 0xfff8 && Distinct(chain) && |chain| == Needed(|bytes|, cb)
    requires (forall k | 0 <= k < |chain| :: 2 <= chain[k] < |fat|) && AllBacked(data, chain)
    requires Sound(v2, cb) && v2.fat == Link(fat, chain, 0) && v2.data == Fill(data, chain, bytes, cb, 0)
    requires |e| == 32 && Used(e) && FirstOf(e) == chain[0] && SizeOf(e) == |bytes| % 0x1_0000_0000
    ensures FileOk(v2, cb, e, chain) && FileBytes(v2, cb, e, chain) == bytes[..SizeOf(e)]
  {
    hide Link, Fill, Chain, Chunk, ReadFrom, Chars, From83, Sound;
    Links(fat, chain, 0);
    assert chain[0..] == chain;
    CoverSize(|bytes|, cb);
    MulMonotone(Clusters(|bytes|, cb), |chain|, cb);
    Fills(data, chain, bytes, cb, 0);
    assert AllBacked(v2.data, chain);
    EnoughClusters(v2, cb, e, chain);
    var n := Clusters(SizeOf(e), cb);
    ReadsChain(v2, cb, FirstOf(e), chain, n);
    JoinChunks(v2.data, chain[..n], bytes, cb, 0);
    PaddedTake(bytes, n * cb, SizeOf(e));
  }

  lemma {:induction false} WriteDir(dir: seq<seq<Byte>>, want: seq<Byte>, e: seq<Byte>)
    requires Entries(dir) && TailClean(dir) && UniqueNames(dir) && Slot(dir, want).Some?
    requires |e| == 32 && Used(e) && NameOf(e) == want
    ensures Slot(dir, want).value < |dir|
    ensures var dir2 := dir[Slot(dir, want).value := e];
            Entries(dir2) && TailClean(dir2) && UniqueNames(dir2)
  {
    FindExact(dir, want);
  }

  /** A first byte that reads as a vacant slot hides the file it is written for. */
  predicate Keeps(raw: seq<Byte>)
    requires |raw| == 11
  {
    raw[0] != FREE_AHEAD && raw[0] != DELETED
  }

  lemma {:induction false} StoreSound(v: Volume, cb: nat, want: seq<Byte>, bytes: seq<Byte>)
    requires Sound(v, cb)
    ensures Sound(Store(v, cb, want, bytes), cb)
  {
    var fat, chain := FreedFor(v, cb, want), NewChain(v, cb, want, |bytes|);
    LinksInRange(fat, chain, 0);
    FillShape(v.data, chain, bytes, cb, 0);
  }

  lemma {:induction false} WriteSound(v: Volume, cb: nat, name: Name, bytes: seq<Byte>)
    requires Sound(v, cb)
    ensures Sound(Write(v, cb, name, bytes).vol, cb)
  {
    hide FreeChain, FreeClusters, Scan, Chars, From83, Link, Fill, FreeSlot;
    if To83(name).Some? {
      var want := From83(To83(name).value);
      StoreSound(v, cb, want, bytes);
    }
  }

  /** Filling leaves every cluster as long as it is. */
  lemma {:induction false} FillShape(data: seq<seq<Byte>>, chain: seq<nat>, bytes: seq<Byte>, cb: nat, i: nat)
    requires cb > 0 && forall k | 0 <= k < |chain| :: 2 <= chain[k] < |data|
    requires forall c | 2 <= c < |data| :: |data[c]| == if Backed(data, c) then cb else 0
    ensures forall c | 0 <= c < |data| :: |Fill(data, chain, bytes, cb, i)[c]| == |data[c]|
    decreases |chain| - i
  {
    if i < |chain| && Backed(data, chain[i]) {
      FillShape(data[chain[i] := Chunk(bytes, i, cb)], chain, bytes, cb, i + 1);
    }
  }

  lemma {:induction false} NewEntryUsed(raw: seq<Byte>, first: Word16, size: Word)
    requires |raw| == 11
    ensures Used(NewEntry(raw, first, size)) <==> Keeps(raw)
    ensures NameOf(NewEntry(raw, first, size)) == From83(raw)
  {
  }

  /** The clusters of every slot after a write of `size` bytes. */
  ghost function ChainsAfter(v: Volume, cb: nat, cs: seq<seq<nat>>, name: Name, size: nat): seq<seq<nat>>
    requires Sound(v, cb) && |cs| == |v.dir|
  {
    match Key(name)
    case None => cs
    case Some(want) =>
      match Slot(v.dir, want)
      case None => cs
      case Some(slot) => cs[slot := NewChain(v, cb, want, size)]
  }

  /** As many bytes as a 32-bit size can tell. */
  function Recorded(bytes: seq<Byte>): (r: seq<Byte>)
    ensures r == bytes <==> |bytes| < 0x1_0000_0000
  {
    assert |bytes| >= 0x1_0000_0000 ==> |bytes[..|bytes| % 0x1_0000_0000]| < |bytes|;
    bytes[..|bytes| % 0x1_0000_0000]
  }

  /** A write whose entry shows: the slot gets the new clusters, and the name reads back the bytes,
      as far as a 32-bit size can tell. */
  lemma {:induction false} KeptWrite(v: Volume, cb: nat, cs: seq<seq<nat>>, name: Name, bytes: seq<Byte>)
    requires WellFormed(v, cb, cs) && Write(v, cb, name, bytes).ok && Keeps(To83(name).value)
    ensures Sound(Write(v, cb, name, bytes).vol, cb)
    ensures WellFormed(Write(v, cb, name, bytes).vol, cb, ChainsAfter(v, cb, cs, name, |bytes|))
    ensures Read(Write(v, cb, name, bytes).vol, cb, name) == Some(Recorded(bytes))
  {
    hide Chars, Shown, From83, FreeChain, FreeClusters, Scan, Link, Fill, FreeSlot;
    var raw, want := To83(name).value, Key(name).value;
    var v2, slot := Write(v, cb, name, bytes).vol, Slot(v.dir, want).value;
    var fat, chain := FreedFor(v, cb, want), NewChain(v, cb, want, |bytes|);
    var e := NewEntry(raw, chain[0], |bytes| % 0x1_0000_0000);
    NewEntryUsed(raw, chain[0], |bytes| % 0x1_0000_0000);
    WriteSound(v, cb, name, bytes);
    WriteDir(v.dir, want, e);
    Stored(fat, v.data, cb, chain, bytes, v2, e);
    WriteTable(v, cb, cs, want, |bytes|);
    WriteElsewhere(v, cb, cs, name, bytes);
    Install(v, v2, cb, cs, slot, chain);
    ReadSlot(v2, cb, cs[slot := chain], slot);
  }

  lemma {:induction false} WrittenEntry(v: Volume, cb: nat, name: Name, bytes: seq<Byte>, slot: nat)
    requires Sound(v, cb) && Write(v, cb, name, bytes).ok && Keeps(To83(name).value) &&
             Slot(v.dir, Key(name).value) == Some(slot)
    ensures var v2 := Write(v, cb, name, bytes).vol;
            slot < |v2.dir| && |v2.dir[slot]| == 32 && Used(v2.dir[slot]) && NameOf(v2.dir[slot]) == Key(name).value
  {
    var chain := NewChain(v, cb, Key(name).value, |bytes|);
    NewEntryUsed(To83(name).value, chain[0], |bytes| % 0x1_0000_0000);
  }

  /** The table changes at the slot's old and new clusters only, and the new ones are no other file's. */
  lemma {:induction false} WriteTable(v: Volume, cb: nat, cs: seq<seq<nat>>, want: seq<Byte>, size: nat)
    requires WellFormed(v, cb, cs) && Slot(v.dir, want).Some?
    ensures var slot, chain := Slot(v.dir, want).value, NewChain(v, cb, want, size);
            && (forall k | 0 <= k < |v.fat| && k !in cs[slot] && k !in chain ::
               Link(FreedFor(v, cb, want), chain, 0)[k] == v.fat[k])
            && (forall t | 0 <= t < |cs| && t != slot :: Apart(cs[t], chain))
  {
    var slot, chain := Slot(v.dir, want).value, NewChain(v, cb, want, size);
    FreedExactly(v, cb, cs, want);
    Links(FreedFor(v, cb, want), chain, 0);
    assert chain[0..] == chain;
    forall t | 0 <= t < |cs| && t != slot ensures Apart(cs[t], chain) {
      NewChainApart(v, cb, cs, want, size, t);
    }
  }

  lemma {:induction false} KeptReads(v: Volume, cb: nat, cs: seq<seq<nat>>, name: Name, bytes: seq<Byte>,
      other: seq<Byte>)
    requires WellFormed(v, cb, cs) && Write(v, cb, name, bytes).ok && Keeps(To83(name).value) &&
             other != Key(name).value
    ensures Sound(Write(v, cb, name, bytes).vol, cb)
    ensures ReadKey(Write(v, cb, name, bytes).vol, cb, other) == ReadKey(v, cb, other)
  {
    var v2, want := Write(v, cb, name, bytes).vol, Key(name).value;
    var slot, chain := Slot(v.dir, want).value, NewChain(v, cb, want, |bytes|);
    KeptWrite(v, cb, cs, name, bytes);
    WrittenEntry(v, cb, name, bytes, slot);
    FindExact(v.dir, want);
    WriteElsewhere(v, cb, cs, name, bytes);
    OthersRead(v, v2, cb, cs, slot, chain, other);
  }

  lemma {:induction false} WriteElsewhere(v: Volume, cb: nat, cs: seq<seq<nat>>, name: Name, bytes: seq<Byte>)
    requires WellFormed(v, cb, cs) && Write(v, cb, name, bytes).ok
    ensures var v2, slot := Write(v, cb, name, bytes).vol, Slot(v.dir, Key(name).value).value;
            forall t | 0 <= t < |cs| && t != slot :: SameAt(v, v2, cs[t])
  {
    var v2, want := Write(v, cb, name, bytes).vol, Key(name).value;
    var slot, chain := Slot(v.dir, want).value, NewChain(v, cb, want, |bytes|);
    WriteTable(v, cb, cs, want, |bytes|);
    FillsOnly(v.data, chain, bytes, cb, 0);
    forall t | 0 <= t < |cs| && t != slot ensures SameAt(v, v2, cs[t]) {
      assert Apart(cs[t], cs[slot]) && Apart(cs[t], chain);
    }
  }

  // ----- names that hide their file -----

  /** What is shown of a field starts as the field does, and is not nothing if that is no white space. */
  lemma {:induction false} FirstOfField(field: seq<Byte>)
    requires field != [] && Chars(field).Some? && (field[0] == FREE_AHEAD || field[0] == DELETED)
    ensures Shown(field) != [] && Shown(field)[0] == field[0]
  {
    var (c, n) := First(field).value;
    assert !White(c);
  }

  lemma {:induction false} NameHidden(raw: seq<Byte>, e: seq<Byte>)
    requires |raw| == 11 && Chars(raw[..8]).Some? && !Keeps(raw) && |e| == 32 && Used(e)
    ensures NameOf(e) != From83(raw)
  {
    hide Chars, Trimmed;
    FirstOfField(raw[..8]);
    assert From83(raw)[0] == raw[0];
    var field := e[..11][..8];
    assert field[0] == e[0];
    var name := NameOf(e);
    assert name == [] || name[0] == DOT || name[0] == e[0];
  }

  lemma {:induction false} HiddenRead(v: Volume, cb: nat, name: Name)
    requires Sound(v, cb) && To83(name).Some? && !Keeps(To83(name).value)
    ensures Find(v.dir, Key(name).value) == None && Read(v, cb, name) == None
  {
    var raw := To83(name).value;
    FoundUsed(v.dir, 0, From83(raw));
    var f := Find(v.dir, From83(raw));
    FieldsChars(name);
    if f.Some? { NameHidden(raw, v.dir[f.value.slot]); }
  }

  /** After a successful write the name reads back exactly the bytes if and only if its first
      byte is neither 0x00 nor 0xE5 and the bytes are fewer than 2^32. */
  lemma {:induction false} ReadBackExactly(v: Volume, cb: nat, cs: seq<seq<nat>>, name: Name, bytes: seq<Byte>)
    requires WellFormed(v, cb, cs) && Write(v, cb, name, bytes).ok
    ensures var v2 := Write(v, cb, name, bytes).vol;
            Sound(v2, cb) && (Read(v2, cb, name) == Some(bytes) <==> Keeps(To83(name).value) && |bytes| < 0x1_0000_0000)
  {
    var v2, raw := Write(v, cb, name, bytes).vol, To83(name).value;
    WriteSound(v, cb, name, bytes);
    if Keeps(raw) {
      KeptWrite(v, cb, cs, name, bytes);
    } else {
      HiddenRead(v2, cb, name);
    }
  }

  // ----- what a successful write keeps, for every name -----

  /** Nothing but what the list of files skips stands behind the slot. */
  ghost predicate NoFileBehind(dir: seq<seq<Byte>>, slot: nat)
    requires Entries(dir)
  {
    forall t | slot < t < |dir| :: !Used(dir[t])
  }

  ghost predicate VacantBehind(dir: seq<seq<Byte>>, slot: nat)
    requires Entries(dir)
  {
    forall t | slot < t < |dir| :: Vacant(dir[t])
  }

  lemma {:induction false} ScanEmpty(dir: seq<seq<Byte>>, s: nat)
    requires Entries(dir) && forall t | s <= t < |dir| :: !Used(dir[t])
    ensures Scan(dir, s) == []
    decreases |dir| - s
  {
    if s < |dir| { ScanEmpty(dir, s + 1); }
  }

  /** A vacant entry for another one: the listing is the same unless the end mark moves over a file. */
  lemma {:induction false} ScanVacant(dir: seq<seq<Byte>>, s: nat, slot: nat, e: seq<Byte>)
    requires Entries(dir) && slot < |dir| && |e| == 32 && Vacant(dir[slot]) && Vacant(e)
    requires dir[slot][0] == e[0] || NoFileBehind(dir, slot)
    ensures Entries(dir[slot := e]) && Scan(dir[slot := e], s) == Scan(dir, s)
    decreases |dir| - s
  {
    var dir2 := dir[slot := e];
    if s < |dir| {
      ScanVacant(dir, s + 1, slot, e);
      if s == slot && NoFileBehind(dir, slot) {
        ScanEmpty(dir, s + 1);
      }
    }
  }

  /** What is found stands before the end mark. */
  lemma {:induction false} FoundBefore(dir: seq<seq<Byte>>, s: nat, want: seq<Byte>, i: nat)
    requires Entries(dir) && Named(Scan(dir, s), want).Some? && s <= i < |dir| && dir[i][0] == FREE_AHEAD
    ensures Named(Scan(dir, s), want).value.slot < i
    decreases i - s
  {
    hide Chars, From83;
    if s < i && dir[s][0] != FREE_AHEAD {
      if Used(dir[s]) {
        assert Scan(dir, s)[1..] == Scan(dir, s + 1);
        if NameOf(dir[s]) != want { FoundBefore(dir, s + 1, want, i); }
      } else {
        FoundBefore(dir, s + 1, want, i);
      }
    }
  }

  /** A write of a name that hides its file goes to the first vacant slot. */
  lemma {:induction false} HiddenSlot(v: Volume, cb: nat, cs: seq<seq<nat>>, name: Name, bytes: seq<Byte>)
    requires WellFormed(v, cb, cs) && Write(v, cb, name, bytes).ok && !Keeps(To83(name).value)
    ensures Sound(Write(v, cb, name, bytes).vol, cb)
    ensures var v2, raw, slot := Write(v, cb, name, bytes).vol, To83(name).value, Slot(v.dir, Key(name).value).value;
            && Vacant(v.dir[slot]) && cs[slot] == [] && (forall i | 0 <= i < slot :: !Vacant(v.dir[i]))
            && |v2.dir| == |v.dir| && v2.dir == v.dir[slot := v2.dir[slot]]
            && Vacant(v2.dir[slot]) && v2.dir[slot][0] == raw[0]
  {
    var raw, want := To83(name).value, Key(name).value;
    WriteSound(v, cb, name, bytes);
    FoundUsed(v.dir, 0, want);
    if Find(v.dir, want).Some? {
      FieldsChars(name);
      NameHidden(raw, v.dir[Find(v.dir, want).value.slot]);
      assert false;
    }
    var slot := Slot(v.dir, want).value;
    assert FileOk(v, cb, v.dir[slot], cs[slot]);
  }

  /** The end mark in front of a file: the file is gone. */
  lemma {:induction false} FileBehindLost(v: Volume, cb: nat, cs: seq<seq<nat>>, name: Name, bytes: seq<Byte>,
      t: nat)
    requires WellFormed(v, cb, cs) && Write(v, cb, name, bytes).ok && To83(name).value[0] == FREE_AHEAD
    requires Slot(v.dir, Key(name).value).value < t < |v.dir| && Used(v.dir[t])
    ensures var v2, lost := Write(v, cb, name, bytes).vol, NameOf(v.dir[t]);
            Sound(v2, cb) && lost != Key(name).value && ReadKey(v, cb, lost).Some? && ReadKey(v2, cb, lost) == None
  {
    var v2, slot, lost := Write(v, cb, name, bytes).vol, Slot(v.dir, Key(name).value).value, NameOf(v.dir[t]);
    HiddenSlot(v, cb, cs, name, bytes);
    FieldsChars(name);
    NameHidden(To83(name).value, v.dir[t]);
    ReadSlot(v, cb, cs, t);
    FoundUsed(v2.dir, 0, lost);
    if Find(v2.dir, lost).Some? {
      FoundBefore(v2.dir, 0, lost, slot);
      assert false;
    }
  }

  /** The end mark moves over no file: every name reads as before. */
  lemma {:induction false} HiddenReads(v: Volume, cb: nat, cs: seq<seq<nat>>, name: Name, bytes: seq<Byte>,
      other: seq<Byte>)
    requires WellFormed(v, cb, cs) && Write(v, cb, name, bytes).ok && !Keeps(To83(name).value)
    requires To83(name).value[0] == FREE_AHEAD ==> NoFileBehind(v.dir, Slot(v.dir, Key(name).value).value)
    ensures Sound(Write(v, cb, name, bytes).vol, cb)
    ensures ReadKey(Write(v, cb, name, bytes).vol, cb, other) == ReadKey(v, cb, other)
  {
    hide Chars, Shown, From83, FreeChain, FreeClusters, Scan, Link, Fill, FreeSlot;
    var v2, slot := Write(v, cb, name, bytes).vol, Slot(v.dir, Key(name).value).value;
    HiddenSlot(v, cb, cs, name, bytes);
    ScanVacant(v.dir, 0, slot, v2.dir[slot]);
    FoundUsed(v.dir, 0, other);
    var f := Find(v.dir, other);
    if f.Some? {
      var t := f.value.slot;
      WriteElsewhere(v, cb, cs, name, bytes);
      assert FileOk(v, cb, v.dir[t], cs[t]);
      BytesFrame(v, v2, cb, v.dir[t], cs[t]);
      FileReadable(v, cb, v.dir[t], cs[t]);
      FileReadable(v2, cb, v.dir[t], cs[t]);
    }
  }

  /** After a successful write every other name reads as before if and only if the new entry is not
      an end mark in front of a file. */
  lemma {:induction false} WriteReads(v: Volume, cb: nat, cs: seq<seq<nat>>, name: Name, bytes: seq<Byte>)
    requires WellFormed(v, cb, cs) && Write(v, cb, name, bytes).ok
    ensures Sound(Write(v, cb, name, bytes).vol, cb)
    ensures (forall other | other != Key(name).value ::
               ReadKey(Write(v, cb, name, bytes).vol, cb, other) == ReadKey(v, cb, other)) <==>
            (To83(name).value[0] == FREE_AHEAD ==> NoFileBehind(v.dir, Slot(v.dir, Key(name).value).value))
  {
    var v2, raw, slot := Write(v, cb, name, bytes).vol, To83(name).value, Slot(v.dir, Key(name).value).value;
    WriteSound(v, cb, name, bytes);
    if raw[0] == FREE_AHEAD && !NoFileBehind(v.dir, slot) {
      var t :| slot < t < |v.dir| && Used(v.dir[t]);
      FileBehindLost(v, cb, cs, name, bytes, t);
    } else {
      forall other | other != Key(name).value ensures ReadKey(v2, cb, other) == ReadKey(v, cb, other) {
        if Keeps(raw) {
          KeptReads(v, cb, cs, name, bytes, other);
        } else {
          HiddenReads(v, cb, cs, name, bytes, other);
        }
      }
    }
  }

  /** A successful write keeps the volume well formed if and only if the new entry is not an end mark
      in front of an entry that is not vacant. An entry that shows gets the new clusters, and its
      name reads back the bytes, as far as a 32-bit size can tell. */
  lemma {:induction false} WriteKeeps(v: Volume, cb: nat, cs: seq<seq<nat>>, name: Name, bytes: seq<Byte>)
    requires WellFormed(v, cb, cs) && Write(v, cb, name, bytes).ok
    ensures Sound(Write(v, cb, name, bytes).vol, cb)
    ensures (exists cs2 :: WellFormed(Write(v, cb, name, bytes).vol, cb, cs2)) <==>
            (To83(name).value[0] == FREE_AHEAD ==> VacantBehind(v.dir, Slot(v.dir, Key(name).value).value))
    ensures Keeps(To83(name).value) ==>
              WellFormed(Write(v, cb, name, bytes).vol, cb, ChainsAfter(v, cb, cs, name, |bytes|))
    ensures Keeps(To83(name).value) ==>
              Read(Write(v, cb, name, bytes).vol, cb, name) == Some(Recorded(bytes))
  {
    var v2, raw, slot := Write(v, cb, name, bytes).vol, To83(name).value, Slot(v.dir, Key(name).value).value;
    WriteSound(v, cb, name, bytes);
    if Keeps(raw) {
      KeptWrite(v, cb, cs, name, bytes);
    } else {
      HiddenSlot(v, cb, cs, name, bytes);
      if raw[0] == FREE_AHEAD && !VacantBehind(v.dir, slot) {
        var t :| slot < t < |v.dir| && !Vacant(v.dir[t]);
        assert v2.dir[slot][0] == FREE_AHEAD && v2.dir[t] == v.dir[t];
        assert !TailClean(v2.dir);
      } else {
        HiddenFormed(v, cb, cs, name, bytes);
      }
    }
  }

  lemma {:induction false} HiddenFormed(v: Volume, cb: nat, cs: seq<seq<nat>>, name: Name, bytes: seq<Byte>)
    requires WellFormed(v, cb, cs) && Write(v, cb, name, bytes).ok && !Keeps(To83(name).value)
    requires To83(name).value[0] == FREE_AHEAD ==> VacantBehind(v.dir, Slot(v.dir, Key(name).value).value)
    ensures WellFormed(Write(v, cb, name, bytes).vol, cb, cs)
  {
    hide Chars, Shown, From83, FreeChain, FreeClusters, Scan, Link, Fill, FreeSlot;
    var v2, slot := Write(v, cb, name, bytes).vol, Slot(v.dir, Key(name).value).value;
    HiddenSlot(v, cb, cs, name, bytes);
    WriteElsewhere(v, cb, cs, name, bytes);
    assert cs[slot := []] == cs;
    Install(v, v2, cb, cs, slot, []);
  }

  lemma {:induction false} DeleteSound(v: Volume, cb: nat, name: Name)
    requires Sound(v, cb)
    ensures Sound(Delete(v, cb, name).vol, cb)
  {
    hide FreeChain, Scan, Chars, From83, Field, Shown;
    if Delete(v, cb, name).ok {
      FoundUsed(v.dir, 0, Key(name).value);
    }
  }
}
