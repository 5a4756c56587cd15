/** No cluster is lost or shared: what the operations do to the table as a whole, when they
    succeed and when they fail. */
module FatConservation {
  import opened Bytes
  import opened FatNames
  import opened FatVolume
  import opened FatChains
  import opened FatTheorems

  ghost predicate Owned(cs: seq<seq<nat>>, k: nat) { exists s :: 0 <= s < |cs| && k in cs[s] }

  /** Every cluster in use belongs to a file. */
  ghost predicate NoLeak(v: Volume, cs: seq<seq<nat>>) {
    forall k | 2 <= k < |v.fat| && v.fat[k] != 0 :: Owned(cs, k)
  }

  /** On a well-formed volume without leaks the clusters in use are exactly those of the files. */
  lemma {:induction false} InUseExactly(v: Volume, cb: nat, cs: seq<seq<nat>>, k: nat)
    requires WellFormed(v, cb, cs) && NoLeak(v, cs) && 2 <= k < |v.fat|
    ensures v.fat[k] != 0 <==> Owned(cs, k)
  {
    if s :| 0 <= s < |cs| && k in cs[s] {
      assert FileOk(v, cb, v.dir[s], cs[s]);
      ChainRange(v.fat, FirstOf(v.dir[s]), cs[s]);
    }
  }

  lemma {:induction false} OwnedBefore(cs: seq<seq<nat>>, slot: nat, chain: seq<nat>, k: nat)
    requires slot < |cs| && Owned(cs, k) && (k in cs[slot] ==> k in chain)
    ensures Owned(cs[slot := chain], k)
  {
    var s :| 0 <= s < |cs| && k in cs[s];
    assert k in cs[slot := chain][s];
  }

  lemma {:induction false} DeleteLeaks(v: Volume, cb: nat, cs: seq<seq<nat>>, name: Name)
    requires WellFormed(v, cb, cs) && NoLeak(v, cs) && Delete(v, cb, name).ok
    ensures var slot := Find(v.dir, Key(name).value).value.slot;
            slot < |cs| && NoLeak(Delete(v, cb, name).vol, cs[slot := []])
  {
    DeleteKeeps(v, cb, cs, name);
    var v2, slot := Delete(v, cb, name).vol, Find(v.dir, Key(name).value).value.slot;
    forall k | 2 <= k < |v2.fat| && v2.fat[k] != 0 ensures Owned(cs[slot := []], k) {
      OwnedBefore(cs, slot, [], k);
    }
  }

  /** Counting the clusters of the new chain as the slot's, whatever its entry says. */
  lemma {:induction false} ListedLeaks(v: Volume, cb: nat, cs: seq<seq<nat>>, name: Name, bytes: seq<Byte>)
    requires WellFormed(v, cb, cs) && NoLeak(v, cs) && Write(v, cb, name, bytes).ok
    ensures NoLeak(Write(v, cb, name, bytes).vol, ChainsAfter(v, cb, cs, name, |bytes|))
  {
    var want := Key(name).value;
    var v2, slot, chain := Write(v, cb, name, bytes).vol, Slot(v.dir, want).value, NewChain(v, cb, want, |bytes|);
    assert v2.fat == Link(FreedFor(v, cb, want), chain, 0);
    SlotVacant(v, cb, cs, want);
    forall k | 2 <= k < |v2.fat| && v2.fat[k] != 0 ensures Owned(cs[slot := chain], k) {
      if k in chain {
        assert k in cs[slot := chain][slot];
      } else {
        KeptInUse(v, cb, cs, want, |bytes|, k);
        OwnedBefore(cs, slot, chain, k);
      }
    }
  }

  lemma {:induction false} ChainUnique(fat: seq<Word16>, c: Word16, a: seq<nat>, b: seq<nat>)
    requires Chain(fat, c, a) && Chain(fat, c, b)
    ensures a == b
    decreases |a|
  {
    if a != [] && b != [] {
      ChainUnique(fat, fat[c], a[1..], b[1..]);
      assert a == [a[0]] + a[1..] && b == [b[0]] + b[1..];
    }
  }

  /** The table and the directory fix the clusters of every slot. */
  lemma {:induction false} ChainsUnique(fat: seq<Word16>, first: Word16, a: seq<nat>, b: seq<nat>)
    requires HasChain(fat, first, a) && HasChain(fat, first, b)
    ensures a == b
  {
    if a != [] && b != [] { ChainUnique(fat, first, a, b); }
  }

  /** A successful write from a volume without leaks leaves none if and only if its entry shows:
      clusters written for a name that starts with 0x00 or 0xE5 are in use and no file's. */
  lemma {:induction false} WriteLeaks(v: Volume, cb: nat, cs: seq<seq<nat>>, name: Name, bytes: seq<Byte>)
    requires WellFormed(v, cb, cs) && NoLeak(v, cs) && Write(v, cb, name, bytes).ok
    ensures var v2 := Write(v, cb, name, bytes).vol;
            (exists cs2 :: WellFormed(v2, cb, cs2) && NoLeak(v2, cs2)) <==> Keeps(To83(name).value)
  {
    var v2, raw := Write(v, cb, name, bytes).vol, To83(name).value;
    if Keeps(raw) {
      KeptWrite(v, cb, cs, name, bytes);
      ListedLeaks(v, cb, cs, name, bytes);
    } else {
      forall cs2 | WellFormed(v2, cb, cs2) ensures !NoLeak(v2, cs2) {
        HiddenLeaks(v, cb, cs, name, bytes, cs2);
      }
    }
  }

  /** The first cluster written for a hidden entry is in use and belongs to no slot. */
  lemma {:induction false} HiddenLeaks(v: Volume, cb: nat, cs: seq<seq<nat>>, name: Name, bytes: seq<Byte>,
      cs2: seq<seq<nat>>)
    requires WellFormed(v, cb, cs) && Write(v, cb, name, bytes).ok && !Keeps(To83(name).value)
    requires WellFormed(Write(v, cb, name, bytes).vol, cb, cs2)
    ensures !NoLeak(Write(v, cb, name, bytes).vol, cs2)
  {
    var v2, want := Write(v, cb, name, bytes).vol, Key(name).value;
    var slot, chain := Slot(v.dir, want).value, NewChain(v, cb, want, |bytes|);
    HiddenSlot(v, cb, cs, name, bytes);
    WriteTable(v, cb, cs, want, |bytes|);
    WriteElsewhere(v, cb, cs, name, bytes);
    Links(FreedFor(v, cb, want), chain, 0);
    assert chain[0..] == chain;
    ChainRange(v2.fat, chain[0], chain);
    assert chain[0] in chain;
    forall s | 0 <= s < |cs2| ensures chain[0] !in cs2[s] {
      assert FileOk(v2, cb, v2.dir[s], cs2[s]);
      if Used(v2.dir[s]) {
        assert s != slot && v2.dir[s] == v.dir[s];
        assert FileOk(v, cb, v.dir[s], cs[s]);
        HasChainFrame(v.fat, v2.fat, FirstOf(v.dir[s]), cs[s]);
        ChainsUnique(v2.fat, FirstOf(v.dir[s]), cs[s], cs2[s]);
      }
    }
  }

  lemma {:induction false} KeptInUse(v: Volume, cb: nat, cs: seq<seq<nat>>, want: seq<Byte>, size: nat, k: nat)
    requires WellFormed(v, cb, cs) && Slot(v.dir, want).Some? && k < |v.fat|
    requires Link(FreedFor(v, cb, want), NewChain(v, cb, want, size), 0)[k] != 0 && k !in NewChain(v, cb, want, size)
    ensures v.fat[k] != 0 && k !in cs[Slot(v.dir, want).value]
  {
    var chain := NewChain(v, cb, want, size);
    SlotVacant(v, cb, cs, want);
    FreedExactly(v, cb, cs, want);
    Links(FreedFor(v, cb, want), chain, 0);
    assert chain[0..] == chain;
  }

  lemma {:induction false} SlotVacant(v: Volume, cb: nat, cs: seq<seq<nat>>, want: seq<Byte>)
    requires WellFormed(v, cb, cs) && Slot(v.dir, want).Some?
    ensures Find(v.dir, want).None? ==> cs[Slot(v.dir, want).value] == []
    ensures Find(v.dir, want).Some? ==> Find(v.dir, want).value.slot == Slot(v.dir, want).value
  {
    var slot := Slot(v.dir, want).value;
    assert FileOk(v, cb, v.dir[slot], cs[slot]);
  }

  lemma {:induction false} KeptThenDelete(v: Volume, cb: nat, cs: seq<seq<nat>>, name: Name, bytes: seq<Byte>)
    requires WellFormed(v, cb, cs) && Write(v, cb, name, bytes).ok && Keeps(To83(name).value)
    requires Read(v, cb, name).None?
    ensures var v2 := Write(v, cb, name, bytes).vol;
            Sound(v2, cb) && Delete(v2, cb, name).ok && Delete(v2, cb, name).vol.fat == v.fat
  {
    hide FreeChain, FreeClusters, Link, Fill, Chain, HasChain, Apart, Scan, FreeSlot, UniqueNames, TailClean, ReadKey,
      AllBacked, Backed, From83;
    var want := Key(name).value;
    var v2, slot, chain := Write(v, cb, name, bytes).vol, Slot(v.dir, want).value, NewChain(v, cb, want, |bytes|);
    ReadsExactly(v, cb, cs, name);
    KeptWrite(v, cb, cs, name, bytes);
    WrittenEntry(v, cb, name, bytes, slot);
    WriteTable(v, cb, cs, want, |bytes|);
    SlotVacant(v, cb, cs, want);
    FindAt(v2.dir, slot);
    DeleteKeeps(v2, cb, cs[slot := chain], name);
    var v3 := Delete(v2, cb, name).vol;
    assert forall k | 0 <= k < |v.fat| :: v3.fat[k] == v.fat[k];
  }

  /** Writing a new name and deleting it again restores the whole table if and only if the entry
      shows; a hidden one is not found again, and its clusters stay in use. */
  lemma {:induction false} WriteThenDelete(v: Volume, cb: nat, cs: seq<seq<nat>>, name: Name, bytes: seq<Byte>)
    requires WellFormed(v, cb, cs) && Write(v, cb, name, bytes).ok && Read(v, cb, name).None?
    ensures Sound(Write(v, cb, name, bytes).vol, cb)
    ensures var r := Delete(Write(v, cb, name, bytes).vol, cb, name);
            (r.ok <==> Keeps(To83(name).value)) && (r.vol.fat == v.fat <==> Keeps(To83(name).value))
  {
    hide FreeChain, FreeClusters, Link, Fill, Chain, Scan, FreeSlot, ReadKey;
    var v2, raw, want := Write(v, cb, name, bytes).vol, To83(name).value, Key(name).value;
    WriteSound(v, cb, name, bytes);
    ReadsExactly(v, cb, cs, name);
    if Keeps(raw) {
      KeptThenDelete(v, cb, cs, name, bytes);
    } else {
      var chain := NewChain(v, cb, want, |bytes|);
      HiddenRead(v2, cb, name);
      FreedExactly(v, cb, cs, want);
      Links(FreedFor(v, cb, want), chain, 0);
      assert chain[0..] == chain;
      ChainRange(v2.fat, chain[0], chain);
      assert chain[0] in chain;
    }
  }
}
