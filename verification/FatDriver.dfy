/** The FAT16 driver: sectors are read, changed and written back in place. */
module FatDriver {
  import opened Bytes
  import opened Utf8
  import opened FatNames
  import opened FatVolume
  import opened FatImage
  import opened FatTheorems

  /** The block device and the layout found when the volume was mounted. */
  class Driver {
    const l: Layout
    var disk: seq<Byte>

    constructor (layout: Layout, image: seq<Byte>)
      requires Geometry(layout, image)
      ensures l == layout && disk == image && Valid()
    {
      l := layout;
      disk := image;
    }

    ghost predicate Valid()
      reads this
    {
      Geometry(l, disk)
    }

    /** The volume on the disk. */
    ghost function Vol(): Volume
      reads this
      requires Valid()
    {
      View(l, disk)
    }

    function Cb(): nat { ClusterBytes(l) }

    ghost predicate Good()
      reads this
    {
      Valid() && Sound(Vol(), Cb())
    }

    ghost predicate Mirrors()
      reads this
      requires Valid()
    {
      Mirrored(l, disk)
    }

    // ----- the block device -----

    function ReadSectors(lba: nat, count: nat): (bs: seq<Byte>)
      reads this
      requires (lba + count) * SECTOR <= |disk|
      ensures |bs| == count * SECTOR
    {
      disk[lba * SECTOR..(lba + count) * SECTOR]
    }

    /** Whether the device has the sectors; it refuses others. */
    predicate Reaches(lba: nat, count: nat)
      reads this
    {
      (lba + count) * SECTOR <= |disk|
    }

    method WriteSectors(lba: nat, bs: seq<Byte>)
      requires lba * SECTOR + |bs| <= |disk|
      modifies this
      ensures disk == Put(old(disk), lba * SECTOR, bs)
    {
      disk := Put(disk, lba * SECTOR, bs);
    }

    // ----- the allocation table -----

    method ReadFat(cluster: Word16) returns (value: Word16)
      requires Valid() && cluster < Total(l)
      ensures value == Vol().fat[cluster]
    {
      var at := cluster * 2;
      FatInside(l, disk, 0, cluster);
      RootInside(l, disk, 0);
      SectorOf(l.fatStart, at);
      var sec := ReadSectors(l.fatStart + at / SECTOR, 1);
      value := FromHalf(sec[at % SECTOR..at % SECTOR + 2]);
      SliceInside(disk, (l.fatStart + at / SECTOR) * SECTOR, SECTOR, at % SECTOR, 2);
    }

    /** Every copy of the table gets the entry. */
    method WriteFat(cluster: Word16, value: Word16)
      requires Valid() && cluster < Total(l)
      modifies this
      ensures Valid() && Vol() == old(Vol()).(fat := old(Vol()).fat[cluster := value])
      ensures old(Mirrors()) ==> Mirrors()
    {
      var at := cluster * 2;
      for fat := 0 to l.numFats
        invariant Valid()
        invariant Vol() == if fat == 0 then old(Vol()) else old(Vol()).(fat := old(Vol()).fat[cluster := value])
        invariant forall copy, c | 0 <= copy < l.numFats && 0 <= c < Total(l) ::
                    FatAt(l, disk, copy, c) == if copy < fat && c == cluster then value
                      else FatAt(l, old(disk), copy, c)
      {
        WriteEntry(fat, cluster, value);
      }
    }

    method WriteEntry(fat: nat, cluster: Word16, value: Word16)
      requires Valid() && fat < l.numFats && cluster < Total(l)
      modifies this
      ensures Valid() && Vol() == if fat == 0 then old(Vol()).(fat := old(Vol()).fat[cluster := value]) else old(Vol())
      ensures OneEntry(l, old(disk), disk, fat, cluster, value)
    {
      hide FatAt, DataAt, DirAt, View, OneEntry, Put;
      var at := cluster * 2;
      var lba := l.fatStart + fat * l.fatSectors + at / SECTOR;
      FatInside(l, disk, fat, cluster);
      RootInside(l, disk, 0);
      SectorOf(l.fatStart + fat * l.fatSectors, at);
      var sec := ReadSectors(lba, 1);
      ViewPutFat(l, disk, fat, cluster, value);
      EntryWritten(l, disk, fat, cluster, value);
      PutInside(disk, lba * SECTOR, SECTOR, at % SECTOR, Half(value));
      WriteSectors(lba, Put(sec, at % SECTOR, Half(value)));
    }

    /** Follow a chain and free its clusters one by one. */
    method FreeOld(first: Word16)
      requires Good() && (Follows(first) ==> first < Total(l))
      modifies this
      ensures Good() && Vol() == old(Vol()).(fat := FreeChain(old(Vol()).fat, first))
      ensures old(Mirrors()) ==> Mirrors()
    {
      hide Chars, Shown, From83, Field, NewEntry, Scan;
      var cluster: Word16 := first;
      while 2 <= cluster < 0xfff8
        invariant Good() && (Follows(cluster) ==> cluster < Total(l))
        invariant FreeChain(Vol().fat, cluster) == FreeChain(old(Vol()).fat, first)
        invariant Vol().dir == old(Vol()).dir && Vol().data == old(Vol()).data
        invariant old(Mirrors()) ==> Mirrors()
        decreases InUse(Vol().fat), if Follows(cluster) then 1 else 0
      {
        var next := ReadFat(cluster);
        ZeroShrinks(Vol().fat, cluster);
        WriteFat(cluster, 0);
        cluster := next;
      }
    }

    /** The first `needed` free clusters, or all of them if there are fewer. */
    method FindClusters(needed: nat) returns (chain: seq<Word16>)
      requires Valid()
      ensures chain == FreeClusters(Vol().fat, 2, needed)
    {
      chain := [];
      var candidate: Word16 := 2;
      ghost var fat, all := Vol().fat, FreeClusters(Vol().fat, 2, needed);
      while |chain| < needed && candidate < Total(l)
        invariant |chain| <= needed && candidate <= 0xfff8
        invariant chain + FreeClusters(fat, candidate, needed - |chain|) == all
        decreases Total(l) - candidate
      {
        var entry := ReadFat(candidate);
        ClustersStep(fat, chain, candidate, needed);
        chain := if entry == 0 then chain + [candidate] else chain;
        candidate := candidate + 1;
      }
    }

    method LinkClusters(chain: seq<Word16>)
      requires Good() && forall k | 0 <= k < |chain| :: 2 <= chain[k] < Total(l)
      modifies this
      ensures Valid() && Vol() == old(Vol()).(fat := Link(old(Vol()).fat, chain, 0))
      ensures old(Mirrors()) ==> Mirrors()
    {
      for i := 0 to |chain|
        invariant Valid()
        invariant Link(Vol().fat, chain, i) == Link(old(Vol()).fat, chain, 0)
        invariant Vol().dir == old(Vol()).dir && Vol().data == old(Vol()).data
        invariant old(Mirrors()) ==> Mirrors()
      {
        var next := if i + 1 < |chain| then chain[i + 1] else EOC;
        WriteFat(chain[i], next);
      }
    }

    /** Write a cluster, if the disk has it. */
    method WriteCluster(c: Word16, buf: seq<Byte>) returns (ok: bool)
      requires Valid() && 2 <= c < Total(l) && |buf| == Cb()
      modifies this
      ensures Valid() && ok == Backed(old(Vol()).data, c)
      ensures Vol() == if ok then old(Vol()).(data := old(Vol()).data[c := buf]) else old(Vol())
      ensures old(Mirrors()) ==> Mirrors()
    {
      hide FatAt, DirAt, View;
      BackedOnDisk(l, disk, c);
      ClusterSector(l, c);
      var lba := l.dataStart + (c - 2) * l.spc;
      if !Reaches(lba, l.spc) { return false; }
      ViewPutData(l, disk, c, buf);
      WriteSectors(lba, buf);
      return true;
    }

    /** The data goes into the clusters, the last one filled up with zeros, as far as the disk has them. */
    method FillClusters(chain: seq<Word16>, data: seq<Byte>) returns (ok: bool)
      requires Valid() && forall k | 0 <= k < |chain| :: 2 <= chain[k] < Total(l)
      modifies this
      ensures Valid() && Vol() == old(Vol()).(data := Fill(old(Vol()).data, chain, data, Cb(), 0))
      ensures ok == AllBacked(old(Vol()).data, chain)
      ensures old(Mirrors()) ==> Mirrors()
    {
      hide Chunk, FatAt, DirAt, DataAt, Mirrored;
      ghost var was := Vol();
      for i := 0 to |chain|
        invariant Valid() && SameBacked(was.data, Vol().data)
        invariant Fill(Vol().data, chain, data, Cb(), i) == Fill(was.data, chain, data, Cb(), 0)
        invariant Vol().dir == was.dir && Vol().fat == was.fat
        invariant forall k | 0 <= k < i :: Backed(was.data, chain[k])
        invariant old(Mirrors()) ==> Mirrors()
      {
        var buf := Chunk(data, i, Cb());
        ok := WriteCluster(chain[i], buf);
        if !ok { return; }
      }
      return true;
    }

    // ----- the directory -----

    /** The plain files of one sector of the root directory, after those already found. */
    method ScanSector(s: nat, sec: seq<Byte>, files: seq<File>) returns (out: seq<File>, ended: bool)
      requires Valid() && s < l.rootSectors && |sec| == SECTOR
      requires forall e | 0 <= e < 16 :: sec[e * 32..e * 32 + 32] == DirAt(l, disk, s * 16 + e)
      ensures files + Scan(Vol().dir, s * 16) == out + if ended then [] else Scan(Vol().dir, (s + 1) * 16)
    {
      out := files;
      ghost var dir, all := Vol().dir, files + Scan(Vol().dir, s * 16);
      for e := 0 to 16
        invariant out + Scan(dir, s * 16 + e) == all
      {
        ScanStep(dir, out, s * 16 + e);
        var entry := sec[e * 32..e * 32 + 32];
        if entry[0] == FREE_AHEAD {
          return out, true;
        }
        if entry[0] == DELETED || Hidden(entry[11]) {
          continue;
        }
        out := out + [File(NameOf(entry), SizeOf(entry), FirstOf(entry), s * 16 + e)];
      }
      return out, false;
    }

    /** The plain files of the root directory. */
    method ScanRoot() returns (out: seq<File>)
      requires Valid()
      ensures out == Scan(Vol().dir, 0)
    {
      out := [];
      ghost var dir, all := Vol().dir, Scan(Vol().dir, 0);
      for s := 0 to l.rootSectors
        invariant out + Scan(dir, s * 16) == all
      {
        RootInside(l, disk, s * 16);
        var sec := ReadSectors(l.rootStart + s, 1);
        EntriesOf(l, disk, s, sec);
        var ended;
        out, ended := ScanSector(s, sec, out);
        if ended { return; }
      }
    }

    /** The first vacant entry of one sector of the root directory. */
    method FindFreeIn(s: nat, sec: seq<Byte>) returns (r: Option<nat>)
      requires Valid() && s < l.rootSectors && |sec| == SECTOR
      requires forall e | 0 <= e < 16 :: sec[e * 32..e * 32 + 32] == DirAt(l, disk, s * 16 + e)
      ensures FreeSlot(Vol().dir, s * 16) == if r.Some? then r else FreeSlot(Vol().dir, (s + 1) * 16)
    {
      ghost var dir := Vol().dir;
      for e := 0 to 16
        invariant FreeSlot(dir, s * 16 + e) == FreeSlot(dir, s * 16)
      {
        assert sec[e * 32] == sec[e * 32..e * 32 + 32][0] == dir[s * 16 + e][0];
        if sec[e * 32] == FREE_AHEAD || sec[e * 32] == DELETED {
          return Some(s * 16 + e);
        }
      }
      return None;
    }

    method FindFreeSlot() returns (r: Option<nat>)
      requires Valid()
      ensures r == FreeSlot(Vol().dir, 0)
    {
      ghost var dir := Vol().dir;
      for s := 0 to l.rootSectors
        invariant FreeSlot(dir, s * 16) == FreeSlot(dir, 0)
      {
        RootInside(l, disk, s * 16);
        var sec := ReadSectors(l.rootStart + s, 1);
        EntriesOf(l, disk, s, sec);
        r := FindFreeIn(s, sec);
        if r.Some? { return; }
      }
      return None;
    }

    /** Write one directory entry back, inside its sector. */
    method PutEntry(slot: nat, off: nat, bs: seq<Byte>)
      requires Valid() && slot < Slots(l) && off + |bs| <= 32
      modifies this
      ensures Valid() && Vol() == old(Vol()).(dir := old(Vol()).dir[slot := Put(old(Vol()).dir[slot], off, bs)])
      ensures old(Mirrors()) ==> Mirrors()
    {
      hide FatAt, DataAt, FatAddr, DataAddr, Total;
      var lba := l.rootStart + slot / 16;
      var at := slot % 16 * 32;
      RootInside(l, disk, slot);
      SlotSector(l, slot);
      hide FatAt, DataAt, FatAddr, DataAddr, ClusterBytes;
      var sec := ReadSectors(lba, 1);
      ghost var e := Put(Vol().dir[slot], off, bs);
      ViewPutDir(l, disk, slot, e);
      PutInside(disk, RootAddr(l) + 32 * slot, 32, off, bs);
      PutInside(disk, lba * SECTOR, SECTOR, at + off, bs);
      WriteSectors(lba, Put(sec, at + off, bs));
    }

    // ----- files -----

    method ReadCluster(cluster: Word16) returns (bs: Option<seq<Byte>>)
      requires Valid() && 2 <= cluster < Total(l)
      ensures bs == if Backed(Vol().data, cluster) then Some(Vol().data[cluster]) else None
    {
      BackedOnDisk(l, disk, cluster);
      ClusterSector(l, cluster);
      var lba := l.dataStart + (cluster - 2) * l.spc;
      if !Reaches(lba, l.spc) { return None; }
      bs := Some(ReadSectors(lba, l.spc));
    }

    /** The clusters of a chain, one after the other into a buffer of zeros. */
    method ReadClusters(first: Word16, n: nat) returns (data: Option<seq<Byte>>)
      requires Good() && (Follows(first) ==> first < Total(l))
      ensures data == ReadFrom(Vol(), Cb(), first, n)
    {
      hide ReadFrom, Geometry, ClusterBytes;
      ghost var i, v, all := 0, Vol(), ReadFrom(Vol(), Cb(), first, n);
      var off := 0;
      var cluster: Word16 := first;
      var buf := Zeros(n * Cb());
      AfterNothing(all);
      while 2 <= cluster < 0xfff8 && off < |buf|
        invariant i <= n && off == i * Cb() && |buf| == n * Cb() && off <= |buf|
        invariant Follows(cluster) ==> cluster < Total(l)
        invariant buf[off..] == Zeros((n - i) * Cb())
        invariant After(buf[..off], ReadFrom(v, Cb(), cluster, n - i)) == all
        decreases n - i
      {
        MoreLeft(i, n, Cb());
        var bs := ReadCluster(cluster);
        ReadStep(v, Cb(), cluster, n - i, buf, off);
        if bs.None? { return None; }
        buf := Put(buf, off, bs.value);
        cluster := ReadFat(cluster);
        off := off + Cb();
        i := i + 1;
      }
      ReadEnd(v, Cb(), cluster, n - i, buf, off);
      return Some(buf);
    }

    method ReadFile(name: Name) returns (r: Option<seq<Byte>>)
      requires Good()
      ensures r == Read(Vol(), Cb(), name)
    {
      hide Chars, Shown, From83, FreeChain, FreeClusters, Scan, Link, Fill, FreeSlot;
      var raw := To83(name);
      if raw.None? { return None; }
      var want := From83(raw.value);
      var files := ScanRoot();
      FoundUsed(Vol().dir, 0, want);
      var found := Named(files, want);
      if found.None? { return None; }
      var f := found.value;
      var data := ReadClusters(f.first, Clusters(f.size, Cb()));
      CoverSize(f.size, Cb());
      if data.None? { return None; }
      return Some(data.value[..f.size]);
    }

    /** Create or overwrite a file. */
    method WriteFile(name: Name, data: seq<Byte>) returns (ok: bool)
      requires Good()
      modifies this
      ensures Good() && Outcome(ok, Vol()) == Write(old(Vol()), Cb(), name, data)
      ensures old(Mirrors()) ==> Mirrors()
    {
      hide FreeChain, FreeClusters, Scan, FreeSlot, Link, Fill, Backed, From83, Field, Chars, Shown, NewEntry;
      ghost var v := Vol();
      WriteSound(v, Cb(), name, data);
      var raw := To83(name);
      if raw.None? { return false; }
      var want := From83(raw.value);
      var files := ScanRoot();
      FoundUsed(v.dir, 0, want);
      var existing := Named(files, want);
      if existing.Some? { FreeOld(existing.value.first); }
      var chain := FindClusters(Needed(|data|, Cb()));
      if |chain| < Needed(|data|, Cb()) { return false; }
      StoreSound(v, Cb(), want, data);
      LinkClusters(chain);
      var stored := FillClusters(chain, data);
      assert Vol() == Store(v, Cb(), want, data);
      if !stored { return false; }
      var slot := if existing.Some? then Some(existing.value.slot) else None;
      if slot.None? { slot := FindFreeSlot(); }
      if slot.None? { return false; }
      var e := NewEntry(raw.value, chain[0], |data| % 0x1_0000_0000);
      PutEntry(slot.value, 0, e);
      assert Put(v.dir[slot.value], 0, e) == e;
      return true;
    }

    /** Free a file's chain and mark its slot as deleted. */
    method DeleteFile(name: Name) returns (ok: bool)
      requires Good()
      modifies this
      ensures Good() && Outcome(ok, Vol()) == Delete(old(Vol()), Cb(), name)
      ensures old(Mirrors()) ==> Mirrors()
    {
      ghost var v := Vol();
      DeleteSound(v, Cb(), name);
      var raw := To83(name);
      if raw.None? { return false; }
      var want := From83(raw.value);
      var files := ScanRoot();
      FoundUsed(v.dir, 0, want);
      var found := Named(files, want);
      if found.None? { return false; }
      FreeOld(found.value.first);
      PutEntry(found.value.slot, 0, [DELETED]);
      assert Put(v.dir[found.value.slot], 0, [DELETED]) == Erased(v.dir[found.value.slot]);
      return true;
    }
  }

  lemma {:induction false} MoreLeft(i: nat, n: nat, cb: nat)
    requires i <= n && i * cb < n * cb
    ensures i < n && (i + 1) * cb == i * cb + cb <= n * cb && (n - i) * cb == cb + (n - i - 1) * cb
  {
    if i < n { MulMonotone(i + 1, n, cb); }
  }

  /** What is read so far in front of what is still to be read. */
  function After(front: seq<Byte>, rest: Option<seq<Byte>>): Option<seq<Byte>> {
    match rest
    case None => None
    case Some(bs) => Some(front + bs)
  }

  lemma {:induction false} ReadStep(v: Volume, cb: nat, c: Word16, n: nat, data: seq<Byte>, off: nat)
    requires Sound(v, cb) && Follows(c) && c < |v.fat| && n > 0
    requires off <= |data| && data[off..] == Zeros(n * cb) && off + cb <= |data|
    ensures !Backed(v.data, c) ==> ReadFrom(v, cb, c, n) == None
    ensures Backed(v.data, c) ==>
              var d2 := Put(data, off, v.data[c]);
              && d2[off + cb..] == Zeros((n - 1) * cb)
              && After(d2[..off + cb], ReadFrom(v, cb, v.fat[c], n - 1)) == After(data[..off], ReadFrom(v, cb, c, n))
  {
    if Backed(v.data, c) {
      var d2 := Put(data, off, v.data[c]);
      assert n * cb == cb + (n - 1) * cb;
      assert |data| == off + n * cb;
      assert d2[..off + cb] == data[..off] + v.data[c];
      var left, before := d2[off + cb..], data[off..];
      forall i | 0 <= i < |left| ensures left[i] == 0 {
        assert left[i] == before[cb + i];
      }
      var rest := ReadFrom(v, cb, v.fat[c], n - 1);
      if rest.Some? { Regroup(data[..off], v.data[c], rest.value); }
    }
  }

  lemma {:induction false} ReadEnd(v: Volume, cb: nat, c: Word16, n: nat, data: seq<Byte>, off: nat)
    requires Sound(v, cb) && (Follows(c) ==> c < |v.fat| && n * cb == 0)
    requires off <= |data| && data[off..] == Zeros(n * cb)
    ensures Some(data) == After(data[..off], ReadFrom(v, cb, c, n))
  {
    if Follows(c) { assert n == 0; }
    assert data == data[..off] + data[off..];
  }

  ghost predicate SameBacked(data: seq<seq<Byte>>, data2: seq<seq<Byte>>) {
    |data| == |data2| && forall c | 0 <= c < |data| :: Backed(data2, c) == Backed(data, c)
  }

  lemma {:induction false} AfterNothing(rest: Option<seq<Byte>>)
    ensures After([], rest) == rest
  {
    if rest.Some? { assert [] + rest.value == rest.value; }
  }

  lemma {:induction false} BackedOnDisk(l: Layout, d: seq<Byte>, c: nat)
    requires Geometry(l, d) && 2 <= c < Total(l)
    ensures Backed(View(l, d).data, c) <==> OnDisk(l, d, c)
    ensures OnDisk(l, d, c) ==> View(l, d).data[c] == d[DataAddr(l, c)..DataAddr(l, c) + ClusterBytes(l)]
  {
  }

  lemma {:induction false} ClustersStep(fat: seq<Word16>, chain: seq<nat>, candidate: nat, needed: nat)
    requires |chain| < needed && candidate < |fat|
    ensures var next := if fat[candidate] == 0 then chain + [candidate] else chain;
            next + FreeClusters(fat, candidate + 1, needed - |next|) ==
              chain + FreeClusters(fat, candidate, needed - |chain|)
  {
  }

  lemma {:induction false} ScanStep(dir: seq<seq<Byte>>, out: seq<File>, s: nat)
    requires Entries(dir) && s < |dir|
    ensures out + Scan(dir, s) ==
            if dir[s][0] == FREE_AHEAD then out
            else if Used(dir[s]) then (out + [FileAt(dir, s)]) + Scan(dir, s + 1)
            else out + Scan(dir, s + 1)
  {
  }

  lemma {:induction false} ClusterSector(l: Layout, c: nat)
    requires c >= 2
    ensures (l.dataStart + (c - 2) * l.spc) * SECTOR == DataAddr(l, c)
    ensures (l.dataStart + (c - 2) * l.spc + l.spc) * SECTOR == DataAddr(l, c) + ClusterBytes(l)
  {
  }

  /** The sixteen entries of a sector of the root directory. */
  lemma {:induction false} EntriesOf(l: Layout, d: seq<Byte>, s: nat, sec: seq<Byte>)
    requires Geometry(l, d) && s < l.rootSectors
    requires (l.rootStart + s + 1) * SECTOR <= |d| &&
             sec == d[(l.rootStart + s) * SECTOR..(l.rootStart + s + 1) * SECTOR]
    ensures forall e | 0 <= e < 16 :: sec[e * 32..e * 32 + 32] == DirAt(l, d, s * 16 + e)
  {
    forall e | 0 <= e < 16 ensures sec[e * 32..e * 32 + 32] == DirAt(l, d, s * 16 + e) {
      RootInside(l, d, s * 16 + e);
      SliceInside(d, (l.rootStart + s) * SECTOR, SECTOR, e * 32, 32);
      assert (l.rootStart + s) * SECTOR + e * 32 == RootAddr(l) + 32 * (s * 16 + e);
    }
  }

  lemma {:induction false} SlotSector(l: Layout, slot: nat)
    requires slot < Slots(l)
    ensures slot / 16 < l.rootSectors && slot % 16 * 32 + 32 <= SECTOR
    ensures (l.rootStart + slot / 16) * SECTOR + slot % 16 * 32 == RootAddr(l) + 32 * slot
  {
  }

  lemma {:induction false} SliceInside(d: seq<Byte>, a: nat, n: nat, off: nat, k: nat)
    requires a + n <= |d| && off + k <= n
    ensures d[a..a + n][off..off + k] == d[a + off..a + off + k]
  {
    var part, x, y := d[a..a + n], d[a..a + n][off..off + k], d[a + off..a + off + k];
    forall i | 0 <= i < k ensures x[i] == y[i] {
      assert x[i] == part[off + i] == d[a + (off + i)];
    }
  }

  /** The sector and the offset of a byte of a region, for entries that do not cross sectors. */
  lemma {:induction false} SectorOf(start: nat, at: nat)
    requires at % 2 == 0
    ensures (start + at / SECTOR) * SECTOR + at % SECTOR == start * SECTOR + at
    ensures at % SECTOR + 2 <= SECTOR
  {
  }
}
