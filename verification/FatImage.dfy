/** Where a FAT16 volume lies on a disk: regions of bytes, and writes inside them. */
module FatImage {
  import opened Bytes
  import opened FatVolume

  const SECTOR: nat := 512

  /** Sectors per cluster, then first sectors and sizes in sectors. */
  datatype Layout = Layout(spc: nat, fatStart: nat, fatSectors: nat, numFats: nat, rootStart: nat, rootSectors: nat,
    dataStart: nat)

  function ClusterBytes(l: Layout): nat { l.spc * SECTOR }

  function Total(l: Layout): nat { l.fatSectors * (SECTOR / 2) }

  function Slots(l: Layout): nat { l.rootSectors * (SECTOR / 32) }

  function FatAddr(l: Layout, copy: nat): nat { (l.fatStart + copy * l.fatSectors) * SECTOR }

  function RootAddr(l: Layout): nat { l.rootStart * SECTOR }

  function DataAddr(l: Layout, c: nat): nat
    requires c >= 2
  {
    l.dataStart * SECTOR + (c - 2) * ClusterBytes(l)
  }

  /** The regions follow each other, and the tables and the directory are on the disk. The disk may end
      before the last cluster that the table has entries for. */
  predicate Geometry(l: Layout, d: seq<Byte>) {
    && l.spc > 0 && l.numFats > 0 && 0 < l.fatSectors <= 255 && l.rootSectors > 0
    && l.rootStart == l.fatStart + l.numFats * l.fatSectors
    && l.dataStart == l.rootStart + l.rootSectors
    && l.dataStart * SECTOR <= |d|
  }

  /** The disk has all of the cluster. */
  predicate OnDisk(l: Layout, d: seq<Byte>, c: nat)
    requires c >= 2
  {
    DataAddr(l, c) + ClusterBytes(l) <= |d|
  }

  // ----- bytes -----

  function Put(d: seq<Byte>, a: nat, bs: seq<Byte>): (r: seq<Byte>)
    requires a + |bs| <= |d|
    ensures |r| == |d|
    ensures forall i | 0 <= i < |d| :: r[i] == if a <= i < a + |bs| then bs[i - a] else d[i]
  {
    d[..a] + bs + d[a + |bs|..]
  }

  /** Writing back a sector that was read and changed in one place. */
  lemma {:induction false} PutInside(d: seq<Byte>, a: nat, n: nat, off: nat, bs: seq<Byte>)
    requires a + n <= |d| && off + |bs| <= n
    ensures Put(d, a, Put(d[a..a + n], off, bs)) == Put(d, a + off, bs)
  {
  }

  lemma {:induction false} PutApart(d: seq<Byte>, a: nat, bs: seq<Byte>, b: nat, n: nat)
    requires a + |bs| <= |d| && b + n <= |d| && (b + n <= a || a + |bs| <= b)
    ensures Put(d, a, bs)[b..b + n] == d[b..b + n]
  {
  }

  lemma {:induction false} PutHere(d: seq<Byte>, a: nat, bs: seq<Byte>)
    requires a + |bs| <= |d|
    ensures Put(d, a, bs)[a..a + |bs|] == bs
  {
  }

  function Half(w: Word16): (bs: seq<Byte>)
    ensures |bs| == 2
  {
    [w % 256, w / 256]
  }

  function FromHalf(bs: seq<Byte>): Word16
    requires |bs| == 2
  {
    var lo: int, hi: int := bs[0], bs[1];
    lo + 256 * hi
  }

  // ----- the regions -----

  lemma {:induction false} FatInside(l: Layout, d: seq<Byte>, copy: nat, c: nat)
    requires Geometry(l, d) && copy < l.numFats && c < Total(l)
    ensures FatAddr(l, copy) + 2 * c + 2 <= FatAddr(l, copy) + l.fatSectors * SECTOR <= RootAddr(l)
  {
    MulMonotone(copy + 1, l.numFats, l.fatSectors);
    assert (copy + 1) * l.fatSectors == copy * l.fatSectors + l.fatSectors;
  }

  lemma {:induction false} FatsApart(l: Layout, x: nat, y: nat)
    requires x < y
    ensures FatAddr(l, x) + l.fatSectors * SECTOR <= FatAddr(l, y)
  {
    MulMonotone(x + 1, y, l.fatSectors);
    assert (x + 1) * l.fatSectors == x * l.fatSectors + l.fatSectors;
  }

  lemma {:induction false} RootInside(l: Layout, d: seq<Byte>, s: nat)
    requires Geometry(l, d) && s < Slots(l)
    ensures RootAddr(l) + 32 * s + 32 <= l.dataStart * SECTOR <= |d|
  {
    assert l.dataStart * SECTOR == l.rootStart * SECTOR + l.rootSectors * SECTOR;
  }

  lemma {:induction false} DataInside(l: Layout, c: nat)
    requires c >= 2
    ensures l.dataStart * SECTOR <= DataAddr(l, c)
  {
    MulMonotone(0, c - 2, ClusterBytes(l));
  }

  lemma {:induction false} DataApart(l: Layout, x: nat, y: nat)
    requires 2 <= x < y
    ensures DataAddr(l, x) + ClusterBytes(l) <= DataAddr(l, y)
  {
    MulMonotone(x - 1, y - 2, ClusterBytes(l));
    assert (x - 1) * ClusterBytes(l) == (x - 2) * ClusterBytes(l) + ClusterBytes(l);
  }

  // ----- the volume on the disk -----

  function FatAt(l: Layout, d: seq<Byte>, copy: nat, c: nat): Word16
    requires Geometry(l, d) && copy < l.numFats && c < Total(l)
  {
    FatInside(l, d, copy, c);
    RootInside(l, d, 0);
    var a := FatAddr(l, copy) + 2 * c;
    FromHalf(d[a..a + 2])
  }

  function DirAt(l: Layout, d: seq<Byte>, s: nat): (e: seq<Byte>)
    requires Geometry(l, d) && s < Slots(l)
    ensures |e| == 32
  {
    RootInside(l, d, s);
    d[RootAddr(l) + 32 * s..RootAddr(l) + 32 * s + 32]
  }

  function DataAt(l: Layout, d: seq<Byte>, c: nat): seq<Byte>
    requires Geometry(l, d) && c < Total(l)
  {
    if c < 2 || !OnDisk(l, d, c) then [] else d[DataAddr(l, c)..DataAddr(l, c) + ClusterBytes(l)]
  }

  /** The volume that the first allocation table, the root directory and the data region hold. */
  function View(l: Layout, d: seq<Byte>): Volume
    requires Geometry(l, d)
  {
    Volume(
      seq(Total(l), c requires 0 <= c < Total(l) => FatAt(l, d, 0, c)),
      seq(Slots(l), s requires 0 <= s < Slots(l) => DirAt(l, d, s)),
      seq(Total(l), c requires 0 <= c < Total(l) => DataAt(l, d, c)))
  }

  /** Every copy of the allocation table says the same. */
  ghost predicate Mirrored(l: Layout, d: seq<Byte>)
    requires Geometry(l, d)
  {
    forall copy, c | 0 <= copy < l.numFats && 0 <= c < Total(l) :: FatAt(l, d, copy, c) == FatAt(l, d, 0, c)
  }

  lemma {:induction false} HalfRoundTrip(w: Word16)
    ensures FromHalf(Half(w)) == w
  {
  }

  lemma {:induction false} FatPutFat(l: Layout, d: seq<Byte>, copy: nat, c: nat, w: Word16, copy2: nat, c2: nat)
    requires Geometry(l, d) && copy < l.numFats && c < Total(l) && copy2 < l.numFats && c2 < Total(l)
    ensures FatAddr(l, copy) + 2 * c + 2 <= |d|
    ensures Geometry(l, Put(d, FatAddr(l, copy) + 2 * c, Half(w)))
    ensures FatAt(l, Put(d, FatAddr(l, copy) + 2 * c, Half(w)), copy2, c2) ==
            if copy2 == copy && c2 == c then w else FatAt(l, d, copy2, c2)
  {
    FatInside(l, d, copy, c);
    FatInside(l, d, copy2, c2);
    RootInside(l, d, 0);
    HalfRoundTrip(w);
    var a, b := FatAddr(l, copy) + 2 * c, FatAddr(l, copy2) + 2 * c2;
    if copy2 == copy && c2 == c {
      PutHere(d, a, Half(w));
    } else {
      EntriesApart(l, copy, c, copy2, c2);
      PutApart(d, a, Half(w), b, 2);
    }
  }

  lemma {:induction false} EntriesApart(l: Layout, copy: nat, c: nat, copy2: nat, c2: nat)
    requires c < Total(l) && c2 < Total(l) && !(copy == copy2 && c == c2)
    ensures var a, b := FatAddr(l, copy) + 2 * c, FatAddr(l, copy2) + 2 * c2; a + 2 <= b || b + 2 <= a
  {
    if copy < copy2 { FatsApart(l, copy, copy2); }
    if copy2 < copy { FatsApart(l, copy2, copy); }
  }

  /** `d2` has one table entry that `d` has not. */
  ghost predicate OneEntry(l: Layout, d: seq<Byte>, d2: seq<Byte>, copy: nat, c: nat, w: Word16)
    requires Geometry(l, d) && Geometry(l, d2)
  {
    forall copy2, c2 | 0 <= copy2 < l.numFats && 0 <= c2 < Total(l) ::
      FatAt(l, d2, copy2, c2) == if copy2 == copy && c2 == c then w else FatAt(l, d, copy2, c2)
  }

  lemma {:induction false} EntryWritten(l: Layout, d: seq<Byte>, copy: nat, c: nat, w: Word16)
    requires Geometry(l, d) && copy < l.numFats && c < Total(l)
    ensures FatAddr(l, copy) + 2 * c + 2 <= |d|
    ensures Geometry(l, Put(d, FatAddr(l, copy) + 2 * c, Half(w)))
    ensures OneEntry(l, d, Put(d, FatAddr(l, copy) + 2 * c, Half(w)), copy, c, w)
  {
    forall copy2, c2 | 0 <= copy2 < l.numFats && 0 <= c2 < Total(l)
      ensures FatAddr(l, copy) + 2 * c + 2 <= |d|
      ensures FatAt(l, Put(d, FatAddr(l, copy) + 2 * c, Half(w)), copy2, c2) ==
              if copy2 == copy && c2 == c then w else FatAt(l, d, copy2, c2)
    {
      FatPutFat(l, d, copy, c, w, copy2, c2);
    }
    FatPutFat(l, d, copy, c, w, copy, c);
  }

  lemma {:induction false} DataPutFat(l: Layout, d: seq<Byte>, copy: nat, c: nat, w: Word16, k: nat)
    requires Geometry(l, d) && copy < l.numFats && c < Total(l) && k < Total(l)
    ensures FatAddr(l, copy) + 2 * c + 2 <= |d|
    ensures DataAt(l, Put(d, FatAddr(l, copy) + 2 * c, Half(w)), k) == DataAt(l, d, k)
  {
    FatInside(l, d, copy, c);
    RootInside(l, d, 0);
    if k >= 2 && OnDisk(l, d, k) {
      DataInside(l, k);
      PutApart(d, FatAddr(l, copy) + 2 * c, Half(w), DataAddr(l, k), ClusterBytes(l));
    }
  }

  lemma {:induction false} DirPutFat(l: Layout, d: seq<Byte>, copy: nat, c: nat, w: Word16, s: nat)
    requires Geometry(l, d) && copy < l.numFats && c < Total(l) && s < Slots(l)
    ensures FatAddr(l, copy) + 2 * c + 2 <= |d|
    ensures DirAt(l, Put(d, FatAddr(l, copy) + 2 * c, Half(w)), s) == DirAt(l, d, s)
  {
    FatInside(l, d, copy, c);
    RootInside(l, d, s);
    PutApart(d, FatAddr(l, copy) + 2 * c, Half(w), RootAddr(l) + 32 * s, 32);
  }

  /** Writing a table entry changes nothing else. */
  lemma {:induction false} ViewPutFat(l: Layout, d: seq<Byte>, copy: nat, c: nat, w: Word16)
    requires Geometry(l, d) && copy < l.numFats && c < Total(l)
    ensures FatAddr(l, copy) + 2 * c + 2 <= |d|
    ensures Geometry(l, Put(d, FatAddr(l, copy) + 2 * c, Half(w)))
    ensures var v := View(l, d);
            View(l, Put(d, FatAddr(l, copy) + 2 * c, Half(w))) == if copy == 0 then v.(fat := v.fat[c := w]) else v
  {
    hide FatAddr, FatAt, DirAt, DataAt;
    FatPutFat(l, d, copy, c, w, copy, c);
    var d2 := Put(d, FatAddr(l, copy) + 2 * c, Half(w));
    forall k | 0 <= k < Total(l)
      ensures FatAt(l, d2, 0, k) == if copy == 0 && k == c then w else FatAt(l, d, 0, k)
      ensures DataAt(l, d2, k) == DataAt(l, d, k)
    {
      FatPutFat(l, d, copy, c, w, 0, k);
      DataPutFat(l, d, copy, c, w, k);
    }
    forall s | 0 <= s < Slots(l) ensures DirAt(l, d2, s) == DirAt(l, d, s) {
      DirPutFat(l, d, copy, c, w, s);
    }
  }

  lemma {:induction false} ViewPutDir(l: Layout, d: seq<Byte>, slot: nat, e: seq<Byte>)
    requires Geometry(l, d) && slot < Slots(l) && |e| == 32
    ensures RootAddr(l) + 32 * slot + 32 <= |d|
    ensures var d2 := Put(d, RootAddr(l) + 32 * slot, e);
            && Geometry(l, d2) && View(l, d2) == View(l, d).(dir := View(l, d).dir[slot := e])
            && forall copy, c | 0 <= copy < l.numFats && 0 <= c < Total(l) ::
               FatAt(l, d2, copy, c) == FatAt(l, d, copy, c)
  {
    RootInside(l, d, slot);
    var a := RootAddr(l) + 32 * slot;
    var d2 := Put(d, a, e);
    forall copy, c | 0 <= copy < l.numFats && 0 <= c < Total(l) ensures FatAt(l, d2, copy, c) == FatAt(l, d, copy, c) {
      FatInside(l, d, copy, c);
      PutApart(d, a, e, FatAddr(l, copy) + 2 * c, 2);
    }
    forall c | 0 <= c < Total(l) ensures DataAt(l, d2, c) == DataAt(l, d, c) {
      if c >= 2 && OnDisk(l, d, c) {
        DataInside(l, c);
        PutApart(d, a, e, DataAddr(l, c), ClusterBytes(l));
      }
    }
    forall s | 0 <= s < Slots(l) ensures DirAt(l, d2, s) == if s == slot then e else DirAt(l, d, s) {
      RootInside(l, d, s);
      if s == slot {
        PutHere(d, a, e);
      } else {
        PutApart(d, a, e, RootAddr(l) + 32 * s, 32);
      }
    }
  }

  lemma {:induction false} ViewPutData(l: Layout, d: seq<Byte>, c: nat, bs: seq<Byte>)
    requires Geometry(l, d) && 2 <= c < Total(l) && OnDisk(l, d, c) && |bs| == ClusterBytes(l)
    ensures var d2 := Put(d, DataAddr(l, c), bs);
            && Geometry(l, d2) && View(l, d2) == View(l, d).(data := View(l, d).data[c := bs])
            && forall copy, k | 0 <= copy < l.numFats && 0 <= k < Total(l) ::
               FatAt(l, d2, copy, k) == FatAt(l, d, copy, k)
  {
    DataInside(l, c);
    var a := DataAddr(l, c);
    var d2 := Put(d, a, bs);
    forall copy, k | 0 <= copy < l.numFats && 0 <= k < Total(l) ensures FatAt(l, d2, copy, k) == FatAt(l, d, copy, k) {
      FatInside(l, d, copy, k);
      PutApart(d, a, bs, FatAddr(l, copy) + 2 * k, 2);
    }
    forall s | 0 <= s < Slots(l) ensures DirAt(l, d2, s) == DirAt(l, d, s) {
      RootInside(l, d, s);
      PutApart(d, a, bs, RootAddr(l) + 32 * s, 32);
    }
    forall k | 0 <= k < Total(l) ensures DataAt(l, d2, k) == if k == c then bs else DataAt(l, d, k) {
      if k == c {
        PutHere(d, a, bs);
      } else if k >= 2 && OnDisk(l, d, k) {
        if k < c { DataApart(l, k, c); } else { DataApart(l, c, k); }
        PutApart(d, a, bs, DataAddr(l, k), ClusterBytes(l));
      }
    }
  }
}
