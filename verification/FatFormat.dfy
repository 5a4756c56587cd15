/** Every volume of a layout's shape lies on some disk. */
module FatFormat {
  import opened Bytes
  import opened FatVolume
  import opened FatImage

  /** A layout that some disk can have. */
  predicate Usable(l: Layout) {
    && l.spc > 0 && l.numFats > 0 && 0 < l.fatSectors <= 255 && l.rootSectors > 0
    && l.rootStart == l.fatStart + l.numFats * l.fatSectors && l.dataStart == l.rootStart + l.rootSectors
  }

  /** As many entries as the layout says, and clusters up to `limit` on the disk. */
  predicate Shaped(l: Layout, v: Volume, limit: nat) {
    && l.spc > 0 && |v.fat| == |v.data| == Total(l) && |v.dir| == Slots(l) && Entries(v.dir) && 2 <= limit <= Total(l)
    && forall c | 0 <= c < |v.data| :: |v.data[c]| == if 2 <= c < limit then ClusterBytes(l) else 0
  }

  /** A disk that ends with the last cluster below `limit`. */
  predicate EndsAt(l: Layout, d: seq<Byte>, limit: nat) { limit >= 2 && |d| == DataAddr(l, limit) }

  lemma {:induction false} OnDiskExactly(l: Layout, d: seq<Byte>, limit: nat, c: nat)
    requires l.spc > 0 && c >= 2 && EndsAt(l, d, limit)
    ensures OnDisk(l, d, c) <==> c < limit
  {
    if c < limit {
      MulMonotone(c - 1, limit - 2, ClusterBytes(l));
      assert (c - 1) * ClusterBytes(l) == (c - 2) * ClusterBytes(l) + ClusterBytes(l);
    } else {
      MulMonotone(limit - 2, c - 2, ClusterBytes(l));
    }
  }

  /** The disk has the first `nf` table entries in all copies, the first `nd` directory entries and the
      clusters below `nc`. */
  ghost predicate Holds(l: Layout, d: seq<Byte>, v: Volume, limit: nat, nf: nat, nd: nat, nc: nat)
    requires Geometry(l, d) && Shaped(l, v, limit) && nf <= Total(l) && nd <= Slots(l) && nc <= Total(l)
  {
    && EndsAt(l, d, limit)
    && (forall copy, c | 0 <= copy < l.numFats && 0 <= c < nf :: FatAt(l, d, copy, c) == v.fat[c])
    && (forall s | 0 <= s < nd :: DirAt(l, d, s) == v.dir[s])
    && (forall c | 0 <= c < nc :: DataAt(l, d, c) == v.data[c])
  }

  /** Write one entry into the copies from `copy` on. */
  lemma {:induction false} WriteCopies(l: Layout, d: seq<Byte>, v: Volume, limit: nat, c: nat, copy: nat)
    returns (d2: seq<Byte>)
    requires Geometry(l, d) && Shaped(l, v, limit) && c < Total(l) && copy <= l.numFats &&
             Holds(l, d, v, limit, c, 0, 0)
    requires forall k | 0 <= k < copy :: FatAt(l, d, k, c) == v.fat[c]
    ensures Geometry(l, d2) && Holds(l, d2, v, limit, c + 1, 0, 0)
    decreases l.numFats - copy
  {
    hide FatAt, Geometry, Put;
    if copy == l.numFats {
      d2 := d;
    } else {
      EntryWritten(l, d, copy, c, v.fat[c]);
      d2 := WriteCopies(l, Put(d, FatAddr(l, copy) + 2 * c, Half(v.fat[c])), v, limit, c, copy + 1);
    }
  }

  lemma {:induction false} WriteTable(l: Layout, d: seq<Byte>, v: Volume, limit: nat, n: nat) returns (d2: seq<Byte>)
    requires Geometry(l, d) && Shaped(l, v, limit) && n <= Total(l) && EndsAt(l, d, limit)
    ensures Geometry(l, d2) && Holds(l, d2, v, limit, n, 0, 0)
    decreases n
  {
    if n == 0 {
      d2 := d;
    } else {
      d2 := WriteTable(l, d, v, limit, n - 1);
      d2 := WriteCopies(l, d2, v, limit, n - 1, 0);
    }
  }

  lemma {:induction false} WriteDirectory(l: Layout, d: seq<Byte>, v: Volume, limit: nat, n: nat)
    returns (d2: seq<Byte>)
    requires Geometry(l, d) && Shaped(l, v, limit) && n <= Slots(l) && Holds(l, d, v, limit, Total(l), 0, 0)
    ensures Geometry(l, d2) && Holds(l, d2, v, limit, Total(l), n, 0)
    decreases n
  {
    hide FatAt, DirAt, Geometry, Put;
    if n == 0 {
      d2 := d;
    } else {
      var d1 := WriteDirectory(l, d, v, limit, n - 1);
      ViewPutDir(l, d1, n - 1, v.dir[n - 1]);
      d2 := Put(d1, RootAddr(l) + 32 * (n - 1), v.dir[n - 1]);
      forall s | 0 <= s < n ensures DirAt(l, d2, s) == v.dir[s] {
        assert View(l, d2).dir[s] == View(l, d1).dir[n - 1 := v.dir[n - 1]][s];
      }
    }
  }

  lemma {:induction false} WriteClusters(l: Layout, d: seq<Byte>, v: Volume, limit: nat, n: nat) returns (d2: seq<Byte>)
    requires Geometry(l, d) && Shaped(l, v, limit) && n <= Total(l) && Holds(l, d, v, limit, Total(l), Slots(l), 0)
    ensures Geometry(l, d2) && Holds(l, d2, v, limit, Total(l), Slots(l), n)
    decreases n
  {
    hide FatAt, DirAt, Geometry, Put;
    if n == 0 {
      d2 := d;
    } else {
      var d1 := WriteClusters(l, d, v, limit, n - 1);
      if n - 1 >= 2 { OnDiskExactly(l, d1, limit, n - 1); }
      if n <= 2 || n - 1 >= limit {
        d2 := d1;
        NoData(l, d2, n - 1);
      } else {
        ViewPutData(l, d1, n - 1, v.data[n - 1]);
        d2 := Put(d1, DataAddr(l, n - 1), v.data[n - 1]);
        forall c | 0 <= c < n ensures DataAt(l, d2, c) == v.data[c] {
          assert View(l, d2).data[c] == View(l, d1).data[n - 1 := v.data[n - 1]][c];
        }
        forall s | 0 <= s < Slots(l) ensures DirAt(l, d2, s) == v.dir[s] {
          assert View(l, d2).dir[s] == View(l, d1).dir[s];
        }
      }
    }
  }

  lemma {:induction false} NoData(l: Layout, d: seq<Byte>, c: nat)
    requires Geometry(l, d) && c < Total(l) && (c < 2 || !OnDisk(l, d, c))
    ensures DataAt(l, d, c) == []
  {
  }

  /** There is a disk that holds the volume, the same in every copy of the table, and ends with the last
      cluster that the volume has. */
  lemma {:induction false} Realised(l: Layout, v: Volume, limit: nat) returns (d: seq<Byte>)
    requires Usable(l) && Shaped(l, v, limit)
    ensures Geometry(l, d) && View(l, d) == v && Mirrored(l, d) && EndsAt(l, d, limit)
  {
    hide FatAt, DirAt, DataAt;
    DataInside(l, limit);
    d := Zeros(DataAddr(l, limit));
    d := WriteTable(l, d, v, limit, Total(l));
    d := WriteDirectory(l, d, v, limit, Slots(l));
    d := WriteClusters(l, d, v, limit, Total(l));
  }
}
