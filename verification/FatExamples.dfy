/** Volumes on which the code does not do what its callers expect: one of any size, which some disk
    holds, and some with one-byte clusters to keep them small. */
module FatExamples {
  import opened Bytes
  import opened Utf8
  import opened FatNames
  import opened FatVolume
  import opened FatChains
  import opened FatTheorems
  import opened FatConservation
  import opened FatFailures
  import opened FatSpace
  import opened FatImage
  import opened FatFormat

  const A: Byte := 65

  /** Names of one character. */
  const NAME_A: Name := [65]
  const NAME_B: Name := [66]
  const NAME_0: Name := [0]

  /** The fields of a name of one byte. */
  function Raw(b: Byte): (r: seq<Byte>)
    ensures |r| == 11 && r[0] == Upper(b)
  {
    Field([b], 8) + Field([], 3)
  }

  /** A character of one byte that stands for itself. */
  predicate Plain(b: Byte) { b < 0x80 && b != DOT && !White(b) && Upper(b) == b }

  lemma {:induction false} OneByte(b: Byte)
    requires b < 0x80
    ensures Chars([b]) == Some([b])
  {
    CharsAscii([b], []);
    assert [b] + [] == [b];
  }

  lemma {:induction false} OneByteName(b: Byte)
    requires Plain(b)
    ensures Chars([b]).Some? && To83([b]) == Some(Raw(b)) && From83(Raw(b)) == [b] && Key([b]) == Some([b])
  {
    hide Chars, Trimmed;
    var name := [b];
    OneByte(b);
    Nothing();
    assert LastDot(name, 1) == None;
    assert Uppers(name) == name && Uppers([]) == [];
    KeyOfParts(name, []);
    OneByteTrimmed(b);
  }

  lemma {:induction false} OneByteTrimmed(b: Byte)
    requires Plain(b) && Chars([b]).Some?
    ensures Trimmed([b]) == [b]
  {
    assert [b][1..] == [] && [b][..1] == [b];
  }

  /** The entry of a file with a name of one byte. */
  function Entry(b: Byte, first: Word16, size: Word): seq<Byte> { NewEntry(Raw(b), first, size) }

  lemma {:induction false} EntryOf(b: Byte, first: Word16, size: Word)
    requires Plain(b)
    ensures var e := Entry(b, first, size);
            |e| == 32 && e[0] == b && FirstOf(e) == first && SizeOf(e) == size && NameOf(e) == [b]
            && (Used(e) <==> b != FREE_AHEAD && b != DELETED)
  {
    OneByteName(b);
    NewEntryUsed(Raw(b), first, size);
  }

  function Gone(): (e: seq<Byte>)
    ensures |e| == 32 && Vacant(e) && e[0] == DELETED
  {
    [DELETED] + Zeros(31)
  }

  /** A deleted entry in front of an empty file, slots that were never used, and nothing but free
      clusters, of which the disk has those below `limit`. */
  function Behind(cb: nat, n: nat, limit: nat, slots: nat): (v: Volume)
    ensures |v.fat| == |v.data| == n && |v.dir| == 2 + slots && Entries(v.dir)
  {
    Volume(seq(n, _ => 0), [Gone(), Entry(A, 0, 0)] + seq(slots, _ => Zeros(32)),
           seq(n, c => if 2 <= c < limit then Zeros(cb) else []))
  }

  function NoClusters(slots: nat): seq<seq<nat>> { seq(2 + slots, _ => []) }

  lemma {:induction false} BehindFormed(cb: nat, n: nat, limit: nat, slots: nat)
    requires cb > 0 && 3 <= limit <= n <= 0xfff8
    ensures WellFormed(Behind(cb, n, limit, slots), cb, NoClusters(slots))
  {
    hide Chars, Shown, From83, Field, NewEntry, Scan;
    EntryOf(A, 0, 0);
    var v, cs := Behind(cb, n, limit, slots), NoClusters(slots);
    BehindEntries(cb, n, limit, slots);
    assert forall c | 2 <= c < n :: v.data[c] == if c < limit then Zeros(cb) else [];
    assert forall s | 0 <= s < |v.dir| && s != 1 :: Vacant(v.dir[s]);
    assert Sound(v, cb);
    forall s | 0 <= s < |cs| ensures FileOk(v, cb, v.dir[s], cs[s]) {
      assert cs[s] == [];
    }
    assert forall s, t | 0 <= s < |cs| && 0 <= t < |cs| :: Apart(cs[s], cs[t]);
  }

  lemma {:induction false} BehindEntries(cb: nat, n: nat, limit: nat, slots: nat)
    ensures var dir := Behind(cb, n, limit, slots).dir;
            dir[0] == Gone() && dir[1] == Entry(A, 0, 0)
            && forall s | 2 <= s < |dir| :: |dir[s]| == 32 && dir[s][0] == FREE_AHEAD
  {
    var dir := Behind(cb, n, limit, slots).dir;
    forall s | 2 <= s < |dir| ensures |dir[s]| == 32 && dir[s][0] == FREE_AHEAD {
      assert dir[s] == Zeros(32);
    }
  }

  lemma {:induction false} FreeOne(needed: nat)
    requires needed > 0
    ensures FreeClusters([0, 0, 0], 2, needed) == [2]
  {
    assert FreeClusters([0, 0, 0], 3, needed - 1) == [];
  }

  lemma {:induction false} StoreByte()
    ensures Link([0, 0, 0], [2], 0) == [0, 0, EOC] && Fill([[], [], [7]], [2], [9], 1, 0) == [[], [], [9]]
  {
    assert Link([0, 0, EOC], [2], 1) == [0, 0, EOC];
    assert [0, 0, 0][2 := EOC] == [0, 0, EOC];
    assert Chunk([9], 0, 1) == [9];
    assert Fill([[], [], [9]], [2], [9], 1, 1) == [[], [], [9]];
    assert [[], [], [7]][2 := [9]] == [[], [], [9]];
  }

  /** A new empty file on a volume whose first cluster is free. */
  lemma {:induction false} NewFile(v: Volume, cb: nat, b: Byte)
    requires Sound(v, cb) && |v.fat| > 2 && v.fat[2] == 0 && Find(v.dir, [b]) == None
    ensures Needed(0, cb) == 1 && NewChain(v, cb, [b], 0) == [2] && Slot(v.dir, [b]) == FreeSlot(v.dir, 0)
  {
    hide Sound, Find, FreeChain, FreeSlot, FreeClusters;
    assert cb > 0 by { SoundSize(v, cb); }
    NoBytes(cb);
    FirstFree(v.fat);
  }

  lemma {:induction false} SoundSize(v: Volume, cb: nat)
    requires Sound(v, cb)
    ensures cb > 0
  {
  }

  lemma {:induction false} NoBytes(cb: nat)
    requires cb > 0
    ensures Needed(0, cb) == 1
  {
    assert (cb - 1) / cb == 0;
  }

  lemma {:induction false} FirstFree(fat: seq<Word16>)
    requires |fat| > 2 && fat[2] == 0
    ensures FreeClusters(fat, 2, 1) == [2]
  {
    assert FreeClusters(fat, 3, 0) == [];
  }

  lemma {:induction false} HiddenSave(cb: nat, n: nat, limit: nat, slots: nat)
    requires cb > 0 && 3 <= limit <= n <= 0xfff8
    ensures var v := Behind(cb, n, limit, slots);
            Sound(v, cb) && Write(v, cb, NAME_0, []).ok && Slot(v.dir, [0]) == Some(0)
  {
    hide FreeClusters, Link, Fill, FreeChain, Scan, Store, NewChain, Needed, Slot, Behind, Chars, Shown, From83,
      Field, NewEntry;
    var v := Behind(cb, n, limit, slots);
    BehindFormed(cb, n, limit, slots);
    OneByteName(0);
    FoundUsed(v.dir, 0, [0]);
    BehindFinds(cb, n, limit, slots);
    NewFile(v, cb, 0);
  }

  lemma {:induction false} BehindFinds(cb: nat, n: nat, limit: nat, slots: nat)
    requires cb > 0 && 3 <= limit <= n
    ensures var v := Behind(cb, n, limit, slots);
            Find(v.dir, [0]) == None && FreeSlot(v.dir, 0) == Some(0) && v.fat[2] == 0 && Backed(v.data, 2)
  {
    EntryOf(A, 0, 0);
    BehindEntries(cb, n, limit, slots);
    assert Behind(cb, n, limit, slots).data[2] == Zeros(cb) && |Zeros(cb)| > 0;
    FoundUsed(Behind(cb, n, limit, slots).dir, 0, [0]);
  }

  /** Saving a file whose name is the byte 0x00: the save succeeds, nothing reads back under the name, and
      the file in the slot behind is gone. */
  lemma {:induction false} HiddenNameHidesFiles(cb: nat, n: nat, limit: nat, slots: nat)
    requires cb > 0 && 3 <= limit <= n <= 0xfff8
    ensures var v := Behind(cb, n, limit, slots);
            && WellFormed(v, cb, NoClusters(slots)) && Read(v, cb, NAME_A) == Some([])
            && Write(v, cb, NAME_0, []).ok && Sound(Write(v, cb, NAME_0, []).vol, cb)
            && Read(Write(v, cb, NAME_0, []).vol, cb, NAME_0) == None &&
               Read(Write(v, cb, NAME_0, []).vol, cb, NAME_A) == None
  {
    hide FreeClusters, Write, Slot, Find, Behind, NoClusters, Sound, Chars, Shown, From83, Field, NewEntry, Scan;
    var v := Behind(cb, n, limit, slots);
    BehindFormed(cb, n, limit, slots);
    BehindEntries(cb, n, limit, slots);
    OneByteName(0);
    OneByteName(A);
    EntryOf(A, 0, 0);
    HiddenSave(cb, n, limit, slots);
    FileBehindLost(v, cb, NoClusters(slots), NAME_0, [], 1);
    HiddenRead(Write(v, cb, NAME_0, []).vol, cb, NAME_0);
    ReadSlot(v, cb, NoClusters(slots), 1);
  }

  /** Such a volume on a disk with sectors of 512 bytes: one sector of reserved space, two copies of a table
      of one sector, a root directory of one sector, and a hundred clusters of one sector. */
  lemma {:induction false} RealDisk() returns (l: Layout, d: seq<Byte>)
    ensures Geometry(l, d) && Mirrored(l, d) && |d| == 104 * SECTOR && View(l, d) == Behind(512, 256, 102, 14)
  {
    l := Layout(1, 1, 1, 2, 3, 1, 4);
    var v := Behind(512, 256, 102, 14);
    assert forall c | 0 <= c < 256 :: v.data[c] == if 2 <= c < 102 then Zeros(512) else [];
    d := Realised(l, v, 102);
  }

  const B: Byte := 66

  /** A file of one cluster, a free slot, and no other cluster. */
  function Full(): Volume { Volume([0, 0, EOC], [Entry(A, 2, 1), Gone()], [[], [], [7]]) }

  lemma {:induction false} FullFormed()
    ensures WellFormed(Full(), 1, [[2], []])
  {
    hide Chars, Shown, From83, Field, NewEntry, Scan;
    EntryOf(A, 2, 1);
    var v, cs := Full(), [[2], []];
    assert Chain(v.fat, EOC, []);
    assert [2][1..] == [];
    assert forall s | 0 <= s < 2 :: FileOk(v, 1, v.dir[s], cs[s]);
  }

  lemma {:induction false} FullFinds()
    ensures var dir := Full().dir;
            Entries(dir) && Find(dir, [A]) == Some(File([A], 1, 2, 0)) && Find(dir, [B]) == None &&
              Slot(dir, [B]) == Some(1)
  {
    hide Chars, Shown, From83, Field, Trimmed, Uppers;
    EntryOf(A, 2, 1);
    var dir := Full().dir;
    assert Scan(dir, 2) == [] && Scan(dir, 1) == [];
    assert Scan(dir, 0) == [FileAt(dir, 0)];
    assert [A][0] != [B][0];
    assert [FileAt(dir, 0)][1..] == [];
    assert Named([], [B]) == None;
  }

  /** What an overwrite that does not fit leaves: the table entry of a cluster that is still a file's
      is free. */
  lemma {:induction false} OverwriteFreesFirst()
    ensures var v := Full();
            && WellFormed(v, 1, [[2], []])
            && Write(v, 1, NAME_A, [1, 2]) == Outcome(false, v.(fat := [0, 0, 0]))
            && forall cs2 :: !WellFormed(v.(fat := [0, 0, 0]), 1, cs2)
  {
    hide Chars, Shown, From83, Field, NewEntry, Scan;
    var v := Full();
    FullFormed();
    FullFinds();
    OneByteName(A);
    assert FreeChain([0, 0, 0], EOC) == [0, 0, 0];
    assert v.fat[2 := 0] == [0, 0, 0];
    assert FreedFor(v, 1, [A]) == [0, 0, 0];
    FreeOne(2);
    assert NewChain(v, 1, [A], 2) == [2];
    EntryOf(A, 2, 1);
    forall cs2 ensures !WellFormed(v.(fat := [0, 0, 0]), 1, cs2) {
      if WellFormed(v.(fat := [0, 0, 0]), 1, cs2) { Dangling(v.(fat := [0, 0, 0]), 1, cs2, 0); }
    }
  }

  lemma {:induction false} SecondSave(v: Volume)
    requires Sound(v, 1) && v == Full().(fat := [0, 0, 0])
    ensures Write(v, 1, NAME_B, [9]) ==
            Outcome(true, Volume([0, 0, EOC], [Entry(A, 2, 1), Entry(B, 2, 1)], [[], [], [9]]))
  {
    hide FreeChain, Find, Link, Fill, FreeClusters, Scan, Backed, FreeSlot, Chars, Shown, From83, Field, NewEntry;
    FullFinds();
    OneByteName(B);
    FreeOne(1);
    assert NewChain(v, 1, [B], 1) == [2];
    StoreByte();
  }

  /** The next file saved gets that cluster, and the first file reads the other one's bytes. */
  lemma {:induction false} OverwrittenFileReadsAnother()
    ensures var v := Write(Full(), 1, NAME_A, [1, 2]).vol;
            Sound(v, 1) && Write(v, 1, NAME_B, [9]).ok && Sound(Write(v, 1, NAME_B, [9]).vol, 1)
            && Read(Write(v, 1, NAME_B, [9]).vol, 1, NAME_A) == Some([9])
  {
    hide Write, Find, ReadKey, WellFormed;
    OverwriteFreesFirst();
    WriteSound(Full(), 1, NAME_A, [1, 2]);
    var v := Full().(fat := [0, 0, 0]);
    WriteSound(v, 1, NAME_B, [9]);
    SecondSave(v);
    OneByteName(A);
    ReadsA(Write(v, 1, NAME_B, [9]).vol);
  }

  lemma {:induction false} ReadsA(v: Volume)
    requires Sound(v, 1) && v == Volume([0, 0, EOC], [Entry(A, 2, 1), Entry(B, 2, 1)], [[], [], [9]])
    ensures ReadKey(v, 1, [A]) == Some([9])
  {
    EntryOf(A, 2, 1);
    assert Scan(v.dir, 0)[0] == FileAt(v.dir, 0);
    assert Find(v.dir, [A]) == Some(FileAt(v.dir, 0));
    assert ReadFrom(v, 1, EOC, 0) == Some([]);
    assert ReadFrom(v, 1, 2, 1) == Some([9] + []);
  }

  /** Another file, a free cluster and no slot. */
  function NoRoom(): Volume { Volume([0, 0, 0], [Entry(A, 0, 0)], [[], [], [7]]) }

  lemma {:induction false} NoRoomFormed()
    ensures WellFormed(NoRoom(), 1, [[]]) && Sound(NoRoom(), 1)
  {
    hide Chars, Shown, From83, Field, NewEntry, Scan;
    EntryOf(A, 0, 0);
    var v, cs := NoRoom(), [[]];
    assert forall s | 0 <= s < 1 :: FileOk(v, 1, v.dir[s], cs[s]);
  }

  lemma {:induction false} NoRoomFinds()
    ensures Entries(NoRoom().dir) && Find(NoRoom().dir, [B]) == None && FreeSlot(NoRoom().dir, 0) == None
  {
    EntryOf(A, 0, 0);
    assert [A][0] != [B][0];
    FoundUsed(NoRoom().dir, 0, [B]);
  }

  lemma {:induction false} StoredHere(v: Volume)
    requires Sound(v, 1) && v.fat == [0, 0, 0] && NewChain(v, 1, [B], 0) == [2] && Find(v.dir, [B]) == None
    ensures Store(v, 1, [B], []).fat == [0, 0, EOC]
  {
    hide Sound, Find, FreeChain, Fill, NewChain;
    StoreByte();
  }

  lemma {:induction false} NoRoomSave()
    ensures var v := NoRoom();
            && Sound(v, 1) && Key(NAME_B) == Some([B]) && NewChain(v, 1, [B], 0) == [2]
            && Needed(0, 1) == 1 && Slot(v.dir, [B]) == None
            && Write(v, 1, NAME_B, []) == Outcome(false, Store(v, 1, [B], [])) &&
               Store(v, 1, [B], []).fat == [0, 0, EOC]
  {
    hide FreeClusters, Link, Fill, FreeChain, Scan, Store, NewChain, Needed, Slot, WellFormed;
    OneByteName(B);
    NoRoomFormed();
    NoRoomFinds();
    NewFile(NoRoom(), 1, B);
    StoredHere(NoRoom());
  }

  /** A save that finds no slot fails, and the free cluster is in use and nobody's. */
  lemma {:induction false} FullDirectoryLosesCluster()
    ensures var v, r := NoRoom(), Write(NoRoom(), 1, NAME_B, []);
            && WellFormed(v, 1, [[]]) && NoLeak(v, [[]])
            && !r.ok && r.vol.fat == [0, 0, EOC]
            && forall cs2 :: WellFormed(r.vol, 1, cs2) ==> !NoLeak(r.vol, cs2)
  {
    hide Write, Store, NewChain, Slot, NewEntry, Needed;
    NoRoomFormed();
    NoRoomSave();
    var v, cs, r := NoRoom(), [[]], Write(NoRoom(), 1, NAME_B, []);
    DirectoryFull(v, 1, cs, NAME_B, []);
    assert Lost(r.vol, 1, cs, 2) by { assert 2 in [2]; }
    forall cs2 | WellFormed(r.vol, 1, cs2) ensures !NoLeak(r.vol, cs2) {
      LostLeaks(r.vol, 1, cs, 2, cs2);
    }
  }

  /** A file of one cluster on a disk that has no other, with one more free entry in the table. */
  function Short(): Volume { Volume([0, 0, EOC, 0], [Entry(A, 2, 1)], [[], [], [7], []]) }

  lemma {:induction false} ShortFormed()
    ensures WellFormed(Short(), 1, [[2]]) && Sound(Short(), 1)
  {
    hide Chars, Shown, From83, Field, NewEntry, Scan;
    EntryOf(A, 2, 1);
    var v, cs := Short(), [[2]];
    assert Chain(v.fat, EOC, []);
    assert [2][1..] == [];
    assert forall s | 0 <= s < 1 :: FileOk(v, 1, v.dir[s], cs[s]);
  }

  lemma {:induction false} ShortFinds()
    ensures var v := Short();
            && Sound(v, 1) && Find(v.dir, [A]) == Some(File([A], 1, 2, 0)) && FreedFor(v, 1, [A]) == [0, 0, 0, 0]
            && NewChain(v, 1, [A], 2) == [2, 3] && Needed(2, 1) == 2
  {
    hide Chars, Shown, From83, Field, Trimmed, Uppers;
    ShortFormed();
    EntryOf(A, 2, 1);
    var v := Short();
    assert Scan(v.dir, 1) == [] && Scan(v.dir, 0) == [FileAt(v.dir, 0)];
    assert FreeChain([0, 0, 0, 0], EOC) == [0, 0, 0, 0];
    assert v.fat[2 := 0] == [0, 0, 0, 0];
    assert FreeClusters([0, 0, 0, 0], 4, 0) == [];
    assert FreeClusters([0, 0, 0, 0], 3, 1) == [3];
    assert FreeClusters([0, 0, 0, 0], 2, 2) == [2, 3];
  }

  lemma {:induction false} ShortStores()
    ensures Link([0, 0, 0, 0], [2, 3], 0) == [0, 0, 3, EOC]
    ensures Fill([[], [], [7], []], [2, 3], [8, 9], 1, 0) == [[], [], [8], []]
  {
    assert Link([0, 0, 3, EOC], [2, 3], 2) == [0, 0, 3, EOC];
    assert [0, 0, 3, 0][3 := EOC] == [0, 0, 3, EOC];
    assert Link([0, 0, 3, 0], [2, 3], 1) == [0, 0, 3, EOC];
    assert [0, 0, 0, 0][2 := 3] == [0, 0, 3, 0];
    assert Chunk([8, 9], 0, 1) == [8];
    assert [[], [], [7], []][2 := [8]] == [[], [], [8], []];
    assert Fill([[], [], [8], []], [2, 3], [8, 9], 1, 1) == [[], [], [8], []];
  }

  /** Overwriting it with two bytes fails, and the file has lost its byte to the new data. */
  lemma {:induction false} PastEndOverwrites()
    ensures var v, v2 := Short(), Short().(fat := [0, 0, 3, EOC], data := [[], [], [8], []]);
            && WellFormed(v, 1, [[2]]) && Write(v, 1, NAME_A, [8, 9]) == Outcome(false, v2)
            && Sound(v2, 1) && Read(v, 1, NAME_A) == Some([7]) && Read(v2, 1, NAME_A) == Some([8])
            && forall cs2 :: !WellFormed(v2, 1, cs2)
  {
    hide FreeChain, FreeClusters, Link, Fill, Scan, WellFormed, NewChain, Needed, Chars, Shown, From83, Field,
      Trimmed, Uppers;
    var v, v2 := Short(), Short().(fat := [0, 0, 3, EOC], data := [[], [], [8], []]);
    ShortFormed();
    ShortFinds();
    ShortStores();
    OneByteName(A);
    assert !Backed(v.data, [2, 3][1]);
    assert Write(v, 1, NAME_A, [8, 9]) == Outcome(false, v2);
    WriteSound(v, 1, NAME_A, [8, 9]);
    OneCluster(v, EOC, [7]);
    OneCluster(v2, 3, [8]);
    PastEndExactly(v, 1, [[2]], NAME_A, [8, 9]);
  }

  lemma {:induction false} OneCluster(v: Volume, next: Word16, bs: seq<Byte>)
    requires Sound(v, 1) && v.dir == [Entry(A, 2, 1)] && |v.fat| > 2 && v.fat[2] == next && v.data[2] == bs && |bs| == 1
    requires Find(v.dir, [A]) == Some(File([A], 1, 2, 0))
    ensures ReadKey(v, 1, [A]) == Some(bs)
  {
    hide Sound, Find, Scan;
    SoundNext(v, next);
    assert ReadFrom(v, 1, next, 0) == Some([]);
    assert ReadFrom(v, 1, 2, 1) == Some(bs + []);
  }

  lemma {:induction false} SoundNext(v: Volume, next: Word16)
    requires Sound(v, 1) && |v.fat| > 2 && v.fat[2] == next
    ensures |v.data| == |v.fat| && (Follows(next) ==> next < |v.fat|)
  {
  }

  lemma {:induction false} TwoBytesTrimmed()
    ensures Chars([A, DOT]).Some? && Trimmed([A, DOT]) == [A, DOT]
  {
    CharsAscii([A, DOT], []);
    assert [A, DOT] + [] == [A, DOT];
    assert [A, DOT][1..] == [DOT] && [DOT][1..] == [] && [A, DOT][..1] == [A] && [DOT][..1] == [DOT];
    assert Trimmed([DOT]) == [DOT];
  }

  /** The file saved as `A..` is listed as `A.`, which names another file. */
  lemma {:induction false} ListedNameOfAnother()
    ensures Chars([A, DOT, DOT]).Some? && Chars([A, DOT]).Some?
    ensures Key([A, DOT, DOT]) == Some([A, DOT]) && Key([A, DOT]) == Some([A])
  {
    hide Chars, Trimmed;
    var name, shown: seq<Byte> := [A, DOT, DOT], [A, DOT];
    Nothing();
    OneByteName(A);
    OneByteTrimmed(A);
    JoinChars([A], []);
    assert shown == [A] + [DOT] + [];
    JoinChars(shown, []);
    assert name == shown + [DOT] + [];
    SplitAt(shown, []);
    SplitAt([A], []);
    assert Uppers(shown) == shown && Uppers([A]) == [A] && Uppers([]) == [];
    KeyOfParts(shown, []);
    KeyOfParts([A], []);
    TwoBytesTrimmed();
  }
}
