/** A FAT16 volume with a root directory only: cluster chains, directory slots and files. */
module FatVolume {
  import opened Bytes
  import opened FatNames

  type Word16 = w: int | 0 <= w < 0x1_0000

  const EOC: Word16 := 0xffff
  const FREE_AHEAD: Byte := 0x00
  const DELETED: Byte := 0xe5

  /** The allocation table, the 32-byte directory entries and the clusters. Clusters 0 and 1 have no
      data, nor do those of the table's last clusters that the disk does not have. */
  datatype Volume = Volume(fat: seq<Word16>, dir: seq<seq<Byte>>, data: seq<seq<Byte>>)

  // ----- the allocation table -----

  /** A cluster number that is followed rather than ending a chain. */
  predicate Follows(c: Word16) { 2 <= c < 0xfff8 }

  predicate InRange(fat: seq<Word16>) {
    forall k | 0 <= k < |fat| :: Follows(fat[k]) ==> fat[k] < |fat|
  }

  function InUse(fat: seq<Word16>): set<int> { set k | 0 <= k < |fat| && fat[k] != 0 }

  lemma {:induction false} ZeroShrinks(fat: seq<Word16>, c: nat)
    requires c < |fat|
    ensures InUse(fat[c := 0]) == InUse(fat) - {c}
  {
  }

  /** Follow a chain, zeroing each entry before going on. It ends on every table whose
      entries are in range, even a cyclic one: each step zeroes an entry. */
  function FreeChain(fat: seq<Word16>, c: Word16): (r: seq<Word16>)
    requires InRange(fat) && (Follows(c) ==> c < |fat|)
    ensures |r| == |fat| && InRange(r)
    ensures forall k | 0 <= k < |fat| :: r[k] == fat[k] || r[k] == 0
    decreases InUse(fat), if Follows(c) then 1 else 0
  {
    if !Follows(c) then fat
    else
      ZeroShrinks(fat, c);
      FreeChain(fat[c := 0], fat[c])
  }

  /** The first `needed` free clusters from `candidate` on. */
  function FreeClusters(fat: seq<Word16>, candidate: nat, needed: nat): (r: seq<nat>)
    decreases |fat| - candidate
  {
    if needed == 0 || candidate >= |fat| then []
    else if fat[candidate] == 0 then [candidate] + FreeClusters(fat, candidate + 1, needed - 1)
    else FreeClusters(fat, candidate + 1, needed)
  }

  lemma {:induction false} ClustersFound(fat: seq<Word16>, candidate: nat, needed: nat)
    ensures var r := FreeClusters(fat, candidate, needed);
            && |r| <= needed
            && (forall i | 0 <= i < |r| :: candidate <= r[i] < |fat| && fat[r[i]] == 0)
            && (forall i, j | 0 <= i < j < |r| :: r[i] < r[j])
            && (|r| < needed ==> forall c | candidate <= c < |fat| && fat[c] == 0 :: c in r)
    decreases |fat| - candidate
  {
    if needed > 0 && candidate < |fat| {
      ClustersFound(fat, candidate + 1, if fat[candidate] == 0 then needed - 1 else needed);
    }
  }

  /** Write the links of `chain` from its `i`-th cluster on. */
  function Link(fat: seq<Word16>, chain: seq<nat>, i: nat): (r: seq<Word16>)
    requires |fat| <= 0x1_0000 && forall k | 0 <= k < |chain| :: chain[k] < |fat|
    ensures |r| == |fat|
    decreases |chain| - i
  {
    if i >= |chain| then fat
    else Link(fat[chain[i] := if i + 1 < |chain| then chain[i + 1] else EOC], chain, i + 1)
  }

  // ----- the directory -----

  predicate Hidden(attr: Byte) {
    attr % 16 == 15 || (attr / 8) % 2 == 1 || (attr / 16) % 2 == 1
  }

  predicate Vacant(e: seq<Byte>)
    requires |e| == 32
  {
    e[0] == FREE_AHEAD || e[0] == DELETED
  }

  /** An entry of a plain file. */
  predicate Used(e: seq<Byte>)
    requires |e| == 32
  {
    !Vacant(e) && !Hidden(e[11])
  }

  predicate Entries(dir: seq<seq<Byte>>) { forall s | 0 <= s < |dir| :: |dir[s]| == 32 }

  function NameOf(e: seq<Byte>): seq<Byte>
    requires |e| == 32
  {
    From83(e[..11])
  }

  function FirstOf(e: seq<Byte>): Word16
    requires |e| == 32
  {
    var lo: int, hi: int := e[26], e[27];
    lo + 256 * hi
  }

  function SizeOf(e: seq<Byte>): Word
    requires |e| == 32
  {
    FromLittleEndian(e[28..32])
  }

  datatype File = File(name: seq<Byte>, size: Word, first: Word16, slot: nat)

  function FileAt(dir: seq<seq<Byte>>, s: nat): File
    requires Entries(dir) && s < |dir|
  {
    File(NameOf(dir[s]), SizeOf(dir[s]), FirstOf(dir[s]), s)
  }

  /** The plain files from slot `s` on; the first slot that was never used ends the list. */
  function Scan(dir: seq<seq<Byte>>, s: nat): seq<File>
    requires Entries(dir)
    decreases |dir| - s
  {
    if s >= |dir| || dir[s][0] == FREE_AHEAD then []
    else if Used(dir[s]) then [FileAt(dir, s)] + Scan(dir, s + 1)
    else Scan(dir, s + 1)
  }

  function Named(files: seq<File>, want: seq<Byte>): (r: Option<File>)
  {
    if files == [] then None else if files[0].name == want then Some(files[0]) else Named(files[1..], want)
  }

  function Find(dir: seq<seq<Byte>>, want: seq<Byte>): Option<File>
    requires Entries(dir)
  {
    Named(Scan(dir, 0), want)
  }

  function FreeSlot(dir: seq<seq<Byte>>, s: nat): (r: Option<nat>)
    requires Entries(dir)
    ensures r.Some? ==> s <= r.value < |dir| && Vacant(dir[r.value])
    ensures r.Some? ==> forall i | s <= i < r.value :: !Vacant(dir[i])
    ensures r.None? ==> forall i | s <= i < |dir| :: !Vacant(dir[i])
    decreases |dir| - s
  {
    if s >= |dir| then None else if Vacant(dir[s]) then Some(s) else FreeSlot(dir, s + 1)
  }

  const ATTR_ARCHIVE: Byte := 0x20

  function NewEntry(raw: seq<Byte>, first: Word16, size: Word): (e: seq<Byte>)
    requires |raw| == 11
    ensures |e| == 32 && e[0] == raw[0] && e[..11] == raw && e[11] == ATTR_ARCHIVE
    ensures FirstOf(e) == first && SizeOf(e) == size
  {
    var e := raw + [ATTR_ARCHIVE] + Zeros(14) + [first % 256, first / 256] + LittleEndian(size);
    LittleEndianRoundTrip(size);
    assert e[28..32] == LittleEndian(size);
    e
  }

  // ----- the operations -----

  /** The disk has the cluster. */
  predicate Backed(data: seq<seq<Byte>>, c: nat)
    requires c < |data|
  {
    data[c] != []
  }

  predicate AllBacked(data: seq<seq<Byte>>, chain: seq<nat>)
  {
    forall i | 0 <= i < |chain| :: chain[i] < |data| && Backed(data, chain[i])
  }

  /** What every operation needs to stay inside the volume. */
  predicate Sound(v: Volume, cb: nat) {
    && 0 < cb && |v.data| == |v.fat| <= 0xfff8 && Entries(v.dir) && InRange(v.fat)
    && (forall c | 2 <= c < |v.data| :: |v.data[c]| == if Backed(v.data, c) then cb else 0)
    && (forall c, k | 2 <= c < k < |v.data| && Backed(v.data, k) :: Backed(v.data, c))
    && (forall s | 0 <= s < |v.dir| :: Used(v.dir[s]) && Follows(FirstOf(v.dir[s])) ==> FirstOf(v.dir[s]) < |v.fat|)
  }

  function Clusters(size: nat, cb: nat): nat
    requires 0 < cb
  {
    (size + cb - 1) / cb
  }

  /** The bytes of `n` clusters of a chain, with zeros where the chain is too short; none if one of them
      is not on the disk. */
  function ReadFrom(v: Volume, cb: nat, c: Word16, n: nat): (r: Option<seq<Byte>>)
    requires Sound(v, cb) && (Follows(c) ==> c < |v.fat|)
    ensures r.Some? ==> |r.value| == n * cb
    decreases n
  {
    if Follows(c) && n > 0 then
      if !Backed(v.data, c) then None
      else
        assert n * cb == cb + (n - 1) * cb;
        match ReadFrom(v, cb, v.fat[c], n - 1)
        case None => None
        case Some(rest) => Some(v.data[c] + rest)
    else Some(Zeros(n * cb))
  }

  /** The bytes of the first file whose entry carries the name `want`. */
  function ReadKey(v: Volume, cb: nat, want: seq<Byte>): Option<seq<Byte>>
    requires Sound(v, cb)
  {
    match Find(v.dir, want)
    case None => None
    case Some(f) =>
      FoundUsed(v.dir, 0, want);
      CoverSize(f.size, cb);
      match ReadFrom(v, cb, f.first, Clusters(f.size, cb))
      case None => None
      case Some(bs) => Some(bs[..f.size])
  }

  function Read(v: Volume, cb: nat, name: Name): Option<seq<Byte>>
    requires Sound(v, cb)
  {
    match Key(name)
    case None => None
    case Some(want) => ReadKey(v, cb, want)
  }

  lemma {:induction false} CoverSize(size: nat, cb: nat)
    requires 0 < cb
    ensures Clusters(size, cb) * cb >= size
    ensures size > 0 ==> (Clusters(size, cb) - 1) * cb < size
  {
  }

  lemma {:induction false} FoundUsed(dir: seq<seq<Byte>>, s: nat, want: seq<Byte>)
    requires Entries(dir)
    ensures var r := Named(Scan(dir, s), want);
            r.Some? ==> s <= r.value.slot < |dir| && Used(dir[r.value.slot]) && r.value == FileAt(dir, r.value.slot)
                        && NameOf(dir[r.value.slot]) == want
    decreases |dir| - s
  {
    if s < |dir| && dir[s][0] != FREE_AHEAD {
      FoundUsed(dir, s + 1, want);
      if Used(dir[s]) {
        assert Scan(dir, s)[1..] == Scan(dir, s + 1);
      }
    }
  }

  function Chunk(bytes: seq<Byte>, i: nat, cb: nat): (r: seq<Byte>)
    ensures |r| == cb
  {
    var off := i * cb;
    var n := if off >= |bytes| then 0 else if |bytes| - off < cb then |bytes| - off else cb;
    (if n == 0 then [] else bytes[off..off + n]) + Zeros(cb - n)
  }

  /** Write the bytes into the clusters of `chain` from the `i`-th on, up to one that the disk does not
      have. */
  function Fill(data: seq<seq<Byte>>, chain: seq<nat>, bytes: seq<Byte>, cb: nat, i: nat): (r: seq<seq<Byte>>)
    requires forall k | 0 <= k < |chain| :: chain[k] < |data|
    ensures |r| == |data|
    decreases |chain| - i
  {
    if i >= |chain| || !Backed(data, chain[i]) then data
    else Fill(data[chain[i] := Chunk(bytes, i, cb)], chain, bytes, cb, i + 1)
  }

  function Needed(bytes: nat, cb: nat): nat
    requires 0 < cb
  {
    if Clusters(bytes, cb) > 1 then Clusters(bytes, cb) else 1
  }

  /** The slot a name is written to: its own, or the first vacant one. */
  function Slot(dir: seq<seq<Byte>>, want: seq<Byte>): (r: Option<nat>)
    requires Entries(dir)
    ensures r.Some? ==> r.value < |dir|
  {
    FoundUsed(dir, 0, want);
    var f := Find(dir, want);
    if f.Some? then Some(f.value.slot) else FreeSlot(dir, 0)
  }

  /** The table once the chain of the file to be replaced, if any, is free. */
  function FreedFor(v: Volume, cb: nat, want: seq<Byte>): (fat: seq<Word16>)
    requires Sound(v, cb)
    ensures |fat| == |v.fat| && InRange(fat)
  {
    FoundUsed(v.dir, 0, want);
    var f := Find(v.dir, want);
    if f.Some? then FreeChain(v.fat, f.value.first) else v.fat
  }

  function NewChain(v: Volume, cb: nat, want: seq<Byte>, size: nat): (chain: seq<nat>)
    requires Sound(v, cb)
    ensures |chain| <= Needed(size, cb)
    ensures forall k | 0 <= k < |chain| :: 2 <= chain[k] < |v.fat| && FreedFor(v, cb, want)[chain[k]] == 0
    ensures forall i, j | 0 <= i < j < |chain| :: chain[i] < chain[j]
  {
    ClustersFound(FreedFor(v, cb, want), 2, Needed(size, cb));
    FreeClusters(FreedFor(v, cb, want), 2, Needed(size, cb))
  }

  /** The volume with the new chain linked and filled; the directory is as before. */
  function Store(v: Volume, cb: nat, want: seq<Byte>, bytes: seq<Byte>): Volume
    requires Sound(v, cb)
  {
    var chain := NewChain(v, cb, want, |bytes|);
    Volume(Link(FreedFor(v, cb, want), chain, 0), v.dir, Fill(v.data, chain, bytes, cb, 0))
  }

  datatype Outcome = Outcome(ok: bool, vol: Volume)

  function Write(v: Volume, cb: nat, name: Name, bytes: seq<Byte>): Outcome
    requires Sound(v, cb)
  {
    match To83(name)
    case None => Outcome(false, v)
    case Some(raw) =>
      var want := From83(raw);
      var chain := NewChain(v, cb, want, |bytes|);
      if |chain| < Needed(|bytes|, cb) then Outcome(false, v.(fat := FreedFor(v, cb, want)))
      else
        var v2 := Store(v, cb, want, bytes);
        if !AllBacked(v.data, chain) then Outcome(false, v2)
        else
          match Slot(v.dir, want)
          case None => Outcome(false, v2)
          case Some(slot) =>
            Outcome(true, v2.(dir := v.dir[slot := NewEntry(raw, chain[0], |bytes| % 0x1_0000_0000)]))
  }

  function Erased(e: seq<Byte>): (r: seq<Byte>)
    requires |e| == 32
    ensures |r| == 32 && r[0] == DELETED && r[1..] == e[1..]
  {
    [DELETED] + e[1..]
  }

  function Delete(v: Volume, cb: nat, name: Name): Outcome
    requires Sound(v, cb)
  {
    match Key(name)
    case None => Outcome(false, v)
    case Some(want) =>
      FoundUsed(v.dir, 0, want);
      match Find(v.dir, want)
      case None => Outcome(false, v)
      case Some(f) =>
        Outcome(true, Volume(FreeChain(v.fat, f.first), v.dir[f.slot := Erased(v.dir[f.slot])], v.data))
  }
}
