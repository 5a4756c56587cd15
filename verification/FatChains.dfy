/** Cluster chains: what freeing, linking, filling and reading do to them. */
module FatChains {
  import opened Bytes
  import opened FatVolume

  /** `cs` are the clusters of the chain that starts at `c`. */
  ghost predicate Chain(fat: seq<Word16>, c: Word16, cs: seq<nat>)
    decreases |cs|
  {
    if cs == [] then c >= 0xfff8
    else Follows(c) && c == cs[0] && c < |fat| && Chain(fat, fat[c], cs[1..])
  }

  /** The clusters of a file: none, or a chain without a cycle. */
  ghost predicate HasChain(fat: seq<Word16>, first: Word16, cs: seq<nat>) {
    Distinct(cs) && if cs == [] then !Follows(first) else Chain(fat, first, cs)
  }

  ghost predicate Distinct(cs: seq<nat>) { forall i, j | 0 <= i < j < |cs| :: cs[i] != cs[j] }

  ghost predicate Apart(a: seq<nat>, b: seq<nat>) { forall k | k in a :: k !in b }

  lemma {:induction false} ChainRange(fat: seq<Word16>, c: Word16, cs: seq<nat>)
    requires Chain(fat, c, cs)
    ensures forall k | k in cs :: 2 <= k < |fat| && fat[k] != 0
    decreases |cs|
  {
    if cs != [] {
      ChainRange(fat, fat[c], cs[1..]);
      assert cs == [cs[0]] + cs[1..];
      if |cs| > 1 {
        assert fat[c] == cs[1];
      }
    }
  }

  /** Two tables that agree on a chain have the same chain. */
  lemma {:induction false} ChainFrame(fat: seq<Word16>, fat2: seq<Word16>, c: Word16, cs: seq<nat>)
    requires Chain(fat, c, cs) && |fat| == |fat2| && forall k | k in cs && k < |fat| :: fat[k] == fat2[k]
    ensures Chain(fat2, c, cs)
    decreases |cs|
  {
    if cs != [] {
      assert cs[0] in cs;
      assert forall k | k in cs[1..] :: k in cs;
      ChainFrame(fat, fat2, fat[c], cs[1..]);
    }
  }

  lemma {:induction false} HasChainFrame(fat: seq<Word16>, fat2: seq<Word16>, first: Word16, cs: seq<nat>)
    requires HasChain(fat, first, cs) && |fat| == |fat2| && forall k | k in cs && k < |fat| :: fat[k] == fat2[k]
    ensures HasChain(fat2, first, cs)
  {
    if cs != [] { ChainFrame(fat, fat2, first, cs); }
  }

  /** Freeing a chain zeroes exactly its clusters. */
  lemma {:induction false} FreesChain(fat: seq<Word16>, c: Word16, cs: seq<nat>)
    requires InRange(fat) && (Follows(c) ==> c < |fat|) && HasChain(fat, c, cs)
    ensures forall k | 0 <= k < |fat| :: FreeChain(fat, c)[k] == if k in cs then 0 else fat[k]
  {
    if cs != [] { FreesFrom(fat, c, cs); }
  }

  lemma {:induction false} FreesFrom(fat: seq<Word16>, c: Word16, cs: seq<nat>)
    requires InRange(fat) && (Follows(c) ==> c < |fat|) && Chain(fat, c, cs) && Distinct(cs)
    ensures forall k | 0 <= k < |fat| :: FreeChain(fat, c)[k] == if k in cs then 0 else fat[k]
    decreases |cs|
  {
    if cs != [] {
      var rest := cs[1..];
      assert cs == [cs[0]] + rest;
      assert forall i | 0 <= i < |rest| :: rest[i] == cs[i + 1];
      assert c !in rest;
      ChainFrame(fat, fat[c := 0], fat[c], rest);
      FreesFrom(fat[c := 0], fat[c], rest);
    }
  }

  /** Links go to the chain's clusters only. */
  lemma {:induction false} Links(fat: seq<Word16>, chain: seq<nat>, i: nat)
    requires |fat| <= 0xfff8 && Distinct(chain) && forall k | 0 <= k < |chain| :: 2 <= chain[k] < |fat|
    ensures forall k | 0 <= k < |fat| && k !in chain[if i < |chain| then i else |chain|..] ::
            Link(fat, chain, i)[k] == fat[k]
    ensures forall j | i <= j < |chain| ::
              Link(fat, chain, i)[chain[j]] == if j + 1 < |chain| then chain[j + 1] else 0xffff
    ensures i < |chain| ==> Chain(Link(fat, chain, i), chain[i], chain[i..])
    decreases |chain| - i
  {
    if i < |chain| {
      var c, next := chain[i], if i + 1 < |chain| then chain[i + 1] else EOC;
      Links(fat[c := next], chain, i + 1);
      assert chain[i..] == [c] + chain[i + 1..];
      assert chain[i..][1..] == chain[i + 1..];
      assert c !in chain[i + 1..];
    }
  }

  lemma {:induction false} LinksInRange(fat: seq<Word16>, chain: seq<nat>, i: nat)
    requires InRange(fat) && |fat| <= 0xfff8 && forall k | 0 <= k < |chain| :: 2 <= chain[k] < |fat|
    ensures InRange(Link(fat, chain, i))
    decreases |chain| - i
  {
    if i < |chain| {
      LinksInRange(fat[chain[i] := if i + 1 < |chain| then chain[i + 1] else EOC], chain, i + 1);
    }
  }

  /** The data goes to the chain's clusters only. */
  lemma {:induction false} FillsOnly(data: seq<seq<Byte>>, chain: seq<nat>, bytes: seq<Byte>, cb: nat, i: nat)
    requires forall k | 0 <= k < |chain| :: chain[k] < |data|
    ensures forall k | 0 <= k < |data| && k !in chain :: Fill(data, chain, bytes, cb, i)[k] == data[k]
    decreases |chain| - i
  {
    if i < |chain| && Backed(data, chain[i]) {
      FillsOnly(data[chain[i] := Chunk(bytes, i, cb)], chain, bytes, cb, i + 1);
    }
  }

  /** Into clusters that the disk has it goes chunk by chunk. */
  lemma {:induction false} Fills(data: seq<seq<Byte>>, chain: seq<nat>, bytes: seq<Byte>, cb: nat, i: nat)
    requires cb > 0 && Distinct(chain) && AllBacked(data, chain)
    ensures var r := Fill(data, chain, bytes, cb, i);
            && (forall j | i <= j < |chain| :: r[chain[j]] == Chunk(bytes, j, cb))
            && (forall k | 0 <= k < |data| && k !in chain :: r[k] == data[k])
            && (forall j | 0 <= j < i && j < |chain| :: r[chain[j]] == data[chain[j]])
    decreases |chain| - i
  {
    if i < |chain| { Fills(data[chain[i] := Chunk(bytes, i, cb)], chain, bytes, cb, i + 1); }
  }

  /** The clusters' bytes, one after the other. */
  function Join(data: seq<seq<Byte>>, cs: seq<nat>): seq<Byte>
    requires forall k | k in cs :: k < |data|
  {
    if cs == [] then []
    else
      assert cs[0] in cs && forall k | k in cs[1..] :: k in cs;
      data[cs[0]] + Join(data, cs[1..])
  }

  lemma {:induction false} JoinFrame(data: seq<seq<Byte>>, data2: seq<seq<Byte>>, cs: seq<nat>)
    requires |data| == |data2| && forall k | k in cs :: k < |data| && data[k] == data2[k]
    ensures Join(data, cs) == Join(data2, cs)
  {
    if cs != [] {
      assert forall k | k in cs[1..] :: k in cs;
      JoinFrame(data, data2, cs[1..]);
    }
  }

  /** Reading follows the chain. */
  lemma {:induction false} ReadsChain(v: Volume, cb: nat, c: Word16, cs: seq<nat>, n: nat)
    requires Sound(v, cb) && (Follows(c) ==> c < |v.fat|) && Chain(v.fat, c, cs) && AllBacked(v.data, cs) && n <= |cs|
    ensures forall k | k in cs[..n] :: k < |v.data|
    ensures ReadFrom(v, cb, c, n) == Some(Join(v.data, cs[..n]))
    decreases n
  {
    hide Sound;
    ChainRange(v.fat, c, cs);
    assert forall k | k in cs[..n] :: k in cs;
    if n > 0 {
      var rest := cs[1..];
      assert Backed(v.data, cs[0]);
      assert forall i | 0 <= i < |rest| :: rest[i] == cs[i + 1];
      NextInRange(v, cb, c);
      ReadsChain(v, cb, v.fat[c], rest, n - 1);
      assert cs[..n][1..] == rest[..n - 1];
    }
  }

  lemma {:induction false} NextInRange(v: Volume, cb: nat, c: Word16)
    requires Sound(v, cb) && c < |v.fat|
    ensures Follows(v.fat[c]) ==> v.fat[c] < |v.fat|
    ensures |v.fat| == |v.data|
  {
  }

  /** `n` bytes of a string from `lo` on, with zeros beyond its end. */
  function Padded(bytes: seq<Byte>, lo: nat, n: nat): (r: seq<Byte>)
    ensures |r| == n && forall i | 0 <= i < n :: r[i] == if lo + i < |bytes| then bytes[lo + i] else 0
  {
    seq(n, i requires 0 <= i < n => if lo + i < |bytes| then bytes[lo + i] else 0)
  }

  lemma {:induction false} ChunkPadded(bytes: seq<Byte>, i: nat, cb: nat)
    ensures Chunk(bytes, i, cb) == Padded(bytes, i * cb, cb)
  {
  }

  /** The chunks of a string, joined, are the string and its padding. */
  lemma {:induction false} JoinChunks(data: seq<seq<Byte>>, cs: seq<nat>, bytes: seq<Byte>, cb: nat, i: nat)
    requires forall j | 0 <= j < |cs| :: cs[j] < |data| && data[cs[j]] == Chunk(bytes, i + j, cb)
    ensures Join(data, cs) == Padded(bytes, i * cb, |cs| * cb)
    decreases |cs|
  {
    if cs != [] {
      var rest := cs[1..];
      assert forall j | 0 <= j < |rest| :: rest[j] == cs[j + 1] && data[rest[j]] == Chunk(bytes, i + (j + 1), cb);
      JoinChunks(data, rest, bytes, cb, i + 1);
      ChunkFirst(bytes, i, |rest|, cb);
    }
  }

  lemma {:induction false} ChunkFirst(bytes: seq<Byte>, i: nat, m: nat, cb: nat)
    ensures Chunk(bytes, i, cb) + Padded(bytes, (i + 1) * cb, m * cb) == Padded(bytes, i * cb, (m + 1) * cb)
  {
    ChunkPadded(bytes, i, cb);
    PaddedSplit(bytes, i * cb, cb, m * cb);
    assert (i + 1) * cb == i * cb + cb;
    assert (m + 1) * cb == cb + m * cb;
  }

  lemma {:induction false} PaddedSplit(bytes: seq<Byte>, lo: nat, n: nat, m: nat)
    ensures Padded(bytes, lo, n + m) == Padded(bytes, lo, n) + Padded(bytes, lo + n, m)
  {
  }

  lemma {:induction false} PaddedTake(bytes: seq<Byte>, n: nat, k: nat)
    requires k <= n && k <= |bytes|
    ensures Padded(bytes, 0, n)[..k] == bytes[..k]
  {
  }

  /** The scan finds enough free clusters exactly when there are enough. */
  lemma {:induction false} FindsEnough(fat: seq<Word16>, candidate: nat, needed: nat)
    requires candidate <= |fat|
    ensures var free := FreeFrom(fat, candidate);
            |FreeClusters(fat, candidate, needed)| == if |free| < needed then |free| else needed
    decreases |fat| - candidate
  {
    if candidate == |fat| {
      assert FreeFrom(fat, candidate) == {};
    } else if needed > 0 {
      FreeStep(fat, candidate);
      FindsEnough(fat, candidate + 1, if fat[candidate] == 0 then needed - 1 else needed);
    }
  }

  lemma {:induction false} FreeStep(fat: seq<Word16>, lo: nat)
    requires lo < |fat|
    ensures |FreeFrom(fat, lo)| == |FreeFrom(fat, lo + 1)| + if fat[lo] == 0 then 1 else 0
  {
    var more := FreeFrom(fat, lo + 1);
    if fat[lo] == 0 {
      assert FreeFrom(fat, lo) == more + {lo};
      assert lo !in more;
    } else {
      assert FreeFrom(fat, lo) == more;
    }
  }

  function FreeFrom(fat: seq<Word16>, lo: nat): set<int> { set c | lo <= c < |fat| && fat[c] == 0 }

  function Elements(cs: seq<nat>): set<int> { if cs == [] then {} else {cs[0]} + Elements(cs[1..]) }

  lemma {:induction false} DistinctElements(cs: seq<nat>)
    requires Distinct(cs)
    ensures |Elements(cs)| == |cs| && forall k :: k in Elements(cs) <==> k in cs
  {
    if cs != [] {
      var rest := cs[1..];
      assert cs == [cs[0]] + rest;
      assert forall i | 0 <= i < |rest| :: rest[i] == cs[i + 1];
      DistinctElements(rest);
    }
  }
}
