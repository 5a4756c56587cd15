/** The 16-bit cluster number that the allocation loop counts with, on tables that have more entries than
    it can count. */
module FatCounter {
  import opened Bytes
  import opened FatVolume
  import opened FatChains

  const LAST: nat := 0xffff

  datatype Search = Found(chain: seq<nat>) | Panicked | Running

  /** What `passes` passes of the loop find from `c` on, behind the clusters in `chain`. A build that checks
      for overflow panics at the last number, one that does not goes on with cluster 0. */
  function Allocate(fat: seq<Word16>, c: Word16, chain: seq<nat>, needed: nat, checked: bool, passes: nat): Search
    decreases passes
  {
    if |chain| >= needed || c >= |fat| then Found(chain)
    else if passes == 0 then Running
    else
      var more := if fat[c] == 0 then chain + [c] else chain;
      if c < LAST then Allocate(fat, c + 1, more, needed, checked, passes - 1)
      else if checked then Panicked
      else Allocate(fat, 0, more, needed, checked, passes - 1)
  }

  /** On a table that it can count, the loop finds what the scan finds. */
  lemma {:induction false} NarrowTable(fat: seq<Word16>, c: Word16, chain: seq<nat>, needed: nat, checked: bool,
      passes: nat)
    requires |fat| <= LAST && c <= |fat| && |chain| <= needed && passes >= |fat| - c
    ensures Allocate(fat, c, chain, needed, checked, passes) == Found(chain + FreeClusters(fat, c, needed - |chain|))
    decreases passes
  {
    if |chain| == needed || c == |fat| {
      assert chain + [] == chain;
    } else {
      var more := if fat[c] == 0 then chain + [c] else chain;
      NarrowTable(fat, c + 1, more, needed, checked, passes - 1);
    }
  }

  /** On a larger one, the loop goes up to the last number it can count, if it needs to. */
  lemma {:induction false} UpToLast(fat: seq<Word16>, c: Word16, chain: seq<nat>, needed: nat, checked: bool,
      passes: nat)
    requires |fat| > LAST && |chain| <= needed && passes >= LAST - c
    ensures var all := chain + FreeClusters(fat[..LAST], c, needed - |chain|);
            |all| <= needed && Allocate(fat, c, chain, needed, checked, passes) ==
            if |all| == needed then Found(all) else Allocate(fat, LAST, all, needed, checked, passes - (LAST - c))
    decreases passes
  {
    ClustersFound(fat[..LAST], c, needed - |chain|);
    if |chain| == needed || c == LAST {
      assert chain + [] == chain;
    } else {
      var more := if fat[c] == 0 then chain + [c] else chain;
      var rest := FreeClusters(fat[..LAST], c + 1, needed - |more|);
      assert fat[..LAST][c] == fat[c];
      if fat[c] == 0 { Regroup(chain, [c], rest); }
      assert chain + FreeClusters(fat[..LAST], c, needed - |chain|) == more + rest;
      UpToLast(fat, c + 1, more, needed, checked, passes - 1);
    }
  }

  lemma {:induction false} AroundAgain(fat: seq<Word16>, chain: seq<nat>, needed: nat, passes: nat)
    requires |fat| > LAST && |chain| < needed && passes > 0
    ensures Allocate(fat, LAST, chain, needed, false, passes) ==
            Allocate(fat, 0, if fat[LAST] == 0 then chain + [LAST] else chain, needed, false, passes - 1)
  {
  }

  /** With every entry in use the loop never ends. */
  lemma {:induction false} Endless(fat: seq<Word16>, c: Word16, chain: seq<nat>, needed: nat, passes: nat)
    requires |fat| > LAST && |chain| < needed && forall k | 0 <= k <= LAST :: fat[k] != 0
    ensures Allocate(fat, c, chain, needed, false, passes) == Running
    decreases passes
  {
    if passes > 0 { Endless(fat, if c < LAST then c + 1 else 0, chain, needed, passes - 1); }
  }

  ghost predicate AllFree(fat: seq<Word16>, chain: seq<nat>) {
    forall i | 0 <= i < |chain| :: chain[i] <= LAST && chain[i] < |fat| && fat[chain[i]] == 0
  }

  /** Lap after lap, as long as any entry is free, until there are enough of them. */
  lemma {:induction false} Laps(fat: seq<Word16>, chain: seq<nat>, needed: nat, z: nat)
    returns (passes: nat, found: seq<nat>)
    requires |fat| > LAST && |chain| <= needed && AllFree(fat, chain) && z <= LAST && fat[z] == 0
    ensures Allocate(fat, 0, chain, needed, false, passes) == Found(found) && |found| == needed && AllFree(fat, found)
    decreases needed - |chain|
  {
    hide Allocate, FreeClusters;
    var all := chain + FreeClusters(fat[..LAST], 0, needed - |chain|);
    ClustersFound(fat[..LAST], 0, needed - |chain|);
    UpToLast(fat, 0, chain, needed, false, LAST);
    if |all| == needed {
      passes, found := LAST, all;
    } else {
      var more := if fat[LAST] == 0 then all + [LAST] else all;
      var k;
      k, found := Laps(fat, more, needed, z);
      passes := LAST + 1 + k;
      UpToLast(fat, 0, chain, needed, false, passes);
      AroundAgain(fat, all, needed, k + 1);
    }
  }

  /** More clusters than there are free ones: one comes twice. */
  lemma {:induction false} Twice(fat: seq<Word16>, chain: seq<nat>)
    requires |fat| > LAST && AllFree(fat, chain) && |chain| > |FreeFrom(fat[..LAST + 1], 0)|
    ensures !Distinct(chain)
  {
    if Distinct(chain) {
      DistinctElements(chain);
      assert Elements(chain) <= FreeFrom(fat[..LAST + 1], 0);
      Fewer(Elements(chain), FreeFrom(fat[..LAST + 1], 0));
    }
  }

  lemma {:induction false} Fewer(a: set<int>, b: set<int>)
    requires a <= b
    ensures |a| <= |b|
  {
    assert b == a + (b - a);
  }

  /** On a table of 2^16 entries or more the loop finds what the scan finds if and only if that is enough
      before the last number. If not, a build that checks for overflow panics. One that does not ends only if an
      entry is free, and when there are fewer free ones than it needs, with a cluster twice in the chain. */
  lemma {:induction false} WideTable(fat: seq<Word16>, needed: nat)
    requires |fat| > LAST
    ensures var chain := FreeClusters(fat[..LAST], 2, needed);
            forall checked, passes: nat | passes > LAST ::
              Allocate(fat, 2, [], needed, checked, passes) == Found(chain) <==> |chain| == needed
    ensures |FreeClusters(fat[..LAST], 2, needed)| < needed ==>
              forall passes: nat | passes > LAST :: Allocate(fat, 2, [], needed, true, passes) == Panicked
    ensures needed > 0 && (forall k | 0 <= k <= LAST :: fat[k] != 0) ==>
              forall passes: nat :: Allocate(fat, 2, [], needed, false, passes) == Running
    ensures needed > |FreeFrom(fat[..LAST + 1], 0)| > 0 ==>
              exists passes: nat, found :: Allocate(fat, 2, [], needed, false, passes) == Found(found) &&
                !Distinct(found)
  {
    var chain := FreeClusters(fat[..LAST], 2, needed);
    assert [] + chain == chain;
    forall checked, passes: nat | passes > LAST
      ensures |chain| == needed ==> Allocate(fat, 2, [], needed, checked, passes) == Found(chain)
      ensures |chain| < needed ==> Allocate(fat, 2, [], needed, checked, passes) != Found(chain)
      ensures |chain| < needed && checked ==> Allocate(fat, 2, [], needed, checked, passes) == Panicked
    {
      UpToLast(fat, 2, [], needed, checked, passes);
      if |chain| < needed && !checked {
        FoundEnough(fat, 0, if fat[LAST] == 0 then chain + [LAST] else chain, needed, passes - (LAST - 2) - 1);
      }
    }
    if needed > 0 && forall k | 0 <= k <= LAST :: fat[k] != 0 {
      forall passes: nat ensures Allocate(fat, 2, [], needed, false, passes) == Running {
        Endless(fat, 2, [], needed, passes);
      }
    }
    if needed > |FreeFrom(fat[..LAST + 1], 0)| > 0 {
      Duplicates(fat, needed);
    }
    ClustersFound(fat[..LAST], 2, needed);
  }

  lemma {:induction false} FoundEnough(fat: seq<Word16>, c: Word16, chain: seq<nat>, needed: nat, passes: nat)
    requires |fat| > LAST && |chain| <= needed
    ensures Allocate(fat, c, chain, needed, false, passes).Found? ==>
              |Allocate(fat, c, chain, needed, false, passes).chain| == needed
    decreases passes
  {
    if passes > 0 && |chain| < needed {
      FoundEnough(fat, if c < LAST then c + 1 else 0, if fat[c] == 0 then chain + [c] else chain, needed, passes - 1);
    }
  }

  lemma {:induction false} Duplicates(fat: seq<Word16>, needed: nat)
    requires |fat| > LAST && needed > |FreeFrom(fat[..LAST + 1], 0)| > 0
    ensures exists passes: nat, found :: Allocate(fat, 2, [], needed, false, passes) == Found(found) && !Distinct(found)
  {
    hide Allocate, FreeClusters;
    var z :| z in FreeFrom(fat[..LAST + 1], 0);
    var front := FreeClusters(fat[..LAST], 2, needed);
    ClustersFound(fat[..LAST], 2, needed);
    assert [] + front == front;
    if |front| == needed {
      Twice(fat, front);
      assert false;
    } else {
      var more := if fat[LAST] == 0 then front + [LAST] else front;
      var k, found := Laps(fat, more, needed, z);
      UpToLast(fat, 2, [], needed, false, LAST - 2 + 1 + k);
      AroundAgain(fat, front, needed, k + 1);
      Twice(fat, found);
      assert Allocate(fat, 2, [], needed, false, LAST - 2 + 1 + k) == Found(found);
    }
  }
}
