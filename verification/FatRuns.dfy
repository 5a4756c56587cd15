/** Whole runs of writes and deletes: the volume behaves like a table from names to bytes. */
module FatRuns {
  import opened Bytes
  import opened Utf8
  import opened FatNames
  import opened FatVolume
  import opened FatTheorems
  import opened FatFailures

  datatype Op = Save(name: Name, bytes: seq<Byte>) | Remove(name: Name)

  type Table = map<seq<Byte>, seq<Byte>>

  function Step(v: Volume, cb: nat, op: Op): Outcome
    requires Sound(v, cb)
  {
    match op
    case Save(name, bytes) => Write(v, cb, name, bytes)
    case Remove(name) => Delete(v, cb, name)
  }

  /** A save must not hide its file or outgrow a 32-bit size, nor, while overwriting, find the table full
      or run past the end of the disk. */
  predicate Guarded(v: Volume, cb: nat, op: Op)
    requires Sound(v, cb)
  {
    op.Save? ==>
      && (Write(v, cb, op.name, op.bytes).ok ==> Keeps(To83(op.name).value) && |op.bytes| < 0x1_0000_0000)
      && (DiskFull(v, cb, op.name, op.bytes) || PastEnd(v, cb, op.name, op.bytes) ==> Read(v, cb, op.name).None?)
  }

  function After(t: Table, op: Op, ok: bool): Table {
    if !ok || Key(op.name).None? then t
    else
      match op
      case Save(name, bytes) => t[Key(name).value := bytes]
      case Remove(name) => t - {Key(name).value}
  }

  function Lookup(t: Table, name: Name): Option<seq<Byte>> {
    if Key(name).Some? && Key(name).value in t then Some(t[Key(name).value]) else None
  }

  /** Every name reads as the table says. */
  ghost predicate Shows(v: Volume, cb: nat, t: Table)
    requires Sound(v, cb)
  {
    forall name: Name :: Read(v, cb, name) == Lookup(t, name)
  }

  ghost predicate Formed(v: Volume, cb: nat) { exists cs :: WellFormed(v, cb, cs) }

  lemma {:induction false} SaveStep(v: Volume, cb: nat, cs: seq<seq<nat>>, name: Name, bytes: seq<Byte>, t: Table)
    requires WellFormed(v, cb, cs) && Guarded(v, cb, Save(name, bytes)) && Shows(v, cb, t)
    ensures var r := Write(v, cb, name, bytes);
            Formed(r.vol, cb) && Shows(r.vol, cb, After(t, Save(name, bytes), r.ok))
  {
    if Write(v, cb, name, bytes).ok {
      SaveOk(v, cb, cs, name, bytes, t);
    } else if Key(name).Some? {
      SaveFails(v, cb, cs, name, bytes, t);
    }
  }

  lemma {:induction false} SaveOk(v: Volume, cb: nat, cs: seq<seq<nat>>, name: Name, bytes: seq<Byte>, t: Table)
    requires WellFormed(v, cb, cs) && Guarded(v, cb, Save(name, bytes)) && Shows(v, cb, t) &&
             Write(v, cb, name, bytes).ok
    ensures var v2 := Write(v, cb, name, bytes).vol;
            Formed(v2, cb) && Shows(v2, cb, t[Key(name).value := bytes])
  {
    var v2, want := Write(v, cb, name, bytes).vol, Key(name).value;
    KeptWrite(v, cb, cs, name, bytes);
    assert WellFormed(v2, cb, ChainsAfter(v, cb, cs, name, |bytes|));
    forall other: Name ensures Read(v2, cb, other) == Lookup(t[want := bytes], other) {
      SaveReads(v, cb, cs, name, bytes, t, other);
    }
  }

  lemma {:induction false} SaveReads(v: Volume, cb: nat, cs: seq<seq<nat>>, name: Name, bytes: seq<Byte>,
      t: Table, other: Name)
    requires WellFormed(v, cb, cs) && Guarded(v, cb, Save(name, bytes)) && Shows(v, cb, t) &&
             Write(v, cb, name, bytes).ok
    ensures Sound(Write(v, cb, name, bytes).vol, cb)
    ensures Read(Write(v, cb, name, bytes).vol, cb, other) == Lookup(t[Key(name).value := bytes], other)
  {
    hide ReadKey, FreeClusters, Link, Fill, Find, AllBacked, FreeSlot, Chars, Shown, From83, Field, NewEntry, Scan;
    WriteSound(v, cb, name, bytes);
    if Key(other) == Key(name) {
      ReadBackExactly(v, cb, cs, name, bytes);
      SameKey(Write(v, cb, name, bytes).vol, cb, name, other);
    } else if Key(other).Some? {
      KeptReads(v, cb, cs, name, bytes, Key(other).value);
      assert Read(v, cb, other) == Lookup(t, other);
    }
  }

  /** A guarded save that fails has no clusters to replace. */
  lemma {:induction false} NothingReplaced(v: Volume, cb: nat, cs: seq<seq<nat>>, name: Name, bytes: seq<Byte>)
    requires WellFormed(v, cb, cs) && Guarded(v, cb, Save(name, bytes)) && Key(name).Some?
    requires DiskFull(v, cb, name, bytes) || FailsLate(v, cb, name, bytes)
    ensures Replaced(v, cs, Key(name).value) == []
  {
    hide DiskFull, ReadKey, Write;
    ReadsExactly(v, cb, cs, name);
    if Slot(v.dir, Key(name).value).None? { NoneReplaced(v, cs, Key(name).value); }
  }

  lemma {:induction false} SaveFails(v: Volume, cb: nat, cs: seq<seq<nat>>, name: Name, bytes: seq<Byte>, t: Table)
    requires WellFormed(v, cb, cs) && Guarded(v, cb, Save(name, bytes)) && Shows(v, cb, t)
    requires Key(name).Some? && !Write(v, cb, name, bytes).ok
    ensures Formed(Write(v, cb, name, bytes).vol, cb) && Shows(Write(v, cb, name, bytes).vol, cb, t)
  {
    var v2 := Write(v, cb, name, bytes).vol;
    hide ReadKey;
    NothingReplaced(v, cb, cs, name, bytes);
    if DiskFull(v, cb, name, bytes) {
      DiskFullExactly(v, cb, cs, name, bytes);
    } else {
      LateFailure(v, cb, cs, name, bytes);
      forall other: Name ensures Read(v2, cb, other) == Read(v, cb, other) {
        LateFailureReads(v, cb, cs, name, bytes, other);
      }
    }
  }

  lemma {:induction false} SameKey(v: Volume, cb: nat, name: Name, other: Name)
    requires Sound(v, cb) && Key(name) == Key(other)
    ensures Read(v, cb, name) == Read(v, cb, other)
  {
  }

  lemma {:induction false} RemoveStep(v: Volume, cb: nat, cs: seq<seq<nat>>, name: Name, t: Table)
    requires WellFormed(v, cb, cs) && Shows(v, cb, t)
    ensures var r := Delete(v, cb, name);
            Formed(r.vol, cb) && Shows(r.vol, cb, After(t, Remove(name), r.ok))
  {
    hide ReadKey, FreeChain, Scan, Chars, From83, Shown;
    var r := Delete(v, cb, name);
    DeleteKeeps(v, cb, cs, name);
    if r.ok {
      forall other: Name ensures Read(r.vol, cb, other) == Lookup(After(t, Remove(name), r.ok), other) {
        DeleteReads(v, cb, cs, name, other);
      }
    }
  }

  /** Every step of the run is guarded. */
  ghost predicate GuardedRun(v: Volume, cb: nat, ops: seq<Op>)
    decreases |ops|
  {
    ops != [] ==> Sound(v, cb) && Guarded(v, cb, ops[0]) && GuardedRun(Step(v, cb, ops[0]).vol, cb, ops[1..])
  }

  ghost function RunVolume(v: Volume, cb: nat, ops: seq<Op>): Volume
    requires GuardedRun(v, cb, ops)
    decreases |ops|
  {
    if ops == [] then v else RunVolume(Step(v, cb, ops[0]).vol, cb, ops[1..])
  }

  ghost function RunTable(v: Volume, cb: nat, ops: seq<Op>, t: Table): Table
    requires GuardedRun(v, cb, ops)
    decreases |ops|
  {
    if ops == [] then t
    else
      var r := Step(v, cb, ops[0]);
      RunTable(r.vol, cb, ops[1..], After(t, ops[0], r.ok))
  }

  /** After any guarded run, failed steps included, the volume is well formed and every name
      reads as in the table the same run leaves. */
  lemma {:induction false} RunsLikeATable(v: Volume, cb: nat, ops: seq<Op>, t: Table)
    requires Formed(v, cb) && Sound(v, cb) && Shows(v, cb, t) && GuardedRun(v, cb, ops)
    ensures Formed(RunVolume(v, cb, ops), cb)
    ensures forall name: Name :: Sound(RunVolume(v, cb, ops), cb) &&
              Read(RunVolume(v, cb, ops), cb, name) == Lookup(RunTable(v, cb, ops, t), name)
    decreases |ops|
  {
    if ops != [] {
      var cs :| WellFormed(v, cb, cs);
      var r := Step(v, cb, ops[0]);
      match ops[0] {
        case Save(name, bytes) => SaveStep(v, cb, cs, name, bytes, t);
        case Remove(name) => RemoveStep(v, cb, cs, name, t);
      }
      RunsLikeATable(r.vol, cb, ops[1..], After(t, ops[0], r.ok));
    }
  }
}
