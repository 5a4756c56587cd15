/** An association list kept in ascending key order: the `BTreeMap<String, _>` of the compiler. */
module SortedTable {
  import opened Bytes

  datatype Entry<+V> = Entry(key: string, value: V)

  type Table<+V> = seq<Entry<V>>

  /** Lexicographic order on strings. */
  predicate Less(a: string, b: string) {
    b != [] && (a == [] || a[0] < b[0] || (a[0] == b[0] && Less(a[1..], b[1..])))
  }

  function Get<V>(t: Table<V>, k: string): Option<V> {
    if t == [] then None
    else if t[0].key == k then Some(t[0].value)
    else Get(t[1..], k)
  }

  /** Insert in key order, replacing an entry with the same key. */
  function Put<V>(t: Table<V>, k: string, v: V): Table<V> {
    if t == [] then [Entry(k, v)]
    else if t[0].key == k then [Entry(k, v)] + t[1..]
    else if Less(k, t[0].key) then [Entry(k, v)] + t
    else [t[0]] + Put(t[1..], k, v)
  }

  ghost predicate Sorted<V>(t: Table<V>) {
    forall i, j :: 0 <= i < j < |t| ==> Less(t[i].key, t[j].key)
  }

  lemma {:induction false} GetPut<V>(t: Table<V>, k: string, v: V, x: string)
    ensures Get(Put(t, k, v), x) == if x == k then Some(v) else Get(t, x)
  {
    if t == [] || t[0].key == k {
    } else if Less(k, t[0].key) {
      assert Put(t, k, v)[1..] == t;
    } else {
      assert Put(t, k, v)[1..] == Put(t[1..], k, v);
      GetPut(t[1..], k, v, x);
    }
  }

  lemma {:induction false} LessTrichotomy(a: string, b: string)
    ensures Less(a, b) || Less(b, a) || a == b
  {
    if a != [] && b != [] && a[0] == b[0] {
      LessTrichotomy(a[1..], b[1..]);
      if a[1..] == b[1..] {
        assert a == [a[0]] + a[1..] && b == [b[0]] + b[1..];
      }
    }
  }

  lemma {:induction false} LessTransitive(a: string, b: string, c: string)
    requires Less(a, b) && Less(b, c)
    ensures Less(a, c)
  {
    if a != [] && a[0] == b[0] == c[0] {
      LessTransitive(a[1..], b[1..], c[1..]);
    }
  }

  lemma {:induction false} LessIrreflexive(a: string)
    ensures !Less(a, a)
  {
    if a != [] {
      LessIrreflexive(a[1..]);
    }
  }

  lemma {:induction false} PutKeys<V>(t: Table<V>, k: string, v: V, i: nat)
    requires i < |Put(t, k, v)|
    ensures Put(t, k, v)[i].key == k || exists j :: 0 <= j < |t| && t[j].key == Put(t, k, v)[i].key
  {
    if t == [] || t[0].key == k {
    } else if Less(k, t[0].key) {
      if i > 0 { assert t[i - 1].key == Put(t, k, v)[i].key; }
    } else if i > 0 {
      PutKeys(t[1..], k, v, i - 1);
      if Put(t, k, v)[i].key != k {
        var j :| 0 <= j < |t[1..]| && t[1..][j].key == Put(t[1..], k, v)[i - 1].key;
        assert t[j + 1].key == Put(t, k, v)[i].key;
      }
    }
  }

  lemma {:induction false} PutSorted<V>(t: Table<V>, k: string, v: V)
    requires Sorted(t)
    ensures Sorted(Put(t, k, v))
  {
    var p := Put(t, k, v);
    if t == [] || t[0].key == k {
    } else if Less(k, t[0].key) {
      forall i, j | 0 <= i < j < |p| ensures Less(p[i].key, p[j].key) {
        if i == 0 && j > 1 { LessTransitive(k, t[0].key, t[j - 1].key); }
      }
    } else {
      LessTrichotomy(k, t[0].key);
      PutSorted(t[1..], k, v);
      forall i, j | 0 <= i < j < |p| ensures Less(p[i].key, p[j].key) {
        if i == 0 {
          PutKeys(t[1..], k, v, j - 1);
        } else {
          assert p[i] == Put(t[1..], k, v)[i - 1] && p[j] == Put(t[1..], k, v)[j - 1];
        }
      }
    }
  }

  /** Sorted tables have at most one entry for a key, and `Get` finds it. */
  lemma {:induction false} GetAt<V>(t: Table<V>, i: nat)
    requires Sorted(t) && i < |t|
    ensures Get(t, t[i].key) == Some(t[i].value)
  {
    if i > 0 {
      LessIrreflexive(t[0].key);
      GetAt(t[1..], i - 1);
    }
  }
}
