/** What a volume is in the bytes of its disk. */
module FatBytes {
  import opened Bytes
  import opened Int32
  import opened Utf8
  import opened FatNames
  import opened FatVolume
  import opened FatImage

  /** Little-endian: the lowest byte first. */
  function Number(d: seq<Byte>, a: nat, n: nat): nat
    requires a + n <= |d|
    decreases n
  {
    if n == 0 then 0 else d[a] as int + 256 * Number(d, a + 1, n - 1)
  }

  /** The table: two bytes to each entry, in sectors of 512 bytes, one copy behind the other. */
  lemma {:induction false} TableBytes(l: Layout, d: seq<Byte>, copy: nat, c: nat)
    requires Geometry(l, d) && copy < l.numFats && c < 256 * l.fatSectors
    ensures Total(l) == 256 * l.fatSectors
    ensures var a := 512 * (l.fatStart + copy * l.fatSectors) + 2 * c;
            a + 2 <= |d| && FatAt(l, d, copy, c) == Number(d, a, 2)
  {
    FatInside(l, d, copy, c);
    RootInside(l, d, 0);
    var a := 512 * (l.fatStart + copy * l.fatSectors) + 2 * c;
    assert d[a..a + 2][0] == d[a] && d[a..a + 2][1] == d[a + 1];
    assert Number(d, a + 1, 1) == d[a + 1] + 256 * Number(d, a + 2, 0);
  }

  /** The root directory: sixteen entries of 32 bytes to each sector. */
  lemma {:induction false} DirectoryBytes(l: Layout, d: seq<Byte>, s: nat)
    requires Geometry(l, d) && s < 16 * l.rootSectors
    ensures Slots(l) == 16 * l.rootSectors
    ensures var a := 512 * l.rootStart + 32 * s; a + 32 <= |d| && DirAt(l, d, s) == d[a..a + 32]
  {
    RootInside(l, d, s);
  }

  /** The data: the first cluster has number two, and a cluster the disk does not have in full holds nothing. */
  lemma {:induction false} ClusterOnDisk(l: Layout, d: seq<Byte>, c: nat)
    requires Geometry(l, d) && c < Total(l)
    ensures c < 2 ==> DataAt(l, d, c) == []
    ensures c >= 2 ==>
              var a, n := 512 * (l.dataStart + (c - 2) * l.spc), 512 * l.spc;
              DataAt(l, d, c) == if a + n <= |d| then d[a..a + n] else []
  {
    if c >= 2 {
      assert 512 * (l.dataStart + (c - 2) * l.spc) == l.dataStart * 512 + (c - 2) * (l.spc * 512);
    }
  }

  /** The fields of an entry. */
  lemma {:induction false} EntryFields(e: seq<Byte>)
    requires |e| == 32
    ensures NameOf(e) == From83(e[0..11]) && FirstOf(e) == Number(e, 26, 2) && SizeOf(e) == Number(e, 28, 4)
    ensures Used(e) <==> e[0] != 0 && e[0] != 0xe5 && And(e[11], 0x0f) != 0x0f && And(e[11], 0x18) == 0
    ensures Vacant(e) <==> e[0] == 0 || e[0] == 0xe5
  {
    NumberTwo(e, 26);
    NumberTwo(e, 30);
    assert Number(e, 28, 4) == e[28] + 256 * Number(e, 29, 3);
    assert Number(e, 29, 3) == e[29] + 256 * Number(e, 30, 2);
    assert e[28..32] == [e[28], e[29], e[30], e[31]];
    AttributeBits(e[11]);
  }

  lemma {:induction false} NumberTwo(d: seq<Byte>, a: nat)
    requires a + 2 <= |d|
    ensures Number(d, a, 2) == d[a] as int + 256 * d[a + 1] as int
  {
    assert Number(d, a + 1, 1) == d[a + 1] + 256 * Number(d, a + 2, 0);
  }

  /** Long names have the four low bits set; 8 marks a volume's label and 16 a directory. */
  lemma {:induction false} AttributeBits(attr: Byte)
    ensures Hidden(attr) <==> And(attr, 0x0f) == 0x0f || And(attr, 0x18) != 0
  {
    hide And;
    var a, b, c, d: nat := attr / 2, attr / 4, attr / 8, attr / 16;
    assert a / 2 == b && b / 2 == c && c / 2 == d;
    LowBitAnd(attr, 0x0f); LowBitAnd(a, 7); LowBitAnd(b, 3); LowBitAnd(c, 1);
    LowBitAnd(attr, 0x18); LowBitAnd(a, 12); LowBitAnd(b, 6); LowBitAnd(c, 3); LowBitAnd(d, 1);
    NoBits(d / 2);
    NoBits(d);
    assert attr % 16 == 15 <==> attr % 2 == 1 && a % 2 == 1 && b % 2 == 1 && c % 2 == 1;
  }

  lemma {:induction false} LowBitAnd(a: nat, b: nat)
    ensures And(a, b) == (if a % 2 == 1 && b % 2 == 1 then 1 else 0) + 2 * And(a / 2, b / 2)
  {
  }

  lemma {:induction false} NoBits(a: nat)
    ensures And(a, 0) == 0
  {
  }

  /** A new entry: the name, the archive attribute, fourteen zeros, the first cluster and the size. */
  lemma {:induction false} NewEntryBytes(raw: seq<Byte>, first: Word16, size: Word)
    requires |raw| == 11
    ensures var e := NewEntry(raw, first, size);
            && e[0..11] == raw && e[11] == 0x20 && (forall i | 12 <= i < 26 :: e[i] == 0)
            && Number(e, 26, 2) == first && Number(e, 28, 4) == size
  {
    EntryFields(NewEntry(raw, first, size));
  }

  /** A deleted entry has 0xe5 for its first byte and is otherwise as it was. */
  lemma {:induction false} DeletedByte(e: seq<Byte>)
    requires |e| == 32
    ensures Erased(e) == e[0 := 0xe5]
  {
  }

  /** A listed name is the two fields without the spaces that fill them, with a dot between them if there is an
      extension. */
  lemma {:induction false} ListedAs(stem: seq<Byte>, ext: seq<Byte>)
    requires |stem| <= 8 && |ext| <= 3 && Chars(stem).Some? && Chars(ext).Some?
    requires Trimmed(stem) == stem && Trimmed(ext) == ext
    ensures var raw := stem + seq(8 - |stem|, _ => 32) + (ext + seq(3 - |ext|, _ => 32));
            From83(raw) == if ext == [] then stem else stem + [46] + ext
  {
    hide Chars, Trimmed;
    var s, x: seq<Byte> := stem + seq(8 - |stem|, _ => 32), ext + seq(3 - |ext|, _ => 32);
    var raw := s + x;
    assert raw[..8] == s && raw[8..] == x;
    FilledField(stem, 8);
    FilledField(ext, 3);
  }

  lemma {:induction false} FilledField(s: seq<Byte>, width: nat)
    requires |s| <= width && Chars(s).Some?
    ensures Shown(s + seq(width - |s|, _ => 32)) == Trimmed(s)
  {
    var pad: seq<Byte> := seq(width - |s|, _ => 32);
    CharsAscii(pad, []);
    assert pad + [] == pad;
    TrimmedPadded(s, pad);
  }

  /** The file found is the first one listed under the name. */
  lemma {:induction false} FirstFound(files: seq<File>, want: seq<Byte>)
    ensures var r := Named(files, want);
            if r.Some? then exists i :: 0 <= i < |files| && files[i] == r.value && files[i].name == want
                                        && forall j | 0 <= j < i :: files[j].name != want
            else forall j | 0 <= j < |files| :: files[j].name != want
  {
    if files != [] && files[0].name != want {
      var r := Named(files[1..], want);
      FirstFound(files[1..], want);
      if r.Some? {
        var i :| 0 <= i < |files[1..]| && files[1..][i] == r.value && files[1..][i].name == want
                 && forall j | 0 <= j < i :: files[1..][j].name != want;
        assert files[i + 1] == r.value;
        assert forall j | 1 <= j < i + 1 :: files[j] == files[1..][j - 1];
      } else {
        assert forall j | 1 <= j < |files| :: files[j] == files[1..][j - 1];
      }
    }
  }
}
