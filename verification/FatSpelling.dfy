/** Which names are the same file: small and capital letters do not differ. */
module FatSpelling {
  import opened Bytes
  import opened Utf8
  import opened FatNames
  import opened FatVolume
  import opened FatTheorems

  /** Equal bytes, or the two cases of one letter of ASCII. */
  predicate SameLetter(a: Byte, b: Byte) {
    a == b || (65 <= a <= 90 && b == a + 32) || (65 <= b <= 90 && a == b + 32)
  }

  predicate SameSpelling(x: seq<Byte>, y: seq<Byte>) {
    |x| == |y| && forall i | 0 <= i < |x| :: SameLetter(x[i], y[i])
  }

  /** The byte of a field of an entry that holds `s`: spaces follow it. */
  function At(s: seq<Byte>, i: nat): Byte { if i < |s| then s[i] else 32 }

  predicate SameField(x: seq<Byte>, y: seq<Byte>, width: nat) {
    forall i: nat | i < width :: SameLetter(At(x, i), At(y, i))
  }

  /** The two parts of a name: what stands before and behind its last dot. */
  ghost predicate Parts(name: seq<Byte>, stem: seq<Byte>, ext: seq<Byte>) {
    46 !in ext && ((name == stem && ext == [] && 46 !in stem) || name == stem + [46] + ext)
  }

  lemma {:induction false} UpperLetter(a: Byte, b: Byte)
    ensures SameLetter(a, Upper(a)) && !(97 <= Upper(a) <= 122)
    ensures SameLetter(a, b) <==> Upper(a) == Upper(b)
  {
  }

  lemma {:induction false} SplitParts(name: seq<Byte>, stem: seq<Byte>, ext: seq<Byte>)
    requires Parts(name, stem, ext)
    ensures Split(name) == (stem, ext)
  {
    if name == stem && ext == [] && 46 !in stem {
      assert LastDot(name, |name|).None?;
    } else {
      SplitAt(stem, ext);
    }
  }

  lemma {:induction false} FieldBytes(s: seq<Byte>, width: nat)
    requires |s| <= width
    ensures forall i: nat | i < width ::
              var b := Field(s, width)[i]; SameLetter(At(s, i), b) && !(97 <= b <= 122)
  {
    forall i: nat | i < width
      ensures var b := Field(s, width)[i]; SameLetter(At(s, i), b) && !(97 <= b <= 122)
    {
      UpperLetter(At(s, i), 0);
      assert i < |s| ==> Field(s, width)[i] == Uppers(s)[i];
    }
  }

  /** The eleven bytes of a name: eight for the stem, three for the extension, filled up with spaces. No small letter
      is among them, and nothing but small letters is changed. */
  lemma {:induction false} EntryName(name: Name, stem: seq<Byte>, ext: seq<Byte>)
    requires Parts(name, stem, ext)
    ensures To83(name).Some? <==> 1 <= |stem| <= 8 && |ext| <= 3
    ensures To83(name).Some? ==>
              && |To83(name).value| == 11
              && (forall i: nat | i < 8 :: SameLetter(At(stem, i), To83(name).value[i]))
              && (forall i: nat | i < 3 :: SameLetter(At(ext, i), To83(name).value[8 + i]))
              && (forall i: nat | i < 11 :: !(97 <= To83(name).value[i] <= 122))
  {
    SplitParts(name, stem, ext);
    if To83(name).Some? {
      FieldBytes(stem, 8);
      FieldBytes(ext, 3);
      var raw := To83(name).value;
      forall i: nat | i < 11 ensures !(97 <= raw[i] <= 122) {
        assert raw[i] == if i < 8 then Field(stem, 8)[i] else Field(ext, 3)[i - 8];
      }
      assert forall i: nat | i < 3 :: raw[8 + i] == Field(ext, 3)[i];
    }
  }

  lemma {:induction false} LettersAlike(a: Byte, b: Byte, c: Byte, d: Byte)
    requires SameLetter(a, c) && SameLetter(b, d) && !(97 <= c <= 122) && !(97 <= d <= 122)
    ensures SameLetter(a, b) <==> c == d
  {
  }

  /** Two names that fit have the same entry name if and only if their parts, filled up with spaces, differ in the case
      of letters only. */
  lemma {:induction false} SameEntryExactly(x: Name, xs: seq<Byte>, xe: seq<Byte>, y: Name, ys: seq<Byte>,
      ye: seq<Byte>)
    requires Parts(x, xs, xe) && Parts(y, ys, ye) && To83(x).Some? && To83(y).Some?
    ensures To83(x) == To83(y) <==> SameField(xs, ys, 8) && SameField(xe, ye, 3)
  {
    hide To83, SameLetter, Parts;
    EntryName(x, xs, xe);
    EntryName(y, ys, ye);
    var rx, ry := To83(x).value, To83(y).value;
    forall i: nat | i < 8 ensures SameLetter(At(xs, i), At(ys, i)) <==> rx[i] == ry[i] {
      LettersAlike(At(xs, i), At(ys, i), rx[i], ry[i]);
    }
    forall i: nat | i < 3 ensures SameLetter(At(xe, i), At(ye, i)) <==> rx[8 + i] == ry[8 + i] {
      LettersAlike(At(xe, i), At(ye, i), rx[8 + i], ry[8 + i]);
    }
    if SameField(xs, ys, 8) && SameField(xe, ye, 3) {
      forall i: nat | i < 11 ensures rx[i] == ry[i] {
        if i >= 8 {
          var k: nat := i - 8;
          assert SameLetter(At(xe, k), At(ye, k));
        }
      }
      assert rx == ry;
    }
  }

  lemma {:induction false} SplitSpelling(x: seq<Byte>, y: seq<Byte>)
    requires SameSpelling(x, y)
    ensures SameSpelling(Split(x).0, Split(y).0) && SameSpelling(Split(x).1, Split(y).1)
  {
    DotSpelling(x, y, |x|);
  }

  lemma {:induction false} DotSpelling(x: seq<Byte>, y: seq<Byte>, n: nat)
    requires SameSpelling(x, y) && n <= |x|
    ensures LastDot(x, n) == LastDot(y, n)
  {
    if n > 0 {
      assert SameLetter(x[n - 1], y[n - 1]);
      DotSpelling(x, y, n - 1);
    }
  }

  lemma {:induction false} FieldSpelling(x: seq<Byte>, y: seq<Byte>, width: nat)
    requires SameSpelling(x, y) && |x| <= width
    ensures Field(x, width) == Field(y, width)
  {
    forall i | 0 <= i < |x| ensures Uppers(x)[i] == Uppers(y)[i] {
      UpperLetter(x[i], y[i]);
    }
  }

  /** Two spellings of a name are one name: the same entry name and the same key, or none. */
  lemma {:induction false} CaseIgnored(x: Name, y: Name)
    requires SameSpelling(x, y)
    ensures To83(x) == To83(y) && Key(x) == Key(y)
  {
    hide Field, LastDot;
    SplitSpelling(x, y);
    if To83(x).Some? {
      FieldSpelling(Split(x).0, Split(y).0, 8);
      FieldSpelling(Split(x).1, Split(y).1, 3);
    }
  }

  /** Every operation does the same for both spellings. */
  lemma {:induction false} SameFile(v: Volume, cb: nat, x: Name, y: Name, bytes: seq<Byte>)
    requires Sound(v, cb) && SameSpelling(x, y)
    ensures Read(v, cb, x) == Read(v, cb, y) && Delete(v, cb, x) == Delete(v, cb, y)
    ensures Write(v, cb, x, bytes) == Write(v, cb, y, bytes)
  {
    CaseIgnored(x, y);
  }

  /** A file written under one spelling is read, and replaced, under the other. */
  lemma {:induction false} OtherSpelling(v: Volume, cb: nat, cs: seq<seq<nat>>, x: Name, y: Name, bytes: seq<Byte>,
      more: seq<Byte>)
    requires WellFormed(v, cb, cs) && SameSpelling(x, y) && Write(v, cb, x, bytes).ok
    requires x[0] != 0 && x[0] != 0xe5 && |bytes| < 0x1_0000_0000 && |more| < 0x1_0000_0000
    ensures var v2 := Write(v, cb, x, bytes).vol;
            && Sound(v2, cb) && Read(v2, cb, y) == Some(bytes)
            && (Write(v2, cb, y, more).ok ==>
                  var v3 := Write(v2, cb, y, more).vol; Sound(v3, cb) && Read(v3, cb, x) == Some(more))
  {
    hide Read, Sound, Split, Field, Store, NewChain, Slot, NewEntry;
    var v2, raw := Write(v, cb, x, bytes).vol, To83(x).value;
    FirstByte(x);
    ReadBackExactly(v, cb, cs, x, bytes);
    SameFile(v2, cb, x, y, bytes);
    WriteKeeps(v, cb, cs, x, bytes);
    var cs2 := ChainsAfter(v, cb, cs, x, |bytes|);
    if Write(v2, cb, y, more).ok {
      SameFile(v2, cb, x, y, more);
      ReadBackExactly(v2, cb, cs2, x, more);
    }
  }

  /** The first byte of an entry name is that of the name, if it is no letter. */
  lemma {:induction false} FirstByte(name: Name)
    requires To83(name).Some?
    ensures name != []
    ensures name[0] != 0 && name[0] != 0xe5 <==> Keeps(To83(name).value)
  {
    var stem := Split(name).0;
    assert name[0] == stem[0];
    assert To83(name).value[0] == Uppers(stem)[0] == Upper(name[0]);
  }
}
