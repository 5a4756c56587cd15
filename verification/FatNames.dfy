/** The 8.3 names of directory entries. A name is a string in UTF-8; an entry has any eleven bytes. */
module FatNames {
  import opened Bytes
  import opened Utf8

  const SPACE: Byte := 32
  const DOT: Byte := 46

  type Name = s: seq<Byte> | Chars(s).Some?

  /** The place of the last dot before `n`. */
  function LastDot(s: seq<Byte>, n: nat): (r: Option<nat>)
    requires n <= |s|
    ensures r.Some? ==> r.value < n && s[r.value] == DOT && forall i | r.value < i < n :: s[i] != DOT
    ensures r.None? ==> forall i | 0 <= i < n :: s[i] != DOT
  {
    if n == 0 then None else if s[n - 1] == DOT then Some(n - 1) else LastDot(s, n - 1)
  }

  /** Only ASCII letters change case. */
  function Upper(b: Byte): Byte { if 97 <= b <= 122 then b - 32 else b }

  function Uppers(s: seq<Byte>): (r: seq<Byte>)
    ensures |r| == |s| && forall i | 0 <= i < |s| :: r[i] == Upper(s[i])
  {
    seq(|s|, i requires 0 <= i < |s| => Upper(s[i]))
  }

  function Spaces(n: nat): (r: seq<Byte>)
    ensures |r| == n && forall i | 0 <= i < n :: r[i] == SPACE
  {
    seq(n, _ => SPACE)
  }

  /** Upper case, filled up with spaces. */
  function Field(s: seq<Byte>, width: nat): (r: seq<Byte>)
    requires |s| <= width
    ensures |r| == width
  {
    Uppers(s) + Spaces(width - |s|)
  }

  /** The stem and the extension: what stands before and after the last dot. */
  function Split(name: seq<Byte>): (seq<Byte>, seq<Byte>) {
    match LastDot(name, |name|)
    case Some(d) => (name[..d], name[d + 1..])
    case None => (name, [])
  }

  function To83(name: Name): (r: Option<seq<Byte>>)
    ensures r.Some? ==> |r.value| == 11
  {
    var (stem, ext) := Split(name);
    if stem == [] || |stem| > 8 || |ext| > 3 then None else Some(Field(stem, 8) + Field(ext, 3))
  }

  /** What is shown of a field of an entry: nothing of one that is not UTF-8. */
  function Shown(field: seq<Byte>): (r: seq<Byte>)
    ensures |r| <= |field| && r == field[..|r|] && Chars(r).Some?
  {
    if Chars(field).None? then [] else Trimmed(field)
  }

  function From83(raw: seq<Byte>): (r: seq<Byte>)
    requires |raw| == 11
    ensures Chars(r).Some?
  {
    var stem, ext := Shown(raw[..8]), Shown(raw[8..]);
    if ext == [] then stem
    else
      CharsAscii([DOT], ext);
      CharsAppend(stem, [DOT] + ext);
      assert stem + ([DOT] + ext) == stem + [DOT] + ext;
      stem + [DOT] + ext
  }

  /** The name under which a file is looked up: none if the name does not fit 8.3. */
  function Key(name: Name): Option<seq<Byte>> {
    match To83(name)
    case None => None
    case Some(raw) => Some(From83(raw))
  }

  // ----- fields -----

  lemma {:induction false} SplitChars(name: Name)
    ensures Chars(Split(name).0).Some? && Chars(Split(name).1).Some?
  {
    match LastDot(name, |name|) {
      case None =>
      case Some(d) => DotChars(name[..d], name[d + 1..], name);
    }
  }

  /** A string around an ASCII byte. */
  lemma {:induction false} DotChars(p: seq<Byte>, q: seq<Byte>, s: seq<Byte>)
    requires Chars(s).Some? && s == p + [DOT] + q
    ensures Chars(p).Some? && Chars(q).Some?
  {
    assert s == p + ([DOT] + q);
    CharsBefore(p, [DOT] + q);
    CharsAscii([DOT], q);
  }

  lemma {:induction false} JoinChars(p: seq<Byte>, q: seq<Byte>)
    requires Chars(p).Some? && Chars(q).Some?
    ensures Chars(p + [DOT] + q).Some?
  {
    CharsAscii([DOT], q);
    CharsAppend(p, [DOT] + q);
    assert p + ([DOT] + q) == p + [DOT] + q;
  }

  lemma {:induction false} FirstUpper(s: seq<Byte>)
    requires s != [] && First(s).Some?
    ensures First(Uppers(s)).Some? && First(Uppers(s)).value.1 == First(s).value.1
  {
    var u := Uppers(s);
    assert forall i | 0 <= i < |s| && s[i] >= 0x80 :: u[i] == s[i];
  }

  lemma {:induction false} UpperChars(s: seq<Byte>)
    requires Chars(s).Some?
    ensures Chars(Uppers(s)).Some?
    decreases |s|
  {
    hide First;
    if s != [] {
      var n := First(s).value.1;
      FirstUpper(s);
      UpperChars(s[n..]);
      assert Uppers(s)[n..] == Uppers(s[n..]);
    }
  }

  /** The spaces that fill a field are not shown. */
  lemma {:induction false} FieldShown(s: seq<Byte>, width: nat)
    requires |s| <= width && Chars(s).Some?
    ensures Chars(Uppers(s)).Some? && Shown(Field(s, width)) == Trimmed(Uppers(s))
  {
    var pad := Spaces(width - |s|);
    UpperChars(s);
    CharsAscii(pad, []);
    assert pad + [] == pad;
    TrimmedPadded(Uppers(s), pad);
  }

  /** The fields of a name that fits are UTF-8. */
  lemma {:induction false} FieldsChars(name: Name)
    requires To83(name).Some?
    ensures var raw, stem, ext := To83(name).value, Split(name).0, Split(name).1;
            && Chars(stem).Some? && Chars(ext).Some? && Chars(Uppers(stem)).Some? && Chars(Uppers(ext)).Some?
            && Chars(raw[..8]).Some? && Chars(raw[8..]).Some?
            && raw[..8] == Field(stem, 8) && raw[8..] == Field(ext, 3)
            && Shown(raw[..8]) == Trimmed(Uppers(stem)) && Shown(raw[8..]) == Trimmed(Uppers(ext))
  {
    hide Chars, Trimmed, Uppers;
    var raw, stem, ext := To83(name).value, Split(name).0, Split(name).1;
    SplitChars(name);
    FieldShown(stem, 8);
    FieldShown(ext, 3);
    assert raw[..8] == Field(stem, 8) && raw[8..] == Field(ext, 3);
    CharsAscii(Spaces(8 - |stem|), []);
    CharsAscii(Spaces(3 - |ext|), []);
    assert Spaces(8 - |stem|) + [] == Spaces(8 - |stem|) && Spaces(3 - |ext|) + [] == Spaces(3 - |ext|);
    CharsAppend(Uppers(stem), Spaces(8 - |stem|));
    CharsAppend(Uppers(ext), Spaces(3 - |ext|));
  }

  // ----- opening a file by the name the listing shows -----

  /** A field as it is shown: UTF-8 in upper case without white space at the end. */
  predicate Neat(s: seq<Byte>) { Chars(s).Some? && Trimmed(s) == s && Uppers(s) == s }

  lemma {:induction false} KeyOfParts(stem: seq<Byte>, ext: seq<Byte>)
    requires 0 < |stem| <= 8 && |ext| <= 3 && Chars(stem).Some? && Chars(ext).Some?
    requires Uppers(stem) == stem && Uppers(ext) == ext
    ensures From83(Field(stem, 8) + Field(ext, 3)) ==
            if Trimmed(ext) == [] then Trimmed(stem) else Trimmed(stem) + [DOT] + Trimmed(ext)
  {
    var raw := Field(stem, 8) + Field(ext, 3);
    assert raw[..8] == Field(stem, 8) && raw[8..] == Field(ext, 3);
    FieldShown(stem, 8);
    FieldShown(ext, 3);
  }

  lemma {:induction false} SplitAt(stem: seq<Byte>, ext: seq<Byte>)
    requires DOT !in ext
    ensures Split(stem + [DOT] + ext) == (stem, ext)
  {
    var name := stem + [DOT] + ext;
    assert name[|stem|] == DOT;
    forall i | |stem| < i < |name| ensures name[i] != DOT {
      assert name[i] == ext[i - |stem| - 1];
    }
    assert LastDot(name, |name|) == Some(|stem|);
    assert name[..|stem|] == stem && name[|stem| + 1..] == ext;
  }

  /** When the shown name splits again into the fields it was joined from. */
  predicate SplitsBack(stem: seq<Byte>, ext: seq<Byte>) {
    && stem != []
    && (ext == [] ==>
          match LastDot(stem, |stem|)
          case None => true
          case Some(d) => 0 < d && Shown(stem[..d]) == stem[..d] && 1 <= |stem| - d - 1 <= 3)
  }

  lemma {:induction false} JoinedOpens(stem: seq<Byte>, ext: seq<Byte>)
    requires |stem| <= 8 && |ext| <= 3 && Neat(stem) && Neat(ext) && DOT !in ext && ext != []
    ensures Chars(stem + [DOT] + ext).Some?
    ensures Key(stem + [DOT] + ext) == if stem == [] then None else Some(stem + [DOT] + ext)
  {
    JoinChars(stem, ext);
    SplitAt(stem, ext);
    if stem != [] { KeyOfParts(stem, ext); }
  }

  lemma {:induction false} StemOpens(stem: seq<Byte>)
    requires |stem| <= 8 && Neat(stem)
    ensures Key(stem) == Some(stem) <==> SplitsBack(stem, [])
  {
    hide Trimmed, From83, Field, Chars;
    match LastDot(stem, |stem|) {
      case None =>
        Nothing();
        if stem != [] { KeyOfParts(stem, []); }
      case Some(d) =>
        assert stem == stem[..d] + [DOT] + stem[d + 1..];
        DotOpens(stem[..d], stem[d + 1..], stem);
    }
  }

  lemma {:induction false} DottedParts(p: seq<Byte>, q: seq<Byte>, stem: seq<Byte>)
    requires stem == p + [DOT] + q && Neat(stem)
    ensures Chars(p).Some? && Neat(q) && Uppers(p) == p
  {
    hide Chars, Trimmed;
    Nothing();
    DotChars(p, q, stem);
    JoinChars(p, []);
    assert p + [DOT] + [] == p + [DOT];
    assert p + [DOT] + q == (p + [DOT]) + q;
    TrimmedRest(p + [DOT], q);
    assert forall i | 0 <= i < |p| :: p[i] == stem[i];
    assert forall i | 0 <= i < |q| :: q[i] == stem[|p| + 1 + i];
  }

  lemma {:induction false} DotOpens(p: seq<Byte>, q: seq<Byte>, stem: seq<Byte>)
    requires stem == p + [DOT] + q && |stem| <= 8 && Neat(stem) && DOT !in q
    ensures Key(stem) == Some(stem) <==> p != [] && Shown(p) == p && 1 <= |q| <= 3
  {
    hide From83, Field, Chars, LastDot;
    DottedParts(p, q, stem);
    SplitAt(p, q);
    if p != [] && |q| <= 3 {
      KeyOfParts(p, q);
      var t := Trimmed(p);
      assert |t + [DOT] + q| == |t| + 1 + |q|;
      if t != p { assert |t| < |p|; }
    }
  }

  /** A file is found under the name the directory listing shows if and only if that name splits back: a
      stem is shown, and without an extension the stem has no dot, or one that is itself followed by one to
      three bytes and preceded by a stem that ends without white space. */
  lemma {:induction false} ListedNameOpens(name: Name)
    requires Key(name).Some?
    ensures var raw := To83(name).value;
            var shown := From83(raw);
            Key(shown) == Some(shown) <==> SplitsBack(Shown(raw[..8]), Shown(raw[8..]))
  {
    var raw := To83(name).value;
    var stem, ext := Shown(raw[..8]), Shown(raw[8..]);
    FieldsChars(name);
    NeatField(Split(name).0);
    NeatField(Split(name).1);
    NoDot(name);
    if ext == [] {
      StemOpens(stem);
    } else {
      JoinedOpens(stem, ext);
    }
  }

  lemma {:induction false} NeatField(s: seq<Byte>)
    requires Chars(s).Some? && Chars(Uppers(s)).Some?
    ensures Neat(Trimmed(Uppers(s)))
  {
    var u := Uppers(s);
    TrimmedTwice(u);
    assert forall i | 0 <= i < |Trimmed(u)| :: Trimmed(u)[i] == u[i];
  }

  lemma {:induction false} NoDot(name: Name)
    requires To83(name).Some?
    ensures DOT !in Shown(To83(name).value[8..])
  {
    var (stem, ext) := Split(name);
    FieldsChars(name);
    var u := Uppers(ext);
    assert DOT !in ext;
    forall i | 0 <= i < |u| ensures u[i] != DOT {
      assert ext[i] != DOT;
    }
    assert forall i | 0 <= i < |Trimmed(u)| :: Trimmed(u)[i] == u[i];
  }
}
