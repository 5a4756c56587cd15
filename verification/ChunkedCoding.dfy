/** Bodies in the chunked coding of section 7.1 of RFC 9112, whole and cut short. */
module ChunkedCoding {
  import opened Bytes
  import opened Utf8
  import opened Hexadecimal
  import opened Chunked
  import opened ChunkedSizes

  /** A chunk as it is sent: the hexadecimal size, white space, the extensions and the data. */
  datatype Chunk = Chunk(digits: seq<Byte>, ws: seq<Byte>, ext: seq<Byte>, data: seq<Byte>)

  ghost predicate NoCrlf(s: seq<Byte>) { forall k | 0 <= k < |s| - 1 :: !(s[k] == 13 && s[k + 1] == 10) }

  predicate Blank(s: seq<Byte>) { forall i | 0 <= i < |s| :: s[i] == 32 || s[i] == 9 }

  /** A size line as the grammar has it, with any run of spaces and tabs behind the size. */
  ghost predicate LineOk(digits: seq<Byte>, ws: seq<Byte>, ext: seq<Byte>, size: nat) {
    && Spells(digits, size) && size < 0x1_0000_0000_0000_0000
    && Blank(ws) && NoCrlf(ext) && (ext == [] || ext[0] == 59)
  }

  /** What the code makes of such a line: it wants UTF-8, and no white space before a semicolon. */
  predicate Readable(ws: seq<Byte>, ext: seq<Byte>) { Chars(ext).Some? && (ws == [] || ext == []) }

  function Line(c: Chunk): seq<Byte> { c.digits + c.ws + c.ext }

  ghost predicate ChunkOk(c: Chunk) { LineOk(c.digits, c.ws, c.ext, |c.data|) && c.data != [] }

  ghost predicate ChunksOk(cs: seq<Chunk>) { forall i | 0 <= i < |cs| :: ChunkOk(cs[i]) }

  function Coded(c: Chunk): seq<Byte> { Line(c) + [13, 10] + c.data + [13, 10] }

  function AllCoded(cs: seq<Chunk>): seq<Byte> { if cs == [] then [] else Coded(cs[0]) + AllCoded(cs[1..]) }

  function Data(cs: seq<Chunk>): seq<Byte> { if cs == [] then [] else cs[0].data + Data(cs[1..]) }

  /** The chunks before the first one whose line is not readable. */
  function ReadableCount(cs: seq<Chunk>): (n: nat)
    ensures n <= |cs|
    ensures forall i | 0 <= i < n :: Readable(cs[i].ws, cs[i].ext)
    ensures n < |cs| ==> !Readable(cs[n].ws, cs[n].ext)
  {
    if cs == [] || !Readable(cs[0].ws, cs[0].ext) then 0 else 1 + ReadableCount(cs[1..])
  }

  predicate AllReadable(cs: seq<Chunk>) { forall i | 0 <= i < |cs| :: Readable(cs[i].ws, cs[i].ext) }

  // ----- size lines -----

  lemma {:induction false} LinePlain(digits: seq<Byte>, ws: seq<Byte>, size: nat)
    requires Spells(digits, size) && Blank(ws)
    ensures digits != [] && Hex(digits) && HexValue(digits, 0) == size
    ensures forall i | 0 <= i < |digits| :: !White(digits[i]) && digits[i] != SEMI && digits[i] != PLUS
    ensures Ascii(digits + ws) && SEMI !in digits + ws
  {
    HexExactly(digits, size);
    DigitsPlain(digits, size);
  }

  /** The white space around a line goes; what is left in front of the semicolon is the size and the
      white space behind it. */
  lemma {:induction false} BeforeSemi(digits: seq<nat>, ws: seq<nat>, ext: seq<nat>)
    requires digits != [] && (forall i | 0 <= i < |digits| :: !White(digits[i])) && SEMI !in digits + ws
    requires (forall i | 0 <= i < |ws| :: White(ws[i])) && (ext == [] || ext[0] == SEMI)
    ensures UpTo(TrimEnd(TrimStart(digits + ws + ext)), SEMI) == if ext == [] then digits else digits + ws
  {
    var line := digits + ws + ext;
    assert line[0] == digits[0] && TrimStart(line) == line;
    if ext == [] {
      assert line == digits + ws;
      TrimKeeps(digits, ws);
      UpToOf(digits, [], SEMI);
      assert digits + [] == digits;
    } else {
      var front := digits + ws + [ext[0]];
      TrimKeeps(front, ext[1..]);
      assert line == front + ext[1..];
      var k :| 0 <= k <= |ext[1..]| && TrimEnd(line) == front + ext[1..][..k];
      assert front + ext[1..][..k] == (digits + ws) + ([ext[0]] + ext[1..][..k]);
      UpToOf(digits + ws, [ext[0]] + ext[1..][..k], SEMI);
    }
  }

  lemma {:induction false} BlankNoHex(digits: seq<nat>, ws: seq<nat>)
    requires digits != [] && digits[0] != PLUS && ws != [] && Digit(ws[0]).None?
    ensures ParseHex(digits + ws) == None
  {
    assert (digits + ws)[|digits|] == ws[0];
  }

  /** A size line is read if and only if it is UTF-8 and does not have both white space behind the size
      and an extension; recipients are to accept white space there (section 7.1.1 of RFC 9112). */
  lemma {:induction false} ReadableExactly(digits: seq<Byte>, ws: seq<Byte>, ext: seq<Byte>, size: nat)
    requires LineOk(digits, ws, ext, size)
    ensures ParseSize(digits + ws + ext) == if Readable(ws, ext) then Some(size) else None
  {
    LinePlain(digits, ws, size);
    CharsAscii(digits + ws, ext);
    if Chars(ext).Some? {
      var cs := Chars(ext).value;
      if ext != [] { FirstChar(ext); }
      BeforeSemi(digits, ws, cs);
      if ws != [] && ext != [] { BlankNoHex(digits, ws); }
      if ws == [] { assert digits + ws == digits; }
    }
  }

  lemma {:induction false} FirstChar(s: seq<Byte>)
    requires Chars(s).Some? && s != [] && s[0] < 128
    ensures Chars(s).value[0] == s[0]
  {
  }

  // ----- whole chunks -----

  ghost predicate Rest(body: seq<Byte>, i: nat, s: seq<Byte>) { i <= |body| && body[i..] == s }

  /** A line without a line end inside it ends where its own does. */
  lemma {:induction false} LineEndAt(body: seq<Byte>, i: nat, line: seq<Byte>, tail: seq<Byte>)
    requires Rest(body, i, line + [CR, LF] + tail) && NoCrlf(line)
    ensures LineEnd(body, i) == i + |line| && i + |line| + 2 <= |body| && body[i..i + |line|] == line
  {
    var s, j := line + [CR, LF] + tail, i + |line|;
    assert forall k | 0 <= k < |s| :: s[k] == body[i + k];
    assert s[|line|] == CR && s[|line| + 1] == LF;
    assert CrlfAt(body, j);
    forall k | i <= k < j ensures !CrlfAt(body, k) {
      assert !CrlfAt(line, k - i);
      assert body[k] == s[k - i] == line[k - i];
      if k + 1 < j { assert body[k + 1] == s[k + 1 - i] == line[k + 1 - i]; }
    }
    FirstLineEnd(body, i, j);
  }

  lemma {:induction false} FirstLineEnd(body: seq<Byte>, i: nat, j: nat)
    requires i <= j && CrlfAt(body, j) && forall k | i <= k < j :: !CrlfAt(body, k)
    ensures LineEnd(body, i) == j
    decreases j - i
  {
    if i < j { FirstLineEnd(body, i + 1, j); }
  }

  lemma {:induction false} LineNoCrlf(digits: seq<Byte>, ws: seq<Byte>, ext: seq<Byte>, size: nat)
    requires LineOk(digits, ws, ext, size)
    ensures NoCrlf(digits + ws + ext)
  {
    var front := digits + ws;
    var line := front + ext;
    HexExactly(digits, size);
    forall k | 0 <= k < |front| ensures front[k] != CR {
      if k < |digits| { assert Digit(digits[k]).Some?; }
    }
    forall k | 0 <= k < |line| ensures !CrlfAt(line, k) {
      if k < |front| {
        assert line[k] == front[k];
      } else {
        assert !CrlfAt(ext, k - |front|);
        assert line[k] == ext[k - |front|];
        if k + 1 < |line| { assert line[k + 1] == ext[k + 1 - |front|]; }
      }
    }
  }

  /** The parts of a chunk, where they stand in the body. */
  lemma {:induction false} ChunkParts(body: seq<Byte>, i: nat, c: Chunk, tail: seq<Byte>)
    requires Rest(body, i, Coded(c) + tail)
    ensures Rest(body, i, Line(c) + [CR, LF] + (c.data + [CR, LF] + tail))
    ensures var start := i + |Line(c)| + 2;
            && start + |c.data| + 2 <= |body| && i + |Coded(c)| == start + |c.data| + 2
            && body[start..start + |c.data|] == c.data && Rest(body, start + |c.data| + 2, tail)
  {
    var line, s := Line(c), Coded(c) + tail;
    var n, m := |line| + 2, |line| + 2 + |c.data|;
    assert s == line + [CR, LF] + (c.data + [CR, LF] + tail);
    SliceOfRest(body, i, s, n, m);
    assert s[n..m] == c.data;
    assert body[i + m + 2..] == s[m + 2..];
    assert s[m + 2..] == tail;
  }

  lemma {:induction false} SliceOfRest(body: seq<Byte>, i: nat, s: seq<Byte>, a: nat, b: nat)
    requires Rest(body, i, s) && a <= b <= |s|
    ensures i + b <= |body| && body[i + a..i + b] == s[a..b]
  {
    forall k | a <= k < b ensures body[i + k] == s[k] {
      assert body[i..][k] == s[k];
    }
  }

  /** A readable chunk is stepped over and decoded. */
  lemma {:induction false} ChunkStep(body: Body, i: nat, c: Chunk, tail: seq<Byte>, checked: bool)
    requires ChunkOk(c) && Readable(c.ws, c.ext) && Rest(body, i, Coded(c) + tail)
    ensures Rest(body, i + |Coded(c)|, tail)
    ensures OnePass(body, i, checked) == Go(i + |Coded(c)|)
    ensures DechunkFrom(body, i, checked) == After(c.data, DechunkFrom(body, i + |Coded(c)|, checked))
  {
    hide ParseSize, LineEnd, NoCrlf, Coded, Rest, DechunkFrom, Line, Readable, CrlfAt;
    LineFound(body, i, c, tail);
    ReadableExactly(c.digits, c.ws, c.ext, |c.data|);
    LineIs(c);
    DechunkStep(body, i, checked, i + |Line(c)|, |c.data|);
    PassStep(body, i, checked, i + |Line(c)|, |c.data|);
  }

  lemma {:induction false} LineIs(c: Chunk)
    ensures Line(c) == c.digits + c.ws + c.ext
  {
  }

  lemma {:induction false} PassStep(body: Body, i: nat, checked: bool, j: nat, size: nat)
    requires i <= j == LineEnd(body, i) && j + size + 4 <= |body| && ParseSize(body[i..j]) == Some(size) && size > 0
    ensures OnePass(body, i, checked) == Go(j + size + 4)
  {
    hide ParseSize, LineEnd;
  }

  /** The size line of a chunk and its data, where they stand. */
  lemma {:induction false} LineFound(body: Body, i: nat, c: Chunk, tail: seq<Byte>)
    requires ChunkOk(c) && Rest(body, i, Coded(c) + tail)
    ensures Rest(body, i + |Coded(c)|, tail)
    ensures var j := i + |Line(c)|;
            && LineEnd(body, i) == j && i + |Coded(c)| == j + |c.data| + 4 <= |body| && body[i..j] == Line(c)
            && body[j + 2..j + 2 + |c.data|] == c.data
  {
    hide ParseSize, LineEnd, NoCrlf, Coded, Rest;
    ChunkParts(body, i, c, tail);
    LineNoCrlf(c.digits, c.ws, c.ext, |c.data|);
    LineEndAt(body, i, Line(c), c.data + [CR, LF] + tail);
  }

  /** A chunk whose line is not readable stops both walks: the body counts as incomplete, and nothing
      more is decoded. */
  lemma {:induction false} BadLineStops(body: Body, i: nat, digits: seq<Byte>, ws: seq<Byte>, ext: seq<Byte>, size: nat,
      tail: seq<Byte>, checked: bool)
    requires LineOk(digits, ws, ext, size) && !Readable(ws, ext)
    requires Rest(body, i, digits + ws + ext + [13, 10] + tail)
    ensures OnePass(body, i, checked) == Stop(Incomplete) && DechunkFrom(body, i, checked) == Some([])
  {
    hide ParseSize, LineEnd, NoCrlf, Rest, DechunkFrom, Readable;
    LineNoCrlf(digits, ws, ext, size);
    LineEndAt(body, i, digits + ws + ext, tail);
    ReadableExactly(digits, ws, ext, size);
    LastLine(body, i, checked, i + |digits + ws + ext|);
  }

  lemma {:induction false} ChunksStep(body: Body, i: nat, cs: seq<Chunk>, tail: seq<Byte>, checked: bool, n: nat)
    requires ChunksOk(cs) && AllReadable(cs) && Rest(body, i, AllCoded(cs) + tail)
    ensures Rest(body, i + |AllCoded(cs)|, tail) && |AllCoded(cs)| >= |cs|
    ensures DechunkFrom(body, i, checked) == After(Data(cs), DechunkFrom(body, i + |AllCoded(cs)|, checked))
    ensures Walk(body, i, checked, |cs| + n) == Walk(body, i + |AllCoded(cs)|, checked, n)
    decreases |cs|
  {
    hide DechunkFrom, OnePass, Coded, Readable, ChunkOk;
    if cs == [] {
      assert AllCoded(cs) + tail == tail;
      OnlyRest(DechunkFrom(body, i, checked));
    } else {
      var more := AllCoded(cs[1..]) + tail;
      assert AllCoded(cs) + tail == Coded(cs[0]) + more;
      CodedLong(cs[0]);
      ChunkStep(body, i, cs[0], more, checked);
      ChunksStep(body, i + |Coded(cs[0])|, cs[1..], tail, checked, n);
      AfterMore(cs[0].data, Data(cs[1..]), DechunkFrom(body, i + |AllCoded(cs)|, checked));
    }
  }

  lemma {:induction false} CodedLong(c: Chunk)
    ensures |Coded(c)| >= 4
  {
  }

  /** The chunks up to the first unreadable line are decoded, and whatever follows is not looked at. */
  lemma {:induction false} StopsAtBad(body: Body, cs: seq<Chunk>, tail: seq<Byte>, checked: bool)
    requires ChunksOk(cs) && !AllReadable(cs) && body == AllCoded(cs) + tail
    ensures Completes(body, checked) == Incomplete
    ensures DechunkFrom(body, 0, checked) == Some(Data(cs[..ReadableCount(cs)]))
  {
    hide DechunkFrom, OnePass, Coded, Readable, ChunkOk, AllCoded, Rest;
    var k := ReadableCount(cs);
    var good, bad := cs[..k], cs[k];
    var behind := bad.data + [CR, LF] + (AllCoded(cs[k + 1..]) + tail);
    SplitAtBad(body, cs, k, tail);
    ChunksStep(body, 0, good, Line(bad) + [CR, LF] + behind, checked, |body| + 1 - k);
    LineIs(bad);
    assert ChunkOk(bad);
    BadChunkStops(body, |AllCoded(good)|, bad, behind, checked);
    assert Data(good) + [] == Data(good);
  }

  lemma {:induction false} BadChunkStops(body: Body, i: nat, c: Chunk, behind: seq<Byte>, checked: bool)
    requires ChunkOk(c) && !Readable(c.ws, c.ext) && Rest(body, i, Line(c) + [CR, LF] + behind)
    ensures OnePass(body, i, checked) == Stop(Incomplete) && DechunkFrom(body, i, checked) == Some([])
  {
    BadLineStops(body, i, c.digits, c.ws, c.ext, |c.data|, behind, checked);
  }

  lemma {:induction false} SplitAtBad(body: Body, cs: seq<Chunk>, k: nat, tail: seq<Byte>)
    requires k < |cs| && body == AllCoded(cs) + tail
    ensures Rest(body, 0, AllCoded(cs[..k]) + (Line(cs[k]) + [CR, LF]
                            + (cs[k].data + [CR, LF] + (AllCoded(cs[k + 1..]) + tail))))
    ensures |AllCoded(cs[..k])| >= k && |body| > k
  {
    var c, after := cs[k], AllCoded(cs[k + 1..]);
    CodedParts(cs, k);
    CodedCount(cs[..k]);
    hide AllCoded, Line;
    CodedFront(c, after, tail);
    assert body == AllCoded(cs[..k]) + (Coded(c) + after + tail);
    assert body[0..] == body;
  }

  lemma {:induction false} CodedFront(c: Chunk, after: seq<Byte>, tail: seq<Byte>)
    ensures Coded(c) + after + tail == Line(c) + [CR, LF] + (c.data + [CR, LF] + (after + tail))
  {
  }

  lemma {:induction false} CodedCount(cs: seq<Chunk>)
    ensures |AllCoded(cs)| >= |cs|
  {
    if cs != [] { CodedCount(cs[1..]); }
  }

  lemma {:induction false} CodedParts(cs: seq<Chunk>, k: nat)
    requires k < |cs|
    ensures AllCoded(cs) == AllCoded(cs[..k]) + (Coded(cs[k]) + AllCoded(cs[k + 1..]))
  {
    hide Coded;
    if k > 0 {
      CodedParts(cs[1..], k - 1);
      assert cs[1..][..k - 1] == cs[..k][1..] && cs[1..][k - 1] == cs[k] && cs[1..][k..] == cs[k + 1..];
    }
  }

  /** A coded body, whatever follows its last size line, decodes to the data of the chunks before the
      first unreadable line. It is complete if and only if every line is readable, the last one too. */
  lemma {:induction false} Decodes(cs: seq<Chunk>, zeros: seq<Byte>, ws: seq<Byte>, ext: seq<Byte>, rest: seq<Byte>,
      body: Body, checked: bool)
    requires ChunksOk(cs) && LineOk(zeros, ws, ext, 0) && body == AllCoded(cs) + (zeros + ws + ext + [13, 10] + rest)
    ensures DechunkFrom(body, 0, checked) == Some(Data(cs[..ReadableCount(cs)]))
    ensures Completes(body, checked) == if AllReadable(cs) && Readable(ws, ext) then Complete else Incomplete
    ensures DechunkFrom(body, 0, checked) == Some(Data(cs)) <==> AllReadable(cs)
  {
    hide ParseSize, LineEnd, NoCrlf, Coded, Hex, DechunkFrom, OnePass, Readable, Data;
    var last := zeros + ws + ext + [CR, LF] + rest;
    if AllReadable(cs) {
      assert cs[..ReadableCount(cs)] == cs;
      CodedCount(cs);
      assert body[0..] == body;
      ChunksStep(body, 0, cs, last, checked, |body| + 1 - |cs|);
      LastStops(body, |AllCoded(cs)|, zeros, ws, ext, rest, checked);
      assert Data(cs) + [] == Data(cs);
    } else {
      StopsAtBad(body, cs, last, checked);
      LessData(cs, ReadableCount(cs));
    }
  }

  lemma {:induction false} LessData(cs: seq<Chunk>, k: nat)
    requires ChunksOk(cs) && k < |cs|
    ensures |Data(cs[..k])| < |Data(cs)|
  {
    hide ChunkOk;
    assert ChunkOk(cs[0]);
    HasData(cs[0]);
    if k > 0 {
      LessData(cs[1..], k - 1);
      assert cs[1..][..k - 1] == cs[..k][1..];
    }
  }

  lemma {:induction false} HasData(c: Chunk)
    requires ChunkOk(c)
    ensures c.data != []
  {
  }

  lemma {:induction false} LastStops(body: Body, i: nat, zeros: seq<Byte>, ws: seq<Byte>, ext: seq<Byte>,
      rest: seq<Byte>, checked: bool)
    requires LineOk(zeros, ws, ext, 0) && Rest(body, i, zeros + ws + ext + [CR, LF] + rest)
    ensures OnePass(body, i, checked) == Stop(if Readable(ws, ext) then Complete else Incomplete)
    ensures DechunkFrom(body, i, checked) == Some([])
  {
    hide ParseSize, LineEnd, NoCrlf, Hex, Readable, DechunkFrom, Rest;
    LineNoCrlf(zeros, ws, ext, 0);
    LineEndAt(body, i, zeros + ws + ext, rest);
    ReadableExactly(zeros, ws, ext, 0);
    LastLine(body, i, checked, i + |zeros + ws + ext|);
  }

  // ----- bodies cut short -----

  /** A body cut inside a size line is not complete. It decodes to the chunks before the line, but the
      decoder slices beyond the end if what is left of the line, without its last byte, reads as a
      size. */
  lemma {:induction false} CutInLine(cs: seq<Chunk>, t: seq<Byte>, body: Body, checked: bool)
    requires ChunksOk(cs) && t != [] && NoCrlf(t) && body == AllCoded(cs) + t
    ensures Completes(body, checked) == Incomplete
    ensures DechunkFrom(body, 0, checked) ==
            if !AllReadable(cs) then Some(Data(cs[..ReadableCount(cs)]))
            else
              match ParseSize(t[..|t| - 1])
              case None => Some(Data(cs))
              case Some(n) => if n == 0 then Some(Data(cs)) else None
  {
    hide ParseSize, LineEnd, NoCrlf, Coded, Readable, DechunkFrom, OnePass, Data;
    if AllReadable(cs) {
      CodedCount(cs);
      assert body[0..] == body;
      ChunksStep(body, 0, cs, t, checked, |body| + 1 - |cs|);
      CutLine(body, |AllCoded(cs)|, t, checked);
      assert Data(cs) + [] == Data(cs);
    } else {
      StopsAtBad(body, cs, t, checked);
    }
  }

  lemma {:induction false} CutLine(body: Body, i: nat, t: seq<Byte>, checked: bool)
    requires Rest(body, i, t) && t != [] && NoCrlf(t)
    ensures OnePass(body, i, checked) == Stop(Incomplete)
    ensures DechunkFrom(body, i, checked) ==
            match ParseSize(t[..|t| - 1])
            case None => Some([])
            case Some(n) => if n == 0 then Some([]) else None
  {
    hide ParseSize, LineEnd, NoCrlf;
    NoLineEnd(body, i, t);
  }

  /** Without a line end in it, the rest of a body is scanned to its last byte. */
  lemma {:induction false} NoLineEnd(body: seq<Byte>, i: nat, t: seq<Byte>)
    requires Rest(body, i, t) && t != [] && NoCrlf(t)
    ensures |body| == i + |t| && LineEnd(body, i) == |body| - 1 && body[i..|body| - 1] == t[..|t| - 1]
  {
    assert forall k | 0 <= k < |t| :: t[k] == body[i + k];
    forall k | i <= k < |body| ensures !CrlfAt(body, k) {
      assert !CrlfAt(t, k - i);
      if k + 1 < |body| { assert body[k] == t[k - i] && body[k + 1] == t[k + 1 - i]; }
    }
  }

  /** A body cut inside a chunk's data, or inside the line end behind it, is not complete and decodes to
      what has arrived. */
  lemma {:induction false} CutInData(cs: seq<Chunk>, c: Chunk, n: nat, body: Body, checked: bool)
    requires ChunksOk(cs) && ChunkOk(c) && |Line(c)| + 2 <= n < |Coded(c)| && body == AllCoded(cs) + Coded(c)[..n]
    requires |AllCoded(cs) + Coded(c)| < WORD_LIMIT
    ensures Completes(body, checked) == Incomplete
    ensures var got := n - |Line(c)| - 2;
            DechunkFrom(body, 0, checked) ==
            if !AllReadable(cs) then Some(Data(cs[..ReadableCount(cs)]))
            else if !Readable(c.ws, c.ext) then Some(Data(cs))
            else Some(Data(cs) + c.data[..if got < |c.data| then got else |c.data|])
  {
    hide Coded, DechunkFrom, NoCrlf, OnePass, Readable, Data, ChunkOk, Line;
    var t := Coded(c)[..n];
    if AllReadable(cs) {
      CodedCount(cs);
      assert body[0..] == body;
      ChunksStep(body, 0, cs, t, checked, |body| + 1 - |cs|);
      CutChunk(body, |AllCoded(cs)|, c, n, checked);
      assert Data(cs) + [] == Data(cs);
    } else {
      StopsAtBad(body, cs, t, checked);
    }
  }

  /** What has arrived of a cut chunk: its size line and the first bytes of its data. */
  lemma {:induction false} CutParts(body: seq<Byte>, i: nat, c: Chunk, n: nat)
    requires |Line(c)| + 2 <= n < |Coded(c)| && Rest(body, i, Coded(c)[..n])
    ensures var start, got := i + |Line(c)| + 2, n - |Line(c)| - 2;
            var k := if got < |c.data| then got else |c.data|;
            && |body| == i + n && |body| < start + |c.data| + 2 && body[start..start + k] == c.data[..k]
            && Rest(body, i, Line(c) + [CR, LF] + Coded(c)[|Line(c)| + 2..n])
  {
    var line, s, got := Line(c), Coded(c), n - |Line(c)| - 2;
    var k, at := if got < |c.data| then got else |c.data|, |line| + 2;
    var t := s[..n];
    assert t == (line + [CR, LF]) + s[at..n];
    SliceOfRest(body, i, t, at, at + k);
    assert t[at..at + k] == s[at..at + k] == c.data[..k];
  }

  lemma {:induction false} CutChunk(body: Body, i: nat, c: Chunk, n: nat, checked: bool)
    requires ChunkOk(c) && |Line(c)| + 2 <= n < |Coded(c)| && Rest(body, i, Coded(c)[..n])
    requires i + |Coded(c)| < WORD_LIMIT
    ensures OnePass(body, i, checked) == Stop(Incomplete)
    ensures var got := n - |Line(c)| - 2;
            DechunkFrom(body, i, checked) ==
            if Readable(c.ws, c.ext) then Some(c.data[..if got < |c.data| then got else |c.data|]) else Some([])
  {
    hide ParseSize, LineEnd, NoCrlf, Coded, Rest, Readable, DechunkFrom, Line, OnePass;
    var got := n - |Line(c)| - 2;
    var k, j := if got < |c.data| then got else |c.data|, i + |Line(c)|;
    CutParts(body, i, c, n);
    LineNoCrlf(c.digits, c.ws, c.ext, |c.data|);
    LineIs(c);
    LineEndAt(body, i, Line(c), Coded(c)[|Line(c)| + 2..n]);
    if Readable(c.ws, c.ext) {
      ReadableExactly(c.digits, c.ws, c.ext, |c.data|);
      CodedSize(c);
      CutStep(body, i, checked, j, |c.data|);
    } else {
      BadChunkStops(body, i, c, Coded(c)[|Line(c)| + 2..n], checked);
    }
  }

  lemma {:induction false} CodedSize(c: Chunk)
    ensures |Coded(c)| == |Line(c)| + |c.data| + 4
  {
  }

  /** A chunk whose end has not arrived: what is there is decoded. */
  lemma {:induction false} CutStep(body: Body, i: nat, checked: bool, j: nat, size: nat)
    requires i <= j == LineEnd(body, i) && j + 2 <= |body| < j + size + 4 < WORD_LIMIT
    requires ParseSize(body[i..j]) == Some(size) && size > 0
    ensures OnePass(body, i, checked) == Stop(Incomplete)
    ensures DechunkFrom(body, i, checked) ==
            Some(body[j + 2..if j + 2 + size < |body| then j + 2 + size else |body|])
  {
    hide ParseSize, LineEnd;
    var end := if j + 2 + size < |body| then j + 2 + size else |body|;
    assert body[j + 2..end] + [] == body[j + 2..end];
  }
}
