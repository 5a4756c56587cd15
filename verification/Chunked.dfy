/** Chunked bodies: telling that one is complete, and decoding it, in 64-bit arithmetic. */
module Chunked {
  import opened Bytes
  import opened Utf8

  const CR: Byte := 13
  const LF: Byte := 10
  const SEMI: Byte := 59
  const PLUS: Byte := 43

  const WORD_LIMIT: nat := 0x1_0000_0000_0000_0000

  /** Slices have fewer than 2^63 bytes. */
  type Body = s: seq<Byte> | |s| < 0x8000_0000_0000_0000

  // ----- the size line -----

  function UpTo(s: seq<nat>, b: nat): seq<nat> { if s == [] || s[0] == b then [] else [s[0]] + UpTo(s[1..], b) }

  function Digit(c: nat): Option<nat> {
    if 48 <= c <= 57 then Some(c - 48)
    else if 65 <= c <= 70 then Some(c - 55)
    else if 97 <= c <= 102 then Some(c - 87)
    else None
  }

  predicate Hex(s: seq<nat>) { forall i | 0 <= i < |s| :: Digit(s[i]).Some? }

  /** The value of hexadecimal digits after `acc`. */
  function HexValue(s: seq<nat>, acc: nat): nat
    requires Hex(s)
  {
    if s == [] then acc else HexValue(s[1..], 16 * acc + Digit(s[0]).value)
  }

  /** A hexadecimal number with an optional plus sign, if it fits a 64-bit word. */
  function ParseHex(s: seq<nat>): (r: Option<nat>)
    ensures r.Some? ==> r.value < WORD_LIMIT
  {
    var digits := if s != [] && s[0] == PLUS then s[1..] else s;
    if digits == [] || !Hex(digits) || HexValue(digits, 0) >= WORD_LIMIT then None else Some(HexValue(digits, 0))
  }

  /** The size a line gives: what stands before its first semicolon, white space around the line
      aside. A line that is not UTF-8 counts as empty. */
  function ParseSize(line: seq<Byte>): (r: Option<nat>)
    ensures r.Some? ==> r.value < WORD_LIMIT
  {
    match Chars(line)
    case None => None
    case Some(cs) => ParseHex(UpTo(TrimEnd(TrimStart(cs)), SEMI))
  }

  // ----- the two walks -----

  predicate CrlfAt(body: seq<Byte>, j: nat) { j + 1 < |body| && body[j] == CR && body[j + 1] == LF }

  /** The next line end, or the last byte if there is none. */
  function LineEnd(body: seq<Byte>, j: nat): (r: nat)
    ensures r >= j && (r + 1 < |body| ==> CrlfAt(body, r)) && (r + 1 >= |body| ==> r == j || r + 1 == |body|)
    ensures forall k | j <= k < r :: !CrlfAt(body, k)
    decreases |body| - j
  {
    if j + 1 < |body| && !CrlfAt(body, j) then LineEnd(body, j + 1) else j
  }

  /** The answer, an overflow in a build that checks for it, or none yet. */
  datatype Answer = Complete | Incomplete | Panicked | Running

  datatype Pass = Stop(answer: Answer) | Go(next: nat)

  /** One pass of the loop, from the size line at `i`. A build that does not check for overflow keeps
      64 bits of the sum. */
  function OnePass(body: Body, i: nat, checked: bool): (r: Pass)
    requires i <= |body|
    ensures r.Go? ==> r.next <= |body|
    ensures r.Stop? ==> r.answer != Running
  {
    var j := LineEnd(body, i);
    if j + 1 >= |body| then Stop(Incomplete)
    else match ParseSize(body[i..j])
      case None => Stop(Incomplete)
      case Some(size) =>
        var sum := j + 2 + size + 2;
        if size == 0 then Stop(Complete)
        else if checked && sum >= WORD_LIMIT then Stop(Panicked)
        else if sum % WORD_LIMIT > |body| then Stop(Incomplete)
        else Go(sum % WORD_LIMIT)
  }

  /** What `passes` passes of the loop say. */
  function Walk(body: Body, i: nat, checked: bool, passes: nat): Answer
    requires i <= |body|
    decreases passes
  {
    if passes == 0 then Running
    else match OnePass(body, i, checked)
      case Stop(answer) => answer
      case Go(next) => Walk(body, next, checked, passes - 1)
  }

  /** The answer of the loop, `Running` if it never ends: see `EndsOrLoops`. */
  function Completes(body: Body, checked: bool): Answer { Walk(body, 0, checked, |body| + 1) }

  /** The decoded bytes from a size line on; none where the decoder panics, on an overflow or on a
      slice that ends before it starts. */
  function DechunkFrom(body: Body, i: nat, checked: bool): Option<seq<Byte>>
    decreases |body| - i
  {
    if i >= |body| then Some([])
    else
      var j := LineEnd(body, i);
      var size := match ParseSize(body[i..j]) case None => 0 case Some(n) => n;
      var start, sum := j + 2, j + 2 + size;
      if size == 0 then Some([])
      else if checked && sum >= WORD_LIMIT then None
      else
        var end := if sum % WORD_LIMIT < |body| then sum % WORD_LIMIT else |body|;
        if start > end then None
        else
          match DechunkFrom(body, end + 2, checked)
          case None => None
          case Some(rest) => Some(body[start..end] + rest)
  }

  method ChunkedComplete(body: Body, checked: bool, passes: nat) returns (r: Answer)
    ensures r == Walk(body, 0, checked, passes)
  {
    hide ParseSize, LineEnd, CrlfAt;
    var i: nat := 0;
    for pass := 0 to passes
      invariant i <= |body| && Walk(body, i, checked, passes - pass) == Walk(body, 0, checked, passes)
    {
      var j := FindLineEnd(body, i);
      if j + 1 >= |body| { return Incomplete; }
      var size := ParseSize(body[i..j]);
      if size.None? { return Incomplete; }
      if size.value == 0 { return Complete; }
      var sum := j + 2 + size.value + 2;
      if checked && sum >= WORD_LIMIT { return Panicked; }
      i := sum % WORD_LIMIT;
      if i > |body| { return Incomplete; }
    }
    return Running;
  }

  method FindLineEnd(body: seq<Byte>, i: nat) returns (j: nat)
    ensures j == LineEnd(body, i)
  {
    j := i;
    while j + 1 < |body| && !(body[j] == CR && body[j + 1] == LF)
      invariant i <= j && LineEnd(body, j) == LineEnd(body, i)
      decreases |body| - j
    {
      j := j + 1;
    }
  }

  method Dechunk(body: Body, checked: bool) returns (r: Option<seq<Byte>>)
    ensures r == DechunkFrom(body, 0, checked)
  {
    hide ParseSize, LineEnd, CrlfAt;
    var out: seq<Byte>, i := [], 0;
    ghost var all := DechunkFrom(body, 0, checked);
    OnlyRest(all);
    while i < |body|
      invariant all == After(out, DechunkFrom(body, i, checked))
      decreases |body| - i
    {
      var j := FindLineEnd(body, i);
      var parsed := ParseSize(body[i..j]);
      var size := if parsed.Some? then parsed.value else 0;
      i := j + 2;
      if size == 0 { break; }
      if checked && i + size >= WORD_LIMIT { return None; }
      var sum := (i + size) % WORD_LIMIT;
      var end := if sum < |body| then sum else |body|;
      if i > end { return None; }
      AfterMore(out, body[i..end], DechunkFrom(body, end + 2, checked));
      out := out + body[i..end];
      i := end + 2;
    }
    assert out + [] == out;
    return Some(out);
  }

  /** Decoded bytes in front of those still to come. */
  function After(out: seq<Byte>, rest: Option<seq<Byte>>): Option<seq<Byte>> {
    match rest
    case None => None
    case Some(more) => Some(out + more)
  }

  lemma {:induction false} OnlyRest(rest: Option<seq<Byte>>)
    ensures After([], rest) == rest
  {
    if rest.Some? { assert [] + rest.value == rest.value; }
  }

  lemma {:induction false} AfterMore(out: seq<Byte>, more: seq<Byte>, rest: Option<seq<Byte>>)
    ensures After(out, After(more, rest)) == After(out + more, rest)
  {
    if rest.Some? { assert out + (more + rest.value) == (out + more) + rest.value; }
  }

  // ----- the loop ends soon or never -----

  /** Where the loop stands after `n` passes, if it has not ended. */
  function Place(body: Body, i: nat, checked: bool, n: nat): (r: Option<nat>)
    requires i <= |body|
    ensures r.Some? ==> r.value <= |body|
    decreases n
  {
    if n == 0 then Some(i)
    else match OnePass(body, i, checked)
      case Stop(_) => None
      case Go(next) => Place(body, next, checked, n - 1)
  }

  lemma {:induction false} RunningPlaces(body: Body, i: nat, checked: bool, n: nat)
    requires i <= |body|
    ensures Walk(body, i, checked, n) == Running <==> Place(body, i, checked, n).Some?
    decreases n
  {
    hide OnePass;
    if n > 0 && OnePass(body, i, checked).Go? { RunningPlaces(body, OnePass(body, i, checked).next, checked, n - 1); }
  }

  lemma {:induction false} PlaceSum(body: Body, i: nat, checked: bool, a: nat, b: nat)
    requires i <= |body|
    ensures var k := Place(body, i, checked, a);
            Place(body, i, checked, a + b) == if k.Some? then Place(body, k.value, checked, b) else None
    decreases a
  {
    hide OnePass;
    if a > 0 && OnePass(body, i, checked).Go? { PlaceSum(body, OnePass(body, i, checked).next, checked, a - 1, b); }
  }

  /** More numbers below `bound` than `bound`: one comes twice. */
  lemma {:induction false} Pigeonhole(s: seq<nat>, bound: nat) returns (a: nat, b: nat)
    requires |s| > bound && forall i | 0 <= i < |s| :: s[i] < bound
    ensures a < b < |s| && s[a] == s[b]
    decreases bound
  {
    assert s[0] < bound;
    var top := bound - 1;
    if i: nat :| i < |s| && s[i] == top {
      if j: nat :| j < |s| && j != i && s[j] == top {
        a, b := if i < j then i else j, if i < j then j else i;
      } else {
        var rest := s[..i] + s[i + 1..];
        var a1, b1 := Pigeonhole(rest, top);
        a, b := if a1 < i then a1 else a1 + 1, if b1 < i then b1 else b1 + 1;
      }
    } else {
      a, b := Pigeonhole(s, top);
    }
  }

  /** Once a place comes back, the loop runs for ever. */
  lemma {:induction false} Cycles(body: Body, checked: bool, a: nat, b: nat, n: nat)
    requires a < b && Place(body, 0, checked, a).Some? && Place(body, 0, checked, a) == Place(body, 0, checked, b)
    ensures Place(body, 0, checked, n).Some?
    decreases n
  {
    hide Place;
    if n > b {
      PlaceSum(body, 0, checked, a, n - b);
      PlaceSum(body, 0, checked, b, n - b);
      assert b + (n - b) == n;
      Cycles(body, checked, a, b, a + (n - b));
    } else {
      PlaceSum(body, 0, checked, n, b - n);
    }
  }

  /** A loop that ends does so within as many passes as the body has bytes, and one more. */
  lemma {:induction false} EndsOrLoops(body: Body, checked: bool, passes: nat)
    requires passes > |body|
    ensures Walk(body, 0, checked, passes) == Completes(body, checked)
  {
    hide OnePass;
    var n := |body| + 1;
    RunningPlaces(body, 0, checked, n);
    RunningPlaces(body, 0, checked, passes);
    if Completes(body, checked) == Running {
      forall k: nat | k <= n ensures Place(body, 0, checked, k).Some? { PlaceSum(body, 0, checked, k, n - k); }
      var places := seq(n + 1, k requires 0 <= k <= n => Place(body, 0, checked, k).value);
      var a, b := Pigeonhole(places, n);
      Cycles(body, checked, a, b, passes);
    } else {
      WalkMore(body, 0, checked, n, passes - n);
    }
  }

  /** An answer is final. */
  lemma {:induction false} WalkMore(body: Body, i: nat, checked: bool, n: nat, more: nat)
    requires i <= |body| && Walk(body, i, checked, n) != Running
    ensures Walk(body, i, checked, n + more) == Walk(body, i, checked, n)
    decreases n
  {
    hide OnePass;
    if OnePass(body, i, checked).Go? { WalkMore(body, OnePass(body, i, checked).next, checked, n - 1, more); }
  }

  // ----- stopping early -----

  /** Every size line met, and the line end and data behind it, end below 2^64. */
  predicate NoWrap(body: Body, i: nat)
    decreases |body| - i
  {
    var j := LineEnd(body, i);
    j + 1 >= |body| ||
    match ParseSize(body[i..j])
    case None => true
    case Some(size) =>
      size == 0 || (j + size + 4 < WORD_LIMIT && (j + size + 4 <= |body| ==> NoWrap(body, j + size + 4)))
  }

  /** Whatever comes behind what has arrived, the body stays complete and decodes to the same bytes,
      without a panic. */
  ghost predicate Settled(p: Body, checked: bool) {
    && DechunkFrom(p, 0, checked).Some?
    && forall q: seq<Byte> :: |p + q| < 0x8000_0000_0000_0000 ==>
         Completes(p + q, checked) == Complete && DechunkFrom(p + q, 0, checked) == DechunkFrom(p, 0, checked)
  }

  lemma {:induction false} LineEndExtends(p: seq<Byte>, q: seq<Byte>, j: nat)
    requires LineEnd(p, j) + 1 < |p|
    ensures LineEnd(p + q, j) == LineEnd(p, j)
    decreases |p| - j
  {
    assert forall k | 0 <= k < |p| :: (p + q)[k] == p[k];
    if j + 1 < |p| && !CrlfAt(p, j) { LineEndExtends(p, q, j + 1); }
  }

  lemma {:induction false} SameSlice(p: seq<Byte>, q: seq<Byte>, a: nat, b: nat)
    requires a <= b <= |p|
    ensures (p + q)[a..b] == p[a..b]
  {
  }

  /** The size line at `i`, once its line end has arrived, reads the same whatever follows. */
  lemma {:induction false} SameLine(p: Body, q: seq<Byte>, i: nat)
    requires i <= |p| && LineEnd(p, i) + 1 < |p|
    ensures LineEnd(p + q, i) == LineEnd(p, i) && (p + q)[i..LineEnd(p, i)] == p[i..LineEnd(p, i)]
  {
    LineEndExtends(p, q, i);
    SameSlice(p, q, i, LineEnd(p, i));
  }

  /** One chunk is decoded, as long as its end has arrived and nothing wraps around. */
  lemma {:induction false} DechunkStep(p: Body, i: nat, checked: bool, j: nat, size: nat)
    requires j == LineEnd(p, i) && i <= j && j + 1 < |p| && ParseSize(p[i..j]) == Some(size) && size > 0
    requires j + size + 4 < WORD_LIMIT && j + size + 4 <= |p|
    ensures DechunkFrom(p, i, checked) == After(p[j + 2..j + 2 + size], DechunkFrom(p, j + size + 4, checked))
  {
    hide ParseSize, LineEnd, CrlfAt;
  }

  /** A pass over a line that does not wrap is the same whatever follows. */
  lemma {:induction false} SamePass(p: Body, q: seq<Byte>, i: nat, checked: bool)
    requires i <= |p| && |p + q| < 0x8000_0000_0000_0000 && NoWrap(p, i)
    requires var pass := OnePass(p, i, checked); pass.Go? || pass == Stop(Complete)
    ensures OnePass(p + q, i, checked) == OnePass(p, i, checked)
    ensures var j := LineEnd(p, i);
            && j + 1 < |p| && j == LineEnd(p + q, i) && ParseSize(p[i..j]).Some?
            && (p + q)[i..j] == p[i..j]
            && var size := ParseSize(p[i..j]).value;
            if size == 0 then OnePass(p, i, checked) == Stop(Complete)
            else OnePass(p, i, checked) == Go(j + size + 4) && j + size + 4 < WORD_LIMIT && NoWrap(p, j + size + 4)
  {
    hide ParseSize, LineEnd, CrlfAt;
    SameLine(p, q, i);
  }

  lemma {:induction false} LastLine(p: Body, i: nat, checked: bool, j: nat)
    requires j == LineEnd(p, i) && i <= j && j + 1 < |p| && ParseSize(p[i..j]) in {None, Some(0)}
    ensures DechunkFrom(p, i, checked) == Some([])
  {
  }

  lemma {:induction false} StaysComplete(p: Body, q: seq<Byte>, i: nat, checked: bool, passes: nat)
    requires i <= |p| && |p + q| < 0x8000_0000_0000_0000
    requires NoWrap(p, i) && Walk(p, i, checked, passes) == Complete
    ensures Walk(p + q, i, checked, passes) == Complete
    ensures DechunkFrom(p, i, checked).Some? && DechunkFrom(p + q, i, checked) == DechunkFrom(p, i, checked)
    decreases passes
  {
    hide ParseSize, LineEnd, CrlfAt, OnePass, NoWrap, DechunkFrom;
    var j := LineEnd(p, i);
    SamePass(p, q, i, checked);
    var size := ParseSize(p[i..j]).value;
    if size == 0 {
      LastLine(p, i, checked, j);
      LastLine(p + q, i, checked, j);
    } else {
      var next := j + size + 4;
      assert |p| <= |p + q|;
      StaysComplete(p, q, next, checked, passes - 1);
      DechunkStep(p, i, checked, j, size);
      DechunkStep(p + q, i, checked, j, size);
      SameSlice(p, q, j + 2, j + 2 + size);
    }
  }

  /** From a wrapping line on, decoding panics, or takes in whatever follows. */
  lemma {:induction false} WrapBreaks(p: Body, i: nat)
    requires i <= |p| && !NoWrap(p, i) && |p| + 1 < 0x8000_0000_0000_0000
    ensures DechunkFrom(p, i, false) == None || DechunkFrom(p + [0], i, false) != DechunkFrom(p, i, false)
    decreases |p| - i
  {
    hide ParseSize, LineEnd, CrlfAt, DechunkFrom;
    var j, q := LineEnd(p, i), p + [0];
    SameLine(p, [0], i);
    var size := ParseSize(p[i..j]).value;
    var next := j + size + 4;
    if next < WORD_LIMIT {
      WrapBreaks(p, next);
      DechunkStep(p, i, false, j, size);
      DechunkStep(q, i, false, j, size);
      SameSlice(p, [0], j + 2, j + 2 + size);
      if DechunkFrom(p, next, false).Some? {
        SameData(p[j + 2..j + 2 + size], DechunkFrom(p, next, false), DechunkFrom(q, next, false));
      }
    } else {
      TakesAll(p, i, j, size);
      TakesAll(q, i, j, size);
      assert |p[j + 2..]| + 1 == |q[j + 2..]|;
    }
  }

  /** What the decoder makes of a line whose sum wraps around. */
  lemma {:induction false} TakesAll(p: Body, i: nat, j: nat, size: nat)
    requires j == LineEnd(p, i) && i <= j && j + 1 < |p| && ParseSize(p[i..j]) == Some(size)
    requires j + size + 4 >= WORD_LIMIT
    ensures DechunkFrom(p, i, false) == if j + 2 + size >= WORD_LIMIT then None else Some(p[j + 2..])
  {
    hide ParseSize, LineEnd, CrlfAt;
    var sum := j + 2 + size;
    if sum >= WORD_LIMIT {
      assert sum % WORD_LIMIT == sum - WORD_LIMIT;
    } else {
      assert p[j + 2..|p|] + [] == p[j + 2..];
    }
  }

  lemma {:induction false} SameData(data: seq<Byte>, a: Option<seq<Byte>>, b: Option<seq<Byte>>)
    requires a != b
    ensures After(data, a) != After(data, b)
  {
    if a.Some? && b.Some? {
      assert (data + a.value)[|data|..] == a.value && (data + b.value)[|data|..] == b.value;
    }
  }

  /** A reader that stops at a complete body is right to, whatever would still have come, if and only if
      no size line met makes the sum of offset and size wrap around. */
  lemma {:induction false} EarlyStopSafe(p: Body, checked: bool)
    requires Completes(p, checked) == Complete && |p| + 1 < 0x8000_0000_0000_0000
    ensures Settled(p, checked) <==> NoWrap(p, 0)
  {
    hide Walk, DechunkFrom, NoWrap;
    if NoWrap(p, 0) {
      StaysComplete(p, [], 0, checked, |p| + 1);
      forall q: seq<Byte> | |p + q| < 0x8000_0000_0000_0000
        ensures Completes(p + q, checked) == Complete && DechunkFrom(p + q, 0, checked) == DechunkFrom(p, 0, checked)
      {
        StaysComplete(p, q, 0, checked, |p| + 1);
        WalkMore(p + q, 0, checked, |p| + 1, |q|);
      }
    } else {
      PanicsExactly(p);
      WrapBreaks(p, 0);
      assert |p + [0]| < 0x8000_0000_0000_0000;
    }
  }

  /** A build that checks for overflow panics exactly on the bodies with a wrapping line, and always ends. */
  lemma {:induction false} PanicsExactly(p: Body)
    ensures Completes(p, true) == Panicked <==> !NoWrap(p, 0)
    ensures Completes(p, true) != Running
  {
    PanicsFrom(p, 0, |p| + 1);
  }

  lemma {:induction false} PanicsFrom(p: Body, i: nat, passes: nat)
    requires i <= |p| && passes > |p| - i
    ensures Walk(p, i, true, passes) == Panicked <==> !NoWrap(p, i)
    ensures Walk(p, i, true, passes) != Running
    decreases |p| - i
  {
    hide ParseSize, LineEnd, CrlfAt;
    var pass := OnePass(p, i, true);
    if pass.Go? { PanicsFrom(p, pass.next, passes - 1); }
  }

  /** Without a wrapping line both builds give the same answer, and soon. */
  lemma {:induction false} SameAnswer(p: Body, i: nat, passes: nat)
    requires i <= |p| && NoWrap(p, i)
    ensures Walk(p, i, false, passes) == Walk(p, i, true, passes)
    decreases passes
  {
    hide ParseSize, LineEnd, CrlfAt;
    if passes > 0 {
      var pass := OnePass(p, i, true);
      if pass.Go? { SameAnswer(p, pass.next, passes - 1); }
    }
  }
}
