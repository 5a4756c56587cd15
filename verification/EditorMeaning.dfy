/** What the edits do to the text, character by character. */
module EditorMeaning {
  import opened Bytes
  import opened EditorText

  // ----- typing -----

  /** Text is inserted at the cursor if the whole then has at most 65536 characters, and otherwise not at all. */
  lemma {:induction false} InsertExactly(s: State, ins: string)
    requires s.cursor <= |s.text|
    ensures Insert(s, ins) ==
            if |s.text| + |ins| <= 65536
            then s.(text := s.text[..s.cursor] + ins + s.text[s.cursor..], cursor := s.cursor + |ins|) else s
  {
  }

  /** An opening bracket or a quote brings its partner, and the cursor is between the two; any other character comes
      alone. */
  lemma {:induction false} TypedText(s: State, ch: char)
    requires s.cursor <= |s.text| && |s.text| < 65536
    ensures var before, after, t := s.text[..s.cursor], s.text[s.cursor..], TypeChar(s, ch);
            && t.cursor == s.cursor + 1
            && (ch == '(' ==> t.text == before + "()" + after) && (ch == '[' ==> t.text == before + "[]" + after)
            && (ch == '{' ==> t.text == before + "{}" + after) && (ch == '"' ==> t.text == before + "\"\"" + after)
            && (ch == '\'' ==> t.text == before + "''" + after)
            && (ch !in "([{\"'" ==> t.text == before + [ch] + after)
  {
    hide Capped;
    var before, after, t := s.text[..s.cursor], s.text[s.cursor..], TypeChar(s, ch);
    var mid := before + [ch] + after;
    assert mid[..s.cursor + 1] == before + [ch] && mid[s.cursor + 1..] == after;
    if ch in "([{\"'" {
      var c := Closing(ch).value;
      assert t.text == before + [ch] + [c] + after;
      assert before + [ch] + [c] + after == before + [ch, c] + after;
    }
  }

  /** The spaces and tabs a line begins with, all of them. */
  lemma {:induction false} IndentExactly(line: string)
    ensures var n := |Indent(line)|;
            && n <= |line| && Indent(line) == line[..n] && (forall i | 0 <= i < n :: line[i] == ' ' || line[i] == '\t')
            && (n < |line| ==> line[n] != ' ' && line[n] != '\t')
  {
    if line != "" && (line[0] == ' ' || line[0] == '\t') {
      IndentExactly(line[1..]);
      var n := |Indent(line[1..])|;
      assert line[..n + 1] == [line[0]] + line[1..][..n];
      assert forall i | 1 <= i < n + 1 :: line[i] == line[1..][i - 1];
    }
  }

  /** A new line begins with the indent of the line left, as far as the cursor, and with four spaces more behind
      `{`, `(`, `[` or `:`. */
  lemma {:induction false} NewlineText(s: State)
    requires s.cursor <= |s.text|
    ensures var before, after, t := s.text[..s.cursor], s.text[s.cursor..], Newline(s);
            var indent := Indent(s.text[LineStart(s.text, s.cursor)..s.cursor]);
            var more := if before != "" && before[|before| - 1] in "{([:" then "    " else "";
            |s.text| + 1 + |indent| + |more| <= 65536 ==>
              t.text == before + "\n" + indent + more + after && t.cursor == s.cursor + 1 + |indent| + |more|
  {
    hide Capped, Indent;
    var before, after := s.text[..s.cursor], s.text[s.cursor..];
    var indent := Indent(s.text[LineStart(s.text, s.cursor)..s.cursor]);
    var more := if before != "" && before[|before| - 1] in "{([:" then "    " else "";
    assert "\n" + indent + more == "\n" + indent + Extra(before);
    assert before + ("\n" + indent + more) + after == before + "\n" + indent + more + after;
  }

  /** The tab key inserts four spaces. */
  lemma {:induction false} TabText(s: State)
    requires s.cursor <= |s.text| && |s.text| + 4 <= 65536
    ensures TabKey(s).text == s.text[..s.cursor] + "    " + s.text[s.cursor..] && TabKey(s).cursor == s.cursor + 4
  {
    hide Capped;
  }

  // ----- pasting -----

  lemma {:induction false} CleanedSum(a: string, b: string)
    ensures Cleaned(a + b) == Cleaned(a) + Cleaned(b)
  {
    if a == "" {
      assert a + b == b;
    } else {
      assert (a + b)[1..] == a[1..] + b;
      CleanedSum(a[1..], b);
    }
  }

  /** Of what is pasted, line ends, tabs and the characters from space to tilde stay, in order, and nothing else. */
  lemma {:induction false} CleanedExactly(a: string, ch: char)
    ensures Cleaned("") == ""
    ensures Cleaned(a + [ch]) == Cleaned(a) + if ch == '\n' || ch == '\t' || 32 <= ch as int <= 126 then [ch] else ""
  {
    CleanedSum(a, [ch]);
    assert [ch][1..] == "";
  }

  // ----- searching -----

  predicate Occurs(text: string, q: string, at: nat) { at + |q| <= |text| && text[at..at + |q|] == q }

  /** The search finds the first occurrence at or behind a place, if there is one. */
  lemma {:induction false} FindsFirst(text: string, q: string, at: nat)
    requires at <= |text|
    ensures var r := FindFrom(text, q, at);
            if r.Some? then at <= r.value && Occurs(text, q, r.value)
                            && forall i: nat | at <= i < r.value :: !Occurs(text, q, i)
            else forall i: nat | at <= i :: !Occurs(text, q, i)
    decreases |text| - at
  {
    if at + |q| <= |text| && text[at..at + |q|] != q && at < |text| { FindsFirst(text, q, at + 1); }
  }

  /** The cursor goes behind the first occurrence from a place on, or else behind the first of all; without any it
      stays. */
  lemma {:induction false} SearchExactly(s: State, q: string, from: nat)
    requires from <= |s.text| && q != ""
    ensures FindNext(s, q, from) == s.(cursor := FindNext(s, q, from).cursor)
    ensures forall i: nat | from <= i && Occurs(s.text, q, i)
                            && (forall k: nat | from <= k < i :: !Occurs(s.text, q, k)) ::
              FindNext(s, q, from).cursor == i + |q|
    ensures forall i: nat | Occurs(s.text, q, i) && (forall k: nat | k < i || k >= from :: !Occurs(s.text, q, k)) ::
              FindNext(s, q, from).cursor == i + |q|
    ensures (forall i: nat :: !Occurs(s.text, q, i)) ==> FindNext(s, q, from) == s
  {
    FindsFirst(s.text, q, from);
    FindsFirst(s.text, q, 0);
  }

  lemma {:induction false} OccursFirst(text: string, q: string)
    ensures Occurs(text, q, 0) <==> |text| >= |q| && text[..|q|] == q
  {
    if |text| >= |q| { assert text[0..|q|] == text[..|q|]; }
  }

  /** A text without the word stays as it is. */
  lemma {:induction false} ReplacedNone(text: string, q: string, r: string)
    requires q != "" && forall i: nat :: !Occurs(text, q, i)
    ensures Replaced(text, q, r) == text
    decreases |text|
  {
    hide Occurs;
    if text != "" {
      OccursFirst(text, q);
      forall i: nat ensures !Occurs(text[1..], q, i) {
        OccursBehind(text, q, i);
      }
      ReplacedNone(text[1..], q, r);
    }
  }

  lemma {:induction false} OccursBehind(text: string, q: string, i: nat)
    requires text != ""
    ensures Occurs(text[1..], q, i) <==> Occurs(text, q, i + 1)
  {
    if i + 1 + |q| <= |text| { assert text[1..][i..i + |q|] == text[i + 1..i + 1 + |q|]; }
  }

  /** The first occurrence is replaced, what is before it stays, and the text behind it is dealt with in the same way:
      occurrences are replaced from left to right, and none twice. */
  lemma {:induction false} ReplacedFirst(text: string, q: string, r: string, at: nat)
    requires q != "" && Occurs(text, q, at) && forall i: nat | i < at :: !Occurs(text, q, i)
    ensures Replaced(text, q, r) == text[..at] + r + Replaced(text[at + |q|..], q, r)
    decreases at
  {
    hide Occurs;
    OccursFirst(text, q);
    OccursInside(text, q, at);
    if at == 0 {
      assert text[..0] + r == r;
    } else {
      var tail := text[1..];
      OccursBehind(text, q, at - 1);
      forall i: nat | i < at - 1 ensures !Occurs(tail, q, i) {
        OccursBehind(text, q, i);
      }
      ReplacedFirst(tail, q, r, at - 1);
      assert tail[at - 1 + |q|..] == text[at + |q|..];
      InFront(text, at, r, Replaced(text[at + |q|..], q, r));
    }
  }

  lemma {:induction false} OccursInside(text: string, q: string, at: nat)
    requires Occurs(text, q, at) && q != ""
    ensures at + |q| <= |text| && text != ""
  {
  }

  lemma {:induction false} InFront(text: string, at: nat, r: string, rest: string)
    requires 0 < at <= |text|
    ensures [text[0]] + (text[1..][..at - 1] + r + rest) == text[..at] + r + rest
  {
    assert [text[0]] + text[1..][..at - 1] == text[..at];
  }

  // ----- lines -----

  function Newlines(text: string): nat {
    if text == "" then 0 else Newlines(text[..|text| - 1]) + if text[|text| - 1] == '\n' then 1 else 0
  }

  lemma {:induction false} NewlinesStep(text: string, at: nat, le: nat)
    requires at <= le <= |text| && forall i | at <= i < le :: text[i] != '\n'
    ensures Newlines(text[..le]) == Newlines(text[..at])
    ensures le < |text| && text[le] == '\n' ==> Newlines(text[..le + 1]) == Newlines(text[..at]) + 1
    decreases le
  {
    if at < le {
      NewlinesStep(text, at, le - 1);
      assert text[..le][..le - 1] == text[..le - 1];
    }
    if le < |text| { assert text[..le + 1][..le] == text[..le]; }
  }

  /** Going down `n` lines from the start of one ends at the start of the line with `n` more line ends before it, or of
      the last line. */
  lemma {:induction false} LinesDownExactly(text: string, start: nat, n: nat)
    requires start <= |text| && (start > 0 ==> text[start - 1] == '\n')
    ensures var r := LinesDown(text, start, n);
            && (r > 0 ==> text[r - 1] == '\n')
            && Newlines(text[..r]) <= Newlines(text[..start]) + n
            && (Newlines(text[..r]) < Newlines(text[..start]) + n ==> LineEnd(text, r) == |text|)
    decreases n
  {
    if n > 0 {
      var le := LineEnd(text, start);
      NewlinesStep(text, start, le);
      if le < |text| { LinesDownExactly(text, le + 1, n - 1); }
    }
  }

  /** Line `n`, counted from one, has `n - 1` line ends before it; beyond the last line it is that one. */
  lemma {:induction false} GotoLineExactly(s: State, n: nat)
    requires n > 0
    ensures var c := GotoLine(s, n).cursor;
            && c <= |s.text| && (c > 0 ==> s.text[c - 1] == '\n')
            && (Newlines(s.text[..c]) == n - 1 || (Newlines(s.text[..c]) < n - 1 && LineEnd(s.text, c) == |s.text|))
  {
    LinesDownExactly(s.text, 0, n - 1);
  }

  /** One step to a side, and to the ends of the line. */
  lemma {:induction false} MovesExactly(s: State)
    requires s.cursor <= |s.text|
    ensures MoveLeft(s) == s.(cursor := MoveLeft(s).cursor, typing := false)
    ensures MoveRight(s) == s.(cursor := MoveRight(s).cursor, typing := false)
    ensures s.cursor > 0 ==> MoveLeft(s).cursor + 1 == s.cursor && MoveRight(MoveLeft(s)).cursor == s.cursor
    ensures s.cursor < |s.text| ==> MoveRight(s).cursor == s.cursor + 1 && MoveLeft(MoveRight(s)).cursor == s.cursor
    ensures MoveLeft(s.(cursor := 0)).cursor == 0 && MoveRight(s.(cursor := |s.text|)).cursor == |s.text|
    ensures Home(s).cursor <= s.cursor <= EndOfLine(s).cursor
    ensures forall i | Home(s).cursor <= i < EndOfLine(s).cursor :: s.text[i] != '\n'
  {
  }

  // ----- history -----

  /** The state goes on the history, which keeps its last 200 entries. */
  lemma {:induction false} SnapshotExactly(s: State)
    requires |s.undo| <= 200
    ensures var u := Snapshot(s).undo;
            && u[|u| - 1] == Snap(s.text, s.cursor) && |u| == (if |s.undo| < 200 then |s.undo| + 1 else 200)
            && u[..|u| - 1] == s.undo[|s.undo| + 1 - |u|..]
    ensures Snapshot(s).text == s.text && Snapshot(s).cursor == s.cursor && Snapshot(s).redo == []
  {
  }
}
