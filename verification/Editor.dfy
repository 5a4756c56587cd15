/** The editor's methods, and its history over whole sessions. */
module Editor {
  import opened Bytes
  import T = EditorText
  import opened EditorText

  class EditorState {
    var text: string
    var cursor: nat
    var undo: seq<Snap>
    var redo: seq<Snap>
    var typing: bool

    constructor (contents: string)
      ensures View() == State(contents, 0, [], [], false)
    {
      text, cursor, undo, redo, typing := contents, 0, [], [], false;
    }

    ghost function View(): State
      reads this
    {
      State(text, cursor, undo, redo, typing)
    }

    method Snapshot()
      modifies this
      ensures View() == T.Snapshot(old(View()))
    {
      undo := undo + [Snap(text, cursor)];
      if |undo| > HISTORY {
        undo := undo[1..];
      }
      redo := [];
    }

    method Insert(ins: string)
      modifies this
      ensures View() == T.Insert(old(View()), ins)
    {
      if |text| + |ins| > MAX {
        return;
      }
      cursor := Clamp(cursor, |text|);
      text := text[..cursor] + ins + text[cursor..];
      cursor := cursor + |ins|;
    }

    method TypeChar(ch: char)
      requires cursor <= |text|
      modifies this
      ensures View() == T.TypeChar(old(View()), ch)
    {
      if !typing {
        Snapshot();
        typing := true;
      }
      var close := Closing(ch);
      Insert([ch]);
      if close.Some? {
        var at := cursor;
        text := text[..at] + [close.value] + text[at..];
      }
    }

    method Newline()
      requires cursor <= |text|
      modifies this
      ensures View() == T.Newline(old(View()))
    {
      Snapshot();
      typing := false;
      var ls := LineStart(text, cursor);
      var indent := Indent(text[ls..cursor]);
      var extra := Extra(text[..cursor]);
      Insert("\n" + indent + extra);
    }

    method Backspace()
      requires cursor <= |text|
      modifies this
      ensures View() == T.Backspace(old(View()))
    {
      if cursor == 0 { return; }
      Snapshot();
      typing := false;
      text := text[..cursor - 1] + text[cursor..];
      cursor := cursor - 1;
    }

    method Remove()
      modifies this
      ensures View() == T.Remove(old(View()))
    {
      if cursor >= |text| { return; }
      Snapshot();
      typing := false;
      text := text[..cursor] + text[cursor + 1..];
    }

    method Paste(s: string)
      modifies this
      ensures View() == T.Paste(old(View()), s)
    {
      Snapshot();
      typing := false;
      Insert(Cleaned(s));
    }

    method TabKey()
      modifies this
      ensures View() == T.TabKey(old(View()))
    {
      Snapshot();
      Insert(TAB);
      typing := false;
    }

    method UndoOp()
      modifies this
      ensures View() == Undo(old(View()))
    {
      if undo != [] {
        var snap := undo[|undo| - 1];
        undo := undo[..|undo| - 1];
        redo := redo + [Snap(text, cursor)];
        text := snap.text;
        cursor := Clamp(snap.cursor, |text|);
        typing := false;
      }
    }

    method RedoOp()
      modifies this
      ensures View() == Redo(old(View()))
    {
      if redo != [] {
        var snap := redo[|redo| - 1];
        redo := redo[..|redo| - 1];
        undo := undo + [Snap(text, cursor)];
        text := snap.text;
        cursor := Clamp(snap.cursor, |text|);
        typing := false;
      }
    }

    method MoveVert(up: bool)
      requires cursor <= |text|
      modifies this
      ensures View() == T.MoveVert(old(View()), up)
    {
      hide LineStart, LineEnd;
      var col := cursor - LineStart(text, cursor);
      if up {
        var ls := LineStart(text, cursor);
        if ls == 0 { return; }
        cursor := NthCol(LineStart(text, ls - 1), ls - 1, col);
      } else {
        var le := LineEnd(text, cursor);
        if le >= |text| { return; }
        cursor := NthCol(le + 1, LineEnd(text, le + 1), col);
      }
      typing := false;
    }

    method GotoLine(n: nat)
      modifies this
      ensures View() == T.GotoLine(old(View()), n)
    {
      var start: nat, k := 0, 1;
      while k < n
        invariant 1 <= k && start <= |text|
        invariant LinesDown(text, 0, if n > 0 then n - 1 else 0) == LinesDown(text, start, if n > k then n - k else 0)
      {
        var le := LineEnd(text, start);
        if le == |text| { break; }
        start := le + 1;
        k := k + 1;
      }
      cursor := start;
    }

    method ReplaceAll(q: string, r: string)
      modifies this
      ensures View() == T.ReplaceAll(old(View()), q, r)
    {
      if q == "" { return; }
      Snapshot();
      text := Replaced(text, q, r);
      cursor := Clamp(cursor, |text|);
    }
  }

  /** The place `col` characters after `start`, but not beyond `end`. */
  method NthCol(start: nat, end: nat, col: nat) returns (p: nat)
    ensures p == Clamp(start + col, end)
  {
    p := start;
    for i := 0 to col
      invariant p == if start + i <= end then start + i else if start <= end then end else start
    {
      if p >= end { break; }
      p := p + 1;
    }
    p := Clamp(p, end);
  }

  // ----- sessions -----

  datatype Op =
    | Type(ch: char) | Enter | Back | Del | Pasted(s: string)
    | UndoKey | RedoKey | Left | Right | HomeKey | EndKey | Tab
    | Vert(up: bool) | Goto(line: nat) | Search(q: string) | Replace(q: string, r: string)

  function Apply(s: State, op: Op): State
    requires s.cursor <= |s.text|
  {
    match op
    case Type(ch) => TypeChar(s, ch)
    case Enter => Newline(s)
    case Back => Backspace(s)
    case Del => T.Remove(s)
    case Pasted(t) => Paste(s, t)
    case UndoKey => Undo(s)
    case RedoKey => Redo(s)
    case Left => MoveLeft(s)
    case Right => MoveRight(s)
    case HomeKey => Home(s)
    case EndKey => EndOfLine(s)
    case Tab => TabKey(s)
    case Vert(up) => MoveVert(s, up)
    case Goto(n) => GotoLine(s, n)
    case Search(q) => FindNext(s, q, s.cursor)
    case Replace(q, r) => ReplaceAll(s, q, r)
  }

  ghost predicate SnapsOk(snaps: seq<Snap>) { forall i | 0 <= i < |snaps| :: snaps[i].cursor <= |snaps[i].text| }

  /** Every cursor is within its text, the history is bounded, and while typing is pending
      there is nothing to redo. */
  ghost predicate Valid(s: State) {
    && s.cursor <= |s.text| && SnapsOk(s.undo) && SnapsOk(s.redo)
    && |s.undo| + |s.redo| <= HISTORY && (s.typing ==> s.redo == [])
  }

  lemma {:induction false} SnapshotKeeps(s: State)
    requires Valid(s)
    ensures Valid(Snapshot(s)) && Snapshot(s).redo == []
  {
  }

  lemma {:induction false} InsertKeeps(s: State, ins: string)
    requires Valid(s)
    ensures Valid(Insert(s, ins)) && Insert(s, ins).redo == s.redo && Insert(s, ins).undo == s.undo
  {
  }

  lemma {:induction false} ApplyKeeps(s: State, op: Op)
    requires Valid(s)
    ensures Valid(Apply(s, op))
  {
    SnapshotKeeps(s);
    match op {
      case Type(ch) => InsertKeeps(if s.typing then s else Snapshot(s).(typing := true), [ch]);
      case Enter => InsertKeeps(Snapshot(s).(typing := false),
        "\n" + Indent(s.text[LineStart(s.text, s.cursor)..s.cursor]) + Extra(s.text[..s.cursor]));
      case Pasted(t) => InsertKeeps(Snapshot(s).(typing := false), Cleaned(t));
      case Tab => InsertKeeps(Snapshot(s), TAB);
      case _ =>
    }
  }

  ghost function Session(s: State, ops: seq<Op>): State
    requires Valid(s)
    decreases |ops|
  {
    if ops == [] then s
    else
      ApplyKeeps(s, ops[0]);
      Session(Apply(s, ops[0]), ops[1..])
  }

  lemma {:induction false} SessionsValid(text: string, ops: seq<Op>)
    ensures Valid(State(text, 0, [], [], false)) && Valid(Session(State(text, 0, [], [], false), ops))
  {
    SessionValid(State(text, 0, [], [], false), ops);
  }

  lemma {:induction false} SessionValid(s: State, ops: seq<Op>)
    requires Valid(s)
    ensures Valid(Session(s, ops))
    decreases |ops|
  {
    if ops != [] {
      ApplyKeeps(s, ops[0]);
      SessionValid(Apply(s, ops[0]), ops[1..]);
    }
  }

  // ----- undo and redo -----

  function Undos(s: State, k: nat): State
    decreases k
  {
    if k == 0 then s else Undos(Undo(s), k - 1)
  }

  function Redos(s: State, k: nat): State { if k == 0 then s else Redo(Redos(s, k - 1)) }

  lemma {:induction false} UndoRedo(s: State)
    requires Valid(s) && s.undo != []
    ensures Valid(Undo(s)) && Redo(Undo(s)) == s.(typing := false)
  {
    var n := |s.undo| - 1;
    assert s.undo[..n] + [s.undo[n]] == s.undo;
    assert (s.redo + [Snap(s.text, s.cursor)])[..|s.redo|] == s.redo;
  }

  /** As many redos as undos restore the text, the cursor and both stacks. */
  lemma {:induction false} UndosRedos(s: State, k: nat)
    requires Valid(s) && k <= |s.undo|
    ensures Redos(Undos(s, k), k) == if k == 0 then s else s.(typing := false)
    decreases k
  {
    if k > 0 {
      UndoRedo(s);
      UndosRedos(Undo(s), k - 1);
      assert Undo(s).(typing := false) == Undo(s);
    }
  }

  /** The edits that take a snapshot of their own. */
  predicate Snaps(s: State, op: Op) {
    match op
    case Type(_) => !s.typing
    case Enter => true
    case Back => s.cursor > 0
    case Del => s.cursor < |s.text|
    case Pasted(_) => true
    case Tab => true
    case Replace(q, _) => q != ""
    case _ => false
  }

  function Older(undo: seq<Snap>): seq<Snap> { if |undo| == HISTORY then undo[1..] else undo }

  lemma {:induction false} EditHistory(s: State, op: Op)
    requires Valid(s) && Snaps(s, op)
    ensures Apply(s, op).undo == Older(s.undo) + [Snap(s.text, s.cursor)] && Apply(s, op).redo == []
  {
    hide LineStart, Indent, Extra, Cleaned, Replaced;
    var snap := [Snap(s.text, s.cursor)];
    assert Capped(s.undo + snap) == Older(s.undo) + snap;
  }

  lemma {:induction false} UndoLast(s: State, older: seq<Snap>, snap: Snap)
    requires s.undo == older + [snap] && s.redo == [] && snap.cursor <= |snap.text|
    ensures Undo(s) == State(snap.text, snap.cursor, older, [Snap(s.text, s.cursor)], false)
  {
    assert s.undo[..|older|] == older;
  }

  /** Undoing an edit restores the text and the cursor exactly, and the older history, of
      which a full stack loses its oldest entry. */
  lemma {:induction false} EditUndone(s: State, op: Op)
    requires Valid(s) && Snaps(s, op)
    ensures var done := Apply(s, op);
            Undo(done) == State(s.text, s.cursor, Older(s.undo), [Snap(done.text, done.cursor)], false)
  {
    EditHistory(s, op);
    UndoLast(Apply(s, op), Older(s.undo), Snap(s.text, s.cursor));
  }

  function TypeAll(s: State, chars: string): State
    requires s.cursor <= |s.text|
    decreases |chars|
  {
    if chars == "" then s else TypeAll(TypeChar(s, chars[0]), chars[1..])
  }

  lemma {:induction false} TypingOn(s: State, chars: string)
    requires s.cursor <= |s.text| && s.typing
    ensures var t := TypeAll(s, chars); t.undo == s.undo && t.redo == s.redo && t.typing && t.cursor <= |t.text|
    decreases |chars|
  {
    if chars != "" { TypingOn(TypeChar(s, chars[0]), chars[1..]); }
  }

  /** A whole run of typed characters is undone at once. */
  lemma {:induction false} TypingUndone(s: State, chars: string)
    requires Valid(s) && !s.typing && chars != ""
    ensures var typed := TypeAll(s, chars);
            Undo(typed) == State(s.text, s.cursor, Older(s.undo), [Snap(typed.text, typed.cursor)], false)
  {
    EditHistory(s, Type(chars[0]));
    TypingOn(TypeChar(s, chars[0]), chars[1..]);
    UndoLast(TypeAll(s, chars), Older(s.undo), Snap(s.text, s.cursor));
  }

  /** Typing stays within the size limit, except that a closing bracket is added even when
      the limit leaves no room for it. */
  lemma {:induction false} TypingFits(s: State, ch: char)
    requires s.cursor <= |s.text| <= MAX
    ensures |TypeChar(s, ch).text| <= MAX <==> !(Closing(ch).Some? && |s.text| + 1 >= MAX)
  {
  }

  /** A full text gains nothing but the closing bracket. */
  lemma {:induction false} FullTextGrows(s: State)
    requires |s.text| == MAX && s.cursor == MAX && !s.typing
    ensures TypeChar(s, '(').text == s.text + [')']
  {
    assert Insert(Snapshot(s).(typing := true), ['(']).text == s.text;
  }

  // ----- vertical moves -----

  lemma {:induction false} LineOf(text: string, start: nat, end: nat, at: nat)
    requires start <= at <= end <= |text| && (start > 0 ==> text[start - 1] == '\n') &&
             (end < |text| ==> text[end] == '\n')
    requires forall i | start <= i < end :: text[i] != '\n'
    ensures LineStart(text, at) == start && LineEnd(text, at) == end
  {
  }

  /** Moving up or down goes to the neighbouring line, to the same column or, if it is
      shorter, to its end. */
  lemma {:induction false} VertKeepsColumn(s: State, up: bool)
    requires s.cursor <= |s.text|
    requires if up then LineStart(s.text, s.cursor) > 0 else LineEnd(s.text, s.cursor) < |s.text|
    ensures var t := MoveVert(s, up);
            var start := if up then LineStart(s.text, LineStart(s.text, s.cursor) - 1)
              else LineEnd(s.text, s.cursor) + 1;
            var end := if up then LineStart(s.text, s.cursor) - 1 else LineEnd(s.text, LineEnd(s.text, s.cursor) + 1);
            && t.text == s.text && t.cursor <= |t.text|
            && LineStart(t.text, t.cursor) == start && LineEnd(t.text, t.cursor) == end
            && Column(t) == Clamp(Column(s), end - start)
  {
    hide LineStart, LineEnd;
    var t := MoveVert(s, up);
    if up {
      var ls := LineStart(s.text, s.cursor);
      LineOf(s.text, LineStart(s.text, ls - 1), ls - 1, t.cursor);
    } else {
      var le := LineEnd(s.text, s.cursor);
      LineOf(s.text, le + 1, LineEnd(s.text, le + 1), t.cursor);
    }
  }
}
