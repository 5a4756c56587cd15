/** The editor's edits as functions of its state. Text is ASCII, so that characters and bytes
    agree, as they do for everything the editor opens, pastes or types. */
module EditorText {
  import opened Bytes

  const MAX: nat := 64 * 1024
  const HISTORY: nat := 200

  datatype Snap = Snap(text: string, cursor: nat)

  datatype State = State(text: string, cursor: nat, undo: seq<Snap>, redo: seq<Snap>, typing: bool)

  // ----- history -----

  function Capped(undo: seq<Snap>): seq<Snap> { if |undo| > HISTORY then undo[1..] else undo }

  function Snapshot(s: State): State {
    s.(undo := Capped(s.undo + [Snap(s.text, s.cursor)]), redo := [])
  }

  function Clamp(n: nat, max: nat): nat { if n <= max then n else max }

  function Undo(s: State): State {
    if s.undo == [] then s
    else
      var n := |s.undo| - 1;
      var snap := s.undo[n];
      State(snap.text, Clamp(snap.cursor, |snap.text|), s.undo[..n], s.redo + [Snap(s.text, s.cursor)], false)
  }

  function Redo(s: State): State {
    if s.redo == [] then s
    else
      var n := |s.redo| - 1;
      var snap := s.redo[n];
      State(snap.text, Clamp(snap.cursor, |snap.text|), s.undo + [Snap(s.text, s.cursor)], s.redo[..n], false)
  }

  // ----- edits -----

  function Splice(text: string, at: nat, ins: string): string
    requires at <= |text|
  {
    text[..at] + ins + text[at..]
  }

  function Insert(s: State, ins: string): State {
    if |s.text| + |ins| > MAX then s
    else
      var at := Clamp(s.cursor, |s.text|);
      s.(text := Splice(s.text, at, ins), cursor := at + |ins|)
  }

  function Closing(ch: char): Option<char> {
    if ch == '(' then Some(')')
    else if ch == '[' then Some(']')
    else if ch == '{' then Some('}')
    else if ch == '"' then Some('"')
    else if ch == '\'' then Some('\'')
    else None
  }

  function TypeChar(s: State, ch: char): State
    requires s.cursor <= |s.text|
  {
    var s1 := Insert(if s.typing then s else Snapshot(s).(typing := true), [ch]);
    if Closing(ch).Some? then s1.(text := Splice(s1.text, s1.cursor, [Closing(ch).value])) else s1
  }

  function LineStart(text: string, at: nat): (r: nat)
    requires at <= |text|
    ensures r <= at && (r > 0 ==> text[r - 1] == '\n') && forall i | r <= i < at :: text[i] != '\n'
  {
    if at == 0 || text[at - 1] == '\n' then at else LineStart(text, at - 1)
  }

  function LineEnd(text: string, at: nat): (r: nat)
    requires at <= |text|
    ensures at <= r <= |text| && (r < |text| ==> text[r] == '\n') && forall i | at <= i < r :: text[i] != '\n'
    decreases |text| - at
  {
    if at == |text| || text[at] == '\n' then at else LineEnd(text, at + 1)
  }

  function Indent(line: string): string {
    if line != "" && (line[0] == ' ' || line[0] == '\t') then [line[0]] + Indent(line[1..]) else ""
  }

  function Extra(before: string): string {
    if before != "" && before[|before| - 1] in "{([:" then "    " else ""
  }

  function Newline(s: State): State
    requires s.cursor <= |s.text|
  {
    var ins := "\n" + Indent(s.text[LineStart(s.text, s.cursor)..s.cursor]) + Extra(s.text[..s.cursor]);
    Insert(Snapshot(s).(typing := false), ins)
  }

  function Backspace(s: State): State
    requires s.cursor <= |s.text|
  {
    if s.cursor == 0 then s
    else Snapshot(s).(typing := false, text := s.text[..s.cursor - 1] + s.text[s.cursor..], cursor := s.cursor - 1)
  }

  function Remove(s: State): State {
    if s.cursor >= |s.text| then s
    else Snapshot(s).(typing := false, text := s.text[..s.cursor] + s.text[s.cursor + 1..])
  }

  predicate Plain(ch: char) { ch == '\n' || ch == '\t' || ' ' <= ch <= '~' }

  function Cleaned(text: string): string {
    if text == "" then "" else (if Plain(text[0]) then [text[0]] else "") + Cleaned(text[1..])
  }

  function Paste(s: State, text: string): State { Insert(Snapshot(s).(typing := false), Cleaned(text)) }

  const TAB: string := "    "

  function TabKey(s: State): State { Insert(Snapshot(s), TAB).(typing := false) }

  // ----- search -----

  /** The first place of `q` at or after `at`. */
  function FindFrom(text: string, q: string, at: nat): (r: Option<nat>)
    requires at <= |text|
    ensures r.Some? ==> at <= r.value && r.value + |q| <= |text| && text[r.value..r.value + |q|] == q
    decreases |text| - at
  {
    if at + |q| > |text| then None
    else if text[at..at + |q|] == q then Some(at)
    else if at == |text| then None
    else FindFrom(text, q, at + 1)
  }

  function FindNext(s: State, q: string, from: nat): State
    requires from <= |s.text|
  {
    if q == "" then s
    else match FindFrom(s.text, q, from)
      case Some(i) => s.(cursor := i + |q|)
      case None =>
        match FindFrom(s.text, q, 0)
        case Some(i) => s.(cursor := i + |q|)
        case None => s
  }

  function Replaced(text: string, q: string, r: string): string
    requires q != ""
    decreases |text|
  {
    if text == "" then ""
    else if |text| >= |q| && text[..|q|] == q then r + Replaced(text[|q|..], q, r)
    else [text[0]] + Replaced(text[1..], q, r)
  }

  /** The edit keeps `typing` as it was. */
  function ReplaceAll(s: State, q: string, r: string): State {
    if q == "" then s
    else
      var text := Replaced(s.text, q, r);
      Snapshot(s).(text := text, cursor := Clamp(s.cursor, |text|))
  }

  // ----- moves -----

  function MoveLeft(s: State): State { s.(cursor := if s.cursor > 0 then s.cursor - 1 else 0, typing := false) }

  function MoveRight(s: State): State {
    s.(cursor := if s.cursor < |s.text| then s.cursor + 1 else s.cursor, typing := false)
  }

  function Home(s: State): State
    requires s.cursor <= |s.text|
  {
    s.(cursor := LineStart(s.text, s.cursor), typing := false)
  }

  function EndOfLine(s: State): State
    requires s.cursor <= |s.text|
  {
    s.(cursor := LineEnd(s.text, s.cursor), typing := false)
  }

  function Column(s: State): nat
    requires s.cursor <= |s.text|
  {
    s.cursor - LineStart(s.text, s.cursor)
  }

  /** On the first line up, and on the last line down, nothing happens at all. */
  function MoveVert(s: State, up: bool): State
    requires s.cursor <= |s.text|
  {
    if up then
      var ls := LineStart(s.text, s.cursor);
      if ls == 0 then s else s.(cursor := Clamp(LineStart(s.text, ls - 1) + Column(s), ls - 1), typing := false)
    else
      var le := LineEnd(s.text, s.cursor);
      if le >= |s.text| then s else s.(cursor := Clamp(le + 1 + Column(s), LineEnd(s.text, le + 1)), typing := false)
  }

  /** The start of the line `n` lines below `start`, or of the last line. */
  function LinesDown(text: string, start: nat, n: nat): (r: nat)
    requires start <= |text|
    ensures start <= r <= |text|
    decreases n
  {
    if n == 0 then start
    else
      var le := LineEnd(text, start);
      if le == |text| then start else LinesDown(text, le + 1, n - 1)
  }

  function GotoLine(s: State, n: nat): State { s.(cursor := LinesDown(s.text, 0, if n > 0 then n - 1 else 0)) }
}
