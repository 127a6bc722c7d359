/**
 The line editor as a user sees it: a sequence of code points with one cursor, and the history. Every
 command is an edit of that pair; LineEditor.dfy proves the byte-level code equal to these edits.
 */
module EditorSpec {
  import opened Wrappers
  import opened Utf8
  import opened LineHistory

  type Text = seq<CodePoint>

  datatype Editor = Editor(text: Text, cursor: nat, history: History<Text>) {
    predicate Valid() {
      cursor <= |text| && history.Valid()
    }
  }

  datatype Command =
    | Insert(c: CodePoint)
    | Backspace
    | Delete
    | Left
    | Right
    | WordLeft
    | WordRight
    | Home
    | End
    | Up
    | Down

  /** Where the run of spaces (or of non-spaces) that ends at `k` begins. */
  function RunStart(text: Text, k: nat, isSpace: nat -> bool, spaces: bool): (r: nat)
    requires k <= |text|
    ensures r <= k
  {
    if k > 0 && isSpace(text[k - 1]) == spaces then RunStart(text, k - 1, isSpace, spaces) else k
  }

  /** Where the run of spaces (or of non-spaces) that begins at `k` ends. */
  function RunEnd(text: Text, k: nat, isSpace: nat -> bool, spaces: bool): (r: nat)
    requires k <= |text|
    ensures k <= r <= |text|
    decreases |text| - k
  {
    if k < |text| && isSpace(text[k]) == spaces then RunEnd(text, k + 1, isSpace, spaces) else k
  }

  function ShowLine(e: Editor, line: Option<Text>, history: History<Text>): Editor {
    match line
    case None => e.(history := history)
    case Some(text) => Editor(text, |text|, history)
  }

  function Step(e: Editor, cmd: Command, isSpace: nat -> bool): (r: Editor)
    requires e.Valid()
    ensures r.Valid()
  {
    var (text, k) := (e.text, e.cursor);
    match cmd
    case Insert(c) => e.(text := text[..k] + [c] + text[k..], cursor := k + 1)
    case Backspace => if k == 0 then e else e.(text := text[..k - 1] + text[k..], cursor := k - 1)
    case Delete => if k == |text| then e else e.(text := text[..k] + text[k + 1..])
    case Left => if k == 0 then e else e.(cursor := k - 1)
    case Right => if k == |text| then e else e.(cursor := k + 1)
    case WordLeft => e.(cursor := RunStart(text, RunStart(text, k, isSpace, true), isSpace, false))
    case WordRight =>
      e.(cursor := RunEnd(text, RunEnd(text, RunEnd(text, k, isSpace, true), isSpace, false), isSpace, true))
    case Home => e.(cursor := 0)
    case End => e.(cursor := |text|)
    case Up =>
      var h := if e.history.viewing == None then BeginViewing(e.history, text) else e.history;
      var (h', line) := Prev(h);
      ShowLine(e, line, h')
    case Down =>
      if e.history.viewing == None then e
      else
        var (h, line) := Next(e.history, []);
        ShowLine(e, line, h)
  }

  const NEWLINE: CodePoint := 0x0A
  const SPACE: CodePoint := 0x20
  const SLASH: CodePoint := 0x2F
  const BACKSLASH: CodePoint := 0x5C

  /** A last backslash or slash is a marker that tells readline how to go on. */
  predicate EndsInMarker(text: Text) {
    text != [] && (text[|text| - 1] == BACKSLASH || text[|text| - 1] == SLASH)
  }

  /** What readline_advanced hands to its caller: the line, whether more is expected, and the history. */
  datatype Submission = Submission(line: Text, hasMore: bool, history: History<Text>)

  function Unmarked(text: Text, endOfStream: bool): Text {
    if EndsInMarker(text) then
      var body := text[..|text| - 1];
      if text[|text| - 1] == BACKSLASH then body + [NEWLINE] else if body == [SPACE] then [] else body
    else if endOfStream then text
    else text + [NEWLINE]
  }

  function Submit(e: Editor, endOfStream: bool, multiline: bool): (r: Submission)
    requires e.Valid()
    ensures r.history.Valid()
  {
    var line := Unmarked(e.text, endOfStream);
    var hasMore := if EndsInMarker(e.text) then e.text[|e.text| - 1] == BACKSLASH && !multiline
                   else !endOfStream && multiline;
    if endOfStream || line == [] then Submission(line, hasMore, e.history)
    else
      var entry := if line[|line| - 1] == NEWLINE then line[..|line| - 1] else line;
      Submission(entry, hasMore, Add(e.history, entry, []))
  }

  /** A key press, or Enter followed by the next line. */
  datatype Event = Key(cmd: Command) | Enter(multiline: bool)

  function React(e: Editor, event: Event, isSpace: nat -> bool): (r: Editor)
    requires e.Valid()
    ensures r.Valid()
  {
    match event
    case Key(cmd) => Step(e, cmd, isSpace)
    case Enter(multiline) => Editor([], 0, Submit(e, false, multiline).history)
  }

  function Session(e: Editor, events: seq<Event>, isSpace: nat -> bool): (r: Editor)
    requires e.Valid()
    ensures r.Valid()
    decreases |events|
  {
    if events == [] then e else Session(React(e, events[0], isSpace), events[1..], isSpace)
  }
}
