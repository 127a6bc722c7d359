/** What Enter makes of a line, in literal code points: markers, the line handed out, the history, whole messages. */
module EditorLines {
  import opened Wrappers
  import opened LineHistory
  import opened EditorSpec

  predicate EndsIn(text: Text, c: nat) {
    text != [] && text[|text| - 1] == c
  }

  function WithoutLast(text: Text): Text {
    if text == [] then [] else text[..|text| - 1]
  }

  /** The typed text without its marker; a single space before a slash is dropped as well. */
  function Typed(text: Text): Text {
    if EndsIn(text, 0x5C) then WithoutLast(text)
    else if EndsIn(text, 0x2F) then if WithoutLast(text) == [0x20] then [] else WithoutLast(text)
    else text
  }

  /** A backslash reverses whether more lines follow, a slash ends the message. */
  function GoesOn(text: Text, multiline: bool): bool {
    if EndsIn(text, 0x5C) then !multiline else if EndsIn(text, 0x2F) then false else multiline
  }

  /** A new entry ends viewing; it is stored unless it is the newest one already. Nothing happens for an empty one. */
  predicate Stores(before: History<Text>, line: Text, after: History<Text>) {
    if line == [] then after == before
    else
      && after.viewing == None && after.backup == []
      && after.entries == if EndsWithEntry(before, line) then before.entries else before.entries + [line]
  }

  predicate EndsWithEntry(h: History<Text>, line: Text) {
    h.entries != [] && h.entries[|h.entries| - 1] == line
  }

  /** Enter hands out and stores the typed text; a line break that was part of that text itself is lost as well. */
  lemma EnterSubmits(e: Editor, multiline: bool)
    requires e.Valid()
    ensures var r := Submit(e, false, multiline);
      && r.hasMore == GoesOn(e.text, multiline)
      && r.line == (if EndsIn(e.text, 0x2F) && EndsIn(Typed(e.text), 0x0A) then WithoutLast(Typed(e.text))
                    else Typed(e.text))
      && Stores(e.history, r.line, r.history)
  {
    var text := e.text;
    assert text + [0x0A] != [] && (text + [0x0A])[..|text|] == text;
    if EndsIn(text, 0x5C) {
      var body := text[..|text| - 1];
      assert (body + [0x0A])[..|body|] == body;
    }
  }

  /** The end of the input hands out the text with its markers carried out, stores nothing and ends the message. */
  lemma EndOfStreamSubmits(e: Editor, multiline: bool)
    requires e.Valid()
    ensures var r := Submit(e, true, multiline);
      && r.line == Typed(e.text) + (if EndsIn(e.text, 0x5C) then [0x0A] else [])
      && r.history == e.history && (r.hasMore <==> EndsIn(e.text, 0x5C) && !multiline)
  {
    assert e.text + [] == e.text;
  }

  // ---- messages of several lines -------------------------------------------------------------

  /** The lines that are read until control is returned, or all of them if it is not. */
  function LinesRead(h: History<Text>, lines: seq<Text>, multiline: bool): (r: (nat, seq<Text>, History<Text>))
    requires h.Valid()
    ensures r.2.Valid()
    decreases |lines|
  {
    if lines == [] then (0, [], h)
    else
      var s := Submit(Editor(lines[0], |lines[0]|, h), false, multiline);
      if !s.hasMore then (1, [s.line], s.history)
      else
        var (n, more, after) := LinesRead(s.history, lines[1..], multiline);
        (n + 1, [s.line] + more, after)
  }

  /**
   Without multi-line input a message goes on exactly as long as its lines end in a backslash; with it, it ends with
   the first line that ends in a backslash or a slash. Each line is handed out without its marker.
   */
  lemma {:induction false} MessageEnds(h: History<Text>, lines: seq<Text>, multiline: bool)
    requires h.Valid() && forall i :: 0 <= i < |lines| ==> 0x0A !in lines[i]
    ensures var (n, read, _) := LinesRead(h, lines, multiline);
      && n <= |lines| && |read| == n
      && (forall i :: 0 <= i < n ==> read[i] == Typed(lines[i]))
      && (forall i :: 0 <= i < n - 1 ==> GoesOn(lines[i], multiline))
      && (n < |lines| ==> n > 0 && !GoesOn(lines[n - 1], multiline))
    decreases |lines|
  {
    hide Submit, GoesOn, Typed;
    if lines != [] {
      var e := Editor(lines[0], |lines[0]|, h);
      EnterSubmits(e, multiline);
      NoBreakTyped(lines[0]);
      MessageEnds(Submit(e, false, multiline).history, lines[1..], multiline);
    }
  }

  lemma NoBreakTyped(text: Text)
    requires 0x0A !in text
    ensures !EndsIn(Typed(text), 0x0A)
  {
  }

  // ---- the simple mode -----------------------------------------------------------------------

  /** readline_simple behind reading a line: no history, no editing, and the line break stays. */
  method ReadlineSimple(typed: Text, multilineInput: bool) returns (line: Text, hasMore: bool)
    ensures hasMore == GoesOn(typed, multilineInput)
    ensures line == SimpleLine(typed)
  {
    line, hasMore := typed, multilineInput;
    if line != [] {
      var last := line[|line| - 1];
      if last == SLASH {
        line := line[..|line| - 1];
        return line, false;
      }
      if last == BACKSLASH {
        line := line[..|line| - 1];
        hasMore := !hasMore;
      }
    }
    line := line + [0x0A];
  }

  function SimpleLine(typed: Text): Text {
    if EndsIn(typed, 0x2F) then WithoutLast(typed)
    else (if EndsIn(typed, 0x5C) then WithoutLast(typed) else typed) + [0x0A]
  }

  /** The two modes agree on whether more follows, and on the line exactly if it ends in a slash and not in " /". */
  lemma ModesAgreeIff(e: Editor, multiline: bool)
    requires e.Valid() && 0x0A !in e.text
    ensures var r := Submit(e, false, multiline);
      && r.hasMore == GoesOn(e.text, multiline)
      && (r.line == SimpleLine(e.text) <==> EndsIn(e.text, 0x2F) && e.text != [0x20, 0x2F])
  {
    hide Submit;
    EnterSubmits(e, multiline);
    NoBreakTyped(e.text);
    if EndsIn(e.text, 0x2F) {
      assert e.text == WithoutLast(e.text) + [0x2F];
    }
  }
}
