/** What users rely on: laws that relate several commands of the editor, over any text and any run. */
module EditorLaws {
  import opened Wrappers
  import opened Utf8
  import opened LineHistory
  import opened EditorSpec

  function Times(e: Editor, cmd: Command, k: nat, isSpace: nat -> bool): (r: Editor)
    requires e.Valid()
    ensures r.Valid()
  {
    if k == 0 then e else Step(Times(e, cmd, k - 1, isSpace), cmd, isSpace)
  }

  function Type(e: Editor, typed: Text, isSpace: nat -> bool): (r: Editor)
    requires e.Valid()
    ensures r.Valid()
  {
    if typed == [] then e
    else Step(Type(e, typed[..|typed| - 1], isSpace), Insert(typed[|typed| - 1]), isSpace)
  }

  /** Typing inserts the typed text at the cursor and leaves the cursor behind it. */
  lemma {:induction false} TypingInserts(e: Editor, typed: Text, isSpace: nat -> bool)
    requires e.Valid()
    ensures Type(e, typed, isSpace)
         == e.(text := e.text[..e.cursor] + typed + e.text[e.cursor..], cursor := e.cursor + |typed|)
  {
    var (k, n) := (e.cursor, |typed|);
    if n == 0 {
      assert e.text == e.text[..k] + typed + e.text[k..];
    } else {
      TypingInserts(e, typed[..n - 1], isSpace);
      var mid := e.text[..k] + typed[..n - 1] + e.text[k..];
      assert mid[..k + n - 1] == e.text[..k] + typed[..n - 1];
      assert mid[k + n - 1..] == e.text[k..];
      assert typed[..n - 1] + [typed[n - 1]] == typed;
    }
  }

  /** As many backspaces as code points were typed undo the typing, wherever the cursor was. */
  lemma {:induction false} BackspacesUndoTyping(e: Editor, typed: Text, isSpace: nat -> bool)
    requires e.Valid()
    ensures Times(Type(e, typed, isSpace), Backspace, |typed|, isSpace) == e
  {
    var (k, n) := (e.cursor, |typed|);
    TypingInserts(e, typed, isSpace);
    Erased(e, typed, n, isSpace);
    assert e.text[..k] + typed[..0] + e.text[k..] == e.text;
  }

  lemma {:induction false} Erased(e: Editor, typed: Text, j: nat, isSpace: nat -> bool)
    requires e.Valid() && j <= |typed|
    ensures Times(Type(e, typed, isSpace), Backspace, j, isSpace)
         == e.(text := e.text[..e.cursor] + typed[..|typed| - j] + e.text[e.cursor..], cursor := e.cursor + |typed| - j)
  {
    hide Step, Type;
    var (k, n) := (e.cursor, |typed|);
    TypingInserts(e, typed, isSpace);
    if j == 0 {
      assert typed[..n] == typed;
    } else {
      Erased(e, typed, j - 1, isSpace);
      var left := e.text[..k] + typed[..n - j];
      assert typed[..n - j + 1] == typed[..n - j] + [typed[n - j]];
      assert e.text[..k] + typed[..n - j + 1] == left + [typed[n - j]];
      BackspaceRemoves(e, left, typed[n - j], e.text[k..], isSpace);
    }
  }

  lemma BackspaceRemoves(e: Editor, left: Text, c: CodePoint, right: Text, isSpace: nat -> bool)
    requires e.Valid()
    ensures Step(e.(text := left + [c] + right, cursor := |left| + 1), Backspace, isSpace)
         == e.(text := left + right, cursor := |left|)
  {
    var text := left + [c] + right;
    assert text[..|left|] == left && text[|left| + 1..] == right;
  }

  /** Delete is Right and Backspace, and nothing at the end of the line; Left undoes Right. */
  lemma DeleteByBackspace(e: Editor, isSpace: nat -> bool)
    requires e.Valid()
    ensures Step(e, Delete, isSpace)
         == if e.cursor < |e.text| then Step(Step(e, Right, isSpace), Backspace, isSpace) else e
    ensures Step(Step(e, Right, isSpace), Left, isSpace)
         == if e.cursor < |e.text| || e.text == [] then e else Step(e, Left, isSpace)
  {
  }

  /** What is typed behind Home stands before the line, and what is typed behind End follows it. */
  lemma TypingAtTheEnds(e: Editor, typed: Text, isSpace: nat -> bool)
    requires e.Valid()
    ensures Type(Step(e, Home, isSpace), typed, isSpace) == e.(text := typed + e.text, cursor := |typed|)
    ensures Type(Step(e, End, isSpace), typed, isSpace) == e.(text := e.text + typed, cursor := |e.text| + |typed|)
  {
    hide Type, Step;
    HomeAndEnd(e, isSpace);
    TypingInserts(e.(cursor := 0), typed, isSpace);
    TypingInserts(e.(cursor := |e.text|), typed, isSpace);
    TypedAtTheEnds(e.text, typed);
  }

  lemma TypedAtTheEnds(text: Text, typed: Text)
    ensures text[..0] + typed + text[0..] == typed + text
    ensures text[..|text|] + typed + text[|text|..] == text + typed
  {
    assert text[..0] == [] && text[0..] == text && text[..|text|] == text && text[|text|..] == [];
    assert [] + typed == typed && text + typed + [] == text + typed;
  }

  lemma HomeAndEnd(e: Editor, isSpace: nat -> bool)
    requires e.Valid()
    ensures Step(e, Home, isSpace) == e.(cursor := 0) && Step(e, End, isSpace) == e.(cursor := |e.text|)
  {
  }

  /** Within the line, k steps to the left and k to the right come back. */
  lemma {:induction false} LeftsMove(e: Editor, k: nat, isSpace: nat -> bool)
    requires e.Valid() && k <= e.cursor
    ensures Times(e, Left, k, isSpace) == e.(cursor := e.cursor - k)
    ensures Times(Times(e, Left, k, isSpace), Right, k, isSpace) == e
  {
    hide Step;
    LeftsOnly(e, k, isSpace);
    RightsOnly(e.(cursor := e.cursor - k), k, isSpace);
  }

  lemma {:induction false} LeftsOnly(e: Editor, k: nat, isSpace: nat -> bool)
    requires e.Valid() && k <= e.cursor
    ensures Times(e, Left, k, isSpace) == e.(cursor := e.cursor - k)
  {
    if k > 0 {
      LeftsOnly(e, k - 1, isSpace);
    }
  }

  lemma {:induction false} RightsOnly(e: Editor, k: nat, isSpace: nat -> bool)
    requires e.Valid() && e.cursor + k <= |e.text|
    ensures Times(e, Right, k, isSpace) == e.(cursor := e.cursor + k)
  {
    if k > 0 {
      RightsOnly(e, k - 1, isSpace);
    }
  }

  lemma {:induction false} RunStartSpec(text: Text, k: nat, isSpace: nat -> bool, spaces: bool)
    requires k <= |text|
    ensures var r := RunStart(text, k, isSpace, spaces);
      && (forall i :: r <= i < k ==> isSpace(text[i]) == spaces)
      && (r > 0 ==> isSpace(text[r - 1]) != spaces)
  {
    if k > 0 && isSpace(text[k - 1]) == spaces {
      RunStartSpec(text, k - 1, isSpace, spaces);
    }
  }

  lemma {:induction false} RunEndSpec(text: Text, k: nat, isSpace: nat -> bool, spaces: bool)
    requires k <= |text|
    ensures var r := RunEnd(text, k, isSpace, spaces);
      && (forall i :: k <= i < r ==> isSpace(text[i]) == spaces)
      && (r < |text| ==> isSpace(text[r]) != spaces)
    decreases |text| - k
  {
    if k < |text| && isSpace(text[k]) == spaces {
      RunEndSpec(text, k + 1, isSpace, spaces);
    }
  }

  predicate WordStart(text: Text, k: nat, isSpace: nat -> bool) {
    k < |text| && !isSpace(text[k]) && (k > 0 ==> isSpace(text[k - 1]))
  }

  /** Word-left goes to the last word start before the cursor, or home if there is none. */
  lemma WordLeftFindsWord(e: Editor, isSpace: nat -> bool)
    requires e.Valid()
    ensures var r := Step(e, WordLeft, isSpace).cursor;
      && r <= e.cursor
      && (WordStart(e.text, r, isSpace) || r == 0)
      && (forall i :: r < i < e.cursor ==> !WordStart(e.text, i, isSpace))
  {
    var m := RunStart(e.text, e.cursor, isSpace, true);
    RunStartSpec(e.text, e.cursor, isSpace, true);
    RunStartSpec(e.text, m, isSpace, false);
  }

  /**
   Word-right goes to a word start or to the end. It passes no word start if the cursor is within a word,
   and only the start of the word it skips if the cursor is on white space.
   */
  lemma WordRightFindsWord(e: Editor, isSpace: nat -> bool)
    requires e.Valid()
    ensures var r := Step(e, WordRight, isSpace).cursor;
      && e.cursor <= r
      && (r == |e.text| || (e.cursor < r && WordStart(e.text, r, isSpace)))
      && (forall i :: e.cursor < i < r && WordStart(e.text, i, isSpace) ==>
            forall j :: e.cursor <= j < i ==> isSpace(e.text[j]))
  {
    var a := RunEnd(e.text, e.cursor, isSpace, true);
    var b := RunEnd(e.text, a, isSpace, false);
    RunEndSpec(e.text, e.cursor, isSpace, true);
    RunEndSpec(e.text, a, isSpace, false);
    RunEndSpec(e.text, b, isSpace, true);
  }

  /** The editor while it shows entry v of the history and remembers the line that was being edited. */
  function Viewed(e: Editor, line: Text, v: nat): Editor
    requires v < |e.history.entries|
  {
    var entry := e.history.entries[v];
    Editor(entry, |entry|, e.history.(viewing := Some(v), backup := line))
  }

  /** The state after j presses of Up, the first of which begins to view the history. */
  lemma {:induction false} AfterUps(e: Editor, j: nat, isSpace: nat -> bool)
    requires e.Valid() && e.history.viewing == None && e.history.entries != [] && j > 0
    ensures Times(e, Up, j, isSpace)
         == Viewed(e, e.text, if j < |e.history.entries| then |e.history.entries| - j else 0)
  {
    if j > 1 {
      AfterUps(e, j - 1, isSpace);
    }
  }

  /** One press of Down shows the next entry, and behind the newest one the remembered line. */
  lemma OneDown(e: Editor, line: Text, v: nat, isSpace: nat -> bool)
    requires e.Valid() && v < |e.history.entries| && e == Viewed(e, line, v)
    ensures Step(e, Down, isSpace)
         == if v + 1 < |e.history.entries| then Viewed(e, line, v + 1)
            else Editor(line, |line|, e.history.(viewing := None, backup := []))
  {
  }

  lemma DownWhileEditing(e: Editor, isSpace: nat -> bool)
    requires e.Valid() && e.history.viewing == None
    ensures Step(e, Down, isSpace) == e
  {
  }

  lemma {:induction false} AfterDowns(e: Editor, line: Text, v: nat, i: nat, isSpace: nat -> bool)
    requires e.Valid() && v < |e.history.entries|
    requires e == Viewed(e, line, v)
    ensures Times(e, Down, i, isSpace)
         == if v + i < |e.history.entries| then Viewed(e, line, v + i)
            else Editor(line, |line|, e.history.(viewing := None, backup := []))
  {
    hide Step;
    if i > 0 {
      AfterDowns(e, line, v, i - 1, isSpace);
      if v + i - 1 < |e.history.entries| {
        OneDown(Viewed(e, line, v + i - 1), line, v + i - 1, isSpace);
      } else {
        DownWhileEditing(Times(e, Down, i - 1, isSpace), isSpace);
      }
    }
  }

  /**
   From a line that is being edited, k presses of Up followed by k presses of Down give the line back,
   even when the ups ran past the oldest entry; only the cursor moves to the end of the line.
   */
  lemma UpsAndDownsRestore(e: Editor, k: nat, isSpace: nat -> bool)
    requires e.Valid() && e.history.viewing == None
    ensures var r := Times(Times(e, Up, k, isSpace), Down, k, isSpace);
      && r.text == e.text && r.history.entries == e.history.entries
      && (e.history.entries != [] && k > 0 ==> r.history.viewing == None && r.cursor == |e.text|)
      && (e.history.entries == [] || k == 0 ==> r.cursor == e.cursor)
  {
    if e.history.entries == [] {
      NoEntries(e, k, isSpace);
    } else if k > 0 {
      var n := |e.history.entries|;
      AfterUps(e, k, isSpace);
      AfterDowns(Times(e, Up, k, isSpace), e.text, if k < n then n - k else 0, k, isSpace);
    }
  }

  /** While the history is being viewed, every press of Up shows an older entry, and the oldest one from then on. */
  lemma {:induction false} AfterUpsWhileViewing(e: Editor, j: nat, isSpace: nat -> bool)
    requires e.Valid() && e.history.viewing.Some? && e.history.entries != [] && j > 0
    ensures var v := e.history.viewing.value;
      Times(e, Up, j, isSpace) == Viewed(e, e.history.backup, if j < v then v - j else 0)
  {
    if j > 1 {
      AfterUpsWhileViewing(e, j - 1, isSpace);
    }
  }

  /**
   An empty line that is entered does not end viewing, so that the next line can begin while entry v is viewed.
   Then k ups and k downs do not give the line back: they show an entry or an older remembered line.
   */
  lemma UpsAndDownsWhileViewing(e: Editor, k: nat, isSpace: nat -> bool)
    requires e.Valid() && e.history.viewing.Some? && e.history.entries != [] && k > 0
    ensures var (r, v) := (Times(Times(e, Up, k, isSpace), Down, k, isSpace), e.history.viewing.value);
      var (w, n) := ((if v > k then v - k else 0) + k, |e.history.entries|);
      && r.text == (if w < n then e.history.entries[w] else e.history.backup)
      && r.history == e.history.(viewing := if w < n then Some(w) else None,
                                 backup := if w < n then e.history.backup else [])
  {
    hide Step;
    var v := e.history.viewing.value;
    AfterUpsWhileViewing(e, k, isSpace);
    AfterDowns(Times(e, Up, k, isSpace), e.history.backup, if k < v then v - k else 0, k, isSpace);
  }

  /** So the line is given back exactly if it happens to be what is shown then. */
  lemma UpsAndDownsRestoreIff(e: Editor, k: nat, isSpace: nat -> bool)
    requires e.Valid()
    ensures Times(Times(e, Up, k, isSpace), Down, k, isSpace).text == e.text <==>
      || k == 0 || e.history.entries == [] || e.history.viewing == None
      || var w := (if e.history.viewing.value > k then e.history.viewing.value - k else 0) + k;
         e.text == if w < |e.history.entries| then e.history.entries[w] else e.history.backup
  {
    hide Step;
    if e.history.entries == [] {
      NoEntries(e, k, isSpace);
    } else if e.history.viewing == None {
      UpsAndDownsRestore(e, k, isSpace);
    } else if k > 0 {
      UpsAndDownsWhileViewing(e, k, isSpace);
    }
  }

  const LOSING_SESSION := [Key(Up), Key(Backspace), Enter(false), Key(Insert(66)), Key(Up), Key(Down)]

  lemma OneEvent(e: Editor, events: seq<Event>, i: nat, isSpace: nat -> bool)
    requires e.Valid() && i < |events|
    ensures Session(e, events[i..], isSpace) == Session(React(e, events[i], isSpace), events[i + 1..], isSpace)
  {
    assert events[i..][0] == events[i] && events[i..][1..] == events[i + 1..];
  }

  lemma LosingSteps(isSpace: nat -> bool)
    ensures var (s, viewing) := (LOSING_SESSION, History([[65]], Some(0), []));
      && React(Editor([], 0, History([[65]], None, [])), s[0], isSpace) == Editor([65], 1, viewing)
      && React(Editor([65], 1, viewing), s[1], isSpace) == Editor([], 0, viewing)
      && React(Editor([], 0, viewing), s[2], isSpace) == Editor([], 0, viewing)
      && React(Editor([], 0, viewing), s[3], isSpace) == Editor([66], 1, viewing)
      && React(Editor([66], 1, viewing), s[4], isSpace) == Editor([65], 1, viewing)
      && React(Editor([65], 1, viewing), s[5], isSpace) == Editor([], 0, History([[65]], None, []))
  {
  }

  /** With the history "A": view it, empty the line, enter it, type "B", press Up and Down. "B" is lost. */
  lemma LineIsLost(isSpace: nat -> bool)
    ensures var e := Editor([], 0, History([[65]], None, []));
      && Session(e, LOSING_SESSION[..4], isSpace).text == [66]
      && Session(e, LOSING_SESSION, isSpace) == e
  {
    hide React, Session;
    var s := LOSING_SESSION;
    var (viewing, e) := (History([[65]], Some(0), []), Editor([], 0, History([[65]], None, [])));
    LosingSteps(isSpace);
    var t := s[..4];
    assert t[0..] == t && t[4..] == [] && s[0..] == s && s[6..] == [];
    NoEvents(Editor([66], 1, viewing), isSpace);
    NoEvents(e, isSpace);
    OneEvent(e, t, 0, isSpace);
    OneEvent(Editor([65], 1, viewing), t, 1, isSpace);
    OneEvent(Editor([], 0, viewing), t, 2, isSpace);
    OneEvent(Editor([], 0, viewing), t, 3, isSpace);
    OneEvent(e, s, 0, isSpace);
    OneEvent(Editor([65], 1, viewing), s, 1, isSpace);
    OneEvent(Editor([], 0, viewing), s, 2, isSpace);
    OneEvent(Editor([], 0, viewing), s, 3, isSpace);
    OneEvent(Editor([66], 1, viewing), s, 4, isSpace);
    OneEvent(Editor([65], 1, viewing), s, 5, isSpace);
  }

  lemma NoEvents(e: Editor, isSpace: nat -> bool)
    requires e.Valid()
    ensures Session(e, [], isSpace) == e
  {
  }

  lemma {:induction false} NoEntries(e: Editor, k: nat, isSpace: nat -> bool)
    requires e.Valid() && e.history.entries == []
    ensures Times(e, Up, k, isSpace).text == e.text && Times(e, Up, k, isSpace).cursor == e.cursor
    ensures Times(e, Up, k, isSpace).history.entries == []
    ensures var u := Times(e, Up, k, isSpace); forall i: nat :: Times(u, Down, i, isSpace) == u
  {
    if k > 0 {
      NoEntries(e, k - 1, isSpace);
    }
    var u := Times(e, Up, k, isSpace);
    forall i: nat ensures Times(u, Down, i, isSpace) == u {
      NoDowns(u, i, isSpace);
    }
  }

  lemma {:induction false} NoDowns(u: Editor, i: nat, isSpace: nat -> bool)
    requires u.Valid() && u.history.entries == []
    ensures Times(u, Down, i, isSpace) == u
  {
    if i > 0 {
      NoDowns(u, i - 1, isSpace);
    }
  }
}
