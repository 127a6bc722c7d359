/**
 The line editor of console.cpp as it is written: a UTF-8 byte string, a vector of display widths, two
 cursors and a terminal column, all changed in place. The ghost fields `text` and `past` hold what the
 bytes stand for; every command is proved to act on them as EditorSpec.Step does.
 */
module LineEditor {
  import opened Wrappers
  import opened Utf8
  import opened LineHistory
  import opened EditorSpec

  function Widths(text: Text, wcwidth: nat -> nat): (r: seq<int>)
    ensures |r| == |text|
  {
    seq(|text|, i requires 0 <= i < |text| => wcwidth(text[i]))
  }

  /** The number of terminal columns that the first k code points take. */
  function Columns(text: Text, k: nat, wcwidth: nat -> nat): nat
    requires k <= |text|
  {
    if k == 0 then 0 else Columns(text, k - 1, wcwidth) + wcwidth(text[k - 1])
  }

  lemma {:induction false} ColumnsOfPrefix(a: Text, b: Text, k: nat, wcwidth: nat -> nat)
    requires k <= |a| && k <= |b| && a[..k] == b[..k]
    ensures Columns(a, k, wcwidth) == Columns(b, k, wcwidth)
  {
    if k > 0 {
      assert a[..k][..k - 1] == a[..k - 1] && b[..k][..k - 1] == b[..k - 1];
      assert a[..k][k - 1] == b[..k][k - 1];
      ColumnsOfPrefix(a, b, k - 1, wcwidth);
    }
  }

  function EncodedTexts(texts: seq<Text>): (r: seq<seq<Byte>>)
    ensures |r| == |texts|
  {
    seq(|texts|, i requires 0 <= i < |texts| => EncodeAll(texts[i]))
  }

  function EncodedHistory(h: History<Text>): History<seq<Byte>> {
    History(EncodedTexts(h.entries), h.viewing, EncodeAll(h.backup))
  }

  lemma RemoveAt(text: Text, k: nat)
    requires k < |text|
    ensures var s, p, q := EncodeAll(text), Offset(text, k), Offset(text, k + 1);
            p < q <= |s| && s[..p] + s[q..] == EncodeAll(text[..k] + text[k + 1..])
    ensures Offset(text[..k] + text[k + 1..], k) == Offset(text, k)
  {
    hide EncodeAll, Encode;
    SplitAt(text, k);
    CutMiddle(EncodeAll(text[..k]), Encode(text[k]), EncodeAll(text[k + 1..]));
    EncodeAllConcat(text[..k], text[k + 1..]);
    assert (text[..k] + text[k + 1..])[..k] == text[..k];
  }

  lemma CutMiddle(a: seq<Byte>, e: seq<Byte>, b: seq<Byte>)
    ensures (a + e + b)[..|a|] == a && (a + e + b)[|a| + |e|..] == b
  {
  }

  lemma InsertAt(text: Text, k: nat, c: CodePoint)
    requires k <= |text|
    ensures var s, p := EncodeAll(text), Offset(text, k);
            p <= |s| && s[..p] + Encode(c) + s[p..] == EncodeAll(text[..k] + [c] + text[k..])
    ensures Offset(text[..k] + [c] + text[k..], k + 1) == Offset(text, k) + |Encode(c)|
  {
    hide EncodeAll, Encode;
    assert text == text[..k] + text[k..];
    EncodeAllConcat(text[..k], text[k..]);
    EncodeAllConcat(text[..k], [c]);
    EncodeAllConcat(text[..k] + [c], text[k..]);
    EncodeAllOne(c);
    assert (text[..k] + [c] + text[k..])[..k + 1] == text[..k] + [c];
  }

  lemma OffsetZero(text: Text)
    ensures Offset(text, 0) == 0
  {
  }

  lemma OffsetBounds(text: Text, k: nat)
    requires k <= |text|
    ensures Offset(text, k) <= |EncodeAll(text)|
    ensures k < |text| <==> Offset(text, k) < |EncodeAll(text)|
  {
    if k < |text| {
      BoundaryStep(text, k);
    } else {
      assert text[..k] == text;
    }
  }

  class LineEditor {
    const wcwidth: nat -> nat
    const isSpace: nat -> bool
    const startColumn: int
    const history: HistoryBuffer<seq<Byte>>
    var line: seq<Byte>
    var widths: seq<int>
    var charPos: nat
    var bytePos: nat
    var column: int
    ghost var text: Text
    ghost var past: History<Text>

    ghost predicate Valid()
      reads this, history
    {
      && ValidLine()
      && past.Valid() && history.empty == [] && history.State() == EncodedHistory(past)
    }

    ghost predicate ValidLine()
      reads this
    {
      && line == EncodeAll(text)
      && widths == Widths(text, wcwidth)
      && charPos <= |text|
      && bytePos == Offset(text, charPos)
      && column == startColumn + Columns(text, charPos, wcwidth)
    }

    ghost function State(): Editor
      reads this
    {
      Editor(text, charPos, past)
    }

    constructor (wcwidth: nat -> nat, isSpace: nat -> bool, startColumn: int, history: HistoryBuffer<seq<Byte>>,
                 ghost past: History<Text>)
      requires past.Valid() && history.empty == [] && history.State() == EncodedHistory(past)
      ensures Valid() && State() == Editor([], 0, past)
      ensures this.history == history && this.isSpace == isSpace && this.startColumn == startColumn
    {
      this.wcwidth, this.isSpace, this.startColumn, this.history := wcwidth, isSpace, startColumn, history;
      line, widths, charPos, bytePos, column := [], [], 0, 0, startColumn;
      text, this.past := [], past;
    }

    /** put_codepoint with a width that can be trusted. */
    method PutCodepoint(expectedWidth: int) returns (width: int)
      modifies this`column
      ensures width == expectedWidth && column == old(column) + width
    {
      column := column + expectedWidth;
      return expectedWidth;
    }

    method MoveCursor(delta: int)
      modifies this`column
      ensures column == old(column) + delta
    {
      column := column + delta;
    }

    /** Redraws the code points from index `from` on; they start at byte `start`. */
    method PutTail(start: nat, from: nat) returns (tailWidth: int)
      requires line == EncodeAll(text) && widths == Widths(text, wcwidth)
      requires from <= |text| && start == Offset(text, from)
      modifies this`column
      ensures tailWidth == Columns(text, |text|, wcwidth) - Columns(text, from, wcwidth)
      ensures column == old(column) + tailWidth
    {
      hide EncodeAll, Encode, Decode;
      var p, i := start, from;
      tailWidth := 0;
      while i < |widths|
        invariant from <= i <= |text| && p == Offset(text, i)
        invariant tailWidth == Columns(text, i, wcwidth) - Columns(text, from, wcwidth)
        invariant column == old(column) + tailWidth
      {
        BoundaryStep(text, i);
        p := NextUtf8CharPos(line, p);
        var w := PutCodepoint(widths[i]);
        tailWidth := tailWidth + w;
        i := i + 1;
      }
    }

    /** Erases the code point behind the cursor, redraws the tail and blanks the columns that became free. */
    method EraseAtCursor(charLen: nat, w: int)
      requires Valid() && charPos < |text|
      requires charLen == Offset(text, charPos + 1) - bytePos && w == wcwidth(text[charPos])
      modifies this
      ensures Valid() && State() == Step(old(State()), Delete, isSpace)
    {
      hide EncodeAll, Encode, Decode;
      RemoveAt(text, charPos);
      line := line[..bytePos] + line[bytePos + charLen..];
      widths := widths[..charPos] + widths[charPos + 1..];
      ghost var was := text;
      text := text[..charPos] + text[charPos + 1..];
      ColumnsOfPrefix(was, text, charPos, wcwidth);
      var tailWidth := PutTail(bytePos, charPos);
      column := column + w;
      MoveCursor(-(tailWidth + w));
    }

    method DeleteAtCursor()
      requires Valid()
      modifies this
      ensures Valid() && State() == Step(old(State()), Delete, isSpace)
    {
      hide EncodeAll, Encode, Decode;
      if charPos >= |widths| {
        return;
      }
      BoundaryStep(text, charPos);
      var nextPos := NextUtf8CharPos(line, bytePos);
      EraseAtCursor(nextPos - bytePos, widths[charPos]);
    }

    method Backspace()
      requires Valid()
      modifies this
      ensures Valid() && State() == Step(old(State()), Command.Backspace, isSpace)
    {
      hide EncodeAll, Encode, Decode;
      if charPos > 0 {
        BoundaryStep(text, charPos - 1);
        var w := widths[charPos - 1];
        MoveCursor(-w);
        charPos := charPos - 1;
        var prevPos := PrevUtf8CharPos(line, bytePos);
        var charLen := bytePos - prevPos;
        bytePos := prevPos;
        EraseAtCursor(charLen, w);
      }
    }

    /** Ghost bookkeeping of an insertion: what the bytes and widths must become. */
    ghost method InsertText(c: CodePoint)
      requires Valid()
      modifies this`text
      ensures text == old(text)[..charPos] + [c] + old(text)[charPos..]
      ensures bytePos <= |line| && line[..bytePos] + Encode(c) + line[bytePos..] == EncodeAll(text)
      ensures charPos == |widths| ==> line + Encode(c) == EncodeAll(text)
      ensures charPos == |widths| ==> widths + [wcwidth(c)] == Widths(text, wcwidth)
      ensures widths[..charPos] + [wcwidth(c)] + widths[charPos..] == Widths(text, wcwidth)
      ensures bytePos + |Encode(c)| == Offset(text, charPos + 1)
      ensures Columns(text, charPos + 1, wcwidth) == Columns(old(text), charPos, wcwidth) + wcwidth(c)
    {
      hide EncodeAll, Encode, Decode;
      ghost var was := text;
      InsertAt(was, charPos, c);
      OffsetBounds(was, charPos);
      text := was[..charPos] + [c] + was[charPos..];
      ColumnsOfPrefix(was, text, charPos, wcwidth);
      if charPos == |widths| {
        assert line[..bytePos] == line && line[bytePos..] == [];
        assert line[..bytePos] + Encode(c) + line[bytePos..] == line + Encode(c);
      }
    }

    method InsertAtEnd(c: CodePoint, newChar: seq<Byte>)
      requires Valid() && newChar == Encode(c) && charPos == |widths|
      modifies this
      ensures Valid() && State() == Step(old(State()), Insert(c), isSpace)
    {
      hide EncodeAll, Encode, Decode, Offset, Columns, Widths, EncodedHistory, RunStart, RunEnd;
      InsertText(c);
      line := line + newChar;
      var w := PutCodepoint(wcwidth(c));
      widths := widths + [w];
      bytePos := bytePos + |newChar|;
      charPos := charPos + 1;
    }

    method InsertInMiddle(c: CodePoint, newChar: seq<Byte>)
      requires Valid() && newChar == Encode(c)
      modifies this
      ensures Valid() && State() == Step(old(State()), Insert(c), isSpace)
    {
      hide EncodeAll, Encode, Decode, Offset, Columns, Widths, EncodedHistory, RunStart, RunEnd;
      InsertText(c);
      line := line[..bytePos] + newChar + line[bytePos..];
      var w := PutCodepoint(wcwidth(c));
      widths := widths[..charPos] + [w] + widths[charPos..];
      var tailWidth := PutTail(bytePos + |newChar|, charPos + 1);
      MoveCursor(-tailWidth);
      bytePos := bytePos + |newChar|;
      charPos := charPos + 1;
    }

    method InsertChar(c: CodePoint)
      requires Valid()
      modifies this
      ensures Valid() && State() == Step(old(State()), Insert(c), isSpace)
    {
      var newChar := AppendUtf8(c, []);
      assert newChar == Encode(c);
      if charPos == |widths| {
        InsertAtEnd(c, newChar);
      } else {
        InsertInMiddle(c, newChar);
      }
    }

    method MoveLeft()
      requires Valid()
      modifies this
      ensures Valid() && State() == Step(old(State()), Left, isSpace)
    {
      hide EncodeAll, Encode, Decode;
      if charPos > 0 {
        BoundaryStep(text, charPos - 1);
        MoveCursor(-widths[charPos - 1]);
        charPos := charPos - 1;
        bytePos := PrevUtf8CharPos(line, bytePos);
      }
    }

    method MoveRight()
      requires Valid()
      modifies this
      ensures Valid() && State() == Step(old(State()), Right, isSpace)
    {
      hide EncodeAll, Encode, Decode;
      if charPos < |widths| {
        BoundaryStep(text, charPos);
        MoveCursor(widths[charPos]);
        charPos := charPos + 1;
        bytePos := NextUtf8CharPos(line, bytePos);
      }
    }

    method MoveToLineStart()
      requires Valid()
      modifies this
      ensures Valid() && State() == Step(old(State()), Home, isSpace)
    {
      hide Encode, Decode;
      var backWidth: int, i := 0, 0;
      while i < charPos
        invariant 0 <= i <= charPos && backWidth == Columns(text, i, wcwidth)
      {
        backWidth := backWidth + widths[i];
        i := i + 1;
      }
      MoveCursor(-backWidth);
      charPos, bytePos := 0, 0;
    }

    method MoveToLineEnd()
      requires Valid()
      modifies this
      ensures Valid() && State() == Step(old(State()), End, isSpace)
    {
      hide EncodeAll, Encode, Decode;
      var forwardWidth: int, i := 0, charPos;
      while i < |widths|
        invariant charPos <= i <= |text|
        invariant forwardWidth == Columns(text, i, wcwidth) - Columns(text, charPos, wcwidth)
      {
        forwardWidth := forwardWidth + widths[i];
        i := i + 1;
      }
      MoveCursor(forwardWidth);
      charPos, bytePos := |widths|, |line|;
      OffsetBounds(text, |text|);
    }

    /** One of the loops of move_word_left: passes the run of (non-)spaces that ends before `from`. */
    method PassLeft(from: nat, fromByte: nat, spaces: bool) returns (newCharPos: nat, newBytePos: nat, moveWidth: int)
      requires line == EncodeAll(text) && widths == Widths(text, wcwidth)
      requires from <= |text| && fromByte == Offset(text, from)
      ensures newCharPos == RunStart(text, from, isSpace, spaces) && newBytePos == Offset(text, newCharPos)
      ensures moveWidth == Columns(text, from, wcwidth) - Columns(text, newCharPos, wcwidth)
    {
      hide EncodeAll, Encode, Decode;
      newCharPos, newBytePos, moveWidth := from, fromByte, 0;
      while newCharPos > 0
        invariant newCharPos <= from && newBytePos == Offset(text, newCharPos)
        invariant moveWidth == Columns(text, from, wcwidth) - Columns(text, newCharPos, wcwidth)
        invariant RunStart(text, newCharPos, isSpace, spaces) == RunStart(text, from, isSpace, spaces)
      {
        BoundaryStep(text, newCharPos - 1);
        var prevByte := PrevUtf8CharPos(line, newBytePos);
        var decoded := Decode(line, prevByte);
        if isSpace(decoded.cp) != spaces {
          break;
        }
        moveWidth := moveWidth + widths[newCharPos - 1];
        newCharPos, newBytePos := newCharPos - 1, prevByte;
      }
    }

    method MoveWordLeft()
      requires Valid()
      modifies this
      ensures Valid() && State() == Step(old(State()), WordLeft, isSpace)
    {
      hide EncodeAll, Encode, Decode, Offset, Columns, Widths, EncodedHistory, RunStart, RunEnd;
      if charPos == 0 {
        return;
      }
      var c1, b1, w1 := PassLeft(charPos, bytePos, true);
      var c2, b2, w2 := PassLeft(c1, b1, false);
      MoveCursor(-(w1 + w2));
      charPos, bytePos := c2, b2;
    }

    /** One of the loops of move_word_right. */
    method PassRight(from: nat, fromByte: nat, spaces: bool) returns (newCharPos: nat, newBytePos: nat, moveWidth: int)
      requires line == EncodeAll(text) && widths == Widths(text, wcwidth)
      requires from <= |text| && fromByte == Offset(text, from)
      ensures newCharPos == RunEnd(text, from, isSpace, spaces) && newBytePos == Offset(text, newCharPos)
      ensures moveWidth == Columns(text, newCharPos, wcwidth) - Columns(text, from, wcwidth)
    {
      hide EncodeAll, Encode, Decode;
      newCharPos, newBytePos, moveWidth := from, fromByte, 0;
      while newCharPos < |widths|
        invariant from <= newCharPos <= |text| && newBytePos == Offset(text, newCharPos)
        invariant moveWidth == Columns(text, newCharPos, wcwidth) - Columns(text, from, wcwidth)
        invariant RunEnd(text, newCharPos, isSpace, spaces) == RunEnd(text, from, isSpace, spaces)
      {
        BoundaryStep(text, newCharPos);
        var decoded := Decode(line, newBytePos);
        if isSpace(decoded.cp) != spaces {
          break;
        }
        moveWidth := moveWidth + widths[newCharPos];
        newCharPos, newBytePos := newCharPos + 1, newBytePos + decoded.advance;
      }
    }

    method MoveWordRight()
      requires Valid()
      modifies this
      ensures Valid() && State() == Step(old(State()), WordRight, isSpace)
    {
      hide EncodeAll, Encode, Decode, Offset, Columns, Widths, EncodedHistory, RunStart, RunEnd;
      if charPos >= |widths| {
        return;
      }
      var c1, b1, w1 := PassRight(charPos, bytePos, true);
      var c2, b2, w2 := PassRight(c1, b1, false);
      var c3, b3, w3 := PassRight(c2, b2, true);
      MoveCursor(w1 + w2 + w3);
      charPos, bytePos := c3, b3;
    }

    /** Blanks out the line; a code point without width counts as one column here. */
    method ClearCurrentLine()
      modifies this`column
      ensures column == old(column)
    {
      var totalWidth: int, i := 0, 0;
      while i < |widths|
      {
        totalWidth := totalWidth + (if widths[i] > 0 then widths[i] else 1);
        i := i + 1;
      }
      if totalWidth > 0 {
        column := column + totalWidth;
        MoveCursor(-totalWidth);
      }
    }

    /** The loop of set_line_contents: decodes the line, shows it and measures it. */
    method LayOutLine()
      requires line == EncodeAll(text) && widths == [] && charPos == bytePos == 0 && column == startColumn
      modifies this`widths, this`charPos, this`bytePos, this`column
      ensures ValidLine() && charPos == |text|
    {
      hide EncodeAll, Encode, Decode;
      var idx := 0;
      OffsetZero(text);
      OffsetBounds(text, 0);
      while idx < |line|
        invariant charPos <= |text| && idx == bytePos == Offset(text, charPos) <= |line|
        invariant widths == Widths(text[..charPos], wcwidth)
        invariant column == startColumn + Columns(text, charPos, wcwidth)
        decreases |line| - idx
      {
        OffsetBounds(text, charPos);
        BoundaryStep(text, charPos);
        OffsetBounds(text, charPos + 1);
        var decoded := Decode(line, idx);
        var realWidth := PutCodepoint(wcwidth(decoded.cp));
        widths := widths + [realWidth];
        idx := idx + decoded.advance;
        charPos := charPos + 1;
        bytePos := idx;
      }
      OffsetBounds(text, charPos);
      assert text[..charPos] == text;
    }

    method SetLineContents(newLine: seq<Byte>, ghost newText: Text)
      requires Valid() && newLine == EncodeAll(newText)
      modifies this
      ensures Valid() && text == newText && charPos == |newText| && past == old(past)
    {
      hide EncodeAll, Encode, Decode;
      MoveToLineStart();
      ClearCurrentLine();
      line, widths, bytePos, charPos := newLine, [], 0, 0;
      text := newText;
      LayOutLine();
    }

    method HistoryPrev()
      requires Valid()
      modifies this, history
      ensures Valid() && State() == Step(old(State()), Up, isSpace)
    {
      hide EncodeAll, Encode, Decode;
      if history.viewingIdx == None {
        history.StartViewing(line);
        past := BeginViewing(past, text);
      }
      var newLine := history.PrevLine();
      ghost var (past', newText) := Prev(past);
      past := past';
      if newLine.Some? {
        SetLineContents(newLine.value, newText.value);
      }
    }

    method HistoryNext()
      requires Valid()
      modifies this, history
      ensures Valid() && State() == Step(old(State()), Down, isSpace)
    {
      hide Encode, Decode;
      if history.viewingIdx != None {
        var newLine := history.NextLine();
        ghost var (past', newText) := Next(past, []);
        past := past';
        if newLine.Some? {
          SetLineContents(newLine.value, newText.value);
        }
      }
    }

    method Execute(cmd: Command)
      requires Valid()
      modifies this, history
      ensures Valid() && State() == Step(old(State()), cmd, isSpace)
    {
      match cmd
      case Insert(c) => InsertChar(c);
      case Backspace => Backspace();
      case Delete => DeleteAtCursor();
      case Left => MoveLeft();
      case Right => MoveRight();
      case WordLeft => MoveWordLeft();
      case WordRight => MoveWordRight();
      case Home => MoveToLineStart();
      case End => MoveToLineEnd();
      case Up => HistoryPrev();
      case Down => HistoryNext();
    }

    /** The end of readline_advanced. */
    method SubmitLine(endOfStream: bool, multiline: bool) returns (hasMore: bool)
      requires Valid()
      modifies this, history
      ensures var r := Submit(old(State()), endOfStream, multiline);
        && line == EncodeAll(r.line) && hasMore == r.hasMore && past == r.history
        && past.Valid() && history.State() == EncodedHistory(past)
    {
      hide EncodeAll, Encode, Decode;
      MarkerByte(text);
      EmptyOnly(text);
      hasMore := multiline;
      if line != [] && (line[|line| - 1] == BACKSLASH || line[|line| - 1] == SLASH) {
        var last := line[|line| - 1];
        line := line[..|line| - 1];
        text := text[..|text| - 1];
        EncodedSpace(text);
        if last == BACKSLASH {
          AddAscii(text, NEWLINE);
          line := line + [NEWLINE];
          text := text + [NEWLINE];
          hasMore := !hasMore;
        } else {
          if |line| == 1 && line[0] == SPACE {
            line := [];
            text := [];
          }
          hasMore := false;
        }
      } else {
        if endOfStream {
          hasMore := false;
        } else {
          AddAscii(text, NEWLINE);
          line := line + [NEWLINE];
          text := text + [NEWLINE];
        }
      }
      assert text == Unmarked(old(text), endOfStream);
      EmptyOnly(text);
      if !endOfStream && line != [] {
        StoreLine();
      }
    }

    /** Stores the line without its newline, which it loses here. */
    method StoreLine()
      requires line == EncodeAll(text) && line != [] && text != []
      requires past.Valid() && history.empty == [] && history.State() == EncodedHistory(past)
      modifies this`line, this`text, this`past, history
      ensures text == if old(text)[|old(text)| - 1] == NEWLINE then old(text)[..|old(text)| - 1] else old(text)
      ensures line == EncodeAll(text) && past == Add(old(past), text, [])
      ensures past.Valid() && history.State() == EncodedHistory(past)
    {
      hide EncodeAll, Encode, Decode;
      MarkerByte(text);
      if line[|line| - 1] == NEWLINE {
        line := line[..|line| - 1];
        text := text[..|text| - 1];
      }
      history.AddLine(line);
      AddEncoded(past, text);
      past := Add(past, text, []);
    }

    /** The beginning of readline_advanced, behind a prompt that ends at the start column. */
    method BeginLine()
      requires past.Valid() && history.empty == [] && history.State() == EncodedHistory(past)
      modifies this
      ensures Valid() && State() == Editor([], 0, old(past))
    {
      line, widths, charPos, bytePos, column := [], [], 0, 0, startColumn;
      text := [];
    }

    /** Any session, from any valid state on: keys and lines in any order. */
    method RunSession(events: seq<Event>)
      requires Valid()
      modifies this, history
      ensures Valid() && State() == Session(old(State()), events, isSpace)
    {
      var i := 0;
      while i < |events|
        invariant 0 <= i <= |events| && Valid() && State().Valid()
        invariant Session(State(), events[i..], isSpace) == Session(old(State()), events, isSpace)
      {
        assert events[i..][0] == events[i] && events[i..][1..] == events[i + 1..];
        match events[i] {
          case Key(cmd) =>
            Execute(cmd);
          case Enter(multiline) =>
            var _ := SubmitLine(false, multiline);
            BeginLine();
        }
        i := i + 1;
      }
    }
  }

  /** A line ends in an ASCII byte exactly when its last code point is that character. */
  lemma MarkerByte(text: Text)
    ensures text != [] ==>
      var s, n := EncodeAll(text), |text| - 1;
      && s != []
      && (text[n] < 0x80 ==> s == EncodeAll(text[..n]) + [text[n]])
      && (text[n] >= 0x80 ==> s[|s| - 1] >= 0x80)
    ensures text == [] ==> EncodeAll(text) == []
  {
    if text != [] {
      var n := |text| - 1;
      SplitAt(text, n);
      assert text[n + 1..] == [];
    }
  }

  lemma EmptyOnly(text: Text)
    ensures EncodeAll(text) == [] <==> text == []
  {
  }

  lemma AddAscii(text: Text, c: CodePoint)
    requires c < 0x80
    ensures EncodeAll(text + [c]) == EncodeAll(text) + [c]
  {
    EncodeAllConcat(text, [c]);
    EncodeAllOne(c);
  }

  lemma EncodedSpace(text: Text)
    ensures |EncodeAll(text)| == 1 && EncodeAll(text)[0] == SPACE <==> text == [SPACE]
  {
    EncodeAllOne(SPACE);
    if |EncodeAll(text)| == 1 && EncodeAll(text)[0] == SPACE {
      assert EncodeAll(text) == [SPACE] == EncodeAll([SPACE]);
      EncodeAllInjective(text, [SPACE]);
    }
  }

  /** Storing a line commutes with encoding, since different lines have different encodings. */
  lemma AddEncoded(h: History<Text>, text: Text)
    requires h.Valid()
    ensures Add(EncodedHistory(h), EncodeAll(text), []) == EncodedHistory(Add(h, text, []))
    ensures Add(h, text, []).Valid()
  {
    hide EncodeAll;
    EmptyOnly(text);
    EmptyOnly([]);
    if h.entries != [] {
      var last := h.entries[|h.entries| - 1];
      if EncodeAll(last) == EncodeAll(text) {
        EncodeAllInjective(last, text);
      }
    }
    assert EncodedTexts(h.entries + [text]) == EncodedTexts(h.entries) + [EncodeAll(text)];
  }
}
