/** Reading back what a model writes in an XML-style format: text values and JSON values, in every kind of form. */
module XmlLaws {
  import opened Wrappers
  import opened Text
  import opened ChatTypes
  import opened ChatParser
  import opened XmlSpec
  import opened XmlLiterals

  // ---- what is written -----------------------------------------------------------------------

  /** An argument: its key, the text of its value, and the value that this text means. */
  datatype Arg = Arg(key: string, text: string, value: Value)

  datatype Tool = Tool(name: string, args: seq<Arg>)

  function LastValEnd(form: Form): string {
    match form.lastValEnd case None => form.valEnd case Some(end) => end
  }

  function LastToolEnd(form: Form): string {
    match form.lastToolEnd case None => form.toolEnd case Some(end) => end
  }

  /** What stands between a key and its value. */
  function Separators(form: Form): string {
    form.keyValSep + match form.keyValSep2 case None => "" case Some(sep) => sep
  }

  /** An argument up to the end of its value. */
  function Opening(form: Form, arg: Arg): string {
    form.keyStart + (arg.key + Separators(form))
  }

  function WrittenArgs(form: Form, args: seq<Arg>): string {
    if args == [] then ""
    else if |args| == 1 then Opening(form, args[0]) + (args[0].text + LastValEnd(form))
    else Opening(form, args[0]) + (args[0].text + form.valEnd) + WrittenArgs(form, args[1..])
  }

  function ToolEndOf(form: Form, last: bool): string {
    if last then LastToolEnd(form) else form.toolEnd
  }

  function WrittenTool(form: Form, tool: Tool, last: bool): string {
    (tool.name + form.toolSep) + (WrittenArgs(form, tool.args) + ToolEndOf(form, last))
  }

  function WrittenTools(form: Form, tools: seq<Tool>): string {
    if tools == [] then ""
    else form.toolStart + WrittenTool(form, tools[0], |tools| == 1) + WrittenTools(form, tools[1..])
  }

  function Written(form: Form, tools: seq<Tool>): string {
    form.scopeStart + (WrittenTools(form, tools) + form.scopeEnd)
  }

  // ---- what can be read back -----------------------------------------------------------------

  /** What ends a tool is visible and differs from what would go on. */
  predicate EndsTools(form: Form, end: string) {
    && Visible(end) && Differ(end, form.keyStart)
    && (form.lastValEnd.Some? ==> Differ(form.lastValEnd.value + end, form.valEnd))
  }

  /** Every literal of the form can be told from those that may stand in its place. */
  predicate Readable(form: Form) {
    && Proper(form) && !AllSpace(form.valEnd)
    && EndsTools(form, form.toolEnd) && EndsTools(form, LastToolEnd(form))
    && (form.lastToolEnd.Some? ==>
          && Visible(form.scopeEnd) && Differ(form.lastToolEnd.value + form.scopeEnd, form.toolEnd)
          && !AllSpace(form.toolSep))
    && (form.scopeEnd == "" || (Visible(form.scopeEnd) && Differ(form.scopeEnd, form.toolStart)))
    && (form.scopeStart == "" || Visible(form.scopeStart))
  }

  /** JSON reading at i takes nothing, or something that visible text of the value is left behind. */
  predicate NotJson(lib: Library, s: string, i: nat, end: nat)
    requires i <= end <= |s|
  {
    match lib.consume(s, i)
    case None => !lib.scalar(s[SkipSpaces(s, i)..])
    case Some((_, to)) => to <= end && !AllSpace(s[to..end])
  }

  /** A value that is read as its text, trimmed if the form says so. */
  ghost predicate ReadsText(cx: Context, text: string) {
    && cx.form.lastValEnd.None? && Ends(text, cx.form.valEnd)
    && (cx.form.rawArgval == Some(true) ||
        forall s, i: nat {:trigger cx.lib.consume(s, i)} :: OccursAt(s, text + cx.form.valEnd, i) ==>
          NotJson(cx.lib, s, i, i + |text|))
  }

  /** A value that JSON reading takes completely wherever it is closed like this. */
  ghost predicate ReadsJson(cx: Context, text: string, json: Json, closing: string) {
    && cx.form.rawArgval != Some(true) && json.marker == ""
    && forall s, i: nat {:trigger cx.lib.consume(s, i)} :: OccursAt(s, text + closing, i) ==>
         cx.lib.consume(s, i) == Some((json, i + |text|))
  }

  /** What stands behind a value: the end of the value, or its alternative and the end of the tool. */
  function Closing(form: Form, last: bool, toolEnd: string): string {
    if last && form.lastValEnd.Some? then form.lastValEnd.value + toolEnd else form.valEnd
  }

  ghost predicate GoodArg(cx: Context, arg: Arg, last: bool, toolEnd: string) {
    && Ends(arg.key, cx.form.keyValSep)
    && match arg.value
       case Text(text) => ReadsText(cx, arg.text) && text == Trimmed(cx, arg.text)
       case Parsed(json) => ReadsJson(cx, arg.text, json, Closing(cx.form, last, toolEnd))
  }

  ghost predicate GoodArgs(cx: Context, args: seq<Arg>, toolEnd: string) {
    forall i :: 0 <= i < |args| ==> GoodArg(cx, args[i], i == |args| - 1, toolEnd)
  }

  /** The text that the name is taken from. */
  function NameText(form: Form, tool: Tool): string {
    if AllSpace(form.toolSep) then tool.name + form.toolSep else tool.name
  }

  function CallName(cx: Context, tool: Tool): string {
    cx.lib.rename(Strip(NameText(cx.form, tool)))
  }

  /** Nothing that begins within the text can become the literal. */
  predicate FreeOf(text: string, literal: string) {
    Find(text, literal, 0) == None && PartialStop(text, literal) == None
  }

  /** The name ends where it should: at the separator, or at the first key, or at the end of the tool. */
  predicate GoodName(form: Form, tool: Tool) {
    var text := NameText(form, tool);
    if !AllSpace(form.toolSep) then Ends(text, form.toolSep) && !HoldsToolEnd(form, text)
    else if tool.args != [] then Ends(text, form.keyStart) && !HoldsToolEnd(form, text)
    else Ends(text, form.toolEnd) && FreeOf(text + form.toolEnd, form.keyStart)
  }

  ghost predicate GoodTool(cx: Context, tool: Tool, last: bool) {
    && CallName(cx, tool) != "" && GoodName(cx.form, tool)
    && GoodArgs(cx, tool.args, ToolEndOf(cx.form, last))
  }

  ghost predicate GoodTools(cx: Context, tools: seq<Tool>) {
    forall i :: 0 <= i < |tools| ==> GoodTool(cx, tools[i], i == |tools| - 1)
  }

  function Stored(args: Arguments, more: seq<Arg>): Arguments
    decreases |more|
  {
    if more == [] then args else Stored(Set(args, more[0].key, more[0].value), more[1..])
  }

  function CallOf(cx: Context, tool: Tool): ToolCall {
    ToolCall(CallName(cx, tool), cx.lib.dump(Stored([], tool.args)), "")
  }

  /** The calls that are meant. */
  function Calls(cx: Context, tools: seq<Tool>): seq<ToolCall> {
    if tools == [] then [] else [CallOf(cx, tools[0])] + Calls(cx, tools[1..])
  }

  // ---- values --------------------------------------------------------------------------------

  lemma VisibleRest(s: string, from: nat, closing: string)
    requires OccursAt(s, closing, from) && !AllSpace(closing)
    ensures from <= |s| && SkipSpaces(s, from) < |s|
  {
    InBounds(s, closing, from);
    SkipsExactlySpaces(s, from);
    var i :| 0 <= i < |closing| && !IsSpace(closing[i]);
    assert !IsSpace(s[from + i]);
  }

  lemma VisibleStretch(s: string, from: nat, to: nat)
    requires from <= to <= |s| && !AllSpace(s[from..to])
    ensures SkipSpaces(s, from) < to
  {
    SkipsExactlySpaces(s, from);
    var i :| 0 <= i < to - from && !IsSpace(s[from..to][i]);
    assert s[from..to][i] == s[from + i];
  }

  /** The end of a plain value is found from anywhere within it. */
  lemma ValueEnds(cx: Context, pos: nat, text: string, from: nat)
    requires cx.form.lastValEnd.None? && OccursAt(cx.input, text + cx.form.valEnd, pos) && Ends(text, cx.form.valEnd)
    requires pos <= from <= pos + |text| && pos + |text| <= |cx.input|
    ensures FoundValEnd(cx, from)
         == Close(|cx.form.valEnd|,
                  Some(Match(cx.input[from..pos + |text|], pos + |text|, pos + |text| + |cx.form.valEnd|)))
  {
    hide Find, PartialStop, OccursAt;
    var (input, end) := (cx.input, cx.form.valEnd);
    OccursInParts(input, text, end, pos);
    EndsWhereWritten(input, pos, text, end);
    FindIsLeast(input, end, pos);
    FindIsLeast(input, end, from);
  }

  lemma TextRead(cx: Context, name: string, args: Arguments, key: string, text: string, pos: nat)
    requires Good(cx) && pos <= |cx.input| && ReadsText(cx, text)
    requires OccursAt(cx.input, text + cx.form.valEnd, pos)
    ensures ParseValue(cx, name, args, key, pos)
         == Next(pos + |text| + |cx.form.valEnd|, Text(Trimmed(cx, text)))
  {
    hide Ends, OccursAt, Trimmed, FoundValEnd, PartialCall, HealedCall, Set, AllSpace;
    var (input, end) := (cx.input, pos + |text|);
    OccursInParts(input, text, cx.form.valEnd, pos);
    InBounds(input, text + cx.form.valEnd, pos);
    InBounds(input, text, pos);
    ValueEnds(cx, pos, text, pos);
    if cx.form.rawArgval != Some(true) {
      assert NotJson(cx.lib, input, pos, end);
      var json := cx.lib.consume(input, pos);
      if json.Some? {
        ValueEnds(cx, pos, text, json.value.1);
        VisibleStretch(input, json.value.1, end);
      }
    }
  }

  lemma JsonRead(cx: Context, name: string, args: Arguments, key: string, arg: Arg, last: bool, toolEnd: string,
                 pos: nat)
    requires Good(cx) && Readable(cx.form) && pos <= |cx.input| && arg.value.Parsed?
    requires ReadsJson(cx, arg.text, arg.value.json, Closing(cx.form, last, toolEnd))
    requires OccursAt(cx.input, arg.text + Closing(cx.form, last, toolEnd), pos)
    requires toolEnd == cx.form.toolEnd || (last && toolEnd == LastToolEnd(cx.form))
    ensures ParseValue(cx, name, args, key, pos)
         == Next(pos + |arg.text| + |if last then LastValEnd(cx.form) else cx.form.valEnd|, arg.value)
  {
    hide OccursAt, FoundClose, PartialCall, HealedCall, Set, AllSpace, Differ, Visible, ParsePlain;
    var (form, closing, end) := (cx.form, Closing(cx.form, last, toolEnd), pos + |arg.text|);
    OccursInParts(cx.input, arg.text, closing, pos);
    ClosingIsVisible(form, last, toolEnd);
    VisibleRest(cx.input, end, closing);
    NoSpaceInNothing();
    if last && form.lastValEnd.Some? {
      AlternativeHere(cx, end, form.valEnd, form.lastValEnd.value, form.toolEnd, form.lastToolEnd, toolEnd);
    } else {
      CloseHere(cx, end, form.valEnd, form.lastValEnd, form.toolEnd, form.lastToolEnd);
    }
  }

  lemma ClosingIsVisible(form: Form, last: bool, toolEnd: string)
    requires Readable(form) && (toolEnd == form.toolEnd || toolEnd == LastToolEnd(form))
    ensures !AllSpace(Closing(form, last, toolEnd))
    ensures Visible(toolEnd)
    ensures form.lastValEnd.Some? ==> Differ(form.lastValEnd.value + toolEnd, form.valEnd)
  {
    hide Differ;
    if last && form.lastValEnd.Some? {
      var closing := form.lastValEnd.value + toolEnd;
      assert closing[|form.lastValEnd.value|] == toolEnd[0];
    }
  }

  // ---- arguments -----------------------------------------------------------------------------

  function ValueEnd(form: Form, last: bool): string {
    if last then LastValEnd(form) else form.valEnd
  }

  lemma ValueRead(cx: Context, name: string, args: Arguments, arg: Arg, last: bool, toolEnd: string, pos: nat)
    requires Good(cx) && Readable(cx.form) && pos <= |cx.input| && GoodArg(cx, arg, last, toolEnd)
    requires OccursAt(cx.input, arg.text + (ValueEnd(cx.form, last) + if last then toolEnd else ""), pos)
    requires toolEnd == cx.form.toolEnd || (last && toolEnd == LastToolEnd(cx.form))
    ensures ParseValue(cx, name, args, arg.key, pos)
         == Next(pos + |arg.text| + |ValueEnd(cx.form, last)|, arg.value)
  {
    hide OccursAt, ParseValue, Ends, ReadsJson, Readable, Trimmed;
    var (form, end) := (cx.form, ValueEnd(cx.form, last));
    var more := if last then toolEnd else "";
    assert arg.text + (end + more) == (arg.text + end) + more;
    OccursInParts(cx.input, arg.text + end, more, pos);
    assert last && form.lastValEnd.Some? ==> end + more == Closing(form, last, toolEnd);
    if arg.value.Text? {
      TextRead(cx, name, args, arg.key, arg.text, pos);
    } else {
      JsonRead(cx, name, args, arg.key, arg, last, toolEnd, pos);
    }
  }

  /** Key and separators. */
  lemma KeyRead(cx: Context, name: string, args: Arguments, key: string, pos: nat)
    requires Good(cx) && pos <= |cx.input| && Ends(key, cx.form.keyValSep)
    requires OccursAt(cx.input, cx.form.keyStart + (key + Separators(cx.form)), pos)
    ensures var at := pos + |cx.form.keyStart|;
      && FoundLiteral(cx.input, pos, cx.partial, cx.form.keyStart) == Some(Match("", pos, at))
      && at + |key + Separators(cx.form)| <= |cx.input|
      && ParseKey(cx, name, args, at) == Next(at + |key + cx.form.keyValSep|, key)
      && ParseSep2(cx, name, args, key, at + |key + cx.form.keyValSep|) == Next(at + |key + Separators(cx.form)|, ())
  {
    hide FoundLiteral, Ends, OccursAt, AllSpace;
    var (input, form) := (cx.input, cx.form);
    var (at, keyEnd) := (pos + |form.keyStart|, key + form.keyValSep);
    var sep := match form.keyValSep2 case None => "" case Some(sep) => sep;
    assert key + Separators(form) == keyEnd + sep;
    OccursInParts(input, form.keyStart, keyEnd + sep, pos);
    OccursInParts(input, keyEnd, sep, at);
    InBounds(input, keyEnd + sep, at);
    FoundHere(input, pos, cx.partial, form.keyStart);
    FoundWhereWritten(input, at, cx.partial, key, form.keyValSep);
    FoundHere(input, at + |keyEnd|, cx.partial, sep);
    NoSpaceInNothing();
  }

  /** One round of the loop over keys and values. */
  lemma ArgRead(cx: Context, name: string, args: Arguments, recovery: bool, arg: Arg, last: bool, toolEnd: string,
                tail: string, pos: nat)
    requires Good(cx) && Readable(cx.form) && pos <= |cx.input| && GoodArg(cx, arg, last, toolEnd)
    requires toolEnd == cx.form.toolEnd || (last && toolEnd == LastToolEnd(cx.form))
    requires last ==> toolEnd <= tail
    requires OccursAt(cx.input, Opening(cx.form, arg) + ((arg.text + ValueEnd(cx.form, last)) + tail), pos)
    ensures var next := pos + |Opening(cx.form, arg) + (arg.text + ValueEnd(cx.form, last))|;
      && next + |tail| <= |cx.input| && OccursAt(cx.input, tail, next)
      && ParseArgs(cx, name, args, recovery, pos) == ParseArgs(cx, name, Set(args, arg.key, arg.value), false, next)
  {
    hide FoundLiteral, Ends, OccursAt, ParseValue, ParseSep2, ParseKey, Set, AllSpace, Readable, ReadsText, ReadsJson;
    var (input, form, end) := (cx.input, cx.form, ValueEnd(cx.form, last));
    OccursInParts(input, Opening(form, arg), (arg.text + end) + tail, pos);
    var at := pos + |Opening(form, arg)|;
    OccursInParts(input, arg.text + end, tail, at);
    InBounds(input, tail, at + |arg.text + end|);
    KeyRead(cx, name, args, arg.key, pos);
    ClosedValue(cx, arg.text, end, tail, if last then toolEnd else "", at);
    ValueRead(cx, name, args, arg, last, toolEnd, at);
    NoSpaceInNothing();
  }

  lemma ClosedValue(cx: Context, text: string, end: string, tail: string, more: string, at: nat)
    requires OccursAt(cx.input, (text + end) + tail, at) && more <= tail
    ensures OccursAt(cx.input, text + (end + more), at)
  {
    hide OccursAt;
    var rest := tail[|more|..];
    assert (text + end) + tail == (text + (end + more)) + rest by { assert tail == more + rest; }
    OccursInParts(cx.input, text + (end + more), rest, at);
  }

  lemma NoMoreArgs(cx: Context, name: string, args: Arguments, recovery: bool, pos: nat)
    requires Good(cx) && pos <= |cx.input|
    requires var m := FoundLiteral(cx.input, pos, cx.partial, cx.form.keyStart); m.Some? ==> !AllSpace(m.value.prelude)
    ensures ParseArgs(cx, name, args, recovery, pos) == Next(pos, Gathered(args, recovery))
  {
    hide FoundLiteral, AllSpace;
  }

  lemma {:induction false} ArgsRead(cx: Context, name: string, args: Arguments, recovery: bool, more: seq<Arg>,
                                    toolEnd: string, pos: nat)
    requires Good(cx) && Readable(cx.form) && pos <= |cx.input| && GoodArgs(cx, more, toolEnd)
    requires toolEnd == cx.form.toolEnd || toolEnd == LastToolEnd(cx.form)
    requires OccursAt(cx.input, WrittenArgs(cx.form, more) + toolEnd, pos)
    ensures ParseArgs(cx, name, args, recovery, pos)
         == Next(pos + |WrittenArgs(cx.form, more)|, Gathered(Stored(args, more), recovery && more == []))
    decreases |more|
  {
    hide FoundLiteral, Ends, OccursAt, ParseArgs, Set, AllSpace, Differ, GoodArg, Visible;
    var (input, form) := (cx.input, cx.form);
    if more == [] {
      assert "" + toolEnd == toolEnd;
      OtherLiteralIsBehind(input, pos, cx.partial, toolEnd, form.keyStart);
      NoMoreArgs(cx, name, args, recovery, pos);
    } else {
      var (arg, rest, last) := (more[0], more[1..], |more| == 1);
      var tail := WrittenArgs(form, rest) + toolEnd;
      ArgsLayout(form, more, toolEnd);
      RestIsGood(cx, more, toolEnd);
      ArgRead(cx, name, args, recovery, arg, last, if last then toolEnd else form.toolEnd, tail, pos);
      var next := pos + |Opening(form, arg) + (arg.text + ValueEnd(form, last))|;
      ArgsRead(cx, name, Set(args, arg.key, arg.value), false, rest, toolEnd, next);
    }
  }

  lemma ArgsLayout(form: Form, more: seq<Arg>, toolEnd: string)
    requires more != []
    ensures var (arg, last, tail) := (more[0], |more| == 1, WrittenArgs(form, more[1..]) + toolEnd);
      && WrittenArgs(form, more) + toolEnd == Opening(form, arg) + ((arg.text + ValueEnd(form, last)) + tail)
      && |WrittenArgs(form, more)|
           == |Opening(form, arg) + (arg.text + ValueEnd(form, last))| + |WrittenArgs(form, more[1..])|
      && (last ==> toolEnd <= tail)
  {
    hide Opening;
    if |more| == 1 {
      assert more[1..] == [] && "" + toolEnd == toolEnd;
    }
  }

  lemma RestIsGood(cx: Context, more: seq<Arg>, toolEnd: string)
    requires more != [] && GoodArgs(cx, more, toolEnd)
    ensures GoodArgs(cx, more[1..], toolEnd)
    ensures GoodArg(cx, more[0], |more| == 1, if |more| == 1 then toolEnd else cx.form.toolEnd)
  {
    hide Ends, ReadsText, ReadsJson;
    assert GoodArg(cx, more[0], 0 == |more| - 1, toolEnd);
    forall i | 0 <= i < |more| - 1 ensures GoodArg(cx, more[1..][i], i == |more[1..]| - 1, toolEnd) {
      assert GoodArg(cx, more[i + 1], i + 1 == |more| - 1, toolEnd);
    }
  }

  // ---- tools ---------------------------------------------------------------------------------

  /** In text that is free of a literal nothing of it is found, whatever follows. */
  lemma FoundBehind(input: string, pos: nat, partial: bool, text: string, literal: string)
    requires pos <= |input| && OccursAt(input, text, pos) && FreeOf(text, literal) && literal != ""
    ensures var r := FoundLiteral(input, pos, partial, literal); r.Some? ==> r.value.begin >= pos + |text|
  {
    hide Find, PartialStop;
    FindIsLeast(input, literal, pos);
    PartialStopIsLeast(input, literal, 0);
    FindIsLeast(text, literal, 0);
    PartialStopIsLeast(text, literal, 0);
    var r := FoundLiteral(input, pos, partial, literal);
    InBounds(input, text, pos);
    if r.Some? && r.value.begin < pos + |text| {
      NotFreeOf(input, pos, text, literal, r.value.begin - pos);
    }
  }

  /** What begins within the text is there, or its beginning is. */
  lemma NotFreeOf(input: string, pos: nat, text: string, literal: string, i: nat)
    requires OccursAt(input, text, pos) && i < |text|
    requires OccursAt(input, literal, pos + i) || HeldBackAt(input, literal, pos + i)
    ensures OccursAt(text, literal, i) || HeldBackAt(text, literal, i)
  {
    InBounds(input, text, pos);
    if OccursAt(input, literal, pos + i) && i + |literal| <= |text| {
      OccursInside(input, pos, text, literal, i);
    } else if OccursAt(input, literal, pos + i) {
      InBounds(input, literal, pos + i);
      var rest := text[i..];
      assert forall k :: 0 <= k < |rest| ==> rest[k] == input[pos + i + k] == literal[k];
      assert rest == literal[..|rest|];
    } else {
      var (held, rest) := (input[pos + i..], text[i..]);
      assert forall k :: 0 <= k < |rest| ==> rest[k] == held[k] == literal[k];
      assert rest == literal[..|rest|];
    }
  }

  lemma ContainsAtEnd(text: string, end: string, more: string)
    ensures Contains(text + end + more, end)
  {
    hide Find;
    var whole := text + end + more;
    assert whole[|text|..|text| + |end|] == end;
    assert OccursAt(whole, end, |text|);
    FindIsLeast(whole, end, 0);
  }

  /** The name up to a visible separator. */
  lemma NameAtSeparator(cx: Context, tool: Tool, pos: nat)
    requires Good(cx) && pos <= |cx.input| && !AllSpace(cx.form.toolSep) && GoodName(cx.form, tool)
    requires OccursAt(cx.input, tool.name + cx.form.toolSep, pos)
    ensures ParseName(cx, pos) == Next(pos + |tool.name + cx.form.toolSep|, CallName(cx, tool))
  {
    hide FoundLiteral, Ends, OccursAt, AllSpace, Strip, HoldsToolEnd;
    FoundWhereWritten(cx.input, pos, cx.partial, tool.name, cx.form.toolSep);
  }

  /** The name up to the first key. */
  lemma NameAtKey(cx: Context, tool: Tool, pos: nat)
    requires Good(cx) && pos <= |cx.input| && AllSpace(cx.form.toolSep) && tool.args != [] && GoodName(cx.form, tool)
    requires OccursAt(cx.input, NameText(cx.form, tool) + cx.form.keyStart, pos)
    ensures ParseName(cx, pos) == Next(pos + |NameText(cx.form, tool)|, CallName(cx, tool))
  {
    hide FoundLiteral, Ends, OccursAt, AllSpace, Strip, HoldsToolEnd, NameText;
    FoundWhereWritten(cx.input, pos, cx.partial, NameText(cx.form, tool), cx.form.keyStart);
  }

  /** The name of a tool without arguments, up to the end of the tool. */
  lemma NameAtEnd(cx: Context, tool: Tool, pos: nat)
    requires Good(cx) && pos <= |cx.input| && AllSpace(cx.form.toolSep) && tool.args == [] && GoodName(cx.form, tool)
    requires cx.form.lastToolEnd.None?
    requires OccursAt(cx.input, NameText(cx.form, tool) + cx.form.toolEnd, pos)
    ensures ParseName(cx, pos) == Next(pos + |NameText(cx.form, tool)|, CallName(cx, tool))
  {
    hide FoundLiteral, Ends, OccursAt, AllSpace, Strip, NameText, FreeOf, Contains;
    var (input, form, text) := (cx.input, cx.form, NameText(cx.form, tool));
    FoundWhereWritten(input, pos, cx.partial, text, form.toolEnd);
    FoundBehind(input, pos, cx.partial, text + form.toolEnd, form.keyStart);
    InBounds(input, text + form.toolEnd, pos);
    var first := FoundLiteral(input, pos, cx.partial, form.keyStart);
    if first.Some? {
      var (prelude, n) := (first.value.prelude, |text + form.toolEnd|);
      SliceOfSlice(input, pos, first.value.begin, 0, n);
      assert prelude[0..n] == text + form.toolEnd;
      assert prelude == text + form.toolEnd + prelude[n..];
      ContainsAtEnd(text, form.toolEnd, prelude[n..]);
    }
  }

  lemma NameRead(cx: Context, tool: Tool, last: bool, pos: nat)
    requires Good(cx) && Readable(cx.form) && pos <= |cx.input| && GoodName(cx.form, tool)
    requires OccursAt(cx.input, WrittenTool(cx.form, tool, last), pos)
    ensures ParseName(cx, pos) == Next(pos + |tool.name + cx.form.toolSep|, CallName(cx, tool))
  {
    hide OccursAt, GoodName, ParseName, AllSpace, Differ;
    var (form, input) := (cx.form, cx.input);
    var (name, rest) := (tool.name + form.toolSep, WrittenArgs(form, tool.args) + ToolEndOf(form, last));
    OccursInParts(input, name, rest, pos);
    if !AllSpace(form.toolSep) {
      NameAtSeparator(cx, tool, pos);
    } else if tool.args != [] {
      FirstKey(form, tool.args);
      var tail := WrittenArgs(form, tool.args)[|form.keyStart|..] + ToolEndOf(form, last);
      assert rest == form.keyStart + tail;
      assert name + rest == (name + form.keyStart) + tail;
      OccursInParts(input, name + form.keyStart, tail, pos);
      NameAtKey(cx, tool, pos);
    } else {
      assert name + rest == name + form.toolEnd;
      NameAtEnd(cx, tool, pos);
    }
  }

  lemma FirstKey(form: Form, args: seq<Arg>)
    requires args != []
    ensures |form.keyStart| <= |WrittenArgs(form, args)|
    ensures WrittenArgs(form, args) == form.keyStart + WrittenArgs(form, args)[|form.keyStart|..]
  {
    var w := WrittenArgs(form, args);
    assert w[..|form.keyStart|] == form.keyStart;
  }

  /** The end of a tool that is where it should be. */
  lemma ToolEndRead(cx: Context, name: string, gathered: Gathered, last: bool, after: string, pos: nat)
    requires Good(cx) && Readable(cx.form) && pos <= |cx.input| && name != ""
    requires OccursAt(cx.input, ToolEndOf(cx.form, last) + after, pos)
    requires last && cx.form.lastToolEnd.Some? ==> after == cx.form.scopeEnd
    ensures ParseToolEnd(cx, name, gathered, pos)
         == Next(pos + |ToolEndOf(cx.form, last)|, ToolCall(name, cx.lib.dump(gathered.args), ""))
  {
    hide OccursAt, FoundClose, AllSpace, Differ, Visible;
    var form := cx.form;
    OccursInParts(cx.input, ToolEndOf(form, last), after, pos);
    NoSpaceInNothing();
    if last && form.lastToolEnd.Some? {
      AlternativeHere(cx, pos, form.toolEnd, form.lastToolEnd.value, form.scopeEnd, None, after);
    } else {
      CloseHere(cx, pos, form.toolEnd, form.lastToolEnd, form.scopeEnd, None);
    }
  }

  lemma ToolRead(cx: Context, recovery: bool, tool: Tool, last: bool, after: string, pos: nat)
    requires Good(cx) && Readable(cx.form) && GoodTool(cx, tool, last) && pos <= |cx.input|
    requires OccursAt(cx.input, WrittenTool(cx.form, tool, last) + after, pos)
    requires last && cx.form.lastToolEnd.Some? ==> after == cx.form.scopeEnd
    ensures ParseTool(cx, recovery, pos) == Next(pos + |WrittenTool(cx.form, tool, last)|, CallOf(cx, tool))
  {
    hide OccursAt, ParseArgs, ParseName, ParseToolEnd, GoodName, Readable, GoodArgs, CallName, Stored, WrittenArgs;
    var (input, form) := (cx.input, cx.form);
    var (name, written, end) := (tool.name + form.toolSep, WrittenArgs(form, tool.args), ToolEndOf(form, last));
    OccursInParts(input, name + (written + end), after, pos);
    NameRead(cx, tool, last, pos);
    var p1 := pos + |name|;
    assert name + (written + end) + after == name + ((written + end) + after);
    OccursInParts(input, name, (written + end) + after, pos);
    OccursInParts(input, written + end, after, p1);
    InBounds(input, written + end, p1);
    ArgsRead(cx, CallName(cx, tool), [], recovery, tool.args, end, p1);
    assert (written + end) + after == written + (end + after);
    OccursInParts(input, written, end + after, p1);
    var gathered := Gathered(Stored([], tool.args), recovery && tool.args == []);
    ToolEndRead(cx, CallName(cx, tool), gathered, last, after, p1 + |written|);
  }

  /** Nothing behind the calls looks like another one; a visible end of the scope sees to that. */
  predicate Stops(cx: Context, pos: nat)
    requires pos <= |cx.input|
  {
    var m := FoundLiteral(cx.input, pos, cx.partial, cx.form.toolStart);
    m.Some? ==> !AllSpace(m.value.prelude)
  }

  lemma NoMoreTools(cx: Context, calls: seq<ToolCall>, recovery: bool, pos: nat)
    requires Good(cx) && pos <= |cx.input| && Stops(cx, pos)
    ensures ParseTools(cx, calls, recovery, pos) == Next(pos, Tools(calls, recovery))
  {
    hide FoundLiteral, AllSpace;
  }

  /** One round of the loop over tools. */
  lemma ToolStep(cx: Context, calls: seq<ToolCall>, recovery: bool, tool: Tool, last: bool, after: string, pos: nat)
    requires Good(cx) && Readable(cx.form) && GoodTool(cx, tool, last) && pos <= |cx.input|
    requires OccursAt(cx.input, cx.form.toolStart + (WrittenTool(cx.form, tool, last) + after), pos)
    requires last && cx.form.lastToolEnd.Some? ==> after == cx.form.scopeEnd
    ensures var next := pos + |cx.form.toolStart| + |WrittenTool(cx.form, tool, last)|;
      && next + |after| <= |cx.input| && OccursAt(cx.input, after, next)
      && ParseTools(cx, calls, recovery, pos) == ParseTools(cx, calls + [CallOf(cx, tool)], false, next)
  {
    hide FoundLiteral, OccursAt, ParseTool, AllSpace, Readable, GoodTool, WrittenTool, CallOf;
    var (input, form) := (cx.input, cx.form);
    var body := WrittenTool(form, tool, last);
    OccursInParts(input, form.toolStart, body + after, pos);
    var at := pos + |form.toolStart|;
    OccursInParts(input, body, after, at);
    InBounds(input, after, at + |body|);
    FoundHere(input, pos, cx.partial, form.toolStart);
    NoSpaceInNothing();
    ToolRead(cx, recovery, tool, last, after, at);
  }

  lemma {:induction false} ToolsRead(cx: Context, calls: seq<ToolCall>, recovery: bool, tools: seq<Tool>, pos: nat)
    requires Good(cx) && Readable(cx.form) && pos <= |cx.input| && GoodTools(cx, tools)
    requires OccursAt(cx.input, WrittenTools(cx.form, tools) + cx.form.scopeEnd, pos)
    requires pos + |WrittenTools(cx.form, tools)| <= |cx.input| && Stops(cx, pos + |WrittenTools(cx.form, tools)|)
    ensures ParseTools(cx, calls, recovery, pos)
         == Next(pos + |WrittenTools(cx.form, tools)|, Tools(calls + Calls(cx, tools), recovery && tools == []))
    decreases |tools|
  {
    hide FoundLiteral, OccursAt, ParseTools, AllSpace, Readable, GoodTool, WrittenTool, CallOf, Stops;
    var (input, form) := (cx.input, cx.form);
    if tools == [] {
      assert calls + [] == calls;
      NoMoreTools(cx, calls, recovery, pos);
    } else {
      var (tool, rest, last) := (tools[0], tools[1..], |tools| == 1);
      var (body, after) := (WrittenTool(form, tool, last), WrittenTools(form, rest) + form.scopeEnd);
      assert WrittenTools(form, tools) + form.scopeEnd == form.toolStart + (body + after);
      assert last ==> after == form.scopeEnd;
      RestIsGoodTools(cx, tools);
      ToolStep(cx, calls, recovery, tool, last, after, pos);
      var next := pos + |form.toolStart| + |body|;
      ToolsRead(cx, calls + [CallOf(cx, tool)], false, rest, next);
      assert calls + [CallOf(cx, tool)] + Calls(cx, rest) == calls + Calls(cx, tools);
    }
  }

  lemma RestIsGoodTools(cx: Context, tools: seq<Tool>)
    requires tools != [] && GoodTools(cx, tools)
    ensures GoodTool(cx, tools[0], |tools| == 1) && GoodTools(cx, tools[1..])
  {
    hide GoodTool;
    assert GoodTool(cx, tools[0], 0 == |tools| - 1);
    forall i | 0 <= i < |tools| - 1 ensures GoodTool(cx, tools[1..][i], i == |tools[1..]| - 1) {
      assert GoodTool(cx, tools[i + 1], i + 1 == |tools| - 1);
    }
  }

  lemma VisibleScopeStops(cx: Context, pos: nat)
    requires pos <= |cx.input| && OccursAt(cx.input, cx.form.scopeEnd, pos)
    requires Visible(cx.form.scopeEnd) && Differ(cx.form.scopeEnd, cx.form.toolStart)
    ensures Stops(cx, pos)
  {
    hide FoundLiteral, OccursAt, AllSpace, Differ;
    OtherLiteralIsBehind(cx.input, pos, cx.partial, cx.form.scopeEnd, cx.form.toolStart);
  }

  /**
   * Every list of tool calls that can be told apart is read back exactly, in partial and in complete parses,
   * wherever it is written and whatever follows it. Without an end of the scope, what follows must not begin
   * another call.
   */
  lemma WrittenCallsAreRead(cx: Context, tools: seq<Tool>, pos: nat)
    requires Good(cx) && Readable(cx.form) && pos <= |cx.input| && GoodTools(cx, tools)
    requires OccursAt(cx.input, Written(cx.form, tools), pos)
    requires var end := pos + |Written(cx.form, tools)|;
      cx.form.scopeEnd == "" && end <= |cx.input| ==> Stops(cx, end)
    ensures ParseXml(cx, pos) == Next(pos + |Written(cx.form, tools)|, Calls(cx, tools))
  {
    hide FoundLiteral, OccursAt, ParseTools, Differ, GoodTools, Calls, WrittenTools, Stops;
    var (input, form) := (cx.input, cx.form);
    var body := WrittenTools(form, tools);
    OccursInParts(input, form.scopeStart, body + form.scopeEnd, pos);
    var at := pos + |form.scopeStart|;
    OccursInParts(input, body, form.scopeEnd, at);
    InBounds(input, form.scopeEnd, at + |body|);
    FoundHere(input, pos, cx.partial, form.scopeStart);
    FoundHere(input, at + |body|, cx.partial, form.scopeEnd);
    NoSpaceInNothing();
    assert AllSpace(form.scopeStart) <==> form.scopeStart == "";
    if form.scopeEnd != "" {
      VisibleScopeStops(cx, at + |body|);
    }
    ToolsRead(cx, [], true, tools, at);
    assert [] + Calls(cx, tools) == Calls(cx, tools);
  }
}
