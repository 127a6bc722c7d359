/**
 * What parse_xml_tool_calls of chat-parser-xml-toolcall.cpp computes, as functions of the input and a position.
 * JSON reading and printing belong to another component and are parameters here.
 */
module XmlSpec {
  import opened Wrappers
  import opened Text
  import opened ChatTypes
  import opened ChatParser

  datatype Form = Form(
    scopeStart: string, toolStart: string, toolSep: string, keyStart: string, keyValSep: string,
    valEnd: string, toolEnd: string, scopeEnd: string,
    keyValSep2: Option<string>, rawArgval: Option<bool>,
    lastValEnd: Option<string>, lastToolEnd: Option<string>, trimRawArgval: bool)

  /** The assertions at the head of parse_xml_tool_calls. */
  predicate Proper(form: Form) {
    && form.toolStart != "" && form.keyStart != "" && form.keyValSep != ""
    && form.valEnd != "" && form.toolEnd != ""
  }

  /** A JSON value that was read, perhaps healed: `structured` if it is a string, an object or an array. */
  datatype Json = Json(text: string, structured: bool, marker: string, dumpMarker: string)

  datatype Value = Text(text: string) | Parsed(json: Json)

  type Arguments = seq<(string, Value)>

  datatype Library = Library(
    consume: (string, nat) -> Option<(Json, nat)>, // try_consume_json from a position; None also if it throws
    scalar: string -> bool,                        // the text may begin null, true, false or a number
    dump: Arguments -> string,                     // json::dump of the object
    truncate: string -> string,                    // utf8_truncate_safe_resize
    rename: string -> string)                      // the name clean-up for one model family

  /** Reading JSON moves forward within the input. */
  ghost predicate Forward(lib: Library) {
    forall s, i: nat {:trigger lib.consume(s, i)} :: i <= |s| && lib.consume(s, i).Some? ==>
      i < lib.consume(s, i).value.1 <= |s|
  }

  datatype Context = Context(input: string, partial: bool, form: Form, lib: Library)

  ghost predicate Good(cx: Context) {
    Proper(cx.form) && Forward(cx.lib)
  }

  /**
   * How a step ends: it goes on from a position; it throws common_chat_msg_partial_exception after adding calls;
   * it returns false; it throws xml_toolcall_syntax_exception; it reads an empty std::optional.
   */
  datatype Step<+T> =
    Next(pos: nat, value: T) | Waiting(calls: seq<ToolCall>) | Refused | Broken | Undefined

  /** Every way to end but going on leaves the enclosing step as well. */
  function Thrown<T, U>(s: Step<T>): (r: Step<U>)
    requires !s.Next?
    ensures !r.Next? && (r.Waiting? <==> s.Waiting?) && (r.Refused? <==> s.Refused?)
    ensures s.Waiting? ==> r.calls == s.calls
  {
    match s
    case Waiting(calls) => Waiting(calls)
    case Refused => Refused
    case Broken => Broken
    case Undefined => Undefined
  }

  // ---- finding literals ----------------------------------------------------------------------

  lemma FoundIsNonempty(input: string, pos: nat, partial: bool, literal: string)
    requires pos <= |input| && literal != ""
    ensures var r := FoundLiteral(input, pos, partial, literal); r.Some? ==> r.value.begin < r.value.end
  {
  }

  /** Whether `second` is at `at`, as far as the input goes. */
  predicate Follows(input: string, at: nat, second: string)
    requires at <= |input|
  {
    var length := Min(|second|, |input| - at);
    input[at..at + length] == second[..length]
  }

  /** try_find_2_literal_splited_by_spaces, having searched from `saved` up to `from`. */
  function FoundTwo(cx: Context, saved: nat, from: nat, first: string, second: string): (r: Option<Match>)
    requires saved <= from <= |cx.input| && first != ""
    ensures r.Some? ==>
      && from <= r.value.begin < r.value.end <= |cx.input|
      && r.value.prelude == cx.input[saved..r.value.begin]
    decreases |cx.input| - from
  {
    match FoundLiteral(cx.input, from, cx.partial, first)
    case None => None
    case Some(m) =>
      FoundIsNonempty(cx.input, from, cx.partial, first);
      var at := SkipSpaces(cx.input, m.end);
      if Follows(cx.input, at, second) then
        Some(Match(cx.input[saved..m.begin], m.begin, at + Min(|second|, |cx.input| - at)))
      else FoundTwo(cx, saved, m.begin + 1, first, second)
  }

  /** One round of the search. */
  lemma FoundTwoStep(cx: Context, saved: nat, from: nat, first: string, second: string)
    requires saved <= from <= |cx.input| && first != ""
    ensures var (m, r) := (FoundLiteral(cx.input, from, cx.partial, first), FoundTwo(cx, saved, from, first, second));
      if m.None? then r.None?
      else
        var at := SkipSpaces(cx.input, m.value.end);
        && m.value.begin < |cx.input|
        && (Follows(cx.input, at, second) ==>
            r == Some(Match(cx.input[saved..m.value.begin], m.value.begin, at + Min(|second|, |cx.input| - at))))
        && (!Follows(cx.input, at, second) ==> r == FoundTwo(cx, saved, m.value.begin + 1, first, second))
  {
    hide FoundLiteral, SkipSpaces, Follows;
    FoundIsNonempty(cx.input, from, cx.partial, first);
  }

  function FoundTwoFrom(cx: Context, pos: nat, first: string, second: string): (r: Option<Match>)
    requires pos <= |cx.input|
    ensures r.Some? ==>
      && pos <= r.value.begin <= r.value.end <= |cx.input|
      && r.value.prelude == cx.input[pos..r.value.begin]
  {
    if first == "" then FoundLiteral(cx.input, pos, cx.partial, second)
    else FoundTwo(cx, pos, pos, first, second)
  }

  /** A closing literal and the length that it should have. */
  datatype Close = Close(size: nat, found: Option<Match>)

  /** The lambda try_find_close: the alternative end counts where it comes first and is followed by its own next. */
  function FoundClose(cx: Context, pos: nat, end: string, alt: Option<string>, next: string, altNext: Option<string>)
    : (r: Close)
    requires pos <= |cx.input|
    ensures r.found.Some? ==>
      && pos <= r.found.value.begin <= r.found.value.end <= |cx.input|
      && r.found.value.prelude == cx.input[pos..r.found.value.begin]
  {
    var tc := FoundLiteral(cx.input, pos, cx.partial, end);
    if alt.None? then Close(|end|, tc)
    else
      var two := FoundTwoFrom(cx, pos, alt.value, next);
      var three := if altNext.None? then None else FoundTwoFrom(cx, pos, alt.value, altNext.value);
      var best := if three.Some? && (two.None? || |two.value.prelude| > |three.value.prelude|) then three else two;
      if best.Some? && (tc.None? || |tc.value.prelude| > |best.value.prelude|) then
        var m := best.value;
        Close(|alt.value|, Some(m.(end := Min(|cx.input|, m.begin + |alt.value|))))
      else Close(|end|, tc)
  }

  function FoundValEnd(cx: Context, pos: nat): (r: Close)
    requires pos <= |cx.input|
    ensures r.found.Some? ==> |r.found.value.prelude| == r.found.value.begin - pos
  {
    FoundClose(cx, pos, cx.form.valEnd, cx.form.lastValEnd, cx.form.toolEnd, cx.form.lastToolEnd)
  }

  function FoundToolEnd(cx: Context, pos: nat): (r: Close)
    requires pos <= |cx.input|
    ensures r.found.Some? ==> |r.found.value.prelude| == r.found.value.begin - pos
  {
    FoundClose(cx, pos, cx.form.toolEnd, cx.form.lastToolEnd, cx.form.scopeEnd, None)
  }

  // ---- partial arguments ---------------------------------------------------------------------

  function Flag(): string {
    "XML_TOOL_CALL_PARTIAL_FLAG"
  }

  /** std::string::rfind, looking at positions up to `from`. */
  function RFind(s: string, needle: string, from: nat): (r: Option<nat>)
    ensures r.Some? ==> r.value + |needle| <= |s|
  {
    if OccursAt(s, needle, from) then Some(from)
    else if from == 0 then None
    else RFind(s, needle, from - 1)
  }

  predicate Closes(s: string) {
    forall i :: 0 <= i < |s| ==> s[i] == '\'' || s[i] == '"' || s[i] == '}' || s[i] == ':' || IsSpace(s[i])
  }

  /** The lambda partial_json: the text before the flag, if only closing characters follow it. */
  function CutAtFlag(json: string): Option<string> {
    match RFind(json, Flag(), |json|)
    case None => None
    case Some(at) =>
      if !Closes(json[at + |Flag()|..]) then None
      else if at != 0 && json[at - 1] == '"' then Some(json[..at - 1])
      else Some(json[..at])
  }

  /** Without the brace that closes the object. */
  function OpenObject(json: string): string {
    if json != "" && json[|json| - 1] == '}' then json[..|json| - 1] else json
  }

  /** add_tool_call ignores a call without a name. */
  function Call(name: string, arguments: string): seq<ToolCall> {
    if name == "" then [] else [ToolCall(name, arguments, "")]
  }

  /** What gen_partial_json adds for arguments that hold the flag. */
  function PartialCall(cx: Context, name: string, args: Arguments): seq<ToolCall> {
    match CutAtFlag(cx.lib.dump(args))
    case None => []
    case Some(json) => Call(name, json)
  }

  function OpenCall(cx: Context, name: string, args: Arguments): seq<ToolCall> {
    Call(name, OpenObject(cx.lib.dump(args)))
  }

  /** The call for a JSON value that reaches the end of the input: it is cut where it was healed. */
  function HealedCall(cx: Context, name: string, args: Arguments, json: Json): seq<ToolCall> {
    var dumped := cx.lib.dump(args);
    if json.dumpMarker == "" then Call(name, OpenObject(dumped))
    else
      match RFind(dumped, json.dumpMarker, |dumped|)
      case None => Call(name, dumped)
      case Some(at) => Call(name, dumped[..at])
  }

  /** arguments[key] = value on an ordered JSON object. */
  function Set(args: Arguments, key: string, value: Value): (r: Arguments)
    ensures |args| <= |r| <= |args| + 1
  {
    if args == [] then [(key, value)]
    else if args[0].0 == key then [(key, value)] + args[1..]
    else [args[0]] + Set(args[1..], key, value)
  }

  // ---- values --------------------------------------------------------------------------------

  const SCALAR := Json("123", false, "123", "123")

  /** The attempt to read a value as JSON; a rest that may be a scalar counts as one and takes all the input. */
  function ReadJson(cx: Context, pos: nat): Option<(Json, nat)>
    requires pos <= |cx.input|
  {
    if cx.form.rawArgval == Some(true) then None
    else
      var json := cx.lib.consume(cx.input, pos);
      if json.Some? then json
      else if cx.lib.scalar(cx.input[SkipSpaces(cx.input, pos)..]) then Some((SCALAR, |cx.input|))
      else None
  }

  function Trimmed(cx: Context, text: string): string {
    if cx.form.trimRawArgval then Strip(text) else text
  }

  function ParsePlain(cx: Context, name: string, args: Arguments, key: string, pos: nat): (r: Step<Value>)
    requires Good(cx) && pos <= |cx.input|
    ensures r.Next? ==> pos <= r.pos <= |cx.input|
    ensures !r.Refused?
  {
    var close := FoundValEnd(cx, pos);
    match close.found
    case Some(m) =>
      var text := Trimmed(cx, m.prelude);
      if m.end - m.begin != close.size then Waiting(PartialCall(cx, name, Set(args, key, Text(text + Flag()))))
      else Next(m.end, Text(text))
    case None =>
      var rest := Trimmed(cx, cx.lib.truncate(cx.input[pos..]));
      Waiting(PartialCall(cx, name, Set(args, key, Text(rest + Flag()))))
  }

  function ParseValue(cx: Context, name: string, args: Arguments, key: string, pos: nat): (r: Step<Value>)
    requires Good(cx) && pos <= |cx.input|
    ensures r.Next? ==> pos <= r.pos <= |cx.input|
    ensures !r.Refused?
  {
    match ReadJson(cx, pos)
    case None => ParsePlain(cx, name, args, key, pos)
    case Some((json, end)) =>
      if SkipSpaces(cx.input, end) == |cx.input| then
        if cx.form.rawArgval == Some(false) && json.structured then
          Waiting(HealedCall(cx, name, Set(args, key, Parsed(json)), json))
        else
          Waiting(PartialCall(cx, name, Set(args, key, Text(Flag()))))
      else
        var close := FoundValEnd(cx, end);
        if close.found.Some? && AllSpace(close.found.value.prelude) && json.marker == "" then
          var m := close.found.value;
          if m.end - m.begin != close.size then Waiting(PartialCall(cx, name, Set(args, key, Text(Flag()))))
          else Next(m.end, Parsed(json))
        else ParsePlain(cx, name, args, key, pos)
  }

  /** The second separator between key and value, if the form has one. */
  function ParseSep2(cx: Context, name: string, args: Arguments, key: string, pos: nat): (r: Step<()>)
    requires pos <= |cx.input|
    ensures r.Next? ==> pos <= r.pos <= |cx.input|
    ensures !r.Refused?
  {
    if cx.form.keyValSep2.None? then Next(pos, ())
    else
      var sep := cx.form.keyValSep2.value;
      match FoundLiteral(cx.input, pos, cx.partial, sep)
      case None => Waiting(PartialCall(cx, name, Set(args, key, Text(Flag()))))
      case Some(m) =>
        if !AllSpace(m.prelude) then Broken
        else if m.end - m.begin != |sep| then Waiting(PartialCall(cx, name, Set(args, key, Text(Flag()))))
        else Next(m.end, ())
  }

  /** The key that ends at the separator. */
  function ParseKey(cx: Context, name: string, args: Arguments, pos: nat): (r: Step<string>)
    requires pos <= |cx.input|
    ensures r.Next? ==> pos <= r.pos <= |cx.input|
    ensures !r.Refused?
  {
    match FoundLiteral(cx.input, pos, cx.partial, cx.form.keyValSep)
    case None =>
      Waiting(PartialCall(cx, name, Set(args, cx.lib.truncate(cx.input[pos..]) + Flag(), Text(""))))
    case Some(m) =>
      if m.end - m.begin != |cx.form.keyValSep| then
        Waiting(PartialCall(cx, name, Set(args, m.prelude + Flag(), Text(""))))
      else Next(m.end, m.prelude)
  }

  datatype Gathered = Gathered(args: Arguments, recovery: bool)

  /** The loop over keys and values. */
  function ParseArgs(cx: Context, name: string, args: Arguments, recovery: bool, pos: nat): (r: Step<Gathered>)
    requires Good(cx) && pos <= |cx.input|
    ensures r.Next? ==> pos <= r.pos <= |cx.input|
    ensures !r.Refused? && (r.Next? && r.value.recovery ==> recovery && r.value.args == args)
    decreases |cx.input| - pos
  {
    match FoundLiteral(cx.input, pos, cx.partial, cx.form.keyStart)
    case None => Next(pos, Gathered(args, recovery))
    case Some(m) =>
      FoundIsNonempty(cx.input, pos, cx.partial, cx.form.keyStart);
      if !AllSpace(m.prelude) then Next(pos, Gathered(args, recovery))
      else if m.end - m.begin != |cx.form.keyStart| then Waiting(OpenCall(cx, name, args))
      else
        var key := ParseKey(cx, name, args, m.end);
        if !key.Next? then Thrown(key)
        else
          var sep2 := ParseSep2(cx, name, args, key.value, key.pos);
          if !sep2.Next? then Thrown(sep2)
          else
            var value := ParseValue(cx, name, args, key.value, sep2.pos);
            if !value.Next? then Thrown(value)
            else ParseArgs(cx, name, Set(args, key.value, value.value), false, value.pos)
  }

  // ---- tools ---------------------------------------------------------------------------------

  function NameLiteral(form: Form): string {
    if AllSpace(form.toolSep) then form.keyStart else form.toolSep
  }

  predicate Contains(s: string, needle: string) {
    Find(s, needle, 0).Some?
  }

  predicate HoldsToolEnd(form: Form, text: string) {
    Contains(text, form.toolEnd) || (form.lastToolEnd.Some? && Contains(text, form.lastToolEnd.value))
  }

  /** The name of the tool, up to its separator, its first key or its end. */
  function ParseName(cx: Context, pos: nat): (r: Step<string>)
    requires Good(cx) && pos <= |cx.input|
    ensures r.Next? ==> pos <= r.pos <= |cx.input|
    ensures !r.Refused?
  {
    var first := FoundLiteral(cx.input, pos, cx.partial, NameLiteral(cx.form));
    var second := if first.Some? then first else FoundToolEnd(cx, pos).found;
    if second.None? then Waiting([])
    else
      var found := if HoldsToolEnd(cx.form, second.value.prelude) then FoundToolEnd(cx, pos).found else second;
      if found.None? then Undefined
      else
        var m := found.value;
        Next(if AllSpace(cx.form.toolSep) then m.begin else m.end, cx.lib.rename(Strip(m.prelude)))
  }

  /** return_error: false while nothing has been taken in yet, an exception afterwards. */
  function Failed<T>(recovery: bool): Step<T> {
    if recovery then Refused else Broken
  }

  function ParseToolEnd(cx: Context, name: string, gathered: Gathered, pos: nat): (r: Step<ToolCall>)
    requires Good(cx) && pos <= |cx.input|
    ensures r.Next? ==> pos <= r.pos <= |cx.input|
    ensures r.Refused? ==> gathered.recovery
  {
    var close := FoundToolEnd(cx, pos);
    if close.found.Some? && !AllSpace(close.found.value.prelude) then Failed(gathered.recovery)
    else if close.found.Some? && close.found.value.end - close.found.value.begin == close.size then
      if name == "" then Waiting([])
      else Next(close.found.value.end, ToolCall(name, cx.lib.dump(gathered.args), ""))
    else Waiting(OpenCall(cx, name, gathered.args))
  }

  /** One tool call, from behind its opening literal. */
  function ParseTool(cx: Context, recovery: bool, pos: nat): (r: Step<ToolCall>)
    requires Good(cx) && pos <= |cx.input|
    ensures r.Next? ==> pos <= r.pos <= |cx.input|
    ensures r.Refused? ==> recovery
  {
    var name := ParseName(cx, pos);
    if !name.Next? then Thrown(name)
    else
      var gathered := ParseArgs(cx, name.value, [], recovery, name.pos);
      if !gathered.Next? then Thrown(gathered)
      else ParseToolEnd(cx, name.value, gathered.value, gathered.pos)
  }

  datatype Tools = Tools(calls: seq<ToolCall>, recovery: bool)

  /** The loop over tool calls, `calls` having been added already. */
  function ParseTools(cx: Context, calls: seq<ToolCall>, recovery: bool, pos: nat): (r: Step<Tools>)
    requires Good(cx) && pos <= |cx.input|
    ensures r.Next? ==> pos <= r.pos <= |cx.input|
    ensures r.Refused? ==> recovery
    ensures r.Next? && r.value.recovery ==> recovery && r.value.calls == calls
    decreases |cx.input| - pos
  {
    match FoundLiteral(cx.input, pos, cx.partial, cx.form.toolStart)
    case None => Next(pos, Tools(calls, recovery))
    case Some(m) =>
      FoundIsNonempty(cx.input, pos, cx.partial, cx.form.toolStart);
      if !AllSpace(m.prelude) then Next(pos, Tools(calls, recovery))
      else
        var tool := ParseTool(cx, recovery, m.end);
        if tool.Waiting? then Waiting(calls + tool.calls)
        else if !tool.Next? then Thrown(tool)
        else ParseTools(cx, calls + [tool.value], false, tool.pos)
  }

  function ParseScopeEnd(cx: Context, tools: Tools, pos: nat): (r: Step<seq<ToolCall>>)
    requires pos <= |cx.input|
    ensures r.Next? ==> pos <= r.pos <= |cx.input|
    ensures r.Refused? ==> tools.recovery
  {
    match FoundLiteral(cx.input, pos, cx.partial, cx.form.scopeEnd)
    case Some(m) => if AllSpace(m.prelude) then Next(m.end, tools.calls) else Failed(tools.recovery)
    case None =>
      if AllSpace(cx.form.scopeEnd) then Next(pos, tools.calls)
      else if SkipSpaces(cx.input, pos) == |cx.input| then Waiting(tools.calls)
      else Failed(tools.recovery)
  }

  function ParseScopeStart(cx: Context, pos: nat): (r: Step<()>)
    requires pos <= |cx.input|
    ensures r.Next? ==> pos <= r.pos <= |cx.input|
  {
    if AllSpace(cx.form.scopeStart) then Next(pos, ())
    else
      match FoundLiteral(cx.input, pos, cx.partial, cx.form.scopeStart)
      case None => Refused
      case Some(m) =>
        if !AllSpace(m.prelude) then Refused
        else if m.end - m.begin != |cx.form.scopeStart| then Waiting([])
        else Next(m.end, ())
  }

  /** parse_xml_tool_calls: the calls that it adds and where it stops. */
  function ParseXml(cx: Context, pos: nat): (r: Step<seq<ToolCall>>)
    requires Good(cx) && pos <= |cx.input|
    ensures r.Next? ==> pos <= r.pos <= |cx.input|
  {
    var start := ParseScopeStart(cx, pos);
    if !start.Next? then Thrown(start)
    else
      var tools := ParseTools(cx, [], true, start.pos);
      if !tools.Next? then Thrown(tools)
      else ParseScopeEnd(cx, tools.value, tools.pos)
  }
}
