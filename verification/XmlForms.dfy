/** The seven XML-style formats that chat-parser.cpp configures. */
module XmlForms {
  import opened Wrappers
  import opened Text
  import opened XmlSpec
  import opened XmlLiterals
  import opened XmlLaws

  const MINIMAX_M2 := Form(
    "<minimax:tool_call>", "<invoke name=\"", "\">", "<parameter name=\"", "\">", "</parameter>", "</invoke>",
    "</minimax:tool_call>", None, None, None, None, false)

  const QWEN3_CODER := Form(
    "<tool_call>", "<function=", ">", "<parameter=", ">", "</parameter>", "</function>",
    "</tool_call>", None, None, None, None, true)

  const KIMI_K2 := Form(
    "<|tool_calls_section_begin|>", "<|tool_call_begin|>", "<|tool_call_argument_begin|>{", "\"", "\":", ",",
    "}<|tool_call_end|>", "<|tool_calls_section_end|>", None, Some(false), Some(""), None, false)

  const APRIEL_1_5 := Form(
    "<tool_calls>[", "{\"name\": \"", "\", \"arguments\": {", "\"", "\": ", ", ", "}, ",
    "]</tool_calls>", None, Some(false), Some(""), Some("}"), false)

  const XIAOMI_MIMO := Form(
    "", "<tool_call>\n{\"name\": \"", "\", \"arguments\": {", "\"", "\": ", ", ", "}\n</tool_call>",
    "", None, Some(false), Some(""), None, false)

  const GLM_4_5 := Form(
    "", "<tool_call>", "", "<arg_key>", "</arg_key>", "</arg_value>", "</tool_call>",
    "", Some("<arg_value>"), None, None, None, false)

  const SEED_OSS := Form(
    "<seed:tool_call>", "<function=", ">", "<parameter=", ">", "</parameter>", "</function>",
    "</seed:tool_call>", None, None, None, None, false)

  predicate Configured(form: Form) {
    || form == MINIMAX_M2 || form == QWEN3_CODER || form == KIMI_K2 || form == APRIEL_1_5
    || form == XIAOMI_MIMO || form == GLM_4_5 || form == SEED_OSS
  }

  lemma DifferAt(a: string, b: string, i: nat)
    requires i < |a| && i < |b| && a[i] != b[i]
    ensures Differ(a, b)
  {
  }

  lemma NotAllSpace(s: string, i: nat)
    requires i < |s| && !IsSpace(s[i])
    ensures !AllSpace(s)
  {
  }

  predicate Tagged(form: Form) {
    form == MINIMAX_M2 || form == QWEN3_CODER || form == SEED_OSS
  }

  lemma TaggedIsReadable(form: Form)
    requires Tagged(form)
    ensures Readable(form)
  {
    hide Differ, AllSpace;
    NotAllSpace(form.valEnd, 0);
    DifferAt(form.toolEnd, form.keyStart, 1);
    DifferAt(form.scopeEnd, form.toolStart, 1);
  }

  lemma GlmIsReadable()
    ensures Readable(GLM_4_5)
  {
    hide Differ;
    NotAllSpace(GLM_4_5.valEnd, 0);
    DifferAt(GLM_4_5.toolEnd, GLM_4_5.keyStart, 1);
  }

  lemma KimiIsReadable()
    ensures Readable(KIMI_K2)
  {
    hide Differ;
    var form := KIMI_K2;
    NotAllSpace(form.valEnd, 0);
    DifferAt(form.toolEnd, form.keyStart, 0);
    DifferAt("" + form.toolEnd, form.valEnd, 0);
    assert form.scopeEnd[11] == 's' && form.toolStart[11] == '_';
    DifferAt(form.scopeEnd, form.toolStart, 11);
  }

  lemma AprielIsReadable()
    ensures Readable(APRIEL_1_5)
  {
    hide Differ;
    var form := APRIEL_1_5;
    NotAllSpace(form.valEnd, 0);
    NotAllSpace(form.toolSep, 0);
    DifferAt(form.toolEnd, form.keyStart, 0);
    DifferAt("}", form.keyStart, 0);
    DifferAt("" + form.toolEnd, form.valEnd, 0);
    DifferAt("" + "}", form.valEnd, 0);
    DifferAt("}" + form.scopeEnd, form.toolEnd, 1);
    DifferAt(form.scopeEnd, form.toolStart, 0);
  }

  lemma MimoIsReadable()
    ensures Readable(XIAOMI_MIMO)
  {
    hide Differ;
    var form := XIAOMI_MIMO;
    NotAllSpace(form.valEnd, 0);
    DifferAt(form.toolEnd, form.keyStart, 0);
    DifferAt("" + form.toolEnd, form.valEnd, 0);
  }

  /** In every configured format the literals can be told apart. */
  lemma ConfiguredIsReadable(form: Form)
    requires Configured(form)
    ensures Readable(form)
  {
    hide Readable;
    if form == KIMI_K2 { KimiIsReadable(); }
    else if form == APRIEL_1_5 { AprielIsReadable(); }
    else if form == XIAOMI_MIMO { MimoIsReadable(); }
    else if form == GLM_4_5 { GlmIsReadable(); }
    else { TaggedIsReadable(form); }
  }

  /** So in every configured format the calls that a model writes are read back. */
  lemma ConfiguredCallsAreRead(cx: Context, tools: seq<Tool>, pos: nat)
    requires Configured(cx.form) && Forward(cx.lib) && pos <= |cx.input| && GoodTools(cx, tools)
    requires OccursAt(cx.input, Written(cx.form, tools), pos)
    requires var end := pos + |Written(cx.form, tools)|;
      cx.form.scopeEnd == "" && end <= |cx.input| ==> Stops(cx, end)
    ensures Proper(cx.form)
    ensures ParseXml(cx, pos) == Next(pos + |Written(cx.form, tools)|, Calls(cx, tools))
  {
    hide Configured, GoodTools, OccursAt, ParseXml;
    ConfiguredIsReadable(cx.form);
    WrittenCallsAreRead(cx, tools, pos);
  }

  /** A value that is text without a tag and that JSON reading leaves alone. */
  ghost predicate Untagged(cx: Context, arg: Arg) {
    && '<' !in arg.text && arg.value == Text(Trimmed(cx, arg.text))
    && forall s, i: nat {:trigger cx.lib.consume(s, i)} :: OccursAt(s, arg.text + cx.form.valEnd, i) ==>
         NotJson(cx.lib, s, i, i + |arg.text|)
  }

  /** A key that does not end early, and such a value or one that JSON reading takes. */
  ghost predicate TaggedArg(cx: Context, arg: Arg) {
    && cx.form.keyValSep != "" && cx.form.keyValSep[0] !in arg.key
    && (Untagged(cx, arg) || (arg.value.Parsed? && ReadsJson(cx, arg.text, arg.value.json, cx.form.valEnd)))
  }

  lemma TaggedArgIsGood(cx: Context, arg: Arg, last: bool, toolEnd: string)
    requires cx.form.lastValEnd.None? && cx.form.valEnd != "" && cx.form.valEnd[0] == '<' && TaggedArg(cx, arg)
    ensures GoodArg(cx, arg, last, toolEnd)
  {
    hide Ends, ReadsJson;
    WithoutLetter(arg.key, cx.form.keyValSep);
    if Untagged(cx, arg) {
      WithoutLetter(arg.text, cx.form.valEnd);
      forall s, i: nat | OccursAt(s, arg.text + cx.form.valEnd, i) ensures NotJson(cx.lib, s, i, i + |arg.text|) {
        var taken := cx.lib.consume(s, i);
      }
    }
  }

  /**
   In the formats made of tags alone, a tool is read back if no part of it holds a letter that begins what ends it;
   its values may be JSON as well.
   */
  lemma UntaggedToolIsGood(cx: Context, tool: Tool, last: bool)
    requires Tagged(cx.form) && CallName(cx, tool) != ""
    requires '<' !in tool.name && cx.form.toolSep[0] !in tool.name
    requires forall i :: 0 <= i < |tool.args| ==> TaggedArg(cx, tool.args[i])
    ensures GoodTool(cx, tool, last)
  {
    hide Ends, GoodArg, TaggedArg, CallName;
    NotAllSpace(cx.form.toolSep, 0);
    WithoutLetter(tool.name, cx.form.toolSep);
    WithoutLetter(tool.name, cx.form.toolEnd);
    forall i | 0 <= i < |tool.args| ensures GoodArg(cx, tool.args[i], i == |tool.args| - 1, ToolEndOf(cx.form, last)) {
      TaggedArgIsGood(cx, tool.args[i], i == |tool.args| - 1, ToolEndOf(cx.form, last));
    }
  }

  predicate Jsonic(form: Form) {
    form == KIMI_K2 || form == APRIEL_1_5 || form == XIAOMI_MIMO
  }

  /** A key without a quote and a value that JSON reading takes. */
  ghost predicate JsonArg(cx: Context, arg: Arg, last: bool, toolEnd: string) {
    '"' !in arg.key && arg.value.Parsed? && ReadsJson(cx, arg.text, arg.value.json, Closing(cx.form, last, toolEnd))
  }

  lemma JsonicLetters(form: Form)
    requires Jsonic(form)
    ensures form.toolSep != "" && (form.toolSep[0] == '<' || form.toolSep[0] == '"') && !AllSpace(form.toolSep)
    ensures form.keyValSep != "" && form.keyValSep[0] == '"' && form.toolEnd != "" && form.toolEnd[0] == '}'
    ensures form.lastToolEnd.None? || form.lastToolEnd == Some("}")
  {
    NotAllSpace(form.toolSep, 0);
  }

  /**
   In the formats that write JSON (Kimi-K2, Apriel 1.5, MiMo) a tool is read back if its name holds no brace and no
   first letter of what follows it, and its keys no quote.
   */
  lemma JsonToolIsGood(cx: Context, tool: Tool, last: bool)
    requires Jsonic(cx.form) && CallName(cx, tool) != "" && '}' !in tool.name
    requires cx.form.toolSep != "" && cx.form.toolSep[0] !in tool.name
    requires var n := |tool.args|;
      forall i :: 0 <= i < n ==> JsonArg(cx, tool.args[i], i == n - 1, ToolEndOf(cx.form, last))
    ensures GoodTool(cx, tool, last)
  {
    hide Ends, ReadsJson, CallName, AllSpace, Jsonic;
    var (form, n, end) := (cx.form, |tool.args|, ToolEndOf(cx.form, last));
    JsonicLetters(form);
    WithoutLetter(tool.name, form.toolSep);
    WithoutLetter(tool.name, form.toolEnd);
    WithoutLetter(tool.name, "}");
    forall i | 0 <= i < n ensures GoodArg(cx, tool.args[i], i == n - 1, end) {
      assert JsonArg(cx, tool.args[i], i == n - 1, end);
      WithoutLetter(tool.args[i].key, form.keyValSep);
    }
  }

  /** Behind a name without a tag the end of a tool cannot become a key. */
  lemma EndIsNoKey(name: string)
    requires '<' !in name
    ensures FreeOf(name + "</tool_call>", "<arg_key>")
  {
    hide Find, PartialStop;
    var (s, key) := (name + "</tool_call>", "<arg_key>");
    FindIsLeast(s, key, 0);
    PartialStopIsLeast(s, key, 0);
    forall i: nat ensures !OccursAt(s, key, i) && !HeldBackAt(s, key, i) {
      NotKeyAt(name, i);
    }
  }

  lemma NotKeyAt(name: string, i: nat)
    requires '<' !in name
    ensures !OccursAt(name + "</tool_call>", "<arg_key>", i) && !HeldBackAt(name + "</tool_call>", "<arg_key>", i)
  {
    hide OccursAt, HeldBackAt;
    var (s, end, key) := (name + "</tool_call>", "</tool_call>", "<arg_key>");
    FirstLetter(s, key, i);
    if i == |name| {
      assert s[i..i + |end|] == end;
      StandsAt(s, end, i);
      SameLetter(s, i, end, key, 1);
    } else if i < |s| {
      assert '<' !in end[1..];
      assert i > |name| ==> s[i] == end[1..][i - |name| - 1];
    }
  }

  /** GLM 4.5 is made of tags too, but has no separator behind the name. */
  lemma GlmToolIsGood(cx: Context, tool: Tool, last: bool)
    requires cx.form == GLM_4_5 && CallName(cx, tool) != "" && '<' !in tool.name
    requires forall i :: 0 <= i < |tool.args| ==> TaggedArg(cx, tool.args[i])
    ensures GoodTool(cx, tool, last)
  {
    hide Ends, GoodArg, TaggedArg, CallName, FreeOf;
    var (form, n, end) := (cx.form, |tool.args|, ToolEndOf(cx.form, last));
    assert tool.name + "" == tool.name;
    WithoutLetter(tool.name, form.keyStart);
    WithoutLetter(tool.name, form.toolEnd);
    EndIsNoKey(tool.name);
    forall i | 0 <= i < n ensures GoodArg(cx, tool.args[i], i == n - 1, end) {
      TaggedArgIsGood(cx, tool.args[i], i == n - 1, end);
    }
  }
}
