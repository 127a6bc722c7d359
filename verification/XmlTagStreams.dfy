/** Streaming in the formats that are made of tags, in plain terms. */
module XmlTagStreams {
  import opened Text
  import opened ChatTypes
  import opened XmlSpec
  import opened XmlLiterals
  import opened XmlLaws
  import opened XmlForms
  import opened XmlDump
  import opened XmlPartial
  import opened XmlStreaming

  lemma TagsLeadOnce(form: Form)
    requires Tagged(form) || form == GLM_4_5
    ensures LeadsOnce(form.valEnd) && LeadsOnce(form.keyValSep) && LeadsOnce(form.keyStart)
    ensures LeadsOnce(form.toolEnd) && LeadsOnce(form.toolStart)
    ensures form.valEnd[0] == '<' && form.lastValEnd.None? && form.lastToolEnd.None?
    ensures AllSpace(form.toolSep) <==> form == GLM_4_5
  {
    hide LeadsOnce;
    ValuesLeadOnce(form);
    KeysLeadOnce(form);
    ToolEndsLeadOnce(form);
    ToolStartsLeadOnce(form);
    if form != GLM_4_5 {
      NotAllSpace(form.toolSep, 0);
    }
  }

  lemma ValuesLeadOnce(form: Form)
    requires Tagged(form) || form == GLM_4_5
    ensures LeadsOnce(form.valEnd) && form.valEnd[0] == '<'
  {
  }

  lemma KeysLeadOnce(form: Form)
    requires Tagged(form) || form == GLM_4_5
    ensures LeadsOnce(form.keyValSep) && LeadsOnce(form.keyStart)
  {
  }

  lemma ToolEndsLeadOnce(form: Form)
    requires Tagged(form) || form == GLM_4_5
    ensures LeadsOnce(form.toolEnd)
  {
  }

  lemma ToolStartsLeadOnce(form: Form)
    requires Tagged(form) || form == GLM_4_5
    ensures LeadsOnce(form.toolStart)
  {
  }

  /** A call with one argument, of which the value has come as far as `part`. */
  function FirstValue(form: Form, name: string, key: string, value: string, part: string): Place {
    var arg := Arg(key, value, Text(if form.trimRawArgval then Strip(value) else value));
    Place([], Tool(name, [arg]), 0, InValue(arg, part, true))
  }

  function FirstValueSent(cx: Context, w: Writer, key: string, part: string): string {
    WithoutQuote("{" + (Quoted(w, key) + ":") + Begun(w, Trimmed(cx, cx.lib.truncate(part))))
  }

  /**
   While the value of the first argument comes, what is sent is the name, the key, and the text so far, cut between
   characters, trimmed if the format says so, and written as JSON without a closing quote.
   */
  lemma FirstValueStreams(cx: Context, w: Writer, name: string, key: string, value: string, part: string, pos: nat)
    requires Tagged(cx.form) || cx.form == GLM_4_5
    requires Good(cx) && cx.partial && Dumps(cx.lib, w) && cx.lib.rename(Strip(name + "")) != ""
    requires '<' !in name && (cx.form.toolSep != "" ==> cx.form.toolSep[0] !in name)
    requires cx.form.keyValSep[0] !in key && '<' !in value && part <= value
    requires Truncates(cx.lib, value, cx.form.valEnd) && JsonSees(cx, part, true)
    requires EndsAt(cx.input, pos, WrittenTo(cx.form, FirstValue(cx.form, name, key, value, part)))
    ensures ParseXml(cx, pos)
         == Waiting([ToolCall(cx.lib.rename(Strip(name)), FirstValueSent(cx, w, key, part), "")])
  {
    hide Ends, Readable, ParseXml, WrittenTo, Dumps, Truncates, JsonSees, Strip, WithoutQuote, Quoted, Begun, LeadsOnce;
    var pl := FirstValue(cx.form, name, key, value, part);
    ConfiguredIsReadable(cx.form);
    TagsLeadOnce(cx.form);
    assert name + "" == name;
    NameIsGood(cx.form, pl.tool);
    ValueIsGood(cx, pl.part);
    BrokenOffCall(cx, w, pl, pos);
    NoTagTaken(cx.lib, part, cx.form.valEnd);
    assert [] + [SentCall(cx, w, pl)] == [SentCall(cx, w, pl)];
    assert "{" + "" + (Quoted(w, key) + ":") == "{" + (Quoted(w, key) + ":");
  }

  lemma NameIsGood(form: Form, tool: Tool)
    requires (Tagged(form) || form == GLM_4_5) && tool.args != []
    requires '<' !in tool.name && (form.toolSep != "" ==> form.toolSep[0] !in tool.name)
    ensures GoodName(form, tool)
    ensures NameText(form, tool) == tool.name
  {
    hide Ends;
    TagsLeadOnce(form);
    assert tool.name + "" == tool.name;
    WithoutLetter(tool.name, form.toolEnd);
    if form == GLM_4_5 {
      WithoutLetter(tool.name, form.keyStart);
    } else {
      WithoutLetter(tool.name, form.toolSep);
    }
  }

  lemma ValueIsGood(cx: Context, p: Part)
    requires (Tagged(cx.form) || cx.form == GLM_4_5) && p.InValue? && p.plain
    requires cx.form.keyValSep[0] !in p.arg.key && '<' !in p.arg.text && p.text <= p.arg.text
    requires Truncates(cx.lib, p.arg.text, cx.form.valEnd) && JsonSees(cx, p.text, true)
    ensures GoodPart(cx, p)
  {
    hide Ends, Truncates, JsonSees, LeadsOnce;
    TagsLeadOnce(cx.form);
    WithoutLetter(p.arg.key, cx.form.keyValSep);
    WithoutLetter(p.arg.text, cx.form.valEnd);
    assert |cx.form.valEnd| > 0;
  }

  lemma NoTagTaken(lib: Library, part: string, literal: string)
    requires literal != "" && literal[0] !in part
    ensures Taken(lib, part, literal) == lib.truncate(part)
  {
    PartialStopIsLeast(part, literal, 0);
    forall i: nat ensures !HeldBackAt(part, literal, i) {
      FirstLetter(part, literal, i);
    }
  }
}
