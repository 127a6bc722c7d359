/** Whatever a complete parse accepts was written in the format: nothing is skipped but white space. */
module XmlSound {
  import opened Wrappers
  import opened Text
  import opened ChatTypes
  import opened ChatParser
  import opened XmlSpec

  // ---- what was accepted ---------------------------------------------------------------------

  /** An argument with the white space before its literals, the text of its value, and the literal that ended it. */
  datatype ArgSeen = ArgSeen(space: string, key: string, space2: string, text: string, value: Value, end: string)

  datatype ToolSeen =
    ToolSeen(space: string, name: string, sep: string, args: seq<ArgSeen>, space2: string, end: string)

  datatype Seen = Seen(space: string, start: string, tools: seq<ToolSeen>, space2: string, end: string)

  function Sep2(form: Form): string {
    match form.keyValSep2 case None => "" case Some(sep) => sep
  }

  function ArgText(form: Form, a: ArgSeen): string {
    (a.space + form.keyStart) + ((a.key + form.keyValSep) + ((a.space2 + Sep2(form)) + (a.text + a.end)))
  }

  function ArgsText(form: Form, args: seq<ArgSeen>): string {
    if args == [] then "" else ArgText(form, args[0]) + ArgsText(form, args[1..])
  }

  function ToolText(form: Form, t: ToolSeen): string {
    (t.space + form.toolStart) + ((t.name + t.sep) + (ArgsText(form, t.args) + (t.space2 + t.end)))
  }

  function ToolsText(form: Form, tools: seq<ToolSeen>): string {
    if tools == [] then "" else ToolText(form, tools[0]) + ToolsText(form, tools[1..])
  }

  function SeenText(form: Form, s: Seen): string {
    (s.space + s.start) + (ToolsText(form, s.tools) + (s.space2 + s.end))
  }

  /** The value is the text, trimmed if the form says so, or the complete JSON that the text is but for white space. */
  ghost predicate ValueIs(cx: Context, text: string, value: Value) {
    match value
    case Text(t) => t == Trimmed(cx, text)
    case Parsed(json) =>
      json.marker == "" && exists i, end, space :: JsonText(cx, text, json, i, end, space)
  }

  predicate JsonText(cx: Context, text: string, json: Json, i: nat, end: nat, space: string) {
    && i <= end <= |cx.input| && text == cx.input[i..end] + space && AllSpace(space)
    && cx.lib.consume(cx.input, i) == Some((json, end))
  }

  /** The literal, or its alternative. */
  predicate IsEnd(end: string, literal: string, alt: Option<string>) {
    end == literal || alt == Some(end)
  }

  ghost predicate ArgSound(cx: Context, a: ArgSeen) {
    && AllSpace(a.space) && AllSpace(a.space2) && (cx.form.keyValSep2.None? ==> a.space2 == "")
    && IsEnd(a.end, cx.form.valEnd, cx.form.lastValEnd) && ValueIs(cx, a.text, a.value)
  }

  ghost predicate ToolSound(cx: Context, t: ToolSeen) {
    && AllSpace(t.space) && AllSpace(t.space2) && IsEnd(t.end, cx.form.toolEnd, cx.form.lastToolEnd)
    && (if AllSpace(cx.form.toolSep) then t.sep == ""
        else t.sep == cx.form.toolSep || IsEnd(t.sep, cx.form.toolEnd, cx.form.lastToolEnd))
    && forall i :: 0 <= i < |t.args| ==> ArgSound(cx, t.args[i])
  }

  ghost predicate SeenSound(cx: Context, s: Seen) {
    && AllSpace(s.space) && AllSpace(s.space2)
    && s.start == (if AllSpace(cx.form.scopeStart) then "" else cx.form.scopeStart)
    && (s.end == cx.form.scopeEnd || (AllSpace(cx.form.scopeEnd) && s.end == ""))
    && forall i :: 0 <= i < |s.tools| ==> ToolSound(cx, s.tools[i])
  }

  function StoredSeen(args: Arguments, more: seq<ArgSeen>): Arguments
    decreases |more|
  {
    if more == [] then args else StoredSeen(Set(args, more[0].key, more[0].value), more[1..])
  }

  function CallSeen(cx: Context, t: ToolSeen): ToolCall {
    ToolCall(cx.lib.rename(Strip(t.name)), cx.lib.dump(StoredSeen([], t.args)), "")
  }

  function CallsSeen(cx: Context, tools: seq<ToolSeen>): seq<ToolCall> {
    if tools == [] then [] else [CallSeen(cx, tools[0])] + CallsSeen(cx, tools[1..])
  }

  // ---- literals ------------------------------------------------------------------------------

  lemma Slices(s: string, a: nat, b: nat, c: nat)
    requires a <= b <= c <= |s|
    ensures s[a..c] == s[a..b] + s[b..c]
  {
  }

  lemma LiteralSeen(input: string, pos: nat, literal: string)
    requires pos <= |input|
    ensures var m := FoundLiteral(input, pos, false, literal);
      m.Some? ==> input[pos..m.value.end] == m.value.prelude + literal && m.value.end == m.value.begin + |literal|
  {
    FindIsLeast(input, literal, pos);
    var m := FoundLiteral(input, pos, false, literal);
    if m.Some? {
      Slices(input, pos, m.value.begin, m.value.end);
    }
  }

  lemma {:induction false} FirstOfTwoSeen(cx: Context, saved: nat, from: nat, first: string, second: string)
    requires saved <= from <= |cx.input| && first != "" && !cx.partial
    ensures var m := FoundTwo(cx, saved, from, first, second); m.Some? ==> OccursAt(cx.input, first, m.value.begin)
    decreases |cx.input| - from
  {
    hide FoundLiteral, SkipSpaces, Follows, OccursAt, FoundTwo;
    FoundTwoStep(cx, saved, from, first, second);
    var m := FoundLiteral(cx.input, from, cx.partial, first);
    if m.Some? {
      FirstSeen(cx.input, from, first);
      if !Follows(cx.input, SkipSpaces(cx.input, m.value.end), second) {
        FirstOfTwoSeen(cx, saved, m.value.begin + 1, first, second);
      }
    }
  }

  lemma FirstSeen(input: string, pos: nat, literal: string)
    requires pos <= |input|
    ensures var m := FoundLiteral(input, pos, false, literal); m.Some? ==> OccursAt(input, literal, m.value.begin)
  {
    FindIsLeast(input, literal, pos);
  }

  lemma TwoSeen(cx: Context, pos: nat, first: string, second: string)
    requires pos <= |cx.input| && !cx.partial
    ensures var m := FoundTwoFrom(cx, pos, first, second); m.Some? ==> OccursAt(cx.input, first, m.value.begin)
  {
    if first != "" {
      FirstOfTwoSeen(cx, pos, pos, first, second);
    }
  }

  lemma CloseSeen(cx: Context, pos: nat, literal: string, alt: Option<string>, next: string, altNext: Option<string>)
    returns (end: string)
    requires pos <= |cx.input| && !cx.partial
    ensures IsEnd(end, literal, alt)
    ensures var r := FoundClose(cx, pos, literal, alt, next, altNext);
      r.found.Some? ==>
        var m := r.found.value;
        && cx.input[pos..m.end] == m.prelude + end && m.end == m.begin + |end| && r.size == |end|
  {
    hide FoundLiteral, FoundTwoFrom;
    var tc := FoundLiteral(cx.input, pos, cx.partial, literal);
    LiteralSeen(cx.input, pos, literal);
    var r := FoundClose(cx, pos, literal, alt, next, altNext);
    end := literal;
    if alt.Some? {
      TwoSeen(cx, pos, alt.value, next);
      if altNext.Some? { TwoSeen(cx, pos, alt.value, altNext.value); }
      if r.found.Some? && r.found != tc {
        end := alt.value;
        Slices(cx.input, pos, r.found.value.begin, r.found.value.begin + |end|);
      }
    }
  }

  // ---- arguments -----------------------------------------------------------------------------

  lemma PlainSeen(cx: Context, name: string, args: Arguments, key: string, pos: nat) returns (text: string, end: string)
    requires Good(cx) && pos <= |cx.input| && !cx.partial
    ensures var r := ParsePlain(cx, name, args, key, pos);
      r.Next? ==>
        && cx.input[pos..r.pos] == text + end && IsEnd(end, cx.form.valEnd, cx.form.lastValEnd)
        && r.value == Text(Trimmed(cx, text))
  {
    hide FoundClose, Trimmed, PartialCall, Set;
    end := CloseSeen(cx, pos, cx.form.valEnd, cx.form.lastValEnd, cx.form.toolEnd, cx.form.lastToolEnd);
    var close := FoundValEnd(cx, pos);
    text := if close.found.Some? then close.found.value.prelude else "";
  }

  lemma ValueSeen(cx: Context, name: string, args: Arguments, key: string, pos: nat) returns (text: string, end: string)
    requires Good(cx) && pos <= |cx.input| && !cx.partial
    ensures var r := ParseValue(cx, name, args, key, pos);
      r.Next? ==>
        && cx.input[pos..r.pos] == text + end && IsEnd(end, cx.form.valEnd, cx.form.lastValEnd)
        && ValueIs(cx, text, r.value)
  {
    hide FoundClose, Trimmed, PartialCall, HealedCall, Set, ParsePlain, AllSpace;
    text, end := PlainSeen(cx, name, args, key, pos);
    var json := ReadJson(cx, pos);
    if json.Some? && SkipSpaces(cx.input, json.value.1) != |cx.input| {
      var (value, to) := json.value;
      var close := FoundValEnd(cx, to);
      if close.found.Some? && AllSpace(close.found.value.prelude) && value.marker == "" {
        end := CloseSeen(cx, to, cx.form.valEnd, cx.form.lastValEnd, cx.form.toolEnd, cx.form.lastToolEnd);
        var m := close.found.value;
        text := cx.input[pos..to] + m.prelude;
        Slices(cx.input, pos, to, m.end);
        assert JsonText(cx, text, value, pos, to, m.prelude);
      }
    }
  }

  lemma Sep2Seen(cx: Context, name: string, args: Arguments, key: string, pos: nat) returns (space: string)
    requires pos <= |cx.input| && !cx.partial
    ensures var r := ParseSep2(cx, name, args, key, pos);
      r.Next? ==>
        && cx.input[pos..r.pos] == space + Sep2(cx.form) && AllSpace(space)
        && (cx.form.keyValSep2.None? ==> space == "")
  {
    hide FoundLiteral, PartialCall, Set;
    space := "";
    if cx.form.keyValSep2.Some? {
      var sep := cx.form.keyValSep2.value;
      LiteralSeen(cx.input, pos, sep);
      var m := FoundLiteral(cx.input, pos, cx.partial, sep);
      if m.Some? && AllSpace(m.value.prelude) {
        space := m.value.prelude;
      }
    }
  }

  lemma KeySeen(cx: Context, name: string, args: Arguments, pos: nat)
    requires pos <= |cx.input| && !cx.partial
    ensures var r := ParseKey(cx, name, args, pos); r.Next? ==> cx.input[pos..r.pos] == r.value + cx.form.keyValSep
  {
    hide FoundLiteral, PartialCall, Set;
    LiteralSeen(cx.input, pos, cx.form.keyValSep);
  }

  /** One round of the loop over arguments. */
  lemma ArgSeenAt(cx: Context, name: string, args: Arguments, recovery: bool, pos: nat) returns (a: ArgSeen, next: nat)
    requires Good(cx) && pos <= |cx.input| && !cx.partial && ParseArgs(cx, name, args, recovery, pos).Next?
    ensures var m := FoundLiteral(cx.input, pos, cx.partial, cx.form.keyStart);
      if m.Some? && AllSpace(m.value.prelude) then
        && pos < next <= |cx.input| && cx.input[pos..next] == ArgText(cx.form, a) && ArgSound(cx, a)
        && ParseArgs(cx, name, args, recovery, pos) == ParseArgs(cx, name, Set(args, a.key, a.value), false, next)
      else ParseArgs(cx, name, args, recovery, pos) == Next(pos, Gathered(args, recovery))
  {
    hide FoundLiteral, AllSpace, ParseKey, ParseSep2, ParseValue, Set, ValueIs, OpenCall;
    var form := cx.form;
    a, next := ArgSeen("", "", "", "", Text(""), ""), pos;
    var m := FoundLiteral(cx.input, pos, cx.partial, form.keyStart);
    LiteralSeen(cx.input, pos, form.keyStart);
    if m.Some? && AllSpace(m.value.prelude) {
      FoundIsNonempty(cx.input, pos, cx.partial, form.keyStart);
      var p1 := m.value.end;
      KeySeen(cx, name, args, p1);
      var key := ParseKey(cx, name, args, p1);
      var space2 := Sep2Seen(cx, name, args, key.value, key.pos);
      var sep2 := ParseSep2(cx, name, args, key.value, key.pos);
      var text, end := ValueSeen(cx, name, args, key.value, sep2.pos);
      var value := ParseValue(cx, name, args, key.value, sep2.pos);
      next := value.pos;
      a := ArgSeen(m.value.prelude, key.value, space2, text, value.value, end);
      Slices(cx.input, pos, p1, next);
      Slices(cx.input, p1, key.pos, next);
      Slices(cx.input, key.pos, sep2.pos, next);
    }
  }

  lemma {:induction false} ArgsSeen(cx: Context, name: string, args: Arguments, recovery: bool, pos: nat)
    returns (seen: seq<ArgSeen>)
    requires Good(cx) && pos <= |cx.input| && !cx.partial && ParseArgs(cx, name, args, recovery, pos).Next?
    ensures var r := ParseArgs(cx, name, args, recovery, pos);
      && cx.input[pos..r.pos] == ArgsText(cx.form, seen) && r.value.args == StoredSeen(args, seen)
      && forall i :: 0 <= i < |seen| ==> ArgSound(cx, seen[i])
    decreases |cx.input| - pos
  {
    hide FoundLiteral, AllSpace, ParseArgs, Set, ArgSound, ArgText;
    var a, next := ArgSeenAt(cx, name, args, recovery, pos);
    var m := FoundLiteral(cx.input, pos, cx.partial, cx.form.keyStart);
    seen := [];
    if m.Some? && AllSpace(m.value.prelude) {
      var more := ArgsSeen(cx, name, Set(args, a.key, a.value), false, next);
      seen := [a] + more;
      Slices(cx.input, pos, next, ParseArgs(cx, name, args, recovery, pos).pos);
    }
  }

  // ---- tools ---------------------------------------------------------------------------------

  lemma NameSeen(cx: Context, pos: nat) returns (name: string, sep: string)
    requires Good(cx) && pos <= |cx.input| && !cx.partial
    ensures var r := ParseName(cx, pos);
      r.Next? ==>
        && cx.input[pos..r.pos] == name + sep && r.value == cx.lib.rename(Strip(name))
        && (if AllSpace(cx.form.toolSep) then sep == ""
            else sep == cx.form.toolSep || IsEnd(sep, cx.form.toolEnd, cx.form.lastToolEnd))
  {
    hide FoundLiteral, FoundClose, AllSpace, Strip, HoldsToolEnd;
    var form := cx.form;
    var end := CloseSeen(cx, pos, form.toolEnd, form.lastToolEnd, form.scopeEnd, None);
    LiteralSeen(cx.input, pos, NameLiteral(form));
    var first := FoundLiteral(cx.input, pos, cx.partial, NameLiteral(form));
    var close := FoundToolEnd(cx, pos).found;
    var second := if first.Some? then first else close;
    name, sep := "", "";
    if second.Some? {
      var found := if HoldsToolEnd(form, second.value.prelude) then close else second;
      if found.Some? {
        name := found.value.prelude;
        if !AllSpace(form.toolSep) {
          sep := if found == first then form.toolSep else end;
        }
      }
    }
  }

  lemma ToolEndSeen(cx: Context, name: string, gathered: Gathered, pos: nat) returns (space: string, end: string)
    requires Good(cx) && pos <= |cx.input| && !cx.partial
    ensures var r := ParseToolEnd(cx, name, gathered, pos);
      r.Next? ==>
        && cx.input[pos..r.pos] == space + end && AllSpace(space) && IsEnd(end, cx.form.toolEnd, cx.form.lastToolEnd)
        && r.value == ToolCall(name, cx.lib.dump(gathered.args), "")
  {
    hide FoundClose, AllSpace;
    end := CloseSeen(cx, pos, cx.form.toolEnd, cx.form.lastToolEnd, cx.form.scopeEnd, None);
    var close := FoundToolEnd(cx, pos).found;
    space := if close.Some? then close.value.prelude else "";
  }

  /** One tool, from behind its opening literal. */
  lemma ToolSeenAt(cx: Context, recovery: bool, pos: nat) returns (t: ToolSeen)
    requires Good(cx) && pos <= |cx.input| && !cx.partial && ParseTool(cx, recovery, pos).Next?
    ensures var r := ParseTool(cx, recovery, pos);
      && cx.input[pos..r.pos] == (t.name + t.sep) + (ArgsText(cx.form, t.args) + (t.space2 + t.end))
      && r.value == CallSeen(cx, t) && t.space == "" && ToolSound(cx, t)
  {
    hide AllSpace, Strip, ParseName, ParseArgs, ParseToolEnd, ArgSound, ArgsText, IsEnd;
    var text, sep := NameSeen(cx, pos);
    var name := ParseName(cx, pos);
    var args := ArgsSeen(cx, name.value, [], recovery, name.pos);
    var gathered := ParseArgs(cx, name.value, [], recovery, name.pos);
    var space2, end := ToolEndSeen(cx, name.value, gathered.value, gathered.pos);
    var r := ParseTool(cx, recovery, pos);
    t := ToolSeen("", text, sep, args, space2, end);
    Slices(cx.input, pos, name.pos, r.pos);
    Slices(cx.input, name.pos, gathered.pos, r.pos);
    NoSpace();
  }

  lemma NoSpace()
    ensures AllSpace("")
  {
  }

  lemma {:induction false} ToolsSeen(cx: Context, calls: seq<ToolCall>, recovery: bool, pos: nat)
    returns (seen: seq<ToolSeen>)
    requires Good(cx) && pos <= |cx.input| && !cx.partial && ParseTools(cx, calls, recovery, pos).Next?
    ensures var r := ParseTools(cx, calls, recovery, pos);
      && cx.input[pos..r.pos] == ToolsText(cx.form, seen) && r.value.calls == calls + CallsSeen(cx, seen)
      && forall i :: 0 <= i < |seen| ==> ToolSound(cx, seen[i])
    decreases |cx.input| - pos
  {
    hide FoundLiteral, AllSpace, ParseTool, CallSeen, ArgSound, ArgsText, IsEnd;
    var m := FoundLiteral(cx.input, pos, cx.partial, cx.form.toolStart);
    LiteralSeen(cx.input, pos, cx.form.toolStart);
    seen := [];
    if m.Some? && AllSpace(m.value.prelude) {
      FoundIsNonempty(cx.input, pos, cx.partial, cx.form.toolStart);
      var at := m.value.end;
      var t := ToolSeenAt(cx, recovery, at);
      var tool := ParseTool(cx, recovery, at);
      var more := ToolsSeen(cx, calls + [tool.value], false, tool.pos);
      var one := t.(space := m.value.prelude);
      SameCall(cx, t, m.value.prelude);
      seen := [one] + more;
      var end := ParseTools(cx, calls, recovery, pos).pos;
      Slices(cx.input, pos, tool.pos, end);
      Slices(cx.input, pos, at, tool.pos);
      assert calls + [tool.value] + CallsSeen(cx, more) == calls + CallsSeen(cx, seen);
    } else {
      assert calls + [] == calls;
    }
  }

  lemma SameCall(cx: Context, t: ToolSeen, space: string)
    ensures CallSeen(cx, t.(space := space)) == CallSeen(cx, t)
  {
  }

  /**
   Whatever a complete parse accepts is a list of calls in the format with white space before its literals: the calls
   that it adds are those that are written there, and where it stops is where they end.
   */
  lemma AcceptedIsWritten(cx: Context, pos: nat) returns (seen: Seen)
    requires Good(cx) && pos <= |cx.input| && !cx.partial && ParseXml(cx, pos).Next?
    ensures var r := ParseXml(cx, pos);
      && cx.input[pos..r.pos] == SeenText(cx.form, seen) && SeenSound(cx, seen)
      && r.value == CallsSeen(cx, seen.tools)
  {
    hide FoundLiteral, AllSpace, ParseTools, ToolSound, CallsSeen, ToolsText;
    var (form, input) := (cx.form, cx.input);
    var start := ParseScopeStart(cx, pos);
    LiteralSeen(input, pos, form.scopeStart);
    var m := FoundLiteral(input, pos, cx.partial, form.scopeStart);
    var space := if AllSpace(form.scopeStart) then "" else m.value.prelude;
    var tools := ToolsSeen(cx, [], true, start.pos);
    var parsed := ParseTools(cx, [], true, start.pos);
    var close := FoundLiteral(input, parsed.pos, cx.partial, form.scopeEnd);
    LiteralSeen(input, parsed.pos, form.scopeEnd);
    var (space2, end) := if close.Some? then (close.value.prelude, form.scopeEnd) else ("", "");
    seen := Seen(space, if AllSpace(form.scopeStart) then "" else form.scopeStart, tools, space2, end);
    NoSpace();
    var r := ParseXml(cx, pos);
    Slices(input, pos, start.pos, r.pos);
    Slices(input, start.pos, parsed.pos, r.pos);
    assert [] + CallsSeen(cx, tools) == CallsSeen(cx, tools);
  }
}
