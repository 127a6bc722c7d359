/** The backtracking parser of chat-parser-xml-toolcall.cpp, moving the cursor of a message parser. */
module XmlToolCalls {
  import opened Wrappers
  import opened Text
  import opened ChatTypes
  import opened ChatParser
  import opened XmlSpec

  function ContextOf(b: ChatMsgParser, form: Form, lib: Library): Context {
    Context(b.input, b.isPartial, form, lib)
  }

  method TryFindTwoLiterals(b: ChatMsgParser, form: Form, lib: Library, first: string, second: string)
    returns (r: Option<Match>)
    requires b.Valid()
    modifies b`pos
    ensures b.Valid() && r == FoundTwoFrom(ContextOf(b, form, lib), old(b.pos), first, second)
    ensures b.pos == if r.Some? then r.value.end else old(b.pos)
  {
    hide FoundLiteral, FoundTwo, SkipSpaces, Follows;
    if first == "" {
      r := b.TryFindLiteral(second);
      return;
    }
    var saved := b.pos;
    ghost var cx := ContextOf(b, form, lib);
    while true
      invariant saved <= b.pos <= |b.input|
      invariant FoundTwo(cx, saved, b.pos, first, second) == FoundTwo(cx, saved, saved, first, second)
      decreases |b.input| - b.pos
    {
      FoundTwoStep(cx, saved, b.pos, first, second);
      r := b.TryFindLiteral(first);
      if r.None? {
        break;
      }
      var m := r.value;
      var _ := b.ConsumeSpaces();
      var length := Min(|second|, |b.input| - b.pos);
      if Follows(b.input, b.pos, second) {
        var _ := b.MoveTo(b.pos + length);
        return Some(Match(b.input[saved..m.begin], m.begin, b.pos));
      }
      var _ := b.MoveTo(m.begin + 1);
    }
    var _ := b.MoveTo(saved);
    return None;
  }

  method TryFindClose(b: ChatMsgParser, form: Form, lib: Library,
                      end: string, alt: Option<string>, next: string, altNext: Option<string>)
    returns (r: Close)
    requires b.Valid()
    modifies b`pos
    ensures b.Valid() && r == FoundClose(ContextOf(b, form, lib), old(b.pos), end, alt, next, altNext)
    ensures b.pos == if r.found.Some? then r.found.value.end else old(b.pos)
  {
    hide FoundLiteral, FoundTwoFrom;
    var saved := b.pos;
    var tc := b.TryFindLiteral(end);
    var size := |end|;
    if alt.Some? {
      var pos1 := b.pos;
      var _ := b.MoveTo(saved);
      var tc2 := TryFindTwoLiterals(b, form, lib, alt.value, next);
      if altNext.Some? {
        var _ := b.MoveTo(saved);
        var tc3 := TryFindTwoLiterals(b, form, lib, alt.value, altNext.value);
        if tc3.Some? && (tc2.None? || |tc2.value.prelude| > |tc3.value.prelude|) {
          tc2 := tc3;
        }
      }
      if tc2.Some? && (tc.None? || |tc.value.prelude| > |tc2.value.prelude|) {
        tc := Some(tc2.value.(end := Min(|b.input|, tc2.value.begin + |alt.value|)));
        var _ := b.MoveTo(tc.value.end);
        size := |alt.value|;
      } else {
        var _ := b.MoveTo(pos1);
      }
    }
    r := Close(size, tc);
  }

  method TryFindValEnd(b: ChatMsgParser, form: Form, lib: Library) returns (r: Close)
    requires b.Valid()
    modifies b`pos
    ensures b.Valid() && r == FoundValEnd(ContextOf(b, form, lib), old(b.pos))
    ensures b.pos == if r.found.Some? then r.found.value.end else old(b.pos)
  {
    r := TryFindClose(b, form, lib, form.valEnd, form.lastValEnd, form.toolEnd, form.lastToolEnd);
  }

  method TryFindToolEnd(b: ChatMsgParser, form: Form, lib: Library) returns (r: Close)
    requires b.Valid()
    modifies b`pos
    ensures b.Valid() && r == FoundToolEnd(ContextOf(b, form, lib), old(b.pos))
    ensures b.pos == if r.found.Some? then r.found.value.end else old(b.pos)
  {
    r := TryFindClose(b, form, lib, form.toolEnd, form.lastToolEnd, form.scopeEnd, None);
  }

  /** The message of `now` is that of `was` with `calls` added. */
  predicate Added(was: Msg, now: Msg, calls: seq<ToolCall>) {
    now == was.(toolCalls := was.toolCalls + calls)
  }

  method AddCall(b: ChatMsgParser, name: string, json: string)
    modifies b`result
    ensures Added(old(b.result), b.result, Call(name, json))
  {
    var added := b.AddToolCall(name, "", json);
    assert !added ==> old(b.result).toolCalls + [] == old(b.result).toolCalls;
  }

  /** gen_partial_args, given the arguments with the flag already set. */
  method AddPartialCall(b: ChatMsgParser, form: Form, lib: Library, name: string, args: Arguments)
    returns (r: Step<()>)
    requires b.Valid()
    modifies b`pos, b`result
    ensures b.Valid() && r == Waiting(PartialCall(ContextOf(b, form, lib), name, args))
    ensures Added(old(b.result), b.result, r.calls)
  {
    var _ := b.ConsumeRest();
    var json := CutAtFlag(lib.dump(args));
    if json.Some? {
      AddCall(b, name, json.value);
      return Waiting(Call(name, json.value));
    }
    assert old(b.result).toolCalls + [] == old(b.result).toolCalls;
    return Waiting([]);
  }

  method ReadKey(b: ChatMsgParser, form: Form, lib: Library, name: string, args: Arguments) returns (r: Step<string>)
    requires b.Valid()
    modifies b`pos, b`result
    ensures b.Valid() && r == ParseKey(ContextOf(b, form, lib), name, args, old(b.pos))
    ensures r.Next? ==> b.pos == r.pos
    ensures Added(old(b.result), b.result, if r.Waiting? then r.calls else [])
  {
    hide FoundLiteral, PartialCall, Set;
    var from := b.pos;
    var m := b.TryFindLiteral(form.keyValSep);
    if m.None? {
      var w := AddPartialCall(b, form, lib, name, Set(args, lib.truncate(b.input[from..]) + Flag(), Text("")));
      return Waiting(w.calls);
    }
    if m.value.end - m.value.begin != |form.keyValSep| {
      var w := AddPartialCall(b, form, lib, name, Set(args, m.value.prelude + Flag(), Text("")));
      return Waiting(w.calls);
    }
    return Next(b.pos, m.value.prelude);
  }

  method ReadSep2(b: ChatMsgParser, form: Form, lib: Library, name: string, args: Arguments, key: string)
    returns (r: Step<()>)
    requires b.Valid()
    modifies b`pos, b`result
    ensures b.Valid() && r == ParseSep2(ContextOf(b, form, lib), name, args, key, old(b.pos))
    ensures r.Next? ==> b.pos == r.pos
    ensures Added(old(b.result), b.result, if r.Waiting? then r.calls else [])
  {
    hide FoundLiteral, PartialCall, Set;
    if form.keyValSep2.None? {
      return Next(b.pos, ());
    }
    var m := b.TryFindLiteral(form.keyValSep2.value);
    if m.Some? && !AllSpace(m.value.prelude) {
      return Broken;
    }
    if m.None? || m.value.end - m.value.begin != |form.keyValSep2.value| {
      r := AddPartialCall(b, form, lib, name, Set(args, key, Text(Flag())));
      return;
    }
    return Next(b.pos, ());
  }

  method ReadPlainValue(b: ChatMsgParser, form: Form, lib: Library, name: string, args: Arguments, key: string)
    returns (r: Step<Value>)
    requires b.Valid() && Good(ContextOf(b, form, lib))
    modifies b`pos, b`result
    ensures b.Valid() && r == ParsePlain(ContextOf(b, form, lib), name, args, key, old(b.pos))
    ensures r.Next? ==> b.pos == r.pos
    ensures Added(old(b.result), b.result, if r.Waiting? then r.calls else [])
  {
    hide FoundClose, PartialCall, Set, Strip;
    var from := b.pos;
    var close := TryFindValEnd(b, form, lib);
    if close.found.None? {
      var rest := lib.truncate(b.input[from..]);
      if form.trimRawArgval {
        rest := StringStrip(rest);
      }
      var w := AddPartialCall(b, form, lib, name, Set(args, key, Text(rest + Flag())));
      return Waiting(w.calls);
    }
    var m := close.found.value;
    var text := m.prelude;
    if form.trimRawArgval {
      text := StringStrip(text);
    }
    if m.end - m.begin != close.size {
      var w := AddPartialCall(b, form, lib, name, Set(args, key, Text(text + Flag())));
      return Waiting(w.calls);
    }
    return Next(b.pos, Text(text));
  }

  /** The part of the loop body that tests whether the value is JSON. */
  method TryReadJson(b: ChatMsgParser, form: Form, lib: Library) returns (r: Option<Json>)
    requires b.Valid() && Good(ContextOf(b, form, lib))
    modifies b`pos
    ensures b.Valid()
    ensures var json := ReadJson(ContextOf(b, form, lib), old(b.pos));
      if json.Some? then r == Some(json.value.0) && b.pos == json.value.1 else r.None? && b.pos == old(b.pos)
  {
    var from := b.pos;
    if form.rawArgval == Some(true) {
      return None;
    }
    var json := lib.consume(b.input, b.pos);
    if json.Some? {
      var _ := b.MoveTo(json.value.1);
      return Some(json.value.0);
    }
    var _ := b.ConsumeSpaces();
    if lib.scalar(b.input[b.pos..]) {
      var _ := b.ConsumeRest();
      return Some(SCALAR);
    }
    var _ := b.MoveTo(from);
    return None;
  }

  /** A JSON value that reaches the end of the input is sent, as far as it goes, and waited for. */
  method AddOpenValue(b: ChatMsgParser, form: Form, lib: Library, name: string, args: Arguments, key: string,
                      json: Json)
    returns (r: Step<Value>)
    requires b.Valid()
    modifies b`pos, b`result
    ensures b.Valid()
    ensures var cx := ContextOf(b, form, lib);
      r == if form.rawArgval == Some(false) && json.structured then
             Waiting(HealedCall(cx, name, Set(args, key, Parsed(json)), json))
           else Waiting(PartialCall(cx, name, Set(args, key, Text(Flag()))))
    ensures r.Waiting? && Added(old(b.result), b.result, r.calls)
  {
    hide PartialCall, Set, OpenObject, RFind, Call;
    if form.rawArgval == Some(false) && json.structured {
      var dumped := lib.dump(Set(args, key, Parsed(json)));
      if json.dumpMarker != "" {
        var at := RFind(dumped, json.dumpMarker, |dumped|);
        if at.Some? {
          dumped := dumped[..at.value];
        }
      } else {
        dumped := OpenObject(dumped);
      }
      AddCall(b, name, dumped);
      return Waiting(Call(name, dumped));
    }
    var w := AddPartialCall(b, form, lib, name, Set(args, key, Text(Flag())));
    return Waiting(w.calls);
  }

  method ReadValue(b: ChatMsgParser, form: Form, lib: Library, name: string, args: Arguments, key: string)
    returns (r: Step<Value>)
    requires b.Valid() && Good(ContextOf(b, form, lib))
    modifies b`pos, b`result
    ensures b.Valid() && r == ParseValue(ContextOf(b, form, lib), name, args, key, old(b.pos))
    ensures r.Next? ==> b.pos == r.pos
    ensures Added(old(b.result), b.result, if r.Waiting? then r.calls else [])
  {
    hide FoundClose, PartialCall, HealedCall, Set, ReadJson, ParsePlain, AllSpace;
    var valStart := b.pos;
    var json := TryReadJson(b, form, lib);
    if json.Some? {
      var jsonEnd := b.pos;
      var _ := b.ConsumeSpaces();
      if b.pos == |b.input| {
        r := AddOpenValue(b, form, lib, name, args, key, json.value);
        return;
      }
      var _ := b.MoveTo(jsonEnd);
      var close := TryFindValEnd(b, form, lib);
      if close.found.Some? && AllSpace(close.found.value.prelude) && json.value.marker == "" {
        if close.found.value.end - close.found.value.begin != close.size {
          var w := AddPartialCall(b, form, lib, name, Set(args, key, Text(Flag())));
          return Waiting(w.calls);
        }
        return Next(b.pos, Parsed(json.value));
      }
      var _ := b.MoveTo(valStart);
    }
    r := ReadPlainValue(b, form, lib, name, args, key);
  }

  method ReadArguments(b: ChatMsgParser, form: Form, lib: Library, name: string, mayRecover: bool)
    returns (r: Step<Gathered>)
    requires b.Valid() && Good(ContextOf(b, form, lib))
    modifies b`pos, b`result
    ensures b.Valid() && r == ParseArgs(ContextOf(b, form, lib), name, [], mayRecover, old(b.pos))
    ensures r.Next? ==> b.pos == r.pos
    ensures Added(old(b.result), b.result, if r.Waiting? then r.calls else [])
  {
    hide FoundLiteral, ParseKey, ParseSep2, ParseValue, Set, AllSpace;
    ghost var cx := ContextOf(b, form, lib);
    var args: Arguments, recovery := [], mayRecover;
    assert Added(b.result, b.result, []);
    while true
      invariant old(b.pos) <= b.pos <= |b.input| && Added(old(b.result), b.result, [])
      invariant ParseArgs(cx, name, args, recovery, b.pos) == ParseArgs(cx, name, [], mayRecover, old(b.pos))
      decreases |b.input| - b.pos
    {
      FoundIsNonempty(b.input, b.pos, b.isPartial, form.keyStart);
      var start := b.pos;
      var m := b.TryFindLiteral(form.keyStart);
      if m.None? {
        return Next(b.pos, Gathered(args, recovery));
      }
      if !AllSpace(m.value.prelude) {
        var _ := b.MoveTo(m.value.begin - |m.value.prelude|);
        return Next(b.pos, Gathered(args, recovery));
      }
      if m.value.end - m.value.begin != |form.keyStart| {
        var json := OpenObject(lib.dump(args));
        AddCall(b, name, json);
        return Waiting(Call(name, json));
      }
      var key := ReadKey(b, form, lib, name, args);
      if !key.Next? {
        return Thrown(key);
      }
      recovery := false;
      var sep2 := ReadSep2(b, form, lib, name, args, key.value);
      if !sep2.Next? {
        return Thrown(sep2);
      }
      var value := ReadValue(b, form, lib, name, args, key.value);
      if !value.Next? {
        return Thrown(value);
      }
      args := Set(args, key.value, value.value);
    }
  }

  method ReadName(b: ChatMsgParser, form: Form, lib: Library) returns (r: Step<string>)
    requires b.Valid() && Good(ContextOf(b, form, lib))
    modifies b`pos
    ensures b.Valid() && r == ParseName(ContextOf(b, form, lib), old(b.pos))
    ensures r.Next? ==> b.pos == r.pos
  {
    hide FoundLiteral, FoundToolEnd, AllSpace, HoldsToolEnd, Strip;
    var from := b.pos;
    var found := b.TryFindLiteral(if AllSpace(form.toolSep) then form.keyStart else form.toolSep);
    if found.None? {
      var close := TryFindToolEnd(b, form, lib);
      found := close.found;
    }
    if found.None? {
      return Waiting([]);
    }
    if HoldsToolEnd(form, found.value.prelude) {
      var _ := b.MoveTo(found.value.begin - |found.value.prelude|);
      var close := TryFindToolEnd(b, form, lib);
      found := close.found;
      if found.None? {
        return Undefined;
      }
    }
    var _ := b.MoveTo(if AllSpace(form.toolSep) then found.value.begin else found.value.end);
    var name := StringStrip(found.value.prelude);
    return Next(b.pos, lib.rename(name));
  }

  /** The lambda return_error: while nothing has been taken in, the cursor goes back to where it was. */
  method ReturnError<T>(b: ChatMsgParser, start: nat, recovery: bool) returns (r: Step<T>)
    requires b.Valid() && start <= |b.input|
    modifies b`pos
    ensures b.Valid() && r == Failed<T>(recovery)
    ensures recovery ==> b.pos == start
  {
    if recovery {
      var _ := b.MoveTo(start);
      return Refused;
    }
    return Broken;
  }

  method ReadToolEnd(b: ChatMsgParser, form: Form, lib: Library, start: nat, name: string, gathered: Gathered)
    returns (r: Step<ToolCall>)
    requires b.Valid() && Good(ContextOf(b, form, lib)) && start <= |b.input|
    modifies b`pos, b`result
    ensures b.Valid() && r == ParseToolEnd(ContextOf(b, form, lib), name, gathered, old(b.pos))
    ensures r.Next? ==> b.pos == r.pos
    ensures r.Refused? ==> b.pos == start
    ensures Added(old(b.result), b.result, if r.Next? then [r.value] else if r.Waiting? then r.calls else [])
  {
    hide FoundToolEnd, AllSpace, OpenObject;
    assert Added(b.result, b.result, []);
    var close := TryFindToolEnd(b, form, lib);
    if close.found.Some? && !AllSpace(close.found.value.prelude) {
      r := ReturnError(b, start, gathered.recovery);
      return;
    }
    if close.found.Some? && close.found.value.end - close.found.value.begin == close.size {
      var added := b.AddToolCall(name, "", lib.dump(gathered.args));
      if !added {
        return Waiting([]);
      }
      return Next(b.pos, ToolCall(name, lib.dump(gathered.args), ""));
    }
    var json := OpenObject(lib.dump(gathered.args));
    AddCall(b, name, json);
    return Waiting(Call(name, json));
  }

  method ReadTool(b: ChatMsgParser, form: Form, lib: Library, start: nat, recovery: bool) returns (r: Step<ToolCall>)
    requires b.Valid() && Good(ContextOf(b, form, lib)) && start <= |b.input|
    modifies b`pos, b`result
    ensures b.Valid() && r == ParseTool(ContextOf(b, form, lib), recovery, old(b.pos))
    ensures r.Next? ==> b.pos == r.pos
    ensures r.Refused? ==> b.pos == start
    ensures Added(old(b.result), b.result, if r.Next? then [r.value] else if r.Waiting? then r.calls else [])
  {
    hide ParseName, ParseArgs, ParseToolEnd;
    ghost var was := b.result;
    assert was.toolCalls + [] == was.toolCalls;
    var name := ReadName(b, form, lib);
    if !name.Next? {
      NameOnlyWaitsForMore(ContextOf(b, form, lib), old(b.pos));
      return Thrown(name);
    }
    var gathered := ReadArguments(b, form, lib, name.value, recovery);
    if !gathered.Next? {
      return Thrown(gathered);
    }
    r := ReadToolEnd(b, form, lib, start, name.value, gathered.value);
  }

  lemma NameOnlyWaitsForMore(cx: Context, pos: nat)
    requires Good(cx) && pos <= |cx.input|
    ensures var r := ParseName(cx, pos); r.Waiting? ==> r.calls == []
  {
    hide FoundLiteral, FoundToolEnd, AllSpace, HoldsToolEnd, Strip;
  }

  /** Calls may have been added; nothing else has changed. */
  predicate OnlyAdds(was: Msg, now: Msg) {
    was.toolCalls <= now.toolCalls && now == was.(toolCalls := now.toolCalls)
  }

  lemma AddedAgain(a: Msg, b: Msg, c: Msg, x: seq<ToolCall>, y: seq<ToolCall>)
    requires Added(a, b, x) && Added(b, c, y)
    ensures Added(a, c, x + y) && OnlyAdds(a, c)
  {
    assert a.toolCalls + x + y == a.toolCalls + (x + y);
  }

  method ReadTools(b: ChatMsgParser, form: Form, lib: Library, start: nat) returns (r: Step<Tools>)
    requires b.Valid() && Good(ContextOf(b, form, lib)) && start <= |b.input|
    modifies b`pos, b`result
    ensures b.Valid() && r == ParseTools(ContextOf(b, form, lib), [], true, old(b.pos))
    ensures r.Next? ==> b.pos == r.pos && Added(old(b.result), b.result, r.value.calls)
    ensures r.Waiting? ==> Added(old(b.result), b.result, r.calls)
    ensures r.Refused? ==> b.pos == start && b.result == old(b.result)
    ensures OnlyAdds(old(b.result), b.result)
  {
    hide FoundLiteral, ParseTool, AllSpace;
    ghost var (cx, was) := (ContextOf(b, form, lib), b.result);
    assert was.toolCalls + [] == was.toolCalls;
    var calls: seq<ToolCall> := [];
    var recovery := true;
    while true
      invariant old(b.pos) <= b.pos <= |b.input| && Added(was, b.result, calls)
      invariant recovery ==> calls == []
      invariant ParseTools(cx, calls, recovery, b.pos) == ParseTools(cx, [], true, old(b.pos))
      decreases |b.input| - b.pos
    {
      FoundIsNonempty(b.input, b.pos, b.isPartial, form.toolStart);
      var m := b.TryFindLiteral(form.toolStart);
      if m.None? {
        return Next(b.pos, Tools(calls, recovery));
      }
      if !AllSpace(m.value.prelude) {
        var _ := b.MoveTo(m.value.begin - |m.value.prelude|);
        return Next(b.pos, Tools(calls, recovery));
      }
      ghost var before := b.result;
      var tool := ReadTool(b, form, lib, start, recovery);
      AddedAgain(was, before, b.result, calls,
                 if tool.Next? then [tool.value] else if tool.Waiting? then tool.calls else []);
      if tool.Waiting? {
        return Waiting(calls + tool.calls);
      }
      if !tool.Next? {
        return Thrown(tool);
      }
      recovery := false;
      calls := calls + [tool.value];
    }
  }

  method ReadScopeStart(b: ChatMsgParser, form: Form, start: nat) returns (r: Step<()>)
    requires b.Valid() && b.pos == start
    modifies b`pos
    ensures b.Valid()
    ensures forall lib :: r == ParseScopeStart(ContextOf(b, form, lib), start)
    ensures r.Next? ==> b.pos == r.pos
    ensures r.Refused? ==> b.pos == start
  {
    hide FoundLiteral, AllSpace;
    if !AllSpace(form.scopeStart) {
      var m := b.TryFindLiteral(form.scopeStart);
      if m.None? {
        return Refused;
      }
      if !AllSpace(m.value.prelude) {
        var _ := b.MoveTo(start);
        return Refused;
      }
      if m.value.end - m.value.begin != |form.scopeStart| {
        return Waiting([]);
      }
    }
    return Next(b.pos, ());
  }

  method ReadScopeEnd(b: ChatMsgParser, form: Form, start: nat, tools: Tools) returns (r: Step<seq<ToolCall>>)
    requires b.Valid() && start <= |b.input|
    modifies b`pos
    ensures b.Valid()
    ensures forall lib :: r == ParseScopeEnd(ContextOf(b, form, lib), tools, old(b.pos))
    ensures r.Next? ==> b.pos == r.pos
    ensures r.Refused? ==> b.pos == start
  {
    hide FoundLiteral, AllSpace;
    var m := b.TryFindLiteral(form.scopeEnd);
    if m.Some? {
      if !AllSpace(m.value.prelude) {
        r := ReturnError(b, start, tools.recovery);
        return;
      }
    } else if !AllSpace(form.scopeEnd) {
      var _ := b.ConsumeSpaces();
      if b.pos == |b.input| {
        return Waiting(tools.calls);
      }
      r := ReturnError(b, start, tools.recovery);
      return;
    }
    return Next(b.pos, tools.calls);
  }

  method ParseXmlToolCalls(b: ChatMsgParser, form: Form, lib: Library) returns (r: Step<seq<ToolCall>>)
    requires b.Valid() && Good(ContextOf(b, form, lib))
    modifies b`pos, b`result
    ensures b.Valid() && r == ParseXml(ContextOf(b, form, lib), old(b.pos))
    ensures r.Next? ==> b.pos == r.pos && Added(old(b.result), b.result, r.value)
    ensures r.Waiting? ==> Added(old(b.result), b.result, r.calls)
    ensures r.Refused? ==> b.pos == old(b.pos) && b.result == old(b.result)
    ensures OnlyAdds(old(b.result), b.result)
  {
    hide ParseScopeStart, ParseTools, ParseScopeEnd;
    ghost var cx := ContextOf(b, form, lib);
    var start := b.pos;
    assert Added(b.result, b.result, []);
    var scope := ReadScopeStart(b, form, start);
    assert scope == ParseScopeStart(cx, start);
    ScopeStartAddsNothing(cx, start);
    if !scope.Next? {
      return Thrown(scope);
    }
    var tools := ReadTools(b, form, lib, start);
    if !tools.Next? {
      return Thrown(tools);
    }
    r := ReadScopeEnd(b, form, start, tools.value);
    assert r == ParseScopeEnd(cx, tools.value, tools.pos);
    ScopeEndAddsNothing(cx, tools.value, tools.pos);
    assert tools.value.recovery ==> tools.value.calls == [];
  }

  lemma ScopeStartAddsNothing(cx: Context, pos: nat)
    requires pos <= |cx.input|
    ensures var r := ParseScopeStart(cx, pos); r.Waiting? ==> r.calls == []
  {
  }

  lemma ScopeEndAddsNothing(cx: Context, tools: Tools, pos: nat)
    requires pos <= |cx.input|
    ensures var r := ParseScopeEnd(cx, tools, pos);
      (r.Waiting? ==> r.calls == tools.calls) && (r.Next? ==> r.value == tools.calls)
  {
  }

  /** What the caller of try_consume_xml_tool_calls sees. */
  datatype Outcome = Consumed(ok: bool) | Incomplete | EmptyOptional

  function OutcomeOf(step: Step<seq<ToolCall>>): Outcome {
    match step
    case Next(_, _) => Consumed(true)
    case Waiting(_) => Incomplete
    case Refused => Consumed(false)
    case Broken => Consumed(false)
    case Undefined => EmptyOptional
  }

  /** A syntax exception is caught here: the cursor and the list of calls are put back. */
  method TryConsumeXmlToolCalls(b: ChatMsgParser, form: Form, lib: Library) returns (r: Outcome)
    requires b.Valid() && Good(ContextOf(b, form, lib))
    modifies b`pos, b`result
    ensures b.Valid()
    ensures r == OutcomeOf(ParseXml(ContextOf(b, form, lib), old(b.pos)))
    ensures r == Consumed(false) ==> b.pos == old(b.pos) && b.result == old(b.result)
    ensures r == Consumed(true) ==>
      var step := ParseXml(ContextOf(b, form, lib), old(b.pos));
      step.Next? && b.pos == step.pos && Added(old(b.result), b.result, step.value)
    ensures r == Incomplete ==>
      var step := ParseXml(ContextOf(b, form, lib), old(b.pos));
      step.Waiting? && Added(old(b.result), b.result, step.calls)
    ensures OnlyAdds(old(b.result), b.result)
  {
    hide ParseXml;
    var (pos, size) := (b.pos, |b.result.toolCalls|);
    var step := ParseXmlToolCalls(b, form, lib);
    if step.Broken? {
      var _ := b.MoveTo(pos);
      assert b.result.toolCalls[..size] == old(b.result).toolCalls;
      b.result := b.result.(toolCalls := b.result.toolCalls[..size]);
    }
    return OutcomeOf(step);
  }
}
