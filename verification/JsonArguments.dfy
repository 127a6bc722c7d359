/**
 * common_chat_peg_constructed_mapper of chat-peg-parser.cpp: the arguments of a tool call as JSON text that grows
 * with the events of the parse.
 */
module JsonArguments {
  import opened Text
  import opened ChatTypes

  datatype Event =
    | ToolOpen | ToolName(text: string) | ToolClose
    | ArgOpen | ArgName(text: string) | ArgString(text: string) | ArgJson(text: string) | ArgClose
    | Reasoning(text: string) | Content(text: string)

  /** trim_trailing_space with its default limit. */
  function Trimmed(s: string): string {
    s[..TrimmedLength(s)]
  }

  function EscapedAll(escape: char -> string, s: string): string {
    if s == "" then "" else escape(s[0]) + EscapedAll(escape, s[1..])
  }

  /** json::dump of a string, but for the closing quote; `escape` is how JSON writes one character. */
  function OpenString(escape: char -> string, s: string): string {
    "\"" + EscapedAll(escape, s)
  }

  function Dumped(escape: char -> string, s: string): string {
    OpenString(escape, s) + "\""
  }

  /** `open` says that there is a current tool, which is the last one. */
  datatype State = State(result: Msg, open: bool, argCount: nat, needsQuote: bool)

  predicate Consistent(s: State) {
    s.open ==> |s.result.toolCalls| > 0
  }

  function Arguments(s: State): string
    requires Consistent(s) && s.open
  {
    s.result.toolCalls[|s.result.toolCalls| - 1].arguments
  }

  function WithTool(result: Msg, tool: ToolCall): Msg
    requires |result.toolCalls| > 0
  {
    result.(toolCalls := result.toolCalls[|result.toolCalls| - 1 := tool])
  }

  function Append(s: State, text: string): (r: State)
    requires Consistent(s) && s.open
    ensures Consistent(r) && r.open && r.argCount == s.argCount && r.needsQuote == s.needsQuote
  {
    var tool := s.result.toolCalls[|s.result.toolCalls| - 1];
    s.(result := WithTool(s.result, tool.(arguments := tool.arguments + text)))
  }

  /** The name is written through the current tool without asking whether there is one. */
  predicate Accepts(s: State, e: Event) {
    Consistent(s) && (e.ToolName? ==> s.open)
  }

  function After(escape: char -> string, s: State, e: Event): (r: State)
    requires Accepts(s, e)
    ensures Consistent(r)
  {
    match e
    case Reasoning(text) => s.(result := s.result.(reasoning := Trimmed(text)))
    case Content(text) => s.(result := s.result.(content := Trimmed(text)))
    case ToolOpen =>
      State(s.result.(toolCalls := s.result.toolCalls + [ToolCall("", "", "")]), true, 0, s.needsQuote)
    case ToolName(text) =>
      s.(result := WithTool(s.result, s.result.toolCalls[|s.result.toolCalls| - 1].(name := text, arguments := "{")))
    case ArgOpen => s.(needsQuote := false)
    case ArgName(text) =>
      if !s.open then s
      else
        Append(s, (if s.argCount > 0 then "," else "") + (Dumped(escape, Trimmed(text)) + ":"))
          .(argCount := s.argCount + 1)
    case ArgString(text) =>
      if !s.open then s else Append(s, OpenString(escape, Trimmed(text))).(needsQuote := true)
    case ArgClose =>
      if s.open && s.needsQuote then Append(s, "\"").(needsQuote := false) else s
    case ArgJson(text) => if !s.open then s else Append(s, Trimmed(text))
    case ToolClose =>
      if !s.open then s
      else if s.needsQuote then Append(s, "\"}").(needsQuote := false)
      else Append(s, "}")
  }

  class ConstructedMapper {
    const escape: char -> string
    var result: Msg
    var hasTool: bool
    var argCount: nat
    var needsClosingQuote: bool

    ghost function Model(): State
      reads this
    {
      State(result, hasTool, argCount, needsClosingQuote)
    }

    constructor (escape: char -> string)
      ensures Model() == State(EMPTY_MSG, false, 0, false) && this.escape == escape
    {
      this.escape := escape;
      result, hasTool, argCount, needsClosingQuote := EMPTY_MSG, false, 0, false;
    }

    /** current_tool->arguments += text */
    method AppendArguments(text: string)
      requires Consistent(Model()) && hasTool
      modifies this`result
      ensures Model() == Append(old(Model()), text)
    {
      var last := |result.toolCalls| - 1;
      var tool := result.toolCalls[last];
      result := result.(toolCalls := result.toolCalls[last := tool.(arguments := tool.arguments + text)]);
    }

    method Map(e: Event)
      requires Accepts(Model(), e)
      modifies this
      ensures Model() == After(escape, old(Model()), e)
    {
      match e
      case Reasoning(text) => result := result.(reasoning := Trimmed(text));
      case Content(text) => result := result.(content := Trimmed(text));
      case ToolOpen =>
        result := result.(toolCalls := result.toolCalls + [ToolCall("", "", "")]);
        hasTool := true;
        argCount := 0;
      case ToolName(text) =>
        var last := |result.toolCalls| - 1;
        var named := result.toolCalls[last].(name := text, arguments := "{");
        result := result.(toolCalls := result.toolCalls[last := named]);
      case ArgOpen => needsClosingQuote := false;
      case ArgName(text) =>
        if hasTool {
          if argCount > 0 {
            AppendArguments(",");
          }
          AppendArguments(Dumped(escape, Trimmed(text)) + ":");
          AppendTwice(old(Model()), if argCount > 0 then "," else "", Dumped(escape, Trimmed(text)) + ":");
          argCount := argCount + 1;
        }
      case ArgString(text) =>
        if hasTool {
          AppendArguments(OpenString(escape, Trimmed(text)));
          needsClosingQuote := true;
        }
      case ArgClose =>
        if hasTool && needsClosingQuote {
          AppendArguments("\"");
          needsClosingQuote := false;
        }
      case ArgJson(text) =>
        if hasTool {
          AppendArguments(Trimmed(text));
        }
      case ToolClose =>
        if hasTool {
          if needsClosingQuote {
            AppendArguments("\"");
            AppendTwice(old(Model()), "\"", "}");
            assert "\"" + "}" == "\"}";
            needsClosingQuote := false;
          }
          AppendArguments("}");
        }
    }
  }

  lemma AppendTwice(s: State, a: string, b: string)
    requires Consistent(s) && s.open
    ensures Append(Append(s, a), b) == Append(s, a + b)
    ensures Append(s, "") == s
  {
    var tool := s.result.toolCalls[|s.result.toolCalls| - 1];
    assert tool.arguments + a + b == tool.arguments + (a + b) && tool.arguments + "" == tool.arguments;
  }

  // ---- whole runs ----------------------------------------------------------------------------

  predicate AcceptsAll(escape: char -> string, s: State, es: seq<Event>)
    decreases |es|
  {
    Consistent(s) && (es != [] ==> Accepts(s, es[0]) && AcceptsAll(escape, After(escape, s, es[0]), es[1..]))
  }

  function Run(escape: char -> string, s: State, es: seq<Event>): (r: State)
    requires AcceptsAll(escape, s, es)
    ensures Consistent(r)
    decreases |es|
  {
    if es == [] then s else Run(escape, After(escape, s, es[0]), es[1..])
  }

  /** A run without names is accepted as it is, and leaves a current tool current. */
  lemma {:induction false} NamelessRuns(escape: char -> string, s: State, es: seq<Event>)
    requires Consistent(s) && forall e :: e in es ==> !e.ToolName?
    ensures AcceptsAll(escape, s, es) && (s.open ==> Run(escape, s, es).open)
    decreases |es|
  {
    if es != [] {
      assert es[0] in es;
      NamelessRuns(escape, After(escape, s, es[0]), es[1..]);
    }
  }

  lemma {:induction false} RunConcat(escape: char -> string, s: State, a: seq<Event>, b: seq<Event>)
    requires AcceptsAll(escape, s, a) && AcceptsAll(escape, Run(escape, s, a), b)
    ensures AcceptsAll(escape, s, a + b) && Run(escape, s, a + b) == Run(escape, Run(escape, s, a), b)
    decreases |a|
  {
    if a == [] {
      assert a + b == b;
    } else {
      assert (a + b)[1..] == a[1..] + b && (a + b)[0] == a[0];
      RunConcat(escape, After(escape, s, a[0]), a[1..], b);
    }
  }

  /** An argument as the parse delivers it: `closed` says whether its closing event arrives. */
  datatype Argument = Argument(name: string, isString: bool, value: string, closed: bool)

  function ArgumentEvents(a: Argument): seq<Event> {
    [ArgOpen, ArgName(a.name), if a.isString then ArgString(a.value) else ArgJson(a.value)]
    + if a.closed then [ArgClose] else []
  }

  function Events(args: seq<Argument>): seq<Event> {
    if args == [] then [] else Events(args[..|args| - 1]) + ArgumentEvents(args[|args| - 1])
  }

  /** A member of the JSON object, with its closing quote or without. */
  function Member(escape: char -> string, a: Argument, quote: bool): string {
    Dumped(escape, Trimmed(a.name)) + ":"
    + (if a.isString then OpenString(escape, Trimmed(a.value)) + (if quote then "\"" else "") else Trimmed(a.value))
  }

  /** The members that are meant, joined by commas. */
  function Members(escape: char -> string, args: seq<Argument>): string {
    if args == [] then ""
    else if |args| == 1 then Member(escape, args[0], true)
    else Members(escape, args[..|args| - 1]) + "," + Member(escape, args[|args| - 1], true)
  }

  /** What is written: a string argument that is not closed goes without its closing quote. */
  function Emitted(escape: char -> string, args: seq<Argument>): string {
    if args == [] then ""
    else if |args| == 1 then Member(escape, args[0], args[0].closed)
    else Emitted(escape, args[..|args| - 1]) + "," + Member(escape, args[|args| - 1], args[|args| - 1].closed)
  }

  function Missing(args: seq<Argument>): nat {
    if args == [] then 0
    else Missing(args[..|args| - 1]) + if args[|args| - 1].isString && !args[|args| - 1].closed then 1 else 0
  }

  lemma {:induction false} EmittedLength(escape: char -> string, args: seq<Argument>)
    ensures |Emitted(escape, args)| + Missing(args) == |Members(escape, args)|
    ensures Missing(args) == 0 ==> Emitted(escape, args) == Members(escape, args)
  {
    hide Dumped, OpenString, Trimmed;
    if args != [] {
      EmittedLength(escape, args[..|args| - 1]);
      MemberLength(escape, args[|args| - 1]);
    }
  }

  lemma MemberLength(escape: char -> string, a: Argument)
    ensures var (x, y) := (Member(escape, a, a.closed), Member(escape, a, true));
      && |x| + (if a.isString && !a.closed then 1 else 0) == |y|
      && (a.isString && !a.closed ==> y == x + "\"")
      && (!a.isString || a.closed ==> x == y)
  {
    hide Dumped, OpenString, Trimmed;
  }

  lemma RunOne(escape: char -> string, s: State, es: seq<Event>)
    requires AcceptsAll(escape, s, es) && es != []
    ensures Accepts(s, es[0]) && AcceptsAll(escape, After(escape, s, es[0]), es[1..])
    ensures Run(escape, s, es) == Run(escape, After(escape, s, es[0]), es[1..])
  {
  }

  lemma RunNone(escape: char -> string, s: State)
    requires Consistent(s)
    ensures AcceptsAll(escape, s, []) && Run(escape, s, []) == s
  {
  }

  /** The state in which the current tool has got `text` as well. */
  function Grown(s: State, text: string, argCount: nat, needsQuote: bool): (r: State)
    requires Consistent(s) && s.open
    ensures Consistent(r) && r.open && r.argCount == argCount && r.needsQuote == needsQuote
  {
    Append(s, text).(argCount := argCount, needsQuote := needsQuote)
  }

  lemma GrownAgain(s: State, a: string, n: nat, q: bool, b: string, n': nat, q': bool)
    requires Consistent(s) && s.open
    ensures Grown(Grown(s, a, n, q), b, n', q') == Grown(s, a + b, n', q')
    ensures Grown(s, "", n, q) == s.(argCount := n, needsQuote := q)
  {
    AppendTwice(s, a, b);
  }

  /** What each of the events of an argument does. */
  lemma ArgumentSteps(escape: char -> string, s: State, e: Event)
    requires Consistent(s) && s.open
    ensures e.ArgOpen? ==> After(escape, s, e) == Grown(s, "", s.argCount, false)
    ensures e.ArgName? ==>
      var text := (if s.argCount > 0 then "," else "") + (Dumped(escape, Trimmed(e.text)) + ":");
      After(escape, s, e) == Grown(s, text, s.argCount + 1, s.needsQuote)
    ensures e.ArgString? ==> After(escape, s, e) == Grown(s, OpenString(escape, Trimmed(e.text)), s.argCount, true)
    ensures e.ArgJson? ==> After(escape, s, e) == Grown(s, Trimmed(e.text), s.argCount, s.needsQuote)
    ensures e.ArgClose? ==> After(escape, s, e) == Grown(s, if s.needsQuote then "\"" else "", s.argCount, false)
    ensures e.ToolClose? ==>
      var text := (if s.needsQuote then "\"" else "") + "}";
      After(escape, s, e) == Grown(s, text, s.argCount, false)
  {
    hide Dumped, OpenString, Trimmed;
    GrownAgain(s, "", s.argCount, false, "", s.argCount, false);
    AppendTwice(s, "", "");
    assert "" + "}" == "}" && "\"" + "}" == "\"}";
  }

  /** One argument: a comma if it is not the first, the member, and perhaps a quote that is still owed. */
  lemma ArgumentRun(escape: char -> string, s: State, a: Argument)
    requires Consistent(s) && s.open
    ensures AcceptsAll(escape, s, ArgumentEvents(a))
    ensures Run(escape, s, ArgumentEvents(a))
         == Grown(s, (if s.argCount > 0 then "," else "") + Member(escape, a, a.closed),
                  s.argCount + 1, a.isString && !a.closed)
  {
    hide Dumped, OpenString, Trimmed, Grown, After, Run, AcceptsAll, Accepts;
    var (es, n) := (ArgumentEvents(a), s.argCount);
    var key := Dumped(escape, Trimmed(a.name)) + ":";
    var head := (if n > 0 then "," else "") + key;
    var value := if a.isString then OpenString(escape, Trimmed(a.value)) else Trimmed(a.value);
    NamelessRuns(escape, s, es);
    NameRun(escape, s, a, es);
    var s2 := Grown(s, head, n + 1, false);
    RunOne(escape, s2, es[2..]);
    assert es[2..][1..] == es[3..] && es[3..] == if a.closed then [ArgClose] else [];
    ArgumentSteps(escape, s2, es[2]);
    GrownAgain(s, head, n + 1, false, value, n + 1, a.isString);
    var s3 := Grown(s, head + value, n + 1, a.isString);
    LastOfArgument(escape, s, a, s3, es[3..], head + value);
    MemberParts((if n > 0 then "," else ""), key, value, if a.isString && a.closed then "\"" else "");
  }

  lemma MemberParts(comma: string, key: string, value: string, quote: string)
    ensures comma + key + value + quote == comma + (key + (value + quote))
    ensures value + "" == value
  {
  }

  /** The events that open an argument and name it. */
  lemma NameRun(escape: char -> string, s: State, a: Argument, es: seq<Event>)
    requires Consistent(s) && s.open && es == ArgumentEvents(a) && AcceptsAll(escape, s, es)
    ensures var head := (if s.argCount > 0 then "," else "") + (Dumped(escape, Trimmed(a.name)) + ":");
      var s2 := Grown(s, head, s.argCount + 1, false);
      AcceptsAll(escape, s2, es[2..]) && Run(escape, s, es) == Run(escape, s2, es[2..])
  {
    hide Dumped, OpenString, Trimmed, Grown, After, Run, AcceptsAll, Accepts;
    var head := (if s.argCount > 0 then "," else "") + (Dumped(escape, Trimmed(a.name)) + ":");
    RunOne(escape, s, es);
    ArgumentSteps(escape, s, es[0]);
    var s1 := Grown(s, "", s.argCount, false);
    RunOne(escape, s1, es[1..]);
    ArgumentSteps(escape, s1, es[1]);
    GrownAgain(s, "", s.argCount, false, head, s.argCount + 1, false);
    assert "" + head == head && es[1..][1..] == es[2..];
  }

  lemma LastOfArgument(escape: char -> string, s: State, a: Argument, s3: State, es: seq<Event>, text: string)
    requires Consistent(s) && s.open && s3 == Grown(s, text, s.argCount + 1, a.isString)
    requires es == (if a.closed then [ArgClose] else []) && AcceptsAll(escape, s3, es)
    ensures Run(escape, s3, es)
         == Grown(s, text + (if a.isString && a.closed then "\"" else ""), s.argCount + 1, a.isString && !a.closed)
  {
    hide Grown, After, Run, AcceptsAll, Accepts;
    if a.closed {
      RunOne(escape, s3, es);
      ArgumentSteps(escape, s3, es[0]);
      var quote := if a.isString then "\"" else "";
      GrownAgain(s, text, s.argCount + 1, a.isString, quote, s.argCount + 1, false);
      RunNone(escape, Grown(s, text + quote, s.argCount + 1, false));
    } else {
      RunNone(escape, s3);
      assert text + "" == text;
    }
  }

  /** The text after any list of arguments. */
  lemma {:induction false} ArgumentsRun(escape: char -> string, s: State, args: seq<Argument>)
    requires Consistent(s) && s.open && s.argCount == 0
    ensures AcceptsAll(escape, s, Events(args))
    ensures Run(escape, s, Events(args)) == Grown(s, Emitted(escape, args), |args|, Owed(args, s.needsQuote))
    decreases |args|
  {
    hide Grown, After, Run, AcceptsAll, Accepts, Member;
    if args == [] {
      RunNone(escape, s);
      GrownAgain(s, "", 0, s.needsQuote, "", 0, s.needsQuote);
    } else {
      var k := |args| - 1;
      var (front, last) := (args[..k], args[k]);
      ArgumentsRun(escape, s, front);
      var s1 := Grown(s, Emitted(escape, front), k, Owed(front, s.needsQuote));
      ArgumentRun(escape, s1, last);
      RunConcat(escape, s, Events(front), ArgumentEvents(last));
      var comma := if k > 0 then "," else "";
      var more := comma + Member(escape, last, last.closed);
      GrownAgain(s, Emitted(escape, front), k, Owed(front, s.needsQuote), more, k + 1, last.isString && !last.closed);
      assert Emitted(escape, front) + more == Emitted(escape, args);
    }
  }

  /** Whether a closing quote is owed after these arguments. */
  predicate Owed(args: seq<Argument>, before: bool) {
    if args == [] then before else args[|args| - 1].isString && !args[|args| - 1].closed
  }

  predicate AllClosed(args: seq<Argument>) {
    forall i :: 0 <= i < |args| && args[i].isString ==> args[i].closed
  }

  lemma {:induction false} NoneMissing(args: seq<Argument>)
    ensures Missing(args) == 0 <==> AllClosed(args)
  {
    if args != [] {
      var front := args[..|args| - 1];
      NoneMissing(front);
      assert forall i :: 0 <= i < |front| ==> front[i] == args[i];
    }
  }

  /** The state once the tool is open and has its name. */
  function Named(s: State, name: string): (r: State)
    requires Consistent(s)
    ensures Consistent(r) && r.open && r.argCount == 0 && Arguments(r) == "{" && r.needsQuote == s.needsQuote
  {
    State(s.result.(toolCalls := s.result.toolCalls + [ToolCall(name, "{", "")]), true, 0, s.needsQuote)
  }

  lemma NamedRun(escape: char -> string, s: State, name: string)
    requires Consistent(s)
    ensures AcceptsAll(escape, s, [ToolOpen, ToolName(name)])
    ensures Run(escape, s, [ToolOpen, ToolName(name)]) == Named(s, name)
  {
    var es := [ToolOpen, ToolName(name)];
    var s1 := After(escape, s, ToolOpen);
    assert es[1..] == [ToolName(name)] && es[1..][1..] == [];
    var calls := s.result.toolCalls;
    assert (calls + [ToolCall("", "", "")])[|calls| := ToolCall(name, "{", "")] == calls + [ToolCall(name, "{", "")];
    assert After(escape, s1, ToolName(name)) == Named(s, name);
    RunNone(escape, Named(s, name));
    RunNone(escape, s1);
  }

  function ToolEvents(name: string, args: seq<Argument>): seq<Event> {
    [ToolOpen, ToolName(name)] + Events(args) + [ToolClose]
  }

  /** The arguments that a whole tool call ends up with. */
  lemma ToolRun(escape: char -> string, s: State, name: string, args: seq<Argument>)
    requires Consistent(s)
    ensures AcceptsAll(escape, s, ToolEvents(name, args))
    ensures var r := Run(escape, s, ToolEvents(name, args));
      && r.open && !r.needsQuote
      && r.result == s.result.(toolCalls := s.result.toolCalls
           + [ToolCall(name, "{" + Emitted(escape, args) +
              ((if Owed(args, s.needsQuote) then "\"" else "") + "}"), "")])
  {
    hide After, Run, AcceptsAll, Accepts, Emitted, Owed;
    var named := Named(s, name);
    NamedRun(escape, s, name);
    ArgumentsRun(escape, named, args);
    RunConcat(escape, s, [ToolOpen, ToolName(name)], Events(args));
    var s1 := Grown(named, Emitted(escape, args), |args|, Owed(args, s.needsQuote));
    NamelessRuns(escape, s1, [ToolClose]);
    RunConcat(escape, s, [ToolOpen, ToolName(name)] + Events(args), [ToolClose]);
    RunOne(escape, s1, [ToolClose]);
    ArgumentSteps(escape, s1, ToolClose);
    var end := (if Owed(args, s.needsQuote) then "\"" else "") + "}";
    assert [ToolClose][1..] == [];
    RunNone(escape, Grown(s1, end, |args|, false));
    GrownAgain(named, Emitted(escape, args), |args|, Owed(args, s.needsQuote), end, |args|, false);
    GrownCall(s, name, Emitted(escape, args) + end, |args|);
    assert "{" + (Emitted(escape, args) + end) == "{" + Emitted(escape, args) + end;
  }

  lemma GrownCall(s: State, name: string, text: string, n: nat)
    requires Consistent(s)
    ensures Grown(Named(s, name), text, n, false).result
         == s.result.(toolCalls := s.result.toolCalls + [ToolCall(name, "{" + text, "")])
  {
    var calls := s.result.toolCalls;
    assert (calls + [ToolCall(name, "{", "")])[|calls| := ToolCall(name, "{" + text, "")]
        == calls + [ToolCall(name, "{" + text, "")];
  }

  /**
   * The arguments are the JSON object of the names and values, in order, exactly if every string argument but
   * the last is closed before the next one opens, and no quote is owed from before if there are no arguments.
   */
  lemma ArgumentsAreTheObjectIff(escape: char -> string, s: State, name: string, args: seq<Argument>)
    requires Consistent(s)
    ensures AcceptsAll(escape, s, ToolEvents(name, args))
    ensures var r := Run(escape, s, ToolEvents(name, args));
      r.result == s.result.(toolCalls := s.result.toolCalls
                             + [ToolCall(name, "{" + Members(escape, args) + "}", "")])
      <==> if args == [] then !s.needsQuote else AllClosed(args[..|args| - 1])
  {
    hide Run, AcceptsAll;
    ToolRun(escape, s, name, args);
    var quote := if Owed(args, s.needsQuote) then "\"" else "";
    var (was, meant) := ("{" + Emitted(escape, args) + (quote + "}"), "{" + Members(escape, args) + "}");
    var calls := s.result.toolCalls;
    assert calls + [ToolCall(name, was, "")] == calls + [ToolCall(name, meant, "")] <==> was == meant by {
      assert (calls + [ToolCall(name, was, "")])[|calls|] == ToolCall(name, was, "");
      assert (calls + [ToolCall(name, meant, "")])[|calls|] == ToolCall(name, meant, "");
    }
    TextIsMeantIff(escape, args, s.needsQuote);
  }

  lemma TextIsMeantIff(escape: char -> string, args: seq<Argument>, before: bool)
    ensures "{" + Emitted(escape, args) + ((if Owed(args, before) then "\"" else "") + "}")
         == "{" + Members(escape, args) + "}"
      <==> if args == [] then !before else AllClosed(args[..|args| - 1])
  {
    hide Member;
    var quote := if Owed(args, before) then "\"" else "";
    SameObject(Emitted(escape, args), quote, Members(escape, args));
    EmittedLength(escape, args);
    if args != [] {
      var (front, last) := (args[..|args| - 1], args[|args| - 1]);
      NoneMissing(front);
      EmittedLength(escape, front);
      MemberLength(escape, last);
    }
  }

  lemma SameObject(e: string, quote: string, m: string)
    ensures "{" + e + (quote + "}") == "{" + m + "}" <==> e + quote == m
  {
    var (x, y) := ("{" + e + (quote + "}"), "{" + m + "}");
    assert x == "{" + (e + quote) + "}";
    if x == y {
      assert x[1..|x| - 1] == e + quote && y[1..|y| - 1] == m;
    }
  }

  // ---- while a value is still growing --------------------------------------------------------

  lemma TrimmedGrows(p: string, q: string)
    requires p <= q
    ensures Trimmed(p) <= Trimmed(q)
  {
    TrimsExactlySpaces(p);
    TrimsExactlySpaces(q);
    var n := TrimmedLength(p);
    assert n > 0 ==> !IsSpace(q[n - 1]);
    assert n <= TrimmedLength(q);
  }

  lemma {:induction false} EscapedGrows(escape: char -> string, p: string, q: string)
    requires p <= q
    ensures EscapedAll(escape, p) <= EscapedAll(escape, q)
  {
    if p != "" {
      EscapedGrows(escape, p[1..], q[1..]);
    }
  }

  lemma MemberGrows(escape: char -> string, name: string, p: string, q: string, closed: bool)
    requires p <= q
    ensures Member(escape, Argument(name, true, p, false), false)
         <= Member(escape, Argument(name, true, q, closed), closed)
  {
    hide Trimmed;
    TrimmedGrows(p, q);
    EscapedGrows(escape, Trimmed(p), Trimmed(q));
  }

  /**
   * While the last string value grows, the text sent so far stays a prefix: of the text for a longer value, and
   * of the arguments that the tool call ends up with.
   */
  lemma PartialArgumentsGrow(escape: char -> string, s: State, name: string, front: seq<Argument>,
                             key: string, p: string, q: string, closed: bool)
    requires Consistent(s) && p <= q
    ensures var (partial, whole) := (Argument(key, true, p, false), Argument(key, true, q, closed));
      var es := [ToolOpen, ToolName(name)] + Events(front + [partial]);
      && AcceptsAll(escape, s, es) && Run(escape, s, es).open
      && AcceptsAll(escape, s, ToolEvents(name, front + [whole]))
      && Run(escape, s, ToolEvents(name, front + [whole])).open
      && Arguments(Run(escape, s, es)) <= Arguments(Run(escape, s, ToolEvents(name, front + [whole])))
  {
    hide Run, AcceptsAll, Member, Owed, After, Events;
    var (partial, whole) := (Argument(key, true, p, false), Argument(key, true, q, closed));
    NamedRun(escape, s, name);
    ArgumentsRun(escape, Named(s, name), front + [partial]);
    RunConcat(escape, s, [ToolOpen, ToolName(name)], Events(front + [partial]));
    ToolRun(escape, s, name, front + [whole]);
    MemberGrows(escape, key, p, q, closed);
    assert (front + [partial])[..|front|] == front && (front + [whole])[..|front|] == front;
    EmittedGrows(escape, front, partial, whole);
  }

  lemma EmittedGrows(escape: char -> string, front: seq<Argument>, x: Argument, y: Argument)
    requires Member(escape, x, x.closed) <= Member(escape, y, y.closed)
    ensures Emitted(escape, front + [x]) <= Emitted(escape, front + [y])
  {
    hide Member;
    assert (front + [x])[..|front|] == front && (front + [y])[..|front|] == front;
  }

  // ---- texts ---------------------------------------------------------------------------------

  function LastReasoning(es: seq<Event>, text: string): string {
    if es == [] then text else LastReasoning(es[1..], if es[0].Reasoning? then Trimmed(es[0].text) else text)
  }

  function LastContent(es: seq<Event>, text: string): string {
    if es == [] then text else LastContent(es[1..], if es[0].Content? then Trimmed(es[0].text) else text)
  }

  function Opened(es: seq<Event>): nat {
    if es == [] then 0 else (if es[0].ToolOpen? then 1 else 0) + Opened(es[1..])
  }

  /** Over any run: the last reasoning and the last content, trimmed, and one tool call for every tool that opens. */
  lemma {:induction false} TextsRun(escape: char -> string, s: State, es: seq<Event>)
    requires AcceptsAll(escape, s, es)
    ensures var (was, r) := (s.result, Run(escape, s, es).result);
      && r.reasoning == LastReasoning(es, was.reasoning) && r.content == LastContent(es, was.content)
      && r.role == was.role && |r.toolCalls| == |was.toolCalls| + Opened(es)
    decreases |es|
  {
    if es != [] {
      OneEvent(escape, s, es[0]);
      TextsRun(escape, After(escape, s, es[0]), es[1..]);
    }
  }

  lemma OneEvent(escape: char -> string, s: State, e: Event)
    requires Accepts(s, e)
    ensures var (was, r) := (s.result, After(escape, s, e).result);
      && r.reasoning == (if e.Reasoning? then Trimmed(e.text) else was.reasoning)
      && r.content == (if e.Content? then Trimmed(e.text) else was.content)
      && r.role == was.role && |r.toolCalls| == |was.toolCalls| + (if e.ToolOpen? then 1 else 0)
  {
    hide Trimmed, Dumped, OpenString;
  }
}
