/** From one place where the input breaks off to a later one: what has been sent is only added to. */
module XmlStreaming {
  import opened Wrappers
  import opened Text
  import opened ChatTypes
  import opened ChatDiff
  import opened ChatParser
  import opened XmlSpec
  import opened XmlLiterals
  import opened XmlLaws
  import opened XmlDump
  import opened XmlPartial

  // ---- the arguments of one tool -------------------------------------------------------------

  predicate DistinctKeys(args: seq<Arg>) {
    forall i, j :: 0 <= i < j < |args| ==> args[i].key != args[j].key
  }

  function Pairs(args: seq<Arg>): (r: Arguments)
    ensures |r| == |args| && forall i :: 0 <= i < |r| ==> r[i] == (args[i].key, args[i].value)
  {
    seq(|args|, i requires 0 <= i < |args| => (args[i].key, args[i].value))
  }

  /** Without repeated keys the arguments are stored one behind the other. */
  lemma {:induction false} StoredInOrder(before: seq<Arg>, more: seq<Arg>)
    requires DistinctKeys(before + more)
    ensures Stored(Pairs(before), more) == Pairs(before + more)
    decreases |more|
  {
    hide Set;
    if more == [] {
      assert before + more == before;
    } else {
      var all := before + more;
      assert forall i :: 0 <= i < |before| ==> all[i] == before[i];
      assert all[|before|] == more[0];
      SetFresh(Pairs(before), more[0].key, more[0].value);
      assert Pairs(before) + [(more[0].key, more[0].value)] == Pairs(before + [more[0]]);
      assert before + [more[0]] + more[1..] == all;
      StoredInOrder(before + [more[0]], more[1..]);
    }
  }

  lemma StoredArgs(args: seq<Arg>)
    requires DistinctKeys(args)
    ensures Stored([], args) == Pairs(args)
  {
    assert [] + args == args && Pairs([]) == [];
    StoredInOrder([], args);
  }

  lemma PrefixDistinct(args: seq<Arg>, j: nat)
    requires DistinctKeys(args) && j <= |args|
    ensures DistinctKeys(args[..j]) && Pairs(args[..j]) == Pairs(args)[..j]
  {
  }

  lemma MembersStep(w: Writer, args: Arguments, j: nat)
    requires j < |args|
    ensures Members(w, args[..j + 1]) == Before(w, args[..j]) + Member(w, args[j].0, args[j].1)
  {
    assert args[..j + 1] == args[..j] + [args[j]];
    MembersSnoc(w, args[..j], args[j].0, args[j].1);
  }

  lemma MembersBefore(w: Writer, args: Arguments)
    ensures Members(w, args) <= Before(w, args)
  {
  }

  lemma {:induction false} MembersGrow(w: Writer, args: Arguments, j: nat, k: nat)
    requires j <= k <= |args|
    ensures Members(w, args[..j]) <= Members(w, args[..k])
    decreases k
  {
    hide Members, Before, Member;
    if j < k {
      MembersGrow(w, args, j, k - 1);
      MembersBefore(w, args[..k - 1]);
      MembersStep(w, args, k - 1);
    }
  }

  // ---- from one part to another --------------------------------------------------------------

  lemma WithoutQuoteGrows(a: string, b: string)
    requires a <= b
    ensures WithoutQuote(a) <= WithoutQuote(b)
    ensures a != b ==> a <= WithoutQuote(b)
  {
  }

  lemma Longer(head: string, a: string, b: string)
    requires a <= b
    ensures head + a <= head + b && (a != b ==> head + a != head + b)
  {
    assert b == a + b[|a|..];
    assert head + b == head + a + b[|a|..];
  }

  /** The part is of the value that the argument has, and plain only if that is text. */
  predicate Meant(cx: Context, p: Part) {
    p.InValue? && p.plain ==> p.arg.value == Text(Trimmed(cx, p.arg.text))
  }

  lemma KnownIsValue(cx: Context, p: Part)
    requires GoodPart(cx, p) && p.InValue? && p.plain
    ensures ValueTaken(cx, p.text, true) <= Trimmed(cx, p.arg.text)
  {
    hide Ends, Truncates, LeadsOnce, JsonSees, Taken, Strip;
    TakenIsText(cx.lib, p.arg.text, cx.form.valEnd, p.text);
    StripKeepsPrefixes(Taken(cx.lib, p.text, cx.form.valEnd), p.arg.text);
  }

  lemma BegunQuoted(w: Writer, s: string, t: string)
    requires s <= t && forall c :: w.escape(c) != ""
    ensures Begun(w, s) <= Quoted(w, t)
  {
    hide Begun;
    BegunGrows(w, s, t);
    QuotedIs(w, t);
  }

  lemma QuotedIs(w: Writer, t: string)
    ensures Quoted(w, t) == Begun(w, t) + "\""
  {
  }

  /** What is sent of an argument that is not complete: its raw text without a quote at the end. */
  function Raw(cx: Context, w: Writer, args: Arguments, p: Part): string
    requires !p.NoKey?
  {
    match p
    case InKey(_, text) => "{" + Before(w, args) + Begun(w, Taken(cx.lib, text, cx.form.keyValSep))
    case InValue(arg, text, plain) =>
      "{" + Before(w, args) + (Quoted(w, arg.key) + ":") + Begun(w, ValueTaken(cx, text, plain))
  }

  lemma SentRaw(cx: Context, w: Writer, args: Arguments, p: Part)
    requires !p.NoKey?
    ensures Sent(cx, w, args, p) == WithoutQuote(Raw(cx, w, args, p))
  {
  }

  /** An argument that is not complete adds to those before it. */
  lemma PartAdds(cx: Context, w: Writer, args: Arguments, p: Part)
    ensures "{" + Members(w, args) <= Sent(cx, w, args, p)
  {
    hide Members, Before, Begun, Quoted, Sent, WithoutQuote, Taken, ValueTaken, Raw;
    if p.NoKey? {
      NoKeySent(cx, w, args, p);
    } else {
      SentRaw(cx, w, args, p);
      RawAdds(cx, w, args, p);
      WithoutQuoteGrows("{" + Members(w, args), Raw(cx, w, args, p));
    }
  }

  lemma NoKeySent(cx: Context, w: Writer, args: Arguments, p: Part)
    requires p.NoKey?
    ensures Sent(cx, w, args, p) == "{" + Members(w, args)
  {
  }

  lemma RawAdds(cx: Context, w: Writer, args: Arguments, p: Part)
    requires !p.NoKey?
    ensures var (a, b) := ("{" + Members(w, args), Raw(cx, w, args, p)); a <= b && a != b
  {
    hide Members, Before, Taken, ValueTaken;
    MembersBefore(w, args);
    Longer("{", Members(w, args), Before(w, args));
    var head := "{" + Before(w, args);
    var rest := if p.InKey? then Begun(w, Taken(cx.lib, p.text, cx.form.keyValSep))
                else (Quoted(w, p.arg.key) + ":") + Begun(w, ValueTaken(cx, p.text, p.plain));
    assert rest != "";
    assert Raw(cx, w, args, p) == head + rest;
  }

  /** What is sent of an argument begins the argument. */
  lemma PartBegins(cx: Context, w: Writer, args: Arguments, p: Part, arg: Arg)
    requires Dumps(cx.lib, w) && GoodPart(cx, p) && Meant(cx, p) && !p.NoKey?
    requires (p.InKey? ==> p.key == arg.key) && (p.InValue? ==> p.arg == arg)
    ensures Sent(cx, w, args, p) <= "{" + (Before(w, args) + Member(w, arg.key, arg.value))
  {
    hide Members, Before, Begun, Quoted, Sent, WithoutQuote, Taken, ValueTaken, GoodPart, Dumps;
    SentRaw(cx, w, args, p);
    var head := "{" + Before(w, args);
    assert "{" + (Before(w, args) + Member(w, arg.key, arg.value)) == head + Member(w, arg.key, arg.value);
    if p.InKey? {
      KeyBegins(cx, w, p);
      Longer(head, Begun(w, Taken(cx.lib, p.text, cx.form.keyValSep)), Member(w, arg.key, arg.value));
    } else {
      ValueBegins(cx, w, head, p, arg);
    }
  }

  lemma KeyBegins(cx: Context, w: Writer, p: Part)
    requires Dumps(cx.lib, w) && GoodPart(cx, p) && p.InKey?
    ensures Begun(w, Taken(cx.lib, p.text, cx.form.keyValSep)) <= Quoted(w, p.key)
  {
    hide Begun, Quoted, Taken, Ends, LeadsOnce, Truncates;
    TakenIsText(cx.lib, p.key, cx.form.keyValSep, p.text);
    BegunQuoted(w, Taken(cx.lib, p.text, cx.form.keyValSep), p.key);
  }

  lemma ValueBegins(cx: Context, w: Writer, head: string, p: Part, arg: Arg)
    requires Dumps(cx.lib, w) && GoodPart(cx, p) && Meant(cx, p) && p.InValue? && p.arg == arg
    ensures WithoutQuote(head + (Quoted(w, arg.key) + ":") + Begun(w, ValueTaken(cx, p.text, p.plain)))
         <= head + Member(w, arg.key, arg.value)
  {
    hide Begun, Quoted, GoodPart, WithoutQuote, Taken, Strip;
    var key := Quoted(w, arg.key) + ":";
    assert head + Member(w, arg.key, arg.value) == head + key + Shown(w, arg.value);
    if p.plain {
      KnownIsValue(cx, p);
      EscapesSomething(cx.lib, w);
      BegunQuoted(w, ValueTaken(cx, p.text, true), Trimmed(cx, arg.text));
      Longer(head + key, Begun(w, ValueTaken(cx, p.text, true)), Shown(w, arg.value));
      WithoutQuoteGrows(head + key + Begun(w, ValueTaken(cx, p.text, true)), head + Member(w, arg.key, arg.value));
    } else {
      NothingKnown(w, head + key);
    }
  }

  lemma EscapesSomething(lib: Library, w: Writer)
    requires Dumps(lib, w)
    ensures forall c :: w.escape(c) != ""
  {
  }

  lemma NothingKnown(w: Writer, s: string)
    ensures WithoutQuote(s + Begun(w, "")) == s
  {
    assert Begun(w, "") == "\"";
    assert (s + "\"")[..|s|] == s;
  }

  // ---- the order of places -------------------------------------------------------------------

  /** q comes later than p in the same argument, or is there too. */
  predicate LaterPart(p: Part, q: Part) {
    match p
    case NoKey(_) => true
    case InKey(key, text) => (q.InKey? && text <= q.text) || (q.InValue? && q.arg.key == key)
    case InValue(arg, text, plain) => q.InValue? && q.arg == arg && text <= q.text && (plain ==> q.plain)
  }

  predicate Later(p: Place, q: Place) {
    if p.tools == q.tools && p.tool == q.tool then p.j < q.j || (p.j == q.j && LaterPart(p.part, q.part))
    else p.tools + [p.tool] <= q.tools
  }

  lemma PartGrows(cx: Context, w: Writer, args: Arguments, p: Part, q: Part)
    requires Dumps(cx.lib, w) && GoodPart(cx, p) && GoodPart(cx, q) && LaterPart(p, q)
    requires p.InKey? && q.InKey? ==> p.key == q.key
    ensures Sent(cx, w, args, p) <= Sent(cx, w, args, q)
  {
    hide Members, Before, Begun, Quoted, Sent, WithoutQuote, Taken, ValueTaken, GoodPart, Dumps, Raw;
    if p.NoKey? {
      NoKeySent(cx, w, args, p);
      PartAdds(cx, w, args, q);
    } else {
      SentRaw(cx, w, args, p);
      SentRaw(cx, w, args, q);
      RawGrows(cx, w, args, p, q);
      WithoutQuoteGrows(Raw(cx, w, args, p), Raw(cx, w, args, q));
    }
  }

  lemma RawGrows(cx: Context, w: Writer, args: Arguments, p: Part, q: Part)
    requires Dumps(cx.lib, w) && GoodPart(cx, p) && GoodPart(cx, q) && LaterPart(p, q) && !p.NoKey?
    requires p.InKey? && q.InKey? ==> p.key == q.key
    ensures Raw(cx, w, args, p) <= Raw(cx, w, args, q)
  {
    hide Members, Before, Begun, Quoted, Taken, ValueTaken, GoodPart;
    var (head, sep) := ("{" + Before(w, args), cx.form.keyValSep);
    if p.InKey? && q.InKey? {
      KeyTakenGrows(cx, p, q);
      BegunGrows(w, Taken(cx.lib, p.text, sep), Taken(cx.lib, q.text, sep));
      Longer(head, Begun(w, Taken(cx.lib, p.text, sep)), Begun(w, Taken(cx.lib, q.text, sep)));
    } else if p.InKey? {
      KeyBegins(cx, w, p);
      var rest := ":" + Begun(w, ValueTaken(cx, q.text, q.plain));
      assert Raw(cx, w, args, q) == head + (Quoted(w, p.key) + rest);
      Longer(head, Begun(w, Taken(cx.lib, p.text, sep)), Quoted(w, p.key) + rest);
    } else {
      ValueTakenGrows(cx, p, q);
      var key := Quoted(w, p.arg.key) + ":";
      BegunGrows(w, ValueTaken(cx, p.text, p.plain), ValueTaken(cx, q.text, q.plain));
      Longer(head + key, Begun(w, ValueTaken(cx, p.text, p.plain)), Begun(w, ValueTaken(cx, q.text, q.plain)));
    }
  }

  lemma KeyTakenGrows(cx: Context, p: Part, q: Part)
    requires GoodPart(cx, p) && GoodPart(cx, q) && p.InKey? && q.InKey? && p.key == q.key && p.text <= q.text
    ensures Taken(cx.lib, p.text, cx.form.keyValSep) <= Taken(cx.lib, q.text, cx.form.keyValSep)
  {
    hide Taken, Ends, LeadsOnce, Truncates;
    TakenGrows(cx.lib, p.key, cx.form.keyValSep, p.text, q.text);
  }

  lemma ValueTakenGrows(cx: Context, p: Part, q: Part)
    requires GoodPart(cx, p) && GoodPart(cx, q) && p.InValue? && LaterPart(p, q)
    ensures ValueTaken(cx, p.text, p.plain) <= ValueTaken(cx, q.text, q.plain)
  {
    hide Taken, Ends, LeadsOnce, Truncates, Strip, JsonSees;
    if p.plain {
      TakenGrows(cx.lib, p.arg.text, cx.form.valEnd, p.text, q.text);
      StripKeepsPrefixes(Taken(cx.lib, p.text, cx.form.valEnd), Taken(cx.lib, q.text, cx.form.valEnd));
    }
  }

  // ---- the calls of a place ------------------------------------------------------------------

  function SentCall(cx: Context, w: Writer, pl: Place): ToolCall {
    ToolCall(CallName(cx, pl.tool), Sent(cx, w, Stored([], Done(pl)), pl.part), "")
  }

  /** What the client has been sent there, see BrokenOffCall. */
  function CallsAt(cx: Context, w: Writer, pl: Place): seq<ToolCall> {
    Calls(cx, pl.tools) + [SentCall(cx, w, pl)]
  }

  ghost predicate Streamed(cx: Context, pl: Place) {
    GoodPlace(cx, pl) && Meant(cx, pl.part) && DistinctKeys(pl.tool.args)
  }

  lemma SentUpTo(cx: Context, w: Writer, pl: Place)
    requires Dumps(cx.lib, w) && Streamed(cx, pl)
    ensures var all := Pairs(pl.tool.args);
      && pl.j <= |all| && Stored([], Done(pl)) == all[..pl.j]
      && "{" + Members(w, all[..pl.j]) <= SentCall(cx, w, pl).arguments
      && (pl.part.NoKey? ==> SentCall(cx, w, pl).arguments == "{" + Members(w, all[..pl.j]))
      && (!pl.part.NoKey? ==> pl.j < |all| && SentCall(cx, w, pl).arguments <= "{" + Members(w, all[..pl.j + 1]))
  {
    hide Members, Before, Sent, GoodPart, AllGood, AllGoodTools, GoodName, CallName, FreshIn, Stored, Member, Dumps;
    var (args, all) := (pl.tool.args, Pairs(pl.tool.args));
    PrefixDistinct(args, pl.j);
    StoredArgs(args[..pl.j]);
    PartAdds(cx, w, all[..pl.j], pl.part);
    if pl.part.NoKey? {
      NoKeySent(cx, w, all[..pl.j], pl.part);
    } else {
      PartBegins(cx, w, all[..pl.j], pl.part, args[pl.j]);
      MembersStep(w, all, pl.j);
    }
  }

  /** What is sent of a call begins its arguments as they are sent once it is complete. */
  lemma SentBeginsCall(cx: Context, w: Writer, pl: Place)
    requires Dumps(cx.lib, w) && Streamed(cx, pl)
    ensures SentCall(cx, w, pl).name == CallOf(cx, pl.tool).name
    ensures SentCall(cx, w, pl).arguments <= CallOf(cx, pl.tool).arguments
  {
    hide Members, Sent, GoodPlace, CallName, Stored;
    var all := Pairs(pl.tool.args);
    SentUpTo(cx, w, pl);
    StoredArgs(pl.tool.args);
    assert all[..|all|] == all;
    var k := if pl.part.NoKey? then pl.j else pl.j + 1;
    MembersGrow(w, all, k, |all|);
    Longer("{", Members(w, all[..k]), Members(w, all));
  }

  lemma SameToolGrows(cx: Context, w: Writer, p: Place, q: Place)
    requires Dumps(cx.lib, w) && Streamed(cx, p) && Streamed(cx, q) && Later(p, q)
    requires p.tools == q.tools && p.tool == q.tool
    ensures SentCall(cx, w, p).arguments <= SentCall(cx, w, q).arguments
  {
    hide Members, Sent, CallName, Stored, GoodPart, AllGood, AllGoodTools, GoodName, FreshIn, Dumps, LaterPart;
    var all := Pairs(p.tool.args);
    SentUpTo(cx, w, p);
    SentUpTo(cx, w, q);
    if p.j < q.j {
      var k := if p.part.NoKey? then p.j else p.j + 1;
      MembersGrow(w, all, k, q.j);
      Longer("{", Members(w, all[..k]), Members(w, all[..q.j]));
    } else {
      PartGrows(cx, w, all[..p.j], p.part, q.part);
    }
  }

  lemma {:induction false} CallsConcat(cx: Context, a: seq<Tool>, b: seq<Tool>)
    ensures Calls(cx, a + b) == Calls(cx, a) + Calls(cx, b) && |Calls(cx, a)| == |a|
    decreases |a|
  {
    hide CallOf;
    if a == [] {
      assert a + b == b;
    } else {
      assert (a + b)[1..] == a[1..] + b;
      CallsConcat(cx, a[1..], b);
    }
  }

  function WithCalls(msg: Msg, calls: seq<ToolCall>): Msg {
    msg.(toolCalls := msg.toolCalls + calls)
  }

  /** A complete call, and what comes after it, adds to what was sent of it. */
  lemma CallCompletes(cx: Context, w: Writer, msg: Msg, p: Place, more: seq<Tool>, rest: seq<ToolCall>)
    requires Dumps(cx.lib, w) && Streamed(cx, p)
    ensures Extends(WithCalls(msg, CallsAt(cx, w, p)), WithCalls(msg, Calls(cx, p.tools + ([p.tool] + more)) + rest))
  {
    hide SentCall, Streamed, Calls, CallOf, Dumps;
    var (before, call) := (msg.toolCalls + Calls(cx, p.tools), CallOf(cx, p.tool));
    CallsConcat(cx, p.tools, [p.tool] + more);
    FirstCall(cx, p.tool, more);
    SentBeginsCall(cx, w, p);
    SentIdEmpty(cx, w, p);
    LastGrows(before, SentCall(cx, w, p), call, Calls(cx, more) + rest);
    assert WithCalls(msg, CallsAt(cx, w, p)).toolCalls == before + [SentCall(cx, w, p)];
    assert WithCalls(msg, Calls(cx, p.tools + ([p.tool] + more)) + rest).toolCalls
        == before + [call] + (Calls(cx, more) + rest);
  }

  /** Whatever the message held before, a later place only adds to it. */
  lemma LaterExtends(cx: Context, w: Writer, msg: Msg, p: Place, q: Place)
    requires Dumps(cx.lib, w) && Streamed(cx, p) && Streamed(cx, q) && Later(p, q)
    ensures Extends(WithCalls(msg, CallsAt(cx, w, p)), WithCalls(msg, CallsAt(cx, w, q)))
  {
    hide SentCall, Streamed, Calls, CallOf, Dumps;
    if p.tools == q.tools && p.tool == q.tool {
      SameToolGrows(cx, w, p, q);
      SameNames(cx, w, p, q);
      var before := msg.toolCalls + Calls(cx, p.tools);
      LastGrows(before, SentCall(cx, w, p), SentCall(cx, w, q), []);
      assert WithCalls(msg, CallsAt(cx, w, p)).toolCalls == before + [SentCall(cx, w, p)];
      assert WithCalls(msg, CallsAt(cx, w, q)).toolCalls == before + [SentCall(cx, w, q)] + [];
    } else {
      ToolsLater(p, q);
      var more := q.tools[|p.tools| + 1..];
      assert q.tools == p.tools + ([p.tool] + more);
      CallCompletes(cx, w, msg, p, more, [SentCall(cx, w, q)]);
    }
  }

  /**
   Streaming a list of calls: the input breaks off at one place and then at a later one. Both parses wait, the deltas
   between the two messages exist, and they lead the client from one to the other.
   */
  lemma CallsStream(cx: Context, cx': Context, w: Writer, msg: Msg, p: Place, q: Place, pos: nat)
    requires Good(cx) && Readable(cx.form) && cx.partial && Dumps(cx.lib, w)
    requires cx' == cx.(input := cx'.input) && Streamed(cx, p) && Streamed(cx, q) && Later(p, q)
    requires EndsAt(cx.input, pos, WrittenTo(cx.form, p)) && EndsAt(cx'.input, pos, WrittenTo(cx.form, q))
    ensures ParseXml(cx, pos) == Waiting(CallsAt(cx, w, p)) && ParseXml(cx', pos) == Waiting(CallsAt(cx, w, q))
    ensures Rebuilds(WithCalls(msg, CallsAt(cx, w, p)), WithCalls(msg, CallsAt(cx, w, q)))
  {
    hide Readable, GoodPlace, Dumps, ParseXml, WrittenTo, Later, CallsAt, Rebuilds, Extends;
    CallsAreThere(cx, w, p, pos);
    SamePlace(cx, cx', w, q);
    CallsAreThere(cx', w, q, pos);
    LaterExtends(cx, w, msg, p, q);
    RebuildsIffExtends(WithCalls(msg, CallsAt(cx, w, p)), WithCalls(msg, CallsAt(cx, w, q)));
  }

  lemma CallsAreThere(cx: Context, w: Writer, p: Place, pos: nat)
    requires Good(cx) && Readable(cx.form) && cx.partial && Dumps(cx.lib, w) && GoodPlace(cx, p)
    requires EndsAt(cx.input, pos, WrittenTo(cx.form, p))
    ensures ParseXml(cx, pos) == Waiting(CallsAt(cx, w, p))
  {
    hide Readable, GoodPlace, Dumps, ParseXml, WrittenTo, Sent, Calls, CallName, Stored;
    BrokenOffCall(cx, w, p, pos);
  }

  /** A place does not depend on the input. */
  lemma SamePlace(cx: Context, cx': Context, w: Writer, p: Place)
    requires cx' == cx.(input := cx'.input)
    ensures GoodPlace(cx, p) ==> GoodPlace(cx', p)
    ensures CallsAt(cx, w, p) == CallsAt(cx', w, p)
  {
    hide GoodArg, GoodTool, GoodPart, Ends, Sent, Calls;
    SameCalls(cx, cx', p.tools);
    SameSent(cx, cx', w, Stored([], Done(p)), p.part);
    if GoodPlace(cx, p) {
      SamePart(cx, cx', p.part);
      forall i | 0 <= i < |p.tools| ensures GoodTool(cx', p.tools[i], false) {
        SameTool(cx, cx', p.tools[i]);
      }
      forall i | 0 <= i < |Done(p)| ensures GoodArg(cx', Done(p)[i], false, cx.form.toolEnd) {
        SameArg(cx, cx', Done(p)[i], false, cx.form.toolEnd);
      }
    }
  }

  lemma SameSent(cx: Context, cx': Context, w: Writer, args: Arguments, p: Part)
    requires cx' == cx.(input := cx'.input)
    ensures Sent(cx, w, args, p) == Sent(cx', w, args, p)
  {
  }

  lemma SamePart(cx: Context, cx': Context, p: Part)
    requires cx' == cx.(input := cx'.input) && GoodPart(cx, p)
    ensures GoodPart(cx', p)
  {
    hide Ends, LeadsOnce, Truncates;
  }

  lemma SameArg(cx: Context, cx': Context, arg: Arg, last: bool, toolEnd: string)
    requires cx' == cx.(input := cx'.input) && GoodArg(cx, arg, last, toolEnd)
    ensures GoodArg(cx', arg, last, toolEnd)
  {
    hide Ends, Trimmed;
    if arg.value.Text? {
      assert ReadsText(cx, arg.text) && cx'.form == cx.form && cx'.lib == cx.lib;
      if cx.form.rawArgval != Some(true) {
        forall s, i: nat | OccursAt(s, arg.text + cx.form.valEnd, i)
          ensures NotJson(cx'.lib, s, i, i + |arg.text|)
        {
          var taken := cx.lib.consume(s, i);
        }
      }
      SameTrimmed(cx, cx', arg.text);
    }
  }

  lemma SameTrimmed(cx: Context, cx': Context, text: string)
    requires cx' == cx.(input := cx'.input)
    ensures Trimmed(cx, text) == Trimmed(cx', text)
  {
  }

  lemma SameTool(cx: Context, cx': Context, tool: Tool)
    requires cx' == cx.(input := cx'.input) && GoodTool(cx, tool, false)
    ensures GoodTool(cx', tool, false)
  {
    hide GoodArg, GoodName;
    var (n, end) := (|tool.args|, ToolEndOf(cx.form, false));
    forall i | 0 <= i < n ensures GoodArg(cx', tool.args[i], i == n - 1, end) {
      assert GoodArg(cx, tool.args[i], i == n - 1, end);
      SameArg(cx, cx', tool.args[i], i == n - 1, end);
    }
  }

  lemma {:induction false} SameCalls(cx: Context, cx': Context, tools: seq<Tool>)
    requires cx' == cx.(input := cx'.input)
    ensures Calls(cx, tools) == Calls(cx', tools)
  {
    if tools != [] {
      SameCalls(cx, cx', tools[1..]);
    }
  }

  lemma ToolsLater(p: Place, q: Place)
    requires Later(p, q) && !(p.tools == q.tools && p.tool == q.tool)
    ensures p.tools + [p.tool] <= q.tools
  {
  }

  lemma SameNames(cx: Context, w: Writer, p: Place, q: Place)
    requires p.tool == q.tool
    ensures SentCall(cx, w, p).name == SentCall(cx, w, q).name && SentCall(cx, w, p).id == SentCall(cx, w, q).id
  {
  }

  lemma SentIdEmpty(cx: Context, w: Writer, p: Place)
    ensures SentCall(cx, w, p).id == CallOf(cx, p.tool).id
  {
  }

  lemma FirstCall(cx: Context, tool: Tool, more: seq<Tool>)
    ensures Calls(cx, [tool] + more) == [CallOf(cx, tool)] + Calls(cx, more)
  {
    assert ([tool] + more)[1..] == more;
  }

  lemma LastGrows(before: seq<ToolCall>, a: ToolCall, b: ToolCall, after: seq<ToolCall>)
    requires a.name == b.name && a.id == b.id && a.arguments <= b.arguments
    ensures CallsGrow(before + [a], before + [b] + after)
  {
    var (x, y) := (before + [a], before + [b] + after);
    assert x[..|x| - 1] == before == y[..|x| - 1];
  }

  // ---- other places --------------------------------------------------------------------------

  /** Behind complete calls: nothing, or a beginning of the next call or of the end of the scope. */
  lemma BrokenOffBehind(cx: Context, tools: seq<Tool>, text: string, pos: nat)
    requires Good(cx) && Readable(cx.form) && cx.partial && AllGoodTools(cx, tools)
    requires LeadsOnce(cx.form.toolStart) && (text == "" || Within(text, cx.form.toolStart))
    requires EndsAt(cx.input, pos, cx.form.scopeStart + (WrittenFirst(cx.form, tools) + text))
    ensures var r := ParseXml(cx, pos);
      r == Waiting(Calls(cx, tools)) || (r == Next(|cx.input|, Calls(cx, tools)) && cx.form.scopeEnd == "")
  {
    hide Readable, GoodTool, FoundLiteral, ParseTools, WrittenFirst, Calls, AllGoodTools, LeadsOnce, OccursAt;
    var (form, input) := (cx.form, cx.input);
    EndsInParts(input, pos, form.scopeStart, WrittenFirst(form, tools) + text);
    FoundHere(input, pos, cx.partial, form.scopeStart);
    ScopeStartSpace(form);
    NoSpaceInNothing();
    FirstToolsRead(cx, [], true, tools, text, pos + |form.scopeStart|);
    assert [] + Calls(cx, tools) == Calls(cx, tools);
    var at := |input| - |text|;
    EndOccurs(input, at, text);
    if text == "" {
      ScopeEnds(cx, Tools(Calls(cx, tools), tools == []));
      NothingAtEnd(cx, form.toolStart);
      NoToolsAtEnd(cx, Calls(cx, tools), tools == []);
    } else {
      BegunTool(cx, Calls(cx, tools), tools == [], text, at);
    }
  }

  lemma NoToolsAtEnd(cx: Context, calls: seq<ToolCall>, recovery: bool)
    requires Good(cx) && FoundLiteral(cx.input, |cx.input|, cx.partial, cx.form.toolStart) == None
    ensures ParseTools(cx, calls, recovery, |cx.input|) == Next(|cx.input|, XmlSpec.Tools(calls, recovery))
  {
  }

  lemma ScopeEnds(cx: Context, tools: XmlSpec.Tools)
    requires Readable(cx.form) && cx.partial
    ensures var r := ParseScopeEnd(cx, tools, |cx.input|);
      if cx.form.scopeEnd == "" then r == Next(|cx.input|, tools.calls) else r == Waiting(tools.calls)
  {
    hide FoundLiteral;
    if cx.form.scopeEnd == "" {
      FoundHere(cx.input, |cx.input|, cx.partial, "");
      NoSpaceInNothing();
    } else {
      NothingAtEnd(cx, cx.form.scopeEnd);
    }
  }

  /** The next call is begun but its name is not: nothing is known of it. */
  lemma BegunTool(cx: Context, calls: seq<ToolCall>, recovery: bool, text: string, pos: nat)
    requires Good(cx) && cx.partial && LeadsOnce(cx.form.toolStart) && text != "" && Within(text, cx.form.toolStart)
    requires Readable(cx.form) && EndsAt(cx.input, pos, text)
    ensures ParseTools(cx, calls, recovery, pos) == Waiting(calls)
  {
    hide FoundLiteral, Readable, LeadsOnce, FoundToolEnd;
    HeldHere(cx, pos, text, cx.form.toolStart);
    NoSpaceInNothing();
    NoNameAtEnd(cx);
    assert calls + [] == calls;
  }

  lemma NoNameAtEnd(cx: Context)
    requires Good(cx) && Readable(cx.form)
    ensures ParseName(cx, |cx.input|) == Waiting([])
  {
    hide FoundLiteral, FoundTwo;
    NoSpaceInNothing();
    NothingAtEnd(cx, NameLiteral(cx.form));
    NothingAtEnd(cx, cx.form.toolEnd);
    if cx.form.lastToolEnd.Some? {
      NoPairAtEnd(cx, cx.form.lastToolEnd.value, cx.form.scopeEnd);
    }
  }

  /** Within the name nothing is known of the next call; once its separator begins, the name is. */
  lemma BrokenOffName(cx: Context, w: Writer, tools: seq<Tool>, name: string, text: string, pos: nat)
    requires Good(cx) && Readable(cx.form) && cx.partial && Dumps(cx.lib, w) && AllGoodTools(cx, tools)
    requires !AllSpace(cx.form.toolSep) && LeadsOnce(cx.form.toolSep) && LeadsOnce(cx.form.toolEnd)
    requires cx.form.lastToolEnd.None? && cx.form.toolSep[0] !in name && cx.form.toolEnd[0] !in name
    requires Within(text, name + cx.form.toolSep) && cx.lib.rename(Strip(name)) != ""
    requires EndsAt(cx.input, pos, cx.form.scopeStart + (WrittenFirst(cx.form, tools) + (cx.form.toolStart + text)))
    ensures ParseXml(cx, pos)
         == Waiting(Calls(cx, tools)
                    + if |text| <= |name| then [] else [ToolCall(cx.lib.rename(Strip(name)), "{", "")])
  {
    hide Readable, FoundLiteral, ParseTools, WrittenFirst, Calls, AllGoodTools, LeadsOnce, OccursAt, Dumps, AllSpace;
    var (form, input) := (cx.form, cx.input);
    EndsInParts(input, pos, form.scopeStart, WrittenFirst(form, tools) + (form.toolStart + text));
    FoundHere(input, pos, cx.partial, form.scopeStart);
    ScopeStartSpace(form);
    NoSpaceInNothing();
    FirstToolsRead(cx, [], true, tools, form.toolStart + text, pos + |form.scopeStart|);
    assert [] + Calls(cx, tools) == Calls(cx, tools);
    BegunName(cx, w, Calls(cx, tools), tools == [], name, text, pos + |form.scopeStart| + |WrittenFirst(form, tools)|);
  }

  lemma BegunName(cx: Context, w: Writer, calls: seq<ToolCall>, recovery: bool, name: string, text: string, pos: nat)
    requires Good(cx) && Readable(cx.form) && cx.partial && Dumps(cx.lib, w)
    requires !AllSpace(cx.form.toolSep) && LeadsOnce(cx.form.toolSep) && LeadsOnce(cx.form.toolEnd)
    requires cx.form.lastToolEnd.None? && cx.form.toolSep[0] !in name && cx.form.toolEnd[0] !in name
    requires Within(text, name + cx.form.toolSep) && cx.lib.rename(Strip(name)) != ""
    requires EndsAt(cx.input, pos, cx.form.toolStart + text)
    ensures ParseTools(cx, calls, recovery, pos)
         == Waiting(calls + if |text| <= |name| then [] else [ToolCall(cx.lib.rename(Strip(name)), "{", "")])
  {
    hide Readable, FoundLiteral, LeadsOnce, OccursAt, Dumps, AllSpace, ParseName, ParseArgs, ParseToolEnd, Strip;
    var (form, input) := (cx.form, cx.input);
    EndsInParts(input, pos, form.toolStart, text);
    FoundHere(input, pos, cx.partial, form.toolStart);
    NoSpaceInNothing();
    NameBegins(cx, name, text, pos + |form.toolStart|);
    if |text| > |name| {
      OpensCall(cx, w, cx.lib.rename(Strip(name)), recovery);
    }
  }

  lemma NameBegins(cx: Context, name: string, text: string, pos: nat)
    requires Good(cx) && cx.partial && EndsAt(cx.input, pos, text)
    requires !AllSpace(cx.form.toolSep) && LeadsOnce(cx.form.toolSep) && LeadsOnce(cx.form.toolEnd)
    requires cx.form.lastToolEnd.None? && cx.form.toolSep[0] !in name && cx.form.toolEnd[0] !in name
    requires Within(text, name + cx.form.toolSep)
    ensures ParseName(cx, pos)
         == if |text| <= |name| then Waiting([]) else Next(|cx.input|, cx.lib.rename(Strip(name)))
  {
    hide FoundLiteral, AllSpace, Strip, Find, PartialStop, Ends;
    var (form, sep) := (cx.form, cx.form.toolSep);
    WithoutLetter(name, sep);
    NotYet(cx.input, pos, text, name, sep);
    TakenIs(cx, pos, sep);
    PartialStopIsLeast(text, sep, 0);
    if |text| <= |name| {
      assert text == name[..|text|];
      forall i: nat ensures !HeldBackAt(text, sep, i) && !HeldBackAt(text, form.toolEnd, i) {
        FirstLetter(text, sep, i);
        FirstLetter(text, form.toolEnd, i);
      }
      WithoutLetter(text, form.toolEnd);
      FindBehind(cx.input, pos, form.toolEnd);
      TakenIs(cx, pos, form.toolEnd);
      PartialStopIsLeast(text, form.toolEnd, 0);
    } else {
      SeparatorBegins(text, name, sep);
      WithoutLetter(name, form.toolEnd);
    }
  }

  lemma SeparatorBegins(text: string, name: string, sep: string)
    requires Within(text, name + sep) && |text| > |name| && LeadsOnce(sep)
    ensures PartialStop(text, sep) == Some(|name|) && text[..|name|] == name
  {
    PartialStopIsLeast(text, sep, 0);
    assert text[|name|..] == (name + sep)[..|text|][|name|..];
    assert HeldBackAt(text, sep, |name|);
    HeldOnce(text, sep, |name|, PartialStop(text, sep).value);
  }

  lemma OpensCall(cx: Context, w: Writer, name: string, recovery: bool)
    requires Good(cx) && cx.partial && Dumps(cx.lib, w) && name != "" && cx.form.lastToolEnd.None?
    ensures ParseArgs(cx, name, [], recovery, |cx.input|) == Next(|cx.input|, Gathered([], recovery))
    ensures ParseToolEnd(cx, name, Gathered([], recovery), |cx.input|) == Waiting([ToolCall(name, "{", "")])
  {
    hide FoundLiteral, Dumps, OpenObject;
    NothingAtEnd(cx, cx.form.keyStart);
    NothingAtEnd(cx, cx.form.toolEnd);
    SentOpen(cx.lib, w, []);
    assert "{" + Members(w, []) == "{";
  }

  /** Within the opening of the scope nothing is known. */
  lemma BrokenOffStart(cx: Context, text: string, pos: nat)
    requires Good(cx) && cx.partial && !AllSpace(cx.form.scopeStart) && LeadsOnce(cx.form.scopeStart)
    requires text != "" && Within(text, cx.form.scopeStart) && EndsAt(cx.input, pos, text)
    ensures ParseXml(cx, pos) == Waiting([])
  {
    hide FoundLiteral, LeadsOnce;
    HeldHere(cx, pos, text, cx.form.scopeStart);
    NoSpaceInNothing();
  }
}
