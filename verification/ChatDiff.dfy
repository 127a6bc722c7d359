/** The deltas that chat.cpp computes between successive messages, and what a client rebuilds from them. */
module ChatDiff {
  import opened Wrappers
  import opened ChatTypes

  /** common_chat_msg_diff; an index of std::string::npos is None. */
  datatype Diff = Diff(reasoningDelta: string, contentDelta: string, callIndex: Option<nat>, call: ToolCall)

  const NO_CALL := ToolCall("", "", "")

  function StringDiff(last: string, current: string): Result<string> {
    if last == "" then Ok(current)
    else if !(last <= current) then
      if current <= last then Ok("")
      else Err("Invalid diff: '" + last + "' not found at start of '" + current + "'")
    else Ok(current[|last|..])
  }

  /** The deltas for the tool calls of `new` from index `from` on. */
  function NewCalls(new_: Msg, from: nat): seq<Diff>
    decreases |new_.toolCalls| - from
  {
    if from >= |new_.toolCalls| then []
    else [Diff("", "", Some(from), new_.toolCalls[from])] + NewCalls(new_, from + 1)
  }

  /** The delta for the last tool call that the client already knows. */
  function LastCall(prev: Msg, new_: Msg): Result<seq<Diff>>
    requires |prev.toolCalls| <= |new_.toolCalls|
  {
    if prev.toolCalls == [] then Ok([])
    else
      var idx := |prev.toolCalls| - 1;
      var pref, newf := prev.toolCalls[idx], new_.toolCalls[idx];
      if pref.name != newf.name then Err("Invalid diff: tool call mismatch!")
      else
        match StringDiff(pref.arguments, newf.arguments)
        case Err(e) => Err(e)
        case Ok(args) =>
          if args == "" && pref.id == newf.id then Ok([])
          else
            var named := if pref.id != newf.id then NO_CALL.(id := newf.id, name := newf.name) else NO_CALL;
            Ok([Diff("", "", Some(idx), named.(arguments := args))])
  }

  /** What compute_diffs returns, part by part. */
  function Diffs(prev: Msg, new_: Msg): Result<seq<Diff>> {
    var reasoning := StringDiff(prev.reasoning, new_.reasoning);
    var content := StringDiff(prev.content, new_.content);
    if prev.reasoning != new_.reasoning && reasoning.Err? then Err(reasoning.error)
    else if prev.content != new_.content && content.Err? then Err(content.error)
    else if |new_.toolCalls| < |prev.toolCalls| then Err("Invalid diff: now finding less tool calls!")
    else
      match LastCall(prev, new_)
      case Err(e) => Err(e)
      case Ok(last) =>
        Ok((if prev.reasoning != new_.reasoning then [Diff(reasoning.value, "", None, NO_CALL)] else [])
         + (if prev.content != new_.content then [Diff("", content.value, None, NO_CALL)] else [])
         + last + NewCalls(new_, |prev.toolCalls|))
  }

  method ComputeDiffs(prev: Msg, new_: Msg) returns (r: Result<seq<Diff>>)
    ensures r == Diffs(prev, new_)
  {
    var diffs: seq<Diff> := [];
    if prev.reasoning != new_.reasoning {
      var delta := StringDiff(prev.reasoning, new_.reasoning);
      if delta.Err? {
        return Err(delta.error);
      }
      diffs := diffs + [Diff(delta.value, "", None, NO_CALL)];
    }
    if prev.content != new_.content {
      var delta := StringDiff(prev.content, new_.content);
      if delta.Err? {
        return Err(delta.error);
      }
      diffs := diffs + [Diff("", delta.value, None, NO_CALL)];
    }
    if |new_.toolCalls| < |prev.toolCalls| {
      return Err("Invalid diff: now finding less tool calls!");
    }
    ghost var texts := diffs;
    if prev.toolCalls != [] {
      var idx := |prev.toolCalls| - 1;
      var pref, newf := prev.toolCalls[idx], new_.toolCalls[idx];
      if pref.name != newf.name {
        return Err("Invalid diff: tool call mismatch!");
      }
      var argsDiff := StringDiff(pref.arguments, newf.arguments);
      if argsDiff.Err? {
        return Err(argsDiff.error);
      }
      if argsDiff.value != "" || pref.id != newf.id {
        var delta := NO_CALL;
        if pref.id != newf.id {
          delta := delta.(id := newf.id, name := newf.name);
        }
        diffs := diffs + [Diff("", "", Some(idx), delta.(arguments := argsDiff.value))];
      }
    }
    assert texts
        == (if prev.reasoning == new_.reasoning then []
            else [Diff(StringDiff(prev.reasoning, new_.reasoning).value, "", None, NO_CALL)])
         + (if prev.content == new_.content then []
            else [Diff("", StringDiff(prev.content, new_.content).value, None, NO_CALL)]);
    assert diffs == texts + LastCall(prev, new_).value;
    ghost var before := diffs;
    var idx := |prev.toolCalls|;
    while idx < |new_.toolCalls|
      invariant |prev.toolCalls| <= idx <= |new_.toolCalls|
      invariant diffs + NewCalls(new_, idx) == before + NewCalls(new_, |prev.toolCalls|)
    {
      diffs := diffs + [Diff("", "", Some(idx), new_.toolCalls[idx])];
      idx := idx + 1;
    }
    assert diffs + [] == diffs;
    return Ok(diffs);
  }

  /**
   How a client of the deltas uses one: texts are appended; a call with a new index is added, one with
   a known index has its arguments extended and takes over a name or an id that the delta carries.
   */
  function Apply(msg: Msg, d: Diff): Msg {
    var msg' := msg.(reasoning := msg.reasoning + d.reasoningDelta, content := msg.content + d.contentDelta);
    match d.callIndex
    case None => msg'
    case Some(i) =>
      if i < |msg.toolCalls| then
        var call := msg.toolCalls[i];
        msg'.(toolCalls := msg.toolCalls[i := ToolCall(
                                                if d.call.name != "" then d.call.name else call.name,
                                                call.arguments + d.call.arguments,
                                                if d.call.id != "" then d.call.id else call.id)])
      else
        msg'.(toolCalls := msg.toolCalls + [d.call])
  }

  function ApplyAll(msg: Msg, diffs: seq<Diff>): Msg
    decreases |diffs|
  {
    if diffs == [] then msg else ApplyAll(Apply(msg, diffs[0]), diffs[1..])
  }

  /** The deltas exist and lead a client from `prev` to `new_`; no delta carries the role. */
  predicate Rebuilds(prev: Msg, new_: Msg) {
    Diffs(prev, new_).Ok? && ApplyAll(prev.(role := new_.role), Diffs(prev, new_).value) == new_
  }

  predicate CallGrows(a: ToolCall, b: ToolCall) {
    a.name == b.name && a.arguments <= b.arguments && (a.id == b.id || b.id != "")
  }

  predicate CallsGrow(a: seq<ToolCall>, b: seq<ToolCall>) {
    |a| <= |b| && (|a| > 0 ==> a[..|a| - 1] == b[..|a| - 1] && CallGrows(a[|a| - 1], b[|a| - 1]))
  }

  /** `new_` only adds to `prev`, and of the tool calls it changes at most the last known one. */
  predicate Extends(prev: Msg, new_: Msg) {
    prev.reasoning <= new_.reasoning && prev.content <= new_.content && CallsGrow(prev.toolCalls, new_.toolCalls)
  }

  lemma {:induction false} ApplyAllConcat(msg: Msg, a: seq<Diff>, b: seq<Diff>)
    ensures ApplyAll(msg, a + b) == ApplyAll(ApplyAll(msg, a), b)
    decreases |a|
  {
    if a == [] {
      assert a + b == b;
    } else {
      assert (a + b)[1..] == a[1..] + b;
      ApplyAllConcat(Apply(msg, a[0]), a[1..], b);
    }
  }

  lemma {:induction false} ApplyNewCalls(msg: Msg, new_: Msg, from: nat)
    requires |msg.toolCalls| == from <= |new_.toolCalls|
    ensures ApplyAll(msg, NewCalls(new_, from)) == msg.(toolCalls := msg.toolCalls + new_.toolCalls[from..])
    decreases |new_.toolCalls| - from
  {
    if from < |new_.toolCalls| {
      var d := Diff("", "", Some(from), new_.toolCalls[from]);
      var msg' := Apply(msg, d);
      assert msg.content + "" == msg.content && msg.reasoning + "" == msg.reasoning;
      assert NewCalls(new_, from)[1..] == NewCalls(new_, from + 1);
      ApplyNewCalls(msg', new_, from + 1);
      assert [new_.toolCalls[from]] + new_.toolCalls[from + 1..] == new_.toolCalls[from..];
      assert msg'.toolCalls + new_.toolCalls[from + 1..] == msg.toolCalls + new_.toolCalls[from..];
    } else {
      assert new_.toolCalls[from..] == [];
    }
  }

  lemma ApplyOne(msg: Msg, d: Diff)
    ensures ApplyAll(msg, [d]) == Apply(msg, d)
    ensures ApplyAll(msg, []) == msg
  {
    assert [d][1..] == [];
  }

  /** What a delta adds to a text. */
  function TextDelta(last: string, current: string): string
    requires last == current || StringDiff(last, current).Ok?
  {
    if last == current then "" else StringDiff(last, current).value
  }

  /** The deltas for the texts, as Diffs has them in front. */
  function TextDiffs(prev: Msg, new_: Msg): seq<Diff>
    requires Diffs(prev, new_).Ok?
  {
    (if prev.reasoning == new_.reasoning then []
     else [Diff(StringDiff(prev.reasoning, new_.reasoning).value, "", None, NO_CALL)])
    + (if prev.content == new_.content then []
       else [Diff("", StringDiff(prev.content, new_.content).value, None, NO_CALL)])
  }

  lemma AppliedTexts(prev: Msg, new_: Msg)
    requires Diffs(prev, new_).Ok?
    ensures ApplyAll(prev, TextDiffs(prev, new_))
         == prev.(reasoning := prev.reasoning + TextDelta(prev.reasoning, new_.reasoning),
                  content := prev.content + TextDelta(prev.content, new_.content))
  {
    hide ApplyAll;
    var reasoning := if prev.reasoning != new_.reasoning
                     then [Diff(StringDiff(prev.reasoning, new_.reasoning).value, "", None, NO_CALL)] else [];
    var content := if prev.content != new_.content
                   then [Diff("", StringDiff(prev.content, new_.content).value, None, NO_CALL)] else [];
    var m1 := ApplyAll(prev, reasoning);
    ApplyAllConcat(prev, reasoning, content);
    ApplyOne(prev, if reasoning != [] then reasoning[0] else Diff("", "", None, NO_CALL));
    ApplyOne(m1, if content != [] then content[0] else Diff("", "", None, NO_CALL));
    assert prev.reasoning + "" == prev.reasoning && prev.content + "" == prev.content;
  }

  lemma AppliedLastCall(msg: Msg, prev: Msg, new_: Msg) returns (calls: seq<ToolCall>)
    requires |prev.toolCalls| <= |new_.toolCalls| && LastCall(prev, new_).Ok? && msg.toolCalls == prev.toolCalls
    ensures ApplyAll(msg, LastCall(prev, new_).value) == msg.(toolCalls := calls)
    ensures |calls| == |prev.toolCalls|
    ensures prev.toolCalls != [] ==>
      var i := |prev.toolCalls| - 1;
      var (a, b) := (prev.toolCalls[i], new_.toolCalls[i]);
      && calls[..i] == prev.toolCalls[..i] && StringDiff(a.arguments, b.arguments).Ok?
      && calls[i] == ToolCall(a.name, a.arguments + StringDiff(a.arguments, b.arguments).value,
                              if b.id != "" then b.id else a.id)
  {
    hide ApplyAll;
    var last := LastCall(prev, new_).value;
    ApplyOne(msg, if last != [] then last[0] else Diff("", "", None, NO_CALL));
    calls := ApplyAll(msg, last).toolCalls;
    assert msg.reasoning + "" == msg.reasoning && msg.content + "" == msg.content;
  }

  /** The message a client holds once it has applied the deltas from `prev` to `new_`. */
  lemma AppliedDiffs(prev: Msg, new_: Msg) returns (calls: seq<ToolCall>)
    requires Diffs(prev, new_).Ok?
    ensures ApplyAll(prev, Diffs(prev, new_).value)
         == Msg(prev.role,
                prev.content + TextDelta(prev.content, new_.content),
                prev.reasoning + TextDelta(prev.reasoning, new_.reasoning),
                calls + new_.toolCalls[|prev.toolCalls|..])
    ensures |calls| == |prev.toolCalls|
    ensures prev.toolCalls != [] ==>
      var i := |prev.toolCalls| - 1;
      var (a, b) := (prev.toolCalls[i], new_.toolCalls[i]);
      && calls[..i] == prev.toolCalls[..i] && StringDiff(a.arguments, b.arguments).Ok?
      && calls[i] == ToolCall(a.name, a.arguments + StringDiff(a.arguments, b.arguments).value,
                              if b.id != "" then b.id else a.id)
  {
    hide ApplyAll, NewCalls, LastCall, StringDiff;
    var (texts, last, rest) := (TextDiffs(prev, new_), LastCall(prev, new_).value, NewCalls(new_, |prev.toolCalls|));
    AppliedTexts(prev, new_);
    calls := AppliedLastCall(ApplyAll(prev, texts), prev, new_);
    ApplyNewCalls(ApplyAll(prev, texts).(toolCalls := calls), new_, |prev.toolCalls|);
    ApplyAllConcat(prev, texts + last, rest);
    ApplyAllConcat(prev, texts, last);
  }

  lemma StringDiffRebuilds(last: string, current: string)
    ensures (StringDiff(last, current).Ok? && last + StringDiff(last, current).value == current) <==> last <= current
  {
    if last != "" && !(last <= current) && current <= last {
      assert |last + StringDiff(last, current).value| > |current|;
    }
  }

  /** Exactly the growing messages survive the round trip through deltas. */
  lemma RebuildsIffExtends(prev: Msg, new_: Msg)
    ensures Rebuilds(prev, new_) <==> Extends(prev, new_)
  {
    StringDiffRebuilds(prev.reasoning, new_.reasoning);
    StringDiffRebuilds(prev.content, new_.content);
    if |prev.toolCalls| <= |new_.toolCalls| && prev.toolCalls != [] {
      var i := |prev.toolCalls| - 1;
      StringDiffRebuilds(prev.toolCalls[i].arguments, new_.toolCalls[i].arguments);
    }
    if Diffs(prev, new_).Ok? {
      var from := prev.(role := new_.role);
      assert Diffs(from, new_) == Diffs(prev, new_);
      var calls := AppliedDiffs(from, new_);
      CallsRebuilt(prev.toolCalls, calls, new_.toolCalls);
    }
  }

  lemma CallsRebuilt(prev: seq<ToolCall>, calls: seq<ToolCall>, new_: seq<ToolCall>)
    requires |calls| == |prev| <= |new_|
    ensures calls + new_[|prev|..] == new_ <==> calls == new_[..|prev|]
    ensures prev != [] ==> (calls == new_[..|prev|] <==>
              calls[..|prev| - 1] == new_[..|prev| - 1] && calls[|prev| - 1] == new_[|prev| - 1])
  {
    if calls + new_[|prev|..] == new_ {
      assert (calls + new_[|prev|..])[..|prev|] == calls;
    }
    if prev != [] {
      var i := |prev| - 1;
      assert new_[..|prev|] == new_[..i] + [new_[i]];
      assert calls == calls[..i] + [calls[i]];
    }
  }

  /** All the deltas of a run of messages that starts from `prev`. */
  function RunDiffs(prev: Msg, run: seq<Msg>): Result<seq<Diff>>
    decreases |run|
  {
    if run == [] then Ok([])
    else
      match Diffs(prev, run[0])
      case Err(e) => Err(e)
      case Ok(first) =>
        match RunDiffs(run[0], run[1..])
        case Err(e) => Err(e)
        case Ok(rest) => Ok(first + rest)
  }

  /** Every message of the run extends the one before it. */
  predicate Chain(prev: Msg, run: seq<Msg>)
    decreases |run|
  {
    run != [] ==> Extends(prev, run[0]) && Chain(run[0], run[1..])
  }

  lemma {:induction false} RoleIsNotSent(msg: Msg, role: string, diffs: seq<Diff>)
    ensures ApplyAll(msg.(role := role), diffs) == ApplyAll(msg, diffs).(role := role)
    decreases |diffs|
  {
    if diffs != [] {
      RoleIsNotSent(Apply(msg, diffs[0]), role, diffs[1..]);
    }
  }

  /** A run in which every message extends the one before never throws, and its deltas add up to the last message. */
  lemma {:induction false} ChainRebuilds(prev: Msg, run: seq<Msg>)
    requires run != [] && Chain(prev, run)
    ensures RunDiffs(prev, run).Ok?
    ensures var last := run[|run| - 1];
            ApplyAll(prev, RunDiffs(prev, run).value).(role := last.role) == last
    decreases |run|
  {
    RebuildsIffExtends(prev, run[0]);
    var first := Diffs(prev, run[0]).value;
    RoleIsNotSent(prev, run[0].role, first);
    var rest := run[1..];
    if rest == [] {
      assert RunDiffs(run[0], rest) == Ok([]);
      assert first + [] == first;
    } else {
      ChainRebuilds(run[0], rest);
      var more := RunDiffs(run[0], rest).value;
      ApplyAllConcat(prev, first, more);
      RoleIsNotSent(ApplyAll(prev, first), run[0].role, more);
    }
  }

  // ---- when and what -------------------------------------------------------------------------

  predicate Related(a: string, b: string) {
    a <= b || b <= a
  }

  /** compute_diffs throws exactly if a text was replaced, a tool call got lost, or the last one became another. */
  lemma DiffsFailIff(prev: Msg, new_: Msg)
    ensures Diffs(prev, new_).Err? <==>
      || !Related(prev.reasoning, new_.reasoning) || !Related(prev.content, new_.content)
      || |new_.toolCalls| < |prev.toolCalls|
      || (prev.toolCalls != [] &&
            var (a, b) := (prev.toolCalls[|prev.toolCalls| - 1], new_.toolCalls[|prev.toolCalls| - 1]);
            a.name != b.name || !Related(a.arguments, b.arguments))
  {
  }

  predicate SaysSomething(d: Diff) {
    d.reasoningDelta != "" || d.contentDelta != "" || d.callIndex.Some?
  }

  lemma {:induction false} NewCallsSay(new_: Msg, from: nat)
    ensures forall d :: d in NewCalls(new_, from) ==> SaysSomething(d)
    ensures |NewCalls(new_, from)| == if from >= |new_.toolCalls| then 0 else |new_.toolCalls| - from
    decreases |new_.toolCalls| - from
  {
    if from < |new_.toolCalls| {
      NewCallsSay(new_, from + 1);
    }
  }

  /** Where the new message adds to the old one no delta is empty, and without news there is none. */
  lemma DeltasSaySomething(prev: Msg, new_: Msg)
    requires Extends(prev, new_)
    ensures Diffs(prev, new_).Ok? && forall d :: d in Diffs(prev, new_).value ==> SaysSomething(d)
    ensures prev == new_ ==> Diffs(prev, new_) == Ok([])
  {
    NewCallsSay(new_, |prev.toolCalls|);
    if prev.toolCalls != [] {
      assert CallGrows(prev.toolCalls[|prev.toolCalls| - 1], new_.toolCalls[|prev.toolCalls| - 1]);
    }
  }
}
