/**
 What the content-only format makes of an output, said by how the output is written: sections of reasoning, white
 space and content. Every output is written in exactly one of these ways.
 */
module ReasoningMeaning {
  import opened Wrappers
  import opened Text
  import opened ChatTypes
  import opened ReasoningSpec

  /** From inside a section on: it is never closed, perhaps with a begun closing literal at the end, or it is. */
  datatype Body = Unclosed(text: string, held: string) | Closed(text: string, space: string, next: Next)

  /** Behind a section: content, a begun opening literal at the end of the output, or another section. */
  datatype Next = Rest(text: string) | Begun(text: string) | Another(body: Body)

  function Written(body: Body, tags: Tags): string {
    match body
    case Unclosed(text, held) => text + held
    case Closed(text, space, next) => text + tags.close + (space + WrittenNext(next, tags))
  }

  function WrittenNext(next: Next, tags: Tags): string {
    match next
    case Rest(text) => text
    case Begun(text) => text
    case Another(body) => tags.open + Written(body, tags)
  }

  /** Neither the literal nor a beginning of it that ends the output. */
  predicate Unlike(text: string, tag: string) {
    !(tag <= text) && !(text <= tag)
  }

  predicate Fits(body: Body, tags: Tags) {
    match body
    case Unclosed(text, held) =>
      Find(text + held, tags.close, 0) == None
      && PartialStop(text + held, tags.close) == if held == "" then None else Some(|text|)
    case Closed(text, space, next) => Ends(text, tags.close) && AllSpace(space) && FitsNext(next, tags)
  }

  predicate FitsNext(next: Next, tags: Tags) {
    match next
    case Rest(text) => text == "" || (!IsSpace(text[0]) && Unlike(text, tags.open))
    case Begun(text) => text != "" && text < tags.open
    case Another(body) => Fits(body, tags)
  }

  // ---- what it means -------------------------------------------------------------------------

  /** The opening literal is shown before every section that it opens, if a section is forced open. */
  function Prefix(syntax: Syntax, tags: Tags): string {
    if syntax.thinkingForcedOpen then tags.open else ""
  }

  function Thought(text: string, prefix: string): string {
    if Strip(text) == "" then "" else prefix + Strip(text)
  }

  /** The reasoning: all sections, stripped, one after the other. */
  function Thoughts(body: Body, prefix: string, syntax: Syntax, tags: Tags): string {
    match body
    case Unclosed(text, _) => Thought(text, prefix)
    case Closed(text, _, next) =>
      Thought(text, prefix)
      + match next
        case Another(more) => Thoughts(more, Prefix(syntax, tags), syntax, tags)
        case _ => ""
  }

  function Shown(text: string, closed: bool, syntax: Syntax, tags: Tags): string {
    var think := if syntax.reasoningFormat == Deepseek then THINK_TAGS else tags;
    if Strip(text) == "" then "" else think.open + Strip(text) + (if closed then think.close else "")
  }

  /** The sections as part of the content; one that the complete output leaves open is closed. */
  function AllShown(body: Body, partial: bool, syntax: Syntax, tags: Tags): string {
    match body
    case Unclosed(text, held) => Shown(text, held == "" && !partial, syntax, tags)
    case Closed(text, _, next) =>
      Shown(text, true, syntax, tags)
      + match next
        case Another(more) => AllShown(more, partial, syntax, tags)
        case _ => ""
  }

  function Content(body: Body): string {
    match body
    case Unclosed(_, _) => ""
    case Closed(_, _, next) =>
      match next
      case Rest(text) => text
      case Begun(_) => ""
      case Another(more) => Content(more)
  }

  /** The message: what was there before, reasoning in its own field or in the content, and the rest as content. */
  function Meaning(msg: Msg, body: Body, prefix: string, partial: bool, syntax: Syntax, tags: Tags): Msg {
    if syntax.reasoningInContent then
      msg.(content := msg.content + AllShown(body, partial, syntax, tags) + Content(body))
    else
      msg.(reasoning := msg.reasoning + Thoughts(body, prefix, syntax, tags), content := msg.content + Content(body))
  }

  // ---- sections ------------------------------------------------------------------------------

  lemma Stops(s: string, cursor: nat, text: string, held: string, close: string)
    requires cursor <= |s| && s[cursor..] == text + held && Fits(Unclosed(text, held), Tags("", close))
    ensures Find(s, close, cursor) == None && ReasoningEnd(s, cursor, close) == cursor + |text|
    ensures s[cursor..cursor + |text|] == text
  {
    hide Find, PartialStop;
    FindBehind(s, cursor, close);
    assert s[cursor..][..|text|] == text;
  }

  lemma UnclosedMeans(s: string, cursor: nat, msg: Msg, prefix: string, body: Body, partial: bool, syntax: Syntax,
                      tags: Tags)
    requires cursor <= |s| && tags.close != "" && body.Unclosed? && s[cursor..] == Written(body, tags)
    requires Fits(body, tags)
    ensures WithRest(s, ReasoningSections(s, cursor, msg, prefix, partial, syntax, tags))
         == Meaning(msg, body, prefix, partial, syntax, tags)
  {
    hide Find, PartialStop, ReasoningEnd, Strip;
    Stops(s, cursor, body.text, body.held, tags.close);
    var r := AddReasoning(msg, prefix, body.text, body.held == "" && !partial, syntax, tags);
    assert cursor + |body.text| == |s| <==> body.held == "";
    Adds(msg, prefix, body.text, body.held == "" && !partial, syntax, tags);
    assert s[|s|..] == "";
  }

  lemma Adds(msg: Msg, prefix: string, text: string, closed: bool, syntax: Syntax, tags: Tags)
    ensures AddReasoning(msg, prefix, text, closed, syntax, tags)
         == if syntax.reasoningInContent then msg.(content := msg.content + Shown(text, closed, syntax, tags))
            else msg.(reasoning := msg.reasoning + Thought(text, prefix))
  {
    hide Strip;
  }

  lemma SkipsSpace(s: string, from: nat, space: string, after: string)
    requires from <= |s| && s[from..] == space + after && AllSpace(space) && (after == "" || !IsSpace(after[0]))
    ensures from + |space| <= |s| && SkipSpaces(s, from) == from + |space| && s[from + |space|..] == after
  {
    assert s[from..][|space|..] == after;
    forall i | from <= i < from + |space| ensures IsSpace(s[i]) {
      assert s[from..][i - from] == space[i - from];
    }
    SkipsExactlySpaces(s, from);
    assert after != "" ==> s[from..][|space|] == after[0];
  }

  lemma TagIff(s: string, at: nat, after: string, tag: string)
    requires at <= |s| && s[at..] == after
    ensures MayBeTag(s, at, tag) <==> !Unlike(after, tag)
    ensures ComparedLength(s, at, tag) == Min(|tag|, |after|)
  {
    var n := ComparedLength(s, at, tag);
    assert s[at..at + n] == after[..n];
  }

  lemma ClosedSection(s: string, cursor: nat, msg: Msg, prefix: string, body: Body, partial: bool, syntax: Syntax,
                      tags: Tags)
    requires cursor <= |s| && ProperTags(tags) && body.Closed? && s[cursor..] == Written(body, tags)
    requires Fits(body, tags)
    ensures var (after, at) := (WrittenNext(body.next, tags), cursor + |body.text| + |tags.close| + |body.space|);
      && at <= |s| && s[at..] == after && (after == "" || !IsSpace(after[0])) && SkipSpaces(s, at) == at
      && Section(s, cursor, msg, prefix, partial, syntax, tags)
           == AfterClose(s, at - |body.space|, AddReasoning(msg, prefix, body.text, true, syntax, tags),
                         PendingAfter(prefix, body.text, syntax), syntax, tags)
      && SkipSpaces(s, at - |body.space|) == at
  {
    hide Find, AddReasoning, PendingAfter, AfterClose, Fits, SkipSpaces, OccursAt, Ends, AllSpace;
    var (text, after) := (body.text, WrittenNext(body.next, tags));
    var rest := body.space + after;
    Begins(body, tags);
    assert s[cursor..cursor + |text + tags.close|] == text + tags.close by {
      assert s[cursor..][..|text + tags.close|] == text + tags.close;
    }
    StandsAt(s, text + tags.close, cursor);
    EndsWhereWritten(s, cursor, text, tags.close);
    assert s[cursor..cursor + |text|] == text;
    var from := cursor + |text| + |tags.close|;
    assert s[from..] == rest by { assert s[cursor..][|text + tags.close|..] == rest; }
    SkipsSpace(s, from, body.space, after);
    SkipsSpace(s, from + |body.space|, "", after);
  }

  lemma Begins(body: Body, tags: Tags)
    requires ProperTags(tags) && body.Closed? && Fits(body, tags)
    ensures Ends(body.text, tags.close) && AllSpace(body.space) && AllSpace("")
    ensures var after := WrittenNext(body.next, tags); after == "" || !IsSpace(after[0])
  {
  }

  /** What stands behind a section decides how the loop goes on. */
  lemma NextRound(s: string, from: nat, at: nat, msg: Msg, pending: string, next: Next, syntax: Syntax, tags: Tags)
    requires ProperTags(tags) && FitsNext(next, tags) && from <= |s| && SkipSpaces(s, from) == at
    requires s[at..] == WrittenNext(next, tags)
    ensures AfterClose(s, from, msg, pending, syntax, tags)
         == match next
            case Rest(_) => Done(at, msg)
            case Begun(_) => Done(|s|, msg)
            case Another(_) => Again(at + |tags.open|, msg, ReasoningPrefix(pending, syntax, tags))
    ensures next.Another? ==> at + |tags.open| <= |s| && s[at + |tags.open|..] == Written(next.body, tags)
  {
    hide SkipSpaces, MayBeTag, Fits, Written, ReasoningPrefix;
    var after := WrittenNext(next, tags);
    TagIff(s, at, after, tags.open);
    if next.Another? {
      assert s[at..][|tags.open|..] == Written(next.body, tags);
      assert after[..|tags.open|] == tags.open;
    }
  }

  /** The meaning section by section. */
  lemma MeaningStep(msg: Msg, body: Body, prefix: string, partial: bool, syntax: Syntax, tags: Tags)
    requires body.Closed?
    ensures var msg' := AddReasoning(msg, prefix, body.text, true, syntax, tags);
      Meaning(msg, body, prefix, partial, syntax, tags)
        == match body.next
           case Rest(text) => msg'.(content := msg'.content + text)
           case Begun(_) => msg'
           case Another(more) => Meaning(msg', more, Prefix(syntax, tags), partial, syntax, tags)
  {
    hide AddReasoning, Shown, Thought;
    Adds(msg, prefix, body.text, true, syntax, tags);
    if body.next.Another? {
      var more := body.next.body;
      Regroup(msg.content, Shown(body.text, true, syntax, tags), AllShown(more, partial, syntax, tags), Content(more));
      Regroup(msg.reasoning, Thought(body.text, prefix), Thoughts(more, Prefix(syntax, tags), syntax, tags), "");
    } else {
      Regroup(msg.content, Shown(body.text, true, syntax, tags), "", Content(body));
      Regroup(msg.reasoning, Thought(body.text, prefix), "", "");
    }
  }

  lemma Regroup(a: string, b: string, c: string, d: string)
    ensures a + (b + c) + d == (a + b) + c + d && a + (b + c) == (a + b) + c
    ensures b + "" == b && a + "" == a
  {
  }

  /** From inside a section on, the sections and what follows them mean what they say. */
  lemma {:induction false} BodyMeans(s: string, cursor: nat, msg: Msg, prefix: string, body: Body, partial: bool,
                                     syntax: Syntax, tags: Tags)
    requires cursor <= |s| && ProperTags(tags) && s[cursor..] == Written(body, tags) && Fits(body, tags)
    requires !syntax.thinkingForcedOpen ==> prefix == ""
    ensures WithRest(s, ReasoningSections(s, cursor, msg, prefix, partial, syntax, tags))
         == Meaning(msg, body, prefix, partial, syntax, tags)
    decreases body
  {
    hide Section, AddReasoning, AfterClose, SkipSpaces, Strip, Meaning, Written, WrittenNext, PendingAfter;
    if body.Unclosed? {
      UnclosedMeans(s, cursor, msg, prefix, body, partial, syntax, tags);
    } else {
      ClosedSection(s, cursor, msg, prefix, body, partial, syntax, tags);
      var at := cursor + |body.text| + |tags.close| + |body.space|;
      var msg' := AddReasoning(msg, prefix, body.text, true, syntax, tags);
      var pending := PendingAfter(prefix, body.text, syntax);
      NextRound(s, at - |body.space|, at, msg', pending, body.next, syntax, tags);
      MeaningStep(msg, body, prefix, partial, syntax, tags);
      match body.next {
        case Rest(text) => WrittenRest(body.next, tags);
        case Begun(_) => assert s[|s|..] == "" && msg'.content + "" == msg'.content;
        case Another(more) =>
          PrefixNext(prefix, body.text, syntax, tags);
          var prefix' := ReasoningPrefix(pending, syntax, tags);
          BodyMeans(s, at + |tags.open|, msg', prefix', more, partial, syntax, tags);
          SamePrefix(msg', more, prefix', Prefix(syntax, tags), partial, syntax, tags);
      }
    }
  }

  lemma WrittenRest(next: Next, tags: Tags)
    requires next.Rest?
    ensures WrittenNext(next, tags) == next.text
  {
  }

  lemma PrefixNext(prefix: string, text: string, syntax: Syntax, tags: Tags)
    requires !syntax.thinkingForcedOpen ==> prefix == ""
    ensures var p := ReasoningPrefix(PendingAfter(prefix, text, syntax), syntax, tags);
      (!syntax.thinkingForcedOpen ==> p == "") && (!syntax.reasoningInContent ==> p == Prefix(syntax, tags))
  {
  }

  lemma SamePrefix(msg: Msg, body: Body, p: string, q: string, partial: bool, syntax: Syntax, tags: Tags)
    requires !syntax.reasoningInContent ==> p == q
    ensures Meaning(msg, body, p, partial, syntax, tags) == Meaning(msg, body, q, partial, syntax, tags)
  {
  }

  // ---- whole outputs -------------------------------------------------------------------------

  /** White space and an opening literal: the sections follow. */
  lemma OpenedMeans(s: string, space: string, body: Body, partial: bool, syntax: Syntax, tags: Tags)
    requires ProperTags(tags) && syntax.reasoningFormat != NoFormat && AllSpace(space) && Fits(body, tags)
    requires s == space + (tags.open + Written(body, tags))
    ensures ContentOnly(s, partial, syntax, tags)
         == Meaning(ASSISTANT_MSG.(content := space), body, Prefix(syntax, tags), partial, syntax, tags)
  {
    hide ReasoningSections, AddReasoning, SkipSpaces, Meaning, MayBeTag, Written, Fits;
    var after := tags.open + Written(body, tags);
    assert s[0..] == s && s[0..|space|] == space;
    SkipsSpace(s, 0, space, after);
    TagIff(s, |space|, after, tags.open);
    assert s[|space| + |tags.open|..] == Written(body, tags);
    assert after[..|tags.open|] == tags.open;
    var msg := ASSISTANT_MSG.(content := space);
    assert ASSISTANT_MSG.content + space == space;
    var prefix := ReasoningPrefix("", syntax, tags);
    BodyMeans(s, |space| + |tags.open|, msg, prefix, body, partial, syntax, tags);
    SamePrefix(msg, body, prefix, Prefix(syntax, tags), partial, syntax, tags);
  }

  /** Forced open without a literal: the sections begin behind white space, which is dropped. */
  lemma ForcedMeans(s: string, space: string, body: Body, partial: bool, syntax: Syntax, tags: Tags)
    requires ProperTags(tags) && syntax.reasoningFormat != NoFormat && syntax.thinkingForcedOpen && AllSpace(space)
    requires var after := Written(body, tags);
      s == space + after && Fits(body, tags) && after != "" && !IsSpace(after[0]) && Unlike(after, tags.open)
    ensures ContentOnly(s, partial, syntax, tags) == Meaning(ASSISTANT_MSG, body, "", partial, syntax, tags)
  {
    hide ReasoningSections, AddReasoning, SkipSpaces, Meaning, MayBeTag, Written, Fits, Unlike;
    assert s[0..] == s && s[|space|..] == Written(body, tags);
    SkipsSpace(s, 0, space, Written(body, tags));
    TagIff(s, |space|, Written(body, tags), tags.open);
    BodyMeans(s, |space|, ASSISTANT_MSG, "", body, partial, syntax, tags);
  }

  /** All else: nothing is shown of a begun opening literal; white space and other text are content. */
  lemma OthersMean(s: string, space: string, after: string, partial: bool, syntax: Syntax, tags: Tags)
    requires ProperTags(tags) && AllSpace(space) && s == space + after && (after == "" || !IsSpace(after[0]))
    ensures var r := ContentOnly(s, partial, syntax, tags);
      if syntax.reasoningFormat == NoFormat then r == ASSISTANT_MSG.(content := s)
      else if after == "" then r == ASSISTANT_MSG.(content := if syntax.thinkingForcedOpen then "" else s)
      else if after < tags.open then r == ASSISTANT_MSG
      else Unlike(after, tags.open) && !syntax.thinkingForcedOpen ==> r == ASSISTANT_MSG.(content := s)
  {
    hide ReasoningSections, SkipSpaces, MayBeTag;
    assert s[0..] == s && s[|s|..] == "" && s + "" == s;
    SkipsSpace(s, 0, space, after);
    TagIff(s, |space|, after, tags.open);
    assert ASSISTANT_MSG.content + s == s;
    if after == "" && syntax.thinkingForcedOpen {
      var _, _ := StripDecomposes(s);
    }
  }

  /**
   In particular, a section that is not closed is reasoning up to the longest end of the output that begins the
   closing literal: while it streams, and when it is cut off.
   */
  lemma OpenSectionIsReasoning(s: string, space: string, body: string, end: nat, partial: bool, syntax: Syntax,
                               tags: Tags)
    requires ProperTags(tags) && syntax.reasoningFormat != NoFormat && !syntax.reasoningInContent && AllSpace(space)
    requires Find(body, tags.close, 0) == None && end <= |body| && (end < |body| ==> HeldBackAt(body, tags.close, end))
    requires forall i :: 0 <= i < end ==> !HeldBackAt(body, tags.close, i)
    requires s == space + (tags.open + body)
    ensures ContentOnly(s, partial, syntax, tags)
         == Msg("assistant", space, Thought(body[..end], Prefix(syntax, tags)), [])
  {
    hide Find, ContentOnly, Thought, PartialStop, Strip, Meaning, Fits;
    var (text, held) := (body[..end], body[end..]);
    assert body == text + held;
    UnclosedFits(body, end, tags);
    UnclosedMeaning(space, text, held, partial, syntax, tags);
    OpenedMeans(s, space, Unclosed(text, held), partial, syntax, tags);
  }

  lemma UnclosedFits(body: string, end: nat, tags: Tags)
    requires Find(body, tags.close, 0) == None && end <= |body| && (end < |body| ==> HeldBackAt(body, tags.close, end))
    requires forall i :: 0 <= i < end ==> !HeldBackAt(body, tags.close, i)
    ensures Fits(Unclosed(body[..end], body[end..]), tags)
  {
    hide Find, PartialStop, HeldBackAt;
    assert body[..end] + body[end..] == body;
    PartialStopIsLeast(body, tags.close, 0);
  }

  lemma UnclosedMeaning(space: string, text: string, held: string, partial: bool, syntax: Syntax, tags: Tags)
    requires !syntax.reasoningInContent
    ensures Meaning(ASSISTANT_MSG.(content := space), Unclosed(text, held), Prefix(syntax, tags), partial, syntax, tags)
         == Msg("assistant", space, Thought(text, Prefix(syntax, tags)), [])
  {
    hide Thought;
    assert "" + Thought(text, Prefix(syntax, tags)) == Thought(text, Prefix(syntax, tags)) && space + "" == space;
  }

  // ---- every output is written in one of these ways ------------------------------------------

  lemma {:induction false} EveryBody(t: string, tags: Tags) returns (body: Body)
    requires ProperTags(tags)
    ensures Fits(body, tags) && Written(body, tags) == t
    decreases |t|
  {
    hide SkipSpaces;
    var end := Find(t, tags.close, 0);
    FindIsLeast(t, tags.close, 0);
    if end == None {
      var stop := PartialStop(t, tags.close);
      PartialStopIsLeast(t, tags.close, 0);
      body := if stop == None then Unclosed(t, "") else Unclosed(t[..stop.value], t[stop.value..]);
      assert Written(body, tags) == t;
    } else {
      var (text, rest) := (t[..end.value], t[end.value + |tags.close|..]);
      assert t == text + tags.close + rest;
      FirstEnds(t, text, tags.close, rest);
      var at := SkipSpaces(rest, 0);
      SkipsExactlySpaces(rest, 0);
      var (space, after) := (rest[..at], rest[at..]);
      assert rest == space + after;
      var next := EveryNext(after, tags);
      body := Closed(text, space, next);
    }
  }

  lemma FirstEnds(t: string, text: string, literal: string, rest: string)
    requires t == text + literal + rest && Find(t, literal, 0) == Some(|text|)
    ensures Ends(text, literal)
  {
    hide Find;
    var s := text + literal;
    FindIsLeast(t, literal, 0);
    FindIsLeast(s, literal, 0);
    assert s[|text|..|s|] == literal;
    StandsAt(s, literal, |text|);
    OccursInPrefix(s, t, literal, Find(s, literal, 0).value);
  }

  lemma {:induction false} EveryNext(after: string, tags: Tags) returns (next: Next)
    requires ProperTags(tags) && (after == "" || !IsSpace(after[0]))
    ensures FitsNext(next, tags) && WrittenNext(next, tags) == after
    decreases |after|
  {
    if after != "" && after < tags.open {
      next := Begun(after);
    } else if tags.open <= after {
      var more := EveryBody(after[|tags.open|..], tags);
      next := Another(more);
      assert after == tags.open + after[|tags.open|..];
    } else {
      next := Rest(after);
    }
  }
}
