/**
 The end-to-end property of streaming the content-only format: a model output is parsed again for every
 chunk that arrives, successive messages are diffed, and the deltas must add up to the final message.
 */
module Streaming {
  import opened Wrappers
  import opened Text
  import opened ChatTypes
  import opened ReasoningSpec
  import opened ParserMonotone
  import opened ChatDiff

  /**
   What a caller can check before streaming `s`. It fails only when reasoning is extracted, no section is
   forced open, and white space at the start is followed by what could be an opening literal: that white
   space is then first shown as content, later taken back, and shown again.
   */
  predicate Streamable(s: string, syntax: Syntax, tags: Tags := THINK_TAGS)
    requires tags.open != ""
  {
    var start := SkipSpaces(s, 0);
    || syntax.reasoningFormat == NoFormat
    || syntax.thinkingForcedOpen
    || start == 0
    || start == |s|
    || s[start] != tags.open[0]
  }

  lemma ParseExtends(q: string, partial: bool, syntax: Syntax, tags: Tags)
    requires ProperTags(tags)
    ensures Grows(ASSISTANT_MSG, ContentOnly(q, partial, syntax, tags))
  {
    hide AddReasoning, ReasoningSections;
    var start := SkipSpaces(q, 0);
    AddReasoningExtends(ASSISTANT_MSG, "", q[0..], !partial, syntax, tags);
    if start < |q| {
      SectionsExtend(q, start, ASSISTANT_MSG, "", partial, syntax, tags);
      if ComparedLength(q, start, tags.open) == |tags.open| {
        assert "" + q[0..start] == q[0..start];
        SectionsExtend(q, start + |tags.open|, ASSISTANT_MSG.(content := q[0..start]),
                       ReasoningPrefix("", syntax, tags), partial, syntax, tags);
      }
    }
  }

  lemma SpacesAddNothing(text: string, msg: Msg, closed: bool, syntax: Syntax, tags: Tags)
    requires SkipSpaces(text, 0) == |text|
    ensures AddReasoning(msg, "", text, closed, syntax, tags) == msg
  {
    var _, _ := StripDecomposes(text);
    SkipsExactlySpaces(text, 0);
  }

  /** The message by cases. */
  lemma ContentOnlyIs(q: string, partial: bool, syntax: Syntax, tags: Tags)
    requires ProperTags(tags)
    ensures var (r, start) := (ContentOnly(q, partial, syntax, tags), SkipSpaces(q, 0));
      if syntax.reasoningFormat == NoFormat then r == ASSISTANT_MSG.(content := q)
      else if start == |q| then
        if syntax.thinkingForcedOpen then r == AddReasoning(ASSISTANT_MSG, "", q, !partial, syntax, tags)
        else r == ASSISTANT_MSG.(content := q)
      else if MayBeTag(q, start, tags.open) then
        if ComparedLength(q, start, tags.open) < |tags.open| then r == ASSISTANT_MSG
        else
          r == WithRest(q, ReasoningSections(q, start + |tags.open|, ASSISTANT_MSG.(content := q[0..start]),
                                             ReasoningPrefix("", syntax, tags), partial, syntax, tags))
      else if syntax.thinkingForcedOpen then
        r == WithRest(q, ReasoningSections(q, start, ASSISTANT_MSG, "", partial, syntax, tags))
      else r == ASSISTANT_MSG.(content := q)
  {
    hide AddReasoning, ReasoningSections, ReasoningPrefix, MayBeTag, ComparedLength, SkipSpaces;
    assert q[0..] == q && q[|q|..] == "";
    var start := SkipSpaces(q, 0);
    assert "" + q[0..start] == q[0..start] && "" + q == q;
    var thought := AddReasoning(ASSISTANT_MSG, "", q, !partial, syntax, tags);
    assert thought.content + "" == thought.content;
  }

  lemma SpacesGrow(p: string, q: string, partial: bool, syntax: Syntax, tags: Tags)
    requires p <= q && ProperTags(tags) && Streamable(q, syntax, tags) && SkipSpaces(p, 0) == |p|
    ensures Grows(ContentOnly(p, true, syntax, tags), ContentOnly(q, partial, syntax, tags))
  {
    hide AddReasoning, ReasoningSections, ReasoningPrefix, ContentOnly, WithRest, SkipSpaces;
    ParseExtends(q, partial, syntax, tags);
    SkipSpacesInPrefix(p, q, 0);
    SpacesAddNothing(p, ASSISTANT_MSG, false, syntax, tags);
    ContentOnlyIs(p, true, syntax, tags);
    ContentOnlyIs(q, partial, syntax, tags);
  }

  /** The message behind a whole opening literal. */
  lemma BehindTag(q: string, start: nat, partial: bool, syntax: Syntax, tags: Tags)
    requires ProperTags(tags) && syntax.reasoningFormat != NoFormat
    requires SkipSpaces(q, 0) == start < |q| && MayBeTag(q, start, tags.open)
    requires ComparedLength(q, start, tags.open) == |tags.open|
    ensures start + |tags.open| <= |q|
    ensures ContentOnly(q, partial, syntax, tags)
         == WithRest(q, ReasoningSections(q, start + |tags.open|, ASSISTANT_MSG.(content := q[0..start]),
                                          ReasoningPrefix("", syntax, tags), partial, syntax, tags))
  {
    hide AddReasoning, ReasoningSections, ReasoningPrefix, ContentOnly, WithRest, SkipSpaces, MayBeTag;
    ContentOnlyIs(q, partial, syntax, tags);
  }

  /** Where p shows a whole opening literal. */
  lemma TagGrows(p: string, q: string, start: nat, partial: bool, syntax: Syntax, tags: Tags)
    requires p <= q && ProperTags(tags) && syntax.reasoningFormat != NoFormat
    requires SkipSpaces(p, 0) == start == SkipSpaces(q, 0) < |p| && MayBeTag(p, start, tags.open)
    requires ComparedLength(p, start, tags.open) == |tags.open|
    ensures Grows(ContentOnly(p, true, syntax, tags), ContentOnly(q, partial, syntax, tags))
  {
    hide AddReasoning, ReasoningSections, ReasoningPrefix, ContentOnly, WithRest, SkipSpaces, MayBeTag,
         ComparedLength, Grows;
    TagMeets(p, q, start, tags.open);
    BehindTag(p, start, true, syntax, tags);
    BehindTag(q, start, partial, syntax, tags);
    var msg := ASSISTANT_MSG.(content := p[0..start]);
    assert q[0..start] == p[0..start];
    SectionsGrow(p, q, start + |tags.open|, msg, ReasoningPrefix("", syntax, tags), partial, syntax, tags);
  }

  /** Where p ends within what may become one, nothing is shown yet. */
  lemma HalfTagGrows(p: string, q: string, start: nat, partial: bool, syntax: Syntax, tags: Tags)
    requires p <= q && ProperTags(tags) && syntax.reasoningFormat != NoFormat
    requires SkipSpaces(p, 0) == start < |p| && MayBeTag(p, start, tags.open)
    requires ComparedLength(p, start, tags.open) < |tags.open|
    ensures Grows(ContentOnly(p, true, syntax, tags), ContentOnly(q, partial, syntax, tags))
  {
    hide AddReasoning, ReasoningSections, ContentOnly, WithRest, SkipSpaces, MayBeTag, ComparedLength;
    ContentOnlyIs(p, true, syntax, tags);
    ParseExtends(q, partial, syntax, tags);
  }

  lemma TextGrows(p: string, q: string, partial: bool, syntax: Syntax, tags: Tags)
    requires p <= q && ProperTags(tags) && Streamable(q, syntax, tags) && SkipSpaces(p, 0) < |p|
    ensures Grows(ContentOnly(p, true, syntax, tags), ContentOnly(q, partial, syntax, tags))
  {
    hide AddReasoning, ReasoningSections, ReasoningPrefix, ContentOnly, WithRest, SkipSpaces, MayBeTag, Streamable;
    var start := SkipSpaces(p, 0);
    SkipSpacesInPrefix(p, q, 0);
    if syntax.reasoningFormat != NoFormat && MayBeTag(p, start, tags.open) {
      if ComparedLength(p, start, tags.open) == |tags.open| {
        TagGrows(p, q, start, partial, syntax, tags);
      } else {
        HalfTagGrows(p, q, start, partial, syntax, tags);
      }
    } else {
      TagMeets(p, q, start, tags.open);
      SectionsGrow(p, q, start, ASSISTANT_MSG, "", partial, syntax, tags);
      ContentOnlyIs(p, true, syntax, tags);
      ContentOnlyIs(q, partial, syntax, tags);
    }
  }

  /** Prefix monotonicity of the whole content-only parser, over all parser parameters and proper tags. */
  lemma ContentOnlyGrows(p: string, q: string, partial: bool, syntax: Syntax, tags: Tags)
    requires p <= q && ProperTags(tags) && Streamable(q, syntax, tags)
    ensures Grows(ContentOnly(p, true, syntax, tags), ContentOnly(q, partial, syntax, tags))
  {
    hide ContentOnly, Grows;
    if SkipSpaces(p, 0) == |p| {
      SpacesGrow(p, q, partial, syntax, tags);
    } else {
      TextGrows(p, q, partial, syntax, tags);
    }
  }

  /** What p says about a literal at `cursor` holds in q, unless p ends within the literal. */
  lemma TagMeets(p: string, q: string, cursor: nat, tag: string)
    requires p <= q && cursor <= |p|
    ensures MayBeTag(q, cursor, tag) ==> MayBeTag(p, cursor, tag)
    ensures ComparedLength(p, cursor, tag) == |tag| && MayBeTag(p, cursor, tag) ==>
              ComparedLength(q, cursor, tag) == |tag| && MayBeTag(q, cursor, tag)
  {
    if MayBeTag(q, cursor, tag) {
      MayBeTagInPrefix(p, q, cursor, tag);
    }
    if ComparedLength(p, cursor, tag) == |tag| {
      TagInPrefix(p, q, cursor, tag);
    }
  }

  lemma StreamablePrefix(p: string, s: string, syntax: Syntax, tags: Tags)
    requires p <= s && tags.open != "" && Streamable(s, syntax, tags)
    ensures Streamable(p, syntax, tags)
  {
    SkipSpacesInPrefix(p, s, 0);
  }

  /** `chunks` are what a stream of `s` has produced at successive moments after it had produced `shown`. */
  predicate Chunking(shown: string, chunks: seq<string>, s: string)
    decreases |chunks|
  {
    if chunks == [] then shown <= s else shown <= chunks[0] && Chunking(chunks[0], chunks[1..], s)
  }

  lemma {:induction false} ChunksArePrefixes(shown: string, chunks: seq<string>, s: string)
    requires Chunking(shown, chunks, s)
    ensures shown <= s
    decreases |chunks|
  {
    if chunks != [] {
      ChunksArePrefixes(chunks[0], chunks[1..], s);
    }
  }

  /** The messages parsed along the way, each from a partial input, and the message parsed at the end. */
  function Parses(chunks: seq<string>, s: string, syntax: Syntax): (r: seq<Msg>)
    ensures |r| == |chunks| + 1
    decreases |chunks|
  {
    if chunks == [] then [ContentOnly(s, false, syntax)]
    else [ContentOnly(chunks[0], true, syntax)] + Parses(chunks[1..], s, syntax)
  }

  lemma {:induction false} ParsesChain(shown: string, chunks: seq<string>, s: string, syntax: Syntax)
    requires Chunking(shown, chunks, s) && Streamable(s, syntax)
    ensures Chain(ContentOnly(shown, true, syntax), Parses(chunks, s, syntax))
    decreases |chunks|
  {
    ChunksArePrefixes(shown, chunks, s);
    if chunks == [] {
      ParseExtends(s, false, syntax, THINK_TAGS);
      ContentOnlyGrows(shown, s, false, syntax, THINK_TAGS);
      ExtendsFromGrows(shown, s, false, syntax);
    } else {
      ChunksArePrefixes(chunks[0], chunks[1..], s);
      StreamablePrefix(chunks[0], s, syntax, THINK_TAGS);
      ContentOnlyGrows(shown, chunks[0], true, syntax, THINK_TAGS);
      ExtendsFromGrows(shown, chunks[0], true, syntax);
      ParsesChain(chunks[0], chunks[1..], s, syntax);
      assert Parses(chunks, s, syntax)[1..] == Parses(chunks[1..], s, syntax);
    }
  }

  lemma ExtendsFromGrows(p: string, q: string, partial: bool, syntax: Syntax)
    requires Grows(ContentOnly(p, true, syntax), ContentOnly(q, partial, syntax))
    ensures Extends(ContentOnly(p, true, syntax), ContentOnly(q, partial, syntax))
    ensures Extends(EMPTY_MSG, ContentOnly(q, partial, syntax))
  {
    hide ContentOnly;
    ParseExtends(q, partial, syntax, THINK_TAGS);
  }

  function ContentSent(diffs: seq<Diff>): string {
    if diffs == [] then "" else diffs[0].contentDelta + ContentSent(diffs[1..])
  }

  function ReasoningSent(diffs: seq<Diff>): string {
    if diffs == [] then "" else diffs[0].reasoningDelta + ReasoningSent(diffs[1..])
  }

  lemma {:induction false} TextsSent(msg: Msg, diffs: seq<Diff>)
    ensures ApplyAll(msg, diffs).content == msg.content + ContentSent(diffs)
    ensures ApplyAll(msg, diffs).reasoning == msg.reasoning + ReasoningSent(diffs)
    decreases |diffs|
  {
    if diffs == [] {
      assert msg.content + "" == msg.content && msg.reasoning + "" == msg.reasoning;
    } else {
      TextsSent(Apply(msg, diffs[0]), diffs[1..]);
      assert (msg.content + diffs[0].contentDelta) + ContentSent(diffs[1..])
          == msg.content + (diffs[0].contentDelta + ContentSent(diffs[1..]));
      assert (msg.reasoning + diffs[0].reasoningDelta) + ReasoningSent(diffs[1..])
          == msg.reasoning + (diffs[0].reasoningDelta + ReasoningSent(diffs[1..]));
    }
  }

  /** No diff throws, and the deltas concatenate to the reasoning and the content of the final message. */
  predicate StreamsFaithfully(chunks: seq<string>, s: string, syntax: Syntax) {
    var diffs := RunDiffs(EMPTY_MSG, Parses(chunks, s, syntax));
    var final := ContentOnly(s, false, syntax);
    diffs.Ok? && ContentSent(diffs.value) == final.content && ReasoningSent(diffs.value) == final.reasoning
  }

  lemma {:induction false} LastParse(chunks: seq<string>, s: string, syntax: Syntax)
    ensures Parses(chunks, s, syntax)[|chunks|] == ContentOnly(s, false, syntax)
    decreases |chunks|
  {
    if chunks != [] {
      LastParse(chunks[1..], s, syntax);
    }
  }

  lemma StreamableStreams(chunks: seq<string>, s: string, syntax: Syntax)
    requires Chunking("", chunks, s) && Streamable(s, syntax)
    ensures StreamsFaithfully(chunks, s, syntax)
  {
    hide ContentOnly;
    var run := Parses(chunks, s, syntax);
    ParsesChain("", chunks, s, syntax);
    var first, partial := if chunks == [] then s else chunks[0], chunks != [];
    ParseExtends(first, partial, syntax, THINK_TAGS);
    assert Extends(EMPTY_MSG, run[0]);
    ChainRebuilds(EMPTY_MSG, run);
    LastParse(chunks, s, syntax);
    TextsSent(EMPTY_MSG, RunDiffs(EMPTY_MSG, run).value);
  }

  /** The chunking that shows the white space before it is taken back. */
  function Spoiler(s: string): seq<string>
    requires 0 < SkipSpaces(s, 0) < |s|
  {
    [s[..1], s[..SkipSpaces(s, 0) + 1]]
  }

  lemma SpoilerIsChunking(s: string)
    requires 0 < SkipSpaces(s, 0) < |s|
    ensures Chunking("", Spoiler(s), s)
  {
    var c := Spoiler(s);
    assert c[1..][1..] == [];
    assert Chunking(c[1], [], s);
    assert c[1..] == [c[1]];
    assert c[0] <= c[1];
  }

  /** White space alone is content. */
  lemma SpacesParse(p: string, syntax: Syntax)
    requires SkipSpaces(p, 0) == |p| && !syntax.thinkingForcedOpen
    ensures ContentOnly(p, true, syntax) == ASSISTANT_MSG.(content := p)
  {
    assert "" + p[0..] == p;
  }

  /** White space and the beginning of the opening literal is nothing yet. */
  lemma HeldBackParse(p: string, syntax: Syntax)
    requires SkipSpaces(p, 0) == |p| - 1 && p[|p| - 1] == '<' && syntax.reasoningFormat != NoFormat
    ensures ContentOnly(p, true, syntax) == ASSISTANT_MSG
  {
    hide AddReasoning, ReasoningSections;
    var start := |p| - 1;
    assert p[start..start + 1] == THINK_TAGS.open[..1];
    assert ParseReasoning(p, 0, ASSISTANT_MSG, true, syntax, THINK_TAGS) == ReasoningResult(true, |p|, ASSISTANT_MSG);
    assert "" + p[|p|..] == "";
  }

  lemma SpoilerParses(s: string, syntax: Syntax)
    requires 0 < SkipSpaces(s, 0) < |s| && !Streamable(s, syntax)
    ensures ContentOnly(s[..1], true, syntax) == ASSISTANT_MSG.(content := s[..1])
    ensures ContentOnly(s[..SkipSpaces(s, 0) + 1], true, syntax) == ASSISTANT_MSG
  {
    hide ContentOnly;
    var start := SkipSpaces(s, 0);
    SkipsExactlySpaces(s, 0);
    SkipSpacesInPrefix(s[..1], s, 0);
    SkipsExactlySpaces(s[..1], 0);
    SpacesParse(s[..1], syntax);
    SkipSpacesInPrefix(s[..start + 1], s, 0);
    SkipsExactlySpaces(s[..start + 1], 0);
    HeldBackParse(s[..start + 1], syntax);
  }

  lemma UnstreamableFails(s: string, syntax: Syntax)
    requires !Streamable(s, syntax)
    ensures Chunking("", Spoiler(s), s) && !StreamsFaithfully(Spoiler(s), s, syntax)
  {
    hide ContentOnly;
    SpoilerIsChunking(s);
    SpoilerParses(s, syntax);
    var final := ContentOnly(s, false, syntax);
    ParseExtends(s, false, syntax, THINK_TAGS);
    var m1 := ASSISTANT_MSG.(content := s[..1]);
    var c := Spoiler(s);
    assert c[1..] == [c[1]] && c[1..][1..] == [];
    assert Parses([], s, syntax) == [final];
    assert Parses(c, s, syntax) == [m1, ASSISTANT_MSG, final];
    SpoiltRun(m1, final);
  }

  lemma SpoiltRun(m1: Msg, final: Msg)
    requires m1 == ASSISTANT_MSG.(content := m1.content) && m1.content != ""
    requires Grows(ASSISTANT_MSG, final)
    ensures var diffs := RunDiffs(EMPTY_MSG, [m1, ASSISTANT_MSG, final]);
            diffs.Ok? ==> ContentSent(diffs.value) == m1.content + final.content
  {
    var run := [m1, ASSISTANT_MSG, final];
    assert run[1..] == [ASSISTANT_MSG, final] && run[1..][1..] == [final] && run[1..][1..][1..] == [];
    var d1, d2, d3 := Diffs(EMPTY_MSG, m1), Diffs(m1, ASSISTANT_MSG), Diffs(ASSISTANT_MSG, final);
    RebuildsIffExtends(EMPTY_MSG, m1);
    RebuildsIffExtends(ASSISTANT_MSG, final);
    TextsSent(EMPTY_MSG.(role := m1.role), d1.value);
    TextsSent(ASSISTANT_MSG, d3.value);
    var taken := Diff("", "", None, NO_CALL);
    assert StringDiff(m1.content, "") == Ok("");
    assert [] + [taken] + [] + [] == [taken];
    assert d2 == Ok([taken]);
    assert RunDiffs(ASSISTANT_MSG, [final]) == Ok(d3.value + []);
    assert RunDiffs(m1, [ASSISTANT_MSG, final]) == Ok(d2.value + (d3.value + []));
    assert ContentSent(d2.value) == "" by {
      assert d2.value[1..] == [];
    }
    ContentSentConcat(d3.value, []);
    ContentSentConcat(d2.value, d3.value + []);
    ContentSentConcat(d1.value, d2.value + (d3.value + []));
  }

  lemma {:induction false} ContentSentConcat(a: seq<Diff>, b: seq<Diff>)
    ensures ContentSent(a + b) == ContentSent(a) + ContentSent(b)
  {
    if a == [] {
      assert a + b == b;
    } else {
      assert (a + b)[1..] == a[1..] + b;
      ContentSentConcat(a[1..], b);
    }
  }

  /** Streaming is faithful for every way of chunking the output exactly when the output is streamable. */
  lemma StreamingIsFaithfulIffStreamable(s: string, syntax: Syntax)
    ensures Streamable(s, syntax)
       <==> forall chunks :: Chunking("", chunks, s) ==> StreamsFaithfully(chunks, s, syntax)
  {
    if Streamable(s, syntax) {
      forall chunks | Chunking("", chunks, s)
        ensures StreamsFaithfully(chunks, s, syntax)
      {
        StreamableStreams(chunks, s, syntax);
      }
    } else {
      UnstreamableFails(s, syntax);
    }
  }
}
