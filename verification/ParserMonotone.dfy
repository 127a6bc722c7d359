/**
 Prefix monotonicity of the reasoning parser: the message parsed from a text that is still
 growing is, field by field, a prefix of every message parsed later.
 */
module ParserMonotone {
  import opened Wrappers
  import opened Text
  import opened ChatTypes
  import opened ReasoningSpec

  predicate Grows(a: Msg, b: Msg) {
    a.role == b.role && a.content <= b.content && a.reasoning <= b.reasoning && a.toolCalls == b.toolCalls
  }

  /** An occurrence found in a prefix is the one found in the whole text. */
  lemma FindInPrefix(p: string, q: string, needle: string, from: nat)
    requires p <= q && Find(p, needle, from).Some?
    ensures Find(q, needle, from) == Find(p, needle, from)
  {
    FindIsLeast(p, needle, from);
    FindIsLeast(q, needle, from);
    OccursInPrefix(p, q, needle, Find(p, needle, from).value);
    OccursInPrefix(p, q, needle, Find(q, needle, from).value);
  }

  lemma SkipSpacesInPrefix(p: string, q: string, from: nat)
    requires p <= q && from <= |p|
    ensures SkipSpaces(p, from) < |p| ==> SkipSpaces(q, from) == SkipSpaces(p, from)
    ensures SkipSpaces(p, from) == |p| ==> |p| <= SkipSpaces(q, from)
    decreases |p| - from
  {
    if from < |p| && IsSpace(p[from]) {
      SkipSpacesInPrefix(p, q, from + 1);
    }
  }

  lemma MayBeTagInPrefix(p: string, q: string, cursor: nat, tag: string)
    requires p <= q && cursor <= |p| && MayBeTag(q, cursor, tag)
    ensures MayBeTag(p, cursor, tag)
  {
    var n := ComparedLength(p, cursor, tag);
    var m := ComparedLength(q, cursor, tag);
    assert p[cursor..cursor + n] == q[cursor..cursor + m][..n];
  }

  lemma TagInPrefix(p: string, q: string, cursor: nat, tag: string)
    requires p <= q && cursor <= |p| && ComparedLength(p, cursor, tag) == |tag|
    ensures ComparedLength(q, cursor, tag) == |tag|
    ensures MayBeTag(p, cursor, tag) <==> MayBeTag(q, cursor, tag)
  {
    assert p[cursor..cursor + |tag|] == q[cursor..cursor + |tag|];
  }

  /**
   The heart of streaming: what is shown of an open section never has to be taken back. A closing
   literal of which only a beginning has arrived is held back, and the longest such beginning is.
   */
  lemma ReasoningEndGrows(p: string, q: string, cursor: nat, close: string)
    requires p <= q && cursor <= |p| && close != ""
    ensures ReasoningEnd(p, cursor, close) <= ReasoningEnd(q, cursor, close)
  {
    if Find(p, close, cursor).Some? {
      FindInPrefix(p, q, close, cursor);
    } else {
      var end := ReasoningEnd(q, cursor, close);
      FindIsLeast(p, close, cursor);
      FindIsLeast(q, close, cursor);
      PartialStopIsLeast(p[cursor..], close, 0);
      PartialStopIsLeast(q[cursor..], close, 0);
      if end < |p| && end < |q| {
        var held := p[end..];
        assert held <= close by {
          if Find(q, close, cursor).Some? {
            OccursInPrefix(p, q, close, end);
            assert held == q[end..end + |close|][..|p| - end];
          } else {
            assert q[cursor..][end - cursor..] == q[end..];
            assert held == q[end..][..|p| - end];
          }
        }
        assert p[cursor..][end - cursor..] == held;
        assert HeldBackAt(p[cursor..], close, end - cursor);
      }
    }
  }

  /** Adding longer reasoning text adds more, and an open section does not commit to being closed. */
  lemma AddReasoningGrows(msg: Msg, pending: string, text: string, longer: string, closed: bool, syntax: Syntax,
                          tags: Tags)
    requires text <= longer
    ensures Grows(msg, AddReasoning(msg, pending, text, false, syntax, tags))
    ensures Grows(AddReasoning(msg, pending, text, false, syntax, tags),
                  AddReasoning(msg, pending, longer, closed, syntax, tags))
  {
    StripKeepsPrefixes(text, longer);
    var open := if syntax.reasoningFormat == Deepseek then "<think>" else tags.open;
    assert msg.content + open + Strip(text) <= msg.content + open + Strip(longer);
    assert msg.reasoning + pending + Strip(text) <= msg.reasoning + pending + Strip(longer);
  }

  lemma AddReasoningExtends(msg: Msg, pending: string, text: string, closed: bool, syntax: Syntax, tags: Tags)
    ensures Grows(msg, AddReasoning(msg, pending, text, closed, syntax, tags))
  {
  }

  lemma {:induction false} SectionsExtend(input: string, cursor: nat, msg: Msg, pending: string, partial: bool,
                                          syntax: Syntax, tags: Tags)
    requires cursor <= |input| && tags.close != ""
    ensures Grows(msg, WithRest(input, ReasoningSections(input, cursor, msg, pending, partial, syntax, tags)))
    decreases |input| - cursor, 1
  {
    hide AddReasoning, Section;
    var closed := SectionAdds(input, cursor, msg, pending, partial, syntax, tags);
    AddReasoningExtends(msg, pending, input[cursor..ReasoningEnd(input, cursor, tags.close)], closed, syntax, tags);
    SectionThenMore(input, cursor, msg, pending, partial, syntax, tags);
  }

  /** A section that is closed within p is read the same way in q, unless what follows it in p may still change. */
  lemma ClosedSectionAgrees(p: string, q: string, cursor: nat, msg: Msg, pending: string, partial: bool,
                            syntax: Syntax, tags: Tags)
    requires p <= q && cursor <= |p| && tags.close != "" && Find(p, tags.close, cursor).Some?
    ensures var inP := Section(p, cursor, msg, pending, true, syntax, tags);
            var inQ := Section(q, cursor, msg, pending, partial, syntax, tags);
            inP.result == inQ.result && (inP == inQ || inP == Done(|p|, inP.result))
  {
    hide AddReasoning, AfterClose, OccursAt, PartialStop;
    FindInPrefix(p, q, tags.close, cursor);
    var end := ReasoningEnd(p, cursor, tags.close);
    assert p[cursor..end] == q[cursor..end];
    var msg' := AddReasoning(msg, pending, p[cursor..end], true, syntax, tags);
    AfterCloseAgrees(p, q, end + |tags.close|, msg', PendingAfter(pending, p[cursor..end], syntax), syntax, tags);
  }

  lemma AfterCloseAgrees(p: string, q: string, from: nat, msg: Msg, pending: string, syntax: Syntax, tags: Tags)
    requires p <= q && from <= |p|
    ensures var inP := AfterClose(p, from, msg, pending, syntax, tags);
            var inQ := AfterClose(q, from, msg, pending, syntax, tags);
            inP.result == inQ.result == msg && (inP == inQ || inP == Done(|p|, msg))
  {
    SkipSpacesInPrefix(p, q, from);
    var next := SkipSpaces(p, from);
    if next < |p| {
      if ComparedLength(p, next, tags.open) == |tags.open| {
        TagInPrefix(p, q, next, tags.open);
      } else if MayBeTag(q, next, tags.open) {
        MayBeTagInPrefix(p, q, next, tags.open);
      }
    }
  }

  lemma {:induction false} SectionsGrow(p: string, q: string, cursor: nat, msg: Msg, pending: string, partial: bool,
                                        syntax: Syntax, tags: Tags)
    requires p <= q && cursor <= |p| && tags.close != ""
    ensures Grows(WithRest(p, ReasoningSections(p, cursor, msg, pending, true, syntax, tags)),
                  WithRest(q, ReasoningSections(q, cursor, msg, pending, partial, syntax, tags)))
    decreases |p| - cursor
  {
    if Find(p, tags.close, cursor) == None {
      OpenSectionGrows(p, q, cursor, msg, pending, partial, syntax, tags);
    } else {
      hide Section;
      ClosedSectionAgrees(p, q, cursor, msg, pending, partial, syntax, tags);
      var inP := Section(p, cursor, msg, pending, true, syntax, tags);
      var inQ := Section(q, cursor, msg, pending, partial, syntax, tags);
      SectionThenMore(q, cursor, msg, pending, partial, syntax, tags);
      if inP.Again? {
        SectionsGrow(p, q, inP.cursor, inP.result, inP.pending, partial, syntax, tags);
      } else {
        assert p[inP.pos..] <= q[inP.pos..];
      }
    }
  }

  lemma OpenSectionGrows(p: string, q: string, cursor: nat, msg: Msg, pending: string, partial: bool, syntax: Syntax,
                         tags: Tags)
    requires p <= q && cursor <= |p| && tags.close != "" && Find(p, tags.close, cursor) == None
    ensures Grows(WithRest(p, ReasoningSections(p, cursor, msg, pending, true, syntax, tags)),
                  WithRest(q, ReasoningSections(q, cursor, msg, pending, partial, syntax, tags)))
  {
    hide AddReasoning, Section;
    var endP := ReasoningEnd(p, cursor, tags.close);
    var endQ := ReasoningEnd(q, cursor, tags.close);
    ReasoningEndGrows(p, q, cursor, tags.close);
    assert p[cursor..endP] <= q[cursor..endQ];
    var closed := SectionAdds(p, cursor, msg, pending, true, syntax, tags);
    var closed' := SectionAdds(q, cursor, msg, pending, partial, syntax, tags);
    AddReasoningGrows(msg, pending, p[cursor..endP], q[cursor..endQ], closed', syntax, tags);
    SectionThenMore(q, cursor, msg, pending, partial, syntax, tags);
  }

  /** The text that one section adds, and whether it is added as closed. */
  lemma SectionAdds(input: string, cursor: nat, msg: Msg, pending: string, partial: bool, syntax: Syntax, tags: Tags)
      returns (closed: bool)
    requires cursor <= |input| && tags.close != ""
    ensures Section(input, cursor, msg, pending, partial, syntax, tags).result
         == AddReasoning(msg, pending, input[cursor..ReasoningEnd(input, cursor, tags.close)], closed, syntax, tags)
    ensures var r := Section(input, cursor, msg, pending, partial, syntax, tags);
            Find(input, tags.close, cursor) == None ==> r == Done(|input|, r.result)
    ensures Find(input, tags.close, cursor) == None && partial ==> !closed
  {
    hide AddReasoning, AfterClose, Find, PartialStop;
    closed := Find(input, tags.close, cursor) != None
              || (ReasoningEnd(input, cursor, tags.close) == |input| && !partial);
  }

  lemma SectionThenMore(input: string, cursor: nat, msg: Msg, pending: string, partial: bool, syntax: Syntax,
                        tags: Tags)
    requires cursor <= |input| && tags.close != ""
    ensures Grows(Section(input, cursor, msg, pending, partial, syntax, tags).result,
                  WithRest(input, ReasoningSections(input, cursor, msg, pending, partial, syntax, tags)))
    decreases |input| - cursor, 0
  {
    hide Section;
    var step := Section(input, cursor, msg, pending, partial, syntax, tags);
    if step.Again? {
      SectionsExtend(input, step.cursor, step.result, step.pending, partial, syntax, tags);
    }
  }
}
