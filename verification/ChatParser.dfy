/** The literal-based operations of common_chat_msg_parser: a cursor over the input and a growing message. */
module ChatParser {
  import opened Wrappers
  import opened Text
  import opened ChatTypes
  import opened ReasoningSpec

  /** find_regex_result with its single group: input[begin..end] follows `prelude`. */
  datatype Match = Match(prelude: string, begin: nat, end: nat)

  /** What try_find_literal finds from `pos`: a whole occurrence or, in a partial parse, a held-back one. */
  function FoundLiteral(input: string, pos: nat, partial: bool, literal: string): (r: Option<Match>)
    requires pos <= |input|
    ensures r.Some? ==>
      && pos <= r.value.begin <= r.value.end <= |input|
      && r.value.prelude == input[pos..r.value.begin]
  {
    match Find(input, literal, pos)
    case Some(at) => Some(Match(input[pos..at], at, at + |literal|))
    case None =>
      if !partial then None else
      match PartialStop(input, literal)
      case Some(at) => if at >= pos then Some(Match(input[pos..at], at, |input|)) else None
      case None => None
  }

  method SpacesEnd(input: string, from: nat) returns (end: nat)
    requires from <= |input|
    ensures end == SkipSpaces(input, from)
  {
    end := from;
    while end < |input| && IsSpace(input[end])
      invariant from <= end <= |input|
      invariant SkipSpaces(input, end) == SkipSpaces(input, from)
    {
      end := end + 1;
    }
  }

  class ChatMsgParser {
    const input: string
    const isPartial: bool
    const syntax: Syntax
    var pos: nat
    var result: Msg

    ghost predicate Valid()
      reads this
    {
      pos <= |input|
    }

    constructor (input: string, isPartial: bool, syntax: Syntax)
      ensures Valid() && pos == 0 && result == ASSISTANT_MSG
      ensures this.input == input && this.isPartial == isPartial && this.syntax == syntax
    {
      this.input, this.isPartial, this.syntax := input, isPartial, syntax;
      pos, result := 0, ASSISTANT_MSG;
    }

    method MoveTo(newPos: nat) returns (r: Result<()>)
      modifies this`pos
      ensures r.Ok? <==> newPos <= |input|
      ensures pos == if r.Ok? then newPos else old(pos)
    {
      if newPos > |input| {
        return Err("Invalid position!");
      }
      pos := newPos;
      return Ok(());
    }

    method AddContent(content: string)
      modifies this`result
      ensures result == old(result).(content := old(result).content + content)
    {
      result := result.(content := result.content + content);
    }

    method AddReasoningContent(reasoning: string)
      modifies this`result
      ensures result == old(result).(reasoning := old(result).reasoning + reasoning)
    {
      result := result.(reasoning := result.reasoning + reasoning);
    }

    method AddToolCall(name: string, id: string, arguments: string) returns (added: bool)
      modifies this`result
      ensures added <==> name != ""
      ensures result == if !added then old(result) else
                old(result).(toolCalls := old(result).toolCalls + [ToolCall(name, arguments, id)])
    {
      if name == "" {
        return false;
      }
      result := result.(toolCalls := result.toolCalls + [ToolCall(name, arguments, id)]);
      return true;
    }

    method ConsumeSpaces() returns (consumed: bool)
      requires Valid()
      modifies this`pos
      ensures Valid() && pos == SkipSpaces(input, old(pos))
      ensures consumed <==> pos != old(pos)
    {
      consumed := false;
      while pos < |input| && IsSpace(input[pos])
        invariant old(pos) <= pos <= |input|
        invariant SkipSpaces(input, pos) == SkipSpaces(input, old(pos))
        invariant consumed <==> pos != old(pos)
      {
        pos := pos + 1;
        consumed := true;
      }
    }

    method TryConsumeLiteral(literal: string) returns (ok: bool)
      requires Valid()
      modifies this`pos
      ensures Valid()
      ensures ok <==> OccursAt(input, literal, old(pos))
      ensures pos == if ok then old(pos) + |literal| else old(pos)
    {
      var p, i := pos, 0;
      while i < |literal|
        invariant 0 <= i <= |literal| && p == pos + i <= |input| && pos == old(pos)
        invariant input[pos..p] == literal[..i]
      {
        if p >= |input| {
          return false;
        }
        if input[p] != literal[i] {
          assert input[pos..p + 1] != literal[..i + 1];
          return false;
        }
        assert input[pos..p + 1] == input[pos..p] + [input[p]];
        p, i := p + 1, i + 1;
      }
      pos := p;
      return true;
    }

    method TryFindLiteral(literal: string) returns (r: Option<Match>)
      requires Valid()
      modifies this`pos
      ensures Valid() && r == FoundLiteral(input, old(pos), isPartial, literal)
      ensures pos == if r.Some? then r.value.end else old(pos)
    {
      var at := Find(input, literal, pos);
      if at.Some? {
        var m := Match(input[pos..at.value], at.value, at.value + |literal|);
        pos := m.end;
        return Some(m);
      }
      if isPartial {
        at := StringFindPartialStop(input, literal);
        if at.Some? && at.value >= pos {
          var m := Match(input[pos..at.value], at.value, |input|);
          pos := m.end;
          return Some(m);
        }
      }
      return None;
    }

    method ConsumeRest() returns (rest: string)
      requires Valid()
      modifies this`pos
      ensures Valid() && rest == input[old(pos)..] && pos == |input|
    {
      rest := input[pos..];
      pos := |input|;
    }

    /** The lambda handle_reasoning; `pending` is the captured pending_reasoning_prefix. */
    method HandleReasoning(reasoning: string, closed: bool, pending: string, tags: Tags) returns (pending': string)
      modifies this`result
      ensures result == AddReasoning(old(result), pending, reasoning, closed, syntax, tags)
      ensures pending' == PendingAfter(pending, reasoning, syntax)
    {
      pending' := pending;
      var stripped := StringStrip(reasoning);
      if stripped == "" {
        return;
      }
      if syntax.reasoningInContent {
        AddContent(if syntax.reasoningFormat == Deepseek then "<think>" else tags.open);
        AddContent(stripped);
        if closed {
          AddContent(if syntax.reasoningFormat == Deepseek then "</think>" else tags.close);
        }
      } else {
        if pending != "" {
          AddReasoningContent(pending);
          pending' := "";
        }
        AddReasoningContent(stripped);
      }
    }

    /** The end of a round of the loop of try_parse_reasoning: what follows a closing literal. */
    method ParseAfterClose(from: nat, prefix: string, tags: Tags) returns (again: bool, cursor: nat, pending: string)
      requires Valid() && from <= |input|
      modifies this`pos
      ensures Valid() && (again ==> pos == old(pos))
      ensures (if again then Again(cursor, result, pending) else Done(pos, result))
           == AfterClose(input, from, result, prefix, syntax, tags)
    {
      again, pending := false, prefix;
      cursor := SpacesEnd(input, from);
      if cursor == |input| {
        pos := cursor;
        return;
      }
      if MayBeTag(input, cursor, tags.open) {
        if ComparedLength(input, cursor, tags.open) < |tags.open| {
          pos := |input|;
          return;
        }
        pending := ReasoningPrefix(pending, syntax, tags);
        cursor := cursor + |tags.open|;
        again := true;
        return;
      }
      pos := cursor;
    }

    /** One round of the loop of try_parse_reasoning: the section whose text starts at `start`. */
    method ParseSection(start: nat, prefix: string, tags: Tags) returns (again: bool, cursor: nat, pending: string)
      requires Valid() && start <= |input| && tags.close != ""
      modifies this`pos, this`result
      ensures Valid() && (again ==> pos == old(pos))
      ensures (if again then Again(cursor, result, pending) else Done(pos, result))
           == Section(input, start, old(result), prefix, isPartial, syntax, tags)
    {
      hide AddReasoning, AfterClose, OccursAt, HeldBackAt;
      again, cursor, pending := false, start, prefix;
      if cursor >= |input| {
        assert input[cursor..ReasoningEnd(input, cursor, tags.close)] == "";
        NothingToAdd(result, pending, !isPartial, syntax, tags);
        pos := |input|;
        return;
      }
      var endPos := Find(input, tags.close, cursor);
      if endPos.None? {
        var partialOff := StringFindPartialStop(input[cursor..], tags.close);
        var reasoningEnd := if partialOff.None? then |input| else cursor + partialOff.value;
        if reasoningEnd > cursor {
          pending := HandleReasoning(input[cursor..reasoningEnd], partialOff.None? && !isPartial, pending, tags);
        } else {
          assert input[cursor..reasoningEnd] == "";
          NothingToAdd(result, pending, partialOff.None? && !isPartial, syntax, tags);
        }
        pos := |input|;
        return;
      }
      if endPos.value > cursor {
        pending := HandleReasoning(input[cursor..endPos.value], true, pending, tags);
      } else {
        pending := HandleReasoning("", true, pending, tags);
        assert input[cursor..endPos.value] == "";
      }
      again, cursor, pending := ParseAfterClose(endPos.value + |tags.close|, pending, tags);
    }

    method ParseSections(start: nat, prefix: string, tags: Tags)
      requires Valid() && start <= |input| && tags.close != ""
      modifies this`pos, this`result
      ensures Valid()
      ensures ReasoningResult(true, pos, result)
           == ReasoningSections(input, start, old(result), prefix, isPartial, syntax, tags)
    {
      var cursor, pending := start, prefix;
      var again := true;
      while again
        invariant pos <= |input| && (again ==> cursor <= |input|)
        invariant ReasoningSections(input, start, old(result), prefix, isPartial, syntax, tags)
               == if again then ReasoningSections(input, cursor, result, pending, isPartial, syntax, tags)
                  else ReasoningResult(true, pos, result)
        decreases again, |input| - cursor
      {
        again, cursor, pending := ParseSection(cursor, pending, tags);
      }
    }

    method TryParseReasoning(tags: Tags) returns (handled: bool)
      requires Valid() && tags.close != ""
      modifies this`pos, this`result
      ensures Valid()
      ensures ReasoningResult(handled, pos, result)
           == ParseReasoning(input, old(pos), old(result), isPartial, syntax, tags)
    {
      hide AddReasoning, ReasoningSections;
      if syntax.reasoningFormat == NoFormat {
        return false;
      }
      var pending := "";
      var whitespaceEnd := SpacesEnd(input, pos);
      if whitespaceEnd >= |input| {
        if syntax.thinkingForcedOpen {
          var rest := input[pos..];
          if rest != "" {
            pending := HandleReasoning(rest, !isPartial, pending, tags);
          } else {
            NothingToAdd(result, pending, !isPartial, syntax, tags);
          }
          pos := |input|;
          return true;
        }
        return false;
      }

      var cursor := whitespaceEnd;
      var startPrefix := ComparedLength(input, cursor, tags.open);
      var hasStartTag := MayBeTag(input, cursor, tags.open);
      if hasStartTag && startPrefix < |tags.open| {
        pos := |input|;
        return true;
      }
      if hasStartTag {
        if whitespaceEnd > pos {
          AddContent(input[pos..whitespaceEnd]);
        }
        assert result.content == old(result).content + input[pos..whitespaceEnd];
        pending := ReasoningPrefix(pending, syntax, tags);
        cursor := cursor + |tags.open|;
        ParseSections(cursor, pending, tags);
      } else if syntax.thinkingForcedOpen {
        ParseSections(cursor, pending, tags);
      } else {
        return false;
      }
      return true;
    }

    method Finish() returns (r: Result<()>)
      ensures r.Err? <==> !isPartial && pos != |input|
    {
      if !isPartial && pos != |input| {
        return Err("Unexpected content at end of input");
      }
      return Ok(());
    }

    method ParseContentOnly()
      requires Valid()
      modifies this`pos, this`result
      ensures pos == |input|
      ensures result == WithRest(input, ParseReasoning(input, old(pos), old(result), isPartial, syntax, THINK_TAGS))
    {
      var _ := TryParseReasoning(THINK_TAGS);
      var rest := ConsumeRest();
      AddContent(rest);
    }
  }

  /** common_chat_parse for the content-only format, which never fails. */
  method ParseContentOnlyMessage(input: string, isPartial: bool, syntax: Syntax) returns (r: Result<Msg>)
    ensures r == Ok(ContentOnly(input, isPartial, syntax))
  {
    var builder := new ChatMsgParser(input, isPartial, syntax);
    builder.ParseContentOnly();
    var finished := builder.Finish();
    if finished.Err? {
      return Err("");
    }
    return Ok(builder.result);
  }
}
