/**
 What try_parse_reasoning and the content-only format compute, as functions of the whole
 input. ChatParser.dfy proves the loops of the parser equal to these functions, and
 Streaming.dfy proves what streaming needs of them.
 */
module ReasoningSpec {
  import opened Wrappers
  import opened Text
  import opened ChatTypes

  /** The literals that open and close a reasoning section. */
  datatype Tags = Tags(open: string, close: string)

  /** A nonempty opening literal that leading white space cannot be mistaken for. */
  predicate ProperTags(tags: Tags) {
    tags.open != "" && !IsSpace(tags.open[0]) && tags.close != ""
  }

  const THINK_TAGS := Tags("<think>", "</think>")

  datatype ReasoningResult = ReasoningResult(handled: bool, pos: nat, result: Msg)

  /** How much of `tag` is compared with the text at `cursor`. */
  function ComparedLength(input: string, cursor: nat, tag: string): (n: nat)
    requires cursor <= |input|
    ensures n <= |tag| && cursor + n <= |input|
    ensures n < |tag| ==> cursor + n == |input|
  {
    if |tag| <= |input| - cursor then |tag| else |input| - cursor
  }

  /** The text at `cursor` is `tag`, or all that is left of the text is a beginning of `tag`. */
  predicate MayBeTag(input: string, cursor: nat, tag: string)
    requires cursor <= |input|
  {
    var n := ComparedLength(input, cursor, tag);
    input[cursor..cursor + n] == tag[..n]
  }

  function ReasoningPrefix(pending: string, syntax: Syntax, tags: Tags): string {
    if !syntax.thinkingForcedOpen || syntax.reasoningInContent then pending else tags.open
  }

  function AddReasoning(msg: Msg, pending: string, text: string, closed: bool, syntax: Syntax, tags: Tags): Msg {
    var stripped := Strip(text);
    if stripped == "" then
      msg
    else if syntax.reasoningInContent then
      var open := if syntax.reasoningFormat == Deepseek then "<think>" else tags.open;
      var close := if syntax.reasoningFormat == Deepseek then "</think>" else tags.close;
      msg.(content := msg.content + open + stripped + (if closed then close else ""))
    else
      msg.(reasoning := msg.reasoning + pending + stripped)
  }

  lemma NothingToAdd(msg: Msg, pending: string, closed: bool, syntax: Syntax, tags: Tags)
    ensures AddReasoning(msg, pending, "", closed, syntax, tags) == msg
  {
  }

  function PendingAfter(pending: string, text: string, syntax: Syntax): string {
    if Strip(text) == "" || syntax.reasoningInContent then pending else ""
  }

  /** Where the reasoning text that starts at `cursor` ends: at the closing literal or what may become one. */
  function ReasoningEnd(input: string, cursor: nat, close: string): (r: nat)
    requires cursor <= |input|
    ensures cursor <= r <= |input|
  {
    match Find(input, close, cursor)
    case Some(end) => end
    case None =>
      match PartialStop(input[cursor..], close)
      case Some(offset) => cursor + offset
      case None => |input|
  }

  /** What one round of the loop of try_parse_reasoning leads to. */
  datatype Round = Done(pos: nat, result: Msg) | Again(cursor: nat, result: Msg, pending: string)

  /** Behind a closing literal: white space is dropped and another section may follow. */
  function AfterClose(input: string, from: nat, msg: Msg, pending: string, syntax: Syntax, tags: Tags): (r: Round)
    requires from <= |input|
    ensures r.Done? ==> r.pos <= |input|
    ensures r.Again? ==> from <= r.cursor <= |input|
    ensures r.result == msg
  {
    var next := SkipSpaces(input, from);
    if next == |input| || !MayBeTag(input, next, tags.open) then
      Done(next, msg)
    else if ComparedLength(input, next, tags.open) < |tags.open| then
      Done(|input|, msg)
    else
      Again(next + |tags.open|, msg, ReasoningPrefix(pending, syntax, tags))
  }

  /** From `cursor`, which is inside a reasoning section, to the end of that section or into the next one. */
  function Section(input: string, cursor: nat, msg: Msg, pending: string, partial: bool, syntax: Syntax, tags: Tags)
      : (r: Round)
    requires cursor <= |input| && tags.close != ""
    ensures r.Done? ==> r.pos <= |input|
    ensures r.Again? ==> cursor < r.cursor <= |input|
  {
    var end := ReasoningEnd(input, cursor, tags.close);
    var text := input[cursor..end];
    if Find(input, tags.close, cursor) == None then
      Done(|input|, AddReasoning(msg, pending, text, end == |input| && !partial, syntax, tags))
    else
      var msg' := AddReasoning(msg, pending, text, true, syntax, tags);
      AfterClose(input, end + |tags.close|, msg', PendingAfter(pending, text, syntax), syntax, tags)
  }

  /** From `cursor`, which is inside a reasoning section, to the end of the last adjacent section. */
  function ReasoningSections(input: string, cursor: nat, msg: Msg, pending: string, partial: bool, syntax: Syntax,
                             tags: Tags)
      : (r: ReasoningResult)
    requires cursor <= |input| && tags.close != ""
    ensures r.handled && r.pos <= |input|
    decreases |input| - cursor
  {
    match Section(input, cursor, msg, pending, partial, syntax, tags)
    case Done(pos, result) => ReasoningResult(true, pos, result)
    case Again(cursor', result, pending') =>
      ReasoningSections(input, cursor', result, pending', partial, syntax, tags)
  }

  function ParseReasoning(input: string, pos: nat, msg: Msg, partial: bool, syntax: Syntax, tags: Tags)
      : (r: ReasoningResult)
    requires pos <= |input| && tags.close != ""
    ensures r.pos <= |input|
    ensures !r.handled ==> r.pos == pos && r.result == msg
  {
    var start := SkipSpaces(input, pos);
    if syntax.reasoningFormat == NoFormat then
      ReasoningResult(false, pos, msg)
    else if start == |input| then
      if syntax.thinkingForcedOpen then
        ReasoningResult(true, |input|, AddReasoning(msg, "", input[pos..], !partial, syntax, tags))
      else
        ReasoningResult(false, pos, msg)
    else if MayBeTag(input, start, tags.open) then
      if ComparedLength(input, start, tags.open) < |tags.open| then
        ReasoningResult(true, |input|, msg)
      else
        var msg' := msg.(content := msg.content + input[pos..start]);
        ReasoningSections(input, start + |tags.open|, msg', ReasoningPrefix("", syntax, tags), partial, syntax, tags)
    else if syntax.thinkingForcedOpen then
      ReasoningSections(input, start, msg, "", partial, syntax, tags)
    else
      ReasoningResult(false, pos, msg)
  }

  /** A parse result to which the unparsed rest of the input is added as content. */
  function WithRest(input: string, r: ReasoningResult): Msg
    requires r.pos <= |input|
  {
    r.result.(content := r.result.content + input[r.pos..])
  }

  /** The message that the content-only format makes of `input`. */
  function ContentOnly(input: string, partial: bool, syntax: Syntax, tags: Tags := THINK_TAGS): Msg
    requires tags.close != ""
  {
    WithRest(input, ParseReasoning(input, 0, ASSISTANT_MSG, partial, syntax, tags))
  }
}
