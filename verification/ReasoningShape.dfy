/** What the content-only parser makes of a complete reasoning block, said without reference to its loop. */
module ReasoningShape {
  import opened Wrappers
  import opened Text
  import opened ChatTypes
  import opened ReasoningSpec

  /**
   White space, the opening literal at `open`, the first closing literal behind it at `close`, white space
   up to `rest`, and there nothing that begins like another section: the stripped text in between is the
   reasoning, the first white space and the text from `rest` on are the content.
   */
  lemma BlockParses(s: string, open: nat, close: nat, rest: nat, partial: bool, syntax: Syntax, tags: Tags)
    requires ProperTags(tags) && syntax.reasoningFormat != NoFormat && !syntax.reasoningInContent
    requires SkipSpaces(s, 0) == open && OccursAt(s, tags.open, open)
    requires Find(s, tags.close, open + |tags.open|) == Some(close)
    requires SkipSpaces(s, close + |tags.close|) == rest && (rest < |s| ==> !MayBeTag(s, rest, tags.open))
    ensures ContentOnly(s, partial, syntax, tags)
         == Msg("assistant", s[0..open] + s[rest..],
                var text := Strip(s[open + |tags.open|..close]);
                if syntax.thinkingForcedOpen && text != "" then tags.open + text else text, [])
  {
    hide Strip, Find, Section, SkipSpaces, OccursAt, AddReasoning;
    var body := open + |tags.open|;
    var msg := ASSISTANT_MSG.(content := s[0..open]);
    var pending := ReasoningPrefix("", syntax, tags);
    EntersBlock(s, open, partial, syntax, tags);
    LeavesBlock(s, body, close, rest, msg, pending, partial, syntax, tags);
    AddsText(msg, pending, s[body..close], syntax, tags);
  }

  lemma EntersBlock(s: string, open: nat, partial: bool, syntax: Syntax, tags: Tags)
    requires ProperTags(tags) && syntax.reasoningFormat != NoFormat
    requires SkipSpaces(s, 0) == open && OccursAt(s, tags.open, open)
    ensures ParseReasoning(s, 0, ASSISTANT_MSG, partial, syntax, tags)
         == ReasoningSections(s, open + |tags.open|, ASSISTANT_MSG.(content := s[0..open]),
                              ReasoningPrefix("", syntax, tags), partial, syntax, tags)
  {
    hide AddReasoning, ReasoningSections, SkipSpaces;
    assert ASSISTANT_MSG.content + s[0..open] == s[0..open];
  }

  lemma LeavesBlock(s: string, body: nat, close: nat, rest: nat, msg: Msg, pending: string, partial: bool,
                    syntax: Syntax, tags: Tags)
    requires body <= |s| && tags.close != "" && Find(s, tags.close, body) == Some(close)
    requires SkipSpaces(s, close + |tags.close|) == rest && (rest < |s| ==> !MayBeTag(s, rest, tags.open))
    ensures Section(s, body, msg, pending, partial, syntax, tags)
         == Done(rest, AddReasoning(msg, pending, s[body..close], true, syntax, tags))
  {
    hide AddReasoning, SkipSpaces, Find, MayBeTag;
  }

  lemma AddsText(msg: Msg, pending: string, text: string, syntax: Syntax, tags: Tags)
    requires !syntax.reasoningInContent && msg.reasoning == ""
    ensures AddReasoning(msg, pending, text, true, syntax, tags)
         == msg.(reasoning := if Strip(text) == "" then "" else pending + Strip(text))
  {
    hide Strip;
    assert "" + pending + Strip(text) == pending + Strip(text);
  }
}
