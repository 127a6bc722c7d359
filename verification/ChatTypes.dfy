/** The message records of chat.h that the parser fills in and the diff compares. */
module ChatTypes {
  datatype ToolCall = ToolCall(name: string, arguments: string, id: string)

  datatype Msg = Msg(role: string, content: string, reasoning: string, toolCalls: seq<ToolCall>)

  const EMPTY_MSG := Msg("", "", "", [])
  const ASSISTANT_MSG := Msg("assistant", "", "", [])

  datatype ReasoningFormat = NoFormat | Auto | DeepseekLegacy | Deepseek

  /** The parser parameters that the literal-based parsing code reads. */
  datatype Syntax = Syntax(reasoningFormat: ReasoningFormat, reasoningInContent: bool, thinkingForcedOpen: bool)
}
