# Verification of the chat, editor, codec, tensor and game code

This project models the code of the repository that transforms text and state, and proves what it promises.
The modules follow the source files.

- **Streaming chat output** (`chat-parser.cpp`, `chat.cpp`, `chat.h`, `common.cpp`): `Text`, `ChatTypes`,
  `ReasoningSpec`, `ChatParser`, `ParserMonotone`, `ReasoningShape`, `ReasoningMeaning`, `ChatDiff`, `ToolCallIds`,
  `Streaming`. A model output is parsed again for every piece that arrives, and clients receive the differences. The
  main theorem crosses all these files: for every chunking, no difference throws and the differences add up to the
  final message, exactly under a condition that a caller can check. `ReasoningMeaning` says what every output means,
  section by section.
- **Line editor** (`console.cpp`): `Utf8`, `LineHistory`, `EditorSpec`, `LineEditor`, `EditorLaws`, `EditorLines`.
  Bytes, widths, two cursors and a terminal column, changed in place, refine a sequence of code points with one cursor
  over whole sessions.
- **XML-style tool calls** (`chat-parser-xml-toolcall.cpp`): `GbnfExcluding`, `GbnfLaws` and `GbnfAccepted` give the
  grammar compiled from forbidden words its exact meaning and say exactly when it keeps its promise. `XmlSpec` and
  `XmlToolCalls` treat the backtracking parser: it ends, and it leaves no trace when it refuses. `XmlLiterals`,
  `XmlLaws` and `XmlForms` show that it reads back what is written, in each of the seven formats that
  `chat-parser.cpp` configures; `XmlUndefined` says exactly which formats and inputs make it read an empty optional.
  Conversely, `XmlSound` shows that whatever is accepted was written. `XmlDump`, `XmlPartial`, `XmlStreaming` and
  `XmlTagStreams` follow a list of calls while it arrives: what is sent wherever the input breaks off, and that it is
  only added to, unless a key comes twice (`XmlRepeatedKeys`). `Utf8Truncation` is about cutting text between
  characters.
- **Low-rank tensors** (`convert_lora_to_gguf.py`): `Tensors`, `LoraTensor`, `LoraIndexing`, `LoraSlicing`,
  `LoraShorthand`, `LoraEllipsis`, `LoraChoices`, `LoraReshaping`, `LoraJoining`, `LoraSuccess`, `LoraFailures`. A
  pair (A, B) behaves like the dense tensor B·A, operation by operation, with exact conditions.
- **Codecs and string algorithms** (`base64.hpp`, `common.cpp`, `chat-peg-parser.cpp`, `arg.cpp`): `Base64`,
  `CommonBlocks`, `TextAlgorithms`, `JsonArguments`, `CsvRow`.
- **Pacman** (`pacman.js`): `PacmanMap`, `PacmanMotion`, `PacmanGhost`, `PacmanPlayer`, `PacmanGame`, `PacmanLaws`.
  Invariants of every reachable state under arbitrary keys and random draws, and accounts over whole runs.

`dafny verify dfyconfig.toml` checks the whole project.

## Conventions

A `char` stands for one byte of a `std::string`; `Utf8`, `Base64` and the editor use integers below 256. Code that
updates objects, arrays or cursors is a class or a method with loops, proved against a function of its inputs and old
state; the laws are lemmas about those functions. An exception is an `Err`, or an outcome of a `Step`. Shifts and
masks are written as divisions and remainders by powers of two.

Some things are parameters, because they lie outside the modelled code: character widths and the classification of
white space in the editor, the generator of identifiers, reading and printing of JSON (reading moves forward within
the input or fails), truncation and the clean-up of names for one model family in the XML parser, and how JSON escapes
a character. That a client sees the difference of every two successive parses, beginning with an empty message, is an
assumption about the server, whose loop is not part of this model; `UnstreamableFails` depends on it. Random draws of
the ghosts are lists of coins, and which ghosts touch the player in a frame is left open.

## Where code and documentation differ

- The comment of `make_gbnf_excluding` says that no string *containing* a forbidden word is accepted. The grammar only
  keeps words away from block boundaries: `ClosingTagSlipsThrough` gives an accepted string that contains one.
  `GbnfAccepted.ExcludesIff` says for every set with a nonempty word exactly when the comment is true. The condition
  becomes simpler where every generation can be finished (`ExcludesIffNotAdmitted`), as it can be if some character
  occurs in no word (`ForeignExcludesIff`); a single closing literal is kept out exactly if it repeats one character
  (`SingleWordExcludedIff`, and `WordAndEmptyExcludedIff` for the pair of words that three formats pass). Unfinished
  generations have laws of their own in `GbnfLaws`.
- Streaming content with reasoning extracted repeats white space if the output begins with white space and a `<`, and
  no section is forced open: `UnstreamableFails`, and `StreamingIsFaithfulIffStreamable` for the exact condition.
- `common_lcs` is documented as the longest common subsequence; it computes the longest common contiguous block
  (`CommonLcs`), which is shorter for [1, 2, 3] and [1, 3] (`BlockIsNotSubsequence`).
- `LoraTorchTensor.__getitem__` carries a note that its slicing may not be correct. It is, exactly under the condition
  of `IndexingIsFaithfulIff`; a batch axis that A has for itself cannot be cut (`BatchSliceFails`). An ellipsis that
  is not last is expanded to as many slices as there are other indices. For a positive rank the result is what PyTorch
  means, for all pairs of the given shapes, exactly if that expansion is an index that the pair can take and picks the
  same entries on every axis (`EllipsisByAxesIff`): `t[..., 0:]` on four axes does (`WholeSliceIsHarmless`) although
  it is expanded to another index (`GivenIsMeantIff`), and `t[..., 0:1]` cuts the wrong axis
  (`EllipsisCutsOtherAxis`). `t[...]` is refused (`TrailingEllipsisIsMeant`). Concatenating batches whose A has an
  extent of one gives a pair that stands for no tensor (`CatOfBatchesIsFaithfulIff`, `SharedBatchesFail`). A reshape
  of a pair of rank zero does not compare the element counts (`ReshapeIsFaithful`, `RanklessReshapeFails`).
- `parse_xml_tool_calls` reads a tool name through an empty `std::optional` if the text before the separator holds the
  alternative end of a tool that is not followed by what must follow it: `NameIsUndefinedIff` for a position,
  `UndefinedIsPossibleIff` for a format. Among the configured formats that can happen in Apriel 1.5 alone
  (`OnlyAprielIsUndefined`), for instance for a name with a brace (`BracedNameIsUndefined`).
- The ghosts' `addBounded` is meant never to skip a whole square. It does exactly where JavaScript's remainder is
  negative and the step reaches beyond the next whole square on either side (`AddBoundedSkipsIff`). A hidden ghost
  that comes back through the tunnel passes -10, -6, -2 and 2 and so skips 0 (`HiddenGhostSkips`), without harm
  (`LifeInCorridors`).
- The history remembers the line being edited before it is viewed. An empty line that is entered does not end viewing,
  though, so that the next line can begin in that state, and Up and Down then lose it: `LineIsLost`, and
  `UpsAndDownsRestoreIff` for the exact condition.
- In the editor a comment removes the line break of a line "for history storage", but the line that is handed out
  loses it too, while the simple mode keeps it: the two modes of `readline` agree on the line only where it ends in a
  slash (`EnterSubmits`, `ModesAgreeIff`).
- Tool calls are meant to be streamed by adding to what was sent. Where a key comes again in a call, the arguments
  shrink or the call is lost, and the next difference throws: what is sent at the beginning of a value adds to what
  was sent before its key exactly if the key is new (`RepeatedKeyIff`).

## Model

| member | source | states |
|---|---|---|
| Text.Find | app/src/main/cpp/llama/common/chat-parser.cpp:258 | the result of `std::string::find` lies at or behind the start and within the string |
| Text.FindIsLeast | app/src/main/cpp/llama/common/chat-parser.cpp:258 | what is found is an occurrence, and no earlier one exists |
| Text.StringStrip | app/src/main/cpp/llama/common/common.cpp:414-424 | the loops over both ends compute the stripped string |
| Text.StripUnique | app/src/main/cpp/llama/common/common.cpp:414-424 | removing white space from both ends until neither end is white space determines the result |
| Text.StripDecomposes | app/src/main/cpp/llama/common/common.cpp:414-424 | every string is white space, its stripped form and white space; the stripped form is empty exactly if all is white space |
| Text.StripKeepsPrefixes | app/src/main/cpp/llama/common/common.cpp:414-424 | a longer text has a stripped form that extends the stripped form of its prefix |
| Text.PartialStopIsLeast | app/src/main/cpp/llama/common/common.cpp:471-485 | the position that is held back from is the least from which the rest could begin the stop word |
| Text.StringFindPartialStop | app/src/main/cpp/llama/common/common.cpp:471-485 | scanning the stop word backwards finds the longest suffix that is a prefix of it |
| ChatParser.ChatMsgParser.MoveTo | app/src/main/cpp/llama/common/chat-parser.h:37-42 | the cursor moves exactly within the input; otherwise it stays and an exception is thrown |
| ChatParser.ChatMsgParser.AddToolCall | app/src/main/cpp/llama/common/chat-parser.cpp:159-172 | a call is appended exactly if it has a name; nothing else changes |
| ChatParser.ChatMsgParser.ConsumeSpaces | app/src/main/cpp/llama/common/chat-parser.cpp:232-240 | the cursor passes all white space and reports whether it moved |
| ChatParser.ChatMsgParser.TryConsumeLiteral | app/src/main/cpp/llama/common/chat-parser.cpp:242-255 | the literal is consumed exactly if it occurs at the cursor; otherwise the cursor stays |
| ChatParser.ChatMsgParser.TryFindLiteral | app/src/main/cpp/llama/common/chat-parser.cpp:257-279 | the next whole occurrence, in a partial parse else the held-back beginning of one; the cursor ends behind it or stays |
| ChatParser.ChatMsgParser.ParseAfterClose | app/src/main/cpp/llama/common/chat-parser.cpp:405-429 | what follows a closing literal: white space, then another section, a beginning of one, or the end of reasoning |
| ChatParser.ChatMsgParser.ParseSection | app/src/main/cpp/llama/common/chat-parser.cpp:382-429 | one round of the loop over reasoning sections |
| ChatParser.ChatMsgParser.ParseSections | app/src/main/cpp/llama/common/chat-parser.cpp:381-430 | the `while (true)` loop ends for every nonempty closing literal and computes the recursive reading of adjacent sections |
| ChatParser.ChatMsgParser.TryParseReasoning | app/src/main/cpp/llama/common/chat-parser.cpp:287-431 | the method equals the specification of try_parse_reasoning on cursor, message and result |
| ReasoningSpec.ParseReasoning | app/src/main/cpp/llama/common/chat-parser.cpp:287-431 | if reasoning is not handled, cursor and message are those at entry; the cursor stays within the input |
| ChatParser.ChatMsgParser.ParseContentOnly | app/src/main/cpp/llama/common/chat-parser.cpp:1518-1521 | reasoning, then all the rest as content |
| ChatParser.ParseContentOnlyMessage | app/src/main/cpp/llama/common/chat-parser.cpp:1614-1636 | parsing the content-only format never throws, and returns the specified message |
| ReasoningShape.BlockParses | app/src/main/cpp/llama/common/chat-parser.cpp:287-431 | reference meaning of a complete think block: stripped text in between is the reasoning, white space before and text behind are the content |
| ReasoningMeaning.BodyMeans | app/src/main/cpp/llama/common/chat-parser.cpp:381-430 | from inside a section on: the sections are the reasoning, stripped and one after the other, or shown in the content, and the text behind them is content |
| ReasoningMeaning.OpenedMeans | app/src/main/cpp/llama/common/chat-parser.cpp:287-431 | white space and an opening literal: what the message is, in partial and final parses, for every format and setting |
| ReasoningMeaning.ForcedMeans | app/src/main/cpp/llama/common/chat-parser.cpp:287-431 | the same for a section that is forced open without a literal |
| ReasoningMeaning.OthersMean | app/src/main/cpp/llama/common/chat-parser.cpp:346-380 | all other outputs: white space, a begun opening literal, and plain text |
| ReasoningMeaning.OpenSectionIsReasoning | app/src/main/cpp/llama/common/chat-parser.cpp:387-397 | a section that is not closed is reasoning up to the longest end of the output that begins the closing literal |
| ReasoningMeaning.EveryBody | app/src/main/cpp/llama/common/chat-parser.cpp:381-430 | every text is written as such sections, so that nothing is left unsaid |
| ParserMonotone.FindInPrefix | app/src/main/cpp/llama/common/chat-parser.cpp:387 | an occurrence found in a prefix is the one found in the whole text |
| ParserMonotone.ReasoningEndGrows | app/src/main/cpp/llama/common/chat-parser.cpp:387-397 | the end of a section, held back or found, never moves backwards as the text grows |
| ParserMonotone.SectionsGrow | app/src/main/cpp/llama/common/chat-parser.cpp:381-430 | reasoning and content parsed from a prefix are prefixes of those parsed from any longer text |
| Streaming.ContentOnlyGrows | app/src/main/cpp/llama/common/chat-parser.cpp:1518-1521 | prefix monotonicity of the whole content-only parse for every parameter setting, under the condition that a caller can check |
| ChatDiff.ComputeDiffs | app/src/main/cpp/llama/common/chat.cpp:125-172 | the deltas, or the first of the errors, part by part |
| ChatDiff.StringDiffRebuilds | app/src/main/cpp/llama/common/chat.cpp:37-50 | appending the difference gives the new text exactly if the new text extends the old one |
| ChatDiff.AppliedDiffs | app/src/main/cpp/llama/common/chat.cpp:125-172 | the message that a client holds after applying the deltas, field by field, whenever they exist |
| ChatDiff.RebuildsIffExtends | app/src/main/cpp/llama/common/chat.cpp:125-172 | the deltas lead a client to the new message exactly if that message only adds to the old one |
| ChatDiff.ChainRebuilds | app/src/main/cpp/llama/common/chat.cpp:125-172 | over any run of extending messages, no diff throws and all the deltas together rebuild the last message, tool calls included |
| ChatDiff.RoleIsNotSent | app/src/main/cpp/llama/common/chat.cpp:446-470 | no delta changes the role |
| ChatDiff.DiffsFailIff | app/src/main/cpp/llama/common/chat.cpp:125-172 | exactly when an exception is thrown: a text was replaced, a call got lost, or the last one became another |
| ChatDiff.DeltasSaySomething | app/src/main/cpp/llama/common/chat.cpp:125-172 | where the message adds to the old one no delta is empty, and without news there is none |
| ToolCallIds.IdCache.SetToolCallIds | app/src/main/cpp/llama/common/chat.h:55-66 | the cache is extended and the identifiers are overwritten, in place |
| ToolCallIds.CacheOnlyGrows | app/src/main/cpp/llama/common/chat.h:55-66 | an identifier that is in the cache stays there |
| ToolCallIds.IdsNeverChange | app/src/main/cpp/llama/common/chat.h:55-66 | in every message of a stream the call with a given index carries the same identifier |
| ToolCallIds.FirstIdStays | app/src/main/cpp/llama/common/chat.h:55-66 | the identifier with which a call first appears is kept, and the generator is asked exactly where there was none |
| ToolCallIds.IdentifiedRunRebuilds | app/src/main/cpp/llama/common/chat.h:55-66 | whatever identifiers the partial parses produce, the deltas of the identified messages rebuild the last one |
| Streaming.StreamableStreams | app/src/main/cpp/llama/common/chat-parser.cpp:1518-1521 | for every chunking of a streamable output no diff throws and the deltas concatenate to the final reasoning and content |
| Streaming.UnstreamableFails | app/src/main/cpp/llama/common/chat-parser.cpp:346-371 | for every other output a concrete chunking is given that repeats white space |
| Streaming.StreamingIsFaithfulIffStreamable | app/src/main/cpp/llama/common/chat-parser.cpp:287-431 | streaming is faithful for every chunking exactly if no white space precedes what may be an opening literal |
| Utf8.AppendUtf8 | app/src/main/cpp/llama/common/console.cpp:409-428 | up to 0x10FFFF the encoding of section 3 of RFC 3629 is appended, beyond that nothing |
| Utf8.Examples | app/src/main/cpp/llama/common/console.cpp:409-428 | the encodings of code points of one to four bytes, three of them from section 7 of RFC 3629 |
| Utf8.DecodeEncode | app/src/main/cpp/llama/common/console.cpp:363-407 | decoding an encoded code point gives it back with its length, whatever follows |
| Utf8.EncodeAllInjective | app/src/main/cpp/llama/common/console.cpp:409-428 | different sequences of code points have different encodings |
| Utf8.PrevUtf8CharPos | app/src/main/cpp/llama/common/console.cpp:430-437 | steps back over continuation bytes |
| Utf8.NextUtf8CharPos | app/src/main/cpp/llama/common/console.cpp:439-446 | steps forward over continuation bytes |
| Utf8.BoundaryStep | app/src/main/cpp/llama/common/console.cpp:430-446 | on encoded text the two steps move between neighbouring code points and decoding there gives the code point |
| Utf8Truncation.Utf8TruncateSafe | app/src/main/cpp/llama/common/chat-parser-xml-toolcall.cpp:27-50 | the backward scan over at most four bytes |
| Utf8Truncation.TruncatesToWholeCharacters | app/src/main/cpp/llama/common/chat-parser-xml-toolcall.cpp:27-50 | of UTF-8 text that breaks off anywhere, exactly the complete characters are kept |
| Utf8Truncation.TruncationGrows | app/src/main/cpp/llama/common/chat-parser-xml-toolcall.cpp:27-50 | more bytes of a text never keep less, and before an ASCII character all is kept |
| LineHistory.HistoryBuffer.AddLine | app/src/main/cpp/llama/common/console.cpp:693-703 | nonempty lines that differ from the newest entry are added; viewing ends unless the line is empty |
| LineHistory.HistoryBuffer.PrevLine | app/src/main/cpp/llama/common/console.cpp:704-716 | one entry back, staying at the oldest |
| LineHistory.HistoryBuffer.NextLine | app/src/main/cpp/llama/common/console.cpp:717-729 | one entry forward, or the remembered line and the end of viewing |
| LineEditor.LineEditor.constructor | app/src/main/cpp/llama/common/console.cpp:743-757 | an empty line with the cursor at its start |
| LineEditor.LineEditor.PutTail | app/src/main/cpp/llama/common/console.cpp:464-472 | redrawing the tail moves the cursor by the widths of the tail |
| LineEditor.LineEditor.EraseAtCursor | app/src/main/cpp/llama/common/console.cpp:463-479 | erasing bytes and width and redrawing deletes one code point and leaves the column at the cursor |
| LineEditor.LineEditor.DeleteAtCursor | app/src/main/cpp/llama/common/console.cpp:454-480 | deletes the code point behind the cursor |
| LineEditor.LineEditor.Backspace | app/src/main/cpp/llama/common/console.cpp:905-933 | deletes the code point before the cursor |
| LineEditor.LineEditor.InsertInMiddle | app/src/main/cpp/llama/common/console.cpp:949-972 | inserting bytes, width and tail inserts one code point |
| LineEditor.LineEditor.InsertChar | app/src/main/cpp/llama/common/console.cpp:935-972 | inserts a code point at the cursor |
| LineEditor.LineEditor.MoveLeft | app/src/main/cpp/llama/common/console.cpp:814-819 | one code point to the left, bytes and column included |
| LineEditor.LineEditor.MoveRight | app/src/main/cpp/llama/common/console.cpp:823-828 | one code point to the right |
| LineEditor.LineEditor.MoveToLineStart | app/src/main/cpp/llama/common/console.cpp:519-527 | to the start of the line |
| LineEditor.LineEditor.MoveToLineEnd | app/src/main/cpp/llama/common/console.cpp:529-537 | to the end of the line |
| LineEditor.LineEditor.MoveWordLeft | app/src/main/cpp/llama/common/console.cpp:571-607 | passes spaces, then a word, to the left |
| LineEditor.LineEditor.MoveWordRight | app/src/main/cpp/llama/common/console.cpp:609-654 | passes spaces, a word and spaces to the right |
| LineEditor.LineEditor.SetLineContents | app/src/main/cpp/llama/common/console.cpp:495-517 | replaces the line, measures it again and puts the cursor at its end |
| LineEditor.LineEditor.HistoryPrev | app/src/main/cpp/llama/common/console.cpp:760-769 | shows the previous entry and remembers the line being edited |
| LineEditor.LineEditor.HistoryNext | app/src/main/cpp/llama/common/console.cpp:770-779 | shows the next entry or the remembered line |
| LineEditor.LineEditor.Execute | app/src/main/cpp/llama/common/console.cpp:801-972 | every edit command keeps bytes, widths, both cursors and the terminal column consistent and refines the edit of a code point sequence |
| LineEditor.LineEditor.SubmitLine | app/src/main/cpp/llama/common/console.cpp:980-1018 | what a marker or Enter makes of the line, whether more is expected, and what is stored |
| LineEditor.LineEditor.RunSession | app/src/main/cpp/llama/common/console.cpp:743-1019 | over any run of keys and lines the bytes stay the encoding of the abstract session |
| EditorLaws.TypingInserts | app/src/main/cpp/llama/common/console.cpp:935-972 | typing a text inserts it at the cursor |
| EditorLaws.BackspacesUndoTyping | app/src/main/cpp/llama/common/console.cpp:905-933 | as many backspaces as were typed restore the editor |
| EditorLaws.DeleteByBackspace | app/src/main/cpp/llama/common/console.cpp:454-480 | delete is a step to the right and a backspace, and nothing at the end of the line |
| EditorLaws.TypingAtTheEnds | app/src/main/cpp/llama/common/console.cpp:519-537 | what is typed behind Home stands before the line, and behind End it follows it |
| EditorLaws.LeftsMove | app/src/main/cpp/llama/common/console.cpp:814-828 | k steps to the left within the line move the cursor by k, and k to the right bring it back |
| EditorLaws.WordLeftFindsWord | app/src/main/cpp/llama/common/console.cpp:571-607 | the cursor lands on the nearest start of a word to the left |
| EditorLaws.WordRightFindsWord | app/src/main/cpp/llama/common/console.cpp:609-654 | the cursor lands on a start of a word and skips none but one within white space |
| EditorLaws.AfterUps | app/src/main/cpp/llama/common/console.cpp:704-741 | j ups show the j-th newest entry, or the oldest, and remember the line |
| EditorLaws.UpsAndDownsRestore | app/src/main/cpp/llama/common/console.cpp:689-741 | from a line that is not viewing the history, k ups and k downs restore everything, even past the oldest entry |
| EditorLaws.UpsAndDownsWhileViewing | app/src/main/cpp/llama/common/console.cpp:689-741 | the other half: what k ups and k downs show and remember when entry v is being viewed |
| EditorLaws.UpsAndDownsRestoreIff | app/src/main/cpp/llama/common/console.cpp:689-741 | in every state, exactly when k ups and k downs give the line back |
| EditorLaws.LineIsLost | app/src/main/cpp/llama/common/console.cpp:693-696 | a session in which an empty line was entered while viewing, after which Up and Down lose the line |
| EditorLines.EnterSubmits | app/src/main/cpp/llama/common/console.cpp:980-1018 | in literal code points: whether more lines follow, the line handed out without its marker, and what is stored |
| EditorLines.EndOfStreamSubmits | app/src/main/cpp/llama/common/console.cpp:980-1018 | the same at the end of the input, where nothing is stored |
| EditorLines.MessageEnds | app/src/main/cpp/llama/common/console.cpp:980-1018 | over any run of lines: without multi-line input a message goes on exactly as long as lines end in a backslash, with it it ends at the first marker |
| EditorLines.ReadlineSimple | app/src/main/cpp/llama/common/console.cpp:1021-1056 | the simple mode keeps the line break and knows the same markers |
| EditorLines.ModesAgreeIff | app/src/main/cpp/llama/common/console.cpp:1058-1063 | the two modes agree on whether more follows, and on the line exactly if it ends in a slash and is not " /" |
| GbnfExcluding.CollectChildren | app/src/main/cpp/llama/common/chat-parser-xml-toolcall.cpp:99-115 | the groups of sorted words that share the next character, complete and in order |
| GbnfExcluding.BuildExpr | app/src/main/cpp/llama/common/chat-parser-xml-toolcall.cpp:98-148 | the expression matches exactly a proper beginning of a word and a character that continues none |
| GbnfExcluding.MakeGbnfExcluding | app/src/main/cpp/llama/common/chat-parser-xml-toolcall.cpp:84-161 | the grammar accepts exactly the strings that split into such blocks; without any word it accepts every string |
| GbnfLaws.NoWordAtBoundary | app/src/main/cpp/llama/common/chat-parser-xml-toolcall.cpp:84-161 | for prefix-free words no forbidden word starts at a block boundary |
| GbnfLaws.WordFreeIsViable | app/src/main/cpp/llama/common/chat-parser-xml-toolcall.cpp:84-161 | a string without forbidden words is accepted up to a leftover proper beginning of a word |
| GbnfLaws.AcceptedIsViable | app/src/main/cpp/llama/common/chat-parser-xml-toolcall.cpp:84-161 | every accepted string is of that kind |
| GbnfLaws.UnfinishedExcludeIff | app/src/main/cpp/llama/common/chat-parser-xml-toolcall.cpp:84-161 | for any words: no unfinished generation contains one exactly if none occurs early in a word and no block ends with a beginning of one whose rest may follow |
| GbnfLaws.UnfinishedExcludeIffNoOverlap | app/src/main/cpp/llama/common/chat-parser-xml-toolcall.cpp:84-161 | for words none of which occurs in another, that is exactly when no block overlaps a word |
| GbnfLaws.UnfinishedExcludeWordIff | app/src/main/cpp/llama/common/chat-parser-xml-toolcall.cpp:186 | unfinished generations keep a single word out exactly if it repeats one character |
| GbnfLaws.UnfinishedExcludeWordAndEmptyIff | app/src/main/cpp/llama/common/chat-parser-xml-toolcall.cpp:185 | so it is for a word beside an empty one |
| GbnfLaws.ClosingTagSlipsThrough | app/src/main/cpp/llama/common/chat-parser-xml-toolcall.cpp:81-83 | the grammar against `</parameter>` accepts `<</parameter>` |
| GbnfAccepted.ContinuableIff | app/src/main/cpp/llama/common/chat-parser-xml-toolcall.cpp:84-161 | blocks followed by the beginning of one are exactly what begins an accepted string |
| GbnfAccepted.ExcludesIff | app/src/main/cpp/llama/common/chat-parser-xml-toolcall.cpp:81-161 | the comment, for any words of which one is nonempty, also with empty ones and words within words: no accepted string contains one exactly if none occurs early in a block and no block ends with a beginning of one whose rest can be finished |
| GbnfAccepted.ExcludesIffNotAdmitted | app/src/main/cpp/llama/common/chat-parser-xml-toolcall.cpp:81-161 | where behind every beginning of a word some character leads out, the condition is that of unfinished generations |
| GbnfAccepted.ForeignExcludesIff | app/src/main/cpp/llama/common/chat-parser-xml-toolcall.cpp:81-161 | so it is if some character occurs in no word |
| GbnfAccepted.ExcludesIffNoOverlap | app/src/main/cpp/llama/common/chat-parser-xml-toolcall.cpp:81-161 | if moreover no word occurs in another: exactly if no block overlaps a word |
| GbnfAccepted.SingleWordExcludedIff | app/src/main/cpp/llama/common/chat-parser-xml-toolcall.cpp:186 | no accepted string contains the single word exactly if that repeats one character |
| GbnfAccepted.WordAndEmptyExcludedIff | app/src/main/cpp/llama/common/chat-parser-xml-toolcall.cpp:185 | the same for a word beside an empty one, which three formats pass |
| XmlToolCalls.TryFindTwoLiterals | app/src/main/cpp/llama/common/chat-parser-xml-toolcall.cpp:60-79 | two literals split by white space are found, or the cursor is where it was; every round of the search advances |
| XmlToolCalls.TryFindClose | app/src/main/cpp/llama/common/chat-parser-xml-toolcall.cpp:345-376 | the earlier of a closing literal and its alternative, the latter only if its own successor follows |
| XmlToolCalls.AddPartialCall | app/src/main/cpp/llama/common/chat-parser-xml-toolcall.cpp:313-343 | a call with truncated arguments is added exactly if only closing characters follow the flag |
| XmlToolCalls.ReadKey | app/src/main/cpp/llama/common/chat-parser-xml-toolcall.cpp:466-477 | a key up to its separator, or the call so far and an exception |
| XmlToolCalls.ReadSep2 | app/src/main/cpp/llama/common/chat-parser-xml-toolcall.cpp:479-498 | the second separator; visible text before it is a syntax error without recovery |
| XmlToolCalls.TryReadJson | app/src/main/cpp/llama/common/chat-parser-xml-toolcall.cpp:501-521 | JSON or what may be a scalar is consumed, or the cursor is where it was |
| XmlToolCalls.ReadValue | app/src/main/cpp/llama/common/chat-parser-xml-toolcall.cpp:501-582 | a JSON value if its end follows, plain text otherwise, or the call so far and an exception |
| XmlToolCalls.ReadArguments | app/src/main/cpp/llama/common/chat-parser-xml-toolcall.cpp:447-584 | the loop over keys and values ends, because every round consumes a nonempty literal, and equals its recursive reading |
| XmlToolCalls.ReadName | app/src/main/cpp/llama/common/chat-parser-xml-toolcall.cpp:409-428 | the name up to its separator or to the end of a tool without arguments |
| XmlToolCalls.ReturnError | app/src/main/cpp/llama/common/chat-parser-xml-toolcall.cpp:306-312 | while nothing has been taken in, the cursor goes back to the start and the result is false |
| XmlToolCalls.ReadToolEnd | app/src/main/cpp/llama/common/chat-parser-xml-toolcall.cpp:586-609 | the closing literal adds the call; a missing one adds it unfinished and waits |
| XmlToolCalls.ReadTools | app/src/main/cpp/llama/common/chat-parser-xml-toolcall.cpp:399-611 | the loop over tools ends and adds exactly the calls of its recursive reading; a refusal leaves cursor and message untouched |
| XmlToolCalls.ParseXmlToolCalls | app/src/main/cpp/llama/common/chat-parser-xml-toolcall.cpp:298-633 | the whole parse: false leaves cursor and message as they were, other outcomes only add calls |
| XmlToolCalls.TryConsumeXmlToolCalls | app/src/main/cpp/llama/common/chat-parser-xml-toolcall.cpp:640-648 | whenever the result is false, on every path and after a caught syntax exception too, cursor and message are those at entry; true adds exactly the calls that were read |
| XmlSpec.ParseArgs | app/src/main/cpp/llama/common/chat-parser-xml-toolcall.cpp:447-584 | the position never moves back, a refusal never arises among arguments, and recovery ends with the first argument |
| XmlSpec.ParseTools | app/src/main/cpp/llama/common/chat-parser-xml-toolcall.cpp:399-611 | a refusal arises only before any call has been added |
| XmlLaws.TextRead | app/src/main/cpp/llama/common/chat-parser-xml-toolcall.cpp:501-582 | a value that JSON reading leaves alone, or takes only in part, is read as its text |
| XmlLaws.JsonRead | app/src/main/cpp/llama/common/chat-parser-xml-toolcall.cpp:501-552 | a value that JSON reading takes completely is read as that value, before an alternative end too |
| XmlLaws.NameRead | app/src/main/cpp/llama/common/chat-parser-xml-toolcall.cpp:409-428 | the name ends at the separator, the first key or the end of a tool without arguments |
| XmlLaws.ArgsRead | app/src/main/cpp/llama/common/chat-parser-xml-toolcall.cpp:447-584 | written keys and values, text or JSON, are read back in order, whatever form separates and ends them |
| XmlLaws.ToolsRead | app/src/main/cpp/llama/common/chat-parser-xml-toolcall.cpp:399-611 | written tool calls are read back in order, the last one with its own end |
| XmlLaws.WrittenCallsAreRead | app/src/main/cpp/llama/common/chat-parser-xml-toolcall.cpp:298-633 | in every form whose literals can be told apart, every list of tool calls with text or JSON values is read back exactly, in partial and complete parses, whatever follows |
| XmlForms.ConfiguredIsReadable | app/src/main/cpp/llama/common/chat-parser.cpp:882-967 | the literals of MiniMax-M2, Qwen3-Coder, Kimi-K2, Apriel 1.5 and MiMo, and of GLM 4.5 (1057-1070) and Seed-OSS (1384-1396), can be told apart |
| XmlForms.ConfiguredCallsAreRead | app/src/main/cpp/llama/common/chat-parser.cpp:882-967 | so in each of the seven formats the written calls are read back |
| XmlForms.UntaggedToolIsGood | app/src/main/cpp/llama/common/chat-parser.cpp:882-911 | in MiniMax-M2, Qwen3-Coder and Seed-OSS every call is among these whose name, keys and text values lack the first letter of what ends them; other values are JSON |
| XmlForms.GlmToolIsGood | app/src/main/cpp/llama/common/chat-parser.cpp:1057-1070 | so it is in GLM 4.5, with or without arguments |
| XmlForms.JsonToolIsGood | app/src/main/cpp/llama/common/chat-parser.cpp:913-967 | in Kimi-K2, Apriel 1.5 and MiMo every call is whose name holds no brace and no first letter of the separator, whose keys hold no quote, and whose values are JSON |
| XmlSound.AcceptedIsWritten | app/src/main/cpp/llama/common/chat-parser-xml-toolcall.cpp:298-633 | whatever a complete parse accepts is a list of calls written in the format with white space before its literals, and the calls added are those |
| XmlDump.CutIs | app/src/main/cpp/llama/common/chat-parser-xml-toolcall.cpp:313-330 | the flag, what is behind it and a quote before it are cut off |
| XmlPartial.TakenGrows | app/src/main/cpp/llama/common/chat-parser-xml-toolcall.cpp:466-582 | what is taken of a text before a literal that has not come only grows, and is never more than the text |
| XmlPartial.BrokenOffCall | app/src/main/cpp/llama/common/chat-parser-xml-toolcall.cpp:298-633 | an input that breaks off inside a call, between its arguments, in a key, its separator, a value or its end, adds the complete calls and that one with what is known of its arguments |
| XmlPartial.HealedValueWaits | app/src/main/cpp/llama/common/chat-parser-xml-toolcall.cpp:524-540 | a JSON value at the end of the input is sent up to where it was healed |
| XmlStreaming.LaterExtends | app/src/main/cpp/llama/common/chat-parser-xml-toolcall.cpp:298-633 | from one place where the input breaks off to a later one, in the same or another call, the message is only added to |
| XmlStreaming.CallCompletes | app/src/main/cpp/llama/common/chat-parser-xml-toolcall.cpp:586-609 | what was sent of a call begins the complete call |
| XmlStreaming.CallsStream | app/src/main/cpp/llama/common/chat-parser-xml-toolcall.cpp:298-633 | so both parses wait, the deltas between their messages exist, and they lead the client from one to the other |
| XmlStreaming.BrokenOffName | app/src/main/cpp/llama/common/chat-parser-xml-toolcall.cpp:409-428 | within a name nothing of the call is sent; once its separator begins, the name and an open brace |
| XmlStreaming.BrokenOffBehind | app/src/main/cpp/llama/common/chat-parser-xml-toolcall.cpp:399-405 | behind complete calls, and within the opening of the next one, these calls are sent |
| XmlStreaming.BrokenOffStart | app/src/main/cpp/llama/common/chat-parser-xml-toolcall.cpp:386-398 | within the opening of the scope nothing is sent |
| XmlTagStreams.FirstValueStreams | app/src/main/cpp/llama/common/chat-parser.cpp:882-911 | in the formats made of tags, in plain terms: what is sent while the first value comes |
| XmlRepeatedKeys.RepeatedKeyIff | app/src/main/cpp/llama/common/chat-parser-xml-toolcall.cpp:313-343 | where a value begins, what is sent adds to what was sent exactly if its key is new in the call |
| XmlUndefined.NameIsUndefinedIff | app/src/main/cpp/llama/common/chat-parser-xml-toolcall.cpp:409-428 | exactly when the name is read through an empty optional |
| XmlUndefined.QuietIff | app/src/main/cpp/llama/common/chat-parser-xml-toolcall.cpp:345-376 | no end of a tool is found exactly if none begins anywhere, an alternative one only counting before the end of the scope |
| XmlUndefined.OthersAreDefined | app/src/main/cpp/llama/common/chat-parser-xml-toolcall.cpp:298-633 | a format whose literals let no such end through never reads an empty optional, on any input |
| XmlUndefined.PlainEndsAreDefined | app/src/main/cpp/llama/common/chat-parser-xml-toolcall.cpp:298-633 | nor does one without an alternative end of a tool |
| XmlUndefined.UndefinedIsPossibleIff | app/src/main/cpp/llama/common/chat-parser-xml-toolcall.cpp:298-633 | some input makes the whole parse read an empty optional exactly if the format has an alternative end that can stand, not counting, before the separator |
| XmlUndefined.BracedNameIsUndefined | app/src/main/cpp/llama/common/chat-parser.cpp:932-949 | an input on which Apriel 1.5 does so, in partial and complete parses |
| XmlUndefined.OnlyAprielIsUndefined | app/src/main/cpp/llama/common/chat-parser.cpp:882-967 | no other configured format can be made to do so |
| LoraTensor.Make | app/src/main/cpp/llama/convert_lora_to_gguf.py:46-54 | the constructor accepts exactly the pairs that meet its two assertions and keeps them as they are |
| LoraTensor.Dense | app/src/main/cpp/llama/convert_lora_to_gguf.py:122-125 | the shape of the dense tensor is that of B with the last extent of A, as the property shape gives it |
| LoraIndexing.BatchShapes | app/src/main/cpp/llama/convert_lora_to_gguf.py:99-115 | both indexed factors keep the same batch axes, and A still broadcasts exactly if no slice cuts an axis that A has for itself |
| LoraIndexing.BatchSource | app/src/main/cpp/llama/convert_lora_to_gguf.py:99-115 | the indexed A is read where the dense tensor would have read it |
| LoraSlicing.SlicesStandForSlices | app/src/main/cpp/llama/convert_lora_to_gguf.py:99-115 | slices of rows and columns with whole batch axes: the result stands for the slice of the dense tensor |
| LoraSlicing.IntegersDoNotStand | app/src/main/cpp/llama/convert_lora_to_gguf.py:99-115 | an integer for the row or the column fails or leaves an axis too many |
| LoraSlicing.IndexingIsFaithfulIff | app/src/main/cpp/llama/convert_lora_to_gguf.py:99-115 | tuple indexing is indexing of the dense tensor exactly if rows and columns are sliced and batch axes of A are given integers or taken whole |
| LoraShorthand.FirstIsFaithfulIff | app/src/main/cpp/llama/convert_lora_to_gguf.py:67-76 | one integer or slice is indexing of the dense tensor exactly if it fits the first axis of A |
| LoraShorthand.PlainTuple | app/src/main/cpp/llama/convert_lora_to_gguf.py:77-98 | short tuples are padded with full slices |
| LoraShorthand.TrailingEllipsisIsMeant | app/src/main/cpp/llama/convert_lora_to_gguf.py:77-98 | behind other indices an ellipsis at the end stands for full slices of all axes that are left; on its own it is refused |
| LoraShorthand.EllipsisTuple | app/src/main/cpp/llama/convert_lora_to_gguf.py:81-97 | the index that a tuple with an inner ellipsis is given |
| LoraShorthand.GivenIsMeantIff | app/src/main/cpp/llama/convert_lora_to_gguf.py:81-97 | that index is literally the one PyTorch means exactly if the other indices are half of the axes, or fewer with only full slices behind the ellipsis |
| LoraEllipsis.AxesStandForIff | app/src/main/cpp/llama/convert_lora_to_gguf.py:99-115 | for any tensor of the right rank: the result stands for it exactly if the index fits the pair and gives that tensor |
| LoraEllipsis.EllipsisStandsForMeantIff | app/src/main/cpp/llama/convert_lora_to_gguf.py:81-115 | for every pair of given shapes with positive rank the result is what PyTorch means exactly if the expansion fits the pair and picks the same entries |
| LoraEllipsis.EllipsisOfPairIff | app/src/main/cpp/llama/convert_lora_to_gguf.py:81-115 | the same for one pair, of any rank |
| LoraEllipsis.SameSelectionsChooseSame | app/src/main/cpp/llama/convert_lora_to_gguf.py:81-97 | slices that select the same axis by axis pick the same entries |
| LoraEllipsis.WholeSliceIsHarmless | app/src/main/cpp/llama/convert_lora_to_gguf.py:81-97 | `t[..., 0:]` on four axes is expanded to another index but gives what is meant |
| LoraEllipsis.EllipsisCutsOtherAxis | app/src/main/cpp/llama/convert_lora_to_gguf.py:81-97 | `t[..., 0:1]` on four axes does not |
| LoraChoices.SameChoiceIff | app/src/main/cpp/llama/convert_lora_to_gguf.py:81-115 | two indices pick the same entries of every tensor of a shape exactly if they leave the same shape and it is empty or they pick the same on every axis |
| LoraChoices.EllipsisByAxesIff | app/src/main/cpp/llama/convert_lora_to_gguf.py:81-115 | so what an ellipsis gives is what is meant exactly if the expansion fits the pair and picks the same axis by axis |
| LoraReshaping.ReshapeIsFaithful | app/src/main/cpp/llama/convert_lora_to_gguf.py:146-155 | a reshape that succeeds is the reshape of the dense tensor, exactly if the element counts agree, which a positive rank forces |
| LoraReshaping.ReshapeSucceedsIff | app/src/main/cpp/llama/convert_lora_to_gguf.py:146-155 | with something to multiply, it succeeds exactly if the last extent and the element count are kept and A has no batch of its own |
| LoraReshaping.ReshapeFillsUnknowns | app/src/main/cpp/llama/convert_lora_to_gguf.py:136-155 | extents given as -1 are filled so that the result is the dense tensor in its new shape |
| LoraReshaping.PermuteIsFaithful | app/src/main/cpp/llama/convert_lora_to_gguf.py:163-174 | for a permutation of the axes, success is exactly one of the two supported forms and permutes the dense tensor |
| LoraJoining.StackIsFaithful | app/src/main/cpp/llama/convert_lora_to_gguf.py:200-207 | stacking succeeds exactly for equal shapes and stacks the dense tensors |
| LoraJoining.CatOfMatricesIsFaithful | app/src/main/cpp/llama/convert_lora_to_gguf.py:217-221 | matrices that share A: joining the rows of the Bs joins the rows of the products |
| LoraJoining.CatOfBatchesIsFaithful | app/src/main/cpp/llama/convert_lora_to_gguf.py:212-216 | with batches whose A has its own extents, joining both factors joins the dense tensors |
| LoraJoining.CatOfBatchesIsFaithfulIff | app/src/main/cpp/llama/convert_lora_to_gguf.py:212-216 | for two or more nonempty tensors that is exactly when the result stands for the joined tensor |
| LoraSuccess.TransposeSucceedsIff | app/src/main/cpp/llama/convert_lora_to_gguf.py:176-180 | for all axes: transpose succeeds exactly if both exist and the last one stays, A having no batch of its own, or a matrix is turned over; then two axes of the dense tensor are exchanged |
| LoraSuccess.CatSucceedsIff | app/src/main/cpp/llama/convert_lora_to_gguf.py:208-223 | matrices are joined exactly if they share A, batches if both factors have the same extents behind the first |
| LoraSuccess.ReshapeWithUnknownsSucceedsIff | app/src/main/cpp/llama/convert_lora_to_gguf.py:130-155 | with something to multiply, reshape succeeds exactly if some extent fills all the unknown ones, the last axis stays, and A has no batch of its own |
| LoraFailures.BatchSliceFails | app/src/main/cpp/llama/convert_lora_to_gguf.py:99-115 | `t[0:1, :, :]` with two batches in A and in B does not stand for the slice |
| LoraFailures.SharedBatchesFail | app/src/main/cpp/llama/convert_lora_to_gguf.py:212-216 | joining a pair with itself whose two batches share one A does not stand for the joined tensor |
| LoraFailures.RanklessReshapeFails | app/src/main/cpp/llama/convert_lora_to_gguf.py:146-155 | a pair of rank zero for one entry is reshaped to two, which is an error for the dense tensor |
| Base64.Encode | app/src/main/cpp/llama/common/base64.hpp:79-144 | the loop over groups of three bytes computes the encoding |
| Base64.EncodedSize | app/src/main/cpp/llama/common/base64.hpp:338-341 | the encoded length is the required size |
| Base64.SextetOf | app/src/main/cpp/llama/common/base64.hpp:344-388 | every accepted character has a value of six bits |
| Base64.SymbolsAreRead | app/src/main/cpp/llama/common/base64.hpp:344-388 | each symbol of an alphabet is read as its value by that alphabet and by detection, which stays compatible |
| Base64.DecodeInPlace | app/src/main/cpp/llama/common/base64.hpp:199-243 | decoding in place gives the decoding of the text as it was; no byte is overwritten before it is read |
| Base64.DecodeUndoesEncode | app/src/main/cpp/llama/common/base64.hpp:199-243 | decoding an encoding gives the bytes back, with either alphabet, detected or not, strictly or loosely |
| Base64.AcceptedIff | app/src/main/cpp/llama/common/base64.hpp:199-243 | exactly which texts are accepted, and the exact decoded length, which stays within the maximum |
| Base64.TestVectors | app/src/main/cpp/llama/common/base64.hpp:79-144 | test vectors of section 10 of RFC 4648, and bytes on which the alphabets differ |
| CommonBlocks.RunIsLongest | app/src/main/cpp/llama/common/common.cpp:1505-1521 | a cell of the table is the longest common block that ends there |
| CommonBlocks.CommonLcs | app/src/main/cpp/llama/common/common.cpp:1483-1530 | two rolling rows compute the length of the longest common contiguous block |
| CommonBlocks.BlockIsNotSubsequence | app/src/main/cpp/llama/common/common.cpp:1483-1530 | a longer common subsequence exists for [1, 2, 3] and [1, 3], so the name and comment do not describe the result |
| TextAlgorithms.StringJoin | app/src/main/cpp/llama/common/common.cpp:492-501 | the values with separators between them |
| TextAlgorithms.StringSplit | app/src/main/cpp/llama/common/common.cpp:503-517 | the pieces between leftmost occurrences; the scan ends |
| TextAlgorithms.StringReplaceAll | app/src/main/cpp/llama/common/common.cpp:442-457 | replacing is splitting and joining with the replacement, even if that holds the search text |
| TextAlgorithms.JoinUndoesSplit | app/src/main/cpp/llama/common/common.cpp:503-517 | joining the pieces with their delimiter gives the string back |
| TextAlgorithms.PiecesAreSplit | app/src/main/cpp/llama/common/common.cpp:503-517 | no piece holds or reaches into a delimiter |
| TextAlgorithms.SplitUndoesJoinIff | app/src/main/cpp/llama/common/common.cpp:492-517 | splitting undoes joining exactly for lists of such pieces |
| TextAlgorithms.ProcessEscapes | app/src/main/cpp/llama/common/common.cpp:608-643 | unescaping in place gives the unescaped form of the string as it was; no character is overwritten before it is read |
| TextAlgorithms.UnescapeUndoesEscape | app/src/main/cpp/llama/common/common.cpp:608-643 | unescaping the escaped form of any string gives the string |
| TextAlgorithms.OneLetterEscapes | app/src/main/cpp/llama/common/common.cpp:608-643 | what each one-letter escape stands for |
| TextAlgorithms.HexadecimalIsRead | app/src/main/cpp/llama/common/common.cpp:608-643 | every byte is read from its two hexadecimal digits, in either case |
| TextAlgorithms.HexPairIff | app/src/main/cpp/llama/common/common.cpp:608-643 | exactly which two characters are taken as a number |
| JsonArguments.ConstructedMapper.Map | app/src/main/cpp/llama/common/chat-peg-parser.cpp:64-124 | each event updates message, count and pending quote as specified |
| JsonArguments.ArgumentsRun | app/src/main/cpp/llama/common/chat-peg-parser.cpp:86-116 | the text emitted after any list of arguments |
| JsonArguments.TextsRun | app/src/main/cpp/llama/common/chat-peg-parser.cpp:25-36 | over any run: the last reasoning and content, trimmed, each in its field, and one call for every tool that opens |
| JsonArguments.ArgumentsAreTheObjectIff | app/src/main/cpp/llama/common/chat-peg-parser.cpp:64-124 | the arguments are the JSON object of names and values in order exactly if every string argument but the last is closed |
| JsonArguments.PartialArgumentsGrow | app/src/main/cpp/llama/common/chat-peg-parser.cpp:99-104 | while a string value grows, the text sent stays a prefix of what is sent later and of the final arguments |
| CsvRow.ParseCsvRow | app/src/main/cpp/llama/common/arg.cpp:937-979 | the loop computes the fields of a row |
| CsvRow.RowReadsWritten | app/src/main/cpp/llama/common/arg.cpp:933-979 | every nonempty list of fields is read back from its quoted form (section 2 of RFC 4180) |
| CsvRow.MixedRowIsRead | app/src/main/cpp/llama/common/arg.cpp:937-979 | so is every list of fields that are quoted or plain, quotes inside plain fields being their own |
| CsvRow.RowsConcatenateIff | app/src/main/cpp/llama/common/arg.cpp:937-979 | a comma and more text add the fields of that text exactly if the row ends outside quotes |
| PacmanMap.MapIsTiles | app/src/main/assets/pacman/pacman.js:1126-1149 | the literal map and its closed form agree on every square |
| PacmanMap.FullMazePellets | app/src/main/assets/pacman/pacman.js:1126-1149 | the full map holds 182 biscuits and pills |
| PacmanMap.EatenPellet | app/src/main/assets/pacman/pacman.js:599-601 | emptying a square with a pellet lowers the count by one |
| PacmanMap.NoDeadEnds | app/src/main/assets/pacman/pacman.js:1126-1149 | every square of the path has a free neighbour to a side |
| PacmanMotion.OverlapsNoWall | app/src/main/assets/pacman/pacman.js:1126-1149 | what is well placed overlaps no wall |
| PacmanGhost.AddBoundedSkipsIff | app/src/main/assets/pacman/pacman.js:45-58 | for steps up to a whole square, exactly when a multiple of ten is jumped: off the grid at a negative coordinate, beyond the next one on either side |
| PacmanGhost.HiddenGhostSkips | app/src/main/assets/pacman/pacman.js:45-58 | a hidden ghost that leaves on the right comes back at -10, -6, -2 and 2, for all draws, and so skips 0 |
| PacmanGhost.AdvanceStaysInCorridor | app/src/main/assets/pacman/pacman.js:219-266 | one unblocked step keeps a ghost in the corridors |
| PacmanGhost.MoveStaysInCorridor | app/src/main/assets/pacman/pacman.js:219-266 | so does move, for all draws of directions |
| PacmanGhost.SomeDrawMoves | app/src/main/assets/pacman/pacman.js:240-247 | a blocked ghost always has a draw that moves it |
| PacmanGhost.GhostKeepsPace | app/src/main/assets/pacman/pacman.js:34-58 | one unit for a ghost that can be eaten, four for a hidden one, two otherwise, but not beyond the next whole square |
| PacmanGhost.GhostTurns | app/src/main/assets/pacman/pacman.js:219-266 | on a whole square a ghost turns to where it wants to go if there is floor, and then wants to go to a side |
| PacmanGhost.FrightTurnsRound | app/src/main/assets/pacman/pacman.js:96-104 | a pill turns a ghost round, being eaten hides it, both where it is |
| PacmanGhost.ResetStarts | app/src/main/assets/pacman/pacman.js:78-84 | where and how a ghost starts |
| PacmanGhost.LifeInCorridors | app/src/main/assets/pacman/pacman.js:78-104 | over every life of a ghost, with reversals, speeds, resets and all draws, it stays grid-aligned, in range and off the walls |
| PacmanGhost.GhostActor.ResetGhost | app/src/main/assets/pacman/pacman.js:78-84 | a ghost is put at its start, which is in the corridors |
| PacmanGhost.GhostActor.BecomeEatable | app/src/main/assets/pacman/pacman.js:96-99 | it turns round and stays in the corridors |
| PacmanGhost.GhostActor.BeEaten | app/src/main/assets/pacman/pacman.js:101-104 | it is hidden from then on and stays in the corridors |
| PacmanGhost.GhostActor.MoveGhost | app/src/main/assets/pacman/pacman.js:219-266 | the method refines the function |
| PacmanPlayer.StepStaysInCorridor | app/src/main/assets/pacman/pacman.js:389-424 | one step keeps the player in the corridors |
| PacmanPlayer.LooksInsideMaze | app/src/main/assets/pacman/pacman.js:426-428 | the square that the player looks up is inside the map |
| PacmanPlayer.MoveConservesPellets | app/src/main/assets/pacman/pacman.js:426-450 | pellets eaten and pellets left add up to the same, and the last one is reported |
| PacmanPlayer.User.MoveUser | app/src/main/assets/pacman/pacman.js:389-453 | the method refines the function |
| PacmanGame.PlayerMovedKeepsSound | app/src/main/assets/pacman/pacman.js:913-921 | the level is completed exactly when the map has become empty |
| PacmanGame.FrameKeepsSound | app/src/main/assets/pacman/pacman.js:956-1004 | every frame keeps the accounts of pellets and lives |
| PacmanGame.EveryGameIsSound | app/src/main/assets/pacman/pacman.js:816-1021 | in every reachable state eaten and left pellets make 182, lives are not negative, and active states, also paused ones, have a life |
| PacmanLaws.LivesAreAccounted | app/src/main/assets/pacman/pacman.js:294-307 | over every run without a new game: lives are what they were, plus one if the score passes ten thousand, minus the frames that end dying |
| PacmanLaws.NewGameLives | app/src/main/assets/pacman/pacman.js:826-863 | so from a new game on it is three, with the bonus, minus the deaths |
| PacmanLaws.DyingEnds | app/src/main/assets/pacman/pacman.js:857-863 | a death takes a life; with the last one the game waits, otherwise the level starts again |
| PacmanLaws.StateLasts | app/src/main/assets/pacman/pacman.js:956-1004 | countdown, pause and dying last 121, 11 and 61 frames, in which only the clock runs |
| PacmanLaws.PauseResumes | app/src/main/assets/pacman/pacman.js:835-855 | a paused game stands still under any frames and other keys and goes on as it was |
| PacmanLaws.ArrowTurns | app/src/main/assets/pacman/pacman.js:335-453 | on a whole square an arrow towards floor takes the player there |
| PacmanLaws.TouchesScore | app/src/main/assets/pacman/pacman.js:936-953 | n ghosts eaten in a frame, with c before them, give 25 n (2c + n + 1) points, and the last that matters decides the state |
| PacmanLaws.MoveScores | app/src/main/assets/pacman/pacman.js:426-450 | ten points for a biscuit, fifty for a pill: exactly one square that touches the player is emptied |
| PacmanLaws.NothingUnderPlayer | app/src/main/assets/pacman/pacman.js:426-450 | a moving player on a whole square leaves no pellet there |
| PacmanLaws.NewGameBegins | app/src/main/assets/pacman/pacman.js:816-834 | the full maze, three lives, no points, the first level and the countdown |
| PacmanLaws.LevelEnds | app/src/main/assets/pacman/pacman.js:1006-1021 | after the last pellet the next level begins and keeps what was earned; a pill resets the count of eaten ghosts |
| PacmanLaws.TunnelWraps | app/src/main/assets/pacman/pacman.js:389-424 | the tunnel leads from one side to the other |
| PacmanGame.Pacman.OnKey | app/src/main/assets/pacman/pacman.js:835-855 | the method refines the key transition |
| PacmanGame.Pacman.MainLoop | app/src/main/assets/pacman/pacman.js:956-1004 | the method refines the frame transition |

## Left out

- Text.Find: `std::string::find` itself belongs to the C++ library; here it is the least occurrence by definition.
- XmlToolCalls.TryConsumeXmlToolCalls: the cursor after a common_chat_msg_partial_exception is only known to be within the input, because the caller does not use it.
- XmlUndefined.UndefinedIsPossibleIff: for partial parses, formats in which an end of a tool holds the last letter of its opening are not covered; needs a visible character that occurs in no literal.
- XmlPartial.BrokenOffCall: JSON is taken to be written member by member and character by character, and truncation to keep whole characters (see TruncationGrows); a broken-off JSON value in the formats that write JSON is only followed to what was healed (HealedValueWaits), since healing is not part of this model.
- XmlSound.AcceptedIsWritten: a partial parse also accepts an end of the scope that has only begun.
- XmlForms.ConfiguredCallsAreRead: whether thinking may hold tool calls (`allow_toolcall_in_think`) belongs to the loop around the parser.
- LoraEllipsis.EllipsisStandsForMeantIff: a rank of zero, where every pair stands for zeros, is not covered.
- GbnfExcluding.MakeGbnfExcluding: bytes outside ASCII, which a character class of the grammar takes for code points.
- XmlSpec.HealedCall: where the code asserts that a healed value contains its marker or ends in a brace, the model keeps the text as it is.
- LoraSuccess.TransposeSucceedsIff: axes out of range are an error in Python before the method is reached and an `Err` here.
- LoraReshaping.PermuteIsFaithful: covers permutations of the axes; an axis beyond the rank, which the code shifts by the rank before PyTorch sees it, is not covered.
- LoraReshaping.ReshapeFillsUnknowns: which of several errors is raised for a shape that PyTorch refuses is not distinguished.
- Base64.DecodeInPlace: the template over other iterators is the same loop writing elsewhere; on an error the overwritten prefix is not described.
- TextAlgorithms.StringSplit: an empty delimiter, for which the loop of the original never ends, is excluded.
- JsonArguments.ConstructedMapper.Map: a name that arrives before any tool is open is excluded; `current_tool` is not initialised (`chat-peg-parser.h:91`), so that other tool events before the first tool are undefined there, while the model begins with no tool open and ignores them.
- LineEditor.LineEditor.Execute: the decoding of escape sequences from the terminal into commands, and Windows key codes.
- LineEditor.LineEditor.PutCodepoint: measuring the real cursor, negative and unknown widths, and line wrap; widths are nonnegative and trusted.
- What the terminal cells show, among it `replace_last`, which overwrites the character before the cursor when a line ends in a marker while the cursor is elsewhere.
- `SIZE_MAX` as the index of the history is an option here.
- The text form of the grammar (quoting and character classes) and the parser of that form; a grammar is an expression tree.
- Regular expressions, JSON healing, the PEG engine, Jinja templates and schema-to-grammar conversion, which are not part of this model.
- The other chat formats of `chat-parser.cpp`, and the loop around the XML parser that interleaves it with reasoning.
- `break_str_into_lines`, option tables, environment variables, files and model loading in `arg.cpp` and `common.cpp`.
- Data types and the dictionary of partial tensors in `convert_lora_to_gguf.py`; entries are integers, so that no rounding is involved, and index tensors are not indices here.
- Drawing, sound and timers of the game; distances between ghosts and the player; the recursion of a ghost's move, which ends with probability one, stops here when its draws run out.
- Device, network, process and user-interface code of the application.
