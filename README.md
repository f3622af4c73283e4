# Syntax Companion: chat stream parser and page state

Syntax Companion is a single-page React application. It shows code examples for programming topics in Java, Python, C and C++. It also has an AI chat panel whose answers are streamed from a server. This project models the parts of the application that have behaviour, and proves properties of them in Dafny:

- **`streamChat`** (`StreamChat`, `StreamChatProofs`). This is the incremental line parser for the streamed answer: a simplified form of the `text/event-stream` format of the HTML Living Standard, section 9.2.
  - The body arrives as a sequence of already-decoded text chunks.
  - The parser appends each chunk to a buffer and cuts off complete lines at the first `\n`, stripping one trailing `\r`.
  - It skips comment, blank and non-`data: ` lines.
  - For each remaining line it stops on `[DONE]`, emits the delta, or puts a line that fails to parse back in front of the buffer.
  - When the body ends, it flushes what is left.
  - A failed response whose body is the JSON literal `null` makes reading `data.error` throw. `streamChat` then rejects without calling any callback, and `send`'s `catch` ends the loading (`Rejects`, `RunShape`).
  - `JSON.parse` together with the `choices[0].delta.content` lookup is an oracle `Parser` (a function parameter). The callbacks are a trace of `Delta`, `Done` and `Error` events.
  - The imperative code (`DrainLines`, `FlushBuffer`, `FlushPieces`, `ReadBody`, `StreamChat`) is proved equal to the functions `Drain`, `Flush`, `ReadLoop`, `Stream` and `Run`. Those functions carry the properties.
- **`send` and `upsertAssistant`** (`AIAssistant`). This is the chat panel's state.
  - Blank text, or text sent while an answer is loading, is ignored.
  - Otherwise the user's message is appended, and one assistant message grows out of the deltas.
- **`toggle`** (`LanguageFilter`). This is the language selection of the header.
- **`filtered`** (`CodeDisplay`). These are the examples shown for the selected languages.
- **The navigation state of the index page** (`IndexPage`). This covers the open topic, the open subtopic and the selected languages, the `selectedTopic`/`selectedSubtopic` lookups, and the handlers that change them.
- **The content types** (`Topics`) and the JavaScript library operations the code relies on (`JsString`: `trim`, `indexOf`, `split`, number rendering; `JsArray`: `filter`, `find`).

Three behaviours of the parser are proved as they are, because they are what the code does:

1. **A complete line that fails to parse never parses later.**
   - The put-back line is cut off again, unchanged, at the next chunk. More text cannot join it, because the newline separates them (`StuckDrain`, `StuckReadLoop`).
   - From then on the main loop emits nothing. Every later line is delivered by the final flush.
   - Without `[DONE]`, the trace is the same as if each line had been handled on its own: the deltas of all lines, in order, then `Done`. This holds however the body is cut into chunks (`StreamWithoutDone`, `StreamIgnoresChunking`).
   - The only text that waits for more input is a line whose newline has not arrived yet.
2. **The flush also runs after `[DONE]`.**
   - One might expect the flush to run only when no `[DONE]` was seen. The code at `AIAssistant.tsx:86-100` runs it unconditionally, and this model follows the code.
   - After `[DONE]`, the flush delivers the data lines that arrived in the same chunk. It does not deliver those in later chunks, which are never read.
   - So the trace then depends on how the body was cut into chunks (`FlushAfterDoneDependsOnChunking`).
3. **`[DONE]` inside the flush is passed over with `continue`.** It does not end the flush.

## Model

| member | source | states |
|---|---|---|
| JsString.Trim | syntax-companion-main/src/components/AIAssistant.tsx:69 | `trim` returns a slice of its input that neither starts nor ends with ECMAScript whitespace; what it cuts from each end is whitespace; it is empty exactly when the input is all whitespace |
| JsString.TrimIgnoresTrailingWhitespace | syntax-companion-main/src/components/AIAssistant.tsx:72 | whitespace after a payload does not change the trimmed payload |
| JsString.IndexOf | syntax-companion-main/src/components/AIAssistant.tsx:65 | `indexOf` gives -1 or a position inside the text that holds the character sought |
| JsString.IndexOfIsFirst | syntax-companion-main/src/components/AIAssistant.tsx:65 | `indexOf` gives -1 exactly when there is no newline, and otherwise the first one |
| JsString.IndexOfAppend | syntax-companion-main/src/components/AIAssistant.tsx:62-67 | a chunk appended to a buffer that already holds a newline does not move the first line or change it |
| JsString.IndexOfJoined | syntax-companion-main/src/components/AIAssistant.tsx:80 | in `line + "\n" + rest` with no newline in `line`, the first newline is the one after `line`, and the two slices give back `line` and `rest` |
| JsString.Split | syntax-companion-main/src/components/AIAssistant.tsx:88 | `split("\n")` gives at least one piece and no piece holds a newline |
| JsString.SplitAppend | syntax-companion-main/src/components/AIAssistant.tsx:88 | text appended after a newline changes only the pieces after it |
| JsString.SplitJoined | syntax-companion-main/src/components/AIAssistant.tsx:88 | a newline-free piece followed by a newline is the first piece of the split |
| JsString.JoinSplit | syntax-companion-main/src/components/AIAssistant.tsx:88 | splitting loses nothing: joining the pieces with newlines gives back the text |
| JsString.SplitJoin | syntax-companion-main/src/components/AIAssistant.tsx:88 | splitting the join of newline-free pieces gives back the pieces |
| JsString.NatToString | syntax-companion-main/src/components/AIAssistant.tsx:45 | the status in `Error ${resp.status}` is written with at least one decimal digit and no leading zero: a leading `0` means the number is 0, written as that single digit |
| JsString.NatToStringRoundTrip | syntax-companion-main/src/components/AIAssistant.tsx:45 | reading those digits back gives the status |
| JsArray.Filter | syntax-companion-main/src/components/LanguageFilter.tsx:26 | `filter` is never longer than its input, and holds exactly the accepted elements of its input |
| JsArray.FilterCounts | syntax-companion-main/src/components/CodeDisplay.tsx:78 | `filter` keeps each accepted element as many times as it occurs, and no other element |
| JsArray.FilterIsSubsequence | syntax-companion-main/src/components/CodeDisplay.tsx:78 | `filter` keeps the relative order of the elements it keeps |
| JsArray.FilterAppend | syntax-companion-main/src/components/LanguageFilter.tsx:26 | filtering a concatenation filters each part |
| JsArray.FilterKeepsAll | syntax-companion-main/src/components/CodeDisplay.tsx:78 | when every element is accepted, `filter` returns its input |
| JsArray.Find | syntax-companion-main/src/pages/Index.tsx:16 | `find` gives nothing exactly when no element is accepted, and otherwise the first accepted element |
| Topics.AllLanguagesComplete | syntax-companion-main/src/pages/Index.tsx:13 | the start-up selection names each of the four languages, none twice |
| StreamChat.ErrorMessage | syntax-companion-main/src/components/AIAssistant.tsx:43-47 | the error of a failed response whose body is not `null` is never empty. It is the body's `error` field when that is a non-empty string; otherwise it is `Error ` followed by at least one digit, with no leading zero, whose value is the status |
| StreamChat.StripCR | syntax-companion-main/src/components/AIAssistant.tsx:68 | the line is the result, followed by at most one carriage return |
| StreamChat.StripCRRemovesCR | syntax-companion-main/src/components/AIAssistant.tsx:68 | a carriage return is removed exactly when the line ends with one, and a line without one is kept unchanged; so the put-back line of line 80 is the stripped line |
| StreamChat.IsDataLineIsPrefix | syntax-companion-main/src/components/AIAssistant.tsx:70 | the character-wise data-line test is `startsWith("data: ")` |
| StreamChat.DataLineIsNotBlank | syntax-companion-main/src/components/AIAssistant.tsx:69-70 | a `data: ` line is neither a comment nor blank, so only the prefix decides whether a line is skipped |
| StreamChat.Act | syntax-companion-main/src/components/AIAssistant.tsx:68-82 | a line emits only a non-empty delta |
| StreamChat.ActCases | syntax-companion-main/src/components/AIAssistant.tsx:69-82 | what happens to a line: non-data lines are skipped; a line stops exactly when its payload is `[DONE]`; it is retried exactly when its payload is not `[DONE]` and fails to parse; it emits exactly the parsed content when that is present and non-empty |
| StreamChat.FlushLine | syntax-companion-main/src/components/AIAssistant.tsx:89-98 | the flush emits for a piece exactly what the main loop emits for that line. Its `continue` on `[DONE]` and its ignored parse failure both emit nothing, as a stop or a retry does |
| StreamChat.DrainLines | syntax-companion-main/src/components/AIAssistant.tsx:64-83 | the inner loop leaves the buffer, the deltas and the reason it stopped that `Drain` describes |
| StreamChat.FlushPieces | syntax-companion-main/src/components/AIAssistant.tsx:88-99 | the flush loop appends the events of each piece, in order |
| StreamChat.FlushBuffer | syntax-companion-main/src/components/AIAssistant.tsx:86-100 | the flush appends what `Flush` describes |
| StreamChat.ReadBody | syntax-companion-main/src/components/AIAssistant.tsx:54-102 | reading a body gives the trace `Stream` describes: the outer loop, the flush, then `onDone` |
| StreamChat.StreamChat | syntax-companion-main/src/components/AIAssistant.tsx:23-103 | `streamChat` reports the callbacks `Run` describes, and rejects exactly when a failed response's body is `null`, because reading `data.error` then throws |
| StreamChatProofs.RetryIsStable | syntax-companion-main/src/components/AIAssistant.tsx:79-81 | a line that failed to parse fails again once it is put back without its carriage return |
| StreamChatProofs.ActRetryStable | syntax-companion-main/src/components/AIAssistant.tsx:80 | the main loop's rule retries every put-back line again |
| StreamChatProofs.FirstLineHasNoNewline | syntax-companion-main/src/components/AIAssistant.tsx:66 | the line cut off the buffer holds no newline |
| StreamChatProofs.PutBackIsStuck | syntax-companion-main/src/components/AIAssistant.tsx:80 | the put-back buffer starts with a complete line that is retried |
| StreamChatProofs.StuckDrain | syntax-companion-main/src/components/AIAssistant.tsx:65-82 | on such a buffer the inner loop stalls at once, emits nothing and leaves the buffer stuck |
| StreamChatProofs.StuckAppend | syntax-companion-main/src/components/AIAssistant.tsx:62 | a new chunk does not unstick the buffer |
| StreamChatProofs.StalledIsStuck | syntax-companion-main/src/components/AIAssistant.tsx:79-81 | whenever the inner loop stalls, the buffer it leaves is stuck |
| StreamChatProofs.DrainPassesLine | syntax-companion-main/src/components/AIAssistant.tsx:65-78 | a first line that neither stops the inner loop nor is put back is handled on its own: its delta, if any, comes first, and the loop goes on with the text after it |
| StreamChatProofs.DrainHaltsAtLine | syntax-companion-main/src/components/AIAssistant.tsx:73-81 | a first line that stops the inner loop or is put back ends it with no delta; after `[DONE]` the buffer is the text after the line, after a parse failure it is the line, a newline and that text |
| StreamChatProofs.DrainAppend | syntax-companion-main/src/components/AIAssistant.tsx:62-67 | running the inner loop on a longer buffer handles the complete lines exactly as on the shorter one, then continues with what follows |
| StreamChatProofs.DrainBody | syntax-companion-main/src/components/AIAssistant.tsx:59-67 | the inner loop over a buffer followed by a whole body is the inner loop over the buffer and the first chunk, continued with the rest of the body |
| StreamChatProofs.LineDeltasAppend | syntax-companion-main/src/components/AIAssistant.tsx:88-99 | the deltas of two runs of lines are the deltas of each |
| StreamChatProofs.DrainPreservesLines | syntax-companion-main/src/components/AIAssistant.tsx:64-83 | the inner loop loses no line and invents none: its deltas, then those of the lines it left, are the deltas of the lines of its input |
| StreamChatProofs.StoppedPreservesLines | syntax-companion-main/src/components/AIAssistant.tsx:73-81 | the same, when the first line stops the loop or is put back |
| StreamChatProofs.PutBackKeepsLines | syntax-companion-main/src/components/AIAssistant.tsx:80 | a line put back after a parse failure emits nothing when it is cut off again |
| StreamChatProofs.FlushLinesIsLineDeltas | syntax-companion-main/src/components/AIAssistant.tsx:88-99 | the flush loop emits the deltas of its pieces, each taken on its own |
| StreamChatProofs.BlankLineIsSkipped | syntax-companion-main/src/components/AIAssistant.tsx:69 | a whitespace-only line emits nothing |
| StreamChatProofs.BlankTextIsSkipped | syntax-companion-main/src/components/AIAssistant.tsx:87 | no line of whitespace-only text emits anything |
| StreamChatProofs.BlankLinesAreSkipped | syntax-companion-main/src/components/AIAssistant.tsx:87-88 | for any rule that emits nothing on a blank line, no line of whitespace-only text emits anything |
| StreamChatProofs.FlushIsLineDeltas | syntax-companion-main/src/components/AIAssistant.tsx:86-100 | the flush emits the deltas of the lines of the leftover buffer; its `buffer.trim()` test skips only text that would emit nothing |
| StreamChatProofs.ActEmitsText | syntax-companion-main/src/components/AIAssistant.tsx:78 | the main loop's rule emits only non-empty text |
| StreamChatProofs.DrainEmitsDeltas | syntax-companion-main/src/components/AIAssistant.tsx:64-83 | the inner loop emits only non-empty deltas |
| StreamChatProofs.ReadLoopEmitsDeltas | syntax-companion-main/src/components/AIAssistant.tsx:59-84 | the outer loop emits only non-empty deltas |
| StreamChatProofs.LineDeltasAreDeltas | syntax-companion-main/src/components/AIAssistant.tsx:97 | the flush emits only non-empty deltas |
| StreamChatProofs.StreamShape | syntax-companion-main/src/components/AIAssistant.tsx:54-102 | a readable body reports non-empty deltas, then `onDone` once, last |
| StreamChatProofs.RunShape | syntax-companion-main/src/components/AIAssistant.tsx:43-102 | a call makes no callback exactly when it rejects. Every other call ends with exactly one terminal callback, as its last. It is an error exactly when the response failed or has no body; in that case the error is the only callback. Otherwise every callback before `onDone` is a non-empty delta |
| StreamChatProofs.StuckReadLoop | syntax-companion-main/src/components/AIAssistant.tsx:59-84 | once a complete line fails to parse, the main loop emits nothing more, never sees `[DONE]`, and stays stuck |
| StreamChatProofs.NeedMoreHasNoLine | syntax-companion-main/src/components/AIAssistant.tsx:65 | when the inner loop waits for more text, the buffer holds no complete line |
| StreamChatProofs.ReadLoopMatchesDrain | syntax-companion-main/src/components/AIAssistant.tsx:59-84 | the outer loop emits what one inner loop over the whole body emits, and sees `[DONE]` exactly when that loop does, whatever the chunking |
| StreamChatProofs.ReadLoopPreservesLines | syntax-companion-main/src/components/AIAssistant.tsx:59-84 | until `[DONE]`, the outer loop's deltas, then those of the lines left in the buffer, are the deltas of all lines read |
| StreamChatProofs.StreamWithoutDone | syntax-companion-main/src/components/AIAssistant.tsx:56-102 | without `[DONE]`, a body reports the delta of every line of its whole text, in order, then `onDone`. A trailing line without a newline is included, and so is every line after one that failed to parse |
| StreamChatProofs.StreamIgnoresChunking | syntax-companion-main/src/components/AIAssistant.tsx:59-102 | without `[DONE]`, two chunkings of the same text report the same callbacks |
| StreamChatProofs.StreamWithDone | syntax-companion-main/src/components/AIAssistant.tsx:72-102 | with `[DONE]`, a body reports the deltas of the lines before it, then the flush of a prefix of the text after it, then `onDone` |
| StreamChatProofs.DoneLeavesPrefix | syntax-companion-main/src/components/AIAssistant.tsx:59-73 | after `[DONE]`, the buffer left is a prefix of the text after it |
| StreamChatProofs.DoneStopsReading | syntax-companion-main/src/components/AIAssistant.tsx:59-73 | chunks after the one that brought `[DONE]` are never read |
| StreamChatProofs.StreamStopsAtDone | syntax-companion-main/src/components/AIAssistant.tsx:59-102 | a first chunk in which `[DONE]` is seen decides the whole trace: its deltas, the flush of its rest, `onDone` |
| StreamChatProofs.DoneLineStops | syntax-companion-main/src/components/AIAssistant.tsx:72-73 | a `[DONE]` line stops the inner loop and leaves exactly the text after it |
| StreamChatProofs.DoneChunkEnds | syntax-companion-main/src/components/AIAssistant.tsx:59-102 | a first chunk that reaches `[DONE]` without a delta reports only the flush of what followed `[DONE]` in it, then `onDone` |
| StreamChatProofs.FlushEmpty | syntax-companion-main/src/components/AIAssistant.tsx:87 | an empty buffer flushes nothing |
| StreamChatProofs.FlushOneLine | syntax-companion-main/src/components/AIAssistant.tsx:86-100 | the flush of one complete data line reports its delta |
| StreamChatProofs.FlushAfterDoneDependsOnChunking | syntax-companion-main/src/components/AIAssistant.tsx:59-102 | for any `[DONE]` line followed by a data line, one chunk reports the data line's delta and then `onDone`, while two chunks holding the same text report `onDone` alone |
| StreamChatProofs.DoneThenDataInOneChunk | syntax-companion-main/src/components/AIAssistant.tsx:86-100 | a data line in the chunk of `[DONE]` is reported by the flush |
| StreamChatProofs.DoneThenDataInTwoChunks | syntax-companion-main/src/components/AIAssistant.tsx:59-61 | a data line in a later chunk is never read |
| LanguageFilter.Toggle | syntax-companion-main/src/components/LanguageFilter.tsx:24-30 | `onChange` is not called exactly when the clicked language is the only one selected. Otherwise a language that was not selected is appended at the end, and a selected one is removed wherever it occurs, the others keeping their order |
| LanguageFilter.ToggleKeepsOthersInOrder | syntax-companion-main/src/components/LanguageFilter.tsx:25-28 | a click does not move the other languages: leaving out the clicked one, the selection is the same before and after |
| LanguageFilter.ToggleNeverEmpties | syntax-companion-main/src/components/LanguageFilter.tsx:26 | a non-empty selection without repetitions never becomes empty |
| LanguageFilter.ToggleCanEmptyRepeatedSelection | syntax-companion-main/src/components/LanguageFilter.tsx:25-26 | with a repeated language the length guard does not protect it: `[java, java]` becomes empty |
| LanguageFilter.ToggleKeepsNoDuplicates | syntax-companion-main/src/components/LanguageFilter.tsx:25-28 | a selection without repetitions gets none |
| LanguageFilter.ToggleRoundTrip | syntax-companion-main/src/components/LanguageFilter.tsx:24-30 | clicking an unselected language twice gives back a non-empty selection |
| LanguageFilter.ToggleTwiceMovesToEnd | syntax-companion-main/src/components/LanguageFilter.tsx:24-30 | clicking a selected language twice, when it is not the only one, moves it to the end |
| CodeDisplay.Filtered | syntax-companion-main/src/components/CodeDisplay.tsx:78 | the shown examples are exactly those whose language is selected, and there are never more of them than examples |
| CodeDisplay.FilteredKeepsOrder | syntax-companion-main/src/components/CodeDisplay.tsx:78 | the shown examples keep the subtopic's order |
| CodeDisplay.FilteredCounts | syntax-companion-main/src/components/CodeDisplay.tsx:78 | an example in a selected language is shown as often as it is listed; others are not shown |
| CodeDisplay.FilteredAllLanguages | syntax-companion-main/src/components/CodeDisplay.tsx:78 | with all four languages selected, every example is shown |
| IndexPage.TopicOf | syntax-companion-main/src/pages/Index.tsx:15-18 | `selectedTopic` is null exactly when no topic has the id, always so for a null id; otherwise it is the first topic with that id |
| IndexPage.SubtopicOf | syntax-companion-main/src/pages/Index.tsx:20-23 | `selectedSubtopic` is null without a topic or an id. Given a topic, it is null exactly when none of the topic's subtopics has the id; otherwise it is the first of them with that id |
| IndexPage.AfterBack | syntax-companion-main/src/pages/Index.tsx:30-36 | back closes only the subtopic when its id is a non-empty string, and otherwise only the topic |
| IndexPage.TwoBacks | syntax-companion-main/src/pages/Index.tsx:30-36 | two backs always close the topic. They close the subtopic too, except an empty-string subtopic id, which back takes for none |
| IndexPage.BackAtStart | syntax-companion-main/src/pages/Index.tsx:30-36 | back on the start page changes nothing |
| IndexPage.Navigation.constructor | syntax-companion-main/src/pages/Index.tsx:11-13 | the page starts with no topic, no subtopic and all four languages |
| IndexPage.Navigation.SelectTopic | syntax-companion-main/src/pages/Index.tsx:25-28 | choosing a topic opens it with no subtopic, and the languages stay |
| IndexPage.Navigation.Back | syntax-companion-main/src/pages/Index.tsx:30-36 | the back button moves the page as `AfterBack` says, and the languages stay |
| IndexPage.Navigation.NavigateFromAI | syntax-companion-main/src/pages/Index.tsx:38-41 | both ids are set unchecked; an unknown topic id gives no topic and no subtopic |
| IndexPage.Navigation.SelectSubtopic | syntax-companion-main/src/pages/Index.tsx:122 | choosing a subtopic sets only its id. The topic stays, and a subtopic of the open topic becomes the selected subtopic |
| IndexPage.Navigation.ClickLanguage | syntax-companion-main/src/pages/Index.tsx:57 | a language click applies `toggle` through `setSelectedLanguages`, keeps the page where it is, and keeps the selection non-empty without repetitions |
| AIAssistant.UpsertAssistant | syntax-companion-main/src/components/AIAssistant.tsx:125-131 | after an update the last message is the assistant's and holds the answer so far. A last assistant message is replaced in place; otherwise one is appended. The earlier messages stay |
| AIAssistant.AnswerAppend | syntax-companion-main/src/components/AIAssistant.tsx:124 | the accumulated answer of two runs of callbacks is the two answers one after the other |
| AIAssistant.ReplyStep | syntax-companion-main/src/components/AIAssistant.tsx:122-131 | each delta moves the reply on by exactly one `upsertAssistant`; `onDone` and `onError` leave it |
| AIAssistant.ReplyOfRun | syntax-companion-main/src/components/AIAssistant.tsx:43-131 | a failed response, a rejected call or a missing body adds no assistant message. A stream adds one exactly when its answer is non-empty, holding all of it |
| AIAssistant.DeltasAnswer | syntax-companion-main/src/components/AIAssistant.tsx:124 | non-empty deltas give a non-empty answer exactly when there is at least one |
| AIAssistant.ReplyIgnoresChunking | syntax-companion-main/src/components/AIAssistant.tsx:122-131 | without `[DONE]`, the final assistant message does not depend on the chunking |
| AIAssistant.Deliver | syntax-companion-main/src/components/AIAssistant.tsx:121-141 | the callbacks of one call, applied in order, turn the messages into the old ones followed by the reply: each delta goes through `upsertAssistant` with the answer so far; after a closing `onDone` or `onError` the panel is no longer loading, and a run of deltas alone leaves the loading flag as it was |
| AIAssistant.ChatPanel.constructor | syntax-companion-main/src/components/AIAssistant.tsx:106-108 | the panel starts with an empty query, no messages, and not loading |
| AIAssistant.ChatPanel.Send | syntax-companion-main/src/components/AIAssistant.tsx:115-148 | blank text, or text sent while loading, changes nothing. Otherwise the user's message is appended, then the reply of the callbacks; the query is cleared; loading ends, whether by `onDone`, by `onError` or by the connection error |
| AIAssistant.ChatPanel.Converse | syntax-companion-main/src/components/AIAssistant.tsx:133-147 | the `try`/`catch` of `send` adds the reply of the callbacks to the messages and always ends the loading: by a closing callback, or by the `catch` when `fetch` throws or `streamChat` rejects; the query is left alone |

## Left out

- `fetch`, its headers and bearer token, and the request body `[...messages, userMsg]` are not modelled. The response is a parameter: a status, the `error` field of its JSON body, and the chunks of a readable body. `Send` takes `None` for a request that throws.
- `resp.json()` is not modelled. Its outcome is part of the response: `NullJson` for a body that is the JSON literal `null`, which makes `data.error` throw; otherwise `ErrorField(e)`, where `e` is `None` for a body that is not JSON or has no string `error` field.
- StreamChat.ErrorMessage: models a string `error` field only. Another truthy value (a number, an object) would be passed to `onError` as it is.
- `TextDecoder` streaming UTF-8 decoding is not modelled; chunks are already-decoded text. JavaScript strings are UTF-16 code units, while Dafny characters are Unicode scalar values. Lone surrogates and a code point split between chunks are not modelled.
- `JSON.parse` with the optional chain `choices?.[0]?.delta?.content` is not modelled. It is the `Parser` oracle, which gives `Malformed` or the content string when present.
- StreamChat.Act: a non-string truthy `content` (the source casts it with `as string`) is not modelled.
- A `reader.read()` that rejects in the middle of a body is not modelled.
- `async`/`await` and React's batching of state updates are not modelled. Callbacks are applied in order after `streamChat` has produced them, which gives the same final state. Two overlapping `send` calls are not modelled, and neither is the stale `isLoading` of a closure.
- The toasts, `console.error`, the auto-scroll effect, Markdown rendering, JSX and styling are display only.
- `onNavigate` is passed to the chat panel, but the panel never calls it. `handleNavigateFromAI` is modelled on its own.
- `CodeBlock`'s clipboard copy and its `setTimeout`, and the syntax highlighter, are browser and library calls with no state the page reads.
- `TopicList.tsx` and `SubtopicList.tsx` are rendering only and are not part of this model.
- The content of `topics.ts` (titles, example code, icons) is data, not behaviour. `Navigation` takes the topics as a constructor parameter. `Topic` has no icon.
