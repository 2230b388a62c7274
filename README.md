# CodeCritic review client: a Dafny model

This project models the client side of CodeCritic, a web app that sends a
piece of code to an AI reviewer and shows the review. It covers two paths:

- **Streaming review (CodeCritic 2.0).** `StreamingService.streamCodeReview`
  reads the server's response as a stream of text pieces. Each piece is
  appended to a buffer and routed one of two ways:
  - A buffer that holds a newline and starts with `data:` (after leading
    white space) is split into Server-Sent-Events-style `data: ` lines.
  - Any other buffer is cut into back-to-back `{...}` JSON objects by
    `extractJsonObjects`.

  Each record is dispatched on its `type` to `onChunk`, `onComplete` or
  `onError`. `reviewCodeFallback` reads the same stream into one string.
  The `useStreamingCodeReview` hook holds the screen state and feeds it from
  those callbacks.
- **One-shot review.** `CodeReviewService.reviewCode` posts the code, picks
  the review text out of the reply and classifies failures. The
  `useCodeReview` hook holds that screen's state.

Modules:

- `JsStrings`: the JavaScript string built-ins the code relies on:
  `trim`/`trimStart`, `startsWith`, `split`, `lastIndexOf`, and number
  formatting.
- `JsonScanner`: both copies of `extractJsonObjects`. They are specified by
  prefix functions (`LexAt`, `ScanAt`) and by an independent description of
  a complete top-level object (`TopLevelObject`).
- `StreamEvents`: the per-record dispatch, and the fallback's text stated
  against the streaming callbacks.
- `StreamingService`: the read loops of `streamCodeReview` and
  `reviewCodeFallback`, specified by folds (`StreamReads`, `FallbackReads`)
  over the pieces read.
- `StreamingReviewHook`: the `useStreamingCodeReview` state, as a class.
- `CodeReviewService`: `reviewCode`, as pure functions.
- `CodeReviewHook`: the `useCodeReview` state, as a class.

External effects are parameters:

- A `Response` value describes the network: how `fetch` ended, the decoded
  text of each `reader.read()`, and how the last read ended.
- `JSON.parse` is a function `parse` from payload text to `Parsed`.
- The UUID of a new session is `freshId`.
- The callbacks the service makes are returned in order as `Callback`
  values. The hook delivers them once the stream has ended.

## Model

| member | source | states |
|---|---|---|
| JsStrings.TrimStart | src/features/codecritic-v2/services/streamingService.js:131 | `trimStart` drops exactly a blank prefix: the result is a suffix of the input, the part removed is all white space, and the result does not start with white space |
| JsStrings.TrimStartEmptyIffBlank | src/features/codecritic-v2/services/streamingService.js:131-135 | `trimStart` leaves nothing exactly when the text is blank, the case `!line.trim()` skips: the two trims agree on what counts as empty |
| JsStrings.Split | src/features/codecritic-v2/services/streamingService.js:132 | `split('\n')` gives at least one piece, no piece holds the separator, and joining the pieces with the separator gives back the input |
| JsStrings.SplitSeparatorCount | src/features/codecritic-v2/services/streamingService.js:131-133 | `split` yields more than one piece exactly when the separator occurs, so a buffer with a newline always has at least one complete line |
| JsStrings.LastIndexOf | src/features/codecritic-v2/services/streamingService.js:110 | `lastIndexOf` returns -1 or an index where the needle occurs, and the needle occurs at no larger index |
| JsStrings.DecimalRoundTrip | src/features/codecritic-v2/services/streamingService.js:50 | the status number written into the HTTP error message reads back as the same number |
| JsonScanner.ScanAt | src/features/codecritic-v2/services/streamingService.js:85-94 | the open-object start is -1 or a position already read, and every closed span is a non-empty slice of what has been read |
| JsonScanner.ScanBraces | src/features/codecritic-v2/services/streamingService.js:64-98 | the scan loop returns the objects, the open-object start and the final depth that the prefix specification gives for the whole input |
| JsonScanner.ExtractJsonObjects | src/features/codecritic-v2/services/streamingService.js:64-116 | the streaming copy returns the specified objects and its leftover: the open object, else the text after `lastIndexOf` of the last object when depth is 0, else nothing |
| JsonScanner.ExtractJsonObjectsFallback | src/features/codecritic-v2/services/streamingService.js:229-259 | the fallback copy returns the same objects with its own leftover: the open object, else the text after `lastIndexOf` of the last object, else the whole input |
| JsonScanner.ScanInvStep | src/features/codecritic-v2/services/streamingService.js:72-98 | one more character preserves the scanner invariant: depth > 0 exactly when an object is open, spans are ordered and sound, and every complete top-level object read so far has a span |
| JsonScanner.ScanInvAll | src/features/codecritic-v2/services/streamingService.js:72-98 | the scanner invariant holds after every prefix of the input |
| JsonScanner.ObjectsAreTopLevelObjects | src/features/codecritic-v2/services/streamingService.js:85-94 | every returned object is the slice of a complete top-level object, starting with `{` and ending with its matching `}`; the objects come left to right without overlap; and every complete top-level object is returned |
| JsonScanner.UnfinishedObjectIsKept | src/features/codecritic-v2/services/streamingService.js:100-103 | when the scan ends inside an object, both leftovers are exactly the suffix from that object's `{`, and no returned object reaches into it |
| JsonScanner.LeftoverAtDepthZero | src/features/codecritic-v2/services/streamingService.js:104-114 | at depth 0 both copies agree. With no object the leftover is the whole input. Otherwise it is a suffix of the text after the last object, and all of it exactly when the last object's text does not recur further right |
| JsonScanner.LeftoversAgree | src/features/codecritic-v2/services/streamingService.js:249-257 | unless the depth ends negative, the two copies keep the same leftover |
| JsonScanner.LeftoverAtNegativeDepth | src/features/codecritic-v2/services/streamingService.js:104-114 | at negative depth the streaming copy keeps nothing. The fallback copy keeps the whole input if no object was found, otherwise a suffix of the text after the last object |
| JsonScanner.StrayBraceLeftovers | src/features/codecritic-v2/services/streamingService.js:249-257 | for `}x` neither copy finds an object; the streaming copy keeps nothing and the fallback copy keeps `}x` |
| JsonScanner.LastIndexOfSkipsRepeatedText | src/features/codecritic-v2/services/streamingService.js:107-113 | for `{}"{}"` the only object is `{}`, and because `lastIndexOf` finds the copy inside the string, only the closing quote is kept |
| JsonScanner.StringBodyStaysInString | src/features/codecritic-v2/services/streamingService.js:74-81 | inside a string, a body with no bare quote and every backslash followed by a character never leaves the string and never changes the depth; an escaped quote does not end it |
| JsonScanner.QuotedStringKeepsDepth | src/features/codecritic-v2/services/streamingService.js:74-84 | a whole quoted string read from outside any string returns the lexical state unchanged, with the depth constant throughout |
| JsonScanner.QuotedBracesIgnored | src/features/codecritic-v2/services/streamingService.js:74-96 | a quoted string met in the input leaves the scanner's depth and string state as they were, so braces inside it are not counted |
| JsonScanner.ConcatenatedObjectsExtracted | src/features/codecritic-v2/services/streamingService.js:88-94 | N balanced objects written back to back yield exactly those N strings, with an empty leftover in both copies |
| JsonScanner.SplitObjectWaitsForRest | src/features/codecritic-v2/services/streamingService.js:100-103 | a balanced object cut anywhere inside yields no object and is kept whole; with the rest appended it yields itself and nothing is left |
| StreamEvents.ErrorMessage | src/features/codecritic-v2/services/streamingService.js:147 | `message \|\| 'Streaming error'`: a falsy message gives `Streaming error`; a truthy message is kept as its text, a string as itself and any other value as its `String()` (which may be empty, as for `[]`) |
| StreamEvents.RecordCallbacks | src/features/codecritic-v2/services/streamingService.js:164-174 | dispatch: a `chunk` with string data gives `onChunk(data)`, `complete` gives `onComplete`, `error` gives `onError` with its message, and everything else (`connected`, unknown types, non-string data) gives nothing |
| StreamEvents.ChunkTextAppend | src/features/codecritic-v2/services/streamingService.js:284-300 | the chunk text of two runs of callbacks is the chunk text of the first followed by that of the second |
| StreamEvents.LineCallbacks | src/features/codecritic-v2/services/streamingService.js:135-152 | blank lines, lines without `data: ` and the `[DONE]` payload give nothing; a payload that does not parse goes to `onChunk` verbatim; a parsed one is dispatched |
| StreamEvents.ObjectCallbacks | src/features/codecritic-v2/services/streamingService.js:162-177 | an extracted object that does not parse is dropped; a parsed one is dispatched |
| StreamEvents.RecordText | src/features/codecritic-v2/services/streamingService.js:297-304 | the fallback's text for a record is the chunk text of the callbacks the streaming reader makes for it |
| StreamEvents.LineText | src/features/codecritic-v2/services/streamingService.js:276-289 | the fallback's text for a line, raw payloads included, is the chunk text of the streaming callbacks for that line |
| StreamEvents.ObjectText | src/features/codecritic-v2/services/streamingService.js:296-305 | the fallback's text for an object is the chunk text of the streaming callbacks for it |
| StreamEvents.LinesText | src/features/codecritic-v2/services/streamingService.js:276-290 | the fallback's text for a run of lines is the chunk text of the streaming callbacks for them, in order |
| StreamEvents.ObjectsText | src/features/codecritic-v2/services/streamingService.js:296-305 | the fallback's text for a run of objects is the chunk text of the streaming callbacks for them, in order |
| StreamingService.HttpErrorMessage | src/features/codecritic-v2/services/streamingService.js:49-51 | the message of a response that is not ok starts with `HTTP error! status: `, and the rest reads back as the status |
| StreamingService.StreamPass | src/features/codecritic-v2/services/streamingService.js:131-160 | one read: on the line path, the complete lines' callbacks with the partial last line kept; otherwise the extracted objects' callbacks with the streaming leftover kept |
| StreamingService.FallbackPass | src/features/codecritic-v2/services/streamingService.js:273-295 | one fallback read routes as the streaming reader does. On the line path it keeps the same buffer. Its text is the chunk text of the streaming callbacks |
| StreamingService.DispatchLines | src/features/codecritic-v2/services/streamingService.js:134-154 | the line loop makes the callbacks of its lines, in order |
| StreamingService.DispatchObjects | src/features/codecritic-v2/services/streamingService.js:161-178 | the object loop makes the callbacks of its objects, in order |
| StreamingService.ReadStream | src/features/codecritic-v2/services/streamingService.js:118-179 | the streaming read loop makes exactly the callbacks, and keeps the buffer, of the fold `StreamReads` over the pieces read |
| StreamingService.ReadOnce | src/features/codecritic-v2/services/streamingService.js:131-178 | one read's routing and dispatch over the grown buffer makes exactly the callbacks, and keeps exactly the buffer, of one streaming pass (`StreamPass`) |
| StreamingService.EndCallbacks | src/features/codecritic-v2/services/streamingService.js:183-194 | after the last read: `onComplete` at the natural end, nothing after an abort, `onError` with the message after any other failure |
| StreamingService.StreamCodeReview | src/features/codecritic-v2/services/streamingService.js:27-195 | blank code and a missing session each reach `onError` with their message, and no request is sent. An aborted fetch is silent; other fetch errors, a status that is not ok and a missing body reach `onError`. With a reader, the callbacks are those of the reads followed by the end callbacks, and the reader is released exactly when it was taken |
| StreamingService.AccumulateLines | src/features/codecritic-v2/services/streamingService.js:276-290 | the fallback's line loop appends the text of its lines, in order |
| StreamingService.AccumulateObjects | src/features/codecritic-v2/services/streamingService.js:296-305 | the fallback's object loop appends the text of its objects, in order |
| StreamingService.ReadFallback | src/features/codecritic-v2/services/streamingService.js:261-306 | the fallback read loop gives the text and buffer of the fold `FallbackReads` over the pieces read |
| StreamingService.ReadOnceFallback | src/features/codecritic-v2/services/streamingService.js:272-305 | one fallback read's routing and accumulation over the grown buffer gives exactly the text and buffer of one fallback pass (`FallbackPass`) |
| StreamingService.ReviewCodeFallback | src/features/codecritic-v2/services/streamingService.js:203-318 | fetch errors, a status that is not ok and a missing body fail with their error. With a reader, the result is the accumulated text at the natural end and the read error otherwise, and the reader is released exactly when it was taken |
| StreamingService.LinePathKeepsPartialLine | src/features/codecritic-v2/services/streamingService.js:132-133 | on the line path the new buffer is exactly the text after the last newline: it holds no newline, and the complete lines, a newline and the new buffer make up the old buffer |
| StreamingService.ObjectTextTakesBracePath | src/features/codecritic-v2/services/streamingService.js:131 | a buffer starting with `{` never takes the line path |
| StreamingService.FallbackMatchesStream | src/features/codecritic-v2/services/streamingService.js:283-304 | the fallback returns the in-order concatenation of the chunk data the streaming reader passes to `onChunk`, raw line payloads included, and keeps the same buffer, provided no stray `}` drives a brace pass below depth 0 |
| StreamingService.ChunkingInvariance | src/features/codecritic-v2/services/streamingService.js:119-179 | however a stream of back-to-back balanced objects is cut into reads, the reads together make the callbacks of those objects, in order, and nothing stays buffered: the result does not depend on where the network cut the text |
| StreamingService.ReadsOfObjects | src/features/codecritic-v2/services/streamingService.js:158-178 | after any reads whose text is a prefix of back-to-back balanced objects, the objects fully read have made their callbacks and the buffer holds exactly the start of the next object |
| StreamingService.LinePathDependsOnReads | src/features/codecritic-v2/services/streamingService.js:130-160 | for any parser that, like `JSON.parse`, rejects `hi {x}` and `{x}`: the text `data: hi {x}` plus a newline, read at once, is one `data: ` line whose payload is passed on verbatim as `onChunk("hi {x}")`; read with the newline in a later read, it calls nothing, because the first read has no newline, takes the brace path and drops `{x}` with the `data: hi ` before it. So chunking invariance fails off the brace path |
| StreamingService.KeptQuoteHidesNextObject | src/features/codecritic-v2/services/streamingService.js:107-113 | after a read of `{}"{}"`, the leftover found with `lastIndexOf` is the text `"`, so an object `{}` read next is taken as text inside a string and is never delivered: only the first `{}` makes its callbacks |
| StreamingService.BackToBackObjectsInOneRead | src/features/codecritic-v2/services/streamingService.js:159-178 | N complete objects in one read make the callbacks of those N objects, in order, and leave the buffer empty |
| StreamingService.SplitObjectAcrossReads | src/features/codecritic-v2/services/streamingService.js:159-160 | an object cut across two reads calls nothing on the first read and keeps its text; after the second read the callbacks and buffer are those of the whole object read at once |
| StreamingReviewHook.ChunkAppend | src/features/codecritic-v2/hooks/useStreamingCodeReview.js:30-36 | the text appended for a chunk: a bare string is appended whole; for an object, truthy `content` wins, else truthy `delta`, else nothing |
| StreamingReviewHook.ServiceChunk | src/features/codecritic-v2/services/streamingService.js:142 | a chunk made by the service appends exactly its content to the review, the empty content included |
| StreamingReviewHook.LastSignal | src/features/codecritic-v2/hooks/useStreamingCodeReview.js:43-59 | the last callback that is not a chunk: it sits at some position after which only chunks follow, and there is none exactly when every callback is a chunk |
| StreamingReviewHook.ErrorAfter | src/features/codecritic-v2/hooks/useStreamingCodeReview.js:52-53 | the error after some callbacks is the previous one if there is no `onError`, and otherwise the message of one of them |
| StreamingReviewHook.ErrorAfterIsLastError | src/features/codecritic-v2/hooks/useStreamingCodeReview.js:52-53 | once any `onError` was called, the error shown is the message of the last `onError` |
| StreamingReviewHook.StreamingReview.constructor | src/features/codecritic-v2/hooks/useStreamingCodeReview.js:8-16 | the initial state: empty code, review and chunks, not streaming, no error, no session, progress 0, no abort handle |
| StreamingReviewHook.StreamingReview.SetCode | src/features/codecritic-v2/hooks/useStreamingCodeReview.js:8 | the exported `setCode` state setter: `code` becomes the given text and every other field (review, streaming flag, error, session, progress, chunks, abort handle) is unchanged |
| StreamingReviewHook.StreamingReview.InitializeSession | src/features/codecritic-v2/hooks/useStreamingCodeReview.js:19-23 | the new id becomes the session and is returned; nothing else changes |
| StreamingReviewHook.StreamingReview.HandleChunk | src/features/codecritic-v2/hooks/useStreamingCodeReview.js:26-40 | the chunk is always added to `chunks`, and the review grows by the chunk's text; nothing else changes |
| StreamingReviewHook.StreamingReview.HandleComplete | src/features/codecritic-v2/hooks/useStreamingCodeReview.js:43-49 | streaming stops, progress becomes 100 and the abort handle is dropped; review, error and chunks are kept |
| StreamingReviewHook.StreamingReview.HandleError | src/features/codecritic-v2/hooks/useStreamingCodeReview.js:52-59 | the error becomes the message, streaming stops, progress becomes 0 and the abort handle is dropped; the review is kept |
| StreamingReviewHook.StreamingReview.DeliverAll | src/features/codecritic-v2/hooks/useStreamingCodeReview.js:26-59 | delivering callbacks in order grows the review by their chunk text and the chunks by their chunks. The last `onError` sets the error, and the last signal that is not a chunk decides streaming, progress and the abort handle. Progress stays 0 or 100 |
| StreamingReviewHook.StreamingReview.BeginStreaming | src/features/codecritic-v2/hooks/useStreamingCodeReview.js:62-82 | blank code only sets `Please enter some code to review`. Otherwise an existing session is reused or a new one created, a fresh unaborted abort handle is installed, and review, chunks, progress and error are reset with streaming on |
| StreamingReviewHook.StreamingReview.StartStreaming | src/features/codecritic-v2/hooks/useStreamingCodeReview.js:62-99 | after a full run the review is the chunk text of the service's callbacks and the error is that of its last `onError`. A natural end leaves streaming off with progress 100. A failure other than an aborted fetch or read leaves an error with progress 0; the service's one `onError` and the error shown carry its message: the fetch error's own, `HTTP error! status: <status>`, `Response body is not readable`, or the failed read's. An aborted fetch calls nothing and leaves no error |
| StreamingReviewHook.StreamingReview.ReviewCodeFallback | src/features/codecritic-v2/hooks/useStreamingCodeReview.js:102-125 | blank code only sets the error. Otherwise the session is reused or created, the review becomes the fallback's text. A failed fetch, a status that is not ok, a missing body and a failed read each leave an empty review and their own message as the error. Streaming is off at the end |
| StreamingReviewHook.StreamingReview.StopStreaming | src/features/codecritic-v2/hooks/useStreamingCodeReview.js:128-135 | a held abort handle is aborted and dropped, streaming stops and progress becomes 0; review and chunks are kept |
| StreamingReviewHook.StreamingReview.ClearAll | src/features/codecritic-v2/hooks/useStreamingCodeReview.js:138-150 | code, review, error, chunks, progress and session are reset, a held abort handle is aborted and dropped, and streaming stops |
| StreamingReviewHook.StreamingReview.ClearReview | src/features/codecritic-v2/hooks/useStreamingCodeReview.js:153-158 | review, error, chunks and progress are reset; code, session, streaming and the abort handle are kept |
| CodeReviewService.FirstStringField | src/services/codeReviewService.js:38-45 | the value of the first listed property that holds a string, with no earlier one holding a string; none exactly when no listed property holds a string |
| CodeReviewService.ReviewText | src/services/codeReviewService.js:36-50 | string data is returned as is; otherwise the first of `response`, `review`, `message`, `text` that holds a string gives the text, and the serialized data is returned when none holds a string |
| CodeReviewService.ClassifyError | src/services/codeReviewService.js:54-63 | an error with a response gives `Server error: ...`; one with only a request gives the network error; otherwise the error's own message, or `Unknown error occurred` when it is empty |
| CodeReviewService.ServerErrorNamesStatus | src/services/codeReviewService.js:56 | a server error message carries the status digits, which read back as the status, followed by ` - ` and the status text |
| CodeReviewService.ReviewCode | src/services/codeReviewService.js:21-64 | blank code fails with `Code cannot be empty` through the classifier; a reply gives its review text; a rejection gives the classified message |
| CodeReviewService.BlankCodeIgnoresReply | src/services/codeReviewService.js:23-25 | for blank code no request is made, and the answer is `Code cannot be empty` whatever the server would have replied |
| CodeReviewHook.CodeReview.constructor | src/hooks/useCodeReview.js:8-11 | the initial state: empty code and review, not loading, no error |
| CodeReviewHook.CodeReview.SetCode | src/hooks/useCodeReview.js:8 | the exported `setCode` state setter: `code` becomes the given text and review, loading flag and error are unchanged |
| CodeReviewHook.CodeReview.ReviewCode | src/hooks/useCodeReview.js:13-31 | blank code only sets the error, with loading and review unchanged. On success the review is the service's text and there is no error. On failure the error is the message and the review is kept. Loading is off after either outcome |
| CodeReviewHook.CodeReview.ClearReview | src/hooks/useCodeReview.js:33-36 | review and error are emptied; the code stays |
| CodeReviewHook.CodeReview.ClearAll | src/hooks/useCodeReview.js:38-42 | code, review and error are emptied |

## Left out

- Network I/O is not modelled: `fetch`, `response.body.getReader()`, `reader.read()`, `releaseLock()` and the axios client. A `Response` or `Reply` value stands for what they produced. Release of the reader is reported as a flag.
- `TextDecoder` is not modelled. The pieces are already-decoded text, and strings are sequences of characters rather than UTF-16 code units. Every character the scanner and the router inspect lies in the Basic Multilingual Plane: the braces, quote, backslash, newline and `data:` are ASCII, and every white-space character `trimStart` and `trim` drop is a single UTF-16 code unit. On such characters a character and a UTF-16 code unit agree.
- `JSON.parse` is a parameter. `JSON.stringify(data, null, 2)` is a text carried by the payload. `uuidv4` is the parameter `freshId`. The `timestamp: Date.now()` of each chunk is not modelled.
- `console.log`, `console.error` and `console.warn` are not modelled.
- React scheduling is not modelled: `useState` batching, stale closures and `useCallback` dependencies. Setters are immediate assignments.
- Callbacks that arrive while another action runs, such as `stopStreaming` during a stream, are not modelled. A run of the service completes inside `StartStreaming`, and its callbacks are delivered afterwards.
- The abort signal's effect on `fetch` and `reader.read()` is not modelled. An abort shows up only as an `AbortError` in the `Response`.
- Exceptions thrown by the callbacks themselves are not modelled. So is the hook's `catch` around `streamCodeReview`, which only such exceptions could reach.
- The request body of `reviewCodeFallback` is not modelled. It is `{ prompt: code }`, and the `sessionId` argument is never used. That function performs no validation of its own.
- StreamingService.FallbackMatchesStream: equality is claimed only when no brace pass ends at negative depth. After a stray `}` the two leftover rules differ, as `LeftoverAtNegativeDepth` and `StrayBraceLeftovers` show.
- StreamingReviewHook.StreamingReview.StartStreaming: the request body is not modelled. A previous stream's abort handle is replaced without being aborted, as in the code.
- `generateSessionId` is not modelled beyond `freshId`. The admin service, UI components, constants and configuration are outside this model.
- Where the last object's text recurs later in the buffer, the leftover found with `lastIndexOf` is shorter than the text after that object. The model follows the code. `LeftoverAtDepthZero` and `LastIndexOfSkipsRepeatedText` state the behaviour exactly, and `KeptQuoteHidesNextObject` shows an object lost in the next read because of it.
