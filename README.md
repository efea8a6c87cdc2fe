# Meeting summary analysis — a Dafny model of its core

The application is a browser front end. The user uploads meeting audio files and supplies an API key. The files are sent to a hosted generative model with a fixed prompt. The app then shows the reply, split into a three-line bullet summary and a detailed summary, next to a chat panel that asks follow-up questions against the same audio. This project models and proves the three pieces of sequential logic in that app.

* **The reply parser and error mapping** (`services/geminiService.ts`), in module `Gemini`.
  * `parseResponse` is a line-scanning state machine with three capture modes: none, three-line and detailed. It is modelled as the method `ParseResponse`. Its loop `Scan` is proved against a scan specification, `Parse`, which is stated over the lines read (`ScannedLine` records).
  * The guards of `analyzeAudio` and its empty-reply check are modelled as a method.
  * The ordered substring classification of error messages is a function, proved to follow a rule table.
  * The empty-reply fallback and the fixed failure message of `sendChatMessage` are modelled as a function.
* **The analysis lifecycle** (`App.tsx`), in module `Lifecycle`. It is a class `App` with the fields `apiKey`, `files`, `processingState`, `result` and `chatSession`.
  * Its methods are the handlers: file add, file remove, reset and analyze.
  * `HandleAnalyze` returns the sequence of processing states it sets along one run.
  * The Sidebar's button gating is stated over a processing state (`InFlight`, `Enabled`), and every run `HandleAnalyze` performs keeps the reset button, the file input, the remove buttons and the analyze button disabled until it ends.
* **The chat log** (`components/ChatSection.tsx`), in module `Chat`. It is a class `ChatLog` holding the messages, the input field and the loading flag. The invariant `Valid` keeps several facts:
  * the log opens with the welcome message;
  * question and answer alternate after it;
  * questions are never blank;
  * loading holds exactly while a question awaits its answer.

  One turn is `HandleSend` followed by `ReceiveAnswer`. The log only ever grows, by at most one message per call.

Module `Text` models the JavaScript string operations the core relies on:
* `trim`, with ECMAScript's whitespace and line-terminator set;
* `split('\n')`, which always yields at least one piece;
* `includes`;
* the decimal rendering of a file count.

Module `Types` holds the records of `types.ts`.

The external calls are given to the model as outcomes:
* the model request, as a `Reply`: a reply whose text may be missing, or an error whose message may be missing;
* the encoding of each file, as a total function from the file's position to `Option<string>`.

Every line is trimmed before it is tested or kept, so detailed lines are trimmed, not kept verbatim. The fallback text is trimmed too, and the fallback fires when the detailed buffer is blank after trimming, not only when it is empty. List-marker stripping is not idempotent (`StripNotIdempotent`). A marker-free reply re-parses to itself (`NoMarkerReparse`).

## Model

| member | source | states |
|---|---|---|
| Gemini.ParseResponse | services/geminiService.ts:94-132 | the parser's loop and fallback compute exactly `Parse` of the reply |
| Gemini.Scan | services/geminiService.ts:95-121 | the line loop collects exactly the bullets and the detailed lines that the scan specification assigns to the lines of the split reply |
| Gemini.ScanNext | services/geminiService.ts:101-120 | one iteration moves the capture mode, bullets and detailed buffer from their state after i lines to their state after i + 1 lines |
| Gemini.ScanLine | services/geminiService.ts:102-120 | one trimmed line: a marker line only switches the mode; otherwise the line appends its bullet or its detail text, with a trailing newline, according to the mode |
| Gemini.ScanStep | services/geminiService.ts:101-121 | one more line extends the mode, the bullet list and the detailed buffer by exactly that line's contribution |
| Gemini.KindOf | services/geminiService.ts:104-110 | a line is content exactly when it holds neither marker, and a three-line heading exactly when it holds the three-line marker, whichever other marker it holds |
| Gemini.KindOfTrim | services/geminiService.ts:102-107 | trimming a line never changes whether it holds either marker, so its kind is the same and testing the trimmed line is testing the raw line |
| Gemini.BothMarkersSelectThreeLines | services/geminiService.ts:104-110 | a line holding both markers switches to three-line mode from any mode, because that marker is tested first |
| Gemini.Contribute | services/geminiService.ts:112-120 | a line adds a bullet only in three-line mode and only when it is non-empty with a non-empty cleaned form; it adds detail text exactly in detailed mode; marker lines and lines seen in no mode add nothing |
| Gemini.ListMarkerLength | services/geminiService.ts:115 | the prefix the regex `[-*•\d\.]+` matches is the longest run of list-marker characters, and it is empty exactly when the text does not start with such a character |
| Gemini.ListMarkerRun | services/geminiService.ts:115 | every character of the matched prefix is a dash, star, bullet, digit or dot |
| Gemini.StripListMarker | services/geminiService.ts:115 | text not starting with a list-marker character is unchanged; otherwise the result is strictly shorter and does not start with whitespace |
| Gemini.StripListMarkerIsSuffix | services/geminiService.ts:115 | the regex replacement only removes a prefix: the result is a suffix of its input |
| Gemini.StripListMarkerRemoves | services/geminiService.ts:115 | every character removed is a list-marker character or whitespace |
| Gemini.CleanBullet | services/geminiService.ts:115 | the cleaned bullet is trimmed |
| Gemini.CleanBulletContains | services/geminiService.ts:115 | cleaning never creates text: anything the cleaned bullet contains, the line contained |
| Gemini.StripNotIdempotent | services/geminiService.ts:115 | cleaning is not idempotent: "- - A" cleans to "- A", which cleans again to "A" |
| Gemini.SingleMarkerStripped | services/geminiService.ts:115 | a single marker character and a space in front of trimmed text are removed, leaving exactly that text |
| Gemini.LeadingDigitsStripped | services/geminiService.ts:115 | the digit class also strips the leading digits of ordinary text: "2024년 회의" becomes "년 회의" |
| Gemini.FirstThree | services/geminiService.ts:129 | `slice(0, 3)` keeps a prefix of length min(3, n) |
| Gemini.ParseShape | services/geminiService.ts:94-132 | every parse has at most three bullets, each non-empty and trimmed, and a trimmed detailed summary |
| Gemini.BulletsAreClean | services/geminiService.ts:102-116 | every captured bullet is non-empty with no leading or trailing whitespace |
| Gemini.BulletOrigin | services/geminiService.ts:112-116 | every bullet is the cleaned form of a content line read in three-line mode |
| Gemini.BulletPosition | services/geminiService.ts:116 | the bullet of line j sits right after the bullets of the lines before j, so bullets keep line order |
| Gemini.BulletsGrow | services/geminiService.ts:116 | bullets only grow: those of the first m lines are a prefix of all of them |
| Gemini.FirstThreeKept | services/geminiService.ts:112-129 | once three bullets are captured, later lines cannot change the summary: it is the first three bullets in line order |
| Gemini.FirstThreeOfGrowing | services/geminiService.ts:116-129 | the first three of all bullets are the first three of any prefix that already has three |
| Gemini.SummaryWithBullets | services/geminiService.ts:124-129 | when any bullet was captured there is no fallback, and the summary is the first three bullets |
| Gemini.DetailOrigin | services/geminiService.ts:118-119 | every detailed line is the text of a content line read in detailed mode |
| Gemini.DetailRoundTrip | services/geminiService.ts:118-130 | the detailed buffer holds every detailed line in order, each followed by a newline, blank lines included: splitting it gives back those lines plus the empty tail |
| Gemini.TerminatedIsJoin | services/geminiService.ts:119 | appending each line with a newline is joining the lines with an empty last piece |
| Gemini.TerminatedSnoc | services/geminiService.ts:119 | appending a line to the buffer appends the line and a newline |
| Gemini.FiltersConcat | services/geminiService.ts:116-119 | the bullets and detailed lines of two runs of lines are those of the first run followed by those of the second |
| Gemini.FiltersSnoc | services/geminiService.ts:116-119 | one more contribution appends at most one bullet and at most one detailed line |
| Gemini.BulletSource | services/geminiService.ts:116 | every bullet comes from a bullet contribution |
| Gemini.DetailSource | services/geminiService.ts:119 | every detailed line comes from a detail contribution |
| Gemini.ReadLineFacts | services/geminiService.ts:95-110 | a line read holds no newline, and a content line holds no marker |
| Gemini.DetailLinesFacts | services/geminiService.ts:104-119 | no detailed line holds a marker or a newline |
| Gemini.DetailMarkerFree | services/geminiService.ts:104-130 | the trimmed detailed buffer holds neither marker |
| Gemini.BulletMarkerFree | services/geminiService.ts:104-116 | no bullet holds a marker |
| Gemini.NoMarkerInOutput | services/geminiService.ts:104-130 | on the normal path neither the summary nor the detailed summary holds any marker text |
| Gemini.HeadingOnlyFallsBack | services/geminiService.ts:104-130 | on the fallback path marker text can reach the output: a reply that is one heading line comes back as that line, marker included |
| Gemini.NoHeadingKeepsMode | services/geminiService.ts:99-110 | the mode stays "none" until the first heading line |
| Gemini.ModeAfterPreamble | services/geminiService.ts:99-110 | lines without a heading before the reply do not change the mode at any later line |
| Gemini.PreambleContributions | services/geminiService.ts:99-120 | lines before the first heading contribute neither bullets nor detail text |
| Gemini.PreambleDiscarded | services/geminiService.ts:99-130 | text without markers before a reply that does not fall back is discarded: prepending it leaves the parse unchanged |
| Gemini.LinesOfConcat | services/geminiService.ts:95-102 | the lines of two texts joined by a newline are the lines of each |
| Gemini.LinesOfMarkerFreeText | services/geminiService.ts:95-110 | text without markers has no heading line |
| Gemini.NoMarkerFallsBack | services/geminiService.ts:124-130 | text with no marker parses to no bullets and its own trimmed text |
| Gemini.NoMarkerReparse | services/geminiService.ts:124-130 | for marker-free text, parsing the detailed summary again gives the same result |
| Gemini.EmptyTextParse | services/geminiService.ts:95-130 | the empty reply parses to no bullets and an empty detailed summary |
| Gemini.BulletsWithBlankDetail | services/geminiService.ts:124-130 | with bullets but a blank detailed buffer there is no fallback, and the detailed summary is empty |
| Gemini.ClassifyError | services/geminiService.ts:76-90 | a missing error message becomes the empty message; a present one is either passed through or rewritten into one of the three fixed messages |
| Gemini.ClassifyFollowsRules | services/geminiService.ts:80-88 | the classifier returns the message of the first rule, in the order invalid key, missing MIME type, failed fetch, whose phrase the error message contains, and otherwise the message itself |
| Gemini.EmptyReplyPassesThrough | services/geminiService.ts:70-88 | the internal empty-reply error holds none of the phrases, so it comes through the classification unchanged |
| Gemini.EmptyReplyLacksPhrases | services/geminiService.ts:71-84 | the empty-reply message contains none of the three phrases |
| Gemini.AnalyzeAudio | services/geminiService.ts:35-92 | an empty key, then an empty file list, fail with their fixed messages and are not classified; otherwise the request succeeds exactly when the reply has non-empty text, with result `Parse` of that text; a thrown error is classified; an empty reply fails with the empty-reply message |
| Gemini.SendChatMessage | services/geminiService.ts:165-173 | the send succeeds exactly when the request does; an empty or missing reply becomes "답변을 생성할 수 없습니다."; a failure becomes the fixed failure message |
| Lifecycle.UploadingMessageNamesCount | App.tsx:68 | the uploading message opens with the decimal file count, and different counts give different messages |
| Lifecycle.ShownMessage | App.tsx:87-90 | an error's non-empty message is shown as is; a missing or empty one is replaced by '알 수 없는 오류가 발생했습니다.' |
| Lifecycle.WithoutIndexRemoves | App.tsx:51 | filtering out index i deletes exactly that element and keeps the rest in order; an index out of range keeps every element |
| Lifecycle.EncodeAll | App.tsx:70-75 | the encoded inputs exist exactly when every file encodes, one input per file in order, carrying the file's payload and media type |
| Lifecycle.GatingRules | components/Sidebar.tsx:34-182 | with `isProcessing` as App.tsx derives it at line 121, and the Sidebar's controls at lines 34, 80, 132, 163 and 182: at every state of a run but the last, reset, the file input, the remove buttons and analyze are all disabled; at its end the first three are back, and analyze is enabled exactly when the key is non-empty and there is a file, which is the handler's own guard |
| Lifecycle.App.constructor | App.tsx:10-36 | the initial state: empty key, no files, idle with an empty message, no result and no session |
| Lifecycle.App.SetApiKey | App.tsx:10-115 | setting the key changes nothing else |
| Lifecycle.App.HandleFileChange | App.tsx:38-48 | a non-empty selection is appended after the files in order, and the result and session are cleared with status idle and an empty message; an empty selection changes nothing |
| Lifecycle.App.HandleRemoveFile | App.tsx:50-55 | exactly the element at the index is removed, or none when it is out of range; the result and session are cleared and the status is idle either way |
| Lifecycle.App.HandleReset | App.tsx:57-62 | reset empties the files, clears the result and session, and sets idle with an empty message |
| Lifecycle.App.AnalyzeInputs | App.tsx:77-91 | after encoding: on a non-empty reply the state is completed with the parsed result and a session over the inputs; on a thrown error or an empty reply it is the error status with the shown message, and the previous result and session are kept |
| Lifecycle.App.Settle | App.tsx:79-90 | a parsed analysis is stored with a new session over the inputs and the completed status; an error shows its message and keeps the previous result and session; either way the run is no longer in flight |
| Lifecycle.App.HandleAnalyze | App.tsx:64-92 | with no key or no files nothing changes; otherwise the states set along the run are uploading with the file count, then the unknown-error state if encoding fails, or processing and then completed or error, so every state but the last is in flight (`IsRun`); the current status is not consulted; a failure keeps the previous result and session |
| Chat.AnswerText | components/ChatSection.tsx:47-65 | the model message of a settled turn: the reply text, the fallback for an empty reply, or the fixed apology when the request failed |
| Chat.ChatLog.constructor | components/ChatSection.tsx:13-22 | the log starts as the single welcome message from the model, with an empty input and no loading |
| Chat.ChatLog.SetInput | components/ChatSection.tsx:21 | typing, allowed only while no answer is awaited (the field is disabled while loading, line 139), changes only the input field |
| Chat.ChatLog.HandleSend | components/ChatSection.tsx:33-45 | with a non-blank input, a session and no turn in flight, the untrimmed input is appended as a user message and sent, the input is cleared and loading is set; otherwise nothing changes |
| Chat.ChatLog.ReceiveAnswer | components/ChatSection.tsx:47-68 | exactly one model message with the answer text is appended, and loading is cleared in both outcomes |
| Chat.ChatLog.HandleKeyDown | components/ChatSection.tsx:71-76 | Enter without Shift is a send; Shift+Enter and other keys change nothing |
| Text.Contains | services/geminiService.ts:104-107 | `includes`, as the marker tests here and the phrase tests at lines 80-84 use it: a block it finds is no longer than the text it is found in |
| Text.ContainsAt | services/geminiService.ts:104-107 | a block occurring at some position is contained |
| Text.ContainsPosition | services/geminiService.ts:104-107 | a contained block occurs at some position, which it returns: with `ContainsAt`, the text contains the block exactly when the block occurs in it |
| Text.Trim | services/geminiService.ts:102 | the trimmed text starts and ends with non-whitespace and is no longer than its input |
| Text.TrimIsSlice | services/geminiService.ts:102 | trimming keeps a contiguous slice of the text |
| Text.TrimDropsWhitespace | services/geminiService.ts:102 | everything removed before and after the slice is whitespace |
| Text.TrimIdempotent | services/geminiService.ts:102-130 | trimming twice is trimming once |
| Text.TrimContains | services/geminiService.ts:102-130 | anything the trimmed text contains, the text contains |
| Text.TrimKeepsContains | services/geminiService.ts:102-107 | a non-empty trimmed block the text contains is still contained after trimming |
| Text.OccurrenceInsideTrim | services/geminiService.ts:102-107 | every occurrence of a non-empty trimmed block lies inside the part trim keeps |
| Text.Split | services/geminiService.ts:95 | splitting on newlines yields at least one piece, no piece holds a newline, and joining the pieces gives back the text |
| Text.SplitJoin | services/geminiService.ts:95 | splitting the join of newline-free pieces gives back the pieces |
| Text.SplitConcat | services/geminiService.ts:95 | splitting two texts joined by a newline gives the pieces of each |
| Text.NatToString | App.tsx:68 | the decimal rendering of a count has only digits, no leading zero, and denotes the count |
| Text.NatToStringInjective | App.tsx:68 | different counts render differently |

## Left out

- The generative-model SDK calls (`generateContent`, `chats.create`, `sendMessage`) and the prompt text are foreign calls. Each request is given as its outcome, a `Reply`. `CreateChatSession` only records the key and the audio inputs it is seeded with.
- `fileToBase64` is FileReader I/O. Encoding is a given function that may fail. A FileReader rejection carries no message, so the unknown-error text is shown.
- Concurrency is not modelled: `Promise.all`, and the timing of the asynchronous steps. `handleReset`, `handleFileChange` and `handleRemoveFile` have no guard of their own, but the sidebar disables the controls that call them while a run is in flight (`GatingRules`), so `HandleAnalyze` is modelled as one atomic run. The key field stays enabled during a run. `handleAnalyze` keeps the key it started with, so a key typed during a run has the same effect as one typed after it.
- The chat request in flight is split into `HandleSend` and `ReceiveAnswer`. The model does not capture what the user does in between, beyond what `Valid` keeps.
- Rendering is not modelled: markup, styling, Markdown rendering, the status-dependent view in `components/ResultSection.tsx`, the mobile sidebar, the theme toggle, the clipboard and download helpers, and scrolling the chat.
- The file size display uses floating-point `toFixed`; it is not modelled. `AudioFile.size` is kept only as data.
- Message ids and timestamps come from the clock; they are left abstract and `ChatMessage` has neither.
- The console logging in the `catch` blocks is left out.
- Strings are sequences of Unicode scalar values, while JavaScript works on UTF-16 code units. Lengths and positions agree for text without astral characters; the markers contain an emoji, which JavaScript counts as two units and this model counts as one. Nothing in the parser depends on the count.
- The initial message `'AI 분석 중 오류가 발생했습니다.'` of `analyzeAudio`'s `catch` is always overwritten before it is used, so it does not appear.
- Gemini.ClassifyError: its own contract states only the range of the result. The ordered mapping is stated by `ClassifyFollowsRules`.
- A chat panel is shown only once an analysis has completed, and its session is fixed for the panel's lifetime. That view dispatch is rendering; `ChatLog` takes its session at construction.
