# AI study assistant: the timer, the chat round trip and the summary export

A Dafny model of the logic at the core of a small study-assistant web application.

- **Focus timer** (`FocusTimer`): a Pomodoro clock. It has a 25-minute focus phase and a 5-minute break. A once-per-second tick counts it down. It also has a start/pause button, a reset button and a `MM:SS` display.
- **Server** (`ContentFilter`, `Reply`, `Server`, `PdfLayout`): the Flask back end.
  - A before-request content filter blocks off-topic questions: those containing "music", "game", "movie" or "social media".
  - The `/chat` endpoint reuses or creates a session, asks a language model, extracts the answer after the last `Assistant:` marker and stores the question and the answer.
  - The `/generate-pdf` endpoint checks its session id and lays out a one-line-per-message summary over as many pages as it needs.
- **Chat panel** (`ChatPanel`): the React component's `sendMessage` transition. It optimistically appends the question, reconciles with the answer or a fixed apology, and never retracts anything. The module also has the `downloadPDF` guard and file name.
- **Exchange** (`Exchange`): the two tiers put together. It covers how the panel reads each server response and one round of panel and server. It proves that answered rounds keep the panel's transcript and the server's stored history equal, and that the downloaded summary then lists exactly that transcript.

Shared pieces:

- `Text` holds the string operations both languages provide, stated for exactly the characters they act on:
  - decimal rendering and padding;
  - substring search;
  - the last field of a split;
  - Python and JavaScript whitespace trimming;
  - ASCII lower case and title case.
- `Wire` holds the message records and JavaScript/Python truthiness of session ids.
- `Wrappers` holds `Option`.

The language model is a parameter `llm: string -> Option<string>`: its output for a prompt, or `None` when the call raises. The database is the `Store` value:

- the set of session ids;
- each session's messages in insertion order;
- the next id to hand out.

The session's creation time, as the summary header prints it, is a parameter `createdAt`.

A started focus phase completes on its 1501st tick: 1500 ticks reach `00:00`, and the tick that finds `00:00` completes the phase. Completing a phase stops the timer, so a break counts down only after start is pressed again, and it then completes on its 301st tick (`FocusTimer.FocusTickCount`, `FocusTimer.BreakTickCount`, `FocusTimer.FullPhase`).

## Model

| member | source | states |
|---|---|---|
| FocusTimer.InitialIsFullFocusPhase | frontend/src/components/FocusTimer.js:5-8 | The timer starts at 25:00, stopped, in the focus phase, which is 1500 seconds long. |
| FocusTimer.Tick | frontend/src/components/FocusTimer.js:12-30 | A stopped timer does not move. A running one with time left stays running in the same phase with exactly one second less and stays well formed. At 00:00 it stops, switches phase and shows the full length of the new phase. |
| FocusTimer.TickCounts | frontend/src/components/FocusTimer.js:14-28 | The three branches field by field: decrement the seconds; borrow a minute (minutes − 1, seconds 59); at 00:00 stop at 05:00 of a break or at 25:00 of focus. Any tick not at 00:00 lowers minutes*60+seconds by exactly one. |
| FocusTimer.Toggle | frontend/src/components/FocusTimer.js:35-37 | Start/pause flips the running flag and leaves every other field as it was. |
| FocusTimer.ToggleInvolution | frontend/src/components/FocusTimer.js:35-37 | Pressing start/pause twice restores the state, and pressing it never breaks well-formedness. |
| FocusTimer.Reset | frontend/src/components/FocusTimer.js:39-44 | From any state, reset gives a stopped focus phase showing its full length with zero seconds. |
| FocusTimer.ReachableValid | frontend/src/components/FocusTimer.js:10-44 | From a well-formed state, any sequence of ticks and button presses keeps seconds in [0, 59], minutes in [0, 25] and remaining time within the phase. |
| FocusTimer.ReachableFromInitialValid | frontend/src/components/FocusTimer.js:5-44 | Every state reachable from the initial one has seconds in [0, 59] and minutes in [0, 25]. |
| FocusTimer.CountDown | frontend/src/components/FocusTimer.js:13-30 | From a running m:s, after k ≤ m*60+s ticks the timer is still running in the same phase and shows exactly m*60+s−k seconds. |
| FocusTimer.PhaseCompletes | frontend/src/components/FocusTimer.js:13-30 | From a running m:s, exactly m*60+s ticks reach 00:00 with the timer still running, and the next tick stops it at the full length of the other phase. |
| FocusTimer.NoEarlyCompletion | frontend/src/components/FocusTimer.js:13-30 | Before the m*60+s-th tick the timer never stops or changes phase, and some time is still left. |
| FocusTimer.StoppedStaysPut | frontend/src/components/FocusTimer.js:10-13 | Any number of seconds elapsing on a stopped timer leaves it unchanged. |
| FocusTimer.FullPhase | frontend/src/components/FocusTimer.js:14-20 | A phase started at its full length ends, one tick after reaching 00:00, stopped at the full length of the other phase. |
| FocusTimer.FocusTickCount | frontend/src/components/FocusTimer.js:13-36 | Pressing start on the initial timer, it is still running after 1500 ticks and the 1501st tick stops it at 05:00 of a break. |
| FocusTimer.BreakTickCount | frontend/src/components/FocusTimer.js:13-36 | Pressing start on the stopped 05:00 break, it is still running after 300 ticks and the 301st tick stops it back at the initial 25:00 focus state. |
| FocusTimer.FieldWidth | frontend/src/components/FocusTimer.js:47 | Each display field is at least two characters, and exactly two for values up to 99. |
| FocusTimer.FieldValue | frontend/src/components/FocusTimer.js:47 | A padded field of a non-negative number is all digits and reads back as that number. |
| FocusTimer.FormatTimeShape | frontend/src/components/FocusTimer.js:46-48 | For fields in [0, 99] the display is exactly five characters: two digits, a colon, two digits. |
| FocusTimer.FormatTimeRoundTrip | frontend/src/components/FocusTimer.js:46-48 | Every display of non-negative minutes and seconds parses back to the same minutes and seconds. |
| Text.PadStart | frontend/src/components/FocusTimer.js:47 | `padStart` gives length max(width, \|s\|), ends with the original text, and fills only with the pad character in front. |
| Text.Decimal | frontend/src/components/FocusTimer.js:47 | `String(n)` is non-empty, starts with '-' exactly for negative numbers, and is all digits otherwise. |
| Text.DecimalInjective | frontend/src/components/Chat.js:68 | Distinct integers render as distinct numerals. |
| ContentFilter.ScanTerms | backend/app.py:54-55 | Searching the terms in order and stopping at the first hit answers "blocked" exactly when the lower-cased text contains some blocked term. |
| ContentFilter.CheckContent | backend/app.py:51-56 | Requests other than a POST to a path containing `/chat` pass. On such a request an empty message list fails; otherwise the request is rejected with 403 and the fixed warning when its last message is blocked, and passes when it is not. |
| ContentFilter.FilteredRoutes | backend/app.py:53 | The chat route is screened and the export route is not. |
| ContentFilter.BlockingIgnoresCase | backend/app.py:54 | Texts equal up to letter case are blocked alike. |
| ContentFilter.BlockedInAnyContext | backend/app.py:55 | The match is on substrings: a blocked text stays blocked whatever is written around it. |
| ContentFilter.SubstringMatches | backend/app.py:48-55 | "gamete" is blocked (it contains "game"), and so is an upper-case "MOVIE". |
| Text.LastField | backend/app.py:87 | The last field of a split is a suffix free of the separator. It directly follows an occurrence of the separator, or it is the whole text when there is none. |
| Text.Trim | backend/app.py:87 | Stripping removes whitespace only at the two ends: the result is a slice with whitespace on both sides of it and does not start or end with whitespace. |
| Reply.ExtractReply | backend/app.py:87 | The extracted reply never contains `Assistant:` and never starts or ends with whitespace. Without a marker it is the stripped output. |
| Reply.ExtractIdempotent | backend/app.py:87 | Extracting from an extracted reply returns it unchanged. |
| Reply.ExtractAfterLastMarker | backend/app.py:87 | Output of the form text + `Assistant:` + answer, with no marker in the answer, yields exactly the stripped answer, whatever came before. |
| Server.CreateSession | backend/app.py:65-70 | A new session gets an id that is truthy and not yet in use. Only the session set grows. |
| Server.SessionFor | backend/app.py:63-70 | A truthy request id is used as is. Otherwise a fresh session is created whose id was not in use, and no message is stored. |
| Server.Record | backend/app.py:75-92 | Committing an exchange appends the user message and then the reply to that session's history. Every other history, the session set and the next id are unchanged. |
| Server.Chat | backend/app.py:59-94 | The view answers exactly when there is a last message and the model returns an output for its prompt, and never with the filter's rejection. It reuses a truthy id, or issues a fresh one. An answer is the extraction of the model's output, appended after the question to that session only. A failed model call stores no message. |
| Server.HandleChat | backend/app.py:51-94 | An empty message list fails before any session is made. A blocked question gets 403 and the warning, and the store is unchanged. An unblocked question is answered exactly when the model returns an output for its prompt. A truthy id is reused; otherwise a fresh one is issued and returned. An answered chat appends exactly the last message's content as a user message and then the reply, touching no other session. A failed model call stores no message. |
| Server.Prompt | backend/app.py:80-85 | The prompt holds the question verbatim and ends with the `Assistant:` marker the reply is later cut at. |
| Server.ReplyComesFromModel | backend/app.py:73-87 | An answered chat asked the model about the last message only, and its reply is the extraction of the model's output. |
| Server.GeneratePdf | backend/app.py:127-135 | A missing or falsy id gives status 400 with the fixed error. An unknown session gives 404. Otherwise the document has the header plus one line per stored message. |
| Server.SummaryListsSession | backend/app.py:132-155 | The summary of an existing session lists its messages in stored order as `Role: content`, each between the bottom margin and the top of the page. |
| PdfLayout.LineTextRoles | backend/app.py:150 | Message lines read `User: …` and `Assistant: …`. |
| PdfLayout.TitleOfLowerWord | backend/app.py:150 | Title-casing a lower-case word capitalises its first letter only. |
| PdfLayout.Walk | backend/app.py:149-152 | The loop draws exactly one line per message. |
| PdfLayout.PositionIsSlot | backend/app.py:140-155 | Before its k-th line the loop stands on page 0 at 770 − 20k for the first 37 lines, and after that on page 1 + (k−37) div 38 at 800 − 20((k−37) mod 38). |
| PdfLayout.LayoutBySlots | backend/app.py:140-155 | The document is the header at y = 800 on the first page, then every message line in order at its slot. |
| PdfLayout.LayoutWithinPage | backend/app.py:140-155 | Every line lies within y ∈ [50, 800]. Consecutive lines are either 20 apart on one page, or the second opens the next page at 800 because the first was the last above the margin. |
| ChatPanel.BlankMeansAllSpace | frontend/src/components/Chat.js:19 | Input counts as empty exactly when every character is JavaScript whitespace. |
| ChatPanel.Submit | frontend/src/components/Chat.js:18-34 | Blank input changes nothing and sends nothing. Otherwise the raw input is appended as one user message, the box is cleared, loading is set, and the request carries the new transcript and the current session. |
| ChatPanel.Settle | frontend/src/components/Chat.js:36-51 | The sent transcript gains the reply or the fixed apology. The session is replaced only by a truthy id from the response. Loading ends either way. |
| ChatPanel.SendMessage | frontend/src/components/Chat.js:18-52 | Blank input is a no-op. Otherwise the transcript becomes old ++ [user(input), assistant(reply or apology)], the request carries old ++ [user(input)] and the current session, input is cleared, loading ends, and the session changes only to a truthy returned id. |
| ChatPanel.NeverRetracts | frontend/src/components/Chat.js:21-48 | The old transcript, and after a send also the user's message, is a prefix of the new one, whether or not the request succeeded. |
| ChatPanel.SessionIsSticky | frontend/src/components/Chat.js:30-40 | Once a session is known, the next request carries it, and an answer without an id (the filter's) keeps it. |
| ChatPanel.DownloadPdf | frontend/src/components/Chat.js:54-68 | Without a truthy session nothing happens. Otherwise that session is exported and saved as `study-summary-` + its decimal id + `.pdf`. |
| ChatPanel.FilenamesDistinct | frontend/src/components/Chat.js:68 | Different sessions are saved under different file names. |
| Exchange.Deliver | frontend/src/components/Chat.js:36-48 | The panel reads an answered chat as the reply with its session id, and the filter's 403 as a reply with no session id. A server error (a non-JSON page) is read as a failure. |
| Exchange.Round | frontend/src/components/Chat.js:18-52 | One send against the server is the server's handling of the panel's request followed by the panel's reconciliation with its response, and it keeps the store well formed. |
| Exchange.BlockedRoundTouchesNothing | backend/app.py:51-56 | A blocked question leaves the server exactly as it was. The panel shows the question and the warning and keeps its session. |
| Exchange.FailedFirstRoundOrphansSession | backend/app.py:65-92 | When the model fails on a first question, the server keeps the session it created, with no messages in it. The panel shows the apology and still has no session. |
| Exchange.OpenedMirrorsEmptyStore | frontend/src/components/Chat.js:5-7 | A fresh panel and an empty database are in step. |
| Exchange.AnsweredRoundKeepsMirror | backend/app.py:63-94 | A round the model answers appends the same question and reply on both tiers. The panel then holds the session they went to, whose stored history equals the panel's transcript. |
| Exchange.ExportMatchesTranscript | backend/app.py:128-150 | With the tiers in step, downloading gives a summary whose lines are exactly the panel's transcript, in order. |

## Left out

- HTTP, Flask routing, CORS, `fetch`, JSON encoding and the browser download: requests and responses are datatypes.
  - The session id travels as `Option<int>`.
  - A missing `messages` key fails the same way as an empty list, so the model has only the empty list.
- The language-model call is the parameter `llm`. The model does not contain `backend/practice_ollama.py`.
- SQLAlchemy and SQLite are the `Store` value.
  - Foreign keys are not checked, as in SQLite's default. A client-chosen id that has no session still gets messages, and the export then answers 404.
  - Messages are kept in insertion order. The source orders by a timestamp that two messages of one commit may share; the model assumes insertion order breaks such ties.
  - `Exchange.AnsweredRoundKeepsMirror` assumes every stored message belongs to an existing session (`Exchange.Clean`), which is what the panel's own requests guarantee.
- `datetime.utcnow` and `strftime`: the header's creation time is the parameter `createdAt`.
- reportlab: the model has only the page and y of each `drawString` (x is always 50), not fonts, bytes or the attachment.
  - The server's attachment name `study_summary_<id>.pdf` is not modelled.
  - The panel saves the file under its own name, which the model does have.
- The YouTube search route and component, `get_sessions`, and `frontend/src/App.js`. `App.js` only holds the shared session id, which the panel models as its own field.
- React rendering and effects: `setInterval` scheduling and cleanup, the audio beep, auto-scrolling and the "Thinking..." bubble. A tick is one call of `FocusTimer.Tick`.
- Text.Decimal: models `String(n)` and `str(n)` for safe integers only (timer fields up to 25 and SQLite row ids); JavaScript numbers are doubles, so `String` switches to exponent form from 1e21 and ids above 2^53 would be rounded.
- Text.Lower and Text.Title: only ASCII letters change case. Python maps every Unicode letter.
- PdfLayout.Walk: its own contract gives only the line count. Positions and text are stated by `PdfLayout.LayoutBySlots`.
