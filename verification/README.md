# Chat and issue-tracker state logic of hannah-ai-systemUI, in Dafny

The repository's two student-facing React components each hold a small
piece of state logic:

- the **project assistant** keeps a list of support issues (newest first),
  shows the ones that pass a status filter and a case-insensitive search,
  and creates a new `open` issue from a form that is then reset;
- the **chat interface** keeps a message thread, appends the user's text or
  code messages, and answers each with a scripted message from Hannah once
  a timer runs, showing a "typing" indicator for text messages.

This project models that logic as pure transitions over immutable records.

- `Optional` holds the `Option` type for the records' optional fields.
- `JsString` models the JavaScript primitives the handlers depend on:
  `trim`, `toLowerCase`, `includes`, and integer `toString`. Each is paired
  with an independent characterisation. Trimming is defined for any set of
  code points; `s.trim()` is `Trim(s, WhiteSpace)`.
- `Issues` models the tracker: `FilterIssues`, `CreateIssue`, and the
  tracker as a state machine over the user's actions.
- `Chat` models the chat as a state machine. Its state includes an explicit
  queue of pending replies. `FireReply(i)` stands for the `i`-th
  outstanding timer callback running. The timers are fire-and-forget and
  run on one thread, so any pending entry may fire next.

Clock readings are parameters. There is one parameter per `Date.now()` or
`new Date()` call. An id is the decimal text of its clock reading, and a
reply's id uses the reading plus one, as in the code.

Points worth noting about the code:

- Hannah's messages have the sender `hannah`.
- An issue's `createdAt` and `updatedAt` come from two separate clock
  readings, so they need not be equal.
- Ids come from the clock, so two records may share one.

## Model

| member | source | states |
|---|---|---|
| `JsString.TrimEmptyIffBlank` | components/student/chat/chat-interface.tsx:129 | trimming a set of code points leaves nothing exactly when every code point of the string is in that set; with the ECMAScript white space and line terminators, this is the `!s.trim()` guard |
| `JsString.TrimIsInfix` | components/student/project/project-assistant.tsx:124 | trimming keeps a contiguous piece of the string; it drops only code points of the trimmed set (for `trim`, white space); the piece it keeps neither starts nor ends with one |
| `JsString.Includes` | components/student/project/project-assistant.tsx:90-91 | `includes` is true exactly when the term occurs at some index of the string |
| `JsString.IncludesEmpty` | components/student/project/project-assistant.tsx:90-91 | every string includes the empty term, so an empty search box lets every issue through |
| `JsString.ToLower` | components/student/project/project-assistant.tsx:90 | lower-casing keeps the length, turns each capital `A`–`Z` into the small letter at the same place in the alphabet, and keeps every other code point |
| `JsString.ToLowerIdempotent` | components/student/project/project-assistant.tsx:90 | lower-casing twice equals lower-casing once, and the result holds no upper-case ASCII letter |
| `JsString.DecimalString` | components/student/project/project-assistant.tsx:127 | the id text of a clock reading is a non-empty run of decimal digits with no leading zero |
| `JsString.DecimalStringRoundTrip` | components/student/project/project-assistant.tsx:127 | reading back the digits of an id gives the clock reading it was made from |
| `JsString.DecimalStringInjective` | components/student/chat/chat-interface.tsx:132 | different clock readings give different id texts |
| `Issues.FilterIssues` | components/student/project/project-assistant.tsx:88-93 | the shown issues keep the list's relative order; an issue is shown iff it passes the status test and the lower-cased term occurs in its lower-cased title or description; every occurrence of a shown issue is kept, so each issue appears as often as in the list if selected and not at all otherwise |
| `Issues.FilterIdempotent` | components/student/project/project-assistant.tsx:88-93 | applying the same filter to its own result returns that result unchanged |
| `Issues.FilterAllEmptyIsIdentity` | components/student/project/project-assistant.tsx:89-91 | with filter "all" and an empty term, the whole list is shown in order |
| `Issues.InitiallyAllVisible` | components/student/project/project-assistant.tsx:78-86 | the tracker starts out showing every issue |
| `Issues.FilterByStatus` | components/student/project/project-assistant.tsx:89 | with any filter other than "all", every shown issue has that status; a filter naming no status shows nothing |
| `Issues.FilterStatusOnly` | components/student/project/project-assistant.tsx:89-92 | with an empty term and a status filter, exactly the issues of that status are shown, in order, as an independent reference filter selects them |
| `Issues.CreateIssue` | components/student/project/project-assistant.tsx:123-141 | with a blank title or description nothing changes; otherwise the list grows by one; its tail is the old list; the new head is `open`, with the form's title, description, category and priority copied untrimmed, and with no files and no solution; the form is reset to empty text, `question` and `medium` |
| `Issues.CreateThenFilter` | components/student/project/project-assistant.tsx:134 | after a create, the view is the old view, with the new issue on top iff the current filter selects it |
| `Issues.Step` | components/student/project/project-assistant.tsx:178-323 | editing the form, the search box or the filter never touches the issue list; only a create can change it, and then only by prepending one issue |
| `Issues.RunOnlyPrepends` | components/student/project/project-assistant.tsx:134 | over any run of actions, the old list stays at the end of the new one, and the list grows by at most one issue per create |
| `Issues.RunKeepsSolutionsResolved` | components/student/project/project-assistant.tsx:126-134 | if every issue with a solution is resolved, that stays true after any run of actions, because created issues carry no solution |
| `Chat.CodeReplyContent` | components/student/chat/chat-interface.tsx:362 | the reply to a code message names the language |
| `Chat.ReplyMessage` | components/student/chat/chat-interface.tsx:145-151 | a reply is a `hannah` text message with no language; its id is the clock reading plus one; its time is the clock reading when the timer runs; its content is the scripted text for its kind |
| `Chat.SendText` | components/student/chat/chat-interface.tsx:128-155 | blank input changes nothing; otherwise exactly one `user` text message holding the raw input is appended after the unchanged earlier messages; the input is cleared; typing is on; one text reply is queued; the code editor is untouched |
| `Chat.SendCode` | components/student/chat/chat-interface.tsx:344-371 | a blank snippet changes nothing; otherwise one `user` code message tagged with the current language is appended; the snippet is cleared; the editor closes; one reply for that language is queued; typing and the input are untouched |
| `Chat.QuickAction` | components/student/chat/chat-interface.tsx:307 | a quick action only sets the input to its text: no message is sent, and nothing else changes |
| `Chat.ToggleCode` | components/student/chat/chat-interface.tsx:408 | the code button flips whether the editor is shown and changes nothing else |
| `Chat.CancelCode` | components/student/chat/chat-interface.tsx:376 | cancel closes the editor, keeps the snippet, and changes nothing else |
| `Chat.FireReply` | components/student/chat/chat-interface.tsx:144-154 | a firing timer appends its reply and leaves the queue, with the others kept in order; a text reply turns typing off even when other replies are pending; a code reply leaves typing as it was; a timer that does not exist changes nothing |
| `Chat.Step` | components/student/chat/chat-interface.tsx:128-408 | every event either leaves the thread unchanged or appends exactly one message; earlier messages are never edited or removed |
| `Chat.RunOnlyAppends` | components/student/chat/chat-interface.tsx:139-367 | over any run of events, the old thread is a prefix of the new one, with at most one more message per event |
| `Chat.StepKeepsTypingHasReply` | components/student/chat/chat-interface.tsx:143-153 | no event breaks the rule that the typing indicator is on only while a text reply is pending |
| `Chat.StepKeepsUnmatched` | components/student/chat/chat-interface.tsx:139-367 | no event changes (user messages − Hannah messages − pending replies): each send queues one reply, and each firing appends one |
| `Chat.RunKeepsInvariants` | components/student/chat/chat-interface.tsx:128-155 | both invariants hold after any run of events |
| `Chat.RepliesBalanceFromStart` | components/student/chat/chat-interface.tsx:111-117 | starting from a thread with equally many user and Hannah messages (the initial thread has two of each), user messages always equal Hannah messages plus pending replies, and typing is on only while a text reply is pending |
| `Chat.SendTextThenReply` | components/student/chat/chat-interface.tsx:139-153 | sending text and then firing its timer appends the user message and then the scripted reply, in that order; the queue is back to what it was; typing ends off |
| `Chat.CodeReplyUsesSendTimeLanguage` | components/student/chat/chat-interface.tsx:359-362 | the reply to a code message names the language selected at send time, even if a different language is selected before its timer fires |
| `Chat.Drain` | components/student/chat/chat-interface.tsx:144-154 | running every pending timer, oldest first and within one millisecond (so the replies share one id and time), appends one reply per entry in queue order and empties the queue; typing ends on only if it was on and no text reply was pending; the inputs and editor are untouched |

## Left out

- Rendering, styling, icons, and the presentation helpers `getStatusIcon`, `getCategoryIcon`, `getPriorityColor` and `formatTime`: they compute markup, not state.
- Scrolling to the newest message: it is a view effect.
- The chat-session sidebar: its selected session does not affect the thread.
- The mock issues, mock messages and quick-action labels: the model takes the initial lists and labels as parameters. The initial thread has two user and two Hannah messages, so it meets `Chat.RepliesBalanceFromStart`'s requirement.
- Timer delays of 2000 ms and 1500 ms: they only decide the interleaving, which `FireReply` leaves open.
- Tear-down of the component before a timer fires: this is the same as that timer never firing.
- Locale formatting of times and dates.
- The file-upload placeholder, and the unwired "View", "Ask Hannah", "New Issue" and upload buttons: none of them changes state.
- Id uniqueness: ids come from the clock, and nothing prevents two equal readings.
- Negative clock readings: clock readings that become ids are natural numbers, although `Date.now()` is negative for a clock set before 1970 and would then be written with a leading `-`. Timestamps are plain integers.
- UTF-16 code units: strings are sequences of code points, so a lone surrogate, which a JavaScript string can hold, cannot be represented. For well-formed text this changes nothing.
- JsString.ToLower: maps only ASCII `A`–`Z`; the full Unicode case mapping of `toLowerCase` is not modelled, because it needs tables outside the code.
- Whether the editor is open when code is sent: the "Send Code" button is rendered only while the editor is shown, but its handler does not check this, so `Chat.SendCode` does not check it either.
