# Chat session of the finance dashboard, in Dafny

The dashboard's only stateful component is the assistant chat page
(`src/pages/Chatbot.tsx`). It keeps three pieces of React state: the ordered
message log, the text box contents and an `isTyping` flag. It has two
transitions. **Send** (`handleSend`, bound to the send button and the Enter
key) ignores input that trims to nothing. Otherwise it appends the raw input
as a user message numbered `messages.length + 1`, clears the box, raises
`isTyping` and schedules a reply with `setTimeout`. **Reply delivery** (the
timer callback) appends the fixed canned answer, numbered
`messages.length + 2` from the log captured at send time, and lowers
`isTyping`.

The model keeps the page's state as an immutable `Session` record and makes
the scheduled timers explicit as a FIFO queue of `PendingReply` values. Every
timer has the same 1500 ms delay, so they fire in the order they were
scheduled. Each transition is a pure function of the session:

- `jstext.dfy` (`JsText`): `String.prototype.trim`. The trimmable characters
  are the WhiteSpace and LineTerminator productions of ECMA-262
  (sections 12.2 and 12.3).
- `messages.dfy` (`Messages`): the `Message` record without its timestamp,
  the greeting and the canned reply texts, and per-sender counts.
- `session.dfy` (`ChatSession`): the session, its first render, the text
  box's change handler, `Send`, and `DeliverReply`.
- `traces.dfy` (`Traces`): runs of events (typing, pressing send, a timer
  firing) and the invariants every reachable state keeps.

The page stores the untrimmed input, accepts a send while `isTyping` is
set, lets the first reply to arrive clear `isTyping` even when another is
queued, and has no request ids or cancellation; the model adds none of
these.

## Model

| member | source | states |
|---|---|---|
| JsText.TrimStart | src/pages/Chatbot.tsx:29 | the result is a suffix of the input; everything removed is trimmable; the result is empty or starts with a kept character |
| JsText.TrimEnd | src/pages/Chatbot.tsx:29 | the result is a prefix of the input; everything removed is trimmable; the result is empty or ends with a kept character |
| JsText.Trim | src/pages/Chatbot.tsx:29 | `trim()` is empty exactly when every character is white space or a line terminator; otherwise it starts and ends with a kept character |
| JsText.TrimIsSlice | src/pages/Chatbot.tsx:29 | `trim()` is a contiguous slice of the input with only trimmable characters before and after it |
| JsText.TrimEmptyIff | src/pages/Chatbot.tsx:29 | stripping both ends leaves nothing exactly when the input is all trimmable, so the guard rejects exactly the whitespace-only inputs |
| Messages.CountFrom | src/pages/Chatbot.tsx:9-14 | a sender's message count is at most the log length and is zero exactly when that sender wrote nothing |
| Messages.CountFromAppend | src/pages/Chatbot.tsx:38 | appending a message adds one to its sender's count and leaves the other sender's unchanged |
| Messages.PositionalIdsAreDistinct | src/pages/Chatbot.tsx:114 | a log numbered by position has no repeated id, which makes the list keys unique |
| ChatSession.Init | src/pages/Chatbot.tsx:17-26 | the first state has one message (id 1, sender `ai`, the greeting text), an empty input, typing off and no scheduled reply |
| ChatSession.EditInput | src/pages/Chatbot.tsx:213-214 | the change handler sets the input and nothing else |
| ChatSession.Send | src/pages/Chatbot.tsx:28-40 | blank input leaves the session unchanged; otherwise exactly one user message is appended after the untouched earlier log, with id (old length + 1) and the raw input as text; the input is cleared, typing is on, and exactly one reply with id (old length + 2) joins the end of the queue |
| ChatSession.SendRejectsExactlyWhitespace | src/pages/Chatbot.tsx:29 | send is a no-op exactly when the input is all white space or line terminators; otherwise the log grows by one |
| ChatSession.SendIgnoresTyping | src/pages/Chatbot.tsx:28-40 | send computes the same log, input and queue whatever the typing flag is; an accepted send while typing is identical to one while idle |
| ChatSession.SendKeepsUntrimmedText | src/pages/Chatbot.tsx:29-33 | the stored text is the untrimmed input: `" hi "` is stored as is, although it trims to `"hi"` |
| ChatSession.DeliverReply | src/pages/Chatbot.tsx:43-52 | the oldest scheduled reply appends exactly one `ai` message with the canned text and the id captured at send time after the untouched current log; typing turns off even when more replies are queued; the input is untouched |
| ChatSession.DeliverReplyRenumbered | src/pages/Chatbot.tsx:43-52 | the corrected delivery: like `DeliverReply`, but the reply is numbered one past the log it joins |
| Traces.Step | src/pages/Chatbot.tsx:28-53 | an event fails to occur exactly when a timer is asked to fire with none scheduled; every event leaves the earlier log as a prefix |
| Traces.Run | src/pages/Chatbot.tsx:28-53 | the log is append-only over any run: the starting log is a prefix of the final one |
| Traces.SendPreservesInv | src/pages/Chatbot.tsx:28-40 | send keeps the session invariant |
| Traces.DeliverPreservesInv | src/pages/Chatbot.tsx:43-52 | a fired reply keeps the session invariant under either numbering |
| Traces.StepPreservesInv | src/pages/Chatbot.tsx:28-53 | every event keeps the session invariant |
| Traces.RunPreservesInv | src/pages/Chatbot.tsx:28-53 | every run keeps the invariant: the log starts with the greeting; later user entries are non-blank and later assistant entries are the canned text; typing implies a queued reply; user count + 1 = assistant count + queue length; queued ids are at most length + 1 and increase along the queue |
| Traces.ReachableStatesKeepInv | src/pages/Chatbot.tsx:17-53 | every state reachable from the first render keeps the invariant; with nothing queued, typing is off and there are as many answers as accepted questions |
| Traces.AlternationKeepsIdsPositional | src/pages/Chatbot.tsx:32-45 | when each reply arrives before the next accepted send, every id equals its 1-based position, so ids are distinct |
| Traces.AlternatingRunsFromInitNumberByPosition | src/pages/Chatbot.tsx:17-45 | from the first render, strictly alternating runs number every message by position |
| Traces.RenumberedRunsNumberByPosition | src/pages/Chatbot.tsx:32-50 | with the corrected delivery, every run numbers every message by position and no id repeats, overlapping sends included |
| Traces.OverlappingSendsDuplicateIds | src/pages/Chatbot.tsx:32-51 | two sends before the first reply give the second question and the first answer the same id 3; after the first answer typing is off while the second is still queued |

## Left out

- Rendering and animation (framer-motion, avatars, the typing-indicator markup, the scroll area): view code with no state logic.
- Timestamps: `new Date()` and `toLocaleTimeString` are clock and locale calls; the `timestamp` field is dropped from `Message`.
- Real timer semantics and the 1500 ms delay: only the firing order is modelled, as a FIFO queue.
- React's render cycle: every event, user event or timer callback, is assumed to run against the state React has already re-rendered after the previous event. `handleSend` builds the new log from its render's `messages` (src/pages/Chatbot.tsx:38) while the reply uses a functional update (src/pages/Chatbot.tsx:50), so a send handled after a timer fired but before the next render would overwrite the log, lose that reply and leave `isTyping` true; the model does not represent this window.
- Character encoding: JavaScript strings are UTF-16 code units and Dafny strings here are Unicode scalar values; every trimmable character is in the Basic Multilingual Plane, so the trim guard agrees.
- Id width: ids are JavaScript numbers, exact far beyond any reachable log length, so they are modelled as unbounded integers.
- The dashboard, insights, investments, transactions and settings pages, the sidebar, navbar, layout and stat cards: constant mock data rendered through UI libraries with nothing computed.

## Findings

| source | as written | input that shows it | evidently intended | confidence | as-written member | corrected member |
|---|---|---|---|---|---|---|
| src/pages/Chatbot.tsx:45 | the reply id is `messages.length + 2` taken from the log captured when the question was sent | type `a`, send, type `b`, send before the first reply arrives: the second question gets id 3 and the first reply also gets id 3, so the list keys at line 114 collide (log ids 1, 2, 3, 3, 4) | every message has its own id; numbering the reply from the log it joins keeps ids equal to positions on every run | medium, not executed | ChatSession.DeliverReply (exhibited by Traces.OverlappingSendsDuplicateIds) | ChatSession.DeliverReplyRenumbered (proved by Traces.RenumberedRunsNumberByPosition) |

The corrected delivery is selected by `Traces.ReplyIds.NumberedOnArrival`.
All run invariants are proved for both numberings. The page as written
keeps ids equal to positions only under strict alternation
(`Traces.AlternationKeepsIdsPositional`).
