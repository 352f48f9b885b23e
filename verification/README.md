# Chatbot client and server: a Dafny model of the sequential core

The repository is a browser chat client (React) with an admin panel and a mock
login, talking to a small Flask server that forwards prompts to a local
language model. Almost all of it is presentation. This project models the
sequential logic underneath, as pure step functions over immutable state:

- **ChatInput** (`chat_input.dfy`): the message box. The submit guard trims the
  draft. It sends only a non-empty trimmed text and only while the box is
  enabled, and then clears the draft. It also models the Enter/Shift+Enter rule
  and the send button's `disabled` predicate.
- **ChatInterface** (`chat_interface.dfy`): the exchange controller. The log is
  an append-only `seq<Message>` plus the `isTyping` flag. A submit step appends
  the user's message and sets the flag. A completion step turns the abstract
  outcome of the one `fetch` into exactly one bot message and clears the flag.
  The outcome is one of: `fetch` rejected, non-OK status, unparsable body,
  truthy `error` field, or success.
- **ChatView** (`chat_view.dfy`): the two components wired together
  (`disabled={isTyping}`), driven by a sequence of events. It proves that the log
  alternates user/bot, only grows by appending, and that no second send can
  start while a reply is pending.
- **AdminPanel** (`admin_panel.dfy`): the seeded user list, the guarded add, the
  filter-delete by id, the three derived counts, and the admin-row delete guard.
- **AuthContext** (`auth_context.dfy`): the mock session store. It models the
  restore effect, `login` (fixed admin pair, else any non-empty credentials,
  else reject), `signup` and `logout`. Local storage is one optional user
  record, and the user and that slot stay in agreement as long as storage
  access does not throw (see "Left out").
- **Server** (`server.py`, `server.dfy`): the global conversation history. Each
  request appends a `User:` line and truncates to ten entries, and on success
  appends an `AI:` line, so at most eleven lines stay between requests. It also
  models the prompt text, the error branches and `reset`.
- **Wire** (`wire.dfy`): what the client shows for each server reply.
- **Text**, **Maybe**: trimming, decimal rendering of status codes, split/join on
  one character, and the option type.

Values the source gets from the environment become parameters: message and user
ids (`Date.now()`), timestamps and dates, the result of every HTTP call, and the
contents of local storage at load.

## Model

| member | source | states |
|---|---|---|
| Text.Trim | client-side/src/components/Chat/ChatInput.tsx:17-18 | `trim()` returns a text with no white space at either end. It is empty exactly when the input is all white space. It is the slice of the input that starts after the leading white space and has only white space after it. |
| Text.TrimPadded | client-side/src/components/Chat/ChatInput.tsx:17-18 | Trimming removes exactly the padding: any white space around a trimmed text trims back to that text. |
| Text.TrimIdempotent | client-side/src/components/Chat/ChatInput.tsx:18 | Trimming an already trimmed text changes nothing. |
| Text.NatToString | client-side/src/components/Chat/ChatInterface.tsx:37 | Interpolating a status code gives a non-empty string of decimal digits, with no leading zero unless the number is 0. |
| Text.NatToStringRoundTrip | client-side/src/components/Chat/ChatInterface.tsx:37 | Reading the interpolated digits back gives the status code. |
| Text.NatToStringInjective | server.py:58 | Two different status codes never render to the same text. |
| Text.IndexOf | client-side/src/contexts/AuthContext.tsx:65 | The position of the first separator: no separator occurs before it, and it is the separator unless it is the end of the string. |
| Text.Split | client-side/src/contexts/AuthContext.tsx:65 | `split` with a one-character separator yields at least one piece, and no piece contains the separator. |
| Text.JoinSplit | client-side/src/contexts/AuthContext.tsx:65 | Joining the pieces of a split with the separator restores the original string. |
| Text.SplitJoin | server.py:33 | Splitting a `join` restores the parts, provided no part contains the separator. |
| Text.JoinAppend | server.py:33 | Joining two non-empty lists puts exactly one separator between the two joins. |
| Text.Join | server.py:33 | `"\n".join` of a non-empty list is as long as its parts plus one separator between each neighbouring pair, and the join of an empty list is empty. |
| Text.JoinEnds | server.py:33 | A join starts with the first part and ends with the last part. |
| Maybe.GetOr | server.py:19 | `dict.get(k, default)` (also server.py:51): the stored value when the key is present, the default otherwise. The 400 branch and the empty `AI:` reply depend on it. |
| ChatInput.Submit | client-side/src/components/Chat/ChatInput.tsx:15-21 | A text is sent iff the box is enabled and the draft is not all white space. The text sent is the trimmed draft, is non-empty, and the draft is then cleared. A rejected submit sends nothing and leaves the draft as it was. |
| ChatInput.OnKeyPress | client-side/src/components/Chat/ChatInput.tsx:23-28 | In `handleKeyPress`, Enter without Shift behaves exactly like a form submit. Any other key sends nothing and leaves the draft unchanged. |
| ChatInput.SendDisabled | client-side/src/components/Chat/ChatInput.tsx:40 | The send button is disabled exactly when the box is disabled or the draft is only white space. |
| ChatInput.KeyEffect | client-side/src/components/Chat/ChatInput.tsx:23-40 | Over the whole form, a key other than Enter does nothing. Enter, with or without Shift, does nothing while the send button is disabled. Otherwise it sends the trimmed draft and clears the box: plain Enter through `handleKeyPress`, and Shift+Enter through the form's implicit submission via the enabled submit button. |
| ChatInput.EnterActsAsSubmit | client-side/src/components/Chat/ChatInput.tsx:23-40 | Enter, with or without Shift, has exactly the effect of `handleSubmit`. |
| ChatInput.SendEnabledIffSubmitSends | client-side/src/components/Chat/ChatInput.tsx:40 | The send button is enabled exactly when pressing it would send something. |
| ChatInput.ShiftEnterNeverSends | client-side/src/components/Chat/ChatInput.tsx:24 | `handleKeyPress` itself neither sends nor changes the draft on Shift+Enter. The browser's implicit submission is modelled by `ChatInput.KeyEffect`. |
| ChatInput.SentTextIsTrimmed | client-side/src/components/Chat/ChatInput.tsx:18 | The sent text is already trimmed. Submitting it again from an enabled box would send the same text. |
| ChatInterface.Settle | client-side/src/components/Chat/ChatInterface.tsx:36-53 | The `try` block succeeds iff a response arrived with an OK status, a parsable body and a falsy `error` field. Its reply is then `data.response`, possibly absent. Otherwise the thrown value is one of: the `HTTP error! status: <code>` error for a non-OK status, an error carrying the `error` text, or what `fetch`/`json()` threw. |
| ChatInterface.IsOk | client-side/src/components/Chat/ChatInterface.tsx:36 | `response.ok` holds exactly for the statuses 200 to 299. |
| ChatInterface.Truthy | client-side/src/components/Chat/ChatInterface.tsx:42 | The `error` field is falsy exactly when it is absent or the empty string. |
| ChatInterface.Reason | client-side/src/components/Chat/ChatInterface.tsx:60 | A thrown `Error` shows its message, and anything else shows `Unknown error`. |
| ChatInterface.BotContent | client-side/src/components/Chat/ChatInterface.tsx:46-63 | On success the bot content is the reply as received. On failure it is `Sorry, I encountered an error: ` followed by the reason. |
| ChatInterface.Submit | client-side/src/components/Chat/ChatInterface.tsx:71-80 | Submitting keeps every earlier message and appends exactly one user message with the given content, id and time. `isTyping` is set before the request goes out. |
| ChatInterface.Complete | client-side/src/components/Chat/ChatInterface.tsx:46-68 | Whatever the outcome, earlier messages stay as they were, exactly one bot message carrying the outcome's content is appended, and `isTyping` ends false. |
| ChatInterface.Exchange | client-side/src/components/Chat/ChatInterface.tsx:71-81 | A whole `handleSendMessage` (with `sendMessageToAPI`, lines 22-69): earlier messages stay as they were, exactly two messages are added, the user's text first and then the bot's content for the outcome, and `isTyping` ends false. |
| ChatInterface.ExchangeAppendsUserThenBot | client-side/src/components/Chat/ChatInterface.tsx:22-81 | A full send cycle grows the log by exactly two: the user message, then the bot message. Earlier messages stay unchanged and `isTyping` ends false. |
| ChatInterface.FailureShowsDiagnostic | client-side/src/components/Chat/ChatInterface.tsx:58-63 | Every failure path shows one message starting with the apology prefix. An OK body without `response` or `error` is a success whose content is absent, not a failure. |
| ChatInterface.HttpStatusReadBack | client-side/src/components/Chat/ChatInterface.tsx:36-38 | For a non-OK status, the bot message is the apology plus `HTTP error! status: ` followed by digits that read back as that status. |
| ChatInterface.HttpStatusesDistinguished | client-side/src/components/Chat/ChatInterface.tsx:36-38 | Two different non-OK statuses never produce the same bot message. |
| ChatInterface.ServerErrorMessage | client-side/src/components/Chat/ChatInterface.tsx:36-38 | A status-500 response shows `HTTP error! status: 500` whatever its body holds. |
| ChatView.Deliver | client-side/src/components/Chat/ChatInterface.tsx:114 | The input box's decision is handed to `handleSendMessage`: a sent text becomes a submit step, and a rejected submit leaves the log and the flag alone. |
| ChatView.Step | client-side/src/components/Chat/ChatInterface.tsx:22-81 | One event keeps the log as a prefix and adds at most one message. An added message is a user message that sets `isTyping` when the view was idle, or a bot message that clears it when a reply was pending. A pending request's resolution always appends the bot content of its outcome. |
| ChatView.Run | client-side/src/components/Chat/ChatInterface.tsx:22-81 | Over a sequence of events the starting log stays a prefix, growing by at most one message per event. |
| ChatView.PendingBlocksSecondSend | client-side/src/components/Chat/ChatInput.tsx:17 | While a reply is pending, no event except that reply changes the log or the flag. |
| ChatView.StepPreserves | client-side/src/components/Chat/ChatInterface.tsx:53-79 | Each event keeps the user/bot alternation and the "pending iff odd length" link. It only appends to the log, by at most one message. |
| ChatView.RunPreserves | client-side/src/components/Chat/ChatInterface.tsx:22-81 | Over any sequence of events, the starting log is a prefix of the final log and the alternation holds. |
| ChatView.MountedRunAlternates | client-side/src/components/Chat/ChatInterface.tsx:8-9 | From a freshly mounted view, every reachable log alternates user, bot, user, bot, and a request is pending exactly when the last message is a user message. |
| ChatView.SendOnce | client-side/src/components/Chat/ChatInterface.tsx:22-81 | From a fresh view, typing a trimmed non-empty text, submitting it and any outcome of the request leave exactly the user message and the bot reply for that outcome, with nothing pending and an empty box. |
| ChatView.HelloScenario | client-side/src/components/Chat/ChatInterface.tsx:71-81 | Typing "hello", submitting, and a `{response: "hi there"}` reply leave exactly [user "hello", bot "hi there"], nothing pending and an empty box. |
| ChatView.ServerErrorScenario | client-side/src/components/Chat/ChatInterface.tsx:36-38 | Submitting "x" and an HTTP 500 reply leave two messages, the second naming status 500, and nothing pending. |
| AdminPanel.CountIf | client-side/src/components/Admin/AdminPanel.tsx:108-120 | A filtered count never exceeds the number of users, so the active and admin cards are at most the total. |
| AdminPanel.CountIfExtremes | client-side/src/components/Admin/AdminPanel.tsx:108-120 | A filtered count is zero exactly when no user matches, and equals the length exactly when every user matches. |
| AdminPanel.TotalUsers | client-side/src/components/Admin/AdminPanel.tsx:97 | The Total Users card is never below the Active Users or Admins card. |
| AdminPanel.ActiveUsers | client-side/src/components/Admin/AdminPanel.tsx:108 | The Active Users card reads 0 exactly when every user is inactive, and equals the total exactly when every user is active. |
| AdminPanel.AdminUsers | client-side/src/components/Admin/AdminPanel.tsx:120 | The Admins card reads 0 exactly when nobody has the admin role, and equals the total exactly when everybody does. |
| AdminPanel.DeleteDisabled | client-side/src/components/Admin/AdminPanel.tsx:210 | The trash button is disabled on exactly the rows the Admins card counts. |
| AdminPanel.Seed | client-side/src/components/Admin/AdminPanel.tsx:22-47 | The panel starts with three users with distinct ids: exactly one admin and two active. |
| AdminPanel.AddUser | client-side/src/components/Admin/AdminPanel.tsx:57-73 | With an empty email or name nothing changes. Otherwise the new active user, built from the form's email, name and role, goes last after the unchanged list, and the form resets to empty fields with role user. |
| AdminPanel.DeleteUser | client-side/src/components/Admin/AdminPanel.tsx:75-76 | A user survives a delete iff it was in the list and its id differs. The list shrinks by exactly the number of entries with that id. |
| AdminPanel.AddUserCounts | client-side/src/components/Admin/AdminPanel.tsx:59-66 | A successful add raises the total and active counts by exactly one. It raises the admin count by one exactly when the new role is admin. The new entry carries the given id. |
| AdminPanel.AddFreshKeepsIdsDistinct | client-side/src/components/Admin/AdminPanel.tsx:61 | Adding with an id not yet in use keeps the ids distinct. |
| AdminPanel.DeleteKeepsIdsDistinct | client-side/src/components/Admin/AdminPanel.tsx:76 | Deleting by id keeps distinct ids distinct. |
| AdminPanel.DeleteKeepsOrder | client-side/src/components/Admin/AdminPanel.tsx:76 | Delete distributes over concatenation, so the survivors keep their original relative order. |
| AdminPanel.DeleteAbsentIsIdentity | client-side/src/components/Admin/AdminPanel.tsx:76 | Deleting an id that no user has leaves the list exactly as it was. |
| AdminPanel.DeleteIdempotent | client-side/src/components/Admin/AdminPanel.tsx:76 | Deleting the same id twice is the same as deleting it once. |
| AdminPanel.DeleteNonAdminsKeepsAdminCount | client-side/src/components/Admin/AdminPanel.tsx:76 | If no admin has the id, deleting it leaves the admin count unchanged. |
| AdminPanel.DeleteSingleId | client-side/src/components/Admin/AdminPanel.tsx:76 | With distinct ids, deleting a row's id removes exactly one user. |
| AdminPanel.UiDeleteKeepsAdmins | client-side/src/components/Admin/AdminPanel.tsx:206-210 | With distinct ids, deleting through an enabled (non-admin) row's button keeps the admin count and lowers the total by one. |
| AdminPanel.SharedIdDeletesAdmin | client-side/src/components/Admin/AdminPanel.tsx:206-210 | When a member row shares its id with an admin row, the button guard does not protect the admin: the admin count drops from 1 to 0. |
| AuthContext.LocalPart | client-side/src/contexts/AuthContext.tsx:65 | The derived name is the prefix of the email before the first `@`, or the whole email if it has none. |
| AuthContext.Mount | client-side/src/contexts/AuthContext.tsx:31-32 | The provider's first render has no user and `isLoading` true, with storage as it was. The restore effect that follows makes the user equal to the saved record and ends loading. |
| AuthContext.Restore | client-side/src/contexts/AuthContext.tsx:34-41 | On load, a saved slot becomes the current user, and otherwise the user is left as it was. Loading ends false either way and the slot is not touched. |
| AuthContext.Login | client-side/src/contexts/AuthContext.tsx:43-77 | Login succeeds iff email and password are both non-empty. The admin pair yields user `1`, role admin. Any other success yields user `2`, role user, named after the email's local part, and writes the slot to match. A rejection leaves user and slot unchanged. Loading is false afterwards in every case. |
| AuthContext.Signup | client-side/src/contexts/AuthContext.tsx:79-98 | Signup always succeeds with a role-user record of the given id, email, name and time. The slot is written to match and loading is false afterwards. |
| AuthContext.Logout | client-side/src/contexts/AuthContext.tsx:100-103 | Logout clears both the user and the slot. |
| AuthContext.LoginAdminOnlyWithFixedPair | client-side/src/contexts/AuthContext.tsx:50-71 | A successful login yields the admin role iff the credentials are exactly the fixed pair. |
| AuthContext.LoginNameIsLocalPart | client-side/src/contexts/AuthContext.tsx:65 | An ordinary login's name is the first piece of `email.split('@')`. Gluing the remaining pieces back with `@` restores the email. |
| AuthContext.Apply | client-side/src/contexts/AuthContext.tsx:34-103 | Every call except a login with an empty email or password leaves the user and the slot equal. A rejected login leaves both unchanged. Every call but logout ends with loading false. |
| AuthContext.Run | client-side/src/contexts/AuthContext.tsx:34-103 | Whatever the starting state, a sequence of calls ending with anything but a rejected login leaves the user and the slot equal. |
| AuthContext.ApplyKeepsInSync | client-side/src/contexts/AuthContext.tsx:58-102 | Each login, signup, logout or reload keeps the user equal to the persisted slot. |
| AuthContext.RunKeepsInSync | client-side/src/contexts/AuthContext.tsx:34-103 | Any sequence of those calls keeps the user and the slot in agreement. |
| AuthContext.RestoreSyncs | client-side/src/contexts/AuthContext.tsx:34-41 | After a fresh load and the restore effect, the user is exactly the saved slot. |
| AuthContext.SessionRoundTrip | client-side/src/contexts/AuthContext.tsx:50-60 | An admin login survives a reload with role admin, id `1` and the admin email. After logout, a reload finds no user. |
| Server.LastN | server.py:30 | `history[-10:]` keeps exactly the last min(length, 10) entries, in order. |
| Server.Chat | server.py:17-30 | An unreadable body answers 500 with the exception text. A missing or empty prompt answers 400 `Missing prompt`. In both cases nothing is posted and the history is kept. Any other prompt is appended as a `User:` line, the history is cut to its last ten lines, and that window is forwarded. |
| Server.Forward | server.py:32-61 | The prompt posted upstream is built from the window, and the new history starts with that window. The reply is 200 exactly when one `AI:` line is appended, which happens only when the model answered 200 with readable fields. A missing `response` field becomes `""`. Every non-200 reply leaves the history exactly equal to the window. A non-200 answer returns 500 `Ollama returned status <code>`. A failed post returns 500 with its message. A 200 answer whose body is not JSON returns 500 with the parse error's message. |
| Server.FullPrompt | server.py:33-38 | The prompt starts with the two instruction lines and ends with the `AI:` cue. The newest history entry sits immediately before the cue. |
| Server.PromptIsJoin | server.py:33-38 | For a non-empty window, the prompt is the two instruction lines, the window entries and `AI:`, joined by line breaks. |
| Server.Reset | server.py:64-68 | Reset empties the history and answers 200. |
| Server.WindowEndsWithUserLine | server.py:24-30 | After the append and the truncation, the window holds 1 to 10 entries. It ends with `User: <prompt>` and is the last nine old entries plus that line. |
| Server.ChatKeepsBound | server.py:24-56 | A history of at most eleven lines stays at most eleven lines after any request. |
| Server.FailureKeepsUserLine | server.py:57-61 | When the upstream call fails, the reply is 500 and the user's line stays last in the history. |
| Server.PromptLines | server.py:33-38 | When no history line contains a line break, the prompt's lines are the two instruction lines, then the window entries one per line, then `AI:`. |
| Server.ServeKeepsBound | server.py:11-68 | From server start, any sequence of chat and reset requests, each handled to completion before the next, keeps the history at most eleven lines. |
| Server.Serve | server.py:11-68 | The global history over a sequence of requests, each handled to completion before the next: an empty sequence of requests leaves it unchanged, and a sequence ending in `reset` leaves it empty. `Server.ServeKeepsBound` bounds its length. |
| Wire.Received | client-side/src/components/Chat/ChatInterface.tsx:36-48 | The client sees the server's status, and reads the `error` field of an error reply and the `response` field of an answer. |
| Wire.GuardedTextIsNeverMissing | server.py:19-22 | A text that passed the input box's guard never gets the server's 400 `Missing prompt` reply, and it is always posted upstream. |
| Wire.ModelAnswerIsShown | server.py:49-56 | When the model answers with status 200, the user sees its answer. A missing `response` field shows as the empty string, not as absent content. |
| Wire.ServerFailureShowsOnlyStatus | client-side/src/components/Chat/ChatInterface.tsx:36-38 | Every other upstream result reaches the user only as `HTTP error! status: 500`, because the client checks `response.ok` before reading the body. The server's error text is never shown. |

## Left out

- HTTP transport, `fetch`, `requests.post`, Flask routing, CORS and JSON (de)serialisation. These are foreign I/O, and their results are the `Outcome`, `Request` and `Upstream` parameters. JSON fields are modelled as strings only: a non-string `prompt`, `error` or `response` value (a number, `null`) is not modelled.
- `localStorage` is modelled as one optional user record. Its serialisation is assumed to round-trip, and storage access is assumed never to throw. A throwing `setItem` (a full quota, or storage blocked) would leave the user set and the slot stale, because `login` and `signup` call `setUser` before `setItem` (AuthContext.tsx:58-59, 69-70, 92-93) and their `try` has only a `finally`. A throwing `getItem` (AuthContext.tsx:36) would leave `isLoading` true for good. `AuthContext.Apply`, `AuthContext.ApplyKeepsInSync` and `AuthContext.RunKeepsInSync` hold only under this assumption.
- The one-second simulated delay in `login` and `signup`, and the `isLoading = true` interval while it runs. Each call is one atomic step, so only the state after `finally` is modelled.
- `async` interleaving, React render batching, and a completion arriving after the chat view is torn down. This is scheduling and the code does not guard it. In `ChatView` a resolution only occurs while a request is outstanding.
- `Date.now()` ids, `new Date()` timestamps and `toISOString` dates are parameters. Ids are not assumed unique: `AdminPanel.SharedIdDeletesAdmin` shows why it matters.
- AdminPanel.AddUser: the form's `required` name and email inputs and its `type="email"` field (AdminPanel.tsx:149, 156, 160) let the browser's constraint validation block an empty or malformed email before `handleAddUser` runs. The model accepts any non-empty email, a superset of what reaches the handler; the browser's validation rules are not part of this model.
- ChatInput.KeyEffect: the browser's implicit form submission follows the HTML rule (Enter in a text field activates the form's submit button unless it is disabled or the key event's default was prevented). The browser itself is not part of this model.
- Server.ServeKeepsBound: the model serialises requests, but Flask's threaded `app.run` (server.py:72) can start a second request while the first blocks in `requests.post` (server.py:47). Two overlapping requests can then each append and leave 12 lines. The history is also one global shared by every client, not one per user.
- Text.Trim: JavaScript `trim` also strips the remaining Unicode space separators and line terminators. The model's white-space set is the ASCII white space plus no-break space and the byte-order mark.
- The auto-scroll effect, `ChatMessage`, `TypingIndicator`, `Header`, the `Auth` page, the theme toggle, toasts and `console.error` are rendering only.
- The dashboard's admin menu entry (`Dashboard.tsx`) is view navigation with a one-line role check.
- The Bot Settings tab of the admin panel has uncontrolled inputs that are never saved, and its temperature is a float.
- An exception in the server other than an unreadable body, a failed post or an unparsable upstream body (for example a non-dictionary upstream JSON) is not modelled separately. It takes the same 500 path as those three.
