# Contact messages: submission form and inbox triage

A model of the message lifecycle of a small portfolio site. Visitors send
contact messages through a form, and an operator triages them in an admin
inbox. The messages live in a remote record store (a `contacts` table behind
a REST interface). The model has two parts:

- **The contact form** (`handleSubmit` in `src/App.js`). This is a state
  machine over the three form fields, the status line and the `isSubmitting`
  flag. One submission attempt is the pure function `Submission.Submit`. The
  store's answer and the clock reading are its inputs, and the create request
  it sends is part of its result. Two guards live outside the handler: the
  browser's `required` check on each field and the button being disabled
  while submitting. Both are the predicate `Submission.CanSubmit`. It is the
  precondition of `Submit` and the enabling guard of `Submission.Press`, which
  models pressing the button.
- **The inbox** (`src/AdminPanel.jsx`). The derived views are the `all` /
  `unread` / `read` filter and the `{total, unread, read}` counters. They are
  pure functions built on `Filtering.Where`, a model of `Array.prototype.filter`.
  The commands `fetchMessages`, `markAsRead` and `deleteMessage` are atomic
  steps over `(messages, loading, error, filter)`. Each takes the store's
  answers and the operator's confirmation as inputs, and each reports the
  requests it sent.

The remote store is not part of the client. The module `Store` states what
the client assumes of it:

- a create request adds a row with `read = false` and an id the store chooses,
  which no other row uses;
- the rows are kept newest first, the order the list request asks for, and
  every list request returns them in that one stored order, so rows with equal
  `created_at` come back in the same relative order each time (the sort key
  alone does not fix this, and the client writes the stamp itself, so two
  rows can share one);
- a patch by id sets `read` on the rows with that id;
- a delete by id removes the rows with that id.

`Lifecycle` joins the three parts into end-to-end lemmas. One example is that
after a toggle and the reload it triggers, the inbox shows the same list with
exactly one flag flipped.

Modules: `Records` (data model), `Filtering`, `Store`, `Submission`, `Inbox`,
`Lifecycle`.

Inputs that stand in for I/O:

- the environment variables are the value `Config`, where "" means unset or
  empty;
- the clock is `now: Timestamp`, the instant the ISO-8601 `created_at` stamp
  denotes;
- `fetch` outcomes are `Submission.Response`, `Inbox.Listing` and `Inbox.Reply`;
- `window.confirm` is the boolean `confirmed`.

Points about the code that the model keeps as they are:

- A read toggle reloads only when the patch response is ok
  (src/AdminPanel.jsx:59-60), and `Inbox.MarkAsRead` does the same.
- A failed submission carries only `type: "error"` and a text that embeds the
  error's message (src/App.js:114-117). There are no error kinds.
- Empty fields are refused by the browser's `required` attributes
  (src/App.js:870, 883, 896), not by the handler, so the model makes this a
  guard.

## Model

| member | source | states |
|---|---|---|
| Submission.CauseRoundTrip | src/App.js:112-117 | The failure status text embeds its cause so that it can be read back out unchanged. The configuration-error text and the success text are never mistaken for a failure text. |
| Submission.Cause | src/App.js:99-103 | The cause shown for a failed send. A non-ok answer always gives a non-empty cause: the error body's `message` whenever it is non-empty, and "Failed to send message" exactly when it is missing or empty. A thrown error gives its own message. |
| Submission.FreshPageCannotSubmit | src/App.js:27-33 | The page starts with all three fields empty, so the form cannot be submitted and pressing send does nothing and sends nothing. |
| Submission.Begin | src/App.js:61-64 | Starting an attempt raises the submitting flag and clears the status to empty. The fields are kept, and a form in this state cannot be submitted again. |
| Submission.Submit | src/App.js:61-121 | The flag is false on every exit. A missing URL or key gives the configuration error with no request sent. Otherwise exactly one create request is sent, carrying the three fields and the `created_at` stamp. On an ok answer the status is "success" and the fields are emptied. On a non-ok answer or a thrown error the status is "error", its text embeds the cause (the body's message, the fallback "Failed to send message", or the exception's message), and the fields are unchanged. |
| Submission.Press | src/App.js:861-905 | If a field is empty or an attempt is in flight, pressing send does nothing and sends nothing. Otherwise the press is exactly one full attempt (`Submit`). At most one request is sent. |
| Submission.NoDoubleSubmit | src/App.js:901-905 | Pressing send again while the first attempt is in flight changes nothing and sends nothing. |
| Submission.OutcomeAndResubmission | src/App.js:99-117 | After an attempt the form can be sent again as it stands exactly when the attempt did not succeed. Failed attempts keep the fields; a success clears them. |
| Inbox.StatsOf | src/AdminPanel.jsx:95-99 | `total` is the number of messages, and `unread + read == total` for every list. |
| Inbox.FilterAllIsIdentity | src/AdminPanel.jsx:89-93 | The `all` filter shows the list unchanged. |
| Inbox.FilterPartition | src/AdminPanel.jsx:89-93 | `unread` shows exactly the messages with `read == false`, and `read` shows exactly those with `read == true` (both directions). Together, counting multiplicity, they make up the whole list. |
| Inbox.FilterIsSelection | src/AdminPanel.jsx:89-93 | Every filter shows an order-preserving subsequence of the list. A position is kept if and only if its message passes the filter. |
| Inbox.FilterCountsMatchStats | src/AdminPanel.jsx:89-99 | The length of the list under each filter equals the counter shown on that filter's button. |
| Inbox.FilterKeepsOrder | src/AdminPanel.jsx:23 | If the store's answer is newest first, every filtered view is newest first too. |
| Inbox.Fetch | src/AdminPanel.jsx:18-42 | A load sends one list request and always ends with `loading` false. An ok answer replaces the list wholesale and clears the error. A failure keeps the old list and shows the load-error text. |
| Inbox.Refresh | src/AdminPanel.jsx:183-184 | The refresh button does nothing while a load is in progress. Otherwise it is exactly a full load (`Fetch`): one list request, the list replaced and the error cleared on an ok answer, the load-error text set and the list kept on a failure, `loading` false at the end. |
| Inbox.MarkAsRead | src/AdminPanel.jsx:44-65 | The first request is a patch whose only field is `read = !current`. A reload follows only on an ok answer. On a non-ok answer or a thrown error, the state (and so the list) is untouched. |
| Inbox.DeleteMessage | src/AdminPanel.jsx:67-87 | Declining the confirmation sends no request and changes nothing. Otherwise one delete request is sent, and a reload follows only on an ok answer. On a non-ok answer or a thrown error, the state is untouched. |
| Inbox.CommandsNeverPatchLocally | src/AdminPanel.jsx:44-87 | After a mark or delete command the list is either unchanged or exactly the rows a reload returned. It is never edited locally. |
| Store.Insert | src/App.js:80-95 | The store's insert adds exactly the new row: the multiset of rows grows by that one row. |
| Store.InsertKeepsOrder | src/AdminPanel.jsx:23 | Inserting a row keeps the store's rows newest first. |
| Store.InsertCount | src/AdminPanel.jsx:95-99 | Inserting a row raises the count of every filter by one if the row passes it, and by zero otherwise. |
| Store.InsertKeepsUnique | src/App.js:80-95 | Inserting a row whose id no other row uses keeps all ids unique. |
| Store.SetReadAt | src/AdminPanel.jsx:46-57 | With unique ids, a patch by id changes exactly the one row with that id, and only its `read` field. |
| Store.SetReadKeepsOrder | src/AdminPanel.jsx:46-57 | A patch keeps the rows newest first and keeps ids unique. |
| Store.DropRemoves | src/AdminPanel.jsx:73-79 | After a delete by id, a row remains if and only if it was there and has a different id. Order and id uniqueness are kept. |
| Store.DropAt | src/AdminPanel.jsx:73-79 | With unique ids, a delete removes exactly the one row with that id and keeps the rest in order. |
| Lifecycle.SubmittedMessageIsListed | src/App.js:89-94 | A successful submission sends a create request. The row the store makes from it has the form's fields, the stamp and `read = false`, and it appears in the next list. That list is still newest first, and its total and unread counters are each one higher. If the store's id is unused by every other row, ids stay unique in that list. |
| Lifecycle.ToggleReflectsStore | src/AdminPanel.jsx:44-65 | Toggle one row, then reload the store's answer. The inbox shows the same list with only that row's flag flipped, still newest first, and one message moves between the unread and read counters. |
| Lifecycle.RemoveReflectsStore | src/AdminPanel.jsx:67-87 | Confirm a delete, then reload. The inbox shows the list without exactly that row, no shown row has its id, and the total and that row's counter each drop by one. |
| Lifecycle.SendReadDelete | src/AdminPanel.jsx:18-99 | A worked run from an empty store: send one message, mark it read, delete it. The counters go (1, 1, 0), then (1, 0, 1), then (0, 0, 0), and the list ends empty. |

## Left out

- Rendering, styling, animations and the static content arrays (`skills`, `projects`, `experience`). They are presentation with no behaviour.
- The scroll-spy effect and `scrollToSection` (src/App.js:36-59, 123-129). They depend on DOM geometry.
- The field `onChange` handlers (src/App.js:867-869, 880-882, 893-895). They only copy one input's value into `formData`. The model takes the form state as given.
- The filter buttons (src/AdminPanel.jsx:151, 161, 171). They only assign the `filter` field. The model passes the filter to `Inbox.FilteredMessages` directly.
- `fetch` itself, HTTP headers, JSON parsing and `console.*` logging. A failure to parse a response body is folded into the thrown-error case.
- `Submission.Response`: the error body's `message` is represented as a string. A missing or falsy `message` is "" and falls back to "Failed to send message" (src/App.js:102). A truthy non-string is represented by its string conversion (for example "42" or "[object Object]"), which is what `new Error` would hold. A truthy value whose conversion is empty (such as `[]`) yields an error with an empty message, so the code shows "Failed to send message: . Please try emailing me directly."; it is represented as `Threw("")`, which gives that same text. The conversion itself is not modelled.
- `Submission.CanSubmit`: models `required` as "non-empty" only. The browser's e-mail syntax check on the `type="email"` input is left out, because it is library behaviour.
- Date formatting with `toLocaleString` (src/AdminPanel.jsx:249), because it is locale-dependent. The ISO-8601 rendering of `created_at` is also left out: a stamp is the instant it denotes.
- `Submission.Submit`: treats the attempt as one atomic step from the press to the answer. The inputs stay enabled while the request is in flight (src/App.js:863-898 have no `disabled`), so the user can edit the fields during it. The model does not capture those edits. In the code a success then also clears text typed during the flight (src/App.js:110), and a failure keeps the fields as edited rather than as they were at the press.
- `Inbox.MarkAsRead`: the reload after an ok patch is not awaited in the code. The model treats the command and its reload as one atomic step, so overlapping reloads and commands are not modelled.
- `Inbox.DeleteMessage`: as with marking, the reload after an ok delete is treated as part of the step.
- Cancellation of late responses after the panel is torn down. That is concurrency and is not modelled.
- The store's own behaviour, including how it assigns ids and keeps rows ordered. The module `Store` states these as assumptions and does not implement them.
- The inbox's placeholder store credentials (src/AdminPanel.jsx:5-6). The inbox performs no configuration check of its own; a bad credential shows up only as a failed load.
