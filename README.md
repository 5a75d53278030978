# crud_task: a verified model of its task logic

The application is a small task tracker: a REST service that stores tasks
(`id`, `title`, `completed`) and a single web page that lists, adds, toggles
and deletes them. Almost all of it is routing, database calls and rendering.
This project models the two pieces that decide something:

- the service's `create`, which trims the title, refuses a missing or blank
  one before touching the store, and defaults `completed` to `false`; and
  `update`, which hands its data to the store untouched;
- the page's derived view state: the `All` / `Active` / `Completed` filter,
  the done and left counts, the rounded completion percentage, and the task
  the summary suggests focusing on. It also models the page's handlers
  (`fetchTasks`, `addTask`, `toggleTask`, `deleteTask`) as methods of a
  `Page` class: the guards they apply, the request they send, and how they
  change the page's state for each outcome of the network.

Modules:

- `Wrappers`: `Option` (an absent JSON field, with `GetOr` for `??`) and `Result` (a thrown error).
- `JsString`: `Trim`, JavaScript's `String.prototype.trim` over the ECMAScript
  white space and line terminator set.
- `TaskTypes`: the task record and the create and update bodies.
- `TasksService`: `create`, `update`, and how the store applies an update's fields.
- `TaskView`: filter, counts, progress, focus suggestion.
- `HomePage`: the requests the page sends and the `Page` class with its handlers.

`Math.round(completedCount / tasks.length * 100)` is modelled as exact
half-up rounding, `(200c + n) div (2n)`, and specified by its defining
bracket `2n*p <= 200c + n < 2n*(p + 1)`.

Two behaviours of the code that are easy to misread, modelled as written:
a successful fetch whose body is not a JSON array empties the list (it is not
left unchanged), and a percentage of 100 needs a non-empty list (an empty list
shows 0 even though "every task is done" holds vacuously).

## Model

| member | source | states |
|---|---|---|
| `JsString.IsWhitespace` | backend/src/tasks/tasks.service.ts:17 | the characters `trim` removes: the ECMAScript WhiteSpace and LineTerminator code points (TAB, VT, FF, space, NBSP, ZWNBSP, the Zs space separators, LF, CR, LS, PS) |
| `JsString.LeadingWhitespace` | backend/src/tasks/tasks.service.ts:17 | the length of the longest run of white space at the start of the input: everything before it is white space, and the character at it (if any) is not |
| `JsString.TrailingWhitespaceStart` | backend/src/tasks/tasks.service.ts:17 | where the longest run of white space at the end of the input starts: everything from it on is white space, and the character before it (if any) is not |
| `JsString.LeadingWhitespaceUnique` | backend/src/tasks/tasks.service.ts:17 | the leading run is the only white space prefix followed by a non-white-space character or the end |
| `JsString.TrailingWhitespaceUnique` | backend/src/tasks/tasks.service.ts:17 | the trailing run is the only white space suffix preceded by a non-white-space character or the start |
| `JsString.Trim` | backend/src/tasks/tasks.service.ts:17 | the trimmed title neither starts nor ends with white space, is no longer than the input, and is empty exactly when the input is all white space |
| `JsString.TrimIsInfix` | backend/src/tasks/tasks.service.ts:17 | the trimmed title is the contiguous piece of the input that starts right after its leading white space, with only white space after it |
| `JsString.TrimUnique` | backend/src/tasks/tasks.service.ts:17 | conversely, white space wrapped around a trimmed middle is exactly what trim removes |
| `JsString.TrimOfTrimmed` | backend/src/tasks/tasks.service.ts:17 | an already trimmed title comes back unchanged |
| `JsString.TrimIdempotent` | backend/src/tasks/tasks.service.ts:17 | trimming twice equals trimming once |
| `TasksService.Create` | backend/src/tasks/tasks.service.ts:16-25 | fails with 'title is required' exactly when the body or title is missing or the title is all white space (no store data is produced then); otherwise the stored title is the trimmed input, non-empty and trimmed, and `completed` is the supplied flag or `false` when omitted; only title and completed are handed to the store |
| `TasksService.Update` | backend/src/tasks/tasks.service.ts:28-30 | the store receives the given id and exactly the given data, with no trimming or check |
| `TasksService.ApplyPatch` | backend/src/tasks/tasks.service.ts:29 | the store's write of an update: the id is kept, each supplied field replaces the old value, each omitted field keeps it |
| `TasksService.CreateKeepsTrimmedTitle` | backend/src/tasks/tasks.service.ts:17-23 | a non-empty, already trimmed title is accepted and stored exactly as sent |
| `TasksService.CreateTitleIdempotent` | backend/src/tasks/tasks.service.ts:17-23 | sending back the title create stored, with the same flag, gives the same create result |
| `TasksService.UpdateAllowsWhatCreateRefuses` | backend/src/tasks/tasks.service.ts:16-30 | a blank title is refused by create yet written by update |
| `TaskView.Shows` | frontend/src/app/page.tsx:65-69 | the filter callback: `Active` shows exactly the tasks not done, `Completed` exactly the done ones, `All` every task |
| `TaskView.FilterTasks` | frontend/src/app/page.tsx:65-69 | the visible tasks are exactly the listed tasks the filter shows; `All` (or any filter that shows every task) returns the list unchanged, a filter that shows none returns the empty list |
| `TaskView.FilterAppend` | frontend/src/app/page.tsx:65-69 | filtering keeps list order: filtering a concatenation is the concatenation of the filtered parts |
| `TaskView.FilterIdempotent` | frontend/src/app/page.tsx:65-69 | filtering an already filtered list with the same filter changes nothing |
| `TaskView.ActiveCompletedPartition` | frontend/src/app/page.tsx:65-69 | the Active and Completed buckets together hold every task exactly as often as the list does, and their lengths add up to the list's |
| `TaskView.CompletedCount` | frontend/src/app/page.tsx:71 | the completed count never exceeds the number of tasks |
| `TaskView.CompletedCountByPositions` | frontend/src/app/page.tsx:71 | the completed count equals the number of list positions holding a completed task |
| `TaskView.ActiveCount` | frontend/src/app/page.tsx:72 | the active count plus the completed count is the number of tasks, and the active count is the size of the Active bucket (so it is never negative) |
| `TaskView.Progress` | frontend/src/app/page.tsx:73-75 | the percentage lies in 0..100, is 0 for an empty list with no division, and otherwise is the nearest whole percentage to completed/total with halves rounded up |
| `TaskView.RoundedPercent` | frontend/src/app/page.tsx:74 | for c of n tasks done (n > 0), the result is at most 100 and is the whole percentage p with 2n*p <= 200c + n < 2n*(p + 1), that is 100c/n rounded half up |
| `TaskView.ProgressAllDone` | frontend/src/app/page.tsx:73-75 | a non-empty list whose tasks are all done shows 100 |
| `TaskView.ProgressNoneDone` | frontend/src/app/page.tsx:73-75 | a list with no task done shows 0 |
| `TaskView.ProgressMonotone` | frontend/src/app/page.tsx:73-75 | for lists of the same length, more completed tasks never give a lower percentage |
| `TaskView.FirstIncomplete` | frontend/src/app/page.tsx:218 | finds nothing exactly when every task is done; otherwise returns the task at the first position that is not done, with all earlier tasks done |
| `TaskView.FirstIncompleteHeadsActive` | frontend/src/app/page.tsx:218 | the first incomplete task is the head of the Active bucket, and there is none when that bucket is empty |
| `TaskView.FocusTitle` | frontend/src/app/page.tsx:218 | the suggestion is the title of the first task not done, or "your pending task" when there is no such task or its title is empty; it is never empty |
| `HomePage.IsOk` | frontend/src/app/page.tsx:31 | `res.ok`: the response status lies in 200..299 |
| `HomePage.PayloadTasks` | frontend/src/app/page.tsx:16 | a fetched body that is not an array gives the empty list; an array is taken as the list |
| `HomePage.AddRequest` | frontend/src/app/page.tsx:24-29 | no request when the input is all white space; otherwise a create request carrying the input as typed and no flag |
| `HomePage.ToggleRequest` | frontend/src/app/page.tsx:46-51 | the update request for a task's id carries only `completed`, set to the negation of the task's flag |
| `HomePage.AddRequestAccepted` | frontend/src/app/page.tsx:24-29 | the page sends a title exactly when the service's create would accept it, and the service then stores it trimmed and not done |
| `HomePage.ToggleTwiceRestores` | frontend/src/app/page.tsx:50 | a toggle written by the store flips only the flag, and a second toggle restores the task |
| `HomePage.Page.constructor` | frontend/src/app/page.tsx:7-10 | the page starts with no tasks, an empty input, no message and the `All` filter |
| `HomePage.Page.Visible` | frontend/src/app/page.tsx:65-69 | the rendered tasks are exactly the page's tasks that its selected filter shows |
| `HomePage.Page.FetchTasks` | frontend/src/app/page.tsx:12-21 | a received body replaces the list (a non-array one by the empty list); a failure keeps the list and sets the load-failed message |
| `HomePage.Page.AddTask` | frontend/src/app/page.tsx:23-44 | a blank input sends nothing and changes nothing; otherwise the input is posted as typed and the page ends in the state `Submit` describes |
| `HomePage.Page.Submit` | frontend/src/app/page.tsx:25-43 | a transport failure or a non-2xx status only sets the matching message, keeping list and input; a 2xx status clears the input, sets the saved message and reloads the list; the filter never changes |
| `HomePage.Page.ToggleTask` | frontend/src/app/page.tsx:46-53 | sends the toggle request; if it was delivered the list is reloaded, if the transport failed nothing changes |
| `HomePage.Page.DeleteTask` | frontend/src/app/page.tsx:55-58 | sends a delete for the id; if it was delivered the list is reloaded, if the transport failed nothing changes |
| `HomePage.Page.EditTitle` | frontend/src/app/page.tsx:96 | typing replaces the input and nothing else |
| `HomePage.Page.SelectFilter` | frontend/src/app/page.tsx:113-115 | a filter button selects that filter and changes nothing else |

## Left out

- The store calls `findMany`, `findUnique`, `create`, `update` and `delete`, and the module-level store client (backend/src/tasks/tasks.service.ts:4-35): a database library outside this model. `findAll`, `findOne` and `remove` are single calls to it with no logic of their own; id assignment and not-found behaviour are not modelled.
- `TasksService.ApplyPatch`: states only the field-by-field write of an update that the partial-update design implies; the store's own failure cases are not modelled.
- A title or flag of the wrong JSON type (a number for `title` makes `trim` throw a type error; a non-boolean `completed` reaches the store): bodies are modelled as typed, `None` standing for both `undefined` and `null`.
- The controller (backend/src/tasks/tasks.controller.ts): routing, and the `+id` conversion whose non-numeric case is a floating-point NaN.
- Network I/O, promises and their ordering: each handler is given the outcome of its requests as parameters, and the un-awaited reload after a request is modelled as happening right after it. A failure while reading the error body of a rejected post (which would yield the network message) is not distinguished.
- The wording of the status messages and `console.error` logging: messages are modelled by kind.
- React hooks, `useEffect` (which simply calls `fetchTasks` once) and all rendering other than the derived values.
- The conic-gradient angle (frontend/src/app/page.tsx:200): floating point and purely visual.
- `TaskView.Progress`: exact half-up rounding of the rational ratio; whether IEEE-754 arithmetic in `Math.round((c / n) * 100)` lands on the same side of a .5 tie is not modelled.
