# To-do list: a Dafny model

This Dafny project models the logic of a small to-do application. A React front end lists, searches, sorts, looks up, edits and deletes tasks. A Flask back end keeps the tasks in an SQLite table. The model covers three parts:

- **List screen** (`frontend/src/App.js`).
  - The keyword search is modelled in `Search`, with its string operations in `Text`. The query is lower-cased and split on single spaces, and empty pieces are dropped. A task stays in the list when every term occurs in the lower-cased text of its title, id, description or update time.
  - The sort by update time and the asc/desc toggle are modelled in `Sorting`.
  - The screen's state slots and handlers form the class `App.ListScreen`. The handlers are the initial fetch, delete-after-confirm, lookup by id, the two search boxes, closing the looked-up task, and the toggle.
- **Edit screen** (`frontend/src/components/EditTask.jsx`). This is the class `EditTask.EditForm`. It loads a task into both `task` and `initialTask`. On submit it stops with "No changes detected to update." when nothing changed, asks for confirmation, and then PUTs the form.
- **Back end** (`backend/app/tasks.py`). This is the class `Backend.TaskTable`. The table is a map from id to row. A counter supplies fresh ids. Each of the five handlers either changes the map or answers with a status and a JSON body.

Every network call is an input of type `Api.Response`: `Ok(data)`, `HttpError(status, error)` or `NetworkError`. The confirm dialog is a boolean input. `new Date(updated_at)` is an abstract function `instant` from timestamp text to an integer. `CURRENT_TIMESTAMP` is a `now` parameter. Navigation to `/` is the flag `navigatedHome`.

- **Lookup by id.** `fetchTaskById(id)` checks the `searchId` slot and requests the `id` argument. Its one call site passes `searchId` (App.js:141). So `App.ListScreen.FetchTaskById` takes no id and reads the slot.
- **Frames.** Each state-changing method of `ListScreen`, `EditForm` and `TaskTable` names the slots it may write in its `modifies` clause (`modifies this`tasks, this`loading`). Every other slot is therefore unchanged. The client methods that drive a whole screen or table (`App.DeleteThenRender`, `Backend.CreateThenGet` and the like) modify that object as a whole.

Behaviour worth noting:
- **Delete and the looked-up task.** `deleteTask` leaves `taskById` alone, even when it holds the deleted id (App.js:44). The model does the same.
- **Empty id box.** An empty lookup only shows a dialog and clears `taskById`. `NoResult` keeps its value (App.js:57-61).
- **Deleting an absent id.** `delete_task` answers 200 whether or not the id exists (tasks.py:140-144).
- **Create reply.** `create_task` answers `{message, id}` with status 201. It does not send the task back (tasks.py:77).
- **Bad timestamps.** The sort compares `Date` values, so an unparseable timestamp compares as NaN; see "Left out".

## Model

| member | source | states |
|---|---|---|
| `Api.ErrorText` | frontend/src/components/EditTask.jsx:71-73 | a failure carrying a non-empty backend `error` shows that text; every other failure (no response, no `error`, an empty `error`) shows the fallback; the message is empty only if the fallback is |
| `Text.LowerChar` | frontend/src/App.js:82 | one character lower-cased: never an upper-case ASCII letter, always the same letter as the input, and unchanged unless it is an upper-case letter |
| `Text.Lower` | frontend/src/App.js:82 | lower-casing keeps the length |
| `Text.LowerAt` | frontend/src/App.js:86 | each character is lower-cased on its own |
| `Text.LowerIgnoresCase` | frontend/src/App.js:82 | two strings lower-case to the same string exactly when they differ only in the case of ASCII letters |
| `Text.LowerKeepsSpaces` | frontend/src/App.js:82 | lower-casing neither adds nor removes spaces, so it does not move the split points |
| `Text.Split` | frontend/src/App.js:82 | `split(" ")` always yields at least one piece |
| `Text.JoinSplit` | frontend/src/App.js:82 | joining the pieces with single spaces gives the query back; there is one piece per space plus one |
| `Text.SplitPiecesHaveNoSpace` | frontend/src/App.js:82 | no piece contains a space |
| `Text.SplitWithoutSpace` | frontend/src/App.js:82 | a string without spaces is one piece |
| `Text.NonEmpty` | frontend/src/App.js:82 | `filter(Boolean)` keeps exactly the non-empty pieces: each non-empty piece as many times as the input has it, and no empty piece |
| `Text.NonEmptyIsSubsequence` | frontend/src/App.js:82 | the kept pieces are a subsequence of the input: order kept, nothing added |
| `Text.NoPiecesIffAllSpaces` | frontend/src/App.js:82 | no non-empty pieces remain exactly when the string is empty or all spaces |
| `Text.Contains` | frontend/src/App.js:87 | `includes` holds exactly when the needle occurs at some offset of the haystack |
| `Text.NatToDecimal` | frontend/src/App.js:86 | `String(id)` of a natural number is a non-empty string of digits with no leading zero; it starts with `0` only for zero, which prints as `"0"` |
| `Text.DecimalRoundTrip` | frontend/src/App.js:86 | reading the digits back gives the number |
| `Text.DecimalUnique` | frontend/src/App.js:86 | any digit string without a leading zero that denotes `n` is `NatToDecimal(n)`, so the printed form is the canonical one |
| `Text.IntToDecimal` | frontend/src/App.js:86 | `String(id)` starts with a minus sign exactly for a negative id, the rest is digits with no leading zero, it is `"0"` exactly for zero, and it reads back to the id, so distinct ids print differently |
| `Search.Terms` | frontend/src/App.js:82 | every search term is non-empty and contains no space; there are no terms exactly when the query is empty or all spaces |
| `Search.TermMatches` | frontend/src/App.js:85-88 | a term matches exactly when it occurs at some offset of the lower-cased title, id, description or update time |
| `Search.Matches` | frontend/src/App.js:84-89 | a task matches when every term of the query matches it, whatever their order or repetition |
| `Search.FilterTerms` | frontend/src/App.js:81-92 | for a fixed list of terms, each task that matches them all appears as often as in the list, and no other task appears |
| `Search.Filter` | frontend/src/App.js:81-92 | the result is no longer than the list, and holds each task that matches every term as often as the list does, and no other task |
| `Search.TitleWordKept` | frontend/src/App.js:82-89 | a one-word query that occurs, ignoring case, in a listed task's title keeps that task |
| `Search.FilterIsSubsequence` | frontend/src/App.js:81-92 | the search result is a subsequence of `tasks`: order kept, nothing added |
| `Search.FilterMembership` | frontend/src/App.js:81-92 | a task is kept exactly when it is listed and every term occurs in the lower-cased title, id, description or update time |
| `Search.BlankQueryKeepsAll` | frontend/src/App.js:81-92 | an empty or all-space query returns `tasks` unchanged |
| `Search.CaseInsensitive` | frontend/src/App.js:82-86 | changing the letter case of the query does not change the result |
| `Search.FilterIdempotent` | frontend/src/App.js:81-92 | searching the result again with the same query changes nothing |
| `Search.RemoveId` | frontend/src/App.js:44 | after a delete, a task remains exactly when it was listed and has another id, as often as it was listed |
| `Search.RemoveIdIsSubsequence` | frontend/src/App.js:44 | the remaining tasks keep their order |
| `Search.RemoveAbsentId` | frontend/src/App.js:44 | deleting an id that no task has leaves the list as it was |
| `Sorting.Toggle` | frontend/src/App.js:106-108 | the toggle yields `"asc"` or `"desc"`; it yields `"asc"` exactly when the old order was not `"asc"` |
| `Sorting.ToggleTwice` | frontend/src/App.js:106-108 | toggling twice restores `"asc"` or `"desc"` |
| `Sorting.Insert` | frontend/src/App.js:95-103 | inserting one task adds exactly that task |
| `Sorting.InsertSorted` | frontend/src/App.js:95-103 | inserting into a sorted list keeps it sorted |
| `Sorting.SortByUpdated` | frontend/src/App.js:95-103 | the sorted list is a permutation of the input; it is non-decreasing by update instant for `"asc"` and non-increasing for any other order |
| `Sorting.SortedIsUnique` | frontend/src/App.js:95-103 | when update instants are distinct, two sorted permutations of the same tasks are equal |
| `Sorting.ReverseOfAscending` | frontend/src/App.js:98-101 | an ascending list read backwards is descending |
| `Sorting.AscendingReversedIsDescending` | frontend/src/App.js:95-103 | when update instants are distinct, the descending sort is the ascending sort reversed |
| `App.DeletedIdNeverShown` | frontend/src/App.js:44 | after a successful delete, no rendered task has that id, for any query and order |
| `App.ShownTasks` | frontend/src/App.js:81-103 | the rendered list is sorted, and holds a task exactly when the task is listed and matches every term, as often as it is listed |
| `App.ListScreen.constructor` | frontend/src/App.js:9-15 | the initial slots: no tasks, not loading, empty query and id, no result message, no looked-up task, order `"asc"` |
| `App.ListScreen.SortedTasks` | frontend/src/App.js:95-103 | the rendered list is a permutation of the search result, sorted by the current order |
| `App.ListScreen.FetchTasks` | frontend/src/App.js:18-32 | success replaces `tasks` with the response; failure keeps the old list; `loading` ends false; nothing else changes |
| `App.ListScreen.DeleteTask` | frontend/src/App.js:35-53 | declined: no request and no change; confirmed: a request, `loading` false, and on success `tasks` loses every entry with that id; `taskById` untouched |
| `App.ListScreen.FetchTaskById` | frontend/src/App.js:56-78 | empty id box: no request, `taskById` cleared, message and `loading` kept; success sets the task and clears the message; 404 and every other failure set their messages and clear the task; `loading` false |
| `App.ListScreen.EditSearchId` | frontend/src/App.js:135-138 | typing an id replaces it and clears the result message |
| `App.ListScreen.EditSearchQuery` | frontend/src/App.js:205 | typing a query replaces it |
| `App.ListScreen.CloseTaskById` | frontend/src/App.js:164-166 | closing the looked-up task clears it |
| `App.ListScreen.ToggleSortOrder` | frontend/src/App.js:106-108 | the order becomes its toggle |
| `App.DeleteThenRender` | frontend/src/App.js:35-53 | after a confirmed, successful delete no rendered task has the id, and the looked-up task stays |
| `App.EmptyLookup` | frontend/src/App.js:57-61 | an empty id box clears the looked-up task and leaves the list and message alone |
| `EditTask.NothingChanged` | frontend/src/components/EditTask.jsx:50-53 | comparing the title and the description is comparing the whole form with what was loaded |
| `EditTask.EditForm.constructor` | frontend/src/components/EditTask.jsx:8-15 | the form starts blank, with no messages |
| `EditTask.EditForm.FetchTask` | frontend/src/components/EditTask.jsx:18-42 | success puts the title and description into both `task` and `initialTask`; failure sets the load error and navigates to `/`; `loading` ends false |
| `EditTask.EditForm.EditTitle` | frontend/src/components/EditTask.jsx:106 | typing replaces only the title |
| `EditTask.EditForm.EditDescription` | frontend/src/components/EditTask.jsx:115 | typing replaces only the description |
| `EditTask.EditForm.HandleSubmit` | frontend/src/components/EditTask.jsx:44-82 | `message` cleared; no change: "No changes detected to update.", no dialog, no PUT, nothing else changes; declined: "Task update canceled.", no PUT; success: `initialTask` takes the submitted values, `task` blank, navigation to `/`; failure: the backend's error or the fallback, forms kept; `loading` false after a confirmed attempt |
| `EditTask.SubmitRightAfterLoad` | frontend/src/components/EditTask.jsx:25-56 | submitting straight after a load gives the no-changes error and sends nothing |
| `Backend.TaskTable.constructor` | backend/app/db.py:13-18 | a fresh database holds no tasks |
| `Backend.Provided` | backend/app/tasks.py:63-66 | `not title` is false exactly when the key is present and the string is not empty |
| `Backend.TaskTable.Valid` | backend/app/tasks.py:71-77 | every stored id is below the next one INSERT hands out, so that id is free |
| `Backend.TaskTable.RecordsFrom` | backend/app/tasks.py:29-31 | the listing holds exactly the stored rows, each once, in increasing id order |
| `Backend.TaskTable.GetTasks` | backend/app/tasks.py:27-31 | 200 with every row, each exactly once |
| `Backend.TaskTable.CreateTask` | backend/app/tasks.py:62-77 | a missing or empty title or description gives 400 "Title and description are required" and no change; otherwise exactly one new row, stamped `now`, under an id not currently in the table, and 201 with that id |
| `Backend.TaskTable.UpdateTask` | backend/app/tasks.py:104-124 | validation comes first (400 whether or not the id exists); an absent id gives 404 "Task not found" and no change; a present id gets the new title and description and `updated_at = now`; 200; other rows unchanged |
| `Backend.TaskTable.DeleteTask` | backend/app/tasks.py:140-144 | removes that id if present; 200 either way; other rows unchanged |
| `Backend.TaskTable.GetTaskById` | backend/app/tasks.py:171-177 | 200 with the row when present, 404 "Task not found" when absent |
| `Backend.CreateThenGet` | backend/app/tasks.py:71-77 | a get of the new id returns the created values |
| `Backend.UpdateThenGet` | backend/app/tasks.py:113-124 | a get after a successful update sees the new values, the new time and the original creation time |
| `Backend.DeleteThenGet` | backend/app/tasks.py:142-144 | a get after a delete answers 404 |

## Left out

- HTTP, axios, Flask routing, JSON encoding and the flasgger docstrings: each call's result is an input value (`Api.Response`), and each handler takes its request fields as arguments.
- `Text.Lower`: lower-cases ASCII letters only; `toLowerCase` also maps other Unicode letters, some of them to longer strings.
- `Sorting.SortByUpdated`: `new Date(...)` parsing is the abstract function `instant`, so an unparseable timestamp (a NaN comparison) is not modelled. The contract also does not state stability: equal instants keep list order (as in `Array.prototype.sort`), but no lemma says so.
- `Backend.TaskTable.GetTasks`: SQL without `ORDER BY` does not fix the row order. The model lists rows in id order, but only "every row, each once" reflects the source.
- `Backend.TaskTable.CreateTask`: the model's `nextId` never reuses an id. SQLite guarantees that only with `AUTOINCREMENT`, and `schema.sql` is not part of this model; without it, SQLite can reuse the largest deleted id. The contract promises only an id absent from the table, which holds either way.
- Request bodies whose `title` or `description` is not a string (numbers, lists, `null`), and a missing JSON body, are not modelled; a field is either absent or a string.
- `alert`, `console.error` and the loading spinner are left out, and so is display formatting (`toLocaleDateString`, `slice(11, 16)`).
- The browser's `required` check on the edit form's inputs is left out: the model lets a submit with empty fields through, and the back end's 400 then decides.
- Concurrency and re-rendering are left out: overlapping requests, results that arrive after navigation, and the `tasks` captured by `deleteTask`. Each handler is one sequential step.
- frontend/src/components/CreateTask.jsx is not modelled. Its one rule, falling back to a default error message, is `Api.ErrorText`, the same rule the edit screen uses.
- frontend/src/index.js (routes), frontend/src/components/Loading.jsx (markup), backend/app/__init__.py (app wiring) and the SQLite connection code in backend/app/db.py are not part of this model.
