# Smart Todo App — a Dafny model

This project models the core of a small todo application in Dafny. The
backend is a FastAPI service over one SQL table `todos`. It lists,
searches, counts, creates, updates and deletes todos. The frontend is a
React single-page app: a coordinator component (`App`), a creation form,
one row per todo with an inline editor, and a statistics panel.

The model is purely functional.

- The table is a sequence of `Todo` rows whose ids are unique (the primary
  key). `Crud.GetTodo` is its view as a map from id to row.
- Each endpoint is a function from the table and the request to the table
  afterwards and the response.
- Each frontend handler is a function from the component state and the
  outcome of its HTTP request to the new state.
- The current time, a database failure, and the browser's date conversions
  are parameters.

Modules follow the source files:

| module | source |
|---|---|
| `Models` | `backend/models.py` and the request bodies |
| `Ordering`, `Crud` | `backend/crud.py` |
| `Api` | `backend/main.py` |
| `Payload` | the draft and request body shared by both editors |
| `TodoItem` | `frontend/src/components/TodoItem.jsx` |
| `TodoForm` | `frontend/src/components/TodoForm.jsx` |
| `StatsPanel` | `frontend/src/components/Statistics.jsx` |
| `App` | `frontend/src/App.jsx` |
| `Text`, `Wrappers` | string operations and `Option` / `Result` |

## Model

| member | source | states |
|---|---|---|
| Text.Trim | frontend/src/components/TodoForm.jsx:13 | The trimmed text is empty exactly when the input is all white space. A non-empty result neither starts nor ends with white space. |
| Text.TrimIsSlice | frontend/src/components/TodoForm.jsx:18-21 | `trim` only removes white space, and only at the ends: the result occurs in the input with nothing but white space before and after it. |
| Text.TrimIdempotent | frontend/src/components/TodoItem.jsx:12-17 | Trimming an already trimmed title, description or category changes nothing. |
| Text.ContainsIff | backend/crud.py:17-22 | `x ilike '%term%'` holds exactly when the term occurs at some position of `x`, in both directions. |
| Text.EmptyTermMatches | backend/crud.py:44-50 | The empty term matches every non-null column. |
| Text.Split | backend/main.py:19 | `split(",")` yields at least one piece, and no piece contains the separator. |
| Text.JoinSplit | backend/main.py:19 | Joining the pieces of `split(",")` with "," gives back the original string. |
| Text.SplitJoin | backend/main.py:19 | Splitting a join of comma-free pieces recovers exactly those pieces. |
| Models.NewTodo | backend/models.py:11-18 | A new row takes each field from the request. `completed` defaults to false and `priority` to "medium". The id and creation time are the ones assigned. |
| Models.ApplyUpdate | backend/crud.py:115-118 | A field given in the update takes its value. A field left out keeps its old value. The id and creation time never change. |
| Models.ApplyUpdateLaws | backend/crud.py:116-118 | An update that sets nothing is the identity. Applying the same update twice is applying it once. |
| Models.ColumnNamed | backend/crud.py:33 | Each column name, whether or not the UI offers it, names its own column. Any name that is not a column falls back to `created_at`. |
| Ordering.StrLeTotal | backend/crud.py:34-37 | Any two strings are ordered one way or the other. |
| Ordering.StrLeTransitive | backend/crud.py:34-37 | String order is transitive. |
| Ordering.StrLeAntisymmetric | backend/crud.py:34-37 | Strings ordered both ways are equal. |
| Ordering.KeyLeTotal | backend/crud.py:34-37 | Column values, including NULL, are totally ordered. |
| Ordering.KeyLeTransitive | backend/crud.py:34-37 | Column value order is transitive. |
| Ordering.KeyLeAntisymmetric | backend/crud.py:34-37 | Column values ordered both ways are equal. |
| Crud.UniqueCons | backend/models.py:11 | Putting a row whose id is new in front of a table with unique ids keeps the ids unique. |
| Crud.UniqueTail | backend/models.py:11 | Dropping the first row of a table with unique ids keeps them unique. The dropped id occurs nowhere else. |
| Crud.Where | backend/crud.py:13-30 | Filtering keeps exactly the rows satisfying the condition and never adds a row. Unique ids stay unique. |
| Crud.WhereCongruent | backend/crud.py:13-30 | Two conditions that agree on every row of the table select the same rows. |
| Crud.CountComplement | backend/crud.py:56-58 | The rows counted by a condition and by its complement add up to the whole table. |
| Crud.CountMonotone | backend/crud.py:61-70 | A condition that implies another counts no more rows. |
| Crud.CountDisjoint | backend/crud.py:61-63 | Three mutually exclusive conditions within a fourth count no more than it. |
| Crud.PrecedesTotal | backend/crud.py:34-37 | In either direction, of any two rows one may precede the other. |
| Crud.PrecedesTransitive | backend/crud.py:34-37 | The row order is transitive in either direction. |
| Crud.InsertFront | backend/crud.py:34-37 | A row that precedes the head of a sorted list can be put in front of it. |
| Crud.InsertBehind | backend/crud.py:34-37 | A sorted list stays sorted when its head is kept in front of a sorted rest built from its tail and the new row. |
| Crud.Insert | backend/crud.py:34-37 | Inserting into a sorted list adds exactly that row and keeps the list sorted. |
| Crud.Sort | backend/crud.py:32-39 | `ORDER BY` returns a permutation of its input, sorted by the column in the direction asked. |
| Crud.GetTodos | backend/crud.py:8-39 | The list holds exactly the rows passing every supplied filter, each once. It is sorted by `sort_by`, ascending only for "asc". |
| Crud.SearchTodos | backend/crud.py:42-51 | The search holds exactly the rows whose title, description or category contains the term, ignoring case. |
| Crud.SearchAgreesWithList | backend/crud.py:16-24 | Apart from order, the search query returns the same rows as the list query with only `search` set. |
| Crud.GetTodo | backend/crud.py:89-90 | A row is found exactly when the table holds its id, and the row found has that id. |
| Crud.Statistics | backend/crud.py:54-80 | `total` is the table size and `completed + active == total`. Each priority count is the number of open todos with that priority. Overdue todos are the open ones due before now, so never more than `active`. The three priority counts together stay within `active`. |
| Crud.Categories | backend/crud.py:83-86 | The category list holds each non-empty category of some row, exactly once. |
| Crud.NextId | backend/models.py:11 | The id given to a new row is positive and larger than every id in use. |
| Crud.CreateTodo | backend/crud.py:93-107 | A new row with a fresh id is appended, built from the request. If the database raises, the table is left as it was and the error is passed on. |
| Crud.GetTodoAppend | backend/crud.py:98-101 | A row appended under an unused id is found by that id. |
| Crud.UpdateRows | backend/crud.py:115-121 | Only the row with the id changes, and it becomes the updated row. Every other id maps to the same row as before. |
| Crud.UpdateTodo | backend/crud.py:110-122 | No row with the id gives `None` and no change. Otherwise the row is updated in place, returned, and no other row changes. |
| Crud.RemoveRows | backend/crud.py:130-131 | Removing an id keeps exactly the rows with other ids. With unique ids, exactly one row goes. |
| Crud.DeleteTodo | backend/crud.py:125-132 | The result is true exactly when the id existed. Afterwards no row has that id, and all others remain. |
| Api.ReadTodos | backend/main.py:42-54 | `GET /api/todos` answers 200 with `get_todos` of the query parameters. `sort_by` defaults to "created_at" and `order` to "desc". |
| Api.DefaultListIsNewestFirst | backend/main.py:48-49 | With no query parameters the list is every row, newest first. |
| Crud.WhereAll | backend/crud.py:11-14 | A filter that every row passes leaves the table as it is. |
| Api.SearchEndpoint | backend/main.py:57-63 | `GET /api/todos/search` answers 200 with exactly the rows matching `q`, each once. |
| Api.StatisticsEndpoint | backend/main.py:66-68 | `GET /api/todos/statistics` answers 200 with `get_statistics` unchanged. So the total is the table size and splits into completed and active. |
| Api.CategoriesEndpoint | backend/main.py:71-73 | `GET /api/categories` answers 200 with the non-empty categories in use, each exactly once. |
| Api.CreateEndpoint | backend/main.py:76-88 | `POST /api/todos` answers 201 with the new row, built from the request under an unused id and appended after the existing rows, which are kept. A database error gives 500 "Internal server error: " plus the message, and no change. |
| Api.UpdateEndpoint | backend/main.py:91-100 | `PUT /api/todos/{id}` answers 404 "Todo not found" exactly when the id is absent, changing nothing. Otherwise it answers 200 with the updated row, now stored in place of the old one. Other ids are untouched. The table keeps its size and its unique ids. |
| Api.DeleteEndpoint | backend/main.py:103-108 | `DELETE /api/todos/{id}` answers 404 exactly when the id is absent. Otherwise it answers 204 with no body. Afterwards the table holds exactly the rows with other ids, each once, one row fewer than before. |
| Api.CorsOrigins | backend/main.py:19-21 | A "*" entry or ENVIRONMENT "development" allows every origin. Otherwise the allowed origins are the comma-separated list: none is "*" or contains ",", and joined they give back the setting. |
| Api.DefaultCors | backend/main.py:19 | With nothing configured, the two local development origins are allowed. |
| Payload.Enter | frontend/src/components/TodoForm.jsx:4-8 | Typing into one input changes that input only. |
| Payload.TrimOrNull | frontend/src/components/TodoForm.jsx:19-21 | Trim-or-null gives null exactly for blank text, else the trimmed, non-empty text. |
| Payload.ToPayload | frontend/src/components/TodoForm.jsx:17-23 | The request body has a trimmed title and trimmed-or-null description and category. The priority is as chosen. There is a due date exactly when the date input is filled. |
| Payload.TrimOrNullIsNormal | frontend/src/components/TodoForm.jsx:19 | Text normalised by trim-or-null is already normal. |
| Payload.PayloadIsNormal | frontend/src/components/TodoItem.jsx:13-19 | Every text in a request body is normalised, so normalising again changes nothing. |
| Payload.DraftOf | frontend/src/components/TodoItem.jsx:5-9 | An editor opened on a todo shows its title, description and category, with a null description or category shown as empty. An empty priority shows as "medium". A missing due date shows as an empty date. |
| Payload.UneditedRoundTrip | frontend/src/components/TodoItem.jsx:5-19 | Opening the editor on a normalised todo and saving at once sends the todo's own fields. |
| Payload.CategoryOnlyEdit | frontend/src/components/TodoItem.jsx:11-19 | Changing only the category sends the other fields unchanged, plus the new category trimmed or null. |
| Payload.AsCreate | backend/models.py:14-15 | The form's body read as a `TodoCreate` omits `completed`, so it takes its default, and carries the chosen priority. |
| Payload.AsUpdate | frontend/src/components/TodoItem.jsx:13-19 | An edit body sets every editable field except `completed`. Applied to any todo, it gives a todo whose editable fields are the body. |
| TodoItem.Mount | frontend/src/components/TodoItem.jsx:4-9 | A row starts in display mode, with its draft taken from the todo. |
| TodoItem.Save | frontend/src/components/TodoItem.jsx:11-22 | A blank title does nothing, and the row stays in edit mode. Otherwise the row calls `onUpdate` with its id and the normalised draft, and returns to display mode. |
| TodoItem.Cancel | frontend/src/components/TodoItem.jsx:24-31 | Cancel restores the draft from the todo and returns to display mode without a call. |
| TodoItem.Handle | frontend/src/components/TodoItem.jsx:116-165 | The checkbox, Edit and Delete act in display mode; the inputs, Save and Cancel act in edit mode. Only the checkbox and Delete (display mode) and Save (edit mode) make a call, and every call carries the row's id. An event whose control is not shown changes nothing. Only Edit, Save and Cancel change the mode. Only typing or Cancel change the draft. |
| TodoItem.EditThenCancelRestores | frontend/src/components/TodoItem.jsx:24-31 | Opening the editor and cancelling at once leaves the row as it was mounted. |
| TodoItem.EditThenSaveSendsTodo | frontend/src/components/TodoItem.jsx:11-22 | Opening the editor on a normalised todo and saving at once sends the todo back unchanged and closes the editor. |
| TodoItem.OverdueCases | frontend/src/components/TodoItem.jsx:42 | A todo without a due date, or a completed one, is never overdue. A todo due before now is overdue exactly when it is open. |
| TodoItem.PriorityColor | frontend/src/components/TodoItem.jsx:33-40 | "high", "medium" and "low" each get their own style, and every other value gets the grey style. |
| TodoForm.Submit | frontend/src/components/TodoForm.jsx:11-25 | A blank title sends nothing and changes nothing. Otherwise the form is marked submitting and the normalised draft, with a non-empty title, is sent. |
| TodoForm.Settle | frontend/src/components/TodoForm.jsx:25-38 | Submitting ends in every case. The draft is reset only when the promise fulfilled with something other than `false`. |
| TodoForm.Type | frontend/src/components/TodoForm.jsx:4-8 | Typing changes the draft and not the submitting flag. |
| TodoForm.DisabledMatchesGuard | frontend/src/components/TodoForm.jsx:98 | An enabled submit button always sends a request. A button disabled while not submitting matches a blank title, which sends none. |
| TodoForm.SubmitCycle | frontend/src/components/TodoForm.jsx:11-39 | A success clears the form. A rejection or `false` keeps the draft so the user can retry. |
| TodoForm.BuyMilk | frontend/src/components/TodoForm.jsx:17-23 | "Buy milk" with every optional input empty sends null description, category and due date, and priority "medium". |
| StatsPanel.CompletionRate | frontend/src/components/Statistics.jsx:4-6 | The percentage is the integer nearest to completed/total·100, with halves rounded up. It is 0 when there are no todos. |
| StatsPanel.RateInRange | frontend/src/components/Statistics.jsx:4-6 | With 0 ≤ completed ≤ total the percentage is between 0 and 100. |
| StatsPanel.AllDoneIsHundred | frontend/src/components/Statistics.jsx:4-6 | All todos completed shows 100%. |
| StatsPanel.HundredMeansNearlyAllDone | frontend/src/components/Statistics.jsx:4-6 | 100% means at least 99.5% done, and with fewer than 200 todos, all done. |
| StatsPanel.HundredWithOneLeft | frontend/src/components/Statistics.jsx:4-6 | 199 completed of 200 also shows 100%, so 100% does not imply all done. |
| StatsPanel.RateMonotone | frontend/src/components/Statistics.jsx:4-6 | For a fixed total, completing more never lowers the percentage. |
| StatsPanel.RateExamples | frontend/src/components/Statistics.jsx:4-6 | 0 todos give 0%, 1 of 4 gives 25%, 1 of 3 gives 33%. |
| StatsPanel.Render | frontend/src/components/Statistics.jsx:2-33 | No statistics renders nothing. Otherwise the panel shows the three counts and their percentage, with a missing overdue count shown as 0. |
| StatsPanel.TileFilter | frontend/src/components/Statistics.jsx:12-32 | The Total, Active and Completed tiles select "all", "active" and "completed". The Overdue tile selects nothing. |
| StatsPanel.FromServer | backend/crud.py:72-80 | The frontend reads the server's counts as they were sent, with `overdue` present. |
| StatsPanel.ServerStatsRenderSanely | frontend/src/components/Statistics.jsx:4-33 | For server statistics the percentage is between 0 and 100, the overdue tile is at most the active tile, and active plus completed is the total. |
| App.QueryParams | frontend/src/App.jsx:43-50 | `completed` is sent unless the filter is "all", and is true exactly for "completed". Search, category and priority are sent only when set. The sort column and order are always sent. |
| App.FetchRespectsCriteria | frontend/src/App.jsx:39-52 | The fetched list holds exactly the stored todos matching the criteria, sorted as they ask. |
| App.InitialListIsEverythingNewestFirst | frontend/src/App.jsx:16-32 | On first load the list shows every stored todo, newest first. |
| App.ErrorText | frontend/src/App.jsx:55 | The error shown is the response's `detail` if truthy, else the error message if non-empty, else the fallback, so it is never empty. |
| App.FetchTodos | frontend/src/App.jsx:39-59 | A fetched list replaces the old one and clears the error. A failure keeps the old list and shows a non-empty error. Loading ends either way. |
| App.FetchStatistics | frontend/src/App.jsx:61-68 | New statistics replace the old ones. A failure changes nothing. |
| App.FetchCategories | frontend/src/App.jsx:70-77 | The response's categories, or an empty list when the field is missing, replace the old ones. A failure changes nothing. |
| App.StatisticsReachPanel | frontend/src/App.jsx:61-64 | Statistics fetched from the server render with a percentage in 0..100, an overdue tile no larger than the active one, and the table size as total. |
| App.AddTodo | frontend/src/App.jsx:79-100 | A successful create clears the error (before the refetch that follows) and fulfils. A failed one shows the error and rejects with the same non-empty message. |
| App.AddCycle | frontend/src/App.jsx:92-98 | With the form: a failed create keeps what the user typed and shows an error. A successful one clears the form, and the error before the refetch that follows. |
| App.FormCreateStoresNormalisedTodo | frontend/src/App.jsx:83-87 | What the form submits is stored as a new, open todo created now. Its title is trimmed and non-empty, its texts are normalised, and its priority is the chosen one. |
| App.ReplaceById | frontend/src/App.jsx:105 | The returned todo replaces each entry with its id. Every other entry stays where it was. |
| App.ReplaceAbsent | frontend/src/App.jsx:105 | Replacing an id the list does not hold changes nothing. |
| App.ReplaceKeepsIds | frontend/src/App.jsx:115 | A replacement with the same id keeps every id in its place. |
| App.FetchedListInSync | frontend/src/App.jsx:52 | Every todo in a fetched list is the stored row with its id. |
| App.StoredRowIsFound | backend/crud.py:89-90 | A row of a table with unique ids is what looking up its id finds. |
| App.UpdateKeepsInSync | frontend/src/App.jsx:112-116 | After a successful update, the list patched with the returned todo is still in sync with the table. |
| App.ToggleRequest | frontend/src/App.jsx:104 | The toggle body sets `completed` to the negation of the value passed and nothing else. |
| App.ToggleFlipsOnlyCompleted | frontend/src/App.jsx:102-105 | Ticking a row's checkbox flips that todo's `completed` in the table. It changes no other field and no other todo. |
| App.HandleToggle | frontend/src/App.jsx:102-110 | A returned todo replaces the one with its id. A failure changes nothing. |
| App.HandleUpdate | frontend/src/App.jsx:112-121 | A returned todo replaces the one with its id. A failure leaves the list unchanged and is thrown on to the caller. |
| App.RowSaveStoresEdit | frontend/src/App.jsx:112-115 | Saving a row stores the edited fields, keeps `completed`, and leaves every other todo alone. |
| App.FailedSaveKeepsDraft | frontend/src/components/TodoItem.jsx:13-20 | The row leaves edit mode without waiting. After a failed save the list shows the old todo, while reopening the editor shows the rejected edit. |
| App.DeleteThenRefetch | frontend/src/App.jsx:123-128 | Deleting a todo and refetching shows exactly the previously shown todos with other ids. |
| App.OverdueAgrees | frontend/src/components/TodoItem.jsx:42 | The row's overdue badge and the server's overdue count use the same condition. |
| App.Handle | frontend/src/App.jsx:134-160 | Each criteria handler sets its own criterion and no other. |
| App.ClearSearchDropsSearch | frontend/src/App.jsx:142-144 | Clearing the search drops `search` from the next query and leaves the rest of it as it was. |
| App.TileSelectsItsTodos | frontend/src/components/Statistics.jsx:12-26 | With no other criteria, clicking Total lists every todo, Active the open ones and Completed the completed ones. |

## Notes on the code's behaviour

- The Edit button (`frontend/src/components/TodoItem.jsx:159`) only sets
  `isEditing`. A row's draft is taken from the todo at mount (lines 5-9) and
  on Cancel (lines 24-31), not when editing starts. `App.FailedSaveKeepsDraft`
  shows one consequence.
- The completion percentage is rounded, so 199 of 200 completed todos
  already show 100% (`StatsPanel.HundredWithOneLeft`). Below 200 todos, 100%
  does mean every todo is completed (`StatsPanel.HundredMeansNearlyAllDone`).

## Left out

- Network transport, React rendering and effects, `console` logging and the
  server's `print`s are left out. Each handler takes its request's outcome as
  a parameter instead.
- Re-fetching on every criteria change (the effects at `App.jsx:28-37`) is
  left out. So are the extra fetches after create, toggle, update and delete.
  The lemmas in `App` state what one such fetch returns.
- Requests in flight at the same time, and the stale `todos` captured by the
  toggle and update handlers, are not modelled.
- Crud.SearchHit: `%` and `_` in a search term are taken literally. SQL
  `LIKE` treats them as wildcards.
- Text.LowerChar: only ASCII letters are folded. This is what SQLite's
  `lower()` does; other engines fold more.
- Crud.Sort: NULL sorts below every value, as SQLite orders it. The order of
  rows with equal keys is left open by SQL; the model returns one
  particular order, and its contract does not fix any.
- Models.ColumnNamed: a `sort_by` naming a non-column attribute of the
  class is treated like an unknown name. In the source, `getattr` would
  return that attribute.
- Dates are integer instants. The browser's conversions between a date input
  and an ISO timestamp, and the date formatting in the row, are the
  `DateCodec` parameter. The server's `utcnow()` and the browser's `new Date()`
  are the `now` parameter.
- StatsPanel.CompletionRate: computed in exact integer arithmetic. The
  source computes with floating point, which can differ from exact rounding
  near a half.
- Models.Todo: `title`, `completed` and `priority` are taken as non-null.
  In the source only `title` is declared NOT NULL (`models.py:12`);
  `completed` and `priority` only have defaults (`models.py:14-15`). An
  explicit null for them in an update body is not modelled: `crud.py:115-117`
  would store NULL, and a NULL `completed` would count as active in
  `total - completed` (`crud.py:58`) but in neither filter nor the open-row
  counts. An explicit null `title` would fail the NOT NULL constraint, which
  is not modelled either.
- Request validation by FastAPI/Pydantic (422 responses, the schemas in
  `schemas.py`) is left out; `schemas.py` is not part of this model. The
  request bodies are taken as already parsed into `TodoCreate` and
  `TodoUpdate`.
- Reading environment variables is left out. They are the parameters of
  `Api.CorsOrigins`.
- The database session, `init_db` at startup, and the root endpoint `/` are
  left out.
- The search bar, filter bar, sort bar and list components render
  controls only. What their controls deliver is modelled as the events of
  `App.CriteriaEvent`, with an empty menu choice as `None`.
- App.ErrorText: a `detail` that is not a string (FastAPI's validation
  errors are lists) is not modelled.
- `fetchCategories` on a response without a `categories` field is modelled
  by an `Option`. A field of another type is not.
