# Todo service: a verified model of the CRUD handlers

This project models the core of a small task-tracking web service. The
service keeps "todo" records in one table and exposes them through five
handlers under `/api/v1/todos`: list (with optional `completed` and
`window` filters), fetch one, create (POST), partially update (PUT) and
delete. Each handler is modelled as a pure function from the request and
the table before it to the response and the table after it. The table is a
finite map from primary key to row, with a counter for fresh keys.

Modules, one per component:

- `Wrappers` (`wrappers.dfy`): `Option`.
- `Json` (`json.dfy`): JSON values, request bodies, and `dict.get`.
- `TodoModel` (`todo_model.dfy`): the `Todo` row and the column defaults on
  insert. Also the partial update PUT applies (`Patch`), the `to_dict`
  serialisation (`ToDict`), and the ISO-8601 conversion, which is left
  abstract as a parameter (`IsoCodec`).
- `TodoStore` (`todo_store.dfy`): the table (`Store`) and its integrity
  invariant (`Valid`: every row sits under its own id, below the next id).
  Also insert, lookup, replace, delete, and the list query's filter
  (`Filter`, `Matches`, `Select`).
- `Routes` (`routes.dfy`): the five handlers, their failure responses, the
  dispatcher `Handle`, and `Run`, which folds `Handle` over a sequence of
  requests.
- `RouteProperties` (`route_properties.dfy`): properties that span several
  requests. These are round trips through GET, idempotence of DELETE and
  PUT, the exact contents and order of the list, and invariants that hold
  over any sequence of requests.

Behaviour the model keeps as the code has it:

- The allow-list check comes first. An unknown key gives 400 "Extra fields
  are detected." even when the id does not exist. `"id"` is not an allowed
  key, so PUT's explicit `id` check (the "Not allowed to change the 'id'
  field" response) can never fire. `UpdateTodo` proves this.
- POST answers 404 (not 400) for a `deadline_at` it cannot parse, and for a
  non-string one.
- PUT does not parse `deadline_at`. It stores the body value as is (null
  clears the deadline), so PUT never answers 404 for a malformed deadline.
- DELETE of a missing id answers 200 with `{}`.
- `to_dict` fills `updated_at` from `created_at`, so clients never see the
  refreshed `updated_at`.
- POST with `"completed": null` stores false. The handler passes None, the
  ORM leaves a None value out of the INSERT for a column that has a default,
  and so the column default (false) applies. `NewTodo` models this.
- PUT refreshes `updated_at` only when some column actually changes. The
  ORM issues no UPDATE otherwise, and the on-update default fires only with
  an UPDATE. In the model a repeated PUT therefore changes nothing
  (`UpdateIdempotent`). The source agrees only for bodies whose values the
  database stores unchanged: a string or null `title` and `description`, a
  boolean `completed`, and no non-null `deadline_at` (see "## Left out").
- The `completed` query parameter is converted with `type=bool`, which is
  Python truthiness of the raw string. Only the empty string selects
  `completed == false`; `?completed=false` lists the completed todos.

Time is an integer count of seconds. A window of `n` days is `n * 86400`
seconds after `now`. The clock reading is passed to each handler as `now`.

## Model

| member | source | states |
|---|---|---|
| TodoModel.NewTodo | todo/models/todo.py:13-24 | A new row has the given title, description and deadline. `completed` takes the column default false when no value is given. `created_at` and `updated_at` are both the insertion time. |
| TodoModel.StoredDeadline | todo/views/routes.py:129 | Assigning a body value to `deadline_at` clears the deadline exactly when the value is null, and otherwise keeps the value unparsed. |
| TodoModel.Patch | todo/views/routes.py:126-129 | Each of title, description, completed and deadline_at takes the body's value when its key is present (even null) and keeps the old value when it is absent. `id` and `created_at` never change. `updated_at` becomes `now` exactly when some column changed. |
| TodoModel.DeadlineJson | todo/models/todo.py:32 | The serialised deadline is null exactly for a row without one, and the ISO string of a parsed deadline otherwise. |
| TodoModel.ToDict | todo/models/todo.py:26-35 | The serialisation has exactly the seven keys id, title, description, completed, deadline_at, created_at, updated_at. Each carries its column, and the `updated_at` slot equals the `created_at` slot. |
| TodoModel.ToDictIgnoresUpdatedAt | todo/models/todo.py:33-34 | Two rows that differ only in `updated_at` serialise identically. |
| TodoModel.ToDictSeparatesIds | todo/models/todo.py:28 | Rows with different ids never serialise to the same object. |
| Json.HasKeyOutside | todo/views/routes.py:67-71 | The allow-list loop rejects a body exactly when its key set is not contained in the allowed keys; the PUT loop at lines 110-114 is the same test. |
| Json.Get | todo/views/routes.py:73-83 | `body.get(key, default)` gives the body's value whenever the key is present, null included, and the default only when the key is absent. |
| TodoStore.Matches | todo/views/routes.py:36-43 | With no filter active every row matches. A row passing an active deadline bound has a (parsed) deadline, so a NULL deadline never passes. A row passing an active `completed` filter holds a boolean. |
| Routes.FailureResponses | todo/views/routes.py:58-124 | Each failure is sent with its status (400 for extra fields, a missing title and a changed id; 404 for a bad deadline and a missing row) and the body `{"error": <message>}` with the handler's exact message. |
| TodoStore.Initial | todo/models/todo.py:13 | The empty table satisfies the key invariant. |
| TodoStore.Insert | todo/models/todo.py:13 | Insertion stores the row under a key unused in a valid table, with that key as its `id`. It adds exactly that key, keeps every other row, and keeps the table valid. |
| TodoStore.Find | todo/views/routes.py:53-55 | Lookup by primary key finds a row exactly when the key is present, and finds the row stored there. |
| TodoStore.Replace | todo/views/routes.py:126-131 | Writing back an updated row changes no key set and no other row. |
| TodoStore.Remove | todo/views/routes.py:146-147 | Deleting removes exactly the given key, keeps every other row, and keeps the table valid. |
| TodoStore.Select | todo/views/routes.py:34-45 | The list query selects exactly the keys whose rows satisfy the filter, each once, in ascending order. |
| TodoStore.LeastExists | todo/views/routes.py:45 | Every non-empty set of keys has a least key, which gives the scan its ascending order. |
| Routes.CompletedArg | todo/views/routes.py:31 | The `completed` parameter is absent exactly when not given. It is false exactly for the empty string, and `"false"` means true. |
| Routes.ListFilter | todo/views/routes.py:31-43 | The deadline bound is active exactly when `window` is given, and lies `window` days after `now`. |
| Routes.SerialiseAll | todo/views/routes.py:47 | The list body serialises each selected row in order. |
| Routes.GetTodos | todo/views/routes.py:28-47 | GET /todos answers 200 with an array. Every entry is the serialisation of a stored row that passes the filter, and every such row's serialisation is in it. |
| Routes.GetTodo | todo/views/routes.py:50-59 | GET one answers 200 with the row's serialisation exactly when the id is stored, and 404 "Todo not found" otherwise. |
| Routes.ParseDeadline | todo/views/routes.py:83-93 | A null deadline is no deadline. A deadline is accepted only as a string the ISO parser accepts, and is stored as the parsed time. |
| Routes.CreateTodo | todo/views/routes.py:62-101 | Checks run in order: unknown key gives 400 "Extra fields are detected.", then null or absent title gives 400, then unparsable deadline gives 404. Every failure leaves the table unchanged. A body passing all three checks always gets 201, with exactly one new row under a fresh key, carrying the body's title, its description (null if absent), completed defaulted to false, and the parsed deadline. Every other row is kept. |
| Routes.UpdateTodo | todo/views/routes.py:104-132 | An unknown key gives 400 even when the id is missing. A missing id gives 404 and creates nothing. A body with "id" always gets "Extra fields are detected.", so the "id" response never occurs. An allowed body on a stored id always gets 200, returning and storing the patched row, and every other row and key is kept. |
| Routes.DeleteTodo | todo/views/routes.py:135-148 | DELETE always answers 200. A missing id gives `{}` and no change. An existing id removes exactly that row and returns its serialisation. |
| Routes.Handle | todo/views/routes.py:28-148 | Reads never change the table. The key counter never decreases. Every request keeps the table valid. |
| RouteProperties.CreateThenGet | todo/views/routes.py:53-59 | After a successful POST, GET of the new id returns exactly what POST returned. |
| RouteProperties.CreateWithTitleOnly | todo/views/routes.py:73-81 | POST with only a title gives 201 with completed false, null description and deadline, and equal `created_at`/`updated_at`. |
| RouteProperties.CreateWithPrintedDeadline | todo/views/routes.py:83-87 | A deadline printed by the ISO printer is accepted by POST and served back as the same string. |
| RouteProperties.CreateRejectsAnyExtraKey | todo/views/routes.py:67-71 | Adding any key outside the allow-list to a POST body makes it fail with 400 and leaves the table unchanged. |
| RouteProperties.UpdateThenGet | todo/views/routes.py:126-132 | After a successful PUT, GET of that id returns exactly what PUT returned. |
| RouteProperties.UpdateIdempotent | todo/views/routes.py:126-131 | Repeating a successful PUT changes nothing further and gets the same response (for the source, only when the body has no non-null `deadline_at`; see Left out). |
| RouteProperties.UpdateHidesRefresh | todo/models/todo.py:33-34 | A PUT's response shows the row's creation time in the `updated_at` slot. |
| RouteProperties.DeleteThenGet | todo/views/routes.py:143-147 | After DELETE, GET of that id is 404 "Todo not found". |
| RouteProperties.DeleteTwice | todo/views/routes.py:143-144 | A second DELETE of the same id answers `{}` and changes nothing. |
| RouteProperties.ListedIffMatches | todo/views/routes.py:36-47 | In a valid table, a row's serialisation is in the list exactly when the row passes the filter. |
| RouteProperties.ListAscendingById | todo/views/routes.py:45-47 | The list is ordered by strictly ascending id, so no row appears twice. |
| RouteProperties.WindowExcludesNoDeadline | todo/views/routes.py:39-43 | With `window` given, a row without a deadline is never listed. |
| RouteProperties.CompletedTrueFilter | todo/views/routes.py:36-37 | `?completed=true` lists exactly the rows whose `completed` is true. |
| RouteProperties.RunPreservesValid | todo/models/todo.py:13 | The key invariant holds after any sequence of requests. |
| RouteProperties.HandleKeepsGone | todo/models/todo.py:13 | No single request re-creates a key that was handed out and is now free. |
| RouteProperties.RunKeepsGone | todo/models/todo.py:13 | A deleted key stays free after any sequence of requests. |
| RouteProperties.HandleKeepsIdentity | todo/models/todo.py:18-20 | No single request rewrites a surviving row's `id` or `created_at`. |
| RouteProperties.RunKeepsIdentity | todo/models/todo.py:18-20 | Across any sequence of requests, a row present at both ends keeps its `id` and `created_at`. |

## Left out

- HTTP plumbing: routing, `jsonify`, and `request.json`. A response is a
  status and a payload. A request body that is not a JSON object is not
  modelled; the source would fail on `body.keys()`.
- The `health` endpoint, the unused `TEST_ITEM` constant, `__repr__`, and
  logging. They do not affect any response or the table.
- The ORM session and commit. Each successful handler is one atomic
  update of the map, and each failure returns the table unchanged.
- ISO-8601 parsing and printing. `fromisoformat` and `isoformat` are the
  parser and printer of an `IsoCodec` parameter; the grammar is not
  modelled. `RoundTrips` states the standard library's promise where a
  lemma needs it.
- The clock. `now` is a parameter, and both timestamp defaults of one
  insert read the same instant.
- Integer parsing of the `window` query parameter (`type=int`). `window`
  arrives as an already-converted `Option<int>`, where None covers both
  "absent" and "not an integer". A window so large that `timedelta`
  overflows (a server error) is not modelled.
- Column types and constraints: `String(80)`, `String(120)` and NOT NULL
  are enforced, if at all, by the database at commit. No handler checks
  them. The model stores the body's JSON values as they are, so a PUT that
  sets `completed` or `title` to null is modelled as succeeding. The same
  holds for type conversion by the ORM at commit: a `completed` that is not
  a boolean (or 0/1) makes the ORM's Boolean type raise, and a string
  `deadline_at` stored by PUT makes the ORM's DateTime type raise on
  SQLite. The source then ends in a server error, while the model answers
  201 or 200.
- Comparison of timezone-naive and timezone-aware datetimes in the window
  filter is not modelled.
- TodoModel.DeadlineJson: for a deadline PUT stored unparsed, the database
  decides at commit what is stored, or fails. The model echoes the stored
  value.
- TodoStore.Select: for a deadline PUT stored unparsed, the database
  decides how it compares. The model never lists it under an active window.
  The list order is the database's, and the model fixes ascending key
  order.
- RouteProperties.UpdateIdempotent: holds of the source only for bodies
  whose values the database stores unchanged: a string or null `title` and
  `description`, a boolean `completed`, and no non-null `deadline_at`. The
  source reloads the row after commit, so a stored value takes the column's
  type: a deadline string becomes a `datetime`, a title `5` becomes `"5"`. A
  repeated PUT then compares the body's value with the reloaded one, finds
  them different, issues an UPDATE and refreshes `updated_at` (on SQLite a
  string deadline already fails at commit). The model compares JSON values
  and leaves the row unchanged. The responses agree either way, because
  `to_dict` never shows `updated_at`.
- TodoModel.Patch: the refresh test compares the body's JSON value with the
  stored JSON value, while the ORM compares the body's value with the value
  it reloaded from the database. The two differ when the column converts the
  value: `{"title": 5}` against a stored `"5"` is a change for the ORM and not
  for the model, and `"completed": 1` against a stored `true` is no change
  for the ORM but a change for the model.
- TodoStore.Insert: fresh keys come from a counter that only grows. A
  database that reuses the largest deleted key (SQLite without
  AUTOINCREMENT) is not modelled.
- JSON numbers are integers. Fractional numbers are not modelled, because
  no handler computes with a number it receives.
