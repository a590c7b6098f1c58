# Task manager: a Dafny model of the task table, its service and its HTTP handlers

The system is a small REST API over one entity, the task: an integer key,
a title, an optional deadline (a calendar date) and a completion flag. This
project models three parts of it:

- **the row and its JSON rendering** (`models.dfy`, module `Models`).
  `Task` is the row. `ToDict` is `Task.to_dict()`, which renders the
  deadline as `YYYY-MM-DD` or `null`.
- **the task service** (`services.dfy`, module `Services`). The class
  `TaskService` holds the table as a map from key to row. Its methods are
  `get_all_tasks`, `get_task`, `create_task`, `update_task` and
  `delete_task`. `GetAllTasks` is specified directly against the map: it
  returns each stored row exactly once. The other four are specified against
  a pure function on tables: `Get`, `Inserted`, `Updated` (built on the
  partial update `Patch`) and `Removed`. `TaskNotFoundError` is a tagged error value.
- **the handlers for `/tasks`** (`routes.dfy`, module `Routes`):
  - `format_date` (`FormatDate`);
  - the list, get and delete handlers, as methods over the service;
  - the create and update handlers, as decisions: either a 400 with its
    exact message, or the service call they forward. Functions give the
    status each handler answers with for what the service returns.

Supporting modules:

- `dates.dfy` (`Dates`): Gregorian calendar dates in Python's date range
  (years 1 to 9999), `date.isoformat()`, and a strict parser of the
  `full-date` form of section 5.6 of RFC 3339.
- `json.dfy` (`Json`): decoded JSON values and Python truthiness.
- `wrappers.dfy` (`Wrappers`): `Option`, `Result`, `Outcome`.

`datetime.strptime` is library code. It is modelled as `Dates.Strptime`.
On the zero-padded `YYYY-MM-DD` form it accepts exactly the renderings of
real dates and returns that date. It refuses any string without the shape
of a `%Y-%m-%d` match: 8 to 10 characters with a `-` at index 4. Its result
on the remaining strings is the function parameter `otherForms`, which the
handler functions carry.

The create and update handlers pass a `deadline` keyword argument
(routes.py:100, routes.py:137). The service's `create_task` and
`update_task` do not declare that parameter (services.py:28,
services.py:39). Each layer is modelled as written:

- the service's create stores no deadline, and its update never changes one;
- the handlers are modelled up to the call they forward.

As written, the call itself raises `TypeError`. See "Left out".

The model follows the code where the code promises less than one might
expect of such an API:

- ids are unique only among the rows currently stored (models.py:11); the
  model does not claim they are never reused;
- a POST title is checked only for presence of the key (routes.py:92), so
  an empty title is accepted;
- a PUT with a malformed deadline is answered with 400 even when the id
  does not exist, because the deadline is validated before the service is
  called (routes.py:131-141).

## Model

| member | source | states |
|---|---|---|
| `Dates.DaysInMonth` | routes.py:26 | Gregorian month lengths: February has 29 days in a leap year and 28 otherwise; April, June, September and November have 30; the other seven months have 31 |
| `Dates.IsoFormat` | models.py:20 | `date.isoformat()` yields the zero-padded `YYYY-MM-DD` form: ten characters, hyphens at positions 4 and 7, digits elsewhere |
| `Dates.DecimalValueOfPadded` | models.py:20 | reading back a zero-padded rendering of `n` in `width` digits gives `n` whenever `n < 10^width` |
| `Dates.PaddedOfDecimalValue` | routes.py:26 | re-rendering the value of a digit string at its own width gives the same string, leading zeros included |
| `Dates.ParseIsoFormat` | routes.py:26 | parsing the rendering of any date gives that date back |
| `Dates.IsoFormatOfParse` | routes.py:26 | a string the strict parser accepts is exactly the rendering of the date it yields |
| `Dates.IsoFormatInjective` | models.py:20 | distinct dates render to distinct strings |
| `Dates.RejectsMonthThirteen` | routes.py:25-28 | `2024-13-40` names no date and is refused |
| `Dates.AcceptsLeapDay` | routes.py:26 | `2024-02-29` is accepted as February 29, 2024 |
| `Dates.RejectsLeapDayInCommonYear` | routes.py:26 | `2023-02-29` is refused |
| `Dates.RejectsFebruaryThirty` | routes.py:26 | `2024-02-30` is refused |
| `Dates.RejectsYearZero` | routes.py:26 | `0000-01-01` is refused: there is no year 0 |
| `Dates.Strptime` | routes.py:26 | on a zero-padded string, `strptime(s, "%Y-%m-%d")` returns the date `d` exactly when `s` is the rendering of `d`, and raises otherwise; a string that is not 8 to 10 characters long with a `-` at index 4 cannot match `%Y-%m-%d` and raises |
| `Models.DeadlineJson` | models.py:20 | the deadline renders as `null` exactly when it is absent; otherwise it renders as a `full-date` string that parses back to the same date |
| `Models.ToDict` | models.py:16-22 | `to_dict` has exactly the keys `id`, `title`, `deadline` and `completed`; it passes the id, title and flag through unchanged and renders the deadline as above |
| `Models.ToDictInjective` | models.py:16-22 | two rows with the same dictionary are the same row: the rendering loses nothing |
| `Services.Get` | services.py:21-24 | the lookup succeeds exactly when the key is stored and then returns the stored row unchanged; otherwise it fails with `TaskNotFound(id)` |
| `Services.Inserted` | services.py:31-34 | inserting under an unused key adds exactly that key, with the given title and flag and no deadline; every existing row is kept and the table stays well keyed |
| `Services.Patch` | services.py:45-48 | the title is overwritten only when its argument is not `None`, and the same holds for the flag; the id and the deadline never change |
| `Services.Updated` | services.py:42-49 | an update keeps every key; it patches row `id` and leaves every other row as it is; when `id` is absent the table is unchanged; the table stays well keyed |
| `Services.Removed` | services.py:57-61 | a delete removes exactly key `id`; every remaining row is unchanged; the table stays well keyed |
| `Services.UpdateNothingIsIdentity` | services.py:45-49 | an update with neither title nor flag leaves the table as it is |
| `Services.UpdateIdempotent` | services.py:45-49 | applying the same update twice gives the same table as applying it once |
| `Services.GetAfterRemove` | services.py:57-61 | after a delete, getting that id fails with `TaskNotFound`, and getting any other id gives what it gave before |
| `Services.FreshIdExists` | models.py:11 | every table leaves some integer key unused, so an insert can always be given a key that no stored row has |
| `Services.TaskService.GetAllTasks` | services.py:11-16 | returns every stored row exactly once, in no particular order, with no other rows, and changes nothing |
| `Services.TaskService.GetTask` | services.py:18-26 | returns the stored row under `id`, whose own id is `id`, or `TaskNotFound(id)`; the table is not changed |
| `Services.TaskService.CreateTask` | services.py:28-37 | adds one row under a key that was not stored before; its title and flag are the arguments, the flag defaults to `false`, and there is no deadline; all other rows are unchanged |
| `Services.TaskService.UpdateTask` | services.py:39-52 | the new table is `Updated` of the old one; the method returns the updated row, or `TaskNotFound(id)` with the table unchanged |
| `Services.TaskService.DeleteTask` | services.py:54-63 | the new table is the old one without key `id`; the method fails with `TaskNotFound(id)`, removing nothing, exactly when `id` was not stored |
| `Services.CreateUpdateDeleteScenario` | test_routes.py:17-44 | create `"Old"`, read it back, update it to `"New"` and completed, delete it, get it again: the read back equals the created row, the update keeps the id and the absent deadline, the final get fails, and the table ends as it began |
| `Routes.FormatDate` | routes.py:23-32 | a falsy input (absent, `null`, `""`) gives no deadline; for a non-empty string, the date `strptime` parses, or 400 "Invalid date format for deadline; expected YYYY-MM-DD" exactly when it cannot parse one; an accepted string always yields the parsed date, never "no deadline" |
| `Routes.FormatDateRejectsNonDates` | routes.py:25-28 | `format_date("tomorrow")` and `format_date("2024/01/01")` answer 400 with the date-format message |
| `Routes.FormatDateOfFullDate` | routes.py:25-28 | on a zero-padded string, `format_date` yields date `d` exactly when the string renders `d`, and answers 400 exactly when the string renders no date |
| `Routes.FormatDateRejectsMonthThirteen` | routes.py:25-28 | `format_date("2024-13-40")` answers 400 with the date-format message |
| `Routes.FormatDateFalsy` | routes.py:29-30 | a deadline entry that is absent, `null` or the empty string gives no deadline |
| `Routes.DeadlineRoundTrip` | models.py:20 | the deadline entry from `to_dict`, fed to `format_date`, gives back the row's deadline, present or absent |
| `Routes.RenderAll` | routes.py:46 | the list comprehension renders every listed row, in the same order, as the JSON object of its `to_dict` |
| `Routes.RenderListing` | routes.py:44-46 | when a listing holds each stored row, every rendered object is the rendering of the stored row named by its own `id` entry, and every stored row's rendering appears |
| `Routes.ListTasks` | routes.py:34-46 | `GET /tasks` answers 200 with a JSON array of as many objects as there are rows; each object renders the stored row named by its `id`, and every stored row appears |
| `Routes.GetTask` | routes.py:48-69 | `GET /tasks/<id>` answers 200 with `to_dict` of the stored row, or 404 when `id` is not stored |
| `Routes.CreateTaskDecision` | routes.py:91-102 | POST answers 400 "Missing field: title" exactly when there is no body or no `title` key; it answers 400 with the date message exactly when a title is present and the deadline is refused; otherwise, and exactly then, it forwards the title, the parsed deadline and `completed`, which defaults to `false`; a rejection carries one of those two messages and no other |
| `Routes.CreateTaskResponse` | routes.py:104 | POST answers 201 with `to_dict` of the created task exactly when the request passes validation; otherwise 400 with "Missing field: title" exactly when there is no body or no title, and with the date-format message exactly when a title is present and the deadline is refused |
| `Routes.TitleCheckedBeforeDeadline` | routes.py:92-96 | with no body, or a body without a title, the answer is the title message whatever the deadline is |
| `Routes.CreateDefaults` | routes.py:96-101 | a POST holding only a title forwards no deadline and `completed` as `false` |
| `Routes.UpdateTaskDecision` | routes.py:129-139 | PUT answers 400 with the date message exactly when `format_date` refuses the deadline; otherwise it forwards the id, `title` and `completed` as `data.get` reads them (`None` when absent) and the parsed deadline |
| `Routes.UpdateTaskResponse` | routes.py:133-143 | PUT answers 400, with the date-format message, exactly when validation fails, 404 exactly when it passes and the service reports `TaskNotFound`, and otherwise 200 with `to_dict` of the updated task |
| `Routes.DeadlineCheckedBeforeLookup` | routes.py:131-141 | a malformed deadline gets 400, not 404, even when the service would report the id as not found |
| `Routes.DeleteTask` | routes.py:145-167 | `DELETE /tasks/<id>` removes exactly that row and answers 204 with an empty body, or answers 404 and removes nothing |
| `Routes.DeleteThenGet` | test_routes.py:37-44 | a DELETE of a stored id answers 204, and a GET of the same id then answers 404 |

## Left out

- database.py and app.py are not part of this model. They hold the engine, the session factory, `init_db` and the Flask app factory: wiring with no logic.
- The database session's lifecycle (`add`, `commit`, `refresh`, `close`) is not modelled. Each service method is one atomic update of the table.
- Flask's transport is not modelled: `jsonify`, how `get_json` treats the content type, Blueprint routing and the `<int:>` path converter. The id arrives as an integer. An `abort` is modelled as its status and optional description, not as the error page it renders.
- Concurrent requests and last-writer-wins across them are not modelled; the code has no such logic.
- How SQLite chooses a rowid is not modelled. `CreateTask` picks any key not currently stored.
- `Dates.Strptime`: a string that is not 8 to 10 characters long with a `-` at index 4 is refused, because no `%Y-%m-%d` match has another shape. For the remaining strings that are not zero-padded `YYYY-MM-DD`, the result is the parameter `otherForms`. This covers single-digit months and days, a space before a one-digit day, other Unicode digits, and malformed strings of the same shape such as `2024-1x-01`. The library's parsing rules for these are not part of this model's sources.
- `Routes.UpdateTaskDecision`: requires a JSON body, because the handler calls `data.get` on `None` otherwise, which is a crash (500).
- `Routes.FormatDate`: requires the deadline to be falsy or a string, because a truthy value of another type makes `strptime` raise `TypeError` (500). `Routes.CreateTaskDecision` and `Routes.UpdateTaskDecision` carry the same condition, but only where the deadline is read.
- `Routes.CreateTaskResponse`: takes the created task as a parameter. `Routes.UpdateTaskResponse` does the same with the service's result. As written, the handler's call with the `deadline` keyword raises `TypeError` (500) before the service runs, so POST and PUT are modelled only up to the call they forward.
- The handlers forward `title` and `completed` as JSON values. The service model takes a string and a boolean, as its signatures declare. What the database does with other values (a `null` title violates the column's NOT NULL constraint) is not modelled.
- JSON numbers are integers in this model; fractional numbers are not modelled.
- The text of `TaskNotFoundError`'s message ("No task with id <id>") is represented by the id it carries, since no handler sends it.
