/**
 * The HTTP handlers for `/tasks`: what each route validates, in which order,
 * what it forwards to the task service, and which status it answers with.
 *
 * The create and update handlers pass a `deadline` argument that the
 * service's `create_task` and `update_task` do not declare, so as written a
 * POST or PUT that gets past validation raises `TypeError` (a 500) at the
 * call. They are modelled up to the call they forward (`ServiceCall`), and
 * their answers are given for whatever the service returns (`CreateTaskResponse`,
 * `UpdateTaskResponse`); the service model itself stores no deadline on
 * create and never changes one on update.
 */
module Routes {
  import opened Wrappers
  import opened Json
  import opened Dates
  import opened Models
  import opened Services

  /** What `abort(status[, description])` answers with. */
  datatype HttpError = HttpError(status: int, description: Option<string>)

  const MissingTitle := "Missing field: title"
  const BadDeadline := "Invalid date format for deadline; expected YYYY-MM-DD"

  const MissingTitleError := HttpError(400, Some(MissingTitle))
  const BadDeadlineError := HttpError(400, Some(BadDeadline))
  /** `abort(404)`: the status alone, with the framework's default page. */
  const NotFoundError := HttpError(404, None)

  datatype Response =
    | JsonReply(status: int, body: JsonValue)
    | EmptyReply(status: int)
    | ErrorReply(error: HttpError)
  {
    function Status(): int {
      match this
      case JsonReply(status, _) => status
      case EmptyReply(status) => status
      case ErrorReply(error) => error.status
    }
  }

  /**
   * A request as the handlers see it: no JSON body, or a JSON object of which
   * only the `title`, `deadline` and `completed` entries are read.
   */
  datatype Request =
    | NoBody
    | Body(title: Option<JsonValue>, deadline: Option<JsonValue>, completed: Option<JsonValue>)

  /**
   * `data.get(key, default)`: the entry when the key is present (a JSON `null`
   * included, which reads as `None`), otherwise the default.
   */
  function GetOr(entry: Option<JsonValue>, default: JsonValue): (v: JsonValue)
    ensures entry.Some? ==> v == entry.value
    ensures entry.None? ==> v == default
  {
    if entry.Some? then entry.value else default
  }

  /** The service call a handler makes once a request has passed validation. */
  datatype ServiceCall =
    | CreateCall(title: JsonValue, deadline: Option<Date>, completed: JsonValue)
    | UpdateCall(id: int, title: JsonValue, deadline: Option<Date>, completed: JsonValue)

  datatype Decision = Rejected(error: HttpError) | Forwarded(call: ServiceCall)

  /**
   * The deadline values `format_date` handles: every falsy value and every
   * string. A truthy value of another type makes `strptime` raise
   * `TypeError`, a 500 that is not modelled.
   */
  predicate DeadlineHandled(v: JsonValue) {
    !Truthy(v) || v.JString?
  }

  /**
   * `format_date`: `None` for a falsy input (absent, `null` or `""`), the date
   * `strptime` parses from a non-empty string, or a 400 when it cannot.
   */
  function FormatDate(otherForms: string -> Option<Date>, input: JsonValue): (r: Result<Option<Date>, HttpError>)
    requires DeadlineHandled(input)
    ensures !Truthy(input) ==> r == Ok(None)
    ensures r.Err? ==> r.error == BadDeadlineError
    ensures r.Ok? && r.value.Some? ==> input.JString? && Strptime(otherForms, input.s) == r.value
    ensures Truthy(input) ==> (r.Ok? <==> Strptime(otherForms, input.s).Some?)
    ensures Truthy(input) && r.Ok? ==> r.value == Strptime(otherForms, input.s)
  {
    if !Truthy(input) then Ok(None)
    else
      match Strptime(otherForms, input.s)
      case Some(d) => Ok(Some(d))
      case None => Err(BadDeadlineError)
  }

  /**
   * On a zero-padded string, `format_date` yields a date exactly when the
   * string is that date's rendering, and answers 400 exactly when the string
   * renders no date.
   */
  lemma FormatDateOfFullDate(otherForms: string -> Option<Date>, s: string)
    requires IsFullDate(s)
    ensures forall d: Date {:trigger IsoFormat(d)} :: FormatDate(otherForms, JString(s)) == Ok(Some(d)) <==> s == IsoFormat(d)
    ensures FormatDate(otherForms, JString(s)) == Err(BadDeadlineError) <==> forall d: Date {:trigger IsoFormat(d)} :: s != IsoFormat(d)
  {
  }

  /** A month past December is a 400, not a date. */
  lemma FormatDateRejectsMonthThirteen(otherForms: string -> Option<Date>)
    ensures FormatDate(otherForms, JString("2024-13-40")) == Err(BadDeadlineError)
  {
  }

  /** A string without the shape of a `YYYY-MM-DD` date is a 400, not a date. */
  lemma FormatDateRejectsNonDates(otherForms: string -> Option<Date>)
    ensures FormatDate(otherForms, JString("tomorrow")) == Err(BadDeadlineError)
    ensures FormatDate(otherForms, JString("2024/01/01")) == Err(BadDeadlineError)
  {
  }

  /** The empty string, `null` and an absent entry all mean "no deadline". */
  lemma FormatDateFalsy(otherForms: string -> Option<Date>, req: Request)
    requires req.Body? && (req.deadline.None? || req.deadline == Some(JNull) || req.deadline == Some(JString("")))
    ensures FormatDate(otherForms, GetOr(req.deadline, JNull)) == Ok(None)
  {
  }

  /** The deadline `to_dict` renders is read back by `format_date` as the same deadline, absent or not. */
  lemma DeadlineRoundTrip(otherForms: string -> Option<Date>, t: Task)
    ensures DeadlineHandled(ToDict(t)["deadline"])
    ensures FormatDate(otherForms, ToDict(t)["deadline"]) == Ok(t.deadline)
  {
  }

  /** `[t.to_dict() for t in tasks]`, each rendered as its JSON object. */
  function RenderAll(tasks: seq<Task>): (items: seq<JsonValue>)
    ensures |items| == |tasks|
    ensures forall i :: 0 <= i < |tasks| ==> items[i] == TaskJson(tasks[i])
  {
    seq(|tasks|, i requires 0 <= i < |tasks| => TaskJson(tasks[i]))
  }

  /** `j` is the rendering of the stored row whose key is the `id` entry of `j`. */
  predicate RendersStoredRow(table: Table, j: JsonValue) {
    && j.JObject? && "id" in j.fields && j.fields["id"].JNumber?
    && j.fields["id"].n in table && j == TaskJson(table[j.fields["id"].n])
  }

  /** A listing that holds every row of the table once renders every row once, and nothing else. */
  lemma RenderListing(table: Table, tasks: seq<Task>)
    requires forall i :: 0 <= i < |tasks| ==> tasks[i].id in table && table[tasks[i].id] == tasks[i]
    requires forall id :: id in table ==> table[id] in tasks
    ensures forall i :: 0 <= i < |tasks| ==> RendersStoredRow(table, RenderAll(tasks)[i])
    ensures forall id :: id in table ==> TaskJson(table[id]) in RenderAll(tasks)
  {
  }

  /** `GET /tasks`: 200 and every stored task rendered by `to_dict`, each once, in no particular order. */
  method ListTasks(service: TaskService) returns (resp: Response)
    requires service.Valid()
    ensures resp.JsonReply? && resp.status == 200 && resp.body.JArray?
    ensures |resp.body.items| == |service.tasks|
    ensures forall i :: 0 <= i < |resp.body.items| ==> RendersStoredRow(service.tasks, resp.body.items[i])
    ensures forall id :: id in service.tasks ==> TaskJson(service.tasks[id]) in resp.body.items
  {
    var tasks := service.GetAllTasks();
    RenderListing(service.tasks, tasks);
    resp := JsonReply(200, JArray(RenderAll(tasks)));
  }

  /** `GET /tasks/<id>`: 200 and the stored task, or 404 when there is none. */
  method GetTask(service: TaskService, id: int) returns (resp: Response)
    requires service.Valid()
    ensures id in service.tasks ==> resp == JsonReply(200, TaskJson(service.tasks[id]))
    ensures id !in service.tasks ==> resp == ErrorReply(NotFoundError)
  {
    var r := service.GetTask(id);
    match r
    case Ok(task) => resp := JsonReply(200, TaskJson(task));
    case Err(_) => resp := ErrorReply(NotFoundError);
  }

  /** The deadline entries `POST /tasks` handles: it reads the deadline only once a title is present. */
  predicate CreateHandled(req: Request) {
    req.Body? && req.title.Some? ==> DeadlineHandled(GetOr(req.deadline, JNull))
  }

  /**
   * `POST /tasks` up to its service call: 400 "Missing field: title" when
   * there is no body or no `title` key, checked before the deadline; then 400
   * for a deadline `format_date` refuses; otherwise the title, the parsed
   * deadline and `completed` (default `false`) are forwarded.
   */
  function CreateTaskDecision(otherForms: string -> Option<Date>, req: Request): (d: Decision)
    requires CreateHandled(req)
    ensures d == Rejected(MissingTitleError) <==> req.NoBody? || req.title.None?
    ensures d.Rejected? ==> d.error in {MissingTitleError, BadDeadlineError}
    ensures d == Rejected(BadDeadlineError) <==>
      req.Body? && req.title.Some? && FormatDate(otherForms, GetOr(req.deadline, JNull)).Err?
    ensures d.Forwarded? <==>
      req.Body? && req.title.Some? && FormatDate(otherForms, GetOr(req.deadline, JNull)).Ok?
    ensures d.Forwarded? ==>
      && d.call.CreateCall?
      && d.call.title == req.title.value
      && Ok(d.call.deadline) == FormatDate(otherForms, GetOr(req.deadline, JNull))
      && d.call.completed == GetOr(req.completed, JBool(DefaultCompleted))
  {
    if req.NoBody? || req.title.None? then Rejected(MissingTitleError)
    else
      match FormatDate(otherForms, GetOr(req.deadline, JNull))
      case Err(e) => Rejected(e)
      case Ok(deadline) => Forwarded(CreateCall(req.title.value, deadline, GetOr(req.completed, JBool(DefaultCompleted))))
  }

  /** `POST /tasks`: the rejection, or 201 and `to_dict` of the task the service created. */
  function CreateTaskResponse(otherForms: string -> Option<Date>, req: Request, created: Task): (resp: Response)
    requires CreateHandled(req)
    ensures resp.Status() in {201, 400}
    ensures resp.Status() == 201 <==> CreateTaskDecision(otherForms, req).Forwarded?
    ensures resp.Status() == 201 ==> resp == JsonReply(201, TaskJson(created))
    ensures resp == ErrorReply(MissingTitleError) <==> req.NoBody? || req.title.None?
    ensures resp == ErrorReply(BadDeadlineError) <==>
      req.Body? && req.title.Some? && FormatDate(otherForms, GetOr(req.deadline, JNull)).Err?
  {
    match CreateTaskDecision(otherForms, req)
    case Rejected(e) => ErrorReply(e)
    case Forwarded(_) => JsonReply(201, TaskJson(created))
  }

  /** Without a title, a POST gets the title message even when its deadline is malformed too. */
  lemma TitleCheckedBeforeDeadline(otherForms: string -> Option<Date>, deadline: Option<JsonValue>, completed: Option<JsonValue>)
    ensures CreateTaskDecision(otherForms, Body(None, deadline, completed)) == Rejected(MissingTitleError)
    ensures CreateTaskDecision(otherForms, NoBody) == Rejected(MissingTitleError)
  {
  }

  /** A POST with only a title forwards no deadline and `completed` as `false`. */
  lemma CreateDefaults(otherForms: string -> Option<Date>, title: JsonValue)
    ensures CreateTaskDecision(otherForms, Body(Some(title), None, None)) == Forwarded(CreateCall(title, None, JBool(false)))
  {
  }

  /**
   * `PUT /tasks/<id>` up to its service call: 400 for a deadline `format_date`
   * refuses, whether or not the task exists; otherwise the id, the title and
   * `completed` as read by `data.get` (`None` when absent) and the parsed
   * deadline are forwarded. A request without a JSON body makes `data.get`
   * raise (a 500) and is not modelled.
   */
  function UpdateTaskDecision(otherForms: string -> Option<Date>, id: int, req: Request): (d: Decision)
    requires req.Body? && DeadlineHandled(GetOr(req.deadline, JNull))
    ensures d.Rejected? <==> FormatDate(otherForms, GetOr(req.deadline, JNull)).Err?
    ensures d.Rejected? ==> d.error == BadDeadlineError
    ensures d.Forwarded? ==>
      && d.call == UpdateCall(id, GetOr(req.title, JNull), d.call.deadline, GetOr(req.completed, JNull))
      && Ok(d.call.deadline) == FormatDate(otherForms, GetOr(req.deadline, JNull))
  {
    match FormatDate(otherForms, GetOr(req.deadline, JNull))
    case Err(e) => Rejected(e)
    case Ok(deadline) => Forwarded(UpdateCall(id, GetOr(req.title, JNull), deadline, GetOr(req.completed, JNull)))
  }

  /** `PUT /tasks/<id>`: the rejection, or what the service's update returned: 200 and `to_dict`, or 404. */
  function UpdateTaskResponse(otherForms: string -> Option<Date>, id: int, req: Request,
                              updated: Result<Task, TaskNotFoundError>): (resp: Response)
    requires req.Body? && DeadlineHandled(GetOr(req.deadline, JNull))
    ensures resp.Status() in {200, 400, 404}
    ensures resp.Status() == 400 <==> UpdateTaskDecision(otherForms, id, req).Rejected?
    ensures resp.Status() == 400 ==> resp == ErrorReply(BadDeadlineError)
    ensures resp.Status() == 404 <==> UpdateTaskDecision(otherForms, id, req).Forwarded? && updated.Err?
    ensures resp.Status() == 404 ==> resp == ErrorReply(NotFoundError)
    ensures resp.Status() == 200 ==> updated.Ok? && resp == JsonReply(200, TaskJson(updated.value))
  {
    match UpdateTaskDecision(otherForms, id, req)
    case Rejected(e) => ErrorReply(e)
    case Forwarded(_) =>
      match updated
      case Ok(task) => JsonReply(200, TaskJson(task))
      case Err(_) => ErrorReply(NotFoundError)
  }

  /** A malformed deadline is a 400 even for an id no task has: validation comes before the service. */
  lemma DeadlineCheckedBeforeLookup(otherForms: string -> Option<Date>, id: int, req: Request)
    requires req.Body? && DeadlineHandled(GetOr(req.deadline, JNull))
    requires FormatDate(otherForms, GetOr(req.deadline, JNull)).Err?
    ensures UpdateTaskResponse(otherForms, id, req, Err(TaskNotFound(id))) == ErrorReply(BadDeadlineError)
  {
  }

  /** `DELETE /tasks/<id>`: 204 with an empty body once the task is removed, or 404 when there is none. */
  method DeleteTask(service: TaskService, id: int) returns (resp: Response)
    requires service.Valid()
    modifies service
    ensures service.Valid()
    ensures service.tasks == Removed(old(service.tasks), id)
    ensures resp == if id in old(service.tasks) then EmptyReply(204) else ErrorReply(NotFoundError)
  {
    var r := service.DeleteTask(id);
    match r
    case Pass => resp := EmptyReply(204);
    case Fail(_) => resp := ErrorReply(NotFoundError);
  }

  /** A DELETE followed by a GET of the same id answers 204, then 404. */
  method DeleteThenGet(service: TaskService, id: int) returns (deleted: Response, fetched: Response)
    requires service.Valid() && id in service.tasks
    modifies service
    ensures deleted == EmptyReply(204) && fetched == ErrorReply(NotFoundError)
    ensures service.tasks == old(service.tasks) - {id}
  {
    deleted := DeleteTask(service, id);
    fetched := GetTask(service, id);
  }
}
