/** The `tasks` table's row type and its JSON rendering. */
module Models {
  import opened Wrappers
  import opened Json
  import opened Dates

  /**
   * One row of the `tasks` table: an integer primary key, a title that is
   * never null, a deadline that may be null, and the completion flag.
   */
  datatype Task = Task(id: int, title: string, deadline: Option<Date>, completed: bool)

  /** The value the `completed` column takes when an insert gives none. */
  const DefaultCompleted := false

  /** The `deadline` entry of `to_dict`: `null`, or the date as `YYYY-MM-DD`. */
  function DeadlineJson(deadline: Option<Date>): (j: JsonValue)
    ensures deadline.None? <==> j == JNull
    ensures deadline.Some? ==> j.JString? && IsFullDate(j.s) && ParseFullDate(j.s) == deadline
  {
    match deadline
    case None => JNull
    case Some(d) => ParseIsoFormat(d); JString(IsoFormat(d))
  }

  /** `Task.to_dict()`. */
  function ToDict(t: Task): (d: map<string, JsonValue>)
    ensures d.Keys == {"id", "title", "deadline", "completed"}
    ensures d["id"] == JNumber(t.id) && d["title"] == JString(t.title) && d["completed"] == JBool(t.completed)
    ensures d["deadline"] == DeadlineJson(t.deadline)
  {
    map["id" := JNumber(t.id),
        "title" := JString(t.title),
        "deadline" := DeadlineJson(t.deadline),
        "completed" := JBool(t.completed)]
  }

  /** The JSON object `jsonify(task.to_dict())` sends. */
  function TaskJson(t: Task): (j: JsonValue)
    ensures j.JObject? && j.fields == ToDict(t)
  {
    JObject(ToDict(t))
  }

  /** The rendering loses nothing: two rows with the same dictionary are the same row. */
  lemma ToDictInjective(a: Task, b: Task)
    requires ToDict(a) == ToDict(b)
    ensures a == b
  {
  }
}
