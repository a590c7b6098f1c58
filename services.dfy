/**
 * The task service: get, list, create, partially update and delete rows of
 * the `tasks` table. Each method is one atomic change of the table; the
 * session that carries it out is not modelled.
 */
module Services {
  import opened Wrappers
  import opened Models

  /** `TaskNotFoundError`, raised with the message "No task with id <id>". */
  datatype TaskNotFoundError = TaskNotFound(taskId: int)

  /** The table: each row under its primary key. */
  type Table = map<int, Task>

  /** Every row is filed under its own primary key, so keys are unique by construction. */
  predicate WellKeyed(table: Table) {
    forall id :: id in table ==> table[id].id == id
  }

  /** `session.get(Task, id)` followed by the not-found check. */
  function Get(table: Table, id: int): (r: Result<Task, TaskNotFoundError>)
    ensures r.Ok? <==> id in table
    ensures r.Ok? ==> r.value == table[id]
    ensures r.Err? ==> r.error == TaskNotFound(id)
  {
    if id in table then Ok(table[id]) else Err(TaskNotFound(id))
  }

  /** The table after inserting a new row under the unused key `id`. */
  function Inserted(table: Table, id: int, title: string, completed: bool): (r: Table)
    requires id !in table
    ensures r.Keys == table.Keys + {id}
    ensures r[id] == Task(id, title, None, completed)
    ensures forall k :: k in table ==> r[k] == table[k]
    ensures WellKeyed(table) ==> WellKeyed(r)
  {
    table[id := Task(id, title, None, completed)]
  }

  /** A row after a partial update: a field is overwritten only when its argument is not `None`. */
  function Patch(t: Task, title: Option<string>, completed: Option<bool>): (r: Task)
    ensures r.id == t.id && r.deadline == t.deadline
    ensures title.Some? ==> r.title == title.value
    ensures title.None? ==> r.title == t.title
    ensures completed.Some? ==> r.completed == completed.value
    ensures completed.None? ==> r.completed == t.completed
  {
    var t := if title.Some? then t.(title := title.value) else t;
    if completed.Some? then t.(completed := completed.value) else t
  }

  /** The table after a partial update of row `id`; a table without that row is left as it is. */
  function Updated(table: Table, id: int, title: Option<string>, completed: Option<bool>): (r: Table)
    ensures r.Keys == table.Keys
    ensures id in table ==> r[id] == Patch(table[id], title, completed)
    ensures forall k :: k in table && k != id ==> r[k] == table[k]
    ensures id !in table ==> r == table
    ensures WellKeyed(table) ==> WellKeyed(r)
  {
    if id in table then table[id := Patch(table[id], title, completed)] else table
  }

  /** The table after deleting row `id`. */
  function Removed(table: Table, id: int): (r: Table)
    ensures r.Keys == table.Keys - {id}
    ensures forall k :: k in r ==> r[k] == table[k]
    ensures WellKeyed(table) ==> WellKeyed(r)
  {
    table - {id}
  }

  /** An update that supplies no field leaves the table as it is. */
  lemma UpdateNothingIsIdentity(table: Table, id: int)
    ensures Updated(table, id, None, None) == table
  {
  }

  /** Applying the same update twice gives the same table as applying it once. */
  lemma UpdateIdempotent(table: Table, id: int, title: Option<string>, completed: Option<bool>)
    ensures Updated(Updated(table, id, title, completed), id, title, completed) == Updated(table, id, title, completed)
  {
  }

  /** After a delete, getting the deleted row fails and every other row is still there. */
  lemma GetAfterRemove(table: Table, id: int, other: int)
    requires other != id
    ensures Get(Removed(table, id), id) == Err(TaskNotFound(id))
    ensures Get(Removed(table, id), other) == Get(table, other)
  {
  }

  /** A number greater than every key of a finite set. */
  ghost function UpperBound(keys: set<int>): (b: int)
    ensures forall k :: k in keys ==> k < b
  {
    if !exists k :: k in keys then 0
    else
      var x :| x in keys;
      var b := UpperBound(keys - {x});
      assert forall k :: k in keys && k != x ==> k in keys - {x};
      if x < b then b else x + 1
  }

  /** However many rows the table holds, some key is unused. */
  lemma FreshIdExists(table: Table)
    ensures exists id :: id !in table
  {
    var b := UpperBound(table.Keys);
    assert b !in table;
  }

  class TaskService {
    /** The `tasks` table. */
    var tasks: Table

    ghost predicate Valid()
      reads this
    {
      WellKeyed(tasks)
    }

    /** A service over the table as the database holds it at start-up. */
    constructor (initial: Table)
      requires WellKeyed(initial)
      ensures Valid() && tasks == initial
    {
      tasks := initial;
    }

    /** `get_all_tasks`: every row exactly once, in no particular order. */
    method GetAllTasks() returns (all: seq<Task>)
      requires Valid()
      ensures |all| == |tasks|
      ensures forall i :: 0 <= i < |all| ==> all[i].id in tasks && tasks[all[i].id] == all[i]
      ensures forall id :: id in tasks ==> tasks[id] in all
      ensures forall i, j :: 0 <= i < j < |all| ==> all[i].id != all[j].id
    {
      all := [];
      var remaining := tasks.Keys;
      while exists id :: id in remaining
        invariant remaining <= tasks.Keys
        invariant |all| + |remaining| == |tasks|
        invariant forall i :: 0 <= i < |all| ==> all[i].id in tasks && tasks[all[i].id] == all[i]
        invariant forall i :: 0 <= i < |all| ==> all[i].id !in remaining
        invariant forall id :: id in tasks && id !in remaining ==> tasks[id] in all
        invariant forall i, j :: 0 <= i < j < |all| ==> all[i].id != all[j].id
        decreases remaining
      {
        var id :| id in remaining;
        all := all + [tasks[id]];
        remaining := remaining - {id};
      }
      assert remaining == {};
    }

    /** `get_task`: the stored row, or `TaskNotFoundError` when there is none. */
    method GetTask(id: int) returns (r: Result<Task, TaskNotFoundError>)
      requires Valid()
      ensures r == Get(tasks, id)
      ensures r.Ok? ==> r.value.id == id
    {
      if id in tasks {
        r := Ok(tasks[id]);
      } else {
        r := Err(TaskNotFound(id));
      }
    }

    /**
     * `create_task`: inserts a row under a key no row has. The service takes
     * no deadline, so the new row's deadline is null (the handler passes a
     * `deadline` argument this method does not accept).
     */
    method CreateTask(title: string, completed: bool := DefaultCompleted) returns (task: Task)
      requires Valid()
      modifies this
      ensures Valid()
      ensures task.id !in old(tasks)
      ensures task == Task(task.id, title, None, completed)
      ensures tasks == Inserted(old(tasks), task.id, title, completed)
    {
      FreshIdExists(tasks);
      var id :| id !in tasks;
      task := Task(id, title, None, completed);
      tasks := tasks[id := task];
    }

    /**
     * `update_task`: overwrites the title and the completion flag of row `id`
     * where the argument is not `None`, and returns the updated row. It never
     * changes the deadline (the handler passes a `deadline` argument this
     * method does not accept).
     */
    method UpdateTask(id: int, title: Option<string> := None, completed: Option<bool> := None)
      returns (r: Result<Task, TaskNotFoundError>)
      requires Valid()
      modifies this
      ensures Valid()
      ensures tasks == Updated(old(tasks), id, title, completed)
      ensures r == Get(tasks, id)
      ensures r.Err? ==> tasks == old(tasks)
    {
      if id !in tasks {
        return Err(TaskNotFound(id));
      }
      var task := tasks[id];
      if title.Some? {
        task := task.(title := title.value);
      }
      if completed.Some? {
        task := task.(completed := completed.value);
      }
      tasks := tasks[id := task];
      r := Ok(task);
    }

    /** `delete_task`: removes row `id`, or raises `TaskNotFoundError` and removes nothing. */
    method DeleteTask(id: int) returns (r: Outcome<TaskNotFoundError>)
      requires Valid()
      modifies this
      ensures Valid()
      ensures tasks == Removed(old(tasks), id)
      ensures r == if id in old(tasks) then Pass else Fail(TaskNotFound(id))
    {
      if id !in tasks {
        return Fail(TaskNotFound(id));
      }
      tasks := tasks - {id};
      r := Pass;
    }
  }

  /**
   * Create a row, read it back, update its title and flag, delete it: the
   * row reads back as created, the update keeps its id and deadline, the
   * deleted row is not found, and the table ends as it began.
   */
  method CreateUpdateDeleteScenario(service: TaskService)
    requires service.Valid()
    modifies service
    ensures service.Valid() && service.tasks == old(service.tasks)
  {
    var created := service.CreateTask("Old");
    assert created.completed == false && created.deadline == None;
    var read := service.GetTask(created.id);
    assert read == Ok(created);
    var updated := service.UpdateTask(created.id, title := Some("New"), completed := Some(true));
    assert updated == Ok(Task(created.id, "New", None, true));
    var deleted := service.DeleteTask(created.id);
    assert deleted == Pass;
    var gone := service.GetTask(created.id);
    assert gone == Err(TaskNotFound(created.id));
    assert service.tasks == old(service.tasks);
  }
}
