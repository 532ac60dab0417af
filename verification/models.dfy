/**
 The record shape of one tracked task: five named fields, mirroring the
 `Task` record declared in models.py. The two timestamps are kept as the
 text the wall clock produced; their format is not interpreted here.
 */
module Models {

  /** An ISO-8601 timestamp as text. */
  type Timestamp = string

  /** The status text written for every newly created task. */
  const TODO: string := "todo"

  datatype Task = Task(
    id: int,
    description: string,
    status: string,
    createdAt: Timestamp,
    updatedAt: Timestamp
  )

  /** The ids of `tasks`, in list order. */
  function IdsOf(tasks: seq<Task>): (ids: seq<int>)
    ensures |ids| == |tasks|
    ensures forall i :: 0 <= i < |tasks| ==> ids[i] == tasks[i].id
  {
    if tasks == [] then [] else [tasks[0].id] + IdsOf(tasks[1..])
  }

  /** No two tasks in `tasks` share an id. */
  predicate UniqueIds(tasks: seq<Task>) {
    forall i, j :: 0 <= i < j < |tasks| ==> tasks[i].id != tasks[j].id
  }

  /** Every task in `tasks` has the status `status`. */
  predicate AllHaveStatus(tasks: seq<Task>, status: string) {
    forall i :: 0 <= i < |tasks| ==> tasks[i].status == status
  }
}
