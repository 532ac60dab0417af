/**
 Task creation and the in-memory task list of the command-line tracker
 (main.py). A task is built from an id, a description and two clock
 readings; the list is a mutable object that tasks are appended to.
 */
module TaskTracker {
  import opened Models

  /**
   Builds the record for a new task. No input is rejected: any id and any
   description, the empty one included, gives a task. `createdAt` and
   `updatedAt` stand for two successive readings of the wall clock, taken
   in that order.
   */
  function CreateTask(taskId: int, description: string, createdAt: Timestamp, updatedAt: Timestamp): (t: Task)
    ensures t.id == taskId && t.description == description
    ensures t.status == TODO
    ensures t.createdAt == createdAt && t.updatedAt == updatedAt
  {
    Task(taskId, description, TODO, createdAt, updatedAt)
  }

  /** The mutable list of tasks that `AddTask` appends to. */
  class TaskList {
    var tasks: seq<Task>

    constructor ()
      ensures tasks == []
    {
      tasks := [];
    }
  }

  /**
   Appends `newTask` to the end of `taskList`, in place. Nothing is checked:
   in particular a task whose id is already present is appended as well.
   */
  method AddTask(newTask: Task, taskList: TaskList)
    modifies taskList
    ensures taskList.tasks == old(taskList.tasks) + [newTask]
    ensures |taskList.tasks| == |old(taskList.tasks)| + 1
    ensures taskList.tasks[|taskList.tasks| - 1] == newTask
    ensures forall i :: 0 <= i < |old(taskList.tasks)| ==> taskList.tasks[i] == old(taskList.tasks)[i]
    ensures IdsOf(taskList.tasks) == IdsOf(old(taskList.tasks)) + [newTask.id]
    ensures UniqueIds(taskList.tasks) <==>
      UniqueIds(old(taskList.tasks)) && newTask.id !in IdsOf(old(taskList.tasks))
  {
    IdsOfAppend(taskList.tasks, newTask);
    AppendUniqueIff(taskList.tasks, newTask);
    taskList.tasks := taskList.tasks + [newTask];
  }

  /** The ids after appending are the old ids followed by the new task's id. */
  lemma IdsOfAppend(tasks: seq<Task>, t: Task)
    ensures IdsOf(tasks + [t]) == IdsOf(tasks) + [t.id]
  {
  }

  /**
   Appending keeps the ids unique exactly when they were unique before and
   the new id is not among them.
   */
  lemma AppendUniqueIff(tasks: seq<Task>, t: Task)
    ensures UniqueIds(tasks + [t]) <==> UniqueIds(tasks) && t.id !in IdsOf(tasks)
  {
    var ids := IdsOf(tasks);
    var all := tasks + [t];
    if UniqueIds(all) {
      forall i, j | 0 <= i < j < |tasks| ensures tasks[i].id != tasks[j].id {
        assert all[i] == tasks[i] && all[j] == tasks[j];
      }
      forall k | 0 <= k < |ids| ensures ids[k] != t.id {
        assert all[k] == tasks[k] && all[|tasks|] == t;
      }
    }
    if UniqueIds(tasks) && t.id !in ids {
      forall i, j | 0 <= i < j < |all| ensures all[i].id != all[j].id {
        if j == |tasks| {
          assert ids[i] == all[i].id;
        } else {
          assert all[i] == tasks[i] && all[j] == tasks[j];
        }
      }
    }
  }

  /**
   The two demonstration tasks the program starts from: ids 0 then 1,
   described "test" then "test-2", both with status todo, no id twice.
   */
  function DefaultTasks(c0: Timestamp, u0: Timestamp, c1: Timestamp, u1: Timestamp): (ts: seq<Task>)
    ensures IdsOf(ts) == [0, 1]
    ensures ts[0].description == "test" && ts[1].description == "test-2"
    ensures AllHaveStatus(ts, TODO) && UniqueIds(ts)
  {
    [CreateTask(0, "test", c0, u0), CreateTask(1, "test-2", c1, u1)]
  }

  /**
   Builds the program's starting list: a fresh empty list, then the task
   (0, "test") and the task (1, "test-2") appended in that order. The four
   timestamps are the clock readings the two creations take.
   */
  method SeedDefaultTasks(c0: Timestamp, u0: Timestamp, c1: Timestamp, u1: Timestamp)
    returns (taskList: TaskList)
    ensures fresh(taskList)
    ensures taskList.tasks == DefaultTasks(c0, u0, c1, u1)
  {
    taskList := new TaskList();
    AddTask(CreateTask(0, "test", c0, u0), taskList);
    AddTask(CreateTask(1, "test-2", c1, u1), taskList);
  }
}
