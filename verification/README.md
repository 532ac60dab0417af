# Task tracker: task creation and the in-memory task list

This project models the working part of a small command-line task tracker
written in Python. A task is a record of five fields: an integer id, a
description, a status, and two ISO-8601 timestamps (creation and last
update). The program creates task records, appends them to a list held in
memory, and at start-up seeds that list with two demonstration tasks.

- `models.dfy` (module `Models`): the `Task` record, shaped after the typed
  dictionary in `models.py`, plus the list views used by the lemmas: the ids
  of a list in order (`IdsOf`), "no id occurs twice" (`UniqueIds`) and "every
  task has a given status" (`AllHaveStatus`).
- `main.dfy` (module `TaskTracker`): `CreateTask` as a pure function,
  the list as a class `TaskList` with one `seq<Task>` field, `AddTask` as a
  method that appends to it in place, and `SeedDefaultTasks` for the two
  demonstration tasks the program begins with.

The two wall-clock reads of task creation are parameters: `createdAt` is the
first reading and `updatedAt` the second.

## Model

| member | source | states |
|---|---|---|
| TaskTracker.CreateTask | main.py:6-13 | the new task carries the given id and description unchanged, status "todo" whatever the inputs, and the two clock readings in order (creation first); it has no precondition, so every id and every description, the empty one included, yields a task |
| TaskTracker.TaskList.constructor | main.py:37 | a new task list is empty |
| TaskTracker.AddTask | main.py:16-17 | the list afterwards is the old list with the new task appended at the end: one longer, the new task last, every earlier task unchanged and in its place; its ids are the old ids followed by the new id, and they stay unique exactly when they were unique and the new id was absent, so a duplicate id is appended as it is |
| TaskTracker.IdsOfAppend | main.py:16-17 | after an append, the list of ids is the old list of ids with the new task's id at the end |
| TaskTracker.AppendUniqueIff | main.py:16-17 | appending keeps ids unique if and only if they were unique before and the new id does not already occur, so uniqueness of the id (documented as a unique identifier in models.py:9) is up to the caller |
| TaskTracker.SeedDefaultTasks | main.py:36-41 | the program's starting list is a fresh list holding exactly the task (0, "test") followed by the task (1, "test-2") |
| TaskTracker.DefaultTasks | main.py:40-41 | the starting list has ids 0 then 1, descriptions "test" then "test-2", status "todo" throughout, and unique ids |

## Left out

- Reading the wall clock and ISO-8601 formatting (main.py:11-12): the two readings are parameters, opaque text.
- TaskTracker.CreateTask: does not promise that `updatedAt` is not earlier than `createdAt`; the code takes two independent clock readings and that order holds only if the clock never goes backwards.
- Command-line argument parsing (main.py:20-33): it configures the run and holds no task logic.
- The command branches (main.py:44-61): each one does nothing, so there is no update, delete, status change or filtered listing to model.
- Printing the list (main.py:62-64): console output. It happens when no option has a truthy value, which includes an id of 0 given to `--delete`, `--mark-in-progress` or `--mark-done` and an empty `--add` description, since the branches at main.py:44-59 test each option for truthiness and do nothing when taken.
- The `status` field is free text in the record, as in models.py; only "todo" is ever written by the code, and the status values named in the record's documentation are not enforced.
