# AggregateEvents project aggregate, modelled in Dafny

This project models the project aggregate of AggregateEvents. A `Project` is the aggregate root. It owns an ordered list of `Task` entities, an append-only activity log, a derived `Status` label, and a fixed budget of 10 hours remaining over all of its tasks.

Tasks report to their project through events:
- `Completed` is raised by `MarkComplete`.
- `HoursUpdated` is raised by `UpdateHoursRemaining`. The project can veto a re-estimate through the event's `CancelRequested` flag. The task then rolls its hours back.

Files:
- `TaskList.dfy`: the value-level view of a task list. It holds the hour total, the any/all/none-complete queries, lookup by id, the reference status rule `StatusOf`, the log messages and the lemmas the aggregate's proofs rest on. `AddedMessage`, `CompletedMessage` and `DeletedMessage` are the interpolated log strings of Project.cs:125, 81 and 137; they are plain string building and are used verbatim in the contracts of `AddTask`, `HandleTaskCompleted` and `DeleteTask`.
- `ProjectAggregate.dfy`: the two classes, with their fields updated in place.
  - `Task` has `IsComplete`, `HoursRemaining`, the constants `Id`, `Name` and `ProjectId`, and `listener`, the project subscribed to its events.
  - `Project` has `Status`, `tasks`, `activityLog` and the constant `hoursLimit` (10). It also has a ghost `model`: the tasks as values, in list order.
  - `Project.Valid()` is the aggregate invariant:
    - every listed task carries the project's id and is subscribed to it;
    - ids are distinct;
    - hours are non-negative, and zero once a task is complete;
    - the total is within the budget;
    - `Status` is one of the four labels.
  - Every public operation keeps `Valid()`, and `Task.Valid()` (complete implies no hours left).
  - `Status == StatusOf(tasks)` is deliberately not part of the invariant. A vetoed re-estimate and a deletion both leave `Status` as it was.
- `BudgetOverflow.dfy`: the budget check of `AddTask` with C#'s 32-bit wrap-around, for the finding below.
- `Scenarios.dfy`: client code that drives the classes through the repository's tests, plus some consequences of the code as written:
  - a vetoed re-estimate of a completed task leaves it incomplete with `Status` still `Done!`;
  - deleting the only task leaves `Status` at `Not Started`;
  - a deleted task keeps its state and can still be completed, and the project hears nothing of it;
  - a task added with zero hours is not complete.

The C# events become explicit calls:
- `Project.AddTask` subscribes the project by setting the task's `listener`. `DeleteTask` clears it. This stands in for the `ObservableCollection` change handler.
- `Task.MarkComplete` calls `Project.HandleTaskCompleted`.
- `Task.RaiseHoursUpdated` calls `Project.HandleTaskHoursUpdated`, whose boolean result is the event's `CancelRequested` flag.
- The handlers are specified over `Snapshot()`, the task objects read as values. This is what the C# handlers see when they sum and query `_tasks`.

## Model

| member | source | states |
|---|---|---|
| `TaskList.TotalHours` | src/AggregateEvents/ProjectAggregate/Entities/Project.cs:74 | the hour total the budget check sums; never negative when no task's hours are |
| `TaskList.StatusOf` | src/AggregateEvents/ProjectAggregate/Entities/Project.cs:84-103 | the status rule only ever yields New, Not Started, Making Progress or Done!, and yields New if and only if there are no tasks |
| `TaskList.RemoveAt` | src/AggregateEvents/ProjectAggregate/Entities/Project.cs:132 | removing the task at a position leaves one task fewer, the earlier tasks in place and the later ones moved down by one, so the others keep their order |
| `TaskList.AnyComplete` | src/AggregateEvents/ProjectAggregate/Entities/Project.cs:91 | true exactly when some task is complete |
| `TaskList.AllComplete` | src/AggregateEvents/ProjectAggregate/Entities/Project.cs:95 | true exactly when every task is complete (vacuously for none) |
| `TaskList.NoneComplete` | src/AggregateEvents/ProjectAggregate/Entities/Project.cs:99 | true exactly when no task is complete |
| `TaskList.IndexOfId` | src/AggregateEvents/ProjectAggregate/Entities/Project.cs:130 | None exactly when no task has the id; otherwise the position of the first task with that id |
| `TaskList.IndexOfIdFindsListed` | src/AggregateEvents/ProjectAggregate/Entities/Project.cs:130 | with distinct ids, looking up a listed task's id finds that task's position, so SingleOrDefault picks the one task meant |
| `TaskList.SingleTaskStatus` | src/AggregateEvents/ProjectAggregate/Entities/Project.cs:91-102 | a lone task gives Done! when complete (the later rule overwrites Making Progress) and Not Started otherwise |
| `TaskList.TotalHoursAppend` | src/AggregateEvents/ProjectAggregate/Entities/Project.cs:118-123 | appending a task adds its hours to the total the budget check sums |
| `TaskList.TotalHoursUpdate` | src/AggregateEvents/ProjectAggregate/Entities/Project.cs:74 | replacing one task's view changes the total by the difference of the hours |
| `TaskList.TotalHoursRemove` | src/AggregateEvents/ProjectAggregate/Entities/Project.cs:132 | removing a task takes exactly its hours off the total |
| `TaskList.TotalHoursBoundsEach` | src/AggregateEvents/ProjectAggregate/Entities/Project.cs:74 | with no negative hours, every task's hours lie between zero and the total |
| `TaskList.AppendKeepsWellFormed` | src/AggregateEvents/ProjectAggregate/Entities/Project.cs:113-123 | a task with a new id and non-negative hours keeps ids distinct, hours non-negative and complete tasks at zero hours |
| `TaskList.UpdateKeepsWellFormed` | src/AggregateEvents/ProjectAggregate/Entities/Task.cs:28-56 | a task keeping its id, with non-negative hours and zero hours once complete, keeps the list well formed |
| `TaskList.RemoveAtKeepsWellFormed` | src/AggregateEvents/ProjectAggregate/Entities/Project.cs:132 | removing a task keeps the list well formed |
| `TaskList.AddThenRemoveRestores` | src/AggregateEvents/ProjectAggregate/Entities/Project.cs:110-138 | deleting the id of a task just added finds it last and gives back the list as it was before the addition |
| `ProjectAggregate.Task.constructor` | src/AggregateEvents/ProjectAggregate/Entities/Task.cs:7-14 | name, hours and project id as given, without validation; not complete; not subscribed to anything |
| `ProjectAggregate.Task.MarkComplete` | src/AggregateEvents/ProjectAggregate/Entities/Task.cs:28-34 | ends complete with zero hours; on a complete task changes nothing and notifies no one; otherwise the subscribed project recomputes Status from the tasks and logs "{name} completed." once, keeping its invariant |
| `ProjectAggregate.Task.RaiseHoursUpdated` | src/AggregateEvents/ProjectAggregate/Entities/Task.cs:49-52 | the cancel flag is set exactly when the tasks' total, with this task's tentative hours, exceeds the budget; the project logs the refusal only then and recomputes Status only otherwise; no subscriber means no cancel |
| `ProjectAggregate.Task.Reestimate` | src/AggregateEvents/ProjectAggregate/Entities/Task.cs:47-55 | positive hours leave the task incomplete; the new hours are kept unless the total would exceed the budget, in which case the old hours return, the refusal is logged and Status is left as it was |
| `ProjectAggregate.Task.UpdateHoursRemaining` | src/AggregateEvents/ProjectAggregate/Entities/Task.cs:36-56 | negative hours change nothing anywhere; zero hours complete the task and cannot be vetoed; positive hours behave as in Reestimate; the project invariant, budget included, is kept |
| `ProjectAggregate.Project.CoupledAppend` | src/AggregateEvents/ProjectAggregate/Entities/Project.cs:37-46 | a task tagged with the project's id and subscribed to it extends the coupling of task objects to the model |
| `ProjectAggregate.Project.CoupledRemove` | src/AggregateEvents/ProjectAggregate/Entities/Project.cs:48-57 | removing a task keeps the others coupled, and with distinct ids the removed task is no longer listed |
| `ProjectAggregate.Project.constructor` | src/AggregateEvents/ProjectAggregate/Entities/Project.cs:19-33 | a new project has Status New, no tasks and an empty log, and satisfies the invariant |
| `ProjectAggregate.Project.Snapshot` | src/AggregateEvents/ProjectAggregate/Entities/Project.cs:25-28 | reading the tasks off the objects gives the model whenever the objects are coupled to it |
| `ProjectAggregate.Project.SnapshotExcept` | src/AggregateEvents/ProjectAggregate/Entities/Project.cs:60-75 | while one task has changed ahead of the model, the handler sees the model with that task's new view in its place |
| `ProjectAggregate.Project.VerifyHoursWithinLimit` | src/AggregateEvents/ProjectAggregate/Entities/Project.cs:72-75 | true exactly when the tasks' total plus the new task's hours is within the budget |
| `ProjectAggregate.Project.Log` | src/AggregateEvents/ProjectAggregate/Entities/Project.cs:105-108 | the log grows by exactly the message, at the end |
| `ProjectAggregate.Project.UpdateStatus` | src/AggregateEvents/ProjectAggregate/Entities/Project.cs:84-103 | the sequence of overwrites leaves Status equal to the reference rule StatusOf on the current tasks |
| `ProjectAggregate.Project.HandleTaskHoursUpdated` | src/AggregateEvents/ProjectAggregate/Entities/Project.cs:60-70 | a task of another project changes nothing; over budget it logs "Update would exceed project hour limit.", requests cancel and leaves Status; within budget it recomputes Status and logs nothing |
| `ProjectAggregate.Project.HandleTaskCompleted` | src/AggregateEvents/ProjectAggregate/Entities/Project.cs:77-82 | a task of another project changes nothing; otherwise Status is recomputed and "{name} completed." logged |
| `ProjectAggregate.Project.AddAndSubscribe` | src/AggregateEvents/ProjectAggregate/Entities/Project.cs:35-46 | the task is listed last and subscribed to; the model grows by its view and the total by its hours |
| `ProjectAggregate.Project.RemoveAndUnsubscribe` | src/AggregateEvents/ProjectAggregate/Entities/Project.cs:48-57 | the task is taken out, the others keep their order, it is unsubscribed, and the total drops by its hours |
| `ProjectAggregate.Project.AddTask` | src/AggregateEvents/ProjectAggregate/Entities/Project.cs:110-126 | negative hours or a total over the budget change only the log, by the exact refusal message; otherwise one new incomplete task with the given name, id and hours is appended, earlier tasks untouched, Status recomputed and "{name} added." logged; the invariant, budget included, is kept |
| `ProjectAggregate.Project.DeleteTask` | src/AggregateEvents/ProjectAggregate/Entities/Project.cs:128-138 | an unknown id changes nothing; a known id removes exactly that task, keeps the others in order, unsubscribes from it, raises it as deleted and logs "{name} deleted."; Status is never recomputed; the invariant is kept |
| `BudgetOverflow.AddInt32` | src/AggregateEvents/ProjectAggregate/Entities/Project.cs:74 | unchecked 32-bit addition: the exact sum when it fits, otherwise the sum shifted by 2^32 back into range |
| `BudgetOverflow.WithinLimitWrapped` | src/AggregateEvents/ProjectAggregate/Entities/Project.cs:72-75 | the budget check as compiled agrees with the exact comparison whenever the sum does not overflow |
| `BudgetOverflow.MaxHoursPassesWrappedCheck` | src/AggregateEvents/ProjectAggregate/Entities/Project.cs:118-123 | a new task of int.MaxValue hours passes the compiled check next to a one-hour task, although the total then exceeds the budget |

## Left out

- `Project.ToString` (Project.cs:140-159) is debug text formatting and is not modelled. The hour sum it prints is `TotalHours`.
- `Project.Name` and the `Tasks` getter are plain properties with no logic.
- The `AggregateEvents.Raise` static dispatcher of `TaskDeletedEvent` is a global sink. `DeleteTask` returns the deleted task's view as `raised` instead.
- The `ObservableCollection` and multicast-event plumbing is replaced by the single `listener` field. It is set when the project adds a task and cleared when it removes it. The model assumes the owning project is a task's only subscriber. The C# events `Completed` and `HoursUpdated` are public, and `CancelRequested` has a public setter, so other handlers could subscribe and set or clear a veto; such handlers are not modelled, and the budget promises of `Task.RaiseHoursUpdated`, `Task.Reestimate` and `Task.UpdateHoursRemaining` rest on their absence.
- `TaskHoursUpdatedEvent` and `TaskCompletedEvent` are not modelled as objects. The first is the boolean `CancelRequested` that `HandleTaskHoursUpdated` returns. The second is the call to `HandleTaskCompleted`.
- Guid generation in the `Entity` base class is not part of this model. `AddTask` takes the new task's id as a parameter, required to differ from the ids already listed.
- The private parameterless `Task()` constructor exists for deserialization only.
- ProjectAggregate.Project.DeleteTask: the `InvalidOperationException` that `SingleOrDefault` throws on a duplicate id is not modelled. The invariant keeps ids distinct, so it cannot arise.
- ProjectAggregate.Task.RaiseHoursUpdated: the `OverflowException` that LINQ's checked `Sum` throws inside the handler is not modelled. For a tentative estimate near int.MaxValue the C# handler throws and no cancel flag is ever read; the model instead reports a cancel whenever the unbounded total exceeds the budget.
- ProjectAggregate.Task.Reestimate: the same `OverflowException` is not modelled. In the C# it escapes before the rollback, so an estimate near int.MaxValue keeps the tentative hours; the model restores the old hours instead.
- ProjectAggregate.Task.UpdateHoursRemaining: the `OverflowException` that LINQ's checked `Sum` throws is not modelled. It would occur when a tentative estimate near int.MaxValue makes the hour sum overflow. The exception leaves the event before the rollback, so the tentative hours would stay. The model uses unbounded hours and vetoes such an estimate.
- ProjectAggregate.Project.VerifyHoursWithinLimit: hours are unbounded integers. The 32-bit wrap of `+ newTaskHours` is not part of this member; it is modelled as compiled in `BudgetOverflow.WithinLimitWrapped` (see Findings). The `OverflowException` of LINQ's checked `Sum` is not modelled either.
- ProjectAggregate.Project.AddTask: hours are unbounded integers, so the 32-bit wrap of the budget check is not part of this member. It is modelled on its own in `BudgetOverflow` (see Findings).
- The `ProjectId` mismatch branches of the two handlers are modelled but unreachable from the public operations. A listed task always carries its project's id.

## Findings

| source | as written | input that shows it | evidently intended | confidence | as-written member | corrected member |
|---|---|---|---|---|---|---|
| src/AggregateEvents/ProjectAggregate/Entities/Project.cs:74 | `_tasks.Sum(t => t.HoursRemaining) + newTaskHours <= _hoursLimit` adds two 32-bit ints in the default unchecked context | a project holding one 1-hour task, then `AddTask("b", int.MaxValue)`: 1 + 2147483647 wraps to -2147483648, which is <= 10, so the task is added and the total becomes 2147483648 | the new hours are compared without wrap-around and the task is refused, keeping the total within 10 | medium, not executed; assumes the project is not built with overflow checking | `BudgetOverflow.MaxHoursPassesWrappedCheck` | `ProjectAggregate.Project.AddTask` |
