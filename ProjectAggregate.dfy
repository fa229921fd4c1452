/**
  * The project aggregate: a Project root owning an ordered list of Task
  * entities. A task notifies the project it is subscribed to when it is
  * completed or re-estimated; the project recomputes its Status, keeps its
  * activity log and vetoes re-estimates that would break its hour budget.
  *
  * The C# events become an explicit subscription: a task's `listener` field
  * is the project whose handlers its `Completed` and `HoursUpdated` events
  * call, set when the project adds the task and cleared when it removes it.
  * The `CancelRequested` flag of the hours-updated event is the boolean the
  * project's handler returns.
  */
module ProjectAggregate {

  import opened Wrappers
  import opened TaskList

  /** A task of a project: a name, the hours still needed and a completion flag. */
  class Task {
    const Id: Guid
    const ProjectId: Guid
    const Name: string
    var IsComplete: bool
    var HoursRemaining: int
    /** The project subscribed to this task's Completed and HoursUpdated events, if any. */
    var listener: Project?

    /** A completed task has no hours left. */
    ghost predicate Valid()
      reads this
    {
      IsComplete ==> HoursRemaining == 0
    }

    function View(): TaskView
      reads this
    {
      TaskView(Id, Name, HoursRemaining, IsComplete)
    }

    /** Creates an incomplete task; the hours are taken as given, without any check. */
    constructor (id: Guid, name: string, hoursRemaining: int, projectId: Guid)
      ensures Valid()
      ensures Id == id && Name == name && ProjectId == projectId
      ensures HoursRemaining == hoursRemaining && !IsComplete
      ensures listener == null
    {
      Id := id;
      Name := name;
      HoursRemaining := hoursRemaining;
      ProjectId := projectId;
      IsComplete := false;
      listener := null;
    }

    /**
      * Marks the task complete with no hours left and notifies the subscribed
      * project once; a task that is already complete is left alone and
      * notifies nobody.
      */
    method MarkComplete()
      requires Valid()
      requires listener != null ==> listener.Valid() && this in listener.tasks
      modifies this, listener
      ensures Valid() && listener == old(listener)
      ensures IsComplete && HoursRemaining == 0
      ensures old(IsComplete) ==> unchanged(this)
      ensures listener != null ==>
        && listener.Valid() && listener.tasks == old(listener.tasks)
        && listener.model == old(listener.model)[listener.IndexOf(this) := View()]
      ensures listener != null ==>
        if old(IsComplete) then unchanged(listener)
        else
          && listener.activityLog == old(listener.activityLog) + [CompletedMessage(Name)]
          && listener.Status == StatusOf(listener.model)
    {
      if IsComplete {
        return;
      }
      var project := listener;
      if project != null {
        Project.CoupledExcept(project, project.tasks, project.model, this);
      }
      IsComplete := true;
      HoursRemaining := 0;
      if project != null {
        project.TaskChanged(this);
        project.HandleTaskCompleted(this);
      }
    }

    /**
      * Raises HoursUpdated with a fresh event whose CancelRequested flag is
      * false and answers the flag once the subscribed project, if any, has
      * handled it. The project's model still shows this task's previous
      * view, so the total it checks is the model's total with this task's
      * hours swapped in.
      */
    method RaiseHoursUpdated() returns (cancelRequested: bool)
      requires listener != null ==>
        && this in listener.tasks && DistinctIds(listener.model)
        && Project.CoupledSeq(listener, listener.tasks, listener.model, this)
      modifies listener
      ensures listener == null ==> !cancelRequested
      ensures listener != null ==> listener.tasks == old(listener.tasks) && listener.model == old(listener.model)
      ensures listener != null ==>
        var i := listener.IndexOf(this);
        var total := TotalHours(listener.model) - listener.model[i].hours + HoursRemaining;
        && cancelRequested == (total > listener.hoursLimit)
        && listener.activityLog == old(listener.activityLog) + (if cancelRequested then [UPDATE_OVER_LIMIT_MESSAGE] else [])
        && listener.Status == (if cancelRequested then old(listener.Status) else StatusOf(listener.model[i := View()]))
    {
      cancelRequested := false;
      var project := listener;
      if project != null {
        project.SnapshotExcept(this);
        TotalHoursUpdate(project.model, project.IndexOf(this), View());
        cancelRequested := project.HandleTaskHoursUpdated(this);
      }
    }

    /**
      * The positive-hours branch of UpdateHoursRemaining: the new hours are
      * applied tentatively and the task reopened, HoursUpdated is raised, and
      * the previous hours are restored if the subscribed project requests
      * cancellation, while the task stays incomplete.
      */
    method Reestimate(hours: int)
      requires hours > 0 && Valid()
      requires listener != null ==> listener.Valid() && this in listener.tasks
      modifies this, listener
      ensures Valid() && listener == old(listener) && !IsComplete
      ensures listener == null ==> HoursRemaining == hours
      ensures listener != null ==>
        && listener.Valid() && listener.tasks == old(listener.tasks)
        && listener.model == old(listener.model)[listener.IndexOf(this) := View()]
      ensures listener != null ==>
        var vetoed := TotalHours(old(listener.model)) - old(HoursRemaining) + hours > listener.hoursLimit;
        && HoursRemaining == (if vetoed then old(HoursRemaining) else hours)
        && listener.activityLog == old(listener.activityLog) + (if vetoed then [UPDATE_OVER_LIMIT_MESSAGE] else [])
        && listener.Status == (if vetoed then old(listener.Status) else StatusOf(listener.model))
    {
      var project := listener;
      ghost var vetoed := false;
      if project != null {
        assert project.model[project.IndexOf(this)] == View();
        vetoed := TotalHours(project.model) - HoursRemaining + hours > project.hoursLimit;
        Project.CoupledExcept(project, project.tasks, project.model, this);
      }
      var currentHoursRemaining := HoursRemaining;
      HoursRemaining := hours;
      IsComplete := false;

      var cancelRequested := RaiseHoursUpdated();
      assert cancelRequested == vetoed;
      if cancelRequested {
        HoursRemaining := currentHoursRemaining;
      }
      if project != null {
        project.TaskChanged(this);
      }
    }

    /**
      * Re-estimates the hours remaining. Negative hours are ignored. Zero
      * hours complete the task and cannot be vetoed. Positive hours reopen
      * the task and are applied tentatively; if the subscribed project
      * requests cancellation the previous hours are restored, while the task
      * stays incomplete.
      */
    method UpdateHoursRemaining(hours: int)
      requires Valid()
      requires listener != null ==> listener.Valid() && this in listener.tasks
      modifies this, listener
      ensures Valid() && listener == old(listener)
      ensures listener != null ==>
        && listener.Valid() && listener.tasks == old(listener.tasks)
        && listener.model == old(listener.model)[listener.IndexOf(this) := View()]
      ensures hours < 0 ==> unchanged(this) && (listener != null ==> unchanged(listener))
      ensures hours == 0 ==> IsComplete && HoursRemaining == 0
      ensures hours == 0 && listener != null ==>
        if old(IsComplete) then unchanged(listener)
        else
          && listener.activityLog == old(listener.activityLog) + [CompletedMessage(Name)]
          && listener.Status == StatusOf(listener.model)
      ensures hours > 0 ==> !IsComplete
      ensures hours > 0 && listener == null ==> HoursRemaining == hours
      ensures hours > 0 && listener != null ==>
        var vetoed := TotalHours(old(listener.model)) - old(HoursRemaining) + hours > listener.hoursLimit;
        && HoursRemaining == (if vetoed then old(HoursRemaining) else hours)
        && listener.activityLog == old(listener.activityLog) + (if vetoed then [UPDATE_OVER_LIMIT_MESSAGE] else [])
        && listener.Status == (if vetoed then old(listener.Status) else StatusOf(listener.model))
    {
      if hours < 0 {
        return;
      }
      if hours > 0 {
        Reestimate(hours);
        return;
      }
      var project := listener;
      if project != null {
        Project.CoupledExcept(project, project.tasks, project.model, this);
      }
      HoursRemaining := 0;
      if project != null {
        project.TaskChanged(this);
      }
      MarkComplete();
    }
  }

  /** The aggregate root: owns the tasks and enforces the hour budget over them. */
  class Project {
    const Id: Guid
    var Status: string
    var tasks: seq<Task>
    var activityLog: seq<string>
    /** The total of hours remaining over all tasks may not exceed this. */
    const hoursLimit: int := 10
    /** The tasks as values, in list order. */
    ghost var model: seq<TaskView>

    /**
      * Model m describes the task objects ts of project p position by
      * position: every task carries p's id and its model id, and every task
      * but `except` shows its model view and is subscribed to p. The
      * excepted task's fields are not read.
      */
    static ghost predicate CoupledSeq(p: Project, ts: seq<Task>, m: seq<TaskView>, except: Task?)
      reads set u | u in ts && u != except
    {
      && |m| == |ts|
      && (forall i :: 0 <= i < |ts| ==> ts[i].ProjectId == p.Id && ts[i].Id == m[i].id)
      && (forall i :: 0 <= i < |ts| && ts[i] != except ==> ts[i].View() == m[i] && ts[i].listener == p)
    }

    /** Coupling that excepts nothing holds when any one task is excepted. */
    static lemma CoupledExcept(p: Project, ts: seq<Task>, m: seq<TaskView>, t: Task)
      requires CoupledSeq(p, ts, m, null)
      ensures CoupledSeq(p, ts, m, t)
    {
    }

    /** An excepted task that is not in the list is no exception at all. */
    static lemma CoupledWithoutExcept(p: Project, ts: seq<Task>, m: seq<TaskView>, t: Task)
      requires CoupledSeq(p, ts, m, t) && t !in ts
      ensures CoupledSeq(p, ts, m, null)
    {
    }

    /** A task subscribed to p and tagged with its id extends the coupling. */
    static lemma CoupledAppend(p: Project, ts: seq<Task>, m: seq<TaskView>, t: Task)
      requires CoupledSeq(p, ts, m, null)
      requires t.ProjectId == p.Id && t.listener == p
      ensures CoupledSeq(p, ts + [t], m + [t.View()], null)
    {
      assert forall k :: 0 <= k < |ts| ==> (ts + [t])[k] == ts[k] && (m + [t.View()])[k] == m[k];
    }

    /**
      * Removing position i keeps the coupling of the others; with distinct
      * model ids the removed task is no longer listed.
      */
    static lemma CoupledRemove(p: Project, ts: seq<Task>, m: seq<TaskView>, i: nat)
      requires CoupledSeq(p, ts, m, null) && DistinctIds(m) && i < |ts|
      ensures CoupledSeq(p, RemoveAt(ts, i), RemoveAt(m, i), ts[i])
      ensures ts[i] !in RemoveAt(ts, i)
    {
      var rt, rm := RemoveAt(ts, i), RemoveAt(m, i);
      assert forall k :: 0 <= k < |rt| ==> rt[k] == ts[if k < i then k else k + 1] && rm[k] == m[if k < i then k else k + 1];
    }

    /** The excepted task, once it shows view v, is described by m[i := v]. */
    static lemma CoupledUpdate(p: Project, ts: seq<Task>, m: seq<TaskView>, t: Task, i: nat)
      requires CoupledSeq(p, ts, m, t) && DistinctIds(m)
      requires i < |ts| && ts[i] == t && t.listener == p
      ensures CoupledSeq(p, ts, m[i := t.View()], null)
    {
      forall k | 0 <= k < |ts| && k != i
        ensures ts[k] != t
      {
        assert ts[k].Id == m[k].id != m[i].id == t.Id;
      }
    }

    ghost predicate Coupled()
      reads this`model, this`tasks, tasks
    {
      CoupledSeq(this, tasks, model, null)
    }

    /**
      * The tasks are subscribed to this project and tagged with its id; their
      * ids are distinct, their hours non-negative and zero once complete, and
      * their total within the budget; Status is one of the four labels.
      */
    ghost predicate Valid()
      reads this`model, this`tasks, this`Status, tasks
    {
      && Coupled()
      && WellFormed(model)
      && TotalHours(model) <= hoursLimit
      && IsStatusLabel(Status)
    }

    /** Position of a task in the list. */
    ghost function IndexOf(t: Task): (i: nat)
      reads this`tasks
      requires t in tasks
      ensures i < |tasks| && tasks[i] == t
    {
      var i :| 0 <= i < |tasks| && tasks[i] == t; i
    }

    /** A new project has status New, no tasks and an empty activity log. */
    constructor (id: Guid)
      ensures Valid()
      ensures Id == id && Status == STATUS_NEW && tasks == [] && model == [] && activityLog == []
    {
      Id := id;
      Status := STATUS_NEW;
      tasks := [];
      activityLog := [];
      model := [];
    }

    /** The tasks as values, read off the task objects. */
    function Snapshot(): (s: seq<TaskView>)
      reads this`tasks, tasks
      ensures Coupled() ==> s == model
    {
      var ts := tasks;
      seq(|ts|, i requires 0 <= i < |ts| reads ts => ts[i].View())
    }

    /** While the model lags behind task t alone, the tasks read as the model with t's view in place. */
    lemma SnapshotExcept(t: Task)
      requires t in tasks && CoupledSeq(this, tasks, model, t) && DistinctIds(model)
      ensures Snapshot() == model[IndexOf(t) := t.View()]
    {
      var i, s := IndexOf(t), Snapshot();
      forall k | 0 <= k < |s| && k != i
        ensures tasks[k] != t
      {
        assert tasks[k].Id == model[k].id != model[i].id == t.Id;
      }
    }

    /**
      * Brings the model up to date after task t, and no other, changed its
      * hours or completion flag, keeping no hours once complete and no
      * negative hours. The list stays well formed.
      */
    ghost method TaskChanged(t: Task)
      requires t in tasks && CoupledSeq(this, tasks, model, t) && WellFormed(model)
      requires t.listener == this && t.Valid() && t.HoursRemaining >= 0
      modifies this`model
      ensures model == old(model)[IndexOf(t) := t.View()]
      ensures t.View() == old(model)[IndexOf(t)] ==> model == old(model)
      ensures Coupled() && WellFormed(model)
      ensures TotalHours(model) == TotalHours(old(model)) - old(model)[IndexOf(t)].hours + t.HoursRemaining
      ensures TotalHours(model) <= hoursLimit && IsStatusLabel(Status) ==> Valid()
    {
      var i := IndexOf(t);
      CoupledUpdate(this, tasks, model, t, i);
      TotalHoursUpdate(model, i, t.View());
      UpdateKeepsWellFormed(model, i, t.View());
      model := model[i := t.View()];
    }

    /**
      * True when the hours remaining over all tasks, plus those of a task
      * about to be added, stay within the budget.
      */
    function VerifyHoursWithinLimit(newTaskHours: int := 0): (r: bool)
      reads this`tasks, tasks
      ensures Coupled() ==> (r <==> TotalHours(model) + newTaskHours <= hoursLimit)
    {
      TotalHours(Snapshot()) + newTaskHours <= hoursLimit
    }

    /** Appends one entry to the activity log. */
    method Log(message: string)
      modifies this`activityLog
      ensures activityLog == old(activityLog) + [message]
    {
      activityLog := activityLog + [message];
    }

    /**
      * Recomputes Status in the order the C# `UpdateStatus` applies its
      * rules: New for no tasks; otherwise Making Progress if any task is
      * complete, overwritten by Done! if all are, overwritten by Not Started
      * if none is.
      */
    method UpdateStatus()
      modifies this`Status
      ensures Status == StatusOf(Snapshot())
    {
      var s := Snapshot();
      if |s| == 0 {
        Status := STATUS_NEW;
        return;
      }
      if AnyComplete(s) {
        Status := STATUS_MAKING_PROGRESS;
      }
      if AllComplete(s) {
        Status := STATUS_DONE;
      }
      if NoneComplete(s) {
        Status := STATUS_NOT_STARTED;
      }
    }

    /**
      * Handler of a task's HoursUpdated event, run after the new hours are
      * applied tentatively. A task of another project is ignored. Over the
      * budget it logs the refusal, requests cancellation and leaves Status
      * alone; within the budget it recomputes Status and logs nothing.
      */
    method HandleTaskHoursUpdated(t: Task) returns (cancelRequested: bool)
      modifies this`Status, this`activityLog
      ensures t.ProjectId != Id ==> !cancelRequested && unchanged(this)
      ensures t.ProjectId == Id ==>
        && cancelRequested == (TotalHours(Snapshot()) > hoursLimit)
        && activityLog == old(activityLog) + (if cancelRequested then [UPDATE_OVER_LIMIT_MESSAGE] else [])
        && Status == (if cancelRequested then old(Status) else StatusOf(Snapshot()))
    {
      cancelRequested := false;
      if t.ProjectId != Id {
        return;
      }
      if !VerifyHoursWithinLimit() {
        Log(UPDATE_OVER_LIMIT_MESSAGE);
        cancelRequested := true;
        return;
      }
      UpdateStatus();
    }

    /**
      * Handler of a task's Completed event. A task of another project is
      * ignored; otherwise Status is recomputed and the completion logged.
      */
    method HandleTaskCompleted(t: Task)
      modifies this`Status, this`activityLog
      ensures t.ProjectId != Id ==> unchanged(this)
      ensures t.ProjectId == Id ==>
        && Status == StatusOf(Snapshot())
        && activityLog == old(activityLog) + [CompletedMessage(t.Name)]
    {
      if t.ProjectId != Id {
        return;
      }
      UpdateStatus();
      Log(CompletedMessage(t.Name));
    }

    /**
      * `_tasks.Add(task)` together with the collection-changed handler it
      * triggers, which subscribes this project to the new task's events.
      * The task is listed last and the hour total grows by its hours.
      */
    method AddAndSubscribe(task: Task)
      requires Coupled() && WellFormed(model)
      requires task !in tasks && task.ProjectId == Id
      requires task.Valid() && task.HoursRemaining >= 0
      requires forall i :: 0 <= i < |model| ==> model[i].id != task.Id
      modifies this`tasks, this`model, task`listener
      ensures tasks == old(tasks) + [task] && model == old(model) + [task.View()]
      ensures task.listener == this
      ensures Coupled() && WellFormed(model)
      ensures TotalHours(model) == TotalHours(old(model)) + task.HoursRemaining
    {
      TotalHoursAppend(model, task.View());
      AppendKeepsWellFormed(model, task.View());
      tasks := tasks + [task];
      task.listener := this;
      CoupledAppend(this, old(tasks), model, task);
      model := model + [task.View()];
    }

    /**
      * `_tasks.Remove(task)` for the task listed at position i, together with the
      * collection-changed handler it triggers, which unsubscribes this
      * project from the task's events. The others keep their order and the
      * hour total drops by the removed task's hours.
      */
    method RemoveAndUnsubscribe(task: Task, i: nat)
      requires Coupled() && WellFormed(model) && i < |tasks| && tasks[i] == task
      modifies this`tasks, this`model, task`listener
      ensures tasks == RemoveAt(old(tasks), i) && model == RemoveAt(old(model), i)
      ensures task.listener == null && task !in tasks
      ensures Coupled() && WellFormed(model)
      ensures TotalHours(model) == TotalHours(old(model)) - old(model)[i].hours
    {
      TotalHoursRemove(model, i);
      RemoveAtKeepsWellFormed(model, i);
      CoupledRemove(this, tasks, model, i);
      tasks := RemoveAt(tasks, i);
      model := RemoveAt(model, i);
      task.listener := null;
      CoupledWithoutExcept(this, tasks, model, task);
    }

    /**
      * Adds a new incomplete task at the end of the list, subscribes to it,
      * recomputes Status and logs the addition; negative hours or hours that
      * would take the total over the budget are refused with a log entry and
      * nothing else changes. `id` is the identity the new task receives.
      */
    method AddTask(name: string, hoursRemaining: int, id: Guid)
      requires Valid()
      requires forall i :: 0 <= i < |model| ==> model[i].id != id
      modifies this
      ensures Valid()
      ensures hoursRemaining < 0 ==>
        && tasks == old(tasks) && model == old(model) && Status == old(Status)
        && activityLog == old(activityLog) + [NEGATIVE_HOURS_MESSAGE]
      ensures hoursRemaining >= 0 && TotalHours(old(model)) + hoursRemaining > hoursLimit ==>
        && tasks == old(tasks) && model == old(model) && Status == old(Status)
        && activityLog == old(activityLog) + [ADD_OVER_LIMIT_MESSAGE]
      ensures hoursRemaining >= 0 && TotalHours(old(model)) + hoursRemaining <= hoursLimit ==>
        && |tasks| == |old(tasks)| + 1 && tasks[..|old(tasks)|] == old(tasks)
        && fresh(tasks[|old(tasks)|])
        && model == old(model) + [TaskView(id, name, hoursRemaining, false)]
        && Status == StatusOf(model)
        && activityLog == old(activityLog) + [AddedMessage(name)]
    {
      var task := new Task(id, name, hoursRemaining, Id);
      if hoursRemaining < 0 {
        Log(NEGATIVE_HOURS_MESSAGE);
        return;
      }
      if !VerifyHoursWithinLimit(hoursRemaining) {
        Log(ADD_OVER_LIMIT_MESSAGE);
        return;
      }
      AddAndSubscribe(task);
      UpdateStatus();
      assert Status == StatusOf(model);
      Log(AddedMessage(task.Name));
    }

    /**
      * Removes the task with the given id, unsubscribes from it, hands the
      * removed task to the deleted-task event (`raised`) and logs the
      * deletion; Status is not recomputed. An unknown id changes nothing.
      */
    method DeleteTask(id: Guid) returns (raised: Option<TaskView>)
      requires Valid()
      modifies this, tasks`listener
      ensures Valid()
      ensures Status == old(Status)
      ensures IndexOfId(old(model), id).None? ==>
        && tasks == old(tasks) && model == old(model)
        && activityLog == old(activityLog) && raised == None
      ensures IndexOfId(old(model), id).Some? ==>
        var i := IndexOfId(old(model), id).value;
        && tasks == RemoveAt(old(tasks), i)
        && model == RemoveAt(old(model), i)
        && old(tasks)[i].listener == null
        && raised == Some(old(model)[i])
        && activityLog == old(activityLog) + [DeletedMessage(old(model)[i].name)]
    {
      var found := IndexOfId(Snapshot(), id);
      if found.None? {
        return None;
      }
      var i := found.value;
      var taskToDelete := tasks[i];
      RemoveAndUnsubscribe(taskToDelete, i);
      raised := Some(taskToDelete.View());
      Log(DeletedMessage(taskToDelete.Name));
    }
  }
}
