/**
  * Client scenarios over the project aggregate: the behaviours exercised
  * by the repository's tests, and the consequences of the code as written
  * that those tests do not exercise (a vetoed re-estimate or a deletion
  * leaving Status behind the tasks, a task added with no hours being
  * incomplete).
  */
module Scenarios {

  import opened Wrappers
  import opened TaskList
  import opened ProjectAggregate

  /** A new project is New, with no tasks and an empty log. */
  method NewProject()
  {
    var p := new Project(1);
    assert p.Status == "New" && p.tasks == [] && p.activityLog == [];
  }

  /**
    * Completing a task of one project updates that project only; a second
    * project with no tasks is left alone.
    */
  method OwnTaskCompletedOnly()
  {
    var p := new Project(1);
    p.AddTask("a", 1, 10);
    assert p.model == [TaskView(10, "a", 1, false)];
    assert p.activityLog == [AddedMessage("a")];
    var p2 := new Project(2);
    var t := p.tasks[0];
    assert t.View() == p.model[0] && t.listener == p && p.IndexOf(t) == 0;
    var log := p.activityLog;
    t.MarkComplete();
    assert p.model == [TaskView(10, "a", 0, true)];
    assert p.activityLog == log + [CompletedMessage("a")];
    SingleTaskStatus(p.model[0]);
    assert p.Status == "Done!";
    assert p2.tasks == [] && p2.activityLog == [] && p2.Status == "New";
  }

  /** Re-estimating a task within the budget is accepted and logs nothing. */
  method OwnTaskHoursUpdatedOnly()
  {
    var p := new Project(1);
    p.AddTask("a", 1, 10);
    assert p.model == [TaskView(10, "a", 1, false)];
    assert p.activityLog == [AddedMessage("a")];
    var p2 := new Project(2);
    var t := p.tasks[0];
    assert t.View() == p.model[0] && t.listener == p && p.IndexOf(t) == 0;
    assert TotalHours(p.model) == 1;
    var log := p.activityLog;
    t.UpdateHoursRemaining(2);
    assert p.model == [TaskView(10, "a", 2, false)];
    assert p.activityLog == log;
    SingleTaskStatus(p.model[0]);
    assert p.Status == "Not Started";
    assert p2.tasks == [] && p2.activityLog == [];
  }

  /** An addition that would take the total over the budget is refused and logged. */
  method RefusedOverBudget()
  {
    var p := new Project(1);
    p.AddTask("a", 8, 10);
    assert p.model == [TaskView(10, "a", 8, false)];
    assert p.activityLog == [AddedMessage("a")];
    assert TotalHours(p.model) == 8;
    p.AddTask("b", 5, 11);
    assert p.model == [TaskView(10, "a", 8, false)];
    assert p.activityLog == [AddedMessage("a"), ADD_OVER_LIMIT_MESSAGE];
  }

  /** An addition with negative hours is refused and logged; Status stays New. */
  method RefusedNegative()
  {
    var p := new Project(1);
    p.AddTask("c", -1, 12);
    assert p.model == [] && p.Status == "New";
    assert p.activityLog == [NEGATIVE_HOURS_MESSAGE];
  }

  /**
    * A vetoed re-estimate of a completed task restores its hours but leaves
    * it incomplete, and Status stays Done! although no task is complete.
    */
  method VetoedUpdateLeavesStatusBehind()
  {
    var p := new Project(1);
    p.AddTask("a", 1, 10);
    assert p.model == [TaskView(10, "a", 1, false)];
    var t := p.tasks[0];
    assert t.View() == p.model[0] && t.listener == p && p.IndexOf(t) == 0;
    t.MarkComplete();
    assert p.model == [TaskView(10, "a", 0, true)];
    SingleTaskStatus(p.model[0]);
    assert p.Status == "Done!";
    assert TotalHours(p.model) == 0;
    var log := p.activityLog;
    t.UpdateHoursRemaining(20);
    assert p.model == [TaskView(10, "a", 0, false)];
    assert p.activityLog == log + [UPDATE_OVER_LIMIT_MESSAGE];
    assert p.Status == "Done!";
    SingleTaskStatus(p.model[0]);
    assert StatusOf(p.model) == "Not Started";
  }

  /**
    * Deleting the only task hands it to the deleted-task event and leaves
    * Status at Not Started, although a project without tasks is New.
    */
  method DeleteLeavesStatusBehind()
  {
    var p := new Project(1);
    p.AddTask("a", 1, 10);
    assert p.model == [TaskView(10, "a", 1, false)];
    SingleTaskStatus(p.model[0]);
    assert p.Status == "Not Started";
    assert IndexOfId(p.model, 10) == Some(0);
    var log := p.activityLog;
    var raised := p.DeleteTask(10);
    assert raised == Some(TaskView(10, "a", 1, false));
    assert p.model == [];
    assert p.activityLog == log + [DeletedMessage("a")];
    assert p.Status == "Not Started" && StatusOf(p.model) == "New";
  }

  /**
    * A removed task keeps its state, and once unsubscribed it can still be
    * completed without the project hearing of it.
    */
  method DeletedTaskCompletesUnheard()
  {
    var p := new Project(1);
    p.AddTask("a", 1, 10);
    assert p.model == [TaskView(10, "a", 1, false)];
    assert IndexOfId(p.model, 10) == Some(0);
    var t := p.tasks[0];
    assert t.View() == p.model[0];
    var raised := p.DeleteTask(10);
    assert t.View() == TaskView(10, "a", 1, false) && t.listener == null;
    var log := p.activityLog;
    t.MarkComplete();
    assert t.IsComplete && t.HoursRemaining == 0;
    assert p.activityLog == log;
  }

  /** Deleting an id no task carries changes nothing. */
  method DeleteUnknownId()
  {
    var p := new Project(1);
    p.AddTask("a", 1, 10);
    assert p.model == [TaskView(10, "a", 1, false)];
    var raised := p.DeleteTask(11);
    assert raised == None;
    assert p.model == [TaskView(10, "a", 1, false)];
    assert p.activityLog == [AddedMessage("a")];
  }

  /** A task added with no hours is not complete: no hours does not mean done. */
  method NoHoursIsNotComplete()
  {
    var p := new Project(1);
    p.AddTask("z", 0, 10);
    assert p.model == [TaskView(10, "z", 0, false)];
    SingleTaskStatus(p.model[0]);
    assert p.Status == "Not Started";
  }
}
