/**
  * Value-level view of a project's ordered task list: the queries the
  * project runs over its tasks (hour total, any/all complete, lookup by id),
  * the status labels and activity-log messages, and the lemmas the project's
  * consistency proofs rest on.
  */
module TaskList {

  import opened Wrappers

  /** Task identities stand for the GUIDs the entity base class assigns. */
  type Guid = nat

  /** What a project can observe of one of its tasks at an instant. */
  datatype TaskView = TaskView(id: Guid, name: string, hours: int, complete: bool)

  // The four labels the project's Status takes.
  const STATUS_NEW: string := "New"
  const STATUS_NOT_STARTED: string := "Not Started"
  const STATUS_MAKING_PROGRESS: string := "Making Progress"
  const STATUS_DONE: string := "Done!"

  // Fixed activity-log messages.
  const NEGATIVE_HOURS_MESSAGE: string := "Can't add a task with negative hours remaining."
  const ADD_OVER_LIMIT_MESSAGE: string := "Can't add a task that will exceed project hours limit."
  const UPDATE_OVER_LIMIT_MESSAGE: string := "Update would exceed project hour limit."

  function AddedMessage(name: string): string { name + " added." }
  function CompletedMessage(name: string): string { name + " completed." }
  function DeletedMessage(name: string): string { name + " deleted." }

  predicate IsStatusLabel(status: string)
  {
    status == STATUS_NEW || status == STATUS_NOT_STARTED
    || status == STATUS_MAKING_PROGRESS || status == STATUS_DONE
  }

  /**
    * Sum of the hours remaining over all tasks, first to last
    * (`Sum(t => t.HoursRemaining)`); never negative when no task is.
    */
  function TotalHours(s: seq<TaskView>): (r: int)
    ensures HoursNonNegative(s) ==> r >= 0
  {
    if s == [] then 0
    else
      assert forall i :: 0 <= i < |s| - 1 ==> s[1..][i] == s[i + 1];
      s[0].hours + TotalHours(s[1..])
  }

  /** True when some task is complete (a short-circuiting `Any`). */
  function AnyComplete(s: seq<TaskView>): (r: bool)
    ensures r <==> exists i :: 0 <= i < |s| && s[i].complete
  {
    if s == [] then false
    else if s[0].complete then true
    else
      assert forall i :: 1 <= i < |s| ==> s[i] == s[1..][i - 1];
      AnyComplete(s[1..])
  }

  /** True when every task is complete (a short-circuiting `All`). */
  function AllComplete(s: seq<TaskView>): (r: bool)
    ensures r <==> forall i :: 0 <= i < |s| ==> s[i].complete
  {
    if s == [] then true
    else if !s[0].complete then false
    else
      assert forall i :: 1 <= i < |s| ==> s[i] == s[1..][i - 1];
      AllComplete(s[1..])
  }

  /** True when no task is complete (`All(t => !t.IsComplete)`). */
  function NoneComplete(s: seq<TaskView>): (r: bool)
    ensures r <==> forall i :: 0 <= i < |s| ==> !s[i].complete
  {
    if s == [] then true
    else if s[0].complete then false
    else
      assert forall i :: 1 <= i < |s| ==> s[i] == s[1..][i - 1];
      NoneComplete(s[1..])
  }

  /**
    * Reference definition of the status a task list warrants: empty is New,
    * otherwise all complete is Done!, none complete is Not Started, and a mix
    * is Making Progress.
    */
  function StatusOf(s: seq<TaskView>): (r: string)
    ensures IsStatusLabel(r)
    ensures r == STATUS_NEW <==> s == []
  {
    if s == [] then STATUS_NEW
    else if forall i :: 0 <= i < |s| ==> s[i].complete then STATUS_DONE
    else if forall i :: 0 <= i < |s| ==> !s[i].complete then STATUS_NOT_STARTED
    else STATUS_MAKING_PROGRESS
  }

  /** Position of the task with the given id, if any (`SingleOrDefault` on distinct ids). */
  function IndexOfId(s: seq<TaskView>, id: Guid): (r: Option<nat>)
    ensures r.None? <==> forall i :: 0 <= i < |s| ==> s[i].id != id
    ensures r.Some? ==> r.value < |s| && s[r.value].id == id
    ensures r.Some? ==> forall i :: 0 <= i < r.value ==> s[i].id != id
  {
    if s == [] then None
    else if s[0].id == id then Some(0)
    else
      match IndexOfId(s[1..], id)
      case None => None
      case Some(k) => Some(k + 1)
  }

  /** The list with position i taken out, the others kept in order. */
  function RemoveAt<T>(s: seq<T>, i: nat): (r: seq<T>)
    requires i < |s|
    ensures |r| == |s| - 1
    ensures forall k :: 0 <= k < i ==> r[k] == s[k]
    ensures forall k :: i <= k < |r| ==> r[k] == s[k + 1]
  {
    s[..i] + s[i + 1..]
  }

  predicate HoursNonNegative(s: seq<TaskView>)
  {
    forall i :: 0 <= i < |s| ==> s[i].hours >= 0
  }

  predicate DistinctIds(s: seq<TaskView>)
  {
    forall i, j :: 0 <= i < j < |s| ==> s[i].id != s[j].id
  }

  /** A completed task has no hours left. */
  predicate CompleteHasNoHours(v: TaskView)
  {
    v.complete ==> v.hours == 0
  }

  /** What holds of every task list a project owns, apart from the hour budget. */
  predicate WellFormed(s: seq<TaskView>)
  {
    && DistinctIds(s)
    && HoursNonNegative(s)
    && forall i :: 0 <= i < |s| ==> CompleteHasNoHours(s[i])
  }

  /**
    * A lone task makes the project Done! when it is complete (the order of
    * the rules puts Done! over Making Progress) and Not Started otherwise.
    */
  lemma SingleTaskStatus(v: TaskView)
    ensures StatusOf([v]) == if v.complete then STATUS_DONE else STATUS_NOT_STARTED
  {
    assert [v][0] == v;
  }

  /** Appending a task adds its hours to the total. */
  lemma {:induction false} TotalHoursAppend(s: seq<TaskView>, v: TaskView)
    ensures TotalHours(s + [v]) == TotalHours(s) + v.hours
  {
    if s == [] {
      assert [] + [v] == [v];
    } else {
      assert (s + [v])[1..] == s[1..] + [v];
      TotalHoursAppend(s[1..], v);
    }
  }

  /** Replacing one task changes the total by the difference of their hours. */
  lemma {:induction false} TotalHoursUpdate(s: seq<TaskView>, i: nat, v: TaskView)
    requires i < |s|
    ensures TotalHours(s[i := v]) == TotalHours(s) - s[i].hours + v.hours
  {
    if i > 0 {
      assert s[i := v][1..] == s[1..][i - 1 := v];
      TotalHoursUpdate(s[1..], i - 1, v);
    }
  }

  /** Removing one task takes its hours off the total. */
  lemma {:induction false} TotalHoursRemove(s: seq<TaskView>, i: nat)
    requires i < |s|
    ensures TotalHours(RemoveAt(s, i)) == TotalHours(s) - s[i].hours
  {
    if i == 0 {
      assert RemoveAt(s, 0) == s[1..];
    } else {
      assert RemoveAt(s, i)[1..] == RemoveAt(s[1..], i - 1);
      TotalHoursRemove(s[1..], i - 1);
    }
  }

  /** With no negative hours, each task's hours lie between zero and the total. */
  lemma {:induction false} TotalHoursBoundsEach(s: seq<TaskView>, i: nat)
    requires HoursNonNegative(s)
    requires i < |s|
    ensures 0 <= s[i].hours <= TotalHours(s)
  {
    if i > 0 {
      TotalHoursBoundsEach(s[1..], i - 1);
    }
  }

  /** A task with a new id and non-negative hours keeps the list well formed. */
  lemma AppendKeepsWellFormed(s: seq<TaskView>, v: TaskView)
    requires WellFormed(s)
    requires v.hours >= 0 && CompleteHasNoHours(v)
    requires forall i :: 0 <= i < |s| ==> s[i].id != v.id
    ensures WellFormed(s + [v])
  {
    var r := s + [v];
    assert forall k :: 0 <= k < |s| ==> r[k] == s[k];
  }

  /** Re-estimating one task in place keeps the list well formed. */
  lemma UpdateKeepsWellFormed(s: seq<TaskView>, i: nat, v: TaskView)
    requires WellFormed(s) && i < |s|
    requires v.id == s[i].id && v.hours >= 0 && CompleteHasNoHours(v)
    ensures WellFormed(s[i := v])
  {
  }

  /** With distinct ids, looking up the id of the task at position i finds position i. */
  lemma IndexOfIdFindsListed(s: seq<TaskView>, i: nat)
    requires DistinctIds(s) && i < |s|
    ensures IndexOfId(s, s[i].id) == Some(i)
  {
  }

  /**
    * Adding a task with a new id and then removing that id gives back the
    * list it was added to: the lookup finds the task last, and taking it out
    * leaves the earlier tasks as they were.
    */
  lemma AddThenRemoveRestores(s: seq<TaskView>, v: TaskView)
    requires forall i :: 0 <= i < |s| ==> s[i].id != v.id
    ensures IndexOfId(s + [v], v.id) == Some(|s|)
    ensures RemoveAt(s + [v], |s|) == s
  {
    var r := s + [v];
    assert r[|s|].id == v.id;
    assert forall i :: 0 <= i < |s| ==> r[i] == s[i];
  }

  /** Removing a task keeps the list well formed. */
  lemma RemoveAtKeepsWellFormed(s: seq<TaskView>, i: nat)
    requires i < |s| && WellFormed(s)
    ensures WellFormed(RemoveAt(s, i))
  {
    var r := RemoveAt(s, i);
    assert forall k :: 0 <= k < |r| ==> r[k] == s[if k < i then k else k + 1];
  }
}
