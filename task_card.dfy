/** The task card's two decisions: the overdue highlight and the toggle button's label. */
module TaskCard {
  import opened Wrappers
  import opened TaskSchema
  import Dashboard

  /** The due date is strictly in the past and the task is not completed. */
  predicate IsOverdue(t: Task, now: int) {
    t.dueDate.Some? && t.dueDate.value < now && t.status != Completed
  }

  /** Once overdue, a task stays overdue as time passes, until it is completed. */
  lemma OverdueIsMonotone(t: Task, now: int, later: int)
    requires now <= later
    ensures IsOverdue(t, now) ==> IsOverdue(t, later)
  {
  }

  /** With two statuses, every pending task whose due date has passed is highlighted. */
  lemma OverdueWhenPastDue(t: Task, now: int)
    requires t.status == Pending && t.dueDate.Some? && t.dueDate.value < now
    ensures IsOverdue(t, now)
  {
  }

  /** No due date, a completed task, or a due date not yet passed is never overdue. */
  lemma NotOverdue(t: Task, now: int)
    ensures t.dueDate.None? ==> !IsOverdue(t, now)
    ensures t.status == Completed ==> !IsOverdue(t, now)
    ensures t.dueDate.Some? && t.dueDate.value >= now ==> !IsOverdue(t, now)
  {
  }

  const MarkPending := "Mark pending"
  const MarkComplete := "Mark complete"

  /** The toggle button's label. */
  function ToggleLabel(t: Task): (r: string)
    ensures r == MarkPending <==> t.status == Completed
    ensures r == MarkComplete <==> t.status != Completed
  {
    if StatusName(t.status) == "completed" then MarkPending else MarkComplete
  }

  /** The label names the status the toggle sends, and toggling an overdue task clears the highlight. */
  lemma LabelMatchesToggle(t: Task, now: int)
    ensures ToggleLabel(t) == MarkComplete <==> Dashboard.ToggledStatus(StatusName(t.status)) == "completed"
    ensures IsOverdue(t, now) ==> !IsOverdue(t.(status := ParseStatus(Dashboard.ToggledStatus(StatusName(t.status))).value), now)
  {
    match t.status
    case Pending =>
    case Completed =>
  }
}
