/**
 * The dashboard page: the projection of the filter panel onto query
 * parameters, the status toggle, and the page state its handlers change.
 * Each request's outcome is a parameter.
 */
module Dashboard {
  import opened Wrappers
  import opened Http
  import opened TaskSchema

  /** A filter panel's state: field name to the text in the control. */
  type Filters = map<string, string>

  const DefaultFilters: Filters := map[
    "status" := "", "priority" := "", "sortBy" := "createdAt", "sortOrder" := "desc",
    "dueFrom" := "", "dueTo" := "", "q" := ""]

  /** The entries of the filters whose value is non-empty, each with its value. */
  function NonEmptyEntries(filters: Filters): (r: map<string, string>)
    ensures forall k :: k in r <==> k in filters && filters[k] != ""
    ensures forall k :: k in r ==> r[k] == filters[k]
  {
    map k | k in filters && filters[k] != "" :: filters[k]
  }

  /** The `params` memo: the `forEach` over the filter entries that keeps the truthy ones. */
  method BuildParams(filters: Filters) returns (query: map<string, string>)
    ensures query == NonEmptyEntries(filters)
  {
    query := map[];
    var pending := filters.Keys;
    while pending != {}
      invariant pending <= filters.Keys
      invariant forall k :: k in query <==> k in filters && k !in pending && filters[k] != ""
      invariant forall k :: k in query ==> query[k] == filters[k]
      decreases pending
    {
      var key :| key in pending;
      if filters[key] != "" {
        query := query[key := filters[key]];
      }
      pending := pending - {key};
    }
  }

  /** With the default filters only the sort parameters are sent. */
  lemma DefaultParams()
    ensures NonEmptyEntries(DefaultFilters) == map["sortBy" := "createdAt", "sortOrder" := "desc"]
  {
    var r := NonEmptyEntries(DefaultFilters);
    var expected := map["sortBy" := "createdAt", "sortOrder" := "desc"];
    assert r.Keys == expected.Keys by {
      assert DefaultFilters["status"] == "" && DefaultFilters["priority"] == "";
      assert DefaultFilters["dueFrom"] == "" && DefaultFilters["dueTo"] == "" && DefaultFilters["q"] == "";
    }
  }

  /** `handleToggleStatus`'s new status: `completed` becomes `pending`, anything else `completed`. */
  function ToggledStatus(status: string): (r: string)
    ensures r == "pending" <==> status == "completed"
    ensures r in {"pending", "completed"}
  {
    if status == "completed" then "pending" else "completed"
  }

  /** Toggling twice gives back either valid status. */
  lemma ToggleInvolution(s: Status)
    ensures ToggledStatus(ToggledStatus(StatusName(s))) == StatusName(s)
    ensures ToggledStatus(StatusName(s)) != StatusName(s)
  {
    match s
    case Pending =>
    case Completed =>
  }

  /** The body of the toggle request: the status field and nothing else. */
  function ToggleBody(t: Task): (r: Body)
    ensures r.Keys == {"status"}
    ensures r["status"].Str? && ParseStatus(r["status"].s).Some?
    ensures ParseStatus(r["status"].s).value != t.status
  {
    var s := ToggledStatus(StatusName(t.status));
    ToggleInvolution(t.status);
    map["status" := Str(s)]
  }

  /** The page state the handlers change. */
  class Page {
    var tasks: seq<Task>
    var filters: Filters
    var loading: bool
    var editingTask: Option<Task>
    /** Bumped after each successful write; a change refetches the list. */
    var refreshIndex: nat

    constructor ()
      ensures tasks == [] && filters == DefaultFilters && loading
      ensures editingTask.None? && refreshIndex == 0
    {
      tasks := [];
      filters := DefaultFilters;
      loading := true;
      editingTask := None;
      refreshIndex := 0;
    }

    /** `fetchTasks` starting: the spinner shows while the request is out. */
    method BeginFetch()
      modifies this
      ensures loading
      ensures tasks == old(tasks) && filters == old(filters)
      ensures editingTask == old(editingTask) && refreshIndex == old(refreshIndex)
    {
      loading := true;
    }

    /** `fetchTasks` settling: a response replaces the list, a failure keeps it; loading ends either way. */
    method FinishFetch(response: Option<seq<Task>>)
      modifies this
      ensures !loading
      ensures tasks == response.GetOr(old(tasks))
      ensures filters == old(filters) && editingTask == old(editingTask) && refreshIndex == old(refreshIndex)
    {
      if response.Some? {
        tasks := response.value;
      }
      loading := false;
    }

    /** `handleCreateTask`: a success refreshes, a failure is rethrown to the form. */
    method HandleCreate(succeeded: bool) returns (rethrown: bool)
      modifies this
      ensures rethrown == !succeeded
      ensures refreshIndex == old(refreshIndex) + (if succeeded then 1 else 0)
      ensures tasks == old(tasks) && filters == old(filters) && loading == old(loading)
      ensures editingTask == old(editingTask)
    {
      if succeeded {
        refreshIndex := refreshIndex + 1;
      }
      rethrown := !succeeded;
    }

    /**
     * `handleUpdateTask`: the request targets the task being edited; a
     * success ends editing and refreshes, a failure keeps both and is rethrown.
     */
    method HandleUpdate(succeeded: bool) returns (target: TaskId, rethrown: bool)
      requires editingTask.Some?
      modifies this
      ensures target == old(editingTask).value.id
      ensures rethrown == !succeeded
      ensures succeeded ==> editingTask.None? && refreshIndex == old(refreshIndex) + 1
      ensures !succeeded ==> editingTask == old(editingTask) && refreshIndex == old(refreshIndex)
      ensures tasks == old(tasks) && filters == old(filters) && loading == old(loading)
    {
      target := editingTask.value.id;
      if succeeded {
        editingTask := None;
        refreshIndex := refreshIndex + 1;
      }
      rethrown := !succeeded;
    }

    /** `handleDeleteTask`: no request unless confirmed; a confirmed success refreshes. */
    method HandleDelete(t: Task, confirmed: bool, succeeded: bool) returns (requested: Option<TaskId>)
      modifies this
      ensures requested == if confirmed then Some(t.id) else None
      ensures refreshIndex == old(refreshIndex) + (if confirmed && succeeded then 1 else 0)
      ensures tasks == old(tasks) && filters == old(filters) && loading == old(loading)
      ensures editingTask == old(editingTask)
    {
      if !confirmed {
        return None;
      }
      requested := Some(t.id);
      if succeeded {
        refreshIndex := refreshIndex + 1;
      }
    }

    /** `handleToggleStatus`: sends the toggle body; a success refreshes. */
    method HandleToggle(t: Task, succeeded: bool) returns (body: Body)
      modifies this
      ensures body == ToggleBody(t)
      ensures refreshIndex == old(refreshIndex) + (if succeeded then 1 else 0)
      ensures tasks == old(tasks) && filters == old(filters) && loading == old(loading)
      ensures editingTask == old(editingTask)
    {
      body := ToggleBody(t);
      if succeeded {
        refreshIndex := refreshIndex + 1;
      }
    }

    /** The card's edit button. */
    method StartEditing(t: Task)
      modifies this
      ensures editingTask == Some(t)
      ensures tasks == old(tasks) && filters == old(filters) && loading == old(loading)
      ensures refreshIndex == old(refreshIndex)
    {
      editingTask := Some(t);
    }

    /** The form's cancel button and the empty state's create button. */
    method StopEditing()
      modifies this
      ensures editingTask.None?
      ensures tasks == old(tasks) && filters == old(filters) && loading == old(loading)
      ensures refreshIndex == old(refreshIndex)
    {
      editingTask := None;
    }

    /** The filter panel's `onChange`. */
    method SetFilters(f: Filters)
      modifies this
      ensures filters == f
      ensures tasks == old(tasks) && loading == old(loading)
      ensures editingTask == old(editingTask) && refreshIndex == old(refreshIndex)
    {
      filters := f;
    }
  }
}
