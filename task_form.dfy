/**
 * The task form: its default state, the mapping from a task being edited,
 * single-field edits, and the submit steps with the payload they send.
 */
module TaskForm {
  import opened Wrappers
  import opened Http
  import opened TaskSchema

  /** The controlled inputs: field name to the text in the control. */
  type Form = map<string, string>

  /** `format(date, 'yyyy-MM-dd')`, a parameter like every date formatter. */
  type DayFormatter = int -> string
  /** `Date.prototype.toISOString`. */
  type IsoFormatter = int -> string

  const FormFields: set<string> := {"title", "description", "priority", "status", "dueDate"}

  const DefaultForm: Form := map[
    "title" := "", "description" := "", "priority" := "medium", "status" := "pending", "dueDate" := ""]

  /**
   * The form for editing a task: a missing description becomes `""`, the
   * enumerations their names, and a due date its day; no date gives `""`.
   */
  function FormFrom(t: Task, formatDay: DayFormatter): (r: Form)
    ensures r.Keys == FormFields == DefaultForm.Keys
    ensures r["title"] == t.title && r["description"] == t.description.GetOr("")
    ensures r["priority"] == PriorityName(t.priority) && r["status"] == StatusName(t.status)
    ensures r["dueDate"] == if t.dueDate.Some? then formatDay(t.dueDate.value) else ""
  {
    map[
      "title" := t.title,
      "description" := t.description.GetOr(""),
      "priority" := PriorityName(t.priority),
      "status" := StatusName(t.status),
      "dueDate" := if t.dueDate.Some? then formatDay(t.dueDate.value) else ""]
  }

  /**
   * The submitted body: every form field as it is, except `dueDate`, which is
   * `null` when empty and otherwise the ISO form of the parsed date. `None`
   * is the `RangeError` an invalid date throws before anything is sent.
   */
  function Payload(form: Form, parse: DateParser, toIso: IsoFormatter): (r: Option<Body>)
    ensures r.None? <==> "dueDate" in form && form["dueDate"] != "" && parse(form["dueDate"]).None?
    ensures r.Some? ==> r.value.Keys == form.Keys + {"dueDate"}
    ensures r.Some? ==> forall k :: k in form && k != "dueDate" ==> r.value[k] == Str(form[k])
    ensures r.Some? ==> (r.value["dueDate"] == Null <==> "dueDate" !in form || form["dueDate"] == "")
    ensures r.Some? && r.value["dueDate"] != Null ==> r.value["dueDate"] == Str(toIso(parse(form["dueDate"]).value))
  {
    var fields: Body := map k | k in form :: Str(form[k]);
    if "dueDate" in form && form["dueDate"] != "" then
      match parse(form["dueDate"])
      case None => None
      case Some(d) => Some(fields["dueDate" := Str(toIso(d))])
    else Some(fields["dueDate" := Null])
  }

  /** The form component's state. */
  class FormState {
    var form: Form
    var submitting: bool

    constructor ()
      ensures form == DefaultForm && !submitting
    {
      form := DefaultForm;
      submitting := false;
    }

    /** The effect on `initialData`: the task's form when editing, the defaults otherwise. */
    method SyncInitial(initial: Option<Task>, formatDay: DayFormatter)
      modifies this
      ensures form == if initial.Some? then FormFrom(initial.value, formatDay) else DefaultForm
      ensures submitting == old(submitting)
    {
      form := if initial.Some? then FormFrom(initial.value, formatDay) else DefaultForm;
    }

    /** `handleChange`: the named field takes the new value, the others keep theirs. */
    method HandleChange(name: string, value: string)
      modifies this
      ensures form.Keys == old(form).Keys + {name} && form[name] == value
      ensures forall k :: k in old(form) && k != name ==> form[k] == old(form)[k]
      ensures submitting == old(submitting)
    {
      form := form[name := value];
    }

    /**
     * The first half of `handleSubmit`: submitting is set, then the payload
     * is built; if building it throws, the `finally` clears submitting at once.
     */
    method BeginSubmit(parse: DateParser, toIso: IsoFormatter) returns (payload: Option<Body>)
      modifies this
      ensures payload == Payload(old(form), parse, toIso)
      ensures submitting <==> payload.Some?
      ensures form == old(form)
    {
      submitting := true;
      payload := Payload(form, parse, toIso);
      if payload.None? {
        submitting := false;
      }
    }

    /**
     * The second half: once `onSubmit` settles, the form resets only after a
     * success in create mode, and submitting ends whatever the outcome.
     */
    method FinishSubmit(succeeded: bool, editing: bool)
      modifies this
      ensures !submitting
      ensures form == if succeeded && !editing then DefaultForm else old(form)
    {
      if succeeded && !editing {
        form := DefaultForm;
      }
      submitting := false;
    }
  }
}
