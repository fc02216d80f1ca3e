/**
 * The task schema: field constraints, defaults and timestamps, written as a
 * validity predicate, casts that trim and check one submitted value each,
 * a default-filler for creation and a patch for the update validators.
 */
module TaskSchema {
  import opened Wrappers
  import opened Strings
  import opened Http
  import opened Users

  type TaskId = nat

  /** Date parsing (`new Date(s)`) is a parameter; `None` is an invalid date. */
  type DateParser = string -> Option<int>

  const TitleMaxLength := 140
  const DescriptionMaxLength := 1000

  /** The document fields a request may set; the owner and timestamps are the server's. */
  const TaskFields: set<string> := {"title", "description", "status", "priority", "dueDate"}

  datatype Status = Pending | Completed
  datatype Priority = Low | Medium | High

  function StatusName(s: Status): string {
    match s
    case Pending => "pending"
    case Completed => "completed"
  }

  function PriorityName(p: Priority): string {
    match p
    case Low => "low"
    case Medium => "medium"
    case High => "high"
  }

  /** The `enum` check on status: exactly the two names are accepted. */
  function ParseStatus(s: string): (r: Option<Status>)
    ensures r.Some? ==> StatusName(r.value) == s
    ensures r.None? ==> forall x :: StatusName(x) != s
  {
    if s == "pending" then Some(Pending)
    else if s == "completed" then Some(Completed)
    else None
  }

  /** The `enum` check on priority: exactly the three names are accepted. */
  function ParsePriority(s: string): (r: Option<Priority>)
    ensures r.Some? ==> PriorityName(r.value) == s
    ensures r.None? ==> forall x :: PriorityName(x) != s
  {
    if s == "low" then Some(Low)
    else if s == "medium" then Some(Medium)
    else if s == "high" then Some(High)
    else None
  }

  /** A stored task document; `createdAt` and `updatedAt` are the schema's timestamps. */
  datatype Task = Task(
    id: TaskId,
    owner: UserId,
    title: string,
    description: Option<string>,
    status: Status,
    priority: Priority,
    dueDate: Option<int>,
    createdAt: int,
    updatedAt: int)

  predicate ValidTitle(title: string) {
    IsTrimmed(title) && 0 < |title| && JsLength(title) <= TitleMaxLength
  }

  predicate ValidDescription(d: Option<string>) {
    d.Some? ==> IsTrimmed(d.value) && JsLength(d.value) <= DescriptionMaxLength
  }

  /** What every stored task satisfies; status and priority are in their enumerations by type. */
  predicate Valid(t: Task)
    ensures Valid(t) ==> 0 < |t.title| <= TitleMaxLength && IsTrimmed(t.title)
    ensures Valid(t) && t.description.Some? ==> |t.description.value| <= DescriptionMaxLength
  {
    ValidTitle(t.title) && ValidDescription(t.description)
  }

  /**
   * `title`: required, trimmed, and at most 140 long after trimming, the
   * length being JavaScript's count of UTF-16 code units.
   */
  function CastTitle(v: Value): (r: Result<string, Error>)
    ensures r.Success? <==> v.Str? && 0 < |Trim(v.s)| && JsLength(Trim(v.s)) <= TitleMaxLength
    ensures r.Success? ==> r.value == Trim(v.s) && ValidTitle(r.value)
    ensures r.Failure? ==> r.error == SchemaViolation("title")
  {
    match v
    case Null => Failure(SchemaViolation("title"))
    case Str(s) =>
      var t := Trim(s);
      TrimIsTrimmed(s);
      if 0 < |t| && JsLength(t) <= TitleMaxLength then Success(t) else Failure(SchemaViolation("title"))
  }

  /** `description`: optional, trimmed, at most 1000 UTF-16 code units; `null` leaves it unset. */
  function CastDescription(v: Value): (r: Result<Option<string>, Error>)
    ensures r.Success? <==> v.Null? || JsLength(Trim(v.s)) <= DescriptionMaxLength
    ensures r.Success? ==> ValidDescription(r.value)
    ensures r.Success? ==> r.value == if v.Null? then None else Some(Trim(v.s))
    ensures r.Failure? ==> r.error == SchemaViolation("description")
  {
    match v
    case Null => Success(None)
    case Str(s) =>
      var t := Trim(s);
      TrimIsTrimmed(s);
      if JsLength(t) <= DescriptionMaxLength then Success(Some(t)) else Failure(SchemaViolation("description"))
  }

  function CastStatus(v: Value): (r: Result<Status, Error>)
    ensures r.Success? <==> v.Str? && v.s in {"pending", "completed"}
    ensures r.Success? ==> StatusName(r.value) == v.s
    ensures r.Failure? ==> r.error == SchemaViolation("status")
  {
    if v.Str? && ParseStatus(v.s).Some? then Success(ParseStatus(v.s).value)
    else Failure(SchemaViolation("status"))
  }

  function CastPriority(v: Value): (r: Result<Priority, Error>)
    ensures r.Success? <==> v.Str? && v.s in {"low", "medium", "high"}
    ensures r.Success? ==> PriorityName(r.value) == v.s
    ensures r.Failure? ==> r.error == SchemaViolation("priority")
  {
    if v.Str? && ParsePriority(v.s).Some? then Success(ParsePriority(v.s).value)
    else Failure(SchemaViolation("priority"))
  }

  /** A stored title passes the title cast unchanged. */
  lemma CastTitleOfValid(title: string)
    requires ValidTitle(title)
    ensures CastTitle(Str(title)) == Success(title)
  {
    TrimOfTrimmed(title);
  }

  /** A stored description, sent back as text (`""` when unset), passes the description cast. */
  lemma CastDescriptionOfValid(d: Option<string>)
    requires ValidDescription(d)
    ensures CastDescription(Str(d.GetOr(""))) == Success(Some(d.GetOr("")))
  {
    TrimOfTrimmed(d.GetOr(""));
  }

  /** The status cast inverts the status name. */
  lemma CastStatusOfName(s: Status)
    ensures CastStatus(Str(StatusName(s))) == Success(s)
  {
    match s
    case Pending =>
    case Completed =>
  }

  /** The priority cast inverts the priority name. */
  lemma CastPriorityOfName(p: Priority)
    ensures CastPriority(Str(PriorityName(p))) == Success(p)
  {
    match p
    case Low =>
    case Medium =>
    case High =>
  }

  /**
   * `dueDate`: a truthy value becomes `new Date(value)`, which the Date cast
   * rejects when invalid; a falsy value (`""`, `null`) leaves no date.
   */
  function CastDueDate(v: Value, parse: DateParser): (r: Result<Option<int>, Error>)
    ensures r.Success? <==> !(v.Str? && v.s != "") || parse(v.s).Some?
    ensures r.Success? ==> r.value == if v.Str? && v.s != "" then parse(v.s) else None
    ensures r.Failure? ==> r.error == SchemaViolation("dueDate")
  {
    if v.Str? && v.s != "" then
      match parse(v.s)
      case Some(t) => Success(Some(t))
      case None => Failure(SchemaViolation("dueDate"))
    else Success(None)
  }

  /**
   * `Task.create` on the fields of a create request: every field is cast,
   * omitted status and priority take their defaults, and both timestamps are `now`.
   */
  function NewTask(id: TaskId, owner: UserId, body: Body, parse: DateParser, now: int): (r: Result<Task, Error>)
    ensures r.Success? <==>
      CastTitle(Field(body, "title").GetOr(Null)).Success?
      && CastDescription(Field(body, "description").GetOr(Null)).Success?
      && ("status" in body ==> CastStatus(body["status"]).Success?)
      && ("priority" in body ==> CastPriority(body["priority"]).Success?)
      && CastDueDate(Field(body, "dueDate").GetOr(Null), parse).Success?
    ensures r.Failure? ==> r.error.SchemaViolation? && r.error.path in TaskFields
    ensures r.Success? ==> Valid(r.value)
    ensures r.Success? ==> r.value.id == id && r.value.owner == owner
    ensures r.Success? ==> r.value.createdAt == now && r.value.updatedAt == now
    ensures r.Success? ==> Truthy(Field(body, "title")) && r.value.title == Trim(body["title"].s)
    ensures r.Success? ==> r.value.description == CastDescription(Field(body, "description").GetOr(Null)).value
    ensures r.Success? && "status" !in body ==> r.value.status == Pending
    ensures r.Success? && "status" in body ==> r.value.status == CastStatus(body["status"]).value
    ensures r.Success? && "priority" !in body ==> r.value.priority == Medium
    ensures r.Success? && "priority" in body ==> r.value.priority == CastPriority(body["priority"]).value
    ensures r.Success? && !Truthy(Field(body, "dueDate")) ==> r.value.dueDate == None
    ensures r.Success? && Truthy(Field(body, "dueDate")) ==> r.value.dueDate == parse(body["dueDate"].s)
    ensures "title" in body && body["title"].Str? && IsBlank(body["title"].s) ==> r.Failure?
  {
    var title :- CastTitle(Field(body, "title").GetOr(Null));
    var description :- CastDescription(Field(body, "description").GetOr(Null));
    var status :- if "status" in body then CastStatus(body["status"]) else Success(Pending);
    var priority :- if "priority" in body then CastPriority(body["priority"]) else Success(Medium);
    var dueDate :- CastDueDate(Field(body, "dueDate").GetOr(Null), parse);
    assert "title" in body && body["title"].Str? && IsBlank(body["title"].s) ==> false by {
      if "title" in body && body["title"].Str? {
        TrimEmptyIffBlank(body["title"].s);
      }
    }
    Success(Task(id, owner, title, description, status, priority, dueDate, now, now))
  }

  /** A body with only a valid title creates a pending, medium-priority task with no description or date. */
  lemma CreateWithTitleOnly(id: TaskId, owner: UserId, title: string, parse: DateParser, now: int)
    requires ValidTitle(title)
    ensures NewTask(id, owner, map["title" := Str(title)], parse, now)
         == Success(Task(id, owner, title, None, Pending, Medium, None, now, now))
  {
    var body := map["title" := Str(title)];
    CastTitleOfValid(title);
    assert "description" !in body && "status" !in body && "priority" !in body && "dueDate" !in body;
    assert Field(body, "title").GetOr(Null) == Str(title);
    assert Field(body, "description").GetOr(Null) == Null && Field(body, "dueDate").GetOr(Null) == Null;
  }

  /** The `$set` of an update after casting: `None` leaves a field as it was. */
  datatype Patch = Patch(
    title: Option<string>,
    description: Option<Option<string>>,
    status: Option<Status>,
    priority: Option<Priority>,
    dueDate: Option<Option<int>>)

  const EmptyPatch := Patch(None, None, None, None, None)

  predicate ValidPatch(p: Patch) {
    (p.title.Some? ==> ValidTitle(p.title.value))
    && (p.description.Some? ==> ValidDescription(p.description.value))
  }

  /**
   * The update validators (`runValidators`) over a sanitized `$set`: each
   * present key is cast with the same constraints as on creation, no
   * defaults apply, and a falsy `dueDate` clears the date.
   */
  function CastUpdates(updates: Body, parse: DateParser): (r: Result<Patch, Error>)
    ensures r.Success? <==>
      ("title" in updates ==> CastTitle(updates["title"]).Success?)
      && ("description" in updates ==> CastDescription(updates["description"]).Success?)
      && ("status" in updates ==> CastStatus(updates["status"]).Success?)
      && ("priority" in updates ==> CastPriority(updates["priority"]).Success?)
      && ("dueDate" in updates ==> CastDueDate(updates["dueDate"], parse).Success?)
    ensures r.Failure? ==> r.error.SchemaViolation? && r.error.path in TaskFields
    ensures r.Success? ==> ValidPatch(r.value)
    ensures r.Success? ==> (r.value.title.Some? <==> "title" in updates)
    ensures r.Success? ==> (r.value.description.Some? <==> "description" in updates)
    ensures r.Success? ==> (r.value.status.Some? <==> "status" in updates)
    ensures r.Success? ==> (r.value.priority.Some? <==> "priority" in updates)
    ensures r.Success? ==> (r.value.dueDate.Some? <==> "dueDate" in updates)
    ensures r.Success? && "status" in updates ==> updates["status"].Str? && r.value.status.Some? && StatusName(r.value.status.value) == updates["status"].s
    ensures r.Success? && "priority" in updates ==> updates["priority"].Str? && r.value.priority.Some? && PriorityName(r.value.priority.value) == updates["priority"].s
    ensures r.Success? && "title" in updates ==> r.value.title == Some(CastTitle(updates["title"]).value)
    ensures r.Success? && "description" in updates ==>
      r.value.description == Some(CastDescription(updates["description"]).value)
    ensures r.Success? && "dueDate" in updates ==> r.value.dueDate == Some(CastDueDate(updates["dueDate"], parse).value)
    ensures r.Success? && "dueDate" in updates && !Truthy(Some(updates["dueDate"])) ==> r.value.dueDate == Some(None)
  {
    var title :- CastKey(updates, "title", CastTitle);
    var description :- CastKey(updates, "description", CastDescription);
    var status :- CastKey(updates, "status", CastStatus);
    var priority :- CastKey(updates, "priority", CastPriority);
    var dueDate :- CastKey(updates, "dueDate", v => CastDueDate(v, parse));
    Success(Patch(title, description, status, priority, dueDate))
  }

  /** One key of a `$set`: an absent key leaves the field alone, a present one must cast. */
  function CastKey<T>(updates: Body, key: string, cast: Value -> Result<T, Error>): (r: Result<Option<T>, Error>)
    ensures r.Success? <==> (key in updates ==> cast(updates[key]).Success?)
    ensures r.Success? ==> r.value == if key in updates then Some(cast(updates[key]).value) else None
    ensures r.Failure? ==> key in updates && r.error == cast(updates[key]).error
  {
    if key in updates then cast(updates[key]).MapSome() else Success(None)
  }

  /** `$set` applied to a document; the timestamps plugin refreshes `updatedAt`. */
  function ApplyPatch(t: Task, p: Patch, now: int): (r: Task)
    ensures r.id == t.id && r.owner == t.owner && r.createdAt == t.createdAt
    ensures r.updatedAt == now
    ensures r.title == p.title.GetOr(t.title)
    ensures r.description == p.description.GetOr(t.description)
    ensures r.status == p.status.GetOr(t.status)
    ensures r.priority == p.priority.GetOr(t.priority)
    ensures r.dueDate == p.dueDate.GetOr(t.dueDate)
    ensures Valid(t) && ValidPatch(p) ==> Valid(r)
  {
    t.(title := p.title.GetOr(t.title),
       description := p.description.GetOr(t.description),
       status := p.status.GetOr(t.status),
       priority := p.priority.GetOr(t.priority),
       dueDate := p.dueDate.GetOr(t.dueDate),
       updatedAt := now)
  }
}
