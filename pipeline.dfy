/**
 * Properties of the client and the server together: what the client sends
 * is read back by the server as the client meant it.
 */
module Pipeline {
  import opened Wrappers
  import opened Strings
  import opened Http
  import opened Users
  import opened TaskSchema
  import opened TaskQuery
  import opened TaskStore
  import AuthGate
  import Credentials
  import ApiClient
  import Dashboard
  import TaskForm

  /** Leaving out the empty filters, as the dashboard does, builds the same query as sending them. */
  lemma EmptyFiltersChangeNothing(owner: UserId, filters: Dashboard.Filters, parse: DateParser)
    ensures BuildQuery(owner, ParamsOf(Dashboard.NonEmptyEntries(filters)), parse)
         == BuildQuery(owner, ParamsOf(filters), parse)
  {
    var kept := Dashboard.NonEmptyEntries(filters);
    assert forall k :: k in filters && k !in kept ==> filters[k] == "";
  }

  /** The dashboard's first listing: every task of the owner, newest first. */
  lemma DefaultListing(owner: UserId, parse: DateParser)
    ensures BuildQuery(owner, ParamsOf(Dashboard.NonEmptyEntries(Dashboard.DefaultFilters)), parse)
         == Query(owner, None, None, None, None, None, ByCreatedAt, false)
  {
    Dashboard.DefaultParams();
  }

  /**
   * `new Date(d.toISOString())` is `d` for every instant `d` the parser can
   * produce: its ISO form is never empty and parses back to it. Only such
   * instants are asked for, since a JavaScript `Date` holds a bounded range.
   */
  ghost predicate IsoRoundTrips(parse: DateParser, toIso: TaskForm.IsoFormatter) {
    forall s :: parse(s).Some? ==> toIso(parse(s).value) != "" && parse(toIso(parse(s).value)) == parse(s)
  }

  /** An update body holding every field casts, field by field, to a patch that sets all of them. */
  lemma CastEveryField(u: Body, parse: DateParser, title: string, description: Option<string>,
                       status: Status, priority: Priority, dueDate: Option<int>)
    requires u.Keys == TaskForm.FormFields
    requires CastTitle(u["title"]) == Success(title)
    requires CastDescription(u["description"]) == Success(description)
    requires CastStatus(u["status"]) == Success(status)
    requires CastPriority(u["priority"]) == Success(priority)
    requires CastDueDate(u["dueDate"], parse) == Success(dueDate)
    ensures CastUpdates(u, parse) == Success(Patch(Some(title), Some(description), Some(status), Some(priority), Some(dueDate)))
  {
  }

  /** The body the edit form of a task submits, field by field. */
  function EditBody(t: Task, formatDay: TaskForm.DayFormatter, parse: DateParser, toIso: TaskForm.IsoFormatter): Body {
    map[
      "title" := Str(t.title),
      "description" := Str(t.description.GetOr("")),
      "priority" := Str(PriorityName(t.priority)),
      "status" := Str(StatusName(t.status)),
      "dueDate" := if Day(t, formatDay) != "" && parse(Day(t, formatDay)).Some?
                   then Str(toIso(parse(Day(t, formatDay)).value)) else Null]
  }

  /** The text of the edit form's date control. */
  function Day(t: Task, formatDay: TaskForm.DayFormatter): string {
    if t.dueDate.Some? then formatDay(t.dueDate.value) else ""
  }

  /** A body holding only allow-listed keys passes the sanitizer unchanged. */
  lemma SanitizedKeepsAllowed(b: Body)
    requires b.Keys <= AllowedFields
    ensures Sanitized(b) == b
  {
  }

  lemma EditPayload(t: Task, formatDay: TaskForm.DayFormatter, parse: DateParser, toIso: TaskForm.IsoFormatter)
    requires TaskForm.Payload(TaskForm.FormFrom(t, formatDay), parse, toIso).Some?
    ensures TaskForm.Payload(TaskForm.FormFrom(t, formatDay), parse, toIso).value == EditBody(t, formatDay, parse, toIso)
  {
    var form := TaskForm.FormFrom(t, formatDay);
    var body := TaskForm.Payload(form, parse, toIso).value;
    var expected := EditBody(t, formatDay, parse, toIso);
    assert body.Keys == expected.Keys;
    forall k | k in body
      ensures body[k] == expected[k]
    {
      if k == "title" {
      } else if k == "description" {
      } else if k == "priority" {
      } else if k == "status" {
      }
    }
  }

  /** The date the form submits, once cast on the server, is the date the form's text parses to. */
  lemma CastDueDateOfIso(day: string, parse: DateParser, toIso: TaskForm.IsoFormatter)
    requires IsoRoundTrips(parse, toIso)
    ensures CastDueDate(if day != "" && parse(day).Some? then Str(toIso(parse(day).value)) else Null, parse)
         == Success(if day != "" then parse(day) else None)
  {
    if day != "" && parse(day).Some? {
      assert parse(toIso(parse(day).value)) == parse(day);
    }
  }

  /** The edit body of a valid task casts to a patch that sets every field to what the form showed. */
  lemma EditBodyCasts(t: Task, formatDay: TaskForm.DayFormatter, parse: DateParser, toIso: TaskForm.IsoFormatter)
    requires Valid(t)
    requires IsoRoundTrips(parse, toIso)
    ensures CastUpdates(EditBody(t, formatDay, parse, toIso), parse)
         == Success(Patch(Some(t.title), Some(Some(t.description.GetOr(""))), Some(t.status), Some(t.priority),
                          Some(if Day(t, formatDay) != "" then parse(Day(t, formatDay)) else None)))
  {
    var u := EditBody(t, formatDay, parse, toIso);
    CastTitleOfValid(t.title);
    CastDescriptionOfValid(t.description);
    CastStatusOfName(t.status);
    CastPriorityOfName(t.priority);
    var day := Day(t, formatDay);
    CastDueDateOfIso(day, parse, toIso);
    assert u["title"] == Str(t.title) && u["description"] == Str(t.description.GetOr(""));
    assert u["status"] == Str(StatusName(t.status)) && u["priority"] == Str(PriorityName(t.priority));
    CastEveryField(u, parse, t.title, Some(t.description.GetOr("")), t.status, t.priority,
                   if day != "" then parse(day) else None);
  }

  /**
   * Saving the edit form of a task untouched keeps its title, status and
   * priority, turns a missing description into `""`, and keeps the day the
   * form showed as the due date.
   */
  lemma UntouchedEditKeepsTask(t: Task, formatDay: TaskForm.DayFormatter, parse: DateParser,
                               toIso: TaskForm.IsoFormatter, now: int)
    requires Valid(t)
    requires IsoRoundTrips(parse, toIso)
    requires TaskForm.Payload(TaskForm.FormFrom(t, formatDay), parse, toIso).Some?
    ensures var body := TaskForm.Payload(TaskForm.FormFrom(t, formatDay), parse, toIso).value;
      var p := CastUpdates(Sanitized(body), parse);
      p.Success?
      && var u := ApplyPatch(t, p.value, now);
      u.title == t.title && u.status == t.status && u.priority == t.priority
      && u.description == Some(t.description.GetOr(""))
      && u.dueDate == (if Day(t, formatDay) != "" then parse(Day(t, formatDay)) else None)
  {
    EditPayload(t, formatDay, parse, toIso);
    SanitizedKeepsAllowed(EditBody(t, formatDay, parse, toIso));
    EditBodyCasts(t, formatDay, parse, toIso);
  }

  /** The body the default form submits once a title is typed in. */
  function CreateBody(title: string): Body {
    map["title" := Str(title), "description" := Str(""), "priority" := Str("medium"),
        "status" := Str("pending"), "dueDate" := Null]
  }

  lemma DefaultFormPayload(title: string, parse: DateParser, toIso: TaskForm.IsoFormatter)
    ensures TaskForm.Payload(TaskForm.DefaultForm["title" := title], parse, toIso) == Some(CreateBody(title))
  {
    var form := TaskForm.DefaultForm["title" := title];
    assert form["dueDate"] == "";
    var body := TaskForm.Payload(form, parse, toIso).value;
    var expected := CreateBody(title);
    assert body.Keys == expected.Keys;
    forall k | k in body
      ensures body[k] == expected[k]
    {
      if k != "dueDate" {
        assert body[k] == Str(form[k]);
      }
    }
    assert body == expected;
  }

  /** A create body whose fields all cast creates the task built from the cast values. */
  lemma CreateWithEveryField(id: TaskId, owner: UserId, body: Body, parse: DateParser, now: int,
                             title: string, description: Option<string>, status: Status, priority: Priority,
                             dueDate: Option<int>)
    requires body.Keys == TaskForm.FormFields
    requires CastTitle(body["title"]) == Success(title)
    requires CastDescription(body["description"]) == Success(description)
    requires CastStatus(body["status"]) == Success(status)
    requires CastPriority(body["priority"]) == Success(priority)
    requires CastDueDate(body["dueDate"], parse) == Success(dueDate)
    ensures NewTask(id, owner, body, parse, now)
         == Success(Task(id, owner, title, description, status, priority, dueDate, now, now))
  {
  }

  lemma CreateBodyCreates(title: string, id: TaskId, owner: UserId, parse: DateParser, now: int)
    requires 0 < |Trim(title)| && JsLength(Trim(title)) <= TitleMaxLength
    ensures NewTask(id, owner, CreateBody(title), parse, now)
         == Success(Task(id, owner, Trim(title), Some(""), Pending, Medium, None, now, now))
  {
    var body := CreateBody(title);
    assert body["title"] == Str(title) && body["description"] == Str("");
    assert body["status"] == Str(StatusName(Pending)) && body["priority"] == Str(PriorityName(Medium));
    assert body["dueDate"] == Null;
    CastDescriptionOfValid(Some(""));
    CastStatusOfName(Pending);
    CastPriorityOfName(Medium);
    CreateWithEveryField(id, owner, body, parse, now, Trim(title), Some(""), Pending, Medium, None);
  }

  /**
   * A create from the default form with a title typed in stores that title,
   * trimmed, with the defaults: pending, medium, an empty description and no date.
   */
  lemma CreateFromDefaultForm(title: string, id: TaskId, owner: UserId, parse: DateParser,
                              toIso: TaskForm.IsoFormatter, now: int)
    requires 0 < |Trim(title)| && JsLength(Trim(title)) <= TitleMaxLength
    ensures var body := TaskForm.Payload(TaskForm.DefaultForm["title" := title], parse, toIso);
      body.Some? && Truthy(Field(body.value, "title"))
      && NewTask(id, owner, body.value, parse, now)
         == Success(Task(id, owner, Trim(title), Some(""), Pending, Medium, None, now, now))
  {
    DefaultFormPayload(title, parse, toIso);
    TrimIsTrimmed(title);
    CreateBodyCreates(title, id, owner, parse, now);
  }

  /** The dashboard's toggle, sent as an update, changes the status to the other one and nothing else. */
  lemma ToggleUpdatesOnlyStatus(t: Task, parse: DateParser, now: int)
    ensures var p := CastUpdates(Sanitized(Dashboard.ToggleBody(t)), parse);
      p.Success?
      && ApplyPatch(t, p.value, now) == t.(status := if t.status == Pending then Completed else Pending, updatedAt := now)
  {
    var body := Dashboard.ToggleBody(t);
    var other := if t.status == Pending then Completed else Pending;
    assert body["status"] == Str(StatusName(other)) by {
      match t.status
      case Pending =>
      case Completed =>
    }
    UpdateStatusOnly(t, body, parse, now, other);
  }

  /**
   * After a login, the client's next request carries a header the gate
   * accepts for the same user, provided the verifier accepts the tokens the
   * issuer signs and tokens contain no spaces.
   */
  lemma LoginThenAuthenticatedRequest(users: seq<UserRecord>, body: Body, matches: Credentials.PasswordCheck,
                                      issue: Credentials.Issuer, verify: AuthGate.Verifier)
    requires IdsArePositions(users)
    requires Credentials.Login(users, body, matches, issue).Success?
    requires forall id: UserId :: verify(issue(id)) == Some(id)
    requires forall id: UserId :: issue(id) != "" && ' ' !in issue(id)
    ensures var response := Credentials.Login(users, body, matches, issue).value;
      response.user.id < |users|
      && AuthGate.Authenticate(Some(ApiClient.AuthorizationValue(response.token)), verify, users)
         == Success(WithoutPassword(users[response.user.id]))
  {
    var response := Credentials.Login(users, body, matches, issue).value;
    ApiClient.HeaderRoundTrip(response.token);
  }

  /** A task deleted by its owner is gone: a later get by the same owner is a 404. */
  method DeleteThenGet(store: Store, owner: UserId, id: TaskId) returns (deleted: Result<string, Error>, fetched: Result<Task, Error>)
    requires store.Valid() && Owned(store.tasks, owner, id)
    modifies store
    ensures deleted == Success(DeletedMessage) && fetched == Failure(NotFound)
  {
    deleted := store.Delete(owner, id);
    fetched := store.GetById(owner, id);
  }
}
