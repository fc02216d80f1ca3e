/**
 * The task controller over an in-memory task collection: create, the
 * owner-scoped get, the allow-listed partial update, the owner-scoped delete
 * and the list query. Every handler runs behind the authorization gate, so
 * each receives the authenticated owner.
 */
module TaskStore {
  import opened Wrappers
  import opened Http
  import opened Users
  import opened TaskSchema
  import opened TaskQuery

  const TitleRequired := Http(400, "Task title is required")
  const NotFound := Http(404, "Task not found")
  const DeletedMessage := "Task deleted"

  /** The fields an update may set. */
  const AllowedFields: set<string> := {"title", "description", "status", "priority", "dueDate"}

  /** The sanitized update: exactly the allow-listed keys of the body, with their values. */
  function Sanitized(updates: Body): (r: Body)
    ensures r.Keys == updates.Keys * AllowedFields
    ensures forall k :: k in r ==> r[k] == updates[k]
  {
    map k | k in updates && k in AllowedFields :: updates[k]
  }

  /** The `forEach` over the submitted keys that copies the allow-listed ones. */
  method Sanitize(updates: Body) returns (sanitized: Body)
    ensures sanitized == Sanitized(updates)
  {
    sanitized := map[];
    var keys := updates.Keys;
    while keys != {}
      invariant keys <= updates.Keys
      invariant sanitized.Keys == (updates.Keys - keys) * AllowedFields
      invariant forall k :: k in sanitized ==> sanitized[k] == updates[k]
      decreases keys
    {
      var key :| key in keys;
      if key in AllowedFields {
        sanitized := sanitized[key := updates[key]];
      }
      keys := keys - {key};
    }
  }

  /** The task `id` exists and belongs to `owner`: the `{ _id, user }` filter matches. */
  predicate Owned(tasks: map<TaskId, Task>, owner: UserId, id: TaskId) {
    id in tasks && tasks[id].owner == owner
  }

  /** Keys outside the allow-list make no difference to what an update sets. */
  lemma ExtraKeysIgnored(updates: Body, extra: Body)
    requires extra.Keys !! AllowedFields
    ensures Sanitized(updates + extra) == Sanitized(updates)
  {
    assert Sanitized(updates + extra).Keys == Sanitized(updates).Keys;
  }

  /** An update whose body holds no allow-listed key sets nothing but the timestamp. */
  lemma UpdateWithoutAllowedKeys(t: Task, updates: Body, parse: DateParser, now: int)
    requires updates.Keys !! AllowedFields
    ensures CastUpdates(Sanitized(updates), parse) == Success(EmptyPatch)
    ensures ApplyPatch(t, EmptyPatch, now) == t.(updatedAt := now)
  {
    assert Sanitized(updates).Keys == {};
  }

  /** An update of the status alone changes the status and the timestamp, nothing else. */
  lemma UpdateStatusOnly(t: Task, updates: Body, parse: DateParser, now: int, s: Status)
    requires updates.Keys * AllowedFields == {"status"}
    requires updates["status"] == Str(StatusName(s))
    ensures CastUpdates(Sanitized(updates), parse).Success?
    ensures ApplyPatch(t, CastUpdates(Sanitized(updates), parse).value, now) == t.(status := s, updatedAt := now)
  {
    var u := Sanitized(updates);
    assert "status" in u && u.Keys == {"status"};
    assert "title" !in u && "description" !in u && "priority" !in u && "dueDate" !in u;
    var p := CastUpdates(u, parse);
    assert p.Success?;
    assert p.value.status == Some(s) by {
      match s
      case Pending =>
      case Completed =>
    }
  }

  /** An update of the title alone stores the cast (trimmed) title and the timestamp, nothing else. */
  lemma UpdateTitleOnly(t: Task, updates: Body, parse: DateParser, now: int)
    requires updates.Keys * AllowedFields == {"title"}
    requires CastTitle(updates["title"]).Success?
    ensures CastUpdates(Sanitized(updates), parse).Success?
    ensures ApplyPatch(t, CastUpdates(Sanitized(updates), parse).value, now)
         == t.(title := CastTitle(updates["title"]).value, updatedAt := now)
  {
    var u := Sanitized(updates);
    assert "title" in u && u.Keys == {"title"};
    assert "description" !in u && "status" !in u && "priority" !in u && "dueDate" !in u;
  }

  /** The facts about a created task that the store's invariant needs. */
  lemma NewTaskFits(id: TaskId, owner: UserId, body: Body, parse: DateParser, now: int)
    requires NewTask(id, owner, body, parse, now).Success?
    ensures var t := NewTask(id, owner, body, parse, now).value;
      t.id == id && t.owner == owner && TaskSchema.Valid(t)
  {
  }

  /** Each task is filed under its own id, below a bound, and satisfies the schema. */
  predicate WellFiled(tasks: map<TaskId, Task>, bound: TaskId) {
    forall id :: id in tasks ==> tasks[id].id == id && id < bound && TaskSchema.Valid(tasks[id])
  }

  /** Filing a valid task under the bound keeps the map well filed, with the bound one higher. */
  lemma ValidAfterInsert(tasks: map<TaskId, Task>, bound: TaskId, t: Task)
    requires WellFiled(tasks, bound)
    requires t.id == bound && TaskSchema.Valid(t)
    ensures bound !in tasks
    ensures WellFiled(tasks[bound := t], bound + 1)
  {
  }

  /** The task collection, with the identifier the next created task receives. */
  class Store {
    var tasks: map<TaskId, Task>
    var nextId: TaskId

    /** Each task is filed under its own id, below `nextId`, and satisfies the schema. */
    ghost predicate Valid()
      reads this
    {
      WellFiled(tasks, nextId)
    }

    constructor ()
      ensures Valid() && tasks == map[] && nextId == 0
    {
      tasks := map[];
      nextId := 0;
    }

    /**
     * `createTask`: a falsy title fails with 400 before the schema runs;
     * otherwise the schema decides, and on success exactly one task, owned by
     * the caller, is added under a fresh id.
     */
    method Create(owner: UserId, body: Body, parse: DateParser, now: int) returns (r: Result<Task, Error>)
      requires Valid()
      modifies this
      ensures Valid()
      ensures !Truthy(Field(body, "title")) ==> r == Failure(TitleRequired)
      ensures Truthy(Field(body, "title")) ==> r == NewTask(old(nextId), owner, body, parse, now)
      ensures r.Success? ==> r.value.id == old(nextId) && old(nextId) !in old(tasks) && r.value.owner == owner
      ensures r.Success? ==> tasks == old(tasks)[old(nextId) := r.value] && nextId == old(nextId) + 1
      ensures r.Failure? ==> tasks == old(tasks) && nextId == old(nextId)
    {
      if !Truthy(Field(body, "title")) {
        return Failure(TitleRequired);
      }
      r := NewTask(nextId, owner, body, parse, now);
      if r.Success? {
        NewTaskFits(nextId, owner, body, parse, now);
        File(r.value);
      }
    }

    /** The insertion itself: a valid task carrying the next id is filed under it. */
    method File(t: Task)
      requires Valid() && t.id == nextId && TaskSchema.Valid(t)
      modifies this
      ensures Valid()
      ensures old(nextId) !in old(tasks)
      ensures tasks == old(tasks)[old(nextId) := t] && nextId == old(nextId) + 1
    {
      ValidAfterInsert(tasks, nextId, t);
      tasks := tasks[nextId := t];
      nextId := nextId + 1;
    }

    /** `getTaskById`: found only when both the id and the owner match, 404 otherwise. */
    method GetById(owner: UserId, id: TaskId) returns (r: Result<Task, Error>)
      ensures r.Success? <==> Owned(tasks, owner, id)
      ensures r.Success? ==> r.value == tasks[id]
      ensures r.Failure? ==> r.error == NotFound
    {
      if id in tasks && tasks[id].owner == owner {
        r := Success(tasks[id]);
      } else {
        r := Failure(NotFound);
      }
    }

    /**
     * `updateTask`: the body is sanitized to the allow-listed keys, cast by
     * the update validators (a failure leaves every task as it was), and set
     * on the task only when both the id and the owner match.
     */
    method Update(owner: UserId, id: TaskId, updates: Body, parse: DateParser, now: int) returns (r: Result<Task, Error>)
      requires Valid()
      modifies this
      ensures Valid() && nextId == old(nextId)
      ensures CastUpdates(Sanitized(updates), parse).Failure? ==>
        r == Failure(CastUpdates(Sanitized(updates), parse).error) && tasks == old(tasks)
      ensures CastUpdates(Sanitized(updates), parse).Success? && !Owned(old(tasks), owner, id) ==>
        r == Failure(NotFound) && tasks == old(tasks)
      ensures CastUpdates(Sanitized(updates), parse).Success? && Owned(old(tasks), owner, id) ==>
        r == Success(ApplyPatch(old(tasks)[id], CastUpdates(Sanitized(updates), parse).value, now))
        && tasks == old(tasks)[id := r.value]
    {
      var sanitized := Sanitize(updates);
      var patch := CastUpdates(sanitized, parse);
      if patch.Failure? {
        return Failure(patch.error);
      }
      if !(id in tasks && tasks[id].owner == owner) {
        return Failure(NotFound);
      }
      var updated := ApplyPatch(tasks[id], patch.value, now);
      tasks := tasks[id := updated];
      r := Success(updated);
    }

    /** `deleteTask`: removes exactly the task when both the id and the owner match, 404 otherwise. */
    method Delete(owner: UserId, id: TaskId) returns (r: Result<string, Error>)
      requires Valid()
      modifies this
      ensures Valid() && nextId == old(nextId)
      ensures Owned(old(tasks), owner, id) ==> r == Success(DeletedMessage) && tasks == old(tasks) - {id}
      ensures !Owned(old(tasks), owner, id) ==> r == Failure(NotFound) && tasks == old(tasks)
    {
      if id in tasks && tasks[id].owner == owner {
        tasks := tasks - {id};
        r := Success(DeletedMessage);
      } else {
        r := Failure(NotFound);
      }
    }

    /**
     * `getTasks`: every stored task the query selects, each once, in the
     * requested order; every task listed belongs to the requesting owner.
     */
    method List(owner: UserId, params: ListParams, parse: DateParser) returns (r: seq<Task>)
      requires Valid()
      ensures forall t :: t in r <==> t.id in tasks && tasks[t.id] == t && Selected(owner, params, parse, t)
      ensures forall t :: t in r ==> t.owner == owner
      ensures Sorted(BuildQuery(owner, params, parse), r)
      ensures forall i, j :: 0 <= i < j < |r| ==> r[i].id != r[j].id
    {
      var q := BuildQuery(owner, params, parse);
      r := [];
      var remaining := tasks.Keys;
      while remaining != {}
        invariant remaining <= tasks.Keys
        invariant Sorted(q, r)
        invariant forall t :: t in r <==> t.id in tasks && t.id !in remaining && tasks[t.id] == t && Matches(q, t)
        decreases remaining
      {
        var id :| id in remaining;
        var t := tasks[id];
        if Matches(q, t) {
          InsertSorted(q, r, t);
          r := Insert(q, r, t);
        }
        remaining := remaining - {id};
      }
      forall i, j | 0 <= i < j < |r|
        ensures r[i].id != r[j].id
      {
        assert r[i] in r && r[j] in r;
        BeforeIsStrictTotalOrder(q, r[i], r[j], r[j]);
      }
    }
  }
}
