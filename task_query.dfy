/**
 * The list query of `getTasks`: the query-string parameters, the owner-scoped
 * filter they build, and the sort order with its identifier tie-break.
 */
module TaskQuery {
  import opened Wrappers
  import opened Strings
  import opened Http
  import opened Users
  import opened TaskSchema

  /** The query string of `GET /tasks`; `None` is an absent parameter. */
  datatype ListParams = ListParams(
    status: Option<string>,
    priority: Option<string>,
    dueFrom: Option<string>,
    dueTo: Option<string>,
    sortBy: Option<string>,
    sortOrder: Option<string>,
    q: Option<string>)

  /** `req.query` of a request whose parameters each appear once: a present key is a string. */
  function ParamsOf(query: map<string, string>): ListParams {
    ListParams(
      if "status" in query then Some(query["status"]) else None,
      if "priority" in query then Some(query["priority"]) else None,
      if "dueFrom" in query then Some(query["dueFrom"]) else None,
      if "dueTo" in query then Some(query["dueTo"]) else None,
      if "sortBy" in query then Some(query["sortBy"]) else None,
      if "sortOrder" in query then Some(query["sortOrder"]) else None,
      if "q" in query then Some(query["q"]) else None)
  }

  datatype SortField = ByDueDate | ByCreatedAt

  /** The built query: an equality or range condition per present field, and the sort. */
  datatype Query = Query(
    owner: UserId,
    status: Option<string>,
    priority: Option<string>,
    dueFrom: Option<int>,
    dueTo: Option<int>,
    title: Option<string>,
    sortField: SortField,
    ascending: bool)

  /** A date bound is kept only when the parameter is truthy and parses to a valid date. */
  function ParsedBound(p: Option<string>, parse: DateParser): (r: Option<int>)
    ensures r.Some? <==> NonEmpty(p) && parse(p.value).Some?
    ensures r.Some? ==> r == parse(p.value)
  {
    if NonEmpty(p) then parse(p.value) else None
  }

  /**
   * A stored task satisfies every condition of the query. Only the owner's
   * tasks ever match, and a query with no further condition matches all of them.
   */
  predicate Matches(q: Query, t: Task)
    ensures Matches(q, t) ==> t.owner == q.owner
    ensures (q.status.None? && q.priority.None? && q.dueFrom.None? && q.dueTo.None? && q.title.None?) ==>
      (Matches(q, t) <==> t.owner == q.owner)
  {
    t.owner == q.owner
    && (q.status.Some? ==> StatusName(t.status) == q.status.value)
    && (q.priority.Some? ==> PriorityName(t.priority) == q.priority.value)
    && (q.dueFrom.Some? ==> t.dueDate.Some? && t.dueDate.value >= q.dueFrom.value)
    && (q.dueTo.Some? ==> t.dueDate.Some? && t.dueDate.value <= q.dueTo.value)
    && (q.title.Some? ==> ContainsIgnoreCase(t.title, q.title.value))
  }

  /** The condition a task must meet, read off the request parameters directly. */
  predicate Selected(owner: UserId, params: ListParams, parse: DateParser, t: Task) {
    t.owner == owner
    && (NonEmpty(params.status) ==> StatusName(t.status) == params.status.value)
    && (NonEmpty(params.priority) ==> PriorityName(t.priority) == params.priority.value)
    && (NonEmpty(params.dueFrom) && parse(params.dueFrom.value).Some? ==>
          t.dueDate.Some? && t.dueDate.value >= parse(params.dueFrom.value).value)
    && (NonEmpty(params.dueTo) && parse(params.dueTo.value).Some? ==>
          t.dueDate.Some? && t.dueDate.value <= parse(params.dueTo.value).value)
    && (NonEmpty(params.q) ==> ContainsIgnoreCase(t.title, params.q.value))
  }

  /**
   * The query `getTasks` builds. It always filters on the owner; status,
   * priority and the title search apply only when non-empty; a date bound
   * applies only when it parses, and an unparseable one is dropped, not an
   * error. The sort key is `dueDate` only for exactly `dueDate` and the
   * direction is ascending only for exactly `asc`.
   */
  function BuildQuery(owner: UserId, params: ListParams, parse: DateParser): (r: Query)
    ensures forall t :: Matches(r, t) <==> Selected(owner, params, parse, t)
    ensures r.sortField == ByDueDate <==> params.sortBy == Some("dueDate")
    ensures r.ascending <==> params.sortOrder == Some("asc")
  {
    Query(
      owner,
      if NonEmpty(params.status) then params.status else None,
      if NonEmpty(params.priority) then params.priority else None,
      ParsedBound(params.dueFrom, parse),
      ParsedBound(params.dueTo, parse),
      if NonEmpty(params.q) then params.q else None,
      if params.sortBy == Some("dueDate") then ByDueDate else ByCreatedAt,
      params.sortOrder == Some("asc"))
  }

  /** A bound that does not parse builds the same query as no bound at all. */
  lemma UnparseableBoundIgnored(owner: UserId, params: ListParams, parse: DateParser)
    requires params.dueFrom.Some? && parse(params.dueFrom.value).None?
    ensures BuildQuery(owner, params, parse) == BuildQuery(owner, params.(dueFrom := None), parse)
  {
  }

  /** The title search folds ASCII case: the case the title was written in does not matter. */
  lemma TitleSearchIgnoresCase(q: Query, t: Task)
    ensures Matches(q, t) <==> Matches(q, t.(title := Upper(t.title)))
  {
    LowerOfUpper(t.title);
  }

  /** The sort key: `dueDate`, or `createdAt`; only the due-date sort meets a missing key. */
  function SortKey(q: Query, t: Task): (r: Option<int>)
    ensures r.None? <==> q.sortField == ByDueDate && t.dueDate.None?
  {
    match q.sortField
    case ByDueDate => t.dueDate
    case ByCreatedAt => Some(t.createdAt)
  }

  /** MongoDB's order on an optional date: an absent date is below every date. */
  predicate KeyLess(a: Option<int>, b: Option<int>) {
    (a.None? && b.Some?) || (a.Some? && b.Some? && a.value < b.value)
  }

  /**
   * `a` is listed before `b`: by the key in the requested direction, then by
   * id descending. Two tasks with the same key and the same id are never ordered.
   */
  predicate Before(q: Query, a: Task, b: Task)
    ensures Before(q, a, b) ==> SortKey(q, a) != SortKey(q, b) || a.id > b.id
    ensures SortKey(q, a) != SortKey(q, b) ==>
      (Before(q, a, b) <==> if q.ascending then KeyLess(SortKey(q, a), SortKey(q, b))
                            else KeyLess(SortKey(q, b), SortKey(q, a)))
  {
    var ka, kb := SortKey(q, a), SortKey(q, b);
    (if q.ascending then KeyLess(ka, kb) else KeyLess(kb, ka))
    || (ka == kb && a.id > b.id)
  }

  /** The sort is a strict total order on tasks with distinct ids, so the listing is deterministic. */
  lemma BeforeIsStrictTotalOrder(q: Query, a: Task, b: Task, c: Task)
    ensures !Before(q, a, a)
    ensures Before(q, a, b) ==> !Before(q, b, a)
    ensures Before(q, a, b) && Before(q, b, c) ==> Before(q, a, c)
    ensures a.id != b.id ==> Before(q, a, b) || Before(q, b, a)
  {
  }

  /** Tasks with equal sort keys are listed by id, highest first. */
  lemma TieBrokenByIdDescending(q: Query, a: Task, b: Task)
    requires SortKey(q, a) == SortKey(q, b)
    ensures Before(q, a, b) <==> a.id > b.id
  {
  }

  predicate Sorted(q: Query, s: seq<Task>) {
    forall i, j :: 0 <= i < j < |s| ==> Before(q, s[i], s[j])
  }

  /** Insertion of one task into a listing; the rest keep their order. */
  function Insert(q: Query, s: seq<Task>, t: Task): (r: seq<Task>)
    ensures |r| == |s| + 1
    ensures multiset(r) == multiset(s) + multiset{t}
    ensures forall x :: x in r <==> x in s || x == t
    decreases |s|
  {
    if s == [] then [t]
    else if Before(q, t, s[0]) then [t] + s
    else
      assert s == [s[0]] + s[1..];
      [s[0]] + Insert(q, s[1..], t)
  }

  /** Inserting a task whose id is new keeps a sorted listing sorted. */
  lemma {:induction false} InsertSorted(q: Query, s: seq<Task>, t: Task)
    requires Sorted(q, s)
    requires forall x :: x in s ==> x.id != t.id
    ensures Sorted(q, Insert(q, s, t))
    decreases |s|
  {
    if s == [] {
    } else if Before(q, t, s[0]) {
      var r := Insert(q, s, t);
      forall i, j | 0 <= i < j < |r|
        ensures Before(q, r[i], r[j])
      {
        if i == 0 {
          if j > 1 {
            BeforeIsStrictTotalOrder(q, t, s[0], s[j - 1]);
          }
        }
      }
    } else {
      BeforeIsStrictTotalOrder(q, s[0], t, t);
      assert Before(q, s[0], t) by {
        BeforeIsStrictTotalOrder(q, t, s[0], s[0]);
      }
      var rest := Insert(q, s[1..], t);
      InsertSorted(q, s[1..], t);
      var r := [s[0]] + rest;
      assert r == Insert(q, s, t);
      forall i, j | 0 <= i < j < |r|
        ensures Before(q, r[i], r[j])
      {
        if i == 0 {
          var x := rest[j - 1];
          assert x in s[1..] || x == t;
          if x in s[1..] {
            var k :| 0 <= k < |s[1..]| && s[1..][k] == x;
            assert s[k + 1] == x;
          }
        } else {
          assert r[i] == rest[i - 1] && r[j] == rest[j - 1];
        }
      }
    }
  }
}
