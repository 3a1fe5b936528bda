/**
 * The task collection route: listing the caller's tasks and creating one. The caller is named by
 * the `x-user-id` header; whether it is a well-formed object id is decided by `isValidId`.
 */
module TasksRoute {
  import opened Wrappers
  import opened TaskTypes
  import Text
  import Seqs
  import opened Http
  import opened Schema
  import opened TaskModel

  /** A task as the route returns it: every field but the owner. */
  datatype TaskView = TaskView(id: string, title: string, status: Status, priority: Priority, createdAt: int, updatedAt: int)

  function Format(d: TaskDoc): (v: TaskView)
    ensures v.id == d.id && v.title == d.title && v.status == d.status && v.priority == d.priority
    ensures v.createdAt == d.createdAt && v.updatedAt == d.updatedAt
  {
    TaskView(d.id, d.title, d.status, d.priority, d.createdAt, d.updatedAt)
  }

  /** Formats every document, keeping the order. */
  function FormatAll(ds: seq<TaskDoc>): (r: seq<TaskView>)
    ensures |r| == |ds|
    ensures forall i :: 0 <= i < |ds| ==> r[i] == Format(ds[i])
  {
    if ds == [] then [] else [Format(ds[0])] + FormatAll(ds[1..])
  }

  // ---- the caller --------------------------------------------------------------------

  datatype Caller = NoCaller | BadCaller | Caller(id: string)

  /** The header check both handlers run first: absent or empty, then not an object id. */
  function Identify(header: Option<string>, isValidId: string -> bool): (c: Caller)
    ensures c == NoCaller <==> header.None? || header.value == ""
    ensures c == BadCaller <==> header.Some? && header.value != "" && !isValidId(header.value)
    ensures c.Caller? <==> header.Some? && header.value != "" && isValidId(header.value)
    ensures c.Caller? ==> header == Some(c.id)
  {
    if header.None? || header.value == "" then NoCaller
    else if !isValidId(header.value) then BadCaller
    else Caller(header.value)
  }

  // ---- listing -----------------------------------------------------------------------

  /** The tasks owned by `u`, in store order. */
  function Owned(docs: seq<TaskDoc>, u: string): (r: seq<TaskDoc>)
    ensures forall i :: 0 <= i < |r| ==> r[i].userId == u && r[i] in docs
    ensures forall i :: 0 <= i < |docs| && docs[i].userId == u ==> docs[i] in r
  {
    Seqs.Filter(docs, (d: TaskDoc) => d.userId == u)
  }

  function NewerFirstKey(d: TaskDoc): int { -d.createdAt }

  /** Ordered by creation time, newest first; tasks created at the same time stay in store order. */
  function NewestFirst(ds: seq<TaskDoc>): (r: seq<TaskDoc>)
    ensures multiset(r) == multiset(ds)
    ensures forall i, j :: 0 <= i < j < |r| ==> r[i].createdAt >= r[j].createdAt
  {
    Seqs.SortByPermutes(ds, NewerFirstKey);
    var r := Seqs.SortBy(ds, NewerFirstKey);
    assert forall i, j :: 0 <= i < j < |r| ==> NewerFirstKey(r[i]) <= NewerFirstKey(r[j]);
    r
  }

  /** The listing holds exactly the caller's tasks, each as often as stored, newest first. */
  lemma ListingCorrect(docs: seq<TaskDoc>, u: string, d: TaskDoc)
    ensures var r := NewestFirst(Owned(docs, u));
      multiset(r)[d] == if d.userId == u then multiset(docs)[d] else 0
    ensures var r := NewestFirst(Owned(docs, u));
      forall i :: 0 <= i < |r| ==> r[i].userId == u
    ensures var r := NewestFirst(Owned(docs, u));
      forall i, j :: 0 <= i < j < |r| ==> r[i].createdAt >= r[j].createdAt
  {
    var o := Owned(docs, u);
    Seqs.SortByPermutes(o, NewerFirstKey);
    Seqs.FilterCount(docs, (x: TaskDoc) => x.userId == u, d);
    var r := NewestFirst(o);
    forall i | 0 <= i < |r| ensures r[i].userId == u {
      assert r[i] in multiset(o);
    }
    assert forall i, j :: 0 <= i < j < |r| ==> NewerFirstKey(r[i]) <= NewerFirstKey(r[j]);
  }

  /** Tasks created at the same moment are listed in the order they were stored. */
  lemma ListingKeepsStoreOrderOnTies(ds: seq<TaskDoc>, t: int)
    ensures Seqs.Filter(NewestFirst(ds), (d: TaskDoc) => d.createdAt == t) == Seqs.Filter(ds, (d: TaskDoc) => d.createdAt == t)
  {
    Seqs.SortByStable(ds, NewerFirstKey, (d: TaskDoc) => d.createdAt == t, -t);
  }

  // ---- creation ----------------------------------------------------------------------

  /** The fields of a request body; absent ones are `None`. */
  datatype TaskBody = TaskBody(title: Option<string>, priority: Option<string>, status: Option<string>)

  /** The handler's own checks: a rejection, or the fields it hands to the schema. */
  datatype PostCheck = Reject(code: int, message: string) | Proceed(input: TaskInput)

  /**
   * The checks in the order they run: caller, title present and not blank, priority then status in
   * their enumerations after the defaults Low and Pending; the title is handed on trimmed.
   */
  function CheckPost(header: Option<string>, body: TaskBody, isValidId: string -> bool): (r: PostCheck)
    ensures Identify(header, isValidId) == NoCaller ==> r == Reject(401, "User ID is required")
    ensures Identify(header, isValidId) == BadCaller ==> r == Reject(400, "Invalid user ID")
    ensures Identify(header, isValidId).Caller? && (body.title.None? || Text.Trim(body.title.value) == "")
      ==> r == Reject(400, "Task title is required")
    ensures Identify(header, isValidId).Caller? && body.title.Some? && Text.Trim(body.title.value) != ""
        && ParsePriority(body.priority.GetOr("Low")).None?
      ==> r == Reject(400, "Invalid priority level")
    ensures Identify(header, isValidId).Caller? && body.title.Some? && Text.Trim(body.title.value) != ""
        && ParsePriority(body.priority.GetOr("Low")).Some? && ParseStatus(body.status.GetOr("Pending")).None?
      ==> r == Reject(400, "Invalid status")
    ensures r.Proceed? <==> (Identify(header, isValidId).Caller? && body.title.Some? && Text.Trim(body.title.value) != ""
        && ParsePriority(body.priority.GetOr("Low")).Some? && ParseStatus(body.status.GetOr("Pending")).Some?)
    ensures r.Proceed? ==> r.input == TaskInput(header, Some(Text.Trim(body.title.value)),
        Some(body.status.GetOr("Pending")), Some(body.priority.GetOr("Low")))
  {
    match Identify(header, isValidId)
    case NoCaller => Reject(401, "User ID is required")
    case BadCaller => Reject(400, "Invalid user ID")
    case Caller(u) =>
      var priority := body.priority.GetOr("Low");
      var status := body.status.GetOr("Pending");
      if body.title.None? || Text.Trim(body.title.value) == "" then Reject(400, "Task title is required")
      else if ParsePriority(priority).None? then Reject(400, "Invalid priority level")
      else if ParseStatus(status).None? then Reject(400, "Invalid status")
      else Proceed(TaskInput(Some(u), Some(Text.Trim(body.title.value)), Some(status), Some(priority)))
  }

  /** What passes the handler's checks fails the schema only on a title longer than 200 characters. */
  lemma CheckedInputErrors(header: Option<string>, body: TaskBody, isValidId: string -> bool)
    requires CheckPost(header, body, isValidId).Proceed?
    ensures var errs := TaskErrors(CheckPost(header, body, isValidId).input);
      errs == [] <==> |Text.Trim(body.title.value)| <= MaxTitleLength
    ensures var errs := TaskErrors(CheckPost(header, body, isValidId).input);
      errs != [] ==> errs == [FieldError("title", "Task title cannot exceed 200 characters")]
  {
    var t := body.title.value;
    Text.TrimIdempotent(t);
    Text.TrimEmptyIff(Text.Trim(t));
  }

  /** Storing a task of `u` changes no other user's listing and lists the new task last in `u`'s store order. */
  lemma CreateIsolation(docs: seq<TaskDoc>, d: TaskDoc, v: string)
    ensures d.userId != v ==> Owned(docs + [d], v) == Owned(docs, v)
    ensures Owned(docs + [d], d.userId) == Owned(docs, d.userId) + [d]
  {
    Seqs.FilterConcat(docs, [d], (x: TaskDoc) => x.userId == v);
    Seqs.FilterConcat(docs, [d], (x: TaskDoc) => x.userId == d.userId);
  }

  /** A task collection: the stored documents in insertion order. */
  class TaskStore {
    var docs: seq<TaskDoc>

    constructor(stored: seq<TaskDoc>)
      ensures docs == stored
    {
      docs := stored;
    }

    /** Listing: the header checks, then the caller's tasks newest first without their owner. */
    method Get(header: Option<string>, isValidId: string -> bool) returns (r: Response<seq<TaskView>>)
      ensures Identify(header, isValidId) == NoCaller ==> r == Err(401, "User ID is required")
      ensures Identify(header, isValidId) == BadCaller ==> r == Err(400, "Invalid user ID")
      ensures Identify(header, isValidId).Caller? ==>
        r == Ok(200, FormatAll(NewestFirst(Owned(docs, header.value))))
    {
      match Identify(header, isValidId)
      case NoCaller => r := Err(401, "User ID is required");
      case BadCaller => r := Err(400, "Invalid user ID");
      case Caller(u) => r := Ok(200, FormatAll(NewestFirst(Owned(docs, u))));
    }

    /** Creation: `id` and `now` are what the store assigns to the new document. */
    method Post(header: Option<string>, body: TaskBody, isValidId: string -> bool, id: string, now: int)
      returns (r: Response<TaskView>)
      modifies this
      ensures CheckPost(header, body, isValidId).Reject? ==>
        r == Err(CheckPost(header, body, isValidId).code, CheckPost(header, body, isValidId).message) && docs == old(docs)
      ensures CheckPost(header, body, isValidId).Proceed? && CreateTask(CheckPost(header, body, isValidId).input, id, now).Invalid? ==>
        r == Err(500, ValidationMessage("Task", TaskErrors(CheckPost(header, body, isValidId).input))) && docs == old(docs)
      ensures CheckPost(header, body, isValidId).Proceed? && CreateTask(CheckPost(header, body, isValidId).input, id, now).Created? ==>
        var d := CreateTask(CheckPost(header, body, isValidId).input, id, now).doc;
        docs == old(docs) + [d] && r == Ok(201, Format(d))
    {
      var check := CheckPost(header, body, isValidId);
      if check.Reject? {
        return Err(check.code, check.message);
      }
      var created := CreateTask(check.input, id, now);
      if created.Invalid? {
        return Err(500, ValidationMessage("Task", created.errors));
      }
      docs := docs + [created.doc];
      r := Ok(201, Format(created.doc));
    }
  }

  /** A created task belongs to the caller, holds the trimmed title and the defaults, and satisfies the schema. */
  lemma PostCreatesValidTask(header: Option<string>, body: TaskBody, isValidId: string -> bool, id: string, now: int)
    requires CheckPost(header, body, isValidId).Proceed?
    requires CreateTask(CheckPost(header, body, isValidId).input, id, now).Created?
    ensures var d := CreateTask(CheckPost(header, body, isValidId).input, id, now).doc;
      && ValidTask(d) && Some(d.userId) == header && d.title == Text.Trim(body.title.value)
      && (body.priority.None? ==> d.priority == Low) && (body.status.None? ==> d.status == Pending)
  {
    var input := CheckPost(header, body, isValidId).input;
    CreateTaskCorrect(input, id, now);
    Text.TrimIdempotent(body.title.value);
  }

  /** After a successful creation the caller's listing shows the new task. */
  lemma CreatedTaskIsListed(docs: seq<TaskDoc>, d: TaskDoc)
    ensures Format(d) in FormatAll(NewestFirst(Owned(docs + [d], d.userId)))
  {
    CreateIsolation(docs, d, d.userId);
    var o := Owned(docs + [d], d.userId);
    assert o[|o| - 1] == d;
    Seqs.SortByPermutes(o, NewerFirstKey);
    var r := NewestFirst(o);
    assert d in multiset(r);
    var i :| 0 <= i < |r| && r[i] == d;
    assert FormatAll(r)[i] == Format(d);
  }
}
