/**
 * The task manager view: the priority filter, the sorted copy, the Pending/Completed split,
 * the status toggle and the edit form with its "only edit when something changed" rule.
 */
module ManageTasks {
  import opened Wrappers
  import opened TaskTypes
  import Text
  import Seqs
  import TaskList

  // ---- the display pipeline ------------------------------------------------------

  /** The priority filter of the view: everything, or one priority. */
  datatype PriorityFilter = All | Only(p: Priority)

  function FilterByPriority(ts: seq<Task>, f: PriorityFilter): (r: seq<Task>)
    ensures f.All? ==> r == ts
    ensures f.Only? ==> forall i :: 0 <= i < |r| ==> r[i].priority == f.p && r[i] in ts
    ensures f.Only? ==> forall i :: 0 <= i < |ts| && ts[i].priority == f.p ==> ts[i] in r
  {
    match f
    case All => ts
    case Only(p) => TaskList.OfPriority(ts, p)
  }

  /** "All" shows the list as it is; a priority shows exactly its tasks, each as often as before, in list order. */
  lemma FilterByPriorityCorrect(ts: seq<Task>, f: PriorityFilter, t: Task, more: seq<Task>)
    ensures f.All? ==> FilterByPriority(ts, f) == ts
    ensures f.Only? ==> forall i :: 0 <= i < |FilterByPriority(ts, f)| ==> FilterByPriority(ts, f)[i].priority == f.p
    ensures f.Only? ==> multiset(FilterByPriority(ts, f))[t] == if t.priority == f.p then multiset(ts)[t] else 0
    ensures FilterByPriority(ts + more, f) == FilterByPriority(ts, f) + FilterByPriority(more, f)
  {
    if f.Only? {
      Seqs.FilterCount(ts, (x: Task) => x.priority == f.p, t);
      Seqs.FilterConcat(ts, more, (x: Task) => x.priority == f.p);
    }
  }

  /** The sorted copy of the filtered list. */
  function SortedView(ts: seq<Task>, f: PriorityFilter, dir: Direction): (r: seq<Task>)
    ensures multiset(r) == multiset(FilterByPriority(ts, f))
    ensures Seqs.SortedBy(r, TaskList.RankKey(dir))
  {
    Seqs.SortByPermutes(FilterByPriority(ts, f), TaskList.RankKey(dir));
    TaskList.SortByPriority(FilterByPriority(ts, f), dir)
  }

  function IsPending(t: Task): bool { t.status == Pending }
  function IsCompleted(t: Task): bool { t.status == Completed }

  /** The Pending column. */
  function PendingTasks(ts: seq<Task>, f: PriorityFilter, dir: Direction): (r: seq<Task>)
    ensures forall i :: 0 <= i < |r| ==> r[i].status == Pending
    ensures var v := SortedView(ts, f, dir); forall i :: 0 <= i < |v| && v[i].status == Pending ==> v[i] in r
  {
    Seqs.Filter(SortedView(ts, f, dir), IsPending)
  }

  /** The Completed column. */
  function CompletedTasks(ts: seq<Task>, f: PriorityFilter, dir: Direction): (r: seq<Task>)
    ensures forall i :: 0 <= i < |r| ==> r[i].status == Completed
    ensures var v := SortedView(ts, f, dir); forall i :: 0 <= i < |v| && v[i].status == Completed ==> v[i] in r
  {
    Seqs.Filter(SortedView(ts, f, dir), IsCompleted)
  }

  /** The sorted view is a permutation of the filtered list, ordered by rank in the chosen direction. */
  lemma SortedViewCorrect(ts: seq<Task>, f: PriorityFilter, dir: Direction)
    ensures multiset(SortedView(ts, f, dir)) == multiset(FilterByPriority(ts, f))
    ensures var r := SortedView(ts, f, dir);
      dir == Asc ==> forall i, j :: 0 <= i < j < |r| ==> Rank(r[i].priority) <= Rank(r[j].priority)
    ensures var r := SortedView(ts, f, dir);
      dir == Desc ==> forall i, j :: 0 <= i < j < |r| ==> Rank(r[i].priority) >= Rank(r[j].priority)
  {
    TaskList.SortByPriorityCorrect(FilterByPriority(ts, f), dir);
  }

  /**
   * The two columns split the sorted view: every task lands in the column of its status, as often
   * as it occurs in the view, and each column keeps the view's order.
   */
  lemma ColumnsPartition(ts: seq<Task>, f: PriorityFilter, dir: Direction, t: Task)
    ensures forall i :: 0 <= i < |PendingTasks(ts, f, dir)| ==> PendingTasks(ts, f, dir)[i].status == Pending
    ensures forall i :: 0 <= i < |CompletedTasks(ts, f, dir)| ==> CompletedTasks(ts, f, dir)[i].status == Completed
    ensures multiset(PendingTasks(ts, f, dir))[t] + multiset(CompletedTasks(ts, f, dir))[t] == multiset(SortedView(ts, f, dir))[t]
    ensures |PendingTasks(ts, f, dir)| + |CompletedTasks(ts, f, dir)| == |SortedView(ts, f, dir)|
    ensures Seqs.SortedBy(PendingTasks(ts, f, dir), TaskList.RankKey(dir))
    ensures Seqs.SortedBy(CompletedTasks(ts, f, dir), TaskList.RankKey(dir))
  {
    var v := SortedView(ts, f, dir);
    Seqs.FilterCount(v, IsPending, t);
    Seqs.FilterCount(v, IsCompleted, t);
    Seqs.FilterSorted(v, TaskList.RankKey(dir), IsPending);
    Seqs.FilterSorted(v, TaskList.RankKey(dir), IsCompleted);
    SplitLength(v);
  }

  /** Every task is either pending or completed, so the two filters together keep the whole length. */
  lemma {:induction false} SplitLength(v: seq<Task>)
    ensures |Seqs.Filter(v, IsPending)| + |Seqs.Filter(v, IsCompleted)| == |v|
  {
    if v != [] {
      SplitLength(v[1..]);
    }
  }

  // ---- the status toggle ---------------------------------------------------------

  /** The status a toggle asks for: the other one. */
  function Toggle(s: Status): (r: Status)
    ensures r != s
  {
    if s == Pending then Completed else Pending
  }

  /** The list after toggling task `t` through the store. */
  function HandleStatusToggle(ts: seq<Task>, t: Task): (r: seq<Task>)
    ensures |r| == |ts|
    ensures forall i :: 0 <= i < |ts| && ts[i].id == t.id ==> r[i] == ts[i].(status := Toggle(t.status)) && r[i].status != t.status
    ensures forall i :: 0 <= i < |ts| && ts[i].id != t.id ==> r[i] == ts[i]
  {
    TaskList.SetStatus(ts, t.id, Toggle(t.status))
  }

  /** Toggling a task and then toggling it again as it is now displayed restores the list. */
  lemma ToggleTwiceRestores(ts: seq<Task>, t: Task)
    requires forall i :: 0 <= i < |ts| && ts[i].id == t.id ==> ts[i].status == t.status
    ensures Toggle(Toggle(t.status)) == t.status
    ensures HandleStatusToggle(HandleStatusToggle(ts, t), t.(status := Toggle(t.status))) == ts
  {
    TaskList.SetStatusRestores(ts, t.id, Toggle(t.status), t.status);
  }

  // ---- the edit form -------------------------------------------------------------

  /** The issues the edit form's schema can report: a title too short, a priority not in the enumeration. */
  datatype FormIssue = TitleTooShort | NoPriority

  /** The schema's issues in field order: a title of at least one character, a priority from the enumeration. */
  function EditFormIssues(title: string, priority: string): (r: seq<FormIssue>)
    ensures TitleTooShort in r <==> |title| < 1
    ensures NoPriority in r <==> ParsePriority(priority).None?
  {
    (if |title| < 1 then [TitleTooShort] else []) + (if ParsePriority(priority).None? then [NoPriority] else [])
  }

  /** What submitting the edit form does. */
  datatype EditOutcome =
    | Rejected(issues: seq<FormIssue>)
    | NoTaskSelected
    | NoChanges
    | Edit(id: Option<string>, patch: TaskList.TaskPatch)

  /** The patch an edit sends: the trimmed title and the chosen priority. */
  function EditPatch(title: string, p: Priority): TaskList.TaskPatch {
    TaskList.TaskPatch(None, Some(Text.Trim(title)), None, Some(p))
  }

  /** The schema check, then the handler's test against the task being edited. */
  function SubmitEdit(selected: Option<Task>, title: string, priority: string): (r: EditOutcome)
    ensures r.Rejected? <==> EditFormIssues(title, priority) != []
    ensures r.Edit? ==> selected.Some? && r.id == selected.value.id
    ensures selected.None? && EditFormIssues(title, priority) == [] ==> r == NoTaskSelected
  {
    var issues := EditFormIssues(title, priority);
    if issues != [] then Rejected(issues)
    else match selected
      case None => NoTaskSelected
      case Some(t) =>
        var p := ParsePriority(priority).value;
        if Text.Trim(title) != t.title || p != t.priority then Edit(t.id, EditPatch(title, p)) else NoChanges
  }

  /** The form passes exactly when the title is not empty and the priority names one of the three. */
  lemma EditFormAccepts(title: string, priority: string)
    ensures EditFormIssues(title, priority) == [] <==> |title| >= 1 && exists p :: PriorityName(p) == priority
  {
    PriorityNamesRoundTrip(priority);
  }

  /**
   * An edit is sent exactly when applying it would change the task: a well-formed submission is
   * either `NoChanges`, and merging its patch leaves the task as it is, or an `Edit` whose
   * patch does change it.
   */
  lemma SubmitEditDetectsChange(t: Task, title: string, p: Priority)
    requires |title| >= 1
    ensures var r := SubmitEdit(Some(t), title, PriorityName(p));
      (r.Edit? || r.NoChanges?) && (r.Edit? <==> TaskList.Merge(t, EditPatch(title, p)) != t)
    ensures var r := SubmitEdit(Some(t), title, PriorityName(p));
      r.Edit? ==> r.patch == EditPatch(title, p) && r.patch.title == Some(Text.Trim(title))
  {
    PriorityNamesRoundTrip(PriorityName(p));
  }

  /** A title of spaces passes the schema, and the edit then sends an empty title. */
  lemma BlankTitleIsSent(t: Task)
    requires t.title != ""
    ensures SubmitEdit(Some(t), " ", "Low") == Edit(t.id, TaskList.TaskPatch(None, Some(""), None, Some(Low)))
  {
    assert Text.Leading(" ") == 1;
  }
}
