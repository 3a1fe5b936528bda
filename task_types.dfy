/** The client-side task record (`ITask`) and its two enumerations. */
module TaskTypes {
  import opened Wrappers

  datatype Status = Pending | Completed
  datatype Priority = Low | Medium | High

  /** `ITask`. The add form builds tasks without an `id`, so the id is optional. */
  datatype Task = Task(id: Option<string>, title: string, status: Status, priority: Priority)

  function StatusName(s: Status): string {
    match s
    case Pending => "Pending"
    case Completed => "Completed"
  }

  function PriorityName(p: Priority): string {
    match p
    case Low => "Low"
    case Medium => "Medium"
    case High => "High"
  }

  /** A status name accepted by the enumeration check, as an enum value. */
  function ParseStatus(s: string): (r: Option<Status>)
    ensures r.Some? ==> StatusName(r.value) == s
  {
    if s == "Pending" then Some(Pending)
    else if s == "Completed" then Some(Completed)
    else None
  }

  /** A priority name accepted by the enumeration check, as an enum value. */
  function ParsePriority(s: string): (r: Option<Priority>)
    ensures r.Some? ==> PriorityName(r.value) == s
  {
    if s == "Low" then Some(Low)
    else if s == "Medium" then Some(Medium)
    else if s == "High" then Some(High)
    else None
  }

  /** A string is accepted as a status exactly when it names one. */
  lemma StatusNamesRoundTrip(s: string)
    ensures ParseStatus(s).Some? <==> exists st :: StatusName(st) == s
    ensures forall st :: ParseStatus(StatusName(st)) == Some(st)
  {
    if exists st :: StatusName(st) == s {
      var st :| StatusName(st) == s;
      assert ParseStatus(StatusName(st)) == Some(st);
    }
  }

  /** A string is accepted as a priority exactly when it names one. */
  lemma PriorityNamesRoundTrip(s: string)
    ensures ParsePriority(s).Some? <==> exists p :: PriorityName(p) == s
    ensures forall p :: ParsePriority(PriorityName(p)) == Some(p)
  {
    if exists p :: PriorityName(p) == s {
      var p :| PriorityName(p) == s;
      assert ParsePriority(PriorityName(p)) == Some(p);
    }
  }

  /** The sort weight of a priority: High first, then Medium, then Low. */
  function Rank(p: Priority): (r: int)
    ensures 1 <= r <= 3
  {
    match p
    case High => 1
    case Medium => 2
    case Low => 3
  }

  /** Distinct priorities have distinct ranks. */
  lemma RankInjective(p: Priority, q: Priority)
    ensures Rank(p) == Rank(q) <==> p == q
  {
  }

  /** The two sort directions; the provider spells them "asc"/"desc", the task list "Asc"/"Desc". */
  datatype Direction = Asc | Desc
}
