/**
 * The list updaters of the client task store: the pure functions that `addTask`, `editTask`,
 * `deleteTask`, `updateTaskStatus`, `updateTaskPriority` and `sortTasks` hand to `setTasks`.
 * Ids are compared with `===` on optional values, so two absent ids are equal.
 */
module TaskList {
  import opened Wrappers
  import opened TaskTypes
  import Seqs

  /** A partial task: each field present in the patch overwrites the task's field. */
  datatype TaskPatch = TaskPatch(id: Option<string>, title: Option<string>, status: Option<Status>, priority: Option<Priority>)

  /** Object spread of a patch over a task: the patch's present fields win. */
  function Merge(t: Task, p: TaskPatch): (r: Task)
    ensures r.id == if p.id.Some? then p.id else t.id
    ensures p.title.Some? ==> r.title == p.title.value
    ensures p.title.None? ==> r.title == t.title
    ensures p.status.Some? ==> r.status == p.status.value
    ensures p.status.None? ==> r.status == t.status
    ensures p.priority.Some? ==> r.priority == p.priority.value
    ensures p.priority.None? ==> r.priority == t.priority
  {
    Task(if p.id.Some? then p.id else t.id,
         p.title.GetOr(t.title),
         p.status.GetOr(t.status),
         p.priority.GetOr(t.priority))
  }

  /** Merging the same patch twice is merging it once. */
  lemma MergeIdempotent(t: Task, p: TaskPatch)
    ensures Merge(Merge(t, p), p) == Merge(t, p)
  {
  }

  /** Some task in the list carries id `id` (strict equality on optional ids). */
  predicate HasId(ts: seq<Task>, id: Option<string>) {
    exists i :: 0 <= i < |ts| && ts[i].id == id
  }

  /** No two tasks share an id (an absent id counts as one id value). */
  predicate DistinctIds(ts: seq<Task>) {
    forall i, j :: 0 <= i < j < |ts| ==> ts[i].id != ts[j].id
  }

  /** The updater of `addTask`: append unless a task with an equal id is already there. */
  function AddTask(ts: seq<Task>, payload: Task): (r: seq<Task>)
    ensures HasId(ts, payload.id) ==> r == ts
    ensures !HasId(ts, payload.id) ==> r == ts + [payload]
  {
    if HasId(ts, payload.id) then ts else ts + [payload]
  }

  /** The duplicate check keeps ids distinct. */
  lemma AddTaskKeepsIdsDistinct(ts: seq<Task>, payload: Task)
    requires DistinctIds(ts)
    ensures DistinctIds(AddTask(ts, payload))
    ensures payload in AddTask(ts, payload) <==> payload in ts || !HasId(ts, payload.id)
  {
    var r := AddTask(ts, payload);
    if !HasId(ts, payload.id) {
      assert r[|ts|] == payload;
      forall i, j | 0 <= i < j < |r| ensures r[i].id != r[j].id {
        if j == |ts| {
          assert r[i] == ts[i];
        } else {
          assert r[i] == ts[i] && r[j] == ts[j];
        }
      }
    }
  }

  /** The add form builds tasks without an id: once one id-less task is stored, every later one is dropped. */
  lemma AddTaskDropsIdless(ts: seq<Task>, payload: Task)
    requires exists i :: 0 <= i < |ts| && ts[i].id.None?
    requires payload.id.None?
    ensures AddTask(ts, payload) == ts
    ensures payload !in ts ==> payload !in AddTask(ts, payload)
  {
    var i :| 0 <= i < |ts| && ts[i].id.None?;
    assert ts[i].id == payload.id;
  }

  /** The duplicate check applied only to tasks that carry an id, as the add form evidently intends. */
  function AddTaskFixed(ts: seq<Task>, payload: Task): (r: seq<Task>)
    ensures payload.id.Some? && HasId(ts, payload.id) ==> r == ts
    ensures !(payload.id.Some? && HasId(ts, payload.id)) ==> r == ts + [payload]
  {
    if payload.id.Some? && HasId(ts, payload.id) then ts else ts + [payload]
  }

  /** Ids that are present stay distinct among themselves. */
  predicate DistinctPresentIds(ts: seq<Task>) {
    forall i, j :: 0 <= i < j < |ts| && ts[i].id.Some? ==> ts[i].id != ts[j].id
  }

  /** The corrected add always keeps an id-less task, never duplicates a present id, and agrees with `AddTask` on tasks that carry one. */
  lemma AddTaskFixedCorrect(ts: seq<Task>, payload: Task)
    requires DistinctPresentIds(ts)
    ensures payload.id.None? ==> AddTaskFixed(ts, payload) == ts + [payload]
    ensures payload.id.Some? ==> AddTaskFixed(ts, payload) == AddTask(ts, payload)
    ensures DistinctPresentIds(AddTaskFixed(ts, payload))
  {
    var r := AddTaskFixed(ts, payload);
    if r != ts {
      assert r == ts + [payload];
      forall i, j | 0 <= i < j < |r| && r[i].id.Some? ensures r[i].id != r[j].id {
        assert r[i] == ts[i];
        if j < |ts| {
          assert r[j] == ts[j];
        }
      }
    }
  }

  /** The updater of `editTask`: every task with id `id` gets the patch merged over it; the others stay. */
  function EditTask(ts: seq<Task>, id: Option<string>, p: TaskPatch): (r: seq<Task>)
    ensures |r| == |ts|
    ensures forall i :: 0 <= i < |ts| ==> r[i] == if ts[i].id == id then Merge(ts[i], p) else ts[i]
  {
    if ts == [] then []
    else [if ts[0].id == id then Merge(ts[0], p) else ts[0]] + EditTask(ts[1..], id, p)
  }

  /** Editing again with a patch that does not move the task to another id changes nothing more. */
  lemma EditTaskIdempotent(ts: seq<Task>, id: Option<string>, p: TaskPatch)
    requires p.id.None? || p.id == id
    ensures EditTask(EditTask(ts, id, p), id, p) == EditTask(ts, id, p)
  {
    var once := EditTask(ts, id, p);
    var twice := EditTask(once, id, p);
    forall i | 0 <= i < |ts| ensures twice[i] == once[i] {
      MergeIdempotent(ts[i], p);
    }
  }

  /** The updater of `deleteTask`: keeps the tasks whose id differs from `id`. */
  function DeleteTask(ts: seq<Task>, id: Option<string>): (r: seq<Task>)
    ensures !HasId(r, id)
    ensures forall i :: 0 <= i < |ts| && ts[i].id != id ==> ts[i] in r
  {
    Seqs.Filter(ts, (t: Task) => t.id != id)
  }

  /** Deletion keeps exactly the other tasks, each as often as before and in their input order. */
  lemma DeleteTaskKeepsOthers(ts: seq<Task>, id: Option<string>, t: Task, more: seq<Task>)
    ensures multiset(DeleteTask(ts, id))[t] == if t.id != id then multiset(ts)[t] else 0
    ensures DeleteTask(ts + more, id) == DeleteTask(ts, id) + DeleteTask(more, id)
  {
    Seqs.FilterCount(ts, (t: Task) => t.id != id, t);
    Seqs.FilterConcat(ts, more, (t: Task) => t.id != id);
  }

  /** Deleting a task that was just added (or ignored as a duplicate) leaves what deleting alone leaves. */
  lemma DeleteUndoesAdd(ts: seq<Task>, payload: Task)
    ensures DeleteTask(AddTask(ts, payload), payload.id) == DeleteTask(ts, payload.id)
  {
    if !HasId(ts, payload.id) {
      DeleteTaskKeepsOthers(ts, payload.id, payload, [payload]);
      assert DeleteTask([payload], payload.id) == [];
    }
  }

  /** An edit that keeps ids does not change what a deletion of that id leaves behind. */
  lemma {:induction false} DeleteAfterEdit(ts: seq<Task>, id: Option<string>, p: TaskPatch)
    requires p.id.None?
    ensures DeleteTask(EditTask(ts, id, p), id) == DeleteTask(ts, id)
  {
    if ts != [] {
      DeleteAfterEdit(ts[1..], id, p);
      var e := EditTask(ts, id, p);
      assert e == [e[0]] + EditTask(ts[1..], id, p);
      DeleteTaskKeepsOthers([e[0]], id, e[0], EditTask(ts[1..], id, p));
      DeleteTaskKeepsOthers([ts[0]], id, ts[0], ts[1..]);
      assert [ts[0]] + ts[1..] == ts;
    }
  }

  /** The patch that sets only the status. */
  function StatusPatch(s: Status): TaskPatch {
    TaskPatch(None, None, Some(s), None)
  }

  /** The patch that sets only the priority. */
  function PriorityPatch(p: Priority): TaskPatch {
    TaskPatch(None, None, None, Some(p))
  }

  /** The updater of `updateTaskStatus`: the tasks with id `id` get status `s`. */
  function SetStatus(ts: seq<Task>, id: Option<string>, s: Status): (r: seq<Task>)
    ensures |r| == |ts|
    ensures forall i :: 0 <= i < |ts| ==> r[i] == if ts[i].id == id then ts[i].(status := s) else ts[i]
  {
    if ts == [] then []
    else [if ts[0].id == id then ts[0].(status := s) else ts[0]] + SetStatus(ts[1..], id, s)
  }

  /** The updater of `updateTaskPriority`. */
  function SetPriority(ts: seq<Task>, id: Option<string>, p: Priority): (r: seq<Task>)
    ensures |r| == |ts|
    ensures forall i :: 0 <= i < |ts| ==> r[i] == if ts[i].id == id then ts[i].(priority := p) else ts[i]
  {
    if ts == [] then []
    else [if ts[0].id == id then ts[0].(priority := p) else ts[0]] + SetPriority(ts[1..], id, p)
  }

  /** Setting one field is an edit with a one-field patch. */
  lemma {:induction false} SetFieldIsEdit(ts: seq<Task>, id: Option<string>, s: Status, p: Priority)
    ensures SetStatus(ts, id, s) == EditTask(ts, id, StatusPatch(s))
    ensures SetPriority(ts, id, p) == EditTask(ts, id, PriorityPatch(p))
  {
    if ts != [] {
      SetFieldIsEdit(ts[1..], id, s, p);
    }
  }

  /** Setting a status back to the one every matching task had restores the list. */
  lemma {:induction false} SetStatusRestores(ts: seq<Task>, id: Option<string>, s: Status, old_s: Status)
    requires forall i :: 0 <= i < |ts| && ts[i].id == id ==> ts[i].status == old_s
    ensures SetStatus(SetStatus(ts, id, s), id, old_s) == ts
  {
    if ts != [] {
      SetStatusRestores(ts[1..], id, s, old_s);
      assert [ts[0]] + ts[1..] == ts;
    }
  }

  // ---- sortTasks -----------------------------------------------------------------

  function AscKey(t: Task): int { Rank(t.priority) }
  function DescKey(t: Task): int { -Rank(t.priority) }

  /** The rank difference comparator (ascending) or its negation (descending), as a sort key. */
  function RankKey(dir: Direction): Task -> int {
    if dir == Asc then AscKey else DescKey
  }

  /** The updater of `sortTasks`: a stable sort of a copy by priority rank. */
  function SortByPriority(ts: seq<Task>, dir: Direction): (r: seq<Task>)
    ensures |r| == |ts|
    ensures Seqs.SortedBy(r, RankKey(dir))
  {
    Seqs.SortBy(ts, RankKey(dir))
  }

  /** The tasks of priority `p`, in list order. */
  function OfPriority(ts: seq<Task>, p: Priority): (r: seq<Task>)
    ensures forall i :: 0 <= i < |r| ==> r[i].priority == p
  {
    Seqs.Filter(ts, (t: Task) => t.priority == p)
  }

  /** The priority sort is a permutation, ordered by rank in the chosen direction, and stable. */
  lemma SortByPriorityCorrect(ts: seq<Task>, dir: Direction)
    ensures multiset(SortByPriority(ts, dir)) == multiset(ts)
    ensures var r := SortByPriority(ts, dir);
      dir == Asc ==> forall i, j :: 0 <= i < j < |r| ==> Rank(r[i].priority) <= Rank(r[j].priority)
    ensures var r := SortByPriority(ts, dir);
      dir == Desc ==> forall i, j :: 0 <= i < j < |r| ==> Rank(r[i].priority) >= Rank(r[j].priority)
    ensures forall p :: OfPriority(SortByPriority(ts, dir), p) == OfPriority(ts, p)
  {
    var r := SortByPriority(ts, dir);
    Seqs.SortByPermutes(ts, RankKey(dir));
    assert Seqs.SortedBy(r, RankKey(dir));
    if dir == Asc {
      assert forall i, j :: 0 <= i < j < |r| ==> AscKey(r[i]) <= AscKey(r[j]);
    } else {
      assert forall i, j :: 0 <= i < j < |r| ==> DescKey(r[i]) <= DescKey(r[j]);
    }
    forall p: Priority ensures OfPriority(r, p) == OfPriority(ts, p) {
      var k := RankKey(dir);
      Seqs.SortByStable(ts, k, (t: Task) => t.priority == p, k(Task(None, "", Pending, p)));
    }
  }

  /** The priority whose group comes first in direction `dir`. */
  function First(dir: Direction): Priority { if dir == Asc then High else Low }

  /** The priority whose group comes last in direction `dir`. */
  function Last(dir: Direction): Priority { if dir == Asc then Low else High }

  /** The priority groups in the order of `dir`, each group in input order. */
  function Grouped(ts: seq<Task>, dir: Direction): seq<Task> {
    OfPriority(ts, First(dir)) + OfPriority(ts, Medium) + OfPriority(ts, Last(dir))
  }

  /** The sort key of every task of priority `p`. */
  function KeyOf(dir: Direction, p: Priority): int {
    if dir == Asc then Rank(p) else -Rank(p)
  }

  /** All tasks of one priority group share the group's key. */
  lemma GroupKeys(ts: seq<Task>, p: Priority, dir: Direction)
    ensures forall i :: 0 <= i < |OfPriority(ts, p)| ==> RankKey(dir)(OfPriority(ts, p)[i]) == KeyOf(dir, p)
  {
  }

  /** The group keys increase from the first group to the last. */
  lemma GroupKeysOrdered(rest: seq<Task>, dir: Direction, x: Task)
    ensures var key, a, b, c := RankKey(dir), OfPriority(rest, First(dir)), OfPriority(rest, Medium), OfPriority(rest, Last(dir));
      && (x.priority == First(dir) ==> Seqs.KeysAtLeast(a, key, key(x)) && Seqs.KeysAtLeast(b, key, key(x)) && Seqs.KeysAtLeast(c, key, key(x)))
      && (x.priority == Medium ==> Seqs.KeysBelow(a, key, key(x)) && Seqs.KeysAtLeast(b, key, key(x)) && Seqs.KeysAtLeast(c, key, key(x)))
      && (x.priority == Last(dir) ==> Seqs.KeysBelow(a, key, key(x)) && Seqs.KeysBelow(b, key, key(x)) && Seqs.KeysAtLeast(c, key, key(x)))
  {
    GroupKeys(rest, First(dir), dir);
    GroupKeys(rest, Medium, dir);
    GroupKeys(rest, Last(dir), dir);
  }

  /** Inserting one more task into the grouped list puts it at the front of its own group. */
  lemma InsertIntoGroups(x: Task, rest: seq<Task>, dir: Direction)
    ensures Seqs.Insert(x, Grouped(rest, dir), RankKey(dir)) == Grouped([x] + rest, dir)
  {
    var a, b, c, key := OfPriority(rest, First(dir)), OfPriority(rest, Medium), OfPriority(rest, Last(dir)), RankKey(dir);
    GroupKeysOrdered(rest, dir, x);
    OfPriorityCons(x, rest, First(dir));
    OfPriorityCons(x, rest, Medium);
    OfPriorityCons(x, rest, Last(dir));
    if x.priority == First(dir) {
      Seqs.InsertIntoFirstRun(x, a, b, c, key);
    } else if x.priority == Medium {
      Seqs.InsertIntoSecondRun(x, a, b, c, key);
    } else {
      Seqs.InsertIntoThirdRun(x, a, b, c, key);
    }
  }

  /** The priority sort lists the groups one after the other: all of the first rank, then the next, and so on. */
  lemma {:induction false} SortIsGrouped(ts: seq<Task>, dir: Direction)
    ensures SortByPriority(ts, dir) == Grouped(ts, dir)
  {
    if ts != [] {
      SortIsGrouped(ts[1..], dir);
      assert ts == [ts[0]] + ts[1..];
      InsertIntoGroups(ts[0], ts[1..], dir);
    }
  }

  lemma OfPriorityCons(x: Task, rest: seq<Task>, p: Priority)
    ensures x.priority == p ==> OfPriority([x] + rest, p) == [x] + OfPriority(rest, p)
    ensures x.priority != p ==> OfPriority([x] + rest, p) == OfPriority(rest, p)
  {
    assert ([x] + rest)[0] == x && ([x] + rest)[1..] == rest;
  }

  /** The groups of `[l, h, m]` with one task of each priority. */
  lemma ExampleGroups(l: Task, h: Task, m: Task)
    requires l.priority == Low && h.priority == High && m.priority == Medium
    ensures OfPriority([l, h, m], High) == [h]
    ensures OfPriority([l, h, m], Medium) == [m]
    ensures OfPriority([l, h, m], Low) == [l]
  {
    assert [l, h, m] == [l] + [h, m] && [h, m] == [h] + [m] && [m] == [m] + [];
    OfPriorityCons(m, [], Low);
    OfPriorityCons(m, [], Medium);
    OfPriorityCons(m, [], High);
    OfPriorityCons(h, [m], Low);
    OfPriorityCons(h, [m], Medium);
    OfPriorityCons(h, [m], High);
    OfPriorityCons(l, [h, m], Low);
    OfPriorityCons(l, [h, m], Medium);
    OfPriorityCons(l, [h, m], High);
  }

  /** Sorting `[Low, High, Medium]` ascending gives `[High, Medium, Low]`, descending `[Low, Medium, High]`. */
  lemma SortExample(l: Task, h: Task, m: Task)
    requires l.priority == Low && h.priority == High && m.priority == Medium
    ensures SortByPriority([l, h, m], Asc) == [h, m, l]
    ensures SortByPriority([l, h, m], Desc) == [l, m, h]
  {
    ExampleGroups(l, h, m);
    SortIsGrouped([l, h, m], Asc);
    SortIsGrouped([l, h, m], Desc);
    assert Grouped([l, h, m], Asc) == [h] + [m] + [l];
    assert Grouped([l, h, m], Desc) == [l] + [m] + [h];
  }
}
