/**
 * The client task store: the current user's task list plus the per-user dictionary it is
 * persisted into. Every operation replaces the list by one of the pure updaters of `TaskList`
 * and then, as the save effect does, writes the new list back under the current user.
 */
module TasksProvider {
  import opened Wrappers
  import opened TaskTypes
  import TaskList

  /** The stored list of user `u`, or the empty list when there is none. */
  function UserTasks(all: map<string, seq<Task>>, u: string): (r: seq<Task>)
    ensures u in all ==> r == all[u]
    ensures u !in all ==> r == []
  {
    if u in all then all[u] else []
  }

  /** The dictionary with entry `u` set to `ts`. */
  function SaveUserTasks(all: map<string, seq<Task>>, u: string, ts: seq<Task>): (r: map<string, seq<Task>>)
    ensures r.Keys == all.Keys + {u}
    ensures u in r && r[u] == ts
    ensures forall v :: v in all && v != u ==> r[v] == all[v]
  {
    all[u := ts]
  }

  /** Reading back what was just saved gives it, and the other users' lists are untouched. */
  lemma GetAfterSave(all: map<string, seq<Task>>, u: string, ts: seq<Task>, v: string)
    ensures UserTasks(SaveUserTasks(all, u, ts), u) == ts
    ensures v != u ==> UserTasks(SaveUserTasks(all, u, ts), v) == UserTasks(all, v)
  {
  }

  /** Saving a user's own stored list again changes nothing but the presence of the key. */
  lemma SaveLoadedIsNoop(all: map<string, seq<Task>>, u: string)
    ensures u in all ==> SaveUserTasks(all, u, UserTasks(all, u)) == all
  {
  }

  /** The direction `sortTasks` uses when none is given. */
  function SortDirection(dir: Option<Direction>): (d: Direction)
    ensures dir.None? ==> d == Desc
    ensures dir.Some? ==> d == dir.value
  {
    dir.GetOr(Desc)
  }

  class TaskProvider {
    /** The id of the authenticated user, if any. */
    var user: Option<string>
    /** The task list on display. */
    var tasks: seq<Task>
    /** The persisted dictionary from user id to task list. */
    var allTasks: map<string, seq<Task>>

    /** Once the effects have run, the persisted entry of the current user is the list on display. */
    ghost predicate Valid()
      reads this
    {
      user.Some? ==> user.value in allTasks && allTasks[user.value] == tasks
    }

    /** Mounting with `stored` persisted and `u` signed in runs the load effect once. */
    constructor(stored: map<string, seq<Task>>, u: Option<string>)
      ensures Valid()
      ensures user == u
      ensures u.None? ==> tasks == [] && allTasks == stored
      ensures u.Some? ==> tasks == UserTasks(stored, u.value) && allTasks == SaveUserTasks(stored, u.value, tasks)
    {
      user := u;
      if u.Some? {
        tasks := UserTasks(stored, u.value);
        allTasks := SaveUserTasks(stored, u.value, UserTasks(stored, u.value));
      } else {
        tasks := [];
        allTasks := stored;
      }
    }

    /** The load effect when the signed-in user changes: show that user's stored list, or nothing. */
    method UserChanged(u: Option<string>)
      modifies this
      requires Valid()
      ensures Valid()
      ensures user == u
      ensures u == old(user) ==> tasks == old(tasks) && allTasks == old(allTasks)
      ensures u != old(user) && u.None? ==> tasks == [] && allTasks == old(allTasks)
      ensures u != old(user) && u.Some? ==>
        tasks == UserTasks(old(allTasks), u.value) && allTasks == SaveUserTasks(old(allTasks), u.value, tasks)
    {
      if u != user {
        user := u;
        if u.Some? {
          tasks := UserTasks(allTasks, u.value);
          allTasks := SaveUserTasks(allTasks, u.value, tasks);
        } else {
          tasks := [];
        }
      }
    }

    /** Replaces the list and runs the save effect; nothing happens without a signed-in user. */
    method Commit(ts: seq<Task>)
      modifies this
      requires Valid()
      ensures Valid()
      ensures user == old(user)
      ensures old(user).None? ==> tasks == old(tasks) && allTasks == old(allTasks)
      ensures old(user).Some? ==> tasks == ts && allTasks == SaveUserTasks(old(allTasks), user.value, ts)
    {
      if user.Some? {
        tasks := ts;
        allTasks := SaveUserTasks(allTasks, user.value, ts);
      }
    }

    method AddTask(payload: Task)
      modifies this
      requires Valid()
      ensures Valid()
      ensures user == old(user)
      ensures old(user).None? ==> tasks == old(tasks) && allTasks == old(allTasks)
      ensures old(user).Some? ==>
        tasks == TaskList.AddTask(old(tasks), payload) && allTasks == SaveUserTasks(old(allTasks), user.value, tasks)
    {
      Commit(TaskList.AddTask(tasks, payload));
    }

    method EditTask(id: Option<string>, payload: TaskList.TaskPatch)
      modifies this
      requires Valid()
      ensures Valid()
      ensures user == old(user)
      ensures old(user).None? ==> tasks == old(tasks) && allTasks == old(allTasks)
      ensures old(user).Some? ==>
        tasks == TaskList.EditTask(old(tasks), id, payload) && allTasks == SaveUserTasks(old(allTasks), user.value, tasks)
    {
      Commit(TaskList.EditTask(tasks, id, payload));
    }

    method DeleteTask(id: Option<string>)
      modifies this
      requires Valid()
      ensures Valid()
      ensures user == old(user)
      ensures old(user).None? ==> tasks == old(tasks) && allTasks == old(allTasks)
      ensures old(user).Some? ==>
        tasks == TaskList.DeleteTask(old(tasks), id) && allTasks == SaveUserTasks(old(allTasks), user.value, tasks)
    {
      Commit(TaskList.DeleteTask(tasks, id));
    }

    method UpdateTaskStatus(id: Option<string>, status: Status)
      modifies this
      requires Valid()
      ensures Valid()
      ensures user == old(user)
      ensures old(user).None? ==> tasks == old(tasks) && allTasks == old(allTasks)
      ensures old(user).Some? ==>
        tasks == TaskList.SetStatus(old(tasks), id, status) && allTasks == SaveUserTasks(old(allTasks), user.value, tasks)
    {
      Commit(TaskList.SetStatus(tasks, id, status));
    }

    method UpdateTaskPriority(id: Option<string>, priority: Priority)
      modifies this
      requires Valid()
      ensures Valid()
      ensures user == old(user)
      ensures old(user).None? ==> tasks == old(tasks) && allTasks == old(allTasks)
      ensures old(user).Some? ==>
        tasks == TaskList.SetPriority(old(tasks), id, priority) && allTasks == SaveUserTasks(old(allTasks), user.value, tasks)
    {
      Commit(TaskList.SetPriority(tasks, id, priority));
    }

    /** `dir` absent stands for calling without an argument. */
    method SortTasks(dir: Option<Direction>)
      modifies this
      requires Valid()
      ensures Valid()
      ensures user == old(user)
      ensures old(user).None? ==> tasks == old(tasks) && allTasks == old(allTasks)
      ensures old(user).Some? ==>
        tasks == TaskList.SortByPriority(old(tasks), SortDirection(dir))
        && allTasks == SaveUserTasks(old(allTasks), user.value, tasks)
    {
      Commit(TaskList.SortByPriority(tasks, SortDirection(dir)));
    }
  }

  /** Adding a task and then deleting its id leaves the store with what deleting alone leaves. */
  method AddThenDelete(p: TaskProvider, payload: Task)
    modifies p
    requires p.Valid() && p.user.Some?
    ensures p.Valid() && p.user == old(p.user)
    ensures p.tasks == TaskList.DeleteTask(old(p.tasks), payload.id)
    ensures p.allTasks == SaveUserTasks(old(p.allTasks), p.user.value, p.tasks)
  {
    p.AddTask(payload);
    p.DeleteTask(payload.id);
    TaskList.DeleteUndoesAdd(old(p.tasks), payload);
  }

  /** Switching away from a user and back shows that user's list as it was left. */
  method SwitchAndBack(p: TaskProvider, other: Option<string>)
    modifies p
    requires p.Valid() && p.user.Some? && other != p.user
    ensures p.Valid()
    ensures p.user == old(p.user) && p.tasks == old(p.tasks)
  {
    var u := p.user;
    p.UserChanged(other);
    p.UserChanged(u);
  }
}
