/** The task store of src/features/tasks/hooks/useTasks.ts: the `taskList`
    atom as a class field, each mutator as a method, and the values the
    mutators compute as functions whose contracts say what they promise. */
module TaskStore {
  import opened Types
  import opened Seqs
  import Rounding

  /** The fields a caller supplies when creating a task
      (`Omit<Task, 'id' | 'createdAt' | 'updatedAt' | 'subTasks' | 'progress'>`)
      or a subtask (`Omit<Subtask, 'id' | 'createdAt' | 'updatedAt'>`). */
  datatype Draft = Draft(
    name: string,
    description: string,
    category: Category,
    deadline: string,
    isDone: bool,
    isImportant: bool)

  /** `Partial<Task>`: a field that is `None` is absent from the update.
      `updatedAt` is left out because `updateTask` always overwrites it. */
  datatype TaskPatch = TaskPatch(
    id: Option<int>,
    name: Option<string>,
    description: Option<string>,
    category: Option<Category>,
    deadline: Option<string>,
    isDone: Option<bool>,
    isImportant: Option<bool>,
    createdAt: Option<string>,
    subTasks: Option<seq<Subtask>>,
    progress: Option<int>)

  /** `Partial<Subtask>`, again without the overwritten `updatedAt`. */
  datatype SubtaskPatch = SubtaskPatch(
    id: Option<int>,
    name: Option<string>,
    description: Option<string>,
    category: Option<Category>,
    deadline: Option<string>,
    isDone: Option<bool>,
    isImportant: Option<bool>,
    createdAt: Option<string>)

  const NoTaskChange: TaskPatch :=
    TaskPatch(None, None, None, None, None, None, None, None, None, None)

  const NoSubtaskChange: SubtaskPatch :=
    SubtaskPatch(None, None, None, None, None, None, None, None)

  /** `{ name, description, category, deadline }`, what the edit forms send. */
  function DetailsPatch(name: string, description: string, category: Category, deadline: string): TaskPatch
  {
    NoTaskChange.(name := Some(name), description := Some(description),
                  category := Some(category), deadline := Some(deadline))
  }

  function SubtaskDetailsPatch(name: string, description: string, category: Category, deadline: string): SubtaskPatch
  {
    NoSubtaskChange.(name := Some(name), description := Some(description),
                     category := Some(category), deadline := Some(deadline))
  }

  function Pick<T>(o: Option<T>, current: T): T
  {
    if o.Some? then o.value else current
  }

  /** `{ ...task, ...updates, updatedAt: now }`. */
  function MergeTask(t: Task, u: TaskPatch, now: string): Task
  {
    Task(Pick(u.id, t.id), Pick(u.name, t.name), Pick(u.description, t.description),
         Pick(u.category, t.category), Pick(u.deadline, t.deadline), Pick(u.isDone, t.isDone),
         Pick(u.isImportant, t.isImportant), Pick(u.createdAt, t.createdAt), now,
         Pick(u.subTasks, t.subTasks), Pick(u.progress, t.progress))
  }

  /** `{ ...subtask, ...updates, updatedAt: now }`. */
  function MergeSubtask(s: Subtask, u: SubtaskPatch, now: string): Subtask
  {
    Subtask(Pick(u.id, s.id), Pick(u.name, s.name), Pick(u.description, s.description),
            Pick(u.category, s.category), Pick(u.deadline, s.deadline), Pick(u.isDone, s.isDone),
            Pick(u.isImportant, s.isImportant), Pick(u.createdAt, s.createdAt), now)
  }

  /** The task carries exactly the caller-supplied fields of the draft. */
  predicate TaskCarries(t: Task, d: Draft)
  {
    t.name == d.name && t.description == d.description && t.category == d.category
    && t.deadline == d.deadline && t.isDone == d.isDone && t.isImportant == d.isImportant
  }

  predicate SubtaskCarries(s: Subtask, d: Draft)
  {
    s.name == d.name && s.description == d.description && s.category == d.category
    && s.deadline == d.deadline && s.isDone == d.isDone && s.isImportant == d.isImportant
  }

  /** `a` and `b` agree on every field except `subTasks` and `updatedAt`. */
  predicate SameExceptChildren(a: Task, b: Task)
  {
    a.(subTasks := b.subTasks, updatedAt := b.updatedAt) == b
  }

  // ---------------------------------------------------------------- addTask

  function NewTask(d: Draft, id: int, now: string): Task
  {
    Task(id, d.name, d.description, d.category, d.deadline, d.isDone, d.isImportant,
         now, now, [], 0)
  }

  /** `[...prev, newTask]`: one task appended at the end, carrying the draft,
      the fresh id, no subtasks, progress 0 and equal timestamps. */
  function TaskAdded(ts: seq<Task>, d: Draft, id: int, now: string): (r: seq<Task>)
    ensures |r| == |ts| + 1 && r[..|ts|] == ts
    ensures TaskCarries(r[|ts|], d) && r[|ts|].id == id
    ensures r[|ts|].subTasks == [] && r[|ts|].progress == 0
    ensures r[|ts|].createdAt == r[|ts|].updatedAt == now
  {
    ts + [NewTask(d, id, now)]
  }

  // ------------------------------------------------------------- updateTask

  /** `prev.map(task => task.id === taskId ? merged : task)`. */
  function TasksUpdated(ts: seq<Task>, id: int, u: TaskPatch, now: string): (r: seq<Task>)
    ensures |r| == |ts|
    ensures forall i :: 0 <= i < |ts| && ts[i].id != id ==> r[i] == ts[i]
    ensures forall i :: 0 <= i < |ts| && ts[i].id == id ==>
              r[i] == MergeTask(ts[i], u, now) && r[i].updatedAt == now
    ensures IdFresh(ts, id) ==> r == ts
  {
    seq(|ts|, i requires 0 <= i < |ts| => if ts[i].id == id then MergeTask(ts[i], u, now) else ts[i])
  }

  // ------------------------------------------------------------- deleteTask

  /** `prev.filter(task => task.id !== taskId)`: every task with the id goes,
      the others stay in order, and an absent id changes nothing. */
  function TaskDeleted(ts: seq<Task>, id: int): (r: seq<Task>)
    ensures IsSubseq(r, ts)
    ensures forall i :: 0 <= i < |r| ==> r[i].id != id
    ensures forall i :: 0 <= i < |ts| && ts[i].id != id ==> ts[i] in r
    ensures |r| == |ts| - Count(ts, TaskHasId(id))
    ensures IdFresh(ts, id) ==> r == ts
  {
    FilterIsSubseq(ts, TaskLacksId(id));
    FilterSplit(ts, TaskLacksId(id), TaskHasId(id));
    var r := Filter(ts, TaskLacksId(id));
    if IdFresh(ts, id) then FilterAll(ts, TaskLacksId(id)); r else r
  }

  // ---------------------------------------------------------- duplicateTask

  const CopySuffix: string := " (copia)"

  /** `taskList.find(task => task.id === taskId)`. */
  function FindTask(ts: seq<Task>, id: int): (r: Option<Task>)
    ensures r.None? <==> IdFresh(ts, id)
    ensures r.Some? ==> r.value == ts[FirstIndex(ts, TaskHasId(id))] && r.value.id == id
  {
    var k := FirstIndex(ts, TaskHasId(id));
    if k < |ts| then Some(ts[k]) else None
  }

  /** `c` is the duplicate of `t`: new id, suffixed name, not done, fresh
      timestamps, and every other field (subtasks included) kept. */
  predicate IsCopyOf(c: Task, t: Task, newId: int, now: string)
  {
    c.id == newId && c.name == t.name + CopySuffix && !c.isDone
    && c.description == t.description && c.category == t.category
    && c.deadline == t.deadline && c.isImportant == t.isImportant
    && c.subTasks == t.subTasks && c.progress == t.progress
    && c.createdAt == now && c.updatedAt == now
  }

  /** A present id appends a copy of the first task with that id; an absent
      id changes nothing. */
  function Duplicated(ts: seq<Task>, id: int, newId: int, now: string): (r: seq<Task>)
    ensures IdFresh(ts, id) ==> r == ts
    ensures !IdFresh(ts, id) ==>
              |r| == |ts| + 1 && r[..|ts|] == ts
              && IsCopyOf(r[|ts|], ts[FirstIndex(ts, TaskHasId(id))], newId, now)
  {
    match FindTask(ts, id)
    case None => ts
    case Some(t) =>
      ts + [t.(id := newId, name := t.name + CopySuffix, isDone := false,
               createdAt := now, updatedAt := now)]
  }

  // ---------------------------------------------- toggleTaskComplete/Important

  /** `updateTask(id, { isDone: !taskList.find(...)?.isDone })`. The flag is
      read from the first task with the id (`!undefined` is `true`, but an
      absent id updates nothing). */
  function ToggledComplete(ts: seq<Task>, id: int, now: string): (r: seq<Task>)
    ensures |r| == |ts|
    ensures forall i :: 0 <= i < |ts| ==> r[i].id == ts[i].id
    ensures forall i :: 0 <= i < |ts| && ts[i].id != id ==> r[i] == ts[i]
    ensures forall i :: 0 <= i < |ts| && ts[i].id == id ==>
              r[i] == ts[i].(isDone := !ts[FirstIndex(ts, TaskHasId(id))].isDone, updatedAt := now)
    ensures IdFresh(ts, id) ==> r == ts
  {
    var found := FindTask(ts, id);
    var flag := if found.Some? then !found.value.isDone else true;
    TasksUpdated(ts, id, NoTaskChange.(isDone := Some(flag)), now)
  }

  /** The same for `isImportant`. */
  function ToggledImportant(ts: seq<Task>, id: int, now: string): (r: seq<Task>)
    ensures |r| == |ts|
    ensures forall i :: 0 <= i < |ts| ==> r[i].id == ts[i].id
    ensures forall i :: 0 <= i < |ts| && ts[i].id != id ==> r[i] == ts[i]
    ensures forall i :: 0 <= i < |ts| && ts[i].id == id ==>
              r[i] == ts[i].(isImportant := !ts[FirstIndex(ts, TaskHasId(id))].isImportant, updatedAt := now)
    ensures IdFresh(ts, id) ==> r == ts
  {
    var found := FindTask(ts, id);
    var flag := if found.Some? then !found.value.isImportant else true;
    TasksUpdated(ts, id, NoTaskChange.(isImportant := Some(flag)), now)
  }

  /** With distinct ids the first match is the only match. */
  lemma FirstMatchIsOnly(ts: seq<Task>, id: int, i: int)
    requires IdsDistinct(ts) && 0 <= i < |ts| && ts[i].id == id
    ensures FirstIndex(ts, TaskHasId(id)) == i
  {
  }

  /** Toggling completion twice restores every task: only the matching
      task's `updatedAt` keeps the second timestamp. */
  lemma ToggleCompleteTwice(ts: seq<Task>, id: int, now1: string, now2: string)
    requires IdsDistinct(ts)
    ensures var r := ToggledComplete(ToggledComplete(ts, id, now1), id, now2);
            |r| == |ts| &&
            forall i :: 0 <= i < |ts| ==> r[i] == if ts[i].id == id then ts[i].(updatedAt := now2) else ts[i]
  {
    var r1 := ToggledComplete(ts, id, now1);
    var r := ToggledComplete(r1, id, now2);
    assert IdsDistinct(r1);
    forall i | 0 <= i < |ts| && ts[i].id == id
      ensures r[i] == ts[i].(updatedAt := now2)
    {
      FirstMatchIsOnly(ts, id, i);
      FirstMatchIsOnly(r1, id, i);
    }
  }

  /** Toggling importance twice restores every task in the same way. */
  lemma ToggleImportantTwice(ts: seq<Task>, id: int, now1: string, now2: string)
    requires IdsDistinct(ts)
    ensures var r := ToggledImportant(ToggledImportant(ts, id, now1), id, now2);
            |r| == |ts| &&
            forall i :: 0 <= i < |ts| ==> r[i] == if ts[i].id == id then ts[i].(updatedAt := now2) else ts[i]
  {
    var r1 := ToggledImportant(ts, id, now1);
    var r := ToggledImportant(r1, id, now2);
    assert IdsDistinct(r1);
    forall i | 0 <= i < |ts| && ts[i].id == id
      ensures r[i] == ts[i].(updatedAt := now2)
    {
      FirstMatchIsOnly(ts, id, i);
      FirstMatchIsOnly(r1, id, i);
    }
  }

  // ------------------------------------------------------------ addSubtask

  function NewSubtask(d: Draft, id: int, now: string): Subtask
  {
    Subtask(id, d.name, d.description, d.category, d.deadline, d.isDone, d.isImportant, now, now)
  }

  /** The matching parents get the new subtask at the end of their list and
      the new `updatedAt`; nothing else changes. */
  function SubtaskAdded(ts: seq<Task>, taskId: int, d: Draft, sid: int, now: string): (r: seq<Task>)
    ensures |r| == |ts|
    ensures forall i :: 0 <= i < |ts| && ts[i].id != taskId ==> r[i] == ts[i]
    ensures forall i :: 0 <= i < |ts| && ts[i].id == taskId ==>
              var old_ := ts[i].subTasks; var new_ := r[i].subTasks;
              SameExceptChildren(r[i], ts[i]) && r[i].updatedAt == now
              && |new_| == |old_| + 1 && new_[..|old_|] == old_
              && SubtaskCarries(new_[|old_|], d) && new_[|old_|].id == sid
              && new_[|old_|].createdAt == new_[|old_|].updatedAt == now
    ensures IdFresh(ts, taskId) ==> r == ts
  {
    seq(|ts|, i requires 0 <= i < |ts| =>
      if ts[i].id == taskId
      then ts[i].(subTasks := ts[i].subTasks + [NewSubtask(d, sid, now)], updatedAt := now)
      else ts[i])
  }

  // --------------------------------------------------------- updateSubtask

  /** `task.subTasks.map(subtask => subtask.id === subtaskId ? merged : subtask)`. */
  function SubtasksUpdated(ss: seq<Subtask>, sid: int, u: SubtaskPatch, now: string): (r: seq<Subtask>)
    ensures |r| == |ss|
    ensures forall j :: 0 <= j < |ss| && ss[j].id != sid ==> r[j] == ss[j]
    ensures forall j :: 0 <= j < |ss| && ss[j].id == sid ==> r[j] == MergeSubtask(ss[j], u, now)
  {
    seq(|ss|, j requires 0 <= j < |ss| => if ss[j].id == sid then MergeSubtask(ss[j], u, now) else ss[j])
  }

  /** Within the matching parents only, the matching subtasks are merged
      with the update; each matching parent's `updatedAt` is bumped even when
      no subtask matches. */
  function SubtaskUpdated(ts: seq<Task>, taskId: int, sid: int, u: SubtaskPatch, now: string): (r: seq<Task>)
    ensures |r| == |ts|
    ensures forall i :: 0 <= i < |ts| && ts[i].id != taskId ==> r[i] == ts[i]
    ensures forall i :: 0 <= i < |ts| && ts[i].id == taskId ==>
              SameExceptChildren(r[i], ts[i]) && r[i].updatedAt == now
              && r[i].subTasks == SubtasksUpdated(ts[i].subTasks, sid, u, now)
    ensures IdFresh(ts, taskId) ==> r == ts
  {
    seq(|ts|, i requires 0 <= i < |ts| =>
      if ts[i].id == taskId
      then ts[i].(subTasks := SubtasksUpdated(ts[i].subTasks, sid, u, now), updatedAt := now)
      else ts[i])
  }

  // --------------------------------------------------------- deleteSubtask

  /** The matching parents lose every subtask with `sid` (the rest keep their
      order) and get the new `updatedAt`; no other task changes. */
  function SubtaskDeleted(ts: seq<Task>, taskId: int, sid: int, now: string): (r: seq<Task>)
    ensures |r| == |ts|
    ensures forall i :: 0 <= i < |ts| && ts[i].id != taskId ==> r[i] == ts[i]
    ensures forall i :: 0 <= i < |ts| && ts[i].id == taskId ==>
              SameExceptChildren(r[i], ts[i]) && r[i].updatedAt == now
              && r[i].subTasks == Filter(ts[i].subTasks, SubtaskLacksId(sid))
              && IsSubseq(r[i].subTasks, ts[i].subTasks)
              && (forall j :: 0 <= j < |r[i].subTasks| ==> r[i].subTasks[j].id != sid)
    ensures IdFresh(ts, taskId) ==> r == ts
  {
    forall i | 0 <= i < |ts| ensures IsSubseq(Filter(ts[i].subTasks, SubtaskLacksId(sid)), ts[i].subTasks) {
      FilterIsSubseq(ts[i].subTasks, SubtaskLacksId(sid));
    }
    seq(|ts|, i requires 0 <= i < |ts| =>
      if ts[i].id == taskId
      then ts[i].(subTasks := Filter(ts[i].subTasks, SubtaskLacksId(sid)), updatedAt := now)
      else ts[i])
  }

  // ------------------------------------------------- toggleSubtaskComplete

  /** `task?.subTasks.find(st => st.id === subtaskId)` on the first task with
      `taskId`. */
  function FindSubtask(ts: seq<Task>, taskId: int, sid: int): (r: Option<Subtask>)
    ensures r.Some? ==> (!IdFresh(ts, taskId) && r.value.id == sid
                         && r.value in ts[FirstIndex(ts, TaskHasId(taskId))].subTasks)
    ensures r.None? && !IdFresh(ts, taskId) ==>
              forall j :: 0 <= j < |ts[FirstIndex(ts, TaskHasId(taskId))].subTasks| ==>
                ts[FirstIndex(ts, TaskHasId(taskId))].subTasks[j].id != sid
    ensures IdFresh(ts, taskId) ==> r.None?
    ensures r.Some? ==>
              var ss := ts[FirstIndex(ts, TaskHasId(taskId))].subTasks;
              FirstIndex(ss, SubtaskHasId(sid)) < |ss| && r.value == ss[FirstIndex(ss, SubtaskHasId(sid))]
  {
    match FindTask(ts, taskId)
    case None => None
    case Some(t) =>
      var k := FirstIndex(t.subTasks, SubtaskHasId(sid));
      if k < |t.subTasks| then Some(t.subTasks[k]) else None
  }

  /** Flips `isDone` of the found subtask through `updateSubtask`; a missing
      task or subtask leaves the list untouched. */
  function SubtaskToggled(ts: seq<Task>, taskId: int, sid: int, now: string): (r: seq<Task>)
    ensures FindSubtask(ts, taskId, sid).None? ==> r == ts
    ensures |r| == |ts|
    ensures forall i :: 0 <= i < |ts| && ts[i].id != taskId ==> r[i] == ts[i]
    ensures FindSubtask(ts, taskId, sid).Some? ==>
              forall i :: 0 <= i < |ts| && ts[i].id == taskId ==>
                SameExceptChildren(r[i], ts[i]) && r[i].updatedAt == now
                && |r[i].subTasks| == |ts[i].subTasks|
    ensures FindSubtask(ts, taskId, sid).Some? ==>
              forall i, j :: 0 <= i < |ts| && ts[i].id == taskId && 0 <= j < |ts[i].subTasks| ==>
                r[i].subTasks[j] == if ts[i].subTasks[j].id == sid
                  then ts[i].subTasks[j].(isDone := !FindSubtask(ts, taskId, sid).value.isDone, updatedAt := now)
                  else ts[i].subTasks[j]
  {
    match FindSubtask(ts, taskId, sid)
    case None => ts
    case Some(st) => SubtaskUpdated(ts, taskId, sid, NoSubtaskChange.(isDone := Some(!st.isDone)), now)
  }

  /** No two subtasks of one list share an identifier. */
  predicate SubtaskIdsDistinct(ss: seq<Subtask>)
  {
    forall i, j :: 0 <= i < j < |ss| ==> ss[i].id != ss[j].id
  }

  /** With distinct ids, toggling a present subtask flips exactly its
      `isDone` (and sets its and its parent's `updatedAt`). */
  lemma SubtaskToggleFlips(ts: seq<Task>, taskId: int, sid: int, now: string, i: int, j: int)
    requires IdsDistinct(ts) && 0 <= i < |ts| && ts[i].id == taskId
    requires SubtaskIdsDistinct(ts[i].subTasks)
    requires 0 <= j < |ts[i].subTasks| && ts[i].subTasks[j].id == sid
    ensures var r := SubtaskToggled(ts, taskId, sid, now);
            var s := ts[i].subTasks[j];
            SameExceptChildren(r[i], ts[i]) && r[i].updatedAt == now
            && |r[i].subTasks| == |ts[i].subTasks|
            && r[i].subTasks[j] == s.(isDone := !s.isDone, updatedAt := now)
            && forall j' :: 0 <= j' < |ts[i].subTasks| && j' != j ==> r[i].subTasks[j'] == ts[i].subTasks[j']
  {
    FirstMatchIsOnly(ts, taskId, i);
    var ss := ts[i].subTasks;
    var k := FirstIndex(ss, SubtaskHasId(sid));
    assert k == j;
  }

  // ------------------------------------------------------ getFilteredTasks

  /** The three supplied non-date filters all hold of `t`. */
  predicate MatchesFilters(t: Task, f: TaskFilters)
  {
    && (f.category.Some? ==> t.category == f.category.value)
    && (f.isImportant.Some? ==> t.isImportant == f.isImportant.value)
    && (f.isDone.Some? ==> t.isDone == f.isDone.value)
  }

  function FilterMatch(f: TaskFilters): Task -> bool
  {
    (t: Task) => MatchesFilters(t, f)
  }

  /** An order-preserving subsequence holding exactly the tasks that meet
      every supplied filter; no filters at all gives back the whole list. */
  function FilteredTasks(ts: seq<Task>, f: TaskFilters): (r: seq<Task>)
    ensures IsSubseq(r, ts)
    ensures forall i :: 0 <= i < |r| ==> MatchesFilters(r[i], f)
    ensures forall i :: 0 <= i < |ts| && MatchesFilters(ts[i], f) ==> ts[i] in r
    ensures |r| == Count(ts, FilterMatch(f))
    ensures f == TaskFilters(None, None, None) ==> r == ts
  {
    FilterIsSubseq(ts, FilterMatch(f));
    var r := Filter(ts, FilterMatch(f));
    if f == TaskFilters(None, None, None) then FilterAll(ts, FilterMatch(f)); r else r
  }

  // ----------------------------------------------------------------- stats

  /** `stats` without `overdue`. */
  datatype TaskStats = TaskStats(total: nat, completed: nat, active: int, important: nat, completionRate: nat)

  predicate IsImportantPending(t: Task) { t.isImportant && !t.isDone }

  /** `completed + active = total = |ts|`, `active` is the number of undone
      tasks, `important` never exceeds it, and the completion rate is 0 for
      an empty list and a percentage otherwise (100 when all are done). */
  function StatsOf(ts: seq<Task>): (s: TaskStats)
    ensures s.total == |ts| && s.completed + s.active == s.total
    ensures s.completed == Count(ts, IsDoneTask) && s.active == Count(ts, IsActiveTask)
    ensures s.important == Count(ts, IsImportantPending) && s.important <= s.active
    ensures s.total == 0 ==> s.completionRate == 0
    ensures s.completionRate <= 100
    ensures s.total > 0 && s.completed == s.total ==> s.completionRate == 100
    ensures s.total > 0 ==> s.completionRate == Rounding.Percent(s.completed, s.total)
  {
    var total := |ts|;
    var completed := |Filter(ts, IsDoneTask)|;
    FilterSplit(ts, IsDoneTask, IsActiveTask);
    FilterMono(ts, IsImportantPending, IsActiveTask);
    TaskStats(total, completed, total - completed, |Filter(ts, IsImportantPending)|,
              if total > 0 then Rounding.Percent(completed, total) else 0)
  }

  /** After `deleteAllTasks` every statistic is 0. */
  lemma StatsAfterDeleteAll()
    ensures StatsOf([]) == TaskStats(0, 0, 0, 0, 0)
  {
  }

  // ------------------------------------------------------------ id freshness

  /** With a fresh id, adding keeps the identifiers distinct. */
  lemma AddKeepsIdsDistinct(ts: seq<Task>, d: Draft, id: int, now: string)
    requires IdsDistinct(ts) && IdFresh(ts, id)
    ensures IdsDistinct(TaskAdded(ts, d, id, now))
  {
  }

  /** With a fresh id, duplicating keeps the identifiers distinct, and the
      copy's id differs from the original's. */
  lemma DuplicateKeepsIdsDistinct(ts: seq<Task>, id: int, newId: int, now: string)
    requires IdsDistinct(ts) && IdFresh(ts, newId)
    ensures IdsDistinct(Duplicated(ts, id, newId, now))
  {
  }

  /** Deleting keeps the identifiers distinct. */
  lemma {:induction false} DeleteKeepsIdsDistinct(ts: seq<Task>, id: int)
    requires IdsDistinct(ts)
    ensures IdsDistinct(TaskDeleted(ts, id))
  {
    SubseqKeepsIdsDistinct(TaskDeleted(ts, id), ts);
  }

  lemma {:induction false} SubseqKeepsIdsDistinct(a: seq<Task>, b: seq<Task>)
    requires IsSubseq(a, b) && IdsDistinct(b)
    ensures IdsDistinct(a)
  {
    if a != [] && b != [] {
      if a[0] == b[0] {
        SubseqKeepsIdsDistinct(a[1..], b[1..]);
        SubseqMembers(a[1..], b[1..]);
        forall j | 0 < j < |a| ensures a[0].id != a[j].id {
          assert a[j] == a[1..][j - 1];
          assert a[j] in b[1..];
          var k :| 0 <= k < |b[1..]| && b[1..][k] == a[j];
          assert b[k + 1] == a[j];
        }
      } else {
        SubseqKeepsIdsDistinct(a, b[1..]);
      }
    }
  }

  // --------------------------------------------------------------- the store

  /** The `taskList` atom and the mutators of `useTasks`. The clock and the id
      generator are parameters (`now`, `id`). */
  class Store {
    var tasks: seq<Task>

    /** The atom's default value. */
    constructor ()
      ensures tasks == []
    {
      tasks := [];
    }

    method AddTask(d: Draft, id: int, now: string)
      modifies this
      ensures tasks == TaskAdded(old(tasks), d, id, now)
    {
      tasks := tasks + [NewTask(d, id, now)];
    }

    method UpdateTask(id: int, u: TaskPatch, now: string)
      modifies this
      ensures tasks == TasksUpdated(old(tasks), id, u, now)
    {
      tasks := TasksUpdated(tasks, id, u, now);
    }

    method DeleteTask(id: int)
      modifies this
      ensures tasks == TaskDeleted(old(tasks), id)
    {
      tasks := TaskDeleted(tasks, id);
    }

    method DeleteAllTasks()
      modifies this
      ensures tasks == []
    {
      tasks := [];
    }

    method DuplicateTask(id: int, newId: int, now: string)
      modifies this
      ensures tasks == Duplicated(old(tasks), id, newId, now)
    {
      var found := FindTask(tasks, id);
      if found.Some? {
        var t := found.value;
        var copy := t.(id := newId, name := t.name + CopySuffix, isDone := false,
                       createdAt := now, updatedAt := now);
        tasks := tasks + [copy];
      }
    }

    /** Reads the current flag, then writes its negation through `updateTask`. */
    method ToggleTaskComplete(id: int, now: string)
      modifies this
      ensures tasks == ToggledComplete(old(tasks), id, now)
    {
      var found := FindTask(tasks, id);
      var flag := if found.Some? then !found.value.isDone else true;
      UpdateTask(id, NoTaskChange.(isDone := Some(flag)), now);
    }

    method ToggleTaskImportant(id: int, now: string)
      modifies this
      ensures tasks == ToggledImportant(old(tasks), id, now)
    {
      var found := FindTask(tasks, id);
      var flag := if found.Some? then !found.value.isImportant else true;
      UpdateTask(id, NoTaskChange.(isImportant := Some(flag)), now);
    }

    method AddSubtask(taskId: int, d: Draft, sid: int, now: string)
      modifies this
      ensures tasks == SubtaskAdded(old(tasks), taskId, d, sid, now)
    {
      tasks := SubtaskAdded(tasks, taskId, d, sid, now);
    }

    method UpdateSubtask(taskId: int, sid: int, u: SubtaskPatch, now: string)
      modifies this
      ensures tasks == SubtaskUpdated(old(tasks), taskId, sid, u, now)
    {
      tasks := SubtaskUpdated(tasks, taskId, sid, u, now);
    }

    method DeleteSubtask(taskId: int, sid: int, now: string)
      modifies this
      ensures tasks == SubtaskDeleted(old(tasks), taskId, sid, now)
    {
      tasks := SubtaskDeleted(tasks, taskId, sid, now);
    }

    /** Looks the subtask up and, only if it exists, writes its negated flag. */
    method ToggleSubtaskComplete(taskId: int, sid: int, now: string)
      modifies this
      ensures tasks == SubtaskToggled(old(tasks), taskId, sid, now)
    {
      var st := FindSubtask(tasks, taskId, sid);
      if st.Some? {
        UpdateSubtask(taskId, sid, NoSubtaskChange.(isDone := Some(!st.value.isDone)), now);
      }
    }
  }
}
