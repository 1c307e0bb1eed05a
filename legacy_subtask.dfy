/** The legacy subtask row of src/components/SubTask.tsx. Each handler walks
    the whole legacy task list and rewrites the `subTasks` of every task,
    matching subtasks by id alone, whatever their parent. */
module LegacySubTaskView {
  import opened Types
  import opened Seqs
  import opened LegacyState

  // ------------------------------------------------- rewrites of one list

  function LacksId(sid: int): LegacySubtask -> bool
  {
    (s: LegacySubtask) => s.id != sid
  }

  function HasSubtaskId(sid: int): LegacySubtask -> bool
  {
    (s: LegacySubtask) => s.id == sid
  }

  /** `subTasks.filter(item => item.id !== subtask.id)`. */
  function WithoutId(ss: seq<LegacySubtask>, sid: int): (r: seq<LegacySubtask>)
    ensures IsSubseq(r, ss)
    ensures forall j :: 0 <= j < |r| ==> r[j].id != sid
    ensures forall j :: 0 <= j < |ss| && ss[j].id != sid ==> ss[j] in r
    ensures |r| == |ss| - Count(ss, HasSubtaskId(sid))
  {
    FilterIsSubseq(ss, LacksId(sid));
    FilterSplit(ss, LacksId(sid), HasSubtaskId(sid));
    Filter(ss, LacksId(sid))
  }

  /** The `isDone` flip of `handleCheckbox`: only `isDone` can change, and it
      changes exactly on the subtasks with the id. */
  function FlipDone(ss: seq<LegacySubtask>, sid: int): (r: seq<LegacySubtask>)
    ensures |r| == |ss|
    ensures forall j :: 0 <= j < |ss| ==> r[j].(isDone := ss[j].isDone) == ss[j]
    ensures forall j :: 0 <= j < |ss| ==> (r[j].isDone != ss[j].isDone <==> ss[j].id == sid)
  {
    seq(|ss|, j requires 0 <= j < |ss| =>
      if ss[j].id == sid then ss[j].(isDone := !ss[j].isDone) else ss[j])
  }

  /** The `isImportant` flip of `handleImportant`, in the same terms. */
  function FlipImportant(ss: seq<LegacySubtask>, sid: int): (r: seq<LegacySubtask>)
    ensures |r| == |ss|
    ensures forall j :: 0 <= j < |ss| ==> r[j].(isImportant := ss[j].isImportant) == ss[j]
    ensures forall j :: 0 <= j < |ss| ==> (r[j].isImportant != ss[j].isImportant <==> ss[j].id == sid)
  {
    seq(|ss|, j requires 0 <= j < |ss| =>
      if ss[j].id == sid then ss[j].(isImportant := !ss[j].isImportant) else ss[j])
  }

  /** The overwrite of `handleEdit`: subtasks with the id take the four edited
      fields (with no check on the title) and keep id, `isDone` and
      `isImportant`; the others are unchanged. */
  function EditDetails(ss: seq<LegacySubtask>, sid: int, name: string, description: string,
                       category: Category, deadline: string): (r: seq<LegacySubtask>)
    ensures |r| == |ss|
    ensures forall j :: 0 <= j < |ss| && ss[j].id != sid ==> r[j] == ss[j]
    ensures forall j :: 0 <= j < |ss| && ss[j].id == sid ==>
              r[j].name == name && r[j].description == description
              && r[j].category == category && r[j].deadline == deadline
              && r[j].id == sid && r[j].isDone == ss[j].isDone && r[j].isImportant == ss[j].isImportant
  {
    seq(|ss|, j requires 0 <= j < |ss| =>
      if ss[j].id == sid
      then ss[j].(name := name, description := description, category := category, deadline := deadline)
      else ss[j])
  }

  // ------------------------------------------------ rewrites of every task

  /** `prev.map(task => { task.subTasks = f(task.subTasks); return task; })`:
      the same tasks in the same order, each with its subtasks rewritten. */
  function EachTask(ts: seq<LegacyTask>, f: seq<LegacySubtask> -> seq<LegacySubtask>): (r: seq<LegacyTask>)
    ensures |r| == |ts|
    ensures forall i :: 0 <= i < |ts| ==> r[i] == ts[i].(subTasks := f(ts[i].subTasks))
  {
    seq(|ts|, i requires 0 <= i < |ts| => ts[i].(subTasks := f(ts[i].subTasks)))
  }

  function DeleteEverywhere(sid: int): seq<LegacySubtask> -> seq<LegacySubtask>
  {
    (ss: seq<LegacySubtask>) => WithoutId(ss, sid)
  }

  function FlipDoneEverywhere(sid: int): seq<LegacySubtask> -> seq<LegacySubtask>
  {
    (ss: seq<LegacySubtask>) => FlipDone(ss, sid)
  }

  function FlipImportantEverywhere(sid: int): seq<LegacySubtask> -> seq<LegacySubtask>
  {
    (ss: seq<LegacySubtask>) => FlipImportant(ss, sid)
  }

  function EditEverywhere(sid: int, name: string, description: string, category: Category,
                          deadline: string): seq<LegacySubtask> -> seq<LegacySubtask>
  {
    (ss: seq<LegacySubtask>) => EditDetails(ss, sid, name, description, category, deadline)
  }

  // ------------------------------------------------------------ properties

  /** After `handleDelete` the list has the same tasks, with the same fields
      but the subtasks, in the same order; no task has a subtask with the id,
      and every other subtask is still under its parent, in order. */
  lemma DeleteAcrossTasks(ts: seq<LegacyTask>, sid: int)
    ensures var r := EachTask(ts, DeleteEverywhere(sid));
            |r| == |ts|
            && (forall i :: 0 <= i < |ts| ==> r[i].(subTasks := ts[i].subTasks) == ts[i])
            && (forall i, j :: 0 <= i < |ts| && 0 <= j < |r[i].subTasks| ==> r[i].subTasks[j].id != sid)
            && (forall i :: 0 <= i < |ts| ==> IsSubseq(r[i].subTasks, ts[i].subTasks))
            && (forall i, j :: 0 <= i < |ts| && 0 <= j < |ts[i].subTasks| && ts[i].subTasks[j].id != sid
                  ==> ts[i].subTasks[j] in r[i].subTasks)
  {
  }

  lemma FlipDoneTwice(ss: seq<LegacySubtask>, sid: int)
    ensures FlipDone(FlipDone(ss, sid), sid) == ss
  {
    var r := FlipDone(FlipDone(ss, sid), sid);
    forall j | 0 <= j < |ss| ensures r[j] == ss[j] {
      assert FlipDone(ss, sid)[j].id == ss[j].id;
    }
  }

  lemma FlipImportantTwice(ss: seq<LegacySubtask>, sid: int)
    ensures FlipImportant(FlipImportant(ss, sid), sid) == ss
  {
    var r := FlipImportant(FlipImportant(ss, sid), sid);
    forall j | 0 <= j < |ss| ensures r[j] == ss[j] {
      assert FlipImportant(ss, sid)[j].id == ss[j].id;
    }
  }

  /** Two `handleCheckbox` clicks restore the whole list. */
  lemma CheckboxTwiceRestores(ts: seq<LegacyTask>, sid: int)
    ensures EachTask(EachTask(ts, FlipDoneEverywhere(sid)), FlipDoneEverywhere(sid)) == ts
  {
    var r := EachTask(EachTask(ts, FlipDoneEverywhere(sid)), FlipDoneEverywhere(sid));
    forall i | 0 <= i < |ts| ensures r[i] == ts[i] {
      FlipDoneTwice(ts[i].subTasks, sid);
    }
  }

  /** Two `handleImportant` clicks restore the whole list. */
  lemma ImportantTwiceRestores(ts: seq<LegacyTask>, sid: int)
    ensures EachTask(EachTask(ts, FlipImportantEverywhere(sid)), FlipImportantEverywhere(sid)) == ts
  {
    var r := EachTask(EachTask(ts, FlipImportantEverywhere(sid)), FlipImportantEverywhere(sid));
    forall i | 0 <= i < |ts| ensures r[i] == ts[i] {
      FlipImportantTwice(ts[i].subTasks, sid);
    }
  }

  /** The flip reaches every parent: a subtask with the id under any task has
      its flag negated. */
  lemma CheckboxReachesEveryParent(ts: seq<LegacyTask>, sid: int, i: int, j: int)
    requires 0 <= i < |ts| && 0 <= j < |ts[i].subTasks| && ts[i].subTasks[j].id == sid
    ensures EachTask(ts, FlipDoneEverywhere(sid))[i].subTasks[j].isDone == !ts[i].subTasks[j].isDone
  {
  }

  // --------------------------------------------------------------- the row

  class SubTaskRow {
    /** The `subtask` prop. */
    const subtask: LegacySubtask
    var isEditing: bool
    var editedTitle: string
    var editedDescription: string
    var editedCategory: Category
    var editedDeadline: string

    constructor (s: LegacySubtask)
      ensures subtask == s && !isEditing
      ensures editedTitle == s.name && editedDescription == s.description
      ensures editedCategory == s.category && editedDeadline == s.deadline
    {
      subtask := s;
      isEditing := false;
      editedTitle := s.name;
      editedDescription := s.description;
      editedCategory := s.category;
      editedDeadline := s.deadline;
    }

    /** The body shared by the handlers: each task of the list in turn gets
        its `subTasks` replaced. */
    static method RewriteAll(atoms: LegacyAtoms, f: seq<LegacySubtask> -> seq<LegacySubtask>)
      modifies atoms`tasks
      ensures atoms.tasks == EachTask(old(atoms.tasks), f)
    {
      var prev := atoms.tasks;
      var next := prev;
      var i := 0;
      while i < |next|
        invariant 0 <= i <= |next| == |prev|
        invariant forall k :: 0 <= k < i ==> next[k] == prev[k].(subTasks := f(prev[k].subTasks))
        invariant forall k :: i <= k < |next| ==> next[k] == prev[k]
      {
        next := next[i := next[i].(subTasks := f(next[i].subTasks))];
        i := i + 1;
      }
      atoms.tasks := next;
    }

    /** `handleDelete`. */
    method HandleDelete(atoms: LegacyAtoms)
      modifies atoms`tasks
      ensures atoms.tasks == EachTask(old(atoms.tasks), DeleteEverywhere(subtask.id))
    {
      RewriteAll(atoms, DeleteEverywhere(subtask.id));
    }

    /** `handleCheckbox`. */
    method HandleCheckbox(atoms: LegacyAtoms)
      modifies atoms`tasks
      ensures atoms.tasks == EachTask(old(atoms.tasks), FlipDoneEverywhere(subtask.id))
    {
      RewriteAll(atoms, FlipDoneEverywhere(subtask.id));
    }

    /** `handleImportant`. */
    method HandleImportant(atoms: LegacyAtoms)
      modifies atoms`tasks
      ensures atoms.tasks == EachTask(old(atoms.tasks), FlipImportantEverywhere(subtask.id))
    {
      RewriteAll(atoms, FlipImportantEverywhere(subtask.id));
    }

    /** `handleEdit`: when saving, the edited fields overwrite every subtask
        with the id (blank titles included); entering edit mode leaves the
        list alone. Either way `isEditing` flips. */
    method HandleEdit(atoms: LegacyAtoms)
      modifies atoms`tasks, this`isEditing
      ensures isEditing == !old(isEditing)
      ensures old(isEditing) ==>
                atoms.tasks == EachTask(old(atoms.tasks),
                  EditEverywhere(subtask.id, editedTitle, editedDescription, editedCategory, editedDeadline))
      ensures !old(isEditing) ==> atoms.tasks == old(atoms.tasks)
    {
      if isEditing {
        RewriteAll(atoms, EditEverywhere(subtask.id, editedTitle, editedDescription, editedCategory, editedDeadline));
      }
      isEditing := !isEditing;
    }
  }
}
