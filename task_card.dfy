/** The card of one task, src/features/tasks/components/TaskCard.tsx: its
    local form state, the edit and add-subtask handlers with their
    validation gates, and the subtask counts shown on the card. */
module TaskCardView {
  import opened Types
  import opened Seqs
  import opened Text
  import TaskStore
  import Layout

  /** The subtask form may be submitted: neither the title nor the deadline
      is blank (`subtaskTitle.trim() && subtaskDeadline.trim()`). */
  predicate SubtaskFormValid(title: string, deadline: string)
  {
    !IsBlank(title) && !IsBlank(deadline)
  }

  /** `completedSubtasks` and `totalSubtasks`. */
  datatype SubtaskCounts = SubtaskCounts(completed: nat, total: nat)

  /** The done subtasks are among the subtasks, so the card never shows more
      done than there are. */
  function SubtaskCountsOf(t: Task): (c: SubtaskCounts)
    ensures c.total == |t.subTasks|
    ensures c.completed == Count(t.subTasks, IsDoneSubtask)
    ensures c.completed <= c.total
    ensures c.completed == c.total <==> forall j :: 0 <= j < |t.subTasks| ==> t.subTasks[j].isDone
  {
    AllDoneIffFullCount(t.subTasks);
    SubtaskCounts(|Filter(t.subTasks, IsDoneSubtask)|, |t.subTasks|)
  }

  /** As many done subtasks as subtasks exactly when all are done. */
  lemma AllDoneIffFullCount(ss: seq<Subtask>)
    ensures |Filter(ss, IsDoneSubtask)| == |ss| <==> forall j :: 0 <= j < |ss| ==> ss[j].isDone
  {
    FilterSplit(ss, IsDoneSubtask, IsPendingSubtask);
    if |Filter(ss, IsPendingSubtask)| > 0 {
      var p := Filter(ss, IsPendingSubtask)[0];
      assert p in ss && !p.isDone;
    }
    if forall j :: 0 <= j < |ss| ==> ss[j].isDone {
      FilterAll(ss, IsDoneSubtask);
    }
  }

  /** The line `completed/total subtareas` shows exactly when the task has a
      subtask. */
  function ShowsSubtaskProgress(t: Task): (b: bool)
    ensures b <==> t.subTasks != []
  {
    SubtaskCountsOf(t).total > 0
  }

  class TaskCardState {
    /** The `task` prop. */
    const task: Task
    var isEditing: bool
    var isAddingSubtask: bool
    var editedTitle: string
    var editedDescription: string
    var editedCategory: Category
    var editedDeadline: string
    var subtaskTitle: string
    var subtaskDescription: string
    var subtaskCategory: Category
    var subtaskDeadline: string

    /** The `useState` defaults: not editing, the edit form filled from the
        task, and an empty subtask form in the task's category. */
    constructor (t: Task)
      ensures task == t && !isEditing && !isAddingSubtask
      ensures editedTitle == t.name && editedDescription == t.description
      ensures editedCategory == t.category && editedDeadline == t.deadline
      ensures subtaskTitle == "" && subtaskDescription == ""
      ensures subtaskCategory == t.category && subtaskDeadline == ""
    {
      task := t;
      isEditing := false;
      isAddingSubtask := false;
      editedTitle := t.name;
      editedDescription := t.description;
      editedCategory := t.category;
      editedDeadline := t.deadline;
      subtaskTitle := "";
      subtaskDescription := "";
      subtaskCategory := t.category;
      subtaskDeadline := "";
    }

    /** `isSubtaskFormValid`, the flag that disables the Create button. It is
        the very condition `HandleAddSubtask` checks. */
    function IsSubtaskFormValid(): (b: bool)
      reads this
      ensures b <==> SubtaskFormValid(subtaskTitle, subtaskDeadline)
    {
      TrimEmptyIffBlank(subtaskTitle);
      TrimEmptyIffBlank(subtaskDeadline);
      Trim(subtaskTitle) != "" && Trim(subtaskDeadline) != ""
    }

    /** `handleEdit`. Entering edit mode touches neither the store nor the
        modal. Saving a blank title opens `EmptyTitleError`, leaves the
        store as it was and stays in edit mode. Saving a real title sends
        exactly the four edited fields to `updateTask` and leaves edit mode. */
    method HandleEdit(store: TaskStore.Store, layout: Layout.LayoutState, now: string)
      modifies this`isEditing, store, layout`currentModal
      ensures !old(isEditing) ==>
                isEditing && store.tasks == old(store.tasks) && layout.currentModal == old(layout.currentModal)
      ensures old(isEditing) && IsBlank(editedTitle) ==>
                isEditing && store.tasks == old(store.tasks) && layout.currentModal == Some(EmptyTitleError)
      ensures old(isEditing) && !IsBlank(editedTitle) ==>
                !isEditing && layout.currentModal == old(layout.currentModal)
                && store.tasks == TaskStore.TasksUpdated(old(store.tasks), task.id,
                     TaskStore.DetailsPatch(editedTitle, editedDescription, editedCategory, editedDeadline), now)
    {
      if isEditing {
        TrimEmptyIffBlank(editedTitle);
        if Trim(editedTitle) == "" {
          layout.currentModal := Some(EmptyTitleError);
          return;
        }
        store.UpdateTask(task.id,
          TaskStore.DetailsPatch(editedTitle, editedDescription, editedCategory, editedDeadline), now);
      }
      isEditing := !isEditing;
    }

    /** `handleAddSubtask`. An invalid form opens `EmptyTitleError` and
        changes nothing else. A valid one adds a subtask made of the form
        fields, not done and not important, to this task, then empties the
        form (category back to the task's) and closes it. */
    method HandleAddSubtask(store: TaskStore.Store, layout: Layout.LayoutState, sid: int, now: string)
      modifies this`subtaskTitle, this`subtaskDescription, this`subtaskCategory, this`subtaskDeadline
      modifies this`isAddingSubtask, store, layout`currentModal
      ensures !SubtaskFormValid(old(subtaskTitle), old(subtaskDeadline)) ==>
                layout.currentModal == Some(EmptyTitleError) && store.tasks == old(store.tasks)
                && subtaskTitle == old(subtaskTitle) && subtaskDescription == old(subtaskDescription)
                && subtaskCategory == old(subtaskCategory) && subtaskDeadline == old(subtaskDeadline)
                && isAddingSubtask == old(isAddingSubtask)
      ensures SubtaskFormValid(old(subtaskTitle), old(subtaskDeadline)) ==>
                layout.currentModal == old(layout.currentModal)
                && store.tasks == TaskStore.SubtaskAdded(old(store.tasks), task.id,
                     TaskStore.Draft(old(subtaskTitle), old(subtaskDescription), old(subtaskCategory),
                                     old(subtaskDeadline), false, false), sid, now)
                && subtaskTitle == "" && subtaskDescription == "" && subtaskDeadline == ""
                && subtaskCategory == task.category && !isAddingSubtask
    {
      if !IsSubtaskFormValid() {
        layout.currentModal := Some(EmptyTitleError);
        return;
      }
      store.AddSubtask(task.id,
        TaskStore.Draft(subtaskTitle, subtaskDescription, subtaskCategory, subtaskDeadline, false, false),
        sid, now);
      ResetSubtaskForm();
    }

    /** `handleCancelAddSubtask`: the same reset, with no store call. */
    method HandleCancelAddSubtask()
      modifies this`subtaskTitle, this`subtaskDescription, this`subtaskCategory, this`subtaskDeadline
      modifies this`isAddingSubtask
      ensures subtaskTitle == "" && subtaskDescription == "" && subtaskDeadline == ""
      ensures subtaskCategory == task.category && !isAddingSubtask
    {
      ResetSubtaskForm();
    }

    method ResetSubtaskForm()
      modifies this`subtaskTitle, this`subtaskDescription, this`subtaskCategory, this`subtaskDeadline
      modifies this`isAddingSubtask
      ensures subtaskTitle == "" && subtaskDescription == "" && subtaskDeadline == ""
      ensures subtaskCategory == task.category && !isAddingSubtask
    {
      subtaskTitle := "";
      subtaskDescription := "";
      subtaskCategory := task.category;
      subtaskDeadline := "";
      isAddingSubtask := false;
    }
  }
}
