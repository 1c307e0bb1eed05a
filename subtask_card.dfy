/** The row of one subtask, src/features/tasks/components/SubtaskCard.tsx:
    its edit toggle with the blank-title alert, and the toggle and delete
    buttons that address the store by (parent id, subtask id). */
module SubtaskCardView {
  import opened Types
  import opened Text
  import TaskStore

  class SubtaskCardState {
    /** The `subtask` and `taskId` props. */
    const subtask: Subtask
    const taskId: int
    var isEditing: bool
    var editedTitle: string
    var editedDescription: string
    var editedCategory: Category
    var editedDeadline: string

    /** Not editing, with the form filled from the subtask. */
    constructor (s: Subtask, parent: int)
      ensures subtask == s && taskId == parent && !isEditing
      ensures editedTitle == s.name && editedDescription == s.description
      ensures editedCategory == s.category && editedDeadline == s.deadline
    {
      subtask := s;
      taskId := parent;
      isEditing := false;
      editedTitle := s.name;
      editedDescription := s.description;
      editedCategory := s.category;
      editedDeadline := s.deadline;
    }

    /** `handleEdit`. Entering edit mode only sets `isEditing`. Saving a blank
        title raises the alert (`alerted`), calls nothing and stays in edit
        mode. Saving a real title sends exactly the four edited fields to
        `updateSubtask(taskId, subtask.id, …)` and leaves edit mode. */
    method HandleEdit(store: TaskStore.Store, now: string) returns (alerted: bool)
      modifies this`isEditing, store
      ensures alerted <==> old(isEditing) && IsBlank(editedTitle)
      ensures !old(isEditing) ==> isEditing && store.tasks == old(store.tasks)
      ensures alerted ==> isEditing && store.tasks == old(store.tasks)
      ensures old(isEditing) && !alerted ==>
                !isEditing
                && store.tasks == TaskStore.SubtaskUpdated(old(store.tasks), taskId, subtask.id,
                     TaskStore.SubtaskDetailsPatch(editedTitle, editedDescription, editedCategory, editedDeadline), now)
    {
      alerted := false;
      if isEditing {
        TrimEmptyIffBlank(editedTitle);
        if Trim(editedTitle) == "" {
          alerted := true;
          return;
        }
        store.UpdateSubtask(taskId, subtask.id,
          TaskStore.SubtaskDetailsPatch(editedTitle, editedDescription, editedCategory, editedDeadline), now);
      }
      isEditing := !isEditing;
    }

    /** `handleToggleComplete`: `toggleSubtaskComplete(taskId, subtask.id)`. */
    method HandleToggleComplete(store: TaskStore.Store, now: string)
      modifies store
      ensures store.tasks == TaskStore.SubtaskToggled(old(store.tasks), taskId, subtask.id, now)
    {
      store.ToggleSubtaskComplete(taskId, subtask.id, now);
    }

    /** `handleDelete`: `deleteSubtask(taskId, subtask.id)`. */
    method HandleDelete(store: TaskStore.Store, now: string)
      modifies store
      ensures store.tasks == TaskStore.SubtaskDeleted(old(store.tasks), taskId, subtask.id, now)
    {
      store.DeleteSubtask(taskId, subtask.id, now);
    }
  }
}
