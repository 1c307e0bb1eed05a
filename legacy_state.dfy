/** The older half of the application: the task shape of
    src/types/task.types.ts and the atoms of src/atoms/ (task list, modal
    slot, award list). The legacy components read and write these atoms,
    which are separate from the ones under src/features/. */
module LegacyState {
  import opened Types

  /** `Subtask` of src/types/task.types.ts: no timestamps. */
  datatype LegacySubtask = LegacySubtask(
    id: int,
    name: string,
    description: string,
    category: Category,
    deadline: string,
    isDone: bool,
    isImportant: bool)

  /** `Task` of src/types/task.types.ts: no timestamps and no progress. */
  datatype LegacyTask = LegacyTask(
    id: int,
    name: string,
    description: string,
    category: Category,
    deadline: string,
    isDone: bool,
    isImportant: bool,
    subTasks: seq<LegacySubtask>)

  /** An entry of the legacy `awardsAtom`: the two fields Awards.tsx writes. */
  datatype LegacyAward = LegacyAward(name: string, icon: string)

  /** The three atoms of src/atoms/. */
  class LegacyAtoms {
    var tasks: seq<LegacyTask>
    var currentModal: Option<ModalKind>
    var awards: seq<LegacyAward>

    /** Every atom at its default: no tasks, no modal, no awards. */
    constructor ()
      ensures tasks == [] && currentModal == None && awards == []
    {
      tasks := [];
      currentModal := None;
      awards := [];
    }
  }
}
