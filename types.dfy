/** The entities of the task tracker (src/lib/types/index.ts) and its enum
    constants (src/lib/constants/index.ts). */
module Types {

  datatype Option<T> = None | Some(value: T)

  /** `TASK_CATEGORIES`. */
  datatype Category = Personal | Trabajo | Estudio

  const TaskCategories: seq<Category> := [Personal, Trabajo, Estudio]

  /** `VIEW_TYPES`; `Key` is the string stored in the `currentView` atom. */
  datatype ViewType = List | Calendar | Awards
  {
    function Key(): string
    {
      match this
      case List => "list"
      case Calendar => "calendar"
      case Awards => "awards"
    }
  }

  const ViewTypes: seq<ViewType> := [List, Calendar, Awards]

  /** `Subtask` (= `BaseTask`). Identifiers are JavaScript numbers compared
      with `===`; the model keeps them abstract as integers. Timestamps are
      the ISO strings the clock supplies. */
  datatype Subtask = Subtask(
    id: int,
    name: string,
    description: string,
    category: Category,
    deadline: string,
    isDone: bool,
    isImportant: bool,
    createdAt: string,
    updatedAt: string)

  /** `Task`: the base fields plus the ordered subtasks and a progress number. */
  datatype Task = Task(
    id: int,
    name: string,
    description: string,
    category: Category,
    deadline: string,
    isDone: bool,
    isImportant: bool,
    createdAt: string,
    updatedAt: string,
    subTasks: seq<Subtask>,
    progress: int)

  /** `Award.criteria.type`. */
  datatype CriteriaType = TasksCompleted | CategoryMastery | TasksCreated

  /** `Award.criteria`; `category` is optional. */
  datatype Criteria = Criteria(kind: CriteriaType, target: int, category: Option<Category>)

  /** `Award`; `unlockedAt` is `null` (None) or a timestamp. */
  datatype Award = Award(
    id: int,
    name: string,
    description: string,
    icon: string,
    unlockedAt: Option<string>,
    criteria: Criteria)

  /** `TaskFilters` without `dateRange`; an absent field filters nothing. */
  datatype TaskFilters = TaskFilters(
    category: Option<Category>,
    isImportant: Option<bool>,
    isDone: Option<bool>)

  /** The names the modal atom can hold (`'DeleteAllConfirmation'`,
      `'EmptyTitleError'`); the atom itself is an `Option<ModalKind>`. */
  datatype ModalKind = DeleteAllConfirmation | EmptyTitleError

  predicate IsDoneTask(t: Task) { t.isDone }

  predicate IsActiveTask(t: Task) { !t.isDone }

  predicate IsDoneSubtask(s: Subtask) { s.isDone }

  predicate IsPendingSubtask(s: Subtask) { !s.isDone }

  function TaskHasId(id: int): Task -> bool
  {
    (t: Task) => t.id == id
  }

  function TaskLacksId(id: int): Task -> bool
  {
    (t: Task) => t.id != id
  }

  function SubtaskLacksId(id: int): Subtask -> bool
  {
    (s: Subtask) => s.id != id
  }

  function SubtaskHasId(id: int): Subtask -> bool
  {
    (s: Subtask) => s.id == id
  }

  /** No two tasks share an identifier. */
  predicate IdsDistinct(ts: seq<Task>)
  {
    forall i, j :: 0 <= i < j < |ts| ==> ts[i].id != ts[j].id
  }

  /** `id` is not the identifier of any task. */
  predicate IdFresh(ts: seq<Task>, id: int)
  {
    forall i :: 0 <= i < |ts| ==> ts[i].id != id
  }
}
