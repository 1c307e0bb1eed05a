# planity task tracker — verified model of its core rules

planity is a local task tracker written with React and Jotai. This project
models the rules that are left once the UI framework is removed, and proves
properties of them in Dafny:

- the task store of `useTasks`: add, update, delete, delete all, duplicate,
  the two flag toggles, the four subtask operations, the filter and the
  statistics;
- the award evaluator of `useAwards`: achievement counters, the unlock pass,
  progress, the unlocked/locked split and the statistics. The seeded
  catalogue of twelve awards is included;
- the legacy award strip (`Awards.tsx`), which appends four named awards only
  when each one is earned and not yet present;
- the weekly calendar (`CalendarView.tsx`):
  - it parses `YYYY-MM-DD` deadlines;
  - it computes the Gregorian weekday and re-orders it Monday first;
  - it buckets tasks into seven columns, plus a "no date" list;
- the progress footer (`Progress.tsx`): counts, rounded percentage, colour
  bands and motivational message;
- the application shell (`App.tsx`): the active/completed split, the
  placeholders, the header count and the view dispatch;
- the handlers of the task card and the subtask card, with their
  blank-title and missing-deadline gates;
- the view toggle, the delete-all confirmation dialog and the legacy task
  and subtask cards. The legacy subtask card edits subtasks by id across
  every task.

State that the source changes in place is modelled as classes:

| class | what it holds |
|---|---|
| `TaskStore.Store` | the `taskList` atom |
| `AwardsEval.AwardsState` | the awards atom |
| `Layout.LayoutState` | the current view and modal of `features/layout` |
| `LegacyState.LegacyAtoms` | the task list, modal slot and awards of `src/atoms/` |
| `TaskCardView.TaskCardState`, `SubtaskCardView.SubtaskCardState`, `LegacySubTaskView.SubTaskRow` | the local `useState` of each card |

Each method states its new state as a function of the old state. The
properties are proved about those functions, as `ensures` clauses and as
lemmas.

### Two sets of atoms

The code under `src/features/` and the older components under
`src/components/` import different atoms:

- `ViewToggle.tsx` and `TaskCard.tsx` write `currentModalAtom` of
  `src/features/layout/store/layoutAtoms.ts`.
- `Modal.tsx` and `DeleteAllConfirmationModal.tsx` read and write the
  `currentModalAtom` of `src/atoms/layoutAtoms.ts`.
- `CalendarView.tsx`, `SubTask.tsx`, `Task.tsx`, `Awards.tsx` and the
  confirmation dialog use the legacy `taskListAtom` of `src/atoms/taskAtoms.ts`.
  The store uses the feature `taskListAtom`. Both persist under the key
  `'taskList'`, but in memory they are separate atoms.
- The same holds for awards: the feature `awardsAtom` of
  `src/features/awards/store/awardsAtoms.ts` (the seeded catalogue of
  `{ id, name, description, icon, criteria, unlockedAt }` records) and the
  legacy `awardsAtom` of `src/atoms/awardsAtoms.ts` (starting empty, filled
  with `{ name, icon }` records by `Awards.tsx`) both persist under the key
  `'awards'`, with different record shapes, and are separate in memory.

The model therefore keeps two states:

- the feature state: `TaskStore.Store`, `Layout.LayoutState` and
  `AwardsEval.AwardsState`;
- `LegacyState.LegacyAtoms`.

Nothing in the model links them. As written, the dialog that
`ViewToggle.handleDeleteAll` requests is displayed from a different modal
slot from the one the toggle writes.

Module layout:

| file | contents |
|---|---|
| `seqs.dfy`, `text.dfy`, `rounding.dfy` | generic helpers: order-preserving filter and subsequence, trimming and splitting, round-half-up percentages |
| `types.dfy` | the data model of `src/lib/types/index.ts` and its constants |
| `legacy_state.dfy` | `src/types/task.types.ts` and the atoms of `src/atoms/` |
| every other file | one source file each |

## Model

| member | source | states |
|---|---|---|
| TaskStore.TaskAdded | src/features/tasks/hooks/useTasks.ts:10-21 | exactly one task is appended at the end, carrying the draft and the fresh id, with no subtasks, progress 0 and `createdAt == updatedAt == now`; the earlier tasks are unchanged |
| TaskStore.TasksUpdated | src/features/tasks/hooks/useTasks.ts:23-31 | length and order kept; tasks with the id are merged with the supplied fields and get `updatedAt == now`; every other task is unchanged; an absent id changes nothing |
| TaskStore.TaskDeleted | src/features/tasks/hooks/useTasks.ts:33-35 | an order-preserving subsequence holding no task with the id and every task without it; it is shorter by the number of matches; an absent id changes nothing |
| TaskStore.FindTask | src/features/tasks/hooks/useTasks.ts:42 | `None` exactly when no task has the id, otherwise the first task with it |
| TaskStore.Duplicated | src/features/tasks/hooks/useTasks.ts:41-55 | an absent id changes nothing; a present id appends a copy of the first match with the new id, name + " (copia)", not done and fresh timestamps, keeping description, category, deadline, importance, subtasks and progress; the original list is a prefix |
| TaskStore.ToggledComplete | src/features/tasks/hooks/useTasks.ts:57-59 | only tasks with the id change: `isDone` becomes the negation of the first match's flag and `updatedAt == now`; ids and length kept; an absent id changes nothing |
| TaskStore.ToggledImportant | src/features/tasks/hooks/useTasks.ts:61-63 | the same for `isImportant` |
| TaskStore.FirstMatchIsOnly | src/features/tasks/hooks/useTasks.ts:58 | with distinct ids, the task the toggle reads is the task it writes |
| TaskStore.ToggleCompleteTwice | src/features/tasks/hooks/useTasks.ts:57-59 | with distinct ids, toggling twice restores every task except the target's `updatedAt` |
| TaskStore.ToggleImportantTwice | src/features/tasks/hooks/useTasks.ts:61-63 | the same for importance |
| TaskStore.SubtaskAdded | src/features/tasks/hooks/useTasks.ts:65-85 | each parent with the id gets the new subtask (draft fields, fresh id, equal timestamps) at the end of its list and `updatedAt == now`, and nothing else; other tasks unchanged; an absent parent changes nothing |
| TaskStore.SubtasksUpdated | src/features/tasks/hooks/useTasks.ts:91-99 | within one list, subtasks with the id are merged with the supplied fields and the others are unchanged |
| TaskStore.SubtaskUpdated | src/features/tasks/hooks/useTasks.ts:87-103 | only parents with the id change; they get the merged subtask list and `updatedAt == now`, even when no subtask matches; an absent parent changes nothing |
| TaskStore.SubtaskDeleted | src/features/tasks/hooks/useTasks.ts:105-117 | only parents with the id change; they lose every subtask with `sid` (the rest keep their order) and get `updatedAt == now` |
| TaskStore.FindSubtask | src/features/tasks/hooks/useTasks.ts:120-121 | `None` when no task has `taskId`; otherwise the FIRST subtask with the id in the first parent with `taskId`, and `None` exactly when that parent has none |
| TaskStore.SubtaskToggled | src/features/tasks/hooks/useTasks.ts:119-125 | a missing task or subtask changes nothing; otherwise every parent with `taskId` keeps its other fields and is stamped, and every subtask with the id under it gets the negation of the found subtask's `isDone` and the new `updatedAt`, the other subtasks unchanged; other tasks unchanged |
| TaskStore.SubtaskToggleFlips | src/features/tasks/hooks/useTasks.ts:119-125 | with distinct ids, exactly the addressed subtask's `isDone` flips (its and its parent's `updatedAt` set) and its siblings are unchanged |
| TaskStore.FilteredTasks | src/features/tasks/hooks/useTasks.ts:127-140 | an order-preserving subsequence holding only tasks that meet every supplied category/importance/done filter, every such task, and as many elements as there are such tasks (so, by Seqs.SubseqFilterUnique, exactly the filter); no filter gives the whole list |
| TaskStore.StatsOf | src/features/tasks/hooks/useTasks.ts:142-157 | `total` is the number of tasks, `completed + active == total`, `important` counts important undone tasks and is at most `active`; the rate is 0 when empty and otherwise the rounded percentage of completed tasks, at most 100, and 100 when all are done |
| TaskStore.StatsAfterDeleteAll | src/features/tasks/hooks/useTasks.ts:37-39 | after delete-all every statistic is 0 |
| TaskStore.AddKeepsIdsDistinct | src/features/tasks/hooks/useTasks.ts:10-21 | a fresh id keeps task ids distinct |
| TaskStore.DuplicateKeepsIdsDistinct | src/features/tasks/hooks/useTasks.ts:41-55 | a fresh copy id keeps task ids distinct |
| TaskStore.DeleteKeepsIdsDistinct | src/features/tasks/hooks/useTasks.ts:33-35 | deletion keeps task ids distinct |
| TaskStore.Store.AddTask | src/features/tasks/hooks/useTasks.ts:10-21 | the list becomes `TaskAdded` of the old list |
| TaskStore.Store.UpdateTask | src/features/tasks/hooks/useTasks.ts:23-31 | the list becomes `TasksUpdated` of the old list |
| TaskStore.Store.DeleteTask | src/features/tasks/hooks/useTasks.ts:33-35 | the list becomes `TaskDeleted` of the old list |
| TaskStore.Store.DeleteAllTasks | src/features/tasks/hooks/useTasks.ts:37-39 | the list becomes empty |
| TaskStore.Store.DuplicateTask | src/features/tasks/hooks/useTasks.ts:41-55 | the list becomes `Duplicated` of the old list |
| TaskStore.Store.ToggleTaskComplete | src/features/tasks/hooks/useTasks.ts:57-59 | reads the flag, writes its negation through `UpdateTask`; the list becomes `ToggledComplete` |
| TaskStore.Store.ToggleTaskImportant | src/features/tasks/hooks/useTasks.ts:61-63 | the list becomes `ToggledImportant` |
| TaskStore.Store.AddSubtask | src/features/tasks/hooks/useTasks.ts:65-85 | the list becomes `SubtaskAdded` |
| TaskStore.Store.UpdateSubtask | src/features/tasks/hooks/useTasks.ts:87-103 | the list becomes `SubtaskUpdated` |
| TaskStore.Store.DeleteSubtask | src/features/tasks/hooks/useTasks.ts:105-117 | the list becomes `SubtaskDeleted` |
| TaskStore.Store.ToggleSubtaskComplete | src/features/tasks/hooks/useTasks.ts:119-125 | looks the subtask up and writes only when found; the list becomes `SubtaskToggled` |
| AwardsEval.AchievementsOf | src/features/awards/hooks/useAwards.ts:12-33 | `totalCompleted` is done tasks plus done subtasks; `totalTasks` is the number of tasks; each category counts only completed top-level tasks of that category, the three add up to the completed tasks, and none exceeds `totalCompleted` |
| AwardsEval.CategoriesCover | src/features/awards/hooks/useAwards.ts:17-21 | every task is in exactly one of the three category counts |
| AwardsEval.UnlockPass | src/features/awards/hooks/useAwards.ts:36-69 | length and order kept; only `unlockedAt` can change; an unlocked award is returned unchanged; a locked one is set to `now` exactly when its criterion holds |
| AwardsEval.ShouldUnlockIffAggregate | src/features/awards/hooks/useAwards.ts:44-57 | an award unlocks exactly when its aggregate reaches the target: completed count, task count, or the category's count, never for a category award without a category |
| AwardsEval.UnlockPassIdempotent | src/features/awards/hooks/useAwards.ts:37-68 | a second pass with the same tasks and `now` changes nothing |
| AwardsEval.UnlockSurvivesLaterPass | src/features/awards/hooks/useAwards.ts:40 | an award unlocked by one pass is left unchanged by any later pass, whatever the tasks: unlocking is monotonic |
| AwardsEval.GetAwardProgress | src/features/awards/hooks/useAwards.ts:72-95 | `target == criteria.target`; `current` is the completed tasks plus completed subtasks for `tasksCompleted`, the number of tasks for `tasksCreated`, the done tasks of the category for `categoryMastery`, and 0 for a `categoryMastery` award without a category |
| AwardsEval.ProgressAgreesWithPass | src/features/awards/hooks/useAwards.ts:44-88 | for a locked award, the pass unlocks it exactly when its progress `current` reaches `target` |
| AwardsEval.UnlockedAwards | src/features/awards/hooks/useAwards.ts:105 | an order-preserving subsequence of unlocked awards |
| AwardsEval.LockedAwards | src/features/awards/hooks/useAwards.ts:106 | an order-preserving subsequence of locked awards |
| AwardsEval.UnlockedLockedPartition | src/features/awards/hooks/useAwards.ts:105-106 | the two lists together are the awards as a multiset, and their lengths sum to the total |
| AwardsEval.AwardStatsOf | src/features/awards/hooks/useAwards.ts:115-119 | `totalAwards` is the number of awards, `unlockedCount` the number with a truthy `unlockedAt`, `unlockedCount + locked == totalAwards`; the rate is 0 with no awards and otherwise the rounded percentage of unlocked awards, at most 100 |
| AwardsEval.SeededStayLockedOnEmpty | src/features/awards/store/awardsAtoms.ts:5-143 | with no tasks, the pass unlocks nothing in the seeded catalogue |
| AwardsEval.SeededCompletedUnlockInOrder | src/features/awards/store/awardsAtoms.ts:12-59 | the five completion awards unlock in catalogue order: a later one unlocked implies every earlier one unlocked |
| AwardsEval.AwardsState.RunUnlockPass | src/features/awards/hooks/useAwards.ts:36-69 | the awards become `UnlockPass` of the old awards |
| AwardsEval.AwardsState.constructor | src/features/awards/store/awardsAtoms.ts:5-143 | the atom starts as the seeded catalogue |
| AwardCatalog.SeededAwards | src/features/awards/store/awardsAtoms.ts:5-143 | the default catalogue holds twelve awards, every one with `unlockedAt` null; its ids, names, targets and categories are stated by the lemmas below |
| AwardCatalog.SeededIdsDistinct | src/features/awards/store/awardsAtoms.ts:5-143 | twelve awards with ids 1–5 and 8–14, pairwise distinct |
| AwardCatalog.SeededNamesRepeat | src/features/awards/store/awardsAtoms.ts:19-123 | the name "Empezando" appears twice under different ids |
| AwardCatalog.SeededCriteriaWellFormed | src/features/awards/store/awardsAtoms.ts:13-141 | every target is at least 1 and every category award carries a category |
| AwardCatalog.SeededCompletedTargets | src/features/awards/store/awardsAtoms.ts:12-59 | the completion targets are 1, 5, 10, 25, 50, strictly increasing |
| LegacyAwardsView.DoneSubtasks | src/components/Awards.tsx:15-19 | the done subtasks of all tasks together, never more than all their subtasks; `DoneSubtasksZero` says when the sum is 0 |
| LegacyAwardsView.TotalCompleted | src/components/Awards.tsx:12-26 | done tasks plus done subtasks: at least the done subtasks and at most every task and every subtask; `TotalCompletedPositive` says when it reaches 1 |
| LegacyAwardsView.DoneSubtasksZero | src/components/Awards.tsx:15-19 | the done-subtask sum is 0 exactly when no subtask of any task is done |
| LegacyAwardsView.NoneDoneIffEmptyFilter | src/components/Awards.tsx:17 | one task adds no done subtask exactly when none of its subtasks is done |
| LegacyAwardsView.TotalCompletedPositive | src/components/Awards.tsx:12-26 | `totalCompleted >= 1` exactly when some task or some subtask is done |
| LegacyAwardsView.Step | src/components/Awards.tsx:35-44 | one guarded push keeps the awards in front and adds at most one; the name is present afterwards exactly when the threshold is met or it was present before |
| LegacyAwardsView.AwardsPass | src/components/Awards.tsx:32-78 | after the four pushes the name of every award whose threshold is met is present; the lemmas below state that the pass only appends, exactly the earned awards whose names were absent, and is idempotent |
| LegacyAwardsView.Earned | src/components/Awards.tsx:35-75 | the reference list of earned awards: each of the four is present exactly when its threshold is met |
| LegacyAwardsView.AwardsPassAsAppend | src/components/Awards.tsx:33-77 | the four pushes equal one append, each guarded by its threshold and by the name's absence from the previous awards |
| LegacyAwardsView.AwardsPassAppendsEarned | src/components/Awards.tsx:33-77 | the pass yields the previous awards followed by the earned awards whose names are absent, in the fixed order Primera Tarea, Primera Completada, 5 Tareas Creadas, 5 Tareas Completadas |
| LegacyAwardsView.AwardsPassOnlyAppends | src/components/Awards.tsx:33-77 | existing awards are never removed or reordered, and at most four are added |
| LegacyAwardsView.AppendedExactly | src/components/Awards.tsx:35-75 | each award is newly added exactly when its threshold is met (`totalCompleted` ≥ 1 or ≥ 5; stored last id ≥ 1 or ≥ 5) and its name was absent |
| LegacyAwardsView.AwardsPassKeepsNamesDistinct | src/components/Awards.tsx:38-69 | from awards with distinct names, no name appears twice after the pass |
| LegacyAwardsView.AwardsPassIdempotent | src/components/Awards.tsx:32-78 | a second pass with the same inputs changes nothing |
| LegacyAwardsView.AwardsEffect | src/components/Awards.tsx:11-79 | the copy-and-push body leaves the awards atom equal to `AwardsPass` of the old awards |
| Calendar.WeekdaysDistinct | src/components/CalendarView.tsx:8-16 | seven distinct column names |
| Calendar.DaysInMonth | src/components/CalendarView.tsx:29 | 28 to 31 days; February has 29 exactly in leap years |
| Calendar.NextDate | src/components/CalendarView.tsx:29 | the day after a valid date is a valid date |
| Calendar.DayNumber | src/components/CalendarView.tsx:29-30 | the day count behind `getDay`; `EpochIsDayZero` and `NextDateIsNextDay` state that it numbers consecutive days from 1970-01-01 |
| Calendar.EpochIsDayZero | src/components/CalendarView.tsx:29-30 | 1970-01-01 is day 0 of the day count |
| Calendar.NextDateIsNextDay | src/components/CalendarView.tsx:29-30 | the day count of the next date is one more, so the count numbers consecutive days |
| Calendar.WithinMonth | src/components/CalendarView.tsx:29-30 | inside a month, the next day of the month has the next day count |
| Calendar.FebruaryEnd | src/components/CalendarView.tsx:29-30 | March 1st follows the last day of February, in leap and common years alike |
| Calendar.MonthEnd | src/components/CalendarView.tsx:29-30 | the first of the next month follows the last day of every month but February and December |
| Calendar.DecemberEnd | src/components/CalendarView.tsx:29-30 | January 1st of the next year follows December 31st |
| Calendar.JsWeekday | src/components/CalendarView.tsx:30 | `getDay` is in 0..6 |
| Calendar.NextDateNextWeekday | src/components/CalendarView.tsx:30 | the weekday of the next date is the next weekday, Sunday after Saturday |
| Calendar.MondayFirst | src/components/CalendarView.tsx:35-40 | the remap is in 0..6 and sends Sunday (0) to 6 and each d in 1..6 to d−1 |
| Calendar.MondayFirstInjective | src/components/CalendarView.tsx:35-40 | different weekdays go to different columns |
| Calendar.JsYear | src/components/CalendarView.tsx:29 | `new Date` reads years 0–99 as 1900–1999 |
| Calendar.InDateRange | src/components/CalendarView.tsx:29 | a date lies within the time range of `Date`, 100 000 000 days after the epoch (section 21.4.1.1 of ECMA-262); the lemmas below put its last day at 275760-09-13 |
| Calendar.LastDayInRange | src/components/CalendarView.tsx:29 | 275760-09-13 is in the range of `Date` and the day after it is not |
| Calendar.EarlyYearsInRange | src/components/CalendarView.tsx:29 | every valid date of the years 1 to 275759 is in the range of `Date` |
| Calendar.ParseDeadline | src/components/CalendarView.tsx:28-29 | a parsed deadline has at least three `-`-separated fields and is a valid date within the `Date` range |
| Calendar.ParseFormatted | src/components/CalendarView.tsx:28-29 | every valid date from year 100 up to the `Date` limit reads back as itself from its zero-padded `YYYY-MM-DD` form |
| Calendar.ParseFormattedTwoDigitYear | src/components/CalendarView.tsx:28-29 | a `YYYY-MM-DD` deadline with a year 0–99 names the date of year 1900 + y, or none when that date does not exist |
| Calendar.SplitFormatted | src/components/CalendarView.tsx:28 | `split('-')` of a formatted date gives its three padded fields |
| Calendar.WeekdayIndex | src/components/CalendarView.tsx:28-40 | a column index exists exactly when the deadline parses; it is the Monday-first remap of the `getDay` of the parsed date, in 0..6 |
| Calendar.FormattedDeadlineColumn | src/components/CalendarView.tsx:28-40 | a formatted deadline goes to the Monday-first column of its date's weekday |
| Calendar.EmptyDeadlineHasNoWeekday | src/components/CalendarView.tsx:24 | the empty deadline has no column |
| Calendar.MondayGoesToLunes | src/components/CalendarView.tsx:8-42 | "2024-06-10", a Monday, goes to column 0, "Lunes" |
| Calendar.ParseSampleDeadline | src/components/CalendarView.tsx:28-29 | "2024-06-10" reads as the date 10 June 2024 |
| Calendar.SampleWeekday | src/components/CalendarView.tsx:30 | 10 June 2024 is a Monday, `getDay` 1 |
| Calendar.TasksByWeekday | src/components/CalendarView.tsx:22-45 | seven columns, each an order-preserving subsequence holding only and all the tasks whose deadline is non-empty with weekday index i, with as many elements as there are such tasks |
| Calendar.TasksWithoutDeadline | src/components/CalendarView.tsx:48 | an order-preserving subsequence of only and all the tasks with an empty deadline, as many as there are |
| Calendar.ExactlyOneColumn | src/components/CalendarView.tsx:22-45 | a task with a readable deadline is in exactly one column; a task without a deadline is in none |
| Calendar.ColumnsPartition | src/components/CalendarView.tsx:22-48 | when every deadline is empty or readable, the sizes of the seven columns of TasksByWeekday plus the size of the "no date" list equal the number of tasks |
| Calendar.TotalSizeOfFilters | src/components/CalendarView.tsx:22-45 | the sizes of the filters by a list of predicates add up to their combined count |
| ProgressPanel.SubtaskSumsSplit | src/components/Progress.tsx:12-21 | the done and pending subtask sums add up to the number of subtasks |
| ProgressPanel.CountsOf | src/components/Progress.tsx:8-24 | each task and subtask is counted once as completed or pending; `totalTasks == totalCompleted + totalPending`, which is the number of tasks plus the number of subtasks, and it is 0 exactly for an empty list |
| ProgressPanel.CompletionPercentage | src/components/Progress.tsx:26 | 0 when nothing is counted; otherwise `Percent(totalCompleted, totalTasks)`, the integer nearest to 100·completed/total with halves rounded up; 0 when nothing is completed, at most 100, and 100 when nothing is pending |
| Rounding.Percent | src/components/Progress.tsx:26 | round-half-up of `100·part/whole`: `2·whole·r ≤ 200·part + whole < 2·whole·(r+1)`; at most 100 for a part of the whole, 100 for the whole, 0 for none |
| Rounding.PercentUnique | src/components/Progress.tsx:26 | any value within the rounding bounds is the percentage, so the bounds define it |
| Rounding.PercentMonotone | src/components/Progress.tsx:26 | a larger part of the same whole never gives a smaller percentage |
| ProgressPanel.CompletingNeverLowersPercentage | src/components/Progress.tsx:26 | with the same total, more completed items never show a smaller percentage |
| Rounding.RoundHalfUp | src/components/Progress.tsx:26 | the result is the integer nearest to the ratio, halves rounded up |
| ProgressPanel.BandOf | src/components/Progress.tsx:29-51 | the band thresholds at 80, 60, 40 and 20, each band in both directions |
| ProgressPanel.ProgressColor | src/components/Progress.tsx:29-35 | `getProgressColor`; `BarShade` states that it is the 500 shade of the band colour of `BandOf` |
| ProgressPanel.ProgressBgColor | src/components/Progress.tsx:37-43 | `getProgressBgColor`; `BackgroundShade` states that it is the 50 shade of the band colour of `BandOf` |
| ProgressPanel.TextColor | src/components/Progress.tsx:45-51 | `getTextColor`; `TextShade` states that it is the 700 shade of the band colour of `BandOf` |
| ProgressPanel.HelpersShareBand | src/components/Progress.tsx:29-51 | the bar, background and text helpers pick the shade of the same band for every percentage |
| ProgressPanel.BarShade | src/components/Progress.tsx:29-35 | the bar class is the 500 shade of the band colour |
| ProgressPanel.BackgroundShade | src/components/Progress.tsx:37-43 | the background class is the 50 shade of the band colour |
| ProgressPanel.TextShade | src/components/Progress.tsx:45-51 | the text class is the 700 shade of the band colour |
| ProgressPanel.MotivationFor | src/components/Progress.tsx:149-165 | no message exactly at 0 % or below; otherwise the bands at 100, 80, 60 and 40, each in both directions |
| ProgressPanel.PanelFor | src/components/Progress.tsx:53-165 | the empty state exactly when there are no tasks; otherwise the completion percentage of the counts of the list (at most 100) with its band and message, the completed-task, pending-task and completed-subtask counts of the list, and the `important` count of the store's `stats`; 100 % with the completion message when everything is done |
| AppShell.ActiveTasks | src/App.tsx:18 | an order-preserving subsequence holding exactly the undone tasks |
| AppShell.CompletedTasks | src/App.tsx:19 | an order-preserving subsequence holding exactly the done tasks |
| AppShell.ColumnsPartitionTasks | src/App.tsx:18-19 | the two columns are the task list as a multiset; their lengths sum to its length; each task is in exactly one |
| AppShell.ShowsNoActive | src/App.tsx:36-40 | the "No hay tareas activas" placeholder shows when the active column is empty; `PlaceholdersExact` states that this is exactly when every task is done |
| AppShell.ShowsNoCompleted | src/App.tsx:54-58 | the "No hay tareas completadas" placeholder shows when the completed column is empty; `PlaceholdersExact` states that this is exactly when no task is done |
| AppShell.PlaceholdersExact | src/App.tsx:36-58 | "no active" shows exactly when every task is done, "no completed" exactly when none is, and both exactly for the empty list |
| AppShell.RenderCurrentView | src/App.tsx:93-104 | "calendar" and "awards" select their screens; any other value, "list" included, selects the list |
| AppShell.RenderSelectedView | src/App.tsx:93-104 | each view offered by the toggle renders its own screen |
| AppShell.HeaderCount | src/App.tsx:135 | the badge shows the list's length, which is the two column sizes together |
| TaskCardView.SubtaskCountsOf | src/features/tasks/components/TaskCard.tsx:131-132 | the done count is at most the total, and equal to it exactly when every subtask is done |
| TaskCardView.AllDoneIffFullCount | src/features/tasks/components/TaskCard.tsx:131-132 | the done count equals the total exactly when every subtask is done |
| TaskCardView.ShowsSubtaskProgress | src/features/tasks/components/TaskCard.tsx:233 | the progress line shows exactly when the task has a subtask |
| TaskCardView.TaskCardState.IsSubtaskFormValid | src/features/tasks/components/TaskCard.tsx:133 | the Create button is enabled exactly when the form passes the handler's own check |
| TaskCardView.TaskCardState.HandleEdit | src/features/tasks/components/TaskCard.tsx:55-71 | entering edit mode makes no store or modal change; saving a blank title opens EmptyTitleError, leaves the store alone and stays editing; saving a real title sends exactly the four fields to `updateTask` and leaves editing |
| TaskCardView.TaskCardState.HandleAddSubtask | src/features/tasks/components/TaskCard.tsx:73-94 | a blank title or deadline opens EmptyTitleError and changes nothing else; a valid form adds a not-done, not-important subtask from the form fields to this task, then resets the form to the parent's category and closes it |
| TaskCardView.TaskCardState.HandleCancelAddSubtask | src/features/tasks/components/TaskCard.tsx:96-102 | the same reset, with no store call |
| TaskCardView.TaskCardState.constructor | src/features/tasks/components/TaskCard.tsx:19-37 | the card starts not editing, the edit form filled from the task (the deadline as stored, without the `toISOString` round-trip), and an empty subtask form in the task's category |
| SubtaskCardView.SubtaskCardState.constructor | src/features/tasks/components/SubtaskCard.tsx:16-27 | a new card is not editing, and its form holds the subtask's name, description, category and deadline (as stored, without the `toISOString` round-trip), addressed to its parent task |
| SubtaskCardView.SubtaskCardState.HandleEdit | src/features/tasks/components/SubtaskCard.tsx:37-53 | entering edit mode only sets `isEditing`; a blank title raises the alert, makes no call and stays editing; a real title sends exactly the four fields to `updateSubtask(taskId, subtask.id, …)` and leaves editing |
| SubtaskCardView.SubtaskCardState.HandleToggleComplete | src/features/tasks/components/SubtaskCard.tsx:29-31 | the toggle is addressed by the pair (`taskId`, `subtask.id`) |
| SubtaskCardView.SubtaskCardState.HandleDelete | src/features/tasks/components/SubtaskCard.tsx:33-35 | the deletion is addressed by the pair (`taskId`, `subtask.id`) |
| LegacySubTaskView.WithoutId | src/components/SubTask.tsx:26-28 | an order-preserving subsequence with no subtask of the id and every other subtask, one element shorter for each subtask with the id |
| Seqs.SubseqFilterUnique | src/features/tasks/hooks/useTasks.ts:127-140 | a subsequence of only matching elements has at most as many elements as match, and with exactly that many it is the filter |
| LegacySubTaskView.FlipDone | src/components/SubTask.tsx:37-42 | only `isDone` can change, and it changes exactly on the subtasks with the id |
| LegacySubTaskView.FlipImportant | src/components/SubTask.tsx:74-79 | only `isImportant` can change, and it changes exactly on the subtasks with the id |
| LegacySubTaskView.EditDetails | src/components/SubTask.tsx:52-63 | subtasks with the id take the four edited fields, blank title included, and keep their id and flags; the others are unchanged |
| LegacySubTaskView.EachTask | src/components/SubTask.tsx:25-30 | the same tasks in the same order, each with only its subtask list rewritten |
| LegacySubTaskView.DeleteAcrossTasks | src/components/SubTask.tsx:23-32 | delete keeps the tasks, their count, order and other fields; no task keeps a subtask with the id; every other subtask stays under its parent in order |
| LegacySubTaskView.FlipDoneTwice | src/components/SubTask.tsx:37-42 | flipping one list twice restores it |
| LegacySubTaskView.FlipImportantTwice | src/components/SubTask.tsx:74-79 | flipping one list twice restores it |
| LegacySubTaskView.CheckboxTwiceRestores | src/components/SubTask.tsx:34-46 | two checkbox clicks restore the whole task list |
| LegacySubTaskView.ImportantTwiceRestores | src/components/SubTask.tsx:71-83 | two importance clicks restore the whole task list |
| LegacySubTaskView.CheckboxReachesEveryParent | src/components/SubTask.tsx:34-46 | a subtask with the id under any task, not only its own parent, has its flag negated |
| LegacySubTaskView.SubTaskRow.constructor | src/components/SubTask.tsx:13-21 | a new row is not editing, and its form holds the subtask's name, description, category and deadline |
| LegacySubTaskView.SubTaskRow.RewriteAll | src/components/SubTask.tsx:24-31 | the loop over the tasks leaves the list equal to `EachTask` of the old list |
| LegacySubTaskView.SubTaskRow.HandleDelete | src/components/SubTask.tsx:23-32 | the list becomes the id removed from every task |
| LegacySubTaskView.SubTaskRow.HandleCheckbox | src/components/SubTask.tsx:34-46 | the list becomes `isDone` flipped on every subtask with the id |
| LegacySubTaskView.SubTaskRow.HandleEdit | src/components/SubTask.tsx:48-69 | saving overwrites every subtask with the id with the edited fields, with no blank check; entering edit mode leaves the list alone; `isEditing` flips either way |
| LegacySubTaskView.SubTaskRow.HandleImportant | src/components/SubTask.tsx:71-83 | the list becomes `isImportant` flipped on every subtask with the id |
| LegacyTaskView.Without | src/components/Task.tsx:13-15 | removes every task with the id, keeps the others in relative order, leaves the list unchanged for an absent id, and shortens it by the number of matches |
| LegacyTaskView.HandleDelete | src/components/Task.tsx:13-15 | the legacy list becomes `Without` of the old list |
| DeleteAllModal.Confirm | src/components/modals/DeleteAllConfirmationModal.tsx:9-12 | the legacy task list is emptied and the modal slot cleared |
| DeleteAllModal.Cancel | src/components/modals/DeleteAllConfirmationModal.tsx:27-30 | the modal slot is cleared and the task list kept |
| ViewToggleBar.HandleViewChange | src/components/ViewToggle.tsx:18-20 | the current view becomes the chosen one and nothing else changes |
| ViewToggleBar.HandleDeleteAll | src/components/ViewToggle.tsx:22-24 | the modal becomes DeleteAllConfirmation and the tasks are not touched |
| ViewToggleBar.HasAnyTasks | src/components/ViewToggle.tsx:26 | the delete-all button is enabled exactly when the list is non-empty |
| ViewToggleBar.ViewOptionsComplete | src/components/ViewToggle.tsx:28-47 | exactly the three views list, calendar and awards are offered, once each |
| ViewToggleBar.AwardsLabelOf | src/components/ViewToggle.tsx:43 | the denominator `unlocked + locked` is the number of awards, and the numerator is the unlocked count |
| Layout.LayoutState.constructor | src/features/layout/store/layoutAtoms.ts:6-8 | the view starts as "list" and no modal is open |
| LegacyState.LegacyAtoms.constructor | src/atoms/taskAtoms.ts:9 | the legacy atoms start empty: no tasks, no modal, no awards |
| Text.TrimEmptyIffBlank | src/features/tasks/components/TaskCard.tsx:58 | `trim()` gives the empty string exactly for whitespace-only input |
| Text.JoinSplit | src/components/CalendarView.tsx:28 | joining the fields of `split('-')` gives back the string |
| Text.Decimal | src/components/CalendarView.tsx:28 | the zero-padded decimal form of n is all digits, exactly `width` characters long or the digit count of n when that is more, and `Number` reads it back as n |
| Text.DigitChar | src/components/CalendarView.tsx:28 | the digit character of d is a digit whose value is d |

## Left out

- Id and clock generation (`generateId`, `new Date().toISOString()`) are parameters: every operation that needs a fresh id or a timestamp takes `id`/`sid`/`newId` and `now`. Ids are modelled as `int`, since the source only compares them with `===`.
- `isOverdue`, `formatDate`, `stats.overdue`, the `dateRange` filter, `completedToday` and `getRecentlyUnlocked` depend on the current time or the locale and are not modelled.
- AwardsEval.GetAwardProgress: the floating-point `percentage` field is not modelled; only `current` and `target` are.
- TaskCardView.TaskCardState.constructor: the `toISOString` round-trip of the edit form's initial deadline (TaskCard.tsx:24-31 reads the deadline at noon local time and keeps the UTC date part) is not modelled; the form starts from the stored deadline. For a `YYYY-MM-DD` deadline that is the same text whenever the UTC offset is above −12 hours and at most +12 hours. Outside that range the source's form starts a day earlier or later, and saving unchanged writes that shifted date back. A non-empty deadline that is not a date makes `toISOString` throw `RangeError` while the card renders, and the model keeps the stored text instead.
- SubtaskCardView.SubtaskCardState.constructor: the same round-trip at SubtaskCard.tsx:20-27 is not modelled; the form starts from the stored deadline. For a `YYYY-MM-DD` deadline that is the same text whenever the UTC offset is above −12 hours and at most +12 hours. Outside that range the source's form starts a day earlier or later, and saving unchanged writes that shifted date back. A non-empty deadline that is not a date makes `toISOString` throw `RangeError` while the card renders, and the model keeps the stored text instead.
- `Date.parse` in SubTask.tsx (the "overdue" styling of a legacy subtask) is not modelled.
- Calendar.ParseDeadline: JavaScript's `Number()` and `Date` accept more than the model: whitespace around fields, empty fields read as 0, out-of-range months and days rolled over into neighbouring months, and signs and exponents. The model parses decimal digit fields into a valid calendar date and puts every other non-empty deadline in no column. `ColumnsPartition` therefore requires every deadline to be empty or readable.
- Calendar.InDateRange: the range is counted from midnight UTC. `new Date(y, m - 1, d)` builds local midnight, so west of UTC the last day, 275760-09-13, already lies outside the range, and `getDay` gives `NaN` there. The model still puts that deadline in its weekday column.
- `Math.round` is modelled as round-half-up on exact integers; floating-point ties are not modelled.
- `Awards.tsx` reads `localStorage.getItem('lastTaskId')` and applies `parseInt`. The model takes the parsed value as an `Option<int>` input, `None` when absent or not a number. `parseInt`'s prefix parsing is not modelled.
- Persistence through `atomWithStorage` and `localStorage` is not modelled, and neither are React re-render timing, `useMemo` caching and the stale `taskList` closure of the toggles. Each atom is the field of a class that every write replaces.
- LegacySubTaskView.SubTaskRow.RewriteAll: the source assigns `_task.subTasks` on the existing task objects, so earlier snapshots of the list that share those objects see the change too. The model works on an immutable sequence of values and does not capture that aliasing.
- SubtaskCardView.SubtaskCardState.HandleEdit: the browser `alert` is modelled as the returned flag `alerted`.
- The one-line TaskCard handlers that forward to the store (toggle complete, toggle important, duplicate, delete) are covered by the store methods they call and have no members of their own.
- Pure rendering (JSX, icon and colour class strings, `cn`/`twMerge`, `Modal.tsx`, `EmptyTitleErrorModal.tsx`, `Column.tsx`, `TaskColumn.tsx`) is not modelled. Neither is the empty-strip text of the legacy awards.
- Numbers are unbounded integers; JavaScript's 2^53 limit on task counts is not modelled.
