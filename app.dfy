/** The shell of src/App.tsx: the split of the task list into the active and
    completed columns, their placeholders, the header count, and the choice
    of screen from the `currentView` atom. */
module AppShell {
  import opened Types
  import opened Seqs

  /** `tasks.filter(task => !task.isDone)`. */
  function ActiveTasks(ts: seq<Task>): (r: seq<Task>)
    ensures IsSubseq(r, ts)
    ensures forall i :: 0 <= i < |r| ==> !r[i].isDone
    ensures forall i :: 0 <= i < |ts| && !ts[i].isDone ==> ts[i] in r
  {
    FilterIsSubseq(ts, IsActiveTask);
    Filter(ts, IsActiveTask)
  }

  /** `tasks.filter(task => task.isDone)`. */
  function CompletedTasks(ts: seq<Task>): (r: seq<Task>)
    ensures IsSubseq(r, ts)
    ensures forall i :: 0 <= i < |r| ==> r[i].isDone
    ensures forall i :: 0 <= i < |ts| && ts[i].isDone ==> ts[i] in r
  {
    FilterIsSubseq(ts, IsDoneTask);
    Filter(ts, IsDoneTask)
  }

  /** The two columns partition the list: each task is in exactly one, with
      all its copies, and the column sizes add up to the number of tasks. */
  lemma ColumnsPartitionTasks(ts: seq<Task>)
    ensures multiset(ActiveTasks(ts)) + multiset(CompletedTasks(ts)) == multiset(ts)
    ensures |ActiveTasks(ts)| + |CompletedTasks(ts)| == |ts|
    ensures forall t :: t in ts ==> (t in ActiveTasks(ts) <==> t !in CompletedTasks(ts))
  {
    FilterSplit(ts, IsActiveTask, IsDoneTask);
  }

  /** The placeholder "No hay tareas activas" shows exactly when no task is
      pending. */
  predicate ShowsNoActive(ts: seq<Task>)
  {
    |ActiveTasks(ts)| == 0
  }

  /** The placeholder "No hay tareas completadas" shows exactly when no task
      is done. */
  predicate ShowsNoCompleted(ts: seq<Task>)
  {
    |CompletedTasks(ts)| == 0
  }

  lemma PlaceholdersExact(ts: seq<Task>)
    ensures ShowsNoActive(ts) <==> forall i :: 0 <= i < |ts| ==> ts[i].isDone
    ensures ShowsNoCompleted(ts) <==> forall i :: 0 <= i < |ts| ==> !ts[i].isDone
    ensures ShowsNoActive(ts) && ShowsNoCompleted(ts) <==> ts == []
  {
    ColumnsPartitionTasks(ts);
    if !ShowsNoActive(ts) {
      var r := ActiveTasks(ts);
      assert r[0] in ts && !r[0].isDone;
    }
    if !ShowsNoCompleted(ts) {
      var r := CompletedTasks(ts);
      assert r[0] in ts && r[0].isDone;
    }
  }

  /** The screens `renderCurrentView` can return. */
  datatype Screen = ListScreen | CalendarScreen | AwardsScreen

  /** The `switch` on the stored view: the three known keys select their
      screen, and any other stored value falls back to the list. */
  function RenderCurrentView(currentView: string): (s: Screen)
    ensures s == CalendarScreen <==> currentView == ViewType.Calendar.Key()
    ensures s == AwardsScreen <==> currentView == ViewType.Awards.Key()
    ensures s == ListScreen <==> currentView != ViewType.Calendar.Key() && currentView != ViewType.Awards.Key()
  {
    if currentView == "list" then ListScreen
    else if currentView == "calendar" then CalendarScreen
    else if currentView == "awards" then AwardsScreen
    else ListScreen
  }

  /** The screen of a view chosen in the toggle is that view's screen. */
  lemma RenderSelectedView(v: ViewType)
    ensures RenderCurrentView(v.Key()) ==
              match v
              case List => ListScreen
              case Calendar => CalendarScreen
              case Awards => AwardsScreen
  {
  }

  /** The header badge `{tasks.length} tareas`: the length of the list, equal
      to the sizes of the two columns together. */
  function HeaderCount(ts: seq<Task>): (n: nat)
    ensures n == |ts|
    ensures n == |ActiveTasks(ts)| + |CompletedTasks(ts)|
  {
    ColumnsPartitionTasks(ts);
    |ts|
  }
}
