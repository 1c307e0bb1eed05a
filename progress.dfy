/** The footer of src/components/Progress.tsx: completed and pending counts
    over tasks and subtasks, the rounded completion percentage, the three
    colour-band helpers and the motivational message. */
module ProgressPanel {
  import opened Types
  import opened Seqs
  import Rounding
  import TaskStore

  /** `tasks.reduce((count, task) => count + task.subTasks.filter(p).length, 0)`. */
  function SubtaskSum(ts: seq<Task>, p: Subtask -> bool): nat
  {
    if ts == [] then 0 else SubtaskSum(ts[..|ts| - 1], p) + |Filter(ts[|ts| - 1].subTasks, p)|
  }

  /** The number of subtasks of all tasks together. */
  function SubtaskTotal(ts: seq<Task>): nat
  {
    if ts == [] then 0 else SubtaskTotal(ts[..|ts| - 1]) + |ts[|ts| - 1].subTasks|
  }

  /** Every subtask is either done or pending, so the two sums add up to the
      number of subtasks. */
  lemma {:induction false} SubtaskSumsSplit(ts: seq<Task>)
    ensures SubtaskSum(ts, IsDoneSubtask) + SubtaskSum(ts, IsPendingSubtask) == SubtaskTotal(ts)
  {
    if ts != [] {
      SubtaskSumsSplit(ts[..|ts| - 1]);
      FilterSplit(ts[|ts| - 1].subTasks, IsDoneSubtask, IsPendingSubtask);
    }
  }

  datatype Counts = Counts(
    completedTasks: nat,
    pendingTasks: nat,
    completedSubtasks: nat,
    pendingSubtasks: nat,
    totalCompleted: nat,
    totalPending: nat,
    totalTasks: nat)

  /** The counters of the panel: every task and every subtask is counted once,
      as completed or as pending, so `totalTasks` is the number of tasks plus
      the number of subtasks, and it is 0 exactly for an empty list. */
  function CountsOf(ts: seq<Task>): (c: Counts)
    ensures c.completedTasks == Count(ts, IsDoneTask) && c.pendingTasks == Count(ts, IsActiveTask)
    ensures c.completedTasks + c.pendingTasks == |ts|
    ensures c.completedSubtasks == SubtaskSum(ts, IsDoneSubtask)
    ensures c.completedSubtasks + c.pendingSubtasks == SubtaskTotal(ts)
    ensures c.totalCompleted == c.completedTasks + c.completedSubtasks
    ensures c.totalPending == c.pendingTasks + c.pendingSubtasks
    ensures c.totalTasks == c.totalCompleted + c.totalPending == |ts| + SubtaskTotal(ts)
    ensures c.totalTasks == 0 <==> ts == []
  {
    FilterSplit(ts, IsDoneTask, IsActiveTask);
    SubtaskSumsSplit(ts);
    var ct := |Filter(ts, IsDoneTask)|;
    var pt := |Filter(ts, IsActiveTask)|;
    var cs := SubtaskSum(ts, IsDoneSubtask);
    var ps := SubtaskSum(ts, IsPendingSubtask);
    Counts(ct, pt, cs, ps, ct + cs, pt + ps, ct + cs + pt + ps)
  }

  /** `completionPercentage`: 0 with nothing to count, otherwise the rounded
      share of completed items, at most 100, and 100 when nothing is pending. */
  function CompletionPercentage(c: Counts): (pct: nat)
    requires c.totalTasks == c.totalCompleted + c.totalPending
    ensures c.totalTasks == 0 ==> pct == 0
    ensures pct <= 100
    ensures c.totalTasks > 0 && c.totalPending == 0 ==> pct == 100
    ensures c.totalCompleted == 0 ==> pct == 0
    ensures c.totalTasks > 0 ==> pct == Rounding.Percent(c.totalCompleted, c.totalTasks)
    ensures c.totalTasks > 0 ==>
              2 * c.totalTasks * pct <= 200 * c.totalCompleted + c.totalTasks < 2 * c.totalTasks * (pct + 1)
  {
    if c.totalTasks > 0 then Rounding.Percent(c.totalCompleted, c.totalTasks) else 0
  }

  /** Completing a pending item keeps the total and raises the completed
      count, so the percentage never goes down. */
  lemma CompletingNeverLowersPercentage(c1: Counts, c2: Counts)
    requires c1.totalTasks == c1.totalCompleted + c1.totalPending
    requires c2.totalTasks == c2.totalCompleted + c2.totalPending
    requires c1.totalTasks == c2.totalTasks && c1.totalCompleted <= c2.totalCompleted
    ensures CompletionPercentage(c1) <= CompletionPercentage(c2)
  {
    if c1.totalTasks > 0 {
      Rounding.PercentMonotone(c1.totalCompleted, c2.totalCompleted, c1.totalTasks);
    }
  }

  /** The five bands the three helpers share, from the lowest up. */
  datatype Band = Red | Orange | Yellow | Blue | Green

  /** The threshold chain at 80, 60, 40 and 20. */
  function BandOf(pct: int): (b: Band)
    ensures b == Green <==> pct >= 80
    ensures b == Blue <==> 60 <= pct < 80
    ensures b == Yellow <==> 40 <= pct < 60
    ensures b == Orange <==> 20 <= pct < 40
    ensures b == Red <==> pct < 20
  {
    if pct >= 80 then Green
    else if pct >= 60 then Blue
    else if pct >= 40 then Yellow
    else if pct >= 20 then Orange
    else Red
  }

  function BandColour(b: Band): string
  {
    match b
    case Green => "green"
    case Blue => "blue"
    case Yellow => "yellow"
    case Orange => "orange"
    case Red => "red"
  }

  /** `getProgressColor`. */
  function ProgressColor(pct: int): string
  {
    if pct >= 80 then "bg-green-500"
    else if pct >= 60 then "bg-blue-500"
    else if pct >= 40 then "bg-yellow-500"
    else if pct >= 20 then "bg-orange-500"
    else "bg-red-500"
  }

  /** `getProgressBgColor`. */
  function ProgressBgColor(pct: int): string
  {
    if pct >= 80 then "bg-green-50"
    else if pct >= 60 then "bg-blue-50"
    else if pct >= 40 then "bg-yellow-50"
    else if pct >= 20 then "bg-orange-50"
    else "bg-red-50"
  }

  /** `getTextColor`. */
  function TextColor(pct: int): string
  {
    if pct >= 80 then "text-green-700"
    else if pct >= 60 then "text-blue-700"
    else if pct >= 40 then "text-yellow-700"
    else if pct >= 20 then "text-orange-700"
    else "text-red-700"
  }

  /** The three helpers always agree on the colour: each picks the shade of
      `BandOf(pct)`. */
  lemma HelpersShareBand(pct: int)
    ensures ProgressColor(pct) == "bg-" + BandColour(BandOf(pct)) + "-500"
    ensures ProgressBgColor(pct) == "bg-" + BandColour(BandOf(pct)) + "-50"
    ensures TextColor(pct) == "text-" + BandColour(BandOf(pct)) + "-700"
  {
    BarShade(pct);
    BackgroundShade(pct);
    TextShade(pct);
  }

  lemma BarShade(pct: int)
    ensures ProgressColor(pct) == "bg-" + BandColour(BandOf(pct)) + "-500"
  {
    match BandOf(pct)
    case Green => assert "bg-" + "green" + "-500" == "bg-green-500";
    case Blue => assert "bg-" + "blue" + "-500" == "bg-blue-500";
    case Yellow => assert "bg-" + "yellow" + "-500" == "bg-yellow-500";
    case Orange => assert "bg-" + "orange" + "-500" == "bg-orange-500";
    case Red => assert "bg-" + "red" + "-500" == "bg-red-500";
  }

  lemma BackgroundShade(pct: int)
    ensures ProgressBgColor(pct) == "bg-" + BandColour(BandOf(pct)) + "-50"
  {
    match BandOf(pct)
    case Green => assert "bg-" + "green" + "-50" == "bg-green-50";
    case Blue => assert "bg-" + "blue" + "-50" == "bg-blue-50";
    case Yellow => assert "bg-" + "yellow" + "-50" == "bg-yellow-50";
    case Orange => assert "bg-" + "orange" + "-50" == "bg-orange-50";
    case Red => assert "bg-" + "red" + "-50" == "bg-red-50";
  }

  lemma TextShade(pct: int)
    ensures TextColor(pct) == "text-" + BandColour(BandOf(pct)) + "-700"
  {
    match BandOf(pct)
    case Green => assert "text-" + "green" + "-700" == "text-green-700";
    case Blue => assert "text-" + "blue" + "-700" == "text-blue-700";
    case Yellow => assert "text-" + "yellow" + "-700" == "text-yellow-700";
    case Orange => assert "text-" + "orange" + "-700" == "text-orange-700";
    case Red => assert "text-" + "red" + "-700" == "text-red-700";
  }

  /** The messages of the motivational line, by band. */
  datatype Motivation = AllDone | AlmostThere | GoodProgress | OnTrack | EveryTaskCounts

  /** The line under the bar: absent at 0 %, otherwise the band at 100, 80,
      60 and 40, and the encouragement below that. */
  function MotivationFor(pct: int): (m: Option<Motivation>)
    ensures m.None? <==> pct <= 0
    ensures m == Some(AllDone) <==> pct == 100
    ensures m == Some(AlmostThere) <==> 80 <= pct && pct != 100
    ensures m == Some(GoodProgress) <==> 60 <= pct < 80
    ensures m == Some(OnTrack) <==> 40 <= pct < 60
    ensures m == Some(EveryTaskCounts) <==> 0 < pct < 40
  {
    if pct <= 0 then None
    else if pct == 100 then Some(AllDone)
    else if pct >= 80 then Some(AlmostThere)
    else if pct >= 60 then Some(GoodProgress)
    else if pct >= 40 then Some(OnTrack)
    else Some(EveryTaskCounts)
  }

  function MotivationText(m: Motivation): string
  {
    match m
    case AllDone => "¡Excelente! Has completado todas tus tareas 🎉"
    case AlmostThere => "¡Casi listo! Solo un poco más 💪"
    case GoodProgress => "Buen progreso, sigue así 👍"
    case OnTrack => "Vas por buen camino 🚀"
    case EveryTaskCounts => "Cada tarea completada cuenta ✨"
  }

  /** What the panel shows: the empty state, or the figures with their band
      and optional message. */
  datatype Panel =
    | EmptyState
    | Figures(pct: nat, band: Band, message: Option<Motivation>,
              completedTasks: nat, pendingTasks: nat, completedSubtasks: nat, important: nat)

  /** The panel for a task list: the empty state exactly when there are no
      tasks; otherwise the percentage, its band and its message. */
  function PanelFor(ts: seq<Task>): (p: Panel)
    ensures p.EmptyState? <==> ts == []
    ensures p.Figures? ==> p.pct <= 100 && p.band == BandOf(p.pct) && p.message == MotivationFor(p.pct)
    ensures p.Figures? ==> p.completedTasks + p.pendingTasks == |ts|
    ensures p.Figures? ==>
              p.pct == CompletionPercentage(CountsOf(ts)) && p.completedTasks == CountsOf(ts).completedTasks
              && p.pendingTasks == CountsOf(ts).pendingTasks && p.completedSubtasks == CountsOf(ts).completedSubtasks
    ensures p.Figures? ==> p.important == TaskStore.StatsOf(ts).important
    ensures (p.Figures? && Count(ts, IsDoneTask) == |ts| && SubtaskSum(ts, IsDoneSubtask) == SubtaskTotal(ts))
              ==> p.pct == 100 && p.message == Some(AllDone)
  {
    var c := CountsOf(ts);
    if c.totalTasks == 0 then EmptyState
    else
      var pct := CompletionPercentage(c);
      Figures(pct, BandOf(pct), MotivationFor(pct), c.completedTasks, c.pendingTasks, c.completedSubtasks,
              TaskStore.StatsOf(ts).important)
  }
}
