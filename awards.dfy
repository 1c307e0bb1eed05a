/** The awards evaluator of src/features/awards/hooks/useAwards.ts: the
    counters derived from the task list, the unlock pass that rewrites the
    `awards` atom, award progress, and the unlocked/locked partition. */
module AwardsEval {
  import opened Types
  import opened Seqs
  import Rounding
  import AwardCatalog

  /** `tasks.flatMap(task => task.subTasks)`. */
  function AllSubtasks(ts: seq<Task>): seq<Subtask>
  {
    if ts == [] then [] else ts[0].subTasks + AllSubtasks(ts[1..])
  }

  function InCategory(c: Category): Task -> bool
  {
    (t: Task) => t.category == c
  }

  /** `achievements` without `completedToday`. */
  datatype Achievements = Achievements(
    totalCompleted: nat,
    totalTasks: nat,
    trabajo: nat,
    personal: nat,
    estudio: nat)
  {
    /** `categoryStats[category]`. */
    function CategoryStat(c: Category): nat
    {
      match c
      case Trabajo => trabajo
      case Personal => personal
      case Estudio => estudio
    }
  }

  /** The counters: completed tasks plus completed subtasks, the number of
      tasks, and completed top-level tasks per category (subtasks are not
      counted there). The three category counts add up to the completed
      top-level tasks, so none exceeds `totalCompleted`. */
  function AchievementsOf(ts: seq<Task>): (a: Achievements)
    ensures a.totalTasks == |ts|
    ensures a.totalCompleted == Count(ts, IsDoneTask) + Count(AllSubtasks(ts), IsDoneSubtask)
    ensures forall c :: a.CategoryStat(c) == Count(Filter(ts, IsDoneTask), InCategory(c))
    ensures a.trabajo + a.personal + a.estudio == Count(ts, IsDoneTask)
    ensures forall c :: a.CategoryStat(c) <= a.totalCompleted
  {
    var completed := Filter(ts, IsDoneTask);
    CategoriesCover(completed);
    Achievements(
      |completed| + |Filter(AllSubtasks(ts), IsDoneSubtask)|,
      |ts|,
      |Filter(completed, InCategory(Trabajo))|,
      |Filter(completed, InCategory(Personal))|,
      |Filter(completed, InCategory(Estudio))|)
  }

  /** Every task has exactly one of the three categories. */
  lemma {:induction false} CategoriesCover(s: seq<Task>)
    ensures |Filter(s, InCategory(Trabajo))| + |Filter(s, InCategory(Personal))|
            + |Filter(s, InCategory(Estudio))| == |s|
  {
    if s != [] {
      CategoriesCover(s[1..]);
    }
  }

  // ---------------------------------------------------------------- unlocking

  /** `award.unlockedAt` is truthy: set, and not the empty string. */
  predicate IsUnlocked(a: Award)
  {
    a.unlockedAt.Some? && a.unlockedAt.value != ""
  }

  predicate IsLocked(a: Award)
  {
    !IsUnlocked(a)
  }

  /** The `switch` on `award.criteria.type` of the unlock pass. */
  predicate ShouldUnlock(c: Criteria, ach: Achievements, taskCount: nat)
  {
    match c.kind
    case TasksCompleted => ach.totalCompleted >= c.target
    case TasksCreated => taskCount >= c.target
    case CategoryMastery => c.category.Some? && ach.CategoryStat(c.category.value) >= c.target
  }

  /** One award through the pass: unlocked awards are returned as they are;
      a locked one gets `unlockedAt := now` when its criterion is met. */
  function Evaluated(a: Award, ach: Achievements, taskCount: nat, now: string): Award
  {
    if IsUnlocked(a) then a
    else if ShouldUnlock(a.criteria, ach, taskCount) then a.(unlockedAt := Some(now))
    else a
  }

  /** `prevAwards.map(...)` inside the effect: same length and order, only
      `unlockedAt` can change, and only on awards that were locked. With a
      non-empty timestamp a locked award ends unlocked exactly when its
      criterion is met. */
  function UnlockPass(awards: seq<Award>, ts: seq<Task>, now: string): (r: seq<Award>)
    ensures |r| == |awards|
    ensures forall i :: 0 <= i < |r| ==> r[i].(unlockedAt := awards[i].unlockedAt) == awards[i]
    ensures forall i :: 0 <= i < |r| && IsUnlocked(awards[i]) ==> r[i] == awards[i]
    ensures forall i :: 0 <= i < |r| && IsLocked(awards[i]) ==>
              r[i] == (if ShouldUnlock(awards[i].criteria, AchievementsOf(ts), |ts|)
                       then awards[i].(unlockedAt := Some(now)) else awards[i])
    ensures now != "" ==>
              forall i :: 0 <= i < |r| && IsLocked(awards[i]) ==>
                (IsUnlocked(r[i]) <==> ShouldUnlock(awards[i].criteria, AchievementsOf(ts), |ts|))
  {
    var ach := AchievementsOf(ts);
    seq(|awards|, i requires 0 <= i < |awards| => Evaluated(awards[i], ach, |ts|, now))
  }

  /** The criterion in terms of the aggregate `getAwardProgress` reports: met
      exactly when that aggregate reaches the target, except that a
      `categoryMastery` award without a category is never met. */
  lemma ShouldUnlockIffAggregate(c: Criteria, ach: Achievements, taskCount: nat)
    ensures ShouldUnlock(c, ach, taskCount) <==>
              (c.kind == CategoryMastery ==> c.category.Some?) && Aggregate(c, ach, taskCount) >= c.target
  {
  }

  /** Running the pass twice with the same tasks and timestamp is the same as
      running it once. */
  lemma UnlockPassIdempotent(awards: seq<Award>, ts: seq<Task>, now: string)
    ensures UnlockPass(UnlockPass(awards, ts, now), ts, now) == UnlockPass(awards, ts, now)
  {
    var r1 := UnlockPass(awards, ts, now);
    var r2 := UnlockPass(r1, ts, now);
    forall i | 0 <= i < |awards| ensures r2[i] == r1[i] {
      assert r1[i].criteria == awards[i].criteria;
    }
  }

  /** Monotonic unlock: an award unlocked by one pass stays exactly as it is
      through any later pass, whatever the tasks have become (even if the
      counters dropped). */
  lemma UnlockSurvivesLaterPass(awards: seq<Award>, ts1: seq<Task>, now1: string,
                                ts2: seq<Task>, now2: string, i: int)
    requires 0 <= i < |awards|
    requires IsUnlocked(UnlockPass(awards, ts1, now1)[i])
    ensures UnlockPass(UnlockPass(awards, ts1, now1), ts2, now2)[i] == UnlockPass(awards, ts1, now1)[i]
  {
  }

  // ------------------------------------------------------------ award progress

  /** `current` of `getAwardProgress`: the aggregate the award's type looks at
      (0 for a `categoryMastery` award without a category). */
  function Aggregate(c: Criteria, ach: Achievements, taskCount: nat): nat
  {
    match c.kind
    case TasksCompleted => ach.totalCompleted
    case TasksCreated => taskCount
    case CategoryMastery => if c.category.Some? then ach.CategoryStat(c.category.value) else 0
  }

  datatype AwardProgress = AwardProgress(current: nat, target: int)

  /** `getAwardProgress` without the floating-point `percentage`: `current`
      is the completed tasks and subtasks, the number of tasks, or the done
      tasks of the award's category, by criterion type, and 0 for a
      `categoryMastery` award without a category. */
  function GetAwardProgress(a: Award, ts: seq<Task>): (p: AwardProgress)
    ensures p.target == a.criteria.target
    ensures a.criteria.kind == TasksCompleted ==>
              p.current == Count(ts, IsDoneTask) + Count(AllSubtasks(ts), IsDoneSubtask)
    ensures a.criteria.kind == TasksCreated ==> p.current == |ts|
    ensures a.criteria.kind == CategoryMastery && a.criteria.category.Some? ==>
              p.current == Count(Filter(ts, IsDoneTask), InCategory(a.criteria.category.value))
    ensures a.criteria.kind == CategoryMastery && a.criteria.category.None? ==> p.current == 0
  {
    AwardProgress(Aggregate(a.criteria, AchievementsOf(ts), |ts|), a.criteria.target)
  }

  /** The progress shown for a locked award and the unlock pass agree: the
      pass unlocks it exactly when `current >= target` (for a
      `categoryMastery` award, one with a category). */
  lemma ProgressAgreesWithPass(awards: seq<Award>, ts: seq<Task>, now: string, i: int)
    requires 0 <= i < |awards| && IsLocked(awards[i]) && now != ""
    requires awards[i].criteria.kind == CategoryMastery ==> awards[i].criteria.category.Some?
    ensures var p := GetAwardProgress(awards[i], ts);
            IsUnlocked(UnlockPass(awards, ts, now)[i]) <==> p.current >= p.target
  {
    ShouldUnlockIffAggregate(awards[i].criteria, AchievementsOf(ts), |ts|);
  }

  // ------------------------------------------------------- unlocked / locked

  /** `awards.filter(award => award.unlockedAt)`. */
  function UnlockedAwards(awards: seq<Award>): (r: seq<Award>)
    ensures IsSubseq(r, awards)
    ensures forall i :: 0 <= i < |r| ==> IsUnlocked(r[i])
  {
    FilterIsSubseq(awards, IsUnlocked);
    Filter(awards, IsUnlocked)
  }

  /** `awards.filter(award => !award.unlockedAt)`. */
  function LockedAwards(awards: seq<Award>): (r: seq<Award>)
    ensures IsSubseq(r, awards)
    ensures forall i :: 0 <= i < |r| ==> IsLocked(r[i])
  {
    FilterIsSubseq(awards, IsLocked);
    Filter(awards, IsLocked)
  }

  /** The two lists partition the awards: every award is in exactly one, so
      the lengths add up to the total. */
  lemma UnlockedLockedPartition(awards: seq<Award>)
    ensures multiset(UnlockedAwards(awards)) + multiset(LockedAwards(awards)) == multiset(awards)
    ensures |UnlockedAwards(awards)| + |LockedAwards(awards)| == |awards|
  {
    FilterSplit(awards, IsUnlocked, IsLocked);
  }

  datatype AwardStats = AwardStats(totalAwards: nat, unlockedCount: nat, completionRate: nat)

  /** `stats`: the unlocked count plus the locked count is the total, and the
      rate is 0 with no awards and a percentage otherwise. */
  function AwardStatsOf(awards: seq<Award>): (s: AwardStats)
    ensures s.totalAwards == |awards|
    ensures s.unlockedCount + |LockedAwards(awards)| == s.totalAwards
    ensures s.unlockedCount == Count(awards, IsUnlocked)
    ensures s.totalAwards == 0 ==> s.completionRate == 0
    ensures s.completionRate <= 100
    ensures s.totalAwards > 0 ==> s.completionRate == Rounding.Percent(s.unlockedCount, s.totalAwards)
  {
    UnlockedLockedPartition(awards);
    var u := |UnlockedAwards(awards)|;
    AwardStats(|awards|, u, if |awards| > 0 then Rounding.Percent(u, |awards|) else 0)
  }

  // --------------------------------------------------------- seeded catalog

  /** On the seeded catalog an empty task list unlocks nothing, since every
      target is at least 1. */
  lemma SeededStayLockedOnEmpty(now: string)
    ensures UnlockPass(AwardCatalog.SeededAwards(), [], now) == AwardCatalog.SeededAwards()
  {
    AwardCatalog.SeededCriteriaWellFormed();
    var s := AwardCatalog.SeededAwards();
    var ach := AchievementsOf([]);
    assert ach.totalCompleted == 0 && ach.trabajo == 0 && ach.personal == 0 && ach.estudio == 0;
    forall i | 0 <= i < |s| ensures !ShouldUnlock(s[i].criteria, ach, 0) {
    }
  }

  /** Because the `tasksCompleted` targets increase along the catalog, a pass
      over the fresh catalog that unlocks one of them unlocks every earlier
      one too. */
  lemma SeededCompletedUnlockInOrder(ts: seq<Task>, now: string, i: int, j: int)
    requires now != "" && 0 <= i < j < 5
    requires IsUnlocked(UnlockPass(AwardCatalog.SeededAwards(), ts, now)[j])
    ensures IsUnlocked(UnlockPass(AwardCatalog.SeededAwards(), ts, now)[i])
  {
    AwardCatalog.SeededCompletedTargets();
  }

  // -------------------------------------------------------------- the atom

  /** The `awards` atom and the effect that rewrites it. */
  class AwardsState {
    var awards: seq<Award>

    /** The atom starts with the seeded catalog. */
    constructor ()
      ensures awards == AwardCatalog.SeededAwards()
    {
      awards := AwardCatalog.SeededAwards();
    }

    /** The `useEffect` pass, run with the current tasks and clock reading. */
    method RunUnlockPass(ts: seq<Task>, now: string)
      modifies this
      ensures awards == UnlockPass(old(awards), ts, now)
    {
      awards := UnlockPass(awards, ts, now);
    }
  }
}
