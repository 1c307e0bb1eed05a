/** The legacy award strip of src/components/Awards.tsx: on every change of
    the legacy task list it appends up to four named awards to the legacy
    `awardsAtom`, each one only when its threshold is met and no award of
    that name is there yet. */
module LegacyAwardsView {
  import opened Types
  import opened Seqs
  import opened LegacyState

  // --------------------------------------------------------------- counts

  function IsDoneLegacyTask(t: LegacyTask): bool { t.isDone }
  function IsDoneLegacySubtask(s: LegacySubtask): bool { s.isDone }

  /** The number of subtasks of all tasks together, done or not. */
  function SubtaskCount(ts: seq<LegacyTask>): nat
  {
    if ts == [] then 0 else SubtaskCount(ts[..|ts| - 1]) + |ts[|ts| - 1].subTasks|
  }

  /** `completedSubtasksCount`: the done subtasks of all tasks together,
      never more than there are subtasks. */
  function DoneSubtasks(ts: seq<LegacyTask>): (r: nat)
    ensures r <= SubtaskCount(ts)
  {
    if ts == [] then 0
    else DoneSubtasks(ts[..|ts| - 1]) + |Filter(ts[|ts| - 1].subTasks, IsDoneLegacySubtask)|
  }

  /** `totalCompleted`: done tasks plus done subtasks, at most every task
      and every subtask. */
  function TotalCompleted(ts: seq<LegacyTask>): (r: nat)
    ensures DoneSubtasks(ts) <= r <= |ts| + SubtaskCount(ts)
  {
    Count(ts, IsDoneLegacyTask) + DoneSubtasks(ts)
  }

  /** No subtask anywhere is done exactly when the subtask sum is 0. */
  lemma {:induction false} DoneSubtasksZero(ts: seq<LegacyTask>)
    ensures DoneSubtasks(ts) == 0 <==>
              forall i, j :: 0 <= i < |ts| && 0 <= j < |ts[i].subTasks| ==> !ts[i].subTasks[j].isDone
  {
    if ts != [] {
      var init, last := ts[..|ts| - 1], ts[|ts| - 1];
      DoneSubtasksZero(init);
      NoneDoneIffEmptyFilter(last.subTasks);
      assert forall i :: 0 <= i < |init| ==> init[i] == ts[i];
    }
  }

  lemma NoneDoneIffEmptyFilter(ss: seq<LegacySubtask>)
    ensures |Filter(ss, IsDoneLegacySubtask)| == 0 <==> forall j :: 0 <= j < |ss| ==> !ss[j].isDone
  {
    if |Filter(ss, IsDoneLegacySubtask)| > 0 {
      var s := Filter(ss, IsDoneLegacySubtask)[0];
      assert s in ss && s.isDone;
      var j :| 0 <= j < |ss| && ss[j] == s;
    }
    if forall j :: 0 <= j < |ss| ==> !ss[j].isDone {
      FilterNone(ss, IsDoneLegacySubtask);
    }
  }

  /** The first-completion threshold is met exactly when some task or some
      subtask is done. */
  lemma TotalCompletedPositive(ts: seq<LegacyTask>)
    ensures TotalCompleted(ts) >= 1 <==>
              (exists i :: 0 <= i < |ts| && ts[i].isDone)
              || (exists i, j :: 0 <= i < |ts| && 0 <= j < |ts[i].subTasks| && ts[i].subTasks[j].isDone)
  {
    DoneSubtasksZero(ts);
    FilterSplit(ts, IsDoneLegacyTask, (t: LegacyTask) => !t.isDone);
    if Count(ts, IsDoneLegacyTask) > 0 {
      var t := Filter(ts, IsDoneLegacyTask)[0];
      assert t in ts && t.isDone;
    }
    if exists i :: 0 <= i < |ts| && ts[i].isDone {
      var i :| 0 <= i < |ts| && ts[i].isDone;
      assert ts[i] in Filter(ts, IsDoneLegacyTask);
    }
  }

  // ------------------------------------------------------------ the awards

  const PrimeraTarea := LegacyAward("Primera Tarea", "mdi:trophy")
  const PrimeraCompletada := LegacyAward("Primera Completada", "bxs:party")
  const CincoCreadas := LegacyAward("5 Tareas Creadas", "mdi:star")
  const CincoCompletadas := LegacyAward("5 Tareas Completadas", "mdi:star")

  /** `newAwards.some(a => a.name === name)`. */
  predicate HasName(awards: seq<LegacyAward>, name: string)
  {
    exists k :: 0 <= k < |awards| && awards[k].name == name
  }

  /** `lastId && parseInt(lastId) >= bound`, with the stored value given as
      the integer it parses to, or `None` when it is absent or not a number. */
  predicate LastIdAtLeast(lastTaskId: Option<int>, bound: int)
  {
    lastTaskId.Some? && lastTaskId.value >= bound
  }

  /** One guarded `push`: the awards stay in front, at most one is added,
      and afterwards the name is there when the threshold is met or it was
      there before, and only then. */
  function Step(awards: seq<LegacyAward>, met: bool, a: LegacyAward): (r: seq<LegacyAward>)
    ensures |awards| <= |r| <= |awards| + 1 && r[..|awards|] == awards
    ensures HasName(r, a.name) <==> met || HasName(awards, a.name)
  {
    if met && !HasName(awards, a.name) then
      HasNameAppend(awards, a, a.name);
      assert (awards + [a])[..|awards|] == awards;
      awards + [a]
    else awards
  }

  /** The `setAwards` updater: the four guarded pushes in source order.
      Afterwards the name of every award whose threshold is met is present. */
  function AwardsPass(prev: seq<LegacyAward>, totalCompleted: int, lastTaskId: Option<int>): (r: seq<LegacyAward>)
    ensures LastIdAtLeast(lastTaskId, 1) ==> HasName(r, PrimeraTarea.name)
    ensures totalCompleted >= 1 ==> HasName(r, PrimeraCompletada.name)
    ensures LastIdAtLeast(lastTaskId, 5) ==> HasName(r, CincoCreadas.name)
    ensures totalCompleted >= 5 ==> HasName(r, CincoCompletadas.name)
  {
    var a1 := Step(prev, LastIdAtLeast(lastTaskId, 1), PrimeraTarea);
    var a2 := Step(a1, totalCompleted >= 1, PrimeraCompletada);
    var a3 := Step(a2, LastIdAtLeast(lastTaskId, 5), CincoCreadas);
    StepKeepsName(a1, totalCompleted >= 1, PrimeraCompletada, PrimeraTarea.name);
    StepKeepsName(a2, LastIdAtLeast(lastTaskId, 5), CincoCreadas, PrimeraTarea.name);
    StepKeepsName(a3, totalCompleted >= 5, CincoCompletadas, PrimeraTarea.name);
    StepKeepsName(a2, LastIdAtLeast(lastTaskId, 5), CincoCreadas, PrimeraCompletada.name);
    StepKeepsName(a3, totalCompleted >= 5, CincoCompletadas, PrimeraCompletada.name);
    StepKeepsName(a3, totalCompleted >= 5, CincoCompletadas, CincoCreadas.name);
    Step(a3, totalCompleted >= 5, CincoCompletadas)
  }

  /** The awards whose thresholds are met, in the fixed order of the pass. */
  function Earned(totalCompleted: int, lastTaskId: Option<int>): (r: seq<LegacyAward>)
    ensures |r| <= 4
    ensures PrimeraCompletada in r <==> totalCompleted >= 1
    ensures CincoCompletadas in r <==> totalCompleted >= 5
    ensures PrimeraTarea in r <==> LastIdAtLeast(lastTaskId, 1)
    ensures CincoCreadas in r <==> LastIdAtLeast(lastTaskId, 5)
  {
    When(LastIdAtLeast(lastTaskId, 1), PrimeraTarea)
    + When(totalCompleted >= 1, PrimeraCompletada)
    + When(LastIdAtLeast(lastTaskId, 5), CincoCreadas)
    + When(totalCompleted >= 5, CincoCompletadas)
  }

  function NameAbsent(prev: seq<LegacyAward>): LegacyAward -> bool
  {
    (a: LegacyAward) => !HasName(prev, a.name)
  }

  // ------------------------------------------------------------ properties

  lemma HasNameAppend(s: seq<LegacyAward>, a: LegacyAward, name: string)
    ensures HasName(s + [a], name) <==> HasName(s, name) || a.name == name
  {
    if HasName(s, name) {
      var k :| 0 <= k < |s| && s[k].name == name;
      assert (s + [a])[k].name == name;
    }
    assert (s + [a])[|s|] == a;
  }

  /** `[a]` when the guard holds, nothing otherwise. */
  function When(c: bool, a: LegacyAward): seq<LegacyAward>
  {
    if c then [a] else []
  }

  lemma HasNameConcat(x: seq<LegacyAward>, y: seq<LegacyAward>, name: string)
    ensures HasName(x + y, name) <==> HasName(x, name) || HasName(y, name)
  {
    if HasName(x + y, name) {
      var k :| 0 <= k < |x + y| && (x + y)[k].name == name;
      if k < |x| {
        assert x[k].name == name;
      } else {
        assert y[k - |x|].name == name;
      }
    }
    if HasName(x, name) {
      var k :| 0 <= k < |x| && x[k].name == name;
      assert (x + y)[k].name == name;
    }
    if HasName(y, name) {
      var k :| 0 <= k < |y| && y[k].name == name;
      assert (x + y)[|x| + k].name == name;
    }
  }

  lemma WhenOtherName(c: bool, a: LegacyAward, name: string)
    requires a.name != name
    ensures !HasName(When(c, a), name)
  {
  }

  /** A push onto a list extended only by awards of other names behaves as a
      push onto the original list. */
  lemma StepAfter(prev: seq<LegacyAward>, x: seq<LegacyAward>, met: bool, a: LegacyAward)
    requires !HasName(x, a.name)
    ensures Step(prev + x, met, a) == prev + (x + When(met && !HasName(prev, a.name), a))
  {
    HasNameConcat(prev, x, a.name);
  }

  /** The four pushes as one append: each guard is read against the previous
      awards, since the awards pushed before it carry other names. */
  lemma AwardsPassAsAppend(prev: seq<LegacyAward>, totalCompleted: int, lastTaskId: Option<int>)
    ensures AwardsPass(prev, totalCompleted, lastTaskId)
              == prev + (When(LastIdAtLeast(lastTaskId, 1) && !HasName(prev, PrimeraTarea.name), PrimeraTarea)
                         + When(totalCompleted >= 1 && !HasName(prev, PrimeraCompletada.name), PrimeraCompletada)
                         + When(LastIdAtLeast(lastTaskId, 5) && !HasName(prev, CincoCreadas.name), CincoCreadas)
                         + When(totalCompleted >= 5 && !HasName(prev, CincoCompletadas.name), CincoCompletadas))
  {
    var c1 := LastIdAtLeast(lastTaskId, 1);
    var c2 := totalCompleted >= 1;
    var c3 := LastIdAtLeast(lastTaskId, 5);
    var c4 := totalCompleted >= 5;
    var e1 := When(c1 && !HasName(prev, PrimeraTarea.name), PrimeraTarea);
    var e2 := When(c2 && !HasName(prev, PrimeraCompletada.name), PrimeraCompletada);
    var e3 := When(c3 && !HasName(prev, CincoCreadas.name), CincoCreadas);
    var e4 := When(c4 && !HasName(prev, CincoCompletadas.name), CincoCompletadas);
    var a1 := Step(prev, c1, PrimeraTarea);
    var a2 := Step(a1, c2, PrimeraCompletada);
    var a3 := Step(a2, c3, CincoCreadas);
    assert a1 == prev + e1 by {
      StepAfter(prev, [], c1, PrimeraTarea);
      assert prev + [] == prev;
    }
    assert a2 == prev + (e1 + e2) by {
      WhenOtherName(c1 && !HasName(prev, PrimeraTarea.name), PrimeraTarea, PrimeraCompletada.name);
      StepAfter(prev, e1, c2, PrimeraCompletada);
    }
    assert a3 == prev + (e1 + e2 + e3) by {
      WhenOtherName(c1 && !HasName(prev, PrimeraTarea.name), PrimeraTarea, CincoCreadas.name);
      WhenOtherName(c2 && !HasName(prev, PrimeraCompletada.name), PrimeraCompletada, CincoCreadas.name);
      HasNameConcat(e1, e2, CincoCreadas.name);
      StepAfter(prev, e1 + e2, c3, CincoCreadas);
    }
    assert Step(a3, c4, CincoCompletadas) == prev + (e1 + e2 + e3 + e4) by {
      WhenOtherName(c1 && !HasName(prev, PrimeraTarea.name), PrimeraTarea, CincoCompletadas.name);
      WhenOtherName(c2 && !HasName(prev, PrimeraCompletada.name), PrimeraCompletada, CincoCompletadas.name);
      WhenOtherName(c3 && !HasName(prev, CincoCreadas.name), CincoCreadas, CincoCompletadas.name);
      HasNameConcat(e1, e2, CincoCompletadas.name);
      HasNameConcat(e1 + e2, e3, CincoCompletadas.name);
      StepAfter(prev, e1 + e2 + e3, c4, CincoCompletadas);
    }
  }

  lemma FilterWhen(c: bool, a: LegacyAward, p: LegacyAward -> bool)
    ensures Filter(When(c, a), p) == When(c && p(a), a)
  {
  }

  /** The pass appends, after the untouched previous awards, exactly the
      earned awards whose names are not there yet, in the fixed order
      Primera Tarea, Primera Completada, 5 Tareas Creadas, 5 Tareas
      Completadas. */
  lemma AwardsPassAppendsEarned(prev: seq<LegacyAward>, totalCompleted: int, lastTaskId: Option<int>)
    ensures AwardsPass(prev, totalCompleted, lastTaskId)
              == prev + Filter(Earned(totalCompleted, lastTaskId), NameAbsent(prev))
  {
    AwardsPassAsAppend(prev, totalCompleted, lastTaskId);
    FilterFourWhens(LastIdAtLeast(lastTaskId, 1), totalCompleted >= 1, LastIdAtLeast(lastTaskId, 5),
                    totalCompleted >= 5, PrimeraTarea, PrimeraCompletada, CincoCreadas, CincoCompletadas,
                    NameAbsent(prev));
  }

  lemma FilterFourWhens(c1: bool, c2: bool, c3: bool, c4: bool,
                        a1: LegacyAward, a2: LegacyAward, a3: LegacyAward, a4: LegacyAward,
                        p: LegacyAward -> bool)
    ensures Filter(When(c1, a1) + When(c2, a2) + When(c3, a3) + When(c4, a4), p)
              == When(c1 && p(a1), a1) + When(c2 && p(a2), a2) + When(c3 && p(a3), a3) + When(c4 && p(a4), a4)
  {
    FilterConcat(When(c1, a1) + When(c2, a2) + When(c3, a3), When(c4, a4), p);
    FilterConcat(When(c1, a1) + When(c2, a2), When(c3, a3), p);
    FilterConcat(When(c1, a1), When(c2, a2), p);
    FilterWhen(c1, a1, p);
    FilterWhen(c2, a2, p);
    FilterWhen(c3, a3, p);
    FilterWhen(c4, a4, p);
  }

  /** The pass never removes or reorders an award and adds at most four. */
  lemma AwardsPassOnlyAppends(prev: seq<LegacyAward>, totalCompleted: int, lastTaskId: Option<int>)
    ensures var r := AwardsPass(prev, totalCompleted, lastTaskId);
            |prev| <= |r| <= |prev| + 4 && r[..|prev|] == prev
  {
    AwardsPassAppendsEarned(prev, totalCompleted, lastTaskId);
    FilterIsSubseq(Earned(totalCompleted, lastTaskId), NameAbsent(prev));
    var r := AwardsPass(prev, totalCompleted, lastTaskId);
    assert r[..|prev|] == prev;
  }

  /** An award of the pass ends up newly added exactly when its threshold is
      met and its name was absent before. */
  lemma AppendedExactly(prev: seq<LegacyAward>, totalCompleted: int, lastTaskId: Option<int>)
    ensures var added := AwardsPass(prev, totalCompleted, lastTaskId)[|prev|..];
            (PrimeraTarea in added <==> LastIdAtLeast(lastTaskId, 1) && !HasName(prev, PrimeraTarea.name))
            && (PrimeraCompletada in added <==> totalCompleted >= 1 && !HasName(prev, PrimeraCompletada.name))
            && (CincoCreadas in added <==> LastIdAtLeast(lastTaskId, 5) && !HasName(prev, CincoCreadas.name))
            && (CincoCompletadas in added <==> totalCompleted >= 5 && !HasName(prev, CincoCompletadas.name))
  {
    AwardsPassAppendsEarned(prev, totalCompleted, lastTaskId);
    var e := Earned(totalCompleted, lastTaskId);
    var f := Filter(e, NameAbsent(prev));
    assert AwardsPass(prev, totalCompleted, lastTaskId)[|prev|..] == f;
    FilterMembers(e, NameAbsent(prev), PrimeraTarea);
    FilterMembers(e, NameAbsent(prev), PrimeraCompletada);
    FilterMembers(e, NameAbsent(prev), CincoCreadas);
    FilterMembers(e, NameAbsent(prev), CincoCompletadas);
  }

  lemma FilterMembers(s: seq<LegacyAward>, p: LegacyAward -> bool, x: LegacyAward)
    ensures x in Filter(s, p) <==> x in s && p(x)
  {
    FilterIsSubseq(s, p);
    SubseqMembers(Filter(s, p), s);
    if x in s && p(x) {
      var k :| 0 <= k < |s| && s[k] == x;
      assert s[k] in Filter(s, p);
    }
  }

  /** No two awards share a name. */
  predicate NamesDistinct(awards: seq<LegacyAward>)
  {
    forall i, j :: 0 <= i < j < |awards| ==> awards[i].name != awards[j].name
  }

  lemma StepKeepsNamesDistinct(s: seq<LegacyAward>, met: bool, a: LegacyAward)
    requires NamesDistinct(s)
    ensures NamesDistinct(Step(s, met, a))
  {
    if met && !HasName(s, a.name) {
      var r := s + [a];
      forall i, j | 0 <= i < j < |r| ensures r[i].name != r[j].name {
        if j == |s| {
          assert s[i].name != a.name;
        }
      }
    }
  }

  /** Starting from awards with distinct names, the pass leaves no name twice. */
  lemma AwardsPassKeepsNamesDistinct(prev: seq<LegacyAward>, totalCompleted: int, lastTaskId: Option<int>)
    requires NamesDistinct(prev)
    ensures NamesDistinct(AwardsPass(prev, totalCompleted, lastTaskId))
  {
    var a1 := Step(prev, LastIdAtLeast(lastTaskId, 1), PrimeraTarea);
    StepKeepsNamesDistinct(prev, LastIdAtLeast(lastTaskId, 1), PrimeraTarea);
    var a2 := Step(a1, totalCompleted >= 1, PrimeraCompletada);
    StepKeepsNamesDistinct(a1, totalCompleted >= 1, PrimeraCompletada);
    var a3 := Step(a2, LastIdAtLeast(lastTaskId, 5), CincoCreadas);
    StepKeepsNamesDistinct(a2, LastIdAtLeast(lastTaskId, 5), CincoCreadas);
    StepKeepsNamesDistinct(a3, totalCompleted >= 5, CincoCompletadas);
  }

  /** After a push, the name is there whenever its threshold is met. */
  lemma StepHasName(s: seq<LegacyAward>, met: bool, a: LegacyAward)
    ensures met ==> HasName(Step(s, met, a), a.name)
  {
    if met && !HasName(s, a.name) {
      assert (s + [a])[|s|] == a;
    }
  }

  lemma StepKeepsName(s: seq<LegacyAward>, met: bool, a: LegacyAward, name: string)
    ensures HasName(s, name) ==> HasName(Step(s, met, a), name)
  {
    if HasName(s, name) && met && !HasName(s, a.name) {
      HasNameAppend(s, a, name);
    }
  }

  /** A second pass over the same task list and stored id changes nothing. */
  lemma AwardsPassIdempotent(prev: seq<LegacyAward>, totalCompleted: int, lastTaskId: Option<int>)
    ensures var r := AwardsPass(prev, totalCompleted, lastTaskId);
            AwardsPass(r, totalCompleted, lastTaskId) == r
  {
    var c1, c2 := LastIdAtLeast(lastTaskId, 1), totalCompleted >= 1;
    var c3, c4 := LastIdAtLeast(lastTaskId, 5), totalCompleted >= 5;
    var a1 := Step(prev, c1, PrimeraTarea);
    var a2 := Step(a1, c2, PrimeraCompletada);
    var a3 := Step(a2, c3, CincoCreadas);
    var r := Step(a3, c4, CincoCompletadas);
    StepHasName(prev, c1, PrimeraTarea);
    StepKeepsName(a1, c2, PrimeraCompletada, PrimeraTarea.name);
    StepKeepsName(a2, c3, CincoCreadas, PrimeraTarea.name);
    StepKeepsName(a3, c4, CincoCompletadas, PrimeraTarea.name);
    StepHasName(a1, c2, PrimeraCompletada);
    StepKeepsName(a2, c3, CincoCreadas, PrimeraCompletada.name);
    StepKeepsName(a3, c4, CincoCompletadas, PrimeraCompletada.name);
    StepHasName(a2, c3, CincoCreadas);
    StepKeepsName(a3, c4, CincoCompletadas, CincoCreadas.name);
    StepHasName(a3, c4, CincoCompletadas);
    assert Step(r, c1, PrimeraTarea) == r;
    assert Step(r, c2, PrimeraCompletada) == r;
    assert Step(r, c3, CincoCreadas) == r;
    assert Step(r, c4, CincoCompletadas) == r;
  }

  // --------------------------------------------------------------- effect

  /** The `useEffect` body: count the completed items of the legacy list,
      copy the awards, push each award whose guard holds, write the copy
      back. */
  method AwardsEffect(atoms: LegacyAtoms, lastTaskId: Option<int>)
    modifies atoms`awards
    ensures atoms.awards == AwardsPass(old(atoms.awards), TotalCompleted(atoms.tasks), lastTaskId)
  {
    var totalCompleted := TotalCompleted(atoms.tasks);
    var newAwards := atoms.awards;
    if LastIdAtLeast(lastTaskId, 1) && !HasName(newAwards, "Primera Tarea") {
      newAwards := newAwards + [LegacyAward("Primera Tarea", "mdi:trophy")];
    }
    if totalCompleted >= 1 && !HasName(newAwards, "Primera Completada") {
      newAwards := newAwards + [LegacyAward("Primera Completada", "bxs:party")];
    }
    if LastIdAtLeast(lastTaskId, 5) && !HasName(newAwards, "5 Tareas Creadas") {
      newAwards := newAwards + [LegacyAward("5 Tareas Creadas", "mdi:star")];
    }
    if totalCompleted >= 5 && !HasName(newAwards, "5 Tareas Completadas") {
      newAwards := newAwards + [LegacyAward("5 Tareas Completadas", "mdi:star")];
    }
    atoms.awards := newAwards;
  }
}
