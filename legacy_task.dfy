/** The legacy task card of src/components/Task.tsx: its delete button
    replaces the legacy task list with the tasks of other ids. */
module LegacyTaskView {
  import opened Seqs
  import opened LegacyState

  function OtherId(id: int): LegacyTask -> bool
  {
    (t: LegacyTask) => t.id != id
  }

  function HasId(id: int): LegacyTask -> bool
  {
    (t: LegacyTask) => t.id == id
  }

  /** `prev.filter(task => task.id !== id)`: no task with the id is left,
      every other task stays in its relative order, an absent id changes
      nothing, and the list shrinks by the number of tasks with the id. */
  function Without(ts: seq<LegacyTask>, id: int): (r: seq<LegacyTask>)
    ensures IsSubseq(r, ts)
    ensures forall i :: 0 <= i < |r| ==> r[i].id != id
    ensures forall i :: 0 <= i < |ts| && ts[i].id != id ==> ts[i] in r
    ensures (forall i :: 0 <= i < |ts| ==> ts[i].id != id) ==> r == ts
    ensures |r| == |ts| - Count(ts, HasId(id))
  {
    FilterIsSubseq(ts, OtherId(id));
    FilterSplit(ts, HasId(id), OtherId(id));
    AbsentIdKeepsAll(ts, id);
    Filter(ts, OtherId(id))
  }

  lemma AbsentIdKeepsAll(ts: seq<LegacyTask>, id: int)
    ensures (forall i :: 0 <= i < |ts| ==> ts[i].id != id) ==> Filter(ts, OtherId(id)) == ts
  {
    if forall i :: 0 <= i < |ts| ==> ts[i].id != id {
      FilterAll(ts, OtherId(id));
    }
  }

  /** `handleDelete` of the card showing task `id`. */
  method HandleDelete(atoms: LegacyAtoms, id: int)
    modifies atoms`tasks
    ensures atoms.tasks == Without(old(atoms.tasks), id)
  {
    atoms.tasks := Without(atoms.tasks, id);
  }
}
