/** The confirmation dialog of src/components/modals/DeleteAllConfirmationModal.tsx,
    on the legacy atoms it imports: the modal slot and the legacy task list. */
module DeleteAllModal {
  import opened Types
  import opened LegacyState

  /** Aceptar: `setTaskList([])`, then `setCurrentModal(null)`. The awards
      atom is not touched. */
  method Confirm(atoms: LegacyAtoms)
    modifies atoms`tasks, atoms`currentModal
    ensures atoms.tasks == [] && atoms.currentModal == None
  {
    atoms.tasks := [];
    atoms.currentModal := None;
  }

  /** Cancelar: `setCurrentModal(null)` only; the task list is kept. */
  method Cancel(atoms: LegacyAtoms)
    modifies atoms`currentModal
    ensures atoms.currentModal == None && atoms.tasks == old(atoms.tasks)
  {
    atoms.currentModal := None;
  }
}
