/** The layout atoms of src/features/layout/store/layoutAtoms.ts: the stored
    `currentView` (a string, since a stored value need not be one of the view
    keys) and the `currentModal` slot. */
module Layout {
  import opened Types

  class LayoutState {
    var currentView: string
    var currentModal: Option<ModalKind>

    /** The defaults: the list view and no modal. */
    constructor ()
      ensures currentView == ViewType.List.Key() && currentModal == None
    {
      currentView := "list";
      currentModal := None;
    }
  }
}
