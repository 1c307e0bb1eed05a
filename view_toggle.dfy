/** The toolbar of src/components/ViewToggle.tsx: the view buttons, the
    delete-all button and the awards label. */
module ViewToggleBar {
  import opened Types
  import Layout
  import AwardsEval

  /** `handleViewChange`: the stored view becomes the chosen key; the modal
      slot is untouched. */
  method HandleViewChange(layout: Layout.LayoutState, v: ViewType)
    modifies layout`currentView
    ensures layout.currentView == v.Key()
  {
    layout.currentView := v.Key();
  }

  /** `handleDeleteAll`: opens the confirmation; the tasks and the view are
      untouched (the method may change nothing else). */
  method HandleDeleteAll(layout: Layout.LayoutState)
    modifies layout`currentModal
    ensures layout.currentModal == Some(DeleteAllConfirmation)
  {
    layout.currentModal := Some(DeleteAllConfirmation);
  }

  /** `hasAnyTasks`; the delete-all button is disabled exactly when it is
      false, that is, when the list is empty. */
  function HasAnyTasks(ts: seq<Task>): (b: bool)
    ensures b <==> ts != []
  {
    |ts| > 0
  }

  /** The three entries of `viewOptions`, in order. */
  const ViewOptions: seq<ViewType> := [List, Calendar, Awards]

  /** Only the three views are offered, each once, and they are all the views
      there are. */
  lemma ViewOptionsComplete()
    ensures |ViewOptions| == 3
    ensures forall i, j :: 0 <= i < j < |ViewOptions| ==> ViewOptions[i] != ViewOptions[j]
    ensures forall v: ViewType :: v in ViewOptions
    ensures ViewOptions == ViewTypes
  {
    forall v: ViewType ensures v in ViewOptions {
      match v
      case List => assert ViewOptions[0] == v;
      case Calendar => assert ViewOptions[1] == v;
      case Awards => assert ViewOptions[2] == v;
    }
  }

  /** The counts of the label `Logros (u/n)`. */
  datatype AwardsLabel = AwardsLabel(unlocked: nat, total: nat)

  /** The denominator `unlocked + locked` is the number of awards, so the
      label never shows more unlocked awards than there are. */
  function AwardsLabelOf(awards: seq<Award>): (l: AwardsLabel)
    ensures l.total == |awards|
    ensures l.unlocked <= l.total
    ensures l.unlocked == |AwardsEval.UnlockedAwards(awards)|
  {
    AwardsEval.UnlockedLockedPartition(awards);
    var u := |AwardsEval.UnlockedAwards(awards)|;
    AwardsLabel(u, u + |AwardsEval.LockedAwards(awards)|)
  }
}
