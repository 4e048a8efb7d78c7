/**
 * The dialogs of the interactive picker.  The create dialog collects a
 * worktree name and a base (a branch, an existing worktree, or HEAD when
 * there is neither); the remove and merge dialogs hold a row of
 * check-box options and a row of buttons.  Each is a class whose methods
 * update its fields in place, together with the plain-value view the
 * renderer reads.
 */
module Dialogs {
  import opened Wrappers
  import opened Order
  import opened Interactive

  datatype CreateDialogFocus = Name | Base | Buttons
  {
    /** Tab inside the dialog: Name, then Base, then Buttons, then back. */
    function Next(): (f: CreateDialogFocus)
      ensures f != this
    {
      match this
      case Name => Base
      case Base => Buttons
      case Buttons => Name
    }

    /** Shift-Tab inside the dialog: the reverse cycle. */
    function Prev(): (f: CreateDialogFocus)
      ensures f != this
    {
      match this
      case Name => Buttons
      case Base => Name
      case Buttons => Base
    }
  }

  lemma CreateFocusInverse(f: CreateDialogFocus)
    ensures f.Next().Prev() == f && f.Prev().Next() == f
    ensures f.Next().Next().Next() == f
  {
  }

  /** A base the new worktree can start from; `value` None stands for HEAD. */
  datatype BaseOption = BaseOption(caption: string, value: Option<string>)

  datatype BaseOptionGroup = BaseOptionGroup(title: string, options: seq<BaseOption>)

  // ---------------------------------------------------------------------
  // What `CreateDialog::new` builds
  // ---------------------------------------------------------------------

  function BranchOptions(branches: seq<string>): (r: seq<BaseOption>)
    ensures |r| == |branches|
    ensures forall i :: 0 <= i < |r| ==> r[i] == BaseOption("branch: " + branches[i], Some(branches[i]))
  {
    seq(|branches|, i requires 0 <= i < |branches| => BaseOption("branch: " + branches[i], Some(branches[i])))
  }

  function WorktreeOption(entry: WorktreeEntry): BaseOption
  {
    BaseOption("worktree: " + entry.name, Some(entry.name))
  }

  /** One option per worktree, sorted by label. */
  function WorktreeOptions(worktrees: seq<WorktreeEntry>): (r: seq<BaseOption>)
    ensures |r| == |worktrees|
    ensures SortedBy(r, (o: BaseOption) => o.caption)
    ensures multiset(r) == multiset(seq(|worktrees|, i requires 0 <= i < |worktrees| => WorktreeOption(worktrees[i])))
  {
    SortBy(seq(|worktrees|, i requires 0 <= i < |worktrees| => WorktreeOption(worktrees[i])), (o: BaseOption) => o.caption)
  }

  const HEAD_GROUP := BaseOptionGroup("General", [BaseOption("HEAD", None)])

  /** The option groups: branches, then worktrees, or a lone HEAD option when both are empty. */
  function BaseGroupsFor(branches: seq<string>, worktrees: seq<WorktreeEntry>): seq<BaseOptionGroup>
  {
    var groups :=
      (if |branches| > 0 then [BaseOptionGroup("Branches", BranchOptions(branches))] else [])
      + (if |worktrees| > 0 then [BaseOptionGroup("Worktrees", WorktreeOptions(worktrees))] else []);
    if groups == [] then [HEAD_GROUP] else groups
  }

  /** The groups always exist and none is empty; HEAD is offered exactly when nothing else is. */
  lemma BaseGroupsShape(branches: seq<string>, worktrees: seq<WorktreeEntry>)
    ensures var groups := BaseGroupsFor(branches, worktrees);
      && 1 <= |groups| <= 2
      && (forall g :: 0 <= g < |groups| ==> |groups[g].options| > 0)
      && (groups == [HEAD_GROUP] <==> branches == [] && worktrees == [])
      && (branches != [] ==> groups[0] == BaseOptionGroup("Branches", BranchOptions(branches)))
      && (worktrees != [] ==> groups[|groups| - 1] == BaseOptionGroup("Worktrees", WorktreeOptions(worktrees)))
  {
  }

  /** The pairs `(g, 0) .. (g, n - 1)`. */
  function Row(g: nat, n: nat): (r: seq<(nat, nat)>)
    ensures |r| == n
    ensures forall o :: 0 <= o < n ==> r[o] == (g, o)
  {
    seq(n, o requires 0 <= o < n => (g, o))
  }

  /** Every `(group, option)` pair, group by group, options in order. */
  function FlatIndices(groups: seq<BaseOptionGroup>): seq<(nat, nat)>
    decreases |groups|
  {
    if groups == [] then []
    else FlatIndices(groups[..|groups| - 1]) + Row(|groups| - 1, |groups[|groups| - 1].options|)
  }

  /** Every pair names an existing option of an existing group. */
  predicate IndicesValid(groups: seq<BaseOptionGroup>, indices: seq<(nat, nat)>)
  {
    forall k :: 0 <= k < |indices| ==>
      indices[k].0 < |groups| && indices[k].1 < |groups[indices[k].0].options|
  }

  /** `a` comes strictly before `b` in group-then-option order. */
  predicate PairBefore(a: (nat, nat), b: (nat, nat))
  {
    a.0 < b.0 || (a.0 == b.0 && a.1 < b.1)
  }

  /**
   * The flattened indices name each option of each group exactly once, in
   * group-then-option order.
   */
  lemma {:induction false} FlatIndicesExact(groups: seq<BaseOptionGroup>)
    ensures IndicesValid(groups, FlatIndices(groups))
    ensures forall g, o :: 0 <= g < |groups| && 0 <= o < |groups[g].options| ==> (g, o) in FlatIndices(groups)
    ensures forall i, j :: 0 <= i < j < |FlatIndices(groups)| ==> PairBefore(FlatIndices(groups)[i], FlatIndices(groups)[j])
    decreases |groups|
  {
    if groups != [] {
      var init := groups[..|groups| - 1];
      var last := |groups| - 1;
      FlatIndicesExact(init);
      var prefix := FlatIndices(init);
      var row := Row(last, |groups[last].options|);
      var flat := FlatIndices(groups);
      assert flat == prefix + row;
      forall k | 0 <= k < |flat|
        ensures flat[k].0 < |groups| && flat[k].1 < |groups[flat[k].0].options|
      {
        if k < |prefix| {
          assert flat[k] == prefix[k];
          assert groups[prefix[k].0] == init[prefix[k].0];
        }
      }
      forall g, o | 0 <= g < |groups| && 0 <= o < |groups[g].options|
        ensures (g, o) in flat
      {
        if g < last {
          assert groups[g] == init[g];
          assert (g, o) in prefix;
        } else {
          assert row[o] == (g, o);
        }
      }
      forall i, j | 0 <= i < j < |flat|
        ensures PairBefore(flat[i], flat[j])
      {
        if j < |prefix| {
          assert flat[i] == prefix[i] && flat[j] == prefix[j];
        } else if i < |prefix| {
          assert flat[i] == prefix[i];
          assert groups[prefix[i].0] == init[prefix[i].0];
        }
      }
    }
  }

  /** The first position whose option has `default` as its value. */
  function DefaultPosition(groups: seq<BaseOptionGroup>, indices: seq<(nat, nat)>, default: string, from: nat): (r: Option<nat>)
    requires IndicesValid(groups, indices) && from <= |indices|
    ensures r.Some? ==>
      (from <= r.value < |indices| && groups[indices[r.value].0].options[indices[r.value].1].value == Some(default))
    ensures forall k :: from <= k < (if r.Some? then r.value else |indices|) ==>
      groups[indices[k].0].options[indices[k].1].value != Some(default)
    decreases |indices| - from
  {
    if from == |indices| then None
    else if groups[indices[from].0].options[indices[from].1].value == Some(default) then Some(from)
    else DefaultPosition(groups, indices, default, from + 1)
  }

  /** The option selected when the dialog opens: the default branch's, else the first. */
  function InitialSelection(groups: seq<BaseOptionGroup>, indices: seq<(nat, nat)>, default: Option<string>): nat
    requires IndicesValid(groups, indices)
  {
    if default.None? then 0
    else
      match DefaultPosition(groups, indices, default.value, 0)
      case Some(k) => k
      case None => 0
  }

  /**
   * When the default branch is among the branches, the dialog opens on the
   * option for that branch.
   */
  lemma DefaultBranchPreselected(branches: seq<string>, worktrees: seq<WorktreeEntry>, default: string)
    requires default in branches
    ensures var groups := BaseGroupsFor(branches, worktrees);
      var indices := FlatIndices(groups);
      IndicesValid(groups, indices)
      && var k := InitialSelection(groups, indices, Some(default));
      k < |indices| && groups[indices[k].0].options[indices[k].1].value == Some(default)
  {
    var groups := BaseGroupsFor(branches, worktrees);
    var indices := FlatIndices(groups);
    FlatIndicesExact(groups);
    var i :| 0 <= i < |branches| && branches[i] == default;
    assert groups[0].options[i].value == Some(default);
    assert (0, i) in indices;
  }

  /** The nested loops of `CreateDialog::new` that list every `(group, option)` pair. */
  method BuildIndices(groups: seq<BaseOptionGroup>) returns (indices: seq<(nat, nat)>)
    ensures indices == FlatIndices(groups)
  {
    indices := [];
    var g := 0;
    while g < |groups|
      invariant g <= |groups|
      invariant indices == FlatIndices(groups[..g])
    {
      var o := 0;
      while o < |groups[g].options|
        invariant o <= |groups[g].options|
        invariant indices == FlatIndices(groups[..g]) + Row(g, o)
      {
        indices := indices + [(g, o)];
        o := o + 1;
      }
      assert groups[..g + 1][..g] == groups[..g];
      g := g + 1;
    }
    assert groups[..|groups|] == groups;
  }

  /** The search of `CreateDialog::new` for the default branch's option. */
  method FindInitialSelection(groups: seq<BaseOptionGroup>, indices: seq<(nat, nat)>, default: Option<string>) returns (selected: nat)
    requires IndicesValid(groups, indices)
    ensures selected == InitialSelection(groups, indices, default)
    ensures indices != [] ==> selected < |indices|
  {
    selected := 0;
    if default.Some? {
      var k := 0;
      while k < |indices| && groups[indices[k].0].options[indices[k].1].value != default
        invariant k <= |indices|
        invariant DefaultPosition(groups, indices, default.value, k) == DefaultPosition(groups, indices, default.value, 0)
      {
        k := k + 1;
      }
      if k < |indices| {
        selected := k;
      }
    }
  }

  /**
   * The option at position `selected` of the flattened pairs, or None past
   * their end; the pairs themselves must name existing options.
   */
  function BaseAt(groups: seq<BaseOptionGroup>, indices: seq<(nat, nat)>, selected: nat): (r: Option<BaseOption>)
    requires IndicesValid(groups, indices)
    ensures r.Some? <==> selected < |indices|
    ensures r.Some? ==> r.value in groups[indices[selected].0].options
  {
    if selected < |indices| then Some(groups[indices[selected].0].options[indices[selected].1]) else None
  }

  // ---------------------------------------------------------------------
  // CreateDialog
  // ---------------------------------------------------------------------

  /** The plain copy of a create dialog's fields that the renderer reads. */
  datatype CreateDialogView = CreateDialogView(
    nameInput: string,
    focus: CreateDialogFocus,
    buttonsSelected: nat,
    baseGroups: seq<BaseOptionGroup>,
    baseSelected: nat,
    baseIndices: seq<(nat, nat)>,
    error: Option<string>)

  class CreateDialog {
    var nameInput: string
    var focus: CreateDialogFocus
    var buttonsSelected: nat
    const baseGroups: seq<BaseOptionGroup>
    const baseIndices: seq<(nat, nat)>
    var baseSelected: nat
    var error: Option<string>

    /** The selected base and button exist, and every index pair names an option. */
    ghost predicate Valid()
      reads this
    {
      IndicesValid(baseGroups, baseIndices) && baseSelected < |baseIndices| && buttonsSelected < 2
    }

    /** `CreateDialog::new`. */
    constructor(branches: seq<string>, worktrees: seq<WorktreeEntry>, defaultBranch: Option<string>)
      ensures Valid()
      ensures baseGroups == BaseGroupsFor(branches, worktrees)
      ensures baseIndices == FlatIndices(baseGroups)
      ensures baseSelected == InitialSelection(baseGroups, baseIndices, defaultBranch)
      ensures nameInput == "" && focus == Name && buttonsSelected == 0 && error == None
    {
      var groups := BaseGroupsFor(branches, worktrees);
      BaseGroupsShape(branches, worktrees);
      var indices := BuildIndices(groups);
      FlatIndicesExact(groups);
      var selected := FindInitialSelection(groups, indices, defaultBranch);
      // Every group has an option, so the pairs are never empty; the
      // fallback the source keeps for that case is not reachable here.
      assert (0, 0) in indices;

      nameInput := "";
      focus := Name;
      buttonsSelected := 0;
      baseGroups := groups;
      baseIndices := indices;
      baseSelected := selected;
      error := None;
    }

    /** `base_option()`: the option at the selected position. */
    function SelectedBase(): (r: Option<BaseOption>)
      reads this
      requires IndicesValid(baseGroups, baseIndices)
      ensures Valid() ==> r.Some?
    {
      BaseAt(baseGroups, baseIndices, baseSelected)
    }

    method FocusNext()
      modifies this
      ensures focus == old(focus).Next()
      ensures nameInput == old(nameInput) && buttonsSelected == old(buttonsSelected)
      ensures baseSelected == old(baseSelected) && error == old(error)
    {
      focus := focus.Next();
    }

    method FocusPrev()
      modifies this
      ensures focus == old(focus).Prev()
      ensures nameInput == old(nameInput) && buttonsSelected == old(buttonsSelected)
      ensures baseSelected == old(baseSelected) && error == old(error)
    {
      focus := focus.Prev();
    }

    /** `move_base`: wraps around the options; nothing happens when there are none. */
    method MoveBase(delta: int)
      modifies this
      ensures |baseIndices| == 0 ==> baseSelected == old(baseSelected)
      ensures |baseIndices| > 0 ==> baseSelected == Cycle(old(baseSelected), delta, |baseIndices|)
      ensures nameInput == old(nameInput) && focus == old(focus)
      ensures buttonsSelected == old(buttonsSelected) && error == old(error)
    {
      if |baseIndices| == 0 {
        return;
      }
      baseSelected := Cycle(baseSelected, delta, |baseIndices|);
    }

    /** `From<&CreateDialog> for CreateDialogView`: every field copied unchanged. */
    function View(): (v: CreateDialogView)
      reads this
      ensures v.nameInput == nameInput && v.focus == focus && v.buttonsSelected == buttonsSelected
      ensures v.baseGroups == baseGroups && v.baseSelected == baseSelected
      ensures v.baseIndices == baseIndices && v.error == error
    {
      CreateDialogView(nameInput, focus, buttonsSelected, baseGroups, baseSelected, baseIndices, error)
    }
  }

  // ---------------------------------------------------------------------
  // RemoveDialog
  // ---------------------------------------------------------------------

  datatype PanelFocus = Options | ButtonRow
  {
    /** The two-panel dialogs toggle between options and buttons. */
    function Toggle(): (f: PanelFocus)
      ensures f != this
    {
      if this == Options then ButtonRow else Options
    }
  }

  lemma ToggleInvolution(f: PanelFocus)
    ensures f.Toggle().Toggle() == f
  {
  }

  datatype RemoveDialogView = RemoveDialogView(
    focus: PanelFocus,
    optionsSelected: nat,
    buttonsSelected: nat,
    removeLocalBranch: bool)

  const REMOVE_OPTION_COUNT: nat := 1
  const REMOVE_BUTTON_COUNT: nat := 2

  class RemoveDialog {
    var index: nat
    var focus: PanelFocus
    var optionsSelected: nat
    var buttonsSelected: nat
    var removeLocalBranch: bool

    /** `RemoveDialog::new`: options focused, "Remove" button selected, branch removal on. */
    constructor(index: nat)
      ensures this.index == index && focus == Options && optionsSelected == 0
      ensures buttonsSelected == 1 && removeLocalBranch
    {
      this.index := index;
      focus := Options;
      optionsSelected := 0;
      buttonsSelected := 1;
      removeLocalBranch := true;
    }

    method FocusNext()
      modifies this
      ensures focus == old(focus).Toggle()
      ensures index == old(index) && optionsSelected == old(optionsSelected)
      ensures buttonsSelected == old(buttonsSelected) && removeLocalBranch == old(removeLocalBranch)
    {
      focus := focus.Toggle();
    }

    /** With two panels, going back is the same move as going forward. */
    method FocusPrev()
      modifies this
      ensures focus == old(focus).Toggle()
      ensures index == old(index) && optionsSelected == old(optionsSelected)
      ensures buttonsSelected == old(buttonsSelected) && removeLocalBranch == old(removeLocalBranch)
    {
      FocusNext();
    }

    method MoveOption(delta: int)
      modifies this
      ensures optionsSelected == Cycle(old(optionsSelected), delta, REMOVE_OPTION_COUNT)
      ensures optionsSelected == 0
      ensures index == old(index) && focus == old(focus)
      ensures buttonsSelected == old(buttonsSelected) && removeLocalBranch == old(removeLocalBranch)
    {
      optionsSelected := Cycle(optionsSelected, delta, REMOVE_OPTION_COUNT);
    }

    method MoveButton(delta: int)
      modifies this
      ensures buttonsSelected == Cycle(old(buttonsSelected), delta, REMOVE_BUTTON_COUNT)
      ensures index == old(index) && focus == old(focus)
      ensures optionsSelected == old(optionsSelected) && removeLocalBranch == old(removeLocalBranch)
    {
      buttonsSelected := Cycle(buttonsSelected, delta, REMOVE_BUTTON_COUNT);
    }

    /** Flips "remove local branch" when that option is the selected one. */
    method ToggleSelectedOption()
      modifies this
      ensures removeLocalBranch == (if old(optionsSelected) == 0 then !old(removeLocalBranch) else old(removeLocalBranch))
      ensures index == old(index) && focus == old(focus)
      ensures optionsSelected == old(optionsSelected) && buttonsSelected == old(buttonsSelected)
    {
      if optionsSelected == 0 {
        removeLocalBranch := !removeLocalBranch;
      }
    }

    function View(): (v: RemoveDialogView)
      reads this
      ensures v.focus == focus && v.optionsSelected == optionsSelected
      ensures v.buttonsSelected == buttonsSelected && v.removeLocalBranch == removeLocalBranch
    {
      RemoveDialogView(focus, optionsSelected, buttonsSelected, removeLocalBranch)
    }
  }

  // ---------------------------------------------------------------------
  // MergeDialog
  // ---------------------------------------------------------------------

  datatype MergeDialogView = MergeDialogView(
    focus: PanelFocus,
    optionsSelected: nat,
    buttonsSelected: nat,
    removeLocalBranch: bool,
    removeRemoteBranch: bool,
    removeWorktree: bool)

  const MERGE_OPTION_COUNT: nat := 3
  const MERGE_BUTTON_COUNT: nat := 2

  class MergeDialog {
    var index: nat
    var focus: PanelFocus
    var optionsSelected: nat
    var buttonsSelected: nat
    var removeLocalBranch: bool
    var removeRemoteBranch: bool
    var removeWorktree: bool

    /** `MergeDialog::new`: local branch removal on, remote branch and worktree removal off. */
    constructor(index: nat)
      ensures this.index == index && focus == Options && optionsSelected == 0 && buttonsSelected == 1
      ensures removeLocalBranch && !removeRemoteBranch && !removeWorktree
    {
      this.index := index;
      focus := Options;
      optionsSelected := 0;
      buttonsSelected := 1;
      removeLocalBranch := true;
      removeRemoteBranch := false;
      removeWorktree := false;
    }

    method FocusNext()
      modifies this
      ensures focus == old(focus).Toggle()
      ensures index == old(index) && optionsSelected == old(optionsSelected) && buttonsSelected == old(buttonsSelected)
      ensures removeLocalBranch == old(removeLocalBranch) && removeRemoteBranch == old(removeRemoteBranch)
      ensures removeWorktree == old(removeWorktree)
    {
      focus := focus.Toggle();
    }

    method FocusPrev()
      modifies this
      ensures focus == old(focus).Toggle()
      ensures index == old(index) && optionsSelected == old(optionsSelected) && buttonsSelected == old(buttonsSelected)
      ensures removeLocalBranch == old(removeLocalBranch) && removeRemoteBranch == old(removeRemoteBranch)
      ensures removeWorktree == old(removeWorktree)
    {
      FocusNext();
    }

    method MoveOption(delta: int)
      modifies this
      ensures optionsSelected == Cycle(old(optionsSelected), delta, MERGE_OPTION_COUNT)
      ensures index == old(index) && focus == old(focus) && buttonsSelected == old(buttonsSelected)
      ensures removeLocalBranch == old(removeLocalBranch) && removeRemoteBranch == old(removeRemoteBranch)
      ensures removeWorktree == old(removeWorktree)
    {
      optionsSelected := Cycle(optionsSelected, delta, MERGE_OPTION_COUNT);
    }

    method MoveButton(delta: int)
      modifies this
      ensures buttonsSelected == Cycle(old(buttonsSelected), delta, MERGE_BUTTON_COUNT)
      ensures index == old(index) && focus == old(focus) && optionsSelected == old(optionsSelected)
      ensures removeLocalBranch == old(removeLocalBranch) && removeRemoteBranch == old(removeRemoteBranch)
      ensures removeWorktree == old(removeWorktree)
    {
      buttonsSelected := Cycle(buttonsSelected, delta, MERGE_BUTTON_COUNT);
    }

    /** Flips exactly the flag of the selected option; positions past the third flip nothing. */
    method ToggleSelectedOption()
      modifies this
      ensures removeLocalBranch == (old(removeLocalBranch) != (old(optionsSelected) == 0))
      ensures removeRemoteBranch == (old(removeRemoteBranch) != (old(optionsSelected) == 1))
      ensures removeWorktree == (old(removeWorktree) != (old(optionsSelected) == 2))
      ensures index == old(index) && focus == old(focus)
      ensures optionsSelected == old(optionsSelected) && buttonsSelected == old(buttonsSelected)
    {
      match optionsSelected
      case 0 => removeLocalBranch := !removeLocalBranch;
      case 1 => removeRemoteBranch := !removeRemoteBranch;
      case 2 => removeWorktree := !removeWorktree;
      case _ =>
    }

    function View(): (v: MergeDialogView)
      reads this
      ensures v.focus == focus && v.optionsSelected == optionsSelected && v.buttonsSelected == buttonsSelected
      ensures v.removeLocalBranch == removeLocalBranch && v.removeRemoteBranch == removeRemoteBranch
      ensures v.removeWorktree == removeWorktree
    {
      MergeDialogView(focus, optionsSelected, buttonsSelected, removeLocalBranch, removeRemoteBranch, removeWorktree)
    }
  }
}
