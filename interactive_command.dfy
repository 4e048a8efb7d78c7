/**
 * The interactive worktree picker: a worktree list, an action panel and a
 * global-action panel, a status line and at most one open dialog.  Every
 * key event changes that state a step at a time and then either continues
 * or exits with a `Selection`.  Removing and creating worktrees go through
 * two injected callbacks; here they are a `Callbacks` object whose answers
 * are fixed functions of their arguments and which records every call.
 *
 * Each handler is specified by a function of the state it starts from
 * (`NavUp`, `Enter`, `Confirm`, `Submit`, ...) and the lemmas about those
 * functions state what the picker promises.
 */
module Picker {
  import opened Wrappers
  import opened Text
  import opened Order
  import opened Paths
  import opened Numbers
  import opened Interactive
  import opened Dialogs

  // ---------------------------------------------------------------------
  // Terminal events
  // ---------------------------------------------------------------------

  datatype KeyCode = Char(c: char) | Esc | Tab | BackTab | Up | Down | Left | Right | Enter | Backspace | OtherKey
  datatype KeyEventKind = Press | Repeat | Release
  /** The modifier keys held with a key; SHIFT plays no part in the picker. */
  datatype KeyModifiers = KeyModifiers(shift: bool, control: bool, alt: bool, superKey: bool)
  datatype KeyEvent = KeyEvent(code: KeyCode, kind: KeyEventKind, modifiers: KeyModifiers)
  /** A terminal event: a key, or anything else (resize, mouse, focus, paste). */
  datatype Event = Key(key: KeyEvent) | NonKey

  predicate IsKeyPress(e: Event)
  {
    e.Key? && e.key.kind == Press
  }

  /** Characters typed with CONTROL, ALT or SUPER held are not text. */
  predicate TypesText(m: KeyModifiers)
  {
    !m.control && !m.alt && !m.superKey
  }

  datatype LoopControl = Continue | Exit(outcome: Option<Selection>)

  /** The dialog that currently captures every key. */
  datatype Dialog = ConfirmRemove(index: nat) | Info(message: string) | Create(create: CreateDialog)

  // ---------------------------------------------------------------------
  // Selection and navigation
  // ---------------------------------------------------------------------

  /** `sync_selection`: no selection on an empty list, a too-large index is pulled back to the last row. */
  function Clamped(selected: Option<nat>, count: nat): (r: Option<nat>)
    ensures count == 0 ==> r == None
    ensures r.Some? ==> r.value < count
    ensures selected.None? ==> r.None?
    ensures selected.Some? && selected.value < count ==> r == selected
    ensures selected.Some? && selected.value >= count > 0 ==> r == Some(count - 1)
  {
    var clamped :=
      match selected
      case Some(i) => if count == 0 then None else if i >= count then Some(count - 1) else selected
      case None => None;
    if count == 0 then None else clamped
  }

  /** The part of the picker's state that the arrow and Tab keys move. */
  datatype Nav = Nav(count: nat, selected: Option<nat>, focus: Focus, actionSelected: nat, globalActionSelected: nat)

  /** The selection names a row, and the action indices name an action. */
  predicate NavValid(n: Nav)
  {
    (n.selected.Some? ==> n.selected.value < n.count)
    && n.actionSelected < |ALL_ACTIONS| && n.globalActionSelected < |GLOBAL_ACTIONS|
  }

  /** `move_action`. */
  function ActionMoved(n: Nav, delta: int): Nav
  {
    n.(actionSelected := Cycle(n.actionSelected, delta, |ALL_ACTIONS|))
  }

  /** `move_global_action`. */
  function GlobalActionMoved(n: Nav, delta: int): Nav
  {
    if |GLOBAL_ACTIONS| == 0 then n
    else n.(globalActionSelected := Cycle(n.globalActionSelected, delta, |GLOBAL_ACTIONS|))
  }

  /** `handle_up`. */
  function NavUp(n: Nav): Nav
  {
    match n.focus
    case Worktrees =>
      if n.count == 0 then n
      else if n.selected == Some(0) && |GLOBAL_ACTIONS| > 0 then
        n.(focus := GlobalActions, globalActionSelected := SaturatingSub(|GLOBAL_ACTIONS|, 1))
      else
        var next: Option<nat> := match n.selected case Some(i) => Some(i - 1) case None => Some(n.count - 1);
        n.(selected := Clamped(next, n.count))
    case Actions => ActionMoved(n, -1)
    case GlobalActions => if n.globalActionSelected > 0 then GlobalActionMoved(n, -1) else n
  }

  /** `handle_down`. */
  function NavDown(n: Nav): Nav
  {
    match n.focus
    case Worktrees =>
      if n.count == 0 then n
      else
        var next := match n.selected case Some(i) => (i + 1) % n.count case None => 0;
        n.(selected := Clamped(Some(next), n.count))
    case Actions => ActionMoved(n, 1)
    case GlobalActions =>
      if n.globalActionSelected >= SaturatingSub(|GLOBAL_ACTIONS|, 1) then
        if n.count > 0 then
          n.(focus := Worktrees, selected := Clamped(if n.selected.None? then Some(0) else n.selected, n.count))
        else n
      else GlobalActionMoved(n, 1)
  }

  /** Left (`delta` -1) and Right (`delta` 1): they move within the action rows only. */
  function NavHorizontal(n: Nav, delta: int): Nav
  {
    match n.focus
    case Actions => ActionMoved(n, delta)
    case GlobalActions => GlobalActionMoved(n, delta)
    case Worktrees => n
  }

  /** Tab and Shift-Tab. */
  function NavTab(n: Nav, forward: bool): Nav
  {
    n.(focus := if forward then n.focus.Next() else n.focus.Prev())
  }

  /** No key takes an index out of range. */
  lemma NavKeepsValid(n: Nav, delta: int, forward: bool)
    requires NavValid(n)
    ensures NavValid(NavUp(n)) && NavValid(NavDown(n))
    ensures NavValid(NavHorizontal(n, delta)) && NavValid(NavTab(n, forward))
  {
  }

  /** In the list, Down steps to the next row and wraps; with nothing selected it picks the first row. */
  lemma ListDown(n: Nav)
    requires NavValid(n) && n.focus == Worktrees && n.count > 0
    ensures NavDown(n) == n.(selected := Some(if n.selected.None? then 0 else (n.selected.value + 1) % n.count))
  {
  }

  /**
   * In the list, Up steps to the previous row; from the first row it moves
   * the focus to the last global action and keeps the selection; with
   * nothing selected it picks the last row.
   */
  lemma ListUp(n: Nav)
    requires NavValid(n) && n.focus == Worktrees && n.count > 0
    ensures n.selected == Some(0) ==> NavUp(n) == n.(focus := GlobalActions, globalActionSelected := 1)
    ensures n.selected.None? ==> NavUp(n) == n.(selected := Some(n.count - 1))
    ensures n.selected.Some? && n.selected.value > 0 ==> NavUp(n) == n.(selected := Some(n.selected.value - 1))
  {
  }

  /** On an empty list Up and Down in the list do nothing. */
  lemma EmptyListKeysIgnored(n: Nav)
    requires n.focus == Worktrees && n.count == 0
    ensures NavUp(n) == n && NavDown(n) == n
  {
  }

  /** Inside the list, Up undoes Down and Down undoes Up. */
  lemma ListUpDownInverse(n: Nav)
    requires NavValid(n) && n.focus == Worktrees && n.selected.Some?
    ensures n.selected.value + 1 < n.count ==> NavUp(NavDown(n)) == n
    ensures n.selected.value > 0 ==> NavDown(NavUp(n)) == n
  {
    if n.selected.value + 1 < n.count {
      UpUndoesDown(n);
    }
    if n.selected.value > 0 {
      DownUndoesUp(n);
    }
  }

  lemma UpUndoesDown(n: Nav)
    requires NavValid(n) && n.focus == Worktrees && n.selected.Some? && n.selected.value + 1 < n.count
    ensures NavUp(NavDown(n)) == n
  {
    var i := n.selected.value;
    var m := n.(selected := Some(i + 1));
    DownFromRow(n, i);
    UpFromRow(m, i + 1);
    assert m.(selected := Some(i)) == n;
  }

  lemma DownUndoesUp(n: Nav)
    requires NavValid(n) && n.focus == Worktrees && n.selected.Some? && n.selected.value > 0
    ensures NavDown(NavUp(n)) == n
  {
    var i := n.selected.value;
    var m := n.(selected := Some(i - 1));
    UpFromRow(n, i);
    DownFromRow(m, i - 1);
    assert m.(selected := Some(i)) == n;
  }

  /** Down from a row that is not the last selects the next row. */
  lemma DownFromRow(n: Nav, i: nat)
    requires NavValid(n) && n.focus == Worktrees && n.selected == Some(i) && i + 1 < n.count
    ensures NavDown(n) == n.(selected := Some(i + 1))
  {
    ListDown(n);
    assert (i + 1) % n.count == i + 1;
  }

  /** Up from a row that is not the first selects the previous row. */
  lemma UpFromRow(n: Nav, i: nat)
    requires NavValid(n) && n.focus == Worktrees && n.selected == Some(i) && i > 0
    ensures NavUp(n) == n.(selected := Some(i - 1))
  {
    ListUp(n);
  }

  /** In the action panel every vertical or horizontal step wraps, and opposite steps cancel. */
  lemma ActionStepsInverse(n: Nav, delta: int)
    requires NavValid(n) && n.focus == Actions
    ensures NavUp(NavDown(n)) == n && NavDown(NavUp(n)) == n
    ensures NavHorizontal(NavHorizontal(n, delta), -delta) == n
  {
    CycleInverse(n.actionSelected, 1, |ALL_ACTIONS|);
    CycleInverse(n.actionSelected, -1, |ALL_ACTIONS|);
    CycleInverse(n.actionSelected, delta, |ALL_ACTIONS|);
  }

  /**
   * In the global actions, Up stops at the first entry; Down at the last
   * entry hands the focus back to a non-empty list, selecting its first row
   * when nothing was selected.
   */
  lemma GlobalActionsEdges(n: Nav)
    requires NavValid(n) && n.focus == GlobalActions
    ensures n.globalActionSelected == 0 ==> NavUp(n) == n
    ensures n.globalActionSelected == 1 ==> NavUp(n) == n.(globalActionSelected := 0)
    ensures n.globalActionSelected == 0 ==> NavDown(n) == n.(globalActionSelected := 1)
    ensures n.globalActionSelected == 1 && n.count == 0 ==> NavDown(n) == n
    ensures n.globalActionSelected == 1 && n.count > 0 ==>
      NavDown(n) == n.(focus := Worktrees, selected := if n.selected.None? then Some(0) else n.selected)
  {
  }

  /** `k` presses of Down in the list land `k` rows further on, modulo the length. */
  lemma {:induction false} ListDownRepeated(n: Nav, k: nat)
    requires NavValid(n) && n.focus == Worktrees && n.selected.Some?
    ensures PressDown(n, k) == n.(selected := Some((n.selected.value + k) % n.count))
    decreases k
  {
    if k == 0 {
      ModShift(n.selected.value, 0, n.count);
    } else {
      var x := n.selected.value + (k - 1);
      var m := PressDown(n, k - 1);
      assert m == n.(selected := Some(x % n.count)) by {
        ListDownRepeated(n, k - 1);
      }
      assert NavDown(m) == n.(selected := Some((x + 1) % n.count)) by {
        ListDownFrom(n, x);
      }
      assert x + 1 == n.selected.value + k;
    }
  }

  /** One more Down after landing on row `x % count`. */
  lemma ListDownFrom(n: Nav, x: nat)
    requires NavValid(n) && n.focus == Worktrees && n.count > 0
    ensures NavDown(n.(selected := Some(x % n.count))) == n.(selected := Some((x + 1) % n.count))
  {
    ListDown(n.(selected := Some(x % n.count)));
    ModSuccessor(x, n.count);
  }

  /** The successor of a remainder, taken modulo again, is the remainder of the successor. */
  lemma ModSuccessor(x: nat, len: nat)
    requires len > 0
    ensures (x % len + 1) % len == (x + 1) % len
  {
    var q := x / len;
    assert x == q * len + x % len;
    ModAddMultiple(x % len + 1, q, len);
    assert x % len + 1 + q * len == x + 1;
  }

  function PressDown(n: Nav, k: nat): Nav
    decreases k
  {
    if k == 0 then n else NavDown(PressDown(n, k - 1))
  }

  // ---------------------------------------------------------------------
  // The picker's state as a value
  // ---------------------------------------------------------------------

  datatype PickerState = PickerState(
    worktrees: seq<WorktreeEntry>,
    selected: Option<nat>,
    focus: Focus,
    actionSelected: nat,
    globalActionSelected: nat,
    branches: seq<string>,
    status: Option<StatusMessage>,
    dialog: Option<Dialog>)

  function NavOf(s: PickerState): Nav
  {
    Nav(|s.worktrees|, s.selected, s.focus, s.actionSelected, s.globalActionSelected)
  }

  function WithNav(s: PickerState, n: Nav): PickerState
  {
    s.(selected := n.selected, focus := n.focus, actionSelected := n.actionSelected, globalActionSelected := n.globalActionSelected)
  }

  /** `current_entry`: the selected entry, when the selection names a row. */
  function CurrentEntryOf(s: PickerState): (r: Option<WorktreeEntry>)
    ensures r.Some? <==> s.selected.Some? && s.selected.value < |s.worktrees|
    ensures r.Some? ==> r.value == s.worktrees[s.selected.value]
  {
    match s.selected
    case Some(i) => if i < |s.worktrees| then Some(s.worktrees[i]) else None
    case None => None
  }

  predicate HasEntryNamed(ws: seq<WorktreeEntry>, name: string)
  {
    exists i :: 0 <= i < |ws| && ws[i].name == name
  }

  /** The selections that name a worktree name one in the list. */
  predicate SelectionListed(sel: Selection, ws: seq<WorktreeEntry>)
  {
    match sel
    case Worktree(n) => HasEntryNamed(ws, n)
    case PrGithub(n) => HasEntryNamed(ws, n)
    case RepoRoot => true
  }

  // ---------------------------------------------------------------------
  // Counts in the details panel
  // ---------------------------------------------------------------------

  /** `pluralize`: the count in decimal, a space, and the noun that fits it. */
  function Pluralize(count: nat, singular: string, plural: string): string
  {
    Decimal(count) + " " + (if count == 1 then singular else plural)
  }

  /**
   * The text starts with the digits of the count, which read back as the
   * count, then a space; the singular follows exactly for a count of one.
   */
  lemma PluralizeReadsBack(count: nat, singular: string, plural: string)
    ensures var r := Pluralize(count, singular, plural);
      var k := |Decimal(count)|;
      && k < |r| && r[k] == ' '
      && (forall i :: 0 <= i < k ==> '0' <= r[i] <= '9')
      && DigitsValue(r[..k], 10) == count
      && r[k + 1..] == (if count == 1 then singular else plural)
  {
    var r := Pluralize(count, singular, plural);
    var k := |Decimal(count)|;
    assert r[..k] == Decimal(count);
    DecimalRoundTrip(count);
  }

  // ---------------------------------------------------------------------
  // Enter
  // ---------------------------------------------------------------------

  /** What Enter does outside a dialog; `opensCreate` says that it opens a fresh create dialog. */
  datatype EnterResult = EnterResult(state: PickerState, control: LoopControl, opensCreate: bool)

  /** `handle_enter`. */
  function EnterOutcome(s: PickerState): EnterResult
  {
    match s.focus
    case Worktrees =>
      (match s.selected
       case Some(i) =>
         EnterResult(s, Exit(if i < |s.worktrees| then Some(Selection.Worktree(s.worktrees[i].name)) else None), false)
       case None => EnterResult(s, Continue, false))
    case Actions =>
      (match ActionFromIndex(s.actionSelected)
       case Open =>
         if CurrentEntryOf(s).Some? then EnterResult(s, Exit(Some(Selection.Worktree(CurrentEntryOf(s).value.name))), false)
         else EnterResult(s.(status := Some(InfoStatus("No worktree selected."))), Continue, false)
       case Remove =>
         if s.selected.Some? then EnterResult(s.(dialog := Some(ConfirmRemove(s.selected.value))), Continue, false)
         else EnterResult(s.(status := Some(InfoStatus("No worktree selected to remove."))), Continue, false)
       case PrGithub =>
         if CurrentEntryOf(s).Some? then EnterResult(s, Exit(Some(Selection.PrGithub(CurrentEntryOf(s).value.name))), false)
         else EnterResult(s.(status := Some(InfoStatus("No worktree selected."))), Continue, false))
    case GlobalActions =>
      if s.globalActionSelected == 0 then EnterResult(s, Continue, true)
      else if s.globalActionSelected == 1 then EnterResult(s, Exit(Some(RepoRoot)), false)
      else EnterResult(s, Continue, false)
  }

  /**
   * Enter exits only with a worktree of the list (or the repository root),
   * and an exit leaves the state as it was.
   */
  lemma EnterExitsWithListedWorktree(s: PickerState)
    ensures EnterOutcome(s).control.Exit? ==> EnterOutcome(s).state == s && !EnterOutcome(s).opensCreate
    ensures EnterOutcome(s).control.Exit? && EnterOutcome(s).control.outcome.Some? ==>
      SelectionListed(EnterOutcome(s).control.outcome.value, s.worktrees)
  {
    var r := EnterOutcome(s);
    if r.control.Exit? && r.control.outcome.Some? {
      match r.control.outcome.value
      case Worktree(n) =>
        var i := s.selected.value;
        assert s.worktrees[i].name == n;
      case PrGithub(n) =>
        var i := s.selected.value;
        assert s.worktrees[i].name == n;
      case RepoRoot =>
    }
  }

  /** The entries Enter acts on, by focus and index. */
  lemma EnterDispatch(s: PickerState)
    requires NavValid(NavOf(s))
    ensures s.focus == Worktrees && s.selected.Some? ==>
      EnterOutcome(s).control == Exit(Some(Selection.Worktree(s.worktrees[s.selected.value].name)))
    ensures s.focus == Actions && ActionFromIndex(s.actionSelected) != Remove && s.selected.None? ==>
      EnterOutcome(s) == EnterResult(s.(status := Some(InfoStatus("No worktree selected."))), Continue, false)
    ensures s.focus == Actions && ActionFromIndex(s.actionSelected) == Remove && s.selected.Some? ==>
      EnterOutcome(s).state.dialog == Some(ConfirmRemove(s.selected.value))
    ensures s.focus == GlobalActions ==>
      (s.globalActionSelected == 0 <==> EnterOutcome(s).opensCreate)
      && (s.globalActionSelected == 1 <==> EnterOutcome(s).control == Exit(Some(RepoRoot)))
  {
  }

  // ---------------------------------------------------------------------
  // Confirm-remove dialog
  // ---------------------------------------------------------------------

  predicate IsConfirmKey(code: KeyCode)
  {
    code == Char('y') || code == Char('Y') || code == Enter
  }

  predicate IsCancelKey(code: KeyCode)
  {
    code == Esc || code == Char('n') || code == Char('N')
  }

  /** "Removed worktree `name` from `dir`." where `dir` is the parent of the entry's path, or the path itself. */
  function RemovalMessage(entry: WorktreeEntry): string
  {
    var dir := match Parent(entry.path) case Some(p) => Display(p) case None => Display(entry.path);
    "Removed worktree `" + entry.name + "` from `" + dir + "`."
  }

  /** What a key does in the confirm-remove dialog, and the name passed to the remove callback, if any. */
  datatype ConfirmResult = ConfirmResult(state: PickerState, call: Option<string>)

  /** `handle_confirm`. */
  function Confirm(s: PickerState, index: nat, code: KeyCode, onRemove: string -> Outcome): ConfirmResult
  {
    if IsConfirmKey(code) then
      if index < |s.worktrees| then
        var entry := s.worktrees[index];
        match onRemove(entry.name)
        case Pass =>
          var rest := s.worktrees[..index] + s.worktrees[index + 1..];
          ConfirmResult(
            s.(worktrees := rest, selected := Clamped(None, |rest|), focus := Worktrees, status := None,
               dialog := Some(Dialog.Info(RemovalMessage(entry)))),
            Some(entry.name))
        case Fail(e) =>
          ConfirmResult(s.(status := Some(ErrorStatus("Failed to remove `" + entry.name + "`: " + e)), dialog := None), Some(entry.name))
      else ConfirmResult(s.(dialog := None), None)
    else if IsCancelKey(code) then
      ConfirmResult(s.(status := Some(InfoStatus("Removal cancelled.")), dialog := None), None)
    else ConfirmResult(s, None)
  }

  /**
   * Confirming calls the callback once with the entry's name.  Success
   * removes exactly that entry, clears the selection and shows an info
   * dialog; failure keeps the list, shows the error and closes the dialog.
   */
  lemma ConfirmRemovesEntry(s: PickerState, index: nat, code: KeyCode, onRemove: string -> Outcome)
    requires IsConfirmKey(code) && index < |s.worktrees|
    ensures var r := Confirm(s, index, code, onRemove);
      var entry := s.worktrees[index];
      r.call == Some(entry.name)
      && (onRemove(entry.name).Pass? ==>
            |r.state.worktrees| == |s.worktrees| - 1
            && multiset(r.state.worktrees) == multiset(s.worktrees) - multiset{entry}
            && r.state.selected.None? && r.state.focus == Worktrees && r.state.dialog.Some? && r.state.dialog.value.Info?)
      && (onRemove(entry.name).Fail? ==>
            r.state.worktrees == s.worktrees && r.state.dialog.None?
            && r.state.status.Some? && r.state.status.value.kind == StatusKind.Error)
  {
    var entry := s.worktrees[index];
    assert s.worktrees == s.worktrees[..index] + [entry] + s.worktrees[index + 1..];
    assert multiset(s.worktrees) == multiset(s.worktrees[..index]) + multiset{entry} + multiset(s.worktrees[index + 1..]);
  }

  /** Cancelling, or any other key, never calls the callback and never touches the list. */
  lemma ConfirmCancelKeepsList(s: PickerState, index: nat, code: KeyCode, onRemove: string -> Outcome)
    requires !IsConfirmKey(code)
    ensures Confirm(s, index, code, onRemove).call.None?
    ensures Confirm(s, index, code, onRemove).state.worktrees == s.worktrees
    ensures IsCancelKey(code) ==>
      (Confirm(s, index, code, onRemove).state == s.(status := Some(InfoStatus("Removal cancelled.")), dialog := None))
  {
  }

  /** The confirm dialog keeps every index in range. */
  lemma ConfirmKeepsValid(s: PickerState, index: nat, code: KeyCode, onRemove: string -> Outcome)
    requires NavValid(NavOf(s))
    ensures NavValid(NavOf(Confirm(s, index, code, onRemove).state))
    ensures Confirm(s, index, code, onRemove).state.branches == s.branches
  {
  }

  // ---------------------------------------------------------------------
  // Create dialog
  // ---------------------------------------------------------------------

  /** The checks `submit_create` runs before calling back: a non-blank, unused name. */
  function CheckNewName(input: string, ws: seq<WorktreeEntry>): (r: Result<string>)
    ensures r.Ok? <==> Trim(input) != [] && !HasEntryNamed(ws, Trim(input))
    ensures r.Ok? ==> r.value == Trim(input)
  {
    var name := Trim(input);
    if name == [] then Err("Worktree name cannot be empty.")
    else if HasEntryNamed(ws, name) then Err("Worktree `" + name + "` already exists.")
    else Ok(name)
  }

  /** A name of only whitespace is refused as empty. */
  lemma BlankNameRejected(input: string, ws: seq<WorktreeEntry>)
    requires IsBlank(input)
    ensures CheckNewName(input, ws) == Err("Worktree name cannot be empty.")
  {
    TrimEmptyIffBlank(input);
  }

  /** A name that, trimmed, is already in the list is refused as existing. */
  lemma ExistingNameRejected(input: string, ws: seq<WorktreeEntry>, i: nat)
    requires i < |ws| && ws[i].name == Trim(input) && !IsBlank(input)
    ensures CheckNewName(input, ws) == Err("Worktree `" + ws[i].name + "` already exists.")
  {
    TrimEmptyIffBlank(input);
  }

  /** The first position holding an entry with this name. */
  function PositionOf(ws: seq<WorktreeEntry>, name: string): (r: Option<nat>)
    ensures r.Some? <==> HasEntryNamed(ws, name)
    ensures r.Some? ==> r.value < |ws| && ws[r.value].name == name
    ensures r.Some? ==> forall j :: 0 <= j < r.value ==> ws[j].name != name
  {
    if ws == [] then None
    else if ws[0].name == name then Some(0)
    else
      match PositionOf(ws[1..], name)
      case Some(k) =>
        assert ws[k + 1] == ws[1..][k];
        Some(k + 1)
      case None =>
        assert forall i :: 1 <= i < |ws| ==> ws[i] == ws[1..][i - 1];
        None
  }

  function EntryName(e: WorktreeEntry): string
  {
    e.name
  }

  /** The list after `push` and `sort_by` on the names. */
  function InsertWorktree(ws: seq<WorktreeEntry>, entry: WorktreeEntry): seq<WorktreeEntry>
  {
    SortBy(ws + [entry], EntryName)
  }

  /** The branches after the created name is added once. */
  function AddBranch(branches: seq<string>, name: string): seq<string>
  {
    if name in branches then branches else SortDedup(branches + [name])
  }

  /** Adding a branch keeps the list strictly sorted, adds exactly that name, and a second add changes nothing. */
  lemma AddBranchOnce(branches: seq<string>, name: string)
    requires StrictlySorted(branches)
    ensures StrictlySorted(AddBranch(branches, name))
    ensures forall b :: b in AddBranch(branches, name) <==> b in branches || b == name
    ensures AddBranch(AddBranch(branches, name), name) == AddBranch(branches, name)
  {
  }

  /** The state after a successful creation of `name` under `dir`. */
  function AfterCreate(s: PickerState, dir: Path, name: string): PickerState
  {
    var ws := InsertWorktree(s.worktrees, WorktreeEntry(name, JoinStr(dir, name)));
    s.(worktrees := ws, branches := AddBranch(s.branches, name), selected := Clamped(PositionOf(ws, name), |ws|),
       focus := Worktrees, globalActionSelected := 0)
  }

  /**
   * After a creation the list is the old one plus the new entry, sorted by
   * name, and the new entry is selected; the branch is listed once.
   */
  lemma AfterCreateSelectsNewEntry(s: PickerState, dir: Path, name: string)
    requires NavValid(NavOf(s)) && StrictlySorted(s.branches)
    ensures var t := AfterCreate(s, dir, name);
      var entry := WorktreeEntry(name, JoinStr(dir, name));
      multiset(t.worktrees) == multiset(s.worktrees) + multiset{entry}
      && SortedBy(t.worktrees, EntryName)
      && t.selected.Some? && t.worktrees[t.selected.value].name == name
      && t.focus == Worktrees
      && NavValid(NavOf(t)) && StrictlySorted(t.branches) && name in t.branches
  {
    var entry := WorktreeEntry(name, JoinStr(dir, name));
    var ws := InsertWorktree(s.worktrees, entry);
    assert entry in multiset(s.worktrees + [entry]);
    assert entry in multiset(ws);
    var i :| 0 <= i < |ws| && ws[i] == entry;
    assert HasEntryNamed(ws, name);
    AddBranchOnce(s.branches, name);
  }

  /** What `submit_create` does, and the arguments it passes to the create callback, if any. */
  datatype SubmitResult = SubmitResult(
    state: PickerState,
    view: CreateDialogView,
    call: Option<(string, Option<string>)>,
    outcome: Option<(string, string)>)

  /** `submit_create`: validate, call back with the trimmed name and the base's value, then insert. */
  function Submit(s: PickerState, v: CreateDialogView, dir: Path, onCreate: (string, Option<string>) -> Outcome): SubmitResult
    requires IndicesValid(v.baseGroups, v.baseIndices)
  {
    var cleared := v.(error := None);
    match CheckNewName(v.nameInput, s.worktrees)
    case Err(msg) => SubmitResult(s, cleared.(error := Some(msg), focus := Name), None, None)
    case Ok(name) =>
      var base := BaseAt(v.baseGroups, v.baseIndices, v.baseSelected);
      var value := if base.Some? then base.value.value else None;
      var baseLabel := if base.Some? then base.value.caption else "HEAD";
      match onCreate(name, value)
      case Fail(e) => SubmitResult(s, cleared.(error := Some(e), focus := Name), Some((name, value)), None)
      case Pass => SubmitResult(AfterCreate(s, dir, name), cleared, Some((name, value)), Some((name, baseLabel)))
  }

  /**
   * Validation comes first: a refused name never reaches the callback.  A
   * submission that does not create anything leaves the picker unchanged
   * and returns the dialog to the name field with an error.
   */
  lemma SubmitValidatesFirst(s: PickerState, v: CreateDialogView, dir: Path, onCreate: (string, Option<string>) -> Outcome)
    requires IndicesValid(v.baseGroups, v.baseIndices)
    ensures var r := Submit(s, v, dir, onCreate);
      (CheckNewName(v.nameInput, s.worktrees).Err? ==> r.call.None?)
      && (r.call.Some? ==> r.call.value.0 == Trim(v.nameInput) && r.call.value.0 != [])
      && (r.outcome.None? ==> r.state == s && r.view.focus == Name && r.view.error.Some?)
      && (r.outcome.Some? ==> r.call.Some? && onCreate(r.call.value.0, r.call.value.1).Pass?)
  {
    match CheckNewName(v.nameInput, s.worktrees)
    case Err(_) =>
    case Ok(name) =>
      assert name == Trim(v.nameInput) && name != [];
  }

  /** The base passed to the callback is the selected option's value; the default branch when it is preselected. */
  lemma SubmitPassesSelectedBase(s: PickerState, v: CreateDialogView, dir: Path, onCreate: (string, Option<string>) -> Outcome)
    requires IndicesValid(v.baseGroups, v.baseIndices) && v.baseSelected < |v.baseIndices|
    requires CheckNewName(v.nameInput, s.worktrees).Ok?
    ensures var (g, o) := v.baseIndices[v.baseSelected];
      Submit(s, v, dir, onCreate).call == Some((Trim(v.nameInput), v.baseGroups[g].options[o].value))
  {
  }

  /** Every key handled in the name field. */
  function NameFieldKey(v: CreateDialogView, key: KeyEvent): CreateDialogView
  {
    match key.code
    case Char(c) => if TypesText(key.modifiers) then v.(nameInput := v.nameInput + [c], error := None) else v
    case Backspace => v.(nameInput := if v.nameInput == [] then [] else v.nameInput[..|v.nameInput| - 1], error := None)
    case Enter => v.(focus := Base)
    case _ => v
  }

  /** Backspace removes the character just typed. */
  lemma TypeThenBackspace(v: CreateDialogView, c: char, m: KeyModifiers, kind: KeyEventKind)
    requires TypesText(m)
    ensures NameFieldKey(NameFieldKey(v, KeyEvent(Char(c), kind, m)), KeyEvent(Backspace, kind, m))
      == v.(error := None)
  {
    assert (v.nameInput + [c])[..|v.nameInput|] == v.nameInput;
  }

  function MovedBase(selected: nat, delta: int, len: nat): nat
  {
    if len == 0 then selected else Cycle(selected, delta, len)
  }

  /** Every key handled in the base list. */
  function BaseFieldKey(v: CreateDialogView, code: KeyCode): CreateDialogView
  {
    if code == Up || code == Char('k') then v.(baseSelected := MovedBase(v.baseSelected, -1, |v.baseIndices|))
    else if code == Down || code == Char('j') then v.(baseSelected := MovedBase(v.baseSelected, 1, |v.baseIndices|))
    else if code == Enter then v.(focus := Buttons, buttonsSelected := 0)
    else v
  }

  /** Left and Right in the button row stop at its ends rather than wrapping. */
  function ButtonsFieldKey(v: CreateDialogView, code: KeyCode): CreateDialogView
  {
    if code == Left then v.(buttonsSelected := if v.buttonsSelected > 0 then v.buttonsSelected - 1 else v.buttonsSelected)
    else if code == Right then v.(buttonsSelected := if v.buttonsSelected < 1 then v.buttonsSelected + 1 else v.buttonsSelected)
    else v
  }

  /** The base and button selections stay in range under their keys. */
  lemma CreateFieldKeysInRange(v: CreateDialogView, code: KeyCode)
    requires v.baseSelected < |v.baseIndices| && v.buttonsSelected < 2
    ensures BaseFieldKey(v, code).baseSelected < |v.baseIndices|
    ensures ButtonsFieldKey(v, code).buttonsSelected < 2
    ensures ButtonsFieldKey(ButtonsFieldKey(v, Left), Left).buttonsSelected == 0
    ensures ButtonsFieldKey(ButtonsFieldKey(v, Right), Right).buttonsSelected == 1
  {
  }

  /** The picker after a dialog closes with an info message. */
  function ClosedWith(s: PickerState, message: string): PickerState
  {
    s.(dialog := None, focus := Worktrees, status := Some(InfoStatus(message)))
  }

  // ---------------------------------------------------------------------
  // The callbacks
  // ---------------------------------------------------------------------

  /**
   * The two callbacks the picker is given.  Each answers with a fixed
   * function of its arguments and records that it was called.
   */
  class Callbacks {
    const removeResult: string -> Outcome
    const createResult: (string, Option<string>) -> Outcome
    var removeCalls: seq<string>
    var createCalls: seq<(string, Option<string>)>

    constructor(removeResult: string -> Outcome, createResult: (string, Option<string>) -> Outcome)
      ensures this.removeResult == removeResult && this.createResult == createResult
      ensures removeCalls == [] && createCalls == []
    {
      this.removeResult := removeResult;
      this.createResult := createResult;
      removeCalls := [];
      createCalls := [];
    }

    method OnRemove(name: string) returns (r: Outcome)
      modifies this
      ensures r == removeResult(name)
      ensures removeCalls == old(removeCalls) + [name] && createCalls == old(createCalls)
    {
      removeCalls := removeCalls + [name];
      r := removeResult(name);
    }

    method OnCreate(name: string, base: Option<string>) returns (r: Outcome)
      modifies this
      ensures r == createResult(name, base)
      ensures createCalls == old(createCalls) + [(name, base)] && removeCalls == old(removeCalls)
    {
      createCalls := createCalls + [(name, base)];
      r := createResult(name, base);
    }
  }

  function CallsOf<T>(call: Option<T>): seq<T>
  {
    if call.Some? then [call.value] else []
  }

  // ---------------------------------------------------------------------
  // The picker
  // ---------------------------------------------------------------------

  /** A create dialog as `CreateDialog::new` leaves it for these branches and worktrees. */
  ghost predicate OpenedCreateDialog(d: CreateDialog, branches: seq<string>, worktrees: seq<WorktreeEntry>, default: Option<string>)
    reads d
  {
    d.Valid()
    && d.baseGroups == BaseGroupsFor(branches, worktrees)
    && d.baseIndices == FlatIndices(d.baseGroups)
    && d.baseSelected == InitialSelection(d.baseGroups, d.baseIndices, default)
    && d.nameInput == "" && d.focus == Name && d.buttonsSelected == 0 && d.error == None
  }

  /** The rows and panels a snapshot for the renderer holds. */
  datatype DialogSnapshot = ConfirmRemoveView(name: string) | InfoView(message: string) | CreateView(view: CreateDialogView)

  datatype PickerSnapshot = PickerSnapshot(
    items: seq<string>,
    detail: Option<WorktreeEntry>,
    focus: Focus,
    actionSelected: nat,
    globalActionSelected: nat,
    status: Option<StatusMessage>,
    dialog: Option<DialogSnapshot>,
    hasWorktrees: bool)

  class InteractiveCommand {
    const worktreesDir: Path
    const defaultBranch: Option<string>
    var worktrees: seq<WorktreeEntry>
    var selected: Option<nat>
    var focus: Focus
    var actionSelected: nat
    var globalActionSelected: nat
    var branches: seq<string>
    var status: Option<StatusMessage>
    var dialog: Option<Dialog>

    function State(): PickerState
      reads this
    {
      PickerState(worktrees, selected, focus, actionSelected, globalActionSelected, branches, status, dialog)
    }

    /** The open create dialog, the one object besides the picker that keys change. */
    ghost function DialogRepr(): set<object>
      reads this
    {
      if dialog.Some? && dialog.value.Create? then {dialog.value.create} else {}
    }

    /** Indices in range, branches sorted without repeats, and an open create dialog consistent. */
    ghost predicate Valid()
      reads this, DialogRepr()
    {
      NavValid(NavOf(State())) && StrictlySorted(branches)
      && (dialog.Some? && dialog.value.Create? ==> dialog.value.create.Valid())
    }

    /** `InteractiveCommand::new`. */
    constructor(worktreesDir: Path, worktrees: seq<WorktreeEntry>, branches: seq<string>, defaultBranch: Option<string>)
      ensures Valid()
      ensures this.worktreesDir == worktreesDir && this.defaultBranch == defaultBranch
      ensures State() == PickerState(worktrees, if worktrees == [] then None else Some(0), Worktrees, 0, 0, SortDedup(branches), None, None)
    {
      this.worktreesDir := worktreesDir;
      this.defaultBranch := defaultBranch;
      this.worktrees := worktrees;
      selected := if worktrees == [] then None else Some(0);
      focus := Worktrees;
      actionSelected := 0;
      globalActionSelected := 0;
      this.branches := SortDedup(branches);
      status := None;
      dialog := None;
    }

    method SyncSelection()
      modifies this
      ensures State() == old(State()).(selected := Clamped(old(selected), |worktrees|))
    {
      if selected.Some? {
        if |worktrees| == 0 {
          selected := None;
        } else if selected.value >= |worktrees| {
          selected := Some(|worktrees| - 1);
        }
      }
      if |worktrees| == 0 {
        selected := None;
      }
    }

    method MoveAction(delta: int)
      modifies this
      ensures State() == WithNav(old(State()), ActionMoved(NavOf(old(State())), delta))
    {
      actionSelected := Cycle(actionSelected, delta, |ALL_ACTIONS|);
    }

    method MoveGlobalAction(delta: int)
      modifies this
      ensures State() == WithNav(old(State()), GlobalActionMoved(NavOf(old(State())), delta))
    {
      if |GLOBAL_ACTIONS| == 0 {
        return;
      }
      globalActionSelected := Cycle(globalActionSelected, delta, |GLOBAL_ACTIONS|);
    }

    method HandleUp()
      requires Valid()
      modifies this
      ensures Valid()
      ensures State() == WithNav(old(State()), NavUp(NavOf(old(State()))))
    {
      match focus
      case Worktrees =>
        if |worktrees| == 0 {
          return;
        }
        if selected == Some(0) && |GLOBAL_ACTIONS| > 0 {
          focus := GlobalActions;
          globalActionSelected := SaturatingSub(|GLOBAL_ACTIONS|, 1);
          return;
        }
        var next: Option<nat> := match selected case Some(idx) => Some(idx - 1) case None => Some(|worktrees| - 1);
        selected := next;
        SyncSelection();
      case Actions =>
        MoveAction(-1);
      case GlobalActions =>
        if globalActionSelected > 0 {
          MoveGlobalAction(-1);
        }
    }

    method HandleDown()
      requires Valid()
      modifies this
      ensures Valid()
      ensures State() == WithNav(old(State()), NavDown(NavOf(old(State()))))
    {
      match focus
      case Worktrees =>
        if |worktrees| == 0 {
          return;
        }
        var next := match selected case Some(idx) => (idx + 1) % |worktrees| case None => 0;
        selected := Some(next);
        SyncSelection();
      case Actions =>
        MoveAction(1);
      case GlobalActions =>
        var lastIndex := SaturatingSub(|GLOBAL_ACTIONS|, 1);
        if globalActionSelected >= lastIndex {
          if |worktrees| > 0 {
            focus := Worktrees;
            if selected.None? {
              selected := Some(0);
            }
            SyncSelection();
          }
        } else {
          MoveGlobalAction(1);
        }
    }

    method HandleEnter() returns (ctl: LoopControl)
      requires Valid()
      modifies this
      ensures Valid()
      ensures fresh(DialogRepr() - old(DialogRepr()))
      ensures EnterStep(this, ctl)
    {
      match focus {
      case Worktrees =>
        if selected.Some? {
          var index := selected.value;
          return Exit(if index < |worktrees| then Some(Selection.Worktree(worktrees[index].name)) else None);
        }
      case Actions =>
        var action := ActionFromIndex(actionSelected);
        match action {
          case Open =>
            var entry := CurrentEntryOf(State());
            if entry.Some? {
              return Exit(Some(Selection.Worktree(entry.value.name)));
            }
            status := Some(InfoStatus("No worktree selected."));
          case Remove =>
            if selected.Some? {
              dialog := Some(ConfirmRemove(selected.value));
            } else {
              status := Some(InfoStatus("No worktree selected to remove."));
            }
          case PrGithub =>
            var entry := CurrentEntryOf(State());
            if entry.Some? {
              return Exit(Some(Selection.PrGithub(entry.value.name)));
            }
            status := Some(InfoStatus("No worktree selected."));
        }
      case GlobalActions =>
        if globalActionSelected == 0 {
          var created := new CreateDialog(branches, worktrees, defaultBranch);
          dialog := Some(Create(created));
        } else if globalActionSelected == 1 {
          return Exit(Some(RepoRoot));
        }
      }
      return Continue;
    }

    /** A removed entry leaves the list; the selection is cleared and the list takes focus. */
    method DropEntry(index: nat)
      requires index < |worktrees|
      modifies this
      ensures var rest := old(worktrees[..index] + worktrees[index + 1..]);
        State() == old(State()).(worktrees := rest, selected := Clamped(None, |rest|), focus := Worktrees)
    {
      worktrees := worktrees[..index] + worktrees[index + 1..];
      selected := None;
      focus := Worktrees;
      SyncSelection();
    }

    method HandleConfirm(index: nat, code: KeyCode, cb: Callbacks)
      requires Valid()
      modifies this, cb
      ensures Valid()
      ensures ConfirmStep(this, cb, index, code)
    {
      if IsConfirmKey(code) {
        if index < |worktrees| {
          RemoveConfirmed(index, code, cb);
        } else {
          dialog := None;
        }
      } else if IsCancelKey(code) {
        status := Some(InfoStatus("Removal cancelled."));
        dialog := None;
      }
    }

    /** A confirmed removal of an entry in the list: the callback decides whether it goes. */
    method RemoveConfirmed(index: nat, code: KeyCode, cb: Callbacks)
      requires Valid() && IsConfirmKey(code) && index < |worktrees|
      modifies this, cb
      ensures Valid()
      ensures ConfirmStep(this, cb, index, code)
    {
      ghost var s := State();
      var entry := worktrees[index];
      var outcome := cb.OnRemove(entry.name);
      match outcome
      case Pass =>
        DropEntry(index);
        status := None;
        dialog := Some(Dialog.Info(RemovalMessage(entry)));
        assert State() == Confirm(s, index, code, cb.removeResult).state;
      case Fail(e) =>
        status := Some(ErrorStatus("Failed to remove `" + entry.name + "`: " + e));
        dialog := None;
    }

    /** `submit_create`, on the dialog taken out of the picker. */
    method SubmitCreate(d: CreateDialog, cb: Callbacks) returns (outcome: Option<(string, string)>)
      requires Valid() && d.Valid() && dialog.None?
      modifies this, d, cb
      ensures Valid() && d.Valid()
      ensures var r := Submit(old(State()), old(d.View()), worktreesDir, cb.createResult);
        State() == r.state && d.View() == r.view && outcome == r.outcome
        && cb.createCalls == old(cb.createCalls) + CallsOf(r.call) && cb.removeCalls == old(cb.removeCalls)
    {
      ghost var s := State();
      ghost var v := d.View();
      d.error := None;
      var check := CheckNewName(d.nameInput, worktrees);
      assert d.View() == v.(error := None);
      if check.Err? {
        d.error := Some(check.error);
        d.focus := Name;
        assert d.View() == v.(error := Some(check.error), focus := Name);
        return None;
      }
      var name := check.value;
      var base := d.SelectedBase();
      var value := if base.Some? then base.value.value else None;
      var baseLabel := if base.Some? then base.value.caption else "HEAD";
      var result := cb.OnCreate(name, value);
      assert d.View() == v.(error := None);
      if result.Fail? {
        d.error := Some(result.error);
        d.focus := Name;
        assert d.View() == v.(error := Some(result.error), focus := Name);
        return None;
      }
      assert d.View() == v.(error := None);
      InsertCreated(name);
      outcome := Some((name, baseLabel));
    }

    /** The part of `submit_create` after the callback succeeded: list, branches and selection. */
    method InsertCreated(name: string)
      requires Valid()
      modifies this
      ensures Valid()
      ensures State() == AfterCreate(old(State()), worktreesDir, name)
    {
      ghost var s := State();
      AddCreatedBranch(name);
      AddCreatedWorktree(WorktreeEntry(name, JoinStr(worktreesDir, name)));
      selected := PositionOf(worktrees, name);
      focus := Worktrees;
      globalActionSelected := 0;
      SyncSelection();
      assert State() == AfterCreate(s, worktreesDir, name);
      AfterCreateSelectsNewEntry(s, worktreesDir, name);
    }

    /** The created name joins the branches unless it is already one. */
    method AddCreatedBranch(name: string)
      modifies this
      ensures State() == old(State()).(branches := AddBranch(old(branches), name))
    {
      if name !in branches {
        branches := SortDedup(branches + [name]);
      }
    }

    /** The created worktree joins the list, which is sorted again by name. */
    method AddCreatedWorktree(entry: WorktreeEntry)
      modifies this
      ensures State() == old(State()).(worktrees := InsertWorktree(old(worktrees), entry))
    {
      worktrees := SortBy(worktrees + [entry], EntryName);
    }

    /** `perform_create_submission`: the dialog goes back only when nothing was created. */
    method PerformCreateSubmission(cb: Callbacks) returns (outcome: Option<(string, string)>)
      requires Valid()
      modifies this, DialogRepr(), cb
      ensures Valid()
      ensures DialogRepr() <= old(DialogRepr())
      ensures old(dialog).Some? && old(dialog).value.Create? ==>
        var d := old(dialog).value.create;
        var r := Submit(old(State()).(dialog := None), old(d.View()), worktreesDir, cb.createResult);
        outcome == r.outcome && d.View() == r.view
        && State() == (if r.outcome.None? then r.state.(dialog := old(dialog)) else r.state)
        && cb.createCalls == old(cb.createCalls) + CallsOf(r.call) && cb.removeCalls == old(cb.removeCalls)
      ensures !(old(dialog).Some? && old(dialog).value.Create?) ==>
        outcome.None? && State() == old(State()).(dialog := None)
        && cb.createCalls == old(cb.createCalls) && cb.removeCalls == old(cb.removeCalls)
    {
      var taken := dialog;
      dialog := None;
      if taken.Some? && taken.value.Create? {
        var d := taken.value.create;
        outcome := SubmitCreate(d, cb);
        if outcome.None? {
          dialog := taken;
        }
      } else {
        outcome := None;
      }
    }

    /** A key that edits the focused field of the create dialog, other than the buttons' Enter. */
    method EditCreateField(d: CreateDialog, key: KeyEvent)
      requires d.Valid()
      requires !(d.focus == Buttons && key.code == Enter)
      modifies d
      ensures d.Valid()
      ensures old(d.focus) == Name ==> d.View() == NameFieldKey(old(d.View()), key)
      ensures old(d.focus) == Base ==> d.View() == BaseFieldKey(old(d.View()), key.code)
      ensures old(d.focus) == Buttons ==> d.View() == ButtonsFieldKey(old(d.View()), key.code)
    {
      match d.focus
      case Name =>
        match key.code {
          case Char(c) =>
            if TypesText(key.modifiers) {
              d.nameInput := d.nameInput + [c];
              d.error := None;
            }
          case Backspace =>
            if d.nameInput != [] {
              d.nameInput := d.nameInput[..|d.nameInput| - 1];
            }
            d.error := None;
          case Enter =>
            d.focus := Base;
          case _ =>
        }
      case Base =>
        if key.code == Up || key.code == Char('k') {
          d.MoveBase(-1);
        } else if key.code == Down || key.code == Char('j') {
          d.MoveBase(1);
        } else if key.code == Enter {
          d.focus := Buttons;
          d.buttonsSelected := 0;
        }
      case Buttons =>
        if key.code == Left {
          if d.buttonsSelected > 0 {
            d.buttonsSelected := d.buttonsSelected - 1;
          }
        } else if key.code == Right {
          if d.buttonsSelected < 1 {
            d.buttonsSelected := d.buttonsSelected + 1;
          }
        }
    }

    /** `handle_create_key`: Esc cancels, Tab and BackTab move between fields, Enter on a button creates or cancels, other keys edit the focused field. */
    method HandleCreateKey(key: KeyEvent, cb: Callbacks)
      requires Valid()
      modifies this, DialogRepr(), cb
      ensures Valid()
      ensures DialogRepr() <= old(DialogRepr())
      ensures !(old(dialog).Some? && old(dialog).value.Create?) ==> State() == old(State()) && NoCallbacks(cb)
      ensures old(dialog).Some? && old(dialog).value.Create? ==> CreateKeyStep(this, cb, old(dialog).value.create, key)
    {
      if !(dialog.Some? && dialog.value.Create?) {
        return;
      }
      var d := dialog.value.create;

      if key.code == Esc {
        d.error := None;
        d.nameInput := "";
        dialog := None;
        focus := Worktrees;
        status := Some(InfoStatus("Creation cancelled."));
      } else if key.code == Tab {
        d.FocusNext();
      } else if key.code == BackTab {
        d.FocusPrev();
      } else if d.focus == Buttons && key.code == Enter {
        if d.buttonsSelected == 0 {
          var outcome := PerformCreateSubmission(cb);
          if outcome.Some? {
            dialog := None;
            focus := Worktrees;
            status := Some(InfoStatus("Created `" + outcome.value.0 + "` from " + outcome.value.1));
          }
        } else {
          dialog := None;
          focus := Worktrees;
          status := Some(InfoStatus("Creation cancelled."));
        }
      } else {
        EditCreateField(d, key);
      }
    }

    /** `process_event`: an open dialog captures every key; otherwise keys navigate, select or exit. */
    method ProcessEvent(event: Event, cb: Callbacks) returns (ctl: LoopControl)
      requires Valid()
      modifies this, DialogRepr(), cb
      ensures Valid()
      ensures fresh(DialogRepr() - old(DialogRepr()))
      ensures !IsKeyPress(event) ==> ctl == Continue && State() == old(State()) && NoCallbacks(cb)
      ensures old(dialog).Some? ==> ctl == Continue
      ensures old(dialog).Some? && IsKeyPress(event) ==> DialogKeyStep(this, cb, old(dialog).value, event.key)
      ensures old(dialog).None? && IsKeyPress(event) ==> PanelKeyStep(this, cb, event.key.code, ctl)
      ensures ctl.Exit? && ctl.outcome.Some? ==> SelectionListed(ctl.outcome.value, worktrees)
    {
      if dialog.Some? {
        if IsKeyPress(event) {
          HandleDialogKey(event.key, cb);
        }
        return Continue;
      }
      if !IsKeyPress(event) {
        return Continue;
      }
      ctl := HandlePanelKey(event.key.code, cb);
    }

    /** A key press while a dialog is open goes to that dialog only. */
    method HandleDialogKey(key: KeyEvent, cb: Callbacks)
      requires Valid() && dialog.Some?
      modifies this, DialogRepr(), cb
      ensures Valid()
      ensures DialogRepr() <= old(DialogRepr())
      ensures DialogKeyStep(this, cb, old(dialog).value, key)
    {
      var open := dialog.value;
      match open {
        case ConfirmRemove(index) =>
          HandleConfirm(index, key.code, cb);
        case Info(_) =>
          if key.code == Enter {
            dialog := None;
          }
        case Create(_) =>
          HandleCreateKey(key, cb);
      }
    }

    /** A key press with no dialog open. */
    method HandlePanelKey(code: KeyCode, cb: Callbacks) returns (ctl: LoopControl)
      requires Valid() && dialog.None?
      modifies this
      ensures Valid()
      ensures fresh(DialogRepr())
      ensures PanelKeyStep(this, cb, code, ctl)
      ensures ctl.Exit? && ctl.outcome.Some? ==> SelectionListed(ctl.outcome.value, worktrees)
    {
      match code
      case Esc =>
        ctl := Exit(None);
      case Char(c) =>
        if c == 'q' {
          ctl := Exit(None);
        } else if c == 'k' {
          HandleUp();
          ctl := Continue;
        } else if c == 'j' {
          HandleDown();
          ctl := Continue;
        } else {
          ctl := Continue;
        }
      case Tab =>
        focus := focus.Next();
        ctl := Continue;
      case BackTab =>
        focus := focus.Prev();
        ctl := Continue;
      case Up =>
        HandleUp();
        ctl := Continue;
      case Down =>
        HandleDown();
        ctl := Continue;
      case Left =>
        match focus {
          case Actions => MoveAction(-1);
          case GlobalActions => MoveGlobalAction(-1);
          case Worktrees =>
        }
        ctl := Continue;
      case Right =>
        match focus {
          case Actions => MoveAction(1);
          case GlobalActions => MoveGlobalAction(1);
          case Worktrees =>
        }
        ctl := Continue;
      case Enter =>
        EnterExitsWithListedWorktree(State());
        ctl := HandleEnter();
      case Backspace =>
        ctl := Continue;
      case OtherKey =>
        ctl := Continue;
    }

    /**
     * `event_loop`: read events until one makes the picker exit.  When the
     * event source runs dry its error ends the loop.
     */
    method EventLoop(events: EventQueue, cb: Callbacks) returns (r: Result<Option<Selection>>)
      requires Valid()
      modifies this, DialogRepr(), cb, events
      ensures Valid()
      ensures r.Err? ==> r.error == "no more events" && events.events == []
      ensures r.Ok? && r.value.Some? ==> SelectionListed(r.value.value, worktrees)
    {
      SyncSelection();
      while true
        invariant Valid()
        invariant fresh(DialogRepr() - old(DialogRepr()))
        decreases |events.events|
      {
        var next := events.Next();
        if next.Err? {
          return Err(next.error);
        }
        var ctl := ProcessEvent(next.value, cb);
        if ctl.Exit? {
          return Ok(ctl.outcome);
        }
      }
    }

    /** `snapshot`: what the renderer is given. */
    function Snapshot(): (r: PickerSnapshot)
      reads this, DialogRepr()
      ensures |r.items| == |worktrees| && forall i :: 0 <= i < |r.items| ==> r.items[i] == worktrees[i].name
      ensures r.hasWorktrees <==> worktrees != []
      ensures r.detail == CurrentEntryOf(State())
      ensures r.dialog.None? <==> dialog.None? || (dialog.value.ConfirmRemove? && dialog.value.index >= |worktrees|)
      ensures dialog.Some? && dialog.value.ConfirmRemove? && dialog.value.index < |worktrees| ==>
        r.dialog == Some(ConfirmRemoveView(worktrees[dialog.value.index].name))
    {
      var ws := worktrees;
      var items := seq(|ws|, i requires 0 <= i < |ws| => ws[i].name);
      var view :=
        match dialog
        case Some(ConfirmRemove(index)) =>
          if index < |worktrees| then Some(ConfirmRemoveView(worktrees[index].name)) else None
        case Some(Info(message)) => Some(InfoView(message))
        case Some(Create(d)) => Some(CreateView(d.View()))
        case None => None;
      PickerSnapshot(items, CurrentEntryOf(State()), focus, actionSelected, globalActionSelected, status, view, worktrees != [])
    }
  }

  // ---------------------------------------------------------------------
  // What one event does, as relations between the states before and after
  // ---------------------------------------------------------------------

  twostate predicate NoCallbacks(cb: Callbacks)
    reads cb
  {
    cb.removeCalls == old(cb.removeCalls) && cb.createCalls == old(cb.createCalls)
  }

  /** Enter outside a dialog: `Enter`, plus a fresh create dialog when it opens one. */
  twostate predicate EnterStep(cmd: InteractiveCommand, ctl: LoopControl)
    reads cmd, cmd.DialogRepr()
  {
    var r := EnterOutcome(old(cmd.State()));
    ctl == r.control
    && if r.opensCreate then
      cmd.dialog.Some? && cmd.dialog.value.Create? && fresh(cmd.dialog.value.create)
      && OpenedCreateDialog(cmd.dialog.value.create, old(cmd.branches), old(cmd.worktrees), cmd.defaultBranch)
      && cmd.State() == r.state.(dialog := cmd.dialog)
    else cmd.State() == r.state
  }

  /** A key in the confirm-remove dialog: `Confirm`, with the remove callback called as it says. */
  twostate predicate ConfirmStep(cmd: InteractiveCommand, cb: Callbacks, index: nat, code: KeyCode)
    reads cmd, cb
  {
    var r := Confirm(old(cmd.State()), index, code, cb.removeResult);
    cmd.State() == r.state
    && cb.removeCalls == old(cb.removeCalls) + CallsOf(r.call) && cb.createCalls == old(cb.createCalls)
  }

  /** A key in the create dialog `d`. */
  twostate predicate CreateKeyStep(cmd: InteractiveCommand, cb: Callbacks, d: CreateDialog, key: KeyEvent)
    requires old(d.Valid())
    reads cmd, cb, d
  {
    var s := old(cmd.State());
    var v := old(d.View());
    var code := key.code;
    if code == Esc then
      cmd.State() == ClosedWith(s, "Creation cancelled.") && NoCallbacks(cb) && d.View() == v.(error := None, nameInput := "")
    else if code == Tab then
      cmd.State() == s && NoCallbacks(cb) && d.View() == v.(focus := v.focus.Next())
    else if code == BackTab then
      cmd.State() == s && NoCallbacks(cb) && d.View() == v.(focus := v.focus.Prev())
    else
      match v.focus
      case Name => cmd.State() == s && NoCallbacks(cb) && d.View() == NameFieldKey(v, key)
      case Base => cmd.State() == s && NoCallbacks(cb) && d.View() == BaseFieldKey(v, code)
      case Buttons =>
        if code == Enter && v.buttonsSelected == 0 then
          var r := Submit(s.(dialog := None), v, cmd.worktreesDir, cb.createResult);
          d.View() == r.view
          && cb.createCalls == old(cb.createCalls) + CallsOf(r.call) && cb.removeCalls == old(cb.removeCalls)
          && if r.outcome.Some? then
               cmd.State() == ClosedWith(r.state, "Created `" + r.outcome.value.0 + "` from " + r.outcome.value.1)
             else cmd.State() == r.state.(dialog := s.dialog)
        else if code == Enter then
          cmd.State() == ClosedWith(s, "Creation cancelled.") && NoCallbacks(cb) && d.View() == v
        else cmd.State() == s && NoCallbacks(cb) && d.View() == ButtonsFieldKey(v, code)
  }

  /** A key press while `open` is the dialog on screen. */
  twostate predicate DialogKeyStep(cmd: InteractiveCommand, cb: Callbacks, open: Dialog, key: KeyEvent)
    requires open.Create? ==> old(open.create.Valid())
    reads cmd, cb, if open.Create? then {open.create} else {}
  {
    match open
    case ConfirmRemove(index) => ConfirmStep(cmd, cb, index, key.code)
    case Info(_) =>
      NoCallbacks(cb) && cmd.State() == (if key.code == Enter then old(cmd.State()).(dialog := None) else old(cmd.State()))
    case Create(d) => CreateKeyStep(cmd, cb, d, key)
  }

  /** A key press with no dialog open. */
  twostate predicate PanelKeyStep(cmd: InteractiveCommand, cb: Callbacks, code: KeyCode, ctl: LoopControl)
    reads cmd, cmd.DialogRepr(), cb
  {
    var s := old(cmd.State());
    var n := NavOf(s);
    NoCallbacks(cb)
    && match code
      case Esc => ctl == Exit(None) && cmd.State() == s
      case Char(c) =>
        if c == 'q' then ctl == Exit(None) && cmd.State() == s
        else if c == 'k' then ctl == Continue && cmd.State() == WithNav(s, NavUp(n))
        else if c == 'j' then ctl == Continue && cmd.State() == WithNav(s, NavDown(n))
        else ctl == Continue && cmd.State() == s
      case Tab => ctl == Continue && cmd.State() == WithNav(s, NavTab(n, true))
      case BackTab => ctl == Continue && cmd.State() == WithNav(s, NavTab(n, false))
      case Up => ctl == Continue && cmd.State() == WithNav(s, NavUp(n))
      case Down => ctl == Continue && cmd.State() == WithNav(s, NavDown(n))
      case Left => ctl == Continue && cmd.State() == WithNav(s, NavHorizontal(n, -1))
      case Right => ctl == Continue && cmd.State() == WithNav(s, NavHorizontal(n, 1))
      case Enter => EnterStep(cmd, ctl)
      case _ => ctl == Continue && cmd.State() == s
  }

  /** The scripted event source: events in order, then an error. */
  class EventQueue {
    var events: seq<Event>

    constructor(events: seq<Event>)
      ensures this.events == events
    {
      this.events := events;
    }

    method Next() returns (r: Result<Event>)
      modifies this
      ensures old(events) == [] ==> r == Err("no more events") && events == []
      ensures old(events) != [] ==> r == Ok(old(events)[0]) && events == old(events)[1..]
    {
      if events == [] {
        return Err("no more events");
      }
      r := Ok(events[0]);
      events := events[1..];
    }
  }
}
