/**
 * What the picker draws, reduced to text and highlighting: the worktree
 * list, the action panels and their scroll marks, the status line, and the
 * remove, info, create and merge dialogs.  Colours, borders and layout
 * splitting are the terminal library's business and are not modelled; the
 * scroll-window arithmetic and the rules for which row is highlighted are.
 */
module Render {
  import opened Wrappers
  import opened Numbers
  import opened Interactive
  import opened Dialogs

  /** A run of text, and whether it is drawn in the highlight style. */
  datatype Span = Span(text: string, highlighted: bool)

  type Line = seq<Span>

  function Plain(text: string): Line
  {
    [Span(text, false)]
  }

  predicate Highlighted(line: Line)
  {
    exists k :: 0 <= k < |line| && line[k].highlighted
  }

  // ---------------------------------------------------------------------
  // Worktree list, details and status
  // ---------------------------------------------------------------------

  /** The rows of the worktree list: the names, or one placeholder row when there are none. */
  function ListItems(items: seq<string>): (r: seq<string>)
    ensures |r| >= 1
    ensures items != [] ==> r == items
    ensures items == [] ==> r == ["(no worktrees)"]
  {
    if items == [] then ["(no worktrees)"] else items
  }

  /** The details panel without a selection. */
  const NO_SELECTION_DETAIL: string := "No worktree selected."

  /** The status line: the current message, or the key hint. */
  function StatusText(status: Option<StatusMessage>): (r: string)
    ensures status.Some? ==> r == status.value.text
    ensures status.None? ==> r == "Use Tab to focus actions. Esc exits."
  {
    match status
    case Some(m) => m.text
    case None => "Use Tab to focus actions. Esc exits."
  }

  // ---------------------------------------------------------------------
  // Action panel
  // ---------------------------------------------------------------------

  /** One row of the action panel: "[label]", dimmed when it cannot apply. */
  datatype ActionItem = ActionItem(text: string, dimmed: bool)

  /** The action rows, one per action in order; every row is dimmed exactly when there are no worktrees. */
  method RenderActionItems(hasWorktrees: bool) returns (items: seq<ActionItem>)
    ensures |items| == |ALL_ACTIONS|
    ensures forall i :: 0 <= i < |items| ==> items[i].text == "[" + ActionLabel(ALL_ACTIONS[i]) + "]"
    ensures forall i :: 0 <= i < |items| ==> (items[i].dimmed <==> !hasWorktrees)
  {
    items := [];
    var i := 0;
    while i < |ALL_ACTIONS|
      invariant 0 <= i <= |ALL_ACTIONS| && |items| == i
      invariant forall k :: 0 <= k < i ==> items[k].text == "[" + ActionLabel(ALL_ACTIONS[k]) + "]"
      invariant forall k :: 0 <= k < i ==> (items[k].dimmed <==> RequiresSelection(ALL_ACTIONS[k]) && !hasWorktrees)
    {
      var action := ALL_ACTIONS[i];
      var dimmed := RequiresSelection(action) && !hasWorktrees;
      items := items + [ActionItem("[" + ActionLabel(action) + "]", dimmed)];
      i := i + 1;
    }
    forall k | 0 <= k < |items|
      ensures items[k].dimmed <==> !hasWorktrees
    {
      ActionLabelsDistinct(ALL_ACTIONS[k], ALL_ACTIONS[k]);
    }
  }

  /** Whether the "▲" and "▼" marks of a scrolled list are drawn. */
  datatype Marks = Marks(top: bool, bottom: bool)

  /**
   * The action panel's marks for a list area `height` rows high (two are
   * border) scrolled by `offset`, holding `total` items.
   */
  function ActionMarks(height: nat, offset: nat, total: nat): Marks
  {
    var visible := SaturatingSub(height, 2);
    Marks(visible > 0 && offset > 0, visible > 0 && offset + visible < total)
  }

  /**
   * A mark is drawn only when rows are visible and items are hidden on its
   * side; with neither mark every item is in view.
   */
  lemma ActionMarksSignalHiddenItems(height: nat, offset: nat, total: nat)
    ensures var m := ActionMarks(height, offset, total);
      var visible := SaturatingSub(height, 2);
      (m.top <==> visible > 0 && offset > 0)
      && (m.bottom <==> visible > 0 && total - offset > visible)
      && (visible > 0 && !m.top && !m.bottom ==> offset == 0 && total <= visible)
      && (height <= 2 ==> !m.top && !m.bottom)
  {
  }

  /** The panel is sized to its actions plus its border, so unscrolled it shows no mark. */
  lemma ActionPanelUnscrolledHasNoMarks()
    ensures ActionMarks(|ALL_ACTIONS| + 2, 0, |ALL_ACTIONS|) == Marks(false, false)
  {
  }

  // ---------------------------------------------------------------------
  // Highlighted rows and buttons
  // ---------------------------------------------------------------------

  /** The rows of the global-actions panel, "[label]" each, the selected one highlighted while focused. */
  function GlobalActionLines(focus: Focus, selected: nat): (r: seq<Line>)
    ensures |r| == |GLOBAL_ACTIONS|
    ensures forall i :: 0 <= i < |r| ==> (Highlighted(r[i]) <==> focus == GlobalActions && selected == i)
    ensures forall i :: 0 <= i < |r| ==> |r[i]| == 1 && r[i][0].text == "[" + GLOBAL_ACTIONS[i] + "]"
  {
    var r := seq(|GLOBAL_ACTIONS|, i requires 0 <= i < |GLOBAL_ACTIONS| =>
      [Span("[" + GLOBAL_ACTIONS[i] + "]", focus == GlobalActions && selected == i)]);
    assert forall i :: 0 <= i < |r| ==> r[i][0] == Span("[" + GLOBAL_ACTIONS[i] + "]", focus == GlobalActions && selected == i);
    r
  }

  method RenderGlobalActions(focus: Focus, selected: nat) returns (lines: seq<Line>)
    ensures lines == GlobalActionLines(focus, selected)
  {
    lines := [];
    var i := 0;
    while i < |GLOBAL_ACTIONS|
      invariant 0 <= i <= |GLOBAL_ACTIONS|
      invariant lines == GlobalActionLines(focus, selected)[..i]
    {
      var highlighted := focus == GlobalActions && selected == i;
      lines := lines + [[Span("[" + GLOBAL_ACTIONS[i] + "]", highlighted)]];
      i := i + 1;
    }
  }

  /** "[x]" when checked, "[ ]" otherwise. */
  function Checkbox(checked: bool): (r: string)
    ensures |r| == 3 && r[0] == '[' && r[2] == ']'
    ensures r[1] == 'x' <==> checked
  {
    if checked then "[x]" else "[ ]"
  }

  /** A check box always shows its state: two boxes look alike exactly when they agree. */
  lemma CheckboxShowsState(a: bool, b: bool)
    ensures Checkbox(a) == Checkbox(b) <==> a == b
  {
    if Checkbox(a) == Checkbox(b) {
      assert Checkbox(a)[1] == Checkbox(b)[1];
    }
  }

  const OPTIONS_HINT: string := "Space toggles options. Enter confirms."

  /** One option row: the box, a space, the label; box and label carry the highlight. */
  function OptionLine(checked: bool, caption: string, highlighted: bool): Line
  {
    [Span(Checkbox(checked), highlighted), Span(" ", false), Span(caption, highlighted)]
  }

  /** The option rows of a dialog, then a blank line and the key hint. */
  function OptionLines(options: seq<(bool, string)>, focused: bool, selected: nat): (r: seq<Line>)
    ensures |r| == |options| + 2
    ensures forall i :: 0 <= i < |options| ==> r[i] == OptionLine(options[i].0, options[i].1, focused && selected == i)
    ensures r[|options|] == Plain("") && r[|options| + 1] == Plain(OPTIONS_HINT)
  {
    seq(|options|, i requires 0 <= i < |options| => OptionLine(options[i].0, options[i].1, focused && selected == i))
      + [Plain(""), Plain(OPTIONS_HINT)]
  }

  method RenderOptions(options: seq<(bool, string)>, focused: bool, selected: nat) returns (lines: seq<Line>)
    ensures lines == OptionLines(options, focused, selected)
  {
    lines := [];
    var i := 0;
    while i < |options|
      invariant 0 <= i <= |options| && |lines| == i
      invariant forall k :: 0 <= k < i ==> lines[k] == OptionLine(options[k].0, options[k].1, focused && selected == k)
    {
      var (checked, caption) := options[i];
      lines := lines + [OptionLine(checked, caption, focused && selected == i)];
      i := i + 1;
    }
    lines := lines + [Plain(""), Plain(OPTIONS_HINT)];
  }

  /** An option row is highlighted exactly when the options have focus and it is the selected one. */
  lemma OptionHighlightRule(options: seq<(bool, string)>, focused: bool, selected: nat)
    ensures var r := OptionLines(options, focused, selected);
      (forall i :: 0 <= i < |options| ==> (Highlighted(r[i]) <==> focused && selected == i))
      && !Highlighted(r[|options|]) && !Highlighted(r[|options| + 1])
      && (forall i, j :: 0 <= i < j < |r| ==> !(Highlighted(r[i]) && Highlighted(r[j])))
  {
    var r := OptionLines(options, focused, selected);
    forall i | 0 <= i < |options|
      ensures Highlighted(r[i]) <==> focused && selected == i
    {
      if focused && selected == i {
        assert r[i][0].highlighted;
      }
    }
  }

  /** The remove dialog's one option. */
  function RemoveOptions(v: RemoveDialogView): seq<(bool, string)>
  {
    [(v.removeLocalBranch, "Remove local branch")]
  }

  /** The merge dialog's three options, in display order. */
  function MergeOptions(v: MergeDialogView): seq<(bool, string)>
  {
    [(v.removeLocalBranch, "Remove local branch"), (v.removeRemoteBranch, "Remove remote branch"), (v.removeWorktree, "Remove worktree")]
  }

  /** Each merge option's box shows its own flag, and the highlight sits on the selected option. */
  lemma MergeOptionsShowFlags(v: MergeDialogView)
    ensures var r := OptionLines(MergeOptions(v), v.focus == Options, v.optionsSelected);
      r[0][0].text == Checkbox(v.removeLocalBranch)
      && r[1][0].text == Checkbox(v.removeRemoteBranch)
      && r[2][0].text == Checkbox(v.removeWorktree)
      && (forall i :: 0 <= i < 3 ==> (Highlighted(r[i]) <==> v.focus == Options && v.optionsSelected == i))
  {
    OptionHighlightRule(MergeOptions(v), v.focus == Options, v.optionsSelected);
  }

  /** A button's caption: "[ label ]" when padded, "[label]" otherwise. */
  function ButtonText(caption: string, padded: bool): string
  {
    if padded then "[ " + caption + " ]" else "[" + caption + "]"
  }

  /** The spans of the first `k` buttons, with `separator` between neighbours. */
  function ButtonSpans(captions: seq<string>, k: nat, focused: bool, selected: nat, padded: bool, separator: string): (r: Line)
    requires k <= |captions|
    ensures |r| == if k == 0 then 0 else 2 * k - 1
    decreases k
  {
    if k == 0 then []
    else
      ButtonSpans(captions, k - 1, focused, selected, padded, separator)
      + (if k - 1 > 0 then [Span(separator, false)] else [])
      + [Span(ButtonText(captions[k - 1], padded), focused && selected == k - 1)]
  }

  method RenderButtons(captions: seq<string>, focused: bool, selected: nat, padded: bool, separator: string) returns (spans: Line)
    ensures spans == ButtonSpans(captions, |captions|, focused, selected, padded, separator)
  {
    spans := [];
    var i := 0;
    while i < |captions|
      invariant 0 <= i <= |captions|
      invariant spans == ButtonSpans(captions, i, focused, selected, padded, separator)
    {
      if i > 0 {
        spans := spans + [Span(separator, false)];
      }
      spans := spans + [Span(ButtonText(captions[i], padded), focused && selected == i)];
      i := i + 1;
    }
  }

  /**
   * The button row alternates buttons and separators: button `i` is span
   * `2i`, highlighted exactly when the row has focus and `i` is selected,
   * and every separator is plain.
   */
  lemma ButtonRowLayout(captions: seq<string>, k: nat, focused: bool, selected: nat, padded: bool, separator: string)
    requires 0 < k <= |captions|
    ensures var r := ButtonSpans(captions, k, focused, selected, padded, separator);
      |r| == 2 * k - 1
      && (forall i :: 0 <= i < k ==> r[2 * i] == Span(ButtonText(captions[i], padded), focused && selected == i))
      && (forall i :: 0 < i < k ==> r[2 * i - 1] == Span(separator, false))
  {
    forall i | 0 <= i < k
      ensures ButtonSpans(captions, k, focused, selected, padded, separator)[2 * i]
           == Span(ButtonText(captions[i], padded), focused && selected == i)
    {
      ButtonAt(captions, k, focused, selected, padded, separator, i);
    }
    forall i | 0 < i < k
      ensures ButtonSpans(captions, k, focused, selected, padded, separator)[2 * i - 1] == Span(separator, false)
    {
      SeparatorAt(captions, k, focused, selected, padded, separator, i);
    }
  }

  /** Button `i` is span `2i`, lit exactly when the row has focus and `i` is selected. */
  lemma {:induction false} ButtonAt(captions: seq<string>, k: nat, focused: bool, selected: nat, padded: bool, separator: string, i: nat)
    requires i < k <= |captions|
    ensures ButtonSpans(captions, k, focused, selected, padded, separator)[2 * i]
         == Span(ButtonText(captions[i], padded), focused && selected == i)
    decreases k
  {
    var prev := ButtonSpans(captions, k - 1, focused, selected, padded, separator);
    var sep: Line := if k - 1 > 0 then [Span(separator, false)] else [];
    var button := Span(ButtonText(captions[k - 1], padded), focused && selected == k - 1);
    assert ButtonSpans(captions, k, focused, selected, padded, separator) == prev + sep + [button];
    if i < k - 1 {
      ButtonAt(captions, k - 1, focused, selected, padded, separator, i);
      PrefixIndex(prev, sep, [button], 2 * i);
    } else {
      LastIndex(prev + sep, button);
    }
  }

  /** The separator before button `i` is span `2i - 1`, and it is plain. */
  lemma {:induction false} SeparatorAt(captions: seq<string>, k: nat, focused: bool, selected: nat, padded: bool, separator: string, i: nat)
    requires 0 < i < k <= |captions|
    ensures ButtonSpans(captions, k, focused, selected, padded, separator)[2 * i - 1] == Span(separator, false)
    decreases k
  {
    var prev := ButtonSpans(captions, k - 1, focused, selected, padded, separator);
    var sep: Line := [Span(separator, false)];
    var button := Span(ButtonText(captions[k - 1], padded), focused && selected == k - 1);
    assert ButtonSpans(captions, k, focused, selected, padded, separator) == prev + sep + [button];
    if i < k - 1 {
      SeparatorAt(captions, k - 1, focused, selected, padded, separator, i);
      PrefixIndex(prev, sep, [button], 2 * i - 1);
    } else {
      assert |prev| == 2 * i - 1;
      PrefixIndex(prev + sep, [button], [], 2 * i - 1);
    }
  }

  lemma PrefixIndex(a: Line, b: Line, c: Line, j: nat)
    requires j < |a|
    ensures (a + b + c)[j] == a[j]
  {
  }

  lemma LastIndex(a: Line, x: Span)
    ensures (a + [x])[|a|] == x
  {
  }

  /** The remove dialog's buttons: "[ Cancel ]" and "[ Remove ]", three spaces apart. */
  function RemoveButtons(v: RemoveDialogView): Line
  {
    ButtonSpans(["Cancel", "Remove"], 2, v.focus == ButtonRow, v.buttonsSelected, true, "   ")
  }

  /** The merge dialog's buttons: "[ Cancel ]" and "[ Merge ]", three spaces apart. */
  function MergeButtons(v: MergeDialogView): Line
  {
    ButtonSpans(["Cancel", "Merge"], 2, v.focus == ButtonRow, v.buttonsSelected, true, "   ")
  }

  /** The create dialog's buttons: "[Create]" and "[Cancel]", two spaces apart. */
  function CreateButtons(v: CreateDialogView): Line
  {
    ButtonSpans(["Create", "Cancel"], 2, v.focus == Buttons, v.buttonsSelected, false, "  ")
  }

  /** The default "Remove" button of a fresh remove dialog is not lit until the buttons have focus. */
  lemma RemoveButtonsHighlight(v: RemoveDialogView)
    ensures var r := RemoveButtons(v);
      r == [Span("[ Cancel ]", v.focus == ButtonRow && v.buttonsSelected == 0), Span("   ", false),
            Span("[ Remove ]", v.focus == ButtonRow && v.buttonsSelected == 1)]
  {
    ButtonRowLayout(["Cancel", "Remove"], 2, v.focus == ButtonRow, v.buttonsSelected, true, "   ");
    var r := RemoveButtons(v);
    assert |r| == 3;
    assert r[2 * 0] == Span(ButtonText("Cancel", true), v.focus == ButtonRow && v.buttonsSelected == 0);
    assert r[2 * 1] == Span(ButtonText("Remove", true), v.focus == ButtonRow && v.buttonsSelected == 1);
    assert r[2 * 1 - 1] == Span("   ", false);
    assert ButtonText("Cancel", true) == "[ Cancel ]" && ButtonText("Remove", true) == "[ Remove ]";
  }

  /** The create dialog's footer: the error and a blank line when there is one, then the buttons. */
  function CreateFooter(v: CreateDialogView): (r: seq<Line>)
    ensures |r| == (if v.error.Some? then 3 else 1)
    ensures r[|r| - 1] == CreateButtons(v)
    ensures v.error.Some? ==> r[0] == Plain(v.error.value)
  {
    (if v.error.Some? then [Plain(v.error.value), Plain("")] else []) + [CreateButtons(v)]
  }

  /** The name field: the typed text, or a placeholder while it is empty. */
  function NameLine(nameInput: string): (r: Line)
    ensures |r| == 2 && r[0].text == "Name: "
    ensures nameInput != [] ==> r[1].text == nameInput
    ensures nameInput == [] ==> r[1].text == "<enter name>"
  {
    [Span("Name: ", false), Span(if nameInput == [] then "<enter name>" else nameInput, false)]
  }

  // ---------------------------------------------------------------------
  // Create dialog: the scrolled list of bases
  // ---------------------------------------------------------------------

  /** One line of the flattened base list. */
  datatype LineType = GroupHeader(title: string) | BranchOption(groupIdx: nat, optionIdx: nat) | EmptyLine

  predicate LineValid(groups: seq<BaseOptionGroup>, line: LineType)
  {
    line.BranchOption? ==> line.groupIdx < |groups| && line.optionIdx < |groups[line.groupIdx].options|
  }

  predicate LinesValid(groups: seq<BaseOptionGroup>, lines: seq<LineType>)
  {
    forall i :: 0 <= i < |lines| ==> LineValid(groups, lines[i])
  }

  /** The content rows of the base list, the last row of content, and the two scroll marks. */
  datatype Window = Window(contentHeight: nat, scrollEnd: nat, top: bool, bottom: bool)

  /**
   * The window over `total` lines scrolled by `offset` in `availableHeight`
   * rows: two rows stay reserved for the marks.
   */
  function CreateWindow(availableHeight: nat, offset: nat, total: nat): Window
  {
    var contentHeight := SaturatingSub(availableHeight, 2);
    var scrollEnd := if offset + contentHeight < total then offset + contentHeight else total;
    Window(contentHeight, scrollEnd, offset > 0, scrollEnd < total)
  }

  /**
   * The window lies inside the lines and holds at most `contentHeight` of
   * them; the marks say exactly whether lines are hidden above and below.
   */
  lemma CreateWindowBounds(availableHeight: nat, offset: nat, total: nat)
    requires offset <= total
    ensures var w := CreateWindow(availableHeight, offset, total);
      offset <= w.scrollEnd <= total
      && w.scrollEnd - offset <= w.contentHeight
      && w.contentHeight + 2 >= availableHeight
      && (w.top <==> offset > 0)
      && (w.bottom <==> w.scrollEnd < total)
      && (!w.bottom ==> w.scrollEnd == total)
      && (w.bottom ==> w.scrollEnd - offset == w.contentHeight)
  {
  }

  const MORE_ABOVE: string := "  ▲ more above"
  const MORE_BELOW: string := "  ▼ more below"

  /** The first position of `pair` in `indices`. */
  function PairPosition(indices: seq<(nat, nat)>, pair: (nat, nat)): (r: Option<nat>)
    ensures r.Some? <==> pair in indices
    ensures r.Some? ==> r.value < |indices| && indices[r.value] == pair
    ensures r.Some? ==> forall j :: 0 <= j < r.value ==> indices[j] != pair
  {
    if indices == [] then None
    else if indices[0] == pair then Some(0)
    else
      match PairPosition(indices[1..], pair)
      case Some(k) =>
        assert indices[k + 1] == indices[1..][k];
        Some(k + 1)
      case None =>
        assert forall i :: 1 <= i < |indices| ==> indices[i] == indices[1..][i - 1];
        None
  }

  /** One line of the base list: a header, an option (lit when it is the selected base) or a blank. */
  function BaseLine(v: CreateDialogView, line: LineType): Line
    requires LineValid(v.baseGroups, line)
  {
    match line
    case GroupHeader(title) => Plain(title)
    case BranchOption(g, o) =>
      [Span(v.baseGroups[g].options[o].caption, PairPosition(v.baseIndices, (g, o)) == Some(v.baseSelected))]
    case EmptyLine => Plain("")
  }

  /** The lines of the base list as drawn for this window: mark, visible lines, mark. */
  function BaseLines(v: CreateDialogView, flatLines: seq<LineType>, offset: nat, availableHeight: nat): seq<Line>
    requires offset <= |flatLines| && LinesValid(v.baseGroups, flatLines)
  {
    var w := CreateWindow(availableHeight, offset, |flatLines|);
    CreateWindowBounds(availableHeight, offset, |flatLines|);
    (if w.top then [Plain(MORE_ABOVE)] else [])
    + WindowLines(v, flatLines, offset, w.scrollEnd)
    + (if w.bottom then [Plain(MORE_BELOW)] else [])
  }

  /** The drawn lines `from` up to `to` of the base list. */
  function WindowLines(v: CreateDialogView, flatLines: seq<LineType>, from: nat, to: nat): (r: seq<Line>)
    requires from <= to <= |flatLines| && LinesValid(v.baseGroups, flatLines)
    ensures |r| == to - from
    ensures forall i :: 0 <= i < to - from ==> r[i] == BaseLine(v, flatLines[from + i])
  {
    seq(to - from, i requires 0 <= i < to - from => BaseLine(v, flatLines[from + i]))
  }

  method RenderBaseLines(v: CreateDialogView, flatLines: seq<LineType>, offset: nat, availableHeight: nat)
    returns (lines: seq<Line>)
    requires offset <= |flatLines| && LinesValid(v.baseGroups, flatLines)
    ensures lines == BaseLines(v, flatLines, offset, availableHeight)
  {
    var contentHeight := SaturatingSub(availableHeight, 2);
    var scrollEnd := if offset + contentHeight < |flatLines| then offset + contentHeight else |flatLines|;
    CreateWindowBounds(availableHeight, offset, |flatLines|);
    assert scrollEnd == CreateWindow(availableHeight, offset, |flatLines|).scrollEnd;
    var window := RenderWindow(v, flatLines, offset, scrollEnd);
    lines := (if offset > 0 then [Plain(MORE_ABOVE)] else []) + window
      + (if scrollEnd < |flatLines| then [Plain(MORE_BELOW)] else []);
  }

  /** The visible lines `from` up to `to`, one by one. */
  method RenderWindow(v: CreateDialogView, flatLines: seq<LineType>, from: nat, to: nat) returns (lines: seq<Line>)
    requires from <= to <= |flatLines| && LinesValid(v.baseGroups, flatLines)
    ensures lines == WindowLines(v, flatLines, from, to)
  {
    lines := [];
    var i := from;
    while i < to
      invariant from <= i <= to
      invariant lines == WindowLines(v, flatLines, from, i)
    {
      WindowLinesExtend(v, flatLines, from, i);
      lines := lines + [BaseLine(v, flatLines[i])];
      i := i + 1;
    }
  }

  lemma WindowLinesExtend(v: CreateDialogView, flatLines: seq<LineType>, from: nat, to: nat)
    requires from <= to < |flatLines| && LinesValid(v.baseGroups, flatLines)
    ensures WindowLines(v, flatLines, from, to + 1) == WindowLines(v, flatLines, from, to) + [BaseLine(v, flatLines[to])]
  {
  }

  /**
   * The drawn base list is the marks plus the window; once there is room
   * for both marks it never needs more rows than are available.
   */
  lemma BaseLinesFit(v: CreateDialogView, flatLines: seq<LineType>, offset: nat, availableHeight: nat)
    requires offset <= |flatLines| && LinesValid(v.baseGroups, flatLines)
    ensures var w := CreateWindow(availableHeight, offset, |flatLines|);
      |BaseLines(v, flatLines, offset, availableHeight)|
        == (if w.top then 1 else 0) + (w.scrollEnd - offset) + (if w.bottom then 1 else 0)
    ensures availableHeight >= 2 ==> |BaseLines(v, flatLines, offset, availableHeight)| <= availableHeight
  {
    CreateWindowBounds(availableHeight, offset, |flatLines|);
  }

  /** Unscrolled, with room for every line, the list is drawn whole and without marks. */
  lemma BaseLinesWhole(v: CreateDialogView, flatLines: seq<LineType>, availableHeight: nat)
    requires LinesValid(v.baseGroups, flatLines) && |flatLines| + 2 <= availableHeight
    ensures var r := BaseLines(v, flatLines, 0, availableHeight);
      |r| == |flatLines| && forall i :: 0 <= i < |r| ==> r[i] == BaseLine(v, flatLines[i])
  {
    CreateWindowBounds(availableHeight, 0, |flatLines|);
  }

  /**
   * With the index pairs of `CreateDialog::new`, an option line is lit
   * exactly when its pair is the one at the selected position.
   */
  lemma OptionLitIffSelected(v: CreateDialogView, g: nat, o: nat)
    requires v.baseIndices == FlatIndices(v.baseGroups)
    requires g < |v.baseGroups| && o < |v.baseGroups[g].options|
    ensures Highlighted(BaseLine(v, BranchOption(g, o)))
      <==> v.baseSelected < |v.baseIndices| && v.baseIndices[v.baseSelected] == (g, o)
  {
    FlatIndicesExact(v.baseGroups);
    var line := BaseLine(v, BranchOption(g, o));
    var pos := PairPosition(v.baseIndices, (g, o));
    assert (g, o) in v.baseIndices;
    if v.baseSelected < |v.baseIndices| && v.baseIndices[v.baseSelected] == (g, o) {
      assert line[0].highlighted;
    }
  }

  // ---------------------------------------------------------------------
  // Pop-up placement
  // ---------------------------------------------------------------------

  /** Percentages of the three bands across an axis: margin, pop-up, margin. */
  datatype Bands = Bands(before: nat, middle: nat, after: nat)

  /** `centered_rect`'s split of one axis around a `percent` wide centre. */
  function CenteredBands(percent: nat): (r: Bands)
    requires percent <= 100
    ensures r.middle == percent && r.before == r.after
    ensures 99 <= r.before + r.middle + r.after <= 100
  {
    Bands((100 - percent) / 2, percent, (100 - percent) / 2)
  }

  /** Each dialog's pop-up size in percent of the screen: (width, height). */
  const REMOVE_POPUP: (nat, nat) := (60, 45)
  const INFO_POPUP: (nat, nat) := (60, 30)
  const CREATE_POPUP: (nat, nat) := (70, 70)
  const MERGE_POPUP: (nat, nat) := (70, 60)

  /** Every pop-up leaves a margin of at least 15 percent on each side of both axes. */
  lemma PopupsLeaveMargins()
    ensures forall p :: p in [REMOVE_POPUP, INFO_POPUP, CREATE_POPUP, MERGE_POPUP] ==>
      CenteredBands(p.0).before >= 15 && CenteredBands(p.1).before >= 15
  {
  }
}
