/**
 * Shared vocabulary of the interactive worktree picker: which panel has
 * the keyboard focus, the actions offered for the selected worktree, the
 * global actions, what the picker hands back when it exits, and the
 * status line.  Also the wrap-around step (`isize::rem_euclid`) that
 * every list and button row of the picker uses.
 */
module Interactive {
  import opened Paths

  /** One worktree shown in the list: its display name and location. */
  datatype WorktreeEntry = WorktreeEntry(name: string, path: Path)

  /** The three panels that can hold the keyboard focus. */
  datatype Focus = Worktrees | Actions | GlobalActions
  {
    /** Tab: Worktrees, then Actions, then GlobalActions, then back. */
    function Next(): (f: Focus)
      ensures f != this
    {
      match this
      case Worktrees => Actions
      case Actions => GlobalActions
      case GlobalActions => Worktrees
    }

    /** Shift-Tab: the reverse cycle. */
    function Prev(): (f: Focus)
      ensures f != this
    {
      match this
      case Worktrees => GlobalActions
      case Actions => Worktrees
      case GlobalActions => Actions
    }
  }

  /** Shift-Tab undoes Tab and Tab undoes Shift-Tab. */
  lemma FocusNextPrevInverse(f: Focus)
    ensures f.Next().Prev() == f
    ensures f.Prev().Next() == f
  {
  }

  /** Three presses of Tab visit every panel once and come back. */
  lemma FocusCycle(f: Focus)
    ensures f.Next().Next().Next() == f
    ensures {f, f.Next(), f.Next().Next()} == {Worktrees, Actions, GlobalActions}
  {
  }

  /** The rows of the global-actions panel, in display order. */
  const GLOBAL_ACTIONS: seq<string> := ["Create worktree", "Cd to root dir"]

  /** What the picker hands back when it exits with a choice. */
  datatype Selection = Worktree(name: string) | PrGithub(name: string) | RepoRoot

  /** The actions offered for the selected worktree. */
  datatype Action = Open | Remove | PrGithub

  /** `Action::ALL`, in display order. */
  const ALL_ACTIONS: seq<Action> := [Open, Remove, Action.PrGithub]

  function ActionLabel(a: Action): string
  {
    match a
    case Open => "Open"
    case Remove => "Remove"
    case PrGithub => "PR (GitHub)"
  }

  /** Every action of this revision needs a selected worktree. */
  predicate RequiresSelection(a: Action)
  {
    a == Open || a == Remove || a == Action.PrGithub
  }

  /** `Action::from_index`: the action at `index` modulo the number of actions. */
  function ActionFromIndex(index: nat): (a: Action)
    ensures a in ALL_ACTIONS
  {
    ALL_ACTIONS[index % |ALL_ACTIONS|]
  }

  /** The position of an action in `ALL_ACTIONS`. */
  function ActionIndex(a: Action): (i: nat)
    ensures i < |ALL_ACTIONS| && ALL_ACTIONS[i] == a
  {
    match a
    case Open => 0
    case Remove => 1
    case PrGithub => 2
  }

  /** `from_index` and the position in `ALL` are inverse up to the modulus. */
  lemma ActionIndexRoundTrip(a: Action, index: nat)
    ensures ActionFromIndex(ActionIndex(a)) == a
    ensures ActionIndex(ActionFromIndex(index)) == index % |ALL_ACTIONS|
  {
  }

  /** The labels tell the actions apart, and every action requires a selection. */
  lemma ActionLabelsDistinct(a: Action, b: Action)
    ensures ActionLabel(a) == ActionLabel(b) ==> a == b
    ensures RequiresSelection(a)
  {
  }

  datatype StatusKind = Info | Error

  /** The status line shown under the panels. */
  datatype StatusMessage = StatusMessage(text: string, kind: StatusKind)

  function InfoStatus(text: string): (m: StatusMessage)
    ensures m.kind == Info && m.text == text
  {
    StatusMessage(text, Info)
  }

  function ErrorStatus(text: string): (m: StatusMessage)
    ensures m.kind == Error && m.text == text
  {
    StatusMessage(text, Error)
  }

  /**
   * `(current + delta).rem_euclid(len)`: the index `delta` steps away
   * from `current` in a row of `len` entries that wraps around.
   */
  function Cycle(current: int, delta: int, len: nat): (next: nat)
    requires len > 0
    ensures next < len
  {
    (current + delta) % len
  }

  /** One step forward or back wraps at the ends of the row. */
  lemma CycleStep(current: nat, len: nat)
    requires current < len
    ensures Cycle(current, 1, len) == if current + 1 == len then 0 else current + 1
    ensures Cycle(current, -1, len) == if current == 0 then len - 1 else current - 1
  {
  }

  /** Moving `delta` steps and then `-delta` steps returns to the start. */
  lemma CycleInverse(current: nat, delta: int, len: nat)
    requires current < len
    ensures Cycle(Cycle(current, delta, len), -delta, len) == current
  {
    var y := current + delta;
    var q, c := y / len, y % len;
    assert y == q * len + c;
    assert c + -delta == current + (-q) * len by {
      assert (-q) * len == -(q * len);
    }
    ModShift(current, -q, len);
  }

  /** Adding any multiple of `len` leaves the remainder unchanged. */
  lemma ModAddMultiple(y: int, k: int, len: nat)
    requires len > 0
    ensures (y + k * len) % len == y % len
  {
    var q := y / len;
    var r := y % len;
    assert y + k * len == r + (q + k) * len by {
      assert y == q * len + r;
      assert q * len + k * len == (q + k) * len;
    }
    ModShift(r, q + k, len);
  }

  /** Adding a multiple of `len` to an index inside the row does not move it. */
  lemma ModShift(x: nat, k: int, len: nat)
    requires x < len
    ensures (x + k * len) % len == x
  {
    var y := x + k * len;
    var q := y / len;
    var r := y % len;
    assert y == q * len + r;
    var m := q - k;
    assert x - r == m * len by {
      assert q * len - k * len == (q - k) * len;
    }
    SmallMultipleIsZero(m, len);
  }

  /** The only multiple of `len` strictly between `-len` and `len` is 0. */
  lemma SmallMultipleIsZero(m: int, len: int)
    requires len > 0 && -len < m * len < len
    ensures m == 0
  {
    MultipleBounds(m, len);
  }

  lemma MultipleBounds(m: int, len: int)
    requires len > 0
    ensures m >= 1 ==> m * len >= len
    ensures m <= -1 ==> m * len <= -len
  {
    if m >= 1 {
      MultipleAtLeast(m, len);
    } else if m <= -1 {
      MultipleAtLeast(-m, len);
      assert (-m) * len == -(m * len);
    }
  }

  lemma {:induction false} MultipleAtLeast(m: int, len: int)
    requires m >= 1 && len > 0
    ensures m * len >= len
    decreases m
  {
    if m > 1 {
      MultipleAtLeast(m - 1, len);
      assert m * len == (m - 1) * len + len;
    }
  }
}
