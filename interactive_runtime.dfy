/**
 * `rsworktree interactive`: gathers the worktrees and the local branches,
 * runs the picker, restores the terminal, and then carries out what was
 * chosen.  The picker itself and the commands it hands over to are
 * modelled in their own modules; here their results are inputs.
 */
module Runtime {
  import opened Wrappers
  import opened Text
  import opened Paths
  import opened Order
  import List
  import Interactive
  import Cd
  import Create
  import Remove
  import Runner
  import PG = PrGithub
  import MPG = MergePrGithub

  /** What the picker hands back in the revision this runtime is written against. */
  datatype Selection =
    | Worktree(name: string)
    | PrGithub(name: string)
    | MergePrGithub(name: string, removeLocalBranch: bool, removeRemoteBranch: bool, removeWorktree: bool)
    | RepoRoot

  // ----- the worktree list -----

  /** The picker's row for a worktree found at `rel` under `dir`: its display and its full path. */
  function PickerEntry(dir: Path, rel: seq<string>): Interactive.WorktreeEntry
  {
    Interactive.WorktreeEntry(List.FormatWorktree(Path(false, rel)), JoinPath(dir, Path(false, rel)))
  }

  function PickerEntries(dir: Path, found: seq<seq<string>>): (r: seq<Interactive.WorktreeEntry>)
    ensures |r| == |found|
    ensures forall i :: 0 <= i < |found| ==> r[i] == PickerEntry(dir, found[i])
  {
    if found == [] then [] else [PickerEntry(dir, found[0])] + PickerEntries(dir, found[1..])
  }

  /**
   * A row names its worktree unambiguously: the name splits back into the
   * found components, and the path lies under the worktrees directory at
   * exactly those components.
   */
  lemma PickerEntryReadsBack(dir: Path, rel: seq<string>)
    requires forall i :: 0 <= i < |rel| ==> IsComponent(rel[i])
    ensures Components(PickerEntry(dir, rel).name) == rel
    ensures StripPrefix(PickerEntry(dir, rel).path, dir) == Some(Path(false, rel))
  {
    List.FormatWorktreeRoundTrip(rel);
    StripJoinRoundTrip(dir, Path(false, rel));
  }

  /** Distinct worktrees get distinct names in the picker. */
  lemma PickerNamesDistinct(dir: Path, found: seq<seq<string>>)
    requires forall i, k :: 0 <= i < |found| && 0 <= k < |found[i]| ==> IsComponent(found[i][k])
    requires forall i, j :: 0 <= i < j < |found| ==> found[i] != found[j]
    ensures var r := PickerEntries(dir, found);
      forall i, j :: 0 <= i < j < |r| ==> r[i].name != r[j].name
  {
    var r := PickerEntries(dir, found);
    forall i, j | 0 <= i < j < |r|
      ensures r[i].name != r[j].name
    {
      PickerEntryReadsBack(dir, found[i]);
      PickerEntryReadsBack(dir, found[j]);
    }
  }

  // ----- load_branches -----

  /** One local branch as the iterator yields it: an error, or its name when it is Unicode. */
  type BranchItem = Result<Option<string>>

  /** The name an item adds to the set: a readable, non-empty name. */
  function ItemName(item: BranchItem): Option<string>
  {
    if item.Ok? && item.value.Some? && item.value.value != [] then item.value else None
  }

  /** The names the iterator contributes, in the order yielded. */
  function NamesOf(items: seq<BranchItem>): seq<string>
  {
    if items == [] then []
    else (if ItemName(items[0]).Some? then [ItemName(items[0]).value] else []) + NamesOf(items[1..])
  }

  /** The `BTreeSet` after the remaining items are inserted into `acc`; the first failing item ends the walk. */
  function Collect(acc: seq<string>, items: seq<BranchItem>): Result<seq<string>>
    decreases |items|
  {
    if items == [] then Ok(acc)
    else if items[0].Err? then Err(items[0].error)
    else Collect(if ItemName(items[0]).Some? then InsertUnique(ItemName(items[0]).value, acc) else acc, items[1..])
  }

  /** The set before the walk: the branch HEAD points at, if any. */
  function HeadSet(head: Option<string>): seq<string>
  {
    if head.Some? then [head.value] else []
  }

  /**
   * `load_branches`: `head` is the short name of the branch HEAD points at
   * (None when HEAD is unreadable, detached or unnamed); `listing` is the
   * local-branch iterator, or the error creating it.
   */
  function LoadBranches(head: Option<string>, listing: Result<seq<BranchItem>>): Result<(seq<string>, Option<string>)>
  {
    match listing
    case Err(e) => Err(e)
    case Ok(items) =>
      match Collect(HeadSet(head), items)
      case Err(e) => Err(e)
      case Ok(branches) => Ok((branches, if head.Some? && head.value in branches then head else None))
  }

  /** `load_branches` with its `while let` loop over the iterator. */
  method LoadBranchesLoop(head: Option<string>, listing: Result<seq<BranchItem>>) returns (r: Result<(seq<string>, Option<string>)>)
    ensures r == LoadBranches(head, listing)
  {
    var names := HeadSet(head);
    if listing.Err? {
      return Err(listing.error);
    }
    var items := listing.value;
    var i := 0;
    while i < |items|
      invariant 0 <= i <= |items|
      invariant Collect(names, items[i..]) == Collect(HeadSet(head), items)
    {
      assert items[i..][1..] == items[i + 1..];
      if items[i].Err? {
        return Err(items[i].error);
      }
      var name := items[i].value;
      if name.Some? && name.value != [] {
        names := InsertUnique(name.value, names);
      }
      i := i + 1;
    }
    assert items[i..] == [];
    var default := if head.Some? && head.value in names then head else None;
    r := Ok((names, default));
  }

  /** The walk fails exactly when some item is an error. */
  lemma {:induction false} CollectFails(acc: seq<string>, items: seq<BranchItem>)
    ensures Collect(acc, items).Err? <==> exists i :: 0 <= i < |items| && items[i].Err?
    decreases |items|
  {
    if items != [] && items[0].Ok? {
      var next := if ItemName(items[0]).Some? then InsertUnique(ItemName(items[0]).value, acc) else acc;
      CollectFails(next, items[1..]);
      if exists i :: 0 <= i < |items| && items[i].Err? {
        var i :| 0 <= i < |items| && items[i].Err?;
        assert items[1..][i - 1].Err?;
      }
    }
  }

  /** A successful walk keeps the set strictly sorted and adds exactly the item names. */
  lemma {:induction false} CollectResult(acc: seq<string>, items: seq<BranchItem>)
    requires StrictlySorted(acc)
    ensures var r := Collect(acc, items);
      r.Ok? ==> StrictlySorted(r.value) && forall b :: b in r.value <==> b in acc || b in NamesOf(items)
    decreases |items|
  {
    if items != [] && items[0].Ok? {
      var next := if ItemName(items[0]).Some? then InsertUnique(ItemName(items[0]).value, acc) else acc;
      if ItemName(items[0]).Some? {
        InsertUniqueSorted(ItemName(items[0]).value, acc);
      }
      CollectResult(next, items[1..]);
    }
  }

  /** A name contributes exactly when some item yields it and it is not empty. */
  lemma {:induction false} NamesOfMembers(items: seq<BranchItem>, b: string)
    ensures b in NamesOf(items) <==> b != [] && exists i :: 0 <= i < |items| && items[i] == Ok(Some(b))
    decreases |items|
  {
    if items != [] {
      NamesOfMembers(items[1..], b);
      if exists i :: 0 <= i < |items| && items[i] == Ok(Some(b)) {
        var i :| 0 <= i < |items| && items[i] == Ok(Some(b));
        if i > 0 {
          assert items[1..][i - 1] == Ok(Some(b));
        }
      }
      if b != [] && exists i :: 0 <= i < |items[1..]| && items[1..][i] == Ok(Some(b)) {
        var i :| 0 <= i < |items[1..]| && items[1..][i] == Ok(Some(b));
        assert items[i + 1] == Ok(Some(b));
      }
    }
  }

  /**
   * The branches are sorted without repeats and are exactly HEAD's branch
   * and every non-empty local branch name, so they equal the sorted,
   * de-duplicated list of those names; the default branch is HEAD's branch,
   * always among them.  Any error reading the branches fails the whole
   * load.
   */
  lemma LoadBranchesRules(head: Option<string>, listing: Result<seq<BranchItem>>)
    ensures var r := LoadBranches(head, listing);
      && (r.Err? <==> listing.Err? || exists i :: 0 <= i < |listing.value| && listing.value[i].Err?)
      && (r.Ok? ==>
            && StrictlySorted(r.value.0)
            && (forall b :: b in r.value.0 <==>
                  Some(b) == head || (b != [] && exists i :: 0 <= i < |listing.value| && listing.value[i] == Ok(Some(b))))
            && r.value.0 == SortDedup(HeadSet(head) + NamesOf(listing.value))
            && r.value.1 == head
            && (r.value.1.Some? ==> r.value.1.value in r.value.0))
  {
    if listing.Ok? {
      var items := listing.value;
      CollectFails(HeadSet(head), items);
      CollectResult(HeadSet(head), items);
      var r := Collect(HeadSet(head), items);
      if r.Ok? {
        forall b
          ensures b in r.value <==> Some(b) == head || (b != [] && exists i :: 0 <= i < |items| && items[i] == Ok(Some(b)))
        {
          NamesOfMembers(items, b);
        }
        var reference := SortDedup(HeadSet(head) + NamesOf(items));
        assert forall b :: b in reference <==> b in HeadSet(head) || b in NamesOf(items);
        StrictlySortedUnique(r.value, reference);
      }
    }
  }

  // ----- the callbacks handed to the picker -----

  /** The remove command the picker's removal runs: quiet, no root shell, the local branch as asked. */
  function RemoveAdapterCommand(name: string, removeLocalBranch: bool): Remove.RemoveCommand
  {
    Remove.WithSpawnShell(Remove.WithRemoveLocalBranch(Remove.WithQuiet(Remove.NewRemoveCommand(name, false), true), removeLocalBranch), false)
  }

  /** The removal callback: the remove command's result, without its report. */
  function OnRemove(name: string, removeLocalBranch: bool, env: Remove.RemoveEnv): Outcome
  {
    match Remove.RemoveRun(RemoveAdapterCommand(name, removeLocalBranch), env).0
    case Ok(_) => Pass
    case Err(e) => Fail(e)
  }

  /**
   * The removal is unforced and quiet, forwards the local-branch choice,
   * and never starts a shell, whatever the removal finds.
   */
  lemma RemoveAdapterRules(name: string, removeLocalBranch: bool, env: Remove.RemoveEnv)
    ensures var c := RemoveAdapterCommand(name, removeLocalBranch);
      && c == Remove.RemoveCommand(name, false, true, removeLocalBranch, false)
      && !Remove.Spawns(Remove.RemoveRun(c, env).1)
      && (OnRemove(name, removeLocalBranch, env).Pass? <==> Remove.RemoveRun(c, env).0.Ok?)
  {
    var c := RemoveAdapterCommand(name, removeLocalBranch);
    if Remove.Registered(c, env) {
      Remove.RepositionRule(c, env);
    }
  }

  /** The creation callback: a created worktree passes, an existing one is an error saying so. */
  function OnCreate(name: string, base: Option<string>, env: Create.CreateEnv): Outcome
    requires env.hash < Create.HASH_BOUND
  {
    match Create.CreateInternal(Create.CreateCommand(name, base), env).0
    case Ok(Created) => Pass
    case Ok(AlreadyExists) => Fail("Worktree `" + name + "` already exists.")
    case Err(e) => Fail(e)
  }

  /**
   * Creation passes exactly when a new worktree is added; a name already
   * taken is reported and changes nothing; other failures keep their
   * message.
   */
  lemma CreateAdapterRules(name: string, base: Option<string>, env: Create.CreateEnv)
    requires env.hash < Create.HASH_BOUND
    ensures var (r, effects) := Create.CreateInternal(Create.CreateCommand(name, base), env);
      && (OnCreate(name, base, env).Pass? <==> r == Ok(Create.Created))
      && (r == Ok(Create.AlreadyExists) ==> OnCreate(name, base, env) == Fail("Worktree `" + name + "` already exists.") && effects == [])
      && (r.Err? ==> OnCreate(name, base, env) == Fail(r.error))
  {
  }

  // ----- after the picker -----

  /** The picker's result combined with restoring the terminal: the first error, or both in one message. */
  function Combine(result: Result<Option<Selection>>, cleanup: Outcome): Result<Option<Selection>>
  {
    match (result, cleanup)
    case (Ok(selection), Pass) => Ok(selection)
    case (Err(e), Pass) => Err(e)
    case (Ok(_), Fail(e)) => Err(e)
    case (Err(runErr), Fail(cleanupErr)) =>
      Err("interactive session failed (" + runErr + "); cleanup failed: " + cleanupErr)
  }

  /** Both must succeed; a lone error is passed on as it is; two errors are reported together. */
  lemma CombineRules(result: Result<Option<Selection>>, cleanup: Outcome)
    ensures var r := Combine(result, cleanup);
      && (r.Ok? <==> result.Ok? && cleanup.Pass?)
      && (r.Ok? ==> r.value == result.value)
      && (result.Err? && cleanup.Pass? ==> r.error == result.error)
      && (result.Ok? && cleanup.Fail? ==> r.error == cleanup.error)
      && (result.Err? && cleanup.Fail? ==> Contains(r.error, result.error) && Contains(r.error, cleanup.error))
  {
    if result.Err? && cleanup.Fail? {
      var prefix := "interactive session failed (";
      var middle := "); cleanup failed: ";
      ContainsInfix(prefix, result.error, middle + cleanup.error);
      ContainsInfix(prefix + result.error + middle, cleanup.error, []);
      assert prefix + result.error + (middle + cleanup.error) == prefix + result.error + middle + cleanup.error;
      assert prefix + result.error + middle + cleanup.error + [] == prefix + result.error + middle + cleanup.error;
    }
  }

  /** A command the dispatch runs, with the options it is given. */
  datatype Invocation =
    | EnterRoot
    | EnterWorktree(cd: Cd.CdCommand)
    | OpenPullRequest(options: PG.PrOptions)
    | MergePullRequest(merge: MPG.MergeOptions)
    | RemoveWorktree(command: Remove.RemoveCommand)

  /** The pull request the picker opens: pushed first, not a draft, no `--fill`, not in the browser, to "origin". */
  function InteractivePrOptions(name: string): PG.PrOptions
  {
    PG.PrOptions(name, true, false, false, false, "origin", [], [])
  }

  /**
   * What is run for a selection, given how each invocation ends: the
   * result and the invocations, in order.  A merge is followed by the
   * worktree's removal only when asked and only when the merge succeeded.
   */
  function Dispatch(selection: Option<Selection>, run: Invocation -> Outcome): (Outcome, seq<Invocation>)
  {
    match selection
    case None => (Pass, [])
    case Some(RepoRoot) => (run(EnterRoot), [EnterRoot])
    case Some(Worktree(name)) =>
      var i := EnterWorktree(Cd.CdCommand(name, false));
      (run(i), [i])
    case Some(PrGithub(name)) =>
      var i := OpenPullRequest(InteractivePrOptions(name));
      (run(i), [i])
    case Some(MergePrGithub(name, local, remote, removeWorktree)) =>
      var merge := MergePullRequest(MPG.MergeOptions(name, local, remote));
      if run(merge).Fail? || !removeWorktree then (run(merge), [merge])
      else
        var remove := RemoveWorktree(Remove.NewRemoveCommand(name, false));
        (run(remove), [merge, remove])
  }

  /**
   * The merge selection's flags reach the merge command as chosen, and the
   * worktree is removed (unforced, with the remove command's defaults)
   * exactly when removal was chosen and the merge succeeded; a failed
   * merge's error is the result.
   */
  lemma MergeDispatchRules(name: string, local: bool, remote: bool, removeWorktree: bool, run: Invocation -> Outcome)
    ensures var (o, calls) := Dispatch(Some(MergePrGithub(name, local, remote, removeWorktree)), run);
      var merge := MergePullRequest(MPG.MergeOptions(name, local, remote));
      && calls[0] == merge
      && (|calls| == 2 <==> removeWorktree && run(merge).Pass?)
      && (|calls| == 2 ==> calls[1] == RemoveWorktree(Remove.RemoveCommand(name, false, false, false, true)) && o == run(calls[1]))
      && (|calls| == 1 ==> o == run(merge))
  {
  }

  /**
   * The other selections run one command each: the repository-root shell,
   * `cd` into the worktree (a shell, not `--print`), or a pull request with
   * the picker's fixed options.
   */
  lemma SingleDispatchRules(selection: Selection, run: Invocation -> Outcome)
    requires !selection.MergePrGithub?
    ensures var (o, calls) := Dispatch(Some(selection), run);
      && |calls| == 1 && o == run(calls[0])
      && (selection.RepoRoot? ==> calls[0] == EnterRoot)
      && (selection.Worktree? ==> calls[0] == EnterWorktree(Cd.CdCommand(selection.name, false)))
      && (selection.PrGithub? ==> (
            && calls[0].OpenPullRequest?
            && var p := calls[0].options;
            && p.name == selection.name && p.push && !p.draft && !p.fill && !p.web
            && p.remote == "origin" && p.reviewers == [] && p.extraArgs == []))
  {
  }

  /**
   * The merge command as the dispatch sets it up: created with its
   * defaults, then the local branch kept when not to be deleted and the
   * remote branch deleted when asked.
   */
  method ConfigureMerge(name: string, removeLocalBranch: bool, removeRemoteBranch: bool, runner: Runner.ScriptedRunner)
    returns (command: MPG.MergePrGithubCommand)
    ensures fresh(command)
    ensures command.Options() == MPG.MergeOptions(name, removeLocalBranch, removeRemoteBranch)
    ensures command.runner == runner
  {
    command := new MPG.MergePrGithubCommand(name, runner);
    if !removeLocalBranch {
      command.DisableRemoveLocal();
    }
    if removeRemoteBranch {
      command.EnableRemoveRemote();
    }
  }

  // ----- cd_repo_root -----

  /**
   * `cd_repo_root`: starts the shell in the repository root (its canonical
   * form when that resolves).  `canonical` is None when `canonicalize`
   * fails; `status` is how the shell ended.
   */
  function CdRepoRoot(root: Path, rootExists: bool, canonical: Option<Path>, overrideShell: Option<string>, shell: Option<string>, status: Result<bool>)
    : (Outcome, Cd.CdEffect)
  {
    if !rootExists then (Fail("repository root `" + Display(root) + "` does not exist"), Cd.NoEffect)
    else
      var dir := if canonical.Some? then canonical.value else root;
      var (program, args) := Cd.ShellCommand(overrideShell, shell);
      var effect := Cd.SpawnShell(program, args, dir);
      match status
      case Err(_) => (Fail(Cd.SPAWN_ERROR), effect)
      case Ok(success) => (if success then Pass else Fail(Cd.SHELL_STATUS_ERROR), effect)
  }

  /**
   * A missing root starts nothing; otherwise the chosen shell is started
   * in the canonical root, or the root as given when it does not resolve,
   * and the result is the shell's success.
   */
  lemma CdRepoRootRules(root: Path, rootExists: bool, canonical: Option<Path>, overrideShell: Option<string>, shell: Option<string>, status: Result<bool>)
    ensures var (o, effect) := CdRepoRoot(root, rootExists, canonical, overrideShell, shell, status);
      && (effect.SpawnShell? <==> rootExists)
      && (effect.SpawnShell? ==> (
            && effect.dir == (if canonical.Some? then canonical.value else root)
            && (effect.program, effect.args) == Cd.ShellCommand(overrideShell, shell)))
      && (o.Pass? <==> rootExists && status == Ok(true))
  {
  }

  // ----- run -----

  /** The answers `run` gets from the repository, the terminal, the picker and the commands it runs. */
  datatype RuntimeEnv = RuntimeEnv(
    worktreesDir: Result<Path>,           // `Repo::ensure_worktrees_dir`
    listable: bool,                       // whether the worktrees directory can be listed
    children: seq<List.Entry>,            // and what it holds
    head: Option<string>,
    listing: Result<seq<BranchItem>>,
    terminal: Outcome,                    // raw mode, alternate screen and terminal set-up
    session: Result<Option<Selection>>,   // what the picker's loop returned
    cleanup: Outcome,                     // restoring the terminal
    run: Invocation -> Outcome)

  /** `run`: its result and the commands it hands over to. */
  function RunInteractive(env: RuntimeEnv): (Outcome, seq<Invocation>)
  {
    match env.worktreesDir
    case Err(e) => (Fail(e), [])
    case Ok(dir) =>
      match List.FindWorktrees(dir, env.listable, env.children)
      case Err(e) => (Fail(e), [])
      case Ok(_) =>
        match LoadBranches(env.head, env.listing)
        case Err(e) => (Fail(e), [])
        case Ok(_) =>
          if env.terminal.Fail? then (Fail(env.terminal.error), [])
          else
            match Combine(env.session, env.cleanup)
            case Err(e) => (Fail(e), [])
            case Ok(selection) => Dispatch(selection, env.run)
  }

  /**
   * Nothing is carried out unless the worktrees and branches load, the
   * terminal is set up, and both the picker and the terminal's restoration
   * succeed; then exactly the chosen selection is dispatched.
   */
  lemma RunDispatchesOnlyAfterCleanSession(env: RuntimeEnv)
    ensures var (o, calls) := RunInteractive(env);
      && (calls != [] ==> env.session.Ok? && env.session.value.Some? && env.cleanup.Pass? && env.terminal.Pass?)
      && ((&& env.worktreesDir.Ok? && List.FindWorktrees(env.worktreesDir.value, env.listable, env.children).Ok?
           && LoadBranches(env.head, env.listing).Ok? && env.terminal.Pass? && env.session.Ok? && env.cleanup.Pass?)
          ==> o == Dispatch(env.session.value, env.run).0 && calls == Dispatch(env.session.value, env.run).1)
  {
    CombineRules(env.session, env.cleanup);
  }
}
