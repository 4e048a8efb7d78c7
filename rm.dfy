/**
 * `rsworktree rm <name>`: removes a worktree (git's metadata and its
 * directory), optionally deletes the local branch of the same name, and
 * moves back to the repository root when the current directory was inside
 * the removed worktree.  Git, the file system and the shell are an
 * environment of recorded answers; every change the command makes is
 * appended to an effect log.
 */
module Remove {
  import opened Wrappers
  import opened Text
  import opened Paths
  import Cd

  /** `RemoveCommand` and its builder. */
  datatype RemoveCommand = RemoveCommand(name: string, force: bool, quiet: bool, removeLocalBranch: bool, spawnShell: bool)

  /** `RemoveCommand::new`: quiet off, the local branch kept, a root shell spawned. */
  function NewRemoveCommand(name: string, force: bool): (c: RemoveCommand)
    ensures c.name == name && c.force == force
    ensures !c.quiet && !c.removeLocalBranch && c.spawnShell
  {
    RemoveCommand(name, force, false, false, true)
  }

  function WithQuiet(c: RemoveCommand, quiet: bool): RemoveCommand
  {
    c.(quiet := quiet)
  }

  function WithRemoveLocalBranch(c: RemoveCommand, remove: bool): RemoveCommand
  {
    c.(removeLocalBranch := remove)
  }

  function WithSpawnShell(c: RemoveCommand, spawn: bool): RemoveCommand
  {
    c.(spawnShell := spawn)
  }

  /** Each `with_*` sets its own flag and leaves the rest alone, so the builders commute. */
  lemma BuildersIndependent(c: RemoveCommand, q: bool, l: bool, s: bool)
    ensures var d := WithSpawnShell(WithRemoveLocalBranch(WithQuiet(c, q), l), s);
      && d == WithQuiet(WithSpawnShell(WithRemoveLocalBranch(c, l), s), q)
      && d.quiet == q && d.removeLocalBranch == l && d.spawnShell == s
      && d.name == c.name && d.force == c.force
  {
  }

  datatype LocalBranchStatus = Deleted | NotFound

  datatype RemoveOutcome = RemoveOutcome(localBranch: Option<LocalBranchStatus>, repositioned: bool)

  /** What git answers when asked for a worktree by name. */
  datatype WorktreeLookup = WorktreeAt(path: Path) | WorktreeMissing | WorktreeLookupFailed(reason: string)

  /** What git answers when asked for the local branch: found (with the result of deleting it), not found, or another error. */
  datatype BranchLookup = BranchFound(delete: Outcome) | BranchMissing | BranchLookupFailed(reason: string)

  /** The same for the reference `refs/heads/<name>`. */
  datatype RefLookup = RefFound(delete: Outcome) | RefMissing | RefLookupFailed(reason: string)

  /** A change the command attempts, in the order it attempts them. */
  datatype RemoveEffect =
    | Prune(worktree: string, locked: bool)
    | RemoveDir(path: Path)
    | DeleteBranch(branch: string)
    | DeleteReference(reference: string)
    | ChangeDir(path: Path)
    | SpawnShell(program: string, args: seq<string>, dir: Path)

  /** The answers of git, the file system and the shell to the questions `execute` asks. */
  datatype RemoveEnv = RemoveEnv(
    root: Path,
    worktreesDir: Path,             // `Repo::worktrees_dir`
    dirExists: bool,                // whether the worktrees directory exists
    canonical: Path -> Path,        // `canonicalize`, or the path itself when that fails
    pathExists: bool,               // whether the worktree's path exists
    names: Result<seq<Option<string>>>, // `Repository::worktrees` (None for a name that is not Unicode)
    lookup: string -> WorktreeLookup,   // `Repository::find_worktree` while searching
    reload: Outcome,                // `find_worktree` for the name found
    prune: Outcome,
    existsAfterPrune: bool,
    removeDir: Outcome,
    currentDir: Option<Path>,       // `env::current_dir`, None when it cannot be read
    branch: BranchLookup,
    reference: RefLookup,
    setDir: Outcome,                // `env::set_current_dir` to the root
    overrideShell: Option<string>,
    shell: Option<string>,
    shellStatus: Result<bool>)      // the root shell: not started, or whether it succeeded

  // ----- find_worktree_name -----

  const LIST_WORKTREES_ERROR := "failed to list repository worktrees"

  /** The search of `find_worktree_name` over the remaining names. */
  function FindIn(names: seq<Option<string>>, lookup: string -> WorktreeLookup, canonical: Path -> Path, target: Path): Result<Option<string>>
  {
    if names == [] then Ok(None)
    else match names[0]
      case None => FindIn(names[1..], lookup, canonical, target)
      case Some(n) =>
        match lookup(n)
        case WorktreeMissing => FindIn(names[1..], lookup, canonical, target)
        case WorktreeLookupFailed(e) => Err("failed to open git worktree `" + n + "`: " + e)
        case WorktreeAt(p) => if canonical(p) == target then Ok(Some(n)) else FindIn(names[1..], lookup, canonical, target)
  }

  /** `find_worktree_name`: the registered worktree whose canonical path is `target`. */
  function FindName(names: Result<seq<Option<string>>>, lookup: string -> WorktreeLookup, canonical: Path -> Path, target: Path): Result<Option<string>>
  {
    if names.Err? then Err(LIST_WORKTREES_ERROR) else FindIn(names.value, lookup, canonical, target)
  }

  /** A name `i` that git knows and whose canonical path is `target`. */
  predicate NamesTarget(names: seq<Option<string>>, i: int, lookup: string -> WorktreeLookup, canonical: Path -> Path, target: Path)
    requires 0 <= i < |names|
  {
    names[i].Some? && lookup(names[i].value).WorktreeAt? && canonical(lookup(names[i].value).path) == target
  }

  /** A name `i` whose lookup failed with an error other than "not found". */
  predicate LookupFails(names: seq<Option<string>>, i: int, lookup: string -> WorktreeLookup)
    requires 0 <= i < |names|
  {
    names[i].Some? && lookup(names[i].value).WorktreeLookupFailed?
  }

  /**
   * The search answers with the first name that either points at the
   * target or cannot be opened: that name when it matches, an error when
   * it failed, and no name when there is neither.
   */
  lemma {:induction false} FindInFirst(names: seq<Option<string>>, lookup: string -> WorktreeLookup, canonical: Path -> Path, target: Path)
    ensures var r := FindIn(names, lookup, canonical, target);
      && (r == Ok(None) <==> forall i :: 0 <= i < |names| ==> !NamesTarget(names, i, lookup, canonical, target) && !LookupFails(names, i, lookup))
      && (r.Ok? && r.value.Some? ==>
            exists i :: (0 <= i < |names| && names[i] == r.value && NamesTarget(names, i, lookup, canonical, target)
              && forall j :: 0 <= j < i ==> !LookupFails(names, j, lookup)))
      && (r.Err? ==>
            exists i :: (0 <= i < |names| && LookupFails(names, i, lookup)
              && forall j :: 0 <= j < i ==> !NamesTarget(names, j, lookup, canonical, target)))
    decreases |names|
  {
    if names != [] {
      var rest := names[1..];
      FindInFirst(rest, lookup, canonical, target);
      var r := FindIn(names, lookup, canonical, target);
      var r' := FindIn(rest, lookup, canonical, target);
      assert forall i :: 1 <= i < |names| ==> names[i] == rest[i - 1];
      assert forall i :: 1 <= i < |names| ==> (NamesTarget(names, i, lookup, canonical, target) <==> NamesTarget(rest, i - 1, lookup, canonical, target));
      assert forall i :: 1 <= i < |names| ==> (LookupFails(names, i, lookup) <==> LookupFails(rest, i - 1, lookup));
      if NamesTarget(names, 0, lookup, canonical, target) {
        assert r == Ok(names[0]);
      } else if LookupFails(names, 0, lookup) {
        assert r.Err?;
      } else {
        assert r == r';
        if r.Ok? && r.value.Some? {
          var i :| 0 <= i < |rest| && rest[i] == r.value && NamesTarget(rest, i, lookup, canonical, target)
            && forall j :: 0 <= j < i ==> !LookupFails(rest, j, lookup);
          assert names[i + 1] == r.value && NamesTarget(names, i + 1, lookup, canonical, target);
        }
        if r.Err? {
          var i :| 0 <= i < |rest| && LookupFails(rest, i, lookup)
            && forall j :: 0 <= j < i ==> !NamesTarget(rest, j, lookup, canonical, target);
          assert LookupFails(names, i + 1, lookup);
        }
      }
    }
  }

  /** `find_worktree_name`, walking the names in order with early returns. */
  method FindWorktreeName(names: Result<seq<Option<string>>>, lookup: string -> WorktreeLookup, canonical: Path -> Path, target: Path)
    returns (r: Result<Option<string>>)
    ensures r == FindName(names, lookup, canonical, target)
  {
    if names.Err? {
      return Err(LIST_WORKTREES_ERROR);
    }
    var ns := names.value;
    var i := 0;
    while i < |ns|
      invariant 0 <= i <= |ns|
      invariant FindIn(ns, lookup, canonical, target) == FindIn(ns[i..], lookup, canonical, target)
    {
      assert ns[i..][1..] == ns[i + 1..];
      if ns[i].Some? {
        var n := ns[i].value;
        match lookup(n)
        case WorktreeMissing =>
        case WorktreeLookupFailed(e) =>
          return Err("failed to open git worktree `" + n + "`: " + e);
        case WorktreeAt(p) =>
          if canonical(p) == target {
            return Ok(Some(n));
          }
      }
      i := i + 1;
    }
    r := Ok(None);
  }

  // ----- force_delete_reference and delete_local_branch -----

  /** `force_delete_reference`: the result and the deletion it attempts. */
  function ForceDeleteReference(name: string, reference: RefLookup): (Outcome, seq<RemoveEffect>)
  {
    match reference
    case RefFound(d) =>
      var effects := [DeleteReference("refs/heads/" + name)];
      if d.Pass? then (Pass, effects) else (Fail("failed to delete local branch reference `" + name + "`"), effects)
    case RefMissing => (Pass, [])
    case RefLookupFailed(e) => (Fail("failed to look up branch `" + name + "`: " + e), [])
  }

  /** A reference that is already gone counts as deleted; only a failed lookup or a failed deletion is an error. */
  lemma ForceDeleteReferenceOutcome(name: string, reference: RefLookup)
    ensures var (o, effects) := ForceDeleteReference(name, reference);
      && (o.Pass? <==> reference.RefMissing? || (reference.RefFound? && reference.delete.Pass?))
      && (effects != [] <==> reference.RefFound?)
      && (reference.RefFound? ==> effects == [DeleteReference("refs/heads/" + name)])
  {
  }

  /**
   * `delete_local_branch`: a found branch is deleted (with `--force`
   * directly through its reference, otherwise through git and through the
   * reference when that fails); a missing one is reported as not found.
   */
  function DeleteLocalBranch(c: RemoveCommand, branch: BranchLookup, reference: RefLookup): (Result<LocalBranchStatus>, seq<RemoveEffect>)
  {
    match branch
    case BranchFound(d) =>
      if c.force then
        var (o, effects) := ForceDeleteReference(c.name, reference);
        (if o.Pass? then Ok(Deleted) else Err(o.error), effects)
      else if d.Pass? then (Ok(Deleted), [DeleteBranch(c.name)])
      else
        var (o, effects) := ForceDeleteReference(c.name, reference);
        var r := if o.Pass? then Ok(Deleted) else Err("failed to delete local branch `" + c.name + "` (" + d.error + ").");
        (r, [DeleteBranch(c.name)] + effects)
    case BranchMissing => (Ok(NotFound), [])
    case BranchLookupFailed(e) => (Err("failed to look up local branch `" + c.name + "`: " + e), [])
  }

  /**
   * The branch outcome: `Deleted` only for a branch that was found (and
   * then whenever git or the reference fallback deleted it), `NotFound`
   * exactly when git reports it missing, an error otherwise; nothing is
   * deleted for a missing branch.
   */
  lemma DeleteLocalBranchOutcome(c: RemoveCommand, branch: BranchLookup, reference: RefLookup)
    ensures var (r, effects) := DeleteLocalBranch(c, branch, reference);
      && (r == Ok(NotFound) <==> branch.BranchMissing?)
      && (r == Ok(Deleted) ==> branch.BranchFound?)
      && (branch.BranchFound? && ((!c.force && branch.delete.Pass?) || ForceDeleteReference(c.name, reference).0.Pass?) ==> r == Ok(Deleted))
      && (branch.BranchLookupFailed? ==> r.Err? && effects == [])
      && (branch.BranchMissing? ==> effects == [])
      && (c.force ==> DeleteBranch(c.name) !in effects)
  {
  }

  // ----- execute -----

  /** Where the command leaves things when there is no worktree to remove. */
  function NothingRemoved(c: RemoveCommand): RemoveOutcome
  {
    RemoveOutcome(if c.removeLocalBranch then Some(NotFound) else None, false)
  }

  /** Whether to move back to the root: the current directory is inside the worktree, or cannot be read. */
  predicate NeedReposition(currentDir: Option<Path>, canonical: Path -> Path, path: Path)
  {
    currentDir.None? || Paths.StartsWith(canonical(currentDir.value), path)
  }

  const SPAWN_ROOT_SHELL_ERROR := "failed to spawn root shell"

  /** Moving back to the root and, when asked, starting a shell there. */
  function Reposition(c: RemoveCommand, env: RemoveEnv): (Outcome, seq<RemoveEffect>)
  {
    if env.setDir.Fail? then (Fail("failed to change directory to repository root `" + Display(env.root) + "`"), [ChangeDir(env.root)])
    else if !c.spawnShell then (Pass, [ChangeDir(env.root)])
    else
      var (program, args) := Cd.ShellCommand(env.overrideShell, env.shell);
      var effects := [ChangeDir(env.root), SpawnShell(program, args, env.root)];
      match env.shellStatus
      case Err(_) => (Fail(SPAWN_ROOT_SHELL_ERROR), effects)
      case Ok(success) => (if success then Pass else Fail(Cd.SHELL_STATUS_ERROR), effects)
  }

  /** What follows the removal: the local branch, then the move back to the root. */
  function AfterRemoval(c: RemoveCommand, env: RemoveEnv, path: Path): (Result<RemoveOutcome>, seq<RemoveEffect>)
  {
    var need := NeedReposition(env.currentDir, env.canonical, path);
    var (branch, branchEffects) :=
      if c.removeLocalBranch then
        var (r, effects) := DeleteLocalBranch(c, env.branch, env.reference);
        (if r.Ok? then Ok(Some(r.value)) else Err(r.error), effects)
      else (Ok(None), []);
    if branch.Err? then (Err(branch.error), branchEffects)
    else if !need then (Ok(RemoveOutcome(branch.value, false)), branchEffects)
    else
      var (o, effects) := Reposition(c, env);
      (if o.Pass? then Ok(RemoveOutcome(branch.value, true)) else Err(o.error), branchEffects + effects)
  }

  /** Pruning the worktree `worktree` from git and cleaning its directory at `path`. */
  function PruneAndClean(c: RemoveCommand, env: RemoveEnv, path: Path, worktree: string): (Outcome, seq<RemoveEffect>)
  {
    if env.reload.Fail? then (Fail("failed to load git worktree metadata for `" + c.name + "`"), [])
    else if env.prune.Fail? then (Fail("failed to remove worktree"), [Prune(worktree, c.force)])
    else if !env.existsAfterPrune then (Pass, [Prune(worktree, c.force)])
    else if env.removeDir.Fail? then
      (Fail("failed to clean worktree directory `" + Display(path) + "`"), [Prune(worktree, c.force), RemoveDir(path)])
    else (Pass, [Prune(worktree, c.force), RemoveDir(path)])
  }

  /** Removing the worktree `worktree` registered at `path`: prune, clean the directory, then `AfterRemoval`. */
  function RemoveFound(c: RemoveCommand, env: RemoveEnv, path: Path, worktree: string): (Result<RemoveOutcome>, seq<RemoveEffect>)
  {
    var (o, cleaned) := PruneAndClean(c, env, path, worktree);
    if o.Fail? then (Err(o.error), cleaned)
    else
      var (r, effects) := AfterRemoval(c, env, path);
      (r, cleaned + effects)
  }

  /** The worktree's path: its place under the worktrees directory, canonicalised when possible. */
  function WorktreePath(c: RemoveCommand, env: RemoveEnv): Path
  {
    env.canonical(JoinStr(env.worktreesDir, c.name))
  }

  /** `RemoveCommand::execute`: the result and the changes it makes, in order. */
  function RemoveRun(c: RemoveCommand, env: RemoveEnv): (Result<RemoveOutcome>, seq<RemoveEffect>)
  {
    if !env.dirExists || !env.pathExists then (Ok(NothingRemoved(c)), [])
    else
      var path := WorktreePath(c, env);
      match FindName(env.names, env.lookup, env.canonical, env.canonical(path))
      case Err(e) => (Err(e), [])
      case Ok(None) => (Ok(NothingRemoved(c)), [])
      case Ok(Some(worktree)) => RemoveFound(c, env, path, worktree)
  }

  /** Whether the search finds the worktree registered with git. */
  predicate Registered(c: RemoveCommand, env: RemoveEnv)
  {
    env.dirExists && env.pathExists && FindName(env.names, env.lookup, env.canonical, env.canonical(WorktreePath(c, env))).Ok?
      && FindName(env.names, env.lookup, env.canonical, env.canonical(WorktreePath(c, env))).value.Some?
  }

  /**
   * A missing worktrees directory, a missing path or a worktree git does not
   * know is not an error: nothing changes, nothing is repositioned, and the
   * branch is reported not found exactly when its removal was asked for.
   */
  lemma NothingToRemove(c: RemoveCommand, env: RemoveEnv)
    requires !env.dirExists || !env.pathExists
      || FindName(env.names, env.lookup, env.canonical, env.canonical(WorktreePath(c, env))) == Ok(None)
    ensures var (r, effects) := RemoveRun(c, env);
      && r.Ok? && !r.value.repositioned && effects == []
      && (r.value.localBranch == Some(NotFound) <==> c.removeLocalBranch)
      && (r.value.localBranch.None? <==> !c.removeLocalBranch)
  {
  }

  /** A branch status is reported exactly when the branch's removal was asked for, whatever else happened. */
  lemma LocalBranchReportedIffRequested(c: RemoveCommand, env: RemoveEnv)
    ensures var r := RemoveRun(c, env).0;
      r.Ok? ==> (r.value.localBranch.Some? <==> c.removeLocalBranch)
  {
  }

  /** Some change in `effects` starts a shell. */
  predicate Spawns(effects: seq<RemoveEffect>)
  {
    exists i :: 0 <= i < |effects| && effects[i].SpawnShell?
  }

  lemma SpawnsAppend(a: seq<RemoveEffect>, b: seq<RemoveEffect>)
    ensures Spawns(a + b) <==> Spawns(a) || Spawns(b)
  {
    if Spawns(a + b) {
      var i :| 0 <= i < |a + b| && (a + b)[i].SpawnShell?;
      if i >= |a| {
        assert b[i - |a|].SpawnShell?;
      }
    }
    if Spawns(a) {
      var i :| 0 <= i < |a| && a[i].SpawnShell?;
      assert (a + b)[i].SpawnShell?;
    }
    if Spawns(b) {
      var i :| 0 <= i < |b| && b[i].SpawnShell?;
      assert (a + b)[|a| + i].SpawnShell?;
    }
  }

  /** Deleting the local branch never starts a shell. */
  lemma DeleteLocalBranchNoShell(c: RemoveCommand, branch: BranchLookup, reference: RefLookup)
    ensures !Spawns(DeleteLocalBranch(c, branch, reference).1)
  {
  }

  /** The part of `RepositionRule` about what follows the removal. */
  lemma AfterRemovalRule(c: RemoveCommand, env: RemoveEnv, path: Path)
    ensures var (r, effects) := AfterRemoval(c, env, path);
      var need := NeedReposition(env.currentDir, env.canonical, path);
      && (r.Ok? ==> r.value.repositioned == need)
      && (Spawns(effects) ==> need && c.spawnShell)
      && (r.Ok? && need && c.spawnShell ==> env.shellStatus == Ok(true))
  {
    var branchEffects := if c.removeLocalBranch then DeleteLocalBranch(c, env.branch, env.reference).1 else [];
    DeleteLocalBranchNoShell(c, env.branch, env.reference);
    assert !Spawns(branchEffects);
    SpawnsAppend(branchEffects, Reposition(c, env).1);
    assert !Spawns([ChangeDir(env.root)]);
  }

  /**
   * After an actual removal the command repositions exactly when the
   * current directory was inside the removed worktree or could not be
   * read, and a shell is started only when it repositions and shells are
   * enabled; the command then succeeds only if that shell does.
   */
  lemma RepositionRule(c: RemoveCommand, env: RemoveEnv)
    requires Registered(c, env)
    ensures var (r, effects) := RemoveRun(c, env);
      var need := NeedReposition(env.currentDir, env.canonical, WorktreePath(c, env));
      && (r.Ok? ==> r.value.repositioned == need)
      && (Spawns(effects) ==> need && c.spawnShell)
      && (r.Ok? && need && c.spawnShell ==> env.shellStatus == Ok(true))
  {
    var path := WorktreePath(c, env);
    var worktree := FindName(env.names, env.lookup, env.canonical, env.canonical(path)).value.value;
    assert RemoveRun(c, env) == RemoveFound(c, env, path, worktree);
    var cleaned := PruneAndClean(c, env, path, worktree).1;
    assert !Spawns(cleaned);
    AfterRemovalRule(c, env, path);
    SpawnsAppend(cleaned, AfterRemoval(c, env, path).1);
  }

  /** Pruning includes locked worktrees exactly when the command is forced. */
  lemma PruneLockedIffForced(c: RemoveCommand, env: RemoveEnv)
    requires Registered(c, env) && env.reload.Pass?
    ensures var effects := RemoveRun(c, env).1;
      effects != [] && effects[0] == Prune(FindName(env.names, env.lookup, env.canonical, env.canonical(WorktreePath(c, env))).value.value, c.force)
  {
  }

  /** The system the command runs against: the answers it gets and the changes it has made. */
  class RemoveHost {
    const env: RemoveEnv
    var effects: seq<RemoveEffect>

    constructor (env: RemoveEnv)
      ensures this.env == env && effects == []
    {
      this.env := env;
      effects := [];
    }

    /** Records a change. */
    method Apply(e: RemoveEffect)
      modifies this
      ensures effects == old(effects) + [e]
    {
      effects := effects + [e];
    }

    /** `force_delete_reference` against this system. */
    method ForceDeleteRef(name: string) returns (o: Outcome)
      modifies this
      ensures var (p, e) := ForceDeleteReference(name, env.reference);
        o == p && effects == old(effects) + e
    {
      match env.reference
      case RefFound(d) =>
        Apply(DeleteReference("refs/heads/" + name));
        if d.Pass? {
          o := Pass;
        } else {
          o := Fail("failed to delete local branch reference `" + name + "`");
        }
      case RefMissing =>
        o := Pass;
      case RefLookupFailed(e) =>
        o := Fail("failed to look up branch `" + name + "`: " + e);
    }

    /** `delete_local_branch` against this system. */
    method DeleteLocal(c: RemoveCommand) returns (r: Result<LocalBranchStatus>)
      modifies this
      ensures var (s, e) := DeleteLocalBranch(c, env.branch, env.reference);
        r == s && effects == old(effects) + e
    {
      match env.branch
      case BranchFound(d) =>
        if c.force {
          var o := ForceDeleteRef(c.name);
          if o.Fail? {
            return Err(o.error);
          }
        } else {
          Apply(DeleteBranch(c.name));
          if d.Fail? {
            var o := ForceDeleteRef(c.name);
            if o.Fail? {
              return Err("failed to delete local branch `" + c.name + "` (" + d.error + ").");
            }
          }
        }
        r := Ok(Deleted);
      case BranchMissing =>
        r := Ok(NotFound);
      case BranchLookupFailed(e) =>
        r := Err("failed to look up local branch `" + c.name + "`: " + e);
    }

    /** The move back to the root and the optional shell. */
    method MoveToRoot(c: RemoveCommand) returns (o: Outcome)
      modifies this
      ensures var (p, e) := Reposition(c, env);
        o == p && effects == old(effects) + e
    {
      Apply(ChangeDir(env.root));
      if env.setDir.Fail? {
        return Fail("failed to change directory to repository root `" + Display(env.root) + "`");
      }
      o := Pass;
      if c.spawnShell {
        var (program, args) := Cd.ShellCommand(env.overrideShell, env.shell);
        Apply(SpawnShell(program, args, env.root));
        if env.shellStatus.Err? {
          return Fail(SPAWN_ROOT_SHELL_ERROR);
        }
        if !env.shellStatus.value {
          return Fail(Cd.SHELL_STATUS_ERROR);
        }
      }
    }

    /** Everything after the worktree is gone. */
    method FinishRemoval(c: RemoveCommand, path: Path) returns (r: Result<RemoveOutcome>)
      modifies this
      ensures var (s, e) := AfterRemoval(c, env, path);
        r == s && effects == old(effects) + e
    {
      var need := NeedReposition(env.currentDir, env.canonical, path);
      var branch: Option<LocalBranchStatus> := None;
      if c.removeLocalBranch {
        var b := DeleteLocal(c);
        if b.Err? {
          return Err(b.error);
        }
        branch := Some(b.value);
      }
      if need {
        var o := MoveToRoot(c);
        if o.Fail? {
          return Err(o.error);
        }
      }
      r := Ok(RemoveOutcome(branch, need));
    }

    /** `RemoveCommand::execute` against this system. */
    method Execute(c: RemoveCommand) returns (r: Result<RemoveOutcome>)
      modifies this
      ensures var (s, e) := RemoveRun(c, env);
        r == s && effects == old(effects) + e
    {
      if !env.dirExists || !env.pathExists {
        return Ok(NothingRemoved(c));
      }
      var path := env.canonical(JoinStr(env.worktreesDir, c.name));
      var found := FindWorktreeName(env.names, env.lookup, env.canonical, env.canonical(path));
      if found.Err? {
        return Err(found.error);
      }
      if found.value.None? {
        return Ok(NothingRemoved(c));
      }
      r := RemoveRegistered(c, path, found.value.value);
    }

    /** Pruning and cleaning against this system. */
    method PruneWorktree(c: RemoveCommand, path: Path, worktree: string) returns (o: Outcome)
      modifies this
      ensures var (p, e) := PruneAndClean(c, env, path, worktree);
        o == p && effects == old(effects) + e
    {
      if env.reload.Fail? {
        return Fail("failed to load git worktree metadata for `" + c.name + "`");
      }
      Apply(Prune(worktree, c.force));
      if env.prune.Fail? {
        return Fail("failed to remove worktree");
      }
      if env.existsAfterPrune {
        Apply(RemoveDir(path));
        if env.removeDir.Fail? {
          return Fail("failed to clean worktree directory `" + Display(path) + "`");
        }
      }
      o := Pass;
    }

    /** `execute` once git has named the worktree at `path`: prune, clean, then `FinishRemoval`. */
    method RemoveRegistered(c: RemoveCommand, path: Path, worktree: string) returns (r: Result<RemoveOutcome>)
      modifies this
      ensures var (s, e) := RemoveFound(c, env, path, worktree);
        r == s && effects == old(effects) + e
    {
      var o := PruneWorktree(c, path, worktree);
      if o.Fail? {
        return Err(o.error);
      }
      ghost var before := effects;
      r := FinishRemoval(c, path);
      assert effects == before + AfterRemoval(c, env, path).1;
    }
  }
}
