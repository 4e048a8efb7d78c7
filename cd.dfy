/**
 * `rsworktree cd <name>`: opens an interactive shell inside a worktree, or
 * with `--print` only prints the worktree's path.  Also the choice of the
 * shell program, shared with `rm`.
 */
module Cd {
  import opened Wrappers
  import opened Text
  import opened Paths
  import PrGithub

  /** The environment variable that overrides the shell. */
  const SHELL_OVERRIDE_ENV := "RSWORKTREE_SHELL"
  const DEFAULT_SHELL := "/bin/sh"

  /** A variable holds a usable value: it is set and not blank after trimming. */
  predicate Usable(v: Option<string>)
  {
    v.Some? && Trim(v.value) != []
  }

  /**
   * `shell_command`: the program and arguments of the shell to start, given
   * the values of RSWORKTREE_SHELL and SHELL (`None` when unset or not
   * valid Unicode).
   */
  function ShellCommand(overrideShell: Option<string>, shell: Option<string>): (r: (string, seq<string>))
    ensures Trim(r.0) != []
  {
    if Usable(overrideShell) then (overrideShell.value, [])
    else if Usable(shell) then (shell.value, ["-i"])
    else
      assert DEFAULT_SHELL[0] == '/';
      TrimEmptyIffBlank(DEFAULT_SHELL);
      (DEFAULT_SHELL, ["-i"])
  }

  /**
   * The override wins whenever it is not blank and is started without
   * arguments; otherwise a non-blank SHELL is started with "-i"; otherwise
   * "/bin/sh -i".  Whitespace-only values count as unset.
   */
  lemma ShellPrecedence(overrideShell: Option<string>, shell: Option<string>)
    ensures var r := ShellCommand(overrideShell, shell);
      && (overrideShell.Some? && !IsBlank(overrideShell.value) <==> r.1 == [])
      && (overrideShell.Some? && !IsBlank(overrideShell.value) ==> r.0 == overrideShell.value)
      && ((overrideShell.None? || IsBlank(overrideShell.value)) && shell.Some? && !IsBlank(shell.value) ==> r == (shell.value, ["-i"]))
      && ((overrideShell.None? || IsBlank(overrideShell.value)) && (shell.None? || IsBlank(shell.value)) ==> r == (DEFAULT_SHELL, ["-i"]))
  {
    if overrideShell.Some? {
      TrimEmptyIffBlank(overrideShell.value);
    }
    if shell.Some? {
      TrimEmptyIffBlank(shell.value);
    }
  }

  /** `CdCommand`: the worktree's name and whether only its path is printed. */
  datatype CdCommand = CdCommand(name: string, printOnly: bool)

  /** What the command does besides returning: nothing, print a path, or start a shell. */
  datatype CdEffect = NoEffect | PrintPath(text: string) | SpawnShell(program: string, args: seq<string>, dir: Path)

  /** The environment `execute` consults; each field is the result of one operating-system call. */
  datatype CdEnv = CdEnv(
    worktreesDir: Result<Path>,    // `Repo::ensure_worktrees_dir`
    present: bool,                 // whether the worktree's path exists
    canonical: Result<Path>,       // `canonicalize` of the worktree's path
    overrideShell: Option<string>, // RSWORKTREE_SHELL
    shell: Option<string>,         // SHELL
    status: Result<bool>)          // how the shell ended: not started, or whether it succeeded

  const SPAWN_ERROR := "failed to spawn subshell"
  const SHELL_STATUS_ERROR := "subshell exited with a non-zero status"

  /** `CdCommand::execute`: the result and the one effect it has. */
  function CdRun(c: CdCommand, env: CdEnv): (Outcome, CdEffect)
  {
    match PrGithub.WorktreePath(c.name, env.worktreesDir, env.present)
    case Err(e) => (Fail(e), NoEffect)
    case Ok(path) =>
      match env.canonical
      case Err(_) => (Fail("failed to resolve `" + Display(path) + "`"), NoEffect)
      case Ok(canonical) =>
        if c.printOnly then (Pass, PrintPath(Display(canonical)))
        else
          var (program, args) := ShellCommand(env.overrideShell, env.shell);
          var effect := SpawnShell(program, args, canonical);
          match env.status
          case Err(_) => (Fail(SPAWN_ERROR), effect)
          case Ok(success) => (if success then Pass else Fail(SHELL_STATUS_ERROR), effect)
  }

  /** A worktree that does not exist is an error saying so, and nothing is printed or started. */
  lemma MissingWorktree(c: CdCommand, env: CdEnv)
    requires env.worktreesDir.Ok? && !env.present
    ensures var (o, effect) := CdRun(c, env);
      o.Fail? && Contains(o.error, "does not exist") && effect == NoEffect
  {
  }

  /** With `--print` the canonical path is printed and no shell is ever started. */
  lemma PrintOnlyNeverSpawns(c: CdCommand, env: CdEnv)
    requires c.printOnly
    ensures var (o, effect) := CdRun(c, env);
      && !effect.SpawnShell?
      && (o.Pass? <==> env.worktreesDir.Ok? && env.present && env.canonical.Ok?)
      && (o.Pass? ==> effect == PrintPath(Display(env.canonical.value)))
  {
  }

  /**
   * Without `--print` a found worktree starts the chosen shell in its
   * canonical directory, and the command passes exactly when the shell
   * exits successfully.
   */
  lemma ShellInWorktree(c: CdCommand, env: CdEnv)
    requires !c.printOnly && env.worktreesDir.Ok? && env.present && env.canonical.Ok?
    ensures var (o, effect) := CdRun(c, env);
      var (program, args) := ShellCommand(env.overrideShell, env.shell);
      && effect == SpawnShell(program, args, env.canonical.value)
      && (o.Pass? <==> env.status == Ok(true))
  {
  }
}
