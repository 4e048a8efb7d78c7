/**
 * Starting the chosen editor on a worktree and classifying what happened.
 * The operating system's answer to starting the program is an input.
 */
module Launch {
  import opened Wrappers
  import opened Paths
  import opened Preference

  /** `EditorLaunchStatus`. */
  datatype LaunchStatus = Success | EditorMissing | InvalidWorktreePath | SpawnError | PreferenceMissing | ConfigurationError

  /** `LaunchOutcome`: the status and the message shown for it. */
  datatype LaunchOutcome = LaunchOutcome(status: LaunchStatus, message: string)

  /** `LaunchRequest`: `wait` says whether to wait for the editor to exit (interactive mode) or start it in the background. */
  datatype LaunchRequest = LaunchRequest(preference: EditorPreference, worktreeName: string, worktreePath: Path, wait: bool)

  /**
   * What starting the program gave: it ran (when waited for, whether it
   * exited successfully and the exit status as text), it was not found,
   * or another error.  In the background only whether it started counts.
   */
  datatype SpawnResult = Ran(exitSuccess: bool, exitStatus: string) | NotFound | SpawnFailed(error: string)

  /** The program started: its name, its arguments, and whether it is waited for. */
  datatype SpawnCall = SpawnCall(program: string, args: seq<string>, wait: bool)

  /** The arguments: the preference's own, then the worktree's path. */
  function Argv(p: EditorPreference, path: Path): seq<string>
  {
    p.args + [Display(path)]
  }

  /** `launch_editor`: the outcome and the program started, if any. */
  function LaunchEditor(req: LaunchRequest, pathExists: bool, spawn: SpawnResult): (LaunchOutcome, Option<SpawnCall>)
  {
    var command := req.preference.command;
    if !pathExists then
      (LaunchOutcome(InvalidWorktreePath,
        "Worktree `" + req.worktreeName + "` no longer exists at `" + Display(req.worktreePath)
        + "`. Run `rsworktree worktree ls` or restart interactive mode to refresh the list."), None)
    else
      var call := Some(SpawnCall(command, Argv(req.preference, req.worktreePath), req.wait));
      var launched := LaunchOutcome(Success, "Launched `" + req.worktreeName + "` using `" + command + "`");
      var outcome :=
        match spawn
        case Ran(exitSuccess, exitStatus) =>
          if !req.wait || exitSuccess then launched
          else LaunchOutcome(SpawnError, "Editor `" + command + "` exited with status: " + exitStatus)
        case NotFound =>
          LaunchOutcome(EditorMissing, "Editor command `" + command
            + "` was not found on PATH. Install the editor or update the configured command.")
        case SpawnFailed(e) =>
          LaunchOutcome(SpawnError, "Failed to launch `" + req.worktreeName + "` via `" + command + "`: " + e);
      (outcome, call)
  }

  /** A worktree path that no longer exists is reported and nothing is started. */
  lemma MissingPathNeverSpawns(req: LaunchRequest, spawn: SpawnResult)
    ensures var (outcome, call) := LaunchEditor(req, false, spawn);
      outcome.status == InvalidWorktreePath && call.None?
  {
  }

  /**
   * For an existing path the preference's program is started with its
   * arguments and then the path; the launch succeeds exactly when the
   * program started and, when waited for, exited successfully; a program
   * not found is `EditorMissing` in both modes, and anything else a
   * `SpawnError`.
   */
  lemma LaunchClassification(req: LaunchRequest, spawn: SpawnResult)
    ensures var (outcome, call) := LaunchEditor(req, true, spawn);
      && call == Some(SpawnCall(req.preference.command, req.preference.args + [Display(req.worktreePath)], req.wait))
      && (outcome.status == Success <==> spawn.Ran? && (!req.wait || spawn.exitSuccess))
      && (outcome.status == EditorMissing <==> spawn.NotFound?)
      && (outcome.status == SpawnError <==> spawn.SpawnFailed? || (spawn.Ran? && req.wait && !spawn.exitSuccess))
  {
  }

  /** Whatever is started is waited for exactly when the request asks for it. */
  lemma SpawnWaitsAsAsked(req: LaunchRequest, pathExists: bool, spawn: SpawnResult)
    ensures var call := LaunchEditor(req, pathExists, spawn).1;
      call.Some? ==> call.value.wait == req.wait
  {
  }
}
