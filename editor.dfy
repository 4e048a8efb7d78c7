/**
 * `launch_worktree`: resolve the editor preference, then either start the
 * editor or explain why there is none; every attempt is logged once.
 */
module Editors {
  import opened Wrappers
  import opened Text
  import opened Paths
  import opened EditorSupport
  import opened Preference
  import opened Launch

  /** One line of the launch log: the worktree, its path, the final status and message. */
  datatype LogEntry = LogEntry(worktree: string, path: Path, status: LaunchStatus, message: string)

  /** "Label (`command`)" for one supported editor. */
  function Described(entry: (string, string)): string
  {
    entry.1 + " (`" + entry.0 + "`)"
  }

  function DescribedAll(entries: seq<(string, string)>): (r: seq<string>)
    ensures |r| == |entries|
    ensures forall i :: 0 <= i < |entries| ==> r[i] == Described(entries[i])
  {
    if entries == [] then [] else [Described(entries[0])] + DescribedAll(entries[1..])
  }

  /** The supported editors, described and joined by ", ". */
  function SupportedList(): string
  {
    Join(DescribedAll(SupportedEditorCommands()), ", ")
  }

  /** `missing_preference_outcome`. */
  function MissingPreferenceOutcome(reason: MissingReason): LaunchOutcome
  {
    match reason
    case NotConfigured =>
      LaunchOutcome(PreferenceMissing,
        "No editor configured. Set one in `.rsworktree/" + CONFIG_FILE_NAME
        + "` or export $EDITOR/$VISUAL. Supported commands: " + SupportedList())
    case ConfigInvalid(path, error) =>
      LaunchOutcome(ConfigurationError, "Editor configuration `" + Display(path) + "` is invalid: " + error)
    case EnvInvalid(variable, error) =>
      LaunchOutcome(ConfigurationError, "Environment variable $" + Name(variable) + " could not be parsed: " + error)
  }

  /**
   * A missing preference is `PreferenceMissing` when nothing is configured,
   * with a message naming every supported editor as "Label (`command`)";
   * an invalid file or variable is a `ConfigurationError`.
   */
  lemma MissingPreferenceRules(reason: MissingReason, e: SupportedEditor)
    ensures var o := MissingPreferenceOutcome(reason);
      && (o.status == PreferenceMissing <==> reason.NotConfigured?)
      && (o.status == ConfigurationError <==> !reason.NotConfigured?)
      && (reason.NotConfigured? ==> Contains(o.message, Label(e) + " (`" + Command(e) + "`)"))
  {
    if reason.NotConfigured? {
      SupportedListNames(e);
      var prefix := "No editor configured. Set one in `.rsworktree/" + CONFIG_FILE_NAME
        + "` or export $EDITOR/$VISUAL. Supported commands: ";
      ContainsPrepend(prefix, SupportedList(), Label(e) + " (`" + Command(e) + "`)");
    }
  }

  /** Every supported editor is named in the list, as "Label (`command`)". */
  lemma SupportedListNames(e: SupportedEditor)
    ensures Contains(SupportedList(), Label(e) + " (`" + Command(e) + "`)")
  {
    AllListsEachOnce(e);
    var i :| 0 <= i < |ALL| && ALL[i] == e;
    var described := DescribedAll(SupportedEditorCommands());
    JoinContains(described, ", ", i);
  }

  /**
   * `launch_worktree`, for the editor preference found under `root` and
   * the answers of the file system and the operating system.  The
   * outcome, the log, and the program started.
   */
  function LaunchWorktree(root: Path, env: PreferenceEnv, name: string, path: Path, wait: bool, pathExists: bool, spawn: SpawnResult)
    : (LaunchOutcome, seq<LogEntry>, Option<SpawnCall>)
  {
    var attempt := LaunchAttempt(ResolveEditorPreference(root, env), name, path, wait, pathExists, spawn);
    (attempt.0, [LogEntry(name, path, attempt.0.status, attempt.0.message)], attempt.1)
  }

  /** The outcome and the program started for a resolved preference. */
  function LaunchAttempt(resolution: Resolution, name: string, path: Path, wait: bool, pathExists: bool, spawn: SpawnResult): (LaunchOutcome, Option<SpawnCall>)
  {
    match resolution
    case Found(p) => LaunchEditor(LaunchRequest(p, name, path, wait), pathExists, spawn)
    case Missing(reason) => (MissingPreferenceOutcome(reason), None)
  }

  /**
   * A found preference gives exactly `launch_editor`'s outcome and starts
   * its program; a missing one starts nothing and gives the outcome that
   * explains it.
   */
  lemma LaunchAttemptRules(resolution: Resolution, name: string, path: Path, wait: bool, pathExists: bool, spawn: SpawnResult)
    ensures var attempt := LaunchAttempt(resolution, name, path, wait, pathExists, spawn);
      && (resolution.Found? ==> attempt == LaunchEditor(LaunchRequest(resolution.preference, name, path, wait), pathExists, spawn))
      && (resolution.Missing? ==> attempt.1.None? && attempt.0.status in {PreferenceMissing, ConfigurationError})
  {
    if resolution.Missing? {
      MissingPreferenceRules(resolution.reason, Vim);
    }
  }

  /** Every attempt is logged exactly once, with the final status and message. */
  lemma LaunchWorktreeLogsOnce(root: Path, env: PreferenceEnv, name: string, path: Path, wait: bool, pathExists: bool, spawn: SpawnResult)
    ensures var (outcome, log, _) := LaunchWorktree(root, env, name, path, wait, pathExists, spawn);
      |log| == 1 && log[0] == LogEntry(name, path, outcome.status, outcome.message)
  {
  }

  /** Whatever `launch_worktree` starts is waited for exactly when asked. */
  lemma LaunchWorktreeWaitsAsAsked(root: Path, env: PreferenceEnv, name: string, path: Path, wait: bool, pathExists: bool, spawn: SpawnResult)
    ensures var call := LaunchWorktree(root, env, name, path, wait, pathExists, spawn).2;
      call.Some? ==> call.value.wait == wait
  {
    AttemptWaitsAsAsked(ResolveEditorPreference(root, env), name, path, wait, pathExists, spawn);
  }

  lemma AttemptWaitsAsAsked(resolution: Resolution, name: string, path: Path, wait: bool, pathExists: bool, spawn: SpawnResult)
    ensures var call := LaunchAttempt(resolution, name, path, wait, pathExists, spawn).1;
      call.Some? ==> call.value.wait == wait
  {
    if resolution.Found? {
      SpawnWaitsAsAsked(LaunchRequest(resolution.preference, name, path, wait), pathExists, spawn);
    }
  }
}
