/**
 * `rsworktree open-editor [<name>] [--path <path>]`: finds the worktree
 * by name among those `list` finds, or takes the path given, and opens the
 * preferred editor on it in the background.
 */
module OpenEditor {
  import opened Wrappers
  import opened Text
  import opened Paths
  import opened List
  import opened Preference
  import opened Launch
  import opened Editors

  /** `OpenEditorCommand`: the worktree's name and an explicit path, either optional. */
  datatype OpenEditorCommand = OpenEditorCommand(name: Option<string>, path: Option<Path>)

  /** `ResolvedWorktree`: the name shown and the canonical path. */
  datatype ResolvedWorktree = ResolvedWorktree(name: string, path: Path)

  /** The answers of the file system and the environment that `execute` consults. */
  datatype OpenEditorEnv = OpenEditorEnv(
    root: Path,
    worktreesDir: Result<Path>,  // `Repo::ensure_worktrees_dir`
    listable: bool,              // whether the worktrees directory can be listed
    children: seq<Entry>,        // and what it holds
    present: bool,               // whether the chosen worktree's path exists
    canonical: Result<Path>,     // its `canonicalize`
    preference: PreferenceEnv,
    launchPathExists: bool,      // the existence check `launch_editor` makes itself
    spawn: SpawnResult)

  // ----- resolve_by_name -----

  /** The text a found worktree is shown as. */
  function DisplayOf(rel: seq<string>): string
  {
    FormatWorktree(Path(false, rel))
  }

  /** A found worktree answers to `name`: its whole display, its display's tail after a '/', or its last component. */
  predicate IsMatch(rel: seq<string>, name: string)
  {
    DisplayOf(rel) == name || EndsWith(DisplayOf(rel), "/" + name) || FileName(Path(false, rel)) == Some(name)
  }

  /** The entries `keep` accepts, in order. */
  function Filter(entries: seq<seq<string>>, keep: seq<string> -> bool): (r: seq<seq<string>>)
    ensures |r| <= |entries|
    ensures forall k :: 0 <= k < |r| ==> keep(r[k])
  {
    if entries == [] then []
    else (if keep(entries[0]) then [entries[0]] else []) + Filter(entries[1..], keep)
  }

  /** An entry is kept exactly when it is among the entries and `keep` accepts it. */
  lemma {:induction false} FilterComplete(entries: seq<seq<string>>, keep: seq<string> -> bool, rel: seq<string>)
    ensures rel in Filter(entries, keep) <==> rel in entries && keep(rel)
  {
    if entries != [] {
      FilterComplete(entries[1..], keep, rel);
      assert entries == [entries[0]] + entries[1..];
    }
  }

  /** The test `resolve_by_name` applies to each found worktree. */
  function Matcher(name: string): seq<string> -> bool
  {
    rel => IsMatch(rel, name)
  }

  /** The matching worktrees, in the order found. */
  function MatchesOf(entries: seq<seq<string>>, name: string): (r: seq<seq<string>>)
    ensures |r| <= |entries|
    ensures forall k :: 0 <= k < |r| ==> IsMatch(r[k], name)
  {
    Filter(entries, Matcher(name))
  }

  /** The displays of the matches, in order. */
  function Displays(matches: seq<seq<string>>): (r: seq<string>)
    ensures |r| == |matches|
    ensures forall k :: 0 <= k < |matches| ==> r[k] == DisplayOf(matches[k])
  {
    if matches == [] then [] else [DisplayOf(matches[0])] + Displays(matches[1..])
  }

  /** Every matching worktree is among the matches, and only those. */
  lemma MatchesComplete(entries: seq<seq<string>>, name: string, rel: seq<string>)
    ensures rel in MatchesOf(entries, name) <==> rel in entries && IsMatch(rel, name)
  {
    FilterComplete(entries, Matcher(name), rel);
  }

  /** The loop of `resolve_by_name` that collects the matches. */
  method CollectMatches(entries: seq<seq<string>>, name: string) returns (matches: seq<seq<string>>)
    ensures matches == MatchesOf(entries, name)
  {
    matches := FilterLoop(entries, Matcher(name));
  }

  /** Keeping the accepted entries one by one, in order. */
  method FilterLoop(entries: seq<seq<string>>, keep: seq<string> -> bool) returns (kept: seq<seq<string>>)
    ensures kept == Filter(entries, keep)
  {
    kept := [];
    for i := 0 to |entries|
      invariant kept + Filter(entries[i..], keep) == Filter(entries, keep)
    {
      FilterStep(entries, keep, i, kept);
      if keep(entries[i]) {
        kept := kept + [entries[i]];
      }
    }
    assert entries[|entries|..] == [];
    assert kept + [] == kept;
  }

  /** Deciding on entry `i` moves it, when kept, from the pending part onto the entries found. */
  lemma FilterStep(entries: seq<seq<string>>, keep: seq<string> -> bool, i: nat, acc: seq<seq<string>>)
    requires i < |entries|
    ensures acc + Filter(entries[i..], keep)
      == (acc + (if keep(entries[i]) then [entries[i]] else [])) + Filter(entries[i + 1..], keep)
  {
    assert entries[i..][1..] == entries[i + 1..];
  }

  function NotFound(name: string): string
  {
    "worktree `" + name + "` not found. Run `rsworktree ls` to view available worktrees."
  }

  function Ambiguous(name: string, matches: seq<seq<string>>): string
  {
    "worktree identifier `" + name + "` is ambiguous. Matches: " + Join(Displays(matches), ", ")
  }

  /** `resolve_by_name` once the worktrees and their directory are known. */
  function ResolveAmong(name: string, dir: Path, entries: seq<seq<string>>, env: OpenEditorEnv): Result<ResolvedWorktree>
  {
    var matches := MatchesOf(entries, name);
    if |matches| == 0 then Err(NotFound(name))
    else if |matches| > 1 then Err(Ambiguous(name, matches))
    else
      var display := DisplayOf(matches[0]);
      var absolute := JoinPath(dir, Path(false, matches[0]));
      if !env.present then Err("worktree `" + display + "` is missing from `" + Display(absolute) + "`")
      else if env.canonical.Err? then Err("failed to resolve `" + Display(absolute) + "`")
      else Ok(ResolvedWorktree(display, env.canonical.value))
  }

  /** `resolve_by_name`. */
  function ResolveByName(name: string, env: OpenEditorEnv): Result<ResolvedWorktree>
  {
    match env.worktreesDir
    case Err(e) => Err(e)
    case Ok(dir) =>
      match FindWorktrees(dir, env.listable, env.children)
      case Err(e) => Err(e)
      case Ok(entries) => ResolveAmong(name, dir, entries, env)
  }

  /** `resolve_by_name` with the walk of `find_worktrees` and the loop over its results. */
  method ResolveByNameLoop(name: string, env: OpenEditorEnv) returns (r: Result<ResolvedWorktree>)
    ensures r == ResolveByName(name, env)
  {
    if env.worktreesDir.Err? {
      return Err(env.worktreesDir.error);
    }
    var dir := env.worktreesDir.value;
    var found := FindWorktreesLoop(dir, env.listable, env.children);
    if found.Err? {
      return Err(found.error);
    }
    var matches := CollectMatches(found.value, name);
    if |matches| == 0 {
      return Err(NotFound(name));
    }
    if |matches| > 1 {
      return Err(Ambiguous(name, matches));
    }
    var display := DisplayOf(matches[0]);
    var absolute := JoinPath(dir, Path(false, matches[0]));
    if !env.present {
      return Err("worktree `" + display + "` is missing from `" + Display(absolute) + "`");
    }
    if env.canonical.Err? {
      return Err("failed to resolve `" + Display(absolute) + "`");
    }
    r := Ok(ResolvedWorktree(display, env.canonical.value));
  }

  /** With no worktree answering to the name, the lookup fails with "not found"; any match rules that out. */
  lemma ByNameNotFound(name: string, dir: Path, entries: seq<seq<string>>, env: OpenEditorEnv)
    ensures (forall i :: 0 <= i < |entries| ==> !IsMatch(entries[i], name))
      <==> MatchesOf(entries, name) == []
    ensures MatchesOf(entries, name) == [] ==> ResolveAmong(name, dir, entries, env) == Err(NotFound(name))
  {
    var matches := MatchesOf(entries, name);
    if matches == [] {
      forall i | 0 <= i < |entries|
        ensures !IsMatch(entries[i], name)
      {
        MatchesComplete(entries, name, entries[i]);
      }
    } else {
      MatchesComplete(entries, name, matches[0]);
    }
  }

  /** Two or more matches are an "ambiguous" error whose message names every match. */
  lemma ByNameAmbiguous(name: string, dir: Path, entries: seq<seq<string>>, env: OpenEditorEnv)
    requires |MatchesOf(entries, name)| > 1
    ensures ResolveAmong(name, dir, entries, env) == Err(Ambiguous(name, MatchesOf(entries, name)))
    ensures forall rel :: rel in entries && IsMatch(rel, name) ==>
      Contains(ResolveAmong(name, dir, entries, env).error, DisplayOf(rel))
  {
    var matches := MatchesOf(entries, name);
    forall rel | rel in entries && IsMatch(rel, name)
      ensures Contains(Ambiguous(name, matches), DisplayOf(rel))
    {
      MatchesComplete(entries, name, rel);
      var k :| 0 <= k < |matches| && matches[k] == rel;
      JoinContains(Displays(matches), ", ", k);
      ContainsPrepend("worktree identifier `" + name + "` is ambiguous. Matches: ", Join(Displays(matches), ", "), DisplayOf(rel));
    }
  }

  /** A successful lookup found exactly one matching worktree, shown by its display, at its canonical path. */
  lemma ByNameUnique(name: string, dir: Path, entries: seq<seq<string>>, env: OpenEditorEnv)
    ensures var r := ResolveAmong(name, dir, entries, env);
      r.Ok? ==> (
        var matches := MatchesOf(entries, name);
        && |matches| == 1 && matches[0] in entries && IsMatch(matches[0], name)
        && r.value == ResolvedWorktree(DisplayOf(matches[0]), env.canonical.value))
    ensures var r := ResolveAmong(name, dir, entries, env);
      |MatchesOf(entries, name)| == 1 ==> (r.Ok? <==> env.present && env.canonical.Ok?)
  {
    var matches := MatchesOf(entries, name);
    if |matches| == 1 {
      MatchesComplete(entries, name, matches[0]);
    }
  }

  // ----- resolve_by_path -----

  /** The display of a resolved path: relative to the worktrees directory when under it, else its file name, else the whole path. */
  function PathDisplay(canonical: Path, dir: Path): string
  {
    match StripPrefix(canonical, dir)
    case Some(rel) => FormatWorktree(rel)
    case None =>
      match FileName(canonical)
      case Some(n) => n
      case None => Display(canonical)
  }

  /** `resolve_by_path`. */
  function ResolveByPath(path: Path, env: OpenEditorEnv): Result<ResolvedWorktree>
  {
    if !env.present then Err("worktree path `" + Display(path) + "` does not exist")
    else if env.canonical.Err? then Err("failed to resolve `" + Display(path) + "`")
    else
      match env.worktreesDir
      case Err(e) => Err(e)
      case Ok(dir) => Ok(ResolvedWorktree(PathDisplay(env.canonical.value, dir), env.canonical.value))
  }

  /**
   * A path inside the worktrees directory is shown just as `list` and the
   * name lookup show it, so opening by path and by name agree on the name.
   */
  lemma ByPathShowsListedName(dir: Path, rel: seq<string>)
    ensures PathDisplay(JoinPath(dir, Path(false, rel)), dir) == DisplayOf(rel)
  {
    StripJoinRoundTrip(dir, Path(false, rel));
  }

  /** Outside the worktrees directory the display is the file name, or the whole path when there is none. */
  lemma ByPathOutside(canonical: Path, dir: Path)
    requires !Paths.StartsWith(canonical, dir)
    ensures PathDisplay(canonical, dir) == (if canonical.parts != [] then canonical.parts[|canonical.parts| - 1] else Display(canonical))
  {
  }

  // ----- resolve_target and execute -----

  const TARGET_MISSING := "worktree name or --path must be provided"

  /** `resolve_target`: the path when given, else the name, else an error. */
  function ResolveTarget(c: OpenEditorCommand, env: OpenEditorEnv): Result<ResolvedWorktree>
  {
    match c.path
    case Some(p) => ResolveByPath(p, env)
    case None =>
      match c.name
      case Some(n) => ResolveByName(n, env)
      case None => Err(TARGET_MISSING)
  }

  /** `--path` wins over a name, and giving neither is an error. */
  lemma TargetPrecedence(c: OpenEditorCommand, env: OpenEditorEnv)
    ensures c.path.Some? ==> ResolveTarget(c, env) == ResolveByPath(c.path.value, env)
    ensures c.path.None? && c.name.Some? ==> ResolveTarget(c, env) == ResolveByName(c.name.value, env)
    ensures c.path.None? && c.name.None? ==> ResolveTarget(c, env) == Err(TARGET_MISSING)
  {
  }

  /**
   * `execute`: the result, the launch log (`launch_worktree` logs the
   * attempt, and `execute` logs it once more), and the program started.
   */
  function OpenEditorRun(c: OpenEditorCommand, env: OpenEditorEnv): (Outcome, seq<LogEntry>, Option<SpawnCall>)
  {
    match ResolveTarget(c, env)
    case Err(e) => (Fail(e), [], None)
    case Ok(resolved) => Report(resolved, LaunchResolved(resolved, env))
  }

  /** `launch_worktree` on a resolved worktree, in the background. */
  function LaunchResolved(resolved: ResolvedWorktree, env: OpenEditorEnv): (LaunchOutcome, seq<LogEntry>, Option<SpawnCall>)
  {
    LaunchWorktree(env.root, env.preference, resolved.name, resolved.path, false, env.launchPathExists, env.spawn)
  }

  /** The command's verdict on a launch, with the attempt logged once more. */
  function Report(resolved: ResolvedWorktree, launched: (LaunchOutcome, seq<LogEntry>, Option<SpawnCall>)): (Outcome, seq<LogEntry>, Option<SpawnCall>)
  {
    var outcome := launched.0;
    var logged := launched.1 + [LogEntry(resolved.name, resolved.path, outcome.status, outcome.message)];
    if outcome.status == Success || outcome.status == PreferenceMissing then (Pass, logged, launched.2)
    else (Fail(outcome.message), logged, launched.2)
  }

  /**
   * The command passes exactly when the launch succeeds or only finds no
   * preference, and otherwise fails with the launch's message; what was
   * started is the launch's.
   */
  lemma ReportRules(resolved: ResolvedWorktree, launched: (LaunchOutcome, seq<LogEntry>, Option<SpawnCall>))
    ensures var run := Report(resolved, launched);
      && (run.0.Pass? <==> launched.0.status in {Success, PreferenceMissing})
      && (run.0.Fail? ==> run.0.error == launched.0.message)
      && run.2 == launched.2
  {
  }

  /**
   * The command passes exactly when the target resolves and the launch
   * succeeds or only finds no preference; any other status fails with the
   * launch's message, and an unresolved target fails before anything is
   * started.
   */
  lemma ExecuteStatusMapping(c: OpenEditorCommand, env: OpenEditorEnv)
    ensures var run := OpenEditorRun(c, env);
      var target := ResolveTarget(c, env);
      && (target.Err? ==> run.0 == Fail(target.error) && run.2.None? && run.1 == [])
      && (target.Ok? ==>
            var launched := LaunchResolved(target.value, env);
            && (run.0.Pass? <==> launched.0.status in {Success, PreferenceMissing})
            && (run.0.Fail? ==> run.0.error == launched.0.message)
            && run.2 == launched.2)
  {
    var target := ResolveTarget(c, env);
    if target.Ok? {
      ReportRules(target.value, LaunchResolved(target.value, env));
    }
  }

  /** The editor is started in the background: it is never waited for. */
  lemma OpenEditorNeverWaits(c: OpenEditorCommand, env: OpenEditorEnv)
    ensures var run := OpenEditorRun(c, env);
      run.2.Some? ==> !run.2.value.wait
  {
    var target := ResolveTarget(c, env);
    if target.Ok? {
      var r := target.value;
      LaunchWorktreeWaitsAsAsked(env.root, env.preference, r.name, r.path, false, env.launchPathExists, env.spawn);
      ReportRules(r, LaunchResolved(r, env));
    }
  }

  /** Both the launch and the command log the attempt, with the same status and message. */
  lemma ExecuteLogsTwice(c: OpenEditorCommand, env: OpenEditorEnv)
    ensures var run := OpenEditorRun(c, env);
      var target := ResolveTarget(c, env);
      target.Ok? ==> |run.1| == 2 && run.1[0] == run.1[1] && run.1[1].worktree == target.value.name
  {
    var target := ResolveTarget(c, env);
    if target.Ok? {
      var r := target.value;
      LaunchWorktreeLogsOnce(env.root, env.preference, r.name, r.path, false, env.launchPathExists, env.spawn);
      ReportLogsAgain(r, LaunchResolved(r, env));
    }
  }

  /** A launch that logged the attempt once is logged a second time, identically, by the command. */
  lemma ReportLogsAgain(resolved: ResolvedWorktree, launched: (LaunchOutcome, seq<LogEntry>, Option<SpawnCall>))
    requires launched.1 == [LogEntry(resolved.name, resolved.path, launched.0.status, launched.0.message)]
    ensures var log := Report(resolved, launched).1;
      |log| == 2 && log[0] == log[1] && log[1].worktree == resolved.name
  {
  }
}
