/**
 * `rsworktree pr-github <name>`: in the worktree `<name>`, find the checked
 * out branch with `git rev-parse`, make sure `gh pr create` has what it
 * needs to run without prompting, push the branch (unless pushing is
 * disabled) and create the pull request with `gh pr create`.  The first
 * step that fails ends the command.
 */
module PrGithub {
  import opened Wrappers
  import opened Text
  import opened Paths
  import opened Runner

  /** The settings of a `PrGithubCommand` (its runner is a separate object). */
  datatype PrOptions = PrOptions(
    name: string,
    push: bool,
    draft: bool,
    fill: bool,
    web: bool,
    remote: string,
    reviewers: seq<string>,
    extraArgs: seq<string>)

  // ---------------------------------------------------------------------
  // The worktree and its branch (the same code is in `merge` and
  // `merge-pr-github`)
  // ---------------------------------------------------------------------

  /**
   * `ensure_worktree_path`: `<worktrees dir>/<name>`, which must exist.
   * `worktreesDir` is what preparing the worktrees directory gave and
   * `present` whether the joined path exists.
   */
  function WorktreePath(name: string, worktreesDir: Result<Path>, present: bool): (r: Result<Path>)
    ensures r.Ok? <==> worktreesDir.Ok? && present
    ensures r.Ok? ==> r.value == JoinStr(worktreesDir.value, name)
    ensures worktreesDir.Ok? && !present ==> Contains(r.error, "does not exist")
  {
    if worktreesDir.Err? then Err(worktreesDir.error)
    else if !present then
      var rest := " under `" + Display(worktreesDir.value) + "`";
      ContainsInfix("worktree `" + name + "` ", "does not exist", rest);
      Err("worktree `" + name + "` " + "does not exist" + rest)
    else Ok(JoinStr(worktreesDir.value, name))
  }

  const REV_PARSE_ARGS: seq<string> := ["rev-parse", "--abbrev-ref", "HEAD"]
  const REV_PARSE_CONTEXT := "failed to determine current branch with `git rev-parse`"
  const EMPTY_BRANCH_ERROR := "`git rev-parse` produced empty branch name"

  function RevParseCall(path: Path): RecordedCall
  {
    RecordedCall("git", path, REV_PARSE_ARGS)
  }

  /**
   * `determine_branch`, given the runner's answer to `git rev-parse
   * --abbrev-ref HEAD`: the trimmed output, which must not be empty.
   */
  function BranchFrom(r: Result<CommandOutput>): (b: Result<string>)
    ensures b.Ok? <==> Succeeded(r) && Trim(r.value.stdout) != []
    ensures b.Ok? ==> b.value == Trim(r.value.stdout)
  {
    if r.Err? then Err(REV_PARSE_CONTEXT)
    else if !r.value.success then Err(CommandFailure("git", REV_PARSE_ARGS, r.value))
    else if Trim(r.value.stdout) == [] then Err(EMPTY_BRANCH_ERROR)
    else Ok(Trim(r.value.stdout))
  }

  // ---------------------------------------------------------------------
  // Whether `gh pr create` can run without prompting
  // ---------------------------------------------------------------------

  /** The `gh pr create` flags that supply the title and body, or hand over to the browser. */
  const NONINTERACTIVE_FLAGS: set<string> :=
    {"--fill", "-f", "--fill-first", "--fill-verbose", "--web", "-w",
     "--title", "-t", "--body", "-b", "--body-file", "-F"}

  /** `metadata_flag_allows_noninteractive`: the trimmed argument is one of those flags or sets a title, body or body file. */
  predicate AllowsNoninteractive(arg: string)
  {
    var cleaned := Trim(arg);
    cleaned != "--"
    && (cleaned in NONINTERACTIVE_FLAGS
        || Text.StartsWith(cleaned, "--title=")
        || Text.StartsWith(cleaned, "--body=")
        || Text.StartsWith(cleaned, "--body-file="))
  }

  /** Surrounding whitespace does not matter, and a bare `--` never counts. */
  lemma AllowsNoninteractiveTrimmed(arg: string)
    ensures AllowsNoninteractive(arg) == AllowsNoninteractive(Trim(arg))
    ensures Trim(arg) == "--" ==> !AllowsNoninteractive(arg)
  {
    TrimOfTrimmed(Trim(arg));
  }

  /** Some element of `args` satisfies `p` (`Iterator::any`). */
  predicate Any(p: string -> bool, args: seq<string>)
  {
    args != [] && (p(args[0]) || Any(p, args[1..]))
  }

  /** An element that satisfies `p` makes `Any` hold. */
  lemma {:induction false} AnySuffices(p: string -> bool, args: seq<string>, i: nat)
    requires i < |args| && p(args[i])
    ensures Any(p, args)
    decreases i
  {
    if i > 0 {
      assert args[1..][i - 1] == args[i];
      AnySuffices(p, args[1..], i - 1);
    }
  }

  /** When `Any` holds, some element satisfies `p`. */
  lemma {:induction false} AnyWitness(p: string -> bool, args: seq<string>) returns (i: nat)
    requires Any(p, args)
    ensures i < |args| && p(args[i])
    decreases |args|
  {
    if p(args[0]) {
      i := 0;
    } else {
      var j := AnyWitness(p, args[1..]);
      assert args[j + 1] == args[1..][j];
      i := j + 1;
    }
  }

  /** `Any` holds exactly when some element satisfies `p`. */
  lemma AnyIff(p: string -> bool, args: seq<string>)
    ensures Any(p, args) <==> exists i :: 0 <= i < |args| && p(args[i])
  {
    if Any(p, args) {
      var i := AnyWitness(p, args);
    }
    forall i | 0 <= i < |args| && p(args[i])
      ensures Any(p, args)
    {
      AnySuffices(p, args, i);
    }
  }

  /** `ensure_pr_metadata_options`: `--fill`, `--web` or a metadata extra argument. */
  predicate MetadataOptionsOk(o: PrOptions)
  {
    o.fill || o.web || Any(AllowsNoninteractive, o.extraArgs)
  }

  const METADATA_ERROR :=
    "`rsworktree pr-github` runs `gh pr create` in non-interactive mode. "
    + "Provide PR metadata with `--fill`, `--title/--body`, or use `--web` to open the browser."

  // ---------------------------------------------------------------------
  // The push and the pull request
  // ---------------------------------------------------------------------

  function PushArgs(remote: string, branch: string): seq<string>
  {
    ["push", "-u", remote, branch]
  }

  /** The `--draft`, `--fill` and `--web` flags that are set, in that order. */
  function FlagArgs(o: PrOptions): (r: seq<string>)
    ensures "--draft" in r <==> o.draft
    ensures "--fill" in r <==> o.fill
    ensures "--web" in r <==> o.web
    ensures |r| <= 3
  {
    (if o.draft then ["--draft"] else [])
    + (if o.fill then ["--fill"] else [])
    + (if o.web then ["--web"] else [])
  }

  /** `--reviewer r` for each reviewer, in order. */
  function ReviewerArgs(reviewers: seq<string>): (r: seq<string>)
    ensures |r| == 2 * |reviewers|
  {
    if reviewers == [] then [] else ["--reviewer", reviewers[0]] + ReviewerArgs(reviewers[1..])
  }

  /** Each reviewer is preceded by its own `--reviewer` flag. */
  lemma {:induction false} ReviewerArgsPairs(reviewers: seq<string>)
    ensures var r := ReviewerArgs(reviewers);
      forall i :: 0 <= i < |reviewers| ==> r[2 * i] == "--reviewer" && r[2 * i + 1] == reviewers[i]
    decreases |reviewers|
  {
    if reviewers != [] {
      var rest := reviewers[1..];
      ReviewerArgsPairs(rest);
      var r := ReviewerArgs(reviewers);
      assert r == ["--reviewer", reviewers[0]] + ReviewerArgs(rest);
      forall i | 1 <= i < |reviewers|
        ensures r[2 * i] == "--reviewer" && r[2 * i + 1] == reviewers[i]
      {
        assert r[2 * i] == ReviewerArgs(rest)[2 * (i - 1)];
        assert r[2 * i + 1] == ReviewerArgs(rest)[2 * (i - 1) + 1];
        assert reviewers[i] == rest[i - 1];
      }
    }
  }

  /** Adding one reviewer adds its two arguments at the end. */
  lemma {:induction false} ReviewerArgsSnoc(reviewers: seq<string>, r: string)
    ensures ReviewerArgs(reviewers + [r]) == ReviewerArgs(reviewers) + ["--reviewer", r]
    decreases |reviewers|
  {
    if reviewers == [] {
      assert [] + [r] == [r];
      assert [r][1..] == [];
    } else {
      assert (reviewers + [r])[1..] == reviewers[1..] + [r];
      ReviewerArgsSnoc(reviewers[1..], r);
    }
  }

  /** The `gh pr create` arguments: head branch, flags, reviewers, then the extra arguments. */
  function CreateArgs(o: PrOptions, branch: string): seq<string>
  {
    ["pr", "create", "--head", branch] + FlagArgs(o) + ReviewerArgs(o.reviewers) + o.extraArgs
  }

  /** Where each part of the `gh pr create` argument list sits. */
  lemma CreateArgsLayout(o: PrOptions, branch: string)
    ensures var args := CreateArgs(o, branch);
      var k := 4 + |FlagArgs(o)|;
      && args[..4] == ["pr", "create", "--head", branch]
      && |args| == k + 2 * |o.reviewers| + |o.extraArgs|
      && (forall i :: 0 <= i < |o.reviewers| ==> args[k + 2 * i] == "--reviewer" && args[k + 2 * i + 1] == o.reviewers[i])
      && args[k + 2 * |o.reviewers|..] == o.extraArgs
  {
    CreateArgsHead(o, branch);
    CreateArgsReviewers(o, branch);
  }

  lemma CreateArgsHead(o: PrOptions, branch: string)
    ensures CreateArgs(o, branch)[..4] == ["pr", "create", "--head", branch]
    ensures CreateArgs(o, branch)[4 + |FlagArgs(o)| + 2 * |o.reviewers|..] == o.extraArgs
  {
    OuterParts(["pr", "create", "--head", branch], FlagArgs(o), ReviewerArgs(o.reviewers), o.extraArgs);
  }

  /** The first and the last of four concatenated lists can be cut back out. */
  lemma OuterParts(a: seq<string>, b: seq<string>, c: seq<string>, d: seq<string>)
    ensures (a + b + c + d)[..|a|] == a
    ensures (a + b + c + d)[|a| + |b| + |c|..] == d
  {
  }

  lemma CreateArgsReviewers(o: PrOptions, branch: string)
    ensures var args := CreateArgs(o, branch);
      var k := 4 + |FlagArgs(o)|;
      forall i :: 0 <= i < |o.reviewers| ==> args[k + 2 * i] == "--reviewer" && args[k + 2 * i + 1] == o.reviewers[i]
  {
    ReviewersBetween(["pr", "create", "--head", branch] + FlagArgs(o), o.reviewers, o.extraArgs);
  }

  /** Reviewer flags placed between any two argument lists keep their pairing. */
  lemma ReviewersBetween(head: seq<string>, reviewers: seq<string>, tail: seq<string>)
    ensures var args := head + ReviewerArgs(reviewers) + tail;
      forall i :: 0 <= i < |reviewers| ==> args[|head| + 2 * i] == "--reviewer" && args[|head| + 2 * i + 1] == reviewers[i]
  {
    ReviewerArgsPairs(reviewers);
    PairsBetween(head, ReviewerArgs(reviewers), reviewers, tail);
  }

  /** Flag and value pairs keep their places once other arguments surround them. */
  lemma PairsBetween(head: seq<string>, pairs: seq<string>, values: seq<string>, tail: seq<string>)
    requires |pairs| == 2 * |values|
    requires forall i :: 0 <= i < |values| ==> pairs[2 * i] == "--reviewer" && pairs[2 * i + 1] == values[i]
    ensures var args := head + pairs + tail;
      forall i :: 0 <= i < |values| ==> args[|head| + 2 * i] == "--reviewer" && args[|head| + 2 * i + 1] == values[i]
  {
    forall i | 0 <= i < |values|
      ensures (head + pairs + tail)[|head| + 2 * i] == "--reviewer"
      ensures (head + pairs + tail)[|head| + 2 * i + 1] == values[i]
    {
      MiddleIndex(head, pairs, tail, 2 * i);
      MiddleIndex(head, pairs, tail, 2 * i + 1);
    }
  }

  /** The part of `a + b + c` that comes from `b`. */
  lemma MiddleIndex(a: seq<string>, b: seq<string>, c: seq<string>, j: nat)
    requires j < |b|
    ensures (a + b + c)[|a| + j] == b[j]
  {
  }

  const PUSH_CONTEXT := "failed to run `git push`"
  const CREATE_CONTEXT := "failed to run `gh pr create`"

  /** The steps after the checks: the push when enabled, then the pull request. */
  function PrSteps(o: PrOptions, path: Path, branch: string): seq<Step>
  {
    (if o.push then [Step(RecordedCall("git", path, PushArgs(o.remote, branch)), PUSH_CONTEXT)] else [])
    + [Step(RecordedCall("gh", path, CreateArgs(o, branch)), CREATE_CONTEXT)]
  }

  /**
   * `execute`: the calls made and the result, given how preparing the
   * worktrees directory went, whether the worktree exists, and the runner's
   * prepared responses.
   */
  function PrRun(o: PrOptions, worktreesDir: Result<Path>, present: bool, q: seq<Result<CommandOutput>>): Trace
  {
    match WorktreePath(o.name, worktreesDir, present)
    case Err(e) => Trace([], Fail(e))
    case Ok(path) => PrRunIn(o, path, q)
  }

  /** What `execute` does once the worktree `path` is known. */
  function PrRunIn(o: PrOptions, path: Path, q: seq<Result<CommandOutput>>): Trace
  {
    match BranchFrom(ResponseAt(q, 0))
    case Err(e) => Trace([RevParseCall(path)], Fail(e))
    case Ok(branch) =>
      var t := PrRunOnBranch(o, path, branch, Drop(q, 1));
      Trace([RevParseCall(path)] + t.calls, t.outcome)
  }

  /** What `execute` does once the branch is known: the metadata check, then the steps. */
  function PrRunOnBranch(o: PrOptions, path: Path, branch: string, q: seq<Result<CommandOutput>>): Trace
  {
    if !MetadataOptionsOk(o) then Trace([], Fail(METADATA_ERROR))
    else RunSteps(PrSteps(o, path, branch), q)
  }

  /** When the metadata check fails, `git rev-parse` is the only call made. */
  lemma MetadataFailureStopsAfterRevParse(o: PrOptions, dir: Path, q: seq<Result<CommandOutput>>)
    requires BranchFrom(ResponseAt(q, 0)).Ok? && !MetadataOptionsOk(o)
    ensures PrRun(o, Ok(dir), true, q) == Trace([RevParseCall(JoinStr(dir, o.name))], Fail(METADATA_ERROR))
  {
  }

  /**
   * The calls follow the order rev-parse, push (only when enabled), pull
   * request, and stop at the first failure; the command succeeds exactly
   * when every one of them does.
   */
  lemma PrRunOrder(o: PrOptions, dir: Path, q: seq<Result<CommandOutput>>)
    requires BranchFrom(ResponseAt(q, 0)).Ok? && MetadataOptionsOk(o)
    ensures var path := JoinStr(dir, o.name);
      var steps := PrSteps(o, path, BranchFrom(ResponseAt(q, 0)).value);
      var t := PrRun(o, Ok(dir), true, q);
      && t.calls == [RevParseCall(path)] + CallsOf(steps)[..|t.calls| - 1]
      && (t.outcome.Pass? <==> forall i :: 0 <= i < |steps| ==> Succeeded(ResponseAt(Drop(q, 1), i)))
      && (t.outcome.Pass? ==> |t.calls| == 1 + |steps|)
  {
    var path := JoinStr(dir, o.name);
    var steps := PrSteps(o, path, BranchFrom(ResponseAt(q, 0)).value);
    RunStepsCallsInOrder(steps, Drop(q, 1));
    RunStepsPassIff(steps, Drop(q, 1));
  }

  /** With pushing disabled, the steps after the checks run `gh pr create` alone. */
  lemma NoPushStep(o: PrOptions, path: Path, branch: string, q: seq<Result<CommandOutput>>)
    requires !o.push
    ensures var s := RunSteps(PrSteps(o, path, branch), q);
      |s.calls| == 1 && s.calls[0].program == "gh"
  {
    var steps := PrSteps(o, path, branch);
    assert |steps| == 1 && steps[0].call.program == "gh";
    RunStepsCallsInOrder(steps, q);
  }

  /** With pushing disabled, `git rev-parse` is the only `git` call: at most one `gh` call follows it. */
  lemma NoPushWhenDisabled(o: PrOptions, path: Path, q: seq<Result<CommandOutput>>)
    requires !o.push
    ensures var t := PrRunIn(o, path, q);
      && |t.calls| <= 2
      && (forall i :: 1 <= i < |t.calls| ==> t.calls[i].program == "gh")
  {
    var b := BranchFrom(ResponseAt(q, 0));
    if b.Ok? && MetadataOptionsOk(o) {
      NoPushStep(o, path, b.value, Drop(q, 1));
    }
  }

  /** `determine_branch`: asks `git rev-parse` in the worktree for its branch. */
  method DetermineBranch(runner: ScriptedRunner, path: Path) returns (b: Result<string>)
    modifies runner
    ensures runner.calls == old(runner.calls) + [RevParseCall(path)]
    ensures runner.responses == Drop(old(runner.responses), 1)
    ensures b == BranchFrom(ResponseAt(old(runner.responses), 0))
  {
    var r := runner.Run("git", path, REV_PARSE_ARGS);
    if r.Err? {
      return Err(REV_PARSE_CONTEXT);
    }
    if !r.value.success {
      return Err(CommandFailure("git", REV_PARSE_ARGS, r.value));
    }
    var branch := Trim(r.value.stdout);
    if branch == [] {
      return Err(EMPTY_BRANCH_ERROR);
    }
    b := Ok(branch);
  }

  /** `PrGithubCommand` with its runner. */
  class PrGithubCommand {
    const options: PrOptions
    const runner: ScriptedRunner

    constructor (options: PrOptions, runner: ScriptedRunner)
      ensures this.options == options && this.runner == runner
    {
      this.options := options;
      this.runner := runner;
    }

    method PushBranch(path: Path, branch: string) returns (o: Outcome)
      modifies runner
      ensures var s := Step(RecordedCall("git", path, PushArgs(options.remote, branch)), PUSH_CONTEXT);
        && runner.calls == old(runner.calls) + [s.call]
        && runner.responses == Drop(old(runner.responses), 1)
        && o == (if Succeeded(ResponseAt(old(runner.responses), 0)) then Pass
                 else Fail(StepError(s, ResponseAt(old(runner.responses), 0))))
    {
      var args := PushArgs(options.remote, branch);
      var r := runner.Run("git", path, args);
      if r.Err? {
        return Fail(PUSH_CONTEXT);
      }
      if !r.value.success {
        return Fail(CommandFailure("git", args, r.value));
      }
      o := Pass;
    }

    /** The argument list of `create_pull_request`: the fixed part and the flags, then one reviewer at a time. */
    method BuildCreateArgs(branch: string) returns (args: seq<string>)
      ensures args == CreateArgs(options, branch)
    {
      args := ["pr", "create", "--head", branch] + FlagArgs(options);
      ghost var prefix := args;
      var i := 0;
      while i < |options.reviewers|
        invariant 0 <= i <= |options.reviewers|
        invariant args == prefix + ReviewerArgs(options.reviewers[..i])
      {
        ReviewerArgsSnoc(options.reviewers[..i], options.reviewers[i]);
        assert options.reviewers[..i + 1] == options.reviewers[..i] + [options.reviewers[i]];
        args := args + ["--reviewer"];
        args := args + [options.reviewers[i]];
        i := i + 1;
      }
      assert options.reviewers[..i] == options.reviewers;
      args := args + options.extraArgs;
    }

    /** `create_pull_request`: runs `gh pr create` in the worktree. */
    method CreatePullRequest(path: Path, branch: string) returns (o: Outcome)
      modifies runner
      ensures var s := Step(RecordedCall("gh", path, CreateArgs(options, branch)), CREATE_CONTEXT);
        && runner.calls == old(runner.calls) + [s.call]
        && runner.responses == Drop(old(runner.responses), 1)
        && o == (if Succeeded(ResponseAt(old(runner.responses), 0)) then Pass
                 else Fail(StepError(s, ResponseAt(old(runner.responses), 0))))
    {
      var args := BuildCreateArgs(branch);
      var r := runner.Run("gh", path, args);
      if r.Err? {
        return Fail(CREATE_CONTEXT);
      }
      if !r.value.success {
        return Fail(CommandFailure("gh", args, r.value));
      }
      o := Pass;
    }

    /** The push, when enabled, then the pull request, stopping at the first failure. */
    method PushAndCreate(path: Path, branch: string) returns (o: Outcome)
      modifies runner
      ensures var t := RunSteps(PrSteps(options, path, branch), old(runner.responses));
        && runner.calls == old(runner.calls) + t.calls
        && runner.responses == Drop(old(runner.responses), |t.calls|)
        && o == t.outcome
    {
      ghost var q := runner.responses;
      ghost var steps := PrSteps(options, path, branch);
      if options.push {
        var pushed := PushBranch(path, branch);
        if pushed.Fail? {
          return pushed;
        }
        assert steps[1..] == [steps[1]];
        o := CreatePullRequest(path, branch);
        DropDrop(q, 1, 1);
        assert RunSteps(steps[1..], Drop(q, 1)) == Trace([steps[1].call], o);
      } else {
        o := CreatePullRequest(path, branch);
        assert RunSteps(steps[1..], Drop(q, 1)) == Trace([], Pass);
      }
    }

    /** `execute` once the branch is known. */
    method ExecuteOnBranch(path: Path, branch: string) returns (o: Outcome)
      modifies runner
      ensures var t := PrRunOnBranch(options, path, branch, old(runner.responses));
        && runner.calls == old(runner.calls) + t.calls
        && runner.responses == Drop(old(runner.responses), |t.calls|)
        && o == t.outcome
    {
      if !MetadataOptionsOk(options) {
        assert Drop(runner.responses, 0) == runner.responses;
        return Fail(METADATA_ERROR);
      }
      o := PushAndCreate(path, branch);
    }

    /** `execute` once the worktree is known. */
    method ExecuteIn(path: Path) returns (o: Outcome)
      modifies runner
      ensures var t := PrRunIn(options, path, old(runner.responses));
        && runner.calls == old(runner.calls) + t.calls
        && runner.responses == Drop(old(runner.responses), |t.calls|)
        && o == t.outcome
    {
      ghost var q := runner.responses;
      var branch := DetermineBranch(runner, path);
      if branch.Err? {
        return Fail(branch.error);
      }
      o := ExecuteOnBranch(path, branch.value);
      ghost var t := PrRunOnBranch(options, path, branch.value, Drop(q, 1));
      DropDrop(q, 1, |t.calls|);
    }

    /** `execute`: the calls it makes and its result are those of `PrRun`. */
    method Execute(worktreesDir: Result<Path>, present: bool) returns (o: Outcome)
      modifies runner
      ensures var t := PrRun(options, worktreesDir, present, old(runner.responses));
        && runner.calls == old(runner.calls) + t.calls
        && runner.responses == Drop(old(runner.responses), |t.calls|)
        && o == t.outcome
    {
      var path := WorktreePath(options.name, worktreesDir, present);
      if path.Err? {
        assert Drop(runner.responses, 0) == runner.responses;
        return Fail(path.error);
      }
      o := ExecuteIn(path.value);
    }
  }
}
