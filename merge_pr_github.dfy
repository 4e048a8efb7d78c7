/**
 * `rsworktree merge-pr-github <name>`: find the open pull request for the
 * worktree's branch with `gh pr list`, merge it with `gh pr merge` (asking
 * `gh` to delete the local branch unless that is disabled), switch the
 * worktree back to its branch, and delete the remote branch when asked.
 * `gh` runs in the repository root, `git switch` in the worktree.
 */
module MergePrGithub {
  import opened Wrappers
  import opened Text
  import opened Numbers
  import opened Paths
  import opened Runner
  import opened PrGithub

  /**
   * `serde_json::from_str::<Vec<PullRequestInfo>>` on the trimmed output of
   * `gh pr list --json number`: the listed pull request numbers, or `None`
   * when the text is not such a JSON list.
   */
  type PrListParser = string -> Option<seq<nat>>

  // ---------------------------------------------------------------------
  // Finding the pull request
  // ---------------------------------------------------------------------

  const PR_LIST_CONTEXT := "failed to run `gh pr list`"
  const PR_LIST_PARSE_ERROR := "failed to parse `gh pr list` output as JSON"

  /** At most one open pull request whose head is `branch`, as JSON with its number. */
  function PrListArgs(branch: string): seq<string>
  {
    ["pr", "list", "--head", branch, "--state", "open", "--json", "number", "--limit", "1"]
  }

  function PrListCall(dir: Path, branch: string): RecordedCall
  {
    RecordedCall("gh", dir, PrListArgs(branch))
  }

  /**
   * `find_pull_request`, given the runner's answer to `call`: no pull
   * request for empty output or an empty list, otherwise the first one
   * listed; unreadable output is an error.
   */
  function PullRequestFrom(call: RecordedCall, r: Result<CommandOutput>, parse: PrListParser): (p: Result<Option<nat>>)
    ensures p.Ok? ==> Succeeded(r)
    ensures Succeeded(r) && Trim(r.value.stdout) == [] ==> p == Ok(None)
    ensures p.Ok? && p.value.Some? <==>
      && Succeeded(r) && Trim(r.value.stdout) != []
      && parse(Trim(r.value.stdout)).Some? && parse(Trim(r.value.stdout)).value != []
    ensures p.Ok? && p.value.Some? ==> p.value.value == parse(Trim(r.value.stdout)).value[0]
    ensures Succeeded(r) && Trim(r.value.stdout) != [] && parse(Trim(r.value.stdout)).None? ==> p == Err(PR_LIST_PARSE_ERROR)
  {
    if r.Err? then Err(PR_LIST_CONTEXT)
    else if !r.value.success then Err(CommandFailure(call.program, call.args, r.value))
    else
      var stdout := Trim(r.value.stdout);
      if stdout == [] then Ok(None)
      else
        match parse(stdout)
        case None => Err(PR_LIST_PARSE_ERROR)
        case Some(prs) => Ok(if prs == [] then None else Some(prs[0]))
  }

  // ---------------------------------------------------------------------
  // What `gh` and `git` report
  // ---------------------------------------------------------------------

  /**
   * `gh_branch_delete_failure`: `gh pr merge` failed, and its standard
   * error, read without regard to case, says the local branch could not be
   * deleted.
   */
  predicate GhBranchDeleteFailure(output: CommandOutput)
  {
    var stderr := ToLower(output.stderr);
    !output.success
    && (Contains(stderr, "failed to delete local branch") || Contains(stderr, "cannot delete branch"))
  }

  /**
   * `remote_branch_already_gone`: `git push --delete` failed, and its
   * standard error followed by its standard output, read without regard
   * to case, says the remote ref does not exist.
   */
  predicate RemoteBranchAlreadyGone(output: CommandOutput)
  {
    !output.success && Contains(ToLower(output.stderr + output.stdout), "remote ref does not exist")
  }

  /** Neither check reacts to the case of the text. */
  lemma ReportsIgnoreCase(output: CommandOutput)
    ensures GhBranchDeleteFailure(output) == GhBranchDeleteFailure(output.(stderr := ToLower(output.stderr)))
    ensures RemoteBranchAlreadyGone(output)
      == RemoteBranchAlreadyGone(output.(stderr := ToLower(output.stderr), stdout := ToLower(output.stdout)))
  {
    ToLowerIdempotent(output.stderr);
    ToLowerAppend(output.stderr, output.stdout);
    ToLowerAppend(ToLower(output.stderr), ToLower(output.stdout));
    ToLowerIdempotent(output.stderr + output.stdout);
  }

  /** The phrase counts in either stream of a failed push. */
  lemma RemoteGoneInEitherStream(output: CommandOutput)
    requires !output.success
    requires Contains(ToLower(output.stderr), "remote ref does not exist")
      || Contains(ToLower(output.stdout), "remote ref does not exist")
    ensures RemoteBranchAlreadyGone(output)
  {
    ToLowerAppend(output.stderr, output.stdout);
    if Contains(ToLower(output.stderr), "remote ref does not exist") {
      ContainsAppend(ToLower(output.stderr), ToLower(output.stdout), "remote ref does not exist");
    } else {
      ContainsPrepend(ToLower(output.stderr), ToLower(output.stdout), "remote ref does not exist");
    }
  }

  // ---------------------------------------------------------------------
  // Merging, restoring the branch, deleting the remote branch
  // ---------------------------------------------------------------------

  const MERGE_CONTEXT := "failed to run `gh pr merge`"
  const SWITCH_CONTEXT := "failed to restore worktree branch with `git switch`"
  const DELETE_REMOTE_CONTEXT := "failed to delete remote branch with `git push`"

  /** `gh pr merge <number> --merge`, with `--delete-branch` when the local branch is to go. */
  function MergeArgs(number: nat, removeLocal: bool): seq<string>
  {
    ["pr", "merge", Decimal(number), "--merge"] + (if removeLocal then ["--delete-branch"] else [])
  }

  /** The merge call names the pull request by its number and asks for branch deletion exactly when told to. */
  lemma MergeArgsLayout(number: nat, removeLocal: bool)
    ensures var args := MergeArgs(number, removeLocal);
      && args[..4] == ["pr", "merge", Decimal(number), "--merge"]
      && DigitsValue(args[2], 10) == number
      && ("--delete-branch" in args <==> removeLocal)
  {
    DecimalRoundTrip(number);
    var args := MergeArgs(number, removeLocal);
    assert forall i :: 0 <= i < |Decimal(number)| ==> '0' <= Decimal(number)[i] <= '9';
    assert Decimal(number) != "--delete-branch" by {
      assert "--delete-branch"[0] == '-';
    }
    if !removeLocal {
      assert args == ["pr", "merge", Decimal(number), "--merge"];
    }
  }

  /**
   * How `merge_pull_request` judges the answer to `gh pr merge`: a failure
   * is forgiven only when branch deletion was requested and it is that
   * deletion which failed.
   */
  function MergeOutcome(call: RecordedCall, r: Result<CommandOutput>, removeLocal: bool): (o: Outcome)
    ensures o.Pass? <==> r.Ok? && (r.value.success || (removeLocal && GhBranchDeleteFailure(r.value)))
    ensures r.Err? ==> o == Fail(MERGE_CONTEXT)
  {
    if r.Err? then Fail(MERGE_CONTEXT)
    else if !r.value.success && !(removeLocal && GhBranchDeleteFailure(r.value)) then
      Fail(CommandFailure(call.program, call.args, r.value))
    else Pass
  }

  function DeleteRemoteArgs(branch: string): seq<string>
  {
    ["push", "origin", "--delete", branch]
  }

  /** `delete_remote_branch`'s judgement: a remote branch that is already gone is not an error. */
  function DeleteRemoteOutcome(call: RecordedCall, r: Result<CommandOutput>): (o: Outcome)
    ensures o.Pass? <==> r.Ok? && (r.value.success || RemoteBranchAlreadyGone(r.value))
    ensures r.Err? ==> o == Fail(DELETE_REMOTE_CONTEXT)
  {
    if r.Err? then Fail(DELETE_REMOTE_CONTEXT)
    else if !r.value.success && !RemoteBranchAlreadyGone(r.value) then
      Fail(CommandFailure(call.program, call.args, r.value))
    else Pass
  }

  function SwitchStep(path: Path, branch: string): Step
  {
    Step(RecordedCall("git", path, ["switch", branch]), SWITCH_CONTEXT)
  }

  function DeleteRemoteCall(root: Path, branch: string): RecordedCall
  {
    RecordedCall("git", root, DeleteRemoteArgs(branch))
  }

  /** After the merge: switch the worktree back to its branch, then delete the remote branch when asked. */
  function AfterMerge(removeRemote: bool, path: Path, root: Path, branch: string, q: seq<Result<CommandOutput>>): Trace
  {
    var switch := SwitchStep(path, branch);
    if !Succeeded(ResponseAt(q, 0)) then Trace([switch.call], StepOutcome(switch, ResponseAt(q, 0)))
    else if !removeRemote then Trace([switch.call], Pass)
    else
      var del := DeleteRemoteCall(root, branch);
      Trace([switch.call, del], DeleteRemoteOutcome(del, ResponseAt(q, 1)))
  }

  /** The settings of a `MergePrGithubCommand`. */
  datatype MergeOptions = MergeOptions(name: string, removeLocal: bool, removeRemote: bool)

  /** `merge_pull_request` for pull request `number`. */
  function MergeRun(o: MergeOptions, path: Path, root: Path, branch: string, number: nat, q: seq<Result<CommandOutput>>): Trace
  {
    var merge := RecordedCall("gh", root, MergeArgs(number, o.removeLocal));
    var m := MergeOutcome(merge, ResponseAt(q, 0), o.removeLocal);
    if m.Fail? then Trace([merge], m)
    else Prepend(merge, AfterMerge(o.removeRemote, path, root, branch, Drop(q, 1)))
  }

  /** Once the branch is known: look for its pull request, and merge it when there is one. */
  function FindAndMerge(o: MergeOptions, path: Path, root: Path, branch: string, parse: PrListParser, q: seq<Result<CommandOutput>>): Trace
  {
    var list := PrListCall(root, branch);
    match PullRequestFrom(list, ResponseAt(q, 0), parse)
    case Err(e) => Trace([list], Fail(e))
    case Ok(None) => Trace([list], Pass)
    case Ok(Some(n)) => Prepend(list, MergeRun(o, path, root, branch, n, Drop(q, 1)))
  }

  /** `execute` once the worktree `path` is known; `root` is the repository root. */
  function MergePrRunIn(o: MergeOptions, path: Path, root: Path, parse: PrListParser, q: seq<Result<CommandOutput>>): Trace
  {
    match BranchFrom(ResponseAt(q, 0))
    case Err(e) => Trace([RevParseCall(path)], Fail(e))
    case Ok(branch) => Prepend(RevParseCall(path), FindAndMerge(o, path, root, branch, parse, Drop(q, 1)))
  }

  /** `execute`: the calls made and the result. */
  function MergePrRun(o: MergeOptions, worktreesDir: Result<Path>, present: bool, root: Path, parse: PrListParser, q: seq<Result<CommandOutput>>): Trace
  {
    match WorktreePath(o.name, worktreesDir, present)
    case Err(e) => Trace([], Fail(e))
    case Ok(path) => MergePrRunIn(o, path, root, parse, q)
  }

  /** Without an open pull request nothing is merged, and the command succeeds after two calls. */
  lemma NoPullRequestNoMerge(o: MergeOptions, path: Path, root: Path, parse: PrListParser, q: seq<Result<CommandOutput>>)
    requires BranchFrom(ResponseAt(q, 0)).Ok?
    requires PullRequestFrom(PrListCall(root, BranchFrom(ResponseAt(q, 0)).value), ResponseAt(q, 1), parse) == Ok(None)
    ensures MergePrRunIn(o, path, root, parse, q)
      == Trace([RevParseCall(path), PrListCall(root, BranchFrom(ResponseAt(q, 0)).value)], Pass)
  {
    assert ResponseAt(Drop(q, 1), 0) == ResponseAt(q, 1);
  }

  /**
   * When every call goes through, the calls are: rev-parse in the worktree,
   * the pull request lookup and the merge in the root, `git switch` back in
   * the worktree, and, only when asked, the remote branch deletion in the
   * root.
   */
  lemma MergeSequence(o: MergeOptions, path: Path, root: Path, parse: PrListParser, q: seq<Result<CommandOutput>>, branch: string, number: nat)
    requires BranchFrom(ResponseAt(q, 0)) == Ok(branch)
    requires PullRequestFrom(PrListCall(root, branch), ResponseAt(q, 1), parse) == Ok(Some(number))
    requires MergeOutcome(RecordedCall("gh", root, MergeArgs(number, o.removeLocal)), ResponseAt(q, 2), o.removeLocal).Pass?
    requires Succeeded(ResponseAt(q, 3))
    requires o.removeRemote ==> DeleteRemoteOutcome(DeleteRemoteCall(root, branch), ResponseAt(q, 4)).Pass?
    ensures MergePrRunIn(o, path, root, parse, q) == Trace(
      [RevParseCall(path), PrListCall(root, branch), RecordedCall("gh", root, MergeArgs(number, o.removeLocal)),
       RecordedCall("git", path, ["switch", branch])]
      + (if o.removeRemote then [DeleteRemoteCall(root, branch)] else []),
      Pass)
  {
    var q1 := Drop(q, 1);
    var q2 := Drop(q1, 1);
    var q3 := Drop(q2, 1);
    assert ResponseAt(q1, 0) == ResponseAt(q, 1);
    assert ResponseAt(q2, 0) == ResponseAt(q, 2);
    assert ResponseAt(q3, 0) == ResponseAt(q, 3);
    assert ResponseAt(q3, 1) == ResponseAt(q, 4);
  }

  /** A merge that fails for any reason but the local branch deletion stops the command: the worktree is not switched. */
  lemma FailedMergeStops(o: MergeOptions, path: Path, root: Path, branch: string, number: nat, q: seq<Result<CommandOutput>>)
    requires !(ResponseAt(q, 0).Ok? && ResponseAt(q, 0).value.success)
    requires !(o.removeLocal && ResponseAt(q, 0).Ok? && GhBranchDeleteFailure(ResponseAt(q, 0).value))
    ensures var t := MergeRun(o, path, root, branch, number, q);
      t.calls == [RecordedCall("gh", root, MergeArgs(number, o.removeLocal))] && t.outcome.Fail?
  {
  }

  /** `find_pull_request`: asks `gh pr list` in `dir` for the open pull request of `branch`. */
  method FindPullRequest(runner: ScriptedRunner, dir: Path, branch: string, parse: PrListParser) returns (p: Result<Option<nat>>)
    modifies runner
    ensures runner.calls == old(runner.calls) + [PrListCall(dir, branch)]
    ensures runner.responses == Drop(old(runner.responses), 1)
    ensures p == PullRequestFrom(PrListCall(dir, branch), ResponseAt(old(runner.responses), 0), parse)
  {
    var args := PrListArgs(branch);
    var r := runner.Run("gh", dir, args);
    if r.Err? {
      return Err(PR_LIST_CONTEXT);
    }
    if !r.value.success {
      return Err(CommandFailure("gh", args, r.value));
    }
    var stdout := Trim(r.value.stdout);
    if stdout == [] {
      return Ok(None);
    }
    var prs := parse(stdout);
    if prs.None? {
      return Err(PR_LIST_PARSE_ERROR);
    }
    p := Ok(if prs.value == [] then None else Some(prs.value[0]));
  }

  /** The `merge-pr-github` command with its runner. */
  class MergePrGithubCommand {
    const name: string
    var removeLocal: bool
    var removeRemote: bool
    const runner: ScriptedRunner

    /** `with_runner`: deletes the local branch, keeps the remote one. */
    constructor (name: string, runner: ScriptedRunner)
      ensures this.name == name && this.runner == runner
      ensures removeLocal && !removeRemote
    {
      this.name := name;
      this.runner := runner;
      removeLocal := true;
      removeRemote := false;
    }

    function Options(): MergeOptions
      reads this
    {
      MergeOptions(name, removeLocal, removeRemote)
    }

    method DisableRemoveLocal()
      modifies this
      ensures Options() == old(Options()).(removeLocal := false)
    {
      removeLocal := false;
    }

    method EnableRemoveRemote()
      modifies this
      ensures Options() == old(Options()).(removeRemote := true)
    {
      removeRemote := true;
    }

    method RestoreWorktreeBranch(path: Path, branch: string) returns (o: Outcome)
      modifies runner
      ensures runner.calls == old(runner.calls) + [SwitchStep(path, branch).call]
      ensures runner.responses == Drop(old(runner.responses), 1)
      ensures o == StepOutcome(SwitchStep(path, branch), ResponseAt(old(runner.responses), 0))
    {
      o := RunStep(runner, SwitchStep(path, branch));
    }

    method DeleteRemoteBranch(root: Path, branch: string) returns (o: Outcome)
      modifies runner
      ensures runner.calls == old(runner.calls) + [DeleteRemoteCall(root, branch)]
      ensures runner.responses == Drop(old(runner.responses), 1)
      ensures o == DeleteRemoteOutcome(DeleteRemoteCall(root, branch), ResponseAt(old(runner.responses), 0))
    {
      var args := DeleteRemoteArgs(branch);
      var r := runner.Run("git", root, args);
      if r.Err? {
        return Fail(DELETE_REMOTE_CONTEXT);
      }
      if !r.value.success {
        if RemoteBranchAlreadyGone(r.value) {
          return Pass;
        }
        return Fail(CommandFailure("git", args, r.value));
      }
      o := Pass;
    }

    /** The steps after a successful merge. */
    method FinishMerge(path: Path, root: Path, branch: string) returns (o: Outcome)
      modifies runner
      ensures var t := AfterMerge(removeRemote, path, root, branch, old(runner.responses));
        && runner.calls == old(runner.calls) + t.calls
        && runner.responses == Drop(old(runner.responses), |t.calls|)
        && o == t.outcome
    {
      ghost var q, c := runner.responses, runner.calls;
      o := RestoreWorktreeBranch(path, branch);
      if o.Fail? || !removeRemote {
        return;
      }
      ghost var switch := SwitchStep(path, branch).call;
      assert Succeeded(ResponseAt(q, 0));
      o := DeleteRemoteBranch(root, branch);
      DropDrop(q, 1, 1);
      assert ResponseAt(Drop(q, 1), 0) == ResponseAt(q, 1);
      assert runner.calls == c + [switch, DeleteRemoteCall(root, branch)];
    }

    /** `gh pr merge <number> --merge [--delete-branch]`, and its verdict. */
    method RunMerge(root: Path, number: nat) returns (o: Outcome)
      modifies runner
      ensures var call := RecordedCall("gh", root, MergeArgs(number, removeLocal));
        && runner.calls == old(runner.calls) + [call]
        && runner.responses == Drop(old(runner.responses), 1)
        && o == MergeOutcome(call, ResponseAt(old(runner.responses), 0), removeLocal)
    {
      var args := ["pr", "merge", Decimal(number), "--merge"];
      if removeLocal {
        args := args + ["--delete-branch"];
      }
      assert args == MergeArgs(number, removeLocal);
      var r := runner.Run("gh", root, args);
      if r.Err? {
        return Fail(MERGE_CONTEXT);
      }
      var branchDeleteFailed := removeLocal && GhBranchDeleteFailure(r.value);
      if !r.value.success && !branchDeleteFailed {
        return Fail(CommandFailure("gh", args, r.value));
      }
      o := Pass;
    }

    method MergePullRequest(root: Path, branch: string, path: Path, number: nat) returns (o: Outcome)
      modifies runner
      ensures var t := MergeRun(Options(), path, root, branch, number, old(runner.responses));
        && runner.calls == old(runner.calls) + t.calls
        && runner.responses == Drop(old(runner.responses), |t.calls|)
        && o == t.outcome
    {
      ghost var q := runner.responses;
      var merged := RunMerge(root, number);
      if merged.Fail? {
        return merged;
      }
      o := FinishMerge(path, root, branch);
      ghost var t := AfterMerge(removeRemote, path, root, branch, Drop(q, 1));
      DropDrop(q, 1, |t.calls|);
    }

    /** Once the branch is known. */
    method FindAndMergeOnBranch(path: Path, root: Path, branch: string, parse: PrListParser) returns (o: Outcome)
      modifies runner
      ensures var t := FindAndMerge(Options(), path, root, branch, parse, old(runner.responses));
        && runner.calls == old(runner.calls) + t.calls
        && runner.responses == Drop(old(runner.responses), |t.calls|)
        && o == t.outcome
    {
      ghost var q := runner.responses;
      var pr := FindPullRequest(runner, root, branch, parse);
      if pr.Err? {
        return Fail(pr.error);
      }
      if pr.value.None? {
        return Pass;
      }
      o := MergePullRequest(root, branch, path, pr.value.value);
      ghost var t := MergeRun(Options(), path, root, branch, pr.value.value, Drop(q, 1));
      DropDrop(q, 1, |t.calls|);
    }

    /** `execute` once the worktree is known. */
    method ExecuteIn(path: Path, root: Path, parse: PrListParser) returns (o: Outcome)
      modifies runner
      ensures var t := MergePrRunIn(Options(), path, root, parse, old(runner.responses));
        && runner.calls == old(runner.calls) + t.calls
        && runner.responses == Drop(old(runner.responses), |t.calls|)
        && o == t.outcome
    {
      ghost var q, c := runner.responses, runner.calls;
      var branch := DetermineBranch(runner, path);
      if branch.Err? {
        return Fail(branch.error);
      }
      o := FindAndMergeOnBranch(path, root, branch.value, parse);
      ghost var t := FindAndMerge(Options(), path, root, branch.value, parse, Drop(q, 1));
      assert MergePrRunIn(Options(), path, root, parse, q) == Prepend(RevParseCall(path), t);
      PrependAppends(c, RevParseCall(path), t);
      DropDrop(q, 1, |t.calls|);
    }

    /** `execute`: the calls it makes and its result are those of `MergePrRun`. */
    method Execute(worktreesDir: Result<Path>, present: bool, root: Path, parse: PrListParser) returns (o: Outcome)
      modifies runner
      ensures var t := MergePrRun(Options(), worktreesDir, present, root, parse, old(runner.responses));
        && runner.calls == old(runner.calls) + t.calls
        && runner.responses == Drop(old(runner.responses), |t.calls|)
        && o == t.outcome
    {
      var path := WorktreePath(name, worktreesDir, present);
      if path.Err? {
        assert Drop(runner.responses, 0) == runner.responses;
        return Fail(path.error);
      }
      o := ExecuteIn(path.value, root, parse);
    }
  }
}
