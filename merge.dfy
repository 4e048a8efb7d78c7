/**
 * `rsworktree merge <name>`: the older form of `merge-pr-github`. It runs
 * every command inside the worktree, always asks `gh pr merge` to delete
 * the branch, forgives no failure, and neither switches the worktree back
 * nor touches the remote branch.
 */
module Merge {
  import opened Wrappers
  import opened Text
  import opened Paths
  import opened Runner
  import opened PrGithub
  import opened MergePrGithub

  function MergeStep(path: Path, number: nat): Step
  {
    Step(RecordedCall("gh", path, MergeArgs(number, true)), MERGE_CONTEXT)
  }

  /** Once the branch is known: look for its pull request in the worktree, and merge it when there is one. */
  function FindAndMergeHere(path: Path, branch: string, parse: PrListParser, q: seq<Result<CommandOutput>>): Trace
  {
    var list := PrListCall(path, branch);
    match PullRequestFrom(list, ResponseAt(q, 0), parse)
    case Err(e) => Trace([list], Fail(e))
    case Ok(None) => Trace([list], Pass)
    case Ok(Some(n)) => Trace([list, MergeStep(path, n).call], StepOutcome(MergeStep(path, n), ResponseAt(q, 1)))
  }

  /** `execute` once the worktree `path` is known. */
  function MergeRunIn(path: Path, parse: PrListParser, q: seq<Result<CommandOutput>>): Trace
  {
    match BranchFrom(ResponseAt(q, 0))
    case Err(e) => Trace([RevParseCall(path)], Fail(e))
    case Ok(branch) => Prepend(RevParseCall(path), FindAndMergeHere(path, branch, parse, Drop(q, 1)))
  }

  /** `execute`: the calls made and the result. */
  function MergeCommandRun(name: string, worktreesDir: Result<Path>, present: bool, parse: PrListParser, q: seq<Result<CommandOutput>>): Trace
  {
    match WorktreePath(name, worktreesDir, present)
    case Err(e) => Trace([], Fail(e))
    case Ok(path) => MergeRunIn(path, parse, q)
  }

  /** Every call runs in the worktree, and there are at most three of them. */
  lemma AllCallsInWorktree(path: Path, parse: PrListParser, q: seq<Result<CommandOutput>>)
    ensures var t := MergeRunIn(path, parse, q);
      |t.calls| <= 3 && forall i :: 0 <= i < |t.calls| ==> t.calls[i].dir == path
  {
    var b := BranchFrom(ResponseAt(q, 0));
    if b.Ok? {
      var t := FindAndMergeHere(path, b.value, parse, Drop(q, 1));
      assert forall i :: 0 <= i < |t.calls| ==> t.calls[i].dir == path;
    }
  }

  /**
   * The merge always asks for branch deletion, and the command passes
   * exactly when a pull request was found and merged or none was found.
   */
  lemma MergeOutcomeIff(path: Path, branch: string, parse: PrListParser, q: seq<Result<CommandOutput>>)
    ensures var t := FindAndMergeHere(path, branch, parse, q);
      var p := PullRequestFrom(PrListCall(path, branch), ResponseAt(q, 0), parse);
      && (t.outcome.Pass? <==> p.Ok? && (p.value.None? || Succeeded(ResponseAt(q, 1))))
      && (p.Ok? && p.value.Some? ==> t.calls[1].args == MergeArgs(p.value.value, true))
  {
  }

  /** A `gh pr merge` that failed only at deleting the local branch still fails this command. */
  lemma BranchDeleteFailureNotForgiven(path: Path, number: nat, output: CommandOutput)
    requires GhBranchDeleteFailure(output)
    ensures StepOutcome(MergeStep(path, number), Ok(output)).Fail?
    ensures MergeOutcome(MergeStep(path, number).call, Ok(output), true).Pass?
  {
  }

  /** The `merge` command with its runner. */
  class MergeCommand {
    const name: string
    const runner: ScriptedRunner

    constructor (name: string, runner: ScriptedRunner)
      ensures this.name == name && this.runner == runner
    {
      this.name := name;
      this.runner := runner;
    }

    method MergePullRequest(path: Path, number: nat) returns (o: Outcome)
      modifies runner
      ensures runner.calls == old(runner.calls) + [MergeStep(path, number).call]
      ensures runner.responses == Drop(old(runner.responses), 1)
      ensures o == StepOutcome(MergeStep(path, number), ResponseAt(old(runner.responses), 0))
    {
      o := RunStep(runner, MergeStep(path, number));
    }

    /** `execute` once the worktree is known. */
    method ExecuteIn(path: Path, parse: PrListParser) returns (o: Outcome)
      modifies runner
      ensures var t := MergeRunIn(path, parse, old(runner.responses));
        && runner.calls == old(runner.calls) + t.calls
        && runner.responses == Drop(old(runner.responses), |t.calls|)
        && o == t.outcome
    {
      ghost var q := runner.responses;
      var branch := DetermineBranch(runner, path);
      if branch.Err? {
        return Fail(branch.error);
      }
      var pr := FindPullRequest(runner, path, branch.value, parse);
      if pr.Err? {
        DropDrop(q, 1, 1);
        return Fail(pr.error);
      }
      if pr.value.None? {
        DropDrop(q, 1, 1);
        return Pass;
      }
      o := MergePullRequest(path, pr.value.value);
      DropDrop(q, 1, 1);
      DropDrop(q, 2, 1);
      assert ResponseAt(Drop(q, 1), 1) == ResponseAt(q, 2);
    }

    /** `execute`: the calls it makes and its result are those of `MergeCommandRun`. */
    method Execute(worktreesDir: Result<Path>, present: bool, parse: PrListParser) returns (o: Outcome)
      modifies runner
      ensures var t := MergeCommandRun(name, worktreesDir, present, parse, old(runner.responses));
        && runner.calls == old(runner.calls) + t.calls
        && runner.responses == Drop(old(runner.responses), |t.calls|)
        && o == t.outcome
    {
      var path := WorktreePath(name, worktreesDir, present);
      if path.Err? {
        assert Drop(runner.responses, 0) == runner.responses;
        return Fail(path.error);
      }
      o := ExecuteIn(path.value, parse);
    }
  }
}
