/**
 * The process runner through which the `pr-github`, `merge` and
 * `merge-pr-github` commands call `git` and `gh`.  The runner is modelled
 * the way the commands' tests drive it: a queue of prepared responses,
 * answered in order, and the list of calls made so far.  Also the error a
 * failed process becomes (`command_failure`) and the run of a sequence of
 * commands that stops at the first one that does not succeed.
 */
module Runner {
  import opened Wrappers
  import opened Text
  import opened Numbers
  import opened Paths
  import opened ShellQuote

  /** What a finished process reports: its output, whether it succeeded, and its exit code (none when killed by a signal). */
  datatype CommandOutput = CommandOutput(stdout: string, stderr: string, success: bool, statusCode: Option<int>)

  /** One call of the runner: the program, the directory it runs in and its arguments. */
  datatype RecordedCall = RecordedCall(program: string, dir: Path, args: seq<string>)

  /** The runner's answer when no response is left. */
  const UNEXPECTED_INVOCATION := "unexpected command invocation"

  /** The answer to the call made when `i` calls have already been answered from `q`. */
  function ResponseAt(q: seq<Result<CommandOutput>>, i: nat): Result<CommandOutput>
  {
    if i < |q| then q[i] else Err(UNEXPECTED_INVOCATION)
  }

  /** The queue left after `n` calls. */
  function Drop(q: seq<Result<CommandOutput>>, n: nat): (r: seq<Result<CommandOutput>>)
    ensures forall i: nat :: ResponseAt(r, i) == ResponseAt(q, n + i)
  {
    if n < |q| then q[n..] else []
  }

  /** Dropping `m` responses and then `n` drops `m + n`. */
  lemma DropDrop(q: seq<Result<CommandOutput>>, m: nat, n: nat)
    ensures Drop(Drop(q, m), n) == Drop(q, m + n)
  {
    if m + n < |q| {
      assert Drop(q, m) == q[m..];
      assert q[m..][n..] == q[m + n..];
    }
  }

  /** A call went through: the runner answered and the process exited successfully. */
  predicate Succeeded(r: Result<CommandOutput>)
  {
    r.Ok? && r.value.success
  }

  /** "exit status N", or "termination by signal" when there is no exit code. */
  function StatusText(code: Option<int>): (t: string)
    ensures code.None? <==> t == "termination by signal"
  {
    match code
    case Some(c) =>
      var t := "exit status " + IntToString(c);
      assert t[0] != "termination by signal"[0];
      t
    case None => "termination by signal"
  }

  /**
   * `command_failure`: "`<command line>` failed with <status>", followed
   * by a newline and the trimmed standard error when that is not empty.
   */
  function CommandFailure(program: string, args: seq<string>, output: CommandOutput): (msg: string)
    ensures var head := "`" + FormatCommand(program, args) + "` failed with " + StatusText(output.statusCode);
      && Text.StartsWith(msg, head)
      && (Trim(output.stderr) == [] <==> msg == head)
      && (Trim(output.stderr) != [] ==> msg[|head|..] == "\n" + Trim(output.stderr))
  {
    var head := "`" + FormatCommand(program, args) + "` failed with " + StatusText(output.statusCode);
    var stderr := Trim(output.stderr);
    if stderr == [] then head
    else
      assert (head + "\n" + stderr)[|head|..] == "\n" + stderr;
      head + "\n" + stderr
  }

  /** The failure message names the command line that failed. */
  lemma CommandFailureNamesCommand(program: string, args: seq<string>, output: CommandOutput)
    ensures Contains(CommandFailure(program, args, output), FormatCommand(program, args))
  {
    var cmd := FormatCommand(program, args);
    var msg := CommandFailure(program, args, output);
    var head := "`" + cmd + "` failed with " + StatusText(output.statusCode);
    assert msg[..|"`" + cmd|] == head[..|"`" + cmd|] == "`" + cmd;
    ContainsAfterPrefix(msg, "`", cmd);
  }

  /**
   * When no word of the command is empty, the failure message is exactly
   * the one the source builds from its own `format_command`.
   */
  lemma CommandFailureMatchesSource(program: string, args: seq<string>, output: CommandOutput)
    requires program != [] && forall i :: 0 <= i < |args| ==> args[i] != []
    ensures var head := "`" + FormatCommandAsWritten(program, args) + "` failed with " + StatusText(output.statusCode);
      var msg := CommandFailure(program, args, output);
      && (Trim(output.stderr) == [] ==> msg == head)
      && (Trim(output.stderr) != [] ==> msg == head + "\n" + Trim(output.stderr))
  {
    FormatCommandAgreesWithSource(program, args);
  }

  /** The test double of the runner: prepared responses, answered in order, and the calls received. */
  class ScriptedRunner {
    var responses: seq<Result<CommandOutput>>
    var calls: seq<RecordedCall>

    constructor (responses: seq<Result<CommandOutput>>)
      ensures this.responses == responses && calls == []
    {
      this.responses := responses;
      calls := [];
    }

    /** Records the call and answers it with the next prepared response. */
    method Run(program: string, dir: Path, args: seq<string>) returns (r: Result<CommandOutput>)
      modifies this
      ensures calls == old(calls) + [RecordedCall(program, dir, args)]
      ensures r == ResponseAt(old(responses), 0)
      ensures responses == Drop(old(responses), 1)
    {
      calls := calls + [RecordedCall(program, dir, args)];
      if responses == [] {
        r := Err(UNEXPECTED_INVOCATION);
      } else {
        r := responses[0];
        responses := responses[1..];
      }
    }
  }

  /** One command of a sequence, with the message that reports the runner itself failing to run it. */
  datatype Step = Step(call: RecordedCall, context: string)

  /** The calls a run made and how it ended. */
  datatype Trace = Trace(calls: seq<RecordedCall>, outcome: Outcome)

  /** The error a call that did not succeed becomes. */
  function StepError(s: Step, r: Result<CommandOutput>): string
    requires !Succeeded(r)
  {
    if r.Err? then s.context else CommandFailure(s.call.program, s.call.args, r.value)
  }

  /** How a single step ends, given the runner's answer. */
  function StepOutcome(s: Step, r: Result<CommandOutput>): (o: Outcome)
    ensures o.Pass? <==> Succeeded(r)
  {
    if Succeeded(r) then Pass else Fail(StepError(s, r))
  }

  /** `c`, followed by the run `t`. */
  function Prepend(c: RecordedCall, t: Trace): Trace
  {
    Trace([c] + t.calls, t.outcome)
  }

  /** The calls of a prepended trace follow the calls already made. */
  lemma PrependAppends(c: seq<RecordedCall>, x: RecordedCall, t: Trace)
    ensures c + [x] + t.calls == c + Prepend(x, t).calls
    ensures |Prepend(x, t).calls| == 1 + |t.calls|
  {
  }

  /** Runs one step: records its call and reports how it ended. */
  method RunStep(runner: ScriptedRunner, s: Step) returns (o: Outcome)
    modifies runner
    ensures runner.calls == old(runner.calls) + [s.call]
    ensures runner.responses == Drop(old(runner.responses), 1)
    ensures o == StepOutcome(s, ResponseAt(old(runner.responses), 0))
  {
    var r := runner.Run(s.call.program, s.call.dir, s.call.args);
    if r.Err? {
      return Fail(s.context);
    }
    if !r.value.success {
      return Fail(CommandFailure(s.call.program, s.call.args, r.value));
    }
    o := Pass;
  }

  function CallsOf(steps: seq<Step>): (r: seq<RecordedCall>)
    ensures |r| == |steps|
    ensures forall i :: 0 <= i < |steps| ==> r[i] == steps[i].call
  {
    if steps == [] then [] else [steps[0].call] + CallsOf(steps[1..])
  }

  /**
   * Runs `steps` in order against the responses `q`; the first step that
   * does not succeed ends the run with its error and nothing after it is
   * called.
   */
  function RunSteps(steps: seq<Step>, q: seq<Result<CommandOutput>>): (t: Trace)
    ensures 1 <= |t.calls| <= |steps| || (t.calls == [] && steps == [])
    decreases |steps|
  {
    if steps == [] then Trace([], Pass)
    else
      var r := ResponseAt(q, 0);
      if !Succeeded(r) then Trace([steps[0].call], Fail(StepError(steps[0], r)))
      else
        var t := RunSteps(steps[1..], Drop(q, 1));
        Trace([steps[0].call] + t.calls, t.outcome)
  }

  /** The calls made are the first steps' calls, in order. */
  lemma {:induction false} RunStepsCallsInOrder(steps: seq<Step>, q: seq<Result<CommandOutput>>)
    ensures var t := RunSteps(steps, q);
      t.calls == CallsOf(steps)[..|t.calls|]
    decreases |steps|
  {
    if steps != [] && Succeeded(ResponseAt(q, 0)) {
      RunStepsCallsInOrder(steps[1..], Drop(q, 1));
      assert CallsOf(steps) == [steps[0].call] + CallsOf(steps[1..]);
    }
  }

  /** A run passes exactly when every step succeeds, and then every step was called. */
  lemma {:induction false} RunStepsPassIff(steps: seq<Step>, q: seq<Result<CommandOutput>>)
    ensures var t := RunSteps(steps, q);
      (t.outcome.Pass? <==> forall i :: 0 <= i < |steps| ==> Succeeded(ResponseAt(q, i)))
      && (t.outcome.Pass? ==> |t.calls| == |steps|)
    decreases |steps|
  {
    if steps != [] && Succeeded(ResponseAt(q, 0)) {
      RunStepsPassIff(steps[1..], Drop(q, 1));
      assert forall i :: 1 <= i < |steps| ==> ResponseAt(q, i) == ResponseAt(Drop(q, 1), i - 1);
    }
  }

  /** A failed run stops at its last call: every call before it succeeded, that one did not, and its error is reported. */
  lemma {:induction false} RunStepsStopsAtFailure(steps: seq<Step>, q: seq<Result<CommandOutput>>)
    ensures var t := RunSteps(steps, q);
      t.outcome.Fail? ==>
        && |t.calls| >= 1
        && (forall i :: 0 <= i < |t.calls| - 1 ==> Succeeded(ResponseAt(q, i)))
        && !Succeeded(ResponseAt(q, |t.calls| - 1))
        && t.outcome.error == StepError(steps[|t.calls| - 1], ResponseAt(q, |t.calls| - 1))
    decreases |steps|
  {
    if steps != [] && Succeeded(ResponseAt(q, 0)) {
      RunStepsStopsAtFailure(steps[1..], Drop(q, 1));
      var t := RunSteps(steps[1..], Drop(q, 1));
      assert forall i :: 1 <= i <= |t.calls| ==> ResponseAt(q, i) == ResponseAt(Drop(q, 1), i - 1);
    }
  }
}
