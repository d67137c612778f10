/**
 Nested progress accounting: a stack of weighted steps, innermost first. A failed
 assertion or nesting check of the program is the result Abort. Percentages are
 real numbers.
 */
module Progress {
  import opened Wrappers

  datatype Step = Step(
    name: string,
    weight: int,
    substepsTotal: int,
    substepsDone: int,
    percentTotal: real,
    percentDone: real,
    lastExplicit: int)

  type Stack = seq<Step>

  /** The new stack, and the percentage passed to the callback, if any. */
  datatype Outcome = Next(stack: Stack, report: Option<real>) | Abort

  /** Conversion of a float to an integer in an assertion: toward zero. */
  function Trunc(x: real): int {
    if x >= 0.0 then x.Floor else -((-x).Floor)
  }

  /** What `weight` of `substeps` equal parts of a percentage are worth. */
  function Share(weight: int, total: real, substeps: int): real
    requires substeps > 0
  {
    (weight as real) * total / (substeps as real)
  }

  function PercentOf(total: real, percent: int): real {
    total * (percent as real / 100.0)
  }

  function Level(stack: Stack): real {
    if stack == [] then 0.0 else stack[0].percentDone + Level(stack[1..])
  }

  /** What is reported for this stack: everything done below the innermost step, at most 99 before the end. */
  function Reported(stack: Stack): real
    requires stack != []
  {
    var sum := if |stack| == 1 then stack[0].percentDone else Level(stack[1..]);
    if stack[0].percentDone < 100.0 && sum > 99.0 then 99.0 else sum
  }

  function Send(stack: Stack, after: Stack): Outcome
    requires stack != []
  {
    if Trunc(Reported(stack)) <= 100 then Next(after, Some(Reported(stack))) else Abort
  }

  function BeginStep(stack: Stack, name: string, substeps: int, weight: int): Outcome {
    if stack == [] then
      var s := [Step(name, weight, substeps, 0, 100.0, 0.0, 0)];
      Send(s, s)
    else
      var parent := stack[0];
      if parent.substepsTotal <= 0 || parent.substepsTotal == parent.substepsDone then Abort
      else
        var total := Share(weight, parent.percentTotal, parent.substepsTotal);
        if Trunc(total) > Trunc(parent.percentTotal) || Trunc(total) > 100 then Abort
        else
          var s := [Step(name, weight, substeps, 0, total, 0.0, 0)] + stack;
          Send(s, s)
  }

  /** The stack after an explicit percentage of the innermost step. */
  function WithPercentage(stack: Stack, percent: int): Stack
    requires |stack| >= 2
  {
    var done := PercentOf(stack[0].percentTotal, percent - stack[0].lastExplicit);
    [stack[0].(percentDone := done, lastExplicit := percent),
     stack[1].(percentDone := stack[1].percentDone + done)] + stack[2..]
  }

  /** An explicit percentage of a step without a parent reads behind the end of the stack. */
  function SetStepPercentage(stack: Stack, name: string, percent: int): Outcome {
    if |stack| < 2 || stack[0].name != name || stack[0].substepsTotal != 0 then Abort
    else
      var s := WithPercentage(stack, percent);
      if percent == 100 then Next(s, None) else Send(s, s)
  }

  /** The finished innermost step, and its parent with the step counted and its percentage credited. */
  function Finished(stack: Stack): Stack
    requires |stack| >= 2
  {
    var closed := stack[0].(percentDone := stack[0].percentTotal, substepsDone := stack[0].substepsTotal);
    var parent := stack[1].(substepsDone := stack[1].substepsDone + closed.weight);
    if closed.lastExplicit != 0 then WithPercentage([closed, parent] + stack[2..], 100)
    else [closed, parent.(percentDone := parent.percentDone + closed.percentDone)] + stack[2..]
  }

  function EndStep(stack: Stack, name: string, success: bool): Outcome {
    if stack == [] then Abort
    else
      var step := stack[0];
      if step.substepsDone > step.substepsTotal then Abort
      else if success && step.substepsDone < step.substepsTotal then Abort
      else if step.name != name then Abort
      else if |stack| == 1 then
        Send([step.(percentDone := step.percentTotal, substepsDone := step.substepsTotal)], [])
      else if step.lastExplicit != 0 && step.substepsTotal != 0 then Abort
      else
        var s := Finished(stack);
        if Trunc(s[0].percentDone) > Trunc(s[1].percentDone) then Abort
        else Send(s, s[1..])
  }

  // ---- the context -----------------------------------------------------------------

  class Context {
    var progress: Stack

    constructor ()
      ensures progress == []
    {
      progress := [];
    }

    /** Sums up the finished percentages of all steps but the innermost. */
    method SendProgress() returns (report: Option<real>)
      requires progress != []
      ensures report == if Trunc(Reported(progress)) <= 100 then Some(Reported(progress)) else None
    {
      var step := progress[0];
      var percentage := 0.0;
      if |progress| == 1 {
        percentage := step.percentDone;
      }
      for i := 1 to |progress|
        invariant |progress| > 1 ==> percentage + Level(progress[i..]) == Level(progress[1..])
        invariant |progress| == 1 ==> percentage == step.percentDone
      {
        percentage := percentage + progress[i].percentDone;
      }
      if step.percentDone < 100.0 && percentage > 99.0 {
        percentage := 99.0;
      }
      if Trunc(percentage) > 100 {
        return None;
      }
      return Some(percentage);
    }

    method BeginStepWeighted(name: string, substeps: int, weight: int) returns (r: Outcome)
      modifies this
      ensures r == BeginStep(old(progress), name, substeps, weight)
      ensures r.Next? ==> progress == r.stack
    {
      var step := Step(name, weight, substeps, 0, 0.0, 0.0, 0);
      if progress != [] {
        var parent := progress[0];
        if !(parent.substepsTotal > 0) {
          return Abort;
        }
        if parent.substepsTotal == parent.substepsDone {
          return Abort;
        }
        step := step.(percentTotal := Share(weight, parent.percentTotal, parent.substepsTotal));
        if Trunc(step.percentTotal) > Trunc(parent.percentTotal) {
          return Abort;
        }
        if Trunc(step.percentTotal) > 100 {
          return Abort;
        }
      } else {
        step := step.(percentTotal := 100.0);
      }
      progress := [step] + progress;
      var report := SendProgress();
      return if report.Some? then Next(progress, report) else Abort;
    }

    method SetPercentage(name: string, customPercent: int) returns (r: Outcome)
      modifies this
      ensures r == SetStepPercentage(old(progress), name, customPercent)
      ensures r.Next? ==> progress == r.stack
    {
      if |progress| < 2 {
        return Abort;
      }
      var step, parent := progress[0], progress[1];
      if step.name != name {
        return Abort;
      }
      if step.substepsTotal != 0 {
        return Abort;
      }
      var percentDifference := customPercent - step.lastExplicit;
      step := step.(percentDone := PercentOf(step.percentTotal, percentDifference));
      parent := parent.(percentDone := parent.percentDone + step.percentDone);
      step := step.(lastExplicit := customPercent);
      progress := [step, parent] + progress[2..];
      assert progress == WithPercentage(old(progress), customPercent);
      if customPercent != 100 {
        var report := SendProgress();
        return if report.Some? then Next(progress, report) else Abort;
      }
      return Next(progress, None);
    }

    /** Counts the finished innermost step in its parent and credits its percentage. */
    method CreditParent(step: Step) returns (ok: bool)
      requires |progress| >= 2
      requires step == progress[0].(percentDone := progress[0].percentTotal, substepsDone := progress[0].substepsTotal)
      modifies this
      ensures ok <==> step.lastExplicit == 0 || step.substepsTotal == 0
      ensures ok ==> progress == Finished(old(progress))
    {
      var parent := progress[1];
      parent := parent.(substepsDone := parent.substepsDone + step.weight);
      if step.lastExplicit != 0 {
        progress := [step, parent] + progress[2..];
        assert progress[2..] == old(progress)[2..];
        var last := SetPercentage(step.name, 100);
        ok := last.Next?;
      } else {
        progress := [step, parent.(percentDone := parent.percentDone + step.percentDone)] + progress[2..];
        ok := true;
      }
    }

    method End(name: string, success: bool) returns (r: Outcome)
      modifies this
      ensures r == EndStep(old(progress), name, success)
      ensures r.Next? ==> progress == r.stack
    {
      if progress == [] {
        return Abort;
      }
      var step := progress[0];
      step := step.(percentDone := step.percentTotal);
      if step.substepsDone > step.substepsTotal {
        return Abort;
      }
      if success && step.substepsDone < step.substepsTotal {
        return Abort;
      }
      if !success {
        step := step.(substepsDone := step.substepsTotal);
      }
      if step.name != name {
        return Abort;
      }
      if |progress| >= 2 {
        var credited := CreditParent(step);
        if !credited {
          return Abort;
        }
        if Trunc(progress[0].percentDone) > Trunc(progress[1].percentDone) {
          return Abort;
        }
      } else {
        progress := [step];
      }
      var report := SendProgress();
      progress := progress[1..];
      return if report.Some? then Next(progress, report) else Abort;
    }
  }
}
