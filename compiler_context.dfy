/**
 * The compiler context (`CompilerContext::CompilerContextImpl` in
 * dpcomp/src/compiler/compiler.cpp): runs the stage schedule on a module
 * with a handler that collects error diagnostics, and turns a failed run
 * into one report holding the collected errors and a dump of the module.
 */
module CompilerContext {
  import opened Diagnostics
  import opened PipelineStage
  import opened PassSchedule

  /** How a `run` call ends: normally, with the failure report raised, or with its stage budget spent. */
  datatype Outcome = Completed | PipelineFailed(message: string) | BudgetSpent

  const FailureHeader: string := "MLIR pipeline failed\n"

  /**
   * The report a failed run raises: the header, the errors collected while
   * the schedule ran, a line break and the dump of the module as the failing
   * stage left it.
   */
  function FailureReport(captured: string, dump: string): (r: string)
    ensures |r| == |FailureHeader| + |captured| + 1 + |dump|
    ensures r[..|FailureHeader|] == FailureHeader
    ensures r[|FailureHeader|..|FailureHeader| + |captured|] == captured
    ensures r[|r| - |dump| - 1] == '\n' && r[|r| - |dump|..] == dump
  {
    FailureHeader + captured + "\n" + dump
  }

  /** What `run` does with the schedule's execution `e`, given how modules are rendered as text. */
  function OutcomeOf(e: Execution, render: Artifact -> string): (r: Outcome)
    ensures r == BudgetSpent <==> e.status == OutOfFuel
    ensures r.PipelineFailed? ==>
              var m, dump := r.message, render(e.final);
              e.status == Failed && |m| == |FailureHeader| + |Captured(e.diags)| + 1 + |dump| &&
              m[..|FailureHeader|] == FailureHeader && m[|FailureHeader|..|m| - |dump| - 1] == Captured(e.diags) &&
              m[|m| - |dump| - 1] == '\n' && m[|m| - |dump|..] == dump
  {
    match e.status
    case Succeeded => Completed
    case OutOfFuel => BudgetSpent
    case Failed => PipelineFailed(FailureReport(Captured(e.diags), render(e.final)))
  }

  /** A report is raised exactly when a stage failed; errors raised by a run that succeeds are dropped. */
  lemma ReportOnlyOnFailure(e: Execution, render: Artifact -> string)
    ensures OutcomeOf(e, render).PipelineFailed? <==> e.status == Failed
    ensures e.status == Succeeded ==> OutcomeOf(e, render) == Completed
  {
  }

  /**
   * The report depends on the error diagnostics alone: dropping every note,
   * warning and remark the stages raised leaves it unchanged.
   */
  lemma ReportIgnoresNonErrors(e: Execution, render: Artifact -> string)
    ensures OutcomeOf(e, render) == OutcomeOf(e.(diags := ErrorsOf(e.diags)), render)
  {
    CapturedKeepsOnlyErrors(e.diags);
  }

  /** A failed run without error diagnostics reports the header, a line break and the module dump. */
  lemma SilentFailureReportsDump(e: Execution, render: Artifact -> string)
    requires e.status == Failed
    requires forall k :: 0 <= k < |e.diags| ==> e.diags[k].severity != Error
    ensures OutcomeOf(e, render) == PipelineFailed(FailureHeader + "\n" + render(e.final))
  {
    CapturedWithoutErrors(e.diags);
  }

  class Context {
    const schedule: PassManagerSchedule

    constructor (decls: seq<StageDecl>)
      requires WellFormed(decls)
      ensures schedule.Valid() && schedule.Graph() == BuiltGraph(decls)
    {
      schedule := new PassManagerSchedule(decls);
    }

    /**
     * `run`: a fresh handler collects the diagnostics while the schedule
     * runs; on failure a line break and the module dump are appended to the
     * collected text and the whole is reported.
     */
    method Run(op: ModuleOp, render: Artifact -> string, fuel: nat) returns (r: Outcome)
      requires schedule.Valid() && |schedule.stages| > 0
      modifies op
      ensures var e := Execute(schedule.Graph(), 0, old(op.State()), fuel);
              op.State() == e.final && r == OutcomeOf(e, render)
    {
      ghost var e := Execute(schedule.Graph(), 0, op.State(), fuel);
      var handler := new DiagnosticHandler();
      var status := schedule.Run(op, handler, fuel);
      assert status == e.status && op.State() == e.final && handler.err == Captured(e.diags);
      if status == Failed {
        var err := handler.err + "\n" + render(op.State());
        assert FailureHeader + err == FailureReport(handler.err, render(op.State()));
        r := PipelineFailed(FailureHeader + err);
      } else {
        r := if status == Succeeded then Completed else BudgetSpent;
      }
    }
  }
}
