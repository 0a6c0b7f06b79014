/**
 * The run of the validator as a whole (main and generateReport): the four
 * checks are applied in turn to the loaded document, their errors and their
 * warnings are concatenated in that order, and the exit status is decided from
 * the combined lists. The console report itself is not modelled.
 */
module Report {
  import opened Document
  import Structure
  import NodeChecks
  import Connections
  import Credentials

  /**
   * The value generateReport returns: 0 when there is nothing to report or
   * only warnings, 1 as soon as there is an error.
   */
  function ExitCode(errors: seq<string>, warnings: seq<string>): (code: int)
    ensures code == 0 || code == 1
    ensures code == 0 <==> errors == []
  {
    if |errors| == 0 && |warnings| == 0 then 0
    else if |errors| > 0 then 1
    else 0
  }

  /**
   * How a run ends: `Crashed` when a TypeError escapes main (Node's
   * uncaught-exception handler then exits with status 1 and no report is
   * printed; the model does not carry that status), or
   * `Finished` with the combined lists and the exit status the report chose.
   */
  datatype Run = Crashed | Finished(errors: seq<string>, warnings: seq<string>, exitCode: int)

  /**
   * The run as a function of the document. Without a `nodes` array the run
   * raises (reading `workflow.nodes.length`, or mapping over a value that is
   * not an array); it also raises when a node's rule raises. Otherwise its
   * lists are the four stages' lists, in order.
   */
  function RunOf(wf: Workflow): (run: Run)
    ensures run.Crashed? <==> !wf.nodes.Nodes? || NodeChecks.NodesOutcome(wf).Threw?
    ensures run.Finished? ==> run.exitCode == ExitCode(run.errors, run.warnings)
  {
    if !wf.nodes.Nodes? || NodeChecks.NodesOutcome(wf).Threw? then Crashed
    else
      var structure := Structure.ValidateWorkflowStructure(wf);
      var nodes := NodeChecks.NodesOutcome(wf).findings;
      var connections := Connections.ConnectionsFindings(wf);
      var credentials := Credentials.CredentialsFindings(wf);
      var errors := structure.errors + nodes.errors + connections.errors + credentials.errors;
      var warnings := structure.warnings + nodes.warnings + connections.warnings + credentials.warnings;
      Finished(errors, warnings, ExitCode(errors, warnings))
  }

  /**
   * When nodes is an array and no node's rule raises, the run finishes, and it
   * fails exactly when one of the four checks reported an
   * error; its errors start with the structural ones and its warnings with the
   * recommended-type ones of the node check.
   */
  lemma RunOutcome(wf: Workflow)
    requires wf.nodes.Nodes?
    requires forall j :: 0 <= j < |wf.nodes.items| ==> !NodeChecks.RaisesOn(wf.nodes.items[j])
    ensures RunOf(wf).Finished?
    ensures var run := RunOf(wf);
            && (run.exitCode == 1 <==>
                  || Structure.ValidateWorkflowStructure(wf).errors != []
                  || NodeChecks.NodesOutcome(wf).findings.errors != []
                  || Connections.ConnectionsFindings(wf).errors != [])
            && Structure.ValidateWorkflowStructure(wf).errors <= run.errors
            && NodeChecks.MissingTypeWarnings(NodeChecks.NodeTypes(wf.nodes.items), NodeChecks.REQUIRED_NODE_TYPES) <= run.warnings
  {
    NodeChecks.NodesOutcomeFacts(wf);
    var s := Structure.ValidateWorkflowStructure(wf);
    var n := NodeChecks.NodesOutcome(wf).findings;
    var c := Connections.ConnectionsFindings(wf);
    var cr := Credentials.CredentialsFindings(wf);
    var run := RunOf(wf);
    assert run.errors == s.errors + n.errors + c.errors + cr.errors;
    assert run.warnings == s.warnings + n.warnings + c.warnings + cr.warnings;
    assert s.warnings == [];
    assert cr.errors == [];
  }

  /**
   * main: load (the document is the parameter here), apply the four checks in
   * the order of the `validations` array, concatenate, and decide the exit status.
   */
  method ValidateWorkflow(wf: Workflow) returns (run: Run)
    ensures run == RunOf(wf)
  {
    if !wf.nodes.Nodes? {
      return Crashed;
    }
    var allErrors: seq<string> := [];
    var allWarnings: seq<string> := [];

    var structure := Structure.ValidateWorkflowStructure(wf);
    allErrors, allWarnings := allErrors + structure.errors, allWarnings + structure.warnings;
    assert allErrors == structure.errors && allWarnings == structure.warnings;

    var nodes := NodeChecks.ValidateNodes(wf);
    if nodes.Threw? {
      return Crashed;
    }
    allErrors, allWarnings := allErrors + nodes.findings.errors, allWarnings + nodes.findings.warnings;

    var connections := Connections.ValidateConnections(wf);
    allErrors, allWarnings := allErrors + connections.errors, allWarnings + connections.warnings;

    var credentials := Credentials.ValidateCredentials(wf);
    allErrors, allWarnings := allErrors + credentials.errors, allWarnings + credentials.warnings;

    var exitCode := ExitCode(allErrors, allWarnings);
    return Finished(allErrors, allWarnings, exitCode);
  }
}
