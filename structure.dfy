/**
 * The structural check of the top-level fields `name`, `nodes` and
 * `connections` (validateWorkflowStructure).
 */
module Structure {
  import opened Document

  const MISSING_NAME := "Workflow is missing a name"
  const MISSING_NODES := "Workflow is missing nodes array"
  const MISSING_CONNECTIONS := "Workflow is missing connections object"

  /**
   * A missing name is reported first; a missing or non-array `nodes` is
   * reported next and ends the check, so `connections` is only looked at when
   * `nodes` is an array. No warnings are ever produced.
   */
  function ValidateWorkflowStructure(wf: Workflow): (r: Findings)
    ensures r.warnings == []
    ensures |r.errors| <= 2
    ensures (MISSING_NAME in r.errors) <==> !Truthy(wf.name)
    ensures (MISSING_NODES in r.errors) <==> !wf.nodes.Nodes?
    ensures (MISSING_CONNECTIONS in r.errors) <==> wf.nodes.Nodes? && wf.connections.None?
    ensures !Truthy(wf.name) ==> r.errors[0] == MISSING_NAME
    ensures !wf.nodes.Nodes? ==> |r.errors| > 0 && r.errors[|r.errors| - 1] == MISSING_NODES
    ensures |r.errors| == (if Truthy(wf.name) then 0 else 1) + (if wf.nodes.Nodes? && wf.connections.Some? then 0 else 1)
  {
    var nameErrors := if Truthy(wf.name) then [] else [MISSING_NAME];
    if !wf.nodes.Nodes? then
      Findings(nameErrors + [MISSING_NODES], [])
    else if wf.connections.None? then
      Findings(nameErrors + [MISSING_CONNECTIONS], [])
    else
      Findings(nameErrors, [])
  }
}
