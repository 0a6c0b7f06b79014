/**
 * Whole-document consequences of the model, and concrete documents worked
 * through every check.
 */
module Scenarios {
  import opened Document
  import Structure
  import Rules
  import NodeChecks
  import Connections
  import Credentials
  import Report

  /**
   * Without a `nodes` array the structural check reports exactly the missing
   * array, preceded by the missing name when there is no name either.
   */
  lemma MissingNodesStructure(wf: Workflow)
    requires !wf.nodes.Nodes?
    ensures Truthy(wf.name) ==> Structure.ValidateWorkflowStructure(wf) == Findings([Structure.MISSING_NODES], [])
    ensures !Truthy(wf.name) ==>
              Structure.ValidateWorkflowStructure(wf) == Findings([Structure.MISSING_NAME, Structure.MISSING_NODES], [])
  {
  }

  /** A missing `connections` is reported twice: by the structural check and by the connection check. */
  lemma MissingConnectionsReportedTwice(wf: Workflow)
    requires wf.nodes.Nodes? && wf.connections.None?
    requires forall j :: 0 <= j < |wf.nodes.items| ==> !NodeChecks.RaisesOn(wf.nodes.items[j])
    ensures Report.RunOf(wf).Finished?
    ensures Structure.MISSING_CONNECTIONS in Report.RunOf(wf).errors
    ensures Connections.NO_CONNECTIONS in Report.RunOf(wf).errors
    ensures Report.RunOf(wf).exitCode == 1
  {
    NodeChecks.NodesOutcomeFacts(wf);
    var s := Structure.ValidateWorkflowStructure(wf);
    var n := NodeChecks.NodesOutcome(wf).findings;
    var c := Connections.ConnectionsFindings(wf);
    var cr := Credentials.CredentialsFindings(wf);
    assert c.errors == [Connections.NO_CONNECTIONS];
    assert Report.RunOf(wf).errors == s.errors + n.errors + c.errors + cr.errors;
    assert Report.RunOf(wf).errors[|s.errors| + |n.errors|] == Connections.NO_CONNECTIONS;
  }

  /** A form trigger none of whose fields is labelled Voice never gets the voice-options warning. */
  lemma NoVoiceFieldNoWarning(node: Node, acc: Findings)
    requires node.parameters.Some?
    requires Rules.FormValues(node.parameters.value).Some?
    requires forall f :: f in Rules.FormValues(node.parameters.value).value ==> f.fieldLabel != Some("Voice")
    ensures Rules.FormTriggerRule(node, acc).warnings == acc.warnings
  {
    var values := Rules.FormValues(node.parameters.value).value;
    assert forall i :: 0 <= i < |values| ==> values[i] in values;
    assert !Rules.VoiceOptionsEmpty(values);
  }

  /** An empty named document with an empty connections object. */
  const EMPTY_WORKFLOW := Workflow(Some("X"), Nodes([]), Some([]))

  /**
   * It passes: no errors, the recommended-type warning for each of the four
   * types in order, then the missing-credentials warning, and exit status 0.
   */
  lemma EmptyWorkflowPasses()
    ensures var run := Report.RunOf(EMPTY_WORKFLOW);
            && run == Report.Finished([], run.warnings, 0)
            && |run.warnings| == 5
            && (forall i :: 0 <= i < 4 ==> run.warnings[i] == NodeChecks.MsgTypeMissing(NodeChecks.REQUIRED_NODE_TYPES[i]))
            && run.warnings[4] == Credentials.NO_CREDENTIALS
  {
    var recommended := NodeChecks.MissingTypeWarnings([], NodeChecks.REQUIRED_NODE_TYPES);
    NothingPresent(NodeChecks.REQUIRED_NODE_TYPES);
    var nodes := [];
    assert NodeChecks.NodeTypes(nodes) == [];
    assert NodeChecks.NodesOutcome(EMPTY_WORKFLOW) == Completed(Findings([], recommended));
    assert Connections.ConnectionsFindings(EMPTY_WORKFLOW) == Findings([], []);
    assert Credentials.CredentialsFindings(EMPTY_WORKFLOW) == Findings([], [Credentials.NO_CREDENTIALS]);
    assert Structure.ValidateWorkflowStructure(EMPTY_WORKFLOW) == Findings([], []);
    var run := Report.RunOf(EMPTY_WORKFLOW);
    assert run.errors == [] + [] + [] + [];
    assert run.warnings == [] + recommended + [] + [Credentials.NO_CREDENTIALS];
    DropEmpty(recommended, [Credentials.NO_CREDENTIALS]);
  }

  /** Split out of EmptyWorkflowPasses, which is over the resource limit with this step inlined. */
  lemma DropEmpty(a: seq<string>, b: seq<string>)
    ensures [] + a + [] + b == a + b
  {
  }

  /** With no node at all, every required type gets its warning, in order. */
  lemma {:induction false} NothingPresent(required: seq<string>)
    ensures var w := NodeChecks.MissingTypeWarnings([], required);
            |w| == |required| && forall i :: 0 <= i < |w| ==> w[i] == NodeChecks.MsgTypeMissing(required[i])
    decreases |required|
  {
    if required != [] {
      var front := required[..|required| - 1];
      var last := required[|required| - 1];
      NothingPresent(front);
      NothingPresentStep(required);
      ExtendPointwise(NodeChecks.MissingTypeWarnings([], required), NodeChecks.MissingTypeWarnings([], front), required);
    }
  }

  /** The index step of NothingPresent, kept apart so that its proof does not see the warnings' definition. */
  lemma ExtendPointwise(w: seq<string>, earlier: seq<string>, required: seq<string>)
    requires required != []
    requires w == earlier + [NodeChecks.MsgTypeMissing(required[|required| - 1])]
    requires |earlier| == |required| - 1
    requires forall i :: 0 <= i < |earlier| ==> earlier[i] == NodeChecks.MsgTypeMissing(required[..|required| - 1][i])
    ensures |w| == |required| && forall i :: 0 <= i < |w| ==> w[i] == NodeChecks.MsgTypeMissing(required[i])
  {
  }

  /** The unfolding step of NothingPresent, kept apart because inlined it pushes that proof over the resource limit. */
  lemma NothingPresentStep(required: seq<string>)
    requires required != []
    ensures NodeChecks.MissingTypeWarnings([], required)
            == NodeChecks.MissingTypeWarnings([], required[..|required| - 1]) + [NodeChecks.MsgTypeMissing(required[|required| - 1])]
  {
    assert Some(required[|required| - 1]) !in [];
  }

  /** A connection from a source key that names no node gives exactly that one error. */
  lemma UnknownSourceReported(nodes: seq<Node>, ports: seq<Port>)
    requires forall i :: 0 <= i < |nodes| ==> nodes[i].name != Some("A")
    requires forall p, g, e :: 0 <= p < |ports| && 0 <= g < |ports[p].groups| && 0 <= e < |ports[p].groups[g]|
                               ==> ports[p].groups[g][e].node in Connections.NodeNames(nodes)
    ensures Connections.ConnectionsFindings(Workflow(Some("X"), Nodes(nodes), Some([SourceEntry("A", ports)])))
            == Findings([Connections.MsgUnknownSource("A")], [])
  {
    var names := Connections.NodeNames(nodes);
    assert Some("A") !in names;
    Connections.NoUnresolvedInPorts(names, ports);
    var conns := [SourceEntry("A", ports)];
    assert conns[..0] == [];
    assert |Connections.PortErrors(names, ports)| == 0;
  }

  /** An S3 upload with a bucket but no file name has exactly the file-name error; a download has none. */
  lemma S3UploadNeedsFileName(name: Option<string>, bucket: string, fileName: Option<string>, acc: Findings)
    requires bucket != "" && !Truthy(fileName)
    ensures var p := Parameters(None, None, None, None, None, Some(bucket), Some("upload"), fileName);
            Rules.S3Rule(Node(Some("1"), name, Some(NodeChecks.S3_TYPE), Some(p), None), acc)
            == Findings(acc.errors + [Rules.MsgS3MissingFile(name)], acc.warnings)
    ensures var p := Parameters(None, None, None, None, None, Some(bucket), Some("download"), fileName);
            Rules.S3Rule(Node(Some("1"), name, Some(NodeChecks.S3_TYPE), Some(p), None), acc) == acc
  {
  }
}
