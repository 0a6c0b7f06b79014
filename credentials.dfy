/**
 * The credential check (validateCredentials): the nodes that carry a
 * `credentials` object are collected; when there are none a single warning
 * asks for API keys, and otherwise every credential entry that lacks an `id`
 * or a `name` is reported, node by node and key by key. Errors are never
 * produced.
 */
module Credentials {
  import opened Document
  import opened Seqs

  const NO_CREDENTIALS := "No credential configurations found - make sure to set up API keys"

  function MsgIncompleteCredential(nodeName: Option<string>, credType: string): string
  {
    "Node '" + Show(nodeName) + "' has incomplete credential configuration for " + credType
  }

  /** `!cred.id || !cred.name`. */
  predicate Incomplete(c: Credential)
  {
    !Truthy(c.id) || !Truthy(c.name)
  }

  /** `nodes.filter(node => node.credentials)`: the nodes with a credentials object, in order. */
  function CredentialNodes(nodes: seq<Node>): (r: seq<Node>)
    ensures |r| <= |nodes|
    ensures forall k :: 0 <= k < |r| ==> r[k].credentials.Some?
    decreases |nodes|
  {
    if nodes == [] then []
    else
      var last := nodes[|nodes| - 1];
      CredentialNodes(nodes[..|nodes| - 1]) + (if last.credentials.Some? then [last] else [])
  }

  /** The number of entries lacking an id or a name. */
  function IncompleteCount(entries: seq<CredentialEntry>): nat
    decreases |entries|
  {
    if entries == [] then 0
    else IncompleteCount(entries[..|entries| - 1]) + (if Incomplete(entries[|entries| - 1].credential) then 1 else 0)
  }

  /**
   * The warnings for one node's credentials: one per incomplete entry, in key
   * order, and each of them names the node and the key of an incomplete entry.
   */
  function EntryWarnings(nodeName: Option<string>, entries: seq<CredentialEntry>): (r: seq<string>)
    ensures |r| == IncompleteCount(entries)
    decreases |entries|
  {
    if entries == [] then []
    else
      var last := entries[|entries| - 1];
      EntryWarnings(nodeName, entries[..|entries| - 1])
        + (if Incomplete(last.credential) then [MsgIncompleteCredential(nodeName, last.credType)] else [])
  }

  /** A warning of a node is exactly the message for one of its incomplete entries. */
  lemma {:induction false} EntryWarningsName(nodeName: Option<string>, entries: seq<CredentialEntry>, w: string)
    ensures w in EntryWarnings(nodeName, entries) <==>
            exists k :: 0 <= k < |entries| && Incomplete(entries[k].credential)
                        && w == MsgIncompleteCredential(nodeName, entries[k].credType)
    decreases |entries|
  {
    if entries != [] {
      var front := entries[..|entries| - 1];
      EntryWarningsName(nodeName, front, w);
      assert forall k :: 0 <= k < |front| ==> front[k] == entries[k];
    }
  }

  /** The warnings a node contributes; a node without credentials contributes none. */
  function NodeWarnings(node: Node): seq<string>
  {
    if node.credentials.None? then [] else EntryWarnings(node.name, node.credentials.value)
  }

  /** The per-entry warnings of a list of nodes, concatenated in order. */
  function AllCredentialWarnings(nodes: seq<Node>): seq<string>
    decreases |nodes|
  {
    if nodes == [] then [] else AllCredentialWarnings(nodes[..|nodes| - 1]) + NodeWarnings(nodes[|nodes| - 1])
  }

  /** The number of incomplete entries over all nodes that have credentials. */
  function IncompleteEntries(nodes: seq<Node>): nat
    decreases |nodes|
  {
    if nodes == [] then 0
    else
      var last := nodes[|nodes| - 1];
      IncompleteEntries(nodes[..|nodes| - 1]) + (if last.credentials.None? then 0 else IncompleteCount(last.credentials.value))
  }

  /** Every credential entry of every node has an id and a name. */
  ghost predicate AllComplete(nodes: seq<Node>)
  {
    forall i, k :: 0 <= i < |nodes| && nodes[i].credentials.Some? && 0 <= k < |nodes[i].credentials.value|
                   ==> !Incomplete(nodes[i].credentials.value[k].credential)
  }

  lemma {:induction false} IncompleteCountZero(entries: seq<CredentialEntry>)
    ensures IncompleteCount(entries) == 0 <==> forall k :: 0 <= k < |entries| ==> !Incomplete(entries[k].credential)
    decreases |entries|
  {
    if entries != [] {
      var front := entries[..|entries| - 1];
      IncompleteCountZero(front);
      assert forall k :: 0 <= k < |front| ==> front[k] == entries[k];
    }
  }

  /** One warning per incomplete entry, and none exactly when every entry is complete. */
  lemma {:induction false} AllCredentialWarningsCount(nodes: seq<Node>)
    ensures |AllCredentialWarnings(nodes)| == IncompleteEntries(nodes)
    ensures IncompleteEntries(nodes) == 0 <==> AllComplete(nodes)
    decreases |nodes|
  {
    if nodes != [] {
      var front := nodes[..|nodes| - 1];
      var last := nodes[|nodes| - 1];
      AllCredentialWarningsCount(front);
      assert forall i :: 0 <= i < |front| ==> front[i] == nodes[i];
      if last.credentials.Some? {
        IncompleteCountZero(last.credentials.value);
      }
    }
  }

  /** Dropping the nodes without credentials changes no warning. */
  lemma {:induction false} FilterKeepsWarnings(nodes: seq<Node>)
    ensures AllCredentialWarnings(CredentialNodes(nodes)) == AllCredentialWarnings(nodes)
    decreases |nodes|
  {
    if nodes != [] {
      var front := nodes[..|nodes| - 1];
      var last := nodes[|nodes| - 1];
      FilterKeepsWarnings(front);
      var kept := CredentialNodes(front);
      if last.credentials.Some? {
        assert CredentialNodes(nodes) == kept + [last];
        assert (kept + [last])[..|kept + [last]| - 1] == kept;
        assert AllCredentialWarnings(kept + [last]) == AllCredentialWarnings(kept) + NodeWarnings(last);
      } else {
        assert CredentialNodes(nodes) == kept;
        assert NodeWarnings(last) == [];
      }
    }
  }

  /** `w` is the warning for an incomplete credential entry of some node. */
  ghost predicate IncompleteEntryOf(nodes: seq<Node>, w: string)
  {
    exists i, k :: 0 <= i < |nodes| && nodes[i].credentials.Some? && 0 <= k < |nodes[i].credentials.value|
                   && Incomplete(nodes[i].credentials.value[k].credential)
                   && w == MsgIncompleteCredential(nodes[i].name, nodes[i].credentials.value[k].credType)
  }

  function NodeWarningsOf(): Node -> seq<string>
  {
    (node: Node) => NodeWarnings(node)
  }

  lemma {:induction false} AllCredentialWarningsFlat(nodes: seq<Node>)
    ensures AllCredentialWarnings(nodes) == FlatMap(nodes, NodeWarningsOf())
    decreases |nodes|
  {
    if nodes != [] {
      AllCredentialWarningsFlat(nodes[..|nodes| - 1]);
    }
  }

  /** A per-entry warning over all nodes is exactly the warning for one of their incomplete entries. */
  lemma AllCredentialWarningsMembers(nodes: seq<Node>, w: string)
    ensures w in AllCredentialWarnings(nodes) <==> IncompleteEntryOf(nodes, w)
  {
    AllCredentialWarningsFlat(nodes);
    FlatMapMembers(nodes, NodeWarningsOf(), w);
    if w in AllCredentialWarnings(nodes) {
      var i :| 0 <= i < |nodes| && w in NodeWarnings(nodes[i]);
      EntryWarningsName(nodes[i].name, nodes[i].credentials.value, w);
      var k :| 0 <= k < |nodes[i].credentials.value| && Incomplete(nodes[i].credentials.value[k].credential)
               && w == MsgIncompleteCredential(nodes[i].name, nodes[i].credentials.value[k].credType);
    }
    if IncompleteEntryOf(nodes, w) {
      var i, k :| 0 <= i < |nodes| && nodes[i].credentials.Some? && 0 <= k < |nodes[i].credentials.value|
                  && Incomplete(nodes[i].credentials.value[k].credential)
                  && w == MsgIncompleteCredential(nodes[i].name, nodes[i].credentials.value[k].credType);
      EntryWarningsName(nodes[i].name, nodes[i].credentials.value, w);
      assert w in NodeWarnings(nodes[i]);
    }
  }

  lemma AllCredentialWarningsNameEntries(nodes: seq<Node>)
    ensures forall w :: w in AllCredentialWarnings(nodes) <==> IncompleteEntryOf(nodes, w)
  {
    forall w ensures w in AllCredentialWarnings(nodes) <==> IncompleteEntryOf(nodes, w) {
      AllCredentialWarningsMembers(nodes, w);
    }
  }

  /** The nodes list has no node with credentials. */
  ghost predicate NoCredentialNodes(nodes: seq<Node>)
  {
    forall i :: 0 <= i < |nodes| ==> nodes[i].credentials.None?
  }

  /** The filter keeps exactly the nodes whose credentials object is present. */
  lemma {:induction false} CredentialNodesMembers(nodes: seq<Node>, n: Node)
    ensures n in CredentialNodes(nodes) <==> n in nodes && n.credentials.Some?
    decreases |nodes|
  {
    if nodes != [] {
      var front := nodes[..|nodes| - 1];
      CredentialNodesMembers(front, n);
      assert nodes == front + [nodes[|nodes| - 1]];
    }
  }

  lemma CredentialNodesEmpty(nodes: seq<Node>)
    ensures CredentialNodes(nodes) == [] <==> NoCredentialNodes(nodes)
  {
    if CredentialNodes(nodes) != [] {
      var n := CredentialNodes(nodes)[0];
      CredentialNodesMembers(nodes, n);
    }
    if !NoCredentialNodes(nodes) {
      var i :| 0 <= i < |nodes| && nodes[i].credentials.Some?;
      CredentialNodesMembers(nodes, nodes[i]);
    }
  }

  /**
   * validateCredentials as a function of the document. With no credential
   * nodes the only warning asks for API keys; otherwise there is one warning
   * per incomplete entry, so the check is silent exactly when some node has
   * credentials and every entry carries both an id and a name.
   */
  function CredentialsFindings(wf: Workflow): (r: Findings)
    requires wf.nodes.Nodes?
    ensures r.errors == []
    ensures NoCredentialNodes(wf.nodes.items) ==> r.warnings == [NO_CREDENTIALS]
    ensures |r.warnings| == (if NoCredentialNodes(wf.nodes.items) then 1 else 0) + IncompleteEntries(wf.nodes.items)
    ensures r.warnings == [] <==> !NoCredentialNodes(wf.nodes.items) && AllComplete(wf.nodes.items)
    ensures forall w :: w in r.warnings <==>
                          (NoCredentialNodes(wf.nodes.items) && w == NO_CREDENTIALS) || IncompleteEntryOf(wf.nodes.items, w)
  {
    var nodes := wf.nodes.items;
    var credentialNodes := CredentialNodes(nodes);
    CredentialNodesEmpty(nodes);
    FilterKeepsWarnings(nodes);
    AllCredentialWarningsCount(nodes);
    AllCredentialWarningsNameEntries(nodes);
    if credentialNodes == [] then
      assert AllComplete(nodes);
      Findings([], [NO_CREDENTIALS] + AllCredentialWarnings(credentialNodes))
    else
      Findings([], AllCredentialWarnings(credentialNodes))
  }

  lemma AllCredentialWarningsStep(nodes: seq<Node>, i: nat, warnings: seq<string>)
    requires i < |nodes|
    ensures (warnings + AllCredentialWarnings(nodes[..i])) + NodeWarnings(nodes[i])
            == warnings + AllCredentialWarnings(nodes[..i + 1])
  {
    assert nodes[..i + 1][..i] == nodes[..i];
  }

  /** `Object.keys(node.credentials).forEach(credType => ...)` for one node. */
  method CheckNodeCredentials(node: Node, warnings: seq<string>) returns (warns: seq<string>)
    requires node.credentials.Some?
    ensures warns == warnings + NodeWarnings(node)
  {
    var entries := node.credentials.value;
    warns := warnings;
    for k := 0 to |entries|
      invariant warns == warnings + EntryWarnings(node.name, entries[..k])
    {
      var entry := entries[k];
      assert entries[..k + 1][..k] == entries[..k];
      if !Truthy(entry.credential.id) || !Truthy(entry.credential.name) {
        warns := warns + [MsgIncompleteCredential(node.name, entry.credType)];
      }
    }
    assert entries[..|entries|] == entries;
  }

  /** `credentialNodes.forEach(node => ...)`: appends the warnings of every node in turn. */
  method CheckAllCredentials(credentialNodes: seq<Node>, warnings: seq<string>) returns (warns: seq<string>)
    requires forall k :: 0 <= k < |credentialNodes| ==> credentialNodes[k].credentials.Some?
    ensures warns == warnings + AllCredentialWarnings(credentialNodes)
  {
    warns := warnings;
    for i := 0 to |credentialNodes|
      invariant warns == warnings + AllCredentialWarnings(credentialNodes[..i])
    {
      AllCredentialWarningsStep(credentialNodes, i, warnings);
      warns := CheckNodeCredentials(credentialNodes[i], warns);
    }
    assert credentialNodes[..|credentialNodes|] == credentialNodes;
  }

  method ValidateCredentials(wf: Workflow) returns (r: Findings)
    requires wf.nodes.Nodes?
    ensures r == CredentialsFindings(wf)
  {
    var credentialNodes := CredentialNodes(wf.nodes.items);
    var warnings: seq<string> := [];
    if |credentialNodes| == 0 {
      warnings := warnings + [NO_CREDENTIALS];
    }
    warnings := CheckAllCredentials(credentialNodes, warnings);
    return Findings([], warnings);
  }
}
