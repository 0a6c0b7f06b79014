/**
 * The connection check (validateConnections): `connections` is an adjacency
 * structure keyed by source node name, then by output type, holding groups of
 * wires whose `node` names the target. Every source key and every target name
 * must be the `name` of some node.
 */
module Connections {
  import opened Document
  import opened Seqs

  const NO_CONNECTIONS := "No connections defined in workflow"

  function MsgUnknownSource(source: string): string
  {
    "Connection references non-existent source node: " + source
  }

  function MsgUnknownTarget(target: Option<string>): string
  {
    "Connection references non-existent target node: " + Show(target)
  }

  /** `workflow.nodes.map(node => node.name)`. */
  function NodeNames(nodes: seq<Node>): seq<Option<string>>
  {
    seq(|nodes|, i requires 0 <= i < |nodes| => nodes[i].name)
  }

  // ---------------------------------------------------------------------------
  // How many references do not resolve, level by level

  function UnresolvedInGroup(names: seq<Option<string>>, group: seq<Connection>): (n: nat)
    ensures n <= |group|
    decreases |group|
  {
    if group == [] then 0
    else UnresolvedInGroup(names, group[..|group| - 1]) + (if group[|group| - 1].node in names then 0 else 1)
  }

  function UnresolvedInGroups(names: seq<Option<string>>, groups: seq<seq<Connection>>): nat
    decreases |groups|
  {
    if groups == [] then 0
    else UnresolvedInGroups(names, groups[..|groups| - 1]) + UnresolvedInGroup(names, groups[|groups| - 1])
  }

  function UnresolvedInPorts(names: seq<Option<string>>, ports: seq<Port>): nat
    decreases |ports|
  {
    if ports == [] then 0
    else UnresolvedInPorts(names, ports[..|ports| - 1]) + UnresolvedInGroups(names, ports[|ports| - 1].groups)
  }

  /** The number of target entries, over all sources, ports and groups, naming no node. */
  function UnresolvedTargets(names: seq<Option<string>>, conns: seq<SourceEntry>): nat
    decreases |conns|
  {
    if conns == [] then 0
    else UnresolvedTargets(names, conns[..|conns| - 1]) + UnresolvedInPorts(names, conns[|conns| - 1].ports)
  }

  /** The number of source keys naming no node. */
  function UnresolvedSources(names: seq<Option<string>>, conns: seq<SourceEntry>): (n: nat)
    ensures n <= |conns|
    decreases |conns|
  {
    if conns == [] then 0
    else UnresolvedSources(names, conns[..|conns| - 1]) + (if Some(conns[|conns| - 1].source) in names then 0 else 1)
  }

  lemma {:induction false} NoUnresolvedInGroup(names: seq<Option<string>>, group: seq<Connection>)
    ensures UnresolvedInGroup(names, group) == 0 <==> forall e :: 0 <= e < |group| ==> group[e].node in names
    decreases |group|
  {
    if group != [] {
      var front := group[..|group| - 1];
      NoUnresolvedInGroup(names, front);
      assert forall e :: 0 <= e < |front| ==> front[e] == group[e];
    }
  }

  lemma {:induction false} NoUnresolvedInGroups(names: seq<Option<string>>, groups: seq<seq<Connection>>)
    ensures UnresolvedInGroups(names, groups) == 0 <==>
            forall g, e :: 0 <= g < |groups| && 0 <= e < |groups[g]| ==> groups[g][e].node in names
    decreases |groups|
  {
    if groups != [] {
      var front := groups[..|groups| - 1];
      NoUnresolvedInGroups(names, front);
      NoUnresolvedInGroup(names, groups[|groups| - 1]);
      assert forall g :: 0 <= g < |front| ==> front[g] == groups[g];
    }
  }

  lemma {:induction false} NoUnresolvedInPorts(names: seq<Option<string>>, ports: seq<Port>)
    ensures UnresolvedInPorts(names, ports) == 0 <==>
            forall p, g, e :: 0 <= p < |ports| && 0 <= g < |ports[p].groups| && 0 <= e < |ports[p].groups[g]|
                              ==> ports[p].groups[g][e].node in names
    decreases |ports|
  {
    if ports != [] {
      var front := ports[..|ports| - 1];
      NoUnresolvedInPorts(names, front);
      NoUnresolvedInGroups(names, ports[|ports| - 1].groups);
      assert forall p :: 0 <= p < |front| ==> front[p] == ports[p];
    }
  }

  lemma {:induction false} NoUnresolvedTargets(names: seq<Option<string>>, conns: seq<SourceEntry>)
    ensures UnresolvedTargets(names, conns) == 0 <==>
            forall i, p, g, e :: 0 <= i < |conns| && 0 <= p < |conns[i].ports|
                                 && 0 <= g < |conns[i].ports[p].groups| && 0 <= e < |conns[i].ports[p].groups[g]|
                                 ==> conns[i].ports[p].groups[g][e].node in names
    decreases |conns|
  {
    if conns != [] {
      var front := conns[..|conns| - 1];
      NoUnresolvedTargets(names, front);
      NoUnresolvedInPorts(names, conns[|conns| - 1].ports);
      assert forall i :: 0 <= i < |front| ==> front[i] == conns[i];
    }
  }

  lemma {:induction false} NoUnresolvedSources(names: seq<Option<string>>, conns: seq<SourceEntry>)
    ensures UnresolvedSources(names, conns) == 0 <==> forall i :: 0 <= i < |conns| ==> Some(conns[i].source) in names
    decreases |conns|
  {
    if conns != [] {
      var front := conns[..|conns| - 1];
      NoUnresolvedSources(names, front);
      assert forall i :: 0 <= i < |front| ==> front[i] == conns[i];
    }
  }

  /** Referential integrity: every source key and every target names a node. */
  ghost predicate AllResolved(names: seq<Option<string>>, conns: seq<SourceEntry>)
  {
    && (forall i :: 0 <= i < |conns| ==> Some(conns[i].source) in names)
    && (forall i, p, g, e :: 0 <= i < |conns| && 0 <= p < |conns[i].ports|
                             && 0 <= g < |conns[i].ports[p].groups| && 0 <= e < |conns[i].ports[p].groups[g]|
                             ==> conns[i].ports[p].groups[g][e].node in names)
  }

  // ---------------------------------------------------------------------------
  // The errors, level by level, in traversal order

  /** One error per wire of the group whose target names no node. */
  function TargetErrors(names: seq<Option<string>>, group: seq<Connection>): (r: seq<string>)
    ensures |r| == UnresolvedInGroup(names, group)
    decreases |group|
  {
    if group == [] then []
    else
      var last := group[|group| - 1];
      TargetErrors(names, group[..|group| - 1]) + (if last.node in names then [] else [MsgUnknownTarget(last.node)])
  }

  function GroupErrors(names: seq<Option<string>>, groups: seq<seq<Connection>>): (r: seq<string>)
    ensures |r| == UnresolvedInGroups(names, groups)
    decreases |groups|
  {
    if groups == [] then [] else GroupErrors(names, groups[..|groups| - 1]) + TargetErrors(names, groups[|groups| - 1])
  }

  function PortErrors(names: seq<Option<string>>, ports: seq<Port>): (r: seq<string>)
    ensures |r| == UnresolvedInPorts(names, ports)
    decreases |ports|
  {
    if ports == [] then [] else PortErrors(names, ports[..|ports| - 1]) + GroupErrors(names, ports[|ports| - 1].groups)
  }

  /** The errors for one source key: its own, if it names no node, then those of its targets. */
  function SourceErrors(names: seq<Option<string>>, entry: SourceEntry): (r: seq<string>)
    ensures |r| == (if Some(entry.source) in names then 0 else 1) + UnresolvedInPorts(names, entry.ports)
  {
    (if Some(entry.source) in names then [] else [MsgUnknownSource(entry.source)]) + PortErrors(names, entry.ports)
  }

  /** The errors over all keys: one per unresolved source key plus one per unresolved target. */
  function EntriesErrors(names: seq<Option<string>>, conns: seq<SourceEntry>): (r: seq<string>)
    ensures |r| == UnresolvedSources(names, conns) + UnresolvedTargets(names, conns)
    decreases |conns|
  {
    if conns == [] then [] else EntriesErrors(names, conns[..|conns| - 1]) + SourceErrors(names, conns[|conns| - 1])
  }

  // ---------------------------------------------------------------------------
  // What the errors say: each names an unresolved reference, and each
  // unresolved reference is named

  /** `m` is the error for a wire, under any port and group, whose target names no node. */
  ghost predicate UnknownTargetIn(names: seq<Option<string>>, ports: seq<Port>, m: string)
  {
    exists p, g, e :: 0 <= p < |ports| && 0 <= g < |ports[p].groups| && 0 <= e < |ports[p].groups[g]|
                      && ports[p].groups[g][e].node !in names && m == MsgUnknownTarget(ports[p].groups[g][e].node)
  }

  /**
   * `m` is the error for an unresolved reference of `conns`: a source key that
   * names no node, or a wire under some source key whose target names no node.
   */
  ghost predicate UnknownReference(names: seq<Option<string>>, conns: seq<SourceEntry>, m: string)
  {
    exists i :: 0 <= i < |conns|
                && ((Some(conns[i].source) !in names && m == MsgUnknownSource(conns[i].source))
                    || UnknownTargetIn(names, conns[i].ports, m))
  }

  /** The error, if any, for one wire. */
  function WireErrorsOf(names: seq<Option<string>>): Connection -> seq<string>
  {
    (c: Connection) => if c.node in names then [] else [MsgUnknownTarget(c.node)]
  }

  function TargetErrorsOf(names: seq<Option<string>>): seq<Connection> -> seq<string>
  {
    (group: seq<Connection>) => TargetErrors(names, group)
  }

  function GroupErrorsOf(names: seq<Option<string>>): Port -> seq<string>
  {
    (port: Port) => GroupErrors(names, port.groups)
  }

  function SourceErrorsOf(names: seq<Option<string>>): SourceEntry -> seq<string>
  {
    (entry: SourceEntry) => SourceErrors(names, entry)
  }

  lemma {:induction false} TargetErrorsFlat(names: seq<Option<string>>, group: seq<Connection>)
    ensures TargetErrors(names, group) == FlatMap(group, WireErrorsOf(names))
    decreases |group|
  {
    if group != [] {
      TargetErrorsFlat(names, group[..|group| - 1]);
    }
  }

  lemma {:induction false} GroupErrorsFlat(names: seq<Option<string>>, groups: seq<seq<Connection>>)
    ensures GroupErrors(names, groups) == FlatMap(groups, TargetErrorsOf(names))
    decreases |groups|
  {
    if groups != [] {
      GroupErrorsFlat(names, groups[..|groups| - 1]);
    }
  }

  lemma {:induction false} PortErrorsFlat(names: seq<Option<string>>, ports: seq<Port>)
    ensures PortErrors(names, ports) == FlatMap(ports, GroupErrorsOf(names))
    decreases |ports|
  {
    if ports != [] {
      PortErrorsFlat(names, ports[..|ports| - 1]);
    }
  }

  lemma {:induction false} EntriesErrorsFlat(names: seq<Option<string>>, conns: seq<SourceEntry>)
    ensures EntriesErrors(names, conns) == FlatMap(conns, SourceErrorsOf(names))
    decreases |conns|
  {
    if conns != [] {
      EntriesErrorsFlat(names, conns[..|conns| - 1]);
    }
  }

  /** An error of a group names one of its wires whose target is unresolved. */
  lemma TargetErrorsMembers(names: seq<Option<string>>, group: seq<Connection>, m: string)
    ensures m in TargetErrors(names, group) <==>
            exists e :: 0 <= e < |group| && group[e].node !in names && m == MsgUnknownTarget(group[e].node)
  {
    TargetErrorsFlat(names, group);
    FlatMapMembers(group, WireErrorsOf(names), m);
  }

  lemma GroupErrorsMembers(names: seq<Option<string>>, groups: seq<seq<Connection>>, m: string)
    ensures m in GroupErrors(names, groups) <==> exists g :: 0 <= g < |groups| && m in TargetErrors(names, groups[g])
  {
    GroupErrorsFlat(names, groups);
    FlatMapMembers(groups, TargetErrorsOf(names), m);
  }

  lemma PortErrorsMembers(names: seq<Option<string>>, ports: seq<Port>, m: string)
    ensures m in PortErrors(names, ports) <==> exists p :: 0 <= p < |ports| && m in GroupErrors(names, ports[p].groups)
  {
    PortErrorsFlat(names, ports);
    FlatMapMembers(ports, GroupErrorsOf(names), m);
  }

  lemma EntriesErrorsSources(names: seq<Option<string>>, conns: seq<SourceEntry>, m: string)
    ensures m in EntriesErrors(names, conns) <==> exists i :: 0 <= i < |conns| && m in SourceErrors(names, conns[i])
  {
    EntriesErrorsFlat(names, conns);
    FlatMapMembers(conns, SourceErrorsOf(names), m);
  }

  /** An error over a source's ports names a wire, under some port and group, whose target is unresolved. */
  lemma PortErrorsTargets(names: seq<Option<string>>, ports: seq<Port>, m: string)
    ensures m in PortErrors(names, ports) <==> UnknownTargetIn(names, ports, m)
  {
    PortErrorsMembers(names, ports, m);
    if m in PortErrors(names, ports) {
      var p :| 0 <= p < |ports| && m in GroupErrors(names, ports[p].groups);
      GroupErrorsMembers(names, ports[p].groups, m);
      var g :| 0 <= g < |ports[p].groups| && m in TargetErrors(names, ports[p].groups[g]);
      TargetErrorsMembers(names, ports[p].groups[g], m);
      var e :| 0 <= e < |ports[p].groups[g]| && ports[p].groups[g][e].node !in names
               && m == MsgUnknownTarget(ports[p].groups[g][e].node);
    }
    if UnknownTargetIn(names, ports, m) {
      var p, g, e :| 0 <= p < |ports| && 0 <= g < |ports[p].groups| && 0 <= e < |ports[p].groups[g]|
                     && ports[p].groups[g][e].node !in names && m == MsgUnknownTarget(ports[p].groups[g][e].node);
      TargetErrorsMembers(names, ports[p].groups[g], m);
      GroupErrorsMembers(names, ports[p].groups, m);
    }
  }

  /** An error of the connection check is exactly the error for one of its unresolved references. */
  lemma EntriesErrorsMembers(names: seq<Option<string>>, conns: seq<SourceEntry>, m: string)
    ensures m in EntriesErrors(names, conns) <==> UnknownReference(names, conns, m)
  {
    EntriesErrorsSources(names, conns, m);
    if m in EntriesErrors(names, conns) {
      var i :| 0 <= i < |conns| && m in SourceErrors(names, conns[i]);
      PortErrorsTargets(names, conns[i].ports, m);
    }
    if UnknownReference(names, conns, m) {
      var i :| 0 <= i < |conns|
               && ((Some(conns[i].source) !in names && m == MsgUnknownSource(conns[i].source))
                   || UnknownTargetIn(names, conns[i].ports, m));
      PortErrorsTargets(names, conns[i].ports, m);
      assert m in SourceErrors(names, conns[i]);
    }
  }

  /** Every error of the connection check names an unresolved reference, and every unresolved reference is reported. */
  lemma EntriesErrorsNameReferences(names: seq<Option<string>>, conns: seq<SourceEntry>)
    ensures forall m :: m in EntriesErrors(names, conns) <==> UnknownReference(names, conns, m)
  {
    forall m ensures m in EntriesErrors(names, conns) <==> UnknownReference(names, conns, m) {
      EntriesErrorsMembers(names, conns, m);
    }
  }

  /**
   * validateConnections as a function of the document. Without `connections`
   * there is exactly one error. Otherwise there is one error per unresolved
   * source key plus one per unresolved target entry, so there are none exactly
   * when referential integrity holds. There are never warnings.
   */
  function ConnectionsFindings(wf: Workflow): (r: Findings)
    requires wf.connections.None? || wf.nodes.Nodes?
    ensures r.warnings == []
    ensures wf.connections.None? ==> r.errors == [NO_CONNECTIONS]
    ensures wf.connections.Some? ==>
              var names := NodeNames(wf.nodes.items);
              var conns := wf.connections.value;
              && |r.errors| == UnresolvedSources(names, conns) + UnresolvedTargets(names, conns)
              && (r.errors == [] <==> AllResolved(names, conns))
              && (forall m :: m in r.errors <==> UnknownReference(names, conns, m))
  {
    if wf.connections.None? then Findings([NO_CONNECTIONS], [])
    else
      EntriesErrorsNameReferences(NodeNames(wf.nodes.items), wf.connections.value);
      NoUnresolvedSources(NodeNames(wf.nodes.items), wf.connections.value);
      NoUnresolvedTargets(NodeNames(wf.nodes.items), wf.connections.value);
      Findings(EntriesErrors(NodeNames(wf.nodes.items), wf.connections.value), [])
  }

  /** Appending the errors of group `g` to those of the groups before it gives those up to `g`. */
  lemma GroupErrorsStep(names: seq<Option<string>>, groups: seq<seq<Connection>>, g: nat, errors: seq<string>)
    requires g < |groups|
    ensures (errors + GroupErrors(names, groups[..g])) + TargetErrors(names, groups[g])
            == errors + GroupErrors(names, groups[..g + 1])
  {
    assert groups[..g + 1][..g] == groups[..g];
  }

  lemma PortErrorsStep(names: seq<Option<string>>, ports: seq<Port>, p: nat, errors: seq<string>)
    requires p < |ports|
    ensures (errors + PortErrors(names, ports[..p])) + GroupErrors(names, ports[p].groups)
            == errors + PortErrors(names, ports[..p + 1])
  {
    assert ports[..p + 1][..p] == ports[..p];
  }

  lemma EntriesErrorsStep(names: seq<Option<string>>, conns: seq<SourceEntry>, i: nat)
    requires i < |conns|
    ensures EntriesErrors(names, conns[..i]) + SourceErrors(names, conns[i]) == EntriesErrors(names, conns[..i + 1])
  {
    assert conns[..i + 1][..i] == conns[..i];
  }

  /** `connectionGroup.forEach(connection => ...)`: appends the errors of one group. */
  method CheckGroup(nodeNames: seq<Option<string>>, group: seq<Connection>, errors: seq<string>)
    returns (errs: seq<string>)
    ensures errs == errors + TargetErrors(nodeNames, group)
  {
    errs := errors;
    for e := 0 to |group|
      invariant errs == errors + TargetErrors(nodeNames, group[..e])
    {
      var connection := group[e];
      assert group[..e + 1][..e] == group[..e];
      if connection.node !in nodeNames {
        errs := errs + [MsgUnknownTarget(connection.node)];
      }
    }
    assert group[..|group|] == group;
  }

  /** `connections[outputType].forEach(connectionGroup => ...)`: appends the errors of one port. */
  method CheckPort(nodeNames: seq<Option<string>>, groups: seq<seq<Connection>>, errors: seq<string>)
    returns (errs: seq<string>)
    ensures errs == errors + GroupErrors(nodeNames, groups)
  {
    errs := errors;
    for g := 0 to |groups|
      invariant errs == errors + GroupErrors(nodeNames, groups[..g])
    {
      GroupErrorsStep(nodeNames, groups, g, errors);
      errs := CheckGroup(nodeNames, groups[g], errs);
    }
    assert groups[..|groups|] == groups;
  }

  /** `Object.keys(connections[source]).forEach(outputType => ...)`: appends the errors of every port. */
  method CheckPorts(nodeNames: seq<Option<string>>, ports: seq<Port>, errors: seq<string>)
    returns (errs: seq<string>)
    ensures errs == errors + PortErrors(nodeNames, ports)
  {
    errs := errors;
    for p := 0 to |ports|
      invariant errs == errors + PortErrors(nodeNames, ports[..p])
    {
      PortErrorsStep(nodeNames, ports, p, errors);
      errs := CheckPort(nodeNames, ports[p].groups, errs);
    }
    assert ports[..|ports|] == ports;
  }

  /** The callback for one source key: its own check, then those of its ports. */
  method CheckSource(nodeNames: seq<Option<string>>, entry: SourceEntry, errors: seq<string>)
    returns (errs: seq<string>)
    ensures errs == errors + SourceErrors(nodeNames, entry)
  {
    errs := errors;
    if Some(entry.source) !in nodeNames {
      errs := errs + [MsgUnknownSource(entry.source)];
    }
    ghost var own := errs[|errors|..];
    assert errs == errors + own;
    errs := CheckPorts(nodeNames, entry.ports, errs);
    assert SourceErrors(nodeNames, entry) == own + PortErrors(nodeNames, entry.ports);
  }

  method ValidateConnections(wf: Workflow) returns (r: Findings)
    requires wf.connections.None? || wf.nodes.Nodes?
    ensures r == ConnectionsFindings(wf)
  {
    if wf.connections.None? {
      return Findings([NO_CONNECTIONS], []);
    }
    var connections := wf.connections.value;
    var nodeNames := NodeNames(wf.nodes.items);
    var errors: seq<string> := [];
    for i := 0 to |connections|
      invariant errors == EntriesErrors(nodeNames, connections[..i])
    {
      EntriesErrorsStep(nodeNames, connections, i);
      errors := CheckSource(nodeNames, connections[i], errors);
    }
    assert connections[..|connections|] == connections;
    return Findings(errors, []);
  }
}
