/**
 * The node checks (validateNodes): warnings for recommended node types that no
 * node has, then, node by node in array order, the errors for a missing `id`,
 * `name` or `type` and the dispatch on `type` to the four rules of module Rules.
 * A TypeError raised by a rule leaves validateNodes: the outcome is then Threw.
 */
module NodeChecks {
  import opened Document
  import opened Text
  import opened Seqs
  import opened Rules

  const FORM_TRIGGER_TYPE := "n8n-nodes-base.formTrigger"
  const LLM_CHAIN_TYPE := "@n8n/n8n-nodes-langchain.chainLlm"
  const HTTP_REQUEST_TYPE := "n8n-nodes-base.httpRequest"
  const S3_TYPE := "n8n-nodes-base.s3"
  const REQUIRED_NODE_TYPES: seq<string> := [FORM_TRIGGER_TYPE, LLM_CHAIN_TYPE, HTTP_REQUEST_TYPE, S3_TYPE]

  /** `nodes.map(node => node.type)`. */
  function NodeTypes(nodes: seq<Node>): seq<Option<string>>
  {
    seq(|nodes|, i requires 0 <= i < |nodes| => nodes[i].nodeType)
  }

  function MsgTypeMissing(nodeType: string): string
  {
    "Recommended node type missing: " + nodeType
  }

  lemma TypeMessageInjective(a: string, b: string)
    requires MsgTypeMissing(a) == MsgTypeMissing(b)
    ensures a == b
  {
    PrefixCancel("Recommended node type missing: ", a, b);
  }

  /**
   * One warning for each type of `required`, in order, that `present` lacks:
   * the warning for a required type is there exactly when no node has that
   * type, no other warning is, and none occurs twice.
   */
  function MissingTypeWarnings(present: seq<Option<string>>, required: seq<string>): (r: seq<string>)
    ensures |r| <= |required|
    ensures forall t :: t in required ==> (MsgTypeMissing(t) in r <==> Some(t) !in present)
    ensures forall w :: w in r ==> exists t :: t in required && Some(t) !in present && w == MsgTypeMissing(t)
    ensures NoDuplicates(required) ==> NoDuplicates(r)
    decreases |required|
  {
    if required == [] then []
    else
      var front := required[..|required| - 1];
      var last := required[|required| - 1];
      var earlier := MissingTypeWarnings(present, front);
      var r := earlier + (if Some(last) in present then [] else [MsgTypeMissing(last)]);
      assert forall t :: t in required ==> t in front || t == last;
      assert forall t :: t in front ==> t in required;
      assert forall t :: t in required ==> (MsgTypeMissing(t) in r <==> Some(t) !in present) by {
        forall t | t in required ensures MsgTypeMissing(t) in r <==> Some(t) !in present {
          if MsgTypeMissing(t) in earlier {
            var t' :| t' in front && Some(t') !in present && MsgTypeMissing(t) == MsgTypeMissing(t');
            TypeMessageInjective(t, t');
          } else if MsgTypeMissing(t) in r {
            TypeMessageInjective(t, last);
          }
        }
      }
      assert NoDuplicates(required) ==> NoDuplicates(r) by {
        if NoDuplicates(required) {
          assert NoDuplicates(front);
          assert last !in front;
          if MsgTypeMissing(last) in earlier {
            var t' :| t' in front && MsgTypeMissing(last) == MsgTypeMissing(t');
            TypeMessageInjective(last, t');
          }
        }
      }
      r
  }

  // ---------------------------------------------------------------------------
  // Required fields of every node

  function MsgMissingId(index: nat): string
  {
    "Node at index " + DecimalString(index) + " is missing ID"
  }

  function MsgMissingName(index: nat): string
  {
    "Node at index " + DecimalString(index) + " is missing name"
  }

  function MsgMissingType(index: nat): string
  {
    "Node at index " + DecimalString(index) + " is missing type"
  }

  lemma FieldMessagesDistinct(index: nat)
    ensures MsgMissingId(index) != MsgMissingName(index)
    ensures MsgMissingId(index) != MsgMissingType(index)
    ensures MsgMissingName(index) != MsgMissingType(index)
  {
    var k := |"Node at index " + DecimalString(index) + " is missing "|;
    assert MsgMissingId(index)[k] == 'I';
    assert MsgMissingName(index)[k] == 'n';
    assert MsgMissingType(index)[k] == 't';
  }

  /** Each missing-field message names its index: messages of different nodes differ. */
  lemma FieldMessagesNameTheirIndex(i: nat, j: nat)
    ensures MsgMissingId(i) == MsgMissingId(j) ==> i == j
    ensures MsgMissingName(i) == MsgMissingName(j) ==> i == j
    ensures MsgMissingType(i) == MsgMissingType(j) ==> i == j
  {
    var p := "Node at index ";
    var di, dj := DecimalString(i), DecimalString(j);
    forall q: string | p + di + q == p + dj + q ensures i == j {
      assert p + di + q == p + (di + q);
      assert p + dj + q == p + (dj + q);
      PrefixCancel(p, di + q, dj + q);
      SuffixCancel(di, dj, q);
      DecimalStringInjective(i, j);
    }
    assert MsgMissingId(i) == p + di + " is missing ID";
    assert MsgMissingId(j) == p + dj + " is missing ID";
    assert MsgMissingName(i) == p + di + " is missing name";
    assert MsgMissingName(j) == p + dj + " is missing name";
    assert MsgMissingType(i) == p + di + " is missing type";
    assert MsgMissingType(j) == p + dj + " is missing type";
  }

  /** One error for each of `id`, `name` and `type` that the node at `index` lacks. */
  function NodeFieldErrors(node: Node, index: nat): (r: seq<string>)
    ensures |r| == (if Truthy(node.id) then 0 else 1) + (if Truthy(node.name) then 0 else 1)
                   + (if Truthy(node.nodeType) then 0 else 1)
    ensures MsgMissingId(index) in r <==> !Truthy(node.id)
    ensures MsgMissingName(index) in r <==> !Truthy(node.name)
    ensures MsgMissingType(index) in r <==> !Truthy(node.nodeType)
  {
    FieldMessagesDistinct(index);
    (if Truthy(node.id) then [] else [MsgMissingId(index)])
    + (if Truthy(node.name) then [] else [MsgMissingName(index)])
    + (if Truthy(node.nodeType) then [] else [MsgMissingType(index)])
  }

  // ---------------------------------------------------------------------------
  // Dispatch on the node type

  /** The type is one of the four with a rule of its own. */
  predicate IsRuleType(nodeType: Option<string>)
  {
    nodeType == Some(FORM_TRIGGER_TYPE) || nodeType == Some(LLM_CHAIN_TYPE)
    || nodeType == Some(HTTP_REQUEST_TYPE) || nodeType == Some(S3_TYPE)
  }

  /**
   * The node's rule raises a TypeError: every rule reads `parameters` without
   * a guard, and the HTTP rule reads `includes` of an absent `url`.
   */
  predicate RaisesOn(node: Node)
  {
    IsRuleType(node.nodeType)
    && (node.parameters.None? || (node.nodeType == Some(HTTP_REQUEST_TYPE) && node.parameters.value.url.None?))
  }

  /**
   * The `switch (node.type)`: a node whose type has no rule gets no further
   * check; the rules only append to the accumulated findings.
   */
  function DispatchRule(node: Node, acc: Findings): (o: Outcome)
    ensures o.Threw? <==> RaisesOn(node)
    ensures !IsRuleType(node.nodeType) ==> o == Completed(acc)
    ensures o.Completed? ==> acc.errors <= o.findings.errors && acc.warnings <= o.findings.warnings
    ensures o.Threw? ==> acc.errors <= o.partial.errors && acc.warnings <= o.partial.warnings
  {
    if !IsRuleType(node.nodeType) then Completed(acc)
    else if node.parameters.None? then Threw(acc)
    else if node.nodeType == Some(FORM_TRIGGER_TYPE) then Completed(FormTriggerRule(node, acc))
    else if node.nodeType == Some(LLM_CHAIN_TYPE) then Completed(LlmRule(node, acc))
    else if node.nodeType == Some(HTTP_REQUEST_TYPE) then HttpRule(node, acc)
    else Completed(S3Rule(node, acc))
  }

  /** The body of the `forEach` for the node at `index`. */
  function CheckNode(node: Node, index: nat, acc: Findings): (o: Outcome)
    ensures o.Threw? <==> RaisesOn(node)
    ensures o.Completed? ==> acc.errors + NodeFieldErrors(node, index) <= o.findings.errors
                             && acc.warnings <= o.findings.warnings
    ensures !IsRuleType(node.nodeType) ==> o == Completed(Findings(acc.errors + NodeFieldErrors(node, index), acc.warnings))
  {
    DispatchRule(node, Findings(acc.errors + NodeFieldErrors(node, index), acc.warnings))
  }

  /**
   * The findings accumulated over `nodes[i..]`, starting from `acc`: the loop
   * only appends, whether it completes or a rule raises.
   */
  function CheckNodesFrom(nodes: seq<Node>, i: nat, acc: Findings): (o: Outcome)
    requires i <= |nodes|
    ensures o.Completed? ==> acc.errors <= o.findings.errors && acc.warnings <= o.findings.warnings
    ensures o.Threw? ==> acc.errors <= o.partial.errors && acc.warnings <= o.partial.warnings
    decreases |nodes| - i
  {
    if i == |nodes| then Completed(acc)
    else
      match CheckNode(nodes[i], i, acc)
      case Threw(partial) => Threw(partial)
      case Completed(next) => CheckNodesFrom(nodes, i + 1, next)
  }

  /** validateNodes as a function of the document; it raises exactly when some node's rule raises. */
  function NodesOutcome(wf: Workflow): (r: Outcome)
    requires wf.nodes.Nodes?
    ensures r.Threw? <==> exists j :: 0 <= j < |wf.nodes.items| && RaisesOn(wf.nodes.items[j])
  {
    var nodes := wf.nodes.items;
    var init := Findings([], MissingTypeWarnings(NodeTypes(nodes), REQUIRED_NODE_TYPES));
    CheckNodesFromThrows(nodes, 0, init);
    CheckNodesFrom(nodes, 0, init)
  }

  /** `errors` holds the missing-field error for each of `id`, `name` and `type` that the node at `index` lacks. */
  predicate FieldErrorsReported(node: Node, index: nat, errors: seq<string>)
  {
    && (!Truthy(node.id) ==> MsgMissingId(index) in errors)
    && (!Truthy(node.name) ==> MsgMissingName(index) in errors)
    && (!Truthy(node.nodeType) ==> MsgMissingType(index) in errors)
  }

  /** Reporting a node's missing fields survives appending further findings. */
  lemma FieldErrorsReportedGrows(node: Node, index: nat, a: seq<string>, b: seq<string>)
    requires FieldErrorsReported(node, index, a) && a <= b
    ensures FieldErrorsReported(node, index, b)
  {
    forall e | e in a ensures e in b {
      var k :| 0 <= k < |a| && a[k] == e;
      assert b[k] == e;
    }
  }

  lemma {:induction false} CheckNodesFromThrows(nodes: seq<Node>, i: nat, acc: Findings)
    requires i <= |nodes|
    ensures CheckNodesFrom(nodes, i, acc).Threw? <==> exists j :: i <= j < |nodes| && RaisesOn(nodes[j])
    decreases |nodes| - i
  {
    if i < |nodes| {
      var step := CheckNode(nodes[i], i, acc);
      assert step.Threw? <==> RaisesOn(nodes[i]);
      if step.Completed? {
        CheckNodesFromThrows(nodes, i + 1, step.findings);
        assert CheckNodesFrom(nodes, i, acc) == CheckNodesFrom(nodes, i + 1, step.findings);
        assert !RaisesOn(nodes[i]);
        if j :| i <= j < |nodes| && RaisesOn(nodes[j]) {
          assert i + 1 <= j;
        }
      } else {
        assert CheckNodesFrom(nodes, i, acc) == Threw(step.partial);
      }
    }
  }

  lemma {:induction false} CheckNodesFromReports(nodes: seq<Node>, i: nat, acc: Findings)
    requires i <= |nodes|
    ensures var o := CheckNodesFrom(nodes, i, acc);
            o.Completed? ==> forall j :: i <= j < |nodes| ==> FieldErrorsReported(nodes[j], j, o.findings.errors)
    decreases |nodes| - i
  {
    if i < |nodes| {
      var step := CheckNode(nodes[i], i, acc);
      if step.Completed? {
        var next := step.findings;
        CheckNodesFromReports(nodes, i + 1, next);
        var o := CheckNodesFrom(nodes, i + 1, next);
        assert CheckNodesFrom(nodes, i, acc) == o;
        if o.Completed? {
          var withFields := acc.errors + NodeFieldErrors(nodes[i], i);
          assert withFields <= next.errors;
          assert FieldErrorsReported(nodes[i], i, withFields);
          FieldErrorsReportedGrows(nodes[i], i, withFields, next.errors);
          FieldErrorsReportedGrows(nodes[i], i, next.errors, o.findings.errors);
          assert forall j :: i < j < |nodes| ==> FieldErrorsReported(nodes[j], j, o.findings.errors);
        }
      }
    }
  }

  /**
   * When validateNodes returns, its warnings begin with the recommended-type warnings, and every missing
   * `id`, `name` and `type` of every node is reported with that node's index.
   */
  lemma {:induction false} NodesOutcomeFacts(wf: Workflow)
    requires wf.nodes.Nodes?
    ensures var o := NodesOutcome(wf);
            o.Completed? ==> MissingTypeWarnings(NodeTypes(wf.nodes.items), REQUIRED_NODE_TYPES) <= o.findings.warnings
    ensures var o := NodesOutcome(wf);
            o.Completed? ==> forall j :: 0 <= j < |wf.nodes.items| ==> FieldErrorsReported(wf.nodes.items[j], j, o.findings.errors)
  {
    var nodes := wf.nodes.items;
    var init := Findings([], MissingTypeWarnings(NodeTypes(nodes), REQUIRED_NODE_TYPES));
    CheckNodesFromReports(nodes, 0, init);
  }

  /** There are between zero and four recommended-type warnings, one per absent type. */
  lemma RecommendedWarningsCount(nodes: seq<Node>)
    ensures var w := MissingTypeWarnings(NodeTypes(nodes), REQUIRED_NODE_TYPES);
            && |w| <= 4
            && NoDuplicates(w)
            && (forall t :: t in REQUIRED_NODE_TYPES ==> (MsgTypeMissing(t) in w <==> forall i :: 0 <= i < |nodes| ==> nodes[i].nodeType != Some(t)))
  {
    var present := NodeTypes(nodes);
    assert NoDuplicates(REQUIRED_NODE_TYPES);
    forall t | t in REQUIRED_NODE_TYPES
      ensures Some(t) !in present <==> forall i :: 0 <= i < |nodes| ==> nodes[i].nodeType != Some(t)
    {
      if Some(t) in present {
        var i :| 0 <= i < |present| && present[i] == Some(t);
        assert nodes[i].nodeType == Some(t);
      } else {
        forall i | 0 <= i < |nodes| ensures nodes[i].nodeType != Some(t) {
          assert present[i] == nodes[i].nodeType;
        }
      }
    }
  }

  /** The `forEach` callback for the node at `index`, pushing onto the caller's arrays. */
  method CheckNodeAt(node: Node, index: nat, errors: seq<string>, warnings: seq<string>) returns (o: Outcome)
    ensures o == CheckNode(node, index, Findings(errors, warnings))
  {
    var errs := errors;
    if !Truthy(node.id) {
      errs := errs + [MsgMissingId(index)];
    }
    if !Truthy(node.name) {
      errs := errs + [MsgMissingName(index)];
    }
    if !Truthy(node.nodeType) {
      errs := errs + [MsgMissingType(index)];
    }
    assert errs == errors + NodeFieldErrors(node, index);
    o := DispatchNode(node, errs, warnings);
  }

  /** The `switch (node.type)` of the callback. */
  method DispatchNode(node: Node, errors: seq<string>, warnings: seq<string>) returns (o: Outcome)
    ensures o == DispatchRule(node, Findings(errors, warnings))
  {
    var errs, warns := errors, warnings;
    if node.nodeType == Some(FORM_TRIGGER_TYPE) {
      if node.parameters.None? {
        // `node.parameters.formFields` on an absent parameters object: TypeError.
        return Threw(Findings(errs, warns));
      }
      errs, warns := ValidateFormTrigger(node, errs, warns);
    } else if node.nodeType == Some(LLM_CHAIN_TYPE) {
      if node.parameters.None? {
        return Threw(Findings(errs, warns));
      }
      errs, warns := ValidateLlmNode(node, errs, warns);
    } else if node.nodeType == Some(HTTP_REQUEST_TYPE) {
      if node.parameters.None? {
        return Threw(Findings(errs, warns));
      }
      var threw: bool;
      errs, warns, threw := ValidateHttpRequest(node, errs, warns);
      if threw {
        return Threw(Findings(errs, warns));
      }
    } else if node.nodeType == Some(S3_TYPE) {
      if node.parameters.None? {
        return Threw(Findings(errs, warns));
      }
      errs, warns := ValidateS3Node(node, errs, warns);
    }
    return Completed(Findings(errs, warns));
  }

  /** The `for (const requiredType of requiredNodeTypes)` loop of validateNodes. */
  method CheckRecommendedTypes(presentNodeTypes: seq<Option<string>>, required: seq<string>) returns (warnings: seq<string>)
    ensures warnings == MissingTypeWarnings(presentNodeTypes, required)
  {
    warnings := [];
    for k := 0 to |required|
      invariant warnings == MissingTypeWarnings(presentNodeTypes, required[..k])
    {
      var requiredType := required[k];
      assert required[..k + 1][..k] == required[..k];
      if Some(requiredType) !in presentNodeTypes {
        warnings := warnings + [MsgTypeMissing(requiredType)];
      }
    }
    assert required[..|required|] == required;
  }

  method ValidateNodes(wf: Workflow) returns (o: Outcome)
    requires wf.nodes.Nodes?
    ensures o == NodesOutcome(wf)
  {
    var nodes := wf.nodes.items;
    var errors: seq<string> := [];
    var warnings: seq<string> := [];
    warnings := CheckRecommendedTypes(NodeTypes(nodes), REQUIRED_NODE_TYPES);
    ghost var init := Findings(errors, warnings);
    for i := 0 to |nodes|
      invariant CheckNodesFrom(nodes, 0, init) == CheckNodesFrom(nodes, i, Findings(errors, warnings))
    {
      var step := CheckNodeAt(nodes[i], i, errors, warnings);
      if step.Threw? {
        return step;
      }
      errors, warnings := step.findings.errors, step.findings.warnings;
    }
    return Completed(Findings(errors, warnings));
  }
}
