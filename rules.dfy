/**
 * The four type-specific rules (validateFormTrigger, validateLLMNode,
 * validateHttpRequest, validateS3Node). Each pushes onto the `errors` and
 * `warnings` arrays of its caller; here each rule is a method that takes the
 * two sequences and returns them extended, specified by a function of the old
 * contents (FormTriggerRule, LlmRule, HttpRule, S3Rule) whose contract states
 * what the rule adds. The caller dispatches here only when `parameters` is
 * present, because each rule reads `node.parameters` without a guard
 * (validate-workflow.js:118, :145, :157, :175).
 */
module Rules {
  import opened Document
  import opened Text
  import opened Seqs

  // ---------------------------------------------------------------------------
  // Form trigger

  const REQUIRED_LABELS: seq<string> := ["Idea", "Style", "Tone", "Voice", "Type"]
  const VOICE_NO_OPTIONS := "Voice field has no options defined"

  function MsgFormFieldsMissing(nodeName: Option<string>): string
  {
    "Form trigger node '" + Show(nodeName) + "' missing form fields"
  }

  function MsgRequiredFieldMissing(requiredField: string): string
  {
    "Form trigger missing required field: " + requiredField
  }

  /** `parameters.formFields.values`, when both levels are present. */
  function FormValues(p: Parameters): Option<seq<FormField>>
  {
    if p.formFields.None? then None else p.formFields.value.values
  }

  /** `values.map(field => field.fieldLabel)`. */
  function FieldLabels(fields: seq<FormField>): seq<Option<string>>
  {
    seq(|fields|, i requires 0 <= i < |fields| => fields[i].fieldLabel)
  }

  /** `values.find(field => field.fieldLabel === 'Voice')`: the first field labelled Voice. */
  function FirstVoiceField(fields: seq<FormField>): (f: Option<FormField>)
    ensures f.None? <==> forall i :: 0 <= i < |fields| ==> fields[i].fieldLabel != Some("Voice")
    ensures f.Some? ==> exists i :: 0 <= i < |fields| && fields[i] == f.value
                          && fields[i].fieldLabel == Some("Voice")
                          && forall j :: 0 <= j < i ==> fields[j].fieldLabel != Some("Voice")
  {
    if fields == [] then None
    else if fields[0].fieldLabel == Some("Voice") then Some(fields[0])
    else
      var f := FirstVoiceField(fields[1..]);
      assert f.Some? ==> exists i :: 0 < i < |fields| && fields[i] == f.value
                           && fields[i].fieldLabel == Some("Voice")
                           && forall j :: 0 <= j < i ==> fields[j].fieldLabel != Some("Voice")
      by {
        if f.Some? {
          var i :| 0 <= i < |fields[1..]| && fields[1..][i] == f.value
                   && fields[1..][i].fieldLabel == Some("Voice")
                   && forall j :: 0 <= j < i ==> fields[1..][j].fieldLabel != Some("Voice");
          assert forall j :: 0 <= j < i + 1 ==> fields[j].fieldLabel != Some("Voice") by {
            forall j | 0 <= j < i + 1 ensures fields[j].fieldLabel != Some("Voice") {
              if j > 0 { assert fields[j] == fields[1..][j - 1]; }
            }
          }
        }
      }
      assert f.None? ==> forall i :: 0 <= i < |fields| ==> fields[i].fieldLabel != Some("Voice") by {
        if f.None? {
          forall i | 0 <= i < |fields| ensures fields[i].fieldLabel != Some("Voice") {
            if i > 0 { assert fields[i] == fields[1..][i - 1]; }
          }
        }
      }
      f
  }

  /**
   * The first Voice field declares `fieldOptions.values` and that list is
   * empty (the options are mapped to their texts first, which keeps the length).
   */
  predicate VoiceOptionsEmpty(fields: seq<FormField>)
  {
    var voice := FirstVoiceField(fields);
    voice.Some? && voice.value.fieldOptions.Some? && voice.value.fieldOptions.value.values.Some?
    && |voice.value.fieldOptions.value.values.value| == 0
  }

  lemma RequiredFieldMessageInjective(a: string, b: string)
    requires MsgRequiredFieldMissing(a) == MsgRequiredFieldMissing(b)
    ensures a == b
  {
    PrefixCancel("Form trigger missing required field: ", a, b);
  }

  /** The errors for the labels of `required`, in order, that `labels` does not contain. */
  function MissingLabelErrors(labels: seq<Option<string>>, required: seq<string>): (r: seq<string>)
    ensures |r| <= |required|
    ensures forall l :: l in required ==> (MsgRequiredFieldMissing(l) in r <==> Some(l) !in labels)
    ensures forall e :: e in r ==> exists l :: l in required && Some(l) !in labels && e == MsgRequiredFieldMissing(l)
    ensures NoDuplicates(required) ==> NoDuplicates(r)
    decreases |required|
  {
    if required == [] then []
    else
      var front := required[..|required| - 1];
      var last := required[|required| - 1];
      var r := MissingLabelErrors(labels, front) + (if Some(last) in labels then [] else [MsgRequiredFieldMissing(last)]);
      assert forall l :: l in required ==> l in front || l == last;
      assert forall l :: l in front ==> l in required;
      assert forall l :: l in required ==> (MsgRequiredFieldMissing(l) in r <==> Some(l) !in labels) by {
        forall l | l in required ensures MsgRequiredFieldMissing(l) in r <==> Some(l) !in labels {
          var earlier := MissingLabelErrors(labels, front);
          if MsgRequiredFieldMissing(l) in earlier {
            var l' :| l' in front && Some(l') !in labels && MsgRequiredFieldMissing(l) == MsgRequiredFieldMissing(l');
            RequiredFieldMessageInjective(l, l');
          } else if MsgRequiredFieldMissing(l) in r {
            assert MsgRequiredFieldMissing(l) == MsgRequiredFieldMissing(last);
            RequiredFieldMessageInjective(l, last);
          }
        }
      }
      assert NoDuplicates(required) ==> NoDuplicates(r) by {
        if NoDuplicates(required) {
          var earlier := MissingLabelErrors(labels, front);
          assert NoDuplicates(front);
          assert last !in front;
          if MsgRequiredFieldMissing(last) in earlier {
            var l' :| l' in front && MsgRequiredFieldMissing(last) == MsgRequiredFieldMissing(l');
            RequiredFieldMessageInjective(last, l');
          }
        }
      }
      r
  }

  /**
   * What validateFormTrigger adds. Without `formFields.values` it adds exactly
   * one error and nothing else. Otherwise it adds one error per required label
   * that no field carries (so at most five), and at most one warning, exactly
   * when the first Voice field has a declared but empty option list.
   */
  function FormTriggerRule(node: Node, acc: Findings): (r: Findings)
    requires node.parameters.Some?
    ensures acc.errors <= r.errors && acc.warnings <= r.warnings
    ensures var values := FormValues(node.parameters.value);
            values.None? ==> r == Findings(acc.errors + [MsgFormFieldsMissing(node.name)], acc.warnings)
    ensures var values := FormValues(node.parameters.value);
            values.Some? ==>
              && |r.errors| <= |acc.errors| + 5
              && (forall l :: l in REQUIRED_LABELS ==>
                    (MsgRequiredFieldMissing(l) in r.errors[|acc.errors|..] <==> Some(l) !in FieldLabels(values.value)))
              && (forall e :: e in r.errors[|acc.errors|..] ==> exists l :: l in REQUIRED_LABELS && e == MsgRequiredFieldMissing(l))
              && NoDuplicates(r.errors[|acc.errors|..])
              && |r.warnings| <= |acc.warnings| + 1
              && (|r.warnings| == |acc.warnings| + 1 <==> VoiceOptionsEmpty(values.value))
              && r.warnings[|acc.warnings|..] <= [VOICE_NO_OPTIONS]
  {
    match FormValues(node.parameters.value)
    case None => Findings(acc.errors + [MsgFormFieldsMissing(node.name)], acc.warnings)
    case Some(values) =>
      var added := MissingLabelErrors(FieldLabels(values), REQUIRED_LABELS);
      assert NoDuplicates(REQUIRED_LABELS);
      var r := Findings(acc.errors + added,
                        acc.warnings + (if VoiceOptionsEmpty(values) then [VOICE_NO_OPTIONS] else []));
      assert r.errors[|acc.errors|..] == added;
      r
  }

  /** The `for (const requiredField of requiredFields)` loop of validateFormTrigger. */
  method CheckRequiredLabels(labels: seq<Option<string>>, required: seq<string>, errors: seq<string>)
    returns (errs: seq<string>)
    ensures errs == errors + MissingLabelErrors(labels, required)
  {
    errs := errors;
    for k := 0 to |required|
      invariant errs == errors + MissingLabelErrors(labels, required[..k])
    {
      var requiredField := required[k];
      assert required[..k + 1][..k] == required[..k];
      if Some(requiredField) !in labels {
        errs := errs + [MsgRequiredFieldMissing(requiredField)];
      }
    }
    assert required[..|required|] == required;
  }

  method ValidateFormTrigger(node: Node, errors: seq<string>, warnings: seq<string>)
    returns (errs: seq<string>, warns: seq<string>)
    requires node.parameters.Some?
    ensures Findings(errs, warns) == FormTriggerRule(node, Findings(errors, warnings))
  {
    var params := node.parameters.value;
    errs, warns := errors, warnings;
    if params.formFields.None? || params.formFields.value.values.None? {
      errs := errs + [MsgFormFieldsMissing(node.name)];
      return;
    }
    var values := params.formFields.value.values.value;
    errs := CheckRequiredLabels(FieldLabels(values), REQUIRED_LABELS, errs);
    var voiceField := FirstVoiceField(values);
    if voiceField.Some? && voiceField.value.fieldOptions.Some? && voiceField.value.fieldOptions.value.values.Some? {
      var voiceOptions := voiceField.value.fieldOptions.value.values.value;
      if |voiceOptions| == 0 {
        warns := warns + [VOICE_NO_OPTIONS];
      }
    }
  }

  // ---------------------------------------------------------------------------
  // LLM chain

  function MsgLlmMissingText(nodeName: Option<string>): string
  {
    "LLM node '" + Show(nodeName) + "' missing prompt text"
  }

  function MsgLlmMissingMessages(nodeName: Option<string>): string
  {
    "LLM node '" + Show(nodeName) + "' missing system messages"
  }

  /** `params.messages && params.messages.messageValues` (a present array is truthy). */
  predicate HasSystemMessages(p: Parameters)
  {
    p.messages.Some? && p.messages.value.messageValues.Some?
  }

  lemma LlmMessagesDistinct(n: Option<string>)
    ensures MsgLlmMissingText(n) != MsgLlmMissingMessages(n)
  {
    var k := |"LLM node '" + Show(n) + "' missing "|;
    assert MsgLlmMissingText(n)[k] == 'p';
    assert MsgLlmMissingMessages(n)[k] == 's';
  }

  /**
   * What validateLLMNode adds: no errors, and at most two warnings, one exactly
   * when the prompt text is missing and one exactly when the system messages are.
   */
  function LlmRule(node: Node, acc: Findings): (r: Findings)
    requires node.parameters.Some?
    ensures r.errors == acc.errors
    ensures acc.warnings <= r.warnings && |r.warnings| <= |acc.warnings| + 2
    ensures var p := node.parameters.value;
            |r.warnings| == |acc.warnings| + (if Truthy(p.text) then 0 else 1) + (if HasSystemMessages(p) then 0 else 1)
    ensures var p := node.parameters.value;
            MsgLlmMissingText(node.name) in r.warnings[|acc.warnings|..] <==> !Truthy(p.text)
    ensures var p := node.parameters.value;
            MsgLlmMissingMessages(node.name) in r.warnings[|acc.warnings|..] <==> !HasSystemMessages(p)
  {
    var p := node.parameters.value;
    var added := (if Truthy(p.text) then [] else [MsgLlmMissingText(node.name)])
                 + (if HasSystemMessages(p) then [] else [MsgLlmMissingMessages(node.name)]);
    LlmMessagesDistinct(node.name);
    var r := Findings(acc.errors, acc.warnings + added);
    assert r.warnings[|acc.warnings|..] == added;
    r
  }

  method ValidateLlmNode(node: Node, errors: seq<string>, warnings: seq<string>)
    returns (errs: seq<string>, warns: seq<string>)
    requires node.parameters.Some?
    ensures Findings(errs, warns) == LlmRule(node, Findings(errors, warnings))
  {
    var params := node.parameters.value;
    errs, warns := errors, warnings;
    if !Truthy(params.text) {
      warns := warns + [MsgLlmMissingText(node.name)];
    }
    if params.messages.None? || params.messages.value.messageValues.None? {
      warns := warns + [MsgLlmMissingMessages(node.name)];
    }
  }

  // ---------------------------------------------------------------------------
  // HTTP request

  function MsgHttpMissingUrl(nodeName: Option<string>): string
  {
    "HTTP Request node '" + Show(nodeName) + "' missing URL"
  }

  function MsgHttpLocalUrl(nodeName: Option<string>, url: string): string
  {
    "HTTP Request node '" + Show(nodeName) + "' uses local URL: " + url
  }

  function MsgHuggingFaceAuth(nodeName: Option<string>): string
  {
    "HuggingFace request in '" + Show(nodeName) + "' might need authentication"
  }

  /** The URL names a local address: it mentions "localhost" or "192.168.". */
  predicate IsLocalUrl(url: string)
  {
    Includes(url, "localhost") || Includes(url, "192.168.")
  }

  /** The URL targets HuggingFace and the node configures no authentication. */
  predicate NeedsHuggingFaceAuth(p: Parameters)
  {
    Truthy(p.url) && Includes(p.url.value, "huggingface.co") && !Truthy(p.authentication)
  }

  lemma HttpWarningsDistinct(n: Option<string>, url: string)
    ensures MsgHttpLocalUrl(n, url) != MsgHuggingFaceAuth(n)
  {
    assert MsgHttpLocalUrl(n, url)[1] == 'T';
    assert MsgHuggingFaceAuth(n)[1] == 'u';
  }

  /**
   * The warnings validateHttpRequest adds when `url` is present: the local-URL
   * warning exactly when a non-empty `url` is local (an empty one is never
   * local), and the HuggingFace warning exactly when it targets HuggingFace
   * without authentication.
   */
  function HttpWarnings(nodeName: Option<string>, p: Parameters): (w: seq<string>)
    requires p.url.Some?
    ensures |w| == (if Truthy(p.url) && IsLocalUrl(p.url.value) then 1 else 0) + (if NeedsHuggingFaceAuth(p) then 1 else 0)
    ensures w == [] <==> !(Truthy(p.url) && IsLocalUrl(p.url.value)) && !NeedsHuggingFaceAuth(p)
    ensures Truthy(p.url) ==> (MsgHttpLocalUrl(nodeName, p.url.value) in w <==> IsLocalUrl(p.url.value))
    ensures MsgHuggingFaceAuth(nodeName) in w <==> NeedsHuggingFaceAuth(p)
  {
    var url := p.url.value;
    var local := (Truthy(p.url) && Includes(url, "localhost")) || Includes(url, "192.168.");
    assert !Includes("", "192.168.");
    HttpWarningsDistinct(nodeName, url);
    (if local then [MsgHttpLocalUrl(nodeName, url)] else [])
      + (if NeedsHuggingFaceAuth(p) then [MsgHuggingFaceAuth(nodeName)] else [])
  }

  /**
   * What validateHttpRequest does, as written. The local-URL guard parses as
   * `(url && url.includes('localhost')) || url.includes('192.168.')`, so when
   * `url` is absent its right operand reads `includes` of undefined and raises a
   * TypeError, after the missing-URL error has been pushed. An empty `url`
   * gets the missing-URL error and no exception. A truthy `url` gets no error,
   * one warning exactly when it is local, and one more exactly when it targets
   * HuggingFace without authentication.
   */
  function HttpRule(node: Node, acc: Findings): (o: Outcome)
    requires node.parameters.Some?
    ensures var p := node.parameters.value;
            o.Threw? <==> p.url.None?
    ensures var p := node.parameters.value;
            o.Threw? ==> o.partial == Findings(acc.errors + [MsgHttpMissingUrl(node.name)], acc.warnings)
    ensures var p := node.parameters.value;
            o.Completed? ==>
              && (o.findings.errors == acc.errors + [MsgHttpMissingUrl(node.name)] <==> !Truthy(p.url))
              && (o.findings.errors == acc.errors <==> Truthy(p.url))
              && acc.warnings <= o.findings.warnings
              && |o.findings.warnings| == |acc.warnings| + (if Truthy(p.url) && IsLocalUrl(p.url.value) then 1 else 0)
                                          + (if NeedsHuggingFaceAuth(p) then 1 else 0)
              && (o.findings.warnings == acc.warnings <==> !(Truthy(p.url) && IsLocalUrl(p.url.value)) && !NeedsHuggingFaceAuth(p))
              && (Truthy(p.url) ==>
                    (MsgHttpLocalUrl(node.name, p.url.value) in o.findings.warnings[|acc.warnings|..] <==> IsLocalUrl(p.url.value)))
              && (MsgHuggingFaceAuth(node.name) in o.findings.warnings[|acc.warnings|..] <==> NeedsHuggingFaceAuth(p))
  {
    var p := node.parameters.value;
    var errors := acc.errors + (if Truthy(p.url) then [] else [MsgHttpMissingUrl(node.name)]);
    if p.url.None? then
      Threw(Findings(errors, acc.warnings))
    else
      var added := HttpWarnings(node.name, p);
      var r := Findings(errors, acc.warnings + added);
      assert r.warnings[|acc.warnings|..] == added;
      Completed(r)
  }

  method ValidateHttpRequest(node: Node, errors: seq<string>, warnings: seq<string>)
    returns (errs: seq<string>, warns: seq<string>, threw: bool)
    requires node.parameters.Some?
    ensures (if threw then Threw(Findings(errs, warns)) else Completed(Findings(errs, warns)))
            == HttpRule(node, Findings(errors, warnings))
  {
    var params := node.parameters.value;
    errs, warns := errors, warnings;
    if !Truthy(params.url) {
      errs := errs + [MsgHttpMissingUrl(node.name)];
    }
    var local: bool;
    if Truthy(params.url) && Includes(params.url.value, "localhost") {
      local := true;
    } else if params.url.None? {
      // `params.url.includes('192.168.')` on an absent url: TypeError.
      threw := true;
      return;
    } else {
      local := Includes(params.url.value, "192.168.");
    }
    if local {
      warns := warns + [MsgHttpLocalUrl(node.name, params.url.value)];
    }
    if Truthy(params.url) && Includes(params.url.value, "huggingface.co") && !Truthy(params.authentication) {
      warns := warns + [MsgHuggingFaceAuth(node.name)];
    }
    threw := false;
  }

  /**
   * The local-URL check as evidently intended: both substring tests guarded by
   * the presence of `url`. It never raises; an absent or empty `url` gets the
   * missing-URL error and no warning.
   */
  function HttpRuleGuarded(node: Node, acc: Findings): (r: Findings)
    requires node.parameters.Some?
    ensures var p := node.parameters.value;
            && (r.errors == acc.errors + [MsgHttpMissingUrl(node.name)] <==> !Truthy(p.url))
            && (r.errors == acc.errors <==> Truthy(p.url))
            && acc.warnings <= r.warnings
            && (!Truthy(p.url) ==> r.warnings == acc.warnings)
            && |r.warnings| == |acc.warnings| + (if Truthy(p.url) && IsLocalUrl(p.url.value) then 1 else 0)
                               + (if NeedsHuggingFaceAuth(p) then 1 else 0)
            && (Truthy(p.url) ==>
                  (MsgHttpLocalUrl(node.name, p.url.value) in r.warnings[|acc.warnings|..] <==> IsLocalUrl(p.url.value)))
            && (MsgHuggingFaceAuth(node.name) in r.warnings[|acc.warnings|..] <==> NeedsHuggingFaceAuth(p))
  {
    var p := node.parameters.value;
    var errors := acc.errors + (if Truthy(p.url) then [] else [MsgHttpMissingUrl(node.name)]);
    var local := Truthy(p.url) && (Includes(p.url.value, "localhost") || Includes(p.url.value, "192.168."));
    var added := (if local then [MsgHttpLocalUrl(node.name, p.url.value)] else [])
                 + (if NeedsHuggingFaceAuth(p) then [MsgHuggingFaceAuth(node.name)] else []);
    HttpWarningsDistinct(node.name, Show(p.url));
    var r := Findings(errors, acc.warnings + added);
    assert r.warnings[|acc.warnings|..] == added;
    r
  }

  /** As written, an HTTP node without `url` raises instead of returning its findings. */
  lemma {:induction false} HttpRuleThrowsWithoutUrl(node: Node, acc: Findings)
    requires node.parameters.Some? && node.parameters.value.url.None?
    ensures HttpRule(node, acc).Threw?
    ensures HttpRuleGuarded(node, acc) == Findings(acc.errors + [MsgHttpMissingUrl(node.name)], acc.warnings)
  {
    var p := node.parameters.value;
    assert !NeedsHuggingFaceAuth(p);
  }

  /** Whenever a `url` value is present, the rule as written and the guarded rule agree. */
  lemma {:induction false} HttpRuleAgreesWithGuarded(node: Node, acc: Findings)
    requires node.parameters.Some? && node.parameters.value.url.Some?
    ensures HttpRule(node, acc) == Completed(HttpRuleGuarded(node, acc))
  {
    assert !Includes("", "192.168.");
  }

  // ---------------------------------------------------------------------------
  // S3

  function MsgS3MissingBucket(nodeName: Option<string>): string
  {
    "S3 node '" + Show(nodeName) + "' missing bucket name"
  }

  function MsgS3MissingFile(nodeName: Option<string>): string
  {
    "S3 upload node '" + Show(nodeName) + "' missing file name"
  }

  lemma S3MessagesDistinct(n: Option<string>)
    ensures MsgS3MissingBucket(n) != MsgS3MissingFile(n)
  {
    assert MsgS3MissingBucket(n)[3] == 'n';
    assert MsgS3MissingFile(n)[3] == 'u';
  }

  /**
   * What validateS3Node adds: no warnings, and at most two errors, one exactly
   * when the bucket name is missing and one exactly when an upload has no file name.
   */
  function S3Rule(node: Node, acc: Findings): (r: Findings)
    requires node.parameters.Some?
    ensures r.warnings == acc.warnings
    ensures acc.errors <= r.errors && |r.errors| <= |acc.errors| + 2
    ensures var p := node.parameters.value;
            |r.errors| == |acc.errors| + (if Truthy(p.bucketName) then 0 else 1)
                          + (if p.operation == Some("upload") && !Truthy(p.fileName) then 1 else 0)
    ensures var p := node.parameters.value;
            MsgS3MissingBucket(node.name) in r.errors[|acc.errors|..] <==> !Truthy(p.bucketName)
    ensures var p := node.parameters.value;
            MsgS3MissingFile(node.name) in r.errors[|acc.errors|..] <==> p.operation == Some("upload") && !Truthy(p.fileName)
  {
    var p := node.parameters.value;
    var added := (if Truthy(p.bucketName) then [] else [MsgS3MissingBucket(node.name)])
                 + (if p.operation == Some("upload") && !Truthy(p.fileName) then [MsgS3MissingFile(node.name)] else []);
    S3MessagesDistinct(node.name);
    var r := Findings(acc.errors + added, acc.warnings);
    assert r.errors[|acc.errors|..] == added;
    r
  }

  method ValidateS3Node(node: Node, errors: seq<string>, warnings: seq<string>)
    returns (errs: seq<string>, warns: seq<string>)
    requires node.parameters.Some?
    ensures Findings(errs, warns) == S3Rule(node, Findings(errors, warnings))
  {
    var params := node.parameters.value;
    errs, warns := errors, warnings;
    if !Truthy(params.bucketName) {
      errs := errs + [MsgS3MissingBucket(node.name)];
    }
    if params.operation == Some("upload") && !Truthy(params.fileName) {
      errs := errs + [MsgS3MissingFile(node.name)];
    }
  }
}
