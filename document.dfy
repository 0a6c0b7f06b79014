/**
 * The parsed n8n workflow document the validators read, and the findings they
 * produce. Every JSON field the validators look at is optional; a string field
 * is "truthy" in the sense of JavaScript when it is present and not empty,
 * while a present array or object is always truthy.
 */
module Document {

  datatype Option<+T> = None | Some(value: T)

  /** JavaScript truthiness of an optional string field: present and non-empty. */
  predicate Truthy(field: Option<string>)
  {
    field.Some? && field.value != ""
  }

  /** How a template literal renders an optional string: its text, or "undefined". */
  function Show(field: Option<string>): string
  {
    if field.Some? then field.value else "undefined"
  }

  /** The `{ errors, warnings }` pair every validator returns. */
  datatype Findings = Findings(errors: seq<string>, warnings: seq<string>)

  /**
   * The result of a step that may raise a JavaScript TypeError. `partial` holds
   * what the accumulating arrays contained at the moment of the exception.
   */
  datatype Outcome = Completed(findings: Findings) | Threw(partial: Findings)

  /** `fieldOptions` of a form field; `values` lists the options (their `option` texts). */
  datatype FieldOptions = FieldOptions(values: Option<seq<Option<string>>>)

  /** One entry of `parameters.formFields.values` of a form trigger. */
  datatype FormField = FormField(fieldLabel: Option<string>, fieldOptions: Option<FieldOptions>)

  /** `parameters.formFields`. */
  datatype FormFields = FormFields(values: Option<seq<FormField>>)

  /** `parameters.messages` of an LLM chain; the message entries are not inspected. */
  datatype Messages = Messages(messageValues: Option<seq<string>>)

  /** The node parameters that any of the four type-specific rules reads. */
  datatype Parameters = Parameters(
    formFields: Option<FormFields>,
    text: Option<string>,
    messages: Option<Messages>,
    url: Option<string>,
    authentication: Option<string>,
    bucketName: Option<string>,
    operation: Option<string>,
    fileName: Option<string>)

  /** One `credentials[credType]` entry of a node. */
  datatype Credential = Credential(id: Option<string>, name: Option<string>)

  /** A key of a node's `credentials` object with its value, in `Object.keys` order. */
  datatype CredentialEntry = CredentialEntry(credType: string, credential: Credential)

  /** One element of `workflow.nodes`; `nodeType` is the JSON field `type`. */
  datatype Node = Node(
    id: Option<string>,
    name: Option<string>,
    nodeType: Option<string>,
    parameters: Option<Parameters>,
    credentials: Option<seq<CredentialEntry>>)

  /** One wire out of an output port: the target is named by `node`; the input index is not read. */
  datatype Connection = Connection(node: Option<string>)

  /** An output port (`main`, ...) of a source node and its connection groups. */
  datatype Port = Port(outputType: string, groups: seq<seq<Connection>>)

  /** A key of `workflow.connections` (a source node name) with its output ports. */
  datatype SourceEntry = SourceEntry(source: string, ports: seq<Port>)

  /** `workflow.nodes`: falsy or missing, some other value, or an array. */
  datatype NodeList = Absent | NotAnArray | Nodes(items: seq<Node>)

  /**
   * The whole document. `connections` lists the keys of the connections object
   * in `Object.keys` order; `None` stands for a missing or falsy value.
   */
  datatype Workflow = Workflow(name: Option<string>, nodes: NodeList, connections: Option<seq<SourceEntry>>)
}
