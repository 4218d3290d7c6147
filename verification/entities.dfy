/** The records the core passes around. A Java `String` field that may be null is
    an `Option<string>`. */
module Entities {
  import opened Wrappers

  /** A stored API definition: identity assigned by the store, descriptive
      metadata, the specification document and the upstream access token. */
  datatype Api = Api(
    id: int,
    name: Option<string>,
    description: Option<string>,
    version: Option<string>,
    format: Option<string>,
    fileType: Option<string>,
    spec: Option<string>,
    token: Option<string>)

  /** An ownership record: an API id and whether it is active for its owner. */
  datatype ApiWithActive = ApiWithActive(apiId: int, active: bool)

  /** A group member as the ownership service lists it. */
  datatype UserWithRole = UserWithRole(username: Option<string>, groupRole: Option<string>)

  /** One invocable tool derived from a specification; opaque to the core. */
  datatype Tool = Tool(
    title: Option<string>,
    description: Option<string>,
    endpoint: Option<string>,
    inputSchema: Option<string>,
    requestMethod: Option<string>)

  /** The tool set the conversion service derives from one API. */
  datatype ToolDefinition = ToolDefinition(
    name: Option<string>,
    description: Option<string>,
    tools: seq<Tool>)

  /** The closed set of request methods an invocation may name. */
  datatype RequestType = GET | POST | PUT | PATCH | DELETE

  /** A request to invoke a stored API. Parameter maps are sequences of pairs in
      the maps' iteration order; the body is passed through untouched and is kept
      as its JSON text. */
  datatype InvokeQuery = InvokeQuery(
    requestType: RequestType,
    requestPath: string,
    header: Option<map<string, string>>,
    body: Option<string>,
    requestParam: Option<seq<(string, string)>>,
    pathParam: Option<seq<(string, string)>>)
}
