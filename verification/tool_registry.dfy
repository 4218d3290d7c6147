/** The tool registry client: get, upsert and delete of a tool definition under an
    api id. Its failures are mapped as `ClientExceptionHandler` maps them. A get on
    an id with no tool answers with no body, which the client returns as null. */
module ToolRegistry {
  import opened Wrappers
  import opened Entities
  import opened Exceptions
  import opened State

  function GetToolWithId(w: World, apiId: int, fault: Option<Exc>): (r: Result<Option<ToolDefinition>, Exc>)
    ensures r.Failure? <==> fault.Some?
    ensures r.Failure? ==> IsClientException(r.error)
    ensures r.Success? ==> (r.value.Some? <==> apiId in w.tools)
    ensures r.Success? && r.value.Some? ==> r.value.value == w.tools[apiId]
  {
    if fault.Some? then Failure(ClientHandle(fault.value))
    else if apiId in w.tools then Success(Some(w.tools[apiId]))
    else Success(None)
  }

  function AddOrUpdateTool(w: World, apiId: int, definition: ToolDefinition, fault: Option<Exc>): (r: Result<World, Exc>)
    ensures r.Failure? <==> fault.Some?
    ensures r.Failure? ==> IsClientException(r.error)
    ensures r.Success? ==> r.value == w.(tools := w.tools[apiId := definition])
  {
    if fault.Some? then Failure(ClientHandle(fault.value))
    else Success(w.(tools := w.tools[apiId := definition]))
  }

  function DeleteTool(w: World, apiId: int, fault: Option<Exc>): (r: Result<World, Exc>)
    ensures r.Failure? <==> fault.Some?
    ensures r.Failure? ==> IsClientException(r.error)
    ensures r.Success? ==> r.value == w.(tools := w.tools - {apiId})
  {
    if fault.Some? then Failure(ClientHandle(fault.value))
    else Success(w.(tools := w.tools - {apiId}))
  }
}
