/** The conversion service client: local validation of its three inputs, then one
    remote call whose failures go through `ClientExceptionHandler`. The remote
    answer is a parameter: `converted` is what the service would return. */
module Spec2Tool {
  import opened Wrappers
  import opened Text
  import opened Entities
  import opened Exceptions

  const ALLOWED_FILE_TYPES: seq<string> := ["YAML", "JSON"]
  const ALLOWED_FORMATS: seq<string> := ["OpenAPI", "RAML"]

  const EMPTY_INPUT := "Format, File Type and Spec cannot be empty"
  const BAD_FILE_TYPE := "File Type not supported"
  const BAD_FORMAT := "Format not supported"

  /** Inputs that pass every local check. */
  predicate Acceptable(format: Option<string>, fileType: Option<string>, spec: Option<string>) {
    && HasText(format) && HasText(fileType) && HasText(spec)
    && fileType.value in ALLOWED_FILE_TYPES
    && format.value in ALLOWED_FORMATS
  }

  /** `convertSpec2Tool(format, fileType, spec)`. */
  function ConvertSpec2Tool(format: Option<string>, fileType: Option<string>, spec: Option<string>,
                            fault: Option<Exc>, converted: ToolDefinition): (r: Result<ToolDefinition, Exc>)
    ensures !HasText(format) || !HasText(fileType) || !HasText(spec) ==>
      r == Failure(IllegalArgument(EMPTY_INPUT))
    ensures HasText(format) && HasText(fileType) && HasText(spec) && fileType.value !in ALLOWED_FILE_TYPES ==>
      r == Failure(IllegalArgument(BAD_FILE_TYPE))
    ensures (HasText(format) && HasText(fileType) && HasText(spec) && fileType.value in ALLOWED_FILE_TYPES
             && format.value !in ALLOWED_FORMATS) ==>
      r == Failure(IllegalArgument(BAD_FORMAT))
    ensures Acceptable(format, fileType, spec) ==>
      (r.Success? <==> fault.None?) && (r.Success? ==> r.value == converted)
      && (r.Failure? ==> IsClientException(r.error))
  {
    if !HasText(format) || !HasText(fileType) || !HasText(spec) then
      Failure(IllegalArgument(EMPTY_INPUT))
    else if fileType.value !in ALLOWED_FILE_TYPES then
      Failure(IllegalArgument(BAD_FILE_TYPE))
    else if format.value !in ALLOWED_FORMATS then
      Failure(IllegalArgument(BAD_FORMAT))
    else if fault.Some? then
      Failure(ClientHandle(fault.value))
    else
      Success(converted)
  }

  /** The remote service is reached only after every local check passes: on
      unacceptable inputs the outcome is an `IllegalArgumentException` that no
      remote fault or answer can change. */
  lemma LocalChecksFirst(format: Option<string>, fileType: Option<string>, spec: Option<string>,
                         f1: Option<Exc>, c1: ToolDefinition, f2: Option<Exc>, c2: ToolDefinition)
    requires !Acceptable(format, fileType, spec)
    ensures ConvertSpec2Tool(format, fileType, spec, f1, c1) == ConvertSpec2Tool(format, fileType, spec, f2, c2)
    ensures ConvertSpec2Tool(format, fileType, spec, f1, c1).Failure?
    ensures ConvertSpec2Tool(format, fileType, spec, f1, c1).error.IllegalArgument?
  {
  }

  /** The file type and format names are matched exactly, case included. */
  lemma CaseSensitive()
    ensures ConvertSpec2Tool(Some("OpenAPI"), Some("yaml"), Some("x"), None, ToolDefinition(None, None, []))
      == Failure(IllegalArgument(BAD_FILE_TYPE))
    ensures ConvertSpec2Tool(Some("openapi"), Some("YAML"), Some("x"), None, ToolDefinition(None, None, []))
      == Failure(IllegalArgument(BAD_FORMAT))
  {
    assert "OpenAPI"[0] == 'O' && "yaml"[0] == 'y' && "x"[0] == 'x' && "openapi"[0] == 'o' && "YAML"[0] == 'Y';
    assert "yaml" != "YAML" && "yaml" != "JSON";
    assert "openapi" != "OpenAPI" && "openapi" != "RAML";
  }
}
