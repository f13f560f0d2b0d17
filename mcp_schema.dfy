/**
 * The protocol values the handlers build: resource contents and results,
 * tool results, and the loosely typed tool arguments they receive.
 */
module McpSchema {
  import opened Model

  /**
   * The text a handler puts into a result. Metadata and listings are sent as
   * JSON text; here they are the records that JSON is written from.
   */
  datatype Payload =
    | Text(text: string)
    | MetadataJson(record: MetadataRecord)
    | ListingJson(records: seq<MetadataRecord>)

  /** `McpSchema.TextResourceContents(uri, mimeType, text)`. */
  datatype ResourceContents = TextResourceContents(uri: string, mimeType: string, body: Payload)

  /** `McpSchema.ReadResourceResult(contents)`. */
  datatype ReadResourceResult = ReadResourceResult(contents: seq<ResourceContents>)

  /** `McpSchema.TextContent(text)`. */
  datatype Content = TextContent(body: Payload)

  /** `McpSchema.CallToolResult(content, isError)`. */
  datatype CallToolResult = CallToolResult(content: seq<Content>, isError: bool)

  /** A value of the tool-argument map, as far as the handlers' casts can tell them apart. */
  datatype ArgValue = StringArg(s: string) | BoolArg(b: bool) | NullArg | OtherArg

  /** The `Map<String, Object>` of tool arguments. */
  type Args = map<string, ArgValue>

  /** The one-item result every resource handler returns on success. */
  function SingleResource(uri: string, mimeType: string, body: Payload): (r: ReadResourceResult)
    ensures |r.contents| == 1
    ensures r.contents[0].uri == uri && r.contents[0].mimeType == mimeType && r.contents[0].body == body
  {
    ReadResourceResult([TextResourceContents(uri, mimeType, body)])
  }
}
