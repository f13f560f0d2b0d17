/**
 * The three tools of `PrototypeMCPServerService`: `list_files`,
 * `get_file_metadata` and `get_file_content`, each a mapping from its
 * argument map to a tool result.
 */
module PrototypeMcpServerService {
  import opened Lang
  import opened Disk
  import Base64
  import opened McpSchema
  import opened FileSystemUtils
  import FileContentResource
  import FileMetadataResource

  const ListError := "Error listing files: "
  const MetadataError := "Error getting file metadata: "
  const ContentError := "Error reading file content: "

  // --------------------------------------------------------------- arguments

  /**
   * `(String) toolArgs.get("path")`, outside the try block: an absent or null
   * value is null, a value of another type fails the cast.
   */
  function PathArg(args: Args): (r: Outcome<Option<string>>)
    ensures r.Threw? <==> "path" in args && (args["path"].BoolArg? || args["path"].OtherArg?)
    ensures r.Threw? ==> r.exc == ClassCast
    ensures r.Returned? && r.value.Some? <==> "path" in args && args["path"].StringArg?
    ensures r.Returned? && r.value.Some? ==> r.value.value == args["path"].s
  {
    if "path" !in args then Returned(None)
    else
      match args["path"]
      case StringArg(s) => Returned(Some(s))
      case NullArg => Returned(None)
      case _ => Threw(ClassCast)
  }

  /**
   * `toolArgs.containsKey("recursive") ? (Boolean) toolArgs.get("recursive") : false`,
   * outside the try block. The conditional has type `boolean`, so a null value
   * is unboxed there and throws a NullPointerException.
   */
  function RecursiveArg(args: Args): (r: Outcome<bool>)
    ensures "recursive" !in args ==> r == Returned(false)
    ensures r.Returned? && "recursive" in args ==> args["recursive"] == BoolArg(r.value)
    ensures r.Threw? ==> "recursive" in args
    ensures r.Threw? ==> (args["recursive"] == NullArg <==> r.exc == NullPointer)
    ensures r.Threw? ==> (args["recursive"] != NullArg <==> r.exc == ClassCast)
  {
    if "recursive" !in args then Returned(false)
    else
      match args["recursive"]
      case BoolArg(b) => Returned(b)
      case NullArg => Threw(NullPointer)
      case _ => Threw(ClassCast)
  }

  // -------------------------------------------------------------- envelopes

  /**
   * `try { ... } catch (Exception e)` around a tool's work: its payload as the
   * single content item, or the prefixed message as the single item of an error
   * result.
   */
  function Envelope(prefix: string, body: Outcome<Payload>): (r: CallToolResult)
    requires body.Threw? ==> Reportable(body.exc)
    ensures |r.content| == 1
    ensures r.isError <==> body.Threw?
    ensures body.Returned? ==> r.content[0].body == body.value
    ensures body.Threw? ==> r.content[0].body == Text(prefix + MessageOf(body.exc))
  {
    match body
    case Returned(b) => CallToolResult([TextContent(b)], false)
    case Threw(e) => CallToolResult([TextContent(Text(prefix + MessageOf(e)))], true)
  }

  // ------------------------------------------------------------------ tools

  /** The try block of `list_files`: `Paths.get(null)` throws a NullPointerException. */
  function ListFilesBody(fs: Tree, path: Option<string>, recursive: bool): (r: Outcome<Payload>)
    ensures r.Threw? ==> r.exc.IOException? || r.exc.NullPointer?
  {
    if path.None? then Threw(NullPointer)
    else
      match Listing(fs, path.value, recursive)
      case Threw(e) => Threw(e)
      case Returned(ms) => Returned(ListingJson(ms))
  }

  /** The `list_files` handler. A failed cast leaves the handler; everything else is an envelope. */
  function ListFilesTool(fs: Tree, args: Args): (r: Outcome<CallToolResult>)
    ensures r.Threw? ==> r.exc == ClassCast || r.exc == NullPointer
    ensures r.Returned? ==> |r.value.content| == 1
    ensures r.Returned? && r.value.isError ==>
      r.value.content[0].body.Text? && ListError <= r.value.content[0].body.text
  {
    match PathArg(args)
    case Threw(e) => Threw(e)
    case Returned(path) =>
      match RecursiveArg(args)
      case Threw(e) => Threw(e)
      case Returned(recursive) => Returned(Envelope(ListError, ListFilesBody(fs, path, recursive)))
  }

  /** The try block of `get_file_metadata`. */
  function MetadataBody(fs: Tree, path: Option<string>): (r: Outcome<Payload>)
    ensures r.Threw? ==> r.exc.IOException? || r.exc.NullPointer?
  {
    if path.None? then Threw(NullPointer)
    else
      match Metadata(fs, path.value)
      case Threw(e) => Threw(e)
      case Returned(m) => Returned(MetadataJson(m))
  }

  /** The `get_file_metadata` handler. */
  function GetFileMetadataTool(fs: Tree, args: Args): (r: Outcome<CallToolResult>)
    ensures r.Threw? ==> r.exc == ClassCast
    ensures r.Returned? ==> |r.value.content| == 1
    ensures r.Returned? && r.value.isError ==>
      r.value.content[0].body.Text? && MetadataError <= r.value.content[0].body.text
    ensures r.Returned? && !r.value.isError ==> r.value.content[0].body.MetadataJson?
  {
    match PathArg(args)
    case Threw(e) => Threw(e)
    case Returned(path) => Returned(Envelope(MetadataError, MetadataBody(fs, path)))
  }

  /**
   * The try block of `get_file_content`: `isTextFile` chooses between the text
   * and the Base64 reader. The MIME type it picks is never sent.
   */
  function ContentBody(fs: Tree, utf8: seq<Byte> -> Utf8Result, path: Option<string>): (r: Outcome<Payload>)
    ensures r.Threw? ==> r.exc.IOException? || r.exc.NullPointer?
  {
    if path.None? then Threw(NullPointer)
    else
      match ReadAsTextOrBase64(fs, utf8, path.value)
      case Threw(e) => Threw(e)
      case Returned(content) => Returned(Text(content))
  }

  /** The `get_file_content` handler. */
  function GetFileContentTool(fs: Tree, utf8: seq<Byte> -> Utf8Result, args: Args): (r: Outcome<CallToolResult>)
    ensures r.Threw? ==> r.exc == ClassCast
    ensures r.Returned? ==> |r.value.content| == 1 && r.value.content[0].body.Text?
    ensures r.Returned? && r.value.isError ==> ContentError <= r.value.content[0].body.text
  {
    match PathArg(args)
    case Threw(e) => Threw(e)
    case Returned(path) => Returned(Envelope(ContentError, ContentBody(fs, utf8, path)))
  }

  // ----------------------------------------------------------------- lemmas

  /** Only a failed cast of an argument escapes a handler; then no result is built. */
  lemma ToolsThrowOnlyCasts(fs: Tree, utf8: seq<Byte> -> Utf8Result, args: Args)
    ensures ListFilesTool(fs, args).Threw? <==> PathArg(args).Threw? || RecursiveArg(args).Threw?
    ensures GetFileMetadataTool(fs, args).Threw? <==> PathArg(args).Threw?
    ensures GetFileContentTool(fs, utf8, args).Threw? <==> PathArg(args).Threw?
    ensures ListFilesTool(fs, args).Threw? ==>
      ListFilesTool(fs, args).exc == ClassCast || ListFilesTool(fs, args).exc == NullPointer
    ensures GetFileMetadataTool(fs, args).Threw? ==> GetFileMetadataTool(fs, args).exc == ClassCast
  {
  }

  /** Leaving out `recursive` is the same as passing false. */
  lemma RecursiveDefaultsToFalse(fs: Tree, args: Args)
    requires "recursive" !in args
    ensures ListFilesTool(fs, args) == ListFilesTool(fs, args["recursive" := BoolArg(false)])
  {
    var more := args["recursive" := BoolArg(false)];
    assert PathArg(more) == PathArg(args) by {
      assert ("path" in more) == ("path" in args);
      if "path" in args {
        assert more["path"] == args["path"];
      }
    }
  }

  /**
   * `list_files` with a string path answers with the listing of that path, or
   * with an error result carrying "Error listing files: " and the listing's message.
   */
  lemma ListFilesAnswers(fs: Tree, args: Args, path: string)
    requires "path" in args && args["path"] == StringArg(path)
    requires RecursiveArg(args).Returned?
    ensures var l := Listing(fs, path, RecursiveArg(args).value); var r := ListFilesTool(fs, args);
      && r.Returned? && |r.value.content| == 1
      && (r.value.isError <==> l.Threw?)
      && (l.Returned? ==> r.value.content[0].body == ListingJson(l.value))
      && (l.Threw? ==> r.value.content[0].body == Text(ListError + MessageOf(l.exc)))
  {
  }

  /** A missing or null path is reported as an error whose message is "null". */
  lemma ToolsWithoutPath(fs: Tree, utf8: seq<Byte> -> Utf8Result, args: Args)
    requires "path" !in args || args["path"] == NullArg
    requires RecursiveArg(args).Returned?
    ensures ListFilesTool(fs, args) == Returned(CallToolResult([TextContent(Text(ListError + "null"))], true))
    ensures GetFileMetadataTool(fs, args) == Returned(CallToolResult([TextContent(Text(MetadataError + "null"))], true))
    ensures GetFileContentTool(fs, utf8, args) == Returned(CallToolResult([TextContent(Text(ContentError + "null"))], true))
  {
  }

  /** `get_file_content` on a missing path or a directory reports `isTextFile`'s message. */
  lemma ContentToolRefuses(fs: Tree, utf8: seq<Byte> -> Utf8Result, args: Args, path: string)
    requires "path" in args && args["path"] == StringArg(path)
    ensures var q := PathString(path);
      && (q !in fs ==>
            GetFileContentTool(fs, utf8, args)
            == Returned(CallToolResult([TextContent(Text(ContentError + ("File does not exist: " + path)))], true)))
      && (IsDirectory(fs, q) ==>
            GetFileContentTool(fs, utf8, args)
            == Returned(CallToolResult([TextContent(Text(ContentError + ("Not a regular file: " + path)))], true)))
  {
  }

  /**
   * The content tool and the content resource send the same text for a
   * regular file: the tool's only item is the resource's body, without its MIME type.
   */
  lemma ContentToolMatchesResource(fs: Tree, utf8: seq<Byte> -> Utf8Result, args: Args, path: string)
    requires "path" in args && args["path"] == StringArg(path) && '%' !in path
    requires IsRegularFile(fs, PathString(path))
    ensures var uri := FileContentResource.UriPrefix + path;
      var res := FileContentResource.HandleRequest(fs, utf8, Some(uri));
      var tool := GetFileContentTool(fs, utf8, args).value;
      (res.Returned? <==> !tool.isError)
      && (res.Returned? ==>
            res.value == SingleResource(uri, FileContentResource.MimeTypeFor(fs, path), tool.content[0].body))
  {
    ExtractPlainPath(FileContentResource.UriPrefix, path);
  }

  /** The metadata tool and the metadata resource send the same record for a path without '%'. */
  lemma MetadataToolMatchesResource(fs: Tree, args: Args, path: string)
    requires "path" in args && args["path"] == StringArg(path) && '%' !in path
    ensures var uri := FileMetadataResource.UriPrefix + path;
      var res := FileMetadataResource.HandleRequest(fs, Some(uri));
      var tool := GetFileMetadataTool(fs, args).value;
      (res.Returned? <==> !tool.isError)
      && (res.Returned? ==> tool.content[0].body == res.value.contents[0].body)
  {
    ExtractPlainPath(FileMetadataResource.UriPrefix, path);
  }
}
