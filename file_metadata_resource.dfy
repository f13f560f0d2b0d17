/**
 * The `file://metadata/` resource: the metadata of one path, sent as JSON.
 */
module FileMetadataResource {
  import opened Lang
  import opened Strings
  import opened Disk
  import opened Model
  import opened McpSchema
  import opened FileSystemUtils

  const UriPrefix := "file://metadata/"
  const ErrorPrefix := "Error handling file metadata request: "

  /**
   * `handleRequest(request)` for a request whose URI is `uri` (None for null).
   * Only IOExceptions are caught and wrapped.
   */
  function HandleRequest(fs: Tree, uri: Option<string>): (r: Outcome<ReadResourceResult>)
    ensures r.Threw? ==> r.exc.McpError? || r.exc.IllegalArgument? || r.exc.NullPointer?
  {
    match ExtractPathFromUri(uri, UriPrefix)
    case Threw(e) => Threw(e)
    case Returned(filePath) =>
      var looked :=
        match Metadata(fs, filePath)
        case Threw(e) => Threw(e)
        case Returned(m) => Returned(SingleResource(uri.value, "application/json", MetadataJson(m)));
      WrapIOException(looked, ErrorPrefix)
  }

  /** A null URI or one without the prefix is refused with an unwrapped IllegalArgumentException. */
  lemma MetadataInvalidUri(fs: Tree, uri: Option<string>)
    ensures HandleRequest(fs, uri).Threw? && HandleRequest(fs, uri).exc.IllegalArgument?
      <==> uri.None? || !StartsWith(uri.value, UriPrefix)
    ensures uri.Some? && !StartsWith(uri.value, UriPrefix) ==>
      HandleRequest(fs, uri) == Threw(IllegalArgument("Invalid URI format: " + uri.value))
  {
  }

  /**
   * A well-formed URI is answered with the metadata of the decoded path: a
   * missing path is a wrapped "File does not exist", the root's missing file
   * name a NullPointerException that passes through, and otherwise one JSON
   * item carrying the request URI and the path's record.
   */
  lemma MetadataServed(fs: Tree, uri: string)
    requires StartsWith(uri, UriPrefix)
    ensures var p := ExtractPathFromUri(Some(uri), UriPrefix).value; var q := PathString(p);
      var r := HandleRequest(fs, Some(uri));
      && (q !in fs ==> r == Threw(McpError(ErrorPrefix + ("File does not exist: " + p))))
      && (q in fs && FileName(q).None? ==> r == Threw(NullPointer))
      && (q in fs && FileName(q).Some? ==>
            r.Returned? && r.value == SingleResource(uri, "application/json", MetadataJson(Metadata(fs, p).value))
            && r.value.contents[0].body.record.path == Some(q))
  {
  }

  /** The unit test's missing file: its error names the handler and the missing path. */
  lemma MetadataSampleMissing(fs: Tree, path: string)
    requires '%' !in path && PathString(path) !in fs
    ensures HandleRequest(fs, Some(UriPrefix + path))
      == Threw(McpError(ErrorPrefix + ("File does not exist: " + path)))
  {
    ExtractPlainPath(UriPrefix, path);
  }
}
