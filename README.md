# Verified model of the file-browsing MCP server's core

The server answers Model Context Protocol requests about a host filesystem.
It offers three resources (`file://content/…`, `file://metadata/…` and
`file://directory/…`) and three tools (`list_files`, `get_file_metadata` and
`get_file_content`). Underneath them sit the static helpers of
`FileSystemUtils` and the mutable `FileMetadata` bean.

This project models that core in Dafny and proves its properties:

- **Disk.** The host filesystem is a finite `Tree`, a map from path strings to
  entries. Each entry records the kind of what the path resolves to (a
  directory with the names of its entries, a regular file with its bytes, or
  something else), whether it is a symbolic link, its permission flags, its
  hidden flag and its timestamps.
- **Exceptions.** A Java call that may throw becomes an `Outcome`: it either
  returned a value or threw one of the exceptions the code can raise or let
  through.
- **`FileSystemUtils`.** The checks, readers and metadata lookup are functions
  over the tree.
  - `isTextFile` is a method with its buffer loop, proved equal to its
    specification function.
  - `getFileMetadata` is a method that allocates a `FileMetadata` and calls
    its setters.
  - `listFiles` is a method over the stream of paths that returns fresh
    objects and is proved equal to the value-level `Listing`.
- **`FileMetadata`.** It is a class with its twelve fields. Each setter's
  `modifies` clause names its own field alone.
- **Handlers.** The three resource handlers and the three tool lambdas are
  functions from a request URI or an argument map to a result or an
  exception. JSON text is represented by the records it would be written from.

Modules follow the source's classes:

- `Lang` holds Java's vocabulary: nulls, exceptions, `catch (IOException)`.
- `Strings` holds the `String` methods used.
- `Base64` is RFC 4648 section 4 with padding.
- `Disk` models `Path`, `Files.list` and `Files.walk`.
- `UriEscapes` models the four `replace` calls.
- `Model` is `FileMetadata`.
- `FileSystemUtils` is the helpers.
- `McpSchema` holds the protocol values.
- `FileContentResource`, `FileMetadataResource` and `DirectoryListingResource`
  are the resource handlers.
- `PrototypeMcpServerService` holds the tool lambdas.

Behaviours of the code that a reader might not expect:

- **Casts in the tools.** Each tool casts its arguments before its `try`.
  - An argument of the wrong type raises a `ClassCastException` that leaves
    the handler instead of becoming an error result.
  - A `recursive` argument that is present but null is unboxed by the
    `boolean` conditional and throws a `NullPointerException`, also outside
    the `try`.
- **Missing or null `path`.** It reaches `Paths.get(null)` inside the `try`
  and becomes the error result whose message is "null".
- **Root directory.** It has no file name, so its metadata lookup throws a
  `NullPointerException`. That exception is not an `IOException`, so it is
  not dropped by the listing filter and not wrapped by the resources. A
  metadata request for `/` therefore fails, and so does a recursive listing
  of `/`.
- **Linked start directory.** `Files.walk` does not follow a symbolic link it
  starts at. The recursive listing of a linked directory is its own record
  alone.
- **`recursive` search.** The directory resource searches for
  `[?&]recursive=(true|false)` in the whole URI, path included. A path
  containing `&recursive=true` turns recursion on.
- **Null directory URI.** The directory resource dereferences a null URI
  before any check, so it throws an uncaught `NullPointerException` where the
  other resources throw `IllegalArgumentException`.

## Model

| member | source | states |
|---|---|---|
| Lang.MessageOf | src/main/java/user/jakecarr/service/PrototypeMCPServerService.java:103-110 | The message a caught exception contributes to an error text: its detail message, and "null" for a NullPointerException. |
| Lang.WrapIOException | src/main/java/user/jakecarr/resources/FileMetadataResource.java:50-53 | An IOException becomes McpError(prefix + message). A value or any other exception passes through unchanged. No IOException ever leaves. |
| Strings.IndexOf | src/main/java/user/jakecarr/resources/DirectoryListingResource.java:72 | `indexOf('?')`: the first position holding the character, with no earlier occurrence; the length exactly when it is absent. |
| Strings.ToLower | src/main/java/user/jakecarr/resources/FileContentResource.java:113 | Lower-casing keeps the length and maps every character independently. |
| Strings.Replace | src/main/java/user/jakecarr/util/FileSystemUtils.java:248-251 | `String.replace`, each occurrence from the left replaced without rescanning: never longer than its input when the replacement is no longer than the target, strictly shorter once an occurrence is replaced by something shorter; `ReplaceWithoutOccurrence` shows a text without the target comes back unchanged. |
| Strings.ReplaceWithoutOccurrence | src/main/java/user/jakecarr/util/FileSystemUtils.java:248-251 | `replace` leaves a string with no occurrence of the target unchanged. |
| UriEscapes.ReplaceChain | src/main/java/user/jakecarr/util/FileSystemUtils.java:248-251 | The four `replace` calls as written, in order: never longer than the input; `ReplaceChainDecodes` shows the chain is one left-to-right decoding pass. |
| UriEscapes.ReplaceChainDecodes | src/main/java/user/jakecarr/util/FileSystemUtils.java:248-251 | The four `replace` calls in a row equal one left-to-right pass that turns each of %20, %2F, %5C, %3A into its character and copies everything else. |
| UriEscapes.EscapeStagesWellFormed | src/main/java/user/jakecarr/util/FileSystemUtils.java:248-251 | Each stage of the chain, with the escapes replaced so far, is a table of three-character escapes of characters that are neither '%' nor hex digits. |
| UriEscapes.DecodeWithoutPercent | src/main/java/user/jakecarr/util/FileSystemUtils.java:248-251 | A text without '%' is not changed by the decoding. |
| UriEscapes.DecodePlainThen | src/main/java/user/jakecarr/util/FileSystemUtils.java:248-251 | A '%'-free text in front of more text is copied as it is, and the rest is decoded on its own. |
| UriEscapes.DecodeEscapeThen | src/main/java/user/jakecarr/util/FileSystemUtils.java:248-251 | An escape in front of more text becomes its one character. |
| UriEscapes.DecodeEncodeEscapes | src/test/java/user/jakecarr/util/FileSystemUtilsTest.java:245-263 | Writing a '%'-free path's space, slash, backslash and colon as escapes and decoding gives the path back. |
| FileSystemUtils.ExtractPathFromUri | src/main/java/user/jakecarr/util/FileSystemUtils.java:240-255 | A null URI, or one not starting with the prefix, is IllegalArgument("Invalid URI format: " + uri). Otherwise the result is the text after the prefix with the four escapes decoded. |
| FileSystemUtils.ExtractPlainPath | src/test/java/user/jakecarr/util/FileSystemUtilsTest.java:245-263 | prefix + p gives back p when p has no '%'. |
| FileSystemUtils.ExtractEscapedPath | src/main/java/user/jakecarr/util/FileSystemUtils.java:245-251 | Round trip: prefix + the escaped form of a '%'-free path gives back the path. |
| FileSystemUtils.ExtractTwoEscapes | src/test/java/user/jakecarr/util/FileSystemUtilsTest.java:245-263 | A path with one %20 and one %2F between plain parts decodes to the parts joined by a space and a slash. |
| FileSystemUtils.ExtractSamplePlain | src/test/java/user/jakecarr/util/FileSystemUtilsTest.java:245-263 | The unit test's plain URIs give "C:/path/to/file.txt". |
| FileSystemUtils.ExtractSampleEscaped | src/test/java/user/jakecarr/util/FileSystemUtilsTest.java:245-263 | The unit test's escaped URI gives "C:/path/with spaces/and/slashes.txt". |
| FileSystemUtils.ExtractSampleInvalid | src/test/java/user/jakecarr/util/FileSystemUtilsTest.java:267-280 | "invalid://metadata/path" is refused with "Invalid URI format: invalid://metadata/path". |
| FileSystemUtils.CheckRegularFile | src/main/java/user/jakecarr/util/FileSystemUtils.java:196-210 | The checks in order, each with its own message: "File does not exist: ", "Not a regular file: ", "File is not readable: ". It passes exactly for a readable regular file and then yields its bytes. |
| FileSystemUtils.TextFileVerdict | src/main/java/user/jakecarr/util/FileSystemUtils.java:193-230 | The value `isTextFile` returns: the check's own exception when a check fails, a verdict exactly for a readable regular file, and true for an empty one; `IsTextFile` is the buffered loop proved equal to it. |
| FileSystemUtils.IsTextFile | src/main/java/user/jakecarr/util/FileSystemUtils.java:193-231 | The buffer read and the scan loop return exactly the checks' exception, or whether the first min(length, 8192) bytes hold no zero byte. |
| FileSystemUtils.LooksLikeTextCases | src/main/java/user/jakecarr/util/FileSystemUtils.java:212-230 | An empty file is text. A zero byte below position 8192 makes a file binary. Bytes after the first 8192 do not matter. |
| FileSystemUtils.LooksLikeTextSamples | src/test/java/user/jakecarr/util/FileSystemUtilsTest.java:224-241 | The unit test's bytes "Hello\0World" are binary and "Text" is text. |
| FileSystemUtils.ReadTextFile | src/main/java/user/jakecarr/util/FileSystemUtils.java:129-151 | The same three checks with the same exceptions. Then the decoded text, or an IOException on malformed UTF-8. |
| FileSystemUtils.ReadBinaryFile | src/main/java/user/jakecarr/util/FileSystemUtils.java:160-183 | The same three checks with the same exceptions. On success, a Base64 text that decodes to exactly the file's bytes. |
| FileSystemUtils.ReadBinaryFileExactly | src/main/java/user/jakecarr/util/FileSystemUtils.java:179-180 | The returned text is the only one that decodes to the file's bytes. |
| FileSystemUtils.ReadersAgreeOnErrors | src/main/java/user/jakecarr/util/FileSystemUtils.java:132-146 | isTextFile, readTextFile and readBinaryFile refuse exactly the same paths with the same exception. |
| FileSystemUtils.ReadAsTextOrBase64 | src/main/java/user/jakecarr/resources/FileContentResource.java:80-88 | Choosing the reader by isTextFile throws nothing but IOExceptions. |
| FileSystemUtils.Metadata | src/main/java/user/jakecarr/util/FileSystemUtils.java:39-73 | A missing path is IOException("File does not exist: " + path). A root path throws a NullPointerException. A record is returned exactly when the path exists and has a name. |
| FileSystemUtils.MetadataFields | src/main/java/user/jakecarr/util/FileSystemUtils.java:48-69 | The record's name is the last segment and its path the path's string form. Size and type flags come from the entry, the link flag from the path, and permissions and timestamps from the entry. A failing hidden check gives not hidden. |
| FileSystemUtils.MetadataOfEntry | src/main/java/user/jakecarr/util/FileSystemUtils.java:51-52 | The record of a directory entry is named by its name in that directory, and its path is the entry's path. |
| FileSystemUtils.Fill | src/main/java/user/jakecarr/util/FileSystemUtils.java:49-69 | The setter sequence on a new object leaves exactly the entry's record in its fields. |
| FileSystemUtils.FillNames | src/main/java/user/jakecarr/util/FileSystemUtils.java:51-55 | The first five setters leave the name, path, size and the two timestamps, and touch no other field. |
| FileSystemUtils.FillFlags | src/main/java/user/jakecarr/util/FileSystemUtils.java:56-69 | The last seven setters leave the kind and permission flags, the hidden flag false when its check fails, and touch no other field. |
| FileSystemUtils.GetFileMetadata | src/main/java/user/jakecarr/util/FileSystemUtils.java:39-73 | Throws exactly when Metadata throws, with the same exception. Otherwise a fresh object whose fields are Metadata's record. |
| FileSystemUtils.CheckDirectory | src/main/java/user/jakecarr/util/FileSystemUtils.java:86-100 | The checks in order, each with its own message: "Directory does not exist: ", "Not a directory: ", "Directory is not readable: ". They pass exactly for a readable directory. |
| FileSystemUtils.Collect | src/main/java/user/jakecarr/util/FileSystemUtils.java:104-115 | The stream never grows the list: a lookup's IOException drops that path. The only exception that ends it is a NullPointerException. |
| FileSystemUtils.Listing | src/main/java/user/jakecarr/util/FileSystemUtils.java:83-120 | A failed check is thrown as such. The listing can also fail only with a NullPointerException. |
| FileSystemUtils.CollectSound | src/main/java/user/jakecarr/util/FileSystemUtils.java:104-115 | Over named paths the stream cannot fail. Every record is that of a listed path that exists. |
| FileSystemUtils.CollectComplete | src/main/java/user/jakecarr/util/FileSystemUtils.java:104-115 | Over named paths every listed path that exists has its record. |
| FileSystemUtils.CollectPathsStep | src/main/java/user/jakecarr/util/FileSystemUtils.java:104-115 | One listing step over a named path: a found path is put in front, a missing one adds nothing. |
| FileSystemUtils.CollectFound | src/main/java/user/jakecarr/util/FileSystemUtils.java:104-115 | A path whose record is found is listed before the rest. |
| FileSystemUtils.CollectMissing | src/main/java/user/jakecarr/util/FileSystemUtils.java:104-115 | A path whose lookup throws an IOException is skipped. |
| FileSystemUtils.CollectKeepsAll | src/main/java/user/jakecarr/util/FileSystemUtils.java:104-115 | Over named paths that all exist, nothing is dropped. |
| FileSystemUtils.CollectFinds | src/main/java/user/jakecarr/util/FileSystemUtils.java:104-115 | The record of a listed path that exists is in the result. |
| FileSystemUtils.ListingImmediate | src/main/java/user/jakecarr/util/FileSystemUtils.java:104-115 | Non-recursive listing of a directory that passes the checks: every record is that of one of its entries, and every entry that exists has its record. |
| FileSystemUtils.WalkPathsNamed | src/main/java/user/jakecarr/util/FileSystemUtils.java:104 | Every path a walk from a named directory reports has a file name. |
| FileSystemUtils.ListingRecursive | src/main/java/user/jakecarr/util/FileSystemUtils.java:104-115 | Recursive listing of a named directory: the directory's own record first. Every record is that of a walked path, and every walked path that exists has its record. |
| FileSystemUtils.RecursiveListingOfRoot | src/main/java/user/jakecarr/util/FileSystemUtils.java:51 | A recursive listing of a root directory throws a NullPointerException. |
| FileSystemUtils.RecursiveListingOfLink | src/main/java/user/jakecarr/util/FileSystemUtils.java:104 | The recursive listing of a linked directory is its own record alone. |
| FileSystemUtils.RecursiveContainsImmediate | src/main/java/user/jakecarr/util/FileSystemUtils.java:104-115 | For a directory that is not a link, every record of the non-recursive listing is in the recursive one. |
| FileSystemUtils.ListingSampleFlat | src/test/java/user/jakecarr/util/FileSystemUtilsTest.java:89-111 | The unit test's directory (two files and a subdirectory) lists 3 records without recursion. |
| FileSystemUtils.ListingSampleWalked | src/test/java/user/jakecarr/util/FileSystemUtilsTest.java:113-123 | The same tree, whose subdirectory holds one file, lists 5 records when recursive. |
| FileSystemUtils.CollectFive | src/main/java/user/jakecarr/util/FileSystemUtils.java:104-115 | Five named existing paths give five records. |
| FileSystemUtils.CollectStep | src/main/java/user/jakecarr/util/FileSystemUtils.java:106-114 | One step of the stream: an IOException skips the path, another exception ends the listing, and a record is appended. |
| FileSystemUtils.CollectObjects | src/main/java/user/jakecarr/util/FileSystemUtils.java:104-115 | Throws exactly when Collect throws, with the same exception. Otherwise fresh objects whose fields are Collect's records, in order. |
| FileSystemUtils.ListFiles | src/main/java/user/jakecarr/util/FileSystemUtils.java:83-120 | Throws exactly when Listing throws, with the same exception. Otherwise fresh objects whose fields are Listing's records. |
| Disk.PathString | src/main/java/user/jakecarr/util/FileSystemUtils.java:42 | `Paths.get(p).toString()` is in normal form, leaves a normal path unchanged and is empty only for the empty path. |
| Disk.Child | src/main/java/user/jakecarr/util/FileSystemUtils.java:104 | An entry's path is longer than its directory's, extends it, stays normal and ends in the entry's name. |
| Disk.FileName | src/main/java/user/jakecarr/util/FileSystemUtils.java:51 | `getFileName()` is null exactly for a path ending in the separator; otherwise a name without separators. |
| Disk.FileNameOfChild | src/main/java/user/jakecarr/util/FileSystemUtils.java:51 | The file name of an entry's path is its name in the directory. |
| Disk.ListPaths | src/main/java/user/jakecarr/util/FileSystemUtils.java:104 | `Files.list` gives one path per entry, in listing order. |
| Disk.WalkBelow | src/main/java/user/jakecarr/util/FileSystemUtils.java:104 | Every path below a directory extends it, stays normal and has a name. Each entry of the directory is reported. |
| Disk.AllBelowStep | src/main/java/user/jakecarr/util/FileSystemUtils.java:104 | One step of the walk keeps every reported path below the directory walked. |
| Disk.WalkPaths | src/main/java/user/jakecarr/util/FileSystemUtils.java:104 | `Files.walk` reports the start first, and only paths that extend it. |
| Disk.WalkBelowLeaf | src/main/java/user/jakecarr/util/FileSystemUtils.java:104 | Pre-order: an entry that is not entered contributes its path alone. |
| Disk.WalkBelowEnter | src/main/java/user/jakecarr/util/FileSystemUtils.java:104 | Pre-order: an entered directory's path is followed by everything below it, before its later siblings. |
| Disk.WalkBelowClosed | src/main/java/user/jakecarr/util/FileSystemUtils.java:104 | The walk below reaches the entries of every directory it enters. |
| Disk.WalkBelowEntered | src/main/java/user/jakecarr/util/FileSystemUtils.java:104 | When the walk enters its first entry it reports that entry, everything below it and the rest, nothing else. |
| Disk.WalkBelowSkipped | src/main/java/user/jakecarr/util/FileSystemUtils.java:104 | When it does not enter its first entry it reports that entry and the rest, nothing else. |
| Disk.WalkBelowParent | src/main/java/user/jakecarr/util/FileSystemUtils.java:104 | Every path the walk below reports is a starting entry, or an entry of a directory the walk entered. |
| Disk.WalkPathsClosed | src/main/java/user/jakecarr/util/FileSystemUtils.java:104 | The walk reports the entries of every directory it enters: it reaches every descendant. |
| Disk.WalkPathsParent | src/main/java/user/jakecarr/util/FileSystemUtils.java:104 | The walk reports nothing but the start and entries of directories it entered. |
| Disk.WalkOfLeaf | src/main/java/user/jakecarr/util/FileSystemUtils.java:104 | A walk started at a link or at a non-directory reports the start alone. |
| Disk.WalkSample | src/test/java/user/jakecarr/util/FileSystemUtilsTest.java:88-123 | The unit test's tree is walked in pre-order: directory, two files, subdirectory, its file. |
| Disk.WalkOneSubdirectory | src/test/java/user/jakecarr/util/FileSystemUtilsTest.java:88-123 | A subdirectory holding one file is walked as itself, then the file. |
| Disk.WalkTwoFiles | src/test/java/user/jakecarr/util/FileSystemUtilsTest.java:88-123 | Two files ahead of the rest of a directory are walked first, in order. |
| Base64.Encode | src/main/java/user/jakecarr/util/FileSystemUtils.java:179-180 | The encoding has 4·⌈n/3⌉ characters, all from the padded alphabet. |
| Base64.DecodeEncode | src/main/java/user/jakecarr/util/FileSystemUtils.java:179-180 | Decoding the encoding of any bytes gives the bytes back. |
| Base64.EncodeDecode | src/main/java/user/jakecarr/util/FileSystemUtils.java:179-180 | Every text that decodes is the encoding of what it decodes to. |
| Base64.DecodeIffEncode | src/main/java/user/jakecarr/util/FileSystemUtils.java:179-180 | A text decodes to some bytes exactly when it is their encoding. |
| Base64.EncodeSample | src/test/java/user/jakecarr/resources/FileContentResourceTest.java:82-104 | Bytes 00 01 02 03 04 encode as "AAECAwQ=". |
| Model.FileMetadata.constructor | src/main/java/user/jakecarr/model/FileMetadata.java:11-28 | A new object has null name, path and timestamps, size 0 and every flag false. |
| Model.FileMetadata.SetName | src/main/java/user/jakecarr/model/FileMetadata.java:44-46 | Writes the name and no other field. |
| Model.FileMetadata.SetPath | src/main/java/user/jakecarr/model/FileMetadata.java:62-64 | Writes the path and no other field. |
| Model.FileMetadata.SetSize | src/main/java/user/jakecarr/model/FileMetadata.java:80-82 | Writes the size and no other field. |
| Model.FileMetadata.SetLastModifiedInstant | src/main/java/user/jakecarr/model/FileMetadata.java:98-100 | Writes the given instant, null included, and no other field. |
| Model.FileMetadata.SetLastModifiedFileTime | src/main/java/user/jakecarr/model/FileMetadata.java:107-111 | Null leaves the timestamp unchanged. Otherwise it writes the time's instant, and no other field. |
| Model.FileMetadata.SetCreationTimeInstant | src/main/java/user/jakecarr/model/FileMetadata.java:127-129 | Writes the given instant, null included, and no other field. |
| Model.FileMetadata.SetCreationTimeFileTime | src/main/java/user/jakecarr/model/FileMetadata.java:136-140 | Null leaves the creation time unchanged. Otherwise it writes the time's instant, and no other field. |
| Model.FileMetadata.SetDirectory | src/main/java/user/jakecarr/model/FileMetadata.java:156-158 | Writes the directory flag and no other field. |
| Model.FileMetadata.SetRegularFile | src/main/java/user/jakecarr/model/FileMetadata.java:174-176 | Writes the regular-file flag and no other field. |
| Model.FileMetadata.SetSymbolicLink | src/main/java/user/jakecarr/model/FileMetadata.java:192-194 | Writes the link flag and no other field. |
| Model.FileMetadata.SetHidden | src/main/java/user/jakecarr/model/FileMetadata.java:210-212 | Writes the hidden flag and no other field. |
| Model.FileMetadata.SetReadable | src/main/java/user/jakecarr/model/FileMetadata.java:228-230 | Writes the readable flag and no other field. |
| Model.FileMetadata.SetWritable | src/main/java/user/jakecarr/model/FileMetadata.java:246-248 | Writes the writable flag and no other field. |
| Model.FileMetadata.SetExecutable | src/main/java/user/jakecarr/model/FileMetadata.java:264-266 | Writes the executable flag and no other field. |
| Model.FileMetadata.FormattedLastModified | src/main/java/user/jakecarr/model/FileMetadata.java:273-278 | Null exactly when the timestamp is null; otherwise the timestamp formatted. |
| Model.FileMetadata.FormattedCreationTime | src/main/java/user/jakecarr/model/FileMetadata.java:285-290 | Null exactly when the creation time is null; otherwise the creation time formatted. |
| McpSchema.SingleResource | src/main/java/user/jakecarr/resources/FileContentResource.java:92-99 | A resource result holds exactly one item, carrying the given URI, MIME type and text. |
| FileContentResource.DetermineMimeType | src/main/java/user/jakecarr/resources/FileContentResource.java:112-140 | The type is always one of the table's eleven types. |
| FileContentResource.FirstMatch | src/main/java/user/jakecarr/resources/FileContentResource.java:115-139 | The type of the first rule one of whose suffixes matches; text/plain when no rule matches. |
| FileContentResource.MimeTypeIsTableLookup | src/main/java/user/jakecarr/resources/FileContentResource.java:112-140 | The if/else chain on the lower-cased path is the first-match lookup in the extension table. |
| FileContentResource.LookupHead | src/main/java/user/jakecarr/resources/FileContentResource.java:115-124 | The table's first five rows give txt, html/htm, css, js and json in that order. |
| FileContentResource.LookupTail | src/main/java/user/jakecarr/resources/FileContentResource.java:125-139 | The last six rows give xml, md, csv, java, py and c/cpp/h, then text/plain. |
| FileContentResource.MimeTypeIgnoresCase | src/main/java/user/jakecarr/resources/FileContentResource.java:113 | Paths equal after lower-casing get the same type. |
| FileContentResource.MimeTypeHtml | src/main/java/user/jakecarr/resources/FileContentResource.java:117-118 | .html and .htm, in any case, are text/html. |
| FileContentResource.MimeTypeC | src/main/java/user/jakecarr/resources/FileContentResource.java:135-136 | .c, .cpp and .h, in any case, are text/x-c. |
| FileContentResource.MimeTypeJson | src/main/java/user/jakecarr/resources/FileContentResource.java:121-124 | .json is application/json although .js is tested first. |
| FileContentResource.MimeTypeJs | src/main/java/user/jakecarr/resources/FileContentResource.java:119-122 | .js is application/javascript although .css is tested first. |
| FileContentResource.MimeTypeDefault | src/main/java/user/jakecarr/resources/FileContentResource.java:137-139 | A path matching no suffix is text/plain. |
| FileContentResource.ReadContent | src/main/java/user/jakecarr/resources/FileContentResource.java:64-99 | The try block: only IOExceptions, an answer only for an existing path that is not a directory, and then one item carrying the request URI; `ContentRefused` and `ContentServed` give the messages and contents. |
| FileContentResource.HandleRequest | src/main/java/user/jakecarr/resources/FileContentResource.java:59-104 | Only McpError or IllegalArgumentException leave the handler. |
| FileContentResource.ContentInvalidUri | src/main/java/user/jakecarr/resources/FileContentResource.java:63-102 | A null URI or one without the prefix is an unwrapped IllegalArgumentException "Invalid URI format: …". It is the only way to get one. |
| FileContentResource.ContentRefused | src/main/java/user/jakecarr/resources/FileContentResource.java:67-75 | A missing path is McpError("Error handling file content request: File does not exist: " + path). A directory gives "…Cannot read content of a directory: " + path before any classification. |
| FileContentResource.ContentServed | src/main/java/user/jakecarr/resources/FileContentResource.java:80-99 | A non-directory is read as isTextFile decides, and the checks' failures are wrapped. Text gets the decoded content with the extension's MIME type. Binary gets Base64 of the bytes with "application/octet-stream;base64". A success is one item with the request URI. |
| FileContentResource.ContentSampleBinary | src/test/java/user/jakecarr/resources/FileContentResourceTest.java:82-104 | The binary test file 00 01 02 03 04 is served as "AAECAwQ=" with the Base64 MIME type. |
| FileContentResource.SampleBinaryRead | src/test/java/user/jakecarr/resources/FileContentResourceTest.java:82-104 | Bytes 00 01 02 03 04 are judged binary and read as "AAECAwQ=". |
| FileContentResource.SampleBinaryContent | src/test/java/user/jakecarr/resources/FileContentResourceTest.java:82-104 | The try block answers that file with one Base64 item. |
| FileMetadataResource.HandleRequest | src/main/java/user/jakecarr/resources/FileMetadataResource.java:31-54 | Only McpError, IllegalArgumentException or the root's NullPointerException leave the handler. |
| FileMetadataResource.MetadataInvalidUri | src/test/java/user/jakecarr/resources/FileMetadataResourceTest.java:135-149 | Exactly the null URI and those without "file://metadata/" are refused with an unwrapped IllegalArgumentException quoting the URI. |
| FileMetadataResource.MetadataServed | src/main/java/user/jakecarr/resources/FileMetadataResource.java:36-53 | A missing decoded path gives McpError("Error handling file metadata request: File does not exist: " + path). A root gives a NullPointerException. Otherwise one JSON item with the request URI and the path's record. |
| FileMetadataResource.MetadataSampleMissing | src/test/java/user/jakecarr/resources/FileMetadataResourceTest.java:114-131 | A missing file's error names the handler and the path. |
| DirectoryListingResource.UriWithoutParams | src/main/java/user/jakecarr/resources/DirectoryListingResource.java:72 | A prefix of the URI without '?', which is the whole URI or stops right at its first '?'. |
| DirectoryListingResource.MatchAt | src/main/java/user/jakecarr/resources/DirectoryListingResource.java:27 | The pattern can match only at a '?' or '&'. |
| DirectoryListingResource.FindFrom | src/main/java/user/jakecarr/resources/DirectoryListingResource.java:77-78 | `matcher.find()` from a position finds something only where a '?' or '&' lies at or after it; `FindFromSound`, `FindFromLeftmost` and `FindFromNothing` show it is the leftmost match. |
| DirectoryListingResource.RecursiveFlag | src/main/java/user/jakecarr/resources/DirectoryListingResource.java:76-80 | `recursive` starts false and is the first match's parsed word; true only for a URI holding '?' or '&'; `RecursiveFlagIff` gives both directions. |
| DirectoryListingResource.FindFromSound | src/main/java/user/jakecarr/resources/DirectoryListingResource.java:77-80 | What `find()` returns is the match at the leftmost matching position. |
| DirectoryListingResource.FindFromLeftmost | src/main/java/user/jakecarr/resources/DirectoryListingResource.java:77-80 | The leftmost matching position is the one found. |
| DirectoryListingResource.FindFromNothing | src/main/java/user/jakecarr/resources/DirectoryListingResource.java:76-80 | Without a match nothing is found. |
| DirectoryListingResource.RecursiveFlagIff | src/main/java/user/jakecarr/resources/DirectoryListingResource.java:76-80 | recursive is true exactly when the leftmost match of `[?&]recursive=(true\|false)` captures "true". |
| DirectoryListingResource.FlagAfterPlainText | src/main/java/user/jakecarr/resources/DirectoryListingResource.java:76-80 | A parameter after text without '?' or '&' is what counts, whatever follows; it may also lie in the path. |
| DirectoryListingResource.WordMatches | src/main/java/user/jakecarr/resources/DirectoryListingResource.java:27 | Of the two alternatives, "true" matches exactly when the word written is true, and "false" otherwise. |
| DirectoryListingResource.FlagAbsent | src/main/java/user/jakecarr/resources/DirectoryListingResource.java:76 | A URI without '?' or '&' lists non-recursively. |
| DirectoryListingResource.HandleRequest | src/main/java/user/jakecarr/resources/DirectoryListingResource.java:66-102 | Only McpError, IllegalArgumentException or NullPointerException leave the handler. |
| DirectoryListingResource.DirectoryInvalidUri | src/main/java/user/jakecarr/resources/DirectoryListingResource.java:70-100 | A URI without the prefix is an unwrapped IllegalArgumentException quoting the URI without its query. |
| DirectoryListingResource.DirectoryListed | src/main/java/user/jakecarr/resources/DirectoryListingResource.java:72-101 | The path is the decoded text between the prefix and the first '?'. listFiles' IOException becomes McpError("Error handling directory listing request: " + message), and a NullPointerException passes through. A listing is one "application/json" item with the full request URI. |
| PrototypeMcpServerService.PathArg | src/main/java/user/jakecarr/service/PrototypeMCPServerService.java:92 | `(String) get("path")`: a string value is that string, absent or null is null, and any other type fails the cast. |
| PrototypeMcpServerService.RecursiveArg | src/main/java/user/jakecarr/service/PrototypeMCPServerService.java:93 | Absent means false and a boolean is itself. Null is a NullPointerException; another type is a ClassCastException. |
| PrototypeMcpServerService.Envelope | src/main/java/user/jakecarr/service/PrototypeMCPServerService.java:95-110 | Exactly one content item. isError exactly when the body threw: then prefix + message, otherwise the payload. |
| PrototypeMcpServerService.ListFilesBody | src/main/java/user/jakecarr/service/PrototypeMCPServerService.java:95-102 | The list_files try block throws only IOExceptions and NullPointerExceptions. |
| PrototypeMcpServerService.MetadataBody | src/main/java/user/jakecarr/service/PrototypeMCPServerService.java:123-130 | The get_file_metadata try block throws only IOExceptions and NullPointerExceptions. |
| PrototypeMcpServerService.ContentBody | src/main/java/user/jakecarr/service/PrototypeMCPServerService.java:151-168 | The get_file_content try block throws only IOExceptions and NullPointerExceptions. |
| PrototypeMcpServerService.ListFilesTool | src/main/java/user/jakecarr/service/PrototypeMCPServerService.java:91-110 | The `list_files` lambda: only a ClassCastException or the null-`recursive` NullPointerException escapes; otherwise one item, an error one carrying "Error listing files: "; see `ListFilesAnswers`. |
| PrototypeMcpServerService.GetFileMetadataTool | src/main/java/user/jakecarr/service/PrototypeMCPServerService.java:120-138 | The `get_file_metadata` lambda: only a ClassCastException escapes; one item, the metadata record on success or an error text carrying "Error getting file metadata: ". |
| PrototypeMcpServerService.GetFileContentTool | src/main/java/user/jakecarr/service/PrototypeMCPServerService.java:148-176 | The `get_file_content` lambda: only a ClassCastException escapes; one text item, carrying "Error reading file content: " when it is an error; see `ContentToolRefuses` and `ContentToolMatchesResource`. |
| PrototypeMcpServerService.ToolsThrowOnlyCasts | src/main/java/user/jakecarr/service/PrototypeMCPServerService.java:91-177 | A tool throws exactly when an argument read before its try fails, and then only with a ClassCastException, or for list_files's null recursive a NullPointerException. |
| PrototypeMcpServerService.RecursiveDefaultsToFalse | src/main/java/user/jakecarr/service/PrototypeMCPServerService.java:93 | Leaving out recursive is the same as passing false. |
| PrototypeMcpServerService.ListFilesAnswers | src/main/java/user/jakecarr/service/PrototypeMCPServerService.java:95-110 | With a string path, list_files gives one item: the listing when it succeeds, else isError with "Error listing files: " + message. |
| PrototypeMcpServerService.ToolsWithoutPath | src/main/java/user/jakecarr/service/PrototypeMCPServerService.java:92-176 | A missing or null path gives each tool's error prefix followed by "null". |
| PrototypeMcpServerService.ContentToolRefuses | src/main/java/user/jakecarr/service/PrototypeMCPServerService.java:169-175 | A missing path or a directory gives "Error reading file content: " + isTextFile's message. |
| PrototypeMcpServerService.ContentToolMatchesResource | src/main/java/user/jakecarr/service/PrototypeMCPServerService.java:155-168 | For a regular file the tool sends the same content as the content resource. It fails exactly when the resource does, and its MIME type is not sent. |
| PrototypeMcpServerService.MetadataToolMatchesResource | src/main/java/user/jakecarr/service/PrototypeMCPServerService.java:120-139 | The metadata tool sends the same record as the metadata resource and fails exactly when it does. |

## Left out

- JSON serialisation through Jackson is not modelled: a payload carries the records it would be written from. The `JsonProcessingException` that serialisation could raise is not modelled either.
- ISO-8601 formatting of timestamps is not modelled: it is a parameter of the formatted getters. Timestamps are opaque instants.
- The real filesystem is not modelled.
  - `Files.exists`, `isDirectory`, `isRegularFile`, `isReadable`, `isWritable`, `isExecutable`, `isSymbolicLink` and `isHidden` are fields of an entry.
  - `Paths.get` is modelled only as Unix separator normalisation. Windows paths are not modelled, and neither is the `InvalidPathException` for NUL characters.
  - The IOException that `readAttributes` may raise for an existing path is not modelled.
- The `UncheckedIOException` that `Files.walk` and `Files.list` raise for an unreadable subdirectory, or for an entry that vanishes during the walk, is not modelled. An entry that vanishes before its lookup is modelled, and it is dropped.
- Listing order is the order of a directory's names in the tree. The platform's order is not modelled.
- UTF-8 decoding in `readTextFile` is a parameter `utf8` of the readers and handlers.
- The unclosed stream of `isTextFile` is not modelled, and neither are short reads: the read fills min(length, 8192) bytes.
- Strings.ToLower: only ASCII letters are lower-cased. The table's suffixes hold only ASCII letters, so the MIME type is unaffected except for non-ASCII characters whose lower case is ASCII.
- Model.FileMetadata.SetSize: the Java `long` is an unbounded integer; file sizes never reach its bound.
- Lang.MessageOf: a JVM-raised NullPointerException's detail message is modelled as absent, so it prints "null". JDKs with helpful NullPointerException messages print a computed description instead.
- The getters of `FileMetadata` are reads of its fields through `Snapshot`, without a member each.
- What the MCP SDK does with an exception that leaves a tool lambda is not modelled: a thrown `ClassCastException` or `NullPointerException` is the result.
- The MCP SDK surface (server builder, transport, tool schemas, `initialize` and `shutdown`), Spring wiring, the application entry points, `FileSystemServer`, `PrototypeMCPServer` and Log4j logging are not modelled. They are plumbing without decisions of their own.
