/**
 * The `file://content/` resource: a file's text with the MIME type its
 * extension suggests, or its bytes in Base64 when the file looks binary.
 */
module FileContentResource {
  import opened Lang
  import opened Strings
  import opened Disk
  import Base64
  import opened McpSchema
  import opened FileSystemUtils

  const UriPrefix := "file://content/"
  const BinaryMimeType := "application/octet-stream;base64"
  const ErrorPrefix := "Error handling file content request: "

  // --------------------------------------------------------------- MIME types

  /** `determineMimeType(filePath)`: the lower-cased path's suffix, tested in a fixed order. */
  function DetermineMimeType(filePath: string): (r: string)
    ensures r in MimeTypes()
  {
    var p := ToLower(filePath);
    if EndsWith(p, ".txt") then "text/plain"
    else if EndsWith(p, ".html") || EndsWith(p, ".htm") then "text/html"
    else if EndsWith(p, ".css") then "text/css"
    else if EndsWith(p, ".js") then "application/javascript"
    else if EndsWith(p, ".json") then "application/json"
    else if EndsWith(p, ".xml") then "application/xml"
    else if EndsWith(p, ".md") then "text/markdown"
    else if EndsWith(p, ".csv") then "text/csv"
    else if EndsWith(p, ".java") then "text/x-java-source"
    else if EndsWith(p, ".py") then "text/x-python"
    else if EndsWith(p, ".c") || EndsWith(p, ".cpp") || EndsWith(p, ".h") then "text/x-c"
    else "text/plain"
  }

  /** Every MIME type a text file can be given. */
  function MimeTypes(): set<string> {
    {"text/plain", "text/html", "text/css", "application/javascript", "application/json",
     "application/xml", "text/markdown", "text/csv", "text/x-java-source", "text/x-python", "text/x-c"}
  }

  /** The extension table as data: each row's suffixes and the type they give, first row first. */
  datatype MimeRule = MimeRule(suffixes: seq<string>, mimeType: string)

  const MimeTable: seq<MimeRule> := [
    MimeRule([".txt"], "text/plain"),
    MimeRule([".html", ".htm"], "text/html"),
    MimeRule([".css"], "text/css"),
    MimeRule([".js"], "application/javascript"),
    MimeRule([".json"], "application/json"),
    MimeRule([".xml"], "application/xml"),
    MimeRule([".md"], "text/markdown"),
    MimeRule([".csv"], "text/csv"),
    MimeRule([".java"], "text/x-java-source"),
    MimeRule([".py"], "text/x-python"),
    MimeRule([".c", ".cpp", ".h"], "text/x-c")
  ]

  predicate EndsWithAny(p: string, suffixes: seq<string>) {
    exists k :: 0 <= k < |suffixes| && EndsWith(p, suffixes[k])
  }

  /** The type of the first rule one of whose suffixes `p` ends with; text/plain when none does. */
  function FirstMatch(p: string, rules: seq<MimeRule>): (r: string)
    ensures (forall i :: 0 <= i < |rules| ==> !EndsWithAny(p, rules[i].suffixes)) ==> r == "text/plain"
    ensures forall i ::
      (0 <= i < |rules| && EndsWithAny(p, rules[i].suffixes)
       && (forall j :: 0 <= j < i ==> !EndsWithAny(p, rules[j].suffixes)))
      ==> r == rules[i].mimeType
  {
    if rules == [] then "text/plain"
    else if EndsWithAny(p, rules[0].suffixes) then rules[0].mimeType
    else FirstMatch(p, rules[1..])
  }

  lemma AnyOfOne(p: string, a: string)
    ensures EndsWithAny(p, [a]) <==> EndsWith(p, a)
  {
    if EndsWith(p, a) {
      assert [a][0] == a;
    }
  }

  lemma AnyOfTwo(p: string, a: string, b: string)
    ensures EndsWithAny(p, [a, b]) <==> EndsWith(p, a) || EndsWith(p, b)
  {
    if EndsWith(p, a) {
      assert [a, b][0] == a;
    }
    if EndsWith(p, b) {
      assert [a, b][1] == b;
    }
  }

  lemma AnyOfThree(p: string, a: string, b: string, c: string)
    ensures EndsWithAny(p, [a, b, c]) <==> EndsWith(p, a) || EndsWith(p, b) || EndsWith(p, c)
  {
    if EndsWith(p, a) {
      assert [a, b, c][0] == a;
    }
    if EndsWith(p, b) {
      assert [a, b, c][1] == b;
    }
    if EndsWith(p, c) {
      assert [a, b, c][2] == c;
    }
  }

  /** A rule that matches settles the lookup; one that does not passes it on. */
  lemma FirstMatchStep(p: string, rules: seq<MimeRule>)
    requires rules != []
    ensures FirstMatch(p, rules)
      == if EndsWithAny(p, rules[0].suffixes) then rules[0].mimeType else FirstMatch(p, rules[1..])
  {
  }

  /** The table after its first five rows. */
  function LaterRules(): seq<MimeRule> {
    MimeTable[5..]
  }

  /** The first five rows of the table, tested in order. */
  lemma {:induction false} LookupHead(p: string)
    ensures FirstMatch(p, MimeTable)
      == if EndsWith(p, ".txt") then "text/plain"
         else if EndsWith(p, ".html") || EndsWith(p, ".htm") then "text/html"
         else if EndsWith(p, ".css") then "text/css"
         else if EndsWith(p, ".js") then "application/javascript"
         else if EndsWith(p, ".json") then "application/json"
         else FirstMatch(p, LaterRules())
  {
    var t := MimeTable;
    AnyOfOne(p, ".txt");
    AnyOfTwo(p, ".html", ".htm");
    AnyOfOne(p, ".css");
    AnyOfOne(p, ".js");
    AnyOfOne(p, ".json");
    assert t[1..][1..][1..][1..][1..] == LaterRules();
    FirstMatchStep(p, t);
    FirstMatchStep(p, t[1..]);
    FirstMatchStep(p, t[1..][1..]);
    FirstMatchStep(p, t[1..][1..][1..]);
    FirstMatchStep(p, t[1..][1..][1..][1..]);
  }

  /** The last six rows of the table, tested in order, and the text/plain default. */
  lemma {:induction false} LookupTail(p: string)
    ensures FirstMatch(p, LaterRules())
      == if EndsWith(p, ".xml") then "application/xml"
         else if EndsWith(p, ".md") then "text/markdown"
         else if EndsWith(p, ".csv") then "text/csv"
         else if EndsWith(p, ".java") then "text/x-java-source"
         else if EndsWith(p, ".py") then "text/x-python"
         else if EndsWith(p, ".c") || EndsWith(p, ".cpp") || EndsWith(p, ".h") then "text/x-c"
         else "text/plain"
  {
    var t := LaterRules();
    AnyOfOne(p, ".xml");
    AnyOfOne(p, ".md");
    AnyOfOne(p, ".csv");
    AnyOfOne(p, ".java");
    AnyOfOne(p, ".py");
    AnyOfThree(p, ".c", ".cpp", ".h");
    assert t[1..][1..][1..][1..][1..][1..] == [];
    FirstMatchStep(p, t);
    FirstMatchStep(p, t[1..]);
    FirstMatchStep(p, t[1..][1..]);
    FirstMatchStep(p, t[1..][1..][1..]);
    FirstMatchStep(p, t[1..][1..][1..][1..]);
    FirstMatchStep(p, t[1..][1..][1..][1..][1..]);
  }

  /** The if/else chain is the first-match lookup in the extension table. */
  lemma MimeTypeIsTableLookup(filePath: string)
    ensures DetermineMimeType(filePath) == FirstMatch(ToLower(filePath), MimeTable)
  {
    LookupHead(ToLower(filePath));
    LookupTail(ToLower(filePath));
  }

  /** The type depends on the path only through its lower-cased form. */
  lemma MimeTypeIgnoresCase(a: string, b: string)
    requires ToLower(a) == ToLower(b)
    ensures DetermineMimeType(a) == DetermineMimeType(b)
  {
    MimeTypeIsTableLookup(a);
    MimeTypeIsTableLookup(b);
  }

  /** A text ending with `s` has the characters of `s` at its end. */
  lemma EndChar(p: string, s: string, k: nat)
    requires EndsWith(p, s) && 1 <= k <= |s|
    ensures p[|p| - k] == s[|s| - k]
  {
    assert p[|p| - |s|..][|s| - k] == p[|p| - k];
  }

  /** One differing character among the last `|s|` rules out the suffix `s`. */
  lemma EndDiffers(p: string, s: string, k: nat)
    requires 1 <= k <= |s| && k <= |p| && p[|p| - k] != s[|s| - k]
    ensures !EndsWith(p, s)
  {
    if EndsWith(p, s) {
      EndChar(p, s, k);
    }
  }

  /** `.html` and `.htm`, in any case, are HTML. */
  lemma MimeTypeHtml(path: string)
    requires EndsWith(ToLower(path), ".html") || EndsWith(ToLower(path), ".htm")
    ensures DetermineMimeType(path) == "text/html"
  {
    var p := ToLower(path);
    if EndsWith(p, ".html") {
      EndChar(p, ".html", 1);
    } else {
      EndChar(p, ".htm", 1);
    }
    EndDiffers(p, ".txt", 1);
  }

  /** `.c`, `.cpp` and `.h`, in any case, are C source: no earlier suffix ends in their letter. */
  lemma MimeTypeC(path: string)
    requires EndsWith(ToLower(path), ".c") || EndsWith(ToLower(path), ".cpp") || EndsWith(ToLower(path), ".h")
    ensures DetermineMimeType(path) == "text/x-c"
  {
    var p := ToLower(path);
    if EndsWith(p, ".c") {
      EndChar(p, ".c", 1);
    } else if EndsWith(p, ".cpp") {
      EndChar(p, ".cpp", 1);
    } else {
      EndChar(p, ".h", 1);
    }
    EndDiffers(p, ".txt", 1);
    EndDiffers(p, ".html", 1);
    EndDiffers(p, ".htm", 1);
    EndDiffers(p, ".css", 1);
    EndDiffers(p, ".js", 1);
    EndDiffers(p, ".json", 1);
    EndDiffers(p, ".xml", 1);
    EndDiffers(p, ".md", 1);
    EndDiffers(p, ".csv", 1);
    EndDiffers(p, ".java", 1);
    EndDiffers(p, ".py", 1);
  }

  /** `.json` in any case is JSON, although `.js` is tested first. */
  lemma MimeTypeJson(path: string)
    requires EndsWith(ToLower(path), ".json")
    ensures DetermineMimeType(path) == "application/json"
  {
    var p := ToLower(path);
    EndChar(p, ".json", 1);
    EndDiffers(p, ".txt", 1);
    EndDiffers(p, ".html", 1);
    EndDiffers(p, ".htm", 1);
    EndDiffers(p, ".css", 1);
    EndDiffers(p, ".js", 1);
  }

  /** `.js` in any case is JavaScript, although `.css` also ends in "s". */
  lemma MimeTypeJs(path: string)
    requires EndsWith(ToLower(path), ".js")
    ensures DetermineMimeType(path) == "application/javascript"
  {
    var p := ToLower(path);
    EndChar(p, ".js", 1);
    EndChar(p, ".js", 2);
    EndDiffers(p, ".txt", 1);
    EndDiffers(p, ".html", 1);
    EndDiffers(p, ".htm", 1);
    EndDiffers(p, ".css", 2);
  }

  /** A name whose lower-cased form ends in none of the table's suffixes is text/plain. */
  lemma MimeTypeDefault(filePath: string)
    requires forall i :: 0 <= i < |MimeTable| ==> !EndsWithAny(ToLower(filePath), MimeTable[i].suffixes)
    ensures DetermineMimeType(filePath) == "text/plain"
  {
    MimeTypeIsTableLookup(filePath);
  }

  // ------------------------------------------------------------------ request

  /** The MIME type sent with a file: the extension's for text, the Base64 marker otherwise. */
  function MimeTypeFor(fs: Tree, filePath: string): string {
    if TextFileVerdict(fs, filePath) == Returned(true) then DetermineMimeType(filePath) else BinaryMimeType
  }

  /** The work inside `handleRequest`'s try block, for the extracted path. */
  function ReadContent(fs: Tree, utf8: seq<Byte> -> Utf8Result, uri: string, filePath: string)
    : (r: Outcome<ReadResourceResult>)
    ensures r.Threw? ==> r.exc.IOException?
    ensures r.Returned? ==> PathString(filePath) in fs && !IsDirectory(fs, PathString(filePath))
    ensures r.Returned? ==> |r.value.contents| == 1 && r.value.contents[0].uri == uri
  {
    var q := PathString(filePath);
    if q !in fs then Threw(IOException("File does not exist: " + filePath))
    else if IsDirectory(fs, q) then Threw(IOException("Cannot read content of a directory: " + filePath))
    else
      match ReadAsTextOrBase64(fs, utf8, filePath)
      case Threw(e) => Threw(e)
      case Returned(content) => Returned(SingleResource(uri, MimeTypeFor(fs, filePath), Text(content)))
  }

  /**
   * `handleRequest(request)` for a request whose URI is `uri` (None for null).
   * Only IOExceptions are caught and wrapped; the IllegalArgumentException of
   * a malformed URI passes through.
   */
  function HandleRequest(fs: Tree, utf8: seq<Byte> -> Utf8Result, uri: Option<string>)
    : (r: Outcome<ReadResourceResult>)
    ensures r.Threw? ==> r.exc.McpError? || r.exc.IllegalArgument?
  {
    match ExtractPathFromUri(uri, UriPrefix)
    case Threw(e) => Threw(e)
    case Returned(filePath) => WrapIOException(ReadContent(fs, utf8, uri.value, filePath), ErrorPrefix)
  }

  /** A null URI or one without the prefix is refused with an unwrapped IllegalArgumentException. */
  lemma ContentInvalidUri(fs: Tree, utf8: seq<Byte> -> Utf8Result, uri: Option<string>)
    ensures uri.None? ==> HandleRequest(fs, utf8, uri) == Threw(IllegalArgument("Invalid URI format: null"))
    ensures uri.Some? && !StartsWith(uri.value, UriPrefix) ==>
      HandleRequest(fs, utf8, uri) == Threw(IllegalArgument("Invalid URI format: " + uri.value))
    ensures HandleRequest(fs, utf8, uri).Threw? && HandleRequest(fs, utf8, uri).exc.IllegalArgument?
      <==> uri.None? || !StartsWith(uri.value, UriPrefix)
  {
  }

  /** The path a well-formed content URI names. */
  function ContentPath(uri: string): string
    requires StartsWith(uri, UriPrefix)
  {
    ExtractPathFromUri(Some(uri), UriPrefix).value
  }

  /** A missing file and a directory are refused before the file is classified. */
  lemma ContentRefused(fs: Tree, utf8: seq<Byte> -> Utf8Result, uri: string)
    requires StartsWith(uri, UriPrefix)
    ensures var p := ContentPath(uri); var q := PathString(p);
      && (q !in fs ==>
            HandleRequest(fs, utf8, Some(uri)) == Threw(McpError(ErrorPrefix + ("File does not exist: " + p))))
      && (IsDirectory(fs, q) ==>
            HandleRequest(fs, utf8, Some(uri)) == Threw(McpError(ErrorPrefix + ("Cannot read content of a directory: " + p))))
  {
  }

  /**
   * An existing path that is not a directory is read as `isTextFile` decides:
   * its checks' failures are wrapped, a text file comes back decoded with the
   * extension's MIME type, a binary one in Base64. Either way the result is one
   * item carrying the request URI.
   */
  lemma ContentServed(fs: Tree, utf8: seq<Byte> -> Utf8Result, uri: string)
    requires StartsWith(uri, UriPrefix)
    requires PathString(ContentPath(uri)) in fs && !IsDirectory(fs, PathString(ContentPath(uri)))
    ensures var p := ContentPath(uri); var r := HandleRequest(fs, utf8, Some(uri));
      && (TextFileVerdict(fs, p).Threw? ==> r == Threw(McpError(ErrorPrefix + TextFileVerdict(fs, p).exc.message)))
      && (r.Returned? ==>
            |r.value.contents| == 1 && r.value.contents[0].uri == uri && r.value.contents[0].body.Text?)
      && (TextFileVerdict(fs, p) == Returned(true) ==>
            (r.Returned? <==> ReadTextFile(fs, utf8, p).Returned?)
            && (r.Returned? ==>
                  r.value.contents[0].mimeType == DetermineMimeType(p)
                  && r.value.contents[0].body.text == ReadTextFile(fs, utf8, p).value))
      && (TextFileVerdict(fs, p) == Returned(false) ==>
            && r.Returned? && r.value.contents[0].mimeType == BinaryMimeType
            && Base64.Decode(r.value.contents[0].body.text) == Some(fs[PathString(p)].kind.bytes))
  {
    var p := ContentPath(uri);
    ReadersAgreeOnErrors(fs, utf8, p);
  }

  /** Bytes 00 01 02 03 04 hold a zero byte, so they are read in Base64, as "AAECAwQ=". */
  lemma SampleBinaryRead(fs: Tree, utf8: seq<Byte> -> Utf8Result, p: string)
    requires CheckRegularFile(fs, p) == Returned([0, 1, 2, 3, 4])
    ensures TextFileVerdict(fs, p) == Returned(false)
    ensures ReadAsTextOrBase64(fs, utf8, p) == Returned("AAECAwQ=")
  {
    LooksLikeTextCases([0, 1, 2, 3, 4], 0);
    Base64.EncodeSample();
  }

  /** The try block's answer for that file: one Base64 item. */
  lemma SampleBinaryContent(fs: Tree, utf8: seq<Byte> -> Utf8Result, uri: string, p: string)
    requires CheckRegularFile(fs, p) == Returned([0, 1, 2, 3, 4])
    ensures ReadContent(fs, utf8, uri, p) == Returned(SingleResource(uri, BinaryMimeType, Text("AAECAwQ=")))
  {
    var q := PathString(p);
    assert q in fs && !IsDirectory(fs, q) by {
      assert IsRegularFile(fs, q);
    }
    SampleBinaryRead(fs, utf8, p);
    assert MimeTypeFor(fs, p) == BinaryMimeType;
  }

  /** The binary file of the unit tests: bytes 00 01 02 03 04 are served as "AAECAwQ=". */
  lemma ContentSampleBinary(fs: Tree, utf8: seq<Byte> -> Utf8Result, uri: string)
    requires StartsWith(uri, UriPrefix)
    requires var q := PathString(ContentPath(uri));
      q in fs && fs[q].kind == RegularFile([0, 1, 2, 3, 4]) && fs[q].readable
    ensures HandleRequest(fs, utf8, Some(uri))
      == Returned(SingleResource(uri, BinaryMimeType, Text("AAECAwQ=")))
  {
    var p := ContentPath(uri);
    assert CheckRegularFile(fs, p) == Returned([0, 1, 2, 3, 4]);
    SampleBinaryContent(fs, utf8, uri, p);
  }
}
