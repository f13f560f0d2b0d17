/**
 * The static helpers of `FileSystemUtils`: URI path extraction, the checks and
 * reads behind file content, the text/binary heuristic, metadata and listings.
 * Every filesystem question is asked of a `Tree`.
 */
module FileSystemUtils {
  import opened Lang
  import opened Strings
  import opened Disk
  import Base64
  import opened UriEscapes
  import opened Model

  // ---------------------------------------------------------------- URI paths

  /**
   * `extractPathFromUri(uri, prefix)`: a null URI or one without the prefix is
   * an IllegalArgumentException; otherwise the text after the prefix with the
   * four escapes decoded.
   */
  function ExtractPathFromUri(uri: Option<string>, prefix: string): (r: Outcome<string>)
    ensures uri.None? ==> r == Threw(IllegalArgument("Invalid URI format: null"))
    ensures uri.Some? && !StartsWith(uri.value, prefix) ==>
      r == Threw(IllegalArgument("Invalid URI format: " + uri.value))
    ensures uri.Some? && StartsWith(uri.value, prefix) ==>
      r == Returned(DecodeEscapes(uri.value[|prefix|..]))
  {
    if uri.None? then Threw(IllegalArgument("Invalid URI format: null"))
    else if !StartsWith(uri.value, prefix) then Threw(IllegalArgument("Invalid URI format: " + uri.value))
    else
      var path := uri.value[|prefix|..];
      ReplaceChainDecodes(path);
      Returned(ReplaceChain(path))
  }

  /** A path without '%' comes back unchanged from behind any prefix. */
  lemma ExtractPlainPath(prefix: string, p: string)
    requires '%' !in p
    ensures ExtractPathFromUri(Some(prefix + p), prefix) == Returned(p)
  {
    assert (prefix + p)[|prefix|..] == p;
    DecodeWithoutPercent(p);
  }

  /** A path without '%', written with its four special characters escaped, is recovered exactly. */
  lemma ExtractEscapedPath(prefix: string, p: string)
    requires '%' !in p
    ensures ExtractPathFromUri(Some(prefix + EncodeEscapes(p)), prefix) == Returned(p)
  {
    assert (prefix + EncodeEscapes(p))[|prefix|..] == EncodeEscapes(p);
    DecodeEncodeEscapes(p);
  }

  /** The URIs of the unit tests, written as prefix followed by path. */
  lemma ExtractSamplePlain()
    ensures ExtractPathFromUri(Some("file://metadata/" + "C:/path/to/file.txt"), "file://metadata/")
      == Returned("C:/path/to/file.txt")
    ensures ExtractPathFromUri(Some("file://content/" + "C:/path/to/file.txt"), "file://content/")
      == Returned("C:/path/to/file.txt")
  {
    ExtractPlainPath("file://metadata/", "C:/path/to/file.txt");
    ExtractPlainPath("file://content/", "C:/path/to/file.txt");
  }

  /** A path with one escaped space and one escaped slash between plain parts. */
  lemma ExtractTwoEscapes(prefix: string, a: string, b: string, c: string)
    requires '%' !in a && '%' !in b && '%' !in c
    ensures ExtractPathFromUri(Some(prefix + (a + ("%20" + (b + ("%2F" + c))))), prefix)
      == Returned(a + " " + b + "/" + c)
  {
    var tail := "%2F" + c;
    var encoded := a + ("%20" + (b + tail));
    assert (prefix + encoded)[|prefix|..] == encoded;
    DecodeWithoutPercent(c);
    DecodeEscapeThen("%2F", c);
    DecodePlainThen(b, tail);
    DecodeEscapeThen("%20", b + tail);
    DecodePlainThen(a, "%20" + (b + tail));
    assert Escapes["%20"] == ' ' && Escapes["%2F"] == '/';
    assert DecodeEscapes(encoded) == a + ([' '] + (b + (['/'] + c)));
    assert a + ([' '] + (b + (['/'] + c))) == a + " " + b + "/" + c;
  }

  /** "C:/path/with%20spaces/and%2Fslashes.txt", cut at its two escapes. */
  lemma ExtractSampleEscaped()
    ensures ExtractPathFromUri(
        Some("file://metadata/" + ("C:/path/with" + ("%20" + ("spaces/and" + ("%2F" + "slashes.txt"))))),
        "file://metadata/")
      == Returned("C:/path/with" + " " + "spaces/and" + "/" + "slashes.txt")
  {
    ExtractTwoEscapes("file://metadata/", "C:/path/with", "spaces/and", "slashes.txt");
  }

  lemma ExtractSampleInvalid()
    ensures ExtractPathFromUri(Some("invalid://metadata/path"), "file://metadata/")
      == Threw(IllegalArgument("Invalid URI format: " + "invalid://metadata/path"))
  {
    assert "invalid://metadata/path"[0] != "file://metadata/"[0];
  }

  // ----------------------------------------------------- file checks and reads

  /**
   * The checks `isTextFile`, `readTextFile` and `readBinaryFile` all begin with,
   * in this order: the path exists, is a regular file, is readable. On success
   * the file's bytes.
   */
  function CheckRegularFile(fs: Tree, filePath: string): (r: Outcome<seq<Byte>>)
    ensures var q := PathString(filePath);
      && (q !in fs ==> r == Threw(IOException("File does not exist: " + filePath)))
      && (q in fs && !IsRegularFile(fs, q) ==> r == Threw(IOException("Not a regular file: " + filePath)))
      && (IsRegularFile(fs, q) && !IsReadable(fs, q) ==> r == Threw(IOException("File is not readable: " + filePath)))
      && (r.Returned? <==> IsRegularFile(fs, q) && IsReadable(fs, q))
      && (r.Returned? ==> r.value == fs[q].kind.bytes)
  {
    var q := PathString(filePath);
    if q !in fs then Threw(IOException("File does not exist: " + filePath))
    else if !IsRegularFile(fs, q) then Threw(IOException("Not a regular file: " + filePath))
    else if !IsReadable(fs, q) then Threw(IOException("File is not readable: " + filePath))
    else Returned(fs[q].kind.bytes)
  }

  /** The size of the buffer `isTextFile` reads into. */
  const BufferSize: nat := 8192

  function Min(a: int, b: int): int {
    if a < b then a else b
  }

  /** The heuristic: no zero byte among the first 8192 bytes. */
  predicate LooksLikeText(bytes: seq<Byte>) {
    0 !in bytes[..Min(|bytes|, BufferSize)]
  }

  /** What `isTextFile` reports: the checks' exception, or the heuristic's verdict. */
  function TextFileVerdict(fs: Tree, filePath: string): (r: Outcome<bool>)
    ensures r.Threw? ==> CheckRegularFile(fs, filePath).Threw? && r == Threw(CheckRegularFile(fs, filePath).exc)
    ensures r.Returned? <==> IsRegularFile(fs, PathString(filePath)) && IsReadable(fs, PathString(filePath))
    ensures r.Returned? && fs[PathString(filePath)].kind.bytes == [] ==> r.value
  {
    match CheckRegularFile(fs, filePath)
    case Threw(e) => Threw(e)
    case Returned(bytes) => Returned(LooksLikeText(bytes))
  }

  /**
   * `isTextFile(filePath)`: one read of up to 8192 bytes into a buffer (the read
   * reports -1 for an empty file), then a scan of what was read for a zero byte.
   */
  method IsTextFile(fs: Tree, filePath: string) returns (r: Outcome<bool>)
    ensures r == TextFileVerdict(fs, filePath)
  {
    var checked := CheckRegularFile(fs, filePath);
    if checked.Threw? {
      return Threw(checked.exc);
    }
    var content := checked.value;
    var buffer := new Byte[BufferSize];
    var bytesRead: int := if |content| == 0 then -1 else Min(|content|, BufferSize);
    forall i | 0 <= i < bytesRead {
      buffer[i] := content[i];
    }
    if bytesRead <= 0 {
      return Returned(true);
    }
    var i := 0;
    while i < bytesRead
      invariant 0 <= i <= bytesRead
      invariant 0 !in buffer[..i]
      invariant buffer[..bytesRead] == content[..bytesRead]
    {
      if buffer[i] == 0 {
        assert content[..bytesRead][i] == 0;
        return Returned(false);
      }
      assert buffer[..i + 1] == buffer[..i] + [buffer[i]];
      i := i + 1;
    }
    return Returned(true);
  }

  /** An empty file is text; a zero byte within the first 8192 makes a file binary, a later one does not. */
  lemma LooksLikeTextCases(bytes: seq<Byte>, k: nat)
    ensures bytes == [] ==> LooksLikeText(bytes)
    ensures k < |bytes| && k < BufferSize && bytes[k] == 0 ==> !LooksLikeText(bytes)
    ensures |bytes| > BufferSize ==> (LooksLikeText(bytes) <==> LooksLikeText(bytes[..BufferSize]))
  {
    if k < |bytes| && k < BufferSize && bytes[k] == 0 {
      assert bytes[..Min(|bytes|, BufferSize)][k] == 0;
    }
    if |bytes| > BufferSize {
      assert bytes[..BufferSize][..BufferSize] == bytes[..BufferSize];
    }
  }

  /** The two files of the unit test: "Hello" 00 "World" is binary, text without zero bytes is text. */
  lemma LooksLikeTextSamples()
    ensures !LooksLikeText([0x48, 0x65, 0x6C, 0x6C, 0x6F, 0x00, 0x57, 0x6F, 0x72, 0x6C, 0x64])
    ensures LooksLikeText([0x54, 0x65, 0x78, 0x74])
  {
    var b: seq<Byte> := [0x48, 0x65, 0x6C, 0x6C, 0x6F, 0x00, 0x57, 0x6F, 0x72, 0x6C, 0x64];
    LooksLikeTextCases(b, 5);
  }

  /** What the UTF-8 decoder makes of a file's bytes: text, or a malformed-input IOException. */
  datatype Utf8Result = Decoded(text: string) | Malformed(message: string)

  /**
   * `readTextFile(filePath)`: the three checks, then the bytes decoded as UTF-8 by
   * `utf8` (`Files.readString` fails on malformed input with an IOException).
   */
  function ReadTextFile(fs: Tree, utf8: seq<Byte> -> Utf8Result, filePath: string): (r: Outcome<string>)
    ensures CheckRegularFile(fs, filePath).Threw? ==> r == Threw(CheckRegularFile(fs, filePath).exc)
    ensures CheckRegularFile(fs, filePath).Returned? ==>
      var decoded := utf8(CheckRegularFile(fs, filePath).value);
      (decoded.Decoded? ==> r == Returned(decoded.text))
      && (decoded.Malformed? ==> r == Threw(IOException(decoded.message)))
  {
    match CheckRegularFile(fs, filePath)
    case Threw(e) => Threw(e)
    case Returned(bytes) =>
      match utf8(bytes)
      case Decoded(text) => Returned(text)
      case Malformed(message) => Threw(IOException(message))
  }

  /** `readBinaryFile(filePath)`: the three checks, then all the file's bytes in Base64. */
  function ReadBinaryFile(fs: Tree, filePath: string): (r: Outcome<string>)
    ensures CheckRegularFile(fs, filePath).Threw? ==> r == Threw(CheckRegularFile(fs, filePath).exc)
    ensures r.Returned? <==> CheckRegularFile(fs, filePath).Returned?
    ensures r.Returned? ==> Base64.Decode(r.value) == Some(CheckRegularFile(fs, filePath).value)
  {
    match CheckRegularFile(fs, filePath)
    case Threw(e) => Threw(e)
    case Returned(bytes) =>
      Base64.DecodeEncode(bytes);
      Returned(Base64.Encode(bytes))
  }

  /**
   * How the content resource and the content tool read a file: `isTextFile`
   * first, then `readTextFile` for text and `readBinaryFile` otherwise.
   */
  function ReadAsTextOrBase64(fs: Tree, utf8: seq<Byte> -> Utf8Result, filePath: string): (r: Outcome<string>)
    ensures r.Threw? ==> r.exc.IOException?
  {
    match TextFileVerdict(fs, filePath)
    case Threw(e) => Threw(e)
    case Returned(true) => ReadTextFile(fs, utf8, filePath)
    case Returned(false) => ReadBinaryFile(fs, filePath)
  }

  /** The Base64 text is the only one that decodes to the file's bytes. */
  lemma ReadBinaryFileExactly(fs: Tree, filePath: string, s: string)
    requires CheckRegularFile(fs, filePath).Returned?
    ensures ReadBinaryFile(fs, filePath) == Returned(s)
      <==> Base64.Decode(s) == Some(CheckRegularFile(fs, filePath).value)
  {
    Base64.DecodeIffEncode(s, CheckRegularFile(fs, filePath).value);
  }

  /** The three readers refuse the same paths with the same exception. */
  lemma ReadersAgreeOnErrors(fs: Tree, utf8: seq<Byte> -> Utf8Result, filePath: string)
    ensures TextFileVerdict(fs, filePath).Threw? <==> CheckRegularFile(fs, filePath).Threw?
    ensures CheckRegularFile(fs, filePath).Threw? ==>
      var e := CheckRegularFile(fs, filePath).exc;
      TextFileVerdict(fs, filePath) == Threw(e)
      && ReadTextFile(fs, utf8, filePath) == Threw(e)
      && ReadBinaryFile(fs, filePath) == Threw(e)
  {
  }

  // ----------------------------------------------------------------- metadata

  /** The `Instant` a `FileTime` setter leaves in a field that started null. */
  function InstantOf(t: Option<FileTime>): Option<Instant> {
    match t
    case None => None
    case Some(ft) => Some(ft.instant)
  }

  /** The record `getFileMetadata` fills in for the existing path `q` whose name is `n`. */
  function RecordOf(fs: Tree, q: string, n: string): MetadataRecord
    requires q in fs
  {
    var e := fs[q];
    MetadataRecord(
      Some(n), Some(q), e.Size(), InstantOf(e.lastModified), InstantOf(e.creationTime),
      IsDirectory(fs, q), IsRegularFile(fs, q), e.isLink, e.hidden.GetOr(false),
      e.readable, e.writable, e.executable)
  }

  /**
   * What `getFileMetadata(filePath)` returns, as a value. A missing path is an
   * IOException. A root path has no file name, and `getFileName().toString()`
   * throws a NullPointerException.
   */
  function Metadata(fs: Tree, filePath: string): (r: Outcome<MetadataRecord>)
    ensures var q := PathString(filePath);
      && (q !in fs ==> r == Threw(IOException("File does not exist: " + filePath)))
      && (q in fs && FileName(q).None? ==> r == Threw(NullPointer))
      && (r.Returned? <==> q in fs && FileName(q).Some?)
  {
    var q := PathString(filePath);
    if q !in fs then Threw(IOException("File does not exist: " + filePath))
    else
      match FileName(q)
      case None => Threw(NullPointer)
      case Some(n) => Returned(RecordOf(fs, q, n))
  }

  /**
   * Each field of a returned record describes the entry: its name and path,
   * its size and kind, whether the path is a link, its permissions, and its
   * timestamps when the attributes give them. A hidden check that fails counts
   * as not hidden.
   */
  lemma MetadataFields(fs: Tree, filePath: string)
    requires Metadata(fs, filePath).Returned?
    ensures var q := PathString(filePath); var e := fs[q]; var m := Metadata(fs, filePath).value;
      && m.name == FileName(q)
      && m.path == Some(q)
      && m.size == e.Size()
      && m.isDirectory == e.kind.Directory?
      && m.isRegularFile == e.kind.RegularFile?
      && m.isSymbolicLink == e.isLink
      && m.isHidden == (e.hidden == Some(true))
      && m.isReadable == e.readable
      && m.isWritable == e.writable
      && m.isExecutable == e.executable
      && (e.lastModified.Some? ==> m.lastModified == Some(e.lastModified.value.instant))
      && (e.lastModified.None? ==> m.lastModified.None?)
      && (e.creationTime.Some? ==> m.creationTime == Some(e.creationTime.value.instant))
      && (e.creationTime.None? ==> m.creationTime.None?)
  {
  }

  /** The record of a directory's entry is named by its name in that directory. */
  lemma MetadataOfEntry(fs: Tree, dir: string, n: Name)
    requires Normalized(dir) && Child(dir, n) in fs
    ensures Metadata(fs, Child(dir, n)).Returned?
    ensures Metadata(fs, Child(dir, n)).value.name == Some(n)
    ensures Metadata(fs, Child(dir, n)).value.path == Some(Child(dir, n))
  {
    FileNameOfChild(dir, n);
  }

  /** The first five setters of `getFileMetadata`: names, size and the two timestamps. */
  method FillNames(m: FileMetadata, name: string, q: string, e: Entry)
    requires m.lastModified.None? && m.creationTime.None?
    modifies m`name, m`path, m`size, m`lastModified, m`creationTime
    ensures m.name == Some(name) && m.path == Some(q) && m.size == e.Size()
    ensures m.lastModified == InstantOf(e.lastModified) && m.creationTime == InstantOf(e.creationTime)
  {
    m.SetName(Some(name));
    m.SetPath(Some(q));
    m.SetSize(e.Size());
    m.SetLastModifiedFileTime(e.lastModified);
    m.SetCreationTimeFileTime(e.creationTime);
  }

  /** The last seven setters of `getFileMetadata`: the kind and the permission flags. */
  method FillFlags(m: FileMetadata, e: Entry, isDirectory: bool, isRegularFile: bool)
    modifies m`isDirectory, m`isRegularFile, m`isSymbolicLink, m`isHidden, m`isReadable, m`isWritable, m`isExecutable
    ensures m.isDirectory == isDirectory && m.isRegularFile == isRegularFile && m.isSymbolicLink == e.isLink
    ensures m.isHidden == e.hidden.GetOr(false) && m.isReadable == e.readable
    ensures m.isWritable == e.writable && m.isExecutable == e.executable
  {
    m.SetDirectory(isDirectory);
    m.SetRegularFile(isRegularFile);
    m.SetSymbolicLink(e.isLink);
    // the hidden check's IOException is caught and recorded as not hidden
    m.SetHidden(e.hidden.GetOr(false));
    m.SetReadable(e.readable);
    m.SetWritable(e.writable);
    m.SetExecutable(e.executable);
  }

  /**
   * The setter calls of `getFileMetadata` on a new object, for the entry `e` at
   * the path `q` named `name`, in the source's order. A timestamp the attributes
   * do not give stays null.
   */
  method Fill(m: FileMetadata, name: string, q: string, e: Entry, isDirectory: bool, isRegularFile: bool)
    requires m.Snapshot() == Fresh
    modifies m
    ensures m.Snapshot() == MetadataRecord(
      Some(name), Some(q), e.Size(), InstantOf(e.lastModified), InstantOf(e.creationTime),
      isDirectory, isRegularFile, e.isLink, e.hidden.GetOr(false), e.readable, e.writable, e.executable)
  {
    FillNames(m, name, q, e);
    FillFlags(m, e, isDirectory, isRegularFile);
  }

  /**
   * `getFileMetadata(filePath)`: a new `FileMetadata` filled in by its setters.
   */
  method GetFileMetadata(fs: Tree, filePath: string) returns (r: Outcome<FileMetadata>)
    ensures r.Threw? <==> Metadata(fs, filePath).Threw?
    ensures r.Threw? ==> r.exc == Metadata(fs, filePath).exc
    ensures r.Returned? ==> fresh(r.value) && r.value.Snapshot() == Metadata(fs, filePath).value
  {
    var q := PathString(filePath);
    if q !in fs {
      return Threw(IOException("File does not exist: " + filePath));
    }
    var m := new FileMetadata();
    var name := FileName(q);
    if name.None? {
      return Threw(NullPointer);
    }
    Fill(m, name.value, q, fs[q], IsDirectory(fs, q), IsRegularFile(fs, q));
    return Returned(m);
  }

  // ----------------------------------------------------------------- listings

  /**
   * The checks `listFiles` begins with, in this order: the path exists, is a
   * directory, is readable. None when all three pass.
   */
  function CheckDirectory(fs: Tree, directoryPath: string): (r: Option<Exc>)
    ensures var q := PathString(directoryPath);
      && (q !in fs ==> r == Some(IOException("Directory does not exist: " + directoryPath)))
      && (q in fs && !IsDirectory(fs, q) ==> r == Some(IOException("Not a directory: " + directoryPath)))
      && (IsDirectory(fs, q) && !IsReadable(fs, q) ==> r == Some(IOException("Directory is not readable: " + directoryPath)))
      && (r.None? <==> IsDirectory(fs, q) && IsReadable(fs, q))
  {
    var q := PathString(directoryPath);
    if q !in fs then Some(IOException("Directory does not exist: " + directoryPath))
    else if !IsDirectory(fs, q) then Some(IOException("Not a directory: " + directoryPath))
    else if !IsReadable(fs, q) then Some(IOException("Directory is not readable: " + directoryPath))
    else None
  }

  /**
   * The stream of `listFiles` mapped through `getFileMetadata` and filtered, in
   * order: a path whose lookup throws an IOException is dropped, any other
   * exception leaves the stream and ends the listing.
   */
  function Collect(fs: Tree, paths: seq<string>): (r: Outcome<seq<MetadataRecord>>)
    ensures r.Returned? ==> |r.value| <= |paths|
    ensures r.Threw? ==> r.exc == NullPointer
    decreases |paths|
  {
    if paths == [] then Returned([])
    else
      match Metadata(fs, paths[0])
      case Threw(IOException(_)) => Collect(fs, paths[1..])
      case Threw(e) => Threw(e)
      case Returned(m) =>
        match Collect(fs, paths[1..])
        case Threw(e) => Threw(e)
        case Returned(ms) => Returned([m] + ms)
  }

  /** The paths named by a list of records. */
  function PathsOf(ms: seq<MetadataRecord>): (r: seq<Option<string>>)
    ensures |r| == |ms|
    ensures forall i :: 0 <= i < |ms| ==> r[i] == ms[i].path
  {
    seq(|ms|, i requires 0 <= i < |ms| => ms[i].path)
  }

  /** What `listFiles(directoryPath, recursive)` returns: `Files.walk` when recursive, `Files.list` otherwise. */
  function Listing(fs: Tree, directoryPath: string, recursive: bool): (r: Outcome<seq<MetadataRecord>>)
    ensures CheckDirectory(fs, directoryPath).Some? ==> r == Threw(CheckDirectory(fs, directoryPath).value)
    ensures r.Threw? ==> r.exc.IOException? || r.exc == NullPointer
  {
    match CheckDirectory(fs, directoryPath)
    case Some(e) => Threw(e)
    case None =>
      var q := PathString(directoryPath);
      Collect(fs, if recursive then WalkPaths(fs, q) else ListPaths(fs, q))
  }

  /** Paths in `Path.toString()` form that all have a file name, as every path of a walk below a directory has. */
  predicate AllNamed(paths: seq<string>) {
    forall i :: 0 <= i < |paths| ==> Normalized(paths[i]) && FileName(paths[i]).Some?
  }

  /** Looking up a named path either finds its record or throws an IOException. */
  lemma MetadataOfNamed(fs: Tree, p: string)
    requires Normalized(p) && FileName(p).Some?
    ensures p !in fs ==> Metadata(fs, p).Threw? && Metadata(fs, p).exc.IOException?
    ensures p in fs ==> Metadata(fs, p).Returned? && Metadata(fs, p).value.path == Some(p)
  {
    assert PathString(p) == p;
  }

  /** Over named paths the listing cannot fail, and each of its records is that of a path that exists. */
  lemma {:induction false} CollectSound(fs: Tree, paths: seq<string>)
    requires AllNamed(paths)
    ensures Collect(fs, paths).Returned?
    ensures var ms := Collect(fs, paths).value;
      forall i :: 0 <= i < |ms| ==>
        ms[i].path.Some? && ms[i].path.value in paths && ms[i].path.value in fs
        && Metadata(fs, ms[i].path.value) == Returned(ms[i])
    decreases |paths|
  {
    if paths != [] {
      var p, rest := paths[0], paths[1..];
      assert forall i :: 0 <= i < |rest| ==> rest[i] == paths[i + 1];
      MetadataOfNamed(fs, p);
      CollectSound(fs, rest);
    }
  }

  /** One step of the listing over a named path: found, it puts its path in front; missing, it adds nothing. */
  lemma CollectPathsStep(fs: Tree, paths: seq<string>)
    requires paths != [] && Normalized(paths[0]) && FileName(paths[0]).Some?
    requires Collect(fs, paths[1..]).Returned?
    ensures Collect(fs, paths).Returned?
    ensures paths[0] in fs ==>
      PathsOf(Collect(fs, paths).value) == [Some(paths[0])] + PathsOf(Collect(fs, paths[1..]).value)
    ensures paths[0] !in fs ==> Collect(fs, paths) == Collect(fs, paths[1..])
  {
    var p := paths[0];
    MetadataOfNamed(fs, p);
    if p in fs {
      CollectFound(fs, paths);
      PathsOfCons(Metadata(fs, p).value, Collect(fs, paths[1..]).value);
    } else {
      CollectMissing(fs, paths);
    }
  }

  /** A path whose record is found puts it in front of the rest of the listing. */
  lemma CollectFound(fs: Tree, paths: seq<string>)
    requires paths != [] && Metadata(fs, paths[0]).Returned? && Collect(fs, paths[1..]).Returned?
    ensures Collect(fs, paths) == Returned([Metadata(fs, paths[0]).value] + Collect(fs, paths[1..]).value)
  {
  }

  /** A path whose lookup throws an IOException is skipped. */
  lemma CollectMissing(fs: Tree, paths: seq<string>)
    requires paths != [] && Metadata(fs, paths[0]).Threw? && Metadata(fs, paths[0]).exc.IOException?
    ensures Collect(fs, paths) == Collect(fs, paths[1..])
  {
  }

  lemma PathsOfCons(m: MetadataRecord, ms: seq<MetadataRecord>)
    ensures PathsOf([m] + ms) == [m.path] + PathsOf(ms)
  {
    assert forall i :: 1 <= i < |ms| + 1 ==> ([m] + ms)[i] == ms[i - 1];
  }

  /** Over named paths every path that exists has its record in the listing. */
  lemma {:induction false} CollectComplete(fs: Tree, paths: seq<string>)
    requires AllNamed(paths)
    ensures Collect(fs, paths).Returned?
    ensures forall p :: p in paths && p in fs ==> Some(p) in PathsOf(Collect(fs, paths).value)
    decreases |paths|
  {
    if paths != [] {
      var p, rest := paths[0], paths[1..];
      assert AllNamed(rest) by {
        assert forall i :: 0 <= i < |rest| ==> rest[i] == paths[i + 1];
      }
      CollectComplete(fs, rest);
      CollectPathsStep(fs, paths);
      var tail := PathsOf(Collect(fs, rest).value);
      var all := PathsOf(Collect(fs, paths).value);
      forall x | x in paths && x in fs
        ensures Some(x) in all
      {
        if x != p {
          var k :| 0 <= k < |paths| && paths[k] == x;
          assert rest[k - 1] == x;
          assert Some(x) in tail;
        } else {
          assert all[0] == Some(p);
        }
      }
    }
  }

  /** Over named paths that all exist, nothing is dropped. */
  lemma {:induction false} CollectKeepsAll(fs: Tree, paths: seq<string>)
    requires AllNamed(paths)
    requires forall i :: 0 <= i < |paths| ==> paths[i] in fs
    ensures Collect(fs, paths).Returned? && |Collect(fs, paths).value| == |paths|
    decreases |paths|
  {
    if paths != [] {
      var rest := paths[1..];
      assert forall i :: 0 <= i < |rest| ==> rest[i] == paths[i + 1];
      MetadataOfNamed(fs, paths[0]);
      CollectKeepsAll(fs, rest);
    }
  }

  /**
   * `listFiles(dir, false)` lists the directory's own entries: every record
   * is that of an entry that exists, and every entry that exists has its record.
   * Entries that vanished after the directory was read are dropped.
   */
  lemma ListingImmediate(fs: Tree, directoryPath: string)
    requires CheckDirectory(fs, directoryPath).None?
    ensures var q := PathString(directoryPath); var r := Listing(fs, directoryPath, false);
      && r.Returned?
      && (forall i :: 0 <= i < |r.value| ==>
        r.value[i].path.Some? && r.value[i].path.value in ListPaths(fs, q)
        && Metadata(fs, r.value[i].path.value) == Returned(r.value[i]))
      && (forall n :: n in fs[q].kind.children && Child(q, n) in fs ==> Some(Child(q, n)) in PathsOf(r.value))
  {
    var q := PathString(directoryPath);
    var paths := ListPaths(fs, q);
    forall i | 0 <= i < |paths|
      ensures Normalized(paths[i]) && FileName(paths[i]).Some?
    {
      FileNameOfChild(q, fs[q].kind.children[i]);
    }
    CollectSound(fs, paths);
    CollectComplete(fs, paths);
    forall n | n in fs[q].kind.children && Child(q, n) in fs
      ensures Child(q, n) in paths
    {
      var k :| 0 <= k < |fs[q].kind.children| && fs[q].kind.children[k] == n;
      assert paths[k] == Child(q, n);
    }
  }

  /** Every path of a walk started at a named directory has a file name. */
  lemma WalkPathsNamed(fs: Tree, q: string)
    requires Normalized(q) && FileName(q).Some?
    ensures AllNamed(WalkPaths(fs, q))
  {
  }

  /**
   * `listFiles(dir, true)` lists the directory itself first, then the records
   * of the walk below it: every record is that of a path the walk reports, and
   * every reported path that exists has its record.
   */
  lemma ListingRecursive(fs: Tree, directoryPath: string)
    requires CheckDirectory(fs, directoryPath).None?
    requires FileName(PathString(directoryPath)).Some?
    ensures var q := PathString(directoryPath); var r := Listing(fs, directoryPath, true);
      && r.Returned?
      && |r.value| > 0 && r.value[0] == Metadata(fs, q).value
      && (forall i :: 0 <= i < |r.value| ==>
        r.value[i].path.Some? && r.value[i].path.value in WalkPaths(fs, q)
        && Metadata(fs, r.value[i].path.value) == Returned(r.value[i]))
      && (forall p :: p in WalkPaths(fs, q) && p in fs ==> Some(p) in PathsOf(r.value))
  {
    var q := PathString(directoryPath);
    var w := WalkPaths(fs, q);
    WalkPathsNamed(fs, q);
    CollectSound(fs, w);
    CollectComplete(fs, w);
    MetadataOfNamed(fs, q);
  }

  /**
   * The root directory has no file name: walking it starts with the root's own
   * record, whose lookup throws, so `listFiles("/", true)` throws a NullPointerException.
   */
  lemma RecursiveListingOfRoot(fs: Tree, directoryPath: string)
    requires CheckDirectory(fs, directoryPath).None?
    requires FileName(PathString(directoryPath)).None?
    ensures Listing(fs, directoryPath, true) == Threw(NullPointer)
  {
    var q := PathString(directoryPath);
    assert PathString(q) == q;
    assert Metadata(fs, q) == Threw(NullPointer);
  }

  /**
   * A walk does not follow a link it starts at: the recursive listing of a
   * linked directory is that directory's record alone, while the
   * non-recursive one lists its entries.
   */
  lemma RecursiveListingOfLink(fs: Tree, directoryPath: string)
    requires CheckDirectory(fs, directoryPath).None?
    requires FileName(PathString(directoryPath)).Some?
    requires fs[PathString(directoryPath)].isLink
    ensures Listing(fs, directoryPath, true) == Returned([Metadata(fs, PathString(directoryPath)).value])
  {
    var q := PathString(directoryPath);
    MetadataOfNamed(fs, q);
    assert WalkPaths(fs, q) == [q];
    assert [q][1..] == [];
    var m := Metadata(fs, q).value;
    assert Collect(fs, [q][1..]) == Returned([]);
    assert [m] + [] == [m];
    assert Collect(fs, [q]) == Returned([m]);
    assert Listing(fs, directoryPath, true) == Collect(fs, WalkPaths(fs, q));
  }

  /** Over named paths, the record of a path that exists is in the listing. */
  lemma CollectFinds(fs: Tree, paths: seq<string>, p: string)
    requires AllNamed(paths)
    requires p in paths && p in fs
    ensures Collect(fs, paths).Returned? && Metadata(fs, p).Returned?
    ensures Metadata(fs, p).value in Collect(fs, paths).value
  {
    CollectSound(fs, paths);
    CollectComplete(fs, paths);
    var ms := Collect(fs, paths).value;
    var j :| 0 <= j < |ms| && PathsOf(ms)[j] == Some(p);
    assert Metadata(fs, p) == Returned(ms[j]);
  }

  /** For a named directory that is not a link, the recursive listing holds every record of the non-recursive one. */
  lemma RecursiveContainsImmediate(fs: Tree, directoryPath: string)
    requires CheckDirectory(fs, directoryPath).None?
    requires FileName(PathString(directoryPath)).Some?
    requires !fs[PathString(directoryPath)].isLink
    ensures Listing(fs, directoryPath, false).Returned? && Listing(fs, directoryPath, true).Returned?
    ensures forall m :: m in Listing(fs, directoryPath, false).value ==> m in Listing(fs, directoryPath, true).value
  {
    var q := PathString(directoryPath);
    var kids := fs[q].kind.children;
    var list, walk := ListPaths(fs, q), WalkPaths(fs, q);
    forall i | 0 <= i < |list|
      ensures Normalized(list[i]) && FileName(list[i]).Some?
    {
      FileNameOfChild(q, kids[i]);
    }
    WalkPathsNamed(fs, q);
    CollectSound(fs, list);
    CollectSound(fs, walk);
    assert walk == [q] + WalkBelow(fs, q, kids);
    var flat := Collect(fs, list).value;
    forall m | m in flat
      ensures m in Collect(fs, walk).value
    {
      var p := m.path.value;
      var k :| 0 <= k < |list| && list[k] == p;
      assert p in WalkBelow(fs, q, kids);
      CollectFinds(fs, walk, p);
    }
  }

  /** Five named paths that all exist are all listed. */
  lemma CollectFive(fs: Tree, p0: string, p1: string, p2: string, p3: string, p4: string)
    requires Normalized(p0) && Normalized(p1) && Normalized(p2) && Normalized(p3) && Normalized(p4)
    requires FileName(p0).Some? && FileName(p1).Some? && FileName(p2).Some? && FileName(p3).Some? && FileName(p4).Some?
    requires p0 in fs && p1 in fs && p2 in fs && p3 in fs && p4 in fs
    ensures Collect(fs, [p0, p1, p2, p3, p4]).Returned? && |Collect(fs, [p0, p1, p2, p3, p4]).value| == 5
  {
    CollectKeepsAll(fs, [p0, p1, p2, p3, p4]);
  }

  /** The unit test's tree, listed without recursion: the directory's three entries. */
  lemma ListingSampleFlat(fs: Tree, directoryPath: string, a: Name, b: Name, s: Name)
    requires CheckDirectory(fs, directoryPath).None?
    requires var q := PathString(directoryPath);
      && fs[q].kind.children == [a, b, s]
      && IsRegularFile(fs, Child(q, a)) && IsRegularFile(fs, Child(q, b)) && Child(q, s) in fs
    ensures Listing(fs, directoryPath, false).Returned? && |Listing(fs, directoryPath, false).value| == 3
  {
    var q := PathString(directoryPath);
    var ca, cb, cs := Child(q, a), Child(q, b), Child(q, s);
    FileNameOfChild(q, a);
    FileNameOfChild(q, b);
    FileNameOfChild(q, s);
    var list := ListPaths(fs, q);
    assert list == [ca, cb, cs];
    CollectKeepsAll(fs, list);
  }

  /**
   * The unit test's tree, walked: a directory holding two files and a
   * subdirectory with one file gives five records (itself, its three entries
   * and the file below).
   */
  lemma ListingSampleWalked(fs: Tree, directoryPath: string, a: Name, b: Name, s: Name, f: Name)
    requires CheckDirectory(fs, directoryPath).None?
    requires FileName(PathString(directoryPath)).Some?
    requires var q := PathString(directoryPath);
      && !fs[q].isLink && fs[q].kind.children == [a, b, s]
      && IsRegularFile(fs, Child(q, a)) && IsRegularFile(fs, Child(q, b))
      && Child(q, s) in fs && fs[Child(q, s)].Descends() && fs[Child(q, s)].kind.children == [f]
      && IsRegularFile(fs, Child(Child(q, s), f))
    ensures Listing(fs, directoryPath, true).Returned? && |Listing(fs, directoryPath, true).value| == 5
  {
    var q := PathString(directoryPath);
    var ca, cb, cs := Child(q, a), Child(q, b), Child(q, s);
    var cf := Child(cs, f);
    FileNameOfChild(q, a);
    FileNameOfChild(q, b);
    FileNameOfChild(q, s);
    FileNameOfChild(cs, f);
    WalkSample(fs, q, a, b, s, f);
    CollectFive(fs, q, ca, cb, cs, cf);
  }

  /** The records of a list of objects. */
  function Snapshots(files: seq<FileMetadata>): (r: seq<MetadataRecord>)
    reads files
    ensures |r| == |files|
    ensures forall i :: 0 <= i < |files| ==> r[i] == files[i].Snapshot()
  {
    seq(|files|, i reads files requires 0 <= i < |files| => files[i].Snapshot())
  }

  lemma SnapshotsAppend(files: seq<FileMetadata>, f: FileMetadata)
    ensures Snapshots(files + [f]) == Snapshots(files) + [f.Snapshot()]
  {
  }

  /** A finished listing `rest` with `done` in front of it. */
  function Prepend(done: seq<MetadataRecord>, rest: Outcome<seq<MetadataRecord>>): Outcome<seq<MetadataRecord>> {
    match rest
    case Threw(e) => Threw(e)
    case Returned(ms) => Returned(done + ms)
  }

  /** One step of the listing: what the lookup of `paths[i]` does to the records collected so far. */
  lemma CollectStep(fs: Tree, paths: seq<string>, i: nat, done: seq<MetadataRecord>)
    requires i < |paths|
    ensures var o := Metadata(fs, paths[i]);
      o.Threw? && o.exc.IOException? ==>
        Prepend(done, Collect(fs, paths[i..])) == Prepend(done, Collect(fs, paths[i + 1..]))
    ensures var o := Metadata(fs, paths[i]);
      o.Threw? && !o.exc.IOException? ==> Prepend(done, Collect(fs, paths[i..])) == Threw(o.exc)
    ensures var o := Metadata(fs, paths[i]);
      o.Returned? ==> Prepend(done, Collect(fs, paths[i..])) == Prepend(done + [o.value], Collect(fs, paths[i + 1..]))
  {
    assert paths[i..][0] == paths[i] && paths[i..][1..] == paths[i + 1..];
    if Metadata(fs, paths[i]).Returned? && Collect(fs, paths[i + 1..]).Returned? {
      var m, ms := Metadata(fs, paths[i]).value, Collect(fs, paths[i + 1..]).value;
      assert done + ([m] + ms) == (done + [m]) + ms;
    }
  }

  /**
   * The stream of `listFiles`: `getFileMetadata` on each path in order, an
   * IOException dropping that path and any other exception ending the listing.
   */
  method CollectObjects(fs: Tree, paths: seq<string>) returns (r: Outcome<seq<FileMetadata>>)
    ensures r.Threw? <==> Collect(fs, paths).Threw?
    ensures r.Threw? ==> r.exc == Collect(fs, paths).exc
    ensures r.Returned? ==> (forall f :: f in r.value ==> fresh(f)) && Snapshots(r.value) == Collect(fs, paths).value
  {
    var files: seq<FileMetadata> := [];
    ghost var done: seq<MetadataRecord> := [];
    ghost var made: set<FileMetadata> := {};
    var i := 0;
    assert paths[0..] == paths;
    assert Prepend([], Collect(fs, paths)) == Collect(fs, paths) by {
      if Collect(fs, paths).Returned? {
        assert [] + Collect(fs, paths).value == Collect(fs, paths).value;
      }
    }
    while i < |paths|
      invariant 0 <= i <= |paths|
      invariant Snapshots(files) == done
      invariant fresh(made) && forall f :: f in files ==> f in made
      invariant Collect(fs, paths) == Prepend(done, Collect(fs, paths[i..]))
    {
      CollectStep(fs, paths, i, done);
      var got := GetFileMetadata(fs, paths[i]);
      if got.Threw? {
        if !got.exc.IOException? {
          assert Collect(fs, paths) == Threw(got.exc);
          return Threw(got.exc);
        }
      } else {
        ghost var m := got.value.Snapshot();
        assert Collect(fs, paths) == Prepend(done + [m], Collect(fs, paths[i + 1..]));
        SnapshotsAppend(files, got.value);
        files, done, made := files + [got.value], done + [m], made + {got.value};
      }
      i := i + 1;
    }
    assert paths[i..] == [];
    assert done + [] == done;
    return Returned(files);
  }

  /**
   * `listFiles(directoryPath, recursive)`: the checks, then the stream over
   * `Files.walk` when recursive and `Files.list` otherwise.
   */
  method ListFiles(fs: Tree, directoryPath: string, recursive: bool) returns (r: Outcome<seq<FileMetadata>>)
    ensures r.Threw? <==> Listing(fs, directoryPath, recursive).Threw?
    ensures r.Threw? ==> r.exc == Listing(fs, directoryPath, recursive).exc
    ensures r.Returned? ==> (forall f :: f in r.value ==> fresh(f)) && Snapshots(r.value) == Listing(fs, directoryPath, recursive).value
  {
    var check := CheckDirectory(fs, directoryPath);
    if check.Some? {
      return Threw(check.value);
    }
    var q := PathString(directoryPath);
    var paths := if recursive then WalkPaths(fs, q) else ListPaths(fs, q);
    r := CollectObjects(fs, paths);
  }
}
