/**
 * The mutable metadata record the server fills in for one path and hands to
 * the JSON layer: twelve fields, each written by its own setter.
 */
module Model {
  import opened Lang
  import opened Disk

  /** The value of every field of a `FileMetadata` object at one moment. */
  datatype MetadataRecord = MetadataRecord(
    name: Option<string>,
    path: Option<string>,
    size: int,
    lastModified: Option<Instant>,
    creationTime: Option<Instant>,
    isDirectory: bool,
    isRegularFile: bool,
    isSymbolicLink: bool,
    isHidden: bool,
    isReadable: bool,
    isWritable: bool,
    isExecutable: bool)

  /** The Java defaults a new object starts with: null references, zero, false. */
  const Fresh := MetadataRecord(None, None, 0, None, None, false, false, false, false, false, false, false)

  /**
   * Each setter writes one field: its `modifies` clause names that field alone,
   * so every other field keeps its value.
   */
  class FileMetadata {
    var name: Option<string>
    var path: Option<string>
    var size: int
    var lastModified: Option<Instant>
    var creationTime: Option<Instant>
    var isDirectory: bool
    var isRegularFile: bool
    var isSymbolicLink: bool
    var isHidden: bool
    var isReadable: bool
    var isWritable: bool
    var isExecutable: bool

    /** All twelve fields as one value; the getters of the source are reads of these fields. */
    function Snapshot(): MetadataRecord
      reads this
    {
      MetadataRecord(name, path, size, lastModified, creationTime, isDirectory, isRegularFile,
        isSymbolicLink, isHidden, isReadable, isWritable, isExecutable)
    }

    constructor ()
      ensures Snapshot() == Fresh
    {
      name, path, size := None, None, 0;
      lastModified, creationTime := None, None;
      isDirectory, isRegularFile, isSymbolicLink, isHidden := false, false, false, false;
      isReadable, isWritable, isExecutable := false, false, false;
    }

    method SetName(v: Option<string>)
      modifies this`name
      ensures name == v
    {
      name := v;
    }

    method SetPath(v: Option<string>)
      modifies this`path
      ensures path == v
    {
      path := v;
    }

    method SetSize(v: int)
      modifies this`size
      ensures size == v
    {
      size := v;
    }

    /** The `Instant` overload stores its argument, null included. */
    method SetLastModifiedInstant(v: Option<Instant>)
      modifies this`lastModified
      ensures lastModified == v
    {
      lastModified := v;
    }

    /** The `FileTime` overload ignores null. */
    method SetLastModifiedFileTime(t: Option<FileTime>)
      modifies this`lastModified
      ensures t.None? ==> lastModified == old(lastModified)
      ensures t.Some? ==> lastModified == Some(t.value.instant)
    {
      if t.Some? {
        lastModified := Some(t.value.instant);
      }
    }

    /** The `Instant` overload stores its argument, null included. */
    method SetCreationTimeInstant(v: Option<Instant>)
      modifies this`creationTime
      ensures creationTime == v
    {
      creationTime := v;
    }

    /** The `FileTime` overload ignores null. */
    method SetCreationTimeFileTime(t: Option<FileTime>)
      modifies this`creationTime
      ensures t.None? ==> creationTime == old(creationTime)
      ensures t.Some? ==> creationTime == Some(t.value.instant)
    {
      if t.Some? {
        creationTime := Some(t.value.instant);
      }
    }

    method SetDirectory(v: bool)
      modifies this`isDirectory
      ensures isDirectory == v
    {
      isDirectory := v;
    }

    method SetRegularFile(v: bool)
      modifies this`isRegularFile
      ensures isRegularFile == v
    {
      isRegularFile := v;
    }

    method SetSymbolicLink(v: bool)
      modifies this`isSymbolicLink
      ensures isSymbolicLink == v
    {
      isSymbolicLink := v;
    }

    method SetHidden(v: bool)
      modifies this`isHidden
      ensures isHidden == v
    {
      isHidden := v;
    }

    method SetReadable(v: bool)
      modifies this`isReadable
      ensures isReadable == v
    {
      isReadable := v;
    }

    method SetWritable(v: bool)
      modifies this`isWritable
      ensures isWritable == v
    {
      isWritable := v;
    }

    method SetExecutable(v: bool)
      modifies this`isExecutable
      ensures isExecutable == v
    {
      isExecutable := v;
    }

    /**
     * `getFormattedLastModified()`: null when the timestamp is null, otherwise the
     * timestamp rendered by `format` (ISO-8601 in the source).
     */
    function FormattedLastModified(format: Instant -> string): (r: Option<string>)
      reads this
      ensures r.None? <==> Snapshot().lastModified.None?
      ensures r.Some? ==> r.value == format(Snapshot().lastModified.value)
    {
      match lastModified
      case None => None
      case Some(t) => Some(format(t))
    }

    /** `getFormattedCreationTime()`, like `FormattedLastModified` for the creation time. */
    function FormattedCreationTime(format: Instant -> string): (r: Option<string>)
      reads this
      ensures r.None? <==> Snapshot().creationTime.None?
      ensures r.Some? ==> r.value == format(Snapshot().creationTime.value)
    {
      match creationTime
      case None => None
      case Some(t) => Some(format(t))
    }
  }
}
