/**
 * The Java vocabulary the server's code is written in: nullable references,
 * the exceptions it throws or lets through, and "returns or throws" as a value.
 */
module Lang {

  /** A byte, as its unsigned bit pattern (Java's `byte` is that pattern read as signed). */
  type Byte = b: int | 0 <= b < 256

  /** A Java reference that may be null. */
  datatype Option<+T> = None | Some(value: T) {
    function GetOr(default: T): T {
      match this
      case Some(v) => v
      case None => default
    }
  }

  /**
   * The exceptions that can leave the modelled code.
   * IOException stands for java.io.IOException and its subclasses; McpError is the
   * protocol SDK's runtime exception; the last two are the JDK runtime exceptions
   * raised by a null dereference or unboxing and by a failed reference cast.
   */
  datatype Exc =
    | IOException(message: string)
    | IllegalArgument(message: string)
    | McpError(message: string)
    | NullPointer
    | ClassCast

  /** Every exception the modelled code catches with `catch (Exception e)` and reports. */
  predicate Reportable(e: Exc) {
    !e.ClassCast?
  }

  /**
   * `e.getMessage()` as string concatenation prints it. A NullPointerException is
   * modelled without a detail message, which concatenation prints as "null".
   */
  function MessageOf(e: Exc): (m: string)
    requires Reportable(e)
    ensures e.NullPointer? ==> m == "null"
    ensures !e.NullPointer? ==> m == e.message
  {
    match e
    case IOException(msg) => msg
    case IllegalArgument(msg) => msg
    case McpError(msg) => msg
    case NullPointer => "null"
  }

  /** A Java call that either returns a value or throws. */
  datatype Outcome<+T> = Returned(value: T) | Threw(exc: Exc)

  /**
   * `try { body } catch (IOException e) { throw new McpError(prefix + e.getMessage()); }`:
   * an IOException is wrapped, anything else thrown passes through unchanged.
   */
  function WrapIOException<T>(o: Outcome<T>, prefix: string): (r: Outcome<T>)
    ensures o.Returned? ==> r == o
    ensures o.Threw? && o.exc.IOException? ==> r == Threw(McpError(prefix + o.exc.message))
    ensures o.Threw? && !o.exc.IOException? ==> r == o
    ensures r.Threw? ==> !r.exc.IOException?
  {
    match o
    case Threw(IOException(msg)) => Threw(McpError(prefix + msg))
    case _ => o
  }
}
