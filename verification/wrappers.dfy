/** Failure-compatible wrappers shared by every module of the model.

    Every exception the plugin can raise becomes an `Err(Failure(kind, message))`.
    The `kind` records which Java exception class it would have been, because the
    compiler plugin only turns a `KnativePluginException` into a diagnostic; every
    other kind escapes the plugin.
 */
module Wrappers {

  datatype Option<+T> = None | Some(value: T) {
    predicate IsFailure() {
      None?
    }

    function PropagateFailure<U>(): Option<U>
      requires None?
    {
      None
    }

    function Extract(): T
      requires Some?
    {
      value
    }

    function GetOr(default: T): T {
      match this
      case Some(v) => v
      case None => default
    }
  }

  /** The Java exception class a failure stands for. */
  datatype ErrorKind =
    | PluginError        // KnativePluginException
    | IllegalArgument    // IllegalArgumentException thrown by Enum.valueOf
    | NumberFormat       // NumberFormatException thrown by Integer.parseInt
    | ClassCast          // a cast of an AST node to the wrong expression class
    | NullPointer        // a method called on a null reference
    | IndexOutOfBounds   // List.get on a too short list
    | NoSuchElement      // Iterator.next on an exhausted iterator
    | InvalidPath        // Paths.get on a string the file system refuses

  datatype Failure = Failure(kind: ErrorKind, message: string) {
    /** Only a KnativePluginException is caught and reported by the plugin. */
    predicate Caught() {
      kind == PluginError
    }
  }

  datatype Result<+T> = Ok(value: T) | Err(error: Failure) {
    predicate IsFailure() {
      Err?
    }

    function PropagateFailure<U>(): Result<U>
      requires Err?
    {
      Err(error)
    }

    function Extract(): T
      requires Ok?
    {
      value
    }
  }

  function PluginFailure<T>(message: string): Result<T> {
    Err(Failure(PluginError, message))
  }

  /** `Enum.valueOf` of a name the enum does not declare; `enumName` is the enum's
      canonical class name. */
  function NoEnumConstant<T>(enumName: string, key: string): Result<T> {
    Err(Failure(IllegalArgument, "No enum constant " + enumName + "." + key))
  }

  /** Java's rendering of a possibly-null string inside a string concatenation. */
  function JavaString(s: Option<string>): string {
    match s
    case Some(v) => v
    case None => "null"
  }
}
