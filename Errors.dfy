/**
 * Error codes and the exception kinds the core tells apart.
 * An exception is modelled together with its causes, as the list that
 * commons-lang's `ExceptionUtils.getThrowables` returns: the exception first,
 * its root cause last.
 */
module Errors {

  /**
   * `ErrorExtEnum` constants. The `InternalErrorEnum` codes the core names are
   * listed; every other constant (of `InternalErrorEnum` or of a project enum)
   * is `OtherCode` with its constant name.
   */
  datatype ErrorCode =
    | E100  // unspecified error
    | E102  // validation error
    | E103  // I/O error
    | E110  // mandatory XML element missing
    | E114  // throttling limit exceeded
    | E116  // message stuck in PROCESSING too long
    | E117  // access denied
    | OtherCode(name: string)

  /** `error.toString()`: the enum constant's name. */
  function CodeName(e: ErrorCode): string
  {
    match e
    case E100 => "E100"
    case E102 => "E102"
    case E103 => "E103"
    case E110 => "E110"
    case E114 => "E114"
    case E116 => "E116"
    case E117 => "E117"
    case OtherCode(name) => name
  }

  /** The `IntegrationException` subclasses that routing tells apart. */
  datatype IntegrationClass =
    | PlainIntegration
    | ValidationIntegration
    | Business
    | NoDataFound
    | MultipleDataFound
    | LockFailure
    | ThrottlingExceeded

  /**
   * The runtime class of one throwable. `subclass` is true when the runtime
   * class is a proper subclass of the named one (Camel's
   * `PredicateValidationException` and `SchemaValidationException` are
   * subclasses of `ValidationException`).
   */
  datatype ExKind =
    | Integration(cls: IntegrationClass, code: ErrorCode, subclass: bool)
    | CamelValidation(subclass: bool)
    | IOFailure            // java.io.IOException or any subclass of it
    | WebServiceIO         // Spring WS WebServiceIOException
    | CamelAuthorization   // CamelAuthorizationException
    | AccessDenied         // Spring Security AccessDeniedException
    | Unclassified         // any other class

  /** One throwable: its class, the class's simple name and its message text. */
  datatype Throwable = Throwable(kind: ExKind, simpleName: string, message: string)

  /** An exception and its causes, outermost first; a non-null exception is a non-empty chain. */
  type Chain = seq<Throwable>

  /** `new ThrottlingExceededException(msg)`: an integration exception fixed to E114. */
  function ThrottlingExceededException(msg: string): (t: Throwable)
    ensures t.kind.Integration? && t.kind.code == E114
  {
    Throwable(Integration(ThrottlingExceeded, E114, false), "ThrottlingExceededException", msg)
  }
}
