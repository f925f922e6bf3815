/**
 * The exception translator: derives an error code from a caught exception,
 * composes the uniform error text and wraps both into an integration
 * exception. An error code given explicitly on the exchange wins over the
 * derived one.
 */
module ExceptionTranslator {

  import opened Wrappers
  import opened Text
  import opened Errors

  /**
   * `getError`: first match on the class of one throwable. `None` is a null
   * throwable, which matches no `instanceof` test.
   */
  function GetError(ex: Option<Throwable>): (code: ErrorCode)
  {
    if ex.None? then E100
    else match ex.value.kind
      case Integration(_, c, _) => c
      case CamelValidation(_) => E102
      case IOFailure => E103
      case WebServiceIO => E103
      case CamelAuthorization => E117
      case AccessDenied => E117
      case Unclassified => E100
  }

  /** `ExceptionUtils.getRootCause`: the last cause, or null when the exception has no cause. */
  function RootCause(chain: Chain): (root: Option<Throwable>)
    ensures root.Some? <==> |chain| >= 2
    ensures root.Some? ==> root.value == chain[|chain| - 1]
  {
    if |chain| < 2 then None else Some(chain[|chain| - 1])
  }

  /**
   * The code `composeErrorMessage` prints. Only E100 is re-derived, from the
   * root cause. For an exception without a cause `getRootCause` gives null,
   * which differs from the exception, so the code is re-derived from null and
   * stays E100.
   */
  function MessageCode(error: ErrorCode, chain: Chain): (code: ErrorCode)
    requires |chain| >= 1
  {
    if error == E100 then GetError(RootCause(chain)) else error
  }

  /** `getRootExceptionMessage`: "SimpleName: message" of the root cause, or of the exception itself. */
  function RootExceptionMessage(chain: Chain): (text: string)
    requires |chain| >= 1
  {
    var root := if |chain| < 2 then chain[0] else chain[|chain| - 1];
    root.simpleName + ": " + root.message
  }

  /** `composeErrorMessage`; `desc` gives each code's description (`getErrDesc`). */
  function ComposeErrorMessage(error: ErrorCode, chain: Chain, desc: ErrorCode -> string): (text: string)
    requires |chain| >= 1
  {
    var code := MessageCode(error, chain);
    CodeName(code) + ": " + desc(code) + " (" + RootExceptionMessage(chain) + ")"
  }

  /** The integration exception `process` sets on the exchange. */
  datatype TranslatedException = TranslatedException(code: ErrorCode, message: string, cause: Chain)

  /** `process`: the explicit EXCEPTION_ERROR_CODE property, when set, wins over the derived code. */
  function Process(explicitCode: Option<ErrorCode>, chain: Chain, desc: ErrorCode -> string): (r: TranslatedException)
    requires |chain| >= 1
  {
    var error := if explicitCode.Some? then explicitCode.value else GetError(Some(chain[0]));
    TranslatedException(error, ComposeErrorMessage(error, chain, desc), chain)
  }

  /** One entry of the hierarchy text: "SimpleName: message". */
  function Entry(t: Throwable): (text: string)
    ensures |text| > 0
  {
    t.simpleName + ": " + t.message
  }

  function Entries(chain: Chain): (texts: seq<string>)
    ensures |texts| == |chain|
    ensures forall i :: 0 <= i < |chain| ==> texts[i] == Entry(chain[i])
  {
    if chain == [] then [] else [Entry(chain[0])] + Entries(chain[1..])
  }

  /** `getMessagesInExceptionHierarchy`: the entries of the whole chain joined by " => ". */
  method MessagesInExceptionHierarchy(chain: Chain) returns (messages: string)
    requires |chain| >= 1
    ensures messages == Join(Entries(chain), " => ")
  {
    messages := "";
    for i := 0 to |chain|
      invariant messages == Join(Entries(chain[..i]), " => ")
      invariant i > 0 ==> |messages| > 0
    {
      assert chain[..i + 1] == chain[..i] + [chain[i]];
      EntriesAppend(chain[..i], chain[i]);
      if |messages| > 0 {
        JoinAppend(Entries(chain[..i]), Entry(chain[i]), " => ");
        messages := messages + " => ";
      }
      messages := messages + Entry(chain[i]);
    }
    assert chain[..|chain|] == chain;
  }

  lemma {:induction false} EntriesAppend(chain: Chain, t: Throwable)
    ensures Entries(chain + [t]) == Entries(chain) + [Entry(t)]
  {
    assert |Entries(chain + [t])| == |chain| + 1;
  }

  // ---- properties ----

  /** The hierarchy text starts with the outermost exception and ends with the root cause: no separator at either end. */
  lemma HierarchyHasNoOuterSeparator(chain: Chain)
    requires |chain| >= 1
    ensures StartsWith(Join(Entries(chain), " => "), Entry(chain[0]))
    ensures EndsWith(Join(Entries(chain), " => "), Entry(chain[|chain| - 1]))
  {
    JoinEnds(Entries(chain), " => ");
  }

  /** `getError` yields the generic E100 exactly for null, an unclassified class, or an integration exception carrying E100. */
  lemma GetErrorIsGenericIff(ex: Option<Throwable>)
    ensures GetError(ex) == E100 <==>
      ex.None? || ex.value.kind.Unclassified? || (ex.value.kind.Integration? && ex.value.kind.code == E100)
  {
  }

  /** An explicitly given code always becomes the code of the translated exception. */
  lemma ExplicitCodeWins(c: ErrorCode, chain: Chain, desc: ErrorCode -> string)
    requires |chain| >= 1
    ensures Process(Some(c), chain, desc).code == c
    ensures Process(None, chain, desc).code == GetError(Some(chain[0]))
  {
  }

  /**
   * Re-derivation from the root cause changes only the text: a generic
   * wrapper around an I/O failure is translated with code E100 but its text
   * starts with "E103: ".
   */
  lemma ReDerivedCodeOnlyInText(wrapper: Throwable, root: Throwable, desc: ErrorCode -> string)
    requires wrapper.kind.Unclassified? && root.kind.IOFailure?
    ensures Process(None, [wrapper, root], desc).code == E100
    ensures StartsWith(Process(None, [wrapper, root], desc).message, "E103: ")
  {
    var text := Process(None, [wrapper, root], desc).message;
    assert text == "E103" + (": " + desc(E103) + " (" + RootExceptionMessage([wrapper, root]) + ")");
  }

  /** A cause-less exception is never re-classified: its text keeps the code it was given. */
  lemma NoCauseKeepsCode(error: ErrorCode, t: Throwable)
    ensures MessageCode(error, [t]) == error
  {
  }

  /** Codes other than E100 are never re-derived; E100 with a cause takes the root cause's code. */
  lemma MessageCodeRule(error: ErrorCode, chain: Chain)
    requires |chain| >= 2
    ensures error != E100 ==> MessageCode(error, chain) == error
    ensures error == E100 ==> MessageCode(error, chain) == GetError(Some(chain[|chain| - 1]))
  {
  }

  /** The composed text starts with the code and its description and ends with the root cause in parentheses. */
  lemma ComposedMessageShape(error: ErrorCode, chain: Chain, desc: ErrorCode -> string)
    requires |chain| >= 1
    ensures var code := MessageCode(error, chain);
      StartsWith(ComposeErrorMessage(error, chain, desc), CodeName(code) + ": " + desc(code) + " (")
    ensures EndsWith(ComposeErrorMessage(error, chain, desc), RootExceptionMessage(chain) + ")")
  {
    var code := MessageCode(error, chain);
    var head := CodeName(code) + ": " + desc(code) + " (";
    var tail := RootExceptionMessage(chain) + ")";
    assert ComposeErrorMessage(error, chain, desc) == head + tail;
  }
}
