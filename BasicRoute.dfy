/**
 * The common route rules: where an asynchronous message goes after an
 * exception (the fatal route or the retry route), the asynchronous-header
 * test, and the naming scheme of route IDs.
 */
module BasicRoute {

  import opened Wrappers
  import opened Text
  import opened Errors
  import ExceptionTranslator

  /** The two error routes an asynchronous message can be sent to. */
  datatype Uri =
    | ErrorFatal     // AsynchConstants.URI_ERROR_FATAL: no further processing
    | ErrorHandling  // AsynchConstants.URI_ERROR_HANDLING: the message will be retried

  /** The exception classes `exceptionHandling` looks for in a cause chain. */
  datatype ExClass =
    | ValidationExceptionClass              // org.apache.camel.ValidationException
    | IntegrationClassOf(cls: IntegrationClass)

  /**
   * Does `t` belong to class `c`? With `subclass` false only the exact class
   * matches (commons-lang `indexOfThrowable`); with `subclass` true every
   * subclass matches too (`indexOfType`, the meaning of `instanceof`).
   */
  predicate Matches(t: Throwable, c: ExClass, subclass: bool)
  {
    match c
    case ValidationExceptionClass =>
      t.kind.CamelValidation? && (subclass || !t.kind.subclass)
    case IntegrationClassOf(cls) =>
      t.kind.Integration? && t.kind.cls == cls && (subclass || !t.kind.subclass)
  }

  /** commons-lang `ExceptionUtils.indexOf`: first index at or after `from` whose throwable matches, else -1. */
  function IndexOf(chain: Chain, c: ExClass, subclass: bool, from: nat): (r: int)
    requires from <= |chain|
    ensures r == -1 || from <= r < |chain|
    ensures r >= 0 ==> Matches(chain[r], c, subclass)
    ensures r >= 0 ==> forall j :: from <= j < r ==> !Matches(chain[j], c, subclass)
    ensures r == -1 <==> forall j :: from <= j < |chain| ==> !Matches(chain[j], c, subclass)
    decreases |chain| - from
  {
    if from == |chain| then -1
    else if Matches(chain[from], c, subclass) then from
    else IndexOf(chain, c, subclass, from + 1)
  }

  /** `ExceptionUtils.indexOfThrowable(ex, c)`: exact class only. */
  function IndexOfThrowable(chain: Chain, c: ExClass): int
  {
    IndexOf(chain, c, false, 0)
  }

  /** `ExceptionUtils.indexOfType(ex, c)`: the class or any subclass. */
  function IndexOfType(chain: Chain, c: ExClass): int
  {
    IndexOf(chain, c, true, 0)
  }

  /** `isAsynch`: true only for a Boolean TRUE header; a missing header is false. */
  predicate IsAsynch(header: Option<bool>)
  {
    header == Some(true)
  }

  /** The index lookup the handler uses: `indexOfType` when subclasses match, `indexOfThrowable` otherwise. */
  function ClassIndex(chain: Chain, c: ExClass, subclass: bool): int
  {
    if subclass then IndexOfType(chain, c) else IndexOfThrowable(chain, c)
  }

  /** The if/else chain of `exceptionHandling`, parameterised by the class test it uses. */
  function NextUri(chain: Chain, subclass: bool): Uri
  {
    if ClassIndex(chain, ValidationExceptionClass, subclass) >= 0
      || ClassIndex(chain, IntegrationClassOf(ValidationIntegration), subclass) >= 0 then ErrorFatal
    else if ClassIndex(chain, IntegrationClassOf(Business), subclass) >= 0 then ErrorFatal
    else if ClassIndex(chain, IntegrationClassOf(NoDataFound), subclass) >= 0 then ErrorFatal
    else if ClassIndex(chain, IntegrationClassOf(MultipleDataFound), subclass) >= 0 then ErrorFatal
    else if ClassIndex(chain, IntegrationClassOf(LockFailure), subclass) >= 0 then ErrorHandling
    else ErrorHandling
  }

  /** `exceptionHandling` as written: it looks the classes up with `indexOfThrowable`, which ignores subclasses. */
  function ExceptionHandlingAsWritten(chain: Chain, asynch: Option<bool>): Uri
    requires |chain| >= 1 && IsAsynch(asynch)
  {
    NextUri(chain, false)
  }

  /** `exceptionHandling` as its log messages intend it: every validation, business, no-data or multiple-data failure is fatal, subclasses included. */
  function ExceptionHandling(chain: Chain, asynch: Option<bool>): Uri
    requires |chain| >= 1 && IsAsynch(asynch)
  {
    NextUri(chain, true)
  }

  /** The classes whose presence anywhere in the chain ends processing. */
  predicate IsFatalClass(t: Throwable, subclass: bool)
  {
    || Matches(t, ValidationExceptionClass, subclass)
    || Matches(t, IntegrationClassOf(ValidationIntegration), subclass)
    || Matches(t, IntegrationClassOf(Business), subclass)
    || Matches(t, IntegrationClassOf(NoDataFound), subclass)
    || Matches(t, IntegrationClassOf(MultipleDataFound), subclass)
  }

  /** The fatal route is chosen exactly when some throwable of the chain is of a fatal class; the retry route otherwise (LockFailure included). */
  lemma NextUriFatalIff(chain: Chain, subclass: bool)
    ensures NextUri(chain, subclass) == ErrorFatal <==>
      exists j :: 0 <= j < |chain| && IsFatalClass(chain[j], subclass)
  {
    if exists j :: 0 <= j < |chain| && IsFatalClass(chain[j], subclass) {
      var j :| 0 <= j < |chain| && IsFatalClass(chain[j], subclass);
      assert Matches(chain[j], ValidationExceptionClass, subclass)
        || Matches(chain[j], IntegrationClassOf(ValidationIntegration), subclass)
        || Matches(chain[j], IntegrationClassOf(Business), subclass)
        || Matches(chain[j], IntegrationClassOf(NoDataFound), subclass)
        || Matches(chain[j], IntegrationClassOf(MultipleDataFound), subclass);
    }
  }

  lemma ExceptionHandlingFatalIff(chain: Chain, asynch: Option<bool>)
    requires |chain| >= 1 && IsAsynch(asynch)
    ensures ExceptionHandling(chain, asynch) == ErrorFatal <==>
      exists j :: 0 <= j < |chain| && IsFatalClass(chain[j], true)
  {
    NextUriFatalIff(chain, true);
  }

  lemma ExceptionHandlingAsWrittenFatalIff(chain: Chain, asynch: Option<bool>)
    requires |chain| >= 1 && IsAsynch(asynch)
    ensures ExceptionHandlingAsWritten(chain, asynch) == ErrorFatal <==>
      exists j :: 0 <= j < |chain| && IsFatalClass(chain[j], false)
  {
    NextUriFatalIff(chain, false);
  }

  /** The checks run in order over the whole chain: a fatal class anywhere beats a LockFailure anywhere. */
  lemma FatalBeatsLockFailure(chain: Chain, asynch: Option<bool>, i: nat, j: nat)
    requires |chain| >= 1 && IsAsynch(asynch)
    requires i < |chain| && j < |chain|
    requires IsFatalClass(chain[i], true) && Matches(chain[j], IntegrationClassOf(LockFailure), true)
    ensures ExceptionHandling(chain, asynch) == ErrorFatal
  {
    ExceptionHandlingFatalIff(chain, asynch);
  }

  /**
   * Camel's `validate()` throws `PredicateValidationException`, a subclass of
   * `ValidationException`. The translator labels it a validation error
   * (E102), yet `exceptionHandling` as written sends it to the retry route;
   * the corrected rule sends it to the fatal route.
   */
  lemma PredicateValidationIsRetriedAsWritten(message: string)
    ensures var t := Throwable(CamelValidation(true), "PredicateValidationException", message);
      && ExceptionTranslator.GetError(Some(t)) == E102
      && ExceptionHandlingAsWritten([t], Some(true)) == ErrorHandling
      && ExceptionHandling([t], Some(true)) == ErrorFatal
  {
    var t := Throwable(CamelValidation(true), "PredicateValidationException", message);
    NextUriFatalIff([t], false);
    NextUriFatalIff([t], true);
  }

  /** For exceptions of exactly the named classes both rules agree. */
  lemma ExactClassesAgree(chain: Chain, asynch: Option<bool>)
    requires |chain| >= 1 && IsAsynch(asynch)
    requires forall j :: 0 <= j < |chain| ==>
      (chain[j].kind.Integration? || chain[j].kind.CamelValidation?) ==> !chain[j].kind.subclass
    ensures ExceptionHandlingAsWritten(chain, asynch) == ExceptionHandling(chain, asynch)
  {
    NextUriFatalIff(chain, false);
    NextUriFatalIff(chain, true);
    assert forall j :: 0 <= j < |chain| ==> (IsFatalClass(chain[j], false) <==> IsFatalClass(chain[j], true));
  }

  // ---- route IDs ----

  const ROUTE_SUFFIX := "_route"
  const IN_ROUTE_SUFFIX := "_in_route"
  const OUT_ROUTE_SUFFIX := "_out_route"
  const EXTERNAL_ROUTE_SUFFIX := "_external_route"

  /** `Character.isWhitespace`. */
  predicate IsWhitespace(c: char)
  {
    || c == ' ' || c == '\t' || c == '\n' || c == '\r' || c == '\U{000B}' || c == '\U{000C}'
    || ('\U{001C}' <= c <= '\U{001F}')
    || c == '\U{1680}' || ('\U{2000}' <= c <= '\U{2006}') || ('\U{2008}' <= c <= '\U{200A}')
    || c == '\U{2028}' || c == '\U{2029}' || c == '\U{205F}' || c == '\U{3000}'
  }

  /** Spring's `Assert.hasText`: not empty and not only whitespace. */
  predicate HasText(s: string)
  {
    exists i :: 0 <= i < |s| && !IsWhitespace(s[i])
  }

  /** `name + "_" + operationName + suffix`, the shape of all four route IDs. */
  function ComposeRouteId(name: string, operationName: string, suffix: string): string
  {
    name + "_" + operationName + suffix
  }

  /** `getRouteId`: synchronous routes of a service. */
  function RouteId(serviceName: string, operationName: string): string
    requires HasText(operationName)
  {
    ComposeRouteId(serviceName, operationName, ROUTE_SUFFIX)
  }

  /** `getInRouteId`: asynchronous incoming routes of a service. */
  function InRouteId(serviceName: string, operationName: string): string
    requires HasText(operationName)
  {
    ComposeRouteId(serviceName, operationName, IN_ROUTE_SUFFIX)
  }

  /** `getOutRouteId`: asynchronous outbound routes of a service. */
  function OutRouteId(serviceName: string, operationName: string): string
    requires HasText(operationName)
  {
    ComposeRouteId(serviceName, operationName, OUT_ROUTE_SUFFIX)
  }

  /** `getExternalRouteId`: routes that call an external system. */
  function ExternalRouteId(systemName: string, operationName: string): string
    requires HasText(operationName)
  {
    ComposeRouteId(systemName, operationName, EXTERNAL_ROUTE_SUFFIX)
  }

  /** For one name and operation the four route IDs are pairwise distinct. */
  lemma RouteIdsPairwiseDistinct(name: string, op: string)
    requires HasText(op)
    ensures |{RouteId(name, op), InRouteId(name, op), OutRouteId(name, op), ExternalRouteId(name, op)}| == 4
  {
    var ids := [RouteId(name, op), InRouteId(name, op), OutRouteId(name, op), ExternalRouteId(name, op)];
    var base := |name| + 1 + |op|;
    assert |ids[0]| == base + 6 && |ids[1]| == base + 9 && |ids[2]| == base + 10 && |ids[3]| == base + 15;
  }

  /** Within one kind and one name, the ID determines the operation. */
  lemma {:induction false} RouteIdDeterminesOperation(name: string, op1: string, op2: string, suffix: string)
    requires ComposeRouteId(name, op1, suffix) == ComposeRouteId(name, op2, suffix)
    ensures op1 == op2
  {
    var id := ComposeRouteId(name, op1, suffix);
    assert |op1| == |op2|;
    var start := |name| + 1;
    assert id[start..start + |op1|] == op1;
    assert ComposeRouteId(name, op2, suffix)[start..start + |op2|] == op2;
  }

  /** Across kinds the scheme is ambiguous: the synchronous route of operation `op + "_in"` has the ID of the incoming route of `op`. */
  lemma RouteIdsCollideAcrossKinds(name: string, op: string)
    requires HasText(op)
    ensures HasText(op + "_in") && RouteId(name, op + "_in") == InRouteId(name, op)
  {
    var i :| 0 <= i < |op| && !IsWhitespace(op[i]);
    assert (op + "_in")[i] == op[i];
    assert name + "_" + (op + "_in") + ROUTE_SUFFIX == name + "_" + op + IN_ROUTE_SUFFIX;
  }
}
