/**
 * The external call entity: the evidence of one call to an external system,
 * keyed by (operation name, entity ID), used to detect duplicate and
 * obsolete calls. Confirmations that failed earlier are external calls with
 * the operation name "confirmation".
 */
module ExternalCalls {

  import opened Wrappers
  import Messages

  /** A Java `long`. */
  newtype Long = x: int | -0x8000_0000_0000_0000 <= x < 0x8000_0000_0000_0000

  datatype ExternalCallState = Processing | Ok | Failed

  /**
   * An external call. `id` is absent until the row is saved; `message` is the
   * owning message's ID and `msgId` the read-only copy of that column as set on
   * the object. Timestamps are milliseconds.
   */
  datatype ExternalCall = ExternalCall(
    id: Option<Long>,
    message: Messages.MsgId,
    msgId: Option<Messages.MsgId>,
    operationName: string,
    state: ExternalCallState,
    entityId: string,
    msgTimestamp: int,
    creationTimestamp: int,
    lastUpdateTimestamp: int,
    failedCount: int)

  const CONFIRM_OPERATION := "confirmation"

  /** `createFailedConfirmation`: a FAILED confirmation of `msg`, created at `now`, keyed by the message's correlation ID. */
  function CreateFailedConfirmation(msg: Messages.Message, now: int): (c: ExternalCall)
    ensures c.id.None? && c.message == msg.id && c.msgId.None?
    ensures c.operationName == CONFIRM_OPERATION && c.state == Failed && c.failedCount == 1
    ensures c.entityId == msg.correlationId
    ensures c.creationTimestamp == c.lastUpdateTimestamp == now && c.msgTimestamp == msg.msgTimestamp
  {
    ExternalCall(None, msg.id, None, CONFIRM_OPERATION, Failed, msg.correlationId,
                 msg.msgTimestamp, now, now, 1)
  }

  /** `createProcessingCall`: a PROCESSING call of `operationName` on `entityId` for `msg`, created at `now`. */
  function CreateProcessingCall(operationName: string, entityId: string, msg: Messages.Message, now: int): (c: ExternalCall)
    ensures c.id.None? && c.message == msg.id && c.msgId == Some(msg.id)
    ensures c.operationName == operationName && c.entityId == entityId
    ensures c.state == Processing && c.failedCount == 0
    ensures c.creationTimestamp == c.lastUpdateTimestamp == now && c.msgTimestamp == msg.msgTimestamp
  {
    ExternalCall(None, msg.id, Some(msg.id), operationName, Processing, entityId,
                 msg.msgTimestamp, now, now, 0)
  }

  predicate IsConfirmationCall(c: ExternalCall)
  {
    c.operationName == CONFIRM_OPERATION
  }

  /** `equals`: two calls are equal when their IDs are, two unsaved calls included. */
  predicate Equals(a: ExternalCall, b: ExternalCall)
  {
    a.id == b.id
  }

  /** Java's narrowing of an integer to `int`: the value congruent modulo 2^32 in [-2^31, 2^31). */
  function ToInt32(x: int): (r: int)
    ensures -0x8000_0000 <= r < 0x8000_0000
    ensures (x - r) % 0x1_0000_0000 == 0
  {
    var m := x % 0x1_0000_0000;
    if m >= 0x8000_0000 then m - 0x1_0000_0000 else m
  }

  /** `Long.hashCode`: the two 32-bit halves of the two's-complement value, exclusive-or'ed. */
  function LongHashCode(v: Long): int
  {
    var b := (if v < 0 then v as int + 0x1_0000_0000_0000_0000 else v as int) as bv64;
    ToInt32((b ^ (b >> 32)) as int)
  }

  /** `hashCode`: `HashCodeBuilder(17, 37).append(id)`, in 32-bit arithmetic. */
  function HashCode(c: ExternalCall): (h: int)
    ensures -0x8000_0000 <= h < 0x8000_0000
  {
    match c.id
    case None => 17 * 37
    case Some(v) => ToInt32(17 * 37 + LongHashCode(v))
  }

  // ---- properties ----

  /** Both factories' results are keyed as their arguments say, and only the confirmation is a confirmation call. */
  lemma FactoriesClassify(msg: Messages.Message, operationName: string, entityId: string, now: int)
    ensures IsConfirmationCall(CreateFailedConfirmation(msg, now))
    ensures IsConfirmationCall(CreateProcessingCall(operationName, entityId, msg, now)) <==> operationName == CONFIRM_OPERATION
  {
  }

  /** `equals` is an equivalence. */
  lemma EqualsIsEquivalence(a: ExternalCall, b: ExternalCall, c: ExternalCall)
    ensures Equals(a, a)
    ensures Equals(a, b) ==> Equals(b, a)
    ensures Equals(a, b) && Equals(b, c) ==> Equals(a, c)
  {
  }

  /** Equal calls have equal hash codes, as the `hashCode` contract demands. */
  lemma EqualsAgreesWithHashCode(a: ExternalCall, b: ExternalCall)
    requires Equals(a, b)
    ensures HashCode(a) == HashCode(b)
  {
  }

  /** Any two calls not yet saved are equal, and hash to 629. */
  lemma UnsavedCallsAreEqual(a: ExternalCall, b: ExternalCall)
    requires a.id.None? && b.id.None?
    ensures Equals(a, b) && HashCode(a) == 629 && HashCode(b) == 629
  {
  }

  /** Sample values: IDs 0 and -1 hash like an unsaved call, 1 and 2^32 hash to 630. */
  lemma SampleHashes(c: ExternalCall)
    ensures HashCode(c.(id := Some(0))) == 629
    ensures HashCode(c.(id := Some(-1))) == 629
    ensures HashCode(c.(id := Some(1))) == 630
    ensures HashCode(c.(id := Some(0x1_0000_0000))) == 630
  {
  }
}
