/**
 * The message entity, the message table and the state transitions of the
 * message service. A message is a record; the table is a sequence of
 * records with unique IDs whose parent references point into the table.
 */
module Messages {

  import opened Wrappers
  import opened Errors
  import ExceptionTranslator

  type MsgId = int

  /** `MsgStateEnum`. */
  datatype MsgState = New | Processing | Ok | PartlyFailed | Failed | Waiting | WaitingForRes | Postponed

  /** The fields of a message this core reads or writes. Timestamps are milliseconds. */
  datatype Message = Message(
    id: MsgId,
    correlationId: string,
    parentMsgId: Option<MsgId>,
    state: MsgState,
    failedCount: nat,
    processingPriority: int,
    guaranteedOrder: bool,
    funnelComponentId: Option<string>,
    funnelValues: set<string>,
    msgTimestamp: int,
    startProcessTimestamp: int,
    lastUpdateTimestamp: int,
    failedErrorCode: Option<ErrorCode>)

  /** The position of the message with ID `id` at or after `from`, if any. */
  function FindFrom(rows: seq<Message>, id: MsgId, from: nat): (r: Option<nat>)
    requires from <= |rows|
    ensures r.Some? ==> from <= r.value < |rows| && rows[r.value].id == id
    ensures r.None? <==> forall k :: from <= k < |rows| ==> rows[k].id != id
    decreases |rows| - from
  {
    if from == |rows| then None
    else if rows[from].id == id then Some(from)
    else FindFrom(rows, id, from + 1)
  }

  /** The position of the message with ID `id`: `findMessageById`. */
  function Find(rows: seq<Message>, id: MsgId): (r: Option<nat>)
  {
    FindFrom(rows, id, 0)
  }

  predicate UniqueIds(rows: seq<Message>)
  {
    forall i, j :: 0 <= i < j < |rows| ==> rows[i].id != rows[j].id
  }

  /** Every parent reference (the nullable parent_msg_id foreign key) names a message of the table. */
  predicate ParentsExist(rows: seq<Message>)
  {
    forall i :: 0 <= i < |rows| && rows[i].parentMsgId.Some? ==> Find(rows, rows[i].parentMsgId.value).Some?
  }

  predicate ValidTable(rows: seq<Message>)
  {
    UniqueIds(rows) && ParentsExist(rows)
  }

  /** Two tables hold the same messages in the same places, whatever their lifecycle fields. */
  predicate SameIdentities(rows: seq<Message>, rows': seq<Message>)
  {
    |rows'| == |rows| && forall k :: 0 <= k < |rows| ==> rows'[k].id == rows[k].id && rows'[k].parentMsgId == rows[k].parentMsgId
  }

  /** A message is processed once it has reached a final state. */
  predicate IsProcessed(s: MsgState)
  {
    s == Ok || s == Failed
  }

  /** The code a failure records: the explicit code when given, else the one derived from the exception (E100 for none). */
  function FailureCode(ex: Chain, errCode: Option<ErrorCode>): ErrorCode
  {
    if errCode.Some? then errCode.value
    else ExceptionTranslator.GetError(if ex == [] then None else Some(ex[0]))
  }

  /** True when every child of `parentId` is OK. */
  predicate AllChildrenOk(rows: seq<Message>, parentId: MsgId)
  {
    forall k :: 0 <= k < |rows| && rows[k].parentMsgId == Some(parentId) ==> rows[k].state == Ok
  }

  // ---- the transitions, as functions of the table ----

  function WithState(rows: seq<Message>, i: nat, s: MsgState): seq<Message>
    requires i < |rows|
  {
    rows[i := rows[i].(state := s)]
  }

  /** `setStateWaiting`: WAITING unless the message is already processed. */
  function WaitingUnlessProcessed(rows: seq<Message>, i: nat): seq<Message>
    requires i < |rows|
  {
    if IsProcessed(rows[i].state) then rows else WithState(rows, i, Waiting)
  }

  /** `setStatePartlyFailed`: PARTLY_FAILED with one more failure and the failure's code. */
  function PartlyFailedWithError(rows: seq<Message>, i: nat, code: ErrorCode): seq<Message>
    requires i < |rows|
  {
    rows[i := rows[i].(state := PartlyFailed, failedCount := rows[i].failedCount + 1, failedErrorCode := Some(code))]
  }

  /** `setStateFailed`: FAILED with the failure's code, and the parent (if any) FAILED too. */
  function FailedWithParent(rows: seq<Message>, i: nat, code: ErrorCode): seq<Message>
    requires i < |rows|
  {
    var child := rows[i := rows[i].(state := Failed, failedErrorCode := Some(code))];
    match rows[i].parentMsgId
    case None => child
    case Some(p) =>
      match Find(child, p)
      case None => child
      case Some(j) => WithState(child, j, Failed)
  }

  function WithFunnelComponentId(m: Message, funnelCompId: string): Message
  {
    m.(funnelComponentId := Some(funnelCompId))
  }

  function WithFunnelValues(m: Message, funnelValues: set<string>): Message
  {
    m.(funnelValues := funnelValues)
  }

  function WithFunnelComponentIdAndValues(m: Message, funnelCompId: string, funnelValues: set<string>): Message
  {
    m.(funnelComponentId := Some(funnelCompId), funnelValues := funnelValues)
  }

  // ---- the message service ----

  /** The message table behind `MessageService`; each method is one transaction on it. */
  class MessageStore {
    var rows: seq<Message>

    ghost predicate Valid()
      reads this
    {
      ValidTable(rows)
    }

    constructor (rows: seq<Message>)
      requires ValidTable(rows)
      ensures Valid() && this.rows == rows
    {
      this.rows := rows;
    }

    /** `setStateOk`; for a child message it also reports whether all children of its parent are now OK. */
    method SetStateOk(id: MsgId) returns (siblingsDone: Option<bool>)
      requires Valid() && Find(rows, id).Some?
      modifies this
      ensures Valid()
      ensures rows == WithState(old(rows), Find(old(rows), id).value, Ok)
      ensures var m := old(rows)[Find(old(rows), id).value];
        siblingsDone == if m.parentMsgId.None? then None else Some(AllChildrenOk(rows, m.parentMsgId.value))
    {
      var i := Find(rows, id).value;
      rows := WithState(rows, i, Ok);
      IdentitiesPreserveValidity(old(rows), rows);
      if rows[i].parentMsgId.None? {
        siblingsDone := None;
      } else {
        var parentId := rows[i].parentMsgId.value;
        var allOk := true;
        for k := 0 to |rows|
          invariant allOk <==> forall q :: 0 <= q < k && rows[q].parentMsgId == Some(parentId) ==> rows[q].state == Ok
        {
          if rows[k].parentMsgId == Some(parentId) && rows[k].state != Ok {
            allOk := false;
          }
        }
        siblingsDone := Some(allOk);
      }
    }

    /** `setStateProcessing`: unconditionally PROCESSING. */
    method SetStateProcessing(id: MsgId)
      requires Valid() && Find(rows, id).Some?
      modifies this
      ensures Valid()
      ensures rows == WithState(old(rows), Find(old(rows), id).value, Processing)
    {
      var i := Find(rows, id).value;
      rows := WithState(rows, i, Processing);
      IdentitiesPreserveValidity(old(rows), rows);
    }

    /** `setStateWaiting`: WAITING only if the message has not been processed already. */
    method SetStateWaiting(id: MsgId)
      requires Valid() && Find(rows, id).Some?
      modifies this
      ensures Valid()
      ensures rows == WaitingUnlessProcessed(old(rows), Find(old(rows), id).value)
    {
      var i := Find(rows, id).value;
      if !IsProcessed(rows[i].state) {
        rows := WithState(rows, i, Waiting);
        IdentitiesPreserveValidity(old(rows), rows);
      }
    }

    /** `setStateWaitingForResponse`: unconditionally WAITING_FOR_RES. */
    method SetStateWaitingForResponse(id: MsgId)
      requires Valid() && Find(rows, id).Some?
      modifies this
      ensures Valid()
      ensures rows == WithState(old(rows), Find(old(rows), id).value, WaitingForRes)
    {
      var i := Find(rows, id).value;
      rows := WithState(rows, i, WaitingForRes);
      IdentitiesPreserveValidity(old(rows), rows);
    }

    /** `setStatePartlyFailedWithoutError`: PARTLY_FAILED, error count unchanged. */
    method SetStatePartlyFailedWithoutError(id: MsgId)
      requires Valid() && Find(rows, id).Some?
      modifies this
      ensures Valid()
      ensures rows == WithState(old(rows), Find(old(rows), id).value, PartlyFailed)
    {
      var i := Find(rows, id).value;
      rows := WithState(rows, i, PartlyFailed);
      IdentitiesPreserveValidity(old(rows), rows);
    }

    /** `setStatePartlyFailed`: PARTLY_FAILED, one more failure counted, the failure's code recorded. */
    method SetStatePartlyFailed(id: MsgId, ex: Chain, errCode: Option<ErrorCode>, customData: Option<string>)
      requires Valid() && Find(rows, id).Some?
      modifies this
      ensures Valid()
      ensures rows == PartlyFailedWithError(old(rows), Find(old(rows), id).value, FailureCode(ex, errCode))
    {
      var i := Find(rows, id).value;
      rows := PartlyFailedWithError(rows, i, FailureCode(ex, errCode));
      IdentitiesPreserveValidity(old(rows), rows);
    }

    /** `setStateFailed(msg, ex, errCode, customData)`: FAILED, and the parent FAILED too. */
    method SetStateFailed(id: MsgId, ex: Chain, errCode: Option<ErrorCode>, customData: Option<string>)
      requires Valid() && Find(rows, id).Some?
      modifies this
      ensures Valid()
      ensures rows == FailedWithParent(old(rows), Find(old(rows), id).value, FailureCode(ex, errCode))
    {
      FailWithParent(Find(rows, id).value, FailureCode(ex, errCode));
    }

    /** `setStateFailed(msg, errCode, errDesc)`: FAILED with the given code, and the parent FAILED too. */
    method SetStateFailedWithCode(id: MsgId, errCode: ErrorCode, errDesc: string)
      requires Valid() && Find(rows, id).Some?
      modifies this
      ensures Valid()
      ensures rows == FailedWithParent(old(rows), Find(old(rows), id).value, errCode)
    {
      FailWithParent(Find(rows, id).value, errCode);
    }

    /** The shared body of both `setStateFailed` overloads. */
    method FailWithParent(i: nat, code: ErrorCode)
      requires Valid() && i < |rows|
      modifies this
      ensures Valid()
      ensures rows == FailedWithParent(old(rows), i, code)
    {
      var parent := rows[i].parentMsgId;
      rows := rows[i := rows[i].(state := Failed, failedErrorCode := Some(code))];
      IdentitiesPreserveValidity(old(rows), rows);
      if parent.Some? {
        var j := Find(rows, parent.value);
        if j.Some? {
          var prev := rows;
          rows := WithState(rows, j.value, Failed);
          IdentitiesPreserveValidity(prev, rows);
        }
      }
    }

    /** `setStatePostponed`: unconditionally POSTPONED. */
    method SetStatePostponed(id: MsgId)
      requires Valid() && Find(rows, id).Some?
      modifies this
      ensures Valid()
      ensures rows == WithState(old(rows), Find(old(rows), id).value, Postponed)
    {
      var i := Find(rows, id).value;
      rows := WithState(rows, i, Postponed);
      IdentitiesPreserveValidity(old(rows), rows);
    }

    /** `setFunnelComponentId`. */
    method SetFunnelComponentId(id: MsgId, funnelCompId: string)
      requires Valid() && Find(rows, id).Some?
      modifies this
      ensures Valid()
      ensures var i := Find(old(rows), id).value;
        rows == old(rows)[i := WithFunnelComponentId(old(rows)[i], funnelCompId)]
    {
      var i := Find(rows, id).value;
      rows := rows[i := WithFunnelComponentId(rows[i], funnelCompId)];
      IdentitiesPreserveValidity(old(rows), rows);
    }

    /** `setFunnelValue`. */
    method SetFunnelValue(id: MsgId, funnelValues: set<string>)
      requires Valid() && Find(rows, id).Some?
      modifies this
      ensures Valid()
      ensures var i := Find(old(rows), id).value;
        rows == old(rows)[i := WithFunnelValues(old(rows)[i], funnelValues)]
    {
      var i := Find(rows, id).value;
      rows := rows[i := WithFunnelValues(rows[i], funnelValues)];
      IdentitiesPreserveValidity(old(rows), rows);
    }

    /** `setFunnelComponentIdAndValue`. */
    method SetFunnelComponentIdAndValue(id: MsgId, funnelCompId: string, funnelValues: set<string>)
      requires Valid() && Find(rows, id).Some?
      modifies this
      ensures Valid()
      ensures var i := Find(old(rows), id).value;
        rows == old(rows)[i := WithFunnelComponentIdAndValues(old(rows)[i], funnelCompId, funnelValues)]
    {
      var i := Find(rows, id).value;
      rows := rows[i := WithFunnelComponentIdAndValues(rows[i], funnelCompId, funnelValues)];
      IdentitiesPreserveValidity(old(rows), rows);
    }
  }

  // ---- properties ----

  /** Lookup by ID only looks at IDs: tables with the same IDs in the same places find the same positions. */
  lemma {:induction false} FindSameIdentities(rows: seq<Message>, rows': seq<Message>, id: MsgId, from: nat)
    requires SameIdentities(rows, rows') && from <= |rows|
    ensures FindFrom(rows', id, from) == FindFrom(rows, id, from)
    decreases |rows| - from
  {
    if from < |rows| {
      FindSameIdentities(rows, rows', id, from + 1);
    }
  }

  /** Changing lifecycle fields only keeps the table valid: IDs stay unique and parents stay present. */
  lemma IdentitiesPreserveValidity(rows: seq<Message>, rows': seq<Message>)
    requires ValidTable(rows) && SameIdentities(rows, rows')
    ensures ValidTable(rows')
  {
    forall id | true
      ensures Find(rows', id) == Find(rows, id)
    {
      FindSameIdentities(rows, rows', id, 0);
    }
  }

  /** `setStateFailed` leaves the message FAILED with the given code, its parent FAILED, and every other message untouched. */
  lemma FailedWithParentEffects(rows: seq<Message>, i: nat, code: ErrorCode)
    requires ValidTable(rows) && i < |rows|
    ensures var r := FailedWithParent(rows, i, code);
      && SameIdentities(rows, r)
      && r[i].state == Failed && r[i].failedErrorCode == Some(code) && r[i].failedCount == rows[i].failedCount
      && (rows[i].parentMsgId.Some? ==> r[Find(rows, rows[i].parentMsgId.value).value].state == Failed)
      && forall k :: 0 <= k < |rows| && k != i && (rows[i].parentMsgId.None? || rows[k].id != rows[i].parentMsgId.value)
           ==> r[k] == rows[k]
  {
    var child := rows[i := rows[i].(state := Failed, failedErrorCode := Some(code))];
    if rows[i].parentMsgId.Some? {
      FindSameIdentities(rows, child, rows[i].parentMsgId.value, 0);
    }
  }

  /** `setStatePartlyFailed` counts exactly one more failure; the variant without error counts none. */
  lemma PartlyFailedCounts(rows: seq<Message>, i: nat, code: ErrorCode)
    requires i < |rows|
    ensures PartlyFailedWithError(rows, i, code)[i].state == PartlyFailed
    ensures PartlyFailedWithError(rows, i, code)[i].failedCount == rows[i].failedCount + 1
    ensures WithState(rows, i, PartlyFailed)[i].failedCount == rows[i].failedCount
  {
  }

  /** `setStateWaiting` never reopens a processed message, and otherwise makes it WAITING. */
  lemma WaitingGuard(rows: seq<Message>, i: nat)
    requires i < |rows|
    ensures IsProcessed(rows[i].state) ==> WaitingUnlessProcessed(rows, i) == rows
    ensures !IsProcessed(rows[i].state) ==> WaitingUnlessProcessed(rows, i)[i].state == Waiting
  {
  }

  /** After `setStateOk` on a child, all children of its parent are OK exactly when every sibling already was. */
  lemma LastChildCompletesParent(rows: seq<Message>, i: nat)
    requires i < |rows| && rows[i].parentMsgId.Some?
    ensures var p := rows[i].parentMsgId.value;
      AllChildrenOk(WithState(rows, i, Ok), p) <==>
      forall k :: 0 <= k < |rows| && k != i && rows[k].parentMsgId == Some(p) ==> rows[k].state == Ok
  {
    var r := WithState(rows, i, Ok);
    assert forall k :: 0 <= k < |rows| && k != i ==> r[k] == rows[k];
    assert r[i].state == Ok && r[i].parentMsgId == rows[i].parentMsgId;
  }

  /** Setting the funnel ID and then the values is `setFunnelComponentIdAndValue`; nothing else of the message changes. */
  lemma FunnelSettersCompose(m: Message, funnelCompId: string, funnelValues: set<string>)
    ensures WithFunnelValues(WithFunnelComponentId(m, funnelCompId), funnelValues)
      == WithFunnelComponentIdAndValues(m, funnelCompId, funnelValues)
    ensures WithFunnelComponentIdAndValues(m, funnelCompId, funnelValues)
      == m.(funnelComponentId := Some(funnelCompId), funnelValues := funnelValues)
  {
  }
}
