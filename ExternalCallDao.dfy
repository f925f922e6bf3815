/**
 * The external call table and its DAO: insertion under the unique
 * (operation name, entity ID) key, the optimistic and pessimistic locks
 * (modelled as the state change they make), and the lookup queries.
 * Each call is one atomic step; `now` stands for the current time.
 */
module ExternalCallDao {

  import opened Wrappers
  import opened ExternalCalls

  /** `MAX_MESSAGES_IN_ONE_QUERY`. */
  const MAX_MESSAGES_IN_ONE_QUERY: nat := 50

  datatype DaoError =
    | IllegalArgument(reason: string)
    | MultipleDataFound(operationName: string, entityId: string)
    | DuplicateKey(operationName: string, entityId: string)
    | EntityExists

  predicate HasKey(c: ExternalCall, operationName: string, entityId: string)
  {
    c.operationName == operationName && c.entityId == entityId
  }

  /** The `uq_operation_entity_id` constraint. */
  predicate UniqueKeys(rows: seq<ExternalCall>)
  {
    forall i, j :: 0 <= i < j < |rows| ==> !HasKey(rows[j], rows[i].operationName, rows[i].entityId)
  }

  /** Saved rows have distinct generated IDs below the next one. */
  predicate SavedIds(rows: seq<ExternalCall>, nextId: int)
  {
    && (forall i :: 0 <= i < |rows| ==> rows[i].id.Some? && rows[i].id.value as int < nextId)
    && (forall i, j :: 0 <= i < j < |rows| ==> rows[i].id != rows[j].id)
  }

  predicate ValidTable(rows: seq<ExternalCall>, nextId: int)
  {
    UniqueKeys(rows) && SavedIds(rows, nextId)
  }

  predicate KeyTaken(rows: seq<ExternalCall>, operationName: string, entityId: string)
  {
    exists k :: 0 <= k < |rows| && HasKey(rows[k], operationName, entityId)
  }

  /** The rows with the given key, in table order. */
  function WithKey(rows: seq<ExternalCall>, operationName: string, entityId: string): (r: seq<ExternalCall>)
    ensures |r| <= |rows|
    ensures forall c :: c in r <==> c in rows && HasKey(c, operationName, entityId)
  {
    if rows == [] then []
    else
      var rest := WithKey(rows[1..], operationName, entityId);
      if HasKey(rows[0], operationName, entityId) then [rows[0]] + rest else rest
  }

  /** `insert`: the table after the row is saved with the next generated ID, or why it cannot be. */
  function InsertOutcome(rows: seq<ExternalCall>, nextId: int, call: ExternalCall): Result<seq<ExternalCall>, DaoError>
    requires -0x8000_0000_0000_0000 <= nextId < 0x8000_0000_0000_0000
  {
    if call.id.Some? then Failure(EntityExists)
    else if KeyTaken(rows, call.operationName, call.entityId) then Failure(DuplicateKey(call.operationName, call.entityId))
    else Success(rows + [call.(id := Some(nextId as Long))])
  }

  /** `getExternalCall`: nothing, the one row with the key, or MultipleDataFound. */
  function GetExternalCall(rows: seq<ExternalCall>, operationName: string, entityId: string): Result<Option<ExternalCall>, DaoError>
  {
    var found := WithKey(rows, operationName, entityId);
    if found == [] then Success(None)
    else if |found| > 1 then Failure(MultipleDataFound(operationName, entityId))
    else Success(Some(found[0]))
  }

  /** A FAILED confirmation last updated before `now` minus `interval` seconds. */
  predicate IsDueConfirmation(c: ExternalCall, now: int, interval: int)
  {
    c.operationName == CONFIRM_OPERATION && c.state == Failed && c.lastUpdateTimestamp < now - interval * 1000
  }

  /** The first due confirmation with the least creation timestamp among `rows[from..]`. */
  function OldestDueFrom(rows: seq<ExternalCall>, now: int, interval: int, from: nat): (r: Option<nat>)
    requires from <= |rows|
    ensures r.Some? ==> from <= r.value < |rows| && IsDueConfirmation(rows[r.value], now, interval)
    ensures r.Some? ==> forall k :: from <= k < |rows| && IsDueConfirmation(rows[k], now, interval)
                          ==> rows[r.value].creationTimestamp <= rows[k].creationTimestamp
    ensures r.None? <==> forall k :: from <= k < |rows| ==> !IsDueConfirmation(rows[k], now, interval)
    decreases |rows| - from
  {
    if from == |rows| then None
    else
      var rest := OldestDueFrom(rows, now, interval, from + 1);
      if !IsDueConfirmation(rows[from], now, interval) then rest
      else if rest.Some? && rows[rest.value].creationTimestamp < rows[from].creationTimestamp then rest
      else Some(from)
  }

  /** `findConfirmation`: the oldest-created due confirmation, if any. */
  function FindConfirmation(rows: seq<ExternalCall>, now: int, interval: int): Option<ExternalCall>
  {
    match OldestDueFrom(rows, now, interval, 0)
    case None => None
    case Some(k) => Some(rows[k])
  }

  /** A PROCESSING call last updated before `now` minus `interval` seconds. */
  predicate IsStuckCall(c: ExternalCall, now: int, interval: int)
  {
    c.state == Processing && c.lastUpdateTimestamp < now - interval * 1000
  }

  function StuckCalls(rows: seq<ExternalCall>, now: int, interval: int): (r: seq<ExternalCall>)
    ensures |r| <= |rows|
    ensures forall c :: c in r <==> c in rows && IsStuckCall(c, now, interval)
  {
    if rows == [] then []
    else
      var rest := StuckCalls(rows[1..], now, interval);
      if IsStuckCall(rows[0], now, interval) then [rows[0]] + rest else rest
  }

  /** `findProcessingExternalCalls`: the first 50 stuck calls in table order. */
  function FindProcessingExternalCalls(rows: seq<ExternalCall>, now: int, interval: int): seq<ExternalCall>
  {
    var stuck := StuckCalls(rows, now, interval);
    if |stuck| <= MAX_MESSAGES_IN_ONE_QUERY then stuck else stuck[..MAX_MESSAGES_IN_ONE_QUERY]
  }

  /** The external call table. */
  class ExternalCallTable {
    var rows: seq<ExternalCall>
    var nextId: int

    ghost predicate Valid()
      reads this
    {
      ValidTable(rows, nextId) && -0x8000_0000_0000_0000 <= nextId < 0x8000_0000_0000_0000 - 1
    }

    constructor ()
      ensures Valid() && rows == [] && nextId == 1
    {
      rows := [];
      nextId := 1;
    }

    /** `insert`: saves the call under a fresh ID unless it is saved already or its key is taken. */
    method Insert(call: ExternalCall) returns (r: Outcome<DaoError>)
      requires Valid() && nextId < 0x8000_0000_0000_0000 - 2
      modifies this
      ensures Valid()
      ensures match InsertOutcome(old(rows), old(nextId), call)
        case Success(rows') => r == Pass && rows == rows' && nextId == old(nextId) + 1
        case Failure(e) => r == Fail(e) && rows == old(rows) && nextId == old(nextId)
    {
      if call.id.Some? {
        return Fail(EntityExists);
      }
      var k := 0;
      while k < |rows|
        invariant 0 <= k <= |rows|
        invariant forall q :: 0 <= q < k ==> !HasKey(rows[q], call.operationName, call.entityId)
      {
        if HasKey(rows[k], call.operationName, call.entityId) {
          return Fail(DuplicateKey(call.operationName, call.entityId));
        }
        k := k + 1;
      }
      InsertKeepsValid(rows, nextId, call);
      rows := rows + [call.(id := Some(nextId as Long))];
      nextId := nextId + 1;
      r := Pass;
    }

    /** `lockExternalCall`: an attached call that is not PROCESSING becomes PROCESSING; nothing else changes. */
    method LockExternalCall(call: ExternalCall) returns (r: Outcome<DaoError>)
      requires Valid()
      modifies this
      ensures Valid() && nextId == old(nextId)
      ensures r.Pass? <==> call.state != Processing && call in old(rows)
      ensures r.Pass? ==> exists k :: 0 <= k < |old(rows)| && old(rows)[k] == call && rows == old(rows)[k := call.(state := Processing)]
      ensures r.Fail? ==> rows == old(rows)
    {
      r := LockRow(call);
    }

    /** `lockConfirmation`: the same lock, returning the locked call. */
    method LockConfirmation(call: ExternalCall) returns (r: Result<ExternalCall, DaoError>)
      requires Valid()
      modifies this
      ensures Valid() && nextId == old(nextId)
      ensures r.Success? <==> call.state != Processing && call in old(rows)
      ensures r.Success? ==> r.value == call.(state := Processing)
      ensures r.Success? ==> exists k :: 0 <= k < |old(rows)| && old(rows)[k] == call && rows == old(rows)[k := r.value]
      ensures r.Failure? ==> rows == old(rows)
    {
      var o := LockRow(call);
      if o.Pass? {
        r := Success(call.(state := Processing));
      } else {
        r := Failure(o.error);
      }
    }

    /** The shared lock step: the checks in the source's order, then the state change. */
    method LockRow(call: ExternalCall) returns (r: Outcome<DaoError>)
      requires Valid()
      modifies this
      ensures Valid() && nextId == old(nextId)
      ensures r.Pass? <==> call.state != Processing && call in old(rows)
      ensures r.Pass? ==> exists k :: 0 <= k < |old(rows)| && old(rows)[k] == call && rows == old(rows)[k := call.(state := Processing)]
      ensures r.Fail? ==> rows == old(rows)
    {
      if call.state == Processing {
        return Fail(IllegalArgument("the extCall must not be locked in a processing state"));
      }
      var k := 0;
      while k < |rows| && rows[k] != call
        invariant 0 <= k <= |rows|
        invariant forall q :: 0 <= q < k ==> rows[q] != call
      {
        k := k + 1;
      }
      if k == |rows| {
        return Fail(IllegalArgument("the extCall must be attached"));
      }
      LockKeepsValid(rows, nextId, k);
      rows := rows[k := call.(state := Processing)];
      r := Pass;
    }
  }

  // ---- properties ----

  lemma InsertKeepsValid(rows: seq<ExternalCall>, nextId: int, call: ExternalCall)
    requires ValidTable(rows, nextId) && -0x8000_0000_0000_0000 <= nextId < 0x8000_0000_0000_0000 - 1
    requires call.id.None? && !KeyTaken(rows, call.operationName, call.entityId)
    ensures ValidTable(rows + [call.(id := Some(nextId as Long))], nextId + 1)
  {
    var rows' := rows + [call.(id := Some(nextId as Long))];
    forall i, j | 0 <= i < j < |rows'| ensures !HasKey(rows'[j], rows'[i].operationName, rows'[i].entityId) {
      if j == |rows| {
        assert !HasKey(rows[i], call.operationName, call.entityId);
      }
    }
  }

  lemma LockKeepsValid(rows: seq<ExternalCall>, nextId: int, k: nat)
    requires ValidTable(rows, nextId) && k < |rows|
    ensures ValidTable(rows[k := rows[k].(state := Processing)], nextId)
  {
    var rows' := rows[k := rows[k].(state := Processing)];
    assert forall i :: 0 <= i < |rows| ==>
      (rows'[i].operationName == rows[i].operationName && rows'[i].entityId == rows[i].entityId && rows'[i].id == rows[i].id);
  }

  /** Under the unique key there is at most one row per key: `getExternalCall` never reports MultipleDataFound. */
  lemma {:induction false} UniqueKeysAtMostOne(rows: seq<ExternalCall>, operationName: string, entityId: string)
    requires UniqueKeys(rows)
    ensures |WithKey(rows, operationName, entityId)| <= 1
  {
    if rows != [] {
      UniqueKeysAtMostOne(rows[1..], operationName, entityId);
      if HasKey(rows[0], operationName, entityId) {
        forall k | 0 <= k < |rows[1..]| ensures !HasKey(rows[1..][k], operationName, entityId) {
          assert !HasKey(rows[k + 1], rows[0].operationName, rows[0].entityId);
        }
        WithKeyNone(rows[1..], operationName, entityId);
      }
    }
  }

  lemma {:induction false} WithKeyNone(rows: seq<ExternalCall>, operationName: string, entityId: string)
    requires forall k :: 0 <= k < |rows| ==> !HasKey(rows[k], operationName, entityId)
    ensures WithKey(rows, operationName, entityId) == []
  {
    if rows != [] {
      WithKeyNone(rows[1..], operationName, entityId);
    }
  }

  /** `getExternalCall` on a valid table: nothing exactly when no row has the key, else the row with it. */
  lemma GetExternalCallOnValidTable(rows: seq<ExternalCall>, operationName: string, entityId: string)
    requires UniqueKeys(rows)
    ensures GetExternalCall(rows, operationName, entityId).Success?
    ensures GetExternalCall(rows, operationName, entityId).value.None? <==> !KeyTaken(rows, operationName, entityId)
    ensures GetExternalCall(rows, operationName, entityId).value.Some? ==>
      var c := GetExternalCall(rows, operationName, entityId).value.value;
      c in rows && HasKey(c, operationName, entityId)
  {
    UniqueKeysAtMostOne(rows, operationName, entityId);
    var found := WithKey(rows, operationName, entityId);
    if found != [] {
      assert found[0] in rows;
    } else {
      forall k | 0 <= k < |rows| ensures !HasKey(rows[k], operationName, entityId) {
        assert rows[k] in rows;
      }
    }
  }

  /** Two rows with one key make `getExternalCall` fail with MultipleDataFound. */
  lemma DuplicatedKeyIsReported(rows: seq<ExternalCall>, i: nat, j: nat)
    requires i < j < |rows| && HasKey(rows[j], rows[i].operationName, rows[i].entityId)
    ensures GetExternalCall(rows, rows[i].operationName, rows[i].entityId)
      == Failure(MultipleDataFound(rows[i].operationName, rows[i].entityId))
  {
    WithKeyCountsBoth(rows, rows[i].operationName, rows[i].entityId, i, j);
  }

  lemma {:induction false} WithKeyCountsBoth(rows: seq<ExternalCall>, operationName: string, entityId: string, i: nat, j: nat)
    requires i < j < |rows| && HasKey(rows[i], operationName, entityId) && HasKey(rows[j], operationName, entityId)
    ensures |WithKey(rows, operationName, entityId)| >= 2
  {
    if i == 0 {
      assert rows[j] in rows[1..];
    } else {
      WithKeyCountsBoth(rows[1..], operationName, entityId, i - 1, j - 1);
    }
  }

  /** A successful insert keeps the table valid and makes the new row the one `getExternalCall` finds. */
  lemma InsertThenGet(rows: seq<ExternalCall>, nextId: int, call: ExternalCall)
    requires ValidTable(rows, nextId) && -0x8000_0000_0000_0000 <= nextId < 0x8000_0000_0000_0000 - 1
    requires InsertOutcome(rows, nextId, call).Success?
    ensures ValidTable(InsertOutcome(rows, nextId, call).value, nextId + 1)
    ensures GetExternalCall(InsertOutcome(rows, nextId, call).value, call.operationName, call.entityId)
      == Success(Some(call.(id := Some(nextId as Long))))
  {
    var rows' := InsertOutcome(rows, nextId, call).value;
    InsertKeepsValid(rows, nextId, call);
    GetExternalCallOnValidTable(rows', call.operationName, call.entityId);
    var c := call.(id := Some(nextId as Long));
    assert rows'[|rows|] == c;
    UniqueKeysAtMostOne(rows', call.operationName, call.entityId);
    assert c in WithKey(rows', call.operationName, call.entityId);
  }

  /** Inserting a second call with a key already saved is rejected, not merged. */
  lemma SecondInsertWithSameKeyRejected(rows: seq<ExternalCall>, nextId: int, first: ExternalCall, second: ExternalCall)
    requires -0x8000_0000_0000_0000 <= nextId < 0x8000_0000_0000_0000 - 1
    requires InsertOutcome(rows, nextId, first).Success?
    requires second.id.None? && HasKey(second, first.operationName, first.entityId)
    ensures InsertOutcome(InsertOutcome(rows, nextId, first).value, nextId + 1, second)
      == Failure(DuplicateKey(first.operationName, first.entityId))
  {
    var rows' := InsertOutcome(rows, nextId, first).value;
    assert HasKey(rows'[|rows|], second.operationName, second.entityId);
  }

  /** On a valid table at most one call per key is PROCESSING. */
  lemma AtMostOneProcessingPerKey(rows: seq<ExternalCall>, nextId: int, i: nat, j: nat)
    requires ValidTable(rows, nextId) && i < |rows| && j < |rows|
    requires rows[i].state == Processing && rows[j].state == Processing
    requires HasKey(rows[j], rows[i].operationName, rows[i].entityId)
    ensures i == j
  {
  }

  /** `findConfirmation` returns nothing exactly when no confirmation is due, else a due one created no later than any other. */
  lemma FindConfirmationIsOldestDue(rows: seq<ExternalCall>, now: int, interval: int)
    ensures FindConfirmation(rows, now, interval).None? <==>
      forall k :: 0 <= k < |rows| ==> !IsDueConfirmation(rows[k], now, interval)
    ensures FindConfirmation(rows, now, interval).Some? ==>
      var c := FindConfirmation(rows, now, interval).value;
      c in rows && IsConfirmationCall(c) && IsDueConfirmation(c, now, interval)
      && forall k :: 0 <= k < |rows| && IsDueConfirmation(rows[k], now, interval) ==> c.creationTimestamp <= rows[k].creationTimestamp
  {
  }

  /** `findProcessingExternalCalls` returns 50 calls, or every stuck call when there are fewer; all of them stuck. */
  lemma FindProcessingExternalCallsBounds(rows: seq<ExternalCall>, now: int, interval: int)
    ensures |FindProcessingExternalCalls(rows, now, interval)| <= MAX_MESSAGES_IN_ONE_QUERY
    ensures |FindProcessingExternalCalls(rows, now, interval)|
         == if |StuckCalls(rows, now, interval)| <= MAX_MESSAGES_IN_ONE_QUERY then |StuckCalls(rows, now, interval)| else MAX_MESSAGES_IN_ONE_QUERY
    ensures forall c :: c in FindProcessingExternalCalls(rows, now, interval) ==> c in rows && IsStuckCall(c, now, interval)
    ensures |StuckCalls(rows, now, interval)| <= MAX_MESSAGES_IN_ONE_QUERY ==>
      forall k :: 0 <= k < |rows| && IsStuckCall(rows[k], now, interval) ==> rows[k] in FindProcessingExternalCalls(rows, now, interval)
  {
    var stuck := StuckCalls(rows, now, interval);
    forall c | c in FindProcessingExternalCalls(rows, now, interval) ensures c in stuck {
      if |stuck| > MAX_MESSAGES_IN_ONE_QUERY {
        var q :| 0 <= q < MAX_MESSAGES_IN_ONE_QUERY && stuck[..MAX_MESSAGES_IN_ONE_QUERY][q] == c;
        assert stuck[q] == c;
      }
    }
  }
}
