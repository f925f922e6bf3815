/**
 * The repair job for messages stuck in PROCESSING: it finds them, splits
 * them into batches of ten, and per batch either sends a message that has
 * failed too often to the fatal-error route (error E116) or puts it back to
 * PARTLY_FAILED with one more failure and the batch's timestamp. The clock
 * is a parameter: `clock(b)` is the time taken for batch number `b`, and the
 * route the fatal messages are sent to is an output log.
 */
module Repair {

  import opened Errors
  import opened Messages
  import BasicRoute

  const BATCH_SIZE: nat := 10

  /** A message sent to a route with the exception it carries. */
  datatype Redirect = Redirect(uri: BasicRoute.Uri, msg: Message, error: ErrorCode)

  // ---- batching ----

  /** The consecutive batches of at most `BATCH_SIZE` elements that the job works through. */
  function Batches<T>(s: seq<T>): (bs: seq<seq<T>>)
    ensures forall b :: 0 <= b < |bs| ==> 1 <= |bs[b]| <= BATCH_SIZE
    decreases |s|
  {
    if s == [] then []
    else if |s| <= BATCH_SIZE then [s]
    else [s[..BATCH_SIZE]] + Batches(s[BATCH_SIZE..])
  }

  function Flatten<T>(bs: seq<seq<T>>): seq<T>
  {
    if bs == [] then [] else bs[0] + Flatten(bs[1..])
  }

  /** Together the batches are the whole list, in order: every element exactly once. */
  lemma {:induction false} BatchesCoverInOrder<T>(s: seq<T>)
    ensures Flatten(Batches(s)) == s
    decreases |s|
  {
    if |s| > BATCH_SIZE {
      BatchesCoverInOrder(s[BATCH_SIZE..]);
      assert s == s[..BATCH_SIZE] + s[BATCH_SIZE..];
    }
  }

  /** Batch `b` is the slice from `10 b` up to `10 b + 10` or the end of the list. */
  lemma {:induction false} BatchIsSlice<T>(s: seq<T>, b: nat)
    requires b * BATCH_SIZE < |s|
    ensures b < |Batches(s)|
    ensures Batches(s)[b] == s[b * BATCH_SIZE .. Min(b * BATCH_SIZE + BATCH_SIZE, |s|)]
    decreases |s|
  {
    if b > 0 {
      var t := s[BATCH_SIZE..];
      BatchIsSlice(t, b - 1);
      var lo := (b - 1) * BATCH_SIZE;
      var hi := Min(lo + BATCH_SIZE, |t|);
      assert lo + BATCH_SIZE == b * BATCH_SIZE;
      assert hi + BATCH_SIZE == Min(b * BATCH_SIZE + BATCH_SIZE, |s|);
      assert t[lo..hi] == s[lo + BATCH_SIZE .. hi + BATCH_SIZE];
      assert Batches(s) == [s[..BATCH_SIZE]] + Batches(t);
    }
  }

  /** Element `k` is element `k % 10` of batch `k / 10`. */
  lemma BatchOfPosition<T>(s: seq<T>, k: nat)
    requires k < |s|
    ensures k / BATCH_SIZE < |Batches(s)|
    ensures k % BATCH_SIZE < |Batches(s)[k / BATCH_SIZE]|
    ensures Batches(s)[k / BATCH_SIZE][k % BATCH_SIZE] == s[k]
  {
    var b := k / BATCH_SIZE;
    assert b * BATCH_SIZE <= k < b * BATCH_SIZE + BATCH_SIZE;
    BatchIsSlice(s, b);
  }

  /** The loop's `b`-th slice, from `min(10 b, size)`, is batch `b`, stamped with the time of batch `b`. */
  lemma BatchAt<T>(s: seq<T>, b: nat, start: nat, end: nat)
    requires start == Min(b * BATCH_SIZE, |s|) && start < |s| && end == Min(start + BATCH_SIZE, |s|)
    ensures start == b * BATCH_SIZE && start % BATCH_SIZE == 0 && start / BATCH_SIZE == b
    ensures b < |Batches(s)| && Batches(s)[b] == s[start..end]
    ensures end == Min((b + 1) * BATCH_SIZE, |s|)
  {
    BatchIsSlice(s, b);
  }

  function Min(a: int, b: int): int
  {
    if a <= b then a else b
  }

  // ---- candidates ----

  /** A PROCESSING message not updated for `repeatInterval` seconds before `now`. */
  predicate IsStuck(m: Message, now: int, repeatInterval: int)
  {
    m.state == Processing && m.lastUpdateTimestamp < now - repeatInterval * 1000
  }

  predicate StrictlyIncreasing(idx: seq<nat>)
  {
    forall i, j :: 0 <= i < j < |idx| ==> idx[i] < idx[j]
  }

  /** The positions of the stuck messages at or after `from`, in table order. */
  function StuckFrom(rows: seq<Message>, now: int, repeatInterval: int, from: nat): (idx: seq<nat>)
    requires from <= |rows|
    ensures forall k :: 0 <= k < |idx| ==> from <= idx[k] < |rows|
    decreases |rows| - from
  {
    if from == |rows| then []
    else
      var rest := StuckFrom(rows, now, repeatInterval, from + 1);
      if IsStuck(rows[from], now, repeatInterval) then [from] + rest else rest
  }

  /** `findProcessingMessages`: the messages the job repairs, as positions in the table. */
  function FindProcessingMessages(rows: seq<Message>, now: int, repeatInterval: int): seq<nat>
  {
    StuckFrom(rows, now, repeatInterval, 0)
  }

  function Snapshot(rows: seq<Message>, idx: seq<nat>): (s: seq<Message>)
    requires forall k :: 0 <= k < |idx| ==> idx[k] < |rows|
    ensures |s| == |idx| && forall k :: 0 <= k < |idx| ==> s[k] == rows[idx[k]]
  {
    seq(|idx|, k requires 0 <= k < |idx| => rows[idx[k]])
  }

  // ---- the repair step ----

  predicate ExceedsFailures(m: Message, countPartlyFailsBeforeFailed: int)
  {
    m.failedCount >= countPartlyFailsBeforeFailed
  }

  /** One message's repair: unchanged when it failed too often, else PARTLY_FAILED, one more failure, updated at `currDate`. */
  function RepairedMessage(m: Message, countPartlyFailsBeforeFailed: int, currDate: int): Message
  {
    if ExceedsFailures(m, countPartlyFailsBeforeFailed) then m
    else m.(state := PartlyFailed, failedCount := m.failedCount + 1, lastUpdateTimestamp := currDate)
  }

  /** The fatal-route sends for `msgs`, in order. */
  function Redirects(msgs: seq<Message>, countPartlyFailsBeforeFailed: int): seq<Redirect>
  {
    if msgs == [] then []
    else
      var m := msgs[|msgs| - 1];
      Redirects(msgs[..|msgs| - 1], countPartlyFailsBeforeFailed)
        + if ExceedsFailures(m, countPartlyFailsBeforeFailed) then [Redirect(BasicRoute.ErrorFatal, m, E116)] else []
  }

  /** The fatal-route sends for the messages at positions `idx`, in order. */
  function RedirectsAt(rows: seq<Message>, idx: seq<nat>, countPartlyFailsBeforeFailed: int): seq<Redirect>
    requires forall k :: 0 <= k < |idx| ==> idx[k] < |rows|
  {
    if idx == [] then []
    else
      var m := rows[idx[|idx| - 1]];
      RedirectsAt(rows, idx[..|idx| - 1], countPartlyFailsBeforeFailed)
        + if ExceedsFailures(m, countPartlyFailsBeforeFailed) then [Redirect(BasicRoute.ErrorFatal, m, E116)] else []
  }

  /** `after` is `before` with the messages at positions `batch` repaired at `currDate`, and nothing else changed. */
  predicate BatchRepaired(before: seq<Message>, after: seq<Message>, batch: seq<nat>, countPartlyFailsBeforeFailed: int, currDate: int)
  {
    && |after| == |before|
    && (forall j :: 0 <= j < |batch| ==> batch[j] < |before|)
    && (forall j :: 0 <= j < |batch| ==>
          after[batch[j]] == RepairedMessage(before[batch[j]], countPartlyFailsBeforeFailed, currDate))
    && (forall i :: 0 <= i < |before| && i !in batch ==> after[i] == before[i])
  }

  /** The first `n` found messages are repaired, each with the time of its batch; nothing else has changed. */
  predicate RepairedUpTo(rows0: seq<Message>, rows: seq<Message>, found: seq<nat>, countPartlyFailsBeforeFailed: int,
                         clock: nat -> int, n: nat)
  {
    && |rows| == |rows0| && n <= |found|
    && (forall k :: 0 <= k < |found| ==> found[k] < |rows0|)
    && (forall k :: 0 <= k < n ==>
          rows[found[k]] == RepairedMessage(rows0[found[k]], countPartlyFailsBeforeFailed, clock(k / BATCH_SIZE)))
    && (forall k :: n <= k < |found| ==> rows[found[k]] == rows0[found[k]])
    && (forall i :: 0 <= i < |rows0| && i !in found ==> rows[i] == rows0[i])
  }

  /** The positions in `idx` are positions of `rows`. */
  predicate InTable(rows: seq<Message>, idx: seq<nat>)
  {
    forall k :: 0 <= k < |idx| ==> idx[k] < |rows|
  }

  /** The table and the sends so far. */
  datatype Run = Run(rows: seq<Message>, sent: seq<Redirect>)

  /** The job's handling of the message at position `i` at time `currDate`: a fatal-route send, or a repair in place. */
  function Handle(r: Run, i: nat, countPartlyFailsBeforeFailed: int, currDate: int): (r': Run)
    requires i < |r.rows|
    ensures |r'.rows| == |r.rows|
  {
    var m := r.rows[i];
    if ExceedsFailures(m, countPartlyFailsBeforeFailed) then
      Run(r.rows, r.sent + [Redirect(BasicRoute.ErrorFatal, m, E116)])
    else
      Run(r.rows[i := RepairedMessage(m, countPartlyFailsBeforeFailed, currDate)], r.sent)
  }

  /** `updateMessagesInDB` as a function: the messages at positions `batch` handled in batch order, all at `currDate`. */
  function BatchRun(r: Run, batch: seq<nat>, countPartlyFailsBeforeFailed: int, currDate: int): (r': Run)
    requires InTable(r.rows, batch)
    ensures |r'.rows| == |r.rows|
  {
    if batch == [] then r
    else
      var prev := BatchRun(r, batch[..|batch| - 1], countPartlyFailsBeforeFailed, currDate);
      Handle(prev, batch[|batch| - 1], countPartlyFailsBeforeFailed, currDate)
  }

  /** The first `n` found messages handled in order, the `k`-th at the time of its batch, `clock(k / BATCH_SIZE)`. */
  function RunUpTo(r: Run, found: seq<nat>, countPartlyFailsBeforeFailed: int, clock: nat -> int, n: nat): (r': Run)
    requires InTable(r.rows, found) && n <= |found|
    ensures |r'.rows| == |r.rows|
  {
    if n == 0 then r
    else
      var prev := RunUpTo(r, found, countPartlyFailsBeforeFailed, clock, n - 1);
      Handle(prev, found[n - 1], countPartlyFailsBeforeFailed, clock((n - 1) / BATCH_SIZE))
  }

  /** `repairProcessingMessages` as a function: every stuck message found at `now`, from table and sends `r`. */
  function RepairRun(r: Run, now: int, repeatInterval: int, countPartlyFailsBeforeFailed: int, clock: nat -> int): Run
  {
    var found := FindProcessingMessages(r.rows, now, repeatInterval);
    RunUpTo(r, found, countPartlyFailsBeforeFailed, clock, |found|)
  }

  class RepairMessageService {
    /** `asynch.repairRepeatTime`, in seconds. */
    const repeatInterval: int
    /** `asynch.countPartlyFailsBeforeFailed`. */
    const countPartlyFailsBeforeFailed: int
    /** What was sent to other routes, oldest first. */
    var sent: seq<Redirect>

    constructor (repeatInterval: int, countPartlyFailsBeforeFailed: int)
      ensures this.repeatInterval == repeatInterval
      ensures this.countPartlyFailsBeforeFailed == countPartlyFailsBeforeFailed
      ensures sent == []
    {
      this.repeatInterval := repeatInterval;
      this.countPartlyFailsBeforeFailed := countPartlyFailsBeforeFailed;
      sent := [];
    }

    /**
     * `repairProcessingMessages`: the stuck messages found at `now` are handled in batches
     * of ten, batch number `b` at time `clock(b)`; `RepairRunEffect` says what that does.
     */
    method RepairProcessingMessages(store: MessageStore, now: int, clock: nat -> int)
      requires store.Valid()
      modifies this, store
      ensures store.Valid()
      ensures Run(store.rows, sent) == RepairRun(Run(old(store.rows), old(sent)), now, repeatInterval, countPartlyFailsBeforeFailed, clock)
    {
      var messages := FindProcessingMessages(store.rows, now, repeatInterval);
      ghost var start := Run(store.rows, sent);
      var batchStartIncl := 0;
      ghost var b := 0;
      while batchStartIncl < |messages|
        invariant batchStartIncl == Min(b * BATCH_SIZE, |messages|)
        invariant Run(store.rows, sent) == RunUpTo(start, messages, countPartlyFailsBeforeFailed, clock, batchStartIncl)
        decreases |messages| - batchStartIncl
      {
        var batchEndExcl := Min(batchStartIncl + BATCH_SIZE, |messages|);
        BatchAt(messages, b, batchStartIncl, batchEndExcl);
        assert messages[batchStartIncl..batchEndExcl] == Batches(messages)[b];
        BatchIsRunStep(start, messages, countPartlyFailsBeforeFailed, clock, batchStartIncl, batchEndExcl);
        UpdateMessagesInDB(store, messages[batchStartIncl..batchEndExcl], clock(batchStartIncl / BATCH_SIZE));
        batchStartIncl := batchEndExcl;
        b := b + 1;
      }
      RunUpToKeepsIdentities(start, messages, countPartlyFailsBeforeFailed, clock, |messages|);
      IdentitiesPreserveValidity(start.rows, store.rows);
    }

    /** `updateMessagesInDB`: the messages at positions `batch` handled in order, all at `currDate`. */
    method UpdateMessagesInDB(store: MessageStore, batch: seq<nat>, currDate: int)
      requires InTable(store.rows, batch)
      modifies this, store
      ensures Run(store.rows, sent) == BatchRun(Run(old(store.rows), old(sent)), batch, countPartlyFailsBeforeFailed, currDate)
    {
      ghost var start := Run(store.rows, sent);
      var rows := store.rows;
      for j := 0 to |batch|
        invariant store.rows == start.rows
        invariant Run(rows, sent) == BatchRun(start, batch[..j], countPartlyFailsBeforeFailed, currDate)
      {
        var i := batch[j];
        var msg := rows[i];
        assert batch[..j + 1][..j] == batch[..j];
        if msg.failedCount >= countPartlyFailsBeforeFailed {
          sent := sent + [Redirect(BasicRoute.ErrorFatal, msg, E116)];
        } else {
          rows := rows[i := msg.(lastUpdateTimestamp := currDate, state := PartlyFailed, failedCount := msg.failedCount + 1)];
        }
      }
      assert batch[..|batch|] == batch;
      store.rows := rows;
    }
  }

  // ---- properties ----

  /** A batch starting at a batch boundary is the run of the job over the batch's positions. */
  lemma {:induction false} BatchIsRunStep(r: Run, found: seq<nat>, countPartlyFailsBeforeFailed: int, clock: nat -> int,
                                          start: nat, end: nat)
    requires InTable(r.rows, found) && start % BATCH_SIZE == 0 && start <= end <= |found| && end <= start + BATCH_SIZE
    ensures InTable(RunUpTo(r, found, countPartlyFailsBeforeFailed, clock, start).rows, found[start..end])
    ensures RunUpTo(r, found, countPartlyFailsBeforeFailed, clock, end)
         == BatchRun(RunUpTo(r, found, countPartlyFailsBeforeFailed, clock, start), found[start..end],
                     countPartlyFailsBeforeFailed, clock(start / BATCH_SIZE))
    decreases end
  {
    if end == start {
      assert found[start..end] == [];
    } else {
      BatchIsRunStep(r, found, countPartlyFailsBeforeFailed, clock, start, end - 1);
      var first := RunUpTo(r, found, countPartlyFailsBeforeFailed, clock, start);
      var batch := found[start..end];
      var date := clock(start / BATCH_SIZE);
      SameBatch(start, end - 1);
      assert date == clock((end - 1) / BATCH_SIZE);
      assert batch[..|batch| - 1] == found[start..end - 1];
      assert batch[|batch| - 1] == found[end - 1];
      assert BatchRun(first, batch, countPartlyFailsBeforeFailed, date)
          == Handle(BatchRun(first, found[start..end - 1], countPartlyFailsBeforeFailed, date), found[end - 1],
                    countPartlyFailsBeforeFailed, date);
    }
  }

  /** A run changes lifecycle fields only. */
  lemma {:induction false} RunUpToKeepsIdentities(r: Run, found: seq<nat>, countPartlyFailsBeforeFailed: int,
                                                  clock: nat -> int, n: nat)
    requires InTable(r.rows, found) && n <= |found|
    ensures SameIdentities(r.rows, RunUpTo(r, found, countPartlyFailsBeforeFailed, clock, n).rows)
  {
    if n > 0 {
      RunUpToKeepsIdentities(r, found, countPartlyFailsBeforeFailed, clock, n - 1);
    }
  }

  /** One more message of the batch repaired: the repaired prefix grows by one. */
  lemma RepairStep(before: seq<Message>, rows: seq<Message>, batch: seq<nat>, j: nat,
                   countPartlyFailsBeforeFailed: int, currDate: int)
    requires StrictlyIncreasing(batch) && j < |batch| && forall q :: 0 <= q < |batch| ==> batch[q] < |before|
    requires BatchRepaired(before, rows, batch[..j], countPartlyFailsBeforeFailed, currDate)
    ensures rows[batch[j]] == before[batch[j]]
    ensures BatchRepaired(before, rows[batch[j] := RepairedMessage(rows[batch[j]], countPartlyFailsBeforeFailed, currDate)],
                          batch[..j + 1], countPartlyFailsBeforeFailed, currDate)
  {
    assert batch[j] !in batch[..j];
    assert batch[..j + 1] == batch[..j] + [batch[j]];
    var rows' := rows[batch[j] := RepairedMessage(rows[batch[j]], countPartlyFailsBeforeFailed, currDate)];
    forall q | 0 <= q < j + 1
      ensures rows'[batch[q]] == RepairedMessage(before[batch[q]], countPartlyFailsBeforeFailed, currDate)
    {
      if q < j {
        assert batch[..j][q] == batch[q];
      }
    }
  }

  /**
   * On distinct positions a batch repairs exactly the messages at those positions, each at
   * `currDate`, and sends exactly those that failed too often, in batch order.
   */
  lemma {:induction false} BatchRunRepairs(r: Run, batch: seq<nat>, countPartlyFailsBeforeFailed: int, currDate: int)
    requires InTable(r.rows, batch) && StrictlyIncreasing(batch)
    ensures BatchRepaired(r.rows, BatchRun(r, batch, countPartlyFailsBeforeFailed, currDate).rows, batch,
                          countPartlyFailsBeforeFailed, currDate)
    ensures BatchRun(r, batch, countPartlyFailsBeforeFailed, currDate).sent
         == r.sent + RedirectsAt(r.rows, batch, countPartlyFailsBeforeFailed)
  {
    if batch == [] {
      assert r.sent + [] == r.sent;
    } else {
      var j := |batch| - 1;
      var init := batch[..j];
      BatchRunRepairs(r, init, countPartlyFailsBeforeFailed, currDate);
      var prev := BatchRun(r, init, countPartlyFailsBeforeFailed, currDate);
      RepairStep(r.rows, prev.rows, batch, j, countPartlyFailsBeforeFailed, currDate);
      assert batch[..j + 1] == batch;
      var i := batch[j];
      if ExceedsFailures(prev.rows[i], countPartlyFailsBeforeFailed) {
        assert prev.rows[i := RepairedMessage(prev.rows[i], countPartlyFailsBeforeFailed, currDate)] == prev.rows;
        assert r.sent + RedirectsAt(r.rows, init, countPartlyFailsBeforeFailed) + [Redirect(BasicRoute.ErrorFatal, prev.rows[i], E116)]
            == r.sent + (RedirectsAt(r.rows, init, countPartlyFailsBeforeFailed) + [Redirect(BasicRoute.ErrorFatal, prev.rows[i], E116)]);
      } else {
        assert RedirectsAt(r.rows, init, countPartlyFailsBeforeFailed) + [] == RedirectsAt(r.rows, init, countPartlyFailsBeforeFailed);
      }
    }
  }

  /**
   * After the first `n` found messages, those are repaired, each at the time of its batch, and the
   * rest of the table is untouched.
   */
  lemma {:induction false} RunUpToRepairs(r: Run, found: seq<nat>, countPartlyFailsBeforeFailed: int,
                                          clock: nat -> int, n: nat)
    requires StrictlyIncreasing(found) && InTable(r.rows, found) && n <= |found|
    ensures RepairedUpTo(r.rows, RunUpTo(r, found, countPartlyFailsBeforeFailed, clock, n).rows, found,
                         countPartlyFailsBeforeFailed, clock, n)
  {
    if n > 0 {
      RunUpToRepairs(r, found, countPartlyFailsBeforeFailed, clock, n - 1);
      RunUpToUntouched(r, found, countPartlyFailsBeforeFailed, clock, n - 1, n - 1);
      var prev := RunUpTo(r, found, countPartlyFailsBeforeFailed, clock, n - 1);
      var i := found[n - 1];
      var date := clock((n - 1) / BATCH_SIZE);
      var next := Handle(prev, i, countPartlyFailsBeforeFailed, date);
      assert RunUpTo(r, found, countPartlyFailsBeforeFailed, clock, n) == next;
      HandleRepairs(prev, i, countPartlyFailsBeforeFailed, date);
      assert prev.rows[i] == r.rows[i];
      RepairedUpToStep(r.rows, prev.rows, next.rows, found, countPartlyFailsBeforeFailed, clock, n);
    }
  }

  /** Handling a message puts its repaired version in its place, whether or not it is also sent. */
  lemma HandleRepairs(r: Run, i: nat, countPartlyFailsBeforeFailed: int, currDate: int)
    requires i < |r.rows|
    ensures Handle(r, i, countPartlyFailsBeforeFailed, currDate).rows
         == r.rows[i := RepairedMessage(r.rows[i], countPartlyFailsBeforeFailed, currDate)]
  {
    if ExceedsFailures(r.rows[i], countPartlyFailsBeforeFailed) {
      assert r.rows[i := r.rows[i]] == r.rows;
    }
  }

  /** Repairing the `n`-th found message at the time of its batch extends the repaired prefix by one. */
  lemma RepairedUpToStep(rows0: seq<Message>, prev: seq<Message>, next: seq<Message>, found: seq<nat>,
                         countPartlyFailsBeforeFailed: int, clock: nat -> int, n: nat)
    requires StrictlyIncreasing(found) && 0 < n <= |found|
    requires RepairedUpTo(rows0, prev, found, countPartlyFailsBeforeFailed, clock, n - 1)
    requires next == prev[found[n - 1] := RepairedMessage(rows0[found[n - 1]], countPartlyFailsBeforeFailed, clock((n - 1) / BATCH_SIZE))]
    ensures RepairedUpTo(rows0, next, found, countPartlyFailsBeforeFailed, clock, n)
  {
    var i := found[n - 1];
    forall k | 0 <= k < |found| && k != n - 1
      ensures next[found[k]] == prev[found[k]]
    {
      if k < n - 1 {
        assert found[k] < i;
      } else {
        assert i < found[k];
      }
    }
  }

  /** A found message after the first `n` is still as it was. */
  lemma {:induction false} RunUpToUntouched(r: Run, found: seq<nat>, countPartlyFailsBeforeFailed: int,
                                            clock: nat -> int, n: nat, k: nat)
    requires StrictlyIncreasing(found) && InTable(r.rows, found) && n <= k < |found|
    ensures RunUpTo(r, found, countPartlyFailsBeforeFailed, clock, n).rows[found[k]] == r.rows[found[k]]
  {
    if n > 0 {
      RunUpToUntouched(r, found, countPartlyFailsBeforeFailed, clock, n - 1, k);
      assert found[n - 1] < found[k];
    }
  }

  /** After the first `n` found messages, the sends so far are followed by the exhausted ones among them, in order. */
  lemma {:induction false} RunUpToSends(r: Run, found: seq<nat>, countPartlyFailsBeforeFailed: int,
                                        clock: nat -> int, n: nat)
    requires StrictlyIncreasing(found) && InTable(r.rows, found) && n <= |found|
    ensures RunUpTo(r, found, countPartlyFailsBeforeFailed, clock, n).sent
         == r.sent + RedirectsAt(r.rows, found[..n], countPartlyFailsBeforeFailed)
  {
    if n == 0 {
      assert found[..0] == [];
      assert r.sent + [] == r.sent;
    } else {
      RunUpToSends(r, found, countPartlyFailsBeforeFailed, clock, n - 1);
      RunUpToUntouched(r, found, countPartlyFailsBeforeFailed, clock, n - 1, n - 1);
      var prev := RunUpTo(r, found, countPartlyFailsBeforeFailed, clock, n - 1);
      var m := prev.rows[found[n - 1]];
      assert m == r.rows[found[n - 1]];
      var extra := if ExceedsFailures(m, countPartlyFailsBeforeFailed) then [Redirect(BasicRoute.ErrorFatal, m, E116)] else [];
      assert found[..n][..n - 1] == found[..n - 1];
      assert RedirectsAt(r.rows, found[..n], countPartlyFailsBeforeFailed)
          == RedirectsAt(r.rows, found[..n - 1], countPartlyFailsBeforeFailed) + extra;
      assert RunUpTo(r, found, countPartlyFailsBeforeFailed, clock, n).sent == prev.sent + extra;
      assert r.sent + RedirectsAt(r.rows, found[..n - 1], countPartlyFailsBeforeFailed) + extra
          == r.sent + (RedirectsAt(r.rows, found[..n - 1], countPartlyFailsBeforeFailed) + extra);
    }
  }

  /**
   * What a repair run does: every found message is repaired at the time of its batch, the rest of the
   * table is untouched, and the fatal route receives exactly the found messages that failed too often.
   */
  lemma RepairRunEffect(r: Run, now: int, repeatInterval: int, countPartlyFailsBeforeFailed: int, clock: nat -> int)
    ensures var found := FindProcessingMessages(r.rows, now, repeatInterval);
      var r' := RepairRun(r, now, repeatInterval, countPartlyFailsBeforeFailed, clock);
      && RepairedUpTo(r.rows, r'.rows, found, countPartlyFailsBeforeFailed, clock, |found|)
      && r'.sent == r.sent + Redirects(Snapshot(r.rows, found), countPartlyFailsBeforeFailed)
  {
    var found := FindProcessingMessages(r.rows, now, repeatInterval);
    CandidatesAreStuck(r.rows, now, repeatInterval);
    RunUpToRepairs(r, found, countPartlyFailsBeforeFailed, clock, |found|);
    RunUpToSends(r, found, countPartlyFailsBeforeFailed, clock, |found|);
    assert found[..|found|] == found;
    RedirectsAtIsRedirects(r.rows, found, countPartlyFailsBeforeFailed);
  }

  /** The sends listed by position are the sends of the found messages themselves. */
  lemma {:induction false} RedirectsAtIsRedirects(rows: seq<Message>, idx: seq<nat>, countPartlyFailsBeforeFailed: int)
    requires forall k :: 0 <= k < |idx| ==> idx[k] < |rows|
    ensures RedirectsAt(rows, idx, countPartlyFailsBeforeFailed) == Redirects(Snapshot(rows, idx), countPartlyFailsBeforeFailed)
  {
    if idx != [] {
      var init := idx[..|idx| - 1];
      RedirectsAtIsRedirects(rows, init, countPartlyFailsBeforeFailed);
      assert Snapshot(rows, idx)[..|idx| - 1] == Snapshot(rows, init);
    }
  }

  lemma SameBatch(start: nat, k: nat)
    requires start % BATCH_SIZE == 0 && start <= k < start + BATCH_SIZE
    ensures k / BATCH_SIZE == start / BATCH_SIZE
  {
    var q := start / BATCH_SIZE;
    assert start == q * BATCH_SIZE;
    assert q * BATCH_SIZE <= k < q * BATCH_SIZE + BATCH_SIZE;
  }

  /** A message that failed too often keeps its state, failure count and update time; it is the one sent to the fatal route with E116. */
  lemma ExhaustedMessageIsRedirected(m: Message, countPartlyFailsBeforeFailed: int, currDate: int)
    requires m.failedCount >= countPartlyFailsBeforeFailed
    ensures RepairedMessage(m, countPartlyFailsBeforeFailed, currDate) == m
    ensures Redirects([m], countPartlyFailsBeforeFailed) == [Redirect(BasicRoute.ErrorFatal, m, E116)]
  {
  }

  /** Any other message becomes PARTLY_FAILED with one more failure, updated at the batch time, and nothing is sent. */
  lemma OtherMessageIsPartlyFailed(m: Message, countPartlyFailsBeforeFailed: int, currDate: int)
    requires m.failedCount < countPartlyFailsBeforeFailed
    ensures var r := RepairedMessage(m, countPartlyFailsBeforeFailed, currDate);
      r.state == PartlyFailed && r.failedCount == m.failedCount + 1 && r.lastUpdateTimestamp == currDate
      && r.id == m.id && r.funnelValues == m.funnelValues && r.msgTimestamp == m.msgTimestamp
    ensures Redirects([m], countPartlyFailsBeforeFailed) == []
  {
  }

  /** Two repaired messages of the same batch get the same timestamp, the time of their batch. */
  lemma SameBatchSameTimestamp(r: Run, now: int, repeatInterval: int, countPartlyFailsBeforeFailed: int, clock: nat -> int,
                               k1: nat, k2: nat)
    requires var found := FindProcessingMessages(r.rows, now, repeatInterval);
      && k1 < |found| && k2 < |found| && k1 / BATCH_SIZE == k2 / BATCH_SIZE
      && !ExceedsFailures(r.rows[found[k1]], countPartlyFailsBeforeFailed)
      && !ExceedsFailures(r.rows[found[k2]], countPartlyFailsBeforeFailed)
    ensures var found := FindProcessingMessages(r.rows, now, repeatInterval);
      var after := RepairRun(r, now, repeatInterval, countPartlyFailsBeforeFailed, clock).rows;
      after[found[k1]].lastUpdateTimestamp == after[found[k2]].lastUpdateTimestamp == clock(k1 / BATCH_SIZE)
  {
    RepairRunEffect(r, now, repeatInterval, countPartlyFailsBeforeFailed, clock);
  }

  /** The fatal sends are exactly the found messages that failed too often, in order. */
  lemma {:induction false} RedirectsAreExhausted(msgs: seq<Message>, countPartlyFailsBeforeFailed: int)
    ensures forall r :: r in Redirects(msgs, countPartlyFailsBeforeFailed) <==>
      r.msg in msgs && ExceedsFailures(r.msg, countPartlyFailsBeforeFailed) && r == Redirect(BasicRoute.ErrorFatal, r.msg, E116)
  {
    if msgs != [] {
      var init := msgs[..|msgs| - 1];
      RedirectsAreExhausted(init, countPartlyFailsBeforeFailed);
      assert msgs == init + [msgs[|msgs| - 1]];
    }
  }

  /** The positions found from `from` on are increasing, and they are exactly the stuck ones. */
  lemma {:induction false} StuckFromIsExact(rows: seq<Message>, now: int, repeatInterval: int, from: nat)
    requires from <= |rows|
    ensures StrictlyIncreasing(StuckFrom(rows, now, repeatInterval, from))
    ensures forall i :: from <= i < |rows| ==>
      (i in StuckFrom(rows, now, repeatInterval, from) <==> IsStuck(rows[i], now, repeatInterval))
    decreases |rows| - from
  {
    if from < |rows| {
      StuckFromIsExact(rows, now, repeatInterval, from + 1);
    }
  }

  /** The candidates are exactly the stuck messages, each once, in table order. */
  lemma CandidatesAreStuck(rows: seq<Message>, now: int, repeatInterval: int)
    ensures var found := FindProcessingMessages(rows, now, repeatInterval);
      StrictlyIncreasing(found)
      && forall i :: 0 <= i < |rows| ==> (i in found <==> rows[i].state == Processing && rows[i].lastUpdateTimestamp < now - repeatInterval * 1000)
  {
    StuckFromIsExact(rows, now, repeatInterval, 0);
  }
}
