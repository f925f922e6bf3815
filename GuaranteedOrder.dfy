/**
 * The guaranteed-order admission rule of the asynchronous inbound route: a
 * message that asks for guaranteed order is postponed while another
 * PROCESSING message with a common funnel value and an earlier message
 * timestamp exists; everything else proceeds. Either way the message is
 * passed on to the rest of the route exactly once.
 */
module GuaranteedOrder {

  import opened Messages
  import opened FunnelQueries

  /** The priority the route gives a message it admits without ordering; its value is assumed. */
  const NEW_MSG_PRIORITY: int := 0

  datatype Decision = Proceed | Postpone

  /** What the route ends with: its decision and the one message it passes on. */
  datatype Admission = Admission(decision: Decision, passedOn: Message)

  /** `other` is a different message, still PROCESSING, with a funnel value in common and an earlier timestamp. */
  predicate IsEarlierCompetitor(m: Message, other: Message)
  {
    other.id != m.id && other.state == Processing
    && SharesFunnelValue(other, m.funnelValues)
    && other.msgTimestamp < m.msgTimestamp
  }

  predicate HasEarlierCompetitor(m: Message, rows: seq<Message>)
  {
    exists k :: 0 <= k < |rows| && IsEarlierCompetitor(m, rows[k])
  }

  /** The route's handling of message `m` given the message table `rows`. */
  function Admit(m: Message, rows: seq<Message>): (a: Admission)
    ensures a.passedOn.id == m.id
    ensures a.decision == Postpone ==> a.passedOn.state == Postponed
    ensures a.decision == Proceed ==> a.passedOn.state == m.state
  {
    if !m.guaranteedOrder then Admission(Proceed, m.(processingPriority := NEW_MSG_PRIORITY))
    else if HasEarlierCompetitor(m, rows) then Admission(Postpone, m.(state := Postponed))
    else Admission(Proceed, m)
  }

  // ---- the four asserted cases ----

  /** Without guaranteed order the message is never postponed, keeps its state and gets NEW_MSG_PRIORITY. */
  lemma NoGuaranteedOrderNeverPostponed(m: Message, rows: seq<Message>)
    requires !m.guaranteedOrder
    ensures Admit(m, rows).decision == Proceed
    ensures Admit(m, rows).passedOn.state == m.state
    ensures Admit(m, rows).passedOn.processingPriority == NEW_MSG_PRIORITY
  {
  }

  /** A message never competes with itself: alone in the table it proceeds unchanged. */
  lemma OnlyMessageProceeds(m: Message)
    ensures Admit(m, [m]).decision == Proceed
    ensures m.guaranteedOrder ==> Admit(m, [m]).passedOn == m
  {
    assert !IsEarlierCompetitor(m, [m][0]);
  }

  /** A message earlier than every competing PROCESSING message proceeds unchanged. */
  lemma EarliestProceeds(m: Message, rows: seq<Message>)
    requires m.guaranteedOrder
    requires forall k :: 0 <= k < |rows| && rows[k].id != m.id && rows[k].state == Processing
               && SharesFunnelValue(rows[k], m.funnelValues)
               ==> m.msgTimestamp <= rows[k].msgTimestamp
    ensures Admit(m, rows) == Admission(Proceed, m)
  {
  }

  /** A guaranteed-order message with an earlier PROCESSING competitor ends POSTPONED and is still passed on. */
  lemma LaterIsPostponed(m: Message, rows: seq<Message>, k: nat)
    requires m.guaranteedOrder && k < |rows| && IsEarlierCompetitor(m, rows[k])
    ensures Admit(m, rows) == Admission(Postpone, m.(state := Postponed))
  {
  }

  /** The decision in full: postponed exactly when ordering is asked for and an earlier competitor exists. */
  lemma PostponedIff(m: Message, rows: seq<Message>)
    ensures Admit(m, rows).decision == Postpone <==> m.guaranteedOrder && HasEarlierCompetitor(m, rows)
  {
  }

  /**
   * The route writes a postponement with `MessageStore.SetStatePostponed` on the
   * message's row: the stored table then holds exactly the message passed on, so a
   * later read of that row sees POSTPONED. A message that proceeds is not written.
   */
  lemma PostponementIsStored(m: Message, rows: seq<Message>, i: nat)
    requires i < |rows| && rows[i] == m
    ensures Admit(m, rows).decision == Postpone ==>
      WithState(rows, i, Postponed) == rows[i := Admit(m, rows).passedOn]
      && WithState(rows, i, Postponed)[i].state == Postponed
    ensures Admit(m, rows).decision == Proceed && m.guaranteedOrder ==> rows[i] == Admit(m, rows).passedOn
  {
  }

  /** A message without funnel values has no competitor and always proceeds. */
  lemma NoFunnelValuesProceeds(m: Message, rows: seq<Message>)
    requires m.funnelValues == {}
    ensures Admit(m, rows).decision == Proceed
  {
    forall k | 0 <= k < |rows| ensures !IsEarlierCompetitor(m, rows[k]) {
      assert rows[k].funnelValues * {} == {};
    }
  }

  /** A postponed message is not first in line: the route query's oldest entry is older than it. */
  lemma PostponedIsNotFirstInLine(m: Message, rows: seq<Message>)
    requires Admit(m, rows).decision == Postpone
    ensures |ForRoute(rows, m.funnelValues, true)| > 0
    ensures ForRoute(rows, m.funnelValues, true)[0].msgTimestamp < m.msgTimestamp
  {
    var k :| 0 <= k < |rows| && IsEarlierCompetitor(m, rows[k]);
    var c := rows[k];
    assert c in rows;
    assert SharesFunnelValue(c, m.funnelValues) by {
      assert c.funnelValues * m.funnelValues == m.funnelValues * c.funnelValues;
    }
    ForRouteMembership(rows, m.funnelValues, true, c);
    var q := ForRoute(rows, m.funnelValues, true);
    var j :| 0 <= j < |q| && q[j] == c;
    assert q[0].msgTimestamp <= q[j].msgTimestamp;
  }

  // ---- the concrete scenario ----

  function Pending(id: MsgId, msgTimestamp: int, funnelValue: string, guaranteedOrder: bool): Message
  {
    Message(id, "", Wrappers.None, Processing, 0, 0, guaranteedOrder, Wrappers.None, {funnelValue},
            msgTimestamp, msgTimestamp, msgTimestamp, Wrappers.None)
  }

  /** A (key "K", time t) is PROCESSING; B with t + 100 s is postponed, C with t - 100 s proceeds. */
  lemma ScenarioLaterPostponedEarlierAdmitted(t: int)
    ensures var a := Pending(1, t, "K", true);
            var b := Pending(2, t + 100000, "K", true);
            var c := Pending(3, t - 100000, "K", true);
            Admit(b, [a, b]).passedOn.state == Postponed
            && Admit(c, [a, c]).passedOn.state == Processing
  {
    var a := Pending(1, t, "K", true);
    var b := Pending(2, t + 100000, "K", true);
    var c := Pending(3, t - 100000, "K", true);
    assert "K" in a.funnelValues * b.funnelValues;
    assert IsEarlierCompetitor(b, [a, b][0]);
  }
}
