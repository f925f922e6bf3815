/**
 * The message queries behind funnels and guaranteed order: which messages
 * share a funnel value with a given set, which of them still count as
 * in progress, and in what order (oldest message timestamp first).
 */
module FunnelQueries {

  import opened Wrappers
  import opened Messages

  /** The message carries one of the given funnel values. */
  predicate SharesFunnelValue(m: Message, funnelValues: set<string>)
  {
    m.funnelValues * funnelValues != {}
  }

  /** The states that keep a message "in the order": PROCESSING, WAITING, WAITING_FOR_RES, PARTLY_FAILED, and FAILED unless excluded. */
  predicate InGuaranteedOrder(s: MsgState, excludeFailed: bool)
  {
    s == Processing || s == Waiting || s == WaitingForRes || s == PartlyFailed || (s == Failed && !excludeFailed)
  }

  /** The earliest start of processing that still counts as live: `now` minus the idle interval (seconds). */
  function IdleLimit(now: int, idleInterval: nat): int
  {
    now - idleInterval * 1000
  }

  /** A PROCESSING message that started before the idle limit is taken as stuck and does not count. */
  predicate LiveProcessing(m: Message, now: int, idleInterval: nat)
  {
    m.state == Processing && m.startProcessTimestamp >= IdleLimit(now, idleInterval)
  }

  function Filter(rows: seq<Message>, p: Message -> bool): (r: seq<Message>)
    ensures |r| <= |rows|
    ensures forall m :: m in r <==> m in rows && p(m)
  {
    if rows == [] then []
    else if p(rows[0]) then [rows[0]] + Filter(rows[1..], p)
    else Filter(rows[1..], p)
  }

  predicate SortedByTimestamp(s: seq<Message>)
  {
    forall i, j :: 0 <= i < j < |s| ==> s[i].msgTimestamp <= s[j].msgTimestamp
  }

  /** Inserts `m` before the first strictly later message. */
  function InsertByTimestamp(m: Message, s: seq<Message>): (r: seq<Message>)
    ensures multiset(r) == multiset(s) + multiset{m}
    ensures |r| == |s| + 1
    ensures r[0] == if s != [] && s[0].msgTimestamp < m.msgTimestamp then s[0] else m
  {
    if s == [] then [m]
    else if m.msgTimestamp <= s[0].msgTimestamp then [m] + s
    else
      assert s == [s[0]] + s[1..];
      [s[0]] + InsertByTimestamp(m, s[1..])
  }

  /** Insertion keeps a sorted sequence sorted. */
  lemma {:induction false} InsertKeepsSorted(m: Message, s: seq<Message>)
    requires SortedByTimestamp(s)
    ensures SortedByTimestamp(InsertByTimestamp(m, s))
  {
    if s != [] && s[0].msgTimestamp < m.msgTimestamp {
      InsertKeepsSorted(m, s[1..]);
      ConsSorted(s[0], InsertByTimestamp(m, s[1..]));
    } else {
      ConsSorted(m, s);
    }
  }

  lemma ConsSorted(x: Message, s: seq<Message>)
    requires SortedByTimestamp(s) && (s != [] ==> x.msgTimestamp <= s[0].msgTimestamp)
    ensures SortedByTimestamp([x] + s)
  {
    var r := [x] + s;
    forall i, j | 0 <= i < j < |r| ensures r[i].msgTimestamp <= r[j].msgTimestamp {
      if i == 0 && j > 1 {
        assert r[1] == s[0] && r[j] == s[j - 1];
      }
    }
  }

  /** `ORDER BY msgTimestamp`, ties in table order. */
  function SortByTimestamp(s: seq<Message>): (r: seq<Message>)
    ensures SortedByTimestamp(r)
    ensures multiset(r) == multiset(s)
  {
    if s == [] then []
    else
      assert s == [s[0]] + s[1..];
      InsertKeepsSorted(s[0], SortByTimestamp(s[1..]));
      InsertByTimestamp(s[0], SortByTimestamp(s[1..]))
  }

  /** `getMessagesForGuaranteedOrderForRoute`. */
  function ForRoute(rows: seq<Message>, funnelValues: set<string>, excludeFailed: bool): seq<Message>
  {
    SortByTimestamp(Filter(rows, m => SharesFunnelValue(m, funnelValues) && InGuaranteedOrder(m.state, excludeFailed)))
  }

  /** `getMessagesForGuaranteedOrderForFunnel`: also the funnel component and, for PROCESSING messages, the idle window. */
  function ForFunnel(rows: seq<Message>, funnelValues: set<string>, idleInterval: nat, excludeFailed: bool,
                     funnelCompId: string, now: int): seq<Message>
  {
    SortByTimestamp(Filter(rows, m =>
      SharesFunnelValue(m, funnelValues) && InGuaranteedOrder(m.state, excludeFailed)
      && m.funnelComponentId == Some(funnelCompId)
      && (m.state == Processing ==> LiveProcessing(m, now, idleInterval))))
  }

  /** `getCountProcessingMessagesForFunnel`. */
  function CountProcessingForFunnel(rows: seq<Message>, funnelValues: set<string>, idleInterval: nat,
                                    funnelCompId: string, now: int): nat
  {
    |Filter(rows, m =>
      SharesFunnelValue(m, funnelValues) && LiveProcessing(m, now, idleInterval)
      && m.funnelComponentId == Some(funnelCompId))|
  }

  // ---- properties ----

  lemma MultisetMembership(r: seq<Message>, s: seq<Message>, m: Message)
    requires multiset(r) == multiset(s)
    ensures m in r <==> m in s
  {
    assert m in r <==> m in multiset(r);
    assert m in s <==> m in multiset(s);
  }

  /** A message is in the route query's result exactly when it is in the table, shares a funnel value and is in an included state. */
  lemma ForRouteMembership(rows: seq<Message>, funnelValues: set<string>, excludeFailed: bool, m: Message)
    ensures m in ForRoute(rows, funnelValues, excludeFailed) <==>
      m in rows && SharesFunnelValue(m, funnelValues) && InGuaranteedOrder(m.state, excludeFailed)
  {
    var f := Filter(rows, m => SharesFunnelValue(m, funnelValues) && InGuaranteedOrder(m.state, excludeFailed));
    MultisetMembership(SortByTimestamp(f), f, m);
  }

  /** The route query returns exactly the matching messages (with multiplicity), oldest first. */
  lemma ForRouteIsSortedPermutation(rows: seq<Message>, funnelValues: set<string>, excludeFailed: bool)
    ensures SortedByTimestamp(ForRoute(rows, funnelValues, excludeFailed))
    ensures multiset(ForRoute(rows, funnelValues, excludeFailed))
      == multiset(Filter(rows, m => SharesFunnelValue(m, funnelValues) && InGuaranteedOrder(m.state, excludeFailed)))
  {
  }

  /** With `excludeFailed` no FAILED message is returned; without it FAILED ones are. */
  lemma ExcludeFailedIff(rows: seq<Message>, funnelValues: set<string>, m: Message)
    requires m in rows && SharesFunnelValue(m, funnelValues) && m.state == Failed
    ensures m !in ForRoute(rows, funnelValues, true)
    ensures m in ForRoute(rows, funnelValues, false)
  {
    ForRouteMembership(rows, funnelValues, true, m);
    ForRouteMembership(rows, funnelValues, false, m);
  }

  /** A message is in the funnel query's result exactly when it satisfies every filter of the query. */
  lemma ForFunnelMembership(rows: seq<Message>, funnelValues: set<string>, idleInterval: nat, excludeFailed: bool,
                            funnelCompId: string, now: int, m: Message)
    ensures m in ForFunnel(rows, funnelValues, idleInterval, excludeFailed, funnelCompId, now) <==>
      m in rows && SharesFunnelValue(m, funnelValues) && InGuaranteedOrder(m.state, excludeFailed)
      && m.funnelComponentId == Some(funnelCompId)
      && (m.state == Processing ==> m.startProcessTimestamp >= now - idleInterval * 1000)
  {
    var f := Filter(rows, m =>
      SharesFunnelValue(m, funnelValues) && InGuaranteedOrder(m.state, excludeFailed)
      && m.funnelComponentId == Some(funnelCompId)
      && (m.state == Processing ==> LiveProcessing(m, now, idleInterval)));
    MultisetMembership(SortByTimestamp(f), f, m);
  }

  /** The count is positive exactly when some live PROCESSING message of the funnel shares a value. */
  lemma CountPositiveIff(rows: seq<Message>, funnelValues: set<string>, idleInterval: nat, funnelCompId: string, now: int)
    ensures CountProcessingForFunnel(rows, funnelValues, idleInterval, funnelCompId, now) > 0 <==>
      exists k :: 0 <= k < |rows| && SharesFunnelValue(rows[k], funnelValues)
        && LiveProcessing(rows[k], now, idleInterval) && rows[k].funnelComponentId == Some(funnelCompId)
  {
    var f := Filter(rows, m =>
      SharesFunnelValue(m, funnelValues) && LiveProcessing(m, now, idleInterval)
      && m.funnelComponentId == Some(funnelCompId));
    if |f| > 0 {
      assert f[0] in f;
    } else {
      forall k | 0 <= k < |rows|
        ensures !(SharesFunnelValue(rows[k], funnelValues) && LiveProcessing(rows[k], now, idleInterval)
                  && rows[k].funnelComponentId == Some(funnelCompId))
      {
        assert rows[k] in rows;
      }
    }
  }

  /** Nothing passes the filter when no message satisfies it. */
  lemma {:induction false} FilterNothing(rows: seq<Message>, p: Message -> bool)
    requires forall k :: 0 <= k < |rows| ==> !p(rows[k])
    ensures Filter(rows, p) == []
  {
    if rows != [] {
      FilterNothing(rows[1..], p);
    }
  }

  /** No funnel value, no match: all three queries come back empty. */
  lemma EmptyFunnelValuesMatchNothing(rows: seq<Message>, idleInterval: nat, excludeFailed: bool, funnelCompId: string, now: int)
    ensures ForRoute(rows, {}, excludeFailed) == []
    ensures ForFunnel(rows, {}, idleInterval, excludeFailed, funnelCompId, now) == []
    ensures CountProcessingForFunnel(rows, {}, idleInterval, funnelCompId, now) == 0
  {
    FilterNothing(rows, m => SharesFunnelValue(m, {}) && InGuaranteedOrder(m.state, excludeFailed));
    FilterNothing(rows, m =>
      SharesFunnelValue(m, {}) && InGuaranteedOrder(m.state, excludeFailed)
      && m.funnelComponentId == Some(funnelCompId)
      && (m.state == Processing ==> LiveProcessing(m, now, idleInterval)));
    FilterNothing(rows, m =>
      SharesFunnelValue(m, {}) && LiveProcessing(m, now, idleInterval)
      && m.funnelComponentId == Some(funnelCompId));
  }
}
