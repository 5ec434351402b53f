/**
 * The background timeout sweep (backend/app/services/timeout_service.py).
 * A sweep reads a snapshot of /help_requests, collects the pending records
 * whose deadline has passed, and then writes each collected snapshot back with
 * status timeout, broadcasting one `request_timeout` event per record.
 * The clock reading, the order in which the snapshot enumerates its children,
 * and the clock readings stamped on the events are parameters.
 */
module Timeouts {
  import opened Wrappers
  import opened Models
  import opened Store
  import opened FirebaseService
  import opened Notifications

  /** Seconds to wait after a sweep, and after a sweep that raised. */
  const SweepInterval: nat := 300
  const ErrorRetryDelay: nat := 60

  /** The wait `_check_timeouts_loop` takes before its next sweep. */
  function NextDelay(raised: bool): (d: nat)
    ensures d > 0
    ensures raised <==> d == ErrorRetryDelay
    ensures !raised <==> d == SweepInterval
  {
    if raised then ErrorRetryDelay else SweepInterval
  }

  // ================================================================ the sweep as values

  /** The scan's test on one child of the snapshot: a dict, not under the setup key, with status
      pending and a `timeout_at` that parses to a time at or before `now`. */
  predicate Expires(key: string, v: Value<HelpRecord>, now: Timestamp) {
    && key != InitializedKey
    && v.Record?
    && v.rec.status == Pending.Value()
    && v.rec.timeoutAt.At?
    && v.rec.timeoutAt.t <= now
  }

  /** The `(request_id, request_data)` pairs the scan collects, in enumeration order. */
  function ScanExpired(items: map<string, Value<HelpRecord>>, order: seq<string>, now: Timestamp)
    : (r: seq<(string, HelpRecord)>)
    ensures |r| <= |order|
    ensures forall p :: p in r ==> p.0 in order && p.0 in items && Expires(p.0, items[p.0], now)
                                   && items[p.0] == Record(p.1)
  {
    if order == [] then []
    else
      var n := |order| - 1;
      var k := order[n];
      ScanExpired(items, order[..n], now)
      + (if k in items && Expires(k, items[k], now) then [(k, items[k].rec)] else [])
  }

  /** The keys of the collected pairs, in order. */
  function Keys(expired: seq<(string, HelpRecord)>): (ks: seq<string>)
    ensures |ks| == |expired| && forall i :: 0 <= i < |expired| ==> ks[i] == expired[i].0
  {
    seq(|expired|, i requires 0 <= i < |expired| => expired[i].0)
  }

  /** The write-back loop: each collected snapshot is stored again with only its status changed. */
  function WriteBack(items: map<string, Value<HelpRecord>>, expired: seq<(string, HelpRecord)>)
    : map<string, Value<HelpRecord>>
  {
    if expired == [] then items
    else
      var n := |expired| - 1;
      WriteBack(items, expired[..n])[expired[n].0 := Record(TimedOutRecord(expired[n].1))]
  }

  /** The children after one sweep over a snapshot enumerated in `order`. */
  function Sweep(items: map<string, Value<HelpRecord>>, order: seq<string>, now: Timestamp)
    : map<string, Value<HelpRecord>>
  {
    WriteBack(items, ScanExpired(items, order, now))
  }

  /** The events the sweep broadcasts, one per collected record in scan order; the k-th is
      stamped with the clock reading `clock(k)`. */
  function TimeoutMessages(expired: seq<(string, HelpRecord)>, clock: nat -> Timestamp): seq<Envelope> {
    if expired == [] then []
    else
      var n := |expired| - 1;
      TimeoutMessages(expired[..n], clock) + [RequestTimeoutMessage(TimedOutRecord(expired[n].1), clock(n))]
  }

  // ================================================================ what a sweep does

  /** Sweep, child by child: the keys stay the same; a child that expires (and that the
      enumeration lists) becomes its snapshot with status timeout; every other child (resolved
      and timed-out records, pending ones with a later or unparsable deadline, the setup marker,
      non-dict values) is left as it was. */
  lemma {:induction false} SweepAt(items: map<string, Value<HelpRecord>>, order: seq<string>,
                                   now: Timestamp, k: string)
    ensures k in Sweep(items, order, now) <==> k in items
    ensures k in items ==>
              Sweep(items, order, now)[k]
              == if k in order && Expires(k, items[k], now) then Record(TimedOutRecord(items[k].rec)) else items[k]
  {
    if order != [] {
      var n := |order| - 1;
      var o, x := order[..n], order[n];
      SweepAt(items, o, now, k);
      assert order == o + [x];
      var S := ScanExpired(items, o, now);
      if x in items && Expires(x, items[x], now) {
        assert ScanExpired(items, order, now) == S + [(x, items[x].rec)];
        assert (S + [(x, items[x].rec)])[..|S|] == S;
      } else {
        assert ScanExpired(items, order, now) == S;
      }
    }
  }

  /** When no enumerated child expires, the scan collects nothing. */
  lemma {:induction false} ScanNothing(items: map<string, Value<HelpRecord>>, order: seq<string>, now: Timestamp)
    requires forall k :: k in order && k in items ==> !Expires(k, items[k], now)
    ensures ScanExpired(items, order, now) == []
  {
    if order != [] {
      var n := |order| - 1;
      assert forall k :: k in order[..n] ==> k in order;
      ScanNothing(items, order[..n], now);
    }
  }

  /** A second sweep at the same clock reading finds nothing more to time out, so it changes
      nothing. */
  lemma SweepIdempotent(items: map<string, Value<HelpRecord>>, order: seq<string>, now: Timestamp)
    ensures ScanExpired(Sweep(items, order, now), order, now) == []
    ensures Sweep(Sweep(items, order, now), order, now) == Sweep(items, order, now)
  {
    var after := Sweep(items, order, now);
    StatusValuesDistinct();
    forall k | k in order && k in after
      ensures !Expires(k, after[k], now)
    {
      SweepAt(items, order, now, k);
    }
    ScanNothing(after, order, now);
  }

  /** The keys the scan collects are the expiring children the enumeration lists. */
  lemma {:induction false} ScanKeySet(items: map<string, Value<HelpRecord>>, order: seq<string>, now: Timestamp)
    ensures (set k | k in Keys(ScanExpired(items, order, now)))
            == set k | k in order && k in items && Expires(k, items[k], now)
  {
    if order != [] {
      var n := |order| - 1;
      var p, k := order[..n], order[n];
      ScanKeySet(items, p, now);
      var S := ScanExpired(items, p, now);
      assert order == p + [k];
      ExpiringSnoc(items, p, k, now);
      if k in items && Expires(k, items[k], now) {
        assert ScanExpired(items, order, now) == S + [(k, items[k].rec)];
        KeysSnoc(S, (k, items[k].rec));
        KeySetSnoc(Keys(S), k);
      } else {
        assert ScanExpired(items, order, now) == S;
      }
    }
  }

  lemma KeysSnoc(s: seq<(string, HelpRecord)>, x: (string, HelpRecord))
    ensures Keys(s + [x]) == Keys(s) + [x.0]
  {
  }

  lemma KeySetSnoc(ks: seq<string>, k: string)
    ensures (set j | j in ks + [k]) == (set j | j in ks) + {k}
  {
    assert forall j :: j in ks + [k] <==> j in ks || j == k;
  }

  lemma ExpiringSnoc(items: map<string, Value<HelpRecord>>, p: seq<string>, k: string, now: Timestamp)
    ensures (set j | j in p + [k] && j in items && Expires(j, items[j], now))
            == (set j | j in p && j in items && Expires(j, items[j], now))
               + (if k in items && Expires(k, items[k], now) then {k} else {})
  {
    assert forall j :: j in p + [k] <==> j in p || j == k;
  }

  /** Every expiring child the enumeration lists is collected. */
  lemma {:induction false} ScanCollects(items: map<string, Value<HelpRecord>>, order: seq<string>, now: Timestamp, k: string)
    requires k in order && k in items && Expires(k, items[k], now)
    ensures k in Keys(ScanExpired(items, order, now))
  {
    var n := |order| - 1;
    var S := ScanExpired(items, order[..n], now);
    if order[n] == k {
      assert ScanExpired(items, order, now) == S + [(k, items[k].rec)];
      assert Keys(ScanExpired(items, order, now))[|S|] == k;
    } else {
      assert k in order[..n] by {
        var i :| 0 <= i < |order| && order[i] == k;
        assert i < n && order[..n][i] == k;
      }
      ScanCollects(items, order[..n], now, k);
      var i :| 0 <= i < |Keys(S)| && Keys(S)[i] == k;
      assert ScanExpired(items, order, now)[..|S|] == S;
      assert Keys(ScanExpired(items, order, now))[i] == k;
    }
  }

  /** An enumeration without repeats makes the scan collect each key at most once. */
  lemma {:induction false} ScanKeysDistinct(items: map<string, Value<HelpRecord>>, order: seq<string>, now: Timestamp)
    requires Distinct(order)
    ensures Distinct(Keys(ScanExpired(items, order, now)))
  {
    if order != [] {
      var n := |order| - 1;
      assert Distinct(order[..n]);
      ScanKeysDistinct(items, order[..n], now);
      var S := ScanExpired(items, order[..n], now);
      if order[n] in items && Expires(order[n], items[order[n]], now) {
        assert order[n] !in order[..n];
        assert forall i :: 0 <= i < |S| ==> S[i] in S && Keys(S)[i] in order[..n];
        assert ScanExpired(items, order, now) == S + [(order[n], items[order[n]].rec)];
        KeysSnoc(S, (order[n], items[order[n]].rec));
      }
    }
  }

  /** The children that expire at `now`. */
  function ExpiredKeys(items: map<string, Value<HelpRecord>>, now: Timestamp): set<string> {
    set k | k in items && Expires(k, items[k], now)
  }

  /** Over a real enumeration of the node, the scan collects every expiring child exactly once,
      so the sweep broadcasts exactly one event per timed-out record. */
  lemma OneEventPerExpiredRecord(n: Node<HelpRecord>, order: seq<string>, now: Timestamp)
    requires ListsChildren(order, n)
    ensures Distinct(Keys(ScanExpired(Items(n), order, now)))
    ensures |ScanExpired(Items(n), order, now)| == |ExpiredKeys(Items(n), now)|
  {
    var ks := Keys(ScanExpired(Items(n), order, now));
    ScanKeySet(Items(n), order, now);
    ScanKeysDistinct(Items(n), order, now);
    DistinctElements(ks);
    assert (set k | k in ks) == ExpiredKeys(Items(n), now);
  }

  /** Appending one event to a log extended by a run of events. */
  lemma AppendOne(log: seq<Envelope>, events: seq<Envelope>, m: Envelope)
    ensures log + (events + [m]) == (log + events) + [m]
  {
  }

  /** The write-back and its events, one collected pair further. */
  lemma WriteBackStep(items: map<string, Value<HelpRecord>>, expired: seq<(string, HelpRecord)>, j: nat,
                      clock: nat -> Timestamp)
    requires j < |expired|
    ensures WriteBack(items, expired[..j + 1])
            == WriteBack(items, expired[..j])[expired[j].0 := Record(TimedOutRecord(expired[j].1))]
    ensures TimeoutMessages(expired[..j + 1], clock)
            == TimeoutMessages(expired[..j], clock) + [RequestTimeoutMessage(TimedOutRecord(expired[j].1), clock(j))]
  {
    assert expired[..j + 1][..j] == expired[..j];
  }

  /** Each event carries the collected record's id, and the events come in scan order. */
  lemma {:induction false} TimeoutMessagesInScanOrder(expired: seq<(string, HelpRecord)>, clock: nat -> Timestamp)
    ensures |TimeoutMessages(expired, clock)| == |expired|
    ensures forall i :: 0 <= i < |expired| ==>
              var m := TimeoutMessages(expired, clock)[i];
              m.kind == "request_timeout" && Field(m, "request_id") == Some(Str(expired[i].1.id))
              && m.timestamp == clock(i)
  {
    if expired != [] {
      var n := |expired| - 1;
      TimeoutMessagesInScanOrder(expired[..n], clock);
      var prev := TimeoutMessages(expired[..n], clock);
      var last := RequestTimeoutMessage(TimedOutRecord(expired[n].1), clock(n));
      assert TimeoutMessages(expired, clock) == prev + [last];
      assert TimedOutRecord(expired[n].1).id == expired[n].1.id;
      forall i | 0 <= i < n
        ensures TimeoutMessages(expired, clock)[i] == prev[i] && expired[..n][i] == expired[i]
      {
      }
    }
  }

  /** A record created at clock readings `t0` and `t1` is timed out by a sweep at `now`
      exactly when two hours have passed since `t1`. */
  lemma CreatedRequestExpires(id: string, question: string, callerInfo: Option<string>, sessionId: string,
                              t0: Timestamp, t1: Timestamp, now: Timestamp)
    requires id != InitializedKey
    ensures Expires(id, Record(CreatedRecord(id, question, callerInfo, sessionId, t0, t1)), now)
            <==> now >= t1 + HelpRequestTimeout
  {
  }

  /** When two collected pairs name the same key, the later one wins; the value written for a
      collected key does not depend on what the store held before. */
  lemma {:induction false} WriteBackOverwrites(m1: map<string, Value<HelpRecord>>, m2: map<string, Value<HelpRecord>>,
                                               expired: seq<(string, HelpRecord)>, k: string)
    requires k in Keys(expired)
    ensures k in WriteBack(m1, expired) && k in WriteBack(m2, expired)
    ensures WriteBack(m1, expired)[k] == WriteBack(m2, expired)[k]
  {
    var n := |expired| - 1;
    if expired[n].0 != k {
      assert k in Keys(expired[..n]) by {
        var i :| 0 <= i < |expired| && Keys(expired)[i] == k;
        assert i < n && Keys(expired[..n])[i] == k;
      }
      WriteBackOverwrites(m1, m2, expired[..n], k);
    }
  }

  /** The write-back stores the scan-time snapshot, so a supervisor answer that lands between
      the scan and the write-back of an expired record is overwritten: the record ends up as
      its pending snapshot with status timeout, without the answer. */
  lemma AnswerDuringSweepIsLost(items: map<string, Value<HelpRecord>>, order: seq<string>, now: Timestamp,
                                id: string, answer: string, supervisor: string, t: Timestamp)
    requires id in items && id in order && Expires(id, items[id], now)
    ensures var expired := ScanExpired(items, order, now);
            var answered := items[id := Record(ResolvedRecord(items[id].rec, answer, supervisor, t))];
            && id in WriteBack(answered, expired)
            && WriteBack(answered, expired)[id] == Record(TimedOutRecord(items[id].rec))
            && TimedOutRecord(items[id].rec).answer == items[id].rec.answer
  {
    var expired := ScanExpired(items, order, now);
    var answered := items[id := Record(ResolvedRecord(items[id].rec, answer, supervisor, t))];
    ScanCollects(items, order, now, id);
    WriteBackOverwrites(answered, items, expired, id);
    SweepAt(items, order, now, id);
  }

  /** The first loop of `_process_timeouts`: walk the snapshot in enumeration order and
      collect the children that expire. */
  method CollectExpired(items: map<string, Value<HelpRecord>>, order: seq<string>, now: Timestamp)
    returns (timedOut: seq<(string, HelpRecord)>)
    ensures timedOut == ScanExpired(items, order, now)
  {
    timedOut := [];
    var i := 0;
    while i < |order|
      invariant 0 <= i <= |order|
      invariant timedOut == ScanExpired(items, order[..i], now)
    {
      var requestId := order[i];
      assert order[..i + 1] == order[..i] + [requestId];
      var requestData := if requestId in items then Some(items[requestId]) else None;
      if requestData.Some? && Expires(requestId, requestData.value, now) {
        timedOut := timedOut + [(requestId, requestData.value.rec)];
      }
      i := i + 1;
    }
    assert order[..i] == order;
  }

  // ================================================================ the service object

  /** `TimeoutService`: the notifier it reports to and whether its loop should keep going. */
  class TimeoutService {
    const notifier: NotificationService
    var running: bool

    constructor (notifier: NotificationService)
      ensures this.notifier == notifier && !running
    {
      this.notifier := notifier;
      running := false;
    }

    /** `start`: the loop may run (launching the background task is not modelled). */
    method Start()
      modifies this
      ensures running
    {
      running := true;
    }

    /** `stop`: the loop ends before its next sweep. */
    method Stop()
      modifies this
      ensures !running
    {
      running := false;
    }

    /** `_process_timeouts` over the snapshot it reads at the start, enumerated in `order`.
        A node that is empty or not a dict is left alone. */
    method ProcessTimeouts(db: Database, order: seq<string>, now: Timestamp, clock: nat -> Timestamp)
      requires ListsChildren(order, db.helpRequests)
      modifies db, notifier.manager
      ensures Items(db.helpRequests) == Sweep(Items(old(db.helpRequests)), order, now)
      ensures ScanExpired(Items(old(db.helpRequests)), order, now) == [] ==> db.helpRequests == old(db.helpRequests)
      ensures db.knowledgeBase == old(db.knowledgeBase)
      ensures notifier.manager.broadcasts
              == old(notifier.manager.broadcasts)
                 + TimeoutMessages(ScanExpired(Items(old(db.helpRequests)), order, now), clock)
      ensures multiset(notifier.manager.activeConnections) <= multiset(old(notifier.manager.activeConnections))
      ensures SentSince(old(notifier.manager.sends), notifier.manager.sends, old(notifier.manager.activeConnections),
                        TimeoutMessages(ScanExpired(Items(old(db.helpRequests)), order, now), clock))
      ensures old(notifier.manager.activeConnections) == []
              ==> notifier.manager.activeConnections == [] && notifier.manager.sends == old(notifier.manager.sends)
    {
      var data := db.helpRequests;
      if Items(data) == map[] {
        EnumerationLength(order, data);
        return;
      }
      var timedOut := CollectExpired(Items(data), order, now);
      WriteBackAll(db, timedOut, clock);
      if old(notifier.manager.activeConnections) == [] {
        SentSinceNobody(old(notifier.manager.sends), notifier.manager.sends, TimeoutMessages(timedOut, clock));
      }
    }

    /** The second loop of `_process_timeouts`: store each collected snapshot with status
        timeout and broadcast its event. */
    method WriteBackAll(db: Database, timedOut: seq<(string, HelpRecord)>, clock: nat -> Timestamp)
      requires db.helpRequests.Children?
      modifies db, notifier.manager
      ensures db.helpRequests == Children(WriteBack(Items(old(db.helpRequests)), timedOut))
      ensures db.knowledgeBase == old(db.knowledgeBase)
      ensures notifier.manager.broadcasts
              == old(notifier.manager.broadcasts) + TimeoutMessages(timedOut, clock)
      ensures multiset(notifier.manager.activeConnections) <= multiset(old(notifier.manager.activeConnections))
      ensures SentSince(old(notifier.manager.sends), notifier.manager.sends, old(notifier.manager.activeConnections),
                        TimeoutMessages(timedOut, clock))
    {
      ghost var items0, log0 := Items(db.helpRequests), notifier.manager.broadcasts;
      ghost var conns0, sends0 := notifier.manager.activeConnections, notifier.manager.sends;
      var j := 0;
      while j < |timedOut|
        invariant 0 <= j <= |timedOut|
        invariant db.helpRequests == Children(WriteBack(items0, timedOut[..j]))
        invariant db.knowledgeBase == old(db.knowledgeBase)
        invariant notifier.manager.broadcasts == log0 + TimeoutMessages(timedOut[..j], clock)
        invariant multiset(notifier.manager.activeConnections) <= multiset(conns0)
        invariant SentSince(sends0, notifier.manager.sends, conns0, TimeoutMessages(timedOut[..j], clock))
      {
        WriteBackStep(items0, timedOut, j, clock);
        var m := RequestTimeoutMessage(TimedOutRecord(timedOut[j].1), clock(j));
        AppendOne(log0, TimeoutMessages(timedOut[..j], clock), m);
        ghost var current, log := notifier.manager.activeConnections, notifier.manager.sends;
        SentSinceStep(sends0, log, current, conns0, TimeoutMessages(timedOut[..j], clock), m);
        TimeOutOne(db, timedOut[j].0, timedOut[j].1, clock(j));
        AfterBroadcastShrinks(current, notifier.manager.activeConnections);
        j := j + 1;
      }
      assert timedOut[..j] == timedOut;
    }

    /** One pass of the write-back loop: store the snapshot with status timeout, then
        broadcast its event. */
    method TimeOutOne(db: Database, requestId: string, requestData: HelpRecord, t: Timestamp)
      requires db.helpRequests.Children?
      modifies db, notifier.manager
      ensures db.helpRequests
              == Children(Items(old(db.helpRequests))[requestId := Record(TimedOutRecord(requestData))])
      ensures db.knowledgeBase == old(db.knowledgeBase)
      ensures notifier.manager.broadcasts
              == old(notifier.manager.broadcasts) + [RequestTimeoutMessage(TimedOutRecord(requestData), t)]
      ensures notifier.manager.sends
              == old(notifier.manager.sends)
                 + Attempts(old(notifier.manager.activeConnections), RequestTimeoutMessage(TimedOutRecord(requestData), t))
      ensures AfterBroadcast(old(notifier.manager.activeConnections), notifier.manager.activeConnections)
    {
      var timedOutData := requestData.(status := Timeout.Value());
      db.helpRequests := Write(db.helpRequests, requestId, Record(timedOutData));
      notifier.NotifyRequestTimeout(timedOutData, t);
    }

    /** One pass of `_check_timeouts_loop`: once stopped, the loop ends (`None`) without a
        sweep; otherwise one sweep runs, and since the sweep catches its own errors the next
        one is due after the normal interval. */
    method CheckTimeoutsStep(db: Database, order: seq<string>, now: Timestamp, clock: nat -> Timestamp)
      returns (delay: Option<nat>)
      requires ListsChildren(order, db.helpRequests)
      modifies db, notifier.manager
      ensures !running ==> delay.None? && db.helpRequests == old(db.helpRequests)
                           && notifier.manager.broadcasts == old(notifier.manager.broadcasts)
                           && notifier.manager.sends == old(notifier.manager.sends)
                           && notifier.manager.activeConnections == old(notifier.manager.activeConnections)
      ensures running ==> delay == Some(SweepInterval)
                          && Items(db.helpRequests) == Sweep(Items(old(db.helpRequests)), order, now)
                          && notifier.manager.broadcasts
                             == old(notifier.manager.broadcasts)
                                + TimeoutMessages(ScanExpired(Items(old(db.helpRequests)), order, now), clock)
                          && multiset(notifier.manager.activeConnections)
                             <= multiset(old(notifier.manager.activeConnections))
                          && SentSince(old(notifier.manager.sends), notifier.manager.sends,
                                       old(notifier.manager.activeConnections),
                                       TimeoutMessages(ScanExpired(Items(old(db.helpRequests)), order, now), clock))
      ensures db.knowledgeBase == old(db.knowledgeBase)
    {
      if !running {
        return None;
      }
      ProcessTimeouts(db, order, now, clock);
      delay := Some(NextDelay(false));
    }
  }
}
