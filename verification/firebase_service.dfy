/**
 * The help-request lifecycle and knowledge-base operations over the database
 * (backend/app/services/firebase_service.py). Each operation reads a node,
 * changes a dict and writes it back; the clock readings and the fresh keys the
 * source draws from `datetime.utcnow()` and `uuid4()` are parameters.
 */
module FirebaseService {
  import opened Wrappers
  import opened Models
  import opened Store
  import opened Ordering
  import opened Helpers

  /** `timedelta(hours=2)`, in clock units (seconds). */
  const HelpRequestTimeout: int := 7200

  /** The errors `answer_request` and `timeout_request` raise: an id with nothing stored
      under it (`ValueError`), or one whose value is not a dict (the item assignment's `TypeError`). */
  datatype ServiceError = NotFound(id: string) | NotARecord(id: string)

  // ================================================================ help requests

  /** `caller_info or "Anonymous"`. */
  function CallerOrAnonymous(callerInfo: Option<string>): (r: string)
    ensures r != ""
    ensures callerInfo.Some? && callerInfo.value != "" ==> r == callerInfo.value
    ensures callerInfo.None? || callerInfo.value == "" ==> r == "Anonymous"
  {
    if callerInfo.None? || callerInfo.value == "" then "Anonymous" else callerInfo.value
  }

  /** The dict `create_help_request` stores. `createdAt` and `timeoutBase` are the two clock
      readings the source takes, in that order. */
  function CreatedRecord(id: string, question: string, callerInfo: Option<string>, sessionId: string,
                         createdAt: Timestamp, timeoutBase: Timestamp): (r: HelpRecord)
    ensures r == DefaultHelpRequest(id, question, createdAt, timeoutBase + HelpRequestTimeout, sessionId)
                   .(callerInfo := Some(CallerOrAnonymous(callerInfo)),
                     callbackInfo := Some(CallbackInfo(callerInfo, createdAt)))
    ensures createdAt <= timeoutBase ==> r.timeoutAt.t >= r.createdAt + HelpRequestTimeout
  {
    HelpRecord(
      id := id,
      question := question,
      callerInfo := Some(CallerOrAnonymous(callerInfo)),
      status := Pending.Value(),
      createdAt := createdAt,
      resolvedAt := None,
      timeoutAt := At(timeoutBase + HelpRequestTimeout),
      answer := None,
      answeredBy := None,
      sessionId := sessionId,
      callbackInfo := Some(CallbackInfo(callerInfo, createdAt)),
      attemptCount := 0)
  }

  /** `create_help_request`: store a new pending record under the fresh key `requestId`. */
  method CreateHelpRequest(db: Database, requestId: string, now: Timestamp, later: Timestamp,
                           question: string, callerInfo: Option<string> := Some("Anonymous"),
                           sessionId: string := "")
    returns (created: HelpRecord)
    modifies db
    ensures created == CreatedRecord(requestId, question, callerInfo, sessionId, now, later)
    ensures db.helpRequests == Write(old(db.helpRequests), requestId, Record(created))
    ensures db.knowledgeBase == old(db.knowledgeBase)
  {
    created := HelpRecord(
      id := requestId,
      question := question,
      callerInfo := Some(CallerOrAnonymous(callerInfo)),
      status := Pending.Value(),
      createdAt := now,
      resolvedAt := None,
      timeoutAt := At(later + HelpRequestTimeout),
      answer := None,
      answeredBy := None,
      sessionId := sessionId,
      callbackInfo := Some(CallbackInfo(callerInfo, now)),
      attemptCount := 0);
    db.helpRequests := Write(db.helpRequests, requestId, Record(created));
  }

  /** Creating under a key not yet used adds exactly that one key, and the new record is pending
      with no answer. */
  lemma CreateAddsOneKey(n: Node<HelpRecord>, id: string, question: string, callerInfo: Option<string>,
                         sessionId: string, t0: Timestamp, t1: Timestamp)
    requires id !in Items(n)
    ensures var r := CreatedRecord(id, question, callerInfo, sessionId, t0, t1);
            var n' := Write(n, id, Record(r));
            && Items(n').Keys == Items(n).Keys + {id}
            && |Items(n')| == |Items(n)| + 1
            && r.status == Pending.Value() && r.answer.None? && r.answeredBy.None? && r.resolvedAt.None?
            && r.attemptCount == 0 && r.sessionId == sessionId
  {
    var r := CreatedRecord(id, question, callerInfo, sessionId, t0, t1);
    var n' := Write(n, id, Record(r));
    assert Items(n').Keys == Items(n).Keys + {id};
    assert |Items(n').Keys| == |Items(n).Keys| + 1;
  }

  // ---------------------------------------------------------------- listings

  /** A child that the listing loop keeps: not the setup marker key, a dict, and (for the
      pending listing) with status `pending`. */
  predicate Listed(key: string, v: Value<HelpRecord>, pendingOnly: bool) {
    key != InitializedKey && v.Record? && (!pendingOnly || v.rec.status == Pending.Value())
  }

  /** The records the listing loop appends, in enumeration order. */
  function Collected(items: map<string, Value<HelpRecord>>, order: seq<string>, pendingOnly: bool)
    : (r: seq<HelpRecord>)
    requires forall k :: k in order ==> k in items
    ensures |r| <= |order|
  {
    if order == [] then []
    else
      var k := order[|order| - 1];
      Collected(items, order[..|order| - 1], pendingOnly)
        + (if Listed(k, items[k], pendingOnly) then [items[k].rec] else [])
  }

  function CreatedAtKey(r: HelpRecord): int { r.createdAt }

  /** What `get_pending_requests` returns: the pending records, newest first. */
  function PendingRequests(n: Node<HelpRecord>, order: seq<string>): seq<HelpRecord>
    requires ListsChildren(order, n)
  {
    SortDesc(Collected(Items(n), order, true), CreatedAtKey)
  }

  /** What `get_all_help_requests` returns: every record, newest first. */
  function AllHelpRequests(n: Node<HelpRecord>, order: seq<string>): seq<HelpRecord>
    requires ListsChildren(order, n)
  {
    SortDesc(Collected(Items(n), order, false), CreatedAtKey)
  }

  /** The listing loop shared by `get_pending_requests` and `get_all_help_requests`. */
  method CollectRequests(db: Database, order: seq<string>, pendingOnly: bool) returns (requests: seq<HelpRecord>)
    requires ListsChildren(order, db.helpRequests)
    ensures requests == Collected(Items(db.helpRequests), order, pendingOnly)
  {
    requests := [];
    if db.helpRequests.Leaf? {
      EnumerationLength(order, db.helpRequests);
      return;
    }
    var data := db.helpRequests.items;
    var i := 0;
    while i < |order|
      invariant 0 <= i <= |order|
      invariant forall k :: k in order ==> k in data
      invariant requests == Collected(data, order[..i], pendingOnly)
    {
      var requestId := order[i];
      var requestData := data[requestId];
      assert order[..i + 1][..i] == order[..i];
      if requestId != InitializedKey {
        if requestData.Record? && (!pendingOnly || requestData.rec.status == Pending.Value()) {
          requests := requests + [requestData.rec];
        }
      }
      i := i + 1;
    }
    assert order[..i] == order;
  }

  /** `get_pending_requests`. */
  method GetPendingRequests(db: Database, order: seq<string>) returns (pending: seq<HelpRecord>)
    requires ListsChildren(order, db.helpRequests)
    ensures pending == PendingRequests(db.helpRequests, order)
  {
    pending := CollectRequests(db, order, true);
    pending := SortDesc(pending, CreatedAtKey);
  }

  /** `get_all_help_requests`. */
  method GetAllHelpRequests(db: Database, order: seq<string>) returns (all: seq<HelpRecord>)
    requires ListsChildren(order, db.helpRequests)
    ensures all == AllHelpRequests(db.helpRequests, order)
  {
    all := CollectRequests(db, order, false);
    all := SortDesc(all, CreatedAtKey);
  }

  lemma {:induction false} CollectedMembers(items: map<string, Value<HelpRecord>>, order: seq<string>,
                                            pendingOnly: bool, r: HelpRecord)
    requires forall k :: k in order ==> k in items
    ensures r in Collected(items, order, pendingOnly)
            <==> exists k :: k in order && items[k] == Record(r) && Listed(k, items[k], pendingOnly)
  {
    if order != [] {
      var init := order[..|order| - 1];
      var last := order[|order| - 1];
      CollectedMembers(items, init, pendingOnly, r);
      assert order == init + [last];
      if r in Collected(items, order, pendingOnly) && r !in Collected(items, init, pendingOnly) {
        assert items[last] == Record(r) && Listed(last, items[last], pendingOnly);
      }
      if exists k :: k in order && items[k] == Record(r) && Listed(k, items[k], pendingOnly) {
        var k :| k in order && items[k] == Record(r) && Listed(k, items[k], pendingOnly);
        if k != last {
          assert k in init;
        }
      }
    }
  }

  /** `get_pending_requests` returns newest first exactly the dict values with status pending,
      the setup marker key and non-dict values skipped. */
  lemma PendingRequestsExact(n: Node<HelpRecord>, order: seq<string>, r: HelpRecord)
    requires ListsChildren(order, n)
    ensures SortedDesc(PendingRequests(n, order), CreatedAtKey)
    ensures r in PendingRequests(n, order)
            <==> exists k :: k in Items(n) && k != InitializedKey && Items(n)[k] == Record(r)
                                && r.status == Pending.Value()
  {
    SortDescCorrect(Collected(Items(n), order, true), CreatedAtKey);
    CollectedMembers(Items(n), order, true, r);
    assert r in PendingRequests(n, order) <==> r in multiset(PendingRequests(n, order));
  }

  /** `get_all_help_requests` returns newest first exactly the dict values, the setup marker
      key and non-dict values skipped, whatever their status. */
  lemma AllHelpRequestsExact(n: Node<HelpRecord>, order: seq<string>, r: HelpRecord)
    requires ListsChildren(order, n)
    ensures SortedDesc(AllHelpRequests(n, order), CreatedAtKey)
    ensures r in AllHelpRequests(n, order)
            <==> exists k :: k in Items(n) && k != InitializedKey && Items(n)[k] == Record(r)
  {
    SortDescCorrect(Collected(Items(n), order, false), CreatedAtKey);
    CollectedMembers(Items(n), order, false, r);
    assert r in AllHelpRequests(n, order) <==> r in multiset(AllHelpRequests(n, order));
  }

  /** `get_request_by_id`: the record stored under the id; nothing for an unknown id, and
      nothing for a non-dict value (its parse error is caught). */
  function GetRequestById(n: Node<HelpRecord>, requestId: string): (r: Option<HelpRecord>)
    ensures r.Some? <==> requestId in Items(n) && Items(n)[requestId].Record?
    ensures r.Some? ==> Items(n)[requestId] == Record(r.value)
  {
    match Child(n, requestId)
    case Some(Record(rec)) => Some(rec)
    case _ => None
  }

  // ---------------------------------------------------------------- transitions

  /** The record `answer_request` writes back: status resolved with answer, author and time
      set, whatever the status was before. */
  function ResolvedRecord(r: HelpRecord, answer: string, answeredBy: string, now: Timestamp): (r': HelpRecord)
    ensures r'.status == Resolved.Value()
    ensures r'.answer == Some(answer) && r'.answeredBy == Some(answeredBy) && r'.resolvedAt == Some(now)
    ensures r'.id == r.id && r'.question == r.question && r'.callerInfo == r.callerInfo
    ensures r'.createdAt == r.createdAt && r'.timeoutAt == r.timeoutAt && r'.sessionId == r.sessionId
    ensures r'.callbackInfo == r.callbackInfo && r'.attemptCount == r.attemptCount
  {
    r.(status := Resolved.Value(), answer := Some(answer), answeredBy := Some(answeredBy), resolvedAt := Some(now))
  }

  /** The record `timeout_request` writes back: only the status changes. */
  function TimedOutRecord(r: HelpRecord): (r': HelpRecord)
    ensures r'.status == Timeout.Value()
    ensures r' == r.(status := r'.status)
  {
    r.(status := Timeout.Value())
  }

  /** `answer_request`. An unknown id raises not-found and a non-dict value a type error, both
      with nothing written. Otherwise the record is resolved with no check of its prior status,
      and one learned knowledge entry is added under the fresh key `kbId`. */
  method AnswerRequest(db: Database, requestId: string, body: AnswerBody, now: Timestamp,
                       kbId: string, kbNow: Timestamp)
    returns (result: Result<HelpRecord, ServiceError>)
    modifies db
    ensures Child(old(db.helpRequests), requestId).None? ==>
              result == Failure(NotFound(requestId))
    ensures Child(old(db.helpRequests), requestId) == Some(Marker) ==>
              result == Failure(NotARecord(requestId))
    ensures result.Failure? ==>
              db.helpRequests == old(db.helpRequests) && db.knowledgeBase == old(db.knowledgeBase)
    ensures Child(old(db.helpRequests), requestId).Some? && Child(old(db.helpRequests), requestId).value.Record? ==>
              var before := Child(old(db.helpRequests), requestId).value.rec;
              && result == Success(ResolvedRecord(before, body.answer, body.supervisorName, now))
              && db.helpRequests == Write(old(db.helpRequests), requestId, Record(result.value))
              && db.knowledgeBase == Write(old(db.knowledgeBase), kbId,
                                           Record(NewKbEntry(kbId, before.question, body.answer, Learned, kbNow)))
  {
    var requestData := Child(db.helpRequests, requestId);
    if requestData.None? {
      return Failure(NotFound(requestId));
    }
    if requestData.value.Marker? {
      return Failure(NotARecord(requestId));
    }
    var updated := requestData.value.rec;
    updated := updated.(status := Resolved.Value());
    updated := updated.(answer := Some(body.answer));
    updated := updated.(answeredBy := Some(body.supervisorName));
    updated := updated.(resolvedAt := Some(now));
    db.helpRequests := Write(db.helpRequests, requestId, Record(updated));
    var _ := AddToKnowledgeBase(db, updated.question, body.answer, kbId, kbNow);
    result := Success(updated);
  }

  /** `timeout_request`: an unknown id raises not-found, a non-dict value a type error; otherwise
      only the status changes, with no check of the prior status. */
  method TimeoutRequest(db: Database, requestId: string) returns (result: Result<HelpRecord, ServiceError>)
    modifies db
    ensures Child(old(db.helpRequests), requestId).None? ==>
              result == Failure(NotFound(requestId))
    ensures Child(old(db.helpRequests), requestId) == Some(Marker) ==>
              result == Failure(NotARecord(requestId))
    ensures result.Failure? ==> db.helpRequests == old(db.helpRequests)
    ensures Child(old(db.helpRequests), requestId).Some? && Child(old(db.helpRequests), requestId).value.Record? ==>
              && result == Success(TimedOutRecord(Child(old(db.helpRequests), requestId).value.rec))
              && db.helpRequests == Write(old(db.helpRequests), requestId, Record(result.value))
    ensures db.knowledgeBase == old(db.knowledgeBase)
  {
    var requestData := Child(db.helpRequests, requestId);
    if requestData.Some? {
      if requestData.value.Marker? {
        return Failure(NotARecord(requestId));
      }
      var updated := requestData.value.rec.(status := Timeout.Value());
      db.helpRequests := Write(db.helpRequests, requestId, Record(updated));
      return Success(updated);
    }
    return Failure(NotFound(requestId));
  }

  /** There is no guard on the prior status: answering a timed-out record resolves it, and
      answering a resolved one replaces its answer. */
  lemma AnswerOverridesTerminalStatus(r: HelpRecord, answer: string, supervisor: string, now: Timestamp)
    requires r.status == Timeout.Value() || r.status == Resolved.Value()
    ensures ResolvedRecord(r, answer, supervisor, now).status == Resolved.Value()
    ensures ResolvedRecord(r, answer, supervisor, now).answer == Some(answer)
    ensures TimedOutRecord(ResolvedRecord(r, answer, supervisor, now)).status == Timeout.Value()
  {
  }

  // ---------------------------------------------------------------- statistics

  datatype Stats = Stats(pending: nat, resolved: nat, timeout: nat, total: nat)

  /** The keys whose value is a dict with the given status. */
  function WithStatus(items: map<string, Value<HelpRecord>>, status: string): set<string> {
    set k | k in items && items[k].Record? && items[k].rec.status == status
  }

  /** The three counts and their sum over a dict of children. */
  function CountByStatus(items: map<string, Value<HelpRecord>>): Stats {
    var pending := |WithStatus(items, Pending.Value())|;
    var resolved := |WithStatus(items, Resolved.Value())|;
    var timeout := |WithStatus(items, Timeout.Value())|;
    Stats(pending, resolved, timeout, pending + resolved + timeout)
  }

  /** `get_stats`: the dict values counted by status; total is the sum of the three counts.
      An empty node and a node that is not a dict give all zeros. */
  function GetStats(n: Node<HelpRecord>): (s: Stats)
    ensures s.total == s.pending + s.resolved + s.timeout
    ensures Items(n) == map[] ==> s == Stats(0, 0, 0, 0)
  {
    if n.Leaf? || n.items == map[] then Stats(0, 0, 0, 0) else CountByStatus(n.items)
  }

  /** The zero answer for an empty or non-dict node is also what counting would give. */
  lemma GetStatsCounts(n: Node<HelpRecord>)
    ensures GetStats(n) == CountByStatus(Items(n))
  {
    if Items(n) == map[] {
      assert WithStatus(Items(n), Pending.Value()) == {};
      assert WithStatus(Items(n), Resolved.Value()) == {};
      assert WithStatus(Items(n), Timeout.Value()) == {};
    }
  }

  /** Writing one child changes only that key's membership in each status set. */
  lemma WithStatusAfterWrite(items: map<string, Value<HelpRecord>>, id: string, v: Value<HelpRecord>, status: string)
    ensures WithStatus(items[id := v], status)
            == (WithStatus(items, status) - {id}) + (if v.Record? && v.rec.status == status then {id} else {})
  {
  }

  /** The total counts exactly the dicts whose status is one of the three; any other status,
      and any non-dict value, is left out. */
  lemma StatsTotalCountsKnownStatuses(n: Node<HelpRecord>)
    ensures GetStats(n).total
            == |set k | k in Items(n) && Items(n)[k].Record?
                        && ParseRequestStatus(Items(n)[k].rec.status).Some?|
  {
    GetStatsCounts(n);
    var items := Items(n);
    var p, r, t := WithStatus(items, Pending.Value()), WithStatus(items, Resolved.Value()), WithStatus(items, Timeout.Value());
    var known := set k | k in items && items[k].Record? && ParseRequestStatus(items[k].rec.status).Some?;
    assert known == p + r + t;
    assert p !! r && p !! t && r !! t;
    assert |p + r| == |p| + |r|;
    assert |p + r + t| == |p + r| + |t|;
  }

  /** The count for one status after writing one child: the key leaves the count when it
      had that status and joins it when the new value has it. */
  lemma StatusCountAfterWrite(items: map<string, Value<HelpRecord>>, id: string, v: Value<HelpRecord>, status: string)
    ensures |WithStatus(items[id := v], status)|
            == |WithStatus(items, status)| - (if id in WithStatus(items, status) then 1 else 0)
               + (if v.Record? && v.rec.status == status then 1 else 0)
  {
    WithStatusAfterWrite(items, id, v, status);
    var S := WithStatus(items, status);
    if id in S {
      assert |S - {id}| == |S| - 1;
    } else {
      assert S - {id} == S;
    }
  }

  lemma CountAfterFreshPending(items: map<string, Value<HelpRecord>>, id: string, r: HelpRecord)
    requires id !in items && r.status == Pending.Value()
    ensures var s, s' := CountByStatus(items), CountByStatus(items[id := Record(r)]);
            s' == Stats(s.pending + 1, s.resolved, s.timeout, s.total + 1)
  {
    StatusValuesDistinct();
    StatusCountAfterWrite(items, id, Record(r), Pending.Value());
    StatusCountAfterWrite(items, id, Record(r), Resolved.Value());
    StatusCountAfterWrite(items, id, Record(r), Timeout.Value());
  }

  /** Creating a pending record under a fresh key adds one to pending and to the total. */
  lemma StatsAfterCreate(n: Node<HelpRecord>, id: string, r: HelpRecord)
    requires id !in Items(n) && r.status == Pending.Value()
    ensures var s, s' := GetStats(n), GetStats(Write(n, id, Record(r)));
            s' == Stats(s.pending + 1, s.resolved, s.timeout, s.total + 1)
  {
    GetStatsCounts(n);
    GetStatsCounts(Write(n, id, Record(r)));
    CountAfterFreshPending(Items(n), id, r);
  }

  lemma CountAfterResolvingPending(items: map<string, Value<HelpRecord>>, id: string, r: HelpRecord, r': HelpRecord)
    requires id in items && items[id] == Record(r) && r.status == Pending.Value() && r'.status == Resolved.Value()
    ensures var s, s' := CountByStatus(items), CountByStatus(items[id := Record(r')]);
            s.pending >= 1 && s' == Stats(s.pending - 1, s.resolved + 1, s.timeout, s.total)
  {
    StatusValuesDistinct();
    assert id in WithStatus(items, Pending.Value());
    StatusCountAfterWrite(items, id, Record(r'), Pending.Value());
    StatusCountAfterWrite(items, id, Record(r'), Resolved.Value());
    StatusCountAfterWrite(items, id, Record(r'), Timeout.Value());
  }

  /** Answering a pending record moves one count from pending to resolved; the total stays. */
  lemma StatsAfterAnswer(n: Node<HelpRecord>, id: string, r: HelpRecord, answer: string,
                         supervisor: string, now: Timestamp)
    requires id in Items(n) && Items(n)[id] == Record(r) && r.status == Pending.Value()
    ensures var s, s' := GetStats(n), GetStats(Write(n, id, Record(ResolvedRecord(r, answer, supervisor, now))));
            s.pending >= 1 && s' == Stats(s.pending - 1, s.resolved + 1, s.timeout, s.total)
  {
    var v := Record(ResolvedRecord(r, answer, supervisor, now));
    GetStatsCounts(n);
    GetStatsCounts(Write(n, id, v));
    CountAfterResolvingPending(Items(n), id, r, v.rec);
  }

  /** Two pending, one resolved and one timed-out record beside the setup marker give
      {pending: 2, resolved: 1, timeout: 1, total: 4}. */
  lemma StatsExample(a: HelpRecord, b: HelpRecord, c: HelpRecord, d: HelpRecord)
    requires a.status == Pending.Value() && b.status == Pending.Value()
    requires c.status == Resolved.Value() && d.status == Timeout.Value()
    ensures GetStats(Children(map[InitializedKey := Marker, "a" := Record(a), "b" := Record(b),
                                  "c" := Record(c), "d" := Record(d)]))
            == Stats(2, 1, 1, 4)
  {
    var items := map[InitializedKey := Marker, "a" := Record(a), "b" := Record(b), "c" := Record(c), "d" := Record(d)];
    assert WithStatus(items, Pending.Value()) == {"a", "b"};
    assert WithStatus(items, Resolved.Value()) == {"c"};
    assert WithStatus(items, Timeout.Value()) == {"d"};
  }

  // ================================================================ knowledge base

  /** The entry `add_to_knowledge_base` (source learned) and `create_kb_entry` (source manual)
      store: one clock reading for both timestamps, no uses yet. */
  function NewKbEntry(id: string, question: string, answer: string, source: KnowledgeSource, now: Timestamp)
    : (e: KbEntry)
    ensures e.source == source.Value() && e.useCount == Some(0) && e.createdAt == e.updatedAt == now
    ensures e.id == id && e.question == question && e.answer == answer
  {
    KbEntry(id, question, answer, source.Value(), now, now, Some(0))
  }

  /** A manual entry is what the `KnowledgeBaseEntry` defaults give when both of its clock
      readings are the same. */
  lemma ManualEntryIsDefaultEntry(id: string, question: string, answer: string, now: Timestamp)
    ensures NewKbEntry(id, question, answer, Manual, now) == DefaultKbEntry(id, question, answer, now, now)
  {
  }

  /** `add_to_knowledge_base`: store a learned entry under the fresh key `kbId`, with no
      deduplication by question. */
  method AddToKnowledgeBase(db: Database, question: string, answer: string, kbId: string, now: Timestamp)
    returns (entry: KbEntry)
    modifies db
    ensures entry == NewKbEntry(kbId, question, answer, Learned, now)
    ensures db.knowledgeBase == Write(old(db.knowledgeBase), kbId, Record(entry))
    ensures db.helpRequests == old(db.helpRequests)
  {
    entry := KbEntry(kbId, question, answer, Learned.Value(), now, now, Some(0));
    db.knowledgeBase := Write(db.knowledgeBase, kbId, Record(entry));
  }

  /** `create_kb_entry`: store a manual entry under the fresh key `kbId`, with no
      deduplication by question. */
  method CreateKbEntry(db: Database, question: string, answer: string, kbId: string, now: Timestamp)
    returns (entry: KbEntry)
    modifies db
    ensures entry == NewKbEntry(kbId, question, answer, Manual, now)
    ensures db.knowledgeBase == Write(old(db.knowledgeBase), kbId, Record(entry))
    ensures db.helpRequests == old(db.helpRequests)
  {
    entry := KbEntry(kbId, question, answer, Manual.Value(), now, now, Some(0));
    db.knowledgeBase := Write(db.knowledgeBase, kbId, Record(entry));
  }

  /** Adding an entry under a fresh key grows the knowledge base by one even when an entry
      with the same question is already stored. */
  lemma NoDeduplicationByQuestion(n: Node<KbEntry>, kbId: string, e: KbEntry, existing: KbEntry)
    requires kbId !in Items(n)
    requires exists k :: k in Items(n) && Items(n)[k] == Record(existing)
    requires existing.question == e.question
    ensures |Items(Write(n, kbId, Record(e)))| == |Items(n)| + 1
    ensures forall k :: k in Items(n) ==> Child(Write(n, kbId, Record(e)), k) == Child(n, k)
  {
    assert Items(Write(n, kbId, Record(e))).Keys == Items(n).Keys + {kbId};
  }

  /** A knowledge-base child that `get_all_kb_entries` keeps: not the setup marker key, a dict,
      and one that parses as a response (its `use_count` is present). */
  predicate KbListed(key: string, v: Value<KbEntry>) {
    key != InitializedKey && v.Record? && v.rec.useCount.Some?
  }

  function CollectedKb(items: map<string, Value<KbEntry>>, order: seq<string>): (r: seq<KbEntry>)
    requires forall k :: k in order ==> k in items
    ensures |r| <= |order|
  {
    if order == [] then []
    else
      var k := order[|order| - 1];
      CollectedKb(items, order[..|order| - 1]) + (if KbListed(k, items[k]) then [items[k].rec] else [])
  }

  function UpdatedAtKey(e: KbEntry): int { e.updatedAt }

  /** `get_all_kb_entries`: the listed entries, most recently updated first. */
  method GetAllKbEntries(db: Database, order: seq<string>) returns (entries: seq<KbEntry>)
    requires ListsChildren(order, db.knowledgeBase)
    ensures entries == SortDesc(CollectedKb(Items(db.knowledgeBase), order), UpdatedAtKey)
  {
    entries := [];
    if db.knowledgeBase.Leaf? {
      EnumerationLength(order, db.knowledgeBase);
      return;
    }
    var data := db.knowledgeBase.items;
    var i := 0;
    while i < |order|
      invariant 0 <= i <= |order|
      invariant forall k :: k in order ==> k in data
      invariant entries == CollectedKb(data, order[..i])
    {
      var entryId := order[i];
      assert order[..i + 1][..i] == order[..i];
      if entryId != InitializedKey {
        var entryData := data[entryId];
        if entryData.Record? && entryData.rec.useCount.Some? {
          entries := entries + [entryData.rec];
        }
      }
      i := i + 1;
    }
    assert order[..i] == order;
    entries := SortDesc(entries, UpdatedAtKey);
  }

  lemma {:induction false} CollectedKbMembers(items: map<string, Value<KbEntry>>, order: seq<string>, e: KbEntry)
    requires forall k :: k in order ==> k in items
    ensures e in CollectedKb(items, order)
            <==> exists k :: k in order && items[k] == Record(e) && KbListed(k, items[k])
  {
    if order != [] {
      var init := order[..|order| - 1];
      var last := order[|order| - 1];
      CollectedKbMembers(items, init, e);
      assert order == init + [last];
      if e in CollectedKb(items, order) && e !in CollectedKb(items, init) {
        assert items[last] == Record(e) && KbListed(last, items[last]);
      }
      if exists k :: k in order && items[k] == Record(e) && KbListed(k, items[k]) {
        var k :| k in order && items[k] == Record(e) && KbListed(k, items[k]);
        if k != last {
          assert k in init;
        }
      }
    }
  }

  /** `get_all_kb_entries` returns, most recently updated first, exactly the stored entry dicts
      that carry a use count; the setup marker key and non-dict values are skipped. */
  lemma AllKbEntriesExact(n: Node<KbEntry>, order: seq<string>, e: KbEntry)
    requires ListsChildren(order, n)
    ensures SortedDesc(SortDesc(CollectedKb(Items(n), order), UpdatedAtKey), UpdatedAtKey)
    ensures e in SortDesc(CollectedKb(Items(n), order), UpdatedAtKey)
            <==> exists k :: k in Items(n) && k != InitializedKey && Items(n)[k] == Record(e) && e.useCount.Some?
  {
    var c := CollectedKb(Items(n), order);
    SortDescCorrect(c, UpdatedAtKey);
    CollectedKbMembers(Items(n), order, e);
    assert e in SortDesc(c, UpdatedAtKey) <==> e in multiset(SortDesc(c, UpdatedAtKey));
  }

  // ---------------------------------------------------------------- export as a dict

  /** The dict key `get_kb_as_dict` derives from a question: its first 50 characters,
      lower-cased, with spaces turned into underscores. */
  function NormalizeKey(question: string): (key: string)
    ensures |key| == if |question| < 50 then |question| else 50
    ensures forall i :: 0 <= i < |key| ==> key[i] != ' ' && key[i] == ReplaceChar(Lower(question[..|key|]), ' ', '_')[i]
  {
    ReplaceChar(Lower(SliceTo(question, 50)), ' ', '_')
  }

  /** Normalizing a key that is already normalized leaves it as it is. */
  lemma NormalizeKeyIdempotent(question: string)
    ensures NormalizeKey(NormalizeKey(question)) == NormalizeKey(question)
  {
    var k := NormalizeKey(question);
    var k2 := NormalizeKey(k);
    assert SliceTo(k, 50) == k;
    forall i | 0 <= i < |k| ensures k2[i] == k[i] {
      assert LowerChar(k[i]) == k[i] by {
        var c := SliceTo(question, 50)[i];
        assert k[i] == (if LowerChar(c) == ' ' then '_' else LowerChar(c));
      }
    }
  }

  /** The dict the export loop builds: entries in enumeration order, a later entry's answer
      replacing an earlier one under the same key. */
  function KbDict(items: map<string, Value<KbEntry>>, order: seq<string>): map<string, string>
    requires forall k :: k in order ==> k in items
  {
    if order == [] then map[]
    else
      var k := order[|order| - 1];
      var d := KbDict(items, order[..|order| - 1]);
      if items[k].Record? then d[NormalizeKey(items[k].rec.question) := items[k].rec.answer] else d
  }

  /** `get_kb_as_dict`. A node that is not a dict has no `.items()`; the error is caught and
      the result is empty. */
  method GetKbAsDict(db: Database, order: seq<string>) returns (kbDict: map<string, string>)
    requires ListsChildren(order, db.knowledgeBase)
    ensures kbDict == KbDict(Items(db.knowledgeBase), order)
  {
    kbDict := map[];
    if db.knowledgeBase.Leaf? {
      EnumerationLength(order, db.knowledgeBase);
      return;
    }
    var data := db.knowledgeBase.items;
    var i := 0;
    while i < |order|
      invariant 0 <= i <= |order|
      invariant forall k :: k in order ==> k in data
      invariant kbDict == KbDict(data, order[..i])
    {
      var entry := data[order[i]];
      assert order[..i + 1][..i] == order[..i];
      if entry.Record? {
        var key := ReplaceChar(Lower(SliceTo(entry.rec.question, 50)), ' ', '_');
        kbDict := kbDict[key := entry.rec.answer];
      }
      i := i + 1;
    }
    assert order[..i] == order;
  }

  /** The child under `k` is an entry dict whose question normalizes to `key`. */
  predicate Exports(items: map<string, Value<KbEntry>>, k: string, key: string)
    requires k in items
  {
    items[k].Record? && NormalizeKey(items[k].rec.question) == key
  }

  /** Every exported key comes from some enumerated entry dict. */
  lemma {:induction false} KbDictSound(items: map<string, Value<KbEntry>>, order: seq<string>, key: string)
    requires forall k :: k in order ==> k in items
    requires key in KbDict(items, order)
    ensures exists j :: 0 <= j < |order| && Exports(items, order[j], key)
  {
    var n := |order| - 1;
    var init := order[..n];
    if Exports(items, order[n], key) {
      assert 0 <= n < |order| && Exports(items, order[n], key);
    } else {
      assert key in KbDict(items, init);
      KbDictSound(items, init, key);
      var j :| 0 <= j < |init| && Exports(items, init[j], key);
      assert init[j] == order[j];
    }
  }

  /** The normalized question of every enumerated entry dict is exported. */
  lemma {:induction false} KbDictComplete(items: map<string, Value<KbEntry>>, order: seq<string>, key: string, j: nat)
    requires forall k :: k in order ==> k in items
    requires j < |order| && Exports(items, order[j], key)
    ensures key in KbDict(items, order)
  {
    var n := |order| - 1;
    var init := order[..n];
    if j < n {
      assert init[j] == order[j];
      KbDictComplete(items, init, key, j);
      assert KbDict(items, init).Keys <= KbDict(items, order).Keys;
    }
  }

  /** A key is exported iff some enumerated entry dict normalizes to it. */
  lemma KbDictKeys(items: map<string, Value<KbEntry>>, order: seq<string>, key: string)
    requires forall k :: k in order ==> k in items
    ensures key in KbDict(items, order) <==> exists j :: 0 <= j < |order| && Exports(items, order[j], key)
  {
    if key in KbDict(items, order) {
      KbDictSound(items, order, key);
    }
    if exists j :: 0 <= j < |order| && Exports(items, order[j], key) {
      var j :| 0 <= j < |order| && Exports(items, order[j], key);
      KbDictComplete(items, order, key, j);
    }
  }

  /** The key of the last enumerated entry dict that exports it maps to that entry's answer. */
  lemma {:induction false} KbDictLast(items: map<string, Value<KbEntry>>, order: seq<string>, key: string, j: nat)
    requires forall k :: k in order ==> k in items
    requires j < |order| && Exports(items, order[j], key)
    requires forall j' :: j < j' < |order| ==> !Exports(items, order[j'], key)
    ensures key in KbDict(items, order) && KbDict(items, order)[key] == items[order[j]].rec.answer
  {
    var n := |order| - 1;
    var init := order[..n];
    if j < n {
      assert init[j] == order[j];
      forall j' | j < j' < |init| ensures !Exports(items, init[j'], key) {
        assert init[j'] == order[j'];
      }
      KbDictLast(items, init, key, j);
      assert !Exports(items, order[n], key);
    }
  }

  /** The exported keys are exactly the normalized questions of the stored entry dicts, and each
      maps to the answer of the last entry, in enumeration order, with that key. */
  lemma KbDictLastWins(items: map<string, Value<KbEntry>>, order: seq<string>, key: string)
    requires forall k :: k in order ==> k in items
    ensures key in KbDict(items, order) <==> exists j :: 0 <= j < |order| && Exports(items, order[j], key)
    ensures forall j :: 0 <= j < |order| && Exports(items, order[j], key)
                        && (forall j' :: j < j' < |order| ==> !Exports(items, order[j'], key))
                        ==> key in KbDict(items, order) && KbDict(items, order)[key] == items[order[j]].rec.answer
  {
    KbDictKeys(items, order, key);
    forall j | 0 <= j < |order| && Exports(items, order[j], key)
                && (forall j' :: j < j' < |order| ==> !Exports(items, order[j'], key))
      ensures key in KbDict(items, order) && KbDict(items, order)[key] == items[order[j]].rec.answer
    {
      KbDictLast(items, order, key, j);
    }
  }

  // ---------------------------------------------------------------- use count

  /** The entry `increment_kb_use_count` writes back: one more use (a missing count counts as
      zero) and a new update time. */
  function IncrementedEntry(e: KbEntry, now: Timestamp): (e': KbEntry)
    ensures e'.useCount == Some(e.useCount.GetOr(0) + 1) && e'.updatedAt == now
    ensures e' == e.(useCount := e'.useCount, updatedAt := now)
  {
    e.(useCount := Some(e.useCount.GetOr(0) + 1), updatedAt := now)
  }

  /** `increment_kb_use_count`: an unknown id and a non-dict value leave the store as it is
      (the latter's error is caught). */
  method IncrementKbUseCount(db: Database, kbId: string, now: Timestamp)
    modifies db
    ensures Child(old(db.knowledgeBase), kbId).Some? && Child(old(db.knowledgeBase), kbId).value.Record? ==>
              db.knowledgeBase == Write(old(db.knowledgeBase), kbId,
                                        Record(IncrementedEntry(Child(old(db.knowledgeBase), kbId).value.rec, now)))
    ensures Child(old(db.knowledgeBase), kbId).None? || Child(old(db.knowledgeBase), kbId) == Some(Marker) ==>
              db.knowledgeBase == old(db.knowledgeBase)
    ensures db.helpRequests == old(db.helpRequests)
  {
    var entry := Child(db.knowledgeBase, kbId);
    if entry.Some? && entry.value.Record? {
      var e := entry.value.rec;
      e := e.(useCount := Some(e.useCount.GetOr(0) + 1));
      e := e.(updatedAt := now);
      db.knowledgeBase := Write(db.knowledgeBase, kbId, Record(e));
    }
  }
}
