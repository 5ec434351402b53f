/**
 * The supervisors' live channel (backend/app/services/notification_service.py):
 * the registry of open WebSocket connections, the best-effort broadcast, the
 * event envelopes the dashboard receives, and the simulated customer callback.
 * Whether a send succeeds is outside the program, so each send outcome is an
 * arbitrary boolean; the clock reading stamped on an envelope is a parameter.
 */
module Notifications {
  import opened Wrappers
  import opened Models
  import opened Helpers
  import opened Store

  /** An open WebSocket; two connections are the same only when they are the same object. */
  datatype Connection = Connection(handle: nat)

  // ================================================================ envelopes

  /** A value in an envelope's `data` dict: a text, a timestamp or null. */
  datatype DataValue = Str(s: string) | Stamp(t: Timestamp) | Null

  /** `{"type": kind, "data": {...}, "timestamp": ...}`; `data` keeps its fields in order. */
  datatype Envelope = Envelope(kind: string, data: seq<(string, DataValue)>, timestamp: Timestamp)

  /** The names of the `data` fields, in order. */
  function FieldNames(data: seq<(string, DataValue)>): seq<string> {
    seq(|data|, i requires 0 <= i < |data| => data[i].0)
  }

  /** `message["data"].get(name)`: the value of the first field with that name. */
  function Field(m: Envelope, name: string): Option<DataValue> {
    FieldIn(m.data, name)
  }

  function FieldIn(data: seq<(string, DataValue)>, name: string): (r: Option<DataValue>)
    ensures r.Some? <==> name in FieldNames(data)
  {
    if data == [] then None
    else if data[0].0 == name then (assert FieldNames(data)[0] == name; Some(data[0].1))
    else (assert FieldNames(data) == [data[0].0] + FieldNames(data[1..]); FieldIn(data[1..], name))
  }

  /** When no two fields share a name, looking a field up by its name finds its value. */
  lemma {:induction false} FieldLookup(data: seq<(string, DataValue)>)
    requires Distinct(FieldNames(data))
    ensures forall i :: 0 <= i < |data| ==> FieldIn(data, data[i].0) == Some(data[i].1)
  {
    if data != [] {
      assert Distinct(FieldNames(data[1..])) by {
        assert forall i :: 0 <= i < |data| - 1 ==> FieldNames(data[1..])[i] == FieldNames(data)[i + 1];
      }
      FieldLookup(data[1..]);
      forall i | 0 < i < |data|
        ensures FieldIn(data, data[i].0) == Some(data[i].1)
      {
        assert FieldNames(data)[0] != FieldNames(data)[i];
        assert data[1..][i - 1] == data[i];
      }
    }
  }

  /** The four event types and the fields each one carries, as the dashboard reads them. */
  function Schema(kind: string): Option<seq<string>> {
    if kind == "new_request" then Some(["request_id", "question", "caller_info", "created_at"])
    else if kind == "request_resolved" then Some(["request_id", "answer", "answered_by", "resolved_at"])
    else if kind == "request_timeout" then Some(["request_id", "question", "created_at", "caller_info"])
    else if kind == "knowledge_base_updated" then Some(["question", "answer"])
    else None
  }

  /** The envelope has one of the four types and exactly that type's fields, in order. */
  predicate Conforms(m: Envelope) {
    Schema(m.kind) == Some(FieldNames(m.data))
  }

  /** A field that may be null. */
  function OptStr(o: Option<string>): DataValue {
    if o.Some? then Str(o.value) else Null
  }

  function OptStamp(o: Option<Timestamp>): DataValue {
    if o.Some? then Stamp(o.value) else Null
  }

  /** The `new_request` event for a stored request. */
  function NewRequestMessage(r: HelpRecord, now: Timestamp): (m: Envelope)
    ensures m.kind == "new_request" && Conforms(m) && m.timestamp == now
    ensures Field(m, "request_id") == Some(Str(r.id))
    ensures Field(m, "question") == Some(Str(r.question))
    ensures Field(m, "caller_info") == Some(OptStr(r.callerInfo))
    ensures Field(m, "created_at") == Some(Stamp(r.createdAt))
  {
    var data := [("request_id", Str(r.id)), ("question", Str(r.question)),
                 ("caller_info", OptStr(r.callerInfo)), ("created_at", Stamp(r.createdAt))];
    assert FieldNames(data) == ["request_id", "question", "caller_info", "created_at"];
    FieldLookup(data);
    Envelope("new_request", data, now)
  }

  /** What a caller hands to `notify_new_request`: the record as a dict, or the
      `HelpRequestResponse` object that `create_help_request` returns, which has no `.get`. */
  datatype RequestPayload = RecordDict(r: HelpRecord) | ResponseObject(r: HelpRecord)

  /** The envelope `notify_new_request` builds from its argument; `None` when the first
      `.get` raises, before anything is broadcast. */
  function NewRequestEnvelope(p: RequestPayload, now: Timestamp): (m: Option<Envelope>)
    ensures m.Some? <==> p.RecordDict?
    ensures m.Some? ==> m.value == NewRequestMessage(p.r, now)
  {
    match p
    case RecordDict(r) => Some(NewRequestMessage(r, now))
    case ResponseObject(_) => None
  }

  /** The events the create route broadcasts about the record it created, given what it hands
      to `notify_new_request`; an exception from the notifier is caught and printed. */
  function CreateRouteEvents(p: RequestPayload, now: Timestamp): seq<Envelope> {
    match NewRequestEnvelope(p, now)
    case Some(m) => [m]
    case None => []
  }

  /** As written, the create route passes the response object itself, so supervisors never
      hear of a new request. */
  lemma CreateRouteNeverNotifies(r: HelpRecord, now: Timestamp)
    ensures CreateRouteEvents(ResponseObject(r), now) == []
  {
  }

  /** Passing the record as a dict, as the answer route does with `model_dump()`, broadcasts
      exactly one "new_request" event carrying the new record's id, question, caller and
      creation time. */
  lemma CreateRouteWithDictNotifies(r: HelpRecord, now: Timestamp)
    ensures |CreateRouteEvents(RecordDict(r), now)| == 1
    ensures var m := CreateRouteEvents(RecordDict(r), now)[0];
            m.kind == "new_request" && Field(m, "request_id") == Some(Str(r.id))
            && Field(m, "question") == Some(Str(r.question)) && Field(m, "caller_info") == Some(OptStr(r.callerInfo))
            && Field(m, "created_at") == Some(Stamp(r.createdAt))
  {
  }

  /** The `request_resolved` event for an answered request. */
  function RequestResolvedMessage(r: HelpRecord, now: Timestamp): (m: Envelope)
    ensures m.kind == "request_resolved" && Conforms(m) && m.timestamp == now
    ensures Field(m, "request_id") == Some(Str(r.id))
    ensures Field(m, "answer") == Some(OptStr(r.answer))
    ensures Field(m, "answered_by") == Some(OptStr(r.answeredBy))
    ensures Field(m, "resolved_at") == Some(OptStamp(r.resolvedAt))
  {
    var data := [("request_id", Str(r.id)), ("answer", OptStr(r.answer)),
                 ("answered_by", OptStr(r.answeredBy)), ("resolved_at", OptStamp(r.resolvedAt))];
    assert FieldNames(data) == ["request_id", "answer", "answered_by", "resolved_at"];
    FieldLookup(data);
    Envelope("request_resolved", data, now)
  }

  /** The `request_timeout` event for a timed-out request. */
  function RequestTimeoutMessage(r: HelpRecord, now: Timestamp): (m: Envelope)
    ensures m.kind == "request_timeout" && Conforms(m) && m.timestamp == now
    ensures Field(m, "request_id") == Some(Str(r.id))
    ensures Field(m, "question") == Some(Str(r.question))
    ensures Field(m, "created_at") == Some(Stamp(r.createdAt))
    ensures Field(m, "caller_info") == Some(OptStr(r.callerInfo))
  {
    var data := [("request_id", Str(r.id)), ("question", Str(r.question)),
                 ("created_at", Stamp(r.createdAt)), ("caller_info", OptStr(r.callerInfo))];
    assert FieldNames(data) == ["request_id", "question", "created_at", "caller_info"];
    FieldLookup(data);
    Envelope("request_timeout", data, now)
  }

  /** The `knowledge_base_updated` event. */
  function KbUpdatedMessage(question: string, answer: string, now: Timestamp): (m: Envelope)
    ensures m.kind == "knowledge_base_updated" && Conforms(m) && m.timestamp == now
    ensures Field(m, "question") == Some(Str(question))
    ensures Field(m, "answer") == Some(Str(answer))
  {
    var data := [("question", Str(question)), ("answer", Str(answer))];
    assert FieldNames(data) == ["question", "answer"];
    FieldLookup(data);
    Envelope("knowledge_base_updated", data, now)
  }

  // ================================================================ customer callback

  /** The text message `notify_customer_callback` composes (it only writes it to the log). */
  datatype CallbackNotice = CallbackNotice(to: string, question: string, answeredBy: string, answer: string)

  /** `notify_customer_callback`: each argument is `None` when the key is absent from the request
      dict. Absent keys default to "Anonymous", "", "" and "Supervisor"; the question is cut at 60
      characters and the answer at 100, with "..." only when something was cut. */
  function CustomerCallback(callerInfo: Option<string>, question: Option<string>,
                            answer: Option<string>, answeredBy: Option<string>): (n: CallbackNotice)
    ensures n.to == (if callerInfo.Some? then callerInfo.value else "Anonymous")
    ensures n.answeredBy == (if answeredBy.Some? then answeredBy.value else "Supervisor")
    ensures var q := question.GetOr("");
            && (|q| <= 60 ==> n.question == q)
            && (|q| > 60 ==> n.question == q[..60] + "..." && |n.question| == 63)
    ensures var a := answer.GetOr("");
            && (|a| <= 100 ==> n.answer == a)
            && (|a| > 100 ==> n.answer == a[..100] + "..." && |n.answer| == 103)
  {
    CallbackNotice(callerInfo.GetOr("Anonymous"),
                   TruncateString(question.GetOr(""), 60),
                   answeredBy.GetOr("Supervisor"),
                   TruncateString(answer.GetOr(""), 100))
  }

  // ================================================================ the registry as values

  /** `list.remove(x)` guarded by `x in list`: drop the first occurrence of `x`;
      a list without `x` stays as it is. */
  function RemoveFirst(s: seq<Connection>, x: Connection): (r: seq<Connection>)
    ensures x !in s ==> r == s
    ensures x in s ==> |r| == |s| - 1 && multiset(r) == multiset(s) - multiset{x}
  {
    if s == [] then []
    else if s[0] == x then (assert s == [s[0]] + s[1..]; s[1..])
    else (assert s == [s[0]] + s[1..]; [s[0]] + RemoveFirst(s[1..], x))
  }

  /** Removing the first occurrence, at `i`, keeps everything before and after it in order. */
  lemma {:induction false} RemoveFirstAt(s: seq<Connection>, x: Connection, i: nat)
    requires i < |s| && s[i] == x && x !in s[..i]
    ensures RemoveFirst(s, x) == s[..i] + s[i + 1..]
  {
    if i > 0 {
      var t := s[1..];
      assert s[0] in s[..i];
      assert s[..i] == [s[0]] + t[..i - 1];
      assert t[i..] == s[i + 1..];
      calc {
        RemoveFirst(s, x);
        [s[0]] + RemoveFirst(t, x);
        { RemoveFirstAt(t, x, i - 1); }
        [s[0]] + (t[..i - 1] + t[i..]);
        s[..i] + s[i + 1..];
      }
    } else {
      assert RemoveFirst(s, x) == s[1..];
    }
  }

  /** The disconnects of the broadcast clean-up, one after the other, in the order given. */
  function RemoveEach(s: seq<Connection>, xs: seq<Connection>): (r: seq<Connection>)
    ensures |r| <= |s|
  {
    if xs == [] then s else RemoveFirst(RemoveEach(s, xs[..|xs| - 1]), xs[|xs| - 1])
  }

  /** The connections whose send failed, in registry order. */
  function Failed(conns: seq<Connection>, outcomes: seq<bool>): (r: seq<Connection>)
    requires |outcomes| == |conns|
    ensures forall c :: c in r ==> c in conns
  {
    if conns == [] then []
    else
      var n := |conns| - 1;
      Failed(conns[..n], outcomes[..n]) + (if outcomes[n] then [] else [conns[n]])
  }

  /** The connections whose send succeeded, in registry order. */
  function Succeeded(conns: seq<Connection>, outcomes: seq<bool>): (r: seq<Connection>)
    requires |outcomes| == |conns|
    ensures forall c :: c in r ==> c in conns
  {
    if conns == [] then []
    else
      var n := |conns| - 1;
      Succeeded(conns[..n], outcomes[..n]) + (if outcomes[n] then [conns[n]] else [])
  }

  /** One send attempt per registered connection, in registry order. */
  function Attempts(conns: seq<Connection>, message: Envelope): (r: seq<(Connection, Envelope)>)
    ensures |r| == |conns| && forall i :: 0 <= i < |conns| ==> r[i] == (conns[i], message)
  {
    seq(|conns|, i requires 0 <= i < |conns| => (conns[i], message))
  }

  /** The elements of `s` outside `X`, in order. */
  function Without(s: seq<Connection>, X: set<Connection>): (r: seq<Connection>)
    ensures forall c :: c in r ==> c in s && c !in X
  {
    if s == [] then [] else Without(s[..|s| - 1], X) + (if s[|s| - 1] in X then [] else [s[|s| - 1]])
  }

  lemma {:induction false} WithoutConcat(a: seq<Connection>, b: seq<Connection>, X: set<Connection>)
    ensures Without(a + b, X) == Without(a, X) + Without(b, X)
  {
    if b != [] {
      var n := |b| - 1;
      assert (a + b)[..|a + b| - 1] == a + b[..n];
      WithoutConcat(a, b[..n], X);
    } else {
      assert a + b == a;
    }
  }

  lemma {:induction false} WithoutNothing(s: seq<Connection>, X: set<Connection>)
    requires forall c :: c in s ==> c !in X
    ensures Without(s, X) == s
  {
    if s != [] {
      var n := |s| - 1;
      var p, c := s[..n], s[n];
      assert s == p + [c];
      forall d | d in p ensures d !in X {
        assert d in s;
      }
      WithoutNothing(p, X);
      assert c in s;
    }
  }

  lemma {:induction false} WithoutUnused(s: seq<Connection>, X: set<Connection>, Y: set<Connection>)
    requires forall c :: c in s ==> c !in Y
    ensures Without(s, X + Y) == Without(s, X)
  {
    if s != [] {
      var n := |s| - 1;
      assert forall c :: c in s[..n] ==> c in s;
      WithoutUnused(s[..n], X, Y);
      assert s[n] in s;
      assert (s[n] in X + Y) == (s[n] in X);
    }
  }

  lemma {:induction false} WithoutTwice(s: seq<Connection>, X: set<Connection>, Y: set<Connection>)
    ensures Without(Without(s, X), Y) == Without(s, X + Y)
  {
    if s != [] {
      var n := |s| - 1;
      WithoutTwice(s[..n], X, Y);
      var last := if s[n] in X then [] else [s[n]];
      WithoutConcat(Without(s[..n], X), last, Y);
      if last != [] {
        assert Without(last, Y) == Without([], Y) + (if s[n] in Y then [] else [s[n]]);
      }
    }
  }

  lemma {:induction false} WithoutDistinct(s: seq<Connection>, X: set<Connection>)
    requires Distinct(s)
    ensures Distinct(Without(s, X))
  {
    if s != [] {
      var n := |s| - 1;
      assert Distinct(s[..n]);
      WithoutDistinct(s[..n], X);
      assert s[n] !in s[..n];
    }
  }

  /** In a registry without repeats, removing the first occurrence is removing every occurrence. */
  lemma {:induction false} RemoveFirstDistinct(s: seq<Connection>, x: Connection)
    requires Distinct(s)
    ensures RemoveFirst(s, x) == Without(s, {x})
  {
    if s != [] {
      var t := s[1..];
      assert s == [s[0]] + t;
      assert Distinct(t);
      WithoutConcat([s[0]], t, {x});
      assert Without([s[0]], {x}) == Without([], {x}) + (if s[0] in {x} then [] else [s[0]]);
      if s[0] == x {
        assert x !in t;
        WithoutNothing(t, {x});
      } else {
        RemoveFirstDistinct(t, x);
      }
    }
  }

  /** In a registry without repeats, the clean-up removes exactly the listed connections. */
  lemma {:induction false} RemoveEachDistinct(s: seq<Connection>, xs: seq<Connection>)
    requires Distinct(s)
    ensures RemoveEach(s, xs) == Without(s, set x | x in xs)
  {
    if xs == [] {
      assert (set x | x in xs) == {};
      WithoutNothing(s, {});
    } else {
      var n := |xs| - 1;
      RemoveEachDistinct(s, xs[..n]);
      var A := set x | x in xs[..n];
      calc {
        RemoveEach(s, xs);
        RemoveFirst(RemoveEach(s, xs[..n]), xs[n]);
        RemoveFirst(Without(s, A), xs[n]);
        { WithoutDistinct(s, A); RemoveFirstDistinct(Without(s, A), xs[n]); }
        Without(Without(s, A), {xs[n]});
        { WithoutTwice(s, A, {xs[n]}); }
        Without(s, A + {xs[n]});
        { ElementsSnoc(xs[..n], xs[n]); assert xs[..n] + [xs[n]] == xs; }
        Without(s, set x | x in xs);
      }
    }
  }

  /** The elements of a list one connection longer. */
  lemma ElementsSnoc(a: seq<Connection>, c: Connection)
    ensures (set x | x in a + [c]) == (set x | x in a) + {c}
  {
    assert forall x :: x in a + [c] <==> x in a || x == c;
  }

  /** The three filters, one connection further. */
  lemma Snoc(p: seq<Connection>, o: seq<bool>, c: Connection, ok: bool, X: set<Connection>)
    requires |o| == |p|
    ensures Failed(p + [c], o + [ok]) == Failed(p, o) + (if ok then [] else [c])
    ensures Succeeded(p + [c], o + [ok]) == Succeeded(p, o) + (if ok then [c] else [])
    ensures Without(p + [c], X) == Without(p, X) + (if c in X then [] else [c])
  {
    assert (p + [c])[..|p|] == p && (o + [ok])[..|o|] == o;
  }

  /** One more connection, not seen before, keeps the succeeded/failed correspondence. */
  lemma SucceededStep(p: seq<Connection>, o: seq<bool>, c: Connection, ok: bool)
    requires |o| == |p| && c !in p
    requires Succeeded(p, o) == Without(p, set x | x in Failed(p, o))
    ensures Succeeded(p + [c], o + [ok]) == Without(p + [c], set x | x in Failed(p + [c], o + [ok]))
  {
    var F := set x | x in Failed(p, o);
    var Fall := set x | x in Failed(p + [c], o + [ok]);
    Snoc(p, o, c, ok, Fall);
    assert c !in F;
    if ok {
      assert Failed(p + [c], o + [ok]) == Failed(p, o);
    } else {
      ElementsSnoc(Failed(p, o), c);
      WithoutUnused(p, F, {c});
    }
  }

  /** A registry without repeats, less its last connection, has no repeats and does not hold
      that connection. */
  lemma DistinctSnoc(s: seq<Connection>)
    requires s != [] && Distinct(s)
    ensures Distinct(s[..|s| - 1]) && s[|s| - 1] !in s[..|s| - 1]
  {
  }

  /** In a registry without repeats, the connections that succeeded are those that did not fail. */
  lemma {:induction false} SucceededAreNotFailed(conns: seq<Connection>, outcomes: seq<bool>)
    requires |outcomes| == |conns| && Distinct(conns)
    ensures Succeeded(conns, outcomes) == Without(conns, set c | c in Failed(conns, outcomes))
  {
    if conns != [] {
      var n := |conns| - 1;
      var p, o, c, ok := conns[..n], outcomes[..n], conns[n], outcomes[n];
      assert conns == p + [c] && outcomes == o + [ok];
      DistinctSnoc(conns);
      SucceededAreNotFailed(p, o);
      SucceededStep(p, o, c, ok);
    }
  }

  /** After a broadcast over a registry without repeats, exactly the connections whose send
      succeeded remain, in their original relative order. */
  lemma BroadcastKeepsSucceeded(conns: seq<Connection>, outcomes: seq<bool>)
    requires |outcomes| == |conns| && Distinct(conns)
    ensures RemoveEach(conns, Failed(conns, outcomes)) == Succeeded(conns, outcomes)
  {
    RemoveEachDistinct(conns, Failed(conns, outcomes));
    SucceededAreNotFailed(conns, outcomes);
  }

  lemma {:induction false} FailedSucceededSplit(conns: seq<Connection>, outcomes: seq<bool>)
    requires |outcomes| == |conns|
    ensures multiset(Failed(conns, outcomes)) + multiset(Succeeded(conns, outcomes)) == multiset(conns)
  {
    if conns != [] {
      var n := |conns| - 1;
      var p, o, c, ok := conns[..n], outcomes[..n], conns[n], outcomes[n];
      assert conns == p + [c] && outcomes == o + [ok];
      FailedSucceededSplit(p, o);
      Snoc(p, o, c, ok, {});
      assert multiset(conns) == multiset(p) + multiset{c};
    }
  }

  /** Removing each of `xs` in turn takes away exactly `xs`, when `s` holds all of them. */
  lemma {:induction false} RemoveEachMultiset(s: seq<Connection>, xs: seq<Connection>)
    requires multiset(xs) <= multiset(s)
    ensures multiset(RemoveEach(s, xs)) == multiset(s) - multiset(xs)
  {
    if xs != [] {
      var n := |xs| - 1;
      assert xs == xs[..n] + [xs[n]];
      assert multiset(xs[..n]) <= multiset(s);
      RemoveEachMultiset(s, xs[..n]);
      var r := RemoveEach(s, xs[..n]);
      assert multiset(s)[xs[n]] >= multiset(xs[..n])[xs[n]] + 1;
      assert multiset(r)[xs[n]] >= 1;
      assert xs[n] in r;
    }
  }

  /** Whatever the registry, the broadcast clean-up leaves exactly the successful connections,
      counted with repetition. */
  lemma BroadcastKeepsSucceededCounts(conns: seq<Connection>, outcomes: seq<bool>)
    requires |outcomes| == |conns|
    ensures multiset(RemoveEach(conns, Failed(conns, outcomes))) == multiset(Succeeded(conns, outcomes))
  {
    FailedSucceededSplit(conns, outcomes);
    RemoveEachMultiset(conns, Failed(conns, outcomes));
  }

  /** `connect` does not check for repeats, and `remove` takes the first occurrence, so when the
      same connection is registered twice and only its later send fails, the survivors come
      out in a different order than they were registered. */
  lemma RepeatedConnectionReorders(a: Connection, b: Connection)
    requires a != b
    ensures RemoveEach([a, b, a], Failed([a, b, a], [true, true, false])) == [b, a]
    ensures Succeeded([a, b, a], [true, true, false]) == [a, b]
  {
    assert [a, b, a][..2] == [a, b];
    assert [true, true, false][..2] == [true, true];
    assert [a, b][..1] == [a] && [true, true][..1] == [true];
    assert [a][..0] == [] && [true][..0] == [];
    assert Failed([a], [true]) == [];
    assert Failed([a, b], [true, true]) == [];
    assert Failed([a, b, a], [true, true, false]) == [a];
    assert RemoveEach([a, b, a], [a]) == RemoveFirst([a, b, a], a) == [b, a];
    assert Succeeded([a], [true]) == [a];
    assert Succeeded([a, b], [true, true]) == [a, b];
  }

  // ================================================================ the registry object

  /** `websocket.send_json(message)`: whether it raises is decided outside the program. */
  method SendJson(ws: Connection, message: Envelope) returns (ok: bool)
  {
    ok := *;
  }

  /** `ConnectionManager`: the open supervisor connections, in the order they connected. */
  class ConnectionManager {
    var activeConnections: seq<Connection>
    /** Every envelope handed to `broadcast`, in call order. */
    ghost var broadcasts: seq<Envelope>
    /** Every send attempted, in order, with the envelope it carried. */
    ghost var sends: seq<(Connection, Envelope)>

    constructor ()
      ensures activeConnections == [] && broadcasts == [] && sends == []
    {
      activeConnections := [];
      broadcasts := [];
      sends := [];
    }

    /** `connect`: after the handshake, the connection joins the end of the registry,
        even when it is already there. */
    method Connect(ws: Connection)
      modifies this
      ensures activeConnections == old(activeConnections) + [ws]
      ensures broadcasts == old(broadcasts) && sends == old(sends)
    {
      activeConnections := activeConnections + [ws];
    }

    /** `disconnect`: the first occurrence of a registered connection leaves; an unknown one
        changes nothing. */
    method Disconnect(ws: Connection)
      modifies this
      ensures activeConnections == RemoveFirst(old(activeConnections), ws)
      ensures broadcasts == old(broadcasts) && sends == old(sends)
    {
      if ws in activeConnections {
        activeConnections := RemoveFirst(activeConnections, ws);
      }
    }

    /** `broadcast`: one send per registered connection, in order, whatever the earlier sends
        did; then every connection whose send failed is disconnected, in registry order.
        `outcomes[i]` says whether the send to the i-th connection succeeded. */
    method Broadcast(message: Envelope) returns (outcomes: seq<bool>)
      modifies this
      ensures |outcomes| == |old(activeConnections)|
      ensures broadcasts == old(broadcasts) + [message]
      ensures sends == old(sends) + Attempts(old(activeConnections), message)
      ensures activeConnections
              == RemoveEach(old(activeConnections), Failed(old(activeConnections), outcomes))
      ensures old(activeConnections) == [] ==> activeConnections == [] && sends == old(sends)
    {
      broadcasts := broadcasts + [message];
      outcomes := [];
      if activeConnections == [] {
        return;
      }
      var failed;
      outcomes, failed := SendEach(message);
      DisconnectEach(failed);
    }

    /** The first loop of `broadcast`: attempt every send, collecting the failed connections. */
    method SendEach(message: Envelope) returns (outcomes: seq<bool>, failed: seq<Connection>)
      modifies this
      ensures |outcomes| == |activeConnections| && failed == Failed(activeConnections, outcomes)
      ensures activeConnections == old(activeConnections) && broadcasts == old(broadcasts)
      ensures sends == old(sends) + Attempts(activeConnections, message)
    {
      outcomes, failed := [], [];
      var i := 0;
      while i < |activeConnections|
        invariant 0 <= i <= |activeConnections| && |outcomes| == i
        invariant failed == Failed(activeConnections[..i], outcomes)
        invariant activeConnections == old(activeConnections) && broadcasts == old(broadcasts)
        invariant sends == old(sends) + Attempts(activeConnections[..i], message)
      {
        var ws := activeConnections[i];
        var ok := SendJson(ws, message);
        sends := sends + [(ws, message)];
        if !ok {
          failed := failed + [ws];
        }
        assert activeConnections[..i + 1] == activeConnections[..i] + [ws];
        outcomes := outcomes + [ok];
        i := i + 1;
      }
      assert activeConnections[..i] == activeConnections;
    }

    /** The clean-up loop of `broadcast`: disconnect each failed connection in turn. */
    method DisconnectEach(failed: seq<Connection>)
      modifies this
      ensures activeConnections == RemoveEach(old(activeConnections), failed)
      ensures broadcasts == old(broadcasts) && sends == old(sends)
    {
      var j := 0;
      while j < |failed|
        invariant 0 <= j <= |failed|
        invariant activeConnections == RemoveEach(old(activeConnections), failed[..j])
        invariant broadcasts == old(broadcasts) && sends == old(sends)
      {
        Disconnect(failed[j]);
        assert failed[..j + 1][..j] == failed[..j];
        j := j + 1;
      }
      assert failed[..j] == failed;
    }
  }

  /** The registry after a broadcast: what remains when some choice of send outcomes has
      had its failures removed. */
  ghost predicate AfterBroadcast(before: seq<Connection>, after: seq<Connection>) {
    exists outcomes: seq<bool> | |outcomes| == |before| :: after == RemoveEach(before, Failed(before, outcomes))
  }

  /** A broadcast never adds a connection: counted with repetition, the registry afterwards
      is part of the one before. */
  lemma AfterBroadcastShrinks(before: seq<Connection>, after: seq<Connection>)
    requires AfterBroadcast(before, after)
    ensures multiset(after) <= multiset(before)
  {
    var outcomes :| |outcomes| == |before| && after == RemoveEach(before, Failed(before, outcomes));
    BroadcastKeepsSucceededCounts(before, outcomes);
    FailedSucceededSplit(before, outcomes);
  }

  /** The send log `after` is `before` followed by sends that each went to a connection of
      `registry` and carried one of `messages`. */
  ghost predicate SentSince(before: seq<(Connection, Envelope)>, after: seq<(Connection, Envelope)>,
                            registry: seq<Connection>, messages: seq<Envelope>)
  {
    |before| <= |after| && after[..|before|] == before
    && forall k :: |before| <= k < |after| ==> after[k].0 in registry && after[k].1 in messages
  }

  /** One more broadcast of `m`, over a registry that holds no connection `registry` lacks,
      keeps the log of this form, with `m` among the messages. */
  lemma SentSinceStep(before: seq<(Connection, Envelope)>, log: seq<(Connection, Envelope)>,
                      current: seq<Connection>, registry: seq<Connection>, messages: seq<Envelope>, m: Envelope)
    requires SentSince(before, log, registry, messages)
    requires multiset(current) <= multiset(registry)
    ensures SentSince(before, log + Attempts(current, m), registry, messages + [m])
  {
    var log' := log + Attempts(current, m);
    forall k | |before| <= k < |log'| ensures log'[k].0 in registry && log'[k].1 in messages + [m] {
      if k < |log| {
        assert log'[k] == log[k];
      } else {
        var i := k - |log|;
        assert log'[k] == (current[i], m);
        assert current[i] in multiset(current);
      }
    }
    assert log'[..|before|] == log[..|before|];
  }

  /** The first send after `before`, when there is one, went to a connection of `registry`. */
  lemma FirstSentTo(before: seq<(Connection, Envelope)>, after: seq<(Connection, Envelope)>,
                    registry: seq<Connection>, messages: seq<Envelope>)
    requires SentSince(before, after, registry, messages) && |before| < |after|
    ensures after[|before|].0 in registry
  {
  }

  /** With no connection registered, nothing is sent. */
  lemma SentSinceNobody(before: seq<(Connection, Envelope)>, after: seq<(Connection, Envelope)>,
                        messages: seq<Envelope>)
    requires SentSince(before, after, [], messages)
    ensures after == before
  {
    if |before| < |after| {
      FirstSentTo(before, after, [], messages);
      assert false;
    }
    assert after == after[..|before|];
  }

  /** `NotificationService`: builds the envelopes and hands them to the registry. */
  class NotificationService {
    const manager: ConnectionManager

    constructor (manager: ConnectionManager)
      ensures this.manager == manager
    {
      this.manager := manager;
    }

    /** Broadcast one envelope; every notifier below is this with a different envelope. */
    method Send(message: Envelope)
      modifies manager
      ensures manager.broadcasts == old(manager.broadcasts) + [message]
      ensures manager.sends == old(manager.sends) + Attempts(old(manager.activeConnections), message)
      ensures AfterBroadcast(old(manager.activeConnections), manager.activeConnections)
    {
      var outcomes := manager.Broadcast(message);
    }

    /** `notify_new_request`. */
    method NotifyNewRequest(r: HelpRecord, now: Timestamp)
      modifies manager
      ensures manager.broadcasts == old(manager.broadcasts) + [NewRequestMessage(r, now)]
      ensures manager.sends == old(manager.sends) + Attempts(old(manager.activeConnections), NewRequestMessage(r, now))
      ensures AfterBroadcast(old(manager.activeConnections), manager.activeConnections)
    {
      Send(NewRequestMessage(r, now));
    }

    /** `notify_request_resolved`. */
    method NotifyRequestResolved(r: HelpRecord, now: Timestamp)
      modifies manager
      ensures manager.broadcasts == old(manager.broadcasts) + [RequestResolvedMessage(r, now)]
      ensures manager.sends
              == old(manager.sends) + Attempts(old(manager.activeConnections), RequestResolvedMessage(r, now))
      ensures AfterBroadcast(old(manager.activeConnections), manager.activeConnections)
    {
      Send(RequestResolvedMessage(r, now));
    }

    /** `notify_request_timeout`. */
    method NotifyRequestTimeout(r: HelpRecord, now: Timestamp)
      modifies manager
      ensures manager.broadcasts == old(manager.broadcasts) + [RequestTimeoutMessage(r, now)]
      ensures manager.sends
              == old(manager.sends) + Attempts(old(manager.activeConnections), RequestTimeoutMessage(r, now))
      ensures AfterBroadcast(old(manager.activeConnections), manager.activeConnections)
    {
      Send(RequestTimeoutMessage(r, now));
    }

    /** `notify_kb_updated`. */
    method NotifyKbUpdated(question: string, answer: string, now: Timestamp)
      modifies manager
      ensures manager.broadcasts == old(manager.broadcasts) + [KbUpdatedMessage(question, answer, now)]
      ensures manager.sends
              == old(manager.sends) + Attempts(old(manager.activeConnections), KbUpdatedMessage(question, answer, now))
      ensures AfterBroadcast(old(manager.activeConnections), manager.activeConnections)
    {
      Send(KbUpdatedMessage(question, answer, now));
    }
  }
}
