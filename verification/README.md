# Salon receptionist escalation backend, modelled in Dafny

The backend behind an AI phone receptionist for a hair salon. When the voice agent cannot
answer a caller, it creates a *help request*. A help request is a record under
`/help_requests/{id}` in a key-value tree store, with status `pending` and a deadline two
hours after creation. A supervisor then *answers* it. Answering sets the status to
`resolved`, stores the answer and records a *learned* entry in the knowledge base under
`/knowledge_base/{id}`. A background *timeout service* sweeps the store every five minutes
and marks every pending request whose deadline has passed as `timeout`. Changes are
announced as JSON envelopes broadcast to the supervisors' open WebSocket connections: an
answered request, each request the sweep times out, and a knowledge entry created by hand.
The learned entry that an answer records, `timeout_request` and use-count increments
announce nothing, and the create route's announcement of a new request never goes out
(see "## Findings"). The voice
agent's static salon facts, their quick keyword lookup and the prompt text built from them
live in the salon context.

The model has these modules:

- `Wrappers`: `Option` and `Result`.
- `Models`: the status and source enumerations with their string values, the stored record
  shapes with their defaults, and the request-body validators.
- `Helpers`: `truncate_string`, `format_timestamp`, `parse_timestamp` and the ASCII text
  helpers.
- `Ordering`: the descending sort that `list.sort(key=…, reverse=True)` performs.
- `Store`: the store tree. `Node` is either a dict of children or a non-dict value, and
  `Value` is a child that is either a record or a non-dict marker such as the
  `"initialized": true` setup entry. The `Database` class holds the two subtrees that the
  service reads and writes.
- `FirebaseService`: every store operation of the service. Each one is written as a method on
  `Database`. It is specified by a function of the old tree, and lemmas about those
  functions carry the properties: stats bookkeeping, listing membership and order, and
  last-wins export.
- `Notifications`: the four envelope builders and the customer-callback notice. It also holds
  the `ConnectionManager` class, whose field is the list of live connections, and the
  `NotificationService` class that broadcasts through it.
- `Timeouts`: the sweep as a value-level function (`Sweep` = scan, then write back). It also
  holds the `TimeoutService` class with its `running` flag and the imperative sweep that
  implements the function.
- `SalonContext`: the 20 topic keys of the initial knowledge base in their declared order,
  the quick-answer lookup over any keys and answers, and the knowledge-base prompt string
  built from any list of entries.
- `SalonKnowledgeBase`: the 20 answer texts, the initial knowledge base that pairs them with
  the keys, and the module-level functions of the salon context applied to it.

The model follows the code, which differs from the written design in two places:

- `answer_request` and `timeout_request` do not check that the record is still pending, so
  a terminal record is overwritten.
- The sweep is a blind read-modify-write. It stores again the snapshot that it scanned, so an
  answer written between its scan and its write is lost. The lemma
  `Timeouts.AnswerDuringSweepIsLost` shows this.

Clock readings are integer parameters (`now`, `later`, `clock`). Generated identifiers
(`uuid4`) are key parameters. The enumeration order of a store dict is a parameter `order`
that lists the snapshot's keys exactly once (`Store.ListsChildren`).

## Model

| member | source | states |
|---|---|---|
| Models.ParseRequestStatus | backend/app/models/firebase_models.py:9-13 | a string parses to a status exactly when it is one of "pending", "resolved", "timeout", and the parsed status has that string as its value |
| Models.StatusValuesDistinct | backend/app/models/firebase_models.py:9-13 | the three status strings are pairwise different |
| Models.RequestStatusRoundTrip | backend/app/models/firebase_models.py:9-13 | parsing a status's value gives that status back |
| Models.ParseKnowledgeSource | backend/app/models/firebase_models.py:15-19 | a string parses to a source exactly when it is "initial", "learned" or "manual" |
| Models.KnowledgeSourceRoundTrip | backend/app/models/firebase_models.py:15-19 | parsing a source's value gives that source back |
| Models.DefaultHelpRequest | backend/app/models/firebase_models.py:51-67 | a new help request is pending, has no answer, answerer, resolution time, caller or callback info, and has attempt count 0 |
| Models.DefaultKbEntry | backend/app/models/firebase_models.py:87-97 | a new knowledge entry has source "manual" and use count 0 |
| Models.ValidateCreateBody | backend/app/models/firebase_models.py:23-27 | the body is accepted iff the question has 5 to 500 characters, a given caller_info has at most 255 and session_id has at most 255; on rejection, exactly the violated fields are reported |
| Models.ValidateAnswerBody | backend/app/models/firebase_models.py:38-41 | the body is accepted iff the answer has 5 to 2000 characters and supervisor_name has at most 100; on rejection, exactly the violated fields are reported |
| Helpers.SliceTo | backend/app/utils/helpers.py:29 | Python's `text[:n]`, including negative `n`; the result is always a prefix of the text |
| Helpers.TruncateString | backend/app/utils/helpers.py:26-30 | text no longer than the limit is returned unchanged; longer text becomes its first `length` characters plus "...", which is `length + 3` characters |
| Helpers.TruncateIdempotent | backend/app/utils/helpers.py:26-30 | for a non-negative limit, truncating twice equals truncating once |
| Helpers.TruncateNegativeLimitNotIdempotent | backend/app/utils/helpers.py:26-30 | with a negative limit the ellipsis is appended again on every call |
| Helpers.FormatTimestamp | backend/app/utils/helpers.py:6-10 | text is returned as it is; a datetime is rendered by `isoformat` |
| Helpers.ParseTimestamp | backend/app/utils/helpers.py:12-16 | a datetime is returned as it is; text is parsed by `fromisoformat` |
| Helpers.FormatThenParse | backend/app/utils/helpers.py:6-16 | parsing the formatted form of a datetime gives the datetime back, whenever `fromisoformat` inverts `isoformat` |
| Helpers.Lower | backend/app/services/firebase_service.py:425 | lower-casing keeps the length and maps each character by itself |
| Helpers.ReplaceChar | backend/app/services/firebase_service.py:425 | every occurrence of one character is replaced and nothing else changes |
| Ordering.InsertDesc | backend/app/services/firebase_service.py:112 | inserting adds exactly the one element |
| Ordering.SortDesc | backend/app/services/firebase_service.py:112 | sorting is a permutation of its input |
| Ordering.InsertDescSorted | backend/app/services/firebase_service.py:112 | insertion into a descending list keeps it descending by the key |
| Ordering.SortDescCorrect | backend/app/services/firebase_service.py:112 | the sort result is descending by the key and a permutation of the input |
| Store.Child | backend/app/services/firebase_service.py:198 | reading a child finds a value iff the key is among the node's children |
| Store.Write | backend/app/services/firebase_service.py:209 | writing a child sets that key and leaves every other child as it was |
| Store.EnumerationLength | backend/app/services/firebase_service.py:98 | an enumeration of a dict lists as many keys as the dict has children |
| FirebaseService.CallerOrAnonymous | backend/app/services/firebase_service.py:53 | an empty or missing caller is stored as "Anonymous"; any other caller is stored as given |
| FirebaseService.CreatedRecord | backend/app/services/firebase_service.py:45-70 | the stored record is the default pending request with the caller and callback info filled in; its deadline is at least two hours after its creation time |
| FirebaseService.CreateHelpRequest | backend/app/services/firebase_service.py:25-75 | the new record is written under the fresh id, and the knowledge base is unchanged |
| FirebaseService.CreateAddsOneKey | backend/app/services/firebase_service.py:45-70 | creating under a fresh id adds exactly one child, which is pending, unanswered and has attempt count 0 |
| FirebaseService.CollectRequests | backend/app/services/firebase_service.py:98-109 | the loop collects, in enumeration order, the dict children that are not the setup marker and (for the pending listing) whose status is pending |
| FirebaseService.GetPendingRequests | backend/app/services/firebase_service.py:84-117 | the result is `PendingRequests`: the collected pending records, sorted newest first |
| FirebaseService.GetAllHelpRequests | backend/app/services/firebase_service.py:120-153 | the result is `AllHelpRequests`: every collected record, sorted newest first |
| FirebaseService.CollectedMembers | backend/app/services/firebase_service.py:98-109 | a record is collected iff some enumerated key holds it and passes the listing filter |
| FirebaseService.PendingRequestsExact | backend/app/services/firebase_service.py:84-117 | the pending listing is sorted newest first and contains exactly the pending records stored under real keys |
| FirebaseService.AllHelpRequestsExact | backend/app/services/firebase_service.py:120-153 | the full listing is sorted newest first and contains exactly the records stored under real keys |
| FirebaseService.GetRequestById | backend/app/services/firebase_service.py:156-175 | a request is found iff its id holds a dict record, and then it is that record |
| FirebaseService.ResolvedRecord | backend/app/services/firebase_service.py:198-209 | answering sets status resolved, the answer, the answerer and the resolution time, and keeps every other field |
| FirebaseService.TimedOutRecord | backend/app/services/firebase_service.py:240-245 | a timeout changes only the status, to "timeout" |
| FirebaseService.AnswerRequest | backend/app/services/firebase_service.py:178-226 | a missing or non-dict id fails and changes nothing; otherwise the record is resolved in place, whatever its previous status, and a learned knowledge entry with the original question and the answer is written |
| FirebaseService.TimeoutRequest | backend/app/services/firebase_service.py:229-253 | a missing or non-dict id fails and changes nothing; otherwise only the record's status becomes timeout, and the knowledge base is untouched |
| FirebaseService.AnswerOverridesTerminalStatus | backend/app/services/firebase_service.py:198-209 | answering an already resolved or timed-out request still succeeds and overwrites it, and a later timeout overwrites the answer's status again |
| FirebaseService.GetStats | backend/app/services/firebase_service.py:256-292 | the total is the sum of the three counts, and an empty store gives all zeros |
| FirebaseService.GetStatsCounts | backend/app/services/firebase_service.py:265-288 | each count is the number of dict children with that status |
| FirebaseService.StatsTotalCountsKnownStatuses | backend/app/services/firebase_service.py:265-288 | the total counts only records whose status is one of the three known values, not every child |
| FirebaseService.CountAfterFreshPending | backend/app/services/firebase_service.py:265-288 | adding a pending record under a fresh key raises pending and total by one and leaves the rest |
| FirebaseService.StatsAfterCreate | backend/app/services/firebase_service.py:45-70 | after a creation, the stats show one more pending request and one more in total |
| FirebaseService.CountAfterResolvingPending | backend/app/services/firebase_service.py:265-288 | turning a pending record into a resolved one moves one unit from pending to resolved |
| FirebaseService.StatsAfterAnswer | backend/app/services/firebase_service.py:198-209 | answering a pending request moves one unit from pending to resolved, and the total stays the same |
| FirebaseService.StatsExample | backend/app/services/firebase_service.py:265-288 | two pending, one resolved, one timed-out record and the setup marker give stats (2, 1, 1, 4) |
| FirebaseService.NewKbEntry | backend/app/services/firebase_service.py:312-320 | a new entry has the given source, use count 0, and equal creation and update times |
| FirebaseService.ManualEntryIsDefaultEntry | backend/app/services/firebase_service.py:387-395 | a manually created entry is the model's default entry |
| FirebaseService.AddToKnowledgeBase | backend/app/services/firebase_service.py:297-335 | a learned entry is written under the fresh id, and the help requests are unchanged |
| FirebaseService.CreateKbEntry | backend/app/services/firebase_service.py:372-408 | a manual entry is written under the fresh id, and the help requests are unchanged |
| FirebaseService.NoDeduplicationByQuestion | backend/app/services/firebase_service.py:307-323 | adding an entry whose question is already present still adds a new child and keeps the old one |
| FirebaseService.CollectedKb | backend/app/services/firebase_service.py:353-362 | the collected entries are no more than the enumerated keys |
| FirebaseService.GetAllKbEntries | backend/app/services/firebase_service.py:338-369 | the result is the collected entries, sorted most recently updated first |
| FirebaseService.CollectedKbMembers | backend/app/services/firebase_service.py:353-362 | an entry is collected iff some enumerated key holds it and passes the listing filter |
| FirebaseService.AllKbEntriesExact | backend/app/services/firebase_service.py:338-369 | the listing is sorted by update time, newest first, and contains exactly the stored entries under real keys that carry a use count |
| FirebaseService.NormalizeKey | backend/app/services/firebase_service.py:425 | the export key is as long as the question's first 50 characters (the whole question when shorter) and has no spaces; each of its characters is the lower-cased question character at that position, with a space turned into an underscore |
| FirebaseService.NormalizeKeyIdempotent | backend/app/services/firebase_service.py:425 | normalizing a normalized key changes nothing |
| FirebaseService.GetKbAsDict | backend/app/services/firebase_service.py:411-432 | the loop builds `KbDict`, the export dict of the enumerated entries |
| FirebaseService.KbDictSound | backend/app/services/firebase_service.py:420-428 | every exported key comes from some enumerated entry whose question normalizes to it |
| FirebaseService.KbDictComplete | backend/app/services/firebase_service.py:420-428 | every enumerated entry with a question and an answer exports its normalized key |
| FirebaseService.KbDictKeys | backend/app/services/firebase_service.py:420-428 | a key is exported if and only if some enumerated entry normalizes to it |
| FirebaseService.KbDictLast | backend/app/services/firebase_service.py:420-428 | an exported key maps to the answer of the last enumerated entry that normalizes to it |
| FirebaseService.KbDictLastWins | backend/app/services/firebase_service.py:420-428 | a key is exported iff some entry normalizes to it; when several entries collide, the answer of the last one enumerated wins |
| FirebaseService.IncrementedEntry | backend/app/services/firebase_service.py:446-449 | the use count becomes the old count (0 if missing) plus one, the update time becomes now, and nothing else changes |
| FirebaseService.IncrementKbUseCount | backend/app/services/firebase_service.py:435-450 | an existing dict entry is incremented in place; a missing or non-dict id changes nothing |
| Notifications.FieldIn | backend/app/services/notification_service.py:60-69 | a field is found iff its name is among the envelope's data names |
| Notifications.FieldLookup | backend/app/services/notification_service.py:60-69 | with distinct field names, each field reads back the value it was built with |
| Notifications.NewRequestMessage | backend/app/services/notification_service.py:53-72 | the envelope has type "new_request", exactly its schema's fields, the request's id, question, caller and creation time, and the send-time timestamp |
| Notifications.RequestResolvedMessage | backend/app/services/notification_service.py:74-93 | the envelope has type "request_resolved", exactly its schema's fields, and the request's id, answer, answerer and resolution time |
| Notifications.RequestTimeoutMessage | backend/app/services/notification_service.py:140-159 | the envelope has type "request_timeout", exactly its schema's fields, and the request's id, question, creation time and caller |
| Notifications.KbUpdatedMessage | backend/app/services/notification_service.py:161-179 | the envelope has type "knowledge_base_updated", exactly its schema's fields, and the question and answer |
| Notifications.CustomerCallback | backend/app/services/notification_service.py:95-138 | the recipient defaults to "Anonymous" and the answerer to "Supervisor"; the question is cut at 60 characters and the answer at 100, with "..." only when they are longer |
| Notifications.RemoveFirst | backend/app/services/notification_service.py:17-21 | disconnecting an unregistered connection changes nothing; otherwise one occurrence of it is removed |
| Notifications.RemoveFirstAt | backend/app/services/notification_service.py:19-20 | the removed occurrence is the first one |
| Notifications.Attempts | backend/app/services/notification_service.py:36-38 | one send of the message is attempted on every registered connection, in order |
| Notifications.Failed | backend/app/services/notification_service.py:39-41 | the failed connections are among the registered ones |
| Notifications.Succeeded | backend/app/services/notification_service.py:36-38 | the connections that received the message are among the registered ones |
| Notifications.SucceededAreNotFailed | backend/app/services/notification_service.py:36-41 | with distinct connections, the ones that received the message are exactly the registered ones that did not fail, in order |
| Notifications.BroadcastKeepsSucceeded | backend/app/services/notification_service.py:23-45 | with distinct connections, a broadcast leaves registered exactly the connections that received the message, in their order |
| Notifications.FailedSucceededSplit | backend/app/services/notification_service.py:36-41 | every attempted connection either failed or succeeded, and none does both |
| Notifications.RemoveEachMultiset | backend/app/services/notification_service.py:43-44 | removing each failed connection takes exactly those occurrences out |
| Notifications.BroadcastKeepsSucceededCounts | backend/app/services/notification_service.py:23-45 | even with repeated registrations, the survivors of a broadcast are, as a multiset, exactly the successful sends |
| Notifications.RepeatedConnectionReorders | backend/app/services/notification_service.py:19-20 | a connection registered twice that fails on its second send is removed at its first position, so the survivors are reordered |
| Notifications.ConnectionManager.Connect | backend/app/services/notification_service.py:11-15 | the connection is appended to the registry |
| Notifications.ConnectionManager.Disconnect | backend/app/services/notification_service.py:17-21 | the registry loses the first occurrence of the connection, if any |
| Notifications.ConnectionManager.Broadcast | backend/app/services/notification_service.py:23-45 | the message is tried on every old connection in order; exactly the failed ones are then removed; with no connections nothing is sent |
| Notifications.ConnectionManager.SendEach | backend/app/services/notification_service.py:36-41 | the send loop attempts every connection once and records exactly the failed ones |
| Notifications.ConnectionManager.DisconnectEach | backend/app/services/notification_service.py:43-44 | each failed connection is disconnected in turn |
| Notifications.NewRequestEnvelope | backend/app/services/notification_service.py:53-72 | the "new_request" envelope is built exactly when the argument is a dict; a response object without `.get` raises before any broadcast |
| Notifications.CreateRouteNeverNotifies | backend/app/api/routes/help_requests.py:118-128 | the create route, which passes the response object, broadcasts no event about the new request |
| Notifications.CreateRouteWithDictNotifies | backend/app/api/routes/help_requests.py:118-128 | passing the record as a dict broadcasts one "new_request" event with the record's id, question, caller and creation time |
| Notifications.AfterBroadcastShrinks | backend/app/services/notification_service.py:23-45 | a broadcast never adds a connection: the registry afterwards is, counted with repetition, part of the one before |
| Notifications.SentSinceStep | backend/app/services/notification_service.py:36-41 | one more broadcast over a registry within the starting one only sends that message to starting connections |
| Notifications.SentSinceNobody | backend/app/services/notification_service.py:36-41 | with no connection registered, a run of broadcasts sends nothing |
| Notifications.NotificationService.Send | backend/app/services/notification_service.py:71-72 | a notification is a single broadcast through the shared manager |
| Notifications.NotificationService.NotifyNewRequest | backend/app/services/notification_service.py:53-72 | the "new_request" envelope of the record is broadcast to every registered connection |
| Notifications.NotificationService.NotifyRequestResolved | backend/app/services/notification_service.py:74-93 | the "request_resolved" envelope of the record is broadcast to every registered connection |
| Notifications.NotificationService.NotifyRequestTimeout | backend/app/services/notification_service.py:140-159 | the "request_timeout" envelope of the record is broadcast to every registered connection |
| Notifications.NotificationService.NotifyKbUpdated | backend/app/services/notification_service.py:161-179 | the "knowledge_base_updated" envelope is broadcast to every registered connection |
| Timeouts.NextDelay | backend/app/services/timeout_service.py:26-33 | the loop waits 300 seconds after a sweep and 60 seconds after an error |
| Timeouts.ScanExpired | backend/app/services/timeout_service.py:44-60 | the scan collects only enumerated dict records, not the setup marker, that are pending with a parsable deadline at or before now, each paired with its snapshot |
| Timeouts.Keys | backend/app/services/timeout_service.py:65 | the ids of the collected pairs, in order |
| Timeouts.SweepAt | backend/app/services/timeout_service.py:44-70 | a sweep keeps every key; an expired record becomes its snapshot with status timeout, and every other child is unchanged |
| Timeouts.ScanNothing | backend/app/services/timeout_service.py:44-62 | when nothing has expired, the scan is empty |
| Timeouts.SweepIdempotent | backend/app/services/timeout_service.py:44-70 | a second sweep at the same time finds nothing and changes nothing |
| Timeouts.ScanKeySet | backend/app/services/timeout_service.py:49-58 | the scan's ids are exactly the enumerated keys whose child has expired |
| Timeouts.ScanCollects | backend/app/services/timeout_service.py:49-58 | every enumerated expired child is collected |
| Timeouts.ScanKeysDistinct | backend/app/services/timeout_service.py:49-58 | over a duplicate-free enumeration, no id is collected twice |
| Timeouts.OneEventPerExpiredRecord | backend/app/services/timeout_service.py:44-70 | a sweep collects each expired record exactly once, so it emits exactly one timeout event per expired record |
| Timeouts.TimeoutMessagesInScanOrder | backend/app/services/timeout_service.py:65-70 | the i-th event is a "request_timeout" for the i-th collected record |
| Timeouts.CreatedRequestExpires | backend/app/services/firebase_service.py:47 | a freshly created request is collected by a sweep exactly when now is at least two hours after the clock reading its deadline was computed from |
| Timeouts.WriteBackOverwrites | backend/app/services/timeout_service.py:65-67 | the value written for a collected id does not depend on what the store holds at write time |
| Timeouts.AnswerDuringSweepIsLost | backend/app/services/timeout_service.py:44-70 | an answer stored between the scan and the write-back is overwritten by the timed-out snapshot, which has no answer |
| Timeouts.CollectExpired | backend/app/services/timeout_service.py:49-60 | the scan loop computes `ScanExpired` |
| Timeouts.TimeoutService.constructor | backend/app/services/timeout_service.py:9-11 | a new service is not running |
| Timeouts.TimeoutService.Start | backend/app/services/timeout_service.py:13-17 | start sets the running flag |
| Timeouts.TimeoutService.Stop | backend/app/services/timeout_service.py:19-22 | stop clears the running flag |
| Timeouts.TimeoutService.ProcessTimeouts | backend/app/services/timeout_service.py:35-81 | the store becomes `Sweep` of the snapshot, and one timeout event per collected record is broadcast in scan order; an empty sweep writes nothing; the knowledge base is unchanged; the registry only loses connections, every send goes to a connection registered at the start and carries one of the sweep's events, and with nobody registered nothing is sent |
| Timeouts.WriteBackStep | backend/app/services/timeout_service.py:65-70 | writing back one more collected record adds its timed-out snapshot to the tree and its event to the end of the event list |
| Timeouts.TimeoutService.TimeOutOne | backend/app/services/timeout_service.py:66-70 | one collected record is stored again with status timeout, and exactly one timeout event for it is broadcast: sent once to each registered connection, after which only the failed ones are dropped; the knowledge base is unchanged |
| Timeouts.TimeoutService.WriteBackAll | backend/app/services/timeout_service.py:62-70 | each collected snapshot is written back with status timeout, and its event is broadcast; the registry only loses connections, and every send goes to a starting connection with one of these events |
| Timeouts.TimeoutService.CheckTimeoutsStep | backend/app/services/timeout_service.py:24-33 | a stopped service changes nothing, registry and logs included; a running one sweeps, broadcasts one timeout event per expired record in scan order, only drops connections, and waits 300 seconds |
| SalonContext.Pairs | backend/agent/salon_context.py:47-118 | the initial knowledge base pairs the i-th key with the i-th answer text, for every position |
| SalonContext.FirstMatch | backend/agent/salon_context.py:196-199 | the first key contained in the text: it occurs and no earlier key does; none when no key occurs |
| SalonContext.FindQuickAnswer | backend/agent/salon_context.py:194-201 | the loop returns the answer of the first key occurring in the lower-cased query, or "" when none occurs |
| SalonContext.ShadowedKey | backend/agent/salon_context.py:196-199 | a key that begins with an earlier key is never the first match, whatever the query |
| SalonContext.ParkingPaidNeverAnswered | backend/agent/salon_context.py:47-118 | "parking" comes before "parking_paid" and begins it, so the lookup never picks "parking_paid" and its answer is never returned |
| SalonContext.TitleCase | backend/agent/salon_context.py:131 | each letter is upper-cased at the start of a run of letters and lower-cased inside one |
| SalonContext.CaseKeepsLetters | backend/agent/salon_context.py:131 | changing case keeps letters letters, and the case maps absorb each other |
| SalonContext.TitleCaseIdempotent | backend/agent/salon_context.py:131 | title-casing a title-cased text changes nothing |
| SalonContext.Title | backend/agent/salon_context.py:131 | an entry heading has as many characters as its key; an underscore becomes a space; a letter is upper-cased at the start of a word and lower-cased inside one; every other character is kept |
| SalonContext.JoinConcat | backend/agent/salon_context.py:130-132 | appending texts item by item over two runs gives the first run's text followed by the second's |
| SalonContext.BlocksConcat | backend/agent/salon_context.py:130-132 | the prompt text of consecutive entries is the concatenation of their texts |
| SalonContext.BlocksLayout | backend/agent/salon_context.py:130-132 | each entry's heading and value appear in the prompt between the earlier and the later entries |
| SalonContext.BuildKnowledgeString | backend/agent/salon_context.py:128-134 | the loop produces the header followed by one block per entry, in order |
| SalonKnowledgeBase.GetQuickAnswer | backend/agent/salon_context.py:183-201 | the keyword lookup over the initial knowledge base's keys and answers |
| SalonKnowledgeBase.GetKnowledgeBaseString | backend/agent/salon_context.py:120-134 | the header followed by one block per initial entry, in order |
| SalonKnowledgeBase.FormatKnowledgeForPrompt | backend/agent/salon_context.py:174-181 | the same text as `get_knowledge_base_string` |
| SalonKnowledgeBase.GetKnowledgeBaseDict | backend/agent/salon_context.py:136-144 | a copy of the initial knowledge base whose keys are the 20 topic keys, in declared order |

## Left out

- The store client, its network I/O and its failures: `Database` holds the two subtrees as values. The `try`/`except` paths that turn a store exception into an empty listing, `None`, a re-raised error or a silent return are not modelled.
- Records with missing or ill-typed fields (a `KeyError` in the response projection, a non-string `status`) are not modelled. In the source, the listings skip such a record and `get_request_by_id` returns `None` for it, while the sweep skips a pending record with no `timeout_at` just as one whose deadline does not parse. The exception is a knowledge entry without `use_count`, which the listing skips.
- The `HelpRequestResponse` and `KnowledgeBaseResponse` projections: listings return whole records.
- Ids that contain "/" or are empty (path semantics of `ref.child`) are not modelled.
- The HTTP routes are not part of this model, apart from what the create route hands to `notify_new_request` (see "## Findings").
- Timestamps are integers rather than ISO strings, so sorting by `created_at` or `updated_at` compares times rather than text. A deadline that does not parse is `Unparsable`, and `datetime.fromisoformat` is a function parameter.
- Ordering.SortDescCorrect: states order and permutation only. The definition keeps equal keys in collection order, as Python's stable sort does, but no lemma states that.
- Helpers.Lower: ASCII letters only; `str.lower` on other Unicode letters is not modelled.
- FirebaseService.NormalizeKey: lower-cases ASCII letters only, for the same reason.
- SalonKnowledgeBase.GetKnowledgeBaseDict: states that the copy has the topic keys in declared order; that each key carries its own answer text follows from `SalonContext.Pairs` and is not repeated here. The dict is a list of pairs in insertion order.
- SalonContext.TitleCase: treats only ASCII letters as cased, whereas `str.title` uses every Unicode cased character.
- Notifications.ConnectionManager.Broadcast: a send's success is a nondeterministic choice. Which sockets fail and the exception raised are not modelled.
- Notifications.NotificationService.NotifyNewRequest: the envelope's `timestamp` is the `now` parameter rather than `datetime.utcnow()`. The same holds for the other notify methods. In the sweep, the k-th event is stamped `clock(k)`.
- `notify_customer_callback` only prints. Its output is modelled as the `CallbackNotice` value; the printed text and every other log line are left out.
- Timeouts.TimeoutService.CheckTimeoutsStep: models one iteration of the loop, not the background task (`asyncio.create_task`) or `asyncio.sleep`. `_process_timeouts` catches every exception itself, so the 60-second retry branch cannot be reached; `NextDelay` still states it.
- Concurrency: operations are sequential. The race between an answer and a sweep appears only as the interleaving in `Timeouts.AnswerDuringSweepIsLost`; nothing in the model or the code prevents it.
- A `caller_info` key that is present with the value `None` is not modelled. A missing caller is `None` in the model.
- The system prompt text, voice configuration, personality and error-message constants in the salon context are data for the agent. They are not part of this model.

## Findings

| source | as written | input that shows it | evidently intended | confidence | as-written member | corrected member |
|---|---|---|---|---|---|---|
| backend/app/api/routes/help_requests.py:118-128 | the create route passes the `HelpRequestResponse` object returned by `create_help_request` to `notify_new_request`, whose first `request_data.get("id")` raises `AttributeError`; the route catches and prints it | any successful create, e.g. question "Do you do perms?" with one supervisor connected: no "new_request" event is sent | the record is passed as a dict (`result.model_dump()`, as the answer route does), so connected supervisors receive one "new_request" event | high, not executed | Notifications.CreateRouteNeverNotifies | Notifications.CreateRouteWithDictNotifies |
