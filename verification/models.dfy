/**
 * The record schema of the escalation ("help request") store and of the
 * knowledge base: the closed status and source enumerations, the length
 * limits of the two request bodies and the field defaults of the stored
 * records (backend/app/models/firebase_models.py).
 */
module Models {
  import opened Wrappers

  /** A clock reading. ISO-8601 texts of one format order like the instants they name. */
  type Timestamp = int

  // ---------------------------------------------------------------- enums

  datatype RequestStatus = Pending | Resolved | Timeout {
    /** The text stored in the `status` field. */
    function Value(): string {
      match this
      case Pending => "pending"
      case Resolved => "resolved"
      case Timeout => "timeout"
    }
  }

  /** Enum coercion: a text names a status exactly when it is one of the three values. */
  function ParseRequestStatus(s: string): (r: Option<RequestStatus>)
    ensures r.Some? ==> r.value.Value() == s
    ensures r.None? ==> s != "pending" && s != "resolved" && s != "timeout"
  {
    if s == "pending" then Some(Pending)
    else if s == "resolved" then Some(Resolved)
    else if s == "timeout" then Some(Timeout)
    else None
  }

  datatype KnowledgeSource = Initial | Learned | Manual {
    function Value(): string {
      match this
      case Initial => "initial"
      case Learned => "learned"
      case Manual => "manual"
    }
  }

  function ParseKnowledgeSource(s: string): (r: Option<KnowledgeSource>)
    ensures r.Some? ==> r.value.Value() == s
    ensures r.None? ==> s != "initial" && s != "learned" && s != "manual"
  {
    if s == "initial" then Some(Initial)
    else if s == "learned" then Some(Learned)
    else if s == "manual" then Some(Manual)
    else None
  }

  /** The three status texts are pairwise different. */
  lemma StatusValuesDistinct()
    ensures Pending.Value() != Resolved.Value() && Pending.Value() != Timeout.Value()
    ensures Resolved.Value() != Timeout.Value()
  {
    assert Pending.Value()[0] == 'p' && Resolved.Value()[0] == 'r' && Timeout.Value()[0] == 't';
  }

  /** Every status value parses back to itself, so the three values are distinct. */
  lemma RequestStatusRoundTrip(st: RequestStatus)
    ensures ParseRequestStatus(st.Value()) == Some(st)
  {
    match st
    case Pending =>
    case Resolved => assert "resolved" != "pending";
    case Timeout => assert "timeout" != "pending" && "timeout" != "resolved";
  }

  lemma KnowledgeSourceRoundTrip(src: KnowledgeSource)
    ensures ParseKnowledgeSource(src.Value()) == Some(src)
  {
    match src
    case Initial =>
    case Learned => assert "learned" != "initial";
    case Manual => assert "manual" != "initial" && "manual" != "learned";
  }

  // ---------------------------------------------------------------- stored records

  /** The `timeout_at` field as the timeout sweep reads it: an ISO text that parses, or a
      text that the ISO parser rejects. */
  datatype Deadline = At(t: Timestamp) | Unparsable

  /** The JSON text stored in `callback_info`: the raw caller argument and the creation time. */
  datatype CallbackInfo = CallbackInfo(phone: Option<string>, askTime: Timestamp)

  /** A dict stored under /help_requests/{id}, with every field present. `None` stands for an
      optional field that is null; `status` is any text, of which three are status values. */
  datatype HelpRecord = HelpRecord(
    id: string,
    question: string,
    callerInfo: Option<string>,
    status: string,
    createdAt: Timestamp,
    resolvedAt: Option<Timestamp>,
    timeoutAt: Deadline,
    answer: Option<string>,
    answeredBy: Option<string>,
    sessionId: string,
    callbackInfo: Option<CallbackInfo>,
    attemptCount: int)

  /** A dict stored under /knowledge_base/{id}; `useCount` is `None` when the field is absent. */
  datatype KbEntry = KbEntry(
    id: string,
    question: string,
    answer: string,
    source: string,
    createdAt: Timestamp,
    updatedAt: Timestamp,
    useCount: Option<int>)

  /** A `HelpRequest` built from its required fields: every other field takes its default. */
  function DefaultHelpRequest(id: string, question: string, createdAt: Timestamp,
                              timeoutAt: Timestamp, sessionId: string): (r: HelpRecord)
    ensures r.status == Pending.Value() && r.attemptCount == 0
    ensures r.resolvedAt.None? && r.answer.None? && r.answeredBy.None?
    ensures r.callerInfo.None? && r.callbackInfo.None?
    ensures r.id == id && r.question == question && r.sessionId == sessionId
    ensures r.createdAt == createdAt && r.timeoutAt == At(timeoutAt)
  {
    HelpRecord(id, question, None, Pending.Value(), createdAt, None, At(timeoutAt),
               None, None, sessionId, None, 0)
  }

  /** A `KnowledgeBaseEntry` built from question and answer: source manual, no uses.
      The two timestamps are two separate clock readings. */
  function DefaultKbEntry(id: string, question: string, answer: string,
                          createdAt: Timestamp, updatedAt: Timestamp): (e: KbEntry)
    ensures e.source == Manual.Value() && e.useCount == Some(0)
    ensures e.id == id && e.question == question && e.answer == answer
    ensures e.createdAt == createdAt && e.updatedAt == updatedAt
  {
    KbEntry(id, question, answer, Manual.Value(), createdAt, updatedAt, Some(0))
  }

  // ---------------------------------------------------------------- request bodies

  /** The fields of a request body that broke their length limit, in declaration order. */
  datatype BodyField = QuestionField | CallerInfoField | SessionIdField | AnswerField | SupervisorNameField

  datatype CreateBody = CreateBody(question: string, callerInfo: Option<string>, sessionId: string)
  datatype AnswerBody = AnswerBody(answer: string, supervisorName: string)

  /** `HelpRequestCreate` validation: question 5..500 characters, caller info absent or at
      most 255, session id at most 255. Every violated field is reported. */
  function ValidateCreateBody(question: string, callerInfo: Option<string>, sessionId: string)
    : (r: Result<CreateBody, seq<BodyField>>)
    ensures r.Success? <==> 5 <= |question| <= 500
                            && (callerInfo.Some? ==> |callerInfo.value| <= 255)
                            && |sessionId| <= 255
    ensures r.Success? ==> r.value == CreateBody(question, callerInfo, sessionId)
    ensures r.Failure? ==> (QuestionField in r.error <==> !(5 <= |question| <= 500))
    ensures r.Failure? ==> (CallerInfoField in r.error <==> callerInfo.Some? && |callerInfo.value| > 255)
    ensures r.Failure? ==> (SessionIdField in r.error <==> |sessionId| > 255)
    ensures r.Failure? ==> r.error != [] && |r.error| <= 3
  {
    var errors :=
      (if 5 <= |question| <= 500 then [] else [QuestionField])
      + (if callerInfo.None? || |callerInfo.value| <= 255 then [] else [CallerInfoField])
      + (if |sessionId| <= 255 then [] else [SessionIdField]);
    if errors == [] then Success(CreateBody(question, callerInfo, sessionId)) else Failure(errors)
  }

  /** `HelpRequestAnswer` validation: answer 5..2000 characters, supervisor name at most 100. */
  function ValidateAnswerBody(answer: string, supervisorName: string)
    : (r: Result<AnswerBody, seq<BodyField>>)
    ensures r.Success? <==> 5 <= |answer| <= 2000 && |supervisorName| <= 100
    ensures r.Success? ==> r.value == AnswerBody(answer, supervisorName)
    ensures r.Failure? ==> (AnswerField in r.error <==> !(5 <= |answer| <= 2000))
    ensures r.Failure? ==> (SupervisorNameField in r.error <==> |supervisorName| > 100)
    ensures r.Failure? ==> r.error != [] && |r.error| <= 2
  {
    var errors :=
      (if 5 <= |answer| <= 2000 then [] else [AnswerField])
      + (if |supervisorName| <= 100 then [] else [SupervisorNameField]);
    if errors == [] then Success(AnswerBody(answer, supervisorName)) else Failure(errors)
  }
}
