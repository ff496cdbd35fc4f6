/** The server's request handling over an abstract database: the chat
    endpoint (content filter, session create-or-reuse, two stored messages per
    exchange) and the guard and document of the PDF export. */
module Server {
  import opened Wrappers
  import opened Text
  import opened Wire
  import opened ContentFilter
  import opened Reply
  import opened PdfLayout

  /** The database: the ids of the chat-session rows, the message rows grouped
      by their session id in insertion order, and the next id the session
      table will hand out. Message rows are not checked against the session
      table, so a client-chosen id may hold messages without a session row. */
  datatype Store = Store(sessions: set<int>, log: map<int, seq<Message>>, nextId: int)

  const EmptyStore := Store({}, map[], 1)

  /** Session ids are positive and below the next one to be issued. */
  predicate Valid(st: Store) {
    && st.nextId >= 1
    && forall id | id in st.sessions :: 1 <= id < st.nextId
  }

  /** The messages of one session, oldest first. */
  function History(st: Store, id: int): seq<Message> {
    if id in st.log then st.log[id] else []
  }

  /** Inserting and committing a new `ChatSession` row. */
  function CreateSession(st: Store): (res: (int, Store))
    requires Valid(st)
    ensures res.0 !in st.sessions && Truthy(Some(res.0))
    ensures res.1.sessions == st.sessions + {res.0} && res.1.log == st.log
    ensures Valid(res.1)
  {
    (st.nextId, st.(sessions := st.sessions + {st.nextId}, nextId := st.nextId + 1))
  }

  /** The text sent to the language model for the user's last message: a fixed
      instruction, the question verbatim on its `User:` line, and a final line
      that ends with the marker the reply is later cut at. */
  function Prompt(question: string): (r: string)
    ensures OccursAt(r, question, |r| - |Marker| - 9 - |question|)
    ensures |r| >= |Marker| && r[|r| - |Marker|..] == Marker
  {
    "<s>[INST] You are a study assistant. \n"
      + "        Answer academically. If off-topic, say \"Focus on studies!\" [/INST]\n"
      + "        User: " + question + "\n"
      + "        Assistant:"
  }

  /** The JSON body of `POST /chat`. */
  datatype ChatRequest = ChatRequest(messages: seq<Message>, sessionId: Option<int>)

  datatype ChatResponse =
    | Replied(reply: string, sessionId: int)  // 200 {"reply", "session_id"}
    | Rejected(status: int, reply: string)    // the filter's answer, {"reply"} only
    | ServerError                             // an exception: 500 with an HTML page

  function Status(r: ChatResponse): int {
    match r
    case Replied(_, _) => 200
    case Rejected(status, _) => status
    case ServerError => 500
  }

  /** The session a chat goes to: the request's id when truthy, otherwise a
      newly created one. */
  function SessionFor(st: Store, sessionId: Option<int>): (res: (int, Store))
    requires Valid(st)
    ensures Valid(res.1) && res.1.log == st.log
    ensures Truthy(sessionId) ==> res == (sessionId.value, st)
    ensures !Truthy(sessionId) ==>
      res.0 == st.nextId && res.0 !in st.sessions && res.1.sessions == st.sessions + {res.0}
  {
    if Truthy(sessionId) then (sessionId.value, st) else CreateSession(st)
  }

  /** Committing the question and the reply to session `sid`. */
  function Record(st: Store, sid: int, question: string, reply: string): (r: Store)
    ensures r.sessions == st.sessions && r.nextId == st.nextId
    ensures History(r, sid) == History(st, sid) + [Message(User, question), Message(Assistant, reply)]
    ensures forall id | id != sid :: History(r, id) == History(st, id)
    ensures r.log.Keys == st.log.Keys + {sid}
  {
    st.(log := st.log[sid := History(st, sid) + [Message(User, question), Message(Assistant, reply)]])
  }

  /** The `chat` view once the filter has passed the request. The model is a
      parameter: `llm(prompt)` is its output, or `None` when the call raises.
      The new session is committed before anything else can fail; the two
      messages are committed together only after the model has answered. */
  function Chat(st: Store, req: ChatRequest, llm: string -> Option<string>): (res: (ChatResponse, Store))
    requires Valid(st)
    ensures Valid(res.1)
    ensures res.0.Replied? || res.0.ServerError?
    ensures res.1.sessions == st.sessions || (!Truthy(req.sessionId) && res.1.sessions == st.sessions + {st.nextId})
    // the chat is answered exactly when there is a question and the model answers it
    ensures res.0.Replied? <==>
      req.messages != [] && llm(Prompt(req.messages[|req.messages| - 1].content)).Some?
    ensures res.0.Replied? && Truthy(req.sessionId) ==>
      res.0.sessionId == req.sessionId.value && res.1.sessions == st.sessions
    ensures res.0.Replied? && !Truthy(req.sessionId) ==>
      res.0.sessionId == st.nextId && res.0.sessionId !in st.sessions
      && res.1.sessions == st.sessions + {res.0.sessionId}
    ensures res.0.Replied? ==>
      && req.messages != []
      && res.0.reply == ExtractReply(llm(Prompt(req.messages[|req.messages| - 1].content)).value)
      && History(res.1, res.0.sessionId) == History(st, res.0.sessionId)
           + [Message(User, req.messages[|req.messages| - 1].content), Message(Assistant, res.0.reply)]
      && (forall id | id != res.0.sessionId :: History(res.1, id) == History(st, id))
      && res.1.log.Keys == st.log.Keys + {res.0.sessionId}
    // a failed model call stores no message, though a new session may remain
    ensures res.0.ServerError? ==> res.1.log == st.log
  {
    var (sid, st1) := SessionFor(st, req.sessionId);
    if req.messages == [] then (ServerError, st1)
    else
      var question := req.messages[|req.messages| - 1].content;
      match llm(Prompt(question))
      case None => (ServerError, st1)
      case Some(output) =>
        var reply := ExtractReply(output);
        (Replied(reply, sid), Record(st1, sid, question, reply))
  }

  /** `POST /chat` as a whole: the before-request filter, then the view. */
  function HandleChat(st: Store, req: ChatRequest, llm: string -> Option<string>): (res: (ChatResponse, Store))
    requires Valid(st)
    ensures Valid(res.1)
    // an empty message list fails in the filter, before any session is created
    ensures req.messages == [] ==> res == (ServerError, st)
    // a blocked question is answered with the warning and touches nothing
    ensures req.messages != [] && IsBlocked(req.messages[|req.messages| - 1].content) ==>
      res == (Rejected(Forbidden, Warning), st) && Status(res.0) == 403
    // an unblocked question is answered exactly when the model answers
    ensures req.messages != [] && !IsBlocked(req.messages[|req.messages| - 1].content) ==>
      (res.0.Replied? <==> llm(Prompt(req.messages[|req.messages| - 1].content)).Some?)
    // the session id is reused when truthy and freshly issued otherwise
    ensures res.0.Replied? && Truthy(req.sessionId) ==>
      res.0.sessionId == req.sessionId.value && res.1.sessions == st.sessions
    ensures res.0.Replied? && !Truthy(req.sessionId) ==>
      res.0.sessionId == st.nextId && res.0.sessionId !in st.sessions
      && res.1.sessions == st.sessions + {res.0.sessionId}
    // an answered chat appends exactly the question and the reply to its session
    ensures res.0.Replied? ==>
      && req.messages != []
      && History(res.1, res.0.sessionId) == History(st, res.0.sessionId)
           + [Message(User, req.messages[|req.messages| - 1].content), Message(Assistant, res.0.reply)]
      && forall id | id != res.0.sessionId :: History(res.1, id) == History(st, id)
    ensures res.0.Replied? ==> res.1.log.Keys == st.log.Keys + {res.0.sessionId}
    ensures res.0.Replied? ==> !Contains(res.0.reply, Marker)
    // a failed model call stores no message, though a new session may remain
    ensures res.0.ServerError? ==> res.1.log == st.log
  {
    FilteredRoutes();
    match CheckContent("POST", "/chat", req.messages)
    case Raise => (ServerError, st)
    case Reject(status, reply) => (Rejected(status, reply), st)
    case Pass => Chat(st, req, llm)
  }

  /** The model is asked about the last message only, and its raw output
      decides the reply. */
  lemma ReplyComesFromModel(st: Store, req: ChatRequest, llm: string -> Option<string>)
    requires Valid(st)
    requires HandleChat(st, req, llm).0.Replied?
    ensures req.messages != []
    ensures var question := req.messages[|req.messages| - 1].content;
      llm(Prompt(question)).Some? && HandleChat(st, req, llm).0.reply == ExtractReply(llm(Prompt(question)).value)
  {
  }

  // ---------------------------------------------------------------------------
  // PDF export
  // ---------------------------------------------------------------------------

  const MissingSession := "No session ID provided"

  datatype PdfResponse =
    | BadRequest(error: string)   // 400 {"error"}
    | NotFound                    // 404 from the session lookup
    | Document(draws: seq<Draw>)  // 200, the rendered summary

  function PdfStatus(r: PdfResponse): int {
    match r
    case BadRequest(_) => 400
    case NotFound => 404
    case Document(_) => 200
  }

  /** `POST /generate-pdf`. `createdAt(id)` is the session's creation time as
      the header prints it. */
  function GeneratePdf(st: Store, sessionId: Option<int>, createdAt: int -> string): (r: PdfResponse)
    ensures r.BadRequest? <==> !Truthy(sessionId)
    ensures r.BadRequest? ==> r.error == MissingSession && PdfStatus(r) == 400
    ensures r.NotFound? <==> Truthy(sessionId) && sessionId.value !in st.sessions
    ensures r.Document? ==> |r.draws| == |History(st, sessionId.value)| + 1
  {
    if !Truthy(sessionId) then BadRequest(MissingSession)
    else if sessionId.value !in st.sessions then NotFound
    else Document(Layout("Study Session Summary - " + createdAt(sessionId.value), History(st, sessionId.value)))
  }

  /** The summary lists the session's messages in the order they were stored,
      one line each, all within the page margins. */
  lemma SummaryListsSession(st: Store, id: int, createdAt: int -> string)
    requires id != 0 && id in st.sessions
    ensures var r := GeneratePdf(st, Some(id), createdAt);
      && r.Document?
      && forall k | 0 <= k < |History(st, id)| ::
           r.draws[k + 1].text == LineText(History(st, id)[k])
           && BottomMargin <= r.draws[k + 1].y <= PageTop
  {
    var header := "Study Session Summary - " + createdAt(id);
    LayoutBySlots(header, History(st, id));
    LayoutWithinPage(header, History(st, id));
  }
}
