/** One round trip between the chat panel and the server: the panel's request,
    the server's handling of it, and how the panel reads the answer. */
module Exchange {
  import opened Wrappers
  import opened Text
  import opened Wire
  import opened ContentFilter
  import opened Server
  import opened ChatPanel
  import opened PdfLayout

  /** How the panel reads a server response. It parses every body as JSON
      without looking at the status: the filter's 403 body carries a `reply`
      and no `session_id`, and the 500 page is not JSON, so it fails. */
  function Deliver(resp: ChatResponse): (o: Outcome)
    ensures o.Failed? <==> resp.ServerError?
    ensures resp.Replied? ==> o == Answered(resp.reply, Some(resp.sessionId))
    ensures resp.Rejected? ==> o.Answered? && o.reply == resp.reply && !Truthy(o.sessionId)
  {
    match resp
    case Replied(reply, sid) => Answered(reply, Some(sid))
    case Rejected(_, reply) => Answered(reply, None)
    case ServerError => Failed
  }

  /** The request the panel would send for its current input. */
  function Request(p: Panel): ChatRequest {
    ChatRequest(p.messages + [Message(User, p.input)], p.sessionId)
  }

  /** A press of Send against a server in state `st`: the panel after the
      answer has been shown, and the server's state afterwards. */
  function Round(p: Panel, st: Store, llm: string -> Option<string>): (res: (Panel, Store))
    requires Valid(st)
    ensures Valid(res.1)
    ensures IsBlank(p.input) ==> res == (p, st)
    ensures !IsBlank(p.input) ==>
      var (resp, st') := HandleChat(st, Request(p), llm);
      res == (SendMessage(p, Deliver(resp)).0, st')
  {
    var (pending, call) := Submit(p);
    match call
    case None => (p, st)
    case Some(c) =>
      var (resp, st') := HandleChat(st, ChatRequest(c.messages, c.sessionId), llm);
      (Settle(pending, c.messages, Deliver(resp)), st')
  }

  /** A blocked question: the panel shows the question and the warning, keeps
      its session, and the server is left exactly as it was. */
  lemma BlockedRoundTouchesNothing(p: Panel, st: Store, llm: string -> Option<string>)
    requires Valid(st) && !IsBlank(p.input) && IsBlocked(p.input)
    ensures var (q, st') := Round(p, st, llm);
      && st' == st
      && q.messages == p.messages + [Message(User, p.input), Message(Assistant, Warning)]
      && q.sessionId == p.sessionId
  {
    var req := Request(p);
    assert req.messages[|req.messages| - 1].content == p.input;
  }

  /** A model failure on the first question: the panel shows the apology and
      still has no session, while the server keeps the session it created
      before the failure, with no messages in it. */
  lemma FailedFirstRoundOrphansSession(p: Panel, st: Store, llm: string -> Option<string>)
    requires Valid(st) && !IsBlank(p.input) && !IsBlocked(p.input)
    requires !Truthy(p.sessionId) && llm(Prompt(p.input)).None?
    ensures var (q, st') := Round(p, st, llm);
      && q.messages == p.messages + [Message(User, p.input), Message(Assistant, Fallback)]
      && q.sessionId == p.sessionId
      && st'.sessions == st.sessions + {st.nextId} && st.nextId !in st.sessions
      && st'.log == st.log
  {
    var req := Request(p);
    assert req.messages[|req.messages| - 1].content == p.input;
    assert CheckContent("POST", "/chat", req.messages) == Pass by { FilteredRoutes(); }
  }

  /** Every stored message belongs to an existing session. The server does not
      enforce this, but the panel only ever sends ids the server issued. */
  predicate Clean(st: Store) {
    forall id | id in st.log :: id in st.sessions
  }

  /** The panel and the server agree: either nothing has been said and there
      is no session yet, or the panel's session exists and its stored history
      is exactly the panel's transcript. */
  predicate Mirrors(p: Panel, st: Store) {
    || (!Truthy(p.sessionId) && p.messages == [])
    || (Truthy(p.sessionId) && p.sessionId.value in st.sessions && History(st, p.sessionId.value) == p.messages)
  }

  lemma OpenedMirrorsEmptyStore()
    ensures Mirrors(Opened, EmptyStore) && Clean(EmptyStore) && Valid(EmptyStore)
  {
  }

  /** A round the model answers keeps the two tiers in step: both gain the
      same question and reply, and the panel holds the session they went to. */
  lemma AnsweredRoundKeepsMirror(p: Panel, st: Store, llm: string -> Option<string>)
    requires Valid(st) && Clean(st) && Mirrors(p, st) && !IsBlank(p.input)
    requires HandleChat(st, Request(p), llm).0.Replied?
    ensures var (q, st') := Round(p, st, llm);
      && Mirrors(q, st') && Clean(st')
      && Truthy(q.sessionId)
      && q.messages == p.messages + [Message(User, p.input), Message(Assistant, HandleChat(st, Request(p), llm).0.reply)]
  {
    var (resp, st') := HandleChat(st, Request(p), llm);
    AnsweredPanel(p, st, llm);
    AnsweredStore(p, st, llm);
    var q := Round(p, st, llm).0;
    assert q.sessionId == Some(resp.sessionId);
    assert History(st', resp.sessionId) == q.messages;
  }

  /** The panel's side of an answered round. */
  lemma AnsweredPanel(p: Panel, st: Store, llm: string -> Option<string>)
    requires Valid(st) && !IsBlank(p.input)
    requires HandleChat(st, Request(p), llm).0.Replied?
    ensures var (resp, st') := HandleChat(st, Request(p), llm);
      && Round(p, st, llm).1 == st'
      && Round(p, st, llm).0.messages == p.messages + [Message(User, p.input), Message(Assistant, resp.reply)]
      && (Truthy(Some(resp.sessionId)) ==> Round(p, st, llm).0.sessionId == Some(resp.sessionId))
  {
    var (resp, st') := HandleChat(st, Request(p), llm);
    assert Deliver(resp) == Answered(resp.reply, Some(resp.sessionId));
  }

  /** The server's side of an answered round started from mirrored tiers. */
  lemma AnsweredStore(p: Panel, st: Store, llm: string -> Option<string>)
    requires Valid(st) && Clean(st) && Mirrors(p, st)
    requires HandleChat(st, Request(p), llm).0.Replied?
    ensures var (resp, st') := HandleChat(st, Request(p), llm);
      && Truthy(Some(resp.sessionId)) && resp.sessionId in st'.sessions && Clean(st')
      && History(st', resp.sessionId) == p.messages + [Message(User, p.input), Message(Assistant, resp.reply)]
  {
    var req := Request(p);
    var (resp, st') := HandleChat(st, req, llm);
    var sid := resp.sessionId;
    assert req.messages[|req.messages| - 1].content == p.input;
    if Truthy(p.sessionId) {
      assert sid == p.sessionId.value;
    } else {
      assert sid == st.nextId && sid !in st.sessions;
      assert History(st, sid) == [];
    }
  }

  /** With the tiers in step, the downloaded summary of the panel's session
      lists exactly the panel's transcript, in order. */
  lemma ExportMatchesTranscript(p: Panel, st: Store, createdAt: int -> string)
    requires Mirrors(p, st) && Truthy(p.sessionId)
    ensures DownloadPdf(p.sessionId).Some?
    ensures var r := GeneratePdf(st, Some(DownloadPdf(p.sessionId).value.sessionId), createdAt);
      && r.Document? && |r.draws| == |p.messages| + 1
      && forall k | 0 <= k < |p.messages| :: r.draws[k + 1].text == LineText(p.messages[k])
  {
    SummaryListsSession(st, p.sessionId.value, createdAt);
  }
}
