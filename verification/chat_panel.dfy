/** The chat panel of the web client: the transcript, the input box, the
    loading flag and the shared session id, and the two actions that use the
    server (send a message, download the summary). */
module ChatPanel {
  import opened Wrappers
  import opened Text
  import opened Wire

  datatype Panel = Panel(messages: seq<Message>, input: string, isLoading: bool, sessionId: Option<int>)

  /** A freshly opened page: nothing said yet and no session. */
  const Opened := Panel([], "", false, None)

  const Fallback := "Sorry, there was an error processing your request."

  /** The JSON body sent with `POST /chat`. */
  datatype ChatCall = ChatCall(messages: seq<Message>, sessionId: Option<int>)

  /** How the request ended: a JSON body with its `reply` and optional
      `session_id`, or a failure (network error, or a body that is not JSON). */
  datatype Outcome = Answered(reply: string, sessionId: Option<int>) | Failed

  /** `!input.trim()`: the input is empty or only whitespace. */
  predicate IsBlank(s: string) {
    Trim(s, IsJavaScriptSpace) == []
  }

  lemma BlankMeansAllSpace(s: string)
    ensures IsBlank(s) <==> AllSpace(s, IsJavaScriptSpace)
  {
    TrimEmptyIffAllSpace(s, IsJavaScriptSpace);
  }

  /** The synchronous half of `sendMessage`: the guard, then the optimistic
      append of the raw input, clearing the box and showing the spinner. */
  function Submit(p: Panel): (r: (Panel, Option<ChatCall>))
    ensures IsBlank(p.input) <==> r.1.None?
    ensures IsBlank(p.input) ==> r.0 == p
    ensures !IsBlank(p.input) ==>
      && r.0.messages == p.messages + [Message(User, p.input)]
      && r.0.input == [] && r.0.isLoading && r.0.sessionId == p.sessionId
      && r.1 == Some(ChatCall(r.0.messages, p.sessionId))
  {
    if IsBlank(p.input) then (p, None)
    else
      var sent := p.messages + [Message(User, p.input)];
      (p.(messages := sent, input := "", isLoading := true), Some(ChatCall(sent, p.sessionId)))
  }

  /** What the assistant bubble says for an outcome. */
  function AssistantText(o: Outcome): string {
    match o
    case Answered(reply, _) => reply
    case Failed => Fallback
  }

  /** The asynchronous half: adopt a truthy session id from the response,
      append the assistant's message to the transcript that was sent, and
      clear the spinner whatever happened. */
  function Settle(p: Panel, sent: seq<Message>, o: Outcome): (r: Panel)
    ensures r.messages == sent + [Message(Assistant, AssistantText(o))]
    ensures !r.isLoading && r.input == p.input
    ensures o.Answered? && Truthy(o.sessionId) ==> r.sessionId == o.sessionId
    ensures !(o.Answered? && Truthy(o.sessionId)) ==> r.sessionId == p.sessionId
  {
    match o
    case Answered(reply, sid) =>
      var q := if Truthy(sid) then p.(sessionId := sid) else p;
      q.(messages := sent + [Message(Assistant, reply)], isLoading := false)
    case Failed =>
      p.(messages := sent + [Message(Assistant, Fallback)], isLoading := false)
  }

  /** `sendMessage` from start to finish, given how its request ends. */
  function SendMessage(p: Panel, o: Outcome): (r: (Panel, Option<ChatCall>))
    // blank input: nothing changes and nothing is sent
    ensures IsBlank(p.input) ==> r == (p, None)
    // otherwise the request carries the whole new transcript and the current session
    ensures !IsBlank(p.input) ==> r.1 == Some(ChatCall(p.messages + [Message(User, p.input)], p.sessionId))
    // exactly the raw question and one assistant message are appended
    ensures !IsBlank(p.input) ==>
      r.0.messages == p.messages + [Message(User, p.input), Message(Assistant, AssistantText(o))]
    ensures !IsBlank(p.input) ==> r.0.input == [] && !r.0.isLoading
    // the session changes only to a truthy id from the response
    ensures r.0.sessionId == (if !IsBlank(p.input) && o.Answered? && Truthy(o.sessionId) then o.sessionId else p.sessionId)
  {
    var (pending, call) := Submit(p);
    match call
    case None => (p, None)
    case Some(c) => (Settle(pending, c.messages, o), call)
  }

  /** The transcript only grows: earlier messages are never changed or removed,
      failed requests included. */
  lemma NeverRetracts(p: Panel, o: Outcome)
    ensures p.messages <= SendMessage(p, o).0.messages
    ensures !IsBlank(p.input) ==> p.messages + [Message(User, p.input)] <= SendMessage(p, o).0.messages
  {
    if !IsBlank(p.input) {
      var q := SendMessage(p, o).0;
      var added := [Message(User, p.input), Message(Assistant, AssistantText(o))];
      assert q.messages == p.messages + [Message(User, p.input)] + [added[1]];
    }
  }

  /** Once a session is known, later sends carry it, and an answer without a
      session id (the filter's warning) keeps it. */
  lemma SessionIsSticky(p: Panel, o: Outcome)
    requires Truthy(p.sessionId) && !IsBlank(p.input)
    requires !(o.Answered? && Truthy(o.sessionId))
    ensures SendMessage(p, o).1.value.sessionId == p.sessionId
    ensures SendMessage(p, o).0.sessionId == p.sessionId
  {
  }

  // ---------------------------------------------------------------------------
  // Downloading the summary
  // ---------------------------------------------------------------------------

  const FilenamePrefix := "study-summary-"
  const FilenameSuffix := ".pdf"

  /** The export request for a session and the name the file is saved under. */
  datatype Export = Export(sessionId: int, filename: string)

  /** `downloadPDF`: nothing without a session, otherwise an export of that
      session saved as `study-summary-<sessionId>.pdf`. */
  function DownloadPdf(sessionId: Option<int>): (r: Option<Export>)
    ensures r.None? <==> !Truthy(sessionId)
    ensures r.Some? ==> r.value.sessionId == sessionId.value
    ensures r.Some? ==> var f := r.value.filename;
      && |f| == |FilenamePrefix| + |Decimal(sessionId.value)| + |FilenameSuffix|
      && f[..|FilenamePrefix|] == FilenamePrefix
      && f[|FilenamePrefix|..|f| - |FilenameSuffix|] == Decimal(sessionId.value)
      && f[|f| - |FilenameSuffix|..] == FilenameSuffix
  {
    if !Truthy(sessionId) then None
    else
      var f := FilenamePrefix + Decimal(sessionId.value) + FilenameSuffix;
      assert f[|FilenamePrefix|..|f| - |FilenameSuffix|] == Decimal(sessionId.value);
      Some(Export(sessionId.value, f))
  }

  /** Different sessions are saved under different file names. */
  lemma FilenamesDistinct(a: int, b: int)
    requires a != 0 && b != 0 && a != b
    ensures DownloadPdf(Some(a)).value.filename != DownloadPdf(Some(b)).value.filename
  {
    var fa := DownloadPdf(Some(a)).value.filename;
    var fb := DownloadPdf(Some(b)).value.filename;
    if fa == fb {
      assert Decimal(a) == fa[|FilenamePrefix|..|fa| - |FilenameSuffix|] == Decimal(b);
      DecimalInjective(a, b);
    }
  }
}
