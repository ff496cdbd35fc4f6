/** The server's study-only content filter, run before every request: a POST
    to a path containing `/chat` whose last message mentions a blocked term is
    answered with a fixed warning and never reaches the chat handler. */
module ContentFilter {
  import opened Text
  import opened Wire

  const BlockedTerms: seq<string> := ["music", "game", "movie", "social media"]

  const Warning: string := "\U{26A0}\U{FE0F} Stay focused on studies!"

  const Forbidden: int := 403

  /** The blocking rule: some blocked term occurs in the lower-cased text. */
  predicate IsBlocked(text: string) {
    exists k | 0 <= k < |BlockedTerms| :: Contains(Lower(text), BlockedTerms[k])
  }

  /** The scan `any(term in user_input for term in BLOCKED_TERMS)`: the terms
      are tried in order with a left-to-right substring search, stopping at
      the first hit. */
  method ScanTerms(text: string) returns (blocked: bool)
    ensures blocked <==> IsBlocked(text)
  {
    var lowered := Lower(text);
    blocked := false;
    var k := 0;
    while k < |BlockedTerms| && !blocked
      invariant 0 <= k <= |BlockedTerms|
      invariant blocked <==> exists t | 0 <= t < k :: Contains(lowered, BlockedTerms[t])
    {
      FindFromStart(lowered, BlockedTerms[k]);
      blocked := Find(lowered, BlockedTerms[k], 0).Some?;
      k := k + 1;
    }
  }

  /** What the filter decides for one request. */
  datatype Verdict =
    | Pass                               // the request goes on to its handler
    | Reject(status: int, reply: string) // answered here with a JSON `reply`
    | Raise                              // the filter itself fails: HTTP 500

  predicate IsChatPost(verb: string, path: string) {
    verb == "POST" && Contains(path, "/chat")
  }

  /** The chat route is screened; the export route is not, since its path
      does not contain `/chat`. */
  lemma FilteredRoutes()
    ensures IsChatPost("POST", "/chat")
    ensures !IsChatPost("POST", "/generate-pdf")
  {
    assert OccursAt("/chat", "/chat", 0);
    forall i | 0 <= i <= |"/generate-pdf"| - |"/chat"|
      ensures !OccursAt("/generate-pdf", "/chat", i)
    {
      var path := "/generate-pdf";
      if i == 0 {
        assert path[i..i + 5][1] == 'g';
      } else {
        assert path[i..i + 5][0] == path[i] != '/';
      }
    }
  }

  function CheckContent(verb: string, path: string, messages: seq<Message>): (v: Verdict)
    ensures !IsChatPost(verb, path) ==> v == Pass
    ensures IsChatPost(verb, path) && messages == [] ==> v == Raise
    ensures IsChatPost(verb, path) && messages != [] ==>
      (v.Reject? <==> IsBlocked(messages[|messages| - 1].content))
    ensures IsChatPost(verb, path) && messages != [] && !IsBlocked(messages[|messages| - 1].content) ==>
      v == Pass
    ensures v.Reject? ==> v == Reject(Forbidden, Warning)
  {
    if !IsChatPost(verb, path) then Pass
    else if messages == [] then Raise
    else if IsBlocked(messages[|messages| - 1].content) then Reject(Forbidden, Warning)
    else Pass
  }

  /** Texts that agree up to ASCII case are blocked alike. */
  lemma BlockingIgnoresCase(a: string, b: string)
    requires Lower(a) == Lower(b)
    ensures IsBlocked(a) <==> IsBlocked(b)
  {
  }

  lemma ContainsInMiddle(s: string, sub: string, a: string, b: string)
    requires Contains(s, sub)
    ensures Contains(a + s + b, sub)
  {
    var i :| 0 <= i <= |s| - |sub| && OccursAt(s, sub, i);
    var t := a + s + b;
    assert t[|a| + i..|a| + i + |sub|] == s[i..i + |sub|];
    assert OccursAt(t, sub, |a| + i);
  }

  /** A blocked text stays blocked whatever surrounds it: the match is on
      substrings, not words. */
  lemma BlockedInAnyContext(text: string, before: string, after: string)
    requires IsBlocked(text)
    ensures IsBlocked(before + text + after)
  {
    var k :| 0 <= k < |BlockedTerms| && Contains(Lower(text), BlockedTerms[k]);
    ContainsInMiddle(Lower(text), BlockedTerms[k], Lower(before), Lower(after));
    LowerAppend(before, text);
    LowerAppend(before + text, after);
  }

  /** The substring rule also catches words that merely contain a term, and
      upper case does not escape it. */
  lemma SubstringMatches()
    ensures IsBlocked("gamete")
    ensures IsBlocked("Any MOVIE tips?")
  {
    assert OccursAt(Lower("gamete"), BlockedTerms[1], 0);
    assert Lower("Any MOVIE tips?")[4..9] == BlockedTerms[2];
    assert OccursAt(Lower("Any MOVIE tips?"), BlockedTerms[2], 4);
  }
}
