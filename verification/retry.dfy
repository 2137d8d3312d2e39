/** The bounded retry loop shared by `generate_article_and_questions` and `evaluate_answers`:
    build the prompt once, then per attempt call the backend, extract JSON, validate, and
    return the first value that passes; every failure is swallowed and `None` is returned
    once the attempts are used up. */
module Retry {
  import opened Wrappers
  import opened JsonData
  import opened Backend
  import opened Extractor

  /** How many calls `range(max_retries)` allows. */
  function Budget(maxRetries: int): nat {
    if maxRetries < 0 then 0 else maxRetries
  }

  /** One attempt: a raised backend error, an undecodable reply or a value the validator
      rejects all yield `None`; otherwise the decoded value. */
  function Attempt(reply: Reply, parse: string -> Option<Json>, valid: Json -> bool): (r: Option<Json>)
    ensures r.Some? ==> valid(r.value)
    ensures r.Some? ==> reply.Text? && r == ParseJsonResponse(reply.text, parse)
    ensures (reply.Text? && ParseJsonResponse(reply.text, parse).Some?
             && valid(ParseJsonResponse(reply.text, parse).value))
            ==> r == ParseJsonResponse(reply.text, parse)
    ensures reply.Error? ==> r.None?
  {
    match reply
    case Error => None
    case Text(t) =>
      match ParseJsonResponse(t, parse)
      case None => None
      case Some(v) => if valid(v) then Some(v) else None
  }

  /** The loop. `replies[i]` is what the backend gives on call `i`; `sent` is the prompt pair
      passed on each call actually made, in order. */
  method RetryLoop(prompt: PromptPair, replies: seq<Reply>, maxRetries: int,
                   parse: string -> Option<Json>, valid: Json -> bool)
    returns (result: Option<Json>, sent: seq<PromptPair>)
    requires Budget(maxRetries) <= |replies|
    ensures |sent| <= Budget(maxRetries)
    ensures forall i | 0 <= i < |sent| :: sent[i] == prompt
    ensures forall i | 0 <= i < |sent| - 1 :: Attempt(replies[i], parse, valid).None?
    ensures result.Some? ==> |sent| > 0 && result == Attempt(replies[|sent| - 1], parse, valid)
    ensures result.Some? ==> valid(result.value)
    ensures result.None? ==> |sent| == Budget(maxRetries)
    ensures result.None? ==> forall i | 0 <= i < |sent| :: Attempt(replies[i], parse, valid).None?
  {
    sent := [];
    var attempt := 0;
    while attempt < maxRetries
      invariant 0 <= attempt <= Budget(maxRetries)
      invariant |sent| == attempt
      invariant forall i | 0 <= i < |sent| :: sent[i] == prompt
      invariant forall i | 0 <= i < attempt :: Attempt(replies[i], parse, valid).None?
    {
      sent := sent + [prompt];
      var outcome := Attempt(replies[attempt], parse, valid);
      if outcome.Some? {
        return outcome, sent;
      }
      attempt := attempt + 1;
    }
    result := None;
  }
}
