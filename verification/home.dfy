/**
 * Home.py: the multi-provider Streamlit chat page. It calls the model with
 * up to three attempts (`call_model`), and its turn handler appends the user
 * message and exactly one assistant reply to the session history.
 *
 * The completion API is an oracle `respond`: `respond(a)` is what the call
 * made on attempt a does. Sleeping is recorded, not performed.
 */
module Home {
  import opened Text
  import opened Guardrails
  import opened Conversation

  const MAX_ATTEMPTS: nat := 3

  /**
   * A pause between two attempts: exponential backoff with the integer base
   * `2 ** attempt` seconds (the random jitter added to it is not modelled),
   * or the fixed pause of 1.5 seconds.
   */
  datatype Wait = Backoff(baseSeconds: nat) | FixedPause

  /** What one `call_model` does: the reply, the number of calls made, the pauses taken. */
  datatype Run = Run(reply: string, calls: nat, waits: seq<Wait>)

  function Pow2(n: nat): (p: nat)
    ensures p >= 1
  {
    if n == 0 then 1 else 2 * Pow2(n - 1)
  }

  const AUTH_REMEDY: string := " API key seems invalid or missing. "
    + "Open the menu (\U{22EF} \U{2192} Settings \U{2192} Secrets), set the correct key, then rerun."

  /** The reply to an `AuthenticationError`, naming the configured provider. */
  function AuthMessage(provider: string): string {
    "Your " + provider + AUTH_REMEDY
  }

  const RATE_LIMIT_REMEDY: string := "**. "
    + "If this says `insufficient_quota`, add credits to your API project or switch provider in Secrets."

  /** The reply to a `RateLimitError` on the last attempt, naming the model. */
  function RateLimitMessage(model: string): string {
    "Rate limit on **" + model + RATE_LIMIT_REMEDY
  }

  /** `getattr(e, 'message', str(e))`. */
  function ApiErrorDetail(e: Error): (d: string)
    ensures e.message.Some? ==> d == e.message.value
    ensures e.message.None? ==> d == e.text
  {
    match e.message
    case Some(m) => m
    case None => e.text
  }

  /** The pauses ws taken before the rest of a run. */
  function After(ws: seq<Wait>, rest: Run): Run {
    Run(rest.reply, rest.calls, ws + rest.waits)
  }

  // ---------------------------------------------------------------------
  // The `except` clauses: which outcomes are retried, and the reply otherwise
  // ---------------------------------------------------------------------

  /** An outcome the loop answers with another attempt when one is left. */
  predicate Retried(o: Outcome) {
    o.Raised? && !o.error.isAuthentication && (o.error.isRateLimit || o.error.isApiError)
  }

  /** The pause taken after a retried outcome on attempt a. */
  function WaitAfter(o: Outcome, a: nat): Wait {
    if o.Raised? && o.error.isRateLimit then Backoff(Pow2(a)) else FixedPause
  }

  /**
   * The reply when the loop ends on outcome o. The `except` clauses are tried
   * in order, so an exception that is an authentication error and an API
   * error at once is handled as an authentication error.
   */
  function FinalReply(o: Outcome, provider: string, model: string): string {
    match o
    case Completed(content) => content
    case Raised(e) =>
      if e.isAuthentication then AuthMessage(provider)
      else if e.isRateLimit then RateLimitMessage(model)
      else if e.isApiError then UpstreamError(ApiErrorDetail(e))
      else UpstreamError(e.text)
  }

  /**
   * `call_model` from attempt `attempt` on: a retried outcome with an attempt
   * left pauses and tries again; any other outcome ends the loop.
   */
  function RunFrom(respond: nat -> Outcome, provider: string, model: string, attempt: nat): (r: Run)
    requires attempt < MAX_ATTEMPTS
    ensures attempt < r.calls <= MAX_ATTEMPTS
    ensures |r.waits| == r.calls - 1 - attempt
    decreases MAX_ATTEMPTS - attempt
  {
    var o := respond(attempt);
    if Retried(o) && attempt < MAX_ATTEMPTS - 1 then
      After([WaitAfter(o, attempt)], RunFrom(respond, provider, model, attempt + 1))
    else
      Run(FinalReply(o, provider, model), attempt + 1, [])
  }

  lemma AfterAfter(ws: seq<Wait>, more: seq<Wait>, rest: Run)
    ensures After(ws, After(more, rest)) == After(ws + more, rest)
  {
    assert ws + (more + rest.waits) == (ws + more) + rest.waits;
  }

  /** `call_model(messages)` as a whole. */
  function RunModel(respond: nat -> Outcome, provider: string, model: string): (r: Run)
    ensures 1 <= r.calls <= MAX_ATTEMPTS && |r.waits| == r.calls - 1
  {
    RunFrom(respond, provider, model, 0)
  }

  /**
   * The `for attempt in range(max_attempts)` loop. Every branch of the last
   * attempt returns, so control never leaves the loop without a reply.
   */
  method CallModel(respond: nat -> Outcome, provider: string, model: string)
    returns (reply: string, calls: nat, waits: seq<Wait>)
    ensures Run(reply, calls, waits) == RunModel(respond, provider, model)
  {
    waits := [];
    for attempt := 0 to MAX_ATTEMPTS
      invariant attempt < MAX_ATTEMPTS
      invariant |waits| == attempt
      invariant RunModel(respond, provider, model) == After(waits, RunFrom(respond, provider, model, attempt))
    {
      calls := attempt + 1;
      match respond(attempt) {
        case Completed(content) =>
          return content, calls, waits;
        case Raised(e) =>
          if e.isAuthentication {
            return AuthMessage(provider), calls, waits;
          } else if e.isRateLimit {
            if attempt < MAX_ATTEMPTS - 1 {
              AfterAfter(waits, [Backoff(Pow2(attempt))], RunFrom(respond, provider, model, attempt + 1));
              waits := waits + [Backoff(Pow2(attempt))];
              continue;
            }
            return RateLimitMessage(model), calls, waits;
          } else if e.isApiError {
            if attempt < MAX_ATTEMPTS - 1 {
              AfterAfter(waits, [FixedPause], RunFrom(respond, provider, model, attempt + 1));
              waits := waits + [FixedPause];
              continue;
            }
            return UpstreamError(ApiErrorDetail(e)), calls, waits;
          } else {
            return UpstreamError(e.text), calls, waits;
          }
      }
    }
    assert false;
  }

  // ---------------------------------------------------------------------
  // The retry policy, stated attempt by attempt
  // ---------------------------------------------------------------------

  /** The pauses taken after the `count` attempts from `from` on. */
  function WaitsFrom(respond: nat -> Outcome, from: nat, count: nat): (ws: seq<Wait>)
    ensures |ws| == count
    decreases count
  {
    if count == 0 then [] else [WaitAfter(respond(from), from)] + WaitsFrom(respond, from + 1, count - 1)
  }

  /**
   * The loop retries exactly as long as the outcomes are retried ones and an
   * attempt is left: the first outcome k that is not retried, or the third
   * outcome, decides the reply, k + 1 calls are made, and the pauses are
   * those after attempts 0 .. k - 1.
   */
  lemma {:induction false} RunDecidedAt(respond: nat -> Outcome, provider: string, model: string, attempt: nat, k: nat)
    requires attempt <= k < MAX_ATTEMPTS
    requires forall j :: attempt <= j < k ==> Retried(respond(j))
    requires !Retried(respond(k)) || k == MAX_ATTEMPTS - 1
    ensures RunFrom(respond, provider, model, attempt) ==
      Run(FinalReply(respond(k), provider, model), k + 1, WaitsFrom(respond, attempt, k - attempt))
    decreases k - attempt
  {
    if attempt < k {
      RunDecidedAt(respond, provider, model, attempt + 1, k);
      assert Retried(respond(attempt));
    }
  }

  /** The first successful attempt supplies the reply, and no further call is made. */
  lemma FirstSuccessWins(respond: nat -> Outcome, provider: string, model: string, k: nat)
    requires k < MAX_ATTEMPTS && respond(k).Completed?
    requires forall j :: 0 <= j < k ==> Retried(respond(j))
    ensures RunModel(respond, provider, model).reply == respond(k).content
    ensures RunModel(respond, provider, model).calls == k + 1
  {
    RunDecidedAt(respond, provider, model, 0, k);
  }

  /** An authentication error ends the loop at once, even when it is also an API error. */
  lemma AuthenticationNotRetried(respond: nat -> Outcome, provider: string, model: string, k: nat)
    requires k < MAX_ATTEMPTS && respond(k).Raised? && respond(k).error.isAuthentication
    requires forall j :: 0 <= j < k ==> Retried(respond(j))
    ensures RunModel(respond, provider, model).reply == AuthMessage(provider)
    ensures RunModel(respond, provider, model).calls == k + 1
  {
    RunDecidedAt(respond, provider, model, 0, k);
  }

  /** An exception of no listed class ends the loop at once with its text. */
  lemma OtherErrorNotRetried(respond: nat -> Outcome, provider: string, model: string, k: nat)
    requires k < MAX_ATTEMPTS && respond(k).Raised?
    requires !respond(k).error.isAuthentication && !respond(k).error.isRateLimit
    requires !respond(k).error.isApiError
    requires forall j :: 0 <= j < k ==> Retried(respond(j))
    ensures RunModel(respond, provider, model).reply == UpstreamError(respond(k).error.text)
    ensures RunModel(respond, provider, model).calls == k + 1
  {
    RunDecidedAt(respond, provider, model, 0, k);
  }

  /** Rate-limited three times: backoffs of 1 s and 2 s, then the rate-limit message. */
  lemma AlwaysRateLimited(respond: nat -> Outcome, provider: string, model: string)
    requires forall j :: 0 <= j < MAX_ATTEMPTS ==>
      respond(j).Raised? && !respond(j).error.isAuthentication && respond(j).error.isRateLimit
    ensures RunModel(respond, provider, model) ==
      Run(RateLimitMessage(model), 3, [Backoff(1), Backoff(2)])
  {
    RunDecidedAt(respond, provider, model, 0, 2);
    assert WaitsFrom(respond, 2, 0) == [];
    assert WaitsFrom(respond, 1, 1) == [Backoff(2)];
  }

  /** API errors three times: two fixed pauses, then the third error's message. */
  lemma AlwaysApiError(respond: nat -> Outcome, provider: string, model: string)
    requires forall j :: 0 <= j < MAX_ATTEMPTS ==>
      respond(j).Raised? && !respond(j).error.isAuthentication && !respond(j).error.isRateLimit &&
      respond(j).error.isApiError
    ensures RunModel(respond, provider, model) ==
      Run(UpstreamError(ApiErrorDetail(respond(2).error)), 3, [FixedPause, FixedPause])
  {
    RunDecidedAt(respond, provider, model, 0, 2);
    assert WaitsFrom(respond, 2, 0) == [];
  }

  // ---------------------------------------------------------------------
  // The chat session
  // ---------------------------------------------------------------------

  /** `st.session_state` as far as the chat uses it. */
  class Session {
    var history: seq<Message>

    /** A new session's history holds only the greeting. */
    constructor ()
      ensures history == [Message(ASSISTANT, GREETING)]
    {
      history := [Message(ASSISTANT, GREETING)];
    }

    /**
     * The `if user_input:` block. An empty input (or none) does nothing.
     * Otherwise the user message is appended, triaged, and exactly one
     * assistant reply, `reply`, follows it; `sent` is what the model is
     * called with, or None when a guardrail answers.
     */
    method Turn(userInput: string, systemPrompt: string, respond: nat -> Outcome,
                provider: string, model: string)
      returns (reply: string, sent: Option<seq<Message>>)
      modifies this
      ensures userInput == "" ==> history == old(history) && reply == "" && sent == None
      ensures userInput != "" ==>
        history == old(history) + [Message(USER, userInput), Message(ASSISTANT, reply)]
      ensures userInput != "" && Triage(Some(userInput)) == Emergency ==> reply == EMERGENCY_MSG && sent == None
      ensures userInput != "" && Triage(Some(userInput)) == Refusal ==> reply == REFUSAL_MSG && sent == None
      ensures userInput != "" && Triage(Some(userInput)) == Pass ==>
        sent == Some([Message(SYSTEM, systemPrompt)] + Window(old(history) + [Message(USER, userInput)])) &&
        reply == RunModel(respond, provider, model).reply
    {
      reply, sent := "", None;
      if userInput != "" {
        history := history + [Message(USER, userInput)];
        if NeedsEmergencyEscalation(Some(userInput)) {
          assert Triage(Some(userInput)) == Emergency;
          reply := EMERGENCY_MSG;
        } else if NeedsRefusal(Some(userInput)) {
          assert Triage(Some(userInput)) == Refusal;
          reply := REFUSAL_MSG;
        } else {
          assert Triage(Some(userInput)) == Pass;
          var messages := [Message(SYSTEM, systemPrompt)] + Window(history);
          sent := Some(messages);
          var calls, waits;
          reply, calls, waits := CallModel(respond, provider, model);
          assert reply == RunModel(respond, provider, model).reply;
        }
        history := history + [Message(ASSISTANT, reply)];
      }
    }
  }
}
