/**
 * backend/app.py: the `/chat` endpoint. It triages the last user message,
 * answers with a fixed message when a guardrail fires, and otherwise
 * forwards the whole conversation, behind the system prompt, to the model.
 *
 * The completion call is an oracle: its outcome is a parameter.
 */
module BackendApp {
  import opened Text
  import opened Guardrails
  import opened Conversation
  import GuardrailFacts

  /** The response schema; its `role` defaults to "assistant" and no route sets another. */
  datatype ChatResponse = ChatResponse(role: string, content: string)

  /** How much of the last user message the guardrails see. */
  const TRIAGE_LIMIT: nat := 4000

  /** `s[:n]`: the first n characters, or all of s when it is shorter. */
  function Truncate(s: string, n: nat): (r: string)
    ensures |r| == if |s| <= n then |s| else n
    ensures r <= s
  {
    if |s| <= n then s else s[..n]
  }

  // ---------------------------------------------------------------------
  // Choosing the triage text
  // ---------------------------------------------------------------------

  /** Where the last message with role "user" is, if there is one. */
  function LastUserIndex(messages: seq<Message>): (r: Option<nat>)
    ensures r.Some? ==> r.value < |messages| && messages[r.value].role == USER
    ensures r.Some? ==> forall j :: r.value < j < |messages| ==> messages[j].role != USER
    ensures r.None? ==> forall j :: 0 <= j < |messages| ==> messages[j].role != USER
  {
    if messages == [] then None
    else if messages[|messages| - 1].role == USER then Some(|messages| - 1)
    else LastUserIndex(messages[..|messages| - 1])
  }

  /** The text the guardrails judge: the last user message, truncated, or "". */
  function TriageText(messages: seq<Message>): (t: string)
    ensures |t| <= TRIAGE_LIMIT
  {
    match LastUserIndex(messages)
    case None => ""
    case Some(k) => Truncate(messages[k].content, TRIAGE_LIMIT)
  }

  /** The `for m in reversed(req.messages)` loop, which stops at the first user message it meets. */
  method SelectTriageText(messages: seq<Message>) returns (userText: string)
    ensures userText == TriageText(messages)
  {
    userText := "";
    var i := |messages|;
    while i > 0
      invariant 0 <= i <= |messages|
      invariant forall j :: i <= j < |messages| ==> messages[j].role != USER
      invariant LastUserIndex(messages[..i]) == LastUserIndex(messages)
      decreases i
    {
      var m := messages[i - 1];
      if m.role == USER {
        userText := Truncate(m.content, TRIAGE_LIMIT);
        break;
      }
      assert messages[..i][..i - 1] == messages[..i - 1];
      i := i - 1;
    }
  }

  // ---------------------------------------------------------------------
  // The endpoint
  // ---------------------------------------------------------------------

  /** Python's `[{"role": m.role, "content": m.content} for m in msgs]`. */
  function CopyMessages(msgs: seq<Message>): (r: seq<Message>)
    ensures |r| == |msgs|
    ensures forall i :: 0 <= i < |msgs| ==> r[i].role == msgs[i].role && r[i].content == msgs[i].content
  {
    seq(|msgs|, i requires 0 <= i < |msgs| => Message(msgs[i].role, msgs[i].content))
  }

  /**
   * `chat(req)`. `upstream` is what the completion call does if it is made;
   * `sent` is the message list it is made with, or None when no call is made.
   */
  method Chat(messages: seq<Message>, systemPrompt: string, upstream: Outcome)
    returns (response: ChatResponse, sent: Option<seq<Message>>)
    ensures response.role == ASSISTANT
    ensures Triage(Some(TriageText(messages))) == Emergency ==>
      response.content == EMERGENCY_MSG && sent == None
    ensures Triage(Some(TriageText(messages))) == Refusal ==>
      response.content == REFUSAL_MSG && sent == None
    ensures Triage(Some(TriageText(messages))) == Pass ==>
      sent == Some([Message(SYSTEM, systemPrompt)] + messages) &&
      response.content == SingleCallReply(upstream)
  {
    var userText := SelectTriageText(messages);
    if NeedsEmergencyEscalation(Some(userText)) {
      return ChatResponse(ASSISTANT, EMERGENCY_MSG), None;
    }
    if NeedsRefusal(Some(userText)) {
      return ChatResponse(ASSISTANT, REFUSAL_MSG), None;
    }
    var outbound := [Message(SYSTEM, systemPrompt)] + CopyMessages(messages);
    assert CopyMessages(messages) == messages;
    sent := Some(outbound);
    var content: string;
    match upstream {
      case Completed(c) => content := c;
      case Raised(e) => content := UpstreamError(e.text);
    }
    response := ChatResponse(ASSISTANT, content);
  }

  // ---------------------------------------------------------------------
  // What decides triage
  // ---------------------------------------------------------------------

  /** Triage sees the last user message, whatever precedes it and whatever non-user messages follow. */
  lemma {:induction false} TriageTextIsLastUserMessage(before: seq<Message>, m: Message, after: seq<Message>)
    requires m.role == USER
    requires forall j :: 0 <= j < |after| ==> after[j].role != USER
    ensures TriageText(before + [m] + after) == Truncate(m.content, TRIAGE_LIMIT)
  {
    var msgs := before + [m] + after;
    assert msgs[|before|] == m;
    forall j | |before| < j < |msgs|
      ensures msgs[j].role != USER
    {
      assert msgs[j] == after[j - |before| - 1];
    }
  }

  /** Without a user message the triage text is empty, so neither guardrail fires. */
  lemma NoUserMessagePasses(messages: seq<Message>)
    requires forall j :: 0 <= j < |messages| ==> messages[j].role != USER
    ensures TriageText(messages) == ""
    ensures Triage(Some(TriageText(messages))) == Pass
  {
    GuardrailFacts.NothingToCheck();
  }

  /** Characters past the 4000th of the last user message never reach the guardrails. */
  lemma {:induction false} BeyondLimitUnseen(before: seq<Message>, m: Message, extra: string, after: seq<Message>)
    requires m.role == USER && |m.content| >= TRIAGE_LIMIT
    requires forall j :: 0 <= j < |after| ==> after[j].role != USER
    ensures TriageText(before + [Message(USER, m.content + extra)] + after) == TriageText(before + [m] + after)
  {
    TriageTextIsLastUserMessage(before, m, after);
    TriageTextIsLastUserMessage(before, Message(USER, m.content + extra), after);
    assert (m.content + extra)[..TRIAGE_LIMIT] == m.content[..TRIAGE_LIMIT];
  }

  /** "chest pain prescription" trips both guardrails. */
  lemma BothGuardrailsFire(t: string)
    requires t == "chest pain prescription"
    ensures NeedsEmergencyEscalation(Some(t)) && NeedsRefusal(Some(t))
  {
    assert NoCapitals(t);
    LowerNoCapitals(t);
    ChestPainAtStart(t);
    PrescriptionAtEleven(t);
  }

  lemma ChestPainAtStart(t: string)
    requires t == "chest pain prescription"
    ensures Matches(EMERGENCY_PATTERNS[0], t)
  {
    assert t[0..10] == "chest pain";
    GuardrailFacts.WholeWordsWitness(EMERGENCY_PATTERNS[0].phrases, t, 0, 0);
  }

  lemma PrescriptionAtEleven(t: string)
    requires t == "chest pain prescription"
    ensures Matches(BANNED_PATTERNS[0], t)
  {
    assert t[11..23] == "prescription";
    GuardrailFacts.WholeWordsWitness(BANNED_PATTERNS[0].phrases, t, 11, 1);
  }

  /**
   * A request whose only message both reports chest pain and asks for a
   * prescription would trip both guardrails; the emergency reply wins.
   */
  lemma EmergencyBeforeRefusal(messages: seq<Message>, t: string)
    requires t == "chest pain prescription" && messages == [Message(USER, t)]
    ensures NeedsRefusal(Some(TriageText(messages)))
    ensures Triage(Some(TriageText(messages))) == Emergency
  {
    assert TriageText(messages) == t;
    BothGuardrailsFire(t);
  }
}
