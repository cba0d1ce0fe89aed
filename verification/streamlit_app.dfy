/**
 * streamlit_app.py: the single-provider Streamlit chat page. Its turn
 * handler routes a message through the same guardrails as Home.py but calls
 * the model once, with no retry.
 *
 * The completion call is an oracle: its outcome is a parameter.
 */
module StreamlitApp {
  import opened Text
  import opened Guardrails
  import opened Conversation

  /** `st.session_state` as far as the chat uses it. */
  class Session {
    var history: seq<Message>

    /** A new session's history holds only the greeting. */
    constructor ()
      ensures history == [Message(ASSISTANT, GREETING)]
    {
      history := [Message(ASSISTANT, GREETING)];
    }

    /**
     * The `if user_input:` block. An empty input (or none) does nothing.
     * Otherwise the user message is appended, triaged, and exactly one
     * assistant reply, `reply`, follows it; `sent` is what the model is
     * called with, or None when a guardrail answers, and `upstream` is what
     * that one call does.
     */
    method Turn(userInput: string, systemPrompt: string, upstream: Outcome)
      returns (reply: string, sent: Option<seq<Message>>)
      modifies this
      ensures userInput == "" ==> history == old(history) && reply == "" && sent == None
      ensures userInput != "" ==>
        history == old(history) + [Message(USER, userInput), Message(ASSISTANT, reply)]
      ensures userInput != "" && Triage(Some(userInput)) == Emergency ==> reply == EMERGENCY_MSG && sent == None
      ensures userInput != "" && Triage(Some(userInput)) == Refusal ==> reply == REFUSAL_MSG && sent == None
      ensures userInput != "" && Triage(Some(userInput)) == Pass ==>
        sent == Some([Message(SYSTEM, systemPrompt)] + Window(old(history) + [Message(USER, userInput)])) &&
        reply == SingleCallReply(upstream)
    {
      reply, sent := "", None;
      if userInput != "" {
        history := history + [Message(USER, userInput)];
        if NeedsEmergencyEscalation(Some(userInput)) {
          assert Triage(Some(userInput)) == Emergency;
          reply := EMERGENCY_MSG;
        } else if NeedsRefusal(Some(userInput)) {
          assert Triage(Some(userInput)) == Refusal;
          reply := REFUSAL_MSG;
        } else {
          assert Triage(Some(userInput)) == Pass;
          var messages := [Message(SYSTEM, systemPrompt)] + Window(history);
          sent := Some(messages);
          match upstream {
            case Completed(content) => reply := content;
            case Raised(e) => reply := UpstreamError(e.text);
          }
          assert reply == SingleCallReply(upstream);
        }
        history := history + [Message(ASSISTANT, reply)];
      }
    }
  }
}
