/**
 * What the backend and the two chat front ends share: chat messages, the
 * trailing window of history sent to the model, and the abstract result of
 * one call to the chat-completion API.
 */
module Conversation {
  import opened Text

  /** One chat message: a role ("user", "assistant" or "system") and its text. */
  datatype Message = Message(role: string, content: string)

  const USER: string := "user"
  const ASSISTANT: string := "assistant"
  const SYSTEM: string := "system"

  /** The assistant greeting a new session's history starts with. */
  const GREETING: string := "Hi! I can share general health information. What can I help you with today?"

  /** How many trailing history entries the front ends send to the model. */
  const WINDOW: nat := 10

  /** `history[-10:]`: the last ten entries, or all of them when there are fewer. */
  function Window(history: seq<Message>): (w: seq<Message>)
    ensures |w| == if |history| < WINDOW then |history| else WINDOW
    ensures w == history[|history| - |w|..]
  {
    if |history| <= WINDOW then history else history[|history| - WINDOW..]
  }

  /**
   * What a front end sends after appending the user message m to its
   * history: the system prompt first, m last, and at most WINDOW + 1
   * messages in all.
   */
  lemma {:induction false} SentEndsWithNewest(systemPrompt: string, history: seq<Message>, m: Message)
    ensures var sent := [Message(SYSTEM, systemPrompt)] + Window(history + [m]);
      2 <= |sent| <= WINDOW + 1 && sent[0] == Message(SYSTEM, systemPrompt) && sent[|sent| - 1] == m
  {
  }

  /**
   * An exception raised by the completion call. The flags say which of the
   * client library's classes it is an instance of (one exception may be
   * several: the authentication and rate-limit errors are API errors too);
   * `message` is its `message` attribute, if it has one, and `text` is `str(e)`.
   */
  datatype Error = Error(
    isAuthentication: bool,
    isRateLimit: bool,
    isApiError: bool,
    message: Option<string>,
    text: string)

  /** What one call to the completion API does: answer with content, or raise. */
  datatype Outcome = Completed(content: string) | Raised(error: Error)

  function UpstreamError(detail: string): string {
    "Upstream model error: " + detail
  }

  /**
   * The reply of one unretried call guarded by `except Exception as e`:
   * the completion's content, or "Upstream model error: " and `str(e)`.
   */
  function SingleCallReply(outcome: Outcome): (reply: string)
    ensures outcome.Completed? ==> reply == outcome.content
    ensures outcome.Raised? ==> reply == UpstreamError(outcome.error.text)
  {
    match outcome
    case Completed(content) => content
    case Raised(e) => UpstreamError(e.text)
  }
}
