# Nurse Next AI: guardrails, triage routing and retry loop

Nurse Next AI is a health-information chatbot. It has a FastAPI backend
(`backend/app.py`) and two Streamlit chat pages (`Home.py` and
`streamlit_app.py`). This project models the deterministic logic around the
chat model:

- **The guardrail classifier** (`Guardrails`, `GuardrailFacts`).
  `needs_emergency_escalation` and `needs_refusal` lower-case the user text
  and search it with fixed lists of regular expressions.
  - Each pattern is one of two shapes: `\b(p1|p2|…)\b`, or
    `\b(w1|…)\b.*\b(q1|…)`. `[- ]` and `s?` are expanded into one literal
    spelling each.
  - `Search` scans positions; it is proved equal to `Matches`, a reference
    definition that states with quantifiers where a match starts.
  - The same code appears three times: `backend/guardrails.py:5-37`,
    `Home.py:125-153` and `streamlit_app.py:19-44`. The pattern lists, the
    messages and the two functions are the same text in all three (the
    message literals are only split across lines differently), so one module
    models all three and the verdicts agree on every input.
- **The backend `/chat` endpoint** (`BackendApp`).
  - Triage text: the last message with role "user", cut to 4000 characters,
    or "" if there is none.
  - Emergency is checked before refusal, and a guardrail reply calls no model.
  - Otherwise the outbound list is the system prompt followed by every
    request message.
  - The response role is always "assistant", and an exception becomes
    "Upstream model error: …".
- **`call_model` in Home.py** (`Home.RunFrom`, `Home.CallModel`). This is the
  loop of at most three attempts.
  - The completion API is an oracle `respond: nat -> Outcome`: `respond(a)`
    is what the call on attempt `a` returns or raises.
  - The `except` clauses keep their order as the priority of the
    exception's class flags.
  - An `APIError` is retried after the first and after the second attempt;
    on the third it returns "Upstream model error: " and the error's message.
  - The method is proved equal to a recursive definition. That definition is
    characterised attempt by attempt in `RunDecidedAt`.
- **The chat turn of each Streamlit page** (`Home.Session`,
  `StreamlitApp.Session`). The session history is a field that `Turn`
  updates in place. A turn appends the user message and exactly one
  assistant reply. The model sees the system prompt and the last ten history
  entries, and the last of those is the new user message.

The system prompt is a parameter wherever it is used. Nothing in the model
depends on its text.

## Model

| member | source | states |
|---|---|---|
| Text.LowerChar | backend/guardrails.py:32 | only 'A'..'Z' change; each maps to the letter 32 code points above it |
| Text.Lower | backend/guardrails.py:32 | `.lower()` keeps the length and lower-cases every character in place |
| Text.LowerIdempotent | backend/guardrails.py:32 | lower-casing already lower-cased text changes nothing |
| Guardrails.Search | backend/guardrails.py:33 | the position-by-position scan finds a match exactly when the reference `Matches` says one starts somewhere in the text |
| Guardrails.SearchFromMatches | backend/guardrails.py:33 | scanning from position i succeeds iff some match starts at or after i |
| Guardrails.SearchFromSound | backend/guardrails.py:33 | a match the scan from i finds starts at some position i' with i <= i' <= |t| |
| Guardrails.SearchFromComplete | backend/guardrails.py:33 | a match starting at any position at or after i is found by the scan from i |
| Guardrails.MatchAtMatches | backend/guardrails.py:6-15 | trying a pattern at one position agrees with the reference `MatchesAt` for both pattern shapes |
| Guardrails.TailFromMatches | backend/guardrails.py:15 | the `.*` tail from j succeeds iff a population prefix starts at a word boundary at or after j with no line break before it |
| Guardrails.AnyIff | backend/guardrails.py:33 | `any` over a list is true iff some element satisfies the test |
| Guardrails.NeedsEmergencyEscalation | backend/guardrails.py:31-33 | true iff some emergency pattern matches the lower-cased text, with `None` read as "" |
| Guardrails.NeedsRefusal | backend/guardrails.py:35-37 | true iff some banned pattern matches the lower-cased text, with `None` read as "" |
| Guardrails.Triage | backend/app.py:69-73 | Emergency iff the emergency check fires; Refusal iff only the refusal check fires; Pass iff neither fires |
| GuardrailFacts.CaseInsensitive | backend/guardrails.py:31-37 | both checks give the same verdict for a text and for its lower-cased form |
| GuardrailFacts.ShoutedChestPain | backend/guardrails.py:31-33 | "CHEST PAIN" escalates |
| GuardrailFacts.NothingToCheck | backend/guardrails.py:31-37 | `None` and "" pass both checks |
| GuardrailFacts.EmptyMatchesNothing | backend/guardrails.py:5-16 | a pattern whose alternatives are all non-empty never matches the empty text |
| GuardrailFacts.WholeWordsWitness | backend/guardrails.py:33 | one phrase found as a whole word anywhere makes the whole-word pattern match |
| GuardrailFacts.AbsentInitials | backend/guardrails.py:6-14 | a whole-word pattern cannot match a text that lacks every phrase's first letter |
| GuardrailFacts.SingleWordMatches | backend/guardrails.py:6-15 | against a one-word text, a whole-word pattern matches iff the text is one of its phrases; the dose pattern never matches |
| GuardrailFacts.SingleWordMatchesSome | backend/guardrails.py:33 | against a one-word text, some pattern of a list of whole-word patterns matches iff one of them lists the text as a phrase |
| GuardrailFacts.SingleWordEscalation | backend/guardrails.py:5-33 | a one-word text escalates iff, lower-cased, it equals some emergency phrase |
| GuardrailFacts.OtherWordNotEscalated | backend/guardrails.py:31-33 | a lower-case one-word text that is none of the emergency phrases does not escalate |
| GuardrailFacts.StrokeEscalates | backend/guardrails.py:8 | "Stroke" escalates |
| GuardrailFacts.StrokeInsideWordIgnored | backend/guardrails.py:8 | "strokes" and "heatstroke" do not escalate: "stroke" must be a whole word |
| GuardrailFacts.EmergencyPhraseEscalates | backend/guardrails.py:5-33 | a text that is exactly one of the expanded emergency phrases escalates |
| GuardrailFacts.SelfHarmEitherSpelling | backend/guardrails.py:10 | "self-harm" and "self harm" both escalate |
| GuardrailFacts.OneSidedEitherSpelling | backend/guardrails.py:8 | "one-sided weakness" and "one sided weakness" both escalate |
| GuardrailFacts.BannedPhraseRefused | backend/guardrails.py:14 | a text that is exactly one of the expanded prescription phrases is refused |
| GuardrailFacts.ControlledSubstanceEitherNumber | backend/guardrails.py:14 | "controlled substance" and "controlled substances" are both refused |
| GuardrailFacts.RefusedWhenMatches | backend/guardrails.py:35-37 | lower-case text that one banned pattern matches is refused |
| GuardrailFacts.DoseWitness | backend/guardrails.py:15 | a whole-word dose word followed, on the same line, by a population prefix at a word boundary makes the dose pattern match |
| GuardrailFacts.DoseIfPregnantMatches | backend/guardrails.py:15 | the dose pattern matches "dose if pregnant" |
| GuardrailFacts.DoseIfPregnantRefused | backend/guardrails.py:15 | "dose if pregnant" is refused |
| GuardrailFacts.DosageInPregnancyMatches | backend/guardrails.py:15 | the dose pattern matches "dosage in pregnancy" |
| GuardrailFacts.DosageInPregnancyRefused | backend/guardrails.py:15 | "dosage in pregnancy" is refused |
| GuardrailFacts.DoseForBabysitterMatches | backend/guardrails.py:15 | the dose pattern matches "dose for babysitter" |
| GuardrailFacts.DoseForBabysitterRefused | backend/guardrails.py:15 | "dose for babysitter" is refused: the population word needs only a leading boundary |
| GuardrailFacts.NoRoomForTail | backend/guardrails.py:15 | no population prefix can follow position j when none fits in the rest of the text |
| GuardrailFacts.NoTailAcrossBreak | backend/guardrails.py:15 | `.*` does not cross a line break |
| GuardrailFacts.DoseFailsEverywhere | backend/guardrails.py:15 | a text without 'p' or 'c' in which no dose word is followed on its line by a population prefix is not refused |
| GuardrailFacts.PopulationBeforeDoseNoDose | backend/guardrails.py:15 | in "infant dose" no dose word is followed by a population prefix |
| GuardrailFacts.PopulationBeforeDoseNotRefused | backend/guardrails.py:15 | "infant dose" is not refused: the dose word must come first |
| GuardrailFacts.DoseInsideWordNoDose | backend/guardrails.py:15 | in "dosed for baby" no whole-word dose word is followed by a population prefix |
| GuardrailFacts.DoseInsideWordNotRefused | backend/guardrails.py:15 | "dosed for baby" is not refused: "dose" must be a whole word |
| GuardrailFacts.LineBreakBetweenNoDose | backend/guardrails.py:15 | in "dose\ninfant" no dose word is followed on its own line by a population prefix |
| GuardrailFacts.LineBreakBetweenNotRefused | backend/guardrails.py:15 | "dose\ninfant" is not refused: both words must be on one line |
| Conversation.Window | Home.py:239 | `history[-10:]` has min(n, 10) entries and is the suffix of the history |
| Conversation.SentEndsWithNewest | Home.py:233-239 | after the user message is appended, the list sent to the model starts with the system prompt, ends with that user message, and holds between 2 and 11 messages |
| Conversation.SingleCallReply | streamlit_app.py:92-100 | a completed call gives its content; any exception gives "Upstream model error: " followed by its text |
| BackendApp.Truncate | backend/app.py:66 | `s[:n]` is the prefix of s of length n, or all of s when s is no longer than n |
| BackendApp.LastUserIndex | backend/app.py:64-67 | the index found holds a user message and no later message is a user's; None only when no message is a user's |
| BackendApp.TriageText | backend/app.py:63-67 | the triage text is at most 4000 characters |
| BackendApp.SelectTriageText | backend/app.py:63-67 | the backward loop with `break` yields the last user message cut to 4000 characters, or "" |
| BackendApp.CopyMessages | backend/app.py:75-77 | the comprehension keeps every message's role and content, in order |
| BackendApp.Chat | backend/app.py:61-89 | role is always "assistant"; an emergency or refusal gives its fixed message and calls no model; otherwise the call gets the system prompt plus every request message, and the reply is the content or "Upstream model error: " + the exception text |
| BackendApp.TriageTextIsLastUserMessage | backend/app.py:64-67 | earlier messages and trailing non-user messages do not affect the triage text; it is the last user message truncated |
| BackendApp.NoUserMessagePasses | backend/app.py:63-73 | without a user message the triage text is "" and neither guardrail fires |
| BackendApp.BeyondLimitUnseen | backend/app.py:66 | text appended after the 4000th character of the last user message leaves the triage text unchanged |
| BackendApp.BothGuardrailsFire | backend/guardrails.py:6-14 | "chest pain prescription" trips both checks |
| BackendApp.EmergencyBeforeRefusal | backend/app.py:69-73 | for a request whose only message is that text, the refusal check would fire, yet the verdict is Emergency |
| Home.ApiErrorDetail | Home.py:215 | `getattr(e, 'message', str(e))`: the message attribute when present, otherwise the exception text |
| Home.RunFrom | Home.py:188-217 | from attempt a, more than a and at most 3 calls are made, with one pause between consecutive calls |
| Home.RunModel | Home.py:188-217 | `call_model` makes between 1 and 3 calls and pauses one time fewer |
| Home.CallModel | Home.py:188-217 | the loop returns exactly the reply, call count and pauses of `RunModel`; it never leaves the loop without returning |
| Home.RunDecidedAt | Home.py:190-217 | if attempts before k are all retried errors, and k is not retried or is the third attempt, then attempt k's outcome decides the reply, k+1 calls are made, and the pauses are those after each earlier attempt |
| Home.FirstSuccessWins | Home.py:192-197 | the first successful attempt's content is the reply, and no later call is made |
| Home.AuthenticationNotRetried | Home.py:198-202 | an authentication error (even one that is also an API error) returns the key-remediation message at once |
| Home.OtherErrorNotRetried | Home.py:216-217 | an exception of no listed class returns "Upstream model error: " + its text at once |
| Home.AlwaysRateLimited | Home.py:203-210 | three rate-limit errors give backoffs of 1 s then 2 s and, on the third, the rate-limit message naming the model |
| Home.AlwaysApiError | Home.py:211-215 | three API errors give two fixed pauses and then "Upstream model error: " + the third error's message |
| Home.Session.constructor | Home.py:182-185 | history starts as the single assistant greeting |
| Home.Session.Turn | Home.py:232-241 | empty input changes nothing; otherwise earlier entries are kept and exactly the user message and one assistant reply are appended; emergency beats refusal; only on Pass is the model called, with the system prompt followed by the last ten entries of the updated history, and the appended reply is `call_model`'s |
| StreamlitApp.Session.constructor | streamlit_app.py:67-70 | history starts as the single assistant greeting |
| StreamlitApp.Session.Turn | streamlit_app.py:79-105 | as in Home, except that the model is called once: the reply is its content or "Upstream model error: " + the exception text |

## Left out

- Unicode: `str.lower()` and `\w` are modelled for ASCII only. Non-ASCII letters are neither lower-cased nor word characters here.
- The regex engine: only the two pattern shapes the lists use are modelled. `[- ]`, `s?` and `pregnan\w*` are rewritten as equivalent literal alternatives and a prefix.
- Streamlit rendering, CSS, page configuration, the sidebar toggle, the 50-entry history display (Home.py:228) and the chat widgets. An absent chat input is modelled as "".
- The OpenAI client, the network, FastAPI routing and CORS, and pydantic validation. Each completion call is an oracle outcome.
- A completion whose `content` is `None`: the model takes the content to be a string.
- `time.sleep` and the `random.uniform(0, 0.5)` jitter. Only the integer base `2 ** attempt` of a backoff and the fact of the fixed 1.5 s pause are recorded.
- The temperature setting and the model choice box of streamlit_app.py (floats and widgets).
- `make_client_and_model` (Home.py:14-65): secret and environment lookup and `st.stop()`. The provider and model names are parameters.
- The root status route of backend/app.py and the missing-key start-up error.
- backend/prompts.py and the inline system prompts: constant text, passed as a parameter.
- frontend/streamlit_app.py, which only posts the history to the backend.
- Cross-provider fallback. It is described on the About pages (pages/1_About.py:22, 29-46) but no code implements it: `make_client_and_model` picks one provider. Nothing here models it.
