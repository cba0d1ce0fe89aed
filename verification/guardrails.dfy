/**
 * The guardrail classifier: two fixed lists of regular expressions, each
 * tried with a regex search against the lower-cased user text.
 *
 * The three copies of this code (backend/guardrails.py, Home.py and
 * streamlit_app.py) are textually identical; this one module stands for all
 * three.
 */
module Guardrails {
  import opened Text

  /**
   * The two shapes of pattern the lists use.
   *   WholeWords(ps)         is  \b(p1|p2|...)\b
   *   WordThenPrefix(ws, qs) is  \b(w1|w2|...)\b.*\b(q1|q2|...)
   * Character classes such as `[- ]` and an optional `s?` are expanded into
   * one literal phrase per spelling; `pregnan\w*` is the prefix "pregnan",
   * since `\w*` may match nothing and nothing follows it.
   */
  datatype Pattern =
    | WholeWords(phrases: seq<string>)
    | WordThenPrefix(words: seq<string>, prefixes: seq<string>)

  const EMERGENCY_PATTERNS: seq<Pattern> := [
    WholeWords(["chest pain", "pressure in chest", "tightness in chest"]),
    WholeWords(["trouble breathing", "shortness of breath", "can't breathe", "cannot breathe"]),
    WholeWords(["stroke", "face droop", "slurred speech", "one-sided weakness", "one sided weakness",
                "sudden numbness"]),
    WholeWords(["severe bleeding", "bleeding won't stop", "profuse bleeding"]),
    WholeWords(["suicidal", "kill myself", "end my life", "self-harm", "self harm", "harm myself"]),
    WholeWords(["anaphylaxis", "throat closing", "severe allergic reaction"])
  ]

  const BANNED_PATTERNS: seq<Pattern> := [
    WholeWords(["prescribe", "prescription", "controlled substance", "controlled substances"]),
    WordThenPrefix(["dose", "dosage"], ["baby", "infant", "newborn", "pregnan"])
  ]

  const EMERGENCY_MSG: string :=
    "If you\U{2019}re experiencing symptoms like chest pain, trouble breathing, stroke signs, "
    + "severe bleeding, anaphylaxis, or thoughts of self-harm, call your local emergency "
    + "number immediately. I can only provide general educational information, not medical advice."

  const REFUSAL_MSG: string :=
    "I can\U{2019}t help with that request. I\U{2019}m not a clinician and can\U{2019}t provide dosing, prescriptions, "
    + "or controlled-substance guidance. I can share general educational information instead."

  // ---------------------------------------------------------------------
  // Reference semantics of a regex search, stated with quantifiers
  // ---------------------------------------------------------------------

  /** The literal w occurs in t starting at position i. */
  predicate PhraseAt(t: string, i: nat, w: string) {
    i + |w| <= |t| && t[i..i + |w|] == w
  }

  /** The literal w occurs at i with a word boundary on both sides. */
  predicate WholeWordAt(t: string, i: nat, w: string) {
    PhraseAt(t, i, w) && Boundary(t, i) && Boundary(t, i + |w|)
  }

  /** No character of t[i..j] is a line break (what `.*` may cross). */
  predicate NoLineBreak(t: string, i: nat, j: nat)
    requires i <= j <= |t|
  {
    forall m :: i <= m < j ==> t[m] != '\n'
  }

  /** `.*\b(q1|q2|...)` matches t from position j on. */
  ghost predicate TailMatches(t: string, qs: seq<string>, j: nat) {
    exists j', l :: j <= j' <= |t| && 0 <= l < |qs| && NoLineBreak(t, j, j') &&
      PhraseAt(t, j', qs[l]) && Boundary(t, j')
  }

  /** The pattern matches t with its match starting at position i. */
  ghost predicate MatchesAt(p: Pattern, t: string, i: nat) {
    match p
    case WholeWords(ps) =>
      exists k :: 0 <= k < |ps| && WholeWordAt(t, i, ps[k])
    case WordThenPrefix(ws, qs) =>
      exists k :: 0 <= k < |ws| && WholeWordAt(t, i, ws[k]) && TailMatches(t, qs, i + |ws[k]|)
  }

  /** `re.search(p, t)` finds a match: one starts at some position of t. */
  ghost predicate Matches(p: Pattern, t: string) {
    exists i: nat :: i <= |t| && MatchesAt(p, t, i)
  }

  // ---------------------------------------------------------------------
  // The search as a scan over positions
  // ---------------------------------------------------------------------

  /** Python's `any(f(x) for x in xs)`. */
  predicate Any<T>(xs: seq<T>, f: T -> bool) {
    |xs| > 0 && (f(xs[0]) || Any(xs[1..], f))
  }

  /** Scans forward from j for a prefix of qs at a word boundary, stopping at a line break. */
  predicate TailFrom(t: string, qs: seq<string>, j: nat)
    requires j <= |t|
    decreases |t| - j
  {
    (Boundary(t, j) && Any(qs, (q: string) => PhraseAt(t, j, q)))
    || (j < |t| && t[j] != '\n' && TailFrom(t, qs, j + 1))
  }

  /** Tries the pattern at position i only. */
  predicate MatchAt(p: Pattern, t: string, i: nat) {
    match p
    case WholeWords(ps) =>
      Any(ps, (w: string) => WholeWordAt(t, i, w))
    case WordThenPrefix(ws, qs) =>
      Any(ws, (w: string) => WholeWordAt(t, i, w) && TailFrom(t, qs, i + |w|))
  }

  /** Tries the pattern at every position from i on. */
  predicate SearchFrom(p: Pattern, t: string, i: nat)
    requires i <= |t|
    decreases |t| - i
  {
    MatchAt(p, t, i) || (i < |t| && SearchFrom(p, t, i + 1))
  }

  /** `re.search(p, t) is not None`. */
  predicate Search(p: Pattern, t: string)
    ensures Search(p, t) == Matches(p, t)
  {
    SearchFromMatches(p, t, 0);
    SearchFrom(p, t, 0)
  }

  // ---------------------------------------------------------------------
  // The two checks
  // ---------------------------------------------------------------------

  /** `(text or "")`. */
  function OrEmpty(text: Option<string>): string {
    match text
    case None => ""
    case Some(s) => s
  }

  /** backend/guardrails.py `needs_emergency_escalation`. */
  predicate NeedsEmergencyEscalation(text: Option<string>)
    ensures NeedsEmergencyEscalation(text) <==>
      exists k :: 0 <= k < |EMERGENCY_PATTERNS| && Matches(EMERGENCY_PATTERNS[k], Lower(OrEmpty(text)))
  {
    var t := Lower(OrEmpty(text));
    AnyIff(EMERGENCY_PATTERNS, (p: Pattern) => Search(p, t));
    Any(EMERGENCY_PATTERNS, (p: Pattern) => Search(p, t))
  }

  /** backend/guardrails.py `needs_refusal`. */
  predicate NeedsRefusal(text: Option<string>)
    ensures NeedsRefusal(text) <==>
      exists k :: 0 <= k < |BANNED_PATTERNS| && Matches(BANNED_PATTERNS[k], Lower(OrEmpty(text)))
  {
    var t := Lower(OrEmpty(text));
    AnyIff(BANNED_PATTERNS, (p: Pattern) => Search(p, t));
    Any(BANNED_PATTERNS, (p: Pattern) => Search(p, t))
  }

  /** What every caller does with the two checks: emergency first, then refusal. */
  datatype Verdict = Emergency | Refusal | Pass

  function Triage(text: Option<string>): (v: Verdict)
    ensures v == Emergency <==> NeedsEmergencyEscalation(text)
    ensures v == Refusal <==> !NeedsEmergencyEscalation(text) && NeedsRefusal(text)
    ensures v == Pass <==> !NeedsEmergencyEscalation(text) && !NeedsRefusal(text)
  {
    if NeedsEmergencyEscalation(text) then Emergency
    else if NeedsRefusal(text) then Refusal
    else Pass
  }

  // ---------------------------------------------------------------------
  // The scan agrees with the reference semantics
  // ---------------------------------------------------------------------

  lemma {:induction false} AnyIff<T>(xs: seq<T>, f: T -> bool)
    ensures Any(xs, f) <==> exists k :: 0 <= k < |xs| && f(xs[k])
  {
    if xs != [] {
      AnyIff(xs[1..], f);
      if Any(xs[1..], f) {
        var k :| 0 <= k < |xs[1..]| && f(xs[1..][k]);
        assert f(xs[k + 1]);
      }
      if exists k :: 0 <= k < |xs| && f(xs[k]) {
        var k :| 0 <= k < |xs| && f(xs[k]);
        if k > 0 {
          assert xs[1..][k - 1] == xs[k];
        }
      }
    }
  }

  lemma {:induction false} TailFromMatches(t: string, qs: seq<string>, j: nat)
    requires j <= |t|
    ensures TailFrom(t, qs, j) <==> TailMatches(t, qs, j)
    decreases |t| - j
  {
    var here := (q: string) => PhraseAt(t, j, q);
    AnyIff(qs, here);
    if j < |t| {
      TailFromMatches(t, qs, j + 1);
    }
    if TailFrom(t, qs, j) {
      if Boundary(t, j) && Any(qs, here) {
        var l :| 0 <= l < |qs| && here(qs[l]);
        assert NoLineBreak(t, j, j);
      } else {
        var j', l :| j + 1 <= j' <= |t| && 0 <= l < |qs| && NoLineBreak(t, j + 1, j') &&
          PhraseAt(t, j', qs[l]) && Boundary(t, j');
        assert NoLineBreak(t, j, j');
      }
    }
    if TailMatches(t, qs, j) {
      var j', l :| j <= j' <= |t| && 0 <= l < |qs| && NoLineBreak(t, j, j') &&
        PhraseAt(t, j', qs[l]) && Boundary(t, j');
      if j' == j {
        assert here(qs[l]);
      } else {
        assert t[j] != '\n';
        assert NoLineBreak(t, j + 1, j');
      }
    }
  }

  lemma MatchAtMatches(p: Pattern, t: string, i: nat)
    ensures MatchAt(p, t, i) <==> MatchesAt(p, t, i)
  {
    match p
    case WholeWords(ps) =>
      AnyIff(ps, (w: string) => WholeWordAt(t, i, w));
    case WordThenPrefix(ws, qs) =>
      var lead := (w: string) => WholeWordAt(t, i, w) && TailFrom(t, qs, i + |w|);
      AnyIff(ws, lead);
      forall k | 0 <= k < |ws| && WholeWordAt(t, i, ws[k])
        ensures lead(ws[k]) <==> TailMatches(t, qs, i + |ws[k]|)
      {
        TailFromMatches(t, qs, i + |ws[k]|);
      }
  }

  /** A match the scan from i finds starts at some position i' >= i. */
  lemma {:induction false} SearchFromSound(p: Pattern, t: string, i: nat) returns (i': nat)
    requires i <= |t| && SearchFrom(p, t, i)
    ensures i <= i' <= |t| && MatchesAt(p, t, i')
    decreases |t| - i
  {
    MatchAtMatches(p, t, i);
    if MatchAt(p, t, i) {
      i' := i;
    } else {
      i' := SearchFromSound(p, t, i + 1);
    }
  }

  /** A match starting at any position i' >= i is found by the scan from i. */
  lemma {:induction false} SearchFromComplete(p: Pattern, t: string, i: nat, i': nat)
    requires i <= i' <= |t| && MatchesAt(p, t, i')
    ensures SearchFrom(p, t, i)
    decreases i' - i
  {
    if i' == i {
      MatchAtMatches(p, t, i);
    } else {
      SearchFromComplete(p, t, i + 1, i');
    }
  }

  lemma SearchFromMatches(p: Pattern, t: string, i: nat)
    requires i <= |t|
    ensures SearchFrom(p, t, i) <==> exists i': nat :: i <= i' <= |t| && MatchesAt(p, t, i')
  {
    if SearchFrom(p, t, i) {
      var i' := SearchFromSound(p, t, i);
    }
    if exists i': nat :: i <= i' <= |t| && MatchesAt(p, t, i') {
      var i': nat :| i <= i' <= |t| && MatchesAt(p, t, i');
      SearchFromComplete(p, t, i, i');
    }
  }
}
