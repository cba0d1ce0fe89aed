/**
 * What the two guardrail checks promise: they ignore case, never fire on
 * missing or empty text, only see whole words, accept both spellings of the
 * hyphenated and plural phrases, and refuse a dosing question only when the
 * dose word comes first on the same line.
 */
module GuardrailFacts {
  import opened Text
  import opened Guardrails

  // ---------------------------------------------------------------------
  // Tools
  // ---------------------------------------------------------------------

  /** Every alternative of the pattern is a non-empty literal. */
  predicate NonEmptyPhrases(p: Pattern) {
    match p
    case WholeWords(ps) => forall k :: 0 <= k < |ps| ==> ps[k] != ""
    case WordThenPrefix(ws, qs) =>
      (forall k :: 0 <= k < |ws| ==> ws[k] != "") && (forall l :: 0 <= l < |qs| ==> qs[l] != "")
  }

  /** A text made of word characters only: a single word. */
  predicate IsWordText(t: string) {
    |t| > 0 && forall m :: 0 <= m < |t| ==> IsWordChar(t[m])
  }

  lemma PhraseChars(t: string, i: nat, w: string)
    requires PhraseAt(t, i, w)
    ensures forall m :: 0 <= m < |w| ==> t[i + m] == w[m]
  {
    forall m | 0 <= m < |w|
      ensures t[i + m] == w[m]
    {
      assert t[i..i + |w|][m] == t[i + m];
    }
  }

  /** A phrase occurrence starts with the phrase's initial. */
  lemma PhraseInitial(t: string, i: nat, w: string)
    ensures PhraseAt(t, i, w) && w != "" ==> i < |t| && t[i] == w[0]
  {
    if PhraseAt(t, i, w) && w != "" {
      PhraseChars(t, i, w);
    }
  }

  /** Inside a single word the only word boundaries are its two ends. */
  lemma WordTextBoundary(t: string, i: nat)
    requires IsWordText(t) && i <= |t|
    ensures Boundary(t, i) <==> i == 0 || i == |t|
  {
  }

  /** A phrase none of whose initials occurs in t never matches t. */
  lemma AbsentInitials(ps: seq<string>, t: string)
    requires forall k :: 0 <= k < |ps| ==> ps[k] != "" && ps[k][0] !in t
    ensures !Matches(WholeWords(ps), t)
  {
    forall i: nat, k | i <= |t| && 0 <= k < |ps|
      ensures !WholeWordAt(t, i, ps[k])
    {
      PhraseInitial(t, i, ps[k]);
    }
  }

  /** `.*\b(q...)` cannot match from j when no alternative fits in what is left. */
  lemma NoRoomForTail(t: string, qs: seq<string>, j: nat)
    requires forall l :: 0 <= l < |qs| ==> j + |qs[l]| > |t|
    ensures !TailMatches(t, qs, j)
  {
  }

  /** `.` does not cross a line break: a tail starting at a '\n' must match right there. */
  lemma NoTailAcrossBreak(t: string, qs: seq<string>, j: nat)
    requires j < |t| && t[j] == '\n'
    requires forall l :: 0 <= l < |qs| ==> qs[l] != "" && qs[l][0] != '\n'
    ensures !TailMatches(t, qs, j)
  {
    forall j', l | j <= j' <= |t| && 0 <= l < |qs| && NoLineBreak(t, j, j')
      ensures !PhraseAt(t, j', qs[l])
    {
      assert j' == j;
      PhraseInitial(t, j', qs[l]);
    }
  }

  /** If one alternative occurs as a whole word, the pattern matches. */
  lemma WholeWordsWitness(ps: seq<string>, t: string, i: nat, k: nat)
    requires k < |ps| && i <= |t| && WholeWordAt(t, i, ps[k])
    ensures Matches(WholeWords(ps), t)
  {
    assert MatchesAt(WholeWords(ps), t, i);
  }

  // ---------------------------------------------------------------------
  // Case
  // ---------------------------------------------------------------------

  /** Both checks give the same answer for a text and for its lower-cased form. */
  lemma CaseInsensitive(text: string)
    ensures NeedsEmergencyEscalation(Some(text)) == NeedsEmergencyEscalation(Some(Lower(text)))
    ensures NeedsRefusal(Some(text)) == NeedsRefusal(Some(Lower(text)))
  {
    LowerIdempotent(text);
  }

  /** "CHEST PAIN" in capitals escalates. */
  lemma ShoutedChestPain(text: string)
    requires text == "CHEST PAIN"
    ensures NeedsEmergencyEscalation(Some(text))
  {
    var t := Lower(text);
    assert t == "chest pain";
    assert t[0..|t|] == t;
    WholeWordsWitness(EMERGENCY_PATTERNS[0].phrases, t, 0, 0);
  }

  // ---------------------------------------------------------------------
  // Missing or empty text
  // ---------------------------------------------------------------------

  lemma ListsNonEmpty()
    ensures forall k :: 0 <= k < |EMERGENCY_PATTERNS| ==> NonEmptyPhrases(EMERGENCY_PATTERNS[k])
    ensures forall k :: 0 <= k < |BANNED_PATTERNS| ==> NonEmptyPhrases(BANNED_PATTERNS[k])
  {
  }

  lemma EmptyMatchesNothing(p: Pattern)
    requires NonEmptyPhrases(p)
    ensures !Matches(p, "")
  {
  }

  /** `None` and `""` pass both checks. */
  lemma NothingToCheck()
    ensures !NeedsEmergencyEscalation(None) && !NeedsEmergencyEscalation(Some(""))
    ensures !NeedsRefusal(None) && !NeedsRefusal(Some(""))
  {
    ListsNonEmpty();
    assert Lower("") == "";
    forall k | 0 <= k < |EMERGENCY_PATTERNS|
      ensures !Matches(EMERGENCY_PATTERNS[k], "")
    {
      EmptyMatchesNothing(EMERGENCY_PATTERNS[k]);
    }
    forall k | 0 <= k < |BANNED_PATTERNS|
      ensures !Matches(BANNED_PATTERNS[k], "")
    {
      EmptyMatchesNothing(BANNED_PATTERNS[k]);
    }
  }

  // ---------------------------------------------------------------------
  // Whole words only
  // ---------------------------------------------------------------------

  /**
   * Against a single-word text, a whole-word pattern matches exactly when the
   * text is one of its phrases, and a dose-style pattern never matches.
   */
  lemma SingleWordMatches(p: Pattern, t: string)
    requires IsWordText(t) && NonEmptyPhrases(p)
    ensures Matches(p, t) <==> p.WholeWords? && t in p.phrases
  {
    match p
    case WholeWords(ps) =>
      forall i: nat, k | i <= |t| && 0 <= k < |ps| && WholeWordAt(t, i, ps[k])
        ensures ps[k] == t
      {
        WordTextBoundary(t, i);
        WordTextBoundary(t, i + |ps[k]|);
        assert i == 0 && |ps[k]| == |t|;
        assert t[0..|t|] == t;
      }
      if t in ps {
        var k :| 0 <= k < |ps| && ps[k] == t;
        WordTextBoundary(t, 0);
        WordTextBoundary(t, |t|);
        WholeWordsWitness(ps, t, 0, k);
      }
    case WordThenPrefix(ws, qs) =>
      forall i: nat | i <= |t|
        ensures !MatchesAt(p, t, i)
      {
        forall k | 0 <= k < |ws| && WholeWordAt(t, i, ws[k])
          ensures !TailMatches(t, qs, i + |ws[k]|)
        {
          WordTextBoundary(t, i);
          WordTextBoundary(t, i + |ws[k]|);
          NoRoomForTail(t, qs, i + |ws[k]|);
        }
      }
  }

  /** Against a single-word text, a list of whole-word patterns matches exactly when one lists the text. */
  lemma {:induction false} SingleWordMatchesSome(ps: seq<Pattern>, l: string)
    requires IsWordText(l)
    requires forall k :: 0 <= k < |ps| ==> ps[k].WholeWords? && NonEmptyPhrases(ps[k])
    ensures (exists k :: 0 <= k < |ps| && Matches(ps[k], l)) <==>
      exists k :: 0 <= k < |ps| && l in ps[k].phrases
  {
    forall k | 0 <= k < |ps|
      ensures Matches(ps[k], l) <==> l in ps[k].phrases
    {
      SingleWordMatches(ps[k], l);
    }
  }

  /** A one-word text escalates exactly when, lower-cased, it is one of the emergency phrases. */
  lemma SingleWordEscalation(t: string)
    requires IsWordText(Lower(t))
    ensures NeedsEmergencyEscalation(Some(t)) <==>
      exists k :: 0 <= k < |EMERGENCY_PATTERNS| && Lower(t) in EMERGENCY_PATTERNS[k].phrases
  {
    ListsNonEmpty();
    SingleWordMatchesSome(EMERGENCY_PATTERNS, Lower(t));
  }

  /** No emergency phrase is the text itself (the single-word case of the check). */
  predicate NotAnEmergencyPhrase(t: string) {
    forall k :: 0 <= k < |EMERGENCY_PATTERNS| ==> t !in EMERGENCY_PATTERNS[k].phrases
  }

  lemma ShortWordNotAPhrase(t: string)
    requires t == "strokes" || t == "heatstroke"
    ensures NotAnEmergencyPhrase(t)
  {
    forall k | 0 <= k < |EMERGENCY_PATTERNS|
      ensures t !in EMERGENCY_PATTERNS[k].phrases
    {
      assert k == 0 || k == 1 || k == 2 || k == 3 || k == 4 || k == 5;
    }
  }

  /** A lower-case single word that is no emergency phrase does not escalate. */
  lemma OtherWordNotEscalated(t: string)
    requires NoCapitals(t) && IsWordText(t) && NotAnEmergencyPhrase(t)
    ensures !NeedsEmergencyEscalation(Some(t))
  {
    LowerNoCapitals(t);
    SingleWordEscalation(t);
  }

  /** "Stroke" on its own escalates. */
  lemma StrokeEscalates(text: string)
    requires text == "Stroke"
    ensures NeedsEmergencyEscalation(Some(text))
  {
    var t := Lower(text);
    assert t == "stroke";
    assert t[0..|t|] == t;
    WholeWordsWitness(EMERGENCY_PATTERNS[2].phrases, t, 0, 0);
  }

  /** "stroke" inside "strokes" or "heatstroke" is not the whole word, so neither escalates. */
  lemma StrokeInsideWordIgnored(t: string)
    requires t == "strokes" || t == "heatstroke"
    ensures !NeedsEmergencyEscalation(Some(t))
  {
    assert NoCapitals(t) && IsWordText(t);
    ShortWordNotAPhrase(t);
    OtherWordNotEscalated(t);
  }

  // ---------------------------------------------------------------------
  // Both spellings
  // ---------------------------------------------------------------------

  /** Lower-case, and starting and ending with a word character. */
  predicate PlainPhrase(t: string) {
    NoCapitals(t) && 0 < |t| && IsWordChar(t[0]) && IsWordChar(t[|t| - 1])
  }

  lemma ChestPhrasesPlain()
    ensures forall m :: 0 <= m < |EMERGENCY_PATTERNS[0].phrases| ==> PlainPhrase(EMERGENCY_PATTERNS[0].phrases[m])
  {
  }

  lemma BreathingPhrasesPlain()
    ensures forall m :: 0 <= m < |EMERGENCY_PATTERNS[1].phrases| ==> PlainPhrase(EMERGENCY_PATTERNS[1].phrases[m])
  {
  }

  lemma StrokePhrasesPlain()
    ensures forall m :: 0 <= m < |EMERGENCY_PATTERNS[2].phrases| ==> PlainPhrase(EMERGENCY_PATTERNS[2].phrases[m])
  {
  }

  lemma BleedingPhrasesPlain()
    ensures forall m :: 0 <= m < |EMERGENCY_PATTERNS[3].phrases| ==> PlainPhrase(EMERGENCY_PATTERNS[3].phrases[m])
  {
  }

  lemma SelfHarmPhrasesPlain()
    ensures forall m :: 0 <= m < |EMERGENCY_PATTERNS[4].phrases| ==> PlainPhrase(EMERGENCY_PATTERNS[4].phrases[m])
  {
  }

  lemma AllergyPhrasesPlain()
    ensures forall m :: 0 <= m < |EMERGENCY_PATTERNS[5].phrases| ==> PlainPhrase(EMERGENCY_PATTERNS[5].phrases[m])
  {
  }

  /** Every emergency phrase is lower-case and starts and ends with a word character. */
  lemma EmergencyPhrasePlain(k: nat, m: nat)
    requires k < |EMERGENCY_PATTERNS| && EMERGENCY_PATTERNS[k].WholeWords?
    requires m < |EMERGENCY_PATTERNS[k].phrases|
    ensures PlainPhrase(EMERGENCY_PATTERNS[k].phrases[m])
  {
    if k == 0 {
      ChestPhrasesPlain();
    } else if k == 1 {
      BreathingPhrasesPlain();
    } else if k == 2 {
      StrokePhrasesPlain();
    } else if k == 3 {
      BleedingPhrasesPlain();
    } else if k == 4 {
      SelfHarmPhrasesPlain();
    } else {
      AllergyPhrasesPlain();
    }
  }

  /** A text that is exactly phrase m of emergency pattern k escalates. */
  lemma EmergencyPhraseEscalates(t: string, k: nat, m: nat)
    requires k < |EMERGENCY_PATTERNS| && EMERGENCY_PATTERNS[k].WholeWords?
    requires m < |EMERGENCY_PATTERNS[k].phrases| && t == EMERGENCY_PATTERNS[k].phrases[m]
    ensures NeedsEmergencyEscalation(Some(t))
  {
    EmergencyPhrasePlain(k, m);
    LowerNoCapitals(t);
    assert t[0..|t|] == t;
    WholeWordsWitness(EMERGENCY_PATTERNS[k].phrases, t, 0, m);
  }

  /** "self-harm" and "self harm" both escalate. */
  lemma SelfHarmEitherSpelling(t: string)
    requires t == "self-harm" || t == "self harm"
    ensures NeedsEmergencyEscalation(Some(t))
  {
    if t == "self-harm" {
      EmergencyPhraseEscalates(t, 4, 3);
    } else {
      EmergencyPhraseEscalates(t, 4, 4);
    }
  }

  /** "one-sided weakness" and "one sided weakness" both escalate. */
  lemma OneSidedEitherSpelling(t: string)
    requires t == "one-sided weakness" || t == "one sided weakness"
    ensures NeedsEmergencyEscalation(Some(t))
  {
    if t == "one-sided weakness" {
      EmergencyPhraseEscalates(t, 2, 3);
    } else {
      EmergencyPhraseEscalates(t, 2, 4);
    }
  }

  lemma PrescriptionPhrasesPlain()
    ensures forall m :: 0 <= m < |BANNED_PATTERNS[0].phrases| ==> PlainPhrase(BANNED_PATTERNS[0].phrases[m])
  {
  }

  /** A text that is exactly phrase m of the first banned pattern is refused. */
  lemma BannedPhraseRefused(t: string, m: nat)
    requires m < |BANNED_PATTERNS[0].phrases| && t == BANNED_PATTERNS[0].phrases[m]
    ensures NeedsRefusal(Some(t))
  {
    PrescriptionPhrasesPlain();
    LowerNoCapitals(t);
    assert t[0..|t|] == t;
    WholeWordsWitness(BANNED_PATTERNS[0].phrases, t, 0, m);
  }

  /** "controlled substance" and "controlled substances" are both refused. */
  lemma ControlledSubstanceEitherNumber(t: string)
    requires t == "controlled substance" || t == "controlled substances"
    ensures NeedsRefusal(Some(t))
  {
    if t == "controlled substance" {
      BannedPhraseRefused(t, 2);
    } else {
      BannedPhraseRefused(t, 3);
    }
  }

  // ---------------------------------------------------------------------
  // The dose pattern: dose word first, population word later on the line
  // ---------------------------------------------------------------------

  /** Lower-case text that one banned pattern matches is refused. */
  lemma RefusedWhenMatches(t: string, k: nat)
    requires NoCapitals(t) && k < |BANNED_PATTERNS| && Matches(BANNED_PATTERNS[k], t)
    ensures NeedsRefusal(Some(t))
  {
    LowerNoCapitals(t);
  }

  /** A whole-word "dose"/"dosage" at i, then on the same line a population prefix at a boundary at j. */
  lemma DoseWitness(t: string, i: nat, k: nat, j: nat, l: nat)
    requires k < |BANNED_PATTERNS[1].words| && l < |BANNED_PATTERNS[1].prefixes|
    requires i + |BANNED_PATTERNS[1].words[k]| <= j <= |t|
    requires WholeWordAt(t, i, BANNED_PATTERNS[1].words[k])
    requires NoLineBreak(t, i + |BANNED_PATTERNS[1].words[k]|, j)
    requires PhraseAt(t, j, BANNED_PATTERNS[1].prefixes[l]) && Boundary(t, j)
    ensures Matches(BANNED_PATTERNS[1], t)
  {
    assert TailMatches(t, BANNED_PATTERNS[1].prefixes, i + |BANNED_PATTERNS[1].words[k]|);
    assert MatchesAt(BANNED_PATTERNS[1], t, i);
  }

  lemma DoseIfPregnantMatches(t: string)
    requires t == "dose if pregnant"
    ensures Matches(BANNED_PATTERNS[1], t)
  {
    assert t[0..4] == BANNED_PATTERNS[1].words[0];
    assert t[8..15] == BANNED_PATTERNS[1].prefixes[3];
    assert NoLineBreak(t, 4, 8);
    DoseWitness(t, 0, 0, 8, 3);
  }

  /** The population word needs only a leading boundary: "pregnant" counts. */
  lemma DoseIfPregnantRefused(t: string)
    requires t == "dose if pregnant"
    ensures NeedsRefusal(Some(t))
  {
    assert NoCapitals(t);
    DoseIfPregnantMatches(t);
    RefusedWhenMatches(t, 1);
  }

  lemma DosageInPregnancyMatches(t: string)
    requires t == "dosage in pregnancy"
    ensures Matches(BANNED_PATTERNS[1], t)
  {
    assert t[0..6] == BANNED_PATTERNS[1].words[1];
    assert t[10..17] == BANNED_PATTERNS[1].prefixes[3];
    assert NoLineBreak(t, 6, 10);
    DoseWitness(t, 0, 1, 10, 3);
  }

  /** "dosage" and "pregnancy" count too. */
  lemma DosageInPregnancyRefused(t: string)
    requires t == "dosage in pregnancy"
    ensures NeedsRefusal(Some(t))
  {
    assert NoCapitals(t);
    DosageInPregnancyMatches(t);
    RefusedWhenMatches(t, 1);
  }

  lemma DoseForBabysitterMatches(t: string)
    requires t == "dose for babysitter"
    ensures Matches(BANNED_PATTERNS[1], t)
  {
    assert t[0..4] == BANNED_PATTERNS[1].words[0];
    assert t[9..13] == BANNED_PATTERNS[1].prefixes[0];
    assert NoLineBreak(t, 4, 9);
    DoseWitness(t, 0, 0, 9, 0);
  }

  /** "babysitter" starts with "baby", so it counts. */
  lemma DoseForBabysitterRefused(t: string)
    requires t == "dose for babysitter"
    ensures NeedsRefusal(Some(t))
  {
    assert NoCapitals(t);
    DoseForBabysitterMatches(t);
    RefusedWhenMatches(t, 1);
  }

  /** "prescribe", "prescription" and "controlled ..." cannot occur in a text without 'p' and 'c'. */
  lemma NoPrescriptionWords(t: string)
    requires 'p' !in t && 'c' !in t
    ensures !Matches(BANNED_PATTERNS[0], t)
  {
    AbsentInitials(BANNED_PATTERNS[0].phrases, t);
  }

  /** The facts about the dose pattern the examples below rely on. */
  lemma DoseAlternatives()
    ensures forall k :: 0 <= k < |BANNED_PATTERNS[1].words| ==>
      |BANNED_PATTERNS[1].words[k]| >= 4 && BANNED_PATTERNS[1].words[k][0] == 'd'
    ensures forall l :: 0 <= l < |BANNED_PATTERNS[1].prefixes| ==>
      |BANNED_PATTERNS[1].prefixes[l]| >= 4 && BANNED_PATTERNS[1].prefixes[l][0] != '\n'
  {
  }

  /** A tail match needs room for one whole alternative after j. */
  lemma TailRoom(t: string, qs: seq<string>, j: nat, least: nat)
    requires forall l :: 0 <= l < |qs| ==> |qs[l]| >= least
    ensures TailMatches(t, qs, j) ==> j + least <= |t|
  {
  }

  /** No whole-word "dose"/"dosage" in t is followed on its line by a population prefix. */
  ghost predicate NoDoseThenPopulation(t: string) {
    forall i: nat, k | i <= |t| && 0 <= k < |BANNED_PATTERNS[1].words| ::
      !(WholeWordAt(t, i, BANNED_PATTERNS[1].words[k]) &&
        TailMatches(t, BANNED_PATTERNS[1].prefixes, i + |BANNED_PATTERNS[1].words[k]|))
  }

  /** The dose pattern fails when no "dose"/"dosage" whole word is followed by a tail on its line. */
  lemma DoseFailsEverywhere(t: string)
    requires NoDoseThenPopulation(t)
    requires 'p' !in t && 'c' !in t && NoCapitals(t)
    ensures !NeedsRefusal(Some(t))
  {
    LowerNoCapitals(t);
    NoPrescriptionWords(t);
    forall i: nat | i <= |t|
      ensures !MatchesAt(BANNED_PATTERNS[1], t, i)
    {
    }
  }

  lemma PopulationBeforeDoseNoDose(t: string)
    requires t == "infant dose"
    ensures NoDoseThenPopulation(t)
  {
    var ws, qs := BANNED_PATTERNS[1].words, BANNED_PATTERNS[1].prefixes;
    DoseAlternatives();
    forall i: nat, k | i <= |t| && 0 <= k < |ws|
      ensures !(WholeWordAt(t, i, ws[k]) && TailMatches(t, qs, i + |ws[k]|))
    {
      TailRoom(t, qs, i + |ws[k]|, 4);
      PhraseInitial(t, i, ws[k]);
      assert i <= 3 ==> i == 0 || i == 1 || i == 2 || i == 3;
    }
  }

  /** The population word before the dose word: "infant dose" is not refused. */
  lemma PopulationBeforeDoseNotRefused(t: string)
    requires t == "infant dose"
    ensures !NeedsRefusal(Some(t))
  {
    assert NoCapitals(t);
    PopulationBeforeDoseNoDose(t);
    DoseFailsEverywhere(t);
  }

  lemma DoseInsideWordNoDose(t: string)
    requires t == "dosed for baby"
    ensures NoDoseThenPopulation(t)
  {
    var ws, qs := BANNED_PATTERNS[1].words, BANNED_PATTERNS[1].prefixes;
    DoseAlternatives();
    forall i: nat, k | i <= |t| && 0 <= k < |ws|
      ensures !(WholeWordAt(t, i, ws[k]) && TailMatches(t, qs, i + |ws[k]|))
    {
      TailRoom(t, qs, i + |ws[k]|, 4);
      PhraseInitial(t, i, ws[k]);
      assert i <= 6 ==> i == 0 || i == 1 || i == 2 || i == 3 || i == 4 || i == 5 || i == 6;
      if PhraseAt(t, i, ws[k]) {
        PhraseChars(t, i, ws[k]);
      }
    }
  }

  /** "dosed" is not the whole word "dose": "dosed for baby" is not refused. */
  lemma DoseInsideWordNotRefused(t: string)
    requires t == "dosed for baby"
    ensures !NeedsRefusal(Some(t))
  {
    assert NoCapitals(t);
    DoseInsideWordNoDose(t);
    DoseFailsEverywhere(t);
  }

  lemma LineBreakBetweenNoDose(t: string)
    requires t == "dose\ninfant"
    ensures NoDoseThenPopulation(t)
  {
    var ws, qs := BANNED_PATTERNS[1].words, BANNED_PATTERNS[1].prefixes;
    DoseAlternatives();
    NoTailAcrossBreak(t, qs, 4);
    forall i: nat, k | i <= |t| && 0 <= k < |ws|
      ensures !(WholeWordAt(t, i, ws[k]) && TailMatches(t, qs, i + |ws[k]|))
    {
      TailRoom(t, qs, i + |ws[k]|, 4);
      PhraseInitial(t, i, ws[k]);
      assert i <= 3 ==> i == 0 || i == 1 || i == 2 || i == 3;
      if PhraseAt(t, i, ws[k]) {
        PhraseChars(t, i, ws[k]);
      }
    }
  }

  /** `.` stops at a line break: "dose\ninfant" is not refused. */
  lemma LineBreakBetweenNotRefused(t: string)
    requires t == "dose\ninfant"
    ensures !NeedsRefusal(Some(t))
  {
    assert NoCapitals(t);
    LineBreakBetweenNoDose(t);
    DoseFailsEverywhere(t);
  }
}
