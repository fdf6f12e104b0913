/**
 * The behaviour the analyser's unit tests describe, and the whole-word rule
 * of its patterns, derived from the model for those concrete texts.
 *
 * Facts about one literal string (its characters, how it splits into words)
 * are stated in small lemmas of their own; the general lemmas below then
 * combine them.
 */
module InstructionAnalyzerExamples {
  import opened InstructionAnalyzer

  // ---------------------------------------------------------------------
  // General steps

  /** No keyword other than e (if e is not empty) starts with the three (lower-cased) characters a, b, c. */
  predicate OnlyKeywordStartingWith(a: char, b: char, c: char, e: string)
  {
    forall p, k | p in InstructionPatterns && k in p :: k == e || k[0] != a || k[1] != b || k[2] != c
  }

  /**
   * No pattern matches at position i when the only keyword that starts with
   * the three characters found there does not match there either.
   */
  lemma NoMatchAt(s: string, i: nat, a: char, b: char, c: char, e: string)
    requires i + 2 < |s|
    requires LowerChar(s[i]) == a && LowerChar(s[i + 1]) == b && LowerChar(s[i + 2]) == c
    requires OnlyKeywordStartingWith(a, b, c, e) && (e == "" || !MatchAt(s, i, e))
    ensures !MatchesAt(InstructionPatterns, s, i)
  {
  }

  /** Skipping a leading word at which nothing matches, and the space after it, leaves whether the text matches unchanged. */
  lemma SkipWord(s: string, w: string, t: string)
    requires s == w + [' '] + t
    requires w != [] && forall j :: 0 <= j < |w| ==> IsWordChar(w[j])
    requires !MatchesAt(InstructionPatterns, s, 0)
    ensures MatchesSomewhere(InstructionPatterns, s) <==> MatchesSomewhere(InstructionPatterns, t)
  {
    KeywordsAreLetterInitial();
    PeelWordAndSeparator(InstructionPatterns, w, ' ', t);
  }

  /** A single word at whose start nothing matches does not match at all. */
  lemma LastWord(w: string)
    requires w != [] && forall j :: 0 <= j < |w| ==> IsWordChar(w[j])
    requires !MatchesAt(InstructionPatterns, w, 0)
    ensures !MatchesSomewhere(InstructionPatterns, w)
  {
    KeywordsAreLetterInitial();
    PeelWord(InstructionPatterns, w, []);
    assert w + [] == w;
  }

  /** Two words without terminators, joined by a space, have none either. */
  lemma NoTerminatorWords(w: string, t: string)
    requires NoTerminator(w) && NoTerminator(t)
    ensures NoTerminator(w + [' '] + t)
  {
    NoTerminatorAppend(w, [' ']);
    NoTerminatorAppend(w + [' '], t);
  }

  /** A word that folds to keyword k, followed by a space, matches k at its start. */
  lemma KeywordBeforeSpace(w: string, t: string, k: string)
    requires |w| == |k| && w != [] && IsWordChar(w[0]) && IsWordChar(w[|w| - 1])
    requires FoldsTo(w, 0, k)
    ensures MatchAt(w + [' '] + t, 0, k)
  {
    var s := w + [' '] + t;
    assert s[|w|] == ' ' && s[0] == w[0];
    assert forall j :: 0 <= j < |k| ==> s[j] == w[j];
  }

  /** A match at the start of t is a match in w + " " + t, just after the space. */
  lemma KeywordAfterSpace(w: string, t: string, k: string)
    requires MatchAt(t, 0, k)
    ensures MatchAt(w + [' '] + t, |w| + 1, k)
  {
    var s := w + [' '] + t;
    assert s[|w|] == ' ';
    assert forall j :: 0 <= j < |t| ==> s[|w| + 1 + j] == t[j];
  }

  /** A keyword of some pattern matching somewhere makes the text an instruction. */
  lemma Matched(s: string, i: nat, p: seq<string>, k: string)
    requires p in InstructionPatterns && k in p
    requires i < |s| && MatchAt(s, i, k)
    ensures IsInstruction(s)
  {
    SomePatternTestIff(InstructionPatterns, s);
    assert MatchesAt(InstructionPatterns, s, i);
  }

  /** Trimming a sentence that follows a terminator and a space drops that space. */
  lemma TrimLeadingSpace(w: string)
    requires w != [] && !IsSpace(w[0]) && !IsSpace(w[|w| - 1])
    ensures Trim([' '] + w) == w
  {
    assert ([' '] + w)[1..] == w;
    assert TrimStart([' '] + w) == TrimStart(w);
    TrimUnpadded(w);
  }

  /** An unpadded fragment is its own trimmed form. */
  lemma Unpadded(f: string)
    requires f != [] && !IsSpace(f[0]) && !IsSpace(f[|f| - 1])
    ensures Trim(f) == f
  {
    TrimUnpadded(f);
  }

  /** A text that is one fragment and its terminator yields what the fragment yields. */
  lemma ClosedFragment(text: string, f: string, t: char)
    requires text == f + [t] && IsTerminator(t)
    ensures Instructions(text) == Instructions(f)
  {
    InstructionsSplit(f, t, []);
    assert f + [t] + [] == text;
    assert Sentences([]) == [];
  }

  // ---------------------------------------------------------------------
  // 'You must follow these guidelines.'

  /** The sentence is returned, trimmed of its full stop. */
  lemma DetectsMustInstruction()
    ensures Instructions("You must follow these guidelines.") == ["You must follow these guidelines"]
  {
    MustFacts();
    Matched("You must follow these guidelines", 4, InstructionPatterns[0], "must");
    Unpadded("You must follow these guidelines");
    InstructionsOfFragment("You must follow these guidelines");
    ClosedFragment("You must follow these guidelines.", "You must follow these guidelines", '.');
  }

  lemma MustFacts()
    ensures "You must follow these guidelines." == "You must follow these guidelines" + ['.']
    ensures NoTerminator("You must follow these guidelines")
    ensures "You must follow these guidelines"[0] == 'Y'
    ensures "You must follow these guidelines"[31] == 's'
    ensures "must" in InstructionPatterns[0]
    ensures MatchAt("You must follow these guidelines", 4, "must")
  {
    MustClosed();
    MustNoTerminator();
    MustMatch();
  }

  lemma MustClosed()
    ensures "You must follow these guidelines." == "You must follow these guidelines" + ['.']
  {
  }

  lemma MustNoTerminator()
    ensures NoTerminator("You must follow these guidelines")
  {
  }

  lemma MustMatch()
    ensures MatchAt("You must follow these guidelines", 4, "must")
  {
    MustWords();
    KeywordBeforeSpace("must", "follow these guidelines", "must");
    KeywordAfterSpace("You", "must follow these guidelines", "must");
  }

  lemma MustWords()
    ensures "You must follow these guidelines" == "You" + [' '] + "must follow these guidelines"
    ensures "must follow these guidelines" == "must" + [' '] + "follow these guidelines"
  {
  }

  // ---------------------------------------------------------------------
  // 'This is a CRITICAL requirement.'

  /** The keyword is found whatever its case. */
  lemma DetectsCriticalInstruction()
    ensures Instructions("This is a CRITICAL requirement.") == ["This is a CRITICAL requirement"]
  {
    CriticalFacts();
    Matched("This is a CRITICAL requirement", 10, InstructionPatterns[0], "critical");
    Unpadded("This is a CRITICAL requirement");
    InstructionsOfFragment("This is a CRITICAL requirement");
    ClosedFragment("This is a CRITICAL requirement.", "This is a CRITICAL requirement", '.');
  }

  lemma CriticalFacts()
    ensures "This is a CRITICAL requirement." == "This is a CRITICAL requirement" + ['.']
    ensures NoTerminator("This is a CRITICAL requirement")
    ensures "This is a CRITICAL requirement"[0] == 'T'
    ensures "This is a CRITICAL requirement"[29] == 't'
    ensures "critical" in InstructionPatterns[0]
    ensures MatchAt("This is a CRITICAL requirement", 10, "critical")
  {
    CriticalClosed();
    CriticalNoTerminator();
    CriticalMatch();
  }

  lemma CriticalClosed()
    ensures "This is a CRITICAL requirement." == "This is a CRITICAL requirement" + ['.']
  {
  }

  lemma CriticalNoTerminator()
    ensures NoTerminator("This is a CRITICAL requirement")
  {
  }

  lemma CriticalMatch()
    ensures MatchAt("This is a CRITICAL requirement", 10, "critical")
  {
    CriticalWords();
    KeywordBeforeSpace("CRITICAL", "requirement", "critical");
    KeywordAfterSpace("This is a", "CRITICAL requirement", "critical");
  }

  lemma CriticalWords()
    ensures "This is a CRITICAL requirement" == "This is a" + [' '] + "CRITICAL requirement"
    ensures "CRITICAL requirement" == "CRITICAL" + [' '] + "requirement"
  {
  }

  // ---------------------------------------------------------------------
  // 'You must do this. Never do that. Always follow protocol.'

  /** Each of the three sentences is returned, in order. */
  lemma DetectsMultipleInstructions()
    ensures Instructions("You must do this. Never do that. Always follow protocol.")
      == ["You must do this", "Never do that", "Always follow protocol"]
  {
    MultipleFacts();
    InstructionsSplit("You must do this", '.', " Never do that. Always follow protocol.");
    MultipleFirst();
    MultipleRest();
  }

  lemma MultipleRest()
    ensures Instructions(" Never do that. Always follow protocol.") == ["Never do that", "Always follow protocol"]
  {
    MultipleRestFacts();
    InstructionsSplit(" Never do that", '.', " Always follow protocol.");
    MultipleSecond();
    MultipleThird();
  }

  lemma MultipleFirst()
    ensures Instructions("You must do this") == ["You must do this"]
  {
    MultipleFirstFacts();
    Matched("You must do this", 4, InstructionPatterns[0], "must");
    Unpadded("You must do this");
    InstructionsOfFragment("You must do this");
  }

  lemma MultipleSecond()
    ensures Instructions(" Never do that") == ["Never do that"]
  {
    MultipleSecondFacts();
    Matched("Never do that", 0, InstructionPatterns[1], "never");
    TrimLeadingSpace("Never do that");
    InstructionsOfFragment(" Never do that");
  }

  lemma MultipleThird()
    ensures Instructions(" Always follow protocol.") == ["Always follow protocol"]
  {
    MultipleRestFacts();
    MultipleThirdFacts();
    Matched("Always follow protocol", 0, InstructionPatterns[1], "always");
    TrimLeadingSpace("Always follow protocol");
    InstructionsOfFragment(" Always follow protocol");
    ClosedFragment(" Always follow protocol.", " Always follow protocol", '.');
  }

  lemma MultipleFacts()
    ensures "You must do this. Never do that. Always follow protocol."
      == "You must do this" + ['.'] + " Never do that. Always follow protocol."
  {
  }

  lemma MultipleRestFacts()
    ensures " Never do that. Always follow protocol." == " Never do that" + ['.'] + " Always follow protocol."
    ensures " Always follow protocol." == " Always follow protocol" + ['.']
  {
  }

  lemma MultipleFirstFacts()
    ensures NoTerminator("You must do this")
    ensures "You must do this"[0] == 'Y' && "You must do this"[15] == 's'
    ensures "must" in InstructionPatterns[0]
    ensures MatchAt("You must do this", 4, "must")
  {
  }

  lemma MultipleSecondFacts()
    ensures NoTerminator(" Never do that")
    ensures " Never do that" == [' '] + "Never do that"
    ensures "Never do that"[0] == 'N' && "Never do that"[12] == 't'
    ensures "never" in InstructionPatterns[1]
    ensures MatchAt("Never do that", 0, "never")
  {
  }

  lemma MultipleThirdFacts()
    ensures NoTerminator(" Always follow protocol")
    ensures " Always follow protocol" == [' '] + "Always follow protocol"
    ensures "Always follow protocol"[0] == 'A' && "Always follow protocol"[21] == 'l'
    ensures "always" in InstructionPatterns[1]
    ensures MatchAt("Always follow protocol", 0, "always")
  {
    MultipleThirdNoTerminator();
    MultipleThirdMatch();
  }

  lemma MultipleThirdNoTerminator()
    ensures NoTerminator(" Always follow protocol")
  {
  }

  lemma MultipleThirdMatch()
    ensures MatchAt("Always follow protocol", 0, "always")
  {
  }

  // ---------------------------------------------------------------------
  // 'This is a normal sentence without instructions.'

  /** A sentence with no keyword yields nothing. */
  lemma IgnoresNonInstructionText()
    ensures Instructions("This is a normal sentence without instructions.") == []
  {
    NormalFacts();
    NormalFromThis();
    SomePatternTestIff(InstructionPatterns, "This is a normal sentence without instructions");
    Unpadded("This is a normal sentence without instructions");
    InstructionsOfFragment("This is a normal sentence without instructions");
    ClosedFragment("This is a normal sentence without instructions.", "This is a normal sentence without instructions", '.');
  }

  lemma NormalFacts()
    ensures "This is a normal sentence without instructions." == "This is a normal sentence without instructions" + ['.']
    ensures NoTerminator("This is a normal sentence without instructions")
    ensures "This is a normal sentence without instructions"[0] == 'T'
    ensures "This is a normal sentence without instructions"[45] == 's'
  {
    NormalClosed();
    NormalNoTerminator();
    NormalFromThisFacts();
  }

  lemma NormalNoTerminator()
    ensures NoTerminator("This is a normal sentence without instructions")
  {
    NormalFromThisFacts();
    NormalFromIsFacts();
    NormalFromAFacts();
    NormalTailNoTerminator();
    NoTerminatorWords("a", "normal sentence without instructions");
    NoTerminatorWords("is", "a normal sentence without instructions");
    NoTerminatorWords("This", "is a normal sentence without instructions");
  }

  lemma NormalTailNoTerminator()
    ensures NoTerminator("normal sentence without instructions")
  {
    NormalFromNormalFacts();
    NormalFromSentenceFacts();
    NormalFromWithoutFacts();
    NoTerminatorWords("without", "instructions");
    NoTerminatorWords("sentence", "without instructions");
    NoTerminatorWords("normal", "sentence without instructions");
  }

  lemma NormalClosed()
    ensures "This is a normal sentence without instructions." == "This is a normal sentence without instructions" + ['.']
  {
  }

  lemma NormalFromThis()
    ensures !MatchesSomewhere(InstructionPatterns, "This is a normal sentence without instructions")
  {
    NormalFromThisFacts();
    NormalFromIs();
    NoMatchAt("This is a normal sentence without instructions", 0, 't', 'h', 'i', "");
    SkipWord("This is a normal sentence without instructions", "This", "is a normal sentence without instructions");
  }

  lemma NormalFromThisFacts()
    ensures "This is a normal sentence without instructions" == "This" + [' '] + "is a normal sentence without instructions"
  {
  }

  lemma NormalFromIs()
    ensures !MatchesSomewhere(InstructionPatterns, "is a normal sentence without instructions")
  {
    NormalFromIsFacts();
    NormalFromA();
    NoMatchAt("is a normal sentence without instructions", 0, 'i', 's', ' ', "");
    SkipWord("is a normal sentence without instructions", "is", "a normal sentence without instructions");
  }

  lemma NormalFromIsFacts()
    ensures "is a normal sentence without instructions" == "is" + [' '] + "a normal sentence without instructions"
  {
  }

  lemma NormalFromA()
    ensures !MatchesSomewhere(InstructionPatterns, "a normal sentence without instructions")
  {
    NormalFromAFacts();
    NormalFromNormal();
    NoMatchAt("a normal sentence without instructions", 0, 'a', ' ', 'n', "");
    SkipWord("a normal sentence without instructions", "a", "normal sentence without instructions");
  }

  lemma NormalFromAFacts()
    ensures "a normal sentence without instructions" == "a" + [' '] + "normal sentence without instructions"
  {
  }

  lemma NormalFromNormal()
    ensures !MatchesSomewhere(InstructionPatterns, "normal sentence without instructions")
  {
    NormalFromNormalFacts();
    NormalFromSentence();
    NoMatchAt("normal sentence without instructions", 0, 'n', 'o', 'r', "");
    SkipWord("normal sentence without instructions", "normal", "sentence without instructions");
  }

  lemma NormalFromNormalFacts()
    ensures "normal sentence without instructions" == "normal" + [' '] + "sentence without instructions"
  {
  }

  lemma NormalFromSentence()
    ensures !MatchesSomewhere(InstructionPatterns, "sentence without instructions")
  {
    NormalFromSentenceFacts();
    NormalFromWithout();
    NoMatchAt("sentence without instructions", 0, 's', 'e', 'n', "");
    SkipWord("sentence without instructions", "sentence", "without instructions");
  }

  lemma NormalFromSentenceFacts()
    ensures "sentence without instructions" == "sentence" + [' '] + "without instructions"
  {
  }

  lemma NormalFromWithout()
    ensures !MatchesSomewhere(InstructionPatterns, "without instructions")
  {
    NormalFromWithoutFacts();
    NormalFromInstructions();
    NoMatchAt("without instructions", 0, 'w', 'i', 't', "");
    SkipWord("without instructions", "without", "instructions");
  }

  lemma NormalFromWithoutFacts()
    ensures "without instructions" == "without" + [' '] + "instructions"
  {
  }

  lemma NormalFromInstructions()
    ensures !MatchesSomewhere(InstructionPatterns, "instructions")
  {
    NoMatchAt("instructions", 0, 'i', 'n', 's', "");
    LastWord("instructions");
  }

  // ---------------------------------------------------------------------
  // 'Pass the mustard.'

  /** A keyword inside a longer word is not a match: "mustard" does not contain the word "must". */
  lemma IgnoresKeywordInsideWord()
    ensures Instructions("Pass the mustard.") == []
  {
    MustardFacts();
    MustardFromPass();
    SomePatternTestIff(InstructionPatterns, "Pass the mustard");
    Unpadded("Pass the mustard");
    InstructionsOfFragment("Pass the mustard");
    ClosedFragment("Pass the mustard.", "Pass the mustard", '.');
  }

  lemma MustardFacts()
    ensures "Pass the mustard." == "Pass the mustard" + ['.']
    ensures NoTerminator("Pass the mustard")
    ensures "Pass the mustard"[0] == 'P' && "Pass the mustard"[15] == 'd'
  {
  }

  lemma MustardFromPass()
    ensures !MatchesSomewhere(InstructionPatterns, "Pass the mustard")
  {
    MustardFromPassFacts();
    MustardFromThe();
    NoMatchAt("Pass the mustard", 0, 'p', 'a', 's', "");
    SkipWord("Pass the mustard", "Pass", "the mustard");
  }

  lemma MustardFromPassFacts()
    ensures "Pass the mustard" == "Pass" + [' '] + "the mustard"
  {
  }

  lemma MustardFromThe()
    ensures !MatchesSomewhere(InstructionPatterns, "the mustard")
  {
    MustardFromTheFacts();
    MustardFromMustard();
    NoMatchAt("the mustard", 0, 't', 'h', 'e', "");
    SkipWord("the mustard", "the", "mustard");
  }

  lemma MustardFromTheFacts()
    ensures "the mustard" == "the" + [' '] + "mustard"
  {
  }

  lemma MustardFromMustard()
    ensures !MatchesSomewhere(InstructionPatterns, "mustard")
  {
    NoMatchAt("mustard", 0, 'm', 'u', 's', "must");
    LastWord("mustard");
  }
}
