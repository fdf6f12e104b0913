/**
 * The instruction detector of the text analyser: `analyzeText` splits a text
 * into sentence fragments at runs of `.`, `!` and `?`, trims each fragment and
 * keeps, in order, the trimmed fragments that one of the instruction patterns
 * matches. Each pattern is a case-insensitive alternation of keywords between
 * two word boundaries (`\b`).
 */
module InstructionAnalyzer {

  /** The alternatives of the four patterns, in the order the patterns are tried. */
  const InstructionPatterns: seq<seq<string>> := [
    ["must", "should", "shall", "required", "mandatory", "critical"],
    ["always", "never", "do not", "cannot", "can't"],
    ["important", "note", "warning", "caution"],
    ["follow", "ensure", "make sure", "verify"]
  ]

  /** The characters of the separator class `[.!?]`. */
  predicate IsTerminator(c: char)
  {
    c == '.' || c == '!' || c == '?'
  }

  /** A word character for `\b` outside unicode mode: an ASCII letter, digit or `_`. */
  predicate IsWordChar(c: char)
  {
    ('a' <= c <= 'z') || ('A' <= c <= 'Z') || ('0' <= c <= '9') || c == '_'
  }

  /** The white space and line terminators that `String.prototype.trim` removes. */
  predicate IsSpace(c: char)
  {
    c == '\t' || c == '\n' || c == '\U{B}' || c == '\U{C}' || c == '\r' || c == ' '
    || c == '\U{A0}' || c == '\U{1680}' || ('\U{2000}' <= c <= '\U{200A}')
    || c == '\U{2028}' || c == '\U{2029}' || c == '\U{202F}' || c == '\U{205F}'
    || c == '\U{3000}' || c == '\U{FEFF}'
  }

  /** Case folding under the `i` flag for the ASCII letters the keywords are made of. */
  function LowerChar(c: char): char
  {
    if 'A' <= c <= 'Z' then (c as int + 32) as char else c
  }

  /** The |k| characters of s from position i equal k once folded to lower case. */
  predicate FoldsTo(s: string, i: nat, k: string)
    requires i + |k| <= |s|
  {
    forall j :: 0 <= j < |k| ==> LowerChar(s[i + j]) == k[j]
  }

  /** `\b` at position j of s: a word character on exactly one side of j. */
  predicate WordBoundary(s: string, j: nat)
    requires j <= |s|
  {
    (j > 0 && IsWordChar(s[j - 1])) != (j < |s| && IsWordChar(s[j]))
  }

  /** Keyword k (in lower case) occurs at position i of s between two word boundaries. */
  predicate MatchAt(s: string, i: nat, k: string)
  {
    i + |k| <= |s| && WordBoundary(s, i) && FoldsTo(s, i, k) && WordBoundary(s, i + |k|)
  }

  /** `pattern.test(s)` for the pattern whose alternatives are `alternatives`. */
  predicate PatternTest(alternatives: seq<string>, s: string)
  {
    exists i, k | 0 <= i < |s| && k in alternatives :: MatchAt(s, i, k)
  }

  /** `patterns.some(pattern => pattern.test(s))`. */
  predicate SomePatternTest(patterns: seq<seq<string>>, s: string)
  {
    patterns != [] && (PatternTest(patterns[0], s) || SomePatternTest(patterns[1..], s))
  }

  /** `INSTRUCTION_PATTERNS.some(pattern => pattern.test(s))`. */
  predicate IsInstruction(s: string)
  {
    SomePatternTest(InstructionPatterns, s)
  }

  /** Length of the longest prefix of s without a terminator. */
  function FragmentLength(s: string): (n: nat)
    ensures n <= |s|
    ensures forall j :: 0 <= j < n ==> !IsTerminator(s[j])
    ensures n < |s| ==> IsTerminator(s[n])
  {
    if s == [] || IsTerminator(s[0]) then 0 else 1 + FragmentLength(s[1..])
  }

  /**
   * `text.split(/[.!?]+/).filter(Boolean)`: the maximal runs of
   * non-terminator characters, in order. Splitting at runs of terminators
   * only ever produces empty pieces at the two ends, and those are the pieces
   * `filter(Boolean)` removes, so skipping every terminator gives the same list.
   */
  function Sentences(text: string): seq<string>
    decreases |text|
  {
    if text == [] then []
    else if IsTerminator(text[0]) then Sentences(text[1..])
    else
      var n := FragmentLength(text);
      [text[..n]] + Sentences(text[n..])
  }

  /** Removes the leading white space. */
  function TrimStart(s: string): string
    decreases |s|
  {
    if s != [] && IsSpace(s[0]) then TrimStart(s[1..]) else s
  }

  /** Removes the trailing white space. */
  function TrimEnd(s: string): string
    decreases |s|
  {
    if s != [] && IsSpace(s[|s| - 1]) then TrimEnd(s[..|s| - 1]) else s
  }

  /** `s.trim()`: the part of s between its leading and its trailing white space. */
  function Trim(s: string): string
  {
    TrimEnd(TrimStart(s))
  }

  /** A string with no white space at either end is its own trimmed form. */
  lemma TrimUnpadded(s: string)
    requires s != [] && !IsSpace(s[0]) && !IsSpace(s[|s| - 1])
    ensures Trim(s) == s
  {
  }

  /**
   * What trimming removes is white space at the two ends and nothing else,
   * and what is left neither starts nor ends with white space.
   */
  lemma TrimIsSlice(s: string)
    ensures exists i, j ::
      && 0 <= i <= j <= |s| && Trim(s) == s[i..j]
      && (forall m :: 0 <= m < i ==> IsSpace(s[m]))
      && (forall m :: j <= m < |s| ==> IsSpace(s[m]))
    ensures Trim(s) == [] || (!IsSpace(Trim(s)[0]) && !IsSpace(Trim(s)[|Trim(s)| - 1]))
  {
    TrimStartIsSuffix(s);
    var t := TrimStart(s);
    TrimEndIsPrefix(t);
    var r := TrimEnd(t);
    assert r == s[|s| - |t|..|s| - |t| + |r|];
  }

  /** TrimStart leaves a suffix that does not start with white space, after white space only. */
  lemma {:induction false} TrimStartIsSuffix(s: string)
    ensures |TrimStart(s)| <= |s| && TrimStart(s) == s[|s| - |TrimStart(s)|..]
    ensures forall j :: 0 <= j < |s| - |TrimStart(s)| ==> IsSpace(s[j])
    ensures TrimStart(s) == [] || !IsSpace(TrimStart(s)[0])
    decreases |s|
  {
    if s != [] && IsSpace(s[0]) {
      TrimStartIsSuffix(s[1..]);
    }
  }

  /** TrimEnd leaves a prefix that does not end with white space, before white space only. */
  lemma {:induction false} TrimEndIsPrefix(s: string)
    ensures |TrimEnd(s)| <= |s| && TrimEnd(s) == s[..|TrimEnd(s)|]
    ensures forall j :: |TrimEnd(s)| <= j < |s| ==> IsSpace(s[j])
    ensures TrimEnd(s) == [] || !IsSpace(TrimEnd(s)[|TrimEnd(s)| - 1])
    decreases |s|
  {
    if s != [] && IsSpace(s[|s| - 1]) {
      TrimEndIsPrefix(s[..|s| - 1]);
    }
  }

  /** The trimmed sentences that one of the patterns matches, in order. */
  function Kept(patterns: seq<seq<string>>, sentences: seq<string>): seq<string>
  {
    if sentences == [] then []
    else
      var last := Trim(sentences[|sentences| - 1]);
      Kept(patterns, sentences[..|sentences| - 1]) + (if SomePatternTest(patterns, last) then [last] else [])
  }

  /** What `analyzeText(text)` returns. */
  function Instructions(text: string): seq<string>
  {
    Kept(InstructionPatterns, Sentences(text))
  }

  /** `analyzeText`: the forEach loop that pushes every matching trimmed sentence. */
  method AnalyzeText(text: string) returns (instructions: seq<string>)
    ensures instructions == Instructions(text)
  {
    instructions := [];
    var sentences := Sentences(text);
    var i := 0;
    while i < |sentences|
      invariant 0 <= i <= |sentences|
      invariant instructions == Kept(InstructionPatterns, sentences[..i])
    {
      var trimmedSentence := Trim(sentences[i]);
      if IsInstruction(trimmedSentence) {
        instructions := instructions + [trimmedSentence];
      }
      assert sentences[..i + 1][..i] == sentences[..i];
      i := i + 1;
    }
    assert sentences[..i] == sentences;
  }

  // ---------------------------------------------------------------------
  // Sentence splitting

  predicate NoTerminator(s: string)
  {
    forall j :: 0 <= j < |s| ==> !IsTerminator(s[j])
  }

  /** The characters of s that are not terminators, in order. */
  function WithoutTerminators(s: string): string
  {
    if s == [] then []
    else (if IsTerminator(s[0]) then [] else [s[0]]) + WithoutTerminators(s[1..])
  }

  function Concat(ss: seq<string>): string
  {
    if ss == [] then [] else ss[0] + Concat(ss[1..])
  }

  lemma {:induction false} WithoutTerminatorsAppend(a: string, b: string)
    ensures WithoutTerminators(a + b) == WithoutTerminators(a) + WithoutTerminators(b)
    decreases |a|
  {
    if a != [] {
      assert (a + b)[0] == a[0];
      assert (a + b)[1..] == a[1..] + b;
      WithoutTerminatorsAppend(a[1..], b);
    } else {
      assert a + b == b;
    }
  }

  lemma {:induction false} WithoutTerminatorsOfFragment(w: string)
    requires NoTerminator(w)
    ensures WithoutTerminators(w) == w
    decreases |w|
  {
    if w != [] {
      WithoutTerminatorsOfFragment(w[1..]);
    }
  }

  /**
   * The fragments are non-empty, hold no terminator and, put back together,
   * give the text with its terminators removed: nothing is lost, reordered
   * or duplicated.
   */
  lemma {:induction false} SentencesAreFragments(text: string)
    ensures forall f :: f in Sentences(text) ==> f != [] && NoTerminator(f)
    ensures Concat(Sentences(text)) == WithoutTerminators(text)
    decreases |text|
  {
    if text == [] {
    } else if IsTerminator(text[0]) {
      SentencesAreFragments(text[1..]);
    } else {
      var n := FragmentLength(text);
      SentencesAreFragments(text[n..]);
      assert text == text[..n] + text[n..];
      WithoutTerminatorsAppend(text[..n], text[n..]);
      WithoutTerminatorsOfFragment(text[..n]);
    }
  }

  lemma {:induction false} FragmentLengthAppend(a: string, b: string)
    requires FragmentLength(a) < |a| || (b != [] && IsTerminator(b[0]))
    ensures FragmentLength(a + b) == FragmentLength(a)
    decreases |a|
  {
    if a != [] && !IsTerminator(a[0]) {
      assert (a + b)[1..] == a[1..] + b;
      FragmentLengthAppend(a[1..], b);
    }
  }

  /** A terminator always ends a fragment: splitting there splits the list of sentences. */
  lemma {:induction false} SentencesSplit(a: string, t: char, b: string)
    requires IsTerminator(t)
    ensures Sentences(a + [t] + b) == Sentences(a) + Sentences(b)
    decreases |a|
  {
    var s := a + [t] + b;
    if a == [] {
      assert s[1..] == b;
    } else if IsTerminator(a[0]) {
      assert s[1..] == a[1..] + [t] + b;
      SentencesSplit(a[1..], t, b);
    } else {
      FragmentLengthAppend(a, [t] + b);
      assert s == a + ([t] + b);
      var n := FragmentLength(a);
      assert s[..n] == a[..n];
      assert s[n..] == a[n..] + [t] + b;
      SentencesSplit(a[n..], t, b);
    }
  }

  /** A non-empty text without terminators is a single sentence. */
  lemma SentencesOfFragment(w: string)
    requires w != [] && NoTerminator(w)
    ensures Sentences(w) == [w]
  {
    assert FragmentLength(w) == |w|;
    assert w[..|w|] == w;
    assert w[|w|..] == [];
  }

  /** Two texts without terminators join into one without terminators. */
  lemma NoTerminatorAppend(a: string, b: string)
    requires NoTerminator(a) && NoTerminator(b)
    ensures NoTerminator(a + b)
  {
    assert forall j :: |a| <= j < |a + b| ==> (a + b)[j] == b[j - |a|];
  }

  /** A text without terminators is one sentence: it yields its trimmed form exactly when that is an instruction. */
  lemma InstructionsOfFragment(f: string)
    requires f != [] && NoTerminator(f)
    ensures Instructions(f) == if IsInstruction(Trim(f)) then [Trim(f)] else []
  {
    SentencesOfFragment(f);
    assert Kept(InstructionPatterns, [f]) == Kept(InstructionPatterns, []) + (if IsInstruction(Trim(f)) then [Trim(f)] else []);
  }

  /** A single sentence closed by a terminator yields its trimmed form exactly when that is an instruction. */
  lemma InstructionsOfSentence(w: string, t: char)
    requires w != [] && NoTerminator(w) && IsTerminator(t)
    ensures Instructions(w + [t]) == if IsInstruction(Trim(w)) then [Trim(w)] else []
  {
    SentencesSplit(w, t, []);
    SentencesOfFragment(w);
    assert w + [t] + [] == w + [t];
    assert Sentences([]) == [];
    assert Kept(InstructionPatterns, [w]) == Kept(InstructionPatterns, []) + (if IsInstruction(Trim(w)) then [Trim(w)] else []);
  }

  // ---------------------------------------------------------------------
  // Filtering

  /** Every kept string is the trimmed form of one of the sentences, and it is an instruction. */
  lemma {:induction false} KeptFromSentences(patterns: seq<seq<string>>, sentences: seq<string>)
    ensures forall x :: x in Kept(patterns, sentences) ==>
      SomePatternTest(patterns, x) && exists j :: 0 <= j < |sentences| && x == Trim(sentences[j])
    decreases |sentences|
  {
    if sentences != [] {
      var init := sentences[..|sentences| - 1];
      KeptFromSentences(patterns, init);
      forall x | x in Kept(patterns, init)
        ensures exists j :: 0 <= j < |sentences| && x == Trim(sentences[j])
      {
        var j :| 0 <= j < |init| && x == Trim(init[j]);
        assert sentences[j] == init[j];
      }
    }
  }

  /** Every sentence whose trimmed form is an instruction is kept. */
  lemma {:induction false} KeptAllMatches(patterns: seq<seq<string>>, sentences: seq<string>)
    ensures forall j :: 0 <= j < |sentences| && SomePatternTest(patterns, Trim(sentences[j])) ==>
      Trim(sentences[j]) in Kept(patterns, sentences)
    decreases |sentences|
  {
    if sentences != [] {
      var init := sentences[..|sentences| - 1];
      KeptAllMatches(patterns, init);
      forall j | 0 <= j < |init| && SomePatternTest(patterns, Trim(sentences[j]))
        ensures Trim(sentences[j]) in Kept(patterns, sentences)
      {
        assert init[j] == sentences[j];
      }
    }
  }

  /** Filtering commutes with concatenation: relative order is kept. */
  lemma {:induction false} KeptAppend(patterns: seq<seq<string>>, a: seq<string>, b: seq<string>)
    ensures Kept(patterns, a + b) == Kept(patterns, a) + Kept(patterns, b)
    decreases |b|
  {
    if b != [] {
      assert (a + b)[..|a + b| - 1] == a + b[..|b| - 1];
      KeptAppend(patterns, a, b[..|b| - 1]);
    } else {
      assert a + b == a;
    }
  }

  /** The instructions of two texts joined at a terminator are those of the first, then those of the second. */
  lemma InstructionsSplit(a: string, t: char, b: string)
    requires IsTerminator(t)
    ensures Instructions(a + [t] + b) == Instructions(a) + Instructions(b)
  {
    SentencesSplit(a, t, b);
    KeptAppend(InstructionPatterns, Sentences(a), Sentences(b));
  }

  /**
   * Every string `analyzeText` returns matches one of the patterns, is not
   * empty, holds no `.`, `!` or `?`, and has no white space at either end.
   */
  lemma InstructionsAreTrimmedMatches(text: string)
    ensures forall r :: r in Instructions(text) ==>
      && IsInstruction(r)
      && r != []
      && NoTerminator(r)
      && !IsSpace(r[0]) && !IsSpace(r[|r| - 1])
  {
    KeptAreTrimmedMatches(InstructionPatterns, text);
  }

  lemma KeptAreTrimmedMatches(patterns: seq<seq<string>>, text: string)
    ensures forall r :: r in Kept(patterns, Sentences(text)) ==>
      && SomePatternTest(patterns, r)
      && r != []
      && NoTerminator(r)
      && !IsSpace(r[0]) && !IsSpace(r[|r| - 1])
  {
    var sentences := Sentences(text);
    KeptFromSentences(patterns, sentences);
    SentencesAreFragments(text);
    forall r | r in Kept(patterns, sentences)
      ensures r != [] && NoTerminator(r) && !IsSpace(r[0]) && !IsSpace(r[|r| - 1])
    {
      var j :| 0 <= j < |sentences| && r == Trim(sentences[j]);
      assert sentences[j] in sentences;
      TrimmedMatch(patterns, sentences[j]);
    }
  }

  /** A fragment whose trimmed form matches trims to a non-empty, unpadded string without terminators. */
  lemma TrimmedMatch(patterns: seq<seq<string>>, f: string)
    requires NoTerminator(f) && SomePatternTest(patterns, Trim(f))
    ensures var r := Trim(f); r != [] && NoTerminator(r) && !IsSpace(r[0]) && !IsSpace(r[|r| - 1])
  {
    var r := Trim(f);
    TrimIsSlice(f);
    var i, k :| 0 <= i <= k <= |f| && r == f[i..k];
    assert forall m :: 0 <= m < |r| ==> r[m] == f[i + m];
    MatchedIsNonEmpty(patterns, r);
  }

  /** A string that a pattern matches is not empty: a match starts at an index of the string. */
  lemma {:induction false} MatchedIsNonEmpty(patterns: seq<seq<string>>, s: string)
    requires SomePatternTest(patterns, s)
    ensures s != []
    decreases |patterns|
  {
    if !PatternTest(patterns[0], s) {
      MatchedIsNonEmpty(patterns[1..], s);
    }
  }

  /** A text none of whose trimmed sentences matches yields nothing. */
  lemma NoMatchNoInstructions(text: string)
    requires forall f :: f in Sentences(text) ==> !IsInstruction(Trim(f))
    ensures Instructions(text) == []
  {
    NothingKept(InstructionPatterns, Sentences(text));
  }

  lemma {:induction false} NothingKept(patterns: seq<seq<string>>, sentences: seq<string>)
    requires forall f :: f in sentences ==> !SomePatternTest(patterns, Trim(f))
    ensures Kept(patterns, sentences) == []
    decreases |sentences|
  {
    if sentences != [] {
      assert sentences[|sentences| - 1] in sentences;
      NothingKept(patterns, sentences[..|sentences| - 1]);
    }
  }

  // ---------------------------------------------------------------------
  // Matching, position by position

  /** Some alternative of some pattern matches at position i of s. */
  predicate MatchesAt(patterns: seq<seq<string>>, s: string, i: nat)
  {
    exists p, k | p in patterns && k in p :: MatchAt(s, i, k)
  }

  /** Some alternative of some pattern matches somewhere in s. */
  predicate MatchesSomewhere(patterns: seq<seq<string>>, s: string)
  {
    exists i | 0 <= i < |s| :: MatchesAt(patterns, s, i)
  }

  /** Every alternative starts with a lower-case ASCII letter, as every keyword does. */
  predicate LetterInitial(patterns: seq<seq<string>>)
  {
    forall p, k | p in patterns && k in p :: k != [] && 'a' <= k[0] <= 'z'
  }

  lemma KeywordsAreLetterInitial()
    ensures LetterInitial(InstructionPatterns)
  {
  }

  /** `some` over the patterns, each tested anywhere in s, is one search for any alternative anywhere. */
  lemma {:induction false} SomePatternTestIff(patterns: seq<seq<string>>, s: string)
    ensures SomePatternTest(patterns, s) <==> MatchesSomewhere(patterns, s)
    decreases |patterns|
  {
    if patterns != [] {
      SomePatternTestIff(patterns[1..], s);
      if SomePatternTest(patterns, s) {
        if PatternTest(patterns[0], s) {
          var i, k :| 0 <= i < |s| && k in patterns[0] && MatchAt(s, i, k);
          assert MatchesAt(patterns, s, i);
        } else {
          var i :| 0 <= i < |s| && MatchesAt(patterns[1..], s, i);
          var p, k :| p in patterns[1..] && k in p && MatchAt(s, i, k);
          assert MatchesAt(patterns, s, i);
        }
      }
      if MatchesSomewhere(patterns, s) {
        var i :| 0 <= i < |s| && MatchesAt(patterns, s, i);
        var p, k :| p in patterns && k in p && MatchAt(s, i, k);
        if p == patterns[0] {
          assert PatternTest(patterns[0], s);
        } else {
          assert p in patterns[1..];
          assert MatchesAt(patterns[1..], s, i);
        }
      }
    }
  }

  /**
   * Whether a keyword matches at position i of t does not change when t is
   * preceded by a, as long as the position is not at the very start of t or
   * a ends with a non-word character: the characters the match consults are
   * the same.
   */
  lemma MatchShift(a: string, t: string, i: nat, k: string)
    requires i >= 1 || a == [] || !IsWordChar(a[|a| - 1])
    ensures MatchAt(a + t, |a| + i, k) <==> MatchAt(t, i, k)
  {
    var s := a + t;
    if i + |k| <= |t| {
      assert forall j :: |a| <= j < |s| ==> s[j] == t[j - |a|];
      assert WordBoundary(s, |a| + i) == WordBoundary(t, i);
      assert WordBoundary(s, |a| + i + |k|) == WordBoundary(t, i + |k|);
    }
  }

  /** No match starts at a character that is not a word character. */
  lemma NoMatchAtNonWord(patterns: seq<seq<string>>, s: string, i: nat)
    requires LetterInitial(patterns)
    requires i < |s| && !IsWordChar(s[i])
    ensures !MatchesAt(patterns, s, i)
  {
  }

  /**
   * A text that starts with a word w: a match either starts at the beginning
   * of w or lies wholly in what follows w, since no position inside w is a
   * word boundary.
   */
  lemma PeelWord(patterns: seq<seq<string>>, w: string, t: string)
    requires LetterInitial(patterns)
    requires w != [] && forall j :: 0 <= j < |w| ==> IsWordChar(w[j])
    requires t == [] || !IsWordChar(t[0])
    ensures MatchesSomewhere(patterns, w + t) <==>
      MatchesAt(patterns, w + t, 0) || MatchesSomewhere(patterns, t)
  {
    var s := w + t;
    if MatchesSomewhere(patterns, s) && !MatchesAt(patterns, s, 0) {
      var i :| 0 <= i < |s| && MatchesAt(patterns, s, i);
      var p, k :| p in patterns && k in p && MatchAt(s, i, k);
      if i == |w| {
        NoMatchAtNonWord(patterns, s, i);
      } else if i > |w| {
        MatchShift(w, t, i - |w|, k);
        assert MatchesAt(patterns, t, i - |w|);
      }
    }
    if MatchesSomewhere(patterns, t) {
      var i :| 0 <= i < |t| && MatchesAt(patterns, t, i);
      var p, k :| p in patterns && k in p && MatchAt(t, i, k);
      if i > 0 {
        MatchShift(w, t, i, k);
        assert MatchesAt(patterns, s, |w| + i);
      }
    }
  }

  /** A text that starts with a non-word character matches exactly when the rest does. */
  lemma PeelSeparator(patterns: seq<seq<string>>, c: char, t: string)
    requires LetterInitial(patterns)
    requires !IsWordChar(c)
    ensures MatchesSomewhere(patterns, [c] + t) <==> MatchesSomewhere(patterns, t)
  {
    var s := [c] + t;
    if MatchesSomewhere(patterns, s) {
      var i :| 0 <= i < |s| && MatchesAt(patterns, s, i);
      var p, k :| p in patterns && k in p && MatchAt(s, i, k);
      if i > 0 {
        MatchShift([c], t, i - 1, k);
        assert MatchesAt(patterns, t, i - 1);
      }
    }
    if MatchesSomewhere(patterns, t) {
      var i :| 0 <= i < |t| && MatchesAt(patterns, t, i);
      var p, k :| p in patterns && k in p && MatchAt(t, i, k);
      MatchShift([c], t, i, k);
      assert MatchesAt(patterns, s, 1 + i);
    }
  }

  /** A word followed by a separator: a match starts at the word or lies wholly after the separator. */
  lemma PeelWordAndSeparator(patterns: seq<seq<string>>, w: string, c: char, t: string)
    requires LetterInitial(patterns)
    requires w != [] && forall j :: 0 <= j < |w| ==> IsWordChar(w[j])
    requires !IsWordChar(c)
    ensures MatchesSomewhere(patterns, w + [c] + t) <==>
      MatchesAt(patterns, w + [c] + t, 0) || MatchesSomewhere(patterns, t)
  {
    assert w + [c] + t == w + ([c] + t);
    PeelWord(patterns, w, [c] + t);
    PeelSeparator(patterns, c, t);
  }
}
