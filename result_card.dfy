/**
 * The result card that shows one detected instruction: its severity is
 * "high" when the instruction mentions "critical" in any letter case, and
 * "medium" otherwise; the card is red for "high" and yellow for "medium".
 */
module ResultCard {
  import opened InstructionAnalyzer

  datatype CardSeverity = High | Medium

  /** `s.toLowerCase()` on ASCII letters. */
  function Lower(s: string): (r: string)
    ensures |r| == |s|
    ensures forall i :: 0 <= i < |s| ==> r[i] == LowerChar(s[i])
  {
    if s == [] then [] else [LowerChar(s[0])] + Lower(s[1..])
  }

  /** `s.includes(sub)`. */
  predicate Includes(s: string, sub: string)
    decreases |s|
  {
    if |s| < |sub| then false
    else s[..|sub|] == sub || Includes(s[1..], sub)
  }

  /** sub occurs in s at position i. */
  predicate OccursAt(s: string, sub: string, i: nat)
  {
    i + |sub| <= |s| && s[i..i + |sub|] == sub
  }

  /** `includes` finds sub exactly when sub occurs at some position of s. */
  lemma {:induction false} IncludesIff(s: string, sub: string)
    ensures Includes(s, sub) <==> exists i: nat :: OccursAt(s, sub, i)
    decreases |s|
  {
    if |s| >= |sub| {
      if s[..|sub|] == sub {
        assert OccursAt(s, sub, 0);
      } else if s != [] {
        IncludesIff(s[1..], sub);
        if Includes(s[1..], sub) {
          var i: nat :| OccursAt(s[1..], sub, i);
          assert s[1..][i..i + |sub|] == s[i + 1..i + 1 + |sub|];
          assert OccursAt(s, sub, i + 1);
        }
        if exists i: nat :: OccursAt(s, sub, i) {
          var i: nat :| OccursAt(s, sub, i);
          assert i > 0;
          assert s[1..][i - 1..i - 1 + |sub|] == s[i..i + |sub|];
          assert OccursAt(s[1..], sub, i - 1);
        }
      }
    }
  }

  /** The severity the card derives from its instruction. */
  function Severity(instruction: string): CardSeverity
  {
    if Includes(Lower(instruction), "critical") then High else Medium
  }

  /** The eight letters "critical", in any mix of cases, start at position i of s. */
  predicate CriticalAt(s: string, i: nat)
  {
    i + 8 <= |s| && FoldsTo(s, i, "critical")
  }

  /** Lower-casing turns "critical" in any mix of cases into "critical", and nothing else. */
  lemma LowerOccurs(s: string, i: nat)
    ensures OccursAt(Lower(s), "critical", i) <==> CriticalAt(s, i)
  {
    var lower := Lower(s);
    if i + 8 <= |s| {
      if OccursAt(lower, "critical", i) {
        forall j | 0 <= j < 8
          ensures LowerChar(s[i + j]) == "critical"[j]
        {
          assert lower[i..i + 8][j] == lower[i + j];
        }
      }
      if CriticalAt(s, i) {
        assert lower[i..i + 8] == "critical";
      }
    }
  }

  /**
   * The severity is high exactly when the eight letters "critical", in any
   * mix of cases, occur somewhere in the instruction: inside a longer word
   * as well as on their own.
   */
  lemma SeverityHighIff(instruction: string)
    ensures Severity(instruction) == High <==> exists i: nat :: CriticalAt(instruction, i)
  {
    IncludesIff(Lower(instruction), "critical");
    forall i: nat
      ensures OccursAt(Lower(instruction), "critical", i) <==> CriticalAt(instruction, i)
    {
      LowerOccurs(instruction, i);
    }
  }

  /** "CRITICAL" makes a card high. */
  lemma UpperCaseCritical()
    ensures Severity("CRITICAL") == High
  {
    assert CriticalAt("CRITICAL", 0);
    SeverityHighIff("CRITICAL");
  }

  /** "Critical" makes a card high. */
  lemma CapitalizedCritical()
    ensures Severity("Critical") == High
  {
    assert CriticalAt("Critical", 0);
    SeverityHighIff("Critical");
  }

  /** "noncritical" makes a card high: the test is not a whole-word test. */
  lemma CriticalInsideWord()
    ensures Severity("noncritical") == High
  {
    assert CriticalAt("noncritical", 3);
    SeverityHighIff("noncritical");
  }

  /** An instruction shorter than "critical" is always medium. */
  lemma ShortInstructionMedium(instruction: string)
    requires |instruction| < 8
    ensures Severity(instruction) == Medium
  {
  }

  /** The card's container and dot classes. */
  datatype Styling = Styling(container: string, dot: string)

  const RedStyling := Styling("bg-red-50 border-red-200", "bg-red-500")
  const YellowStyling := Styling("bg-yellow-50 border-yellow-200", "bg-yellow-500")

  /** The classes the card chooses for a severity. */
  function StylingFor(severity: CardSeverity): Styling
  {
    if severity == High then RedStyling else YellowStyling
  }

  /** The card is red exactly when the severity is high, and yellow exactly when it is medium. */
  lemma RedIffHigh(severity: CardSeverity)
    ensures StylingFor(severity) == Styling("bg-red-50 border-red-200", "bg-red-500") <==> severity == High
    ensures StylingFor(severity) == Styling("bg-yellow-50 border-yellow-200", "bg-yellow-500") <==> severity == Medium
  {
    assert RedStyling.dot[3] != YellowStyling.dot[3];
  }
}
