/**
 * What a spell check reports: SuggestedSpelling, one alternative spelling
 * tagged with the dictionary that offered it, ordered by cost and then by
 * the words ignoring case; and Result, the outcome of checking one word in
 * one dictionary.
 */
module Ranking {
  import opened JavaText
  import opened Words
  import Sorting

  /** A suggested spelling, the cost of changing the word into it, and the dictionary that supplied it. */
  datatype SuggestedSpelling = SuggestedSpelling(suggestedWord: string, cost: int, dictionaryName: string)

  /** SuggestedSpelling(Word, String): the word and cost of the suggestion, tagged with the dictionary name. */
  function Suggested(alternative: Candidate, dictionaryName: string): SuggestedSpelling
  {
    SuggestedSpelling(alternative.word, alternative.cost, dictionaryName)
  }

  /**
   * compareTo: lower cost first; equal costs are ordered by the words,
   * ignoring case. The dictionary name plays no part.
   */
  function CompareSpellings(a: SuggestedSpelling, b: SuggestedSpelling): int
  {
    if a == b then 0
    else if a.cost < b.cost then -1
    else if a.cost == b.cost then CompareToIgnoreCase(a.suggestedWord, b.suggestedWord)
    else 1
  }

  /** The order compareTo defines: cost decides, and the words, ignoring case, break ties. */
  lemma CompareSpellingsOrder(a: SuggestedSpelling, b: SuggestedSpelling)
    ensures CompareSpellings(a, a) == 0
    ensures a.cost < b.cost ==> CompareSpellings(a, b) == -1
    ensures a.cost > b.cost ==> CompareSpellings(a, b) == 1
    ensures a.cost == b.cost ==> CompareSpellings(a, b) == CompareToIgnoreCase(a.suggestedWord, b.suggestedWord)
  {
    if a == b {
      CompareToZero(ToLower(a.suggestedWord), ToLower(b.suggestedWord));
    }
  }

  /** Swapping the arguments flips the sign of the comparison. */
  lemma CompareSpellingsAntisymmetric(a: SuggestedSpelling, b: SuggestedSpelling)
    ensures CompareSpellings(b, a) == -CompareSpellings(a, b)
  {
    CompareToAntisymmetric(ToLower(a.suggestedWord), ToLower(b.suggestedWord));
  }

  /** Not sorting after b and b not sorting after c puts a no later than c. */
  lemma CompareSpellingsTransitive(a: SuggestedSpelling, b: SuggestedSpelling, c: SuggestedSpelling)
    requires CompareSpellings(a, b) <= 0 && CompareSpellings(b, c) <= 0
    ensures CompareSpellings(a, c) <= 0
  {
    var x, y, z := ToLower(a.suggestedWord), ToLower(b.suggestedWord), ToLower(c.suggestedWord);
    CompareSpellingsOrder(a, b);
    CompareSpellingsOrder(b, c);
    CompareSpellingsOrder(a, c);
    if a.cost == b.cost == c.cost {
      CompareToLessOrEqualTransitive(x, y, z);
    }
  }

  /** compareTo meets the contract Collections.sort relies on. */
  lemma CompareSpellingsIsComparator()
    ensures Sorting.Comparator(CompareSpellings)
  {
    forall x: SuggestedSpelling, y: SuggestedSpelling | CompareSpellings(x, y) > 0
      ensures CompareSpellings(y, x) <= 0
    {
      CompareSpellingsAntisymmetric(x, y);
    }
  }

  /** In a list sorted by compareTo, every entry sorts no later than every entry after it. */
  lemma {:induction false} SortedInOrder(s: seq<SuggestedSpelling>, i: nat, j: nat)
    requires Sorting.Sorted(s, CompareSpellings) && i <= j < |s|
    ensures CompareSpellings(s[i], s[j]) <= 0
    decreases j - i
  {
    if i == j {
      CompareSpellingsOrder(s[i], s[i]);
    } else {
      SortedInOrder(s, i + 1, j);
      CompareSpellingsTransitive(s[i], s[i + 1], s[j]);
    }
  }

  /** In a sorted list, costs never decrease. */
  lemma SortedByCost(s: seq<SuggestedSpelling>, i: nat, j: nat)
    requires Sorting.Sorted(s, CompareSpellings) && i <= j < |s|
    ensures s[i].cost <= s[j].cost
  {
    SortedInOrder(s, i, j);
    CompareSpellingsOrder(s[i], s[j]);
  }

  // ---------------------------------------------------------------------
  // Result

  /**
   * The result of a spell check using a single dictionary. A correct word
   * carries no suggestion list (Java's null).
   */
  datatype Result = Result(
    word: string,
    dictionaryName: string,
    isCorrect: bool,
    suggestions: Option<seq<SuggestedSpelling>>)

  /** Result(word, dictionaryName): the word is spelt correctly. */
  function Correct(word: string, dictionaryName: string): Result
  {
    Result(word, dictionaryName, true, None)
  }

  /** Result(word, dictionaryName, suggestions): the word is misspelt and these are the corrections offered. */
  function Misspelt(word: string, dictionaryName: string, suggestions: seq<SuggestedSpelling>): Result
  {
    Result(word, dictionaryName, false, Some(suggestions))
  }

  /** Result(word, dictionaryName, alternatives, isCorrect): exactly the flag and list given. */
  function WithAlternatives(word: string, dictionaryName: string, alternatives: Option<seq<SuggestedSpelling>>,
                            isCorrect: bool): Result
  {
    Result(word, dictionaryName, isCorrect, alternatives)
  }

  /**
   * The two short constructors are the four-argument one with the flag
   * fixed, and a result built by one of them is never also built by the
   * other.
   */
  lemma ResultConstructorsAgree(word: string, dictionaryName: string, suggestions: seq<SuggestedSpelling>)
    ensures Correct(word, dictionaryName) == WithAlternatives(word, dictionaryName, None, true)
    ensures Misspelt(word, dictionaryName, suggestions) == WithAlternatives(word, dictionaryName, Some(suggestions), false)
    ensures Correct(word, dictionaryName) != Misspelt(word, dictionaryName, suggestions)
  {
  }
}
