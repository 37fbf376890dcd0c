/**
 * Dictionary: one named spelling dictionary. It wraps a backend that
 * stores words by phonetic code and turns what the backend says about a
 * word into a Result: correct, or misspelt with suggestions sorted by cost
 * and then by word, cut down to the dictionary's maximum.
 */
module Checking {
  import opened JavaText
  import opened EditDistance
  import opened Words
  import opened Suggestions
  import opened Ranking
  import Sorting

  /**
   * What a backend takes from outside the dictionary: the phonetic
   * transformation with its replace list, and the edit costs.
   */
  datatype Speller = Speller(transform: string -> string, replaceList: string, costs: Costs)

  /**
   * Every alternative as a SuggestedSpelling tagged with the dictionary
   * name, in the order the backend returned them.
   */
  function Tagged(alternatives: seq<Candidate>, name: string): seq<SuggestedSpelling>
  {
    seq(|alternatives|, i requires 0 <= i < |alternatives| => Suggested(alternatives[i], name))
  }

  /**
   * subList(maximumSuggestions, size - 1).clear() on a list longer than the
   * maximum: the entries from the maximum up to, but not including, the last
   * are removed. A negative maximum makes subList throw.
   */
  function Truncated(s: seq<SuggestedSpelling>, maximumSuggestions: int): Attempt<seq<SuggestedSpelling>>
  {
    if |s| <= maximumSuggestions then Done(s)
    else if maximumSuggestions < 0 then Thrown(IndexOutOfBounds)
    else Done(s[..maximumSuggestions] + [s[|s| - 1]])
  }

  /**
   * The truncation keeps max + 1 suggestions of a longer list, the first
   * max and the last, and the whole of a list no longer than max; it throws
   * only for a negative maximum.
   */
  lemma TruncatedKeeps(s: seq<SuggestedSpelling>, maximumSuggestions: int)
    ensures Truncated(s, maximumSuggestions).Thrown? <==> maximumSuggestions < 0
    ensures Truncated(s, maximumSuggestions).Thrown? ==> Truncated(s, maximumSuggestions).exception == IndexOutOfBounds
    ensures |s| <= maximumSuggestions ==> Truncated(s, maximumSuggestions) == Done(s)
    ensures 0 <= maximumSuggestions < |s| ==>
      var r := Truncated(s, maximumSuggestions).value;
      |r| == maximumSuggestions + 1 && r[..maximumSuggestions] == s[..maximumSuggestions] && r[maximumSuggestions] == s[|s| - 1]
    ensures Truncated(s, maximumSuggestions).Done? ==> multiset(Truncated(s, maximumSuggestions).value) <= multiset(s)
  {
    TruncatedShape(s, maximumSuggestions);
    if 0 <= maximumSuggestions < |s| {
      assert s == s[..maximumSuggestions] + s[maximumSuggestions..|s| - 1] + [s[|s| - 1]];
    }
  }

  /** The entries the truncation keeps, without the multiset bound. */
  lemma TruncatedShape(s: seq<SuggestedSpelling>, maximumSuggestions: int)
    ensures |s| <= maximumSuggestions ==> Truncated(s, maximumSuggestions) == Done(s)
    ensures 0 <= maximumSuggestions < |s| ==>
      var r := Truncated(s, maximumSuggestions).value;
      |r| == maximumSuggestions + 1 && r[..maximumSuggestions] == s[..maximumSuggestions] && r[maximumSuggestions] == s[|s| - 1]
  {
  }

  /** Truncating a sorted list leaves it sorted: the last entry sorts no earlier than those kept before it. */
  lemma TruncatedSorted(s: seq<SuggestedSpelling>, maximumSuggestions: int)
    requires Sorting.Sorted(s, CompareSpellings) && Truncated(s, maximumSuggestions).Done?
    ensures Sorting.Sorted(Truncated(s, maximumSuggestions).value, CompareSpellings)
  {
    if 0 < maximumSuggestions < |s| {
      var r := Truncated(s, maximumSuggestions).value;
      SortedInOrder(s, maximumSuggestions - 1, |s| - 1);
      forall i | 0 <= i < |r| - 1
        ensures CompareSpellings(r[i], r[i + 1]) <= 0
      {
        if i + 1 < maximumSuggestions {
          assert r[i] == s[i] && r[i + 1] == s[i + 1];
        }
      }
    }
  }

  /** The alternatives tagged, sorted and truncated as checkSpelling reports them. */
  function Ranked(alternatives: seq<Candidate>, name: string, maximumSuggestions: int): Attempt<seq<SuggestedSpelling>>
  {
    Truncated(Sorting.Sort(Tagged(alternatives, name), CompareSpellings), maximumSuggestions)
  }

  class Dictionary {
    const name: string
    const description: string
    /** The backend's getWords(code). */
    const words: string -> seq<string>
    const speller: Speller
    const maximumSuggestions: int
    const maximumCost: int

    /** Dictionary(name, description, spellingDictionary, maximumSuggestions, maximumCost). */
    constructor (name: string, description: string, words: string -> seq<string>, speller: Speller,
                 maximumSuggestions: int, maximumCost: int)
      ensures this.name == name && this.description == description
      ensures this.words == words && this.speller == speller
      ensures this.maximumSuggestions == maximumSuggestions && this.maximumCost == maximumCost
    {
      this.name := name;
      this.description := description;
      this.words := words;
      this.speller := speller;
      this.maximumSuggestions := maximumSuggestions;
      this.maximumCost := maximumCost;
    }

    /**
     * The backend as getSuggestions sees it when the configured
     * SPELL_THRESHOLD is spellThreshold.
     */
    function Backend(spellThreshold: int): Engine
    {
      Engine(speller.transform, words, speller.replaceList, speller.costs, spellThreshold)
    }

    /** costThreshold: the maximum cost given to the constructor. */
    function CostThreshold(): int
    {
      maximumCost
    }

    /**
     * What checkSpelling(word, costThreshold) returns: a correct Result when
     * the backend finds the word, otherwise the backend's suggestions tagged
     * with this dictionary's name, sorted and truncated. The backend ignores
     * costThreshold.
     */
    function Check(word: string, costThreshold: int, spellThreshold: int): Attempt<Result>
    {
      var e := Backend(spellThreshold);
      if IsCorrect(e, word) then Done(Correct(word, name))
      else match Suggest(e, word)
        case Thrown(x) => Thrown(x)
        case Done(alternatives) =>
          match Ranked(alternatives, name, maximumSuggestions)
          case Thrown(x) => Thrown(x)
          case Done(suggestions) => Done(Misspelt(word, name, suggestions))
    }

    /** checkSpelling(word, costThreshold). */
    method CheckSpelling(word: string, costThreshold: int, spellThreshold: int) returns (r: Attempt<Result>)
      ensures r == Check(word, costThreshold, spellThreshold)
    {
      var e := Backend(spellThreshold);
      if IsCorrect(e, word) {
        return Done(Correct(word, name));
      }
      var alternativeSpellings := GetSuggestions(e, word, costThreshold);
      if alternativeSpellings.Thrown? {
        return Thrown(alternativeSpellings.exception);
      }
      var alternatives := alternativeSpellings.value;
      var suggestions := TagAll(alternatives);
      suggestions := Sorting.Sort(suggestions, CompareSpellings);
      var ranked := Truncate(suggestions);
      if ranked.Thrown? {
        return Thrown(ranked.exception);
      }
      r := Done(Misspelt(word, name, ranked.value));
    }

    /** The loop of checkSpelling that wraps each alternative in a SuggestedSpelling. */
    method TagAll(alternatives: seq<Candidate>) returns (suggestions: seq<SuggestedSpelling>)
      ensures suggestions == Tagged(alternatives, name)
    {
      suggestions := [];
      var i := 0;
      while i < |alternatives|
        invariant 0 <= i <= |alternatives|
        invariant |suggestions| == i
        invariant forall k :: 0 <= k < i ==> suggestions[k] == Suggested(alternatives[k], name)
      {
        suggestions := suggestions + [Suggested(alternatives[i], name)];
        i := i + 1;
      }
    }

    /** The subList(maximumSuggestions, size - 1).clear() of checkSpelling. */
    method Truncate(suggestions: seq<SuggestedSpelling>) returns (r: Attempt<seq<SuggestedSpelling>>)
      ensures r == Truncated(suggestions, maximumSuggestions)
    {
      if |suggestions| > maximumSuggestions {
        if maximumSuggestions < 0 {
          return Thrown(IndexOutOfBounds);
        }
        return Done(suggestions[..maximumSuggestions] + [suggestions[|suggestions| - 1]]);
      }
      r := Done(suggestions);
    }

    /** checkSpelling(word): checkSpelling with this dictionary's own cost threshold. */
    method CheckSpellingDefault(word: string, spellThreshold: int) returns (r: Attempt<Result>)
      ensures r == Check(word, CostThreshold(), spellThreshold)
      ensures r == Check(word, maximumCost, spellThreshold)
    {
      r := CheckSpelling(word, maximumCost, spellThreshold);
    }
  }

  /**
   * A word the backend finds is reported correct, with no suggestion list;
   * any other outcome is a misspelling or an exception. Either way the
   * result names the word and this dictionary, and the cost threshold
   * passed in makes no difference.
   */
  lemma CheckCorrect(d: Dictionary, word: string, costThreshold: int, spellThreshold: int)
    ensures var r := d.Check(word, costThreshold, spellThreshold);
      && (IsCorrect(d.Backend(spellThreshold), word) <==> r.Done? && r.value.isCorrect)
      && (IsCorrect(d.Backend(spellThreshold), word) ==> r == Done(Correct(word, d.name)))
      && (r.Done? ==> r.value.word == word && r.value.dictionaryName == d.name)
      && (r.Done? && !r.value.isCorrect ==> r.value.suggestions.Some?)
      && r == d.Check(word, d.maximumCost, spellThreshold)
  {
  }

  /**
   * The suggestions checkSpelling reports for the backend's alternatives,
   * taken from the tagged alternatives in compareTo order: all of them when
   * there are at most maximumSuggestions, otherwise the first
   * maximumSuggestions and the last.
   */
  lemma RankedSuggestions(alternatives: seq<Candidate>, name: string, maximumSuggestions: int,
                           sorted: seq<SuggestedSpelling>)
    requires sorted == Sorting.Sort(Tagged(alternatives, name), CompareSpellings)
    requires Ranked(alternatives, name, maximumSuggestions).Done?
    ensures |alternatives| <= maximumSuggestions ==> Ranked(alternatives, name, maximumSuggestions).value == sorted
    ensures maximumSuggestions < |alternatives| ==>
      var s := Ranked(alternatives, name, maximumSuggestions).value;
      |s| == maximumSuggestions + 1 && s[..maximumSuggestions] == sorted[..maximumSuggestions]
      && s[maximumSuggestions] == sorted[|sorted| - 1]
  {
    assert |sorted| == |alternatives|;
    TruncatedShape(sorted, maximumSuggestions);
  }

  /** The ranked suggestions are in compareTo order, and sorting only reorders the tagged alternatives. */
  lemma RankedOrder(alternatives: seq<Candidate>, name: string, maximumSuggestions: int)
    requires Ranked(alternatives, name, maximumSuggestions).Done?
    ensures Sorting.Sorted(Ranked(alternatives, name, maximumSuggestions).value, CompareSpellings)
    ensures multiset(Sorting.Sort(Tagged(alternatives, name), CompareSpellings)) == multiset(Tagged(alternatives, name))
  {
    var tagged := Tagged(alternatives, name);
    CompareSpellingsIsComparator();
    Sorting.SortSorted(tagged, CompareSpellings);
    TruncatedSorted(Sorting.Sort(tagged, CompareSpellings), maximumSuggestions);
  }

  /** Every ranked suggestion is one of the alternatives, tagged with the dictionary name. */
  lemma RankedMembers(alternatives: seq<Candidate>, name: string, maximumSuggestions: int)
    requires Ranked(alternatives, name, maximumSuggestions).Done?
    ensures forall x :: x in Ranked(alternatives, name, maximumSuggestions).value ==>
      x.dictionaryName == name && exists k :: 0 <= k < |alternatives| && x == Suggested(alternatives[k], name)
  {
    var tagged := Tagged(alternatives, name);
    var sorted := Sorting.Sort(tagged, CompareSpellings);
    TruncatedKeeps(sorted, maximumSuggestions);
    var s := Truncated(sorted, maximumSuggestions).value;
    forall x | x in s
      ensures x.dictionaryName == name
      ensures exists k :: 0 <= k < |alternatives| && x == Suggested(alternatives[k], name)
    {
      assert x in multiset(s);
      assert x in multiset(tagged);
      var k :| 0 <= k < |tagged| && tagged[k] == x;
    }
  }

  /** A misspelt word is reported with the suggestions ranked from what the backend offers. */
  lemma CheckSuggestions(d: Dictionary, word: string, costThreshold: int, spellThreshold: int)
    requires !IsCorrect(d.Backend(spellThreshold), word)
    requires d.Check(word, costThreshold, spellThreshold).Done?
    ensures Suggest(d.Backend(spellThreshold), word).Done?
    ensures var ranked := Ranked(Suggest(d.Backend(spellThreshold), word).value, d.name, d.maximumSuggestions);
      ranked.Done? && d.Check(word, costThreshold, spellThreshold) == Done(Misspelt(word, d.name, ranked.value))
  {
  }

  /**
   * checkSpelling throws exactly when the word is misspelt and either the
   * backend throws (a word with nothing but blanks) or the maximum number of
   * suggestions is negative.
   */
  lemma CheckThrows(d: Dictionary, word: string, costThreshold: int, spellThreshold: int)
    ensures d.Check(word, costThreshold, spellThreshold).Thrown? <==>
      !IsCorrect(d.Backend(spellThreshold), word) &&
      ((forall k :: 0 <= k < |word| ==> word[k] <= ' ') || d.maximumSuggestions < 0)
  {
    var e := d.Backend(spellThreshold);
    SuggestThrowsOnBlankWord(e, word);
    if !IsCorrect(e, word) && Suggest(e, word).Done? {
      TruncatedKeeps(Sorting.Sort(Tagged(Suggest(e, word).value, d.name), CompareSpellings), d.maximumSuggestions);
      assert Ranked(Suggest(e, word).value, d.name, d.maximumSuggestions).Thrown? <==> d.maximumSuggestions < 0;
    }
  }
}
