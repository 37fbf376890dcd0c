/**
 * DictionarySet: the dictionaries a spell check consults, in the order they
 * were registered. The list is an object of its own, because a copy of a set
 * shares its list with the original rather than copying it.
 */
module DictionarySets {
  import opened JavaText
  import opened Suggestions
  import opened Ranking
  import opened Checking
  import Sorting

  /** The List<Dictionary> a set holds; sets made by the copy constructor share one. */
  class DictionaryList {
    var items: seq<Dictionary>

    constructor ()
      ensures items == []
    {
      items := [];
    }
  }

  /**
   * The forEach of spellCheck over what checkSpelling(word) gives in each
   * dictionary in turn: the results in order, or the first exception, after
   * which no further dictionary is checked.
   */
  function Collect(outcomes: seq<Attempt<Result>>): Attempt<seq<Result>>
  {
    if outcomes == [] then Done([])
    else
      match Collect(outcomes[..|outcomes| - 1])
      case Thrown(x) => Thrown(x)
      case Done(results) =>
        match outcomes[|outcomes| - 1]
        case Thrown(x) => Thrown(x)
        case Done(result) => Done(results + [result])
  }

  /** checkSpelling(word) in each dictionary, with the dictionary's own cost threshold. */
  function Outcomes(dictionaries: seq<Dictionary>, word: string, spellThreshold: int): seq<Attempt<Result>>
  {
    seq(|dictionaries|, i requires 0 <= i < |dictionaries| =>
      dictionaries[i].Check(word, dictionaries[i].CostThreshold(), spellThreshold))
  }

  function CheckAll(dictionaries: seq<Dictionary>, word: string, spellThreshold: int): Attempt<seq<Result>>
  {
    Collect(Outcomes(dictionaries, word, spellThreshold))
  }

  /** What spellCheck returns: only a word made of \w characters is checked. */
  function SpellChecked(dictionaries: seq<Dictionary>, word: string, spellThreshold: int): Attempt<seq<Result>>
  {
    if !MatchesWordPattern(word) then Thrown(IllegalArgument)
    else CheckAll(dictionaries, word, spellThreshold)
  }

  class DictionarySet {
    const dictionaries: DictionaryList

    /** DictionarySet(): an empty set with a list of its own. */
    constructor ()
      ensures fresh(dictionaries) && dictionaries.items == []
    {
      dictionaries := new DictionaryList();
    }

    /** DictionarySet(DictionarySet): a copy that shares the existing set's list. */
    constructor Copy(existingDictionarySet: DictionarySet)
      ensures dictionaries == existingDictionarySet.dictionaries
    {
      dictionaries := existingDictionarySet.GetDictionaryList();
    }

    /** getDictionaryList: the list itself, not a copy. */
    function GetDictionaryList(): (l: DictionaryList)
      ensures l == dictionaries
    {
      dictionaries
    }

    /** register: the dictionary goes to the end of the list. */
    method Register(dictionary: Dictionary)
      modifies dictionaries
      ensures dictionaries.items == old(dictionaries.items) + [dictionary]
    {
      dictionaries.items := dictionaries.items + [dictionary];
    }

    /** remove: not implemented; always throws. */
    method Remove(dictionaryName: string) returns (thrown: JavaException)
      ensures thrown == UnsupportedOperation
    {
      thrown := UnsupportedOperation;
    }

    /**
     * spellCheck(word): rejects anything but a non-empty run of \w
     * characters, then checks the word in every dictionary in order.
     * spellThreshold is the SPELL_THRESHOLD the configuration holds.
     */
    method SpellCheck(word: string, spellThreshold: int) returns (r: Attempt<seq<Result>>)
      ensures r == SpellChecked(dictionaries.items, word, spellThreshold)
    {
      if |word| == 0 || !MatchesWordPattern(word) {
        return Thrown(IllegalArgument);
      }
      var all := dictionaries.items;
      ghost var outcomes := Outcomes(all, word, spellThreshold);
      var results: seq<Result> := [];
      var i := 0;
      while i < |all|
        invariant 0 <= i <= |all|
        invariant Collect(outcomes[..i]) == Done(results)
      {
        var dictionary := all[i];
        assert outcomes[..i + 1][..i] == outcomes[..i];
        var result := dictionary.CheckSpellingDefault(word, spellThreshold);
        assert result == outcomes[i];
        if result.Thrown? {
          assert Collect(outcomes[..i + 1]) == Thrown(result.exception);
          CollectStops(outcomes, i + 1);
          assert Collect(outcomes) == Thrown(result.exception);
          return Thrown(result.exception);
        }
        results := results + [result.value];
        i := i + 1;
      }
      assert outcomes[..i] == outcomes;
      assert Collect(outcomes) == Done(results);
      r := Done(results);
    }
  }

  /** Once a dictionary throws, the rest are not checked and its exception is the outcome. */
  lemma {:induction false} CollectStops(outcomes: seq<Attempt<Result>>, n: nat)
    requires n <= |outcomes| && Collect(outcomes[..n]).Thrown?
    ensures Collect(outcomes) == Collect(outcomes[..n])
    decreases |outcomes|
  {
    if n < |outcomes| {
      var front := outcomes[..|outcomes| - 1];
      assert front[..n] == outcomes[..n];
      CollectStops(front, n);
    } else {
      assert outcomes[..n] == outcomes;
    }
  }

  /** checkSpelling throws nothing but what the backend and the truncation throw. */
  lemma CheckNeverIllegalArgument(d: Dictionary, word: string, spellThreshold: int)
    ensures d.Check(word, d.CostThreshold(), spellThreshold) != Thrown(IllegalArgument)
  {
    CheckThrows(d, word, d.CostThreshold(), spellThreshold);
    var e := d.Backend(spellThreshold);
    SuggestThrowsOnBlankWord(e, word);
    if !IsCorrect(e, word) && Suggest(e, word).Done? {
      TruncatedKeeps(Sorting.Sort(Tagged(Suggest(e, word).value, d.name), CompareSpellings), d.maximumSuggestions);
    }
  }

  /** A completed check holds one result per dictionary, each what that dictionary gave, in order. */
  lemma {:induction false} CollectDone(outcomes: seq<Attempt<Result>>)
    requires Collect(outcomes).Done?
    ensures var r := Collect(outcomes).value;
      |r| == |outcomes| && forall i :: 0 <= i < |outcomes| ==> Done(r[i]) == outcomes[i]
  {
    if outcomes != [] {
      CollectDone(outcomes[..|outcomes| - 1]);
    }
  }

  /** The check completes exactly when no dictionary throws, and otherwise throws what one of them throws. */
  lemma {:induction false} CollectThrown(outcomes: seq<Attempt<Result>>)
    ensures var r := Collect(outcomes);
      && (r.Done? <==> forall i :: 0 <= i < |outcomes| ==> outcomes[i].Done?)
      && (r.Thrown? ==> exists i :: 0 <= i < |outcomes| && outcomes[i] == Thrown(r.exception))
  {
    if outcomes != [] {
      var n := |outcomes| - 1;
      CollectThrown(outcomes[..n]);
      assert forall i :: 0 <= i < n ==> outcomes[..n][i] == outcomes[i];
    }
  }

  /**
   * spellCheck throws IllegalArgumentException exactly when the word is not
   * a non-empty run of \w characters; for such a word it reports one result
   * per dictionary, in registration order, naming the word and the
   * dictionary, and it throws nothing when no dictionary has a negative
   * maximum number of suggestions.
   */
  lemma SpellCheckResults(dictionaries: seq<Dictionary>, word: string, spellThreshold: int)
    ensures SpellChecked(dictionaries, word, spellThreshold) == Thrown(IllegalArgument) <==> !MatchesWordPattern(word)
    ensures var r := SpellChecked(dictionaries, word, spellThreshold);
      r.Done? ==>
        |r.value| == |dictionaries| && forall i :: 0 <= i < |dictionaries| ==>
          r.value[i].word == word && r.value[i].dictionaryName == dictionaries[i].name &&
          Done(r.value[i]) == dictionaries[i].Check(word, dictionaries[i].maximumCost, spellThreshold)
    ensures MatchesWordPattern(word) && (forall d :: d in dictionaries ==> d.maximumSuggestions >= 0) ==>
      SpellChecked(dictionaries, word, spellThreshold).Done?
  {
    var outcomes := Outcomes(dictionaries, word, spellThreshold);
    CollectThrown(outcomes);
    var r := CheckAll(dictionaries, word, spellThreshold);
    if r.Done? {
      CollectDone(outcomes);
    }
    if r.Thrown? {
      var i :| 0 <= i < |dictionaries| &&
        dictionaries[i].Check(word, dictionaries[i].CostThreshold(), spellThreshold) == Thrown(r.exception);
      CheckNeverIllegalArgument(dictionaries[i], word, spellThreshold);
      if MatchesWordPattern(word) && forall d :: d in dictionaries ==> d.maximumSuggestions >= 0 {
        WordIsNotBlank(word);
        CheckThrows(dictionaries[i], word, dictionaries[i].CostThreshold(), spellThreshold);
      }
    }
    forall i | 0 <= i < |dictionaries| && r.Done?
      ensures r.value[i].word == word && r.value[i].dictionaryName == dictionaries[i].name
    {
      CheckCorrect(dictionaries[i], word, dictionaries[i].CostThreshold(), spellThreshold);
    }
  }

  /** A word of \w characters has a character above U+0020, so the backend does not throw on it. */
  lemma WordIsNotBlank(word: string)
    requires MatchesWordPattern(word)
    ensures !forall k :: 0 <= k < |word| ==> word[k] <= ' '
  {
    assert IsWordChar(word[0]);
  }
}
