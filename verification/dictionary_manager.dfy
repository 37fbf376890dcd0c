/**
 * DictionaryManager: creates dictionaries from word lists with the caps it
 * currently holds, registers each in its current DictionarySet, and hands
 * out sets that share that set's list.
 */
module Management {
  import opened JavaText
  import opened Buckets
  import opened HashedDictionary
  import opened Checking
  import opened DictionarySets
  import opened Suggestions
  import opened Ranking

  const DefaultMaximumCost: int := 3
  const DefaultMaximumSuggestions: int := 5

  /** The SPELL_THRESHOLD entry of the shared Configuration. */
  class Configuration {
    var spellThreshold: int

    constructor (spellThreshold: int)
      ensures this.spellThreshold == spellThreshold
    {
      this.spellThreshold := spellThreshold;
    }
  }

  /** getWords of a HashedSpellingDictionary holding the word store m. */
  function Lookup(m: Index): string -> seq<string>
  {
    (code: string) => Bucket(m, code)
  }

  class DictionaryManager {
    var maximumCost: int
    var maximumSuggestions: int
    const configuration: Configuration
    var dictionarySet: DictionarySet

    /**
     * DictionaryManager(): the default caps, an empty set, and the default
     * cost written into the configuration's SPELL_THRESHOLD.
     */
    constructor (configuration: Configuration)
      modifies configuration
      ensures maximumCost == DefaultMaximumCost && maximumSuggestions == DefaultMaximumSuggestions
      ensures this.configuration == configuration && configuration.spellThreshold == DefaultMaximumCost
      ensures fresh(dictionarySet) && fresh(dictionarySet.dictionaries) && dictionarySet.dictionaries.items == []
    {
      maximumCost := DefaultMaximumCost;
      this.configuration := configuration;
      maximumSuggestions := DefaultMaximumSuggestions;
      dictionarySet := new DictionarySet();
      new;
      configuration.spellThreshold := maximumCost;
    }

    /** Wraps a backend in a Dictionary with the current caps and registers it in the current set. */
    method Install(name: string, description: string, spelling: HashedSpellingDictionary, speller: Speller)
      returns (dictionary: Dictionary)
      requires spelling.transform == speller.transform
      modifies dictionarySet.dictionaries
      ensures fresh(dictionary)
      ensures dictionary.name == name && dictionary.description == description && dictionary.speller == speller
      ensures dictionary.words == Lookup(spelling.mainDictionary)
      ensures dictionary.maximumSuggestions == maximumSuggestions && dictionary.maximumCost == maximumCost
      ensures dictionarySet.dictionaries.items == old(dictionarySet.dictionaries.items) + [dictionary]
    {
      dictionary := new Dictionary(name, description, Lookup(spelling.mainDictionary), speller,
                                   maximumSuggestions, maximumCost);
      dictionarySet.Register(dictionary);
    }

    /** create(name, description, File): a HashedSpellingDictionary of the file's non-empty lines. */
    method Create(name: string, description: string, lines: seq<string>, speller: Speller)
      returns (dictionary: Dictionary)
      modifies dictionarySet.dictionaries
      ensures fresh(dictionary)
      ensures dictionary.name == name && dictionary.description == description && dictionary.speller == speller
      ensures dictionary.words == Lookup(StoreAll(speller.transform, map[], NonEmpty(lines)))
      ensures dictionary.maximumSuggestions == maximumSuggestions && dictionary.maximumCost == maximumCost
      ensures dictionarySet.dictionaries.items == old(dictionarySet.dictionaries.items) + [dictionary]
    {
      var spellingDictionary := new HashedSpellingDictionary(speller.transform, lines);
      dictionary := Install(name, description, spellingDictionary, speller);
    }

    /**
     * create(name, description, File, isNormalised): the (File, boolean)
     * backend, which ignores the flag.
     */
    method CreateFromFile(name: string, description: string, lines: seq<string>, isNormalised: bool, speller: Speller)
      returns (dictionary: Dictionary)
      modifies dictionarySet.dictionaries
      ensures fresh(dictionary)
      ensures dictionary.name == name && dictionary.description == description && dictionary.speller == speller
      ensures dictionary.words == Lookup(StoreAll(speller.transform, map[], NonEmpty(lines)))
      ensures dictionary.maximumSuggestions == maximumSuggestions && dictionary.maximumCost == maximumCost
      ensures dictionarySet.dictionaries.items == old(dictionarySet.dictionaries.items) + [dictionary]
    {
      var spellingDictionary := new HashedSpellingDictionary.FromFile(speller.transform, lines, isNormalised);
      dictionary := Install(name, description, spellingDictionary, speller);
    }

    /**
     * create(name, description, Reader, isNormalised): the lines are
     * lower-cased when the flag is set.
     */
    method CreateFromReader(name: string, description: string, lines: seq<string>, isNormalised: bool, speller: Speller)
      returns (dictionary: Dictionary)
      modifies dictionarySet.dictionaries
      ensures fresh(dictionary)
      ensures dictionary.name == name && dictionary.description == description && dictionary.speller == speller
      ensures isNormalised ==> dictionary.words == Lookup(StoreAll(speller.transform, map[], LowerCased(NonEmpty(lines))))
      ensures !isNormalised ==> dictionary.words == Lookup(StoreAll(speller.transform, map[], NonEmpty(lines)))
      ensures dictionary.maximumSuggestions == maximumSuggestions && dictionary.maximumCost == maximumCost
      ensures dictionarySet.dictionaries.items == old(dictionarySet.dictionaries.items) + [dictionary]
    {
      var spellingDictionary := new HashedSpellingDictionary.FromReader(speller.transform, lines, isNormalised);
      dictionary := Install(name, description, spellingDictionary, speller);
    }

    /** setCostThreshold: only dictionaries created later get the new cost; SPELL_THRESHOLD is not touched. */
    method SetCostThreshold(maximumCost: int)
      modifies this
      ensures this.maximumCost == maximumCost
      ensures maximumSuggestions == old(maximumSuggestions) && dictionarySet == old(dictionarySet)
      ensures configuration.spellThreshold == old(configuration.spellThreshold)
    {
      this.maximumCost := maximumCost;
    }

    /** setMaximumSuggestions: only dictionaries created later get the new maximum. */
    method SetMaximumSuggestions(maximumSuggestions: int)
      modifies this
      ensures this.maximumSuggestions == maximumSuggestions
      ensures maximumCost == old(maximumCost) && dictionarySet == old(dictionarySet)
    {
      this.maximumSuggestions := maximumSuggestions;
    }

    /** dictionarySet(): a new set sharing the current set's list. */
    method CurrentSet() returns (s: DictionarySet)
      ensures fresh(s) && s.dictionaries == dictionarySet.dictionaries
    {
      s := new DictionarySet.Copy(dictionarySet);
    }

    /** reset: a new empty set; the caps and the old set's list stay as they were. */
    method Reset()
      modifies this
      ensures fresh(dictionarySet) && fresh(dictionarySet.dictionaries) && dictionarySet.dictionaries.items == []
      ensures maximumCost == old(maximumCost) && maximumSuggestions == old(maximumSuggestions)
      ensures old(dictionarySet).dictionaries.items == old(dictionarySet.dictionaries.items)
    {
      dictionarySet := new DictionarySet();
    }
  }

  /**
   * A set handed out before a create sees the new dictionary, because it
   * shares the manager's list, and the new dictionary has the caps the
   * manager held at the time.
   */
  method SnapshotSeesLaterCreate(manager: DictionaryManager, name: string, description: string,
                                 lines: seq<string>, speller: Speller)
    returns (snapshot: DictionarySet, dictionary: Dictionary)
    modifies manager.dictionarySet.dictionaries
    ensures snapshot.dictionaries.items == old(manager.dictionarySet.dictionaries.items) + [dictionary]
    ensures dictionary.maximumCost == manager.maximumCost && dictionary.maximumSuggestions == manager.maximumSuggestions
  {
    snapshot := manager.CurrentSet();
    dictionary := manager.Create(name, description, lines, speller);
  }

  /**
   * A set handed out before a reset keeps the old list, and a create after
   * the reset goes only to the new set.
   */
  method SnapshotKeepsListAfterReset(manager: DictionaryManager, name: string, description: string,
                                     lines: seq<string>, speller: Speller)
    returns (snapshot: DictionarySet, dictionary: Dictionary)
    modifies manager
    ensures snapshot.dictionaries.items == old(manager.dictionarySet.dictionaries.items)
    ensures manager.dictionarySet.dictionaries.items == [dictionary]
  {
    snapshot := manager.CurrentSet();
    manager.Reset();
    dictionary := manager.Create(name, description, lines, speller);
  }

  /**
   * Changing the caps leaves every dictionary already created as it was:
   * a dictionary made before setCostThreshold and setMaximumSuggestions
   * keeps the caps it was created with.
   */
  method SettersLeaveExistingDictionaries(manager: DictionaryManager, name: string, description: string,
                                          lines: seq<string>, speller: Speller, maximumCost: int, maximumSuggestions: int)
    returns (dictionary: Dictionary)
    modifies manager, manager.dictionarySet.dictionaries
    ensures dictionary.maximumCost == old(manager.maximumCost)
    ensures dictionary.maximumSuggestions == old(manager.maximumSuggestions)
    ensures manager.maximumCost == maximumCost && manager.maximumSuggestions == maximumSuggestions
  {
    dictionary := manager.Create(name, description, lines, speller);
    manager.SetCostThreshold(maximumCost);
    manager.SetMaximumSuggestions(maximumSuggestions);
  }

  /**
   * A dictionary created from a word list reports every non-empty line of
   * the list as correctly spelt, whatever the thresholds.
   */
  lemma CreatedDictionaryAcceptsItsWords(dictionary: Dictionary, lines: seq<string>, word: string,
                                         costThreshold: int, spellThreshold: int)
    requires dictionary.words == Lookup(StoreAll(dictionary.speller.transform, map[], NonEmpty(lines)))
    requires word in lines && word != []
    ensures dictionary.Check(word, costThreshold, spellThreshold) == Done(Correct(word, dictionary.name))
  {
    LoadedDictionaryLists(dictionary.speller.transform, lines, dictionary.speller.transform(word));
    assert IsCorrect(dictionary.Backend(spellThreshold), word);
  }
}
