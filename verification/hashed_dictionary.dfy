/**
 * HashedSpellingDictionary: an aspell-style dictionary held in memory as a
 * map from phonetic code to the words with that code. Word lists arrive as
 * the lines readLine returns; empty lines are skipped.
 */
module HashedDictionary {
  import opened JavaText
  import opened Buckets

  class HashedSpellingDictionary {
    /** The phonetic transformation (GenericTransformator or DoubleMetaphone). */
    const transform: string -> string
    var mainDictionary: Index

    /** HashedSpellingDictionary(): no words. */
    constructor Empty(transform: string -> string)
      ensures this.transform == transform && mainDictionary == map[]
    {
      this.transform := transform;
      mainDictionary := map[];
    }

    /** HashedSpellingDictionary(Reader), and the constructors that take a phonetic file: every non-empty line, verbatim. */
    constructor (transform: string -> string, lines: seq<string>)
      ensures this.transform == transform
      ensures mainDictionary == StoreAll(transform, map[], NonEmpty(lines))
    {
      this.transform := transform;
      mainDictionary := map[];
      new;
      CreateDictionary(lines);
    }

    /** HashedSpellingDictionary(Reader, boolean): lower-cases every line when the flag is set. */
    constructor FromReader(transform: string -> string, lines: seq<string>, isNormalised: bool)
      ensures this.transform == transform
      ensures isNormalised ==> mainDictionary == StoreAll(transform, map[], LowerCased(NonEmpty(lines)))
      ensures !isNormalised ==> mainDictionary == StoreAll(transform, map[], NonEmpty(lines))
    {
      this.transform := transform;
      mainDictionary := map[];
      new;
      if isNormalised {
        CreateNormalisedDictionary(lines);
      } else {
        CreateDictionary(lines);
      }
    }

    /** HashedSpellingDictionary(File, boolean): the flag is ignored and the lines are stored as written. */
    constructor FromFile(transform: string -> string, lines: seq<string>, isNormalised: bool)
      ensures this.transform == transform
      ensures mainDictionary == StoreAll(transform, map[], NonEmpty(lines))
    {
      this.transform := transform;
      mainDictionary := map[];
      new;
      CreateDictionary(lines);
    }

    /** createDictionary: putWord for every non-empty line. */
    method CreateDictionary(lines: seq<string>)
      modifies this
      ensures mainDictionary == StoreAll(transform, old(mainDictionary), NonEmpty(lines))
    {
      ghost var start := mainDictionary;
      var i := 0;
      while i < |lines|
        invariant 0 <= i <= |lines|
        invariant mainDictionary == StoreAll(transform, start, NonEmpty(lines[..i]))
      {
        StoreLine(lines, i, start);
        i := i + 1;
      }
      assert lines[..|lines|] == lines;
    }

    /** createNormalisedDictionary: putWord for every non-empty line, lower-cased. */
    method CreateNormalisedDictionary(lines: seq<string>)
      modifies this
      ensures mainDictionary == StoreAll(transform, old(mainDictionary), LowerCased(NonEmpty(lines)))
    {
      ghost var start := mainDictionary;
      var i := 0;
      while i < |lines|
        invariant 0 <= i <= |lines|
        invariant mainDictionary == StoreAll(transform, start, LowerCased(NonEmpty(lines[..i])))
      {
        StoreLowerCasedLine(lines, i, start);
        i := i + 1;
      }
      assert lines[..|lines|] == lines;
    }

    /** addDictionary / addDictionaryHelper: putWordUnique for every non-empty line. */
    method AddDictionary(lines: seq<string>)
      modifies this
      ensures mainDictionary == StoreAllUnique(transform, old(mainDictionary), NonEmpty(lines))
    {
      ghost var start := mainDictionary;
      var i := 0;
      while i < |lines|
        invariant 0 <= i <= |lines|
        invariant mainDictionary == StoreAllUnique(transform, start, NonEmpty(lines[..i]))
      {
        MergeLine(lines, i, start);
        i := i + 1;
      }
      assert lines[..|lines|] == lines;
    }

    /** Reads one line of createDictionary: putWord when the line is not empty. */
    method StoreLine(lines: seq<string>, i: nat, ghost start: Index)
      modifies this
      requires i < |lines| && mainDictionary == StoreAll(transform, start, NonEmpty(lines[..i]))
      ensures mainDictionary == StoreAll(transform, start, NonEmpty(lines[..i + 1]))
    {
      StoreStep(transform, start, lines, i);
      if lines[i] != [] {
        PutWord(lines[i]);
      }
    }

    /** Reads one line of createNormalisedDictionary: putWord of the lower-cased line when it is not empty. */
    method StoreLowerCasedLine(lines: seq<string>, i: nat, ghost start: Index)
      modifies this
      requires i < |lines| && mainDictionary == StoreAll(transform, start, LowerCased(NonEmpty(lines[..i])))
      ensures mainDictionary == StoreAll(transform, start, LowerCased(NonEmpty(lines[..i + 1])))
    {
      StoreLowerCasedStep(transform, start, lines, i);
      if lines[i] != [] {
        PutWord(ToLower(lines[i]));
      }
    }

    /** Reads one line of addDictionaryHelper: putWordUnique when the line is not empty. */
    method MergeLine(lines: seq<string>, i: nat, ghost start: Index)
      modifies this
      requires i < |lines| && mainDictionary == StoreAllUnique(transform, start, NonEmpty(lines[..i]))
      ensures mainDictionary == StoreAllUnique(transform, start, NonEmpty(lines[..i + 1]))
    {
      StoreUniqueStep(transform, start, lines, i);
      if lines[i] != [] {
        PutWordUnique(lines[i]);
      }
    }

    /** addWord: this dictionary cannot be extended one word at a time. */
    method AddWord(word: string) returns (thrown: JavaException)
      ensures thrown == UnsupportedOperation
    {
      thrown := UnsupportedOperation;
    }

    /** putWord: the word goes to the end of its code's list. */
    method PutWord(word: string)
      modifies this
      ensures mainDictionary == Append(old(mainDictionary), transform(word), word)
    {
      var code := transform(word);
      if code in mainDictionary {
        var wordList := mainDictionary[code];
        mainDictionary := mainDictionary[code := wordList + [word]];
      } else {
        var wordList := [word];
        assert Bucket(mainDictionary, code) + [word] == wordList;
        mainDictionary := mainDictionary[code := wordList];
      }
    }

    /** putWordUnique: scans the code's list for a case variant and appends only when there is none. */
    method PutWordUnique(word: string)
      modifies this
      ensures mainDictionary == AppendUnique(old(mainDictionary), transform(word), word)
    {
      var code := transform(word);
      if code in mainDictionary {
        var wordList := mainDictionary[code];
        var isInDictionary := false;
        var k := 0;
        while k < |wordList|
          invariant 0 <= k <= |wordList|
          invariant forall q :: 0 <= q < k ==> !EqualsIgnoreCase(word, wordList[q])
        {
          if EqualsIgnoreCase(word, wordList[k]) {
            isInDictionary := true;
            break;
          }
          k := k + 1;
        }
        if !isInDictionary {
          assert !HasCaseVariant(wordList, word);
          mainDictionary := mainDictionary[code := wordList + [word]];
        } else {
          assert HasCaseVariant(wordList, word);
        }
      } else {
        assert Bucket(mainDictionary, code) + [word] == [word];
        mainDictionary := mainDictionary[code := [word]];
      }
    }

    /** getWords: the list for the code, never null. */
    function GetWords(code: string): (r: seq<string>)
      reads this
      ensures code !in mainDictionary ==> r == []
      ensures forall w :: w in r ==> code in mainDictionary && w in mainDictionary[code]
    {
      Bucket(mainDictionary, code)
    }
  }

  /**
   * A loaded dictionary finds every non-empty line of its word list under
   * the line's own code, and each code's list holds exactly the lines with
   * that code, in file order.
   */
  lemma LoadedDictionaryLists(transform: string -> string, lines: seq<string>, code: string)
    ensures Bucket(StoreAll(transform, map[], NonEmpty(lines)), code) == WithCode(transform, NonEmpty(lines), code)
    ensures forall l :: l in lines && l != [] ==> l in Bucket(StoreAll(transform, map[], NonEmpty(lines)), transform(l))
  {
    StoreAllBuckets(transform, map[], NonEmpty(lines), code);
    forall l | l in lines && l != []
      ensures l in Bucket(StoreAll(transform, map[], NonEmpty(lines)), transform(l))
    {
      StoredWordsFound(transform, map[], NonEmpty(lines), l);
    }
  }

  /** Reading line i stores it with putWord when it is not empty, and changes nothing otherwise. */
  lemma StoreStep(transform: string -> string, start: Index, lines: seq<string>, i: nat)
    requires i < |lines|
    ensures lines[i] != [] ==>
      (StoreAll(transform, start, NonEmpty(lines[..i + 1])) ==
       Append(StoreAll(transform, start, NonEmpty(lines[..i])), transform(lines[i]), lines[i]))
    ensures lines[i] == [] ==> NonEmpty(lines[..i + 1]) == NonEmpty(lines[..i])
  {
    NonEmptyStep(lines, i);
    StoreAllSnoc(transform, start, NonEmpty(lines[..i]), lines[i]);
  }

  /** As StoreStep, with the line lower-cased before it is stored. */
  lemma StoreLowerCasedStep(transform: string -> string, start: Index, lines: seq<string>, i: nat)
    requires i < |lines|
    ensures lines[i] != [] ==>
      (StoreAll(transform, start, LowerCased(NonEmpty(lines[..i + 1]))) ==
       Append(StoreAll(transform, start, LowerCased(NonEmpty(lines[..i]))), transform(ToLower(lines[i])), ToLower(lines[i])))
    ensures lines[i] == [] ==> NonEmpty(lines[..i + 1]) == NonEmpty(lines[..i])
  {
    NonEmptyStep(lines, i);
    LowerCasedSnoc(NonEmpty(lines[..i]), lines[i]);
    StoreAllSnoc(transform, start, LowerCased(NonEmpty(lines[..i])), ToLower(lines[i]));
  }

  /** As StoreStep, with putWordUnique. */
  lemma StoreUniqueStep(transform: string -> string, start: Index, lines: seq<string>, i: nat)
    requires i < |lines|
    ensures lines[i] != [] ==>
      (StoreAllUnique(transform, start, NonEmpty(lines[..i + 1])) ==
       AppendUnique(StoreAllUnique(transform, start, NonEmpty(lines[..i])), transform(lines[i]), lines[i]))
    ensures lines[i] == [] ==> NonEmpty(lines[..i + 1]) == NonEmpty(lines[..i])
  {
    NonEmptyStep(lines, i);
    StoreAllUniqueSnoc(transform, start, NonEmpty(lines[..i]), lines[i]);
  }
}
