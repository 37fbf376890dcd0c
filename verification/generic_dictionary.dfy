/**
 * GenericSpellingDictionary: a word-list dictionary held in memory as a map
 * from phonetic code to words, that can be extended one word at a time and
 * then appends the word to its word-list file. Every line read is stored,
 * the empty line included. The file is modelled by the text appended to it.
 */
module GenericDictionary {
  import opened Buckets

  class GenericSpellingDictionary {
    const transform: string -> string
    var mainDictionary: Index
    /** Whether a word-list file was given (dictionaryFile != null). */
    const hasFile: bool
    /** The text addWord has appended to the word-list file. */
    var appended: string
    /** Every line read and every word added since, in order. */
    ghost var stored: seq<string>

    /** The word store is what putting every stored word in turn builds. */
    ghost predicate Valid()
      reads this
    {
      mainDictionary == StoreAll(transform, map[], stored)
    }

    /** GenericSpellingDictionary(File, File): every line of the word list, empty lines included. */
    constructor (transform: string -> string, lines: seq<string>, hasFile: bool)
      ensures this.transform == transform && this.hasFile == hasFile
      ensures mainDictionary == StoreAll(transform, map[], lines)
      ensures appended == "" && stored == lines && Valid()
    {
      this.transform := transform;
      this.hasFile := hasFile;
      mainDictionary := map[];
      appended := "";
      stored := lines;
      new;
      CreateDictionary(lines);
    }

    /** createDictionary: putWord for every line readLine returns. */
    method CreateDictionary(lines: seq<string>)
      modifies `mainDictionary
      ensures mainDictionary == StoreAll(transform, old(mainDictionary), lines)
    {
      ghost var start := mainDictionary;
      var i := 0;
      assert lines[..0] == [];
      while i < |lines|
        invariant 0 <= i <= |lines|
        invariant mainDictionary == StoreAll(transform, start, lines[..i])
      {
        StorePrefix(transform, start, lines, i);
        PutWord(lines[i]);
        i := i + 1;
      }
      assert lines[..i] == lines;
    }

    /** putWord: the word goes to the end of its code's list. */
    method PutWord(word: string)
      modifies `mainDictionary
      ensures mainDictionary == Append(old(mainDictionary), transform(word), word)
    {
      var code := transform(word);
      if code in mainDictionary {
        var list := mainDictionary[code];
        mainDictionary := mainDictionary[code := list + [word]];
      } else {
        var list := [word];
        assert Bucket(mainDictionary, code) + [word] == list;
        mainDictionary := mainDictionary[code := list];
      }
    }

    /**
     * addWord: putWord, then, when there is a word-list file, the word and
     * the platform line separator are appended to it.
     */
    method AddWord(word: string, lineSeparator: string)
      requires Valid()
      modifies this
      ensures mainDictionary == Append(old(mainDictionary), transform(word), word)
      ensures stored == old(stored) + [word] && Valid()
      ensures hasFile ==> appended == old(appended) + word + lineSeparator
      ensures !hasFile ==> appended == old(appended)
    {
      PutWord(word);
      StoreAllSnoc(transform, map[], stored, word);
      stored := stored + [word];
      if !hasFile {
        return;
      }
      appended := appended + word + lineSeparator;
    }

    /**
     * getWords: the list for the code, never null. In a valid store it is
     * exactly the lines read and the words added since that have the code,
     * in the order they were stored, the empty line included.
     */
    function GetWords(code: string): (r: seq<string>)
      reads this
      ensures code !in mainDictionary ==> r == []
      ensures Valid() ==> r == WithCode(transform, stored, code)
    {
      StoreAllBuckets(transform, map[], stored, code);
      Bucket(mainDictionary, code)
    }
  }
}
