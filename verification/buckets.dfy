/**
 * The in-memory word store both HashMap-backed dictionaries keep: a map
 * from phonetic code to the list of words with that code, in the order they
 * were stored. A missing code reads as an empty list.
 */
module Buckets {
  import opened JavaText

  type Index = map<string, seq<string>>

  /** getWords: the list stored under the code, or an empty list when there is none. */
  function Bucket(m: Index, code: string): (r: seq<string>)
    ensures code !in m ==> r == []
  {
    if code in m then m[code] else []
  }

  /**
   * putWord: the word goes to the end of its code's list, which is created
   * when absent; every other list is unchanged.
   */
  function Append(m: Index, code: string, word: string): (r: Index)
    ensures Bucket(r, code) == Bucket(m, code) + [word]
    ensures forall c :: c != code ==> Bucket(r, c) == Bucket(m, c)
    ensures r.Keys == m.Keys + {code}
  {
    m[code := Bucket(m, code) + [word]]
  }

  /** The words of `words` whose code is `code`, in order. */
  function WithCode(transform: string -> string, words: seq<string>, code: string): (r: seq<string>)
    ensures forall w :: w in r ==> w in words && transform(w) == code
  {
    if words == [] then []
    else
      var w := words[|words| - 1];
      WithCode(transform, words[..|words| - 1], code) + (if transform(w) == code then [w] else [])
  }

  /** putWord applied to every word in turn. */
  function StoreAll(transform: string -> string, m: Index, words: seq<string>): Index
  {
    if words == [] then m
    else
      var w := words[|words| - 1];
      Append(StoreAll(transform, m, words[..|words| - 1]), transform(w), w)
  }

  /** Storing one more word is one more putWord. */
  lemma StoreAllSnoc(transform: string -> string, m: Index, words: seq<string>, w: string)
    ensures StoreAll(transform, m, words + [w]) == Append(StoreAll(transform, m, words), transform(w), w)
  {
    assert (words + [w])[..|words|] == words;
  }

  /** Storing the first i + 1 lines is storing the first i, then line i. */
  lemma StorePrefix(transform: string -> string, m: Index, lines: seq<string>, i: nat)
    requires i < |lines|
    ensures StoreAll(transform, m, lines[..i + 1]) == Append(StoreAll(transform, m, lines[..i]), transform(lines[i]), lines[i])
  {
    assert lines[..i + 1] == lines[..i] + [lines[i]];
    StoreAllSnoc(transform, m, lines[..i], lines[i]);
  }

  /**
   * After storing a sequence of words, each code's list is its old list
   * followed by exactly the stored words with that code, in the order given.
   */
  lemma {:induction false} StoreAllBuckets(transform: string -> string, m: Index, words: seq<string>, code: string)
    ensures Bucket(StoreAll(transform, m, words), code) == Bucket(m, code) + WithCode(transform, words, code)
  {
    if words != [] {
      var p := words[..|words| - 1];
      StoreAllBuckets(transform, m, p, code);
      var w := words[|words| - 1];
      if transform(w) == code {
        assert Bucket(m, code) + WithCode(transform, p, code) + [w]
            == Bucket(m, code) + (WithCode(transform, p, code) + [w]);
      }
    }
  }

  lemma {:induction false} WithCodeHolds(transform: string -> string, words: seq<string>, w: string)
    requires w in words
    ensures w in WithCode(transform, words, transform(w))
  {
    var p := words[..|words| - 1];
    if words[|words| - 1] != w {
      assert words == p + [words[|words| - 1]];
      WithCodeHolds(transform, p, w);
    }
  }

  /** Every stored word can be found again under its own code. */
  lemma StoredWordsFound(transform: string -> string, m: Index, words: seq<string>, w: string)
    requires w in words
    ensures w in Bucket(StoreAll(transform, m, words), transform(w))
  {
    StoreAllBuckets(transform, m, words, transform(w));
    WithCodeHolds(transform, words, w);
  }

  /** The lines readLine returns that are not empty, in order. */
  function NonEmpty(lines: seq<string>): (r: seq<string>)
    ensures forall l :: l in r <==> l in lines && l != []
  {
    if lines == [] then []
    else (if lines[0] != [] then [lines[0]] else []) + NonEmpty(lines[1..])
  }

  /** Skipping empty lines commutes with reading one more line. */
  lemma {:induction false} NonEmptySnoc(lines: seq<string>, line: string)
    ensures NonEmpty(lines + [line]) == NonEmpty(lines) + (if line != [] then [line] else [])
  {
    if lines == [] {
      assert lines + [line] == [line];
    } else {
      var head := if lines[0] != [] then [lines[0]] else [];
      var last := if line != [] then [line] else [];
      assert (lines + [line])[1..] == lines[1..] + [line];
      assert NonEmpty(lines + [line]) == head + NonEmpty(lines[1..] + [line]);
      NonEmptySnoc(lines[1..], line);
      Associative(head, NonEmpty(lines[1..]), last);
    }
  }

  lemma Associative(a: seq<string>, b: seq<string>, c: seq<string>)
    ensures a + (b + c) == (a + b) + c
  {
  }

  /** Reading line i after lines 0 to i-1. */
  lemma NonEmptyStep(lines: seq<string>, i: nat)
    requires i < |lines|
    ensures NonEmpty(lines[..i + 1]) == NonEmpty(lines[..i]) + (if lines[i] != [] then [lines[i]] else [])
  {
    assert lines[..i + 1] == lines[..i] + [lines[i]];
    NonEmptySnoc(lines[..i], lines[i]);
  }

  /** Every line lower-cased. */
  function LowerCased(lines: seq<string>): seq<string>
  {
    seq(|lines|, i requires 0 <= i < |lines| => ToLower(lines[i]))
  }

  /**
   * The normalised lines are the lines themselves up to case, and already in
   * lower case: normalising them again changes nothing.
   */
  lemma LowerCasedMeaning(lines: seq<string>)
    ensures |LowerCased(lines)| == |lines|
    ensures forall i :: 0 <= i < |lines| ==> EqualsIgnoreCase(LowerCased(lines)[i], lines[i])
    ensures LowerCased(LowerCased(lines)) == LowerCased(lines)
  {
    forall i | 0 <= i < |lines|
      ensures ToLower(ToLower(lines[i])) == ToLower(lines[i])
    {
      ToLowerIdempotent(lines[i]);
    }
  }

  /** A normalised line is exactly the lower-cased form of some line. */
  lemma LowerCasedMembers(lines: seq<string>, w: string)
    ensures w in LowerCased(lines) <==> exists k :: 0 <= k < |lines| && w == ToLower(lines[k])
  {
    if w in LowerCased(lines) {
      var k :| 0 <= k < |LowerCased(lines)| && LowerCased(lines)[k] == w;
      assert w == ToLower(lines[k]);
    }
    if exists k :: 0 <= k < |lines| && w == ToLower(lines[k]) {
      var k :| 0 <= k < |lines| && w == ToLower(lines[k]);
      assert LowerCased(lines)[k] == w;
    }
  }

  lemma LowerCasedSnoc(lines: seq<string>, line: string)
    ensures LowerCased(lines + [line]) == LowerCased(lines) + [ToLower(line)]
  {
  }

  // ---------------------------------------------------------------------
  // putWordUnique

  /** Some word of the list equals w when case is ignored. */
  predicate HasCaseVariant(list: seq<string>, w: string)
  {
    exists k :: 0 <= k < |list| && EqualsIgnoreCase(w, list[k])
  }

  /** No list holds two words that are equal when case is ignored. */
  ghost predicate NoCaseDuplicates(m: Index)
  {
    forall code, i, j :: code in m && 0 <= i < j < |m[code]| ==> !EqualsIgnoreCase(m[code][i], m[code][j])
  }

  /** putWordUnique: putWord, unless the code's list already holds the word in some case. */
  function AppendUnique(m: Index, code: string, word: string): (r: Index)
    ensures HasCaseVariant(Bucket(r, code), word)
    ensures r == m <==> HasCaseVariant(Bucket(m, code), word)
    ensures Bucket(m, code) <= Bucket(r, code) && |Bucket(r, code)| <= |Bucket(m, code)| + 1
    ensures forall c :: c != code ==> Bucket(r, c) == Bucket(m, c)
  {
    if HasCaseVariant(Bucket(m, code), word) then m
    else
      var r := Append(m, code, word);
      assert Bucket(r, code)[|Bucket(m, code)|] == word;
      r
  }

  /** putWordUnique never introduces two case variants of a word into one list. */
  lemma AppendUniqueKeepsNoCaseDuplicates(m: Index, code: string, word: string)
    requires NoCaseDuplicates(m)
    ensures NoCaseDuplicates(AppendUnique(m, code, word))
  {
    if !HasCaseVariant(Bucket(m, code), word) {
      var r := Append(m, code, word);
      forall c, i, j | c in r && 0 <= i < j < |r[c]|
        ensures !EqualsIgnoreCase(r[c][i], r[c][j])
      {
        if c == code && j == |r[c]| - 1 {
          assert r[c][i] == Bucket(m, code)[i];
          assert !EqualsIgnoreCase(word, Bucket(m, code)[i]);
        } else if c == code {
          assert r[c][i] == m[c][i] && r[c][j] == m[c][j];
        } else {
          assert r[c] == m[c];
        }
      }
    }
  }

  /** putWordUnique applied to every word in turn. */
  function StoreAllUnique(transform: string -> string, m: Index, words: seq<string>): Index
  {
    if words == [] then m
    else
      var w := words[|words| - 1];
      AppendUnique(StoreAllUnique(transform, m, words[..|words| - 1]), transform(w), w)
  }

  /** Merging one more word is one more putWordUnique. */
  lemma StoreAllUniqueSnoc(transform: string -> string, m: Index, words: seq<string>, w: string)
    ensures StoreAllUnique(transform, m, words + [w]) == AppendUnique(StoreAllUnique(transform, m, words), transform(w), w)
  {
    assert (words + [w])[..|words|] == words;
  }

  /** Merging a word list with putWordUnique keeps every list free of case variants. */
  lemma {:induction false} StoreAllUniqueKeepsNoCaseDuplicates(transform: string -> string, m: Index, words: seq<string>)
    requires NoCaseDuplicates(m)
    ensures NoCaseDuplicates(StoreAllUnique(transform, m, words))
  {
    if words != [] {
      var w := words[|words| - 1];
      StoreAllUniqueKeepsNoCaseDuplicates(transform, m, words[..|words| - 1]);
      AppendUniqueKeepsNoCaseDuplicates(StoreAllUnique(transform, m, words[..|words| - 1]), transform(w), w);
    }
  }

  /** After a merge, every merged word has a case variant under its own code. */
  lemma {:induction false} StoreAllUniqueFinds(transform: string -> string, m: Index, words: seq<string>, w: string)
    requires w in words
    ensures HasCaseVariant(Bucket(StoreAllUnique(transform, m, words), transform(w)), w)
  {
    var p := words[..|words| - 1];
    var last := words[|words| - 1];
    var before := StoreAllUnique(transform, m, p);
    if last != w {
      assert words == p + [last];
      StoreAllUniqueFinds(transform, m, p, w);
      var b0 := Bucket(before, transform(w));
      var k :| 0 <= k < |b0| && EqualsIgnoreCase(w, b0[k]);
      var b := Bucket(AppendUnique(before, transform(last), last), transform(w));
      assert b0 <= b;
      assert b[k] == b0[k];
    }
  }
}
