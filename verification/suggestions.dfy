/**
 * The suggestion engine of an aspell-style dictionary: the words sharing a
 * misspelling's phonetic code, the words of every code one edit away, the
 * best-guess fallback, the two cost-sorted lists it returns, and the
 * correctness test.
 *
 * The phonetic transformation and the concrete dictionary's bucket lookup
 * are parameters: `transform` stands for the configured Transformator and
 * `words` for the getWords of the dictionary class that extends the engine.
 */
module Suggestions {
  import opened JavaText
  import opened EditDistance
  import opened Words
  import Sorting

  /** Everything getSuggestions depends on besides the word itself. */
  datatype Engine = Engine(
    transform: string -> string,    // Transformator.transform, i.e. getPhoneticCode
    words: string -> seq<string>,   // getWords(code) of the concrete dictionary
    replaceList: string,            // Transformator.getReplaceList()
    costs: Costs,                   // the five edit-distance weights
    threshold: int)                 // the configured SPELL_THRESHOLD

  // ---------------------------------------------------------------------
  // The near-miss code map: a HashMap<String, String> whose keys are the
  // codes, kept here as its keys without repeats, in the order first put.

  predicate NoRepeats(codes: seq<string>)
  {
    forall i, j :: 0 <= i < j < |codes| ==> codes[i] != codes[j]
  }

  /** HashMap.put(s, s) on the key set. */
  function Put(codes: seq<string>, s: string): (r: seq<string>)
    ensures forall x :: x in r <==> x in codes || x == s
    ensures NoRepeats(codes) ==> NoRepeats(r)
  {
    if s in codes then codes else codes + [s]
  }

  /** Putting every code of xs, in order. */
  function PutAll(codes: seq<string>, xs: seq<string>): (r: seq<string>)
    ensures forall x :: x in r <==> x in codes || x in xs
    ensures NoRepeats(codes) ==> NoRepeats(r)
  {
    if xs == [] then codes else Put(PutAll(codes, xs[..|xs| - 1]), xs[|xs| - 1])
  }

  lemma PutAllSnoc(codes: seq<string>, xs: seq<string>, x: string)
    ensures PutAll(codes, xs + [x]) == Put(PutAll(codes, xs), x)
  {
    assert (xs + [x])[..|xs|] == xs;
  }

  lemma {:induction false} PutAllAppend(codes: seq<string>, a: seq<string>, b: seq<string>)
    ensures PutAll(codes, a + b) == PutAll(PutAll(codes, a), b)
  {
    if b == [] {
      assert a + b == a;
    } else {
      var x := b[|b| - 1];
      var b' := b[..|b| - 1];
      calc {
        PutAll(codes, a + b);
        { assert a + b == (a + b') + [x]; }
        PutAll(codes, (a + b') + [x]);
        { PutAllSnoc(codes, a + b', x); }
        Put(PutAll(codes, a + b'), x);
        { PutAllAppend(codes, a, b'); }
        Put(PutAll(PutAll(codes, a), b'), x);
        { PutAllSnoc(PutAll(codes, a), b', x); assert b == b' + [x]; }
        PutAll(PutAll(codes, a), b);
      }
    }
  }

  /** HashMap.remove(s) on the key set. */
  function Without(codes: seq<string>, s: string): (r: seq<string>)
    ensures forall x :: x in r <==> x in codes && x != s
    ensures NoRepeats(codes) ==> NoRepeats(r)
  {
    if codes == [] then []
    else if codes[0] == s then Without(codes[1..], s)
    else
      assert NoRepeats(codes) ==> codes[0] !in codes[1..];
      [codes[0]] + Without(codes[1..], s)
  }

  // ---------------------------------------------------------------------
  // The words one edit away, and their codes in the order they are put.

  /** The word with positions i and i + 1 exchanged. */
  function Swapped(w: string, i: nat): (r: string)
    requires i + 1 < |w|
    ensures |r| == |w| && r[i] == w[i + 1] && r[i + 1] == w[i]
    ensures forall k :: 0 <= k < |w| && k != i && k != i + 1 ==> r[k] == w[k]
  {
    w[i := w[i + 1]][i + 1 := w[i]]
  }

  /** The word with position i overwritten by c. */
  function Changed(w: string, i: nat, c: char): (r: string)
    requires i < |w|
    ensures |r| == |w| && r[i] == c
    ensures forall k :: 0 <= k < |w| && k != i ==> r[k] == w[k]
  {
    w[i := c]
  }

  /** The word with c inserted before position i. */
  function Inserted(w: string, i: nat, c: char): (r: string)
    requires i <= |w|
    ensures |r| == |w| + 1 && r[i] == c
    ensures r[..i] + r[i + 1..] == w
  {
    assert (w[..i] + [c] + w[i..])[i + 1..] == w[i..];
    w[..i] + [c] + w[i..]
  }

  /** The number of adjacent pairs: word.length() - 1, never negative. */
  function Pairs(w: string): nat
  {
    if |w| < 2 then 0 else |w| - 1
  }

  /** The interchange phase: the code of every adjacent swap, left to right. */
  function SwapCodes(e: Engine, w: string): (r: seq<string>)
    ensures |r| == Pairs(w)
  {
    seq(Pairs(w), i requires 0 <= i < Pairs(w) => e.transform(Swapped(w, i)))
  }

  /** The codes of every replace-list letter written over position i. */
  function ChangeRow(e: Engine, w: string, i: nat): (r: seq<string>)
    requires i < |w|
    ensures |r| == |e.replaceList|
  {
    seq(|e.replaceList|, j requires 0 <= j < |e.replaceList| => e.transform(Changed(w, i, e.replaceList[j])))
  }

  /** The change phase over positions 0 .. n - 1. */
  function ChangeCodes(e: Engine, w: string, n: nat): seq<string>
    requires n <= |w|
  {
    if n == 0 then [] else ChangeCodes(e, w, n - 1) + ChangeRow(e, w, n - 1)
  }

  /** The codes of every replace-list letter inserted before position i. */
  function InsertRow(e: Engine, w: string, i: nat): (r: seq<string>)
    requires i <= |w|
    ensures |r| == |e.replaceList|
  {
    seq(|e.replaceList|, j requires 0 <= j < |e.replaceList| => e.transform(Inserted(w, i, e.replaceList[j])))
  }

  /** The add phase over its first `count` positions, which run from |w| downwards. */
  function InsertCodes(e: Engine, w: string, count: nat): seq<string>
    requires count <= |w| + 1
  {
    if count == 0 then [] else InsertCodes(e, w, count - 1) + InsertRow(e, w, |w| + 1 - count)
  }

  /** Putting the codes of position i after those of the positions above it puts the add phase down to i. */
  lemma InsertStep(e: Engine, w: string, codes: seq<string>, i: nat, count: nat)
    requires i <= |w| && count == |w| - i
    ensures PutAll(PutAll(codes, InsertCodes(e, w, count)), InsertRow(e, w, i)) == PutAll(codes, InsertCodes(e, w, count + 1))
  {
    assert InsertCodes(e, w, count + 1) == InsertCodes(e, w, count) + InsertRow(e, w, i);
    PutAllAppend(codes, InsertCodes(e, w, count), InsertRow(e, w, i));
  }

  function Repeat(x: string, n: nat): (r: seq<string>)
    ensures |r| == n && forall y :: y in r ==> y == x
  {
    if n == 0 then [] else Repeat(x, n - 1) + [x]
  }

  /** One more repetition is one more put. */
  lemma RepeatStep(codes: seq<string>, x: string, count: nat)
    ensures PutAll(codes, Repeat(x, count + 1)) == Put(PutAll(codes, Repeat(x, count)), x)
  {
    assert Repeat(x, count + 1) == Repeat(x, count) + [x];
    PutAllSnoc(codes, Repeat(x, count), x);
  }

  lemma {:induction false} RepeatMembers(x: string, n: nat, y: string)
    ensures y in Repeat(x, n) <==> n > 0 && y == x
  {
    if n > 0 {
      assert Repeat(x, n)[n - 1] == x;
    }
  }

  // ---------------------------------------------------------------------
  // The four phases, each on a char array of its own, as getSuggestions
  // performs them.

  /** Interchange: swap each adjacent pair, encode, swap back. */
  method SwapPhase(e: Engine, word: string, codes: seq<string>) returns (r: seq<string>)
    ensures r == PutAll(codes, SwapCodes(e, word))
  {
    var charArray := new char[|word|](k requires 0 <= k < |word| => word[k]);
    r := codes;
    var i := 0;
    while i < |word| - 1
      invariant 0 <= i <= Pairs(word)
      invariant charArray[..] == word
      invariant r == PutAll(codes, SwapCodes(e, word)[..i])
    {
      r := SwapAt(e, word, i, charArray, codes, r);
      i := i + 1;
    }
    assert SwapCodes(e, word)[..i] == SwapCodes(e, word);
  }

  /** One pass of the interchange loop: swap positions i and i + 1, encode, swap back. */
  method SwapAt(e: Engine, word: string, i: nat, charArray: array<char>, codes: seq<string>, sofar: seq<string>)
    returns (r: seq<string>)
    modifies charArray
    requires i + 1 < |word| && charArray[..] == word
    requires sofar == PutAll(codes, SwapCodes(e, word)[..i])
    ensures charArray[..] == word
    ensures r == PutAll(codes, SwapCodes(e, word)[..i + 1])
  {
    var a := charArray[i];
    var b := charArray[i + 1];
    charArray[i] := b;
    charArray[i + 1] := a;
    assert charArray[..] == Swapped(word, i);
    var s := e.transform(charArray[..]);
    assert SwapCodes(e, word)[..i + 1] == SwapCodes(e, word)[..i] + [s];
    PutAllSnoc(codes, SwapCodes(e, word)[..i], s);
    r := Put(sofar, s);
    charArray[i] := a;
    charArray[i + 1] := b;
    assert charArray[..] == word;
  }

  /** Change: write every replace-list letter over each position in turn, then restore it. */
  method ChangePhase(e: Engine, word: string, codes: seq<string>) returns (r: seq<string>)
    ensures r == PutAll(codes, ChangeCodes(e, word, |word|))
  {
    var charArray := new char[|word|](k requires 0 <= k < |word| => word[k]);
    r := codes;
    var i := 0;
    while i < |word|
      invariant 0 <= i <= |word|
      invariant charArray[..] == word
      invariant r == PutAll(codes, ChangeCodes(e, word, i))
    {
      PutAllAppend(codes, ChangeCodes(e, word, i), ChangeRow(e, word, i));
      r := ChangePosition(e, word, i, charArray, r);
      i := i + 1;
    }
  }

  /** One pass of the change phase's inner loop, with the position restored afterwards. */
  method ChangePosition(e: Engine, word: string, i: nat, charArray: array<char>, codes: seq<string>)
    returns (r: seq<string>)
    modifies charArray
    requires i < |word| && charArray[..] == word
    ensures charArray[..] == word
    ensures r == PutAll(codes, ChangeRow(e, word, i))
  {
    var replacelist := e.replaceList;
    var original := charArray[i];
    r := codes;
    var j := 0;
    while j < |replacelist|
      invariant 0 <= j <= |replacelist|
      invariant charArray.Length == |word|
      invariant forall k :: 0 <= k < |word| && k != i ==> charArray[k] == word[k]
      invariant r == PutAll(codes, ChangeRow(e, word, i)[..j])
    {
      charArray[i] := replacelist[j];
      assert charArray[..] == Changed(word, i, replacelist[j]);
      var s := e.transform(charArray[..]);
      assert ChangeRow(e, word, i)[..j + 1] == ChangeRow(e, word, i)[..j] + [s];
      PutAllSnoc(codes, ChangeRow(e, word, i)[..j], s);
      r := Put(r, s);
      j := j + 1;
    }
    charArray[i] := original;
    assert charArray[..] == word;
    assert ChangeRow(e, word, i)[..j] == ChangeRow(e, word, i);
  }

  /**
   * Add: with a blank appended, write every replace-list letter at the last
   * position, then shift the character before it one place right and
   * repeat one position further left, down to position 0.
   */
  method AddPhase(e: Engine, word: string, codes: seq<string>) returns (r: seq<string>)
    ensures r == PutAll(codes, InsertCodes(e, word, |word| + 1))
  {
    var padded := word + " ";
    var charArray := new char[|padded|](k requires 0 <= k < |padded| => padded[k]);
    r := codes;
    var iy := charArray.Length - 1;
    ghost var count := 0;
    while true
      invariant 0 <= iy <= |word| && count == |word| - iy
      invariant OpenAt(charArray, word, iy)
      invariant r == PutAll(codes, InsertCodes(e, word, count))
      decreases iy
    {
      r := AddAt(e, word, codes, iy, charArray, count, r);
      count := count + 1;
      if iy == 0 {
        break;
      }
      ShiftRight(word, iy, charArray);
      iy := iy - 1;
    }
  }

  /**
   * The add phase's array with its gap at iy: the word's characters before
   * iy in place, those from iy on one place to the right.
   */
  ghost predicate OpenAt(a: array<char>, w: string, iy: nat)
    reads a
  {
    && iy <= |w| && a.Length == |w| + 1
    && (forall k :: 0 <= k < iy ==> a[k] == w[k])
    && (forall k :: iy < k <= |w| ==> a[k] == w[k - 1])
  }

  /** The add phase's pass at position iy, continuing the codes of the positions above it. */
  method AddAt(e: Engine, word: string, codes: seq<string>, iy: nat, charArray: array<char>,
               ghost count: nat, sofar: seq<string>)
    returns (r: seq<string>)
    modifies charArray
    requires OpenAt(charArray, word, iy) && count == |word| - iy
    requires sofar == PutAll(codes, InsertCodes(e, word, count))
    ensures OpenAt(charArray, word, iy)
    ensures r == PutAll(codes, InsertCodes(e, word, count + 1))
  {
    InsertStep(e, word, codes, iy, count);
    r := InsertPosition(e, word, iy, charArray, sofar);
  }

  /** charArray[iy] = charArray[iy - 1]: the gap moves one place left. */
  method ShiftRight(w: string, iy: nat, a: array<char>)
    modifies a
    requires 0 < iy && OpenAt(a, w, iy)
    ensures OpenAt(a, w, iy - 1)
  {
    a[iy] := a[iy - 1];
  }

  /** One pass of the add phase's inner loop: every letter written at position iy. */
  method InsertPosition(e: Engine, word: string, iy: nat, charArray: array<char>, codes: seq<string>)
    returns (r: seq<string>)
    modifies charArray
    requires OpenAt(charArray, word, iy)
    ensures OpenAt(charArray, word, iy)
    ensures r == PutAll(codes, InsertRow(e, word, iy))
  {
    var replacelist := e.replaceList;
    r := codes;
    var j := 0;
    while j < |replacelist|
      invariant 0 <= j <= |replacelist|
      invariant forall k :: 0 <= k < iy ==> charArray[k] == word[k]
      invariant forall k :: iy < k <= |word| ==> charArray[k] == word[k - 1]
      invariant r == PutAll(codes, InsertRow(e, word, iy)[..j])
    {
      charArray[iy] := replacelist[j];
      assert charArray[..] == Inserted(word, iy, replacelist[j]);
      var s := e.transform(charArray[..]);
      assert InsertRow(e, word, iy)[..j + 1] == InsertRow(e, word, iy)[..j] + [s];
      PutAllSnoc(codes, InsertRow(e, word, iy)[..j], s);
      r := Put(r, s);
      j := j + 1;
    }
    assert InsertRow(e, word, iy)[..j] == InsertRow(e, word, iy);
  }

  /**
   * Delete, as written: the trimmed word is copied without its last
   * character and the copy's characters are rotated, but every iteration
   * encodes the unmodified trimmed word. A blank word leaves a copy of
   * length -1 to allocate, which throws.
   */
  method DeletePhase(e: Engine, padded: string, codes: seq<string>) returns (r: Attempt<seq<string>>)
    ensures Trim(padded) == [] ==> r == Thrown(NegativeArraySize)
    ensures Trim(padded) != [] ==> r == Done(PutAll(codes, Repeat(e.transform(Trim(padded)), |Trim(padded)|)))
  {
    var word := Trim(padded);
    if |word| - 1 < 0 {
      return Thrown(NegativeArraySize);
    }
    var acc := DeleteLoop(e, word, codes);
    r := Done(acc);
  }

  /** The delete phase's loop over a non-empty trimmed word. */
  method DeleteLoop(e: Engine, word: string, codes: seq<string>) returns (acc: seq<string>)
    requires |word| > 0
    ensures acc == PutAll(codes, Repeat(e.transform(word), |word|))
  {
    var charArray := new char[|word|](k requires 0 <= k < |word| => word[k]);
    var charArray2 := new char[charArray.Length - 1](k requires 0 <= k < |word| - 1 => word[k]);
    var a := charArray[charArray.Length - 1];
    var ii := charArray2.Length;
    acc := codes;
    ghost var code := e.transform(word);
    ghost var count := 0;
    while true
      invariant 0 <= ii <= |word| - 1 && count == |word| - 1 - ii
      invariant charArray[..] == word
      invariant acc == PutAll(codes, Repeat(code, count))
      decreases ii
    {
      var s := e.transform(charArray[..]);
      assert s == code;
      RepeatStep(codes, code, count);
      acc := Put(acc, s);
      count := count + 1;
      if ii == 0 {
        assert count == |word|;
        break;
      }
      var b := a;
      a := charArray2[ii - 1];
      charArray2[ii - 1] := b;
      ii := ii - 1;
    }
  }

  // ---------------------------------------------------------------------
  // The near-miss codes as a whole

  /** x is the code of w with some adjacent pair exchanged. */
  ghost predicate SwapEdit(e: Engine, w: string, x: string)
  {
    exists i :: 0 <= i && i + 1 < |w| && x == e.transform(Swapped(w, i))
  }

  /** x is the code of w with one of its first n positions overwritten by a replace-list letter. */
  ghost predicate ChangeEdit(e: Engine, w: string, n: nat, x: string)
  {
    exists i, j :: 0 <= i < n && i < |w| && 0 <= j < |e.replaceList| && x == e.transform(Changed(w, i, e.replaceList[j]))
  }

  /** x is the code of w with a replace-list letter inserted at a position from lo to |w|. */
  ghost predicate InsertEdit(e: Engine, w: string, lo: nat, x: string)
  {
    exists i, j :: lo <= i <= |w| && 0 <= j < |e.replaceList| && x == e.transform(Inserted(w, i, e.replaceList[j]))
  }

  /** A code one edit of w away: an adjacent swap, a letter written over a position, or a letter inserted. */
  ghost predicate OneEditCode(e: Engine, w: string, x: string)
  {
    SwapEdit(e, w, x) || ChangeEdit(e, w, |w|, x) || InsertEdit(e, w, 0, x)
  }

  /** Every code the four phases put, in the order they put them. */
  function PhaseCodes(e: Engine, word: string): seq<string>
  {
    var t := Trim(word + " ");
    SwapCodes(e, word) + ChangeCodes(e, word, |word|) + InsertCodes(e, word, |word| + 1)
      + Repeat(e.transform(t), |t|)
  }

  /** The keys of nearMissCodes after the delete phase, before the word's own code is removed. */
  function NearMissCodes(e: Engine, word: string): seq<string>
  {
    PutAll([], PhaseCodes(e, word))
  }

  lemma {:induction false} ChangeCodesMembers(e: Engine, w: string, n: nat, x: string)
    requires n <= |w|
    ensures x in ChangeCodes(e, w, n) <==> ChangeEdit(e, w, n, x)
  {
    if n > 0 {
      ChangeCodesMembers(e, w, n - 1, x);
      if x in ChangeRow(e, w, n - 1) {
        var j :| 0 <= j < |e.replaceList| && ChangeRow(e, w, n - 1)[j] == x;
        assert x == e.transform(Changed(w, n - 1, e.replaceList[j]));
      }
      if ChangeEdit(e, w, n, x) {
        var i, j :| 0 <= i < n && i < |w| && 0 <= j < |e.replaceList| && x == e.transform(Changed(w, i, e.replaceList[j]));
        if i == n - 1 {
          assert ChangeRow(e, w, n - 1)[j] == x;
        }
      }
    }
  }

  lemma {:induction false} InsertCodesMembers(e: Engine, w: string, count: nat, x: string)
    requires count <= |w| + 1
    ensures x in InsertCodes(e, w, count) <==> InsertEdit(e, w, |w| + 1 - count, x)
  {
    if count > 0 {
      var i0 := |w| + 1 - count;
      InsertCodesMembers(e, w, count - 1, x);
      if x in InsertRow(e, w, i0) {
        var j :| 0 <= j < |e.replaceList| && InsertRow(e, w, i0)[j] == x;
        assert x == e.transform(Inserted(w, i0, e.replaceList[j]));
      }
      if InsertEdit(e, w, i0, x) {
        var i, j :| i0 <= i <= |w| && 0 <= j < |e.replaceList| && x == e.transform(Inserted(w, i, e.replaceList[j]));
        if i == i0 {
          assert InsertRow(e, w, i0)[j] == x;
        }
      }
    }
  }

  lemma SwapCodesMembers(e: Engine, w: string, x: string)
    ensures x in SwapCodes(e, w) <==> SwapEdit(e, w, x)
  {
    if SwapEdit(e, w, x) {
      var i :| 0 <= i && i + 1 < |w| && x == e.transform(Swapped(w, i));
      assert SwapCodes(e, w)[i] == x;
    }
  }

  /**
   * The near-miss codes are exactly the codes one edit away plus the code of
   * the trimmed word: the delete phase contributes that one code however
   * long the word is. No code is put twice.
   */
  lemma NearMissCodesMembers(e: Engine, word: string, x: string)
    ensures x in NearMissCodes(e, word) <==>
      OneEditCode(e, word, x) || (Trim(word + " ") != [] && x == e.transform(Trim(word + " ")))
    ensures NoRepeats(NearMissCodes(e, word))
  {
    var t := Trim(word + " ");
    var swaps, changes, inserts := SwapCodes(e, word), ChangeCodes(e, word, |word|), InsertCodes(e, word, |word| + 1);
    var deletes := Repeat(e.transform(t), |t|);
    assert PhaseCodes(e, word) == swaps + changes + inserts + deletes;
    assert x in PhaseCodes(e, word) <==> x in swaps || x in changes || x in inserts || x in deletes;
    RepeatMembers(e.transform(t), |t|, x);
    SwapCodesMembers(e, word, x);
    ChangeCodesMembers(e, word, |word|, x);
    InsertCodesMembers(e, word, |word| + 1, x);
  }

  /** A word with no blank at either end trims back to itself after the blank the add phase appends. */
  lemma TrimPadded(word: string)
    requires word != [] && word[0] > ' ' && word[|word| - 1] > ' '
    ensures Trim(word + " ") == word
  {
    assert TrimStart(word + " ") == word + " ";
    assert (word + " ")[..|word|] == word;
  }

  /**
   * For a word without surrounding blanks the delete phase adds only the
   * word's own code, which is removed again: the codes whose buckets are
   * scored as near misses are exactly the one-edit codes that differ from
   * the word's own.
   */
  lemma NearMissesAreOneEditAway(e: Engine, word: string, x: string)
    requires word != [] && word[0] > ' ' && word[|word| - 1] > ' '
    ensures x in Without(NearMissCodes(e, word), e.transform(word)) <==>
      OneEditCode(e, word, x) && x != e.transform(word)
  {
    TrimPadded(word);
    NearMissCodesMembers(e, word, x);
  }

  // ---------------------------------------------------------------------
  // Scoring

  /** The words of one bucket closer than the threshold, in bucket order, with their distances. */
  function Scored(e: Engine, word: string, similar: seq<string>): (r: seq<Candidate>)
    ensures forall c :: c in r ==> c.word in similar && c.cost == Distance(e.costs, word, c.word) && c.cost < e.threshold
  {
    if similar == [] then []
    else
      var d := Distance(e.costs, word, similar[0]);
      (if d < e.threshold then [Candidate(similar[0], d)] else []) + Scored(e, word, similar[1..])
  }

  lemma {:induction false} ScoredComplete(e: Engine, word: string, similar: seq<string>, w: string)
    requires w in similar && Distance(e.costs, word, w) < e.threshold
    ensures Candidate(w, Distance(e.costs, word, w)) in Scored(e, word, similar)
  {
    if similar[0] != w {
      ScoredComplete(e, word, similar[1..], w);
    }
  }

  /** getWordsFromCode: the scored words of every code's bucket, code by code. */
  function WordsFromCodes(e: Engine, word: string, codes: seq<string>): (r: seq<Candidate>)
    ensures forall c :: c in r ==> c.cost == Distance(e.costs, word, c.word) && c.cost < e.threshold
  {
    if codes == [] then [] else Scored(e, word, e.words(codes[0])) + WordsFromCodes(e, word, codes[1..])
  }

  /** Some code's bucket holds w. */
  ghost predicate Stored(e: Engine, codes: seq<string>, w: string)
  {
    exists i :: 0 <= i < |codes| && w in e.words(codes[i])
  }

  /**
   * A candidate is returned for a set of codes exactly when its word is in
   * one of their buckets and its distance, which is its cost, is below the
   * threshold.
   */
  lemma {:induction false} WordsFromCodesMembers(e: Engine, word: string, codes: seq<string>, c: Candidate)
    ensures c in WordsFromCodes(e, word, codes) <==>
      c.cost == Distance(e.costs, word, c.word) && c.cost < e.threshold && Stored(e, codes, c.word)
  {
    if codes != [] {
      WordsFromCodesMembers(e, word, codes[1..], c);
      if c in Scored(e, word, e.words(codes[0])) {
        assert c.word in e.words(codes[0]);
      }
      if c.cost == Distance(e.costs, word, c.word) && c.cost < e.threshold && Stored(e, codes, c.word) {
        var i :| 0 <= i < |codes| && c.word in e.words(codes[i]);
        if i == 0 {
          ScoredComplete(e, word, e.words(codes[0]), c.word);
        } else {
          assert c.word in e.words(codes[1..][i - 1]);
        }
      }
    }
  }

  // ---------------------------------------------------------------------
  // The best guess

  /** addBestGuess's bestScore after the given words: Integer.MAX_VALUE, lowered by every distance not above it. */
  function BestScore(e: Engine, word: string, similar: seq<string>): (b: int)
    ensures b <= MaxInt
    ensures forall w :: w in similar ==> b <= Distance(e.costs, word, w)
    ensures b == MaxInt || exists k :: 0 <= k < |similar| && Distance(e.costs, word, similar[k]) == b
  {
    if similar == [] then MaxInt
    else
      var best := BestScore(e, word, similar[..|similar| - 1]);
      var d := Distance(e.costs, word, similar[|similar| - 1]);
      assert similar == similar[..|similar| - 1] + [similar[|similar| - 1]];
      if d <= best then d else best
  }

  /** The words of a bucket at distance exactly m, in bucket order. */
  function AtCost(e: Engine, word: string, similar: seq<string>, m: int): (r: seq<Candidate>)
  {
    if similar == [] then []
    else
      var w := similar[|similar| - 1];
      AtCost(e, word, similar[..|similar| - 1], m)
        + (if Distance(e.costs, word, w) == m then [Candidate(w, m)] else [])
  }

  /** The candidates whose cost is m, in order. */
  function WithCost(candidates: seq<Candidate>, m: int): (r: seq<Candidate>)
  {
    if candidates == [] then []
    else
      WithCost(candidates[..|candidates| - 1], m)
        + (if candidates[|candidates| - 1].cost == m then [candidates[|candidates| - 1]] else [])
  }

  /** What addBestGuess appends: the words of the word's own bucket at the bucket's best score. */
  function BestGuess(e: Engine, word: string): seq<Candidate>
  {
    var similar := e.words(e.transform(word));
    AtCost(e, word, similar, BestScore(e, word, similar))
  }

  lemma {:induction false} AtCostMembers(e: Engine, word: string, similar: seq<string>, m: int, c: Candidate)
    ensures c in AtCost(e, word, similar, m) <==>
      c.word in similar && c.cost == m && Distance(e.costs, word, c.word) == m
  {
    if similar != [] {
      var p := similar[..|similar| - 1];
      AtCostMembers(e, word, p, m, c);
      assert similar == p + [similar[|similar| - 1]];
    }
  }

  /**
   * The best guess holds every word of the word's own bucket whose distance
   * is the least in that bucket, and nothing else; the threshold plays no
   * part. A bucket with a word within Integer.MAX_VALUE gives a guess.
   */
  lemma BestGuessMembers(e: Engine, word: string, c: Candidate)
    ensures c in BestGuess(e, word) <==>
      c.word in e.words(e.transform(word)) && c.cost == Distance(e.costs, word, c.word) && c.cost <= MaxInt
      && forall w :: w in e.words(e.transform(word)) ==> c.cost <= Distance(e.costs, word, w)
  {
    var similar := e.words(e.transform(word));
    var b := BestScore(e, word, similar);
    AtCostMembers(e, word, similar, b, c);
    if c.word in similar && c.cost == Distance(e.costs, word, c.word)
       && c.cost <= MaxInt && forall w :: w in similar ==> c.cost <= Distance(e.costs, word, w) {
      if b < MaxInt {
        var k :| 0 <= k < |similar| && Distance(e.costs, word, similar[k]) == b;
        assert c.cost <= b;
      } else {
        assert c.cost <= b;
      }
    }
  }

  lemma BestGuessNonEmpty(e: Engine, word: string, w: string)
    requires w in e.words(e.transform(word)) && Distance(e.costs, word, w) <= MaxInt
    ensures BestGuess(e, word) != []
  {
    var similar := e.words(e.transform(word));
    var b := BestScore(e, word, similar);
    assert b < MaxInt || b == MaxInt;
    var k :| 0 <= k < |similar| && Distance(e.costs, word, similar[k]) == b;
    AtCostMembers(e, word, similar, b, Candidate(similar[k], b));
  }

  /** The candidates at every cost up to best are the words of similar at that distance. */
  ghost predicate Tracks(e: Engine, word: string, similar: seq<string>, candidates: seq<Candidate>, best: int)
  {
    forall m :: m <= best ==> WithCost(candidates, m) == AtCost(e, word, similar, m)
  }

  /** A word at or below the best score so far becomes the new best and a candidate. */
  lemma BetterOrEqualScore(e: Engine, word: string, similar: seq<string>, i: nat,
                           candidates: seq<Candidate>, best: int)
    requires i < |similar| && best == BestScore(e, word, similar[..i])
    requires Tracks(e, word, similar[..i], candidates, best)
    requires Distance(e.costs, word, similar[i]) <= best
    ensures var d := Distance(e.costs, word, similar[i]);
      d == BestScore(e, word, similar[..i + 1])
      && Tracks(e, word, similar[..i + 1], candidates + [Candidate(similar[i], d)], d)
  {
    var d := Distance(e.costs, word, similar[i]);
    var c' := candidates + [Candidate(similar[i], d)];
    assert similar[..i + 1][..i] == similar[..i];
    assert c'[..|c'| - 1] == candidates;
    forall m | m <= d
      ensures WithCost(c', m) == AtCost(e, word, similar[..i + 1], m)
    {
      assert WithCost(c', m) == WithCost(candidates, m) + (if d == m then [Candidate(similar[i], d)] else []);
    }
  }

  /** A word above the best score so far changes neither the score nor the candidates. */
  lemma WorseScore(e: Engine, word: string, similar: seq<string>, i: nat,
                   candidates: seq<Candidate>, best: int)
    requires i < |similar| && best == BestScore(e, word, similar[..i])
    requires Tracks(e, word, similar[..i], candidates, best)
    requires Distance(e.costs, word, similar[i]) > best
    ensures best == BestScore(e, word, similar[..i + 1])
    ensures Tracks(e, word, similar[..i + 1], candidates, best)
  {
    assert similar[..i + 1][..i] == similar[..i];
  }

  /** addBestGuess: a running best score and candidate list, then the candidates at the final best score. */
  method AddBestGuess(e: Engine, word: string) returns (wordList: seq<Candidate>)
    ensures wordList == BestGuess(e, word)
  {
    var code := e.transform(word);
    var similarWordsList := e.words(code);
    var bestScore, candidates := ScoreBucket(e, word, similarWordsList);
    wordList := [];
    var k := 0;
    while k < |candidates|
      invariant 0 <= k <= |candidates|
      invariant wordList == WithCost(candidates[..k], bestScore)
    {
      assert candidates[..k + 1][..k] == candidates[..k];
      if candidates[k].cost == bestScore {
        wordList := wordList + [candidates[k]];
      }
      k := k + 1;
    }
    assert candidates[..k] == candidates;
  }

  /**
   * addBestGuess's first loop: every word at or below the running best
   * score becomes a candidate and the new best score. The candidates at any
   * cost up to the final score are then exactly the bucket's words at that
   * distance.
   */
  method ScoreBucket(e: Engine, word: string, similarWordsList: seq<string>)
    returns (bestScore: int, candidates: seq<Candidate>)
    ensures bestScore == BestScore(e, word, similarWordsList)
    ensures Tracks(e, word, similarWordsList, candidates, bestScore)
  {
    bestScore := MaxInt;
    candidates := [];
    var i := 0;
    while i < |similarWordsList|
      invariant 0 <= i <= |similarWordsList|
      invariant bestScore == BestScore(e, word, similarWordsList[..i])
      invariant Tracks(e, word, similarWordsList[..i], candidates, bestScore)
    {
      var similarWord := similarWordsList[i];
      var distance := GetDistanceFresh(e.costs, word, similarWord);
      if distance <= bestScore {
        BetterOrEqualScore(e, word, similarWordsList, i, candidates, bestScore);
        bestScore := distance;
        candidates := candidates + [Candidate(similarWord, distance)];
      } else {
        WorseScore(e, word, similarWordsList, i, candidates, bestScore);
      }
      i := i + 1;
    }
    assert similarWordsList[..i] == similarWordsList;
  }

  // ---------------------------------------------------------------------
  // getSuggestions

  /** The candidates sharing the word's own code. */
  function PhoneticMatches(e: Engine, word: string): seq<Candidate>
  {
    WordsFromCodes(e, word, [e.transform(word)])
  }

  /** The candidates of every near-miss code other than the word's own, scored against the trimmed word. */
  function NearMisses(e: Engine, word: string): seq<Candidate>
  {
    WordsFromCodes(e, Trim(word + " "), Without(NearMissCodes(e, word), e.transform(word)))
  }

  /** Neither list found anything, so the best guess takes the phonetic list's place. */
  predicate FallsBack(e: Engine, word: string)
  {
    PhoneticMatches(e, word) == [] && NearMisses(e, word) == []
  }

  /**
   * The result of getSuggestions: the phonetic list (or the best guess when
   * both lists are empty) sorted by cost, followed by the near-miss list
   * sorted by cost. A word that trims to nothing throws.
   */
  function Suggest(e: Engine, word: string): Attempt<seq<Candidate>>
  {
    var t := Trim(word + " ");
    if t == [] then Thrown(NegativeArraySize)
    else
      var first := if FallsBack(e, word) then BestGuess(e, t) else PhoneticMatches(e, word);
      Done(Sorting.Sort(first, Compare) + Sorting.Sort(NearMisses(e, word), Compare))
  }

  /**
   * getSuggestions(word, threshold, matrix). The threshold argument is not
   * used, and the scratch matrix only saves allocations, so neither appears.
   */
  method GetSuggestions(e: Engine, word: string, threshold: int) returns (r: Attempt<seq<Candidate>>)
    ensures r == Suggest(e, word)
  {
    var code := e.transform(word);
    var phoneticList := WordsFromCodes(e, word, [code]);
    var afterDelete := CollectNearMissCodes(e, word);
    if afterDelete.Thrown? {
      return Thrown(afterDelete.exception);
    }
    var nearMissCodes := Without(afterDelete.value, code);
    var trimmed := Trim(word + " ");
    var wordlist := WordsFromCodes(e, trimmed, nearMissCodes);
    if |wordlist| == 0 && |phoneticList| == 0 {
      phoneticList := AddBestGuess(e, trimmed);
    }
    r := Done(Sorting.Sort(phoneticList, Compare) + Sorting.Sort(wordlist, Compare));
  }

  /** The four phases in turn, from an empty map. */
  method CollectNearMissCodes(e: Engine, word: string) returns (r: Attempt<seq<string>>)
    ensures Trim(word + " ") == [] ==> r == Thrown(NegativeArraySize)
    ensures Trim(word + " ") != [] ==> r == Done(NearMissCodes(e, word))
  {
    var nearMissCodes := SwapPhase(e, word, []);
    nearMissCodes := ChangePhase(e, word, nearMissCodes);
    nearMissCodes := AddPhase(e, word, nearMissCodes);
    r := DeletePhase(e, word + " ", nearMissCodes);
    ghost var t := Trim(word + " ");
    ghost var swaps, changes := SwapCodes(e, word), ChangeCodes(e, word, |word|);
    ghost var inserts, deletes := InsertCodes(e, word, |word| + 1), Repeat(e.transform(t), |t|);
    PutAllAppend([], swaps, changes);
    PutAllAppend([], swaps + changes, inserts);
    PutAllAppend([], swaps + changes + inserts, deletes);
  }

  /** getSuggestions throws exactly when every character of the word is blank (at or below U+0020). */
  lemma SuggestThrowsOnBlankWord(e: Engine, word: string)
    ensures Suggest(e, word).Thrown? <==> forall k :: 0 <= k < |word| ==> word[k] <= ' '
    ensures Suggest(e, word).Thrown? ==> Suggest(e, word).exception == NegativeArraySize
  {
    TrimEmpty(word + " ");
    if forall k :: 0 <= k < |word| ==> word[k] <= ' ' {
      assert forall k :: 0 <= k < |word + " "| ==> (word + " ")[k] <= ' ';
    } else {
      var k :| 0 <= k < |word| && word[k] > ' ';
      assert (word + " ")[k] > ' ';
    }
  }

  /**
   * Unless the best guess is used, every suggestion is closer than the
   * configured threshold, whatever threshold the caller passed: a phonetic
   * match to the word and a near miss to the trimmed word.
   */
  lemma SuggestionsWithinThreshold(e: Engine, word: string, c: Candidate)
    requires Suggest(e, word).Done? && !FallsBack(e, word)
    requires c in Suggest(e, word).value
    ensures c.cost < e.threshold
    ensures c in PhoneticMatches(e, word) || c in NearMisses(e, word)
  {
    var first, near := PhoneticMatches(e, word), NearMisses(e, word);
    var a, b := Sorting.Sort(first, Compare), Sorting.Sort(near, Compare);
    assert c in a || c in b;
    if c in a {
      assert c in multiset(a);
    } else {
      assert c in multiset(b);
    }
  }

  /**
   * The shape of the result: a cost-ordered permutation of the phonetic
   * list (or the best guess), then a cost-ordered permutation of the near
   * misses, each keeping equal-cost suggestions in the order they were found.
   */
  lemma SuggestionsOrdered(e: Engine, word: string, cost: int)
    requires Suggest(e, word).Done?
    ensures var first := if FallsBack(e, word) then BestGuess(e, Trim(word + " ")) else PhoneticMatches(e, word);
      var a := Suggest(e, word).value[..|first|];
      var b := Suggest(e, word).value[|first|..];
      && Sorting.Sorted(a, Compare) && multiset(a) == multiset(first)
      && Sorting.Sorted(b, Compare) && multiset(b) == multiset(NearMisses(e, word))
      && Sorting.WithKey(a, (c: Candidate) => c.cost, cost) == Sorting.WithKey(first, (c: Candidate) => c.cost, cost)
      && Sorting.WithKey(b, (c: Candidate) => c.cost, cost)
         == Sorting.WithKey(NearMisses(e, word), (c: Candidate) => c.cost, cost)
  {
    var first := if FallsBack(e, word) then BestGuess(e, Trim(word + " ")) else PhoneticMatches(e, word);
    var near := NearMisses(e, word);
    var a, b := Sorting.Sort(first, Compare), Sorting.Sort(near, Compare);
    assert Suggest(e, word).value == a + b;
    assert (a + b)[..|first|] == a && (a + b)[|first|..] == b;
    CompareIsComparator();
    Sorting.SortSorted(first, Compare);
    Sorting.SortSorted(near, Compare);
    Sorting.SortStable(first, Compare, (c: Candidate) => c.cost, cost);
    Sorting.SortStable(near, Compare, (c: Candidate) => c.cost, cost);
  }

  /** The phonetic list holds the words of the word's own bucket closer than the threshold. */
  lemma PhoneticMatchesMembers(e: Engine, word: string, c: Candidate)
    ensures c in PhoneticMatches(e, word) <==>
      c.word in e.words(e.transform(word)) && c.cost == Distance(e.costs, word, c.word) && c.cost < e.threshold
  {
    WordsFromCodesMembers(e, word, [e.transform(word)], c);
    if c.word in e.words(e.transform(word)) {
      assert c.word in e.words([e.transform(word)][0]);
    }
  }

  // ---------------------------------------------------------------------
  // isCorrect

  /** isCorrect: the bucket of the word's code holds the word as written or in lower case. */
  predicate IsCorrect(e: Engine, word: string)
  {
    var possibles := e.words(e.transform(word));
    word in possibles || ToLower(word) in possibles
  }

  /**
   * When the transformation ignores case and the dictionary stores a word
   * in lower case, the word is accepted in any capitalisation.
   */
  lemma CorrectInAnyCase(e: Engine, stored: string, word: string)
    requires forall w :: e.transform(ToLower(w)) == e.transform(w)
    requires ToLower(stored) == stored && stored in e.words(e.transform(stored))
    requires ToLower(word) == stored
    ensures IsCorrect(e, word)
  {
    assert e.transform(ToLower(word)) == e.transform(word);
  }

  /** A word written in lower case is correct only when stored exactly so: "sunday" is not accepted for "Sunday". */
  lemma LowerCaseNeedsExactEntry(e: Engine, word: string)
    requires ToLower(word) == word && IsCorrect(e, word)
    ensures word in e.words(e.transform(word))
  {
  }
}
