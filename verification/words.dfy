/**
 * Word: one suggested spelling, its text and the distance cost that ranks
 * it. The engine passes suggestions around as `Candidate` values, the state
 * a Word holds; the `Word` class keeps the one field Java lets callers
 * change, the text.
 */
module Words {
  import Sorting

  /** The state of a Word: the suggested text and its cost. */
  datatype Candidate = Candidate(word: string, cost: int)

  /**
   * Word.compare: -1, 0 or 1 as the first cost is below, equal to or above
   * the second. The text plays no part.
   */
  function Compare(a: Candidate, b: Candidate): (r: int)
    ensures r == -1 || r == 0 || r == 1
    ensures r < 0 <==> a.cost < b.cost
    ensures r > 0 <==> b.cost < a.cost
  {
    if a.cost < b.cost then -1
    else if a.cost == b.cost then 0
    else 1
  }

  /** The order compare defines is a total preorder on costs. */
  lemma CompareIsTotalPreorder(a: Candidate, b: Candidate, c: Candidate)
    ensures Compare(a, b) == -Compare(b, a)
    ensures Compare(a, b) <= 0 && Compare(b, c) <= 0 ==> Compare(a, c) <= 0
    ensures Compare(a, a) == 0
  {
  }

  /** Compare meets the contract the stable sort relies on. */
  lemma CompareIsComparator()
    ensures Sorting.Comparator(Compare)
  {
    forall x: Candidate, y: Candidate | Compare(x, y) > 0
      ensures Compare(y, x) <= 0
    {
      CompareIsTotalPreorder(x, y, x);
    }
  }

  /**
   * Compare only separates candidates whose costs differ, which is what
   * makes sorting by it keep equal-cost suggestions in their original order.
   */
  lemma CompareSeparatesOnlyCosts(a: Candidate, b: Candidate)
    requires Compare(a, b) > 0
    ensures a.cost != b.cost
  {
  }

  // ---------------------------------------------------------------------
  // 32-bit hash arithmetic

  const TwoTo32: int := 0x1_0000_0000
  const IntMin: int := -0x8000_0000
  const IntMax: int := 0x7FFF_FFFF

  predicate IsInt(x: int) { IntMin <= x <= IntMax }

  /** Java int arithmetic: the value congruent to x modulo 2^32 in the int range. */
  function Wrap(x: int): (r: int)
    ensures IsInt(r)
    ensures (r - x) % TwoTo32 == 0
  {
    var m := x % TwoTo32;
    if m > IntMax then m - TwoTo32 else m
  }

  /** String.hashCode: h = 31 * h + c over the characters, in int arithmetic. */
  function StringHash(s: string): (h: int)
    ensures IsInt(h)
  {
    if s == [] then 0 else Wrap(31 * StringHash(s[..|s| - 1]) + s[|s| - 1] as int)
  }

  /** Word.hashCode: 47 * 7 + the hash of the text. */
  function WordHash(text: string): (h: int)
    ensures IsInt(h)
  {
    Wrap(47 * 7 + StringHash(text))
  }

  /** A Word: mutable text, final cost. */
  class Word {
    var word: string
    const score: int

    /** Word(String, int). */
    constructor (word: string, score: int)
      ensures this.word == word && this.score == score
    {
      this.word := word;
      this.score := score;
    }

    /** Word(): the empty text at cost 0. */
    constructor Empty()
      ensures word == "" && score == 0
    {
      word := "";
      score := 0;
    }

    function GetWord(): (w: string)
      reads this
      ensures w == word
    {
      word
    }

    function GetCost(): (c: int)
      ensures c == score
    {
      score
    }

    /** The candidate this Word currently stands for. */
    function Value(): (c: Candidate)
      reads this
      ensures c.word == word && c.cost == score
    {
      Candidate(word, score)
    }

    /** setWord replaces the text; the cost is final. */
    method SetWord(w: string)
      modifies this
      ensures word == w
      ensures Value() == Candidate(w, old(Value()).cost)
    {
      word := w;
    }

    /** equals: another Word with the same text, whatever its cost; false for anything else (null here). */
    predicate EqualsWord(o: Word?)
      reads this, o
    {
      o != null && o.word == word
    }

    function HashCode(): (h: int)
      reads this
      ensures IsInt(h)
    {
      WordHash(word)
    }
  }

  /** Equal Words have equal hash codes, as the hashing contract demands. */
  lemma EqualsAgreesWithHashCode(a: Word, b: Word)
    requires a.EqualsWord(b)
    ensures a.HashCode() == b.HashCode()
    ensures b.EqualsWord(a)
  {
  }

  /** Equality ignores cost: two Words with the same text are equal whatever they cost. */
  lemma EqualsIgnoresCost(a: Word, b: Word)
    requires a.word == b.word && a.score != b.score
    ensures a.EqualsWord(b) && a.Value() != b.Value()
  {
  }
}
