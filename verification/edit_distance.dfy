/**
 * The weighted Damerau-style edit distance used to score candidate
 * spellings. Five weights take part: removing a character, inserting a
 * character, substituting one, swapping two adjacent ones and changing the
 * case of one. Cell (i, j) of the table is the cost of turning the first i
 * characters of the word into the first j characters of the similar word.
 */
module EditDistance {
  import opened JavaText

  /** The five weights, named after the configuration keys they come from. */
  datatype Costs = Costs(
    removeChar: int,   // COST_REMOVE_CHAR (EDIT_DEL1), charged along the first row
    insertChar: int,   // COST_INSERT_CHAR (EDIT_DEL2), charged down the first column
    substChars: int,   // COST_SUBST_CHARS
    swapChars: int,    // COST_SWAP_CHARS
    changeCase: int)   // COST_CHANGE_CASE

  predicate NonNegative(k: Costs)
  {
    k.removeChar >= 0 && k.insertChar >= 0 && k.substChars >= 0 && k.swapChars >= 0 && k.changeCase >= 0
  }

  /** Integer.MAX_VALUE: the cost of an option that does not apply. */
  const MaxInt: int := 0x7FFF_FFFF

  /** The least of five values, taking the first on ties. */
  function Minimum(a: int, b: int, c: int, d: int, e: int): (m: int)
    ensures m == a || m == b || m == c || m == d || m == e
    ensures m <= a && m <= b && m <= c && m <= d && m <= e
  {
    var m1 := if b < a then b else a;
    var m2 := if c < m1 then c else m1;
    var m3 := if d < m2 then d else m2;
    if e < m3 then e else m3
  }

  /** Two characters are equal, or are the same letter in different case. */
  predicate EqualIgnoreCase(c1: char, c2: char)
  {
    c1 == c2 || ToLowerChar(c1) == ToLowerChar(c2)
  }

  lemma EqualIgnoreCaseMeaning(c1: char, c2: char)
    ensures EqualIgnoreCase(c1, c2) <==>
      (c1 == c2
       || (IsUpper(c1) && c2 as int == c1 as int + 32)
       || (IsLower(c1) && c1 as int == c2 as int + 32))
  {
  }

  /** The swap option applies at (i, j): the last two characters are transposed. */
  predicate IsSwap(word: string, similar: string, i: nat, j: nat)
    requires 1 <= i <= |word| && 1 <= j <= |similar|
  {
    i != 1 && j != 1 && word[i - 1] == similar[j - 2] && word[i - 2] == similar[j - 1]
  }

  /**
   * One cell from its neighbours: equal characters carry the diagonal;
   * otherwise the cheapest of substitution, swap (when it applies),
   * removal, insertion and case change (when it applies).
   */
  function Step(k: Costs, sourceChar: char, otherChar: char, isSwap: bool,
                diagonal: int, swapDiagonal: int, left: int, up: int): int
  {
    if sourceChar == otherChar then diagonal
    else
      Minimum(
        k.substChars + diagonal,
        if isSwap then k.swapChars + swapDiagonal else MaxInt,
        k.removeChar + left,
        k.insertChar + up,
        if EqualIgnoreCase(sourceChar, otherChar) then k.changeCase + diagonal else MaxInt)
  }

  /** The recurrence the table is filled with. */
  function Cell(k: Costs, word: string, similar: string, i: nat, j: nat): int
    requires i <= |word| && j <= |similar|
    decreases i + j
  {
    if i == 0 && j == 0 then 0
    else if j == 0 then Cell(k, word, similar, i - 1, 0) + k.insertChar
    else if i == 0 then Cell(k, word, similar, 0, j - 1) + k.removeChar
    else
      var isSwap := IsSwap(word, similar, i, j);
      Step(k, word[i - 1], similar[j - 1], isSwap,
        Cell(k, word, similar, i - 1, j - 1),
        if isSwap then Cell(k, word, similar, i - 2, j - 2) else 0,
        Cell(k, word, similar, i, j - 1),
        Cell(k, word, similar, i - 1, j))
  }

  /** Unfolds an inner cell into one step over its neighbours. */
  lemma CellStep(k: Costs, word: string, similar: string, i: nat, j: nat)
    requires 1 <= i <= |word| && 1 <= j <= |similar|
    ensures Cell(k, word, similar, i, j)
         == Step(k, word[i - 1], similar[j - 1], IsSwap(word, similar, i, j),
              Cell(k, word, similar, i - 1, j - 1),
              if IsSwap(word, similar, i, j) then Cell(k, word, similar, i - 2, j - 2) else 0,
              Cell(k, word, similar, i, j - 1),
              Cell(k, word, similar, i - 1, j))
  {
  }

  /** The distance: the bottom-right cell of the table. */
  function Distance(k: Costs, word: string, similar: string): int
  {
    Cell(k, word, similar, |word|, |similar|)
  }

  /**
   * getDistance with a scratch matrix: the matrix is used when it is at
   * least (|word|+1) by (|similar|+1) and a fresh one is allocated otherwise.
   * The result is the recurrence's value whatever matrix is supplied, and a
   * matrix that was large enough holds the table afterwards.
   */
  method GetDistance(k: Costs, word: string, similar: string, matrix: array2?<int>) returns (d: int)
    modifies matrix
    ensures d == Distance(k, word, similar)
    ensures matrix != null && matrix.Length0 >= |word| + 1 && matrix.Length1 >= |similar| + 1 ==>
      forall r, c :: 0 <= r <= |word| && 0 <= c <= |similar| ==> matrix[r, c] == Cell(k, word, similar, r, c)
  {
    var aSize := |word| + 1;
    var bSize := |similar| + 1;
    var m: array2<int>;
    if matrix == null || matrix.Length0 < aSize || matrix.Length1 < bSize {
      m := new int[aSize, bSize];
    } else {
      m := matrix;
    }
    InitBorders(k, word, similar, m);
    var i := 1;
    while i != aSize
      invariant 1 <= i <= aSize
      invariant forall r, c {:trigger m[r, c]} :: 0 <= r < i && 0 <= c < bSize ==> m[r, c] == Cell(k, word, similar, r, c)
      invariant forall r :: 0 <= r < aSize ==> m[r, 0] == Cell(k, word, similar, r, 0)
    {
      FillRow(k, word, similar, m, i);
      i := i + 1;
    }
    d := m[aSize - 1, bSize - 1];
  }

  /** The first column and the first row of the table. */
  method InitBorders(k: Costs, word: string, similar: string, m: array2<int>)
    modifies m
    requires |word| < m.Length0 && |similar| < m.Length1
    ensures forall r :: 0 <= r <= |word| ==> m[r, 0] == Cell(k, word, similar, r, 0)
    ensures forall c :: 0 <= c <= |similar| ==> m[0, c] == Cell(k, word, similar, 0, c)
  {
    InitFirstColumn(k, word, similar, m);
    InitFirstRow(k, word, similar, m);
  }

  /** The first column: deleting every character of a prefix of the word. */
  method InitFirstColumn(k: Costs, word: string, similar: string, m: array2<int>)
    modifies m
    requires |word| < m.Length0 && |similar| < m.Length1
    ensures forall r :: 0 <= r <= |word| ==> m[r, 0] == Cell(k, word, similar, r, 0)
  {
    var aSize := |word| + 1;
    m[0, 0] := 0;
    var i := 1;
    while i != aSize
      invariant 1 <= i <= aSize
      invariant forall r :: 0 <= r < i ==> m[r, 0] == Cell(k, word, similar, r, 0)
    {
      assert Cell(k, word, similar, i, 0) == Cell(k, word, similar, i - 1, 0) + k.insertChar;
      m[i, 0] := m[i - 1, 0] + k.insertChar;
      i := i + 1;
    }
  }

  /** The first row: inserting every character of a prefix of the suggestion. */
  method InitFirstRow(k: Costs, word: string, similar: string, m: array2<int>)
    modifies m
    requires |word| < m.Length0 && |similar| < m.Length1
    requires m[0, 0] == 0
    ensures forall c :: 0 <= c <= |similar| ==> m[0, c] == Cell(k, word, similar, 0, c)
    ensures forall r :: 1 <= r < m.Length0 ==> m[r, 0] == old(m[r, 0])
  {
    var bSize := |similar| + 1;
    var j := 1;
    while j != bSize
      invariant 1 <= j <= bSize
      invariant m[0, 0] == 0
      invariant forall c :: 0 <= c < j ==> m[0, c] == Cell(k, word, similar, 0, c)
      invariant forall r :: 1 <= r < m.Length0 ==> m[r, 0] == old(m[r, 0])
    {
      assert Cell(k, word, similar, 0, j) == Cell(k, word, similar, 0, j - 1) + k.removeChar;
      m[0, j] := m[0, j - 1] + k.removeChar;
      j := j + 1;
    }
  }

  /** The inner loop of getDistance: fills row i from the rows above it. */
  method FillRow(k: Costs, word: string, similar: string, m: array2<int>, i: nat)
    modifies m
    requires 1 <= i <= |word| && |word| < m.Length0 && |similar| < m.Length1
    requires forall r, c {:trigger m[r, c]} :: 0 <= r < i && 0 <= c <= |similar| ==> m[r, c] == Cell(k, word, similar, r, c)
    requires m[i, 0] == Cell(k, word, similar, i, 0)
    ensures forall r, c {:trigger m[r, c]} :: 0 <= r <= i && 0 <= c <= |similar| ==> m[r, c] == Cell(k, word, similar, r, c)
    ensures forall r, c {:trigger m[r, c]} :: 0 <= r < m.Length0 && 0 <= c < m.Length1 && (r != i || c == 0) ==> m[r, c] == old(m[r, c])
  {
    var bSize := |similar| + 1;
    var j := 1;
    while j != bSize
      invariant 1 <= j <= bSize
      invariant forall c {:trigger m[i, c]} :: 0 <= c < j ==> m[i, c] == Cell(k, word, similar, i, c)
      invariant forall r, c {:trigger m[r, c]} :: 0 <= r < m.Length0 && 0 <= c < m.Length1 && (r != i || c == 0 || c >= j) ==> m[r, c] == old(m[r, c])
    {
      assert m[i - 1, j - 1] == Cell(k, word, similar, i - 1, j - 1);
      assert m[i, j - 1] == Cell(k, word, similar, i, j - 1);
      assert m[i - 1, j] == Cell(k, word, similar, i - 1, j);
      assert i >= 2 && j >= 2 ==> m[i - 2, j - 2] == Cell(k, word, similar, i - 2, j - 2);
      var value := CellValue(k, word, similar, m, i, j);
      CellStep(k, word, similar, i, j);
      assert value == Cell(k, word, similar, i, j);
      m[i, j] := value;
      j := j + 1;
    }
  }

  /**
   * The body of the inner loop of getDistance: the value of cell (i, j)
   * from the cells already filled in.
   */
  method CellValue(k: Costs, word: string, similar: string, m: array2<int>, i: nat, j: nat) returns (value: int)
    requires 1 <= i < m.Length0 && 1 <= j < m.Length1
    requires i <= |word| && j <= |similar|
    ensures value == Step(k, word[i - 1], similar[j - 1], IsSwap(word, similar, i, j),
                          m[i - 1, j - 1], if IsSwap(word, similar, i, j) then m[i - 2, j - 2] else 0,
                          m[i, j - 1], m[i - 1, j])
  {
    var sourceChar := word[i - 1];
    var otherChar := similar[j - 1];
    if sourceChar == otherChar {
      return m[i - 1, j - 1];
    }
    var costOfSubstitution := k.substChars + m[i - 1, j - 1];
    var costOfSwap := MaxInt;
    var isSwap := i != 1 && j != 1 && sourceChar == similar[j - 2] && word[i - 2] == otherChar;
    if isSwap {
      costOfSwap := k.swapChars + m[i - 2, j - 2];
    }
    var costOfDeletion := k.removeChar + m[i, j - 1];
    var costOfInsertion := k.insertChar + m[i - 1, j];
    var costOfCaseChange := MaxInt;
    if EqualIgnoreCase(sourceChar, otherChar) {
      costOfCaseChange := k.changeCase + m[i - 1, j - 1];
    }
    value := Minimum(costOfSubstitution, costOfSwap, costOfDeletion, costOfInsertion, costOfCaseChange);
  }

  /** getDistance without a matrix: always works on a freshly allocated one. */
  method GetDistanceFresh(k: Costs, word: string, similar: string) returns (d: int)
    ensures d == Distance(k, word, similar)
  {
    d := GetDistance(k, word, similar, null);
  }

  // ---------------------------------------------------------------------
  // Properties of the recurrence

  lemma {:induction false} DiagonalZero(k: Costs, w: string, i: nat)
    requires i <= |w|
    ensures Cell(k, w, w, i, i) == 0
  {
    if i > 0 {
      DiagonalZero(k, w, i - 1);
    }
  }

  /** Every word is at distance zero from itself. */
  lemma DistanceToSelf(k: Costs, w: string)
    ensures Distance(k, w, w) == 0
  {
    DiagonalZero(k, w, |w|);
  }

  lemma {:induction false} FirstColumn(k: Costs, word: string, similar: string, i: nat)
    requires i <= |word|
    ensures Cell(k, word, similar, i, 0) == i * k.insertChar
  {
    if i > 0 {
      FirstColumn(k, word, similar, i - 1);
    }
  }

  lemma {:induction false} FirstRow(k: Costs, word: string, similar: string, j: nat)
    requires j <= |similar|
    ensures Cell(k, word, similar, 0, j) == j * k.removeChar
  {
    if j > 0 {
      FirstRow(k, word, similar, j - 1);
    }
  }

  /** Against the empty word the distance is one insert charge per character of the word. */
  lemma DistanceToEmpty(k: Costs, a: string)
    ensures Distance(k, a, "") == |a| * k.insertChar
  {
    FirstColumn(k, a, "", |a|);
  }

  /** From the empty word the distance is one remove charge per character of the other word. */
  lemma DistanceFromEmpty(k: Costs, b: string)
    ensures Distance(k, "", b) == |b| * k.removeChar
  {
    FirstRow(k, "", b, |b|);
  }

  /** The first n characters of s and s2 agree. */
  predicate SamePrefix(s: string, s2: string, n: nat)
  {
    n <= |s| && n <= |s2| && forall t :: 0 <= t < n ==> s[t] == s2[t]
  }

  /** A cell depends only on the prefixes it covers. */
  lemma {:induction false} CellOfPrefixes(k: Costs, a: string, b: string, a2: string, b2: string, i: nat, j: nat)
    requires SamePrefix(a, a2, i) && SamePrefix(b, b2, j)
    ensures Cell(k, a, b, i, j) == Cell(k, a2, b2, i, j)
    decreases i + j
  {
    if i == 0 && j == 0 {
    } else if j == 0 {
      CellOfPrefixes(k, a, b, a2, b2, i - 1, 0);
    } else if i == 0 {
      CellOfPrefixes(k, a, b, a2, b2, 0, j - 1);
    } else {
      CellOfPrefixes(k, a, b, a2, b2, i - 1, j - 1);
      CellOfPrefixes(k, a, b, a2, b2, i, j - 1);
      CellOfPrefixes(k, a, b, a2, b2, i - 1, j);
      if IsSwap(a, b, i, j) {
        CellOfPrefixes(k, a, b, a2, b2, i - 2, j - 2);
      }
      CellStep(k, a, b, i, j);
      CellStep(k, a2, b2, i, j);
    }
  }

  /** Appending the same character to both words leaves the distance unchanged. */
  lemma AppendSameChar(k: Costs, a: string, b: string, c: char)
    ensures Distance(k, a + [c], b + [c]) == Distance(k, a, b)
  {
    var a2, b2 := a + [c], b + [c];
    assert a2[|a2| - 1] == b2[|b2| - 1];
    assert a2[..|a|] == a[..|a|] && b2[..|b|] == b[..|b|];
    CellOfPrefixes(k, a2, b2, a, b, |a|, |b|);
  }

  /** Two distinct transposed characters cost at most one swap. */
  lemma TranspositionCost(k: Costs, x: char, y: char)
    requires x != y
    ensures Distance(k, [x, y], [y, x]) <= k.swapChars
  {
    assert IsSwap([x, y], [y, x], 2, 2);
  }

  /** Two distinct characters that differ only in case cost at most one case change. */
  lemma CaseChangeCost(k: Costs, x: char, y: char)
    requires x != y && EqualIgnoreCase(x, y)
    ensures Distance(k, [x], [y]) <= k.changeCase
  {
    CellStep(k, [x], [y], 1, 1);
  }

  /** The weights of the transposed problem: removing and inserting trade places. */
  function Transposed(k: Costs): Costs
  {
    k.(removeChar := k.insertChar, insertChar := k.removeChar)
  }

  /** A step of the transposed problem: the removal and insertion options trade places. */
  lemma StepTransposed(k: Costs, x: char, y: char, isSwap: bool, diagonal: int, swapDiagonal: int, left: int, up: int)
    ensures Step(k, x, y, isSwap, diagonal, swapDiagonal, left, up)
         == Step(Transposed(k), y, x, isSwap, diagonal, swapDiagonal, up, left)
  {
    assert EqualIgnoreCase(x, y) == EqualIgnoreCase(y, x);
  }

  lemma {:induction false} CellTransposed(k: Costs, a: string, b: string, i: nat, j: nat)
    requires i <= |a| && j <= |b|
    ensures Cell(k, a, b, i, j) == Cell(Transposed(k), b, a, j, i)
    decreases i + j
  {
    var t := Transposed(k);
    if i == 0 && j == 0 {
    } else if j == 0 {
      CellTransposed(k, a, b, i - 1, 0);
    } else if i == 0 {
      CellTransposed(k, a, b, 0, j - 1);
    } else {
      CellTransposed(k, a, b, i - 1, j - 1);
      CellTransposed(k, a, b, i, j - 1);
      CellTransposed(k, a, b, i - 1, j);
      var isSwap := IsSwap(a, b, i, j);
      assert isSwap == IsSwap(b, a, j, i);
      if isSwap {
        CellTransposed(k, a, b, i - 2, j - 2);
      }
      CellStep(k, a, b, i, j);
      CellStep(t, b, a, j, i);
      StepTransposed(k, a[i - 1], b[j - 1], isSwap,
        Cell(k, a, b, i - 1, j - 1),
        if isSwap then Cell(k, a, b, i - 2, j - 2) else 0,
        Cell(k, a, b, i, j - 1),
        Cell(k, a, b, i - 1, j));
    }
  }

  /**
   * Exchanging the two words gives the same distance once the remove and
   * insert weights are exchanged too; with equal weights the distance is
   * symmetric.
   */
  lemma DistanceTransposed(k: Costs, a: string, b: string)
    ensures Distance(k, a, b) == Distance(Transposed(k), b, a)
    ensures k.removeChar == k.insertChar ==> Distance(k, a, b) == Distance(k, b, a)
  {
    CellTransposed(k, a, b, |a|, |b|);
    assert k.removeChar == k.insertChar ==> Transposed(k) == k;
  }

  lemma {:induction false} CellNonNegative(k: Costs, a: string, b: string, i: nat, j: nat)
    requires NonNegative(k)
    requires i <= |a| && j <= |b|
    ensures 0 <= Cell(k, a, b, i, j)
    decreases i + j
  {
    if i == 0 && j == 0 {
    } else if j == 0 {
      CellNonNegative(k, a, b, i - 1, 0);
    } else if i == 0 {
      CellNonNegative(k, a, b, 0, j - 1);
    } else {
      CellNonNegative(k, a, b, i - 1, j - 1);
      CellNonNegative(k, a, b, i, j - 1);
      CellNonNegative(k, a, b, i - 1, j);
      if IsSwap(a, b, i, j) {
        CellNonNegative(k, a, b, i - 2, j - 2);
      }
      CellStep(k, a, b, i, j);
    }
  }

  /** The cost of removing and inserting everything, as a bound for cell (i, j). */
  function Budget(k: Costs, i: nat, j: nat): int
  {
    i * k.insertChar + j * k.removeChar
  }

  lemma BudgetGrows(k: Costs, i: nat, j: nat)
    requires NonNegative(k) && i >= 1 && j >= 1
    ensures Budget(k, i - 1, j - 1) <= Budget(k, i, j)
    ensures Budget(k, i - 1, j) + k.insertChar == Budget(k, i, j)
    ensures Budget(k, i, j - 1) + k.removeChar == Budget(k, i, j)
  {
    assert i * k.insertChar == (i - 1) * k.insertChar + k.insertChar;
    assert j * k.removeChar == (j - 1) * k.removeChar + k.removeChar;
  }

  lemma {:induction false} CellAtMostBudget(k: Costs, a: string, b: string, i: nat, j: nat)
    requires NonNegative(k)
    requires i <= |a| && j <= |b|
    ensures Cell(k, a, b, i, j) <= Budget(k, i, j)
    decreases i + j
  {
    if i == 0 && j == 0 {
    } else if j == 0 {
      CellAtMostBudget(k, a, b, i - 1, 0);
      assert i * k.insertChar == (i - 1) * k.insertChar + k.insertChar;
    } else if i == 0 {
      CellAtMostBudget(k, a, b, 0, j - 1);
      assert j * k.removeChar == (j - 1) * k.removeChar + k.removeChar;
    } else {
      CellAtMostBudget(k, a, b, i - 1, j - 1);
      CellAtMostBudget(k, a, b, i - 1, j);
      BudgetGrows(k, i, j);
      CellStep(k, a, b, i, j);
    }
  }

  /**
   * With non-negative weights the distance is non-negative and never
   * exceeds the cost of removing every character of one word and inserting
   * every character of the other.
   */
  lemma DistanceBounds(k: Costs, a: string, b: string)
    requires NonNegative(k)
    ensures 0 <= Distance(k, a, b) <= |a| * k.insertChar + |b| * k.removeChar
  {
    CellNonNegative(k, a, b, |a|, |b|);
    CellAtMostBudget(k, a, b, |a|, |b|);
  }
}
