/**
 * DichotomyDiskSpellingDictionary: a dictionary that answers getWords by
 * searching a file of `code*word` lines, sorted by code, without loading
 * it. The file is modelled as its text (one character per byte) and the
 * file pointer as an offset into it; only the plain readLine path is
 * modelled.
 */
module Dichotomy {
  import opened JavaText

  // ---------------------------------------------------------------------
  // RandomAccessFile.readLine

  /** The characters readLine stops at. */
  predicate IsEol(c: char)
  {
    c == '\n' || c == '\r'
  }

  /** The offset of the first end-of-line character at or after p, or the length of the file. */
  function LineEnd(data: string, p: nat): (e: nat)
    requires p <= |data|
    ensures p <= e <= |data|
    ensures forall k :: p <= k < e ==> !IsEol(data[k])
    ensures e < |data| ==> IsEol(data[e])
    decreases |data| - p
  {
    if p == |data| || IsEol(data[p]) then p else LineEnd(data, p + 1)
  }

  /** What readLine returns (none at the end of the file), and where it leaves the file pointer. */
  datatype LineRead = LineRead(line: Option<string>, next: nat)

  /**
   * readLine from offset p: none when p is at or past the end of the file;
   * otherwise the characters up to the next '\n', '\r' or "\r\n", which is
   * consumed with them.
   */
  function ReadLine(data: string, p: nat): (r: LineRead)
    ensures r.line.None? <==> p >= |data|
    ensures r.line.None? ==> r.next == p
    ensures r.line.Some? ==> p < r.next <= |data| && forall k :: 0 <= k < |r.line.value| ==> !IsEol(r.line.value[k])
  {
    if p >= |data| then LineRead(None, p)
    else
      var e := LineEnd(data, p);
      var next :=
        if e == |data| then e
        else if data[e] == '\r' && e + 1 < |data| && data[e + 1] == '\n' then e + 2
        else e + 1;
      LineRead(Some(data[p..e]), next)
  }

  // ---------------------------------------------------------------------
  // The search

  /**
   * What a `code*word` line contributes to a search for `code`: nothing
   * when its code differs, its word when it matches, and the bad-format
   * IOException when it has no '*'.
   */
  function LineWords(line: string, code: string): (r: Attempt<seq<string>>)
    ensures r.Thrown? <==> '*' !in line
    ensures r.Thrown? ==> r.exception == BadFormat
    ensures r.Done? ==> |r.value| <= 1
  {
    match IndexOf(line, '*')
    case None => Thrown(BadFormat)
    case Some(star) => Done(if line[..star] == code then [line[star + 1..]] else [])
  }

  /** Appending a result after a list: an exception propagates. */
  function Then(a: Attempt<seq<string>>, b: Attempt<seq<string>>): (r: Attempt<seq<string>>)
    ensures r.Done? <==> a.Done? && b.Done?
    ensures r.Done? ==> r.value == a.value + b.value
  {
    if a.Thrown? then a else if b.Thrown? then b else Done(a.value + b.value)
  }

  /**
   * sequentialFind: the words of the lines that start before p2, reading
   * from p, of the lines whose code is `code`, in file order.
   */
  function Scan(data: string, code: string, p: nat, p2: int): Attempt<seq<string>>
    requires p2 < |data|
    decreases |data| - p
  {
    if p >= p2 then Done([])
    else
      var r := ReadLine(data, p);
      Then(LineWords(r.line.value, code), Scan(data, code, r.next, p2))
  }

  /** Half of n, rounded down. */
  function Half(n: nat): (h: nat)
    ensures 2 * h <= n <= 2 * h + 1
  {
    if n < 2 then 0 else 1 + Half(n - 2)
  }

  /**
   * (positionMarker1 + positionMarker2) / 2 in Java's long arithmetic, which
   * truncates toward zero: a sum of -1 gives 0.
   */
  function Midpoint(p1: nat, p2: int): (m: nat)
    requires p2 >= -1
    ensures p1 <= p2 ==> p1 <= m <= p2
    ensures p1 == p2 + 1 ==> m + 1 >= p1
  {
    if p1 + p2 < 0 then 0 else Half(p1 + p2)
  }

  /** The offset just before n: positionMarker - 1 in the search, and -1 before the start of the file. */
  function Before(n: nat): int
  {
    n - 1
  }

  /** What dichotomyFind learns from its probe. */
  datatype Probe =
    | PastRange                      // the probe line ends at or past p2
    | NoStar                         // the probe line has no '*'
    | Probe(positionMarker: nat, positionMarker2: nat, testcode: string, word: string)

  /**
   * dichotomyFind's probe over [p1, p2]: the line through the midpoint is
   * skipped and the next line, from positionMarker to positionMarker2, is
   * read and split at its first '*'.
   */
  function ProbeOf(data: string, p1: nat, p2: int): (r: Probe)
    requires -1 <= p2 < |data| && p1 <= p2 + 1
    ensures r.Probe? ==> p1 <= r.positionMarker < r.positionMarker2 < p2
  {
    var positionMarker := ReadLine(data, Midpoint(p1, p2)).next;
    var probe := ReadLine(data, positionMarker);
    if probe.next >= p2 then PastRange
    else
      var line := probe.line.value;
      match IndexOf(line, '*')
      case None => NoStar
      case Some(star) => Probe(positionMarker, probe.next, line[..star], line[star + 1..])
  }

  /**
   * dichotomyFind over [p1, p2]: when the probe ends at or past p2 the range
   * is scanned; otherwise the search goes left of the probe, right of it, or
   * both ways with the probe's word between, as the code sorts before,
   * after, or equal to the probe's.
   */
  function DichotomyFind(data: string, code: string, p1: nat, p2: int): Attempt<seq<string>>
    requires -1 <= p2 < |data| && p1 <= p2 + 1
    decreases p2 + 1 - p1
  {
    match ProbeOf(data, p1, p2)
    case PastRange => Scan(data, code, p1, p2)
    case NoStar => Thrown(BadFormat)
    case Probe(positionMarker, positionMarker2, testcode, word) =>
      Around(CompareTo(code, testcode), DichotomyFind(data, code, p1, Before(positionMarker)),
             word, DichotomyFind(data, code, positionMarker2, p2))
  }

  /**
   * What dichotomyFind returns around its probe, from the comparison of the
   * code sought with the probe's and the searches left and right of the
   * probe: only the side or sides the comparison selects are used, and a
   * left search that throws ends the search.
   */
  function Around(comparisonResult: int, left: Attempt<seq<string>>, word: string, right: Attempt<seq<string>>): Attempt<seq<string>>
  {
    if comparisonResult < 0 then left
    else if comparisonResult > 0 then right
    else if left.Thrown? then left
    else Then(Done(left.value + [word]), right)
  }

  /** getWords: the search over the whole file, with an IOException turned into an empty list. */
  function GetWords(data: string, code: string): (words: seq<string>)
    ensures DichotomyFind(data, code, 0, Before(|data|)).Thrown? ==> words == []
  {
    match DichotomyFind(data, code, 0, Before(|data|))
    case Thrown(_) => []
    case Done(ws) => ws
  }

  /** addWord: not supported. */
  function AddWord(word: string): (thrown: JavaException)
    ensures thrown == UnsupportedOperation
  {
    UnsupportedOperation
  }

  /**
   * sequentialFind: seeks to p1 and, while the file pointer is before p2,
   * reads a line and keeps its word when its code is the one sought.
   */
  method SequentialFind(data: string, code: string, p1: nat, p2: int) returns (r: Attempt<seq<string>>)
    requires p2 < |data|
    ensures r == Scan(data, code, p1, p2)
  {
    var wordList: seq<string> := [];
    var filePointer := p1;
    ThenDone([], [], Scan(data, code, p1, p2));
    while filePointer < p2
      invariant Scan(data, code, p1, p2) == Then(Done(wordList), Scan(data, code, filePointer, p2))
      decreases |data| - filePointer
    {
      var read := ReadLine(data, filePointer);
      var line := read.line.value;
      assert Scan(data, code, filePointer, p2) == Then(LineWords(line, code), Scan(data, code, read.next, p2));
      filePointer := read.next;
      var star := IndexOf(line, '*');
      if star.None? {
        return Thrown(BadFormat);
      }
      ThenDone(wordList, LineWords(line, code).value, Scan(data, code, filePointer, p2));
      if code == line[..star.value] {
        wordList := wordList + [line[star.value + 1..]];
      } else {
        assert wordList + [] == wordList;
      }
    }
    assert wordList + [] == wordList;
    return Done(wordList);
  }

  /** Words found so far, then a line's words, then the rest. */
  lemma ThenDone(wordList: seq<string>, mine: seq<string>, rest: Attempt<seq<string>>)
    ensures Then(Done(wordList), Then(Done(mine), rest)) == Then(Done(wordList + mine), rest)
    ensures Then(Done([]), rest) == rest
  {
    if rest.Done? {
      assert wordList + (mine + rest.value) == wordList + mine + rest.value;
      assert [] + rest.value == rest.value;
    }
  }

  // ---------------------------------------------------------------------
  // A well-formed dictionary file

  /** One `code*word` line of the file. */
  datatype WordLine = WordLine(code: string, word: string)

  /** A line the search can read back: no '*' in the code, and no end of line in code or word. */
  predicate WellFormed(e: WordLine)
  {
    '*' !in e.code &&
    (forall k :: 0 <= k < |e.code| ==> !IsEol(e.code[k])) &&
    (forall k :: 0 <= k < |e.word| ==> !IsEol(e.word[k]))
  }

  ghost predicate AllWellFormed(es: seq<WordLine>)
  {
    forall k :: 0 <= k < |es| ==> WellFormed(es[k])
  }

  /** The lines are in String order of their codes. */
  ghost predicate SortedByCode(es: seq<WordLine>)
  {
    forall i, k :: 0 <= i <= k < |es| ==> CompareTo(es[i].code, es[k].code) <= 0
  }

  function Text(e: WordLine): (t: string)
    ensures |t| == |e.code| + |e.word| + 2
  {
    e.code + "*" + e.word + "\n"
  }

  /** The file holding the lines in order. */
  function Join(es: seq<WordLine>): string
  {
    if es == [] then "" else Join(es[..|es| - 1]) + Text(es[|es| - 1])
  }

  /** The offset at which line i starts. */
  function Start(es: seq<WordLine>, i: nat): nat
    requires i <= |es|
  {
    |Join(es[..i])|
  }

  /** The words of the lines whose code is `code`, in file order. */
  function Words(es: seq<WordLine>, code: string): seq<string>
  {
    if es == [] then []
    else (if es[0].code == code then [es[0].word] else []) + Words(es[1..], code)
  }

  lemma {:induction false} WordsAppend(x: seq<WordLine>, y: seq<WordLine>, code: string)
    ensures Words(x + y, code) == Words(x, code) + Words(y, code)
  {
    if x != [] {
      assert (x + y)[1..] == x[1..] + y;
      WordsAppend(x[1..], y, code);
    } else {
      assert x + y == y;
    }
  }

  lemma {:induction false} NoneMatch(es: seq<WordLine>, code: string)
    requires forall k :: 0 <= k < |es| ==> es[k].code != code
    ensures Words(es, code) == []
  {
    if es != [] {
      NoneMatch(es[1..], code);
    }
  }

  // ---------------------------------------------------------------------
  // Where the lines lie in the file

  lemma StartNext(es: seq<WordLine>, i: nat)
    requires i < |es|
    ensures Join(es[..i + 1]) == Join(es[..i]) + Text(es[i])
    ensures Start(es, i + 1) == Start(es, i) + |Text(es[i])|
  {
    assert es[..i + 1][..i] == es[..i];
  }

  lemma JoinLength(es: seq<WordLine>)
    ensures |Join(es)| == Start(es, |es|)
  {
    assert es[..|es|] == es;
  }

  /** The text of the first m lines begins the file. */
  lemma {:induction false} JoinPrefix(es: seq<WordLine>, m: nat)
    requires m <= |es|
    ensures Start(es, m) <= |Join(es)| && Join(es)[..Start(es, m)] == Join(es[..m])
    decreases |es|
  {
    if m < |es| {
      var p := es[..|es| - 1];
      assert p[..m] == es[..m];
      JoinPrefix(p, m);
    } else {
      assert es[..m] == es;
    }
  }

  /** The k-th character of line i. */
  lemma CharAt(es: seq<WordLine>, i: nat, k: nat)
    requires i < |es| && k < |Text(es[i])|
    ensures Start(es, i) + k < |Join(es)|
    ensures Join(es)[Start(es, i) + k] == Text(es[i])[k]
  {
    StartNext(es, i);
    JoinPrefix(es, i + 1);
    assert Join(es[..i + 1])[Start(es, i) + k] == Text(es[i])[k];
  }

  /** From anywhere within line i, the end of the line is its '\n'. */
  lemma {:induction false} LineEndAt(es: seq<WordLine>, i: nat, p: nat)
    requires AllWellFormed(es) && i < |es|
    requires Start(es, i) <= p < Start(es, i + 1)
    ensures p <= |Join(es)| && LineEnd(Join(es), p) == Start(es, i + 1) - 1
    decreases Start(es, i + 1) - p
  {
    StartNext(es, i);
    var e := es[i];
    var k := p - Start(es, i);
    CharAt(es, i, k);
    if p < Start(es, i + 1) - 1 {
      assert WellFormed(e);
      var t := Text(e);
      if k < |e.code| {
        assert t[k] == e.code[k];
      } else if k > |e.code| {
        assert t[k] == e.word[k - |e.code| - 1];
      }
      assert !IsEol(Join(es)[p]);
      LineEndAt(es, i, p + 1);
    }
  }

  /** readLine from anywhere within line i leaves the file pointer at the start of line i + 1. */
  lemma ReadLineNext(es: seq<WordLine>, i: nat, p: nat)
    requires AllWellFormed(es) && i < |es|
    requires Start(es, i) <= p < Start(es, i + 1)
    ensures Start(es, i + 1) - 1 < |Join(es)|
    ensures ReadLine(Join(es), p) == LineRead(Some(Join(es)[p..Start(es, i + 1) - 1]), Start(es, i + 1))
  {
    var e := NewlineEnd(es, i, p);
    ReadLineToNewline(Join(es), p, e);
  }

  /** Line i ends with the '\n' just before line i + 1 starts, and no end of line comes sooner. */
  lemma NewlineEnd(es: seq<WordLine>, i: nat, p: nat) returns (e: nat)
    requires AllWellFormed(es) && i < |es|
    requires Start(es, i) <= p < Start(es, i + 1)
    ensures e + 1 == Start(es, i + 1) && p <= e < |Join(es)|
    ensures LineEnd(Join(es), p) == e && Join(es)[e] == '\n'
  {
    StartNext(es, i);
    e := Start(es, i + 1) - 1;
    LineEndAt(es, i, p);
    CharAt(es, i, |Text(es[i])| - 1);
  }

  /** A line ended by '\n': readLine returns the text before it and leaves the file pointer just after it. */
  lemma ReadLineToNewline(data: string, p: nat, e: nat)
    requires p <= e < |data| && LineEnd(data, p) == e && data[e] == '\n'
    ensures ReadLine(data, p) == LineRead(Some(data[p..e]), e + 1)
  {
  }

  /** readLine from the start of line i returns the line and leaves the file pointer at the next. */
  lemma ReadLineAt(es: seq<WordLine>, i: nat)
    requires AllWellFormed(es) && i < |es|
    ensures Start(es, i) < Start(es, i + 1)
    ensures ReadLine(Join(es), Start(es, i)) == LineRead(Some(es[i].code + "*" + es[i].word), Start(es, i + 1))
  {
    StartNext(es, i);
    ReadLineNext(es, i, Start(es, i));
    LineText(es, i);
  }

  /** Line i of the file, without its '\n'. */
  lemma LineText(es: seq<WordLine>, i: nat)
    requires i < |es|
    ensures Start(es, i) < Start(es, i + 1) <= |Join(es)|
    ensures Join(es)[Start(es, i)..Start(es, i + 1) - 1] == es[i].code + "*" + es[i].word
  {
    var p := Start(es, i);
    var q := Start(es, i + 1);
    var data := Join(es);
    var t := Text(es[i]);
    StartNext(es, i);
    JoinPrefix(es, i + 1);
    SliceWithin(data, q, p, q - 1);
    assert data[..q] == Join(es[..i]) + t;
    SliceAfter(Join(es[..i]), t, q - 1 - p);
    assert t[..|t| - 1] == es[i].code + "*" + es[i].word;
  }

  lemma SliceWithin(s: string, q: nat, lo: nat, hi: nat)
    requires lo <= hi <= q <= |s|
    ensures s[lo..hi] == s[..q][lo..hi]
  {
  }

  lemma SliceAfter(a: string, t: string, n: nat)
    requires n <= |t|
    ensures (a + t)[|a|..|a| + n] == t[..n]
  {
  }

  /** The '*' that ends a well-formed line's code is the line's first. */
  lemma StarAt(e: WordLine)
    requires WellFormed(e)
    ensures var line := e.code + "*" + e.word;
      IndexOf(line, '*') == Some(|e.code|) && line[..|e.code|] == e.code && line[|e.code| + 1..] == e.word
  {
    var line := e.code + "*" + e.word;
    assert line[|e.code|] == '*';
  }

  /** The offsets at which the lines start, and the end of the file. */
  function Starts(es: seq<WordLine>): (starts: seq<nat>)
    ensures |starts| == |es| + 1
    ensures forall i :: 0 <= i <= |es| ==> starts[i] == Start(es, i)
  {
    seq(|es| + 1, i requires 0 <= i <= |es| => Start(es, i))
  }

  /** readLine from anywhere in [lo, hi) leaves the file pointer at hi. */
  ghost predicate ReadsThrough(data: string, lo: nat, hi: nat)
  {
    forall p :: lo <= p < hi ==> ReadLine(data, p).next == hi
  }

  /**
   * Line e lies from offset lo to hi of the file `data`: readLine from lo
   * returns it, readLine from anywhere within it moves to hi, and it takes
   * at least two characters.
   */
  ghost predicate LineSpan(data: string, e: WordLine, lo: nat, hi: nat)
  {
    lo + 2 <= hi &&
    ReadLine(data, lo) == LineRead(Some(e.code + "*" + e.word), hi) &&
    ReadsThrough(data, lo, hi)
  }

  /** The file `data` holds the lines es, line i from offset starts[i] to starts[i + 1]. */
  ghost predicate LaidOut(data: string, es: seq<WordLine>, starts: seq<nat>)
  {
    |starts| == |es| + 1 && starts[|es|] == |data| &&
    forall i, j {:trigger LineSpan(data, es[i], starts[i], starts[j])} :: 0 <= i < |es| && j == i + 1 ==>
      LineSpan(data, es[i], starts[i], starts[j])
  }

  /** Where line i of a laid-out file lies. */
  lemma LineOf(data: string, es: seq<WordLine>, starts: seq<nat>, i: nat)
    requires LaidOut(data, es, starts) && i < |es|
    ensures LineSpan(data, es[i], starts[i], starts[i + 1])
  {
  }

  /** Line i of the joined file is laid out where Start says. */
  lemma LineLaidOut(es: seq<WordLine>, i: nat)
    requires AllWellFormed(es) && i < |es|
    ensures Start(es, i) + 2 <= Start(es, i + 1)
    ensures ReadLine(Join(es), Start(es, i)) == LineRead(Some(es[i].code + "*" + es[i].word), Start(es, i + 1))
    ensures ReadsThrough(Join(es), Start(es, i), Start(es, i + 1))
  {
    StartNext(es, i);
    ReadLineAt(es, i);
    forall p | Start(es, i) <= p < Start(es, i + 1)
      ensures ReadLine(Join(es), p).next == Start(es, i + 1)
    {
      ReadLineNext(es, i, p);
    }
  }

  /** The file written from well-formed lines is laid out line by line. */
  lemma JoinLaidOut(es: seq<WordLine>)
    requires AllWellFormed(es)
    ensures LaidOut(Join(es), es, Starts(es))
  {
    var starts := Starts(es);
    JoinLength(es);
    forall i, j | 0 <= i < |es| && j == i + 1
      ensures LineSpan(Join(es), es[i], starts[i], starts[j])
    {
      LineLaidOut(es, i);
    }
  }

  lemma {:induction false} StartsGrow(data: string, es: seq<WordLine>, starts: seq<nat>, i: nat, j: nat)
    requires LaidOut(data, es, starts) && i <= j <= |es|
    ensures starts[i] + 2 * (j - i) <= starts[j]
    decreases j
  {
    if i < j {
      StartsGrow(data, es, starts, i, j - 1);
      LineOf(data, es, starts, j - 1);
    }
  }

  /** Lines start in file order. */
  lemma StartsOrder(data: string, es: seq<WordLine>, starts: seq<nat>, i: nat, j: nat)
    requires LaidOut(data, es, starts) && i <= |es| && j <= |es|
    ensures starts[i] < starts[j] ==> i < j
  {
    if j <= i {
      StartsGrow(data, es, starts, j, i);
    }
  }

  /** The line through offset p, for p within lines a to b - 1. */
  lemma {:induction false} Locate(data: string, es: seq<WordLine>, starts: seq<nat>, a: nat, b: nat, p: nat) returns (i: nat)
    requires LaidOut(data, es, starts) && a < b <= |es| && starts[a] <= p < starts[b]
    ensures a <= i < b && starts[i] <= p < starts[i + 1]
    decreases b - a
  {
    if p < starts[a + 1] {
      i := a;
    } else {
      i := Locate(data, es, starts, a + 1, b, p);
    }
  }

  // ---------------------------------------------------------------------
  // What the searches find in a well-formed file

  /**
   * sequentialFind from the start of line a to just before the start of
   * line b reads exactly lines a to b - 1, and finds the words of those
   * whose code is the one sought.
   */
  lemma {:induction false} ScanLines(data: string, es: seq<WordLine>, starts: seq<nat>, code: string, a: nat, b: nat)
    requires LaidOut(data, es, starts) && AllWellFormed(es) && a <= b <= |es|
    ensures Before(starts[b]) < |data|
    ensures Scan(data, code, starts[a], Before(starts[b])) == Done(Words(es[a..b], code))
    decreases b - a
  {
    StartsGrow(data, es, starts, b, |es|);
    if a < b {
      StartsGrow(data, es, starts, a + 1, b);
      LineOf(data, es, starts, a);
      StarAt(es[a]);
      ScanLines(data, es, starts, code, a + 1, b);
      assert es[a..b][1..] == es[a + 1..b];
    } else {
      assert es[a..b] == [];
    }
  }

  /** A code that sorts before line j's matches no line from j on. */
  lemma MatchesNoneAfter(es: seq<WordLine>, code: string, j: nat, b: nat)
    requires SortedByCode(es) && j < b <= |es| && CompareTo(code, es[j].code) < 0
    ensures Words(es[j..b], code) == []
  {
    forall k | j <= k < b
      ensures es[k].code != code
    {
      CompareToZero(es[j].code, es[k].code);
      if es[j].code != es[k].code {
        CompareToTransitive(code, es[j].code, es[k].code);
      }
      CompareToZero(code, es[k].code);
    }
    NoneMatch(es[j..b], code);
  }

  /** A code that sorts after line j's matches no line up to j. */
  lemma MatchesNoneBefore(es: seq<WordLine>, code: string, a: nat, j: nat)
    requires SortedByCode(es) && a <= j < |es| && CompareTo(code, es[j].code) > 0
    ensures Words(es[a..j + 1], code) == []
  {
    CompareToAntisymmetric(code, es[j].code);
    forall k | a <= k <= j
      ensures es[k].code != code
    {
      CompareToZero(es[k].code, es[j].code);
      if es[k].code != es[j].code {
        CompareToTransitive(es[k].code, es[j].code, code);
      }
      CompareToZero(es[k].code, code);
    }
    NoneMatch(es[a..j + 1], code);
  }

  /** The probe when the line after the midpoint ends at or past p2. */
  lemma ProbePast(data: string, p1: nat, p2: int, q: nat, q2: nat)
    requires -1 <= p2 < |data| && p1 <= p2 + 1
    requires ReadLine(data, Midpoint(p1, p2)).next == q && ReadLine(data, q).next == q2 && q2 >= p2
    ensures ProbeOf(data, p1, p2) == PastRange
  {
  }

  /** The probe when the line after the midpoint is code*word and ends before p2. */
  lemma ProbeFound(data: string, p1: nat, p2: int, q: nat, q2: nat, code: string, word: string)
    requires -1 <= p2 < |data| && p1 <= p2 + 1
    requires ReadLine(data, Midpoint(p1, p2)).next == q
    requires ReadLine(data, q) == LineRead(Some(code + "*" + word), q2) && q2 < p2
    requires IndexOf(code + "*" + word, '*') == Some(|code|)
    ensures ProbeOf(data, p1, p2) == Probe(q, q2, code, word)
  {
    var line := code + "*" + word;
    assert line[..|code|] == code;
    assert line[|code| + 1..] == word;
  }

  /** The probe is line j when the line after the midpoint is line j and line j ends, at line k = j + 1, before p2. */
  lemma ProbeAtLine(data: string, es: seq<WordLine>, starts: seq<nat>, j: nat, k: nat, p1: nat, p2: int)
    requires LaidOut(data, es, starts) && AllWellFormed(es) && j < |es| && k == j + 1
    requires -1 <= p2 < |data| && p1 <= p2 + 1
    requires ReadLine(data, Midpoint(p1, p2)).next == starts[j] && starts[k] < p2
    ensures ProbeOf(data, p1, p2) == Probe(starts[j], starts[k], es[j].code, es[j].word)
  {
    LineOf(data, es, starts, j);
    StarAt(es[j]);
    ProbeFound(data, p1, p2, starts[j], starts[k], es[j].code, es[j].word);
  }

  /**
   * The probe over the lines a to b - 1: either it ends past the range, or
   * it is a line j strictly inside, with a line before it and one after.
   */
  lemma ProbeLines(data: string, es: seq<WordLine>, starts: seq<nat>, a: nat, b: nat) returns (j: nat, k: nat)
    requires LaidOut(data, es, starts) && AllWellFormed(es) && a <= b <= |es|
    ensures starts[a] <= starts[b] <= |data|
    ensures ProbeOf(data, starts[a], Before(starts[b])).PastRange? ||
      (a < j && k == j + 1 && k < b &&
       ProbeOf(data, starts[a], Before(starts[b])) == Probe(starts[j], starts[k], es[j].code, es[j].word))
  {
    StartsGrow(data, es, starts, a, b);
    StartsGrow(data, es, starts, b, |es|);
    var p1, p2 := starts[a], Before(starts[b]);
    var pm := Midpoint(p1, p2);
    var q := ReadLine(data, pm).next;
    j, k := 0, 0;
    if a < b {
      var i := Locate(data, es, starts, a, b, pm);
      j := i + 1;
      LineOf(data, es, starts, i);
      assert ReadsThrough(data, starts[i], starts[j]);
      if j < |es| {
        k := j + 1;
        var q2 := starts[k];
        if q2 < p2 {
          StartsOrder(data, es, starts, k, b);
          ProbeAtLine(data, es, starts, j, k, p1, p2);
        } else {
          LineOf(data, es, starts, j);
          ProbePast(data, p1, p2, q, q2);
        }
      } else {
        ProbePast(data, p1, p2, q, q);
      }
    } else {
      ProbePast(data, p1, p2, q, ReadLine(data, q).next);
    }
  }

  /** dichotomyFind scans the range when its probe ends past it. */
  lemma FindPast(data: string, code: string, p1: nat, p2: int)
    requires -1 <= p2 < |data| && p1 <= p2 + 1 && ProbeOf(data, p1, p2).PastRange?
    ensures DichotomyFind(data, code, p1, p2) == Scan(data, code, p1, p2)
  {
  }

  /** One step of dichotomyFind around a probe line with a '*'. */
  lemma FindProbe(data: string, code: string, p1: nat, p2: int)
    requires -1 <= p2 < |data| && p1 <= p2 + 1 && ProbeOf(data, p1, p2).Probe?
    ensures var r := ProbeOf(data, p1, p2);
      DichotomyFind(data, code, p1, p2) ==
      Around(CompareTo(code, r.testcode), DichotomyFind(data, code, p1, Before(r.positionMarker)),
             r.word, DichotomyFind(data, code, r.positionMarker2, p2))
  {
  }

  /** dichotomyFind around a probe line when the searches on either side succeed. */
  lemma FindAroundDone(data: string, code: string, p1: nat, p2: int, q: nat, q2: nat, testcode: string, word: string,
                       left: seq<string>, right: seq<string>)
    requires -1 <= p2 < |data| && p1 <= p2 + 1 && ProbeOf(data, p1, p2) == Probe(q, q2, testcode, word)
    requires DichotomyFind(data, code, p1, Before(q)) == Done(left)
    requires DichotomyFind(data, code, q2, p2) == Done(right)
    ensures DichotomyFind(data, code, p1, p2) == Around(CompareTo(code, testcode), Done(left), word, Done(right))
  {
    FindProbe(data, code, p1, p2);
  }

  /** A well-formed file of lines sorted by code, laid out at the offsets starts. */
  ghost predicate SortedFile(data: string, es: seq<WordLine>, starts: seq<nat>)
  {
    LaidOut(data, es, starts) && AllWellFormed(es) && SortedByCode(es)
  }

  /** A file's text, the lines it holds and the offsets at which they start. */
  datatype Layout = Layout(data: string, lines: seq<WordLine>, starts: seq<nat>)

  /** The layout of a well-formed file sorted by code. */
  ghost predicate IsSortedLayout(f: Layout)
  {
    SortedFile(f.data, f.lines, f.starts)
  }

  type SortedLayout = f: Layout | IsSortedLayout(f) ghost witness Layout("", [], [0])

  /** Whether lines a to b - 1 are a range of the file f. */
  ghost predicate InRange(f: Layout, a: nat, b: nat)
  {
    a <= b < |f.starts| && f.starts[a] <= f.starts[b] <= |f.data|
  }

  /** dichotomyFind's probe from the start of line a to just before the start of line b. */
  ghost function ProbeIn(f: Layout, a: nat, b: nat): Probe
  {
    if InRange(f, a, b) then ProbeOf(f.data, f.starts[a], Before(f.starts[b])) else NoStar
  }

  /** dichotomyFind from the start of line a to just before the start of line b. */
  ghost function FoundIn(f: Layout, code: string, a: nat, b: nat): Attempt<seq<string>>
  {
    if InRange(f, a, b) then DichotomyFind(f.data, code, f.starts[a], Before(f.starts[b])) else Thrown(BadFormat)
  }

  /** The probe of lines a to b - 1 of a sorted file is line j, which ends where line k = j + 1 starts. */
  ghost predicate ProbesLine(f: Layout, a: nat, j: nat, k: nat, b: nat)
  {
    if a < j && k == j + 1 && k < b <= |f.lines| && |f.starts| == |f.lines| + 1
    then ProbeIn(f, a, b) == Probe(f.starts[j], f.starts[k], f.lines[j].code, f.lines[j].word)
    else false
  }

  /**
   * dichotomyFind between the start of line a and just before the start of
   * line b finds exactly what sequentialFind would: the words of lines a to
   * b - 1 whose code is the one sought, in file order.
   */
  lemma {:induction false} DichotomyLines(f: SortedLayout, code: string, a: nat, b: nat)
    requires a <= b <= |f.lines|
    ensures InRange(f, a, b) && FoundIn(f, code, a, b) == Done(Words(f.lines[a..b], code))
    decreases 3 * (b - a) + 2
  {
    var j, k := ProbeLines(f.data, f.lines, f.starts, a, b);
    if ProbeIn(f, a, b).PastRange? {
      FindPast(f.data, code, f.starts[a], Before(f.starts[b]));
      ScanLines(f.data, f.lines, f.starts, code, a, b);
    } else {
      DichotomySides(f, code, a, j, k, b);
    }
  }

  /** dichotomyFind over lines a to b - 1 when its probe is line j: first the search left of line j. */
  lemma {:induction false} DichotomySides(f: SortedLayout, code: string, a: nat, j: nat, k: nat, b: nat)
    requires ProbesLine(f, a, j, k, b)
    ensures FoundIn(f, code, a, b) == Done(Words(f.lines[a..b], code))
    decreases 3 * (b - a) + 1
  {
    DichotomyLines(f, code, a, j);
    DichotomyRight(f, code, a, j, k, b);
  }

  /** Then the search right of line j, from line k = j + 1, and the two combined around line j. */
  lemma {:induction false} DichotomyRight(f: SortedLayout, code: string, a: nat, j: nat, k: nat, b: nat)
    requires ProbesLine(f, a, j, k, b)
    requires FoundIn(f, code, a, j) == Done(Words(f.lines[a..j], code))
    ensures FoundIn(f, code, a, b) == Done(Words(f.lines[a..b], code))
    decreases 3 * (b - a)
  {
    DichotomyLines(f, code, k, b);
    DichotomyAround(f, code, a, j, k, b);
  }

  /** dichotomyFind over lines a to b - 1 when its probe is line j and the searches either side of it succeed. */
  lemma DichotomyAround(f: SortedLayout, code: string, a: nat, j: nat, k: nat, b: nat)
    requires ProbesLine(f, a, j, k, b)
    requires FoundIn(f, code, a, j) == Done(Words(f.lines[a..j], code))
    requires FoundIn(f, code, k, b) == Done(Words(f.lines[k..b], code))
    ensures FoundIn(f, code, a, b) == Done(Words(f.lines[a..b], code))
  {
    FindAroundDone(f.data, code, f.starts[a], Before(f.starts[b]), f.starts[j], f.starts[k], f.lines[j].code, f.lines[j].word,
                   Words(f.lines[a..j], code), Words(f.lines[k..b], code));
    AroundWords(f.lines, code, a, j, k, b);
  }

  /**
   * In a file sorted by code, what dichotomyFind makes of the words before
   * line j and after it, as the code sought sorts before, after or equal to
   * line j's, is the words of the whole range.
   */
  lemma AroundWords(es: seq<WordLine>, code: string, a: nat, j: nat, k: nat, b: nat)
    requires SortedByCode(es) && a <= j < b <= |es| && k == j + 1
    ensures Around(CompareTo(code, es[j].code), Done(Words(es[a..j], code)), es[j].word, Done(Words(es[k..b], code)))
         == Done(Words(es[a..b], code))
  {
    var e := es[j];
    var left, right := Words(es[a..j], code), Words(es[j + 1..b], code);
    var c := CompareTo(code, e.code);
    WordsAround(es, code, a, j, b);
    if c < 0 {
      MatchesNoneAfter(es, code, j, b);
      assert Words(es[a..b], code) == left + [] == left;
    } else if c > 0 {
      MatchesNoneBefore(es, code, a, j);
      assert Words(es[a..b], code) == [] + right == right;
    } else {
      CompareToZero(code, e.code);
      assert Words(es[a..b], code) == left + [e.word] + right;
    }
  }

  /** The words of lines a to b - 1, around line j. */
  lemma WordsAround(es: seq<WordLine>, code: string, a: nat, j: nat, b: nat)
    requires a <= j < b <= |es|
    ensures Words(es[a..b], code) == Words(es[a..j], code) + Words(es[j..b], code)
    ensures Words(es[a..b], code) == Words(es[a..j + 1], code) + Words(es[j + 1..b], code)
    ensures Words(es[j..b], code) == (if es[j].code == code then [es[j].word] else []) + Words(es[j + 1..b], code)
  {
    assert es[a..b] == es[a..j] + es[j..b];
    assert es[a..b] == es[a..j + 1] + es[j + 1..b];
    assert es[j..b][1..] == es[j + 1..b];
    WordsAppend(es[a..j], es[j..b], code);
    WordsAppend(es[a..j + 1], es[j + 1..b], code);
  }

  /**
   * getWords on a well-formed file sorted by code returns the words of all
   * lines whose code is the one sought, in file order: the search loses
   * none and finds no other.
   */
  lemma GetWordsOfSortedFile(es: seq<WordLine>, code: string)
    requires AllWellFormed(es) && SortedByCode(es)
    ensures GetWords(Join(es), code) == Words(es, code)
  {
    var data, starts := Join(es), Starts(es);
    JoinLaidOut(es);
    var f: SortedLayout := Layout(data, es, starts);
    DichotomyLines(f, code, 0, |es|);
    assert FoundIn(f, code, 0, |es|) == DichotomyFind(data, code, 0, Before(|data|));
    assert es[0..|es|] == es;
    assert starts[0] == 0 by {
      assert es[..0] == [];
    }
  }
}
