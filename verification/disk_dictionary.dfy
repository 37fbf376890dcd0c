/**
 * DiskSpellingDictionary: a dictionary kept in a database file of
 * `code,word` records sorted by code, with an index from short index codes
 * to the span of the file their records occupy. The words directory, the
 * contents manifest and the database file are modelled as values; the
 * index is the map the build produces, and its text file words.idx is
 * modelled both as the source writes it and as the decimal text loadIndex
 * can read back.
 */
module DiskDictionary {
  import opened JavaText
  import Sorting
  import opened DiskIndex
  import Words

  /** Location: the span of the database file an index entry points to. */
  datatype Location = Location(startIndex: nat, length: nat)

  /** One file of the words directory: its name and length, and its lines. */
  datatype WordFile = WordFile(size: FileSize, lines: seq<string>)

  function Sizes(files: seq<WordFile>): seq<FileSize>
  {
    seq(|files|, k requires 0 <= k < |files| => files[k].size)
  }

  function AllLines(files: seq<WordFile>): (r: seq<seq<string>>)
    ensures |r| == |files|
    ensures forall k :: 0 <= k < |files| ==> r[k] == files[k].lines
  {
    seq(|files|, k requires 0 <= k < |files| => files[k].lines)
  }

  /** loadIndex over the entries the build wrote: each entry is put in turn, so a later entry for a code replaces an earlier one. */
  function IndexMap(entries: seq<IndexedCode>): (m: map<string, Location>)
    ensures forall c :: c in m <==> exists k :: 0 <= k < |entries| && entries[k].code == c
  {
    if entries == [] then map[]
    else
      var e := entries[|entries| - 1];
      var prev := entries[..|entries| - 1];
      assert forall k :: 0 <= k < |prev| ==> prev[k] == entries[k];
      IndexMap(prev)[e.code := Location(e.position, e.length)]
  }

  // ---------------------------------------------------------------------
  // words.idx: one line per index entry, holding the code, the position and
  // the length separated by ','.

  /** BufferedReader.readLine ends a line at '\n', at '\r' or at "\r\n". */
  predicate IsLineTerminator(c: char)
  {
    c == '\n' || c == '\r'
  }

  /** Where the line starting at the front of s ends: its first terminator, or the end of s. */
  function ReaderLineEnd(s: string): (e: nat)
    ensures e <= |s|
    ensures forall k :: 0 <= k < e ==> !IsLineTerminator(s[k])
    ensures e < |s| ==> IsLineTerminator(s[e])
  {
    if s == [] || IsLineTerminator(s[0]) then 0 else 1 + ReaderLineEnd(s[1..])
  }

  /** The lines successive readLine calls return before the null at the end of the text. */
  function ReaderLines(s: string): seq<string>
    decreases |s|
  {
    if s == [] then []
    else
      var e := ReaderLineEnd(s);
      var next := if e < |s| && s[e] == '\r' && e + 1 < |s| && s[e + 1] == '\n' then e + 2
                  else if e < |s| then e + 1
                  else e;
      [s[..e]] + ReaderLines(s[next..])
  }

  /** The character of a decimal digit. */
  function DigitChar(d: nat): char
    requires d < 10
  {
    ('0' as int + d) as char
  }

  /** String.valueOf(int) of a value that is not negative: its decimal digits, without leading zeros. */
  function Decimal(n: nat): (s: string)
    ensures |s| > 0 && AllDigits(s)
  {
    if n < 10 then [DigitChar(n)] else Decimal(n / 10) + [DigitChar(n % 10)]
  }

  predicate AllDigits(s: string)
  {
    forall k :: 0 <= k < |s| ==> IsDigit(s[k])
  }

  /** The value of a string of decimal digits. */
  function DigitsValue(s: string): nat
    requires AllDigits(s)
  {
    if s == [] then 0
    else
      assert IsDigit(s[|s| - 1]);
      DigitsValue(s[..|s| - 1]) * 10 + (s[|s| - 1] as int - '0' as int)
  }

  /**
   * Integer.parseInt on ASCII text: an optional sign, then at least one
   * digit, giving a value inside the int range; anything else throws
   * NumberFormatException.
   */
  function ParseInt(s: string): Attempt<int>
  {
    var signed := |s| > 0 && (s[0] == '-' || s[0] == '+');
    var digits := if signed then s[1..] else s;
    if digits == [] || !AllDigits(digits) then Thrown(NumberFormat)
    else
      var v: int := if signed && s[0] == '-' then -(DigitsValue(digits) as int) else DigitsValue(digits);
      if v < Words.IntMin || v > Words.IntMax then Thrown(NumberFormat) else Done(v)
  }

  lemma {:induction false} DigitsValueOfDecimal(n: nat)
    ensures DigitsValue(Decimal(n)) == n
  {
    if n >= 10 {
      DigitsValueOfDecimal(n / 10);
      var s := Decimal(n / 10) + [DigitChar(n % 10)];
      assert s[..|s| - 1] == Decimal(n / 10);
    }
  }

  /** parseInt reads back what String.valueOf writes, for every value an int can hold. */
  lemma ParseDecimal(n: nat)
    requires n <= Words.IntMax
    ensures ParseInt(Decimal(n)) == Done(n)
  {
    DigitsValueOfDecimal(n);
  }

  /** One line of words.idx as loadIndex reads it: the key and the two numbers. */
  datatype IndexLine = IndexLine(code: string, position: int, length: int)

  /**
   * One pass of loadIndex's loop: the line is split at ',', and fields[1]
   * and then fields[2] are parsed; a missing field throws
   * ArrayIndexOutOfBoundsException and a field that is not a number
   * NumberFormatException.
   */
  function ParseIndexLine(line: string): Attempt<IndexLine>
  {
    var fields := Split(line, ',');
    if |fields| < 2 then Thrown(IndexOutOfBounds)
    else match ParseInt(fields[1])
      case Thrown(x) => Thrown(x)
      case Done(position) =>
        if |fields| < 3 then Thrown(IndexOutOfBounds)
        else match ParseInt(fields[2])
          case Thrown(x) => Thrown(x)
          case Done(length) => Done(IndexLine(fields[0], position, length))
  }

  /** loadIndex's loop over the lines, stopping at the first line that throws. */
  function ParseIndexLines(lines: seq<string>): Attempt<seq<IndexLine>>
  {
    if lines == [] then Done([])
    else match ParseIndexLine(lines[0])
      case Thrown(x) => Thrown(x)
      case Done(first) =>
        match ParseIndexLines(lines[1..])
        case Thrown(x) => Thrown(x)
        case Done(rest) => Done([first] + rest)
  }

  /** loadIndex: the lines of words.idx in file order; each is put into the index in turn, as IndexMap does. */
  function LoadIndex(text: string): Attempt<seq<IndexLine>>
  {
    ParseIndexLines(ReaderLines(text))
  }

  /** The entry line the index writer is evidently meant to write: the numbers in decimal, as the manifest writes its lengths. */
  function IndexEntryLine(e: IndexedCode): string
  {
    e.code + "," + Decimal(e.position) + "," + Decimal(e.length)
  }

  /** words.idx as the corrected writer leaves it: one line per entry, each ended by newLine(). */
  function IndexText(entries: seq<IndexedCode>): string
  {
    if entries == [] then "" else IndexEntryLine(entries[0]) + "\n" + IndexText(entries[1..])
  }

  /**
   * Writer.write(int), which the source calls with the position and the
   * length: one UTF-16 unit, the low 16 bits of the value, which the UTF-8
   * encoder writes as '?' when it is a lone surrogate.
   */
  function RawChar(n: nat): char
  {
    var u := n % 0x1_0000;
    if 0xD800 <= u < 0xE000 then '?' else u as char
  }

  /** The entry line as the source writes it: the position and the length as one raw character each. */
  function IndexEntryLineAsWritten(e: IndexedCode): string
  {
    e.code + "," + [RawChar(e.position)] + "," + [RawChar(e.length)]
  }

  /** words.idx as the source writes it. */
  function IndexTextAsWritten(entries: seq<IndexedCode>): string
  {
    if entries == [] then "" else IndexEntryLineAsWritten(entries[0]) + "\n" + IndexTextAsWritten(entries[1..])
  }

  /** A code the index format can carry: no ',' and no line terminator. */
  predicate PlainCode(code: string)
  {
    forall k :: 0 <= k < |code| ==> code[k] != ',' && !IsLineTerminator(code[k])
  }

  /** Entries the corrected writer and loadIndex carry unchanged: plain codes and numbers an int holds. */
  predicate Writable(entries: seq<IndexedCode>)
  {
    forall k :: 0 <= k < |entries| ==>
      PlainCode(entries[k].code) && entries[k].position <= Words.IntMax && entries[k].length <= Words.IntMax
  }

  /** The lines loadIndex should read for the entries: the same codes and numbers in the same order. */
  function Written(entries: seq<IndexedCode>): seq<IndexLine>
  {
    seq(|entries|, k requires 0 <= k < |entries| => IndexLine(entries[k].code, entries[k].position, entries[k].length))
  }

  /** A line without terminators followed by '\n' is the first line readLine returns. */
  lemma ReaderLinesCons(line: string, rest: string)
    requires forall k :: 0 <= k < |line| ==> !IsLineTerminator(line[k])
    ensures ReaderLines(line + "\n" + rest) == [line] + ReaderLines(rest)
  {
    var s := line + "\n" + rest;
    assert forall k :: 0 <= k < |line| ==> s[k] == line[k];
    assert s[|line|] == '\n';
    var e := ReaderLineEnd(s);
    assert e == |line|;
    assert s[..e] == line;
    assert s[e + 1..] == rest;
  }

  /** The first field of a line is everything before its first ','. */
  lemma FieldsCons(x: string, rest: string)
    requires ',' !in x
    ensures Fields(x + "," + rest, ',') == [x] + Fields(rest, ',')
  {
    var s := x + "," + rest;
    assert forall k :: 0 <= k < |x| ==> s[k] == x[k];
    assert s[|x|] == ',';
    var i := IndexOf(s, ',').value;
    assert s[..|x| + 1][|x|] == ',';
    assert i == |x|;
    assert s[..i] == x;
    assert s[i + 1..] == rest;
  }

  /** A line of three fields, none holding ',' and the last not empty, splits into exactly those fields. */
  lemma SplitThreeFields(code: string, a: string, b: string)
    requires ',' !in code && ',' !in a && ',' !in b && b != []
    ensures Split(code + "," + a + "," + b, ',') == [code, a, b]
  {
    var s := code + "," + a + "," + b;
    ThreeFields(code, a, b);
    assert s[|code|] == ',';
  }

  lemma ThreeFields(code: string, a: string, b: string)
    requires ',' !in code && ',' !in a && ',' !in b
    ensures Fields(code + "," + a + "," + b, ',') == [code, a, b]
  {
    Regroup(code, a, b);
    FieldsCons(code, a + "," + b);
    TwoFields(a, b);
  }

  lemma Regroup(code: string, a: string, b: string)
    ensures code + "," + a + "," + b == code + "," + (a + "," + b)
  {
  }

  lemma TwoFields(a: string, b: string)
    requires ',' !in a && ',' !in b
    ensures Fields(a + "," + b, ',') == [a, b]
  {
    FieldsCons(a, b);
    FieldsWithoutSeparator(b, ',');
  }

  /** An entry line of a plain code is one line of the file, and it parses back into the entry. */
  lemma EntryLineReadsBack(e: IndexedCode)
    requires PlainCode(e.code) && e.position <= Words.IntMax && e.length <= Words.IntMax
    ensures forall k :: 0 <= k < |IndexEntryLine(e)| ==> !IsLineTerminator(IndexEntryLine(e)[k])
    ensures ParseIndexLine(IndexEntryLine(e)) == Done(IndexLine(e.code, e.position, e.length))
  {
    var line := IndexEntryLine(e);
    var p, l := Decimal(e.position), Decimal(e.length);
    assert forall k :: 0 <= k < |p| ==> IsDigit(p[k]);
    assert forall k :: 0 <= k < |l| ==> IsDigit(l[k]);
    assert ',' !in e.code && ',' !in p && ',' !in l;
    forall k | 0 <= k < |line|
      ensures !IsLineTerminator(line[k])
    {
      if k < |e.code| {
        assert line[k] == e.code[k];
      } else if k == |e.code| || k == |e.code| + 1 + |p| {
      } else if k <= |e.code| + |p| {
        assert line[k] == p[k - |e.code| - 1];
      } else {
        assert line[k] == l[k - |e.code| - 2 - |p|];
      }
    }
    SplitThreeFields(e.code, p, l);
    ParseDecimal(e.position);
    ParseDecimal(e.length);
  }

  lemma WrittenCons(entries: seq<IndexedCode>)
    requires entries != []
    ensures Written(entries) == [IndexLine(entries[0].code, entries[0].position, entries[0].length)] + Written(entries[1..])
  {
    var tail := entries[1..];
    forall k | 0 < k < |entries|
      ensures Written(entries)[k] == Written(tail)[k - 1]
    {
      assert tail[k - 1] == entries[k];
    }
  }

  /**
   * What the corrected writer writes, loadIndex reads back: every entry, in
   * order, with its code, position and length.
   */
  lemma {:induction false} IndexFileRoundTrip(entries: seq<IndexedCode>)
    requires Writable(entries)
    ensures LoadIndex(IndexText(entries)) == Done(Written(entries))
  {
    if entries != [] {
      var e, tail := entries[0], entries[1..];
      assert Writable(tail) by {
        forall k | 0 <= k < |tail|
          ensures PlainCode(tail[k].code) && tail[k].position <= Words.IntMax && tail[k].length <= Words.IntMax
        {
          assert tail[k] == entries[k + 1];
        }
      }
      IndexFileRoundTrip(tail);
      var line := IndexEntryLine(e);
      EntryLineReadsBack(e);
      assert IndexText(entries) == line + "\n" + IndexText(tail);
      ReaderLinesCons(line, IndexText(tail));
      var lines := [line] + ReaderLines(IndexText(tail));
      assert ReaderLines(IndexText(entries)) == lines;
      assert lines[0] == line && lines[1..] == ReaderLines(IndexText(tail));
      var first := IndexLine(e.code, e.position, e.length);
      assert ParseIndexLines(lines) == Done([first] + Written(tail));
      WrittenCons(entries);
    } else {
      assert ReaderLines(IndexText(entries)) == [];
      assert Written(entries) == [];
    }
  }

  /** Trailing empty fields are the only ones String.split drops. */
  lemma {:induction false} DropTrailingEmptyKeeps(fs: seq<string>, k: nat)
    requires k < |fs| && fs[k] != []
    ensures |DropTrailingEmpty(fs)| > k
  {
    if fs[|fs| - 1] == [] {
      DropTrailingEmptyKeeps(fs[..|fs| - 1], k);
    }
  }

  /**
   * The source's index file cannot be read back once it holds an entry at
   * position 0: that entry's line carries the character U+0000 as its
   * position, and parseInt throws NumberFormatException on it.
   */
  lemma AsWrittenIndexUnreadable(entries: seq<IndexedCode>)
    requires entries != [] && entries[0].position == 0 && PlainCode(entries[0].code)
    ensures LoadIndex(IndexTextAsWritten(entries)) == Thrown(NumberFormat)
  {
    var lines := ReaderLines(IndexTextAsWritten(entries));
    AsWrittenFirstLine(entries);
    NulPositionThrows(lines[0]);
  }

  /** parseInt throws on a position field that is U+0000. */
  lemma NulPositionThrows(line: string)
    requires |Split(line, ',')| >= 2 && Split(line, ',')[1] == "\0"
    ensures ParseIndexLine(line) == Thrown(NumberFormat)
  {
    var field := "\0";
    assert !AllDigits(field) by {
      assert !IsDigit(field[0]);
    }
    assert ParseInt(field) == Thrown(NumberFormat);
  }

  /** The first line of the source's index file has U+0000 as its second field. */
  lemma AsWrittenFirstLine(entries: seq<IndexedCode>)
    requires entries != [] && entries[0].position == 0 && PlainCode(entries[0].code)
    ensures var lines := ReaderLines(IndexTextAsWritten(entries));
      lines != [] && |Split(lines[0], ',')| >= 2 && Split(lines[0], ',')[1] == "\0"
  {
    var e := entries[0];
    var head := e.code + "," + "\0" + ",";
    var s := IndexTextAsWritten(entries);
    assert RawChar(0) == '\0';
    assert s == head + [RawChar(e.length)] + "\n" + IndexTextAsWritten(entries[1..]);
    forall k | 0 <= k < |head|
      ensures !IsLineTerminator(s[k])
    {
      if k < |e.code| {
        assert s[k] == e.code[k];
      }
    }
    assert s[|head| + 1] == '\n';
    var end := ReaderLineEnd(s);
    assert |head| <= end <= |head| + 1;
    var line, t := s[..end], s[|head|..end];
    assert ReaderLines(s)[0] == line;
    assert line == e.code + "," + "\0" + "," + t;
    NulSecondField(e.code, t);
  }

  /** A line made of a plain code, ',', U+0000 and ',' splits with U+0000 as its second field. */
  lemma NulSecondField(code: string, t: string)
    requires ',' !in code
    ensures var fs := Split(code + "," + "\0" + "," + t, ',');
      |fs| >= 2 && fs[1] == "\0"
  {
    var line := code + "," + "\0" + "," + t;
    NulSecondFieldOfFields(code, t);
    assert line[|code|] == ',';
    DropTrailingEmptyKeeps(Fields(line, ','), 1);
  }

  lemma NulSecondFieldOfFields(code: string, t: string)
    requires ',' !in code
    ensures var fs := Fields(code + "," + "\0" + "," + t, ',');
      |fs| >= 2 && fs[1] == "\0"
  {
    var rest := "\0" + "," + t;
    assert code + "," + "\0" + "," + t == code + "," + rest;
    FieldsCons(code, rest);
    FieldsCons("\0", t);
  }

  /** The first entry the build writes starts at position 0. */
  lemma LayoutStartsAtZero(ics: seq<string>, lens: seq<nat>)
    requires |ics| == |lens|
    ensures Layout(ics, lens) != [] ==> Layout(ics, lens)[0].position == 0
  {
    EntriesTile(ics, lens);
    RunsPartition(ics);
    var runs := Runs(ics);
    if runs != [] && |runs| > 1 {
      var es := Entries(lens, runs);
      assert Entries(lens, runs[..|runs| - 1])[0] == Entry(lens, runs[0]) == es[0];
    }
  }

  /**
   * So the source's constructor throws whenever the build writes an index
   * entry, that is whenever the records fall into two or more runs, once
   * the first index code is one the format can carry.
   */
  lemma BuiltIndexUnreadable(ics: seq<string>, lens: seq<nat>)
    requires |ics| == |lens|
    requires Layout(ics, lens) != [] && PlainCode(Layout(ics, lens)[0].code)
    ensures LoadIndex(IndexTextAsWritten(Layout(ics, lens))) == Thrown(NumberFormat)
  {
    LayoutStartsAtZero(ics, lens);
    AsWrittenIndexUnreadable(Layout(ics, lens));
  }

  /**
   * What reading a span yields: the bytes of the database file from the
   * span's start, and zero bytes where the span runs past the end of the
   * file (the buffer is allocated at the span's length and read into).
   */
  function ReadSpan(database: string, loc: Location): (data: string)
    ensures |data| == loc.length
    ensures loc.startIndex + loc.length <= |database| ==> data == database[loc.startIndex..loc.startIndex + loc.length]
  {
    var from := if loc.startIndex <= |database| then loc.startIndex else |database|;
    var to := if loc.startIndex + loc.length <= |database| then loc.startIndex + loc.length else |database|;
    database[from..to] + seq(loc.length - (to - from), _ => '\0')
  }

  /**
   * The words buildSortedFile writes from a list: each word, unless it
   * equals the word just before it in the list.
   */
  function Dedup(ws: seq<string>): seq<string>
  {
    if ws == [] then []
    else
      var prev := ws[..|ws| - 1];
      var w := ws[|ws| - 1];
      if prev != [] && prev[|prev| - 1] == w then Dedup(prev) else Dedup(prev) + [w]
  }

  /** Reading one more word of the list. */
  lemma DedupSnoc(ws: seq<string>, i: nat)
    requires i < |ws|
    ensures Dedup(ws[..i + 1]) == if i > 0 && ws[i - 1] == ws[i] then Dedup(ws[..i]) else Dedup(ws[..i]) + [ws[i]]
  {
    assert ws[..i + 1][..i] == ws[..i];
  }

  /** The last word written is the last word of the list. */
  lemma {:induction false} DedupLast(ws: seq<string>)
    requires ws != []
    ensures Dedup(ws) != [] && Dedup(ws)[|Dedup(ws)| - 1] == ws[|ws| - 1]
  {
    var prev := ws[..|ws| - 1];
    if prev != [] && prev[|prev| - 1] == ws[|ws| - 1] {
      DedupLast(prev);
    }
  }

  /** Every word of the list is written, and nothing else is. */
  lemma {:induction false} DedupMembers(ws: seq<string>)
    ensures forall w :: w in Dedup(ws) <==> w in ws
  {
    if ws != [] {
      var prev := ws[..|ws| - 1];
      DedupMembers(prev);
      assert ws == prev + [ws[|ws| - 1]];
    }
  }

  /** No word is written twice in a row. */
  lemma {:induction false} DedupNoRepeats(ws: seq<string>)
    ensures forall k :: 0 <= k < |Dedup(ws)| - 1 ==> Dedup(ws)[k] != Dedup(ws)[k + 1]
  {
    if ws != [] {
      var prev := ws[..|ws| - 1];
      DedupNoRepeats(prev);
      if prev != [] {
        DedupLast(prev);
      }
    }
  }

  /** From a sorted list, the written words are in strictly increasing order. */
  lemma {:induction false} DedupStrictlyIncreasing(ws: seq<string>)
    requires Sorting.Sorted(ws, CompareTo)
    ensures StrictlyIncreasing(Dedup(ws))
  {
    if ws != [] {
      var prev := ws[..|ws| - 1];
      var w := ws[|ws| - 1];
      SortedFront(ws);
      DedupStrictlyIncreasing(prev);
      if prev != [] && prev[|prev| - 1] != w {
        DedupLast(prev);
        var d := Dedup(prev);
        assert CompareTo(ws[|ws| - 2], ws[|ws| - 1]) <= 0;
        CompareToZero(prev[|prev| - 1], w);
        IncreasingSnoc(d, w);
      }
    }
  }

  lemma SortedFront(ws: seq<string>)
    requires ws != [] && Sorting.Sorted(ws, CompareTo)
    ensures Sorting.Sorted(ws[..|ws| - 1], CompareTo)
  {
    var prev := ws[..|ws| - 1];
    forall k | 0 <= k < |prev| - 1
      ensures CompareTo(prev[k], prev[k + 1]) <= 0
    {
      assert prev[k] == ws[k] && prev[k + 1] == ws[k + 1];
    }
  }

  lemma IncreasingSnoc(d: seq<string>, w: string)
    requires StrictlyIncreasing(d) && d != [] && CompareTo(d[|d| - 1], w) < 0
    ensures StrictlyIncreasing(d + [w])
  {
    assert forall k :: 0 <= k < |d| ==> (d + [w])[k] == d[k];
  }

  /**
   * buildSortedFile's writing loop: each word of the sorted list is written
   * unless it equals the word before it.
   */
  method WriteSortedWords(wordList: seq<string>) returns (written: seq<string>)
    ensures written == Dedup(wordList)
  {
    written := [];
    var previousWord: Option<string> := None;
    var i := 0;
    while i < |wordList|
      invariant 0 <= i <= |wordList|
      invariant written == Dedup(wordList[..i])
      invariant i == 0 ==> previousWord.None?
      invariant i > 0 ==> previousWord == Some(wordList[i - 1])
    {
      var word := wordList[i];
      DedupSnoc(wordList, i);
      if previousWord.None? || previousWord.value != word {
        written := written + [word];
      }
      previousWord := Some(word);
      i := i + 1;
    }
    assert wordList[..i] == wordList;
  }

  /**
   * buildSortedFile: every line of every word-list file that is not exactly
   * "" is trimmed, the lot is sorted, and repeats are written once.
   */
  method BuildSortedFile(files: seq<WordFile>) returns (sorted: seq<string>)
    ensures forall w :: w in sorted <==> w in Cleaned(Flatten(AllLines(files)))
    ensures StrictlyIncreasing(sorted)
  {
    var wordList := SortedWords(AllLines(files));
    SortedWordsSorted(AllLines(files));
    sorted := WriteSortedWords(wordList);
    DedupMembers(wordList);
    DedupStrictlyIncreasing(wordList);
    assert multiset(wordList) == multiset(Cleaned(Flatten(AllLines(files))));
    forall w
      ensures w in wordList <==> w in Cleaned(Flatten(AllLines(files)))
    {
      assert w in wordList <==> w in multiset(wordList);
    }
  }

  class DiskSpellingDictionary {
    const transform: string -> string
    /** words.db. */
    var database: string
    /** The index loaded from words.idx. */
    var index: map<string, Location>
    /** words.idx, with its numbers written in decimal. */
    var indexFile: string
    /** The contents manifest. */
    var contents: seq<FileSize>
    var indexCodeCache: seq<string>
    var ready: bool

    /**
     * DiskSpellingDictionary(File, File): the database is rebuilt from the
     * word-list files when they no longer match the manifest, and kept as
     * stored otherwise.
     */
    constructor (transform: string -> string, files: seq<WordFile>,
                 storedContents: seq<FileSize>, storedDatabase: string, storedIndexFile: string,
                 storedIndex: map<string, Location>)
      ensures this.transform == transform && ready
      ensures NeedsRebuild(storedContents, Sizes(files)) ==>
        contents == (if files == [] then [] else Sizes(files)) && Rebuilt(transform, files, database, index)
      ensures !NeedsRebuild(storedContents, Sizes(files)) ==>
        contents == storedContents && database == storedDatabase && indexFile == storedIndexFile && index == storedIndex
    {
      this.transform := transform;
      ready := false;
      contents := storedContents;
      database := storedDatabase;
      indexFile := storedIndexFile;
      index := storedIndex;
      indexCodeCache := [];
      new;
      if NeedsRebuild(storedContents, Sizes(files)) {
        var _, sorted, ics := BuildAndLoad(files);
        ready := true;
        assert RebuiltFrom(transform, files, database, index, sorted, ics);
      } else {
        ready := true;
      }
    }

    /**
     * buildNewDictionaryDatabase: the sorted file of the word lists, the
     * records and index of words.db built from it, the index written to
     * words.idx, and the manifest of the files' sizes (empty when there are
     * no files).
     */
    method BuildNewDictionaryDatabase(files: seq<WordFile>)
        returns (codeIndex: seq<IndexedCode>, ghost sorted: seq<string>, ghost ics: seq<string>)
      modifies `database, `indexCodeCache, `contents, `indexFile
      ensures contents == (if files == [] then [] else Sizes(files))
      ensures RebuiltFrom(transform, files, database, IndexMap(codeIndex), sorted, ics)
      ensures indexFile == IndexText(codeIndex)
    {
      var sortedFile := BuildSortedFile(files);
      codeIndex, ics := BuildCodeDatabase(sortedFile);
      indexFile := IndexText(codeIndex);
      contents := if files == [] then [] else Sizes(files);
      sorted := sortedFile;
    }

    /**
     * The constructor's rebuild branch: buildNewDictionaryDatabase, then
     * loadIndex of the index file it wrote, taken as the entries written;
     * IndexFileRoundTrip shows that loadIndex reads exactly those back
     * whenever the codes and numbers fit the format.
     */
    method BuildAndLoad(files: seq<WordFile>)
        returns (codeIndex: seq<IndexedCode>, ghost sorted: seq<string>, ghost ics: seq<string>)
      modifies `database, `indexCodeCache, `contents, `indexFile, `index
      ensures contents == (if files == [] then [] else Sizes(files))
      ensures RebuiltFrom(transform, files, database, index, sorted, ics)
      ensures indexFile == IndexText(codeIndex) && index == IndexMap(codeIndex)
    {
      codeIndex, sorted, ics := BuildNewDictionaryDatabase(files);
      index := IndexMap(codeIndex);
    }

    /** addWord: not supported by the on-disk dictionary. */
    method AddWord(word: string) returns (thrown: JavaException)
      ensures thrown == UnsupportedOperation
    {
      thrown := UnsupportedOperation;
    }

    function IsReady(): (r: bool)
      reads this
      ensures r == ready
    {
      ready
    }

    /**
     * buildCodeDatabase: the records are written in code order, and each
     * run of records sharing an index code becomes one index entry, except
     * that the last run is recorded only when it starts after the first
     * record.
     */
    method BuildCodeDatabase(sorted: seq<string>) returns (codeIndex: seq<IndexedCode>, ghost ics: seq<string>)
      modifies `database, `indexCodeCache
      ensures database == Concat(Records(transform, sorted))
      ensures |ics| == |sorted| && codeIndex == Layout(ics, TextLengths(Records(transform, sorted)))
      ensures IndexCodesOf(Records(transform, sorted), ics)
    {
      var codeWordList := Records(transform, sorted);
      ghost var lens: seq<nat> := [];
      ics := [];
      codeIndex := [];
      database := "";
      var currentCode: Option<string> := None;
      var currentPosition: nat := 0;
      var currentLength: nat := 0;
      var i := 0;
      while i < |codeWordList|
        invariant 0 <= i <= |codeWordList|
        invariant Progress(codeWordList, i, database, ics, lens, codeIndex, currentCode, currentPosition, currentLength)
      {
        codeIndex, currentCode, currentPosition, currentLength, ics, lens :=
          WriteRecord(codeWordList, i, codeIndex, currentCode, currentPosition, currentLength, ics, lens);
        i := i + 1;
      }
      assert codeWordList[..i] == codeWordList;
      LengthsAre(lens, codeWordList);
      BuildFinish(ics, lens, codeIndex, currentCode, currentPosition, currentLength);
      if currentCode.Some? && currentPosition != 0 && currentLength != 0 {
        codeIndex := codeIndex + [IndexedCode(currentCode.value, currentPosition, currentLength)];
      }
      assert codeIndex == Layout(ics, lens);
    }

    /**
     * One pass of buildCodeDatabase's loop: record i is written to the
     * database and its index code goes into the run bookkeeping.
     */
    method WriteRecord(codeWordList: seq<CodeWord>, i: nat, codeIndex: seq<IndexedCode>, currentCode: Option<string>,
                       currentPosition: nat, currentLength: nat, ghost ics: seq<string>, ghost lens: seq<nat>)
      returns (codeIndex': seq<IndexedCode>, currentCode': Option<string>, currentPosition': nat, currentLength': nat,
               ghost ics': seq<string>, ghost lens': seq<nat>)
      requires i < |codeWordList|
      requires Progress(codeWordList, i, database, ics, lens, codeIndex, currentCode, currentPosition, currentLength)
      modifies `database, `indexCodeCache
      ensures Progress(codeWordList, i + 1, database, ics', lens', codeIndex', currentCode', currentPosition', currentLength')
    {
      var codeWord := codeWordList[i];
      var thisCode := GetIndexCode(codeWord.code, codeWordList);
      var toWrite := RecordText(codeWord);
      codeIndex', currentCode', currentPosition', currentLength' :=
        NextRun(codeIndex, currentCode, currentPosition, currentLength, thisCode, |toWrite|, ics, lens);
      ConcatSnoc(codeWordList, i);
      database := database + toWrite;
      IndexCodesSnoc(codeWordList, ics, thisCode);
      LengthsSnoc(codeWordList, lens);
      ics' := ics + [thisCode];
      lens' := lens + [|toWrite|];
    }

    /**
     * The run bookkeeping of buildCodeDatabase for one record with index
     * code thisCode and length len: the first record opens a run, a new
     * code closes the open run into the index and opens the next, and the
     * same code lengthens the open run.
     */
    static method NextRun(codeIndex: seq<IndexedCode>, currentCode: Option<string>, currentPosition: nat,
                          currentLength: nat, thisCode: string, len: nat, ghost ics: seq<string>, ghost lens: seq<nat>)
      returns (codeIndex': seq<IndexedCode>, currentCode': Option<string>, currentPosition': nat, currentLength': nat)
      requires Building(ics, lens, codeIndex, currentCode, currentPosition, currentLength)
      ensures Building(ics + [thisCode], lens + [len], codeIndex', currentCode', currentPosition', currentLength')
    {
      codeIndex', currentCode', currentPosition', currentLength' := codeIndex, currentCode, currentPosition, currentLength;
      ghost var started := currentCode'.None?;
      if currentCode'.None? {
        currentCode' := Some(thisCode);
      }
      if currentCode'.value != thisCode {
        BuildNewRun(ics, lens, codeIndex', currentCode'.value, currentPosition', currentLength', thisCode, len);
        codeIndex' := codeIndex' + [IndexedCode(currentCode'.value, currentPosition', currentLength')];
        currentPosition' := currentPosition' + currentLength';
        currentLength' := len;
        currentCode' := Some(thisCode);
      } else {
        if started {
          BuildStart(ics, lens, codeIndex', currentPosition', currentLength', thisCode, len);
        } else {
          BuildSameRun(ics, lens, codeIndex', currentPosition', currentLength', thisCode, len);
        }
        currentLength' := currentLength' + len;
      }
    }

    /**
     * getIndexCode: a code of at most one character is its own index code.
     * Otherwise the first cached index code that begins it is used; failing
     * that, the shortest proper prefix whose count of records is within
     * MAXIMUM_INDEX_SIZE, which is then cached; failing that, the whole code,
     * which is not cached.
     */
    method GetIndexCode(code: string, codeWords: seq<CodeWord>) returns (r: string)
      modifies `indexCodeCache
      ensures StartsWith(code, r)
      ensures |code| <= 1 ==> r == code && indexCodeCache == old(indexCodeCache)
      ensures |code| > 1 && (exists c :: c in old(indexCodeCache) && StartsWith(code, c)) ==>
        indexCodeCache == old(indexCodeCache) &&
        exists k :: 0 <= k < |indexCodeCache| && r == indexCodeCache[k] &&
          forall m :: 0 <= m < k ==> !StartsWith(code, indexCodeCache[m])
      ensures |code| > 1 && (forall c :: c in old(indexCodeCache) ==> !StartsWith(code, c)) ==>
        ShortestCounted(code, codeWords, r) &&
        indexCodeCache == (if r == code then old(indexCodeCache) else old(indexCodeCache) + [r])
    {
      if |code| <= 1 {
        return code;
      }
      var k := CachedIndexCode(code);
      if k >= 0 {
        return indexCodeCache[k];
      }
      var foundSize := ShortestPrefix(code, codeWords);
      if foundSize == -1 {
        r := code;
      } else {
        r := code[..foundSize];
        indexCodeCache := indexCodeCache + [r];
      }
    }

    /** getIndexCode's search of the cache: the first cached index code that begins the code, or -1. */
    method CachedIndexCode(code: string) returns (k: int)
      ensures -1 <= k < |indexCodeCache|
      ensures k >= 0 ==> StartsWith(code, indexCodeCache[k])
      ensures forall m :: 0 <= m < k ==> !StartsWith(code, indexCodeCache[m])
      ensures k == -1 ==> forall c :: c in indexCodeCache ==> !StartsWith(code, c)
    {
      k := 0;
      while k < |indexCodeCache|
        invariant 0 <= k <= |indexCodeCache|
        invariant forall m :: 0 <= m < k ==> !StartsWith(code, indexCodeCache[m])
      {
        if StartsWith(code, indexCodeCache[k]) {
          return;
        }
        k := k + 1;
      }
      k := -1;
    }

    /**
     * getIndexCode's search for a prefix: the length of the shortest proper
     * prefix, at least one character long, whose count is within
     * MAXIMUM_INDEX_SIZE, or -1 when there is none.
     */
    method ShortestPrefix(code: string, codeWords: seq<CodeWord>) returns (foundSize: int)
      ensures foundSize == -1 || 1 <= foundSize < |code|
      ensures foundSize == -1 ==> PrefixesOver(codeWords, code, |code|)
      ensures foundSize != -1 ==> Counted(codeWords, code[..foundSize]) <= MaximumIndexSize
      ensures PrefixesOver(codeWords, code, foundSize)
    {
      foundSize := -1;
      var z := 1;
      while z < |code|
        invariant 1 <= z && (z == 1 || z <= |code|)
        invariant PrefixesOver(codeWords, code, z)
      {
        var count := CountPrefix(codeWords, code[..z]);
        if count <= MaximumIndexSize {
          foundSize := z;
          return;
        }
        PrefixesOverStep(codeWords, code, z);
        z := z + 1;
      }
    }

    /**
     * getIndexCode's counting loop. It starts at the record binarySearch
     * finds for the prefix, or at the first record when there is none, and
     * stops once the count passes MAXIMUM_INDEX_SIZE or a record lies past
     * the prefix in code order.
     */
    method CountPrefix(codeWords: seq<CodeWord>, thisCode: string) returns (count: nat)
      ensures count == Counted(codeWords, thisCode)
    {
      count := 0;
      var i := 0;
      while i < |codeWords|
        invariant 0 <= i <= |codeWords|
        invariant i == 0 ==> count == 0
        invariant i > 0 ==> Scan(codeWords, thisCode, i, count) == Counted(codeWords, thisCode)
        decreases |codeWords| - i
      {
        if i == 0 {
          i := BinarySearch(codeWords, thisCode);
          if i < 0 {
            i := 0;
          }
        }
        if StartsWith(codeWords[i].code, thisCode) {
          count := count + 1;
          if count > MaximumIndexSize {
            break;
          }
        } else if CompareTo(codeWords[i].code, thisCode) > 0 {
          break;
        }
        i := i + 1;
      }
    }

    /**
     * getLocationFor: the span of the longest non-empty prefix of the code
     * that the index holds, shortening the code one character at a time;
     * none when no such prefix is indexed.
     */
    method GetLocationFor(code: string) returns (loc: Option<Location>)
      ensures loc.None? <==> forall n :: 0 < n <= |code| ==> code[..n] !in index
      ensures loc.Some? ==> exists n :: (0 < n <= |code| && code[..n] in index && loc.value == index[code[..n]] &&
        forall m :: n < m <= |code| ==> code[..m] !in index)
    {
      var c := code;
      while |c| > 0
        invariant |c| <= |code| && c == code[..|c|]
        invariant forall m :: |c| < m <= |code| ==> code[..m] !in index
      {
        if c in index {
          return Some(index[c]);
        }
        c := c[..|c| - 1];
      }
      return None;
    }

    /**
     * getWords: the words of the records in the span of the code's longest
     * indexed prefix whose code is exactly the one asked for; none when the
     * code has no span. A line of
     * the span without a word field makes it throw.
     */
    method GetWords(code: string) returns (words: Attempt<seq<string>>)
      ensures (forall n :: 0 < n <= |code| ==> code[..n] !in index) ==> words == Done([])
      ensures (exists n :: 0 < n <= |code| && code[..n] in index) ==>
        exists n :: 0 < n <= |code| && code[..n] in index &&
          (forall m :: n < m <= |code| ==> code[..m] !in index) &&
          words == FilterRecords(ReadSpan(database, index[code[..n]]), code)
    {
      var location := GetLocationFor(code);
      if location.None? {
        return Done([]);
      }
      var data := ReadSpan(database, location.value);
      words := FilterRecords(data, code);
    }
  }

  /**
   * The database and index built from the word-list files: the records of
   * the sorted, repeat-free cleaned words, and one entry per run of index
   * codes, each index code beginning its record's code.
   */
  ghost predicate RebuiltFrom(transform: string -> string, files: seq<WordFile>, database: string,
                              index: map<string, Location>, sorted: seq<string>, ics: seq<string>)
  {
    (forall w :: w in sorted <==> w in Cleaned(Flatten(AllLines(files)))) &&
    StrictlyIncreasing(sorted) &&
    database == Concat(Records(transform, sorted)) &&
    |ics| == |sorted| && IndexCodesOf(Records(transform, sorted), ics) &&
    index == IndexMap(Layout(ics, TextLengths(Records(transform, sorted))))
  }

  ghost predicate Rebuilt(transform: string -> string, files: seq<WordFile>, database: string, index: map<string, Location>)
  {
    exists sorted, ics :: RebuiltFrom(transform, files, database, index, sorted, ics)
  }

  /** Each index code so far begins its record's code. */
  ghost predicate IndexCodesOf(rs: seq<CodeWord>, ics: seq<string>)
  {
    |ics| <= |rs| && forall j :: 0 <= j < |ics| ==> StartsWith(rs[j].code, ics[j])
  }

  lemma IndexCodesSnoc(rs: seq<CodeWord>, ics: seq<string>, c: string)
    requires IndexCodesOf(rs, ics) && |ics| < |rs| && StartsWith(rs[|ics|].code, c)
    ensures IndexCodesOf(rs, ics + [c])
  {
  }

  /** The lengths so far are those of the records' texts. */
  /** buildCodeDatabase's loop after i records: the database, their index codes and lengths, and the runs. */
  ghost predicate Progress(rs: seq<CodeWord>, i: nat, database: string, ics: seq<string>, lens: seq<nat>,
                           codeIndex: seq<IndexedCode>, currentCode: Option<string>, currentPosition: nat, currentLength: nat)
  {
    i <= |rs| && |ics| == i && |lens| == i &&
    IndexCodesOf(rs, ics) && database == Concat(rs[..i]) && LengthsOf(rs, lens) &&
    Building(ics, lens, codeIndex, currentCode, currentPosition, currentLength)
  }

  ghost predicate LengthsOf(rs: seq<CodeWord>, lens: seq<nat>)
  {
    |lens| <= |rs| && forall j :: 0 <= j < |lens| ==> lens[j] == |RecordText(rs[j])|
  }

  lemma LengthsSnoc(rs: seq<CodeWord>, lens: seq<nat>)
    requires LengthsOf(rs, lens) && |lens| < |rs|
    ensures LengthsOf(rs, lens + [|RecordText(rs[|lens|])|])
  {
  }

  lemma LengthsAre(lens: seq<nat>, rs: seq<CodeWord>)
    requires LengthsOf(rs, lens) && |lens| == |rs|
    ensures lens == TextLengths(rs)
  {
  }

  /** The database file grows by one record's text at a time. */
  lemma ConcatSnoc(rs: seq<CodeWord>, i: nat)
    requires i < |rs|
    ensures Concat(rs[..i + 1]) == Concat(rs[..i]) + RecordText(rs[i])
  {
    assert rs[..i + 1] == rs[..i] + [rs[i]];
    ConcatAppend(rs[..i], [rs[i]]);
    assert Concat([rs[i]]) == RecordText(rs[i]) + Concat([]);
  }

  /** No proper prefix shorter than r has its count within the maximum, and r is a proper prefix whose count is, or r is the whole code. */
  ghost predicate ShortestCounted(code: string, codeWords: seq<CodeWord>, r: string)
  {
    StartsWith(code, r) &&
    PrefixesOver(codeWords, code, |r|) &&
    (r == code ==> PrefixesOver(codeWords, code, |code|)) &&
    (r != code ==> 1 <= |r| < |code| && Counted(codeWords, r) <= MaximumIndexSize)
  }

  /** Every prefix of the code at least one and fewer than n characters long counts more records than the maximum. */
  ghost predicate PrefixesOver(codeWords: seq<CodeWord>, code: string, n: int)
  {
    forall y :: 1 <= y < n && y <= |code| ==> Counted(codeWords, code[..y]) > MaximumIndexSize
  }

  lemma PrefixesOverStep(codeWords: seq<CodeWord>, code: string, n: nat)
    requires n < |code| && PrefixesOver(codeWords, code, n) && Counted(codeWords, code[..n]) > MaximumIndexSize
    ensures PrefixesOver(codeWords, code, n + 1)
  {
  }

  /**
   * The state of buildCodeDatabase's loop after the records whose index
   * codes are ics: the closed runs are in codeIndex, and the open run has
   * the current code, position and length.
   */
  ghost predicate Building(ics: seq<string>, lens: seq<nat>, codeIndex: seq<IndexedCode>,
                           currentCode: Option<string>, currentPosition: nat, currentLength: nat)
  {
    |ics| == |lens| &&
    (ics == [] ==> codeIndex == [] && currentCode.None? && currentPosition == 0 && currentLength == 0) &&
    (ics != [] ==> OpenRun(Runs(ics), lens, codeIndex, currentCode, currentPosition, currentLength))
  }

  /**
   * The runs over records with lengths lens, as buildCodeDatabase holds
   * them: every run but the last has its entry in codeIndex, and the last
   * is open at the current code, position and length.
   */
  ghost predicate OpenRun(runs: seq<Run>, lens: seq<nat>, codeIndex: seq<IndexedCode>,
                          currentCode: Option<string>, currentPosition: nat, currentLength: nat)
  {
    RunsFit(runs, |lens|) && runs != [] &&
    codeIndex == Entries(lens, runs[..|runs| - 1]) &&
    currentCode == Some(runs[|runs| - 1].code) &&
    currentPosition == Offset(lens, runs[|runs| - 1].first) &&
    currentPosition + currentLength == Offset(lens, |lens|)
  }

  /** Closing the open run, which ends at the last record, and opening one for the next record. */
  lemma OpenRunNew(runs: seq<Run>, lens: seq<nat>, codeIndex: seq<IndexedCode>, currentCode: string,
                   currentPosition: nat, currentLength: nat, thisCode: string, len: nat)
    requires OpenRun(runs, lens, codeIndex, Some(currentCode), currentPosition, currentLength)
    requires runs[|runs| - 1].last == |lens|
    ensures OpenRun(runs + [Run(thisCode, |lens|, |lens| + 1)], lens + [len],
                    codeIndex + [IndexedCode(currentCode, currentPosition, currentLength)],
                    Some(thisCode), currentPosition + currentLength, len)
  {
    var runs' := runs + [Run(thisCode, |lens|, |lens| + 1)];
    OffsetPrefix(lens, len);
    EntriesExtend(lens, len, runs);
    EntriesSnoc(lens, runs);
    assert runs'[..|runs'| - 1] == runs;
    assert Entry(lens, runs[|runs| - 1]) == IndexedCode(currentCode, currentPosition, currentLength);
  }

  /** Extending the open run, which ends at the last record, by the next record. */
  lemma OpenRunSame(runs: seq<Run>, lens: seq<nat>, codeIndex: seq<IndexedCode>, thisCode: string, first: nat,
                    currentPosition: nat, currentLength: nat, len: nat)
    requires OpenRun(runs, lens, codeIndex, Some(thisCode), currentPosition, currentLength)
    requires runs[|runs| - 1].last == |lens| && first == runs[|runs| - 1].first
    ensures OpenRun(runs[..|runs| - 1] + [Run(thisCode, first, |lens| + 1)], lens + [len], codeIndex,
                    Some(thisCode), currentPosition, currentLength + len)
  {
    var front := runs[..|runs| - 1];
    var runs' := front + [Run(thisCode, first, |lens| + 1)];
    OffsetPrefix(lens, len);
    EntriesExtend(lens, len, front);
    assert runs'[..|runs'| - 1] == front;
  }

  /** The first record opens the first run. */
  lemma BuildStart(ics: seq<string>, lens: seq<nat>, codeIndex: seq<IndexedCode>,
                   currentPosition: nat, currentLength: nat, thisCode: string, len: nat)
    requires Building(ics, lens, codeIndex, None, currentPosition, currentLength)
    ensures Building(ics + [thisCode], lens + [len], codeIndex, Some(thisCode), currentPosition, currentLength + len)
  {
    assert ics + [thisCode] == [thisCode] && lens + [len] == [len];
    assert RunsOf([thisCode], 0) == [];
    assert Runs([thisCode]) == [Run(thisCode, 0, 1)];
    assert Offset([len], 1) == Offset([len], 0) + len;
  }

  /** A record with a new index code closes the open run and opens the next. */
  lemma BuildNewRun(ics: seq<string>, lens: seq<nat>, codeIndex: seq<IndexedCode>, currentCode: string,
                    currentPosition: nat, currentLength: nat, thisCode: string, len: nat)
    requires Building(ics, lens, codeIndex, Some(currentCode), currentPosition, currentLength)
    requires currentCode != thisCode
    ensures Building(ics + [thisCode], lens + [len], codeIndex + [IndexedCode(currentCode, currentPosition, currentLength)],
                     Some(thisCode), currentPosition + currentLength, len)
  {
    var runs := Runs(ics);
    RunsPartition(ics);
    RunsNext(ics, thisCode);
    assert Runs(ics + [thisCode]) == runs + [Run(thisCode, |lens|, |lens| + 1)];
    OpenRunNew(runs, lens, codeIndex, currentCode, currentPosition, currentLength, thisCode, len);
  }

  /** A record with the open run's index code lengthens that run. */
  lemma BuildSameRun(ics: seq<string>, lens: seq<nat>, codeIndex: seq<IndexedCode>,
                     currentPosition: nat, currentLength: nat, thisCode: string, len: nat)
    requires Building(ics, lens, codeIndex, Some(thisCode), currentPosition, currentLength)
    ensures Building(ics + [thisCode], lens + [len], codeIndex, Some(thisCode), currentPosition, currentLength + len)
  {
    var runs := Runs(ics);
    RunsPartition(ics);
    RunsNext(ics, thisCode);
    var first := runs[|runs| - 1].first;
    assert Runs(ics + [thisCode]) == runs[..|runs| - 1] + [Run(thisCode, first, |lens| + 1)];
    OpenRunSame(runs, lens, codeIndex, thisCode, first, currentPosition, currentLength, len);
  }

  /** The runs after one more record. */
  lemma RunsNext(ics: seq<string>, c: string)
    ensures Runs(ics + [c]) == Extend(Runs(ics), c, |ics|)
  {
    assert (ics + [c])[..|ics|] == ics[..|ics|];
    RunsOfPrefix(ics + [c], ics, |ics|);
  }

  /** Entries of runs within the first records do not change when a record is appended. */
  lemma EntriesExtend(lens: seq<nat>, len: nat, runs: seq<Run>)
    requires RunsFit(runs, |lens|)
    ensures RunsFit(runs, |lens| + 1)
    ensures Entries(lens + [len], runs) == Entries(lens, runs)
  {
    OffsetPrefix(lens, len);
  }

  lemma EntriesSnoc(lens: seq<nat>, runs: seq<Run>)
    requires RunsFit(runs, |lens|) && runs != []
    ensures RunsFit(runs[..|runs| - 1], |lens|)
    ensures Entries(lens, runs) == Entries(lens, runs[..|runs| - 1]) + [Entry(lens, runs[|runs| - 1])]
  {
  }

  /** The runs among the first n records depend only on those records. */
  lemma {:induction false} RunsOfPrefix(a: seq<string>, b: seq<string>, n: nat)
    requires n <= |a| && n <= |b| && a[..n] == b[..n]
    ensures RunsOf(a, n) == RunsOf(b, n)
  {
    if n > 0 {
      assert a[..n - 1] == a[..n][..n - 1] && b[..n - 1] == b[..n][..n - 1];
      assert a[n - 1] == a[..n][n - 1] && b[n - 1] == b[..n][n - 1];
      RunsOfPrefix(a, b, n - 1);
    }
  }

  /** Offsets within a list of lengths do not change when a length is appended. */
  lemma {:induction false} OffsetPrefix(lens: seq<nat>, len: nat)
    ensures forall j :: 0 <= j <= |lens| ==> Offset(lens + [len], j) == Offset(lens, j)
    ensures Offset(lens + [len], |lens| + 1) == Offset(lens, |lens|) + len
  {
    forall j | 0 <= j <= |lens|
      ensures Offset(lens + [len], j) == Offset(lens, j)
    {
      OffsetSame(lens, lens + [len], j);
    }
  }

  lemma {:induction false} OffsetSame(a: seq<nat>, b: seq<nat>, j: nat)
    requires j <= |a| && j <= |b| && a[..j] == b[..j]
    ensures Offset(a, j) == Offset(b, j)
  {
    if j > 0 {
      assert a[..j - 1] == a[..j][..j - 1] && b[..j - 1] == b[..j][..j - 1];
      assert a[j - 1] == a[..j][j - 1] && b[j - 1] == b[..j][j - 1];
      OffsetSame(a, b, j - 1);
    }
  }

  lemma BuildFinish(ics: seq<string>, lens: seq<nat>, codeIndex: seq<IndexedCode>,
                    currentCode: Option<string>, currentPosition: nat, currentLength: nat)
    requires Building(ics, lens, codeIndex, currentCode, currentPosition, currentLength)
    ensures (if currentCode.Some? && currentPosition != 0 && currentLength != 0
             then codeIndex + [IndexedCode(currentCode.value, currentPosition, currentLength)]
             else codeIndex) == Layout(ics, lens)
  {
    if ics != [] {
      var runs := Runs(ics);
      RunsPartition(ics);
      var last := runs[|runs| - 1];
      assert last.last == |lens|;
      var entry := Entry(lens, last);
      assert entry == IndexedCode(last.code, currentPosition, currentLength);
      assert Layout(ics, lens) == codeIndex + (if entry.position != 0 && entry.length != 0 then [entry] else []);
    }
  }
}
